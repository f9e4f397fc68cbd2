/** Byte strings, and the split and join on a separator byte that the wire codecs share. */
module Bytes {
  type byte = b: int | 0 <= b < 256

  type Bytes = seq<byte>

  lemma ConcatAssociates<T>(a: seq<T>, b: seq<T>, c: seq<T>)
    ensures a + (b + c) == a + b + c
  {
  }

  /** The parts of s between separators; there is always at least one. */
  function Split(s: Bytes, sep: byte): (parts: seq<Bytes>)
    ensures |parts| >= 1
  {
    if s == [] then [[]]
    else
      var rest := Split(s[1..], sep);
      if s[0] == sep then [[]] + rest else [[s[0]] + rest[0]] + rest[1..]
  }

  function Join(parts: seq<Bytes>, sep: byte): Bytes
  {
    if parts == [] then []
    else if |parts| == 1 then parts[0]
    else parts[0] + [sep] + Join(parts[1..], sep)
  }

  /** Splitting never leaves a separator inside a part. */
  lemma {:induction false} PartsHaveNoSeparator(s: Bytes, sep: byte)
    ensures forall p <- Split(s, sep) :: sep !in p
  {
    if s != [] {
      PartsHaveNoSeparator(s[1..], sep);
    }
  }

  /** A string without the separator is its own only part. */
  lemma {:induction false} SplitWithoutSeparator(s: Bytes, sep: byte)
    requires sep !in s
    ensures Split(s, sep) == [s]
  {
    if s != [] {
      SplitWithoutSeparator(s[1..], sep);
      assert [s[0]] + s[1..] == s;
    }
  }

  lemma {:induction false} SplitAfterPart(p: Bytes, sep: byte, t: Bytes)
    requires sep !in p
    ensures Split(p + [sep] + t, sep) == [p] + Split(t, sep)
  {
    var s := p + [sep] + t;
    if p == [] {
      assert s[1..] == t;
    } else {
      SplitAfterPart(p[1..], sep, t);
      assert s[1..] == p[1..] + [sep] + t;
      assert [s[0]] + p[1..] == p;
    }
  }

  /** Splitting undoes joining, for any non-empty list of separator-free parts. */
  lemma {:induction false} SplitJoin(parts: seq<Bytes>, sep: byte)
    requires parts != []
    requires forall p <- parts :: sep !in p
    ensures Split(Join(parts, sep), sep) == parts
  {
    if |parts| == 1 {
      SplitWithoutSeparator(parts[0], sep);
    } else {
      SplitJoin(parts[1..], sep);
      SplitAfterPart(parts[0], sep, Join(parts[1..], sep));
    }
  }

  lemma {:induction false} JoinOfNonEmptyParts(parts: seq<Bytes>, sep: byte)
    requires forall p <- parts :: sep !in p
    ensures sep in Join(parts, sep) <==> |parts| > 1
  {
    if |parts| > 1 {
      assert Join(parts, sep)[|parts[0]|] == sep;
    }
  }
}
