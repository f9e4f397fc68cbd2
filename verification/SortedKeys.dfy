/** sort.Strings: byte-wise lexicographic order, and the one sorted listing a set of strings has. */
module SortedKeys {
  import opened Bytes

  predicate Less(a: Bytes, b: Bytes)
  {
    if b == [] then false
    else if a == [] then true
    else a[0] < b[0] || (a[0] == b[0] && Less(a[1..], b[1..]))
  }

  /** The first place where the strings differ decides, a missing byte coming before every other. */
  ghost predicate DecidedAt(a: Bytes, b: Bytes, k: nat)
  {
    k <= |a| && k < |b| && a[..k] == b[..k] && (k == |a| || a[k] < b[k])
  }

  lemma {:induction false} LessIsLexicographic(a: Bytes, b: Bytes)
    ensures Less(a, b) <==> exists k :: DecidedAt(a, b, k)
  {
    if b != [] {
      if a == [] || a[0] < b[0] {
        assert DecidedAt(a, b, 0);
      } else if a[0] == b[0] {
        LessIsLexicographic(a[1..], b[1..]);
        if k: nat :| DecidedAt(a, b, k) {
          assert k > 0;
          assert a[1..][..k - 1] == a[..k][1..] == b[..k][1..] == b[1..][..k - 1];
          assert DecidedAt(a[1..], b[1..], k - 1);
        }
        if k: nat :| DecidedAt(a[1..], b[1..], k) {
          assert a[..k + 1] == [a[0]] + a[1..][..k] && b[..k + 1] == [b[0]] + b[1..][..k];
          assert DecidedAt(a, b, k + 1);
        }
      } else {
        forall k: nat
          ensures !DecidedAt(a, b, k)
        {
          assert k > 0 && k <= |a| && k < |b| ==> a[..k][0] != b[..k][0];
        }
      }
    }
  }

  lemma {:induction false} LessIsTransitive(a: Bytes, b: Bytes, c: Bytes)
    requires Less(a, b) && Less(b, c)
    ensures Less(a, c)
  {
    if a != [] && a[0] == b[0] == c[0] {
      LessIsTransitive(a[1..], b[1..], c[1..]);
    }
  }

  lemma {:induction false} LessIsTotal(a: Bytes, b: Bytes)
    ensures Less(a, b) || a == b || Less(b, a)
    ensures !(Less(a, b) && Less(b, a))
    ensures !Less(a, a)
  {
    if a != [] && b != [] {
      LessIsTotal(a[1..], b[1..]);
      LessIsTotal(a[1..], a[1..]);
      assert a == [a[0]] + a[1..] && b == [b[0]] + b[1..];
    } else if a != [] {
      LessIsTotal(a[1..], a[1..]);
    }
  }

  ghost predicate Ascending(ks: seq<Bytes>)
  {
    forall i, j :: 0 <= i < j < |ks| ==> Less(ks[i], ks[j])
  }

  ghost predicate Lists(ks: seq<Bytes>, keys: set<Bytes>)
  {
    forall k :: k in ks <==> k in keys
  }

  lemma EmptyListing(a: seq<Bytes>, keys: set<Bytes>)
    requires Lists(a, keys)
    ensures a == [] <==> keys == {}
  {
    if a != [] {
      assert a[0] in a;
    }
  }

  /** Two ascending listings of one set are the same list, so iteration order cannot show. */
  lemma {:induction false} SortedListingIsUnique(a: seq<Bytes>, b: seq<Bytes>, keys: set<Bytes>)
    requires Ascending(a) && Ascending(b) && Lists(a, keys) && Lists(b, keys)
    ensures a == b
  {
    EmptyListing(a, keys);
    EmptyListing(b, keys);
    if keys != {} {
      assert a[0] in b && b[0] in a;
      LessIsTotal(a[0], b[0]);
      assert a[0] == b[0];
      TailListing(a, keys);
      TailListing(b, keys);
      SortedListingIsUnique(a[1..], b[1..], keys - {a[0]});
    }
  }

  lemma TailListing(a: seq<Bytes>, keys: set<Bytes>)
    requires a != [] && Ascending(a) && Lists(a, keys)
    ensures Ascending(a[1..]) && Lists(a[1..], keys - {a[0]})
  {
    LessIsTotal(a[0], a[0]);
    assert a == [a[0]] + a[1..];
    forall k
      ensures k in a[1..] <==> k in keys - {a[0]}
    {
      if k in a[1..] {
        assert k in a;
      }
    }
  }

  /** Insertion into an ascending listing. */
  function Insert(k: Bytes, ks: seq<Bytes>): seq<Bytes>
  {
    if ks == [] then [k]
    else if Less(k, ks[0]) then [k] + ks
    else [ks[0]] + Insert(k, ks[1..])
  }

  lemma {:induction false} InsertedListing(k: Bytes, ks: seq<Bytes>, keys: set<Bytes>)
    requires Ascending(ks) && Lists(ks, keys) && k !in keys
    ensures Ascending(Insert(k, ks)) && Lists(Insert(k, ks), keys + {k})
  {
    if ks == [] {
    } else if Less(k, ks[0]) {
      forall j | 0 <= j < |ks|
        ensures Less(k, ks[j])
      {
        if j > 0 {
          LessIsTransitive(k, ks[0], ks[j]);
        }
      }
    } else {
      LessIsTotal(k, ks[0]);
      assert ks[0] in ks;
      assert Less(ks[0], k);
      TailListing(ks, keys);
      InsertedListing(k, ks[1..], keys - {ks[0]});
      var rest := Insert(k, ks[1..]);
      forall j | 0 <= j < |rest|
        ensures Less(ks[0], rest[j])
      {
        assert rest[j] in rest;
        if rest[j] != k {
          assert rest[j] in ks[1..];
        }
      }
    }
  }

  ghost function Sorted(keys: set<Bytes>): (ks: seq<Bytes>)
    ensures Ascending(ks) && Lists(ks, keys)
  {
    if keys == {} then []
    else
      var k :| k in keys;
      InsertedListing(k, Sorted(keys - {k}), keys - {k});
      assert keys - {k} + {k} == keys;
      Insert(k, Sorted(keys - {k}))
  }

  method SortStrings(keys: set<Bytes>) returns (ks: seq<Bytes>)
    ensures ks == Sorted(keys)
  {
    ks := [];
    var rest, done := keys, {};
    while rest != {}
      invariant done !! rest && done + rest == keys
      invariant Ascending(ks) && Lists(ks, done)
      decreases rest
    {
      var k :| k in rest;
      InsertedListing(k, ks, done);
      ks := Insert(k, ks);
      rest, done := rest - {k}, done + {k};
    }
    SortedListingIsUnique(ks, Sorted(keys), keys);
  }

  function Without(ks: seq<Bytes>, k: Bytes): seq<Bytes>
  {
    if ks == [] then [] else (if ks[0] == k then [] else [ks[0]]) + Without(ks[1..], k)
  }

  lemma {:induction false} WithoutListing(ks: seq<Bytes>, k: Bytes, keys: set<Bytes>)
    requires Ascending(ks) && Lists(ks, keys)
    ensures Ascending(Without(ks, k)) && Lists(Without(ks, k), keys - {k})
  {
    if ks != [] {
      TailListing(ks, keys);
      WithoutListing(ks[1..], k, keys - {ks[0]});
      var rest := Without(ks[1..], k);
      forall j | 0 <= j < |rest|
        ensures Less(ks[0], rest[j])
      {
        assert rest[j] in rest;
        assert rest[j] in ks[1..];
      }
    }
  }

  /** Dropping one key from the listing of a set lists the set without it. */
  lemma SortedWithout(keys: set<Bytes>, k: Bytes)
    ensures Without(Sorted(keys), k) == Sorted(keys - {k})
  {
    WithoutListing(Sorted(keys), k, keys);
    SortedListingIsUnique(Without(Sorted(keys), k), Sorted(keys - {k}), keys - {k});
  }
}
