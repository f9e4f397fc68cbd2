/** Finite sets and maps, visited in any order. */
module Sets {
  /** A range loop's next element: any one that is left. */
  method TakeAny<T(==)>(s: set<T>) returns (x: T)
    requires s != {}
    ensures x in s
  {
    x :| x in s;
  }

  /** The range loop that deletes what is not to be kept, in whatever order it meets the entries. */
  method DeleteUnless<K(==), V>(m: map<K, V>, keep: V -> bool) returns (kept: map<K, V>)
    ensures kept == map k | k in m && keep(m[k]) :: m[k]
    ensures forall k :: k in kept <==> k in m && keep(m[k])
    ensures forall k <- kept :: kept[k] == m[k]
  {
    kept := m;
    var rest := m.Keys;
    while rest != {}
      invariant rest <= m.Keys
      invariant kept == map k | k in m && (k in rest || keep(m[k])) :: m[k]
      decreases rest
    {
      var k := TakeAny(rest);
      rest := rest - {k};
      if !keep(m[k]) {
        kept := kept - {k};
      }
    }
  }

  /** The size of a set of integers that fills an interval, and of one that lies inside it. */
  lemma {:induction false} IntervalSize(s: set<int>, lo: int, hi: int)
    requires forall k <- s :: lo <= k <= hi
    requires lo <= hi + 1
    ensures |s| <= hi - lo + 1
    ensures (forall k :: lo <= k <= hi ==> k in s) ==> |s| == hi - lo + 1
    decreases hi - lo + 1
  {
    if hi < lo {
      assert forall k :: k !in s;
      assert s == {};
    } else {
      var t := s - {hi};
      IntervalSize(t, lo, hi - 1);
      if hi in s {
        assert s == t + {hi};
      } else {
        assert s == t;
      }
    }
  }
}
