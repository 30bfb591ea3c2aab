/** Python's stable sorted(items, key=...) as an insertion sort of keyed items, over any
    strict order on keys. */
module Sorting {

  ghost predicate StrictTotalOrder<K(!new)>(lt: (K, K) -> bool)
  {
    && (forall a, b :: lt(a, b) ==> !lt(b, a))
    && (forall a, b :: a != b ==> lt(a, b) || lt(b, a))
    && (forall a, b, c :: lt(a, b) && lt(b, c) ==> lt(a, c))
  }

  /** Strictly increasing keys. */
  ghost predicate Increasing<K, T>(ms: seq<(K, T)>, lt: (K, K) -> bool)
  {
    forall i, j :: 0 <= i < j < |ms| ==> lt(ms[i].0, ms[j].0)
  }

  predicate DistinctKeys<K(==), T>(ms: seq<(K, T)>)
  {
    forall i, j :: 0 <= i < j < |ms| ==> ms[i].0 != ms[j].0
  }

  /** Inserts before the first item whose key is not smaller. */
  function Insert<K, T>(m: (K, T), ms: seq<(K, T)>, lt: (K, K) -> bool): (r: seq<(K, T)>)
    ensures |r| == |ms| + 1
  {
    if ms == [] || !lt(ms[0].0, m.0) then [m] + ms
    else [ms[0]] + Insert(m, ms[1..], lt)
  }

  function Sort<K, T>(ms: seq<(K, T)>, lt: (K, K) -> bool): (r: seq<(K, T)>)
    ensures |r| == |ms|
  {
    if ms == [] then [] else Insert(ms[0], Sort(ms[1..], lt), lt)
  }

  lemma {:induction false} InsertMembers<K, T>(m: (K, T), ms: seq<(K, T)>, lt: (K, K) -> bool, x: (K, T))
    ensures x in Insert(m, ms, lt) <==> x == m || x in ms
  {
    if ms == [] || !lt(ms[0].0, m.0) {
    } else {
      InsertMembers(m, ms[1..], lt, x);
      assert x in ms <==> x == ms[0] || x in ms[1..];
    }
  }

  lemma {:induction false} SortMembers<K, T>(ms: seq<(K, T)>, lt: (K, K) -> bool, x: (K, T))
    ensures x in Sort(ms, lt) <==> x in ms
  {
    if ms != [] {
      SortMembers(ms[1..], lt, x);
      InsertMembers(ms[0], Sort(ms[1..], lt), lt, x);
      assert x in ms <==> x == ms[0] || x in ms[1..];
    }
  }

  lemma {:induction false} InsertIncreasing<K(!new), T>(m: (K, T), ms: seq<(K, T)>, lt: (K, K) -> bool)
    requires StrictTotalOrder(lt) && Increasing(ms, lt)
    requires forall x :: x in ms ==> x.0 != m.0
    ensures Increasing(Insert(m, ms, lt), lt)
  {
    if ms == [] {
    } else if !lt(ms[0].0, m.0) {
      assert ms[0] in ms;
      assert lt(m.0, ms[0].0);
      forall j | 0 < j < |ms|
        ensures lt(m.0, ms[j].0)
      {
        assert lt(ms[0].0, ms[j].0);
      }
    } else {
      forall x | x in ms[1..]
        ensures x.0 != m.0
      {
        assert x in ms;
      }
      InsertIncreasing(m, ms[1..], lt);
      var t := Insert(m, ms[1..], lt);
      forall j | 0 <= j < |t|
        ensures lt(ms[0].0, t[j].0)
      {
        InsertMembers(m, ms[1..], lt, t[j]);
        if t[j] != m {
          var k :| 0 <= k < |ms[1..]| && ms[1..][k] == t[j];
          assert ms[k+1] == t[j];
        }
      }
      assert Insert(m, ms, lt) == [ms[0]] + t;
    }
  }

  /** Sorting items with distinct keys yields strictly increasing keys. */
  lemma {:induction false} SortIncreasing<K(!new), T>(ms: seq<(K, T)>, lt: (K, K) -> bool)
    requires StrictTotalOrder(lt) && DistinctKeys(ms)
    ensures Increasing(Sort(ms, lt), lt)
  {
    if ms != [] {
      SortIncreasing(ms[1..], lt);
      forall x | x in Sort(ms[1..], lt)
        ensures x.0 != ms[0].0
      {
        SortMembers(ms[1..], lt, x);
        var k :| 0 <= k < |ms[1..]| && ms[1..][k] == x;
        assert ms[k+1] == x;
      }
      InsertIncreasing(ms[0], Sort(ms[1..], lt), lt);
    }
  }

  lemma TailMembership<K(!new), T>(a: seq<(K, T)>, lt: (K, K) -> bool, m: (K, T))
    requires StrictTotalOrder(lt) && a != [] && Increasing(a, lt)
    ensures m in a[1..] <==> m in a && m != a[0]
  {
    if m in a[1..] {
      var k :| 0 <= k < |a[1..]| && a[1..][k] == m;
      assert a[k+1] == m;
      assert lt(a[0].0, a[k+1].0);
    }
    if m in a && m != a[0] {
      var k :| 0 <= k < |a| && a[k] == m;
      assert a[1..][k-1] == m;
    }
  }

  lemma HeadIsLeast<K(!new), T>(a: seq<(K, T)>, lt: (K, K) -> bool, m: (K, T))
    requires a != [] && Increasing(a, lt) && m in a
    ensures m == a[0] || lt(a[0].0, m.0)
  {
    var k :| 0 <= k < |a| && a[k] == m;
    if k > 0 {
      assert lt(a[0].0, a[k].0);
    }
  }

  /** Two increasing sequences with the same members are the same sequence. */
  lemma {:induction false} IncreasingUnique<K(!new), T>(a: seq<(K, T)>, b: seq<(K, T)>, lt: (K, K) -> bool)
    requires StrictTotalOrder(lt) && Increasing(a, lt) && Increasing(b, lt)
    requires forall m :: m in a <==> m in b
    ensures a == b
  {
    assert b != [] ==> b[0] in a;
    if a != [] {
      assert a[0] in a && a[0] in b;
      assert b[0] in b;
      HeadIsLeast(a, lt, b[0]);
      HeadIsLeast(b, lt, a[0]);
      assert a[0] == b[0];
      forall m
        ensures m in a[1..] <==> m in b[1..]
      {
        TailMembership(a, lt, m);
        TailMembership(b, lt, m);
      }
      IncreasingUnique(a[1..], b[1..], lt);
      assert a == [a[0]] + a[1..] && b == [b[0]] + b[1..];
    }
  }

  /** The sorted form depends only on the set of members, not on their order. */
  lemma SortDependsOnMembers<K(!new), T>(a: seq<(K, T)>, b: seq<(K, T)>, lt: (K, K) -> bool)
    requires StrictTotalOrder(lt) && DistinctKeys(a) && DistinctKeys(b)
    requires forall m :: m in a <==> m in b
    ensures Sort(a, lt) == Sort(b, lt)
  {
    SortIncreasing(a, lt);
    SortIncreasing(b, lt);
    forall m
      ensures m in Sort(a, lt) <==> m in Sort(b, lt)
    {
      SortMembers(a, lt, m);
      SortMembers(b, lt, m);
    }
    IncreasingUnique(Sort(a, lt), Sort(b, lt), lt);
  }

  function MapItems<K, S, T>(f: S -> T, ms: seq<(K, S)>): (r: seq<(K, T)>)
    ensures |r| == |ms|
    ensures forall i :: 0 <= i < |ms| ==> r[i] == (ms[i].0, f(ms[i].1))
  {
    if ms == [] then [] else [(ms[0].0, f(ms[0].1))] + MapItems(f, ms[1..])
  }

  lemma {:induction false} InsertCommutesWithMap<K, S, T>(f: S -> T, m: (K, S), ms: seq<(K, S)>, lt: (K, K) -> bool)
    ensures MapItems(f, Insert(m, ms, lt)) == Insert((m.0, f(m.1)), MapItems(f, ms), lt)
  {
    if ms == [] || !lt(ms[0].0, m.0) {
      assert ([m] + ms)[1..] == ms;
    } else {
      InsertCommutesWithMap(f, m, ms[1..], lt);
      assert ([ms[0]] + Insert(m, ms[1..], lt))[1..] == Insert(m, ms[1..], lt);
      assert MapItems(f, ms)[1..] == MapItems(f, ms[1..]);
    }
  }

  /** Sorting looks only at keys, so it commutes with any change of the items. */
  lemma {:induction false} SortCommutesWithMap<K, S, T>(f: S -> T, ms: seq<(K, S)>, lt: (K, K) -> bool)
    ensures MapItems(f, Sort(ms, lt)) == Sort(MapItems(f, ms), lt)
  {
    if ms != [] {
      SortCommutesWithMap(f, ms[1..], lt);
      assert MapItems(f, ms)[1..] == MapItems(f, ms[1..]);
      InsertCommutesWithMap(f, ms[0], Sort(ms[1..], lt), lt);
    }
  }
}
