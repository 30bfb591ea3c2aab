/** Names in Python's string order, and the sorted sequence of a set of names. */
module SortedNames {
  import opened KeyOrder
  import Sorting

  /** Code-point order. */
  predicate Before(a: string, b: string)
  {
    Less(CodePoints(a), CodePoints(b))
  }

  lemma CodePointsInjective(a: string, b: string)
    requires CodePoints(a) == CodePoints(b)
    ensures a == b
  {
    assert |a| == |CodePoints(a)| == |b|;
    forall i | 0 <= i < |a|
      ensures a[i] == b[i]
    {
      assert CodePoints(a)[i] == CodePoints(b)[i];
    }
  }

  lemma BeforeTotal(a: string, b: string)
    ensures !(Before(a, b) && Before(b, a))
    ensures Before(a, b) || Before(b, a) || a == b
    ensures Before(a, b) ==> a != b
  {
    LessTrichotomy(CodePoints(a), CodePoints(b));
    if CodePoints(a) == CodePoints(b) {
      CodePointsInjective(a, b);
    }
  }

  function Elements(names: seq<string>): set<string>
  {
    set n | n in names
  }

  /** Strictly ascending: sorted and without repetition. */
  predicate Ascending(q: seq<string>)
  {
    forall i, j :: 0 <= i < j < |q| ==> Before(q[i], q[j])
  }

  /** What Python's sorted leaves as it is. */
  predicate InOrder(q: seq<string>)
  {
    forall i, j :: 0 <= i < j < |q| ==> !Before(q[j], q[i])
  }

  predicate Distinct(q: seq<string>)
  {
    forall i, j :: 0 <= i < j < |q| ==> q[i] != q[j]
  }

  lemma AscendingIff(q: seq<string>)
    ensures Ascending(q) <==> InOrder(q) && Distinct(q)
  {
    forall i, j | 0 <= i < j < |q|
      ensures Before(q[i], q[j]) <==> !Before(q[j], q[i]) && q[i] != q[j]
    {
      BeforeTotal(q[i], q[j]);
    }
  }

  lemma BeforeIsStrictTotal()
    ensures Sorting.StrictTotalOrder(Before)
  {
    forall a, b
      ensures Before(a, b) ==> !Before(b, a)
      ensures a != b ==> Before(a, b) || Before(b, a)
    {
      BeforeTotal(a, b);
    }
    forall a, b, c | Before(a, b) && Before(b, c)
      ensures Before(a, c)
    {
      LessTransitive(CodePoints(a), CodePoints(b), CodePoints(c));
    }
  }

  // Names as items that are their own keys, for the generic sort

  function Keyed(q: seq<string>): (ms: seq<(string, string)>)
    ensures |ms| == |q| && forall i :: 0 <= i < |q| ==> ms[i] == (q[i], q[i])
  {
    seq(|q|, i requires 0 <= i < |q| => (q[i], q[i]))
  }

  function Names(ms: seq<(string, string)>): (q: seq<string>)
    ensures |q| == |ms| && forall i :: 0 <= i < |ms| ==> q[i] == ms[i].0
  {
    seq(|ms|, i requires 0 <= i < |ms| => ms[i].0)
  }

  lemma KeyedMember(q: seq<string>, m: (string, string))
    ensures m in Keyed(q) <==> m.0 in q && m.1 == m.0
  {
    if m.0 in q && m.1 == m.0 {
      var i :| 0 <= i < |q| && q[i] == m.0;
      assert Keyed(q)[i] == m;
    }
  }

  /** A set of names has only one ascending sequence. */
  lemma AscendingUnique(a: seq<string>, b: seq<string>)
    requires Ascending(a) && Ascending(b) && Elements(a) == Elements(b)
    ensures a == b
  {
    BeforeIsStrictTotal();
    forall m: (string, string)
      ensures m in Keyed(a) <==> m in Keyed(b)
    {
      KeyedMember(a, m);
      KeyedMember(b, m);
      assert m.0 in a <==> m.0 in Elements(a);
      assert m.0 in b <==> m.0 in Elements(b);
    }
    hide Before;
    Sorting.IncreasingUnique(Keyed(a), Keyed(b), Before);
    assert forall i :: 0 <= i < |a| ==> Keyed(a)[i] == Keyed(b)[i];
  }

  /** The elements of a set in some order. */
  ghost function Listing(s: set<string>): (q: seq<string>)
    ensures Distinct(q) && Elements(q) == s
  {
    if s == {} then []
    else
      var n :| n in s;
      var rest := Listing(s - {n});
      assert n !in Elements(rest);
      ElementsAppend(rest, [n]);
      assert Elements([n]) == {n};
      rest + [n]
  }

  /** Python's sorted of a set. */
  ghost function SortedSet(s: set<string>): (q: seq<string>)
    ensures Ascending(q) && Elements(q) == s
  {
    SortingNames(Listing(s));
    Names(Sorting.Sort(Keyed(Listing(s)), Before))
  }

  lemma SortingNames(q: seq<string>)
    requires Distinct(q)
    ensures var r := Names(Sorting.Sort(Keyed(q), Before));
            Ascending(r) && Elements(r) == Elements(q)
  {
    BeforeIsStrictTotal();
    hide Before;
    var ms := Sorting.Sort(Keyed(q), Before);
    Sorting.SortIncreasing(Keyed(q), Before);
    forall n
      ensures n in Names(ms) <==> n in q
    {
      var m := (n, n);
      Sorting.SortMembers(Keyed(q), Before, m);
      KeyedMember(q, m);
      if n in Names(ms) {
        var i :| 0 <= i < |Names(ms)| && Names(ms)[i] == n;
        Sorting.SortMembers(Keyed(q), Before, ms[i]);
        KeyedMember(q, ms[i]);
      }
      if m in ms {
        var i :| 0 <= i < |ms| && ms[i] == m;
        assert Names(ms)[i] == n;
      }
    }
  }

  /** A comprehension over a sequence with a condition. */
  function Select(q: seq<string>, keep: string -> bool): seq<string>
  {
    if q == [] then []
    else Select(q[..|q|-1], keep) + if keep(q[|q|-1]) then [q[|q|-1]] else []
  }

  lemma ElementsAppend(a: seq<string>, b: seq<string>)
    ensures Elements(a + b) == Elements(a) + Elements(b)
  {
  }

  lemma {:induction false} SelectAscending(q: seq<string>, keep: string -> bool)
    requires Ascending(q)
    ensures Ascending(Select(q, keep))
    ensures Elements(Select(q, keep)) == set n | n in Elements(q) && keep(n)
  {
    if q != [] {
      hide Before;
      var init, last := q[..|q|-1], q[|q|-1];
      SelectAscending(init, keep);
      assert q == init + [last];
      forall n | n in Select(init, keep)
        ensures Before(n, last)
      {
        assert n in Elements(Select(init, keep));
        assert n in Elements(init);
        var k :| 0 <= k < |init| && init[k] == n;
        assert Before(q[k], q[|q|-1]);
      }
      ElementsAppend(init, [last]);
      ElementsAppend(Select(init, keep), if keep(last) then [last] else []);
    }
  }
}
