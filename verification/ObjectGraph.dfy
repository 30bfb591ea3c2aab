/** Python values as an object graph with identity: containers may be shared and may form
    cycles. A recursive check along ancestor paths is tied to plain reachability. */
module ObjectGraph {
  import opened Binary64

  /** A Python code point; surrogates are possible in a Python str. */
  type CodePoint = c: int | 0 <= c <= 0x10FFFF

  type PyStr = seq<CodePoint>

  datatype Key = StrKey(s: PyStr) | ForeignKey(tag: int)

  /** A value: an atom, a reference to a container, or an object of another type.
      Foreign(true) is an instance of a proper subclass of an atom type. */
  datatype Value =
    | Nil
    | Flag(b: bool)
    | Integer(n: int)
    | Real(f: Float)
    | Text(s: PyStr)
    | Ref(id: nat)
    | Foreign(atom: bool)

  datatype Container = List(items: seq<Value>) | Dict(entries: seq<(Key, Value)>)

  type Heap = map<nat, Container>

  function EntryValues(es: seq<(Key, Value)>): (vs: seq<Value>)
    ensures |vs| == |es|
    ensures forall i :: 0 <= i < |es| ==> vs[i] == es[i].1
  {
    if es == [] then [] else [es[0].1] + EntryValues(es[1..])
  }

  function Children(c: Container): seq<Value>
  {
    match c
    case List(items) => items
    case Dict(entries) => EntryValues(entries)
  }

  predicate Known(h: Heap, v: Value)
  {
    v.Ref? ==> v.id in h
  }

  /** Every reference leads to a container, dictionary keys are distinct, and floats carry
      a genuine repr. */
  ghost predicate WellFormed(h: Heap)
  {
    forall id :: id in h ==> WellFormedContainer(h, h[id])
  }

  ghost predicate WellFormedContainer(h: Heap, c: Container)
  {
    && (forall v :: v in Children(c) ==> Known(h, v) && FloatOk(v))
    && (c.Dict? ==> forall i, j :: 0 <= i < j < |c.entries| ==> c.entries[i].0 != c.entries[j].0)
  }

  predicate FloatOk(v: Value)
  {
    v.Real? ==> v.f.Valid()
  }

  // Reachability

  predicate Edge(h: Heap, a: nat, b: nat)
  {
    a in h && Ref(b) in Children(h[a])
  }

  ghost predicate IsPath(h: Heap, p: seq<nat>)
  {
    && p != []
    && (forall i :: 0 <= i < |p| ==> p[i] in h)
    && (forall i :: 0 <= i < |p| - 1 ==> Edge(h, p[i], p[i+1]))
  }

  ghost predicate PathFromTo(h: Heap, p: seq<nat>, a: nat, b: nat)
  {
    IsPath(h, p) && p[0] == a && p[|p|-1] == b
  }

  ghost predicate Reaches(h: Heap, v: Value, id: nat)
  {
    v.Ref? && exists p :: PathFromTo(h, p, v.id, id)
  }

  /** A container that contains itself, directly or through others. */
  ghost predicate OnCycle(h: Heap, id: nat)
  {
    exists p :: PathFromTo(h, p, id, id) && |p| >= 2
  }

  // Checking a value

  /** What a walk accepts: leaves by value, containers by their own shape. */
  datatype Rules = Rules(leaf: Value -> bool, node: Container -> bool)

  ghost predicate NodeAccepted(h: Heap, id: nat, rules: Rules)
    requires id in h
  {
    rules.node(h[id]) && forall c :: c in Children(h[id]) && !c.Ref? ==> rules.leaf(c)
  }

  /** The graph-theoretic condition: everything reachable is accepted and on no cycle. */
  ghost predicate Sound(h: Heap, v: Value, rules: Rules)
  {
    && (!v.Ref? ==> rules.leaf(v))
    && (forall id :: Reaches(h, v, id) ==> id in h && NodeAccepted(h, id, rules) && !OnCycle(h, id))
  }

  /** The same check as a recursion that carries the set of ancestors. */
  ghost predicate Clean(h: Heap, v: Value, path: set<nat>, rules: Rules)
    requires WellFormed(h) && Known(h, v)
    decreases |h.Keys - path|
  {
    if !v.Ref? then rules.leaf(v)
    else
      && v.id !in path
      && rules.node(h[v.id])
      && assert h.Keys - (path + {v.id}) < h.Keys - path by { assert v.id in h.Keys - path; }
         SmallerSet(h.Keys - (path + {v.id}), h.Keys - path);
         forall c :: c in Children(h[v.id]) ==> Clean(h, c, path + {v.id}, rules)
  }

  lemma SmallerSet<T>(a: set<T>, b: set<T>)
    requires a < b
    ensures |a| < |b|
  {
    assert b == a + (b - a);
  }

  lemma {:induction false} CleanAlongPath(h: Heap, v: Value, path: set<nat>, rules: Rules, p: seq<nat>)
    requires WellFormed(h) && Known(h, v) && v.Ref? && Clean(h, v, path, rules)
    requires IsPath(h, p) && p[0] == v.id
    ensures forall i :: 0 <= i < |p| ==> p[i] !in path && NodeAccepted(h, p[i], rules)
    ensures forall i, j :: 0 <= i < j < |p| ==> p[i] != p[j]
    decreases |p|
  {
    if |p| > 1 {
      assert Edge(h, p[0], p[1]);
      var q := p[1..];
      forall i | 0 <= i < |q| - 1
        ensures Edge(h, q[i], q[i+1])
      {
        assert Edge(h, p[i+1], p[i+2]);
      }
      CleanAlongPath(h, Ref(p[1]), path + {p[0]}, rules, q);
      assert forall i :: 0 < i < |p| ==> p[i] == q[i-1];
    }
  }

  lemma JoinPaths(h: Heap, p: seq<nat>, q: seq<nat>)
    requires IsPath(h, p) && IsPath(h, q) && p[|p|-1] == q[0]
    ensures IsPath(h, p + q[1..])
    ensures (p + q[1..])[0] == p[0] && (p + q[1..])[|p + q[1..]| - 1] == q[|q|-1]
  {
    var r := p + q[1..];
    forall i | 0 <= i < |r| - 1
      ensures Edge(h, r[i], r[i+1])
    {
      if i < |p| - 1 {
        assert Edge(h, p[i], p[i+1]);
      } else {
        var j := i - (|p| - 1);
        assert Edge(h, q[j], q[j+1]);
      }
    }
  }

  lemma CleanIsSound(h: Heap, v: Value, rules: Rules)
    requires WellFormed(h) && Known(h, v) && Clean(h, v, {}, rules)
    ensures Sound(h, v, rules)
  {
    forall id | Reaches(h, v, id)
      ensures id in h && NodeAccepted(h, id, rules) && !OnCycle(h, id)
    {
      var p :| PathFromTo(h, p, v.id, id);
      CleanAlongPath(h, v, {}, rules, p);
      if OnCycle(h, id) {
        var q :| PathFromTo(h, q, id, id) && |q| >= 2;
        JoinPaths(h, p, q);
        var r := p + q[1..];
        assert r[|p|-1] == r[|r|-1];
        CleanAlongPath(h, v, {}, rules, r);
        assert false;
      }
    }
  }

  /** Every member of the ancestor set has a path of at least one edge to the value. */
  ghost predicate Ancestors(h: Heap, path: set<nat>, v: Value)
  {
    v.Ref? ==> forall a :: a in path ==> exists p :: PathFromTo(h, p, a, v.id) && |p| >= 2
  }

  lemma ChildReaches(h: Heap, v: Value, c: Value, id: nat)
    requires WellFormed(h) && Known(h, v) && v.Ref? && c in Children(h[v.id]) && Reaches(h, c, id)
    ensures Reaches(h, v, id)
  {
    var p :| PathFromTo(h, p, c.id, id);
    var e := [v.id, c.id];
    assert Edge(h, e[0], e[1]);
    assert IsPath(h, e);
    JoinPaths(h, e, p);
    assert PathFromTo(h, e + p[1..], v.id, id);
  }

  lemma ChildAncestors(h: Heap, path: set<nat>, v: Value, c: Value)
    requires WellFormed(h) && Known(h, v) && v.Ref? && c in Children(h[v.id]) && c.Ref? && Ancestors(h, path, v)
    ensures Ancestors(h, path + {v.id}, c)
  {
    var e := [v.id, c.id];
    assert Edge(h, e[0], e[1]);
    assert IsPath(h, e);
    forall a | a in path + {v.id}
      ensures exists p :: PathFromTo(h, p, a, c.id) && |p| >= 2
    {
      if a in path {
        var p :| PathFromTo(h, p, a, v.id) && |p| >= 2;
        JoinPaths(h, p, e);
        assert PathFromTo(h, p + e[1..], a, c.id);
      } else {
        assert PathFromTo(h, e, a, c.id);
      }
    }
  }

  lemma {:induction false} SoundIsClean(h: Heap, v: Value, path: set<nat>, rules: Rules)
    requires WellFormed(h) && Known(h, v) && Sound(h, v, rules) && Ancestors(h, path, v)
    ensures Clean(h, v, path, rules)
    decreases |h.Keys - path|
  {
    if v.Ref? {
      assert PathFromTo(h, [v.id], v.id, v.id);
      assert Reaches(h, v, v.id);
      assert v.id !in path;
      SmallerSet(h.Keys - (path + {v.id}), h.Keys - path);
      forall c | c in Children(h[v.id])
        ensures Clean(h, c, path + {v.id}, rules)
      {
        forall id | Reaches(h, c, id)
          ensures Reaches(h, v, id)
        {
          ChildReaches(h, v, c, id);
        }
        if c.Ref? {
          ChildAncestors(h, path, v, c);
        }
        SoundIsClean(h, c, path + {v.id}, rules);
      }
    }
  }

  /** The recursive check succeeds exactly on the graphs that are sound. */
  lemma CleanIffSound(h: Heap, v: Value, rules: Rules)
    requires WellFormed(h) && Known(h, v)
    ensures Clean(h, v, {}, rules) <==> Sound(h, v, rules)
  {
    if Clean(h, v, {}, rules) {
      CleanIsSound(h, v, rules);
    }
    if Sound(h, v, rules) {
      SoundIsClean(h, v, {}, rules);
    }
  }
}
