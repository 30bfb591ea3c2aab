/** The event payload check: a depth-first walk with an explicit stack of enter and leave
    marks over a possibly cyclic, possibly shared object graph. */
module PayloadWalk {
  import opened ObjectGraph

  function Ascii(s: string): PyStr
    requires forall i :: 0 <= i < |s| ==> s[i] as int < 128
  {
    seq(|s|, i requires 0 <= i < |s| => s[i] as int)
  }

  const INLINE_BODY_KEYS: set<PyStr> :=
    {Ascii("body"), Ascii("bytes"), Ascii("content"), Ascii("fileBytes"), Ascii("inlineContent"), Ascii("rawBody")}

  predicate Blocked(k: Key) { k.StrKey? && k.s in INLINE_BODY_KEYS }

  predicate IsJsonAtom(v: Value)
  {
    v.Nil? || v.Flag? || v.Integer? || v.Real? || v.Text? || (v.Foreign? && v.atom)
  }

  predicate KeysAllowed(c: Container)
  {
    c.Dict? ==> forall i :: 0 <= i < |c.entries| ==> c.entries[i].0.StrKey? && !Blocked(c.entries[i].0)
  }

  const RULES: Rules := Rules(IsJsonAtom, KeysAllowed)

  datatype Mark = Enter(v: Value) | Leave(id: nat)

  datatype Verdict = Accepted | NotAnObject | Cyclic | ForbiddenKeys | KeyNotString | NotJson

  // What a stack still has to do; its top is the last element

  ghost predicate KnownStack(h: Heap, stack: seq<Mark>)
  {
    forall i :: 0 <= i < |stack| ==> stack[i].Enter? ==> Known(h, stack[i].v)
  }

  /** All pending items are clean, each below the ancestors it will be visited under. */
  ghost predicate StackClean(h: Heap, stack: seq<Mark>, path: set<nat>)
    requires WellFormed(h) && KnownStack(h, stack)
  {
    if stack == [] then true else
      var rest := stack[..|stack|-1];
      match stack[|stack|-1]
      case Enter(v) => Clean(h, v, path, RULES) && StackClean(h, rest, path)
      case Leave(id) => StackClean(h, rest, path - {id})
  }

  /** Steps the walk takes for one value. Shared containers are counted at every visit. */
  ghost function Weight(h: Heap, v: Value, path: set<nat>): nat
    requires WellFormed(h) && Known(h, v)
    decreases |h.Keys - path|, 0
  {
    if !v.Ref? || v.id in path then 1
    else
      assert v.id in h.Keys - path;
      SmallerSet(h.Keys - (path + {v.id}), h.Keys - path);
      2 + Weights(h, Children(h[v.id]), path + {v.id})
  }

  ghost function Weights(h: Heap, vs: seq<Value>, path: set<nat>): nat
    requires WellFormed(h) && forall i :: 0 <= i < |vs| ==> Known(h, vs[i])
    decreases |h.Keys - path|, |vs|
  {
    if vs == [] then 0 else Weights(h, vs[..|vs|-1], path) + Weight(h, vs[|vs|-1], path)
  }

  /** The termination measure of the walk. */
  ghost function StackWeight(h: Heap, stack: seq<Mark>, path: set<nat>): nat
    requires WellFormed(h) && KnownStack(h, stack)
  {
    if stack == [] then 0 else
      var rest := stack[..|stack|-1];
      match stack[|stack|-1]
      case Enter(v) => Weight(h, v, path) + StackWeight(h, rest, path)
      case Leave(id) => 1 + StackWeight(h, rest, path - {id})
  }

  function Enters(vs: seq<Value>): (ms: seq<Mark>)
    ensures |ms| == |vs| && forall i :: 0 <= i < |vs| ==> ms[i] == Enter(vs[i])
  {
    seq(|vs|, i requires 0 <= i < |vs| => Enter(vs[i]))
  }

  ghost predicate AllClean(h: Heap, vs: seq<Value>, path: set<nat>)
    requires WellFormed(h) && forall i :: 0 <= i < |vs| ==> Known(h, vs[i])
  {
    forall i :: 0 <= i < |vs| ==> Clean(h, vs[i], path, RULES)
  }

  lemma EntersSplit(vs: seq<Value>)
    requires vs != []
    ensures Enters(vs) == Enters(vs[..|vs|-1]) + [Enter(vs[|vs|-1])]
  {
  }

  lemma {:induction false} PushChildren(h: Heap, stack: seq<Mark>, vs: seq<Value>, path: set<nat>)
    requires WellFormed(h) && KnownStack(h, stack) && forall i :: 0 <= i < |vs| ==> Known(h, vs[i])
    ensures KnownStack(h, stack + Enters(vs))
    ensures StackWeight(h, stack + Enters(vs), path) == Weights(h, vs, path) + StackWeight(h, stack, path)
    ensures StackClean(h, stack + Enters(vs), path) <==> StackClean(h, stack, path) && AllClean(h, vs, path)
  {
    hide WellFormed, Clean, Known, Weight;
    if vs == [] {
      assert stack + Enters(vs) == stack;
    } else {
      var init, last := vs[..|vs|-1], vs[|vs|-1];
      PushChildren(h, stack, init, path);
      EntersSplit(vs);
      var s := stack + Enters(init);
      assert stack + Enters(vs) == s + [Enter(last)];
      assert (s + [Enter(last)])[..|s|] == s;
      assert AllClean(h, vs, path) <==> AllClean(h, init, path) && Clean(h, last, path, RULES);
    }
  }

  // The leave marks are the ancestors

  ghost function Marks(stack: seq<Mark>): seq<nat>
  {
    if stack == [] then [] else
      var rest := Marks(stack[..|stack|-1]);
      match stack[|stack|-1]
      case Enter(_) => rest
      case Leave(id) => rest + [id]
  }

  /** A value is the root, or a child of the innermost open container. */
  ghost predicate Below(h: Heap, root: Value, marks: seq<nat>, v: Value)
  {
    if marks == [] then v == root
    else marks[|marks|-1] in h && v in Children(h[marks[|marks|-1]])
  }

  ghost predicate Grounded(h: Heap, root: Value, stack: seq<Mark>)
  {
    stack != [] ==>
      var rest := stack[..|stack|-1];
      && Grounded(h, root, rest)
      && match stack[|stack|-1]
         case Enter(v) => Known(h, v) && Below(h, root, Marks(rest), v)
         case Leave(id) => id in h && Below(h, root, Marks(rest), Ref(id)) && id !in Marks(rest)
  }

  lemma {:induction false} GroundedKnown(h: Heap, root: Value, stack: seq<Mark>)
    requires Grounded(h, root, stack)
    ensures KnownStack(h, stack)
  {
    hide Known, Below, Marks;
    if stack != [] {
      GroundedKnown(h, root, stack[..|stack|-1]);
    }
  }

  /** The open containers form a path from the root without repetition. */
  lemma {:induction false} MarksArePath(h: Heap, root: Value, stack: seq<Mark>)
    requires Grounded(h, root, stack)
    ensures var m := Marks(stack);
            && (m != [] ==> root == Ref(m[0]) && IsPath(h, m))
            && (forall i, j :: 0 <= i < j < |m| ==> m[i] != m[j])
  {
    hide IsPath, Children;
    if stack != [] {
      var rest := stack[..|stack|-1];
      MarksArePath(h, root, rest);
      if stack[|stack|-1].Leave? {
        var id, r := stack[|stack|-1].id, Marks(rest);
        assert Marks(stack) == r + [id];
        assert r != [] ==> Edge(h, r[|r|-1], id);
        ExtendPath(h, r, id);
        assert forall i :: 0 <= i < |r| ==> r[i] in r;
      }
    }
  }

  lemma {:induction false} PushGrounded(h: Heap, root: Value, stack: seq<Mark>, vs: seq<Value>)
    requires Grounded(h, root, stack)
    requires forall i :: 0 <= i < |vs| ==> Known(h, vs[i]) && Below(h, root, Marks(stack), vs[i])
    ensures Grounded(h, root, stack + Enters(vs)) && Marks(stack + Enters(vs)) == Marks(stack)
  {
    hide Known, Below;
    if vs == [] {
      assert stack + Enters(vs) == stack;
    } else {
      var init, last := vs[..|vs|-1], vs[|vs|-1];
      PushGrounded(h, root, stack, init);
      EntersSplit(vs);
      var s := stack + Enters(init);
      assert stack + Enters(vs) == s + [Enter(last)];
      assert (s + [Enter(last)])[..|s|] == s;
    }
  }

  lemma ExtendPath(h: Heap, m: seq<nat>, id: nat)
    requires m != [] ==> IsPath(h, m) && Edge(h, m[|m|-1], id)
    requires id in h
    ensures IsPath(h, m + [id])
  {
    hide Edge;
    var p := m + [id];
    forall i | 0 <= i < |p| - 1
      ensures Edge(h, p[i], p[i+1])
    {
      if i < |m| - 1 { assert Edge(h, m[i], m[i+1]); }
    }
  }

  lemma PathSuffix(h: Heap, p: seq<nat>, k: nat)
    requires IsPath(h, p) && k < |p|
    ensures IsPath(h, p[k..])
  {
    hide Edge;
    var q := p[k..];
    forall i | 0 <= i < |q| - 1
      ensures Edge(h, q[i], q[i+1])
    {
      assert Edge(h, p[k+i], p[k+i+1]);
    }
  }

  /** What is found below the open containers is reachable from the root. */
  lemma BelowIsReachable(h: Heap, root: Value, stack: seq<Mark>, id: nat)
    requires Grounded(h, root, stack)
    requires id in h && Below(h, root, Marks(stack), Ref(id))
    ensures Reaches(h, root, id)
    ensures id in Marks(stack) ==> OnCycle(h, id)
  {
    MarksArePath(h, root, stack);
    hide Grounded, Marks, IsPath;
    var m := Marks(stack);
    ExtendPath(h, m, id);
    var p := m + [id];
    assert PathFromTo(h, p, root.id, id);
    if id in m {
      var k :| 0 <= k < |m| && m[k] == id;
      PathSuffix(h, p, k);
      assert PathFromTo(h, p[k..], id, id) && |p[k..]| >= 2;
    }
  }

  // The walk

  /** Why a payload was refused. */
  ghost predicate Explains(h: Heap, root: Value, r: Verdict)
  {
    match r
    case Accepted => Sound(h, root, RULES)
    case NotAnObject => !(root.Ref? && root.id in h && h[root.id].Dict?)
    case Cyclic => exists id :: Reaches(h, root, id) && OnCycle(h, id)
    case ForbiddenKeys => exists id :: Reaches(h, root, id) && id in h && h[id].Dict? && HasBlocked(h[id].entries)
    case KeyNotString => exists id :: Reaches(h, root, id) && id in h && h[id].Dict? && HasForeignKey(h[id].entries)
    case NotJson => exists id :: Reaches(h, root, id) && id in h && HasForeignLeaf(Children(h[id]))
  }

  predicate HasBlocked(es: seq<(Key, Value)>) { exists i :: 0 <= i < |es| && Blocked(es[i].0) }

  predicate HasForeignKey(es: seq<(Key, Value)>) { exists i :: 0 <= i < |es| && !es[i].0.StrKey? }

  predicate HasForeignLeaf(vs: seq<Value>) { exists i :: 0 <= i < |vs| && !vs[i].Ref? && !IsJsonAtom(vs[i]) }

  /** Pushes an enter mark for every child; stops at a key that is not a string. */
  method PushEntries(stack0: seq<Mark>, c: Container) returns (stack: seq<Mark>, ok: bool)
    ensures ok <==> (c.Dict? ==> !HasForeignKey(c.entries))
    ensures ok ==> stack == stack0 + Enters(Children(c))
  {
    stack := stack0;
    var vs := Children(c);
    assert stack == stack0 + Enters(vs[..0]);
    for i := 0 to |vs|
      invariant stack == stack0 + Enters(vs[..i])
      invariant c.Dict? ==> forall j :: 0 <= j < i ==> c.entries[j].0.StrKey?
    {
      if c.Dict? && !c.entries[i].0.StrKey? {
        return stack, false;
      }
      stack := stack + [Enter(vs[i])];
      assert Enters(vs[..i+1]) == Enters(vs[..i]) + [Enter(vs[i])];
    }
    assert vs[..|vs|] == vs;
    ok := true;
  }

  ghost predicate Invariant(h: Heap, root: Value, stack: seq<Mark>, path: set<nat>)
    requires WellFormed(h)
  {
    && Known(h, root) && Grounded(h, root, stack) && KnownStack(h, stack)
    && path == (set i | i in Marks(stack))
    && (Clean(h, root, {}, RULES) <==> StackClean(h, stack, path))
  }

  /** The stack loop accepts exactly the payloads whose reachable graph is acyclic, with
      allowed string keys and JSON atoms as leaves; a refusal names a real cause. */
  method RequireEventPayload(h: Heap, root: Value) returns (r: Verdict)
    requires WellFormed(h) && Known(h, root)
    ensures r.Accepted? <==> root.Ref? && h[root.id].Dict? && Sound(h, root, RULES)
    ensures Explains(h, root, r)
  {
    if !root.Ref? || !h[root.id].Dict? {
      return NotAnObject;
    }
    CleanIffSound(h, root, RULES);
    SoundExplains(h, root);
    var stack: seq<Mark> := [Enter(root)];
    var path: set<nat> := {};
    Start(h, root);
    hide StackWeight, StackClean, Grounded, Marks, Clean, Sound, Reaches, OnCycle, WellFormed, HasBlocked,
      HasForeignKey, KeysAllowed, Explains;
    while stack != []
      invariant Invariant(h, root, stack, path)
      decreases StackWeight(h, stack, path)
    {
      var top := stack[|stack|-1];
      ghost var before, pathBefore := stack, path;
      stack := stack[..|stack|-1];
      match top
      case Leave(id) =>
        path := path - {id};
        LeaveStep(h, root, before, pathBefore);
      case Enter(v) =>
        TopIsReachable(h, root, before, pathBefore);
        if v.Ref? {
          if v.id in path {
            EnterRefused(h, root, before, pathBefore);
            Explained(h, root, v.id);
            return Cyclic;
          }
          path := path + {v.id};
          stack := stack + [Leave(v.id)];
          var c := h[v.id];
          KeysAllowedIff(c);
          if c.Dict? && HasBlocked(c.entries) {
            EnterRefused(h, root, before, pathBefore);
            Explained(h, root, v.id);
            return ForbiddenKeys;
          }
          var ok;
          stack, ok := PushEntries(stack, c);
          if !ok {
            EnterRefused(h, root, before, pathBefore);
            Explained(h, root, v.id);
            return KeyNotString;
          }
          EnterStep(h, root, before, pathBefore);
        } else if IsJsonAtom(v) {
          AtomStep(h, root, before, path);
        } else {
          EnterRefused(h, root, before, pathBefore);
          LeafIsReachable(h, root, before);
          ghost var id :| Reaches(h, root, id) && id in h && HasForeignLeaf(Children(h[id]));
          Explained(h, root, id);
          return NotJson;
        }
    }
    EmptyStack(h, root, path);
    r := Accepted;
  }

  lemma SoundExplains(h: Heap, root: Value)
    ensures Explains(h, root, Accepted) <==> Sound(h, root, RULES)
    ensures !(root.Ref? && root.id in h && h[root.id].Dict?) ==> Explains(h, root, NotAnObject)
  {
  }

  lemma Explained(h: Heap, root: Value, id: nat)
    requires Reaches(h, root, id) && id in h
    ensures OnCycle(h, id) ==> Explains(h, root, Cyclic)
    ensures h[id].Dict? && HasBlocked(h[id].entries) ==> Explains(h, root, ForbiddenKeys)
    ensures h[id].Dict? && HasForeignKey(h[id].entries) ==> Explains(h, root, KeyNotString)
    ensures HasForeignLeaf(Children(h[id])) ==> Explains(h, root, NotJson)
  {
    hide Reaches, OnCycle, HasBlocked, HasForeignKey, HasForeignLeaf;
  }

  lemma EmptyStack(h: Heap, root: Value, path: set<nat>)
    requires WellFormed(h) && Known(h, root) && Invariant(h, root, [], path)
    ensures Clean(h, root, {}, RULES)
  {
  }

  lemma KeysAllowedIff(c: Container)
    ensures KeysAllowed(c) <==> (c.Dict? ==> !HasBlocked(c.entries) && !HasForeignKey(c.entries))
  {
  }

  /** The container about to be visited is reachable, and one on the path is on a cycle. */
  lemma TopIsReachable(h: Heap, root: Value, stack: seq<Mark>, path: set<nat>)
    requires WellFormed(h) && Invariant(h, root, stack, path) && stack != [] && stack[|stack|-1].Enter?
    ensures var v := stack[|stack|-1].v;
            && Known(h, v)
            && (v.Ref? ==> v.id in h && Reaches(h, root, v.id) && (v.id in path ==> OnCycle(h, v.id)))
  {
    var v := stack[|stack|-1].v;
    if v.Ref? {
      BelowIsReachable(h, root, stack[..|stack|-1], v.id);
    }
  }

  lemma EnterRefused(h: Heap, root: Value, stack: seq<Mark>, path: set<nat>)
    requires WellFormed(h) && Known(h, root)
    requires Invariant(h, root, stack, path) && stack != [] && stack[|stack|-1].Enter?
    requires var v := stack[|stack|-1].v;
             if v.Ref? then v.id in path || (v.id in h && !KeysAllowed(h[v.id])) else !IsJsonAtom(v)
    ensures !Clean(h, root, {}, RULES)
  {
    hide Grounded, Marks;
    EnterFails(h, root, stack, path);
  }

  /** In every state of the walk the path set is exactly the ancestors, in order and
      without repetition, of the item about to be visited. */
  lemma PathIsAncestors(h: Heap, root: Value, stack: seq<Mark>, path: set<nat>) returns (p: seq<nat>)
    requires WellFormed(h) && Invariant(h, root, stack, path) && stack != [] && stack[|stack|-1].Enter?
    ensures path == set i | i in p
    ensures forall i, j :: 0 <= i < j < |p| ==> p[i] != p[j]
    ensures if p == [] then stack[|stack|-1].v == root
            else IsPath(h, p) && root == Ref(p[0]) && stack[|stack|-1].v in Children(h[p[|p|-1]])
  {
    var rest := stack[..|stack|-1];
    MarksArePath(h, root, rest);
    hide Clean, StackClean;
    p := Marks(rest);
  }

  lemma Start(h: Heap, root: Value)
    requires WellFormed(h) && Known(h, root)
    ensures Invariant(h, root, [Enter(root)], {})
  {
    var s := [Enter(root)];
    assert s[..|s|-1] == [];
    assert Marks(s) == [];
  }

  lemma LeaveStep(h: Heap, root: Value, stack: seq<Mark>, path: set<nat>)
    requires WellFormed(h) && Invariant(h, root, stack, path) && stack != [] && stack[|stack|-1].Leave?
    ensures var rest, path' := stack[..|stack|-1], path - {stack[|stack|-1].id};
            Invariant(h, root, rest, path') && StackWeight(h, rest, path') < StackWeight(h, stack, path)
  {
    var rest, id := stack[..|stack|-1], stack[|stack|-1].id;
    assert Marks(stack) == Marks(rest) + [id];
    assert path - {id} == set i | i in Marks(rest);
  }

  lemma AtomStep(h: Heap, root: Value, stack: seq<Mark>, path: set<nat>)
    requires WellFormed(h) && Invariant(h, root, stack, path) && stack != []
    requires stack[|stack|-1].Enter? && !stack[|stack|-1].v.Ref? && IsJsonAtom(stack[|stack|-1].v)
    ensures var rest := stack[..|stack|-1];
            Invariant(h, root, rest, path) && StackWeight(h, rest, path) < StackWeight(h, stack, path)
  {
  }

  lemma EnterStep(h: Heap, root: Value, stack: seq<Mark>, path: set<nat>)
    requires WellFormed(h) && Invariant(h, root, stack, path) && stack != []
    requires stack[|stack|-1].Enter? && stack[|stack|-1].v.Ref? && stack[|stack|-1].v.id !in path
    requires stack[|stack|-1].v.id in h && KeysAllowed(h[stack[|stack|-1].v.id])
    ensures var id := stack[|stack|-1].v.id;
            var next, path' := stack[..|stack|-1] + [Leave(id)] + Enters(Children(h[id])), path + {id};
            Invariant(h, root, next, path') && StackWeight(h, next, path') < StackWeight(h, stack, path)
  {
    var rest, id := stack[..|stack|-1], stack[|stack|-1].v.id;
    var vs, path' := Children(h[id]), path + {id};
    OpenContainer(h, root, rest, id, path);
    ContainerCost(h, id, path);
    hide WellFormed, Clean, Weight, Children, KeysAllowed, Grounded, Marks;
    PushChildren(h, rest + [Leave(id)], vs, path');
    PushGrounded(h, root, rest + [Leave(id)], vs);
    GroundedKnown(h, root, rest + [Leave(id)] + Enters(vs));
  }

  /** Opening a container: its leave mark joins the stack and it joins the path. */
  lemma OpenContainer(h: Heap, root: Value, rest: seq<Mark>, id: nat, path: set<nat>)
    requires WellFormed(h) && Grounded(h, root, rest) && KnownStack(h, rest)
    requires id in h && Below(h, root, Marks(rest), Ref(id)) && id !in path
    requires path == set i | i in Marks(rest)
    ensures var base, path' := rest + [Leave(id)], path + {id};
            && Grounded(h, root, base) && KnownStack(h, base)
            && path' == (set i | i in Marks(base))
            && StackWeight(h, base, path') == 1 + StackWeight(h, rest, path)
            && (StackClean(h, base, path') <==> StackClean(h, rest, path))
            && (forall i :: 0 <= i < |Children(h[id])| ==>
                  Known(h, Children(h[id])[i]) && Below(h, root, Marks(base), Children(h[id])[i]))
  {
    hide *;
    PushLeave(h, root, rest, id);
    PopLeave(h, rest, id, path);
    ChildrenBelow(h, root, rest + [Leave(id)], id);
  }

  lemma PushLeave(h: Heap, root: Value, rest: seq<Mark>, id: nat)
    requires Grounded(h, root, rest) && KnownStack(h, rest)
    requires id in h && Below(h, root, Marks(rest), Ref(id)) && id !in (set i | i in Marks(rest))
    ensures var base := rest + [Leave(id)];
            && Grounded(h, root, base) && KnownStack(h, base) && Marks(base) == Marks(rest) + [id]
            && (set i | i in Marks(base)) == (set i | i in Marks(rest)) + {id}
  {
    hide Below, Known;
    var base := rest + [Leave(id)];
    assert base[..|base|-1] == rest && base[|base|-1] == Leave(id);
  }

  lemma PopLeave(h: Heap, rest: seq<Mark>, id: nat, path: set<nat>)
    requires WellFormed(h) && KnownStack(h, rest) && KnownStack(h, rest + [Leave(id)]) && id !in path
    ensures StackWeight(h, rest + [Leave(id)], path + {id}) == 1 + StackWeight(h, rest, path)
    ensures StackClean(h, rest + [Leave(id)], path + {id}) <==> StackClean(h, rest, path)
  {
    hide WellFormed, Clean, Weight;
    var base := rest + [Leave(id)];
    assert base[..|base|-1] == rest && base[|base|-1] == Leave(id);
    assert path + {id} - {id} == path;
  }

  lemma ChildrenBelow(h: Heap, root: Value, base: seq<Mark>, id: nat)
    requires WellFormed(h) && id in h && Marks(base) != [] && Marks(base)[|Marks(base)|-1] == id
    ensures forall i :: 0 <= i < |Children(h[id])| ==>
              Known(h, Children(h[id])[i]) && Below(h, root, Marks(base), Children(h[id])[i])
  {
    hide Marks;
    assert WellFormedContainer(h, h[id]);
    assert forall i :: 0 <= i < |Children(h[id])| ==> Children(h[id])[i] in Children(h[id]);
  }

  lemma ContainerCost(h: Heap, id: nat, path: set<nat>)
    requires WellFormed(h) && id in h && id !in path && KeysAllowed(h[id])
    ensures Weight(h, Ref(id), path) == 2 + Weights(h, Children(h[id]), path + {id})
    ensures Clean(h, Ref(id), path, RULES) <==> AllClean(h, Children(h[id]), path + {id})
  {
    var vs := Children(h[id]);
    assert forall c :: c in vs ==> exists i :: 0 <= i < |vs| && vs[i] == c;
  }

  lemma EnterFails(h: Heap, root: Value, stack: seq<Mark>, path: set<nat>)
    requires WellFormed(h) && Invariant(h, root, stack, path) && stack != [] && stack[|stack|-1].Enter?
    requires !Clean(h, stack[|stack|-1].v, path, RULES)
    ensures !Clean(h, root, {}, RULES)
  {
    hide Grounded, Marks, Clean;
  }

  lemma LeafIsReachable(h: Heap, root: Value, stack: seq<Mark>)
    requires WellFormed(h) && Known(h, root) && root.Ref? && Grounded(h, root, stack) && stack != []
    requires stack[|stack|-1].Enter? && !stack[|stack|-1].v.Ref? && !IsJsonAtom(stack[|stack|-1].v)
    ensures exists id :: Reaches(h, root, id) && id in h && HasForeignLeaf(Children(h[id]))
  {
    var rest := stack[..|stack|-1];
    var m := Marks(rest);
    MarksArePath(h, root, rest);
    var id := m[|m|-1];
    assert PathFromTo(h, m, root.id, id);
    assert Reaches(h, root, id);
  }

  // What a sound payload is, in plain terms

  predicate Spells(s: PyStr, word: string)
  {
    |s| == |word| && forall i :: 0 <= i < |s| ==> s[i] == word[i] as int
  }

  const BODY_WORDS := ["body", "bytes", "content", "fileBytes", "inlineContent", "rawBody"]

  lemma BlockedMeans(k: Key)
    requires k.StrKey?
    ensures Blocked(k) <==> exists i :: 0 <= i < |BODY_WORDS| && Spells(k.s, BODY_WORDS[i])
  {
    SpelledBy(k.s, "body");
    SpelledBy(k.s, "bytes");
    SpelledBy(k.s, "content");
    SpelledBy(k.s, "fileBytes");
    SpelledBy(k.s, "inlineContent");
    SpelledBy(k.s, "rawBody");
    hide Ascii, Spells;
    assert BODY_WORDS[0] == "body" && BODY_WORDS[1] == "bytes" && BODY_WORDS[2] == "content";
    assert BODY_WORDS[3] == "fileBytes" && BODY_WORDS[4] == "inlineContent" && BODY_WORDS[5] == "rawBody";
  }

  lemma SpelledBy(s: PyStr, word: string)
    requires forall i :: 0 <= i < |word| ==> word[i] as int < 128
    ensures s == Ascii(word) <==> Spells(s, word)
  {
  }

  ghost predicate PlainKey(k: Key)
  {
    k.StrKey? && forall i :: 0 <= i < |BODY_WORDS| ==> !Spells(k.s, BODY_WORDS[i])
  }

  predicate PlainLeaf(v: Value)
  {
    v.Nil? || v.Flag? || v.Integer? || v.Real? || v.Text? || v == Foreign(true)
  }

  /** Only string keys that spell none of the six body words, and only JSON atoms as leaves. */
  ghost predicate PlainContainer(c: Container)
  {
    && (c.Dict? ==> forall i :: 0 <= i < |c.entries| ==> PlainKey(c.entries[i].0))
    && (forall v :: v in Children(c) && !v.Ref? ==> PlainLeaf(v))
  }

  lemma KeysMean(c: Container)
    requires c.Dict?
    ensures KeysAllowed(c) <==> forall i :: 0 <= i < |c.entries| ==> PlainKey(c.entries[i].0)
  {
    forall i | 0 <= i < |c.entries|
      ensures PlainKey(c.entries[i].0) <==> c.entries[i].0.StrKey? && !Blocked(c.entries[i].0)
    {
      if c.entries[i].0.StrKey? { BlockedMeans(c.entries[i].0); }
    }
    hide PlainKey, Blocked;
  }

  lemma NodeMeans(h: Heap, id: nat)
    requires id in h
    ensures NodeAccepted(h, id, RULES) <==> PlainContainer(h[id])
  {
    if h[id].Dict? { KeysMean(h[id]); }
    hide PlainKey, KeysAllowed, Children;
    assert RULES.node(h[id]) == KeysAllowed(h[id]);
    assert forall c :: RULES.leaf(c) == IsJsonAtom(c) == PlainLeaf(c);
    KeysOfList(h[id]);
  }

  lemma KeysOfList(c: Container)
    ensures c.List? ==> KeysAllowed(c)
  {
  }

  /** A payload is sound exactly when every container it reaches is plain and on no cycle. */
  lemma SoundMeans(h: Heap, root: Value)
    requires root.Ref?
    ensures Sound(h, root, RULES) <==>
            forall id :: Reaches(h, root, id) ==> id in h && PlainContainer(h[id]) && !OnCycle(h, id)
  {
    forall id | id in h
      ensures NodeAccepted(h, id, RULES) <==> PlainContainer(h[id])
    {
      NodeMeans(h, id);
    }
    hide Reaches, OnCycle, NodeAccepted, PlainContainer;
  }
}
