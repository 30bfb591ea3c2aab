/** The semantic map: a containment forest of bounded depth, and the check that keeps an
    Agent's edit inside its scope and away from human pins. */
module DashboardMap {
  import opened Wrappers

  datatype Position = Position(x: real, y: real, width: real, height: real)

  /** A component; look stands for title, body and renderer. */
  datatype Component = Component(
    id: string,
    kind: string,
    parentId: Option<string>,
    position: Position,
    pinned: bool,
    collapsed: bool,
    binding: Option<string>,
    look: string)

  datatype Relation = Relation(id: string, source: string, target: string, kind: string, caption: string)

  datatype MapState = MapState(
    components: seq<Component>,
    relations: seq<Relation>,
    appearance: string,
    viewport: string)

  const GROUP := "group"
  const MAX_ANCESTORS: nat := 8
  const HEADER := 48.0

  type Nodes = map<string, Component>

  function NodeMap(cs: seq<Component>): Nodes
  {
    if cs == [] then map[] else NodeMap(cs[..|cs|-1])[cs[|cs|-1].id := cs[|cs|-1]]
  }

  function EdgeMap(rs: seq<Relation>): map<string, Relation>
  {
    if rs == [] then map[] else EdgeMap(rs[..|rs|-1])[rs[|rs|-1].id := rs[|rs|-1]]
  }

  predicate DistinctIds(cs: seq<Component>)
  {
    forall i, j :: 0 <= i < j < |cs| ==> cs[i].id != cs[j].id
  }

  predicate DistinctEdgeIds(rs: seq<Relation>)
  {
    forall i, j :: 0 <= i < j < |rs| ==> rs[i].id != rs[j].id
  }

  lemma {:induction false} NodeMapEntries(cs: seq<Component>)
    ensures forall k :: k in NodeMap(cs) ==> NodeMap(cs)[k].id == k && NodeMap(cs)[k] in cs
    ensures forall i :: 0 <= i < |cs| ==> cs[i].id in NodeMap(cs)
    ensures DistinctIds(cs) ==> forall i :: 0 <= i < |cs| ==> NodeMap(cs)[cs[i].id] == cs[i]
  {
    if cs != [] {
      NodeMapEntries(cs[..|cs|-1]);
      assert cs == cs[..|cs|-1] + [cs[|cs|-1]];
    }
  }

  // Ancestors

  /** The chain lists the ancestors of a component from its parent up to a root. */
  predicate Chain(nodes: Nodes, id: string, chain: seq<string>)
    decreases chain
  {
    && id in nodes
    && match nodes[id].parentId
       case None => chain == []
       case Some(p) => chain != [] && chain[0] == p && Chain(nodes, p, chain[1..])
  }

  lemma {:induction false} ChainUnique(nodes: Nodes, id: string, a: seq<string>, b: seq<string>)
    requires Chain(nodes, id, a) && Chain(nodes, id, b)
    ensures a == b
    decreases a
  {
    if a != [] {
      ChainUnique(nodes, a[0], a[1..], b[1..]);
      assert a == [a[0]] + a[1..] && b == [b[0]] + b[1..];
    }
  }

  ghost predicate Rooted(nodes: Nodes, id: string)
  {
    exists chain :: Chain(nodes, id, chain) && |chain| <= MAX_ANCESTORS
  }

  predicate Fits(child: Component, parent: Component)
  {
    var c, p := child.position, parent.position;
    c.y >= HEADER && c.x + c.width <= p.width && c.y + c.height <= p.height
  }

  predicate ParentOk(nodes: Nodes, c: Component)
  {
    c.parentId.Some? ==>
      c.parentId.value in nodes && nodes[c.parentId.value].kind == GROUP && Fits(c, nodes[c.parentId.value])
  }

  predicate EndpointsOk(nodes: Nodes, r: Relation)
  {
    r.source in nodes && r.target in nodes && r.source != r.target
  }

  /** What a valid map is. */
  ghost predicate Coherent(s: MapState)
  {
    var nodes := NodeMap(s.components);
    && DistinctIds(s.components)
    && (forall i :: 0 <= i < |s.components| ==>
          ParentOk(nodes, s.components[i]) && Rooted(nodes, s.components[i].id))
    && DistinctEdgeIds(s.relations)
    && (forall i :: 0 <= i < |s.relations| ==> EndpointsOk(nodes, s.relations[i]))
  }

  // The ancestor walk of the validator

  /** The ids walked so far from a component, and the next parent to visit. */
  predicate Walked(nodes: Nodes, id: string, walked: seq<string>, next: Option<string>)
    decreases walked
  {
    id in nodes &&
    if walked == [] then nodes[id].parentId == next
    else nodes[id].parentId == Some(walked[0]) && Walked(nodes, walked[0], walked[1..], next)
  }

  lemma {:induction false} WalkFurther(nodes: Nodes, id: string, walked: seq<string>, p: string)
    requires Walked(nodes, id, walked, Some(p)) && p in nodes
    ensures Walked(nodes, id, walked + [p], nodes[p].parentId)
    decreases walked
  {
    if walked == [] {
      assert [p][1..] == [];
    } else {
      WalkFurther(nodes, walked[0], walked[1..], p);
      assert (walked + [p])[1..] == walked[1..] + [p];
    }
  }

  lemma {:induction false} WalkedIsChain(nodes: Nodes, id: string, walked: seq<string>)
    requires Walked(nodes, id, walked, None)
    ensures Chain(nodes, id, walked)
    decreases walked
  {
    if walked != [] {
      WalkedIsChain(nodes, walked[0], walked[1..]);
    }
  }

  /** A walk is a prefix of the chain, and the chain goes on from its end. */
  lemma {:induction false} WalkInsideChain(
    nodes: Nodes, id: string, walked: seq<string>, next: Option<string>, chain: seq<string>)
    requires Walked(nodes, id, walked, next) && Chain(nodes, id, chain)
    ensures |walked| <= |chain| && walked == chain[..|walked|]
    ensures match next
            case None => |walked| == |chain|
            case Some(p) => |walked| < |chain| && chain[|walked|] == p && Chain(nodes, p, chain[|walked|+1..])
    decreases walked
  {
    if walked != [] {
      WalkInsideChain(nodes, walked[0], walked[1..], next, chain[1..]);
      assert chain == [chain[0]] + chain[1..] && walked == [walked[0]] + walked[1..];
    }
  }

  lemma {:induction false} ChainSuffix(nodes: Nodes, id: string, chain: seq<string>, i: nat)
    requires Chain(nodes, id, chain) && i < |chain|
    ensures Chain(nodes, chain[i], chain[i+1..])
    decreases i
  {
    if i > 0 {
      ChainSuffix(nodes, chain[0], chain[1..], i - 1);
      assert chain[1..][i..] == chain[i+1..];
    }
  }

  /** A chain never returns to a component it has left. */
  lemma ChainDistinct(nodes: Nodes, id: string, chain: seq<string>)
    requires Chain(nodes, id, chain)
    ensures id !in chain && forall i, j :: 0 <= i < j < |chain| ==> chain[i] != chain[j]
  {
    if i :| 0 <= i < |chain| && chain[i] == id {
      ChainSuffix(nodes, id, chain, i);
      ChainUnique(nodes, id, chain, chain[i+1..]);
      assert false;
    }
    forall i, j | 0 <= i < j < |chain|
      ensures chain[i] != chain[j]
    {
      ChainSuffix(nodes, id, chain, i);
      ChainSuffix(nodes, id, chain, j);
      if chain[i] == chain[j] {
        ChainUnique(nodes, chain[i], chain[i+1..], chain[j+1..]);
        assert false;
      }
    }
  }

  /** The visited-set walk accepts a component exactly when it is rooted within the bound. */
  method AncestorsOk(nodes: Nodes, id: string) returns (ok: bool)
    requires id in nodes
    ensures ok <==> Rooted(nodes, id)
  {
    var visited := {id};
    var parentId := nodes[id].parentId;
    ghost var walked: seq<string> := [];
    while parentId.Some?
      invariant Walked(nodes, id, walked, parentId)
      invariant visited == {id} + (set w | w in walked) && |visited| == |walked| + 1
      invariant |walked| <= MAX_ANCESTORS
      decreases MAX_ANCESTORS + 1 - |walked|
    {
      if parentId.value in visited || |visited| > MAX_ANCESTORS {
        WalkRefused(nodes, id, walked, parentId.value);
        return false;
      }
      visited := visited + {parentId.value};
      if parentId.value !in nodes {
        WalkRefused(nodes, id, walked, parentId.value);
        return false;
      }
      WalkFurther(nodes, id, walked, parentId.value);
      walked := walked + [parentId.value];
      parentId := nodes[parentId.value].parentId;
    }
    WalkedIsChain(nodes, id, walked);
    ok := true;
  }

  lemma WalkRefused(nodes: Nodes, id: string, walked: seq<string>, p: string)
    requires Walked(nodes, id, walked, Some(p))
    requires p == id || p in walked || |walked| >= MAX_ANCESTORS || p !in nodes
    ensures !Rooted(nodes, id)
  {
    if chain :| Chain(nodes, id, chain) && |chain| <= MAX_ANCESTORS {
      WalkInsideChain(nodes, id, walked, Some(p), chain);
      ChainDistinct(nodes, id, chain);
      assert false;
    }
  }

  /** The validator, against the declarative notion of a coherent map. */
  method CoherentMap(s: MapState) returns (ok: bool)
    ensures ok <==> Coherent(s)
  {
    var nodes := NodeMap(s.components);
    NodeMapEntries(s.components);
    if !DistinctIds(s.components) {
      return false;
    }
    for i := 0 to |s.components|
      invariant forall j :: 0 <= j < i ==> ParentOk(nodes, s.components[j]) && Rooted(nodes, s.components[j].id)
    {
      if !ParentOk(nodes, s.components[i]) {
        return false;
      }
      var rooted := AncestorsOk(nodes, s.components[i].id);
      if !rooted {
        return false;
      }
    }
    if !DistinctEdgeIds(s.relations) {
      return false;
    }
    for i := 0 to |s.relations|
      invariant forall j :: 0 <= j < i ==> EndpointsOk(nodes, s.relations[j])
    {
      if !EndpointsOk(nodes, s.relations[i]) {
        return false;
      }
    }
    ok := true;
  }

  lemma CoherentRooted(s: MapState, id: string)
    requires Coherent(s) && id in NodeMap(s.components)
    ensures Rooted(NodeMap(s.components), id)
  {
    hide Rooted, ParentOk;
    NodeMapEntries(s.components);
    var c := NodeMap(s.components)[id];
    var i :| 0 <= i < |s.components| && s.components[i] == c;
  }

  // Absolute position

  /** The sum of the positions of some components, such as one and all its ancestors. */
  function Offset(nodes: Nodes, ids: seq<string>): (real, real)
    requires forall i :: 0 <= i < |ids| ==> ids[i] in nodes
  {
    if ids == [] then (0.0, 0.0)
    else
      var rest := Offset(nodes, ids[1..]);
      (nodes[ids[0]].position.x + rest.0, nodes[ids[0]].position.y + rest.1)
  }

  lemma {:induction false} ChainKnown(nodes: Nodes, id: string, chain: seq<string>)
    requires Chain(nodes, id, chain)
    ensures forall i :: 0 <= i < |chain| ==> chain[i] in nodes
    decreases chain
  {
    if chain != [] {
      ChainKnown(nodes, chain[0], chain[1..]);
      assert chain == [chain[0]] + chain[1..];
    }
  }

  // Scope

  /** Reached from the scope in at most k steps down through new components. */
  predicate Below(previous: Nodes, proposed: Nodes, scope: set<string>, id: string, k: nat)
    decreases k
  {
    id in scope ||
    (k > 0 && id !in previous && id in proposed && proposed[id].parentId.Some? &&
     Below(previous, proposed, scope, proposed[id].parentId.value, k - 1))
  }

  /** New components whose parent chain through new components reaches the scope. */
  ghost predicate InRegion(previous: Nodes, proposed: Nodes, scope: set<string>, id: string)
  {
    exists k: nat :: Below(previous, proposed, scope, id, k)
  }

  lemma {:induction false} BelowMore(previous: Nodes, proposed: Nodes, scope: set<string>, id: string, k: nat, m: nat)
    requires Below(previous, proposed, scope, id, k) && k <= m
    ensures Below(previous, proposed, scope, id, m)
    decreases k
  {
    if id !in scope {
      BelowMore(previous, proposed, scope, proposed[id].parentId.value, k - 1, m - 1);
    }
  }

  lemma {:induction false} BelowWithinChain(
    previous: Nodes, proposed: Nodes, scope: set<string>, id: string, k: nat, chain: seq<string>)
    requires Below(previous, proposed, scope, id, k) && Chain(proposed, id, chain)
    ensures Below(previous, proposed, scope, id, |chain|)
    decreases k
  {
    if id !in scope {
      var p := proposed[id].parentId.value;
      BelowWithinChain(previous, proposed, scope, p, k - 1, chain[1..]);
    }
  }

  /** Because at most eight ancestors are allowed, eight steps find the whole region. */
  lemma EightStepsSuffice(previous: Nodes, proposed: Nodes, scope: set<string>, id: string)
    requires InRegion(previous, proposed, scope, id) && (id in proposed ==> Rooted(proposed, id))
    ensures Below(previous, proposed, scope, id, MAX_ANCESTORS)
  {
    var k: nat :| Below(previous, proposed, scope, id, k);
    if id in scope {
      BelowMore(previous, proposed, scope, id, 0, MAX_ANCESTORS);
    } else {
      var chain :| Chain(proposed, id, chain) && |chain| <= MAX_ANCESTORS;
      BelowWithinChain(previous, proposed, scope, id, k, chain);
      BelowMore(previous, proposed, scope, id, |chain|, MAX_ANCESTORS);
    }
  }

  /** One pass over the proposed components; a component added early in the pass can admit
      another later in the same pass. */
  method GrowOnce(
    previous: Nodes, components: seq<Component>, ghost scope: set<string>, ghost k: nat, allowed0: set<string>)
    returns (allowed: set<string>)
    requires DistinctIds(components)
    requires forall id :: Below(previous, NodeMap(components), scope, id, k) ==> id in allowed0
    requires forall id :: id in allowed0 ==> InRegion(previous, NodeMap(components), scope, id)
    ensures forall id :: Below(previous, NodeMap(components), scope, id, k + 1) ==> id in allowed
    ensures forall id :: id in allowed ==> InRegion(previous, NodeMap(components), scope, id)
    ensures allowed0 <= allowed
  {
    ghost var proposed := NodeMap(components);
    NodeMapEntries(components);
    hide NodeMap, Below;
    allowed := allowed0;
    for i := 0 to |components|
      invariant allowed0 <= allowed
      invariant forall id :: id in allowed ==> InRegion(previous, proposed, scope, id)
      invariant forall j :: 0 <= j < i ==>
                  components[j].id !in previous && components[j].parentId.Some? &&
                    components[j].parentId.value in allowed0
                  ==> components[j].id in allowed
    {
      var c := components[i];
      if c.id !in previous && c.parentId.Some? && c.parentId.value in allowed {
        RegionChild(previous, proposed, scope, c);
        allowed := allowed + {c.id};
      }
    }
    forall id | Below(previous, proposed, scope, id, k + 1)
      ensures id in allowed
    {
      BelowStep(previous, proposed, scope, id, k);
      if !Below(previous, proposed, scope, id, k) {
        var c := proposed[id];
        var j :| 0 <= j < |components| && components[j] == c;
      }
    }
  }

  lemma RegionChild(previous: Nodes, proposed: Nodes, scope: set<string>, c: Component)
    requires c.id !in previous && c.id in proposed && proposed[c.id] == c && c.parentId.Some?
    requires InRegion(previous, proposed, scope, c.parentId.value)
    ensures InRegion(previous, proposed, scope, c.id)
  {
    var k: nat :| Below(previous, proposed, scope, c.parentId.value, k);
    assert Below(previous, proposed, scope, c.id, k + 1);
  }

  lemma BelowStep(previous: Nodes, proposed: Nodes, scope: set<string>, id: string, k: nat)
    requires Below(previous, proposed, scope, id, k + 1)
    ensures Below(previous, proposed, scope, id, k) ||
            (id !in previous && id in proposed && proposed[id].parentId.Some? &&
             Below(previous, proposed, scope, proposed[id].parentId.value, k))
  {
    if id in scope {
      BelowMore(previous, proposed, scope, id, 0, k);
    }
  }

  /** The eight-round loop computes exactly the region. */
  method GrowScope(previous: Nodes, after: MapState, scope: set<string>) returns (allowed: set<string>)
    requires Coherent(after)
    ensures forall id :: id in allowed <==> InRegion(previous, NodeMap(after.components), scope, id)
  {
    allowed := scope;
    ghost var proposed := NodeMap(after.components);
    forall id | id in scope
      ensures InRegion(previous, proposed, scope, id)
    {
      assert Below(previous, proposed, scope, id, 0);
    }
    for round := 0 to MAX_ANCESTORS
      invariant forall id :: Below(previous, proposed, scope, id, round) ==> id in allowed
      invariant forall id :: id in allowed ==> InRegion(previous, proposed, scope, id)
    {
      allowed := GrowOnce(previous, after.components, scope, round, allowed);
    }
    forall id | InRegion(previous, proposed, scope, id)
      ensures id in allowed
    {
      if id in proposed {
        CoherentRooted(after, id);
      }
      EightStepsSuffice(previous, proposed, scope, id);
    }
  }

  // The edit check

  function Lookup<T>(m: map<string, T>, id: string): Option<T>
  {
    if id in m then Some(m[id]) else None
  }

  /** The scope must already contain every descendant of its members. */
  predicate ScopeClosed(before: MapState, scope: set<string>)
  {
    forall i :: 0 <= i < |before.components| ==>
      before.components[i].parentId.Some? && before.components[i].parentId.value in scope
      ==> before.components[i].id in scope
  }

  ghost predicate OutsideUnchanged(before: MapState, after: MapState, scope: set<string>)
  {
    var previous, proposed := NodeMap(before.components), NodeMap(after.components);
    forall id | id in previous.Keys + proposed.Keys ::
      !InRegion(previous, proposed, scope, id) ==> Lookup(previous, id) == Lookup(proposed, id)
  }

  ghost predicate EdgeInside(previous: Nodes, proposed: Nodes, scope: set<string>, edge: Option<Relation>)
  {
    edge.Some? ==>
      InRegion(previous, proposed, scope, edge.value.source) && InRegion(previous, proposed, scope, edge.value.target)
  }

  ghost predicate EdgesOutsideUnchanged(before: MapState, after: MapState, scope: set<string>)
  {
    var previous, proposed := NodeMap(before.components), NodeMap(after.components);
    var oldEdges, newEdges := EdgeMap(before.relations), EdgeMap(after.relations);
    forall id | id in oldEdges.Keys + newEdges.Keys ::
      Lookup(oldEdges, id) != Lookup(newEdges, id) ==>
      EdgeInside(previous, proposed, scope, Lookup(oldEdges, id)) &&
        EdgeInside(previous, proposed, scope, Lookup(newEdges, id))
  }

  datatype EditError =
    | UnknownScope
    | ScopeMissesDescendants
    | ExceedsScope
    | RelationExceedsScope
    | ChangesGlobals
    | PinConflict
    | HidesPinned
    | MovesPinned

  function Members(scope: seq<string>): set<string>
  {
    set id | id in scope
  }

  /** The refusals of the scoped part, in the order in which they are tried. */
  ghost function ScopeError(before: MapState, after: MapState, scope: Option<seq<string>>): Option<EditError>
  {
    if scope.None? then None
    else
      var members := Members(scope.value);
      if !(members <= NodeMap(before.components).Keys) then Some(UnknownScope)
      else if !ScopeClosed(before, members) then Some(ScopeMissesDescendants)
      else if !OutsideUnchanged(before, after, members) then Some(ExceedsScope)
      else if !EdgesOutsideUnchanged(before, after, members) then Some(RelationExceedsScope)
      else if before.appearance != after.appearance || before.viewport != after.viewport then Some(ChangesGlobals)
      else None
  }

  predicate SamePin(node: Component, replacement: Component)
  {
    && replacement.position == node.position
    && replacement.parentId == node.parentId
    && replacement.pinned == node.pinned
    && replacement.kind == node.kind
    && replacement.binding == node.binding
  }

  /** An ancestor of a pin stays where it is and is not newly collapsed. */
  predicate Steady(previous: Nodes, proposed: Nodes, id: string)
  {
    && id in previous && id in proposed
    && !(!previous[id].collapsed && proposed[id].collapsed)
    && proposed[id].position.x == previous[id].position.x
    && proposed[id].position.y == previous[id].position.y
    && proposed[id].parentId == previous[id].parentId
  }

  predicate Collapses(previous: Nodes, proposed: Nodes, id: string)
  {
    id in previous && id in proposed && !previous[id].collapsed && proposed[id].collapsed
  }

  /** Gone, elsewhere or in another group. */
  predicate Moves(previous: Nodes, proposed: Nodes, id: string)
  {
    id in previous && id in proposed ==>
      || proposed[id].position.x != previous[id].position.x
      || proposed[id].position.y != previous[id].position.y
      || proposed[id].parentId != previous[id].parentId
  }

  predicate AllSteady(previous: Nodes, proposed: Nodes, ids: seq<string>)
  {
    forall i :: 0 <= i < |ids| ==> Steady(previous, proposed, ids[i])
  }

  ghost predicate PinKept(previous: Nodes, proposed: Nodes, id: string)
    requires id in previous
  {
    && id in proposed && SamePin(previous[id], proposed[id])
    && forall chain :: Chain(previous, id, chain) ==> AllSteady(previous, proposed, chain)
  }

  ghost predicate PinsOk(before: MapState, after: MapState)
  {
    var previous, proposed := NodeMap(before.components), NodeMap(after.components);
    forall id | id in previous :: previous[id].pinned ==> PinKept(previous, proposed, id)
  }

  ghost predicate EditAllowed(before: MapState, after: MapState, scope: Option<seq<string>>)
  {
    ScopeError(before, after, scope).None? && PinsOk(before, after)
  }

  /** The ancestor loop of the pin check; it never meets a missing parent and always ends. */
  method CheckPin(previous: Nodes, proposed: Nodes, node: Component) returns (error: Option<EditError>)
    requires node.id in previous && previous[node.id] == node && Rooted(previous, node.id)
    ensures error.None? <==> PinKept(previous, proposed, node.id)
    ensures error.Some? ==> error.value in {PinConflict, HidesPinned, MovesPinned}
    ensures error == Some(PinConflict) <==> node.id !in proposed || !SamePin(node, proposed[node.id])
    ensures error == Some(HidesPinned) ==>
              exists chain, a :: Chain(previous, node.id, chain) && a in chain && Collapses(previous, proposed, a)
    ensures error == Some(MovesPinned) ==>
              exists chain, a :: Chain(previous, node.id, chain) && a in chain && Moves(previous, proposed, a)
  {
    if node.id !in proposed || !SamePin(node, proposed[node.id]) {
      return Some(PinConflict);
    }
    ghost var chain :| Chain(previous, node.id, chain) && |chain| <= MAX_ANCESTORS;
    ghost var k: nat := 0;
    var parentId := node.parentId;
    while parentId.Some?
      invariant k <= |chain|
      invariant parentId == if k < |chain| then Some(chain[k]) else None
      invariant AllSteady(previous, proposed, chain[..k])
      decreases |chain| - k
    {
      ChainSuffix(previous, node.id, chain, k);
      var id := parentId.value;
      assert id in previous && previous[id].parentId == if k + 1 < |chain| then Some(chain[k + 1]) else None;
      var was := previous[id];
      if id in proposed && !was.collapsed && proposed[id].collapsed {
        assert !Steady(previous, proposed, chain[k]) && Collapses(previous, proposed, chain[k]);
        return Some(HidesPinned);
      }
      if id !in proposed || proposed[id].position.x != was.position.x
         || proposed[id].position.y != was.position.y || proposed[id].parentId != was.parentId
      {
        assert !Steady(previous, proposed, chain[k]) && Moves(previous, proposed, chain[k]);
        return Some(MovesPinned);
      }
      k := k + 1;
      assert chain[..k] == chain[..k-1] + [id];
      parentId := was.parentId;
    }
    assert chain[..k] == chain;
    forall other | Chain(previous, node.id, other)
      ensures AllSteady(previous, proposed, other)
    {
      ChainUnique(previous, node.id, chain, other);
    }
    error := None;
  }

  method CheckScope(before: MapState, after: MapState, scope: Option<seq<string>>) returns (error: Option<EditError>)
    requires Coherent(before) && Coherent(after)
    ensures error == ScopeError(before, after, scope)
  {
    hide Coherent, Rooted;
    if scope.None? {
      return None;
    }
    var previous, proposed := NodeMap(before.components), NodeMap(after.components);
    var members := Members(scope.value);
    if !(members <= previous.Keys) {
      return Some(UnknownScope);
    }
    if !ScopeClosed(before, members) {
      return Some(ScopeMissesDescendants);
    }
    var allowed := GrowScope(previous, after, members);
    hide InRegion, NodeMap, EdgeMap;
    if id :| id in previous.Keys + proposed.Keys && id !in allowed && Lookup(previous, id) != Lookup(proposed, id) {
      return Some(ExceedsScope);
    }
    var oldEdges, newEdges := EdgeMap(before.relations), EdgeMap(after.relations);
    var changed := set id | id in oldEdges.Keys + newEdges.Keys && Lookup(oldEdges, id) != Lookup(newEdges, id);
    if id :| id in changed && Escapes(allowed, Lookup(oldEdges, id), Lookup(newEdges, id)) {
      return Some(RelationExceedsScope);
    }
    if before.appearance != after.appearance || before.viewport != after.viewport {
      return Some(ChangesGlobals);
    }
    error := None;
  }

  predicate Escapes(allowed: set<string>, before: Option<Relation>, after: Option<Relation>)
  {
    !EndpointsIn(allowed, before) || !EndpointsIn(allowed, after)
  }

  predicate EndpointsIn(allowed: set<string>, edge: Option<Relation>)
  {
    edge.Some? ==> edge.value.source in allowed && edge.value.target in allowed
  }

  /** The whole check: it raises nothing exactly for the allowed edits. */
  method CheckAgentEdit(before: MapState, after: MapState, scope: Option<seq<string>>)
    returns (error: Option<EditError>)
    requires Coherent(before) && Coherent(after)
    ensures error.None? <==> EditAllowed(before, after, scope)
    ensures ScopeError(before, after, scope).Some? ==> error == ScopeError(before, after, scope)
    ensures error.Some? && ScopeError(before, after, scope).None? ==>
        error.value in {PinConflict, HidesPinned, MovesPinned}
  {
    hide ScopeError, PinKept, Rooted;
    error := CheckScope(before, after, scope);
    if error.Some? {
      return;
    }
    var previous, proposed := NodeMap(before.components), NodeMap(after.components);
    NodeMapEntries(before.components);
    var cs := before.components;
    assert forall i :: 0 <= i < |cs| ==>
      cs[i].id in previous && previous[cs[i].id] == cs[i] && Rooted(previous, cs[i].id);
    hide Coherent, NodeMap;
    for i := 0 to |cs|
      invariant forall j :: 0 <= j < i ==> cs[j].pinned ==> PinKept(previous, proposed, cs[j].id)
    {
      if cs[i].pinned {
        error := CheckPin(previous, proposed, cs[i]);
        if error.Some? {
          return;
        }
      }
    }
    error := None;
  }

  // What an accepted edit leaves alone

  /** Every ancestor of an existing component outside the scope is itself outside the scope. */
  lemma {:induction false} OutsideChain(before: MapState, scope: set<string>, id: string, chain: seq<string>)
    requires DistinctIds(before.components) && ScopeClosed(before, scope)
    requires id in NodeMap(before.components) && id !in scope && Chain(NodeMap(before.components), id, chain)
    ensures forall i :: 0 <= i < |chain| ==> chain[i] !in scope
    decreases chain
  {
    if chain != [] {
      NodeMapEntries(before.components);
      var c := NodeMap(before.components)[id];
      var i :| 0 <= i < |before.components| && before.components[i] == c;
      OutsideChain(before, scope, chain[0], chain[1..]);
      assert chain == [chain[0]] + chain[1..];
    }
  }

  lemma {:induction false} SameChain(previous: Nodes, proposed: Nodes, id: string, chain: seq<string>)
    requires Chain(previous, id, chain) && id in proposed && proposed[id].parentId == previous[id].parentId
    requires forall i :: 0 <= i < |chain| ==>
               chain[i] in previous && chain[i] in proposed &&
                 proposed[chain[i]].parentId == previous[chain[i]].parentId
    ensures Chain(proposed, id, chain)
    decreases chain
  {
    if chain != [] {
      assert chain == [chain[0]] + chain[1..];
      SameChain(previous, proposed, chain[0], chain[1..]);
    }
  }

  lemma {:induction false} SameOffset(previous: Nodes, proposed: Nodes, ids: seq<string>)
    requires forall i :: 0 <= i < |ids| ==>
               ids[i] in previous && ids[i] in proposed &&
               proposed[ids[i]].position.x == previous[ids[i]].position.x &&
               proposed[ids[i]].position.y == previous[ids[i]].position.y
    ensures Offset(proposed, ids) == Offset(previous, ids)
  {
    if ids != [] {
      SameOffset(previous, proposed, ids[1..]);
    }
  }

  lemma OutsideKept(before: MapState, after: MapState, scope: seq<string>, id: string)
    requires EditAllowed(before, after, Some(scope))
    requires id in NodeMap(before.components) && id !in scope
    ensures id in NodeMap(after.components) && NodeMap(after.components)[id] == NodeMap(before.components)[id]
  {
    var previous, proposed := NodeMap(before.components), NodeMap(after.components);
    hide NodeMap, PinsOk, EdgesOutsideUnchanged, ScopeClosed;
    assert !InRegion(previous, proposed, Members(scope), id);
    assert id in previous.Keys + proposed.Keys;
    assert Lookup(previous, id) == Lookup(proposed, id);
  }

  /** In an accepted scoped edit, every existing component outside the scope, with all its
      ancestors, is unchanged, so its absolute position is too. */
  lemma OutsideScopeUntouched(before: MapState, after: MapState, scope: seq<string>, id: string, chain: seq<string>)
    requires Coherent(before) && EditAllowed(before, after, Some(scope))
    requires id in NodeMap(before.components) && id !in scope && Chain(NodeMap(before.components), id, chain)
    ensures var previous, proposed := NodeMap(before.components), NodeMap(after.components);
            && Chain(proposed, id, chain)
            && (forall a | a in [id] + chain :: a in previous && a in proposed && proposed[a] == previous[a])
            && (forall i :: 0 <= i <= |chain| ==> ([id] + chain)[i] in previous && ([id] + chain)[i] in proposed)
            && Offset(proposed, [id] + chain) == Offset(previous, [id] + chain)
  {
    var previous, proposed := NodeMap(before.components), NodeMap(after.components);
    OutsideChain(before, Members(scope), id, chain);
    ChainKnown(previous, id, chain);
    hide NodeMap, EditAllowed, Coherent;
    forall a | a in [id] + chain
      ensures a in previous && a in proposed && proposed[a] == previous[a]
    {
      assert a !in Members(scope);
      OutsideKept(before, after, scope, a);
    }
    assert forall i :: 0 <= i < |chain| ==> chain[i] in [id] + chain;
    assert id in [id] + chain;
    SameChain(previous, proposed, id, chain);
    assert forall i :: 0 <= i < |[id] + chain| ==> ([id] + chain)[i] in [id] + chain;
    SameOffset(previous, proposed, [id] + chain);
  }

  /** Somewhere up the chain there is a member of the scope, and everything below it is new. */
  ghost predicate HangsBelow(previous: Nodes, scope: set<string>, chain: seq<string>)
  {
    exists i :: 0 <= i < |chain| && chain[i] in scope && forall j :: 0 <= j < i ==> chain[j] !in previous
  }

  lemma {:induction false} BelowHangs(
    previous: Nodes, proposed: Nodes, scope: set<string>, id: string, k: nat, chain: seq<string>)
    requires Below(previous, proposed, scope, id, k) && Chain(proposed, id, chain) && id !in scope
    ensures HangsBelow(previous, scope, chain)
    decreases k
  {
    var p := chain[0];
    if p !in scope {
      BelowHangs(previous, proposed, scope, p, k - 1, chain[1..]);
      var i :| 0 <= i < |chain[1..]| && chain[1..][i] in scope && forall j :: 0 <= j < i ==> chain[1..][j] !in previous;
      assert chain[i + 1] in scope;
      forall j | 0 <= j < i + 1
        ensures chain[j] !in previous
      {
        if j > 0 {
          assert chain[j] == chain[1..][j - 1];
        }
      }
    }
  }

  /** Every component an accepted scoped edit adds hangs below the scope. */
  lemma NewHangsBelowScope(before: MapState, after: MapState, scope: seq<string>, id: string, chain: seq<string>)
    requires EditAllowed(before, after, Some(scope))
    requires id !in NodeMap(before.components) && Chain(NodeMap(after.components), id, chain)
    ensures HangsBelow(NodeMap(before.components), Members(scope), chain)
  {
    var previous, proposed := NodeMap(before.components), NodeMap(after.components);
    hide NodeMap, PinsOk, EdgesOutsideUnchanged, ScopeClosed;
    assert id in previous.Keys + proposed.Keys && Lookup(previous, id) != Lookup(proposed, id);
    assert InRegion(previous, proposed, Members(scope), id);
    var k: nat :| Below(previous, proposed, Members(scope), id, k);
    BelowHangs(previous, proposed, Members(scope), id, k, chain);
  }

  // Pins

  /** A pin of an accepted edit keeps its chain and its absolute position, and no ancestor is
      newly collapsed. */
  lemma PinStays(before: MapState, after: MapState, id: string, chain: seq<string>)
    requires PinsOk(before, after)
    requires Chain(NodeMap(before.components), id, chain) && NodeMap(before.components)[id].pinned
    ensures var previous, proposed := NodeMap(before.components), NodeMap(after.components);
            && Chain(proposed, id, chain)
            && proposed[id].position == previous[id].position && proposed[id].parentId == previous[id].parentId
            && proposed[id].pinned && proposed[id].kind == previous[id].kind
            && proposed[id].binding == previous[id].binding
            && (forall i :: 0 <= i <= |chain| ==> ([id] + chain)[i] in previous && ([id] + chain)[i] in proposed)
            && Offset(proposed, [id] + chain) == Offset(previous, [id] + chain)
            && (forall i :: 0 <= i < |chain| ==> !previous[chain[i]].collapsed ==> !proposed[chain[i]].collapsed)
  {
    var previous, proposed := NodeMap(before.components), NodeMap(after.components);
    hide NodeMap;
    assert PinKept(previous, proposed, id);
    assert AllSteady(previous, proposed, chain);
    assert forall i :: 0 <= i < |chain| ==> Steady(previous, proposed, chain[i]);
    SameChain(previous, proposed, id, chain);
    SameOffset(previous, proposed, [id] + chain);
  }

  lemma PinsReflexive(s: MapState)
    ensures PinsOk(s, s)
  {
    var nodes := NodeMap(s.components);
    hide NodeMap;
    forall id, chain | id in nodes && Chain(nodes, id, chain)
      ensures AllSteady(nodes, nodes, chain)
    {
      ChainKnown(nodes, id, chain);
    }
  }

  lemma SteadyTransitive(a: Nodes, b: Nodes, c: Nodes, chain: seq<string>)
    requires AllSteady(a, b, chain) && AllSteady(b, c, chain)
    ensures AllSteady(a, c, chain)
  {
    forall i | 0 <= i < |chain|
      ensures Steady(a, c, chain[i])
    {
      assert Steady(a, b, chain[i]) && Steady(b, c, chain[i]);
    }
  }

  /** The pin check composes: two accepted edits in a row keep what one edit must keep. */
  lemma PinsTransitive(a: MapState, b: MapState, c: MapState)
    requires PinsOk(a, b) && PinsOk(b, c)
    ensures PinsOk(a, c)
  {
    var na, nb, nc := NodeMap(a.components), NodeMap(b.components), NodeMap(c.components);
    forall id | id in na && na[id].pinned
      ensures PinKept(na, nc, id)
    {
      hide NodeMap, Steady;
      assert PinKept(na, nb, id) && PinKept(nb, nc, id);
      forall chain | Chain(na, id, chain)
        ensures AllSteady(na, nc, chain)
      {
        PinStays(a, b, id, chain);
        SteadyTransitive(na, nb, nc, chain);
      }
    }
  }
}
