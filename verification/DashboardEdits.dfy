/** What a coherent map and an accepted Agent edit mean, said of the components and relations
    themselves: exact conditions for the validator and for every refusal of the edit check. */
module DashboardEdits {
  import opened Wrappers
  import opened DashboardMap

  ghost predicate Known(cs: seq<Component>, id: string)
  {
    exists c :: c in cs && c.id == id
  }

  lemma KnownIffMapped(cs: seq<Component>, id: string)
    ensures Known(cs, id) <==> id in NodeMap(cs)
  {
    NodeMapEntries(cs);
  }

  lemma MappedIs(cs: seq<Component>, c: Component)
    requires DistinctIds(cs)
    ensures c in cs <==> c.id in NodeMap(cs) && NodeMap(cs)[c.id] == c
  {
    NodeMapEntries(cs);
  }

  // Coherent maps

  /** A child sits below the header of an existing group and inside its right and lower edge. */
  ghost predicate InsideParent(cs: seq<Component>, c: Component)
  {
    c.parentId.Some? ==>
      exists g :: g in cs && g.id == c.parentId.value && g.kind == "group" && c.position.y >= 48.0 &&
        c.position.x + c.position.width <= g.position.width && c.position.y + c.position.height <= g.position.height
  }

  ghost predicate AtMostEightAncestors(cs: seq<Component>, c: Component)
  {
    exists chain :: Chain(NodeMap(cs), c.id, chain) && |chain| <= 8
  }

  lemma ParentOkMeans(cs: seq<Component>, c: Component)
    requires DistinctIds(cs)
    ensures ParentOk(NodeMap(cs), c) <==> InsideParent(cs, c)
  {
    NodeMapEntries(cs);
    hide NodeMap;
    if c.parentId.Some? && c.parentId.value in NodeMap(cs) {
      var p := NodeMap(cs)[c.parentId.value];
      assert p in cs && p.id == c.parentId.value;
      assert forall g :: g in cs && g.id == p.id ==> g == p;
    }
  }

  /** The validator's condition, over the sequences themselves. */
  lemma CoherentExactly(s: MapState)
    ensures Coherent(s) <==>
            && (forall i, j :: 0 <= i < j < |s.components| ==> s.components[i].id != s.components[j].id)
            && (forall c :: c in s.components ==>
                  InsideParent(s.components, c) && AtMostEightAncestors(s.components, c))
            && (forall i, j :: 0 <= i < j < |s.relations| ==> s.relations[i].id != s.relations[j].id)
            && (forall r :: r in s.relations ==>
                  r.source != r.target && Known(s.components, r.source) && Known(s.components, r.target))
  {
    if DistinctIds(s.components) {
      forall c | c in s.components
        ensures ParentOk(NodeMap(s.components), c) && Rooted(NodeMap(s.components), c.id) <==>
                InsideParent(s.components, c) && AtMostEightAncestors(s.components, c)
      {
        ParentOkMeans(s.components, c);
      }
    }
    forall r | r in s.relations
      ensures EndpointsOk(NodeMap(s.components), r) <==>
              r.source != r.target && Known(s.components, r.source) && Known(s.components, r.target)
    {
      KnownIffMapped(s.components, r.source);
      KnownIffMapped(s.components, r.target);
    }
    hide NodeMap, ParentOk, Rooted, EndpointsOk, InsideParent, AtMostEightAncestors, Known;
  }

  /** Field bounds of a position that the nesting theorem needs. */
  predicate Placed(cs: seq<Component>)
  {
    forall i :: 0 <= i < |cs| ==> cs[i].position.x >= 0.0 && cs[i].position.y >= 0.0
  }

  lemma ParentOf(s: MapState, id: string, chain: seq<string>)
    requires Coherent(s) && Placed(s.components) && Chain(NodeMap(s.components), id, chain) && chain != []
    ensures var nodes := NodeMap(s.components);
            && chain[0] in nodes && Chain(nodes, chain[0], chain[1..])
            && nodes[id].position.x >= 0.0 && nodes[id].position.y >= 48.0
            && nodes[id].position.x + nodes[id].position.width <= nodes[chain[0]].position.width
            && nodes[id].position.y + nodes[id].position.height <= nodes[chain[0]].position.height
  {
    var nodes := NodeMap(s.components);
    NodeMapEntries(s.components);
    var i :| 0 <= i < |s.components| && s.components[i] == nodes[id];
    hide NodeMap, Rooted;
    assert ParentOk(nodes, s.components[i]);
  }

  /** Containment is transitive: measured from any of its ancestors, a component lies inside
      that ancestor, and below one header for every level between them. */
  lemma {:induction false} NestedInside(s: MapState, id: string, chain: seq<string>, i: nat)
    requires Coherent(s) && Placed(s.components) && Chain(NodeMap(s.components), id, chain) && i < |chain|
    ensures var nodes := NodeMap(s.components);
            && id in nodes && (forall k :: 0 <= k < |chain| ==> chain[k] in nodes)
            && var at := Offset(nodes, [id] + chain[..i]);
            && at.0 >= 0.0 && at.0 + nodes[id].position.width <= nodes[chain[i]].position.width
            && at.1 >= 48.0 * (i + 1) as real
            && at.1 + nodes[id].position.height <= nodes[chain[i]].position.height
    decreases i
  {
    var nodes := NodeMap(s.components);
    ParentOf(s, id, chain);
    ChainKnown(nodes, id, chain);
    hide NodeMap, Coherent, Chain;
    assert ([id] + chain[..i])[1..] == chain[..i];
    if i == 0 {
      assert chain[..i] == [];
    } else {
      NestedInside(s, chain[0], chain[1..], i - 1);
      assert [chain[0]] + chain[1..][..i-1] == chain[..i];
      assert chain[1..][i - 1] == chain[i];
    }
  }

  // The region an edit may touch

  /** In the scope, or new in the proposed map and hanging below the scope through new ones. */
  ghost predicate MayTouch(before: MapState, after: MapState, scope: seq<string>, id: string)
  {
    id in scope ||
    (!Known(before.components, id) &&
     exists chain :: Chain(NodeMap(after.components), id, chain) &&
       HangsBelow(NodeMap(before.components), Members(scope), chain))
  }

  lemma {:induction false} HangsIsBelow(
    previous: Nodes, proposed: Nodes, scope: set<string>, id: string, chain: seq<string>, i: nat)
    requires id !in previous && Chain(proposed, id, chain) && i < |chain| && chain[i] in scope
    requires forall j :: 0 <= j < i ==> chain[j] !in previous
    ensures Below(previous, proposed, scope, id, i + 1)
    decreases i
  {
    if i == 0 {
      assert Below(previous, proposed, scope, chain[0], 0);
    } else {
      HangsIsBelow(previous, proposed, scope, chain[0], chain[1..], i - 1);
    }
  }

  lemma RegionMeans(before: MapState, after: MapState, scope: seq<string>, id: string)
    requires Coherent(after)
    ensures InRegion(NodeMap(before.components), NodeMap(after.components), Members(scope), id) <==>
            MayTouch(before, after, scope, id)
  {
    var previous, proposed := NodeMap(before.components), NodeMap(after.components);
    KnownIffMapped(before.components, id);
    hide NodeMap, Known, Coherent;
    if id in scope {
      assert Below(previous, proposed, Members(scope), id, 0);
    } else if InRegion(previous, proposed, Members(scope), id) {
      var k: nat :| Below(previous, proposed, Members(scope), id, k);
      CoherentRooted(after, id);
      var chain :| Chain(proposed, id, chain);
      BelowHangs(previous, proposed, Members(scope), id, k, chain);
    } else if id !in previous {
      forall chain | Chain(proposed, id, chain)
        ensures !HangsBelow(previous, Members(scope), chain)
      {
        if i :| 0 <= i < |chain| && chain[i] in Members(scope) && forall j :: 0 <= j < i ==> chain[j] !in previous {
          HangsIsBelow(previous, proposed, Members(scope), id, chain, i);
          assert false;
        }
      }
    }
  }

  // The scope itself

  ghost predicate KnownScope(before: MapState, scope: seq<string>)
  {
    forall id :: id in scope ==> Known(before.components, id)
  }

  /** Whoever has an ancestor in the scope is in the scope. */
  ghost predicate HoldsDescendants(before: MapState, scope: seq<string>)
  {
    forall c, chain, a :: c in before.components && Chain(NodeMap(before.components), c.id, chain) && a in chain ==>
      a in scope ==> c.id in scope
  }

  lemma {:induction false} DescendantsFollow(
    before: MapState, scope: seq<string>, id: string, chain: seq<string>, i: nat)
    requires DistinctIds(before.components) && ScopeClosed(before, Members(scope))
    requires Chain(NodeMap(before.components), id, chain) && i < |chain| && chain[i] in scope
    ensures id in scope
    decreases i
  {
    NodeMapEntries(before.components);
    var k :| 0 <= k < |before.components| && before.components[k] == NodeMap(before.components)[id];
    if i > 0 {
      DescendantsFollow(before, scope, chain[0], chain[1..], i - 1);
    }
    assert chain[0] in Members(scope);
  }

  lemma ClosedMeans(before: MapState, scope: seq<string>)
    requires Coherent(before)
    ensures ScopeClosed(before, Members(scope)) <==> HoldsDescendants(before, scope)
  {
    var nodes := NodeMap(before.components);
    if ScopeClosed(before, Members(scope)) {
      forall c, chain, a | c in before.components && Chain(nodes, c.id, chain) && a in chain && a in scope
        ensures c.id in scope
      {
        var i :| 0 <= i < |chain| && chain[i] == a;
        DescendantsFollow(before, scope, c.id, chain, i);
      }
    } else {
      var i :| 0 <= i < |before.components| && before.components[i].parentId.Some? &&
        before.components[i].parentId.value in Members(scope) && before.components[i].id !in Members(scope);
      var c := before.components[i];
      MappedIs(before.components, c);
      CoherentRooted(before, c.id);
      hide NodeMap, Coherent;
      var chain :| Chain(nodes, c.id, chain);
      assert chain[0] in chain;
    }
  }

  // Components and relations

  ghost predicate ComponentsKept(before: MapState, after: MapState, scope: seq<string>)
  {
    && (forall c :: c in before.components && !MayTouch(before, after, scope, c.id) ==> c in after.components)
    && (forall c :: c in after.components && !MayTouch(before, after, scope, c.id) ==> c in before.components)
  }

  ghost predicate MayTouchBoth(before: MapState, after: MapState, scope: seq<string>, r: Relation)
  {
    MayTouch(before, after, scope, r.source) && MayTouch(before, after, scope, r.target)
  }

  /** Relations removed or changed, and relations added or changed, have both ends in the region. */
  ghost predicate RelationsKept(before: MapState, after: MapState, scope: seq<string>)
  {
    && (forall r :: r in before.relations && !MayTouchBoth(before, after, scope, r) ==> r in after.relations)
    && (forall r :: r in after.relations && !MayTouchBoth(before, after, scope, r) ==> r in before.relations)
  }

  lemma ComponentsMean(before: MapState, after: MapState, scope: seq<string>)
    requires Coherent(before) && Coherent(after)
    ensures OutsideUnchanged(before, after, Members(scope)) <==> ComponentsKept(before, after, scope)
  {
    var previous, proposed := NodeMap(before.components), NodeMap(after.components);
    forall id
      ensures InRegion(previous, proposed, Members(scope), id) <==> MayTouch(before, after, scope, id)
    {
      RegionMeans(before, after, scope, id);
    }
    forall c
      ensures c in before.components <==> Lookup(previous, c.id) == Some(c)
      ensures c in after.components <==> Lookup(proposed, c.id) == Some(c)
    {
      MappedIs(before.components, c);
      MappedIs(after.components, c);
    }
    NodeMapEntries(before.components);
    NodeMapEntries(after.components);
    hide NodeMap, InRegion, MayTouch, Coherent;
    if ComponentsKept(before, after, scope) {
      forall id | id in previous.Keys + proposed.Keys && !InRegion(previous, proposed, Members(scope), id)
        ensures Lookup(previous, id) == Lookup(proposed, id)
      {
        if id in previous {
          assert Lookup(proposed, previous[id].id) == Some(previous[id]);
        } else {
          assert Lookup(previous, proposed[id].id) == Some(proposed[id]);
        }
      }
    }
  }

  lemma {:induction false} EdgeMapEntries(rs: seq<Relation>)
    ensures forall k :: k in EdgeMap(rs) ==> EdgeMap(rs)[k].id == k && EdgeMap(rs)[k] in rs
    ensures forall i :: 0 <= i < |rs| ==> rs[i].id in EdgeMap(rs)
    ensures DistinctEdgeIds(rs) ==> forall i :: 0 <= i < |rs| ==> EdgeMap(rs)[rs[i].id] == rs[i]
  {
    if rs != [] {
      EdgeMapEntries(rs[..|rs|-1]);
      assert rs == rs[..|rs|-1] + [rs[|rs|-1]];
    }
  }

  lemma EdgeIs(rs: seq<Relation>, r: Relation)
    requires DistinctEdgeIds(rs)
    ensures r in rs <==> Lookup(EdgeMap(rs), r.id) == Some(r)
  {
    EdgeMapEntries(rs);
  }

  lemma RelationsMean(before: MapState, after: MapState, scope: seq<string>)
    requires Coherent(before) && Coherent(after)
    ensures EdgesOutsideUnchanged(before, after, Members(scope)) <==> RelationsKept(before, after, scope)
  {
    var previous, proposed := NodeMap(before.components), NodeMap(after.components);
    var oldEdges, newEdges := EdgeMap(before.relations), EdgeMap(after.relations);
    forall r: Relation
      ensures EdgeInside(previous, proposed, Members(scope), Some(r)) <==> MayTouchBoth(before, after, scope, r)
    {
      RegionMeans(before, after, scope, r.source);
      RegionMeans(before, after, scope, r.target);
    }
    forall r: Relation
      ensures r in before.relations <==> Lookup(oldEdges, r.id) == Some(r)
      ensures r in after.relations <==> Lookup(newEdges, r.id) == Some(r)
    {
      EdgeIs(before.relations, r);
      EdgeIs(after.relations, r);
    }
    EdgeMapEntries(before.relations);
    EdgeMapEntries(after.relations);
    assert EdgeInside(previous, proposed, Members(scope), None);
    hide NodeMap, EdgeMap, EdgeInside, MayTouchBoth, Coherent;
    if RelationsKept(before, after, scope) {
      forall id | id in oldEdges.Keys + newEdges.Keys && Lookup(oldEdges, id) != Lookup(newEdges, id)
        ensures EdgeInside(previous, proposed, Members(scope), Lookup(oldEdges, id))
        ensures EdgeInside(previous, proposed, Members(scope), Lookup(newEdges, id))
      {
        if id in oldEdges {
          assert Lookup(oldEdges, oldEdges[id].id) == Some(oldEdges[id]);
          assert oldEdges[id] !in after.relations;
        }
        if id in newEdges {
          assert Lookup(newEdges, newEdges[id].id) == Some(newEdges[id]);
          assert newEdges[id] !in before.relations;
        }
      }
    }
  }

  /** Every refusal of the scoped check with its exact condition, in the order of the tests. */
  lemma ScopeRefusals(before: MapState, after: MapState, scope: seq<string>)
    requires Coherent(before) && Coherent(after)
    ensures ScopeError(before, after, Some(scope)) ==
            if !KnownScope(before, scope) then Some(UnknownScope)
            else if !HoldsDescendants(before, scope) then Some(ScopeMissesDescendants)
            else if !ComponentsKept(before, after, scope) then Some(ExceedsScope)
            else if !RelationsKept(before, after, scope) then Some(RelationExceedsScope)
            else if before.appearance != after.appearance || before.viewport != after.viewport then Some(ChangesGlobals)
            else None
  {
    forall id
      ensures Known(before.components, id) <==> id in NodeMap(before.components)
    {
      KnownIffMapped(before.components, id);
    }
    ClosedMeans(before, scope);
    ComponentsMean(before, after, scope);
    RelationsMean(before, after, scope);
    hide NodeMap, ScopeClosed, HoldsDescendants, OutsideUnchanged, ComponentsKept, EdgesOutsideUnchanged, RelationsKept;
    hide Known, Coherent;
  }

  // Pins

  /** The same component up to title, body, renderer and collapsing. */
  predicate SameFrame(c: Component, d: Component)
  {
    d.id == c.id && d.position == c.position && d.parentId == c.parentId && d.pinned == c.pinned &&
    d.kind == c.kind && d.binding == c.binding
  }

  /** The same place in the same group, and not newly collapsed. */
  predicate StillHolds(a: Component, b: Component)
  {
    b.id == a.id && b.position.x == a.position.x && b.position.y == a.position.y && b.parentId == a.parentId &&
    (b.collapsed ==> a.collapsed)
  }

  ghost predicate PinStands(before: MapState, after: MapState, c: Component)
  {
    && (exists d :: d in after.components && SameFrame(c, d))
    && forall a, chain :: a in before.components && Chain(NodeMap(before.components), c.id, chain) && a.id in chain ==>
         exists b :: b in after.components && StillHolds(a, b)
  }

  lemma SteadyMeans(before: MapState, after: MapState, id: string)
    requires DistinctIds(before.components) && DistinctIds(after.components) && id in NodeMap(before.components)
    ensures Steady(NodeMap(before.components), NodeMap(after.components), id) <==>
            exists b :: b in after.components && StillHolds(NodeMap(before.components)[id], b)
  {
    var previous, proposed := NodeMap(before.components), NodeMap(after.components);
    NodeMapEntries(before.components);
    NodeMapEntries(after.components);
    forall b
      ensures b in after.components <==> b.id in proposed && proposed[b.id] == b
    {
      MappedIs(after.components, b);
    }
    hide NodeMap, DistinctIds;
    if id in proposed {
      assert proposed[id] in after.components;
    }
  }

  lemma PinMeans(before: MapState, after: MapState, c: Component)
    requires Coherent(before) && Coherent(after) && c in before.components
    ensures c.id in NodeMap(before.components)
    ensures PinKept(NodeMap(before.components), NodeMap(after.components), c.id) <==> PinStands(before, after, c)
  {
    var previous, proposed := NodeMap(before.components), NodeMap(after.components);
    MappedIs(before.components, c);
    forall d
      ensures d in after.components <==> d.id in proposed && proposed[d.id] == d
      ensures d in before.components <==> d.id in previous && previous[d.id] == d
    {
      MappedIs(after.components, d);
      MappedIs(before.components, d);
    }
    NodeMapEntries(before.components);
    NodeMapEntries(after.components);
    forall id | id in previous
      ensures Steady(previous, proposed, id) <==> exists b :: b in after.components && StillHolds(previous[id], b)
    {
      SteadyMeans(before, after, id);
    }
    hide NodeMap, Coherent, Steady, StillHolds;
    assert c.id in proposed && SamePin(c, proposed[c.id]) <==> exists d :: d in after.components && SameFrame(c, d) by {
      if c.id in proposed {
        assert proposed[c.id] in after.components;
      }
    }
    hide SamePin, SameFrame;
    forall chain | Chain(previous, c.id, chain)
      ensures AllSteady(previous, proposed, chain) <==>
              forall a :: a in before.components && a.id in chain ==>
                exists b :: b in after.components && StillHolds(a, b)
    {
      ChainKnown(previous, c.id, chain);
      hide Chain;
      if AllSteady(previous, proposed, chain) {
        forall a | a in before.components && a.id in chain
          ensures exists b :: b in after.components && StillHolds(a, b)
        {
          var i :| 0 <= i < |chain| && chain[i] == a.id;
          assert Steady(previous, proposed, chain[i]);
        }
      } else {
        var i :| 0 <= i < |chain| && !Steady(previous, proposed, chain[i]);
        assert previous[chain[i]] in before.components && previous[chain[i]].id in chain;
      }
    }
    hide AllSteady, Chain;
  }

  lemma PinsMean(before: MapState, after: MapState)
    requires Coherent(before) && Coherent(after)
    ensures PinsOk(before, after) <==> forall c :: c in before.components && c.pinned ==> PinStands(before, after, c)
  {
    var previous := NodeMap(before.components);
    NodeMapEntries(before.components);
    forall c | c in before.components
      ensures c.id in previous && previous[c.id] == c
      ensures PinKept(previous, NodeMap(after.components), c.id) <==> PinStands(before, after, c)
    {
      MappedIs(before.components, c);
      PinMeans(before, after, c);
    }
    hide NodeMap, PinKept, PinStands, Coherent;
    if forall c :: c in before.components && c.pinned ==> PinStands(before, after, c) {
      forall id | id in previous && previous[id].pinned
        ensures PinKept(previous, NodeMap(after.components), id)
      {
        assert previous[id] in before.components && previous[id].id == id;
      }
    }
  }

  /** The whole edit check, exactly: an unscoped edit must keep every pin standing; a scoped
      one must also name whole regions of the map, leave every component and relation outside
      them as it is, and leave the appearance and the viewport alone. */
  lemma EditAllowedExactly(before: MapState, after: MapState, scope: Option<seq<string>>)
    requires Coherent(before) && Coherent(after)
    ensures EditAllowed(before, after, scope) <==>
            && (forall c :: c in before.components && c.pinned ==> PinStands(before, after, c))
            && (scope.Some? ==>
                  && KnownScope(before, scope.value) && HoldsDescendants(before, scope.value)
                  && ComponentsKept(before, after, scope.value) && RelationsKept(before, after, scope.value)
                  && before.appearance == after.appearance && before.viewport == after.viewport)
  {
    PinsMean(before, after);
    if scope.Some? {
      ScopeRefusals(before, after, scope.value);
    }
    hide PinsOk, PinStands, KnownScope, HoldsDescendants, ComponentsKept, RelationsKept;
  }
}
