/** The summary of a planned graph, read off the list of all its nodes at every depth. */
module PlanNodes {
  import opened SortedNames
  import opened PlanWalks

  /** Every node of a graph, loops followed by the nodes of their bodies. */
  function AllNodes(g: PlannedGraph): seq<PlanNode>
    decreases g
  {
    InStages(g.stages)
  }

  function InStages(stages: seq<PlanStage>): seq<PlanNode>
    decreases stages
  {
    if stages == [] then [] else InStages(stages[..|stages|-1]) + InNodes(stages[|stages|-1].nodes)
  }

  function InNodes(nodes: seq<PlanNode>): seq<PlanNode>
    decreases nodes
  {
    if nodes == [] then [] else InNodes(nodes[..|nodes|-1]) + InNode(nodes[|nodes|-1])
  }

  function InNode(node: PlanNode): seq<PlanNode>
    decreases node
  {
    [node] + if node.PlannedLoop? then AllNodes(node.body) else []
  }

  /** The share of one node, without what a loop holds. */
  function Share(node: PlanNode): Summary
  {
    match node
    case PlannedTask(capabilities, permissions) =>
      Summary(1, 0, 0, 0, Elements(capabilities), Elements(permissions))
    case PlannedApproval => Summary(0, 1, 0, 0, {}, {})
    case PlannedLoop(body) => Summary(0, 0, 1, |body.stages|, {}, {})
  }

  function Tally(q: seq<PlanNode>): Summary
  {
    if q == [] then NOTHING else Plus(Tally(q[..|q|-1]), Share(q[|q|-1]))
  }

  lemma PlusNothing(a: Summary)
    ensures Plus(a, NOTHING) == a && Plus(NOTHING, a) == a
  {
  }

  lemma TallyLast(q: seq<PlanNode>)
    requires q != []
    ensures Tally(q) == Plus(Tally(q[..|q|-1]), Share(q[|q|-1]))
  {
  }

  lemma TallyOne(node: PlanNode)
    ensures Tally([node]) == Share(node)
  {
    TallyLast([node]);
    assert [node][..0] == [];
    PlusNothing(Share(node));
  }

  lemma {:induction false} TallyConcat(p: seq<PlanNode>, q: seq<PlanNode>)
    ensures Tally(p + q) == Plus(Tally(p), Tally(q))
  {
    hide Plus, Share;
    if q == [] {
      assert p + q == p && Tally(q) == NOTHING;
      PlusNothing(Tally(p));
    } else {
      var init, last := q[..|q|-1], q[|q|-1];
      TallyConcat(p, init);
      TallyLast(q);
      assert p + q != [] && (p + q)[|p + q|-1] == last && (p + q)[..|p + q|-1] == p + init;
      TallyLast(p + q);
      hide Tally;
      PlusAssociative(Tally(p), Tally(init), Share(last));
    }
  }

  lemma LoopShare(body: PlannedGraph, rest: Summary)
    ensures Plus(NOTHING.(loops := 1), Plus(NOTHING.(stages := |body.stages|), rest)) ==
            Plus(Share(PlannedLoop(body)), rest)
  {
  }

  lemma {:induction false} GraphTally(g: PlannedGraph)
    ensures Whole(g) == Plus(NOTHING.(stages := |g.stages|), Tally(AllNodes(g)))
    decreases g
  {
    StagesTally(g.stages);
  }

  lemma {:induction false} StagesTally(stages: seq<PlanStage>)
    ensures WholeStages(stages) == Tally(InStages(stages))
    decreases stages
  {
    if stages != [] {
      StagesTally(stages[..|stages|-1]);
      NodesTally(stages[|stages|-1].nodes);
      TallyConcat(InStages(stages[..|stages|-1]), InNodes(stages[|stages|-1].nodes));
    }
  }

  lemma {:induction false} NodesTally(nodes: seq<PlanNode>)
    ensures WholeNodes(nodes) == Tally(InNodes(nodes))
    decreases nodes
  {
    if nodes != [] {
      NodesTally(nodes[..|nodes|-1]);
      NodeTally(nodes[|nodes|-1]);
      TallyConcat(InNodes(nodes[..|nodes|-1]), InNode(nodes[|nodes|-1]));
    }
  }

  lemma {:induction false} NodeTally(node: PlanNode)
    ensures WholeNode(node) == Tally(InNode(node))
    decreases node
  {
    TallyOne(node);
    if node.PlannedLoop? {
      var body := node.body;
      GraphTally(body);
      TallyConcat([node], AllNodes(body));
      hide Tally, AllNodes, Whole;
      LoopShare(body, Tally(AllNodes(body)));
    } else {
      assert InNode(node) == [node];
    }
  }

  // The tallies mean what they say

  datatype Kind = Task | Approval | Loop

  function KindOf(node: PlanNode): Kind
  {
    match node
    case PlannedTask(_, _) => Task
    case PlannedApproval => Approval
    case PlannedLoop(_) => Loop
  }

  /** The indices of the nodes of one kind. */
  function Where(q: seq<PlanNode>, kind: Kind): set<int>
  {
    set i | 0 <= i < |q| && KindOf(q[i]) == kind
  }

  lemma WhereLast(q: seq<PlanNode>, node: PlanNode, kind: Kind)
    ensures Where(q + [node], kind) == Where(q, kind) + (if KindOf(node) == kind then {|q|} else {})
    ensures |q| !in Where(q, kind)
  {
    hide KindOf;
    assert forall i :: 0 <= i < |q| ==> (q + [node])[i] == q[i];
    assert (q + [node])[|q|] == node;
  }

  lemma OneMore(q: seq<PlanNode>, kind: Kind)
    requires q != []
    ensures |Where(q, kind)| == |Where(q[..|q|-1], kind)| + if KindOf(q[|q|-1]) == kind then 1 else 0
  {
    assert q == q[..|q|-1] + [q[|q|-1]];
    hide KindOf, Where;
    WhereLast(q[..|q|-1], q[|q|-1], kind);
  }

  lemma {:induction false} TallyCounts(q: seq<PlanNode>)
    ensures Tally(q).tasks == |Where(q, Task)| && Tally(q).approvals == |Where(q, Approval)|
    ensures Tally(q).loops == |Where(q, Loop)|
  {
    if q == [] {
      assert forall kind :: Where(q, kind) == {};
    } else {
      TallyCounts(q[..|q|-1]);
      OneMore(q, Task);
      OneMore(q, Approval);
      OneMore(q, Loop);
      hide Where;
    }
  }

  lemma {:induction false} TallyAccess(q: seq<PlanNode>, name: string)
    ensures name in Tally(q).capabilities <==> exists n :: n in q && n.PlannedTask? && name in n.capabilities
    ensures name in Tally(q).permissions <==> exists n :: n in q && n.PlannedTask? && name in n.permissions
  {
    if q != [] {
      TallyAccess(q[..|q|-1], name);
      assert q == q[..|q|-1] + [q[|q|-1]];
      assert q[|q|-1] in q;
    }
  }

  /** A node stands in the graph: in one of its stages, or in the body of a loop that does. */
  ghost predicate Stands(node: PlanNode, g: PlannedGraph)
    decreases g
  {
    exists i, j :: 0 <= i < |g.stages| && 0 <= j < |g.stages[i].nodes| &&
      (g.stages[i].nodes[j] == node ||
       (g.stages[i].nodes[j].PlannedLoop? && Stands(node, g.stages[i].nodes[j].body)))
  }

  ghost predicate StandsAt(node: PlanNode, at: PlanNode)
  {
    at == node || (at.PlannedLoop? && Stands(node, at.body))
  }

  lemma {:induction false} AllNodesAre(node: PlanNode, g: PlannedGraph)
    ensures node in AllNodes(g) <==> Stands(node, g)
    decreases g
  {
    InStagesAre(node, g.stages);
    var stages := g.stages;
    if Stands(node, g) {
      var i, j :| 0 <= i < |stages| && 0 <= j < |stages[i].nodes| &&
        (stages[i].nodes[j] == node || (stages[i].nodes[j].PlannedLoop? && Stands(node, stages[i].nodes[j].body)));
      assert StandsAt(node, stages[i].nodes[j]);
    }
    if node in InStages(stages) {
      var i, j :| 0 <= i < |stages| && 0 <= j < |stages[i].nodes| && StandsAt(node, stages[i].nodes[j]);
    }
  }

  lemma {:induction false} InStagesAre(node: PlanNode, stages: seq<PlanStage>)
    ensures node in InStages(stages) <==>
            exists i, j :: 0 <= i < |stages| && 0 <= j < |stages[i].nodes| && StandsAt(node, stages[i].nodes[j])
    decreases stages
  {
    hide StandsAt;
    if stages != [] {
      var init, last := stages[..|stages|-1], stages[|stages|-1];
      InStagesAre(node, init);
      InNodesAre(node, last.nodes);
      assert stages == init + [last];
      if node in InStages(init) {
        var i, j :| 0 <= i < |init| && 0 <= j < |init[i].nodes| && StandsAt(node, init[i].nodes[j]);
        assert stages[i] == init[i];
      } else if node in InNodes(last.nodes) {
        var j :| 0 <= j < |last.nodes| && StandsAt(node, last.nodes[j]);
        assert stages[|init|].nodes[j] == last.nodes[j];
      } else {
        assert forall i :: 0 <= i < |init| ==> stages[i] == init[i];
        assert forall i, j :: 0 <= i < |init| && 0 <= j < |init[i].nodes| ==> !StandsAt(node, init[i].nodes[j]);
      }
    }
  }

  lemma {:induction false} InNodesAre(node: PlanNode, nodes: seq<PlanNode>)
    ensures node in InNodes(nodes) <==> exists j :: 0 <= j < |nodes| && StandsAt(node, nodes[j])
    decreases nodes
  {
    if nodes != [] {
      var init, last := nodes[..|nodes|-1], nodes[|nodes|-1];
      InNodesAre(node, init);
      InNodeAre(node, last);
      hide StandsAt, InNode;
      assert forall j :: 0 <= j < |init| ==> nodes[j] == init[j];
    }
  }

  lemma {:induction false} InNodeAre(node: PlanNode, at: PlanNode)
    ensures node in InNode(at) <==> StandsAt(node, at)
    decreases at
  {
    if at.PlannedLoop? {
      AllNodesAre(node, at.body);
    }
  }

  /** What the plan needs is what its tasks declare, at every depth, and nothing else. */
  lemma AccessIsDeclared(g: PlannedGraph, name: string)
    ensures name in Whole(g).capabilities <==>
            exists n :: Stands(n, g) && n.PlannedTask? && name in n.capabilities
    ensures name in Whole(g).permissions <==>
            exists n :: Stands(n, g) && n.PlannedTask? && name in n.permissions
  {
    GraphTally(g);
    TallyAccess(AllNodes(g), name);
    forall n
      ensures n in AllNodes(g) <==> Stands(n, g)
    {
      AllNodesAre(n, g);
    }
    hide Whole, Tally, AllNodes, Stands;
  }

  /** The counts are the numbers of nodes of each kind, at every depth. */
  lemma CountsAreNodes(g: PlannedGraph)
    ensures var all := AllNodes(g);
            && Whole(g).tasks == |Where(all, Task)| && Whole(g).approvals == |Where(all, Approval)|
            && Whole(g).loops == |Where(all, Loop)| && |all| == Whole(g).tasks + Whole(g).approvals + Whole(g).loops
  {
    GraphTally(g);
    TallyCounts(AllNodes(g));
    KindsPartition(AllNodes(g));
    hide Whole, Tally, AllNodes, Where;
  }

  lemma {:induction false} KindsPartition(q: seq<PlanNode>)
    ensures |q| == Tally(q).tasks + Tally(q).approvals + Tally(q).loops
  {
    if q != [] {
      KindsPartition(q[..|q|-1]);
    }
  }
}
