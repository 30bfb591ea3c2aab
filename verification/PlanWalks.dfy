/** The three explicit-stack walks over nested workflow graphs, against recursive
    definitions of what they compute. */
module PlanWalks {
  import opened SortedNames

  // The truncating walk over a source workflow

  datatype WorkflowNode = TaskBlock | ApprovalBlock | LoopBlock(body: seq<WorkflowNode>)

  /** All nodes in pre-order: a loop before its body, its body before what follows it. */
  function PreOrder(nodes: seq<WorkflowNode>): seq<WorkflowNode>
    decreases nodes
  {
    if nodes == [] then []
    else
      var node := nodes[0];
      [node] + (if node.LoopBlock? then PreOrder(node.body) else []) + PreOrder(nodes[1..])
  }

  function Tasks(nodes: seq<WorkflowNode>): nat
  {
    if nodes == [] then 0 else Tasks(nodes[..|nodes|-1]) + if nodes[|nodes|-1].TaskBlock? then 1 else 0
  }

  function Approvals(nodes: seq<WorkflowNode>): nat
  {
    if nodes == [] then 0 else Approvals(nodes[..|nodes|-1]) + if nodes[|nodes|-1].ApprovalBlock? then 1 else 0
  }

  function Loops(nodes: seq<WorkflowNode>): nat
  {
    if nodes == [] then 0 else Loops(nodes[..|nodes|-1]) + if nodes[|nodes|-1].LoopBlock? then 1 else 0
  }

  datatype Frame = Frame(nodes: seq<WorkflowNode>, index: nat)

  /** What a stack of frames still has to visit, its last frame first. */
  ghost function Remaining(stack: seq<Frame>): seq<WorkflowNode>
  {
    if stack == [] then []
    else
      var top := stack[|stack|-1];
      PreOrder(if top.index < |top.nodes| then top.nodes[top.index..] else []) + Remaining(stack[..|stack|-1])
  }

  lemma PopExhausted(stack: seq<Frame>)
    requires stack != [] && stack[|stack|-1].index >= |stack[|stack|-1].nodes|
    ensures Remaining(stack) == Remaining(stack[..|stack|-1])
  {
  }

  ghost function Advanced(stack: seq<Frame>): seq<Frame>
    requires stack != [] && stack[|stack|-1].index < |stack[|stack|-1].nodes|
  {
    var top := stack[|stack|-1];
    var node := top.nodes[top.index];
    stack[..|stack|-1] + [Frame(top.nodes, top.index + 1)] + if node.LoopBlock? then [Frame(node.body, 0)] else []
  }

  lemma PushOne(rest: seq<Frame>, f: Frame)
    ensures Remaining(rest + [f]) == PreOrder(if f.index < |f.nodes| then f.nodes[f.index..] else []) + Remaining(rest)
  {
    assert (rest + [f])[..|rest|] == rest;
  }

  lemma Regroup(a: seq<WorkflowNode>, b: seq<WorkflowNode>, c: seq<WorkflowNode>, d: seq<WorkflowNode>)
    ensures a + b + c + d == a + (b + (c + d))
  {
  }

  lemma PreOrderFirst(nodes: seq<WorkflowNode>, tail: seq<WorkflowNode>)
    requires nodes != []
    ensures PreOrder(nodes) + tail ==
            [nodes[0]] + ((if nodes[0].LoopBlock? then PreOrder(nodes[0].body) else []) + (PreOrder(nodes[1..]) + tail))
  {
    var inner := if nodes[0].LoopBlock? then PreOrder(nodes[0].body) else [];
    var after := PreOrder(nodes[1..]);
    assert PreOrder(nodes) == [nodes[0]] + inner + after;
    hide PreOrder;
    Regroup([nodes[0]], inner, after, tail);
  }

  /** Visiting the node of the last frame takes exactly the next node in pre-order. */
  lemma VisitNext(stack: seq<Frame>)
    requires stack != [] && stack[|stack|-1].index < |stack[|stack|-1].nodes|
    ensures var top := stack[|stack|-1];
            Remaining(stack) == [top.nodes[top.index]] + Remaining(Advanced(stack))
  {
    var top := stack[|stack|-1];
    var rest := stack[..|stack|-1];
    var node := top.nodes[top.index];
    var next := Frame(top.nodes, top.index + 1);
    var here := top.nodes[top.index..];
    hide Remaining, PreOrder;
    assert stack == rest + [top];
    assert here[1..] == top.nodes[top.index + 1..];
    PushOne(rest, top);
    PushOne(rest, next);
    PreOrderFirst(here, Remaining(rest));
    assert PreOrder(here[1..]) + Remaining(rest) == Remaining(rest + [next]) by {
      if next.index >= |next.nodes| { assert here[1..] == []; }
    }
    if node.LoopBlock? {
      PushOne(rest + [next], Frame(node.body, 0));
      assert node.body == if 0 < |node.body| then node.body[0..] else [];
    } else {
      assert Advanced(stack) == rest + [next];
      assert [] + Remaining(rest + [next]) == Remaining(rest + [next]);
    }
  }

  function Limit(maxNodes: int): nat
  {
    if maxNodes < 0 then 0 else maxNodes
  }

  ghost function FirstNodes(nodes: seq<WorkflowNode>, maxNodes: int): seq<WorkflowNode>
  {
    var all := PreOrder(nodes);
    if |all| <= Limit(maxNodes) then all else all[..Limit(maxNodes)]
  }

  lemma StartOfWalk(nodes: seq<WorkflowNode>)
    ensures Remaining([Frame(nodes, 0)]) == PreOrder(nodes) && [] + PreOrder(nodes) == PreOrder(nodes)
    ensures Counted([], 0, 0, 0)
  {
    PushOne([], Frame(nodes, 0));
    assert [] + [Frame(nodes, 0)] == [Frame(nodes, 0)];
    assert nodes == if 0 < |nodes| then nodes[0..] else [];
    assert PreOrder(nodes) + [] == PreOrder(nodes);
  }

  /** The walk stops with the counts of what it has seen, having seen everything or the limit. */
  lemma Stopped(
    nodes: seq<WorkflowNode>, maxNodes: int, seen: seq<WorkflowNode>, rest: seq<WorkflowNode>,
    tasks: nat, approvals: nat, loops: nat)
    requires PreOrder(nodes) == seen + rest && |seen| <= Limit(maxNodes) && Counted(seen, tasks, approvals, loops)
    requires rest == [] || |seen| == Limit(maxNodes)
    ensures tasks == Tasks(FirstNodes(nodes, maxNodes)) && approvals == Approvals(FirstNodes(nodes, maxNodes))
    ensures loops == Loops(FirstNodes(nodes, maxNodes)) && (rest != [] <==> |PreOrder(nodes)| > Limit(maxNodes))
  {
    hide PreOrder, Tasks, Approvals, Loops;
    assert FirstNodes(nodes, maxNodes) == seen;
  }

  lemma EndOfWalk(seen: seq<WorkflowNode>)
    ensures seen + Remaining([]) == seen
  {
  }

  ghost predicate Counted(seen: seq<WorkflowNode>, tasks: nat, approvals: nat, loops: nat)
  {
    tasks == Tasks(seen) && approvals == Approvals(seen) && loops == Loops(seen)
  }

  lemma CountNext(seen: seq<WorkflowNode>, node: WorkflowNode, tasks: nat, approvals: nat, loops: nat)
    requires Counted(seen, tasks, approvals, loops)
    ensures node.TaskBlock? ==> Counted(seen + [node], tasks + 1, approvals, loops)
    ensures node.ApprovalBlock? ==> Counted(seen + [node], tasks, approvals + 1, loops)
    ensures node.LoopBlock? ==> Counted(seen + [node], tasks, approvals, loops + 1)
  {
    assert (seen + [node])[..|seen|] == seen;
  }

  lemma NextStack(stack: seq<Frame>)
    requires stack != [] && stack[|stack|-1].index < |stack[|stack|-1].nodes|
    ensures var top := stack[|stack|-1];
            var popped := stack[..|stack|-1] + [Frame(top.nodes, top.index + 1)];
            var node := top.nodes[top.index];
            Advanced(stack) == if node.LoopBlock? then popped + [Frame(node.body, 0)] else popped
  {
  }

  /** The counts are those of the first maxNodes nodes in pre-order, and the result is
      truncated exactly when the nested graph has more nodes than that. */
  method SourceCounts(nodes: seq<WorkflowNode>, maxNodes: int)
    returns (tasks: nat, approvals: nat, loops: nat, truncated: bool)
    ensures tasks == Tasks(FirstNodes(nodes, maxNodes))
    ensures approvals == Approvals(FirstNodes(nodes, maxNodes))
    ensures loops == Loops(FirstNodes(nodes, maxNodes))
    ensures truncated <==> |PreOrder(nodes)| > Limit(maxNodes)
  {
    tasks, approvals, loops := 0, 0, 0;
    var total := 0;
    var stack := [Frame(nodes, 0)];
    ghost var seen: seq<WorkflowNode> := [];
    ghost var all := PreOrder(nodes);
    StartOfWalk(nodes);
    hide Remaining, PreOrder, Advanced, Counted, FirstNodes;
    while stack != []
      invariant all == seen + Remaining(stack)
      invariant total == |seen| <= Limit(maxNodes)
      invariant Counted(seen, tasks, approvals, loops)
      decreases |Remaining(stack)|, |stack|
    {
      var top := stack[|stack|-1];
      if top.index >= |top.nodes| {
        PopExhausted(stack);
        stack := stack[..|stack|-1];
        continue;
      }
      VisitNext(stack);
      if total >= maxNodes {
        Stopped(nodes, maxNodes, seen, Remaining(stack), tasks, approvals, loops);
        return tasks, approvals, loops, true;
      }
      var node := top.nodes[top.index];
      ghost var advanced := Advanced(stack);
      assert all == (seen + [node]) + Remaining(advanced);
      CountNext(seen, node, tasks, approvals, loops);
      NextStack(stack);
      stack := stack[..|stack|-1] + [Frame(top.nodes, top.index + 1)];
      total := total + 1;
      seen := seen + [node];
      if node.TaskBlock? {
        tasks := tasks + 1;
      } else if node.ApprovalBlock? {
        approvals := approvals + 1;
      } else {
        loops := loops + 1;
        stack := stack + [Frame(node.body, 0)];
      }
      assert stack == advanced;
    }
    EndOfWalk(seen);
    Stopped(nodes, maxNodes, seen, [], tasks, approvals, loops);
    truncated := false;
  }

  // The worklists over a planned graph

  datatype PlanNode =
    | PlannedTask(capabilities: seq<string>, permissions: seq<string>)
    | PlannedApproval
    | PlannedLoop(body: PlannedGraph)

  datatype PlanStage = PlanStage(nodes: seq<PlanNode>)

  datatype PlannedGraph = PlannedGraph(stages: seq<PlanStage>)

  /** Task, approval, loop and stage counts, and the access that tasks declare. */
  datatype Summary = Summary(
    tasks: nat,
    approvals: nat,
    loops: nat,
    stages: nat,
    capabilities: set<string>,
    permissions: set<string>)

  const NOTHING := Summary(0, 0, 0, 0, {}, {})

  function Plus(a: Summary, b: Summary): Summary
  {
    Summary(a.tasks + b.tasks, a.approvals + b.approvals, a.loops + b.loops, a.stages + b.stages,
            a.capabilities + b.capabilities, a.permissions + b.permissions)
  }

  /** The summary of a whole graph, by recursion over its structure. */
  function Whole(g: PlannedGraph): Summary
    decreases g
  {
    Plus(NOTHING.(stages := |g.stages|), WholeStages(g.stages))
  }

  function WholeStages(stages: seq<PlanStage>): Summary
    decreases stages
  {
    if stages == [] then NOTHING
    else Plus(WholeStages(stages[..|stages|-1]), WholeNodes(stages[|stages|-1].nodes))
  }

  function WholeNodes(nodes: seq<PlanNode>): Summary
    decreases nodes
  {
    if nodes == [] then NOTHING else Plus(WholeNodes(nodes[..|nodes|-1]), WholeNode(nodes[|nodes|-1]))
  }

  function WholeNode(node: PlanNode): Summary
    decreases node
  {
    match node
    case PlannedTask(capabilities, permissions) =>
      NOTHING.(tasks := 1, capabilities := Elements(capabilities), permissions := Elements(permissions))
    case PlannedApproval => NOTHING.(approvals := 1)
    case PlannedLoop(body) => Plus(NOTHING.(loops := 1), Whole(body))
  }

  ghost function WholePending(pending: seq<PlannedGraph>): Summary
  {
    if pending == [] then NOTHING else Plus(WholePending(pending[..|pending|-1]), Whole(pending[|pending|-1]))
  }

  lemma PendingPush(pending: seq<PlannedGraph>, g: PlannedGraph)
    ensures WholePending(pending + [g]) == Plus(WholePending(pending), Whole(g))
  {
    assert (pending + [g])[..|pending|] == pending;
  }

  // Progress of a worklist: what is done, plus what is pending, plus the part of the current
  // graph not yet reached.

  ghost function Progress(done: Summary, pending: seq<PlannedGraph>): Summary
  {
    Plus(done, WholePending(pending))
  }

  lemma TakeGraph(done: Summary, pending: seq<PlannedGraph>)
    requires pending != []
    ensures var g := pending[|pending|-1];
            Progress(done, pending) ==
            Plus(Progress(Plus(done, NOTHING.(stages := |g.stages|)), pending[..|pending|-1]), WholeStages(g.stages))
  {
    hide WholeStages, WholePending;
    PendingLast(pending);
  }

  lemma PendingLast(pending: seq<PlannedGraph>)
    requires pending != []
    ensures var g := pending[|pending|-1];
            WholePending(pending) ==
            Plus(WholePending(pending[..|pending|-1]), Plus(NOTHING.(stages := |g.stages|), WholeStages(g.stages)))
  {
    hide WholeStages;
  }

  ghost function After(done: Summary, node: PlanNode): Summary
  {
    Plus(done, if node.PlannedLoop? then NOTHING.(loops := 1) else WholeNode(node))
  }

  ghost function Queue(pending: seq<PlannedGraph>, node: PlanNode): seq<PlannedGraph>
  {
    if node.PlannedLoop? then pending + [node.body] else pending
  }

  lemma HandleNode(done: Summary, pending: seq<PlannedGraph>, node: PlanNode)
    ensures Progress(After(done, node), Queue(pending, node)) == Plus(Progress(done, pending), WholeNode(node))
  {
    hide WholePending, Whole;
    if node.PlannedLoop? {
      PendingPush(pending, node.body);
    }
  }

  lemma PlusAssociative(a: Summary, b: Summary, c: Summary)
    ensures Plus(Plus(a, b), c) == Plus(a, Plus(b, c))
  {
  }

  /** One more node of a stage. */
  lemma NodeDone(
    base: Summary, before: Summary, done: Summary, pending: seq<PlannedGraph>, nodes: seq<PlanNode>, j: nat)
    requires j < |nodes| && Progress(done, pending) == Plus(base, Plus(before, WholeNodes(nodes[..j])))
    ensures Progress(After(done, nodes[j]), Queue(pending, nodes[j])) ==
        Plus(base, Plus(before, WholeNodes(nodes[..j + 1])))
  {
    HandleNode(done, pending, nodes[j]);
    assert nodes[..j + 1][..j] == nodes[..j];
    hide Progress, WholeNode, After, Queue;
    assert WholeNodes(nodes[..j + 1]) == Plus(WholeNodes(nodes[..j]), WholeNode(nodes[j]));
    hide WholeNodes;
    PlusAssociative(base, Plus(before, WholeNodes(nodes[..j])), WholeNode(nodes[j]));
    PlusAssociative(before, WholeNodes(nodes[..j]), WholeNode(nodes[j]));
  }

  lemma StageDone(stages: seq<PlanStage>, i: nat)
    requires i < |stages|
    ensures Plus(WholeStages(stages[..i]), WholeNodes(stages[i].nodes[..|stages[i].nodes|])) ==
        WholeStages(stages[..i + 1])
  {
    assert stages[..i + 1][..i] == stages[..i];
    assert stages[i].nodes[..|stages[i].nodes|] == stages[i].nodes;
  }

  lemma NoStageYet(base: Summary, stages: seq<PlanStage>)
    ensures Plus(base, WholeStages(stages[..0])) == base
  {
  }

  lemma NothingYet(base: Summary, before: Summary, nodes: seq<PlanNode>)
    ensures Plus(before, WholeNodes(nodes[..0])) == before && Plus(base, NOTHING) == base
  {
  }

  lemma StagesCounted(done: Summary, g: PlannedGraph)
    ensures Plus(done, NOTHING.(stages := |g.stages|)) == done.(stages := done.stages + |g.stages|)
  {
  }

  lemma NodeCounted(done: Summary, pending: seq<PlannedGraph>, node: PlanNode)
    ensures node.PlannedTask? ==>
              Queue(pending, node) == pending &&
              After(done, node) == done.(tasks := done.tasks + 1,
                                         capabilities := done.capabilities + Elements(node.capabilities),
                                         permissions := done.permissions + Elements(node.permissions))
    ensures node.PlannedApproval? ==>
              Queue(pending, node) == pending && After(done, node) == done.(approvals := done.approvals + 1)
    ensures node.PlannedLoop? ==>
              Queue(pending, node) == pending + [node.body] && After(done, node) == done.(loops := done.loops + 1)
  {
  }

  predicate Tallies(done: Summary, tasks: nat, approvals: nat, loops: nat, stages: nat)
  {
    tasks == done.tasks && approvals == done.approvals && loops == done.loops && stages == done.stages
  }

  lemma NodeTallied(done: Summary, node: PlanNode, tasks: nat, approvals: nat, loops: nat, stages: nat)
    requires Tallies(done, tasks, approvals, loops, stages)
    ensures node.PlannedTask? ==> Tallies(After(done, node), tasks + 1, approvals, loops, stages)
    ensures node.PlannedApproval? ==> Tallies(After(done, node), tasks, approvals + 1, loops, stages)
    ensures node.PlannedLoop? ==> Tallies(After(done, node), tasks, approvals, loops + 1, stages)
  {
  }

  /** The worklist of the report validator computes the recursive counts. */
  method PlanCounts(graph: PlannedGraph) returns (tasks: nat, approvals: nat, loops: nat, stages: nat)
    ensures tasks == Whole(graph).tasks && approvals == Whole(graph).approvals
    ensures loops == Whole(graph).loops && stages == Whole(graph).stages
  {
    tasks, approvals, loops, stages := 0, 0, 0, 0;
    var pending := [graph];
    ghost var done := NOTHING;
    StartsWhole(graph);
    assert Tallies(done, tasks, approvals, loops, stages);
    hide Whole, WholeStages, WholeNodes, WholeNode, WholePending, Progress, Plus, After, Queue, Tallies;
    while pending != []
      invariant Progress(done, pending) == Whole(graph) && Tallies(done, tasks, approvals, loops, stages)
      invariant done.loops <= Whole(graph).loops
      decreases |pending| + Whole(graph).loops - done.loops
    {
      ghost var width := |pending| - done.loops;
      var current := pending[|pending|-1];
      TakeGraph(done, pending);
      pending := pending[..|pending|-1];
      StagesCounted(done, current);
      StagesTallied(done, current, tasks, approvals, loops, stages);
      done := Plus(done, NOTHING.(stages := |current.stages|));
      ghost var base := Progress(done, pending);
      NoStageYet(base, current.stages);
      stages := stages + |current.stages|;
      for i := 0 to |current.stages|
        invariant Progress(done, pending) == Plus(base, WholeStages(current.stages[..i]))
        invariant Tallies(done, tasks, approvals, loops, stages) && |pending| - done.loops == width - 1
      {
        var nodes := current.stages[i].nodes;
        ghost var before := WholeStages(current.stages[..i]);
        NothingYet(base, before, nodes);
        for j := 0 to |nodes|
          invariant Progress(done, pending) == Plus(base, Plus(before, WholeNodes(nodes[..j])))
          invariant Tallies(done, tasks, approvals, loops, stages) && |pending| - done.loops == width - 1
        {
          NodeDone(base, before, done, pending, nodes, j);
          var node := nodes[j];
          NodeQueued(done, pending, node);
          NodeTallied(done, node, tasks, approvals, loops, stages);
          done := After(done, node);
          if node.PlannedTask? {
            tasks := tasks + 1;
          } else if node.PlannedApproval? {
            approvals := approvals + 1;
          } else {
            loops := loops + 1;
            pending := pending + [node.body];
          }
        }
        StageDone(current.stages, i);
      }
      assert current.stages[..|current.stages|] == current.stages;
      LoopsBounded(done, pending);
    }
    EndsWhole(done);
    TalliesAre(done, tasks, approvals, loops, stages);
  }

  lemma TalliesAre(done: Summary, tasks: nat, approvals: nat, loops: nat, stages: nat)
    requires Tallies(done, tasks, approvals, loops, stages)
    ensures tasks == done.tasks && approvals == done.approvals && loops == done.loops && stages == done.stages
  {
  }

  lemma StagesTallied(done: Summary, g: PlannedGraph, tasks: nat, approvals: nat, loops: nat, stages: nat)
    requires Tallies(done, tasks, approvals, loops, stages)
    ensures Tallies(Plus(done, NOTHING.(stages := |g.stages|)), tasks, approvals, loops, stages + |g.stages|)
  {
  }

  lemma NodeQueued(done: Summary, pending: seq<PlannedGraph>, node: PlanNode)
    ensures Queue(pending, node) == if node.PlannedLoop? then pending + [node.body] else pending
    ensures After(done, node).loops == done.loops + if node.PlannedLoop? then 1 else 0
  {
  }

  lemma StartsWhole(g: PlannedGraph)
    ensures Progress(NOTHING, [g]) == Whole(g)
  {
    PendingPush([], g);
    assert [] + [g] == [g];
  }

  lemma EndsWhole(done: Summary)
    ensures Progress(done, []) == done
  {
  }

  lemma LoopsBounded(done: Summary, pending: seq<PlannedGraph>)
    ensures done.loops <= Progress(done, pending).loops
  {
    hide WholePending;
  }

  /** The worklist of the authorization gate computes the recursive union. */
  method DeclaredAccess(graph: PlannedGraph) returns (capabilities: set<string>, permissions: set<string>)
    ensures capabilities == Whole(graph).capabilities && permissions == Whole(graph).permissions
  {
    capabilities, permissions := {}, {};
    var pending := [graph];
    ghost var done := NOTHING;
    StartsWhole(graph);
    hide Whole, WholeStages, WholeNodes, WholeNode, WholePending, Progress, Plus, After, Queue;
    while pending != []
      invariant Progress(done, pending) == Whole(graph)
      invariant capabilities == done.capabilities && permissions == done.permissions
      invariant done.loops <= Whole(graph).loops
      decreases |pending| + Whole(graph).loops - done.loops
    {
      ghost var width := |pending| - done.loops;
      var current := pending[|pending|-1];
      TakeGraph(done, pending);
      pending := pending[..|pending|-1];
      StagesCounted(done, current);
      done := Plus(done, NOTHING.(stages := |current.stages|));
      ghost var base := Progress(done, pending);
      NoStageYet(base, current.stages);
      for i := 0 to |current.stages|
        invariant Progress(done, pending) == Plus(base, WholeStages(current.stages[..i]))
        invariant capabilities == done.capabilities && permissions == done.permissions
        invariant |pending| - done.loops == width - 1
      {
        var nodes := current.stages[i].nodes;
        ghost var before := WholeStages(current.stages[..i]);
        NothingYet(base, before, nodes);
        for j := 0 to |nodes|
          invariant Progress(done, pending) == Plus(base, Plus(before, WholeNodes(nodes[..j])))
          invariant capabilities == done.capabilities && permissions == done.permissions
          invariant |pending| - done.loops == width - 1
        {
          NodeDone(base, before, done, pending, nodes, j);
          var node := nodes[j];
          NodeCounted(done, pending, node);
          done := After(done, node);
          if node.PlannedTask? {
            capabilities := capabilities + Elements(node.capabilities);
            permissions := permissions + Elements(node.permissions);
          } else if node.PlannedLoop? {
            pending := pending + [node.body];
          }
        }
        StageDone(current.stages, i);
      }
      assert current.stages[..|current.stages|] == current.stages;
      LoopsBounded(done, pending);
    }
    EndsWhole(done);
  }
}
