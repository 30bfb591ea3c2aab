/** Command execution as a transition system: any number of processes, each of which may
    crash between any two steps, over one event log and one pair of receipt tables. */
module CommandProtocol {
  import opened Wrappers
  import opened EventLog
  import opened ReceiptLog

  /** What a command does; event content is canonical text. A decision or cancellation
      records one fact; an effect is dispatched under a scope, for material that was frozen
      when the command started. */
  datatype Operation =
    | Decision(event: Event<string>)
    | Cancellation(event: Event<string>)
    | Effect(scope: string, reviewed: Option<string>, frozen: string)

  datatype Command = Command(id: string, request: string, expectedHead: Option<nat>, op: Operation)
  {
    predicate Fact() { op.Decision? || op.Cancellation? }
  }

  /** Where a process stands. */
  datatype Pc =
    | Start
    | LookedUp
    | HeadUnchecked
    | Perform
    | NotFound
    | ReadyToAppend(cas: nat)
    | Recover
    | Reserved
    | Dispatched(before: nat)
    | Performed(facts: seq<string>)
    | Observed(facts: seq<string>, head: nat)
    | Committed
    | Replayed(receipt: Receipt)
    | Refused
    | Crashed

  datatype Process = Process(cmd: Command, pc: Pc)

  datatype Launch = Launch(scope: string, digest: string)

  datatype State = State(
    log: Log<string>,
    receipts: Receipts,
    intents: Intents,
    launches: seq<Launch>,
    procs: map<nat, Process>)

  const INIT := State([], map[], map[], [], map[])

  /** What the scheduler and the outside world choose: refuse marks a step whose own checks
      or input/output fail, and reported is the event ids an effect reports as its facts. */
  datatype Choice = Choice(refuse: bool, reported: seq<string>)

  datatype Action =
    | Spawn(pid: nat, cmd: Command)
    | Advance(pid: nat, choice: Choice)
    | Crash(pid: nat)
    | Environment(event: Event<string>)

  // One step of a process

  function Goto(s: State, pid: nat, pc: Pc): State
    requires pid in s.procs
  {
    s.(procs := s.procs[pid := s.procs[pid].(pc := pc)])
  }

  /** The process moved on; no table and no other process changed. */
  predicate OnlyMoves(s: State, t: State, pid: nat)
  {
    && pid in s.procs && pid in t.procs && !t.procs[pid].pc.Reserved?
    && t == s.(procs := s.procs[pid := s.procs[pid].(pc := t.procs[pid].pc)])
  }

  predicate SameFact(found: Option<Event<string>>, e: Event<string>)
  {
    found == Some(e)
  }

  function AdvanceLookup(s: State, pid: nat): (t: State)
    requires pid in s.procs
    ensures OnlyMoves(s, t, pid)
  {
    var cmd := s.procs[pid].cmd;
    if cmd.id !in s.receipts then Goto(s, pid, LookedUp)
    else if s.receipts[cmd.id].request != cmd.request then Goto(s, pid, Refused)
    else Goto(s, pid, Replayed(s.receipts[cmd.id]))
  }

  /** A fact that is already recorded identically skips the head check. */
  function AdvanceKnownFact(s: State, pid: nat): (t: State)
    requires pid in s.procs
    ensures OnlyMoves(s, t, pid)
  {
    var cmd := s.procs[pid].cmd;
    if cmd.Fact() && SameFact(GetEvent(s.log, cmd.op.event.id), cmd.op.event)
    then Goto(s, pid, Perform)
    else Goto(s, pid, HeadUnchecked)
  }

  function AdvanceHead(s: State, pid: nat): (t: State)
    requires pid in s.procs
    ensures OnlyMoves(s, t, pid)
  {
    var cmd := s.procs[pid].cmd;
    if cmd.expectedHead.Some? && cmd.expectedHead.value != |s.log| then Goto(s, pid, Refused)
    else Goto(s, pid, Perform)
  }

  function AdvancePerform(s: State, pid: nat): (t: State)
    requires pid in s.procs
    ensures OnlyMoves(s, t, pid) || (s.procs[pid].cmd.op.Effect? && s.procs[pid].cmd.op.scope !in s.intents)
    ensures t.(procs := s.procs, intents := s.intents) == s
    ensures pid in t.procs && t.procs == s.procs[pid := s.procs[pid].(pc := t.procs[pid].pc)]
  {
    var cmd := s.procs[pid].cmd;
    match cmd.op
    case Effect(scope, reviewed, frozen) =>
      if reviewed.Some? && reviewed.value != frozen then Goto(s, pid, Refused)
      else (match Reserve(s.intents, scope, frozen)
            case Reserved(next) => Goto(s, pid, Pc.Reserved).(intents := next)
            case AlreadyReserved => Goto(s, pid, Performed([]))
            case EffectConflict => Goto(s, pid, Refused))
    case _ =>
      if cmd.op.Decision? && cmd.expectedHead.None? then Goto(s, pid, Refused)
      else
        var found := GetEvent(s.log, cmd.op.event.id);
        if found.None? then Goto(s, pid, NotFound)
        else if SameFact(found, cmd.op.event) then Goto(s, pid, Performed([cmd.op.event.id]))
        else Goto(s, pid, Refused)
  }

  /** The control plane rebuilds its fold and refuses a head other than the expected one. */
  function AdvanceRebuild(s: State, pid: nat): (t: State)
    requires pid in s.procs
    ensures OnlyMoves(s, t, pid)
  {
    var expected := s.procs[pid].cmd.expectedHead;
    if expected.Some? && expected.value != |s.log| then Goto(s, pid, Refused)
    else Goto(s, pid, ReadyToAppend(|s.log|))
  }

  function AdvanceAppend(s: State, pid: nat, cas: nat): State
    requires pid in s.procs
  {
    var cmd := s.procs[pid].cmd;
    if !cmd.Fact() then Goto(s, pid, Refused)
    else
      match Append(s.log, cmd.op.event, Some(cas))
      case Duplicate => Goto(s, pid, if cmd.op.Decision? then Recover else Refused)
      case SequenceConflict => Goto(s, pid, Refused)
      case Appended(log) => Goto(s, pid, Performed([cmd.op.event.id])).(log := log)
  }

  function AdvanceRecover(s: State, pid: nat): (t: State)
    requires pid in s.procs
    ensures OnlyMoves(s, t, pid)
  {
    var cmd := s.procs[pid].cmd;
    if cmd.Fact() && SameFact(GetEvent(s.log, cmd.op.event.id), cmd.op.event)
    then Goto(s, pid, Performed([cmd.op.event.id]))
    else Goto(s, pid, Refused)
  }

  function AdvanceDispatch(s: State, pid: nat): State
    requires pid in s.procs
  {
    var op := s.procs[pid].cmd.op;
    if !op.Effect? then Goto(s, pid, Refused)
    else Goto(s, pid, Dispatched(|s.log|)).(launches := s.launches + [Launch(op.scope, op.frozen)])
  }

  /** An effect reports events that were appended since it was dispatched. */
  function AdvanceReport(s: State, pid: nat, before: nat, reported: seq<string>): (t: State)
    requires pid in s.procs
    ensures OnlyMoves(s, t, pid)
  {
    if before <= |s.log| && forall f :: f in reported ==> f in Ids(s.log[before..])
    then Goto(s, pid, Performed(reported))
    else Goto(s, pid, Refused)
  }

  function AdvanceReceipt(s: State, pid: nat, facts: seq<string>, head: nat): State
    requires pid in s.procs
  {
    var cmd := s.procs[pid].cmd;
    if cmd.id in s.receipts then Goto(s, pid, Refused)
    else Goto(s, pid, Committed).(receipts := s.receipts[cmd.id := Receipt(cmd.request, facts, head)])
  }

  function AdvanceProcess(s: State, pid: nat, choice: Choice): State
    requires pid in s.procs
  {
    if choice.refuse && !Stopped(s.procs[pid].pc) then Goto(s, pid, Refused)
    else
      match s.procs[pid].pc
      case Start => AdvanceLookup(s, pid)
      case LookedUp => AdvanceKnownFact(s, pid)
      case HeadUnchecked => AdvanceHead(s, pid)
      case Perform => AdvancePerform(s, pid)
      case NotFound => AdvanceRebuild(s, pid)
      case ReadyToAppend(cas) => AdvanceAppend(s, pid, cas)
      case Recover => AdvanceRecover(s, pid)
      case Reserved => AdvanceDispatch(s, pid)
      case Dispatched(before) => AdvanceReport(s, pid, before, choice.reported)
      case Performed(facts) => Goto(s, pid, Observed(facts, |s.log|))
      case Observed(facts, head) => AdvanceReceipt(s, pid, facts, head)
      case _ => s
  }

  predicate Stopped(pc: Pc)
  {
    pc.Committed? || pc.Replayed? || pc.Refused? || pc.Crashed?
  }

  /** One step of the whole system; a step that is not enabled changes nothing. */
  function Step(s: State, a: Action): State
  {
    match a
    case Spawn(pid, cmd) => if pid in s.procs then s else s.(procs := s.procs[pid := Process(cmd, Start)])
    case Advance(pid, choice) => if pid in s.procs then AdvanceProcess(s, pid, choice) else s
    case Crash(pid) => if pid in s.procs && !Stopped(s.procs[pid].pc) then Goto(s, pid, Crashed) else s
    case Environment(e) =>
      match Append(s.log, e, Option.None)
      case Appended(log) => s.(log := log)
      case _ => s
  }

  function Run(s: State, actions: seq<Action>): State
    decreases actions
  {
    if actions == [] then s else Run(Step(s, actions[0]), actions[1..])
  }

  // The invariant

  predicate Launched(s: State, scope: string)
  {
    exists i :: 0 <= i < |s.launches| && s.launches[i].scope == scope
  }

  /** Each launch has its own scope and carries the digest the scope is bound to. */
  predicate LaunchesOk(s: State)
  {
    && (forall i :: 0 <= i < |s.launches| ==>
          s.launches[i].scope in s.intents && s.intents[s.launches[i].scope] == s.launches[i].digest)
    && (forall i, j :: 0 <= i < j < |s.launches| ==> s.launches[i].scope != s.launches[j].scope)
  }

  predicate Holds(s: State, pid: nat, scope: string)
  {
    pid in s.procs && s.procs[pid].pc.Reserved? && s.procs[pid].cmd.op.Effect? && s.procs[pid].cmd.op.scope == scope
  }

  /** A process between reservation and dispatch holds its scope alone. */
  ghost predicate HoldersOk(s: State)
  {
    && (forall pid :: pid in s.procs && s.procs[pid].pc.Reserved? ==>
          var op := s.procs[pid].cmd.op;
          op.Effect? && op.scope in s.intents && s.intents[op.scope] == op.frozen && !Launched(s, op.scope))
    && (forall p, q, scope :: Holds(s, p, scope) && Holds(s, q, scope) ==> p == q)
  }

  /** The facts a process is about to cite, or a receipt cites, are in the log. */
  predicate FactsOk(log: Log<string>, cmd: Command, facts: seq<string>)
  {
    && (forall f :: f in facts ==> f in Ids(log))
    && (cmd.Fact() ==> facts == [cmd.op.event.id] && cmd.op.event in log)
  }

  predicate ProcessOk(log: Log<string>, p: Process)
  {
    match p.pc
    case Performed(facts) => FactsOk(log, p.cmd, facts)
    case Observed(facts, head) => FactsOk(log, p.cmd, facts) && head <= |log|
    case ReadyToAppend(cas) => p.cmd.Fact() && (p.cmd.expectedHead.Some? ==> cas == p.cmd.expectedHead.value)
    case NotFound => p.cmd.Fact()
    case Recover => p.cmd.Fact()
    case Dispatched(_) => p.cmd.op.Effect?
    case _ => true
  }

  ghost predicate ReceiptsOk(s: State)
  {
    forall c :: c in s.receipts ==> forall f :: f in s.receipts[c].facts ==> f in Ids(s.log)
  }

  ghost predicate Inv(s: State)
  {
    && UniqueIds(s.log)
    && LaunchesOk(s)
    && HoldersOk(s)
    && (forall pid :: pid in s.procs ==> ProcessOk(s.log, s.procs[pid]))
    && ReceiptsOk(s)
  }

  /** Nothing recorded is ever taken back. */
  ghost predicate Grows(s: State, t: State)
  {
    && s.log <= t.log
    && s.launches <= t.launches
    && (forall c :: c in s.receipts ==> c in t.receipts && t.receipts[c] == s.receipts[c])
    && (forall k :: k in s.intents ==> k in t.intents && t.intents[k] == s.intents[k])
  }

  // Every step keeps the invariant

  lemma GotoKeeps(s: State, pid: nat, pc: Pc)
    requires Inv(s) && pid in s.procs && !pc.Reserved? && ProcessOk(s.log, s.procs[pid].(pc := pc))
    ensures Inv(Goto(s, pid, pc)) && Grows(s, Goto(s, pid, pc))
  {
    var t := Goto(s, pid, pc);
    assert forall p, scope :: Holds(t, p, scope) ==> Holds(s, p, scope);
  }

  lemma FactsSurvive(log: Log<string>, e: Event<string>, cmd: Command, facts: seq<string>)
    requires FactsOk(log, cmd, facts)
    ensures FactsOk(log + [e], cmd, facts)
  {
    IdsGrow(log, e);
  }

  lemma IdsGrow(log: Log<string>, e: Event<string>)
    ensures Ids(log + [e]) == Ids(log) + {e.id}
  {
    var next := log + [e];
    assert next[|log|] == e;
    assert forall i :: 0 <= i < |log| ==> next[i] == log[i];
  }

  lemma LogGrows(s: State, e: Event<string>)
    requires Inv(s) && UniqueIds(s.log + [e])
    ensures Inv(s.(log := s.log + [e])) && Grows(s, s.(log := s.log + [e]))
  {
    var t := s.(log := s.log + [e]);
    IdsGrow(s.log, e);
    forall pid | pid in t.procs
      ensures ProcessOk(t.log, t.procs[pid])
    {
      assert ProcessOk(s.log, s.procs[pid]);
      var p := s.procs[pid];
      if p.pc.Performed? || p.pc.Observed? {
        FactsSurvive(s.log, e, p.cmd, p.pc.facts);
      }
    }
    assert forall p, scope :: Holds(t, p, scope) ==> Holds(s, p, scope);
    assert forall scope :: Launched(t, scope) == Launched(s, scope);
  }

  lemma ReserveKeeps(s: State, pid: nat)
    requires Inv(s) && pid in s.procs && s.procs[pid].cmd.op.Effect? && !s.procs[pid].pc.Reserved?
    requires s.procs[pid].cmd.op.scope !in s.intents
    ensures var op := s.procs[pid].cmd.op;
            var t := Goto(s, pid, Pc.Reserved).(intents := s.intents[op.scope := op.frozen]);
            Inv(t) && Grows(s, t)
  {
    var op := s.procs[pid].cmd.op;
    var t := Goto(s, pid, Pc.Reserved).(intents := s.intents[op.scope := op.frozen]);
    assert forall scope :: Launched(t, scope) == Launched(s, scope);
    assert forall p, scope :: p != pid && Holds(t, p, scope) ==> Holds(s, p, scope) && scope in s.intents;
    assert !Launched(s, op.scope);
  }

  lemma DispatchKeeps(s: State, pid: nat)
    requires Inv(s) && pid in s.procs && s.procs[pid].pc.Reserved? && s.procs[pid].cmd.op.Effect?
    ensures Inv(AdvanceDispatch(s, pid)) && Grows(s, AdvanceDispatch(s, pid))
  {
    var op := s.procs[pid].cmd.op;
    var t := AdvanceDispatch(s, pid);
    assert Holds(s, pid, op.scope);
    assert !Launched(s, op.scope);
    assert forall p, scope :: Holds(t, p, scope) ==> Holds(s, p, scope) && p != pid;
    forall p | p in t.procs && t.procs[p].pc.Reserved?
      ensures !Launched(t, t.procs[p].cmd.op.scope)
    {
      var scope := t.procs[p].cmd.op.scope;
      assert p in s.procs && s.procs[p] == t.procs[p];
      assert Holds(s, p, scope);
      assert scope != op.scope;
      assert forall i :: 0 <= i < |s.launches| ==> t.launches[i] == s.launches[i];
    }
  }

  lemma CommitKeeps(s: State, pid: nat, facts: seq<string>, head: nat)
    requires Inv(s) && pid in s.procs && s.procs[pid].pc == Observed(facts, head)
    ensures Inv(AdvanceReceipt(s, pid, facts, head)) && Grows(s, AdvanceReceipt(s, pid, facts, head))
  {
    assert ProcessOk(s.log, s.procs[pid]);
    GotoKeeps(s, pid, Refused);
    GotoKeeps(s, pid, Committed);
    var t := AdvanceReceipt(s, pid, facts, head);
    assert forall p, scope :: Holds(t, p, scope) ==> Holds(s, p, scope);
  }

  lemma AppendKeeps(s: State, pid: nat, cas: nat)
    requires Inv(s) && pid in s.procs && s.procs[pid].pc == ReadyToAppend(cas)
    ensures Inv(AdvanceAppend(s, pid, cas)) && Grows(s, AdvanceAppend(s, pid, cas))
  {
    hide Inv, Grows, GetEvent;
    var cmd := s.procs[pid].cmd;
    GotoKeeps(s, pid, Refused);
    if cmd.Fact() {
      GotoKeeps(s, pid, Recover);
    }
    if cmd.Fact() && Append(s.log, cmd.op.event, Some(cas)).Appended? {
      InvUnique(s);
      LogGrows(s, cmd.op.event);
      var u := s.(log := s.log + [cmd.op.event]);
      IdsGrow(s.log, cmd.op.event);
      assert u.log[|s.log|] == cmd.op.event;
      GotoKeeps(u, pid, Performed([cmd.op.event.id]));
      GrowsTransitive(s, u, AdvanceAppend(s, pid, cas));
    }
  }

  lemma InvUnique(s: State)
    requires Inv(s)
    ensures UniqueIds(s.log)
  {
  }

  lemma GrowsTransitive(s: State, t: State, u: State)
    requires Grows(s, t) && Grows(t, u)
    ensures Grows(s, u)
  {
  }

  lemma ReportedInLog(log: Log<string>, before: nat, f: string)
    requires before <= |log| && f in Ids(log[before..])
    ensures f in Ids(log)
  {
    var i :| 0 <= i < |log[before..]| && log[before..][i].id == f;
    assert log[before + i].id == f;
  }

  lemma PerformKeeps(s: State, pid: nat)
    requires Inv(s) && pid in s.procs && s.procs[pid].pc.Perform?
    ensures Inv(AdvancePerform(s, pid)) && Grows(s, AdvancePerform(s, pid))
  {
    hide Inv, Grows, GetEvent;
    var cmd := s.procs[pid].cmd;
    GotoKeeps(s, pid, Refused);
    if cmd.op.Effect? {
      GotoKeeps(s, pid, Performed([]));
      if cmd.op.scope !in s.intents {
        ReserveKeeps(s, pid);
      }
    } else {
      GotoKeeps(s, pid, NotFound);
      KnownFactKeeps(s, pid);
    }
  }

  lemma KnownFactKeeps(s: State, pid: nat)
    requires Inv(s) && pid in s.procs && s.procs[pid].cmd.Fact()
    ensures SameFact(GetEvent(s.log, s.procs[pid].cmd.op.event.id), s.procs[pid].cmd.op.event) ==>
              var t := Goto(s, pid, Performed([s.procs[pid].cmd.op.event.id]));
              Inv(t) && Grows(s, t)
  {
    hide Inv, Grows;
    var e := s.procs[pid].cmd.op.event;
    if SameFact(GetEvent(s.log, e.id), e) {
      GotoKeeps(s, pid, Performed([e.id]));
    }
  }

  lemma ReadsKeep(s: State, pid: nat)
    requires Inv(s) && pid in s.procs
    ensures Inv(AdvanceLookup(s, pid)) && Grows(s, AdvanceLookup(s, pid))
    ensures Inv(AdvanceKnownFact(s, pid)) && Grows(s, AdvanceKnownFact(s, pid))
    ensures Inv(AdvanceHead(s, pid)) && Grows(s, AdvanceHead(s, pid))
    ensures s.procs[pid].cmd.Fact() ==> Inv(AdvanceRebuild(s, pid)) && Grows(s, AdvanceRebuild(s, pid))
    ensures s.procs[pid].cmd.Fact() ==> Inv(AdvanceRecover(s, pid)) && Grows(s, AdvanceRecover(s, pid))
  {
    hide Inv, Grows, GetEvent;
    GotoKeeps(s, pid, Refused);
    GotoKeeps(s, pid, LookedUp);
    GotoKeeps(s, pid, Perform);
    GotoKeeps(s, pid, HeadUnchecked);
    if s.procs[pid].cmd.id in s.receipts {
      GotoKeeps(s, pid, Replayed(s.receipts[s.procs[pid].cmd.id]));
    }
    if s.procs[pid].cmd.Fact() {
      KnownFactKeeps(s, pid);
      if !AdvanceRebuild(s, pid).procs[pid].pc.Refused? {
        GotoKeeps(s, pid, ReadyToAppend(|s.log|));
      }
    }
  }

  lemma AdvanceKeeps(s: State, pid: nat, choice: Choice)
    requires Inv(s) && pid in s.procs
    ensures Inv(AdvanceProcess(s, pid, choice)) && Grows(s, AdvanceProcess(s, pid, choice))
  {
    GrowsReflexive(s);
    InvHolder(s, pid);
    ReadsKeep(s, pid);
    GotoKeeps(s, pid, Refused);
    hide Inv, Grows, Goto, AdvanceLookup, AdvanceKnownFact, AdvanceHead, AdvancePerform, AdvanceRebuild,
         AdvanceAppend, AdvanceRecover, AdvanceDispatch, AdvanceReport, AdvanceReceipt;
    match s.procs[pid].pc
    case Perform => PerformKeeps(s, pid);
    case ReadyToAppend(cas) => AppendKeeps(s, pid, cas);
    case Reserved => DispatchKeeps(s, pid);
    case Dispatched(before) => ReportKeeps(s, pid, before, choice.reported);
    case Performed(facts) => GotoKeeps(s, pid, Observed(facts, |s.log|));
    case Observed(facts, head) => CommitKeeps(s, pid, facts, head);
    case _ =>
  }

  lemma GrowsReflexive(s: State)
    ensures Grows(s, s)
  {
  }

  lemma InvHolder(s: State, pid: nat)
    requires Inv(s) && pid in s.procs
    ensures ProcessOk(s.log, s.procs[pid])
    ensures s.procs[pid].pc.Reserved? ==> s.procs[pid].cmd.op.Effect?
  {
  }

  lemma ReportKeeps(s: State, pid: nat, before: nat, reported: seq<string>)
    requires Inv(s) && pid in s.procs && s.procs[pid].cmd.op.Effect?
    ensures Inv(AdvanceReport(s, pid, before, reported)) && Grows(s, AdvanceReport(s, pid, before, reported))
  {
    hide Inv, Grows;
    GotoKeeps(s, pid, Refused);
    if before <= |s.log| && forall f :: f in reported ==> f in Ids(s.log[before..]) {
      forall f | f in reported
        ensures f in Ids(s.log)
      {
        ReportedInLog(s.log, before, f);
      }
      GotoKeeps(s, pid, Performed(reported));
    }
  }

  lemma StepKeeps(s: State, a: Action)
    requires Inv(s)
    ensures Inv(Step(s, a)) && Grows(s, Step(s, a))
  {
    GrowsReflexive(s);
    match a
    case Spawn(pid, cmd) =>
      var t := Step(s, a);
      assert forall p, scope :: Holds(t, p, scope) ==> Holds(s, p, scope);
    case Advance(pid, choice) =>
      if pid in s.procs { AdvanceKeeps(s, pid, choice); }
    case Crash(pid) =>
      if pid in s.procs { GotoKeeps(s, pid, Crashed); }
    case Environment(e) =>
      if Append(s.log, e, Option.None).Appended? { LogGrows(s, e); }
  }

  lemma {:induction false} RunKeeps(s: State, actions: seq<Action>)
    requires Inv(s)
    ensures Inv(Run(s, actions)) && Grows(s, Run(s, actions))
    decreases actions
  {
    hide Inv, Grows, Step;
    GrowsReflexive(s);
    if actions != [] {
      StepKeeps(s, actions[0]);
      RunKeeps(Step(s, actions[0]), actions[1..]);
      GrowsTransitive(s, Step(s, actions[0]), Run(s, actions));
    }
  }

  /** What one step of a process may change: its own place, and one table at most. */
  lemma AdvanceFrame(s: State, pid: nat, choice: Choice)
    requires pid in s.procs
    ensures var t := AdvanceProcess(s, pid, choice);
            var cmd, pc := s.procs[pid].cmd, s.procs[pid].pc;
            && pid in t.procs && t.procs == s.procs[pid := Process(cmd, t.procs[pid].pc)]
            && (t.log != s.log ==> pc.ReadyToAppend? && t == AdvanceAppend(s, pid, pc.cas))
            && (t.launches != s.launches ==>
                  pc.Reserved? && cmd.op.Effect? && t.launches == s.launches + [Launch(cmd.op.scope, cmd.op.frozen)])
            && (t.receipts != s.receipts ==> pc.Observed? && t == AdvanceReceipt(s, pid, pc.facts, pc.head))
            && (t.procs[pid].pc.Reserved? ==> pc.Perform? && cmd.op.Effect? && cmd.op.scope !in s.intents)
  {
    hide GetEvent, Ids, AdvanceLookup, AdvanceKnownFact, AdvanceHead, AdvanceRebuild, AdvanceRecover, AdvanceReport,
         AdvancePerform;
  }

  // What holds over every run

  /** At-most-once dispatch: over every interleaving and every crash, each effect scope is
      launched at most once, with the digest the scope is bound to. */
  lemma AtMostOnceDispatch(actions: seq<Action>)
    ensures var s := Run(INIT, actions);
            && (forall i, j :: 0 <= i < j < |s.launches| ==> s.launches[i].scope != s.launches[j].scope)
            && (forall i :: 0 <= i < |s.launches| ==>
                  s.launches[i].scope in s.intents && s.intents[s.launches[i].scope] == s.launches[i].digest)
  {
    RunKeeps(INIT, actions);
  }

  /** Facts, receipts, launches and reservations are never changed or removed. */
  lemma NothingIsTakenBack(actions: seq<Action>, more: seq<Action>)
    ensures Grows(Run(INIT, actions), Run(INIT, actions + more))
  {
    hide Grows;
    RunKeeps(INIT, actions);
    RunKeeps(Run(INIT, actions), more);
    RunSplit(INIT, actions, more);
  }

  lemma {:induction false} RunSplit(s: State, a: seq<Action>, b: seq<Action>)
    ensures Run(s, a + b) == Run(Run(s, a), b)
    decreases a
  {
    hide Step;
    if a == [] {
      assert a + b == b;
    } else {
      assert (a + b)[1..] == a[1..] + b;
      RunSplit(Step(s, a[0]), a[1..], b);
    }
  }

  /** The log never holds two events with one id, and every fact a receipt cites is in it. */
  lemma FactsAreRecordedOnce(actions: seq<Action>)
    ensures var s := Run(INIT, actions);
            UniqueIds(s.log) && forall c :: c in s.receipts ==> forall f :: f in s.receipts[c].facts ==> f in Ids(s.log)
  {
    RunKeeps(INIT, actions);
  }

  /** A command appends at most its own fact, and a newly appended fact takes the sequence
      number after the expected head. */
  lemma FactFollowsExpectedHead(actions: seq<Action>, pid: nat, choice: Choice)
    ensures var s := Run(INIT, actions);
            var t := Step(s, Advance(pid, choice));
            t.log != s.log ==>
              && pid in s.procs && s.procs[pid].cmd.Fact()
              && t.log == s.log + [s.procs[pid].cmd.op.event]
              && s.procs[pid].cmd.op.event.id !in Ids(s.log)
              && (s.procs[pid].cmd.expectedHead.Some? ==> |t.log| == s.procs[pid].cmd.expectedHead.value + 1)
  {
    RunKeeps(INIT, actions);
    var s := Run(INIT, actions);
    hide Run, AdvanceProcess;
    if pid in s.procs {
      InvHolder(s, pid);
      hide Inv;
      AdvanceFrame(s, pid, choice);
    }
  }

  /** A new receipt is written by a process of that command, for its own request, and a
      decision or cancellation cites exactly its own fact, recorded with its own content. */
  lemma ReceiptCitesItsFact(actions: seq<Action>, a: Action, c: string)
    requires c in Step(Run(INIT, actions), a).receipts && c !in Run(INIT, actions).receipts
    ensures var s := Run(INIT, actions);
            var t := Step(s, a);
            && a.Advance? && a.pid in s.procs && s.procs[a.pid].cmd.id == c
            && t.receipts[c].request == s.procs[a.pid].cmd.request
            && FactsOk(t.log, s.procs[a.pid].cmd, t.receipts[c].facts)
  {
    RunKeeps(INIT, actions);
    var s := Run(INIT, actions);
    hide Run, AdvanceProcess;
    if a.Advance? && a.pid in s.procs {
      InvHolder(s, a.pid);
      hide Inv;
      AdvanceFrame(s, a.pid, a.choice);
    }
  }

  // What one process can still do, whatever the others do

  /** Only its own steps and its own crash move a process. */
  lemma StepOfOne(s: State, a: Action, pid: nat)
    requires pid in s.procs
    ensures var t := Step(s, a);
            && pid in t.procs && t.procs[pid].cmd == s.procs[pid].cmd
            && (a.Advance? && a.pid == pid ==> t == AdvanceProcess(s, pid, a.choice))
            && (a == Crash(pid) && !Stopped(s.procs[pid].pc) ==> t.procs[pid].pc == Crashed)
            && (!(a.Advance? && a.pid == pid) && !(a == Crash(pid) && !Stopped(s.procs[pid].pc)) ==>
                  t.procs[pid].pc == s.procs[pid].pc)
  {
    if a.Advance? && a.pid in s.procs {
      AdvanceFrame(s, a.pid, a.choice);
      hide AdvanceProcess;
    }
  }

  /** Past its reservation. */
  predicate Performing(pc: Pc)
  {
    pc.Reserved? || pc.Dispatched? || pc.Performed? || pc.Observed? || pc.Committed?
  }

  predicate BoundTo(intents: Intents, op: Operation)
    requires op.Effect?
  {
    op.scope in intents && intents[op.scope] == op.frozen
  }

  /** Every effect past its reservation has its scope bound to its own digest. */
  ghost predicate EffectsBound(s: State)
  {
    forall pid :: pid in s.procs && s.procs[pid].cmd.op.Effect? && Performing(s.procs[pid].pc) ==>
      BoundTo(s.intents, s.procs[pid].cmd.op)
  }

  lemma EffectAdvance(s: State, pid: nat, choice: Choice)
    requires pid in s.procs && s.procs[pid].cmd.op.Effect? && ProcessOk(s.log, s.procs[pid])
    requires Performing(s.procs[pid].pc) ==> BoundTo(s.intents, s.procs[pid].cmd.op)
    ensures var t := AdvanceProcess(s, pid, choice);
            && pid in t.procs && t.procs[pid].cmd == s.procs[pid].cmd
            && (Performing(t.procs[pid].pc) ==> BoundTo(t.intents, t.procs[pid].cmd.op))
  {
    hide GetEvent, Ids;
  }

  lemma EffectsBoundStep(s: State, a: Action)
    requires Inv(s) && EffectsBound(s)
    ensures EffectsBound(Step(s, a))
  {
    hide Inv, Step;
    var t := Step(s, a);
    forall pid | pid in t.procs && t.procs[pid].cmd.op.Effect? && Performing(t.procs[pid].pc)
      ensures BoundTo(t.intents, t.procs[pid].cmd.op)
    {
      NewStarts(s, a, pid);
      StepOfKnown(s, a, pid);
      hide EffectsBound;
      EffectKept(s, a, pid);
    }
  }

  lemma NewStarts(s: State, a: Action, pid: nat)
    requires pid in Step(s, a).procs
    ensures pid in s.procs || Step(s, a).procs[pid].pc.Start?
  {
    if a.Advance? && a.pid in s.procs {
      AdvanceFrame(s, a.pid, a.choice);
    }
    hide AdvanceProcess;
  }

  lemma StepOfKnown(s: State, a: Action, pid: nat)
    requires pid in s.procs
    ensures pid in Step(s, a).procs && Step(s, a).procs[pid].cmd == s.procs[pid].cmd
  {
    StepOfOne(s, a, pid);
    hide Step;
  }

  lemma EffectKept(s: State, a: Action, pid: nat)
    requires Inv(s) && EffectsBound(s) && pid in s.procs && s.procs[pid].cmd.op.Effect?
    ensures var t := Step(s, a);
            pid in t.procs && t.procs[pid].cmd == s.procs[pid].cmd
            && (Performing(t.procs[pid].pc) ==> BoundTo(t.intents, t.procs[pid].cmd.op))
  {
    StepOfOne(s, a, pid);
    StepKeeps(s, a);
    InvHolder(s, pid);
    assert Performing(s.procs[pid].pc) ==> BoundTo(s.intents, s.procs[pid].cmd.op);
    hide Inv, EffectsBound, Step, AdvanceProcess;
    if a.Advance? && a.pid == pid {
      EffectAdvance(s, pid, a.choice);
    }
  }

  lemma {:induction false} EffectsBoundRun(s: State, actions: seq<Action>)
    requires Inv(s) && EffectsBound(s)
    ensures Inv(Run(s, actions)) && EffectsBound(Run(s, actions))
    decreases actions
  {
    hide Inv, EffectsBound, Step;
    if actions != [] {
      EffectsBoundStep(s, actions[0]);
      StepKeeps(s, actions[0]);
      EffectsBoundRun(Step(s, actions[0]), actions[1..]);
    }
  }

  /** In every reachable state an effect that has reserved, launched, reported or committed
      anything did so for the digest its scope is bound to. */
  lemma EffectsActForBoundDigest(actions: seq<Action>)
    ensures Inv(Run(INIT, actions)) && EffectsBound(Run(INIT, actions))
  {
    EffectsBoundRun(INIT, actions);
  }

  /** An effect whose scope is bound to another digest. */
  ghost predicate Barred(s: State, pid: nat)
  {
    && pid in s.procs && s.procs[pid].cmd.op.Effect?
    && s.procs[pid].cmd.op.scope in s.intents
    && s.intents[s.procs[pid].cmd.op.scope] != s.procs[pid].cmd.op.frozen
  }

  lemma BarredAdvance(s: State, pid: nat, choice: Choice)
    requires Inv(s) && EffectsBound(s) && Barred(s, pid)
    ensures var t := AdvanceProcess(s, pid, choice);
            t == s.(procs := t.procs)
  {
    InvHolder(s, pid);
    assert !Performing(s.procs[pid].pc);
    hide Inv, GetEvent, Ids;
  }

  lemma BarredStep(s: State, a: Action, pid: nat)
    requires Inv(s) && Barred(s, pid)
    ensures Barred(Step(s, a), pid)
  {
    StepOfOne(s, a, pid);
    StepKeeps(s, a);
    hide Inv, Step, AdvanceProcess;
  }

  /** A request with another digest is refused for good: in every run that follows a reachable
      state it has not reserved, launched, reported or committed anything, none of its steps
      changes a table, and every launch of its scope carries the other digest. */
  lemma OtherMaterialIsRefused(before: seq<Action>, pid: nat, actions: seq<Action>)
    requires Barred(Run(INIT, before), pid)
    ensures var s := Run(INIT, before);
            var t := Run(s, actions);
            && Barred(t, pid) && t.procs[pid].cmd == s.procs[pid].cmd && !Performing(t.procs[pid].pc)
            && (forall choice :: var u := Step(t, Advance(pid, choice)); u == t.(procs := u.procs))
            && (forall i :: 0 <= i < |t.launches| && t.launches[i].scope == s.procs[pid].cmd.op.scope ==>
                  t.launches[i].digest == s.intents[t.launches[i].scope] != s.procs[pid].cmd.op.frozen)
  {
    EffectsActForBoundDigest(before);
    BarredRun(Run(INIT, before), pid, actions);
  }

  lemma {:induction false} BarredRun(s: State, pid: nat, actions: seq<Action>)
    requires Inv(s) && EffectsBound(s) && Barred(s, pid)
    ensures var t := Run(s, actions);
            && Barred(t, pid) && t.procs[pid].cmd == s.procs[pid].cmd && !Performing(t.procs[pid].pc)
            && (forall choice :: var u := Step(t, Advance(pid, choice)); u == t.(procs := u.procs))
            && (forall i :: 0 <= i < |t.launches| && t.launches[i].scope == s.procs[pid].cmd.op.scope ==>
                  t.launches[i].digest == s.intents[t.launches[i].scope] != s.procs[pid].cmd.op.frozen)
    decreases actions
  {
    if actions == [] {
      forall choice
        ensures var u := Step(s, Advance(pid, choice)); u == s.(procs := u.procs)
      {
        BarredAdvance(s, pid, choice);
      }
    } else {
      var t := Step(s, actions[0]);
      BarredStep(s, actions[0], pid);
      StepKeeps(s, actions[0]);
      EffectsBoundStep(s, actions[0]);
      StepOfOne(s, actions[0], pid);
      hide Inv, EffectsBound, Step;
      BarredRun(t, pid, actions[1..]);
    }
  }

  /** A process of a command that has this receipt, not past its lookup when it was written. */
  ghost predicate Answered(s: State, pid: nat, receipt: Receipt)
  {
    && pid in s.procs && s.procs[pid].cmd.id in s.receipts && s.receipts[s.procs[pid].cmd.id] == receipt
    && var p := s.procs[pid];
    && (p.pc.Start? || p.pc.Refused? || p.pc.Crashed? || p.pc == Replayed(receipt))
    && (p.pc.Replayed? ==> receipt.request == p.cmd.request)
  }

  lemma AnsweredAdvance(s: State, pid: nat, receipt: Receipt, choice: Choice)
    requires Answered(s, pid, receipt)
    ensures var t := AdvanceProcess(s, pid, choice);
            Answered(t, pid, receipt) && t == s.(procs := t.procs)
  {
  }

  lemma AnsweredStep(s: State, a: Action, pid: nat, receipt: Receipt)
    requires Inv(s) && Answered(s, pid, receipt)
    ensures Answered(Step(s, a), pid, receipt)
  {
    StepOfOne(s, a, pid);
    StepKeeps(s, a);
    if a.Advance? && a.pid == pid {
      AnsweredAdvance(s, pid, receipt, a.choice);
    }
    hide Inv, Step, AdvanceProcess;
  }

  /** A committed command is only ever answered from its receipt: in every later run a process
      that had not looked it up has still not started, was given that very receipt for the
      same request, was refused or has crashed, and none of its steps changes a table. */
  lemma {:induction false} CommittedCommandIsReplayed(s: State, pid: nat, receipt: Receipt, actions: seq<Action>)
    requires Inv(s) && Answered(s, pid, receipt)
    ensures var t := Run(s, actions);
            && Answered(t, pid, receipt) && t.procs[pid].cmd == s.procs[pid].cmd
            && (forall choice :: var u := Step(t, Advance(pid, choice)); u == t.(procs := u.procs))
    decreases actions
  {
    if actions == [] {
      forall choice
        ensures var u := Step(s, Advance(pid, choice)); u == s.(procs := u.procs)
      {
        AnsweredAdvance(s, pid, receipt, choice);
      }
    } else {
      var t := Step(s, actions[0]);
      AnsweredStep(s, actions[0], pid, receipt);
      StepKeeps(s, actions[0]);
      StepOfOne(s, actions[0], pid);
      hide Inv, Step, Answered;
      CommittedCommandIsReplayed(t, pid, receipt, actions[1..]);
    }
  }

  /** A process of a command that has this receipt, wherever it stands, and did not write it. */
  ghost predicate Late(s: State, pid: nat, receipt: Receipt)
  {
    && pid in s.procs && !s.procs[pid].pc.Committed?
    && s.procs[pid].cmd.id in s.receipts && s.receipts[s.procs[pid].cmd.id] == receipt
  }

  lemma LateAdvance(s: State, pid: nat, receipt: Receipt, choice: Choice)
    requires Inv(s) && Late(s, pid, receipt)
    ensures var t, cmd := AdvanceProcess(s, pid, choice), s.procs[pid].cmd;
            && Late(t, pid, receipt) && t.receipts == s.receipts
            && (t.log != s.log ==> cmd.Fact() && cmd.op.event.id !in Ids(s.log) && t.log == s.log + [cmd.op.event])
  {
    InvHolder(s, pid);
    AdvanceFrame(s, pid, choice);
    LateStaysUncommitted(s, pid, receipt, choice);
    hide Inv, AdvanceProcess;
  }

  lemma LateStaysUncommitted(s: State, pid: nat, receipt: Receipt, choice: Choice)
    requires Late(s, pid, receipt) && pid in AdvanceProcess(s, pid, choice).procs
    ensures !AdvanceProcess(s, pid, choice).procs[pid].pc.Committed?
  {
    hide GetEvent, Ids;
  }

  lemma LateStep(s: State, a: Action, pid: nat, receipt: Receipt)
    requires Inv(s) && Late(s, pid, receipt)
    ensures Late(Step(s, a), pid, receipt)
  {
    StepOfOne(s, a, pid);
    StepKeeps(s, a);
    if a.Advance? && a.pid == pid {
      LateAdvance(s, pid, receipt, a.choice);
    }
    hide Inv, Step, AdvanceProcess;
  }

  /** A process that looked its command up before another one committed it: in every later run
      it never writes a receipt, the receipt stays, and it appends at most its own fact, which
      it can do only while no event has that id. */
  lemma {:induction false} LateProcessWritesNoReceipt(s: State, pid: nat, receipt: Receipt, actions: seq<Action>)
    requires Inv(s) && Late(s, pid, receipt)
    ensures var t, cmd := Run(s, actions), s.procs[pid].cmd;
            && Late(t, pid, receipt) && t.procs[pid].cmd == cmd
            && (forall choice :: var u := Step(t, Advance(pid, choice));
                  && u.receipts == t.receipts
                  && (u.log != t.log ==>
                        cmd.Fact() && cmd.op.event.id !in Ids(t.log) && u.log == t.log + [cmd.op.event]))
    decreases actions
  {
    if actions == [] {
      forall choice
        ensures var u, cmd := Step(s, Advance(pid, choice)), s.procs[pid].cmd;
                && u.receipts == s.receipts
                && (u.log != s.log ==> cmd.Fact() && cmd.op.event.id !in Ids(s.log) && u.log == s.log + [cmd.op.event])
      {
        LateAdvance(s, pid, receipt, choice);
      }
    } else {
      var t := Step(s, actions[0]);
      LateStep(s, actions[0], pid, receipt);
      StepKeeps(s, actions[0]);
      StepOfOne(s, actions[0], pid);
      hide Inv, Step, Late;
      LateProcessWritesNoReceipt(t, pid, receipt, actions[1..]);
    }
  }

  // Retrying a command whose fact is recorded

  /** Steps a retry still has to take. */
  function StepsLeft(pc: Pc): nat
  {
    if pc.Start? then 5 else if pc.LookedUp? then 4 else if pc.Perform? then 3
    else if pc.Performed? then 2 else if pc.Observed? then 1 else 0
  }

  /** A process whose decision or cancellation is in the log, where such a process can be; a
      calm one has met neither a crash nor a failing call of its own. */
  ghost predicate Recovering(s: State, pid: nat, calm: bool)
  {
    && pid in s.procs && s.procs[pid].cmd.Fact() && s.procs[pid].cmd.op.event in s.log
    && var cmd, pc := s.procs[pid].cmd, s.procs[pid].pc;
    && (cmd.op.Decision? ==> cmd.expectedHead.Some?)
    && match pc
       case Start => true
       case LookedUp => true
       case Perform => true
       case Performed(facts) => facts == [cmd.op.event.id]
       case Observed(facts, _) => facts == [cmd.op.event.id]
       case Committed =>
         && cmd.id in s.receipts && s.receipts[cmd.id].request == cmd.request
         && s.receipts[cmd.id].facts == [cmd.op.event.id]
       case Replayed(receipt) =>
         cmd.id in s.receipts && s.receipts[cmd.id] == receipt && receipt.request == cmd.request
       case Refused => calm ==> cmd.id in s.receipts
       case Crashed => !calm
       case _ => false
  }

  predicate Calm(a: Action, pid: nat)
  {
    a != Crash(pid) && !(a.Advance? && a.pid == pid && a.choice.refuse)
  }

  /** One step forward, or none when the process has stopped. */
  ghost predicate Forward(s: State, t: State, pid: nat, calm: bool)
  {
    && Recovering(s, pid, calm) && Recovering(t, pid, calm) && t.log == s.log
    && var before, after := StepsLeft(s.procs[pid].pc), StepsLeft(t.procs[pid].pc);
    && (before > 0 ==> after < before) && (before == 0 ==> after == 0)
  }

  lemma RecoveringReads(s: State, pid: nat, calm: bool)
    requires Recovering(s, pid, calm) && StepsLeft(s.procs[pid].pc) >= 3
    requires SameFact(GetEvent(s.log, s.procs[pid].cmd.op.event.id), s.procs[pid].cmd.op.event)
    ensures s.procs[pid].pc.Start? ==> Forward(s, AdvanceLookup(s, pid), pid, calm)
    ensures s.procs[pid].pc.LookedUp? ==> Forward(s, AdvanceKnownFact(s, pid), pid, calm)
    ensures s.procs[pid].pc.Perform? ==> Forward(s, AdvancePerform(s, pid), pid, calm)
  {
    hide GetEvent;
  }

  lemma RecoveringEnds(s: State, pid: nat, calm: bool)
    requires Recovering(s, pid, calm)
    ensures s.procs[pid].pc.Performed? ==>
              Forward(s, Goto(s, pid, Observed(s.procs[pid].pc.facts, |s.log|)), pid, calm)
    ensures s.procs[pid].pc.Observed? ==>
              Forward(s, AdvanceReceipt(s, pid, s.procs[pid].pc.facts, s.procs[pid].pc.head), pid, calm)
    ensures !calm && StepsLeft(s.procs[pid].pc) > 0 ==> Forward(s, Goto(s, pid, Refused), pid, calm)
    ensures StepsLeft(s.procs[pid].pc) == 0 ==> Stopped(s.procs[pid].pc) && Forward(s, s, pid, calm)
  {
  }

  lemma RecoveringAdvance(s: State, pid: nat, calm: bool, choice: Choice)
    requires Inv(s) && Recovering(s, pid, calm) && (calm ==> !choice.refuse)
    ensures Forward(s, AdvanceProcess(s, pid, choice), pid, calm)
  {
    InvUnique(s);
    FoundFact(s.log, s.procs[pid].cmd.op.event);
    RecoveringEnds(s, pid, calm);
    if StepsLeft(s.procs[pid].pc) >= 3 {
      RecoveringReads(s, pid, calm);
    }
    hide Inv, Forward, GetEvent, Goto, AdvanceLookup, AdvanceKnownFact, AdvanceHead, AdvancePerform, AdvanceRebuild,
         AdvanceAppend, AdvanceRecover, AdvanceDispatch, AdvanceReport, AdvanceReceipt;
  }

  /** Another process cannot disturb it. */
  lemma RecoveringKept(s: State, t: State, pid: nat, calm: bool)
    requires Recovering(s, pid, calm) && Grows(s, t) && pid in t.procs && t.procs[pid] == s.procs[pid]
    ensures Recovering(t, pid, calm)
  {
  }

  lemma RecoveringStep(s: State, a: Action, pid: nat, calm: bool)
    requires Inv(s) && Recovering(s, pid, calm) && (calm ==> Calm(a, pid))
    ensures var t := Step(s, a);
            && Recovering(t, pid, calm) && StepsLeft(t.procs[pid].pc) <= StepsLeft(s.procs[pid].pc)
            && (a.Advance? && a.pid == pid && StepsLeft(s.procs[pid].pc) > 0 ==>
                  StepsLeft(t.procs[pid].pc) < StepsLeft(s.procs[pid].pc))
  {
    StepOfOne(s, a, pid);
    StepKeeps(s, a);
    if a.Advance? && a.pid == pid {
      RecoveringAdvance(s, pid, calm, a.choice);
    } else if Step(s, a).procs[pid].pc == s.procs[pid].pc {
      hide Inv, Step, Recovering;
      RecoveringKept(s, Step(s, a), pid, calm);
    } else {
      hide Inv, Step;
    }
  }

  function OwnSteps(actions: seq<Action>, pid: nat): nat
  {
    if actions == [] then 0
    else (if actions[0].Advance? && actions[0].pid == pid then 1 else 0) + OwnSteps(actions[1..], pid)
  }

  lemma {:induction false} RecoveringRun(s: State, actions: seq<Action>, pid: nat, calm: bool)
    requires Inv(s) && Recovering(s, pid, calm)
    requires calm ==> forall i :: 0 <= i < |actions| ==> Calm(actions[i], pid)
    ensures var t := Run(s, actions);
            && Inv(t) && Recovering(t, pid, calm) && t.procs[pid].cmd == s.procs[pid].cmd
            && (StepsLeft(t.procs[pid].pc) == 0 ||
                StepsLeft(t.procs[pid].pc) + OwnSteps(actions, pid) <= StepsLeft(s.procs[pid].pc))
    decreases actions
  {
    if actions != [] {
      RecoveringStep(s, actions[0], pid, calm);
      StepKeeps(s, actions[0]);
      StepOfOne(s, actions[0], pid);
      hide Inv, Step, Recovering, StepsLeft;
      RecoveringRun(Step(s, actions[0]), actions[1..], pid, calm);
    }
  }

  /** Crash recovery under any interleaving: a retry of a decision or cancellation whose fact
      is already in the log never appends again. If it is not itself crashed or failed, then
      after five steps of its own it has stopped and its command has a receipt; a commit of
      its own cites exactly that fact, however far the head has moved. */
  lemma RetryRecoversFact(s: State, pid: nat, actions: seq<Action>)
    requires Inv(s) && pid in s.procs && s.procs[pid].pc.Start?
    requires s.procs[pid].cmd.Fact() && s.procs[pid].cmd.op.event in s.log
    requires s.procs[pid].cmd.op.Decision? ==> s.procs[pid].cmd.expectedHead.Some?
    ensures var t, cmd := Run(s, actions), s.procs[pid].cmd;
            && Recovering(t, pid, false) && t.procs[pid].cmd == cmd
            && (forall choice :: Step(t, Advance(pid, choice)).log == t.log)
            && ((forall i :: 0 <= i < |actions| ==> Calm(actions[i], pid)) ==>
                  && Recovering(t, pid, true)
                  && (Stopped(t.procs[pid].pc) ==> cmd.id in t.receipts)
                  && (OwnSteps(actions, pid) >= 5 ==> Stopped(t.procs[pid].pc)))
  {
    var t := Run(s, actions);
    RecoveringRun(s, actions, pid, false);
    forall choice
      ensures Step(t, Advance(pid, choice)).log == t.log
    {
      RecoveringAdvance(t, pid, false, choice);
    }
    if forall i :: 0 <= i < |actions| ==> Calm(actions[i], pid) {
      RecoveringRun(s, actions, pid, true);
    }
    hide Run, Inv;
  }

  function Retry(pid: nat, cmd: Command): seq<Action>
  {
    var go := Advance(pid, Choice(false, []));
    [Spawn(pid, cmd), go, go, go, go, go]
  }

  /** Alone, such a retry commits: it writes the missing receipt for that fact and leaves
      everything else alone, even when the expected head is long past. */
  lemma RetryAloneCommits(actions: seq<Action>, pid: nat, cmd: Command)
    requires var s := Run(INIT, actions);
             && pid !in s.procs && cmd.id !in s.receipts
             && cmd.Fact() && cmd.op.event in s.log && (cmd.op.Decision? ==> cmd.expectedHead.Some?)
    ensures var s := Run(INIT, actions);
            var t := Run(s, Retry(pid, cmd));
            && t.log == s.log && t.intents == s.intents && t.launches == s.launches
            && t.receipts == s.receipts[cmd.id := Receipt(cmd.request, [cmd.op.event.id], |s.log|)]
            && t.procs == s.procs[pid := Process(cmd, Committed)]
  {
    var s := Run(INIT, actions);
    RunKeeps(INIT, actions);
    InvUnique(s);
    FoundFact(s.log, cmd.op.event);
    hide Inv, Grows, GetEvent, Run;
    RetryCommits(s, pid, cmd);
  }

  function At(s: State, pid: nat, cmd: Command, pc: Pc): State
  {
    s.(procs := s.procs[pid := Process(cmd, pc)])
  }

  lemma RetryCommits(s: State, pid: nat, cmd: Command)
    requires pid !in s.procs && cmd.id !in s.receipts && cmd.Fact() && (cmd.op.Decision? ==> cmd.expectedHead.Some?)
    requires SameFact(GetEvent(s.log, cmd.op.event.id), cmd.op.event)
    ensures Run(s, Retry(pid, cmd)) ==
            At(s, pid, cmd, Committed).(
              receipts := s.receipts[cmd.id := Receipt(cmd.request, [cmd.op.event.id], |s.log|)])
  {
    var go := Advance(pid, Choice(false, []));
    var facts := [cmd.op.event.id];
    RetryReads(s, pid, cmd);
    RetryFinishes(s, pid, cmd, facts);
    hide Step, At, GetEvent;
    UnrollRetry(s, pid, cmd);
  }

  lemma RetryReads(s: State, pid: nat, cmd: Command)
    requires pid !in s.procs && cmd.id !in s.receipts && cmd.Fact() && (cmd.op.Decision? ==> cmd.expectedHead.Some?)
    requires SameFact(GetEvent(s.log, cmd.op.event.id), cmd.op.event)
    ensures var go := Advance(pid, Choice(false, []));
            && Step(s, Spawn(pid, cmd)) == At(s, pid, cmd, Start)
            && Step(At(s, pid, cmd, Start), go) == At(s, pid, cmd, LookedUp)
            && Step(At(s, pid, cmd, LookedUp), go) == At(s, pid, cmd, Perform)
            && Step(At(s, pid, cmd, Perform), go) == At(s, pid, cmd, Performed([cmd.op.event.id]))
  {
    hide GetEvent, AdvanceAppend, AdvanceReceipt, AdvanceReport, AdvanceDispatch, AdvanceRecover, AdvanceHead,
      AdvanceRebuild;
    MoveTwice(s, pid, cmd, Start, LookedUp);
    MoveTwice(s, pid, cmd, LookedUp, Perform);
    MoveTwice(s, pid, cmd, Perform, Performed([cmd.op.event.id]));
  }

  lemma RetryFinishes(s: State, pid: nat, cmd: Command, facts: seq<string>)
    requires pid !in s.procs && cmd.id !in s.receipts
    ensures var go := Advance(pid, Choice(false, []));
            && Step(At(s, pid, cmd, Performed(facts)), go) == At(s, pid, cmd, Observed(facts, |s.log|))
            && Step(At(s, pid, cmd, Observed(facts, |s.log|)), go) ==
               At(s, pid, cmd, Committed).(receipts := s.receipts[cmd.id := Receipt(cmd.request, facts, |s.log|)])
  {
    hide AdvanceAppend, AdvancePerform, AdvanceReport, AdvanceDispatch, AdvanceRecover, AdvanceHead, AdvanceRebuild,
         AdvanceLookup, AdvanceKnownFact;
    MoveTwice(s, pid, cmd, Performed(facts), Observed(facts, |s.log|));
    MoveTwice(s, pid, cmd, Observed(facts, |s.log|), Committed);
  }

  lemma MoveTwice(s: State, pid: nat, cmd: Command, pc: Pc, next: Pc)
    ensures Goto(At(s, pid, cmd, pc), pid, next) == At(s, pid, cmd, next)
  {
    assert Goto(At(s, pid, cmd, pc), pid, next).procs == At(s, pid, cmd, next).procs;
  }

  lemma FoundFact(log: Log<string>, e: Event<string>)
    requires UniqueIds(log) && e in log
    ensures SameFact(GetEvent(log, e.id), e)
  {
    var i :| 0 <= i < |log| && log[i] == e;
  }

  lemma UnrollRetry(s: State, pid: nat, cmd: Command)
    ensures var go := Advance(pid, Choice(false, []));
            Run(s, Retry(pid, cmd)) == Step(Step(Step(Step(Step(Step(s, Spawn(pid, cmd)), go), go), go), go), go)
  {
    hide Step;
    var go := Advance(pid, Choice(false, []));
    RunCons(s, Spawn(pid, cmd), [go, go, go, go, go]);
    var s0 := Step(s, Spawn(pid, cmd));
    RunCons(s0, go, [go, go, go, go]);
    var s1 := Step(s0, go);
    RunCons(s1, go, [go, go, go]);
    var s2 := Step(s1, go);
    RunCons(s2, go, [go, go]);
    var s3 := Step(s2, go);
    RunCons(s3, go, [go]);
    RunCons(Step(s3, go), go, []);
  }

  lemma RunCons(s: State, a: Action, rest: seq<Action>)
    ensures Run(s, [a] + rest) == Run(Step(s, a), rest)
  {
    assert ([a] + rest)[1..] == rest;
  }

  /** Reserved, never launched, and no process holds it: the crash fell in between. */
  ghost predicate Abandoned(s: State, scope: string)
  {
    scope in s.intents && !Launched(s, scope) && forall pid :: !Holds(s, pid, scope)
  }

  lemma AbandonedStep(s: State, a: Action, scope: string)
    requires Inv(s) && Abandoned(s, scope)
    ensures Abandoned(Step(s, a), scope)
  {
    StepKeeps(s, a);
    var t := Step(s, a);
    if a.Advance? && a.pid in s.procs {
      InvHolder(s, a.pid);
      hide Inv, AdvanceProcess;
      AbandonedAdvance(s, a.pid, a.choice, scope);
      assert forall p :: p != a.pid ==> Holds(t, p, scope) == Holds(s, p, scope);
    } else {
      hide Inv, GetEvent;
      assert t.launches == s.launches;
      assert forall p :: Holds(t, p, scope) ==> Holds(s, p, scope);
    }
  }

  lemma AbandonedAdvance(s: State, pid: nat, choice: Choice, scope: string)
    requires pid in s.procs && scope in s.intents && !Launched(s, scope) && !Holds(s, pid, scope)
    requires s.procs[pid].pc.Reserved? ==> s.procs[pid].cmd.op.Effect?
    ensures var t := AdvanceProcess(s, pid, choice);
            && !Launched(t, scope) && !Holds(t, pid, scope)
            && (forall p :: p != pid ==>
              (p in t.procs <==> p in s.procs) && (p in s.procs ==> t.procs[p] == s.procs[p]))
  {
    AdvanceFrame(s, pid, choice);
    hide AdvanceProcess;
    var t := AdvanceProcess(s, pid, choice);
    assert forall i :: 0 <= i < |s.launches| ==> s.launches[i].scope != scope;
    assert forall i :: 0 <= i < |t.launches| ==> t.launches[i].scope != scope;
  }

  /** A reserved scope is never freed: a crash between reservation and dispatch means the
      effect is never launched, in whatever run follows. */
  lemma {:induction false} AbandonedScopeIsNeverLaunched(s: State, actions: seq<Action>, scope: string)
    requires Inv(s) && Abandoned(s, scope)
    ensures Abandoned(Run(s, actions), scope)
    decreases actions
  {
    hide Inv, Abandoned, Step;
    if actions != [] {
      AbandonedStep(s, actions[0], scope);
      StepKeeps(s, actions[0]);
      AbandonedScopeIsNeverLaunched(Step(s, actions[0]), actions[1..], scope);
    }
  }

  /** A crash between reservation and dispatch leaves the scope reserved and abandoned. */
  lemma CrashAbandons(s: State, pid: nat, scope: string)
    requires Inv(s) && Holds(s, pid, scope)
    ensures Abandoned(Step(s, Crash(pid)), scope)
  {
    var t := Step(s, Crash(pid));
    assert t.launches == s.launches && t.intents == s.intents;
    assert forall p :: Holds(t, p, scope) ==> Holds(s, p, scope) && p != pid;
  }

  /** So the effect of a process that crashed there is never launched, in whatever run
      follows, and its scope stays bound to the digest it was reserved for. */
  lemma CrashedReservationIsNeverLaunched(s: State, pid: nat, scope: string, actions: seq<Action>)
    requires Inv(s) && Holds(s, pid, scope)
    ensures var t := Run(Step(s, Crash(pid)), actions);
            && Abandoned(t, scope)
            && scope in s.intents && t.intents[scope] == s.intents[scope] == s.procs[pid].cmd.op.frozen
  {
    CrashAbandons(s, pid, scope);
    StepKeeps(s, Crash(pid));
    assert scope in s.intents && s.intents[scope] == s.procs[pid].cmd.op.frozen;
    hide Inv, Step, Run, Abandoned;
    AbandonedScopeIsNeverLaunched(Step(s, Crash(pid)), actions, scope);
    RunKeeps(Step(s, Crash(pid)), actions);
  }

  // Who may act, and what a finished process stands for

  /** Past the checks of its operation. */
  predicate Acting(pc: Pc)
  {
    Performing(pc) || pc.NotFound? || pc.ReadyToAppend? || pc.Recover?
  }

  /** An effect acts only for the material that was reviewed, if any was; a decision needs an
      expected head. */
  predicate Entitled(cmd: Command)
  {
    && (cmd.op.Effect? && cmd.op.reviewed.Some? ==> cmd.op.reviewed.value == cmd.op.frozen)
    && (cmd.op.Decision? ==> cmd.expectedHead.Some?)
  }

  ghost predicate Standing(s: State, p: Process)
  {
    && (Acting(p.pc) ==> Entitled(p.cmd))
    && (p.pc.Committed? ==>
          && p.cmd.id in s.receipts && s.receipts[p.cmd.id].request == p.cmd.request
          && FactsOk(s.log, p.cmd, s.receipts[p.cmd.id].facts))
    && (p.pc.Replayed? ==>
          p.cmd.id in s.receipts && s.receipts[p.cmd.id] == p.pc.receipt && p.pc.receipt.request == p.cmd.request)
  }

  /** A launch belongs to an effect process with its scope and digest, and the material that
      was reviewed, if any was, is that digest. */
  ghost predicate Owned(s: State, launch: Launch)
  {
    exists pid :: pid in s.procs && LaunchedBy(s.procs[pid].cmd, launch)
  }

  predicate LaunchedBy(cmd: Command, launch: Launch)
  {
    && cmd.op.Effect? && cmd.op.scope == launch.scope && cmd.op.frozen == launch.digest
    && (cmd.op.reviewed.Some? ==> cmd.op.reviewed.value == launch.digest)
  }

  ghost predicate StandingOk(s: State)
  {
    && (forall pid :: pid in s.procs ==> Standing(s, s.procs[pid]))
    && (forall i :: 0 <= i < |s.launches| ==> Owned(s, s.launches[i]))
  }

  lemma FactsPrefix(log: Log<string>, longer: Log<string>, cmd: Command, facts: seq<string>)
    requires log <= longer && FactsOk(log, cmd, facts)
    ensures FactsOk(longer, cmd, facts)
  {
    assert forall i :: 0 <= i < |log| ==> longer[i] == log[i];
    forall f | f in Ids(log)
      ensures f in Ids(longer)
    {
      var i :| 0 <= i < |log| && log[i].id == f;
      assert longer[i].id == f;
    }
  }

  lemma StandingKept(s: State, t: State, p: Process)
    requires Standing(s, p) && Grows(s, t)
    ensures Standing(t, p)
  {
    if p.pc.Committed? {
      FactsPrefix(s.log, t.log, p.cmd, s.receipts[p.cmd.id].facts);
    }
  }

  /** How a process comes to act, to be replayed and to commit. */
  ghost predicate Lawful(s: State, t: State, pid: nat)
    requires pid in s.procs
  {
    var cmd, pc := s.procs[pid].cmd, s.procs[pid].pc;
    && pid in t.procs && t.procs[pid].cmd == cmd
    && var next := t.procs[pid].pc;
    && (Acting(next) ==> Acting(pc) || Entitled(cmd))
    && (next.Replayed? ==>
          t == s ||
          (cmd.id in t.receipts && t.receipts[cmd.id] == next.receipt && next.receipt.request == cmd.request))
    && (next.Committed? ==> t == s || (pc.Observed? && t == AdvanceReceipt(s, pid, pc.facts, pc.head)))
  }

  lemma LawfulReads(s: State, pid: nat)
    requires pid in s.procs
    ensures Lawful(s, s, pid) && Lawful(s, Goto(s, pid, Refused), pid)
    ensures Lawful(s, AdvanceLookup(s, pid), pid) && Lawful(s, AdvanceKnownFact(s, pid), pid)
    ensures Lawful(s, AdvanceHead(s, pid), pid)
  {
    hide GetEvent, AdvanceReceipt;
  }

  lemma LawfulPerform(s: State, pid: nat)
    requires pid in s.procs
    ensures Lawful(s, AdvancePerform(s, pid), pid)
  {
    hide GetEvent, AdvanceReceipt;
  }

  lemma LawfulActs(s: State, pid: nat, cas: nat, reported: seq<string>)
    requires pid in s.procs && Acting(s.procs[pid].pc)
    ensures Lawful(s, AdvanceRebuild(s, pid), pid) && Lawful(s, AdvanceRecover(s, pid), pid)
    ensures Lawful(s, AdvanceAppend(s, pid, cas), pid) && Lawful(s, AdvanceDispatch(s, pid), pid)
    ensures Lawful(s, AdvanceReport(s, pid, cas, reported), pid)
  {
    hide GetEvent, Ids, AdvanceReceipt;
  }

  lemma LawfulEnds(s: State, pid: nat)
    requires pid in s.procs && (s.procs[pid].pc.Performed? || s.procs[pid].pc.Observed?)
    ensures Lawful(s, Goto(s, pid, Observed(s.procs[pid].pc.facts, |s.log|)), pid)
    ensures s.procs[pid].pc.Observed? ==>
              Lawful(s, AdvanceReceipt(s, pid, s.procs[pid].pc.facts, s.procs[pid].pc.head), pid)
  {
  }

  lemma ActingAdvance(s: State, pid: nat, choice: Choice)
    requires pid in s.procs
    ensures Lawful(s, AdvanceProcess(s, pid, choice), pid)
  {
    hide Lawful, Goto, AdvanceLookup, AdvanceKnownFact, AdvanceHead, AdvancePerform, AdvanceRebuild,
         AdvanceAppend, AdvanceRecover, AdvanceDispatch, AdvanceReport, AdvanceReceipt;
    var pc := s.procs[pid].pc;
    LawfulReads(s, pid);
    LawfulPerform(s, pid);
    if Acting(pc) {
      var bound := if pc.ReadyToAppend? then pc.cas else if pc.Dispatched? then pc.before else 0;
      LawfulActs(s, pid, bound, choice.reported);
    }
    if pc.Performed? || pc.Observed? {
      LawfulEnds(s, pid);
    }
  }

  lemma StandingAdvance(s: State, pid: nat, choice: Choice)
    requires pid in s.procs && Standing(s, s.procs[pid]) && ProcessOk(s.log, s.procs[pid])
    ensures var t := AdvanceProcess(s, pid, choice);
            pid in t.procs && Standing(t, t.procs[pid])
  {
    ActingAdvance(s, pid, choice);
    hide AdvanceProcess, FactsOk;
  }

  lemma StandingStep(s: State, a: Action, pid: nat)
    requires Inv(s) && pid in s.procs && Standing(s, s.procs[pid])
    ensures var t := Step(s, a);
            pid in t.procs && Standing(t, t.procs[pid])
  {
    StepOfOne(s, a, pid);
    StepKeeps(s, a);
    InvHolder(s, pid);
    hide Inv, Step;
    if a.Advance? && a.pid == pid {
      StandingAdvance(s, pid, a.choice);
    } else {
      hide AdvanceProcess;
      StandingKept(s, Step(s, a), s.procs[pid]);
    }
  }

  lemma OwnedStep(s: State, a: Action, i: nat)
    requires Inv(s) && StandingOk(s) && i < |Step(s, a).launches|
    ensures Owned(Step(s, a), Step(s, a).launches[i])
  {
    var t := Step(s, a);
    if i < |s.launches| {
      StepKeeps(s, a);
      assert t.launches[i] == s.launches[i];
      var pid :| pid in s.procs && LaunchedBy(s.procs[pid].cmd, s.launches[i]);
      StepOfOne(s, a, pid);
      hide Inv, Step;
      assert LaunchedBy(t.procs[pid].cmd, t.launches[i]);
    } else {
      assert a.Advance? && a.pid in s.procs by {
        hide AdvanceProcess;
      }
      AdvanceFrame(s, a.pid, a.choice);
      assert Standing(s, s.procs[a.pid]);
      hide Inv, StandingOk, AdvanceProcess;
      assert LaunchedBy(t.procs[a.pid].cmd, t.launches[i]);
    }
  }

  lemma {:induction false} StandingRun(s: State, actions: seq<Action>)
    requires Inv(s) && StandingOk(s)
    ensures Inv(Run(s, actions)) && StandingOk(Run(s, actions))
    decreases actions
  {
    if actions != [] {
      var a := actions[0];
      var t := Step(s, a);
      StepKeeps(s, a);
      forall pid | pid in t.procs
        ensures Standing(t, t.procs[pid])
      {
        NewStarts(s, a, pid);
        if pid in s.procs {
          StandingStep(s, a, pid);
        }
      }
      forall i | 0 <= i < |t.launches|
        ensures Owned(t, t.launches[i])
      {
        OwnedStep(s, a, i);
      }
      hide Inv, Step, Standing, Owned;
      StandingRun(t, actions[1..]);
    }
  }

  /** Over every run: an effect past its checks acts for the reviewed material, a decision past
      its checks has an expected head, every launch belongs to an effect with that scope and
      digest whose reviewed material, if any, is that digest, and a process that committed or
      was replayed stands for a stored receipt of its own request. */
  lemma OnlyReviewedMaterialActs(actions: seq<Action>)
    ensures StandingOk(Run(INIT, actions))
  {
    StandingRun(INIT, actions);
  }

  /** Changed material is refused for good: in every reachable state an effect whose reviewed
      digest differs from its frozen one has performed nothing and is in no launch. */
  lemma ChangedMaterialNeverActs(actions: seq<Action>, pid: nat)
    requires var s := Run(INIT, actions);
             && pid in s.procs && s.procs[pid].cmd.op.Effect?
             && s.procs[pid].cmd.op.reviewed.Some? && s.procs[pid].cmd.op.reviewed.value != s.procs[pid].cmd.op.frozen
    ensures !Acting(Run(INIT, actions).procs[pid].pc)
  {
    StandingRun(INIT, actions);
    hide Run;
    assert Standing(Run(INIT, actions), Run(INIT, actions).procs[pid]);
  }

  // Heads

  /** An effect whose expected head the log has already passed, before its head check. */
  ghost predicate Overtaken(s: State, pid: nat)
  {
    && pid in s.procs && s.procs[pid].cmd.op.Effect?
    && s.procs[pid].cmd.expectedHead.Some? && s.procs[pid].cmd.expectedHead.value < |s.log|
    && var pc := s.procs[pid].pc;
    && (pc.Start? || pc.LookedUp? || pc.HeadUnchecked? || pc.Replayed? || pc.Refused? || pc.Crashed?)
  }

  lemma OvertakenAdvance(s: State, pid: nat, choice: Choice)
    requires Overtaken(s, pid)
    ensures var t := AdvanceProcess(s, pid, choice);
            Overtaken(t, pid) && t == s.(procs := t.procs)
  {
    hide GetEvent;
  }

  /** An effect whose expected head is past is refused for good: in every later run it has
      performed nothing, and none of its steps changes a table. */
  lemma {:induction false} OvertakenEffectIsRefused(s: State, pid: nat, actions: seq<Action>)
    requires Inv(s) && Overtaken(s, pid)
    ensures var t := Run(s, actions);
            && Overtaken(t, pid)
            && (forall choice :: var u := Step(t, Advance(pid, choice)); u == t.(procs := u.procs))
    decreases actions
  {
    if actions == [] {
      forall choice
        ensures var u := Step(s, Advance(pid, choice)); u == s.(procs := u.procs)
      {
        OvertakenAdvance(s, pid, choice);
      }
    } else {
      var a := actions[0];
      StepKeeps(s, a);
      StepOfOne(s, a, pid);
      if a.Advance? && a.pid == pid {
        OvertakenAdvance(s, pid, a.choice);
      }
      hide Inv, Step, AdvanceProcess;
      OvertakenEffectIsRefused(Step(s, a), pid, actions[1..]);
    }
  }

  // Fresh commands commit when nothing disturbs them

  function Go(pid: nat, n: nat): seq<Action>
  {
    if n == 0 then [] else [Advance(pid, Choice(false, []))] + Go(pid, n - 1)
  }

  lemma GoOne(s: State, pid: nat, n: nat)
    requires n > 0
    ensures Run(s, Go(pid, n)) == Run(Step(s, Advance(pid, Choice(false, []))), Go(pid, n - 1))
  {
    hide Step;
    RunCons(s, Advance(pid, Choice(false, [])), Go(pid, n - 1));
  }

  /** The next place of an undisturbed process, when no table changes. */
  lemma GoTo(s: State, pid: nat, cmd: Command, n: nat, pc: Pc, next: Pc)
    requires n > 0 && !Stopped(pc)
    requires AdvanceProcess(At(s, pid, cmd, pc), pid, Choice(false, [])) == Goto(At(s, pid, cmd, pc), pid, next)
    ensures Run(At(s, pid, cmd, pc), Go(pid, n)) == Run(At(s, pid, cmd, next), Go(pid, n - 1))
  {
    GoOne(At(s, pid, cmd, pc), pid, n);
    MoveTwice(s, pid, cmd, pc, next);
    hide AdvanceProcess, Run;
  }

  lemma FreshMoves(s: State, pid: nat, cmd: Command)
    requires cmd.id !in s.receipts && (cmd.expectedHead.Some? ==> cmd.expectedHead.value == |s.log|)
    requires cmd.Fact() ==> cmd.op.event.id !in Ids(s.log)
    ensures var go, a := Choice(false, []), At(s, pid, cmd, Start);
            var b, c := At(s, pid, cmd, LookedUp), At(s, pid, cmd, HeadUnchecked);
            && AdvanceProcess(a, pid, go) == Goto(a, pid, LookedUp)
            && AdvanceProcess(b, pid, go) == Goto(b, pid, HeadUnchecked)
            && AdvanceProcess(c, pid, go) == Goto(c, pid, Perform)
  {
    hide GetEvent, Ids;
  }

  /** The first three steps of a command that is not committed, whose fact is not recorded and
      whose expected head, if any, is the head. */
  lemma FreshReads(s: State, pid: nat, cmd: Command, n: nat)
    requires cmd.id !in s.receipts && (cmd.expectedHead.Some? ==> cmd.expectedHead.value == |s.log|) && n >= 3
    requires cmd.Fact() ==> cmd.op.event.id !in Ids(s.log)
    ensures Run(At(s, pid, cmd, Start), Go(pid, n)) == Run(At(s, pid, cmd, Perform), Go(pid, n - 3))
  {
    hide GetEvent, Ids, Run, Go;
    FreshMoves(s, pid, cmd);
    hide AdvanceProcess, Goto, At;
    GoTo(s, pid, cmd, n, Start, LookedUp);
    GoTo(s, pid, cmd, n - 1, LookedUp, HeadUnchecked);
    GoTo(s, pid, cmd, n - 2, HeadUnchecked, Perform);
  }

  lemma FreshFinishes(s: State, pid: nat, cmd: Command, facts: seq<string>)
    requires cmd.id !in s.receipts
    ensures Run(At(s, pid, cmd, Performed(facts)), Go(pid, 2)) ==
            At(s, pid, cmd, Committed).(receipts := s.receipts[cmd.id := Receipt(cmd.request, facts, |s.log|)])
  {
    GoTo(s, pid, cmd, 2, Performed(facts), Observed(facts, |s.log|));
    var o := At(s, pid, cmd, Observed(facts, |s.log|));
    GoOne(o, pid, 1);
    MoveTwice(s, pid, cmd, Observed(facts, |s.log|), Committed);
  }

  lemma FactMoves(s: State, pid: nat, cmd: Command)
    requires cmd.Fact() && cmd.op.event.id !in Ids(s.log)
    requires cmd.expectedHead == Some(|s.log|) || (cmd.op.Cancellation? && cmd.expectedHead.None?)
    ensures var go, a, b := Choice(false, []), At(s, pid, cmd, Perform), At(s, pid, cmd, NotFound);
            && AdvanceProcess(a, pid, go) == Goto(a, pid, NotFound)
            && AdvanceProcess(b, pid, go) == Goto(b, pid, ReadyToAppend(|s.log|))
            && Step(At(s, pid, cmd, ReadyToAppend(|s.log|)), Advance(pid, go)) ==
               At(s.(log := s.log + [cmd.op.event]), pid, cmd, Performed([cmd.op.event.id]))
  {
    hide GetEvent, Ids;
    MoveTwice(s, pid, cmd, ReadyToAppend(|s.log|), Performed([cmd.op.event.id]));
  }

  lemma FactActs(s: State, pid: nat, cmd: Command)
    requires cmd.Fact() && cmd.op.event.id !in Ids(s.log)
    requires cmd.expectedHead == Some(|s.log|) || (cmd.op.Cancellation? && cmd.expectedHead.None?)
    ensures var next := s.(log := s.log + [cmd.op.event]);
            Run(At(s, pid, cmd, Perform), Go(pid, 5)) ==
            Run(At(next, pid, cmd, Performed([cmd.op.event.id])), Go(pid, 2))
  {
    hide GetEvent, Ids, Run, Go;
    FactMoves(s, pid, cmd);
    hide AdvanceProcess, Goto, At;
    GoTo(s, pid, cmd, 5, Perform, NotFound);
    GoTo(s, pid, cmd, 4, NotFound, ReadyToAppend(|s.log|));
    GoOne(At(s, pid, cmd, ReadyToAppend(|s.log|)), pid, 3);
  }

  /** A decision or cancellation at its expected head commits: its fact becomes the next event
      and its receipt cites it, and nothing else changes. */
  lemma FreshFactCommits(s: State, pid: nat, cmd: Command)
    requires pid !in s.procs && cmd.id !in s.receipts && cmd.Fact() && cmd.op.event.id !in Ids(s.log)
    requires cmd.expectedHead == Some(|s.log|) || (cmd.op.Cancellation? && cmd.expectedHead.None?)
    ensures var t := Run(Step(s, Spawn(pid, cmd)), Go(pid, 8));
            && t.log == s.log + [cmd.op.event] && t.intents == s.intents && t.launches == s.launches
            && t.receipts == s.receipts[cmd.id := Receipt(cmd.request, [cmd.op.event.id], |s.log| + 1)]
            && t.procs == s.procs[pid := Process(cmd, Committed)]
  {
    assert Step(s, Spawn(pid, cmd)) == At(s, pid, cmd, Start);
    hide Step, Run, Go;
    FreshReads(s, pid, cmd, 8);
    FactActs(s, pid, cmd);
    FreshFinishes(s.(log := s.log + [cmd.op.event]), pid, cmd, [cmd.op.event.id]);
  }

  function Dispatching(s: State, op: Operation): State
    requires op.Effect?
  {
    s.(intents := s.intents[op.scope := op.frozen], launches := s.launches + [Launch(op.scope, op.frozen)])
  }

  lemma EffectActs(s: State, pid: nat, cmd: Command)
    requires cmd.op.Effect? && cmd.op.scope !in s.intents
    requires cmd.op.reviewed.Some? ==> cmd.op.reviewed.value == cmd.op.frozen
    ensures Run(At(s, pid, cmd, Perform), Go(pid, 5)) ==
            Run(At(Dispatching(s, cmd.op), pid, cmd, Performed([])), Go(pid, 2))
  {
    hide GetEvent, Run;
    var bound := s.(intents := s.intents[cmd.op.scope := cmd.op.frozen]);
    GoOne(At(s, pid, cmd, Perform), pid, 5);
    MoveTwice(s, pid, cmd, Perform, Pc.Reserved);
    assert AdvancePerform(At(s, pid, cmd, Perform), pid) == At(bound, pid, cmd, Pc.Reserved);
    GoOne(At(bound, pid, cmd, Pc.Reserved), pid, 4);
    MoveTwice(bound, pid, cmd, Pc.Reserved, Dispatched(|s.log|));
    GoTo(Dispatching(s, cmd.op), pid, cmd, 3, Dispatched(|s.log|), Performed([]));
  }

  /** An effect on a free scope at its expected head, for reviewed material, is launched once
      and commits. */
  lemma FreshEffectCommits(s: State, pid: nat, cmd: Command)
    requires pid !in s.procs && cmd.id !in s.receipts && cmd.op.Effect? && cmd.op.scope !in s.intents
    requires cmd.op.reviewed.Some? ==> cmd.op.reviewed.value == cmd.op.frozen
    requires cmd.expectedHead.Some? ==> cmd.expectedHead.value == |s.log|
    ensures var t := Run(Step(s, Spawn(pid, cmd)), Go(pid, 8));
            && t.log == s.log && t.intents == s.intents[cmd.op.scope := cmd.op.frozen]
            && t.launches == s.launches + [Launch(cmd.op.scope, cmd.op.frozen)]
            && t.receipts == s.receipts[cmd.id := Receipt(cmd.request, [], |s.log|)]
            && t.procs == s.procs[pid := Process(cmd, Committed)]
  {
    assert Step(s, Spawn(pid, cmd)) == At(s, pid, cmd, Start);
    hide Step, Run, Go;
    FreshReads(s, pid, cmd, 8);
    EffectActs(s, pid, cmd);
    FreshFinishes(Dispatching(s, cmd.op), pid, cmd, []);
  }

  // Lost races

  lemma RaceMoves(s: State, pid: nat, cmd: Command, cas: nat)
    requires cmd.Fact() && cmd.op.event.id in Ids(s.log)
    ensures var go, a, b := Choice(false, []), At(s, pid, cmd, ReadyToAppend(cas)), At(s, pid, cmd, Recover);
            && AdvanceProcess(a, pid, go) == Goto(a, pid, if cmd.op.Decision? then Recover else Refused)
            && AdvanceProcess(b, pid, go) ==
               Goto(b, pid, if GetEvent(s.log, cmd.op.event.id) == Some(cmd.op.event)
                            then Performed([cmd.op.event.id]) else Refused)
  {
    hide GetEvent, Ids;
  }

  /** A decision whose very fact was recorded by another writer since it looked commits with
      that fact; with another fact under its id it is refused. A cancellation is refused. */
  lemma LostRace(s: State, pid: nat, cmd: Command, cas: nat)
    requires cmd.Fact() && cmd.id !in s.receipts && cmd.op.event.id in Ids(s.log)
    ensures cmd.op.Decision? && GetEvent(s.log, cmd.op.event.id) == Some(cmd.op.event) ==>
              Run(At(s, pid, cmd, ReadyToAppend(cas)), Go(pid, 4)) ==
              At(s, pid, cmd, Committed).(
                receipts := s.receipts[cmd.id := Receipt(cmd.request, [cmd.op.event.id], |s.log|)])
    ensures cmd.op.Decision? && GetEvent(s.log, cmd.op.event.id) != Some(cmd.op.event) ==>
              Run(At(s, pid, cmd, ReadyToAppend(cas)), Go(pid, 2)) == At(s, pid, cmd, Refused)
    ensures cmd.op.Cancellation? ==>
              Run(At(s, pid, cmd, ReadyToAppend(cas)), Go(pid, 1)) == At(s, pid, cmd, Refused)
  {
    hide Run, Go, GetEvent, Ids;
    RaceMoves(s, pid, cmd, cas);
    hide AdvanceProcess, Goto, At;
    GoNowhere(At(s, pid, cmd, Refused), pid);
    if cmd.op.Cancellation? {
      GoTo(s, pid, cmd, 1, ReadyToAppend(cas), Refused);
    } else if GetEvent(s.log, cmd.op.event.id) == Some(cmd.op.event) {
      GoTo(s, pid, cmd, 4, ReadyToAppend(cas), Recover);
      GoTo(s, pid, cmd, 3, Recover, Performed([cmd.op.event.id]));
      FreshFinishes(s, pid, cmd, [cmd.op.event.id]);
    } else {
      GoTo(s, pid, cmd, 2, ReadyToAppend(cas), Recover);
      GoTo(s, pid, cmd, 1, Recover, Refused);
    }
  }

  lemma GoNowhere(s: State, pid: nat)
    ensures Run(s, Go(pid, 0)) == s
  {
  }

  /** A new fact whose head moved after the rebuild is refused and nothing is appended. */
  lemma MovedHeadIsRefused(s: State, pid: nat, cmd: Command, cas: nat)
    requires cmd.Fact() && cmd.op.event.id !in Ids(s.log) && cas != |s.log|
    ensures Run(At(s, pid, cmd, ReadyToAppend(cas)), Go(pid, 1)) == At(s, pid, cmd, Refused)
  {
    hide Run, Go, GetEvent, Ids;
    GoTo(s, pid, cmd, 1, ReadyToAppend(cas), Refused);
    GoNowhere(At(s, pid, cmd, Refused), pid);
  }

  /** An effect whose scope is already bound to its digest commits without a launch; bound to
      another digest, it is refused. */
  lemma BoundScopeIsNotRelaunched(s: State, pid: nat, cmd: Command)
    requires cmd.op.Effect? && cmd.op.scope in s.intents && cmd.id !in s.receipts
    requires cmd.op.reviewed.Some? ==> cmd.op.reviewed.value == cmd.op.frozen
    ensures s.intents[cmd.op.scope] == cmd.op.frozen ==>
              Run(At(s, pid, cmd, Perform), Go(pid, 3)) ==
              At(s, pid, cmd, Committed).(receipts := s.receipts[cmd.id := Receipt(cmd.request, [], |s.log|)])
    ensures s.intents[cmd.op.scope] != cmd.op.frozen ==>
              Run(At(s, pid, cmd, Perform), Go(pid, 1)) == At(s, pid, cmd, Refused)
  {
    hide Run, Go, GetEvent, Ids;
    if s.intents[cmd.op.scope] == cmd.op.frozen {
      GoTo(s, pid, cmd, 3, Perform, Performed([]));
      FreshFinishes(s, pid, cmd, []);
    } else {
      GoTo(s, pid, cmd, 1, Perform, Refused);
      GoNowhere(At(s, pid, cmd, Refused), pid);
    }
  }
}
