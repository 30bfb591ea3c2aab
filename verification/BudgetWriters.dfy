/** BudgetControl: rebuild a fold at a frozen head, decide on it, and compare-and-append.
    Between rebuild and append other writers may extend the log. */
module BudgetWriters {
  import opened Wrappers
  import opened EventLog
  import opened BudgetLedger
  import opened BudgetJournal

  const SEQUENCE_MAX: nat := 2147483647

  /** A caller's document: the event it asks for, whether it supplies fields the store
      assigns, and whether it is a valid event document. */
  datatype Draft = Draft(entry: Entry, storeFields: bool, valid: bool)

  datatype Head = Head(last: nat, fold: BudgetFold)

  predicate Preflight(head: Head, d: Draft, project: string)
  {
    !d.storeFields && head.last < SEQUENCE_MAX && d.valid && d.entry.content.project == project
  }

  /** Appends a draft that the frozen fold accepts, if the head has not moved. */
  function AppendAt(log: Log<Content>, head: Head, d: Draft, project: string): (r: Option<Log<Content>>)
    ensures r.Some? ==> r.value == log + [d.entry]
    ensures r.Some? <==>
            && !d.storeFields && d.valid && d.entry.content.project == project
            && head.last == |log| < 2147483647 && d.entry.id !in Ids(log)
            && Apply(head.fold, d.entry.content, project).Ok?
  {
    if !Preflight(head, d, project) || Apply(head.fold, d.entry.content, project).Err? then None
    else
      match Append(log, d.entry, Some(head.last))
      case Appended(next) => Some(next)
      case _ => None
  }

  datatype Outcome =
    | StoredReservation(log: Log<Content>)
    | BudgetExceeded(log: Log<Content>)
    | Failed

  /** One frozen head decides between a reservation and an exceeded fact. */
  function ReserveOrExceed(
    log: Log<Content>, head: Head, expected: Option<nat>, reserved: Draft, exceeded: Draft, project: string): Outcome
  {
    var c := reserved.entry.content;
    if expected.Some? && expected.value != head.last then Failed
    else if !Preflight(head, reserved, project) || !c.BudgetEvent? || !c.payload.Reserved? then Failed
    else if WithinApprovedLimit(head.fold, c.payload.amount, c.payload.cap).Some? then Failed
    else if WouldExceed(head.fold, c.payload.amount, c.payload.cap) then
      var x := exceeded.entry.content;
      if !Preflight(head, exceeded, project) || !x.BudgetEvent? || !x.payload.Exceeded? then Failed
      else
        var next := AppendAt(log, head, exceeded, project);
        if next.Some? then BudgetExceeded(next.value) else Failed
    else
      var next := AppendAt(log, head, reserved, project);
      if next.Some? then StoredReservation(next.value) else Failed
  }

  /** The log a call leaves behind. */
  function LogAfter(log: Log<Content>, outcome: Outcome): Log<Content>
  {
    if outcome.Failed? then log else outcome.log
  }

  /** One event exactly when the call does not fail otherwise: the reservation when it fits,
      the exceeded fact when it does not; and no event on any other error. */
  lemma ReserveOrExceedAppendsOne(
    log: Log<Content>, head: Head, expected: Option<nat>, reserved: Draft, exceeded: Draft, project: string)
    ensures var outcome := ReserveOrExceed(log, head, expected, reserved, exceeded, project);
            var after, c := LogAfter(log, outcome), reserved.entry.content;
            && (outcome.Failed? <==> after == log)
            && (!outcome.Failed? ==>
                  && |after| == |log| + 1 && head.last == |log| && (expected.Some? ==> expected.value == |log|)
                  && c.BudgetEvent? && c.payload.Reserved?
                  && (outcome.BudgetExceeded? <==> WouldExceed(head.fold, c.payload.amount, c.payload.cap)))
            && (outcome.StoredReservation? ==> after == log + [reserved.entry])
            && (outcome.BudgetExceeded? ==>
                  && after == log + [exceeded.entry] && exceeded.entry.content.BudgetEvent?
                  && exceeded.entry.content.payload.Exceeded?)
  {
    hide WouldExceed, WithinApprovedLimit, Apply, Preflight;
  }

  // Any number of writers over one log

  datatype Shared = Shared(log: Log<Content>, heads: map<nat, Head>)

  datatype Action =
    | Rebuild(pid: nat)
    | AppendCall(pid: nat, draft: Draft)
    | ReserveCall(pid: nat, expected: Option<nat>, reserved: Draft, exceeded: Draft)
    | OtherWriter(entry: Entry)

  /** One step; OtherWriter is any append that is not a budget fact of this project. */
  function Step(s: Shared, a: Action, project: string): Shared
  {
    match a
    case Rebuild(pid) =>
      var fold := Fold(s.log, project);
      if fold.Ok? then s.(heads := s.heads[pid := Head(|s.log|, fold.value)]) else s
    case AppendCall(pid, draft) =>
      if pid !in s.heads then s
      else
        var next := AppendAt(s.log, s.heads[pid], draft, project);
        s.(log := if next.Some? then next.value else s.log, heads := s.heads - {pid})
    case ReserveCall(pid, expected, reserved, exceeded) =>
      if pid !in s.heads then s
      else
        var outcome := ReserveOrExceed(s.log, s.heads[pid], expected, reserved, exceeded, project);
        s.(log := LogAfter(s.log, outcome), heads := s.heads - {pid})
    case OtherWriter(entry) =>
      if Relevant(entry.content, project) then s
      else
        match Append(s.log, entry, None)
        case Appended(next) => s.(log := next)
        case _ => s
  }

  function Run(s: Shared, actions: seq<Action>, project: string): Shared
    decreases actions
  {
    if actions == [] then s else Run(Step(s, actions[0], project), actions[1..], project)
  }

  const INIT := Shared([], map[])

  ghost predicate HeadOk(log: Log<Content>, head: Head, project: string)
  {
    head.last <= |log| && Fold(log[..head.last], project) == Ok(head.fold)
  }

  ghost predicate Inv(s: Shared, project: string)
  {
    Fold(s.log, project).Ok? && forall pid :: pid in s.heads ==> HeadOk(s.log, s.heads[pid], project)
  }

  /** The log can take the draft: the store may number one more event and the id is new. */
  predicate Fits(log: Log<Content>, d: Draft, project: string)
  {
    && !d.storeFields && d.valid && d.entry.content.project == project
    && |log| < 2147483647 && d.entry.id !in Ids(log)
  }

  ghost predicate DraftJustified(log: Log<Content>, d: Draft, project: string)
  {
    d.entry.content.BudgetEvent? ==> Justified(log, project, d.entry.content.actor, d.entry.content.payload)
  }

  lemma HeadAtEnd(log: Log<Content>, head: Head, project: string)
    requires HeadOk(log, head, project) && head.last == |log|
    ensures Fold(log, project) == Ok(head.fold)
  {
    assert log[..head.last] == log;
  }

  lemma TakesJustified(log: Log<Content>, fold: BudgetFold, d: Draft, project: string)
    requires Fold(log, project) == Ok(fold) && d.entry.content.project == project
    ensures Apply(fold, d.entry.content, project).Ok? <==> DraftJustified(log, d, project)
  {
    EventJustified(log, d.entry, project);
    assert (log + [d.entry])[..|log|] == log;
    hide Justified, Apply;
  }

  /** A frozen head appends a draft exactly when nothing was appended since the rebuild, the
      store can take the draft, and the log justifies it. */
  lemma AppendsExactly(log: Log<Content>, head: Head, d: Draft, project: string)
    requires HeadOk(log, head, project)
    ensures AppendAt(log, head, d, project).Some? <==>
            head.last == |log| && Fits(log, d, project) && DraftJustified(log, d, project)
  {
    hide Apply, DraftJustified, Fold, Ids;
    if head.last == |log| && d.entry.content.project == project {
      HeadAtEnd(log, head, project);
      TakesJustified(log, head.fold, d, project);
    }
  }

  lemma LimitMeans(log: Log<Content>, fold: BudgetFold, project: string, amount: nat, cap: nat)
    requires Fold(log, project) == Ok(fold)
    ensures WithinApprovedLimit(fold, amount, cap).None? <==> UnderLimit(log, project, amount, cap)
    ensures WouldExceed(fold, amount, cap) <==> MoneyHeld(log, project) + amount > cap
  {
    FoldRemembers(log, project);
    HeldIsCommitted(log, project);
    hide LastLimit, Fold, MoneyHeld, Committed;
  }

  /** The call's two outcomes, each with its exact condition on the log: the reservation is
      stored when the log justifies it; the exceeded fact is stored when the reservation
      names the limit in force, does not fit under it, and the log justifies the fact. */
  lemma ReserveOrExceedExactly(
    log: Log<Content>, head: Head, expected: Option<nat>, reserved: Draft, exceeded: Draft, project: string)
    requires HeadOk(log, head, project)
    ensures var outcome := ReserveOrExceed(log, head, expected, reserved, exceeded, project);
            var c, x := reserved.entry.content, exceeded.entry.content;
            var current := head.last == |log| && (expected == None || expected == Some(|log|));
            && (outcome.StoredReservation? <==>
                  && current && Fits(log, reserved, project) && c.BudgetEvent? && c.payload.Reserved?
                  && Justified(log, project, c.actor, c.payload))
            && (outcome.BudgetExceeded? <==>
                  && current && !reserved.storeFields && reserved.valid && c.project == project
                  && c.BudgetEvent? && c.payload.Reserved? && UnderLimit(log, project, c.payload.amount, c.payload.cap)
                  && MoneyHeld(log, project) + c.payload.amount > c.payload.cap
                  && Fits(log, exceeded, project) && x.BudgetEvent? && x.payload.Exceeded?
                  && Justified(log, project, x.actor, x.payload))
  {
    hide Apply, Fold, Ids, WithinApprovedLimit, WouldExceed;
    var c := reserved.entry.content;
    if head.last == |log| {
      HeadAtEnd(log, head, project);
      hide HeadOk;
      if c.BudgetEvent? && c.payload.Reserved? {
        LimitMeans(log, head.fold, project, c.payload.amount, c.payload.cap);
      }
    }
    hide UnderLimit, MoneyHeld, Named;
    AppendsExactly(log, head, reserved, project);
    AppendsExactly(log, head, exceeded, project);
  }

  lemma HeadSurvives(log: Log<Content>, e: Entry, head: Head, project: string)
    requires HeadOk(log, head, project)
    ensures HeadOk(log + [e], head, project)
  {
    hide Fold;
    assert (log + [e])[..head.last] == log[..head.last];
  }

  lemma ExtendKeeps(s: Shared, e: Entry, t: Shared, project: string)
    requires Inv(s, project) && t.log == s.log + [e] && Apply(Fold(s.log, project).value, e.content, project).Ok?
    requires forall pid :: pid in t.heads ==> pid in s.heads && t.heads[pid] == s.heads[pid]
    ensures Inv(t, project)
  {
    assert t.log[..|t.log|-1] == s.log;
    hide Apply;
    forall pid | pid in t.heads
      ensures HeadOk(t.log, t.heads[pid], project)
    {
      HeadSurvives(s.log, e, s.heads[pid], project);
    }
  }

  lemma StepKeeps(s: Shared, a: Action, project: string)
    requires Inv(s, project)
    ensures Inv(Step(s, a, project), project)
  {
    var t := Step(s, a, project);
    if a.Rebuild? {
      hide Fold;
      assert s.log[..|s.log|] == s.log;
    } else if a.OtherWriter? {
      if t.log != s.log { ExtendKeeps(s, a.entry, t, project); }
    } else if a.pid in s.heads {
      var head := s.heads[a.pid];
      assert HeadOk(s.log, head, project);
      if t.log != s.log {
        hide Fold, Apply, Preflight;
        assert s.log[..|s.log|] == s.log;
        var e := t.log[|t.log|-1];
        if a.ReserveCall? { ReserveOrExceedAppendsOne(s.log, head, a.expected, a.reserved, a.exceeded, project); }
        ExtendKeeps(s, e, t, project);
      }
    }
  }

  lemma {:induction false} RunKeeps(s: Shared, actions: seq<Action>, project: string)
    requires Inv(s, project)
    ensures Inv(Run(s, actions, project), project)
    decreases actions
  {
    hide Inv, Step;
    if actions != [] {
      StepKeeps(s, actions[0], project);
      RunKeeps(Step(s, actions[0], project), actions[1..], project);
    }
  }

  /** Over every interleaving of writers: rebuild never fails, every budget event is justified
      by the events before it and only humans set limits while only the system records the
      rest, the committed money is within the largest limit recorded, every cent is accounted
      for, and the project is always within its current limit exactly when no limit below the
      committed money was recorded. */
  lemma BudgetSafety(actions: seq<Action>, project: string)
    ensures var log := Run(INIT, actions, project).log;
            && Fold(log, project).Ok?
            && var f := Fold(log, project).value;
            && FoldOk(f)
            && Committed(f) <= LargestLimit(log, project)
            && (NoLimitBelowCommitted(log, project) ==> WithinCurrentLimit(f))
            && (AlwaysWithinLimit(log, project) <==> NoLimitBelowCommitted(log, project))
            && TotalReserved(log, project) ==
               Outstanding(f.open) + f.consumed + TotalReleased(log, project) + TotalUnspent(log, project)
    ensures var log := Run(INIT, actions, project).log;
            forall i :: 0 <= i < |log| && log[i].content.BudgetEvent? && log[i].content.project == project ==>
              && log[i].content.actor == (if log[i].content.payload.Limit? then Some(Human) else Some(System))
              && Justified(log[..i], project, log[i].content.actor, log[i].content.payload)
  {
    RunKeeps(INIT, actions, project);
    var log := Run(INIT, actions, project).log;
    WhoRecords(log, project);
    hide Run, Fold, Committed, FoldOk, WithinCurrentLimit, NoLimitBelowCommitted, AlwaysWithinLimit;
    AlwaysWithinIff(log, project);
    FoldKeepsFoldOk(log, project);
    CommittedWithinLargestLimit(log, project);
    MoneyIsConserved(log, project);
    if NoLimitBelowCommitted(log, project) {
      CommittedWithinCurrentLimit(log, project);
    }
  }

  // The control as code

  /** One BudgetControl over a shared store. The interference argument of a call is what
      other writers append after the call has rebuilt its fold. */
  class BudgetControl {
    var log: Log<Content>
    const project: string

    constructor (project: string)
      ensures this.project == project && log == []
    {
      this.project := project;
      log := [];
    }

    /** Folds the log up to the frozen head; None when an event does not fold. */
    method Rebuild() returns (head: Option<Head>)
      ensures head == if Fold(log, project).Ok? then Some(Head(|log|, Fold(log, project).value)) else None
    {
      var highWater := |log|;
      var fold := EMPTY;
      for i := 0 to highWater
        invariant Fold(log[..i], project) == Ok(fold)
      {
        assert log[..i+1][..i] == log[..i];
        var next := Apply(fold, log[i].content, project);
        if next.Err? {
          StaysFailed(log, i + 1, project);
          return None;
        }
        fold := next.value;
      }
      assert log[..highWater] == log;
      head := Some(Head(highWater, fold));
    }

    method ReserveOrExceedCall(expected: Option<nat>, reserved: Draft, exceeded: Draft, interference: Log<Content>)
      returns (outcome: Outcome)
      modifies this`log
      ensures var moved := old(log) + interference;
              if Fold(old(log), project).Err? then outcome == Failed && log == moved
              else
                && outcome == ReserveOrExceed(moved, Head(|old(log)|, Fold(old(log), project).value),
                                              expected, reserved, exceeded, project)
                && log == LogAfter(moved, outcome)
    {
      hide Fold, Apply, Preflight, WouldExceed, WithinApprovedLimit;
      var rebuilt := Rebuild();
      log := log + interference;
      if rebuilt.None? {
        return Failed;
      }
      var head := rebuilt.value;
      outcome := Failed;
      if expected.Some? && head.last != expected.value {
        return;
      }
      var c := reserved.entry.content;
      if !Preflight(head, reserved, project) || !c.BudgetEvent? || !c.payload.Reserved? {
        return;
      }
      if WithinApprovedLimit(head.fold, c.payload.amount, c.payload.cap).Some? {
        return;
      }
      if WouldExceed(head.fold, c.payload.amount, c.payload.cap) {
        var x := exceeded.entry.content;
        if !Preflight(head, exceeded, project) || !x.BudgetEvent? || !x.payload.Exceeded? {
          return;
        }
        var next := AppendAt(log, head, exceeded, project);
        if next.Some? {
          log := next.value;
          outcome := BudgetExceeded(log);
        }
        return;
      }
      var next := AppendAt(log, head, reserved, project);
      if next.Some? {
        log := next.value;
        outcome := StoredReservation(log);
      }
    }
  }

  lemma {:induction false} StaysFailed(log: Log<Content>, i: nat, project: string)
    requires i <= |log| && Fold(log[..i], project).Err?
    ensures Fold(log, project).Err?
    decreases |log| - i
  {
    hide Apply;
    if i < |log| {
      assert log[..i+1][..i] == log[..i];
      StaysFailed(log, i + 1, project);
    } else {
      assert log[..i] == log;
    }
  }
}
