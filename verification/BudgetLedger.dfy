/** The budget fold over a project's event log, in cents, with its limits and its
    conservation law. */
module BudgetLedger {
  import opened Wrappers
  import opened EventLog

  datatype ActorKind = Human | Ai | System | Policy

  /** A budget payload; Malformed is one its payload model rejects. */
  datatype Payload =
    | Reserved(budgetId: string, callId: string, currency: string, amount: nat, cap: nat)
    | Consumed(budgetId: string, callId: string, currency: string, amount: nat, cap: nat)
    | Released(budgetId: string, callId: string, currency: string, amount: nat, cap: nat)
    | Exceeded(budgetId: string, callId: string, currency: string, attempted: nat, cap: nat)
    | Limit(cap: nat)
    | Malformed(limitType: bool)

  datatype Content =
    | OtherEvent(project: string)
    | BudgetEvent(project: string, actor: Option<ActorKind>, payload: Payload)

  type Entry = Event<Content>

  datatype OpenReservation = OpenReservation(budgetId: string, callId: string, currency: string, amount: nat, cap: nat)

  datatype BudgetFold = BudgetFold(
    open: seq<OpenReservation>,
    closed: set<string>,
    consumed: nat,
    approvedCap: Option<nat>)

  const EMPTY := BudgetFold([], {}, 0, None)

  datatype Fault =
    | ActorKindRequired | ActorKindForbidden | InvalidPayload
    | DuplicateBudgetId | LimitMissing | LimitMismatch | ReservationExceedsCap
    | OrphanBudgetId | ReservationMismatch | ConsumeExceedsReserve

  datatype Result<T> = Ok(value: T) | Err(fault: Fault)

  function Outstanding(open: seq<OpenReservation>): nat
  {
    if open == [] then 0 else Outstanding(open[..|open|-1]) + open[|open|-1].amount
  }

  function OpenIds(open: seq<OpenReservation>): set<string>
  {
    set i | 0 <= i < |open| :: open[i].budgetId
  }

  /** Money spent or promised. */
  function Committed(f: BudgetFold): nat
  {
    f.consumed + Outstanding(f.open)
  }

  // The fold

  function RequireActor(actor: Option<ActorKind>, payload: Payload): Option<Fault>
  {
    var allowed := if payload.Limit? || (payload.Malformed? && payload.limitType) then Human else System;
    if actor.None? then Some(ActorKindRequired)
    else if actor.value != allowed then Some(ActorKindForbidden)
    else None
  }

  function WithinApprovedLimit(f: BudgetFold, requested: nat, cap: nat): Option<Fault>
  {
    if cap == 0 && requested == 0 then None
    else if f.approvedCap.None? then Some(LimitMissing)
    else if cap != f.approvedCap.value then Some(LimitMismatch)
    else None
  }

  predicate WouldExceed(f: BudgetFold, requested: nat, cap: nat)
  {
    Committed(f) + requested > cap
  }

  function ApplyReserved(f: BudgetFold, p: Payload): Result<BudgetFold>
    requires p.Reserved?
  {
    if p.budgetId in OpenIds(f.open) + f.closed then Err(DuplicateBudgetId)
    else
      var refusal := WithinApprovedLimit(f, p.amount, p.cap);
      if refusal.Some? then Err(refusal.value)
      else if WouldExceed(f, p.amount, p.cap) then Err(ReservationExceedsCap)
      else Ok(f.(open := f.open + [OpenReservation(p.budgetId, p.callId, p.currency, p.amount, p.cap)]))
  }

  function Find(open: seq<OpenReservation>, id: string): (r: Option<OpenReservation>)
    ensures r.Some? <==> id in OpenIds(open)
    ensures r.Some? ==> r.value in open && r.value.budgetId == id
  {
    if open == [] then None
    else if open[0].budgetId == id then Some(open[0])
    else
      assert open == [open[0]] + open[1..];
      assert forall i :: 0 < i < |open| ==> open[i] == open[1..][i-1];
      assert forall i :: 0 <= i < |open[1..]| ==> open[1..][i] == open[i+1];
      Find(open[1..], id)
  }

  function Without(open: seq<OpenReservation>, id: string): seq<OpenReservation>
  {
    if open == [] then []
    else
      var rest := Without(open[..|open|-1], id);
      if open[|open|-1].budgetId == id then rest else rest + [open[|open|-1]]
  }

  /** Consumption closes a reservation for at most its amount, release for exactly it. */
  function CloseReservation(f: BudgetFold, p: Payload): Result<BudgetFold>
    requires p.Consumed? || p.Released?
  {
    if p.budgetId in f.closed then Err(DuplicateBudgetId)
    else
      var current := Find(f.open, p.budgetId);
      if current.None? then Err(OrphanBudgetId)
      else if p.callId != current.value.callId || p.currency != current.value.currency || p.cap != current.value.cap
      then Err(ReservationMismatch)
      else if p.Consumed? && p.amount > current.value.amount then Err(ConsumeExceedsReserve)
      else if p.Released? && p.amount != current.value.amount then Err(ReservationMismatch)
      else Ok(BudgetFold(
                Without(f.open, p.budgetId),
                f.closed + {p.budgetId},
                if p.Consumed? then f.consumed + p.amount else f.consumed,
                f.approvedCap))
  }

  function ApplyExceeded(f: BudgetFold, p: Payload): Result<BudgetFold>
    requires p.Exceeded?
  {
    if p.budgetId in OpenIds(f.open) + f.closed then Err(DuplicateBudgetId)
    else
      var refusal := WithinApprovedLimit(f, p.attempted, p.cap);
      if refusal.Some? then Err(refusal.value) else Ok(f.(closed := f.closed + {p.budgetId}))
  }

  function ApplyPayload(f: BudgetFold, p: Payload): Result<BudgetFold>
  {
    match p
    case Reserved(_, _, _, _, _) => ApplyReserved(f, p)
    case Consumed(_, _, _, _, _) => CloseReservation(f, p)
    case Released(_, _, _, _, _) => CloseReservation(f, p)
    case Exceeded(_, _, _, _, _) => ApplyExceeded(f, p)
    case Limit(cap) => Ok(f.(approvedCap := Some(cap)))
    case Malformed(_) => Err(InvalidPayload)
  }

  predicate Relevant(c: Content, project: string) { c.BudgetEvent? && c.project == project }

  function Apply(f: BudgetFold, c: Content, project: string): Result<BudgetFold>
  {
    if !Relevant(c, project) then Ok(f)
    else
      var refusal := RequireActor(c.actor, c.payload);
      if refusal.Some? then Err(refusal.value) else ApplyPayload(f, c.payload)
  }

  /** The fold of a whole log, or the first fault met. */
  function Fold(log: Log<Content>, project: string): Result<BudgetFold>
  {
    if log == [] then Ok(EMPTY)
    else
      var before := Fold(log[..|log|-1], project);
      if before.Err? then before else Apply(before.value, log[|log|-1].content, project)
  }

  // Reservations are disjoint from closed ids, and money is counted once

  predicate DistinctIds(open: seq<OpenReservation>)
  {
    forall i, j :: 0 <= i < j < |open| ==> open[i].budgetId != open[j].budgetId
  }

  predicate FoldOk(f: BudgetFold)
  {
    DistinctIds(f.open) && OpenIds(f.open) !! f.closed
  }

  lemma OpenIdsAppend(open: seq<OpenReservation>, r: OpenReservation)
    ensures OpenIds(open + [r]) == OpenIds(open) + {r.budgetId}
    ensures DistinctIds(open + [r]) <==> DistinctIds(open) && r.budgetId !in OpenIds(open)
    ensures Outstanding(open + [r]) == Outstanding(open) + r.amount
  {
    var next := open + [r];
    assert next[|open|] == r && next[..|open|] == open;
    assert forall i :: 0 <= i < |open| ==> next[i] == open[i];
    assert forall i :: 0 <= i < |open| ==> open[i].budgetId in OpenIds(open);
  }

  lemma LastApart(open: seq<OpenReservation>)
    requires open != []
    ensures open == open[..|open|-1] + [open[|open|-1]]
  {
  }

  lemma {:induction false} WithoutIds(open: seq<OpenReservation>, id: string)
    requires DistinctIds(open)
    ensures DistinctIds(Without(open, id)) && OpenIds(Without(open, id)) == OpenIds(open) - {id}
    ensures forall r :: r in Without(open, id) ==> r in open
  {
    hide DistinctIds, OpenIds;
    if open != [] {
      var init, last := open[..|open|-1], open[|open|-1];
      LastApart(open);
      OpenIdsAppend(init, last);
      WithoutIds(init, id);
      OpenIdsAppend(Without(init, id), last);
    } else {
      assert OpenIds(open) == OpenIds(open) - {id} by { EmptyIds(); }
    }
  }

  lemma EmptyIds()
    ensures OpenIds([]) == {}
  {
  }

  lemma {:induction false} WithoutAbsent(open: seq<OpenReservation>, id: string)
    requires id !in OpenIds(open)
    ensures Without(open, id) == open
  {
    hide OpenIds;
    if open != [] {
      LastApart(open);
      OpenIdsAppend(open[..|open|-1], open[|open|-1]);
      WithoutAbsent(open[..|open|-1], id);
    }
  }

  lemma {:induction false} WithoutOutstanding(open: seq<OpenReservation>, r: OpenReservation)
    requires DistinctIds(open) && r in open
    ensures Outstanding(Without(open, r.budgetId)) + r.amount == Outstanding(open)
  {
    var init, last := open[..|open|-1], open[|open|-1];
    LastApart(open);
    OpenIdsAppend(init, last);
    if r == last {
      WithoutAbsent(init, r.budgetId);
    } else {
      var i :| 0 <= i < |init| && init[i] == r;
      assert r.budgetId in OpenIds(init);
      hide OpenIds, DistinctIds;
      WithoutOutstanding(init, r);
      OpenIdsAppend(Without(init, r.budgetId), last);
    }
  }

  /** Every applied event keeps ids distinct and open apart from closed. */
  lemma ApplyKeepsFoldOk(f: BudgetFold, c: Content, project: string)
    requires FoldOk(f) && Apply(f, c, project).Ok?
    ensures FoldOk(Apply(f, c, project).value)
    ensures f.closed <= Apply(f, c, project).value.closed
  {
    if Relevant(c, project) {
      var p := c.payload;
      hide DistinctIds, OpenIds, Outstanding;
      if p.Reserved? {
        OpenIdsAppend(f.open, OpenReservation(p.budgetId, p.callId, p.currency, p.amount, p.cap));
      } else if p.Consumed? || p.Released? {
        WithoutIds(f.open, p.budgetId);
      }
    }
  }

  lemma {:induction false} FoldKeepsFoldOk(log: Log<Content>, project: string)
    requires Fold(log, project).Ok?
    ensures FoldOk(Fold(log, project).value)
  {
    hide Apply, FoldOk;
    if log == [] {
      EmptyFoldOk();
    } else {
      FoldKeepsFoldOk(log[..|log|-1], project);
      ApplyKeepsFoldOk(Fold(log[..|log|-1], project).value, log[|log|-1].content, project);
    }
  }

  lemma EmptyFoldOk()
    ensures FoldOk(EMPTY)
  {
  }

  /** Lifecycle: in a log that folds, a closed id stays closed and is never open again. */
  lemma {:induction false} NoIdReopens(log: Log<Content>, more: Log<Content>, project: string)
    requires Fold(log + more, project).Ok?
    ensures Fold(log, project).Ok?
    ensures var f, g := Fold(log, project).value, Fold(log + more, project).value;
            f.closed <= g.closed && OpenIds(g.open) !! f.closed
    decreases more
  {
    FoldKeepsFoldOk(log + more, project);
    if more == [] {
      assert log + more == log;
    } else {
      var init := more[..|more|-1];
      assert (log + more)[..|log + more|-1] == log + init;
      NoIdReopens(log, init, project);
      FoldKeepsFoldOk(log + init, project);
      ApplyKeepsFoldOk(Fold(log + init, project).value, more[|more|-1].content, project);
    }
  }

  // Safety against the recorded limits

  function MaxNat(a: nat, b: nat): nat { if a < b then b else a }

  /** The largest project limit recorded in a log; zero when there is none. */
  function LargestLimit(log: Log<Content>, project: string): nat
  {
    if log == [] then 0
    else
      var before, c := LargestLimit(log[..|log|-1], project), log[|log|-1].content;
      if Relevant(c, project) && c.payload.Limit? then MaxNat(before, c.payload.cap) else before
  }

  /** The most a reservation may bring the committed money to. */
  function Roof(f: BudgetFold): nat
  {
    if f.approvedCap.Some? then MaxNat(f.approvedCap.value, Committed(f)) else Committed(f)
  }

  /** What one applied event does to the committed money. */
  lemma CommittedStep(f: BudgetFold, c: Content, project: string)
    requires FoldOk(f) && Apply(f, c, project).Ok?
    ensures var g := Apply(f, c, project).value;
            if Relevant(c, project) && c.payload.Reserved? then
              && Committed(g) == Committed(f) + c.payload.amount && g.approvedCap == f.approvedCap
              && Committed(g) <= Roof(f)
            else Committed(g) <= Committed(f)
    ensures var g := Apply(f, c, project).value;
            g.approvedCap == if Relevant(c, project) && c.payload.Limit? then Some(c.payload.cap) else f.approvedCap
  {
    if Relevant(c, project) {
      MoneyMoves(f, c.payload);
      hide FoldOk, OpenIds, Outstanding, ApplyReserved, CloseReservation, ApplyExceeded;
    }
  }

  /** What a payload does to the open and consumed money and to the limit. */
  lemma MoneyMoves(f: BudgetFold, p: Payload)
    requires FoldOk(f) && ApplyPayload(f, p).Ok?
    ensures var g := ApplyPayload(f, p).value;
            g.approvedCap == if p.Limit? then Some(p.cap) else f.approvedCap
    ensures var g := ApplyPayload(f, p).value;
            if p.Reserved? then
              && Outstanding(g.open) == Outstanding(f.open) + p.amount && g.consumed == f.consumed
              && Committed(g) <= Roof(f)
            else if p.Consumed? || p.Released? then
              && Find(f.open, p.budgetId).Some?
              && var r := Find(f.open, p.budgetId).value;
              && Outstanding(g.open) + r.amount == Outstanding(f.open)
              && p.amount <= r.amount && (p.Released? ==> p.amount == r.amount)
              && g.consumed == f.consumed + if p.Consumed? then p.amount else 0
            else Outstanding(g.open) == Outstanding(f.open) && g.consumed == f.consumed
  {
    if p.Reserved? {
      hide OpenIds, Outstanding;
      OpenIdsAppend(f.open, OpenReservation(p.budgetId, p.callId, p.currency, p.amount, p.cap));
    } else if p.Consumed? || p.Released? {
      hide OpenIds, Outstanding;
      WithoutOutstanding(f.open, Find(f.open, p.budgetId).value);
    }
  }

  /** In every log that folds, the committed money never exceeds the largest limit recorded. */
  lemma {:induction false} CommittedWithinLargestLimit(log: Log<Content>, project: string)
    requires Fold(log, project).Ok?
    ensures var f := Fold(log, project).value;
            && Committed(f) <= LargestLimit(log, project)
            && (f.approvedCap.Some? ==> f.approvedCap.value <= LargestLimit(log, project))
  {
    hide Apply, Committed;
    if log == [] {
      EmptyCommitted();
    } else {
      var init, c := log[..|log|-1], log[|log|-1].content;
      CommittedWithinLargestLimit(init, project);
      FoldKeepsFoldOk(init, project);
      CommittedStep(Fold(init, project).value, c, project);
    }
  }

  lemma EmptyCommitted()
    ensures Committed(EMPTY) == 0
  {
  }

  predicate WithinCurrentLimit(f: BudgetFold)
  {
    if f.approvedCap.Some? then Committed(f) <= f.approvedCap.value else Committed(f) == 0
  }

  /** No limit was recorded below the money committed at that moment. */
  predicate NoLimitBelowCommitted(log: Log<Content>, project: string)
  {
    log != [] ==>
      var init, c := log[..|log|-1], log[|log|-1].content;
      && NoLimitBelowCommitted(init, project)
      && (Relevant(c, project) && c.payload.Limit? && Fold(init, project).Ok? ==>
            Committed(Fold(init, project).value) <= c.payload.cap)
  }

  /** Then the committed money stays within the current limit. */
  lemma {:induction false} CommittedWithinCurrentLimit(log: Log<Content>, project: string)
    requires Fold(log, project).Ok? && NoLimitBelowCommitted(log, project)
    ensures WithinCurrentLimit(Fold(log, project).value)
  {
    hide Apply, Committed;
    if log == [] {
      EmptyCommitted();
    } else {
      var init, c := log[..|log|-1], log[|log|-1].content;
      CommittedWithinCurrentLimit(init, project);
      FoldKeepsFoldOk(init, project);
      CommittedStep(Fold(init, project).value, c, project);
      if Relevant(c, project) && c.payload.Limit? {
        LimitKeepsCommitted(Fold(init, project).value, c, project);
      }
    }
  }

  /** At every head of the log the project is within the limit then in force. */
  predicate AlwaysWithinLimit(log: Log<Content>, project: string)
  {
    && (log != [] ==> AlwaysWithinLimit(log[..|log|-1], project))
    && Fold(log, project).Ok? && WithinCurrentLimit(Fold(log, project).value)
  }

  /** Exactly when: a project is always within its limit if and only if no limit below the
      money committed at that moment was recorded. */
  lemma {:induction false} AlwaysWithinIff(log: Log<Content>, project: string)
    requires Fold(log, project).Ok?
    ensures AlwaysWithinLimit(log, project) <==> NoLimitBelowCommitted(log, project)
  {
    if log == [] {
      EmptyCommitted();
    } else {
      var init, c := log[..|log|-1], log[|log|-1].content;
      AlwaysWithinIff(init, project);
      hide Apply, Committed, WithinCurrentLimit;
      if NoLimitBelowCommitted(log, project) {
        CommittedWithinCurrentLimit(log, project);
      } else if Relevant(c, project) && c.payload.Limit? {
        LimitKeepsCommitted(Fold(init, project).value, c, project);
      }
    }
  }

  /** Recording a limit leaves the committed money alone, so the project is within its new
      limit exactly when the limit is not below it. */
  lemma LimitKeepsCommitted(f: BudgetFold, c: Content, project: string)
    requires Relevant(c, project) && c.payload.Limit? && Apply(f, c, project).Ok?
    ensures var g := Apply(f, c, project).value;
            && Committed(g) == Committed(f)
            && (WithinCurrentLimit(g) <==> Committed(f) <= c.payload.cap)
  {
  }

  /** A limit below the committed money is accepted, and then the project is over it. */
  lemma LoweredLimitIsExceeded()
    ensures var limit := (cap: nat) => BudgetEvent("p", Some(Human), Limit(cap));
            var log := [Event("1", limit(100)),
                        Event("2", BudgetEvent("p", Some(System), Reserved("b", "c", "CNY", 80, 100))),
                        Event("3", limit(50))];
            Fold(log, "p").Ok? && !WithinCurrentLimit(Fold(log, "p").value)
  {
    var e1: Entry := Event("1", BudgetEvent("p", Some(Human), Limit(100)));
    var e2: Entry := Event("2", BudgetEvent("p", Some(System), Reserved("b", "c", "CNY", 80, 100)));
    var e3: Entry := Event("3", BudgetEvent("p", Some(Human), Limit(50)));
    var r := OpenReservation("b", "c", "CNY", 80, 100);
    OpenIdsAppend([], r);
    assert [] + [r] == [r];
    assert [e1][..0] == [] && [e1, e2][..1] == [e1] && [e1, e2, e3][..2] == [e1, e2];
    assert Fold([e1], "p") == Ok(BudgetFold([], {}, 0, Some(100)));
    assert Fold([e1, e2], "p") == Ok(BudgetFold([r], {}, 0, Some(100)));
    assert Fold([e1, e2, e3], "p") == Ok(BudgetFold([r], {}, 0, Some(50)));
  }

  // Conservation

  function TotalReserved(log: Log<Content>, project: string): nat
  {
    if log == [] then 0
    else
      var before, c := TotalReserved(log[..|log|-1], project), log[|log|-1].content;
      if Relevant(c, project) && c.payload.Reserved? then before + c.payload.amount else before
  }

  function TotalConsumed(log: Log<Content>, project: string): nat
  {
    if log == [] then 0
    else
      var before, c := TotalConsumed(log[..|log|-1], project), log[|log|-1].content;
      if Relevant(c, project) && c.payload.Consumed? then before + c.payload.amount else before
  }

  function TotalReleased(log: Log<Content>, project: string): nat
  {
    if log == [] then 0
    else
      var before, c := TotalReleased(log[..|log|-1], project), log[|log|-1].content;
      if Relevant(c, project) && c.payload.Released? then before + c.payload.amount else before
  }

  /** The amount last reserved in a log under a budget id. */
  function ReservedAmount(log: Log<Content>, project: string, id: string): nat
  {
    if log == [] then 0
    else
      var c := log[|log|-1].content;
      if Relevant(c, project) && c.payload.Reserved? && c.payload.budgetId == id then c.payload.amount
      else ReservedAmount(log[..|log|-1], project, id)
  }

  /** What consumption left of each reservation it closed. */
  function TotalUnspent(log: Log<Content>, project: string): int
  {
    if log == [] then 0
    else
      var init, c := log[..|log|-1], log[|log|-1].content;
      var before := TotalUnspent(init, project);
      if Relevant(c, project) && c.payload.Consumed?
      then before + ReservedAmount(init, project, c.payload.budgetId) - c.payload.amount
      else before
  }

  ghost predicate AmountsOk(f: BudgetFold, log: Log<Content>, project: string)
  {
    forall r :: r in f.open ==> ReservedAmount(log, project, r.budgetId) == r.amount
  }

  lemma AmountsStep(log: Log<Content>, project: string)
    requires log != [] && Fold(log, project).Ok?
    requires AmountsOk(Fold(log[..|log|-1], project).value, log[..|log|-1], project)
    ensures AmountsOk(Fold(log, project).value, log, project)
  {
    var init, c := log[..|log|-1], log[|log|-1].content;
    var f, g := Fold(init, project).value, Fold(log, project).value;
    FoldKeepsFoldOk(init, project);
    if Relevant(c, project) {
      var p := c.payload;
      forall r | r in g.open
        ensures ReservedAmount(log, project, r.budgetId) == r.amount
      {
        if p.Reserved? {
          if r in f.open {
            var i :| 0 <= i < |f.open| && f.open[i] == r;
            assert r.budgetId in OpenIds(f.open);
          }
        } else if p.Consumed? || p.Released? {
          WithoutIds(f.open, p.budgetId);
        }
      }
    }
  }

  /** Conservation: every reserved cent is outstanding, consumed, released or unspent. */
  lemma {:induction false} MoneyIsConserved(log: Log<Content>, project: string)
    requires Fold(log, project).Ok?
    ensures var f := Fold(log, project).value;
            && TotalReserved(log, project) ==
               Outstanding(f.open) + f.consumed + TotalReleased(log, project) + TotalUnspent(log, project)
            && f.consumed == TotalConsumed(log, project)
            && TotalUnspent(log, project) >= 0
            && AmountsOk(f, log, project)
  {
    if log != [] {
      var init, c := log[..|log|-1], log[|log|-1].content;
      MoneyIsConserved(init, project);
      FoldKeepsFoldOk(init, project);
      AmountsStep(log, project);
      ConservationStep(Fold(init, project).value, init, c, project);
    }
  }

  lemma ConservationStep(f: BudgetFold, init: Log<Content>, c: Content, project: string)
    requires FoldOk(f) && AmountsOk(f, init, project) && Apply(f, c, project).Ok?
    ensures var g := Apply(f, c, project).value;
            if !Relevant(c, project) then g == f
            else
              var p := c.payload;
              if p.Reserved? then Outstanding(g.open) == Outstanding(f.open) + p.amount && g.consumed == f.consumed
              else if p.Consumed? then
                && g.consumed == f.consumed + p.amount && p.amount <= ReservedAmount(init, project, p.budgetId)
                && Outstanding(g.open) + ReservedAmount(init, project, p.budgetId) == Outstanding(f.open)
              else if p.Released? then Outstanding(g.open) + p.amount == Outstanding(f.open) && g.consumed == f.consumed
              else Outstanding(g.open) == Outstanding(f.open) && g.consumed == f.consumed
  {
    if Relevant(c, project) {
      MoneyMoves(f, c.payload);
      hide FoldOk, OpenIds, Outstanding, ApplyReserved, CloseReservation, ApplyExceeded, ReservedAmount;
    }
  }
}
