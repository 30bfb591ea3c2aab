/** What a valid budget journal is, said of the log alone: for each event, which earlier events
    justify it. A log folds exactly when every event of the project is justified. */
module BudgetJournal {
  import opened Wrappers
  import opened EventLog
  import opened BudgetLedger

  /** The payload of an event of the project, if it is a budget event of it. */
  function PayloadAt(log: Log<Content>, project: string, i: nat): Option<Payload>
    requires i < |log|
  {
    var c := log[i].content;
    if c.BudgetEvent? && c.project == project then Some(c.payload) else None
  }

  predicate Names(p: Payload, id: string)
  {
    (p.Reserved? || p.Consumed? || p.Released? || p.Exceeded?) && p.budgetId == id
  }

  predicate Closes(p: Payload, id: string)
  {
    (p.Consumed? || p.Released? || p.Exceeded?) && p.budgetId == id
  }

  /** Some budget event of the log names the id. */
  ghost predicate Named(log: Log<Content>, project: string, id: string)
  {
    exists i: nat :: i < |log| && PayloadAt(log, project, i).Some? && Names(PayloadAt(log, project, i).value, id)
  }

  ghost predicate Closed(log: Log<Content>, project: string, id: string)
  {
    exists i: nat :: i < |log| && PayloadAt(log, project, i).Some? && Closes(PayloadAt(log, project, i).value, id)
  }

  ghost predicate Recorded(log: Log<Content>, project: string, p: Payload)
  {
    exists i: nat :: i < |log| && PayloadAt(log, project, i) == Some(p)
  }

  function LastLimit(log: Log<Content>, project: string): Option<nat>
  {
    if log == [] then None
    else
      var p := PayloadAt(log, project, |log| - 1);
      if p.Some? && p.value.Limit? then Some(p.value.cap) else LastLimit(log[..|log|-1], project)
  }

  /** Money reserved and neither released nor left over by a consumption. */
  function MoneyHeld(log: Log<Content>, project: string): int
  {
    TotalReserved(log, project) - TotalReleased(log, project) - TotalUnspent(log, project)
  }

  /** A request for nothing needs no limit; any other must name the limit in force. */
  predicate UnderLimit(log: Log<Content>, project: string, amount: nat, cap: nat)
  {
    (amount == 0 && cap == 0) || LastLimit(log, project) == Some(cap)
  }

  ghost predicate Justified(log: Log<Content>, project: string, actor: Option<ActorKind>, p: Payload)
  {
    match p
    case Limit(_) => actor == Some(Human)
    case Reserved(id, _, _, amount, cap) =>
      && actor == Some(System) && !Named(log, project, id)
      && UnderLimit(log, project, amount, cap) && MoneyHeld(log, project) + amount <= cap
    case Consumed(id, call, currency, amount, cap) =>
      && actor == Some(System) && !Closed(log, project, id)
      && exists reserved: nat ::
           amount <= reserved && Recorded(log, project, Reserved(id, call, currency, reserved, cap))
    case Released(id, call, currency, amount, cap) =>
      && actor == Some(System) && !Closed(log, project, id)
      && Recorded(log, project, Reserved(id, call, currency, amount, cap))
    case Exceeded(id, _, _, attempted, cap) =>
      actor == Some(System) && !Named(log, project, id) && UnderLimit(log, project, attempted, cap)
    case Malformed(_) => false
  }

  predicate OfProject(c: Content, project: string)
  {
    c.BudgetEvent? && c.project == project
  }

  ghost predicate JustifiedAt(log: Log<Content>, project: string, k: nat)
    requires k < |log|
  {
    OfProject(log[k].content, project) ==>
      Justified(log[..k], project, log[k].content.actor, log[k].content.payload)
  }

  ghost predicate Journal(log: Log<Content>, project: string)
  {
    forall k: nat :: k < |log| ==> JustifiedAt(log, project, k)
  }

  // One more event

  lemma NamedGrows(log: Log<Content>, e: Entry, project: string, id: string)
    ensures Named(log + [e], project, id) <==>
            Named(log, project, id) || (OfProject(e.content, project) && Names(e.content.payload, id))
    ensures Closed(log + [e], project, id) <==>
            Closed(log, project, id) || (OfProject(e.content, project) && Closes(e.content.payload, id))
  {
    var next := log + [e];
    assert forall i: nat :: i < |log| ==> PayloadAt(next, project, i) == PayloadAt(log, project, i);
    assert PayloadAt(next, project, |log|) == if OfProject(e.content, project) then Some(e.content.payload) else None;
    hide PayloadAt, Names, Closes;
  }

  lemma RecordedGrows(log: Log<Content>, e: Entry, project: string, p: Payload)
    ensures Recorded(log + [e], project, p) <==>
            Recorded(log, project, p) || (OfProject(e.content, project) && e.content.payload == p)
  {
    var next := log + [e];
    assert forall i: nat :: i < |log| ==> PayloadAt(next, project, i) == PayloadAt(log, project, i);
    assert PayloadAt(next, project, |log|) == if OfProject(e.content, project) then Some(e.content.payload) else None;
    hide PayloadAt;
  }

  lemma LimitGrows(log: Log<Content>, e: Entry, project: string)
    ensures LastLimit(log + [e], project) ==
            if OfProject(e.content, project) && e.content.payload.Limit? then Some(e.content.payload.cap)
            else LastLimit(log, project)
  {
    assert (log + [e])[..|log|] == log;
  }

  // What the fold remembers of the log

  function AsPayload(r: OpenReservation): Payload
  {
    Reserved(r.budgetId, r.callId, r.currency, r.amount, r.cap)
  }

  ghost predicate Remembers(f: BudgetFold, log: Log<Content>, project: string)
  {
    && f.approvedCap == LastLimit(log, project)
    && (forall id :: id in f.closed <==> Closed(log, project, id))
    && (forall r :: r in f.open <==> Recorded(log, project, AsPayload(r)) && !Closed(log, project, r.budgetId))
    && (forall id :: Named(log, project, id) <==> id in OpenIds(f.open) || id in f.closed)
  }

  lemma OpenIdsMember(open: seq<OpenReservation>, id: string)
    ensures id in OpenIds(open) <==> exists r :: r in open && r.budgetId == id
  {
    if id in OpenIds(open) {
      var i :| 0 <= i < |open| && open[i].budgetId == id;
      assert open[i] in open;
    }
  }

  lemma {:induction false} WithoutMember(open: seq<OpenReservation>, id: string, r: OpenReservation)
    ensures r in Without(open, id) <==> r in open && r.budgetId != id
  {
    if open != [] {
      var init, last := open[..|open|-1], open[|open|-1];
      WithoutMember(init, id, r);
      assert open == init + [last];
    }
  }

  lemma ReservedIdsRemembered(f: BudgetFold, g: BudgetFold, log: Log<Content>, e: Entry, project: string)
    requires Remembers(f, log, project) && OfProject(e.content, project) && e.content.payload.Reserved?
    requires g.closed == f.closed && OpenIds(g.open) == OpenIds(f.open) + {e.content.payload.budgetId}
    ensures forall id :: id in g.closed <==> Closed(log + [e], project, id)
    ensures forall id :: Named(log + [e], project, id) <==> id in OpenIds(g.open) || id in g.closed
  {
    assert forall id :: Names(e.content.payload, id) <==> id == e.content.payload.budgetId;
    assert forall id :: !Closes(e.content.payload, id);
    hide Named, Closed, Recorded, OpenIds, LastLimit, Names, Closes, AsPayload;
    forall id
      ensures id in g.closed <==> Closed(log + [e], project, id)
      ensures Named(log + [e], project, id) <==> id in OpenIds(g.open) || id in g.closed
    {
      NamedGrows(log, e, project, id);
    }
  }

  lemma ReservedRemembered(
    f: BudgetFold, log: Log<Content>, e: Entry, project: string, r0: OpenReservation, r: OpenReservation)
    requires Remembers(f, log, project) && OfProject(e.content, project)
    requires e.content.payload == AsPayload(r0) && r0.budgetId !in f.closed
    ensures r in f.open + [r0] <==>
            Recorded(log + [e], project, AsPayload(r)) && !Closed(log + [e], project, r.budgetId)
  {
    assert AsPayload(r) == AsPayload(r0) <==> r == r0;
    assert !Closes(e.content.payload, r.budgetId);
    hide Named, Closed, Recorded, OpenIds, LastLimit, Names, Closes, AsPayload;
    RecordedGrows(log, e, project, AsPayload(r));
    NamedGrows(log, e, project, r.budgetId);
  }

  lemma RememberedReserve(f: BudgetFold, log: Log<Content>, e: Entry, project: string)
    requires Remembers(f, log, project) && OfProject(e.content, project) && e.content.payload.Reserved?
    requires ApplyReserved(f, e.content.payload).Ok?
    ensures Remembers(ApplyReserved(f, e.content.payload).value, log + [e], project)
  {
    var p := e.content.payload;
    var r0 := OpenReservation(p.budgetId, p.callId, p.currency, p.amount, p.cap);
    var g := ApplyReserved(f, p).value;
    assert p == AsPayload(r0);
    hide LastLimit, Named, Closed, Recorded, OpenIds, AsPayload;
    assert g == f.(open := f.open + [r0]) && p.budgetId !in f.closed;
    assert OpenIds(g.open) == OpenIds(f.open) + {p.budgetId} by { OpenIdsAppend(f.open, r0); }
    assert g.approvedCap == LastLimit(log + [e], project) by { LimitGrows(log, e, project); }
    hide ApplyReserved;
    ReservedIdsRemembered(f, g, log, e, project);
    forall r
      ensures r in g.open <==> Recorded(log + [e], project, AsPayload(r)) && !Closed(log + [e], project, r.budgetId)
    {
      ReservedRemembered(f, log, e, project, r0, r);
    }
  }

  lemma ClosedIdsRemembered(f: BudgetFold, g: BudgetFold, log: Log<Content>, e: Entry, project: string)
    requires Remembers(f, log, project) && OfProject(e.content, project)
    requires e.content.payload.Consumed? || e.content.payload.Released?
    requires e.content.payload.budgetId in OpenIds(f.open)
    requires OpenIds(g.open) == OpenIds(f.open) - {e.content.payload.budgetId}
    requires g.closed == f.closed + {e.content.payload.budgetId}
    ensures forall id :: id in g.closed <==> Closed(log + [e], project, id)
    ensures forall id :: Named(log + [e], project, id) <==> id in OpenIds(g.open) || id in g.closed
  {
    var known := e.content.payload.budgetId;
    assert forall id :: Names(e.content.payload, id) <==> id == known;
    assert forall id :: Closes(e.content.payload, id) <==> id == known;
    hide Named, Closed, Recorded, OpenIds, LastLimit, Names, Closes, AsPayload;
    forall id
      ensures id in g.closed <==> Closed(log + [e], project, id)
      ensures Named(log + [e], project, id) <==> id in OpenIds(g.open) || id in g.closed
    {
      NamedGrows(log, e, project, id);
    }
  }

  lemma OpenRemembered(f: BudgetFold, log: Log<Content>, e: Entry, project: string, r: OpenReservation)
    requires Remembers(f, log, project) && OfProject(e.content, project)
    requires e.content.payload.Consumed? || e.content.payload.Released?
    ensures r in Without(f.open, e.content.payload.budgetId) <==>
            Recorded(log + [e], project, AsPayload(r)) && !Closed(log + [e], project, r.budgetId)
  {
    var known := e.content.payload.budgetId;
    assert Closes(e.content.payload, r.budgetId) <==> r.budgetId == known;
    assert e.content.payload != AsPayload(r);
    hide Named, Closed, Recorded, OpenIds, LastLimit, Names, Closes, Without;
    RecordedGrows(log, e, project, AsPayload(r));
    NamedGrows(log, e, project, r.budgetId);
    WithoutMember(f.open, known, r);
  }

  lemma RememberedClose(f: BudgetFold, log: Log<Content>, e: Entry, project: string)
    requires Remembers(f, log, project) && FoldOk(f) && OfProject(e.content, project)
    requires e.content.payload.Consumed? || e.content.payload.Released?
    requires CloseReservation(f, e.content.payload).Ok?
    ensures Remembers(CloseReservation(f, e.content.payload).value, log + [e], project)
  {
    var p := e.content.payload;
    var g := CloseReservation(f, p).value;
    hide LastLimit, Named, Closed, Recorded, OpenIds, Without, AsPayload, Find;
    assert g.open == Without(f.open, p.budgetId) && g.closed == f.closed + {p.budgetId};
    assert g.approvedCap == LastLimit(log + [e], project) by { LimitGrows(log, e, project); }
    assert OpenIds(g.open) == OpenIds(f.open) - {p.budgetId} by { WithoutIds(f.open, p.budgetId); }
    assert p.budgetId in OpenIds(f.open);
    hide FoldOk, CloseReservation;
    ClosedIdsRemembered(f, g, log, e, project);
    forall r
      ensures r in g.open <==> Recorded(log + [e], project, AsPayload(r)) && !Closed(log + [e], project, r.budgetId)
    {
      OpenRemembered(f, log, e, project, r);
    }
  }

  lemma RememberedOther(f: BudgetFold, log: Log<Content>, e: Entry, project: string)
    requires Remembers(f, log, project) && FoldOk(f) && Apply(f, e.content, project).Ok?
    requires OfProject(e.content, project) ==> e.content.payload.Exceeded? || e.content.payload.Limit?
    ensures Remembers(Apply(f, e.content, project).value, log + [e], project)
  {
    var g := Apply(f, e.content, project).value;
    LimitGrows(log, e, project);
    var own := OfProject(e.content, project);
    assert g.open == f.open;
    assert g.closed == if own && e.content.payload.Exceeded? then f.closed + {e.content.payload.budgetId} else f.closed;
    assert own && e.content.payload.Exceeded? ==> e.content.payload.budgetId !in OpenIds(f.open);
    assert g.approvedCap == if own && e.content.payload.Limit? then Some(e.content.payload.cap) else f.approvedCap;
    hide LastLimit, Named, Closed, Recorded, FoldOk, Apply, OpenIds;
    forall id
      ensures id in g.closed <==> Closed(log + [e], project, id)
      ensures Named(log + [e], project, id) <==> id in OpenIds(g.open) || id in g.closed
    {
      NamedGrows(log, e, project, id);
    }
    forall r
      ensures r in g.open <==> Recorded(log + [e], project, AsPayload(r)) && !Closed(log + [e], project, r.budgetId)
    {
      RecordedGrows(log, e, project, AsPayload(r));
      NamedGrows(log, e, project, r.budgetId);
      if r in f.open {
        OpenIdsMember(f.open, r.budgetId);
      }
    }
  }

  lemma RememberedStep(f: BudgetFold, log: Log<Content>, e: Entry, project: string)
    requires Remembers(f, log, project) && FoldOk(f) && Apply(f, e.content, project).Ok?
    ensures Remembers(Apply(f, e.content, project).value, log + [e], project)
  {
    hide Remembers, FoldOk, ApplyReserved, CloseReservation;
    if OfProject(e.content, project) && e.content.payload.Reserved? {
      RememberedReserve(f, log, e, project);
    } else if OfProject(e.content, project) && (e.content.payload.Consumed? || e.content.payload.Released?) {
      RememberedClose(f, log, e, project);
    } else {
      RememberedOther(f, log, e, project);
    }
  }

  lemma {:induction false} FoldRemembers(log: Log<Content>, project: string)
    requires Fold(log, project).Ok?
    ensures Remembers(Fold(log, project).value, log, project)
  {
    if log == [] {
      assert OpenIds([]) == {};
    } else {
      var init, e := log[..|log|-1], log[|log|-1];
      FoldRemembers(init, project);
      FoldKeepsFoldOk(init, project);
      hide Remembers, Apply;
      RememberedStep(Fold(init, project).value, init, e, project);
      assert init + [e] == log;
    }
  }

  // A fold takes an event exactly when the log justifies it

  lemma HeldIsCommitted(log: Log<Content>, project: string)
    requires Fold(log, project).Ok?
    ensures MoneyHeld(log, project) == Committed(Fold(log, project).value)
  {
    MoneyIsConserved(log, project);
  }

  lemma CloseJustified(f: BudgetFold, log: Log<Content>, project: string, p: Payload)
    requires Remembers(f, log, project) && FoldOk(f) && (p.Consumed? || p.Released?)
    ensures CloseReservation(f, p).Ok? <==> Justified(log, project, Some(System), p)
  {
    hide LastLimit, Named, Closed, Recorded, OpenIds;
    if f.closed !! {p.budgetId} {
      OpenIdsMember(f.open, p.budgetId);
      var current := Find(f.open, p.budgetId);
      if current.Some? {
        var r := current.value;
        assert Recorded(log, project, AsPayload(r));
        forall amount: nat | Recorded(log, project, Reserved(p.budgetId, p.callId, p.currency, amount, p.cap))
          ensures r == OpenReservation(p.budgetId, p.callId, p.currency, amount, p.cap)
        {
          OpenIsUnique(f.open, r, OpenReservation(p.budgetId, p.callId, p.currency, amount, p.cap));
        }
      } else {
        forall amount: nat
          ensures !Recorded(log, project, Reserved(p.budgetId, p.callId, p.currency, amount, p.cap))
        {
          var r := OpenReservation(p.budgetId, p.callId, p.currency, amount, p.cap);
          assert r !in f.open;
          assert AsPayload(r) == Reserved(p.budgetId, p.callId, p.currency, amount, p.cap);
        }
      }
    }
  }

  lemma OpenIsUnique(open: seq<OpenReservation>, r: OpenReservation, q: OpenReservation)
    requires DistinctIds(open) && r in open && q in open && r.budgetId == q.budgetId
    ensures r == q
  {
    var i :| 0 <= i < |open| && open[i] == r;
    var j :| 0 <= j < |open| && open[j] == q;
  }

  lemma PayloadJustified(f: BudgetFold, log: Log<Content>, project: string, actor: Option<ActorKind>, p: Payload)
    requires Remembers(f, log, project) && FoldOk(f) && MoneyHeld(log, project) == Committed(f)
    ensures RequireActor(actor, p).None? && ApplyPayload(f, p).Ok? <==> Justified(log, project, actor, p)
  {
    hide LastLimit, Named, Closed, Recorded, OpenIds, MoneyHeld, Committed;
    if p.Consumed? || p.Released? {
      CloseJustified(f, log, project, p);
      hide CloseReservation, Remembers;
    }
  }

  lemma EventJustified(log: Log<Content>, e: Entry, project: string)
    requires Fold(log, project).Ok?
    ensures Fold(log + [e], project).Ok? <==>
            (OfProject(e.content, project) ==> Justified(log, project, e.content.actor, e.content.payload))
  {
    assert (log + [e])[..|log|] == log;
    FoldRemembers(log, project);
    FoldKeepsFoldOk(log, project);
    HeldIsCommitted(log, project);
    if OfProject(e.content, project) {
      PayloadJustified(Fold(log, project).value, log, project, e.content.actor, e.content.payload);
    }
    hide Justified, Remembers, FoldOk, ApplyPayload, RequireActor;
  }

  /** A log folds exactly when every budget event of the project is justified by the events
      before it: who recorded it, that its id is new or matches an open reservation in call,
      currency, cap and amount, and that it names the limit in force and stays under it. */
  lemma {:induction false} FoldsExactly(log: Log<Content>, project: string)
    ensures Fold(log, project).Ok? <==> Journal(log, project)
  {
    if log != [] {
      var init, e := log[..|log|-1], log[|log|-1];
      FoldsExactly(init, project);
      assert log == init + [e];
      JournalGrows(init, e, project);
      if Fold(init, project).Ok? {
        EventJustified(init, e, project);
      }
      hide Journal, Justified, Apply;
    }
  }

  /** In every log that folds, a human recorded each limit and the system everything else. */
  lemma WhoRecords(log: Log<Content>, project: string)
    requires Fold(log, project).Ok?
    ensures forall i :: 0 <= i < |log| && log[i].content.BudgetEvent? && log[i].content.project == project ==>
              && log[i].content.actor == (if log[i].content.payload.Limit? then Some(Human) else Some(System))
              && Justified(log[..i], project, log[i].content.actor, log[i].content.payload)
  {
    FoldsExactly(log, project);
    hide Fold, Named, Recorded, UnderLimit, MoneyHeld;
    forall i | 0 <= i < |log| && log[i].content.BudgetEvent? && log[i].content.project == project
      ensures && log[i].content.actor == (if log[i].content.payload.Limit? then Some(Human) else Some(System))
              && Justified(log[..i], project, log[i].content.actor, log[i].content.payload)
    {
      assert JustifiedAt(log, project, i);
    }
  }

  lemma JournalGrows(log: Log<Content>, e: Entry, project: string)
    ensures Journal(log + [e], project) <==>
            && Journal(log, project)
            && (OfProject(e.content, project) ==> Justified(log, project, e.content.actor, e.content.payload))
  {
    var next := log + [e];
    hide Justified;
    assert next[..|log|] == log && next[|log|] == e;
    assert forall k: nat :: k < |log| ==> next[..k] == log[..k] && next[k] == log[k];
    assert JustifiedAt(next, project, |log|) <==>
           (OfProject(e.content, project) ==> Justified(log, project, e.content.actor, e.content.payload));
    forall k: nat | k < |log|
      ensures JustifiedAt(next, project, k) <==> JustifiedAt(log, project, k)
    {
    }
  }
}
