/** The answer of every operation on the revision store and its inbox, with its exact condition
    in terms of the writes stored so far and the tasks asked so far. */
module DashboardAnswers {
  import opened Wrappers
  import opened DashboardMap
  import opened DashboardEdits
  import opened DashboardStore

  /** One of the last thirty stored writes has the request id. */
  predicate HeldAt(history: seq<Entry>, id: string, k: nat)
  {
    0 < k <= |history| && |history| - k < 30 && history[k - 1].request.requestId == id
  }

  ghost predicate Held(history: seq<Entry>, id: string)
  {
    exists k: nat :: HeldAt(history, id, k)
  }

  lemma HeldIsHolding(cfg: Config, s: State, id: string, k: nat)
    requires Inv(cfg, s)
    ensures HeldAt(s.history, id, k) <==> HoldsRequest(s.rows, id, k)
  {
    hide HistoryOk, TasksOk;
    assert k in s.rows <==> Retained(|s.history|, k);
  }

  lemma UnusedIsNotHeld(cfg: Config, s: State, id: string)
    requires Inv(cfg, s)
    ensures Unused(s.rows, id) <==> !Held(s.history, id)
  {
    forall k: nat
      ensures HeldAt(s.history, id, k) <==> HoldsRequest(s.rows, id, k)
    {
      HeldIsHolding(cfg, s, id, k);
    }
    hide Inv, HeldAt, HoldsRequest;
  }

  predicate Sendable(cfg: Config, w: Write)
  {
    w.project == cfg.project && cfg.size(w) <= 1047552
  }

  /** The write names the newest revision, and passes the edit check there if an Agent wrote it. */
  ghost predicate MayLand(history: seq<Entry>, w: Write)
  {
    && w.expectedRevision == |history|
    && (w.authorKind == AgentAuthor ==> EditAllowed(StateAt(history, |history|), w.state, w.scope))
  }

  /** Refusals that look at the write alone. */
  lemma WriteRefusedOutright(cfg: Config, s: State, w: Write, now: string)
    ensures WriteEffect(cfg, s.rows, w, now) == Refused(ForeignProject) <==> w.project != cfg.project
    ensures WriteEffect(cfg, s.rows, w, now) == Refused(TooLarge) <==>
            w.project == cfg.project && cfg.size(w) > 1047552
  {
    hide EditAllowed, CurrentDocument, Prune, HoldsRequest;
  }

  /** What any other write is answered, and what it leaves in the table. */
  lemma WriteAnswers(cfg: Config, s: State, w: Write, now: string)
    requires Inv(cfg, s) && Sendable(cfg, w)
    ensures var outcome, n := WriteEffect(cfg, s.rows, w, now), |s.history|;
            && (Held(s.history, w.requestId) <==> outcome.Replayed? || outcome == Refused(IdentityReused))
            && (outcome.Stored? <==> !Held(s.history, w.requestId) && MayLand(s.history, w))
            && (outcome == Refused(RevisionConflict) <==> !Held(s.history, w.requestId) && w.expectedRevision != n)
            && (outcome.Stored? ==>
                  && outcome.document == Document(cfg.project, n + 1, w.state, w.author, w.authorKind, Some(now))
                  && n + 1 in outcome.rows
                  && outcome.rows[n + 1] == Row(w.requestId, cfg.digest(w), outcome.document)
                  && (forall k: nat :: k in outcome.rows <==> k == n + 1 || (k in s.rows && n + 1 - k < 30))
                  && (forall k: nat :: k in outcome.rows && k != n + 1 ==> outcome.rows[k] == s.rows[k]))
  {
    CurrentOfHistory(cfg, s.rows, s.history);
    UnusedIsNotHeld(cfg, s, w.requestId);
    WriteCases(cfg, s.rows, w, now);
    NewIsAbsent(cfg, s);
    hide Inv, EditAllowed, CurrentDocument, Held, HoldsRequest;
  }

  lemma NewIsAbsent(cfg: Config, s: State)
    requires Inv(cfg, s)
    ensures |s.history| + 1 !in s.rows
  {
    hide HistoryOk, TasksOk;
    assert !Retained(|s.history|, |s.history| + 1);
  }

  /** A held id answers with its own revision for the same request, and refuses another. */
  lemma HeldAnswers(cfg: Config, s: State, w: Write, now: string, k: nat)
    requires Inv(cfg, s) && Sendable(cfg, w) && HeldAt(s.history, w.requestId, k)
    ensures WriteEffect(cfg, s.rows, w, now) ==
            if cfg.digest(s.history[k - 1].request) != cfg.digest(w) then Refused(IdentityReused)
            else Replayed(s.history[k - 1].document)
  {
    HeldIsHolding(cfg, s, w.requestId, k);
    HeldRequestAnswers(cfg, s, w, now, k);
  }

  // The inbox

  predicate WithChildren(state: MapState, scope: seq<string>)
  {
    forall c :: c in state.components && c.parentId.Some? && c.parentId.value in scope ==> c.id in scope
  }

  /** Names some components of the map, each with all its children. */
  ghost predicate GoodScope(state: MapState, scope: seq<string>)
  {
    scope != [] && (forall id :: id in scope ==> Known(state.components, id)) && WithChildren(state, scope)
  }

  lemma NamesMean(state: MapState, id: string)
    ensures Known(state.components, id) <==> id in ComponentIds(state)
    ensures Known(state.components, id) <==> id in NodeMap(state.components)
  {
    KnownIffMapped(state.components, id);
    hide NodeMap;
    if id in ComponentIds(state) {
      var i :| 0 <= i < |state.components| && state.components[i].id == id;
      assert state.components[i] in state.components;
    }
  }

  lemma ChildrenMean(state: MapState, scope: seq<string>)
    ensures ScopeClosed(state, Members(scope)) <==> WithChildren(state, scope)
  {
  }

  /** The two scope tests of a new request, together. */
  lemma ScopeMeans(state: MapState, scope: seq<string>)
    ensures scope != [] && Members(scope) <= ComponentIds(state) && EditAllowed(state, state, Some(scope)) <==>
            GoodScope(state, scope)
  {
    SelfEditAllowedIff(state, Some(scope));
    ChildrenMean(state, scope);
    forall id
      ensures Known(state.components, id) <==> id in ComponentIds(state)
      ensures Known(state.components, id) <==> id in NodeMap(state.components)
    {
      NamesMean(state, id);
    }
    assert forall id :: id in Members(scope) <==> id in scope;
    hide EditAllowed, NodeMap, ComponentIds, WithChildren, ScopeClosed, Known, Members;
  }

  /** A new request is taken exactly when it is for this project, names the newest revision
      of a saved map and a good scope of it, and the inbox has room; the task freezes that
      revision. A known id is answered with its task for the same request only. */
  lemma AskAnswers(cfg: Config, s: State, a: Ask, now: string)
    requires Inv(cfg, s)
    ensures var r, n := AskEffect(cfg, s.rows, s.tasks, a, now), |s.history|;
            && (a.requestId in s.tasks ==>
                  r == if a.project != cfg.project then Err(ForeignProject)
                       else if s.tasks[a.requestId].request == a then Ok(s.tasks[a.requestId])
                       else Err(IdentityReused))
            && (a.requestId !in s.tasks ==>
                  && (r.Ok? <==>
                        && a.project == cfg.project && 0 < n == a.expectedRevision && |s.tasks| < 100
                        && (a.scope.Some? ==> GoodScope(s.history[n - 1].document.state, a.scope.value)))
                  && (r.Ok? ==> r.value == Task(a, s.history[n - 1].document, now, None)))
  {
    CurrentOfHistory(cfg, s.rows, s.history);
    var current := CurrentDocument(s.rows, cfg.project);
    if a.scope.Some? {
      ScopeMeans(current.state, a.scope.value);
    } else {
      SelfEditAllowedIff(current.state, None);
    }
    hide Inv, EditAllowed, CurrentDocument, Members, ComponentIds;
  }

  /** A reply is recorded exactly when its task is unanswered and its proposal, if any, is an
      Agent's write for this project, on the frozen revision, with the task's scope, that
      passes the edit check there. The same reply again changes nothing. */
  lemma ReplyAnswers(cfg: Config, s: State, reply: Reply)
    ensures var r := ReplyEffect(cfg, s.tasks, reply);
            && (reply.requestId !in s.tasks <==> r == Err(TaskMissing))
            && (reply.requestId in s.tasks && s.tasks[reply.requestId].reply.Some? ==>
                  r == if s.tasks[reply.requestId].reply == Some(reply) then Ok(s.tasks[reply.requestId])
                       else Err(AlreadyAnswered))
            && (reply.requestId in s.tasks && s.tasks[reply.requestId].reply.None? ==>
                  var task := s.tasks[reply.requestId];
                  && (r.Ok? <==> (reply.proposal.Some? ==>
                        var w := reply.proposal.value;
                        && w.project == cfg.project && w.expectedRevision == task.snapshot.revision
                        && w.authorKind == AgentAuthor && w.scope == task.request.scope
                        && EditAllowed(task.snapshot.state, w.state, w.scope)))
                  && (r.Ok? ==> r.value == Task(task.request, task.snapshot, task.createdAt, Some(reply))))
  {
    hide EditAllowed;
  }
}
