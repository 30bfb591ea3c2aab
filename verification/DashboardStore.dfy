/** The revision store of the map and the inbox of Agent requests that sits beside it in the
    same database. Every operation is one immediate transaction. */
module DashboardStore {
  import opened Wrappers
  import opened DashboardMap

  datatype AuthorKind = HumanAuthor | AgentAuthor | SystemAuthor

  datatype Document = Document(
    project: string,
    revision: nat,
    state: MapState,
    author: string,
    authorKind: AuthorKind,
    updatedAt: Option<string>)

  datatype Write = Write(
    project: string,
    requestId: string,
    expectedRevision: nat,
    author: string,
    authorKind: AuthorKind,
    state: MapState,
    scope: Option<seq<string>>)

  datatype Ask = Ask(
    project: string,
    requestId: string,
    expectedRevision: nat,
    scope: Option<seq<string>>,
    prompt: string)

  datatype Reply = Reply(requestId: string, author: string, message: string, proposal: Option<Write>)

  datatype Task = Task(request: Ask, snapshot: Document, createdAt: string, reply: Option<Reply>)

  /** A row of the revisions table; the table maps its primary key, the revision, to it. */
  datatype Row = Row(request: string, digest: string, document: Document)

  type Rows = map<nat, Row>

  type Tasks = map<string, Task>

  /** The project, and the two facts about the encoding of a write that the store uses. */
  datatype Config = Config(project: string, digest: Write -> string, size: Write -> nat)

  const MAX_BYTES: nat := 1048576
  const RETAINED: nat := 30
  const INBOX_CAPACITY: nat := 100

  const EMPTY_MAP := MapState([], [], "", "")

  function EmptyDocument(project: string): Document
  {
    Document(project, 0, EMPTY_MAP, "system", SystemAuthor, None)
  }

  datatype Failure =
    | ForeignProject
    | TooLarge
    | IdentityReused
    | RevisionConflict
    | EditRefused
    | InvalidRevision
    | RevisionUnavailable
    | NoSavedMap
    | InvalidScope
    | InboxFull
    | TaskMissing
    | AlreadyAnswered
    | ProposalMismatch

  datatype Result<T> = Ok(value: T) | Err(failure: Failure)

  // The newest row

  predicate IsLatest(rows: Rows, k: nat)
  {
    k in rows && forall j :: j in rows ==> j <= k
  }

  lemma {:induction false} LatestExists(rows: Rows)
    requires rows != map[]
    ensures exists k: nat :: IsLatest(rows, k)
    decreases |rows|
  {
    var k: nat :| k in rows;
    var rest := rows - {k};
    if rest == map[] {
      forall j | j in rows
        ensures j == k
      {
        assert j != k ==> j in rest;
      }
      assert IsLatest(rows, k);
    } else {
      assert |rest.Keys| < |rows.Keys| by {
        assert rest.Keys == rows.Keys - {k};
      }
      LatestExists(rest);
      var m: nat :| IsLatest(rest, m);
      assert forall j :: j in rows && j != k ==> j in rest;
      assert IsLatest(rows, if m < k then k else m);
    }
  }

  ghost function Current(rows: Rows): nat
  {
    if rows == map[] then 0
    else
      LatestExists(rows);
      var k: nat :| IsLatest(rows, k);
      k
  }

  lemma CurrentIs(rows: Rows, k: nat)
    requires IsLatest(rows, k)
    ensures Current(rows) == k
  {
    LatestExists(rows);
  }

  ghost function CurrentDocument(rows: Rows, project: string): Document
  {
    if rows == map[] then EmptyDocument(project)
    else
      LatestExists(rows);
      rows[Current(rows)].document
  }

  // The operations

  /** The row that holds a request id; the table allows at most one. */
  predicate HoldsRequest(rows: Rows, id: string, k: nat)
  {
    k in rows && rows[k].request == id
  }

  function Prune(rows: Rows, newest: nat): Rows
  {
    map k | k in rows && k + RETAINED > newest :: rows[k]
  }

  function Accepted(w: Write, project: string, revision: nat, now: string): Document
  {
    Document(project, revision, w.state, w.author, w.authorKind, Some(now))
  }

  datatype WriteOutcome =
    | Stored(rows: Rows, document: Document)
    | Replayed(document: Document)
    | Refused(failure: Failure)

  ghost function WriteEffect(cfg: Config, rows: Rows, w: Write, now: string): WriteOutcome
  {
    if w.project != cfg.project then Refused(ForeignProject)
    else if cfg.size(w) > MAX_BYTES - 1024 then Refused(TooLarge)
    else if k: nat :| HoldsRequest(rows, w.requestId, k) then
      if rows[k].digest != cfg.digest(w) then Refused(IdentityReused) else Replayed(rows[k].document)
    else
      var current := CurrentDocument(rows, cfg.project);
      if w.expectedRevision != current.revision then Refused(RevisionConflict)
      else if w.authorKind.AgentAuthor? && !EditAllowed(current.state, w.state, w.scope) then Refused(EditRefused)
      else
        var document := Accepted(w, cfg.project, current.revision + 1, now);
        Stored(Prune(rows[document.revision := Row(w.requestId, cfg.digest(w), document)], document.revision), document)
  }

  ghost predicate Unused(rows: Rows, id: string)
  {
    forall k: nat :: !HoldsRequest(rows, id, k)
  }

  ghost predicate FitsOn(current: Document, w: Write)
  {
    w.expectedRevision == current.revision &&
      (w.authorKind.AgentAuthor? ==> EditAllowed(current.state, w.state, w.scope))
  }

  /** When a write is stored, and what is then in the table. */
  lemma WriteCases(cfg: Config, rows: Rows, w: Write, now: string)
    ensures var outcome := WriteEffect(cfg, rows, w, now);
            var current := CurrentDocument(rows, cfg.project);
            var open := w.project == cfg.project && cfg.size(w) <= MAX_BYTES - 1024 && Unused(rows, w.requestId);
            && (outcome.Stored? <==> open && FitsOn(current, w))
            && (outcome.Stored? ==>
                  && outcome.document == Accepted(w, cfg.project, current.revision + 1, now)
                  && outcome.rows == Prune(rows[current.revision + 1 := RowOf(cfg, Entry(w, outcome.document))],
                    current.revision + 1))
            && (outcome == Refused(RevisionConflict) <==> open && w.expectedRevision != current.revision)
            && (outcome == Refused(EditRefused) <==>
              open && w.expectedRevision == current.revision && !FitsOn(current, w))
  {
    hide EditAllowed, CurrentDocument, Prune;
  }

  function ComponentIds(s: MapState): set<string>
  {
    set i | 0 <= i < |s.components| :: s.components[i].id
  }

  ghost function AskEffect(cfg: Config, rows: Rows, tasks: Tasks, a: Ask, now: string): Result<Task>
  {
    if a.project != cfg.project then Err(ForeignProject)
    else if a.requestId in tasks then
      if tasks[a.requestId].request != a then Err(IdentityReused) else Ok(tasks[a.requestId])
    else if rows == map[] then Err(NoSavedMap)
    else
      var snapshot := CurrentDocument(rows, cfg.project);
      if snapshot.revision != a.expectedRevision then Err(RevisionConflict)
      else if a.scope.Some? && (a.scope.value == [] || !(Members(a.scope.value) <= ComponentIds(snapshot.state)))
      then Err(InvalidScope)
      else if !EditAllowed(snapshot.state, snapshot.state, a.scope) then Err(EditRefused)
      else if |tasks| >= INBOX_CAPACITY then Err(InboxFull)
      else Ok(Task(a, snapshot, now, None))
  }

  ghost predicate ProposalFits(cfg: Config, task: Task, proposal: Write)
  {
    && proposal.project == cfg.project
    && proposal.expectedRevision == task.snapshot.revision
    && proposal.authorKind.AgentAuthor?
    && proposal.scope == task.request.scope
    && EditAllowed(task.snapshot.state, proposal.state, proposal.scope)
  }

  ghost function ReplyEffect(cfg: Config, tasks: Tasks, reply: Reply): Result<Task>
  {
    if reply.requestId !in tasks then Err(TaskMissing)
    else
      var task := tasks[reply.requestId];
      if task.reply.Some? then if task.reply.value != reply then Err(AlreadyAnswered) else Ok(task)
      else if reply.proposal.None? then Ok(task.(reply := Some(reply)))
      else
        var proposal := reply.proposal.value;
        if proposal.project != cfg.project || proposal.expectedRevision != task.snapshot.revision
           || !proposal.authorKind.AgentAuthor? || proposal.scope != task.request.scope
        then Err(ProposalMismatch)
        else if !EditAllowed(task.snapshot.state, proposal.state, task.request.scope) then Err(EditRefused)
        else Ok(task.(reply := Some(reply)))
  }

  // Runs. The history records every write that was stored, also after its row is pruned.

  datatype Entry = Entry(request: Write, document: Document)

  datatype State = State(rows: Rows, tasks: Tasks, history: seq<Entry>)

  const INIT := State(map[], map[], [])

  datatype Action =
    | DoWrite(write: Write, now: string)
    | DoAsk(ask: Ask, now: string)
    | DoReply(reply: Reply)

  ghost function Step(cfg: Config, s: State, a: Action): State
  {
    match a
    case DoWrite(w, now) =>
      var outcome := WriteEffect(cfg, s.rows, w, now);
      if outcome.Stored? then s.(rows := outcome.rows, history := s.history + [Entry(w, outcome.document)]) else s
    case DoAsk(ask, now) =>
      var outcome := AskEffect(cfg, s.rows, s.tasks, ask, now);
      if outcome.Ok? then s.(tasks := s.tasks[ask.requestId := outcome.value]) else s
    case DoReply(reply) =>
      var outcome := ReplyEffect(cfg, s.tasks, reply);
      if outcome.Ok? then s.(tasks := s.tasks[reply.requestId := outcome.value]) else s
  }

  ghost function Run(cfg: Config, s: State, actions: seq<Action>): State
    decreases actions
  {
    if actions == [] then s else Run(cfg, Step(cfg, s, actions[0]), actions[1..])
  }

  // What every run keeps

  function StateAt(history: seq<Entry>, revision: nat): MapState
    requires revision <= |history|
  {
    if revision == 0 then EMPTY_MAP else history[revision - 1].document.state
  }

  /** A stored write sits directly on the revision it named, and passed its checks there. */
  ghost predicate EntryOk(cfg: Config, history: seq<Entry>, i: nat)
    requires i < |history|
  {
    var w, d := history[i].request, history[i].document;
    && w.expectedRevision == i && w.project == cfg.project
    && d.revision == i + 1 && d.project == cfg.project
    && d.state == w.state && d.author == w.author && d.authorKind == w.authorKind
    && (w.authorKind.AgentAuthor? ==> EditAllowed(StateAt(history, i), w.state, w.scope))
  }

  ghost predicate HistoryOk(cfg: Config, history: seq<Entry>)
  {
    forall i: nat :: i < |history| ==> EntryOk(cfg, history, i)
  }

  function RowOf(cfg: Config, e: Entry): Row
  {
    Row(e.request.requestId, cfg.digest(e.request), e.document)
  }

  predicate Retained(newest: nat, k: nat)
  {
    0 < k <= newest && k + RETAINED > newest
  }

  /** The table holds exactly the last thirty revisions, with the requests that made them. */
  ghost predicate RowsOk(cfg: Config, rows: Rows, history: seq<Entry>)
  {
    && (forall k: nat :: k in rows <==> Retained(|history|, k))
    && (forall k: nat :: k in rows ==> rows[k] == RowOf(cfg, history[k - 1]))
    && (forall j: nat, k: nat :: j in rows && k in rows && rows[j].request == rows[k].request ==> j == k)
  }

  ghost predicate TaskOk(cfg: Config, history: seq<Entry>, id: string, task: Task)
  {
    && task.request.requestId == id && task.request.project == cfg.project
    && 0 < task.snapshot.revision <= |history|
    && task.request.expectedRevision == task.snapshot.revision
    && task.snapshot == history[task.snapshot.revision - 1].document
    && (task.request.scope.Some? ==> task.request.scope.value != [])
    && EditAllowed(task.snapshot.state, task.snapshot.state, task.request.scope)
    && (task.reply.Some? && task.reply.value.proposal.Some? ==>
      ProposalFits(cfg, task, task.reply.value.proposal.value))
  }

  ghost predicate TasksOk(cfg: Config, tasks: Tasks, history: seq<Entry>)
  {
    |tasks| <= INBOX_CAPACITY && forall id :: id in tasks ==> TaskOk(cfg, history, id, tasks[id])
  }

  ghost predicate Inv(cfg: Config, s: State)
  {
    HistoryOk(cfg, s.history) && RowsOk(cfg, s.rows, s.history) && TasksOk(cfg, s.tasks, s.history)
  }

  lemma CurrentOfHistory(cfg: Config, rows: Rows, history: seq<Entry>)
    requires HistoryOk(cfg, history) && RowsOk(cfg, rows, history)
    ensures (rows == map[]) == (history == [])
    ensures var current := CurrentDocument(rows, cfg.project);
            && current.revision == |history| && current.state == StateAt(history, |history|)
            && current == if history == [] then EmptyDocument(cfg.project) else history[|history| - 1].document
  {
    hide EditAllowed, EntryOk;
    if history == [] {
      assert rows == map[] by {
        if k: nat :| k in rows { assert false; }
      }
    } else {
      assert Retained(|history|, |history|);
      assert IsLatest(rows, |history|);
      CurrentIs(rows, |history|);
      assert EntryOk(cfg, history, |history| - 1);
      LastEntry(cfg, history);
    }
  }

  lemma LastEntry(cfg: Config, history: seq<Entry>)
    requires history != [] && EntryOk(cfg, history, |history| - 1)
    ensures history[|history| - 1].document.revision == |history|
  {
  }

  lemma EntryKept(cfg: Config, history: seq<Entry>, e: Entry, i: nat)
    requires i < |history| && EntryOk(cfg, history, i)
    ensures EntryOk(cfg, history + [e], i)
  {
    hide EditAllowed;
    assert StateAt(history + [e], i) == StateAt(history, i);
  }

  /** A write is stored on top of the current revision, and the oldest row beyond thirty goes. */
  lemma StoredWrite(cfg: Config, s: State, w: Write, now: string)
    requires Inv(cfg, s)
    ensures var outcome := WriteEffect(cfg, s.rows, w, now);
            outcome.Stored? ==>
              var h := s.history + [Entry(w, outcome.document)];
              && outcome.document == Accepted(w, cfg.project, |h|, now)
              && w.expectedRevision == |s.history|
              && HistoryOk(cfg, h) && RowsOk(cfg, outcome.rows, h)
  {
    var outcome := WriteEffect(cfg, s.rows, w, now);
    CurrentOfHistory(cfg, s.rows, s.history);
    WriteCases(cfg, s.rows, w, now);
    if outcome.Stored? {
      var e := Entry(w, outcome.document);
      hide WriteEffect, EditAllowed, CurrentDocument, RowsOk, Prune, TasksOk, RowOf;
      NewEntry(cfg, s.history, CurrentDocument(s.rows, cfg.project), e, now);
      InsertRow(cfg, s.rows, s.history, e);
    }
  }

  lemma NewEntry(cfg: Config, history: seq<Entry>, current: Document, e: Entry, now: string)
    requires HistoryOk(cfg, history) && current.revision == |history| && current.state == StateAt(history, |history|)
    requires e.request.project == cfg.project && FitsOn(current, e.request)
    requires e.document == Accepted(e.request, cfg.project, |history| + 1, now)
    ensures HistoryOk(cfg, history + [e])
  {
    hide EditAllowed;
    forall i: nat | i < |history + [e]|
      ensures EntryOk(cfg, history + [e], i)
    {
      if i < |history| {
        EntryKept(cfg, history, e, i);
      } else {
        assert StateAt(history + [e], i) == StateAt(history, i);
      }
    }
  }

  lemma InsertRow(cfg: Config, rows: Rows, history: seq<Entry>, e: Entry)
    requires RowsOk(cfg, rows, history)
    requires Unused(rows, e.request.requestId)
    ensures var n := |history| + 1;
            RowsOk(cfg, Prune(rows[n := RowOf(cfg, e)], n), history + [e])
  {
    var n := |history| + 1;
    var t := Prune(rows[n := RowOf(cfg, e)], n);
    forall k: nat
      ensures k in t <==> Retained(n, k)
      ensures k in t ==> t[k] == RowOf(cfg, (history + [e])[k - 1])
    {
      if k != n && k in t {
        assert k in rows && Retained(|history|, k);
      }
      if k != n && Retained(n, k) {
        assert Retained(|history|, k);
      }
    }
    forall j: nat, k: nat | j in t && k in t && t[j].request == t[k].request
      ensures j == k
    {
      assert j != n ==> j in rows && !HoldsRequest(rows, e.request.requestId, j);
      assert k != n ==> k in rows && !HoldsRequest(rows, e.request.requestId, k);
    }
  }

  lemma TasksKept(cfg: Config, tasks: Tasks, history: seq<Entry>, e: Entry)
    requires TasksOk(cfg, tasks, history)
    ensures TasksOk(cfg, tasks, history + [e])
  {
    hide ProposalFits;
  }

  lemma TaskAdded(cfg: Config, s: State, id: string, task: Task)
    requires TasksOk(cfg, s.tasks, s.history) && TaskOk(cfg, s.history, id, task)
    requires id in s.tasks || |s.tasks| < INBOX_CAPACITY
    ensures TasksOk(cfg, s.tasks[id := task], s.history)
  {
    hide ProposalFits, TaskOk;
    var t := s.tasks[id := task];
    assert t.Keys == s.tasks.Keys + {id};
    if id in s.tasks {
      assert t.Keys == s.tasks.Keys;
    }
    assert |t.Keys| <= |s.tasks.Keys| + 1;
  }

  lemma AskStep(cfg: Config, s: State, a: Ask, now: string)
    requires Inv(cfg, s)
    ensures var r := AskEffect(cfg, s.rows, s.tasks, a, now);
            r.Ok? ==> TasksOk(cfg, s.tasks[a.requestId := r.value], s.history)
                      && (a.requestId in s.tasks ==> r.value == s.tasks[a.requestId])
                      && (a.requestId !in s.tasks ==> r.value.reply.None?)
  {
    CurrentOfHistory(cfg, s.rows, s.history);
    hide EditAllowed, CurrentDocument, RowsOk, ProposalFits;
    var r := AskEffect(cfg, s.rows, s.tasks, a, now);
    if r.Ok? {
      if a.requestId in s.tasks {
        assert TaskOk(cfg, s.history, a.requestId, r.value);
      }
      TaskAdded(cfg, s, a.requestId, r.value);
    }
  }

  lemma ReplyStep(cfg: Config, s: State, reply: Reply)
    requires Inv(cfg, s)
    ensures var r := ReplyEffect(cfg, s.tasks, reply);
            r.Ok? ==> && reply.requestId in s.tasks
                      && TasksOk(cfg, s.tasks[reply.requestId := r.value], s.history)
                      && r.value.reply == Some(reply)
                      && r.value.(reply := s.tasks[reply.requestId].reply) == s.tasks[reply.requestId]
                      && (s.tasks[reply.requestId].reply.Some? ==> r.value == s.tasks[reply.requestId])
  {
    hide EditAllowed, RowsOk, HistoryOk;
    var r := ReplyEffect(cfg, s.tasks, reply);
    if r.Ok? {
      assert TaskOk(cfg, s.history, reply.requestId, s.tasks[reply.requestId]);
      TaskAdded(cfg, s, reply.requestId, r.value);
    }
  }

  lemma StepKeeps(cfg: Config, s: State, a: Action)
    requires Inv(cfg, s)
    ensures Inv(cfg, Step(cfg, s, a))
    ensures s.history <= Step(cfg, s, a).history
  {
    hide WriteEffect, AskEffect, ReplyEffect, HistoryOk, RowsOk, TasksOk;
    match a {
      case DoWrite(w, now) =>
        StoredWrite(cfg, s, w, now);
        var outcome := WriteEffect(cfg, s.rows, w, now);
        if outcome.Stored? { TasksKept(cfg, s.tasks, s.history, Entry(w, outcome.document)); }
      case DoAsk(ask, now) => AskStep(cfg, s, ask, now);
      case DoReply(reply) => ReplyStep(cfg, s, reply);
    }
  }

  lemma {:induction false} RunKeeps(cfg: Config, s: State, actions: seq<Action>)
    requires Inv(cfg, s)
    ensures Inv(cfg, Run(cfg, s, actions))
    ensures s.history <= Run(cfg, s, actions).history
    decreases actions
  {
    hide Inv, Step;
    if actions != [] {
      StepKeeps(cfg, s, actions[0]);
      RunKeeps(cfg, Step(cfg, s, actions[0]), actions[1..]);
    }
  }

  lemma InitOk(cfg: Config)
    ensures Inv(cfg, INIT)
  {
  }

  // The revision history

  /** In every reachable state the table is the block of the last thirty revisions, each
      retained revision still shows the document it was stored with, and every stored write
      named the revision directly below its own. */
  lemma RevisionsAreABlock(cfg: Config, actions: seq<Action>)
    ensures var s := Run(cfg, INIT, actions);
            && (forall k: nat :: k in s.rows <==> 0 < k <= |s.history| && |s.history| - k < 30)
            && (forall k: nat :: k in s.rows ==> s.rows[k].document == s.history[k - 1].document)
            && (forall i: nat :: i < |s.history| ==>
                  s.history[i].request.expectedRevision == i && s.history[i].document.revision == i + 1
                  && s.history[i].document.state == s.history[i].request.state)
  {
    InitOk(cfg);
    RunKeeps(cfg, INIT, actions);
    var s := Run(cfg, INIT, actions);
    hide Run, EditAllowed;
    forall i: nat | i < |s.history|
      ensures s.history[i].request.expectedRevision == i && s.history[i].document.revision == i + 1
      ensures s.history[i].document.state == s.history[i].request.state
    {
      assert EntryOk(cfg, s.history, i);
    }
  }

  /** No request is stored twice in a whole run, whatever has been pruned in between. */
  lemma StoredAtMostOnce(cfg: Config, actions: seq<Action>, i: nat, j: nat)
    requires i < |Run(cfg, INIT, actions).history| && j < |Run(cfg, INIT, actions).history|
    requires Run(cfg, INIT, actions).history[i].request == Run(cfg, INIT, actions).history[j].request
    ensures i == j
  {
    RevisionsAreABlock(cfg, actions);
  }

  /** Sending a stored request again never changes anything: while its row is retained the
      stored document comes back, and afterwards nothing is ever stored for it. */
  lemma ResendIsHarmless(cfg: Config, s: State, i: nat, now: string)
    requires Inv(cfg, s) && i < |s.history|
    ensures var w := s.history[i].request;
            && !WriteEffect(cfg, s.rows, w, now).Stored?
            && (i + 1 in s.rows && cfg.size(w) <= MAX_BYTES - 1024 ==>
                  WriteEffect(cfg, s.rows, w, now) == Replayed(s.history[i].document))
            && (cfg.size(w) <= MAX_BYTES - 1024 && Unused(s.rows, w.requestId) ==>
                  WriteEffect(cfg, s.rows, w, now) == Refused(RevisionConflict))
  {
    CurrentOfHistory(cfg, s.rows, s.history);
    var w := s.history[i].request;
    assert EntryOk(cfg, s.history, i);
    hide EditAllowed, CurrentDocument, TasksOk;
    if i + 1 in s.rows {
      assert HoldsRequest(s.rows, w.requestId, i + 1);
    }
  }

  /** A revision means the same document for ever: what any run shows under a number agrees
      with what every longer run shows under it. */
  lemma RevisionNamesOneDocument(cfg: Config, s: State, actions: seq<Action>, k: nat)
    requires Inv(cfg, s) && k in s.rows && k in Run(cfg, s, actions).rows
    ensures Run(cfg, s, actions).rows[k] == s.rows[k]
  {
    RunKeeps(cfg, s, actions);
    hide Run, HistoryOk, TasksOk;
    assert Run(cfg, s, actions).history[k - 1] == s.history[k - 1];
  }

  // Pins over runs of Agent writes

  ghost predicate AgentOnly(history: seq<Entry>, i: nat, j: nat)
    requires i <= j <= |history|
  {
    forall k :: i <= k < j ==> history[k].request.authorKind.AgentAuthor?
  }

  lemma {:induction false} PinsSurviveHistory(cfg: Config, history: seq<Entry>, i: nat, j: nat)
    requires HistoryOk(cfg, history) && i <= j <= |history| && AgentOnly(history, i, j)
    ensures PinsOk(StateAt(history, i), StateAt(history, j))
    decreases j - i
  {
    if i == j {
      PinsReflexive(StateAt(history, i));
    } else {
      PinsSurviveHistory(cfg, history, i, j - 1);
      hide PinsOk, ScopeError;
      assert EntryOk(cfg, history, j - 1);
      PinsTransitive(StateAt(history, i), StateAt(history, j - 1), StateAt(history, j));
    }
  }

  /** While only Agents write, a pinned component keeps its ancestors and absolute position,
      and none of its ancestors becomes collapsed, over the whole run. */
  lemma PinSurvivesRun(cfg: Config, s: State, actions: seq<Action>, id: string, chain: seq<string>)
    requires Inv(cfg, s)
    requires var t := Run(cfg, s, actions);
             |s.history| <= |t.history| ==> AgentOnly(t.history, |s.history|, |t.history|)
    requires var now := NodeMap(CurrentDocument(s.rows, cfg.project).state.components);
             Chain(now, id, chain) && now[id].pinned
    ensures var now := NodeMap(CurrentDocument(s.rows, cfg.project).state.components);
            var later := NodeMap(CurrentDocument(Run(cfg, s, actions).rows, cfg.project).state.components);
            && Chain(later, id, chain) && SamePin(now[id], later[id])
            && (forall i :: 0 <= i <= |chain| ==> ([id] + chain)[i] in now && ([id] + chain)[i] in later)
            && Offset(later, [id] + chain) == Offset(now, [id] + chain)
            && (forall i :: 0 <= i < |chain| ==> !now[chain[i]].collapsed ==> !later[chain[i]].collapsed)
  {
    var t := Run(cfg, s, actions);
    RunKeeps(cfg, s, actions);
    hide Run;
    CurrentOfHistory(cfg, s.rows, s.history);
    CurrentOfHistory(cfg, t.rows, t.history);
    PinsSurviveHistory(cfg, t.history, |s.history|, |t.history|);
    hide CurrentDocument, PinsOk, HistoryOk, RowsOk, TasksOk, NodeMap, Offset, Chain;
    assert StateAt(t.history, |s.history|) == StateAt(s.history, |s.history|);
    PinStays(CurrentDocument(s.rows, cfg.project).state, CurrentDocument(t.rows, cfg.project).state, id, chain);
  }

  // The inbox

  lemma TaskStep(cfg: Config, s: State, a: Action, id: string)
    requires Inv(cfg, s) && id in s.tasks
    ensures var t := Step(cfg, s, a);
            && id in t.tasks
            && t.tasks[id].(reply := s.tasks[id].reply) == s.tasks[id]
            && (s.tasks[id].reply.Some? ==> t.tasks[id].reply == s.tasks[id].reply)
  {
    hide WriteEffect, AskEffect, ReplyEffect, Inv, TasksOk;
    if a.DoAsk? { AskStep(cfg, s, a.ask, a.now); }
    if a.DoReply? { ReplyStep(cfg, s, a.reply); }
  }

  /** Tasks are never removed, their request and snapshot never change, and a recorded reply
      is final. */
  lemma {:induction false} ReplyIsFinal(cfg: Config, s: State, actions: seq<Action>, id: string)
    requires Inv(cfg, s) && id in s.tasks
    ensures var t := Run(cfg, s, actions);
            && id in t.tasks
            && t.tasks[id].(reply := s.tasks[id].reply) == s.tasks[id]
            && (s.tasks[id].reply.Some? ==> t.tasks[id].reply == s.tasks[id].reply)
    decreases actions
  {
    if actions != [] {
      var t := Step(cfg, s, actions[0]);
      StepKeeps(cfg, s, actions[0]);
      TaskStep(cfg, s, actions[0], id);
      hide Step, Inv;
      ReplyIsFinal(cfg, t, actions[1..], id);
    }
  }

  ghost predicate Proposed(s: State, id: string, w: Write)
  {
    id in s.tasks && s.tasks[id].reply.Some? && s.tasks[id].reply.value.proposal == Some(w)
  }

  /** A recorded proposal meets neither a revision conflict nor a refused edit while the map
      is still at the snapshot: unless it is too large or its request id is taken by a
      retained revision, it becomes the next revision. */
  lemma ProposalFitsItsSnapshot(cfg: Config, s: State, id: string, w: Write, now: string)
    requires Inv(cfg, s) && Proposed(s, id, w) && |s.history| == s.tasks[id].snapshot.revision
    ensures var outcome := WriteEffect(cfg, s.rows, w, now);
            && outcome != Refused(RevisionConflict) && outcome != Refused(EditRefused)
            && (outcome.Stored? <==>
                  cfg.size(w) <= MAX_BYTES - 1024 && Unused(s.rows, w.requestId))
            && (outcome.Stored? ==> outcome.document == Accepted(w, cfg.project, w.expectedRevision + 1, now))
  {
    CurrentOfHistory(cfg, s.rows, s.history);
    WriteCases(cfg, s.rows, w, now);
    hide WriteEffect, EditAllowed, CurrentDocument, RowsOk, HistoryOk;
    assert TaskOk(cfg, s.history, id, s.tasks[id]);
  }

  /** Once the map has moved past the snapshot, a recorded proposal is never stored any more;
      it meets a revision conflict exactly when it is small enough and its request id is not
      held by a retained revision. */
  lemma StaleProposalNeverLands(cfg: Config, s: State, id: string, w: Write, now: string)
    requires Inv(cfg, s) && Proposed(s, id, w) && |s.history| != s.tasks[id].snapshot.revision
    ensures var outcome := WriteEffect(cfg, s.rows, w, now);
            && !outcome.Stored?
            && (outcome == Refused(RevisionConflict) <==>
                  cfg.size(w) <= MAX_BYTES - 1024 && Unused(s.rows, w.requestId))
  {
    CurrentOfHistory(cfg, s.rows, s.history);
    WriteCases(cfg, s.rows, w, now);
    hide WriteEffect, EditAllowed, CurrentDocument, RowsOk, HistoryOk;
    assert TaskOk(cfg, s.history, id, s.tasks[id]);
  }

  /** A write whose request id a retained revision holds is answered from that row. */
  lemma HeldRequestAnswers(cfg: Config, s: State, w: Write, now: string, k: nat)
    requires Inv(cfg, s) && w.project == cfg.project && cfg.size(w) <= MAX_BYTES - 1024
    requires HoldsRequest(s.rows, w.requestId, k)
    ensures k <= |s.history| && s.rows[k] == RowOf(cfg, s.history[k - 1])
    ensures WriteEffect(cfg, s.rows, w, now) ==
            if s.rows[k].digest != cfg.digest(w) then Refused(IdentityReused) else Replayed(s.rows[k].document)
  {
    hide HistoryOk, TasksOk, EditAllowed, CurrentDocument, Prune;
  }

  /** A stale proposal is refused unless a retained revision holds both its request id and its
      digest; so it is refused when no stored write has its digest. */
  lemma UnappliedStaleProposalIsRefused(cfg: Config, s: State, id: string, w: Write, now: string)
    requires Inv(cfg, s) && Proposed(s, id, w) && |s.history| != s.tasks[id].snapshot.revision
    ensures var outcome := WriteEffect(cfg, s.rows, w, now);
            && (outcome.Refused? <==>
                  cfg.size(w) > MAX_BYTES - 1024
                  || forall k: nat :: HoldsRequest(s.rows, w.requestId, k) ==> s.rows[k].digest != cfg.digest(w))
            && ((forall i :: 0 <= i < |s.history| ==> cfg.digest(s.history[i].request) != cfg.digest(w)) ==>
                  outcome.Refused?)
  {
    StaleProposalNeverLands(cfg, s, id, w, now);
    assert TaskOk(cfg, s.history, id, s.tasks[id]);
    hide Inv, TaskOk, EditAllowed;
    if cfg.size(w) <= MAX_BYTES - 1024 {
      if k: nat :| HoldsRequest(s.rows, w.requestId, k) {
        HeldRequestAnswers(cfg, s, w, now, k);
        RequestsUnique(cfg, s, w.requestId, k);
        hide WriteEffect;
        assert cfg.digest(s.history[k - 1].request) == s.rows[k].digest;
      } else {
        assert Unused(s.rows, w.requestId);
      }
    }
  }

  lemma RequestsUnique(cfg: Config, s: State, id: string, k: nat)
    requires Inv(cfg, s) && HoldsRequest(s.rows, id, k)
    ensures 0 < k && forall j: nat :: HoldsRequest(s.rows, id, j) ==> j == k
  {
    hide HistoryOk, TasksOk;
  }

  // A stale proposal need not meet a revision conflict

  function HumanWrite(project: string, id: string, revision: nat): Write
  {
    Write(project, id, revision, "human", HumanAuthor, EMPTY_MAP, None)
  }

  /** The proposal reuses the request id of the write below its snapshot. */
  function ReusingProposal(project: string): Write
  {
    Write(project, "a", 1, "agent", AgentAuthor, EMPTY_MAP, None)
  }

  function ConflictFreeRun(project: string, now: string): seq<Action>
  {
    [DoWrite(HumanWrite(project, "a", 0), now),
     DoAsk(Ask(project, "t", 1, None, "prompt"), now),
     DoReply(Reply("t", "agent", "message", Some(ReusingProposal(project)))),
     DoWrite(HumanWrite(project, "b", 1), now)]
  }

  lemma RunFour(cfg: Config, s: State, a: Action, b: Action, c: Action, d: Action)
    ensures Run(cfg, s, [a, b, c, d]) == Step(cfg, Step(cfg, Step(cfg, Step(cfg, s, a), b), c), d)
  {
    hide Step;
    RunOne(cfg, s, a, [b, c, d]);
    RunOne(cfg, Step(cfg, s, a), b, [c, d]);
    RunOne(cfg, Step(cfg, Step(cfg, s, a), b), c, [d]);
    RunOne(cfg, Step(cfg, Step(cfg, Step(cfg, s, a), b), c), d, []);
    assert [a] + [b, c, d] == [a, b, c, d] && [b] + [c, d] == [b, c, d] && [c] + [d] == [c, d] && [d] + [] == [d];
  }

  lemma RunOne(cfg: Config, s: State, a: Action, rest: seq<Action>)
    ensures Run(cfg, s, [a] + rest) == Run(cfg, Step(cfg, s, a), rest)
  {
    hide Step;
    assert ([a] + rest)[1..] == rest;
  }

  lemma WriteLands(cfg: Config, s: State, w: Write, now: string)
    requires Inv(cfg, s) && w.project == cfg.project && cfg.size(w) <= MAX_BYTES - 1024 && w.authorKind.HumanAuthor?
    requires w.expectedRevision == |s.history| && Unused(s.rows, w.requestId)
    ensures var t := Step(cfg, s, DoWrite(w, now));
            && Inv(cfg, t) && t.tasks == s.tasks && |t.history| == |s.history| + 1
            && t.history == s.history + [Entry(w, Accepted(w, cfg.project, |s.history| + 1, now))]
  {
    CurrentOfHistory(cfg, s.rows, s.history);
    WriteCases(cfg, s.rows, w, now);
    StepKeeps(cfg, s, DoWrite(w, now));
    hide Inv, WriteEffect, CurrentDocument, Unused;
  }

  /** The run: a human saves under id "a", an Agent is asked and proposes under the same id,
      and a human saves again. */
  lemma ProposalStates(cfg: Config, now: string)
    requires cfg.size(HumanWrite(cfg.project, "a", 0)) <= MAX_BYTES - 1024
    requires cfg.size(HumanWrite(cfg.project, "b", 1)) <= MAX_BYTES - 1024
    ensures var s := Run(cfg, INIT, ConflictFreeRun(cfg.project, now));
            && Inv(cfg, s) && Proposed(s, "t", ReusingProposal(cfg.project)) && s.tasks["t"].snapshot.revision == 1
            && |s.history| == 2 && s.history[0].request == HumanWrite(cfg.project, "a", 0)
            && s.history[1].request == HumanWrite(cfg.project, "b", 1)
  {
    hide Inv, Step, Run, Unused, Proposed;
    var p := cfg.project;
    var first, ask := HumanWrite(p, "a", 0), Ask(p, "t", 1, None, "prompt");
    var reply, second := Reply("t", "agent", "message", Some(ReusingProposal(p))), HumanWrite(p, "b", 1);
    InitOk(cfg);
    NothingUsed("a");
    WriteLands(cfg, INIT, first, now);
    var s1 := Step(cfg, INIT, DoWrite(first, now));
    AskLands(cfg, s1, ask, now);
    var s2 := Step(cfg, s1, DoAsk(ask, now));
    ReplyLands(cfg, s2, reply);
    var s3 := Step(cfg, s2, DoReply(reply));
    OneRow(cfg, s3, "b");
    WriteLands(cfg, s3, second, now);
    RunFour(cfg, INIT, DoWrite(first, now), DoAsk(ask, now), DoReply(reply), DoWrite(second, now));
    ProposedIs(Step(cfg, s3, DoWrite(second, now)), "t", reply);
  }

  lemma NothingUsed(id: string)
    ensures Unused(map[], id)
  {
  }

  lemma ProposedIs(s: State, id: string, r: Reply)
    requires id in s.tasks && s.tasks[id].reply == Some(r) && r.proposal.Some?
    ensures Proposed(s, id, r.proposal.value)
  {
  }

  lemma OneRow(cfg: Config, s: State, id: string)
    requires Inv(cfg, s) && |s.history| == 1 && s.history[0].request.requestId == "a" && id == "b"
    ensures Unused(s.rows, id)
  {
    hide HistoryOk, TasksOk;
    assert "a"[0] == 'a' && "b"[0] == 'b';
  }

  lemma AskLands(cfg: Config, s: State, a: Ask, now: string)
    requires Inv(cfg, s) && s.tasks == map[] && |s.history| == 1
    requires a.project == cfg.project && a.expectedRevision == 1 && a.scope.None?
    ensures var t := Step(cfg, s, DoAsk(a, now));
            && Inv(cfg, t) && t.history == s.history && t.rows == s.rows
            && t.tasks == map[a.requestId := Task(a, s.history[0].document, now, None)]
            && s.history[0].document.revision == 1
  {
    CurrentOfHistory(cfg, s.rows, s.history);
    StepKeeps(cfg, s, DoAsk(a, now));
    SelfEditAllowedIff(s.history[0].document.state, a.scope);
    hide Inv, EditAllowed, CurrentDocument, Members, ComponentIds;
  }

  lemma ReplyLands(cfg: Config, s: State, r: Reply)
    requires Inv(cfg, s) && r.requestId in s.tasks && s.tasks[r.requestId].reply.None?
    requires r.proposal == Some(ReusingProposal(cfg.project)) && s.tasks[r.requestId].snapshot.revision == 1
    requires s.tasks[r.requestId].request.scope.None? && s.tasks[r.requestId].snapshot.state == EMPTY_MAP
    ensures var t := Step(cfg, s, DoReply(r));
            && Inv(cfg, t) && t.history == s.history && t.rows == s.rows
            && t.tasks == s.tasks[r.requestId := s.tasks[r.requestId].(reply := Some(r))]
  {
    hide Inv, EditAllowed, NodeMap, ScopeClosed, Members;
    StepKeeps(cfg, s, DoReply(r));
    SelfEditAllowedIff(EMPTY_MAP, None);
  }

  lemma FirstIsRetained(cfg: Config, s: State)
    requires Inv(cfg, s) && |s.history| == 2
    ensures HoldsRequest(s.rows, s.history[0].request.requestId, 1)
  {
    hide HistoryOk, TasksOk;
    assert Retained(2, 1) && s.rows[1] == RowOf(cfg, s.history[0]);
  }

  /** Such an input, for any store that takes these three small writes: the proposal is
      recorded, was never stored and is stale, yet it meets no revision conflict. A retained
      revision holds its request id, so the identity check answers first. */
  lemma StaleProposalWithoutConflict(cfg: Config, now: string)
    requires cfg.size(HumanWrite(cfg.project, "a", 0)) <= MAX_BYTES - 1024
    requires cfg.size(HumanWrite(cfg.project, "b", 1)) <= MAX_BYTES - 1024
    requires cfg.size(ReusingProposal(cfg.project)) <= MAX_BYTES - 1024
    ensures var s, w := Run(cfg, INIT, ConflictFreeRun(cfg.project, now)), ReusingProposal(cfg.project);
            && Proposed(s, "t", w) && |s.history| == 2 && s.tasks["t"].snapshot.revision == 1
            && (forall i :: 0 <= i < |s.history| ==> s.history[i].request != w)
            && WriteEffect(cfg, s.rows, w, now) ==
               if cfg.digest(HumanWrite(cfg.project, "a", 0)) != cfg.digest(w) then Refused(IdentityReused)
               else Replayed(s.history[0].document)
  {
    hide Run, Inv, ConflictFreeRun, WriteEffect, Proposed, HoldsRequest;
    ProposalStates(cfg, now);
    var s, w := Run(cfg, INIT, ConflictFreeRun(cfg.project, now)), ReusingProposal(cfg.project);
    FirstIsRetained(cfg, s);
    HeldRequestAnswers(cfg, s, w, now, 1);
  }

  /** In every reachable state the inbox is within its capacity, and every task froze the map
      at the revision it named, with a scope of that map that is closed under descendants. */
  lemma TasksAreFrozenRequests(cfg: Config, actions: seq<Action>, id: string)
    requires id in Run(cfg, INIT, actions).tasks
    ensures var s := Run(cfg, INIT, actions);
            var task := s.tasks[id];
            && |s.tasks| <= 100
            && task.request.requestId == id && 0 < task.request.expectedRevision <= |s.history|
            && task.snapshot == s.history[task.request.expectedRevision - 1].document
            && (task.request.scope.Some? ==>
                  var scope := task.request.scope.value;
                  && scope != [] && ScopeClosed(task.snapshot.state, Members(scope))
                  && Members(scope) <= NodeMap(task.snapshot.state.components).Keys)
  {
    InitOk(cfg);
    RunKeeps(cfg, INIT, actions);
    var s := Run(cfg, INIT, actions);
    hide Run, HistoryOk, RowsOk, EditAllowed, ScopeClosed, NodeMap, ProposalFits;
    assert TaskOk(cfg, s.history, id, s.tasks[id]);
    SelfEditAllowedIff(s.tasks[id].snapshot.state, s.tasks[id].request.scope);
  }

  /** What the self-check of a new request means: its scope is closed under descendants. */
  lemma SelfEditAllowedIff(s: MapState, scope: Option<seq<string>>)
    ensures EditAllowed(s, s, scope) <==>
            (scope.Some? ==> Members(scope.value) <= NodeMap(s.components).Keys && ScopeClosed(s, Members(scope.value)))
  {
    PinsReflexive(s);
    hide PinsOk, NodeMap, ScopeClosed, InRegion, EdgeMap;
  }

  // The store and inbox as code

  ghost predicate RowsSound(rows: Rows)
  {
    && (forall k: nat :: k in rows ==> Coherent(rows[k].document.state))
    && (forall j: nat, k: nat :: j in rows && k in rows && rows[j].request == rows[k].request ==> j == k)
  }

  ghost predicate TasksSound(tasks: Tasks)
  {
    forall id :: id in tasks ==> Coherent(tasks[id].snapshot.state)
  }

  lemma EmptyMapCoherent()
    ensures Coherent(EMPTY_MAP)
  {
  }

  lemma CurrentSound(rows: Rows, project: string)
    requires RowsSound(rows)
    ensures Coherent(CurrentDocument(rows, project).state)
  {
    hide Coherent;
    EmptyMapCoherent();
    if rows != map[] {
      LatestExists(rows);
    }
  }

  lemma InsertSound(rows: Rows, n: nat, row: Row)
    requires RowsSound(rows) && Unused(rows, row.request) && Coherent(row.document.state)
    ensures RowsSound(Prune(rows[n := row], n))
  {
    hide Coherent;
    assert forall k: nat :: k in rows ==> !HoldsRequest(rows, row.request, k);
  }

  class Inbox {
    const cfg: Config
    var rows: Rows
    var tasks: Tasks

    /** The documents in the tables are valid documents, and request ids are unique. */
    ghost predicate Valid()
      reads this
    {
      RowsSound(rows) && TasksSound(tasks)
    }

    constructor (cfg: Config)
      ensures this.cfg == cfg && rows == map[] && tasks == map[] && Valid()
    {
      this.cfg := cfg;
      rows := map[];
      tasks := map[];
    }

    method Latest() returns (current: Document)
      ensures current == CurrentDocument(rows, cfg.project)
    {
      if rows == map[] {
        return EmptyDocument(cfg.project);
      }
      LatestExists(rows);
      var k: nat :| k in rows && forall j :: j in rows ==> j <= k;
      CurrentIs(rows, k);
      current := rows[k].document;
    }

    /** Without a revision, the current document; with one, the document retained under it. */
    method Read(revision: Option<int>) returns (r: Result<Document>)
      ensures revision.None? ==> r == Ok(CurrentDocument(rows, cfg.project))
      ensures revision.Some? && revision.value < 0 ==> r == Err(InvalidRevision)
      ensures revision == Some(0) ==> r == Ok(EmptyDocument(cfg.project))
      ensures revision.Some? && revision.value > 0 ==>
                r == if revision.value in rows then Ok(rows[revision.value].document) else Err(RevisionUnavailable)
    {
      if revision.Some? && revision.value < 0 {
        return Err(InvalidRevision);
      }
      if revision == Some(0) {
        return Ok(EmptyDocument(cfg.project));
      }
      if revision.None? {
        var current := Latest();
        return Ok(current);
      }
      if revision.value !in rows {
        return Err(RevisionUnavailable);
      }
      r := Ok(rows[revision.value].document);
    }

    method WriteRequest(w: Write, now: string) returns (r: Result<Document>)
      requires Valid() && Coherent(w.state)
      modifies this`rows
      ensures Valid()
      ensures match WriteEffect(cfg, old(rows), w, now)
              case Stored(next, document) => rows == next && r == Ok(document)
              case Replayed(document) => rows == old(rows) && r == Ok(document)
              case Refused(failure) => rows == old(rows) && r == Err(failure)
    {
      hide Coherent, EditAllowed, CurrentDocument, Prune;
      if w.project != cfg.project {
        return Err(ForeignProject);
      }
      if cfg.size(w) > MAX_BYTES - 1024 {
        return Err(TooLarge);
      }
      var digest := cfg.digest(w);
      if k :| k in rows && rows[k].request == w.requestId {
        assert HoldsRequest(rows, w.requestId, k);
        if rows[k].digest != digest {
          return Err(IdentityReused);
        }
        return Ok(rows[k].document);
      }
      hide RowsSound;
      assert Unused(rows, w.requestId);
      var current := Latest();
      if w.expectedRevision != current.revision {
        return Err(RevisionConflict);
      }
      if w.authorKind.AgentAuthor? {
        CurrentSound(rows, cfg.project);
        var error := CheckAgentEdit(current.state, w.state, w.scope);
        if error.Some? {
          return Err(EditRefused);
        }
      }
      var document := Accepted(w, cfg.project, current.revision + 1, now);
      InsertSound(rows, document.revision, Row(w.requestId, digest, document));
      rows := rows[document.revision := Row(w.requestId, digest, document)];
      rows := Prune(rows, document.revision);
      r := Ok(document);
    }

    method AskAgent(a: Ask, now: string) returns (r: Result<Task>)
      requires Valid()
      modifies this`tasks
      ensures Valid()
      ensures r == AskEffect(cfg, rows, old(tasks), a, now)
      ensures tasks == if r.Ok? then old(tasks)[a.requestId := r.value] else old(tasks)
    {
      hide Coherent, EditAllowed, CurrentDocument;
      if a.project != cfg.project {
        return Err(ForeignProject);
      }
      if a.requestId in tasks {
        if tasks[a.requestId].request != a {
          return Err(IdentityReused);
        }
        assert tasks == tasks[a.requestId := tasks[a.requestId]];
        return Ok(tasks[a.requestId]);
      }
      if rows == map[] {
        return Err(NoSavedMap);
      }
      var snapshot := Latest();
      if snapshot.revision != a.expectedRevision {
        return Err(RevisionConflict);
      }
      if a.scope.Some? && (a.scope.value == [] || !(Members(a.scope.value) <= ComponentIds(snapshot.state))) {
        return Err(InvalidScope);
      }
      CurrentSound(rows, cfg.project);
      var error := CheckAgentEdit(snapshot.state, snapshot.state, a.scope);
      if error.Some? {
        return Err(EditRefused);
      }
      if |tasks| >= INBOX_CAPACITY {
        return Err(InboxFull);
      }
      var task := Task(a, snapshot, now, None);
      tasks := tasks[a.requestId := task];
      r := Ok(task);
    }

    method ReplyTo(reply: Reply) returns (r: Result<Task>)
      requires Valid() && (reply.proposal.Some? ==> Coherent(reply.proposal.value.state))
      modifies this`tasks
      ensures Valid()
      ensures r == ReplyEffect(cfg, old(tasks), reply)
      ensures tasks == if r.Ok? then old(tasks)[reply.requestId := r.value] else old(tasks)
    {
      hide Coherent, EditAllowed;
      if reply.requestId !in tasks {
        return Err(TaskMissing);
      }
      var task := tasks[reply.requestId];
      if task.reply.Some? {
        if task.reply.value != reply {
          return Err(AlreadyAnswered);
        }
        assert tasks == tasks[reply.requestId := task];
        return Ok(task);
      }
      if reply.proposal.Some? {
        var proposal := reply.proposal.value;
        if proposal.project != cfg.project || proposal.expectedRevision != task.snapshot.revision
           || !proposal.authorKind.AgentAuthor? || proposal.scope != task.request.scope
        {
          return Err(ProposalMismatch);
        }
        var error := CheckAgentEdit(task.snapshot.state, proposal.state, task.request.scope);
        if error.Some? {
          return Err(EditRefused);
        }
      }
      var answered := task.(reply := Some(reply));
      tasks := tasks[reply.requestId := answered];
      r := Ok(answered);
    }
  }
}
