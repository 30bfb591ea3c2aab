# Research control plane: verified model

A Dafny model of the event-sourced research control plane in `src/llm_research_os`, with
machine-checked proofs about its most intricate parts. `dafny verify dfyconfig.toml` checks
everything.

The project follows the system's own parts:

- **Canonical JSON** (RFC 8785). `KeyOrder`, `Sorting`, `DecimalNumber`, `NumberValue`,
  `Binary64`, `CanonicalJson`, `ObjectGraph` and `JcsSerializer` cover the printer from the
  UTF-16 member order and the rewriting of Python's float text up to whole object graphs
  with sharing and cycles. The main theorem: two object graphs have the same canonical text
  exactly when they are the same JSON value, and a parser recovers that value.
- **Event payload walk.** `PayloadWalk` is the enter/leave stack loop with its path set, its
  termination measure on shared graphs and its exact acceptance condition.
- **Exactly-once commands.** `EventLog`, `ReceiptLog` and `CommandProtocol` are a transition
  system over event log, receipt and intent tables and any number of processes that may
  crash between any two steps.
- **Budget ledger.** `BudgetLedger` is the fold over budget events in whole cents,
  `BudgetJournal` says of the log alone which events are justified and proves the fold exact,
  `BudgetWriters` is the rebuild, decide and compare-and-append control over a shared log.
- **Dashboard.** `DashboardMap` holds the containment forest and the Agent edit check,
  `DashboardEdits` what an accepted edit means for components, relations and pins,
  `DashboardStore` the revision store with pruning and the Agent inbox, as tables with
  transactional methods and as runs of their operations, `DashboardAnswers` the exact answer
  of each operation.
- **Artifact store.** `ArtifactFiles` is an inode-level file system under concurrent imports,
  verifications, failures and crashes, `ArtifactImports` shows how imports end;
  `ArtifactStore` is the code with its chunk and partial-write loops.
- **Plans.** `PlanWalks` has the three explicit-stack walks, `PlanNodes` their results read off
  all nodes of a plan, `Authorization` the gate, its report document and the two
  constructions of the decision payload, `AuthorizationGate` the gate's exact condition and
  the meaning of its outcome, `DecisionDigest` the link from that payload to canonical JSON,
  `SortedNames` Python's order on names.
- **Evaluation.** `Evaluation` has the metrics, their six-digit rounding, the check of stored
  details and the comparison, `ComparisonMeaning` what they say of the stored examples and
  of the two results' own values.

Modelling decisions that a reader should know:

- Python strings are sequences of code points, surrogates included; text is a sequence of
  Unicode scalar values. A float is its repr text, with the shape Python guarantees: no
  outer zeros, an exponent exactly from 16 up or from -5 down, and then at most 17
  significant digits.
- Digests are function parameters. A statement that depends on a collision says what happens
  with one and without one, for the values at hand.
- Each SQLite immediate transaction, link and unlink is one atomic step. `EventLog.Append`
  is the event store's compare-and-append.
- The methods of `ArtifactStore` take an argument that says whether system calls may fail;
  without faults they must succeed.
- Money is a natural number of cents, map coordinates are reals, metrics are exact ratios
  rounded to millionths.
- The budget control accepts a new limit below the committed money
  (`src/llm_research_os/budget/control.py:312-319`). The bound by the current limit is
  therefore stated with the condition under which it holds, next to a log that breaks it.
- A stale proposal does not always meet a revision conflict: if a retained revision already
  uses its request id, the identity check answers first
  (`src/llm_research_os/dashboard/store.py:101-108`). A run that shows it and the exact
  condition are stated.

## Model

| member | source | states |
|---|---|---|
| KeyOrder.BytesOrderIsUnitOrder | src/llm_research_os/canonical.py:109-125 | comparing UTF-16-BE byte strings is comparing UTF-16 code units, both directions |
| KeyOrder.UnitsInjective | src/llm_research_os/canonical.py:109-125 | different strings of scalar values have different UTF-16 code units |
| KeyOrder.MemberOrderIsStrictTotal | src/llm_research_os/canonical.py:109-125 | section 3.2.3 of RFC 8785: the member order is a strict total order on distinct keys and is the code-unit order |
| KeyOrder.MemberOrderAgainstCodePointOrder | src/llm_research_os/canonical.py:109-125 | where two keys first differ, UTF-16 order and code-point order disagree exactly for a supplementary character against U+E000..U+FFFF |
| Sorting.SortIncreasing | src/llm_research_os/canonical.py:119-123 | sorting items with distinct keys gives strictly increasing keys, for any strict total order |
| Sorting.SortDependsOnMembers | src/llm_research_os/canonical.py:119-123 | the sorted members depend only on which members there are, not on insertion order |
| Sorting.SortCommutesWithMap | src/llm_research_os/canonical.py:119-123 | serializing members before or after sorting them gives the same list |
| DecimalNumber.ReadBack | src/llm_research_os/canonical.py:154-218 | reading the ECMAScript rendering of a number in normal form gives the number back |
| DecimalNumber.NormalizePadded | src/llm_research_os/canonical.py:154-218 | outer zeros and the position of the point do not change the normal form |
| DecimalNumber.PlainNotationExactly | src/llm_research_os/canonical.py:199-218 | the rendering carries an exponent exactly outside the plain range |
| NumberValue.NormalizeKeepsValue | src/llm_research_os/canonical.py:154-218 | bringing a numeral to normal form keeps the real number it denotes |
| NumberValue.PlainRangeIsInterval | src/llm_research_os/canonical.py:199-218 | section 3.2.2.3 of RFC 8785: the plain range is exactly 1e-6 <= abs(x) < 1e21, as a statement about reals |
| NumberValue.ValueInjective | src/llm_research_os/canonical.py:154-218 | two numbers in normal form are equal exactly when they denote the same real |
| Binary64.SplitExponent | src/llm_research_os/canonical.py:176-184 | splits any genuine repr text at its exponent mark, with the exponent's value |
| Binary64.SplitFraction | src/llm_research_os/canonical.py:186-197 | splits the mantissa at the point and drops a fraction that is only zero |
| Binary64.PadRight | src/llm_research_os/canonical.py:199-207 | the first padding loop appends exactly the zeros that bring an integer to its point |
| Binary64.PadLeft | src/llm_research_os/canonical.py:208-216 | the second padding loop prepends exactly the zeros between the point and the digits |
| Binary64.Rearrange | src/llm_research_os/canonical.py:199-218 | after both padding branches the parts concatenate to the ECMAScript rendering |
| Binary64.SerializeFinite | src/llm_research_os/canonical.py:160-218 | for every genuine repr of a finite nonzero float, the rewritten text is the ECMAScript rendering of the number it denotes |
| Binary64.SerializeBinary64 | src/llm_research_os/canonical.py:154-218 | NaN and infinities are refused, both zeros print as 0, everything else as its ECMAScript rendering |
| Binary64.RewriteKeepsValue | src/llm_research_os/canonical.py:154-218 | the repr text and the printed text denote the same real number |
| Binary64.RewriteNotation | src/llm_research_os/canonical.py:199-218 | the printed text of a nonzero float has no exponent exactly when 1e-6 <= abs(x) < 1e21 |
| Binary64.IntTextIsEcma | src/llm_research_os/canonical.py:85-88 | an int in the safe range prints as the ECMAScript rendering of its value |
| Binary64.SameNumeralIffSameValue | src/llm_research_os/canonical.py:85-97 | two ints or finite floats print alike exactly when they are the same real number |
| CanonicalJson.ParseInvertsPrint | src/llm_research_os/canonical.py:77-144 | a parser recovers the JSON value of every document from its canonical text |
| CanonicalJson.PrintDependsOnMeaning | src/llm_research_os/canonical.py:109-125 | documents with the same JSON value print alike at every nesting depth, whatever their insertion order |
| CanonicalJson.SameTextIffSameValue | src/llm_research_os/canonical.py:77-144 | equal canonical text is equal JSON value, both directions |
| CanonicalJson.KeyLessIsStrictTotal | src/llm_research_os/canonical.py:119-123 | the member order the printer sorts by meets the sorting theorems' hypothesis |
| CanonicalJson.ObjectPrintsInUnitOrder | src/llm_research_os/canonical.py:109-125 | every valid object prints as its own members, each once, between braces and commas, in ascending UTF-16 code-unit order of their keys |
| CanonicalJson.QuoteIsShortest | src/llm_research_os/canonical.py:128-144 | no literal that a JSON parser reads as the string is shorter than the printed one, so short escapes are used wherever they exist |
| CanonicalJson.CharLiteralIsShortest | src/llm_research_os/canonical.py:128-144 | the same for a single character |
| ObjectGraph.CleanIffSound | src/llm_research_os/canonical.py:77-125 | the recursion with an ancestor set succeeds exactly on graphs where everything reachable is acceptable and on no cycle |
| JcsSerializer.SerializerAgrees | src/llm_research_os/canonical.py:77-144 | on every object graph, cyclic or shared, the serializer succeeds exactly on acceptable values and then prints the unfolded value |
| JcsSerializer.SucceedsIffSound | src/llm_research_os/canonical.py:40-43 | canonical_json succeeds exactly on acyclic graphs of I-JSON values with string keys |
| JcsSerializer.SameCanonicalIffSameJson | src/llm_research_os/canonical.py:40-144 | two object graphs have the same canonical text exactly when they are the same JSON value, however they share, nest or order their parts |
| JcsSerializer.ParseInvertsCanonical | src/llm_research_os/canonical.py:40-144 | parsing the canonical text of an object graph recovers its JSON value |
| JcsSerializer.QuoteString | src/llm_research_os/canonical.py:128-144 | the character loop yields the quoted literal that the parser reads back |
| JcsSerializer.Serializer.SerializeJcs | src/llm_research_os/canonical.py:77-95 | the dispatch returns the specified text or fault and restores the set of active containers |
| JcsSerializer.Serializer.SerializeArray | src/llm_research_os/canonical.py:98-106 | an array is marked active while its items are serialized and unmarked on every exit |
| JcsSerializer.Serializer.SerializeItems | src/llm_research_os/canonical.py:98-106 | items are serialized left to right up to the first fault |
| JcsSerializer.Serializer.SerializeObject | src/llm_research_os/canonical.py:109-125 | an object is checked, its members are sorted by the member order, serialized and joined, and it is unmarked on every exit |
| JcsSerializer.Serializer.SerializeMembers | src/llm_research_os/canonical.py:119-123 | members are serialized in order up to the first fault |
| JcsSerializer.Serializer.CheckKeys | src/llm_research_os/canonical.py:115-118 | reports the first key that is not an acceptable string |
| JcsSerializer.CanonicalText | src/llm_research_os/canonical.py:40-43 | one call starts with no active container and returns the specified result |
| JcsSerializer.DictionaryPrintsInUnitOrder | src/llm_research_os/canonical.py:109-125 | the canonical text of every serializable dictionary lists exactly its members in ascending UTF-16 code-unit order of their keys |
| JcsSerializer.AtomTexts | src/llm_research_os/canonical.py:77-95 | the text of each kind of atom: the three names, ints exactly within 9007199254740991, and no string with a surrogate |
| PayloadWalk.RequireEventPayload | src/llm_research_os/events/models.py:162-199 | on every finite object graph, cyclic or shared, the stack loop ends; it raises nothing exactly when the reachable graph is acyclic, its keys are allowed strings and its leaves JSON atoms, and a refusal has a reachable cause of the reported kind |
| PayloadWalk.PathIsAncestors | src/llm_research_os/events/models.py:167-199 | at every visit the path set is exactly the ancestors of the item, in order and without repetition |
| PayloadWalk.MarksArePath | src/llm_research_os/events/models.py:167-199 | the leave marks on the stack form a path from the root |
| PayloadWalk.BelowIsReachable | src/llm_research_os/events/models.py:162-199 | what the walk visits is reachable from the payload |
| PayloadWalk.SoundMeans | src/llm_research_os/events/models.py:30-51 | a payload is sound exactly when every container it reaches is on no cycle, has only string keys that spell none of the six body words, and only JSON atoms as leaves |
| EventLog.Append | src/llm_research_os/storage/store.py:593-711 | append is one compare-and-append: duplicate ids are refused before the head is compared, and a success keeps ids unique |
| EventLog.GetEvent | src/llm_research_os/storage/store.py:730-737 | lookup finds exactly the event with the id, and none when the id is absent |
| ReceiptLog.ReceiptTables.Lookup | src/llm_research_os/application/receipts.py:60-82 | returns the stored receipt of a command id, if any |
| ReceiptLog.ReceiptTables.ReserveEffect | src/llm_research_os/application/receipts.py:84-108 | inserts a reservation at most once per scope and never changes an existing one |
| ReceiptLog.ReceiptTables.Append | src/llm_research_os/application/receipts.py:151-179 | inserts a receipt at most once per command id and never changes an existing one |
| CommandProtocol.AtMostOnceDispatch | src/llm_research_os/application/service.py:1687-1740 | over every interleaving of processes and crashes each effect scope is launched at most once, with the digest the scope is bound to |
| CommandProtocol.CrashedReservationIsNeverLaunched | src/llm_research_os/application/service.py:1687-1740 | when a process crashes between reservation and dispatch, its scope stays bound to its digest and is never launched, in any later run |
| CommandProtocol.AbandonedScopeIsNeverLaunched | src/llm_research_os/application/service.py:1687-1740 | a scope that is reserved, not launched and held by no process stays so in every later run |
| CommandProtocol.EffectsActForBoundDigest | src/llm_research_os/application/service.py:1687-1740 | in every reachable state an effect that has reserved, launched, reported or committed anything has its scope bound to its own digest |
| CommandProtocol.OtherMaterialIsRefused | src/llm_research_os/application/service.py:1687-1740 | from any reachable state, an effect whose scope is bound to another digest never reserves, launches, reports or commits in any later run, none of its steps changes a table, and every launch of the scope carries the other digest |
| CommandProtocol.OnlyReviewedMaterialActs | src/llm_research_os/application/service.py:1677-1740 | over every run an effect past its checks acts for the reviewed digest, if one was reviewed, and every launch belongs to an effect of that scope and digest whose reviewed digest is that one |
| CommandProtocol.ChangedMaterialNeverActs | src/llm_research_os/application/service.py:1677-1681 | over every run an effect whose reviewed digest differs from its frozen one never reserves, launches, reports or commits |
| CommandProtocol.OvertakenEffectIsRefused | src/llm_research_os/application/service.py:250-264 | once the log has passed the head an effect expects, the effect changes no table in any later run |
| CommandProtocol.BoundScopeIsNotRelaunched | src/llm_research_os/application/service.py:1687-1697 | an effect whose scope is already bound to its digest commits without a launch, and one whose scope is bound to another digest is refused |
| CommandProtocol.NothingIsTakenBack | src/llm_research_os/application/receipts.py:84-179 | facts, receipts, reservations and launches only grow along every run |
| CommandProtocol.FactsAreRecordedOnce | src/llm_research_os/application/service.py:1779-1857 | in every reachable state event ids are unique and every fact a receipt cites is in the log |
| CommandProtocol.FactFollowsExpectedHead | src/llm_research_os/application/service.py:1471-1531 | a step appends at most its command's own fact, and a new fact sits at the expected head + 1 |
| CommandProtocol.FreshFactCommits | src/llm_research_os/application/service.py:1471-1531 | undisturbed, a new decision or cancellation at its expected head commits: its fact becomes the next event, its receipt cites it at that head, and nothing else changes |
| CommandProtocol.FreshEffectCommits | src/llm_research_os/application/service.py:1677-1715 | undisturbed, an effect on a free scope for reviewed material at its expected head is launched once and commits |
| CommandProtocol.LostRace | src/llm_research_os/application/service.py:1498-1512 | a decision that lost the race to its very fact commits with that fact, and is refused when the id holds another fact; a cancellation is refused |
| CommandProtocol.MovedHeadIsRefused | src/llm_research_os/application/service.py:1513-1520 | a new fact whose head moved after the rebuild is refused and nothing is appended |
| CommandProtocol.ReceiptCitesItsFact | src/llm_research_os/application/service.py:250-284 | a new receipt belongs to its command and request, and a decision or cancellation cites exactly its own recorded fact |
| CommandProtocol.CommittedCommandIsReplayed | src/llm_research_os/application/service.py:250-262 | a process that looks its command up after the commit has, in every later run, not started, got that very receipt for the same request, been refused or crashed, and none of its steps changes a table |
| CommandProtocol.LateProcessWritesNoReceipt | src/llm_research_os/application/service.py:250-284 | a process that looked its command up before another one committed it never writes a receipt in any later run, leaves that receipt alone, and appends at most its own fact, only while no event has that id |
| CommandProtocol.RetryRecoversFact | src/llm_research_os/application/service.py:1779-2030 | under any interleaving, a retry of a decision or cancellation whose fact is recorded never appends again; if it is not itself crashed or failed it has stopped after five own steps with a receipt for its command, and its own commit cites exactly that fact |
| CommandProtocol.RetryAloneCommits | src/llm_research_os/application/service.py:1979-2030 | undisturbed, such a retry writes exactly the missing receipt, however far the head has moved |
| CommandProtocol.RunKeeps | src/llm_research_os/application/service.py:250-467 | the protocol invariant holds along every run |
| BudgetLedger.FoldKeepsFoldOk | src/llm_research_os/budget/control.py:173-319 | in every log that folds, ids are distinct and open ids stay apart from closed ones |
| BudgetLedger.NoIdReopens | src/llm_research_os/budget/control.py:218-296 | a closed id stays closed and is never open again in any extension that folds |
| BudgetLedger.CommittedWithinLargestLimit | src/llm_research_os/budget/control.py:197-242 | consumed plus outstanding never exceeds the largest project limit recorded so far |
| BudgetLedger.CommittedWithinCurrentLimit | src/llm_research_os/budget/control.py:197-319 | it stays within the current limit when no limit below the committed total is ever recorded |
| BudgetLedger.AlwaysWithinIff | src/llm_research_os/budget/control.py:197-319 | the project is within the limit in force at every head exactly when no limit below the money then committed was recorded |
| BudgetLedger.LimitKeepsCommitted | src/llm_research_os/budget/control.py:312-319 | after a limit event the project is within its limit exactly when the new limit is not below the committed money |
| BudgetLedger.LoweredLimitIsExceeded | src/llm_research_os/budget/control.py:312-319 | a concrete log in which a lowered limit is accepted and then exceeded |
| BudgetLedger.MoneyIsConserved | src/llm_research_os/budget/control.py:218-296 | total reserved = outstanding + consumed + released + unspent remainder, for every log that folds |
| BudgetJournal.FoldsExactly | src/llm_research_os/budget/control.py:173-319 | a log folds exactly when every budget event is justified by the events before it alone: a human sets limits and the system records the rest, reserved and exceeded ids are new, a consumption or release matches an open reservation in call, currency, cap and amount, and new money names the limit in force and stays under it |
| BudgetJournal.FoldRemembers | src/llm_research_os/budget/control.py:197-319 | the fold holds exactly the last limit, the ids closed by consumption, release or excess, and the reservations recorded and not closed |
| BudgetJournal.WhoRecords | src/llm_research_os/budget/models.py:121-133 | in every log that folds a limit is recorded by a human and every other budget fact by the system |
| BudgetWriters.AppendAt | src/llm_research_os/budget/control.py:133-171 | an append succeeds exactly at the unmoved head, below the last sequence number, with a valid draft of this project without store fields, a new id and an event the fold accepts, and adds exactly that event |
| BudgetWriters.AppendsExactly | src/llm_research_os/budget/control.py:133-171 | with a fold rebuilt at its head, an append succeeds exactly when nothing was appended since, the store can take the draft and the log justifies it |
| BudgetWriters.ReserveOrExceedAppendsOne | src/llm_research_os/budget/control.py:95-131 | one event exactly when the call does not fail otherwise: the reservation when it fits, the exceeded fact when it does not; the log is unchanged exactly on any other error |
| BudgetWriters.ReserveOrExceedExactly | src/llm_research_os/budget/control.py:95-131 | the exact condition, on the log, for storing the reservation and for storing the exceeded fact instead |
| BudgetWriters.BudgetSafety | src/llm_research_os/budget/control.py:80-137 | over every interleaving of writers rebuild never fails, every budget event is justified by the events before it and recorded by the actor its kind requires, committed money is within the largest limit, every cent is accounted for, and the project is always within its current limit exactly when no limit below the committed money was recorded |
| BudgetWriters.BudgetControl.Rebuild | src/llm_research_os/budget/control.py:80-90 | the loop over the log returns the fold at the frozen head, or fails exactly when some event does not fold |
| BudgetWriters.BudgetControl.ReserveOrExceedCall | src/llm_research_os/budget/control.py:95-137 | the call, with other writers appending after its rebuild, has the specified outcome and log |
| DashboardMap.AncestorsOk | src/llm_research_os/dashboard/models.py:105-114 | the visited-set walk accepts a component exactly when its parent chain is finite and has at most eight ancestors |
| DashboardMap.CoherentMap | src/llm_research_os/dashboard/models.py:92-120 | the validator accepts exactly the coherent maps: unique ids, fitting group parents, bounded acyclic containment, sound relations |
| DashboardEdits.CoherentExactly | src/llm_research_os/dashboard/models.py:92-120 | a map is coherent exactly when ids are distinct, each child sits in an existing group below y = 48 and within its right and lower edge, chains have at most eight ancestors, and relations join two different known components |
| DashboardEdits.NestedInside | src/llm_research_os/dashboard/models.py:98-104 | measured from any of its ancestors, a component lies inside that ancestor and below one header per level |
| DashboardMap.ChainDistinct | src/llm_research_os/dashboard/models.py:105-114 | a parent chain never repeats a component |
| DashboardMap.EightStepsSuffice | src/llm_research_os/dashboard/models.py:162-169 | because a coherent map has at most eight ancestors, eight rounds reach every new component below the scope |
| DashboardMap.GrowOnce | src/llm_research_os/dashboard/models.py:164-169 | one pass over the proposed components adds everything one step further down and nothing outside the region |
| DashboardMap.GrowScope | src/llm_research_os/dashboard/models.py:156-169 | the eight-round loop computes exactly the new components whose parent chain through new components reaches the scope, and the scope |
| DashboardMap.CheckScope | src/llm_research_os/dashboard/models.py:156-183 | the scoped part raises the specified error, in the order in which the checks are tried |
| DashboardEdits.ScopeRefusals | src/llm_research_os/dashboard/models.py:156-183 | every refusal of the scoped part with its exact condition on components and relations: unknown ids, missing descendants, a component or relation touched outside the region, changed appearance or viewport |
| DashboardEdits.RegionMeans | src/llm_research_os/dashboard/models.py:156-169 | the region is the scope and the new components that hang below it through new ones |
| DashboardMap.CheckPin | src/llm_research_os/dashboard/models.py:184-208 | the ancestor loop always ends without a missing key and passes exactly when the pin and all its ancestors are kept; each error has its cause |
| DashboardMap.CheckAgentEdit | src/llm_research_os/dashboard/models.py:150-208 | the whole check raises nothing exactly for the allowed edits, and a scope error takes precedence over a pin error |
| DashboardEdits.EditAllowedExactly | src/llm_research_os/dashboard/models.py:150-208 | the whole check, exactly: every pin keeps its frame and its ancestors their place, and a scoped edit names whole regions, keeps every component and every relation with an end outside them, and changes neither appearance nor viewport |
| DashboardEdits.RelationsMean | src/llm_research_os/dashboard/models.py:173-181 | the relation test means that relations removed, added or changed have both ends in the region |
| DashboardMap.OutsideScopeUntouched | src/llm_research_os/dashboard/models.py:156-172 | in an accepted scoped edit each existing out-of-scope component and all its ancestors are unchanged, and so is its absolute position |
| DashboardMap.NewHangsBelowScope | src/llm_research_os/dashboard/models.py:162-172 | every component an accepted scoped edit adds hangs below the scope through new components only |
| DashboardMap.PinStays | src/llm_research_os/dashboard/models.py:184-208 | an accepted edit keeps a pin's position, parent, kind, binding and pinning, its ancestors and its absolute position, and collapses none of its ancestors |
| DashboardMap.PinsReflexive | src/llm_research_os/dashboard/models.py:184-208 | the pin check accepts an unchanged map |
| DashboardMap.PinsTransitive | src/llm_research_os/dashboard/models.py:184-208 | two accepted edits in a row keep what one edit must keep |
| DashboardStore.WriteCases | src/llm_research_os/dashboard/store.py:87-143 | exactly when a write is stored, refused for its revision or refused for its edit, and what is then in the table |
| DashboardAnswers.WriteAnswers | src/llm_research_os/dashboard/store.py:87-143 | in terms of the stored writes: exactly when a write is answered from a retained revision, stored or in conflict, and the whole table after storing |
| DashboardAnswers.WriteRefusedOutright | src/llm_research_os/dashboard/store.py:88-92 | a write is refused outright exactly for another project or an encoding over 1047552 bytes |
| DashboardAnswers.HeldAnswers | src/llm_research_os/dashboard/store.py:101-108 | one of the last thirty writes with the request id answers: its document for the same digest, a refusal otherwise |
| DashboardStore.RunKeeps | src/llm_research_os/dashboard/store.py:87-143 | the invariant of store and inbox holds along every run, and the history of stored writes only grows |
| DashboardStore.RevisionsAreABlock | src/llm_research_os/dashboard/store.py:118-143 | in every reachable state the table is the block of at most thirty revisions ending at the current one, and every stored write sits directly on the revision it named |
| DashboardStore.StoredAtMostOnce | src/llm_research_os/dashboard/store.py:101-143 | an identical request is stored at most once in a whole run, even after its row is pruned |
| DashboardStore.ResendIsHarmless | src/llm_research_os/dashboard/store.py:101-117 | resending a stored request stores nothing; while its row is retained the stored document is returned, and otherwise, if its id is free, it meets a revision conflict |
| DashboardStore.RevisionNamesOneDocument | src/llm_research_os/dashboard/store.py:126-142 | a revision number shows the same row whenever it is retained |
| DashboardStore.PinSurvivesRun | src/llm_research_os/dashboard/store.py:116-117 | while only Agents write, a pin keeps its ancestors and absolute position over the whole run and no ancestor becomes collapsed |
| DashboardStore.Inbox.Read | src/llm_research_os/dashboard/store.py:59-85 | returns the current, the empty or the retained document, or the error for each other revision |
| DashboardStore.Inbox.WriteRequest | src/llm_research_os/dashboard/store.py:87-143 | the method has the specified outcome and table, and keeps documents valid and request ids unique |
| DashboardStore.Inbox.AskAgent | src/llm_research_os/dashboard/agents.py:75-121 | the method has the specified outcome and task table |
| DashboardAnswers.AskAnswers | src/llm_research_os/dashboard/agents.py:75-121 | a new request is taken exactly for this project, at the newest revision of a saved map, with a nonempty known scope closed under children and fewer than 100 tasks, and freezes that revision; a known id answers the same request only |
| DashboardStore.Inbox.ReplyTo | src/llm_research_os/dashboard/agents.py:123-152 | the method has the specified outcome and task table |
| DashboardAnswers.ReplyAnswers | src/llm_research_os/dashboard/agents.py:123-152 | a reply is recorded exactly for an unanswered task and, with a proposal, when that is an Agent write on the frozen revision with the task's scope that passes the edit check; the same reply again returns the task |
| DashboardStore.TasksAreFrozenRequests | src/llm_research_os/dashboard/agents.py:94-121 | at most 100 tasks; each froze the map of the revision it named, with a nonempty scope of that map closed under descendants |
| DashboardStore.SelfEditAllowedIff | src/llm_research_os/dashboard/agents.py:103-108 | checking a map against itself tests exactly that the scope is known and closed under descendants |
| DashboardStore.ReplyIsFinal | src/llm_research_os/dashboard/agents.py:123-152 | tasks are never removed, request and snapshot never change, and a recorded reply never changes |
| DashboardStore.ProposalFitsItsSnapshot | src/llm_research_os/dashboard/agents.py:137-147 | while the map is at the snapshot revision a recorded proposal meets no revision conflict and no refused edit, and is stored exactly when it is small enough and its request id is free |
| DashboardStore.StaleProposalNeverLands | src/llm_research_os/dashboard/agents.py:137-147 | once the map has moved on a recorded proposal is never stored; it meets a revision conflict exactly when it is small enough and its request id is free |
| DashboardStore.StaleProposalWithoutConflict | src/llm_research_os/dashboard/store.py:101-108 | a run in which a recorded, stale and never stored proposal meets no revision conflict, with the exact answer it gets, because a retained revision holds its request id |
| DashboardStore.UnappliedStaleProposalIsRefused | src/llm_research_os/dashboard/agents.py:137-147 | a stale proposal is refused exactly unless a retained revision holds both its request id and its digest; so it is refused when no stored write has its digest |
| DashboardStore.HeldRequestAnswers | src/llm_research_os/dashboard/store.py:101-108 | a write whose request id a retained revision holds is refused for another digest and otherwise answered with that revision's document |
| ArtifactFiles.RunKeeps | src/llm_research_os/artifacts/store.py:89-182 | the file-system invariant holds along every interleaving of imports, verifications, failures and crashes |
| ArtifactFiles.ObjectsAreImmutable | src/llm_research_os/artifacts/store.py:597-622 | every object's bytes hash to its name and never change after publication, in any later run |
| ArtifactFiles.NoWriterReachesAnObject | src/llm_research_os/artifacts/store.py:102-121 | no import with writes left to make shares an inode with a published object, although the object shares its inode with the temporary name until unlink |
| ArtifactFiles.PutIsDurable | src/llm_research_os/artifacts/store.py:89-182 | after a successful import the object is there in every later state with the imported size and hash, and with the imported bytes unless the hash collides |
| ArtifactFiles.PutThenVerify | src/llm_research_os/artifacts/store.py:197-226 | a verification begun at any time after a successful import can only be still reading, have succeeded with the import's size, or have had a read of its own fail |
| ArtifactFiles.VerifyCanFinish | src/llm_research_os/artifacts/store.py:197-226 | a verification under way succeeds when it reads on to the end of the file |
| ArtifactImports.PutCanFinish | src/llm_research_os/artifacts/store.py:89-130 | from every reachable state, steps of an import alone finish it: it succeeds for a new digest, which then names its own file, and for a stored one of the same size, and its temporary name is gone |
| ArtifactImports.PutBytesCanFinish | src/llm_research_os/artifacts/store.py:132-182 | the same for bytes in memory within the limit |
| ArtifactImports.FinishWriting | src/llm_research_os/artifacts/store.py:547-594 | the same from the middle of copying, for any bytes still to be read |
| ArtifactImports.ImportsTaken | src/llm_research_os/artifacts/store.py:141-146 | bytes in memory are taken only within a positive limit and an unused temporary name, otherwise nothing changes |
| ArtifactStore.ReadChunk | src/llm_research_os/artifacts/store.py:573-581 | a read returns nothing exactly at the end of the file |
| ArtifactStore.LocalArtifactStore.WriteAll | src/llm_research_os/artifacts/store.py:584-594 | the partial-write loop appends all the data, or fails having appended a prefix |
| ArtifactStore.LocalArtifactStore.CopyHashed | src/llm_research_os/artifacts/store.py:547-554 | on success the file has grown by exactly the source bytes and the digest and size are theirs |
| ArtifactStore.LocalArtifactStore.HashFd | src/llm_research_os/artifacts/store.py:564-570 | the chunk loop hashes and counts the whole file |
| ArtifactStore.LocalArtifactStore.CreateTemp | src/llm_research_os/artifacts/store.py:526-544 | exclusive creation adds one new empty file or changes nothing |
| ArtifactStore.LocalArtifactStore.Publish | src/llm_research_os/artifacts/store.py:597-636 | links the finished file under its digest or requires a matching object; an integrity failure means an object of another size; without faults nothing else fails |
| ArtifactStore.LocalArtifactStore.Put | src/llm_research_os/artifacts/store.py:89-130 | success stores or finds an object of the source's digest and size, a new object holds exactly the source, stored objects are untouched and at most the import's own temporary name remains; under an unused name and without faults it fails only for a stored object of another size |
| ArtifactStore.LocalArtifactStore.PutBytes | src/llm_research_os/artifacts/store.py:132-182 | the same for bytes in memory, refused exactly beyond the limit |
| ArtifactStore.LocalArtifactStore.Verify | src/llm_research_os/artifacts/store.py:197-226 | not found exactly for absent digests, never a mismatch, otherwise the object's size, and without faults always one of these |
| PlanWalks.SourceCounts | src/llm_research_os/execution/kernel.py:126-152 | the truncating stack walk counts exactly the first max_nodes nodes in pre-order and is truncated exactly when the nested graph has more |
| PlanWalks.VisitNext | src/llm_research_os/execution/kernel.py:137-151 | one step of the stack takes exactly the next node in pre-order |
| PlanWalks.PlanCounts | src/llm_research_os/execution/models.py:264-282 | the worklist computes the recursive counts of tasks, approvals, loops and stages |
| PlanNodes.CountsAreNodes | src/llm_research_os/execution/models.py:264-282 | the recursive counts are the numbers of task, approval and loop nodes among all nodes at every depth |
| PlanNodes.AccessIsDeclared | src/llm_research_os/execution/authorization.py:273-286 | a capability or permission is required exactly when some task standing in the graph, at any depth, declares it |
| PlanWalks.DeclaredAccess | src/llm_research_os/execution/authorization.py:273-286 | the worklist computes the recursive union of capabilities and permissions over nested loops |
| Authorization.ValidatedDecisions | src/llm_research_os/execution/authorization.py:255-270 | the loop accepts exactly lists of nonempty, distinct requirement ids and returns their decision map |
| Authorization.DecisionMapEntries | src/llm_research_os/execution/authorization.py:258-270 | the decision map holds exactly the decided ids, each with its decision |
| Authorization.FactsOf | src/llm_research_os/execution/authorization.py:130-145 | an accepted policy grants only what the plan requires and decides only its requirements |
| AuthorizationGate.EvaluatedExactly | src/llm_research_os/execution/authorization.py:96-145 | the gate evaluates a policy exactly when the plan is ready, all three digests are the plan's and well formed, every needed capability is one of the eleven registered ones, requirement ids are distinct, and grants and decisions are distinct, well formed and within the plan |
| AuthorizationGate.OutcomeAccess | src/llm_research_os/execution/authorization.py:147-148 | the outcome carries the plan's digests and, in ascending order, exactly what its tasks need and what of that the policy does not grant |
| AuthorizationGate.OutcomeRequirements | src/llm_research_os/execution/authorization.py:149-163 | each requirement is listed under the decision the policy records for it, and as pending when it records none |
| AuthorizationGate.OutcomeStatus | src/llm_research_os/execution/authorization.py:165-208 | the status follows from the lists, and the digested payload names the same status, digests, grants and decisions |
| AuthorizationGate.AcceptedReportMeans | src/llm_research_os/execution/authorization_documents.py:238-281 | any report its validator accepts has ordered lists, disjoint dispositions and the status its lists imply |
| Authorization.HavingIs | src/llm_research_os/execution/authorization.py:149-163 | each disposition list is the ascending list of exactly the requirements with that decision |
| Authorization.StatusMeans | src/llm_research_os/execution/authorization.py:165-170 | authorized exactly when everything required is granted and approved; denied exactly when something is missing or denied |
| Authorization.StatusIsMonotone | src/llm_research_os/execution/authorization.py:165-170 | more grants or approvals never lower the status |
| Authorization.MorePolicyNeverLowersStatus | src/llm_research_os/execution/authorization.py:96-216 | the same at the gate, for two accepted policies on one plan |
| Authorization.PayloadsAgree | src/llm_research_os/execution/authorization_documents.py:283-316 | the payload rebuilt from the report equals the payload the gate digested, for every accepted input |
| Authorization.ReportIsSelfConsistent | src/llm_research_os/execution/authorization_documents.py:238-281 | the report built from any result passes its own validator, digest included |
| Authorization.ResultBecomesReport | src/llm_research_os/execution/authorization_documents.py:318-349 | the report is also within the document's field bounds exactly when no requirement id is longer than 4096 characters |
| Authorization.PayloadDeterminesReport | src/llm_research_os/execution/authorization_documents.py:238-316 | two valid reports with the same payload are the same report |
| Authorization.PayloadDeterminesDecision | src/llm_research_os/execution/authorization.py:172-216 | two accepted evaluations with the same payload are the same decision in every field |
| DecisionDigest.SameTextIffSameDecision | src/llm_research_os/execution/authorization.py:172-208 | the canonical text that is hashed is the same exactly for the same decision |
| SortedNames.AscendingUnique | src/llm_research_os/execution/authorization.py:147-163 | a set of names has only one ascending sequence |
| SortedNames.SelectAscending | src/llm_research_os/execution/authorization.py:149-163 | filtering a sorted list gives the sorted list of the kept names |
| Evaluation.Ratio | src/llm_research_os/evaluation/evaluator.py:266-273 | the six-digit metric is within [0, 1] and within half a millionth of the value |
| ComparisonMeaning.RatioIsNearestEven | src/llm_research_os/evaluation/evaluator.py:266-273 | the metric is the nearest number of millionths, the even one of two equally near, and the ends of the unit interval beyond it |
| Evaluation.RatioMonotone | src/llm_research_os/evaluation/evaluator.py:266-273 | rounding keeps the order of values |
| Evaluation.AverageF1 | src/llm_research_os/evaluation/evaluator.py:281-295 | the loop over the labels returns the mean of the two F1 scores, within [0, 1] |
| Evaluation.ParseDetail | src/llm_research_os/evaluation/evaluator.py:308-374 | accepts exactly details that are well-formed, consistent and whose aggregate is that of their examples |
| ComparisonMeaning.AcceptedExactly | src/llm_research_os/evaluation/evaluator.py:308-370 | a detail is accepted exactly with one to ten thousand sound rows of distinct ids and the rounded rates of right and wrong answers and mean F1 of those rows |
| ComparisonMeaning.F1BalancesPrecisionAndRecall | src/llm_research_os/evaluation/evaluator.py:281-295 | the F1 score of a label is the harmonic mean of precision and recall, and zero when the label never occurs |
| ComparisonMeaning.RecomputeExactly | src/llm_research_os/evaluation/evaluator.py:231-263 | a recomputation is refused exactly for an empty detail or one that is not that of the examples, and otherwise marks each stored prediction against its example |
| Evaluation.RecomputeReproduces | src/llm_research_os/evaluation/evaluator.py:231-263 | an accepted result is reproduced exactly from its own detail |
| Evaluation.RecomputeIsAccepted | src/llm_research_os/evaluation/evaluator.py:231-263 | whatever a result claimed, its recomputation over valid rows is an accepted result |
| Evaluation.ErrorsAreMisses | src/llm_research_os/evaluation/evaluator.py:276-299 | on accepted details the error sum is the number of misses |
| Evaluation.RoundingSeparates | src/llm_research_os/evaluation/evaluator.py:266-279 | for equal counts of at most 10000, rounding neither merges nor reverses two different accuracies; they stay 99 millionths apart |
| Evaluation.AcceptedIsComplete | src/llm_research_os/evaluation/evaluator.py:356-362 | an accepted detail carries all three metrics, each within [0, 1] |
| Evaluation.AccuracyAndErrorAgree | src/llm_research_os/evaluation/compare.py:124-149 | accuracy and mean absolute error always point the same way, and follow the hit counts |
| Evaluation.ConflictInvolvesMacroF1 | src/llm_research_os/evaluation/compare.py:160-167 | any conflict sets macro F1 against accuracy, neither of them unchanged |
| Evaluation.AccuracyAndMacroF1Conflict | src/llm_research_os/evaluation/compare.py:160-167 | such a conflict exists: two accepted results of one setup, on four examples, on which accuracy rises and macro F1 falls, and whose comparison is refused |
| Evaluation.Compare | src/llm_research_os/evaluation/compare.py:100-184 | the loop with its two counters computes the Pareto verdict, the deltas and the missing metrics |
| ComparisonMeaning.DeltasCarryValues | src/llm_research_os/evaluation/compare.py:138-158 | each delta carries the baseline's and the candidate's own values with the direction from the one to the other, and every metric both report has one |
| ComparisonMeaning.VerdictMeans | src/llm_research_os/evaluation/compare.py:160-184 | improved exactly when some metric is better and none worse, regressed the reverse, unchanged when neither; missing are exactly the metrics one of the two lacks |
| ComparisonMeaning.ComparedWhen | src/llm_research_os/evaluation/compare.py:100-150 | refused outright for different setups, invalid exactly when a compared value is not a ratio |
| Evaluation.SwapReverses | src/llm_research_os/evaluation/compare.py:100-184 | swapping the arguments swaps improved and regressed, mirrors every delta and changes nothing else |
| Evaluation.ImprovedIsTransitive | src/llm_research_os/evaluation/compare.py:160-167 | improved is a strict order on results with all metrics, such as accepted ones: transitive and never mutual |
| Evaluation.SupportIff | src/llm_research_os/evaluation/compare.py:70-82 | two results with all metrics support a conclusion exactly when their setups agree and their metrics do not conflict |
| ComparisonMeaning.SupportsExactly | src/llm_research_os/evaluation/compare.py:70-82 | any two results support a conclusion exactly when their setups agree, both report every metric as a ratio and no metric contradicts another |

## Left out

- Command-line and web interfaces, schema generation, scripts, examples: presentation only.
- SHA-256, HMAC, Ed25519 and JSON Schema validation: foreign code, represented by function parameters.
- How Python produces a float's repr, and rounding inside float arithmetic: the repr grammar is a precondition, metrics are exact ratios before rounding.
- Field patterns and numeric ranges of validated documents, except where a statement depends on them: documents are taken as already validated.
- The `json.dumps` call after the payload loop (`src/llm_research_os/events/models.py:200-205`), which refuses NaN, infinities and strings that cannot be encoded; byte limits on events; the CloudEvents string and URI patterns of that file.
- The interpreter's recursion limit: the recursive serializer is modelled on graphs of any depth.
- Provider, PDF, SSH, native process, worker and model calls: one abstract dispatch step per effect.
- Commands other than decisions, cancellations and dispatched effects: their receipts follow the same steps.
- Wall-clock time, actor authentication and error-message text: times are inputs, errors are tags.
- SQLite internals, fsync durability, and path, symlink and descriptor checks: a failed fsync only appears as a failed call.
- The text of the metric strings, the change column of a comparison and its limitation notes: metrics are held as millionths.
- The listing of the inbox and the missing-table errors of `src/llm_research_os/dashboard/agents.py`: reading only; asking before any save is one refusal here.
- Evidence and authorization-lineage folds, money text parsing, planner and spec modules: they would add only simple members.
- BudgetWriters.BudgetControl.ReserveOrExceedCall: other writers are represented by the events they append between rebuild and append, given as an argument.
- ArtifactStore.LocalArtifactStore.Put: runs without other processes in between; interleavings are covered by the transition system in `ArtifactFiles`.
