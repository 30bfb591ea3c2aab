/** The event store as its callers see it: an append-only log with unique event ids and an
    atomic compare-and-append. The n-th event has sequence number n. */
module EventLog {
  import opened Wrappers

  /** An event: its identity and the content its caller supplied. */
  datatype Event<C> = Event(id: string, content: C)

  type Log<C> = seq<Event<C>>

  predicate UniqueIds<C>(log: Log<C>)
  {
    forall i, j :: 0 <= i < j < |log| ==> log[i].id != log[j].id
  }

  function Ids<C>(log: Log<C>): set<string>
  {
    set i | 0 <= i < |log| :: log[i].id
  }

  /** Looks an event up by id. */
  function GetEvent<C>(log: Log<C>, id: string): (r: Option<Event<C>>)
    ensures r.Some? ==> r.value in log && r.value.id == id
    ensures r.None? <==> id !in Ids(log)
    ensures forall i :: 0 <= i < |log| && log[i].id == id && UniqueIds(log) ==> r == Some(log[i])
  {
    if log == [] then None
    else if log[|log|-1].id == id then Some(log[|log|-1])
    else
      assert log == log[..|log|-1] + [log[|log|-1]];
      GetEvent(log[..|log|-1], id)
  }

  datatype AppendResult<C> = Duplicate | SequenceConflict | Appended(log: Log<C>)

  /** One immediate transaction: the duplicate check comes before the head check. */
  function Append<C>(log: Log<C>, e: Event<C>, expected: Option<nat>): (r: AppendResult<C>)
    ensures r.Duplicate? <==> e.id in Ids(log)
    ensures r.Appended? ==> r.log == log + [e] && (expected.Some? ==> expected.value == |log|)
    ensures r.Appended? && UniqueIds(log) ==> UniqueIds(r.log)
    ensures r.SequenceConflict? ==> expected.Some? && expected.value != |log|
  {
    if GetEvent(log, e.id).Some? then Duplicate
    else if expected.Some? && expected.value != |log| then SequenceConflict
    else
      assert forall i :: 0 <= i < |log| ==> log[i].id in Ids(log);
      Appended(log + [e])
  }
}
