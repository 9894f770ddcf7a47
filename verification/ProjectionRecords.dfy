/** The record shown for a message or a call: how each journal entry changes it. */
module ProjectionRecords {
  import opened Basics
  import opened Selection
  import opened Transcript
  import opened Drafts
  import opened Projection
  import opened ProjectionConserves

  /* ---- the record under an id ---- */

  /** The list holds this record under its id, or none when there is none. */
  ghost predicate RecordIs<V>(id: V -> string, xs: seq<V>, key: string, record: Option<V>) {
    match record
    case None => !Has(id, xs, key)
    case Some(x) => x in xs && id(x) == key
  }

  lemma {:induction false} FindRecord<V>(id: V -> string, xs: seq<V>, key: string)
    ensures RecordIs(id, xs, key, Find(id, xs, key))
  {
    if xs != [] {
      FindRecord(id, xs[1..], key);
      assert xs == [xs[0]] + xs[1..];
      HasCons(id, xs[0], xs[1..], key);
    }
  }

  /** With distinct ids there is one record under each. */
  lemma OneRecord<V>(id: V -> string, xs: seq<V>, key: string, record: Option<V>)
    requires Distinct(id, xs) && RecordIs(id, xs, key, record)
    ensures record == Find(id, xs, key)
  {
    FindRecord(id, xs, key);
    if record.Some? {
      var i :| 0 <= i < |xs| && xs[i] == record.value;
      assert Has(id, xs, key);
      var found := Find(id, xs, key).value;
      var j :| 0 <= j < |xs| && xs[j] == found;
      assert id(xs[i]) == id(xs[j]);
      assert !(i < j) && !(j < i);
    }
  }

  lemma {:induction false} FindPut<V>(id: V -> string, xs: seq<V>, x: V, key: string)
    ensures Find(id, Put(id, xs, x), key) == if id(x) == key then Some(x) else Find(id, xs, key)
  {
    if xs != [] && id(xs[0]) != id(x) {
      FindPut(id, xs[1..], x, key);
      var rest := Put(id, xs[1..], x);
      assert ([xs[0]] + rest)[1..] == rest;
    } else if xs != [] {
      assert ([x] + xs[1..])[1..] == xs[1..];
    } else {
      assert [x][1..] == [];
    }
  }

  /* ---- what the caches hold ---- */

  /** The last of the cached records with an id, as the map of the source keeps it. */
  ghost predicate LastWith<V>(id: V -> string, xs: seq<V>, key: string, record: Option<V>) {
    match record
    case None => forall x :: x in xs ==> id(x) != key
    case Some(x) => exists i :: LastAt(id, xs, key, i) && xs[i] == x
  }

  ghost predicate LastAt<V>(id: V -> string, xs: seq<V>, key: string, i: int) {
    0 <= i < |xs| && id(xs[i]) == key && forall j :: i < j < |xs| ==> id(xs[j]) != key
  }

  lemma {:induction false} PutAllLast<V>(id: V -> string, xs: seq<V>, key: string)
    ensures LastWith(id, xs, key, Find(id, PutAll(id, [], xs), key))
  {
    if xs != [] {
      var n := |xs| - 1;
      var front := xs[..n];
      PutAllLast(id, front, key);
      FindPut(id, PutAll(id, [], front), xs[n], key);
      assert xs == front + [xs[n]];
      var record := Find(id, PutAll(id, [], front), key);
      if id(xs[n]) == key {
        assert LastAt(id, xs, key, n);
      } else if record.Some? {
        var i :| LastAt(id, front, key, i) && front[i] == record.value;
        assert LastAt(id, xs, key, i);
      }
    }
  }

  predicate Removed(journal: seq<Entry>, entryId: string) {
    exists e :: e in journal && e.id == entryId && e.status == "removed"
  }

  /** Before the journal is read, a message is what the cache holds last under its id, unless it was removed. */
  lemma CachedMessage(messages: seq<Message>, journal: seq<Entry>, key: string)
    ensures var record := Find(MESSAGE_ID, CachedMessages(messages, journal), key);
      if Removed(journal, "message:" + key) then record == None else LastWith(MESSAGE_ID, messages, key, record)
  {
    var keep := KeepMessage(RemovedIds(journal));
    PutAllLast(MESSAGE_ID, Filter(keep, messages), key);
    assert Removed(journal, "message:" + key) <==> "message:" + key in RemovedIds(journal);
    KeptLast(MESSAGE_ID, keep, messages, key, "message:" + key !in RemovedIds(journal),
             Find(MESSAGE_ID, CachedMessages(messages, journal), key));
  }

  lemma CachedCall(calls: seq<Call>, journal: seq<Entry>, key: string)
    ensures var record := Find(CALL_ID, CachedCalls(calls, journal), key);
      if Removed(journal, "tool_call:" + key) then record == None else LastWith(CALL_ID, calls, key, record)
  {
    var keep := KeepCall(RemovedIds(journal));
    PutAllLast(CALL_ID, Filter(keep, calls), key);
    assert Removed(journal, "tool_call:" + key) <==> "tool_call:" + key in RemovedIds(journal);
    KeptLast(CALL_ID, keep, calls, key, "tool_call:" + key !in RemovedIds(journal),
             Find(CALL_ID, CachedCalls(calls, journal), key));
  }

  /** Filtering keeps all records of an id or none. */
  lemma {:induction false} KeptLast<V>(id: V -> string, keep: V -> bool, xs: seq<V>, key: string, kept: bool,
      record: Option<V>)
    requires forall x :: id(x) == key ==> keep(x) == kept
    requires LastWith(id, Filter(keep, xs), key, record)
    ensures if kept then LastWith(id, xs, key, record) else record == None
  {
    FilterAt(keep, xs);
    var ys, places := Filter(keep, xs), Places(keep, xs);
    if record.Some? {
      var k :| LastAt(id, ys, key, k) && ys[k] == record.value;
      assert At(keep, xs, places[k]);
      forall j | places[k] < j < |xs| ensures id(xs[j]) != key {
        if id(xs[j]) == key {
          assert At(keep, xs, j);
          var n :| 0 <= n < |places| && places[n] == j;
          if n < k {
            PlacesIncrease(keep, xs, n, k);
          }
        }
      }
      assert LastAt(id, xs, key, places[k]);
    } else if kept {
      forall x | x in xs ensures id(x) != key {
        FilterMembers(keep, xs, x);
      }
    }
  }

  /* ---- what an entry changes ---- */

  /** The entry records this message. */
  predicate Records(e: Entry, key: string) {
    e.kind == "message" && e.status != "removed" && e.data.id == Some(key)
  }

  /** The message as the entry has it; the sender's name and the agent fall back to what was there before. */
  ghost predicate MessageFrom(e: Entry, before: Option<Message>, m: Message) {
    Some(m.id) == e.data.id
    && m == e.data.message.(id := m.id, senderName := m.senderName, agentId := m.agentId)
    && (if e.actorName != None then m.senderName == e.actorName
        else if before.Some? then m.senderName == before.value.senderName else m.senderName == None)
    && (if before.Some? && before.value.agentId != None then m.agentId == before.value.agentId
        else if e.actorType == "agent" then m.agentId == e.actorId else m.agentId == None)
  }

  /** Reading one more entry: a message it records becomes what it says, and every other one stays. */
  lemma MessageAfterEntry(base: seq<Message>, journal: seq<Entry>, e: Entry, key: string)
    ensures var before := Find(MESSAGE_ID, ReconcileMessages(base, journal), key);
      var after := Find(MESSAGE_ID, ReconcileMessages(base, journal + [e]), key);
      if Records(e, key) then after.Some? && MessageFrom(e, before, after.value) else after == before
  {
    assert (journal + [e])[..|journal|] == journal;
    var ms := ReconcileMessages(base, journal);
    if LiveMessageEntry(e) {
      FindPut(MESSAGE_ID, ms, OverlayMessage(e, Find(MESSAGE_ID, ms, e.data.id.value)), key);
    }
  }

  predicate RecordsCall(e: Entry, key: string) {
    e.kind == "action" && e.status != "removed" && e.data.id == Some(key) && e.data.toolName != None
  }

  /** The record before has a result that came after the entry, which has none. */
  predicate KeepsResult(e: Entry, before: Option<Call>) {
    before.Some? && before.value.completedAt.Some? && e.data.completedAt == None
    && e.at < before.value.completedAt.value
  }

  ghost predicate CallFrom(e: Entry, before: Option<Call>, primaryName: Option<string>, c: Call) {
    Some(c.id) == e.data.id && c.completedAt == e.data.completedAt
    && c == e.data.call.(id := c.id, completedAt := c.completedAt, taskId := c.taskId, agentName := c.agentName)
    && (if e.taskId != None then Some(c.taskId) == e.taskId
        else if before.Some? then c.taskId == before.value.taskId else c.taskId == "")
    && (if e.actorName != None then c.agentName == e.actorName
        else if before.Some? && before.value.agentName != None then c.agentName == before.value.agentName
        else if primaryName != None then c.agentName == primaryName else c.agentName == Some("Agent"))
  }

  /** Reading one more entry: a call it records becomes what it says, unless its newer result is kept. */
  lemma CallAfterEntry(base: seq<Call>, journal: seq<Entry>, e: Entry, primaryName: Option<string>, key: string)
    ensures var before := Find(CALL_ID, ReconcileCalls(base, journal, primaryName), key);
      var after := Find(CALL_ID, ReconcileCalls(base, journal + [e], primaryName), key);
      if RecordsCall(e, key) && !KeepsResult(e, before)
      then after.Some? && CallFrom(e, before, primaryName, after.value)
      else after == before
  {
    assert (journal + [e])[..|journal|] == journal;
    var cs := ReconcileCalls(base, journal, primaryName);
    if LiveCallEntry(e) {
      FindPut(CALL_ID, cs, OverlayCall(e, Find(CALL_ID, cs, e.data.id.value), primaryName), key);
    }
  }

  /** The messages and calls that are shown are these records. */
  lemma RecordsAreFound(input: Input, m: Message, c: Call)
    ensures m in ServerMessages(input) <==> Find(MESSAGE_ID, ServerMessages(input), m.id) == Some(m)
    ensures c in ServerCalls(input) <==> Find(CALL_ID, ServerCalls(input), c.id) == Some(c)
  {
    ServerMessagesAreLive(input);
    ServerCallsAreLive(input);
    FindRecord(MESSAGE_ID, ServerMessages(input), m.id);
    FindRecord(CALL_ID, ServerCalls(input), c.id);
    if m in ServerMessages(input) {
      OneRecord(MESSAGE_ID, ServerMessages(input), m.id, Some(m));
    }
    if c in ServerCalls(input) {
      OneRecord(CALL_ID, ServerCalls(input), c.id, Some(c));
    }
  }
}
