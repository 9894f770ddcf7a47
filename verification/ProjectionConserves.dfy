/** The projection conserves content. */
module ProjectionConserves {

  // Every live server message and every live call that passes the filter is shown exactly
  // once, with its reconciled record; nothing removed is shown; the rows are in display order.

  import opened Basics
  import opened Selection
  import opened Sorting
  import opened Transcript
  import opened Grouping
  import T = Timeline
  import opened Drafts
  import opened Projection

  /* ---- keyed lists ---- */

  ghost predicate Distinct<V>(id: V -> string, xs: seq<V>) {
    forall i, j :: 0 <= i < j < |xs| ==> id(xs[i]) != id(xs[j])
  }

  ghost predicate Has<V>(id: V -> string, xs: seq<V>, key: string) {
    exists x :: x in xs && id(x) == key
  }

  lemma {:induction false} PutFacts<V>(id: V -> string, xs: seq<V>, x: V)
    requires Distinct(id, xs)
    ensures Distinct(id, Put(id, xs, x))
    ensures forall key :: Has(id, Put(id, xs, x), key) <==> Has(id, xs, key) || key == id(x)
  {
    if xs == [] {
      assert x in [x];
    } else if id(xs[0]) == id(x) {
      forall key ensures Has(id, [x] + xs[1..], key) <==> Has(id, xs, key) || key == id(x) {
        HasCons(id, x, xs[1..], key);
        HasCons(id, xs[0], xs[1..], key);
        assert xs == [xs[0]] + xs[1..];
      }
    } else {
      PutFacts(id, xs[1..], x);
      var rest := Put(id, xs[1..], x);
      forall key ensures Has(id, [xs[0]] + rest, key) <==> Has(id, xs, key) || key == id(x) {
        HasCons(id, xs[0], rest, key);
        HasCons(id, xs[0], xs[1..], key);
        assert xs == [xs[0]] + xs[1..];
      }
      NotHas(id, xs[0], xs[1..]);
      forall i | 0 <= i < |rest| ensures id(rest[i]) != id(xs[0]) {
        assert Has(id, rest, id(rest[i]));
      }
    }
  }

  lemma HasCons<V>(id: V -> string, x: V, xs: seq<V>, key: string)
    ensures Has(id, [x] + xs, key) <==> id(x) == key || Has(id, xs, key)
  {
    assert forall y :: y in [x] + xs <==> y == x || y in xs;
  }

  lemma NotHas<V>(id: V -> string, x: V, xs: seq<V>)
    requires Distinct(id, [x] + xs)
    ensures !Has(id, xs, id(x))
  {
    forall y | y in xs ensures id(y) != id(x) {
      var i :| 0 <= i < |xs| && xs[i] == y;
      assert ([x] + xs)[0] == x && ([x] + xs)[i + 1] == y;
    }
  }

  lemma {:induction false} PutAllFacts<V>(id: V -> string, xs: seq<V>)
    ensures Distinct(id, PutAll(id, [], xs))
    ensures forall key :: Has(id, PutAll(id, [], xs), key) <==> Has(id, xs, key)
  {
    if xs != [] {
      var front, x := xs[..|xs| - 1], xs[|xs| - 1];
      PutAllFacts(id, front);
      PutFacts(id, PutAll(id, [], front), x);
      forall key ensures Has(id, xs, key) <==> Has(id, front, key) || key == id(x) {
        assert xs == front + [x];
        assert forall y :: y in xs <==> y in front || y == x;
      }
    }
  }

  /* ---- which messages and calls are live ---- */

  /** Cached and not removed, or recorded by a live journal entry. */
  ghost predicate LiveMessage(input: Input, id: string) {
    (Has(MESSAGE_ID, input.messages, id) && "message:" + id !in RemovedIds(input.journal))
    || NamedBy(input.journal, id, LiveMessageEntry)
  }

  ghost predicate LiveCall(input: Input, id: string) {
    (Has(CALL_ID, input.tools, id) && "tool_call:" + id !in RemovedIds(input.journal))
    || NamedBy(input.journal, id, LiveCallEntry)
  }

  ghost predicate NamedBy(journal: seq<Entry>, id: string, live: Entry -> bool) {
    exists e :: e in journal && live(e) && e.data.id == Some(id)
  }

  lemma NamedByAppend(journal: seq<Entry>, e: Entry, id: string, live: Entry -> bool)
    ensures NamedBy(journal + [e], id, live) <==> NamedBy(journal, id, live) || (live(e) && e.data.id == Some(id))
  {
    assert forall x :: x in journal + [e] <==> x in journal || x == e;
  }

  lemma {:induction false} ReconciledMessages(base: seq<Message>, journal: seq<Entry>)
    requires Distinct(MESSAGE_ID, base)
    ensures Distinct(MESSAGE_ID, ReconcileMessages(base, journal))
    ensures forall id :: Has(MESSAGE_ID, ReconcileMessages(base, journal), id)
                         <==> Has(MESSAGE_ID, base, id) || NamedBy(journal, id, LiveMessageEntry)
  {
    if journal != [] {
      var front, e := journal[..|journal| - 1], journal[|journal| - 1];
      ReconciledMessages(base, front);
      assert journal == front + [e];
      var ms := ReconcileMessages(base, front);
      if LiveMessageEntry(e) {
        PutFacts(MESSAGE_ID, ms, OverlayMessage(e, Find(MESSAGE_ID, ms, e.data.id.value)));
      }
      forall id ensures Has(MESSAGE_ID, ReconcileMessages(base, journal), id)
                        <==> Has(MESSAGE_ID, base, id) || NamedBy(journal, id, LiveMessageEntry) {
        NamedByAppend(front, e, id, LiveMessageEntry);
      }
    }
  }

  lemma {:induction false} FindHas<V>(id: V -> string, xs: seq<V>, key: string)
    ensures Find(id, xs, key).Some? ==> Has(id, xs, key)
  {
    if xs != [] {
      FindHas(id, xs[1..], key);
      assert xs == [xs[0]] + xs[1..];
      HasCons(id, xs[0], xs[1..], key);
    }
  }

  lemma {:induction false} ReconciledCalls(base: seq<Call>, journal: seq<Entry>, primaryName: Option<string>)
    requires Distinct(CALL_ID, base)
    ensures Distinct(CALL_ID, ReconcileCalls(base, journal, primaryName))
    ensures forall id :: Has(CALL_ID, ReconcileCalls(base, journal, primaryName), id)
                         <==> Has(CALL_ID, base, id) || NamedBy(journal, id, LiveCallEntry)
  {
    if journal != [] {
      var front, e := journal[..|journal| - 1], journal[|journal| - 1];
      ReconciledCalls(base, front, primaryName);
      assert journal == front + [e];
      var cs := ReconcileCalls(base, front, primaryName);
      if LiveCallEntry(e) {
        var cached := Find(CALL_ID, cs, e.data.id.value);
        FindHas(CALL_ID, cs, e.data.id.value);
        PutFacts(CALL_ID, cs, OverlayCall(e, cached, primaryName));
      }
      forall id ensures Has(CALL_ID, ReconcileCalls(base, journal, primaryName), id)
                        <==> Has(CALL_ID, base, id) || NamedBy(journal, id, LiveCallEntry) {
        NamedByAppend(front, e, id, LiveCallEntry);
      }
    }
  }

  /** The reconciled messages are the live ones, each once. */
  lemma ServerMessagesAreLive(input: Input)
    ensures Distinct(MESSAGE_ID, ServerMessages(input))
    ensures forall id :: Has(MESSAGE_ID, ServerMessages(input), id) <==> LiveMessage(input, id)
  {
    var keep := KeepMessage(RemovedIds(input.journal));
    var kept := Filter(keep, input.messages);
    FilterElements(keep, input.messages);
    PutAllFacts(MESSAGE_ID, kept);
    ReconciledMessages(CachedMessages(input.messages, input.journal), input.journal);
    forall id ensures Has(MESSAGE_ID, kept, id)
                      <==> Has(MESSAGE_ID, input.messages, id) && "message:" + id !in RemovedIds(input.journal) {
      if m :| m in input.messages && MESSAGE_ID(m) == id && "message:" + id !in RemovedIds(input.journal) {
        assert m in kept;
      }
    }
  }

  lemma ServerCallsAreLive(input: Input)
    ensures Distinct(CALL_ID, ServerCalls(input))
    ensures forall id :: Has(CALL_ID, ServerCalls(input), id) <==> LiveCall(input, id)
  {
    var keep := KeepCall(RemovedIds(input.journal));
    var kept := Filter(keep, input.tools);
    FilterElements(keep, input.tools);
    PutAllFacts(CALL_ID, kept);
    ReconciledCalls(CachedCalls(input.tools, input.journal), input.journal, input.primary.name);
    forall id ensures Has(CALL_ID, kept, id)
                      <==> Has(CALL_ID, input.tools, id) && "tool_call:" + id !in RemovedIds(input.journal) {
      if c :| c in input.tools && CALL_ID(c) == id && "tool_call:" + id !in RemovedIds(input.journal) {
        assert c in kept;
      }
    }
  }

  /* ---- what the timeline shows ---- */

  ghost predicate ShowsMessage(items: seq<TimelineItem>, id: string) {
    exists x :: x in items && x.MessageItem? && x.message.id == id
  }

  ghost predicate ShowsCall(items: seq<TimelineItem>, id: string) {
    exists x :: x in items && x.ToolItem? && x.call.id == id
  }

  /** Shown messages are the live ones and the pending ones; shown calls are the live ones that pass. */
  lemma TimelineShows(input: Input, id: string)
    ensures ShowsMessage(TimelineOf(input), id) <==> LiveMessage(input, id) || Has(MESSAGE_ID, Pending(input), id)
    ensures ShowsCall(TimelineOf(input), id) <==>
      exists c :: c in ServerCalls(input) && c.id == id && PassesFilter(input.agentic)(c)
    ensures ShowsCall(TimelineOf(input), id) ==> LiveCall(input, id)
  {
    var server, pending := ServerMessages(input), Pending(input);
    var calls := Filter(PassesFilter(input.agentic), ServerCalls(input));
    T.MergedEntries(server + pending, input.activity, input.detailed, calls, id);
    ServerMessagesAreLive(input);
    ServerCallsAreLive(input);
    FilterElements(PassesFilter(input.agentic), ServerCalls(input));
    assert Has(MESSAGE_ID, server, id) <==> exists m :: m in server && m.id == id by {
      assert forall m :: MESSAGE_ID(m) == m.id;
    }
    assert forall m :: m in server + pending <==> m in server || m in pending;
    if c :| c in ServerCalls(input) && c.id == id {
      assert CALL_ID(c) == id;
      assert Has(CALL_ID, ServerCalls(input), id);
    }
  }

  /** A message that a removed entry names is shown only if a live entry or a pending turn names it too. */
  lemma RemovedStaysHidden(input: Input, id: string)
    requires "message:" + id in RemovedIds(input.journal)
    ensures ShowsMessage(TimelineOf(input), id) <==>
      NamedBy(input.journal, id, LiveMessageEntry) || Has(MESSAGE_ID, Pending(input), id)
  {
    TimelineShows(input, id);
  }

  /** Journal ids are unique, and a message or call entry is named after what it records. */
  ghost predicate KeyedJournal(journal: seq<Entry>) {
    (forall e, f :: e in journal && f in journal && e.id == f.id ==> e == f)
    && (forall e :: e in journal && LiveMessageEntry(e) ==> e.id == "message:" + e.data.id.value)
    && (forall e :: e in journal && LiveCallEntry(e) ==> e.id == "tool_call:" + e.data.id.value)
  }

  lemma RemovedNeverShown(input: Input, id: string)
    requires KeyedJournal(input.journal)
    ensures "message:" + id in RemovedIds(input.journal) && !Has(MESSAGE_ID, Pending(input), id) ==>
      !ShowsMessage(TimelineOf(input), id)
    ensures "tool_call:" + id in RemovedIds(input.journal) ==> !ShowsCall(TimelineOf(input), id)
  {
    TimelineShows(input, id);
    if "message:" + id in RemovedIds(input.journal) {
      var gone :| gone in input.journal && gone.status == "removed" && gone.id == "message:" + id;
      forall e | e in input.journal && LiveMessageEntry(e) ensures e.data.id != Some(id) {
        assert e.id == gone.id ==> e == gone;
      }
    }
    if "tool_call:" + id in RemovedIds(input.journal) {
      var gone :| gone in input.journal && gone.status == "removed" && gone.id == "tool_call:" + id;
      forall e | e in input.journal && LiveCallEntry(e) ensures e.data.id != Some(id) {
        assert e.id == gone.id ==> e == gone;
      }
    }
  }

  /* ---- what the rows show ---- */

  function ShownItems(r: ShownRow): seq<TimelineItem> {
    if r.TimelineRow? then RowItems(r.row) else []
  }

  function RowsItems(rows: seq<ShownRow>): seq<TimelineItem> {
    FlatMap(ShownItems, rows)
  }

  lemma {:induction false} WrapItems(rows: seq<Row>)
    ensures RowsItems(Wrap(rows)) == Expand(rows)
  {
    if rows != [] {
      WrapItems(rows[1..]);
      assert Wrap(rows)[1..] == Wrap(rows[1..]);
    }
  }

  lemma {:induction false} NoItems(rows: seq<ShownRow>)
    requires forall r :: r in rows ==> !r.TimelineRow?
    ensures RowsItems(rows) == []
  {
    if rows != [] {
      NoItems(rows[1..]);
    }
  }

  lemma RowOrderTotal(le: TextOrder, s: set<ShownRow>)
    requires TotalOrder(le)
    ensures Comparable(RowOrder(le), s)
  {
    var order := RowOrder(le);
    forall a, b ensures order(a, b) || order(b, a) {
      assert le(RowId(a), RowId(b)) || le(RowId(b), RowId(a));
    }
    forall a, b, c | order(a, b) && order(b, c) ensures order(a, c) {
      if RowAt(a) == RowAt(b) == RowAt(c) {
        assert le(RowId(a), RowId(b)) && le(RowId(b), RowId(c));
      }
    }
  }

  /**
   * Dropping the day markers and expanding the exchanges gives the timeline's
   * items, each exactly once, and the rows are sorted by time and id.
   */
  lemma RowsConserveTimeline(le: TextOrder, day: T.Calendar<ShownRow>, input: Input)
    requires TotalOrder(le)
    ensures var rows := T.Entries(Projected(le, day, input));
            Sorted(RowOrder(le), rows) && multiset(rows) == multiset(AllRows(le, input))
            && multiset(RowsItems(rows)) == multiset(TimelineOf(input)) && Once(RowsItems(rows))
  {
    var all := AllRows(le, input);
    var rows := Sort(RowOrder(le), all);
    T.MarkersOnlyAdd(day, ROW_AT, rows);
    RowOrderTotal(le, Elements(all));
    SortSorted(RowOrder(le), all);
    FlatMapPermuted(ShownItems, rows, all);
    ItemsOfAllRows(le, input);
    TimelineOnce(input);
    SameElements(RowsItems(rows), TimelineOf(input));
    forall x | x in RowsItems(rows) ensures multiset(RowsItems(rows))[x] == 1 {
      assert x in Elements(RowsItems(rows));
    }
  }

  lemma RowsThenExtras(rows: seq<Row>, extras: seq<ShownRow>)
    requires forall r :: r in extras ==> !r.TimelineRow?
    ensures RowsItems(Wrap(rows) + extras) == Expand(rows)
  {
    WrapItems(rows);
    NoItems(extras);
    FlatMapConcat(ShownItems, Wrap(rows), extras);
    assert Expand(rows) + [] == Expand(rows);
  }

  lemma MappedRows<V(!new)>(f: V -> ShownRow, xs: seq<V>)
    requires forall x :: !f(x).TimelineRow?
    ensures forall r :: r in Mapped(f, xs) ==> !r.TimelineRow?
  {
  }

  lemma ExtrasAreNoItems(le: TextOrder, input: Input)
    ensures forall r :: r in Extras(le, input) ==> !r.TimelineRow?
  {
    if input.agentic {
      var drafts := PublicGenerations(le, input.journal, ServerMessages(input), input.primary.id);
      MappedRows(Draft, drafts);
      MappedRows(Session, Filter(IsRuntime, input.journal));
      MappedRows(Artifact, Filter(IsArtifact, input.files));
    }
  }

  lemma ItemsOfAllRows(le: TextOrder, input: Input)
    ensures RowsItems(AllRows(le, input)) == TimelineOf(input)
  {
    PassSound(input.primary, TimelineOf(input));
    ExtrasAreNoItems(le, input);
    RowsThenExtras(Grouped(input.primary, TimelineOf(input)), Extras(le, input));
  }

  lemma TimelineOnce(input: Input)
    ensures T.UniqueItems(TimelineOf(input))
  {
    T.MergedContents(ServerMessages(input) + Pending(input), input.activity, input.detailed,
                     Filter(PassesFilter(input.agentic), ServerCalls(input)));
  }

  /** Every reconciled message is shown with its reconciled record, also when a pending turn has its id. */
  lemma RecordsShown(input: Input)
    ensures forall m :: m in ServerMessages(input) ==> T.OfMessage(m) in TimelineOf(input)
    ensures forall c :: c in ServerCalls(input) && PassesFilter(input.agentic)(c) ==> T.OfCall(c) in TimelineOf(input)
  {
    var server, pending, passes := ServerMessages(input), Pending(input), PassesFilter(input.agentic);
    var calls := Filter(passes, ServerCalls(input));
    ServerMessagesAreLive(input);
    ServerCallsAreLive(input);
    forall m | m in server ensures T.OfMessage(m) in TimelineOf(input) {
      var i :| 0 <= i < |server| && server[i] == m;
      forall j | 0 <= j < i ensures (server + pending)[j].id != (server + pending)[i].id {
        assert MESSAGE_ID(server[j]) != MESSAGE_ID(server[i]);
      }
      T.MessageShown(server + pending, input.activity, input.detailed, calls, i);
    }
    forall c | c in ServerCalls(input) && passes(c) ensures T.OfCall(c) in TimelineOf(input) {
      FilterMembers(passes, ServerCalls(input), c);
      FilterDistinct(CALL_ID, passes, ServerCalls(input));
      var k :| 0 <= k < |calls| && calls[k] == c;
      forall j | 0 <= j < k ensures calls[j].id != calls[k].id {
        assert CALL_ID(calls[j]) != CALL_ID(calls[k]);
      }
      T.CallShown(server + pending, input.activity, input.detailed, calls, k);
    }
  }

  lemma FilterDistinct<V>(id: V -> string, passes: V -> bool, xs: seq<V>)
    requires Distinct(id, xs)
    ensures Distinct(id, Filter(passes, xs))
  {
    FilterAt(passes, xs);
    var places := Places(passes, xs);
    forall i, j | 0 <= i < j < |places| ensures id(xs[places[i]]) != id(xs[places[j]]) {
      PlacesIncrease(passes, xs, i, j);
    }
  }

  /**
   * In the rows themselves: each item stands once and is the only one with its id, every live message
   * and filtered call is there with its reconciled record, and nothing else but pending turns.
   */
  lemma ProjectionConserves(le: TextOrder, day: T.Calendar<ShownRow>, input: Input)
    requires TotalOrder(le)
    ensures var items := RowsItems(T.Entries(Projected(le, day, input)));
            && T.UniqueItems(items)
            && (forall m :: m in ServerMessages(input) ==> T.OfMessage(m) in items)
            && (forall c :: c in ServerCalls(input) && PassesFilter(input.agentic)(c) ==> T.OfCall(c) in items)
            && (forall x :: x in items && x.MessageItem? ==> x.message in ServerMessages(input) + Pending(input))
            && (forall x :: x in items && x.ToolItem? ==>
              x.call in ServerCalls(input) && PassesFilter(input.agentic)(x.call))
  {
    RowsConserveTimeline(le, day, input);
    TimelineOnce(input);
    RecordsShown(input);
    OnlyGivenShown(input);
    T.SortedContents(TimelineOf(input), RowsItems(T.Entries(Projected(le, day, input))));
  }

  lemma OnlyGivenShown(input: Input)
    ensures forall x :: x in TimelineOf(input) && x.MessageItem? ==> x.message in ServerMessages(input) + Pending(input)
    ensures forall x :: x in TimelineOf(input) && x.ToolItem? ==>
      x.call in ServerCalls(input) && PassesFilter(input.agentic)(x.call)
  {
    var messages, passes := ServerMessages(input) + Pending(input), PassesFilter(input.agentic);
    var calls := Filter(passes, ServerCalls(input));
    T.MergedContents(messages, input.activity, input.detailed, calls);
    T.CandidateKinds(messages, input.activity, input.detailed, calls);
    FilterElements(passes, ServerCalls(input));
  }

  /** By id: a message is shown exactly when it is live or pending, a call exactly when it is live and
      passes the filter, and no removed one is. */
  lemma ProjectionShows(le: TextOrder, day: T.Calendar<ShownRow>, input: Input, id: string)
    requires TotalOrder(le)
    ensures var items := RowsItems(T.Entries(Projected(le, day, input)));
            && (ShowsMessage(items, id) <==> LiveMessage(input, id) || Has(MESSAGE_ID, Pending(input), id))
            && (ShowsCall(items, id) <==>
              exists c :: c in ServerCalls(input) && c.id == id && PassesFilter(input.agentic)(c))
            && (KeyedJournal(input.journal) && "message:" + id in RemovedIds(input.journal) ==>
                  Has(MESSAGE_ID, Pending(input), id) || !ShowsMessage(items, id))
            && (KeyedJournal(input.journal) && "tool_call:" + id in RemovedIds(input.journal) ==> !ShowsCall(items, id))
  {
    RowsConserveTimeline(le, day, input);
    TimelineOnce(input);
    TimelineShows(input, id);
    if KeyedJournal(input.journal) {
      RemovedNeverShown(input, id);
    }
    T.SortedContents(TimelineOf(input), RowsItems(T.Entries(Projected(le, day, input))));
  }
}
