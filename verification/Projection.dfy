/**
 * The chat transcript as one list of rows: cached messages and calls are
 * reconciled with the journal, merged, grouped, joined with drafts, sessions
 * and files, sorted, and marked by day. A journal entry carries the whole
 * record of its message or call.
 */
module Projection {

  import opened Basics
  import opened Selection
  import opened Sorting
  import opened Transcript
  import opened Grouping
  import T = Timeline
  import opened Drafts

  datatype File = File(id: string, kind: string, at: int)

  datatype Input = Input(
    messages: seq<Message>, tools: seq<Call>, journal: seq<Entry>, optimistic: seq<Message>,
    activity: seq<Card>, files: seq<File>,
    primary: Primary, detailed: bool, agentic: bool)

  datatype ShownRow =
    | TimelineRow(row: Row)
    | RuntimeRow(id: string, at: int, entry: Entry)
    | GenerationRow(id: string, at: int, entry: Entry)
    | FileRow(id: string, at: int, file: File)

  /* ---- reconciling the caches with the journal ---- */

  function RemovedIds(journal: seq<Entry>): set<string> {
    set e | e in journal && e.status == "removed" :: e.id
  }

  /** `Map.set`: an existing key keeps its place. */
  function Put<V>(id: V -> string, xs: seq<V>, x: V): seq<V> {
    if xs == [] then [x]
    else if id(xs[0]) == id(x) then [x] + xs[1..]
    else [xs[0]] + Put(id, xs[1..], x)
  }

  function PutAll<V>(id: V -> string, before: seq<V>, xs: seq<V>): seq<V> {
    if xs == [] then before else Put(id, PutAll(id, before, xs[..|xs| - 1]), xs[|xs| - 1])
  }

  function Find<V>(id: V -> string, xs: seq<V>, key: string): Option<V> {
    if xs == [] then None else if id(xs[0]) == key then Some(xs[0]) else Find(id, xs[1..], key)
  }

  const MESSAGE_ID: Message -> string := (m: Message) => m.id
  const CALL_ID: Call -> string := (c: Call) => c.id

  predicate LiveMessageEntry(e: Entry) {
    e.status != "removed" && e.data.id.Some? && e.kind == "message"
  }

  predicate LiveCallEntry(e: Entry) {
    e.status != "removed" && e.data.id.Some? && e.kind == "action" && e.data.toolName.Some?
  }

  function OverlayMessage(e: Entry, cached: Option<Message>): Message
    requires e.data.id.Some?
  {
    var own := if e.actorType == "agent" then e.actorId else None;
    e.data.message.(
      id := e.data.id.value,
      senderName := if e.actorName.Some? then e.actorName else if cached.Some? then cached.value.senderName else None,
      agentId := if cached.Some? && cached.value.agentId.Some? then cached.value.agentId else own)
  }

  function OverlayCall(e: Entry, cached: Option<Call>, primaryName: Option<string>): Call
    requires e.data.id.Some?
  {
    var fallback := if primaryName.Some? then primaryName.value else "Agent";
    e.data.call.(
      id := e.data.id.value, completedAt := e.data.completedAt,
      taskId := if e.taskId.Some? then e.taskId.value else if cached.Some? then cached.value.taskId else "",
      agentName := if e.actorName.Some? then e.actorName
                   else if cached.Some? && cached.value.agentName.Some? then cached.value.agentName
                   else Some(fallback))
  }

  /** A cached result that is newer than an unfinished journal entry is kept. */
  predicate CacheWins(e: Entry, cached: Option<Call>) {
    cached.Some? && cached.value.completedAt.Some? && e.data.completedAt.None? && cached.value.completedAt.value > e.at
  }

  function MessageStep(ms: seq<Message>, e: Entry): seq<Message> {
    if LiveMessageEntry(e) then Put(MESSAGE_ID, ms, OverlayMessage(e, Find(MESSAGE_ID, ms, e.data.id.value))) else ms
  }

  function CallStep(cs: seq<Call>, e: Entry, primaryName: Option<string>): seq<Call> {
    if LiveCallEntry(e) && !CacheWins(e, Find(CALL_ID, cs, e.data.id.value))
    then Put(CALL_ID, cs, OverlayCall(e, Find(CALL_ID, cs, e.data.id.value), primaryName))
    else cs
  }

  function KeepMessage(removed: set<string>): Message -> bool {
    (m: Message) => "message:" + m.id !in removed
  }

  function KeepCall(removed: set<string>): Call -> bool {
    (c: Call) => "tool_call:" + c.id !in removed
  }

  function CachedMessages(messages: seq<Message>, journal: seq<Entry>): seq<Message> {
    PutAll(MESSAGE_ID, [], Filter(KeepMessage(RemovedIds(journal)), messages))
  }

  function CachedCalls(tools: seq<Call>, journal: seq<Entry>): seq<Call> {
    PutAll(CALL_ID, [], Filter(KeepCall(RemovedIds(journal)), tools))
  }

  function ReconcileMessages(base: seq<Message>, journal: seq<Entry>): seq<Message> {
    if journal == [] then base
    else MessageStep(ReconcileMessages(base, journal[..|journal| - 1]), journal[|journal| - 1])
  }

  function ReconcileCalls(base: seq<Call>, journal: seq<Entry>, primaryName: Option<string>): seq<Call> {
    if journal == [] then base
    else CallStep(ReconcileCalls(base, journal[..|journal| - 1], primaryName), journal[|journal| - 1], primaryName)
  }

  function ServerMessages(input: Input): seq<Message> {
    ReconcileMessages(CachedMessages(input.messages, input.journal), input.journal)
  }

  function ServerCalls(input: Input): seq<Call> {
    ReconcileCalls(CachedCalls(input.tools, input.journal), input.journal, input.primary.name)
  }

  /* ---- the rest of the pipeline ---- */

  function TurnKey(m: Message): string {
    if m.content.clientTurnId.Some? then m.content.clientTurnId.value else m.id
  }

  /** A missing turn id is looked up under the text that JavaScript gives it. */
  function PendingKey(m: Message): string {
    if m.content.clientTurnId.Some? then m.content.clientTurnId.value else "undefined"
  }

  function IsPending(server: seq<Message>): Message -> bool {
    (m: Message) => !exists s :: s in server && TurnKey(s) == PendingKey(m)
  }

  function PassesFilter(agentic: bool): Call -> bool {
    (c: Call) => agentic || "cli." <= c.toolName
  }

  function Pending(input: Input): seq<Message> {
    Filter(IsPending(ServerMessages(input)), input.optimistic)
  }

  function TimelineOf(input: Input): seq<TimelineItem> {
    T.Merged(ServerMessages(input) + Pending(input), input.activity, input.detailed,
             Filter(PassesFilter(input.agentic), ServerCalls(input)))
  }

  predicate IsRuntime(e: Entry) {
    "runtime_session:" <= e.id && e.data.kind in {"terminal", "preview"} && e.status != "removed"
  }

  predicate IsArtifact(f: File) {
    f.kind == "artifact"
  }

  function Wrap(rows: seq<Row>): seq<ShownRow> {
    seq(|rows|, i requires 0 <= i < |rows| => TimelineRow(rows[i]))
  }

  function Mapped<V, W>(f: V -> W, xs: seq<V>): seq<W> {
    seq(|xs|, i requires 0 <= i < |xs| => f(xs[i]))
  }

  function Draft(e: Entry): ShownRow {
    GenerationRow(e.id, e.at, e)
  }

  function Session(e: Entry): ShownRow {
    RuntimeRow(e.id, e.at, e)
  }

  function Artifact(f: File): ShownRow {
    FileRow("file:" + f.id, f.at, f)
  }

  function Extras(le: TextOrder, input: Input): seq<ShownRow> {
    if !input.agentic then []
    else
      Mapped(Draft, PublicGenerations(le, input.journal, ServerMessages(input), input.primary.id))
      + Mapped(Session, Filter(IsRuntime, input.journal))
      + Mapped(Artifact, Filter(IsArtifact, input.files))
  }

  function RowId(r: ShownRow): string {
    match r
    case TimelineRow(Single(item)) => item.id
    case TimelineRow(Exchange(id, _, _, _, _, _, _)) => id
    case RuntimeRow(id, _, _) => id
    case GenerationRow(id, _, _) => id
    case FileRow(id, _, _) => id
  }

  function RowAt(r: ShownRow): int {
    match r
    case TimelineRow(Single(item)) => item.at
    case TimelineRow(Exchange(_, at, _, _, _, _, _)) => at
    case RuntimeRow(_, at, _) => at
    case GenerationRow(_, at, _) => at
    case FileRow(_, at, _) => at
  }

  const ROW_AT: ShownRow -> int := (r: ShownRow) => RowAt(r)

  function RowOrder(le: TextOrder): (ShownRow, ShownRow) -> bool {
    (a: ShownRow, b: ShownRow) => if RowAt(a) != RowAt(b) then RowAt(a) < RowAt(b) else le(RowId(a), RowId(b))
  }

  function AllRows(le: TextOrder, input: Input): seq<ShownRow> {
    Wrap(Grouped(input.primary, TimelineOf(input))) + Extras(le, input)
  }

  function Projected(le: TextOrder, day: T.Calendar<ShownRow>, input: Input): seq<T.Marked<ShownRow>> {
    T.WithDays(day, ROW_AT, Sort(RowOrder(le), AllRows(le, input)))
  }

  method Reconcile(messages: seq<Message>, calls: seq<Call>, journal: seq<Entry>, primaryName: Option<string>)
      returns (byMessageId: seq<Message>, byCallId: seq<Call>)
    ensures byMessageId == ReconcileMessages(messages, journal)
    ensures byCallId == ReconcileCalls(calls, journal, primaryName)
  {
    byMessageId, byCallId := messages, calls;
    for i := 0 to |journal|
      invariant byMessageId == ReconcileMessages(messages, journal[..i])
      invariant byCallId == ReconcileCalls(calls, journal[..i], primaryName)
    {
      var e := journal[i];
      assert journal[..i + 1][..i] == journal[..i];
      if e.status == "removed" || e.data.id.None? {
        continue;
      }
      if e.kind == "message" {
        var cached := Find(MESSAGE_ID, byMessageId, e.data.id.value);
        byMessageId := Put(MESSAGE_ID, byMessageId, OverlayMessage(e, cached));
      } else if e.kind == "action" && e.data.toolName.Some? {
        var cached := Find(CALL_ID, byCallId, e.data.id.value);
        if CacheWins(e, cached) {
          continue;
        }
        byCallId := Put(CALL_ID, byCallId, OverlayCall(e, cached, primaryName));
      }
    }
    assert journal[..|journal|] == journal;
  }

  method ProjectChatTimeline(le: TextOrder, day: T.Calendar<ShownRow>, input: Input)
      returns (result: seq<T.Marked<ShownRow>>)
    ensures result == Projected(le, day, input)
  {
    var byMessageId, byCallId := Reconcile(CachedMessages(input.messages, input.journal),
                                           CachedCalls(input.tools, input.journal), input.journal, input.primary.name);
    var pending := Filter(IsPending(byMessageId), input.optimistic);
    var merged := T.MergeTimeline(byMessageId + pending, input.activity, input.detailed,
                                  Filter(PassesFilter(input.agentic), byCallId));
    var grouped := GroupExchanges(input.primary, merged);
    var items := Wrap(grouped) + Extras(le, input);
    result := T.WithDaySeparators(day, ROW_AT, Sort(RowOrder(le), items));
  }
}
