/** The acceptor of retained editorial evidence: the execution trace of one article. */
module Editorial {

  // The article is handed off, reviewed and decided in one or more rounds. Records
  // are JSON objects whose scalars are compared whole; every exception the checks can
  // raise refuses the evidence. Times are numbers, absent where the retained text is
  // none, and ids are compared by any total order.

  import opened Basics
  import opened Selection
  import opened Sorting

  datatype Value = Null | Text(text: string)

  type Dict = map<string, Value>

  /** A tool call, a work request or a message, with the objects nested in it that are read. */
  datatype Record = Record(
    fields: Dict, input: Option<Dict>, output: Option<Dict>, content: Option<Dict>, at: Option<int>)

  datatype Item = Item(id: string, data: Record)

  /** A task: its state, and the work request whose result its metadata names, when that can be read. */
  datatype Task = Task(state: Option<Value>, resultFor: Option<Value>)

  datatype Evidence = Evidence(items: seq<Item>, tasks: map<Value, Task>)

  datatype Report = Report(outcome: Value, post: Value, review: Value, revision: Value,
                           writer: Value, director: Value, rounds: nat)

  type ValueOrder = (Value, Value) -> bool

  const REQUEST := "ghost.review.request"
  const DECIDE := "ghost.review.decide"
  const PUBLISH := "ghost.post.publish"
  const READ := "ghost.post.read"
  const DRAFTS: set<string> := {"ghost.draft.create", "ghost.draft.update"}
  const DELEGATIONS: set<string> := {"organization.request_work", "organization.delegate_task"}

  /* ---- reading records ---- */

  function Get(d: Dict, key: string): Value {
    if key in d then d[key] else Null
  }

  predicate Matches(d: Dict, key: string, v: Value) {
    key in d && d[key] == v
  }

  predicate IsTool(row: Record, name: string) {
    Matches(row.fields, "tool_name", Text(name))
  }

  function Data(prefix: string, items: seq<Item>): seq<Record>
    decreases |items|
  {
    if items == [] then [] else (if prefix <= items[0].id then [items[0].data] else []) + Data(prefix, items[1..])
  }

  /** Where a row first occurs. */
  function Position(rows: seq<Record>, row: Record): (i: nat)
    ensures i <= |rows| && (i < |rows| ==> rows[i] == row) && (forall j :: 0 <= j < i ==> rows[j] != row)
    decreases |rows|
  {
    if rows == [] || rows[0] == row then 0 else 1 + Position(rows[1..], row)
  }

  /* ---- the execution trace ---- */

  function ExecutionOrder(le: ValueOrder): (Record, Record) -> bool {
    (a: Record, b: Record) =>
      var s, t := (if a.at.Some? then a.at.value else 0), (if b.at.Some? then b.at.value else 0);
      s < t || (s == t && le(Get(a.fields, "id"), Get(b.fields, "id")))
  }

  predicate Ordered(rows: seq<Record>) {
    forall row :: row in rows ==> row.at.Some? && "id" in row.fields
  }

  /** The tool calls in execution order; nothing when one has no time or no id. */
  function Calls(items: seq<Item>, le: ValueOrder): Option<seq<Record>> {
    var rows := Data("tool_call:", items);
    if Ordered(rows) then Some(Sort(ExecutionOrder(le), rows)) else None
  }

  predicate IsCompleted(row: Record) {
    Get(row.fields, "status") == Text("completed")
  }

  function Completed(calls: seq<Record>): seq<Record> {
    Filter(IsCompleted, calls)
  }

  /* ---- one round ---- */

  predicate Names(d: Option<Dict>, key: string, v: Value) {
    d.Some? && Get(d.value, key) == v
  }

  /** The completed hand-offs of a review, its decisions, its publications. */
  function HandoffOf(id: Value): Record -> bool {
    row => IsTool(row, REQUEST) && Names(row.output, "review_id", id)
  }

  function DecisionOf(id: Value): Record -> bool {
    row => IsTool(row, DECIDE) && Names(row.input, "review_id", id)
  }

  function PublicationOf(id: Value): Record -> bool {
    row => IsTool(row, PUBLISH) && Names(row.input, "review_id", id)
  }

  predicate IsDraftWrite(row: Record, post: Value) {
    (exists name :: name in DRAFTS && IsTool(row, name)) && Names(row.output, "post_id", post)
  }

  /** The writes of a post before a hand-off. */
  function DraftWrites(rows: seq<Record>, handoff: Record, post: Value): Record -> bool {
    row => Position(rows, row) < Position(rows, handoff) && IsDraftWrite(row, post)
  }

  /** The reads of a post after a decision. */
  function ReadBacks(rows: seq<Record>, decision: Record, connection: Value, post: Value): Record -> bool {
    row =>
      && IsTool(row, READ)
      && Names(row.input, "connection_id", connection)
      && Names(row.output, "post_id", post)
      && Position(rows, decision) < Position(rows, row)
  }

  /** Every object that a selection of rows looks into is there. */
  predicate Retained(rows: seq<Record>, handoff: Record) {
    forall row :: row in rows ==>
      && "tool_name" in row.fields
      && (IsTool(row, REQUEST) ==> row.output.Some?)
      && ((IsTool(row, DECIDE) || IsTool(row, PUBLISH)) ==> row.input.Some?)
      && (Position(rows, row) < Position(rows, handoff) && (exists name :: name in DRAFTS && IsTool(row, name))
          ==> row.output.Some?)
  }

  /** The hand-off pins the reviewed revision and both identities. */
  predicate Pinned(handoff: Record, review: Dict, writer: Option<Value>, director: Option<Value>) {
    && handoff.output.Some?
    && handoff.input.Some?
    && var result, request := handoff.output.value, handoff.input.value;
    && "agent_id" in handoff.fields
    && "publisher_agent_id" in result
    && var author, publisher := handoff.fields["agent_id"], result["publisher_agent_id"];
    && author != publisher
    && (writer == None || author == writer.value)
    && (director == None || publisher == director.value)
    && (exists status ::
      status in {"published", "approved", "changes_requested"} && Matches(review, "status", Text(status)))
    && Matches(review, "author_agent_id", author)
    && Matches(review, "publisher_agent_id", publisher)
    && (forall key :: key in {"review_id", "post_id", "revision", "work_request_id"} ==>
          key in review && Matches(result, key, review[key]))
    && Matches(request, "expected_revision", review["revision"])
    && "connection_id" in review
    && Matches(request, "connection_id", review["connection_id"])
  }

  /** The author, and nobody else, wrote the post before the hand-off, and last as reviewed. */
  predicate Drafted(rows: seq<Record>, handoff: Record, review: Dict) {
    var writes := Filter(DraftWrites(rows, handoff, Get(review, "post_id")), rows);
    && writes != []
    && (forall row :: row in writes ==> Matches(row.fields, "agent_id", Get(review, "author_agent_id")))
    && var last := writes[|writes| - 1];
    last.output.Some? && Matches(last.output.value, "revision", Get(review, "revision"))
  }

  /** The verdict that goes with a review's status. */
  function Verdict(review: Dict): Value {
    if Get(review, "status") == Text("changes_requested") then Text("changes_requested") else Text("approved")
  }

  predicate Decided(rows: seq<Record>, handoff: Record, decision: Record, review: Dict) {
    && Matches(decision.fields, "agent_id", Get(review, "publisher_agent_id"))
    && decision.input.Some? && Matches(decision.input.value, "verdict", Verdict(review))
    && decision.output.Some? && Matches(decision.output.value, "revision", Get(review, "revision"))
    && Position(rows, handoff) < Position(rows, decision)
  }

  predicate Published(rows: seq<Record>, decision: Record, review: Dict, publications: seq<Record>) {
    && |publications| == 1
    && var publication := publications[0];
    && Matches(publication.fields, "agent_id", Get(review, "publisher_agent_id"))
    && publication.input.Some? && Matches(publication.input.value, "connection_id", Get(review, "connection_id"))
    && publication.output.Some?
    && Matches(publication.output.value, "status", Text("published"))
    && Matches(publication.output.value, "post_id", Get(review, "post_id"))
    && Position(rows, decision) < Position(rows, publication)
  }

  /** A draft-only approval: nothing was published, and the draft was read back as approved. */
  predicate ApprovedDraft(calls: seq<Record>, rows: seq<Record>, decision: Record, review: Dict) {
    && Get(review, "release_intent") == Text("draft_only")
    && (forall row :: row in calls ==> "tool_name" in row.fields && !IsTool(row, PUBLISH))
    && (forall row :: row in rows && IsTool(row, READ) ==>
          row.input.Some? && (Names(row.input, "connection_id", Get(review, "connection_id")) ==> row.output.Some?))
    && var back := Filter(ReadBacks(rows, decision, Get(review, "connection_id"), Get(review, "post_id")), rows);
    && back != []
    && Names(back[|back| - 1].output, "status", Text("draft"))
    && Names(back[|back| - 1].output, "revision", Get(review, "revision"))
  }

  predicate Settled(calls: seq<Record>, rows: seq<Record>, decision: Record, review: Dict) {
    var publications := Filter(PublicationOf(Get(review, "review_id")), rows);
    if Get(review, "status") == Text("published") then Published(rows, decision, review, publications)
    else if Get(review, "status") == Text("approved") then ApprovedDraft(calls, rows, decision, review)
    else publications == []
  }

  /** Nothing else was delegated and the director's work request is there, once and completed. */
  predicate WorkRequested(e: Evidence, rows: seq<Record>, review: Dict) {
    && (forall row :: row in rows ==> forall name :: name in DELEGATIONS ==> !IsTool(row, name))
    && var work := Filter(
      (row: Record) => Get(row.fields, "id") == Get(review, "work_request_id"), Data("work_request:", e.items));
    && |work| == 1
    && Matches(work[0].fields, "id", Get(review, "work_request_id"))
    && Matches(work[0].fields, "target_agent_id", Get(review, "publisher_agent_id"))
    && Matches(work[0].fields, "status", Text("completed"))
  }

  /** Both tasks of the round finished. */
  predicate TasksFinished(e: Evidence, handoff: Record) {
    && "task_id" in handoff.fields
    && handoff.fields["task_id"] in e.tasks
    && handoff.output.Some?
    && "created_task_id" in handoff.output.value
    && handoff.output.value["created_task_id"] in e.tasks
    && e.tasks[handoff.fields["task_id"]].state == Some(Text("completed"))
    && e.tasks[handoff.output.value["created_task_id"]].state == Some(Text("completed"))
  }

  /** A message of the director to the writer's task with a result. */
  predicate IsResult(m: Record, task: Value, publisher: Value) {
    && Get(m.fields, "task_id") == task
    && Get(m.fields, "sender_id") == publisher
    && Get(m.fields, "message_type") == Text("result")
  }

  /** The first message that answers, unless reading an earlier one fails. */
  predicate Answered(e: Evidence, messages: seq<Record>, task: Value, request: Value, author: Value, after: int)
    decreases |messages|
  {
    && messages != []
    && var m := messages[0];
    var at := Get(m.fields, "task_id");
    var other := at != task && at in e.tasks;
    && (other ==> e.tasks[at].resultFor.Some?)
    && var relevant :=
      && (at == task || (if other then e.tasks[at].resultFor.value else Null) == request)
      && Get(m.fields, "sender_id") == author
      && Get(m.fields, "message_type") == Text("text");
    && (relevant ==> m.at.Some?)
    && ((relevant && m.at.value > after) || Answered(e, messages[1..], task, request, author, after))
  }

  /** The director's result came back once, and the writer answered afterwards. */
  predicate Returned(e: Evidence, handoff: Record, review: Dict) {
    var task, publisher := Get(handoff.fields, "task_id"), Get(review, "publisher_agent_id");
    var messages := Data("message:", e.items);
    && (forall m :: m in messages && IsResult(m, task, publisher) ==> m.content.Some?)
    && var returned := Filter(
      (m: Record) => IsResult(m, task, publisher)
        && Names(m.content, "work_request_id", Get(review, "work_request_id")),
      messages);
    && |returned| == 1
    && returned[0].at.Some?
    && Answered(e, messages, task, Get(review, "work_request_id"), Get(review, "author_agent_id"), returned[0].at.value)
  }

  predicate RoundPasses(e: Evidence, calls: seq<Record>, review: Dict, writer: Option<Value>, director: Option<Value>) {
    var rows := Completed(calls);
    var requests := Filter(HandoffOf(Get(review, "review_id")), rows);
    var decisions := Filter(DecisionOf(Get(review, "review_id")), rows);
    && |requests| == 1
    && Retained(rows, requests[0])
    && Pinned(requests[0], review, writer, director)
    && Drafted(rows, requests[0], review)
    && |decisions| == 1
    && Decided(rows, requests[0], decisions[0], review)
    && Settled(calls, rows, decisions[0], review)
    && WorkRequested(e, rows, review)
    && TasksFinished(e, requests[0])
    && Returned(e, requests[0], review)
  }

  function Outcome(review: Dict): Value {
    if Get(review, "status") == Text("approved") then Text("approved_draft") else Get(review, "status")
  }

  function ReportOf(review: Dict, rounds: nat): Report {
    Report(Outcome(review), Get(review, "post_id"), Get(review, "review_id"), Get(review, "revision"),
           Get(review, "author_agent_id"), Get(review, "publisher_agent_id"), rounds)
  }

  /* ---- all rounds ---- */

  predicate IsRequest(row: Record) {
    IsTool(row, REQUEST)
  }

  function Handoffs(calls: seq<Record>): seq<Record> {
    Filter(IsRequest, Completed(calls))
  }

  /** The reviews by their ids, a later one in place of an earlier one. */
  function ById(reviews: seq<Dict>): map<Value, Dict>
    decreases |reviews|
  {
    if reviews == [] then map[]
    else
      var last := reviews[|reviews| - 1];
      ById(reviews[..|reviews| - 1])[Get(last, "review_id") := last]
  }

  predicate SameArticle(a: Dict, b: Dict) {
    forall key :: key in {"post_id", "connection_id", "author_agent_id", "publisher_agent_id"} ==>
      Get(a, key) == Get(b, key)
  }

  /** A round that revises the one before it. */
  predicate Revises(previous: Dict, current: Dict) {
    && Get(previous, "status") == Text("changes_requested")
    && Get(current, "prior_review_id") == Get(previous, "review_id")
    && SameArticle(current, previous)
    && Get(current, "revision") != Get(previous, "revision")
  }

  /** The hand-offs and the reviews are there and can be matched by id. */
  predicate Matched(calls: seq<Record>, reviews: seq<Dict>) {
    && (forall row :: row in Completed(calls) ==> "tool_name" in row.fields)
    && reviews != []
    && |Handoffs(calls)| == |reviews|
    && (forall r :: r in reviews ==> "review_id" in r)
    && |ById(reviews)| == |reviews|
    && (forall row :: row in Handoffs(calls) ==>
          row.output.Some? && "review_id" in row.output.value && row.output.value["review_id"] in ById(reviews))
  }

  /** The reviews in the order of their hand-offs. */
  function Rounds(calls: seq<Record>, reviews: seq<Dict>): seq<Dict>
    requires Matched(calls, reviews)
  {
    var handoffs := Handoffs(calls);
    seq(|reviews|, k requires 0 <= k < |reviews| =>
      assert handoffs[k] in handoffs;
      ById(reviews)[handoffs[k].output.value["review_id"]])
  }

  predicate HasOutcome(review: Dict) {
    Outcome(review) == Text("approved_draft") || Outcome(review) == Text("published")
  }

  predicate RevisesAt(rounds: seq<Dict>, k: nat)
    requires 0 < k < |rounds|
  {
    Revises(rounds[k - 1], rounds[k])
  }

  /** Every round passes on its own and revises the one before it; the last one has an outcome. */
  ghost predicate InOrder(rounds: seq<Dict>, passes: Dict -> bool) {
    && rounds != []
    && (forall k :: 0 <= k < |rounds| ==> passes(rounds[k]))
    && (forall k :: 0 < k < |rounds| ==> RevisesAt(rounds, k))
    && HasOutcome(rounds[|rounds| - 1])
  }

  method VerifyRounds(rounds: seq<Dict>, passes: Dict -> bool) returns (r: Option<Report>)
    requires rounds != []
    ensures r.Some? <==> InOrder(rounds, passes)
    ensures r.Some? ==> r.value == ReportOf(rounds[|rounds| - 1], |rounds|)
  {
    r := None;
    var previous: Option<Dict>, report: Option<Report> := None, None;
    for k := 0 to |rounds|
      invariant previous == if k == 0 then None else Some(rounds[k - 1])
      invariant report == if k == 0 then None else Some(ReportOf(rounds[k - 1], |rounds|))
      invariant forall j :: 0 <= j < k ==> passes(rounds[j])
      invariant forall j :: 0 < j < k ==> RevisesAt(rounds, j)
    {
      var current := rounds[k];
      if previous.Some? && !Revises(previous.value, current) {
        assert !RevisesAt(rounds, k);
        return;
      }
      if !passes(current) {
        return;
      }
      report := Some(ReportOf(current, |rounds|));
      previous := Some(current);
    }
    if HasOutcome(previous.value) {
      r := report;
    }
  }

  function Passes(e: Evidence, calls: seq<Record>, writer: Option<Value>, director: Option<Value>): Dict -> bool {
    review => RoundPasses(e, calls, review, writer, director)
  }

  /** What an accepted trace is, round by round. */
  ghost predicate Accepted(e: Evidence, calls: seq<Record>, reviews: seq<Dict>, writer: Option<Value>,
      director: Option<Value>)
  {
    AcceptedBy(calls, reviews, Passes(e, calls, writer, director))
  }

  ghost predicate AcceptedBy(calls: seq<Record>, reviews: seq<Dict>, passes: Dict -> bool) {
    Matched(calls, reviews) && InOrder(Rounds(calls, reviews), passes)
  }

  /** The report of the last round. */
  function FinalReport(calls: seq<Record>, reviews: seq<Dict>): Report
    requires Matched(calls, reviews)
  {
    ReportOf(Rounds(calls, reviews)[|reviews| - 1], |reviews|)
  }

  method VerifyEditorial(e: Evidence, reviews: seq<Dict>, writer: Option<Value>, director: Option<Value>,
      le: ValueOrder)
    returns (r: Option<Report>)
    ensures r.Some? <==> Calls(e.items, le).Some? && Accepted(e, Calls(e.items, le).value, reviews, writer, director)
    ensures r.Some? ==> r.value == FinalReport(Calls(e.items, le).value, reviews)
  {
    r := None;
    var calls := Calls(e.items, le);
    if calls.Some? && Matched(calls.value, reviews) {
      r := VerifyRounds(Rounds(calls.value, reviews), Passes(e, calls.value, writer, director));
    }
  }
}
