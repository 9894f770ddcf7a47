/**
 * What the report of an accepted trace vouches for, in the retained records
 * themselves.
 */
module EditorialReport {
  import opened Basics
  import opened Selection
  import opened Sorting
  import opened Editorial
  import opened EditorialRound
  import opened EditorialRounds

  /* ---- the calls in the order they ran ---- */

  lemma OrderComparable(le: ValueOrder, s: set<Record>)
    requires TotalOrder(le)
    ensures Comparable(ExecutionOrder(le), s)
  {
    var before := ExecutionOrder(le);
    forall a, b ensures before(a, b) || before(b, a) {
      assert le(Get(a.fields, "id"), Get(b.fields, "id")) || le(Get(b.fields, "id"), Get(a.fields, "id"));
    }
    forall a, b, c | before(a, b) && before(b, c) ensures before(a, c) {
      assert le(Get(a.fields, "id"), Get(b.fields, "id")) && le(Get(b.fields, "id"), Get(c.fields, "id"))
        ==> le(Get(a.fields, "id"), Get(c.fields, "id"));
    }
  }

  /** The trace holds every tool call of the evidence, earlier ones first and those of one time by their ids. */
  lemma CallsInOrder(items: seq<Item>, le: ValueOrder, calls: seq<Record>, i: nat, j: nat)
    requires TotalOrder(le) && Calls(items, le) == Some(calls)
    ensures multiset(calls) == multiset(Data("tool_call:", items))
    ensures i < j < |calls| ==>
      calls[i].at.Some? && calls[j].at.Some?
      && (calls[i].at.value < calls[j].at.value
        || (calls[i].at == calls[j].at && le(Get(calls[i].fields, "id"), Get(calls[j].fields, "id"))))
  {
    var rows := Data("tool_call:", items);
    OrderComparable(le, Elements(rows));
    SortSorted(ExecutionOrder(le), rows);
    SameElements(rows, calls);
    if i < j < |calls| {
      SortedPair(ExecutionOrder(le), calls, i, j);
      assert calls[i] in Elements(calls) && calls[j] in Elements(calls);
    }
  }

  /* ---- the writer's answer ---- */

  /** The message belongs to the writer's task, or to one that goes on from the work request. */
  predicate Concerns(e: Evidence, m: Record, task: Value, request: Value) {
    var at := Get(m.fields, "task_id");
    at == task || (if at in e.tasks then e.tasks[at].resultFor == Some(request) else request == Null)
  }

  /** Reading the message does not fail: the metadata of its task can be read, and its time when it counts. */
  predicate Legible(e: Evidence, m: Record, task: Value, request: Value, author: Value) {
    var at := Get(m.fields, "task_id");
    (at != task && at in e.tasks ==> e.tasks[at].resultFor.Some?)
    && (Concerns(e, m, task, request) && IsText(m, author) ==> m.at.Some?)
  }

  predicate IsText(m: Record, author: Value) {
    Get(m.fields, "sender_id") == author && Get(m.fields, "message_type") == Text("text")
  }

  predicate Answers(e: Evidence, messages: seq<Record>, task: Value, request: Value, author: Value, after: int,
      i: int)
  {
    0 <= i < |messages| && Concerns(e, messages[i], task, request) && IsText(messages[i], author)
    && messages[i].at.Some? && messages[i].at.value > after
    && forall j :: 0 <= j <= i ==> Legible(e, messages[j], task, request, author)
  }

  lemma {:induction false} AnsweredExactly(e: Evidence, messages: seq<Record>, task: Value, request: Value,
      author: Value, after: int)
    ensures Answered(e, messages, task, request, author, after) <==>
      exists i :: Answers(e, messages, task, request, author, after, i)
    decreases |messages|
  {
    if messages != [] {
      var rest := messages[1..];
      AnsweredExactly(e, rest, task, request, author, after);
      if i :| Answers(e, rest, task, request, author, after, i) {
        if Legible(e, messages[0], task, request, author) {
          AnswersLater(e, messages, task, request, author, after, i);
        }
      }
      if i :| Answers(e, messages, task, request, author, after, i) {
        assert Legible(e, messages[0], task, request, author);
        if i > 0 {
          AnswersEarlier(e, messages, task, request, author, after, i - 1);
        }
      }
      if Answered(e, messages, task, request, author, after) && !Answered(e, rest, task, request, author, after) {
        assert Answers(e, messages, task, request, author, after, 0);
      }
    }
  }

  lemma AnswersLater(e: Evidence, messages: seq<Record>, task: Value, request: Value, author: Value, after: int, i: int)
    requires messages != [] && Legible(e, messages[0], task, request, author)
    requires Answers(e, messages[1..], task, request, author, after, i)
    ensures Answers(e, messages, task, request, author, after, i + 1)
  {
    forall j | 0 <= j <= i + 1 ensures Legible(e, messages[j], task, request, author) {
      if j > 0 {
        assert messages[1..][j - 1] == messages[j];
      }
    }
  }

  lemma AnswersEarlier(e: Evidence, messages: seq<Record>, task: Value, request: Value, author: Value, after: int,
      i: int)
    requires messages != [] && 0 <= i && Answers(e, messages, task, request, author, after, i + 1)
    ensures Answers(e, messages[1..], task, request, author, after, i)
  {
    forall j | 0 <= j <= i ensures Legible(e, messages[1..][j], task, request, author) {
      assert messages[1..][j] == messages[j + 1];
    }
  }

  /* ---- one round ---- */

  /** The hand-off and its review name the same agents, article, revision and work request. */
  ghost predicate SameRound(h: Record, review: Dict) {
    && h.input.Some? && h.output.Some?
    && Get(h.fields, "agent_id") == Get(review, "author_agent_id")
    && Get(h.output.value, "publisher_agent_id") == Get(review, "publisher_agent_id")
    && Get(h.output.value, "review_id") == Get(review, "review_id")
    && Get(h.output.value, "post_id") == Get(review, "post_id")
    && Get(h.output.value, "revision") == Get(review, "revision")
    && Get(h.output.value, "work_request_id") == Get(review, "work_request_id")
    && Get(h.input.value, "expected_revision") == Get(review, "revision")
    && Get(h.input.value, "connection_id") == Get(review, "connection_id")
  }

  /** The two agents differ, and they are the expected ones where these are given. */
  ghost predicate RightAgents(author: Value, publisher: Value, writer: Option<Value>, director: Option<Value>) {
    author != publisher && (writer.Some? ==> writer == Some(author)) && (director.Some? ==> director == Some(publisher))
  }

  /** The one work request of the round, completed by the director. */
  ghost predicate IsWorkOf(w: Record, review: Dict) {
    Get(w.fields, "id") == Get(review, "work_request_id")
    && Get(w.fields, "target_agent_id") == Get(review, "publisher_agent_id")
    && Get(w.fields, "status") == Text("completed")
  }

  ghost predicate WorkDone(e: Evidence, review: Dict) {
    exists i :: 0 <= i < |Data("work_request:", e.items)| && IsWorkOf(Data("work_request:", e.items)[i], review)
      && forall j :: 0 <= j < |Data("work_request:", e.items)| && j != i ==>
           Get(Data("work_request:", e.items)[j].fields, "id") != Get(review, "work_request_id")
  }

  ghost predicate Finished(e: Evidence, task: Value) {
    task in e.tasks && e.tasks[task].state == Some(Text("completed"))
  }

  /** The director's result in the writer's task: one message, and a later answer of the writer. */
  ghost predicate IsReply(m: Record, task: Value, review: Dict) {
    Get(m.fields, "task_id") == task && Get(m.fields, "sender_id") == Get(review, "publisher_agent_id")
    && Get(m.fields, "message_type") == Text("result")
    && m.content.Some? && Get(m.content.value, "work_request_id") == Get(review, "work_request_id")
  }

  ghost predicate AnsweredOnce(e: Evidence, task: Value, review: Dict) {
    var messages := Data("message:", e.items);
    exists i, j ::
      OnlyReply(messages, task, review, i) && messages[i].at.Some?
      && Answers(e, messages, task, Get(review, "work_request_id"), Get(review, "author_agent_id"),
                 messages[i].at.value, j)
  }

  ghost predicate OnlyReply(messages: seq<Record>, task: Value, review: Dict, i: int) {
    0 <= i < |messages| && IsReply(messages[i], task, review)
    && forall k :: 0 <= k < |messages| && k != i ==> !IsReply(messages[k], task, review)
  }

  /** The last read of the post after the decision showed the draft as it was reviewed. */
  ghost predicate IsReadBack(row: Record, review: Dict) {
    IsTool(row, "ghost.post.read") && row.input.Some? && row.output.Some?
    && Get(row.input.value, "connection_id") == Get(review, "connection_id")
    && Get(row.output.value, "post_id") == Get(review, "post_id")
  }

  ghost predicate StillDraft(calls: seq<Record>, review: Dict, decision: nat) {
    var rows := Completed(calls);
    && Get(review, "release_intent") == Text("draft_only")
    && (forall row :: row in calls ==> !IsTool(row, "ghost.post.publish"))
    && exists r: int :: decision < r && LastReadBack(rows, review, r)
  }

  ghost predicate LastReadBack(rows: seq<Record>, review: Dict, r: int) {
    && 0 <= r < |rows| && IsReadBack(rows[r], review)
    && Get(rows[r].output.value, "status") == Text("draft")
    && Get(rows[r].output.value, "revision") == Get(review, "revision")
    && forall s :: r < s < |rows| ==> !IsReadBack(rows[s], review)
  }

  /** The hand-off is that of the review, by and to the right agents, and the review has been decided. */
  ghost predicate HandedOff(h: Record, review: Dict, writer: Option<Value>, director: Option<Value>) {
    && SameRound(h, review)
    && RightAgents(Get(review, "author_agent_id"), Get(review, "publisher_agent_id"), writer, director)
    && Get(review, "status") in [Text("published"), Text("approved"), Text("changes_requested")]
  }

  ghost predicate NothingElseDelegated(rows: seq<Record>) {
    forall row :: row in rows ==>
      !IsTool(row, "organization.request_work") && !IsTool(row, "organization.delegate_task")
  }

  ghost predicate BothFinished(e: Evidence, h: Record) {
    h.output.Some? && Finished(e, Get(h.fields, "task_id")) && Finished(e, Get(h.output.value, "created_task_id"))
  }

  /** What the records show of one round besides its order in time. */
  ghost predicate Vouched(e: Evidence, calls: seq<Record>, review: Dict, writer: Option<Value>,
      director: Option<Value>, m: Moments)
  {
    var rows := Completed(calls);
    && m.handoff < |rows|
    && HandedOff(rows[m.handoff], review, writer, director)
    && NothingElseDelegated(rows)
    && WorkDone(e, review)
    && BothFinished(e, rows[m.handoff])
    && AnsweredOnce(e, Get(rows[m.handoff].fields, "task_id"), review)
    && (Get(review, "status") == Text("approved") ==> StillDraft(calls, review, m.decision))
  }

  lemma PinnedVouches(h: Record, review: Dict, writer: Option<Value>, director: Option<Value>)
    requires Pinned(h, review, writer, director)
    ensures HandedOff(h, review, writer, director)
  {
    var keys := {"review_id", "post_id", "revision", "work_request_id"};
    assert "review_id" in keys && "post_id" in keys && "revision" in keys && "work_request_id" in keys;
  }

  lemma TasksVouch(e: Evidence, h: Record)
    requires TasksFinished(e, h)
    ensures BothFinished(e, h)
  {
  }

  lemma WorkVouches(e: Evidence, rows: seq<Record>, review: Dict)
    requires WorkRequested(e, rows, review)
    ensures NothingElseDelegated(rows) && WorkDone(e, review)
  {
    assert "organization.request_work" in DELEGATIONS && "organization.delegate_task" in DELEGATIONS;
    var f := (row: Record) => Get(row.fields, "id") == Get(review, "work_request_id");
    var work := Data("work_request:", e.items);
    SelectsOne(f, work);
    var i := Places(f, work)[0];
    assert IsWorkOf(work[i], review);
    forall j | 0 <= j < |work| && j != i ensures Get(work[j].fields, "id") != Get(review, "work_request_id") {
      assert At(f, work, j) ==> j == i;
    }
  }

  lemma ReturnVouches(e: Evidence, h: Record, review: Dict)
    requires Returned(e, h, review)
    ensures AnsweredOnce(e, Get(h.fields, "task_id"), review)
  {
    var task, request, messages := Get(h.fields, "task_id"), Get(review, "work_request_id"), Data("message:", e.items);
    var publisher := Get(review, "publisher_agent_id");
    var f := (m: Record) => IsResult(m, task, publisher) && Names(m.content, "work_request_id", request);
    SelectsOne(f, messages);
    var i := Places(f, messages)[0];
    forall k | 0 <= k < |messages| ensures At(f, messages, k) <==> IsReply(messages[k], task, review) {
    }
    assert OnlyReply(messages, task, review, i);
    AnsweredExactly(e, messages, task, request, Get(review, "author_agent_id"), messages[i].at.value);
  }

  lemma ReadBackVouches(calls: seq<Record>, review: Dict, decision: nat)
    requires Distinct(Completed(calls)) && decision < |Completed(calls)|
    requires ApprovedDraft(calls, Completed(calls), Completed(calls)[decision], review)
    ensures StillDraft(calls, review, decision)
  {
    var rows := Completed(calls);
    var f := ReadBacks(rows, rows[decision], Get(review, "connection_id"), Get(review, "post_id"));
    PositionOf(rows, decision);
    var r := LastSelected(f, rows);
    PositionOf(rows, r);
    forall s | r < s < |rows| ensures !IsReadBack(rows[s], review) {
      PositionOf(rows, s);
      assert !At(f, rows, s);
    }
    assert LastReadBack(rows, review, r);
  }

  /** The predicates of a documented round, one by one. */
  lemma DocumentParts(e: Evidence, calls: seq<Record>, rows: seq<Record>, review: Dict, writer: Option<Value>,
      director: Option<Value>, m: Moments)
    requires rows == Completed(calls) && Documented(e, calls, review, writer, director, m)
    ensures m.handoff < |rows| && m.decision < |rows| && Pinned(rows[m.handoff], review, writer, director)
    ensures WorkRequested(e, rows, review) && TasksFinished(e, rows[m.handoff]) && Returned(e, rows[m.handoff], review)
    ensures Get(review, "status") == Text("approved") ==> ApprovedDraft(calls, rows, rows[m.decision], review)
  {
  }

  /** A documented round shows all of this. */
  lemma RoundVouches(e: Evidence, calls: seq<Record>, rows: seq<Record>, review: Dict, writer: Option<Value>,
      director: Option<Value>, m: Moments)
    requires rows == Completed(calls) && Distinct(rows) && Documented(e, calls, review, writer, director, m)
    ensures Vouched(e, calls, review, writer, director, m)
  {
    DocumentParts(e, calls, rows, review, writer, director, m);
    var h := rows[m.handoff];
    PinnedVouches(h, review, writer, director);
    WorkVouches(e, rows, review);
    TasksVouch(e, h);
    ReturnVouches(e, h, review);
    if Get(review, "status") == Text("approved") {
      ReadBackVouches(calls, review, m.decision);
    }
  }

  /* ---- the report ---- */

  lemma StatusOfOutcome(review: Dict)
    requires HasOutcome(review)
    requires Get(review, "status") in [Text("published"), Text("approved"), Text("changes_requested")]
    ensures (Outcome(review) == Text("published") && Get(review, "status") == Text("published"))
      || (Outcome(review) == Text("approved_draft") && Get(review, "status") == Text("approved"))
  {
  }

  /** The report names what was handed off, by whom and to whom, and how the review ended. */
  ghost predicate ReportsHandoff(report: Report, h: Record, review: Dict) {
    && h.output.Some?
    && report.writer == Get(h.fields, "agent_id") && report.director == Get(h.output.value, "publisher_agent_id")
    && report.review == Get(h.output.value, "review_id") && report.post == Get(h.output.value, "post_id")
    && report.revision == Get(h.output.value, "revision")
    && ((report.outcome == Text("published") && Get(review, "status") == Text("published"))
      || (report.outcome == Text("approved_draft") && Get(review, "status") == Text("approved")))
  }

  lemma LastRoundVouches(e: Evidence, calls: seq<Record>, review: Dict, writer: Option<Value>, director: Option<Value>,
      rounds: nat) returns (m: Moments)
    requires Distinct(Completed(calls)) && RoundPasses(e, calls, review, writer, director) && HasOutcome(review)
    ensures Reviewed(Completed(calls), review, m) && Vouched(e, calls, review, writer, director, m)
    ensures m.handoff < |Completed(calls)|
      && ReportsHandoff(ReportOf(review, rounds), Completed(calls)[m.handoff], review)
  {
    m := RoundReviewed(e, calls, review, writer, director);
    RoundVouches(e, calls, Completed(calls), review, writer, director, m);
    StatusOfOutcome(review);
  }

  /**
   * The report of an accepted trace is that of its last hand-off: its writer
   * is the agent that handed the article off, its director the publisher named
   * there, and its article and revision are the ones handed off. The records
   * show the round, and its outcome is a release or an approved draft.
   */
  lemma ReportVouches(e: Evidence, reviews: seq<Dict>, writer: Option<Value>, director: Option<Value>, le: ValueOrder,
      calls: seq<Record>, last: Dict) returns (m: Moments)
    requires UniqueIds(Data("tool_call:", e.items)) && Calls(e.items, le) == Some(calls)
    requires Accepted(e, calls, reviews, writer, director) && last == Rounds(calls, reviews)[|reviews| - 1]
    ensures Reviewed(Completed(calls), last, m) && Vouched(e, calls, last, writer, director, m)
    ensures m.handoff < |Completed(calls)|
      && ReportsHandoff(FinalReport(calls, reviews), Completed(calls)[m.handoff], last)
    ensures FinalReport(calls, reviews).rounds == |Handoffs(calls)|
  {
    CompletedDistinct(e.items, le);
    var passes := Passes(e, calls, writer, director);
    assert passes(last) && HasOutcome(last);
    m := LastRoundVouches(e, calls, last, writer, director, |reviews|);
  }
}
