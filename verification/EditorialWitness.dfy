/**
 * Evidence that is accepted although a review was decided after the next one was asked for.
 *
 * Two rounds of one article: the first draft is written and handed off, then the second,
 * and only then are the two reviews decided, in order, and the second draft published.
 * What the calls show is kept apart from how they are built: `Played` says which act
 * each call is, and `About` what a review says.
 */
module EditorialWitness {

  import opened Basics
  import opened Selection
  import opened Sorting
  import opened Editorial
  import opened EditorialRound
  import opened EditorialRounds

  datatype Turn = First | Second

  datatype Act = Write(turn: Turn) | Ask(turn: Turn) | Decide(turn: Turn) | Publish(turn: Turn)

  const ACTS: seq<Act> := [
    Write(First), Ask(First), Write(Second), Ask(Second), Decide(First), Decide(Second), Publish(Second)]

  /* ---- names ---- */

  const POST := Text("post")
  const CONNECTION := Text("connection")
  const WRITER := Text("writer")
  const DIRECTOR := Text("director")
  const TASK := Text("task")
  const COMPLETED := Text("completed")

  function Tag(name: string, turn: Turn): Value {
    Text(name + (if turn.First? then "1" else "2"))
  }

  lemma TagsDiffer(name: string, a: Turn, b: Turn)
    ensures Tag(name, a) == Tag(name, b) <==> a == b
  {
    var x, y := Tag(name, a).text, Tag(name, b).text;
    assert x[|name|] == if a.First? then '1' else '2';
    assert y[|name|] == if b.First? then '1' else '2';
  }

  /* ---- the evidence ---- */

  function Review(turn: Turn): Dict {
    map["review_id" := Tag("review-", turn), "post_id" := POST, "connection_id" := CONNECTION,
        "author_agent_id" := WRITER, "publisher_agent_id" := DIRECTOR, "revision" := Tag("revision-", turn),
        "work_request_id" := Tag("work-", turn),
        "prior_review_id" := if turn.First? then Null else Tag("review-", First),
        "status" := Text(if turn.First? then "changes_requested" else "published")]
  }

  function ToolOf(act: Act): string {
    match act
    case Write(turn) => if turn.First? then "ghost.draft.create" else "ghost.draft.update"
    case Ask(_) => REQUEST
    case Decide(_) => DECIDE
    case Publish(_) => PUBLISH
  }

  function InputOf(act: Act): Dict {
    match act
    case Write(_) => map["connection_id" := CONNECTION]
    case Ask(turn) => map["connection_id" := CONNECTION, "expected_revision" := Tag("revision-", turn)]
    case Decide(turn) =>
      map["review_id" := Tag("review-", turn),
          "verdict" := Text(if turn.First? then "changes_requested" else "approved")]
    case Publish(turn) => map["review_id" := Tag("review-", turn), "connection_id" := CONNECTION]
  }

  function OutputOf(act: Act): Dict {
    match act
    case Write(turn) => map["post_id" := POST, "revision" := Tag("revision-", turn)]
    case Ask(turn) =>
      map["review_id" := Tag("review-", turn), "post_id" := POST, "revision" := Tag("revision-", turn),
          "work_request_id" := Tag("work-", turn), "publisher_agent_id" := DIRECTOR,
          "created_task_id" := Tag("child-", turn)]
    case Decide(turn) => map["revision" := Tag("revision-", turn)]
    case Publish(_) => map["status" := Text("published"), "post_id" := POST]
  }

  function AgentOf(act: Act): Value {
    if act.Write? || act.Ask? then WRITER else DIRECTOR
  }

  /** The call of an act, and its time. */
  function Row(act: Act, at: nat): Record {
    Record(map["id" := Tag(ToolOf(act), act.turn), "tool_name" := Text(ToolOf(act)), "agent_id" := AgentOf(act),
               "status" := COMPLETED, "task_id" := TASK],
           Some(InputOf(act)), Some(OutputOf(act)), None, Some(at))
  }

  function Rows(acts: seq<Act>): seq<Record> {
    seq(|acts|, i requires 0 <= i < |acts| => Row(acts[i], i))
  }

  function Work(turn: Turn): Record {
    Record(map["id" := Tag("work-", turn), "target_agent_id" := DIRECTOR, "status" := COMPLETED],
           None, None, None, None)
  }

  function Result(turn: Turn): Record {
    Record(map["task_id" := TASK, "sender_id" := DIRECTOR, "message_type" := Text("result")], None, None,
           Some(map["work_request_id" := Tag("work-", turn)]), Some(20))
  }

  const ANSWER :=
    Record(map["task_id" := TASK, "sender_id" := WRITER, "message_type" := Text("text")], None, None, None, Some(30))

  function Items(prefix: string, rows: seq<Record>): seq<Item> {
    seq(|rows|, i requires 0 <= i < |rows| => Item(prefix, rows[i]))
  }

  const MESSAGES: seq<Record> := [Result(First), Result(Second), ANSWER]
  const REQUESTS: seq<Record> := [Work(First), Work(Second)]
  const DONE := Task(Some(COMPLETED), None)

  function Trace(): Evidence {
    Evidence(Items("tool_call:", Rows(ACTS)) + Items("work_request:", REQUESTS) + Items("message:", MESSAGES),
             map[TASK := DONE, Tag("child-", First) := DONE, Tag("child-", Second) := DONE])
  }

  const REVIEWS: seq<Dict> := [Review(First), Review(Second)]

  /* ---- reading it ---- */

  lemma {:induction false} DataConcat(prefix: string, a: seq<Item>, b: seq<Item>)
    ensures Data(prefix, a + b) == Data(prefix, a) + Data(prefix, b)
    decreases |a|
  {
    if a == [] {
      assert a + b == b;
    } else {
      var head := if prefix <= a[0].id then [a[0].data] else [];
      DataConcat(prefix, a[1..], b);
      assert (a + b)[0] == a[0] && (a + b)[1..] == a[1..] + b;
      Associates(head, Data(prefix, a[1..]), Data(prefix, b));
    }
  }

  lemma {:induction false} DataOfItems(prefix: string, own: string, rows: seq<Record>)
    ensures Data(prefix, Items(own, rows)) == if prefix <= own then rows else []
    decreases |rows|
  {
    if rows != [] {
      DataOfItems(prefix, own, rows[1..]);
      assert Items(own, rows)[1..] == Items(own, rows[1..]);
      assert rows == [rows[0]] + rows[1..];
    }
  }

  lemma TraceData()
    ensures Data("tool_call:", Trace().items) == Rows(ACTS)
    ensures Data("work_request:", Trace().items) == REQUESTS
    ensures Data("message:", Trace().items) == MESSAGES
  {
    var t, w, m := "tool_call:", "work_request:", "message:";
    assert t[0] == 't' && w[0] == 'w' && m[0] == 'm';
    TraceDataOf(t);
    TraceDataOf(w);
    TraceDataOf(m);
  }

  lemma TraceDataOf(prefix: string)
    ensures Data(prefix, Trace().items)
         == (if prefix <= "tool_call:" then Rows(ACTS) else []) + (if prefix <= "work_request:" then REQUESTS else [])
            + (if prefix <= "message:" then MESSAGES else [])
  {
    var a, b, c := Items("tool_call:", Rows(ACTS)), Items("work_request:", REQUESTS), Items("message:", MESSAGES);
    DataConcat(prefix, a + b, c);
    DataConcat(prefix, a, b);
    DataOfItems(prefix, "tool_call:", Rows(ACTS));
    DataOfItems(prefix, "work_request:", REQUESTS);
    DataOfItems(prefix, "message:", MESSAGES);
  }

  /** Calls whose times increase are in execution order already. */
  lemma {:induction false} SortedInTime(le: ValueOrder, rows: seq<Record>)
    requires forall i :: 0 <= i < |rows| ==> rows[i].at.Some?
    requires forall i, j :: 0 <= i < j < |rows| ==> rows[i].at.value < rows[j].at.value
    ensures Sort(ExecutionOrder(le), rows) == rows
    decreases |rows|
  {
    if rows != [] {
      SortedInTime(le, rows[1..]);
      assert |rows| > 1 ==> rows[0].at.value < rows[1].at.value;
      assert rows == [rows[0]] + rows[1..];
    }
  }

  lemma {:induction false} FilterAll<T>(f: T -> bool, xs: seq<T>)
    requires forall x :: x in xs ==> f(x)
    ensures Filter(f, xs) == xs
    decreases |xs|
  {
    if xs != [] {
      FilterAll(f, xs[1..]);
      assert xs == [xs[0]] + xs[1..];
    }
  }

  lemma RowBasics(act: Act, at: nat)
    ensures Row(act, at).at == Some(at) && "id" in Row(act, at).fields && IsCompleted(Row(act, at))
  {
  }

  lemma RowsInTime(le: ValueOrder, acts: seq<Act>, rows: seq<Record>)
    requires rows == Rows(acts)
    ensures Ordered(rows) && Sort(ExecutionOrder(le), rows) == rows && Completed(rows) == rows
  {
    forall i | 0 <= i < |rows|
      ensures rows[i].at == Some(i) && "id" in rows[i].fields && IsCompleted(rows[i])
    {
      RowBasics(acts[i], i);
    }
    SortedInTime(le, rows);
    FilterAll(IsCompleted, rows);
  }

  lemma TraceCalls(le: ValueOrder, acts: seq<Act>)
    requires acts == ACTS
    ensures Calls(Trace().items, le) == Some(Rows(acts))
  {
    TraceData();
    RowsInTime(le, acts, Rows(acts));
  }

  /* ---- which call is which ---- */

  lemma ToolKinds(act: Act)
    ensures ToolOf(act) == REQUEST <==> act.Ask?
    ensures ToolOf(act) == DECIDE <==> act.Decide?
    ensures ToolOf(act) == PUBLISH <==> act.Publish?
    ensures ToolOf(act) in DRAFTS <==> act.Write?
    ensures ToolOf(act) !in DELEGATIONS
  {
    var tool := ToolOf(act);
    assert REQUEST[6] == 'r' && DECIDE[6] == 'r' && PUBLISH[6] == 'p' && |REQUEST| != |DECIDE|;
    assert forall name :: name in DRAFTS ==> name[6] == 'd';
    assert forall name :: name in DELEGATIONS ==> name[0] == 'o';
    assert tool[0] == 'g';
    assert act.Write? ==> tool[6] == 'd';
  }

  lemma RowTool(act: Act, at: nat)
    ensures forall name :: IsTool(Row(act, at), name) <==> ToolOf(act) == name
  {
  }

  lemma RowKinds(act: Act, at: nat)
    ensures IsRequest(Row(act, at)) <==> act.Ask?
    ensures forall turn :: HandoffOf(Tag("review-", turn))(Row(act, at)) <==> act == Ask(turn)
    ensures forall turn :: DecisionOf(Tag("review-", turn))(Row(act, at)) <==> act == Decide(turn)
    ensures forall turn :: PublicationOf(Tag("review-", turn))(Row(act, at)) <==> act == Publish(turn)
    ensures IsDraftWrite(Row(act, at), POST) <==> act.Write?
    ensures forall name :: name in DELEGATIONS ==> !IsTool(Row(act, at), name)
  {
    ToolKinds(act);
    RowTool(act, at);
    TagsDiffer("review-", act.turn, First);
    TagsDiffer("review-", act.turn, Second);
  }

  function VerdictFor(turn: Turn): Value {
    Text(if turn.First? then "changes_requested" else "approved")
  }

  /** What a call shows of the act it is, as far as the checks of a round look. */
  ghost predicate Plays(row: Record, act: Act) {
    && By(row, AgentOf(act)) && row.input.Some? && row.output.Some? && "tool_name" in row.fields
    && (IsRequest(row) <==> act.Ask?)
    && (forall turn :: HandoffOf(Tag("review-", turn))(row) <==> act == Ask(turn))
    && (forall turn :: DecisionOf(Tag("review-", turn))(row) <==> act == Decide(turn))
    && (forall turn :: PublicationOf(Tag("review-", turn))(row) <==> act == Publish(turn))
    && (IsDraftWrite(row, POST) <==> act.Write?)
    && (forall name :: name in DELEGATIONS ==> !IsTool(row, name))
    && (!act.Publish? ==> Matches(row.output.value, "revision", Tag("revision-", act.turn)))
    && (act.Decide? ==> Matches(row.input.value, "verdict", VerdictFor(act.turn)))
    && (act.Publish? ==>
          && Matches(row.input.value, "connection_id", CONNECTION)
          && Matches(row.output.value, "status", Text("published")) && Matches(row.output.value, "post_id", POST))
  }

  ghost predicate Played(rows: seq<Record>, acts: seq<Act>) {
    |rows| == |acts| && forall i :: 0 <= i < |rows| ==> Plays(rows[i], acts[i])
  }

  lemma RowPlays(act: Act, at: nat)
    ensures Plays(Row(act, at), act)
  {
    RowKinds(act, at);
    RowShows(act, at);
  }

  lemma RowShows(act: Act, at: nat)
    ensures var row := Row(act, at);
      && By(row, AgentOf(act)) && row.input.Some? && row.output.Some? && "tool_name" in row.fields
      && (!act.Publish? ==> Matches(row.output.value, "revision", Tag("revision-", act.turn)))
      && (act.Decide? ==> Matches(row.input.value, "verdict", VerdictFor(act.turn)))
      && (act.Publish? ==>
            && Matches(row.input.value, "connection_id", CONNECTION)
            && Matches(row.output.value, "status", Text("published")) && Matches(row.output.value, "post_id", POST))
  {
  }

  lemma RowsPlay(acts: seq<Act>)
    ensures Played(Rows(acts), acts)
  {
    forall i | 0 <= i < |acts| ensures Plays(Rows(acts)[i], acts[i]) {
      RowPlays(acts[i], i);
    }
  }

  /** What a review says, as far as the order of events goes. */
  ghost predicate About(review: Dict, turn: Turn) {
    && Get(review, "review_id") == Tag("review-", turn)
    && Get(review, "post_id") == POST
    && Get(review, "connection_id") == CONNECTION
    && Get(review, "author_agent_id") == WRITER && Get(review, "publisher_agent_id") == DIRECTOR != WRITER
    && Get(review, "revision") == Tag("revision-", turn)
    && (Get(review, "status") == Text("published") <==> turn.Second?)
    && Verdict(review) == VerdictFor(turn)
  }

  lemma ReviewAbout(turn: Turn)
    ensures About(Review(turn), turn) && Get(Review(turn), "status") != Text("approved")
  {
    assert "published"[0] == 'p' && "changes_requested"[0] == 'c' && "approved"[0] == 'a';
    assert "writer"[0] == 'w' && "director"[0] == 'd';
  }

  /** The only act of its kind makes the only such call. */
  lemma OnlyAct(f: Record -> bool, rows: seq<Record>, acts: seq<Act>, act: Act, i: nat)
    requires |rows| == |acts| && i < |acts| && acts[i] == act
    requires forall j :: 0 <= j < |acts| && acts[j] == act ==> j == i
    requires forall j :: 0 <= j < |acts| ==> (f(rows[j]) <==> acts[j] == act)
    ensures Only(f, rows, i)
  {
  }

  /** Where the acts of a turn stand. */
  ghost predicate Stands(acts: seq<Act>, turn: Turn, m: Moments) {
    && m.write + 1 == m.handoff < m.decision < |acts|
    && acts[m.write] == Write(turn) && acts[m.handoff] == Ask(turn) && acts[m.decision] == Decide(turn)
    && forall j :: 0 <= j < |acts| ==>
      (acts[j] == Ask(turn) ==> j == m.handoff) && (acts[j] == Decide(turn) ==> j == m.decision)
  }

  lemma ActDrafted(rows: seq<Record>, acts: seq<Act>, review: Dict, turn: Turn, m: Moments)
    requires Played(rows, acts) && About(review, turn) && Stands(acts, turn, m)
    ensures DraftedBefore(rows, review, m)
  {
    assert Plays(rows[m.write], acts[m.write]);
    forall i | 0 <= i < m.handoff && WriteAt(rows, i, POST) ensures By(rows[i], WRITER) {
      assert Plays(rows[i], acts[i]);
    }
  }

  lemma ActDecided(rows: seq<Record>, acts: seq<Act>, review: Dict, turn: Turn, m: Moments)
    requires Played(rows, acts) && About(review, turn) && Stands(acts, turn, m)
    ensures DecidedAfter(rows, review, m)
  {
    var asks, decides := HandoffOf(Tag("review-", turn)), DecisionOf(Tag("review-", turn));
    forall j | 0 <= j < |acts|
      ensures (asks(rows[j]) <==> acts[j] == Ask(turn)) && (decides(rows[j]) <==> acts[j] == Decide(turn))
    {
      assert Plays(rows[j], acts[j]);
    }
    OnlyAct(asks, rows, acts, Ask(turn), m.handoff);
    OnlyAct(decides, rows, acts, Decide(turn), m.decision);
    assert Plays(rows[m.handoff], acts[m.handoff]) && Plays(rows[m.decision], acts[m.decision]);
  }

  lemma ActPublished(rows: seq<Record>, acts: seq<Act>, review: Dict, turn: Turn, m: Moments, p: nat)
    requires Played(rows, acts) && About(review, turn) && Stands(acts, turn, m)
    requires m.decision < p < |acts| && acts[p] == Publish(Second)
    requires forall j :: 0 <= j < |acts| && acts[j].Publish? ==> j == p
    ensures PublishedAfter(rows, review, m)
  {
    var f := PublicationOf(Tag("review-", turn));
    forall j | 0 <= j < |acts| ensures f(rows[j]) <==> acts[j] == Publish(turn) {
      assert Plays(rows[j], acts[j]);
    }
    if turn.Second? {
      OnlyAct(f, rows, acts, Publish(turn), p);
      assert Plays(rows[p], acts[p]);
      assert Publishes(rows[p], review);
    }
  }

  /* ---- what a round is documented with ---- */

  lemma RowsRetained(rows: seq<Record>, acts: seq<Act>, handoff: Record)
    requires Played(rows, acts)
    ensures Retained(rows, handoff)
  {
    forall row | row in rows ensures "tool_name" in row.fields && row.output.Some? && row.input.Some? {
      var i :| 0 <= i < |rows| && rows[i] == row;
      assert Plays(rows[i], acts[i]);
    }
  }

  lemma PinnedKeys(turn: Turn)
    ensures forall key :: key in {"review_id", "post_id", "revision", "work_request_id"} ==>
      key in Review(turn) && Matches(OutputOf(Ask(turn)), key, Review(turn)[key])
  {
  }

  lemma PinnedReview(turn: Turn)
    ensures Matches(Review(turn), "author_agent_id", WRITER) && Matches(Review(turn), "publisher_agent_id", DIRECTOR)
    ensures Matches(Review(turn), "connection_id", CONNECTION)
      && Matches(Review(turn), "revision", Tag("revision-", turn))
    ensures Matches(Review(turn), "status", Text(if turn.First? then "changes_requested" else "published"))
  {
  }

  lemma AskPins(turn: Turn, at: nat)
    ensures Pinned(Row(Ask(turn), at), Review(turn), None, None)
  {
    PinnedKeys(turn);
    PinnedReview(turn);
    MessageKinds();
  }

  lemma OnlySelected<T>(f: T -> bool, xs: seq<T>, i: nat)
    requires Only(f, xs, i)
    ensures Filter(f, xs) == [xs[i]]
  {
    SelectsOne(f, xs);
  }

  lemma OneRequest(f: Record -> bool, turn: Turn)
    requires forall row :: f(row) <==> Get(row.fields, "id") == Tag("work-", turn)
    ensures Filter(f, REQUESTS) == [Work(turn)]
  {
    TagsDiffer("work-", First, Second);
    OnlySelected(f, REQUESTS, if turn.First? then 0 else 1);
  }

  lemma WorkIs(turn: Turn)
    ensures Matches(Work(turn).fields, "id", Tag("work-", turn))
    ensures Matches(Work(turn).fields, "target_agent_id", DIRECTOR) && Matches(Work(turn).fields, "status", COMPLETED)
  {
  }

  lemma WorkThere(rows: seq<Record>, acts: seq<Act>, review: Dict, turn: Turn)
    requires Played(rows, acts)
    requires Get(review, "publisher_agent_id") == DIRECTOR && Get(review, "work_request_id") == Tag("work-", turn)
    ensures WorkRequested(Trace(), rows, review)
  {
    forall row, name | row in rows && name in DELEGATIONS ensures !IsTool(row, name) {
      var i :| 0 <= i < |rows| && rows[i] == row;
      assert Plays(rows[i], acts[i]);
    }
    WorkInTrace(Trace(), rows, review, turn);
  }

  lemma WorkInTrace(e: Evidence, rows: seq<Record>, review: Dict, turn: Turn)
    requires forall row, name :: row in rows && name in DELEGATIONS ==> !IsTool(row, name)
    requires Get(review, "publisher_agent_id") == DIRECTOR && Get(review, "work_request_id") == Tag("work-", turn)
    requires e == Trace()
    ensures WorkRequested(e, rows, review)
  {
    TraceData();
    OneRequest((row: Record) => Get(row.fields, "id") == Get(review, "work_request_id"), turn);
    WorkIs(turn);
  }

  lemma TasksThere(turn: Turn, at: nat)
    ensures TasksFinished(Trace(), Row(Ask(turn), at))
  {
  }

  lemma MessageKinds()
    ensures Text("result") != Text("text") && WRITER != DIRECTOR
  {
    assert "result"[0] == 'r' && "text"[0] == 't' && "writer"[0] == 'w' && "director"[0] == 'd';
  }

  lemma ResultsDiffer()
    ensures Result(First) != Result(Second) && ANSWER != Result(First) && ANSWER != Result(Second)
  {
    TagsDiffer("work-", First, Second);
    assert Result(First).content.value["work_request_id"] != Result(Second).content.value["work_request_id"];
    assert ANSWER.content.None?;
  }

  lemma OneResult(f: Record -> bool, turn: Turn)
    requires forall m :: m in MESSAGES ==> (f(m) <==> m == Result(turn))
    ensures Filter(f, MESSAGES) == [Result(turn)]
  {
    var messages, k := MESSAGES, if turn.First? then 0 else 1;
    ResultsDiffer();
    assert messages[k] == Result(turn);
    forall i | 0 <= i < |messages| ensures f(messages[i]) <==> i == k {
      assert messages[i] in messages;
    }
    OnlySelected(f, messages, k);
  }

  lemma AnswerLast(e: Evidence, request: Value)
    ensures Answered(e, MESSAGES, TASK, request, WRITER, 20)
  {
    MessageKinds();
    assert MESSAGES[1..] == [Result(Second), ANSWER] && MESSAGES[1..][1..] == [ANSWER];
    assert Answered(e, [ANSWER], TASK, request, WRITER, 20);
    assert Answered(e, [Result(Second), ANSWER], TASK, request, WRITER, 20);
  }

  lemma MessageFits(m: Record, turn: Turn)
    requires m in MESSAGES
    ensures IsResult(m, TASK, DIRECTOR) ==> m.content.Some?
    ensures IsResult(m, TASK, DIRECTOR) && Names(m.content, "work_request_id", Tag("work-", turn)) <==>
      m == Result(turn)
  {
    MessageKinds();
    TagsDiffer("work-", turn, First);
    TagsDiffer("work-", turn, Second);
    assert m == Result(First) || m == Result(Second) || m == ANSWER;
  }

  lemma ResultReturned(handoff: Record, review: Dict, turn: Turn)
    requires Get(handoff.fields, "task_id") == TASK && Get(review, "publisher_agent_id") == DIRECTOR
    requires Get(review, "author_agent_id") == WRITER && Get(review, "work_request_id") == Tag("work-", turn)
    ensures Returned(Trace(), handoff, review)
  {
    TraceData();
    forall m | m in MESSAGES
      ensures IsResult(m, TASK, DIRECTOR) ==> m.content.Some?
      ensures IsResult(m, TASK, DIRECTOR) && Names(m.content, "work_request_id", Tag("work-", turn)) <==>
        m == Result(turn)
    {
      MessageFits(m, turn);
    }
    OneResult((m: Record) => IsResult(m, TASK, DIRECTOR)
      && Names(m.content, "work_request_id", Tag("work-", turn)), turn);
    AnswerLast(Trace(), Tag("work-", turn));
  }

  /* ---- the evidence is accepted ---- */

  function MomentsOf(turn: Turn): Moments {
    if turn.First? then Moments(0, 1, 4) else Moments(2, 3, 5)
  }

  lemma ActsStand(acts: seq<Act>, turn: Turn)
    requires acts == ACTS
    ensures |acts| == 7 && Stands(acts, turn, MomentsOf(turn)) && acts[6] == Publish(Second)
    ensures forall j :: 0 <= j < |acts| && acts[j].Publish? ==> j == 6
  {
  }

  lemma ReviewedInTurn(rows: seq<Record>, acts: seq<Act>, review: Dict, turn: Turn)
    requires acts == ACTS && Played(rows, acts) && About(review, turn)
    ensures Reviewed(rows, review, MomentsOf(turn))
  {
    ActsStand(acts, turn);
    ActDrafted(rows, acts, review, turn, MomentsOf(turn));
    ActDecided(rows, acts, review, turn, MomentsOf(turn));
    ActPublished(rows, acts, review, turn, MomentsOf(turn), 6);
  }

  lemma DocumentedInTurn(rows: seq<Record>, acts: seq<Act>, turn: Turn)
    requires acts == ACTS && rows == Rows(acts) && Completed(rows) == rows
    ensures Documented(Trace(), rows, Review(turn), None, None, MomentsOf(turn))
  {
    var h := MomentsOf(turn).handoff;
    var review := Review(turn);
    ActsStand(acts, turn);
    RowsPlay(acts);
    ReviewAbout(turn);
    assert rows[h] == Row(Ask(turn), h);
    RowsRetained(rows, acts, rows[h]);
    AskPins(turn, h);
    PinnedKeys(turn);
    ReviewNames(turn);
    WorkThere(rows, acts, review, turn);
    TasksThere(turn, h);
    AskTask(turn, h);
    ResultReturned(rows[h], review, turn);
  }

  lemma AskTask(turn: Turn, at: nat)
    ensures Get(Row(Ask(turn), at).fields, "task_id") == TASK
  {
  }

  lemma ReviewNames(turn: Turn)
    ensures Get(Review(turn), "publisher_agent_id") == DIRECTOR && Get(Review(turn), "author_agent_id") == WRITER
    ensures Get(Review(turn), "work_request_id") == Tag("work-", turn)
  {
  }

  lemma TimesDistinct(acts: seq<Act>, rows: seq<Record>)
    requires rows == Rows(acts)
    ensures Distinct(rows)
  {
    forall i, j | 0 <= i < j < |rows| ensures rows[i] != rows[j] {
      RowBasics(acts[i], i);
      RowBasics(acts[j], j);
    }
  }

  lemma RoundHolds(rows: seq<Record>, acts: seq<Act>, turn: Turn)
    requires acts == ACTS && rows == Rows(acts) && Completed(rows) == rows
    ensures RoundPasses(Trace(), rows, Review(turn), None, None)
  {
    RowsPlay(acts);
    ReviewAbout(turn);
    ReviewedInTurn(rows, acts, Review(turn), turn);
    DocumentedInTurn(rows, acts, turn);
    TimesDistinct(acts, rows);
    RoundAccepted(Trace(), rows, Review(turn), None, None, MomentsOf(turn));
  }

  lemma RowId(act: Act, at: nat)
    ensures Get(Row(act, at).fields, "id") == Tag(ToolOf(act), act.turn)
  {
  }

  lemma TagParts(name: string, a: Turn, other: string, b: Turn)
    requires Tag(name, a) == Tag(other, b)
    ensures name == other && a == b
  {
    var x, y := Tag(name, a).text, Tag(other, b).text;
    assert name == x[..|x| - 1] && other == y[..|y| - 1];
    assert x[|x| - 1] == if a.First? then '1' else '2';
    assert y[|y| - 1] == if b.First? then '1' else '2';
  }

  lemma IdsDiffer(a: Act, b: Act)
    requires Tag(ToolOf(a), a.turn) == Tag(ToolOf(b), b.turn)
    ensures a == b
  {
    TagParts(ToolOf(a), a.turn, ToolOf(b), b.turn);
    ToolKinds(a);
    ToolKinds(b);
  }

  lemma IdsUnique(rows: seq<Record>, acts: seq<Act>)
    requires rows == Rows(acts) && forall i, j :: 0 <= i < j < |acts| ==> acts[i] != acts[j]
    ensures UniqueIds(rows)
  {
    forall i, j | 0 <= i < j < |rows| ensures Get(rows[i].fields, "id") != Get(rows[j].fields, "id") {
      RowId(acts[i], i);
      RowId(acts[j], j);
      if Tag(ToolOf(acts[i]), acts[i].turn) == Tag(ToolOf(acts[j]), acts[j].turn) {
        IdsDiffer(acts[i], acts[j]);
      }
    }
  }

  lemma ActsDiffer(acts: seq<Act>)
    requires acts == ACTS
    ensures forall i, j :: 0 <= i < j < |acts| ==> acts[i] != acts[j]
  {
  }

  lemma TwoHandoffs(rows: seq<Record>, acts: seq<Act>)
    requires acts == ACTS && Played(rows, acts) && Completed(rows) == rows
    ensures Handoffs(rows) == [rows[1], rows[3]]
  {
    ActsAsk(acts);
    forall i | At(IsRequest, rows, i) ensures i == 1 || i == 3 {
      assert Plays(rows[i], acts[i]);
    }
    assert Plays(rows[1], acts[1]) && Plays(rows[3], acts[3]);
    TwoSelected(IsRequest, rows, 1, 3);
  }

  lemma ActsAsk(acts: seq<Act>)
    requires acts == ACTS
    ensures |acts| == 7 && acts[1] == Ask(First) && acts[3] == Ask(Second)
    ensures forall i :: 0 <= i < |acts| && acts[i].Ask? ==> i == 1 || i == 3
  {
  }

  lemma TwoById(a: Dict, b: Dict)
    requires Get(a, "review_id") != Get(b, "review_id")
    ensures ById([a, b]) == map[Get(a, "review_id") := a, Get(b, "review_id") := b] && |ById([a, b])| == 2
  {
    assert [a, b][..1] == [a] && [a][..0] == [];
    assert ById([a]) == map[Get(a, "review_id") := a];
    assert ById([a, b]).Keys == {Get(a, "review_id"), Get(b, "review_id")};
    assert |ById([a, b])| == |ById([a, b]).Keys|;
  }

  lemma ReviewId(turn: Turn)
    ensures "review_id" in Review(turn) && Get(Review(turn), "review_id") == Tag("review-", turn)
  {
  }

  lemma AskNames(turn: Turn, at: nat)
    ensures Row(Ask(turn), at).output.Some?
      && Matches(Row(Ask(turn), at).output.value, "review_id", Tag("review-", turn))
  {
  }

  /** Two hand-offs and the reviews they name. */
  lemma TwoMatched(rows: seq<Record>, h: Record, k: Record, a: Dict, b: Dict)
    requires Completed(rows) == rows && Handoffs(rows) == [h, k] && forall row :: row in rows ==>
      "tool_name" in row.fields
    requires "review_id" in a && "review_id" in b && Get(a, "review_id") != Get(b, "review_id")
    requires h.output.Some? && Matches(h.output.value, "review_id", Get(a, "review_id"))
    requires k.output.Some? && Matches(k.output.value, "review_id", Get(b, "review_id"))
    ensures Matched(rows, [a, b]) && Rounds(rows, [a, b]) == [a, b]
  {
    TwoById(a, b);
  }

  lemma TraceMatched(rows: seq<Record>, acts: seq<Act>)
    requires acts == ACTS && rows == Rows(acts) && Completed(rows) == rows
    ensures Matched(rows, [Review(First), Review(Second)])
    ensures Rounds(rows, [Review(First), Review(Second)]) == [Review(First), Review(Second)]
  {
    RowsPlay(acts);
    RowsRetained(rows, acts, Row(Ask(First), 1));
    TwoHandoffs(rows, acts);
    ActsAsk(acts);
    ReviewId(First);
    ReviewId(Second);
    TagsDiffer("review-", First, Second);
    AskNames(First, 1);
    AskNames(Second, 3);
    TwoMatched(rows, Row(Ask(First), 1), Row(Ask(Second), 3), Review(First), Review(Second));
  }

  lemma SecondRevises()
    ensures Revises(Review(First), Review(Second)) && HasOutcome(Review(Second))
  {
    ReviewAbout(First);
    ReviewAbout(Second);
    TagsDiffer("revision-", First, Second);
  }

  lemma TwoInOrder(a: Dict, b: Dict, passes: Dict -> bool)
    requires passes(a) && passes(b) && Revises(a, b) && HasOutcome(b)
    ensures InOrder([a, b], passes)
  {
    assert RevisesAt([a, b], 1);
  }

  lemma TraceAccepted(le: ValueOrder, rows: seq<Record>, acts: seq<Act>)
    requires acts == ACTS && rows == Rows(acts)
    ensures Completed(rows) == rows && Accepted(Trace(), rows, [Review(First), Review(Second)], None, None)
    ensures Rounds(rows, [Review(First), Review(Second)]) == [Review(First), Review(Second)]
  {
    RowsInTime(le, acts, rows);
    TraceMatched(rows, acts);
    RoundHolds(rows, acts, First);
    RoundHolds(rows, acts, Second);
    SecondRevises();
    TwoInOrder(Review(First), Review(Second), Passes(Trace(), rows, None, None));
  }

  lemma TraceIds(acts: seq<Act>)
    requires acts == ACTS
    ensures UniqueIds(Data("tool_call:", Trace().items))
  {
    TraceData();
    ActsDiffer(acts);
    IdsUnique(Rows(acts), acts);
  }

  /**
   * The evidence is accepted, whatever the order of ids, and the first review was
   * decided after the second was asked for.
   */
  lemma DecidedAfterNextHandoff(le: ValueOrder) returns (moments: seq<Moments>)
    ensures Calls(Trace().items, le) == Some(Rows(ACTS)) && UniqueIds(Data("tool_call:", Trace().items))
    ensures Accepted(Trace(), Rows(ACTS), REVIEWS, None, None)
    ensures EditorialStory(Completed(Rows(ACTS)), Rounds(Rows(ACTS), REVIEWS), moments)
    ensures |moments| == 2 && moments[0].decision > moments[1].handoff
  {
    var acts := ACTS;
    var rows := Rows(acts);
    TraceCalls(le, acts);
    TraceIds(acts);
    TraceAccepted(le, rows, acts);
    moments := EditorialSound(Trace(), REVIEWS, None, None, le, rows);
    FixedMoments(rows, acts, moments);
  }

  /** The hand-off and the decision of a round are the only ones of its review. */
  lemma FixedMoments(rows: seq<Record>, acts: seq<Act>, moments: seq<Moments>)
    requires acts == ACTS && rows == Rows(acts) && Timed(rows, REVIEWS, moments)
    ensures moments[0].decision == 4 && moments[1].handoff == 3
  {
    RowsPlay(acts);
    ReviewAbout(First);
    ReviewAbout(Second);
    ReviewedInTurn(rows, acts, Review(First), First);
    ReviewedInTurn(rows, acts, Review(Second), Second);
    assert ReviewedAt(rows, REVIEWS, moments, 0) && ReviewedAt(rows, REVIEWS, moments, 1);
  }
}
