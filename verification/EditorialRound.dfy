/** What an accepted editorial trace is: rounds of one article, each drafted, handed off and decided in that order. */
module EditorialRound {
  import opened Basics
  import opened Selection
  import opened Sorting
  import opened Editorial

  /* ---- rows are told apart ---- */

  ghost predicate Distinct(rows: seq<Record>) {
    forall i, j :: 0 <= i < j < |rows| ==> rows[i] != rows[j]
  }

  /** No two tool calls share an id. */
  ghost predicate UniqueIds(rows: seq<Record>) {
    forall i, j :: 0 <= i < j < |rows| ==> Get(rows[i].fields, "id") != Get(rows[j].fields, "id")
  }

  lemma TwoPlaces(rows: seq<Record>, i: nat, j: nat)
    requires i < j < |rows|
    ensures multiset(rows)[rows[i]] >= if rows[i] == rows[j] then 2 else 1
  {
    assert rows == rows[..j] + [rows[j]] + rows[j + 1..];
    assert rows[i] in rows[..j];
    assert multiset(rows[..j])[rows[i]] >= 1;
  }

  lemma OnceDistinct(rows: seq<Record>)
    requires Once(rows)
    ensures Distinct(rows)
  {
    forall i, j | 0 <= i < j < |rows| ensures rows[i] != rows[j] {
      TwoPlaces(rows, i, j);
      assert multiset(rows)[rows[i]] == 1;
    }
  }

  lemma DistinctSelection(f: Record -> bool, rows: seq<Record>)
    requires Distinct(rows)
    ensures Distinct(Filter(f, rows))
  {
    FilterAt(f, rows);
    forall j, k | 0 <= j < k < |Filter(f, rows)| ensures Filter(f, rows)[j] != Filter(f, rows)[k] {
      PlacesIncrease(f, rows, j, k);
    }
  }

  /** With unique ids the completed calls, in execution order, are all different. */
  lemma CompletedDistinct(items: seq<Item>, le: ValueOrder)
    requires UniqueIds(Data("tool_call:", items)) && Calls(items, le).Some?
    ensures Distinct(Completed(Calls(items, le).value))
  {
    var rows := Data("tool_call:", items);
    DistinctOnce(rows);
    var sorted := Sort(ExecutionOrder(le), rows);
    SameElements(sorted, rows);
    OnceDistinct(sorted);
    DistinctSelection(IsCompleted, sorted);
  }

  lemma PositionOf(rows: seq<Record>, i: nat)
    requires Distinct(rows) && i < |rows|
    ensures Position(rows, rows[i]) == i
  {
  }

  /* ---- one round ---- */

  datatype Moments = Moments(write: nat, handoff: nat, decision: nat)

  ghost predicate WriteAt(rows: seq<Record>, i: int, post: Value) {
    0 <= i < |rows| && IsDraftWrite(rows[i], post)
  }

  ghost predicate By(row: Record, agent: Value) {
    Matches(row.fields, "agent_id", agent)
  }

  /** The draft as reviewed is the last write of its post before the hand-off, and every write before
      it is the author's. */
  ghost predicate DraftedBefore(rows: seq<Record>, review: Dict, m: Moments) {
    var post := Get(review, "post_id");
    && m.write < m.handoff <= |rows|
    && WriteAt(rows, m.write, post)
    && rows[m.write].output.Some? && Matches(rows[m.write].output.value, "revision", Get(review, "revision"))
    && (forall i :: m.write < i < m.handoff ==> !WriteAt(rows, i, post))
    && (forall i :: 0 <= i < m.handoff && WriteAt(rows, i, post) ==> By(rows[i], Get(review, "author_agent_id")))
  }

  /** One hand-off by the author, one decision by the publisher after it, with the verdict that goes
      with the review. */
  ghost predicate DecidedAfter(rows: seq<Record>, review: Dict, m: Moments) {
    var id := Get(review, "review_id");
    && Only(HandoffOf(id), rows, m.handoff)
    && Only(DecisionOf(id), rows, m.decision)
    && m.handoff < m.decision
    && By(rows[m.handoff], Get(review, "author_agent_id"))
    && By(rows[m.decision], Get(review, "publisher_agent_id"))
    && Get(review, "author_agent_id") != Get(review, "publisher_agent_id")
    && rows[m.decision].input.Some? && Matches(rows[m.decision].input.value, "verdict", Verdict(review))
    && rows[m.decision].output.Some? && Matches(rows[m.decision].output.value, "revision", Get(review, "revision"))
  }

  /** A published round has one publication, by the publisher and after the decision, of this post over
      this connection; the others have none. */
  ghost predicate PublishedAfter(rows: seq<Record>, review: Dict, m: Moments) {
    var publication := PublicationOf(Get(review, "review_id"));
    if Get(review, "status") == Text("published") then
      exists p :: Only(publication, rows, p) && m.decision < p && Publishes(rows[p], review)
    else forall p :: !At(publication, rows, p)
  }

  ghost predicate Publishes(row: Record, review: Dict) {
    && By(row, Get(review, "publisher_agent_id"))
    && row.input.Some? && Matches(row.input.value, "connection_id", Get(review, "connection_id"))
    && row.output.Some?
    && Matches(row.output.value, "status", Text("published"))
    && Matches(row.output.value, "post_id", Get(review, "post_id"))
  }

  ghost predicate Reviewed(rows: seq<Record>, review: Dict, m: Moments) {
    && DraftedBefore(rows, review, m)
    && DecidedAfter(rows, review, m)
    && PublishedAfter(rows, review, m)
  }

  /** Which rows the check of the draft looks at. */
  lemma WritesSelected(rows: seq<Record>, handoff: nat, post: Value, i: int)
    requires Distinct(rows) && handoff < |rows|
    ensures At(DraftWrites(rows, rows[handoff], post), rows, i) <==> i < handoff && WriteAt(rows, i, post)
  {
    PositionOf(rows, handoff);
    if 0 <= i < |rows| {
      PositionOf(rows, i);
    }
  }

  lemma LastWrite(rows: seq<Record>, handoff: nat, review: Dict, post: Value, f: Record -> bool) returns (w: nat)
    requires Distinct(rows) && handoff < |rows| && Drafted(rows, rows[handoff], review)
    requires post == Get(review, "post_id") && f == DraftWrites(rows, rows[handoff], post)
    ensures w < handoff && WriteAt(rows, w, post)
    ensures rows[w].output.Some? && Matches(rows[w].output.value, "revision", Get(review, "revision"))
    ensures forall i :: w < i < handoff ==> !WriteAt(rows, i, post)
  {
    w := LastSelected(f, rows);
    WritesSelected(rows, handoff, post, w);
    forall i | w < i < handoff ensures !WriteAt(rows, i, post) {
      WritesSelected(rows, handoff, post, i);
    }
  }

  lemma AuthorsWrites(rows: seq<Record>, handoff: nat, review: Dict, post: Value, f: Record -> bool, i: int)
    requires Distinct(rows) && handoff < |rows| && Drafted(rows, rows[handoff], review)
    requires post == Get(review, "post_id") && f == DraftWrites(rows, rows[handoff], post)
    requires 0 <= i < handoff && WriteAt(rows, i, post)
    ensures By(rows[i], Get(review, "author_agent_id"))
  {
    WritesSelected(rows, handoff, post, i);
    FilterMembers(f, rows, rows[i]);
  }

  lemma DraftReviewed(rows: seq<Record>, review: Dict, handoff: nat, decision: nat) returns (m: Moments)
    requires Distinct(rows) && handoff < |rows| && Drafted(rows, rows[handoff], review)
    ensures DraftedBefore(rows, review, m) && m.handoff == handoff && m.decision == decision
  {
    var post := Get(review, "post_id");
    var f := DraftWrites(rows, rows[handoff], post);
    var w := LastWrite(rows, handoff, review, post, f);
    m := Moments(w, handoff, decision);
    forall i | 0 <= i < handoff && WriteAt(rows, i, post) ensures By(rows[i], Get(review, "author_agent_id")) {
      AuthorsWrites(rows, handoff, review, post, f, i);
    }
  }

  lemma PublicationsSettled(calls: seq<Record>, review: Dict, handoff: nat, decision: nat, m: Moments)
    requires var rows := Completed(calls);
      Distinct(rows) && decision < |rows| && m.decision == decision && Settled(calls, rows, rows[decision], review)
    ensures PublishedAfter(Completed(calls), review, m)
  {
    var rows := Completed(calls);
    var f := PublicationOf(Get(review, "review_id"));
    SelectsOne(f, rows);
    FilterNone(f, rows);
    if Get(review, "status") == Text("published") {
      var p := Places(f, rows)[0];
      PositionOf(rows, p);
      PositionOf(rows, decision);
      assert Only(f, rows, p);
    } else if Get(review, "status") == Text("approved") {
      forall p ensures !At(f, rows, p) {
        if At(f, rows, p) {
          FilterMembers(IsCompleted, calls, rows[p]);
        }
      }
    }
  }

  /** A round that passes was drafted, handed off, decided and settled in this order. */
  lemma RoundReviewed(e: Evidence, calls: seq<Record>, review: Dict, writer: Option<Value>, director: Option<Value>)
    returns (m: Moments)
    requires RoundPasses(e, calls, review, writer, director) && Distinct(Completed(calls))
    ensures Reviewed(Completed(calls), review, m) && Documented(e, calls, review, writer, director, m)
  {
    var rows, id := Completed(calls), Get(review, "review_id");
    SelectsOne(HandoffOf(id), rows);
    SelectsOne(DecisionOf(id), rows);
    var h, d := Places(HandoffOf(id), rows)[0], Places(DecisionOf(id), rows)[0];
    PositionOf(rows, h);
    PositionOf(rows, d);
    m := DraftReviewed(rows, review, h, d);
    PublicationsSettled(calls, review, h, d, m);
  }

  /** What a round must hold besides its order in time: pinned identities and revision, the read-back of
      a draft-only approval, and the work request, tasks and messages around it. */
  ghost predicate Documented(e: Evidence, calls: seq<Record>, review: Dict, writer: Option<Value>,
      director: Option<Value>, m: Moments)
  {
    var rows := Completed(calls);
    && m.handoff < |rows| && m.decision < |rows|
    && Retained(rows, rows[m.handoff])
    && Pinned(rows[m.handoff], review, writer, director)
    && (Get(review, "status") == Text("approved") ==> ApprovedDraft(calls, rows, rows[m.decision], review))
    && WorkRequested(e, rows, review)
    && TasksFinished(e, rows[m.handoff])
    && Returned(e, rows[m.handoff], review)
  }

  lemma DraftAccepted(rows: seq<Record>, review: Dict, m: Moments)
    requires Distinct(rows) && m.handoff < |rows| && DraftedBefore(rows, review, m)
    ensures Drafted(rows, rows[m.handoff], review)
  {
    var post := Get(review, "post_id");
    var f := DraftWrites(rows, rows[m.handoff], post);
    WritesSelected(rows, m.handoff, post, m.write);
    FilterNone(f, rows);
    var last := LastSelected(f, rows);
    WritesSelected(rows, m.handoff, post, last);
    assert last == m.write;
    forall row | row in Filter(f, rows) ensures By(row, Get(review, "author_agent_id")) {
      FilterMembers(f, rows, row);
      var i :| 0 <= i < |rows| && rows[i] == row;
      WritesSelected(rows, m.handoff, post, i);
    }
  }

  lemma SettledAfter(calls: seq<Record>, review: Dict, m: Moments)
    requires var rows := Completed(calls);
      && Distinct(rows) && m.decision < |rows| && PublishedAfter(rows, review, m)
      && (Get(review, "status") == Text("approved") ==> ApprovedDraft(calls, rows, rows[m.decision], review))
    ensures Settled(calls, Completed(calls), Completed(calls)[m.decision], review)
  {
    var rows := Completed(calls);
    var f := PublicationOf(Get(review, "review_id"));
    SelectsOne(f, rows);
    FilterNone(f, rows);
    if Get(review, "status") == Text("published") {
      var p :| Only(f, rows, p) && m.decision < p && Publishes(rows[p], review);
      PositionOf(rows, p);
      PositionOf(rows, m.decision);
    }
  }

  lemma RoundAccepted(e: Evidence, calls: seq<Record>, review: Dict, writer: Option<Value>, director: Option<Value>,
      m: Moments)
    requires Distinct(Completed(calls)) && Reviewed(Completed(calls), review, m)
    requires Documented(e, calls, review, writer, director, m)
    ensures RoundPasses(e, calls, review, writer, director)
  {
    var rows, id := Completed(calls), Get(review, "review_id");
    SelectsOne(HandoffOf(id), rows);
    SelectsOne(DecisionOf(id), rows);
    PositionOf(rows, m.handoff);
    PositionOf(rows, m.decision);
    DraftAccepted(rows, review, m);
    SettledAfter(calls, review, m);
  }

  /** A round passes exactly when it was drafted, handed off, decided and settled in this order and is
      documented. */
  lemma RoundExactly(e: Evidence, calls: seq<Record>, review: Dict, writer: Option<Value>, director: Option<Value>)
    requires Distinct(Completed(calls))
    ensures RoundPasses(e, calls, review, writer, director) <==>
      exists m :: Reviewed(Completed(calls), review, m) && Documented(e, calls, review, writer, director, m)
  {
    if RoundPasses(e, calls, review, writer, director) {
      var m := RoundReviewed(e, calls, review, writer, director);
    }
    if m :| Reviewed(Completed(calls), review, m) && Documented(e, calls, review, writer, director, m) {
      RoundAccepted(e, calls, review, writer, director, m);
    }
  }
}
