/** The rows of the transcript that are no timeline items, the turns that are pending, and the order of all rows. */
module ProjectionRows {
  import opened Basics
  import opened Selection
  import opened Sorting
  import opened Transcript
  import opened Grouping
  import T = Timeline
  import opened Drafts
  import opened Projection
  import opened ProjectionConserves

  /* ---- drafts, sessions and files ---- */

  /** A terminal or a preview that was not removed. */
  predicate IsSession(e: Entry) {
    "runtime_session:" <= e.id && (e.data.kind == "terminal" || e.data.kind == "preview") && e.status != "removed"
  }

  /** How often each row beside the timeline is to be shown: as often as it is given, and only in an agentic chat. */
  ghost function Given(le: TextOrder, input: Input, r: ShownRow): nat {
    if !input.agentic then 0
    else
      match r
      case TimelineRow(_) => 0
      case RuntimeRow(id, at, e) => if id == e.id && at == e.at && IsSession(e) then multiset(input.journal)[e] else 0
      case GenerationRow(id, at, e) =>
        if id == e.id && at == e.at
        then multiset(PublicGenerations(le, input.journal, ServerMessages(input), input.primary.id))[e] else 0
      case FileRow(id, at, f) =>
        if id == "file:" + f.id && at == f.at && f.kind == "artifact" then multiset(input.files)[f] else 0
  }

  lemma {:induction false} FilterCount<V>(f: V -> bool, xs: seq<V>, x: V)
    ensures multiset(Filter(f, xs))[x] == if f(x) then multiset(xs)[x] else 0
    decreases |xs|
  {
    if xs != [] {
      FilterCount(f, xs[1..], x);
      assert xs == [xs[0]] + xs[1..];
    }
  }

  lemma {:induction false} MapCount<V, W>(f: V -> W, xs: seq<V>, x: V)
    requires forall y :: y in xs && f(y) == f(x) ==> y == x
    ensures multiset(Mapped(f, xs))[f(x)] == multiset(xs)[x]
    decreases |xs|
  {
    if xs != [] {
      MapCount(f, xs[1..], x);
      assert xs == [xs[0]] + xs[1..];
      assert Mapped(f, xs) == [f(xs[0])] + Mapped(f, xs[1..]);
    }
  }

  lemma NotMapped<V, W>(f: V -> W, xs: seq<V>, w: W)
    requires forall y :: y in xs ==> f(y) != w
    ensures multiset(Mapped(f, xs))[w] == 0
  {
    assert w !in Mapped(f, xs);
  }

  lemma CountOf(drafts: seq<Entry>, sessions: seq<Entry>, artifacts: seq<File>, r: ShownRow)
    ensures multiset(Mapped(Draft, drafts) + Mapped(Session, sessions) + Mapped(Artifact, artifacts))[r] ==
      match r
      case TimelineRow(_) => 0
      case GenerationRow(_, _, e) => if r == Draft(e) then multiset(drafts)[e] else 0
      case RuntimeRow(_, _, e) => if r == Session(e) then multiset(sessions)[e] else 0
      case FileRow(_, _, f) => if r == Artifact(f) then multiset(artifacts)[f] else 0
  {
    match r {
      case GenerationRow(_, _, e) =>
        NotMapped(Session, sessions, r);
        NotMapped(Artifact, artifacts, r);
        if r == Draft(e) { MapCount(Draft, drafts, e); } else { NotMapped(Draft, drafts, r); }
      case RuntimeRow(_, _, e) =>
        NotMapped(Draft, drafts, r);
        NotMapped(Artifact, artifacts, r);
        if r == Session(e) { MapCount(Session, sessions, e); } else { NotMapped(Session, sessions, r); }
      case FileRow(_, _, f) =>
        NotMapped(Draft, drafts, r);
        NotMapped(Session, sessions, r);
        if r == Artifact(f) { MapCount(Artifact, artifacts, f); } else { NotMapped(Artifact, artifacts, r); }
      case TimelineRow(_) =>
        NotMapped(Draft, drafts, r);
        NotMapped(Session, sessions, r);
        NotMapped(Artifact, artifacts, r);
    }
  }

  lemma ExtrasCount(le: TextOrder, input: Input, r: ShownRow)
    ensures multiset(Extras(le, input))[r] == Given(le, input, r)
  {
    if input.agentic {
      CountOf(PublicGenerations(le, input.journal, ServerMessages(input), input.primary.id),
              Filter(IsRuntime, input.journal), Filter(IsArtifact, input.files), r);
      match r {
        case RuntimeRow(_, _, e) => FilterCount(IsRuntime, input.journal, e);
        case FileRow(_, _, f) => FilterCount(IsArtifact, input.files, f);
        case _ =>
      }
    }
  }

  /** Among the rows shown stand each public draft, each session and each artifact, as often as given, and no other. */
  lemma ExtrasExactly(le: TextOrder, day: T.Calendar<ShownRow>, input: Input, r: ShownRow)
    requires TotalOrder(le) && !r.TimelineRow?
    ensures multiset(T.Entries(Projected(le, day, input)))[r] == Given(le, input, r)
  {
    RowsConserveTimeline(le, day, input);
    ExtrasCount(le, input, r);
    var rows := Wrap(Grouped(input.primary, TimelineOf(input)));
    assert r !in rows;
    assert multiset(rows + Extras(le, input))[r] == multiset(rows)[r] + multiset(Extras(le, input))[r];
  }

  /* ---- the order of all rows ---- */

  /** Where a row stands: the time and the id of what it shows. */
  predicate Stands(r: ShownRow, at: int, id: string) {
    match r
    case TimelineRow(Single(item)) => at == item.at && id == item.id
    case TimelineRow(row) => at == row.at && id == row.id
    case _ => at == r.at && id == r.id
  }

  lemma StandsExactly(r: ShownRow, at: int, id: string)
    ensures Stands(r, at, id) <==> RowAt(r) == at && RowId(r) == id
  {
  }

  lemma StandsBefore(le: TextOrder, a: ShownRow, b: ShownRow, at: int, id: string, later: int, other: string)
    requires RowOrder(le)(a, b) && Stands(a, at, id) && Stands(b, later, other)
    ensures at < later || (at == later && le(id, other))
  {
    StandsExactly(a, at, id);
    StandsExactly(b, later, other);
  }

  /** Rows stand in the order of their times, and at one time in that of their ids. */
  lemma RowsInOrder(le: TextOrder, day: T.Calendar<ShownRow>, input: Input, rows: seq<ShownRow>, i: nat, j: nat,
      at: int, id: string, later: int, other: string)
    requires TotalOrder(le) && rows == T.Entries(Projected(le, day, input))
    requires i < j < |rows| && Stands(rows[i], at, id) && Stands(rows[j], later, other)
    ensures at < later || (at == later && le(id, other))
  {
    RowsConserveTimeline(le, day, input);
    SortedPair(RowOrder(le), rows, i, j);
    StandsBefore(le, rows[i], rows[j], at, id, later, other);
  }

  /* ---- pending turns ---- */

  predicate IsOf(s: Message, turn: string) {
    s.content.clientTurnId == Some(turn) || (s.content.clientTurnId == None && s.id == turn)
  }

  /** The server knows the turn: a message of it carries the turn id, or has it for its own id. */
  ghost predicate Known(server: seq<Message>, turn: string) {
    exists s :: s in server && IsOf(s, turn)
  }

  /** A turn is pending as long as the server does not know it; one without an id is looked up as "undefined". */
  lemma PendingExactly(input: Input, m: Message)
    ensures m in Pending(input) <==>
      m in input.optimistic
      && !Known(ServerMessages(input),
                if m.content.clientTurnId == None then "undefined" else m.content.clientTurnId.value)
  {
    var server := ServerMessages(input);
    FilterMembers(IsPending(server), input.optimistic, m);
    if s :| s in server && TurnKey(s) == PendingKey(m) {
      assert IsOf(s, PendingKey(m));
      assert Known(server, PendingKey(m));
    }
  }

  /** In a chat that is not agentic only calls of the command line are shown. */
  lemma CallsShown(input: Input, id: string)
    ensures ShowsCall(TimelineOf(input), id) <==>
      exists c :: c in ServerCalls(input) && c.id == id && (input.agentic || "cli." <= c.toolName)
  {
    TimelineShows(input, id);
    assert forall c :: PassesFilter(input.agentic)(c) <==> input.agentic || "cli." <= c.toolName;
  }
}
