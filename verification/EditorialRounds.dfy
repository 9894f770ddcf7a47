/** All rounds of an accepted editorial trace: one review each, one article, and a new draft between two hand-offs. */
module EditorialRounds {
  import opened Basics
  import opened Selection
  import opened Sorting
  import opened Editorial
  import opened EditorialRound

  /* ---- reviews by id ---- */

  /** No two reviews share an id. */
  ghost predicate UniqueReviews(reviews: seq<Dict>) {
    forall i, j :: 0 <= i < j < |reviews| ==> Get(reviews[i], "review_id") != Get(reviews[j], "review_id")
  }

  lemma {:induction false} ByIdHolds(reviews: seq<Dict>, id: Value)
    ensures |ById(reviews)| <= |reviews|
    ensures id in ById(reviews) ==> ById(reviews)[id] in reviews && Get(ById(reviews)[id], "review_id") == id
    ensures (exists i :: 0 <= i < |reviews| && Get(reviews[i], "review_id") == id) ==> id in ById(reviews)
    decreases |reviews|
  {
    if reviews != [] {
      var n := |reviews| - 1;
      ByIdHolds(reviews[..n], id);
      if i :| 0 <= i < |reviews| && Get(reviews[i], "review_id") == id {
        assert i < n ==> Get(reviews[..n][i], "review_id") == id;
      }
    }
  }

  /** As many entries as reviews means that no id comes twice. */
  lemma {:induction false} ByIdFull(reviews: seq<Dict>)
    requires |ById(reviews)| == |reviews|
    ensures UniqueReviews(reviews)
    decreases |reviews|
  {
    if reviews != [] {
      var n := |reviews| - 1;
      var id := Get(reviews[n], "review_id");
      ByIdHolds(reviews[..n], id);
      assert id !in ById(reviews[..n]);
      ByIdFull(reviews[..n]);
      forall i, j | 0 <= i < j < |reviews| ensures Get(reviews[i], "review_id") != Get(reviews[j], "review_id") {
        assert reviews[..n][i] == reviews[i];
        assert j < n ==> reviews[..n][j] == reviews[j];
      }
    }
  }

  /* ---- one round for each hand-off and each review ---- */

  function RoundId(handoff: Record): Value {
    if handoff.output.Some? then Get(handoff.output.value, "review_id") else Null
  }

  lemma RoundIs(calls: seq<Record>, reviews: seq<Dict>, k: nat)
    requires Matched(calls, reviews) && k < |reviews|
    ensures Rounds(calls, reviews)[k] in reviews
    ensures Get(Rounds(calls, reviews)[k], "review_id") == RoundId(Handoffs(calls)[k])
  {
    assert Handoffs(calls)[k] in Handoffs(calls);
    ByIdHolds(reviews, RoundId(Handoffs(calls)[k]));
  }

  /** A check that only passes rounds with one hand-off, drafted, decided and settled in order, and
      with one of the three retained statuses. */
  ghost predicate Sound(rows: seq<Record>, passes: Dict -> bool) {
    forall review :: passes(review) ==> SoundRound(rows, review)
  }

  ghost predicate SoundRound(rows: seq<Record>, review: Dict) {
    && (exists m :: Reviewed(rows, review, m))
    && Get(review, "status") != Text("approved_draft")
  }

  /** The check of a round is sound. */
  lemma RoundsAreSound(e: Evidence, calls: seq<Record>, writer: Option<Value>, director: Option<Value>)
    requires Distinct(Completed(calls))
    ensures Sound(Completed(calls), Passes(e, calls, writer, director))
  {
    forall review | RoundPasses(e, calls, review, writer, director) ensures SoundRound(Completed(calls), review) {
      var m := RoundReviewed(e, calls, review, writer, director);
    }
  }

  /** The rounds are those of the completed hand-offs, in their order. */
  ghost predicate ByHandoff(rows: seq<Record>, rounds: seq<Dict>) {
    && |Places(IsRequest, rows)| == |rounds|
    && forall k :: 0 <= k < |rounds| ==> RoundOf(rows, rounds, k)
  }

  ghost predicate RoundOf(rows: seq<Record>, rounds: seq<Dict>, k: nat)
    requires k < |rounds| == |Places(IsRequest, rows)|
  {
    Names(rows[Places(IsRequest, rows)[k]].output, "review_id", Get(rounds[k], "review_id"))
  }

  lemma RoundsByHandoff(calls: seq<Record>, reviews: seq<Dict>)
    requires Matched(calls, reviews)
    ensures ByHandoff(Completed(calls), Rounds(calls, reviews))
  {
    var rows, rounds := Completed(calls), Rounds(calls, reviews);
    FilterAt(IsRequest, rows);
    forall k | 0 <= k < |rounds| ensures RoundOf(rows, rounds, k) {
      RoundIs(calls, reviews, k);
      assert Handoffs(calls)[k] in Handoffs(calls);
    }
  }

  /** The k-th hand-off is the only one of its review. */
  lemma HandoffOfRound(rows: seq<Record>, rounds: seq<Dict>, passes: Dict -> bool, k: nat)
    requires ByHandoff(rows, rounds) && Sound(rows, passes) && k < |rounds| && passes(rounds[k])
    ensures Only(HandoffOf(Get(rounds[k], "review_id")), rows, Places(IsRequest, rows)[k])
  {
    var h := Places(IsRequest, rows)[k];
    assert RoundOf(rows, rounds, k) && At(IsRequest, rows, h);
    assert SoundRound(rows, rounds[k]);
    var m :| Reviewed(rows, rounds[k], m);
    assert At(HandoffOf(Get(rounds[k], "review_id")), rows, h);
  }

  lemma RoundsDiffer(rows: seq<Record>, rounds: seq<Dict>, passes: Dict -> bool)
    requires ByHandoff(rows, rounds) && Sound(rows, passes) && InOrder(rounds, passes)
    ensures UniqueReviews(rounds)
  {
    forall i, j | 0 <= i < j < |rounds| ensures Get(rounds[i], "review_id") != Get(rounds[j], "review_id") {
      HandoffOfRound(rows, rounds, passes, i);
      HandoffOfRound(rows, rounds, passes, j);
      PlacesIncrease(IsRequest, rows, i, j);
    }
  }

  lemma {:induction false} DistinctCount(xs: seq<Dict>)
    requires UniqueReviews(xs)
    ensures |Elements(xs)| == |xs| && Once(xs)
  {
    if xs != [] {
      var tail := xs[1..];
      DistinctCount(tail);
      assert xs == [xs[0]] + tail;
      assert xs[0] !in tail;
      assert Elements(xs) == {xs[0]} + Elements(tail);
      forall x | x in xs ensures multiset(xs)[x] == 1 {
        assert multiset(xs)[x] == multiset{xs[0]}[x] + multiset(tail)[x];
        assert x in tail ==> multiset(tail)[x] == 1;
      }
    }
  }

  lemma SubsetFull<T>(a: set<T>, b: set<T>)
    requires a <= b && |a| == |b|
    ensures a == b
  {
    assert |b - a| == 0;
  }

  lemma SameBag(xs: seq<Dict>, ys: seq<Dict>)
    requires Once(xs) && Once(ys) && Elements(xs) == Elements(ys)
    ensures multiset(xs) == multiset(ys)
  {
    forall x ensures multiset(xs)[x] == multiset(ys)[x] {
      assert x in Elements(xs) <==> x in xs;
      assert x in Elements(ys) <==> x in ys;
    }
  }

  lemma RoundsWithin(calls: seq<Record>, reviews: seq<Dict>)
    requires Matched(calls, reviews)
    ensures Elements(Rounds(calls, reviews)) <= Elements(reviews)
  {
    var rounds := Rounds(calls, reviews);
    forall x | x in Elements(rounds) ensures x in Elements(reviews) {
      var k :| 0 <= k < |rounds| && rounds[k] == x;
      RoundIs(calls, reviews, k);
    }
  }

  lemma SameReviews(rounds: seq<Dict>, reviews: seq<Dict>)
    requires UniqueReviews(rounds) && UniqueReviews(reviews) && |rounds| == |reviews|
    requires Elements(rounds) <= Elements(reviews)
    ensures multiset(rounds) == multiset(reviews)
  {
    DistinctCount(rounds);
    DistinctCount(reviews);
    SubsetFull(Elements(rounds), Elements(reviews));
    SameBag(rounds, reviews);
  }

  /** Hand-offs and reviews are in bijection: every review is the round of exactly one hand-off. */
  lemma RoundsAreReviews(calls: seq<Record>, reviews: seq<Dict>, passes: Dict -> bool)
    requires AcceptedBy(calls, reviews, passes) && Sound(Completed(calls), passes)
    ensures UniqueReviews(reviews) && multiset(Rounds(calls, reviews)) == multiset(reviews)
  {
    RoundsByHandoff(calls, reviews);
    RoundsDiffer(Completed(calls), Rounds(calls, reviews), passes);
    ByIdFull(reviews);
    RoundsWithin(calls, reviews);
    SameReviews(Rounds(calls, reviews), reviews);
  }

  /* ---- from round to round ---- */

  /** All rounds are about one post, over one connection, by one author and one publisher. */
  lemma {:induction false} ArticleStays(rounds: seq<Dict>, passes: Dict -> bool, j: nat, k: nat)
    requires InOrder(rounds, passes) && j <= k < |rounds|
    ensures SameArticle(rounds[j], rounds[k])
    decreases k - j
  {
    if j < k {
      ArticleStays(rounds, passes, j, k - 1);
      assert RevisesAt(rounds, k);
    }
  }

  /** Every round but the last asks for changes and is followed by another revision; the last one is
      approved or published. */
  lemma StatusOfRound(rows: seq<Record>, rounds: seq<Dict>, passes: Dict -> bool, k: nat)
    requires InOrder(rounds, passes) && Sound(rows, passes) && k < |rounds|
    ensures if k < |rounds| - 1 then
        && Get(rounds[k], "status") == Text("changes_requested")
        && Get(rounds[k + 1], "revision") != Get(rounds[k], "revision")
      else Get(rounds[k], "status") == Text("approved") || Get(rounds[k], "status") == Text("published")
  {
    if k < |rounds| - 1 {
      assert RevisesAt(rounds, k + 1);
    } else {
      assert passes(rounds[k]);
      assert SoundRound(rows, rounds[k]);
    }
  }

  /** The places of the events of every round. */
  ghost predicate Timed(rows: seq<Record>, rounds: seq<Dict>, moments: seq<Moments>) {
    && |moments| == |rounds|
    && forall k :: 0 <= k < |rounds| ==> ReviewedAt(rows, rounds, moments, k)
  }

  ghost predicate ReviewedAt(rows: seq<Record>, rounds: seq<Dict>, moments: seq<Moments>, k: nat)
    requires k < |rounds| == |moments|
  {
    Reviewed(rows, rounds[k], moments[k])
  }

  lemma {:induction false} AllTimed(rows: seq<Record>, rounds: seq<Dict>, passes: Dict -> bool)
      returns (moments: seq<Moments>)
    requires Sound(rows, passes) && forall k :: 0 <= k < |rounds| ==> passes(rounds[k])
    ensures Timed(rows, rounds, moments)
    decreases |rounds|
  {
    moments := [];
    if rounds != [] {
      var n := |rounds| - 1;
      var before := AllTimed(rows, rounds[..n], passes);
      assert SoundRound(rows, rounds[n]);
      var m :| Reviewed(rows, rounds[n], m);
      moments := before + [m];
      forall k | 0 <= k < |rounds| ensures ReviewedAt(rows, rounds, moments, k) {
        assert k < n ==> ReviewedAt(rows, rounds[..n], before, k);
      }
    }
  }

  /** A call of one tool is not a call of another. */
  lemma HandoffIsNoWrite(row: Record, post: Value)
    requires IsTool(row, REQUEST)
    ensures !IsDraftWrite(row, post)
  {
    forall name | name in DRAFTS ensures name != REQUEST {
      assert REQUEST[6] == 'r' && name[6] == 'd';
    }
  }

  /** The last write before one moment and the last before a later one differ, or it is one write. */
  lemma LastWrites(rows: seq<Record>, post: Value, early: nat, first: nat, late: nat, second: nat)
    requires WriteAt(rows, first, post) && first < early < late && !WriteAt(rows, early, post)
    requires WriteAt(rows, second, post) && second < late
    requires forall i :: first < i < early ==> !WriteAt(rows, i, post)
    requires forall i :: second < i < late ==> !WriteAt(rows, i, post)
    ensures first == second || early < second
  {
  }

  /** Hand-offs in order with different revisions of one post have a new draft between them. */
  lemma NewDraft(rows: seq<Record>, a: Dict, b: Dict, m: Moments, n: Moments)
    requires Reviewed(rows, a, m) && Reviewed(rows, b, n) && m.handoff < n.handoff
    requires Get(a, "post_id") == Get(b, "post_id") && Get(a, "revision") != Get(b, "revision")
    ensures m.handoff < n.write
  {
    HandoffIsNoWrite(rows[m.handoff], Get(a, "post_id"));
    LastWrites(rows, Get(a, "post_id"), m.handoff, m.write, n.handoff, n.write);
  }

  /** Moments of all rounds such that the rounds are handed off in their order, each after a new draft of
      the author's and before its only decision. */
  ghost predicate Story(rows: seq<Record>, rounds: seq<Dict>, moments: seq<Moments>) {
    && Timed(rows, rounds, moments)
    && |Places(IsRequest, rows)| == |rounds|
    && (forall k :: 0 <= k < |rounds| ==> moments[k].handoff == Places(IsRequest, rows)[k])
    && (forall k :: 0 < k < |rounds| ==> moments[k - 1].handoff < moments[k].write)
  }

  lemma HandedOff(rows: seq<Record>, rounds: seq<Dict>, passes: Dict -> bool, moments: seq<Moments>, k: nat)
    requires ByHandoff(rows, rounds) && Sound(rows, passes) && Timed(rows, rounds, moments)
    requires k < |rounds| && passes(rounds[k])
    ensures moments[k].handoff == Places(IsRequest, rows)[k]
  {
    HandoffOfRound(rows, rounds, passes, k);
    assert ReviewedAt(rows, rounds, moments, k);
  }

  lemma DraftBetween(rows: seq<Record>, rounds: seq<Dict>, passes: Dict -> bool, moments: seq<Moments>, k: nat)
    requires InOrder(rounds, passes) && Timed(rows, rounds, moments) && 0 < k < |rounds|
    requires moments[k - 1].handoff < moments[k].handoff
    ensures moments[k - 1].handoff < moments[k].write
  {
    assert ReviewedAt(rows, rounds, moments, k) && ReviewedAt(rows, rounds, moments, k - 1) && RevisesAt(rounds, k);
    NewDraft(rows, rounds[k - 1], rounds[k], moments[k - 1], moments[k]);
  }

  lemma StoryOf(rows: seq<Record>, rounds: seq<Dict>, passes: Dict -> bool) returns (moments: seq<Moments>)
    requires ByHandoff(rows, rounds) && Sound(rows, passes) && InOrder(rounds, passes)
    ensures Story(rows, rounds, moments)
  {
    moments := AllTimed(rows, rounds, passes);
    forall k | 0 <= k < |rounds| ensures moments[k].handoff == Places(IsRequest, rows)[k] {
      HandedOff(rows, rounds, passes, moments, k);
    }
    forall k | 0 < k < |rounds| ensures moments[k - 1].handoff < moments[k].write {
      PlacesIncrease(IsRequest, rows, k - 1, k);
      DraftBetween(rows, rounds, passes, moments, k);
    }
  }

  /** A publication of any of the reviews is the only one of its review, belongs to the last round and
      comes after its decision. */
  lemma OnePublication(rows: seq<Record>, rounds: seq<Dict>, passes: Dict -> bool, moments: seq<Moments>, k: nat,
      p: int)
    requires InOrder(rounds, passes) && Sound(rows, passes) && Timed(rows, rounds, moments) && k < |rounds|
    requires At(PublicationOf(Get(rounds[k], "review_id")), rows, p)
    ensures k == |rounds| - 1 && Get(rounds[k], "status") == Text("published")
    ensures moments[k].decision < p && Only(PublicationOf(Get(rounds[k], "review_id")), rows, p)
  {
    assert ReviewedAt(rows, rounds, moments, k);
    StatusOfRound(rows, rounds, passes, k);
  }

  ghost predicate OneArticle(rounds: seq<Dict>) {
    forall j, k :: 0 <= j < k < |rounds| ==> SameArticle(rounds[j], rounds[k])
  }

  /** Changes were requested in every round but the last, and the next revised it; the last was approved
      or published. */
  ghost predicate StatusStands(rounds: seq<Dict>, k: nat)
    requires k < |rounds|
  {
    if k < |rounds| - 1 then
      Get(rounds[k], "status") == Text("changes_requested")
        && Get(rounds[k + 1], "revision") != Get(rounds[k], "revision")
    else Get(rounds[k], "status") == Text("approved") || Get(rounds[k], "status") == Text("published")
  }

  /** A publication of round `k` at place `p` is the last event of the last round, and the only one. */
  ghost predicate PublishedLast(rows: seq<Record>, rounds: seq<Dict>, moments: seq<Moments>, k: nat, p: int)
    requires k < |rounds| == |moments|
  {
    At(PublicationOf(Get(rounds[k], "review_id")), rows, p) ==>
      && k == |rounds| - 1 && Get(rounds[k], "status") == Text("published")
      && moments[k].decision < p && Only(PublicationOf(Get(rounds[k], "review_id")), rows, p)
  }

  /** What an accepted trace tells of its rounds. */
  ghost predicate EditorialStory(rows: seq<Record>, rounds: seq<Dict>, moments: seq<Moments>) {
    && Story(rows, rounds, moments)
    && OneArticle(rounds)
    && (forall k: nat :: k < |rounds| ==> StatusStands(rounds, k))
    && (forall k: nat, p :: k < |rounds| ==> PublishedLast(rows, rounds, moments, k, p))
  }

  lemma WholeStory(rows: seq<Record>, rounds: seq<Dict>, passes: Dict -> bool) returns (moments: seq<Moments>)
    requires ByHandoff(rows, rounds) && Sound(rows, passes) && InOrder(rounds, passes)
    ensures EditorialStory(rows, rounds, moments)
  {
    moments := StoryOf(rows, rounds, passes);
    forall j, k | 0 <= j < k < |rounds| ensures SameArticle(rounds[j], rounds[k]) {
      ArticleStays(rounds, passes, j, k);
    }
    forall k: nat | k < |rounds| ensures StatusStands(rounds, k) {
      StatusOfRound(rows, rounds, passes, k);
    }
    forall k: nat, p | k < |rounds| ensures PublishedLast(rows, rounds, moments, k, p) {
      if At(PublicationOf(Get(rounds[k], "review_id")), rows, p) {
        OnePublication(rows, rounds, passes, moments, k, p);
      }
    }
  }

  /** An accepted trace, on rows with unique ids: hand-offs and reviews in bijection, one article, the
      rounds in their order in time with the statuses that go with it, and one publication at most. */
  lemma EditorialSound(e: Evidence, reviews: seq<Dict>, writer: Option<Value>, director: Option<Value>, le: ValueOrder,
      calls: seq<Record>) returns (moments: seq<Moments>)
    requires UniqueIds(Data("tool_call:", e.items)) && Calls(e.items, le) == Some(calls)
    requires Accepted(e, calls, reviews, writer, director)
    ensures UniqueReviews(reviews) && multiset(Rounds(calls, reviews)) == multiset(reviews)
    ensures EditorialStory(Completed(calls), Rounds(calls, reviews), moments)
  {
    CompletedDistinct(e.items, le);
    var passes := Passes(e, calls, writer, director);
    RoundsAreSound(e, calls, writer, director);
    RoundsAreReviews(calls, reviews, passes);
    RoundsByHandoff(calls, reviews);
    moments := WholeStory(Completed(calls), Rounds(calls, reviews), passes);
  }
}
