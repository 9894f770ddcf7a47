/** What a reader of the timeline sees: which chips, in which order, and under which day markers. */
module TimelineShows {
  import opened Basics
  import opened Sorting
  import opened Transcript
  import opened Timeline

  /* ---- chips ---- */

  /** A chip of a kind for the transcript, an essential one unless details are shown, and no copy of a message. */
  ghost predicate ChipWanted(c: Card, detailed: bool, messages: seq<Message>) {
    c.kind in ["started", "queued", "finished", "failed", "paused", "stopped", "needs_review"]
    && (c.kind in ["started", "finished"] ==> detailed)
    && forall m :: m in messages ==> c.id != "msg:" + m.id
  }

  lemma ChipExactly(c: Card, detailed: bool, messages: seq<Message>)
    ensures ShownCard(c, detailed, MessageIds(messages)) <==> ChipWanted(c, detailed, messages)
  {
    KindsExactly(c.kind);
    CopyExactly(c.id, messages);
  }

  lemma KindsExactly(kind: string)
    ensures kind in TRANSCRIPT_ACTIVITY_KINDS <==>
      kind in ["started", "queued", "finished", "failed", "paused", "stopped", "needs_review"]
    ensures kind in TRANSCRIPT_ACTIVITY_KINDS ==>
      (kind in ESSENTIAL_ACTIVITY_KINDS <==> kind !in ["started", "finished"])
  {
    assert "started"[0] == 's' && "started"[2] == 'a' && "stopped"[2] == 'o';
    assert "finished"[0] == 'f' && "finished"[1] == 'i' && "failed"[1] == 'a';
    assert "queued"[0] == 'q' && "paused"[0] == 'p' && "needs_review"[0] == 'n';
  }

  lemma CopyExactly(id: string, messages: seq<Message>)
    ensures StartsWith(id, "msg:") && id[4..] in MessageIds(messages) <==>
      exists m :: m in messages && id == "msg:" + m.id
  {
    if StartsWith(id, "msg:") && id[4..] in MessageIds(messages) {
      var m :| m in messages && m.id == id[4..];
      assert id == "msg:" + m.id;
    }
    if m :| m in messages && id == "msg:" + m.id {
      assert id[4..] == m.id;
    }
  }

  lemma {:induction false} CardItemsExactly(cards: seq<Card>, detailed: bool, messages: seq<Message>, x: TimelineItem)
    ensures x in CardItems(cards, detailed, MessageIds(messages)) <==>
      exists c :: c in cards && ChipWanted(c, detailed, messages) && x == ActivityItem("activity:" + c.id, c.at, c)
    decreases |cards|
  {
    if cards != [] {
      var front, last := cards[..|cards| - 1], cards[|cards| - 1];
      CardItemsExactly(front, detailed, messages, x);
      ChipExactly(last, detailed, messages);
      assert cards == front + [last];
    }
  }

  lemma WantedAreCandidates(messages: seq<Message>, cards: seq<Card>, detailed: bool, calls: seq<Call>, x: TimelineItem)
    requires x.ActivityItem?
    ensures x in Candidates(messages, cards, detailed, calls) <==>
      x.card in cards && ChipWanted(x.card, detailed, messages)
      && x == ActivityItem("activity:" + x.card.id, x.card.at, x.card)
  {
    CardItemsExactly(cards, detailed, messages, x);
  }

  /** Only wanted chips are shown. */
  lemma ChipsAreWanted(messages: seq<Message>, cards: seq<Card>, detailed: bool, calls: seq<Call>, x: TimelineItem)
    requires x in Merged(messages, cards, detailed, calls) && x.ActivityItem?
    ensures x.card in cards && ChipWanted(x.card, detailed, messages)
    ensures x.id == "activity:" + x.card.id && x.at == x.card.at
  {
    MergedContents(messages, cards, detailed, calls);
    WantedAreCandidates(messages, cards, detailed, calls, x);
  }

  /** For every wanted chip one with its id is shown. */
  lemma WantedChipShown(messages: seq<Message>, cards: seq<Card>, detailed: bool, calls: seq<Call>, c: Card)
    requires c in cards && ChipWanted(c, detailed, messages)
    ensures exists x :: x in Merged(messages, cards, detailed, calls) && x.ActivityItem? && x.card.id == c.id
  {
    var all, items := Candidates(messages, cards, detailed, calls), Merged(messages, cards, detailed, calls);
    var wanted := ActivityItem("activity:" + c.id, c.at, c);
    MergedContents(messages, cards, detailed, calls);
    CandidateKinds(messages, cards, detailed, calls);
    WantedAreCandidates(messages, cards, detailed, calls, wanted);
    assert wanted.id in ItemIds(all);
    var x :| x in items && x.id == wanted.id;
    ChipOnly(x, c.id);
  }

  ghost predicate ShowsChip(items: seq<TimelineItem>, id: string) {
    exists x :: x in items && x.ActivityItem? && x.card.id == id
  }

  /** A chip is shown exactly when one with its id is wanted. */
  lemma ChipsExactly(messages: seq<Message>, cards: seq<Card>, detailed: bool, calls: seq<Call>, id: string)
    ensures ShowsChip(Merged(messages, cards, detailed, calls), id) <==>
      exists c :: c in cards && ChipWanted(c, detailed, messages) && c.id == id
  {
    if c :| c in cards && ChipWanted(c, detailed, messages) && c.id == id {
      WantedChipShown(messages, cards, detailed, calls, c);
    }
    if x :| x in Merged(messages, cards, detailed, calls) && x.ActivityItem? && x.card.id == id {
      ChipsAreWanted(messages, cards, detailed, calls, x);
    }
  }

  lemma ChipOnly(x: TimelineItem, id: string)
    requires WellLabelled(x) && x.id == "activity:" + id
    ensures x.ActivityItem? && x.card.id == id
  {
    match x
    case MessageItem(_, _, m) => IdsApart(m.id, id);
    case ActivityItem(_, _, c) => assert ("activity:" + c.id)[9..] == c.id && ("activity:" + id)[9..] == id;
    case ToolItem(_, _, c) => IdsApart(id, c.id);
  }

  /* ---- order ---- */

  /** Earlier items come first, and at one time messages before calls and calls before chips. */
  lemma OrderExactly(messages: seq<Message>, cards: seq<Card>, detailed: bool, calls: seq<Call>, i: nat, j: nat)
    requires i < j < |Merged(messages, cards, detailed, calls)|
    ensures var a, b := Merged(messages, cards, detailed, calls)[i], Merged(messages, cards, detailed, calls)[j];
      a.at < b.at
      || (a.at == b.at && (a.ActivityItem? ==> b.ActivityItem?) && (a.ToolItem? ==> !b.MessageItem?))
  {
    MergedContents(messages, cards, detailed, calls);
    SortedPair(TimeOrder, Merged(messages, cards, detailed, calls), i, j);
  }

  /* ---- day markers ---- */

  /** The marker at place `p` stands right above a row of its day, and the last dated row above is of another. */
  ghost predicate MarksChange<T(!new)>(day: Calendar<T>, at: T -> int, marked: seq<Marked<T>>, p: nat) {
    p < |marked| && marked[p].Day?
    && p + 1 < |marked| && marked[p + 1].Entry?
    && day(marked[p + 1].row) == Some(marked[p].key) && marked[p].at == at(marked[p + 1].row)
    && forall q :: 0 <= q < p && LastDated(day, marked, p, q) ==> day(marked[q].row) != Some(marked[p].key)
  }

  /** The last entry before `p` that has a day stands at `q`. */
  ghost predicate LastDated<T(!new)>(day: Calendar<T>, marked: seq<Marked<T>>, p: nat, q: int)
    requires p <= |marked|
  {
    DatedAt(day, marked, q) && q < p && forall k :: q < k < p ==> !DatedAt(day, marked, k)
  }

  predicate DatedAt<T(!new)>(day: Calendar<T>, marked: seq<Marked<T>>, q: int) {
    0 <= q < |marked| && marked[q].Entry? && day(marked[q].row).Some?
  }

  lemma {:induction false} LastDatedDay<T(!new)>(day: Calendar<T>, at: T -> int, rows: seq<T>, q: int)
    requires LastDated(day, WithDays(day, at, rows), |WithDays(day, at, rows)|, q)
    ensures WithDays(day, at, rows)[q].Entry? && day(WithDays(day, at, rows)[q].row) == LastDay(day, rows)
    decreases |rows|
  {
    if rows != [] {
      var n := |rows| - 1;
      var marked, before := WithDays(day, at, rows), WithDays(day, at, rows[..n]);
      assert marked[|marked| - 1] == Entry(rows[n]);
      if day(rows[n]).Some? {
        assert DatedAt(day, marked, |marked| - 1);
      } else {
        assert marked == before + [Entry(rows[n])];
        forall k ensures DatedAt(day, before, k) <==> DatedAt(day, marked, k) && k < |before| {
        }
        assert LastDated(day, before, |before|, q);
        LastDatedDay(day, at, rows[..n], q);
      }
    }
  }

  /** Markers stand only where the day changes. */
  lemma {:induction false} MarkersMarkChanges<T(!new)>(day: Calendar<T>, at: T -> int, rows: seq<T>, p: nat)
    requires p < |WithDays(day, at, rows)| && WithDays(day, at, rows)[p].Day?
    ensures MarksChange(day, at, WithDays(day, at, rows), p)
    decreases |rows|
  {
    var n := |rows| - 1;
    var marked, before := WithDays(day, at, rows), WithDays(day, at, rows[..n]);
    forall k: int | k < |before| ensures DatedAt(day, before, k) <==> DatedAt(day, marked, k) {
      assert 0 <= k ==> marked[k] == before[k];
    }
    if p < |before| {
      assert before[p] == marked[p];
      MarkersMarkChanges(day, at, rows[..n], p);
      forall q | 0 <= q < p && LastDated(day, marked, p, q) ensures day(marked[q].row) != Some(marked[p].key) {
        assert LastDated(day, before, p, q);
      }
    } else {
      assert p == |before| && marked == before + [marked[p]] + [Entry(rows[n])];
      forall q | 0 <= q < p && LastDated(day, marked, p, q) ensures day(marked[q].row) != Some(marked[p].key) {
        assert LastDated(day, before, p, q);
        LastDatedDay(day, at, rows[..n], q);
      }
    }
  }
}
