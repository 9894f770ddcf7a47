/**
 * Which messages and chips stand in one collapsed exchange, and what its row
 * shows.
 */
module ExchangeRows {
  import opened Basics
  import opened Transcript
  import opened Grouping
  import opened Parties

  lemma GroupedIs(primary: Primary, items: seq<TimelineItem>)
    ensures IsGrouping(primary, Grouped(primary, items), items)
  {
    GroupedExactly(primary, Grouped(primary, items), items);
  }

  /** What a row is, and that the item after an exchange does not continue it. */
  ghost predicate Borders(primary: Primary, rows: seq<Row>, items: seq<TimelineItem>, j: nat)
    requires j < |rows|
  {
    Expand(rows) == items && IsRow(primary, rows[j])
    && (rows[j].Exchange? && Start(rows, j + 1) < |items| ==>
          rows[j].items != [] && Starts(primary, rows[j].items[0])
          && !Continues(primary, rows[j].items, items[Start(rows, j + 1)]))
  }

  lemma GroupedBorders(primary: Primary, items: seq<TimelineItem>, rows: seq<Row>, j: nat)
    requires rows == Grouped(primary, items) && j < |rows|
    ensures Borders(primary, rows, items, j)
  {
    GroupedIs(primary, items);
    if rows[j].Exchange? && Start(rows, j + 1) < |items| {
      NextItem(primary, rows, items, j);
    }
  }

  /* ---- neighbouring messages ---- */

  /** Where a row begins in the timeline. */
  function Start(rows: seq<Row>, j: nat): nat
    requires j <= |rows|
  {
    |Expand(rows[..j])|
  }

  /** Items `i` and `i + 1` of the timeline stand in one row. */
  ghost predicate Together(rows: seq<Row>, i: nat) {
    exists j: nat :: HoldsBoth(rows, i, j)
  }

  predicate HoldsBoth(rows: seq<Row>, i: nat, j: nat) {
    j < |rows| && Start(rows, j) <= i && i + 1 < Start(rows, j + 1)
  }

  lemma ExpandOne(row: Row)
    ensures Expand([row]) == RowItems(row)
  {
    assert Expand([row][1..]) == [];
  }

  lemma RowEnds(rows: seq<Row>, j: nat)
    requires j < |rows|
    ensures Expand(rows[..j + 1]) == Expand(rows[..j]) + RowItems(rows[j])
  {
    assert rows[..j + 1] == rows[..j] + [rows[j]];
    ExpandConcat(rows[..j], [rows[j]]);
    ExpandOne(rows[j]);
  }

  lemma ExpandPrefix(rows: seq<Row>, j: nat)
    requires j <= |rows|
    ensures Expand(rows[..j]) <= Expand(rows)
  {
    assert rows == rows[..j] + rows[j..];
    ExpandConcat(rows[..j], rows[j..]);
  }

  lemma {:induction false} RowsGrow(rows: seq<Row>, j: nat, k: nat)
    requires j <= k <= |rows|
    ensures Start(rows, j) <= Start(rows, k)
    decreases k
  {
    if j < k {
      RowsGrow(rows, j, k - 1);
      RowEnds(rows, k - 1);
    }
  }

  /** The row that holds an item. */
  lemma {:induction false} RowOf(rows: seq<Row>, i: nat, n: nat) returns (j: nat)
    requires n <= |rows| && i < Start(rows, n)
    ensures j < n && Start(rows, j) <= i < Start(rows, j + 1)
  {
    if i < Start(rows, n - 1) {
      j := RowOf(rows, i, n - 1);
    } else {
      j := n - 1;
    }
  }

  /**
   * Two quiet messages in a row stand in one exchange exactly when the same two
   * parties stand on their sides, in either order.
   */
  lemma TogetherExactly(primary: Primary, items: seq<TimelineItem>, i: nat, p: Party, q: Party, x: Party, y: Party)
    requires i + 1 < |items| && Starts(primary, items[i]) && Starts(primary, items[i + 1])
    requires Sides(items[i].message, primary, p, q) && Sides(items[i + 1].message, primary, x, y)
    requires Barless(p) && Barless(q)
    ensures Together(Grouped(primary, items), i) <==> SamePair(p, q, x, y)
  {
    KeysExactly(items[i].message, items[i + 1].message, primary, p, q, x, y);
    SameRow(primary, items, Grouped(primary, items), i);
  }

  lemma GroupedRowOf(primary: Primary, items: seq<TimelineItem>, rows: seq<Row>, i: nat) returns (j: nat)
    requires rows == Grouped(primary, items) && i < |items|
    ensures j < |rows| && Start(rows, j) <= i < Start(rows, j + 1) && Expand(rows) == items
  {
    GroupedIs(primary, items);
    assert rows[..|rows|] == rows;
    j := RowOf(rows, i, |rows|);
  }

  /** Two neighbours in a row have the key of the row, and a message after an exchange has another one. */
  lemma RowKeys(primary: Primary, items: seq<TimelineItem>, rows: seq<Row>, j: nat, n: nat)
    requires rows == Grouped(primary, items) && j < |rows| && 0 < n <= |RowItems(rows[j])|
    requires Starts(primary, RowItems(rows[j])[n - 1])
    ensures var group := RowItems(rows[j]);
      HasKey(primary, group[n - 1], group[0])
      && (n < |group| && Starts(primary, group[n]) ==> HasKey(primary, group[n], group[0]))
      && (Start(rows, j + 1) < |items| && Starts(primary, items[Start(rows, j + 1)]) ==>
            !HasKey(primary, items[Start(rows, j + 1)], group[0]))
  {
    GroupedBorders(primary, items, rows, j);
    KeysOfRow(primary, RowItems(rows[j]), n);
  }

  lemma SameRow(primary: Primary, items: seq<TimelineItem>, rows: seq<Row>, i: nat)
    requires rows == Grouped(primary, items)
    requires i + 1 < |items| && Starts(primary, items[i]) && Starts(primary, items[i + 1])
    ensures Together(rows, i) <==> InfoOf(primary, items[i]).key == InfoOf(primary, items[i + 1]).key
  {
    var j := GroupedRowOf(primary, items, rows, i);
    var group, n := RowItems(rows[j]), i + 1 - Start(rows, j);
    NeighboursPlaced(rows, items, i, j);
    RowKeys(primary, items, rows, j, n);
    NeighbourFollows(primary, rows, i, j, group, n, items[i], items[i + 1]);
  }

  /** A row that begins after item `i` or ends at it does not hold both. */
  lemma NotTogether(rows: seq<Row>, i: nat, j: nat)
    requires j < |rows| && Start(rows, j) <= i && Start(rows, j + 1) == i + 1
    ensures !Together(rows, i)
  {
    if other: nat :| HoldsBoth(rows, i, other) {
      if other < j {
        RowsGrow(rows, other + 1, j);
      } else if other > j {
        RowsGrow(rows, j + 1, other);
      }
    }
  }

  /** All quiet messages of one group have its key. */
  lemma GroupKey(primary: Primary, group: seq<TimelineItem>, k: nat)
    requires IsGroup(primary, group) && k < |group| && Starts(primary, group[k])
    ensures InfoOf(primary, group[k]).key == InfoOf(primary, group[0]).key
  {
    if k > 0 {
      assert Continues(primary, group[..k], group[k]);
    }
  }

  predicate HasKey(primary: Primary, x: TimelineItem, first: TimelineItem) {
    Starts(primary, x) && Starts(primary, first) && InfoOf(primary, x).key == InfoOf(primary, first).key
  }

  /** `x` stands in a row of the timeline at the place before `n`, and `y` next to it. */
  predicate Neighbours(rows: seq<Row>, i: nat, j: nat, group: seq<TimelineItem>, n: nat, x: TimelineItem,
      y: TimelineItem)
  {
    j < |rows| && i + 1 == Start(rows, j) + n && Start(rows, j + 1) == Start(rows, j) + |group|
    && 0 < n <= |group| && group[n - 1] == x && (n < |group| ==> group[n] == y)
  }

  lemma NeighbourFollows(primary: Primary, rows: seq<Row>, i: nat, j: nat, group: seq<TimelineItem>, n: nat,
      x: TimelineItem, y: TimelineItem)
    requires Neighbours(rows, i, j, group, n, x, y) && HasKey(primary, x, group[0]) && Starts(primary, y)
    requires HasKey(primary, y, group[0]) <==> n < |group|
    ensures Together(rows, i) <==> InfoOf(primary, x).key == InfoOf(primary, y).key
  {
    if n < |group| {
      assert HoldsBoth(rows, i, j);
    } else {
      NotTogether(rows, i, j);
    }
  }

  lemma NeighboursPlaced(rows: seq<Row>, items: seq<TimelineItem>, i: nat, j: nat)
    requires j < |rows| && Expand(rows) == items && Start(rows, j) <= i < Start(rows, j + 1) && i + 1 < |items|
    ensures Neighbours(rows, i, j, RowItems(rows[j]), i + 1 - Start(rows, j), items[i], items[i + 1])
  {
    GroupAt(rows, j);
    SliceOfGroup(items, Start(rows, j), Start(rows, j + 1), i + 1, RowItems(rows[j]));
  }

  lemma KeysOfRow(primary: Primary, group: seq<TimelineItem>, n: nat)
    requires IsGroup(primary, group) && 0 < n <= |group| && Starts(primary, group[n - 1])
    ensures HasKey(primary, group[n - 1], group[0])
    ensures n < |group| && Starts(primary, group[n]) ==> HasKey(primary, group[n], group[0])
  {
    GroupKey(primary, group, n - 1);
    if n < |group| && Starts(primary, group[n]) {
      GroupKey(primary, group, n);
    }
  }

  /* ---- which chips join an exchange ---- */

  /** A side of the message is the agent with this id. */
  ghost predicate MentionsAgent(primary: Primary, x: TimelineItem, id: string) {
    x.MessageItem?
    && exists p, q :: Sides(x.message, primary, p, q) && (p.id == Some(id) || q.id == Some(id))
  }

  /** The item belongs to the task with this id. */
  predicate InTask(x: TimelineItem, id: string) {
    (x.MessageItem? && id != ""
      && (id == x.message.taskId || id == x.message.content.createdTaskId || id == x.message.content.taskId))
    || (x.ActivityItem? && x.card.taskId == Some(id))
  }

  /** The chip reports progress, and it shares an agent or a task with one of these items. */
  ghost predicate JoinsChip(primary: Primary, earlier: seq<TimelineItem>, card: Card) {
    card.kind in ["started", "queued", "finished", "failed"]
    && exists x, id :: x in earlier && Shares(primary, x, card, id)
  }

  ghost predicate Shares(primary: Primary, x: TimelineItem, card: Card, id: string) {
    (MentionsAgent(primary, x, id) && (card.actorAgentId == Some(id) || card.targetAgentId == Some(id)))
    || (InTask(x, id) && card.taskId == Some(id))
  }

  /** The items of an exchange: quiet messages and chips. */
  ghost predicate QuietOnly(primary: Primary, items: seq<TimelineItem>) {
    forall x :: x in items ==> !x.ToolItem? && (x.MessageItem? ==> Starts(primary, x))
  }

  lemma MentionsExactly(primary: Primary, x: TimelineItem, id: string)
    requires Starts(primary, x)
    ensures id in InfoOf(primary, x).ids <==> MentionsAgent(primary, x, id)
    ensures id in InfoOf(primary, x).taskIds <==> InTask(x, id)
  {
    var p, q := SidesExist(x.message, primary);
    SidesExactly(x.message, primary, p, q);
    forall r, s | Sides(x.message, primary, r, s)
      ensures id in InfoOf(primary, x).ids <==> r.id == Some(id) || s.id == Some(id)
    {
      SidesExactly(x.message, primary, r, s);
    }
  }

  lemma NamesInGroup(primary: Primary, items: seq<TimelineItem>, id: string)
    requires QuietOnly(primary, items)
    ensures id in PartyIds(primary, items) <==> exists x :: x in items && MentionsAgent(primary, x, id)
    ensures id in TaskIds(primary, items) <==> exists x :: x in items && InTask(x, id)
  {
    forall x | x in items
      ensures Starts(primary, x) && id in InfoOf(primary, x).ids <==> MentionsAgent(primary, x, id)
      ensures id in ItemTasks(primary, x) <==> InTask(x, id)
    {
      if Starts(primary, x) {
        MentionsExactly(primary, x, id);
      }
    }
  }

  lemma SharedAgent(primary: Primary, items: seq<TimelineItem>, card: Card, id: string)
    requires QuietOnly(primary, items) && (card.actorAgentId == Some(id) || card.targetAgentId == Some(id))
    ensures id in PartyIds(primary, items) <==> exists x :: x in items && MentionsAgent(primary, x, id)
    ensures id in PartyIds(primary, items) ==> exists x :: x in items && Shares(primary, x, card, id)
  {
    NamesInGroup(primary, items, id);
    if id in PartyIds(primary, items) {
      var x :| x in items && MentionsAgent(primary, x, id);
      assert Shares(primary, x, card, id);
    }
  }

  lemma SharedTask(primary: Primary, items: seq<TimelineItem>, card: Card, id: string)
    requires QuietOnly(primary, items) && card.taskId == Some(id)
    ensures id in TaskIds(primary, items) <==> exists x :: x in items && InTask(x, id)
    ensures id in TaskIds(primary, items) ==> exists x :: x in items && Shares(primary, x, card, id)
  {
    NamesInGroup(primary, items, id);
    if id in TaskIds(primary, items) {
      var x :| x in items && InTask(x, id);
      assert Shares(primary, x, card, id);
    }
  }

  lemma LinkedExactly(primary: Primary, items: seq<TimelineItem>, card: Card)
    requires QuietOnly(primary, items)
    ensures Linked(card, PartyIds(primary, items), TaskIds(primary, items)) <==> JoinsChip(primary, items, card)
  {
    if x, id :| x in items && Shares(primary, x, card, id) {
      NamesInGroup(primary, items, id);
    }
    if card.actorAgentId.Some? {
      SharedAgent(primary, items, card, card.actorAgentId.value);
    }
    if card.targetAgentId.Some? {
      SharedAgent(primary, items, card, card.targetAgentId.value);
    }
    if card.taskId.Some? {
      SharedTask(primary, items, card, card.taskId.value);
    }
  }

  /** A chip right after an item of an exchange joins it exactly when it shares an agent or a task with the
      items of the exchange up to there. */
  lemma ChipTogether(primary: Primary, items: seq<TimelineItem>, rows: seq<Row>, j: nat, i: nat)
    requires rows == Grouped(primary, items) && j < |rows| && rows[j].Exchange?
    requires Start(rows, j) <= i < Start(rows, j + 1) && i + 1 < |items| && items[i + 1].ActivityItem?
    ensures Together(rows, i) <==> JoinsChip(primary, items[Start(rows, j)..i + 1], items[i + 1].card)
  {
    GroupedBorders(primary, items, rows, j);
    ChipInRow(primary, rows, items, j, i);
  }

  lemma GroupIsQuiet(primary: Primary, group: seq<TimelineItem>, n: nat)
    requires IsGroup(primary, group) && n <= |group|
    ensures QuietOnly(primary, group[..n])
  {
    forall x | x in group[..n] ensures !x.ToolItem? && (x.MessageItem? ==> Starts(primary, x)) {
      var k :| 0 <= k < n && group[k] == x;
      if k > 0 {
        assert Continues(primary, group[..k], group[k]);
      }
    }
  }

  lemma ChipContinues(primary: Primary, group: seq<TimelineItem>, n: nat, chip: TimelineItem)
    requires IsGroup(primary, group) && 0 < n <= |group| && chip.ActivityItem?
    ensures group[..n] != [] && Starts(primary, group[..n][0])
    ensures Continues(primary, group[..n], chip) <==> JoinsChip(primary, group[..n], chip.card)
  {
    GroupIsQuiet(primary, group, n);
    LinkedExactly(primary, group[..n], chip.card);
    assert group[..n][0] == group[0];
  }

  /** The next item stands in the same exchange exactly when it continues what the exchange holds up to there. */
  lemma TogetherIsContinuing(primary: Primary, rows: seq<Row>, i: nat, j: nat, group: seq<TimelineItem>, n: nat,
      next: TimelineItem)
    requires j < |rows| && i + 1 == Start(rows, j) + n && Start(rows, j + 1) == Start(rows, j) + |group|
    requires IsGroup(primary, group) && 0 < n <= |group|
    requires if n < |group| then group[n] == next else !Continues(primary, group, next)
    ensures Starts(primary, group[..n][0])
    ensures Together(rows, i) <==> Continues(primary, group[..n], next)
  {
    if n < |group| {
      GoesOn(primary, group, n);
      assert HoldsBoth(rows, i, j);
    } else {
      NotTogether(rows, i, j);
      assert group[..n] == group;
    }
  }

  lemma ChipInRow(primary: Primary, rows: seq<Row>, items: seq<TimelineItem>, j: nat, i: nat)
    requires j < |rows| && rows[j].Exchange? && Borders(primary, rows, items, j)
    requires Start(rows, j) <= i < Start(rows, j + 1) && i + 1 < |items| && items[i + 1].ActivityItem?
    ensures Together(rows, i) <==> JoinsChip(primary, items[Start(rows, j)..i + 1], items[i + 1].card)
  {
    var start := Start(rows, j);
    var n, group := i + 1 - start, RowItems(rows[j]);
    GroupAt(rows, j);
    SliceOfGroup(items, start, Start(rows, j + 1), i + 1, group);
    ChipFollows(primary, rows, i, j, group, n, items[i + 1]);
  }

  lemma ChipFollows(primary: Primary, rows: seq<Row>, i: nat, j: nat, group: seq<TimelineItem>, n: nat,
      chip: TimelineItem)
    requires j < |rows| && i + 1 == Start(rows, j) + n && Start(rows, j + 1) == Start(rows, j) + |group|
    requires IsGroup(primary, group) && 0 < n <= |group| && chip.ActivityItem?
    requires if n < |group| then group[n] == chip else !Continues(primary, group, chip)
    ensures Together(rows, i) <==> JoinsChip(primary, group[..n], chip.card)
  {
    TogetherIsContinuing(primary, rows, i, j, group, n, chip);
    ChipContinues(primary, group, n, chip);
  }

  lemma SliceOfGroup(items: seq<TimelineItem>, start: nat, end: nat, i: nat, group: seq<TimelineItem>)
    requires start <= i <= end <= |items| && i < |items| && group == items[start..end]
    ensures items[start..i] == group[..i - start] && (i < end ==> group[i - start] == items[i])
  {
  }

  /** The items of a row, where they stand in the timeline. */
  lemma GroupAt(rows: seq<Row>, j: nat)
    requires j < |rows|
    ensures Start(rows, j + 1) == Start(rows, j) + |RowItems(rows[j])| <= |Expand(rows)|
    ensures RowItems(rows[j]) == Expand(rows)[Start(rows, j)..Start(rows, j + 1)]
  {
    RowEnds(rows, j);
    ExpandPrefix(rows, j + 1);
  }

  lemma GoesOn(primary: Primary, group: seq<TimelineItem>, n: nat)
    requires IsGroup(primary, group) && 0 < n < |group|
    ensures Starts(primary, group[..n][0]) && Continues(primary, group[..n], group[n])
  {
    assert group[..n][0] == group[0];
  }

  /** The item after an exchange does not continue it. */
  lemma NextItem(primary: Primary, rows: seq<Row>, items: seq<TimelineItem>, j: nat)
    requires IsGrouping(primary, rows, items) && j < |rows| && rows[j].Exchange?
    requires Start(rows, j + 1) < |items|
    ensures rows[j].items != [] && Starts(primary, rows[j].items[0])
    ensures !Continues(primary, rows[j].items, items[Start(rows, j + 1)])
  {
    assert IsRow(primary, rows[j]);
    assert rows[..|rows|] == rows;
    assert j + 1 < |rows|;
    RowEnds(rows, j + 1);
    ExpandPrefix(rows, j + 1 + 1);
    RowNotEmpty(primary, rows, j + 1);
    assert Closed(primary, rows[j], rows[j + 1]);
    assert RowItems(rows[j + 1])[0] == items[Start(rows, j + 1)];
  }

  /* ---- what a collapsed row shows ---- */

  /** A failed chip, or a message that escalates or failed. */
  predicate HasProblem(last: TimelineItem) {
    (last.ActivityItem? && last.card.kind == "failed") || (last.ToolItem? && last.call.status == "failed")
    || (last.MessageItem? && (last.message.messageType == "escalation" || last.message.content.status == "failed"))
  }

  /** A review that finds fault. */
  predicate FindsFault(last: TimelineItem) {
    last.MessageItem? && last.message.messageType == "review_result"
    && last.message.content.verdict in ["fail", "changes_requested", "escalate", "escalated"]
  }

  function Ended(last: TimelineItem): Verdict {
    if HasProblem(last) then Problem else if FindsFault(last) then NeedsReview else Ok
  }

  lemma OutcomeExactly(last: TimelineItem)
    ensures OutcomeOf(last) == Ended(last)
  {
  }

  lemma RowShows(row: Row, items: seq<TimelineItem>, across: Party)
    requires items != [] && row == ExchangeRow(items, across)
    ensures row.id == "exchange:" + items[0].id && row.at == items[0].at && row.count == |items|
    ensures row.outcome == Ended(items[|items| - 1]) && row.withAgentId == across.id
    ensures row.withName == if across.name == "" then "another agent" else across.name
  {
    OutcomeExactly(items[|items| - 1]);
  }

  lemma RowOfGroup(primary: Primary, rows: seq<Row>, items: seq<TimelineItem>, row: Row)
    requires IsGrouping(primary, rows, items) && row in rows && row.Exchange?
    ensures row.items != [] && Starts(primary, row.items[0])
    ensures row == ExchangeRow(row.items, InfoOf(primary, row.items[0]).other)
  {
    var i :| 0 <= i < |rows| && rows[i] == row;
    assert IsRow(primary, rows[i]);
  }

  /** The party across from the agent the person talks to. */
  function Across(primary: Primary, sender: Party, other: Party): Party {
    if TalksToPerson(other, primary) && !TalksToPerson(sender, primary) then sender else other
  }

  lemma InfoShows(primary: Primary, x: TimelineItem, sender: Party, other: Party)
    requires Starts(primary, x) && Sides(x.message, primary, sender, other)
    ensures InfoOf(primary, x).other == Across(primary, sender, other)
  {
    SidesExactly(x.message, primary, sender, other);
  }

  /**
   * An exchange begins at its first message, counts its items, ends with the
   * outcome of the last one, and is shown with the party across from the agent
   * the person talks to.
   */
  lemma ExchangeShows(primary: Primary, items: seq<TimelineItem>, row: Row, sender: Party, other: Party)
    requires row in Grouped(primary, items) && row.Exchange?
    requires row.items != [] && row.items[0].MessageItem? && Sides(row.items[0].message, primary, sender, other)
    ensures row.id == "exchange:" + row.items[0].id && row.at == row.items[0].at && row.count == |row.items|
    ensures row.outcome == Ended(row.items[|row.items| - 1])
    ensures var across := Across(primary, sender, other);
      row.withAgentId == across.id && row.withName == if across.name == "" then "another agent" else across.name
  {
    GroupedIs(primary, items);
    RowOfGroup(primary, Grouped(primary, items), items, row);
    InfoShows(primary, row.items[0], sender, other);
    RowShows(row, row.items, Across(primary, sender, other));
  }
}
