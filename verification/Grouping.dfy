/**
 * Collapsing quiet exchanges: one pass with an open group, and the partition
 * of the timeline that it computes, which is the only one of its kind.
 */
module Grouping {

  import opened Basics
  import opened Transcript

  /* ---- the declarative partition ---- */

  /** A message of a quiet exchange; only such a message begins one. */
  predicate Starts(primary: Primary, x: TimelineItem) {
    x.MessageItem? && ExchangeInfo(x.message, primary).Some?
  }

  function InfoOf(primary: Primary, x: TimelineItem): Info
    requires Starts(primary, x)
  {
    ExchangeInfo(x.message, primary).value
  }

  /** The agents named by the messages of a group, and the tasks its items belong to. */
  function PartyIds(primary: Primary, items: seq<TimelineItem>): set<string> {
    set x, id | x in items && Starts(primary, x) && id in InfoOf(primary, x).ids :: id
  }

  function ItemTasks(primary: Primary, x: TimelineItem): seq<string> {
    if Starts(primary, x) then InfoOf(primary, x).taskIds
    else if x.ActivityItem? && x.card.taskId.Some? then [x.card.taskId.value]
    else []
  }

  function TaskIds(primary: Primary, items: seq<TimelineItem>): set<string> {
    set x, id | x in items && id in ItemTasks(primary, x) :: id
  }

  predicate MatchesAny(id: Option<string>, ids: set<string>) {
    id.Some? && id.value in ids
  }

  predicate Linked(card: Card, partyIds: set<string>, taskIds: set<string>) {
    card.kind in EXCHANGE_ACTIVITY_KINDS
    && (MatchesAny(card.actorAgentId, partyIds) || MatchesAny(card.targetAgentId, partyIds)
      || MatchesAny(card.taskId, taskIds))
  }

  /** `x` continues the group made of `earlier`. */
  predicate Continues(primary: Primary, earlier: seq<TimelineItem>, x: TimelineItem)
    requires earlier != [] && Starts(primary, earlier[0])
  {
    match x
    case ToolItem(_, _, _) => false
    case MessageItem(_, _, _) => Starts(primary, x) && InfoOf(primary, x).key == InfoOf(primary, earlier[0]).key
    case ActivityItem(_, _, card) => Linked(card, PartyIds(primary, earlier), TaskIds(primary, earlier))
  }

  /** A group begins with a quiet message and each later item continues the ones before it. */
  ghost predicate IsGroup(primary: Primary, items: seq<TimelineItem>) {
    items != [] && Starts(primary, items[0])
    && forall k :: 0 < k < |items| ==> Continues(primary, items[..k], items[k])
  }

  ghost predicate IsRow(primary: Primary, row: Row) {
    match row
    case Single(item) => !Starts(primary, item)
    case Exchange(_, _, items, _, _, _, _) =>
      IsGroup(primary, items) && row == ExchangeRow(items, InfoOf(primary, items[0]).other)
  }

  /** The item after an exchange does not continue it. */
  ghost predicate Closed(primary: Primary, row: Row, next: Row)
    requires IsRow(primary, row)
  {
    row.Exchange? ==> RowItems(next) != [] && !Continues(primary, row.items, RowItems(next)[0])
  }

  ghost predicate Rows(primary: Primary, rows: seq<Row>) {
    (forall i :: 0 <= i < |rows| ==> IsRow(primary, rows[i]))
    && forall i :: 0 <= i < |rows| - 1 ==> Closed(primary, rows[i], rows[i + 1])
  }

  /** A partition of `items` into rows whose exchanges are as long as they can be. */
  ghost predicate IsGrouping(primary: Primary, rows: seq<Row>, items: seq<TimelineItem>) {
    Rows(primary, rows) && Expand(rows) == items
  }

  /* ---- the pass ---- */

  datatype Group = Group(key: string, items: seq<TimelineItem>, partyIds: set<string>, taskIds: set<string>,
    other: Party)

  datatype State = State(result: seq<Row>, open: Option<Group>)

  predicate ValidState(st: State) {
    st.open.Some? ==> st.open.value.items != []
  }

  function Flush(st: State): seq<Row>
    requires ValidState(st)
  {
    if st.open.None? then st.result else st.result + [ExchangeRow(st.open.value.items, st.open.value.other)]
  }

  function Opened(info: Info, x: TimelineItem): Group {
    Group(info.key, [x], Elements(info.ids), Elements(info.taskIds), info.other)
  }

  function Joined(g: Group, x: TimelineItem, ids: seq<string>, taskIds: seq<string>): Group {
    g.(items := g.items + [x], partyIds := g.partyIds + Elements(ids), taskIds := g.taskIds + Elements(taskIds))
  }

  function Advance(primary: Primary, st: State, x: TimelineItem): (next: State)
    requires ValidState(st)
    ensures ValidState(next)
  {
    match x
    case ToolItem(_, _, _) => State(Flush(st) + [Single(x)], None)
    case MessageItem(_, _, m) =>
      (match ExchangeInfo(m, primary)
       case None => State(Flush(st) + [Single(x)], None)
       case Some(info) =>
         if st.open.Some? && st.open.value.key == info.key
         then st.(open := Some(Joined(st.open.value, x, info.ids, info.taskIds)))
         else State(Flush(st), Some(Opened(info, x))))
    case ActivityItem(_, _, card) =>
      if st.open.Some? && Linked(card, st.open.value.partyIds, st.open.value.taskIds)
      then st.(open := Some(Joined(st.open.value, x, [], if card.taskId.Some? then [card.taskId.value] else [])))
      else State(Flush(st) + [Single(x)], None)
  }

  function Pass(primary: Primary, items: seq<TimelineItem>): (st: State)
    ensures ValidState(st)
  {
    if items == [] then State([], None)
    else Advance(primary, Pass(primary, items[..|items| - 1]), items[|items| - 1])
  }

  function Grouped(primary: Primary, items: seq<TimelineItem>): seq<Row> {
    Flush(Pass(primary, items))
  }

  /** The loop, with its open group as local state. */
  method GroupExchanges(primary: Primary, items: seq<TimelineItem>) returns (rows: seq<Row>)
    ensures rows == Grouped(primary, items)
  {
    var result: seq<Row> := [];
    var open: Option<Group> := None;
    for i := 0 to |items|
      invariant State(result, open) == Pass(primary, items[..i])
    {
      var x := items[i];
      assert items[..i + 1][..i] == items[..i];
      var st := State(result, open);
      match x {
        case ToolItem(_, _, _) =>
          result, open := Flush(st) + [Single(x)], None;
        case MessageItem(_, _, m) =>
          var info := ExchangeInfo(m, primary);
          if info.None? {
            result, open := Flush(st) + [Single(x)], None;
          } else if open.Some? && open.value.key == info.value.key {
            open := Some(Joined(open.value, x, info.value.ids, info.value.taskIds));
          } else {
            result, open := Flush(st), Some(Opened(info.value, x));
          }
        case ActivityItem(_, _, card) =>
          if open.Some? && Linked(card, open.value.partyIds, open.value.taskIds) {
            open := Some(Joined(open.value, x, [], if card.taskId.Some? then [card.taskId.value] else []));
          } else {
            result, open := Flush(st) + [Single(x)], None;
          }
      }
    }
    assert items[..|items|] == items;
    rows := Flush(State(result, open));
  }

  /* ---- what the pass keeps ---- */

  ghost predicate Tracks(primary: Primary, g: Group) {
    IsGroup(primary, g.items)
    && g.key == InfoOf(primary, g.items[0]).key && g.other == InfoOf(primary, g.items[0]).other
    && g.partyIds == PartyIds(primary, g.items) && g.taskIds == TaskIds(primary, g.items)
  }

  /** The state after a prefix: finished rows, and an open group that stands for the last one. */
  ghost predicate Sound(primary: Primary, st: State, items: seq<TimelineItem>) {
    ValidState(st) && (st.open.Some? ==> Tracks(primary, st.open.value))
    && IsGrouping(primary, Flush(st), items)
    && (st.open.None? ==> st.result == [] || st.result[|st.result| - 1].Single?)
  }

  lemma TracksOpened(primary: Primary, x: TimelineItem)
    requires Starts(primary, x)
    ensures Tracks(primary, Opened(InfoOf(primary, x), x))
  {
    assert PartyIds(primary, [x]) == Elements(InfoOf(primary, x).ids);
    assert ItemTasks(primary, x) == InfoOf(primary, x).taskIds;
    assert forall y :: y in [x] <==> y == x;
    assert TaskIds(primary, [x]) == Elements(InfoOf(primary, x).taskIds);
  }

  lemma GroupGrows(primary: Primary, items: seq<TimelineItem>, x: TimelineItem)
    requires IsGroup(primary, items) && Continues(primary, items, x)
    ensures IsGroup(primary, items + [x])
  {
    forall k | 0 < k < |items + [x]| ensures Continues(primary, (items + [x])[..k], (items + [x])[k]) {
      if k < |items| {
        assert (items + [x])[..k] == items[..k];
      } else {
        assert (items + [x])[..k] == items;
      }
    }
  }

  lemma IdsGrow(primary: Primary, items: seq<TimelineItem>, x: TimelineItem)
    ensures PartyIds(primary, items + [x])
         == PartyIds(primary, items) + (if Starts(primary, x) then Elements(InfoOf(primary, x).ids) else {})
    ensures TaskIds(primary, items + [x]) == TaskIds(primary, items) + Elements(ItemTasks(primary, x))
  {
    assert forall y :: y in items + [x] <==> y in items || y == x;
  }

  /** Appending a row keeps the rows and their order. */
  lemma RowsAppend(primary: Primary, rows: seq<Row>, row: Row, items: seq<TimelineItem>)
    requires IsGrouping(primary, rows, items) && IsRow(primary, row)
    requires rows != [] ==> Closed(primary, rows[|rows| - 1], row)
    ensures IsGrouping(primary, rows + [row], items + RowItems(row))
  {
    ExpandConcat(rows, [row]);
    assert Expand([row]) == RowItems(row);
  }

  /** What stands before the open group, and how it borders on it. */
  lemma BeforeOpen(primary: Primary, st: State, items: seq<TimelineItem>)
    requires Sound(primary, st, items) && st.open.Some?
    ensures IsGrouping(primary, st.result, Expand(st.result))
    ensures items == Expand(st.result) + st.open.value.items
    ensures st.result != [] && st.result[|st.result| - 1].Exchange? ==>
      !Continues(primary, st.result[|st.result| - 1].items, st.open.value.items[0])
  {
    var rows, row := Flush(st), ExchangeRow(st.open.value.items, st.open.value.other);
    assert rows == st.result + [row];
    forall i | 0 <= i < |st.result| ensures IsRow(primary, st.result[i]) {
      assert rows[i] == st.result[i];
    }
    forall i | 0 <= i < |st.result| - 1 ensures Closed(primary, st.result[i], st.result[i + 1]) {
      assert Closed(primary, rows[i], rows[i + 1]);
    }
    if st.result != [] {
      assert Closed(primary, rows[|st.result| - 1], rows[|st.result|]);
    }
    ExpandConcat(st.result, [row]);
    assert Expand([row]) == RowItems(row);
  }

  lemma TracksJoined(primary: Primary, g: Group, x: TimelineItem, ids: seq<string>, tasks: seq<string>)
    requires Tracks(primary, g) && Continues(primary, g.items, x)
    requires ids == (if Starts(primary, x) then InfoOf(primary, x).ids else []) && tasks == ItemTasks(primary, x)
    ensures Tracks(primary, Joined(g, x, ids, tasks))
  {
    GroupGrows(primary, g.items, x);
    IdsGrow(primary, g.items, x);
    assert (g.items + [x])[0] == g.items[0];
  }

  /** The open group as a row after the finished rows. */
  lemma OpenRow(primary: Primary, st: State, g: Group)
    requires Tracks(primary, g) && IsGrouping(primary, st.result, Expand(st.result))
    requires st.result != [] && st.result[|st.result| - 1].Exchange? ==>
      !Continues(primary, st.result[|st.result| - 1].items, g.items[0])
    ensures Sound(primary, st.(open := Some(g)), Expand(st.result) + g.items)
  {
    var row := ExchangeRow(g.items, g.other);
    assert IsRow(primary, row);
    RowsAppend(primary, st.result, row, Expand(st.result));
  }

  /** Growing the open group grows only the last row. */
  lemma SoundJoined(primary: Primary, st: State, items: seq<TimelineItem>, x: TimelineItem, ids: seq<string>,
      tasks: seq<string>)
    requires Sound(primary, st, items) && st.open.Some?
    requires Continues(primary, st.open.value.items, x)
    requires ids == (if Starts(primary, x) then InfoOf(primary, x).ids else []) && tasks == ItemTasks(primary, x)
    ensures Sound(primary, st.(open := Some(Joined(st.open.value, x, ids, tasks))), items + [x])
  {
    var g := Joined(st.open.value, x, ids, tasks);
    TracksJoined(primary, st.open.value, x, ids, tasks);
    BeforeOpen(primary, st, items);
    OpenRow(primary, st, g);
    AppendLast(items, Expand(st.result), st.open.value.items, x);
  }

  lemma AppendLast(items: seq<TimelineItem>, a: seq<TimelineItem>, b: seq<TimelineItem>, x: TimelineItem)
    requires items == a + b
    ensures items + [x] == a + (b + [x])
  {
  }

  /** Opening a group, or adding a single row, appends to the flushed rows. */
  lemma SoundAppended(primary: Primary, st: State, items: seq<TimelineItem>, x: TimelineItem)
    requires Sound(primary, st, items)
    requires st.open.Some? ==> !Continues(primary, st.open.value.items, x)
    ensures !Starts(primary, x) ==> Sound(primary, State(Flush(st) + [Single(x)], None), items + [x])
    ensures Starts(primary, x) ==> Sound(primary, State(Flush(st), Some(Opened(InfoOf(primary, x), x))), items + [x])
  {
    var rows := Flush(st);
    var row := if Starts(primary, x) then ExchangeRow([x], InfoOf(primary, x).other) else Single(x);
    if Starts(primary, x) {
      TracksOpened(primary, x);
    }
    assert IsRow(primary, row) && RowItems(row)[0] == x;
    assert rows != [] ==> Closed(primary, rows[|rows| - 1], row);
    RowsAppend(primary, rows, row, items);
  }

  lemma SoundAdvance(primary: Primary, st: State, items: seq<TimelineItem>, x: TimelineItem)
    requires Sound(primary, st, items)
    ensures Sound(primary, Advance(primary, st, x), items + [x])
  {
    if st.open.Some? && Continues(primary, st.open.value.items, x) {
      if Starts(primary, x) {
        SoundJoined(primary, st, items, x, InfoOf(primary, x).ids, InfoOf(primary, x).taskIds);
      } else {
        SoundJoined(primary, st, items, x, [], ItemTasks(primary, x));
      }
    } else {
      SoundAppended(primary, st, items, x);
    }
  }

  lemma {:induction false} PassSound(primary: Primary, items: seq<TimelineItem>)
    ensures Sound(primary, Pass(primary, items), items)
  {
    if items != [] {
      var front, x := items[..|items| - 1], items[|items| - 1];
      PassSound(primary, front);
      SoundAdvance(primary, Pass(primary, front), front, x);
      LastSplit(items);
    }
  }

  lemma LastSplit(items: seq<TimelineItem>)
    requires items != []
    ensures items == items[..|items| - 1] + [items[|items| - 1]]
  {
  }

  /* ---- the partition is unique ---- */

  /** The first row of a partition is determined by the items. */
  lemma FirstRow(primary: Primary, a: seq<Row>, b: seq<Row>)
    requires Rows(primary, a) && Rows(primary, b) && Expand(a) == Expand(b) && a != []
    ensures b != [] && a[0] == b[0]
  {
    RowNotEmpty(primary, a, 0);
    assert Expand(a) != [];
    RowNotEmpty(primary, b, 0);
    var xs, ys := RowItems(a[0]), RowItems(b[0]);
    assert xs[0] == Expand(a)[0] == Expand(b)[0] == ys[0];
    if a[0].Exchange? {
      LongestGroup(primary, a, b);
      LongestGroup(primary, b, a);
      assert xs == Expand(a)[..|xs|] && ys == Expand(b)[..|ys|];
    }
  }

  lemma RowNotEmpty(primary: Primary, rows: seq<Row>, i: nat)
    requires Rows(primary, rows) && i < |rows|
    ensures RowItems(rows[i]) != []
  {
    assert IsRow(primary, rows[i]);
  }

  /** Where one partition ends an exchange, no other goes on with it. */
  lemma LongestGroup(primary: Primary, a: seq<Row>, b: seq<Row>)
    requires Rows(primary, a) && Rows(primary, b) && Expand(a) == Expand(b) && a != [] && b != []
    requires a[0].Exchange? && b[0].Exchange?
    ensures |RowItems(b[0])| <= |RowItems(a[0])|
  {
    var xs, ys := RowItems(a[0]), RowItems(b[0]);
    var n := |xs|;
    if n < |ys| {
      assert IsRow(primary, b[0]) && Continues(primary, ys[..n], ys[n]);
      assert Expand(b)[..n] == ys[..n] && Expand(b)[n] == ys[n];
      NextDoesNotContinue(primary, a);
    }
  }

  lemma NextDoesNotContinue(primary: Primary, a: seq<Row>)
    requires Rows(primary, a) && a != [] && a[0].Exchange? && |Expand(a)| > |a[0].items|
    ensures Expand(a)[..|a[0].items|] == a[0].items
    ensures !Continues(primary, a[0].items, Expand(a)[|a[0].items|])
  {
    var xs := a[0].items;
    assert Expand(a) == xs + Expand(a[1..]);
    assert |a| > 1;
    RowNotEmpty(primary, a, 1);
    assert Closed(primary, a[0], a[0 + 1]);
    assert Expand(a[1..]) == RowItems(a[1]) + Expand(a[1..][1..]);
  }

  lemma RowsTail(primary: Primary, rows: seq<Row>)
    requires Rows(primary, rows) && rows != []
    ensures Rows(primary, rows[1..])
  {
    forall i | 0 <= i < |rows[1..]| - 1 ensures Closed(primary, rows[1..][i], rows[1..][i + 1]) {
      assert Closed(primary, rows[i + 1], rows[i + 1 + 1]);
    }
  }

  lemma {:induction false} GroupingUnique(primary: Primary, a: seq<Row>, b: seq<Row>)
    requires Rows(primary, a) && Rows(primary, b) && Expand(a) == Expand(b)
    ensures a == b
    decreases |a|
  {
    if a == [] {
      if b != [] {
        RowNotEmpty(primary, b, 0);
      }
    } else {
      FirstRow(primary, a, b);
      RowsTail(primary, a);
      RowsTail(primary, b);
      var first := RowItems(a[0]);
      assert Expand(a) == first + Expand(a[1..]) && Expand(b) == first + Expand(b[1..]);
      assert Expand(a)[|first|..] == Expand(a[1..]) && Expand(b)[|first|..] == Expand(b[1..]);
      GroupingUnique(primary, a[1..], b[1..]);
      assert a == [a[0]] + a[1..] && b == [b[0]] + b[1..];
    }
  }

  /** The pass computes the one partition of the timeline into maximal exchanges. */
  lemma GroupedExactly(primary: Primary, rows: seq<Row>, items: seq<TimelineItem>)
    ensures IsGrouping(primary, rows, items) <==> rows == Grouped(primary, items)
  {
    PassSound(primary, items);
    if IsGrouping(primary, rows, items) {
      GroupingUnique(primary, rows, Grouped(primary, items));
    }
  }

  /* ---- what a reader of the rows may rely on ---- */

  /** A chip in a group shares an agent or a task with what came before it there. */
  ghost predicate ChipIsLinked(primary: Primary, items: seq<TimelineItem>, k: int)
    requires 0 <= k < |items|
  {
    items[k].ActivityItem? ==> Linked(items[k].card, PartyIds(primary, items[..k]), TaskIds(primary, items[..k]))
  }

  /** Exchanges hold only quiet messages of one pair, and chips linked to earlier items. */
  lemma ExchangeContents(primary: Primary, items: seq<TimelineItem>, i: nat, k: nat)
    requires i < |Grouped(primary, items)| && Grouped(primary, items)[i].Exchange?
    requires k < |Grouped(primary, items)[i].items|
    ensures var row := Grouped(primary, items)[i];
            Starts(primary, row.items[0]) && row.items[0].message.senderType == "agent"
            && !row.items[k].ToolItem?
            && (row.items[k].MessageItem? ==>
                  Starts(primary, row.items[k])
                  && InfoOf(primary, row.items[k]).key == InfoOf(primary, row.items[0]).key
                  && !IsUserQuestion(row.items[k].message) && !IsMemorySaved(row.items[k].message))
            && ChipIsLinked(primary, row.items, k) && row.count == |row.items|
  {
    PassSound(primary, items);
    var row := Grouped(primary, items)[i];
    assert IsRow(primary, row);
    QuietTraffic(row.items[0].message, primary);
    if k > 0 {
      assert Continues(primary, row.items[..k], row.items[k]);
      assert row.items[..k][0] == row.items[0];
    }
    if row.items[k].MessageItem? {
      QuietTraffic(row.items[k].message, primary);
    }
  }

  /** Two exchanges in a row are between different pairs. */
  lemma AdjacentExchangesDiffer(primary: Primary, items: seq<TimelineItem>, i: nat)
    requires i + 1 < |Grouped(primary, items)|
    requires Grouped(primary, items)[i].Exchange? && Grouped(primary, items)[i + 1].Exchange?
    ensures Grouped(primary, items)[i].items != [] && Grouped(primary, items)[i + 1].items != []
    ensures var x, y := Grouped(primary, items)[i].items[0], Grouped(primary, items)[i + 1].items[0];
            Starts(primary, x) && Starts(primary, y) && InfoOf(primary, x).key != InfoOf(primary, y).key
  {
    PassSound(primary, items);
    var rows := Grouped(primary, items);
    assert IsRow(primary, rows[i]) && IsRow(primary, rows[i + 1]) && Closed(primary, rows[i], rows[i + 1]);
  }

  lemma {:induction false} ResultGrows(primary: Primary, items: seq<TimelineItem>, more: seq<TimelineItem>)
    ensures Pass(primary, items).result <= Pass(primary, items + more).result
    decreases |more|
  {
    if more == [] {
      assert items + more == items;
    } else {
      var front := more[..|more| - 1];
      ResultGrows(primary, items, front);
      assert (items + more)[..|items + more| - 1] == items + front;
      var st := Pass(primary, items + front);
      assert st.result <= Flush(st);
      assert st.result <= Pass(primary, items + more).result;
    }
  }

  /** Appending items leaves every row but the last as it was. */
  lemma OnlyTheLastRowChanges(primary: Primary, items: seq<TimelineItem>, more: seq<TimelineItem>)
    ensures var rows := Grouped(primary, items);
            rows == [] || rows[..|rows| - 1] <= Grouped(primary, items + more)
  {
    ResultGrows(primary, items, more);
    var st := Pass(primary, items);
    var rows := Grouped(primary, items);
    if rows != [] {
      assert rows[..|rows| - 1] <= st.result;
      assert Pass(primary, items + more).result <= Grouped(primary, items + more);
    }
  }
}
