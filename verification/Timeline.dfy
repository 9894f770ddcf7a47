/**
 * One ascending timeline of messages, activity chips and tool calls, and the
 * day markers that are put between its rows.
 */
module Timeline {

  import opened Basics
  import opened Sorting
  import opened Transcript

  const TRANSCRIPT_ACTIVITY_KINDS: set<string> :=
    {"started", "queued", "finished", "failed", "paused", "stopped", "needs_review"}

  const ESSENTIAL_ACTIVITY_KINDS: set<string> := {"queued", "failed", "paused", "stopped", "needs_review"}

  /* ---- candidates ---- */

  function OfMessage(m: Message): TimelineItem {
    MessageItem("message:" + m.id, m.at, m)
  }

  function OfCard(c: Card): TimelineItem {
    ActivityItem("activity:" + c.id, c.at, c)
  }

  function OfCall(c: Call): TimelineItem {
    ToolItem("tool:" + c.id, c.at, c)
  }

  predicate StartsWith(s: string, prefix: string) {
    prefix <= s
  }

  /** A chip is shown when its kind is, and it does not repeat a message of the transcript. */
  predicate ShownCard(c: Card, detailed: bool, messageIds: set<string>) {
    c.kind in TRANSCRIPT_ACTIVITY_KINDS
    && (detailed || c.kind in ESSENTIAL_ACTIVITY_KINDS)
    && !(StartsWith(c.id, "msg:") && c.id[4..] in messageIds)
  }

  function MessageIds(messages: seq<Message>): set<string> {
    set m | m in messages :: m.id
  }

  function MessageItems(messages: seq<Message>): seq<TimelineItem> {
    seq(|messages|, i requires 0 <= i < |messages| => OfMessage(messages[i]))
  }

  function CardItems(cards: seq<Card>, detailed: bool, messageIds: set<string>): seq<TimelineItem> {
    if cards == [] then []
    else
      var last := cards[|cards| - 1];
      CardItems(cards[..|cards| - 1], detailed, messageIds)
      + (if ShownCard(last, detailed, messageIds) then [OfCard(last)] else [])
  }

  function CallItems(calls: seq<Call>): seq<TimelineItem> {
    seq(|calls|, i requires 0 <= i < |calls| => OfCall(calls[i]))
  }

  function Candidates(messages: seq<Message>, cards: seq<Card>, detailed: bool, calls: seq<Call>): seq<TimelineItem> {
    MessageItems(messages) + CardItems(cards, detailed, MessageIds(messages)) + CallItems(calls)
  }

  /* ---- first occurrences ---- */

  function ItemIds(items: seq<TimelineItem>): set<string> {
    set x | x in items :: x.id
  }

  function AddNew(items: seq<TimelineItem>, x: TimelineItem): seq<TimelineItem> {
    if x.id in ItemIds(items) then items else items + [x]
  }

  /** The candidates, without those whose id came before. */
  function Firsts(xs: seq<TimelineItem>): seq<TimelineItem> {
    if xs == [] then [] else AddNew(Firsts(xs[..|xs| - 1]), xs[|xs| - 1])
  }

  function Rank(x: TimelineItem): nat {
    match x
    case MessageItem(_, _, _) => 0
    case ToolItem(_, _, _) => 1
    case ActivityItem(_, _, _) => 2
  }

  /** By time, then messages before calls before chips; the sort keeps the order of ties. */
  predicate TimeOrder(a: TimelineItem, b: TimelineItem) {
    a.at < b.at || (a.at == b.at && Rank(a) <= Rank(b))
  }

  function Merged(messages: seq<Message>, cards: seq<Card>, detailed: bool, calls: seq<Call>): seq<TimelineItem> {
    Sort(TimeOrder, Firsts(Candidates(messages, cards, detailed, calls)))
  }

  /* ---- the loops ---- */

  method AddMessages(messages: seq<Message>) returns (items: seq<TimelineItem>, seen: set<string>)
    ensures items == Firsts(MessageItems(messages)) && seen == ItemIds(items)
  {
    items, seen := [], {};
    for i := 0 to |messages|
      invariant items == Firsts(MessageItems(messages[..i])) && seen == ItemIds(items)
    {
      var x := OfMessage(messages[i]);
      assert MessageItems(messages[..i + 1]) == MessageItems(messages[..i]) + [x];
      FirstsStep(MessageItems(messages[..i]), x);
      if x.id !in seen {
        seen := seen + {x.id};
        items := items + [x];
      }
    }
    assert messages[..|messages|] == messages;
  }

  method AddCards(cards: seq<Card>, detailed: bool, messageIds: set<string>, before: seq<TimelineItem>,
      known: set<string>, ghost xs: seq<TimelineItem>) returns (items: seq<TimelineItem>, seen: set<string>)
    requires before == Firsts(xs) && known == ItemIds(before)
    ensures items == Firsts(xs + CardItems(cards, detailed, messageIds)) && seen == ItemIds(items)
  {
    items, seen := before, known;
    assert xs + CardItems(cards[..0], detailed, messageIds) == xs;
    for i := 0 to |cards|
      invariant items == Firsts(xs + CardItems(cards[..i], detailed, messageIds)) && seen == ItemIds(items)
    {
      assert cards[..i + 1][..i] == cards[..i];
      ghost var so := xs + CardItems(cards[..i], detailed, messageIds);
      if ShownCard(cards[i], detailed, messageIds) {
        var x := OfCard(cards[i]);
        assert xs + CardItems(cards[..i + 1], detailed, messageIds) == so + [x];
        FirstsStep(so, x);
        if x.id !in seen {
          seen := seen + {x.id};
          items := items + [x];
        }
      } else {
        assert xs + CardItems(cards[..i + 1], detailed, messageIds) == so;
      }
    }
    assert cards[..|cards|] == cards;
  }

  method AddCalls(calls: seq<Call>, before: seq<TimelineItem>, known: set<string>, ghost xs: seq<TimelineItem>)
      returns (items: seq<TimelineItem>)
    requires before == Firsts(xs) && known == ItemIds(before)
    ensures items == Firsts(xs + CallItems(calls))
  {
    var seen := known;
    items := before;
    assert xs + CallItems(calls[..0]) == xs;
    for i := 0 to |calls|
      invariant items == Firsts(xs + CallItems(calls[..i])) && seen == ItemIds(items)
    {
      var x := OfCall(calls[i]);
      assert xs + CallItems(calls[..i + 1]) == xs + CallItems(calls[..i]) + [x];
      FirstsStep(xs + CallItems(calls[..i]), x);
      if x.id !in seen {
        seen := seen + {x.id};
        items := items + [x];
      }
    }
    assert calls[..|calls|] == calls;
  }

  method MergeTimeline(messages: seq<Message>, cards: seq<Card>, detailed: bool, calls: seq<Call>)
      returns (r: seq<TimelineItem>)
    ensures r == Merged(messages, cards, detailed, calls)
  {
    var messageIds := MessageIds(messages);
    var items, seen := AddMessages(messages);
    items, seen := AddCards(cards, detailed, messageIds, items, seen, MessageItems(messages));
    items := AddCalls(calls, items, seen, MessageItems(messages) + CardItems(cards, detailed, messageIds));
    r := Sort(TimeOrder, items);
  }

  lemma FirstsStep(xs: seq<TimelineItem>, x: TimelineItem)
    ensures Firsts(xs + [x]) == AddNew(Firsts(xs), x)
    ensures ItemIds(Firsts(xs) + [x]) == ItemIds(Firsts(xs)) + {x.id}
  {
    assert (xs + [x])[..|xs|] == xs;
  }

  /* ---- nothing is lost, nothing comes twice ---- */

  ghost predicate UniqueItems(items: seq<TimelineItem>) {
    Once(items) && forall x, y :: x in items && y in items && x.id == y.id ==> x == y
  }

  lemma AddNewUnique(items: seq<TimelineItem>, x: TimelineItem)
    requires UniqueItems(items)
    ensures UniqueItems(AddNew(items, x))
  {
    if x.id !in ItemIds(items) {
      assert x !in items;
      forall y | y in items + [x] ensures multiset(items + [x])[y] == 1 {
      }
    }
  }

  lemma {:induction false} FirstsUnique(xs: seq<TimelineItem>)
    ensures UniqueItems(Firsts(xs))
  {
    if xs != [] {
      FirstsUnique(xs[..|xs| - 1]);
      AddNewUnique(Firsts(xs[..|xs| - 1]), xs[|xs| - 1]);
    }
  }

  lemma {:induction false} FirstsContents(xs: seq<TimelineItem>)
    ensures ItemIds(Firsts(xs)) == ItemIds(xs)
    ensures forall x :: x in Firsts(xs) ==> x in xs
  {
    if xs != [] {
      var front, x := xs[..|xs| - 1], xs[|xs| - 1];
      FirstsContents(front);
      assert xs == front + [x];
      assert ItemIds(xs) == ItemIds(front) + {x.id};
      assert ItemIds(Firsts(front) + [x]) == ItemIds(Firsts(front)) + {x.id};
    }
  }

  /** A candidate before which its id does not occur is kept. */
  lemma {:induction false} FirstIsKept(xs: seq<TimelineItem>, i: nat)
    requires i < |xs| && forall j :: 0 <= j < i ==> xs[j].id != xs[i].id
    ensures xs[i] in Firsts(xs)
    decreases |xs|
  {
    var front := xs[..|xs| - 1];
    if i < |front| {
      FirstIsKept(front, i);
    } else {
      FirstsContents(front);
      assert xs[i].id !in ItemIds(front);
    }
  }

  lemma TimeOrderTotal(s: set<TimelineItem>)
    ensures Comparable(TimeOrder, s)
  {
  }

  /** The merged timeline is sorted and shows every candidate id once. */
  lemma MergedContents(messages: seq<Message>, cards: seq<Card>, detailed: bool, calls: seq<Call>)
    ensures var all := Candidates(messages, cards, detailed, calls);
            var items := Merged(messages, cards, detailed, calls);
            Sorted(TimeOrder, items) && UniqueItems(items) && ItemIds(items) == ItemIds(all)
            && forall x :: x in items ==> x in all
  {
    var all := Candidates(messages, cards, detailed, calls);
    var firsts := Firsts(all);
    FirstsContents(all);
    FirstsUnique(all);
    TimeOrderTotal(Elements(firsts));
    SortSorted(TimeOrder, firsts);
    SortedContents(firsts, Sort(TimeOrder, firsts));
  }

  lemma SortedContents(xs: seq<TimelineItem>, ys: seq<TimelineItem>)
    requires multiset(xs) == multiset(ys) && UniqueItems(xs)
    ensures UniqueItems(ys) && ItemIds(ys) == ItemIds(xs) && forall y :: y in ys <==> y in xs
  {
    SameElements(xs, ys);
    forall y ensures y in ys <==> y in xs {
      assert y in ys <==> y in Elements(ys);
      assert y in xs <==> y in Elements(xs);
    }
  }

  /** Ids tell the kinds apart, and within a kind they tell the entries apart. */
  lemma IdsApart(a: string, b: string)
    ensures "message:" + a != "activity:" + b && "message:" + a != "tool:" + b && "activity:" + a != "tool:" + b
    ensures "message:" + a == "message:" + b ==> a == b
    ensures "tool:" + a == "tool:" + b ==> a == b
  {
    assert ("message:" + a)[0] == 'm' && ("activity:" + b)[0] == 'a' && ("tool:" + b)[0] == 't'
      && ("activity:" + a)[0] == 'a';
    assert ("message:" + a)[8..] == a && ("message:" + b)[8..] == b;
    assert ("tool:" + a)[5..] == a && ("tool:" + b)[5..] == b;
  }

  lemma {:induction false} CardItemsAreCards(cards: seq<Card>, detailed: bool, ids: set<string>)
    ensures forall x :: x in CardItems(cards, detailed, ids) ==> x.ActivityItem? && x.id == "activity:" + x.card.id
  {
    if cards != [] {
      CardItemsAreCards(cards[..|cards| - 1], detailed, ids);
    }
  }

  /** A message is in the timeline exactly when it was given, and a call likewise. */
  lemma MergedEntries(messages: seq<Message>, cards: seq<Card>, detailed: bool, calls: seq<Call>, id: string)
    ensures var items := Merged(messages, cards, detailed, calls);
            ((exists x :: x in items && x.MessageItem? && x.message.id == id) <==>
              exists m :: m in messages && m.id == id)
            && ((exists x :: x in items && x.ToolItem? && x.call.id == id) <==> exists c :: c in calls && c.id == id)
  {
    var all, items := Candidates(messages, cards, detailed, calls), Merged(messages, cards, detailed, calls);
    MergedContents(messages, cards, detailed, calls);
    CardItemsAreCards(cards, detailed, MessageIds(messages));
    CandidateKinds(messages, cards, detailed, calls);
    if m :| m in messages && m.id == id {
      var i :| 0 <= i < |messages| && messages[i] == m;
      assert MessageItems(messages)[i] == OfMessage(m) && OfMessage(m) in all;
      assert "message:" + id in ItemIds(all);
      var x :| x in items && x.id == "message:" + id;
      MessageOnly(x, id);
    }
    if c :| c in calls && c.id == id {
      var i :| 0 <= i < |calls| && calls[i] == c;
      assert CallItems(calls)[i] == OfCall(c) && OfCall(c) in all;
      assert "tool:" + id in ItemIds(all);
      var x :| x in items && x.id == "tool:" + id;
      MessageOnly(x, id);
    }
  }

  /** Each candidate carries the id of its kind and comes from its own list. */
  ghost predicate WellLabelled(x: TimelineItem) {
    match x
    case MessageItem(id, _, m) => id == "message:" + m.id
    case ActivityItem(id, _, c) => id == "activity:" + c.id
    case ToolItem(id, _, c) => id == "tool:" + c.id
  }

  lemma CandidateKinds(messages: seq<Message>, cards: seq<Card>, detailed: bool, calls: seq<Call>)
    ensures forall x :: x in Candidates(messages, cards, detailed, calls) ==>
      WellLabelled(x) && (x.MessageItem? ==> x.message in messages) && (x.ToolItem? ==> x.call in calls)
  {
    CardItemsAreCards(cards, detailed, MessageIds(messages));
  }

  lemma MessageOnly(x: TimelineItem, id: string)
    requires WellLabelled(x)
    ensures x.id == "message:" + id ==> x.MessageItem? && x.message.id == id
    ensures x.id == "tool:" + id ==> x.ToolItem? && x.call.id == id
  {
    match x
    case MessageItem(_, _, m) => IdsApart(m.id, id);
    case ActivityItem(_, _, c) => IdsApart(id, c.id); IdsApart(c.id, id);
    case ToolItem(_, _, c) => IdsApart(id, c.id); IdsApart(c.id, id);
  }

  /** A message whose id no earlier message has is shown as it was given. */
  lemma MessageShown(messages: seq<Message>, cards: seq<Card>, detailed: bool, calls: seq<Call>, i: nat)
    requires i < |messages| && forall j :: 0 <= j < i ==> messages[j].id != messages[i].id
    ensures OfMessage(messages[i]) in Merged(messages, cards, detailed, calls)
  {
    var all := Candidates(messages, cards, detailed, calls);
    forall j | 0 <= j < i ensures all[j].id != all[i].id {
      assert all[j] == OfMessage(messages[j]) && all[i] == OfMessage(messages[i]);
      IdsApart(messages[j].id, messages[i].id);
    }
    CandidateShown(messages, cards, detailed, calls, i);
  }

  /** A call whose id no earlier call has is shown as it was given. */
  lemma CallShown(messages: seq<Message>, cards: seq<Card>, detailed: bool, calls: seq<Call>, k: nat)
    requires k < |calls| && forall j :: 0 <= j < k ==> calls[j].id != calls[k].id
    ensures OfCall(calls[k]) in Merged(messages, cards, detailed, calls)
  {
    var others := MessageItems(messages) + CardItems(cards, detailed, MessageIds(messages));
    var all, i := Candidates(messages, cards, detailed, calls), |others| + k;
    CardItemsAreCards(cards, detailed, MessageIds(messages));
    assert all == others + CallItems(calls) && all[i] == OfCall(calls[k]);
    forall j | 0 <= j < i ensures all[j].id != all[i].id {
      if j < |others| {
        assert all[j] in others;
        NoCallId(all[j], calls[k].id);
      } else {
        assert all[j] == OfCall(calls[j - |others|]);
        IdsApart(calls[j - |others|].id, calls[k].id);
      }
    }
    CandidateShown(messages, cards, detailed, calls, i);
  }

  lemma NoCallId(x: TimelineItem, id: string)
    requires WellLabelled(x) && !x.ToolItem?
    ensures x.id != "tool:" + id
  {
    MessageOnly(x, id);
  }

  lemma CandidateShown(messages: seq<Message>, cards: seq<Card>, detailed: bool, calls: seq<Call>, i: nat)
    requires var all := Candidates(messages, cards, detailed, calls);
             i < |all| && forall j :: 0 <= j < i ==> all[j].id != all[i].id
    ensures Candidates(messages, cards, detailed, calls)[i] in Merged(messages, cards, detailed, calls)
  {
    var all := Candidates(messages, cards, detailed, calls);
    FirstIsKept(all, i);
    SameElements(Firsts(all), Sort(TimeOrder, Firsts(all)));
    assert all[i] in Elements(Firsts(all));
  }

  /** Items of one time and one kind keep the order in which they were given. */
  lemma TiesKeepTheirOrder(messages: seq<Message>, cards: seq<Card>, detailed: bool, calls: seq<Call>, x: TimelineItem)
    ensures forall y :: Tied(TimeOrder, x, y) <==> y.at == x.at && Rank(y) == Rank(x)
    ensures Ties(TimeOrder, x, Merged(messages, cards, detailed, calls))
         == Ties(TimeOrder, x, Firsts(Candidates(messages, cards, detailed, calls)))
  {
    var firsts := Firsts(Candidates(messages, cards, detailed, calls));
    TimeOrderTotal({x} + Elements(firsts));
    SortStable(TimeOrder, x, firsts);
  }

  /* ---- day markers ---- */

  datatype Marked<T> = Day(key: string, at: int) | Entry(row: T)

  /** The local day of a row, unless its time does not parse; the calendar is given. */
  type Calendar<!T> = T -> Option<string>

  function WithDays<T>(day: Calendar<T>, at: T -> int, rows: seq<T>): seq<Marked<T>> {
    if rows == [] then []
    else
      var row := rows[|rows| - 1];
      var before := rows[..|rows| - 1];
      WithDays(day, at, before)
      + (if day(row).Some? && day(row) != LastDay(day, before) then [Day(day(row).value, at(row))] else [])
      + [Entry(row)]
  }

  /** The day of the last row that has one. */
  function LastDay<T>(day: Calendar<T>, rows: seq<T>): Option<string> {
    if rows == [] then None
    else if day(rows[|rows| - 1]).Some? then day(rows[|rows| - 1])
    else LastDay(day, rows[..|rows| - 1])
  }

  method WithDaySeparators<T>(day: Calendar<T>, at: T -> int, rows: seq<T>) returns (result: seq<Marked<T>>)
    ensures result == WithDays(day, at, rows)
  {
    result := [];
    var lastKey: Option<string> := None;
    for i := 0 to |rows|
      invariant result == WithDays(day, at, rows[..i]) && lastKey == LastDay(day, rows[..i])
    {
      assert rows[..i + 1][..i] == rows[..i];
      var key := day(rows[i]);
      if key.Some? && key != lastKey {
        lastKey := key;
        result := result + [Day(key.value, at(rows[i]))];
      }
      result := result + [Entry(rows[i])];
    }
    assert rows[..|rows|] == rows;
  }

  function Entries<T>(marked: seq<Marked<T>>): seq<T> {
    if marked == [] then []
    else
      var last := marked[|marked| - 1];
      Entries(marked[..|marked| - 1]) + (if last.Entry? then [last.row] else [])
  }

  /** The heading a reader sees above the end of a marked list. */
  function Heading<T>(marked: seq<Marked<T>>): Option<string> {
    if marked == [] then None
    else if marked[|marked| - 1].Day? then Some(marked[|marked| - 1].key)
    else Heading(marked[..|marked| - 1])
  }

  /** Dropping the markers gives back the rows, and the heading in force is the last known day. */
  lemma {:induction false} MarkersOnlyAdd<T>(day: Calendar<T>, at: T -> int, rows: seq<T>)
    ensures Entries(WithDays(day, at, rows)) == rows
    ensures Heading(WithDays(day, at, rows)) == LastDay(day, rows)
  {
    if rows != [] {
      var row, before := rows[|rows| - 1], rows[..|rows| - 1];
      var base := WithDays(day, at, before);
      MarkersOnlyAdd(day, at, before);
      assert rows == before + [row];
      if day(row).Some? && day(row) != LastDay(day, before) {
        var marked := base + [Day(day(row).value, at(row))];
        assert marked[..|marked| - 1] == base;
        assert (marked + [Entry(row)])[..|marked|] == marked;
      } else {
        assert (base + [] + [Entry(row)])[..|base|] == base;
      }
    }
  }

  /** Every row with a known day stands under a heading of that day. */
  lemma RowUnderItsDay<T>(day: Calendar<T>, at: T -> int, rows: seq<T>, i: nat)
    requires i < |rows| && day(rows[i]).Some?
    ensures Heading(WithDays(day, at, rows[..i + 1])) == day(rows[i])
    ensures WithDays(day, at, rows[..i + 1]) <= WithDays(day, at, rows)
  {
    MarkersOnlyAdd(day, at, rows[..i + 1]);
    assert rows[..i + 1][i] == rows[i];
    DaysGrow(day, at, rows, i + 1);
  }

  lemma {:induction false} DaysGrow<T>(day: Calendar<T>, at: T -> int, rows: seq<T>, i: nat)
    requires i <= |rows|
    ensures WithDays(day, at, rows[..i]) <= WithDays(day, at, rows)
    decreases |rows|
  {
    if i < |rows| {
      DaysGrow(day, at, rows[..|rows| - 1], i);
      assert rows[..|rows| - 1][..i] == rows[..i];
    } else {
      assert rows[..i] == rows;
    }
  }
}
