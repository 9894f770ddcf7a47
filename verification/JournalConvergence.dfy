/** Convergence of the journal: clients that have seen the same items show the same list. */
module JournalConvergence {

  // Whatever batches arrive, in whatever order and however often. A client also shows
  // what plain overwriting in sequence order leaves, when no id ends below its highest
  // revision.

  import opened Basics
  import opened Sorting
  import opened Journal

  /** (id, revision, sequence) determines an item. */
  ghost predicate Coherent(s: set<Item>) {
    forall x, y :: x in s && y in s && x.id == y.id && x.revision == y.revision && x.sequence == y.sequence ==> x == y
  }

  ghost function Ids(s: set<Item>): set<string> {
    set x | x in s :: x.id
  }

  /** For every id in `s`, one of its items that no item in `s` is newer than. */
  ghost predicate NewestOf(m: Latest, s: set<Item>) {
    && m.Keys == Ids(s)
    && (forall id :: id in m ==> m[id] in s && m[id].id == id)
    && forall x :: x in s ==> !Newer(x, m[x.id])
  }

  lemma NewestUnique(m: Latest, n: Latest, s: set<Item>)
    requires Coherent(s) && NewestOf(m, s) && NewestOf(n, s)
    ensures m == n
  {
    forall id | id in m ensures m[id] == n[id] {
      assert !Newer(n[id], m[id]) && !Newer(m[id], n[id]);
    }
  }

  lemma AbsorbOneNewest(m: Latest, s: set<Item>, item: Item)
    requires NewestOf(m, s)
    ensures NewestOf(AbsorbOne(m, item), s + {item})
  {
    var n := AbsorbOne(m, item);
    assert Ids(s + {item}) == Ids(s) + {item.id};
    forall x | x in s + {item} ensures x.id in n && !Newer(x, n[x.id]) {
      if x in s {
        assert x.id in Ids(s);
        assert !Newer(x, m[x.id]);
      }
    }
  }

  lemma {:induction false} AbsorbNewest(m: Latest, s: set<Item>, items: seq<Item>)
    requires NewestOf(m, s)
    ensures NewestOf(Absorb(m, items), s + Elements(items))
  {
    if items == [] {
      assert s + Elements(items) == s;
    } else {
      var front, last := items[..|items| - 1], items[|items| - 1];
      AbsorbNewest(m, s, front);
      AbsorbOneNewest(Absorb(m, front), s + Elements(front), last);
      assert items == front + [last];
      assert s + Elements(items) == s + Elements(front) + {last};
    }
  }

  lemma {:induction false} IndexNewest(items: seq<Item>)
    requires UniqueIds(items)
    ensures NewestOf(Index(items), Elements(items))
  {
    if items != [] {
      var front, last := items[..|items| - 1], items[|items| - 1];
      assert items == front + [last];
      assert multiset(items) == multiset(front) + multiset{last};
      assert multiset(items)[last] == 1 && last !in multiset(front);
      assert forall x :: x in front ==> x in items && multiset(items)[x] == 1;
      IndexNewest(front);
      forall x | x in front ensures x.id != last.id {
        assert x in items && last in items;
      }
      assert last.id !in Ids(Elements(front));
      assert Elements(items) == Elements(front) + {last};
      AbsorbOneNewest(Index(front), Elements(front), last);
    }
  }

  /** The list a merge returns; `Shows` leaves no choice. */
  ghost predicate Merges(le: TextOrder, current: seq<Item>, incoming: seq<Item>, list: seq<Item>) {
    Shows(le, list, Absorb(Index(current), incoming))
  }

  lemma ShownUnique(le: TextOrder, a: seq<Item>, b: seq<Item>, m: Latest)
    requires TotalOrder(le) && Shows(le, a, m) && Shows(le, b, m)
    ensures a == b
  {
    forall x ensures multiset(a)[x] == multiset(b)[x] {
      assert x in a <==> x in Elements(a);
      assert x in b <==> x in Elements(b);
    }
    BeforeNoTies(le, a);
    SortedUnique(Before(le), a, b);
  }

  /** What a merge shows: the newest item of every id among the two lists. */
  lemma MergeShowsNewest(le: TextOrder, current: seq<Item>, incoming: seq<Item>, list: seq<Item>) returns (m: Latest)
    requires UniqueIds(current) && Merges(le, current, incoming, list)
    ensures NewestOf(m, Elements(current) + Elements(incoming)) && Shows(le, list, m)
  {
    m := Absorb(Index(current), incoming);
    IndexNewest(current);
    AbsorbNewest(Index(current), Elements(current), incoming);
  }

  /** The same, after a list that already shows the newest items of `s`. */
  lemma MergeAfterNewest(le: TextOrder, list: seq<Item>, before: Latest, s: set<Item>, incoming: seq<Item>,
      next: seq<Item>)
      returns (m: Latest)
    requires NewestOf(before, s) && Shows(le, list, before) && Merges(le, list, incoming, next)
    ensures NewestOf(m, s + Elements(incoming)) && Shows(le, next, m)
  {
    m := Absorb(before, incoming);
    ShownNewest(le, list, before, s);
    AbsorbNewest(before, s, incoming);
  }

  /** What is newest, and how it is shown, leaves no choice. */
  lemma ShownOnce(le: TextOrder, m: Latest, n: Latest, s: set<Item>, x: seq<Item>, y: seq<Item>)
    requires TotalOrder(le) && Coherent(s) && NewestOf(m, s) && NewestOf(n, s) && Shows(le, x, m) && Shows(le, y, n)
    ensures x == y
  {
    NewestUnique(m, n, s);
    ShownUnique(le, x, y, m);
  }

  /** A list that shows the newest items of `s` may stand for all of `s` in a later merge. */
  lemma ShownNewest(le: TextOrder, list: seq<Item>, m: Latest, s: set<Item>)
    requires NewestOf(m, s) && Shows(le, list, m)
    ensures Index(list) == m
  {
    IndexNewest(list);
    forall id ensures id in m <==> id in Index(list) {
      if id in m {
        assert m[id] in m.Values;
        assert m[id] in Elements(list);
        assert id in Ids(Elements(list));
      }
      if id in Index(list) {
        assert Index(list)[id] in Elements(list);
        assert Index(list)[id] in m.Values;
        var k :| k in m && m[k] == Index(list)[id];
      }
    }
    forall id | id in m ensures Index(list)[id] == m[id] {
      assert Index(list)[id] in Elements(list);
      assert Index(list)[id] in m.Values;
      var k :| k in m && m[k] == Index(list)[id];
      assert m[k].id == k;
    }
  }

  /* ---- a client's whole run ---- */

  /** The states a client goes through: it starts from nothing and merges one batch after another. */
  ghost predicate Run(le: TextOrder, batches: seq<seq<Item>>, states: seq<seq<Item>>) {
    |states| == |batches| + 1 && states[0] == []
    && forall i :: 0 <= i < |batches| ==> Merges(le, states[i], batches[i], states[i + 1])
  }

  ghost function Seen(batches: seq<seq<Item>>): set<Item> {
    set b, x | b in batches && x in b :: x
  }

  lemma {:induction false} RunShowsNewest(le: TextOrder, batches: seq<seq<Item>>, states: seq<seq<Item>>)
      returns (m: Latest)
    requires Run(le, batches, states)
    ensures NewestOf(m, Seen(batches)) && Shows(le, states[|batches|], m)
    decreases |batches|
  {
    if batches == [] {
      m := map[];
      assert Elements<Item>([]) == {};
    } else {
      var n := |batches| - 1;
      var front := batches[..n];
      assert Run(le, front, states[..n + 1]) by {
        forall i | 0 <= i < n ensures Merges(le, states[..n + 1][i], front[i], states[..n + 1][i + 1]) {
          assert Merges(le, states[i], batches[i], states[i + 1]);
        }
      }
      var before := RunShowsNewest(le, front, states[..n + 1]);
      assert Merges(le, states[n], batches[n], states[n + 1]);
      m := MergeAfterNewest(le, states[n], before, Seen(front), batches[n], states[n + 1]);
      SeenStep(batches, n);
    }
  }

  lemma SeenStep(batches: seq<seq<Item>>, n: nat)
    requires |batches| == n + 1
    ensures Seen(batches) == Seen(batches[..n]) + Elements(batches[n])
  {
    assert batches == batches[..n] + [batches[n]];
  }

  /** Two clients that have seen the same items show the same list, however the items came. */
  lemma Convergence(le: TextOrder, xs: seq<seq<Item>>, ys: seq<seq<Item>>, us: seq<seq<Item>>, vs: seq<seq<Item>>)
    requires TotalOrder(le) && Run(le, xs, us) && Run(le, ys, vs)
    requires Seen(xs) == Seen(ys) && Coherent(Seen(xs))
    ensures us[|xs|] == vs[|ys|]
  {
    var m := RunShowsNewest(le, xs, us);
    var n := RunShowsNewest(le, ys, vs);
    ShownOnce(le, m, n, Seen(xs), us[|xs|], vs[|ys|]);
  }

  /* ---- a join ---- */

  lemma UnionLaws(a: set<Item>, b: set<Item>, c: set<Item>)
    ensures a + (b + c) == a + b + c && b + a == a + b && a + b + b == a + b
  {
  }

  /** Merging the same items again changes nothing. */
  lemma MergeIdempotent(le: TextOrder, a: seq<Item>, b: seq<Item>, once: seq<Item>, twice: seq<Item>)
    requires TotalOrder(le) && UniqueIds(a) && Coherent(Elements(a) + Elements(b))
    requires Merges(le, a, b, once) && Merges(le, once, b, twice)
    ensures twice == once
  {
    var s := Elements(a) + Elements(b);
    var m := MergeShowsNewest(le, a, b, once);
    var n := MergeAfterNewest(le, once, m, s, b, twice);
    UnionLaws(Elements(a), Elements(b), {});
    ShownOnce(le, n, m, s, twice, once);
  }

  lemma MergeCommutative(le: TextOrder, a: seq<Item>, b: seq<Item>, ab: seq<Item>, ba: seq<Item>)
    requires TotalOrder(le) && UniqueIds(a) && UniqueIds(b) && Coherent(Elements(a) + Elements(b))
    requires Merges(le, a, b, ab) && Merges(le, b, a, ba)
    ensures ab == ba
  {
    var m := MergeShowsNewest(le, a, b, ab);
    var n := MergeShowsNewest(le, b, a, ba);
    UnionLaws(Elements(a), Elements(b), {});
    ShownOnce(le, m, n, Elements(a) + Elements(b), ab, ba);
  }

  lemma MergeAssociative(le: TextOrder, a: seq<Item>, b: seq<Item>, c: seq<Item>,
                         ab: seq<Item>, bc: seq<Item>, left: seq<Item>, right: seq<Item>)
    requires TotalOrder(le) && UniqueIds(a) && UniqueIds(b) && Coherent(Elements(a) + Elements(b) + Elements(c))
    requires Merges(le, a, b, ab) && Merges(le, ab, c, left)
    requires Merges(le, b, c, bc) && Merges(le, a, bc, right)
    ensures left == right
  {
    var first := MergeShowsNewest(le, a, b, ab);
    var m := MergeAfterNewest(le, ab, first, Elements(a) + Elements(b), c, left);
    var inner := MergeShowsNewest(le, b, c, bc);
    var n := MergeShowsNewest(le, a, bc, right);
    NewestThrough(n, inner, Elements(a), Elements(b) + Elements(c), Elements(bc));
    UnionLaws(Elements(a), Elements(b), Elements(c));
    ShownOnce(le, m, n, Elements(a) + Elements(b) + Elements(c), left, right);
  }

  /** The newest of a list of newest items is the newest of all they stand for. */
  lemma NewestThrough(n: Latest, inner: Latest, a: set<Item>, s: set<Item>, shown: set<Item>)
    requires NewestOf(inner, s) && shown == inner.Values && NewestOf(n, a + shown)
    ensures NewestOf(n, a + s)
  {
    forall x | x in s ensures x.id in n && !Newer(x, n[x.id]) {
      assert x.id in Ids(s);
      assert inner[x.id] in shown && inner[x.id].id == x.id;
      assert !Newer(x, inner[x.id]) && !Newer(inner[x.id], n[x.id]);
    }
    forall id | id in n ensures n[id] in a + s && id in Ids(a + s) {
      if n[id] in shown {
        var k :| k in inner && inner[k] == n[id];
      }
    }
    forall id | id in Ids(a + s) ensures id in n {
      var x :| x in a + s && x.id == id;
      if x in a {
        assert x.id in Ids(a + shown);
      }
    }
    assert n.Keys == Ids(a + s);
  }

  /* ---- against plain overwriting ---- */

  /** The fold of the acceptance script: the last item written for an id wins. */
  function Overwrite(journal: seq<Item>): Latest {
    Index(journal)
  }

  ghost predicate Ascending(journal: seq<Item>) {
    forall i, j :: 0 <= i < j < |journal| ==> journal[i].sequence < journal[j].sequence
  }

  ghost predicate LastAt(journal: seq<Item>, j: int) {
    0 <= j < |journal| && forall k :: j < k < |journal| ==> journal[k].id != journal[j].id
  }

  ghost predicate HighestAt(journal: seq<Item>, j: int) {
    0 <= j < |journal| && forall i :: 0 <= i < j && journal[i].id == journal[j].id ==>
      journal[i].revision <= journal[j].revision
  }

  /** The last entry of each id carries the highest revision of that id. */
  ghost predicate LastIsHighest(journal: seq<Item>) {
    forall j :: LastAt(journal, j) ==> HighestAt(journal, j)
  }

  lemma {:induction false} OverwriteAtLast(journal: seq<Item>, j: nat)
    requires LastAt(journal, j)
    ensures journal[j].id in Overwrite(journal) && Overwrite(journal)[journal[j].id] == journal[j]
    decreases |journal|
  {
    var n := |journal| - 1;
    if j < n {
      assert LastAt(journal[..n], j);
      OverwriteAtLast(journal[..n], j);
    }
  }

  lemma {:induction false} OverwriteKeys(journal: seq<Item>)
    ensures Overwrite(journal).Keys == Ids(Elements(journal))
  {
    if journal != [] {
      var n := |journal| - 1;
      OverwriteKeys(journal[..n]);
      assert journal == journal[..n] + [journal[n]];
      assert Elements(journal) == Elements(journal[..n]) + {journal[n]};
      assert Ids(Elements(journal)) == Ids(Elements(journal[..n])) + {journal[n].id};
    }
  }

  lemma {:induction false} LastEntry(journal: seq<Item>, i: nat) returns (j: nat)
    requires i < |journal|
    ensures i <= j && LastAt(journal, j) && journal[j].id == journal[i].id
    decreases |journal| - i
  {
    if LastAt(journal, i) {
      j := i;
    } else {
      var k :| i < k < |journal| && journal[k].id == journal[i].id;
      j := LastEntry(journal, k);
    }
  }

  /** Overwriting in sequence order leaves the newest items exactly when no id ends below its highest revision. */
  lemma OverwriteNewestExactly(journal: seq<Item>)
    requires Ascending(journal)
    ensures NewestOf(Overwrite(journal), Elements(journal)) <==> LastIsHighest(journal)
  {
    OverwriteKeys(journal);
    if LastIsHighest(journal) {
      OverwriteNewest(journal);
    }
    if NewestOf(Overwrite(journal), Elements(journal)) {
      forall j | LastAt(journal, j) ensures HighestAt(journal, j) {
        OverwriteAtLast(journal, j);
        forall i | 0 <= i < j && journal[i].id == journal[j].id ensures journal[i].revision <= journal[j].revision {
          assert journal[i] in Elements(journal);
          assert !Newer(journal[i], journal[j]);
        }
      }
    }
  }

  lemma OverwriteNewest(journal: seq<Item>)
    requires Ascending(journal) && LastIsHighest(journal)
    ensures NewestOf(Overwrite(journal), Elements(journal))
  {
    OverwriteKeys(journal);
    var m := Overwrite(journal);
    forall i | 0 <= i < |journal| ensures journal[i].id in m && !Newer(journal[i], m[journal[i].id]) {
      var j := LastEntry(journal, i);
      OverwriteAtLast(journal, j);
      assert HighestAt(journal, j);
      assert i < j ==> journal[i].sequence < journal[j].sequence;
    }
    forall id | id in m ensures m[id] in Elements(journal) && m[id].id == id {
      var x :| x in Elements(journal) && x.id == id;
      var i :| 0 <= i < |journal| && journal[i] == x;
      var j := LastEntry(journal, i);
      OverwriteAtLast(journal, j);
    }
  }

  lemma AscendingCoherent(journal: seq<Item>)
    requires Ascending(journal)
    ensures Coherent(Elements(journal))
  {
    forall x, y | x in journal && y in journal && x.sequence == y.sequence ensures x == y {
      var i :| 0 <= i < |journal| && journal[i] == x;
      var j :| 0 <= j < |journal| && journal[j] == y;
      assert i == j;
    }
  }

  /** Two keyed maps that one list shows are equal. */
  lemma ShownMap(le: TextOrder, list: seq<Item>, m: Latest, n: Latest)
    requires Keyed(m) && Keyed(n) && Shows(le, list, m) && Shows(le, list, n)
    ensures m == n
  {
    KeyedKeys(m, n);
    KeyedKeys(n, m);
  }

  lemma KeyedKeys(m: Latest, n: Latest)
    requires Keyed(m) && Keyed(n) && m.Values == n.Values
    ensures forall id :: id in m ==> id in n && n[id] == m[id]
  {
    forall id | id in m ensures id in n && n[id] == m[id] {
      assert m[id] in n.Values;
      var k :| k in n && n[k] == m[id];
    }
  }

  lemma {:induction false} OverwriteKeyed(journal: seq<Item>)
    ensures Keyed(Overwrite(journal))
  {
    if journal != [] {
      OverwriteKeyed(journal[..|journal| - 1]);
    }
  }

  /** A client that has seen exactly a journal shows what overwriting leaves if and only if no id ends
      below its highest revision. */
  lemma ClientAgreesWithOverwrite(le: TextOrder, journal: seq<Item>, batches: seq<seq<Item>>, states: seq<seq<Item>>)
    requires Ascending(journal)
    requires Run(le, batches, states) && Seen(batches) == Elements(journal)
    ensures Shows(le, states[|batches|], Overwrite(journal)) <==> LastIsHighest(journal)
  {
    var m := RunShowsNewest(le, batches, states);
    OverwriteNewestExactly(journal);
    if LastIsHighest(journal) {
      AscendingCoherent(journal);
      NewestUnique(m, Overwrite(journal), Elements(journal));
    }
    if Shows(le, states[|batches|], Overwrite(journal)) {
      OverwriteKeyed(journal);
      ShownMap(le, states[|batches|], m, Overwrite(journal));
    }
  }

  /** Two entries of one id, the later one with the lower revision. */
  const FALLING: seq<Item> := [Item("a", 2, 1, "t", "new"), Item("a", 1, 2, "t", "late")]

  lemma OneShown(le: TextOrder, x: Item)
    ensures Shows(le, [x], map[x.id := x])
  {
    var m: Latest := map[x.id := x];
    assert m[x.id] in m.Values && x in [x];
    assert Elements([x]) == {x} == m.Values;
    assert multiset([x])[x] == 1;
    assert [x][1..] == [];
  }

  lemma TwoEntries(x: Item, y: Item)
    requires x.id == y.id && Newer(x, y)
    ensures Index([x, y]) == map[x.id := y] && Absorb(map[], [x, y]) == map[x.id := x]
  {
    assert [x, y][..1] == [x] && [x][..0] == [];
    assert Index([x]) == map[x.id := x] && Absorb(map[], [x]) == map[x.id := x];
    assert Absorb(map[], [x, y]) == AbsorbOne(Absorb(map[], [x]), y);
  }

  /** On this journal overwriting leaves the later entry, and a client shows the earlier one. */
  lemma FallingRevision(le: TextOrder)
    ensures Ascending(FALLING) && !LastIsHighest(FALLING) && Overwrite(FALLING) == map["a" := FALLING[1]]
    ensures Run(le, [FALLING], [[], [FALLING[0]]]) && !Shows(le, [FALLING[0]], Overwrite(FALLING))
  {
    var x, y := FALLING[0], FALLING[1];
    assert FALLING == [x, y];
    assert LastAt(FALLING, 1) && !HighestAt(FALLING, 1);
    TwoEntries(x, y);
    OneShown(le, x);
    assert Index([]) == map[];
    assert Merges(le, [], FALLING, [x]);
    assert Overwrite(FALLING)["a"] in Overwrite(FALLING).Values && y !in Elements([x]);
  }
}
