/**
 * The conversation journal on the client: a last-writer merge of snapshots and
 * streamed items, keyed on (revision, sequence), shown in one sorted list.
 *
 * `content` stands for every field the merge does not look at. Texts are
 * compared by any total order.
 */
module Journal {

  import opened Basics
  import opened Sorting

  datatype Item = Item(id: string, revision: int, sequence: int, createdAt: string, content: string)

  /** Display order: by creation time, then by id. */
  function Before(le: TextOrder): (Item, Item) -> bool {
    (a: Item, b: Item) => if a.createdAt != b.createdAt then le(a.createdAt, b.createdAt) else le(a.id, b.id)
  }

  predicate Newer(a: Item, b: Item) {
    a.revision > b.revision || (a.revision == b.revision && a.sequence > b.sequence)
  }

  type Latest = map<string, Item>

  /* ---- the merge ---- */

  function Index(items: seq<Item>): Latest {
    if items == [] then map[] else Index(items[..|items| - 1])[items[|items| - 1].id := items[|items| - 1]]
  }

  function AbsorbOne(m: Latest, item: Item): Latest {
    if item.id !in m || Newer(item, m[item.id]) then m[item.id := item] else m
  }

  function Absorb(m: Latest, items: seq<Item>): Latest {
    if items == [] then m else AbsorbOne(Absorb(m, items[..|items| - 1]), items[|items| - 1])
  }

  /** Every item once, and no two items with one id. */
  ghost predicate UniqueIds(items: seq<Item>) {
    Once(items) && forall x, y :: x in items && y in items && x.id == y.id ==> x == y
  }

  /** `list` shows exactly the entries of `m`, each once, in display order. */
  ghost predicate Shows(le: TextOrder, list: seq<Item>, m: Latest) {
    && Sorted(Before(le), list)
    && UniqueIds(list)
    && Elements(list) == m.Values
  }

  ghost predicate Keyed(m: Latest) {
    forall id :: id in m ==> m[id].id == id
  }

  /** Insertion order of the keys, as a JavaScript Map keeps it. */
  predicate Enumerates(keys: seq<string>, m: Latest) {
    Elements(keys) == m.Keys && forall i, j :: 0 <= i < j < |keys| ==> keys[i] != keys[j]
  }

  lemma BeforeComparable(le: TextOrder, s: set<Item>)
    requires TotalOrder(le)
    ensures Comparable(Before(le), s)
  {
    var before := Before(le);
    forall a, b ensures before(a, b) || before(b, a) {
      assert le(a.createdAt, b.createdAt) || le(b.createdAt, a.createdAt);
      assert le(a.id, b.id) || le(b.id, a.id);
    }
    forall a, b, c | before(a, b) && before(b, c) ensures before(a, c) {
      if a.createdAt == b.createdAt == c.createdAt {
        assert le(a.id, b.id) && le(b.id, c.id);
      } else if a.createdAt != b.createdAt && b.createdAt != c.createdAt {
        assert le(a.createdAt, b.createdAt) && le(b.createdAt, c.createdAt);
        assert le(c.createdAt, a.createdAt) ==> le(c.createdAt, b.createdAt);
      }
    }
  }

  /** Distinct ids leave no ties in display order. */
  lemma BeforeNoTies(le: TextOrder, items: seq<Item>)
    requires TotalOrder(le) && UniqueIds(items)
    ensures NoTies(Before(le), Elements(items))
  {
    var before := Before(le);
    forall a, b | a in items && b in items && before(a, b) && before(b, a) ensures a == b {
      if a.createdAt == b.createdAt {
        assert le(a.id, b.id) && le(b.id, a.id);
      }
    }
  }

  lemma ShowsSorted(le: TextOrder, keys: seq<string>, m: Latest, values: seq<Item>, list: seq<Item>)
    requires Keyed(m) && Enumerates(keys, m)
    requires |values| == |keys| && forall i :: 0 <= i < |keys| ==> keys[i] in m && values[i] == m[keys[i]]
    requires multiset(list) == multiset(values) && Sorted(Before(le), list)
    ensures Shows(le, list, m)
  {
    SameElements(values, list);
    forall i, j | 0 <= i < j < |values| ensures values[i] != values[j] {
      assert values[i].id == keys[i] && values[j].id == keys[j];
    }
    DistinctOnce(values);
    assert forall x :: x in list <==> x in Elements(list);
    forall v ensures v in Elements(values) <==> v in m.Values {
      if v in m.Values {
        var id :| id in m && m[id] == v;
        assert id in Elements(keys);
        var i :| 0 <= i < |keys| && keys[i] == id;
        assert values[i] == v;
      }
    }
  }

  /** An earlier creation time comes first, and at one time a smaller id. */
  predicate InOrder(le: TextOrder, a: Item, b: Item) {
    le(a.createdAt, b.createdAt) && (a.createdAt == b.createdAt ==> le(a.id, b.id))
  }

  method MergeConversationItems(le: TextOrder, current: seq<Item>, incoming: seq<Item>) returns (list: seq<Item>)
    requires TotalOrder(le)
    ensures Shows(le, list, Absorb(Index(current), incoming))
    ensures forall i, j :: 0 <= i < j < |list| ==> InOrder(le, list[i], list[j])
  {
    var byId: Latest := map[];
    var keys: seq<string> := [];
    for i := 0 to |current|
      invariant byId == Index(current[..i]) && Keyed(byId) && Enumerates(keys, byId)
    {
      if current[i].id !in byId {
        keys := keys + [current[i].id];
      }
      byId := byId[current[i].id := current[i]];
      assert current[..i + 1][..i] == current[..i];
    }
    assert current[..|current|] == current;
    for i := 0 to |incoming|
      invariant byId == Absorb(Index(current), incoming[..i]) && Keyed(byId) && Enumerates(keys, byId)
    {
      var item := incoming[i];
      if item.id !in byId {
        keys := keys + [item.id];
      }
      if item.id !in byId || Newer(item, byId[item.id]) {
        byId := byId[item.id := item];
      }
      assert incoming[..i + 1][..i] == incoming[..i];
    }
    assert incoming[..|incoming|] == incoming;
    var values := seq(|keys|, i requires 0 <= i < |keys| => byId[keys[i]]);
    list := Sort(Before(le), values);
    BeforeComparable(le, Elements(values));
    SortSorted(Before(le), values);
    ShowsSorted(le, keys, byId, values, list);
    forall i, j | 0 <= i < j < |list| ensures InOrder(le, list[i], list[j]) {
      SortedPair(Before(le), list, i, j);
    }
  }
}
