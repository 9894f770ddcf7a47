/** Public drafts: a draft stays visible until its saved reply arrives. */
module Drafts {

  // Of the attempts that came before a saved reply, it hides the last one and no other.

  import opened Basics
  import opened Selection
  import opened Sorting
  import opened Transcript
  import opened Whitespace

  /** What a journal entry carries about the thing it records. */
  datatype Data = Data(
    id: Option<string>, messageType: Option<string>, toolName: Option<string>,
    completedAt: Option<int>, kind: string, text: Option<string>,
    message: Message, call: Call)

  datatype Entry = Entry(
    id: string, kind: string, status: string,
    actorType: string, actorId: Option<string>, actorName: Option<string>,
    taskId: Option<string>, runId: Option<string>, at: int, data: Data)

  /** A saved agent reply, or the tombstone of one. */
  datatype Receipt = Receipt(runId: Option<string>, agentId: Option<string>, at: int)

  /* ---- generations and receipts ---- */

  predicate IsGeneration(e: Entry, primaryAgentId: Option<string>) {
    e.kind == "generation" && e.actorType == "agent" && (primaryAgentId.None? || e.actorId == primaryAgentId)
  }

  predicate IsSavedReply(m: Message) {
    m.senderType == "agent" && m.messageType == "text"
  }

  predicate IsTombstone(e: Entry) {
    e.kind == "message" && e.status == "removed" && e.actorType == "agent" && e.data.messageType == Some("text")
  }

  function Generations(journal: seq<Entry>, primaryAgentId: Option<string>): seq<Entry> {
    Filter((e: Entry) => IsGeneration(e, primaryAgentId), journal)
  }

  function MessageReceipt(m: Message): Receipt {
    Receipt(m.runId, m.senderId, m.at)
  }

  function EntryReceipt(e: Entry): Receipt {
    Receipt(e.runId, e.actorId, e.at)
  }

  function Receipts(journal: seq<Entry>, messages: seq<Message>): seq<Receipt> {
    var replies := Filter(IsSavedReply, messages);
    var tombstones := Filter(IsTombstone, journal);
    seq(|replies|, i requires 0 <= i < |replies| => MessageReceipt(replies[i]))
    + seq(|tombstones|, i requires 0 <= i < |tombstones| => EntryReceipt(tombstones[i]))
  }

  /* ---- replacement ---- */

  /** `g` is an attempt of the receipt's run and agent, at or before it. */
  predicate Precedes(g: Entry, r: Receipt) {
    r.runId.Some? && r.runId.value != "" && g.runId == r.runId && g.actorId == r.agentId && g.at <= r.at
  }

  /** Latest first, then by descending id. */
  function LatestFirst(le: TextOrder): (Entry, Entry) -> bool {
    (a: Entry, b: Entry) => if a.at != b.at then a.at > b.at else le(b.id, a.id)
  }

  function Preceding(gs: seq<Entry>, r: Receipt): seq<Entry> {
    Filter((g: Entry) => Precedes(g, r), gs)
  }

  function Hides(le: TextOrder, gs: seq<Entry>, r: Receipt): set<string> {
    var latest := Sort(LatestFirst(le), Preceding(gs, r));
    if latest == [] then {} else {latest[0].id}
  }

  function Replaced(le: TextOrder, gs: seq<Entry>, rs: seq<Receipt>): set<string> {
    if rs == [] then {} else Replaced(le, gs, rs[..|rs| - 1]) + Hides(le, gs, rs[|rs| - 1])
  }

  predicate HasText(text: Option<string>) {
    text.Some? && Trim(text.value) != ""
  }

  predicate Visible(e: Entry, replaced: set<string>) {
    e.id !in replaced && e.status in {"running", "streaming", "completed"} && HasText(e.data.text)
  }

  function Shown(replaced: set<string>): Entry -> bool {
    (e: Entry) => Visible(e, replaced)
  }

  function PublicGenerations(le: TextOrder, journal: seq<Entry>, messages: seq<Message>,
      primaryAgentId: Option<string>): seq<Entry>
  {
    var gs := Generations(journal, primaryAgentId);
    var replaced := Replaced(le, gs, Receipts(journal, messages));
    Filter(Shown(replaced), gs)
  }

  method ReadReplaced(le: TextOrder, gs: seq<Entry>, rs: seq<Receipt>) returns (replaced: set<string>)
    ensures replaced == Replaced(le, gs, rs)
  {
    replaced := {};
    for i := 0 to |rs|
      invariant replaced == Replaced(le, gs, rs[..i])
    {
      ReplacedStep(le, gs, rs, i);
      if rs[i].runId.None? || rs[i].runId.value == "" {
        NothingPrecedes(le, gs, rs[i]);
        continue;
      }
      var nearest := Hides(le, gs, rs[i]);
      replaced := replaced + nearest;
    }
    assert rs[..|rs|] == rs;
  }

  lemma ReplacedStep(le: TextOrder, gs: seq<Entry>, rs: seq<Receipt>, i: nat)
    requires i < |rs|
    ensures Replaced(le, gs, rs[..i + 1]) == Replaced(le, gs, rs[..i]) + Hides(le, gs, rs[i])
  {
    assert rs[..i + 1][..i] == rs[..i];
  }

  lemma NothingPrecedes(le: TextOrder, gs: seq<Entry>, r: Receipt)
    requires r.runId.None? || r.runId.value == ""
    ensures Hides(le, gs, r) == {}
  {
    FilterNone((g: Entry) => Precedes(g, r), gs);
  }

  /* ---- what replacement promises ---- */

  /** `g` is the newest attempt at or before the receipt. */
  ghost predicate NewestAttempt(le: TextOrder, gs: seq<Entry>, r: Receipt, g: Entry) {
    g in gs && Precedes(g, r) && forall h :: h in gs && Precedes(h, r) ==> h == g || LatestFirst(le)(g, h)
  }

  lemma LatestComparable(le: TextOrder, s: set<Entry>)
    requires TotalOrder(le)
    ensures Comparable(LatestFirst(le), s)
  {
    var before := LatestFirst(le);
    forall a, b ensures before(a, b) || before(b, a) {
      assert le(a.id, b.id) || le(b.id, a.id);
    }
    forall a, b, c | before(a, b) && before(b, c) ensures before(a, c) {
      if a.at == b.at == c.at {
        assert le(c.id, b.id) && le(b.id, a.id);
      }
    }
  }

  /** A receipt hides nothing, or the newest attempt at or before it. */
  lemma HidesNewest(le: TextOrder, gs: seq<Entry>, r: Receipt)
    requires TotalOrder(le)
    ensures Hides(le, gs, r) == {} <==> forall g :: g in gs ==> !Precedes(g, r)
    ensures forall id :: id in Hides(le, gs, r) ==>
      Hides(le, gs, r) == {id} && exists g :: NewestAttempt(le, gs, r, g) && g.id == id
  {
    var ps := Preceding(gs, r);
    var latest := Sort(LatestFirst(le), ps);
    FilterElements((g: Entry) => Precedes(g, r), gs);
    SameElements(latest, ps);
    if latest != [] {
      LatestComparable(le, Elements(ps));
      SortSorted(LatestFirst(le), ps);
      assert latest[0] in Elements(latest);
      forall h | h in gs && Precedes(h, r) ensures h == latest[0] || LatestFirst(le)(latest[0], h) {
        assert h in Elements(ps);
        HeadLeast(LatestFirst(le), latest, h);
      }
      assert NewestAttempt(le, gs, r, latest[0]);
      assert Precedes(latest[0], r);
    } else {
      forall g | g in gs ensures !Precedes(g, r) {
        assert g in ps <==> Precedes(g, r);
      }
    }
  }

  /** k receipts hide at most k drafts, each of them the newest attempt for some receipt. */
  lemma {:induction false} AtMostOneEach(le: TextOrder, gs: seq<Entry>, rs: seq<Receipt>)
    requires TotalOrder(le)
    ensures |Replaced(le, gs, rs)| <= |rs|
    ensures forall id :: id in Replaced(le, gs, rs) ==>
      exists r, g :: r in rs && NewestAttempt(le, gs, r, g) && g.id == id
  {
    if rs != [] {
      var front, last := rs[..|rs| - 1], rs[|rs| - 1];
      AtMostOneEach(le, gs, front);
      HidesNewest(le, gs, last);
      var hidden := Hides(le, gs, last);
      assert |hidden| <= 1 by {
        if id :| id in hidden {
          assert hidden == {id};
        }
      }
      UnionSize(Replaced(le, gs, front), hidden);
      forall id | id in Replaced(le, gs, rs)
        ensures exists r, g :: r in rs && NewestAttempt(le, gs, r, g) && g.id == id
      {
        if id in Replaced(le, gs, front) {
          var r, g :| r in front && NewestAttempt(le, gs, r, g) && g.id == id;
          assert r in rs;
        } else {
          var g :| NewestAttempt(le, gs, last, g) && g.id == id;
          assert last in rs;
        }
      }
    }
  }

  lemma UnionSize(a: set<string>, b: set<string>)
    ensures |a + b| <= |a| + |b|
  {
    assert a + b == a + (b - a);
    assert |a + (b - a)| == |a| + |b - a|;
    assert b == (b - a) + (b * a);
    assert |b| == |b - a| + |b * a|;
  }

  /** What is hidden depends only on which receipts there are, and grows with them. */
  lemma {:induction false} ReplacedByMembers(le: TextOrder, gs: seq<Entry>, rs: seq<Receipt>)
    ensures forall id :: id in Replaced(le, gs, rs) <==> exists r :: r in rs && id in Hides(le, gs, r)
  {
    if rs != [] {
      var front, last := rs[..|rs| - 1], rs[|rs| - 1];
      ReplacedByMembers(le, gs, front);
      assert rs == front + [last];
    }
  }

  /** A draft that is shown: under way or completed, with a text, and not the newest attempt for any receipt. */
  ghost predicate PublicDraft(le: TextOrder, journal: seq<Entry>, messages: seq<Message>,
      primaryAgentId: Option<string>, e: Entry)
  {
    && IsGeneration(e, primaryAgentId) && e.status in {"running", "streaming", "completed"} && HasText(e.data.text)
    && !exists r, g ::
      r in Receipts(journal, messages) && NewestAttempt(le, Generations(journal, primaryAgentId), r, g) && g.id == e.id
  }

  ghost function PublicDrafts(le: TextOrder, journal: seq<Entry>, messages: seq<Message>,
      primaryAgentId: Option<string>): Entry -> bool
  {
    (e: Entry) => PublicDraft(le, journal, messages, primaryAgentId, e)
  }

  /** Exactly the ids of newest attempts are hidden. */
  lemma ReplacedExactly(le: TextOrder, gs: seq<Entry>, rs: seq<Receipt>, id: string)
    requires TotalOrder(le)
    ensures id in Replaced(le, gs, rs) <==> exists r, g :: r in rs && NewestAttempt(le, gs, r, g) && g.id == id
  {
    AtMostOneEach(le, gs, rs);
    ReplacedByMembers(le, gs, rs);
    if r, g :| r in rs && NewestAttempt(le, gs, r, g) && g.id == id {
      HidesNewest(le, gs, r);
      var hidden := HiddenId(le, gs, r);
      var h :| NewestAttempt(le, gs, r, h) && h.id == hidden;
      OneNewest(le, gs, r, g, h);
    }
  }

  lemma HiddenId(le: TextOrder, gs: seq<Entry>, r: Receipt) returns (id: string)
    requires TotalOrder(le) && exists g :: g in gs && Precedes(g, r)
    ensures Hides(le, gs, r) == {id} && exists g :: NewestAttempt(le, gs, r, g) && g.id == id
  {
    HidesNewest(le, gs, r);
    id :| id in Hides(le, gs, r);
  }

  lemma OneNewest(le: TextOrder, gs: seq<Entry>, r: Receipt, g: Entry, h: Entry)
    requires TotalOrder(le) && NewestAttempt(le, gs, r, g) && NewestAttempt(le, gs, r, h)
    ensures g.id == h.id
  {
    if g != h {
      assert LatestFirst(le)(g, h) && LatestFirst(le)(h, g);
      assert le(g.id, h.id) && le(h.id, g.id);
    }
  }

  lemma {:induction false} FilterTwice<T>(f: T -> bool, g: T -> bool, both: T -> bool, xs: seq<T>)
    requires forall x :: x in xs ==> (both(x) <==> f(x) && g(x))
    ensures Filter(g, Filter(f, xs)) == Filter(both, xs)
    decreases |xs|
  {
    if xs != [] {
      FilterTwice(f, g, both, xs[1..]);
      FilterConcat(g, if f(xs[0]) then [xs[0]] else [], Filter(f, xs[1..]));
      assert xs[0] in xs;
    }
  }

  /** The drafts are those entries of the journal, in its order. */
  lemma DraftsOfJournal(le: TextOrder, journal: seq<Entry>, messages: seq<Message>, primaryAgentId: Option<string>)
    requires TotalOrder(le)
    ensures PublicGenerations(le, journal, messages, primaryAgentId)
         == Filter(PublicDrafts(le, journal, messages, primaryAgentId), journal)
  {
    var gs, rs := Generations(journal, primaryAgentId), Receipts(journal, messages);
    forall e | e in journal
      ensures PublicDraft(le, journal, messages, primaryAgentId, e)
              <==> IsGeneration(e, primaryAgentId) && Visible(e, Replaced(le, gs, rs))
    {
      ReplacedExactly(le, gs, rs, e.id);
    }
    FilterTwice((e: Entry) => IsGeneration(e, primaryAgentId), Shown(Replaced(le, gs, rs)),
                PublicDrafts(le, journal, messages, primaryAgentId), journal);
  }

  method ReadPublicGenerations(le: TextOrder, journal: seq<Entry>, messages: seq<Message>,
      primaryAgentId: Option<string>)
      returns (drafts: seq<Entry>)
    ensures drafts == PublicGenerations(le, journal, messages, primaryAgentId)
    ensures TotalOrder(le) ==> drafts == Filter(PublicDrafts(le, journal, messages, primaryAgentId), journal)
  {
    var gs := Generations(journal, primaryAgentId);
    var rs := Receipts(journal, messages);
    var replaced := ReadReplaced(le, gs, rs);
    drafts := Filter(Shown(replaced), gs);
    assert TotalOrder(le) ==> drafts == Filter(PublicDrafts(le, journal, messages, primaryAgentId), journal) by {
      if TotalOrder(le) {
        DraftsOfJournal(le, journal, messages, primaryAgentId);
      }
    }
  }

  /** More saved replies never bring a hidden draft back. */
  lemma MoreRepliesRevealNothing(le: TextOrder, journal: seq<Entry>, messages: seq<Message>, more: seq<Message>,
                                 primaryAgentId: Option<string>)
    requires forall m :: m in messages ==> m in more
    ensures forall e :: e in PublicGenerations(le, journal, more, primaryAgentId) ==>
      e in PublicGenerations(le, journal, messages, primaryAgentId)
  {
    var gs := Generations(journal, primaryAgentId);
    ReplacedByMembers(le, gs, Receipts(journal, messages));
    ReplacedByMembers(le, gs, Receipts(journal, more));
    FilterElements(Shown(Replaced(le, gs, Receipts(journal, messages))), gs);
    FilterElements(Shown(Replaced(le, gs, Receipts(journal, more))), gs);
    forall r | r in Receipts(journal, messages) ensures r in Receipts(journal, more) {
      ReceiptMembers(journal, messages, r);
      ReceiptMembers(journal, more, r);
    }
  }

  lemma ReceiptMembers(journal: seq<Entry>, messages: seq<Message>, r: Receipt)
    ensures r in Receipts(journal, messages) <==>
      (exists m :: m in messages && IsSavedReply(m) && MessageReceipt(m) == r)
      || (exists e :: e in journal && IsTombstone(e) && EntryReceipt(e) == r)
  {
    var replies, tombstones := Filter(IsSavedReply, messages), Filter(IsTombstone, journal);
    FilterElements(IsSavedReply, messages);
    FilterElements(IsTombstone, journal);
    var rs := Receipts(journal, messages);
    if r in rs {
      var i :| 0 <= i < |rs| && rs[i] == r;
      if i < |replies| {
        assert replies[i] in replies;
      } else {
        assert tombstones[i - |replies|] in tombstones;
      }
    }
    if m :| m in messages && IsSavedReply(m) && MessageReceipt(m) == r {
      assert m in replies;
      var i :| 0 <= i < |replies| && replies[i] == m;
      assert rs[i] == r;
    }
    if e :| e in journal && IsTombstone(e) && EntryReceipt(e) == r {
      assert e in tombstones;
      var i :| 0 <= i < |tombstones| && tombstones[i] == e;
      assert rs[|replies| + i] == r;
    }
  }

  /** A tombstone with the identity of a saved reply. */
  predicate TombstoneOf(e: Entry, m: Message) {
    IsTombstone(e) && EntryReceipt(e) == MessageReceipt(m)
  }

  /**
   * Replacing a saved reply by its tombstone, and the reply's journal entry by
   * the tombstone's, leaves the visible drafts as they were.
   */
  lemma TombstoneKeepsDrafts(le: TextOrder, before: seq<Entry>, live: seq<Entry>, after: seq<Entry>,
                             messages: seq<Message>, reply: Message, others: seq<Message>, tombstone: Entry,
                             primaryAgentId: Option<string>)
    requires IsSavedReply(reply) && TombstoneOf(tombstone, reply)
    requires forall e :: e in live ==> e.kind == "message" && e.status != "removed"
    ensures PublicGenerations(le, before + live + after, messages + [reply] + others, primaryAgentId)
         == PublicGenerations(le, before + [tombstone] + after, messages + others, primaryAgentId)
  {
    var old_, new_ := before + live + after, before + [tombstone] + after;
    var withReply, without := messages + [reply] + others, messages + others;
    SameGenerations(before, live, after, tombstone, primaryAgentId);
    var gs := Generations(old_, primaryAgentId);
    forall r ensures r in Receipts(old_, withReply) <==> r in Receipts(new_, without) {
      ReceiptMembers(old_, withReply, r);
      ReceiptMembers(new_, without, r);
      SameReceipt(before, live, after, messages, reply, others, tombstone, r);
    }
    ReplacedByMembers(le, gs, Receipts(old_, withReply));
    ReplacedByMembers(le, gs, Receipts(new_, without));
    assert Replaced(le, gs, Receipts(old_, withReply)) == Replaced(le, gs, Receipts(new_, without));
  }

  lemma SameGenerations(before: seq<Entry>, live: seq<Entry>, after: seq<Entry>, tombstone: Entry,
      primaryAgentId: Option<string>)
    requires tombstone.kind == "message" && forall e :: e in live ==> e.kind == "message"
    ensures Generations(before + live + after, primaryAgentId)
      == Generations(before + [tombstone] + after, primaryAgentId)
  {
    var keep := (e: Entry) => IsGeneration(e, primaryAgentId);
    FilterConcat(keep, before + live, after);
    FilterConcat(keep, before, live);
    FilterConcat(keep, before + [tombstone], after);
    FilterConcat(keep, before, [tombstone]);
    FilterNone(keep, live);
    FilterNone(keep, [tombstone]);
  }

  lemma SameReceipt(before: seq<Entry>, live: seq<Entry>, after: seq<Entry>, messages: seq<Message>, reply: Message,
                    others: seq<Message>, tombstone: Entry, r: Receipt)
    requires IsSavedReply(reply) && TombstoneOf(tombstone, reply)
    requires forall e :: e in live ==> !IsTombstone(e)
    ensures ((exists m :: m in messages + [reply] + others && IsSavedReply(m) && MessageReceipt(m) == r)
             || (exists e :: e in before + live + after && IsTombstone(e) && EntryReceipt(e) == r))
        <==> ((exists m :: m in messages + others && IsSavedReply(m) && MessageReceipt(m) == r)
             || (exists e :: e in before + [tombstone] + after && IsTombstone(e) && EntryReceipt(e) == r))
  {
    assert reply in messages + [reply] + others && tombstone in before + [tombstone] + after;
    assert forall m :: m in messages + [reply] + others <==> m in messages + others || m == reply;
    assert forall e :: e in before + [tombstone] + after <==> e in before || e in after || e == tombstone;
    assert forall e :: e in before + live + after <==> e in before || e in after || e in live;
  }
}
