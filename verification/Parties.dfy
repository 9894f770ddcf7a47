/** Who stands on the two sides of a quiet message, and when two messages belong to one exchange. */
module Parties {
  import opened Basics
  import opened Transcript

  /* ---- two parties ---- */

  /** The same agent: by id where there are ids, and otherwise by name in any case. */
  predicate SameParty(p: Party, q: Party) {
    match (p.id, q.id)
    case (Some(a), Some(b)) => a == b
    case (None, None) => Lower(p.name) == Lower(q.name)
    case (Some(a), None) => a == "name:" + Lower(q.name)
    case (None, Some(b)) => b == "name:" + Lower(p.name)
  }

  lemma PartyKeyExactly(p: Party, q: Party)
    ensures PartyKey(p) == PartyKey(q) <==> SameParty(p, q)
  {
    var n := "name:";
    if p.id.None? && q.id.None? {
      assert (n + Lower(p.name))[|n|..] == Lower(p.name);
      assert (n + Lower(q.name))[|n|..] == Lower(q.name);
    }
  }

  lemma {:induction false} TextLeTotal(a: string, b: string)
    ensures TextLe(a, b) || TextLe(b, a)
    ensures TextLe(a, b) && TextLe(b, a) ==> a == b
    decreases |a|
  {
    if a != "" && b != "" && a[0] == b[0] {
      TextLeTotal(a[1..], b[1..]);
      assert a == [a[0]] + a[1..] && b == [b[0]] + b[1..];
    }
  }

  lemma PairKeySymmetric(a: string, b: string)
    ensures PairKey(a, b) == PairKey(b, a)
  {
    TextLeTotal(a, b);
  }

  /** Two texts around a bar are determined by the whole when neither of the first two holds a bar. */
  lemma BarSplits(a: string, b: string, x: string, y: string)
    requires '|' !in a && '|' !in b && a + "|" + b == x + "|" + y
    ensures a == x && b == y
  {
    var s, t := a + "|" + b, x + "|" + y;
    assert s[|a|] == '|' && t[|x|] == '|';
    assert a == s[..|a|] && x == t[..|x|] && b == s[|a| + 1..] && y == t[|x| + 1..];
  }

  /** The text of a pair in order, as its key has it. */
  function PairText(a: string, b: string): string {
    if TextLe(a, b) then a + "|" + b else b + "|" + a
  }

  lemma KeyOfText(a: string, b: string)
    ensures PairKey(a, b) == "pair:" + PairText(a, b)
  {
    assert "pair:" + a + "|" + b == "pair:" + (a + "|" + b);
    assert "pair:" + b + "|" + a == "pair:" + (b + "|" + a);
  }

  lemma SameText(a: string, b: string, x: string, y: string)
    ensures PairKey(a, b) == PairKey(x, y) <==> PairText(a, b) == PairText(x, y)
  {
    KeyOfText(a, b);
    KeyOfText(x, y);
    var p := "pair:";
    assert (p + PairText(a, b))[|p|..] == PairText(a, b) && (p + PairText(x, y))[|p|..] == PairText(x, y);
  }

  predicate SameTwo(a: string, b: string, x: string, y: string) {
    (a == x && b == y) || (a == y && b == x)
  }

  /** No other pair has the key of this one. */
  ghost predicate Unmistakable(a: string, b: string) {
    forall x, y :: PairKey(x, y) == PairKey(a, b) ==> SameTwo(a, b, x, y)
  }

  /** The text can be split at place `k` into two texts in order. */
  predicate SplitsAt(text: string, k: int) {
    0 <= k < |text| && text[k] == '|' && TextLe(text[..k], text[k + 1..])
  }

  lemma SplitOfPair(a: string, b: string) returns (k: nat)
    ensures SplitsAt(PairText(a, b), k)
    ensures var s := PairText(a, b); SameTwo(a, b, s[..k], s[k + 1..])
  {
    TextLeTotal(a, b);
    var lo, hi := if TextLe(a, b) then a else b, if TextLe(a, b) then b else a;
    k := |lo|;
    var s := lo + "|" + hi;
    assert s[..k] == lo && s[k + 1..] == hi;
  }

  lemma PairOfSplit(text: string, k: nat)
    requires SplitsAt(text, k)
    ensures PairText(text[..k], text[k + 1..]) == text
  {
  }

  ghost predicate SplitsOnce(text: string) {
    forall j, k :: SplitsAt(text, j) && SplitsAt(text, k) ==> j == k
  }

  lemma OneSplit(a: string, b: string)
    requires Unmistakable(a, b)
    ensures SplitsOnce(PairText(a, b))
  {
    var s := PairText(a, b);
    var k := SplitOfPair(a, b);
    forall j | SplitsAt(s, j) ensures j == k {
      PairOfSplit(s, j);
      SameText(s[..j], s[j + 1..], a, b);
      SplitsAgree(s, j, k, a, b);
    }
  }

  lemma OnePair(a: string, b: string, x: string, y: string)
    requires SplitsOnce(PairText(a, b)) && PairKey(x, y) == PairKey(a, b)
    ensures SameTwo(a, b, x, y)
  {
    SameText(x, y, a, b);
    var k := SplitOfPair(a, b);
    var j := SplitOfPair(x, y);
    assert j == k;
  }

  /** A pair shares its key with no other one exactly when its text can be split in order at one place only. */
  lemma UnmistakableExactly(a: string, b: string)
    ensures Unmistakable(a, b) <==> SplitsOnce(PairText(a, b))
  {
    if Unmistakable(a, b) {
      OneSplit(a, b);
    } else {
      var x, y :| PairKey(x, y) == PairKey(a, b) && !SameTwo(a, b, x, y);
      if SplitsOnce(PairText(a, b)) {
        OnePair(a, b, x, y);
      }
    }
  }

  lemma SplitsAgree(s: string, j: nat, k: nat, a: string, b: string)
    requires SplitsAt(s, j) && SplitsAt(s, k)
    requires SameTwo(a, b, s[..j], s[j + 1..]) && SameTwo(a, b, s[..k], s[k + 1..])
    ensures j == k
  {
    TextLeTotal(a, b);
    assert |s[..j]| == j && |s[..k]| == k;
  }

  /** For keys without a bar the key of a pair tells its two members, in no order. */
  lemma PairKeyExactly(a: string, b: string, x: string, y: string)
    requires '|' !in a && '|' !in b
    ensures PairKey(a, b) == PairKey(x, y) <==> SameTwo(a, b, x, y)
  {
    SameText(a, b, x, y);
    PairKeySymmetric(x, y);
    if PairKey(a, b) == PairKey(x, y) {
      BarSplits(if TextLe(a, b) then a else b, if TextLe(a, b) then b else a,
                if TextLe(x, y) then x else y, if TextLe(x, y) then y else x);
    }
  }

  /** With a bar in a key, two different pairs share one key. */
  lemma BarsConfusePairs()
    ensures PairKey("a", "b|c") == PairKey("a|b", "c")
  {
    assert TextLe("a", "b|c") && TextLe("a|b", "c");
    assert "pair:" + "a" + "|" + "b|c" == "pair:" + "a|b" + "|" + "c";
  }

  /* ---- the two sides of a message ---- */

  /** A party that the content of a message names by an id or by a name. */
  predicate Named(id: string, name: string, p: Party) {
    (id != "" || name != "") && p == Party(if id == "" then None else Some(id), name)
  }

  /** Who wrote the message: its agent. */
  predicate Writes(m: Message, p: Party) {
    p.id == m.agentId && (m.senderName.None? ==> p.name == "") && (m.senderName.Some? ==> p.name == m.senderName.value)
  }

  /** The message names `p` as its target, and that is not its sender. */
  predicate AimsAt(m: Message, p: Party) {
    Named(m.content.targetAgentId, m.content.targetAgentName, p) && !SameParty(p, Sender(m))
  }

  predicate ComesFrom(m: Message, p: Party) {
    Named(m.content.fromAgentId, m.content.fromAgentName, p) && !SameParty(p, Sender(m))
  }

  /** The other side: the target, or else the origin, or else the agent the person talks to. */
  ghost predicate Faces(m: Message, primary: Primary, p: Party) {
    if exists q :: AimsAt(m, q) then AimsAt(m, p)
    else if exists q :: ComesFrom(m, q) then ComesFrom(m, p)
    else p.id == primary.id && p.name == (if primary.name == None then "" else primary.name.value)
  }

  /** The agent the person talks to, by id or by a name. */
  predicate TalksToPerson(p: Party, primary: Primary) {
    (primary.id != None && p.id == primary.id)
    || (primary.name != None && primary.name != Some("") && primary.name == Some(p.name))
  }

  /** A message of a colleague: of an agent that has an id or a name and is not the one the person talks to. */
  predicate ByColleague(m: Message, primary: Primary) {
    (Sender(m).id != None || Sender(m).name != "") && !TalksToPerson(Sender(m), primary)
  }

  /** A structured message between agents that is no receipt. */
  predicate IsWork(m: Message) {
    m.messageType in {"delegation", "review_request", "result", "review_result", "escalation", "question", "status"}
    && !(m.content.kind in {"memory_saved", "agent_renamed"} && m.messageType == "status")
  }

  lemma SenderExactly(m: Message)
    ensures Writes(m, Sender(m)) && forall p :: Writes(m, p) ==> p == Sender(m)
  {
  }

  lemma CounterpartExactly(m: Message)
    ensures forall p :: AimsAt(m, p) ==> Counterpart(m) == Some(p)
    ensures (forall q :: !AimsAt(m, q)) ==> forall p :: ComesFrom(m, p) ==> Counterpart(m) == Some(p)
    ensures (forall q :: !AimsAt(m, q) && !ComesFrom(m, q)) <==> Counterpart(m) == None
  {
    var target := Party(NonEmpty(m.content.targetAgentId), m.content.targetAgentName);
    var from := Party(NonEmpty(m.content.fromAgentId), m.content.fromAgentName);
    PartyKeyExactly(target, Sender(m));
    PartyKeyExactly(from, Sender(m));
    assert Exists(target) && !SameParty(target, Sender(m)) ==> AimsAt(m, target);
    assert Exists(from) && !SameParty(from, Sender(m)) ==> ComesFrom(m, from);
  }

  /**
   * A message is quiet traffic exactly when an agent wrote it, it asks the
   * person nothing and is no memory receipt, and either a colleague wrote it or
   * it is structured work that names another party.
   */
  lemma QuietExactly(m: Message, primary: Primary)
    ensures ExchangeInfo(m, primary).Some? <==>
      m.senderType == "agent" && m.content.kind != "user_question"
      && !(m.content.kind == "memory_saved" && m.messageType == "status")
      && (ByColleague(m, primary) || (IsWork(m) && exists p :: AimsAt(m, p) || ComesFrom(m, p)))
  {
    CounterpartExactly(m);
    if Counterpart(m).Some? {
      var p := Counterpart(m).value;
      assert AimsAt(m, p) || ComesFrom(m, p);
    }
  }

  /** The two sides of a quiet message. */
  ghost predicate Sides(m: Message, primary: Primary, sender: Party, other: Party) {
    Writes(m, sender) && Faces(m, primary, other)
  }

  /** The key of a quiet message is that of its two sides, and it names their agents and its tasks. */
  lemma SidesExactly(m: Message, primary: Primary, sender: Party, other: Party)
    requires ExchangeInfo(m, primary).Some? && Sides(m, primary, sender, other)
    ensures var info := ExchangeInfo(m, primary).value;
      info.key == PairKey(PartyKey(sender), PartyKey(other))
      && (forall id :: id in info.ids <==> sender.id == Some(id) || other.id == Some(id))
      && (forall id :: id in info.taskIds <==>
            id != "" && (id == m.taskId || id == m.content.createdTaskId || id == m.content.taskId))
      && info.other == if TalksToPerson(other, primary) && !TalksToPerson(sender, primary) then sender else other
  {
    FacesExactly(m, primary, other);
    SenderExactly(m);
    assert IsPrimary(other, primary) == TalksToPerson(other, primary)
        && IsPrimary(sender, primary) == TalksToPerson(sender, primary);
    PresentExactly([sender.id, other.id]);
    TasksExactly(m);
  }

  lemma FacesExactly(m: Message, primary: Primary, other: Party)
    requires Faces(m, primary, other)
    ensures other == if Counterpart(m).Some? then Counterpart(m).value
                     else Party(primary.id, if primary.name.Some? then primary.name.value else "")
  {
    CounterpartExactly(m);
  }

  lemma TasksExactly(m: Message)
    ensures forall id ::
      id in Present([NonEmpty(m.taskId), NonEmpty(m.content.createdTaskId), NonEmpty(m.content.taskId)]) <==>
        id != "" && (id == m.taskId || id == m.content.createdTaskId || id == m.content.taskId)
  {
    PresentExactly([NonEmpty(m.taskId), NonEmpty(m.content.createdTaskId), NonEmpty(m.content.taskId)]);
  }

  lemma {:induction false} PresentExactly(ids: seq<Option<string>>)
    ensures forall id :: id in Present(ids) <==> Some(id) in ids
  {
    if ids != [] {
      PresentExactly(ids[1..]);
      assert ids == [ids[0]] + ids[1..];
    }
  }

  lemma SidesExist(m: Message, primary: Primary) returns (sender: Party, other: Party)
    ensures Sides(m, primary, sender, other)
  {
    sender := Sender(m);
    if q :| AimsAt(m, q) {
      other := q;
    } else if q :| ComesFrom(m, q) {
      other := q;
    } else {
      other := Party(primary.id, if primary.name == None then "" else primary.name.value);
    }
  }

  /* ---- when two messages belong together ---- */

  /** The same two parties, in either order. */
  predicate SamePair(p: Party, q: Party, x: Party, y: Party) {
    (SameParty(p, x) && SameParty(q, y)) || (SameParty(p, y) && SameParty(q, x))
  }

  predicate Barless(p: Party) {
    if p.id.Some? then '|' !in p.id.value else '|' !in p.name
  }

  lemma BarlessKey(p: Party)
    requires Barless(p)
    ensures '|' !in PartyKey(p)
  {
    if p.id.None? {
      forall i | 0 <= i < |p.name| ensures Lower(p.name)[i] != '|' {
        assert p.name[i] in p.name;
      }
      forall ch | ch in "name:" ensures ch != '|' {
      }
    }
  }

  /** Two quiet messages have one key exactly when the same two parties stand on their sides. */
  lemma KeysExactly(m: Message, n: Message, primary: Primary, p: Party, q: Party, x: Party, y: Party)
    requires ExchangeInfo(m, primary).Some? && Sides(m, primary, p, q)
    requires ExchangeInfo(n, primary).Some? && Sides(n, primary, x, y)
    requires Barless(p) && Barless(q)
    ensures ExchangeInfo(m, primary).value.key == ExchangeInfo(n, primary).value.key <==> SamePair(p, q, x, y)
  {
    SidesExactly(m, primary, p, q);
    SidesExactly(n, primary, x, y);
    BarlessKey(p);
    BarlessKey(q);
    PairKeyExactly(PartyKey(p), PartyKey(q), PartyKey(x), PartyKey(y));
    PartyKeyExactly(p, x);
    PartyKeyExactly(q, y);
    PartyKeyExactly(p, y);
    PartyKeyExactly(q, x);
  }
}
