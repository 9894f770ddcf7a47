/**
 * The items of a chat transcript, and which messages are quiet traffic between
 * agents. Fields of the wrong JSON type in a message's content read as the
 * empty text. Times are numbers, and lower-casing is that of ASCII.
 */
module Transcript {

  import opened Basics

  datatype Content = Content(
    kind: string,
    targetAgentId: string, targetAgentName: string,
    fromAgentId: string, fromAgentName: string,
    createdTaskId: string, taskId: string,
    status: string, verdict: string,
    clientTurnId: Option<string>)

  datatype Message = Message(
    id: string, at: int,
    senderType: string, senderId: Option<string>, messageType: string,
    agentId: Option<string>, senderName: Option<string>,
    taskId: string, runId: Option<string>,
    content: Content)

  datatype Card = Card(
    id: string, at: int, kind: string,
    actorAgentId: Option<string>, targetAgentId: Option<string>, taskId: Option<string>)

  datatype Call = Call(
    id: string, at: int, toolName: string, status: string,
    taskId: string, agentName: Option<string>, completedAt: Option<int>)

  datatype TimelineItem =
    | MessageItem(id: string, at: int, message: Message)
    | ActivityItem(id: string, at: int, card: Card)
    | ToolItem(id: string, at: int, call: Call)

  const WORK_CARD_TYPES: set<string> :=
    {"delegation", "review_request", "result", "review_result", "escalation", "question", "status"}

  const EXCHANGE_ACTIVITY_KINDS: set<string> := {"started", "queued", "finished", "failed"}

  predicate IsUserQuestion(m: Message) {
    m.content.kind == "user_question"
  }

  predicate IsReceipt(m: Message, kind: string) {
    m.content.kind == kind && m.senderType == "agent" && m.messageType == "status"
  }

  predicate IsMemorySaved(m: Message) {
    IsReceipt(m, "memory_saved")
  }

  predicate IsAgentRenamed(m: Message) {
    IsReceipt(m, "agent_renamed")
  }

  predicate IsWorkCard(m: Message) {
    !IsUserQuestion(m) && !IsMemorySaved(m) && !IsAgentRenamed(m)
    && m.senderType == "agent" && m.messageType in WORK_CARD_TYPES
  }

  /* ---- the two sides of an exchange ---- */

  datatype Party = Party(id: Option<string>, name: string)

  datatype Primary = Primary(id: Option<string>, name: Option<string>)

  datatype Info = Info(key: string, ids: seq<string>, other: Party, taskIds: seq<string>)

  function PartyKey(p: Party): string {
    if p.id.Some? then p.id.value else "name:" + Lower(p.name)
  }

  /** Text order by character codes, as the default sort compares. */
  predicate TextLe(a: string, b: string) {
    a == "" || (b != "" && (a[0] < b[0] || (a[0] == b[0] && TextLe(a[1..], b[1..]))))
  }

  function PairKey(a: string, b: string): string {
    if TextLe(a, b) then "pair:" + a + "|" + b else "pair:" + b + "|" + a
  }

  function NonEmpty(s: string): Option<string> {
    if s == "" then None else Some(s)
  }

  predicate Exists(p: Party) {
    p.id.Some? || p.name != ""
  }

  predicate IsPrimary(p: Party, primary: Primary) {
    (primary.id.Some? && p.id == primary.id)
      || (primary.name.Some? && primary.name.value != "" && p.name == primary.name.value)
  }

  function Sender(m: Message): Party {
    Party(m.agentId, if m.senderName.Some? then m.senderName.value else "")
  }

  function Present(ids: seq<Option<string>>): seq<string> {
    if ids == [] then [] else (if ids[0].Some? then [ids[0].value] else []) + Present(ids[1..])
  }

  /** The named counterpart: the target, or else the origin, when it is not the sender. */
  function Counterpart(m: Message): Option<Party> {
    var sender := Sender(m);
    var target := Party(NonEmpty(m.content.targetAgentId), m.content.targetAgentName);
    var from := Party(NonEmpty(m.content.fromAgentId), m.content.fromAgentName);
    if Exists(target) && PartyKey(target) != PartyKey(sender) then Some(target)
    else if Exists(from) && PartyKey(from) != PartyKey(sender) then Some(from)
    else None
  }

  function ExchangeInfo(m: Message, primary: Primary): Option<Info> {
    if IsUserQuestion(m) || IsMemorySaved(m) then None
    else
      var sender := Sender(m);
      var quiet := Exists(sender) && !IsPrimary(sender, primary);
      if !IsWorkCard(m) && (m.senderType != "agent" || !quiet) then None
      else if Counterpart(m).None? && !quiet then None
      else
        var counterpart := if Counterpart(m).Some? then Counterpart(m).value
                           else Party(primary.id, if primary.name.Some? then primary.name.value else "");
        var other := if IsPrimary(counterpart, primary) && !IsPrimary(sender, primary) then sender else counterpart;
        Some(Info(PairKey(PartyKey(sender), PartyKey(counterpart)),
                  Present([sender.id, counterpart.id]), other,
                  Present([NonEmpty(m.taskId), NonEmpty(m.content.createdTaskId), NonEmpty(m.content.taskId)])))
  }

  /** Quiet traffic is always written by an agent, and never a question or a memory receipt. */
  lemma QuietTraffic(m: Message, primary: Primary)
    ensures ExchangeInfo(m, primary).Some? ==>
      m.senderType == "agent" && !IsUserQuestion(m) && !IsMemorySaved(m)
  {
  }

  /* ---- exchange rows ---- */

  datatype Verdict = Ok | NeedsReview | Problem

  datatype Row =
    | Single(item: TimelineItem)
    | Exchange(id: string, at: int, items: seq<TimelineItem>, withName: string, withAgentId: Option<string>,
               count: nat, outcome: Verdict)

  function OutcomeOf(last: TimelineItem): Verdict {
    match last
    case ActivityItem(_, _, card) => if card.kind == "failed" then Problem else Ok
    case ToolItem(_, _, call) => if call.status == "failed" then Problem else Ok
    case MessageItem(_, _, m) =>
      if m.messageType == "escalation" || m.content.status == "failed" then Problem
      else if m.messageType == "review_result"
              && m.content.verdict in {"fail", "changes_requested", "escalate", "escalated"} then NeedsReview
      else Ok
  }

  function ExchangeRow(items: seq<TimelineItem>, other: Party): Row
    requires items != []
  {
    Exchange("exchange:" + items[0].id, items[0].at, items,
             if other.name == "" then "another agent" else other.name, other.id,
             |items|, OutcomeOf(items[|items| - 1]))
  }

  function RowItems(row: Row): seq<TimelineItem> {
    match row
    case Single(item) => [item]
    case Exchange(_, _, items, _, _, _, _) => items
  }

  function Expand(rows: seq<Row>): seq<TimelineItem> {
    if rows == [] then [] else RowItems(rows[0]) + Expand(rows[1..])
  }

  lemma {:induction false} ExpandConcat(a: seq<Row>, b: seq<Row>)
    ensures Expand(a + b) == Expand(a) + Expand(b)
  {
    if a == [] {
      assert a + b == b;
    } else {
      ExpandConcat(a[1..], b);
      assert (a + b)[1..] == a[1..] + b;
    }
  }
}
