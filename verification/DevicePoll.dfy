/**
 * Polling a device authorization: the interval callback, and the backoff of
 * section 3.5 of RFC 8628 over whole runs.
 */
module DevicePoll {
  import opened Basics

  const SLOW_DOWN_STEP_MS := 5000

  datatype Response = Response(status: string, intervalSeconds: Option<int>)

  function Max(a: int, b: int): int {
    if a >= b then a else b
  }

  predicate Terminal(status: string) {
    status == "connected" || status == "denied" || status == "expired"
  }

  /** No shorter than the base and than what the server asks for, and the backoff on top of either. */
  predicate LongEnough(baseMs: int, data: Option<Response>, backoffMs: int, ms: int) {
    ms >= Max(0, backoffMs) && ms >= baseMs + Max(0, backoffMs)
    && (data.Some? && data.value.intervalSeconds.Some? ==>
          ms >= data.value.intervalSeconds.value * 1000 + Max(0, backoffMs))
  }

  /** How long to wait for the next poll: the shortest time that is long enough, and none after a terminal status. */
  function DevicePollDelayMs(baseMs: int, data: Option<Response>, backoffMs: int): (delay: Option<int>)
    ensures delay == None <==> data.Some? && Terminal(data.value.status)
    ensures delay.Some? ==> LongEnough(baseMs, data, backoffMs, delay.value)
    ensures delay.Some? ==> forall ms :: LongEnough(baseMs, data, backoffMs, ms) ==> delay.value <= ms
  {
    if data.Some? && Terminal(data.value.status) then None
    else
      var seconds := if data.Some? && data.value.intervalSeconds.Some? then data.value.intervalSeconds.value else 0;
      Some(Max(baseMs, Max(0, seconds) * 1000) + Max(0, backoffMs))
  }

  /** The two refs of the callback. */
  datatype Refs = Refs(backoffMs: int, handledAt: int)

  const START := Refs(0, 0)

  /** What one evaluation leaves in the refs: a `slow_down` counts unless it was the last one counted. */
  function Evaluated(refs: Refs, data: Option<Response>, updatedAt: int): Refs {
    if data.Some? && data.value.status == "slow_down" && updatedAt != refs.handledAt
    then Refs(refs.backoffMs + SLOW_DOWN_STEP_MS, updatedAt)
    else refs
  }

  class Poller {
    const intervalMs: int
    var backoffMs: int
    var handledAt: int

    constructor (intervalMs: int)
      ensures this.intervalMs == intervalMs && Refs(backoffMs, handledAt) == START
    {
      this.intervalMs := intervalMs;
      backoffMs := 0;
      handledAt := 0;
    }

    /** The interval callback, run any number of times for one state of the query. */
    method RefetchInterval(data: Option<Response>, dataUpdatedAt: int) returns (delay: Option<int>)
      modifies this
      ensures Refs(backoffMs, handledAt) == Evaluated(old(Refs(backoffMs, handledAt)), data, dataUpdatedAt)
      ensures delay == DevicePollDelayMs(intervalMs, data, backoffMs)
      ensures old(backoffMs) <= backoffMs
    {
      if data.Some? && data.value.status == "slow_down" && dataUpdatedAt != handledAt {
        handledAt := dataUpdatedAt;
        backoffMs := backoffMs + SLOW_DOWN_STEP_MS;
      }
      delay := DevicePollDelayMs(intervalMs, data, backoffMs);
    }
  }

  /* ---- whole runs ---- */

  /** One response: when the query stored it, how often the callback ran on it, and how long after the
      last of these runs the next poll started. */
  datatype Turn = Turn(response: Response, updatedAt: int, evaluations: nat, waitedMs: int)

  function EvaluatedTimes(refs: Refs, turn: Turn, n: nat): Refs {
    if n == 0 then refs else Evaluated(EvaluatedTimes(refs, turn, n - 1), Some(turn.response), turn.updatedAt)
  }

  /** The refs after all evaluations of these turns. */
  function After(turns: seq<Turn>): Refs
    decreases |turns|
  {
    if turns == [] then START
    else
      var turn := turns[|turns| - 1];
      EvaluatedTimes(After(turns[..|turns| - 1]), turn, turn.evaluations)
  }

  predicate Slow(turn: Turn) {
    turn.response.status == "slow_down"
  }

  function SlowTurns(turns: seq<Turn>): nat
    decreases |turns|
  {
    if turns == [] then 0
    else SlowTurns(turns[..|turns| - 1]) + (if Slow(turns[|turns| - 1]) then 1 else 0)
  }

  /** The update time of the last `slow_down`; 0 before any. */
  function LastSlow(turns: seq<Turn>): int
    decreases |turns|
  {
    if turns == [] then 0
    else if Slow(turns[|turns| - 1]) then turns[|turns| - 1].updatedAt
    else LastSlow(turns[..|turns| - 1])
  }

  /** Every `slow_down` is stored at another time than the one before it, the first at another time
      than 0. */
  predicate TimesDiffer(turns: seq<Turn>)
    decreases |turns|
  {
    turns == [] ||
    (TimesDiffer(turns[..|turns| - 1])
     && (Slow(turns[|turns| - 1]) ==> turns[|turns| - 1].updatedAt != LastSlow(turns[..|turns| - 1])))
  }

  predicate AllEvaluated(turns: seq<Turn>) {
    forall i :: 0 <= i < |turns| ==> turns[i].evaluations > 0
  }

  /** However often the callback runs on one response, it counts once. */
  lemma {:induction false} EvaluationsCountOnce(refs: Refs, turn: Turn, n: nat)
    requires n > 0
    ensures EvaluatedTimes(refs, turn, n) == Evaluated(refs, Some(turn.response), turn.updatedAt)
  {
    if n > 1 {
      EvaluationsCountOnce(refs, turn, n - 1);
    }
  }

  lemma {:induction false} BackoffBound(turns: seq<Turn>)
    requires AllEvaluated(turns)
    ensures After(turns).handledAt == LastSlow(turns)
    ensures 0 <= After(turns).backoffMs <= SLOW_DOWN_STEP_MS * SlowTurns(turns)
    decreases |turns|
  {
    if turns != [] {
      var n := |turns| - 1;
      BackoffBound(turns[..n]);
      EvaluationsCountOnce(After(turns[..n]), turns[n], turns[n].evaluations);
    }
  }

  /** The backoff is five seconds for each `slow_down` response exactly when no two successive ones were
      stored at the same time. */
  lemma {:induction false} BackoffExactly(turns: seq<Turn>)
    requires AllEvaluated(turns)
    ensures After(turns).backoffMs == SLOW_DOWN_STEP_MS * SlowTurns(turns) <==> TimesDiffer(turns)
    decreases |turns|
  {
    if turns != [] {
      var n := |turns| - 1;
      BackoffExactly(turns[..n]);
      BackoffBound(turns[..n]);
      EvaluationsCountOnce(After(turns[..n]), turns[n], turns[n].evaluations);
    }
  }

  /** The backoff never comes back down. */
  lemma {:induction false} BackoffGrows(turns: seq<Turn>, i: nat)
    requires AllEvaluated(turns) && i <= |turns|
    ensures After(turns[..i]).backoffMs <= After(turns).backoffMs
    decreases |turns| - i
  {
    if i == |turns| {
      assert turns[..i] == turns;
    } else {
      BackoffGrows(turns, i + 1);
      assert turns[..i + 1][..i] == turns[..i];
      EvaluationsCountOnce(After(turns[..i]), turns[i], turns[i].evaluations);
    }
  }

  /** The delay the last evaluation of turn `i` gave. */
  function DelayAt(baseMs: int, turns: seq<Turn>, i: nat): Option<int>
    requires i < |turns|
  {
    DevicePollDelayMs(baseMs, Some(turns[i].response), After(turns[..i + 1]).backoffMs)
  }

  /** A run: every response but the last gave a delay and was followed by a poll no sooner. */
  predicate Run(baseMs: int, turns: seq<Turn>) {
    && AllEvaluated(turns)
    && forall i :: 0 <= i < |turns| - 1 ==>
      DelayAt(baseMs, turns, i).Some? && turns[i].waitedMs >= DelayAt(baseMs, turns, i).value
  }

  /** The clock of the query runs: it starts above 0, and a response is stored no sooner than the wait
      before its poll has passed. */
  predicate ClockRuns(turns: seq<Turn>) {
    && (turns != [] ==> turns[0].updatedAt > 0)
    && forall i :: 0 < i < |turns| ==> turns[i].updatedAt >= turns[i - 1].updatedAt + turns[i - 1].waitedMs
  }

  lemma RunBefore(baseMs: int, turns: seq<Turn>, n: nat)
    requires Run(baseMs, turns) && ClockRuns(turns) && n <= |turns|
    ensures Run(baseMs, turns[..n]) && ClockRuns(turns[..n])
  {
    forall i: nat | i < n - 1 ensures DelayAt(baseMs, turns[..n], i) == DelayAt(baseMs, turns, i) {
      assert turns[..n][..i + 1] == turns[..i + 1];
    }
  }

  /** A response is stored later than every `slow_down` before it. */
  lemma {:induction false} StoredLater(baseMs: int, turns: seq<Turn>, n: nat)
    requires Run(baseMs, turns) && ClockRuns(turns) && n < |turns|
    ensures LastSlow(turns[..n]) < turns[n].updatedAt
    decreases n
  {
    if n > 0 {
      StoredLater(baseMs, turns, n - 1);
      var turn := turns[n - 1];
      assert turns[..n][..n - 1] == turns[..n - 1];
      BackoffBound(turns[..n - 1]);
      EvaluationsCountOnce(After(turns[..n - 1]), turn, turn.evaluations);
      assert DelayAt(baseMs, turns, n - 1).Some? && turn.waitedMs >= After(turns[..n]).backoffMs;
    }
  }

  /** While the clock runs, no two successive `slow_down` responses are stored at the same time. */
  lemma {:induction false} ClockSeparates(baseMs: int, turns: seq<Turn>)
    requires Run(baseMs, turns) && ClockRuns(turns)
    ensures TimesDiffer(turns)
    decreases |turns|
  {
    if turns != [] {
      RunBefore(baseMs, turns, |turns| - 1);
      ClockSeparates(baseMs, turns[..|turns| - 1]);
      StoredLater(baseMs, turns, |turns| - 1);
    }
  }

  /** Over any run while the clock runs: a terminal status is never polled again, and each poll waits the
      base interval, or the server's if that is longer, and five seconds for every `slow_down` so far. */
  lemma PollsKeepTheirDistance(baseMs: int, turns: seq<Turn>, i: nat)
    requires Run(baseMs, turns) && ClockRuns(turns) && i + 1 < |turns|
    ensures !Terminal(turns[i].response.status)
    ensures turns[i].waitedMs >= baseMs + SLOW_DOWN_STEP_MS * SlowTurns(turns[..i + 1])
    ensures turns[i].response.intervalSeconds.Some? ==>
      turns[i].waitedMs >= turns[i].response.intervalSeconds.value * 1000
        + SLOW_DOWN_STEP_MS * SlowTurns(turns[..i + 1])
  {
    RunBefore(baseMs, turns, i + 1);
    ClockSeparates(baseMs, turns[..i + 1]);
    BackoffBound(turns[..i + 1]);
    BackoffExactly(turns[..i + 1]);
    assert DelayAt(baseMs, turns, i).Some?;
  }

  /** Three `slow_down` responses, each polled for after the delay asked for. */
  function SetBack(baseMs: nat, at: int): seq<Turn> {
    var turn := Turn(Response("slow_down", None), at, 1, baseMs + SLOW_DOWN_STEP_MS);
    [turn, turn, turn]
  }

  lemma SetBackRefs(baseMs: nat, at: int)
    requires at != 0
    ensures var turns := SetBack(baseMs, at);
      After(turns[..1]) == After(turns[..2]) == After(turns[..3]) == Refs(SLOW_DOWN_STEP_MS, at)
      && SlowTurns(turns[..2]) == 2 && SlowTurns(turns[..3]) == 3
  {
    var turns := SetBack(baseMs, at);
    EvaluationsCountOnce(START, turns[0], 1);
    EvaluationsCountOnce(Refs(SLOW_DOWN_STEP_MS, at), turns[0], 1);
    assert turns[..1][..0] == [] && turns[..2][..1] == turns[..1] && turns[..3][..2] == turns[..2];
    assert After(turns[..1]) == EvaluatedTimes(START, turns[0], 1) == Refs(SLOW_DOWN_STEP_MS, at);
    assert SlowTurns(turns[..1]) == 1;
  }

  /** With a clock set back so that successive responses carry one time, a run polls too soon. */
  lemma SetBackPollsTooSoon(baseMs: nat, at: int)
    requires at != 0
    ensures var turns := SetBack(baseMs, at);
      && Run(baseMs, turns) && !ClockRuns(turns) && !TimesDiffer(turns)
      && turns[1].waitedMs < baseMs + SLOW_DOWN_STEP_MS * SlowTurns(turns[..2])
  {
    var turns := SetBack(baseMs, at);
    SetBackRefs(baseMs, at);
    assert turns[..3] == turns;
    BackoffExactly(turns);
    assert turns[1].updatedAt < turns[0].updatedAt + turns[0].waitedMs;
  }
}
