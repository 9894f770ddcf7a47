/**
 * Contiguous replay: what an accepted event stream delivered, and why a
 * connection dropped half way and resumed loses and repeats nothing.
 */
module JournalReplay {

  import opened Basics

  import opened Sorting
  import opened Journal
  import opened JournalConvergence

  datatype Line = SnapshotRequired | Data(item: Item) | OtherLine

  datatype Replay = Accepted(frames: seq<Item>) | Rejected

  const FRAME_LIMIT := 20_000

  function ItemsOf(lines: seq<Line>): seq<Item> {
    if lines == [] then []
    else
      var last := lines[|lines| - 1];
      ItemsOf(lines[..|lines| - 1]) + (if last.Data? then [last.item] else [])
  }

  /** Sequences run on from `after` without a gap or a repeat. */
  ghost predicate Contiguous(frames: seq<Item>, after: int) {
    forall i :: 0 <= i < |frames| ==> frames[i].sequence == after + 1 + i
  }

  /** The first `k` lines deliver exactly the events after `after`, up to `through`. */
  ghost predicate Delivers(lines: seq<Line>, k: int, after: int, through: int) {
    0 < k <= |lines| && SnapshotRequired !in lines[..k] && lines[k - 1].Data?
    && Contiguous(ItemsOf(lines[..k]), after) && |ItemsOf(lines[..k])| == through - after
  }

  lemma ItemsStep(lines: seq<Line>, k: nat)
    requires k < |lines|
    ensures ItemsOf(lines[..k + 1]) == ItemsOf(lines[..k]) + (if lines[k].Data? then [lines[k].item] else [])
  {
    assert lines[..k + 1][..k] == lines[..k];
  }

  lemma {:induction false} ItemsPrefix(lines: seq<Line>, j: nat, k: nat)
    requires j <= k <= |lines|
    ensures ItemsOf(lines[..j]) <= ItemsOf(lines[..k])
    decreases k - j
  {
    if j < k {
      ItemsPrefix(lines, j, k - 1);
      ItemsStep(lines, k - 1);
    }
  }

  /**
   * A stream is accepted exactly when it delivers every event up to `through`
   * in order before asking for a snapshot, within the frame limit.
   */
  method Events(after: int, through: int, lines: seq<Line>) returns (r: Replay)
    ensures r.Accepted? <==>
      after == through || (0 < through - after <= FRAME_LIMIT && exists k :: Delivers(lines, k, after, through))
    ensures r.Accepted? ==> Contiguous(r.frames, after) && |r.frames| == through - after
    ensures r.Accepted? && after != through ==>
      exists k :: Delivers(lines, k, after, through) && r.frames == ItemsOf(lines[..k])
  {
    if after == through {
      return Accepted([]);
    }
    var frames: seq<Item> := [];
    var n := 0;
    while n < |lines|
      invariant 0 <= n <= |lines|
      invariant SnapshotRequired !in lines[..n] && frames == ItemsOf(lines[..n])
      invariant Contiguous(frames, after) && |frames| < FRAME_LIMIT
      invariant frames != [] ==> after + |frames| < through
      decreases |lines| - n
    {
      ItemsStep(lines, n);
      assert lines[..n + 1] == lines[..n] + [lines[n]];
      if lines[n] == SnapshotRequired {
        NothingDelivered(lines, n, after, through);
        return Rejected;
      }
      if lines[n].Data? {
        var item := lines[n].item;
        if item.sequence != after + |frames| + 1 {
          OutOfStep(lines, n, after, through);
          return Rejected;
        }
        frames := frames + [item];
        if item.sequence >= through {
          if item.sequence == through {
            assert Delivers(lines, n + 1, after, through);
            return Accepted(frames);
          }
          return Rejected;
        }
        if |frames| >= FRAME_LIMIT {
          return Rejected;
        }
      }
      n := n + 1;
    }
    assert lines[..n] == lines;
    if exists k :: Delivers(lines, k, after, through) {
      var k :| Delivers(lines, k, after, through);
      ItemsPrefix(lines, k, n);
      assert false;
    }
    return Rejected;
  }

  /** No prefix that reaches the `n`-th line, a request for a snapshot, delivers anything. */
  lemma NothingDelivered(lines: seq<Line>, n: nat, after: int, through: int)
    requires n < |lines| && lines[n] == SnapshotRequired
    requires ItemsOf(lines[..n]) != [] ==> after + |ItemsOf(lines[..n])| < through
    ensures 0 < through - after ==> forall k :: !Delivers(lines, k, after, through)
  {
    forall k | 0 < through - after ensures !Delivers(lines, k, after, through) {
      assert n < k <= |lines| ==> lines[..k][n] == SnapshotRequired;
      if 0 < k <= n {
        ItemsPrefix(lines, k, n);
      }
    }
  }

  /** Nor does one that holds an event out of step. */
  lemma OutOfStep(lines: seq<Line>, n: nat, after: int, through: int)
    requires n < |lines| && lines[n].Data? && lines[n].item.sequence != after + |ItemsOf(lines[..n])| + 1
    requires ItemsOf(lines[..n]) != [] ==> after + |ItemsOf(lines[..n])| < through
    ensures 0 < through - after ==> forall k :: !Delivers(lines, k, after, through)
  {
    forall k | 0 < through - after ensures !Delivers(lines, k, after, through) {
      if 0 < k <= n {
        ItemsPrefix(lines, k, n);
      } else if n < k <= |lines| {
        ItemsStep(lines, n);
        ItemsPrefix(lines, n + 1, k);
        assert ItemsOf(lines[..k])[|ItemsOf(lines[..n])|] == lines[n].item;
      }
    }
  }

  /* ---- a dropped and resumed connection ---- */

  /** The server's log: the event at position `i` carries sequence `i + 1`. */
  ghost predicate Log(log: seq<Item>) {
    Contiguous(log, 0)
  }

  lemma ReplayedSlice(log: seq<Item>, frames: seq<Item>, after: nat, through: nat)
    requires Log(log) && after <= through <= |log|
    requires Contiguous(frames, after) && |frames| == through - after && forall x :: x in frames ==> x in log
    ensures frames == log[after..through]
  {
    forall i | 0 <= i < |frames| ensures frames[i] == log[after..through][i] {
      assert frames[i] in log;
      var j :| 0 <= j < |log| && log[j] == frames[i];
    }
  }

  /** Two accepted replays of one log, the second from where the first stopped, are the log itself. */
  lemma ResumedReplay(log: seq<Item>, first: seq<Item>, second: seq<Item>, midpoint: nat, cursor: nat)
    requires Log(log) && midpoint <= cursor <= |log|
    requires Contiguous(first, 0) && |first| == midpoint && forall x :: x in first ==> x in log
    requires Contiguous(second, midpoint) && |second| == cursor - midpoint && forall x :: x in second ==> x in log
    ensures first + second == log[..cursor]
  {
    ReplayedSlice(log, first, 0, midpoint);
    ReplayedSlice(log, second, midpoint, cursor);
  }

  /**
   * The acceptance script's fold over a resumed replay and any client that saw the same
   * log, in any batches, agree item by item exactly when no id ends below its highest
   * revision.
   */
  lemma ReplayAgreesWithClient(le: TextOrder, log: seq<Item>, first: seq<Item>, second: seq<Item>, midpoint: nat,
      cursor: nat, batches: seq<seq<Item>>, states: seq<seq<Item>>)
    requires Log(log) && midpoint <= cursor <= |log|
    requires Contiguous(first, 0) && |first| == midpoint && forall x :: x in first ==> x in log
    requires Contiguous(second, midpoint) && |second| == cursor - midpoint && forall x :: x in second ==> x in log
    requires Run(le, batches, states) && Seen(batches) == Elements(log[..cursor])
    ensures Shows(le, states[|batches|], Overwrite(first + second)) <==> LastIsHighest(log[..cursor])
  {
    ResumedReplay(log, first, second, midpoint, cursor);
    assert Ascending(log[..cursor]);
    ClientAgreesWithOverwrite(le, log[..cursor], batches, states);
  }
}
