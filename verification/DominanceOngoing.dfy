/**
 * Executions that have not ended: what they have shown begins one that ends.
 *
 * `SoFar` says where an execution stands, whether or not it will ever end:
 * finished statements and iterations, then a part of the statement it is in. From
 * there it can be brought to an end, so soundness over executions that end covers
 * those that run for ever.
 */
module DominanceOngoing {

  import opened Dominance
  import opened DominanceSound

  datatype BlockSoFar = Outside | Inside(done: seq<Run>, current: SoFar)

  datatype SoFar =
    | NotReached
    | Begun
    | InBranch(holds: bool, branch: BlockSoFar)
    | InLoop(iterations: seq<BlockRun>, part: BlockSoFar)
    | InLoopElse(iterations: seq<BlockRun>, part: BlockSoFar)
    | InTry(part: BlockSoFar)
    | InElse(body: BlockRun, part: BlockSoFar)
    | InHandler(body: BlockRun, which: nat, part: BlockSoFar)
    | InFinally(body: BlockRun, after: After, part: BlockSoFar)
    | InWith(part: BlockSoFar)

  /* ---- where an execution can stand ---- */

  ghost predicate EndsAt(steps: seq<Run>, ss: seq<Stmt>, i: nat)
    requires i < |steps| <= |ss|
  {
    RunsStatement(steps[i], ss[i]) && RunOutcome(steps[i]) == Normal
  }

  ghost predicate AllEnd(steps: seq<Run>, ss: seq<Stmt>) {
    |steps| <= |ss| && forall i: nat :: i < |steps| ==> EndsAt(steps, ss, i)
  }

  ghost predicate StandsInBlock(p: BlockSoFar, ss: seq<Stmt>)
    decreases p
  {
    p.Outside? || (
      && AllEnd(p.done, ss)
      && (if |p.done| < |ss| then Stands(p.current, ss[|p.done|]) else p.current.NotReached?))
  }

  ghost predicate Passes(iterations: seq<BlockRun>, body: seq<Stmt>) {
    forall i :: 0 <= i < |iterations| ==>
      RunsBlock(iterations[i], body) && BlockOutcome(iterations[i]) in {Normal, Continue}
  }

  /** What follows the body of a try once that has ended. */
  ghost predicate Follows(after: After, body: BlockRun, s: Stmt)
    requires s.Try?
  {
    match after
    case NoPart => BlockOutcome(body) != Normal
    case ElsePart(orelse) => BlockOutcome(body) == Normal && RunsBlock(orelse, s.orelse)
    case Handled(which, handler) =>
      BlockOutcome(body) == Raise && which < |s.handlers| && RunsBlock(handler, s.handlers[which])
  }

  ghost predicate Stands(g: SoFar, s: Stmt)
    decreases g
  {
    match (g, s)
    case (NotReached, _) => true
    case (Begun, _) => true
    case (InBranch(holds, branch), If(body, orelse)) => StandsInBlock(branch, if holds then body else orelse)
    case (InLoop(iterations, part), Loop(body, _)) => Passes(iterations, body) && StandsInBlock(part, body)
    case (InLoopElse(iterations, part), Loop(body, orelse)) => Passes(iterations, body) && StandsInBlock(part, orelse)
    case (InTry(part), Try(body, _, _, _)) => StandsInBlock(part, body)
    case (InElse(b, part), Try(body, _, orelse, _)) =>
      RunsBlock(b, body) && BlockOutcome(b) == Normal && StandsInBlock(part, orelse)
    case (InHandler(b, which, part), Try(body, handlers, _, _)) =>
      RunsBlock(b, body) && BlockOutcome(b) == Raise && which < |handlers| && StandsInBlock(part, handlers[which])
    case (InFinally(b, after, part), Try(body, _, _, finalbody)) =>
      RunsBlock(b, body) && Follows(after, b, s) && StandsInBlock(part, finalbody)
    case (InWith(part), With(body)) => StandsInBlock(part, body)
    case (_, _) => false
  }

  /* ---- what it has shown ---- */

  function ShownInBlock(p: BlockSoFar, c: Address, f: FieldName): Trace
    decreases p
  {
    match p
    case Outside => []
    case Inside(done, current) =>
      [Enter(c, f)] + StepsTrace(BlockRun(done), c, f, |done|) + Shown(current, c + [Step(f, |done|)])
  }

  function Passed(iterations: seq<BlockRun>, a: Address): Trace {
    IterationsTrace(LoopRun(iterations, TestRaised), |iterations|, a)
  }

  function AfterTrace(after: After, a: Address): Trace {
    match after
    case NoPart => []
    case ElsePart(orelse) => BlockTrace(orelse, a, OrElse)
    case Handled(which, handler) => BlockTrace(handler, a + [Step(Handlers, which)], Body)
  }

  function Shown(g: SoFar, a: Address): Trace
    decreases g
  {
    match g
    case NotReached => []
    case Begun => [At(a)]
    case InBranch(holds, branch) => [At(a)] + ShownInBlock(branch, a, if holds then Body else OrElse)
    case InLoop(iterations, part) => Passed(iterations, a) + [At(a)] + ShownInBlock(part, a, Body)
    case InLoopElse(iterations, part) => Passed(iterations, a) + ([At(a)] + ShownInBlock(part, a, OrElse))
    case InTry(part) => [At(a)] + ShownInBlock(part, a, Body)
    case InElse(b, part) => [At(a)] + BlockTrace(b, a, Body) + ShownInBlock(part, a, OrElse)
    case InHandler(b, which, part) =>
      [At(a)] + BlockTrace(b, a, Body) + ShownInBlock(part, a + [Step(Handlers, which)], Body)
    case InFinally(b, after, part) =>
      [At(a)] + BlockTrace(b, a, Body) + AfterTrace(after, a) + ShownInBlock(part, a, FinalBody)
    case InWith(part) => [At(a)] + ShownInBlock(part, a, Body)
  }

  /* ---- bringing it to an end ---- */

  ghost function EndBlock(p: BlockSoFar, ss: seq<Stmt>): BlockRun
    requires StandsInBlock(p, ss)
    decreases p
  {
    if p.Outside? then PlainBlock(ss)
    else if |p.done| == |ss| then BlockRun(p.done)
    else
      var r := End(p.current, ss[|p.done|]);
      BlockRun(p.done + [r] + (if RunOutcome(r) == Normal then PlainBlock(ss).steps[|p.done| + 1..] else []))
  }

  ghost function End(g: SoFar, s: Stmt): Run
    requires Stands(g, s)
    decreases g
  {
    match g
    case NotReached => PlainRun(s)
    case Begun => PlainRun(s)
    case InBranch(holds, branch) => IfRun(holds, EndBlock(branch, if holds then s.body else s.orelse))
    case InLoop(iterations, part) =>
      var b := EndBlock(part, s.body);
      LoopRun(iterations + [b], if BlockOutcome(b) in {Normal, Continue} then TestRaised else LeftBody)
    case InLoopElse(iterations, part) => LoopRun(iterations, Exhausted(EndBlock(part, s.orelse)))
    case InTry(part) =>
      var b := EndBlock(part, s.body);
      TryRun(b, if BlockOutcome(b) == Normal then ElsePart(PlainBlock(s.orelse)) else NoPart, PlainBlock(s.finalbody))
    case InElse(b, part) => TryRun(b, ElsePart(EndBlock(part, s.orelse)), PlainBlock(s.finalbody))
    case InHandler(b, which, part) =>
      TryRun(b, Handled(which, EndBlock(part, s.handlers[which])), PlainBlock(s.finalbody))
    case InFinally(b, after, part) => TryRun(b, after, EndBlock(part, s.finalbody))
    case InWith(part) => WithRun(EndBlock(part, s.body), false)
  }

  lemma {:induction false} EndBlockRuns(p: BlockSoFar, ss: seq<Stmt>)
    requires StandsInBlock(p, ss)
    ensures RunsBlock(EndBlock(p, ss), ss)
    decreases p
  {
    if p.Outside? {
      PlainBlockRuns(ss);
    } else if |p.done| < |ss| {
      EndRuns(p.current, ss[|p.done|]);
      StepsRun(p.done, End(p.current, ss[|p.done|]), ss);
    } else {
      AllEndRuns(p.done, ss);
    }
  }

  lemma AllEndRuns(steps: seq<Run>, ss: seq<Stmt>)
    requires AllEnd(steps, ss) && |steps| == |ss|
    ensures RunsBlock(BlockRun(steps), ss)
  {
    forall i: nat | i < |steps| ensures RunsStatement(steps[i], ss[i]) && RunOutcome(steps[i]) == Normal {
      assert EndsAt(steps, ss, i);
    }
  }

  lemma LastStops(done: seq<Run>, r: Run, ss: seq<Stmt>)
    requires AllEnd(done, ss) && |done| < |ss| && RunsStatement(r, ss[|done|]) && RunOutcome(r) != Normal
    ensures RunsBlock(BlockRun(done + [r]), ss)
  {
    forall i: nat | i < |done| ensures RunsStatement((done + [r])[i], ss[i]) && RunOutcome((done + [r])[i]) == Normal {
      assert EndsAt(done, ss, i);
    }
  }

  lemma GoesOn(done: seq<Run>, r: Run, ss: seq<Stmt>, steps: seq<Run>)
    requires AllEnd(done, ss) && |done| < |ss| && RunsStatement(r, ss[|done|]) && RunOutcome(r) == Normal
    requires steps == done + [r] + PlainBlock(ss).steps[|done| + 1..]
    ensures AllEnd(steps, ss) && |steps| == |ss|
  {
    forall i: nat | i < |steps| ensures EndsAt(steps, ss, i) {
      if i < |done| {
        assert EndsAt(done, ss, i) && steps[i] == done[i];
      } else if i > |done| {
        assert steps[i] == PlainBlock(ss).steps[i];
        PlainRunRuns(ss[i]);
      }
    }
  }

  /** Finished statements, one more, and if that ends normally the rest of the list. */
  lemma StepsRun(done: seq<Run>, r: Run, ss: seq<Stmt>)
    requires AllEnd(done, ss) && |done| < |ss| && RunsStatement(r, ss[|done|])
    ensures RunsBlock(BlockRun(done + [r]
      + (if RunOutcome(r) == Normal then PlainBlock(ss).steps[|done| + 1..] else [])), ss)
  {
    if RunOutcome(r) == Normal {
      var steps := done + [r] + PlainBlock(ss).steps[|done| + 1..];
      GoesOn(done, r, ss, steps);
      AllEndRuns(steps, ss);
    } else {
      assert done + [r] + [] == done + [r];
      LastStops(done, r, ss);
    }
  }

  lemma {:induction false} EndRuns(g: SoFar, s: Stmt)
    requires Stands(g, s)
    ensures RunsStatement(End(g, s), s)
    decreases g
  {
    match g
    case NotReached => PlainRunRuns(s);
    case Begun => PlainRunRuns(s);
    case InBranch(holds, branch) => EndBlockRuns(branch, if holds then s.body else s.orelse);
    case InLoop(iterations, part) => EndBlockRuns(part, s.body);
    case InLoopElse(iterations, part) => EndBlockRuns(part, s.orelse);
    case InTry(part) =>
      EndBlockRuns(part, s.body);
      PlainBlockRuns(s.orelse);
      PlainBlockRuns(s.finalbody);
    case InElse(_, part) =>
      EndBlockRuns(part, s.orelse);
      PlainBlockRuns(s.finalbody);
    case InHandler(_, which, part) =>
      EndBlockRuns(part, s.handlers[which]);
      PlainBlockRuns(s.finalbody);
    case InFinally(_, _, part) => EndBlockRuns(part, s.finalbody);
    case InWith(part) => EndBlockRuns(part, s.body);
  }

  /* ---- what was shown is a beginning of what the ended execution shows ---- */

  lemma Lengthen(x: Trace, u: Trace, v: Trace)
    requires u <= v
    ensures x + u <= x + v
  {
  }

  lemma Append(u: Trace, v: Trace, w: Trace)
    requires u <= v
    ensures u <= v + w
  {
  }

  lemma {:induction false} SameSteps(b: BlockRun, d: BlockRun, c: Address, f: FieldName, n: nat)
    requires n <= |b.steps| && n <= |d.steps| && b.steps[..n] == d.steps[..n]
    ensures StepsTrace(b, c, f, n) == StepsTrace(d, c, f, n)
    decreases n
  {
    if n > 0 {
      assert b.steps[..n - 1] == b.steps[..n][..n - 1] == d.steps[..n - 1];
      assert b.steps[n - 1] == b.steps[..n][n - 1] == d.steps[n - 1];
      SameSteps(b, d, c, f, n - 1);
    }
  }

  lemma {:induction false} StepsGrow(b: BlockRun, c: Address, f: FieldName, n: nat, m: nat)
    requires n <= m <= |b.steps|
    ensures StepsTrace(b, c, f, n) <= StepsTrace(b, c, f, m)
    decreases m - n
  {
    if n < m {
      StepsGrow(b, c, f, n, m - 1);
    }
  }

  lemma {:induction false} SameIterations(r: Run, q: Run, n: nat, a: Address)
    requires r.LoopRun? && q.LoopRun? && n <= |r.iterations| && n <= |q.iterations|
      && r.iterations[..n] == q.iterations[..n]
    ensures IterationsTrace(r, n, a) == IterationsTrace(q, n, a)
    decreases n
  {
    if n > 0 {
      assert r.iterations[..n - 1] == r.iterations[..n][..n - 1] == q.iterations[..n - 1];
      assert r.iterations[n - 1] == r.iterations[..n][n - 1] == q.iterations[n - 1];
      SameIterations(r, q, n - 1, a);
    }
  }

  lemma NextStep(r: Run, a: Address, u: Trace)
    requires u <= RunTrace(r, a)
    ensures u <= StepTrace(r, a)
  {
    Append(u, RunTrace(r, a), if RunOutcome(r) == Normal then [Done(a)] else []);
  }

  lemma StepsBegin(b: BlockRun, n: nat, u: Trace, c: Address, f: FieldName)
    requires n < |b.steps| && u <= RunTrace(b.steps[n], c + [Step(f, n)])
    ensures StepsTrace(b, c, f, n) + u <= StepsTrace(b, c, f, |b.steps|)
  {
    NextStep(b.steps[n], c + [Step(f, n)], u);
    Lengthen(StepsTrace(b, c, f, n), u, StepTrace(b.steps[n], c + [Step(f, n)]));
    StepsGrow(b, c, f, n + 1, |b.steps|);
    BeginningOfBeginning(StepsTrace(b, c, f, n) + u, StepsTrace(b, c, f, n + 1), StepsTrace(b, c, f, |b.steps|));
  }

  lemma BeginningOfBeginning(u: Trace, v: Trace, w: Trace)
    requires u <= v && v <= w
    ensures u <= w
  {
  }

  lemma Regroup(x: Trace, y: Trace, z: Trace)
    ensures x + y + z == x + (y + z)
  {
  }

  /** Finished steps and a part of the next, as the beginning of a block. */
  lemma BlockBegins(b: BlockRun, done: seq<Run>, u: Trace, c: Address, f: FieldName)
    requires |done| < |b.steps| && b.steps[..|done|] == done && u <= RunTrace(b.steps[|done|], c + [Step(f, |done|)])
    ensures [Enter(c, f)] + StepsTrace(BlockRun(done), c, f, |done|) + u <= BlockTrace(b, c, f)
  {
    var n := |done|;
    assert BlockRun(done).steps[..n] == done;
    SameSteps(b, BlockRun(done), c, f, n);
    StepsBegin(b, n, u, c, f);
    Lengthen([Enter(c, f)], StepsTrace(b, c, f, n) + u, StepsTrace(b, c, f, |b.steps|));
    Regroup([Enter(c, f)], StepsTrace(b, c, f, n), u);
  }

  lemma {:induction false} BlockShown(p: BlockSoFar, ss: seq<Stmt>, c: Address, f: FieldName)
    requires StandsInBlock(p, ss)
    ensures ShownInBlock(p, c, f) <= BlockTrace(EndBlock(p, ss), c, f)
    decreases p
  {
    if p.Inside? {
      var n, b := |p.done|, EndBlock(p, ss);
      if n < |ss| {
        StatementShown(p.current, ss[n], c + [Step(f, n)]);
        assert b.steps[..n] == p.done && b.steps[n] == End(p.current, ss[n]);
        BlockBegins(b, p.done, Shown(p.current, c + [Step(f, n)]), c, f);
      } else {
        assert Shown(p.current, c + [Step(f, n)]) == [];
      }
    }
  }

  lemma {:induction false} StatementShown(g: SoFar, s: Stmt, a: Address)
    requires Stands(g, s)
    ensures Shown(g, a) <= RunTrace(End(g, s), a)
    decreases g, 1
  {
    match g
    case NotReached =>
    case Begun => PlainBegins(s, a);
    case InBranch(holds, branch) => BranchShown(holds, branch, s, a);
    case InLoop(iterations, part) => LoopShown(iterations, part, s, a);
    case InLoopElse(iterations, part) => LoopElseShown(iterations, part, s, a);
    case InTry(part) => TryShown(part, s, a);
    case InElse(b, part) => ElseShown(b, part, s, a);
    case InHandler(b, which, part) => HandlerShown(b, which, part, s, a);
    case InFinally(b, after, part) => FinallyShown(b, after, part, s, a);
    case InWith(part) => WithShown(part, s, a);
  }

  lemma {:induction false} BranchShown(holds: bool, branch: BlockSoFar, s: Stmt, a: Address)
    requires Stands(InBranch(holds, branch), s)
    ensures Shown(InBranch(holds, branch), a) <= RunTrace(End(InBranch(holds, branch), s), a)
    decreases InBranch(holds, branch), 0
  {
    var f, ss := if holds then Body else OrElse, if holds then s.body else s.orelse;
    BlockShown(branch, ss, a, f);
    Lengthen([At(a)], ShownInBlock(branch, a, f), BlockTrace(EndBlock(branch, ss), a, f));
  }

  lemma {:induction false} TryShown(part: BlockSoFar, s: Stmt, a: Address)
    requires Stands(InTry(part), s)
    ensures Shown(InTry(part), a) <= RunTrace(End(InTry(part), s), a)
    decreases InTry(part), 0
  {
    BlockShown(part, s.body, a, Body);
    TryBegins(End(InTry(part), s), a, ShownInBlock(part, a, Body));
  }

  lemma {:induction false} ElseShown(b: BlockRun, part: BlockSoFar, s: Stmt, a: Address)
    requires Stands(InElse(b, part), s)
    ensures Shown(InElse(b, part), a) <= RunTrace(End(InElse(b, part), s), a)
    decreases InElse(b, part), 0
  {
    BlockShown(part, s.orelse, a, OrElse);
    MiddleBegins(End(InElse(b, part), s), a, ShownInBlock(part, a, OrElse));
  }

  lemma {:induction false} HandlerShown(b: BlockRun, which: nat, part: BlockSoFar, s: Stmt, a: Address)
    requires Stands(InHandler(b, which, part), s)
    ensures Shown(InHandler(b, which, part), a) <= RunTrace(End(InHandler(b, which, part), s), a)
    decreases InHandler(b, which, part), 0
  {
    var h := a + [Step(Handlers, which)];
    BlockShown(part, s.handlers[which], h, Body);
    MiddleBegins(End(InHandler(b, which, part), s), a, ShownInBlock(part, h, Body));
  }

  lemma {:induction false} FinallyShown(b: BlockRun, after: After, part: BlockSoFar, s: Stmt, a: Address)
    requires Stands(InFinally(b, after, part), s)
    ensures Shown(InFinally(b, after, part), a) <= RunTrace(End(InFinally(b, after, part), s), a)
    decreases InFinally(b, after, part), 0
  {
    BlockShown(part, s.finalbody, a, FinalBody);
    TryTrace(End(InFinally(b, after, part), s), a);
    Lengthen([At(a)] + BlockTrace(b, a, Body) + AfterTrace(after, a), ShownInBlock(part, a, FinalBody),
             BlockTrace(EndBlock(part, s.finalbody), a, FinalBody));
  }

  lemma {:induction false} WithShown(part: BlockSoFar, s: Stmt, a: Address)
    requires Stands(InWith(part), s)
    ensures Shown(InWith(part), a) <= RunTrace(End(InWith(part), s), a)
    decreases InWith(part), 0
  {
    BlockShown(part, s.body, a, Body);
    Lengthen([At(a)], ShownInBlock(part, a, Body), BlockTrace(EndBlock(part, s.body), a, Body));
  }

  lemma PlainBegins(s: Stmt, a: Address)
    ensures [At(a)] <= RunTrace(PlainRun(s), a)
  {
    match s
    case Loop(body, orelse) =>
      var r := PlainRun(s);
      assert IterationsTrace(r, 0, a) == [];
      assert IterationsTrace(r, 1, a) == [] + [At(a)] + BlockTrace(r.iterations[0], a, Body);
    case _ =>
  }

  lemma {:induction false} LoopShown(iterations: seq<BlockRun>, part: BlockSoFar, s: Stmt, a: Address)
    requires Stands(InLoop(iterations, part), s)
    ensures Shown(InLoop(iterations, part), a) <= RunTrace(End(InLoop(iterations, part), s), a)
    decreases InLoop(iterations, part), 0
  {
    var n, b, r := |iterations|, EndBlock(part, s.body), End(InLoop(iterations, part), s);
    BlockShown(part, s.body, a, Body);
    assert r.iterations[..n] == iterations && r.iterations[n] == b;
    assert LoopRun(iterations, TestRaised).iterations[..n] == iterations;
    SameIterations(r, LoopRun(iterations, TestRaised), n, a);
    Lengthen(Passed(iterations, a) + [At(a)], ShownInBlock(part, a, Body), BlockTrace(b, a, Body));
    Append(Shown(InLoop(iterations, part), a), IterationsTrace(r, n + 1, a),
           if r.exit.TestRaised? then [At(a)] else []);
  }

  lemma {:induction false} LoopElseShown(iterations: seq<BlockRun>, part: BlockSoFar, s: Stmt, a: Address)
    requires Stands(InLoopElse(iterations, part), s)
    ensures Shown(InLoopElse(iterations, part), a) <= RunTrace(End(InLoopElse(iterations, part), s), a)
    decreases InLoopElse(iterations, part), 0
  {
    var n, b, r := |iterations|, EndBlock(part, s.orelse), End(InLoopElse(iterations, part), s);
    BlockShown(part, s.orelse, a, OrElse);
    SameIterations(r, LoopRun(iterations, TestRaised), n, a);
    Lengthen([At(a)], ShownInBlock(part, a, OrElse), BlockTrace(b, a, OrElse));
    Lengthen(Passed(iterations, a), [At(a)] + ShownInBlock(part, a, OrElse), [At(a)] + BlockTrace(b, a, OrElse));
  }

  lemma TryTrace(r: Run, a: Address)
    requires r.TryRun?
    ensures RunTrace(r, a)
      == [At(a)] + BlockTrace(r.body, a, Body) + AfterTrace(r.after, a) + BlockTrace(r.finalbody, a, FinalBody)
  {
  }

  lemma TryBegins(r: Run, a: Address, u: Trace)
    requires r.TryRun? && u <= BlockTrace(r.body, a, Body)
    ensures [At(a)] + u <= RunTrace(r, a)
  {
    TryTrace(r, a);
    Lengthen([At(a)], u, BlockTrace(r.body, a, Body));
    Append([At(a)] + u, [At(a)] + BlockTrace(r.body, a, Body), AfterTrace(r.after, a));
    Append([At(a)] + u, [At(a)] + BlockTrace(r.body, a, Body) + AfterTrace(r.after, a),
      BlockTrace(r.finalbody, a, FinalBody));
  }

  lemma MiddleBegins(r: Run, a: Address, u: Trace)
    requires r.TryRun? && u <= AfterTrace(r.after, a)
    ensures [At(a)] + BlockTrace(r.body, a, Body) + u <= RunTrace(r, a)
  {
    TryTrace(r, a);
    var head := [At(a)] + BlockTrace(r.body, a, Body);
    Lengthen(head, u, AfterTrace(r.after, a));
    Append(head + u, head + AfterTrace(r.after, a), BlockTrace(r.finalbody, a, FinalBody));
  }

  /* ---- soundness at every moment ---- */

  /** Wherever an execution stands, some execution that ends has shown all of it first. */
  lemma OngoingIsBeginning(program: seq<Stmt>, p: BlockSoFar)
    requires StandsInBlock(p, program)
    ensures RunsBlock(EndBlock(p, program), program)
    ensures ShownInBlock(p, [], Body) <= BlockTrace(EndBlock(p, program), [], Body)
  {
    EndBlockRuns(p, program);
    BlockShown(p, program, [], Body);
  }

  /**
   * Soundness at every moment of every execution, also of one that never ends: whenever the
   * statement of the use has been reached, the definition had completed since their list was
   * last entered.
   */
  lemma DominanceHoldsSoFar(program: seq<Stmt>, p: BlockSoFar, definition: Address, use: Address, k: nat)
    requires Dominates(definition, use) && StandsInBlock(p, program)
    requires k < |ShownInBlock(p, [], Body)| && ShownInBlock(p, [], Body)[k] == At(StatementOf(use))
    ensures CompletedBefore(QueryOf(definition, use), ShownInBlock(p, [], Body), k)
  {
    var q, t, whole := QueryOf(definition, use), ShownInBlock(p, [], Body), BlockTrace(EndBlock(p, program), [], Body);
    OngoingIsBeginning(program, p);
    DominanceIsSound(program, EndBlock(p, program), definition, use, k);
    var m :| CompletedAt(q, whole, k, m);
    assert CompletedAt(q, t, k, m);
  }
}
