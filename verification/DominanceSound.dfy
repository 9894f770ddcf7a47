/** Executions of structured statements, and the soundness of the dominance check. */
module DominanceSound {

  // When a use is reached, the definition has already completed since their common
  // statement list was last entered.

  import opened Dominance

  datatype Stmt =
    | Simple
    | If(body: seq<Stmt>, orelse: seq<Stmt>)
    | Loop(body: seq<Stmt>, orelse: seq<Stmt>)
    | Try(body: seq<Stmt>, handlers: seq<seq<Stmt>>, orelse: seq<Stmt>, finalbody: seq<Stmt>)
    | With(body: seq<Stmt>)

  datatype Outcome = Normal | Break | Continue | Return | Raise

  /** One execution of a block: its statements up to the first that does not end normally. */
  datatype BlockRun = BlockRun(steps: seq<Run>)

  /** How a loop is left: by its test, by an exception in the test, or from inside its body. */
  datatype Exit = Exhausted(orelse: BlockRun) | TestRaised | LeftBody

  /** What follows the body of a try: nothing, its else part, or a handler. */
  datatype After = NoPart | ElsePart(orelse: BlockRun) | Handled(which: nat, handler: BlockRun)

  /** One execution of a statement, as the choices that the program text leaves open. */
  datatype Run =
    | SimpleRun(outcome: Outcome)
    | IfRaised
    | IfRun(holds: bool, branch: BlockRun)
    | LoopRun(iterations: seq<BlockRun>, exit: Exit)
    | TryRun(body: BlockRun, after: After, finalbody: BlockRun)
    | WithRaised
    | WithRun(body: BlockRun, suppresses: bool)

  datatype Event =
    | At(statement: Address)
    | Done(statement: Address)
    | Enter(container: Address, field: FieldName)

  type Trace = seq<Event>

  /* ---- outcomes ---- */

  function BlockOutcome(b: BlockRun): Outcome
    decreases b, 0
  {
    if b.steps == [] then Normal else RunOutcome(b.steps[|b.steps| - 1])
  }

  /** A finally block that does not end normally overrides what came before it. */
  function RunOutcome(r: Run): Outcome
    decreases r, 1
  {
    match r
    case SimpleRun(o) => o
    case IfRaised => Raise
    case IfRun(_, branch) => BlockOutcome(branch)
    case LoopRun(iterations, exit) =>
      (match exit
       case Exhausted(orelse) => BlockOutcome(orelse)
       case TestRaised => Raise
       case LeftBody =>
         if iterations == [] then Raise
         else
           var o := BlockOutcome(iterations[|iterations| - 1]);
           if o == Break then Normal else o)
    case TryRun(body, after, finalbody) =>
      if BlockOutcome(finalbody) != Normal then BlockOutcome(finalbody)
      else
        (match after
         case NoPart => BlockOutcome(body)
         case ElsePart(orelse) => BlockOutcome(orelse)
         case Handled(_, handler) => BlockOutcome(handler))
    case WithRaised => Raise
    case WithRun(body, suppresses) => if suppresses then Normal else BlockOutcome(body)
  }

  /* ---- which executions a program has ---- */

  ghost predicate RunsBlock(b: BlockRun, ss: seq<Stmt>)
    decreases b, 0
  {
    |b.steps| <= |ss|
    && (forall i :: 0 <= i < |b.steps| ==> RunsStatement(b.steps[i], ss[i]))
    && (forall i :: 0 <= i < |b.steps| - 1 ==> RunOutcome(b.steps[i]) == Normal)
    && (|b.steps| < |ss| ==> BlockOutcome(b) != Normal)
  }

  ghost predicate RunsStatement(r: Run, s: Stmt)
    decreases r, 1
  {
    match (r, s)
    case (SimpleRun(_), Simple) => true
    case (IfRaised, If(_, _)) => true
    case (IfRun(holds, branch), If(body, orelse)) => RunsBlock(branch, if holds then body else orelse)
    case (LoopRun(iterations, exit), Loop(body, orelse)) =>
      (forall i :: 0 <= i < |iterations| ==> RunsBlock(iterations[i], body))
      && (forall i :: 0 <= i < |iterations| - 1 ==> BlockOutcome(iterations[i]) in {Normal, Continue})
      && (match exit
          case Exhausted(other) => LastContinues(iterations) && RunsBlock(other, orelse)
          case TestRaised => LastContinues(iterations)
          case LeftBody => !LastContinues(iterations))
    case (TryRun(body, after, finalbody), Try(ss, handlers, orelse, last)) =>
      RunsBlock(body, ss) && RunsBlock(finalbody, last)
      && (match after
          case NoPart => BlockOutcome(body) != Normal
          case ElsePart(other) => BlockOutcome(body) == Normal && RunsBlock(other, orelse)
          case Handled(which, handler) =>
            BlockOutcome(body) == Raise && which < |handlers| && RunsBlock(handler, handlers[which]))
    case (WithRaised, With(_)) => true
    case (WithRun(body, suppresses), With(ss)) => RunsBlock(body, ss) && (suppresses ==> BlockOutcome(body) == Raise)
    case (_, _) => false
  }

  ghost predicate LastContinues(iterations: seq<BlockRun>) {
    iterations == [] || BlockOutcome(iterations[|iterations| - 1]) in {Normal, Continue}
  }

  /* ---- traces ---- */

  function BlockTrace(b: BlockRun, container: Address, field: FieldName): Trace
    decreases b, 0, 1
  {
    [Enter(container, field)] + StepsTrace(b, container, field, |b.steps|)
  }

  /** The first `n` statements of a block; one that ends normally is recorded as done. */
  function StepsTrace(b: BlockRun, container: Address, field: FieldName, n: nat): Trace
    requires n <= |b.steps|
    decreases b, 0, 0, n
  {
    if n == 0 then []
    else StepsTrace(b, container, field, n - 1) + StepTrace(b.steps[n - 1], container + [Step(field, n - 1)])
  }

  function StepTrace(r: Run, a: Address): Trace
    decreases r, 2
  {
    RunTrace(r, a) + (if RunOutcome(r) == Normal then [Done(a)] else [])
  }

  /** `At` marks every evaluation of the statement's own parts, such as a test. */
  function RunTrace(r: Run, a: Address): Trace
    decreases r, 1
  {
    match r
    case SimpleRun(_) => [At(a)]
    case IfRaised => [At(a)]
    case IfRun(holds, branch) => [At(a)] + BlockTrace(branch, a, if holds then Body else OrElse)
    case LoopRun(iterations, exit) =>
      IterationsTrace(r, |iterations|, a)
      + (match exit
         case Exhausted(orelse) => [At(a)] + BlockTrace(orelse, a, OrElse)
         case TestRaised => [At(a)]
         case LeftBody => [])
    case TryRun(body, after, finalbody) =>
      [At(a)] + BlockTrace(body, a, Body)
      + (match after
         case NoPart => []
         case ElsePart(orelse) => BlockTrace(orelse, a, OrElse)
         case Handled(which, handler) => BlockTrace(handler, a + [Step(Handlers, which)], Body))
      + BlockTrace(finalbody, a, FinalBody)
    case WithRaised => [At(a)]
    case WithRun(body, _) => [At(a)] + BlockTrace(body, a, Body)
  }

  function IterationsTrace(r: Run, n: nat, a: Address): Trace
    requires r.LoopRun? && n <= |r.iterations|
    decreases r, 0, n
  {
    if n == 0 then []
    else IterationsTrace(r, n - 1, a) + [At(a)] + BlockTrace(r.iterations[n - 1], a, Body)
  }

  /* ---- what a trace must show ---- */

  /** A statement list, and the positions of the definition and of what holds the use. */
  datatype Query = Query(container: Address, field: FieldName, definition: nat, use: nat)

  function DefinitionOf(q: Query): Address {
    q.container + [Step(q.field, q.definition)]
  }

  function HolderOf(q: Query): Address {
    q.container + [Step(q.field, q.use)]
  }

  /** Both positions lie in one list of statements, the definition first. */
  predicate Ordered(q: Query) {
    q.definition < q.use && IsStatementField(q.field)
  }

  /** Event `k` reaches something inside the statement that holds the use. */
  predicate Reaches(q: Query, e: Event) {
    e.At? && HolderOf(q) <= e.statement
  }

  /** The definition completed before event `k`, and its list was not entered again since. */
  ghost predicate CompletedBefore(q: Query, t: Trace, k: int)
    requires 0 <= k < |t|
  {
    exists m :: CompletedAt(q, t, k, m)
  }

  ghost predicate CompletedAt(q: Query, t: Trace, k: int, m: int)
    requires 0 <= k < |t|
  {
    0 <= m < k && t[m] == Done(DefinitionOf(q)) && forall n :: m < n < k ==> t[n] != Enter(q.container, q.field)
  }

  ghost predicate Guarded(q: Query, t: Trace) {
    forall k :: 0 <= k < |t| && Reaches(q, t[k]) ==> CompletedBefore(q, t, k)
  }

  /* ---- guarded traces compose ---- */

  lemma GuardedConcat(q: Query, s: Trace, t: Trace)
    requires Guarded(q, s) && Guarded(q, t)
    ensures Guarded(q, s + t)
  {
    forall k | 0 <= k < |s + t| && Reaches(q, (s + t)[k]) ensures CompletedBefore(q, s + t, k) {
      if k < |s| {
        var m :| CompletedAt(q, s, k, m);
        assert CompletedAt(q, s + t, k, m);
      } else {
        assert Reaches(q, t[k - |s|]);
        var m :| CompletedAt(q, t, k - |s|, m);
        ShiftCompleted(q, s, t, k - |s|, m);
      }
    }
  }

  lemma ShiftCompleted(q: Query, s: Trace, t: Trace, k: nat, m: int)
    requires k < |t| && CompletedAt(q, t, k, m)
    ensures CompletedAt(q, s + t, |s| + k, |s| + m)
  {
    forall n | |s| + m < n < |s| + k ensures (s + t)[n] != Enter(q.container, q.field) {
      assert (s + t)[n] == t[n - |s|];
    }
  }

  lemma UnreachedGuarded(q: Query, t: Trace)
    requires forall e :: e in t ==> !Reaches(q, e)
    ensures Guarded(q, t)
  {
    forall k | 0 <= k < |t| ensures !Reaches(q, t[k]) {
      assert t[k] in t;
    }
  }

  /* ---- where events lie ---- */

  function AddressOf(e: Event): Address {
    match e
    case At(a) => a
    case Done(a) => a
    case Enter(c, _) => c
  }

  /** Every event of `t` lies at `a` or below it. */
  ghost predicate Within(t: Trace, a: Address) {
    forall e :: e in t ==> a <= AddressOf(e)
  }

  lemma WithinBelow(t: Trace, a: Address, b: Address)
    requires Within(t, b) && a <= b
    ensures Within(t, a)
  {
  }

  lemma {:induction false} BlockWithin(b: BlockRun, container: Address, field: FieldName)
    ensures Within(BlockTrace(b, container, field), container)
    decreases b, 0, 1
  {
    StepsWithin(b, container, field, |b.steps|);
  }

  lemma {:induction false} StepsWithin(b: BlockRun, container: Address, field: FieldName, n: nat)
    requires n <= |b.steps|
    ensures Within(StepsTrace(b, container, field, n), container)
    decreases b, 0, 0, n
  {
    if n > 0 {
      StepsWithin(b, container, field, n - 1);
      var a := container + [Step(field, n - 1)];
      StepWithin(b.steps[n - 1], a);
      WithinBelow(StepTrace(b.steps[n - 1], a), container, a);
    }
  }

  lemma {:induction false} StepWithin(r: Run, a: Address)
    ensures Within(StepTrace(r, a), a)
    decreases r, 2
  {
    RunWithin(r, a);
  }

  lemma {:induction false} IterationsWithin(r: Run, n: nat, a: Address)
    requires r.LoopRun? && n <= |r.iterations|
    ensures Within(IterationsTrace(r, n, a), a)
    decreases r, 0, n
  {
    if n > 0 {
      IterationsWithin(r, n - 1, a);
      BlockWithin(r.iterations[n - 1], a, Body);
    }
  }

  lemma {:induction false} RunWithin(r: Run, a: Address)
    ensures Within(RunTrace(r, a), a)
    decreases r, 1
  {
    match r
    case SimpleRun(_) =>
    case IfRaised =>
    case IfRun(holds, branch) => BlockWithin(branch, a, if holds then Body else OrElse);
    case LoopRun(iterations, exit) =>
      IterationsWithin(r, |iterations|, a);
      if exit.Exhausted? {
        BlockWithin(exit.orelse, a, OrElse);
      }
    case TryRun(body, after, finalbody) =>
      BlockWithin(body, a, Body);
      BlockWithin(finalbody, a, FinalBody);
      if after.ElsePart? {
        BlockWithin(after.orelse, a, OrElse);
      } else if after.Handled? {
        var h := a + [Step(Handlers, after.which)];
        BlockWithin(after.handler, h, Body);
        WithinBelow(BlockTrace(after.handler, h, Body), a, h);
      }
    case WithRaised =>
    case WithRun(body, _) => BlockWithin(body, a, Body);
  }

  /* ---- the list of the definition itself ---- */

  /** No event in `t` enters the list. */
  ghost predicate NeverEntered(q: Query, t: Trace) {
    Enter(q.container, q.field) !in t
  }

  /** A statement of the list neither enters it nor, unless it holds the use, reaches the use. */
  lemma StatementOfList(q: Query, r: Run, i: nat)
    ensures var t := StepTrace(r, q.container + [Step(q.field, i)]);
            NeverEntered(q, t) && (i != q.use ==> forall e :: e in t ==> !Reaches(q, e))
  {
    var a := q.container + [Step(q.field, i)];
    var t := StepTrace(r, a);
    StepWithin(r, a);
    assert !(a <= q.container);
    forall e ensures a <= AddressOf(e) && HolderOf(q) <= AddressOf(e) ==> i == q.use {
      LastOfPrefix(a, AddressOf(e));
      LastOfPrefix(HolderOf(q), AddressOf(e));
    }
  }

  lemma LastOfPrefix(p: Address, x: Address)
    ensures p != [] && p <= x ==> x[|p| - 1] == p[|p| - 1]
  {
  }

  lemma {:induction false} ListNeverEntered(q: Query, b: BlockRun, n: nat)
    requires n <= |b.steps|
    ensures NeverEntered(q, StepsTrace(b, q.container, q.field, n))
    decreases n
  {
    if n > 0 {
      ListNeverEntered(q, b, n - 1);
      StatementOfList(q, b.steps[n - 1], n - 1);
    }
  }

  lemma {:induction false} DefinitionDone(q: Query, b: BlockRun, ss: seq<Stmt>, n: nat)
    requires RunsBlock(b, ss) && q.definition < n <= |b.steps| && q.definition < |b.steps| - 1
    ensures Done(DefinitionOf(q)) in StepsTrace(b, q.container, q.field, n)
    decreases n
  {
    if n - 1 == q.definition {
      var t := StepTrace(b.steps[n - 1], DefinitionOf(q));
      assert RunOutcome(b.steps[n - 1]) == Normal;
      assert t[|t| - 1] == Done(DefinitionOf(q));
      assert t[|t| - 1] in t;
    } else {
      DefinitionDone(q, b, ss, n - 1);
    }
  }

  lemma {:induction false} StepsOfList(q: Query, b: BlockRun, ss: seq<Stmt>, n: nat)
    requires RunsBlock(b, ss) && n <= |b.steps| && q.definition < q.use
    ensures Guarded(q, StepsTrace(b, q.container, q.field, n))
    decreases n
  {
    if n > 0 {
      StepsOfList(q, b, ss, n - 1);
      ListNeverEntered(q, b, n - 1);
      if n - 1 == q.use {
        DefinitionDone(q, b, ss, n - 1);
      }
      ListStep(q, StepsTrace(b, q.container, q.field, n - 1), b.steps[n - 1], n - 1);
    }
  }

  lemma ListStep(q: Query, s: Trace, r: Run, i: nat)
    requires Guarded(q, s) && NeverEntered(q, s) && (i == q.use ==> Done(DefinitionOf(q)) in s)
    ensures Guarded(q, s + StepTrace(r, q.container + [Step(q.field, i)]))
  {
    var t := StepTrace(r, q.container + [Step(q.field, i)]);
    StatementOfList(q, r, i);
    if i == q.use {
      AfterDefinition(q, s, t);
    } else {
      UnreachedGuarded(q, t);
      GuardedConcat(q, s, t);
    }
  }

  /** Once the definition is done, whatever follows without entering the list is guarded. */
  lemma AfterDefinition(q: Query, s: Trace, t: Trace)
    requires Guarded(q, s) && Done(DefinitionOf(q)) in s && NeverEntered(q, s) && NeverEntered(q, t)
    ensures Guarded(q, s + t)
  {
    var m :| 0 <= m < |s| && s[m] == Done(DefinitionOf(q));
    forall k | 0 <= k < |s + t| && Reaches(q, (s + t)[k]) ensures CompletedBefore(q, s + t, k) {
      if k < |s| {
        var p :| CompletedAt(q, s, k, p);
        assert CompletedAt(q, s + t, k, p);
      } else {
        forall n | m < n < k ensures (s + t)[n] != Enter(q.container, q.field) {
          assert n < |s| ==> (s + t)[n] in s;
          assert n >= |s| ==> (s + t)[n] in t;
        }
        assert CompletedAt(q, s + t, k, m);
      }
    }
  }

  lemma ListGuarded(q: Query, b: BlockRun, ss: seq<Stmt>)
    requires RunsBlock(b, ss) && q.definition < q.use
    ensures Guarded(q, BlockTrace(b, q.container, q.field))
  {
    StepsOfList(q, b, ss, |b.steps|);
    UnreachedGuarded(q, [Enter(q.container, q.field)]);
    GuardedConcat(q, [Enter(q.container, q.field)], StepsTrace(b, q.container, q.field, |b.steps|));
  }

  /* ---- every execution ---- */

  /** The address lies inside one of the statements of the list. */
  predicate InList(q: Query, a: Address) {
    |a| > |q.container| && a[..|q.container|] == q.container && a[|q.container|].field == q.field
  }

  lemma HolderInList(q: Query, a: Address)
    ensures HolderOf(q) <= a ==> InList(q, a)
  {
    if HolderOf(q) <= a {
      assert a[..|q.container|] == q.container && a[|q.container|] == Step(q.field, q.use);
    }
  }

  lemma AtGuarded(q: Query, a: Address)
    requires !InList(q, a)
    ensures Guarded(q, [At(a)])
  {
    HolderInList(q, a);
    UnreachedGuarded(q, [At(a)]);
  }

  lemma ChildInList(q: Query, c: Address, f: FieldName, i: nat)
    ensures InList(q, c + [Step(f, i)]) ==> InList(q, c) || (c == q.container && f == q.field)
  {
    var a := c + [Step(f, i)];
    if InList(q, a) {
      if |c| > |q.container| {
        assert c[..|q.container|] == a[..|q.container|] && c[|q.container|] == a[|q.container|];
      } else {
        assert a[..|c|] == c;
      }
    }
  }

  lemma {:induction false} BlockGuarded(q: Query, b: BlockRun, ss: seq<Stmt>, c: Address, f: FieldName)
    requires Ordered(q) && RunsBlock(b, ss) && !InList(q, c)
    ensures Guarded(q, BlockTrace(b, c, f))
    decreases b, 0, 1
  {
    if c == q.container && f == q.field {
      ListGuarded(q, b, ss);
    } else {
      StepsGuarded(q, b, ss, c, f, |b.steps|);
      UnreachedGuarded(q, [Enter(c, f)]);
      GuardedConcat(q, [Enter(c, f)], StepsTrace(b, c, f, |b.steps|));
    }
  }

  lemma {:induction false} StepsGuarded(q: Query, b: BlockRun, ss: seq<Stmt>, c: Address, f: FieldName, n: nat)
    requires Ordered(q) && RunsBlock(b, ss) && n <= |b.steps|
    requires !InList(q, c) && !(c == q.container && f == q.field)
    ensures Guarded(q, StepsTrace(b, c, f, n))
    decreases b, 0, 0, n
  {
    if n > 0 {
      var r, a := b.steps[n - 1], c + [Step(f, n - 1)];
      StepsGuarded(q, b, ss, c, f, n - 1);
      ChildInList(q, c, f, n - 1);
      RunGuarded(q, r, ss[n - 1], a);
      var done := if RunOutcome(r) == Normal then [Done(a)] else [];
      UnreachedGuarded(q, done);
      GuardedConcat(q, RunTrace(r, a), done);
      GuardedConcat(q, StepsTrace(b, c, f, n - 1), StepTrace(r, a));
    }
  }

  lemma {:induction false} IterationsGuarded(q: Query, r: Run, body: seq<Stmt>, n: nat, a: Address)
    requires Ordered(q) && r.LoopRun? && n <= |r.iterations| && !InList(q, a)
    requires forall i :: 0 <= i < |r.iterations| ==> RunsBlock(r.iterations[i], body)
    ensures Guarded(q, IterationsTrace(r, n, a))
    decreases r, 0, n
  {
    if n > 0 {
      IterationsGuarded(q, r, body, n - 1, a);
      AtGuarded(q, a);
      BlockGuarded(q, r.iterations[n - 1], body, a, Body);
      GuardedConcat(q, IterationsTrace(r, n - 1, a), [At(a)]);
      GuardedConcat(q, IterationsTrace(r, n - 1, a) + [At(a)], BlockTrace(r.iterations[n - 1], a, Body));
    }
  }

  lemma {:induction false} RunGuarded(q: Query, r: Run, s: Stmt, a: Address)
    requires Ordered(q) && RunsStatement(r, s) && !InList(q, a)
    ensures Guarded(q, RunTrace(r, a))
    decreases r, 1
  {
    AtGuarded(q, a);
    match r
    case SimpleRun(_) =>
    case IfRaised =>
    case IfRun(holds, branch) =>
      BlockGuarded(q, branch, if holds then s.body else s.orelse, a, if holds then Body else OrElse);
      GuardedConcat(q, [At(a)], BlockTrace(branch, a, if holds then Body else OrElse));
    case LoopRun(iterations, exit) =>
      LoopGuarded(q, r, s, a);
    case TryRun(body, after, finalbody) =>
      TryGuarded(q, r, s, a);
    case WithRaised =>
    case WithRun(body, _) =>
      BlockGuarded(q, body, s.body, a, Body);
      GuardedConcat(q, [At(a)], BlockTrace(body, a, Body));
  }

  lemma {:induction false} LoopGuarded(q: Query, r: Run, s: Stmt, a: Address)
    requires r.LoopRun? && Ordered(q) && RunsStatement(r, s) && !InList(q, a)
    ensures Guarded(q, RunTrace(r, a))
    decreases r, 0, |r.iterations| + 1
  {
    var before := IterationsTrace(r, |r.iterations|, a);
    IterationsGuarded(q, r, s.body, |r.iterations|, a);
    AtGuarded(q, a);
    match r.exit
    case Exhausted(orelse) =>
      BlockGuarded(q, orelse, s.orelse, a, OrElse);
      GuardedConcat(q, [At(a)], BlockTrace(orelse, a, OrElse));
      GuardedConcat(q, before, [At(a)] + BlockTrace(orelse, a, OrElse));
    case TestRaised =>
      GuardedConcat(q, before, [At(a)]);
    case LeftBody =>
      assert before + [] == before;
  }

  lemma {:induction false} TryGuarded(q: Query, r: Run, s: Stmt, a: Address)
    requires r.TryRun? && Ordered(q) && RunsStatement(r, s) && !InList(q, a)
    ensures Guarded(q, RunTrace(r, a))
    decreases r, 0, 1
  {
    AtGuarded(q, a);
    var first := [At(a)] + BlockTrace(r.body, a, Body);
    BlockGuarded(q, r.body, s.body, a, Body);
    GuardedConcat(q, [At(a)], BlockTrace(r.body, a, Body));
    BlockGuarded(q, r.finalbody, s.finalbody, a, FinalBody);
    var middle := match r.after
                  case NoPart => []
                  case ElsePart(orelse) => BlockTrace(orelse, a, OrElse)
                  case Handled(which, handler) => BlockTrace(handler, a + [Step(Handlers, which)], Body);
    MiddleGuarded(q, r, s, a);
    GuardedConcat(q, first, middle);
    GuardedConcat(q, first + middle, BlockTrace(r.finalbody, a, FinalBody));
  }

  lemma {:induction false} MiddleGuarded(q: Query, r: Run, s: Stmt, a: Address)
    requires r.TryRun? && Ordered(q) && RunsStatement(r, s) && !InList(q, a)
    ensures Guarded(q, match r.after
                       case NoPart => []
                       case ElsePart(orelse) => BlockTrace(orelse, a, OrElse)
                       case Handled(which, handler) => BlockTrace(handler, a + [Step(Handlers, which)], Body))
    decreases r, 0, 0
  {
    match r.after
    case NoPart =>
    case ElsePart(orelse) =>
      BlockGuarded(q, orelse, s.orelse, a, OrElse);
    case Handled(which, handler) =>
      ChildInList(q, a, Handlers, which);
      BlockGuarded(q, handler, s.handlers[which], a + [Step(Handlers, which)], Body);
  }

  /* ---- the verdict ---- */

  ghost function QueryOf(definition: Address, use: Address): Query
    requires Dominates(definition, use)
  {
    var n := |definition| - 1;
    Query(Parent(definition), definition[n].field, definition[n].index, use[n].index)
  }

  lemma {:induction false} UseInHolder(holder: Address, use: Address)
    requires IsStatement(holder) && holder <= use
    ensures holder <= StatementOf(use)
    decreases |use|
  {
    if !IsStatement(use) {
      assert use != holder;
      assert holder <= Parent(use);
      UseInHolder(holder, Parent(use));
    }
  }

  /**
   * Soundness: in every execution of every program, each time the statement of
   * the use is evaluated, the definition has completed since their list was
   * last entered.
   */
  lemma DominanceIsSound(program: seq<Stmt>, run: BlockRun, definition: Address, use: Address, k: nat)
    requires Dominates(definition, use) && RunsBlock(run, program)
    requires k < |BlockTrace(run, [], Body)| && BlockTrace(run, [], Body)[k] == At(StatementOf(use))
    ensures CompletedBefore(QueryOf(definition, use), BlockTrace(run, [], Body), k)
  {
    var q, t := QueryOf(definition, use), BlockTrace(run, [], Body);
    assert definition == DefinitionOf(q);
    var holder := use[..|definition|];
    assert holder == HolderOf(q);
    UseInHolder(holder, use);
    BlockGuarded(q, run, program, [], Body);
    assert Reaches(q, t[k]);
  }

  /* ---- every program has executions ---- */

  /** Every test holds once at most, and nothing raises. */
  function PlainRun(s: Stmt): Run
    decreases s, 1
  {
    match s
    case Simple => SimpleRun(Normal)
    case If(body, _) => IfRun(true, PlainBlock(body))
    case Loop(body, orelse) => LoopRun([PlainBlock(body)], Exhausted(PlainBlock(orelse)))
    case Try(body, _, orelse, finalbody) =>
      TryRun(PlainBlock(body), ElsePart(PlainBlock(orelse)), PlainBlock(finalbody))
    case With(body) => WithRun(PlainBlock(body), false)
  }

  function PlainBlock(ss: seq<Stmt>): BlockRun
    decreases ss, 0
  {
    BlockRun(seq(|ss|, i requires 0 <= i < |ss| => PlainRun(ss[i])))
  }

  lemma {:induction false} PlainRunRuns(s: Stmt)
    ensures RunsStatement(PlainRun(s), s) && RunOutcome(PlainRun(s)) == Normal
    decreases s, 1
  {
    match s
    case Simple =>
    case If(body, _) => PlainBlockRuns(body);
    case Loop(body, orelse) =>
      PlainBlockRuns(body);
      PlainBlockRuns(orelse);
    case Try(body, _, orelse, finalbody) =>
      PlainBlockRuns(body);
      PlainBlockRuns(orelse);
      PlainBlockRuns(finalbody);
    case With(body) => PlainBlockRuns(body);
  }

  /** Any statement list can run to its end, so soundness never speaks of nothing. */
  lemma {:induction false} PlainBlockRuns(ss: seq<Stmt>)
    ensures RunsBlock(PlainBlock(ss), ss) && BlockOutcome(PlainBlock(ss)) == Normal
    decreases ss, 0
  {
    forall i | 0 <= i < |ss| ensures RunsStatement(PlainRun(ss[i]), ss[i]) && RunOutcome(PlainRun(ss[i])) == Normal {
      PlainRunRuns(ss[i]);
    }
  }
}
