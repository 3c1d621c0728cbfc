/** Staged execution of operation lists, alone and as two overlapped executors. */
module Operations {
  import opened Options

  // ---- Cutting an operation list into stages ----

  datatype Item<+Op> = Yield | Exec(op: Op)

  /** The operations of a list, without the yields. */
  function Erase<Op>(items: seq<Item<Op>>): seq<Op> {
    if items == [] then []
    else if items[0].Yield? then Erase(items[1..])
    else [items[0].op] + Erase(items[1..])
  }

  function Flatten<Op>(chunks: seq<seq<Op>>): seq<Op> {
    if chunks == [] then [] else chunks[0] + Flatten(chunks[1..])
  }

  function Yields<Op>(items: seq<Item<Op>>): nat {
    if items == [] then 0 else (if items[0].Yield? then 1 else 0) + Yields(items[1..])
  }

  /** What the chunking produces for `items` when `pending` operations are already collected. */
  function ChunksFrom<Op>(items: seq<Item<Op>>, pending: seq<Op>): seq<seq<Op>> {
    if items == [] then (if pending == [] then [] else [pending])
    else if items[0].Yield? then [pending] + ChunksFrom(items[1..], [])
    else ChunksFrom(items[1..], pending + [items[0].op])
  }

  method ChunkBySeparator<Op>(items: seq<Item<Op>>) returns (chunks: seq<seq<Op>>)
    ensures chunks == ChunksFrom(items, [])
  {
    chunks := [];
    var pendingItems := [];
    for i := 0 to |items|
      invariant chunks + ChunksFrom(items[i..], pendingItems) == ChunksFrom(items, [])
    {
      assert items[i..][1..] == items[i + 1..];
      if items[i].Yield? {
        assert chunks + ([pendingItems] + ChunksFrom(items[i + 1..], [])) ==
               (chunks + [pendingItems]) + ChunksFrom(items[i + 1..], []);
        chunks := chunks + [pendingItems];
        pendingItems := [];
      } else {
        pendingItems := pendingItems + [items[i].op];
      }
    }
    if |pendingItems| > 0 {
      chunks := chunks + [pendingItems];
    }
  }

  /** The chunks hold exactly the operations, in order. */
  lemma {:induction false} ChunksFlatten<Op>(items: seq<Item<Op>>, pending: seq<Op>)
    ensures Flatten(ChunksFrom(items, pending)) == pending + Erase(items)
  {
    if items != [] {
      if items[0].Yield? {
        ChunksFlatten(items[1..], []);
      } else {
        ChunksFlatten(items[1..], pending + [items[0].op]);
        assert pending + [items[0].op] + Erase(items[1..]) == pending + ([items[0].op] + Erase(items[1..]));
      }
    } else if pending != [] {
      assert [pending][1..] == [];
      assert pending + [] == pending;
    }
  }

  /** One chunk per yield, and one more for operations after the last yield. */
  lemma {:induction false} ChunkCount<Op>(items: seq<Item<Op>>, pending: seq<Op>)
    ensures |ChunksFrom(items, pending)| ==
            Yields(items) + if (if items == [] then pending != [] else items[|items| - 1].Exec?) then 1 else 0
  {
    if items != [] {
      var rest := if items[0].Yield? then [] else pending + [items[0].op];
      ChunkCount(items[1..], rest);
    }
  }

  /** A yield directly after another yield, or before any operation. */
  ghost predicate IdleYield<Op>(items: seq<Item<Op>>, i: nat) {
    i < |items| && items[i].Yield? && (i == 0 || items[i - 1].Yield?)
  }

  ghost predicate AllNonEmpty<Op>(chunks: seq<seq<Op>>) {
    forall k :: 0 <= k < |chunks| ==> |chunks[k]| > 0
  }

  /** The assertion after chunking holds exactly when no yield is idle. */
  lemma NonEmptyChunks<Op>(items: seq<Item<Op>>)
    ensures AllNonEmpty(ChunksFrom(items, [])) <==> forall i: nat :: !IdleYield(items, i)
  {
    NonEmptyChunksFrom(items, []);
    if i: nat :| IdleYield(items, i) {
      assert i > 0 ==> items[i - 1].Yield? && items[i].Yield?;
    }
    if !(forall i :: 1 <= i < |items| ==> !(items[i - 1].Yield? && items[i].Yield?)) {
      var i :| 1 <= i < |items| && items[i - 1].Yield? && items[i].Yield?;
      assert IdleYield(items, i);
    }
    if items != [] && items[0].Yield? { assert IdleYield(items, 0); }
  }

  lemma {:induction false} NonEmptyChunksFrom<Op>(items: seq<Item<Op>>, pending: seq<Op>)
    ensures AllNonEmpty(ChunksFrom(items, pending)) <==>
            && (items != [] && items[0].Yield? ==> pending != [])
            && (forall i :: 1 <= i < |items| ==> !(items[i - 1].Yield? && items[i].Yield?))
  {
    if items != [] {
      var rest := if items[0].Yield? then [] else pending + [items[0].op];
      NonEmptyChunksFrom(items[1..], rest);
      var tail := ChunksFrom(items[1..], rest);
      if items[0].Yield? {
        var all := ChunksFrom(items, pending);
        assert all[0] == pending && all[1..] == tail;
        assert AllNonEmpty(all) <==> pending != [] && AllNonEmpty(tail) by {
          if AllNonEmpty(all) { forall k | 0 <= k < |tail| ensures |tail[k]| > 0 { assert tail[k] == all[k + 1]; } }
        }
      }
      AdjacentYields(items);
    }
  }

  lemma AdjacentYields<Op>(items: seq<Item<Op>>)
    requires items != []
    ensures (forall i :: 1 <= i < |items| ==> !(items[i - 1].Yield? && items[i].Yield?)) <==>
            && (|items| > 1 && items[0].Yield? ==> !items[1].Yield?)
            && (forall i :: 1 <= i < |items[1..]| ==> !(items[1..][i - 1].Yield? && items[1..][i].Yield?))
  {
    var tail := items[1..];
    if forall i :: 1 <= i < |items| ==> !(items[i - 1].Yield? && items[i].Yield?) {
      forall i | 1 <= i < |tail| ensures !(tail[i - 1].Yield? && tail[i].Yield?) {
        assert tail[i - 1] == items[i + 1 - 1] && tail[i] == items[i + 1];
      }
    } else {
      var i :| 1 <= i < |items| && items[i - 1].Yield? && items[i].Yield?;
      if i > 1 { assert tail[i - 1 - 1] == items[i - 1] && tail[i - 1] == items[i]; }
    }
  }

  // ---- One executor ----

  /** The data-parallel attention buffer lengths that an executor publishes before each stage. */
  datatype DpBuffer = DpBuffer(globalLen: int, localLen: int, numTokens: Option<seq<int>>)

  /** An operation reads the published lengths, may update the memory shared by the executors (for
      instance the KV pool), and turns an executor's state and output into the next ones. */
  type Operation<!M, !C> = (Option<DpBuffer>, M, C) -> (M, C)

  type Stage<!M, !C> = seq<Operation<M, C>>

  /** Run the operations of one stage, or of a whole list, in order. */
  function Fold<M, C>(ops: seq<Operation<M, C>>, dp: Option<DpBuffer>, m: M, c: C): (M, C) {
    if ops == [] then (m, c)
    else
      var (m', c') := Fold(ops[..|ops| - 1], dp, m, c);
      ops[|ops| - 1](dp, m', c')
  }

  /** The value that is global while a stage runs: the executor's own one if it has one. */
  function Published(own: Option<DpBuffer>, current: Option<DpBuffer>): Option<DpBuffer> {
    if own.Some? then own else current
  }

  class Globals<M> {
    var mem: M
    var dp: Option<DpBuffer>

    constructor (mem: M, dp: Option<DpBuffer>)
      ensures this.mem == mem && this.dp == dp
    {
      this.mem, this.dp := mem, dp;
    }
  }

  class StageExecutor<M, C> {
    const stages: seq<Stage<M, C>>
    const own: Option<DpBuffer>
    var index: nat
    var ctx: C

    constructor (stages: seq<Stage<M, C>>, inputs: C, own: Option<DpBuffer>)
      ensures this.stages == stages && this.own == own && index == 0 && ctx == inputs
    {
      this.stages, this.own, index, ctx := stages, own, 0, inputs;
    }

    predicate Done()
      reads this
    {
      index >= |stages|
    }

    method Next(g: Globals<M>)
      requires !Done()
      modifies this, g
      ensures index == old(index) + 1
      ensures g.dp == Published(own, old(g.dp))
      ensures (g.mem, ctx) == Fold(stages[old(index)], Published(own, old(g.dp)), old(g.mem), old(ctx))
    {
      var stage := stages[index];
      if own.Some? {
        g.dp := own;
      }
      for k := 0 to |stage|
        invariant g.dp == Published(own, old(g.dp)) && index == old(index)
        invariant (g.mem, ctx) == Fold(stage[..k], g.dp, old(g.mem), old(ctx))
      {
        assert stage[..k + 1][..k] == stage[..k];
        var (m, c) := stage[k](g.dp, g.mem, ctx);
        g.mem, ctx := m, c;
      }
      assert stage[..|stage|] == stage;
      index := index + 1;
    }
  }

  // ---- Two executors ----

  datatype Who = A | B

  /** The values of two executors, the shared memory and the shared global. */
  datatype System<M, C> = System(mem: M, dp: Option<DpBuffer>, indexA: nat, ctxA: C, indexB: nat, ctxB: C)

  datatype Plan<!M, !C> = Plan(stagesA: seq<Stage<M, C>>, stagesB: seq<Stage<M, C>>,
                               ownA: Option<DpBuffer>, ownB: Option<DpBuffer>)

  predicate CanStep<M, C>(p: Plan<M, C>, who: Who, s: System<M, C>) {
    match who
    case A => s.indexA < |p.stagesA|
    case B => s.indexB < |p.stagesB|
  }

  /** One call of `next` on one of the executors. */
  function Step<M, C>(p: Plan<M, C>, who: Who, s: System<M, C>): System<M, C>
    requires CanStep(p, who, s)
  {
    match who
    case A =>
      var dp := Published(p.ownA, s.dp);
      var (m, c) := Fold(p.stagesA[s.indexA], dp, s.mem, s.ctxA);
      s.(mem := m, dp := dp, indexA := s.indexA + 1, ctxA := c)
    case B =>
      var dp := Published(p.ownB, s.dp);
      var (m, c) := Fold(p.stagesB[s.indexB], dp, s.mem, s.ctxB);
      s.(mem := m, dp := dp, indexB := s.indexB + 1, ctxB := c)
  }

  /** How often an executor runs in a schedule. */
  function Count(schedule: seq<Who>, who: Who): nat {
    if schedule == [] then 0
    else Count(schedule[..|schedule| - 1], who) + if schedule[|schedule| - 1] == who then 1 else 0
  }

  ghost predicate Fits<M, C>(p: Plan<M, C>, schedule: seq<Who>) {
    Count(schedule, A) <= |p.stagesA| && Count(schedule, B) <= |p.stagesB|
  }

  function Start<M, C>(mem: M, dp: Option<DpBuffer>, inputsA: C, inputsB: C): System<M, C> {
    System(mem, dp, 0, inputsA, 0, inputsB)
  }

  /** Run a schedule from the start. */
  ghost function Run<M, C>(p: Plan<M, C>, schedule: seq<Who>, start: System<M, C>): (s: System<M, C>)
    requires start.indexA == start.indexB == 0 && Fits(p, schedule)
    ensures s.indexA == Count(schedule, A) && s.indexB == Count(schedule, B)
  {
    if schedule == [] then start
    else Step(p, schedule[|schedule| - 1], Run(p, schedule[..|schedule| - 1], start))
  }

  /** The schedule of the overlapped execution of n stages each, B being delta stages behind. */
  function Times(who: seq<Who>, n: nat): seq<Who> {
    if n == 0 then [] else Times(who, n - 1) + who
  }

  function OverlapSchedule(n: nat, delta: nat): seq<Who>
    requires delta <= n
  {
    Times([A], delta) + Times([A, B], n - delta) + Times([B], delta)
  }

  // ---- Facts about schedules ----

  lemma {:induction false} CountAppend(x: seq<Who>, y: seq<Who>, who: Who)
    ensures Count(x + y, who) == Count(x, who) + Count(y, who)
  {
    if y == [] {
      assert x + y == x;
    } else {
      assert (x + y)[..|x + y| - 1] == x + y[..|y| - 1];
      CountAppend(x, y[..|y| - 1], who);
    }
  }

  lemma CountOne(who: Who, other: Who)
    ensures Count([other], who) == if other == who then 1 else 0
  {
    assert [other][..0] == [];
  }

  lemma {:induction false} CountTimes(block: seq<Who>, n: nat, who: Who)
    ensures Count(Times(block, n), who) == n * Count(block, who)
    ensures |Times(block, n)| == n * |block|
  {
    if n > 0 {
      CountTimes(block, n - 1, who);
      CountAppend(Times(block, n - 1), block, who);
      assert n * Count(block, who) == (n - 1) * Count(block, who) + Count(block, who);
      assert n * |block| == (n - 1) * |block| + |block|;
    }
  }

  lemma CountPair(who: Who)
    ensures Count([A, B], who) == 1
  {
    assert [A, B] == [A] + [B];
    CountAppend([A], [B], who);
    CountOne(who, A);
    CountOne(who, B);
  }

  /** How far the executors are after d steps of A, then i rounds, then j steps of B. */
  lemma CountPhases(d: nat, i: nat, j: nat)
    ensures Count(Times([A], d) + Times([A, B], i) + Times([B], j), A) == d + i
    ensures Count(Times([A], d) + Times([A, B], i) + Times([B], j), B) == i + j
  {
    forall who: Who
      ensures Count(Times([A], d) + Times([A, B], i) + Times([B], j), who) ==
              d * Count([A], who) + i * Count([A, B], who) + j * Count([B], who)
    {
      CountAppend(Times([A], d) + Times([A, B], i), Times([B], j), who);
      CountAppend(Times([A], d), Times([A, B], i), who);
      CountTimes([A], d, who);
      CountTimes([A, B], i, who);
      CountTimes([B], j, who);
    }
    forall who: Who ensures Count([A, B], who) == 1 { CountPair(who); }
    CountOne(A, A); CountOne(A, B); CountOne(B, A); CountOne(B, B);
  }

  lemma RunStep<M, C>(p: Plan<M, C>, schedule: seq<Who>, who: Who, start: System<M, C>)
    requires start.indexA == start.indexB == 0 && Fits(p, schedule)
    requires CanStep(p, who, Run(p, schedule, start))
    ensures Fits(p, schedule + [who])
    ensures Run(p, schedule + [who], start) == Step(p, who, Run(p, schedule, start))
  {
    assert (schedule + [who])[..|schedule|] == schedule;
  }

  // ---- Overlapped execution ----

  ghost function SystemOf<M, C>(g: Globals<M>, a: StageExecutor<M, C>, b: StageExecutor<M, C>): System<M, C>
    reads g, a, b
  {
    System(g.mem, g.dp, a.index, a.ctx, b.index, b.ctx)
  }

  /** One call of `next` on executor `who` is one step of the plan. */
  method Advance<M, C>(ghost p: Plan<M, C>, ghost schedule: seq<Who>, who: Who, ghost start: System<M, C>,
                       g: Globals<M>, a: StageExecutor<M, C>, b: StageExecutor<M, C>)
    requires a != b && p == Plan(a.stages, b.stages, a.own, b.own)
    requires start.indexA == start.indexB == 0 && Fits(p, schedule)
    requires SystemOf(g, a, b) == Run(p, schedule, start)
    requires if who == A then !a.Done() else !b.Done()
    modifies g, if who == A then a else b
    ensures Fits(p, schedule + [who]) && SystemOf(g, a, b) == Run(p, schedule + [who], start)
  {
    RunStep(p, schedule, who, start);
    match who
    case A => a.Next(g);
    case B => b.Next(g);
  }

  ghost predicate Reached<M, C>(p: Plan<M, C>, schedule: seq<Who>, start: System<M, C>,
                                g: Globals<M>, a: StageExecutor<M, C>, b: StageExecutor<M, C>)
    reads g, a, b
  {
    && a != b && p == Plan(a.stages, b.stages, a.own, b.own)
    && start.indexA == start.indexB == 0 && Fits(p, schedule)
    && SystemOf(g, a, b) == Run(p, schedule, start)
  }

  /** `for _ in range(k): executor.next()`; stops at the first call that fails its assertion. */
  method RepeatNext<M, C>(ghost p: Plan<M, C>, ghost schedule: seq<Who>, who: Who, k: int, ghost start: System<M, C>,
                          g: Globals<M>, a: StageExecutor<M, C>, b: StageExecutor<M, C>)
    returns (ok: bool, ghost extended: seq<Who>)
    requires Reached(p, schedule, start, g, a, b)
    modifies g, if who == A then a else b
    ensures Reached(p, extended, start, g, a, b)
    ensures ok <==> k <= 0 || old(if who == A then a.index else b.index) + k
                              <= if who == A then |a.stages| else |b.stages|
    ensures ok ==> extended == schedule + Times([who], if k < 0 then 0 else k)
  {
    hide Run, Fits, Count;
    extended := schedule;
    var i := 0;
    assert schedule == schedule + Times([who], 0);
    while i < k
      invariant 0 <= i && (i <= k || i == 0)
      invariant Reached(p, extended, start, g, a, b)
      invariant (if who == A then a.index else b.index) == old(if who == A then a.index else b.index) + i
      invariant i > 0 ==> (if who == A then a.index <= |a.stages| else b.index <= |b.stages|)
      invariant extended == schedule + Times([who], i)
      decreases k - i
    {
      if (if who == A then a.Done() else b.Done()) { return false, extended; }
      Advance(p, extended, who, start, g, a, b);
      StepIndex(p, extended, who, start);
      assert extended + [who] == schedule + (Times([who], i) + [who]);
      extended := extended + [who];
      i := i + 1;
    }
    ok := true;
  }

  lemma StepIndex<M, C>(p: Plan<M, C>, schedule: seq<Who>, who: Who, start: System<M, C>)
    requires start.indexA == start.indexB == 0 && Fits(p, schedule) && Fits(p, schedule + [who])
    ensures var s, s' := Run(p, schedule, start), Run(p, schedule + [who], start);
            && s'.indexA == s.indexA + (if who == A then 1 else 0)
            && s'.indexB == s.indexB + (if who == B then 1 else 0)
  {
    CountAppend(schedule, [who], A);
    CountAppend(schedule, [who], B);
    CountOne(A, who);
    CountOne(B, who);
  }

  /** `for _ in range(k): executor_a.next(); executor_b.next()`. */
  method RepeatRounds<M, C>(ghost p: Plan<M, C>, ghost schedule: seq<Who>, k: int, ghost start: System<M, C>,
                            g: Globals<M>, a: StageExecutor<M, C>, b: StageExecutor<M, C>)
    returns (ok: bool, ghost extended: seq<Who>)
    requires Reached(p, schedule, start, g, a, b)
    modifies g, a, b
    ensures Reached(p, extended, start, g, a, b)
    ensures ok <==> k <= 0 || (old(a.index) + k <= |a.stages| && old(b.index) + k <= |b.stages|)
    ensures ok ==> extended == schedule + Times([A, B], if k < 0 then 0 else k)
  {
    hide Run, Fits, Count;
    extended := schedule;
    var i := 0;
    assert schedule == schedule + Times([A, B], 0);
    while i < k
      invariant 0 <= i && (i <= k || i == 0)
      invariant Reached(p, extended, start, g, a, b)
      invariant a.index == old(a.index) + i && b.index == old(b.index) + i
      invariant i > 0 ==> a.index <= |a.stages| && b.index <= |b.stages|
      invariant extended == schedule + Times([A, B], i)
      decreases k - i
    {
      if a.Done() { return false, extended; }
      Advance(p, extended, A, start, g, a, b);
      StepIndex(p, extended, A, start);
      extended := extended + [A];
      if b.Done() { return false, extended; }
      Advance(p, extended, B, start, g, a, b);
      StepIndex(p, extended, B, start);
      extended := extended + [B];
      assert extended == schedule + (Times([A, B], i) + [A, B]);
      i := i + 1;
    }
    ok := true;
  }

  method ExecuteOverlappedOperations<M, C>(
    g: Globals<M>, inputsA: C, inputsB: C,
    operationsA: seq<Item<Operation<M, C>>>, operationsB: seq<Item<Operation<M, C>>>,
    ownA: Option<DpBuffer>, ownB: Option<DpBuffer>, deltaStages: (int, int))
    returns (ok: bool, outputA: C, outputB: C)
    modifies g
    // No assertion of the source fails exactly when no stage is empty, both sides have equally
    // many stages, the first side has no delay and the delay of the second is at most that many.
    ensures ok <==> CanOverlap(ChunksFrom(operationsA, []), ChunksFrom(operationsB, []), deltaStages)
    ensures ok ==>
      var stagesA, stagesB := ChunksFrom(operationsA, []), ChunksFrom(operationsB, []);
      var p, schedule := Plan(stagesA, stagesB, ownA, ownB), OverlapSchedule(|stagesA|, deltaStages.1);
      && Fits(p, schedule)
      && System(g.mem, g.dp, |stagesA|, outputA, |stagesB|, outputB) ==
         Run(p, schedule, Start(old(g.mem), old(g.dp), inputsA, inputsB))
  {
    hide Run, Fits, Count, Times, ChunksFrom, AllNonEmpty, Published, Fold;
    EmptyTimes();
    ok, outputA, outputB := false, inputsA, inputsB;
    if deltaStages.0 != 0 { return; }
    var delta := deltaStages.1;
    var stagesA := ConvertOperationsToStages(operationsA);
    if stagesA.None? { return; }
    var stagesB := ConvertOperationsToStages(operationsB);
    if stagesB.None? { return; }
    var a := new StageExecutor(stagesA.value, inputsA, ownA);
    var b := new StageExecutor(stagesB.value, inputsB, ownB);

    ghost var p, start := Plan(a.stages, b.stages, ownA, ownB), SystemOf(g, a, b);
    ghost var schedule;
    NothingRun(p, start);
    ok, schedule := RepeatNext(p, [], A, delta, start, g, a, b);
    if !ok { return; }
    assert schedule == Times([A], NonNegative(delta)) + Times([A, B], 0) + Times([B], 0);
    Indices(p, schedule, start, delta, 0, 0);
    ok, schedule := RepeatRounds(p, schedule, |a.stages| - delta, start, g, a, b);
    if !ok { return; }
    assert schedule == Times([A], NonNegative(delta)) + Times([A, B], NonNegative(|a.stages| - delta)) + Times([B], 0);
    Indices(p, schedule, start, delta, |a.stages| - delta, 0);
    ok, schedule := RepeatNext(p, schedule, B, delta, start, g, a, b);
    if !ok { return; }
    Indices(p, schedule, start, delta, |a.stages| - delta, delta);
    ok := a.Done() && b.Done();
    outputA, outputB := a.ctx, b.ctx;
  }

  ghost predicate CanOverlap<Op>(stagesA: seq<seq<Op>>, stagesB: seq<seq<Op>>, deltaStages: (int, int)) {
    && deltaStages.0 == 0 && AllNonEmpty(stagesA) && AllNonEmpty(stagesB)
    && |stagesA| == |stagesB| && 0 <= deltaStages.1 <= |stagesA|
  }

  lemma EmptyTimes()
    ensures Times([B], 0) == [] && Times([A, B], 0) == []
  {
  }

  lemma NothingRun<M, C>(p: Plan<M, C>, start: System<M, C>)
    requires start.indexA == start.indexB == 0
    ensures Fits(p, []) && Run(p, [], start) == start
  {
  }

  function NonNegative(x: int): nat { if x < 0 then 0 else x }

  lemma Indices<M, C>(p: Plan<M, C>, schedule: seq<Who>, start: System<M, C>, d: int, i: int, j: int)
    requires start.indexA == start.indexB == 0 && Fits(p, schedule)
    requires schedule == Times([A], NonNegative(d)) + Times([A, B], NonNegative(i)) + Times([B], NonNegative(j))
    ensures Run(p, schedule, start).indexA == NonNegative(d) + NonNegative(i)
    ensures Run(p, schedule, start).indexB == NonNegative(i) + NonNegative(j)
  {
    CountPhases(NonNegative(d), NonNegative(i), NonNegative(j));
  }

  /** The stages of an operation list; None where the assertion that no stage is empty fails. */
  method ConvertOperationsToStages<Op>(operations: seq<Item<Op>>) returns (stages: Option<seq<seq<Op>>>)
    ensures stages == if AllNonEmpty(ChunksFrom(operations, [])) then Some(ChunksFrom(operations, [])) else None
  {
    var chunks := ChunkBySeparator(operations);
    for k := 0 to |chunks|
      invariant forall l :: 0 <= l < k ==> |chunks[l]| > 0
    {
      if |chunks[k]| == 0 { return None; }
    }
    return Some(chunks);
  }

  // ---- What the schedule guarantees ----

  lemma {:induction false} TimesOne(who: Who, n: nat, k: nat)
    requires k < n
    ensures |Times([who], n)| == n && Times([who], n)[k] == who
  {
    CountTimes([who], n, who);
    CountTimes([who], n - 1, who);
    if k < n - 1 { TimesOne(who, n - 1, k); }
  }

  lemma {:induction false} TimesPair(n: nat, k: nat)
    requires k < 2 * n
    ensures |Times([A, B], n)| == 2 * n && Times([A, B], n)[k] == if k % 2 == 0 then A else B
  {
    CountTimes([A, B], n, A);
    CountTimes([A, B], n - 1, A);
    if k < 2 * (n - 1) { TimesPair(n - 1, k); }
  }

  /** Who runs at step k of the overlapped schedule. */
  function WhoRuns(n: nat, delta: nat, k: nat): Who {
    if k < delta then A
    else if k < 2 * n - delta then (if (k - delta) % 2 == 0 then A else B)
    else B
  }

  lemma ScheduleAt(n: nat, delta: nat, k: nat)
    requires delta <= n && k < 2 * n
    ensures |OverlapSchedule(n, delta)| == 2 * n && OverlapSchedule(n, delta)[k] == WhoRuns(n, delta, k)
  {
    hide Times, Count, WhoRuns;
    CountTimes([A], delta, A);
    CountTimes([A, B], n - delta, A);
    CountTimes([B], delta, A);
    var first, second, third := Times([A], delta), Times([A, B], n - delta), Times([B], delta);
    WhoRunsIn(n, delta, k);
    if k < delta {
      TimesOne(A, delta, k);
      assert (first + second + third)[k] == first[k];
    } else if k < 2 * n - delta {
      TimesPair(n - delta, k - delta);
      assert (first + second + third)[k] == second[k - delta];
    } else {
      TimesOne(B, delta, k - (2 * n - delta));
      assert (first + second + third)[k] == third[k - (2 * n - delta)];
    }
  }

  lemma WhoRunsIn(n: nat, delta: nat, k: nat)
    ensures k < delta ==> WhoRuns(n, delta, k) == A
    ensures delta <= k < 2 * n - delta ==> WhoRuns(n, delta, k) == if (k - delta) % 2 == 0 then A else B
    ensures k >= delta && k >= 2 * n - delta ==> WhoRuns(n, delta, k) == B
  {
  }

  /** Over the whole run, B never starts a stage that A has not completed, and A is never more
      than delta + 1 stages ahead. */
  lemma {:induction false} OverlapLead(n: nat, delta: nat, k: nat)
    requires delta <= n && k <= 2 * n
    ensures |OverlapSchedule(n, delta)| == 2 * n
    ensures var before := OverlapSchedule(n, delta)[..k];
            && Count(before, B) <= Count(before, A) <= Count(before, B) + delta + 1
            && (k < 2 * n && OverlapSchedule(n, delta)[k] == B ==> Count(before, B) < Count(before, A))
  {
    hide OverlapSchedule, Count;
    if n > 0 { ScheduleAt(n, delta, 0); } else { EmptySchedule(); }
    if k < 2 * n { ScheduleAt(n, delta, k); }
    LeadAt(n, delta, k);
  }

  lemma EmptySchedule()
    ensures OverlapSchedule(0, 0) == []
  {
  }

  /** How many stages A has started after k steps of the overlapped schedule. */
  function StartedA(n: nat, delta: nat, k: nat): int {
    if k <= delta then k else if k <= 2 * n - delta then delta + (k - delta + 1) / 2 else n
  }

  /** One executor runs at every step. */
  lemma StartedStep(n: nat, delta: nat, k: nat)
    requires 0 < k <= 2 * n && delta <= n
    ensures StartedA(n, delta, k) == StartedA(n, delta, k - 1) + if WhoRuns(n, delta, k - 1) == A then 1 else 0
  {
  }

  lemma {:induction false} LeadAt(n: nat, delta: nat, k: nat)
    requires delta <= n && k <= |OverlapSchedule(n, delta)| == 2 * n
    ensures var before := OverlapSchedule(n, delta)[..k];
            Count(before, A) == StartedA(n, delta, k) && Count(before, B) == k - StartedA(n, delta, k)
  {
    hide OverlapSchedule, WhoRuns;
    var schedule := OverlapSchedule(n, delta);
    if k > 0 {
      hide StartedA;
      LeadAt(n, delta, k - 1);
      ScheduleAt(n, delta, k - 1);
      assert schedule[..k][..k - 1] == schedule[..k - 1];
      StartedStep(n, delta, k);
    }
  }

  /** The buffer lengths that the stage run at step k observes. */
  ghost function Observed<M, C>(p: Plan<M, C>, schedule: seq<Who>, start: System<M, C>, k: nat): Option<DpBuffer>
    requires start.indexA == start.indexB == 0 && k < |schedule| && Fits(p, schedule[..k])
  {
    Published(if schedule[k] == A then p.ownA else p.ownB, Run(p, schedule[..k], start).dp)
  }

  /** An executor with its own lengths observes them in every stage. One without observes those of
      the other executor as soon as that one has run and has its own: sharing the global is
      harmless only if both sides publish. */
  lemma ObservedLengths<M, C>(p: Plan<M, C>, schedule: seq<Who>, start: System<M, C>, k: nat)
    requires start.indexA == start.indexB == 0 && k < |schedule| && Fits(p, schedule[..k])
    ensures var own := if schedule[k] == A then p.ownA else p.ownB;
            var other := if schedule[k] == A then p.ownB else p.ownA;
            var others := Count(schedule[..k], if schedule[k] == A then B else A);
            Observed(p, schedule, start, k) ==
              if own.Some? then own else if other.Some? && others > 0 then other else start.dp
  {
    PublishedSoFar(p, schedule[..k], start);
  }

  /** Without own lengths on one side, the global is what the other side published, or the initial value. */
  lemma {:induction false} PublishedSoFar<M, C>(p: Plan<M, C>, schedule: seq<Who>, start: System<M, C>)
    requires start.indexA == start.indexB == 0 && Fits(p, schedule)
    ensures p.ownA.None? ==>
      Run(p, schedule, start).dp == if p.ownB.Some? && Count(schedule, B) > 0 then p.ownB else start.dp
    ensures p.ownB.None? ==>
      Run(p, schedule, start).dp == if p.ownA.Some? && Count(schedule, A) > 0 then p.ownA else start.dp
  {
    if schedule != [] {
      PublishedSoFar(p, schedule[..|schedule| - 1], start);
    }
  }

  // ---- A single executor ----

  lemma {:induction false} FoldAppend<M, C>(x: seq<Operation<M, C>>, y: seq<Operation<M, C>>,
                                            dp: Option<DpBuffer>, m: M, c: C)
    ensures Fold(x + y, dp, m, c) == Fold(y, dp, Fold(x, dp, m, c).0, Fold(x, dp, m, c).1)
  {
    if y == [] {
      assert x + y == x;
    } else {
      assert (x + y)[..|x + y| - 1] == x + y[..|y| - 1];
      FoldAppend(x, y[..|y| - 1], dp, m, c);
    }
  }

  lemma {:induction false} FlattenAppend<Op>(x: seq<seq<Op>>, y: seq<Op>)
    ensures Flatten(x + [y]) == Flatten(x) + y
  {
    if x == [] {
      assert [y][1..] == [] && [] + [y] == [y];
      assert y + [] == y && [] + y == y;
    } else {
      FlattenAppend(x[1..], y);
      assert (x + [y])[1..] == x[1..] + [y];
      assert x[0] + (Flatten(x[1..]) + y) == (x[0] + Flatten(x[1..])) + y;
    }
  }

  /** Running the stages one after the other is one fold over the operations, the yields erased. */
  method ExecuteOperations<M, C>(g: Globals<M>, inputs: C, operations: seq<Item<Operation<M, C>>>, own: Option<DpBuffer>)
    returns (ok: bool, output: C)
    modifies g
    ensures ok <==> AllNonEmpty(ChunksFrom(operations, []))
    ensures ok ==> (g.mem, output) == Fold(Erase(operations), Published(own, old(g.dp)), old(g.mem), inputs)
  {
    hide Fold, Flatten, ChunksFrom, AllNonEmpty;
    output := inputs;
    var stages := ConvertOperationsToStages(operations);
    if stages.None? { return false, output; }
    var executor := new StageExecutor(stages.value, inputs, own);
    ghost var dp := Published(own, g.dp);
    FoldNothing(dp, g.mem, inputs);
    for i := 0 to |executor.stages|
      invariant executor.index == i && Published(own, g.dp) == dp
      invariant (g.mem, executor.ctx) == Fold(Flatten(executor.stages[..i]), dp, old(g.mem), inputs)
    {
      ghost var m, c := g.mem, executor.ctx;
      executor.Next(g);
      FlattenAppend(executor.stages[..i], executor.stages[i]);
      FoldAppend(Flatten(executor.stages[..i]), executor.stages[i], dp, old(g.mem), inputs);
      assert executor.stages[..i + 1] == executor.stages[..i] + [executor.stages[i]];
    }
    assert executor.stages[..|executor.stages|] == stages.value;
    ChunksFlatten(operations, []);
    assert [] + Erase(operations) == Erase(operations);
    return executor.Done(), executor.ctx;
  }

  lemma FoldNothing<M, C>(dp: Option<DpBuffer>, m: M, c: C)
    ensures forall stages: seq<Stage<M, C>> :: Fold(Flatten(stages[..0]), dp, m, c) == (m, c)
  {
  }
}
