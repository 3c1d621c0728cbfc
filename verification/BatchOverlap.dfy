/** Two-batch overlap computes what the unsplit model computes: the rows of a batch are cut at a
    token, both parts run through the staged executors, and the results are concatenated. */
module BatchOverlap {
  import opened Options
  import opened Operations
  import SplitSearch

  /** An operation of the model on token rows of type R (hidden state and residual of one token).
      Each token first publishes a value to the shared pool (for attention: its key and value) and
      then computes its new row from its old one and the published values of the tokens it sees.
      A row-wise operation sees no token. */
  datatype TokenOp<!R, !K> = TokenOp(
    emit: (nat, R) -> K,
    sees: nat -> seq<nat>,
    apply: (nat, R, seq<K>) -> R)

  /** The shared pool: one slot per operation and token. A slot that was never written reads as `blank`. */
  type Pool<K> = map<(nat, nat), K>

  function Read<K>(pool: Pool<K>, blank: K, o: nat, t: nat): K {
    if (o, t) in pool then pool[(o, t)] else blank
  }

  /** The rows of the tokens lo, lo + 1, ... that one executor works on. */
  datatype Shard<+R> = Shard(lo: nat, rows: seq<R>)

  function Written<R, K>(o: nat, op: TokenOp<R, K>, c: Shard<R>): Pool<K> {
    map t: nat | c.lo <= t < c.lo + |c.rows| :: (o, t) := op.emit(t, c.rows[t - c.lo])
  }

  function ReadAll<K>(pool: Pool<K>, blank: K, o: nat, tokens: seq<nat>): seq<K> {
    seq(|tokens|, k requires 0 <= k < |tokens| => Read(pool, blank, o, tokens[k]))
  }

  /** Operation number `o` on a shard. */
  function ApplyOp<R, K>(o: nat, op: TokenOp<R, K>, blank: K, pool: Pool<K>, c: Shard<R>): (Pool<K>, Shard<R>) {
    var pool' := pool + Written(o, op, c);
    (pool', Shard(c.lo, seq(|c.rows|, i requires 0 <= i < |c.rows| =>
       op.apply(c.lo + i, c.rows[i], ReadAll(pool', blank, o, op.sees(c.lo + i))))))
  }

  function OpFn<R, K>(o: nat, op: TokenOp<R, K>, blank: K): Operation<Pool<K>, Shard<R>> {
    (dp, pool, c) => ApplyOp(o, op, blank, pool, c)
  }

  /** The operation list as the executors run it; operation number `from` comes first. */
  function Numbered<R, K>(items: seq<Item<TokenOp<R, K>>>, from: nat, blank: K): seq<Item<Operation<Pool<K>, Shard<R>>>> {
    if items == [] then []
    else if items[0].Yield? then [Yield] + Numbered(items[1..], from, blank)
    else [Exec(OpFn(from, items[0].op, blank))] + Numbered(items[1..], from + 1, blank)
  }

  /** A model over n tokens: what an operation sees are tokens of the batch. */
  ghost predicate SeesBatch<R, K>(ops: seq<TokenOp<R, K>>, n: nat) {
    forall o, t, k :: 0 <= o < |ops| && 0 <= t < n && 0 <= k < |ops[o].sees(t)| ==> ops[o].sees(t)[k] < n
  }

  /** No token before the cut sees a token after it. */
  ghost predicate SplitSafe<R, K>(ops: seq<TokenOp<R, K>>, mid: nat) {
    forall o, t, k :: 0 <= o < |ops| && 0 <= t < mid && 0 <= k < |ops[o].sees(t)| ==> ops[o].sees(t)[k] < mid
  }

  // ---- The reference: all rows at once ----

  /** All rows after the first `done` operations, each applied to the whole batch. */
  ghost function Values<R, K>(ops: seq<TokenOp<R, K>>, inputs: seq<R>, done: nat): (rows: seq<R>)
    requires done <= |ops| && SeesBatch(ops, |inputs|)
    ensures |rows| == |inputs|
  {
    if done == 0 then inputs else
      var before := Values(ops, inputs, done - 1);
      seq(|inputs|, t requires 0 <= t < |inputs| =>
        Applied(ops[done - 1], before, t))
  }

  ghost function Applied<R, K>(op: TokenOp<R, K>, rows: seq<R>, t: nat): R
    requires t < |rows| && forall k :: 0 <= k < |op.sees(t)| ==> op.sees(t)[k] < |rows|
  {
    op.apply(t, rows[t], EmitAll(op, rows, op.sees(t)))
  }

  ghost function EmitAll<R, K>(op: TokenOp<R, K>, rows: seq<R>, tokens: seq<nat>): seq<K>
    requires forall k :: 0 <= k < |tokens| ==> tokens[k] < |rows|
  {
    seq(|tokens|, k requires 0 <= k < |tokens| => op.emit(tokens[k], rows[tokens[k]]))
  }

  // ---- One operation on one shard ----

  /** The slots of tokens lo .. hi - 1 hold the right values for the first `upto` operations. */
  ghost predicate Filled<R, K>(pool: Pool<K>, ops: seq<TokenOp<R, K>>, inputs: seq<R>, lo: nat, hi: nat, upto: nat)
    requires upto <= |ops| && hi <= |inputs| && SeesBatch(ops, |inputs|)
  {
    forall o, t :: 0 <= o < upto && lo <= t < hi ==> Slot(pool, ops, inputs, o, t)
  }

  ghost predicate Slot<R, K>(pool: Pool<K>, ops: seq<TokenOp<R, K>>, inputs: seq<R>, o: nat, t: nat)
    requires o < |ops| && t < |inputs| && SeesBatch(ops, |inputs|)
  {
    (o, t) in pool && pool[(o, t)] == ops[o].emit(t, Values(ops, inputs, o)[t])
  }

  /** The shard holds the reference rows before operation o, and every token that the operation
      sees from it is in the shard or has already published. */
  ghost predicate Ready<R, K>(ops: seq<TokenOp<R, K>>, inputs: seq<R>, o: nat, pool: Pool<K>, c: Shard<R>) {
    && o < |ops| && SeesBatch(ops, |inputs|)
    && c.lo + |c.rows| <= |inputs| && c.rows == Values(ops, inputs, o)[c.lo..c.lo + |c.rows|]
    && forall t, k :: c.lo <= t < c.lo + |c.rows| && 0 <= k < |ops[o].sees(t)| ==>
         var s := ops[o].sees(t)[k]; c.lo <= s < c.lo + |c.rows| || Slot(pool, ops, inputs, o, s)
  }

  lemma PoolAfter<R, K>(ops: seq<TokenOp<R, K>>, inputs: seq<R>, o: nat, pool: Pool<K>, c: Shard<R>)
    requires Ready(ops, inputs, o, pool, c)
    ensures var pool' := pool + Written(o, ops[o], c);
            && (forall t :: c.lo <= t < c.lo + |c.rows| ==> Slot(pool', ops, inputs, o, t))
            && SameOutside(pool, pool', o, o + 1, c.lo, c.lo + |c.rows|)
  {
    hide Values;
    var pool' := pool + Written(o, ops[o], c);
    forall t | c.lo <= t < c.lo + |c.rows| ensures Slot(pool', ops, inputs, o, t) {
      assert (o, t) in Written(o, ops[o], c);
      assert c.rows[t - c.lo] == Values(ops, inputs, o)[t];
    }
  }

  /** What row i of the shard reads are the reference values of the tokens it sees. */
  lemma SeenValues<R, K>(ops: seq<TokenOp<R, K>>, inputs: seq<R>, blank: K, o: nat, pool: Pool<K>, c: Shard<R>, i: nat)
    requires Ready(ops, inputs, o, pool, c) && i < |c.rows|
    ensures ReadAll(pool + Written(o, ops[o], c), blank, o, ops[o].sees(c.lo + i)) ==
            EmitAll(ops[o], Values(ops, inputs, o), ops[o].sees(c.lo + i))
  {
    hide Values;
    PoolAfter(ops, inputs, o, pool, c);
    var seen := ops[o].sees(c.lo + i);
    var pool' := pool + Written(o, ops[o], c);
    forall k | 0 <= k < |seen|
      ensures Read(pool', blank, o, seen[k]) == ops[o].emit(seen[k], Values(ops, inputs, o)[seen[k]])
    {
      if !(c.lo <= seen[k] < c.lo + |c.rows|) { assert Slot(pool, ops, inputs, o, seen[k]); }
      assert Slot(pool', ops, inputs, o, seen[k]);
    }
  }

  lemma RowAfter<R, K>(ops: seq<TokenOp<R, K>>, inputs: seq<R>, blank: K, o: nat, pool: Pool<K>, c: Shard<R>, i: nat)
    requires Ready(ops, inputs, o, pool, c) && i < |c.rows|
    ensures ApplyOp(o, ops[o], blank, pool, c).1.rows[i] == Values(ops, inputs, o + 1)[c.lo + i]
  {
    hide ReadAll, EmitAll, Slot, Written;
    SeenValues(ops, inputs, blank, o, pool, c, i);
    var before := Values(ops, inputs, o);
    assert c.rows[i] == before[c.lo + i];
    assert Values(ops, inputs, o + 1)[c.lo + i] == Applied(ops[o], before, c.lo + i);
  }

  /** An operation on a ready shard computes the shard's part of the reference rows, publishes the
      shard's slots and touches no other slot. */
  lemma OpOnShard<R, K>(ops: seq<TokenOp<R, K>>, inputs: seq<R>, blank: K, o: nat, pool: Pool<K>, c: Shard<R>)
    requires Ready(ops, inputs, o, pool, c)
    ensures var (pool', c') := ApplyOp(o, ops[o], blank, pool, c);
            && c'.lo == c.lo && c'.rows == Values(ops, inputs, o + 1)[c.lo..c.lo + |c.rows|]
            && (forall t :: c.lo <= t < c.lo + |c.rows| ==> Slot(pool', ops, inputs, o, t))
            && SameOutside(pool, pool', o, o + 1, c.lo, c.lo + |c.rows|)
  {
    hide Values, Slot, SameOutside, SeesBatch, ReadAll, EmitAll, Written;
    PoolAfter(ops, inputs, o, pool, c);
    forall i | 0 <= i < |c.rows|
      ensures ApplyOp(o, ops[o], blank, pool, c).1.rows[i] == Values(ops, inputs, o + 1)[c.lo + i]
    {
      RowAfter(ops, inputs, blank, o, pool, c, i);
    }
  }

  /** Two pools agree except on the slots of operations from .. to - 1 and tokens lo .. hi - 1. */
  ghost predicate SameOutside<K>(pool: Pool<K>, pool': Pool<K>, from: nat, to: nat, lo: nat, hi: nat) {
    forall o, t :: o < from || o >= to || t < lo || t >= hi ==>
      ((o, t) in pool <==> (o, t) in pool') && ((o, t) in pool ==> pool'[(o, t)] == pool[(o, t)])
  }

  // ---- A stage on a shard ----

  function OpFns<R, K>(ops: seq<TokenOp<R, K>>, blank: K): (fns: seq<Operation<Pool<K>, Shard<R>>>)
    ensures |fns| == |ops|
  {
    seq(|ops|, o requires 0 <= o < |ops| => OpFn(o, ops[o], blank))
  }

  /** Every token that operations from .. to - 1 see from the tokens lo .. hi - 1 is one of those
      tokens or has already published. */
  ghost predicate Served<R, K>(ops: seq<TokenOp<R, K>>, inputs: seq<R>, pool: Pool<K>, from: nat, to: nat, lo: nat, hi: nat)
    requires to <= |ops| && hi <= |inputs| && SeesBatch(ops, |inputs|)
  {
    forall o, t, k :: from <= o < to && lo <= t < hi && 0 <= k < |ops[o].sees(t)| ==>
      var s := ops[o].sees(t)[k]; lo <= s < hi || Slot(pool, ops, inputs, o, s)
  }

  /** What consecutive operations do to a shard. */
  ghost predicate Advanced<R, K>(ops: seq<TokenOp<R, K>>, inputs: seq<R>, pool: Pool<K>, pool': Pool<K>,
                                 from: nat, to: nat, lo: nat, hi: nat, c: Shard<R>)
    requires from <= to <= |ops| && lo <= hi <= |inputs| && SeesBatch(ops, |inputs|)
  {
    && c == Shard(lo, Values(ops, inputs, to)[lo..hi])
    && (forall o, t :: from <= o < to && lo <= t < hi ==> Slot(pool', ops, inputs, o, t))
    && SameOutside(pool, pool', from, to, lo, hi)
  }

  lemma {:induction false} FoldOnShard<R, K>(
    ops: seq<TokenOp<R, K>>, inputs: seq<R>, blank: K, dp: Option<DpBuffer>, pool: Pool<K>,
    from: nat, to: nat, lo: nat, hi: nat)
    requires from <= to <= |ops| && lo <= hi <= |inputs| && SeesBatch(ops, |inputs|)
    requires Served(ops, inputs, pool, from, to, lo, hi)
    ensures var (pool', c) := Fold(OpFns(ops, blank)[from..to], dp, pool, Shard(lo, Values(ops, inputs, from)[lo..hi]));
            Advanced(ops, inputs, pool, pool', from, to, lo, hi, c)
  {
    hide Values, SeesBatch, OpFns, ApplyOp;
    if from < to {
      var o := to - 1;
      var start := Shard(lo, Values(ops, inputs, from)[lo..hi]);
      FoldOnShard(ops, inputs, blank, dp, pool, from, o, lo, hi);
      var (pool', c) := Fold(OpFns(ops, blank)[from..o], dp, pool, start);
      ReadyAfter(ops, inputs, pool, pool', from, o, lo, hi, c);
      OpOnShard(ops, inputs, blank, o, pool', c);
      FoldStep(ops, blank, dp, pool, start, from, o);
      var (pool2, c2) := ApplyOp(o, ops[o], blank, pool', c);
      AdvancedStep(ops, inputs, pool, pool', pool2, from, o, lo, hi, c2);
    }
  }

  lemma FoldStep<R, K>(ops: seq<TokenOp<R, K>>, blank: K, dp: Option<DpBuffer>, pool: Pool<K>, c: Shard<R>, from: nat, o: nat)
    requires from <= o < |ops|
    ensures var fns := OpFns(ops, blank);
            var (pool', c') := Fold(fns[from..o], dp, pool, c);
            Fold(fns[from..o + 1], dp, pool, c) == ApplyOp(o, ops[o], blank, pool', c')
  {
    var fns := OpFns(ops, blank);
    assert fns[from..o + 1][..o - from] == fns[from..o];
    assert fns[from..o + 1][o - from] == OpFn(o, ops[o], blank);
  }

  lemma ReadyAfter<R, K>(ops: seq<TokenOp<R, K>>, inputs: seq<R>, pool: Pool<K>, pool': Pool<K>,
                         from: nat, o: nat, lo: nat, hi: nat, c: Shard<R>)
    requires from <= o < |ops| && lo <= hi <= |inputs| && SeesBatch(ops, |inputs|)
    requires Served(ops, inputs, pool, from, o + 1, lo, hi)
    requires Advanced(ops, inputs, pool, pool', from, o, lo, hi, c)
    ensures Ready(ops, inputs, o, pool', c)
  {
    hide Values;
    forall t, k | lo <= t < hi && 0 <= k < |ops[o].sees(t)| && !(lo <= ops[o].sees(t)[k] < hi)
      ensures Slot(pool', ops, inputs, o, ops[o].sees(t)[k])
    {
      assert Slot(pool, ops, inputs, o, ops[o].sees(t)[k]);
    }
  }

  lemma AdvancedStep<R, K>(ops: seq<TokenOp<R, K>>, inputs: seq<R>, pool: Pool<K>, pool': Pool<K>, pool2: Pool<K>,
                           from: nat, o: nat, lo: nat, hi: nat, c: Shard<R>)
    requires from <= o < |ops| && lo <= hi <= |inputs| && SeesBatch(ops, |inputs|)
    requires forall o', t :: from <= o' < o && lo <= t < hi ==> Slot(pool', ops, inputs, o', t)
    requires SameOutside(pool, pool', from, o, lo, hi) && SameOutside(pool', pool2, o, o + 1, lo, hi)
    requires forall t :: lo <= t < hi ==> Slot(pool2, ops, inputs, o, t)
    requires c == Shard(lo, Values(ops, inputs, o + 1)[lo..hi])
    ensures Advanced(ops, inputs, pool, pool2, from, o + 1, lo, hi, c)
  {
    hide Values, SeesBatch, SameOutside, Slot;
    SameOutsideTrans(pool, pool', pool2, from, o, lo, hi);
    forall o', t | from <= o' < o && lo <= t < hi ensures Slot(pool2, ops, inputs, o', t) {
      OlderSlot(ops, inputs, pool', pool2, from, o, lo, hi, o', t);
    }
    forall o', t | from <= o' < o + 1 && lo <= t < hi ensures Slot(pool2, ops, inputs, o', t) {
      assert o' == o || o' < o;
    }
  }

  lemma OlderSlot<R, K>(ops: seq<TokenOp<R, K>>, inputs: seq<R>, pool': Pool<K>, pool2: Pool<K>,
                        from: nat, o: nat, lo: nat, hi: nat, o': nat, t: nat)
    requires from <= o' < o < |ops| && lo <= t < hi <= |inputs| && SeesBatch(ops, |inputs|)
    requires forall o', t :: from <= o' < o && lo <= t < hi ==> Slot(pool', ops, inputs, o', t)
    requires SameOutside(pool', pool2, o, o + 1, lo, hi)
    ensures Slot(pool2, ops, inputs, o', t)
  {
    hide Values, SeesBatch, SameOutside, Slot;
    SlotKept(ops, inputs, pool', pool2, o, o + 1, lo, hi, o', t);
  }

  lemma SameOutsideTrans<K>(pool: Pool<K>, pool': Pool<K>, pool2: Pool<K>, from: nat, o: nat, lo: nat, hi: nat)
    requires from <= o
    requires SameOutside(pool, pool', from, o, lo, hi) && SameOutside(pool', pool2, o, o + 1, lo, hi)
    ensures SameOutside(pool, pool2, from, o + 1, lo, hi)
  {
    forall o', t' | o' < from || o' >= o + 1 || t' < lo || t' >= hi
      ensures ((o', t') in pool <==> (o', t') in pool2) && ((o', t') in pool ==> pool2[(o', t')] == pool[(o', t')])
    {
      assert (o', t') in pool <==> (o', t') in pool';
    }
  }

  /** A slot outside the touched range keeps its value. */
  lemma SlotKept<R, K>(ops: seq<TokenOp<R, K>>, inputs: seq<R>, pool: Pool<K>, pool': Pool<K>,
                       from: nat, to: nat, lo: nat, hi: nat, o: nat, t: nat)
    requires o < |ops| && t < |inputs| && SeesBatch(ops, |inputs|)
    requires SameOutside(pool, pool', from, to, lo, hi) && (o < from || o >= to || t < lo || t >= hi)
    requires Slot(pool, ops, inputs, o, t)
    ensures Slot(pool', ops, inputs, o, t)
  {
    hide Values, SeesBatch;
    assert (o, t) in pool;
  }

  // ---- Stages as consecutive operations ----

  lemma {:induction false} FlattenConcat<Op>(x: seq<seq<Op>>, y: seq<seq<Op>>)
    ensures Flatten(x + y) == Flatten(x) + Flatten(y)
  {
    if x == [] {
      assert x + y == y;
    } else {
      FlattenConcat(x[1..], y);
      assert (x + y)[1..] == x[1..] + y;
      assert x[0] + (Flatten(x[1..]) + Flatten(y)) == (x[0] + Flatten(x[1..])) + Flatten(y);
    }
  }

  /** How many operations the first i stages hold. */
  ghost function Offset<Op>(stages: seq<seq<Op>>, i: nat): nat
    requires i <= |stages|
  {
    |Flatten(stages[..i])|
  }

  lemma FlattenNothing<Op>(stages: seq<seq<Op>>)
    ensures |Flatten(stages[..0])| == 0
  {
  }

  lemma OffsetBounds<Op>(stages: seq<seq<Op>>, i: nat)
    requires i <= |stages|
    ensures Offset(stages, 0) == 0 && Offset(stages, |stages|) == |Flatten(stages)|
    ensures Offset(stages, i) <= |Flatten(stages)|
    ensures i < |stages| ==> Offset(stages, i + 1) == Offset(stages, i) + |stages[i]|
    ensures i < |stages| ==> Offset(stages, i + 1) <= |Flatten(stages)|
    ensures i < |stages| ==> stages[i] == Flatten(stages)[Offset(stages, i)..Offset(stages, i + 1)]
  {
    hide Flatten;
    FlattenNothing(stages);
    assert stages[..|stages|] == stages;
    assert stages == stages[..i] + stages[i..];
    FlattenConcat(stages[..i], stages[i..]);
    if i < |stages| {
      assert stages[..i + 1] == stages[..i] + [stages[i]];
      FlattenAppend(stages[..i], stages[i]);
      assert stages == stages[..i + 1] + stages[i + 1..];
      FlattenConcat(stages[..i + 1], stages[i + 1..]);
    }
  }

  lemma {:induction false} OffsetMonotone<Op>(stages: seq<seq<Op>>, i: nat, j: nat)
    requires i <= j <= |stages|
    ensures Offset(stages, i) <= Offset(stages, j)
  {
    if i < j {
      OffsetMonotone(stages, i, j - 1);
      OffsetBounds(stages, j - 1);
    }
  }

  // ---- The two executors ----

  /** A model of token operations cut into stages, a batch, and the token where it is cut. */
  datatype Job<!R, !K> = Job(ops: seq<TokenOp<R, K>>, stages: seq<Stage<Pool<K>, Shard<R>>>,
                             inputs: seq<R>, mid: nat, blank: K)
  {
    ghost predicate Valid() {
      && mid <= |inputs| && SeesBatch(ops, |inputs|) && SplitSafe(ops, mid)
      && Flatten(stages) == OpFns(ops, blank)
    }

    /** How many operations an executor has run after i stages. */
    ghost function Done(i: nat): (done: nat)
      requires Valid() && i <= |stages|
      ensures done <= |ops|
    {
      OffsetBounds(stages, i);
      Offset(stages, i)
    }

    ghost predicate Holds(s: System<Pool<K>, Shard<R>>)
      requires Valid()
    {
      && s.indexA <= |stages| && s.indexB <= |stages|
      && s.ctxA == Shard(0, Values(ops, inputs, Done(s.indexA))[0..mid])
      && s.ctxB == Shard(mid, Values(ops, inputs, Done(s.indexB))[mid..|inputs|])
      && Filled(s.mem, ops, inputs, 0, mid, Done(s.indexA))
      && Filled(s.mem, ops, inputs, mid, |inputs|, Done(s.indexB))
    }

    ghost function Plan(ownA: Option<DpBuffer>, ownB: Option<DpBuffer>): Operations.Plan<Pool<K>, Shard<R>> {
      Operations.Plan(stages, stages, ownA, ownB)
    }
  }

  lemma StageAdvances<R, K>(j: Job<R, K>, i: nat, dp: Option<DpBuffer>, pool: Pool<K>, lo: nat, hi: nat)
    requires j.Valid() && i < |j.stages| && lo <= hi <= |j.inputs|
    requires j.Done(i) <= j.Done(i + 1)
    requires Served(j.ops, j.inputs, pool, j.Done(i), j.Done(i + 1), lo, hi)
    ensures var (pool', c) := Fold(j.stages[i], dp, pool, Shard(lo, Values(j.ops, j.inputs, j.Done(i))[lo..hi]));
            Advanced(j.ops, j.inputs, pool, pool', j.Done(i), j.Done(i + 1), lo, hi, c)
  {
    hide Fold, Values, Served, Advanced, OpFns, SeesBatch, SplitSafe;
    OffsetBounds(j.stages, i);
    FoldOnShard(j.ops, j.inputs, j.blank, dp, pool, j.Done(i), j.Done(i + 1), lo, hi);
  }

  /** Slots outside the touched range stay filled. */
  lemma FilledKept<R, K>(ops: seq<TokenOp<R, K>>, inputs: seq<R>, pool: Pool<K>, pool': Pool<K>,
                         from: nat, to: nat, lo: nat, hi: nat, lo': nat, hi': nat, upto: nat)
    requires upto <= |ops| && hi' <= |inputs| && SeesBatch(ops, |inputs|)
    requires SameOutside(pool, pool', from, to, lo, hi) && (hi' <= lo || hi <= lo' || upto <= from)
    requires Filled(pool, ops, inputs, lo', hi', upto)
    ensures Filled(pool', ops, inputs, lo', hi', upto)
  {
    hide Values, SeesBatch, SameOutside, Slot;
    forall o, t | 0 <= o < upto && lo' <= t < hi' ensures Slot(pool', ops, inputs, o, t) {
      assert Slot(pool, ops, inputs, o, t);
      SlotKept(ops, inputs, pool, pool', from, to, lo, hi, o, t);
    }
  }

  lemma FilledMore<R, K>(ops: seq<TokenOp<R, K>>, inputs: seq<R>, pool: Pool<K>, lo: nat, hi: nat, from: nat, to: nat)
    requires from <= to <= |ops| && hi <= |inputs| && SeesBatch(ops, |inputs|)
    requires Filled(pool, ops, inputs, lo, hi, from)
    requires forall o, t :: from <= o < to && lo <= t < hi ==> Slot(pool, ops, inputs, o, t)
    ensures Filled(pool, ops, inputs, lo, hi, to)
  {
    hide Slot, SeesBatch;
  }

  /** The first executor never needs the second one: no token before the cut sees one after it. */
  lemma StepA<R, K>(j: Job<R, K>, p: Operations.Plan<Pool<K>, Shard<R>>, s: System<Pool<K>, Shard<R>>)
    requires j.Valid() && p.stagesA == j.stages && p.stagesB == j.stages
    requires j.Holds(s) && s.indexA < |j.stages|
    ensures j.Holds(Step(p, A, s))
  {
    hide Values, SeesBatch, Slot, Fold;
    var i, n := s.indexA, |j.inputs|;
    DoneStep(j, i);
    var from, to := j.Done(i), j.Done(i + 1);
    assert Served(j.ops, j.inputs, s.mem, from, to, 0, j.mid);
    StageAdvances(j, i, Operations.Published(p.ownA, s.dp), s.mem, 0, j.mid);
    var s' := Step(p, A, s);
    FilledKept(j.ops, j.inputs, s.mem, s'.mem, from, to, 0, j.mid, 0, j.mid, from);
    FilledMore(j.ops, j.inputs, s'.mem, 0, j.mid, from, to);
    FilledKept(j.ops, j.inputs, s.mem, s'.mem, from, to, 0, j.mid, j.mid, n, j.Done(s.indexB));
  }

  lemma DoneStep<R, K>(j: Job<R, K>, i: nat)
    requires j.Valid() && i < |j.stages|
    ensures j.Done(i) <= j.Done(i + 1)
  {
    OffsetBounds(j.stages, i);
  }

  /** The second executor finds what it needs, because the first one has completed the same stage. */
  lemma StepB<R, K>(j: Job<R, K>, p: Operations.Plan<Pool<K>, Shard<R>>, s: System<Pool<K>, Shard<R>>)
    requires j.Valid() && p.stagesA == j.stages && p.stagesB == j.stages
    requires j.Holds(s) && s.indexB < s.indexA
    ensures j.Holds(Step(p, B, s))
  {
    hide Values, Slot, Fold, SplitSafe;
    var i, n := s.indexB, |j.inputs|;
    DoneStep(j, i);
    OffsetMonotone(j.stages, i + 1, s.indexA);
    var from, to := j.Done(i), j.Done(i + 1);
    assert Served(j.ops, j.inputs, s.mem, from, to, j.mid, n);
    StageAdvances(j, i, Operations.Published(p.ownB, s.dp), s.mem, j.mid, n);
    var s' := Step(p, B, s);
    FilledKept(j.ops, j.inputs, s.mem, s'.mem, from, to, j.mid, n, j.mid, n, from);
    FilledMore(j.ops, j.inputs, s'.mem, j.mid, n, from, to);
    FilledKept(j.ops, j.inputs, s.mem, s'.mem, from, to, j.mid, n, 0, j.mid, j.Done(s.indexA));
  }

  /** B never starts a stage that A has not completed. */
  ghost predicate Behind(schedule: seq<Who>) {
    forall k :: 0 <= k < |schedule| && schedule[k] == B ==> Count(schedule[..k], B) < Count(schedule[..k], A)
  }

  lemma OverlapIsBehind(n: nat, delta: nat)
    requires delta <= n
    ensures Behind(OverlapSchedule(n, delta))
  {
    hide OverlapSchedule, Count;
    var schedule := OverlapSchedule(n, delta);
    OverlapLead(n, delta, 0);
    forall k | 0 <= k < |schedule| && schedule[k] == B ensures Count(schedule[..k], B) < Count(schedule[..k], A) {
      OverlapLead(n, delta, k);
    }
  }

  ghost function StartOf<R, K>(j: Job<R, K>, pool: Pool<K>, dp: Option<DpBuffer>): System<Pool<K>, Shard<R>>
    requires j.Valid()
  {
    Start(pool, dp, Shard(0, j.inputs[0..j.mid]), Shard(j.mid, j.inputs[j.mid..|j.inputs|]))
  }

  /** Under every schedule that keeps B behind, whatever the pool held before, each executor's rows
      are its part of the reference rows after the operations it has run. */
  lemma {:induction false} RunHolds<R, K>(j: Job<R, K>, p: Operations.Plan<Pool<K>, Shard<R>>, schedule: seq<Who>,
                                          pool: Pool<K>, dp: Option<DpBuffer>)
    requires j.Valid() && p.stagesA == j.stages && p.stagesB == j.stages
    requires Fits(p, schedule) && Behind(schedule)
    ensures j.Holds(Run(p, schedule, StartOf(j, pool, dp)))
  {
    if schedule == [] {
      OffsetBounds(j.stages, 0);
    } else {
      hide Values, Job.Valid, Job.Holds, Fits;
      var k := |schedule| - 1;
      var before := schedule[..k];
      BehindPrefix(p, schedule, k);
      RunHolds(j, p, before, pool, dp);
      var s := Run(p, before, StartOf(j, pool, dp));
      match schedule[k]
      case A => StepA(j, p, s);
      case B => StepB(j, p, s);
    }
  }

  lemma BehindPrefix<M, C>(p: Operations.Plan<M, C>, schedule: seq<Who>, k: nat)
    requires k + 1 == |schedule| && Fits(p, schedule) && Behind(schedule)
    ensures Fits(p, schedule[..k]) && Behind(schedule[..k])
    ensures Count(schedule[..k], A) + (if schedule[k] == A then 1 else 0) <= |p.stagesA|
    ensures schedule[k] == B ==> Count(schedule[..k], B) < Count(schedule[..k], A)
  {
    forall l | 0 <= l < k ensures schedule[..k][..l] == schedule[..l] {}
  }

  // ---- The model forward ----

  lemma {:induction false} EraseNumbered<R, K>(items: seq<Item<TokenOp<R, K>>>, from: nat, blank: K)
    ensures Erase(Numbered(items, from, blank)) ==
            seq(|Erase(items)|, o requires 0 <= o < |Erase(items)| => OpFn(from + o, Erase(items)[o], blank))
  {
    if items != [] {
      if items[0].Yield? {
        EraseNumbered(items[1..], from, blank);
        assert Numbered(items, from, blank)[1..] == Numbered(items[1..], from, blank);
      } else {
        EraseNumbered(items[1..], from + 1, blank);
        assert Numbered(items, from, blank)[1..] == Numbered(items[1..], from + 1, blank);
      }
    }
  }

  lemma StagesOfModel<R, K>(items: seq<Item<TokenOp<R, K>>>, blank: K)
    ensures Erase(Numbered(items, 0, blank)) == OpFns(Erase(items), blank)
    ensures Flatten(ChunksFrom(Numbered(items, 0, blank), [])) == OpFns(Erase(items), blank)
  {
    EraseNumbered(items, 0, blank);
    ChunksFlatten(Numbered(items, 0, blank), []);
    assert [] + Erase(Numbered(items, 0, blank)) == Erase(Numbered(items, 0, blank));
  }

  /** The unsplit run. */
  method ModelForwardNonTbo<R, K>(g: Globals<Pool<K>>, items: seq<Item<TokenOp<R, K>>>, inputs: seq<R>, blank: K,
                                  own: Option<DpBuffer>)
    returns (ok: bool, outputs: seq<R>)
    requires SeesBatch(Erase(items), |inputs|)
    modifies g
    ensures ok <==> AllNonEmpty(ChunksFrom(Numbered(items, 0, blank), []))
    ensures ok ==> outputs == Values(Erase(items), inputs, |Erase(items)|)
  {
    hide Values, Fold, ChunksFrom, AllNonEmpty, Numbered, Erase, SeesBatch, Advanced, Served, OpFns;
    ghost var ops, pool, dp := Erase(items), g.mem, Operations.Published(own, g.dp);
    var shard;
    ok, shard := ExecuteOperations(g, Shard(0, inputs), Numbered(items, 0, blank), own);
    outputs := shard.rows;
    if ok {
      WholeBatch(ops, inputs, blank, dp, pool);
      StagesOfModel(items, blank);
    }
  }

  lemma WholeBatch<R, K>(ops: seq<TokenOp<R, K>>, inputs: seq<R>, blank: K, dp: Option<DpBuffer>, pool: Pool<K>)
    requires SeesBatch(ops, |inputs|)
    ensures Fold(OpFns(ops, blank), dp, pool, Shard(0, inputs)).1 == Shard(0, Values(ops, inputs, |ops|))
  {
    hide Fold, Slot;
    FoldOnShard(ops, inputs, blank, dp, pool, 0, |ops|, 0, |inputs|);
    assert inputs[0..|inputs|] == inputs;
    assert Values(ops, inputs, |ops|)[0..|inputs|] == Values(ops, inputs, |ops|);
    assert OpFns(ops, blank)[0..|ops|] == OpFns(ops, blank);
  }

  /** The overlapped run: cut the rows at `mid`, run both parts `delta` stages apart on one pool, and
      concatenate. Whenever it is legal it returns what the unsplit run returns. */
  method ModelForwardTbo<R, K>(g: Globals<Pool<K>>, items: seq<Item<TokenOp<R, K>>>, inputs: seq<R>, mid: nat, blank: K,
                               ownA: Option<DpBuffer>, ownB: Option<DpBuffer>, delta: int)
    returns (ok: bool, outputs: seq<R>)
    requires mid <= |inputs|
    requires SeesBatch(Erase(items), |inputs|) && SplitSafe(Erase(items), mid)
    modifies g
    ensures ok <==> var stages := ChunksFrom(Numbered(items, 0, blank), []);
                    AllNonEmpty(stages) && 0 <= delta <= |stages|
    ensures ok ==> outputs == Values(Erase(items), inputs, |Erase(items)|)
  {
    hide Values, Run, Fits, ChunksFrom, AllNonEmpty, Numbered, Erase, SeesBatch, SplitSafe, Behind, OverlapSchedule, Job.Holds;
    ghost var j := Job(Erase(items), ChunksFrom(Numbered(items, 0, blank), []), inputs, mid, blank);
    ghost var pool, dp := g.mem, g.dp;
    StagesOfModel(items, blank);
    var list := Numbered(items, 0, blank);
    var a, b;
    ok, a, b := ExecuteOverlappedOperations(g, Shard(0, inputs[0..mid]), Shard(mid, inputs[mid..|inputs|]),
                                            list, list, ownA, ownB, (0, delta));
    outputs := a.rows + b.rows;
    if ok {
      OverlapIsBehind(|j.stages|, delta);
      RunHolds(j, j.Plan(ownA, ownB), OverlapSchedule(|j.stages|, delta), pool, dp);
      Merged(j, System(g.mem, g.dp, |j.stages|, a, |j.stages|, b));
    }
  }

  lemma Merged<R, K>(j: Job<R, K>, s: System<Pool<K>, Shard<R>>)
    requires j.Valid() && j.Holds(s) && s.indexA == s.indexB == |j.stages|
    ensures s.ctxA.rows + s.ctxB.rows == Values(j.ops, j.inputs, |j.ops|)
  {
    OffsetBounds(j.stages, |j.stages|);
    var all := Values(j.ops, j.inputs, |j.ops|);
    assert all == all[0..j.mid] + all[j.mid..|j.inputs|];
  }

  // ---- Which cuts are safe ----

  /** No token sees a later token: such operations may be cut anywhere, also inside a sequence. */
  ghost predicate Causal<R, K>(ops: seq<TokenOp<R, K>>, n: nat) {
    forall o, t, k :: 0 <= o < |ops| && 0 <= t < n && 0 <= k < |ops[o].sees(t)| ==> ops[o].sees(t)[k] <= t
  }

  /** A token sees only tokens of its own sequence. */
  ghost predicate SequenceLocal<R, K>(ops: seq<TokenOp<R, K>>, lens: seq<int>, n: nat) {
    forall o, t, k :: 0 <= o < |ops| && 0 <= t < n && 0 <= k < |ops[o].sees(t)| ==> SameSequence(lens, ops[o].sees(t)[k], t)
  }

  /** Tokens s and t belong to the same sequence of a batch with these lengths. */
  ghost predicate SameSequence(lens: seq<int>, s: nat, t: nat) {
    exists q: nat :: q < |lens| && InSequence(lens, q, s) && InSequence(lens, q, t)
  }

  ghost predicate InSequence(lens: seq<int>, q: nat, t: nat)
    requires q < |lens|
  {
    SplitSearch.Prefix(lens, q) <= t < SplitSearch.Prefix(lens, q + 1)
  }

  /** Operations that stay within a sequence may be cut between any two sequences. */
  lemma CutBetweenSequencesIsSafe<R, K>(ops: seq<TokenOp<R, K>>, lens: seq<int>, idx: nat)
    requires SplitSearch.Lengths(lens) && idx <= |lens| && SplitSearch.Prefix(lens, idx) >= 0
    requires SequenceLocal(ops, lens, SplitSearch.Prefix(lens, idx))
    ensures SplitSafe(ops, SplitSearch.Prefix(lens, idx))
  {
    var mid := SplitSearch.Prefix(lens, idx);
    forall o, t, k | 0 <= o < |ops| && 0 <= t < mid && 0 <= k < |ops[o].sees(t)| ensures ops[o].sees(t)[k] < mid {
      var q: nat :| q < |lens| && InSequence(lens, q, ops[o].sees(t)[k]) && InSequence(lens, q, t);
      if q < idx {
        SplitSearch.PrefixMonotone(lens, q + 1, idx);
      } else {
        SplitSearch.PrefixMonotone(lens, idx, q);
      }
    }
  }

  /** The token that the search picks is a safe cut if the operations are causal, or if they stay
      within a sequence and the search does not cut through one. */
  lemma ChosenCutIsSafe<R, K>(ops: seq<TokenOp<R, K>>, lens: seq<int>, threshold: real, idx: nat, n: nat)
    requires SplitSearch.Lengths(lens) && threshold <= 0.5 && SplitSearch.SplitSeqOf(lens, threshold, idx)
    requires SplitSearch.Sum(lens) == n
    requires Causal(ops, n) || (!SplitSearch.Lopsided(lens, threshold) && SequenceLocal(ops, lens, n))
    ensures 0 <= SplitSearch.SplitTokenOf(lens, threshold, idx) <= n
    ensures SplitSafe(ops, SplitSearch.SplitTokenOf(lens, threshold, idx))
  {
    hide SplitSearch.Lopsided, SplitSearch.HalfCut, SplitSearch.Prefix, SplitSearch.Sum, SameSequence;
    SplitSearch.PrefixMonotone(lens, |lens|, |lens|);
    SplitSearch.PrefixWhole(lens);
    var end := if idx < |lens| then idx else |lens|;
    SplitSearch.PrefixMonotone(lens, end, |lens|);
    if !SplitSearch.Lopsided(lens, threshold) && SequenceLocal(ops, lens, n) {
      CutBetweenSequencesIsSafe(ops, lens, end);
    }
  }

  /** An extend batch from end to end: pick the cut for its lengths, split, overlap and merge. The
      result is that of the unsplit run. */
  method ForwardExtendBatch<R, K>(g: Globals<Pool<K>>, items: seq<Item<TokenOp<R, K>>>, inputs: seq<R>, lens: seq<int>,
                                  threshold: real, blank: K, ownA: Option<DpBuffer>, ownB: Option<DpBuffer>, delta: int)
    returns (ok: bool, outputs: seq<R>)
    requires SplitSearch.Lengths(lens) && threshold <= 0.5 && SplitSearch.Sum(lens) == |inputs|
    requires SeesBatch(Erase(items), |inputs|)
    requires Causal(Erase(items), |inputs|)
             || (!SplitSearch.Lopsided(lens, threshold) && SequenceLocal(Erase(items), lens, |inputs|))
    modifies g
    ensures ok <==> var stages := ChunksFrom(Numbered(items, 0, blank), []);
                    AllNonEmpty(stages) && 0 <= delta <= |stages|
    ensures ok ==> outputs == Values(Erase(items), inputs, |Erase(items)|)
  {
    hide *;
    var idx := SplitSearch.SplitExtendSeqs(lens, threshold);
    SplitSeqHolds(lens, threshold, idx);
    var token := SplitSearch.ComputeSplitTokenIndex(idx, SplitSearch.Extend, Some(lens), None, threshold);
    ChosenCutIsSafe(Erase(items), lens, threshold, idx, |inputs|);
    ok, outputs := ModelForwardTbo(g, items, inputs, token.value, blank, ownA, ownB, delta);
  }

  lemma SplitSeqHolds(lens: seq<int>, threshold: real, idx: nat)
    requires if SplitSearch.Lopsided(lens, threshold) then SplitSearch.HalfCut(lens, idx) else SplitSearch.BalancedCut(lens, idx)
    ensures SplitSearch.SplitSeqOf(lens, threshold, idx)
  {
  }

  // ---- Unsafe cuts ----

  /** A model that detects a token before the cut seeing one after it: every token publishes 1, and
      operation o0 replaces the row by the k0-th value it sees; all other operations keep the row. */
  function Probe(sees: seq<nat -> seq<nat>>, o0: nat, k0: nat): seq<TokenOp<int, int>> {
    seq(|sees|, o requires 0 <= o < |sees| => TokenOp(
      (t, r) => 1, sees[o], (t, r, ks) => if o == o0 && k0 < |ks| then ks[k0] else r))
  }

  function Zeros(n: nat): seq<int> { seq(n, _ => 0) }

  lemma {:induction false} ProbeReference(sees: seq<nat -> seq<nat>>, n: nat, o0: nat, t0: nat, k0: nat, done: nat)
    requires SeesBatch(Probe(sees, o0, k0), n) && o0 < done <= |sees| && t0 < n && k0 < |sees[o0](t0)|
    ensures Values(Probe(sees, o0, k0), Zeros(n), done)[t0] == 1
  {
    var ops := Probe(sees, o0, k0);
    var before := Values(ops, Zeros(n), done - 1);
    assert Values(ops, Zeros(n), done)[t0] == Applied(ops[done - 1], before, t0);
    if done - 1 > o0 {
      ProbeReference(sees, n, o0, t0, k0, done - 1);
    } else {
      assert EmitAll(ops[o0], before, sees[o0](t0))[k0] == 1;
    }
  }

  /** Operations from .. to - 1 write only slots of their own and of the shard's tokens. */
  lemma {:induction false} FoldKeys<R, K>(ops: seq<TokenOp<R, K>>, blank: K, dp: Option<DpBuffer>, pool: Pool<K>,
                                          c: Shard<R>, from: nat, to: nat)
    requires from <= to <= |ops|
    ensures var (pool', c') := Fold(OpFns(ops, blank)[from..to], dp, pool, c);
            && c'.lo == c.lo && |c'.rows| == |c.rows|
            && forall o, t :: (o, t) in pool' ==> (o, t) in pool || (from <= o < to && c.lo <= t < c.lo + |c.rows|)
  {
    hide Fold, ApplyOp, OpFns;
    if from == to {
      FoldNoOps(OpFns(ops, blank), dp, pool, c, from);
    } else {
      FoldKeys(ops, blank, dp, pool, c, from, to - 1);
      FoldStep(ops, blank, dp, pool, c, from, to - 1);
      var (pool', c') := Fold(OpFns(ops, blank)[from..to - 1], dp, pool, c);
      KeysAfter(ops[to - 1], to - 1, blank, pool', c');
    }
  }

  lemma FoldNoOps<M, C>(ops: seq<Operation<M, C>>, dp: Option<DpBuffer>, m: M, c: C, from: nat)
    requires from <= |ops|
    ensures Fold(ops[from..from], dp, m, c) == (m, c)
  {
  }

  lemma KeysAfter<R, K>(op: TokenOp<R, K>, o: nat, blank: K, pool: Pool<K>, c: Shard<R>)
    ensures var (pool', c') := ApplyOp(o, op, blank, pool, c);
            && c'.lo == c.lo && |c'.rows| == |c.rows|
            && forall o', t :: (o', t) in pool' ==> (o', t) in pool || (o' == o && c.lo <= t < c.lo + |c.rows|)
  {
    hide ReadAll;
  }

  /** As long as the seen slot is empty, the row of the probed token stays 0. */
  lemma {:induction false} ProbeStaysZero(sees: seq<nat -> seq<nat>>, o0: nat, t0: nat, k0: nat, dp: Option<DpBuffer>,
                                          pool: Pool<int>, c: Shard<int>, from: nat, to: nat)
    requires from <= to <= |sees| && o0 < |sees| && k0 < |sees[o0](t0)|
    requires c.lo == 0 && t0 < |c.rows| && c.rows[t0] == 0
    requires sees[o0](t0)[k0] >= |c.rows| && (o0, sees[o0](t0)[k0]) !in pool
    ensures var (pool', c') := Fold(OpFns(Probe(sees, o0, k0), 0)[from..to], dp, pool, c);
            && c'.lo == 0 && |c'.rows| == |c.rows| && c'.rows[t0] == 0 && (o0, sees[o0](t0)[k0]) !in pool'
  {
    var ops := Probe(sees, o0, k0);
    if from == to {
      assert OpFns(ops, 0)[from..to] == [];
    } else {
      hide Fold, OpFns, ApplyOp, Probe;
      var o := to - 1;
      ProbeStaysZero(sees, o0, t0, k0, dp, pool, c, from, o);
      FoldStep(ops, 0, dp, pool, c, from, o);
      var (pool', c') := Fold(OpFns(ops, 0)[from..o], dp, pool, c);
      ProbeStep(sees, o0, t0, k0, pool', c', o);
    }
  }

  lemma ProbeStep(sees: seq<nat -> seq<nat>>, o0: nat, t0: nat, k0: nat, pool: Pool<int>, c: Shard<int>, o: nat)
    requires o < |sees| && o0 < |sees| && k0 < |sees[o0](t0)|
    requires c.lo == 0 && t0 < |c.rows| && c.rows[t0] == 0
    requires sees[o0](t0)[k0] >= |c.rows| && (o0, sees[o0](t0)[k0]) !in pool
    ensures var (pool', c') := ApplyOp(o, Probe(sees, o0, k0)[o], 0, pool, c);
            && c'.lo == 0 && |c'.rows| == |c.rows| && c'.rows[t0] == 0 && (o0, sees[o0](t0)[k0]) !in pool'
  {
    var op := Probe(sees, o0, k0)[o];
    if o == o0 {
      assert ReadAll(pool + Written(o, op, c), 0, o, sees[o](t0))[k0] == 0;
    }
  }

  /** What holds of the probe while it runs: the slot after the cut is written only by B's own
      operation o0, and the probed row, which belongs to A, is 0. */
  ghost predicate Probing(j: Job<int, int>, s: System<Pool<int>, Shard<int>>, o0: nat, t0: nat, seen: nat)
    requires Flatten(j.stages) == OpFns(j.ops, j.blank) && j.mid <= |j.inputs|
  {
    && s.indexB <= s.indexA <= |j.stages|
    && s.ctxA.lo == 0 && |s.ctxA.rows| == j.mid && s.ctxB.lo == j.mid && |s.ctxB.rows| == |j.inputs| - j.mid
    && t0 < j.mid && s.ctxA.rows[t0] == 0
    && ((o0, seen) in s.mem ==> o0 < Offset(j.stages, s.indexB))
  }

  lemma {:induction false} ProbeRun(sees: seq<nat -> seq<nat>>, j: Job<int, int>, p: Operations.Plan<Pool<int>, Shard<int>>,
                                    schedule: seq<Who>, dp: Option<DpBuffer>, o0: nat, t0: nat, k0: nat)
    requires o0 < |sees| && k0 < |sees[o0](t0)| && t0 < j.mid <= sees[o0](t0)[k0] && j.mid <= |j.inputs|
    requires j.ops == Probe(sees, o0, k0) && j.blank == 0 && j.inputs == Zeros(|j.inputs|)
    requires Flatten(j.stages) == OpFns(j.ops, j.blank)
    requires p.stagesA == j.stages && p.stagesB == j.stages && Fits(p, schedule) && Behind(schedule)
    ensures Probing(j, Run(p, schedule, Start(map[], dp, Shard(0, j.inputs[0..j.mid]), Shard(j.mid, j.inputs[j.mid..]))),
                    o0, t0, sees[o0](t0)[k0])
  {
    hide Fold, OpFns;
    if schedule != [] {
      var k, seen := |schedule| - 1, sees[o0](t0)[k0];
      BehindPrefix(p, schedule, k);
      ProbeRun(sees, j, p, schedule[..k], dp, o0, t0, k0);
      var s := Run(p, schedule[..k], Start(map[], dp, Shard(0, j.inputs[0..j.mid]), Shard(j.mid, j.inputs[j.mid..])));
      var i := if schedule[k] == A then s.indexA else s.indexB;
      OffsetBounds(j.stages, i);
      var from, to := Offset(j.stages, i), Offset(j.stages, i + 1);
      match schedule[k]
      case A =>
        OffsetMonotone(j.stages, s.indexB, s.indexA);
        var own := Operations.Published(p.ownA, s.dp);
        if (o0, seen) !in s.mem {
          ProbeStaysZero(sees, o0, t0, k0, own, s.mem, s.ctxA, from, to);
        } else {
          ProbeDone(sees, o0, t0, k0, own, s.mem, s.ctxA, from, to);
        }
      case B =>
        FoldKeys(j.ops, 0, Operations.Published(p.ownB, s.dp), s.mem, s.ctxB, from, to);
    }
  }

  /** Once operation o0 is behind, the row of the probed token stays as it is. */
  lemma {:induction false} ProbeDone(sees: seq<nat -> seq<nat>>, o0: nat, t0: nat, k0: nat, dp: Option<DpBuffer>,
                                     pool: Pool<int>, c: Shard<int>, from: nat, to: nat)
    requires o0 < from <= to <= |sees| && c.lo == 0 && t0 < |c.rows|
    ensures var (pool', c') := Fold(OpFns(Probe(sees, o0, k0), 0)[from..to], dp, pool, c);
            c'.lo == 0 && |c'.rows| == |c.rows| && c'.rows[t0] == c.rows[t0]
  {
    if from < to {
      ProbeDone(sees, o0, t0, k0, dp, pool, c, from, to - 1);
      FoldStep(Probe(sees, o0, k0), 0, dp, pool, c, from, to - 1);
    }
  }

  /** The condition on the cut is necessary: if some token before the cut sees a token after it, there
      is a model with this visibility, cut into stages in any way, for which every overlapped run
      from an empty pool differs from the unsplit one. */
  lemma UnsafeCutDiffers(sees: seq<nat -> seq<nat>>, stages: seq<Stage<Pool<int>, Shard<int>>>, n: nat, mid: nat,
                         delta: nat, own: Option<DpBuffer>, dp: Option<DpBuffer>, o0: nat, t0: nat, k0: nat)
    requires o0 < |sees| && k0 < |sees[o0](t0)| && t0 < mid <= sees[o0](t0)[k0] && mid <= n
    requires SeesBatch(Probe(sees, o0, k0), n) && Flatten(stages) == OpFns(Probe(sees, o0, k0), 0)
    requires delta <= |stages|
    ensures var p, schedule := Plan(stages, stages, own, own), OverlapSchedule(|stages|, delta);
            var start := Start(map[], dp, Shard(0, Zeros(n)[0..mid]), Shard(mid, Zeros(n)[mid..]));
            && Fits(p, schedule)
            && var s := Run(p, schedule, start);
               s.ctxA.rows + s.ctxB.rows != Values(Probe(sees, o0, k0), Zeros(n), |sees|)
  {
    hide OverlapSchedule, Run, Values, OpFns;
    var ops, p, schedule := Probe(sees, o0, k0), Plan(stages, stages, own, own), OverlapSchedule(|stages|, delta);
    OverlapIsBehind(|stages|, delta);
    OverlapFits(p, delta);
    var j := Job(ops, stages, Zeros(n), mid, 0);
    ProbeRun(sees, j, p, schedule, dp, o0, t0, k0);
    ProbeReference(sees, n, o0, t0, k0, |sees|);
    var s := Run(p, schedule, Start(map[], dp, Shard(0, Zeros(n)[0..mid]), Shard(mid, Zeros(n)[mid..])));
    assert (s.ctxA.rows + s.ctxB.rows)[t0] == 0;
  }

  lemma OverlapFits<M, C>(p: Operations.Plan<M, C>, delta: nat)
    requires delta <= |p.stagesA| == |p.stagesB|
    ensures Fits(p, OverlapSchedule(|p.stagesA|, delta))
  {
    CountPhases(delta, |p.stagesA| - delta, delta);
  }
}
