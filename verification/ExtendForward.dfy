/** An extend batch from end to end: the batch is prepared, each child derives from its own length
    columns which request and position each of its tokens has and what that token may attend to, both
    children run overlapped, and the result is that of the unsplit batch. */
module ExtendForward {
  import opened Options
  import opened Operations
  import opened BatchOverlap
  import opened TwoChunkSplit
  import SplitSearch

  // ---- What a batch's columns say about its tokens ----

  /** The place of a token's key and value in the cache. */
  datatype Slot = Slot(req: int, pos: int)

  function RowSlots(row: SeqRow): seq<Slot> {
    if row.extendLen <= 0 then [] else seq(row.extendLen, i => Slot(row.req, row.prefixLen + i))
  }

  /** The slot of every token of a batch, from its request and length columns. */
  function Slots(rows: seq<SeqRow>): seq<Slot> {
    if rows == [] then [] else Slots(rows[..|rows| - 1]) + RowSlots(rows[|rows| - 1])
  }

  /** How far the cache of each token's request is filled once the batch has run, from the same columns:
      no token reads beyond it. */
  function KvLens(rows: seq<SeqRow>): (lens: seq<int>)
    ensures |lens| == |Slots(rows)|
  {
    if rows == [] then []
    else
      var row := rows[|rows| - 1];
      KvLens(rows[..|rows| - 1]) + if row.extendLen <= 0 then [] else seq(row.extendLen, i => row.seqLen)
  }

  /** Every token is within its request's cache. */
  ghost predicate Covered(slots: seq<Slot>, lens: seq<int>) {
    |slots| == |lens| && forall i :: 0 <= i < |slots| ==> slots[i].pos < lens[i]
  }

  /** In a batch with consistent columns every token is within its request's cache. */
  lemma {:induction false} KvLensCover(rows: seq<SeqRow>)
    requires AllConsistent(rows)
    ensures Covered(Slots(rows), KvLens(rows))
  {
    if rows != [] {
      KvLensCover(rows[..|rows| - 1]);
      assert rows[|rows| - 1].Consistent();
    }
  }

  /** The slots are at the batch's positions. */
  lemma {:induction false} SlotsAtPositions(rows: seq<SeqRow>)
    ensures |Slots(rows)| == |Positions(rows)|
    ensures forall i :: 0 <= i < |Slots(rows)| ==> Slots(rows)[i].pos == Positions(rows)[i]
  {
    if rows != [] {
      SlotsAtPositions(rows[..|rows| - 1]);
    }
  }

  ghost predicate DistinctRequests(rows: seq<SeqRow>) {
    forall i, j :: 0 <= i < j < |rows| ==> rows[i].req != rows[j].req
  }

  lemma {:induction false} SlotRequests(rows: seq<SeqRow>, t: nat)
    requires t < |Slots(rows)|
    ensures exists i :: 0 <= i < |rows| && rows[i].req == Slots(rows)[t].req
  {
    var n := |rows| - 1;
    if t < |Slots(rows[..n])| {
      SlotRequests(rows[..n], t);
      var i :| 0 <= i < n && rows[..n][i].req == Slots(rows)[t].req;
      assert rows[i].req == Slots(rows)[t].req;
    } else {
      assert rows[n].req == Slots(rows)[t].req;
    }
  }

  /** Within a request later tokens have later positions. */
  lemma {:induction false} SlotsOrdered(rows: seq<SeqRow>, t: nat, u: nat)
    requires DistinctRequests(rows) && t < u < |Slots(rows)| && Slots(rows)[t].req == Slots(rows)[u].req
    ensures Slots(rows)[t].pos < Slots(rows)[u].pos
  {
    var n := |rows| - 1;
    var before := Slots(rows[..n]);
    if u < |before| {
      SlotsOrdered(rows[..n], t, u);
    } else if t < |before| {
      OtherRequest(rows, t);
    }
  }

  /** The tokens before those of the last sequence belong to other requests. */
  lemma OtherRequest(rows: seq<SeqRow>, t: nat)
    requires DistinctRequests(rows) && rows != [] && t < |Slots(rows[..|rows| - 1])|
    ensures Slots(rows)[t].req != rows[|rows| - 1].req
  {
    var n := |rows| - 1;
    SlotRequests(rows[..n], t);
    var i :| 0 <= i < n && rows[..n][i].req == Slots(rows[..n])[t].req;
    assert rows[i].req != rows[n].req;
  }

  lemma SlotsStep(init: seq<SeqRow>, last: SeqRow)
    ensures Slots(init + [last]) == Slots(init) + RowSlots(last)
  {
    assert (init + [last])[..|init|] == init;
  }

  lemma {:induction false} SlotsAppend(x: seq<SeqRow>, y: seq<SeqRow>)
    ensures Slots(x + y) == Slots(x) + Slots(y)
  {
    hide Slots, RowSlots;
    if y == [] {
      assert x + y == x;
      NoSlots(x);
    } else {
      var init, last := y[..|y| - 1], y[|y| - 1];
      SlotsAppend(x, init);
      SlotsStep(init, last);
      SlotsStep(x + init, last);
      assert y == init + [last] && x + y == (x + init) + [last];
      Associative(Slots(x), Slots(init), RowSlots(last));
    }
  }

  lemma NoSlots(x: seq<SeqRow>)
    ensures Slots([]) == [] && Slots(x) + Slots([]) == Slots(x)
  {
  }

  lemma OneRowSlots(row: SeqRow)
    ensures Slots([row]) == RowSlots(row)
  {
    assert [row][..0] == [];
    assert Slots([]) == [];
  }

  lemma RowSlotsCut(row: SeqRow, first: SeqRow, second: SeqRow)
    requires first.Consistent() && second.Consistent() && row.Consistent()
    requires first.req == second.req == row.req && first.prefixLen == row.prefixLen && second.prefixLen == first.seqLen
    requires first.extendLen + second.extendLen == row.extendLen
    ensures RowSlots(row) == RowSlots(first) + RowSlots(second)
  {
  }

  /** The slots of the children are those of the batch, one child after the other. */
  lemma ChildrenSlots(rows: seq<SeqRow>, a: seq<SeqRow>, b: seq<SeqRow>, idx: nat, twoChunk: bool)
    requires AllConsistent(rows) && AllConsistent(a) && AllConsistent(b)
    requires RowsCut(rows, a, b, idx, twoChunk)
    ensures Slots(rows) == Slots(a) + Slots(b)
  {
    hide Slots, RowSlots;
    if twoChunk {
      var before, row, after := rows[..idx], rows[idx], rows[idx + 1..];
      assert rows == before + ([row] + after) && a == before + [a[idx]] && b == [b[0]] + after;
      assert row.Consistent() && a[idx].Consistent() && b[0].Consistent();
      RowSlotsCut(row, a[idx], b[0]);
      SlotsAppend(before, [row] + after);
      SlotsAppend([row], after);
      SlotsAppend(before, [a[idx]]);
      SlotsAppend([b[0]], after);
      OneRowSlots(row);
      OneRowSlots(a[idx]);
      OneRowSlots(b[0]);
      var x, y, z, w := Slots(before), RowSlots(a[idx]), RowSlots(b[0]), Slots(after);
      assert x + ((y + z) + w) == (x + y) + (z + w);
    } else {
      assert rows == rows[..idx] + rows[idx..];
      SlotsAppend(rows[..idx], rows[idx..]);
    }
  }

  /** How preparing a batch cuts its rows. */
  ghost predicate RowsCut(rows: seq<SeqRow>, a: seq<SeqRow>, b: seq<SeqRow>, idx: nat, twoChunk: bool) {
    if twoChunk then
      && idx < |rows| && |a| == idx + 1 && |b| == |rows| - idx
      && a[..idx] == rows[..idx] && b[1..] == rows[idx + 1..]
      && a[idx].req == b[0].req == rows[idx].req && a[idx].prefixLen == rows[idx].prefixLen
      && a[idx].extendLen + b[0].extendLen == rows[idx].extendLen && b[0].prefixLen == a[idx].seqLen
    else
      idx <= |rows| && a == rows[..idx] && b == rows[idx..]
  }

  // ---- Operations of a batch ----

  /** An operation of the model as it is written for any batch: it knows the slot of each token. An
      attending operation reads the keys and values of the token's request up to its position. */
  datatype SlotOp<!R, !K> = SlotOp(emit: (Slot, R) -> K, attends: bool, apply: (Slot, R, seq<K>) -> R)

  /** The tokens of the whole batch that hold the slots of a request up to a position, within its cache. */
  function Visible(all: seq<Slot>, slot: Slot, kvLen: int, n: nat): (seen: seq<nat>)
    requires n <= |all|
    ensures forall k :: 0 <= k < |seen| ==> seen[k] < n && all[seen[k]].req == slot.req && all[seen[k]].pos <= slot.pos
  {
    if n == 0 then []
    else
      Visible(all, slot, kvLen, n - 1)
      + if all[n - 1].req == slot.req && all[n - 1].pos <= slot.pos && all[n - 1].pos < kvLen then [n - 1] else []
  }

  /** Any two lengths that cover a token let it see the same. */
  lemma {:induction false} SameVisible(all: seq<Slot>, slot: Slot, kvLen: int, kvLen': int, n: nat)
    requires n <= |all| && slot.pos < kvLen && slot.pos < kvLen'
    ensures Visible(all, slot, kvLen, n) == Visible(all, slot, kvLen', n)
  {
    if n > 0 { SameVisible(all, slot, kvLen, kvLen', n - 1); }
  }

  /** The slot of token t, for a batch whose first token has number lo. */
  function SlotAt(mine: seq<Slot>, lo: nat, t: nat): Slot {
    if lo <= t < lo + |mine| then mine[t - lo] else Slot(0, 0)
  }

  function LenAt(lens: seq<int>, lo: nat, t: nat): int {
    if lo <= t < lo + |lens| then lens[t - lo] else 0
  }

  /** The operation as a batch with the slots `mine` and the cache lengths `lens` runs it. */
  function OpFor<R, K>(op: SlotOp<R, K>, all: seq<Slot>, mine: seq<Slot>, lens: seq<int>, lo: nat): TokenOp<R, K> {
    TokenOp((t, r) => op.emit(SlotAt(mine, lo, t), r),
            t => if op.attends then Visible(all, SlotAt(mine, lo, t), LenAt(lens, lo, t), |all|) else [],
            (t, r, seen) => op.apply(SlotAt(mine, lo, t), r, seen))
  }

  /** The operation list as a batch runs it. */
  function ItemsFor<R, K>(items: seq<Item<SlotOp<R, K>>>, all: seq<Slot>, mine: seq<Slot>, lens: seq<int>, lo: nat)
    : (r: seq<Item<TokenOp<R, K>>>)
    ensures |r| == |items|
    ensures forall i :: 0 <= i < |items| ==> r[i] == if items[i].Yield? then Yield else Exec(OpFor(items[i].op, all, mine, lens, lo))
  {
    seq(|items|, i requires 0 <= i < |items| => if items[i].Yield? then Yield else Exec(OpFor(items[i].op, all, mine, lens, lo)))
  }

  /** The operation list as the unsplit batch runs it. */
  function WholeItems<R, K>(items: seq<Item<SlotOp<R, K>>>, rows: seq<SeqRow>): seq<Item<TokenOp<R, K>>> {
    ItemsFor(items, Slots(rows), Slots(rows), KvLens(rows), 0)
  }

  lemma {:induction false} ErasedOp<R, K>(items: seq<Item<TokenOp<R, K>>>, o: nat)
    requires o < |Erase(items)|
    ensures exists i :: 0 <= i < |items| && items[i].Exec? && items[i].op == Erase(items)[o]
  {
    if items[0].Yield? {
      ErasedOp(items[1..], o);
      var i :| 0 <= i < |items[1..]| && items[1..][i].Exec? && items[1..][i].op == Erase(items)[o];
      assert items[i + 1].op == Erase(items)[o];
    } else if o > 0 {
      ErasedOp(items[1..], o - 1);
      var i :| 0 <= i < |items[1..]| && items[1..][i].Exec? && items[1..][i].op == Erase(items)[o];
      assert items[i + 1].op == Erase(items)[o];
    }
  }

  /** What the unsplit batch's tokens see are tokens of the batch, and none of them is later. */
  lemma WholeIsCausal<R, K>(items: seq<Item<SlotOp<R, K>>>, rows: seq<SeqRow>, n: nat)
    requires DistinctRequests(rows) && |Slots(rows)| == n
    ensures SeesBatch(Erase(WholeItems(items, rows)), n) && Causal(Erase(WholeItems(items, rows)), n)
  {
    hide Slots;
    var whole, all := WholeItems(items, rows), Slots(rows);
    var ops := Erase(whole);
    forall o, t, k | 0 <= o < |ops| && 0 <= t < n && 0 <= k < |ops[o].sees(t)|
      ensures ops[o].sees(t)[k] < n && ops[o].sees(t)[k] <= t
    {
      ErasedOp(whole, o);
      var i :| 0 <= i < |whole| && whole[i].Exec? && whole[i].op == ops[o];
      SeenEarlier(items[i].op, rows, t, k);
    }
  }

  lemma SeenEarlier<R, K>(op: SlotOp<R, K>, rows: seq<SeqRow>, t: nat, k: nat)
    requires DistinctRequests(rows) && t < |Slots(rows)|
    requires k < |OpFor(op, Slots(rows), Slots(rows), KvLens(rows), 0).sees(t)|
    ensures var u := OpFor(op, Slots(rows), Slots(rows), KvLens(rows), 0).sees(t)[k]; u < |Slots(rows)| && u <= t
  {
    hide Slots;
    var all := Slots(rows);
    var u := OpFor(op, all, all, KvLens(rows), 0).sees(t)[k];
    if t < u { SlotsOrdered(rows, t, u); }
  }

  // ---- What a token attends to ----

  /** Token t belongs to sequence r. */
  predicate TokenOf(rows: seq<SeqRow>, r: nat, t: nat)
    requires r < |rows|
  {
    SplitSearch.Prefix(Extends(rows), r) <= t < SplitSearch.Prefix(Extends(rows), r + 1)
  }

  /** The tokens of a sequence carry its request, and there are as many slots as tokens. */
  lemma {:induction false} RequestOf(rows: seq<SeqRow>, t: nat) returns (r: nat)
    requires AllConsistent(rows) && t < |Slots(rows)|
    ensures r < |rows| && TokenOf(rows, r, t) && Slots(rows)[t].req == rows[r].req
  {
    var n := |rows| - 1;
    assert rows[n].Consistent();
    var init := rows[..n];
    SlotsAreTokens(init);
    SlotsAreTokens(rows);
    ExtendsPrefix(rows, n);
    if t < |Slots(init)| {
      r := RequestOf(init, t);
      ExtendsPrefix(rows, r);
      ExtendsPrefix(rows, r + 1);
      ExtendsPrefix(init, r);
      ExtendsPrefix(init, r + 1);
      assert init[..r] == rows[..r] && init[..r + 1] == rows[..r + 1];
    } else {
      r := n;
      ExtendsPrefix(rows, n + 1);
      assert rows[..n + 1] == rows;
    }
  }

  lemma ExtendsPrefix(rows: seq<SeqRow>, r: nat)
    requires r <= |rows|
    ensures SplitSearch.Prefix(Extends(rows), r) == SplitSearch.Sum(Extends(rows[..r]))
  {
    assert Extends(rows)[..r] == Extends(rows[..r]);
  }

  lemma SlotsAreTokens(rows: seq<SeqRow>)
    requires AllConsistent(rows)
    ensures |Slots(rows)| == SplitSearch.Sum(Extends(rows))
  {
    hide Slots, Positions;
    SlotsAtPositions(rows);
    PositionsLength(rows);
  }

  lemma {:induction false} VisibleIff(all: seq<Slot>, slot: Slot, kvLen: int, n: nat, u: nat)
    requires n <= |all| && u < n
    ensures u in Visible(all, slot, kvLen, n) <==> all[u].req == slot.req && all[u].pos <= slot.pos && all[u].pos < kvLen
  {
    if u < n - 1 {
      VisibleIff(all, slot, kvLen, n - 1, u);
    } else {
      assert u !in Visible(all, slot, kvLen, n - 1);
    }
  }

  /** In a batch of distinct requests with consistent columns a token is seen by token t exactly if it
      belongs to the same sequence and is not later. */
  lemma SeenIff(rows: seq<SeqRow>, t: nat, u: nat)
    requires DistinctRequests(rows) && AllConsistent(rows) && t < |Slots(rows)| && u < |Slots(rows)|
    ensures u in Visible(Slots(rows), Slots(rows)[t], KvLens(rows)[t], |Slots(rows)|)
            <==> u <= t && exists r: nat :: r < |rows| && TokenOf(rows, r, t) && TokenOf(rows, r, u)
  {
    hide Slots, KvLens, Visible, Extends, SplitSearch.Prefix, TokenOf;
    var all := Slots(rows);
    VisibleIff(all, all[t], KvLens(rows)[t], |all|, u);
    KvLensCover(rows);
    assert Covered(all, KvLens(rows));
    var r := RequestOf(rows, t);
    var q := RequestOf(rows, u);
    if u < t && all[u].req == all[t].req { SlotsOrdered(rows, u, t); }
    if t < u && all[u].req == all[t].req { SlotsOrdered(rows, t, u); }
    if p: nat :| p < |rows| && TokenOf(rows, p, t) && TokenOf(rows, p, u) {
      OneSequence(rows, p, r, t);
      OneSequence(rows, p, q, u);
    }
  }

  /** What an operation of the unsplit batch lets token t see: nothing, if it does not attend. */
  lemma OpSeesIff<R, K>(op: SlotOp<R, K>, rows: seq<SeqRow>, t: nat, u: nat)
    requires DistinctRequests(rows) && AllConsistent(rows) && t < |Slots(rows)| && u < |Slots(rows)|
    ensures u in OpFor(op, Slots(rows), Slots(rows), KvLens(rows), 0).sees(t)
            <==> op.attends && u <= t && exists r: nat :: r < |rows| && TokenOf(rows, r, t) && TokenOf(rows, r, u)
  {
    hide Slots, KvLens, Visible, TokenOf;
    SeenIff(rows, t, u);
  }

  lemma OneSequence(rows: seq<SeqRow>, p: nat, r: nat, t: nat)
    requires AllConsistent(rows) && p < |rows| && r < |rows| && TokenOf(rows, p, t) && TokenOf(rows, r, t)
    ensures p == r
  {
    hide Extends, SplitSearch.Prefix, SplitSearch.Sum;
    ExtendsAreLengths(rows);
    if p < r {
      SplitSearch.PrefixMonotone(Extends(rows), p + 1, r);
    } else if r < p {
      SplitSearch.PrefixMonotone(Extends(rows), r + 1, p);
    }
  }

  lemma ExtendsAreLengths(rows: seq<SeqRow>)
    requires AllConsistent(rows)
    ensures SplitSearch.Lengths(Extends(rows)) && |Extends(rows)| == |rows|
  {
    forall i | 0 <= i < |rows| ensures Extends(rows)[i] >= 0 { assert rows[i].Consistent(); }
  }

  // ---- Operations that agree on a shard ----

  ghost predicate OnShard<R>(c: Shard<R>, lo: nat, len: nat) {
    c.lo == lo && |c.rows| == len
  }

  /** Two operations act alike on the shards of len tokens from lo on. */
  ghost predicate ActAlike<R(!new), K(!new)>(f: Operation<Pool<K>, Shard<R>>, g: Operation<Pool<K>, Shard<R>>, lo: nat, len: nat) {
    forall dp, pool, c :: OnShard(c, lo, len) ==> f(dp, pool, c) == g(dp, pool, c) && OnShard(f(dp, pool, c).1, lo, len)
  }

  ghost predicate AllAlike<R(!new), K(!new)>(x: Stage<Pool<K>, Shard<R>>, y: Stage<Pool<K>, Shard<R>>, lo: nat, len: nat) {
    |x| == |y| && forall i :: 0 <= i < |x| ==> ActAlike(x[i], y[i], lo, len)
  }

  ghost predicate StagesAlike<R(!new), K(!new)>(x: seq<Stage<Pool<K>, Shard<R>>>, y: seq<Stage<Pool<K>, Shard<R>>>, lo: nat, len: nat) {
    |x| == |y| && forall i :: 0 <= i < |x| ==> AllAlike(x[i], y[i], lo, len)
  }

  ghost predicate ItemsAlike<R(!new), K(!new)>(x: seq<Item<Operation<Pool<K>, Shard<R>>>>, y: seq<Item<Operation<Pool<K>, Shard<R>>>>,
                                   lo: nat, len: nat)
  {
    |x| == |y| && forall i :: 0 <= i < |x| ==> (x[i].Yield? <==> y[i].Yield?) && (x[i].Exec? ==> ActAlike(x[i].op, y[i].op, lo, len))
  }

  /** Token operations agree on the tokens lo .. lo + len - 1. */
  ghost predicate OpsAgree<R(!new), K(!new)>(f: TokenOp<R, K>, g: TokenOp<R, K>, lo: nat, len: nat) {
    forall t: nat :: lo <= t < lo + len ==> TokenAgrees(f, g, t)
  }

  ghost predicate TokenAgrees<R(!new), K(!new)>(f: TokenOp<R, K>, g: TokenOp<R, K>, t: nat) {
    && f.sees(t) == g.sees(t)
    && (forall r :: f.emit(t, r) == g.emit(t, r))
    && forall r, seen :: f.apply(t, r, seen) == g.apply(t, r, seen)
  }

  lemma OpFnAlike<R(!new), K(!new)>(o: nat, f: TokenOp<R, K>, g: TokenOp<R, K>, blank: K, lo: nat, len: nat)
    requires OpsAgree(f, g, lo, len)
    ensures ActAlike(OpFn(o, f, blank), OpFn(o, g, blank), lo, len)
  {
    forall dp: Option<DpBuffer>, pool, c | OnShard(c, lo, len)
      ensures OpFn(o, f, blank)(dp, pool, c) == OpFn(o, g, blank)(dp, pool, c) && OnShard(OpFn(o, f, blank)(dp, pool, c).1, lo, len)
    {
      ApplyAlike(o, f, g, blank, pool, c);
    }
  }

  lemma ApplyAlike<R(!new), K(!new)>(o: nat, f: TokenOp<R, K>, g: TokenOp<R, K>, blank: K, pool: Pool<K>, c: Shard<R>)
    requires OpsAgree(f, g, c.lo, |c.rows|)
    ensures ApplyOp(o, f, blank, pool, c) == ApplyOp(o, g, blank, pool, c)
    ensures OnShard(ApplyOp(o, f, blank, pool, c).1, c.lo, |c.rows|)
  {
    hide ReadAll;
    WrittenAlike(o, f, g, c);
    var x, y := ApplyOp(o, f, blank, pool, c).1.rows, ApplyOp(o, g, blank, pool, c).1.rows;
    forall i | 0 <= i < |c.rows| ensures x[i] == y[i] {
      assert TokenAgrees(f, g, c.lo + i);
    }
    assert x == y;
  }

  lemma WrittenAlike<R(!new), K(!new)>(o: nat, f: TokenOp<R, K>, g: TokenOp<R, K>, c: Shard<R>)
    requires OpsAgree(f, g, c.lo, |c.rows|)
    ensures Written(o, f, c) == Written(o, g, c)
  {
    var x, y := Written(o, f, c), Written(o, g, c);
    assert x.Keys == y.Keys;
    forall t: nat | c.lo <= t < c.lo + |c.rows| ensures x[(o, t)] == y[(o, t)] { assert TokenAgrees(f, g, t); }
    assert forall key :: key in x ==> key.0 == o && c.lo <= key.1 < c.lo + |c.rows| && x[key] == y[key];
  }

  lemma {:induction false} NumberedAlike<R(!new), K(!new)>(x: seq<Item<TokenOp<R, K>>>, y: seq<Item<TokenOp<R, K>>>, from: nat,
                                                           blank: K, lo: nat, len: nat)
    requires |x| == |y|
    requires forall i :: 0 <= i < |x| ==> (x[i].Yield? <==> y[i].Yield?) && (x[i].Exec? ==> OpsAgree(x[i].op, y[i].op, lo, len))
    ensures ItemsAlike(Numbered(x, from, blank), Numbered(y, from, blank), lo, len)
  {
    hide ActAlike, OpsAgree;
    if x != [] {
      var next := if x[0].Yield? then from else from + 1;
      NumberedAlike(x[1..], y[1..], next, blank, lo, len);
      if x[0].Exec? { OpFnAlike(from, x[0].op, y[0].op, blank, lo, len); }
      var nx, ny := Numbered(x, from, blank), Numbered(y, from, blank);
      assert nx[1..] == Numbered(x[1..], next, blank) && ny[1..] == Numbered(y[1..], next, blank);
      forall i | 0 <= i < |nx| ensures (nx[i].Yield? <==> ny[i].Yield?) && (nx[i].Exec? ==> ActAlike(nx[i].op, ny[i].op, lo, len)) {
        if i > 0 { assert nx[i] == nx[1..][i - 1] && ny[i] == ny[1..][i - 1]; }
      }
    }
  }

  lemma {:induction false} ChunksAlike<R(!new), K(!new)>(x: seq<Item<Operation<Pool<K>, Shard<R>>>>, y: seq<Item<Operation<Pool<K>, Shard<R>>>>,
                                             px: Stage<Pool<K>, Shard<R>>, py: Stage<Pool<K>, Shard<R>>, lo: nat, len: nat)
    requires ItemsAlike(x, y, lo, len) && AllAlike(px, py, lo, len)
    ensures StagesAlike(ChunksFrom(x, px), ChunksFrom(y, py), lo, len)
  {
    hide ActAlike;
    if x != [] {
      assert ItemsAlike(x[1..], y[1..], lo, len);
      if x[0].Yield? {
        ChunksAlike(x[1..], y[1..], [], [], lo, len);
      } else {
        ChunksAlike(x[1..], y[1..], px + [x[0].op], py + [y[0].op], lo, len);
      }
    }
  }

  lemma {:induction false} FoldAlike<R(!new), K(!new)>(x: Stage<Pool<K>, Shard<R>>, y: Stage<Pool<K>, Shard<R>>, lo: nat, len: nat,
                                           dp: Option<DpBuffer>, pool: Pool<K>, c: Shard<R>)
    requires AllAlike(x, y, lo, len) && OnShard(c, lo, len)
    ensures Fold(x, dp, pool, c) == Fold(y, dp, pool, c) && OnShard(Fold(x, dp, pool, c).1, lo, len)
  {
    hide OnShard;
    if x != [] {
      var n := |x| - 1;
      FoldAlike(x[..n], y[..n], lo, len, dp, pool, c);
      var (pool', c') := Fold(x[..n], dp, pool, c);
      assert ActAlike(x[n], y[n], lo, len);
    }
  }

  /** Executors whose operations act alike on their own shards run alike. */
  lemma {:induction false} RunAlike<R(!new), K(!new)>(p: Plan<Pool<K>, Shard<R>>, q: Plan<Pool<K>, Shard<R>>, schedule: seq<Who>,
                                          start: System<Pool<K>, Shard<R>>, mid: nat, n: nat)
    requires mid <= n && StagesAlike(p.stagesA, q.stagesA, 0, mid) && StagesAlike(p.stagesB, q.stagesB, mid, n - mid)
    requires p.ownA == q.ownA && p.ownB == q.ownB
    requires start.indexA == start.indexB == 0 && OnShard(start.ctxA, 0, mid) && OnShard(start.ctxB, mid, n - mid)
    requires Fits(p, schedule)
    ensures Fits(q, schedule) && Run(p, schedule, start) == Run(q, schedule, start)
    ensures OnShard(Run(p, schedule, start).ctxA, 0, mid) && OnShard(Run(p, schedule, start).ctxB, mid, n - mid)
  {
    hide OnShard, AllAlike, Fold;
    if schedule != [] {
      var k := |schedule| - 1;
      RunAlike(p, q, schedule[..k], start, mid, n);
      var s := Run(p, schedule[..k], start);
      match schedule[k]
      case A =>
        FoldAlike(p.stagesA[s.indexA], q.stagesA[s.indexA], 0, mid, Published(p.ownA, s.dp), s.mem, s.ctxA);
      case B =>
        FoldAlike(p.stagesB[s.indexB], q.stagesB[s.indexB], mid, n - mid, Published(p.ownB, s.dp), s.mem, s.ctxB);
    }
  }

  // ---- The children's operations are the batch's ----

  /** A child whose slots are the batch's from lo on, and whose cache lengths cover them, runs its tokens
      as the batch does. */
  lemma ChildAgrees<R(!new), K(!new)>(op: SlotOp<R, K>, all: seq<Slot>, allLens: seq<int>, mine: seq<Slot>, lens: seq<int>, lo: nat)
    requires lo + |mine| <= |all| && mine == all[lo..lo + |mine|] && Covered(all, allLens) && Covered(mine, lens)
    ensures OpsAgree(OpFor(op, all, mine, lens, lo), OpFor(op, all, all, allLens, 0), lo, |mine|)
  {
    hide Visible;
    forall t: nat | lo <= t < lo + |mine|
      ensures TokenAgrees(OpFor(op, all, mine, lens, lo), OpFor(op, all, all, allLens, 0), t)
    {
      assert SlotAt(mine, lo, t) == SlotAt(all, 0, t);
      assert SlotAt(mine, lo, t).pos < LenAt(lens, lo, t);
      SameVisible(all, SlotAt(mine, lo, t), LenAt(lens, lo, t), LenAt(allLens, 0, t), |all|);
    }
  }

  lemma ChildStages<R(!new), K(!new)>(items: seq<Item<SlotOp<R, K>>>, all: seq<Slot>, allLens: seq<int>, mine: seq<Slot>,
                                      lens: seq<int>, lo: nat, blank: K)
    requires lo + |mine| <= |all| && mine == all[lo..lo + |mine|] && Covered(all, allLens) && Covered(mine, lens)
    ensures StagesAlike(ChunksFrom(Numbered(ItemsFor(items, all, mine, lens, lo), 0, blank), []),
                        ChunksFrom(Numbered(ItemsFor(items, all, all, allLens, 0), 0, blank), []), lo, |mine|)
  {
    hide OpFor, OpsAgree, Numbered, ItemsAlike, StagesAlike, Covered;
    var x, y := ItemsFor(items, all, mine, lens, lo), ItemsFor(items, all, all, allLens, 0);
    forall i | 0 <= i < |x| && x[i].Exec? ensures OpsAgree(x[i].op, y[i].op, lo, |mine|) {
      ChildAgrees(items[i].op, all, allLens, mine, lens, lo);
    }
    NumberedAlike(x, y, 0, blank, lo, |mine|);
    ChunksAlike(Numbered(x, 0, blank), Numbered(y, 0, blank), [], [], lo, |mine|);
  }

  lemma SameEmptiness<R(!new), K(!new)>(x: seq<Stage<Pool<K>, Shard<R>>>, y: seq<Stage<Pool<K>, Shard<R>>>, lo: nat, len: nat)
    requires StagesAlike(x, y, lo, len)
    ensures |x| == |y| && (AllNonEmpty(x) <==> AllNonEmpty(y))
  {
    hide ActAlike;
    assert forall i :: 0 <= i < |x| ==> AllAlike(x[i], y[i], lo, len);
  }

  // ---- The run ----

  /** Run the children overlapped on the whole batch's pool and concatenate. */
  method ForwardChildren<R(!new), K(!new)>(
    g: Globals<Pool<K>>, items: seq<Item<SlotOp<R, K>>>, inputs: seq<R>, ghost rows: seq<SeqRow>, all: seq<Slot>,
    slotsA: seq<Slot>, slotsB: seq<Slot>, lensA: seq<int>, lensB: seq<int>, blank: K, ownA: Option<DpBuffer>, ownB: Option<DpBuffer>, delta: int)
    returns (ok: bool, outputs: seq<R>)
    requires DistinctRequests(rows) && all == Slots(rows) == slotsA + slotsB && |inputs| == |all|
    requires Covered(all, KvLens(rows)) && Covered(slotsA, lensA) && Covered(slotsB, lensB)
    modifies g
    ensures ok <==> var stages := ChunksFrom(Numbered(WholeItems(items, rows), 0, blank), []);
                    AllNonEmpty(stages) && 0 <= delta <= |stages|
    ensures SeesBatch(Erase(WholeItems(items, rows)), |inputs|)
    ensures ok ==> outputs == Values(Erase(WholeItems(items, rows)), inputs, |Erase(WholeItems(items, rows))|)
  {
    hide Values, Run, Fits, ChunksFrom, AllNonEmpty, Numbered, Erase, SeesBatch, SplitSafe, Behind, OverlapSchedule, Job.Holds;
    hide Slots, KvLens, Covered, ItemsFor, StagesAlike, Causal, OnShard;
    ghost var whole, mid := WholeItems(items, rows), |slotsA|;
    WholeIsCausal(items, rows, |inputs|);
    CausalSplit(Erase(whole), mid, |inputs|);
    var listA, listB := Numbered(ItemsFor(items, all, slotsA, lensA, 0), 0, blank),
                        Numbered(ItemsFor(items, all, slotsB, lensB, |slotsA|), 0, blank);
    ghost var j := Job(Erase(whole), ChunksFrom(Numbered(whole, 0, blank), []), inputs, mid, blank);
    assert slotsA == all[0..0 + mid] && slotsB == all[mid..mid + |slotsB|];
    ChildStages(items, all, KvLens(rows), slotsA, lensA, 0, blank);
    ChildStages(items, all, KvLens(rows), slotsB, lensB, mid, blank);
    SameEmptiness(ChunksFrom(listA, []), j.stages, 0, mid);
    SameEmptiness(ChunksFrom(listB, []), j.stages, mid, |inputs| - mid);
    StagesOfModel(whole, blank);
    ghost var pool, dp := g.mem, g.dp;
    var a, b;
    ok, a, b := ExecuteOverlappedOperations(g, Shard(0, inputs[0..|slotsA|]), Shard(|slotsA|, inputs[|slotsA|..|inputs|]),
                                            listA, listB, ownA, ownB, (0, delta));
    outputs := a.rows + b.rows;
    if ok {
      OverlapIsBehind(|j.stages|, delta);
      ShardsOf(inputs, mid);
      RunAlike(Operations.Plan(ChunksFrom(listA, []), ChunksFrom(listB, []), ownA, ownB), j.Plan(ownA, ownB),
               OverlapSchedule(|j.stages|, delta), Start(pool, dp, Shard(0, inputs[0..mid]), Shard(mid, inputs[mid..|inputs|])),
               mid, |inputs|);
      RunHolds(j, j.Plan(ownA, ownB), OverlapSchedule(|j.stages|, delta), pool, dp);
      Merged(j, System(g.mem, g.dp, |j.stages|, a, |j.stages|, b));
    }
  }

  lemma ShardsOf<R>(inputs: seq<R>, mid: nat)
    requires mid <= |inputs|
    ensures OnShard(Shard(0, inputs[0..mid]), 0, mid) && OnShard(Shard(mid, inputs[mid..|inputs|]), mid, |inputs| - mid)
  {
  }

  lemma CausalSplit<R, K>(ops: seq<TokenOp<R, K>>, mid: nat, n: nat)
    requires Causal(ops, n) && mid <= n
    ensures SplitSafe(ops, mid)
  {
  }

  /** Prepare a batch, run its children on what their own columns say, and merge. The result is that of
      the unsplit batch. */
  method ForwardPrepared<R(!new), K(!new)>(
    batch: ForwardBatch, g: Globals<Pool<K>>, items: seq<Item<SlotOp<R, K>>>, inputs: seq<R>, threshold: real,
    moeDenseTpOne: bool, blank: K, ownA: Option<DpBuffer>, ownB: Option<DpBuffer>, delta: int)
    returns (ok: bool, outputs: seq<R>)
    requires batch.Consistent() && batch.StartLocsConsistent() && batch.tboChildren == None && threshold <= 0.5
    requires batch.tboSplitSeqIndex.Some?
    requires SplitSearch.SplitSeqOf(Extends(batch.rowsCpu), threshold, batch.tboSplitSeqIndex.value)
    requires DistinctRequests(batch.rowsCpu) && |inputs| == batch.extendNumTokens
    modifies batch`tboChildren, g
    ensures ok <==> var stages := ChunksFrom(Numbered(WholeItems(items, batch.rowsCpu), 0, blank), []);
                    AllNonEmpty(stages) && 0 <= delta <= |stages|
    ensures SeesBatch(Erase(WholeItems(items, batch.rowsCpu)), |inputs|)
    ensures ok ==> outputs == Values(Erase(WholeItems(items, batch.rowsCpu)), inputs, |Erase(WholeItems(items, batch.rowsCpu))|)
  {
    hide *;
    ghost var idx := batch.tboSplitSeqIndex.value;
    ghost var twoChunk := SplitSearch.Lopsided(Extends(batch.rowsCpu), threshold);
    batch.Prepare(false, threshold, moeDenseTpOne);
    var a, b := batch.tboChildren.value.0, batch.tboChildren.value.1;
    ChildrenOf(batch, a, b, idx, twoChunk);
    SlotCount(batch);
    ok, outputs := ForwardChildren(g, items, inputs, batch.rowsCpu, Slots(batch.rowsCpu), Slots(a.rowsCpu), Slots(b.rowsCpu),
                                   KvLens(a.rowsCpu), KvLens(b.rowsCpu), blank, ownA, ownB, delta);
  }

  lemma SlotCount(batch: ForwardBatch)
    requires batch.Consistent()
    ensures |Slots(batch.rowsCpu)| == batch.extendNumTokens
  {
    hide Slots, Positions, SplitSearch.Sum, AllConsistent;
    SlotsAtPositions(batch.rowsCpu);
  }

  lemma ChildrenOf(batch: ForwardBatch, a: ForwardBatch, b: ForwardBatch, idx: nat, twoChunk: bool)
    requires batch.Consistent() && batch.SplitInto(a, b, idx, twoChunk)
    ensures Slots(batch.rowsCpu) == Slots(a.rowsCpu) + Slots(b.rowsCpu)
    ensures Covered(Slots(batch.rowsCpu), KvLens(batch.rowsCpu))
    ensures Covered(Slots(a.rowsCpu), KvLens(a.rowsCpu)) && Covered(Slots(b.rowsCpu), KvLens(b.rowsCpu))
  {
    hide Slots, Positions, SplitSearch.Sum, SplitSearch.Prefix, AllConsistent, Covered;
    KvLensCover(batch.rowsCpu);
    KvLensCover(a.rowsCpu);
    KvLensCover(b.rowsCpu);
    ChildrenSlots(batch.rowsCpu, a.rowsCpu, b.rowsCpu, idx, twoChunk);
  }
}
