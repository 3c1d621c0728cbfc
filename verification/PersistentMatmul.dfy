/** The batch-invariant persistent matmul: every program of the launch runs its strided tile
    loop, in any interleaving with the others, and every cell of the result is one fixed fold
    over the blocks of its own row and its own column. */
module PersistentMatmul {
  import opened Arithmetic
  import opened Options
  import opened TileSchedule

  /** The numeric primitives of the kernel. Nothing is assumed about them; in particular the
      block update need not be associative, as it is not in floating point. The one property
      used of a block dot is its type: an element of the updated accumulator depends on its old
      value, its row of the left block and its column of the right block. */
  datatype Numerics<!T> = Numerics(
    zero: T,
    dot: (T, seq<T>, seq<T>) -> T,
    addBias: (T, T) -> T,
    cast: T -> T)

  datatype Config = Config(blockM: nat, blockN: nat, blockK: nat, groupM: nat, numSms: nat) {
    ghost predicate Valid() {
      blockM > 0 && blockN > 0 && blockK > 0 && groupM > 0 && numSms > 0
    }

    function GridFor(m: nat, n: nat): (g: Grid)
      requires Valid()
      ensures g.Valid()
    {
      Grid(CeilDiv(m, blockM), CeilDiv(n, blockN), groupM)
    }
  }

  /** A row-major matrix with an explicit shape. */
  datatype Matrix<T> = Matrix(rows: nat, cols: nat, data: seq<seq<T>>) {
    ghost predicate Valid() {
      |data| == rows && forall i :: 0 <= i < rows ==> |data[i]| == cols
    }

    function Row(i: nat): seq<T>
      requires Valid() && i < rows
    {
      data[i]
    }

    function Col(j: nat): (col: seq<T>)
      requires Valid() && j < cols
    {
      seq(rows, i requires 0 <= i < rows => data[i][j])
    }
  }

  // ---- What a cell of the result is ----

  /** Block `ki` of a row or column, padded with zeros past its end. */
  function MaskedBlock<T>(line: seq<T>, ki: nat, blockK: nat, zero: T): seq<T> {
    seq(blockK, k requires 0 <= k < blockK =>
      var at := ki * blockK + k;
      if 0 <= at < |line| then line[at] else zero)
  }

  /** The accumulator of a cell after its first `blocks` K-blocks. */
  function Accumulated<T>(num: Numerics<T>, row: seq<T>, col: seq<T>, blockK: nat, blocks: nat): T {
    if blocks == 0 then num.zero
    else num.dot(Accumulated(num, row, col, blockK, blocks - 1),
                 MaskedBlock(row, blocks - 1, blockK, num.zero),
                 MaskedBlock(col, blocks - 1, blockK, num.zero))
  }

  function Finish<T>(num: Numerics<T>, acc: T, bias: Option<T>): T {
    num.cast(if bias.Some? then num.addBias(acc, bias.value) else acc)
  }

  /** The result cell of one row and one column. */
  function CellValue<T>(num: Numerics<T>, row: seq<T>, col: seq<T>, bias: Option<T>, blockK: nat): T
    requires blockK > 0
  {
    Finish(num, Accumulated(num, row, col, blockK, CeilDiv(|row|, blockK)), bias)
  }

  // ---- The kernel ----

  /** The operands and configuration of one call. */
  datatype Problem<!T> = Problem(num: Numerics<T>, cfg: Config, a: Matrix<T>, b: Matrix<T>, bias: Option<seq<T>>) {
    ghost predicate Valid() {
      && cfg.Valid() && a.Valid() && b.Valid()
      && a.cols == b.rows
      && (bias.Some? ==> |bias.value| == b.cols)
    }

    function Tiling(): (g: Grid)
      requires Valid()
      ensures g.Valid()
    {
      cfg.GridFor(a.rows, b.cols)
    }

    function BiasAt(j: nat): Option<T>
      requires Valid() && j < b.cols
    {
      if bias.Some? then Some(bias.value[j]) else None
    }

    function Cell(i: nat, j: nat): T
      requires Valid() && i < a.rows && j < b.cols
    {
      CellValue(num, a.Row(i), b.Col(j), BiasAt(j), cfg.blockK)
    }

    /** The tile that holds cell (i, j). */
    ghost function TileOfCell(i: nat, j: nat): nat
      requires Valid() && i < a.rows && j < b.cols
    {
      CellInOneBlock(i, a.rows, cfg.blockM);
      CellInOneBlock(j, b.cols, cfg.blockN);
      TileIdOf(Tiling(), i / cfg.blockM, j / cfg.blockN)
    }

    /** The row of the left operand that row `r` of a block loads: rows past the end load row 0. */
    function RowIndex(start: nat, r: nat): nat { if start + r < a.rows then start + r else 0 }

    function ColIndex(start: nat, r: nat): nat { if start + r < b.cols then start + r else 0 }
  }

  /** A cell belongs to a tile exactly when it lies in the tile's window. */
  lemma CellInTileWindow<T>(p: Problem<T>, tileId: nat, i: nat, j: nat)
    requires p.Valid() && tileId < p.Tiling().Tiles()
    requires i < p.a.rows && j < p.b.cols
    ensures p.TileOfCell(i, j) < p.Tiling().Tiles()
    ensures var pid := PidOf(p.Tiling(), tileId);
            && pid.0 >= 0 && pid.1 >= 0
            && (p.TileOfCell(i, j) == tileId <==>
                && pid.0 * p.cfg.blockM <= i < pid.0 * p.cfg.blockM + p.cfg.blockM
                && pid.1 * p.cfg.blockN <= j < pid.1 * p.cfg.blockN + p.cfg.blockN)
  {
    hide PidOf, TileIdOf, Grid.Tiles, CeilDiv;
    var g := p.Tiling();
    TileReachedOnce(g, tileId);
    CellInOneBlock(i, p.a.rows, p.cfg.blockM);
    CellInOneBlock(j, p.b.cols, p.cfg.blockN);
    TileReached(g, i / p.cfg.blockM, j / p.cfg.blockN);
  }

  /** The K loop of one tile: every element of the block folds over the K-blocks. */
  method AccumulateTile<T>(p: Problem<T>, startM: nat, startN: nat) returns (acc: array2<T>)
    requires p.Valid() && p.a.rows > 0 && p.b.cols > 0
    ensures fresh(acc) && acc.Length0 == p.cfg.blockM && acc.Length1 == p.cfg.blockN
    ensures forall r, s :: 0 <= r < acc.Length0 && 0 <= s < acc.Length1 ==>
      acc[r, s] == Accumulated(p.num, p.a.Row(p.RowIndex(startM, r)), p.b.Col(p.ColIndex(startN, s)),
                               p.cfg.blockK, CeilDiv(p.a.cols, p.cfg.blockK))
  {
    hide CeilDiv, MaskedBlock;
    var num := p.num;
    acc := new T[p.cfg.blockM, p.cfg.blockN]((_, _) => num.zero);
    for ki := 0 to CeilDiv(p.a.cols, p.cfg.blockK)
      invariant forall r, s :: 0 <= r < acc.Length0 && 0 <= s < acc.Length1 ==>
        acc[r, s] == Accumulated(num, p.a.Row(p.RowIndex(startM, r)), p.b.Col(p.ColIndex(startN, s)), p.cfg.blockK, ki)
    {
      forall r, s | 0 <= r < acc.Length0 && 0 <= s < acc.Length1 {
        acc[r, s] := num.dot(acc[r, s],
                             MaskedBlock(p.a.Row(p.RowIndex(startM, r)), ki, p.cfg.blockK, num.zero),
                             MaskedBlock(p.b.Col(p.ColIndex(startN, s)), ki, p.cfg.blockK, num.zero));
      }
    }
  }

  /** The masked store: element (r, s) of the block goes to cell (startM + r, startN + s) if there is one. */
  method StoreTile<T>(p: Problem<T>, acc: array2<T>, startM: nat, startN: nat, c: array2<T>)
    requires p.Valid() && acc != c
    requires acc.Length0 == p.cfg.blockM && acc.Length1 == p.cfg.blockN
    requires c.Length0 == p.a.rows && c.Length1 == p.b.cols
    modifies c
    ensures forall i, j :: 0 <= i < c.Length0 && 0 <= j < c.Length1 ==>
      c[i, j] == if startM <= i < startM + acc.Length0 && startN <= j < startN + acc.Length1
                 then Finish(p.num, acc[i - startM, j - startN], p.BiasAt(j))
                 else old(c[i, j])
  {
    forall i, j | startM <= i < startM + acc.Length0 && i < c.Length0
                  && startN <= j < startN + acc.Length1 && j < c.Length1 {
      c[i, j] := Finish(p.num, acc[i - startM, j - startN], p.BiasAt(j));
    }
  }

  /** One iteration of the persistent loop: compute tile `tileId` and store it under the mask. */
  method ComputeTile<T>(p: Problem<T>, tileId: nat, c: array2<T>)
    requires p.Valid() && tileId < p.Tiling().Tiles()
    requires c.Length0 == p.a.rows && c.Length1 == p.b.cols
    modifies c
    ensures forall i, j :: 0 <= i < c.Length0 && 0 <= j < c.Length1 ==>
                             c[i, j] == if p.TileOfCell(i, j) == tileId then p.Cell(i, j) else old(c[i, j])
  {
    hide PidOf, Grid.Tiles, CeilDiv, Accumulated, Problem.TileOfCell, Problem.Tiling;
    TileMeansCells(p, tileId);
    var pid := PidOf(p.Tiling(), tileId);
    var startM: nat := pid.0 * p.cfg.blockM;
    var startN: nat := pid.1 * p.cfg.blockN;
    var acc := AccumulateTile(p, startM, startN);
    StoreTile(p, acc, startM, startN, c);
    forall i, j | 0 <= i < c.Length0 && 0 <= j < c.Length1
      ensures c[i, j] == if p.TileOfCell(i, j) == tileId then p.Cell(i, j) else old(c[i, j])
    {
      CellInTileWindow(p, tileId, i, j);
      if p.TileOfCell(i, j) == tileId {
        assert p.RowIndex(startM, i - startM) == i && p.ColIndex(startN, j - startN) == j;
      }
    }
  }

  /** A launch with at least one tile has at least one row and one column. */
  lemma TileMeansCells<T>(p: Problem<T>, tileId: nat)
    requires p.Valid() && tileId < p.Tiling().Tiles()
    ensures p.a.rows > 0 && p.b.cols > 0
    ensures PidOf(p.Tiling(), tileId).0 * p.cfg.blockM >= 0
    ensures PidOf(p.Tiling(), tileId).1 * p.cfg.blockN >= 0
  {
    var g := p.Tiling();
    assert g.pidsM > 0 && g.pidsN > 0;
    hide PidOf;
    PidInGrid(g, tileId);
    ProductMonotone(0, PidOf(g, tileId).0, p.cfg.blockM);
    ProductMonotone(0, PidOf(g, tileId).1, p.cfg.blockN);
    ProductMonotone(1, g.pidsM, p.cfg.blockM);
    ProductMonotone(1, g.pidsN, p.cfg.blockN);
  }

  // ---- The launch ----

  /** `tileId` has been computed when its program's loop variable has moved past it. */
  ghost predicate Computed(next: seq<nat>, numSms: nat, tileId: nat)
    requires numSms > 0
  {
    tileId % numSms < |next| && tileId < next[tileId % numSms]
  }

  ghost function Below(n: nat): (s: set<nat>)
    ensures forall t: nat :: t in s <==> t < n
  {
    if n == 0 then {} else Below(n - 1) + {n - 1}
  }

  /** Where the programs of a launch can be: each loop variable keeps its program's residue. */
  ghost predicate LoopVariables(next: seq<nat>, programs: nat, numSms: nat)
    requires numSms > 0
  {
    |next| == programs && forall s :: 0 <= s < programs ==> next[s] % numSms == s
  }

  lemma StrideStep(next: seq<nat>, numSms: nat, s: nat, tileId: nat)
    requires numSms > 0 && LoopVariables(next, |next|, numSms) && s < |next| <= numSms
    ensures LoopVariables(next[s := next[s] + numSms], |next|, numSms)
    ensures Computed(next[s := next[s] + numSms], numSms, tileId) <==>
            Computed(next, numSms, tileId) || tileId == next[s]
  {
    ShiftedResidue(next[s], numSms);
    if tileId % numSms == s && next[s] <= tileId < next[s] + numSms {
      NextOfResidue(next[s], tileId, numSms);
    }
  }

  lemma ShiftedResidue(x: nat, n: nat)
    requires n > 0
    ensures (x + n) % n == x % n
  {
    var q, r := DivMod(x, n);
    assert x + n == (q + 1) * n + r;
    DivModOf(q + 1, r, n);
  }

  lemma NextOfResidue(x: nat, t: nat, n: nat)
    requires n > 0 && x % n == t % n && x <= t < x + n
    ensures t == x
  {
    var q, r := DivMod(x, n);
    var q', r' := DivMod(t, n);
    assert (q' - q) * n == q' * n - q * n;
    QuotientUnique(q' - q, 0, 0, t - x, n);
  }

  /** The launch. Programs run concurrently: the next tile iteration may be that of any program
      that is not done. `order` records the tiles in the order they were computed. */
  method MatmulPersistent<T>(p: Problem<T>, initial: T) returns (c: array2<T>, ghost order: seq<nat>)
    requires p.Valid()
    ensures fresh(c) && c.Length0 == p.a.rows && c.Length1 == p.b.cols
    ensures forall i, j :: 0 <= i < c.Length0 && 0 <= j < c.Length1 ==> c[i, j] == p.Cell(i, j)
    ensures forall k, l :: 0 <= k < l < |order| ==> order[k] != order[l]
    ensures forall t: nat :: t in order <==> t < p.Tiling().Tiles()
  {
    hide PidOf, TileIdOf, Grid.Tiles, CeilDiv, Problem.Cell, Problem.TileOfCell, Problem.Tiling;
    var tiles, numSms := p.Tiling().Tiles(), p.cfg.numSms;
    var programs := Min(numSms, tiles);
    c := new T[p.a.rows, p.b.cols]((_, _) => initial);
    order := [];
    var next: seq<nat> := seq(programs, (s: nat) => s);
    forall s | 0 <= s < programs ensures next[s] % numSms == s { DivModOf(0, s, numSms); }
    ghost var left := Below(tiles);
    forall t: nat | t < tiles ensures t % numSms < programs && !Computed(next, numSms, t) { FirstTile(p, t, next); }

    while exists s :: 0 <= s < programs && next[s] < tiles
      invariant c.Length0 == p.a.rows && c.Length1 == p.b.cols && fresh(c)
      invariant LoopVariables(next, programs, numSms)
      invariant forall t: nat :: t in left <==> t < tiles && !Computed(next, numSms, t)
      invariant forall t: nat :: t in order <==> t < tiles && Computed(next, numSms, t)
      invariant forall k, l :: 0 <= k < l < |order| ==> order[k] != order[l]
      invariant forall i, j :: 0 <= i < c.Length0 && 0 <= j < c.Length1 && p.TileOfCell(i, j) in order ==>
                                 c[i, j] == p.Cell(i, j)
      decreases left
    {
      var s :| 0 <= s < programs && next[s] < tiles;
      var tileId := next[s];
      ComputeTile(p, tileId, c);
      forall t: nat ensures Computed(next[s := next[s] + numSms], numSms, t) <==>
                            Computed(next, numSms, t) || t == next[s] {
        StrideStep(next, numSms, s, t);
      }
      StrideStep(next, numSms, s, tileId);
      assert !Computed(next, numSms, tileId);
      next := next[s := next[s] + numSms];
      order := order + [tileId];
      left := left - {tileId};
    }

    forall t: nat | t < tiles ensures Computed(next, numSms, t) { FirstTile(p, t, next); }
    forall i, j | 0 <= i < c.Length0 && 0 <= j < c.Length1 ensures c[i, j] == p.Cell(i, j) {
      CellHasTile(p, i, j);
    }
  }

  /** The program that handles a tile was launched, and starts at or before the tile. */
  lemma FirstTile<T>(p: Problem<T>, tileId: nat, next: seq<nat>)
    requires p.Valid() && tileId < p.Tiling().Tiles()
    requires |next| == Min(p.cfg.numSms, p.Tiling().Tiles())
    ensures tileId % p.cfg.numSms < |next| && tileId % p.cfg.numSms <= tileId
  {
    hide Grid.Tiles, Problem.Tiling;
    var q, r := DivMod(tileId, p.cfg.numSms);
    ProductMonotone(0, q, p.cfg.numSms);
  }

  lemma CellHasTile<T>(p: Problem<T>, i: nat, j: nat)
    requires p.Valid() && i < p.a.rows && j < p.b.cols
    ensures p.TileOfCell(i, j) < p.Tiling().Tiles()
  {
    hide TileIdOf, Grid.Tiles, CeilDiv;
    CellInOneBlock(i, p.a.rows, p.cfg.blockM);
    CellInOneBlock(j, p.b.cols, p.cfg.blockN);
    TileReached(p.Tiling(), i / p.cfg.blockM, j / p.cfg.blockN);
  }

  // ---- Batch invariance ----

  /** What a row of the result depends on: two calls that share the right operand, the bias and
      the K block size agree on any row they share, whatever the other rows, the number of rows,
      the tile shape, the grouping and the number of programs, and however programs interleave. */
  method RowIndependentOfBatch<T>(p: Problem<T>, p': Problem<T>, i: nat, i': nat, initial: T)
    returns (c: array2<T>, c': array2<T>)
    requires p.Valid() && p'.Valid()
    requires p.num == p'.num && p.b == p'.b && p.bias == p'.bias && p.cfg.blockK == p'.cfg.blockK
    requires i < p.a.rows && i' < p'.a.rows && p.a.Row(i) == p'.a.Row(i')
    ensures c.Length0 == p.a.rows && c.Length1 == p.b.cols
    ensures c'.Length0 == p'.a.rows && c'.Length1 == p.b.cols
    ensures forall j :: 0 <= j < p.b.cols ==> c[i, j] == c'[i', j]
  {
    ghost var order, order';
    c, order := MatmulPersistent(p, initial);
    c', order' := MatmulPersistent(p', initial);
  }

  // ---- Exact arithmetic: the masked, blocked fold is the dot product ----

  /** x[0] * y[0] + ... + x[n-1] * y[n-1]. */
  function Dot(x: seq<real>, y: seq<real>, n: nat): real
    requires n <= |x| && n <= |y|
  {
    if n == 0 then 0.0 else Dot(x, y, n - 1) + x[n - 1] * y[n - 1]
  }

  function Shorter(x: seq<real>, y: seq<real>): nat {
    if |x| < |y| then |x| else |y|
  }

  function ExactNumerics(): Numerics<real> {
    Numerics(0.0, (acc, x, y) => acc + Dot(x, y, Shorter(x, y)), (acc, bias) => acc + bias, acc => acc)
  }

  function UpTo(n: nat, len: nat): nat {
    if n < len then n else len
  }

  /** The first m elements of a masked block add exactly the next m products; the padding adds nothing. */
  lemma {:induction false} BlockDot(row: seq<real>, col: seq<real>, ki: nat, blockK: nat, m: nat)
    requires |row| == |col| && m <= blockK && ki * blockK >= 0
    ensures Dot(row, col, UpTo(ki * blockK + m, |row|)) ==
            Dot(row, col, UpTo(ki * blockK, |row|))
            + Dot(MaskedBlock(row, ki, blockK, 0.0), MaskedBlock(col, ki, blockK, 0.0), m)
  {
    if m > 0 {
      BlockDot(row, col, ki, blockK, m - 1);
    }
  }

  lemma {:induction false} AccumulatedExact(row: seq<real>, col: seq<real>, blockK: nat, blocks: nat)
    requires |row| == |col|
    ensures blocks * blockK >= 0
    ensures Accumulated(ExactNumerics(), row, col, blockK, blocks) == Dot(row, col, UpTo(blocks * blockK, |row|))
  {
    ProductMonotone(0, blocks, blockK);
    if blocks > 0 {
      AccumulatedExact(row, col, blockK, blocks - 1);
      BlockDot(row, col, blocks - 1, blockK, blockK);
      assert (blocks - 1) * blockK + blockK == blocks * blockK;
    }
  }

  /** With exact addition a cell is the dot product of its row and column plus its bias, for every K. */
  lemma CellIsDotProduct(row: seq<real>, col: seq<real>, bias: Option<real>, blockK: nat)
    requires |row| == |col| && blockK > 0
    ensures CellValue(ExactNumerics(), row, col, bias, blockK) ==
            Dot(row, col, |row|) + if bias.Some? then bias.value else 0.0
  {
    AccumulatedExact(row, col, blockK, CeilDiv(|row|, blockK));
  }

  // ---- The result on the data of the operands ----

  /** a[i][0] * b[0][j] + ... + a[i][n-1] * b[n-1][j]. */
  function ProductSum(a: seq<seq<real>>, b: seq<seq<real>>, i: nat, j: nat, n: nat): real
    requires i < |a| && n <= |a[i]| && n <= |b| && forall k :: 0 <= k < n ==> j < |b[k]|
  {
    if n == 0 then 0.0 else ProductSum(a, b, i, j, n - 1) + a[i][n - 1] * b[n - 1][j]
  }

  lemma {:induction false} DotIsProductSum(a: Matrix<real>, b: Matrix<real>, i: nat, j: nat, n: nat)
    requires a.Valid() && b.Valid() && a.cols == b.rows && i < a.rows && j < b.cols && n <= a.cols
    ensures Dot(a.Row(i), b.Col(j), n) == ProductSum(a.data, b.data, i, j, n)
  {
    if n > 0 { DotIsProductSum(a, b, i, j, n - 1); }
  }

  /** With exact addition the launch computes the matrix product plus the bias, cell by cell. */
  method MatmulExact(p: Problem<real>, initial: real) returns (c: array2<real>)
    requires p.Valid() && p.num == ExactNumerics()
    ensures fresh(c) && c.Length0 == p.a.rows && c.Length1 == p.b.cols
    ensures forall i, j :: 0 <= i < c.Length0 && 0 <= j < c.Length1 ==>
      c[i, j] == ProductSum(p.a.data, p.b.data, i, j, p.a.cols) + if p.bias.Some? then p.bias.value[j] else 0.0
  {
    ghost var order;
    c, order := MatmulPersistent(p, initial);
    forall i, j | 0 <= i < c.Length0 && 0 <= j < c.Length1
      ensures c[i, j] == ProductSum(p.a.data, p.b.data, i, j, p.a.cols) + if p.bias.Some? then p.bias.value[j] else 0.0
    {
      CellIsProductSum(p, i, j);
    }
  }

  /** With exact addition a cell is the product of row i and column j of the data, plus entry j of the bias. */
  lemma CellIsProductSum(p: Problem<real>, i: nat, j: nat)
    requires p.Valid() && p.num == ExactNumerics() && i < p.a.rows && j < p.b.cols
    ensures p.Cell(i, j) == ProductSum(p.a.data, p.b.data, i, j, p.a.cols) + if p.bias.Some? then p.bias.value[j] else 0.0
  {
    hide Accumulated, CellValue;
    CellIsDotProduct(p.a.Row(i), p.b.Col(j), p.BiasAt(j), p.cfg.blockK);
    DotIsProductSum(p.a, p.b, i, j, p.a.cols);
  }

  /** The operands of block `ki` for cell (i, j), element by element: the data where there is some, else zero. */
  ghost predicate IsBlock<T(!new)>(p: Problem<T>, i: nat, j: nat, ki: nat, left: seq<T>, right: seq<T>)
    requires p.Valid() && i < p.a.rows && j < p.b.cols
  {
    && |left| == |right| == p.cfg.blockK
    && forall k, at: int :: 0 <= k < p.cfg.blockK && at == ki * p.cfg.blockK + k ==>
         && (0 <= at < p.a.cols ==> left[k] == p.a.data[i][at] && right[k] == p.b.data[at][j])
         && (at >= p.a.cols ==> left[k] == p.num.zero && right[k] == p.num.zero)
  }

  /** Consecutive block updates. */
  function FoldBlocks<T>(num: Numerics<T>, left: seq<seq<T>>, right: seq<seq<T>>): T
    requires |left| == |right|
  {
    if left == [] then num.zero
    else
      var n := |left| - 1;
      num.dot(FoldBlocks(num, left[..n], right[..n]), left[n], right[n])
  }

  /** For any numerics: let the blocks hold the data of row i of the left operand and column j of the right
      one, padded with zeros, and let there be just enough of them. Then the cell is the cast of their
      fold, with entry j of the bias added if there is one. */
  lemma CellOfBlocks<T(!new)>(p: Problem<T>, i: nat, j: nat, left: seq<seq<T>>, right: seq<seq<T>>)
    requires p.Valid() && i < p.a.rows && j < p.b.cols && |left| == |right|
    requires (|left| - 1) * p.cfg.blockK < p.a.cols <= |left| * p.cfg.blockK
    requires forall ki :: 0 <= ki < |left| ==> IsBlock(p, i, j, ki, left[ki], right[ki])
    ensures p.Cell(i, j) == var acc := FoldBlocks(p.num, left, right);
                            p.num.cast(if p.bias.Some? then p.num.addBias(acc, p.bias.value[j]) else acc)
  {
    hide Accumulated, IsBlock, FoldBlocks;
    BlocksFold(p, i, j, left, right);
    CeilDivOf(p.a.cols, p.cfg.blockK, |left|);
  }

  lemma CeilDivOf(n: nat, d: nat, q: nat)
    requires d > 0 && (q - 1) * d < n <= q * d
    ensures CeilDiv(n, d) == q
  {
    var q', r := DivMod(n + d - 1, d);
    assert (q - 1) * d == q * d - d;
    DivModOf(q, n + d - 1 - q * d, d);
  }

  lemma {:induction false} BlocksFold<T(!new)>(p: Problem<T>, i: nat, j: nat, left: seq<seq<T>>, right: seq<seq<T>>)
    requires p.Valid() && i < p.a.rows && j < p.b.cols && |left| == |right|
    requires forall ki :: 0 <= ki < |left| ==> IsBlock(p, i, j, ki, left[ki], right[ki])
    ensures FoldBlocks(p.num, left, right) == Accumulated(p.num, p.a.Row(i), p.b.Col(j), p.cfg.blockK, |left|)
  {
    hide IsBlock, MaskedBlock;
    if left != [] {
      var n := |left| - 1;
      BlocksFold(p, i, j, left[..n], right[..n]);
      BlockIsMasked(p, i, j, n, left[n], right[n]);
    }
  }

  lemma BlockIsMasked<T(!new)>(p: Problem<T>, i: nat, j: nat, ki: nat, left: seq<T>, right: seq<T>)
    requires p.Valid() && i < p.a.rows && j < p.b.cols && IsBlock(p, i, j, ki, left, right)
    ensures left == MaskedBlock(p.a.Row(i), ki, p.cfg.blockK, p.num.zero)
    ensures right == MaskedBlock(p.b.Col(j), ki, p.cfg.blockK, p.num.zero)
  {
    ProductMonotone(0, ki, p.cfg.blockK);
    forall k | 0 <= k < p.cfg.blockK
      ensures left[k] == MaskedBlock(p.a.Row(i), ki, p.cfg.blockK, p.num.zero)[k]
      ensures right[k] == MaskedBlock(p.b.Col(j), ki, p.cfg.blockK, p.num.zero)[k]
    {
      var at := ki * p.cfg.blockK + k;
      assert at >= 0;
    }
  }
}
