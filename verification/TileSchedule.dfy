/** The persistent schedule of the batch-invariant matmul: which program computes which
    output tile, and why every tile is computed exactly once. */
module TileSchedule {
  import opened Arithmetic

  /** Number of blocks of size `block` needed to cover `extent` elements. */
  function CeilDiv(extent: nat, block: nat): (count: nat)
    requires block > 0
    ensures extent <= count * block < extent + block
  {
    (extent + block - 1) / block
  }

  function Min(x: int, y: int): int {
    if x < y then x else y
  }

  /** Rows of tiles in the group that starts at tile row `first`; the last group may be short. */
  function GroupHeight(first: nat, numPidM: nat, groupSizeM: nat): int {
    Min(numPidM - first, groupSizeM)
  }

  /** The grouped tile order of the kernel. */
  function ComputePid(tileId: nat, numPidInGroup: nat, numPidM: nat, groupSizeM: nat): (int, int)
    requires numPidInGroup > 0
    requires GroupHeight(tileId / numPidInGroup * groupSizeM, numPidM, groupSizeM) > 0
  {
    var first := tileId / numPidInGroup * groupSizeM;
    var height := GroupHeight(first, numPidM, groupSizeM);
    (first + tileId % height, tileId % numPidInGroup / height)
  }

  /** A launch: the tile grid and the height of a group. */
  datatype Grid = Grid(pidsM: nat, pidsN: nat, groupM: nat) {
    ghost predicate Valid() { groupM > 0 }

    function Tiles(): nat { pidsM * pidsN }
  }

  // ---- The tile order is a bijection ----

  /** Adding a multiple of d on top of a shift and undoing the shift modulo d. */
  lemma UndoShift(base: nat, q: nat, offset: nat, d: nat)
    requires offset < d
    ensures (base + (q * d + (offset - base % d) % d)) % d == offset
  {
    var shift := base % d;
    var back := (offset - shift) % d;
    assert base == base / d * d + shift;
    if shift <= offset {
      assert back == offset - shift by { DivModOf(0, offset - shift, d); }
      assert base + (q * d + back) == (base / d + q) * d + offset;
      DivModOf(base / d + q, offset, d);
    } else {
      assert back == offset - shift + d by {
        assert offset - shift == -1 * d + (offset - shift + d);
        EuclideanMod(-1, offset - shift + d, d);
      }
      assert base + (q * d + back) == (base / d + q + 1) * d + offset;
      DivModOf(base / d + q + 1, offset, d);
    }
  }

  /** The group of a tile starts inside the grid, and the tile lies within the group's own rows. */
  lemma GroupBounds(g: Grid, tileId: nat, group: nat, rest: nat)
    requires g.Valid() && tileId < g.Tiles()
    requires tileId == group * (g.groupM * g.pidsN) + rest && rest < g.groupM * g.pidsN
    ensures group * g.groupM < g.pidsM
    ensures tileId == group * g.groupM * g.pidsN + rest
    ensures rest < GroupHeight(group * g.groupM, g.pidsM, g.groupM) * g.pidsN
  {
    var first := group * g.groupM;
    assert group * (g.groupM * g.pidsN) == first * g.pidsN;
    ProductCancel(first, g.pidsM, g.pidsN);
    assert (g.pidsM - first) * g.pidsN == g.pidsM * g.pidsN - first * g.pidsN;
  }

  lemma TileWithinGroup(g: Grid, tileId: nat)
    requires g.Valid() && tileId < g.Tiles()
    ensures g.groupM * g.pidsN > 0
    ensures tileId / (g.groupM * g.pidsN) * g.groupM < g.pidsM
  {
    ProductMonotone(1, g.groupM, g.pidsN);
    var perGroup := g.groupM * g.pidsN;
    var group, rest := tileId / perGroup, tileId % perGroup;
    assert tileId == group * perGroup + rest;
    GroupBounds(g, tileId, group, rest);
  }

  /** The tile id at which the schedule reaches tile (pidM, pidN). */
  ghost function TileIdOf(g: Grid, pidM: nat, pidN: nat): nat
    requires g.Valid() && pidM < g.pidsM && pidN < g.pidsN
  {
    var first := pidM / g.groupM * g.groupM;
    var height := GroupHeight(first, g.pidsM, g.groupM);
    var base := first * g.pidsN;
    base + (pidN * height + (pidM - first - base % height) % height)
  }

  /** The tile that the kernel computes when its loop variable is `tileId`. */
  function PidOf(g: Grid, tileId: nat): (int, int)
    requires g.Valid() && tileId < g.Tiles()
  {
    TileWithinGroup(g, tileId);
    ComputePid(tileId, g.groupM * g.pidsN, g.pidsM, g.groupM)
  }

  /** Tile `tileId` is number `rest` of the group whose rows are first .. first + height - 1. */
  ghost predicate InPlace(g: Grid, tileId: nat, first: nat, height: nat, rest: nat) {
    && g.Valid()
    && first % g.groupM == 0 && first < g.pidsM
    && height == GroupHeight(first, g.pidsM, g.groupM)
    && tileId == first * g.pidsN + rest && rest < height * g.pidsN
  }

  lemma PidParts(g: Grid, tileId: nat) returns (first: nat, height: nat, rest: nat)
    requires g.Valid() && tileId < g.Tiles()
    ensures height > 0 && InPlace(g, tileId, first, height, rest)
    ensures PidOf(g, tileId) == (first + tileId % height, rest / height)
  {
    TileWithinGroup(g, tileId);
    var perGroup := g.groupM * g.pidsN;
    var group;
    group, rest := DivMod(tileId, perGroup);
    GroupBounds(g, tileId, group, rest);
    first := group * g.groupM;
    height := GroupHeight(first, g.pidsM, g.groupM);
    DivModOf(group, 0, g.groupM);
  }

  lemma PidInGrid(g: Grid, tileId: nat)
    requires g.Valid() && tileId < g.Tiles()
    ensures 0 <= PidOf(g, tileId).0 < g.pidsM && 0 <= PidOf(g, tileId).1 < g.pidsN
  {
    hide PidOf;
    var first, height, rest := PidParts(g, tileId);
    assert rest == rest / height * height + rest % height;
    ProductCancel(rest / height, g.pidsN, height);
  }

  lemma TileIdParts(g: Grid, pidM: nat, pidN: nat) returns (first: nat, height: nat, rest: nat)
    requires g.Valid() && pidM < g.pidsM && pidN < g.pidsN
    ensures height > 0 && InPlace(g, TileIdOf(g, pidM, pidN), first, height, rest)
    ensures first + TileIdOf(g, pidM, pidN) % height == pidM
    ensures rest / height == pidN
  {
    var group := pidM / g.groupM;
    first := group * g.groupM;
    assert pidM == first + pidM % g.groupM;
    assert first % g.groupM == 0 by { DivModOf(group, 0, g.groupM); }
    height := GroupHeight(first, g.pidsM, g.groupM);
    var base := first * g.pidsN;
    var cyc := (pidM - first - base % height) % height;
    rest := pidN * height + cyc;
    RestInGroup(pidN, height, cyc, g.pidsN);
    UndoShift(base, pidN, pidM - first, height);
    DivModOf(pidN, cyc, height);
  }

  lemma RestInGroup(pidN: nat, height: nat, cyc: nat, pidsN: nat)
    requires pidN < pidsN && cyc < height
    ensures pidN * height + cyc < height * pidsN
  {
    ProductMonotone(pidN + 1, pidsN, height);
    assert (pidN + 1) * height == pidN * height + height;
  }

  lemma InPlaceInGrid(g: Grid, tileId: nat, first: nat, height: nat, rest: nat)
    requires InPlace(g, tileId, first, height, rest)
    ensures tileId < g.Tiles()
  {
    ProductMonotone(first + height, g.pidsM, g.pidsN);
    assert (first + height) * g.pidsN == first * g.pidsN + height * g.pidsN;
  }

  /** A tile id determines its place. */
  lemma PlaceUnique(g: Grid, tileId: nat, first: nat, height: nat, rest: nat, first': nat, height': nat, rest': nat)
    requires InPlace(g, tileId, first, height, rest) && InPlace(g, tileId, first', height', rest')
    ensures first == first' && height == height' && rest == rest'
  {
    var perGroup := g.groupM * g.pidsN;
    var group, group' := first / g.groupM, first' / g.groupM;
    assert first * g.pidsN == group * perGroup by { MultipleOf(first, group, g.groupM, g.pidsN); }
    assert first' * g.pidsN == group' * perGroup by { MultipleOf(first', group', g.groupM, g.pidsN); }
    ProductMonotone(height, g.groupM, g.pidsN);
    ProductMonotone(height', g.groupM, g.pidsN);
    QuotientUnique(group, rest, group', rest', perGroup);
  }

  lemma MultipleOf(first: nat, group: nat, groupM: nat, pidsN: nat)
    requires groupM > 0 && first % groupM == 0 && group == first / groupM
    ensures first == group * groupM
    ensures first * pidsN == group * (groupM * pidsN)
  {
    assert first == group * groupM;
    assert group * groupM * pidsN == group * (groupM * pidsN);
  }

  /** The place of a tile is determined by its tile row and tile column. */
  lemma PlaceOfPid(g: Grid, t: nat, first: nat, height: nat, rest: nat, t': nat, first': nat, height': nat, rest': nat)
    requires InPlace(g, t, first, height, rest) && InPlace(g, t', first', height', rest')
    requires height > 0 && height' > 0
    requires first + t % height == first' + t' % height'
    requires rest / height == rest' / height'
    ensures t == t'
  {
    SameGroup(first, t % height, first', t' % height', g.groupM);
    assert height == height';
    RestDetermined(first * g.pidsN, rest, rest', height);
  }

  lemma SameGroup(first: nat, offset: nat, first': nat, offset': nat, groupM: nat)
    requires offset < groupM && offset' < groupM && first % groupM == 0 && first' % groupM == 0
    requires first + offset == first' + offset'
    ensures first == first'
  {
    GroupOf(first, offset, groupM);
    GroupOf(first', offset', groupM);
  }

  lemma GroupOf(first: nat, offset: nat, groupM: nat)
    requires offset < groupM && first % groupM == 0
    ensures first == (first + offset) / groupM * groupM
  {
    assert first == first / groupM * groupM;
    DivModOf(first / groupM, offset, groupM);
  }

  /** Within a group, the tile column and the residue modulo the height determine the tile. */
  lemma RestDetermined(base: nat, rest: nat, rest': nat, height: nat)
    requires height > 0 && rest / height == rest' / height
    requires (base + rest) % height == (base + rest') % height
    ensures rest == rest'
  {
    var q, r := DivMod(rest, height);
    var q', r' := DivMod(rest', height);
    var p, s := DivMod(base + rest, height);
    var p', s' := DivMod(base + rest', height);
    assert (p - p') * height == p * height - p' * height;
    if r >= r' {
      QuotientUnique(p - p', 0, 0, r - r', height);
    } else {
      QuotientUnique(p' - p, 0, 0, r' - r, height);
    }
  }

  /** Every tile of the grid is reached: the inverse is a right inverse. */
  lemma TileReached(g: Grid, pidM: nat, pidN: nat)
    requires g.Valid() && pidM < g.pidsM && pidN < g.pidsN
    ensures TileIdOf(g, pidM, pidN) < g.Tiles()
    ensures PidOf(g, TileIdOf(g, pidM, pidN)) == (pidM, pidN)
  {
    hide PidOf, TileIdOf, InPlace, Grid.Tiles;
    var tileId := TileIdOf(g, pidM, pidN);
    var first, height, rest := TileIdParts(g, pidM, pidN);
    InPlaceInGrid(g, tileId, first, height, rest);
    var first', height', rest' := PidParts(g, tileId);
    PlaceUnique(g, tileId, first, height, rest, first', height', rest');
  }

  /** No tile is reached twice: the inverse is a left inverse. */
  lemma TileReachedOnce(g: Grid, tileId: nat)
    requires g.Valid() && tileId < g.Tiles()
    ensures 0 <= PidOf(g, tileId).0 < g.pidsM && 0 <= PidOf(g, tileId).1 < g.pidsN
    ensures TileIdOf(g, PidOf(g, tileId).0, PidOf(g, tileId).1) == tileId
  {
    hide PidOf, TileIdOf, InPlace, Grid.Tiles;
    PidInGrid(g, tileId);
    var first, height, rest := PidParts(g, tileId);
    var pid := PidOf(g, tileId);
    var first', height', rest' := TileIdParts(g, pid.0, pid.1);
    PlaceOfPid(g, tileId, first, height, rest, TileIdOf(g, pid.0, pid.1), first', height', rest');
  }

  // ---- The strided loop over tiles ----

  /** How many programs the launch starts. */
  function Programs(g: Grid, numSms: nat): nat {
    Min(numSms, g.Tiles())
  }

  /** Program `pid` handles the tiles pid, pid + numSms, pid + 2 * numSms, ... */
  ghost predicate HandledBy(g: Grid, numSms: nat, tileId: nat, pid: nat, step: nat) {
    pid < Programs(g, numSms) && tileId == pid + step * numSms
  }

  /** Each tile is handled by exactly one launched program, in exactly one of its iterations. */
  lemma TileHandledOnce(g: Grid, numSms: nat, tileId: nat)
    requires numSms > 0 && tileId < g.Tiles()
    ensures HandledBy(g, numSms, tileId, tileId % numSms, tileId / numSms)
    ensures forall pid, step :: HandledBy(g, numSms, tileId, pid, step) ==>
                                  pid == tileId % numSms && step == tileId / numSms
  {
    assert tileId == tileId / numSms * numSms + tileId % numSms;
    if g.Tiles() < numSms { DivModOf(0, tileId, numSms); }
    forall pid, step | HandledBy(g, numSms, tileId, pid, step)
      ensures pid == tileId % numSms && step == tileId / numSms
    {
      DivModOf(step, pid, numSms);
    }
  }

  // ---- Cells ----

  /** Cell `i` of one axis belongs to block `i / block` and to no other. */
  lemma CellInOneBlock(i: nat, extent: nat, block: nat)
    requires block > 0 && i < extent
    ensures i / block < CeilDiv(extent, block)
    ensures forall p: nat :: p * block <= i < p * block + block <==> p == i / block
  {
    assert i == i / block * block + i % block;
    var count := CeilDiv(extent, block);
    ProductCancel(i / block, count, block);
    forall p: nat | p * block <= i < p * block + block ensures p == i / block {
      QuotientUnique(p, i - p * block, i / block, i % block, block);
    }
  }
}
