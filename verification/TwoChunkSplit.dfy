/** Cutting an extend batch into the two children of two-batch overlap, possibly through the
    middle of one sequence, and repairing the children's length metadata. */
module TwoChunkSplit {
  import opened Options
  import opened SplitSearch

  /** The columns of one sequence: req_pool_indices, extend_prefix_lens, extend_seq_lens and seq_lens. */
  datatype SeqRow = SeqRow(req: int, prefixLen: int, extendLen: int, seqLen: int) {
    ghost predicate Consistent() {
      extendLen >= 0 && seqLen == prefixLen + extendLen
    }
  }

  ghost predicate AllConsistent(rows: seq<SeqRow>) {
    forall i :: 0 <= i < |rows| ==> rows[i].Consistent()
  }

  /** The extend_seq_lens column. */
  function Extends(rows: seq<SeqRow>): (lens: seq<int>)
    ensures |lens| == |rows|
  {
    seq(|rows|, i requires 0 <= i < |rows| => rows[i].extendLen)
  }

  function SeqLensSum(rows: seq<SeqRow>): int {
    Sum(seq(|rows|, i requires 0 <= i < |rows| => rows[i].seqLen))
  }

  // ---- Positions and start locations ----

  function Range(lo: int, len: int): (r: seq<int>)
    ensures len >= 0 ==> |r| == len
  {
    if len <= 0 then [] else seq(len, i => lo + i)
  }

  /** The position of every extend token: each sequence continues after its cached prefix. */
  function Positions(rows: seq<SeqRow>): seq<int> {
    if rows == [] then []
    else Positions(rows[..|rows| - 1]) + Range(rows[|rows| - 1].prefixLen, rows[|rows| - 1].extendLen)
  }

  /** Where the tokens of each sequence start: the exclusive cumulative sum of the extend lengths. */
  function StartLocs(lens: seq<int>): (r: seq<int>)
    ensures |r| == |lens|
  {
    seq(|lens|, i requires 0 <= i < |lens| => Prefix(lens, i))
  }

  // ---- Concatenation ----

  lemma ExtendsAppend(x: seq<SeqRow>, y: seq<SeqRow>)
    ensures Extends(x + y) == Extends(x) + Extends(y)
    ensures Sum(Extends(x + y)) == Sum(Extends(x)) + Sum(Extends(y))
  {
    assert Extends(x + y) == Extends(x) + Extends(y);
    SumAppend(Extends(x), Extends(y));
  }

  lemma PositionsStep(init: seq<SeqRow>, last: SeqRow)
    ensures Positions(init + [last]) == Positions(init) + Range(last.prefixLen, last.extendLen)
  {
    assert (init + [last])[..|init|] == init;
  }

  lemma NoPositions(x: seq<SeqRow>)
    ensures Positions(x) + Positions([]) == Positions(x)
  {
    assert Positions([]) == [];
  }

  lemma {:induction false} PositionsAppend(x: seq<SeqRow>, y: seq<SeqRow>)
    ensures Positions(x + y) == Positions(x) + Positions(y)
  {
    hide Positions, Range;
    if y == [] {
      assert x + y == x;
      NoPositions(x);
    } else {
      var init, last := y[..|y| - 1], y[|y| - 1];
      PositionsAppend(x, init);
      PositionsStep(init, last);
      PositionsStep(x + init, last);
      assert y == init + [last] && x + y == (x + init) + [last];
      Associative(Positions(x), Positions(init), Range(last.prefixLen, last.extendLen));
    }
  }

  lemma OneRow(row: SeqRow)
    ensures Positions([row]) == Range(row.prefixLen, row.extendLen)
    ensures Extends([row]) == [row.extendLen] && Sum(Extends([row])) == row.extendLen
  {
    assert [row][..0] == [];
    assert Positions([row][..0]) == [];
    assert Extends([row]) == [row.extendLen];
    assert [row.extendLen][..0] == [];
  }

  lemma {:induction false} PositionsLength(rows: seq<SeqRow>)
    requires AllConsistent(rows)
    ensures |Positions(rows)| == Sum(Extends(rows)) && Lengths(Extends(rows))
  {
    if rows != [] {
      var n := |rows| - 1;
      assert rows[n].Consistent();
      assert AllConsistent(rows[..n]);
      PositionsLength(rows[..n]);
      assert Extends(rows)[..n] == Extends(rows[..n]);
    }
  }

  lemma RangeSplit(lo: int, len: int, left: int)
    requires 0 <= left <= len
    ensures Range(lo, len) == Range(lo, left) + Range(lo + left, len - left)
  {
  }

  lemma Associative<T>(x: seq<T>, y: seq<T>, z: seq<T>)
    ensures x + (y + z) == (x + y) + z
  {
  }

  // ---- Cutting inside a sequence ----

  /** The two parts of a row of which `left` tokens stay on the first side: the second part
      continues where the first one ends. */
  function FirstPart(row: SeqRow, left: int): SeqRow { SeqRow(row.req, row.prefixLen, left, row.prefixLen + left) }

  function SecondPart(row: SeqRow, left: int): SeqRow {
    SeqRow(row.req, row.prefixLen + left, row.extendLen - left, row.seqLen)
  }

  function HeadRows(rows: seq<SeqRow>, idx: nat, left: int): seq<SeqRow>
    requires idx < |rows|
  {
    rows[..idx] + [FirstPart(rows[idx], left)]
  }

  function TailRows(rows: seq<SeqRow>, idx: nat, left: int): seq<SeqRow>
    requires idx < |rows|
  {
    [SecondPart(rows[idx], left)] + rows[idx + 1..]
  }

  lemma CutRow(row: SeqRow, left: int)
    requires 0 <= left <= row.extendLen
    ensures Positions([row]) == Positions([FirstPart(row, left)]) + Positions([SecondPart(row, left)])
    ensures Sum(Extends([row])) == left + Sum(Extends([SecondPart(row, left)]))
    ensures Sum(Extends([FirstPart(row, left)])) == left
  {
    hide *;
    OneRow(row);
    OneRow(FirstPart(row, left));
    OneRow(SecondPart(row, left));
    RangeSplit(row.prefixLen, row.extendLen, left);
    PartFields(row, left);
  }

  lemma PartFields(row: SeqRow, left: int)
    ensures FirstPart(row, left).prefixLen == row.prefixLen && FirstPart(row, left).extendLen == left
    ensures SecondPart(row, left).prefixLen == row.prefixLen + left
    ensures SecondPart(row, left).extendLen == row.extendLen - left
    ensures SecondPart(row, left) == SeqRow(row.req, row.prefixLen + left, row.extendLen - left, row.seqLen)
    ensures FirstPart(row, left).req == row.req
  {
  }

  /** Cutting the rows cuts the positions and the token count. */
  lemma CutRows(before: seq<SeqRow>, row: SeqRow, after: seq<SeqRow>, left: int)
    requires 0 <= left <= row.extendLen
    ensures Positions(before + ([row] + after)) ==
            Positions(before + [FirstPart(row, left)]) + Positions([SecondPart(row, left)] + after)
    ensures Sum(Extends(before + [FirstPart(row, left)])) == Sum(Extends(before)) + left
    ensures Sum(Extends(before + ([row] + after))) ==
            Sum(Extends(before)) + left + Sum(Extends([SecondPart(row, left)] + after))
  {
    hide *;
    var first, second := [FirstPart(row, left)], [SecondPart(row, left)];
    CutRow(row, left);
    PositionsAppend(before, [row] + after);
    PositionsAppend([row], after);
    PositionsAppend(before, first);
    PositionsAppend(second, after);
    ExtendsAppend(before, [row] + after);
    ExtendsAppend([row], after);
    ExtendsAppend(before, first);
    ExtendsAppend(second, after);
    var pb, pf, ps, pa := Positions(before), Positions(first), Positions(second), Positions(after);
    Associative(pf, ps, pa);
    Associative(pb, pf, ps + pa);
  }

  lemma AroundRow(rows: seq<SeqRow>, idx: nat)
    requires idx < |rows|
    ensures rows == rows[..idx] + ([rows[idx]] + rows[idx + 1..])
    ensures Prefix(Extends(rows), idx) == Sum(Extends(rows[..idx]))
  {
    assert Extends(rows)[..idx] == Extends(rows[..idx]);
  }

  lemma PartsConsistent(rows: seq<SeqRow>, idx: nat, left: int)
    requires AllConsistent(rows) && idx < |rows| && 0 <= left <= rows[idx].extendLen
    ensures AllConsistent(HeadRows(rows, idx, left)) && AllConsistent(TailRows(rows, idx, left))
  {
    assert rows[idx].Consistent();
  }

  /** A cut inside sequence idx leaves two consistent tables; their positions are the cut positions. */
  lemma CutInside(rows: seq<SeqRow>, idx: nat, left: int)
    requires AllConsistent(rows) && idx < |rows| && 0 <= left <= rows[idx].extendLen
    ensures var head, tail := HeadRows(rows, idx, left), TailRows(rows, idx, left);
            && AllConsistent(head) && AllConsistent(tail)
            && Positions(rows) == Positions(head) + Positions(tail)
            && Sum(Extends(head)) == Prefix(Extends(rows), idx) + left
            && Sum(Extends(rows)) == Sum(Extends(head)) + Sum(Extends(tail))
  {
    hide *;
    hide AllConsistent;
    PartsConsistent(rows, idx, left);
    AroundRow(rows, idx);
    CutRows(rows[..idx], rows[idx], rows[idx + 1..], left);
    HeadAndTail(rows, idx, left);
  }

  lemma HeadAndTail(rows: seq<SeqRow>, idx: nat, left: int)
    requires idx < |rows|
    ensures HeadRows(rows, idx, left) == rows[..idx] + [FirstPart(rows[idx], left)]
    ensures TailRows(rows, idx, left) == [SecondPart(rows[idx], left)] + rows[idx + 1..]
  {
  }

  // ---- Cutting between sequences ----

  lemma CutBetween(rows: seq<SeqRow>, n: nat)
    requires AllConsistent(rows) && n <= |rows|
    ensures AllConsistent(rows[..n]) && AllConsistent(rows[n..])
    ensures Positions(rows) == Positions(rows[..n]) + Positions(rows[n..])
    ensures Extends(rows) == Extends(rows[..n]) + Extends(rows[n..])
    ensures Sum(Extends(rows[..n])) == Prefix(Extends(rows), n)
    ensures Sum(Extends(rows)) == Prefix(Extends(rows), n) + Sum(Extends(rows[n..]))
  {
    hide *;
    SlicesConsistent(rows, n);
    assert rows == rows[..n] + rows[n..];
    PositionsAppend(rows[..n], rows[n..]);
    ExtendsAppend(rows[..n], rows[n..]);
    ExtendsOfPrefix(rows, n);
  }

  lemma SlicesConsistent(rows: seq<SeqRow>, n: nat)
    requires AllConsistent(rows) && n <= |rows|
    ensures AllConsistent(rows[..n]) && AllConsistent(rows[n..])
  {
  }

  lemma ExtendsOfPrefix(rows: seq<SeqRow>, n: nat)
    requires n <= |rows|
    ensures Extends(rows)[..n] == Extends(rows[..n])
    ensures Prefix(Extends(rows), n) == Sum(Extends(rows[..n]))
  {
    assert Extends(rows)[..n] == Extends(rows[..n]);
  }

  /** The start locations of the sequences up to idx do not depend on the lengths from idx on. */
  lemma StartLocsOfHead(x: seq<int>, y: seq<int>, n: nat)
    requires |y| == n <= |x| && (n > 0 ==> y[..n - 1] == x[..n - 1])
    ensures StartLocs(x)[..n] == StartLocs(y)
  {
    forall i | 0 <= i < n ensures Prefix(x, i) == Prefix(y, i) {
      assert x[..i] == x[..n - 1][..i];
      assert y[..i] == y[..n - 1][..i];
    }
  }

  /** Start locations cut between sequences are those of the tail only if no token precedes it. */
  lemma StartLocsOfTail(lens: seq<int>, n: nat)
    requires n <= |lens|
    ensures StartLocs(lens)[n..] == StartLocs(lens[n..]) <==> n == |lens| || Prefix(lens, n) == 0
  {
    forall i | n <= i <= |lens| ensures Prefix(lens, i) == Prefix(lens, n) + Prefix(lens[n..], i - n) {
      assert lens[..i] == lens[..n] + lens[n..][..i - n];
      SumAppend(lens[..n], lens[n..][..i - n]);
    }
    if n < |lens| {
      assert StartLocs(lens)[n..][0] == Prefix(lens, n);
      assert StartLocs(lens[n..])[0] == Prefix(lens[n..], 0) == 0;
    }
  }

  // ---- Slices ----

  lemma SliceEnds<T>(s: seq<T>, n: nat)
    requires n <= |s|
    ensures s[0..n] == s[..n] && s[n..|s|] == s[n..]
  {
  }

  lemma SpliceEnds(rows: seq<SeqRow>, idx: nat, left: int)
    requires idx < |rows|
    ensures rows[0..idx + 1][idx := FirstPart(rows[idx], left)] == HeadRows(rows, idx, left)
    ensures rows[idx..|rows|][0 := SecondPart(rows[idx], left)] == TailRows(rows, idx, left)
    ensures rows[0..idx + 1][idx] == rows[idx] && rows[idx..|rows|][0] == rows[idx]
  {
  }

  lemma SlicesJoin<T>(whole: seq<T>, n: nat, x: seq<T>, y: seq<T>)
    requires n <= |whole| && whole == x + y && |x| == n
    ensures whole[0..n] == x && whole[n..|whole|] == y
  {
  }

  lemma HeadExtends(rows: seq<SeqRow>, idx: nat, left: int)
    requires idx < |rows|
    ensures |Extends(HeadRows(rows, idx, left))| == idx + 1
    ensures Extends(HeadRows(rows, idx, left))[..idx] == Extends(rows)[..idx]
    ensures Extends(rows[..idx]) == Extends(rows)[..idx] && Extends(rows[idx..]) == Extends(rows)[idx..]
  {
  }

  // ---- The batch ----

  class ForwardBatch {
    // per token
    var inputIds: seq<int>
    var positions: seq<int>
    var outCacheLoc: seq<int>
    // per sequence: the length columns on the host, their device copies, and the start locations
    var batchSize: nat
    var rowsCpu: seq<SeqRow>
    var rowsDevice: seq<SeqRow>
    var extendStartLoc: seq<int>
    // totals
    var extendNumTokens: int
    var seqLensSum: int
    var numTokenNonPadded: int
    var globalDpBufferLen: Option<int>
    // two-batch overlap
    var tboSplitSeqIndex: Option<nat>
    var tboParentTokenRange: Option<(int, int)>
    var tboChildren: Option<(ForwardBatch, ForwardBatch)>

    /** Everything that the length metadata of a batch promises, except the start locations. */
    ghost predicate Consistent()
      reads this`inputIds, this`positions, this`outCacheLoc, this`batchSize, this`rowsCpu, this`rowsDevice
      reads this`extendStartLoc, this`extendNumTokens, this`seqLensSum
    {
      && |rowsCpu| == |extendStartLoc| == batchSize
      && rowsDevice == rowsCpu && AllConsistent(rowsCpu)
      && extendNumTokens == Sum(Extends(rowsCpu)) == |inputIds| == |positions| == |outCacheLoc|
      && seqLensSum == SeqLensSum(rowsCpu)
      && positions == Positions(rowsCpu)
    }

    ghost predicate StartLocsConsistent()
      reads this`rowsCpu, this`extendStartLoc
    {
      extendStartLoc == StartLocs(Extends(rowsCpu))
    }

    constructor (inputIds: seq<int>, positions: seq<int>, outCacheLoc: seq<int>, batchSize: nat,
                 rowsCpu: seq<SeqRow>, rowsDevice: seq<SeqRow>, extendStartLoc: seq<int>,
                 extendNumTokens: int, seqLensSum: int, numTokenNonPadded: int,
                 globalDpBufferLen: Option<int>, range: Option<(int, int)>)
      ensures this.inputIds == inputIds && this.positions == positions && this.outCacheLoc == outCacheLoc
      ensures this.batchSize == batchSize && this.rowsCpu == rowsCpu && this.rowsDevice == rowsDevice
      ensures this.extendStartLoc == extendStartLoc && this.extendNumTokens == extendNumTokens
      ensures this.seqLensSum == seqLensSum && this.numTokenNonPadded == numTokenNonPadded
      ensures this.globalDpBufferLen == globalDpBufferLen && this.tboParentTokenRange == range
      ensures tboSplitSeqIndex == None && tboChildren == None
    {
      this.inputIds, this.positions, this.outCacheLoc := inputIds, positions, outCacheLoc;
      this.batchSize, this.rowsCpu, this.rowsDevice := batchSize, rowsCpu, rowsDevice;
      this.extendStartLoc, this.extendNumTokens := extendStartLoc, extendNumTokens;
      this.seqLensSum, this.numTokenNonPadded := seqLensSum, numTokenNonPadded;
      this.globalDpBufferLen, this.tboParentTokenRange := globalDpBufferLen, range;
      tboSplitSeqIndex, tboChildren := None, None;
    }

    /** `child` is the part of the batch with the given token and sequence ranges, its lengths as they are. */
    ghost predicate IsSlice(child: ForwardBatch, startToken: nat, endToken: nat, startSeq: nat, endSeq: nat)
      reads this`inputIds, this`positions, this`outCacheLoc, this`rowsCpu, this`rowsDevice, this`extendStartLoc, child
    {
      && startToken <= endToken <= |inputIds| == |positions| == |outCacheLoc|
      && startSeq <= endSeq <= |rowsCpu| == |rowsDevice| == |extendStartLoc|
      && child.inputIds == inputIds[startToken..endToken]
      && child.positions == positions[startToken..endToken]
      && child.outCacheLoc == outCacheLoc[startToken..endToken]
      && child.batchSize == endSeq - startSeq
      && child.rowsCpu == rowsCpu[startSeq..endSeq] && child.rowsDevice == rowsDevice[startSeq..endSeq]
      && child.extendStartLoc == extendStartLoc[startSeq..endSeq]
      && child.extendNumTokens == endToken - startToken && child.seqLensSum == SeqLensSum(child.rowsCpu)
      && child.tboParentTokenRange == Some((startToken, endToken))
    }

    /** The data-parallel buffer length of a child; set for both children or for neither. */
    function ChildDpBufferLen(tokens: int, moeDenseTpOne: bool): Option<int>
      reads this`globalDpBufferLen
    {
      if moeDenseTpOne && globalDpBufferLen.Some? then Some(tokens) else None
    }

    method FilterBatch(startToken: nat, endToken: nat, startSeq: nat, endSeq: nat,
                       outNumTokenNonPadded: int, moeDenseTpOne: bool)
      returns (child: ForwardBatch)
      requires startToken <= endToken <= |inputIds| == |positions| == |outCacheLoc|
      requires startSeq <= endSeq <= |rowsCpu| == |rowsDevice| == |extendStartLoc|
      ensures fresh(child) && IsSlice(child, startToken, endToken, startSeq, endSeq)
      ensures child.numTokenNonPadded == outNumTokenNonPadded
      ensures child.globalDpBufferLen == ChildDpBufferLen(endToken - startToken, moeDenseTpOne)
      ensures child.globalDpBufferLen.Some? <==> moeDenseTpOne && globalDpBufferLen.Some?
      ensures child.globalDpBufferLen.Some? ==> child.globalDpBufferLen.value == endToken - startToken
    {
      child := new ForwardBatch(
        inputIds[startToken..endToken], positions[startToken..endToken], outCacheLoc[startToken..endToken],
        endSeq - startSeq, rowsCpu[startSeq..endSeq], rowsDevice[startSeq..endSeq], extendStartLoc[startSeq..endSeq],
        |inputIds[startToken..endToken]|, SeqLensSum(rowsCpu[startSeq..endSeq]), outNumTokenNonPadded,
        ChildDpBufferLen(endToken - startToken, moeDenseTpOne), Some((startToken, endToken)));
    }

    /** Repair the lengths of two children that share sequence `idx`. */
    method DeriveFieldsForTwoChunk(childA: ForwardBatch, childB: ForwardBatch, idx: nat)
      requires childA != childB && this != childA && this != childB
      requires idx < |rowsCpu|
      requires |childA.rowsCpu| > 0 && |childB.rowsCpu| > 0
      modifies childA`rowsCpu, childA`rowsDevice, childA`extendNumTokens, childA`seqLensSum
      modifies childB`rowsCpu, childB`rowsDevice, childB`extendNumTokens, childB`extendStartLoc
      ensures var left := Sum(Extends(rowsCpu)) / 2 - Prefix(Extends(rowsCpu), idx);
              var rows := old(childA.rowsCpu);
              && childA.rowsDevice == childA.rowsCpu == rows[|rows| - 1 := FirstPart(rows[|rows| - 1], left)]
              && childA.extendNumTokens == Sum(Extends(childA.rowsCpu))
              && childA.seqLensSum == SeqLensSum(childA.rowsCpu)
      ensures var left := Sum(Extends(rowsCpu)) / 2 - Prefix(Extends(rowsCpu), idx);
              var rows := old(childB.rowsCpu);
              && childB.rowsDevice == childB.rowsCpu
              && childB.rowsCpu == rows[0 := SeqRow(rows[0].req, rows[0].prefixLen + left, rowsCpu[idx].extendLen - left, rows[0].seqLen)]
              && childB.extendNumTokens == Sum(Extends(childB.rowsCpu))
              && childB.extendStartLoc == StartLocs(Extends(childB.rowsCpu))
    {
      hide Sum, SeqLensSum, StartLocs;
      var lens := Extends(rowsCpu);
      var halfSum := Sum(lens) / 2;
      var leftTokens := halfSum - Sum(lens[..idx]);
      var rightTokens := lens[idx] - leftTokens;
      var lastA := |childA.rowsCpu| - 1;

      // the extend lengths of both children
      childA.rowsCpu := childA.rowsCpu[lastA := childA.rowsCpu[lastA].(extendLen := leftTokens)];
      childB.rowsCpu := childB.rowsCpu[0 := childB.rowsCpu[0].(extendLen := rightTokens)];
      childA.rowsDevice, childA.extendNumTokens := childA.rowsCpu, Sum(Extends(childA.rowsCpu));
      childB.rowsDevice, childB.extendNumTokens := childB.rowsCpu, Sum(Extends(childB.rowsCpu));
      ghost var extendsA := Extends(childA.rowsCpu);

      // the sequence length of the first part
      childA.rowsCpu := childA.rowsCpu[lastA := childA.rowsCpu[lastA].(
          seqLen := childA.rowsCpu[lastA].extendLen + childA.rowsCpu[lastA].prefixLen)];
      childA.rowsDevice, childA.seqLensSum := childA.rowsCpu, SeqLensSum(childA.rowsCpu);
      assert Extends(childA.rowsCpu) == extendsA;
      ghost var extendsB := Extends(childB.rowsCpu);

      // the prefix length of the second part
      childB.rowsCpu := childB.rowsCpu[0 := childB.rowsCpu[0].(
          prefixLen := childB.rowsCpu[0].prefixLen + leftTokens)];
      childB.rowsDevice := childB.rowsCpu;
      assert Extends(childB.rowsCpu) == extendsB;
      childB.extendStartLoc := StartLocs(Extends(childB.rowsDevice));
    }

    /** How the sequence lengths relate to those of the two children of a cut at idx. */
    ghost predicate CutRowsInto(a: ForwardBatch, b: ForwardBatch, idx: nat, twoChunk: bool)
      reads this`rowsCpu, a, b
    {
      if twoChunk then
        // Sequence idx is in both children; its second part continues where the first one ends.
        && idx < |rowsCpu| && |a.rowsCpu| == idx + 1 && |b.rowsCpu| == |rowsCpu| - idx
        && a.rowsCpu[..idx] == rowsCpu[..idx] && b.rowsCpu[1..] == rowsCpu[idx + 1..]
        && a.rowsCpu[idx].req == b.rowsCpu[0].req == rowsCpu[idx].req
        && a.rowsCpu[idx].prefixLen == rowsCpu[idx].prefixLen
        && a.rowsCpu[idx].extendLen + b.rowsCpu[0].extendLen == rowsCpu[idx].extendLen
        && b.rowsCpu[0].prefixLen == a.rowsCpu[idx].seqLen
        && b.rowsCpu[0].seqLen == rowsCpu[idx].seqLen
      else
        idx <= |rowsCpu| && a.rowsCpu == rowsCpu[..idx] && b.rowsCpu == rowsCpu[idx..]
    }

    /** The batch is cut into a and b: both have consistent metadata, and their tokens are its tokens. */
    ghost predicate SplitInto(a: ForwardBatch, b: ForwardBatch, idx: nat, twoChunk: bool)
      reads this`inputIds, this`positions, this`outCacheLoc, this`rowsCpu, this`extendNumTokens, a, b
    {
      && idx <= |rowsCpu|
      && a.Consistent() && b.Consistent()
      && SharesTokens(a, b)
      && (twoChunk ==> a.extendNumTokens == extendNumTokens / 2)
      && CutRowsInto(a, b, idx, twoChunk)
      // The start locations of the second child are rebased only when a sequence is cut.
      && a.StartLocsConsistent()
      && (b.StartLocsConsistent() <==> twoChunk || idx == |rowsCpu| || Prefix(Extends(rowsCpu), idx) == 0)
    }

    /** The token fields of a and b are those of the batch, one after the other. */
    ghost predicate SharesTokens(a: ForwardBatch, b: ForwardBatch)
      reads this`inputIds, this`positions, this`outCacheLoc, this`extendNumTokens, a, b
    {
      && inputIds == a.inputIds + b.inputIds
      && positions == a.positions + b.positions
      && outCacheLoc == a.outCacheLoc + b.outCacheLoc
      && extendNumTokens == a.extendNumTokens + b.extendNumTokens
      && a.tboParentTokenRange == Some((0, a.extendNumTokens))
      && b.tboParentTokenRange == Some((a.extendNumTokens, extendNumTokens))
      && a.numTokenNonPadded == |a.inputIds| && b.numTokenNonPadded == |b.inputIds|
      && a.globalDpBufferLen.Some? == b.globalDpBufferLen.Some?
      && (a.globalDpBufferLen.Some? ==> a.globalDpBufferLen.value == |a.inputIds|)
      && (b.globalDpBufferLen.Some? ==> b.globalDpBufferLen.value == |b.inputIds|)
    }

    method Prepare(isDraftWorker: bool, threshold: real, moeDenseTpOne: bool)
      requires Consistent() && StartLocsConsistent() && tboChildren == None
      requires threshold <= 0.5
      requires tboSplitSeqIndex.Some? ==> SplitSeqOf(Extends(rowsCpu), threshold, tboSplitSeqIndex.value)
      modifies this`tboChildren
      ensures tboChildren.None? <==> tboSplitSeqIndex.None? || isDraftWorker
      ensures tboChildren.Some? ==>
        SplitInto(tboChildren.value.0, tboChildren.value.1, tboSplitSeqIndex.value, Lopsided(Extends(rowsCpu), threshold))
      ensures tboChildren.Some? ==>
        (tboChildren.value.0.globalDpBufferLen.Some? <==> moeDenseTpOne && globalDpBufferLen.Some?)
    {
      hide *;
      if tboSplitSeqIndex.None? || isDraftWorker {
        return;
      }
      var idx := tboSplitSeqIndex.value;
      var cut, twoChunk := SplitPoint(idx, threshold);
      var childA := FilterBatch(0, cut, 0, if twoChunk then idx + 1 else idx, NonPadded(cut).0, moeDenseTpOne);
      var childB := FilterBatch(cut, |inputIds|, idx, batchSize, NonPadded(cut).1, moeDenseTpOne);
      TokensShared(childA, childB, cut, if twoChunk then idx + 1 else idx, idx, moeDenseTpOne);
      BufferIff(cut, moeDenseTpOne);
      if twoChunk {
        SliceSizes(childA, 0, cut, 0, idx + 1);
        SliceSizes(childB, cut, |inputIds|, idx, batchSize);
        Derive(childA, childB, idx, cut);
      } else {
        SplitBetween(childA, childB, idx, cut);
      }
      tboChildren := Some((childA, childB));
    }

    /** The token at which the batch is cut, and whether that is inside a sequence. */
    method SplitPoint(idx: nat, threshold: real) returns (cut: nat, twoChunk: bool)
      requires Consistent() && threshold <= 0.5 && SplitSeqOf(Extends(rowsCpu), threshold, idx)
      ensures |rowsCpu| == |rowsDevice| == |extendStartLoc| == batchSize
      ensures idx <= batchSize && cut <= |inputIds| == |positions| == |outCacheLoc|
      ensures twoChunk <==> Lopsided(Extends(rowsCpu), threshold)
      ensures twoChunk ==> idx < batchSize && cut == Sum(Extends(rowsCpu)) / 2
                           && Prefix(Extends(rowsCpu), idx) <= cut < Prefix(Extends(rowsCpu), idx + 1)
      ensures !twoChunk ==> cut == Prefix(Extends(rowsCpu), idx)
    {
      hide Positions, Sum, Prefix, OutOfBand, Lengths, AllConsistent, SeqLensSum, Extends, HalfCut;
      PositionsLength(rowsCpu);
      var tokenIndex := ComputeSplitTokenIndex(idx, Extend, Some(Extends(rowsCpu)), None, threshold);
      cut := tokenIndex.value;
      twoChunk := IsTwoChunkSplitEnabled(Some(Extends(rowsCpu)), threshold);
      if twoChunk { LopsidedHasTokens(Extends(rowsCpu), threshold, idx); }
    }

    /** How many tokens on each side of the cut are not padding. */
    function NonPadded(cut: int): (int, int)
      reads this`inputIds
    {
      (if cut < |inputIds| then cut else |inputIds|, if |inputIds| - cut > 0 then |inputIds| - cut else 0)
    }

    lemma BufferIff(tokens: int, moeDenseTpOne: bool)
      ensures ChildDpBufferLen(tokens, moeDenseTpOne)
              == if moeDenseTpOne && globalDpBufferLen.Some? then Some(tokens) else None
    {
    }

    lemma SliceSizes(child: ForwardBatch, startToken: nat, endToken: nat, startSeq: nat, endSeq: nat)
      requires IsSlice(child, startToken, endToken, startSeq, endSeq)
      ensures |child.rowsCpu| == |child.rowsDevice| == |child.extendStartLoc| == child.batchSize == endSeq - startSeq
    {
    }

    lemma TokensShared(a: ForwardBatch, b: ForwardBatch, cut: nat, hi: nat, lo: nat, moeDenseTpOne: bool)
      requires Consistent() && cut <= |inputIds|
      requires IsSlice(a, 0, cut, 0, hi) && IsSlice(b, cut, |inputIds|, lo, batchSize)
      requires a.numTokenNonPadded == NonPadded(cut).0 && b.numTokenNonPadded == NonPadded(cut).1
      requires a.globalDpBufferLen == ChildDpBufferLen(cut, moeDenseTpOne)
      requires b.globalDpBufferLen == ChildDpBufferLen(|inputIds| - cut, moeDenseTpOne)
      ensures SharesTokens(a, b)
    {
    }

    /** The children of a cut inside sequence idx after their lengths are repaired. */
    method Derive(a: ForwardBatch, b: ForwardBatch, idx: nat, cut: nat)
      requires Consistent() && StartLocsConsistent()
      requires a != b && this != a && this != b
      requires idx < |rowsCpu| == batchSize && cut == Sum(Extends(rowsCpu)) / 2
      requires Prefix(Extends(rowsCpu), idx) <= cut < Prefix(Extends(rowsCpu), idx + 1)
      requires IsSlice(a, 0, cut, 0, idx + 1) && IsSlice(b, cut, |inputIds|, idx, batchSize)
      requires |a.rowsCpu| == idx + 1 && |b.rowsCpu| == batchSize - idx
      requires SharesTokens(a, b)
      modifies a`rowsCpu, a`rowsDevice, a`extendNumTokens, a`seqLensSum
      modifies b`rowsCpu, b`rowsDevice, b`extendNumTokens, b`extendStartLoc
      ensures SplitInto(a, b, idx, true)
    {
      hide Positions, Sum, Prefix, Extends, StartLocs, AllConsistent, SeqLensSum, HeadRows, TailRows;
      hide FirstPart, SecondPart, Consistent, StartLocsConsistent, IsSlice, SharesTokens, SplitInto, KeepsAfterDerive;
      ghost var rows, left := rowsCpu, cut - Prefix(Extends(rowsCpu), idx);
      BeforeDerive(a, b, idx, cut);
      DeriveFieldsForTwoChunk(a, b, idx);
      SpliceEnds(rows, idx, left);
      PartFields(rows[idx], left);
      AfterDerive(a, b, idx, cut, left);
    }

    lemma BeforeDerive(a: ForwardBatch, b: ForwardBatch, idx: nat, cut: nat)
      requires Consistent() && SharesTokens(a, b)
      requires idx < batchSize && IsSlice(a, 0, cut, 0, idx + 1) && IsSlice(b, cut, |inputIds|, idx, batchSize)
      ensures a.rowsCpu == rowsCpu[0..idx + 1] && b.rowsCpu == rowsCpu[idx..|rowsCpu|]
      ensures KeepsAfterDerive(a, b, idx, cut)
    {
    }

    /** The fields that repairing the lengths leaves as they are. */
    ghost predicate KeepsAfterDerive(a: ForwardBatch, b: ForwardBatch, idx: nat, cut: nat)
      reads this`inputIds, this`positions, this`outCacheLoc, this`rowsCpu, this`extendStartLoc
      reads a`inputIds, a`positions, a`outCacheLoc, a`batchSize, a`extendStartLoc
      reads a`tboParentTokenRange, a`numTokenNonPadded, a`globalDpBufferLen
      reads b`inputIds, b`positions, b`outCacheLoc, b`batchSize, b`seqLensSum
      reads b`tboParentTokenRange, b`numTokenNonPadded, b`globalDpBufferLen
    {
      && cut <= |inputIds| == |positions| == |outCacheLoc|
      && idx < |rowsCpu| == |extendStartLoc|
      && a.inputIds == inputIds[0..cut] && b.inputIds == inputIds[cut..|inputIds|]
      && a.positions == positions[0..cut] && b.positions == positions[cut..|positions|]
      && a.outCacheLoc == outCacheLoc[0..cut] && b.outCacheLoc == outCacheLoc[cut..|outCacheLoc|]
      && a.batchSize == idx + 1 && b.batchSize == |rowsCpu| - idx
      && a.extendStartLoc == extendStartLoc[0..idx + 1]
      && b.seqLensSum == SeqLensSum(rowsCpu[idx..|rowsCpu|])
      && a.tboParentTokenRange == Some((0, cut)) && b.tboParentTokenRange == Some((cut, |inputIds|))
      && a.numTokenNonPadded == |a.inputIds| && b.numTokenNonPadded == |b.inputIds|
      && a.globalDpBufferLen.Some? == b.globalDpBufferLen.Some?
      && (a.globalDpBufferLen.Some? ==> a.globalDpBufferLen.value == |a.inputIds|)
      && (b.globalDpBufferLen.Some? ==> b.globalDpBufferLen.value == |b.inputIds|)
    }

    ghost predicate DerivedRows(a: ForwardBatch, b: ForwardBatch, idx: nat, left: int)
      reads this`rowsCpu, a`rowsCpu, a`rowsDevice, a`extendNumTokens, a`seqLensSum
      reads b`rowsCpu, b`rowsDevice, b`extendNumTokens, b`extendStartLoc
    {
      && idx < |rowsCpu|
      && a.rowsDevice == a.rowsCpu == HeadRows(rowsCpu, idx, left)
      && b.rowsDevice == b.rowsCpu == TailRows(rowsCpu, idx, left)
      && a.extendNumTokens == Sum(Extends(a.rowsCpu)) && b.extendNumTokens == Sum(Extends(b.rowsCpu))
      && a.seqLensSum == SeqLensSum(a.rowsCpu)
      && b.extendStartLoc == StartLocs(Extends(b.rowsCpu))
    }

    lemma AfterDerive(a: ForwardBatch, b: ForwardBatch, idx: nat, cut: nat, left: int)
      requires Consistent() && StartLocsConsistent()
      requires KeepsAfterDerive(a, b, idx, cut) && DerivedRows(a, b, idx, left)
      requires idx < |rowsCpu| && left == cut - Prefix(Extends(rowsCpu), idx) && cut == Sum(Extends(rowsCpu)) / 2
      requires Prefix(Extends(rowsCpu), idx) <= cut < Prefix(Extends(rowsCpu), idx + 1)
      ensures SplitInto(a, b, idx, true)
    {
      hide Positions, Sum, Prefix, Extends, StartLocs, AllConsistent, SeqLensSum, Lengths, HeadRows, TailRows;
      PrefixStep(Extends(rowsCpu), idx);
      LastExtend(rowsCpu, idx);
      CutInside(rowsCpu, idx, left);
      RowCounts(rowsCpu, idx, left);
      PositionsLength(rowsCpu);
      PositionsLength(a.rowsCpu);
      PositionsLength(b.rowsCpu);
      SlicesJoin(positions, cut, Positions(a.rowsCpu), Positions(b.rowsCpu));
      SumOfTail(rowsCpu, idx, left);
      HeadExtends(rowsCpu, idx, left);
      StartLocsOfHead(Extends(rowsCpu), Extends(a.rowsCpu), idx + 1);
      SliceEnds(extendStartLoc, idx + 1);
      assert a.Consistent() && a.StartLocsConsistent();
      assert b.Consistent() && b.StartLocsConsistent();
      assert SharesTokens(a, b);
      CutRowsInside(a, b, idx, left);
    }

    static lemma LastExtend(rows: seq<SeqRow>, idx: nat)
      requires idx < |rows|
      ensures Extends(rows)[idx] == rows[idx].extendLen
    {
    }

    static lemma RowCounts(rows: seq<SeqRow>, idx: nat, left: int)
      requires idx < |rows|
      ensures |HeadRows(rows, idx, left)| == idx + 1 && |TailRows(rows, idx, left)| == |rows| - idx
    {
    }

    static lemma SumOfTail(rows: seq<SeqRow>, idx: nat, left: int)
      requires idx < |rows|
      ensures SeqLensSum(TailRows(rows, idx, left)) == SeqLensSum(rows[idx..|rows|])
    {
      var x, y := TailRows(rows, idx, left), rows[idx..|rows|];
      assert seq(|x|, i requires 0 <= i < |x| => x[i].seqLen) == seq(|y|, i requires 0 <= i < |y| => y[i].seqLen);
    }

    lemma CutRowsInside(a: ForwardBatch, b: ForwardBatch, idx: nat, left: int)
      requires idx < |rowsCpu| && AllConsistent(rowsCpu)
      requires a.rowsCpu == HeadRows(rowsCpu, idx, left) && b.rowsCpu == TailRows(rowsCpu, idx, left)
      ensures CutRowsInto(a, b, idx, true)
    {
      assert rowsCpu[idx].Consistent();
    }

    /** The children of a cut between sequences are plain slices. */
    lemma SplitBetween(a: ForwardBatch, b: ForwardBatch, idx: nat, cut: nat)
      requires Consistent() && StartLocsConsistent() && idx <= batchSize
      requires cut == Prefix(Extends(rowsCpu), idx)
      requires IsSlice(a, 0, cut, 0, idx) && IsSlice(b, cut, |inputIds|, idx, batchSize) && SharesTokens(a, b)
      ensures SplitInto(a, b, idx, false)
    {
      hide Positions, Sum, Prefix, Extends, StartLocs, AllConsistent, SeqLensSum, Lengths, SharesTokens;
      CutBetween(rowsCpu, idx);
      SliceEnds(rowsCpu, idx);
      SliceEnds(extendStartLoc, idx);
      PositionsLength(rowsCpu[..idx]);
      SlicesJoin(positions, cut, Positions(rowsCpu[..idx]), Positions(rowsCpu[idx..]));
      ExtendsOfSlices(rowsCpu, idx);
      StartLocsOfHead(Extends(rowsCpu), Extends(a.rowsCpu), idx);
      StartLocsOfTail(Extends(rowsCpu), idx);
      assert a.Consistent() && b.Consistent();
    }

    static lemma ExtendsOfSlices(rows: seq<SeqRow>, idx: nat)
      requires idx <= |rows|
      ensures Extends(rows[idx..]) == Extends(rows)[idx..]
      ensures Extends(rows[..idx]) == Extends(rows)[..idx]
      ensures idx > 0 ==> Extends(rows[..idx])[..idx - 1] == Extends(rows)[..idx - 1]
    {
    }
  }

  // ---- A cut whose start locations are wrong ----

  /** Two sequences of four new tokens each are cut between them. */
  lemma EqualHalves(threshold: real)
    requires threshold <= 0.5
    ensures BalancedCut([4, 4], 1) && !Lopsided([4, 4], threshold) && Prefix([4, 4], 1) == 4 && Sum([4, 4]) == 8
  {
    var lens := [4, 4];
    assert lens[..0] == [] && lens[..1] == [4] && [4][..0] == [] && lens[..2] == lens;
    assert Sum([4]) == 4 && Sum(lens) == 8 && Prefix(lens, 1) == 4;
    assert !OutOfBand(4, 8, threshold);
    forall cut: nat | cut <= 2 && BalancedCut(lens, cut) ensures !OutOfBand(Prefix(lens, cut), 8, threshold) {
      BalancedCutUnique(lens, cut, 1);
    }
  }

  /** Splitting that batch: everything about the second child is right but its start locations. */
  method SplitEqualHalves(threshold: real) returns (a: ForwardBatch, b: ForwardBatch)
    requires threshold <= 0.5
    ensures a.Consistent() && b.Consistent() && a.StartLocsConsistent() && !b.StartLocsConsistent()
  {
    hide Lopsided, BalancedCut, Sum, Prefix, OutOfBand, Positions, StartLocs;
    var rows := [SeqRow(0, 0, 4, 4), SeqRow(1, 0, 4, 4)];
    var tokens := seq(8, i => i);
    var batch := new ForwardBatch(tokens, Positions(rows), tokens, 2, rows, rows, StartLocs(Extends(rows)), 8, SeqLensSum(rows),
                                  8, None, None);
    batch.tboSplitSeqIndex := Some(1);
    assert Extends(rows) == [4, 4];
    EqualHalves(threshold);
    PositionsLength(rows);
    StartLocsLength(rows);
    assert SplitSeqOf([4, 4], threshold, 1) by { CutChosen(threshold); }
    batch.Prepare(false, threshold, false);
    a, b := batch.tboChildren.value.0, batch.tboChildren.value.1;
  }

  lemma StartLocsLength(rows: seq<SeqRow>)
    ensures |StartLocs(Extends(rows))| == |rows|
  {
  }

  lemma CutChosen(threshold: real)
    requires BalancedCut([4, 4], 1) && !Lopsided([4, 4], threshold)
    ensures SplitSeqOf([4, 4], threshold, 1)
  {
  }
}
