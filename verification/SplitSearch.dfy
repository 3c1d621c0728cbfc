/** Where a batch is cut in two: the searches over the extend lengths of its sequences. */
module SplitSearch {
  import opened Arithmetic
  import opened Options

  function Sum(lens: seq<int>): int {
    if |lens| == 0 then 0 else Sum(lens[..|lens| - 1]) + lens[|lens| - 1]
  }

  /** Tokens of the first `n` sequences. */
  function Prefix(lens: seq<int>, n: nat): int
    requires n <= |lens|
  {
    Sum(lens[..n])
  }

  ghost predicate Lengths(lens: seq<int>) {
    forall i :: 0 <= i < |lens| ==> lens[i] >= 0
  }

  lemma PrefixStep(lens: seq<int>, n: nat)
    requires n < |lens|
    ensures Prefix(lens, n + 1) == Prefix(lens, n) + lens[n]
  {
    assert lens[..n + 1][..n] == lens[..n];
  }

  lemma PrefixWhole(lens: seq<int>)
    ensures Prefix(lens, |lens|) == Sum(lens)
  {
    assert lens[..|lens|] == lens;
  }

  lemma {:induction false} PrefixMonotone(lens: seq<int>, m: nat, n: nat)
    requires Lengths(lens) && m <= n <= |lens|
    ensures 0 <= Prefix(lens, m) <= Prefix(lens, n) <= Sum(lens)
    decreases |lens| - m, n - m, m
  {
    PrefixWhole(lens);
    if m < n {
      PrefixStep(lens, n - 1);
      PrefixMonotone(lens, m, n - 1);
      if n < |lens| { PrefixMonotone(lens, n, |lens|); }
    } else if n < |lens| {
      PrefixStep(lens, n);
      PrefixMonotone(lens, n + 1, n + 1);
    }
    PrefixNonNegative(lens, m);
  }

  lemma {:induction false} PrefixNonNegative(lens: seq<int>, n: nat)
    requires Lengths(lens) && n <= |lens|
    ensures Prefix(lens, n) >= 0
  {
    if n > 0 {
      PrefixStep(lens, n - 1);
      PrefixNonNegative(lens, n - 1);
    }
  }

  // ---- The balanced split ----

  /** How unbalanced the cut before sequence `n` is. */
  function Imbalance(lens: seq<int>, n: nat): nat
    requires n <= |lens|
  {
    var left := Prefix(lens, n);
    var right := Sum(lens) - left;
    if left >= right then left - right else right - left
  }

  /** The imbalance is how far the two sides are apart. */
  lemma ImbalanceIs(lens: seq<int>, n: nat)
    requires n <= |lens|
    ensures Imbalance(lens, n) == var d := Sum(lens[..n]) - Sum(lens[n..]); if d < 0 then -d else d
    ensures Imbalance(lens, n) == var d := 2 * Prefix(lens, n) - Sum(lens); if d < 0 then -d else d
  {
    SumAppend(lens[..n], lens[n..]);
    assert lens[..n] + lens[n..] == lens;
  }

  lemma {:induction false} SumAppend(a: seq<int>, b: seq<int>)
    ensures Sum(a + b) == Sum(a) + Sum(b)
  {
    if b == [] {
      assert a + b == a;
    } else {
      var n := |b| - 1;
      SumAppend(a, b[..n]);
      assert (a + b)[..|a| + n] == a + b[..n];
    }
  }

  /** `best` is the last of the cuts 1 .. |lens| - 1 that leave the smallest imbalance. */
  ghost predicate BalancedCut(lens: seq<int>, best: nat) {
    if |lens| < 2 then best == 0
    else
      && 1 <= best < |lens|
      && (forall n :: 1 <= n < |lens| ==> Imbalance(lens, best) <= Imbalance(lens, n))
      && (forall n :: best < n < |lens| ==> Imbalance(lens, best) < Imbalance(lens, n))
  }

  lemma BalancedCutUnique(lens: seq<int>, m: nat, n: nat)
    requires BalancedCut(lens, m) && BalancedCut(lens, n)
    ensures m == n
  {
    assert |lens| < 2 || Imbalance(lens, m) == Imbalance(lens, n);
  }

  /** Once a cut is worse than the one before it, the left side is the heavy one, so no later cut is better. */
  lemma WorseFromHereOn(lens: seq<int>, i: nat, n: nat)
    requires Lengths(lens) && 1 <= i <= n < |lens|
    requires Imbalance(lens, i - 1) < Imbalance(lens, i)
    ensures Imbalance(lens, i) <= Imbalance(lens, n)
  {
    PrefixMonotone(lens, i - 1, i);
    PrefixMonotone(lens, i, n);
  }

  method SplitArrayByBalancedSum(arr: seq<int>) returns (bestIndex: nat)
    requires Lengths(arr)
    ensures BalancedCut(arr, bestIndex)
  {
    var overallSum := Sum(arr);
    var leftSum := 0;
    var minDiff: Option<int> := None;  // None stands for infinity
    bestIndex := 0;
    assert Prefix(arr, 0) == 0;
    var i := 1;
    while i < |arr|
      invariant 1 <= i && (i <= |arr| || (i == 1 && arr == []))
      invariant leftSum == Prefix(arr, i - 1)
      invariant bestIndex == i - 1
      invariant minDiff == if i == 1 then None else Some(Imbalance(arr, i - 1))
      invariant forall n :: 1 <= n < i ==> Imbalance(arr, i - 1) <= Imbalance(arr, n)
    {
      PrefixStep(arr, i - 1);
      leftSum := leftSum + arr[i - 1];
      var rightSum := overallSum - leftSum;
      var diff := if leftSum >= rightSum then leftSum - rightSum else rightSum - leftSum;
      if minDiff.None? || diff <= minDiff.value {
        minDiff := Some(diff);
        bestIndex := i;
        i := i + 1;
      } else {
        forall n | i <= n < |arr| ensures Imbalance(arr, i) <= Imbalance(arr, n) {
          WorseFromHereOn(arr, i, n);
        }
        break;
      }
    }
  }

  // ---- The split through the middle of the token range ----

  /** The sequence that holds token `total / 2`. */
  ghost predicate HalfCut(lens: seq<int>, chosen: nat) {
    if Sum(lens) == 0 then chosen == 0
    else chosen < |lens| && Prefix(lens, chosen) <= Sum(lens) / 2 < Prefix(lens, chosen + 1)
  }

  method SplitArrayByCumLessThanHalf(arr: seq<int>) returns (chosenIndex: nat)
    requires Lengths(arr)
    ensures HalfCut(arr, chosenIndex)
  {
    var leftSum := 0;
    var overallSum := Sum(arr);
    var halfSum := overallSum / 2;
    chosenIndex := 0;
    PrefixNonNegative(arr, |arr|);
    PrefixWhole(arr);
    for i := 0 to |arr|
      invariant leftSum == Prefix(arr, i) && leftSum <= halfSum
      invariant chosenIndex == 0
    {
      PrefixStep(arr, i);
      PrefixMonotone(arr, i, i + 1);
      leftSum := leftSum + arr[i];
      if leftSum > halfSum {
        chosenIndex := i;
        break;
      }
    }
  }

  // ---- Which of the two ----

  /** A cut whose left side is outside the configured band around one half. */
  predicate OutOfBand(left: int, total: int, threshold: real) {
    left as real < total as real * threshold || left as real > total as real * (1.0 - threshold)
  }

  /** The balanced cut is too lopsided for the configured threshold. */
  ghost predicate Lopsided(lens: seq<int>, threshold: real) {
    exists cut: nat :: cut <= |lens| && BalancedCut(lens, cut) && OutOfBand(Prefix(lens, cut), Sum(lens), threshold)
  }

  method IsTwoChunkSplitEnabled(extendLens: Option<seq<int>>, threshold: real) returns (enabled: bool)
    requires extendLens.Some? ==> Lengths(extendLens.value)
    requires threshold <= 0.5
    ensures enabled <==> extendLens.Some? && Lopsided(extendLens.value, threshold)
    ensures extendLens.Some? && |extendLens.value| >= 2 ==>
              (enabled <==> forall n :: 1 <= n < |extendLens.value| ==>
                 Imbalance(extendLens.value, n) as real > Sum(extendLens.value) as real * (1.0 - 2.0 * threshold))
    ensures extendLens.Some? && |extendLens.value| < 2 ==>
              (enabled <==> Sum(extendLens.value) as real * threshold > 0.0)
  {
    hide *;
    if extendLens.None? {
      return false;
    }
    var lens := extendLens.value;
    var vanilla := SplitArrayByBalancedSum(lens);
    CutWithin(lens, vanilla);
    var leftSum := Sum(lens[..vanilla]);
    enabled := OutOfBand(leftSum, Sum(lens), threshold);
    OnlyCut(lens, threshold, vanilla);
    LopsidedIff(lens, threshold, vanilla);
  }

  lemma CutWithin(lens: seq<int>, cut: nat)
    requires BalancedCut(lens, cut)
    ensures cut <= |lens| && Prefix(lens, cut) == Sum(lens[..cut])
  {
    hide Imbalance, Sum;
  }

  /** Two-chunk is enabled exactly if every cut between sequences is too unbalanced; where there is no
      such cut, exactly if there are tokens and the threshold is positive. */
  lemma LopsidedIff(lens: seq<int>, threshold: real, cut: nat)
    requires Lengths(lens) && threshold <= 0.5 && cut <= |lens| && BalancedCut(lens, cut)
    ensures |lens| >= 2 ==>
              (Lopsided(lens, threshold) <==>
                 forall n :: 1 <= n < |lens| ==> Imbalance(lens, n) as real > Sum(lens) as real * (1.0 - 2.0 * threshold))
    ensures |lens| < 2 ==> (Lopsided(lens, threshold) <==> Sum(lens) as real * threshold > 0.0)
  {
    hide OutOfBand, Imbalance, Sum, Prefix;
    OnlyCut(lens, threshold, cut);
    PrefixMonotone(lens, cut, |lens|);
    OutOfBandIff(Prefix(lens, cut), Sum(lens), threshold);
    if |lens| >= 2 {
      ImbalanceIs(lens, cut);
    } else {
      assert Prefix(lens, 0) == 0 by { NothingBefore(lens); }
      BandAtZero(Sum(lens), threshold);
    }
  }

  lemma OnlyCut(lens: seq<int>, threshold: real, cut: nat)
    requires cut <= |lens| && BalancedCut(lens, cut)
    ensures Lopsided(lens, threshold) <==> OutOfBand(Prefix(lens, cut), Sum(lens), threshold)
  {
    hide OutOfBand, BalancedCut;
    if Lopsided(lens, threshold) {
      var c: nat :| c <= |lens| && BalancedCut(lens, c) && OutOfBand(Prefix(lens, c), Sum(lens), threshold);
      BalancedCutUnique(lens, c, cut);
    }
  }

  lemma NothingBefore(lens: seq<int>)
    ensures Prefix(lens, 0) == 0
  {
  }

  lemma OutOfBandIff(left: int, total: int, threshold: real)
    requires threshold <= 0.5 && total >= 0
    ensures OutOfBand(left, total, threshold)
            <==> (var d := 2 * left - total; if d < 0 then -d else d) as real > total as real * (1.0 - 2.0 * threshold)
  {
    var x, t := total as real, threshold;
    assert x * (1.0 - t) == x - x * t && x * (1.0 - 2.0 * t) == x - 2.0 * (x * t);
    assert x * (0.5 - t) >= 0.0 && x * (0.5 - t) == 0.5 * x - x * t;
  }

  lemma BandAtZero(total: int, threshold: real)
    requires threshold <= 0.5 && total >= 0
    ensures OutOfBand(0, total, threshold) <==> total as real * threshold > 0.0
  {
    assert total as real * (1.0 - threshold) >= 0.0;
  }

  /** With a heavy sequence on either side two-chunk is enabled, and the batch is cut inside that sequence. */
  lemma HeavySide()
    ensures forall lens :: lens == [1000, 1] || lens == [1, 1000] ==>
              Lopsided(lens, 0.48) && SplitTokenOf(lens, 0.48, 0) == 500
    ensures HalfCut([1000, 1], 0) && HalfCut([1, 1000], 1)
  {
    forall lens | lens == [1000, 1] || lens == [1, 1000] ensures Lopsided(lens, 0.48) && Sum(lens) == 1001 {
      TwoSums(lens);
      LopsidedIff(lens, 0.48, 1);
    }
    TwoSums([1000, 1]);
    TwoSums([1, 1000]);
  }

  lemma TwoSums(lens: seq<int>)
    requires |lens| == 2 && Lengths(lens)
    ensures Prefix(lens, 0) == 0 && Prefix(lens, 1) == lens[0] && Prefix(lens, 2) == Sum(lens) == lens[0] + lens[1]
    ensures Lengths(lens) && BalancedCut(lens, 1)
  {
    PrefixStep(lens, 0);
    PrefixStep(lens, 1);
    PrefixWhole(lens);
  }

  /** A lopsided batch has tokens, and the cut through token `total / 2` lies inside a sequence. */
  lemma LopsidedHasTokens(lens: seq<int>, threshold: real, chosen: nat)
    requires Lengths(lens) && threshold <= 0.5 && Lopsided(lens, threshold) && HalfCut(lens, chosen)
    ensures Sum(lens) > 0
    ensures chosen < |lens| && Prefix(lens, chosen) <= Sum(lens) / 2 < Prefix(lens, chosen + 1)
  {
    hide OutOfBand, BalancedCut, Sum, Prefix, Lengths;
    var cut: nat :| cut <= |lens| && BalancedCut(lens, cut) && OutOfBand(Prefix(lens, cut), Sum(lens), threshold);
    PrefixMonotone(lens, cut, |lens|);
    NothingOutOfBand(threshold);
  }

  lemma NothingOutOfBand(threshold: real)
    ensures !OutOfBand(0, 0, threshold)
  {
    assert 0.0 * threshold == 0.0 && 0.0 * (1.0 - threshold) == 0.0;
  }

  method SplitExtendSeqs(arr: seq<int>, threshold: real) returns (index: nat)
    requires Lengths(arr) && threshold <= 0.5
    ensures if Lopsided(arr, threshold) then HalfCut(arr, index) else BalancedCut(arr, index)
  {
    var twoChunk := IsTwoChunkSplitEnabled(Some(arr), threshold);
    if twoChunk {
      index := SplitArrayByCumLessThanHalf(arr);
    } else {
      index := SplitArrayByBalancedSum(arr);
    }
  }

  // ---- The split indices per forward mode ----

  datatype ForwardMode = Extend | Decode | TargetVerify | Idle | OtherMode

  /** The sequence before which, or inside which, the batch is cut; None where the source raises. */
  method ComputeSplitSeqIndex(mode: ForwardMode, numTokens: nat, extendLens: Option<seq<int>>,
                              tokenNumPerSeq: Option<nat>, threshold: real)
    returns (index: Option<nat>)
    requires threshold <= 0.5
    requires extendLens.Some? ==> Lengths(extendLens.value)
    requires mode.Decode? || mode.TargetVerify? ==> tokenNumPerSeq != Some(0)
    ensures index.None? <==> match mode
                             case Extend => extendLens.None?
                             case Idle => numTokens != 0
                             case OtherMode => true
                             case _ => tokenNumPerSeq.None?
    ensures mode.Extend? && index.Some? ==> SplitSeqOf(extendLens.value, threshold, index.value)
    ensures (mode.Decode? || mode.TargetVerify?) && index.Some? ==>
      forall seqs: nat :: numTokens == seqs * tokenNumPerSeq.value ==> index.value == seqs / 2
    ensures mode.Idle? && index.Some? ==> index.value == 0
  {
    match mode
    case Extend =>
      if extendLens.None? { return None; }
      var i := SplitExtendSeqs(extendLens.value, threshold);
      index := Some(i);
    case Decode =>
      index := HalfOfSequences(numTokens, tokenNumPerSeq);
    case TargetVerify =>
      index := HalfOfSequences(numTokens, tokenNumPerSeq);
    case Idle =>
      index := if numTokens == 0 then Some(0) else None;
    case OtherMode =>
      index := None;
  }

  method HalfOfSequences(numTokens: nat, tokenNumPerSeq: Option<nat>) returns (index: Option<nat>)
    requires tokenNumPerSeq != Some(0)
    ensures index.None? <==> tokenNumPerSeq.None?
    ensures index.Some? ==> forall seqs: nat :: numTokens == seqs * tokenNumPerSeq.value ==> index.value == seqs / 2
  {
    if tokenNumPerSeq.None? { return None; }
    var perSeq := tokenNumPerSeq.value;
    index := Some(numTokens / perSeq / 2);
    forall seqs: nat | numTokens == seqs * perSeq ensures index.value == seqs / 2 {
      DivModOf(seqs, 0, perSeq);
    }
  }

  /** What the sequence index of an extend batch is. */
  ghost predicate SplitSeqOf(lens: seq<int>, threshold: real, index: nat) {
    if Lopsided(lens, threshold) then HalfCut(lens, index) else BalancedCut(lens, index)
  }

  /** The token at which the batch is cut, given the sequence index; None where the source raises. */
  method ComputeSplitTokenIndex(splitSeqIndex: nat, mode: ForwardMode, extendSeqLens: Option<seq<int>>,
                                tokenNumPerSeq: Option<nat>, threshold: real)
    returns (index: Option<nat>)
    requires threshold <= 0.5
    requires extendSeqLens.Some? ==> Lengths(extendSeqLens.value)
    ensures index.None? <==> match mode
                             case Extend => extendSeqLens.None?
                             case Idle => splitSeqIndex != 0
                             case OtherMode => true
                             case _ => tokenNumPerSeq.None?
    ensures mode.Extend? && index.Some? ==>
      index.value == SplitTokenOf(extendSeqLens.value, threshold, splitSeqIndex) <= Sum(extendSeqLens.value)
    ensures (mode.Decode? || mode.TargetVerify?) && index.Some? ==> index.value == splitSeqIndex * tokenNumPerSeq.value
    ensures mode.Idle? && index.Some? ==> index.value == 0
  {
    match mode
    case Extend =>
      if extendSeqLens.None? { return None; }
      var lens := extendSeqLens.value;
      PrefixNonNegative(lens, |lens|);
      PrefixWhole(lens);
      var twoChunk := IsTwoChunkSplitEnabled(extendSeqLens, threshold);
      if twoChunk {
        index := Some(Sum(lens) / 2);
      } else {
        var end := if splitSeqIndex < |lens| then splitSeqIndex else |lens|;
        PrefixMonotone(lens, end, |lens|);
        index := Some(Sum(lens[..end]));
      }
    case Decode =>
      index := WholeSequenceTokens(splitSeqIndex, tokenNumPerSeq);
    case TargetVerify =>
      index := WholeSequenceTokens(splitSeqIndex, tokenNumPerSeq);
    case Idle =>
      index := if splitSeqIndex == 0 then Some(0) else None;
    case OtherMode =>
      index := None;
  }

  method WholeSequenceTokens(splitSeqIndex: nat, tokenNumPerSeq: Option<nat>) returns (index: Option<nat>)
    ensures index.None? <==> tokenNumPerSeq.None?
    ensures index.Some? ==> index.value == splitSeqIndex * tokenNumPerSeq.value
  {
    if tokenNumPerSeq.None? { return None; }
    ProductMonotone(0, splitSeqIndex, tokenNumPerSeq.value);
    index := Some(splitSeqIndex * tokenNumPerSeq.value);
  }

  /** A decode or verify cut falls between sequences and inside the batch, and its halves differ by
      at most one sequence. */
  lemma EvenCut(numTokens: nat, seqs: nat, perSeq: nat)
    requires perSeq > 0 && numTokens == seqs * perSeq
    ensures var index := numTokens / perSeq / 2;
            && 0 <= index * perSeq <= numTokens
            && numTokens - index * perSeq == (seqs - index) * perSeq
            && 0 <= seqs - index - index <= 1
  {
    DivModOf(seqs, 0, perSeq);
    var index := seqs / 2;
    ProductMonotone(index, seqs, perSeq);
    ProductMonotone(0, index, perSeq);
    assert (seqs - index) * perSeq == seqs * perSeq - index * perSeq;
  }

  /** What the token index of an extend batch is; a slice past the end takes all sequences. */
  ghost function SplitTokenOf(lens: seq<int>, threshold: real, seqIndex: nat): int {
    if Lopsided(lens, threshold) then Sum(lens) / 2
    else Prefix(lens, if seqIndex < |lens| then seqIndex else |lens|)
  }
}
