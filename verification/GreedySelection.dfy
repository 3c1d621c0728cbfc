/** Choosing among options by their token log-probabilities, token by token. Shorter options are
    extended with their average. */
module GreedySelection {

  function Total(xs: seq<real>): real {
    if xs == [] then 0.0 else Total(xs[..|xs| - 1]) + xs[|xs| - 1]
  }

  function Average(xs: seq<real>): real
    requires xs != []
  {
    Total(xs) / |xs| as real
  }

  /** Position j of an option that is extended with its average. */
  function Padded(option: seq<real>, j: nat): real
    requires option != []
  {
    if j < |option| then option[j] else Average(option)
  }

  method Mean(xs: seq<real>) returns (mean: real)
    requires xs != []
    ensures mean == Average(xs)
  {
    var total := 0.0;
    var i := 0;
    assert xs[..0] == [];
    while i < |xs|
      invariant i <= |xs| && total == Total(xs[..i])
    {
      assert xs[..i + 1][..i] == xs[..i];
      total := total + xs[i];
      i := i + 1;
    }
    assert xs[..i] == xs;
    mean := total / |xs| as real;
  }

  /** One row of the matrix: the option's own values, then its average. */
  method FillRow(matrix: array2<real>, i: nat, option: seq<real>)
    requires i < matrix.Length0 && 0 < |option| <= matrix.Length1
    modifies matrix
    ensures forall j :: 0 <= j < matrix.Length1 ==> matrix[i, j] == Padded(option, j)
    ensures forall k, j :: 0 <= k < matrix.Length0 && 0 <= j < matrix.Length1 && k != i ==> matrix[k, j] == old(matrix[k, j])
  {
    var mean := Mean(option);
    var j := 0;
    while j < matrix.Length1
      invariant j <= matrix.Length1
      invariant forall l :: 0 <= l < j ==> matrix[i, l] == Padded(option, l)
      invariant forall k, l :: 0 <= k < matrix.Length0 && 0 <= l < matrix.Length1 && k != i ==> matrix[k, l] == old(matrix[k, l])
    {
      matrix[i, j] := if j < |option| then option[j] else mean;
      j := j + 1;
    }
  }

  method BuildLogprobMatrix(options: seq<seq<real>>, maxTokens: nat) returns (matrix: array2<real>)
    requires forall o :: o in options ==> 0 < |o| <= maxTokens
    ensures fresh(matrix) && matrix.Length0 == |options| && matrix.Length1 == maxTokens
    ensures forall i, j :: 0 <= i < |options| && 0 <= j < maxTokens ==> matrix[i, j] == Padded(options[i], j)
  {
    matrix := new real[|options|, maxTokens]((i, j) => 0.0);
    var i := 0;
    while i < |options|
      invariant i <= |options|
      invariant forall k, j :: 0 <= k < i && 0 <= j < maxTokens ==> matrix[k, j] == Padded(options[k], j)
    {
      FillRow(matrix, i, options[i]);
      i := i + 1;
    }
  }

  // ---- The reference: lexicographic comparison of the extended options ----

  ghost predicate NonEmpty(options: seq<seq<real>>) {
    forall i :: 0 <= i < |options| ==> options[i] != []
  }

  function Value(options: seq<seq<real>>, i: nat, j: nat): real
    requires NonEmpty(options) && i < |options|
  {
    Padded(options[i], j)
  }

  ghost predicate Same(options: seq<seq<real>>, a: nat, b: nat, n: nat)
    requires NonEmpty(options) && a < |options| && b < |options|
  {
    forall j :: 0 <= j < n ==> Value(options, a, j) == Value(options, b, j)
  }

  ghost predicate FirstSmaller(options: seq<seq<real>>, a: nat, b: nat, j: nat)
    requires NonEmpty(options) && a < |options| && b < |options|
  {
    Same(options, a, b, j) && Value(options, a, j) < Value(options, b, j)
  }

  /** On its first n tokens option a is the same as b, or smaller where they first differ. */
  ghost predicate AtMost(options: seq<seq<real>>, a: nat, b: nat, n: nat)
    requires NonEmpty(options) && a < |options| && b < |options|
  {
    Same(options, a, b, n) || exists j: nat :: j < n && FirstSmaller(options, a, b, j)
  }

  /** No option is lexicographically greater than option i on its first n tokens. */
  ghost predicate Maximal(options: seq<seq<real>>, i: nat, n: nat)
    requires NonEmpty(options) && i < |options|
  {
    forall k: nat :: k < |options| ==> AtMost(options, k, i, n)
  }

  lemma NotBoth(options: seq<seq<real>>, a: nat, b: nat, n: nat)
    requires NonEmpty(options) && a < |options| && b < |options|
    requires AtMost(options, a, b, n) && !Same(options, a, b, n)
    ensures !AtMost(options, b, a, n)
  {
    hide Value, NonEmpty;
    var i: nat :| i < n && FirstSmaller(options, a, b, i);
    assert !Same(options, b, a, n);
    forall j: nat | j < n ensures !FirstSmaller(options, b, a, j) {
    }
  }

  lemma SameTransfers(options: seq<seq<real>>, l: nat, i: nat, k: nat, n: nat)
    requires NonEmpty(options) && l < |options| && i < |options| && k < |options|
    requires AtMost(options, l, i, n) && Same(options, k, i, n)
    ensures AtMost(options, l, k, n)
  {
    hide Value, NonEmpty;
    if !Same(options, l, i, n) {
      var j: nat :| j < n && FirstSmaller(options, l, i, j);
      assert FirstSmaller(options, l, k, j);
    }
  }

  /** Comparing on one more token. */
  lemma AtMostStep(options: seq<seq<real>>, a: nat, b: nat, n: nat)
    requires NonEmpty(options) && a < |options| && b < |options|
    ensures AtMost(options, a, b, n + 1)
            <==> AtMost(options, a, b, n) && (Same(options, a, b, n) ==> Value(options, a, n) <= Value(options, b, n))
  {
    hide Value, NonEmpty;
    if AtMost(options, a, b, n + 1) && !Same(options, a, b, n + 1) {
      var j: nat :| j < n + 1 && FirstSmaller(options, a, b, j);
      if j == n { assert Same(options, a, b, n); }
    }
    if AtMost(options, a, b, n) {
      if Same(options, a, b, n) {
        if Value(options, a, n) < Value(options, b, n) { assert FirstSmaller(options, a, b, n); }
      } else {
        var j: nat :| j < n && FirstSmaller(options, a, b, j);
      }
    }
  }

  /** The maximal options on n + 1 tokens are those of n tokens that have the greatest token n. */
  lemma MaximalStep(options: seq<seq<real>>, i: nat, n: nat)
    requires NonEmpty(options) && i < |options|
    ensures Maximal(options, i, n + 1)
            <==> Maximal(options, i, n)
                 && forall k: nat :: k < |options| && Maximal(options, k, n) ==> Value(options, k, n) <= Value(options, i, n)
  {
    hide Value, NonEmpty, AtMost, Same;
    forall k: nat | k < |options|
      ensures AtMost(options, k, i, n + 1)
              <==> AtMost(options, k, i, n) && (Same(options, k, i, n) ==> Value(options, k, n) <= Value(options, i, n))
    {
      AtMostStep(options, k, i, n);
    }
    if Maximal(options, i, n + 1) {
      forall k: nat | k < |options| ensures AtMost(options, k, i, n) { assert AtMost(options, k, i, n + 1); }
    }
    if Maximal(options, i, n) {
      forall k: nat | k < |options| ensures Same(options, k, i, n) <==> Maximal(options, k, n) {
        SameAsMaximal(options, k, i, n);
      }
      if Maximal(options, i, n + 1) {
        forall k: nat | k < |options| && Maximal(options, k, n) ensures Value(options, k, n) <= Value(options, i, n) {
          assert AtMost(options, k, i, n + 1);
        }
      }
      if forall k: nat :: k < |options| && Maximal(options, k, n) ==> Value(options, k, n) <= Value(options, i, n) {
        var more := n + 1;
        forall k: nat | k < |options| ensures AtMost(options, k, i, more) {
          assert AtMost(options, k, i, n);
          assert Same(options, k, i, n) ==> Maximal(options, k, n);
        }
      }
    }
  }

  lemma SameAsMaximal(options: seq<seq<real>>, k: nat, i: nat, n: nat)
    requires NonEmpty(options) && k < |options| && i < |options| && Maximal(options, i, n)
    ensures Same(options, k, i, n) <==> Maximal(options, k, n)
  {
    hide Value, NonEmpty, AtMost, Same;
    if Maximal(options, k, n) && !Same(options, k, i, n) {
      assert AtMost(options, k, i, n) && AtMost(options, i, k, n);
      NotBoth(options, k, i, n);
    }
    if Same(options, k, i, n) {
      forall l: nat | l < |options| ensures AtMost(options, l, k, n) {
        SameTransfers(options, l, i, k, n);
      }
    }
  }

  /** An option that alone is maximal on n tokens is the only maximal one on more tokens. */
  lemma {:induction false} OnlyMaximal(options: seq<seq<real>>, i: nat, n: nat, more: nat)
    requires NonEmpty(options) && i < |options| && n <= more
    requires forall k: nat :: k < |options| ==> (Maximal(options, k, n) <==> k == i)
    ensures forall k: nat :: k < |options| ==> (Maximal(options, k, more) <==> k == i)
    decreases more
  {
    hide Value, NonEmpty, Maximal;
    if n < more {
      OnlyMaximal(options, i, n, more - 1);
      forall k: nat | k < |options| ensures Maximal(options, k, more) <==> k == i {
        MaximalStep(options, k, more - 1);
      }
    }
  }

  // ---- The selection ----

  /** The indices of exactly the maximal options, in order. */
  ghost predicate Selected(options: seq<seq<real>>, remaining: seq<nat>, n: nat)
    requires NonEmpty(options)
  {
    && (forall a, b :: 0 <= a < b < |remaining| ==> remaining[a] < remaining[b])
    && (forall i :: i in remaining ==> i < |options|)
    && (forall i: nat :: i < |options| ==> (i in remaining <==> Maximal(options, i, n)))
  }

  ghost predicate Holds(matrix: array2<real>, options: seq<seq<real>>)
    reads matrix
  {
    && NonEmpty(options) && matrix.Length0 == |options|
    && forall i, j :: 0 <= i < |options| && 0 <= j < matrix.Length1 ==> matrix[i, j] == Value(options, i, j)
  }

  /** The greatest entry of a column among the remaining rows. */
  method ColumnMax(matrix: array2<real>, remaining: seq<nat>, j: nat) returns (max: real)
    requires remaining != [] && j < matrix.Length1 && forall i :: i in remaining ==> i < matrix.Length0
    ensures (exists i :: i in remaining && matrix[i, j] == max)
    ensures forall i :: i in remaining ==> matrix[i, j] <= max
  {
    assert forall l :: 0 <= l < |remaining| ==> remaining[l] in remaining;
    max := matrix[remaining[0], j];
    var k := 1;
    while k < |remaining|
      invariant 1 <= k <= |remaining|
      invariant exists l :: 0 <= l < k && matrix[remaining[l], j] == max
      invariant forall l :: 0 <= l < k ==> matrix[remaining[l], j] <= max
    {
      if matrix[remaining[k], j] > max {
        max := matrix[remaining[k], j];
      }
      k := k + 1;
    }
  }

  /** The remaining rows whose entry in a column has the given value, in order. */
  method Keep(matrix: array2<real>, remaining: seq<nat>, j: nat, value: real) returns (kept: seq<nat>)
    requires j < matrix.Length1 && forall i :: i in remaining ==> i < matrix.Length0
    requires forall a, b :: 0 <= a < b < |remaining| ==> remaining[a] < remaining[b]
    ensures forall a, b :: 0 <= a < b < |kept| ==> kept[a] < kept[b]
    ensures forall i :: i in kept <==> i in remaining && i < matrix.Length0 && matrix[i, j] == value
  {
    kept := [];
    var k := 0;
    while k < |remaining|
      invariant k <= |remaining|
      invariant forall a, b :: 0 <= a < b < |kept| ==> kept[a] < kept[b]
      invariant forall i :: i in kept <==> i in remaining[..k] && i < matrix.Length0 && matrix[i, j] == value
    {
      var i := remaining[k];
      assert i in remaining;
      assert remaining[..k + 1] == remaining[..k] + [i];
      if matrix[i, j] == value {
        forall a | 0 <= a < |kept| ensures kept[a] < i { assert kept[a] in remaining[..k]; }
        kept := kept + [i];
      }
      k := k + 1;
    }
    assert remaining[..k] == remaining;
  }

  lemma Narrowed(matrix: array2<real>, options: seq<seq<real>>, remaining: seq<nat>, kept: seq<nat>, max: real, j: nat)
    requires Holds(matrix, options) && j < matrix.Length1 && Selected(options, remaining, j)
    requires forall i :: i in remaining ==> i < |options| && matrix[i, j] <= max
    requires exists i :: i in remaining && matrix[i, j] == max
    requires forall i :: i in kept <==> i in remaining && i < |options| && matrix[i, j] == max
    requires forall a, b :: 0 <= a < b < |kept| ==> kept[a] < kept[b]
    ensures Selected(options, kept, j + 1) && kept != []
  {
    hide Maximal, Value, NonEmpty;
    var best :| best in remaining && matrix[best, j] == max;
    assert best in kept;
    forall i: nat | i < |options| ensures i in kept <==> Maximal(options, i, j + 1) {
      MaximalStep(options, i, j);
    }
  }

  /** Token by token, keep the options with the greatest value, and stop early when one is left: what
      remains are exactly the lexicographically maximal options, in index order. */
  method GreedySelection(matrix: array2<real>, ghost options: seq<seq<real>>) returns (remaining: seq<nat>)
    requires Holds(matrix, options) && options != []
    ensures remaining != [] && Selected(options, remaining, matrix.Length1)
  {
    hide Maximal, Value, NonEmpty;
    remaining := Indices(matrix.Length0);
    AllSelected(options);
    var j := 0;
    while j < matrix.Length1
      invariant j <= matrix.Length1 && remaining != [] && Selected(options, remaining, j)
    {
      var max := ColumnMax(matrix, remaining, j);
      var kept := Keep(matrix, remaining, j, max);
      Narrowed(matrix, options, remaining, kept, max, j);
      remaining := kept;
      j := j + 1;
      if |remaining| == 1 {
        assert forall k :: k in remaining <==> k == remaining[0];
        OnlyMaximal(options, remaining[0], j, matrix.Length1);
        return;
      }
    }
  }

  function Indices(n: nat): (s: seq<nat>)
    ensures |s| == n && forall i :: 0 <= i < n ==> s[i] == i
  {
    seq(n, i requires 0 <= i < n => i)
  }

  lemma AllSelected(options: seq<seq<real>>)
    requires NonEmpty(options)
    ensures Selected(options, Indices(|options|), 0)
  {
    hide NonEmpty, Maximal;
    AllMaximal(options);
    forall i: nat | i < |options| ensures i in Indices(|options|) { assert Indices(|options|)[i] == i; }
  }

  lemma AllMaximal(options: seq<seq<real>>)
    requires NonEmpty(options)
    ensures forall i: nat :: i < |options| ==> Maximal(options, i, 0)
  {
    hide NonEmpty, Value;
    forall i: nat | i < |options| ensures Maximal(options, i, 0) {
      forall k: nat | k < |options| ensures AtMost(options, k, i, 0) { assert Same(options, k, i, 0); }
    }
  }

  method LongestOption(options: seq<seq<real>>) returns (n: nat)
    requires options != []
    ensures forall o :: o in options ==> |o| <= n
    ensures exists o :: o in options && |o| == n
  {
    n := |options[0]|;
    var i := 1;
    while i < |options|
      invariant 1 <= i <= |options|
      invariant forall k :: 0 <= k < i ==> |options[k]| <= n
      invariant exists k :: 0 <= k < i && |options[k]| == n
    {
      if |options[i]| > n {
        n := |options[i]|;
      }
      i := i + 1;
    }
  }

  /** The decision: the first of the lexicographically maximal options. */
  method Choose(choices: seq<string>, options: seq<seq<real>>) returns (decision: string, best: nat, maxTokens: nat)
    requires |choices| == |options| > 0 && NonEmpty(options)
    ensures (forall o :: o in options ==> |o| <= maxTokens) && (exists o :: o in options && |o| == maxTokens)
    ensures best < |options| && decision == choices[best] && Maximal(options, best, maxTokens)
    ensures forall k: nat :: k < best ==> !Maximal(options, k, maxTokens)
  {
    hide Maximal;
    var n := LongestOption(options);
    var matrix := BuildLogprobMatrix(options, n);
    var remaining := GreedySelection(matrix, options);
    assert remaining[0] in remaining;
    decision, best, maxTokens := choices[remaining[0]], remaining[0], n;
    assert forall a :: 0 <= a < |remaining| ==> best <= remaining[a];
  }
}
