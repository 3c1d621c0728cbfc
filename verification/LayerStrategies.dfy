/** The operation lists of the overlapped models, and the stages they are cut into. */
module LayerStrategies {
  import opened Options
  import opened Operations

  datatype OpName =
    | CommPrepareAttn | AttnPrepare | AttnCore | CommPrepareMlp
    | Gate | SelectExperts | DispatchA | DispatchB | Experts | SharedExperts | CombineA | CombineB
    | Output | CommPostprocessLayer

  /** A bound method of one layer. */
  datatype LayerOp = LayerOp(layer: nat, name: OpName)

  datatype LayerClass = DeepseekV2DecoderLayer | Qwen3MoeDecoderLayer | OtherLayer

  datatype Mode = Extend | Decode | TargetVerify | OtherMode

  datatype Layer = Layer(cls: LayerClass, isLayerSparse: bool)

  datatype OperationsStrategy = OperationsStrategy(
    operations: seq<Item<LayerOp>>, deepGemmNumSms: Option<int>, tboDeltaStages: Option<int>)

  // ---- The four lists ----

  function Op(layer: nat, name: OpName): Item<LayerOp> { Exec(LayerOp(layer, name)) }

  function DeepseekPrefill(l: nat): seq<Item<LayerOp>> {
    [Op(l, CommPrepareAttn), Op(l, AttnPrepare), Op(l, AttnCore), Op(l, CommPrepareMlp),
     Op(l, Gate), Op(l, SelectExperts), Op(l, DispatchA), Yield,
     Op(l, DispatchB), Op(l, Experts), Op(l, CombineA), Yield,
     Op(l, SharedExperts), Op(l, CombineB), Op(l, Output), Op(l, CommPostprocessLayer)]
  }

  function DeepseekDecode(l: nat): seq<Item<LayerOp>> {
    [Op(l, CommPrepareAttn), Op(l, AttnPrepare), Yield,
     Op(l, AttnCore), Op(l, CommPrepareMlp), Op(l, Gate), Op(l, SelectExperts), Yield,
     Op(l, DispatchA), Op(l, SharedExperts), Yield,
     Op(l, DispatchB), Op(l, Experts), Op(l, CombineA), Yield,
     Op(l, CombineB), Yield,
     Op(l, Output), Op(l, CommPostprocessLayer)]
  }

  function Qwen3Prefill(l: nat): seq<Item<LayerOp>> {
    [Op(l, CommPrepareAttn), Op(l, AttnPrepare), Op(l, AttnCore), Op(l, CommPrepareMlp),
     Op(l, Gate), Op(l, SelectExperts), Op(l, DispatchA), Yield,
     Op(l, DispatchB), Op(l, Experts), Op(l, CombineA), Yield,
     Op(l, CombineB), Op(l, Output), Op(l, CommPostprocessLayer)]
  }

  function Qwen3Decode(l: nat): seq<Item<LayerOp>> {
    [Op(l, CommPrepareAttn), Op(l, AttnPrepare), Yield,
     Op(l, AttnCore), Op(l, CommPrepareMlp), Op(l, Gate), Op(l, SelectExperts), Yield,
     Op(l, DispatchA), Yield,
     Op(l, DispatchB), Op(l, Experts), Op(l, CombineA), Yield,
     Op(l, CombineB), Op(l, Output), Op(l, CommPostprocessLayer), Yield]
  }

  /** The strategy of one layer; None where the source raises. */
  function LayerStrategy(cls: LayerClass, layer: Layer, l: nat, mode: Mode, totalSms: int, deepEpSms: int)
    : Option<OperationsStrategy>
  {
    if !layer.isLayerSparse || mode.OtherMode? || cls.OtherLayer? then None
    else if mode.Extend? then
      Some(OperationsStrategy(if cls.DeepseekV2DecoderLayer? then DeepseekPrefill(l) else Qwen3Prefill(l),
                              Some(totalSms - deepEpSms), Some(0)))
    else
      Some(OperationsStrategy(if cls.DeepseekV2DecoderLayer? then DeepseekDecode(l) else Qwen3Decode(l),
                              None, Some(2)))
  }

  /** The strategies of the layers, in order; None where one of them raises. */
  function LayerStrategiesOf(cls: LayerClass, layers: seq<Layer>, mode: Mode, totalSms: int, deepEpSms: int)
    : Option<seq<OperationsStrategy>>
  {
    if layers == [] then Some([]) else
      var n := |layers| - 1;
      var before := LayerStrategiesOf(cls, layers[..n], mode, totalSms, deepEpSms);
      var last := LayerStrategy(cls, layers[n], n, mode, totalSms, deepEpSms);
      if before.None? || last.None? then None else Some(before.value + [last.value])
  }

  function AllOperations(items: seq<OperationsStrategy>): seq<Item<LayerOp>> {
    if items == [] then [] else AllOperations(items[..|items| - 1]) + items[|items| - 1].operations
  }

  predicate AllSame<T(==)>(values: seq<T>) {
    values != [] && forall i :: 0 <= i < |values| ==> values[i] == values[0]
  }

  /** Concatenation; None where the settings of the items differ or there is no item. */
  function Concat(items: seq<OperationsStrategy>): Option<OperationsStrategy> {
    if AllSame(seq(|items|, i requires 0 <= i < |items| => items[i].deepGemmNumSms))
       && AllSame(seq(|items|, i requires 0 <= i < |items| => items[i].tboDeltaStages))
    then Some(OperationsStrategy(AllOperations(items), items[0].deepGemmNumSms, items[0].tboDeltaStages))
    else None
  }

  function InitNewTbo(layers: seq<Layer>, mode: Mode, totalSms: int, deepEpSms: int): Option<OperationsStrategy> {
    if layers == [] then None else
      var items := LayerStrategiesOf(layers[0].cls, layers, mode, totalSms, deepEpSms);
      if items.None? then None else Concat(items.value)
  }

  /** Items have a concatenation exactly if there are some and they agree on both settings. */
  lemma ConcatIff(items: seq<OperationsStrategy>)
    ensures Concat(items).Some? <==>
              items != [] && forall x, y :: x in items && y in items ==>
                x.deepGemmNumSms == y.deepGemmNumSms && x.tboDeltaStages == y.tboDeltaStages
  {
    hide AllOperations;
    var sms, delta := seq(|items|, i requires 0 <= i < |items| => items[i].deepGemmNumSms),
                      seq(|items|, i requires 0 <= i < |items| => items[i].tboDeltaStages);
    assert forall i :: 0 <= i < |items| ==> sms[i] == items[i].deepGemmNumSms && delta[i] == items[i].tboDeltaStages;
    if Concat(items).Some? {
      assert AllSame(sms) && AllSame(delta);
    } else if items != [] {
      assert !AllSame(sms) || !AllSame(delta);
      assert items[0] in items;
    }
  }

  // ---- What the lists hold ----

  /** What every layer runs, in this order. */
  const LAYER_ORDER: seq<OpName> := [
    CommPrepareAttn, AttnPrepare, AttnCore, CommPrepareMlp, Gate, SelectExperts, DispatchA, DispatchB, Experts, CombineA,
    CombineB, Output, CommPostprocessLayer]

  predicate IsRouted(item: Item<LayerOp>) {
    item.Exec? && !item.op.name.SharedExperts?
  }

  /** done[i] of the operations of layer l, in their order, stand before item i; all of them in the list. */
  ghost predicate Counts(items: seq<Item<LayerOp>>, l: nat, done: seq<nat>) {
    && |done| == |items| + 1 && done[0] == 0 && done[|items|] == |LAYER_ORDER|
    && forall i :: 0 <= i < |items| ==> CountsAt(items[i], l, done[i], done[i + 1])
  }

  predicate CountsAt(item: Item<LayerOp>, l: nat, n: nat, n': nat) {
    if IsRouted(item) then n' == n + 1 <= |LAYER_ORDER| && item == Op(l, LAYER_ORDER[n]) else n' == n
  }

  /** The list runs the operations of its own layer once, in the order that every list has. A yield stands
      between starting and finishing each communication, so that the other batch can run; the shared
      experts of the layer, if there are any, run once, while one of them is in flight. */
  ghost predicate Runs(ops: seq<Item<LayerOp>>, l: nat, done: seq<nat>, shared: bool) {
    && Counts(ops, l, done)
    && (exists y :: 0 <= y < |ops| && ops[y].Yield? && done[y] == 7)
    && (exists y :: 0 <= y < |ops| && ops[y].Yield? && done[y] == 10)
    && (shared <==> exists i :: 0 <= i < |ops| && ops[i] == Op(l, SharedExperts))
    && (forall i :: 0 <= i < |ops| && ops[i].Exec? && ops[i].op.name.SharedExperts? ==>
          ops[i].op.layer == l && (done[i] == 7 || done[i] == 10))
    && (forall i, j :: 0 <= i < |ops| && 0 <= j < |ops| && ops[i] == ops[j] == Op(l, SharedExperts) ==> i == j)
  }

  ghost predicate RunsLayer(ops: seq<Item<LayerOp>>, l: nat, shared: bool) {
    exists done :: Runs(ops, l, done, shared)
  }

  lemma DeepseekPrefillCounts(l: nat)
    ensures Counts(DeepseekPrefill(l), l, [0, 1, 2, 3, 4, 5, 6, 7, 7, 8, 9, 10, 10, 10, 11, 12, 13])
  {
  }

  lemma DeepseekPrefillRuns(l: nat)
    ensures RunsLayer(DeepseekPrefill(l), l, true)
  {
    hide Counts;
    var ops, done := DeepseekPrefill(l), [0, 1, 2, 3, 4, 5, 6, 7, 7, 8, 9, 10, 10, 10, 11, 12, 13];
    DeepseekPrefillCounts(l);
    assert ops[7].Yield? && done[7] == 7 && ops[11].Yield? && done[11] == 10;
    assert ops[12] == Op(l, SharedExperts);
    assert Runs(ops, l, done, true);
  }

  lemma DeepseekDecodeCounts(l: nat)
    ensures Counts(DeepseekDecode(l), l, [0, 1, 2, 2, 3, 4, 5, 6, 6, 7, 7, 7, 8, 9, 10, 10, 11, 11, 12, 13])
  {
  }

  lemma DeepseekDecodeRuns(l: nat)
    ensures RunsLayer(DeepseekDecode(l), l, true)
  {
    hide Counts;
    var ops, done := DeepseekDecode(l), [0, 1, 2, 2, 3, 4, 5, 6, 6, 7, 7, 7, 8, 9, 10, 10, 11, 11, 12, 13];
    DeepseekDecodeCounts(l);
    assert ops[10].Yield? && done[10] == 7 && ops[14].Yield? && done[14] == 10;
    assert ops[9] == Op(l, SharedExperts);
    assert Runs(ops, l, done, true);
  }

  lemma Qwen3PrefillCounts(l: nat)
    ensures Counts(Qwen3Prefill(l), l, [0, 1, 2, 3, 4, 5, 6, 7, 7, 8, 9, 10, 10, 11, 12, 13])
  {
  }

  lemma Qwen3PrefillRuns(l: nat)
    ensures RunsLayer(Qwen3Prefill(l), l, false)
  {
    hide Counts;
    var ops, done := Qwen3Prefill(l), [0, 1, 2, 3, 4, 5, 6, 7, 7, 8, 9, 10, 10, 11, 12, 13];
    Qwen3PrefillCounts(l);
    assert ops[7].Yield? && done[7] == 7 && ops[11].Yield? && done[11] == 10;
    assert Runs(ops, l, done, false);
  }

  lemma Qwen3DecodeCounts(l: nat)
    ensures Counts(Qwen3Decode(l), l, [0, 1, 2, 2, 3, 4, 5, 6, 6, 7, 7, 8, 9, 10, 10, 11, 12, 13, 13])
  {
  }

  lemma Qwen3DecodeRuns(l: nat)
    ensures RunsLayer(Qwen3Decode(l), l, false)
  {
    hide Counts;
    var ops, done := Qwen3Decode(l), [0, 1, 2, 2, 3, 4, 5, 6, 6, 7, 7, 8, 9, 10, 10, 11, 12, 13, 13];
    Qwen3DecodeCounts(l);
    assert ops[9].Yield? && done[9] == 7 && ops[13].Yield? && done[13] == 10;
    assert Runs(ops, l, done, false);
  }

  /** That holds of every strategy of a layer; DeepSeek layers have shared experts, Qwen3 layers have none. */
  lemma LayerRuns(cls: LayerClass, layer: Layer, l: nat, mode: Mode, totalSms: int, deepEpSms: int)
    requires LayerStrategy(cls, layer, l, mode, totalSms, deepEpSms).Some?
    ensures RunsLayer(LayerStrategy(cls, layer, l, mode, totalSms, deepEpSms).value.operations, l, cls.DeepseekV2DecoderLayer?)
  {
    hide RunsLayer, DeepseekPrefill, DeepseekDecode, Qwen3Prefill, Qwen3Decode;
    DeepseekPrefillRuns(l);
    DeepseekDecodeRuns(l);
    Qwen3PrefillRuns(l);
    Qwen3DecodeRuns(l);
  }

  /** Layer i of a model runs its own operations. */
  lemma {:induction false} LayersRun(cls: LayerClass, layers: seq<Layer>, mode: Mode, totalSms: int, deepEpSms: int, i: nat)
    requires LayerStrategiesOf(cls, layers, mode, totalSms, deepEpSms).Some? && i < |layers|
    ensures var items := LayerStrategiesOf(cls, layers, mode, totalSms, deepEpSms).value;
            |items| == |layers| && RunsLayer(items[i].operations, i, cls.DeepseekV2DecoderLayer?)
  {
    hide RunsLayer, LayerStrategy;
    var n := |layers| - 1;
    LayersCount(cls, layers[..n], mode, totalSms, deepEpSms);
    if i < n {
      LayersRun(cls, layers[..n], mode, totalSms, deepEpSms, i);
    } else {
      LayerRuns(cls, layers[n], n, mode, totalSms, deepEpSms);
    }
  }

  lemma {:induction false} LayersCount(cls: LayerClass, layers: seq<Layer>, mode: Mode, totalSms: int, deepEpSms: int)
    requires LayerStrategiesOf(cls, layers, mode, totalSms, deepEpSms).Some?
    ensures |LayerStrategiesOf(cls, layers, mode, totalSms, deepEpSms).value| == |layers|
  {
    hide LayerStrategy;
    if layers != [] { LayersCount(cls, layers[..|layers| - 1], mode, totalSms, deepEpSms); }
  }

  // ---- The stages of a model ----

  ghost predicate NoIdleYield(items: seq<Item<LayerOp>>) {
    forall i: nat :: !IdleYield(items, i)
  }

  lemma NoIdleYieldAppend(x: seq<Item<LayerOp>>, y: seq<Item<LayerOp>>)
    requires NoIdleYield(x) && NoIdleYield(y)
    ensures NoIdleYield(x + y)
  {
    forall i: nat ensures !IdleYield(x + y, i) {
      if i < |x| {
        assert !IdleYield(x, i);
      } else if i < |x + y| {
        assert !IdleYield(y, i - |x|);
        assert y != [] && !IdleYield(y, 0);
      }
    }
  }

  lemma {:induction false} YieldsAppend(x: seq<Item<LayerOp>>, y: seq<Item<LayerOp>>)
    ensures Yields(x + y) == Yields(x) + Yields(y)
  {
    if x == [] {
      assert x + y == y;
    } else {
      assert (x + y)[1..] == x[1..] + y;
      YieldsAppend(x[1..], y);
    }
  }

  /** Yields of n layers, and whether the list of a layer ends with one. */
  function YieldsOf(mode: Mode, n: nat): nat { if mode.Extend? then 2 * n else 5 * n }

  predicate EndsWithYield(cls: LayerClass, mode: Mode) {
    cls.Qwen3MoeDecoderLayer? && !mode.Extend?
  }

  lemma {:induction false} NoYields(items: seq<Item<LayerOp>>)
    requires forall j :: 0 <= j < |items| ==> items[j].Exec?
    ensures Yields(items) == 0
  {
    if items != [] { NoYields(items[1..]); }
  }

  lemma {:induction false} FirstYieldAt(items: seq<Item<LayerOp>>, i: nat)
    requires i < |items| && items[i].Yield? && forall j :: 0 <= j < i ==> items[j].Exec?
    ensures Yields(items) == 1 + Yields(items[i + 1..])
  {
    if i > 0 {
      FirstYieldAt(items[1..], i - 1);
      assert items[1..][i..] == items[i + 1..];
    }
  }

  /** What a list must look like for the concatenation to have predictable stages. */
  ghost predicate Shape(ops: seq<Item<LayerOp>>, count: nat, endsWithYield: bool) {
    ops != [] && NoIdleYield(ops) && Yields(ops) == count && (ops[|ops| - 1].Yield? <==> endsWithYield)
  }

  lemma DropDrop(items: seq<Item<LayerOp>>, m: nat, n: nat)
    requires m + n <= |items|
    ensures items[m..][n..] == items[m + n..]
  {
  }

  /** The next yield after position `from`, and what follows it. */
  lemma NextYieldAt(items: seq<Item<LayerOp>>, from: nat, i: nat)
    requires from <= i < |items| && items[i].Yield? && forall j :: from <= j < i ==> items[j].Exec?
    ensures Yields(items[from..]) == 1 + Yields(items[i + 1..])
  {
    FirstYieldAt(items[from..], i - from);
    DropDrop(items, from, i - from + 1);
  }

  lemma TwoYields(items: seq<Item<LayerOp>>, p: nat, q: nat)
    requires p < q < |items|
    requires forall j :: 0 <= j < |items| ==> (items[j].Yield? <==> j == p || j == q)
    ensures Yields(items) == 2
  {
    hide Yields;
    assert items[0..] == items;
    NextYieldAt(items, 0, p);
    NextYieldAt(items, p + 1, q);
    NoYields(items[q + 1..]);
  }

  lemma FiveYields(items: seq<Item<LayerOp>>, p: nat, q: nat, r: nat, s: nat, t: nat)
    requires p < q < r < s < t < |items|
    requires forall j :: 0 <= j < |items| ==> (items[j].Yield? <==> j == p || j == q || j == r || j == s || j == t)
    ensures Yields(items) == 5
  {
    hide Yields;
    assert items[0..] == items;
    NextYieldAt(items, 0, p);
    NextYieldAt(items, p + 1, q);
    NextYieldAt(items, q + 1, r);
    NextYieldAt(items, r + 1, s);
    NextYieldAt(items, s + 1, t);
    NoYields(items[t + 1..]);
  }

  lemma DeepseekPrefillShape(l: nat)
    ensures Shape(DeepseekPrefill(l), 2, false)
  {
    hide Yields;
    TwoYields(DeepseekPrefill(l), 7, 11);
  }

  lemma Qwen3PrefillShape(l: nat)
    ensures Shape(Qwen3Prefill(l), 2, false)
  {
    hide Yields;
    TwoYields(Qwen3Prefill(l), 7, 11);
  }

  lemma DeepseekDecodeShape(l: nat)
    ensures Shape(DeepseekDecode(l), 5, false)
  {
    hide Yields;
    FiveYields(DeepseekDecode(l), 2, 7, 10, 14, 16);
  }

  lemma Qwen3DecodeShape(l: nat)
    ensures Shape(Qwen3Decode(l), 5, true)
  {
    hide Yields;
    FiveYields(Qwen3Decode(l), 2, 7, 9, 13, 17);
  }

  lemma ShapeAppend(x: seq<Item<LayerOp>>, y: seq<Item<LayerOp>>, m: nat, n: nat, ex: bool, ey: bool)
    requires Shape(x, m, ex) && Shape(y, n, ey)
    ensures Shape(x + y, m + n, ey)
  {
    NoIdleYieldAppend(x, y);
    YieldsAppend(x, y);
  }

  lemma LayerShape(cls: LayerClass, layer: Layer, l: nat, mode: Mode, totalSms: int, deepEpSms: int)
    requires LayerStrategy(cls, layer, l, mode, totalSms, deepEpSms).Some?
    ensures Shape(LayerStrategy(cls, layer, l, mode, totalSms, deepEpSms).value.operations,
                  YieldsOf(mode, 1), EndsWithYield(cls, mode))
  {
    hide Shape, DeepseekPrefill, DeepseekDecode, Qwen3Prefill, Qwen3Decode;
    DeepseekPrefillShape(l);
    DeepseekDecodeShape(l);
    Qwen3PrefillShape(l);
    Qwen3DecodeShape(l);
  }

  /** The settings of the layers of a model are all the same. */
  lemma {:induction false} LayersSettings(cls: LayerClass, layers: seq<Layer>, mode: Mode, totalSms: int, deepEpSms: int)
    requires LayerStrategiesOf(cls, layers, mode, totalSms, deepEpSms).Some?
    ensures var items := LayerStrategiesOf(cls, layers, mode, totalSms, deepEpSms).value;
            && |items| == |layers|
            && (forall i :: 0 <= i < |items| ==>
                  && items[i].deepGemmNumSms == (if mode.Extend? then Some(totalSms - deepEpSms) else None)
                  && items[i].tboDeltaStages == Some(if mode.Extend? then 0 else 2))
  {
    hide DeepseekPrefill, DeepseekDecode, Qwen3Prefill, Qwen3Decode;
    if layers != [] {
      LayersSettings(cls, layers[..|layers| - 1], mode, totalSms, deepEpSms);
    }
  }

  /** The concatenation over any layers has no idle yield, and the yields add up. */
  lemma {:induction false} LayersShape(cls: LayerClass, layers: seq<Layer>, mode: Mode, totalSms: int, deepEpSms: int)
    requires layers != [] && LayerStrategiesOf(cls, layers, mode, totalSms, deepEpSms).Some?
    ensures Shape(AllOperations(LayerStrategiesOf(cls, layers, mode, totalSms, deepEpSms).value),
                  YieldsOf(mode, |layers|), EndsWithYield(cls, mode))
  {
    hide LayerStrategy, Shape, EndsWithYield, AllOperations;
    var n := |layers| - 1;
    var before := LayerStrategiesOf(cls, layers[..n], mode, totalSms, deepEpSms).value;
    var last := LayerStrategy(cls, layers[n], n, mode, totalSms, deepEpSms).value;
    LayerShape(cls, layers[n], n, mode, totalSms, deepEpSms);
    OperationsStep(before, last);
    if n > 0 {
      LayersShape(cls, layers[..n], mode, totalSms, deepEpSms);
      ShapeAppend(AllOperations(before), last.operations, YieldsOf(mode, n), YieldsOf(mode, 1),
                  EndsWithYield(cls, mode), EndsWithYield(cls, mode));
    } else {
      assert before == [];
    }
  }

  lemma OperationsStep(before: seq<OperationsStrategy>, last: OperationsStrategy)
    ensures AllOperations(before + [last]) == AllOperations(before) + last.operations
    ensures before == [] ==> AllOperations(before + [last]) == last.operations
  {
    assert (before + [last])[..|before|] == before;
    assert [] + last.operations == last.operations;
  }

  /** Every model of sparse layers gets a strategy in the supported modes; it raises otherwise. */
  lemma {:induction false} LayersSupported(cls: LayerClass, layers: seq<Layer>, mode: Mode, totalSms: int, deepEpSms: int)
    ensures LayerStrategiesOf(cls, layers, mode, totalSms, deepEpSms).Some? <==>
            layers == [] || (!cls.OtherLayer? && !mode.OtherMode? && AllSparse(layers))
  {
    hide LayerStrategy, AllSparse;
    if layers != [] {
      var n := |layers| - 1;
      var rest, last := layers[..n], layers[n];
      LayersSupported(cls, rest, mode, totalSms, deepEpSms);
      assert layers == rest + [last];
      AllSparseStep(rest, last);
      LayerSupported(cls, last, n, mode, totalSms, deepEpSms);
    }
  }

  predicate AllSparse(layers: seq<Layer>) {
    forall i :: 0 <= i < |layers| ==> layers[i].isLayerSparse
  }

  lemma AllSparseStep(rest: seq<Layer>, last: Layer)
    ensures AllSparse(rest + [last]) <==> AllSparse(rest) && last.isLayerSparse
    ensures rest == [] ==> AllSparse(rest)
  {
    var all := rest + [last];
    if AllSparse(all) {
      forall i | 0 <= i < |rest| ensures rest[i].isLayerSparse { assert all[i] == rest[i]; }
      assert all[|rest|] == last;
    }
  }

  lemma LayerSupported(cls: LayerClass, layer: Layer, l: nat, mode: Mode, totalSms: int, deepEpSms: int)
    ensures LayerStrategy(cls, layer, l, mode, totalSms, deepEpSms).Some? <==>
            layer.isLayerSparse && !mode.OtherMode? && !cls.OtherLayer?
  {
  }

  /** The stages of an L-layer model: 5L + 1 (DeepSeek decode), 5L (Qwen3 decode) or 2L + 1 (both
      prefills). No stage is empty, and the delay of the second batch always fits. */
  lemma ModelStages(layers: seq<Layer>, mode: Mode, totalSms: int, deepEpSms: int)
    ensures InitNewTbo(layers, mode, totalSms, deepEpSms).Some? <==>
            layers != [] && !layers[0].cls.OtherLayer? && !mode.OtherMode? && AllSparse(layers)
    ensures InitNewTbo(layers, mode, totalSms, deepEpSms).Some? ==>
              var strategy := InitNewTbo(layers, mode, totalSms, deepEpSms).value;
              var stages := ChunksFrom(strategy.operations, []);
              && |stages| == YieldsOf(mode, |layers|)
                             + (if EndsWithYield(layers[0].cls, mode) then 0 else 1)
              && strategy.tboDeltaStages == Some(if mode.Extend? then 0 else 2)
              && CanOverlap(stages, stages, (0, strategy.tboDeltaStages.value))
  {
    hide ChunksFrom, Yields, LayerStrategiesOf, LayerStrategy, AllOperations, IdleYield, AllNonEmpty, EndsWithYield;
    if layers != [] {
      LayersSupported(layers[0].cls, layers, mode, totalSms, deepEpSms);
      var items := LayerStrategiesOf(layers[0].cls, layers, mode, totalSms, deepEpSms);
      if items.Some? {
        LayersShape(layers[0].cls, layers, mode, totalSms, deepEpSms);
        LayersSettings(layers[0].cls, layers, mode, totalSms, deepEpSms);
        var strategy := InitNewTbo(layers, mode, totalSms, deepEpSms).value;
        ChunkCount(strategy.operations, []);
        NonEmptyChunks(strategy.operations);
      }
    }
  }
}
