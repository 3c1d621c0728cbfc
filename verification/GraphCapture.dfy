/** Capturing one device graph per configured shape: a warm-up run, one capture, then replays. */
module GraphCapture {
  import opened Options

  /** The arguments of a call: the runtime shape, the addresses of the tensors, and everything else. */
  datatype Args = Args(shape: int, addresses: seq<int>, others: seq<int>)

  /** What a call returns. During a capture the work is recorded, not run, so there is no value. */
  datatype Result<V> =
    | Ran(value: V)
    | Recorded
    | Replayed(value: V)
    | AddressMismatch

  /** A captured graph runs the recorded work, with the recorded addresses and values, on the memory it finds. */
  datatype Entry = Entry(warmups: nat, graph: Option<Args>)

  // ---- What the calls made so far determine ----

  /** The calls of one shape, in order. */
  function CallsOf(calls: seq<Args>, shape: int): seq<Args> {
    if calls == [] then []
    else
      var last := calls[|calls| - 1];
      CallsOf(calls[..|calls| - 1], shape) + if last.shape == shape then [last] else []
  }

  lemma CallsOfStep(calls: seq<Args>, args: Args, shape: int)
    ensures CallsOf(calls + [args], shape) == CallsOf(calls, shape) + if args.shape == shape then [args] else []
  {
    assert (calls + [args])[..|calls|] == calls;
  }

  /** The calls that reach the entries: the very first one never does. */
  function Counted(history: seq<Args>): seq<Args> {
    if history == [] then [] else history[1..]
  }

  /** The result of a call is determined by its place among the calls of its shape: the first is the
      warm-up, the second is the capture, and from then on calls with the captured addresses replay. */
  function Expected<M, V>(general: (Args, M) -> V, sizes: set<int>, history: seq<Args>, args: Args, memory: M): Result<V> {
    var earlier := CallsOf(Counted(history), args.shape);
    if history == [] || args.shape !in sizes || |earlier| == 0 then Ran(general(args, memory))
    else if |earlier| == 1 then Recorded
    else if args.addresses == earlier[1].addresses then Replayed(general(earlier[1], memory))
    else AddressMismatch
  }

  /** The shapes that were captured. */
  ghost function Captured(sizes: set<int>, history: seq<Args>): set<int> {
    set s | s in sizes && |CallsOf(Counted(history), s)| >= 2
  }

  class CUDAPiecewiseBackend<M(!new), V(!new)> {
    const general: (Args, M) -> V
    const captureSizes: set<int>
    const compileSizes: set<int>
    const isLastGraph: bool
    var firstRunFinished: bool
    var entries: map<int, Entry>
    var toBeCompiled: set<int>
    var captures: nat
    var compiles: nat
    var saves: nat
    ghost var history: seq<Args>

    constructor (general: (Args, M) -> V, captureSizes: set<int>, isLastGraph: bool)
      ensures Valid() && history == [] && captures == compiles == saves == 0
      ensures this.general == general && this.captureSizes == captureSizes && this.isLastGraph == isLastGraph
    {
      this.general, this.captureSizes, this.compileSizes, this.isLastGraph := general, captureSizes, {}, isLastGraph;
      firstRunFinished, toBeCompiled, captures, compiles, saves := false, {}, 0, 0, 0;
      entries := map s | s in captureSizes :: Entry(0, None);
      history := [];
    }

    /** The entry of a shape after the calls made so far. */
    ghost predicate EntryIs(s: int, e: Entry)
      reads this`history
    {
      var calls := CallsOf(Counted(history), s);
      && e.warmups == (if |calls| >= 1 then 1 else 0)
      && e.graph == (if |calls| >= 2 then Some(calls[1]) else None)
    }

    ghost predicate Valid()
      reads this
    {
      && compileSizes == {} && toBeCompiled == {} && compiles == 0
      && (firstRunFinished <==> history != [])
      && entries.Keys == captureSizes
      && (forall s :: s in entries ==> EntryIs(s, entries[s]))
      && captures == |Captured(captureSizes, history)|
      && saves == (if isLastGraph && history != [] then 1 else 0)
    }

    method CheckForEndingCompilation()
      modifies this`saves
      ensures saves == old(saves) + if isLastGraph && toBeCompiled == {} then 1 else 0
    {
      if isLastGraph && toBeCompiled == {} {
        saves := saves + 1;
      }
    }

    /** Compile for a single shape, once, if that was asked for. */
    method CompileIfNeeded(shape: int)
      modifies this`toBeCompiled, this`compiles, this`saves
      ensures shape !in compileSizes || shape !in old(toBeCompiled) ==>
                toBeCompiled == old(toBeCompiled) && compiles == old(compiles) && saves == old(saves)
      ensures shape in compileSizes && shape in old(toBeCompiled) ==>
                && toBeCompiled == old(toBeCompiled) - {shape} && compiles == old(compiles) + 1
                && saves == old(saves) + if isLastGraph && old(toBeCompiled) <= {shape} then 1 else 0
    {
      if shape in compileSizes && shape in toBeCompiled {
        toBeCompiled := toBeCompiled - {shape};
        compiles := compiles + 1;
        CheckForEndingCompilation();
      }
    }

    /** One call. */
    method Call(args: Args, memory: M) returns (r: Result<V>)
      requires Valid()
      modifies this
      ensures Valid() && history == old(history) + [args]
      ensures r == Expected(general, captureSizes, old(history), args, memory)
      ensures captures == old(captures) + if r.Recorded? then 1 else 0
      ensures compiles == 0
    {
      hide CallsOf, Captured;
      ghost var before := history;
      Advance(before, args);
      history := history + [args];
      if !firstRunFinished {
        firstRunFinished := true;
        CheckForEndingCompilation();
        assert history == [args];
        NothingCounted(args);
        return Ran(general(args, memory));
      }
      if args.shape !in entries {
        return Ran(general(args, memory));
      }
      var entry := entries[args.shape];
      CompileIfNeeded(args.shape);
      if entry.graph.None? {
        if entry.warmups < 1 {
          entries := entries[args.shape := entry.(warmups := entry.warmups + 1)];
          return Ran(general(args, memory));
        }
        entries := entries[args.shape := entry.(graph := Some(args))];
        captures := captures + 1;
        return Recorded;
      }
      if args.addresses != entry.graph.value.addresses {
        return AddressMismatch;
      }
      return Replayed(general(entry.graph.value, memory));
    }

    /** How one more call changes what the entries and the counter must be. */
    lemma Advance(before: seq<Args>, args: Args)
      ensures before != [] ==> Counted(before + [args]) == Counted(before) + [args]
      ensures before != [] ==> forall s ::
                CallsOf(Counted(before + [args]), s)
                == CallsOf(Counted(before), s) + if args.shape == s then [args] else []
      ensures before != [] && args.shape in captureSizes && |CallsOf(Counted(before), args.shape)| == 1 ==>
                |Captured(captureSizes, before + [args])| == |Captured(captureSizes, before)| + 1
      ensures before != [] && !(args.shape in captureSizes && |CallsOf(Counted(before), args.shape)| == 1) ==>
                Captured(captureSizes, before + [args]) == Captured(captureSizes, before)
    {
      if before != [] {
        assert Counted(before + [args]) == Counted(before) + [args];
        forall s
          ensures CallsOf(Counted(before + [args]), s)
                  == CallsOf(Counted(before), s) + if args.shape == s then [args] else []
        {
          CallsOfStep(Counted(before), args, s);
        }
        var was, now := Captured(captureSizes, before), Captured(captureSizes, before + [args]);
        if args.shape in captureSizes && |CallsOf(Counted(before), args.shape)| == 1 {
          assert now == was + {args.shape} && args.shape !in was;
        } else {
          assert now == was;
        }
      }
    }

    lemma NothingCounted(args: Args)
      ensures Counted([args]) == [] && forall s :: CallsOf(Counted([args]), s) == []
      ensures Captured(captureSizes, [args]) == {} && Captured(captureSizes, []) == {}
    {
    }
  }

  /** Any sequence of calls: each result is the expected one, every configured shape is captured at
      most once, and nothing is compiled for a single shape. */
  method RunAll<M(!new), V(!new)>(backend: CUDAPiecewiseBackend<M, V>, calls: seq<(Args, M)>) returns (results: seq<Result<V>>)
    requires backend.Valid() && backend.history == []
    modifies backend
    ensures backend.Valid() && |results| == |calls| && backend.history == Arguments(calls)
    ensures forall i :: 0 <= i < |calls| ==>
              results[i] == Expected(backend.general, backend.captureSizes, Arguments(calls)[..i], calls[i].0, calls[i].1)
    ensures backend.captures == |Captured(backend.captureSizes, Arguments(calls))| && backend.compiles == 0
    ensures AllGeneral(backend.general, backend.captureSizes, calls) <==>
              forall i :: 0 <= i < |calls| ==> IsGeneral(backend.general, results[i], calls[i].0, calls[i].1)
    ensures OthersKept(backend.captureSizes, Arguments(calls)) ==>
              forall i :: 0 <= i < |calls| ==> IsGeneral(backend.general, results[i], calls[i].0, calls[i].1)
  {
    results := [];
    var i := 0;
    while i < |calls|
      invariant i <= |calls| && |results| == i && backend.Valid() && backend.history == Arguments(calls)[..i]
      invariant forall j :: 0 <= j < i ==>
                  results[j] == Expected(backend.general, backend.captureSizes, Arguments(calls)[..j], calls[j].0, calls[j].1)
    {
      var r := backend.Call(calls[i].0, calls[i].1);
      results := results + [r];
      assert Arguments(calls)[..i + 1] == Arguments(calls)[..i] + [calls[i].0];
      i := i + 1;
    }
    assert Arguments(calls)[..i] == Arguments(calls);
    if OthersKept(backend.captureSizes, Arguments(calls)) {
      OthersKeptSuffices(backend.general, backend.captureSizes, calls);
    }
  }

  function Arguments<M>(calls: seq<(Args, M)>): seq<Args> {
    seq(|calls|, i requires 0 <= i < |calls| => calls[i].0)
  }

  // ---- The order of the phases of one shape ----

  predicate Capturing(sizes: set<int>, args: seq<Args>, i: nat)
    requires i < |args|
  {
    i > 0 && args[i].shape in sizes && |CallsOf(Counted(args[..i]), args[i].shape)| == 1
  }

  lemma {:induction false} CallsOfGrow(args: seq<Args>, shape: int, i: nat, j: nat)
    requires 0 < i <= j <= |args|
    ensures CallsOf(Counted(args[..i]), shape) <= CallsOf(Counted(args[..j]), shape)
    decreases j
  {
    if i < j {
      CallsOfGrow(args, shape, i, j - 1);
      assert Counted(args[..j]) == Counted(args[..j - 1]) + [args[j - 1]];
      CallsOfStep(Counted(args[..j - 1]), args[j - 1], shape);
    }
  }

  /** After the call that captures a shape, every later call of that shape replays that very graph or
      is refused for its addresses; before it, exactly one call of the shape was counted. */
  lemma PhasesInOrder<M, V>(general: (Args, M) -> V, sizes: set<int>, args: seq<Args>, i: nat, j: nat, memory: M)
    requires i < j < |args| && args[i].shape == args[j].shape && Capturing(sizes, args, i)
    ensures Expected(general, sizes, args[..i], args[i], memory) == Recorded
    ensures !Capturing(sizes, args, j)
    ensures Expected(general, sizes, args[..j], args[j], memory)
            == if args[j].addresses == args[i].addresses then Replayed(general(args[i], memory)) else AddressMismatch
  {
    var shape := args[i].shape;
    assert Counted(args[..i + 1]) == Counted(args[..i]) + [args[i]];
    CallsOfStep(Counted(args[..i]), args[i], shape);
    CallsOfGrow(args, shape, i + 1, j);
  }

  // ---- Replays against the general graph ----

  /** Call i replays. */
  predicate Replays(sizes: set<int>, args: seq<Args>, i: nat)
    requires i < |args|
  {
    var earlier := CallsOf(Counted(args[..i]), args[i].shape);
    i > 0 && args[i].shape in sizes && |earlier| >= 2 && args[i].addresses == earlier[1].addresses
  }

  /** The arguments that the replayed graph was captured with. */
  function CapturedArgs(sizes: set<int>, args: seq<Args>, i: nat): Args
    requires i < |args| && Replays(sizes, args, i)
  {
    CallsOf(Counted(args[..i]), args[i].shape)[1]
  }

  /** A result with a value has the value that the general graph gives on the call's own arguments and memory. */
  ghost predicate IsGeneral<M, V>(general: (Args, M) -> V, r: Result<V>, args: Args, memory: M) {
    match r
    case Ran(value) => value == general(args, memory)
    case Replayed(value) => value == general(args, memory)
    case _ => true
  }

  /** Every replayed call carries the other arguments of its shape's captured call. */
  ghost predicate OthersKept(sizes: set<int>, args: seq<Args>) {
    forall i: nat :: i < |args| && Replays(sizes, args, i) ==> args[i].others == CapturedArgs(sizes, args, i).others
  }

  /** The results of a whole run are those of the general graph. */
  ghost predicate AllGeneral<M, V>(general: (Args, M) -> V, sizes: set<int>, calls: seq<(Args, M)>) {
    forall i: nat :: i < |calls| ==>
      IsGeneral(general, Expected(general, sizes, Arguments(calls)[..i], calls[i].0, calls[i].1), calls[i].0, calls[i].1)
  }

  lemma {:induction false} CallsOfShape(calls: seq<Args>, shape: int, k: nat)
    requires k < |CallsOf(calls, shape)|
    ensures CallsOf(calls, shape)[k].shape == shape
  {
    if k < |CallsOf(calls[..|calls| - 1], shape)| { CallsOfShape(calls[..|calls| - 1], shape, k); }
  }

  /** For one graph: if the others are kept, every result is the general one. */
  lemma OthersKeptSuffices<M, V>(general: (Args, M) -> V, sizes: set<int>, calls: seq<(Args, M)>)
    requires OthersKept(sizes, Arguments(calls))
    ensures AllGeneral(general, sizes, calls)
  {
    hide CallsOf, Counted;
    var args := Arguments(calls);
    forall i: nat | i < |calls|
      ensures IsGeneral(general, Expected(general, sizes, args[..i], calls[i].0, calls[i].1), calls[i].0, calls[i].1)
    {
      if Replays(sizes, args, i) {
        CallsOfShape(Counted(args[..i]), args[i].shape, 1);
        assert CapturedArgs(sizes, args, i) == args[i];
      }
    }
  }

  /** Over any sequence of calls: every result that has a value is what the general graph gives on the
      call's own arguments and the current memory, for all graphs, exactly if every replayed call carries
      the other arguments of its shape's captured call. The address check does not see them. */
  lemma RunIsGeneral<M(!new)>(sizes: set<int>, calls: seq<(Args, M)>)
    ensures (forall general: (Args, M) -> seq<int> :: AllGeneral(general, sizes, calls)) <==> OthersKept(sizes, Arguments(calls))
  {
    hide CallsOf, Counted;
    var args := Arguments(calls);
    if OthersKept(sizes, args) {
      forall general: (Args, M) -> seq<int> ensures AllGeneral(general, sizes, calls) {
        OthersKeptSuffices(general, sizes, calls);
      }
    } else {
      var i: nat :| i < |args| && Replays(sizes, args, i) && args[i].others != CapturedArgs(sizes, args, i).others;
      var general: (Args, M) -> seq<int> := (a: Args, m: M) => a.others;
      var r := Expected(general, sizes, args[..i], calls[i].0, calls[i].1);
      assert r == Replayed(CapturedArgs(sizes, args, i).others);
      assert !IsGeneral(general, r, calls[i].0, calls[i].1);
      assert !AllGeneral(general, sizes, calls);
    }
  }
}
