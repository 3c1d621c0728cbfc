/** Running a compiled program: the caller submits the sorted expressions to the queues of their
    streams while one worker per stream executes its queue. */
module StreamWorkers {
  import opened Options
  import opened ProgramGraph

  /** A compiled program with its arguments and a deterministic backend: what is generated or
      selected depends on the text so far and on the expression. */
  datatype Program = Program(
    trace: Trace,
    order: seq<Id>,
    stream: map<Id, nat>,
    args: map<string, string>,
    generate: (string, Id) -> string,
    select: (string, Id) -> string)
  {
    /** The order is one that the compiler produces, and lookups are clear. Streams are whatever the
        tracer made them: the expressions of a stream need not be linked to each other. */
    ghost predicate Valid() {
      Arranged() && LookupsClear()
    }

    ghost predicate Arranged() {
      && trace.Valid() && NoDuplicates(order) && Ordered(trace, order)
      && (forall x :: x in order ==> x in trace.exprs && x in stream)
    }

    /** Where a stream defines a name several times, the name is only looked up in the stream itself
        and after all of them; otherwise what a lookup finds would depend on the interleaving. */
    ghost predicate LookupsClear() {
      forall i, j, k :: 0 <= k < |order| && KindAt(k).Variable? && Defines(i, SourceStream(k), KindAt(k).name)
                        && Defines(j, SourceStream(k), KindAt(k).name) ==>
        i == j || (SourceStream(k) == StreamAt(k) && i < k && j < k)
    }

    /** Position i of the order defines a name in a stream. */
    predicate Defines(i: int, s: nat, name: string) {
      0 <= i < |order| && StreamAt(i) == s && NameOf(KindAt(i)) == Some(name)
    }

    function KindAt(k: nat): Kind
      requires k < |order|
    {
      if order[k] in trace.exprs then trace.exprs[order[k]].kind else ConstantText("")
    }

    function StreamAt(k: nat): nat
      requires k < |order|
    {
      StreamOf(order[k])
    }

    function StreamOf(x: Id): nat { if x in stream then stream[x] else 0 }

    /** The stream in which the variable at position k is looked up: that of the expression it refers to. */
    function SourceStream(k: nat): nat
      requires k < |order|
    {
      if order[k] in trace.exprs && trace.Source(order[k]).Some? then StreamOf(trace.Source(order[k]).value) else 0
    }

    ghost function Streams(): set<nat> {
      set k | 0 <= k < |order| :: StreamAt(k)
    }
  }

  /** The variable an expression defines. */
  function NameOf(k: Kind): Option<string> {
    match k
    case Gen(name) => name
    case Select(name, _) => name
    case _ => None
  }

  // ---- What a program means ----

  /** The last expression before position n that defines a variable in a stream. */
  function Definer(p: Program, n: nat, s: nat, name: string): (d: Option<nat>)
    requires n <= |p.order|
    ensures d.Some? ==> d.value < n && p.StreamAt(d.value) == s && NameOf(p.KindAt(d.value)) == Some(name)
    ensures d.Some? ==> forall j :: d.value < j < n && p.StreamAt(j) == s ==> NameOf(p.KindAt(j)) != Some(name)
    ensures d.None? ==> forall j :: 0 <= j < n && p.StreamAt(j) == s ==> NameOf(p.KindAt(j)) != Some(name)
  {
    if n == 0 then None
    else if p.StreamAt(n - 1) == s && NameOf(p.KindAt(n - 1)) == Some(name) then Some(n - 1)
    else Definer(p, n - 1, s, name)
  }

  /** What the expression at position k appends to the text of its stream. */
  function Out(p: Program, k: nat): string
    requires k < |p.order|
    decreases k, 1
  {
    match p.KindAt(k)
    case ConstantText(value) => value
    case Argument(name) => if name in p.args then p.args[name] else ""
    case Gen(_) => p.generate(StreamText(p, k, p.StreamAt(k)), p.order[k])
    case Select(_, _) => p.select(StreamText(p, k, p.StreamAt(k)), p.order[k])
    case Variable(name, _) =>
      var d := Definer(p, k, p.SourceStream(k), name);
      if d.Some? then Out(p, d.value) else ""
  }

  /** The text of a stream once its expressions before position n were executed. */
  function StreamText(p: Program, n: nat, s: nat): string
    requires n <= |p.order|
    decreases n, 0
  {
    if n == 0 then ""
    else StreamText(p, n - 1, s) + if p.StreamAt(n - 1) == s then Out(p, n - 1) else ""
  }

  /** The expression at position k cannot be executed: a variable of which no earlier expression of
      the stream it is looked up in has the name, or an argument that was not given. */
  predicate Bad(p: Program, k: nat)
    requires k < |p.order|
  {
    match p.KindAt(k)
    case Variable(name, _) => Definer(p, k, p.SourceStream(k), name).None?
    case Argument(name) => name !in p.args
    case _ => false
  }

  ghost predicate NoneBad(p: Program, n: nat)
    requires n <= |p.order|
  {
    forall k :: 0 <= k < n ==> !Bad(p, k)
  }

  /** Some expression of the stream whose state the caller gets was kept. */
  ghost predicate Returnable(p: Program) {
    p.StreamOf(p.trace.lastNode) in p.Streams()
  }

  // ---- The workers ----

  /** Expressions are queued by their position in the order. */
  datatype Worker = Worker(
    queue: seq<nat>,              // submitted, not yet executed
    text: string,
    registered: set<string>,      // variables that have an event
    variables: map<string, string>)

  datatype State = State(submitted: nat, workers: map<nat, Worker>, returned: bool, failed: bool)

  datatype Lookup = Value(value: string) | Waiting | KeyError

  function Idle(): Worker { Worker([], "", {}, map[]) }

  function WorkerOf(st: State, s: nat): Worker { if s in st.workers then st.workers[s] else Idle() }

  /** The caller submits the next expression: an argument is replaced by its value, and the event of
      a variable is registered before its expression is queued. */
  function Submit(p: Program, st: State): State
    requires st.submitted < |p.order|
  {
    var k := st.submitted;
    var kind, s := p.KindAt(k), p.StreamAt(k);
    if kind.Argument? && kind.name !in p.args then st.(failed := true)
    else
      var w := WorkerOf(st, s);
      var names := if NameOf(kind).Some? then {NameOf(kind).value} else {};
      st.(submitted := k + 1,
          workers := st.workers[s := w.(queue := w.queue + [k], registered := w.registered + names)])
  }

  /** Having submitted everything, the caller looks up the executor of the last expression's stream.
      There are executors only for the streams of the expressions that the sort kept. */
  function Return(p: Program, st: State): State {
    if p.StreamOf(p.trace.lastNode) in st.workers then st.(returned := true) else st.(failed := true)
  }

  /** Asking another stream for a variable: wait for its event if there is one, then read the value. */
  function GetVar(w: Worker, name: string): Lookup {
    if name in w.variables then Value(w.variables[name])
    else if name in w.registered then Waiting
    else KeyError
  }

  /** What executing the expression at position k appends. */
  function Execute(p: Program, st: State, k: nat): Lookup
    requires k < |p.order|
  {
    match p.KindAt(k)
    case ConstantText(value) => Value(value)
    case Argument(name) => if name in p.args then Value(p.args[name]) else KeyError
    case Gen(_) => Value(p.generate(WorkerOf(st, p.StreamAt(k)).text, p.order[k]))
    case Select(_, _) => Value(p.select(WorkerOf(st, p.StreamAt(k)).text, p.order[k]))
    case Variable(name, _) => GetVar(WorkerOf(st, p.SourceStream(k)), name)
  }

  /** Whether worker s can execute the head of its queue now. */
  predicate Enabled(p: Program, st: State, s: nat) {
    && s in st.workers && st.workers[s].queue != []
    && st.workers[s].queue[0] < |p.order| && p.StreamAt(st.workers[s].queue[0]) == s
    && !Execute(p, st, st.workers[s].queue[0]).Waiting?
  }

  function Ran(w: Worker, name: Option<string>, out: string): Worker
    requires w.queue != []
  {
    w.(queue := w.queue[1..], text := w.text + out,
       variables := if name.Some? then w.variables[name.value := out] else w.variables)
  }

  function Work(p: Program, st: State, s: nat): State
    requires Enabled(p, st, s)
  {
    var k := st.workers[s].queue[0];
    if Execute(p, st, k).KeyError? then st.(failed := true)
    else st.(workers := st.workers[s := Ran(st.workers[s], NameOf(p.KindAt(k)), Execute(p, st, k).value)])
  }

  ghost function Init(p: Program): State {
    State(0, map s | s in p.Streams() :: Idle(), false, false)
  }

  /** One step of the caller or of any worker that is not waiting. A run ends with the first failure. */
  ghost predicate Next(p: Program, st: State, st': State) {
    && !st.failed
    && (|| (st.submitted < |p.order| && st' == Submit(p, st))
        || (st.submitted == |p.order| && !st.returned && st' == Return(p, st))
        || (exists s :: Enabled(p, st, s) && st' == Work(p, st, s)))
  }

  ghost predicate Finished(p: Program, st: State) {
    !st.failed && st.returned && st.submitted == |p.order| && forall s :: s in st.workers ==> st.workers[s].queue == []
  }

  // ---- The invariant ----

  /** The positions lo .. hi - 1 that belong to stream s. */
  function Between(p: Program, lo: nat, hi: nat, s: nat): (q: seq<nat>)
    requires hi <= |p.order|
    ensures forall k :: k in q <==> lo <= k < hi && p.StreamAt(k) == s
  {
    if lo >= hi then []
    else Between(p, lo, hi - 1, s) + if p.StreamAt(hi - 1) == s then [hi - 1] else []
  }

  /** Worker s has executed what its stream has before position h and has the rest of what was
      submitted in its queue; its text and variables mean what the order says. */
  ghost predicate Aligned(p: Program, submitted: nat, s: nat, w: Worker, h: nat) {
    && h <= submitted <= |p.order|
    && w.queue == Between(p, h, submitted, s)
    && w.text == StreamText(p, h, s)
    && (forall name :: name in w.registered <==> Definer(p, submitted, s, name).Some?)
    && VariablesAre(p, s, w.variables, h)
  }

  ghost predicate VariablesAre(p: Program, s: nat, variables: map<string, string>, h: nat)
    requires h <= |p.order|
  {
    && (forall name :: name in variables <==> Definer(p, h, s, name).Some?)
    && (forall name :: name in variables && Definer(p, h, s, name).Some? ==>
          variables[name] == Out(p, Definer(p, h, s, name).value))
  }

  ghost predicate WorkerOk(p: Program, submitted: nat, s: nat, w: Worker) {
    exists h :: Aligned(p, submitted, s, w, h)
  }

  ghost predicate Inv(p: Program, st: State) {
    && st.submitted <= |p.order| && st.workers.Keys == p.Streams()
    && (st.returned ==> st.submitted == |p.order| && Returnable(p))
    && forall s :: s in st.workers ==> WorkerOk(p, st.submitted, s, st.workers[s])
  }

  lemma InitInv(p: Program)
    ensures Inv(p, Init(p)) && !Init(p).failed
  {
    forall s | s in p.Streams() ensures WorkerOk(p, 0, s, Idle()) {
      assert Aligned(p, 0, s, Idle(), 0);
    }
  }

  /** Submitting keeps the invariant; it fails exactly on an argument that was not given. */
  lemma SubmitInv(p: Program, st: State)
    requires Inv(p, st) && st.submitted < |p.order|
    ensures Inv(p, Submit(p, st))
    ensures Submit(p, st).failed <==> st.failed || (p.KindAt(st.submitted).Argument? && Bad(p, st.submitted))
  {
    hide Aligned, Program.StreamAt, Program.KindAt;
    var st' := Submit(p, st);
    if st'.submitted > st.submitted {
      assert p.StreamAt(st.submitted) in p.Streams();
      assert st'.workers.Keys == st.workers.Keys;
      forall s | s in st'.workers ensures WorkerOk(p, st'.submitted, s, st'.workers[s]) {
        var h :| Aligned(p, st.submitted, s, st.workers[s], h);
        SubmitWorker(p, st, s, h);
      }
    }
  }

  lemma SubmitWorker(p: Program, st: State, s: nat, h: nat)
    requires st.submitted < |p.order| && s in st.workers && Aligned(p, st.submitted, s, st.workers[s], h)
    requires Submit(p, st).submitted == st.submitted + 1 && s in Submit(p, st).workers
    ensures Aligned(p, st.submitted + 1, s, Submit(p, st).workers[s], h)
  {
    hide StreamText, Out, VariablesAre;
    var k := st.submitted;
    assert p.StreamAt(k) != s ==> Submit(p, st).workers[s] == st.workers[s];
    forall name ensures name in Submit(p, st).workers[s].registered <==> Definer(p, k + 1, s, name).Some? {
      assert Definer(p, k + 1, s, name)
             == if p.StreamAt(k) == s && NameOf(p.KindAt(k)) == Some(name) then Some(k) else Definer(p, k, s, name);
    }
  }

  /** Returning keeps the invariant; it fails exactly if the sort kept nothing of the last expression's stream. */
  lemma ReturnInv(p: Program, st: State)
    requires Inv(p, st) && st.submitted == |p.order|
    ensures Inv(p, Return(p, st))
    ensures Return(p, st).failed <==> st.failed || !Returnable(p)
  {
    hide WorkerOk;
  }

  // ---- One step of a worker ----

  /** Positions of other streams can be skipped. */
  lemma {:induction false} Skip(p: Program, submitted: nat, s: nat, w: Worker, h: nat, q: nat)
    requires Aligned(p, submitted, s, w, h) && h <= q <= submitted
    requires forall k :: h <= k < q ==> p.StreamAt(k) != s
    ensures Aligned(p, submitted, s, w, q)
    decreases q - h
  {
    hide Out;
    if h < q {
      BetweenFrom(p, h, submitted, s);
      assert forall name :: Definer(p, h + 1, s, name) == Definer(p, h, s, name);
      assert StreamText(p, h + 1, s) == StreamText(p, h, s) + "";
      assert Aligned(p, submitted, s, w, h + 1);
      Skip(p, submitted, s, w, h + 1, q);
    }
  }

  lemma {:induction false} BetweenFrom(p: Program, lo: nat, hi: nat, s: nat)
    requires lo < hi <= |p.order|
    ensures Between(p, lo, hi, s) == (if p.StreamAt(lo) == s then [lo] else []) + Between(p, lo + 1, hi, s)
    decreases hi
  {
    hide Program.StreamAt;
    if lo + 1 < hi {
      BetweenFrom(p, lo, hi - 1, s);
      var first := if p.StreamAt(lo) == s then [lo] else [];
      var last := if p.StreamAt(hi - 1) == s then [hi - 1] else [];
      assert Between(p, lo, hi, s) == (first + Between(p, lo + 1, hi - 1, s)) + last;
    } else {
      assert Between(p, lo, lo, s) == [] && Between(p, lo + 1, hi, s) == [];
    }
  }

  /** A worker with a queue is aligned at its head. */
  lemma AtHead(p: Program, submitted: nat, s: nat, w: Worker)
    requires WorkerOk(p, submitted, s, w) && w.queue != []
    ensures Aligned(p, submitted, s, w, w.queue[0])
    ensures w.queue[0] < submitted && p.StreamAt(w.queue[0]) == s
  {
    hide StreamText, Out, VariablesAre;
    var h :| Aligned(p, submitted, s, w, h);
    assert w.queue[0] in w.queue;
    HeadIsFirst(p, h, submitted, s);
    Skip(p, submitted, s, w, h, w.queue[0]);
  }

  lemma {:induction false} HeadIsFirst(p: Program, lo: nat, hi: nat, s: nat)
    requires lo <= hi <= |p.order| && Between(p, lo, hi, s) != []
    ensures forall k :: lo <= k < Between(p, lo, hi, s)[0] && k < hi ==> p.StreamAt(k) != s
    ensures forall k :: k in Between(p, lo, hi, s) ==> Between(p, lo, hi, s)[0] <= k
    decreases hi
  {
    if lo < hi && Between(p, lo, hi - 1, s) != [] {
      HeadIsFirst(p, lo, hi - 1, s);
      var q := Between(p, lo, hi - 1, s)[0];
      assert q in Between(p, lo, hi - 1, s);
    }
  }

  /** What the head of a queue does, if nothing submitted so far is bad: its lookup does not fail; what
      it appends is its meaning; and if it waits, it waits for an earlier expression that is queued. */
  lemma HeadOutput(p: Program, st: State, s: nat)
    requires p.Valid() && Inv(p, st) && s in st.workers && st.workers[s].queue != []
    requires st.workers[s].queue[0] < |p.order| && !Bad(p, st.workers[s].queue[0])
    ensures var k := st.workers[s].queue[0];
            && !Execute(p, st, k).KeyError?
            && (Execute(p, st, k).Value? ==> Execute(p, st, k).value == Out(p, k))
            && (Execute(p, st, k).Waiting? ==> exists j: nat :: j < k && Queued(p, st, j))
  {
    hide Program.Valid, WorkerOk, Definer, Bad, GetVar;
    AtHead(p, st.submitted, s, st.workers[s]);
    var k := st.workers[s].queue[0];
    if p.KindAt(k).Variable? {
      LookupDefiner(p, st, k);
    } else if p.KindAt(k).Argument? {
      ArgumentGiven(p, k);
    }
  }

  lemma ArgumentGiven(p: Program, k: nat)
    requires k < |p.order| && !Bad(p, k) && p.KindAt(k).Argument?
    ensures p.KindAt(k).name in p.args
  {
  }

  /** Position j was submitted and not executed yet. */
  ghost predicate Queued(p: Program, st: State, j: nat) {
    j < st.submitted <= |p.order| && p.StreamAt(j) in st.workers && j in st.workers[p.StreamAt(j)].queue
  }

  lemma SourceInOrder(p: Program, k: nat)
    requires p.Valid() && k < |p.order| && p.KindAt(k).Variable?
    ensures p.SourceStream(k) in p.Streams()
  {
    var x := p.order[k];
    assert Missing(p.trace, x, p.order[..k]) == 0;
    var j :| 0 <= j < k && p.order[..k][j] == p.trace.Source(x).value;
    assert p.StreamAt(j) == p.SourceStream(k);
  }

  /** What a clear lookup may find: the only definer of the name, or the last one before it. */
  lemma ClearLookup(p: Program, k: nat, h: nat)
    requires p.Valid() && k < |p.order| && p.KindAt(k).Variable? && h <= |p.order|
    requires Definer(p, h, p.SourceStream(k), p.KindAt(k).name).Some?
    requires Definer(p, k, p.SourceStream(k), p.KindAt(k).name).Some?
    requires h == k || p.SourceStream(k) != p.StreamAt(k)
    ensures Definer(p, h, p.SourceStream(k), p.KindAt(k).name) == Definer(p, k, p.SourceStream(k), p.KindAt(k).name)
  {
    hide Program.Arranged, Program.StreamAt, Program.KindAt, Program.SourceStream;
    var r, name := p.SourceStream(k), p.KindAt(k).name;
    assert p.Defines(Definer(p, h, r, name).value, r, name) && p.Defines(Definer(p, k, r, name).value, r, name);
  }

  /** The variable's definer was submitted before it, so its event is registered; once it was executed
      the value that is read is what it appended. */
  lemma LookupDefiner(p: Program, st: State, k: nat)
    requires p.Valid() && Inv(p, st) && k < st.submitted && p.KindAt(k).Variable? && !Bad(p, k)
    requires p.StreamAt(k) in st.workers && st.workers[p.StreamAt(k)].queue != []
    requires st.workers[p.StreamAt(k)].queue[0] == k
    ensures var found := GetVar(WorkerOf(st, p.SourceStream(k)), p.KindAt(k).name);
            && !found.KeyError?
            && (found.Value? ==> found.value == Out(p, k))
            && (found.Waiting? ==> exists j: nat :: j < k && Queued(p, st, j))
  {
    hide Program.Valid, Definer, Aligned, GetVar, Queued, Bad, WorkerOk;
    SourceInOrder(p, k);
    var name, r := p.KindAt(k).name, p.SourceStream(k);
    SourceWorker(p, st, r);
    var h := AlignedAt(p, st, r);
    if r == p.StreamAt(k) {
      AtHead(p, st.submitted, r, st.workers[r]);
      h := k;
    }
    LookupAt(p, st, k, h);
  }

  lemma SourceWorker(p: Program, st: State, r: nat)
    requires Inv(p, st) && r in p.Streams()
    ensures r in st.workers && WorkerOf(st, r) == st.workers[r]
  {
  }

  lemma AlignedAt(p: Program, st: State, r: nat) returns (h: nat)
    requires Inv(p, st) && r in st.workers
    ensures Aligned(p, st.submitted, r, st.workers[r], h)
  {
    hide Aligned;
    assert WorkerOk(p, st.submitted, r, st.workers[r]);
    h :| Aligned(p, st.submitted, r, st.workers[r], h);
  }

  lemma LookupAt(p: Program, st: State, k: nat, h: nat)
    requires p.Valid() && k < st.submitted <= |p.order| && p.KindAt(k).Variable? && !Bad(p, k)
    requires p.SourceStream(k) in st.workers && (h == k || p.SourceStream(k) != p.StreamAt(k))
    requires Aligned(p, st.submitted, p.SourceStream(k), st.workers[p.SourceStream(k)], h)
    ensures var found := GetVar(WorkerOf(st, p.SourceStream(k)), p.KindAt(k).name);
            && !found.KeyError?
            && (found.Value? ==> found.value == Out(p, k))
            && (found.Waiting? ==> exists j: nat :: j < k && Queued(p, st, j))
  {
    hide Program.Valid, StreamText, Program.StreamAt, Program.KindAt, Program.SourceStream;
    var name, r := p.KindAt(k).name, p.SourceStream(k);
    var w, j := st.workers[r], Definer(p, k, r, name).value;
    OutOfVariable(p, k);
    DefinerLater(p, k, st.submitted, r, name);
    if name in w.variables {
      ClearLookup(p, k, h);
    } else {
      assert h <= j;
      assert j in w.queue;
      assert Queued(p, st, j);
    }
  }

  lemma OutOfVariable(p: Program, k: nat)
    requires k < |p.order| && p.KindAt(k).Variable? && !Bad(p, k)
    ensures var d := Definer(p, k, p.SourceStream(k), p.KindAt(k).name); d.Some? && Out(p, k) == Out(p, d.value)
  {
  }

  /** What has a definer still has one later. */
  lemma {:induction false} DefinerLater(p: Program, m: nat, n: nat, s: nat, name: string)
    requires m <= n <= |p.order| && exists j :: 0 <= j < m && p.StreamAt(j) == s && NameOf(p.KindAt(j)) == Some(name)
    ensures Definer(p, n, s, name).Some?
  {
  }

  /** A worker's step keeps the invariant. */
  lemma WorkInv(p: Program, st: State, s: nat)
    requires p.Valid() && Inv(p, st) && NoneBad(p, st.submitted) && Enabled(p, st, s)
    ensures Inv(p, Work(p, st, s)) && Work(p, st, s).failed == st.failed
    ensures Work(p, st, s).submitted == st.submitted && Work(p, st, s).returned == st.returned
  {
    hide Program.Valid, Aligned, Execute, Bad, Program.Streams;
    var w := st.workers[s];
    AtHead(p, st.submitted, s, w);
    var k := w.queue[0];
    HeadOutput(p, st, s);
    RanWorker(p, st.submitted, s, w);
    var st' := Work(p, st, s);
    assert Aligned(p, st.submitted, s, st'.workers[s], k + 1);
    assert WorkerOk(p, st.submitted, s, st'.workers[s]);
    assert st'.workers.Keys == st.workers.Keys;
    forall r | r in st'.workers ensures WorkerOk(p, st.submitted, r, st'.workers[r]) {
      if r != s { assert WorkerOk(p, st.submitted, r, st.workers[r]); }
    }
  }

  lemma RanWorker(p: Program, submitted: nat, s: nat, w: Worker)
    requires w.queue != [] && Aligned(p, submitted, s, w, w.queue[0])
    requires w.queue[0] < submitted && p.StreamAt(w.queue[0]) == s
    ensures Aligned(p, submitted, s, Ran(w, NameOf(p.KindAt(w.queue[0])), Out(p, w.queue[0])), w.queue[0] + 1)
  {
    hide Out, Between, Program.StreamAt, Program.KindAt, StreamText, VariablesAre;
    var k := w.queue[0];
    BetweenFrom(p, k, submitted, s);
    TextStep(p, k, s);
    RanVariables(p, s, w.variables, k);
  }

  lemma TextStep(p: Program, k: nat, s: nat)
    requires k < |p.order| && p.StreamAt(k) == s
    ensures StreamText(p, k + 1, s) == StreamText(p, k, s) + Out(p, k)
  {
    hide Out, Program.StreamAt;
  }

  lemma RanVariables(p: Program, s: nat, variables: map<string, string>, k: nat)
    requires k < |p.order| && p.StreamAt(k) == s && VariablesAre(p, s, variables, k)
    ensures var name := NameOf(p.KindAt(k));
            VariablesAre(p, s, if name.Some? then variables[name.value := Out(p, k)] else variables, k + 1)
  {
    hide Out, Program.StreamAt, Program.KindAt, StreamText;
    forall name ensures Definer(p, k + 1, s, name)
                        == if NameOf(p.KindAt(k)) == Some(name) then Some(k) else Definer(p, k, s, name) {
    }
  }
}
