/** Whole runs of a compiled program: some run fails exactly if some expression that was kept is bad or
    nothing was kept of the stream that is returned. Otherwise, whatever the interleaving of the caller
    and the stream workers, the run can go on until everything is executed, it then stops, and every
    stream ends with the same text. */
module StreamRuns {
  import opened Options
  import opened ProgramGraph
  import opened StreamWorkers

  // ---- Compiled programs ----

  /** No two needed expressions of one stream define the same variable. */
  ghost predicate UniqueNames(t: Trace) {
    forall x, y :: (t.Needed(x) && t.Needed(y) && x in t.exprs && y in t.exprs && t.exprs[x].pid == t.exprs[y].pid
                    && NameOf(t.exprs[x].kind).Some? && NameOf(t.exprs[x].kind) == NameOf(t.exprs[y].kind)) ==> x == y
  }

  /** A list of exactly the needed expressions. */
  ghost predicate Covers(t: Trace, all: seq<Id>) {
    forall x :: x in all <==> t.Needed(x)
  }

  /** What compiling a trace yields: an arrangement of exactly those needed expressions from which no
      cycle of dependencies is reached. Streams are kept apart, and the last expression's stream, whose
      state is returned to the caller, is 0. */
  ghost predicate IsCompiled(t: Trace, p: Program) {
    && p.trace == t && p.Arranged()
    && (forall x :: x in p.order <==> t.Needed(x) && !ReachesCycle(t, x))
    && (forall x :: t.Needed(x) && x in t.exprs && Missing(t, x, p.order) == 0 ==> x in p.order)
    && ((forall x :: t.Needed(x) ==> x in p.order) <==> exists all :: Covers(t, all) && Acyclic(t, all))
    && t.lastNode in p.stream && p.stream[t.lastNode] == 0
    && (forall x :: t.Needed(x) ==> x in t.exprs && x in p.stream)
    && (forall x, y :: t.Needed(x) && t.Needed(y) && x in p.stream && y in p.stream && x in t.exprs && y in t.exprs ==>
          (p.stream[x] == p.stream[y] <==> t.exprs[x].pid == t.exprs[y].pid))
  }

  /** Compiling a trace. Lookups are clear at least if names are unique in every stream. */
  method Compile(t: Trace, args: map<string, string>, generate: (string, Id) -> string, select: (string, Id) -> string)
    returns (p: Program)
    requires t.Valid()
    ensures IsCompiled(t, p) && p.args == args && p.generate == generate && p.select == select
    ensures UniqueNames(t) ==> p.Valid()
  {
    hide Acyclic, Ordered, UniqueNames, Program.Arranged, Program.LookupsClear, Trace.Needed, NoDuplicates, ReachesCycle, IsCompiled;
    hide CompiledFunction.GraphBuilt, CompiledFunction.StreamsRenamed, Missing, Covers;
    var f := new CompiledFunction(t);
    f.BuildGraph();
    GraphFacts(f);
    ghost var all := f.nodes;
    f.TopologicalSort();
    p := Program(t, f.nodes, f.pid, args, generate, select);
    SortedProgram(p, all);
    if UniqueNames(t) { UniqueIsClear(p); }
  }

  lemma GraphFacts(f: CompiledFunction)
    requires f.GraphBuilt() && f.StreamsRenamed()
    ensures NoDuplicates(f.nodes) && Covers(f.trace, f.nodes)
    ensures forall x :: x in f.nodes ==> x in f.trace.exprs && x in f.pid
    ensures forall x, y :: x in f.nodes && y in f.nodes ==>
              (f.pid[x] == f.pid[y] <==> f.trace.exprs[x].pid == f.trace.exprs[y].pid)
    ensures f.trace.lastNode in f.pid && f.pid[f.trace.lastNode] == 0
  {
    hide CompiledFunction.Linked, Trace.Needed, CompiledFunction.StreamUsed;
  }

  lemma SortedProgram(p: Program, all: seq<Id>)
    requires p.trace.Valid() && Covers(p.trace, all) && NoDuplicates(all)
    requires NoDuplicates(p.order) && Ordered(p.trace, p.order)
    requires forall x :: x in all ==> x in p.trace.exprs && x in p.stream
    requires forall x, y :: x in all && y in all ==>
               (p.stream[x] == p.stream[y] <==> p.trace.exprs[x].pid == p.trace.exprs[y].pid)
    requires p.trace.lastNode in p.stream && p.stream[p.trace.lastNode] == 0
    requires forall x :: x in p.order <==> x in all && !ReachesCycle(p.trace, x)
    requires forall x :: x in all && x in p.trace.exprs && Missing(p.trace, x, p.order) == 0 ==> x in p.order
    requires |p.order| == |all| <==> Acyclic(p.trace, all)
    ensures IsCompiled(p.trace, p)
  {
    hide Trace.Needed, Acyclic, Ordered, ReachesCycle, Missing, Trace.Valid;
    KeepsAll(p, all);
  }

  lemma KeepsAll(p: Program, all: seq<Id>)
    requires NoDuplicates(p.order) && Covers(p.trace, all) && NoDuplicates(all)
    requires forall x :: x in p.order ==> x in all
    requires |p.order| == |all| <==> Acyclic(p.trace, all)
    ensures (forall x :: p.trace.Needed(x) ==> x in p.order) <==> exists xs :: Covers(p.trace, xs) && Acyclic(p.trace, xs)
  {
    hide Trace.Needed;
    if xs :| Covers(p.trace, xs) && Acyclic(p.trace, xs) {
      var rank :| Ranks(p.trace, xs, rank);
      assert Ranks(p.trace, all, rank);
      SameSize(p.order, all);
    }
    if forall x :: p.trace.Needed(x) ==> x in p.order {
      DistinctWithin(all, p.order);
      DistinctWithin(p.order, all);
    }
  }

  lemma UniqueIsClear(p: Program)
    requires IsCompiled(p.trace, p) && UniqueNames(p.trace)
    ensures p.Valid()
  {
    hide Trace.Needed, Ordered, Trace.Valid, ReachesCycle, Missing, Covers;
    assert forall k :: 0 <= k < |p.order| ==> p.order[k] in p.order;
    forall i, j, s, name | p.Defines(i, s, name) && p.Defines(j, s, name) ensures i == j {
      assert p.order[i] == p.order[j];
    }
  }

  // ---- Runs ----

  /** A run: any sequence of steps from the initial state. */
  ghost predicate IsRun(p: Program, run: seq<State>) {
    && run != [] && run[0] == Init(p)
    && forall i :: 0 <= i < |run| - 1 ==> Next(p, run[i], run[i + 1])
  }

  ghost function Last(run: seq<State>): State
    requires run != []
  {
    run[|run| - 1]
  }

  lemma Extend(p: Program, run: seq<State>, st: State)
    requires IsRun(p, run) && Next(p, Last(run), st)
    ensures IsRun(p, run + [st]) && Last(run + [st]) == st
  {
    hide Next, Init;
    var longer := run + [st];
    forall i | 0 <= i < |longer| - 1 ensures Next(p, longer[i], longer[i + 1]) {
      if i < |run| - 1 { assert longer[i] == run[i] && longer[i + 1] == run[i + 1]; }
    }
  }

  /** Nothing that was kept is bad, and something of the stream that is returned was kept. */
  ghost predicate Safe(p: Program) {
    NoneBad(p, |p.order|) && Returnable(p)
  }

  lemma NextInv(p: Program, st: State, st': State)
    requires p.Valid() && Safe(p) && Inv(p, st) && Next(p, st, st')
    ensures Inv(p, st') && !st'.failed
  {
    hide Program.Valid, Inv, Submit, Work, Return, Enabled, Bad, Returnable;
    assert st.submitted <= |p.order| by { SubmittedWithin(p, st); }
    if st.submitted < |p.order| && st' == Submit(p, st) {
      SubmitInv(p, st);
    } else if st.submitted == |p.order| && st' == Return(p, st) {
      ReturnInv(p, st);
    } else {
      var s :| Enabled(p, st, s) && st' == Work(p, st, s);
      WorkInv(p, st, s);
    }
  }

  lemma SubmittedWithin(p: Program, st: State)
    requires Inv(p, st)
    ensures st.submitted <= |p.order|
  {
  }

  lemma {:induction false} RunInv(p: Program, run: seq<State>)
    requires p.Valid() && Safe(p) && IsRun(p, run)
    ensures Inv(p, Last(run)) && !Last(run).failed
  {
    hide Program.Valid, Inv, Init, Next, Safe;
    if |run| == 1 {
      InitInv(p);
    } else {
      RunInv(p, run[..|run| - 1]);
      assert Next(p, run[|run| - 2], run[|run| - 2 + 1]);
      NextInv(p, run[|run| - 2], run[|run| - 1]);
    }
  }

  // ---- When a run can fail ----

  /** Everything that was submitted was executed. */
  ghost predicate Quiet(p: Program, st: State) {
    Inv(p, st) && !st.failed && !st.returned && forall s :: s in st.workers ==> st.workers[s].queue == []
  }

  /** If nothing before position n is bad, the caller can submit that much and have each expression
      executed before it submits the next one. */
  lemma {:induction false} SequentialRun(p: Program, n: nat) returns (run: seq<State>)
    requires p.Valid() && n <= |p.order| && NoneBad(p, n)
    ensures IsRun(p, run) && Quiet(p, Last(run)) && Last(run).submitted == n
  {
    hide Program.Valid, Inv, Next, Bad;
    if n == 0 {
      run := [Init(p)];
      InitInv(p);
    } else {
      run := SequentialRun(p, n - 1);
      var st := SubmitOne(p, Last(run));
      Extend(p, run, st);
      run := run + [st];
      var st' := ExecuteOne(p, st);
      Extend(p, run, st');
      run := run + [st'];
    }
  }

  /** Exactly the expression at position n - 1 is queued. */
  ghost predicate OneQueued(p: Program, st: State, n: nat) {
    && 0 < n <= |p.order| && Inv(p, st) && !st.failed && !st.returned && st.submitted == n
    && forall s :: s in st.workers ==> st.workers[s].queue == if s == p.StreamAt(n - 1) then [n - 1] else []
  }

  lemma SubmitOne(p: Program, st: State) returns (st': State)
    requires p.Valid() && Quiet(p, st) && st.submitted < |p.order|
    requires !(p.KindAt(st.submitted).Argument? && Bad(p, st.submitted))
    ensures Next(p, st, st') && OneQueued(p, st', st.submitted + 1)
  {
    hide Program.Valid, Inv, Bad;
    st' := Submit(p, st);
    SubmitInv(p, st);
    var k := st.submitted;
    StreamHasWorker(p, st, k);
    assert WorkerOf(st, p.StreamAt(k)).queue == [];
  }

  lemma StreamHasWorker(p: Program, st: State, k: nat)
    requires Inv(p, st) && k < |p.order|
    ensures p.StreamAt(k) in st.workers
  {
    assert p.StreamAt(k) in p.Streams();
  }

  lemma NothingEarlier(p: Program, st: State, n: nat, j: nat)
    requires OneQueued(p, st, n) && j < n - 1
    ensures !Queued(p, st, j)
  {
    hide Inv;
  }

  lemma ExecuteOne(p: Program, st: State) returns (st': State)
    requires p.Valid() && OneQueued(p, st, st.submitted) && NoneBad(p, st.submitted)
    ensures Next(p, st, st') && Quiet(p, st') && st'.submitted == st.submitted
  {
    hide Program.Valid, Inv, Bad, Execute;
    var n, s := st.submitted, p.StreamAt(st.submitted - 1);
    StreamHasWorker(p, st, n - 1);
    HeadOutput(p, st, s);
    forall j: nat | j < n - 1 ensures !Queued(p, st, j) { NothingEarlier(p, st, n, j); }
    assert Enabled(p, st, s);
    WorkInv(p, st, s);
    st' := Work(p, st, s);
  }

  /** If the expression at position k is the first bad one, some run fails there: it submits the
      expressions up to it, and has executed everything before it. */
  lemma FailingRun(p: Program, k: nat) returns (run: seq<State>)
    requires p.Valid() && k < |p.order| && Bad(p, k) && NoneBad(p, k)
    ensures IsRun(p, run) && Last(run).failed
    ensures Last(run).submitted == if p.KindAt(k).Argument? then k else k + 1
    ensures forall j: nat :: j < k ==> !Queued(p, Last(run), j)
  {
    hide Program.Valid, Inv, Bad, Execute;
    run := SequentialRun(p, k);
    var st := Last(run);
    if p.KindAt(k).Argument? {
      SubmitInv(p, st);
      Extend(p, run, Submit(p, st));
      run := run + [Submit(p, st)];
      forall j: nat | j < k ensures !Queued(p, Last(run), j) { NothingQueued(p, st, j); }
    } else {
      var st1 := SubmitOne(p, st);
      Extend(p, run, st1);
      run := run + [st1];
      StreamHasWorker(p, st1, k);
      NothingRegistered(p, st1, k);
      assert Enabled(p, st1, p.StreamAt(k));
      var st2 := Work(p, st1, p.StreamAt(k));
      Extend(p, run, st2);
      run := run + [st2];
      forall j: nat | j < k ensures !Queued(p, Last(run), j) { NothingEarlier(p, st1, k + 1, j); }
    }
  }

  lemma NothingQueued(p: Program, st: State, j: nat)
    requires Quiet(p, st)
    ensures !Queued(p, st, j) && !Queued(p, st.(failed := true), j)
    ensures !Queued(p, Return(p, st), j)
  {
    hide Inv;
  }

  lemma NothingRegistered(p: Program, st: State, k: nat)
    requires p.Valid() && Inv(p, st) && k < |p.order| && st.submitted == k + 1
    requires Bad(p, k) && !p.KindAt(k).Argument?
    ensures Execute(p, st, k).KeyError?
  {
    hide Program.Valid, StreamText, Out, Inv, Aligned;
    SourceInOrder(p, k);
    SourceWorker(p, st, p.SourceStream(k));
    var h := AlignedAt(p, st, p.SourceStream(k));
    NoName(p, st, k, h);
  }

  lemma NoName(p: Program, st: State, k: nat, h: nat)
    requires k < |p.order| && st.submitted == k + 1 && Bad(p, k) && p.KindAt(k).Variable?
    requires p.SourceStream(k) in st.workers && Aligned(p, k + 1, p.SourceStream(k), st.workers[p.SourceStream(k)], h)
    ensures GetVar(WorkerOf(st, p.SourceStream(k)), p.KindAt(k).name).KeyError?
  {
    hide StreamText, Out, Between;
    var name, r := p.KindAt(k).name, p.SourceStream(k);
    assert Definer(p, k + 1, r, name).None?;
    var d := Definer(p, h, r, name);
    assert d.None?;
  }

  lemma {:induction false} FirstBad(p: Program, n: nat) returns (k: nat)
    requires n <= |p.order| && !NoneBad(p, n)
    ensures k < n && Bad(p, k) && NoneBad(p, k)
  {
    hide Bad;
    k := 0;
    while !Bad(p, k)
      invariant k < n && NoneBad(p, k)
      decreases n - k
    {
      var j :| 0 <= j < n && Bad(p, j);
      assert k < j;
      k := k + 1;
    }
  }

  /** If nothing is bad but nothing was kept of the stream to return, some run executes everything and
      then fails where its caller looks up the executor of that stream. */
  lemma UnreturnedRun(p: Program) returns (run: seq<State>)
    requires p.Valid() && NoneBad(p, |p.order|) && !Returnable(p)
    ensures IsRun(p, run) && Last(run).failed && Last(run).submitted == |p.order|
    ensures forall j: nat :: !Queued(p, Last(run), j)
  {
    hide Program.Valid, Inv, Bad, Returnable;
    run := SequentialRun(p, |p.order|);
    var st := Last(run);
    ReturnInv(p, st);
    Extend(p, run, Return(p, st));
    run := run + [Return(p, st)];
    forall j: nat ensures !Queued(p, Last(run), j) { NothingQueued(p, st, j); }
  }

  /** Some run fails exactly if some expression that the sort kept is bad (a variable of whose name no
      earlier expression of its source's stream is, or an argument that was not given), or it kept no
      expression of the last expression's stream. */
  lemma FailureIff(p: Program)
    requires p.Valid()
    ensures (exists run :: IsRun(p, run) && Last(run).failed)
            <==> (exists k: nat :: k < |p.order| && Bad(p, k))
                 || forall x :: x in p.order ==> p.StreamOf(x) != p.StreamOf(p.trace.lastNode)
  {
    hide Program.Valid, Bad, Next, Init;
    ReturnableIff(p);
    if !NoneBad(p, |p.order|) {
      var k := FirstBad(p, |p.order|);
      var run := FailingRun(p, k);
    } else if !Returnable(p) {
      var run := UnreturnedRun(p);
    } else if run :| IsRun(p, run) && Last(run).failed {
      RunInv(p, run);
    }
  }

  lemma ReturnableIff(p: Program)
    ensures Returnable(p) <==> exists x :: x in p.order && p.StreamOf(x) == p.StreamOf(p.trace.lastNode)
  {
    if x :| x in p.order && p.StreamOf(x) == p.StreamOf(p.trace.lastNode) {
      var k :| 0 <= k < |p.order| && p.order[k] == x;
      assert p.StreamAt(k) == p.StreamOf(x);
    }
  }

  /** If it is safe, a program has a run that finishes. */
  lemma FinishedRun(p: Program) returns (run: seq<State>)
    requires p.Valid() && Safe(p)
    ensures IsRun(p, run) && Finished(p, Last(run))
  {
    hide Program.Valid, Inv, Bad, Returnable;
    run := SequentialRun(p, |p.order|);
    var st := Last(run);
    ReturnInv(p, st);
    Extend(p, run, Return(p, st));
    SameQueues(p, st);
    run := run + [Return(p, st)];
  }

  lemma SameQueues(p: Program, st: State)
    requires Inv(p, st) && st.submitted == |p.order| && Returnable(p)
    ensures Return(p, st) == st.(returned := true)
  {
    hide WorkerOk;
  }

  // ---- Deadlock freedom ----

  /** The earliest expression that is queued is at the head of its queue and can be executed. */
  lemma EarliestIsEnabled(p: Program, st: State, k: nat)
    requires p.Valid() && Inv(p, st) && NoneBad(p, st.submitted) && Queued(p, st, k)
    requires forall j: nat :: j < k ==> !Queued(p, st, j)
    ensures Enabled(p, st, p.StreamAt(k))
  {
    hide Program.Valid, Execute, Inv, Bad, Between;
    var s := p.StreamAt(k);
    var h := AlignedAt(p, st, s);
    HeadIsEarliest(p, st, k, h);
    HeadOutput(p, st, s);
  }

  lemma HeadIsEarliest(p: Program, st: State, k: nat, h: nat)
    requires Queued(p, st, k) && Aligned(p, st.submitted, p.StreamAt(k), st.workers[p.StreamAt(k)], h)
    requires forall j: nat :: j < k ==> !Queued(p, st, j)
    ensures st.workers[p.StreamAt(k)].queue != [] && st.workers[p.StreamAt(k)].queue[0] == k
  {
    hide StreamText, Out, VariablesAre, Definer;
    var s := p.StreamAt(k);
    var q := st.workers[s].queue;
    assert q[0] in q;
    HeadIsFirst(p, h, st.submitted, s);
    assert q[0] <= k;
    assert Queued(p, st, q[0]);
  }

  /** The caller has something to submit or to return, or some worker can execute the head of its queue. */
  ghost predicate CanStep(p: Program, st: State) {
    !st.failed && (st.submitted < |p.order| || !st.returned || exists s :: Enabled(p, st, s))
  }

  /** If the program is safe, a reachable state is finished or some step can be taken. */
  lemma NoDeadlock(p: Program, run: seq<State>)
    requires p.Valid() && Safe(p) && IsRun(p, run)
    ensures Finished(p, Last(run)) || CanStep(p, Last(run))
  {
    hide Program.Valid, Enabled, Next, Bad, Inv, Returnable;
    RunInv(p, run);
    var st := Last(run);
    SubmittedWithin(p, st);
    if st.submitted == |p.order| && st.returned && !Finished(p, st) {
      var s :| s in st.workers && st.workers[s].queue != [];
      var k := FirstQueued(p, st, s);
      EarliestIsEnabled(p, st, k);
    }
  }

  lemma {:induction false} FirstQueued(p: Program, st: State, s: nat) returns (k: nat)
    requires Inv(p, st) && s in st.workers && st.workers[s].queue != []
    ensures Queued(p, st, k) && forall j: nat :: j < k ==> !Queued(p, st, j)
  {
    hide Inv, Aligned;
    SubmittedWithin(p, st);
    assert WorkerOk(p, st.submitted, s, st.workers[s]) by { WorkersOk(p, st, s); }
    AtHead(p, st.submitted, s, st.workers[s]);
    var q := st.workers[s].queue[0];
    assert q in st.workers[s].queue && Queued(p, st, q);
    k := 0;
    while !Queued(p, st, k)
      invariant k <= q && forall j: nat :: j < k ==> !Queued(p, st, j)
      decreases q - k
    {
      assert k != q;
      k := k + 1;
    }
  }

  lemma WorkersOk(p: Program, st: State, s: nat)
    requires Inv(p, st) && s in st.workers
    ensures WorkerOk(p, st.submitted, s, st.workers[s])
  {
  }

  // ---- Termination ----

  /** The positions that are queued. */
  ghost function QueuedSet(p: Program, st: State): set<nat> {
    set j: nat | j < st.submitted && Queued(p, st, j)
  }

  /** Each expression takes two steps, and returning takes one: how many were taken. */
  ghost function Steps(p: Program, st: State): int {
    2 * st.submitted - |QueuedSet(p, st)| + if st.returned then 1 else 0
  }

  lemma OneSubmitted(p: Program, st: State)
    requires Inv(p, st) && st.submitted < |p.order| && !Submit(p, st).failed
    ensures Submit(p, st).submitted == st.submitted + 1
    ensures Steps(p, Submit(p, st)) == Steps(p, st) + 1
  {
    hide WorkerOk;
    var k, st' := st.submitted, Submit(p, st);
    StreamHasWorker(p, st, k);
    assert k in st'.workers[p.StreamAt(k)].queue;
    forall j: nat ensures j in QueuedSet(p, st') <==> j in QueuedSet(p, st) || j == k { }
    assert QueuedSet(p, st') == QueuedSet(p, st) + {k};
  }

  lemma OneReturned(p: Program, st: State)
    requires Inv(p, st) && st.submitted == |p.order| && !st.returned && Returnable(p)
    ensures Steps(p, Return(p, st)) == Steps(p, st) + 1
  {
    hide Inv;
    SameQueues(p, st);
    assert forall j :: Queued(p, Return(p, st), j) <==> Queued(p, st, j);
    assert QueuedSet(p, Return(p, st)) == QueuedSet(p, st);
  }

  lemma OneExecuted(p: Program, st: State, s: nat)
    requires p.Valid() && Inv(p, st) && NoneBad(p, st.submitted) && Enabled(p, st, s)
    ensures Steps(p, Work(p, st, s)) == Steps(p, st) + 1
  {
    hide Program.Valid, Inv, Execute, Bad, Aligned;
    SubmittedWithin(p, st);
    WorkersOk(p, st, s);
    AtHead(p, st.submitted, s, st.workers[s]);
    HeadOutput(p, st, s);
    var k, st' := st.workers[s].queue[0], Work(p, st, s);
    HeadOnce(p, st, s);
    forall j: nat ensures j in QueuedSet(p, st') <==> j in QueuedSet(p, st) && j != k {
      if j in QueuedSet(p, st') && p.StreamAt(j) == s { assert j in st.workers[s].queue; }
    }
    assert QueuedSet(p, st') == QueuedSet(p, st) - {k};
    assert k in st.workers[s].queue;
    assert k in QueuedSet(p, st);
  }

  /** The rest of a queue is the queue without its head. */
  lemma HeadOnce(p: Program, st: State, s: nat)
    requires Inv(p, st) && s in st.workers && st.workers[s].queue != []
    ensures var q := st.workers[s].queue; forall j :: j in q[1..] <==> j in q && j != q[0]
  {
    hide StreamText, Out, VariablesAre, Definer, WorkerOk, Inv, Program.Streams, Aligned;
    WorkersOk(p, st, s);
    AtHead(p, st.submitted, s, st.workers[s]);
    RestOfQueue(p, st.submitted, s, st.workers[s]);
  }

  lemma RestOfQueue(p: Program, submitted: nat, s: nat, w: Worker)
    requires w.queue != [] && Aligned(p, submitted, s, w, w.queue[0])
    requires w.queue[0] < submitted && p.StreamAt(w.queue[0]) == s
    ensures forall j :: j in w.queue[1..] <==> j in w.queue && j != w.queue[0]
  {
    hide StreamText, Out, VariablesAre, Definer;
    BetweenFrom(p, w.queue[0], submitted, s);
    assert w.queue[1..] == Between(p, w.queue[0] + 1, submitted, s);
  }

  lemma {:induction false} StepsCounted(p: Program, run: seq<State>)
    requires p.Valid() && Safe(p) && IsRun(p, run)
    ensures Steps(p, Last(run)) == |run| - 1
  {
    hide Program.Valid, Inv, Next, Steps, Safe;
    if |run| == 1 {
      NothingRun(p);
    } else {
      var before := run[..|run| - 1];
      StepsCounted(p, before);
      RunInv(p, before);
      assert Next(p, run[|run| - 2], run[|run| - 2 + 1]);
      OneMore(p, run[|run| - 2], run[|run| - 1]);
    }
  }

  lemma NothingRun(p: Program)
    ensures Steps(p, Init(p)) == 0
  {
    assert QueuedSet(p, Init(p)) == {};
  }

  lemma OneMore(p: Program, st: State, st': State)
    requires p.Valid() && Safe(p) && Inv(p, st) && Next(p, st, st')
    ensures Steps(p, st') == Steps(p, st) + 1
  {
    hide Program.Valid, Inv, Enabled, Submit, Work, Return, Steps, Bad, Returnable;
    SubmittedWithin(p, st);
    NextInv(p, st, st');
    if st.submitted < |p.order| && st' == Submit(p, st) {
      OneSubmitted(p, st);
    } else if st.submitted == |p.order| && !st.returned && st' == Return(p, st) {
      OneReturned(p, st);
    } else {
      var s :| Enabled(p, st, s) && st' == Work(p, st, s);
      OneExecuted(p, st, s);
    }
  }

  /** If the program is safe, every run stops after exactly two steps per expression, one submission and
      one execution, and one to return. */
  lemma EveryRunStops(p: Program, run: seq<State>)
    requires p.Valid() && Safe(p) && IsRun(p, run)
    ensures |run| - 1 <= 2 * |p.order| + 1
    ensures Finished(p, Last(run)) <==> |run| - 1 == 2 * |p.order| + 1
  {
    hide Program.Valid, Next, Safe, Inv;
    RunInv(p, run);
    StepsCounted(p, run);
    SubmittedWithin(p, Last(run));
    NothingLeft(p, Last(run));
  }

  lemma NothingLeft(p: Program, st: State)
    requires Inv(p, st)
    ensures QueuedSet(p, st) == {} <==> forall s :: s in st.workers ==> st.workers[s].queue == []
  {
    hide Inv, Aligned;
    SubmittedWithin(p, st);
    if s :| s in st.workers && st.workers[s].queue != [] {
      WorkersOk(p, st, s);
      AtHead(p, st.submitted, s, st.workers[s]);
      var q := st.workers[s].queue[0];
      assert q in st.workers[s].queue;
      assert q in QueuedSet(p, st);
    }
  }

  // ---- The final texts ----

  /** In every finished run each stream has the same text: what its expressions mean, in order. */
  lemma FinalText(p: Program, run: seq<State>, s: nat)
    requires p.Valid() && Safe(p) && IsRun(p, run) && Finished(p, Last(run)) && s in p.Streams()
    ensures s in Last(run).workers && Last(run).workers[s].text == StreamText(p, |p.order|, s)
  {
    hide Program.Valid, Next, Inv, Aligned, StreamText;
    RunInv(p, run);
    var st := Last(run);
    SourceWorker(p, st, s);
    var h := AlignedAt(p, st, s);
    EmptyQueue(p, s, st.workers[s], h);
  }

  lemma EmptyQueue(p: Program, s: nat, w: Worker, h: nat)
    requires Aligned(p, |p.order|, s, w, h) && w.queue == []
    ensures w.text == StreamText(p, |p.order|, s)
  {
    hide StreamText, Out, Definer;
    forall k | h <= k < |p.order| ensures p.StreamAt(k) != s {
      assert k !in w.queue;
    }
    Skip(p, |p.order|, s, w, h, |p.order|);
  }
}
