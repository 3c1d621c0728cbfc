/** The graph compiler of the frontend language: collect the expressions a traced program needs,
    rename its streams, and order the expressions so that each follows what it depends on. */
module ProgramGraph {
  import opened Options

  /** Identity of a traced expression. */
  type Id = nat

  datatype Expr = Expr(prevNode: Option<Id>, kind: Kind, pid: Option<string>)

  datatype Kind =
    | ConstantText(value: string)
    | Argument(name: string)
    | Gen(genName: Option<string>)
    | Select(selectName: Option<string>, choices: seq<string>)
    | Variable(name: string, source: Id)

  /** A finished trace: its expressions, the variables the tracer recorded, and its last expression. */
  datatype Trace = Trace(exprs: map<Id, Expr>, variables: map<string, Id>, lastNode: Id) {
    /** Every expression that is referred to was traced. */
    ghost predicate Valid() {
      && lastNode in exprs
      && forall x :: x in exprs ==>
           && (Prev(x).Some? ==> Prev(x).value in exprs)
           && (Source(x).Some? ==> Source(x).value in exprs)
    }

    function Prev(x: Id): Option<Id>
      requires x in exprs
    {
      exprs[x].prevNode
    }

    /** What a variable refers to: the recorded variable of that name wins over the expression's own source. */
    function Source(x: Id): Option<Id>
      requires x in exprs
    {
      if !exprs[x].kind.Variable? then None
      else if exprs[x].kind.name in variables then Some(variables[exprs[x].kind.name])
      else Some(exprs[x].kind.source)
    }

    /** x depends directly on y. */
    ghost predicate DependsOn(x: Id, y: Id)
      requires x in exprs
    {
      Prev(x) == Some(y) || Source(x) == Some(y)
    }

    /** A path of dependencies from the last expression. */
    ghost predicate Path(p: seq<Id>) {
      && p != [] && p[0] == lastNode
      && (forall i :: 0 <= i < |p| ==> p[i] in exprs)
      && (forall i :: 0 <= i < |p| - 1 ==> DependsOn(p[i], p[i + 1]))
    }

    ghost predicate Needed(x: Id) {
      exists p :: Path(p) && p[|p| - 1] == x
    }
  }

  ghost predicate NoDuplicates<T>(s: seq<T>) {
    forall i, j :: 0 <= i < j < |s| ==> s[i] != s[j]
  }

  // ---- Edges ----

  /** The entries that expression y appends to the successor list of x. */
  function EdgesTo(t: Trace, y: Id, x: Id): seq<Id>
    requires y in t.exprs
  {
    (if t.Prev(y) == Some(x) then [y] else []) + (if t.Source(y) == Some(x) then [y] else [])
  }

  /** The successor list of x once the expressions `done` have been handled. */
  function Nexts(t: Trace, done: seq<Id>, x: Id): seq<Id>
    requires forall y :: y in done ==> y in t.exprs
  {
    if done == [] then []
    else Nexts(t, done[..|done| - 1], x) + EdgesTo(t, done[|done| - 1], x)
  }

  /** How many direct dependencies of x are outside `done`; both may be the same expression. */
  function Missing(t: Trace, x: Id, done: seq<Id>): nat
    requires x in t.exprs
  {
    (if t.Prev(x).Some? && t.Prev(x).value !in done then 1 else 0)
    + (if t.Source(x).Some? && t.Source(x).value !in done then 1 else 0)
  }

  function Edges(t: Trace, y: Id, x: Id): nat
    requires y in t.exprs
  {
    (if t.Prev(y) == Some(x) then 1 else 0) + (if t.Source(y) == Some(x) then 1 else 0)
  }

  /** An expression is in the successor list of x once per dependency on x. */
  lemma {:induction false} NextsCount(t: Trace, done: seq<Id>, x: Id, y: Id)
    requires (forall z :: z in done ==> z in t.exprs) && NoDuplicates(done)
    ensures multiset(Nexts(t, done, x))[y] == if y in done then Edges(t, y, x) else 0
  {
    if done != [] {
      hide EdgesTo, Edges;
      var n := |done| - 1;
      NextsCount(t, done[..n], x, y);
      EdgesCount(t, done[n], x, y);
      assert done == done[..n] + [done[n]];
      assert multiset(Nexts(t, done, x)) == multiset(Nexts(t, done[..n], x)) + multiset(EdgesTo(t, done[n], x));
    }
  }

  lemma EdgesCount(t: Trace, z: Id, x: Id, y: Id)
    requires z in t.exprs
    ensures multiset(EdgesTo(t, z, x))[y] == if y == z then Edges(t, z, x) else 0
  {
  }

  // ---- Acyclic graphs ----

  /** A rank certifies that the dependencies among the nodes are acyclic. */
  ghost predicate Ranks(t: Trace, nodes: seq<Id>, rank: map<Id, nat>) {
    forall x, y :: x in nodes && x in t.exprs && t.DependsOn(x, y) ==>
      x in rank && y in rank && rank[y] < rank[x]
  }

  ghost predicate Acyclic(t: Trace, nodes: seq<Id>) {
    exists rank :: Ranks(t, nodes, rank)
  }

  /** Every expression of the order follows its previous expression and its source. */
  ghost predicate Ordered(t: Trace, order: seq<Id>) {
    forall k :: 0 <= k < |order| ==> order[k] in t.exprs && Missing(t, order[k], order[..k]) == 0
  }

  // ---- What is reached by dependencies ----

  ghost predicate PathFrom(t: Trace, path: seq<Id>, x: Id) {
    && |path| >= 2 && path[0] == x
    && forall i :: 0 <= i < |path| - 1 ==> path[i] in t.exprs && t.DependsOn(path[i], path[i + 1])
  }

  /** y is reached from x by dependencies. */
  ghost predicate Reaches(t: Trace, x: Id, y: Id) {
    exists path :: PathFrom(t, path, x) && path[|path| - 1] == y
  }

  /** x depends on itself, or on an expression that does. */
  ghost predicate ReachesCycle(t: Trace, x: Id) {
    exists y :: (x == y || Reaches(t, x, y)) && Reaches(t, y, y)
  }

  /** In an order, what is reached from an expression comes before it. */
  lemma {:induction false} PathEarlier(t: Trace, order: seq<Id>, k: nat, path: seq<Id>, i: nat)
    requires Ordered(t, order) && k < |order| && PathFrom(t, path, order[k]) && 1 <= i < |path|
    ensures path[i] in order[..k]
  {
    hide Trace.DependsOn, Ordered;
    var j: nat := k;
    if i > 1 {
      PathEarlier(t, order, k, path, i - 1);
      j :| 0 <= j < k && order[j] == path[i - 1];
    }
    assert t.DependsOn(path[i - 1], path[i - 1 + 1]);
    DependsEarlier(t, order, j, path[i]);
    var l :| 0 <= l < j && order[l] == path[i];
  }

  lemma DependsEarlier(t: Trace, order: seq<Id>, k: nat, y: Id)
    requires Ordered(t, order) && k < |order| && order[k] in t.exprs && t.DependsOn(order[k], y)
    ensures y in order[..k]
  {
    assert Missing(t, order[k], order[..k]) == 0;
  }

  lemma ReachedEarlier(t: Trace, order: seq<Id>, k: nat, y: Id)
    requires Ordered(t, order) && k < |order| && Reaches(t, order[k], y)
    ensures y in order[..k]
  {
    hide Ordered;
    var path :| PathFrom(t, path, order[k]) && path[|path| - 1] == y;
    PathEarlier(t, order, k, path, |path| - 1);
  }

  /** Nothing in an order without duplicates depends on itself. */
  lemma OrderedHasNoCycle(t: Trace, order: seq<Id>, x: Id)
    requires Ordered(t, order) && NoDuplicates(order) && x in order
    ensures !ReachesCycle(t, x)
  {
    hide Ordered, Reaches;
    if y :| (x == y || Reaches(t, x, y)) && Reaches(t, y, y) {
      var k :| 0 <= k < |order| && order[k] == x;
      if x != y {
        ReachedEarlier(t, order, k, y);
        k :| 0 <= k < |order| && order[k] == y;
      }
      ReachedEarlier(t, order, k, y);
    }
  }

  /** The nodes are closed under dependencies, and exactly those with missing dependencies are not placed. */
  ghost predicate Stuck(t: Trace, all: seq<Id>, newList: seq<Id>) {
    && (forall y :: y in all ==> y in t.exprs && (Missing(t, y, newList) == 0 <==> y in newList))
    && (forall y, z :: y in all && y in t.exprs && t.DependsOn(y, z) ==> z in all)
  }

  ghost predicate Walk(t: Trace, path: seq<Id>) {
    forall i :: 0 <= i < |path| - 1 ==> path[i] in t.exprs && t.DependsOn(path[i], path[i + 1])
  }

  lemma StuckStep(t: Trace, all: seq<Id>, newList: seq<Id>, x: Id) returns (y: Id)
    requires Stuck(t, all, newList) && x in all && x !in newList
    ensures x in t.exprs && t.DependsOn(x, y) && y in all && y !in newList
  {
    hide Stuck;
    StuckMissing(t, all, newList, x);
    y := if t.Prev(x).Some? && t.Prev(x).value !in newList then t.Prev(x).value else t.Source(x).value;
    StuckClosed(t, all, newList, x, y);
  }

  lemma StuckMissing(t: Trace, all: seq<Id>, newList: seq<Id>, x: Id)
    requires Stuck(t, all, newList) && x in all && x !in newList
    ensures x in t.exprs && Missing(t, x, newList) > 0
  {
    hide Missing, Trace.DependsOn;
  }

  lemma StuckClosed(t: Trace, all: seq<Id>, newList: seq<Id>, x: Id, y: Id)
    requires Stuck(t, all, newList) && x in all && x in t.exprs && t.DependsOn(x, y)
    ensures y in all
  {
    hide Missing, Trace.DependsOn;
  }

  /** A walk of n steps through expressions that cannot be placed. */
  lemma {:induction false} StuckWalk(t: Trace, all: seq<Id>, newList: seq<Id>, x: Id, n: nat) returns (path: seq<Id>)
    requires Stuck(t, all, newList) && x in all && x !in newList
    ensures |path| == n + 1 && path[0] == x && Walk(t, path) && forall i :: 0 <= i < |path| ==> path[i] in all
    decreases n
  {
    hide Stuck, Trace.DependsOn;
    if n == 0 {
      path := [x];
    } else {
      var y := StuckStep(t, all, newList, x);
      var rest := StuckWalk(t, all, newList, y, n - 1);
      path := [x] + rest;
      forall i | 0 <= i < n ensures path[i] in t.exprs && t.DependsOn(path[i], path[i + 1]) {
        if i > 0 { assert path[i] == rest[i - 1] && path[i + 1] == rest[i - 1 + 1]; }
      }
    }
  }

  lemma WalkReaches(t: Trace, path: seq<Id>, i: nat, j: nat)
    requires Walk(t, path) && i < j < |path|
    ensures Reaches(t, path[i], path[j])
  {
    hide Trace.DependsOn;
    var part := path[i..j + 1];
    forall k | 0 <= k < |part| - 1 ensures part[k] in t.exprs && t.DependsOn(part[k], part[k + 1]) {
      assert part[k] == path[i + k] && part[k + 1] == path[i + k + 1];
    }
    assert PathFrom(t, part, path[i]) && part[|part| - 1] == path[j];
  }

  /** What cannot be placed reaches a cycle: a walk that is long enough repeats an expression. */
  lemma StuckReachesCycle(t: Trace, all: seq<Id>, newList: seq<Id>, x: Id)
    requires Stuck(t, all, newList) && x in all && x !in newList
    ensures ReachesCycle(t, x)
  {
    hide Stuck, Walk, Reaches;
    var path := StuckWalk(t, all, newList, x, |all|);
    if NoDuplicates(path) {
      DistinctWithin(path, all);
    }
    var i, j :| 0 <= i < j < |path| && path[i] == path[j];
    WalkReaches(t, path, i, j);
    if i > 0 { WalkReaches(t, path, 0, i); }
  }

  class CompiledFunction {
    const trace: Trace
    var nodes: seq<Id>
    var prevNode: map<Id, Id>
    var sourceNode: map<Id, Id>
    var nextNodes: map<Id, seq<Id>>
    var pid: map<Id, nat>

    constructor (trace: Trace)
      requires trace.Valid()
      ensures this.trace == trace
    {
      this.trace := trace;
      nodes, prevNode, sourceNode, nextNodes, pid := [], map[], map[], map[], map[];
    }

    /** The nodes are the needed expressions, each once, with their links. */
    ghost predicate GraphBuilt()
      reads this
    {
      && trace.Valid()
      && NoDuplicates(nodes)
      && (forall x :: x in nodes <==> trace.Needed(x))
      && (forall x :: x in nodes ==> x in trace.exprs)
      && Linked(nodes)
    }

    ghost predicate LinksAre(prevs: map<Id, Id>, sources: map<Id, Id>, done: seq<Id>) {
      && (forall x :: x in done ==> x in trace.exprs)
      && (forall x :: x in prevs <==> x in done && trace.Prev(x).Some?)
      && (forall x :: x in prevs ==> prevs[x] == trace.Prev(x).value)
      && (forall x :: x in sources <==> x in done && trace.Source(x).Some?)
      && (forall x :: x in sources ==> sources[x] == trace.Source(x).value)
    }

    /** The links of the handled expressions and the successor lists of all nodes. */
    ghost predicate Linked(done: seq<Id>)
      requires trace.Valid()
      reads this`nodes, this`prevNode, this`sourceNode, this`nextNodes
    {
      && LinksAre(prevNode, sourceNode, done)
      && (forall x :: x in nextNodes <==> x in nodes)
      && (forall x :: x in nextNodes ==> nextNodes[x] == Nexts(trace, done, x))
    }

    /** Streams are renamed one to one, to consecutive numbers, and the last expression's stream is 0. */
    ghost predicate StreamsRenamed()
      reads this
    {
      && (forall x :: x in pid <==> x in nodes)
      && (forall x :: x in nodes ==> x in trace.exprs)
      && trace.lastNode in pid && pid[trace.lastNode] == 0
      && (forall x, y :: x in nodes && y in nodes ==> (pid[x] == pid[y] <==> trace.exprs[x].pid == trace.exprs[y].pid))
      && (forall x, k: nat :: x in nodes && k <= pid[x] ==> StreamUsed(k))
    }

    ghost predicate StreamUsed(k: nat)
      reads this`pid
    {
      exists y :: y in pid && pid[y] == k
    }

    /** The nodes found so far: each once, each needed, the last expression first. */
    ghost predicate Found(visited: set<Id>)
      reads this`nodes
    {
      && trace.Valid()
      && NoDuplicates(nodes) && |nodes| > 0 && nodes[0] == trace.lastNode
      && (forall x :: x in nodes <==> x in visited) && visited <= trace.exprs.Keys
      && (forall x :: x in nodes ==> trace.Needed(x))
    }

    /** The direct dependencies of these expressions are nodes. */
    ghost predicate Closed(done: seq<Id>)
      reads this`nodes
    {
      forall x, y :: x in done && x in trace.exprs && trace.DependsOn(x, y) ==> y in nodes
    }

    /** The successor lists when `done` have been handled and the dependencies of `cur` in part. */
    ghost predicate Successors(done: seq<Id>, cur: Id, prevDone: bool, sourceDone: bool)
      requires (forall y :: y in done ==> y in trace.exprs) && cur in trace.exprs
      reads this`nodes, this`nextNodes
    {
      && (forall z :: z in nextNodes <==> z in nodes)
      && (forall z :: z in nextNodes ==>
            nextNodes[z] == Nexts(trace, done, z)
                            + (if prevDone && trace.Prev(cur) == Some(z) then [cur] else [])
                            + (if sourceDone && trace.Source(cur) == Some(z) then [cur] else []))
    }

    lemma NoEdgesYet(done: seq<Id>, z: Id)
      requires (forall x :: x in done ==> x in trace.exprs) && Closed(done) && z !in nodes
      ensures Nexts(trace, done, z) == []
    {
      NextsOfOther(trace, done, z);
    }

    static lemma {:induction false} NextsOfOther(t: Trace, done: seq<Id>, z: Id)
      requires forall x :: x in done ==> x in t.exprs && !t.DependsOn(x, z)
      ensures Nexts(t, done, z) == []
    {
      if done != [] {
        NextsOfOther(t, done[..|done| - 1], z);
        assert done[|done| - 1] in done;
      }
    }

    /** Record that `cur` depends on `x`, making x a node if it is not one yet. */
    method AddEdge(x: Id, cur: Id, visited: set<Id>) returns (visited': set<Id>)
      requires Found(visited) && trace.Needed(x) && x in trace.exprs
      requires forall y :: y in nodes <==> y in nextNodes
      modifies this`nodes, this`nextNodes
      ensures visited' == visited + {x} && Found(visited')
      ensures nodes == old(nodes) + if x in visited then [] else [x]
      ensures forall y :: y in nextNodes <==> y in nodes
      ensures nextNodes[x] == (if x in visited then old(nextNodes)[x] else []) + [cur]
      ensures forall y :: y in nextNodes && y != x ==> y in old(nextNodes) && nextNodes[y] == old(nextNodes)[y]
    {
      hide Trace.Needed, Trace.Valid;
      visited' := visited;
      if x !in visited' {
        visited' := visited' + {x};
        nodes := nodes + [x];
        nextNodes := nextNodes[x := []];
      } else {
        nodes := nodes + [];
      }
      nextNodes := nextNodes[x := nextNodes[x] + [cur]];
    }

    method LinkPrev(ghost done: seq<Id>, cur: Id, visited: set<Id>) returns (visited': set<Id>)
      requires Found(visited) && cur in visited && (forall y :: y in done ==> y in trace.exprs) && Closed(done)
      requires cur in trace.exprs && Successors(done, cur, false, false)
      modifies this`nodes, this`prevNode, this`nextNodes
      ensures Found(visited') && visited <= visited' && Closed(done)
      ensures old(nodes) <= nodes && (visited' == visited ==> nodes == old(nodes))
      ensures trace.Prev(cur).Some? ==> trace.Prev(cur).value in visited'
      ensures Successors(done, cur, true, false)
      ensures prevNode == if trace.Prev(cur).Some? then old(prevNode)[cur := trace.Prev(cur).value] else old(prevNode)
    {
      hide Nexts, Trace.Needed, NoDuplicates;
      visited' := visited;
      var prev := trace.Prev(cur);
      if prev.Some? {
        NeededStep(trace, cur, prev.value);
        if prev.value !in nodes { NoEdgesYet(done, prev.value); }
        visited' := AddEdge(prev.value, cur, visited');
        prevNode := prevNode[cur := prev.value];
      }
    }

    method LinkSource(ghost done: seq<Id>, cur: Id, visited: set<Id>) returns (visited': set<Id>)
      requires Found(visited) && cur in visited && (forall y :: y in done ==> y in trace.exprs) && Closed(done)
      requires cur in trace.exprs && Successors(done, cur, true, false)
      requires trace.Prev(cur).Some? ==> trace.Prev(cur).value in visited
      modifies this`nodes, this`sourceNode, this`nextNodes
      ensures Found(visited') && visited <= visited' && Closed(done)
      ensures old(nodes) <= nodes && (visited' == visited ==> nodes == old(nodes))
      ensures trace.Source(cur).Some? ==> trace.Source(cur).value in visited'
      ensures Successors(done, cur, true, true)
      ensures sourceNode == if trace.Source(cur).Some? then old(sourceNode)[cur := trace.Source(cur).value]
                            else old(sourceNode)
    {
      hide Nexts, Trace.Needed, NoDuplicates;
      visited' := visited;
      var source := trace.Source(cur);
      if source.Some? {
        NeededStep(trace, cur, source.value);
        if source.value !in nodes { NoEdgesYet(done, source.value); }
        visited' := AddEdge(source.value, cur, visited');
        sourceNode := sourceNode[cur := source.value];
      }
    }

    /** One round of the worklist, without the stream names: link the dependencies of node `head`. */
    method LinkNode(head: nat, visited: set<Id>) returns (visited': set<Id>)
      requires Found(visited) && head < |nodes| && Closed(nodes[..head]) && Linked(nodes[..head])
      modifies this`nodes, this`prevNode, this`sourceNode, this`nextNodes
      ensures Found(visited') && head < |nodes| && Closed(nodes[..head + 1]) && Linked(nodes[..head + 1])
      ensures visited <= visited' <= trace.exprs.Keys
      ensures old(nodes) <= nodes && (visited' == visited ==> nodes == old(nodes))
    {
      hide Nexts, Trace.Needed, NoDuplicates, Closed, Successors, Linked, LinksAre, Trace.Valid;
      var cur := nodes[head];
      ghost var done := nodes[..head];
      Handling(visited, head);
      visited' := LinkPrev(done, cur, visited);
      visited' := LinkSource(done, cur, visited');
      Handled(visited', done, cur, old(prevNode), old(sourceNode));
      assert nodes[..head + 1] == done + [cur];
    }

    lemma Handling(visited: set<Id>, head: nat)
      requires Found(visited) && head < |nodes| && Closed(nodes[..head]) && Linked(nodes[..head])
      ensures nodes[head] in visited && nodes[head] in trace.exprs && trace.Valid()
      ensures forall y :: y in nodes[..head] ==> y in trace.exprs
      ensures Successors(nodes[..head], nodes[head], false, false)
      ensures LinksAre(prevNode, sourceNode, nodes[..head])
    {
      hide Nexts, Trace.Needed;
      assert nodes[head] in nodes;
    }

    lemma Handled(visited: set<Id>, done: seq<Id>, cur: Id, prevBefore: map<Id, Id>, sourceBefore: map<Id, Id>)
      requires Found(visited) && (forall y :: y in done ==> y in trace.exprs) && cur in trace.exprs
      requires Closed(done) && Successors(done, cur, true, true)
      requires trace.Prev(cur).Some? ==> trace.Prev(cur).value in visited
      requires trace.Source(cur).Some? ==> trace.Source(cur).value in visited
      requires LinksAre(prevBefore, sourceBefore, done)
      requires prevNode == if trace.Prev(cur).Some? then prevBefore[cur := trace.Prev(cur).value] else prevBefore
      requires sourceNode == if trace.Source(cur).Some? then sourceBefore[cur := trace.Source(cur).value] else sourceBefore
      ensures Closed(done + [cur]) && Linked(done + [cur])
    {
      hide Trace.Needed, NoDuplicates, Nexts;
      forall z | z in nextNodes ensures nextNodes[z] == Nexts(trace, done + [cur], z) {
        NextsStep(trace, done, cur, z);
      }
    }

    static lemma NextsStep(t: Trace, done: seq<Id>, cur: Id, z: Id)
      requires (forall y :: y in done ==> y in t.exprs) && cur in t.exprs
      ensures Nexts(t, done + [cur], z) == Nexts(t, done, z) + (if t.Prev(cur) == Some(z) then [cur] else [])
                                           + (if t.Source(cur) == Some(z) then [cur] else [])
    {
      assert (done + [cur])[..|done|] == done;
      var all, p, s := Nexts(t, done, z), if t.Prev(cur) == Some(z) then [cur] else [], if t.Source(cur) == Some(z) then [cur] else [];
      assert all + (p + s) == all + p + s;
    }

    /** The renaming after `done`: old streams to consecutive numbers, in the order they were met. */
    ghost predicate Renamed(rename: map<Option<string>, nat>, done: seq<Id>)
      reads this`pid
    {
      && (forall x :: x in pid <==> x in done)
      && (forall x :: x in done ==> x in trace.exprs && trace.exprs[x].pid in rename && pid[x] == rename[trace.exprs[x].pid])
      && (forall u, v :: u in rename && v in rename && rename[u] == rename[v] ==> u == v)
      && (forall u :: u in rename ==> rename[u] < |rename|)
      && (forall k: nat :: k < |rename| ==> StreamUsed(k))
      && (done != [] ==> pid[done[0]] == 0)
    }

    method RenameStream(cur: Id, ghost done: seq<Id>, rename: map<Option<string>, nat>)
      returns (rename': map<Option<string>, nat>)
      requires cur in trace.exprs && cur !in done && Renamed(rename, done) && (done == [] ==> rename == map[])
      modifies this`pid
      ensures Renamed(rename', done + [cur])
    {
      var old' := trace.exprs[cur].pid;
      rename' := rename;
      if old' !in rename' {
        rename' := rename'[old' := |rename'|];
      }
      ghost var before := pid;
      pid := pid[cur := rename'[old']];
      forall k: nat | k < |rename'| ensures StreamUsed(k) {
        if k < |rename| {
          assert old(StreamUsed(k));
          var y :| y in before && before[y] == k;
          assert y in pid && pid[y] == k;
        } else {
          assert pid[cur] == k;
        }
      }
    }

    method BuildGraph()
      requires trace.Valid()
      modifies this`nodes, this`prevNode, this`sourceNode, this`nextNodes, this`pid
      ensures GraphBuilt() && StreamsRenamed()
    {
      hide *;
      nodes, prevNode, sourceNode := [trace.lastNode], map[], map[];
      nextNodes, pid := map[trace.lastNode := []], map[];
      var renamePid: map<Option<string>, nat> := map[];
      var visited := {trace.lastNode};
      var head := 0;
      OneNode(renamePid);
      while head < |nodes|
        invariant head <= |nodes| && Found(visited)
        invariant Closed(nodes[..head]) && Linked(nodes[..head]) && Renamed(renamePid, nodes[..head])
        invariant head == 0 ==> renamePid == map[]
        decreases trace.exprs.Keys - visited, |nodes| - head
      {
        ghost var done := nodes[..head];
        var cur := nodes[head];
        Unhandled(visited, head);
        if head == 0 { assert done == []; }
        visited := LinkNode(head, visited);
        assert nodes[..head] == done && nodes[head] == cur && nodes[..head + 1] == done + [cur];
        renamePid := RenameStream(cur, done, renamePid);
        head := head + 1;
      }
      Finished(visited, renamePid);
    }

    lemma OneNode(rename: map<Option<string>, nat>)
      requires trace.Valid() && nodes == [trace.lastNode] && prevNode == map[] && sourceNode == map[]
      requires nextNodes == map[trace.lastNode := []] && pid == map[] && rename == map[]
      ensures Found({trace.lastNode}) && Closed(nodes[..0]) && Linked(nodes[..0]) && Renamed(rename, nodes[..0])
    {
      hide Trace.Needed;
      LastIsNeeded(trace);
    }

    lemma Unhandled(visited: set<Id>, head: nat)
      requires Found(visited) && head < |nodes|
      ensures nodes[head] !in nodes[..head] && nodes[head] in trace.exprs && visited <= trace.exprs.Keys
    {
      assert nodes[head] in nodes;
    }

    lemma Finished(visited: set<Id>, rename: map<Option<string>, nat>)
      requires Found(visited) && Closed(nodes[..|nodes|]) && Linked(nodes[..|nodes|]) && Renamed(rename, nodes[..|nodes|])
      ensures GraphBuilt() && StreamsRenamed()
    {
      assert nodes[..|nodes|] == nodes;
      assert nodes[0] in nodes;
      forall x | trace.Needed(x) ensures x in nodes {
        var p :| trace.Path(p) && p[|p| - 1] == x;
        ClosedHoldsPath(trace, nodes, p);
      }
    }

    /** The state of the sort: counters of missing dependencies, ready expressions, and the order so far. */
    ghost predicate Sorting(all: seq<Id>, prevd: map<Id, nat>, cand: seq<Id>, newList: seq<Id>) {
      && (forall x :: x in all <==> x in prevd)
      && (forall x :: x in all ==> x in trace.exprs && prevd[x] == Missing(trace, x, newList))
      && ReadyKnown(all, prevd, cand, newList)
      && Ordered(trace, newList)
    }

    /** The expressions without missing dependencies are those that are placed or waiting in the queue, each once. */
    ghost predicate ReadyKnown(all: seq<Id>, prevd: map<Id, nat>, cand: seq<Id>, newList: seq<Id>) {
      && NoDuplicates(newList + cand)
      && (forall x :: x in newList + cand ==> x in all)
      && (forall x :: x in all && x in prevd ==> (prevd[x] == 0 <==> x in newList || x in cand))
    }

    /** Take one expression off the queue and release the expressions that depend on it. */
    method Place(all: seq<Id>, prevd: map<Id, nat>, cand: seq<Id>, newList: seq<Id>)
      returns (prevd': map<Id, nat>, cand': seq<Id>, newList': seq<Id>)
      requires NoDuplicates(all) && (forall x :: x in all ==> x in trace.exprs)
      requires forall x :: x in all ==> x in nextNodes && nextNodes[x] == Nexts(trace, all, x)
      requires cand != [] && Sorting(all, prevd, cand, newList)
      ensures Sorting(all, prevd', cand', newList') && newList' == newList + [cand[0]]
    {
      hide Nexts, Missing, Edges, Ordered, NoDuplicates;
      var h := cand[0];
      HeadOfQueue(cand, newList);
      newList' := newList + [h];
      assert newList + cand == newList' + cand[1..];
      assert h in newList + cand;
      var list := nextNodes[h];
      forall x | x in all ensures prevd[x] == Missing(trace, x, newList') + multiset(list)[x] {
        MissingStep(trace, x, newList, h);
        NextsCount(trace, all, h, x);
      }
      forall x ensures multiset(list)[x] > 0 ==> x in all { NextsCount(trace, all, h, x); }
      prevd', cand' := Release(all, list, prevd, cand[1..], newList');
      OrderedStep(newList, h);
    }

    lemma HeadOfQueue(cand: seq<Id>, newList: seq<Id>)
      requires cand != [] && NoDuplicates(newList + cand)
      ensures cand[0] !in newList
    {
      assert (newList + cand)[|newList|] == cand[0];
      forall i | 0 <= i < |newList| ensures newList[i] != cand[0] { assert (newList + cand)[i] == newList[i]; }
    }

    /** Decrement the counter of every entry of a successor list; queue those that reach zero. */
    method Release(all: seq<Id>, list: seq<Id>, prevd: map<Id, nat>, cand: seq<Id>, newList: seq<Id>)
      returns (prevd': map<Id, nat>, cand': seq<Id>)
      requires forall x :: x in all <==> x in prevd
      requires forall x :: x in all ==> prevd[x] >= multiset(list)[x]
      requires forall x :: multiset(list)[x] > 0 ==> x in all
      requires ReadyKnown(all, prevd, cand, newList)
      ensures forall x :: x in all <==> x in prevd'
      ensures forall x :: x in all ==> prevd'[x] == prevd[x] - multiset(list)[x]
      ensures ReadyKnown(all, prevd', cand', newList)
    {
      hide ReadyKnown;
      prevd', cand' := prevd, cand;
      assert list[0..] == list;
      for k := 0 to |list|
        invariant forall x :: x in all <==> x in prevd'
        invariant forall x :: x in all ==> prevd'[x] == prevd[x] - multiset(list)[x] + multiset(list[k..])[x]
        invariant ReadyKnown(all, prevd', cand', newList)
      {
        var x := list[k];
        assert x in multiset(list) && x in all;
        assert list[k..] == [x] + list[k + 1..];
        ReleaseOne(all, prevd', cand', newList, x);
        prevd' := prevd'[x := prevd'[x] - 1];
        if prevd'[x] == 0 {
          cand' := cand' + [x];
        }
      }
      assert list[|list|..] == [];
    }

    lemma ReleaseOne(all: seq<Id>, prevd: map<Id, nat>, cand: seq<Id>, newList: seq<Id>, x: Id)
      requires ReadyKnown(all, prevd, cand, newList) && x in all && x in prevd && prevd[x] > 0
      ensures ReadyKnown(all, prevd[x := prevd[x] - 1], if prevd[x] == 1 then cand + [x] else cand, newList)
    {
      if prevd[x] == 1 {
        assert newList + (cand + [x]) == (newList + cand) + [x];
      }
    }

    lemma OrderedStep(newList: seq<Id>, h: Id)
      requires Ordered(trace, newList) && h in trace.exprs && Missing(trace, h, newList) == 0
      ensures Ordered(trace, newList + [h])
    {
      forall k | 0 <= k < |newList + [h]|
        ensures (newList + [h])[k] in trace.exprs && Missing(trace, (newList + [h])[k], (newList + [h])[..k]) == 0
      {
        assert (newList + [h])[..k] == newList[..k];
        if k == |newList| { assert newList[..k] == newList; }
      }
    }

    /** The initial counters, and the expressions without dependencies. */
    method CountDependencies() returns (prevd: map<Id, nat>, cand: seq<Id>)
      requires trace.Valid() && NoDuplicates(nodes) && Linked(nodes)
      ensures forall x :: x in prevd <==> x in nodes
      ensures forall x :: x in nodes ==> x in trace.exprs && prevd[x] == Missing(trace, x, [])
      ensures NoDuplicates(cand) && forall x :: x in cand <==> x in nodes && Missing(trace, x, []) == 0
    {
      hide Missing, Linked;
      NodesTraced();
      prevd, cand := map[], [];
      for i := 0 to |nodes|
        invariant forall x :: x in prevd <==> x in nodes[..i]
        invariant forall x :: x in prevd ==> x in nodes && prevd[x] == Missing(trace, x, [])
        invariant NoDuplicates(cand)
        invariant forall x :: x in cand <==> x in nodes[..i] && x in nodes && Missing(trace, x, []) == 0
      {
        var x := nodes[i];
        assert x in nodes && x !in nodes[..i];
        assert nodes[..i + 1] == nodes[..i] + [x];
        prevd := prevd[x := (if x in prevNode then 1 else 0) + (if x in sourceNode then 1 else 0)];
        NothingPlaced(nodes, x);
        if prevd[x] == 0 {
          cand := cand + [x];
        }
      }
      assert nodes[..|nodes|] == nodes;
    }

    lemma NodesTraced()
      requires trace.Valid() && Linked(nodes)
      ensures forall x :: x in nodes ==> x in trace.exprs
    {
    }

    lemma NodesClosed()
      requires GraphBuilt()
      ensures forall x, y :: x in nodes && x in trace.exprs && trace.DependsOn(x, y) ==> y in nodes
    {
      hide Trace.Needed, Linked;
      forall x, y | x in nodes && x in trace.exprs && trace.DependsOn(x, y) ensures y in nodes {
        NeededStep(trace, x, y);
      }
    }

    lemma StartSorting(all: seq<Id>, prevd: map<Id, nat>, cand: seq<Id>)
      requires forall x :: x in prevd <==> x in all
      requires forall x :: x in all ==> x in trace.exprs && prevd[x] == Missing(trace, x, [])
      requires NoDuplicates(cand) && forall x :: x in cand <==> x in all && Missing(trace, x, []) == 0
      ensures Sorting(all, prevd, cand, [])
    {
      hide Missing;
      assert [] + cand == cand;
    }

    lemma EndSorting(all: seq<Id>, prevd: map<Id, nat>, newList: seq<Id>)
      requires Sorting(all, prevd, [], newList)
      ensures NoDuplicates(newList) && Ordered(trace, newList) && (forall x :: x in newList ==> x in all)
      ensures forall x :: x in all ==> x in trace.exprs && (Missing(trace, x, newList) == 0 <==> x in newList)
    {
      hide Missing, Ordered;
      assert newList + [] == newList;
    }

    /** Kahn's sort. It keeps exactly the nodes from which no cycle is reached, so all of them exactly
        when their dependencies are acyclic. */
    method TopologicalSort()
      requires GraphBuilt()
      modifies this`nodes
      ensures NoDuplicates(nodes) && Ordered(trace, nodes)
      ensures forall x :: x in nodes <==> x in old(nodes) && !ReachesCycle(trace, x)
      ensures forall x :: x in old(nodes) && x in trace.exprs && Missing(trace, x, nodes) == 0 ==> x in nodes
      ensures |nodes| == |old(nodes)| <==> Acyclic(trace, old(nodes))
      ensures Acyclic(trace, old(nodes)) ==> forall x :: x in nodes <==> trace.Needed(x)
    {
      hide Missing, Nexts, Trace.Needed, Ordered, Acyclic, Sorting, ReachesCycle;
      NodesClosed();
      var all := nodes;
      var prevd, cand := CountDependencies();
      var newList: seq<Id> := [];
      StartSorting(all, prevd, cand);
      while |cand| > 0
        invariant nodes == all && Sorting(all, prevd, cand, newList)
        decreases |all| - |newList|
      {
        prevd, cand, newList := Place(all, prevd, cand, newList);
        PlacedWithin(all, prevd, cand, newList);
      }
      EndSorting(all, prevd, newList);
      SortComplete(all, newList);
      nodes := newList;
    }

    lemma NothingPlaced(all: seq<Id>, x: Id)
      requires trace.Valid() && nodes == all && Linked(all) && x in all
      ensures x in trace.exprs
      ensures Missing(trace, x, []) == (if x in prevNode then 1 else 0) + (if x in sourceNode then 1 else 0)
    {
    }

    lemma PlacedWithin(all: seq<Id>, prevd: map<Id, nat>, cand: seq<Id>, newList: seq<Id>)
      requires Sorting(all, prevd, cand, newList)
      ensures |newList| <= |all|
    {
      hide Missing, Ordered;
      forall i, j | 0 <= i < j < |newList| ensures newList[i] != newList[j] {
        assert (newList + cand)[i] == newList[i] && (newList + cand)[j] == newList[j];
      }
      forall x | x in newList ensures x in all { assert x in newList + cand; }
      DistinctWithin(newList, all);
    }

    lemma SortComplete(all: seq<Id>, newList: seq<Id>)
      requires NoDuplicates(all) && NoDuplicates(newList) && Ordered(trace, newList)
      requires forall x :: x in newList ==> x in all
      requires forall x, y :: x in all && x in trace.exprs && trace.DependsOn(x, y) ==> y in all
      requires forall x :: x in all ==> x in trace.exprs && (Missing(trace, x, newList) == 0 <==> x in newList)
      ensures |newList| == |all| <==> Acyclic(trace, all)
      ensures Acyclic(trace, all) ==> forall x :: x in newList <==> x in all
      ensures forall x :: x in newList <==> x in all && !ReachesCycle(trace, x)
    {
      hide Ordered, Missing, ReachesCycle, Trace.DependsOn;
      assert Stuck(trace, all, newList);
      forall x | x in all ensures x in newList <==> !ReachesCycle(trace, x) {
        if x in newList { OrderedHasNoCycle(trace, newList, x); } else { StuckReachesCycle(trace, all, newList, x); }
      }
      if Acyclic(trace, all) {
        var rank :| Ranks(trace, all, rank);
        forall x | x in all ensures x in newList { AllPlaced(trace, all, newList, rank, x); }
        DistinctWithin(all, newList);
        DistinctWithin(newList, all);
      }
      if |newList| == |all| {
        SameSize(newList, all);
        OrderRanks(trace, all, newList);
      }
    }
  }

  /** A sequence without duplicates is no longer than a sequence that holds its elements. */
  lemma {:induction false} DistinctWithin<T>(s: seq<T>, r: seq<T>)
    requires NoDuplicates(s) && forall x :: x in s ==> x in r
    ensures |s| <= |r|
  {
    if s != [] {
      var n := |s| - 1;
      assert s[n] in s;
      var k :| 0 <= k < |r| && r[k] == s[n];
      var r' := r[..k] + r[k + 1..];
      forall x | x in s[..n] ensures x in r' {
        var i :| 0 <= i < n && s[i] == x;
        assert x in s;
        var l :| 0 <= l < |r| && r[l] == x;
        if l < k { assert r'[l] == x; } else { assert r'[l - 1] == x; }
      }
      DistinctWithin(s[..n], r');
    }
  }

  /** Equally many distinct elements of r are all of its elements. */
  lemma SameSize<T>(s: seq<T>, r: seq<T>)
    requires NoDuplicates(s) && NoDuplicates(r) && (forall x :: x in s ==> x in r) && |s| == |r|
    ensures forall x :: x in r ==> x in s
  {
    forall x | x in r ensures x in s {
      if x !in s {
        var t := s + [x];
        DistinctWithin(t, r);
      }
    }
  }

  /** By induction on the rank: an expression whose dependencies are placed is placed. */
  lemma {:induction false} AllPlaced(t: Trace, all: seq<Id>, newList: seq<Id>, rank: map<Id, nat>, x: Id)
    requires Ranks(t, all, rank) && x in all
    requires forall y :: y in all ==> y in t.exprs && (Missing(t, y, newList) == 0 <==> y in newList)
    requires forall y, z :: y in all && y in t.exprs && t.DependsOn(y, z) ==> z in all
    ensures x in newList
    decreases if x in rank then rank[x] else 0
  {
    if t.Prev(x).Some? {
      assert t.DependsOn(x, t.Prev(x).value);
      AllPlaced(t, all, newList, rank, t.Prev(x).value);
    }
    if t.Source(x).Some? {
      assert t.DependsOn(x, t.Source(x).value);
      AllPlaced(t, all, newList, rank, t.Source(x).value);
    }
  }

  function RankOf(order: seq<Id>): map<Id, nat> {
    if order == [] then map[] else RankOf(order[..|order| - 1])[order[|order| - 1] := |order| - 1]
  }

  lemma {:induction false} RankIsIndex(order: seq<Id>, k: nat)
    requires NoDuplicates(order) && k < |order|
    ensures order[k] in RankOf(order) && RankOf(order)[order[k]] == k
  {
    if k < |order| - 1 { RankIsIndex(order[..|order| - 1], k); }
  }

  /** The positions in an order rank its elements. */
  lemma OrderRanks(t: Trace, all: seq<Id>, order: seq<Id>)
    requires NoDuplicates(order) && Ordered(t, order) && forall x :: x in all ==> x in order
    ensures Acyclic(t, all)
  {
    var rank := RankOf(order);
    forall x, y | x in all && x in t.exprs && t.DependsOn(x, y)
      ensures x in rank && y in rank && rank[y] < rank[x]
    {
      var k :| 0 <= k < |order| && order[k] == x;
      assert y in order[..k];
      var l :| 0 <= l < k && order[l] == y;
      RankIsIndex(order, k);
      RankIsIndex(order, l);
    }
    assert Ranks(t, all, rank);
  }

  /** Placing h resolves exactly the dependencies on h. */
  lemma MissingStep(t: Trace, x: Id, placed: seq<Id>, h: Id)
    requires x in t.exprs && h !in placed
    ensures Missing(t, x, placed) == Missing(t, x, placed + [h]) + Edges(t, x, h)
  {
  }

  lemma NeededStep(t: Trace, x: Id, y: Id)
    requires t.Valid() && t.Needed(x) && x in t.exprs && t.DependsOn(x, y)
    ensures t.Needed(y)
  {
    var p :| t.Path(p) && p[|p| - 1] == x;
    assert t.Path(p + [y]);
    assert (p + [y])[|p|] == y;
  }

  lemma LastIsNeeded(t: Trace)
    requires t.Valid()
    ensures t.Needed(t.lastNode)
  {
    assert t.Path([t.lastNode]);
  }

  /** A set of expressions that holds the last one and is closed under dependencies holds all needed ones. */
  lemma {:induction false} ClosedHoldsPath(t: Trace, nodes: seq<Id>, p: seq<Id>)
    requires t.Valid() && t.lastNode in nodes && t.Path(p)
    requires forall x, y :: x in nodes && x in t.exprs && t.DependsOn(x, y) ==> y in nodes
    ensures p[|p| - 1] in nodes
  {
    if |p| > 1 {
      var q := p[..|p| - 1];
      assert t.Path(q);
      ClosedHoldsPath(t, nodes, q);
      assert t.DependsOn(p[|p| - 2], p[|p| - 1]);
    }
  }

  // ---- A cycle ----

  /** gen("a"), then the variable a, then gen("a") again: the recorded variable of that name is the
      second generation, so the variable, which comes before it, depends on it. */
  function ReusedName(): Trace {
    Trace(map[0 := Expr(None, Gen(Some("a")), Some("s")), 1 := Expr(Some(0), Variable("a", 0), Some("s")),
              2 := Expr(Some(1), Gen(Some("a")), Some("s"))], map["a" := 2], 2)
  }

  /** No order places all three expressions. */
  lemma ReusedNameIsCyclic()
    ensures ReusedName().Valid() && ReusedName().Needed(1) && ReusedName().Needed(2)
    ensures !exists all :: 1 in all && 2 in all && Acyclic(ReusedName(), all)
  {
    var t := ReusedName();
    assert t.Path([2]) && [2][|[2]| - 1] == 2;
    assert t.Path([2, 1]) && [2, 1][|[2, 1]| - 1] == 1;
    forall all | 1 in all && 2 in all ensures !Acyclic(t, all) {
      assert t.DependsOn(1, 2) && t.DependsOn(2, 1);
    }
  }
}
