/** When the order that the compiler picks does not matter. */
module CompiledPrograms {
  import opened Options
  import opened ProgramGraph
  import opened StreamWorkers
  import opened StreamRuns

  // ---- Dependencies and positions ----

  /** What an expression depends on comes before it. */
  lemma ReachedBefore(p: Program, k: nat, y: Id)
    requires p.Arranged() && k < |p.order| && Reaches(p.trace, p.order[k], y)
    ensures y in p.order[..k]
  {
    hide Reaches;
    ReachedEarlier(p.trace, p.order, k, y);
  }

  lemma SamePosition(p: Program, j: nat, k: nat)
    requires p.Arranged() && j < |p.order| && k < |p.order| && p.order[j] == p.order[k]
    ensures j == k
  {
    hide Ordered, Trace.Valid;
  }

  lemma NotBoth(p: Program, x: Id, y: Id)
    requires p.Arranged() && x in p.order && y in p.order
    ensures !(Reaches(p.trace, x, y) && Reaches(p.trace, y, x))
  {
    hide Program.Arranged, Reaches;
    if Reaches(p.trace, x, y) && Reaches(p.trace, y, x) {
      var k :| 0 <= k < |p.order| && p.order[k] == x;
      ReachedBefore(p, k, y);
      var j :| 0 <= j < k && p.order[j] == y;
      ReachedBefore(p, j, x);
      var i :| 0 <= i < j && p.order[i] == x;
      SamePosition(p, i, k);
    }
  }

  // ---- Sorted lists ----

  /** Each element depends on those before it. */
  ghost predicate Sorted(t: Trace, f: seq<Id>) {
    forall a, b :: 0 <= a < b < |f| ==> Reaches(t, f[b], f[a])
  }

  /** Lists of the same expressions that are sorted by their dependencies are equal. */
  lemma {:induction false} SortedEqual(p: Program, f: seq<Id>, g: seq<Id>)
    requires p.Arranged() && Sorted(p.trace, f) && Sorted(p.trace, g)
    requires NoDuplicates(f) && NoDuplicates(g) && (forall x :: x in f <==> x in g) && forall x :: x in f ==> x in p.order
    ensures f == g
    decreases |f|
  {
    hide Program.Arranged, Reaches, NoDuplicates, Sorted;
    assert g != [] ==> g[0] in g;
    if f != [] {
      assert f[0] in g;
      var n, m := |f| - 1, |g| - 1;
      LastSame(p, f, g);
      assert f == f[..n] + [f[n]] && g == g[..m] + [g[m]];
      WithoutLast(f[..n], g[..m], f[n]);
      SortedPrefix(p.trace, f, n);
      SortedPrefix(p.trace, g, m);
      SortedEqual(p, f[..n], g[..m]);
    }
  }

  lemma SortedPrefix(t: Trace, f: seq<Id>, n: nat)
    requires Sorted(t, f) && n <= |f|
    ensures Sorted(t, f[..n])
  {
    hide Reaches;
  }

  lemma LastSame(p: Program, f: seq<Id>, g: seq<Id>)
    requires p.Arranged() && f != [] && g != [] && Sorted(p.trace, f) && Sorted(p.trace, g)
    requires (forall x :: x in f <==> x in g) && forall x :: x in f ==> x in p.order
    ensures f[|f| - 1] == g[|g| - 1]
  {
    hide Program.Arranged, Reaches;
    var n, m := |f| - 1, |g| - 1;
    assert f[n] in f && f[n] in g;
    assert g[m] in g && g[m] in f;
    var i :| 0 <= i <= m && g[i] == f[n];
    var j :| 0 <= j <= n && f[j] == g[m];
    if i < m && j < n { NotBoth(p, f[n], g[m]); }
  }

  lemma WithoutLast(f: seq<Id>, g: seq<Id>, x: Id)
    requires NoDuplicates(f + [x]) && NoDuplicates(g + [x]) && forall y :: y in f + [x] <==> y in g + [x]
    ensures NoDuplicates(f) && NoDuplicates(g) && forall y :: y in f <==> y in g
    ensures forall y :: y in f ==> y in f + [x]
  {
    var fx, gx := f + [x], g + [x];
    assert forall i :: 0 <= i < |f| ==> fx[i] == f[i];
    assert forall i :: 0 <= i < |g| ==> gx[i] == g[i];
    assert fx[|f|] == x && gx[|g|] == x;
    forall y ensures y in f <==> y in g {
      assert (y in f || y == x <==> y in fx) && (y in g || y == x <==> y in gx);
    }
  }

  // ---- The order does not matter for connected streams ----

  /** Any two expressions of one stream depend on each other, one way or the other. */
  ghost predicate Connected(p: Program) {
    forall x, y :: x in p.order && y in p.order && x != y && p.StreamOf(x) == p.StreamOf(y) ==>
      Reaches(p.trace, x, y) || Reaches(p.trace, y, x)
  }

  /** Two programs that differ in nothing but the order in which the compiler sorted the expressions. */
  ghost predicate SameProgram(p: Program, q: Program) {
    && p.Valid() && q.Valid() && q == p.(order := q.order)
    && forall x :: x in p.order <==> x in q.order
  }

  /** The expressions of a stream before position n. */
  function Members(p: Program, n: nat, s: nat): (f: seq<Id>)
    requires n <= |p.order|
    ensures forall x :: x in f ==> x in p.order[..n] && p.StreamOf(x) == s
  {
    if n == 0 then []
    else
      assert forall x :: x in p.order[..n - 1] ==> x in p.order[..n];
      assert p.order[..n][n - 1] in p.order[..n];
      Members(p, n - 1, s) + if p.StreamAt(n - 1) == s then [p.order[n - 1]] else []
  }

  lemma {:induction false} MembersAll(p: Program, n: nat, s: nat, k: nat)
    requires k < n <= |p.order| && p.StreamAt(k) == s
    ensures p.order[k] in Members(p, n, s)
  {
    if k < n - 1 { MembersAll(p, n - 1, s, k); }
  }

  lemma {:induction false} MembersSorted(p: Program, n: nat, s: nat)
    requires p.Arranged() && Connected(p) && n <= |p.order|
    ensures Sorted(p.trace, Members(p, n, s)) && NoDuplicates(Members(p, n, s))
  {
    hide Program.Arranged, Connected, Reaches, Program.StreamOf;
    if n > 0 {
      MembersSorted(p, n - 1, s);
      var f, x := Members(p, n - 1, s), p.order[n - 1];
      if p.StreamAt(n - 1) == s {
        forall a | 0 <= a < |f| ensures f[a] != x && Reaches(p.trace, x, f[a]) {
          assert f[a] in f;
          var j :| 0 <= j < n - 1 && p.order[j] == f[a];
          LaterDepends(p, j, n - 1);
        }
      }
    }
  }

  lemma LaterDepends(p: Program, j: nat, k: nat)
    requires p.Arranged() && Connected(p) && j < k < |p.order| && p.StreamAt(j) == p.StreamAt(k)
    ensures p.order[j] != p.order[k] && Reaches(p.trace, p.order[k], p.order[j])
  {
    hide Program.Arranged, Reaches;
    if p.order[j] == p.order[k] { SamePosition(p, j, k); }
    if Reaches(p.trace, p.order[j], p.order[k]) {
      ReachedBefore(p, j, p.order[k]);
      var i :| 0 <= i < j && p.order[i] == p.order[k];
      SamePosition(p, i, k);
    }
  }

  /** What comes before an expression in its stream comes before it under every order. */
  lemma SameMembersBefore(p: Program, q: Program, i: nat, j: nat)
    requires SameProgram(p, q) && Connected(p) && i < |p.order| && j < |q.order| && p.order[i] == q.order[j]
    ensures forall y :: y in Members(p, i, p.StreamAt(i)) ==> y in p.order && y in Members(q, j, q.StreamAt(j))
  {
    hide Program.Arranged, Connected, Reaches, Members;
    forall y | y in Members(p, i, p.StreamAt(i)) ensures y in p.order && y in Members(q, j, q.StreamAt(j)) {
      var k :| 0 <= k < i && p.order[k] == y;
      LaterDepends(p, k, i);
      ReachedBefore(q, j, y);
      var l :| 0 <= l < j && q.order[l] == y;
      MembersAll(q, j, q.StreamAt(j), l);
    }
  }

  lemma SameMembers(p: Program, q: Program, i: nat, j: nat)
    requires SameProgram(p, q) && Connected(p) && i < |p.order| && j < |q.order| && p.order[i] == q.order[j]
    ensures Members(p, i, p.StreamAt(i)) == Members(q, j, q.StreamAt(j))
  {
    hide SameProgram, Connected, Members, Sorted, NoDuplicates, Program.StreamAt;
    Symmetric(p, q);
    SameMembersBefore(p, q, i, j);
    SameMembersBefore(q, p, j, i);
    MembersSorted(p, i, p.StreamAt(i));
    MembersSorted(q, j, q.StreamAt(j));
    SortedEqual(p, Members(p, i, p.StreamAt(i)), Members(q, j, q.StreamAt(j)));
  }

  lemma Symmetric(p: Program, q: Program)
    requires SameProgram(p, q) && Connected(p)
    ensures SameProgram(q, p) && Connected(q) && p.Valid() && q.Valid() && p.trace == q.trace
  {
    hide Program.Arranged, Connected;
    ConnectedToo(p, q);
  }

  lemma ConnectedToo(p: Program, q: Program)
    requires SameProgram(p, q) && Connected(p)
    ensures Connected(q)
  {
    hide Program.Arranged, Reaches;
  }

  /** An expression means the same under both orders. */
  lemma {:induction false} SameOut(p: Program, q: Program, i: nat, j: nat)
    requires SameProgram(p, q) && Connected(p) && NoneBad(p, |p.order|) && NoneBad(q, |q.order|)
    requires i < |p.order| && j < |q.order| && p.order[i] == q.order[j]
    ensures Out(p, i) == Out(q, j)
    decreases i, 1, j
  {
    hide Program.Arranged, Connected, NoneBad, Definer, Out, StreamText, Members, Program.SourceStream;
    SameMembers(p, q, i, j);
    SameText(p, q, i, j, p.StreamAt(i));
    if p.KindAt(i).Variable? {
      var d, e := SameDefiner(p, q, i, j);
      SameOut(p, q, d, e);
    }
    OutAlike(p, q, i, j);
  }

  /** The output of an expression is determined by its kind, the text before it and its definer's output. */
  lemma OutAlike(p: Program, q: Program, i: nat, j: nat)
    requires q == p.(order := q.order) && i < |p.order| && j < |q.order| && p.order[i] == q.order[j]
    requires StreamText(p, i, p.StreamAt(i)) == StreamText(q, j, q.StreamAt(j))
    requires p.KindAt(i).Variable? ==>
               var d, e := Definer(p, i, p.SourceStream(i), p.KindAt(i).name), Definer(q, j, q.SourceStream(j), q.KindAt(j).name);
               d.Some? && e.Some? && Out(p, d.value) == Out(q, e.value)
    ensures Out(p, i) == Out(q, j)
  {
    hide StreamText, Definer, Program.StreamAt;
  }

  /** What a variable finds is the same under both orders: the name has one definer in the stream, or
      several, all before the variable in its own stream, and then the last of them is the same. */
  lemma SameDefiner(p: Program, q: Program, i: nat, j: nat) returns (d: nat, e: nat)
    requires SameProgram(p, q) && Connected(p) && NoneBad(p, |p.order|) && NoneBad(q, |q.order|)
    requires i < |p.order| && j < |q.order| && p.order[i] == q.order[j] && p.KindAt(i).Variable?
    ensures Definer(p, i, p.SourceStream(i), p.KindAt(i).name) == Some(d) && d < i
    ensures Definer(q, j, q.SourceStream(j), q.KindAt(j).name) == Some(e) && e < j
    ensures p.order[d] == q.order[e]
  {
    hide Program.Arranged, Program.LookupsClear, Connected, Reaches;
    assert !Bad(p, i) && !Bad(q, j);
    var name, r := p.KindAt(i).name, p.SourceStream(i);
    d, e := Definer(p, i, r, name).value, Definer(q, j, r, name).value;
    var c := LaterDefiner(p, q, i, j, d, e);
    ConnectedToo(p, q);
    var b := LaterDefiner(q, p, j, i, e, d);
    if p.order[d] != q.order[e] {
      assert c != e && b != d;
      LaterDepends(q, c, e);
      LaterDepends(p, b, d);
      NotBoth(p, p.order[d], q.order[e]);
    }
  }

  /** The definer that p finds is not later, in q's order, than the one that q finds. */
  lemma LaterDefiner(p: Program, q: Program, i: nat, j: nat, d: nat, e: nat) returns (c: nat)
    requires SameProgram(p, q) && i < |p.order| && j < |q.order| && p.order[i] == q.order[j] && p.KindAt(i).Variable?
    requires Definer(p, i, p.SourceStream(i), p.KindAt(i).name) == Some(d)
    requires Definer(q, j, q.SourceStream(j), q.KindAt(j).name) == Some(e)
    ensures c <= e < |q.order| && d < |p.order| && q.order[c] == p.order[d] && q.StreamAt(c) == q.StreamAt(e)
  {
    hide Program.Arranged;
    assert p.order[d] in q.order;
    c :| 0 <= c < |q.order| && q.order[c] == p.order[d];
    assert q.Defines(c, q.SourceStream(j), q.KindAt(j).name) && q.Defines(e, q.SourceStream(j), q.KindAt(j).name);
  }

  lemma {:induction false} SameText(p: Program, q: Program, n: nat, m: nat, s: nat)
    requires SameProgram(p, q) && Connected(p) && NoneBad(p, |p.order|) && NoneBad(q, |q.order|)
    requires n <= |p.order| && m <= |q.order| && Members(p, n, s) == Members(q, m, s)
    ensures StreamText(p, n, s) == StreamText(q, m, s)
    decreases n, 0, m
  {
    hide Program.Arranged, Connected, NoneBad, Out, StreamText, Members, Program.StreamAt;
    MembersStep(p, n, s);
    MembersStep(q, m, s);
    TextStepOf(p, n, s);
    TextStepOf(q, m, s);
    if n > 0 && p.StreamAt(n - 1) != s {
      SameText(p, q, n - 1, m, s);
    } else if m > 0 && q.StreamAt(m - 1) != s {
      SameText(p, q, n, m - 1, s);
    } else if n > 0 {
      LastEqual(Members(p, n - 1, s), p.order[n - 1], if m > 0 then Members(q, m - 1, s) else [],
                if m > 0 then q.order[m - 1] else 0, Members(q, m, s));
      SameText(p, q, n - 1, m - 1, s);
      SameOut(p, q, n - 1, m - 1);
    }
  }

  lemma MembersStep(p: Program, n: nat, s: nat)
    requires n <= |p.order|
    ensures n == 0 ==> Members(p, n, s) == []
    ensures n > 0 ==> Members(p, n, s) == Members(p, n - 1, s) + if p.StreamAt(n - 1) == s then [p.order[n - 1]] else []
  {
  }

  lemma TextStepOf(p: Program, n: nat, s: nat)
    requires n <= |p.order|
    ensures n == 0 ==> StreamText(p, n, s) == ""
    ensures n > 0 ==> StreamText(p, n, s) == StreamText(p, n - 1, s) + if p.StreamAt(n - 1) == s then Out(p, n - 1) else ""
  {
    hide Out;
  }

  lemma LastEqual(f: seq<Id>, x: Id, g: seq<Id>, y: Id, whole: seq<Id>)
    requires f + [x] == whole && (whole == g + [y] || whole == [])
    ensures f == g && x == y
  {
    assert (f + [x])[|f|] == x && (g + [y])[|g|] == y && (f + [x])[..|f|] == f && (g + [y])[..|g|] == g;
  }

  /** If every stream is connected, any two finished runs give each stream the same text, even when
      the expressions were sorted differently. */
  lemma FinalTextIsUnique(p: Program, q: Program, run: seq<State>, run': seq<State>, s: nat)
    requires SameProgram(p, q) && Connected(p) && Safe(p) && Safe(q)
    requires IsRun(p, run) && Finished(p, Last(run)) && IsRun(q, run') && Finished(q, Last(run'))
    requires s in p.Streams()
    ensures s in Last(run).workers && s in Last(run').workers
    ensures Last(run).workers[s].text == Last(run').workers[s].text
  {
    hide Program.Arranged, Program.LookupsClear, Connected, Safe, IsRun, Finished, StreamText, Last, Program.Streams;
    SameStreams(p, q, s);
    FinalText(p, run, s);
    FinalText(q, run', s);
    AllText(p, q, s);
  }

  lemma AllText(p: Program, q: Program, s: nat)
    requires SameProgram(p, q) && Connected(p) && Safe(p) && Safe(q)
    ensures StreamText(p, |p.order|, s) == StreamText(q, |q.order|, s)
  {
    hide SameProgram, Connected, NoneBad, Returnable, StreamText, Members;
    AllMembers(p, q, s);
    SameText(p, q, |p.order|, |q.order|, s);
  }

  lemma SameStreams(p: Program, q: Program, s: nat)
    requires SameProgram(p, q) && s in p.Streams()
    ensures s in q.Streams()
  {
    hide Program.Arranged;
    var k :| 0 <= k < |p.order| && p.StreamAt(k) == s;
    assert p.order[k] in q.order;
    var j :| 0 <= j < |q.order| && q.order[j] == p.order[k];
    assert q.StreamAt(j) == s;
  }

  lemma AllMembers(p: Program, q: Program, s: nat)
    requires SameProgram(p, q) && Connected(p)
    ensures Members(p, |p.order|, s) == Members(q, |q.order|, s)
  {
    hide Program.Arranged, Connected, Reaches, Sorted, NoDuplicates;
    var f, g := Members(p, |p.order|, s), Members(q, |q.order|, s);
    ConnectedToo(p, q);
    MembersSorted(p, |p.order|, s);
    MembersSorted(q, |q.order|, s);
    assert p.order[..|p.order|] == p.order && q.order[..|q.order|] == q.order;
    forall y ensures y in f <==> y in g {
      if y in f { MemberOfOther(p, q, s, y); }
      if y in g { MemberOfOther(q, p, s, y); }
    }
    SortedEqual(p, f, g);
  }

  lemma MemberOfOther(p: Program, q: Program, s: nat, y: Id)
    requires SameProgram(p, q) && y in Members(p, |p.order|, s)
    ensures y in Members(q, |q.order|, s)
  {
    hide Program.Arranged;
    assert p.order[..|p.order|] == p.order;
    assert y in q.order;
    var j :| 0 <= j < |q.order| && q.order[j] == y;
    MembersAll(q, |q.order|, s, j);
  }

  // ---- A single chain ----

  /** A chain of previous edges that holds all expressions that were kept is the only order they can have. */
  lemma ChainIsOrder(p: Program, chain: seq<Id>)
    requires p.Arranged() && NoDuplicates(chain)
    requires forall x :: x in chain <==> x in p.order
    requires forall i :: 0 < i < |chain| && chain[i] in p.trace.exprs ==> p.trace.Prev(chain[i]) == Some(chain[i - 1])
    ensures p.order == chain
  {
    hide Reaches, Ordered;
    assert forall i :: 0 <= i < |chain| ==> chain[i] in chain;
    ChainSorted(p.trace, chain);
    forall a, b | 0 <= a < b < |p.order| ensures Reaches(p.trace, p.order[b], p.order[a]) {
      assert p.order[a] in chain && p.order[b] in chain && p.order[a] != p.order[b];
      var i :| 0 <= i < |chain| && chain[i] == p.order[a];
      var j :| 0 <= j < |chain| && chain[j] == p.order[b];
      if j < i { BackwardsImpossible(p, a, b); }
    }
    SortedEqual(p, p.order, chain);
  }

  lemma BackwardsImpossible(p: Program, a: nat, b: nat)
    requires p.Arranged() && a < b < |p.order|
    ensures !Reaches(p.trace, p.order[a], p.order[b])
  {
    hide Program.Arranged, Reaches;
    if Reaches(p.trace, p.order[a], p.order[b]) {
      ReachedBefore(p, a, p.order[b]);
      var i :| 0 <= i < a && p.order[i] == p.order[b];
      SamePosition(p, i, b);
    }
  }

  lemma ChainSorted(t: Trace, chain: seq<Id>)
    requires forall x :: x in chain ==> x in t.exprs
    requires forall i :: 0 < i < |chain| && chain[i] in t.exprs ==> t.Prev(chain[i]) == Some(chain[i - 1])
    ensures Sorted(t, chain)
  {
    forall a, b | 0 <= a < b < |chain| ensures Reaches(t, chain[b], chain[a]) {
      var path := seq(b - a + 1, i requires 0 <= i < b - a + 1 => chain[b - i]);
      forall i | 0 <= i < |path| - 1 ensures path[i] in t.exprs && t.DependsOn(path[i], path[i + 1]) {
        assert path[i] == chain[b - i] && path[i + 1] == chain[b - i - 1];
        assert chain[b - i] in chain;
      }
      assert PathFrom(t, path, chain[b]);
    }
  }
}
