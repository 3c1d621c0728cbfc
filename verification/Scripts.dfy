/** A program without forks as the list of what it appends, and the tracer that turns it into a graph
    of expressions. The same object may be appended several times: there is one object per argument. */
module Scripts {
  import opened Options
  import opened Strings
  import opened ProgramGraph
  import opened StreamWorkers

  /** Objects by identity, in the order in which they are appended. The affixes of roles are objects that
      the tracer makes; readAt says how many objects had been appended when a variable was read. */
  datatype Script = Script(items: seq<Id>, kinds: map<Id, Kind>, affixes: set<Id>, readAt: map<Id, nat>) {
    ghost predicate Valid() {
      && items != [] && (forall x :: x in items ==> x in kinds)
      && (forall x :: x in items && x in kinds && x in affixes ==> kinds[x].ConstantText?)
      && (forall k :: 0 <= k < |items| && KindOf(k).Variable? ==> ReadBefore(k))
    }

    /** A variable refers to what was recorded under its name when it was read. */
    ghost predicate ReadBefore(k: nat)
      requires k < |items| && KindOf(k).Variable?
    {
      && items[k] in readAt && readAt[items[k]] <= k
      && KindOf(k).name in Recorded(readAt[items[k]])
      && Recorded(readAt[items[k]])[KindOf(k).name] == KindOf(k).source
    }

    function KindOf(k: nat): Kind
      requires k < |items|
    {
      if items[k] in kinds then kinds[items[k]] else ConstantText("")
    }

    function ReadAt(k: nat): (n: nat)
      requires k < |items|
      ensures n <= k
    {
      if items[k] in readAt && readAt[items[k]] <= k then readAt[items[k]] else k
    }

    /** The name under which the tracer records an object: its own, or one that the tracer makes up. */
    function RecordedName(k: nat): Option<string>
      requires k < |items|
      decreases k, 1
    {
      match KindOf(k)
      case Gen(name) => Some(if name.Some? then name.value else "gen_" + Decimal(|Recorded(k)|))
      case Select(name, _) => Some(if name.Some? then name.value else "select_" + Decimal(|Recorded(k)|))
      case _ => None
    }

    /** The recorded variables once n objects were appended. */
    function Recorded(n: nat): map<string, Id>
      requires n <= |items|
      decreases n, 0
    {
      if n == 0 then map[]
      else if RecordedName(n - 1).Some? then Recorded(n - 1)[RecordedName(n - 1).value := items[n - 1]]
      else Recorded(n - 1)
    }

    /** The tracer gives its stream to what the program appends, and none to the affixes of roles. */
    function StreamId(x: Id): Option<string> {
      if x in affixes then None else Some("s")
    }

    /** The expressions once n objects were appended: appending an object again moves it behind the last one. */
    function Exprs(n: nat): map<Id, Expr>
      requires n <= |items|
    {
      if n == 0 then map[]
      else Exprs(n - 1)[items[n - 1] := Expr(if n == 1 then None else Some(items[n - 2]), KindOf(n - 1), StreamId(items[n - 1]))]
    }

    function Traced(): Trace
      requires items != []
    {
      Trace(Exprs(|items|), Recorded(|items|), items[|items| - 1])
    }
  }

  /** The tracer: every appended object is linked to the last one. */
  class Tracer {
    var exprs: map<Id, Expr>
    var lastNode: Option<Id>
    var variables: map<string, Id>

    constructor ()
      ensures exprs == map[] && lastNode == None && variables == map[]
    {
      exprs, lastNode, variables := map[], None, map[];
    }

    method AppendNode(x: Id, kind: Kind, pid: Option<string>)
      modifies this`exprs, this`lastNode
      ensures exprs == old(exprs)[x := Expr(old(lastNode), kind, pid)] && lastNode == Some(x)
    {
      exprs := exprs[x := Expr(lastNode, kind, pid)];
      lastNode := Some(x);
    }

    /** Generations and selections are recorded as variables before they are appended. */
    method Execute(x: Id, kind: Kind, pid: Option<string>)
      modifies this
      ensures exprs == old(exprs)[x := Expr(old(lastNode), kind, pid)] && lastNode == Some(x)
      ensures kind.Gen? ==>
                var name := if kind.genName.Some? then kind.genName.value else "gen_" + Decimal(|old(variables)|);
                variables == old(variables)[name := x]
      ensures kind.Select? ==>
                var name := if kind.selectName.Some? then kind.selectName.value else "select_" + Decimal(|old(variables)|);
                variables == old(variables)[name := x]
      ensures !kind.Gen? && !kind.Select? ==> variables == old(variables)
    {
      if kind.Gen? {
        var name := if kind.genName.Some? then kind.genName.value else "gen_" + Decimal(|variables|);
        variables := variables[name := x];
      } else if kind.Select? {
        var name := if kind.selectName.Some? then kind.selectName.value else "select_" + Decimal(|variables|);
        variables := variables[name := x];
      }
      AppendNode(x, kind, pid);
    }
  }

  /** Tracing a script. */
  method TraceProgram(s: Script) returns (t: Trace)
    requires s.Valid()
    ensures t == s.Traced() && t.Valid()
    ensures forall x :: x in s.items && x in t.exprs ==> (t.exprs[x].pid.None? <==> x in s.affixes)
  {
    var tracer := new Tracer();
    for k := 0 to |s.items|
      invariant tracer.exprs == s.Exprs(k) && tracer.variables == s.Recorded(k)
      invariant tracer.lastNode == if k == 0 then None else Some(s.items[k - 1])
    {
      tracer.Execute(s.items[k], s.KindOf(k), s.StreamId(s.items[k]));
    }
    t := Trace(tracer.exprs, tracer.variables, tracer.lastNode.value);
    TracedValid(s);
    forall x | x in s.items && x in t.exprs ensures t.exprs[x].pid.None? <==> x in s.affixes {
      var k := LinksOf(s, x);
    }
  }

  /** A name that is made up counts the names that were recorded before. */
  lemma MadeUpName(s: Script, k: nat)
    requires k < |s.items|
    ensures s.KindOf(k) == Gen(None) && |s.Recorded(k)| == 0 ==> s.RecordedName(k) == Some("gen_0")
    ensures s.KindOf(k) == Gen(None) && |s.Recorded(k)| == 12 ==> s.RecordedName(k) == Some("gen_12")
    ensures s.KindOf(k).Select? && s.KindOf(k).selectName.None? && |s.Recorded(k)| == 3 ==> s.RecordedName(k) == Some("select_3")
  {
    hide Script.Recorded;
    assert Decimal(0) == "0" && Decimal(3) == "3" && Decimal(12) == "12";
    assert "gen_" + "0" == "gen_0" && "gen_" + "12" == "gen_12" && "select_" + "3" == "select_3";
  }

  // ---- The links of the trace ----

  /** The last append of an object determines its previous expression. */
  lemma {:induction false} ExprsAt(s: Script, n: nat, k: nat)
    requires k < n <= |s.items| && forall j :: k < j < n ==> s.items[j] != s.items[k]
    ensures s.items[k] in s.Exprs(n)
    ensures s.Exprs(n)[s.items[k]]
            == Expr(if k == 0 then None else Some(s.items[k - 1]), s.KindOf(k), s.StreamId(s.items[k]))
  {
    if k < n - 1 { ExprsAt(s, n - 1, k); }
  }

  lemma {:induction false} ExprsKeys(s: Script, n: nat)
    requires n <= |s.items|
    ensures forall x :: x in s.Exprs(n) <==> x in s.items[..n]
  {
    if n > 0 {
      ExprsKeys(s, n - 1);
      assert s.items[..n] == s.items[..n - 1] + [s.items[n - 1]];
    }
  }

  /** The position at which an object was appended last. */
  lemma {:induction false} LastAppend(s: Script, n: nat, x: Id) returns (k: nat)
    requires n <= |s.items| && x in s.items[..n]
    ensures k < n && s.items[k] == x && forall j :: k < j < n ==> s.items[j] != x
  {
    if s.items[n - 1] == x {
      k := n - 1;
    } else {
      assert s.items[..n] == s.items[..n - 1] + [s.items[n - 1]];
      k := LastAppend(s, n - 1, x);
    }
  }

  /** The last position before n that is recorded under a name. */
  function LastRecorder(s: Script, n: nat, name: string): (d: Option<nat>)
    requires n <= |s.items|
    ensures d.Some? ==> d.value < n && s.RecordedName(d.value) == Some(name)
    ensures d.Some? ==> forall j :: d.value < j < n ==> s.RecordedName(j) != Some(name)
    ensures d.None? ==> forall j :: 0 <= j < n ==> s.RecordedName(j) != Some(name)
  {
    if n == 0 then None
    else if s.RecordedName(n - 1) == Some(name) then Some(n - 1)
    else LastRecorder(s, n - 1, name)
  }

  lemma {:induction false} RecordedIs(s: Script, n: nat, name: string)
    requires n <= |s.items|
    ensures name in s.Recorded(n) <==> LastRecorder(s, n, name).Some?
    ensures name in s.Recorded(n) ==> s.Recorded(n)[name] == s.items[LastRecorder(s, n, name).value]
  {
    if n > 0 { RecordedIs(s, n - 1, name); }
  }

  /** A variable refers to the last object that the whole script records under its name. */
  lemma SourceOf(s: Script, k: nat)
    requires s.Valid() && k < |s.items| && s.KindOf(k).Variable?
    ensures LastRecorder(s, |s.items|, s.KindOf(k).name).Some?
    ensures s.items[k] in s.Traced().exprs
    ensures s.Traced().Source(s.items[k]) == Some(s.items[LastRecorder(s, |s.items|, s.KindOf(k).name).value])
  {
    var n, name := |s.items|, s.KindOf(k).name;
    assert s.ReadBefore(k);
    RecordedIs(s, s.readAt[s.items[k]], name);
    RecordedIs(s, n, name);
    var j := LinksOf(s, s.items[k]);
  }

  /** An object keeps its kind and its stream; what precedes it is what was last before it. */
  lemma LinksOf(s: Script, x: Id) returns (k: nat)
    requires x in s.items
    ensures k < |s.items| && s.items[k] == x && forall j :: k < j < |s.items| ==> s.items[j] != x
    ensures x in s.Traced().exprs && s.Traced().exprs[x].kind == s.KindOf(k)
    ensures s.Traced().exprs[x].pid == s.StreamId(x)
    ensures s.Traced().Prev(x) == if k == 0 then None else Some(s.items[k - 1])
  {
    assert s.items[..|s.items|] == s.items;
    k := LastAppend(s, |s.items|, x);
    ExprsAt(s, |s.items|, k);
  }

  lemma TracedKeys(s: Script)
    requires s.items != []
    ensures forall x :: x in s.Traced().exprs <==> x in s.items
  {
    assert s.items[..|s.items|] == s.items;
    ExprsKeys(s, |s.items|);
  }

  lemma TracedValid(s: Script)
    requires s.Valid()
    ensures s.Traced().Valid()
  {
    hide Script.Valid, Script.Exprs, Script.Recorded, Script.KindOf;
    NotEmpty(s);
    var t := s.Traced();
    TracedKeys(s);
    forall x | x in t.exprs
      ensures (t.Prev(x).Some? ==> t.Prev(x).value in t.exprs) && (t.Source(x).Some? ==> t.Source(x).value in t.exprs)
    {
      var k := LinksOf(s, x);
      if t.exprs[x].kind.Variable? { SourceOf(s, k); }
    }
  }

  lemma NotEmpty(s: Script)
    requires s.Valid()
    ensures s.items != []
  {
  }
}
