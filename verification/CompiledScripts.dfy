/** A script run directly and compiled: what the compiler keeps of it, and exactly when the caller of the
    compiled program gets what the direct run gives. */
module CompiledScripts {
  import opened Options
  import opened ProgramGraph
  import opened StreamWorkers
  import opened StreamRuns
  import opened CompiledPrograms
  import opened Scripts
  import ChatTemplates
  import ChatSession

  // ---- What the compiler keeps ----

  /** The object at position k is appended nowhere else, and what it refers to was appended before it. */
  ghost predicate Sound(s: Script, k: nat)
    requires k < |s.items|
  {
    && (forall j :: 0 <= j < |s.items| && s.items[j] == s.items[k] ==> j == k)
    && (s.KindOf(k).Variable? ==>
          var d := LastRecorder(s, |s.items|, s.KindOf(k).name); d.Some? && s.items[d.value] in s.items[..k])
  }

  ghost predicate SoundTo(s: Script, n: nat)
    requires n <= |s.items|
  {
    forall k :: 0 <= k < n ==> Sound(s, k)
  }

  /** The last object needs the one at position k, and the script is sound up to it. */
  ghost predicate SoundAndNeeded(s: Script, k: nat)
    requires k < |s.items|
  {
    SoundTo(s, k + 1) && s.Traced().Needed(s.items[k])
  }

  /** A kept expression stands at some position up to which the script is sound. */
  lemma {:induction false} KeptIsSound(s: Script, p: Program, i: nat) returns (k: nat)
    requires s.Valid() && IsCompiled(s.Traced(), p) && i < |p.order|
    ensures k < |s.items| && p.order[i] == s.items[k] && SoundTo(s, k + 1)
  {
    hide Script.Valid, IsCompiled, Sound, Script.Traced;
    NotEmpty(s);
    k := KeptLinks(s, p, i);
    if k > 0 {
      var h := IndexIn(p.order[..i], s.items[k - 1]);
      var before := KeptIsSound(s, p, h);
      SoundUnique(s, before, k - 1);
    }
    if s.KindOf(k).Variable? {
      SourceOf(s, k);
      var d := LastRecorder(s, |s.items|, s.KindOf(k).name).value;
      var h := IndexIn(p.order[..i], s.items[d]);
      var source := KeptIsSound(s, p, h);
      if source < k {
        assert s.items[source] in s.items[..k];
        LastIsSound(s, k);
      }
    } else {
      LastIsSound(s, k);
    }
  }

  lemma IndexIn(f: seq<Id>, x: Id) returns (h: nat)
    requires x in f
    ensures h < |f| && f[h] == x
  {
    h :| 0 <= h < |f| && f[h] == x;
  }

  /** The links of a kept expression lead to expressions that are kept before it. */
  lemma KeptLinks(s: Script, p: Program, i: nat) returns (k: nat)
    requires s.Valid() && IsCompiled(s.Traced(), p) && i < |p.order|
    ensures k < |s.items| && p.order[i] == s.items[k] && forall j :: k < j < |s.items| ==> s.items[j] != s.items[k]
    ensures k > 0 ==> s.items[k - 1] in p.order[..i]
    ensures s.KindOf(k).Variable? ==>
              var d := LastRecorder(s, |s.items|, s.KindOf(k).name); d.Some? && s.items[d.value] in p.order[..i]
  {
    hide Script.Traced, Script.KindOf, Trace.Valid, Trace.Needed, ReachesCycle, Missing, Acyclic, Covers, Ordered;
    NotEmpty(s);
    TracedKeys(s);
    var t, x := s.Traced(), p.order[i];
    assert x in p.order;
    k := LinksOf(s, x);
    if k > 0 { DependsEarlier(t, p.order, i, s.items[k - 1]); }
    if s.KindOf(k).Variable? {
      SourceOf(s, k);
      DependsEarlier(t, p.order, i, s.items[LastRecorder(s, |s.items|, s.KindOf(k).name).value]);
    }
  }

  lemma SoundUnique(s: Script, j: nat, k: nat)
    requires j < |s.items| && k < |s.items| && s.items[j] == s.items[k] && Sound(s, j)
    ensures j == k
  {
  }

  /** The last append of an object is sound if everything before it is and what it refers to is there. */
  lemma LastIsSound(s: Script, k: nat)
    requires k < |s.items| && SoundTo(s, k) && forall j :: k < j < |s.items| ==> s.items[j] != s.items[k]
    requires s.KindOf(k).Variable? ==>
               var d := LastRecorder(s, |s.items|, s.KindOf(k).name); d.Some? && s.items[d.value] in s.items[..k]
    ensures SoundTo(s, k + 1)
  {
    forall j | 0 <= j < k ensures s.items[j] != s.items[k] {
      assert Sound(s, j);
    }
  }

  /** What is needed stays needed one step down, as far as the script is sound. */
  lemma NeededBefore(s: Script, k: nat)
    requires s.Valid() && 0 < k < |s.items| && Sound(s, k) && s.Traced().Needed(s.items[k])
    ensures s.Traced().Needed(s.items[k - 1])
  {
    hide Script.Valid, Script.Traced, Trace.Needed, Trace.Valid, Script.KindOf;
    TracedValid(s);
    var j := LinksOf(s, s.items[k]);
    NeededStep(s.Traced(), s.items[k], s.items[k - 1]);
  }

  /** What is needed and sound is kept. */
  lemma {:induction false} SoundIsKept(s: Script, p: Program, k: nat)
    requires s.Valid() && IsCompiled(s.Traced(), p) && k < |s.items| && SoundTo(s, k + 1)
    requires s.Traced().Needed(s.items[k])
    ensures s.items[k] in p.order
  {
    hide Script.Valid, IsCompiled, Sound, Script.Traced, Trace.Needed, Script.KindOf;
    NotEmpty(s);
    TracedValid(s);
    assert Sound(s, k);
    var t, x := s.Traced(), s.items[k];
    var j := LinksOf(s, x);
    SoundUnique(s, k, j);
    if k > 0 {
      NeededBefore(s, k);
      SoundIsKept(s, p, k - 1);
    }
    if s.KindOf(k).Variable? {
      SourceOf(s, k);
      var d := SoundSource(s, k);
      NeededStep(t, x, s.items[d]);
      SoundIsKept(s, p, d);
    }
    NothingMissing(s, p, k);
  }

  lemma SoundSource(s: Script, k: nat) returns (d: nat)
    requires k < |s.items| && Sound(s, k) && s.KindOf(k).Variable?
    ensures d < k && LastRecorder(s, |s.items|, s.KindOf(k).name).Some?
    ensures s.items[d] == s.items[LastRecorder(s, |s.items|, s.KindOf(k).name).value]
  {
    d :| 0 <= d < k && s.items[..k][d] == s.items[LastRecorder(s, |s.items|, s.KindOf(k).name).value];
  }

  lemma NothingMissing(s: Script, p: Program, k: nat)
    requires s.Valid() && IsCompiled(s.Traced(), p) && k < |s.items| && Sound(s, k) && s.Traced().Needed(s.items[k])
    requires k > 0 ==> s.items[k - 1] in p.order
    requires s.KindOf(k).Variable? ==>
               var d := LastRecorder(s, |s.items|, s.KindOf(k).name); d.Some? && s.items[d.value] in p.order
    ensures s.items[k] in p.order
  {
    hide Script.Traced, Script.KindOf, Trace.Valid, Trace.Needed, ReachesCycle, Acyclic, Covers, Ordered;
    var t, x := s.Traced(), s.items[k];
    var j := LinksOf(s, x);
    if s.KindOf(k).Variable? { SourceOf(s, k); }
    assert Missing(t, x, p.order) == 0;
  }

  /** The compiler keeps the first c objects of the script, in their order: exactly those that the last
      one needs and up to which the script is sound. */
  lemma KeptPrefix(s: Script, p: Program) returns (c: nat)
    requires s.Valid() && IsCompiled(s.Traced(), p)
    ensures c <= |s.items| && p.order == s.items[..c] && SoundTo(s, c)
    ensures forall k :: 0 <= k < |s.items| ==> (k < c <==> SoundAndNeeded(s, k))
  {
    hide Script.Valid, IsCompiled, Sound, Script.Traced, Trace.Needed;
    NotEmpty(s);
    c := 0;
    while c < |s.items| && SoundAndNeeded(s, c)
      invariant c <= |s.items| && SoundTo(s, c)
      invariant forall k :: 0 <= k < c ==> SoundAndNeeded(s, k)
    {
      c := c + 1;
    }
    forall k | c <= k < |s.items| ensures !SoundAndNeeded(s, k) {
      if SoundAndNeeded(s, k) { NeededDown(s, k, c); }
    }
    forall x ensures x in s.items[..c] <==> x in p.order {
      if x in s.items[..c] {
        var k := IndexIn(s.items[..c], x);
        assert SoundAndNeeded(s, k);
        SoundIsKept(s, p, k);
      }
      if x in p.order {
        var i := IndexIn(p.order, x);
        var k := KeptIsSound(s, p, i);
        KeptIsNeeded(s, p, i);
        assert SoundAndNeeded(s, k);
        assert k < c;
        assert s.items[..c][k] == x;
      }
    }
    PrefixChain(s, p, c);
  }

  lemma KeptIsNeeded(s: Script, p: Program, i: nat)
    requires s.items != [] && IsCompiled(s.Traced(), p) && i < |p.order|
    ensures s.Traced().Needed(p.order[i])
  {
    hide Script.Traced, Trace.Valid, Trace.Needed, ReachesCycle, Acyclic, Covers, Ordered, Missing;
    assert p.order[i] in p.order;
  }

  lemma {:induction false} NeededDown(s: Script, k: nat, c: nat)
    requires s.Valid() && c <= k < |s.items| && SoundTo(s, k + 1) && s.Traced().Needed(s.items[k])
    ensures s.Traced().Needed(s.items[c])
    decreases k
  {
    hide Script.Valid, Sound, Script.Traced, Trace.Needed;
    if c < k {
      assert Sound(s, k);
      NeededBefore(s, k);
      NeededDown(s, k - 1, c);
    }
  }

  lemma PrefixChain(s: Script, p: Program, c: nat)
    requires s.Valid() && IsCompiled(s.Traced(), p) && c <= |s.items| && SoundTo(s, c)
    requires forall x :: x in s.items[..c] <==> x in p.order
    ensures p.order == s.items[..c]
  {
    hide Script.Valid, Script.Traced, Trace.Valid, Trace.Needed, ReachesCycle, Acyclic, Covers, Ordered, Missing, Script.KindOf;
    NotEmpty(s);
    var chain := s.items[..c];
    forall i, j | 0 <= i < j < |chain| ensures chain[i] != chain[j] { assert Sound(s, i); }
    forall i | 0 < i < |chain| && chain[i] in p.trace.exprs ensures p.trace.Prev(chain[i]) == Some(chain[i - 1]) {
      assert Sound(s, i);
      var j := LinksOf(s, chain[i]);
    }
    ChainIsOrder(p, chain);
  }

  /** Everything is kept exactly if the whole script is sound, and that is when the dependencies are acyclic. */
  lemma AllKeptIff(s: Script, p: Program)
    requires s.Valid() && IsCompiled(s.Traced(), p)
    ensures p.order == s.items <==> SoundTo(s, |s.items|)
    ensures p.order == s.items <==> exists all :: Covers(s.Traced(), all) && Acyclic(s.Traced(), all)
    ensures !SoundTo(s, |s.items|) ==> |p.order| < |s.items|
  {
    hide Script.Valid, IsCompiled, Sound, Script.Traced, Trace.Needed, Acyclic, Covers;
    var n := |s.items|;
    var c := KeptPrefix(s, p);
    NotEmpty(s);
    LastNeeded(s);
    assert s.items[..n] == s.items;
    KeepsAllNeeded(s, p);
    if SoundTo(s, n) { assert SoundAndNeeded(s, n - 1); }
    if s.items[n - 1] in p.order {
      var i := IndexIn(p.order, s.items[n - 1]);
      var k := KeptIsSound(s, p, i);
      SoundUniqueTo(s, k + 1, k, n - 1);
    }
    if c == n {
      forall x | s.Traced().Needed(x) ensures x in p.order { NeededIsItem(s, x); }
    }
  }

  lemma SoundUniqueTo(s: Script, n: nat, k: nat, j: nat)
    requires k < n <= |s.items| && j < |s.items| && SoundTo(s, n) && s.items[k] == s.items[j]
    ensures j == k
  {
    hide Sound;
    assert Sound(s, k);
    SoundUnique(s, k, j);
  }

  lemma LastNeeded(s: Script)
    requires s.Valid()
    ensures s.items != [] && s.Traced().Needed(s.items[|s.items| - 1])
  {
    hide Script.Valid, Trace.Needed;
    NotEmpty(s);
    TracedValid(s);
    LastIsNeeded(s.Traced());
  }

  lemma KeepsAllNeeded(s: Script, p: Program)
    requires s.items != [] && IsCompiled(s.Traced(), p)
    ensures (forall x :: s.Traced().Needed(x) ==> x in p.order)
            <==> exists all :: Covers(s.Traced(), all) && Acyclic(s.Traced(), all)
  {
    hide Script.Traced, Trace.Needed, Acyclic, Covers;
  }

  lemma NeededIsItem(s: Script, x: Id)
    requires s.items != [] && s.Traced().Needed(x)
    ensures x in s.items
  {
    hide Script.Exprs, Script.Recorded;
    TracedKeys(s);
    var path :| s.Traced().Path(path) && path[|path| - 1] == x;
  }

  // ---- Lookups ----

  /** Positions of the compiled program are positions of the script. */
  lemma PositionsAre(s: Script, p: Program, k: nat)
    requires s.Valid() && IsCompiled(s.Traced(), p) && p.order <= s.items && k < |p.order|
    ensures p.KindAt(k) == s.KindOf(k) && p.order[k] == s.items[k]
    ensures p.order[k] in p.trace.exprs && p.trace.exprs[p.order[k]].pid == s.StreamId(s.items[k])
    ensures p.trace.Needed(p.order[k])
  {
    hide Script.Traced, Trace.Valid, Trace.Needed, ReachesCycle, Acyclic, Covers, Ordered, Missing;
    NotEmpty(s);
    assert p.order[k] in p.order;
    assert s.items[k] in s.items;
    var j := LinksOf(s, s.items[k]);
  }

  /** Two kept positions are in one stream exactly if both are affixes or neither is. */
  lemma SameStreamIff(s: Script, p: Program, j: nat, k: nat)
    requires s.Valid() && IsCompiled(s.Traced(), p) && p.order <= s.items && j < |p.order| && k < |p.order|
    ensures p.StreamAt(j) == p.StreamAt(k) <==> (s.items[j] in s.affixes <==> s.items[k] in s.affixes)
  {
    hide Script.Valid, Script.Traced, Trace.Valid, Trace.Needed, ReachesCycle, Acyclic, Covers, Ordered, Missing;
    NotEmpty(s);
    PositionsAre(s, p, j);
    PositionsAre(s, p, k);
  }

  /** A kept variable refers to the last expression recorded under its name, which is in its stream. */
  lemma KeptSource(s: Script, p: Program, k: nat) returns (d: nat)
    requires s.Valid() && IsCompiled(s.Traced(), p) && p.order <= s.items && SoundTo(s, |p.order|)
    requires k < |p.order| && p.KindAt(k).Variable?
    ensures LastRecorder(s, |s.items|, p.KindAt(k).name) == Some(d) && d < k
    ensures p.SourceStream(k) == p.StreamAt(k) == p.StreamAt(d)
  {
    hide Script.Valid, Script.Traced, IsCompiled, Sound;
    NotEmpty(s);
    TraceIs(s, p);
    PositionsAre(s, p, k);
    assert Sound(s, k);
    SourceOf(s, k);
    d := LastRecorder(s, |s.items|, p.KindAt(k).name).value;
    var j := SoundSource(s, k);
    assert Sound(s, j);
    SoundUnique(s, j, d);
    SameStreamIff(s, p, d, k);
    NoAffix(s, k);
    NoAffix(s, d);
  }

  lemma TraceIs(s: Script, p: Program)
    requires s.items != [] && IsCompiled(s.Traced(), p)
    ensures p.trace == s.Traced() && p.Arranged()
  {
  }

  lemma NoAffix(s: Script, k: nat)
    requires s.Valid() && k < |s.items| && !s.KindOf(k).ConstantText?
    ensures s.items[k] !in s.affixes
  {
  }

  /** In a compiled script every lookup is clear, whatever names are repeated. */
  lemma LookupsAreClear(s: Script, p: Program)
    requires s.Valid() && IsCompiled(s.Traced(), p)
    ensures p.Valid()
  {
    hide Script.Valid, Script.Traced, IsCompiled, SoundTo, Program.Arranged;
    NotEmpty(s);
    var c := KeptPrefix(s, p);
    TraceIs(s, p);
    forall i, j, k | 0 <= k < |p.order| && p.KindAt(k).Variable? && p.Defines(i, p.SourceStream(k), p.KindAt(k).name)
                     && p.Defines(j, p.SourceStream(k), p.KindAt(k).name)
      ensures i == j || (p.SourceStream(k) == p.StreamAt(k) && i < k && j < k)
    {
      var d := KeptSource(s, p, k);
      PositionsAre(s, p, i);
      PositionsAre(s, p, j);
      NamedIsRecorded(s, i, p.KindAt(k).name);
      NamedIsRecorded(s, j, p.KindAt(k).name);
    }
  }

  lemma NamedIsRecorded(s: Script, k: nat, name: string)
    requires k < |s.items| && NameOf(s.KindOf(k)) == Some(name)
    ensures s.RecordedName(k) == Some(name)
  {
  }

  // ---- The direct run ----

  /** What a run is given: arguments and a deterministic backend. */
  datatype Input = Input(args: map<string, string>, generate: (string, Id) -> string, select: (string, Id) -> string)

  function InputOf(p: Program): Input { Input(p.args, p.generate, p.select) }

  /** The last position before n that defines a variable of the executor. */
  function LastNamed(s: Script, n: nat, name: string): (d: Option<nat>)
    requires n <= |s.items|
    ensures d.Some? ==> d.value < n && NameOf(s.KindOf(d.value)) == Some(name)
    ensures d.Some? ==> forall j :: d.value < j < n ==> NameOf(s.KindOf(j)) != Some(name)
    ensures d.None? ==> forall j :: 0 <= j < n ==> NameOf(s.KindOf(j)) != Some(name)
  {
    if n == 0 then None
    else if NameOf(s.KindOf(n - 1)) == Some(name) then Some(n - 1)
    else LastNamed(s, n - 1, name)
  }

  /** What the k-th append adds when the program is run directly: a variable is the string that was read. */
  function DirectOut(s: Script, i: Input, k: nat): string
    requires k < |s.items|
    decreases k, 1
  {
    match s.KindOf(k)
    case ConstantText(value) => value
    case Argument(name) => if name in i.args then i.args[name] else ""
    case Gen(_) => i.generate(DirectText(s, i, k), s.items[k])
    case Select(_, _) => i.select(DirectText(s, i, k), s.items[k])
    case Variable(name, _) =>
      var d := LastNamed(s, s.ReadAt(k), name);
      if d.Some? then DirectOut(s, i, d.value) else ""
  }

  /** The text of the direct run after n appends. */
  function DirectText(s: Script, i: Input, n: nat): string
    requires n <= |s.items|
    decreases n, 0
  {
    if n == 0 then "" else DirectText(s, i, n - 1) + DirectOut(s, i, n - 1)
  }

  /** The direct run does not fail: every argument is given, and every variable that is read was generated. */
  ghost predicate DirectFine(s: Script, args: set<string>) {
    forall k :: 0 <= k < |s.items| ==>
      && (s.KindOf(k).Argument? ==> s.KindOf(k).name in args)
      && (s.KindOf(k).Variable? ==> LastNamed(s, s.ReadAt(k), s.KindOf(k).name).Some?)
  }

  /** What an append does to the session of the direct executor. */
  function EventOf(kind: Kind, out: string): ChatSession.Event {
    match kind
    case Gen(name) => ChatSession.Answer(name, out)
    case Select(name, _) => if name.Some? then ChatSession.Answer(name, out) else ChatSession.Fill(out)
    case _ => ChatSession.Fill(out)
  }

  function DirectEvents(s: Script, i: Input, n: nat): seq<ChatSession.Event>
    requires n <= |s.items|
  {
    if n == 0 then [] else DirectEvents(s, i, n - 1) + [EventOf(s.KindOf(n - 1), DirectOut(s, i, n - 1))]
  }

  lemma EventAppends(t: ChatTemplates.ChatTemplate, st: ChatSession.ValidSession, kind: Kind, out: string)
    ensures ChatSession.Step(t, st, EventOf(kind, out)).Some?
    ensures ChatSession.Step(t, st, EventOf(kind, out)).value.text == st.text + out
    ensures ChatSession.Step(t, st, EventOf(kind, out)).value.variables
            == if NameOf(kind).Some? || kind.Gen? then st.variables[NameOf(kind) := out] else st.variables
  {
  }

  /** The direct text is the text of the executor's session, and what a variable of the session holds is
      what the last object of that name added. */
  lemma {:induction false} DirectIsSession(s: Script, i: Input, t: ChatTemplates.ChatTemplate, n: nat, name: string)
    requires n <= |s.items|
    ensures var r := ChatSession.Replay(t, ChatSession.FRESH, DirectEvents(s, i, n));
            && r.Some? && r.value.text == DirectText(s, i, n)
            && (Some(name) in r.value.variables <==> LastNamed(s, n, name).Some?)
            && (Some(name) in r.value.variables ==>
                  r.value.variables[Some(name)] == DirectOut(s, i, LastNamed(s, n, name).value))
  {
    hide DirectOut, EventOf, ChatSession.Step;
    if n > 0 {
      DirectIsSession(s, i, t, n - 1, name);
      var before, e := DirectEvents(s, i, n - 1), EventOf(s.KindOf(n - 1), DirectOut(s, i, n - 1));
      assert (before + [e])[..|before|] == before;
      EventAppends(t, ChatSession.Replay(t, ChatSession.FRESH, before).value, s.KindOf(n - 1), DirectOut(s, i, n - 1));
    }
  }

  // ---- When the compiled program returns the direct text ----

  /** No object is recorded under the variable's name once the variable was appended, and the executor is
      given no new value of it between the reading and the append. */
  ghost predicate ReadsCurrent(s: Script, k: nat)
    requires k < |s.items| && s.KindOf(k).Variable?
  {
    && (forall j :: k <= j < |s.items| ==> s.RecordedName(j) != Some(s.KindOf(k).name))
    && (forall j :: s.ReadAt(k) <= j < k ==> NameOf(s.KindOf(j)) != Some(s.KindOf(k).name))
  }

  ghost predicate OneStream(s: Script) {
    forall j, k :: 0 <= j < |s.items| && 0 <= k < |s.items| ==> (s.items[j] in s.affixes <==> s.items[k] in s.affixes)
  }

  /** No object is appended twice, every variable is appended before its name is generated again, and no
      previous edge leaves its stream. */
  ghost predicate Faithful(s: Script) {
    && NoDuplicates(s.items)
    && (forall k :: 0 <= k < |s.items| && s.KindOf(k).Variable? ==> ReadsCurrent(s, k))
    && OneStream(s)
  }

  /** No name is recorded again once a variable of that name was appended. */
  ghost predicate NotReused(s: Script) {
    forall k, j :: 0 <= k <= j < |s.items| && s.KindOf(k).Variable? ==> s.RecordedName(j) != Some(s.KindOf(k).name)
  }

  /** A script is sound if no object is appended twice and no name is recorded again once it was read. */
  lemma SoundIff(s: Script)
    requires s.Valid()
    ensures SoundTo(s, |s.items|) <==> NoDuplicates(s.items) && NotReused(s)
  {
    hide Script.Valid, Script.KindOf, Script.RecordedName, Script.Traced;
    NotEmpty(s);
    if SoundTo(s, |s.items|) {
      forall i, j | 0 <= i < j < |s.items| ensures s.items[i] != s.items[j] { assert Sound(s, i); }
      forall k, j | 0 <= k <= j < |s.items| && s.KindOf(k).Variable? ensures s.RecordedName(j) != Some(s.KindOf(k).name) {
        assert Sound(s, k);
        var d := SoundSource(s, k);
        assert Sound(s, d);
      }
    }
    if NoDuplicates(s.items) && NotReused(s) {
      forall k | 0 <= k < |s.items| ensures Sound(s, k) {
        if s.KindOf(k).Variable? {
          SourceOf(s, k);
          var d := LastRecorder(s, |s.items|, s.KindOf(k).name).value;
          assert d < k && s.items[..k][d] == s.items[d];
        }
      }
    }
  }

  /** Nothing that is kept is bad if the direct run does not fail. */
  lemma KeptNotBad(s: Script, p: Program)
    requires s.Valid() && IsCompiled(s.Traced(), p) && DirectFine(s, p.args.Keys)
    ensures NoneBad(p, |p.order|)
  {
    hide Script.Valid, Script.Traced, IsCompiled, SoundTo;
    NotEmpty(s);
    var c := KeptPrefix(s, p);
    forall k | 0 <= k < |p.order| ensures !Bad(p, k) {
      PositionsAre(s, p, k);
      if p.KindAt(k).Variable? {
        var d := KeptSource(s, p, k);
        var j := LastNamed(s, s.ReadAt(k), p.KindAt(k).name).value;
        PositionsAre(s, p, j);
        NamedNotAffix(s, j);
        NoAffix(s, k);
        SameStreamIff(s, p, j, k);
      }
    }
  }

  lemma NamedNotAffix(s: Script, j: nat)
    requires s.Valid() && j < |s.items| && NameOf(s.KindOf(j)).Some?
    ensures s.items[j] !in s.affixes
  {
  }

  /** No run fails, and the caller of every finished run finds the text of the direct run. */
  ghost predicate ReturnsDirect(s: Script, p: Program) {
    forall run :: IsRun(p, run) ==>
      && !Last(run).failed
      && (Finished(p, Last(run)) ==>
            && p.StreamOf(p.trace.lastNode) in Last(run).workers
            && Last(run).workers[p.StreamOf(p.trace.lastNode)].text == DirectText(s, InputOf(p), |s.items|))
  }

  /** Where nothing kept is bad, that is a matter of what was kept and of the meaning of the stream. */
  lemma ReturnsDirectMeans(s: Script, p: Program)
    requires p.Valid() && NoneBad(p, |p.order|)
    ensures ReturnsDirect(s, p) <==>
              Returnable(p) && StreamText(p, |p.order|, p.StreamOf(p.trace.lastNode)) == DirectText(s, InputOf(p), |s.items|)
  {
    hide Program.Valid, NoneBad, Returnable, StreamText, DirectText, Next, Init, Finished;
    var r := p.StreamOf(p.trace.lastNode);
    if !Returnable(p) {
      var run := UnreturnedRun(p);
    } else {
      ReturnedStream(p);
      var done := FinishedRun(p);
      FinalText(p, done, r);
      forall run | IsRun(p, run) ensures !Last(run).failed {
        RunInv(p, run);
      }
      forall run | IsRun(p, run) && Finished(p, Last(run))
        ensures r in Last(run).workers && Last(run).workers[r].text == StreamText(p, |p.order|, r)
      {
        FinalText(p, run, r);
      }
    }
  }

  lemma ReturnedStream(p: Program)
    requires Returnable(p)
    ensures p.StreamOf(p.trace.lastNode) in p.Streams()
  {
  }

  // ---- Faithful scripts ----

  /** With everything kept in one stream, the executor finds the same definers. */
  lemma {:induction false} SameDefiner(s: Script, p: Program, n: nat, r: nat, name: string)
    requires s.Valid() && IsCompiled(s.Traced(), p) && p.order == s.items && n <= |s.items|
    requires forall k :: 0 <= k < |p.order| ==> p.StreamAt(k) == r
    ensures Definer(p, n, r, name) == LastNamed(s, n, name)
  {
    hide Script.Valid, Script.Traced, IsCompiled;
    if n > 0 {
      SameDefiner(s, p, n - 1, r, name);
      PositionsAre(s, p, n - 1);
    }
  }

  lemma {:induction false} SameValue(s: Script, m: nat, n: nat, name: string)
    requires m <= n <= |s.items| && forall j :: m <= j < n ==> NameOf(s.KindOf(j)) != Some(name)
    ensures LastNamed(s, m, name) == LastNamed(s, n, name)
  {
    if m < n { SameValue(s, m, n - 1, name); }
  }

  /** The compiled program of a faithful script means what the direct run does. */
  lemma {:induction false} FaithfulText(s: Script, p: Program, n: nat, r: nat)
    requires s.Valid() && IsCompiled(s.Traced(), p) && p.order == s.items && n <= |s.items|
    requires forall k :: 0 <= k < |p.order| ==> p.StreamAt(k) == r
    requires SoundTo(s, |s.items|) && forall k :: 0 <= k < |s.items| && s.KindOf(k).Variable? ==> ReadsCurrent(s, k)
    ensures StreamText(p, n, r) == DirectText(s, InputOf(p), n)
    ensures forall k :: 0 <= k < n ==> Out(p, k) == DirectOut(s, InputOf(p), k)
  {
    hide Script.Valid, Script.Traced, IsCompiled, SoundTo, Script.KindOf, Program.StreamAt, Out, DirectOut, ReadsCurrent;
    if n > 0 {
      FaithfulText(s, p, n - 1, r);
      FaithfulOut(s, p, n - 1, r);
      TextStepOf(p, n, r);
    }
  }

  lemma FaithfulOut(s: Script, p: Program, k: nat, r: nat)
    requires s.Valid() && IsCompiled(s.Traced(), p) && p.order == s.items && k < |s.items|
    requires forall j :: 0 <= j < |p.order| ==> p.StreamAt(j) == r
    requires SoundTo(s, |s.items|) && (s.KindOf(k).Variable? ==> ReadsCurrent(s, k))
    requires StreamText(p, k, r) == DirectText(s, InputOf(p), k)
    requires forall j :: 0 <= j < k ==> Out(p, j) == DirectOut(s, InputOf(p), j)
    ensures Out(p, k) == DirectOut(s, InputOf(p), k)
  {
    hide Script.Valid, Script.Traced, IsCompiled, SoundTo, Script.KindOf, Program.StreamAt, StreamText, DirectText;
    PositionsAre(s, p, k);
    if s.KindOf(k).Variable? {
      var d := KeptSource(s, p, k);
      SameDefiner(s, p, k, r, s.KindOf(k).name);
      SameValue(s, s.ReadAt(k), k, s.KindOf(k).name);
    }
  }

  lemma FaithfulReturns(s: Script, p: Program)
    requires s.Valid() && IsCompiled(s.Traced(), p) && DirectFine(s, p.args.Keys) && Faithful(s)
    ensures ReturnsDirect(s, p)
  {
    hide Script.Valid, Script.Traced, IsCompiled, NoDuplicates, SoundTo, DirectFine, ReturnsDirect, ReadsCurrent, StreamText, DirectText;
    NotEmpty(s);
    ReadsNotReused(s);
    SoundIff(s);
    AllKeptIff(s, p);
    KeptNotBad(s, p);
    LookupsAreClear(s, p);
    AllInReturned(s, p);
    FaithfulText(s, p, |s.items|, p.StreamOf(p.trace.lastNode));
    ReturnsDirectMeans(s, p);
  }

  lemma ReadsNotReused(s: Script)
    requires forall k :: 0 <= k < |s.items| && s.KindOf(k).Variable? ==> ReadsCurrent(s, k)
    ensures NotReused(s)
  {
    hide Script.KindOf, Script.RecordedName;
    forall k, j | 0 <= k <= j < |s.items| && s.KindOf(k).Variable? ensures s.RecordedName(j) != Some(s.KindOf(k).name) {
      assert ReadsCurrent(s, k);
    }
  }

  lemma LastItem(s: Script, p: Program)
    requires s.items != [] && IsCompiled(s.Traced(), p)
    ensures p.trace.lastNode == s.items[|s.items| - 1]
  {
  }

  lemma AllInReturned(s: Script, p: Program)
    requires s.Valid() && IsCompiled(s.Traced(), p) && p.order == s.items && OneStream(s)
    ensures Returnable(p) && forall k :: 0 <= k < |p.order| ==> p.StreamAt(k) == p.StreamOf(p.trace.lastNode)
  {
    hide Script.Valid, IsCompiled, Script.Traced;
    NotEmpty(s);
    LastItem(s, p);
    var n := |s.items| - 1;
    assert p.StreamAt(n) == p.StreamOf(p.trace.lastNode);
    forall k | 0 <= k < |p.order| ensures p.StreamAt(k) == p.StreamAt(n) { SameStreamIff(s, p, k, n); }
  }

  // ---- Scripts of the same shape ----

  /** Only constant texts differ. */
  ghost predicate SameShape(s: Script, s': Script) {
    && s'.items == s.items && s'.affixes == s.affixes && s'.readAt == s.readAt && s'.kinds.Keys == s.kinds.Keys
    && forall x :: x in s.kinds && x in s'.kinds ==>
         s'.kinds[x] == s.kinds[x] || (s'.kinds[x].ConstantText? && s.kinds[x].ConstantText?)
  }

  lemma ShapeKind(s: Script, s': Script, k: nat)
    requires SameShape(s, s') && k < |s.items|
    ensures s'.KindOf(k) == s.KindOf(k) || (s'.KindOf(k).ConstantText? && s.KindOf(k).ConstantText?)
    ensures NameOf(s'.KindOf(k)) == NameOf(s.KindOf(k)) && s'.ReadAt(k) == s.ReadAt(k)
  {
  }

  lemma {:induction false} ShapeRecorded(s: Script, s': Script, n: nat)
    requires SameShape(s, s') && n <= |s.items|
    ensures s'.Recorded(n) == s.Recorded(n)
    ensures n < |s.items| ==> s'.RecordedName(n) == s.RecordedName(n)
  {
    if n > 0 { ShapeRecorded(s, s', n - 1); }
    if n < |s.items| { ShapeKind(s, s', n); }
  }

  lemma {:induction false} ShapeNamed(s: Script, s': Script, n: nat, name: string)
    requires SameShape(s, s') && n <= |s.items|
    ensures LastNamed(s', n, name) == LastNamed(s, n, name)
  {
    if n > 0 {
      ShapeNamed(s, s', n - 1, name);
      ShapeKind(s, s', n - 1);
    }
  }

  lemma ShapeValid(s: Script, s': Script)
    requires s.Valid() && SameShape(s, s')
    ensures s'.Valid()
  {
    hide Script.KindOf, Script.Recorded;
    forall k | 0 <= k < |s'.items| && s'.KindOf(k).Variable? ensures s'.ReadBefore(k) {
      ShapeKind(s, s', k);
      assert s.ReadBefore(k);
      ShapeRecorded(s, s', s.readAt[s.items[k]]);
    }
  }

  lemma ShapeFaithful(s: Script, s': Script)
    requires SameShape(s, s') && Faithful(s)
    ensures Faithful(s')
  {
    hide Script.KindOf, Script.RecordedName, Script.ReadAt;
    forall k | 0 <= k < |s'.items| && s'.KindOf(k).Variable? ensures ReadsCurrent(s', k) {
      ShapeKind(s, s', k);
      assert ReadsCurrent(s, k);
      forall j | 0 <= j < |s'.items| ensures s'.RecordedName(j) == s.RecordedName(j) && NameOf(s'.KindOf(j)) == NameOf(s.KindOf(j)) {
        ShapeRecorded(s, s', j);
        ShapeKind(s, s', j);
      }
    }
  }

  lemma ShapeFine(s: Script, s': Script, args: set<string>)
    requires SameShape(s, s') && DirectFine(s, args)
    ensures DirectFine(s', args)
  {
    hide Script.KindOf, Script.ReadAt;
    forall k | 0 <= k < |s'.items|
      ensures (s'.KindOf(k).Argument? ==> s'.KindOf(k).name in args)
              && (s'.KindOf(k).Variable? ==> LastNamed(s', s'.ReadAt(k), s'.KindOf(k).name).Some?)
    {
      ShapeKind(s, s', k);
      if s'.KindOf(k).Variable? { ShapeNamed(s, s', s.ReadAt(k), s.KindOf(k).name); }
    }
  }

  /** Traces whose expressions are linked in the same way. */
  ghost predicate SameLinks(t: Trace, t': Trace) {
    && t'.exprs.Keys == t.exprs.Keys && t'.lastNode == t.lastNode
    && forall x :: x in t.exprs && x in t'.exprs ==>
         t'.Prev(x) == t.Prev(x) && t'.Source(x) == t.Source(x) && t'.exprs[x].pid == t.exprs[x].pid
  }

  lemma SameLinksBack(t: Trace, t': Trace)
    requires SameLinks(t, t')
    ensures SameLinks(t', t)
  {
  }

  lemma NeededToo(t: Trace, t': Trace, x: Id)
    requires SameLinks(t, t') && t.Needed(x)
    ensures t'.Needed(x)
  {
    hide Trace.Prev, Trace.Source, Trace.DependsOn;
    var p :| t.Path(p) && p[|p| - 1] == x;
    assert t'.lastNode == t.lastNode && t'.exprs.Keys == t.exprs.Keys;
    forall i | 0 <= i < |p| - 1 ensures t'.DependsOn(p[i], p[i + 1]) { DependsToo(t, t', p[i], p[i + 1]); }
    assert t'.Path(p);
  }

  lemma ReachesToo(t: Trace, t': Trace, x: Id, y: Id)
    requires SameLinks(t, t') && Reaches(t, x, y)
    ensures Reaches(t', x, y)
  {
    hide Trace.Prev, Trace.Source, Trace.DependsOn;
    var p :| PathFrom(t, p, x) && p[|p| - 1] == y;
    forall i | 0 <= i < |p| - 1 ensures p[i] in t'.exprs && t'.DependsOn(p[i], p[i + 1]) { DependsToo(t, t', p[i], p[i + 1]); }
    assert PathFrom(t', p, x);
  }

  lemma CycleToo(t: Trace, t': Trace, x: Id)
    requires SameLinks(t, t') && ReachesCycle(t, x)
    ensures ReachesCycle(t', x)
  {
    hide SameLinks, Reaches;
    var y :| (x == y || Reaches(t, x, y)) && Reaches(t, y, y);
    if x != y { ReachesToo(t, t', x, y); }
    ReachesToo(t, t', y, y);
  }

  lemma AcyclicToo(t: Trace, t': Trace, all: seq<Id>)
    requires SameLinks(t, t') && Acyclic(t, all)
    ensures Acyclic(t', all)
  {
    hide Trace.Prev, Trace.Source;
    var rank :| Ranks(t, all, rank);
    forall x, y | x in all && x in t'.exprs && t'.DependsOn(x, y) ensures x in rank && y in rank && rank[y] < rank[x] {
      DependsToo(t', t, x, y);
    }
    assert Ranks(t', all, rank);
  }

  lemma DependsToo(t: Trace, t': Trace, x: Id, y: Id)
    requires (SameLinks(t, t') || SameLinks(t', t)) && x in t.exprs && t.DependsOn(x, y)
    ensures x in t'.exprs && t'.DependsOn(x, y)
  {
  }

  /** What is compiled from traces with the same links can be the same. */
  lemma CompiledToo(t: Trace, t': Trace, p: Program, q: Program)
    requires SameLinks(t, t') && t'.Valid() && IsCompiled(t, p)
    requires q.trace == t' && q.order == p.order && q.stream == p.stream
    ensures IsCompiled(t', q)
  {
    hide SameLinks, Trace.Needed, ReachesCycle, Acyclic, Missing, Trace.Valid;
    SameLinksBack(t, t');
    forall x ensures t'.Needed(x) <==> t.Needed(x) {
      if t.Needed(x) { NeededToo(t, t', x); }
      if t'.Needed(x) { NeededToo(t', t, x); }
    }
    forall x ensures ReachesCycle(t', x) <==> ReachesCycle(t, x) {
      if ReachesCycle(t, x) { CycleToo(t, t', x); }
      if ReachesCycle(t', x) { CycleToo(t', t, x); }
    }
    forall all ensures Acyclic(t', all) <==> Acyclic(t, all) {
      if Acyclic(t, all) { AcyclicToo(t, t', all); }
      if Acyclic(t', all) { AcyclicToo(t', t, all); }
    }
    forall x, placed | x in t.exprs ensures x in t'.exprs && Missing(t', x, placed) == Missing(t, x, placed) {
      MissingToo(t, t', x, placed);
    }
    forall x | x in t'.exprs ensures x in t.exprs && t'.exprs[x].pid == t.exprs[x].pid { SamePid(t, t', x); }
    CoversToo(t, t');
  }

  lemma MissingToo(t: Trace, t': Trace, x: Id, placed: seq<Id>)
    requires SameLinks(t, t') && x in t.exprs
    ensures x in t'.exprs && Missing(t', x, placed) == Missing(t, x, placed)
  {
  }

  lemma SamePid(t: Trace, t': Trace, x: Id)
    requires SameLinks(t, t') && x in t'.exprs
    ensures x in t.exprs && t'.exprs[x].pid == t.exprs[x].pid
    ensures t'.lastNode == t.lastNode
  {
  }

  lemma CoversToo(t: Trace, t': Trace)
    requires forall x :: t'.Needed(x) <==> t.Needed(x)
    requires forall all :: Acyclic(t', all) <==> Acyclic(t, all)
    ensures (exists all :: Covers(t', all) && Acyclic(t', all)) <==> (exists all :: Covers(t, all) && Acyclic(t, all))
  {
    hide Trace.Needed, Acyclic;
    if all :| Covers(t', all) && Acyclic(t', all) { assert Covers(t, all); }
    if all :| Covers(t, all) && Acyclic(t, all) { assert Covers(t', all); }
  }

  lemma {:induction false} ShapeExprs(s: Script, s': Script, n: nat)
    requires SameShape(s, s') && n <= |s.items|
    ensures s'.Exprs(n).Keys == s.Exprs(n).Keys
    ensures forall x :: x in s.Exprs(n) && x in s'.Exprs(n) ==>
              var e, e' := s.Exprs(n)[x], s'.Exprs(n)[x];
              && e'.prevNode == e.prevNode && e'.pid == e.pid
              && (e'.kind == e.kind || (e'.kind.ConstantText? && e.kind.ConstantText?))
  {
    if n > 0 {
      ShapeExprs(s, s', n - 1);
      ShapeKind(s, s', n - 1);
    }
  }

  lemma ShapeLinks(s: Script, s': Script)
    requires s.Valid() && SameShape(s, s')
    ensures s'.items != [] && SameLinks(s.Traced(), s'.Traced())
  {
    hide Script.Exprs, Script.Recorded;
    ShapeExprs(s, s', |s.items|);
    ShapeRecorded(s, s', |s.items|);
  }

  // ---- Where they differ ----

  /** The script of the same shape in which every constant text is one character long. */
  function Uniform(s: Script): Script {
    s.(kinds := map x | x in s.kinds :: if s.kinds[x].ConstantText? then ConstantText("x") else s.kinds[x])
  }

  function Letters(g: Option<Id>, x: Id): string { if g == Some(x) then "xx" else "x" }

  /** One letter per argument and answer, but two for the answers of the expression g. */
  function Weighed(p: Program, t: Trace, g: Option<Id>): Program {
    p.(trace := t, args := map name | name in p.args :: "x",
       generate := (text, x: Id) => Letters(g, x), select := (text, x: Id) => Letters(g, x))
  }

  lemma WeighedCompiled(s: Script, p: Program, g: Option<Id>)
    requires s.Valid() && IsCompiled(s.Traced(), p)
    ensures SameShape(s, Uniform(s)) && Uniform(s).Valid()
    ensures var q := Weighed(p, Uniform(s).Traced(), g);
            && IsCompiled(Uniform(s).Traced(), q) && q.args.Keys == p.args.Keys && q.order == p.order && q.stream == p.stream
  {
    hide Script.Valid, IsCompiled, Script.Traced;
    NotEmpty(s);
    var u := Uniform(s);
    assert SameShape(s, u);
    ShapeValid(s, u);
    NotEmpty(u);
    TracedValid(u);
    ShapeLinks(s, u);
    CompiledToo(s.Traced(), u.Traced(), p, Weighed(p, u.Traced(), g));
  }

  /** How many letters the k-th append adds to the direct text of the uniform script. */
  lemma UniformDirectOut(s: Script, p: Program, g: Option<Id>, k: nat)
    requires s.Valid() && DirectFine(s, p.args.Keys) && k < |s.items|
    ensures var out := DirectOut(Uniform(s), InputOf(Weighed(p, Uniform(s).Traced(), g)), k);
            out == if s.KindOf(k).Variable? then Letters(g, s.items[LastNamed(s, s.ReadAt(k), s.KindOf(k).name).value])
                   else if s.KindOf(k).Gen? || s.KindOf(k).Select? then Letters(g, s.items[k])
                   else "x"
  {
    hide Script.Traced;
    var u := Uniform(s);
    ShapeKind(s, u, k);
    if s.KindOf(k).Variable? {
      ShapeNamed(s, u, s.ReadAt(k), s.KindOf(k).name);
      var d := LastNamed(s, s.ReadAt(k), s.KindOf(k).name).value;
      ShapeKind(s, u, d);
    }
  }

  /** How many letters a kept expression adds to its stream. */
  lemma UniformOut(s: Script, p: Program, g: Option<Id>, k: nat)
    requires s.Valid() && IsCompiled(s.Traced(), p) && DirectFine(s, p.args.Keys) && k < |p.order|
    ensures p.order <= s.items
    ensures var q := Weighed(p, Uniform(s).Traced(), g);
            s.KindOf(k).Variable? ==> Definer(q, k, q.SourceStream(k), s.KindOf(k).name).Some?
    ensures var q := Weighed(p, Uniform(s).Traced(), g);
            Out(q, k) == if s.KindOf(k).Variable? then
                           Letters(g, s.items[Definer(q, k, q.SourceStream(k), s.KindOf(k).name).value])
                         else if s.KindOf(k).Gen? || s.KindOf(k).Select? then Letters(g, s.items[k])
                         else "x"
    ensures NoneBad(Weighed(p, Uniform(s).Traced(), g), |p.order|)
  {
    hide Script.Traced, IsCompiled, SoundTo, Script.Valid, DirectFine, Program.StreamAt, Program.SourceStream, StreamText;
    NotEmpty(s);
    WeighedCompiled(s, p, g);
    var u, q := Uniform(s), Weighed(p, Uniform(s).Traced(), g);
    var c := KeptPrefix(s, p);
    ShapeFine(s, u, p.args.Keys);
    KeptNotBad(u, q);
    PositionsAre(u, q, k);
    UniformKind(s, k);
    ArgumentsOf(s, p, k);
    if s.KindOf(k).Variable? {
      DefinerFound(q, k, s.KindOf(k).name);
      var d := Definer(q, k, q.SourceStream(k), s.KindOf(k).name).value;
      PositionsAre(u, q, d);
      UniformKind(s, d);
    }
  }

  lemma UniformKind(s: Script, k: nat)
    requires s.Valid() && k < |s.items|
    ensures Uniform(s).KindOf(k) == if s.KindOf(k).ConstantText? then ConstantText("x") else s.KindOf(k)
  {
  }

  lemma ArgumentsOf(s: Script, p: Program, k: nat)
    requires DirectFine(s, p.args.Keys) && k < |s.items|
    ensures s.KindOf(k).Argument? ==> s.KindOf(k).name in p.args
  {
  }

  /** How many expressions before position n belong to a stream. */
  function Count(p: Program, n: nat, r: nat): nat
    requires n <= |p.order|
  {
    if n == 0 then 0 else Count(p, n - 1, r) + if p.StreamAt(n - 1) == r then 1 else 0
  }

  lemma {:induction false} CountsAll(p: Program, n: nat, r: nat)
    requires n <= |p.order|
    ensures Count(p, n, r) <= n && (Count(p, n, r) == n <==> forall k :: 0 <= k < n ==> p.StreamAt(k) == r)
  {
    if n > 0 { CountsAll(p, n - 1, r); }
  }

  lemma {:induction false} CountIsLength(p: Program, n: nat, r: nat)
    requires n <= |p.order| && forall k :: 0 <= k < n ==> |Out(p, k)| == 1
    ensures |StreamText(p, n, r)| == Count(p, n, r)
  {
    hide Out;
    if n > 0 {
      CountIsLength(p, n - 1, r);
      TextStepOf(p, n, r);
    }
  }

  lemma {:induction false} DirectLength(s: Script, i: Input, n: nat)
    requires n <= |s.items| && forall k :: 0 <= k < n ==> |DirectOut(s, i, k)| == 1
    ensures |DirectText(s, i, n)| == n
  {
    hide DirectOut;
    if n > 0 { DirectLength(s, i, n - 1); }
  }

  lemma UniformLengths(s: Script, p: Program, q: Program, r: nat)
    requires s.Valid() && IsCompiled(s.Traced(), p) && DirectFine(s, p.args.Keys)
    requires q == Weighed(p, Uniform(s).Traced(), None)
    ensures |StreamText(q, |p.order|, r)| == Count(q, |p.order|, r)
    ensures |DirectText(Uniform(s), InputOf(q), |s.items|)| == |s.items|
  {
    hide Script.Valid, Script.Traced, IsCompiled, DirectFine, Out, DirectOut;
    forall k | 0 <= k < |p.order| ensures |Out(q, k)| == 1 {
      UniformOut(s, p, None, k);
    }
    CountIsLength(q, |p.order|, r);
    forall k | 0 <= k < |s.items| ensures |DirectOut(Uniform(s), InputOf(q), k)| == 1 {
      UniformDirectOut(s, p, None, k);
    }
    DirectLength(Uniform(s), InputOf(q), |s.items|);
  }

  lemma DefinerFound(q: Program, k: nat, name: string)
    requires k < |q.order| && NoneBad(q, |q.order|) && q.KindAt(k).Variable? && q.KindAt(k).name == name
    ensures Definer(q, k, q.SourceStream(k), name).Some?
  {
    assert !Bad(q, k);
  }

  /** If something is not kept, or an affix and something else are appended, the returned text is too short. */
  lemma UnsoundDiffers(s: Script, p: Program)
    requires s.Valid() && IsCompiled(s.Traced(), p) && DirectFine(s, p.args.Keys)
    requires !(SoundTo(s, |s.items|) && OneStream(s))
    ensures !ReturnsDirect(Uniform(s), Weighed(p, Uniform(s).Traced(), None))
  {
    hide Script.Valid, Script.Traced, IsCompiled, SoundTo, DirectFine, ReturnsDirect, Uniform, Weighed, StreamText, DirectText;
    NotEmpty(s);
    var u := Uniform(s);
    WeighedCompiled(s, p, None);
    NotEmpty(u);
    var q := Weighed(p, u.Traced(), None);
    ShapeFine(s, u, p.args.Keys);
    LookupsAreClear(u, q);
    KeptNotBad(u, q);
    ReturnsDirectMeans(u, q);
    var r := q.StreamOf(q.trace.lastNode);
    UniformLengths(s, p, q, r);
    CountsAll(q, |p.order|, r);
    AllKeptIff(s, p);
    if |p.order| == |s.items| {
      var j, k :| 0 <= j < |s.items| && 0 <= k < |s.items| && s.items[j] in s.affixes && s.items[k] !in s.affixes;
      ShapeItems(s, u);
      SameStreamIff(u, q, j, k);
    }
  }

  lemma ShapeItems(s: Script, s': Script)
    requires SameShape(s, s')
    ensures s'.items == s.items && s'.affixes == s.affixes
  {
  }

  // ---- A variable that is appended after its name was generated again ----

  lemma {:induction false} Longer(s: Script, q: Program, n: nat, r: nat, k: nat)
    requires n <= |q.order| == |s.items| && (forall j :: 0 <= j < |q.order| ==> q.StreamAt(j) == r)
    requires forall j :: 0 <= j < n ==> |DirectOut(s, InputOf(q), j)| <= |Out(q, j)|
    requires k < n ==> |DirectOut(s, InputOf(q), k)| < |Out(q, k)|
    ensures |DirectText(s, InputOf(q), n)| <= |StreamText(q, n, r)|
    ensures k < n ==> |DirectText(s, InputOf(q), n)| < |StreamText(q, n, r)|
  {
    hide Out, DirectOut, Program.StreamAt;
    if n > 0 {
      Longer(s, q, n - 1, r, k);
      TextStepOf(q, n, r);
    }
  }

  /** The last object of the name that a stale variable has. */
  lemma StaleName(s: Script, k: nat) returns (d: nat)
    requires s.Valid() && k < |s.items| && s.KindOf(k).Variable? && SoundTo(s, |s.items|) && !ReadsCurrent(s, k)
    ensures LastNamed(s, |s.items|, s.KindOf(k).name) == Some(d) && s.ReadAt(k) <= d < k
  {
    hide Script.Valid, Script.KindOf, Script.RecordedName, SoundTo, Script.ReadAt;
    SoundIff(s);
    var j :| s.ReadAt(k) <= j < k && NameOf(s.KindOf(j)) == Some(s.KindOf(k).name);
    d := LastNamed(s, |s.items|, s.KindOf(k).name).value;
    if d >= k { NamedIsRecorded(s, d, s.KindOf(k).name); }
  }

  /** Giving two letters to that object: every append adds at least as much to the returned text as to the
      direct one, and the variable adds more. */
  lemma StaleOuts(s: Script, p: Program, q: Program, d: nat, name: string, r: nat, k: nat)
    requires s.Valid() && IsCompiled(s.Traced(), p) && DirectFine(s, p.args.Keys) && p.order == s.items
    requires SoundTo(s, |s.items|) && LastNamed(s, |s.items|, name) == Some(d) && k < |s.items|
    requires q == Weighed(p, Uniform(s).Traced(), Some(s.items[d])) && forall j :: 0 <= j < |p.order| ==> q.StreamAt(j) == r
    ensures |DirectOut(Uniform(s), InputOf(q), k)| <= |Out(q, k)|
    ensures s.KindOf(k).Variable? && s.KindOf(k).name == name && s.ReadAt(k) <= d < k ==>
              |DirectOut(Uniform(s), InputOf(q), k)| < |Out(q, k)|
  {
    hide Script.Traced, IsCompiled, SoundTo, Out, DirectOut, DirectFine, Weighed, Uniform, Script.Valid, Script.RecordedName, Script.KindOf;
    var g, u := Some(s.items[d]), Uniform(s);
    NotEmpty(s);
    UniformOut(s, p, g, k);
    UniformDirectOut(s, p, g, k);
    if s.KindOf(k).Variable? {
      WeighedCompiled(s, p, g);
      ShapeItems(s, u);
      StaleDefiner(s, u, q, k, r);
      FoundDirectly(s, p.args.Keys, k);
      var e, f := LastNamed(s, s.ReadAt(k), s.KindOf(k).name).value, LastNamed(s, |s.items|, s.KindOf(k).name).value;
      if s.items[e] == s.items[d] { SoundUniqueTo(s, |s.items|, e, d); }
      if s.items[f] == s.items[d] { SoundUniqueTo(s, |s.items|, f, d); }
    }
  }

  lemma FoundDirectly(s: Script, args: set<string>, k: nat)
    requires DirectFine(s, args) && k < |s.items| && s.KindOf(k).Variable?
    ensures LastNamed(s, s.ReadAt(k), s.KindOf(k).name).Some?
    ensures LastNamed(s, |s.items|, s.KindOf(k).name).Some?
  {
  }

  /** A kept variable finds the last object of its name. */
  lemma StaleDefiner(s: Script, u: Script, q: Program, k: nat, r: nat)
    requires s.Valid() && SameShape(s, u) && u.Valid() && IsCompiled(u.Traced(), q) && q.order == s.items
    requires SoundTo(s, |s.items|) && k < |s.items| && s.KindOf(k).Variable?
    requires forall j :: 0 <= j < |q.order| ==> q.StreamAt(j) == r
    ensures Definer(q, k, q.SourceStream(k), s.KindOf(k).name) == LastNamed(s, |s.items|, s.KindOf(k).name)
  {
    hide Script.Traced, IsCompiled, SoundTo, Script.Valid, Script.RecordedName, Program.StreamAt, Script.KindOf;
    var name := s.KindOf(k).name;
    NotEmpty(u);
    ShapeKind(s, u, k);
    PositionsAre(u, q, k);
    AllKeptIff(u, q);
    var d := KeptSource(u, q, k);
    SameDefiner(u, q, k, r, name);
    ShapeNamed(s, u, k, name);
    SoundIff(s);
    forall j | k <= j < |s.items| ensures NameOf(s.KindOf(j)) != Some(name) {
      if NameOf(s.KindOf(j)) == Some(name) { NamedIsRecorded(s, j, name); }
    }
    SameValue(s, k, |s.items|, name);
  }

  lemma StaleDiffers(s: Script, p: Program, k: nat)
    requires s.Valid() && IsCompiled(s.Traced(), p) && DirectFine(s, p.args.Keys)
    requires SoundTo(s, |s.items|) && OneStream(s) && k < |s.items| && s.KindOf(k).Variable? && !ReadsCurrent(s, k)
    ensures exists g :: !ReturnsDirect(Uniform(s), Weighed(p, Uniform(s).Traced(), g))
  {
    hide Script.Valid, Script.Traced, IsCompiled, SoundTo, DirectFine, ReturnsDirect, Uniform, Weighed, StreamText,
         DirectText, ReadsCurrent, Out, DirectOut, Script.KindOf;
    NotEmpty(s);
    var d := StaleName(s, k);
    var g, u := Some(s.items[d]), Uniform(s);
    WeighedCompiled(s, p, g);
    NotEmpty(u);
    ShapeItems(s, u);
    var q := Weighed(p, u.Traced(), g);
    ShapeFine(s, u, p.args.Keys);
    LookupsAreClear(u, q);
    KeptNotBad(u, q);
    AllKeptIff(s, p);
    var r := q.StreamOf(q.trace.lastNode);
    AllInReturned(u, q);
    forall j | 0 <= j < |s.items| ensures |DirectOut(u, InputOf(q), j)| <= |Out(q, j)| {
      StaleOuts(s, p, q, d, s.KindOf(k).name, r, j);
    }
    StaleOuts(s, p, q, d, s.KindOf(k).name, r, k);
    Longer(u, q, |s.items|, r, k);
    ReturnsDirectMeans(u, q);
  }

  // ---- The main result ----

  /** Let the direct run of a script not fail. Then no run of its compiled form fails and every finished run
      returns the direct text, for all constant texts, arguments and backends, exactly if the script is
      faithful: no object is appended twice, every variable is appended before its name is generated again,
      and no previous edge leaves its stream. */
  lemma ReturnsDirectIff(s: Script, p: Program)
    requires s.Valid() && IsCompiled(s.Traced(), p) && DirectFine(s, p.args.Keys)
    ensures (forall s', q :: SameShape(s, s') && s'.items != [] && IsCompiled(s'.Traced(), q) && q.args.Keys == p.args.Keys ==>
               ReturnsDirect(s', q))
            <==> Faithful(s)
  {
    hide Script.Valid, Script.Traced, IsCompiled, DirectFine, ReturnsDirect, SameShape, Uniform, Weighed, NoDuplicates,
         SoundTo, ReadsCurrent, OneStream, NotReused;
    NotEmpty(s);
    if Faithful(s) {
      forall s', q | SameShape(s, s') && s'.items != [] && IsCompiled(s'.Traced(), q) && q.args.Keys == p.args.Keys
        ensures ReturnsDirect(s', q)
      {
        ShapeValid(s, s');
        ShapeFaithful(s, s');
        ShapeFine(s, s', p.args.Keys);
        FaithfulReturns(s', q);
      }
    } else {
      SoundIff(s);
      WeighedCompiled(s, p, None);
      var u, g := Uniform(s), None;
      NotEmpty(u);
      if !(SoundTo(s, |s.items|) && OneStream(s)) {
        UnsoundDiffers(s, p);
      } else {
        var k :| 0 <= k < |s.items| && s.KindOf(k).Variable? && !ReadsCurrent(s, k);
        StaleDiffers(s, p, k);
        g :| !ReturnsDirect(u, Weighed(p, u.Traced(), g));
      }
      WeighedCompiled(s, p, g);
      assert !ReturnsDirect(u, Weighed(p, u.Traced(), g));
    }
  }

  /** The dependencies of a script are acyclic exactly if no object is appended twice and no name is
      recorded again once a variable of it was appended; then, and only then, everything is kept. */
  lemma AcyclicIff(s: Script, p: Program)
    requires s.Valid() && IsCompiled(s.Traced(), p)
    ensures (exists all :: Covers(s.Traced(), all) && Acyclic(s.Traced(), all)) <==> NoDuplicates(s.items) && NotReused(s)
    ensures p.order == s.items <==> NoDuplicates(s.items) && NotReused(s)
  {
    hide Script.Valid, Script.Traced, IsCompiled, SoundTo, NoDuplicates, NotReused, Covers, Acyclic;
    SoundIff(s);
    AllKeptIff(s, p);
  }

  /** Let the direct run of a script not fail. Some run of its compiled form fails exactly if nothing that is
      kept is in the stream of the last object. */
  lemma FailsIff(s: Script, p: Program)
    requires s.Valid() && IsCompiled(s.Traced(), p) && DirectFine(s, p.args.Keys)
    ensures (exists run :: IsRun(p, run) && Last(run).failed)
            <==> forall k :: 0 <= k < |s.items| && SoundAndNeeded(s, k) ==>
                   !(s.items[k] in s.affixes <==> s.items[|s.items| - 1] in s.affixes)
  {
    hide Script.Valid, Script.Traced, IsCompiled, DirectFine, SoundAndNeeded, Next, Init;
    NotEmpty(s);
    var c := KeptPrefix(s, p);
    KeptNotBad(s, p);
    LookupsAreClear(s, p);
    FailureIff(p);
    forall k | 0 <= k < |p.order|
      ensures p.StreamOf(p.order[k]) == p.StreamOf(p.trace.lastNode)
              <==> (s.items[k] in s.affixes <==> s.items[|s.items| - 1] in s.affixes)
    {
      LastStream(s, p, k);
    }
    forall x | x in p.order ensures exists k :: 0 <= k < |p.order| && p.order[k] == x { }
  }

  lemma LastStream(s: Script, p: Program, k: nat)
    requires s.Valid() && IsCompiled(s.Traced(), p) && p.order <= s.items && k < |p.order|
    ensures s.items != []
    ensures p.StreamOf(p.order[k]) == p.StreamOf(p.trace.lastNode)
            <==> (s.items[k] in s.affixes <==> s.items[|s.items| - 1] in s.affixes)
  {
    hide Script.Valid, Script.Traced, Trace.Valid, Trace.Needed, ReachesCycle, Acyclic, Covers, Ordered, Missing;
    NotEmpty(s);
    PositionsAre(s, p, k);
    LastNeeded(s);
    LastItem(s, p);
    var j := LinksOf(s, s.items[|s.items| - 1]);
  }

  // ---- Inputs ----

  /** "A", an argument, "B", and the argument again. */
  function AppendedTwice(a: string, q: string, b: string): Script {
    Script([0, 1, 2, 1], map[0 := ConstantText(a), 1 := Argument(q), 2 := ConstantText(b)], {}, map[])
  }

  /** Its compiled form keeps nothing, and every run fails where the caller looks for what to return. */
  lemma AppendedTwiceFails(p: Program, a: string, q: string, b: string)
    requires IsCompiled(AppendedTwice(a, q, b).Traced(), p) && q in p.args
    ensures AppendedTwice(a, q, b).Valid() && DirectFine(AppendedTwice(a, q, b), p.args.Keys)
    ensures p.order == [] && exists run :: IsRun(p, run) && Last(run).failed
  {
    hide IsCompiled, Trace.Needed, Script.Exprs, Script.Recorded, Next, Init;
    var s := AppendedTwice(a, q, b);
    var c := KeptPrefix(s, p);
    assert s.items[1] == s.items[3] && !Sound(s, 1);
    assert !SoundAndNeeded(s, 1);
    FirstNotNeeded(a, q, b);
    assert !SoundAndNeeded(s, 0);
    FailsIff(s, p);
  }

  lemma FirstNotNeeded(a: string, q: string, b: string)
    ensures !AppendedTwice(a, q, b).Traced().Needed(0)
  {
    hide Script.Exprs, Script.Recorded;
    var s := AppendedTwice(a, q, b);
    var t := s.Traced();
    TracedValid(s);
    var i := LinksOf(s, 1);
    var j := LinksOf(s, 2);
    assert i == 3 && j == 2;
    if path :| t.Path(path) && path[|path| - 1] == 0 {
      ClosedHoldsPath(t, [1, 2], path);
    }
  }

  /** A generation, an argument, "B", the argument again, and what was generated. */
  function ReadAfterTwice(q: string, b: string): Script {
    Script([0, 1, 2, 1, 3], map[0 := Gen(Some("a")), 1 := Argument(q), 2 := ConstantText(b), 3 := Variable("a", 0)],
           {}, map[3 := 4])
  }

  /** Its compiled form keeps the generation alone. Every run of it returns what was generated and drops
      the rest of the text. */
  lemma ReadAfterTwiceDrops(p: Program, q: string, b: string)
    requires IsCompiled(ReadAfterTwice(q, b).Traced(), p) && q in p.args
    ensures ReadAfterTwice(q, b).Valid() && DirectFine(ReadAfterTwice(q, b), p.args.Keys)
    ensures p.order == [0] && p.Valid() && Safe(p)
    ensures var g := p.generate("", 0);
            && StreamText(p, 1, p.StreamOf(p.trace.lastNode)) == g
            && DirectText(ReadAfterTwice(q, b), InputOf(p), 5) == g + p.args[q] + b + p.args[q] + g
            && (ReturnsDirect(ReadAfterTwice(q, b), p) <==> p.args[q] + b + p.args[q] + g == "")
  {
    hide IsCompiled, Trace.Needed, Script.Exprs, NoneBad, ReturnsDirect;
    var s := ReadAfterTwice(q, b);
    ReadAfterTwiceFine(p, q, b);
    var c := KeptPrefix(s, p);
    assert s.items[1] == s.items[3] && !Sound(s, 1);
    assert !SoundAndNeeded(s, 1);
    GenerationNeeded(q, b);
    assert Sound(s, 0);
    assert SoundAndNeeded(s, 0);
    LookupsAreClear(s, p);
    KeptNotBad(s, p);
    LastStream(s, p, 0);
    PositionsAre(s, p, 0);
    ReturnableIff(p);
    assert StreamText(p, 1, p.StreamOf(p.trace.lastNode)) == StreamText(p, 0, p.StreamOf(p.trace.lastNode)) + Out(p, 0);
    ReturnsDirectMeans(s, p);
    var g := p.generate("", 0);
    assert g + p.args[q] + b + p.args[q] + g == g + (p.args[q] + b + p.args[q] + g);
    Cancel(g, p.args[q] + b + p.args[q] + g, "");
  }

  lemma Cancel(a: string, x: string, y: string)
    ensures a + x == a + y <==> x == y
  {
    assert (a + x)[|a|..] == x && (a + y)[|a|..] == y;
  }

  lemma ReadAfterTwiceFine(p: Program, q: string, b: string)
    requires q in p.args
    ensures ReadAfterTwice(q, b).Valid() && DirectFine(ReadAfterTwice(q, b), p.args.Keys)
    ensures var g := p.generate("", 0);
            DirectText(ReadAfterTwice(q, b), InputOf(p), 5) == g + p.args[q] + b + p.args[q] + g
  {
    hide DirectText, DirectOut, Script.Recorded, LastNamed;
    var s := ReadAfterTwice(q, b);
    ReadAfterTwiceRecorded(q, b);
    assert s.ReadBefore(4);
    ReadAfterTwiceText(p, q, b);
  }

  lemma ReadAfterTwiceRecorded(q: string, b: string)
    ensures ReadAfterTwice(q, b).Recorded(4) == map["a" := 0]
    ensures LastNamed(ReadAfterTwice(q, b), 4, "a") == Some(0)
  {
    var s := ReadAfterTwice(q, b);
    assert s.RecordedName(0) == Some("a") && s.RecordedName(1) == s.RecordedName(2) == s.RecordedName(3) == None;
    assert s.Recorded(1) == map["a" := 0] && s.Recorded(2) == s.Recorded(1) && s.Recorded(3) == s.Recorded(2);
    assert LastNamed(s, 1, "a") == Some(0) && LastNamed(s, 2, "a") == Some(0) && LastNamed(s, 3, "a") == Some(0);
  }

  lemma ReadAfterTwiceText(p: Program, q: string, b: string)
    requires q in p.args
    ensures var g := p.generate("", 0);
            DirectText(ReadAfterTwice(q, b), InputOf(p), 5) == g + p.args[q] + b + p.args[q] + g
  {
    hide LastNamed, Script.Recorded;
    var s, i := ReadAfterTwice(q, b), InputOf(p);
    ReadAfterTwiceRecorded(q, b);
    assert DirectText(s, i, 0) == "" && DirectOut(s, i, 0) == p.generate("", 0);
    assert DirectText(s, i, 1) == DirectOut(s, i, 0) && DirectText(s, i, 2) == DirectText(s, i, 1) + p.args[q];
    assert DirectText(s, i, 3) == DirectText(s, i, 2) + b && DirectText(s, i, 4) == DirectText(s, i, 3) + p.args[q];
    assert DirectOut(s, i, 4) == DirectOut(s, i, 0);
  }

  lemma GenerationNeeded(q: string, b: string)
    requires ReadAfterTwice(q, b).Valid()
    ensures ReadAfterTwice(q, b).Traced().Needed(0)
  {
    hide Script.Exprs, Script.Recorded;
    var s := ReadAfterTwice(q, b);
    var t := s.Traced();
    SourceOf(s, 4);
    assert s.RecordedName(0) == Some("a");
    assert LastRecorder(s, 5, "a") == Some(0);
    TracedKeys(s);
    assert 0 in s.items && 3 in s.items;
    assert t.DependsOn(3, 0);
    assert t.Path([3, 0]) && [3, 0][|[3, 0]| - 1] == 0;
  }

  /** A variable that is read, and appended after its name was generated again. */
  const HELD_VARIABLE := Script([0, 1, 2], map[0 := Gen(Some("a")), 1 := Gen(Some("a")), 2 := Variable("a", 0)], {}, map[2 := 1])

  /** The direct run appends what was read; the compiled program looks the name up again. */
  lemma HeldVariableIsStale(p: Program)
    requires IsCompiled(HELD_VARIABLE.Traced(), p)
    ensures HELD_VARIABLE.Valid() && DirectFine(HELD_VARIABLE, p.args.Keys)
    ensures p.order == [0, 1, 2] && p.Valid() && Safe(p)
    ensures var first := p.generate("", 0); var second := p.generate(first, 1);
            && StreamText(p, 3, p.StreamOf(p.trace.lastNode)) == first + second + second
            && DirectText(HELD_VARIABLE, InputOf(p), 3) == first + second + first
            && (ReturnsDirect(HELD_VARIABLE, p) <==> first == second)
  {
    hide IsCompiled, Trace.Needed, Script.Exprs, NoneBad, ReturnsDirect;
    var s := HELD_VARIABLE;
    HeldVariableFine(p);
    AcyclicIff(s, p);
    LookupsAreClear(s, p);
    KeptNotBad(s, p);
    AllInReturned(s, p);
    HeldVariableText(p);
    ReturnsDirectMeans(s, p);
    var first := p.generate("", 0);
    Cancel(first + p.generate(first, 1), p.generate(first, 1), first);
  }

  lemma HeldVariableFine(p: Program)
    ensures HELD_VARIABLE.Valid() && DirectFine(HELD_VARIABLE, p.args.Keys)
    ensures NoDuplicates(HELD_VARIABLE.items) && NotReused(HELD_VARIABLE) && OneStream(HELD_VARIABLE)
    ensures var first := p.generate("", 0); var second := p.generate(first, 1);
            DirectText(HELD_VARIABLE, InputOf(p), 3) == first + second + first
  {
    hide DirectText, DirectOut, Script.Recorded;
    var s := HELD_VARIABLE;
    assert s.ReadBefore(2) by { HeldVariableRead(); }
    HeldVariableName();
    HeldVariableDirect(p);
  }

  lemma HeldVariableRead()
    ensures HELD_VARIABLE.Recorded(1) == map["a" := 0]
  {
    assert HELD_VARIABLE.RecordedName(0) == Some("a") && HELD_VARIABLE.Recorded(0) == map[];
  }

  lemma HeldVariableName()
    ensures LastNamed(HELD_VARIABLE, 1, "a") == Some(0)
  {
  }

  lemma HeldVariableDirect(p: Program)
    ensures var first := p.generate("", 0); var second := p.generate(first, 1);
            DirectText(HELD_VARIABLE, InputOf(p), 3) == first + second + first
  {
    var s, i := HELD_VARIABLE, InputOf(p);
    HeldVariableName();
    assert DirectText(s, i, 0) == "" && DirectOut(s, i, 0) == p.generate("", 0);
    assert DirectText(s, i, 1) == DirectOut(s, i, 0);
    assert DirectText(s, i, 2) == DirectText(s, i, 1) + DirectOut(s, i, 1);
    assert DirectOut(s, i, 2) == DirectOut(s, i, 0);
  }

  lemma HeldVariableText(p: Program)
    requires IsCompiled(HELD_VARIABLE.Traced(), p) && HELD_VARIABLE.Valid() && p.order == [0, 1, 2] && SoundTo(HELD_VARIABLE, 3)
    requires forall k :: 0 <= k < |p.order| ==> p.StreamAt(k) == p.StreamOf(p.trace.lastNode)
    ensures var first := p.generate("", 0); var second := p.generate(first, 1);
            StreamText(p, 3, p.StreamOf(p.trace.lastNode)) == first + second + second
  {
    hide IsCompiled, Script.Exprs, Script.Recorded, SoundTo;
    var s, r := HELD_VARIABLE, p.StreamOf(p.trace.lastNode);
    PositionsAre(s, p, 0);
    PositionsAre(s, p, 1);
    PositionsAre(s, p, 2);
    var d := KeptSource(s, p, 2);
    assert StreamText(p, 0, r) == "" && StreamText(p, 1, r) == Out(p, 0) && StreamText(p, 2, r) == Out(p, 0) + Out(p, 1);
    assert Definer(p, 2, r, "a") == Some(1);
    assert Out(p, 2) == Out(p, 1);
  }

  /** The trace of one user turn: the tracer gives the affixes of a role no stream. */
  function UserTurn(prefix: string, content: string, suffix: string): Script {
    Script([0, 1, 2], map[0 := ConstantText(prefix), 1 := ConstantText(content), 2 := ConstantText(suffix)], {0, 2}, map[])
  }

  /** Its compiled form keeps everything and never fails, but what it returns lacks the content. */
  lemma UserTurnLosesContent(p: Program, prefix: string, content: string, suffix: string)
    requires IsCompiled(UserTurn(prefix, content, suffix).Traced(), p)
    ensures UserTurn(prefix, content, suffix).Valid() && p.order == [0, 1, 2] && p.Valid() && Safe(p)
    ensures StreamText(p, 3, p.StreamOf(p.trace.lastNode)) == prefix + suffix
    ensures DirectText(UserTurn(prefix, content, suffix), InputOf(p), 3) == prefix + content + suffix
    ensures ReturnsDirect(UserTurn(prefix, content, suffix), p) <==> content == ""
  {
    hide IsCompiled, Trace.Needed, Script.Traced, NoneBad, ReturnsDirect, StreamText, DirectText, NotReused, Program.StreamOf;
    var s := UserTurn(prefix, content, suffix);
    UserTurnFine(prefix, content, suffix, p.args.Keys);
    AcyclicIff(s, p);
    LookupsAreClear(s, p);
    KeptNotBad(s, p);
    LastStream(s, p, 0);
    LastStream(s, p, 1);
    LastStream(s, p, 2);
    ReturnableIff(p);
    PositionsAre(s, p, 0);
    PositionsAre(s, p, 1);
    PositionsAre(s, p, 2);
    UserTurnText(p, p.StreamOf(p.trace.lastNode), prefix, content, suffix);
    ReturnsDirectMeans(s, p);
    assert |prefix + suffix| == |prefix + content + suffix| <==> content == "";
  }

  lemma UserTurnFine(prefix: string, content: string, suffix: string, args: set<string>)
    ensures var s := UserTurn(prefix, content, suffix); s.Valid() && DirectFine(s, args) && NoDuplicates(s.items) && NotReused(s)
  {
  }

  lemma UserTurnText(p: Program, r: nat, prefix: string, content: string, suffix: string)
    requires p.order == [0, 1, 2] && p.StreamAt(0) == p.StreamAt(2) == r && p.StreamAt(1) != r
    requires p.KindAt(0) == ConstantText(prefix) && p.KindAt(2) == ConstantText(suffix)
    ensures StreamText(p, 3, r) == prefix + suffix
    ensures DirectText(UserTurn(prefix, content, suffix), InputOf(p), 3) == prefix + content + suffix
  {
    hide Program.StreamAt, Program.KindAt;
    var s, i := UserTurn(prefix, content, suffix), InputOf(p);
    assert StreamText(p, 0, r) == "" && StreamText(p, 1, r) == prefix && StreamText(p, 2, r) == prefix;
    assert DirectText(s, i, 0) == "" && DirectText(s, i, 1) == prefix && DirectText(s, i, 2) == prefix + content;
  }

  /** Tracing and compiling a script; whatever names it repeats, the program can be run. */
  method CompileScript(s: Script, i: Input) returns (p: Program)
    requires s.Valid()
    ensures IsCompiled(s.Traced(), p) && InputOf(p) == i && p.Valid()
  {
    hide Script.Valid, Script.Traced, IsCompiled;
    var t := TraceProgram(s);
    p := Compile(t, i.args, i.generate, i.select);
    LookupsAreClear(s, p);
  }
}
