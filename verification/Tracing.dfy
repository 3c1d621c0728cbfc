/** Extracting a cacheable prefix by tracing: the program runs once with dummy arguments against a
    tracer that keeps its own role state, and the constant text recorded before anything else is the
    prefix. When is it a prefix of what the program really produces? */
module Tracing {
  import opened Options
  import opened ChatTemplates
  import opened ChatSession
  import opened Strings

  /** What a program appends to its state. The last one stands for everything the tracer does not
      follow (images, variable scopes, role methods of the state): any events. */
  datatype Expr =
    | ConstantText(value: string)
    | Argument(argument: string)
    | Variable(variable: string)
    | Gen(genName: Option<string>)
    | Select(selectName: Option<string>, choices: seq<string>)
    | BeginRole(beginRole: string)
    | EndRole(endRole: string)
    | Untraced(events: seq<Event>)

  /** A program: it appends expressions and branches on comparing arguments and variables with strings. */
  datatype Program =
    | Done
    | Emit(expr: Expr, rest: Program)
    | TestArgument(name: string, value: string, ifEqual: Program, otherwise: Program)
    | TestVariable(name: string, value: string, ifEqual: Program, otherwise: Program)

  // ---- The real run ----

  /** The event of an expression that the tracer follows; None is a failing lookup. */
  function EventOf(args: map<string, string>, model: (string, Expr) -> string, st: ValidSession, e: Expr): Option<Event> {
    match e
    case ConstantText(value) => Some(Fill(value))
    case Argument(name) => if name in args then Some(Fill(args[name])) else None
    case Variable(name) => if Some(name) in st.variables then Some(Fill(st.variables[Some(name)])) else None
    case Gen(name) => Some(Answer(name, model(st.text, e)))
    case Select(name, _) => if name.Some? then Some(Answer(name, model(st.text, e))) else Some(Fill(model(st.text, e)))
    case BeginRole(role) => Some(RoleBegin(role))
    case EndRole(role) => Some(RoleEnd(role))
    case Untraced(_) => None
  }

  function After(t: ChatTemplate, args: map<string, string>, model: (string, Expr) -> string, st: ValidSession, e: Expr)
    : Option<ValidSession>
  {
    if e.Untraced? then Replay(t, st, e.events)
    else
      var event := EventOf(args, model, st, e);
      if event.None? then None else Step(t, st, event.value)
  }

  function Run(t: ChatTemplate, args: map<string, string>, model: (string, Expr) -> string, st: ValidSession, p: Program)
    : Option<ValidSession>
    decreases p
  {
    match p
    case Done => Some(st)
    case Emit(e, rest) =>
      var after := After(t, args, model, st, e);
      if after.None? then None else Run(t, args, model, after.value, rest)
    case TestArgument(name, value, ifEqual, otherwise) =>
      if name !in args then None
      else if args[name] == value then Run(t, args, model, st, ifEqual) else Run(t, args, model, st, otherwise)
    case TestVariable(name, value, ifEqual, otherwise) =>
      if Some(name) !in st.variables then None
      else if st.variables[Some(name)] == value then Run(t, args, model, st, ifEqual)
      else Run(t, args, model, st, otherwise)
  }

  lemma {:induction false} RunGrows(t: ChatTemplate, args: map<string, string>, model: (string, Expr) -> string,
                                    st: ValidSession, p: Program)
    requires Run(t, args, model, st, p).Some?
    ensures st.text <= Run(t, args, model, st, p).value.text
    decreases p
  {
    match p
    case Done =>
    case Emit(e, rest) =>
      var events := if e.Untraced? then e.events else [EventOf(args, model, st, e).value];
      OnlyGrows(t, st, events);
      assert events[..0] == [];
      RunGrows(t, args, model, After(t, args, model, st, e).value, rest);
    case TestArgument(name, value, ifEqual, otherwise) =>
      RunGrows(t, args, model, st, if args[name] == value then ifEqual else otherwise);
    case TestVariable(name, value, ifEqual, otherwise) =>
      RunGrows(t, args, model, st, if st.variables[Some(name)] == value then ifEqual else otherwise);
  }

  // ---- The tracer ----

  datatype Node = Constant(value: string) | NonConstant

  datatype Trace = Trace(nodes: seq<Node>, messages: seq<Message>, curRole: Option<string>, variables: set<string>)

  /** The arguments of a program: those without a value yet are dummies while tracing. */
  datatype Signature = Signature(bound: map<string, string>, dummies: set<string>)

  /** How far tracing got: it goes on, it stopped and keeps what it recorded, or it raised an error
      that reaches the caller. */
  datatype Progress = Going(trace: Trace) | Stopped(trace: Trace) | Raised

  const EMPTY := Trace([], [], None, {})

  function Recorded(tr: Trace, n: Node): Trace { tr.(nodes := tr.nodes + [n]) }

  function TraceOpened(t: ChatTemplate, tr: Trace, role: string): Trace {
    Recorded(tr, Constant(t.GetPrefixAndSuffix(role, tr.messages).prefix)).(curRole := Some(role))
  }

  /** The tracer keeps empty message contents. */
  function TraceClosed(t: ChatTemplate, tr: Trace, role: string): Trace {
    Recorded(tr, Constant(t.GetPrefixAndSuffix(role, tr.messages).suffix)).(
      curRole := None, messages := tr.messages + [Message(role, Some(""))])
  }

  function TraceDefault(t: ChatTemplate, tr: Trace, role: string): Trace {
    if DefaultIsDue(t, tr.messages, role) then
      TraceClosed(t, Recorded(TraceOpened(t, tr, "system"), Constant(t.defaultSystemPrompt.value)), "system")
    else tr
  }

  /** Reading a variable while tracing: a bound argument of that name is a string, anything else known is opaque. */
  datatype Lookup = Text(value: string) | Opaque | Missing

  function GetVar(s: Signature, tr: Trace, name: string): Lookup {
    if name in s.bound then Text(s.bound[name])
    else if name in s.dummies || name in tr.variables then Opaque
    else Missing
  }

  function TraceExpr(t: ChatTemplate, s: Signature, tr: Trace, e: Expr): Progress {
    match e
    case ConstantText(value) => Going(Recorded(tr, Constant(value)))
    case Argument(name) => if name in s.bound then Going(Recorded(tr, Constant(s.bound[name]))) else Stopped(tr)
    case Variable(name) => (
      match GetVar(s, tr, name)
      case Text(value) => Going(Recorded(tr, Constant(value)))
      case Opaque => Stopped(tr)
      case Missing => Raised)
    case Gen(name) =>
      var n := if name.Some? then name.value else "gen_" + Decimal(|tr.variables|);
      Going(Recorded(tr, NonConstant).(variables := tr.variables + {n}))
    case Select(name, _) =>
      var n := if name.Some? then name.value else "select_" + Decimal(|tr.variables|);
      Going(Recorded(tr, NonConstant).(variables := tr.variables + {n}))
    case BeginRole(role) =>
      if tr.curRole.Some? then Raised else Going(TraceOpened(t, TraceDefault(t, tr, role), role))
    case EndRole(role) => Going(TraceClosed(t, tr, role))
    case Untraced(_) => Stopped(tr)
  }

  /** Comparing a dummy or an opaque variable with a string is false, silently. */
  function TraceProgram(t: ChatTemplate, s: Signature, tr: Trace, p: Program): Progress
    decreases p
  {
    match p
    case Done => Stopped(tr)
    case Emit(e, rest) => (
      match TraceExpr(t, s, tr, e)
      case Going(after) => TraceProgram(t, s, after, rest)
      case end => end)
    case TestArgument(name, value, ifEqual, otherwise) =>
      if name in s.bound && s.bound[name] == value then TraceProgram(t, s, tr, ifEqual)
      else TraceProgram(t, s, tr, otherwise)
    case TestVariable(name, value, ifEqual, otherwise) => (
      match GetVar(s, tr, name)
      case Missing => Raised
      case found => TraceProgram(t, s, tr, if found == Text(value) then ifEqual else otherwise))
  }

  /** The constant text before the first node that is not constant. */
  function PrefixOf(nodes: seq<Node>): string {
    if nodes == [] || nodes[0].NonConstant? then "" else nodes[0].value + PrefixOf(nodes[1..])
  }

  ghost predicate AllConstant(nodes: seq<Node>) {
    forall n :: n in nodes ==> n.Constant?
  }

  lemma {:induction false} PrefixAppend(a: seq<Node>, n: Node)
    requires AllConstant(a)
    ensures PrefixOf(a + [n]) == PrefixOf(a) + if n.Constant? then n.value else ""
  {
    if a == [] {
      assert ([] + [n])[1..] == [];
    } else {
      assert a[0] in a;
      assert (a + [n])[1..] == a[1..] + [n];
      PrefixAppend(a[1..], n);
    }
  }

  lemma {:induction false} PrefixCut(a: seq<Node>, b: seq<Node>)
    requires AllConstant(a)
    ensures PrefixOf(a + [NonConstant] + b) == PrefixOf(a)
  {
    if a == [] {
      assert ([] + [NonConstant] + b)[0] == NonConstant;
    } else {
      assert a[0] in a;
      assert (a + [NonConstant] + b)[1..] == a[1..] + [NonConstant] + b;
      PrefixCut(a[1..], b);
    }
  }

  /** Tracing only records more. */
  lemma {:induction false} TraceGrows(t: ChatTemplate, s: Signature, tr: Trace, p: Program)
    requires TraceProgram(t, s, tr, p).Stopped?
    ensures tr.nodes <= TraceProgram(t, s, tr, p).trace.nodes
    decreases p
  {
    hide ChatTemplate.GetPrefixAndSuffix;
    match p
    case Done =>
    case Emit(e, rest) =>
      var step := TraceExpr(t, s, tr, e);
      if step.Going? { TraceGrows(t, s, step.trace, rest); }
    case TestArgument(name, value, ifEqual, otherwise) =>
      TraceGrows(t, s, tr, if name in s.bound && s.bound[name] == value then ifEqual else otherwise);
    case TestVariable(name, value, ifEqual, otherwise) =>
      TraceGrows(t, s, tr, if GetVar(s, tr, name) == Text(value) then ifEqual else otherwise);
  }

  // ---- Reading a variable ----

  /** In a run a variable is the last answer of its name; a named selection is an answer too, and an
      unnamed one defines nothing. */
  lemma ReadsLastAnswer(t: ChatTemplate, args: map<string, string>, model: (string, Expr) -> string, st: ValidSession,
                        n: string, value: string, choices: seq<string>, ifEqual: Program, otherwise: Program)
    ensures forall e :: e == Gen(Some(n)) || e == Select(Some(n), choices) ==>
              var answer := model(st.text, e);
              && Run(t, args, model, st, Emit(e, Emit(Variable(n), ifEqual)))
                 == Run(t, args, model, st, Emit(e, Emit(ConstantText(answer), ifEqual)))
              && Run(t, args, model, st, Emit(e, TestVariable(n, value, ifEqual, otherwise)))
                 == Run(t, args, model, st, Emit(e, if answer == value then ifEqual else otherwise))
    ensures var e := Select(None, choices); var answer := model(st.text, e);
            Run(t, args, model, st, Emit(e, ifEqual)) == Run(t, args, model, st, Emit(ConstantText(answer), ifEqual))
    ensures Some(n) !in st.variables ==>
              && Run(t, args, model, st, Emit(Variable(n), ifEqual)) == None
              && Run(t, args, model, st, TestVariable(n, value, ifEqual, otherwise)) == None
  {
    hide Opened, Closed, WithDefault;
    forall e | e == Gen(Some(n)) || e == Select(Some(n), choices)
      ensures var answer := model(st.text, e);
              && Run(t, args, model, st, Emit(e, Emit(Variable(n), ifEqual)))
                 == Run(t, args, model, st, Emit(e, Emit(ConstantText(answer), ifEqual)))
              && Run(t, args, model, st, Emit(e, TestVariable(n, value, ifEqual, otherwise)))
                 == Run(t, args, model, st, Emit(e, if answer == value then ifEqual else otherwise))
    {
      var after := After(t, args, model, st, e).value;
      assert After(t, args, model, after, Variable(n)) == After(t, args, model, after, ConstantText(model(st.text, e)));
    }
  }

  /** Events that the tracer does not follow happen in the run one after the other. */
  lemma UntracedRuns(t: ChatTemplate, args: map<string, string>, model: (string, Expr) -> string, st: ValidSession,
                     events: seq<Event>, e: Event, rest: Program)
    ensures Run(t, args, model, st, Emit(Untraced(events + [e]), rest))
            == var before := Replay(t, st, events);
               if before.None? || Step(t, before.value, e).None? then None
               else Run(t, args, model, Step(t, before.value, e).value, rest)
    ensures Run(t, args, model, st, Emit(Untraced([]), rest)) == Run(t, args, model, st, rest)
  {
    hide Step;
    assert (events + [e])[..|events|] == events;
  }

  /** While tracing, a bound argument is read as the string it is bound to; a dummy argument or what was
      generated before stops tracing; anything else is an error. */
  lemma ReadWhileTracing(t: ChatTemplate, s: Signature, tr: Trace, n: string, value: string, e: Expr, rest: Program)
    requires e == Gen(Some(n)) || (e.Select? && e.selectName == Some(n))
    ensures n in s.bound ==>
              && TraceProgram(t, s, tr, Emit(Variable(n), rest)) == TraceProgram(t, s, tr, Emit(ConstantText(s.bound[n]), rest))
              && TraceProgram(t, s, tr, TestVariable(n, s.bound[n], rest, Done)) == TraceProgram(t, s, tr, rest)
              && (value != s.bound[n] ==> TraceProgram(t, s, tr, TestVariable(n, value, Done, rest)) == TraceProgram(t, s, tr, rest))
    ensures n !in s.bound ==>
              && TraceProgram(t, s, tr, Emit(e, Emit(Variable(n), rest))) == TraceProgram(t, s, tr, Emit(e, Done))
              && TraceProgram(t, s, tr, Emit(e, TestVariable(n, value, Done, rest))) == TraceProgram(t, s, tr, Emit(e, rest))
    ensures n !in s.bound && n in s.dummies ==>
              && TraceProgram(t, s, tr, Emit(Variable(n), rest)) == Stopped(tr)
              && TraceProgram(t, s, tr, TestVariable(n, value, Done, rest)) == TraceProgram(t, s, tr, rest)
    ensures n !in s.bound && n !in s.dummies && n !in tr.variables ==>
              TraceProgram(t, s, tr, Emit(Variable(n), rest)) == TraceProgram(t, s, tr, TestVariable(n, value, Done, rest)) == Raised
  {
    hide ChatTemplate.GetPrefixAndSuffix;
  }

  /** The tracer makes up names for what has none; the executor does not know them. */
  lemma MadeUpNames(t: ChatTemplate, s: Signature, choices: seq<string>, rest: Program)
    requires s.bound == map[] && s.dummies == {}
    ensures TraceProgram(t, s, EMPTY, Emit(Gen(None), Emit(Variable("gen_0"), rest))) == TraceProgram(t, s, EMPTY, Emit(Gen(None), Done))
    ensures TraceProgram(t, s, EMPTY, Emit(Select(None, choices), Emit(Variable("select_0"), rest)))
            == TraceProgram(t, s, EMPTY, Emit(Select(None, choices), Done))
    ensures forall args, model ::
              Run(t, args, model, FRESH, Emit(Gen(None), Emit(Variable("gen_0"), rest))) == None
  {
    assert Decimal(0) == "0" && "gen_" + "0" == "gen_0" && "select_" + "0" == "select_0";
  }

  // ---- The tracer as it runs ----

  class TracerProgramState {
    const template: ChatTemplate
    const signature: Signature
    var nodes: seq<Node>
    var messages: seq<Message>
    var curRole: Option<string>
    var variables: set<string>

    constructor (template: ChatTemplate, signature: Signature)
      ensures this.template == template && this.signature == signature && State() == EMPTY
    {
      this.template, this.signature := template, signature;
      nodes, messages, curRole, variables := [], [], None, {};
    }

    function State(): Trace
      reads this
    {
      Trace(nodes, messages, curRole, variables)
    }

    method AppendNode(n: Node)
      modifies this`nodes
      ensures State() == Recorded(old(State()), n)
    {
      nodes := nodes + [n];
    }

    method ExecuteRoleBegin(role: string) returns (ok: bool)
      modifies this
      ensures ok <==> old(curRole).None?
      ensures ok ==> State() == TraceOpened(template, TraceDefault(template, old(State()), role), role)
      ensures !ok ==> State() == old(State())
      decreases if role == "system" then 0 else 1
    {
      hide ChatTemplate.GetPrefixAndSuffix;
      if curRole.Some? { return false; }
      if |messages| == 0 && role != "system" {
        var defaultSystem := template.defaultSystemPrompt;
        if defaultSystem.Some? && defaultSystem.value != "" {
          var _ := ExecuteRoleBegin("system");
          AppendNode(Constant(defaultSystem.value));
          ExecuteRoleEnd("system");
        }
      }
      curRole := Some(role);
      var prefix := template.GetPrefixAndSuffix(role, messages).prefix;
      AppendNode(Constant(prefix));
      return true;
    }

    method ExecuteRoleEnd(role: string)
      modifies this
      ensures State() == TraceClosed(template, old(State()), role)
    {
      hide ChatTemplate.GetPrefixAndSuffix;
      var suffix := template.GetPrefixAndSuffix(role, messages).suffix;
      AppendNode(Constant(suffix));
      messages := messages + [Message(role, Some(""))];
      curRole := None;
    }

    /** One appended expression. */
    method Execute(e: Expr) returns (progress: Progress)
      modifies this
      ensures progress == TraceExpr(template, signature, old(State()), e)
      ensures !progress.Raised? ==> State() == progress.trace
    {
      match e
      case ConstantText(value) =>
        AppendNode(Constant(value));
        progress := Going(State());
      case Argument(name) =>
        if name !in signature.bound { return Stopped(State()); }
        AppendNode(Constant(signature.bound[name]));
        progress := Going(State());
      case Variable(name) =>
        var found := GetVar(signature, State(), name);
        if found.Missing? { return Raised; }
        if found.Opaque? { return Stopped(State()); }
        AppendNode(Constant(found.value));
        progress := Going(State());
      case Gen(name) =>
        variables := variables + {if name.Some? then name.value else "gen_" + Decimal(|variables|)};
        AppendNode(NonConstant);
        progress := Going(State());
      case Select(name, _) =>
        variables := variables + {if name.Some? then name.value else "select_" + Decimal(|variables|)};
        AppendNode(NonConstant);
        progress := Going(State());
      case BeginRole(role) =>
        var ok := ExecuteRoleBegin(role);
        progress := if ok then Going(State()) else Raised;
      case EndRole(role) =>
        ExecuteRoleEnd(role);
        progress := Going(State());
      case Untraced(_) =>
        progress := Stopped(State());
    }
  }

  /** Trace the program, then join the constant text up to the first node that is not constant. */
  method ExtractPrefixByTracing(template: ChatTemplate, signature: Signature, p: Program) returns (prefix: Option<string>)
    ensures prefix == Extracted(template, signature, p)
  {
    hide TraceExpr;
    var tracer := new TracerProgramState(template, signature);
    var rest := p;
    while !rest.Done?
      invariant TraceProgram(template, signature, EMPTY, p) == TraceProgram(template, signature, tracer.State(), rest)
      invariant tracer.template == template && tracer.signature == signature && fresh(tracer)
      decreases rest
    {
      match rest
      case Emit(e, next) =>
        var progress := tracer.Execute(e);
        if progress.Raised? { return None; }
        if progress.Stopped? {
          assert TraceProgram(template, signature, EMPTY, p) == Stopped(tracer.State());
          break;
        }
        rest := next;
      case TestArgument(name, value, ifEqual, otherwise) =>
        rest := if name in signature.bound && signature.bound[name] == value then ifEqual else otherwise;
      case TestVariable(name, value, ifEqual, otherwise) =>
        var found := GetVar(signature, tracer.State(), name);
        if found.Missing? { return None; }
        rest := if found == Text(value) then ifEqual else otherwise;
    }
    assert TraceProgram(template, signature, EMPTY, p) == Stopped(tracer.State());
    var text := JoinConstants(tracer.nodes);
    prefix := Some(text);
  }

  method JoinConstants(nodes: seq<Node>) returns (text: string)
    ensures text == PrefixOf(nodes)
  {
    text := "";
    var i := 0;
    assert nodes[0..] == nodes;
    while i < |nodes| && nodes[i].Constant?
      invariant i <= |nodes| && PrefixOf(nodes) == text + PrefixOf(nodes[i..])
    {
      assert nodes[i..][1..] == nodes[i + 1..];
      text := text + nodes[i].value;
      i := i + 1;
    }
  }

  /** The extracted prefix; None if tracing raises an error that reaches the caller. */
  function Extracted(t: ChatTemplate, s: Signature, p: Program): Option<string> {
    match TraceProgram(t, s, EMPTY, p)
    case Stopped(tr) => Some(PrefixOf(tr.nodes))
    case _ => None
  }

  // ---- Soundness ----

  /** Every test of a dummy argument that is met before the prefix ends fails in the real run too. */
  predicate TestsFail(s: Signature, args: map<string, string>, p: Program) {
    match p
    case Done => true
    case Emit(e, rest) => EndsPrefix(s, e) || TestsFail(s, args, rest)
    case TestArgument(name, value, ifEqual, otherwise) =>
      if name in s.bound then TestsFail(s, args, if s.bound[name] == value then ifEqual else otherwise)
      else name in args && args[name] != value && TestsFail(s, args, otherwise)
    case TestVariable(_, _, _, _) => true
  }

  /** Nothing after this expression belongs to the prefix. */
  predicate EndsPrefix(s: Signature, e: Expr) {
    e.Gen? || e.Select? || e.Untraced? || e.Variable? || (e.Argument? && e.argument !in s.bound)
  }

  /** The caller passes the bound arguments as they are and a value for every other one. */
  predicate Passes(s: Signature, args: map<string, string>) {
    forall name :: name in s.bound ==> name in args && args[name] == s.bound[name]
  }

  /** As long as only constants were recorded, the tracer has the text and the role state of the real run. */
  ghost predicate Agree(tr: Trace, st: ValidSession) {
    && AllConstant(tr.nodes) && PrefixOf(tr.nodes) == st.text
    && tr.curRole == st.curRole && st.variables == map[]
    && |tr.messages| == |st.messages|
    && (forall i :: 0 <= i < |tr.messages| ==> tr.messages[i].content.Some? && st.messages[i].content.Some?)
  }

  /** The affixes do not depend on what the messages say. */
  lemma SameAffixes(t: ChatTemplate, tr: Trace, st: ValidSession, role: string)
    requires Agree(tr, st)
    ensures t.GetPrefixAndSuffix(role, tr.messages) == t.GetPrefixAndSuffix(role, st.messages)
  {
  }

  lemma OpenedAgree(t: ChatTemplate, tr: Trace, st: ValidSession, role: string)
    requires Agree(tr, st)
    ensures Agree(TraceOpened(t, tr, role), Opened(t, st, role))
  {
    hide ChatTemplate.GetPrefixAndSuffix, PrefixOf;
    SameAffixes(t, tr, st, role);
    PrefixAppend(tr.nodes, Constant(t.GetPrefixAndSuffix(role, tr.messages).prefix));
  }

  lemma ClosedAgree(t: ChatTemplate, tr: Trace, st: ValidSession, role: string)
    requires Agree(tr, st)
    ensures Agree(TraceClosed(t, tr, role), Closed(t, st, role))
  {
    hide ChatTemplate.GetPrefixAndSuffix, PrefixOf, LStrip;
    SameAffixes(t, tr, st, role);
    PrefixAppend(tr.nodes, Constant(t.GetPrefixAndSuffix(role, tr.messages).suffix));
  }

  lemma FilledAgree(tr: Trace, st: ValidSession, value: string)
    requires Agree(tr, st)
    ensures Agree(Recorded(tr, Constant(value)), st.(text := st.text + value))
  {
    hide PrefixOf;
    PrefixAppend(tr.nodes, Constant(value));
  }

  lemma DefaultAgree(t: ChatTemplate, tr: Trace, st: ValidSession, role: string)
    requires Agree(tr, st)
    ensures Agree(TraceDefault(t, tr, role), WithDefault(t, st, role))
  {
    hide Agree, TraceOpened, TraceClosed, Opened, Closed;
    assert DefaultIsDue(t, tr.messages, role) <==> DefaultIsDue(t, st.messages, role) by { SameEmptiness(tr, st); }
    if DefaultIsDue(t, tr.messages, role) {
      OpenedAgree(t, tr, st, "system");
      var tr1, st1, value := TraceOpened(t, tr, "system"), Opened(t, st, "system"), t.defaultSystemPrompt.value;
      FilledAgree(tr1, st1, value);
      ClosedAgree(t, Recorded(tr1, Constant(value)), st1.(text := st1.text + value), "system");
    }
  }

  lemma SameEmptiness(tr: Trace, st: ValidSession)
    requires Agree(tr, st)
    ensures tr.messages == [] <==> st.messages == []
    ensures tr.curRole == st.curRole && st.variables == map[]
  {
  }

  /** An expression of the prefix keeps the tracer and the real run in agreement. */
  lemma ExprAgree(t: ChatTemplate, s: Signature, args: map<string, string>, model: (string, Expr) -> string,
                  tr: Trace, st: ValidSession, e: Expr)
    requires Agree(tr, st) && Passes(s, args) && !EndsPrefix(s, e)
    requires TraceExpr(t, s, tr, e).Going? && After(t, args, model, st, e).Some?
    ensures Agree(TraceExpr(t, s, tr, e).trace, After(t, args, model, st, e).value)
  {
    hide Agree, TraceOpened, TraceClosed, Opened, Closed, TraceDefault, WithDefault, Recorded;
    match e
    case ConstantText(value) => FilledAgree(tr, st, value);
    case Argument(name) => FilledAgree(tr, st, s.bound[name]);
    case BeginRole(role) =>
      DefaultAgree(t, tr, st, role);
      OpenedAgree(t, TraceDefault(t, tr, role), WithDefault(t, st, role), role);
    case EndRole(role) => ClosedAgree(t, tr, st, role);
  }

  /** The recorded prefix does not change once it has ended. */
  lemma PrefixEnds(t: ChatTemplate, s: Signature, tr: Trace, e: Expr, rest: Program)
    requires AllConstant(tr.nodes) && EndsPrefix(s, e) && !e.Variable?
    requires TraceProgram(t, s, tr, Emit(e, rest)).Stopped?
    ensures PrefixOf(TraceProgram(t, s, tr, Emit(e, rest)).trace.nodes) == PrefixOf(tr.nodes)
  {
    hide PrefixOf, Decimal;
    var step := TraceExpr(t, s, tr, e);
    if step.Going? {
      TraceGrows(t, s, step.trace, rest);
      var nodes, cut := TraceProgram(t, s, step.trace, rest).trace.nodes, tr.nodes + [NonConstant];
      assert nodes == cut + nodes[|cut|..];
      PrefixCut(tr.nodes, nodes[|cut|..]);
    }
  }

  lemma {:induction false} Sound(t: ChatTemplate, s: Signature, args: map<string, string>, model: (string, Expr) -> string,
                                 tr: Trace, st: ValidSession, p: Program)
    requires Agree(tr, st) && Passes(s, args) && TestsFail(s, args, p)
    requires TraceProgram(t, s, tr, p).Stopped? && Run(t, args, model, st, p).Some?
    ensures PrefixOf(TraceProgram(t, s, tr, p).trace.nodes) <= Run(t, args, model, st, p).value.text
    decreases p
  {
    hide TraceExpr, After, PrefixOf, AllConstant, GetVar;
    match p
    case Done =>
    case Emit(e, rest) =>
      if !EndsPrefix(s, e) {
        GoesOn(t, s, tr, st, e, args, model);
        ExprAgree(t, s, args, model, tr, st, e);
        Sound(t, s, args, model, TraceExpr(t, s, tr, e).trace, After(t, args, model, st, e).value, rest);
      } else {
        NoVariableYet(t, args, model, st, e);
        PrefixEnds(t, s, tr, e, rest);
        RunGrows(t, args, model, st, p);
      }
    case TestArgument(name, value, ifEqual, otherwise) =>
      Sound(t, s, args, model, tr, st, if name in s.bound && s.bound[name] == value then ifEqual else otherwise);
    case TestVariable(name, value, ifEqual, otherwise) =>
      assert false;
  }

  lemma GoesOn(t: ChatTemplate, s: Signature, tr: Trace, st: ValidSession, e: Expr, args: map<string, string>,
               model: (string, Expr) -> string)
    requires Agree(tr, st) && !EndsPrefix(s, e) && After(t, args, model, st, e).Some?
    ensures TraceExpr(t, s, tr, e).Going?
  {
    hide ChatTemplate.GetPrefixAndSuffix, PrefixOf;
  }

  lemma NoVariableYet(t: ChatTemplate, args: map<string, string>, model: (string, Expr) -> string, st: ValidSession, e: Expr)
    requires st.variables == map[] && After(t, args, model, st, e).Some?
    ensures !e.Variable?
  {
  }

  /** The extracted prefix is a prefix of the text of every run with these arguments that does not
      fail, whatever the model answers, if the tests that tracing could not decide fail in it. */
  lemma PrefixIsSound(t: ChatTemplate, s: Signature, args: map<string, string>, model: (string, Expr) -> string, p: Program)
    requires Passes(s, args) && TestsFail(s, args, p)
    requires Extracted(t, s, p).Some? && Run(t, args, model, FRESH, p).Some?
    ensures Extracted(t, s, p).value <= Run(t, args, model, FRESH, p).value.text
  {
    Sound(t, s, args, model, EMPTY, FRESH, p);
  }

  // ---- Where tests may stand ----

  /** The first test that tracing cannot decide: what was recorded before it, and what it compares. */
  datatype Test = Test(trace: Trace, name: string, value: string)

  /** Such a test, if the traced path meets one before the prefix ends. */
  function UndecidedTest(t: ChatTemplate, s: Signature, tr: Trace, p: Program): Option<Test>
    decreases p
  {
    match p
    case Done => None
    case Emit(e, rest) =>
      if EndsPrefix(s, e) || !TraceExpr(t, s, tr, e).Going? then None
      else UndecidedTest(t, s, TraceExpr(t, s, tr, e).trace, rest)
    case TestArgument(name, value, ifEqual, otherwise) =>
      if name !in s.bound then Some(Test(tr, name, value))
      else UndecidedTest(t, s, tr, if s.bound[name] == value then ifEqual else otherwise)
    case TestVariable(_, _, _, _) => None
  }

  /** If the traced path meets no undecided test before the prefix ends, there is none that has to fail. */
  lemma {:induction false} NothingUndecided(t: ChatTemplate, s: Signature, tr: Trace, args: map<string, string>, p: Program)
    requires UndecidedTest(t, s, tr, p).None? && TraceProgram(t, s, tr, p).Stopped?
    ensures TestsFail(s, args, p)
    decreases p
  {
    hide ChatTemplate.GetPrefixAndSuffix, GetVar, TraceOpened, TraceClosed, TraceDefault;
    match p
    case Done =>
    case Emit(e, rest) =>
      if !EndsPrefix(s, e) { NothingUndecided(t, s, TraceExpr(t, s, tr, e).trace, args, rest); }
    case TestArgument(name, value, ifEqual, otherwise) =>
      NothingUndecided(t, s, tr, args, if s.bound[name] == value then ifEqual else otherwise);
    case TestVariable(_, _, _, _) =>
  }

  /** The program with another branch for the case that tracing does not follow at its first undecided test. */
  function WithBranch(s: Signature, p: Program, branch: Program): Program {
    match p
    case Done => p
    case Emit(e, rest) => if EndsPrefix(s, e) then p else Emit(e, WithBranch(s, rest, branch))
    case TestArgument(name, value, ifEqual, otherwise) =>
      if name !in s.bound then TestArgument(name, value, branch, otherwise)
      else if s.bound[name] == value then TestArgument(name, value, WithBranch(s, ifEqual, branch), otherwise)
      else TestArgument(name, value, ifEqual, WithBranch(s, otherwise, branch))
    case TestVariable(_, _, _, _) => p
  }

  /** Tracing does not see the other branch. */
  lemma {:induction false} BranchUnseen(t: ChatTemplate, s: Signature, tr: Trace, p: Program, branch: Program)
    ensures TraceProgram(t, s, tr, WithBranch(s, p, branch)) == TraceProgram(t, s, tr, p)
    ensures UndecidedTest(t, s, tr, WithBranch(s, p, branch)) == UndecidedTest(t, s, tr, p)
    decreases p
  {
    hide TraceExpr, EndsPrefix;
    match p
    case Done =>
    case Emit(e, rest) =>
      if !EndsPrefix(s, e) && TraceExpr(t, s, tr, e).Going? {
        BranchUnseen(t, s, TraceExpr(t, s, tr, e).trace, rest, branch);
      }
    case TestArgument(name, value, ifEqual, otherwise) =>
      if name in s.bound { BranchUnseen(t, s, tr, if s.bound[name] == value then ifEqual else otherwise, branch); }
    case TestVariable(_, _, _, _) =>
  }

  /** What was recorded before the first undecided test, or the whole prefix if there is none, is right
      for every run. */
  lemma {:induction false} SoundBeforeTest(t: ChatTemplate, s: Signature, args: map<string, string>,
                                           model: (string, Expr) -> string, tr: Trace, st: ValidSession, p: Program)
    requires Agree(tr, st) && Passes(s, args) && Run(t, args, model, st, p).Some?
    ensures UndecidedTest(t, s, tr, p).Some? ==>
              PrefixOf(UndecidedTest(t, s, tr, p).value.trace.nodes) <= Run(t, args, model, st, p).value.text
    ensures UndecidedTest(t, s, tr, p).None? && TraceProgram(t, s, tr, p).Stopped? ==>
              PrefixOf(TraceProgram(t, s, tr, p).trace.nodes) <= Run(t, args, model, st, p).value.text
    decreases p
  {
    hide TraceExpr, After, PrefixOf, AllConstant, GetVar;
    match p
    case Done =>
    case Emit(e, rest) =>
      if !EndsPrefix(s, e) {
        GoesOn(t, s, tr, st, e, args, model);
        ExprAgree(t, s, args, model, tr, st, e);
        SoundBeforeTest(t, s, args, model, TraceExpr(t, s, tr, e).trace, After(t, args, model, st, e).value, rest);
      } else {
        NoVariableYet(t, args, model, st, e);
        if TraceProgram(t, s, tr, p).Stopped? { PrefixEnds(t, s, tr, e, rest); }
        RunGrows(t, args, model, st, p);
      }
    case TestArgument(name, value, ifEqual, otherwise) =>
      if name in s.bound {
        SoundBeforeTest(t, s, args, model, tr, st, if s.bound[name] == value then ifEqual else otherwise);
      } else {
        RunGrows(t, args, model, st, p);
      }
    case TestVariable(name, value, ifEqual, otherwise) =>
      assert false;
  }

  /** A program whose traced path meets no undecided test has the right prefix for all arguments. */
  lemma NoTestIsSound(t: ChatTemplate, s: Signature, args: map<string, string>, model: (string, Expr) -> string, p: Program)
    requires Passes(s, args) && UndecidedTest(t, s, EMPTY, p).None?
    requires Extracted(t, s, p).Some? && Run(t, args, model, FRESH, p).Some?
    ensures Extracted(t, s, p).value <= Run(t, args, model, FRESH, p).value.text
  {
    SoundBeforeTest(t, s, args, model, EMPTY, FRESH, p);
  }

  lemma {:induction false} TestRecorded(t: ChatTemplate, s: Signature, tr: Trace, p: Program)
    requires UndecidedTest(t, s, tr, p).Some? && TraceProgram(t, s, tr, p).Stopped?
    ensures UndecidedTest(t, s, tr, p).value.trace.nodes <= TraceProgram(t, s, tr, p).trace.nodes
    decreases p
  {
    hide TraceExpr, EndsPrefix;
    match p
    case Emit(e, rest) => TestRecorded(t, s, TraceExpr(t, s, tr, e).trace, rest);
    case TestArgument(name, value, ifEqual, otherwise) =>
      if name !in s.bound {
        TraceGrows(t, s, tr, p);
      } else {
        TestRecorded(t, s, tr, if s.bound[name] == value then ifEqual else otherwise);
      }
  }

  lemma {:induction false} PrefixGrows(a: seq<Node>, b: seq<Node>)
    requires AllConstant(a) && a <= b
    ensures PrefixOf(a) <= PrefixOf(b)
  {
    if a != [] {
      assert a[0] in a && b[0] == a[0];
      PrefixGrows(a[1..], b[1..]);
    }
  }

  /** The real run reaches the test: with the compared value for its argument it takes the other branch. */
  lemma {:induction false} BranchRuns(t: ChatTemplate, s: Signature, args: map<string, string>, model: (string, Expr) -> string,
                                      tr: Trace, st: ValidSession, p: Program, text: string)
    requires Agree(tr, st) && Passes(s, args) && UndecidedTest(t, s, tr, p).Some?
    requires var test := UndecidedTest(t, s, tr, p).value; test.name in args && args[test.name] == test.value
    ensures var test := UndecidedTest(t, s, tr, p).value;
            var run := Run(t, args, model, st, WithBranch(s, p, Emit(ConstantText(text), Done)));
            AllConstant(test.trace.nodes) && run.Some? && run.value.text == PrefixOf(test.trace.nodes) + text
    decreases p
  {
    hide TraceExpr, After, PrefixOf, AllConstant, EndsPrefix;
    match p
    case Emit(e, rest) =>
      RealGoesOn(t, s, tr, st, e, args, model);
      ExprAgree(t, s, args, model, tr, st, e);
      BranchRuns(t, s, args, model, TraceExpr(t, s, tr, e).trace, After(t, args, model, st, e).value, rest, text);
    case TestArgument(name, value, ifEqual, otherwise) =>
      if name !in s.bound {
        TextRuns(t, args, model, st, text);
      } else {
        BranchRuns(t, s, args, model, tr, st, if s.bound[name] == value then ifEqual else otherwise, text);
      }
  }

  lemma TextRuns(t: ChatTemplate, args: map<string, string>, model: (string, Expr) -> string, st: ValidSession, text: string)
    ensures Run(t, args, model, st, Emit(ConstantText(text), Done)) == Some(st.(text := st.text + text))
  {
  }

  /** Where the tracer goes on within the prefix, so does the real run. */
  lemma RealGoesOn(t: ChatTemplate, s: Signature, tr: Trace, st: ValidSession, e: Expr, args: map<string, string>,
                   model: (string, Expr) -> string)
    requires Agree(tr, st) && Passes(s, args) && !EndsPrefix(s, e) && TraceExpr(t, s, tr, e).Going?
    ensures After(t, args, model, st, e).Some?
  {
    hide ChatTemplate.GetPrefixAndSuffix, PrefixOf;
  }

  /** Right for every choice of the branch that tracing does not follow, all arguments and all answers. */
  ghost predicate RightForAll(t: ChatTemplate, s: Signature, p: Program, prefix: string) {
    forall branch, args, model :: Passes(s, args) && Run(t, args, model, FRESH, WithBranch(s, p, branch)).Some? ==>
      prefix <= Run(t, args, model, FRESH, WithBranch(s, p, branch)).value.text
  }

  /** For any program, with roles, bound arguments and tests as they may be: the extracted prefix is the
      same whatever the other branch of the first undecided test is, and it is right for all of them
      exactly if no such test is met, or no text is added to the prefix after it. */
  lemma TestPlacement(t: ChatTemplate, s: Signature, p: Program)
    requires Extracted(t, s, p).Some?
    ensures forall branch :: Extracted(t, s, WithBranch(s, p, branch)) == Extracted(t, s, p)
    ensures RightForAll(t, s, p, Extracted(t, s, p).value)
            <==> (UndecidedTest(t, s, EMPTY, p).Some? ==>
                    Extracted(t, s, p).value == PrefixOf(UndecidedTest(t, s, EMPTY, p).value.trace.nodes))
  {
    hide PrefixOf;
    forall branch ensures Extracted(t, s, WithBranch(s, p, branch)) == Extracted(t, s, p) {
      BranchUnseen(t, s, EMPTY, p, branch);
    }
    var test, prefix := UndecidedTest(t, s, EMPTY, p), Extracted(t, s, p).value;
    StartAgree();
    if test.Some? && prefix != PrefixOf(test.value.trace.nodes) {
      WrongForSome(t, s, p);
    } else {
      forall branch, args, model | Passes(s, args) && Run(t, args, model, FRESH, WithBranch(s, p, branch)).Some?
        ensures prefix <= Run(t, args, model, FRESH, WithBranch(s, p, branch)).value.text
      {
        BranchUnseen(t, s, EMPTY, p, branch);
        SoundBeforeTest(t, s, args, model, EMPTY, FRESH, WithBranch(s, p, branch));
      }
    }
  }

  lemma StartAgree()
    ensures Agree(EMPTY, FRESH)
  {
  }

  lemma WrongForSome(t: ChatTemplate, s: Signature, p: Program)
    requires Extracted(t, s, p).Some? && UndecidedTest(t, s, EMPTY, p).Some?
    requires Extracted(t, s, p).value != PrefixOf(UndecidedTest(t, s, EMPTY, p).value.trace.nodes)
    ensures !RightForAll(t, s, p, Extracted(t, s, p).value)
  {
    hide PrefixOf, AllConstant, Run;
    var test, prefix := UndecidedTest(t, s, EMPTY, p).value, Extracted(t, s, p).value;
    var args, recorded := s.bound[test.name := test.value], PrefixOf(test.trace.nodes);
    StartAgree();
    TestUnbound(t, s, EMPTY, p);
    BranchRuns(t, s, args, Silent, EMPTY, FRESH, p, "a");
    BranchRuns(t, s, args, Silent, EMPTY, FRESH, p, "b");
    TestRecorded(t, s, EMPTY, p);
    PrefixGrows(test.trace.nodes, TraceProgram(t, s, EMPTY, p).trace.nodes);
    var text := if prefix[|recorded|] == 'a' then "b" else "a";
    assert (recorded + text)[|recorded|] != prefix[|recorded|];
    assert Run(t, args, Silent, FRESH, WithBranch(s, p, Emit(ConstantText(text), Done))).value.text == recorded + text;
  }

  lemma {:induction false} TestUnbound(t: ChatTemplate, s: Signature, tr: Trace, p: Program)
    requires UndecidedTest(t, s, tr, p).Some?
    ensures UndecidedTest(t, s, tr, p).value.name !in s.bound
    decreases p
  {
    hide TraceExpr, EndsPrefix;
    match p
    case Emit(e, rest) => TestUnbound(t, s, TraceExpr(t, s, tr, e).trace, rest);
    case TestArgument(name, value, ifEqual, otherwise) =>
      if name in s.bound { TestUnbound(t, s, tr, if s.bound[name] == value then ifEqual else otherwise); }
  }

  function Silent(text: string, e: Expr): string { "" }
}
