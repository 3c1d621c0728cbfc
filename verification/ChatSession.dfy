/** The text and the messages of one stream, as the sequence of events that the executor processes
    determines them; and how that text relates to the prompt printed by the chat template. */
module ChatSession {
  import opened Options
  import opened ChatTemplates

  /** What happens to a stream: constant text, an answer of the model, and role markers. */
  datatype Event =
    | Fill(value: string)
    | Answer(name: Option<string>, answer: string)
    | RoleBegin(role: string)
    | RoleEnd(role: string)

  datatype Session = Session(
    text: string,
    messages: seq<Message>,
    curRole: Option<string>,
    curRoleBegin: Option<nat>,
    variables: map<Option<string>, string>)
  {
    predicate Valid() {
      curRoleBegin.Some? ==> curRoleBegin.value <= |text|
    }

    /** The text of the current role; the whole text if no role has ever begun. */
    function RoleText(): string
      requires Valid()
    {
      if curRoleBegin.Some? then text[curRoleBegin.value..] else text
    }
  }

  type ValidSession = st: Session | st.Valid() witness Session("", [], None, None, map[])

  const FRESH: ValidSession := Session("", [], None, None, map[])

  function Opened(t: ChatTemplate, st: ValidSession, role: string): ValidSession {
    var text := st.text + t.GetPrefixAndSuffix(role, st.messages).prefix;
    st.(text := text, curRole := Some(role), curRoleBegin := Some(|text|))
  }

  function Closed(t: ChatTemplate, st: ValidSession, role: string): ValidSession {
    st.(text := st.text + t.GetPrefixAndSuffix(role, st.messages).suffix, curRole := None,
        messages := st.messages + [Message(role, Some(LStrip(st.RoleText())))])
  }

  /** The default system prompt is due before the first message unless that is a system message. */
  predicate DefaultIsDue(t: ChatTemplate, messages: seq<Message>, role: string) {
    messages == [] && role != "system" && t.defaultSystemPrompt.Some? && t.defaultSystemPrompt.value != ""
  }

  function WithDefault(t: ChatTemplate, st: ValidSession, role: string): ValidSession {
    if DefaultIsDue(t, st.messages, role) then
      var begun := Opened(t, st, "system");
      Closed(t, begun.(text := begun.text + t.defaultSystemPrompt.value), "system")
    else st
  }

  /** One event; None is the failure on a nested role. */
  function Step(t: ChatTemplate, st: ValidSession, e: Event): Option<ValidSession> {
    match e
    case Fill(value) => Some(st.(text := st.text + value))
    case Answer(name, answer) => Some(st.(text := st.text + answer, variables := st.variables[name := answer]))
    case RoleBegin(role) => if st.curRole.Some? then None else Some(Opened(t, WithDefault(t, st, role), role))
    case RoleEnd(role) => Some(Closed(t, st, role))
  }

  function Replay(t: ChatTemplate, st: ValidSession, events: seq<Event>): Option<ValidSession> {
    if events == [] then Some(st)
    else
      var before := Replay(t, st, events[..|events| - 1]);
      if before.None? then None else Step(t, before.value, events[|events| - 1])
  }

  lemma {:induction false} ReplayAppend(t: ChatTemplate, st: ValidSession, a: seq<Event>, b: seq<Event>)
    ensures Replay(t, st, a + b) == if Replay(t, st, a).None? then None else Replay(t, Replay(t, st, a).value, b)
  {
    if b == [] {
      assert a + b == a;
    } else {
      var n := |b| - 1;
      ReplayAppend(t, st, a, b[..n]);
      assert (a + b)[..|a| + n] == a + b[..n];
    }
  }

  /** The first role of a conversation: unless it is a system message, a default system prompt that is not
      empty is printed and recorded before it. */
  lemma FirstRole(t: ChatTemplate, role: string)
    ensures var r, default := Replay(t, FRESH, [RoleBegin(role)]), t.defaultSystemPrompt;
            && r.Some? && r.value.curRole == Some(role)
            && if role != "system" && default.Some? && default.value != "" then
                 var system := t.GetPrefixAndSuffix("system", []);
                 && r.value.messages == [Message("system", Some(LStrip(default.value)))]
                 && r.value.text == system.prefix + default.value + system.suffix
                                    + t.GetPrefixAndSuffix(role, r.value.messages).prefix
               else r.value.messages == [] && r.value.text == t.GetPrefixAndSuffix(role, []).prefix
  {
    hide ChatTemplate.GetPrefixAndSuffix, LStrip;
    assert [RoleBegin(role)][..0] == [];
    var system, default := t.GetPrefixAndSuffix("system", []), t.defaultSystemPrompt;
    if DefaultIsDue(t, [], role) {
      var begun := Opened(t, FRESH, "system");
      var filled := begun.(text := begun.text + default.value);
      assert filled.RoleText() == default.value;
    }
  }

  lemma OpenedGrows(t: ChatTemplate, st: ValidSession, role: string)
    ensures st.text <= Opened(t, st, role).text && st.messages == Opened(t, st, role).messages
  {
    hide ChatTemplate.GetPrefixAndSuffix;
  }

  lemma ClosedGrows(t: ChatTemplate, st: ValidSession, role: string)
    ensures st.text <= Closed(t, st, role).text && st.messages <= Closed(t, st, role).messages
  {
    hide ChatTemplate.GetPrefixAndSuffix, LStrip;
  }

  lemma DefaultGrows(t: ChatTemplate, st: ValidSession, role: string)
    ensures st.text <= WithDefault(t, st, role).text && st.messages <= WithDefault(t, st, role).messages
  {
    hide Opened, Closed;
    if DefaultIsDue(t, st.messages, role) {
      OpenedGrows(t, st, "system");
      var begun := Opened(t, st, "system");
      ClosedGrows(t, begun.(text := begun.text + t.defaultSystemPrompt.value), "system");
    }
  }

  lemma StepGrows(t: ChatTemplate, st: ValidSession, e: Event)
    requires Step(t, st, e).Some?
    ensures st.text <= Step(t, st, e).value.text && st.messages <= Step(t, st, e).value.messages
  {
    hide Opened, Closed, WithDefault;
    match e
    case Fill(_) =>
    case Answer(_, _) =>
    case RoleBegin(role) =>
      DefaultGrows(t, st, role);
      OpenedGrows(t, WithDefault(t, st, role), role);
    case RoleEnd(role) => ClosedGrows(t, st, role);
  }

  /** No event takes anything off the text or the messages. */
  lemma {:induction false} OnlyGrows(t: ChatTemplate, st: ValidSession, events: seq<Event>)
    requires Replay(t, st, events).Some?
    ensures st.text <= Replay(t, st, events).value.text && st.messages <= Replay(t, st, events).value.messages
  {
    hide Step;
    if events != [] {
      var n := |events| - 1;
      OnlyGrows(t, st, events[..n]);
      StepGrows(t, Replay(t, st, events[..n]).value, events[n]);
    }
  }

  // ---- Complete role blocks ----

  /** A role with everything that was appended between its begin and its end. */
  datatype Block = Block(role: string, body: seq<Event>)
  {
    predicate Valid() {
      forall i :: 0 <= i < |body| ==> body[i].Fill? || body[i].Answer?
    }

    function Events(): seq<Event> { [RoleBegin(role)] + body + [RoleEnd(role)] }

    function Content(): string { Appended(body) }
  }

  function Appended(body: seq<Event>): string {
    if body == [] then ""
    else Appended(body[..|body| - 1]) + ValueOf(body[|body| - 1])
  }

  function ValueOf(e: Event): string {
    match e
    case Fill(value) => value
    case Answer(_, answer) => answer
    case _ => ""
  }

  function Flatten(blocks: seq<Block>): seq<Event> {
    if blocks == [] then [] else Flatten(blocks[..|blocks| - 1]) + blocks[|blocks| - 1].Events()
  }

  /** The blocks as they are executed: the default system prompt is a block of its own. */
  function Executed(t: ChatTemplate, blocks: seq<Block>): seq<Block> {
    if blocks != [] && DefaultIsDue(t, [], blocks[0].role)
    then [Block("system", [Fill(t.defaultSystemPrompt.value)])] + blocks
    else blocks
  }

  function MessagesOf(blocks: seq<Block>): seq<Message> {
    if blocks == [] then []
    else MessagesOf(blocks[..|blocks| - 1]) + [MessageOf(blocks[|blocks| - 1])]
  }

  function MessageOf(b: Block): Message {
    Message(b.role, Some(LStrip(b.Content())))
  }

  /** The text of the blocks: each content, white space included, between the affixes of its role. */
  function TextOf(t: ChatTemplate, blocks: seq<Block>): string {
    if blocks == [] then ""
    else
      var n := |blocks| - 1;
      var affixes := t.GetPrefixAndSuffix(blocks[n].role, MessagesOf(blocks[..n]));
      TextOf(t, blocks[..n]) + affixes.prefix + blocks[n].Content() + affixes.suffix
  }

  ghost predicate Wellformed(blocks: seq<Block>) {
    forall i :: 0 <= i < |blocks| ==> blocks[i].Valid()
  }

  lemma {:induction false} ReplayBody(t: ChatTemplate, st: ValidSession, body: seq<Event>)
    requires forall i :: 0 <= i < |body| ==> body[i].Fill? || body[i].Answer?
    ensures Replay(t, st, body).Some?
    ensures var after := Replay(t, st, body).value;
            && after.text == st.text + Appended(body) && after.messages == st.messages
            && after.curRole == st.curRole && after.curRoleBegin == st.curRoleBegin
  {
    hide WithDefault, Opened, Closed, ChatTemplate.GetPrefixAndSuffix;
    if body != [] {
      var rest, e := body[..|body| - 1], body[|body| - 1];
      ReplayBody(t, st, rest);
      var before := Replay(t, st, rest).value;
      assert Step(t, before, e).Some? && Step(t, before, e).value.text == before.text + ValueOf(e);
      assert st.text + Appended(rest) + ValueOf(e) == st.text + (Appended(rest) + ValueOf(e));
    }
  }

  /** Outside roles, a complete block appends its text and its message. */
  lemma ReplayBlock(t: ChatTemplate, st: ValidSession, b: Block)
    requires b.Valid() && st.curRole.None?
    ensures Replay(t, st, b.Events()).Some?
    ensures var before, after := WithDefault(t, st, b.role), Replay(t, st, b.Events()).value;
            var affixes := t.GetPrefixAndSuffix(b.role, before.messages);
            && after.curRole.None? && after.messages == before.messages + [MessageOf(b)]
            && after.text == before.text + affixes.prefix + b.Content() + affixes.suffix
  {
    hide ChatTemplate.GetPrefixAndSuffix, WithDefault, LStrip;
    var begin, end := [RoleBegin(b.role)], [RoleEnd(b.role)];
    var before := WithDefault(t, st, b.role);
    var begun := Opened(t, before, b.role);
    assert Replay(t, st, begin[..0]) == Some(st);
    assert Replay(t, st, begin) == Some(begun);
    ReplayAppend(t, st, begin, b.body);
    ReplayBody(t, begun, b.body);
    var inside := Replay(t, begun, b.body).value;
    ReplayAppend(t, st, begin + b.body, end);
    assert Replay(t, inside, end[..0]) == Some(inside);
    assert Replay(t, inside, end) == Some(Closed(t, inside, b.role));
    assert inside.RoleText() == b.Content();
  }

  /** Inserting the default system prompt is executing a system block that holds it. */
  lemma DefaultBlock(t: ChatTemplate, role: string)
    requires DefaultIsDue(t, [], role)
    ensures var b := Block("system", [Fill(t.defaultSystemPrompt.value)]);
            && b.Valid() && b.Content() == t.defaultSystemPrompt.value
            && WithDefault(t, FRESH, role).curRole.None?
            && WithDefault(t, FRESH, role).messages == MessagesOf([b])
            && WithDefault(t, FRESH, role).text == TextOf(t, [b])
  {
    hide ChatTemplate.GetPrefixAndSuffix, LStrip, TextOf, MessagesOf, Block.Content, Block.Valid;
    var value := t.defaultSystemPrompt.value;
    var b := Block("system", [Fill(value)]);
    BlockOfOne("system", value);
    TextOfOne(t, b);
    var begun := Opened(t, FRESH, "system");
    assert begun.(text := begun.text + value).RoleText() == value;
  }

  lemma BlockOfOne(role: string, value: string)
    ensures Block(role, [Fill(value)]).Valid() && Block(role, [Fill(value)]).Content() == value
  {
    var body := [Fill(value)];
    assert body[..0] == [] && Appended(body) == "" + value;
  }

  lemma TextOfOne(t: ChatTemplate, b: Block)
    ensures MessagesOf([b]) == [MessageOf(b)]
    ensures TextOf(t, [b]) == t.GetPrefixAndSuffix(b.role, []).prefix + b.Content() + t.GetPrefixAndSuffix(b.role, []).suffix
  {
    hide ChatTemplate.GetPrefixAndSuffix, LStrip, Block.Content;
    assert [b][..0] == [];
    assert "" + t.GetPrefixAndSuffix(b.role, []).prefix == t.GetPrefixAndSuffix(b.role, []).prefix;
  }

  /** A run of complete blocks: the executor's text and messages. */
  lemma {:induction false} BlocksRun(t: ChatTemplate, blocks: seq<Block>)
    requires Wellformed(blocks)
    ensures Replay(t, FRESH, Flatten(blocks)).Some?
    ensures var st := Replay(t, FRESH, Flatten(blocks)).value;
            && st.curRole.None? && st.messages == MessagesOf(Executed(t, blocks))
            && st.text == TextOf(t, Executed(t, blocks))
  {
    hide ChatTemplate.GetPrefixAndSuffix, LStrip, WithDefault, Step, Executed;
    if blocks == [] {
      assert Executed(t, blocks) == [] by { NothingExecuted(t); }
    } else {
      var n := |blocks| - 1;
      var rest, b := blocks[..n], blocks[n];
      BlocksRun(t, rest);
      var st := Replay(t, FRESH, Flatten(rest)).value;
      ReplayAppend(t, FRESH, Flatten(rest), b.Events());
      assert Replay(t, FRESH, Flatten(blocks)) == Replay(t, st, b.Events());
      OneMoreBlock(t, blocks, st);
    }
  }

  lemma NothingExecuted(t: ChatTemplate)
    ensures Executed(t, []) == []
  {
  }

  lemma OneMoreBlock(t: ChatTemplate, blocks: seq<Block>, st: ValidSession)
    requires blocks != [] && blocks[|blocks| - 1].Valid()
    requires st.curRole.None? && st.messages == MessagesOf(Executed(t, blocks[..|blocks| - 1]))
    requires st.text == TextOf(t, Executed(t, blocks[..|blocks| - 1]))
    requires |blocks| == 1 ==> st == FRESH
    ensures var after := Replay(t, st, blocks[|blocks| - 1].Events());
            && after.Some? && after.value.curRole.None? && after.value.messages == MessagesOf(Executed(t, blocks))
            && after.value.text == TextOf(t, Executed(t, blocks))
  {
    hide ChatTemplate.GetPrefixAndSuffix, LStrip, WithDefault, Replay, Block.Events, Block.Content, Block.Valid;
    var n := |blocks| - 1;
    var rest, b, executed := blocks[..n], blocks[n], Executed(t, blocks);
    ReplayBlock(t, st, b);
    if n == 0 && DefaultIsDue(t, [], b.role) {
      DefaultBlock(t, b.role);
      var system := Block("system", [Fill(t.defaultSystemPrompt.value)]);
      assert executed == [system, b] && executed[..1] == [system];
    } else {
      NoDefault(t, blocks, st);
      assert executed != [] && executed[|executed| - 1] == b && executed[..|executed| - 1] == Executed(t, rest);
    }
  }

  lemma NoDefault(t: ChatTemplate, blocks: seq<Block>, st: ValidSession)
    requires blocks != [] && (|blocks| > 1 || !DefaultIsDue(t, [], blocks[0].role))
    requires st.messages == MessagesOf(Executed(t, blocks[..|blocks| - 1]))
    requires |blocks| == 1 ==> st.messages == []
    ensures WithDefault(t, st, blocks[|blocks| - 1].role) == st
  {
    hide ChatTemplate.GetPrefixAndSuffix, LStrip;
  }

  // ---- Against the template ----

  /** How many white-space characters the messages lost. */
  function Stripped(blocks: seq<Block>): nat {
    if blocks == [] then 0
    else
      var content := blocks[|blocks| - 1].Content();
      Stripped(blocks[..|blocks| - 1]) + |content| - |LStrip(content)|
  }

  /** The printed prompt falls short of the text by the stripped white space. */
  lemma {:induction false} PromptLength(t: ChatTemplate, blocks: seq<Block>)
    ensures |t.Prompt(MessagesOf(blocks))| + Stripped(blocks) == |TextOf(t, blocks)|
    ensures Stripped(blocks) == 0 ==> t.Prompt(MessagesOf(blocks)) == TextOf(t, blocks)
  {
    hide ChatTemplate.GetPrefixAndSuffix, ChatTemplate.Turn, LStrip, Block.Content;
    if blocks != [] {
      var n := |blocks| - 1;
      var rest, hist := blocks[..n], MessagesOf(blocks[..n]);
      PromptLength(t, rest);
      assert MessagesOf(blocks) == hist + [MessageOf(blocks[n])] && (hist + [MessageOf(blocks[n])])[..|hist|] == hist;
      var affixes, content := t.GetPrefixAndSuffix(blocks[n].role, hist), blocks[n].Content();
      TurnOf(t, blocks[n], hist);
      var turn := affixes.prefix + LStrip(content) + affixes.suffix;
      assert t.Prompt(MessagesOf(blocks)) == t.Prompt(hist) + turn;
      assert |turn| == |affixes.prefix| + |LStrip(content)| + |affixes.suffix|;
      if Stripped(blocks) == 0 { TextStep(t.Prompt(hist), affixes.prefix, content, affixes.suffix); }
    }
  }

  lemma TurnOf(t: ChatTemplate, b: Block, hist: seq<Message>)
    ensures t.Turn(MessageOf(b), hist)
            == t.GetPrefixAndSuffix(b.role, hist).prefix + LStrip(b.Content()) + t.GetPrefixAndSuffix(b.role, hist).suffix
  {
    hide ChatTemplate.GetPrefixAndSuffix, LStrip, Block.Content;
  }

  lemma TextStep(a: string, b: string, c: string, d: string)
    ensures a + b + c + d == a + (b + c + d)
  {
  }

  ghost predicate NoLeadingSpace(blocks: seq<Block>) {
    forall i :: 0 <= i < |blocks| ==> !LeadingSpace(blocks[i].Content())
  }

  lemma {:induction false} NothingStripped(blocks: seq<Block>)
    ensures Stripped(blocks) == 0 <==> NoLeadingSpace(blocks)
  {
    hide LStrip, Block.Content, NoLeadingSpace;
    NoLeadingSpaceSplit(blocks);
    if blocks != [] {
      var n := |blocks| - 1;
      NothingStripped(blocks[..n]);
      StripsNothing(blocks[n].Content());
    }
  }

  lemma StripsNothing(s: string)
    ensures |LStrip(s)| == |s| <==> !LeadingSpace(s)
  {
  }

  lemma NoLeadingSpaceSplit(blocks: seq<Block>)
    ensures blocks == [] ==> NoLeadingSpace(blocks)
    ensures blocks != [] ==>
              (NoLeadingSpace(blocks)
               <==> NoLeadingSpace(blocks[..|blocks| - 1]) && !LeadingSpace(blocks[|blocks| - 1].Content()))
  {
    hide Block.Content, LeadingSpace;
    if blocks != [] && NoLeadingSpace(blocks[..|blocks| - 1]) && !LeadingSpace(blocks[|blocks| - 1].Content()) {
      forall i | 0 <= i < |blocks| ensures !LeadingSpace(blocks[i].Content()) {
        if i < |blocks| - 1 { assert blocks[i] == blocks[..|blocks| - 1][i]; }
      }
    }
    if blocks != [] && NoLeadingSpace(blocks) {
      var rest := blocks[..|blocks| - 1];
      forall i | 0 <= i < |rest| ensures !LeadingSpace(rest[i].Content()) {
        assert blocks[i] == rest[i];
      }
    }
  }

  /** After complete role blocks the text of the stream is the prompt of its messages, in both styles,
      exactly when no executed content, the default system prompt included, starts with white space. */
  lemma TextIsPrompt(t: ChatTemplate, blocks: seq<Block>)
    requires Wellformed(blocks)
    ensures Replay(t, FRESH, Flatten(blocks)).Some?
    ensures var st := Replay(t, FRESH, Flatten(blocks)).value;
            st.text == t.Prompt(st.messages) <==> NoLeadingSpace(Executed(t, blocks))
  {
    hide ChatTemplate.GetPrefixAndSuffix, LStrip, Executed, Replay, Block.Content, NoLeadingSpace;
    BlocksRun(t, blocks);
    PromptLength(t, Executed(t, blocks));
    NothingStripped(Executed(t, blocks));
  }
}
