/** Chat templates: the affixes of a role given the conversation so far, and the printing of a conversation. */
module ChatTemplates {
  import opened Options

  datatype Style = Plain | Llama2

  datatype Affixes = Affixes(prefix: string, suffix: string)

  /** A message; a system message without content stands for the default system prompt. */
  datatype Message = Message(role: string, content: Option<string>)

  datatype ChatTemplate = ChatTemplate(
    defaultSystemPrompt: Option<string>,
    rolePrefixAndSuffix: map<string, Affixes>,
    style: Style)
  {
    function AffixesOf(role: string): Affixes {
      if role in rolePrefixAndSuffix then rolePrefixAndSuffix[role] else Affixes("", "")
    }

    /** In the Llama 2 style the first system message opens the first user turn. */
    function GetPrefixAndSuffix(role: string, hist: seq<Message>): Affixes {
      if style.Llama2? && role == "system" && hist == [] then
        Affixes(AffixesOf("user").prefix + AffixesOf("system").prefix, AffixesOf("system").suffix)
      else if style.Llama2? && role == "user" && |hist| == 1 && hist[0].content.Some? then
        Affixes("", AffixesOf(role).suffix)
      else AffixesOf(role)
    }

    /** What one message adds to the prompt. */
    function Turn(message: Message, hist: seq<Message>): string {
      var content := if message.role == "system" && message.content.None? then defaultSystemPrompt else message.content;
      if message.role == "system" && content.None? then ""
      else
        var affixes := GetPrefixAndSuffix(message.role, hist);
        affixes.prefix + (if content.Some? then content.value else "None") + affixes.suffix
    }

    /** The prompt of a conversation. */
    function Prompt(messages: seq<Message>): string {
      if messages == [] then ""
      else
        var n := |messages| - 1;
        Prompt(messages[..n]) + Turn(messages[n], messages[..n])
    }

    /** The loop over the messages prints the conversation: every message between the affixes of its role,
        but for the first two in the Llama 2 style. */
    method GetPrompt(messages: seq<Message>) returns (prompt: string)
      ensures prompt == Prompt(messages)
      ensures style.Plain? ==> prompt == AllPrinted(rolePrefixAndSuffix, defaultSystemPrompt, messages)
      ensures style.Llama2? ==> prompt == Llama2Printed(rolePrefixAndSuffix, defaultSystemPrompt, messages)
    {
      hide GetPrefixAndSuffix;
      prompt := "";
      var i := 0;
      assert messages[..0] == [];
      while i < |messages|
        invariant i <= |messages| && prompt == Prompt(messages[..i])
      {
        var role, content := messages[i].role, messages[i].content;
        PromptStep(messages, i);
        i := i + 1;
        if role == "system" && content.None? {
          content := defaultSystemPrompt;
          if content.None? {
            continue;
          }
        }
        var affixes := GetPrefixAndSuffix(role, messages[..i - 1]);
        prompt := prompt + (affixes.prefix + (if content.Some? then content.value else "None") + affixes.suffix);
      }
      assert messages[..|messages|] == messages;
      if style.Plain? { PlainPrompt(this, messages); } else { Llama2Prompt(this, messages); }
    }

    lemma PromptStep(messages: seq<Message>, i: nat)
      requires i < |messages|
      ensures Prompt(messages[..i + 1]) == Prompt(messages[..i]) + Turn(messages[i], messages[..i])
    {
      hide Turn;
      assert messages[..i + 1][..i] == messages[..i];
    }
  }

  /** The prompt of a conversation extends the prompt of every earlier part of it. */
  lemma {:induction false} PromptExtends(t: ChatTemplate, messages: seq<Message>, k: nat)
    requires k <= |messages|
    ensures t.Prompt(messages[..k]) <= t.Prompt(messages)
  {
    if k == |messages| {
      assert messages[..k] == messages;
    } else {
      var n := |messages| - 1;
      PromptExtends(t, messages[..n], k);
      assert messages[..n][..k] == messages[..k];
    }
  }

  // ---- The prompt in terms of the template's map ----

  /** A message printed between the affixes that the map has for its role; a role that is not in the map
      has none, and a system message without content is the default prompt or nothing. */
  function Printed(affixes: map<string, Affixes>, default: Option<string>, message: Message): string {
    if message.role == "system" && message.content.None? && default.None? then ""
    else
      var content := if message.content.Some? then message.content.value
                     else if message.role == "system" then default.value
                     else "None";
      if message.role !in affixes then content
      else affixes[message.role].prefix + content + affixes[message.role].suffix
  }

  /** The messages printed one after the other. */
  function AllPrinted(affixes: map<string, Affixes>, default: Option<string>, messages: seq<Message>): string {
    if messages == [] then ""
    else Printed(affixes, default, messages[0]) + AllPrinted(affixes, default, messages[1..])
  }

  lemma {:induction false} AllPrintedStep(affixes: map<string, Affixes>, default: Option<string>, messages: seq<Message>, m: Message)
    ensures AllPrinted(affixes, default, messages + [m]) == AllPrinted(affixes, default, messages) + Printed(affixes, default, m)
  {
    if messages == [] {
      assert messages + [m] == [m];
      assert AllPrinted(affixes, default, [m][1..]) == "";
    } else {
      AllPrintedStep(affixes, default, messages[1..], m);
      assert (messages + [m])[1..] == messages[1..] + [m];
    }
  }

  /** In the plain style every message is printed between its role's affixes. */
  lemma {:induction false} PlainPrompt(t: ChatTemplate, messages: seq<Message>)
    requires t.style.Plain?
    ensures t.Prompt(messages) == AllPrinted(t.rolePrefixAndSuffix, t.defaultSystemPrompt, messages)
  {
    hide ChatTemplate.Turn, AllPrinted, Printed;
    if messages == [] {
      NothingPrinted(t.rolePrefixAndSuffix, t.defaultSystemPrompt);
    } else {
      var n := |messages| - 1;
      PlainPrompt(t, messages[..n]);
      PlainTurn(t, messages[n], messages[..n]);
      AllPrintedStep(t.rolePrefixAndSuffix, t.defaultSystemPrompt, messages[..n], messages[n]);
      assert messages == messages[..n] + [messages[n]];
    }
  }

  lemma NothingPrinted(affixes: map<string, Affixes>, default: Option<string>)
    ensures AllPrinted(affixes, default, []) == ""
  {
  }

  lemma PlainTurn(t: ChatTemplate, message: Message, hist: seq<Message>)
    requires t.style.Plain?
    ensures t.Turn(message, hist) == Printed(t.rolePrefixAndSuffix, t.defaultSystemPrompt, message)
  {
  }

  /** The first message in the Llama 2 style: a system message stands behind the prefix of a user turn. */
  function FirstPrinted(affixes: map<string, Affixes>, default: Option<string>, message: Message): string {
    if message.role == "system" && !(message.content.None? && default.None?) && "user" in affixes
    then affixes["user"].prefix + Printed(affixes, default, message)
    else Printed(affixes, default, message)
  }

  /** The second message in the Llama 2 style: after a message with content a user message has no prefix. */
  function SecondPrinted(affixes: map<string, Affixes>, default: Option<string>, first: Message, message: Message): string {
    if message.role == "user" && first.content.Some? && "user" in affixes
    then (if message.content.Some? then message.content.value else "None") + affixes["user"].suffix
    else Printed(affixes, default, message)
  }

  /** In the Llama 2 style only the first two messages are printed differently. */
  function Llama2Printed(affixes: map<string, Affixes>, default: Option<string>, messages: seq<Message>): string {
    if messages == [] then ""
    else if |messages| == 1 then FirstPrinted(affixes, default, messages[0])
    else
      FirstPrinted(affixes, default, messages[0]) + SecondPrinted(affixes, default, messages[0], messages[1])
      + AllPrinted(affixes, default, messages[2..])
  }

  lemma {:induction false} Llama2Prompt(t: ChatTemplate, messages: seq<Message>)
    requires t.style.Llama2?
    ensures t.Prompt(messages) == Llama2Printed(t.rolePrefixAndSuffix, t.defaultSystemPrompt, messages)
  {
    hide ChatTemplate.Turn, AllPrinted, Printed, FirstPrinted, SecondPrinted;
    if messages != [] {
      var n := |messages| - 1;
      Llama2Prompt(t, messages[..n]);
      Llama2Turn(t, messages[n], messages[..n]);
      NothingPrinted(t.rolePrefixAndSuffix, t.defaultSystemPrompt);
      if n >= 2 {
        AllPrintedStep(t.rolePrefixAndSuffix, t.defaultSystemPrompt, messages[2..n], messages[n]);
        assert messages[..n][2..] == messages[2..n] && messages[2..] == messages[2..n] + [messages[n]];
      } else if n == 1 {
        assert messages[2..] == [];
      }
    }
  }

  lemma Llama2Turn(t: ChatTemplate, message: Message, hist: seq<Message>)
    requires t.style.Llama2?
    ensures t.Turn(message, hist) ==
            if hist == [] then FirstPrinted(t.rolePrefixAndSuffix, t.defaultSystemPrompt, message)
            else if |hist| == 1 then SecondPrinted(t.rolePrefixAndSuffix, t.defaultSystemPrompt, hist[0], message)
            else Printed(t.rolePrefixAndSuffix, t.defaultSystemPrompt, message)
  {
  }

  // ---- Leading white space ----

  /** The characters that the host language's strip functions remove. */
  predicate IsSpace(c: char) {
    || '\t' <= c <= '\r' || '\U{1c}' <= c <= ' ' || c == '\U{85}' || c == '\U{a0}' || c == '\U{1680}'
    || '\U{2000}' <= c <= '\U{200a}' || c == '\U{2028}' || c == '\U{2029}' || c == '\U{202f}' || c == '\U{205f}'
    || c == '\U{3000}'
  }

  /** There are 29 of them. */
  lemma SpacesAre(c: char)
    ensures IsSpace(c) <==>
              c in ['\t', '\n', '\U{b}', '\U{c}', '\r', '\U{1c}', '\U{1d}', '\U{1e}', '\U{1f}', ' ', '\U{85}', '\U{a0}',
                    '\U{1680}', '\U{2000}', '\U{2001}', '\U{2002}', '\U{2003}', '\U{2004}', '\U{2005}', '\U{2006}',
                    '\U{2007}', '\U{2008}', '\U{2009}', '\U{200a}', '\U{2028}', '\U{2029}', '\U{202f}', '\U{205f}',
                    '\U{3000}']
  {
    assert IsSpace(c) <==> c as int in {9, 10, 11, 12, 13, 28, 29, 30, 31, 32, 133, 160, 5760, 8192, 8193, 8194, 8195, 8196,
                                       8197, 8198, 8199, 8200, 8201, 8202, 8232, 8233, 8239, 8287, 12288};
  }

  function LStrip(s: string): (r: string)
    ensures |r| <= |s| && r == s[|s| - |r|..] && (r == [] || !IsSpace(r[0]))
    ensures forall i :: 0 <= i < |s| - |r| ==> IsSpace(s[i])
  {
    if s == [] || !IsSpace(s[0]) then s else LStrip(s[1..])
  }

  predicate LeadingSpace(s: string) {
    s != [] && IsSpace(s[0])
  }
}
