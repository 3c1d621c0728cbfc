/** The executor of one stream, with speculative execution over a completion backend: one backend
    call generates ahead into a buffer, and later text and generations are served from it. */
module StreamExecutors {
  import opened Options
  import opened ChatTemplates
  import opened ChatSession
  import opened Strings

  datatype Stop = NoStop | OneStop(stop: string) | Stops(stops: seq<string>)

  datatype SamplingParams = SamplingParams(maxNewTokens: nat, stop: Stop)

  /** A backend call: the text it saw, its parameters, and what it returned. */
  datatype Call = Call(text: string, params: SamplingParams, reply: string)

  datatype Command =
    | ConstantText(value: string)
    | Gen(name: Option<string>, params: SamplingParams)
    | Begin(role: string)
    | End(role: string)

  // ---- Stop strings ----

  predicate IsStop(stop: Stop, sub: string) {
    match stop
    case NoStop => false
    case OneStop(t) => sub == t
    case Stops(ts) => sub in ts
  }

  /** pos is the earliest position at which a stop string begins, or -1 if none occurs. */
  ghost predicate FirstStop(s: string, stop: Stop, pos: int) {
    && (pos == -1 || exists sub :: IsStop(stop, sub) && OccursAt(s, sub, pos))
    && forall sub, i :: IsStop(stop, sub) && OccursAt(s, sub, i) ==> 0 <= pos <= i
  }

  /** No stop string occurs whole in s. */
  ghost predicate FreeOfStops(s: string, stop: Stop) {
    forall sub, i :: IsStop(stop, sub) && sub != "" ==> !OccursAt(s, sub, i)
  }

  /** What precedes the first stop is free of stops. */
  lemma CutIsFree(s: string, stop: Stop, pos: int, k: nat)
    requires FirstStop(s, stop, pos) && k <= |s| && (pos != -1 ==> k <= pos)
    ensures FreeOfStops(s[..k], stop)
  {
    forall sub, i | IsStop(stop, sub) && sub != "" ensures !OccursAt(s[..k], sub, i) {
      if OccursAt(s[..k], sub, i) {
        OccursInLonger(s[..k], s, sub, i);
      }
    }
  }

  /** The earliest position at which one of the stop strings begins, or -1. */
  function FirstIn(s: string, stops: seq<string>): int {
    if stops == [] then -1
    else Earlier(FirstIn(s, stops[..|stops| - 1]), Find(s, stops[|stops| - 1]))
  }

  function Earlier(a: int, b: int): int {
    if b != -1 && (a == -1 || b < a) then b else a
  }

  function First(s: string, stop: Stop): int {
    match stop
    case NoStop => -1
    case OneStop(t) => Find(s, t)
    case Stops(ts) => FirstIn(s, ts)
  }

  lemma {:induction false} FirstInIsFirst(s: string, stops: seq<string>)
    ensures FirstStop(s, Stops(stops), FirstIn(s, stops))
  {
    if stops != [] {
      var n := |stops| - 1;
      FirstInIsFirst(s, stops[..n]);
      assert stops[..n + 1] == stops;
      OneMoreStop(s, stops, n, FirstIn(s, stops[..n]), FirstIn(s, stops));
    }
  }

  lemma FirstIsFirst(s: string, stop: Stop)
    ensures FirstStop(s, stop, First(s, stop))
    ensures -1 <= First(s, stop) <= |s|
  {
    match stop
    case NoStop =>
    case OneStop(t) =>
      assert forall sub :: IsStop(stop, sub) <==> sub == t;
    case Stops(ts) => FirstInIsFirst(s, ts);
  }

  method FindStop(s: string, stop: Stop) returns (pos: int)
    requires !stop.NoStop?
    ensures pos == First(s, stop) && FirstStop(s, stop, pos)
  {
    if stop.OneStop? {
      pos := Find(s, stop.stop);
    } else {
      pos := -1;
      var i := 0;
      assert stop.stops[..0] == [];
      while i < |stop.stops|
        invariant i <= |stop.stops| && pos == FirstIn(s, stop.stops[..i])
      {
        var stopPos := Find(s, stop.stops[i]);
        if stopPos != -1 && (pos == -1 || stopPos < pos) {
          pos := stopPos;
        }
        assert stop.stops[..i + 1][..i] == stop.stops[..i];
        i := i + 1;
      }
      assert stop.stops[..i] == stop.stops;
    }
    FirstIsFirst(s, stop);
  }

  lemma OneMoreStop(s: string, stops: seq<string>, i: nat, before: int, pos: int)
    requires i < |stops| && FirstStop(s, Stops(stops[..i]), before)
    requires pos == Earlier(before, Find(s, stops[i]))
    ensures FirstStop(s, Stops(stops[..i + 1]), pos)
  {
    hide OccursAt;
    var now := Stops(stops[..i + 1]);
    assert stops[..i + 1] == stops[..i] + [stops[i]];
    if pos == before && pos != -1 {
      var sub :| IsStop(Stops(stops[..i]), sub) && OccursAt(s, sub, pos);
      assert IsStop(now, sub);
    } else if pos != -1 {
      assert IsStop(now, stops[i]) && OccursAt(s, stops[i], pos);
    }
    forall sub, j | IsStop(now, sub) && OccursAt(s, sub, j) ensures 0 <= pos <= j {
      if sub != stops[i] { assert IsStop(Stops(stops[..i]), sub); }
    }
  }

  // ---- Running without speculation ----

  function EventOf(generate: (string, SamplingParams) -> string, text: string, c: Command): Event {
    match c
    case ConstantText(value) => Fill(value)
    case Gen(name, params) => Answer(name, generate(text, params))
    case Begin(role) => RoleBegin(role)
    case End(role) => RoleEnd(role)
  }

  /** The simple semantics: every generation is one backend call on the text so far. */
  function DirectRun(t: ChatTemplate, generate: (string, SamplingParams) -> string, st: ValidSession, cmds: seq<Command>)
    : Option<ValidSession>
  {
    if cmds == [] then Some(st)
    else
      var before := DirectRun(t, generate, st, cmds[..|cmds| - 1]);
      if before.None? then None else Step(t, before.value, EventOf(generate, before.value.text, cmds[|cmds| - 1]))
  }

  /** The event that executing a command was. */
  predicate Matches(c: Command, e: Event) {
    match c
    case ConstantText(value) => e == Fill(value)
    case Gen(name, _) => e.Answer? && e.name == name
    case Begin(role) => e == RoleBegin(role)
    case End(role) => e == RoleEnd(role)
  }

  /** A backend that continues its own text: what it goes on with after a text, and how many characters
      of that one call reads. The code limits calls in tokens and cuts buffers in characters, so the
      number of characters is the backend's choice. */
  datatype Model = Model(continuation: string -> string, length: (string, SamplingParams) -> nat)

  /** A reply is what the backend read, up to the first stop, and continuing from any part of a
      continuation gives the rest of it. */
  ghost predicate Continues(generate: (string, SamplingParams) -> string, model: Model) {
    && (forall text, params :: generate(text, params) == Reply(model, text, params))
    && (forall text, k :: 0 <= k <= |model.continuation(text)| ==>
          model.continuation(text + model.continuation(text)[..k]) == model.continuation(text)[k..])
  }

  function Reply(model: Model, text: string, params: SamplingParams): string {
    UpToStop(Take(model.continuation(text), model.length(text, params)), params.stop)
  }

  function UpToStop(s: string, stop: Stop): string {
    FirstIsFirst(s, stop);
    if First(s, stop) == -1 then s else s[..First(s, stop)]
  }

  function Take(s: string, n: nat): string {
    if |s| <= n then s else s[..n]
  }

  function Max(a: nat, b: nat): nat { if a < b then b else a }

  function Min(a: nat, b: nat): nat { if a < b then a else b }

  /** How much of a buffer serves a generation with stop strings. */
  function Served(buffer: string, stop: Stop, limit: nat): int {
    if First(buffer, stop) != -1 then First(buffer, stop) else Min(limit, |buffer|)
  }

  // ---- When a generation with stop strings is served as by a direct call ----

  /** Some stop string begins at pos and ends within the first m characters. */
  ghost predicate Fits(buffer: string, stop: Stop, pos: int, m: nat) {
    exists sub :: IsStop(stop, sub) && OccursAt(buffer, sub, pos) && pos + |sub| <= m
  }

  /** A stop string can begin in the buffer before pos and end behind the buffer, within m characters. */
  ghost predicate Crossing(buffer: string, stop: Stop, pos: int, m: nat) {
    exists sub, q :: IsStop(stop, sub) && CrossesAt(buffer, sub, q) && q < pos && q + |sub| <= m
  }

  predicate CrossesAt(buffer: string, sub: string, q: int) {
    0 <= q <= |buffer| < q + |sub| && buffer[q..] <= sub
  }

  /** When a buffer that a call was made for serves, of at most `limit` characters, what a direct call
      that reads n characters returns. */
  ghost predicate FreshIsDirect(buffer: string, stop: Stop, limit: nat, n: nat) {
    var p := First(buffer, stop);
    if p == -1 then Min(limit, |buffer|) == Min(n, |buffer|) else Fits(buffer, stop, p, n) || p == n
  }

  /** The same of what an earlier call left over, whatever the text goes on with. */
  ghost predicate LeftoverIsDirect(buffer: string, stop: Stop, limit: nat, n: nat) {
    var p := First(buffer, stop);
    if p == -1 then n == Min(limit, |buffer|) else (Fits(buffer, stop, p, n) || p == n) && !Crossing(buffer, stop, p, n)
  }

  /** A stop that begins at pos in the longer text begins first in the shorter one too, if it fits there. */
  lemma FirstInShorter(a: string, b: string, stop: Stop)
    requires a <= b
    ensures First(a, stop) != -1 ==> First(b, stop) != -1 && First(b, stop) <= First(a, stop)
    ensures First(b, stop) != -1 && Fits(b, stop, First(b, stop), |a|) ==> First(a, stop) == First(b, stop)
    ensures First(b, stop) != -1 && First(a, stop) == First(b, stop) ==> Fits(b, stop, First(b, stop), |a|)
  {
    hide First, OccursAt;
    FirstIsFirst(a, stop);
    FirstIsFirst(b, stop);
    if First(a, stop) != -1 {
      var sub :| IsStop(stop, sub) && OccursAt(a, sub, First(a, stop));
      OccursInLonger(a, b, sub, First(a, stop));
      OccursEnds(a, sub, First(a, stop));
    }
    if First(b, stop) != -1 && Fits(b, stop, First(b, stop), |a|) {
      var sub :| IsStop(stop, sub) && OccursAt(b, sub, First(b, stop)) && First(b, stop) + |sub| <= |a|;
      OccursInShorter(a, b, sub, First(b, stop));
    }
  }

  lemma OccursEnds(s: string, sub: string, pos: int)
    requires OccursAt(s, sub, pos)
    ensures 0 <= pos && pos + |sub| <= |s|
  {
  }

  lemma OccursInShorter(a: string, b: string, sub: string, pos: int)
    requires a <= b && OccursAt(b, sub, pos) && pos + |sub| <= |a|
    ensures OccursAt(a, sub, pos)
  {
    assert a[pos..pos + |sub|] == b[pos..pos + |sub|];
  }

  /** A call that reads b characters ahead serves what a direct call that reads n of them would return,
      exactly when the first stop fits into those n, or there is none and as many are served. */
  lemma FreshStops(continuation: string, stop: Stop, limit: nat, n: nat, b: nat)
    requires n <= b
    ensures var buffer := Take(continuation, b);
            Served(buffer, stop, limit) == |UpToStop(Take(continuation, n), stop)| <==> FreshIsDirect(buffer, stop, limit, n)
  {
    hide First, Fits;
    var buffer, direct := Take(continuation, b), Take(continuation, n);
    FirstInShorter(direct, buffer, stop);
    FirstIsFirst(buffer, stop);
    FirstIsFirst(direct, stop);
    FitsWithin(buffer, stop, First(buffer, stop), n, |direct|);
    if First(buffer, stop) == n && First(direct, stop) != -1 { FirstInside(direct, stop); }
  }

  /** The text before the end of a buffer that is no longer than asked for is all that counts. */
  lemma FitsWithin(buffer: string, stop: Stop, pos: int, m: nat, n: nat)
    requires n <= m && (n < m ==> n >= |buffer|)
    ensures Fits(buffer, stop, pos, m) <==> Fits(buffer, stop, pos, n)
  {
    hide OccursAt;
    if Fits(buffer, stop, pos, m) {
      var sub :| IsStop(stop, sub) && OccursAt(buffer, sub, pos) && pos + |sub| <= m;
      OccursEnds(buffer, sub, pos);
    }
  }

  /** A first stop at the very end is an empty stop string, and then the text is empty. */
  lemma FirstInside(s: string, stop: Stop)
    requires First(s, stop) != -1
    ensures First(s, stop) == |s| ==> |s| == 0
  {
    hide First, OccursAt;
    FirstIsFirst(s, stop);
    var sub :| IsStop(stop, sub) && OccursAt(s, sub, First(s, stop));
    OccursEnds(s, sub, First(s, stop));
    if sub == "" { EmptyOccurs(s); }
  }

  lemma EmptyOccurs(s: string)
    ensures OccursAt(s, "", 0)
  {
  }

  /** What is left over serves what a direct call that reads n characters would return, however the
      text goes on, exactly when it has no stop and n characters are served, or its first stop fits into
      n characters and no other stop string can begin before it and end behind the buffer. */
  lemma LeftoverStops(buffer: string, stop: Stop, limit: nat, n: nat)
    requires buffer != ""
    ensures (forall continuation :: buffer <= continuation ==>
               Served(buffer, stop, limit) == |UpToStop(Take(continuation, n), stop)|)
            <==> LeftoverIsDirect(buffer, stop, limit, n)
  {
    hide First, Fits, Crossing, UpToStop;
    if LeftoverIsDirect(buffer, stop, limit, n) {
      forall continuation | buffer <= continuation
        ensures Served(buffer, stop, limit) == |UpToStop(Take(continuation, n), stop)|
      {
        LeftoverServes(buffer, stop, limit, n, continuation);
      }
    } else {
      var continuation := LeftoverFails(buffer, stop, limit, n);
    }
  }

  lemma LeftoverServes(buffer: string, stop: Stop, limit: nat, n: nat, continuation: string)
    requires buffer != "" && buffer <= continuation && LeftoverIsDirect(buffer, stop, limit, n)
    ensures Served(buffer, stop, limit) == |UpToStop(Take(continuation, n), stop)|
  {
    hide First, Fits, Crossing;
    var direct, p := Take(continuation, n), First(buffer, stop);
    FirstIsFirst(buffer, stop);
    FirstIsFirst(direct, stop);
    if |buffer| >= n {
      assert direct == buffer[..n];
      FirstInShorter(direct, buffer, stop);
      if p == n && First(direct, stop) != -1 { FirstInside(direct, stop); }
    } else {
      assert buffer <= direct;
      FirstInShorter(buffer, direct, stop);
      StopsBefore(buffer, direct, stop, n);
    }
  }

  /** A stop that begins in the buffer before its first stop crosses the end of the buffer. */
  lemma StopsBefore(buffer: string, direct: string, stop: Stop, m: nat)
    requires buffer <= direct && |direct| <= m && First(buffer, stop) != -1 && First(direct, stop) != -1
    ensures First(direct, stop) < First(buffer, stop) ==> Crossing(buffer, stop, First(buffer, stop), m)
  {
    hide First, OccursAt;
    FirstIsFirst(buffer, stop);
    FirstIsFirst(direct, stop);
    var q := First(direct, stop);
    var sub :| IsStop(stop, sub) && OccursAt(direct, sub, q);
    OccursEnds(direct, sub, q);
    if q < First(buffer, stop) {
      if q + |sub| <= |buffer| {
        OccursInShorter(buffer, direct, sub, q);
      } else {
        CrossingOccurrence(buffer, direct, sub, q);
        assert CrossesAt(buffer, sub, q);
      }
    }
  }

  lemma CrossingOccurrence(buffer: string, direct: string, sub: string, q: int)
    requires buffer <= direct && OccursAt(direct, sub, q) && q <= |buffer| < q + |sub|
    ensures CrossesAt(buffer, sub, q)
  {
    assert direct[q..q + |sub|][..|buffer| - q] == buffer[q..];
  }

  /** A way to go on for which the leftover serves something else than a direct call. */
  lemma LeftoverFails(buffer: string, stop: Stop, limit: nat, n: nat) returns (continuation: string)
    requires buffer != "" && !LeftoverIsDirect(buffer, stop, limit, n)
    ensures buffer <= continuation && Served(buffer, stop, limit) != |UpToStop(Take(continuation, n), stop)|
  {
    hide First, Fits, OccursAt;
    var p := First(buffer, stop);
    FirstIsFirst(buffer, stop);
    if p == -1 && (n <= |buffer| || limit < |buffer|) {
      continuation := buffer;
      FirstInShorter(Take(buffer, n), buffer, stop);
      FirstIsFirst(Take(buffer, n), stop);
    } else if p == -1 {
      // One more character that is no stop by itself: the buffer begins with such a character.
      continuation := buffer + [buffer[0]];
      var direct := Take(continuation, n);
      FirstIsFirst(direct, stop);
      assert direct == continuation;
      if First(direct, stop) == |buffer| { OnlyLast(buffer, stop); }
    } else if !(Fits(buffer, stop, p, n) || p == n) {
      continuation := buffer;
      FirstInShorter(Take(buffer, n), buffer, stop);
      FirstIsFirst(Take(buffer, n), stop);
      FitsWithin(buffer, stop, p, n, |Take(buffer, n)|);
    } else {
      var sub, q :| IsStop(stop, sub) && CrossesAt(buffer, sub, q) && q < p && q + |sub| <= n;
      continuation := buffer[..q] + sub;
      assert buffer == buffer[..q] + buffer[q..];
      var direct := Take(continuation, n);
      assert direct == continuation;
      Ends(buffer[..q], sub);
      FirstIsFirst(direct, stop);
    }
  }

  lemma Ends(a: string, sub: string)
    ensures OccursAt(a + sub, sub, |a|)
  {
  }

  /** If the first stop of the buffer and its first character again is that character, it is a stop
      in the buffer already. */
  lemma OnlyLast(buffer: string, stop: Stop)
    requires buffer != "" && First(buffer + [buffer[0]], stop) == |buffer|
    ensures First(buffer, stop) != -1
  {
    hide First;
    var s := buffer + [buffer[0]];
    FirstIsFirst(s, stop);
    FirstIsFirst(buffer, stop);
    var sub :| IsStop(stop, sub) && OccursAt(s, sub, |buffer|);
    assert sub == s[|buffer|..|buffer| + |sub|];
    assert OccursAt(buffer, sub, 0);
  }

  /** Where a generation came from: whether a call was made for it, and the buffer it was cut from. */
  datatype Serving = Serving(regenerated: bool, buffer: string)

  /** A backend that reads w characters per token, and no stop strings, which reach the executor as an
      empty list: a generation that a call was made for is served as by a direct call exactly if the larger
      of the two limits, taken in characters, is what the direct call reads, or the text ends within both. */
  lemma FixedWidth(continuation: string, w: nat, limit: nat, ahead: nat)
    requires w > 0
    ensures w * limit >= 0 && w * Max(limit, ahead) >= 0
    ensures Served(Take(continuation, w * Max(limit, ahead)), Stops([]), Max(limit, ahead))
            == |UpToStop(Take(continuation, w * limit), Stops([]))|
            <==> Max(limit, ahead) == w * limit || |continuation| <= Min(Max(limit, ahead), w * limit)
  {
    WiderThan(w, limit);
    WiderThan(w, Max(limit, ahead));
  }

  lemma WiderThan(w: nat, x: nat)
    requires w > 0
    ensures w * x >= x && (w * x == x <==> w == 1 || x == 0)
  {
    if w > 1 && x > 0 { assert w * x == x + (w - 1) * x; }
  }

  class StreamExecutor {
    const template: ChatTemplate
    const generate: (string, SamplingParams) -> string
    const numApiSpecTokens: Option<nat>
    var text: string
    var messages: seq<Message>
    var curRole: Option<string>
    var curRoleBeginPos: Option<nat>
    var variables: map<Option<string>, string>
    var speculatedText: string
    ghost var lastCall: Option<Call>

    constructor (template: ChatTemplate, generate: (string, SamplingParams) -> string, numApiSpecTokens: Option<nat>)
      ensures this.template == template && this.generate == generate && this.numApiSpecTokens == numApiSpecTokens
      ensures Valid() && State() == FRESH && speculatedText == ""
    {
      this.template, this.generate, this.numApiSpecTokens := template, generate, numApiSpecTokens;
      text, messages, curRole, curRoleBeginPos, variables := "", [], None, None, map[];
      speculatedText, lastCall := "", None;
    }

    ghost function State(): Session
      reads this`text, this`messages, this`curRole, this`curRoleBeginPos, this`variables
    {
      Session(text, messages, curRole, curRoleBeginPos, variables)
    }

    ghost predicate Valid()
      reads this
    {
      State().Valid() && Speculation() && (numApiSpecTokens.None? ==> speculatedText == "")
    }

    /** What is buffered is what the last backend call returned beyond the present text. */
    ghost predicate Speculation()
      reads this`text, this`speculatedText, this`lastCall
    {
      || speculatedText == ""
      || (lastCall.Some? && lastCall.value.reply == generate(lastCall.value.text, lastCall.value.params)
          && text + speculatedText == lastCall.value.text + lastCall.value.reply)
    }

    /** The buffer agrees with the backend's continuation of the present text. */
    ghost predicate Aligned(model: Model)
      reads this`text, this`speculatedText
    {
      speculatedText <= model.continuation(text)
    }

    method ExecuteFill(value: string, ghost model: Model)
      requires Valid()
      modifies this`text, this`speculatedText
      ensures Valid() && State() == old(State()).(text := old(text) + value)
      ensures speculatedText == if value <= old(speculatedText) then old(speculatedText)[|value|..] else ""
      ensures Continues(generate, model) && old(Aligned(model)) ==> Aligned(model)
    {
      hide Continues;
      if value <= speculatedText {
        ghost var before, buffer := text, speculatedText;
        speculatedText := speculatedText[|value|..];
        text := text + value;
        assert value + speculatedText == buffer;
        assert text + speculatedText == before + buffer;
        if Continues(generate, model) && buffer <= model.continuation(before) {
          ServedFromBuffer(before, value, speculatedText, model);
        }
      } else {
        speculatedText := "";
        text := text + value;
      }
    }

    /** The parameters of a call that generates ahead. */
    function Ahead(params: SamplingParams): SamplingParams
      requires numApiSpecTokens.Some?
    {
      SamplingParams(Max(params.maxNewTokens, numApiSpecTokens.value), NoStop)
    }

    /** Whether serving these parameters takes a new backend call. */
    predicate Regenerates(params: SamplingParams)
      reads this`speculatedText
    {
      if params.stop.NoStop? then |speculatedText| < params.maxNewTokens else speculatedText == ""
    }

    /** The buffer that a generation is served from. */
    function Buffer(params: SamplingParams): string
      requires numApiSpecTokens.Some?
      reads this`text, this`speculatedText
    {
      if Regenerates(params) then generate(text, Ahead(params)) else speculatedText
    }

    /** Serve a generation: its result and the new buffer are the two parts of the buffer it was
        served from; the result has no stop string in it, and reaches up to the first stop. Without
        a stop it is as long as asked for, or as long as the call that was just made asked for. */
    method SpecGen(params: SamplingParams) returns (comp: string)
      requires Valid() && numApiSpecTokens.Some?
      modifies this`speculatedText, this`lastCall
      ensures comp + speculatedText == old(Buffer(params))
      ensures old(Regenerates(params)) ==> lastCall == Some(Call(text, Ahead(params), generate(text, Ahead(params))))
      ensures old(Regenerates(params)) ==>
                var ahead := lastCall.value.params;
                && ahead.stop == NoStop
                && ahead.maxNewTokens >= params.maxNewTokens && ahead.maxNewTokens >= numApiSpecTokens.value
                && (ahead.maxNewTokens == params.maxNewTokens || ahead.maxNewTokens == numApiSpecTokens.value)
      ensures !old(Regenerates(params)) ==> lastCall == old(lastCall)
      ensures var call := if params.stop == NoStop then |old(speculatedText)| < params.maxNewTokens else old(speculatedText) == "";
              var limit := if !call || params.stop == NoStop || params.maxNewTokens >= numApiSpecTokens.value
                           then params.maxNewTokens else numApiSpecTokens.value;
              var buffer := comp + speculatedText;
              && (call <==> old(Regenerates(params))) && (!call ==> buffer == old(speculatedText))
              && (First(buffer, params.stop) != -1 ==> |comp| == First(buffer, params.stop))
              && (First(buffer, params.stop) == -1 ==> |comp| == if limit < |buffer| then limit else |buffer|)
      ensures FreeOfStops(comp, params.stop)
      ensures |comp| == ServedLength(params, old(Regenerates(params)), old(Buffer(params)))
    {
      var maxNewTokens := params.maxNewTokens;
      ghost var buffer := Buffer(params);
      if params.stop.NoStop? {
        if |speculatedText| < maxNewTokens {
          maxNewTokens := Regen(params);
        }
        var k := Min(params.maxNewTokens, |speculatedText|);
        comp := speculatedText[..k];
        speculatedText := speculatedText[k..];
      } else {
        if speculatedText == "" {
          maxNewTokens := Regen(params);
        }
        var stopPos := FindStop(speculatedText, params.stop);
        ghost var first := stopPos;
        if stopPos == -1 {
          stopPos := Min(maxNewTokens, |speculatedText|);
        }
        CutIsFree(buffer, params.stop, first, stopPos);
        comp := speculatedText[..stopPos];
        speculatedText := speculatedText[stopPos..];
      }
    }

    method Regen(params: SamplingParams) returns (maxNewTokens: nat)
      requires numApiSpecTokens.Some?
      modifies this`speculatedText, this`lastCall
      ensures speculatedText == generate(text, Ahead(params)) && maxNewTokens == Ahead(params).maxNewTokens
      ensures lastCall == Some(Call(text, Ahead(params), speculatedText))
    {
      maxNewTokens := Max(params.maxNewTokens, numApiSpecTokens.value);
      speculatedText := generate(text, SamplingParams(maxNewTokens, NoStop));
      lastCall := Some(Call(text, Ahead(params), speculatedText));
    }

    /** One generation, and how its result relates to what a direct call would have returned. */
    method ExecuteGen(name: Option<string>, params: SamplingParams, ghost model: Model) returns (comp: string)
      requires Valid()
      modifies this`text, this`speculatedText, this`lastCall, this`variables
      ensures Valid() && Step(template, old(State()), Answer(name, comp)) == Some(State())
      ensures numApiSpecTokens.None? ==> comp == generate(old(text), params)
      ensures numApiSpecTokens.Some? ==> FreeOfStops(comp, params.stop) && comp + speculatedText == old(Buffer(params))
      ensures Continues(generate, model) && old(Aligned(model)) ==> Aligned(model)
      ensures Continues(generate, model) && old(Aligned(model)) && numApiSpecTokens.Some? ==>
                AsDirect(params, old(Regenerates(params)), old(Buffer(params)), comp, generate(old(text), params),
                         model.length(old(text), params), model.length(old(text), Ahead(params)))
      ensures numApiSpecTokens.Some? ==> |comp| == ServedLength(params, old(Regenerates(params)), old(Buffer(params)))
    {
      hide Continues, FreeOfStops, AsDirect;
      if numApiSpecTokens.None? {
        comp := generate(text, params);
      } else {
        ghost var buffer, regenerates, before := Buffer(params), Regenerates(params), text;
        ghost var ready := Continues(generate, model) && Aligned(model);
        if ready { BufferContinues(params, model); }
        comp := SpecGen(params);
        assert text + comp + speculatedText == text + buffer;
        if ready {
          ServedFromBuffer(text, comp, speculatedText, model);
          ServedAsDirect(before, params, regenerates, buffer, comp, model);
        }
      }
      text := text + comp;
      variables := variables[name := comp];
    }

    /** How many characters a generation may be served: the call made for it raises the limit, but
        only generations with stop strings use that. */
    function Limit(params: SamplingParams, regenerated: bool): nat
      requires numApiSpecTokens.Some?
    {
      if regenerated && !params.stop.NoStop? then Ahead(params).maxNewTokens else params.maxNewTokens
    }

    /** The length of the part of a buffer that serves a generation. */
    function ServedLength(params: SamplingParams, regenerated: bool, buffer: string): int
      requires numApiSpecTokens.Some?
    {
      Served(buffer, params.stop, Limit(params, regenerated))
    }

    /** How a result relates to that of a direct call, which reads n characters where the call ahead
        reads b of them: it is the same exactly if it is as long, and when that is. */
    ghost predicate AsDirect(params: SamplingParams, regenerated: bool, buffer: string, comp: string, direct: string, n: nat, b: nat)
      requires numApiSpecTokens.Some?
    {
      var limit := Limit(params, regenerated);
      && (comp == direct <==> ServedLength(params, regenerated, buffer) == |direct|)
      && (regenerated && n <= b ==> (comp == direct <==> FreshIsDirect(buffer, params.stop, limit, n)))
      && (!regenerated && buffer != "" && LeftoverIsDirect(buffer, params.stop, limit, n) ==> comp == direct)
    }

    lemma ServedAsDirect(before: string, params: SamplingParams, regenerated: bool, buffer: string, comp: string, model: Model)
      requires numApiSpecTokens.Some? && Continues(generate, model) && buffer <= model.continuation(before)
      requires regenerated ==> buffer == generate(before, Ahead(params))
      requires comp <= buffer && |comp| == ServedLength(params, regenerated, buffer)
      ensures AsDirect(params, regenerated, buffer, comp, generate(before, params),
                       model.length(before, params), model.length(before, Ahead(params)))
    {
      hide FreshIsDirect, LeftoverIsDirect, First, Served, UpToStop;
      var next, stop, limit := model.continuation(before), params.stop, Limit(params, regenerated);
      var n, b := model.length(before, params), model.length(before, Ahead(params));
      assert generate(before, params) == Reply(model, before, params);
      assert generate(before, Ahead(params)) == Reply(model, before, Ahead(params));
      UpToNothing(Take(next, b));
      CutIsPrefix(Take(next, n), stop);
      assert comp == next[..|comp|] && generate(before, params) == next[..|generate(before, params)|];
      if regenerated && n <= b { FreshStops(next, stop, limit, n, b); }
      if !regenerated && buffer != "" && LeftoverIsDirect(buffer, stop, limit, n) { LeftoverStops(buffer, stop, limit, n); }
    }

    /** With one character per token and no stop strings the condition holds. */
    lemma PlainIsDirect(params: SamplingParams, buffer: string, before: string, model: Model)
      requires numApiSpecTokens.Some? && numApiSpecTokens.value <= params.maxNewTokens && params.stop == Stops([])
      requires OneCharacterPerToken(model)
      ensures model.length(before, params) <= model.length(before, Ahead(params))
      ensures FreshIsDirect(buffer, params.stop, Limit(params, true), model.length(before, params))
    {
      assert First(buffer, Stops([])) == -1;
    }

    static lemma UpToNothing(s: string)
      ensures UpToStop(s, NoStop) == s
    {
    }

    static lemma CutIsPrefix(s: string, stop: Stop)
      ensures UpToStop(s, stop) <= s
    {
      FirstIsFirst(s, stop);
    }

    lemma BufferContinues(params: SamplingParams, model: Model)
      requires numApiSpecTokens.Some? && Continues(generate, model) && Aligned(model)
      ensures Buffer(params) <= model.continuation(text)
    {
      assert generate(text, Ahead(params)) == Reply(model, text, Ahead(params));
    }

    lemma ServedFromBuffer(before: string, comp: string, rest: string, model: Model)
      requires Continues(generate, model) && comp + rest <= model.continuation(before)
      ensures rest <= model.continuation(before + comp)
    {
      assert model.continuation(before)[..|comp|] == comp;
      assert model.continuation(before)[|comp|..][..|rest|] == rest;
    }

    method ExecuteRoleBegin(role: string, ghost model: Model) returns (ok: bool)
      requires Valid()
      modifies this`text, this`messages, this`curRole, this`curRoleBeginPos, this`speculatedText
      ensures Valid()
      ensures ok <==> Step(template, old(State()), RoleBegin(role)).Some?
      ensures ok ==> Step(template, old(State()), RoleBegin(role)) == Some(State())
      ensures !ok ==> State() == old(State())
      ensures Continues(generate, model) && old(Aligned(model)) ==> Aligned(model)
      decreases if role == "system" then 0 else 1, 1
    {
      hide ChatTemplate.GetPrefixAndSuffix, Continues, Speculation, WithDefault, LStrip;
      if curRole.Some? { return false; }
      ghost var before := State();
      InsertDefaultSystem(role, model);
      curRole := Some(role);
      var prefix := template.GetPrefixAndSuffix(role, messages).prefix;
      ExecuteFill(prefix, model);
      curRoleBeginPos := Some(|text|);
      assert State() == Opened(template, WithDefault(template, before, role), role);
      return true;
    }

    /** Before the first message, unless it is a system message, insert the default system prompt. */
    method InsertDefaultSystem(role: string, ghost model: Model)
      requires Valid() && curRole.None?
      modifies this`text, this`messages, this`curRole, this`curRoleBeginPos, this`speculatedText
      ensures Valid() && State() == WithDefault(template, old(State()), role)
      ensures Continues(generate, model) && old(Aligned(model)) ==> Aligned(model)
      decreases if role == "system" then 0 else 1, 0
    {
      hide ChatTemplate.GetPrefixAndSuffix, Continues, Speculation, LStrip;
      if |messages| == 0 && role != "system" {
        var defaultSystem := template.defaultSystemPrompt;
        if defaultSystem.Some? && defaultSystem.value != "" {
          ghost var before := State();
          var _ := ExecuteRoleBegin("system", model);
          assert State() == Opened(template, before, "system");
          ExecuteFill(defaultSystem.value, model);
          ExecuteRoleEnd("system", model);
        }
      }
    }

    method ExecuteRoleEnd(role: string, ghost model: Model)
      requires Valid()
      modifies this`text, this`messages, this`curRole, this`speculatedText
      ensures Valid() && Step(template, old(State()), RoleEnd(role)) == Some(State())
      ensures Continues(generate, model) && old(Aligned(model)) ==> Aligned(model)
    {
      hide ChatTemplate.GetPrefixAndSuffix, Continues, Speculation, LStrip;
      ghost var before := State();
      curRole := None;
      var newText := LStrip(if curRoleBeginPos.Some? then text[curRoleBeginPos.value..] else text);
      var suffix := template.GetPrefixAndSuffix(role, messages).suffix;
      ExecuteFill(suffix, model);
      messages := messages + [Message(role, Some(newText))];
      assert State() == Closed(template, before, role);
    }

    /** One expression of the queue. */
    method Execute(c: Command, ghost model: Model) returns (ok: bool, ghost e: Event, ghost serving: Serving)
      requires Valid()
      modifies this
      ensures Valid() && Matches(c, e)
      ensures ok <==> Step(template, old(State()), e).Some?
      ensures ok ==> Step(template, old(State()), e) == Some(State())
      ensures !ok ==> State() == old(State())
      ensures Continues(generate, model) && old(Aligned(model)) ==> Aligned(model)
      ensures numApiSpecTokens.None? || !c.Gen? ==> e == EventOf(generate, old(text), c)
      ensures numApiSpecTokens.Some? ==> ServedFrom(old(text), c, e, serving)
      ensures numApiSpecTokens.Some? && Continues(generate, model) && old(Aligned(model)) ==>
                (e == EventOf(generate, old(text), c) <==> ServesDirectly(old(text), c, serving))
      ensures numApiSpecTokens.Some? && Continues(generate, model) && old(Aligned(model)) && OneCharacterPerToken(model) ==>
                PlainCall(c, serving) ==> e == EventOf(generate, old(text), c)
      ensures numApiSpecTokens.Some? && Continues(generate, model) && old(Aligned(model)) && ReadsAhead(model) ==>
                && (Condition(model, old(text), c, serving) ==> ServesDirectly(old(text), c, serving))
                && ((c.Gen? ==> serving.regenerated) && ServesDirectly(old(text), c, serving) ==>
                      Condition(model, old(text), c, serving))
    {
      hide Step, Continues, Speculation, FreshIsDirect, LeftoverIsDirect, First, FreeOfStops;
      serving := if c.Gen? && numApiSpecTokens.Some? then Serving(Regenerates(c.params), Buffer(c.params)) else Serving(false, "");
      match c
      case ConstantText(value) =>
        ExecuteFill(value, model);
        ok, e := true, Fill(value);
        assert Step(template, old(State()), e) == Some(State()) by { StepOfFill(template, old(State()), value); }
      case Gen(name, params) =>
        ghost var before := text;
        var comp := ExecuteGen(name, params, model);
        ok, e := true, Answer(name, comp);
        if numApiSpecTokens.Some? && OneCharacterPerToken(model) && PlainCall(c, serving) {
          PlainIsDirect(params, serving.buffer, before, model);
        }
      case Begin(role) =>
        ok := ExecuteRoleBegin(role, model);
        e := RoleBegin(role);
      case End(role) =>
        ExecuteRoleEnd(role, model);
        ok, e := true, RoleEnd(role);
    }

    /** A generation appended the served part of its buffer; if a call was made for it, the buffer is
        what that call returned. */
    ghost predicate ServedFrom(text: string, c: Command, e: Event, serving: Serving)
      requires numApiSpecTokens.Some?
    {
      c.Gen? ==>
        var n := ServedLength(c.params, serving.regenerated, serving.buffer);
        && (serving.regenerated ==> serving.buffer == generate(text, Ahead(c.params)))
        && 0 <= n <= |serving.buffer| && e.Answer? && e.answer == serving.buffer[..n]
    }

    /** As many characters are served as a direct call would return. */
    ghost predicate ServesDirectly(text: string, c: Command, serving: Serving)
      requires numApiSpecTokens.Some?
    {
      c.Gen? ==> ServedLength(c.params, serving.regenerated, serving.buffer) == |generate(text, c.params)|
    }

    ghost function TextAfter(st: ValidSession, events: seq<Event>): string {
      var after := Replay(template, st, events);
      if after.Some? then after.value.text else ""
    }

    /** Every event is that of the simple semantics. */
    ghost predicate IsDirect(st: ValidSession, cmds: seq<Command>, events: seq<Event>)
      requires |events| <= |cmds|
    {
      events != [] ==>
        var n := |events| - 1;
        IsDirect(st, cmds, events[..n]) && events[n] == EventOf(generate, TextAfter(st, events[..n]), cmds[n])
    }

    /** How every generation was served. */
    ghost predicate AllServed(st: ValidSession, cmds: seq<Command>, events: seq<Event>, served: seq<Serving>)
      requires |events| == |served| <= |cmds| && numApiSpecTokens.Some?
    {
      events != [] ==>
        var n := |events| - 1;
        && AllServed(st, cmds, events[..n], served[..n])
        && ServedFrom(TextAfter(st, events[..n]), cmds[n], events[n], served[n])
    }

    /** Every generation was served as many characters as a direct call would return. */
    ghost predicate AllDirectly(st: ValidSession, cmds: seq<Command>, events: seq<Event>, served: seq<Serving>)
      requires |events| == |served| <= |cmds| && numApiSpecTokens.Some?
    {
      events != [] ==>
        var n := |events| - 1;
        && AllDirectly(st, cmds, events[..n], served[..n])
        && ServesDirectly(TextAfter(st, events[..n]), cmds[n], served[n])
    }

    /** The condition under which a generation is served what a direct call would return, in terms of the
        buffer it was cut from and the number of characters that the direct call reads. */
    ghost predicate Condition(model: Model, text: string, c: Command, serving: Serving)
      requires numApiSpecTokens.Some?
    {
      c.Gen? ==>
        var limit, n := Limit(c.params, serving.regenerated), model.length(text, c.params);
        if serving.regenerated then FreshIsDirect(serving.buffer, c.params.stop, limit, n)
        else serving.buffer != "" && LeftoverIsDirect(serving.buffer, c.params.stop, limit, n)
    }

    /** No call ahead reads less than a direct one. */
    ghost predicate ReadsAhead(model: Model)
      requires numApiSpecTokens.Some?
    {
      forall text, params :: model.length(text, params) <= model.length(text, Ahead(params))
    }

    /** The backend reads one character per token. */
    ghost predicate OneCharacterPerToken(model: Model) {
      forall text, params :: model.length(text, params) == params.maxNewTokens
    }

    /** A generation without stop strings that a call was made for, and that asks for no less than the look-ahead. */
    ghost predicate PlainCall(c: Command, serving: Serving)
      requires numApiSpecTokens.Some?
    {
      c.Gen? && serving.regenerated && c.params.stop == Stops([]) && numApiSpecTokens.value <= c.params.maxNewTokens
    }

    ghost predicate AllConditions(model: Model, st: ValidSession, cmds: seq<Command>, events: seq<Event>, served: seq<Serving>)
      requires |events| == |served| <= |cmds| && numApiSpecTokens.Some?
    {
      events != [] ==>
        var n := |events| - 1;
        && AllConditions(model, st, cmds, events[..n], served[..n])
        && Condition(model, TextAfter(st, events[..n]), cmds[n], served[n])
    }

    ghost predicate AllFresh(cmds: seq<Command>, served: seq<Serving>)
      requires |served| <= |cmds|
    {
      forall i :: 0 <= i < |served| && cmds[i].Gen? ==> served[i].regenerated
    }

    /** The worker: execute the queue until something fails. Without speculation the run is that of the
        simple semantics. With speculation and a backend that continues its own text, it is that of the
        simple semantics exactly if every generation was served as many characters as a direct call
        would return, with or without stop strings. If no call ahead reads less than a direct one, the
        conditions on the buffers suffice for that, and without left-over servings they are also necessary. */
    method Run(cmds: seq<Command>, ghost model: Model) returns (ok: bool, ghost events: seq<Event>, ghost served: seq<Serving>)
      requires Valid()
      modifies this
      ensures Valid()
      ensures |served| == |events| <= |cmds| && (forall i :: 0 <= i < |events| ==> Matches(cmds[i], events[i]))
      ensures Replay(template, old(State()), events) == Some(State())
      ensures ok ==> |events| == |cmds|
      ensures !ok ==> |events| < |cmds| && curRole.Some? && cmds[|events|].Begin?
      ensures numApiSpecTokens.Some? ==> AllServed(old(State()), cmds, events, served)
      ensures numApiSpecTokens.None? ==> IsDirect(old(State()), cmds, events)
      ensures numApiSpecTokens.Some? && Continues(generate, model) && old(Aligned(model)) ==>
                (IsDirect(old(State()), cmds, events) <==> AllDirectly(old(State()), cmds, events, served))
      ensures numApiSpecTokens.Some? && Continues(generate, model) && old(Aligned(model)) && ReadsAhead(model) ==>
                && (AllConditions(model, old(State()), cmds, events, served) ==> IsDirect(old(State()), cmds, events))
                && (AllFresh(cmds, served) && IsDirect(old(State()), cmds, events) ==>
                      AllConditions(model, old(State()), cmds, events, served))
      ensures numApiSpecTokens.Some? && Continues(generate, model) && old(Aligned(model)) && OneCharacterPerToken(model) ==>
                forall i :: 0 <= i < |events| && PlainCall(cmds[i], served[i]) ==>
                  events[i] == EventOf(generate, TextAfter(old(State()), events[..i]), cmds[i])
      ensures IsDirect(old(State()), cmds, events) ==>
                DirectRun(template, generate, old(State()), cmds) == if ok then Some(State()) else None
    {
      hide Continues, Speculation, Step, Replay, DirectRun, Matches, IsDirect, AllServed, AllDirectly, ServedFrom, ServesDirectly,
           AllConditions, Condition, ReadsAhead, OneCharacterPerToken, PlainCall, EventOf;
      ok, events, served := true, [], [];
      ghost var start := State();
      ghost var ready := numApiSpecTokens.Some? && Continues(generate, model) && Aligned(model);
      ReplayNone(start);
      NothingRun(start, cmds);
      assert cmds[..0] == [];
      var i := 0;
      while i < |cmds|
        invariant i <= |cmds| && ok && Valid() && |events| == |served| == i
        invariant forall j :: 0 <= j < i ==> Matches(cmds[j], events[j])
        invariant Replay(template, start, events) == Some(State())
        invariant ready ==> Continues(generate, model) && Aligned(model)
        invariant numApiSpecTokens.Some? ==> AllServed(start, cmds, events, served)
        invariant numApiSpecTokens.None? ==> IsDirect(start, cmds, events)
        invariant ready ==> (IsDirect(start, cmds, events) <==> AllDirectly(start, cmds, events, served))
        invariant ready && ReadsAhead(model) && AllConditions(model, start, cmds, events, served) ==>
                    AllDirectly(start, cmds, events, served)
        invariant ready && ReadsAhead(model) && AllFresh(cmds, served) && AllDirectly(start, cmds, events, served) ==>
                    AllConditions(model, start, cmds, events, served)
        invariant ready && OneCharacterPerToken(model) ==>
                    forall j :: 0 <= j < i && PlainCall(cmds[j], served[j]) ==>
                      events[j] == EventOf(generate, TextAfter(start, events[..j]), cmds[j])
        invariant IsDirect(start, cmds, events) ==> DirectRun(template, generate, start, cmds[..i]) == Some(State())
      {
        ghost var before := text;
        ghost var e, serving;
        ok, e, serving := Execute(cmds[i], model);
        DirectStep(start, cmds, i);
        if !ok {
          FailsOnNested(cmds[i], e);
          if IsDirect(start, cmds, events) { DirectStuck(start, cmds, i + 1); }
          return;
        }
        ReplayOne(start, events, e);
        OneMoreServed(start, cmds, events, served, e, serving, before, model);
        ghost var events', served' := events + [e], served + [serving];
        forall j | 0 <= j < i ensures events'[..j] == events[..j] && events'[j] == events[j] && served'[j] == served[j] { }
        assert events'[..i] == events && events'[i] == e && served'[i] == serving;
        events, served := events', served';
        i := i + 1;
      }
      assert cmds[..i] == cmds;
    }

    lemma NothingRun(st: ValidSession, cmds: seq<Command>)
      ensures IsDirect(st, cmds, [])
      ensures numApiSpecTokens.Some? ==> AllServed(st, cmds, [], []) && AllDirectly(st, cmds, [], [])
      ensures numApiSpecTokens.Some? ==> forall model :: AllConditions(model, st, cmds, [], [])
    {
    }

    lemma OneMoreServed(st: ValidSession, cmds: seq<Command>, events: seq<Event>, served: seq<Serving>, e: Event, serving: Serving,
                        text: string, model: Model)
      requires |events| == |served| < |cmds| && TextAfter(st, events) == text
      ensures IsDirect(st, cmds, events + [e])
              <==> IsDirect(st, cmds, events) && e == EventOf(generate, text, cmds[|events|])
      ensures numApiSpecTokens.Some? ==>
                && (AllServed(st, cmds, events + [e], served + [serving])
                    <==> AllServed(st, cmds, events, served) && ServedFrom(text, cmds[|events|], e, serving))
                && (AllDirectly(st, cmds, events + [e], served + [serving])
                    <==> AllDirectly(st, cmds, events, served) && ServesDirectly(text, cmds[|events|], serving))
                && (AllConditions(model, st, cmds, events + [e], served + [serving])
                    <==> AllConditions(model, st, cmds, events, served) && Condition(model, text, cmds[|events|], serving))
      ensures AllFresh(cmds, served + [serving])
              <==> AllFresh(cmds, served) && (cmds[|served|].Gen? ==> serving.regenerated)
    {
      hide Replay, ServedFrom, ServesDirectly, Condition;
      assert forall i :: 0 <= i < |served| ==> (served + [serving])[i] == served[i];
      assert (served + [serving])[|served|] == serving;
      assert (events + [e])[..|events|] == events && (served + [serving])[..|served|] == served;
    }

    lemma ReplayNone(st: ValidSession)
      ensures Replay(template, st, []) == Some(st) && DirectRun(template, generate, st, []) == Some(st)
    {
    }

    lemma ReplayOne(st: ValidSession, events: seq<Event>, e: Event)
      requires Replay(template, st, events).Some?
      ensures Replay(template, st, events + [e]) == Step(template, Replay(template, st, events).value, e)
    {
      assert (events + [e])[..|events|] == events;
    }

    lemma DirectStep(st: ValidSession, cmds: seq<Command>, i: nat)
      requires i < |cmds|
      ensures DirectRun(template, generate, st, cmds[..i + 1])
              == var before := DirectRun(template, generate, st, cmds[..i]);
                 if before.None? then None else Step(template, before.value, EventOf(generate, before.value.text, cmds[i]))
    {
      assert cmds[..i + 1][..i] == cmds[..i];
    }

    lemma {:induction false} DirectStuck(st: ValidSession, cmds: seq<Command>, i: nat)
      requires i <= |cmds| && DirectRun(template, generate, st, cmds[..i]).None?
      ensures DirectRun(template, generate, st, cmds).None?
      decreases |cmds| - i
    {
      if i == |cmds| {
        assert cmds[..i] == cmds;
      } else {
        DirectStep(st, cmds, i);
        DirectStuck(st, cmds, i + 1);
      }
    }

    lemma FailsOnNested(c: Command, e: Event)
      requires State().Valid() && Matches(c, e) && Step(template, State(), e).None?
      ensures c.Begin? && curRole.Some?
    {
    }
  }

  lemma StepOfFill(t: ChatTemplate, st: ValidSession, value: string)
    ensures Step(t, st, Fill(value)) == Some(st.(text := st.text + value))
  {
  }
}
