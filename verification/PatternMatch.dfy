/** Speculation over a chat interface: constant text and generations of one assistant turn are
    collected as a pattern, one completion is requested for the whole turn, and it is matched
    against the pattern to fill the holes. */
module PatternMatch {
  import opened Options
  import opened Strings

  /** A generation stops at one string; without one, or with a list, the match cannot search for it. */
  datatype Stop = NoStop | OneStop(stop: string) | StopList(stops: seq<string>)

  /** Constant text, or a hole, whose text is empty. */
  datatype Term = Term(text: string, stop: Stop, name: Option<string>)

  datatype Outcome = Matched | Mismatch | TypeError

  function Joined(terms: seq<Term>): string {
    if terms == [] then "" else Joined(terms[..|terms| - 1]) + terms[|terms| - 1].text
  }

  /** What is left of the completion for a term: its own text and everything after it. */
  predicate Segment(before: Term, after: Term, rest: string, last: bool) {
    && after.stop == before.stop && after.name == before.name
    && after.text <= rest
    && if before.text != "" then after.text == before.text
       else before.stop.OneStop?
            && var pos := Find(rest, before.stop.stop);
               if pos != -1 then |after.text| == pos else last && after.text == rest
  }

  /** The pattern `after` fills the holes of `before` with consecutive segments of the completion. */
  ghost predicate Segmentation(before: seq<Term>, after: seq<Term>, comp: string) {
    |after| == |before| && forall i :: 0 <= i < |before| ==> SegmentAt(before, after, comp, i)
  }

  /** The completion has a segmentation by the pattern. */
  ghost predicate Matches(before: seq<Term>, comp: string) {
    exists after :: Segmentation(before, after, comp)
  }

  ghost predicate SegmentAt(before: seq<Term>, after: seq<Term>, comp: string, i: nat)
    requires i < |before| == |after|
  {
    var start := |Joined(after[..i])|;
    start <= |comp| && Segment(before[i], after[i], comp[start..], i == |before| - 1)
  }

  lemma JoinedStep(terms: seq<Term>, i: nat)
    requires i < |terms|
    ensures Joined(terms[..i + 1]) == Joined(terms[..i]) + terms[i].text
  {
    assert terms[..i + 1][..i] == terms[..i];
  }

  /** There is at most one segmentation. */
  lemma {:induction false} SegmentationUnique(before: seq<Term>, a: seq<Term>, b: seq<Term>, comp: string, i: nat)
    requires Segmentation(before, a, comp) && Segmentation(before, b, comp) && i <= |before|
    ensures a[..i] == b[..i]
  {
    if i > 0 {
      SegmentationUnique(before, a, b, comp, i - 1);
      assert SegmentAt(before, a, comp, i - 1) && SegmentAt(before, b, comp, i - 1);
      var start := |Joined(a[..i - 1])|;
      SegmentUnique(before[i - 1], a[i - 1], b[i - 1], comp[start..], i - 1 == |before| - 1);
      assert a[..i] == a[..i - 1] + [a[i - 1]] && b[..i] == b[..i - 1] + [b[i - 1]];
    }
  }

  lemma SegmentUnique(before: Term, a: Term, b: Term, rest: string, last: bool)
    requires Segment(before, a, rest, last) && Segment(before, b, rest, last)
    ensures a == b
  {
  }

  /** What a segmentation means: the terms spell out the beginning of the completion, constants are
      kept, and no hole contains its stop string. */
  lemma {:induction false} SegmentationSpells(before: seq<Term>, after: seq<Term>, comp: string, i: nat)
    requires Segmentation(before, after, comp) && i <= |before|
    ensures Joined(after[..i]) <= comp
    ensures forall j :: 0 <= j < i && before[j].text != "" ==> after[j] == before[j]
    ensures forall j :: 0 <= j < i && before[j].text == "" ==> HoleFilled(before[j], after[j])
  {
    if i > 0 {
      SegmentationSpells(before, after, comp, i - 1);
      JoinedStep(after, i - 1);
      assert SegmentAt(before, after, comp, i - 1);
      var start := |Joined(after[..i - 1])|;
      assert comp[..start] + comp[start..] == comp;
      if before[i - 1].text == "" {
        HoleFree(before[i - 1], after[i - 1], comp[start..], i == |before|);
      }
    }
  }

  /** A hole is filled with text that does not contain its stop string. */
  predicate HoleFilled(before: Term, after: Term) {
    && before.stop.OneStop? && after.stop == before.stop && after.name == before.name
    && (before.stop.stop != "" ==> Find(after.text, before.stop.stop) == -1)
  }

  lemma HoleFree(before: Term, after: Term, rest: string, last: bool)
    requires before.text == "" && Segment(before, after, rest, last)
    ensures HoleFilled(before, after)
  {
    var stop, pos := before.stop.stop, Find(after.text, before.stop.stop);
    if pos != -1 { OccursInLonger(after.text, rest, stop, pos); }
  }

  /** A match that got stuck at term i: the terms before it hold their segments, the others are untouched. */
  ghost predicate StuckAt(before: seq<Term>, after: seq<Term>, comp: string, i: nat) {
    && i < |before| == |after| && after[i..] == before[i..]
    && (forall j :: 0 <= j < i ==> SegmentAt(before, after, comp, j))
    && Joined(after[..i]) <= comp
    && !CanSegment(before[i], comp[|Joined(after[..i])|..], i == |before| - 1)
  }

  predicate EndsWith(s: string, suffix: string) {
    |suffix| <= |s| && s[|s| - |suffix|..] == suffix
  }

  predicate NoNames(terms: seq<Term>) {
    forall i :: 0 <= i < |terms| ==> terms[i].name.None?
  }

  /** Every named term sets its variable, in order. */
  function Assigned(variables: map<string, string>, terms: seq<Term>): map<string, string> {
    if terms == [] then variables
    else
      var n := |terms| - 1;
      var before := Assigned(variables, terms[..n]);
      if terms[n].name.Some? then before[terms[n].name.value := terms[n].text] else before
  }

  /** A variable holds the segment of the last term with its name. */
  lemma {:induction false} AssignedSegment(variables: map<string, string>, terms: seq<Term>, name: string, i: nat)
    requires i < |terms| && terms[i].name == Some(name)
    requires forall j :: i < j < |terms| ==> terms[j].name != Some(name)
    ensures name in Assigned(variables, terms) && Assigned(variables, terms)[name] == terms[i].text
  {
    if i < |terms| - 1 {
      AssignedSegment(variables, terms[..|terms| - 1], name, i);
    }
  }

  /** A variable that no term names does not change. */
  lemma {:induction false} AssignedOther(variables: map<string, string>, terms: seq<Term>, name: string)
    requires forall j :: 0 <= j < |terms| ==> terms[j].name != Some(name)
    ensures name in Assigned(variables, terms) <==> name in variables
    ensures name in variables ==> Assigned(variables, terms)[name] == variables[name]
  {
    if terms != [] {
      AssignedOther(variables, terms[..|terms| - 1], name);
    }
  }

  /** After the turn a variable holds the segment of the last term with its name, or what it held before. */
  ghost predicate VariableIs(variables: map<string, string>, variables': map<string, string>, terms: seq<Term>, name: string) {
    && (forall i :: 0 <= i < |terms| && LastNamed(terms, name, i) ==> name in variables' && variables'[name] == terms[i].text)
    && ((forall i :: 0 <= i < |terms| ==> terms[i].name != Some(name)) ==>
          (name in variables' <==> name in variables) && (name in variables ==> variables'[name] == variables[name]))
  }

  predicate LastNamed(terms: seq<Term>, name: string, i: nat)
    requires i < |terms|
  {
    terms[i].name == Some(name) && forall j :: i < j < |terms| ==> terms[j].name != Some(name)
  }

  lemma AssignedIs(variables: map<string, string>, terms: seq<Term>, name: string)
    ensures VariableIs(variables, Assigned(variables, terms), terms, name)
  {
    hide Assigned;
    forall i | 0 <= i < |terms| && LastNamed(terms, name, i)
      ensures name in Assigned(variables, terms) && Assigned(variables, terms)[name] == terms[i].text
    {
      AssignedSegment(variables, terms, name, i);
    }
    if forall i :: 0 <= i < |terms| ==> terms[i].name != Some(name) { AssignedOther(variables, terms, name); }
  }

  /** The first i terms hold their segments of the completion, the others are untouched. */
  ghost predicate Progress(before: seq<Term>, now: seq<Term>, comp: string, i: nat, rest: string) {
    && i <= |before| == |now| && SameShape(before, now) && now[i..] == before[i..]
    && (forall j :: 0 <= j < i ==> SegmentAt(before, now, comp, j))
    && Joined(now[..i]) + rest == comp
  }

  // ---- Matching as a function ----

  /** Match the terms from position i on against what is left: the outcome, and what the terms hold
      afterwards. */
  function AttemptFrom(terms: seq<Term>, i: nat, rest: string): (Outcome, seq<Term>)
    requires i <= |terms|
    decreases |terms| - i
  {
    if i == |terms| then (Matched, [])
    else
      var term := terms[i];
      if !CanSegment(term, rest, i == |terms| - 1) then (StuckOutcome(term), terms[i..])
      else
        var n := Taken(term, rest);
        var (r, after) := AttemptFrom(terms, i + 1, rest[n..]);
        (r, [term.(text := rest[..n])] + after)
  }

  function Attempt(terms: seq<Term>, comp: string): (Outcome, seq<Term>) {
    AttemptFrom(terms, 0, comp)
  }

  function StuckOutcome(term: Term): Outcome {
    if term.text == "" && !term.stop.OneStop? then TypeError else Mismatch
  }

  /** How much of what is left a term takes. */
  function Taken(term: Term, rest: string): (n: nat)
    requires term.text <= rest && (term.text == "" ==> term.stop.OneStop?)
    ensures n <= |rest|
  {
    if term.text != "" then |term.text|
    else if Find(rest, term.stop.stop) != -1 then Find(rest, term.stop.stop)
    else |rest|
  }

  /** A term that has a segment takes exactly it. */
  lemma SegmentTaken(before: Term, after: Term, rest: string, last: bool)
    requires Segment(before, after, rest, last)
    ensures CanSegment(before, rest, last) && after == before.(text := rest[..Taken(before, rest)])
  {
  }

  lemma StepTaken(before: seq<Term>, after: seq<Term>, comp: string, i: nat)
    requires i < |before| == |after| && SegmentAt(before, after, comp, i)
    ensures |Joined(after[..i])| <= |Joined(after[..i + 1])| <= |comp|
    ensures var rest := comp[|Joined(after[..i])|..];
            && CanSegment(before[i], rest, i == |before| - 1)
            && after[i] == before[i].(text := rest[..Taken(before[i], rest)])
            && comp[|Joined(after[..i + 1])|..] == rest[Taken(before[i], rest)..]
  {
    hide Segment, CanSegment, Taken, Joined;
    JoinedStep(after, i);
    var start := |Joined(after[..i])|;
    SegmentTaken(before[i], after[i], comp[start..], i == |before| - 1);
  }

  lemma {:induction false} AttemptOfSegmentation(before: seq<Term>, after: seq<Term>, comp: string, i: nat)
    requires Segmentation(before, after, comp) && i <= |before| && |Joined(after[..i])| <= |comp|
    ensures AttemptFrom(before, i, comp[|Joined(after[..i])|..]) == (Matched, after[i..])
    decreases |before| - i
  {
    hide SegmentAt, CanSegment, Taken, Joined;
    if i < |before| {
      assert SegmentAt(before, after, comp, i);
      StepTaken(before, after, comp, i);
      AttemptOfSegmentation(before, after, comp, i + 1);
      assert after[i..] == [after[i]] + after[i + 1..];
    } else {
      assert after[i..] == [];
    }
  }

  lemma {:induction false} AttemptOfStuck(before: seq<Term>, after: seq<Term>, comp: string, k: nat, i: nat)
    requires StuckAt(before, after, comp, k) && i <= k && |Joined(after[..i])| <= |comp|
    ensures AttemptFrom(before, i, comp[|Joined(after[..i])|..]) == (StuckOutcome(before[k]), after[i..])
    decreases k - i
  {
    hide SegmentAt, CanSegment, Taken, Joined;
    if i < k {
      assert SegmentAt(before, after, comp, i);
      StepTaken(before, after, comp, i);
      AttemptOfStuck(before, after, comp, k, i + 1);
      assert after[i..] == [after[i]] + after[i + 1..];
    }
  }

  /** Matching succeeds exactly if there is a segmentation, and yields it. */
  lemma AttemptMatches(before: seq<Term>, comp: string)
    ensures Attempt(before, comp).0.Matched? <==> Matches(before, comp)
    ensures forall after :: Segmentation(before, after, comp) <==> Attempt(before, comp) == (Matched, after)
  {
    hide Segmentation;
    forall after | Segmentation(before, after, comp) ensures Attempt(before, comp) == (Matched, after) {
      SegmentationLength(before, after, comp);
      AttemptOfSegmentation(before, after, comp, 0);
      assert after[0..] == after && comp[0..] == comp;
    }
    if Attempt(before, comp).0.Matched? { AttemptSegments(before, comp, [], before, comp); }
  }

  lemma SegmentationLength(before: seq<Term>, after: seq<Term>, comp: string)
    requires Segmentation(before, after, comp)
    ensures |after| == |before| && Joined(after[..0]) == ""
  {
  }

  /** A successful match from position |done| on completes the segments done so far. */
  lemma {:induction false} AttemptSegments(before: seq<Term>, comp: string, done: seq<Term>, now: seq<Term>, rest: string)
    requires |done| <= |before| && now == done + before[|done|..] && Progress(before, now, comp, |done|, rest)
    requires AttemptFrom(before, |done|, rest).0.Matched?
    ensures Segmentation(before, done + AttemptFrom(before, |done|, rest).1, comp)
    decreases |before| - |done|
  {
    hide Progress, Segmentation, Segment, Find;
    var i := |done|;
    if i == |before| {
      Complete(before, now, comp, rest);
      assert done + [] == done && now == done;
    } else {
      var n := Taken(before[i], rest);
      var term := before[i].(text := rest[..n]);
      TakenSegment(before[i], rest, i == |before| - 1);
      assert term.text + rest[n..] == rest;
      Advance(before, now, comp, i, term, rest[n..]);
      var done' := done + [term];
      assert now[i := term] == done' + before[i + 1..];
      AttemptSegments(before, comp, done', now[i := term], rest[n..]);
      var after := AttemptFrom(before, i + 1, rest[n..]).1;
      assert done' + after == done + ([term] + after);
    }
  }

  lemma TakenSegment(before: Term, rest: string, last: bool)
    requires CanSegment(before, rest, last)
    ensures Segment(before, before.(text := rest[..Taken(before, rest)]), rest, last)
  {
  }

  // ---- The tries ----

  /** What the terms hold when try k starts. */
  function TermsAt(before: seq<Term>, complete: nat -> string, k: nat): seq<Term> {
    if k == 0 then before else Attempt(TermsAt(before, complete, k - 1), complete(k - 1)).1
  }

  /** All tries before try k were refused. */
  ghost predicate Refused(before: seq<Term>, complete: nat -> string, k: nat) {
    forall i :: 0 <= i < k ==> Attempt(TermsAt(before, complete, i), complete(i)).0.Mismatch?
  }

  /** Try k is the one that matches, among at most n. */
  ghost predicate MatchedAt(before: seq<Term>, complete: nat -> string, k: nat, n: nat) {
    k < n && Refused(before, complete, k) && Matches(TermsAt(before, complete, k), complete(k))
  }

  class OpenAI {
    const chatPrefix: string
    var specFormat: seq<Term>
    const specMaxNumTries: nat := 3

    constructor (chatPrefix: string)
      ensures this.chatPrefix == chatPrefix && specFormat == []
    {
      this.chatPrefix := chatPrefix;
      specFormat := [];
    }

    method SpecFill(value: string)
      modifies this`specFormat
      ensures specFormat == old(specFormat) + [Term(value, NoStop, None)]
    {
      specFormat := specFormat + [Term(value, NoStop, None)];
    }

    method PrepareSpecExecution(stop: Stop, name: Option<string>)
      modifies this`specFormat
      ensures specFormat == old(specFormat) + [Term("", stop, name)]
    {
      specFormat := specFormat + [Term("", stop, name)];
    }

    /** Match a completion, filling holes in place. It succeeds exactly when the pattern has a
        segmentation, and then the terms are that segmentation. A failing match may leave holes
        filled, each with what a segmentation of the terms so far would have put there. */
    method SpecPatternMatch(comp: string) returns (r: Outcome)
      modifies this`specFormat
      ensures r.Matched? <==> Matches(old(specFormat), comp)
      ensures r.Matched? ==> Segmentation(old(specFormat), specFormat, comp)
      ensures !r.Matched? ==> exists i :: StuckAt(old(specFormat), specFormat, comp, i)
      ensures (r, specFormat) == Attempt(old(specFormat), comp)
      ensures SameShape(old(specFormat), specFormat)
    {
      hide Segment, Progress, Segmentation, StuckAt, SameShape, Joined, Matches, Attempt;
      ghost var before := specFormat;
      var rest := comp;
      var i := 0;
      Start(before, comp);
      while i < |specFormat|
        invariant i <= |specFormat| == |before| && Progress(before, specFormat, comp, i, rest)
      {
        var term := specFormat[i];
        ghost var terms, last, left := specFormat, i == |before| - 1, rest;
        Untouched(before, terms, comp, i, rest);
        if term.text != "" {
          if !(term.text <= rest) {
            NoSegment(before, terms, comp, i, rest);
            StuckAttempt(before, terms, comp, i);
            return Mismatch;
          }
          SegmentOf(term, term, rest, last);
          rest := rest[|term.text|..];
        } else {
          if !term.stop.OneStop? {
            NoSegment(before, terms, comp, i, rest);
            StuckAttempt(before, terms, comp, i);
            return TypeError;
          }
          var pos := Find(rest, term.stop.stop);
          if pos == -1 {
            if i != |specFormat| - 1 {
              NoSegment(before, terms, comp, i, rest);
              StuckAttempt(before, terms, comp, i);
              return Mismatch;
            }
            pos := |rest|;
          }
          SegmentOf(term, term.(text := rest[..pos]), rest, last);
          specFormat := specFormat[i := term.(text := rest[..pos])];
          rest := rest[pos..];
        }
        assert specFormat == terms[i := specFormat[i]] && left == specFormat[i].text + rest;
        Advance(before, terms, comp, i, specFormat[i], rest);
        i := i + 1;
      }
      Complete(before, specFormat, comp, rest);
      AttemptMatches(before, comp);
      return Matched;
    }

    /** Request completions until one matches, at most three times. Every try matches against what
        the tries before it left in the terms. */
    method RequestCompletions(complete: nat -> string) returns (r: Outcome, ghost matchedBy: Option<nat>)
      modifies this`specFormat
      ensures SameShape(old(specFormat), specFormat)
      ensures matchedBy.Some? <==> r.Matched?
      ensures forall k: nat :: matchedBy == Some(k) <==> MatchedAt(old(specFormat), complete, k, specMaxNumTries)
      ensures matchedBy.Some? ==>
                Segmentation(TermsAt(old(specFormat), complete, matchedBy.value), specFormat, complete(matchedBy.value))
      ensures r.Mismatch? ==> specFormat == TermsAt(old(specFormat), complete, specMaxNumTries)
    {
      hide Segmentation, Joined, StuckAt, Matches, Attempt, SameShape;
      ghost var before := specFormat;
      r, matchedBy := Mismatch, None;
      var i := 0;
      SameShapeSelf(before);
      while i < specMaxNumTries && r.Mismatch?
        invariant i <= specMaxNumTries && SameShape(before, specFormat)
        invariant r.Mismatch? ==> specFormat == TermsAt(before, complete, i) && Refused(before, complete, i)
        invariant !r.Mismatch? ==> i > 0 && Refused(before, complete, i - 1)
                                   && (r, specFormat) == Attempt(TermsAt(before, complete, i - 1), complete(i - 1))
        invariant matchedBy == if r.Matched? then Some(i - 1) else None
        invariant matchedBy.Some? ==> Segmentation(TermsAt(before, complete, i - 1), specFormat, complete(i - 1))
      {
        ghost var terms := specFormat;
        r := SpecPatternMatch(complete(i));
        if r.Matched? { matchedBy := Some(i); }
        SameShapeTrans(before, terms, specFormat);
        i := i + 1;
      }
      forall k: nat ensures matchedBy == Some(k) <==> MatchedAt(before, complete, k, specMaxNumTries) {
        OnlyOneTry(before, complete, if r.Mismatch? then i else i - 1, r, k, specMaxNumTries);
      }
    }

    /** Append the terms to the text and set the variables. */
    method AppendTerms(text: string, variables: map<string, string>) returns (text': string, variables': map<string, string>)
      ensures text' == text + Joined(specFormat) && variables' == Assigned(variables, specFormat)
    {
      text', variables' := text, variables;
      var j := 0;
      assert specFormat[..0] == [];
      while j < |specFormat|
        invariant j <= |specFormat|
        invariant text' == text + Joined(specFormat[..j]) && variables' == Assigned(variables, specFormat[..j])
      {
        assert specFormat[..j + 1][..j] == specFormat[..j];
        text' := text' + specFormat[j].text;
        if specFormat[j].name.Some? {
          variables' := variables'[specFormat[j].name.value := specFormat[j].text];
        }
        j := j + 1;
      }
      assert specFormat[..j] == specFormat;
    }

    /** The end of an assistant turn: if some term is named request completions, then append the terms
        and set the variables. This happens only with speculation and right after the prefix of the role,
        that is, if the text is some `begin` followed by that prefix. */
    method RoleEndGenerate(numApiSpecTokens: Option<nat>, text: string, variables: map<string, string>, complete: nat -> string)
      returns (text': string, variables': map<string, string>, r: Outcome, ghost begin: Option<string>,
               ghost matchedBy: Option<nat>, ghost terms: seq<Term>)
      modifies this`specFormat
      ensures forall b :: begin == Some(b) <==> numApiSpecTokens.Some? && text == b + chatPrefix
      ensures begin.None? ==> text' == text && variables' == variables && specFormat == old(specFormat) && matchedBy.None?
      ensures r.TypeError? ==> text' == text && variables' == variables
      ensures begin.Some? && !r.TypeError? ==>
                && specFormat == [] && SameShape(old(specFormat), terms)
                && text' == begin.value + chatPrefix + Joined(terms) && variables' == Assigned(variables, terms)
      ensures begin.Some? && !r.TypeError? ==> forall name :: VariableIs(variables, variables', terms, name)
      ensures matchedBy.Some? ==> !r.TypeError? && Joined(terms) <= complete(matchedBy.value)
      ensures matchedBy.Some? ==>
                Segmentation(TermsAt(old(specFormat), complete, matchedBy.value), terms, complete(matchedBy.value))
      ensures begin.Some? && (forall i :: 0 <= i < |old(specFormat)| ==> old(specFormat)[i].name.None?) ==>
                !r.TypeError? && terms == old(specFormat)
      ensures begin.Some? && (exists i :: 0 <= i < |old(specFormat)| && old(specFormat)[i].name.Some?) ==>
                forall k: nat :: matchedBy == Some(k) <==> MatchedAt(old(specFormat), complete, k, specMaxNumTries)
    {
      hide Segmentation, Joined, Assigned, StuckAt, Matches, MatchedAt, VariableIs, EndsWith;
      text', variables', r, begin, matchedBy, terms := text, variables, Mismatch, None, None, specFormat;
      EndsWithIff(text, chatPrefix);
      if numApiSpecTokens.None? || !EndsWith(text, chatPrefix) { return; }
      begin := Some(text[..|text| - |chatPrefix|]);
      if !NoNames(specFormat) {
        r, matchedBy := RequestCompletions(complete);
        if r.TypeError? { return; }
      }
      terms := specFormat;
      if matchedBy.Some? { Spells(TermsAt(old(specFormat), complete, matchedBy.value), terms, complete(matchedBy.value)); }
      text', variables' := AppendTerms(text, variables);
      forall name ensures VariableIs(variables, variables', terms, name) { AssignedIs(variables, terms, name); }
      specFormat := [];
    }
  }

  /** A text ends with a suffix exactly if it is something followed by the suffix. */
  lemma EndsWithIff(s: string, suffix: string)
    ensures EndsWith(s, suffix) ==> |suffix| <= |s|
    ensures forall b :: s == b + suffix <==> EndsWith(s, suffix) && b == s[..|s| - |suffix|]
  {
    forall b ensures s == b + suffix <==> EndsWith(s, suffix) && b == s[..|s| - |suffix|] {
      assert (b + suffix)[|b|..] == suffix && (b + suffix)[..|b|] == b;
    }
  }

  lemma StuckAttempt(before: seq<Term>, after: seq<Term>, comp: string, i: nat)
    requires StuckAt(before, after, comp, i)
    ensures Attempt(before, comp) == (StuckOutcome(before[i]), after) && i < |before|
  {
    assert Joined(after[..0]) == "";
    AttemptOfStuck(before, after, comp, i, 0);
    assert after[0..] == after && comp[0..] == comp;
  }

  /** Once the tries have ended after try `end`, no other try is the matching one. */
  lemma OnlyOneTry(before: seq<Term>, complete: nat -> string, end: nat, r: Outcome, k: nat, n: nat)
    requires end <= n && Refused(before, complete, end)
    requires if r.Mismatch? then end == n
             else end < n && Attempt(TermsAt(before, complete, end), complete(end)).0 == r
    ensures MatchedAt(before, complete, k, n) <==> r.Matched? && k == end
  {
    hide Attempt, Matches;
    AttemptMatches(TermsAt(before, complete, k), complete(k));
    assert Refused(before, complete, k) && end < k ==> Attempt(TermsAt(before, complete, end), complete(end)).0.Mismatch?;
  }

  lemma SameShapeSelf(a: seq<Term>)
    ensures SameShape(a, a)
  {
  }

  lemma SameShapeTrans(a: seq<Term>, b: seq<Term>, c: seq<Term>)
    requires SameShape(a, b) && SameShape(b, c)
    ensures SameShape(a, c)
  {
  }

  /** Terms keep their stops and names, and constants their text. */
  ghost predicate SameShape(before: seq<Term>, after: seq<Term>) {
    && |after| == |before|
    && forall i :: 0 <= i < |before| ==>
         && after[i].stop == before[i].stop && after[i].name == before[i].name
         && (before[i].text != "" ==> after[i].text == before[i].text)
  }

  lemma Spells(before: seq<Term>, after: seq<Term>, comp: string)
    requires Segmentation(before, after, comp)
    ensures Joined(after) <= comp
  {
    SegmentationSpells(before, after, comp, |before|);
    assert after[..|before|] == after;
  }

  lemma SegmentOf(before: Term, after: Term, rest: string, last: bool)
    requires after.stop == before.stop && after.name == before.name && after.text <= rest
    requires if before.text != "" then after.text == before.text
             else before.stop.OneStop?
                  && var pos := Find(rest, before.stop.stop);
                     if pos != -1 then |after.text| == pos else last && after.text == rest
    ensures Segment(before, after, rest, last)
  {
  }

  /** Whether a term can take a segment of what is left. */
  predicate CanSegment(before: Term, rest: string, last: bool) {
    if before.text != "" then before.text <= rest
    else before.stop.OneStop? && (Find(rest, before.stop.stop) != -1 || last)
  }

  lemma Start(before: seq<Term>, comp: string)
    ensures Progress(before, before, comp, 0, comp)
  {
    assert before[..0] == [];
  }

  lemma Untouched(before: seq<Term>, now: seq<Term>, comp: string, i: nat, rest: string)
    requires Progress(before, now, comp, i, rest) && i < |before|
    ensures |now| == |before| && now[i] == before[i] && SameShape(before, now)
  {
    assert now[i..][0] == before[i..][0];
  }

  lemma Complete(before: seq<Term>, now: seq<Term>, comp: string, rest: string)
    requires Progress(before, now, comp, |before|, rest)
    ensures Segmentation(before, now, comp) && Matches(before, comp) && SameShape(before, now)
  {
  }

  lemma SegmentNeeds(before: seq<Term>, after: seq<Term>, now: seq<Term>, comp: string, i: nat, rest: string)
    requires Progress(before, now, comp, i, rest) && i < |before| && Segmentation(before, after, comp)
    ensures CanSegment(before[i], rest, i == |before| - 1)
  {
    hide SameShape;
    AgreeSoFar(before, after, now, comp, i);
    assert SegmentAt(before, after, comp, i);
    assert comp[|Joined(now[..i])|..] == rest;
  }

  /** If the next term can take no segment, there is no segmentation. */
  lemma NoSegment(before: seq<Term>, now: seq<Term>, comp: string, i: nat, rest: string)
    requires Progress(before, now, comp, i, rest) && i < |before|
    requires !CanSegment(before[i], rest, i == |before| - 1)
    ensures !Matches(before, comp)
    ensures StuckAt(before, now, comp, i) && SameShape(before, now)
  {
    hide CanSegment, Segmentation, SegmentAt, SameShape;
    assert comp[|Joined(now[..i])|..] == rest;
    forall after | Segmentation(before, after, comp) ensures false {
      SegmentNeeds(before, after, now, comp, i, rest);
    }
  }

  // ---- A later try is not a fresh one ----

  /** A hole that an earlier try filled: for later tries its text is constant. */
  predicate Filled(before: Term, now: Term) {
    before.text == "" && before.stop.OneStop? && now.text != "" && now == before.(text := now.text)
  }

  /** What tries that failed leave: some holes that are not the last term are filled. */
  ghost predicate Stale(before: seq<Term>, now: seq<Term>) {
    && |now| == |before|
    && forall j :: 0 <= j < |before| ==> now[j] == before[j] || (j < |before| - 1 && Filled(before[j], now[j]))
  }

  /** A try that got stuck leaves stale terms. */
  lemma StuckIsStale(before: seq<Term>, now: seq<Term>, comp: string, i: nat)
    requires StuckAt(before, now, comp, i)
    ensures Stale(before, now)
  {
    hide Find, Joined;
    forall j | 0 <= j < |before| ensures now[j] == before[j] || (j < |before| - 1 && Filled(before[j], now[j])) {
      if j < i {
        assert SegmentAt(before, now, comp, j);
      } else {
        assert now[i..][j - i] == before[i..][j - i];
      }
    }
  }

  lemma StaleTrans(a: seq<Term>, b: seq<Term>, c: seq<Term>)
    requires Stale(a, b) && Stale(b, c)
    ensures Stale(a, c)
  {
  }

  lemma {:induction false} AttemptIsStale(terms: seq<Term>, i: nat, rest: string)
    requires i <= |terms| && !AttemptFrom(terms, i, rest).0.Matched?
    ensures Stale(terms[i..], AttemptFrom(terms, i, rest).1)
    decreases |terms| - i
  {
    hide Find;
    if i < |terms| && CanSegment(terms[i], rest, i == |terms| - 1) {
      var n := Taken(terms[i], rest);
      AttemptIsStale(terms, i + 1, rest[n..]);
      assert terms[i..] == [terms[i]] + terms[i + 1..];
    }
  }

  /** As long as every try was refused, the terms are stale. */
  lemma {:induction false} TermsAreStale(before: seq<Term>, complete: nat -> string, k: nat)
    requires Refused(before, complete, k)
    ensures Stale(before, TermsAt(before, complete, k))
  {
    hide Stale, Attempt, Refused;
    if k == 0 {
      StaleSelf(before);
    } else {
      RefusedBefore(before, complete, k);
      TermsAreStale(before, complete, k - 1);
      RefusedIsStale(TermsAt(before, complete, k - 1), complete(k - 1));
      StaleTrans(before, TermsAt(before, complete, k - 1), TermsAt(before, complete, k));
    }
  }

  lemma RefusedBefore(before: seq<Term>, complete: nat -> string, k: nat)
    requires k > 0 && Refused(before, complete, k)
    ensures Refused(before, complete, k - 1)
    ensures Attempt(TermsAt(before, complete, k - 1), complete(k - 1)).0.Mismatch?
  {
    hide Attempt, TermsAt;
  }

  lemma RefusedIsStale(terms: seq<Term>, complete: string)
    requires Attempt(terms, complete).0.Mismatch?
    ensures Stale(terms, Attempt(terms, complete).1)
  {
    hide Stale;
    AttemptIsStale(terms, 0, complete);
    assert terms[0..] == terms;
  }

  lemma StaleSelf(a: seq<Term>)
    ensures Stale(a, a)
  {
  }

  /** What is left of the completion begins with the text of a filled hole, and the hole ends there. */
  predicate Repeats(now: Term, rest: string)
    requires now.stop.OneStop?
  {
    now.text <= rest && Find(rest, now.stop.stop) == |now.text|
  }

  /** The first filled hole whose text the completion does not repeat, with what is left for it. */
  function Diverges(before: seq<Term>, now: seq<Term>, i: nat, rest: string): Option<(nat, string)>
    requires |now| == |before| && i <= |before|
    decreases |before| - i
  {
    if i == |before| then None
    else if now[i] == before[i] then
      if CanSegment(before[i], rest, i == |before| - 1) then Diverges(before, now, i + 1, rest[Taken(before[i], rest)..])
      else None
    else if now[i].stop.OneStop? && Repeats(now[i], rest) then Diverges(before, now, i + 1, rest[|now[i].text|..])
    else Some((i, rest))
  }

  predicate Accepts(terms: seq<Term>, i: nat, rest: string)
    requires i <= |terms|
  {
    AttemptFrom(terms, i, rest).0.Matched?
  }

  /** A completion that repeats the texts of the filled holes fares as on a first try. */
  lemma {:induction false} RetryAgrees(before: seq<Term>, now: seq<Term>, i: nat, rest: string)
    requires Stale(before, now) && i <= |before| && Diverges(before, now, i, rest).None?
    ensures Accepts(before, i, rest) <==> Accepts(now, i, rest)
    ensures Accepts(before, i, rest) ==> AttemptFrom(before, i, rest) == AttemptFrom(now, i, rest)
    decreases |before| - i
  {
    hide Find;
    if i < |before| {
      if now[i] == before[i] {
        if CanSegment(before[i], rest, i == |before| - 1) {
          RetryAgrees(before, now, i + 1, rest[Taken(before[i], rest)..]);
        }
      } else {
        RetryAgrees(before, now, i + 1, rest[|now[i].text|..]);
        assert rest[..|now[i].text|] == now[i].text;
      }
    }
  }

  /** At the first divergence the first try cuts before the stop, the later try after the old text. */
  ghost predicate FreshAccepts(before: seq<Term>, j: nat, rest: string)
    requires j < |before| && before[j].stop.OneStop?
  {
    var pos := Find(rest, before[j].stop.stop);
    pos != -1 && Accepts(before, j + 1, rest[pos..])
  }

  ghost predicate StaleAccepts(now: seq<Term>, j: nat, rest: string)
    requires j < |now|
  {
    now[j].text <= rest && Accepts(now, j + 1, rest[|now[j].text|..])
  }

  lemma {:induction false} RetryDiverges(before: seq<Term>, now: seq<Term>, i: nat, rest: string)
    requires Stale(before, now) && i <= |before| && Diverges(before, now, i, rest).Some?
    ensures var (j, r) := Diverges(before, now, i, rest).value;
            && i <= j < |before| - 1 && Filled(before[j], now[j]) && !Repeats(now[j], r)
            && (Accepts(before, i, rest) <==> FreshAccepts(before, j, r))
            && (Accepts(now, i, rest) <==> StaleAccepts(now, j, r))
            && (Accepts(before, i, rest) && Accepts(now, i, rest) ==> AttemptFrom(before, i, rest).1 != AttemptFrom(now, i, rest).1)
    decreases |before| - i
  {
    hide Find;
    if now[i] == before[i] {
      var n := Taken(before[i], rest);
      RetryDiverges(before, now, i + 1, rest[n..]);
      TailsDiffer(before[i].(text := rest[..n]), AttemptFrom(before, i + 1, rest[n..]).1, AttemptFrom(now, i + 1, rest[n..]).1);
    } else if Repeats(now[i], rest) {
      var n := |now[i].text|;
      assert rest[..n] == now[i].text;
      RetryDiverges(before, now, i + 1, rest[n..]);
      TailsDiffer(now[i], AttemptFrom(before, i + 1, rest[n..]).1, AttemptFrom(now, i + 1, rest[n..]).1);
    } else if Accepts(before, i, rest) && Accepts(now, i, rest) {
      assert AttemptFrom(before, i, rest).1[0].text == rest[..Find(rest, before[i].stop.stop)];
      assert AttemptFrom(now, i, rest).1[0].text == now[i].text;
    }
  }

  lemma TailsDiffer(t: Term, x: seq<Term>, y: seq<Term>)
    ensures [t] + x == [t] + y ==> x == y
  {
    assert ([t] + x)[1..] == x && ([t] + y)[1..] == y;
  }

  /** For stale terms and any completion: a later try fares as a first one, down to the terms it
      leaves, exactly if the completion repeats the texts of the filled holes as far as it is matched,
      or it diverges at one of them and both refuse it. */
  lemma RetryIff(before: seq<Term>, now: seq<Term>, comp: string)
    requires Stale(before, now)
    ensures var d := Diverges(before, now, 0, comp);
            && (d.Some? ==> d.value.0 < |before| && before[d.value.0].stop.OneStop?)
            && ((Matches(now, comp) <==> Matches(before, comp))
                <==> (d.Some? ==> (FreshAccepts(before, d.value.0, d.value.1) <==> StaleAccepts(now, d.value.0, d.value.1))))
            && ((forall after :: Segmentation(now, after, comp) <==> Segmentation(before, after, comp))
                <==> (d.Some? ==> !FreshAccepts(before, d.value.0, d.value.1) && !StaleAccepts(now, d.value.0, d.value.1)))
  {
    hide Matches, Segmentation, FreshAccepts, StaleAccepts;
    AttemptMatches(before, comp);
    AttemptMatches(now, comp);
    if Diverges(before, now, 0, comp).None? {
      RetryAgrees(before, now, 0, comp);
    } else {
      RetryDiverges(before, now, 0, comp);
      if Accepts(before, 0, comp) { assert Segmentation(before, Attempt(before, comp).1, comp); }
      if Accepts(now, 0, comp) { assert Segmentation(now, Attempt(now, comp).1, comp); }
    }
  }

  /** Where a first try or a later one accepts, they leave the same terms exactly if the completion
      repeats the texts of the filled holes as far as it is matched. */
  lemma AcceptedAlikeIff(before: seq<Term>, now: seq<Term>, comp: string)
    requires Stale(before, now) && |now| == |before| && (Matches(before, comp) || Matches(now, comp))
    ensures (forall after :: Segmentation(now, after, comp) <==> Segmentation(before, after, comp))
            <==> Diverges(before, now, 0, comp).None?
  {
    hide Segmentation, FreshAccepts, StaleAccepts, Stale;
    RetryIff(before, now, comp);
    AttemptMatches(before, comp);
    AttemptMatches(now, comp);
    if Diverges(before, now, 0, comp).Some? { RetryDiverges(before, now, 0, comp); }
  }

  /** The try after one that got stuck. */
  lemma RetryAfterStuck(before: seq<Term>, now: seq<Term>, comp: string, i: nat, comp': string)
    requires StuckAt(before, now, comp, i)
    ensures var d := Diverges(before, now, 0, comp');
            && (d.Some? ==> d.value.0 < |before| && before[d.value.0].stop.OneStop?)
            && ((Matches(now, comp') <==> Matches(before, comp'))
                <==> (d.Some? ==> (FreshAccepts(before, d.value.0, d.value.1) <==> StaleAccepts(now, d.value.0, d.value.1))))
  {
    hide Matches, Segmentation, FreshAccepts, StaleAccepts, Stale;
    StuckIsStale(before, now, comp, i);
    RetryIff(before, now, comp');
  }

  /** Any try after refused ones, in particular the second and the third. */
  lemma LaterTryIff(before: seq<Term>, complete: nat -> string, k: nat)
    requires Refused(before, complete, k)
    ensures var now, comp := TermsAt(before, complete, k), complete(k);
            && Stale(before, now)
            && var d := Diverges(before, now, 0, comp);
               && (d.Some? ==> d.value.0 < |before| && before[d.value.0].stop.OneStop?)
               && ((Matches(now, comp) <==> Matches(before, comp))
                   <==> (d.Some? ==> (FreshAccepts(before, d.value.0, d.value.1) <==> StaleAccepts(now, d.value.0, d.value.1))))
  {
    hide Matches, Segmentation, FreshAccepts, StaleAccepts, Stale;
    TermsAreStale(before, complete, k);
    RetryIff(before, TermsAt(before, complete, k), complete(k));
  }

  const GREETING := [Term("", OneStop("."), Some("name")), Term(".B", NoStop, None)]
  const STALE := [Term("x", OneStop("."), Some("name")), Term(".B", NoStop, None)]

  /** A hole that a failed try filled is constant text for the next try: a completion that the
      pattern matches on the first try is refused on the second. */
  lemma StaleHole()
    ensures StuckAt(GREETING, STALE, "x.A", 1)
    ensures Matches(GREETING, "y.B")
    ensures !Matches(STALE, "y.B")
  {
    hide StuckAt, Matches;
    FirstTryStuck();
    GoodCompletion();
    SecondTryStuck();
  }

  lemma FirstTryStuck()
    ensures StuckAt(GREETING, STALE, "x.A", 1)
  {
    hide Segment;
    StoppedAfterOne('x', ".A");
    assert ['x'] + ".A" == "x.A";
    JoinedOne(STALE);
    assert "x.A"[1..] == ".A" && ".A"[1] != ".B"[1];
    SegmentOf(GREETING[0], STALE[0], "x.A", false);
    assert SegmentAt(GREETING, STALE, "x.A", 0);
  }

  lemma GoodCompletion()
    ensures Matches(GREETING, "y.B")
  {
    hide Segment, Find;
    var good := [Term("y", OneStop("."), Some("name")), Term(".B", NoStop, None)];
    StoppedAfterOne('y', ".B");
    assert ['y'] + ".B" == "y.B";
    JoinedOne(good);
    assert "y.B"[1..] == ".B";
    SegmentOf(GREETING[0], good[0], "y.B", false);
    SegmentOf(GREETING[1], good[1], ".B", true);
    assert SegmentAt(GREETING, good, "y.B", 0) && SegmentAt(GREETING, good, "y.B", 1);
    assert Segmentation(GREETING, good, "y.B");
  }

  lemma SecondTryStuck()
    ensures !Matches(STALE, "y.B")
  {
    hide Segmentation, Progress;
    Start(STALE, "y.B");
    assert "x"[0] != "y.B"[0];
    NoSegment(STALE, STALE, "y.B", 0, "y.B");
  }

  const HOLE_THEN_AB := [Term("", OneStop("."), Some("name")), Term("AB", NoStop, None)]
  const X_THEN_AB := [Term("x", OneStop("."), Some("name")), Term("AB", NoStop, None)]

  /** The other way round: a completion that the pattern refuses on the first try is accepted on the
      second, with text in the hole that no stop string follows. */
  lemma StaleHoleAccepts()
    ensures StuckAt(HOLE_THEN_AB, X_THEN_AB, "x.AB", 1)
    ensures !Matches(HOLE_THEN_AB, "xAB")
    ensures Matches(X_THEN_AB, "xAB")
  {
    hide StuckAt, Matches, Attempt;
    StuckBeforeAB();
    AttemptMatches(HOLE_THEN_AB, "xAB");
    AttemptMatches(X_THEN_AB, "xAB");
    FreshRefusesAB();
    StaleAcceptsAB();
  }

  lemma StuckBeforeAB()
    ensures StuckAt(HOLE_THEN_AB, X_THEN_AB, "x.AB", 1)
  {
    hide Segment;
    StoppedAfterOne('x', ".AB");
    assert ['x'] + ".AB" == "x.AB";
    JoinedOne(X_THEN_AB);
    assert "x.AB"[1..] == ".AB" && ".AB"[0] != "AB"[0];
    SegmentOf(HOLE_THEN_AB[0], X_THEN_AB[0], "x.AB", false);
    assert SegmentAt(HOLE_THEN_AB, X_THEN_AB, "x.AB", 0);
  }

  lemma FreshRefusesAB()
    ensures !Attempt(HOLE_THEN_AB, "xAB").0.Matched?
  {
    forall i ensures !OccursAt("xAB", ".", i) {
      if 0 <= i < 3 { assert "xAB"[i..i + 1][0] == "xAB"[i]; }
    }
  }

  lemma StaleAcceptsAB()
    ensures Attempt(X_THEN_AB, "xAB").0.Matched?
  {
    assert "xAB"[1..] == "AB" && "AB"[2..] == "";
    assert "x" <= "xAB";
    assert AttemptFrom(X_THEN_AB, 2, "").0.Matched?;
    assert AttemptFrom(X_THEN_AB, 1, "AB").0.Matched?;
  }

  lemma StoppedAfterOne(c: char, s: string)
    requires c != '.' && s != "" && s[0] == '.'
    ensures Find([c] + s, ".") == 1
  {
    assert ([c] + s)[1..2] == ".";
    assert OccursAt([c] + s, ".", 1);
    assert ([c] + s)[0..1] == [c];
  }

  lemma JoinedOne(terms: seq<Term>)
    requires terms != []
    ensures Joined(terms[..0]) == "" && Joined(terms[..1]) == terms[0].text
  {
    JoinedStep(terms, 0);
  }

  lemma {:induction false} AgreeSoFar(before: seq<Term>, a: seq<Term>, b: seq<Term>, comp: string, i: nat)
    requires i <= |before| == |a| == |b|
    requires forall j :: 0 <= j < i ==> SegmentAt(before, a, comp, j) && SegmentAt(before, b, comp, j)
    ensures a[..i] == b[..i]
  {
    hide Segment;
    if i > 0 {
      AgreeSoFar(before, a, b, comp, i - 1);
      assert SegmentAt(before, a, comp, i - 1) && SegmentAt(before, b, comp, i - 1);
      SegmentUnique(before[i - 1], a[i - 1], b[i - 1], comp[|Joined(a[..i - 1])|..], i - 1 == |before| - 1);
      assert a[..i] == a[..i - 1] + [a[i - 1]] && b[..i] == b[..i - 1] + [b[i - 1]];
    }
  }

  lemma Advance(before: seq<Term>, now: seq<Term>, comp: string, i: nat, term: Term, rest: string)
    requires Progress(before, now, comp, i, term.text + rest) && i < |before|
    requires Segment(before[i], term, term.text + rest, i == |before| - 1)
    ensures Progress(before, now[i := term], comp, i + 1, rest)
  {
    hide Segment, Joined;
    var next := now[i := term];
    JoinedStep(next, i);
    assert next[..i] == now[..i];
    assert next[i + 1..] == now[i..][1..] && before[i + 1..] == before[i..][1..];
    assert Joined(now[..i]) + term.text + rest == Joined(now[..i]) + (term.text + rest);
    assert comp[|Joined(now[..i])|..] == term.text + rest;
    assert SegmentAt(before, next, comp, i);
    forall j | 0 <= j < i ensures SegmentAt(before, next, comp, j) {
      assert SegmentAt(before, now, comp, j);
      assert next[..j] == now[..j];
    }
    TermShape(before[i], term, term.text + rest, i == |before| - 1);
  }

  lemma TermShape(before: Term, after: Term, rest: string, last: bool)
    requires Segment(before, after, rest, last)
    ensures after.stop == before.stop && after.name == before.name && (before.text != "" ==> after.text == before.text)
  {
  }
}
