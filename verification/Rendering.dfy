/** `render`: its loop, when it ends, and what it returns. */
module Rendering {
  import opened Wrappers
  import opened Mustache

  // ---------------------------------------------------------------- what is returned

  /** Texts and values one after the other; the values are not looked at again. */
  function Expand(pieces: seq<Piece>, outer: Option<Vars>, inner: Vars): string {
    if pieces == [] then ""
    else pieces[0].text + ValueOf(pieces[0].tag, outer, inner) + Expand(pieces[1..], outer, inner)
  }

  predicate NoneRefused(pieces: seq<Piece>, outer: Option<Vars>, inner: Vars, allowUnknown: bool) {
    forall k :: 0 <= k < |pieces| ==> !Refused(pieces[k].tag, outer, inner, allowUnknown)
  }

  lemma {:induction false} EvaluateAll(s: Scanned, outer: Option<Vars>, inner: Vars, allowUnknown: bool)
    ensures NoneRefused(s.pieces, outer, inner, allowUnknown) ==>
      Evaluate(s, outer, inner, allowUnknown) ==
        Prefixed(Expand(s.pieces, outer, inner), Evaluate(Scanned([], s.end), outer, inner, allowUnknown))
    ensures !NoneRefused(s.pieces, outer, inner, allowUnknown) ==>
      Evaluate(s, outer, inner, allowUnknown).Failed?
    decreases |s.pieces|
  {
    hide Refused, NoneRefused, ValueOf;
    if s.pieces == [] {
      assert s == Scanned([], s.end);
      NoneOrFirst(s.pieces, outer, inner, allowUnknown);
    } else {
      var rest := Scanned(s.pieces[1..], s.end);
      EvaluateAll(rest, outer, inner, allowUnknown);
      NoneOrFirst(s.pieces, outer, inner, allowUnknown);
      var first := s.pieces[0].text + ValueOf(s.pieces[0].tag, outer, inner);
      PrefixedTwice(first, Expand(rest.pieces, outer, inner), Evaluate(Scanned([], s.end), outer, inner, allowUnknown));
    }
  }

  lemma NoneOrFirst(pieces: seq<Piece>, outer: Option<Vars>, inner: Vars, allowUnknown: bool)
    ensures NoneRefused(pieces, outer, inner, allowUnknown) <==>
      pieces == [] || (!Refused(pieces[0].tag, outer, inner, allowUnknown) &&
        NoneRefused(pieces[1..], outer, inner, allowUnknown))
  {
    hide Refused;
    if pieces != [] && NoneRefused(pieces[1..], outer, inner, allowUnknown) {
      assert forall k :: 1 <= k < |pieces| ==> pieces[k] == pieces[1..][k - 1];
    }
  }

  lemma PrefixedTwice(a: string, b: string, o: Outcome)
    ensures Prefixed(a, Prefixed(b, o)) == Prefixed(a + b, o) && Prefixed("", o) == o
  {
    if o.Done? {
      assert a + (b + o.text) == a + b + o.text;
      assert "" + o.text == o.text;
    }
  }

  /** `render` succeeds with a text exactly when the template is the print of fitting pieces whose
      names are all known or allowed, and the text is theirs. */
  lemma RenderDoneIff(template: string, outer: Option<Vars>, inner: Vars, allowUnknown: bool, text: string)
    ensures Meaning(template, outer, inner, allowUnknown) == Done(text) <==>
      exists pieces, final :: RendersFrom(template, pieces, final, outer, inner, allowUnknown, text)
  {
    hide Scan, Evaluate, PrintTemplate, Fits, NoneRefused, Expand;
    var s := Scan(template, "{{", "}}");
    EvaluateAll(s, outer, inner, allowUnknown);
    EndOf(s.end, outer, inner, allowUnknown);
    if Meaning(template, outer, inner, allowUnknown) == Done(text) {
      ScanIffPrinted(template, s.pieces, s.end.final, "{{", "}}");
      assert s == Scanned(s.pieces, Closed(s.end.final));
      assert RendersFrom(template, s.pieces, s.end.final, outer, inner, allowUnknown, text);
    }
    if pieces, final :| RendersFrom(template, pieces, final, outer, inner, allowUnknown, text) {
      ScanIffPrinted(template, pieces, final, "{{", "}}");
    }
  }

  ghost predicate RendersFrom(template: string, pieces: seq<Piece>, final: string,
    outer: Option<Vars>, inner: Vars, allowUnknown: bool, text: string) {
    && template == PrintTemplate(pieces, final, "{{", "}}") && Fits(pieces, final, "{{", "}}")
    && NoneRefused(pieces, outer, inner, allowUnknown)
    && text == Expand(pieces, outer, inner) + final
  }

  lemma EndOf(end: End, outer: Option<Vars>, inner: Vars, allowUnknown: bool)
    ensures var o := Evaluate(Scanned([], end), outer, inner, allowUnknown);
      && (end.Closed? ==> o == Done(end.final)) && (o.Done? ==> end.Closed?)
      && (o.Diverges? <==> end.Stuck? && !Refused(Plain(""), outer, inner, allowUnknown))
  {
  }

  /** Rendering with outer and inner variables is rendering with one map in which the inner
      variables win. */
  lemma {:induction false} OneMapIsEnough(s: Scanned, outer: Vars, inner: Vars, allowUnknown: bool)
    ensures Evaluate(s, Some(outer), inner, allowUnknown) == Evaluate(s, None, outer + inner, allowUnknown)
    decreases |s.pieces|
  {
    if s.pieces != [] { OneMapIsEnough(Scanned(s.pieces[1..], s.end), outer, inner, allowUnknown); }
  }

  /** Where unknown variables are allowed, one that is missing renders as one that is empty. */
  lemma {:induction false} MissingIsEmpty(s: Scanned, vars: Vars, name: string)
    requires name !in vars
    ensures Evaluate(s, None, vars, true) == Evaluate(s, None, vars[name := ""], true)
    decreases |s.pieces|
  {
    if s.pieces != [] { MissingIsEmpty(Scanned(s.pieces[1..], s.end), vars, name); }
  }

  // ---------------------------------------------------------------- the loop as steps

  datatype State = State(template: string, start: string, end: string, res: string)

  datatype StepResult = Next(state: State) | Stop(outcome: Outcome)

  /** One turn of the loop. */
  function Step(s: State, outer: Option<Vars>, inner: Vars, allowUnknown: bool): StepResult {
    match SplitOnce(s.template, s.start)
    case None => Stop(Done(s.res + s.template))
    case Some((before, after)) =>
      match ReadTag(after, s.end)
      case Err(e) => Stop(Failed(e))
      case Ok((tag, rem)) =>
        if Refused(tag, outer, inner, allowUnknown) then Stop(Failed(UnknownVariable(tag.name)))
        else Next(State(rem, NextStart(tag, s.start), NextEnd(tag, s.end), s.res + before + ValueOf(tag, outer, inner)))
  }

  function Run(n: nat, s: State, outer: Option<Vars>, inner: Vars, allowUnknown: bool): StepResult
    decreases n
  {
    if n == 0 then Next(s)
    else
      match Step(s, outer, inner, allowUnknown)
      case Stop(o) => Stop(o)
      case Next(t) => Run(n - 1, t, outer, inner, allowUnknown)
  }

  function MeaningFrom(s: State, outer: Option<Vars>, inner: Vars, allowUnknown: bool): Outcome {
    Prefixed(s.res, Evaluate(Scan(s.template, s.start, s.end), outer, inner, allowUnknown))
  }

  /** A turn keeps the meaning; it shortens the template unless it makes no progress. */
  lemma StepKeepsMeaning(s: State, outer: Option<Vars>, inner: Vars, allowUnknown: bool)
    ensures match Step(s, outer, inner, allowUnknown)
      case Stop(o) => o == MeaningFrom(s, outer, inner, allowUnknown) && !o.Diverges?
      case Next(t) =>
        && MeaningFrom(t, outer, inner, allowUnknown) == MeaningFrom(s, outer, inner, allowUnknown)
        && (|t.template| < |s.template| || MeaningFrom(s, outer, inner, allowUnknown) == Diverges)
  {
    hide Find;
    if NoProgress(s.template, s.start, s.end) {
      SplitEmpty(s.template);
      assert ReadTag(s.template, "") == Ok((Plain(""), s.template));
    } else if SplitOnce(s.template, s.start).Some? {
      var (before, after) := SplitOnce(s.template, s.start).value;
      if ReadTag(after, s.end).Ok? {
        StepReads(s, before, after, outer, inner, allowUnknown);
      }
    }
  }

  lemma SplitEmpty(t: string)
    ensures SplitOnce(t, "") == Some(("", t))
  {
    assert Find(t, "") == Some(0);
  }

  lemma StepReads(s: State, before: string, after: string, outer: Option<Vars>, inner: Vars, allowUnknown: bool)
    requires !NoProgress(s.template, s.start, s.end)
    requires SplitOnce(s.template, s.start) == Some((before, after)) && ReadTag(after, s.end).Ok?
    ensures match Step(s, outer, inner, allowUnknown)
      case Stop(o) => o == MeaningFrom(s, outer, inner, allowUnknown) && !o.Diverges?
      case Next(t) =>
        && MeaningFrom(t, outer, inner, allowUnknown) == MeaningFrom(s, outer, inner, allowUnknown)
        && |t.template| < |s.template|
  {
    hide Find, ReadTag, SplitOnce, Refused, ValueOf, NextStart, NextEnd;
    var (tag, rem) := ReadTag(after, s.end).value;
    var scanned := Scan(s.template, s.start, s.end);
    var more := Scan(rem, NextStart(tag, s.start), NextEnd(tag, s.end));
    assert scanned == Push(Piece(before, tag), more);
    assert scanned.pieces[1..] == more.pieces;
    var value := ValueOf(tag, outer, inner);
    var o := Evaluate(more, outer, inner, allowUnknown);
    assert o.Done? ==> s.res + before + value + o.text == s.res + (before + value + o.text);
    if s.start == "" { StepShortens(s, before, after); }
  }

  lemma StepShortens(s: State, before: string, after: string)
    requires !NoProgress(s.template, s.start, s.end) && s.start == ""
    requires SplitOnce(s.template, s.start) == Some((before, after)) && ReadTag(after, s.end).Ok?
    ensures |ReadTag(after, s.end).value.1| < |s.template|
  {
    SplitEmpty(s.template);
    hide Find, SplitOnce, Clean;
    assert after == s.template;
  }

  /** The loop stops within one turn more than the template is long, or never. */
  lemma {:induction false} RunStops(n: nat, s: State, outer: Option<Vars>, inner: Vars, allowUnknown: bool)
    requires n > |s.template| && MeaningFrom(s, outer, inner, allowUnknown) != Diverges
    ensures Run(n, s, outer, inner, allowUnknown) == Stop(MeaningFrom(s, outer, inner, allowUnknown))
    decreases n
  {
    hide Step, MeaningFrom;
    StepKeepsMeaning(s, outer, inner, allowUnknown);
    match Step(s, outer, inner, allowUnknown) {
      case Stop(_) =>
      case Next(t) => RunStops(n - 1, t, outer, inner, allowUnknown);
    }
  }

  lemma {:induction false} RunGoesOn(n: nat, s: State, outer: Option<Vars>, inner: Vars, allowUnknown: bool)
    requires MeaningFrom(s, outer, inner, allowUnknown) == Diverges
    ensures Run(n, s, outer, inner, allowUnknown).Next?
    decreases n
  {
    hide Step, MeaningFrom;
    if n > 0 {
      StepKeepsMeaning(s, outer, inner, allowUnknown);
      RunGoesOn(n - 1, Step(s, outer, inner, allowUnknown).state, outer, inner, allowUnknown);
    }
  }

  function Initial(template: string): State {
    State(template, "{{", "}}", "")
  }

  /** The loop runs forever exactly when, before any name is refused, both delimiters have become
      empty in front of a text that is neither a tag change nor a triple tag, and the empty name is
      known or allowed. Otherwise it returns the meaning of the template. */
  lemma LoopEndsUnlessStuck(template: string, outer: Option<Vars>, inner: Vars, allowUnknown: bool)
    ensures (forall n: nat :: Run(n, Initial(template), outer, inner, allowUnknown).Next?) <==>
      var s := Scan(template, "{{", "}}");
      && s.end.Stuck? && NoneRefused(s.pieces, outer, inner, allowUnknown)
      && !Refused(Plain(""), outer, inner, allowUnknown)
    ensures var s := Scan(template, "{{", "}}");
      !(s.end.Stuck? && NoneRefused(s.pieces, outer, inner, allowUnknown) &&
        !Refused(Plain(""), outer, inner, allowUnknown)) ==>
        Run(|template| + 1, Initial(template), outer, inner, allowUnknown) ==
          Stop(Meaning(template, outer, inner, allowUnknown))
  {
    hide Run, Scan, Evaluate, NoneRefused, Refused;
    var s := Scan(template, "{{", "}}");
    var m := Meaning(template, outer, inner, allowUnknown);
    assert MeaningFrom(Initial(template), outer, inner, allowUnknown) == m by {
      assert m.Done? ==> "" + m.text == m.text;
    }
    EvaluateAll(s, outer, inner, allowUnknown);
    EndOf(s.end, outer, inner, allowUnknown);
    if m == Diverges {
      forall n: nat ensures Run(n, Initial(template), outer, inner, allowUnknown).Next? {
        RunGoesOn(n, Initial(template), outer, inner, allowUnknown);
      }
    } else {
      RunStops(|template| + 1, Initial(template), outer, inner, allowUnknown);
    }
  }

  /** Only a template with the text "= =" in it can make the loop run forever. */
  lemma {:induction false} StuckNeedsEmptyChange(template: string, start: string, end: string)
    requires Scan(template, start, end).end.Stuck? && (start != "" || end != "")
    ensures Find(template, "= =").Some?
    decreases |template|
  {
    hide Find, SplitOnce, Clean;
    var (before, after) := SplitOnce(template, start).value;
    var (tag, rem) := ReadTag(after, end).value;
    var s, e := NextStart(tag, start), NextEnd(tag, end);
    ReadTagIff(after, end, tag, rem);
    hide ReadTag, TagFits;
    var front := before + start;
    assert template == front + (PrintTag(tag, end) + rem);
    if s == "" && e == "" {
      assert tag == Change("", "");
      assert "=" + "" + " " + "" + "=" + end == "= =" + end;
      assert template == front + "= =" + (end + rem);
      FindsInside(front, "= =", end + rem);
    } else {
      StuckNeedsEmptyChange(rem, s, e);
      var behind := front + PrintTag(tag, end);
      assert template == behind + rem;
      FindsBehind(behind, rem, "= =");
    }
  }

  lemma FindsBehind(a: string, t: string, d: string)
    requires Find(t, d).Some?
    ensures Find(a + t, d).Some?
  {
    var k := Find(t, d).value;
    assert (a + t)[|a| + k..] == t[k..];
    assert d <= (a + t)[|a| + k..];
  }

  lemma FindsInside(a: string, d: string, b: string)
    ensures Find(a + d + b, d).Some?
  {
    assert (a + d + b)[|a|..] == d + b;
    assert d <= (a + d + b)[|a|..];
  }

  /** Both delimiters can become empty. */
  lemma StuckExample(outer: Option<Vars>, inner: Vars)
    ensures forall n: nat :: Run(n, Initial("{{= =}}x"), outer, inner, true).Next?
  {
    hide Find, Clean, SplitOnce, ReadTag, Run, Evaluate;
    var t := "{{= =}}x";
    StuckSplit();
    StuckTag();
    assert NoProgress("x", "", "");
    assert Scan("x", "", "") == Scanned([], Stuck);
    var s := Scan(t, "{{", "}}");
    assert s == Push(Piece("", Change("", "")), Scanned([], Stuck));
    assert s.pieces == [Piece("", Change("", ""))];
    LoopEndsUnlessStuck(t, outer, inner, true);
  }

  lemma StuckSplit()
    ensures SplitOnce("{{= =}}x", "{{") == Some(("", "= =}}x"))
  {
    assert "" + "{{" == "{{" && "" + "{{" + "= =}}x" == "{{= =}}x";
    assert Clean("", "{{");
    SplitClean("", "{{", "= =}}x");
  }

  lemma StuckTag()
    ensures ReadTag("= =}}x", "}}") == Ok((Change("", ""), "x"))
  {
    StuckMiddle();
    assert TagFits(Change("", ""), "}}", "x") by {
      assert "" + " " + "" + "=" == " =";
    }
    assert PrintTag(Change("", ""), "}}") + "x" == "= =}}x";
    ReadTagIff("= =}}x", "}}", Change("", ""), "x");
  }

  lemma StuckMiddle()
    ensures Clean(" =", "}}")
  {
    var u := " =}}";
    assert u == " =" + "}}";
    assert u[1..] == "=}}" && "=}}"[1..] == "}}";
    assert u[0] != '}' && "=}}"[0] != '}';
    assert !("}}" <= u) && !("}}" <= "=}}");
    assert Find("}}", "}}") == Some(0);
    assert Find("=}}", "}}") == Some(1);
    assert Find(u, "}}") == Some(2);
  }

  // ---------------------------------------------------------------- the code

  /** `render`. Where the loop would go round without consuming anything the method returns
      `Diverges` instead. */
  method Render(template: string, outer: Option<Vars>, inner: Vars, allowUnknown: bool) returns (o: Outcome)
    ensures o == Meaning(template, outer, inner, allowUnknown)
  {
    hide Find, Scan, Evaluate, ReadTag, SplitOnce, MeaningFrom, Meaning, Step, Refused, ValueOf;
    FirstTurn(template, outer, inner, allowUnknown);
    if SplitOnce(template, "{{").None? { return Done(template); }
    var rest, res, start, end := template, "", "{{", "}}";
    while true
      invariant MeaningFrom(State(rest, start, end, res), outer, inner, allowUnknown) ==
        Meaning(template, outer, inner, allowUnknown)
      decreases |rest|
    {
      ghost var state := State(rest, start, end, res);
      TurnEnds(state, outer, inner, allowUnknown);
      var split := SplitOnce(rest, start);
      if split.None? { return Done(res + rest); }
      var (before, after) := split.value;
      res := res + before;
      var tag := ReadOne(after, end);
      if tag.Err? { return Failed(tag.error); }
      var (t, rem) := tag.value;
      TurnGoesOn(state, before, after, t, rem, outer, inner, allowUnknown);
      ChangeHasNoValue(t, outer, inner, allowUnknown);
      if t.Change? {
        start, end := t.start, t.end;
        assert res == res + "";
      } else {
        var known, value := FindValue(t, outer, inner, allowUnknown);
        if !known { return Failed(UnknownVariable(t.name)); }
        res := res + value;
        if |rem| == |rest| { return Diverges; }
      }
      rest := rem;
    }
  }

  /** The value of a variable, first among the inner ones; nothing for one that is allowed to be
      unknown. */
  method FindValue(t: Tag, outer: Option<Vars>, inner: Vars, allowUnknown: bool) returns (ok: bool, value: string)
    requires !t.Change?
    ensures ok <==> !Refused(t, outer, inner, allowUnknown)
    ensures ok ==> value == ValueOf(t, outer, inner)
  {
    if t.name in inner {
      return true, inner[t.name];
    } else if outer.Some? && t.name in outer.value {
      return true, outer.value[t.name];
    }
    return allowUnknown, "";
  }

  lemma ChangeHasNoValue(t: Tag, outer: Option<Vars>, inner: Vars, allowUnknown: bool)
    ensures t.Change? ==> ValueOf(t, outer, inner) == "" && !Refused(t, outer, inner, allowUnknown)
  {
  }

  lemma FirstTurn(template: string, outer: Option<Vars>, inner: Vars, allowUnknown: bool)
    ensures MeaningFrom(Initial(template), outer, inner, allowUnknown) == Meaning(template, outer, inner, allowUnknown)
    ensures SplitOnce(template, "{{").None? ==> Meaning(template, outer, inner, allowUnknown) == Done(template)
  {
    hide Find, SplitOnce, ReadTag;
    PrefixedTwice("", "", Meaning(template, outer, inner, allowUnknown));
  }

  lemma TurnEnds(s: State, outer: Option<Vars>, inner: Vars, allowUnknown: bool)
    ensures SplitOnce(s.template, s.start).None? ==>
      MeaningFrom(s, outer, inner, allowUnknown) == Done(s.res + s.template)
    ensures SplitOnce(s.template, s.start).Some? && ReadTag(SplitOnce(s.template, s.start).value.1, s.end).Err? ==>
      MeaningFrom(s, outer, inner, allowUnknown) == Failed(ReadTag(SplitOnce(s.template, s.start).value.1, s.end).error)
  {
    hide Find, Scan, Evaluate, ReadTag, SplitOnce, MeaningFrom;
    StepKeepsMeaning(s, outer, inner, allowUnknown);
  }

  lemma TurnGoesOn(s: State, before: string, after: string, tag: Tag, rem: string, outer: Option<Vars>, inner: Vars,
                   allowUnknown: bool)
    requires SplitOnce(s.template, s.start) == Some((before, after)) && ReadTag(after, s.end) == Ok((tag, rem))
    ensures Refused(tag, outer, inner, allowUnknown) ==>
      MeaningFrom(s, outer, inner, allowUnknown) == Failed(UnknownVariable(tag.name))
    ensures !Refused(tag, outer, inner, allowUnknown) ==>
      var t := State(rem, NextStart(tag, s.start), NextEnd(tag, s.end), s.res + before + ValueOf(tag, outer, inner));
      && MeaningFrom(t, outer, inner, allowUnknown) == MeaningFrom(s, outer, inner, allowUnknown)
      && (|rem| < |s.template| || MeaningFrom(s, outer, inner, allowUnknown) == Diverges)
    ensures tag.Change? ==> |rem| < |s.template|
  {
    hide Find, Scan, Evaluate, SplitOnce, MeaningFrom, Refused;
    StepKeepsMeaning(s, outer, inner, allowUnknown);
  }

  /** The three kinds of tag, in the order in which the loop asks for them. */
  method ReadOne(after: string, end: string) returns (r: Result<(Tag, string), RenderError>)
    ensures r == ReadTag(after, end)
  {
    hide SplitOnce;
    if after != "" && after[0] == '=' {
      var split := SplitOnce(after[1..], end);
      if split.None? { return Err(Unbalanced); }
      var (mid, rem) := split.value;
      if mid == "" || mid[|mid| - 1] != '=' { return Err(MissingEquals); }
      var delims := SplitOnce(mid[..|mid| - 1], " ");
      if delims.None? { return Err(MissingSpace); }
      return Ok((Change(delims.value.0, delims.value.1), rem));
    }
    if after != "" && after[0] == '{' {
      var split := SplitOnce(after[1..], "}}}");
      if split.None? { return Err(Unbalanced); }
      return Ok((Triple(split.value.0), split.value.1));
    }
    var split := SplitOnce(after, end);
    if split.None? { return Err(Unbalanced); }
    return Ok((Plain(split.value.0), split.value.1));
  }
}
