/** The template language of `render`: what a template means, piece by piece. */
module Mustache {
  import opened Wrappers

  type Vars = map<string, string>

  datatype RenderError = Unbalanced | MissingEquals | MissingSpace | UnknownVariable(name: string)

  // ---------------------------------------------------------------- splitting

  /** The first place at which `d` occurs in `t`. */
  function Find(t: string, d: string): (r: Option<nat>)
    ensures r.Some? ==> r.value + |d| <= |t| && d <= t[r.value..]
    ensures r.Some? ==> forall j :: 0 <= j < r.value ==> !(d <= t[j..])
    ensures r.None? ==> forall j :: 0 <= j <= |t| ==> !(d <= t[j..])
  {
    if d <= t then Some(0)
    else if t == "" then None
    else
      match Find(t[1..], d)
      case None =>
        assert forall j :: 1 <= j <= |t| ==> t[j..] == t[1..][j - 1..];
        None
      case Some(k) =>
        assert forall j :: 1 <= j <= |t| ==> t[j..] == t[1..][j - 1..];
        Some(k + 1)
  }

  /** `split_once`: around the first occurrence. */
  function SplitOnce(t: string, d: string): (r: Option<(string, string)>)
    ensures r.Some? ==> t == r.value.0 + d + r.value.1
    ensures r.Some? ==> |r.value.1| == |t| - |r.value.0| - |d|
  {
    match Find(t, d)
    case None => None
    case Some(k) => Some((t[..k], t[k + |d|..]))
  }

  /** Scanning `text` and then `d` finds `d` only at the end of `text`. */
  predicate Clean(text: string, d: string) {
    Find(text + d, d) == Some(|text|)
  }

  lemma SplitClean(text: string, d: string, rest: string)
    ensures SplitOnce(text + d + rest, d) == Some((text, rest)) <==> Clean(text, d)
  {
    var t := text + d + rest;
    assert t[|text|..] == d + rest && (text + d)[|text|..] == d;
    assert t[..|text|] == text && t[|text| + |d|..] == rest;
    forall j | 0 <= j < |text| ensures d <= t[j..] <==> d <= (text + d)[j..] {
      assert t[j..] == (text + d)[j..] + rest;
      if d <= t[j..] {
        assert t[j..][..|d|] == (text + d)[j..][..|d|];
      }
    }
  }

  // ---------------------------------------------------------------- what a template says

  datatype Tag = Plain(name: string) | Triple(name: string) | Change(start: string, end: string)

  /** Text and the tag after it. */
  datatype Piece = Piece(text: string, tag: Tag)

  datatype End = Closed(final: string) | Broken(error: RenderError) | Stuck

  datatype Scanned = Scanned(pieces: seq<Piece>, end: End)

  function Push(p: Piece, s: Scanned): Scanned {
    Scanned([p] + s.pieces, s.end)
  }

  function StripSuffixEquals(t: string): (r: Option<string>)
    ensures r.Some? <==> t != "" && t[|t| - 1] == '='
    ensures r.Some? ==> t == r.value + "="
  {
    if t != "" && t[|t| - 1] == '=' then Some(t[..|t| - 1]) else None
  }

  /** The tag at the beginning of `after`, which follows a start delimiter, and the text after it. */
  function ReadTag(after: string, end: string): (r: Result<(Tag, string), RenderError>)
    ensures r.Ok? ==> |r.value.1| <= |after|
    ensures r.Ok? && (end != "" || !r.value.0.Plain?) ==> |r.value.1| < |after|
  {
    if after != "" && after[0] == '=' then
      match SplitOnce(after[1..], end)
      case None => Err(Unbalanced)
      case Some((mid, rem)) =>
        match StripSuffixEquals(mid)
        case None => Err(MissingEquals)
        case Some(delims) =>
          match SplitOnce(delims, " ")
          case None => Err(MissingSpace)
          case Some((sd, ed)) => Ok((Change(sd, ed), rem))
    else if after != "" && after[0] == '{' then
      match SplitOnce(after[1..], "}}}")
      case None => Err(Unbalanced)
      case Some((name, rem)) => Ok((Triple(name), rem))
    else
      match SplitOnce(after, end)
      case None => Err(Unbalanced)
      case Some((name, rem)) => Ok((Plain(name), rem))
  }

  function NextStart(tag: Tag, start: string): string {
    if tag.Change? then tag.start else start
  }

  function NextEnd(tag: Tag, end: string): string {
    if tag.Change? then tag.end else end
  }

  /** With both delimiters empty, a template that begins with neither '=' nor '{' is never
      consumed. */
  predicate NoProgress(template: string, start: string, end: string) {
    start == "" && end == "" && (template == "" || template[0] !in {'=', '{'})
  }

  /** Reads a template without looking at any variable. */
  function Scan(template: string, start: string, end: string): Scanned
    decreases |template|
  {
    if NoProgress(template, start, end) then Scanned([], Stuck)
    else
      match SplitOnce(template, start)
      case None => Scanned([], Closed(template))
      case Some((before, after)) =>
        match ReadTag(after, end)
        case Err(e) => Scanned([], Broken(e))
        case Ok((tag, rem)) => Push(Piece(before, tag), Scan(rem, NextStart(tag, start), NextEnd(tag, end)))
  }

  // ---------------------------------------------------------------- what it renders to

  datatype Outcome = Done(text: string) | Failed(error: RenderError) | Diverges

  function Prefixed(text: string, o: Outcome): Outcome {
    if o.Done? then Done(text + o.text) else o
  }

  /** The inner variables are asked first. */
  function Lookup(outer: Option<Vars>, inner: Vars, name: string): Option<string> {
    if name in inner then Some(inner[name])
    else if outer.Some? && name in outer.value then Some(outer.value[name])
    else None
  }

  function ValueOf(tag: Tag, outer: Option<Vars>, inner: Vars): string {
    if tag.Change? then ""
    else match Lookup(outer, inner, tag.name) case Some(v) => v case None => ""
  }

  predicate Refused(tag: Tag, outer: Option<Vars>, inner: Vars, allowUnknown: bool) {
    !tag.Change? && !allowUnknown && Lookup(outer, inner, tag.name).None?
  }

  function Evaluate(s: Scanned, outer: Option<Vars>, inner: Vars, allowUnknown: bool): Outcome
    decreases |s.pieces|
  {
    if s.pieces == [] then
      match s.end
      case Closed(final) => Done(final)
      case Broken(e) => Failed(e)
      case Stuck => if Refused(Plain(""), outer, inner, allowUnknown) then Failed(UnknownVariable("")) else Diverges
    else
      var p := s.pieces[0];
      if Refused(p.tag, outer, inner, allowUnknown) then Failed(UnknownVariable(p.tag.name))
      else Prefixed(p.text + ValueOf(p.tag, outer, inner),
        Evaluate(Scanned(s.pieces[1..], s.end), outer, inner, allowUnknown))
  }

  /** The meaning of `render`. */
  function Meaning(template: string, outer: Option<Vars>, inner: Vars, allowUnknown: bool): Outcome {
    Evaluate(Scan(template, "{{", "}}"), outer, inner, allowUnknown)
  }

  // ---------------------------------------------------------------- printing

  function PrintTag(tag: Tag, end: string): string {
    match tag
    case Plain(name) => name + end
    case Triple(name) => "{" + name + "}}}"
    case Change(sd, ed) => "=" + sd + " " + ed + "=" + end
  }

  function PrintTemplate(pieces: seq<Piece>, final: string, start: string, end: string): string
    decreases |pieces|
  {
    if pieces == [] then final
    else
      var p := pieces[0];
      p.text + start + PrintTag(p.tag, end) + PrintTemplate(pieces[1..], final, NextStart(p.tag, start),
        NextEnd(p.tag, end))
  }

  /** What may stand between the delimiters. A plain name must not look like another tag, which
      with an empty name and an empty end delimiter also depends on what follows. */
  predicate TagFits(tag: Tag, end: string, rest: string) {
    match tag
    case Plain(name) => Clean(name, end) && (name + end + rest != "" ==> (name + end + rest)[0] !in {'=', '{'})
    case Triple(name) => Clean(name, "}}}")
    case Change(sd, ed) => ' ' !in sd && Clean(sd + " " + ed + "=", end)
  }

  predicate Fits(pieces: seq<Piece>, final: string, start: string, end: string)
    decreases |pieces|
  {
    if pieces == [] then SplitOnce(final, start).None?
    else
      var p := pieces[0];
      var rest := PrintTemplate(pieces[1..], final, NextStart(p.tag, start), NextEnd(p.tag, end));
      && Clean(p.text, start) && TagFits(p.tag, end, rest)
      && Fits(pieces[1..], final, NextStart(p.tag, start), NextEnd(p.tag, end))
  }

  lemma {:induction false} FindNoSpace(sd: string, ed: string)
    requires ' ' !in sd
    ensures Find(sd + " " + ed, " ") == Some(|sd|)
  {
    if sd == "" {
      assert sd + " " + ed == " " + ed;
    } else {
      assert (sd + " " + ed)[0] == sd[0] != ' ';
      assert (sd + " " + ed)[1..] == sd[1..] + " " + ed;
      assert forall c :: c in sd[1..] ==> c in sd;
      FindNoSpace(sd[1..], ed);
    }
  }

  lemma SplitDelims(sd: string, ed: string)
    ensures SplitOnce(sd + " " + ed, " ") == Some((sd, ed)) <==> ' ' !in sd
  {
    var t := sd + " " + ed;
    if ' ' !in sd {
      FindNoSpace(sd, ed);
      assert t[..|sd|] == sd && t[|sd| + 1..] == ed;
    } else {
      var k :| 0 <= k < |sd| && sd[k] == ' ';
      assert t[k] == ' ' && " " <= t[k..];
    }
  }

  /** Exactly the printed tags are read as that tag. */
  lemma ReadTagIff(after: string, end: string, tag: Tag, rest: string)
    ensures ReadTag(after, end) == Ok((tag, rest)) <==> after == PrintTag(tag, end) + rest && TagFits(tag, end, rest)
  {
    hide Find, Clean;
    match tag {
      case Plain(name) =>
        SplitClean(name, end, rest);
      case Triple(name) =>
        SplitClean(name, "}}}", rest);
        assert ("{" + name + "}}}" + rest)[1..] == name + "}}}" + rest;
        if after != "" && after[0] == '{' { assert after == "{" + after[1..]; }
      case Change(sd, ed) =>
        ReadChangeIff(after, end, sd, ed, rest);
    }
  }

  lemma ReadChangeIff(after: string, end: string, sd: string, ed: string, rest: string)
    ensures ReadTag(after, end) == Ok((Change(sd, ed), rest)) <==>
      after == PrintTag(Change(sd, ed), end) + rest && TagFits(Change(sd, ed), end, rest)
  {
    hide Find, Clean, SplitOnce, ReadTag, PrintTag, TagFits;
    if ReadTag(after, end) == Ok((Change(sd, ed), rest)) {
      ReadChangePrinted(after, end, sd, ed, rest);
    }
    if after == PrintTag(Change(sd, ed), end) + rest && TagFits(Change(sd, ed), end, rest) {
      ReadPrintedChange(end, sd, ed, rest);
    }
  }

  lemma ReadPrintedChange(end: string, sd: string, ed: string, rest: string)
    requires TagFits(Change(sd, ed), end, rest)
    ensures ReadTag(PrintTag(Change(sd, ed), end) + rest, end) == Ok((Change(sd, ed), rest))
  {
    hide Find, Clean, SplitOnce;
    var mid := sd + " " + ed + "=";
    var after := PrintTag(Change(sd, ed), end) + rest;
    assert after == "=" + (mid + end + rest);
    assert after[1..] == mid + end + rest;
    SplitClean(mid, end, rest);
    assert mid[..|mid| - 1] == sd + " " + ed;
    SplitDelims(sd, ed);
  }

  lemma ReadChangePrinted(after: string, end: string, sd: string, ed: string, rest: string)
    requires ReadTag(after, end) == Ok((Change(sd, ed), rest))
    ensures after == PrintTag(Change(sd, ed), end) + rest && TagFits(Change(sd, ed), end, rest)
  {
    hide Find, Clean, SplitOnce;
    var (mid, rem) := SplitOnce(after[1..], end).value;
    var delims := StripSuffixEquals(mid).value;
    assert delims == sd + " " + ed;
    assert mid == sd + " " + ed + "=";
    assert after == "=" + after[1..];
    SplitClean(mid, end, rem);
    SplitDelims(sd, ed);
  }

  lemma {:induction false} NoProgressNeverFits(pieces: seq<Piece>, final: string)
    requires Fits(pieces, final, "", "")
    ensures !NoProgress(PrintTemplate(pieces, final, "", ""), "", "")
    decreases |pieces|
  {
    if pieces != [] {
      var p := pieces[0];
      assert Find(p.text + "", "") == Some(0);
      assert p.text == "";
      if p.tag.Plain? {
        assert Find(p.tag.name + "", "") == Some(0);
        assert p.tag.name == "";
        NoProgressNeverFits(pieces[1..], final);
        assert PrintTemplate(pieces, final, "", "") == PrintTemplate(pieces[1..], final, "", "");
      }
    }
  }

  /** A template scans to pieces and a final text exactly when it is their print and they fit. */
  lemma {:induction false} ScanIffPrinted(template: string, pieces: seq<Piece>, final: string, start: string,
                                          end: string)
    ensures Scan(template, start, end) == Scanned(pieces, Closed(final)) <==>
      template == PrintTemplate(pieces, final, start, end) && Fits(pieces, final, start, end)
    decreases |pieces|
  {
    if Scan(template, start, end) == Scanned(pieces, Closed(final)) {
      ScanIsPrint(template, pieces, final, start, end);
    }
    if template == PrintTemplate(pieces, final, start, end) && Fits(pieces, final, start, end) {
      ScanPrinted(pieces, final, start, end);
    }
  }

  lemma {:induction false} ScanIsPrint(template: string, pieces: seq<Piece>, final: string, start: string, end: string)
    requires Scan(template, start, end) == Scanned(pieces, Closed(final))
    ensures template == PrintTemplate(pieces, final, start, end) && Fits(pieces, final, start, end)
    decreases |pieces|
  {
    hide ReadTag, TagFits, PrintTag, Find, Clean, SplitOnce;
    if pieces != [] {
      var p := pieces[0];
      var (before, after) := SplitOnce(template, start).value;
      var (tag, rem) := ReadTag(after, end).value;
      assert pieces == [Piece(before, tag)] + pieces[1..];
      assert p == Piece(before, tag);
      ScanIsPrint(rem, pieces[1..], final, NextStart(tag, start), NextEnd(tag, end));
      ReadTagIff(after, end, tag, rem);
      SplitClean(before, start, after);
      assert template == before + start + after;
      assert before + start + (PrintTag(tag, end) + rem) == before + start + PrintTag(tag, end) + rem;
    }
  }

  lemma {:induction false} ScanPrinted(pieces: seq<Piece>, final: string, start: string, end: string)
    requires Fits(pieces, final, start, end)
    ensures Scan(PrintTemplate(pieces, final, start, end), start, end) == Scanned(pieces, Closed(final))
    decreases |pieces|
  {
    hide ReadTag, TagFits, PrintTag, Find, Clean, SplitOnce;
    var template := PrintTemplate(pieces, final, start, end);
    if start == "" && end == "" { NoProgressNeverFits(pieces, final); }
    if pieces != [] {
      var p := pieces[0];
      var rem := PrintTemplate(pieces[1..], final, NextStart(p.tag, start), NextEnd(p.tag, end));
      var after := PrintTag(p.tag, end) + rem;
      assert template == p.text + start + after;
      SplitClean(p.text, start, after);
      ReadTagIff(after, end, p.tag, rem);
      ScanPrinted(pieces[1..], final, NextStart(p.tag, start), NextEnd(p.tag, end));
      assert pieces == [p] + pieces[1..];
    }
  }
}
