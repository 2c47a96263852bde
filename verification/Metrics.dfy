/** The metrics text: what `Display` prints and what `parse_metrics` reads back. */
module Metrics {
  import opened Wrappers

  datatype Property = Property(key: string, value: string)

  datatype Item =
    | Comment(line: string)
    | Value(name: string, properties: seq<Property>, tail: string)

  // ---------------------------------------------------------------- printing

  function PrintProperties(ps: seq<Property>): string {
    if ps == [] then ""
    else ps[0].key + "=" + ps[0].value + (if |ps| > 1 then "," else "") + PrintProperties(ps[1..])
  }

  function Print(item: Item): string {
    match item
    case Comment(line) => line
    case Value(name, ps, tail) =>
      name + (if ps != [] then "{" + PrintProperties(ps) + "}" else "") + " " + tail
  }

  /** The lines of all items, joined by newlines. */
  function PrintAll(items: seq<Item>): string {
    if items == [] then ""
    else if |items| == 1 then Print(items[0])
    else Print(items[0]) + "\n" + PrintAll(items[1..])
  }

  // ---------------------------------------------------------------- parsing

  /** `char::is_whitespace`. */
  predicate IsSpace(c: char) {
    || c == ' ' || '\t' <= c <= '\r' || c == '\U{85}' || c == '\U{A0}' || c == '\U{1680}'
    || '\U{2000}' <= c <= '\U{200A}' || c == '\U{2028}' || c == '\U{2029}' || c == '\U{202F}' || c == '\U{205F}' ||
         c == '\U{3000}'
  }

  /** The characters with the property White_Space of the Unicode Standard, one by one. */
  const WHITE_SPACE: string :=
    "\t\n\U{0B}\U{0C}\r \U{85}\U{A0}\U{1680}\U{2000}\U{2001}\U{2002}\U{2003}\U{2004}\U{2005}\U{2006}" +
    "\U{2007}\U{2008}\U{2009}\U{200A}\U{2028}\U{2029}\U{202F}\U{205F}\U{3000}"

  lemma SpacesAreWhiteSpace(c: char)
    ensures IsSpace(c) <==> c in WHITE_SPACE
  {
    assert |WHITE_SPACE| == 25;
    if IsSpace(c) {
      var k := if c <= '\r' then c as int - 9 else if c == ' ' then 5 else if c == '\U{85}' then 6
        else if c == '\U{A0}' then 7 else if c == '\U{1680}' then 8 else if c <= '\U{200A}' then c as int - 0x2000 + 9
        else if c <= '\U{2029}' then c as int - 0x2028 + 20 else if c == '\U{202F}' then 22
        else if c == '\U{205F}' then 23 else 24;
      assert WHITE_SPACE[k] == c;
    }
  }

  function SkipSpace(t: string): (r: string)
    ensures |r| <= |t| && (r != "" ==> !IsSpace(r[0]))
  {
    if t != "" && IsSpace(t[0]) then SkipSpace(t[1..]) else t
  }

  /** What comes before the first character of `stop`, and the rest from there. */
  function Break(t: string, stop: set<char>): (r: Option<(string, string)>)
    ensures r.Some? ==> t == r.value.0 + r.value.1 && r.value.1 != "" && r.value.1[0] in stop
    ensures r.Some? ==> forall c :: c in r.value.0 ==> c !in stop
    ensures r.None? ==> forall c :: c in t ==> c !in stop
  {
    if t == "" then None
    else if t[0] in stop then Some(("", t))
    else
      match Break(t[1..], stop)
      case None => None
      case Some((a, r)) => Some(([t[0]] + a, r))
  }

  /** The text up to the end of the line, and the rest after the newline. */
  function Line(t: string): (r: (string, string))
    ensures |r.0| + |r.1| <= |t| && '\n' !in r.0 && (t != "" && t[0] != '\n' ==> r.0 != "" && r.0[0] == t[0])
  {
    match Break(t, {'\n'})
    case None => (t, "")
    case Some((a, r)) => (a, r[1..])
  }

  datatype ParseError = UnexpectedEnd | ExpectedEquals

  function ParseValue(t: string): (r: Result<(string, string), ParseError>)
    ensures r.Ok? ==> |r.value.1| < |t|
  {
    if t == "" then Err(UnexpectedEnd)
    else if t[0] == '"' then
      match Break(t[1..], {'"'})
      case None => Err(UnexpectedEnd)
      case Some((a, r)) => Ok(("\"" + a + "\"", r[1..]))
    else
      match Break(t[1..], {' ', ',', '}'})
      case None => Err(UnexpectedEnd)
      case Some((a, r)) => Ok(([t[0]] + a, r))
  }

  function SkipComma(t: string): string {
    if t != "" && t[0] == ',' then t[1..] else t
  }

  function ParseProperty(t: string): (r: Result<(Property, string), ParseError>)
    ensures r.Ok? ==> |r.value.1| < |t|
  {
    match Break(t, {' ', '='})
    case None => Err(UnexpectedEnd)
    case Some((k, r)) =>
      var r1 := SkipSpace(r);
      if r1 == "" || r1[0] != '=' then Err(ExpectedEquals)
      else
        match ParseValue(SkipSpace(r1[1..]))
        case Err(e) => Err(e)
        case Ok((v, r2)) => Ok((Property(k, v), SkipComma(SkipSpace(r2))))
  }

  function ParseProperties(t: string): (r: Result<(seq<Property>, string), ParseError>)
    ensures r.Ok? ==> |r.value.1| < |t|
    decreases |t|
  {
    if t == "" then Err(UnexpectedEnd)
    else if t[0] == '}' then Ok(([], t[1..]))
    else
      match ParseProperty(t)
      case Err(e) => Err(e)
      case Ok((p, r)) =>
        match ParseProperties(r)
        case Err(e) => Err(e)
        case Ok((ps, r2)) => Ok(([p] + ps, r2))
  }

  /** What follows a name: properties if a brace is next, then the tail of the line. */
  function ParseRest(name: string, t: string): (r: Result<(Item, string), ParseError>)
    ensures r.Ok? ==> |r.value.1| <= |t|
  {
    if t == "" then Err(UnexpectedEnd)
    else if t[0] == '{' then
      match ParseProperties(SkipSpace(t[1..]))
      case Err(e) => Err(e)
      case Ok((ps, r)) =>
        var r1 := SkipSpace(r);
        if r1 == "" then Err(UnexpectedEnd) else Ok((Value(name, ps, Line(r1).0), Line(r1).1))
    else Ok((Value(name, [], Line(t).0), Line(t).1))
  }

  /** One item, from a character that is not a space. */
  function ParseItem(t: string): (r: Result<(Item, string), ParseError>)
    requires t != ""
    ensures r.Ok? ==> |r.value.1| < |t|
  {
    if t[0] == '#' then Ok((Comment([t[0]] + Line(t[1..]).0), Line(t[1..]).1))
    else
      match Break(t[1..], {'{', ' '})
      case None => Err(UnexpectedEnd)
      case Some((a, r)) => ParseRest([t[0]] + a, SkipSpace(r))
  }

  function Parse(t: string): Result<seq<Item>, ParseError>
    decreases |t|
  {
    var t1 := SkipSpace(t);
    if t1 == "" then Ok([])
    else
      match ParseItem(t1)
      case Err(e) => Err(e)
      case Ok((item, r)) =>
        match Parse(r)
        case Err(e) => Err(e)
        case Ok(items) => Ok([item] + items)
  }

  // ---------------------------------------------------------------- what can be printed

  predicate StartsSolid(t: string) {
    t != "" && !IsSpace(t[0])
  }

  predicate ValueOk(v: string) {
    && StartsSolid(v)
    && if v[0] == '"' then |v| >= 2 && v[|v| - 1] == '"' && (forall k :: 1 <= k < |v| - 1 ==> v[k] != '"')
       else forall k :: 1 <= k < |v| ==> v[k] !in {' ', ',', '}'}
  }

  predicate KeyOk(k: string) {
    (forall c :: c in k ==> c !in {' ', '='}) && (k != "" ==> k[0] != '}')
  }

  predicate PropertiesOk(ps: seq<Property>) {
    forall k :: 0 <= k < |ps| ==> KeyOk(ps[k].key) && ValueOk(ps[k].value)
  }

  /** What every item that comes out of the parser is like. */
  predicate ParsedShape(item: Item) {
    match item
    case Comment(line) => line != "" && line[0] == '#' && '\n' !in line
    case Value(name, ps, tail) =>
      && StartsSolid(name) && name[0] != '#' && (forall k :: 1 <= k < |name| ==> name[k] !in {'{', ' '})
      && PropertiesOk(ps) && (ps != [] && ps[0].key != "" ==> !IsSpace(ps[0].key[0]))
      && StartsSolid(tail) && '\n' !in tail
  }

  /** What is printed so that it can be read back: without properties the tail must not look
      like properties. */
  predicate WellFormed(item: Item) {
    ParsedShape(item) && (item.Value? && item.properties == [] ==> item.tail[0] != '{')
  }

  // ---------------------------------------------------------------- reading back

  lemma {:induction false} BreakAt(a: string, r: string, stop: set<char>)
    requires (forall c :: c in a ==> c !in stop) && r != "" && r[0] in stop
    ensures Break(a + r, stop) == Some((a, r))
  {
    if a == "" {
      assert a + r == r;
    } else {
      assert (a + r)[1..] == a[1..] + r;
      assert forall c :: c in a[1..] ==> c in a;
      BreakAt(a[1..], r, stop);
      assert a == [a[0]] + a[1..];
    }
  }

  lemma {:induction false} BreakNever(a: string, stop: set<char>)
    requires forall c :: c in a ==> c !in stop
    ensures Break(a, stop) == None
  {
    if a != "" {
      assert forall c :: c in a[1..] ==> c in a;
      BreakNever(a[1..], stop);
    }
  }

  lemma SkipSolid(t: string)
    requires t == "" || !IsSpace(t[0])
    ensures SkipSpace(t) == t
  {
  }

  lemma SkipOne(c: char, t: string)
    requires IsSpace(c) && (t == "" || !IsSpace(t[0]))
    ensures SkipSpace([c] + t) == t
  {
    assert ([c] + t)[1..] == t;
  }

  /** The end of a text, or a newline and more. */
  predicate LineEnds(rest: string) {
    rest == "" || rest[0] == '\n'
  }

  function AfterLine(rest: string): string {
    if rest == "" then "" else rest[1..]
  }

  lemma LineAt(a: string, rest: string)
    requires '\n' !in a && LineEnds(rest)
    ensures Line(a + rest) == (a, AfterLine(rest))
  {
    if rest == "" {
      assert a + rest == a;
      BreakNever(a, {'\n'});
    } else {
      BreakAt(a, rest, {'\n'});
    }
  }

  lemma ReadValue(v: string, rest: string)
    requires ValueOk(v) && rest != "" && rest[0] in {',', '}'}
    ensures ParseValue(v + rest) == Ok((v, rest))
  {
    var t := v + rest;
    assert t[0] == v[0] && t[1..] == v[1..] + rest;
    if v[0] == '"' {
      var body := v[1..|v| - 1];
      assert t[1..] == body + ("\"" + rest);
      BreakAt(body, "\"" + rest, {'"'});
      assert ("\"" + rest)[1..] == rest;
      assert v == "\"" + body + "\"";
    } else {
      BreakAt(v[1..], rest, {' ', ',', '}'});
      assert v == [v[0]] + v[1..];
    }
  }

  lemma ReadProperty(p: Property, rest: string)
    requires KeyOk(p.key) && ValueOk(p.value) && rest != "" && rest[0] in {',', '}'}
    ensures ParseProperty(p.key + "=" + p.value + rest) == Ok((p, SkipComma(rest)))
  {
    var t := p.key + "=" + p.value + rest;
    var r := "=" + (p.value + rest);
    assert t == p.key + r;
    BreakAt(p.key, r, {' ', '='});
    SkipSolid(r);
    assert r[1..] == p.value + rest;
    SkipSolid(p.value + rest);
    ReadValue(p.value, rest);
    SkipSolid(rest);
  }

  lemma SkipSeparator(ps: seq<Property>, rest: string)
    requires ps != []
    ensures SkipComma((if |ps| > 1 then "," else "") + PrintProperties(ps[1..]) + "}" + rest) ==
      PrintProperties(ps[1..]) + "}" + rest
  {
    var more := PrintProperties(ps[1..]) + "}" + rest;
    if |ps| > 1 {
      assert "," + PrintProperties(ps[1..]) + "}" + rest == "," + more;
    } else {
      assert PrintProperties(ps[1..]) == "";
      assert "" + "" + "}" + rest == "}" + rest;
    }
  }

  lemma {:induction false} ReadProperties(ps: seq<Property>, rest: string)
    requires PropertiesOk(ps)
    ensures ParseProperties(PrintProperties(ps) + "}" + rest) == Ok((ps, rest))
    decreases |ps|
  {
    hide ParseProperty, ValueOk, SkipComma;
    var t := PrintProperties(ps) + "}" + rest;
    if ps == [] {
      assert t == "}" + rest && t[1..] == rest;
    } else {
      var p := ps[0];
      var more := (if |ps| > 1 then "," else "") + PrintProperties(ps[1..]) + "}" + rest;
      assert t == p.key + "=" + p.value + more;
      if |ps| == 1 {
        assert PrintProperties(ps[1..]) == "";
        assert more == "}" + rest;
      }
      ReadProperty(p, more);
      assert SkipComma(more) == PrintProperties(ps[1..]) + "}" + rest by { SkipSeparator(ps, rest); }
      assert t[0] != '}';
      ReadProperties(ps[1..], rest);
      assert ps == [p] + ps[1..];
    }
  }

  lemma ReadComment(line: string, rest: string)
    requires line != "" && line[0] == '#' && '\n' !in line && LineEnds(rest)
    ensures ParseItem(line + rest) == Ok((Comment(line), AfterLine(rest)))
  {
    hide Line, Break;
    var t := line + rest;
    assert t[1..] == line[1..] + rest;
    assert forall c :: c in line[1..] ==> c in line;
    LineAt(line[1..], rest);
    assert line == [line[0]] + line[1..];
  }

  lemma ReadName(name: string, r: string)
    requires StartsSolid(name) && name[0] != '#' && (forall k :: 1 <= k < |name| ==> name[k] !in {'{', ' '})
    requires r != "" && r[0] in {'{', ' '}
    ensures ParseItem(name + r) == ParseRest(name, SkipSpace(r))
  {
    hide ParseRest, SkipSpace, Break, Line;
    var t := name + r;
    assert t[1..] == name[1..] + r && t[0] == name[0];
    BreakAt(name[1..], r, {'{', ' '});
    assert name == [name[0]] + name[1..];
  }

  lemma ReadBareRest(name: string, tail: string, rest: string)
    requires StartsSolid(tail) && tail[0] != '{' && '\n' !in tail && LineEnds(rest)
    ensures ParseRest(name, SkipSpace(" " + tail + rest)) == Ok((Value(name, [], tail), AfterLine(rest)))
  {
    assert IsSpace(' ');
    hide ParseProperties, Line, Break, IsSpace;
    LineAt(tail, rest);
    assert " " + tail + rest == [' '] + (tail + rest);
    SkipOne(' ', tail + rest);
  }

  /** Where spaces are skipped in what follows a name with properties. */
  lemma BracedSkips(ps: seq<Property>, tail: string, rest: string)
    requires ps != [] && ps[0].key != "" ==> !IsSpace(ps[0].key[0])
    requires StartsSolid(tail)
    ensures var r := "{" + PrintProperties(ps) + "} " + tail + rest;
      && SkipSpace(r) == r && r[0] == '{' && SkipSpace(r[1..]) == PrintProperties(ps) + "}" + (" " + tail + rest)
      && SkipSpace(" " + tail + rest) == tail + rest
  {
    assert IsSpace(' ') && !IsSpace('{') && !IsSpace('}') && !IsSpace('=');
    hide IsSpace;
    var after := " " + tail + rest;
    var r := "{" + PrintProperties(ps) + "} " + tail + rest;
    SkipSolid(r);
    assert r[1..] == PrintProperties(ps) + "}" + after;
    assert r[1..][0] == if ps == [] then '}' else if ps[0].key != "" then ps[0].key[0] else '=';
    SkipSolid(r[1..]);
    assert after == [' '] + (tail + rest);
    SkipOne(' ', tail + rest);
  }

  lemma ReadBracedRest(name: string, ps: seq<Property>, tail: string, rest: string)
    requires PropertiesOk(ps) && (ps != [] && ps[0].key != "" ==> !IsSpace(ps[0].key[0]))
    requires StartsSolid(tail) && '\n' !in tail && LineEnds(rest)
    ensures ParseRest(name, SkipSpace("{" + PrintProperties(ps) + "} " + tail + rest)) ==
      Ok((Value(name, ps, tail), AfterLine(rest)))
  {
    hide ParseProperties, PrintProperties, Line, Break, IsSpace, SkipSpace, PropertiesOk;
    BracedSkips(ps, tail, rest);
    ReadProperties(ps, " " + tail + rest);
    LineAt(tail, rest);
  }

  lemma ReadBareItem(name: string, tail: string, rest: string)
    requires WellFormed(Value(name, [], tail)) && LineEnds(rest)
    ensures Print(Value(name, [], tail)) == name + " " + tail
    ensures ParseItem(name + " " + tail + rest) == Ok((Value(name, [], tail), AfterLine(rest)))
  {
    hide ParseItem, ParseRest, IsSpace, SkipSpace, PrintProperties, PropertiesOk;
    ReadName(name, " " + tail + rest);
    assert name + " " + tail + rest == name + (" " + tail + rest);
    ReadBareRest(name, tail, rest);
    assert name + "" + " " + tail == name + " " + tail;
  }

  lemma ReadBracedItem(name: string, ps: seq<Property>, tail: string, rest: string)
    requires WellFormed(Value(name, ps, tail)) && ps != [] && LineEnds(rest)
    ensures ParseItem(Print(Value(name, ps, tail)) + rest) == Ok((Value(name, ps, tail), AfterLine(rest)))
  {
    hide ParseItem, ParseRest, IsSpace, SkipSpace, PrintProperties, PropertiesOk;
    var r := "{" + PrintProperties(ps) + "} " + tail + rest;
    ReadName(name, r);
    assert Print(Value(name, ps, tail)) + rest == name + r;
    ReadBracedRest(name, ps, tail, rest);
  }

  lemma ReadItem(item: Item, rest: string)
    requires WellFormed(item) && LineEnds(rest)
    ensures Print(item) != "" && !IsSpace(Print(item)[0])
    ensures ParseItem(Print(item) + rest) == Ok((item, AfterLine(rest)))
  {
    assert !IsSpace('#');
    hide ParseItem, ParseRest, IsSpace, SkipSpace, PrintProperties, PropertiesOk;
    if item.Comment? {
      ReadComment(item.line, rest);
    } else if item.properties == [] {
      ReadBareItem(item.name, item.tail, rest);
    } else {
      ReadBracedItem(item.name, item.properties, item.tail, rest);
    }
  }

  /** Whatever well-formed items are printed, the same items are read back. */
  lemma {:induction false} ParsePrintAll(items: seq<Item>)
    requires forall k :: 0 <= k < |items| ==> WellFormed(items[k])
    ensures Parse(PrintAll(items)) == Ok(items)
    decreases |items|
  {
    if items != [] {
      var item := items[0];
      var rest := if |items| == 1 then "" else "\n" + PrintAll(items[1..]);
      var t := PrintAll(items);
      assert t == Print(item) + rest;
      ReadItem(item, rest);
      SkipSolid(t);
      ParsePrintAll(items[1..]);
      assert AfterLine(rest) == PrintAll(items[1..]);
      assert items == [item] + items[1..];
    }
  }
}
