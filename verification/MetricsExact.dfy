/** Which items survive printing and reading back: exactly the well-formed ones. */
module MetricsExact {
  import opened Wrappers
  import opened Metrics

  // ---------------------------------------------------------------- the shape of what is read

  lemma {:induction false} BreakShape(t: string, stop: set<char>)
    requires Break(t, stop).Some?
    ensures var (a, r) := Break(t, stop).value;
      |a| < |t| && a == t[..|a|] && r == t[|a|..] && forall k :: 0 <= k < |a| ==> a[k] !in stop
  {
    var (a, r) := Break(t, stop).value;
    assert t == a + r;
    forall k | 0 <= k < |a| ensures a[k] !in stop { assert a[k] in a; }
  }

  lemma ValueShape(t: string)
    requires ParseValue(t).Ok? && StartsSolid(t)
    ensures ValueOk(ParseValue(t).value.0)
  {
    hide Break, IsSpace;
    var v := ParseValue(t).value.0;
    if t[0] == '"' {
      BreakShape(t[1..], {'"'});
      var a := Break(t[1..], {'"'}).value.0;
      assert v == "\"" + a + "\"";
      assert forall k :: 1 <= k < |v| - 1 ==> v[k] == a[k - 1];
    } else {
      BreakShape(t[1..], {' ', ',', '}'});
      var a := Break(t[1..], {' ', ',', '}'}).value.0;
      assert v == [t[0]] + a;
      assert forall k :: 1 <= k < |v| ==> v[k] == a[k - 1];
    }
  }

  lemma NoEmptyValue(t: string)
    requires ParseValue(t).Ok?
    ensures t != ""
  {
  }

  lemma NoEmptyRest(name: string, t: string)
    requires ParseRest(name, t).Ok?
    ensures t != ""
  {
  }

  lemma PropertyShape(t: string)
    requires ParseProperty(t).Ok? && t != "" && t[0] != '}'
    ensures var p := ParseProperty(t).value.0;
      KeyOk(p.key) && ValueOk(p.value) && (p.key != "" ==> p.key[0] == t[0])
  {
    hide Break, ParseValue, ValueOk, IsSpace;
    BreakShape(t, {' ', '='});
    var (k, r) := Break(t, {' ', '='}).value;
    var r1 := SkipSpace(r);
    var r2 := SkipSpace(r1[1..]);
    assert ParseValue(r2).Ok?;
    NoEmptyValue(r2);
    ValueShape(r2);
  }

  lemma {:induction false} PropertiesShape(t: string)
    requires ParseProperties(t).Ok?
    ensures var ps := ParseProperties(t).value.0;
      PropertiesOk(ps) && (ps != [] ==> t != "" && (ps[0].key != "" ==> ps[0].key[0] == t[0]))
    decreases |t|
  {
    hide ParseProperty, KeyOk, ValueOk;
    if t[0] != '}' {
      var (p, r) := ParseProperty(t).value;
      PropertyShape(t);
      PropertiesShape(r);
      assert ParseProperties(t).value.0 == [p] + ParseProperties(r).value.0;
    }
  }

  lemma RestShape(name: string, t: string)
    requires ParseRest(name, t).Ok? && StartsSolid(t)
    ensures var item := ParseRest(name, t).value.0;
      item.Value? && item.name == name && PropertiesOk(item.properties)
      && (item.properties != [] && item.properties[0].key != "" ==> !IsSpace(item.properties[0].key[0]))
      && StartsSolid(item.tail) && '\n' !in item.tail
      && (t[0] != '{' ==> WellTailed(item)) && (t[0] == '{' && item.properties != [] ==> WellTailed(item))
  {
    hide ParseProperties, KeyOk, ValueOk, Line, Break;
    SolidLine(t);
    if t[0] == '{' {
      var inner := SkipSpace(t[1..]);
      PropertiesShape(inner);
      SolidLine(SkipSpace(ParseProperties(inner).value.1));
    }
  }

  /** Without properties the tail does not begin with a brace. */
  predicate WellTailed(item: Item)
    requires item.Value? && item.tail != ""
  {
    item.properties == [] ==> item.tail[0] != '{'
  }

  lemma SolidLine(t: string)
    ensures StartsSolid(t) ==> StartsSolid(Line(t).0) && Line(t).0[0] == t[0]
    ensures '\n' !in Line(t).0
  {
    hide Break;
    assert IsSpace('\n');
  }

  /** Every item the parser returns has the shape `ParsedShape`. */
  lemma ItemShape(t: string)
    requires StartsSolid(t) && ParseItem(t).Ok?
    ensures ParsedShape(ParseItem(t).value.0)
  {
    hide Line, Break, IsSpace, ParseRest, PropertiesOk;
    if t[0] == '#' {
      SolidLine(t[1..]);
    } else {
      BreakShape(t[1..], {'{', ' '});
      var (a, r) := Break(t[1..], {'{', ' '}).value;
      var name := [t[0]] + a;
      assert forall k :: 1 <= k < |name| ==> name[k] == a[k - 1];
      var r1 := SkipSpace(r);
      NoEmptyRest(name, r1);
      RestShape(name, r1);
    }
  }

  lemma {:induction false} ParseShape(t: string)
    requires Parse(t).Ok?
    ensures forall k :: 0 <= k < |Parse(t).value| ==> ParsedShape(Parse(t).value[k])
    decreases |t|
  {
    hide ParseItem, ParsedShape, IsSpace;
    var t1 := SkipSpace(t);
    if t1 != "" {
      ItemShape(t1);
      var (item, r) := ParseItem(t1).value;
      ParseShape(r);
      assert Parse(t).value == [item] + Parse(r).value;
    }
  }

  // ---------------------------------------------------------------- nothing solid is invented

  /** The characters that are neither space nor comma. */
  function Solid(t: string): nat {
    if t == "" then 0 else (if IsSpace(t[0]) || t[0] == ',' then 0 else 1) + Solid(t[1..])
  }

  lemma {:induction false} SolidConcat(a: string, b: string)
    ensures Solid(a + b) == Solid(a) + Solid(b)
  {
    if a == "" {
      assert a + b == b;
    } else {
      assert (a + b)[1..] == a[1..] + b;
      SolidConcat(a[1..], b);
    }
  }

  lemma {:induction false} SolidSkip(t: string)
    ensures Solid(SkipSpace(t)) == Solid(t)
  {
    if t != "" && IsSpace(t[0]) { SolidSkip(t[1..]); }
  }

  lemma SolidBreak(t: string, stop: set<char>)
    requires Break(t, stop).Some?
    ensures var (a, r) := Break(t, stop).value;
      Solid(t) == Solid(a) + Solid(r) && Solid(r) == Solid([r[0]]) + Solid(r[1..])
  {
    hide Break;
    var (a, r) := Break(t, stop).value;
    SolidConcat(a, r);
    SolidFirst(r);
  }

  lemma SolidFirst(t: string)
    requires t != ""
    ensures Solid(t) == Solid([t[0]]) + Solid(t[1..])
  {
    assert t == [t[0]] + t[1..];
    SolidConcat([t[0]], t[1..]);
  }

  lemma SolidMarks()
    ensures Solid("{") == 1 && Solid("}") == 1 && Solid("=") == 1 && Solid("\"") == 1
    ensures Solid(" ") == 0 && Solid("\n") == 0 && Solid(",") == 0 && Solid("") == 0
  {
  }

  lemma SolidLineSplit(t: string)
    ensures Solid(Line(t).0) + Solid(Line(t).1) == Solid(t)
  {
    hide Break;
    SolidMarks();
    if Break(t, {'\n'}).Some? { SolidBreak(t, {'\n'}); }
  }

  lemma SolidValue(t: string)
    requires ParseValue(t).Ok?
    ensures var (v, r) := ParseValue(t).value; Solid(v) + Solid(r) == Solid(t)
  {
    hide Break, Solid;
    SolidFirst(t);
    SolidMarks();
    if t[0] == '"' {
      SolidBreak(t[1..], {'"'});
      var (a, r) := Break(t[1..], {'"'}).value;
      assert [r[0]] == "\"";
      SolidConcat("\"", a);
      SolidConcat("\"" + a, "\"");
    } else {
      SolidBreak(t[1..], {' ', ',', '}'});
      var (a, r) := Break(t[1..], {' ', ',', '}'}).value;
      SolidConcat([t[0]], a);
    }
  }

  lemma SolidProperty(t: string)
    requires ParseProperty(t).Ok?
    ensures var (p, r) := ParseProperty(t).value;
      Solid(p.key) + 1 + Solid(p.value) + Solid(r) == Solid(t)
  {
    hide Break, Solid, ParseValue, SkipSpace;
    SolidMarks();
    SolidBreak(t, {' ', '='});
    var (k, r) := Break(t, {' ', '='}).value;
    SolidSkip(r);
    var r1 := SkipSpace(r);
    SolidFirst(r1);
    SolidSkip(r1[1..]);
    var r2 := SkipSpace(r1[1..]);
    SolidValue(r2);
    var r3 := ParseValue(r2).value.1;
    SolidSkip(r3);
    var r4 := SkipSpace(r3);
    if r4 != "" { SolidFirst(r4); }
  }

  /** The solid characters of printed properties. */
  function SolidOf(ps: seq<Property>): nat {
    if ps == [] then 0 else Solid(ps[0].key) + 1 + Solid(ps[0].value) + SolidOf(ps[1..])
  }

  lemma {:induction false} SolidPrint(ps: seq<Property>)
    ensures Solid(PrintProperties(ps)) == SolidOf(ps)
  {
    SolidMarks();
    if ps != [] {
      var p := ps[0];
      var sep := if |ps| > 1 then "," else "";
      SolidConcat(p.key, "=");
      SolidConcat(p.key + "=", p.value);
      SolidConcat(p.key + "=" + p.value, sep);
      SolidConcat(p.key + "=" + p.value + sep, PrintProperties(ps[1..]));
      SolidPrint(ps[1..]);
    }
  }

  lemma {:induction false} SolidProperties(t: string)
    requires ParseProperties(t).Ok?
    ensures var (ps, r) := ParseProperties(t).value; SolidOf(ps) + 1 + Solid(r) == Solid(t)
    decreases |t|
  {
    hide ParseProperty, Solid;
    if t[0] == '}' {
      SolidFirst(t);
      SolidMarks();
    } else {
      SolidProperty(t);
      var (p, r) := ParseProperty(t).value;
      SolidProperties(r);
      assert ([p] + ParseProperties(r).value.0)[1..] == ParseProperties(r).value.0;
    }
  }

  /** The solid characters of a printed item. */
  function SolidItem(item: Item): nat {
    match item
    case Comment(line) => Solid(line)
    case Value(name, ps, tail) =>
      Solid(name) + (if ps != [] then 2 + SolidOf(ps) else 0) + Solid(tail)
  }

  lemma SolidPrintItem(item: Item)
    ensures Solid(Print(item)) == SolidItem(item)
  {
    hide Solid, SolidOf, PrintProperties;
    SolidMarks();
    if item.Value? {
      var ps := item.properties;
      var braces := if ps != [] then "{" + PrintProperties(ps) + "}" else "";
      SolidPrint(ps);
      SolidConcat("{", PrintProperties(ps));
      SolidConcat("{" + PrintProperties(ps), "}");
      SolidConcat(item.name, braces);
      SolidConcat(item.name + braces, " ");
      SolidConcat(item.name + braces + " ", item.tail);
    }
  }

  function SolidItems(items: seq<Item>): nat {
    if items == [] then 0 else SolidItem(items[0]) + SolidItems(items[1..])
  }

  lemma {:induction false} SolidPrintAll(items: seq<Item>)
    ensures Solid(PrintAll(items)) == SolidItems(items)
  {
    hide Solid, SolidItem, Print;
    SolidMarks();
    if items != [] {
      SolidPrintItem(items[0]);
      SolidPrintAll(items[1..]);
      if |items| > 1 {
        SolidConcat(Print(items[0]), "\n");
        SolidConcat(Print(items[0]) + "\n", PrintAll(items[1..]));
      }
    }
  }

  lemma SolidRest(name: string, t: string)
    requires ParseRest(name, t).Ok? && StartsSolid(t)
    ensures var (item, r) := ParseRest(name, t).value;
      item.Value? && item.tail != "" && SolidItem(item) + Solid(r) <= Solid(name) + Solid(t)
      && (SolidItem(item) + Solid(r) == Solid(name) + Solid(t) ==> WellTailed(item))
  {
    hide ParseProperties, Line, Solid, SolidOf, IsSpace;
    RestShape(name, t);
    if t[0] == '{' {
      SolidFirst(t);
      SolidMarks();
      SolidSkip(t[1..]);
      var inner := SkipSpace(t[1..]);
      SolidProperties(inner);
      var (ps, r) := ParseProperties(inner).value;
      SolidSkip(r);
      SolidLineSplit(SkipSpace(r));
    } else {
      SolidLineSplit(t);
    }
  }

  lemma SolidOneItem(t: string)
    requires StartsSolid(t) && ParseItem(t).Ok?
    ensures var (item, r) := ParseItem(t).value;
      ParsedShape(item) && SolidItem(item) + Solid(r) <= Solid(t)
      && (SolidItem(item) + Solid(r) == Solid(t) ==> WellFormed(item))
  {
    hide ParseRest, Line, Solid, SolidOf, IsSpace, Break, PropertiesOk;
    ItemShape(t);
    SolidFirst(t);
    if t[0] == '#' {
      SolidLineSplit(t[1..]);
      SolidConcat([t[0]], Line(t[1..]).0);
    } else {
      SolidBreak(t[1..], {'{', ' '});
      var (a, r) := Break(t[1..], {'{', ' '}).value;
      SolidConcat([t[0]], a);
      SolidSkip(r);
      var r1 := SkipSpace(r);
      NoEmptyRest([t[0]] + a, r1);
      SolidRest([t[0]] + a, r1);
    }
  }

  /** Reading loses solid characters only at empty braces. */
  lemma {:induction false} SolidAll(t: string)
    requires Parse(t).Ok?
    ensures SolidItems(Parse(t).value) <= Solid(t)
    ensures SolidItems(Parse(t).value) == Solid(t) ==> forall k :: 0 <= k < |Parse(t).value| ==>
      WellFormed(Parse(t).value[k])
    decreases |t|
  {
    hide ParseItem, Solid, SolidItem, WellFormed, IsSpace;
    SolidSkip(t);
    var t1 := SkipSpace(t);
    if t1 == "" {
      SolidMarks();
    } else {
      SolidOneItem(t1);
      var (item, r) := ParseItem(t1).value;
      SolidAll(r);
      assert ([item] + Parse(r).value)[1..] == Parse(r).value;
    }
  }

  /** Items survive printing and reading back exactly when all of them are well formed. */
  lemma ReadBackIffWellFormed(items: seq<Item>)
    ensures Parse(PrintAll(items)) == Ok(items) <==> forall k :: 0 <= k < |items| ==> WellFormed(items[k])
  {
    hide WellFormed, Parse, PrintAll;
    if forall k :: 0 <= k < |items| ==> WellFormed(items[k]) {
      ParsePrintAll(items);
    }
    if Parse(PrintAll(items)) == Ok(items) {
      SolidAll(PrintAll(items));
      SolidPrintAll(items);
    }
  }

  /** Printing what was read and reading it again gives the same items unless empty braces hid a
      brace at the start of a tail. */
  lemma ReprintIsStable(t: string)
    requires Parse(t).Ok?
    ensures Parse(PrintAll(Parse(t).value)) == Parse(t) <==> forall k :: 0 <= k < |Parse(t).value| ==>
      NoHiddenBrace(Parse(t).value[k])
  {
    hide Parse, PrintAll, ParsedShape;
    var items := Parse(t).value;
    ReadBackIffWellFormed(items);
    ParseShape(t);
    assert Parse(t) == Ok(items);
    assert forall k :: 0 <= k < |items| ==> ParsedShape(items[k]);
    forall k | 0 <= k < |items| ensures WellFormed(items[k]) <==> NoHiddenBrace(items[k]) {
      assert ParsedShape(items[k]);
      ShapeHasTail(items[k]);
    }
  }

  lemma ShapeHasTail(item: Item)
    requires ParsedShape(item)
    ensures item.Value? ==> item.tail != ""
  {
  }

  predicate NoHiddenBrace(item: Item) {
    item.Value? && item.properties == [] && item.tail != "" ==> item.tail[0] != '{'
  }

  /** A text on which printing and reading again does not give the same items. */
  lemma HiddenBraceExample()
    ensures Parse("a{} {x") == Ok([Value("a", [], "{x")])
    ensures Parse(PrintAll([Value("a", [], "{x")])) != Ok([Value("a", [], "{x")])
  {
    hide ParseItem, PrintAll, ParsedShape;
    HiddenBraceItem();
    SkipSolid("a{} {x");
    assert [Value("a", [], "{x")] + [] == [Value("a", [], "{x")];
    assert Parse("a{} {x") == Ok([Value("a", [], "{x")]);
    hide Parse;
    ReadBackIffWellFormed([Value("a", [], "{x")]);
    assert !WellFormed([Value("a", [], "{x")][0]);
  }

  lemma HiddenBraceItem()
    ensures ParseItem("a{} {x") == Ok((Value("a", [], "{x"), ""))
  {
    assert !IsSpace('a') && !IsSpace('{') && !IsSpace('}') && IsSpace(' ');
    hide Break, Line, IsSpace, SkipSpace;
    var t := "a{} {x";
    assert t == "a" + "{} {x";
    ReadName("a", "{} {x");
    SkipSolid("{} {x");
    assert "{} {x"[1..] == "} {x" && "} {x"[1..] == [' '] + "{x";
    SkipSolid("} {x");
    SkipOne(' ', "{x");
    LineAt("{x", "");
    assert "{x" + "" == "{x";
  }

  lemma SpacedLast(p: Property, rest: string)
    requires KeyOk(p.key) && ValueOk(p.value) && StartsSolid(rest) && rest[0] != '='
    ensures ParseProperties(p.key + "=" + p.value + ", " + rest) == Err(ExpectedEquals)
  {
    hide ValueOk, IsSpace, ParseProperty, Break, SkipSpace;
    var more := ", " + rest;
    assert p.key + "=" + p.value + more == p.key + "=" + p.value + ", " + rest;
    ReadProperty(p, more);
    assert SkipComma(more) == " " + rest;
    SpaceIsNoKey(rest);
  }

  /** An error in the properties after the first is an error of all. */
  lemma FailsLater(p: Property, after: string)
    requires KeyOk(p.key) && ValueOk(p.value) && ParseProperties(after) == Err(ExpectedEquals)
    ensures ParseProperties(p.key + "=" + p.value + ("," + after)) == Err(ExpectedEquals)
  {
    hide ValueOk, IsSpace, ParseProperty, Break, SkipSpace;
    ReadProperty(p, "," + after);
    assert SkipComma("," + after) == after;
  }

  /** A space after the comma behind any properties is not accepted. */
  lemma {:induction false} SpaceAfterComma(ps: seq<Property>, rest: string)
    requires ps != [] && PropertiesOk(ps) && StartsSolid(rest) && rest[0] != '='
    ensures ParseProperties(PrintProperties(ps) + ", " + rest) == Err(ExpectedEquals)
    decreases |ps|
  {
    hide ValueOk, KeyOk, IsSpace, ParseProperties;
    var p := ps[0];
    if |ps| == 1 {
      assert PrintProperties(ps[1..]) == "";
      assert PrintProperties(ps) == p.key + "=" + p.value;
      SpacedLast(p, rest);
    } else {
      var after := PrintProperties(ps[1..]) + ", " + rest;
      SpaceAfterComma(ps[1..], rest);
      FailsLater(p, after);
      assert PrintProperties(ps) + ", " + rest == p.key + "=" + p.value + ("," + after);
    }
  }

  /** These items, each on a line that is ended. */
  function Lines(items: seq<Item>): string {
    if items == [] then "" else Print(items[0]) + "\n" + Lines(items[1..])
  }

  lemma SpacedRestFails(name: string, ps: seq<Property>, rest: string)
    requires ps != [] && PropertiesOk(ps) && (ps[0].key != "" ==> !IsSpace(ps[0].key[0])) && StartsSolid(rest)
    requires rest[0] != '='
    ensures ParseRest(name, "{" + PrintProperties(ps) + ", " + rest) == Err(ExpectedEquals)
  {
    hide ParseProperties, PrintProperties, PropertiesOk, Line, IsSpace;
    var r := "{" + PrintProperties(ps) + ", " + rest;
    PropertiesStartSolid(ps, ", " + rest);
    assert r[1..] == PrintProperties(ps) + (", " + rest) == PrintProperties(ps) + ", " + rest;
    SkipSolid(r[1..]);
    SpaceAfterComma(ps, rest);
  }

  /** A line with a space after a comma. */
  function SpacedLine(name: string, ps: seq<Property>, rest: string): string {
    name + ("{" + PrintProperties(ps) + ", " + rest)
  }

  lemma SpacedItemFails(name: string, ps: seq<Property>, rest: string)
    requires ps != [] && ParsedShape(Value(name, ps, "1")) && StartsSolid(rest) && rest[0] != '='
    ensures StartsSolid(SpacedLine(name, ps, rest)) && ParseItem(SpacedLine(name, ps, rest)) == Err(ExpectedEquals)
  {
    assert !IsSpace('{');
    hide ParseRest, PrintProperties, ParseItem, PropertiesOk, IsSpace;
    var r := "{" + PrintProperties(ps) + ", " + rest;
    SkipSolid(r);
    ReadName(name, r);
    SpacedRestFails(name, ps, rest);
  }

  lemma PropertiesStartSolid(ps: seq<Property>, rest: string)
    requires ps != [] && (ps[0].key != "" ==> !IsSpace(ps[0].key[0]))
    ensures StartsSolid(PrintProperties(ps) + rest)
  {
    assert (PrintProperties(ps) + rest)[0] == if ps[0].key != "" then ps[0].key[0] else '=';
  }

  /** Whatever well-formed lines come before it, a line with such a space makes the text unreadable. */
  lemma {:induction false} SpaceSpoilsText(items: seq<Item>, name: string, ps: seq<Property>, rest: string)
    requires forall k :: 0 <= k < |items| ==> WellFormed(items[k])
    requires ps != [] && ParsedShape(Value(name, ps, "1")) && StartsSolid(rest) && rest[0] != '='
    ensures Parse(Lines(items) + SpacedLine(name, ps, rest)) == Err(ExpectedEquals)
    decreases |items|
  {
    hide ParsedShape, WellFormed, SpacedLine, ParseItem, Line, IsSpace, SkipSpace, Print;
    var line := SpacedLine(name, ps, rest);
    var t := Lines(items) + line;
    if items == [] {
      assert t == line;
      SpacedItemFails(name, ps, rest);
      SkipSolid(t);
    } else {
      var after := "\n" + Lines(items[1..]) + line;
      assert t == Print(items[0]) + after;
      ReadItem(items[0], after);
      SkipSolid(t);
      assert AfterLine(after) == Lines(items[1..]) + line;
      SpaceSpoilsText(items[1..], name, ps, rest);
    }
  }

  lemma SpaceIsNoKey(rest: string)
    requires StartsSolid(rest) && rest[0] != '='
    ensures ParseProperty(" " + rest) == Err(ExpectedEquals)
  {
    assert IsSpace(' ');
    hide IsSpace, ParseValue, Break;
    var t := " " + rest;
    assert t == [' '] + rest;
    BreakAt("", t, {' ', '='});
    assert "" + t == t;
    SkipOne(' ', rest);
  }
}
