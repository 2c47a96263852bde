/** The metrics parser as it runs: one cursor moves over the text, items are pushed as they end. */
module MetricsReader {
  import opened Wrappers
  import opened Metrics

  /** `items` in front of whatever else is read. */
  function Prepend<T>(items: seq<T>, r: Result<seq<T>, ParseError>): Result<seq<T>, ParseError> {
    match r
    case Ok(more) => Ok(items + more)
    case Err(e) => Err(e)
  }

  function PrependPair<T>(items: seq<T>,
                          r: Result<(seq<T>, string), ParseError>): Result<(seq<T>, string), ParseError> {
    match r
    case Ok((more, rest)) => Ok((items + more, rest))
    case Err(e) => Err(e)
  }

  lemma PrependNone<T>(r: Result<(seq<T>, string), ParseError>)
    ensures PrependPair([], r) == r
  {
    assert r.Ok? ==> [] + r.value.0 == r.value.0;
  }

  lemma {:induction false} BreakPrefix(a: string, t: string, stop: set<char>)
    requires forall c :: c in a ==> c !in stop
    ensures Break(a + t, stop) ==
      match Break(t, stop) case None => None case Some((b, r)) => Some((a + b, r))
  {
    if a == "" {
      assert a + t == t;
      assert Break(t, stop).Some? ==> a + Break(t, stop).value.0 == Break(t, stop).value.0;
    } else {
      assert (a + t)[1..] == a[1..] + t;
      assert forall c :: c in a[1..] ==> c in a;
      BreakPrefix(a[1..], t, stop);
      if Break(t, stop).Some? {
        var b := Break(t, stop).value.0;
        assert [a[0]] + (a[1..] + b) == a + b;
      }
    }
  }

  class Cursor {
    const metrics: string
    var pos: nat

    constructor (metrics: string)
      ensures this.metrics == metrics && pos == 0
    {
      this.metrics := metrics;
      pos := 0;
    }

    predicate Valid()
      reads this
    {
      pos <= |metrics|
    }

    /** What has not been read. */
    function Rest(): string
      reads this
      requires Valid()
    {
      metrics[pos..]
    }

    method SkipSpaces()
      requires Valid()
      modifies this
      ensures Valid() && Rest() == SkipSpace(old(Rest()))
    {
      while pos < |metrics| && IsSpace(metrics[pos])
        invariant Valid()
        invariant SkipSpace(Rest()) == SkipSpace(old(Rest()))
      {
        assert Rest()[1..] == metrics[pos + 1..];
        pos := pos + 1;
      }
    }

    /** Moves to the next character of `stop`; `word` is what was passed over. */
    method ScanTo(stop: set<char>) returns (word: Option<string>)
      requires Valid()
      modifies this
      ensures Valid()
      ensures match Break(old(Rest()), stop)
        case None => word == None
        case Some((a, r)) => word == Some(a) && Rest() == r
    {
      var start := pos;
      while pos < |metrics| && metrics[pos] !in stop
        invariant Valid() && start <= pos
        invariant forall c :: c in metrics[start..pos] ==> c !in stop
      {
        assert metrics[start..pos + 1] == metrics[start..pos] + [metrics[pos]];
        pos := pos + 1;
      }
      assert old(Rest()) == metrics[start..pos] + Rest();
      BreakPrefix(metrics[start..pos], Rest(), stop);
      if pos < |metrics| {
        word := Some(metrics[start..pos]);
        assert Break(Rest(), stop) == Some(("", Rest()));
        assert metrics[start..pos] + "" == metrics[start..pos];
      } else {
        word := None;
      }
    }

    /** Reads to the end of the line and over the newline. */
    method ReadLine() returns (line: string)
      requires Valid()
      modifies this
      ensures Valid() && line == Line(old(Rest())).0 && Rest() == Line(old(Rest())).1
    {
      hide Break;
      var start := pos;
      ghost var t := Rest();
      var word := ScanTo({'\n'});
      if word.Some? {
        line := word.value;
        assert Rest()[1..] == metrics[pos + 1..];
        pos := pos + 1;
      } else {
        line := metrics[start..];
        assert line == t;
        pos := |metrics|;
        assert Rest() == "";
      }
    }

    method ReadValue() returns (r: Result<string, ParseError>)
      requires Valid()
      modifies this
      ensures Valid()
      ensures match ParseValue(old(Rest()))
        case Err(e) => r == Err(e)
        case Ok((v, t)) => r == Ok(v) && Rest() == t
    {
      if pos == |metrics| { return Err(UnexpectedEnd); }
      var c := metrics[pos];
      assert Rest()[0] == c && Rest()[1..] == metrics[pos + 1..];
      pos := pos + 1;
      if c == '"' {
        var word := ScanTo({'"'});
        if word == None { return Err(UnexpectedEnd); }
        pos := pos + 1;
        r := Ok("\"" + word.value + "\"");
      } else {
        var word := ScanTo({' ', ',', '}'});
        if word == None { return Err(UnexpectedEnd); }
        r := Ok([c] + word.value);
      }
    }

    method ReadProperty() returns (r: Result<Property, ParseError>)
      requires Valid()
      modifies this
      ensures Valid()
      ensures match ParseProperty(old(Rest()))
        case Err(e) => r == Err(e)
        case Ok((p, t)) => r == Ok(p) && Rest() == t
    {
      hide ParseValue, Break, SkipSpace, SkipComma;
      var key := ScanTo({' ', '='});
      if key == None { return Err(UnexpectedEnd); }
      SkipSpaces();
      if pos == |metrics| || metrics[pos] != '=' { return Err(ExpectedEquals); }
      Step();
      SkipSpaces();
      var v := ReadValue();
      if v.Err? { return Err(v.error); }
      SkipSpaces();
      SkipAComma();
      r := Ok(Property(key.value, v.value));
    }

    method Step()
      requires Valid() && pos < |metrics|
      modifies this
      ensures Valid() && Rest() == old(Rest())[1..]
    {
      assert Rest()[1..] == metrics[pos + 1..];
      pos := pos + 1;
    }

    method SkipAComma()
      requires Valid()
      modifies this
      ensures Valid() && Rest() == SkipComma(old(Rest()))
    {
      if pos < |metrics| && metrics[pos] == ',' { Step(); }
    }

    method ReadProperties() returns (r: Result<seq<Property>, ParseError>)
      requires Valid()
      modifies this
      ensures Valid()
      ensures match ParseProperties(old(Rest()))
        case Err(e) => r == Err(e)
        case Ok((ps, t)) => r == Ok(ps) && Rest() == t
    {
      hide ParseProperty;
      var properties: seq<Property> := [];
      ghost var goal := ParseProperties(Rest());
      PrependNone(goal);
      while true
        invariant Valid()
        invariant goal == PrependPair(properties, ParseProperties(Rest()))
        decreases |metrics| - pos
      {
        if pos == |metrics| { return Err(UnexpectedEnd); }
        if metrics[pos] == '}' {
          assert Rest()[1..] == metrics[pos + 1..];
          pos := pos + 1;
          assert properties + [] == properties;
          return Ok(properties);
        }
        ghost var t := Rest();
        var p := ReadProperty();
        if p.Err? { return Err(p.error); }
        assert ParseProperties(t) == PrependPair([p.value], ParseProperties(Rest()));
        properties := properties + [p.value];
        assert forall ps: seq<Property> :: properties + ps == properties[..|properties| - 1] + ([p.value] + ps);
      }
    }

    method ReadRest(name: string) returns (r: Result<Item, ParseError>)
      requires Valid()
      modifies this
      ensures Valid()
      ensures match ParseRest(name, old(Rest()))
        case Err(e) => r == Err(e)
        case Ok((item, t)) => r == Ok(item) && Rest() == t
    {
      hide ParseProperties, Line, SkipSpace;
      if pos == |metrics| { return Err(UnexpectedEnd); }
      var properties: seq<Property> := [];
      if metrics[pos] == '{' {
        assert Rest()[1..] == metrics[pos + 1..];
        pos := pos + 1;
        SkipSpaces();
        var ps := ReadProperties();
        if ps.Err? { return Err(ps.error); }
        properties := ps.value;
        SkipSpaces();
        if pos == |metrics| { return Err(UnexpectedEnd); }
      }
      var tail := ReadLine();
      r := Ok(Value(name, properties, tail));
    }

    method ReadItem() returns (r: Result<Item, ParseError>)
      requires Valid() && pos < |metrics|
      modifies this
      ensures Valid()
      ensures match ParseItem(old(Rest()))
        case Err(e) => r == Err(e)
        case Ok((item, t)) => r == Ok(item) && Rest() == t
    {
      hide ParseRest, Line, SkipSpace, Break;
      var c := metrics[pos];
      assert Rest()[0] == c && Rest()[1..] == metrics[pos + 1..];
      pos := pos + 1;
      if c == '#' {
        var line := ReadLine();
        return Ok(Comment([c] + line));
      }
      var word := ScanTo({'{', ' '});
      if word == None { return Err(UnexpectedEnd); }
      SkipSpaces();
      r := ReadRest([c] + word.value);
    }

    /** The whole parser. */
    method ReadMetrics() returns (r: Result<seq<Item>, ParseError>)
      requires Valid()
      modifies this
      ensures Valid() && r == Parse(old(Rest()))
    {
      hide ParseItem;
      var items: seq<Item> := [];
      ghost var goal := Parse(Rest());
      assert goal.Ok? ==> [] + goal.value == goal.value;
      while true
        invariant Valid()
        invariant goal == Prepend(items, Parse(Rest()))
        decreases |metrics| - pos
      {
        ghost var t := Rest();
        SkipSpaces();
        if pos == |metrics| {
          assert items + [] == items;
          return Ok(items);
        }
        var item := ReadItem();
        if item.Err? { return Err(item.error); }
        assert Parse(t) == Prepend([item.value], Parse(Rest()));
        items := items + [item.value];
        assert forall more: seq<Item> :: items + more == items[..|items| - 1] + ([item.value] + more);
      }
    }
  }

  /** `parse_metrics`: reads every text to its end or its first error, as `Parse` says. */
  method ParseMetrics(metrics: string) returns (r: Result<seq<Item>, ParseError>)
    ensures r == Parse(metrics)
  {
    var cursor := new Cursor(metrics);
    assert cursor.Rest() == metrics;
    r := cursor.ReadMetrics();
  }

  /** The comma in front of every property but the first. */
  function Separator(properties: seq<Property>, i: nat): string {
    if 0 < i < |properties| then "," else ""
  }

  lemma PrintFrom(properties: seq<Property>, i: nat)
    requires i < |properties|
    ensures Separator(properties, i) + PrintProperties(properties[i..]) ==
      (if i > 0 then "," else "") + properties[i].key + "=" + properties[i].value
        + (Separator(properties, i + 1) + PrintProperties(properties[i + 1..]))
  {
    assert properties[i..][1..] == properties[i + 1..];
  }

  method DisplayProperties(properties: seq<Property>) returns (out: string)
    ensures out == PrintProperties(properties)
  {
    hide PrintProperties, Separator;
    out := "";
    var first := true;
    var i := 0;
    StartAndEnd(properties);
    while i < |properties|
      invariant 0 <= i <= |properties| && first == (i == 0)
      invariant PrintProperties(properties) == out + (Separator(properties, i) + PrintProperties(properties[i..]))
    {
      PrintFrom(properties, i);
      if first { first := false; } else { out := out + ","; }
      out := out + properties[i].key + "=" + properties[i].value;
      i := i + 1;
    }
  }

  lemma StartAndEnd(properties: seq<Property>)
    ensures "" + (Separator(properties, 0) + PrintProperties(properties[0..])) == PrintProperties(properties)
    ensures Separator(properties, |properties|) + PrintProperties(properties[|properties|..]) == ""
  {
    assert properties[0..] == properties;
  }

  /** `Display for MetricItem`. */
  method Display(item: Item) returns (out: string)
    ensures out == Print(item)
  {
    match item {
      case Comment(line) => out := line;
      case Value(name, properties, tail) =>
        out := name;
        if properties != [] {
          var ps := DisplayProperties(properties);
          out := out + "{" + ps + "}";
        }
        out := out + " " + tail;
        assert out == Print(item);
    }
  }
}
