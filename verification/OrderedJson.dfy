/** JSON values whose objects keep the order of their fields, and the order `json_cmp` on them. */
module OrderedJson {
  import opened Orders

  /** A number is an integer in the range of 64 bits, signed or not, or a finite float. */
  datatype Number = Float(float: real) | Integer(integer: int)

  datatype Json =
    | Null
    | Bool(flag: bool)
    | Num(number: Number)
    | Str(text: string)
    | Arr(items: seq<Json>)
    | Obj(fields: Fields)

  datatype Field = Field(key: string, value: Json)

  type Fields = seq<Field>

  /** What a JSON value says, without the order of fields. */
  datatype Value =
    | NullValue
    | BoolValue(flag: bool)
    | NumValue(number: Number)
    | StrValue(text: string)
    | ArrValue(items: seq<Value>)
    | ObjValue(fields: map<string, Value>)

  function Meaning(j: Json): Value {
    match j
    case Null => NullValue
    case Bool(b) => BoolValue(b)
    case Num(n) => NumValue(n)
    case Str(t) => StrValue(t)
    case Arr(items) => ArrValue(MeaningOfItems(items))
    case Obj(fields) => ObjValue(MeaningOf(fields))
  }

  function MeaningOfItems(items: seq<Json>): seq<Value> {
    if items == [] then [] else [Meaning(items[0])] + MeaningOfItems(items[1..])
  }

  function MeaningOf(fields: Fields): map<string, Value> {
    if fields == [] then map[] else MeaningOf(fields[1..])[fields[0].key := Meaning(fields[0].value)]
  }

  // ---------------------------------------------------------------- the order

  function Rank(j: Json): int {
    match j
    case Null => 0
    case Bool(_) => 1
    case Num(_) => 2
    case Str(_) => 3
    case Arr(_) => 4
    case Obj(_) => 5
  }

  const I64_MAX: int := 0x7FFF_FFFF_FFFF_FFFF

  /** Floats, then integers that need all 64 bits unsigned, then the others. */
  function NumberRank(n: Number): int {
    match n
    case Float(_) => 0
    case Integer(i) => if i > I64_MAX then 1 else 2
  }

  function CompareReal(a: real, b: real): Ordering {
    if a < b then Less else if a == b then Equal else Greater
  }

  function CompareNumber(l: Number, r: Number): Ordering {
    if l.Float? && r.Float? then CompareReal(l.float, r.float)
    else if NumberRank(l) == NumberRank(r) then CompareInt(l.integer, r.integer)
    else CompareInt(NumberRank(l), NumberRank(r))
  }

  function CompareBool(l: bool, r: bool): Ordering {
    if l == r then Equal else if r then Less else Greater
  }

  function JsonCmp(l: Json, r: Json): Ordering
    decreases l
  {
    match (l, r)
    case (Bool(a), Bool(b)) => CompareBool(a, b)
    case (Num(a), Num(b)) => CompareNumber(a, b)
    case (Str(a), Str(b)) => CompareText(a, b)
    case (Arr(a), Arr(b)) => CompareItems(a, b)
    case (Obj(a), Obj(b)) => CompareFields(a, b)
    case _ => CompareInt(Rank(l), Rank(r))
  }

  /** Item by item; a longer list comes after its beginning. */
  function CompareItems(l: seq<Json>, r: seq<Json>): Ordering
    decreases l
  {
    if l == [] || r == [] then CompareInt(|l|, |r|)
    else JsonCmp(l[0], r[0]).Then(CompareItems(l[1..], r[1..]))
  }

  /** Field by field in the order in which they stand. */
  function CompareFields(l: Fields, r: Fields): Ordering
    decreases l
  {
    if l == [] || r == [] then CompareInt(|l|, |r|)
    else CompareText(l[0].key, r[0].key).Then(JsonCmp(l[0].value, r[0].value)).Then(CompareFields(l[1..], r[1..]))
  }

  // ---------------------------------------------------------------- which order it is

  /** Null, booleans, numbers, strings, arrays, objects. */
  lemma KindsAscend(b: bool, n: Number, t: string, items: seq<Json>, fields: Fields)
    ensures JsonCmp(Null, Bool(b)) == Less && JsonCmp(Bool(b), Num(n)) == Less && JsonCmp(Num(n), Str(t)) == Less
    ensures JsonCmp(Str(t), Arr(items)) == Less && JsonCmp(Arr(items), Obj(fields)) == Less
    ensures JsonCmp(Bool(false), Bool(true)) == Less
  {
  }

  /** Numbers by value only within their kind: floats, then integers above the signed range, then the others. */
  lemma NumbersAscend(f: real, big: int, i: int, j: int)
    requires i < j <= 0x7FFF_FFFF_FFFF_FFFF < big
    ensures JsonCmp(Num(Float(f)), Num(Integer(big))) == Less && JsonCmp(Num(Integer(big)), Num(Integer(j))) == Less
    ensures JsonCmp(Num(Integer(i)), Num(Integer(j))) == Less
    ensures JsonCmp(Num(Integer(big)), Num(Integer(big + 1))) == Less
    ensures JsonCmp(Num(Float(f)), Num(Float(f + 1.0))) == Less
  {
  }

  /** The first difference decides, and a beginning comes before what it begins. */
  lemma {:induction false} FirstItemDecides(p: seq<Json>, l: Json, r: Json, a: seq<Json>, b: seq<Json>)
    requires JsonCmp(l, r) != Equal
    ensures JsonCmp(Arr(p + [l] + a), Arr(p + [r] + b)) == JsonCmp(l, r)
    ensures JsonCmp(Arr(p), Arr(p + [l] + a)) == Less
    decreases |p|
  {
    if p != [] {
      FirstItemDecides(p[1..], l, r, a, b);
      CmpEqual(p[0], p[0]);
      assert (p + [l] + a)[1..] == p[1..] + [l] + a && (p + [r] + b)[1..] == p[1..] + [r] + b;
    }
  }

  /** The same for objects: at the first difference the key counts, then the value. */
  lemma {:induction false} FirstFieldDecides(p: Fields, l: Field, r: Field, a: Fields, b: Fields)
    requires l != r
    ensures JsonCmp(Obj(p + [l] + a), Obj(p + [r] + b)) ==
      if l.key != r.key then CompareText(l.key, r.key) else JsonCmp(l.value, r.value)
    ensures JsonCmp(Obj(p), Obj(p + [l] + a)) == Less
    decreases |p|
  {
    TextEqual(l.key, r.key);
    CmpEqual(l.value, r.value);
    if p != [] {
      FirstFieldDecides(p[1..], l, r, a, b);
      TextEqual(p[0].key, p[0].key);
      CmpEqual(p[0].value, p[0].value);
      assert (p + [l] + a)[1..] == p[1..] + [l] + a && (p + [r] + b)[1..] == p[1..] + [r] + b;
    }
  }

  // ---------------------------------------------------------------- it is a total order

  lemma {:induction false} CmpFlips(l: Json, r: Json)
    ensures JsonCmp(r, l) == Flip(JsonCmp(l, r))
    decreases l
  {
    match (l, r) {
      case (Str(a), Str(b)) => TextFlips(a, b);
      case (Arr(a), Arr(b)) => ItemsFlip(a, b);
      case (Obj(a), Obj(b)) => FieldsFlip(a, b);
      case _ =>
    }
  }

  lemma {:induction false} ItemsFlip(l: seq<Json>, r: seq<Json>)
    ensures CompareItems(r, l) == Flip(CompareItems(l, r))
    decreases l
  {
    if l != [] && r != [] {
      CmpFlips(l[0], r[0]);
      ItemsFlip(l[1..], r[1..]);
    }
  }

  lemma {:induction false} FieldsFlip(l: Fields, r: Fields)
    ensures CompareFields(r, l) == Flip(CompareFields(l, r))
    decreases l
  {
    if l != [] && r != [] {
      TextFlips(l[0].key, r[0].key);
      CmpFlips(l[0].value, r[0].value);
      FieldsFlip(l[1..], r[1..]);
    }
  }

  /** Only identical values are equal in the order: the order of fields counts. */
  lemma {:induction false} CmpEqual(l: Json, r: Json)
    ensures JsonCmp(l, r) == Equal <==> l == r
    decreases l
  {
    match (l, r) {
      case (Str(a), Str(b)) => TextEqual(a, b);
      case (Arr(a), Arr(b)) => ItemsEqual(a, b);
      case (Obj(a), Obj(b)) => FieldsEqual(a, b);
      case _ =>
    }
  }

  lemma {:induction false} ItemsEqual(l: seq<Json>, r: seq<Json>)
    ensures CompareItems(l, r) == Equal <==> l == r
    decreases l
  {
    if l != [] && r != [] {
      CmpEqual(l[0], r[0]);
      ItemsEqual(l[1..], r[1..]);
      assert l == [l[0]] + l[1..] && r == [r[0]] + r[1..];
    }
  }

  lemma {:induction false} FieldsEqual(l: Fields, r: Fields)
    ensures CompareFields(l, r) == Equal <==> l == r
    decreases l
  {
    if l != [] && r != [] {
      TextEqual(l[0].key, r[0].key);
      CmpEqual(l[0].value, r[0].value);
      FieldsEqual(l[1..], r[1..]);
      assert l == [l[0]] + l[1..] && r == [r[0]] + r[1..];
    }
  }

  lemma {:induction false} CmpTransitive(a: Json, b: Json, c: Json)
    requires JsonCmp(a, b) != Greater && JsonCmp(b, c) != Greater
    ensures JsonCmp(a, c) != Greater
    decreases a
  {
    match (a, b, c) {
      case (Str(x), Str(y), Str(z)) => TextTransitive(x, y, z);
      case (Arr(x), Arr(y), Arr(z)) => ItemsTransitive(x, y, z);
      case (Obj(x), Obj(y), Obj(z)) => FieldsTransitive(x, y, z);
      case _ =>
    }
  }

  lemma {:induction false} ItemsTransitive(a: seq<Json>, b: seq<Json>, c: seq<Json>)
    requires CompareItems(a, b) != Greater && CompareItems(b, c) != Greater
    ensures CompareItems(a, c) != Greater
    decreases a
  {
    if a != [] && b != [] && c != [] {
      CmpTransitive(a[0], b[0], c[0]);
      CmpEqual(a[0], b[0]);
      CmpEqual(b[0], c[0]);
      CmpEqual(a[0], c[0]);
      CmpFlips(a[0], b[0]);
      if a[0] == b[0] == c[0] { ItemsTransitive(a[1..], b[1..], c[1..]); }
    }
  }

  lemma {:induction false} FieldsTransitive(a: Fields, b: Fields, c: Fields)
    requires CompareFields(a, b) != Greater && CompareFields(b, c) != Greater
    ensures CompareFields(a, c) != Greater
    decreases a
  {
    if a != [] && b != [] && c != [] {
      var (x, y, z) := (a[0], b[0], c[0]);
      TextTransitive(x.key, y.key, z.key);
      TextEqual(x.key, y.key);
      TextEqual(y.key, z.key);
      TextFlips(x.key, y.key);
      if x.key == y.key == z.key {
        CmpTransitive(x.value, y.value, z.value);
        CmpEqual(x.value, y.value);
        CmpEqual(y.value, z.value);
        CmpEqual(x.value, z.value);
        CmpFlips(x.value, y.value);
        if x.value == y.value == z.value { FieldsTransitive(a[1..], b[1..], c[1..]); }
      }
    }
  }

  /** `json_cmp` is a total order on JSON values as they are written. */
  lemma JsonCmpIsTotalOrder(a: Json, b: Json, c: Json)
    ensures JsonCmp(b, a) == Flip(JsonCmp(a, b))
    ensures JsonCmp(a, b) == Equal <==> a == b
    ensures JsonCmp(a, b) != Greater && JsonCmp(b, c) != Greater ==> JsonCmp(a, c) != Greater
  {
    CmpFlips(a, b);
    CmpEqual(a, b);
    if JsonCmp(a, b) != Greater && JsonCmp(b, c) != Greater { CmpTransitive(a, b, c); }
  }

  /** It is not an order on what they say: equal objects compare as different when their fields
      stand in another order. */
  lemma SameMeaningDifferentOrder(x: string, y: string, a: Json, b: Json)
    requires x != y
    ensures var l, r := Obj([Field(x, a), Field(y, b)]), Obj([Field(y, b), Field(x, a)]);
      Meaning(l) == Meaning(r) && JsonCmp(l, r) != Equal
  {
    var f, g := Field(x, a), Field(y, b);
    var l, r := [f, g], [g, f];
    CmpEqual(Obj(l), Obj(r));
    assert l[0] != r[0];
    assert l[1..] == [g] && r[1..] == [f] && [g][1..] == [] && [f][1..] == [];
    assert MeaningOf([g]) == map[y := Meaning(b)] && MeaningOf([f]) == map[x := Meaning(a)];
    assert MeaningOf(l) == MeaningOf(r);
  }
}
