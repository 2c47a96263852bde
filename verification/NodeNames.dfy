/** Names of visited nodes: `num_len`, the exactly filled name buffer, and why the
    table of visited nodes may be keyed by the name alone. */
module NodeNames {

  const TWO_63: int := 0x8000_0000_0000_0000

  /** Object ids are 64-bit signed. */
  type I64 = x: int | -0x8000_0000_0000_0000 <= x < 0x8000_0000_0000_0000

  function DigitChar(d: nat): char
    requires d < 10
  {
    ('0' as int + d) as char
  }

  function Digits(n: nat): string {
    if n < 10 then [DigitChar(n)] else Digits(n / 10) + [DigitChar(n % 10)]
  }

  /** What formatting an integer with `{}` writes. */
  function Decimal(n: int): string {
    if n < 0 then "-" + Digits(-n) else Digits(n)
  }

  /** The table of ranges, one branch per length. */
  function NumLen(n: I64): nat {
    if 0 <= n < 10 then 1
    else if 10 <= n < 100 then 2
    else if 100 <= n < 1000 then 3
    else if 1000 <= n < 10000 then 4
    else if 10000 <= n < 100000 then 5
    else if 100000 <= n < 1000000 then 6
    else if 1000000 <= n < 10000000 then 7
    else if 10000000 <= n < 100000000 then 8
    else if 100000000 <= n < 1000000000 then 9
    else if 1000000000 <= n < 10000000000 then 10
    else if 10000000000 <= n < 100000000000 then 11
    else if 100000000000 <= n < 1000000000000 then 12
    else if 1000000000000 <= n < 10000000000000 then 13
    else if 10000000000000 <= n < 100000000000000 then 14
    else if 100000000000000 <= n < 1000000000000000 then 15
    else if 1000000000000000 <= n < 10000000000000000 then 16
    else if 10000000000000000 <= n < 100000000000000000 then 17
    else if 100000000000000000 <= n < 1000000000000000000 then 18
    else if 1000000000000000000 <= n <= 9223372036854775807 then 19
    else if -9 <= n < 0 then 2
    else if -99 <= n <= -10 then 3
    else if -999 <= n <= -100 then 4
    else if -9999 <= n <= -1000 then 5
    else if -99999 <= n <= -10000 then 6
    else if -999999 <= n <= -100000 then 7
    else if -9999999 <= n <= -1000000 then 8
    else if -99999999 <= n <= -10000000 then 9
    else if -999999999 <= n <= -100000000 then 10
    else if -9999999999 <= n <= -1000000000 then 11
    else if -99999999999 <= n <= -10000000000 then 12
    else if -999999999999 <= n <= -100000000000 then 13
    else if -9999999999999 <= n <= -1000000000000 then 14
    else if -99999999999999 <= n <= -10000000000000 then 15
    else if -999999999999999 <= n <= -100000000000000 then 16
    else if -9999999999999999 <= n <= -1000000000000000 then 17
    else if -99999999999999999 <= n <= -10000000000000000 then 18
    else if -999999999999999999 <= n <= -100000000000000000 then 19
    else 20
  }

  lemma {:induction false} NumLenNonNegative(n: I64)
    requires 0 <= n
    ensures NumLen(n) == |Digits(n)|
  {
    if n >= 10 {
      NumLenNonNegative(n / 10);
      assert NumLen(n) == NumLen(n / 10) + 1;
    }
  }

  /** `num_len` is the decimal length for every 64-bit integer. */
  lemma {:induction false} NumLenIsDecimalLength(n: I64)
    ensures NumLen(n) == |Decimal(n)|
  {
    if n >= 0 {
      NumLenNonNegative(n);
    } else if n == -TWO_63 {
      NumLenNonNegative(TWO_63 / 10);
    } else {
      NumLenNonNegative(-n);
      assert NumLen(n) == NumLen(-n) + 1;
    }
  }

  function Joined(prefix: seq<I64>): string {
    if prefix == [] then "" else Decimal(prefix[0]) + "." + Joined(prefix[1..])
  }

  /** The name of object `id` visited under `prefix`; an empty prefix is written as a dot. */
  function NodeName(prefix: seq<I64>, id: I64): string {
    (if prefix == [] then "." else Joined(prefix)) + Decimal(id)
  }

  // ---------------------------------------------------------------- injectivity

  lemma {:induction false} DigitsAreDigits(n: nat)
    ensures |Digits(n)| > 0
    ensures forall c :: c in Digits(n) ==> '0' <= c <= '9'
  {
    if n >= 10 {
      DigitsAreDigits(n / 10);
    }
  }

  lemma {:induction false} DigitsInjective(m: nat, n: nat)
    requires Digits(m) == Digits(n)
    ensures m == n
  {
    DigitsAreDigits(m / 10);
    DigitsAreDigits(n / 10);
    var s, t := Digits(m), Digits(n);
    assert s[|s| - 1] == DigitChar(m % 10) && t[|t| - 1] == DigitChar(n % 10);
    if m >= 10 && n >= 10 {
      assert s[..|s| - 1] == Digits(m / 10) && t[..|t| - 1] == Digits(n / 10);
      DigitsInjective(m / 10, n / 10);
    }
  }

  lemma DecimalShape(n: int)
    ensures |Decimal(n)| > 0 && '.' !in Decimal(n)
    ensures Decimal(n)[0] == '-' <==> n < 0
  {
    DigitsAreDigits(if n < 0 then -n else n);
    assert n >= 0 ==> Decimal(n)[0] in Digits(n);
  }

  lemma DecimalInjective(m: int, n: int)
    requires Decimal(m) == Decimal(n)
    ensures m == n
  {
    DecimalShape(m);
    DecimalShape(n);
    if m < 0 {
      assert Decimal(m)[1..] == Digits(-m) && Decimal(n)[1..] == Digits(-n);
      DigitsInjective(-m, -n);
    } else {
      DigitsInjective(m, n);
    }
  }

  /** The first dot splits a string in one way only. */
  lemma SplitAtDot(a: string, r: string, b: string, s: string)
    requires '.' !in a && '.' !in b
    requires a + "." + r == b + "." + s
    ensures a == b && r == s
  {
    var x := a + "." + r;
    assert x[|a|] == '.' && x[|b|] == '.';
    assert forall k :: 0 <= k < |a| ==> x[k] == a[k] && a[k] in a;
    assert forall k :: 0 <= k < |b| ==> x[k] == b[k] && b[k] in b;
    assert a == x[..|a|] && b == x[..|b|];
    assert r == x[|a| + 1..] && s == x[|b| + 1..];
  }

  lemma HasDotIffPrefixed(p: seq<I64>, i: I64)
    ensures '.' in Joined(p) + Decimal(i) <==> p != []
  {
    DecimalShape(i);
    if p == [] {
      assert Joined(p) + Decimal(i) == Decimal(i);
    } else {
      assert (Joined(p) + Decimal(i))[|Decimal(p[0])|] == '.';
    }
  }

  lemma JoinedUnfold(p: seq<I64>, i: I64)
    requires p != []
    ensures Joined(p) + Decimal(i) == Decimal(p[0]) + "." + (Joined(p[1..]) + Decimal(i))
  {
    assert Joined(p) == Decimal(p[0]) + "." + Joined(p[1..]);
  }

  lemma {:induction false} JoinedInjective(p: seq<I64>, i: I64, q: seq<I64>, j: I64)
    requires Joined(p) + Decimal(i) == Joined(q) + Decimal(j)
    ensures p == q && i == j
    decreases |p| + |q|
  {
    HasDotIffPrefixed(p, i);
    HasDotIffPrefixed(q, j);
    if p == [] {
      assert Joined(p) + Decimal(i) == Decimal(i) && Joined(q) + Decimal(j) == Decimal(j);
      DecimalInjective(i, j);
    } else {
      JoinedUnfold(p, i);
      JoinedUnfold(q, j);
      DecimalShape(p[0]);
      DecimalShape(q[0]);
      SplitAtDot(Decimal(p[0]), Joined(p[1..]) + Decimal(i), Decimal(q[0]), Joined(q[1..]) + Decimal(j));
      DecimalInjective(p[0], q[0]);
      JoinedInjective(p[1..], i, q[1..], j);
      assert p == [p[0]] + p[1..] && q == [q[0]] + q[1..];
    }
  }

  lemma DotFirstIffTop(p: seq<I64>, i: I64)
    ensures NodeName(p, i) != "" && (NodeName(p, i)[0] == '.' <==> p == [])
  {
    if p != [] {
      DecimalShape(p[0]);
      assert NodeName(p, i)[0] == Decimal(p[0])[0] && Decimal(p[0])[0] in Decimal(p[0]);
    }
  }

  /** Distinct (prefix, id) pairs have distinct names. */
  lemma NodeNameInjective(p: seq<I64>, i: I64, q: seq<I64>, j: I64)
    requires NodeName(p, i) == NodeName(q, j)
    ensures p == q && i == j
  {
    DotFirstIffTop(p, i);
    DotFirstIffTop(q, j);
    if p == [] {
      assert Decimal(i) == NodeName(p, i)[1..] == NodeName(q, j)[1..] == Decimal(j);
      DecimalInjective(i, j);
    } else {
      JoinedInjective(p, i, q, j);
    }
  }

  // ---------------------------------------------------------------- the name buffer

  /** The cursor `&mut [u8]` that `write!` advances over the allocated slice. */
  class NameBuffer {
    const bytes: array<char>
    var written: nat

    function Text(): string
      requires written <= bytes.Length
      reads this, bytes
    {
      bytes[..written]
    }

    constructor (length: nat)
      ensures fresh(bytes) && bytes.Length == length && written == 0
      ensures forall k :: 0 <= k < length ==> bytes[k] == '\0'
    {
      bytes := new char[length](_ => '\0');
      written := 0;
    }

    /** Writes all of `text`, or reports failure when it does not fit. */
    method Write(text: string) returns (ok: bool)
      requires written <= bytes.Length
      modifies this, bytes
      ensures written <= bytes.Length
      ensures ok == (old(written) + |text| <= bytes.Length)
      ensures ok ==> written == old(written) + |text|
      ensures ok ==> Text() == old(Text()) + text
    {
      if written + |text| > bytes.Length {
        written := bytes.Length;
        return false;
      }
      var start := written;
      for k := 0 to |text|
        invariant start == old(written)
        invariant bytes[..start + k] == old(bytes[..written]) + text[..k]
      {
        bytes[start + k] := text[k];
        assert text[..k + 1] == text[..k] + [text[k]];
        assert bytes[..start + k + 1] == bytes[..start + k] + [text[k]];
      }
      assert text[..|text|] == text;
      written := start + |text|;
      ok := true;
    }
  }

  function SumLengths(prefix: seq<I64>): nat {
    if prefix == [] then 0 else NumLen(prefix[0]) + 1 + SumLengths(prefix[1..])
  }

  lemma {:induction false} SumLengthsIsJoined(prefix: seq<I64>)
    ensures SumLengths(prefix) == |Joined(prefix)|
  {
    if prefix != [] {
      NumLenIsDecimalLength(prefix[0]);
      SumLengthsIsJoined(prefix[1..]);
    }
  }

  lemma {:induction false} JoinedSnoc(prefix: seq<I64>, v: I64)
    ensures Joined(prefix + [v]) == Joined(prefix) + Decimal(v) + "."
  {
    if prefix == [] {
      assert [v][1..] == [];
    } else {
      assert (prefix + [v])[1..] == prefix[1..] + [v];
      JoinedSnoc(prefix[1..], v);
    }
  }

  lemma {:induction false} JoinedPrefixLength(prefix: seq<I64>, k: nat)
    requires k <= |prefix|
    ensures |Joined(prefix[..k])| <= |Joined(prefix)|
    decreases |prefix| - k
  {
    if k < |prefix| {
      assert prefix[..k + 1] == prefix[..k] + [prefix[k]];
      JoinedSnoc(prefix[..k], prefix[k]);
      JoinedPrefixLength(prefix, k + 1);
    } else {
      assert prefix[..k] == prefix;
    }
  }

  lemma SumLengthsSnoc(prefix: seq<I64>, k: nat)
    requires k < |prefix|
    ensures Joined(prefix[..k + 1]) == Joined(prefix[..k]) + (Decimal(prefix[k]) + ".")
    ensures |Joined(prefix[..k + 1])| <= SumLengths(prefix)
  {
    assert prefix[..k + 1] == prefix[..k] + [prefix[k]];
    JoinedSnoc(prefix[..k], prefix[k]);
    JoinedPrefixLength(prefix, k + 1);
    SumLengthsIsJoined(prefix);
  }

  /** The length of the buffer that `visit` allocates. */
  method NameLength(prefix: seq<I64>, id: I64) returns (length: nat)
    ensures length == |NodeName(prefix, id)|
  {
    length := 0;
    for k := 0 to |prefix|
      invariant length + SumLengths(prefix[k..]) == SumLengths(prefix)
    {
      length := length + NumLen(prefix[k]) + 1;
    }
    length := length + NumLen(id) + (if prefix == [] then 1 else 0);
    SumLengthsIsJoined(prefix);
    NumLenIsDecimalLength(id);
  }

  function Head(prefix: seq<I64>): string {
    if prefix == [] then "." else ""
  }

  /** What is written once `k` of the prefix are. */
  function Begun(prefix: seq<I64>, k: nat): string
    requires k <= |prefix|
  {
    Head(prefix) + Joined(prefix[..k])
  }

  lemma BegunEnds(prefix: seq<I64>)
    ensures Begun(prefix, 0) == Head(prefix) && Begun(prefix, |prefix|) == Head(prefix) + Joined(prefix)
  {
    assert prefix[..|prefix|] == prefix;
  }

  lemma BegunNext(prefix: seq<I64>, k: nat)
    requires k < |prefix|
    ensures Begun(prefix, k + 1) == Begun(prefix, k) + (Decimal(prefix[k]) + ".")
    ensures |Begun(prefix, k + 1)| <= |Head(prefix)| + SumLengths(prefix)
  {
    hide Joined, SumLengths, Decimal;
    SumLengthsSnoc(prefix, k);
  }

  method WritePrefix(buffer: NameBuffer, prefix: seq<I64>) returns (ok: bool)
    requires buffer.written == 0 && |Head(prefix)| + SumLengths(prefix) <= buffer.bytes.Length
    modifies buffer, buffer.bytes
    ensures ok && buffer.written <= buffer.bytes.Length
    ensures buffer.Text() == Head(prefix) + Joined(prefix)
  {
    hide Joined, SumLengths, Begun, Decimal;
    ok := true;
    BegunEnds(prefix);
    if prefix == [] {
      ok := buffer.Write(".");
    }
    for k := 0 to |prefix|
      invariant ok && buffer.written <= buffer.bytes.Length
      invariant buffer.Text() == Begun(prefix, k)
    {
      BegunNext(prefix, k);
      assert |buffer.Text()| == buffer.written;
      ok := buffer.Write(Decimal(prefix[k]) + ".");
    }
  }

  lemma NameParts(prefix: seq<I64>, id: I64)
    ensures NodeName(prefix, id) == Head(prefix) + Joined(prefix) + Decimal(id)
    ensures |Head(prefix)| + SumLengths(prefix) + |Decimal(id)| == |NodeName(prefix, id)|
  {
    SumLengthsIsJoined(prefix);
    if prefix == [] { assert "." + "" == "."; }
  }

  /** The head of `visit`: no write fails, and the buffer of the computed length is filled
      to its last byte, so no zero padding is left in a name. */
  method BuildName(prefix: seq<I64>, id: I64) returns (name: string, filled: bool)
    ensures filled
    ensures name == NodeName(prefix, id)
  {
    hide Joined, SumLengths, Decimal, NodeName;
    var length := NameLength(prefix, id);
    var buffer := new NameBuffer(length);
    NameParts(prefix, id);
    var ok := WritePrefix(buffer, prefix);
    if ok {
      ok := buffer.Write(Decimal(id));
    }
    filled := ok && buffer.written == length;
    name := buffer.bytes[..];
    assert buffer.bytes[..length] == buffer.bytes[..];
  }
}
