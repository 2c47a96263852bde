/** The natural order of names: runs of digits compare as numbers, all else by character. */
module NaturalOrder {
  import opened Orders
  import NodeNames

  const WIDTH: nat := 0x1_0000_0000

  predicate IsDigit(c: char) {
    '0' <= c <= '9'
  }

  function DigitValue(c: char): nat
    requires IsDigit(c)
  {
    c as int - '0' as int
  }

  /** How many digits the text begins with. */
  function DigitRun(s: string): (n: nat)
    ensures n <= |s| && (forall k :: 0 <= k < n ==> IsDigit(s[k])) && (n < |s| ==> !IsDigit(s[n]))
    ensures s != "" && IsDigit(s[0]) ==> n > 0
  {
    if s == "" || !IsDigit(s[0]) then 0 else 1 + DigitRun(s[1..])
  }

  /** The number the digits stand for. */
  function Value(digits: string): nat
    requires forall k :: 0 <= k < |digits| ==> IsDigit(digits[k])
  {
    if digits == "" then 0 else Value(digits[..|digits| - 1]) * 10 + DigitValue(digits[|digits| - 1])
  }

  /** A token as a number: a character by its code, a digit run between '/' and ':' by its value
      modulo 2^32. */
  function Tokens(s: string): seq<int>
    decreases |s|
  {
    if s == "" then []
    else if IsDigit(s[0]) then
      [('0' as int) * WIDTH + Value(s[..DigitRun(s)]) % WIDTH] + Tokens(s[DigitRun(s)..])
    else [s[0] as int * WIDTH] + Tokens(s[1..])
  }

  function Compare(left: string, right: string): Ordering {
    Lex(Tokens(left), Tokens(right))
  }

  const DIGITS: string := "0123456789"

  /** The digits are the ten decimal ones, each with its value. */
  lemma DigitsAreDecimal(c: char)
    ensures IsDigit(c) <==> c in DIGITS
    ensures IsDigit(c) ==> DigitValue(c) < 10 && DIGITS[DigitValue(c)] == c
  {
    assert DIGITS == ['0', '1', '2', '3', '4', '5', '6', '7', '8', '9'];
    if IsDigit(c) { assert DIGITS[DigitValue(c)] == c; }
  }

  // ---------------------------------------------------------------- it is an order

  /** A total preorder; names are equal in it exactly when their tokens are the same. */
  lemma CompareIsPreorder(a: string, b: string, c: string)
    ensures Compare(a, a) == Equal
    ensures Compare(b, a) == Flip(Compare(a, b))
    ensures Compare(a, b) != Greater && Compare(b, c) != Greater ==> Compare(a, c) != Greater
    ensures Compare(a, b) == Equal <==> Tokens(a) == Tokens(b)
  {
    LexEqual(Tokens(a), Tokens(a));
    LexEqual(Tokens(a), Tokens(b));
    LexFlips(Tokens(a), Tokens(b));
    if Compare(a, b) != Greater && Compare(b, c) != Greater { LexTransitive(Tokens(a), Tokens(b), Tokens(c)); }
  }

  // ---------------------------------------------------------------- it is the natural one

  predicate AllDigits(s: string) {
    forall k :: 0 <= k < |s| ==> IsDigit(s[k])
  }

  /** The text does not go on with a digit. */
  predicate NoDigitNext(s: string) {
    s != "" ==> !IsDigit(s[0])
  }

  lemma {:induction false} RunOf(digits: string, rest: string)
    requires AllDigits(digits) && NoDigitNext(rest)
    ensures DigitRun(digits + rest) == |digits|
  {
    if digits == "" {
      assert digits + rest == rest;
    } else {
      assert (digits + rest)[1..] == digits[1..] + rest;
      RunOf(digits[1..], rest);
    }
  }

  lemma NumberFirst(digits: string, rest: string)
    requires digits != "" && AllDigits(digits) && NoDigitNext(rest)
    ensures Tokens(digits + rest) == [('0' as int) * WIDTH + Value(digits) % WIDTH] + Tokens(rest)
  {
    RunOf(digits, rest);
    var s := digits + rest;
    assert s[0] == digits[0] && s[..|digits|] == digits && s[|digits|..] == rest;
  }

  lemma CommonCharacter(c: char, a: string, b: string)
    requires !IsDigit(c)
    ensures Compare([c] + a, [c] + b) == Compare(a, b)
  {
    CharacterFirst(c, a);
    CharacterFirst(c, b);
  }

  lemma CharacterFirst(c: char, a: string)
    requires !IsDigit(c)
    ensures Tokens([c] + a) == [c as int * WIDTH] + Tokens(a)
  {
    assert ([c] + a)[1..] == a && ([c] + a)[0] == c;
  }

  lemma RunBegins(s: string) returns (n: nat)
    requires s != "" && IsDigit(s[0]) && !IsDigit(s[|s| - 1])
    ensures 0 < n < |s| && AllDigits(s[..n]) && !IsDigit(s[n])
  {
    n := DigitRun(s);
  }

  /** Behind a common beginning that does not end in a digit, two numbers decide by their values
      below 2^32, and what follows decides when those are equal. */
  lemma {:induction false} NumbersDecide(begin: string, d1: string, rest1: string, d2: string, rest2: string)
    requires begin != "" ==> !IsDigit(begin[|begin| - 1])
    requires d1 != "" && AllDigits(d1) && NoDigitNext(rest1) && d2 != "" && AllDigits(d2) && NoDigitNext(rest2)
    ensures Compare(begin + d1 + rest1, begin + d2 + rest2) ==
      if Value(d1) % WIDTH != Value(d2) % WIDTH then CompareInt(Value(d1) % WIDTH, Value(d2) % WIDTH)
      else Compare(rest1, rest2)
    decreases |begin|
  {
    hide Value, DigitRun, Tokens;
    var s1, s2 := d1 + rest1, d2 + rest2;
    if begin == "" {
      NumberFirst(d1, rest1);
      NumberFirst(d2, rest2);
      assert begin + d1 + rest1 == s1 && begin + d2 + rest2 == s2;
    } else if IsDigit(begin[0]) {
      var n := RunBegins(begin);
      var run, more := begin[..n], begin[n..];
      assert begin == run + more && more != "";
      NumberFirst(run, more + s1);
      NumberFirst(run, more + s2);
      assert begin + d1 + rest1 == run + (more + s1) && begin + d2 + rest2 == run + (more + s2);
      NumbersDecide(more, d1, rest1, d2, rest2);
      assert more + d1 + rest1 == more + s1 && more + d2 + rest2 == more + s2;
    } else {
      var more := begin[1..];
      assert begin + d1 + rest1 == [begin[0]] + (more + d1 + rest1);
      assert begin + d2 + rest2 == [begin[0]] + (more + d2 + rest2);
      CommonCharacter(begin[0], more + d1 + rest1, more + d2 + rest2);
      NumbersDecide(more, d1, rest1, d2, rest2);
    }
  }

  lemma NothingCompares()
    ensures Compare("", "") == Equal
  {
  }

  lemma ModWidth(a: nat, b: nat)
    ensures a < WIDTH ==> a % WIDTH == a
    ensures b < WIDTH ==> b % WIDTH == b
    ensures a == b + WIDTH ==> a % WIDTH == b % WIDTH
  {
    ModAdds(b, 1);
  }

  /** So numbers below 2^32 sort by value, and numbers 2^32 apart are not told apart. */
  lemma NumbersAlone(d1: string, d2: string)
    requires d1 != "" && AllDigits(d1) && d2 != "" && AllDigits(d2)
    ensures Value(d1) < WIDTH && Value(d2) < WIDTH ==> Compare(d1, d2) == CompareInt(Value(d1), Value(d2))
    ensures Value(d1) == Value(d2) + WIDTH ==> Compare(d1, d2) == Equal
  {
    NothingCompares();
    hide Tokens, DigitRun, Value, Compare;
    ModWidth(Value(d1), Value(d2));
    NumbersDecide("", d1, "", d2, "");
    assert "" + d1 + "" == d1 && "" + d2 + "" == d2;
  }

  /** A printed number is read back, and zeros before it make no difference. */
  lemma {:induction false} PrintedIsRead(n: nat)
    ensures AllDigits(NodeNames.Digits(n)) && NodeNames.Digits(n) != "" && Value(NodeNames.Digits(n)) == n
  {
    if n >= 10 {
      PrintedIsRead(n / 10);
      var init := NodeNames.Digits(n / 10);
      assert NodeNames.Digits(n)[..|init|] == init;
    }
  }

  lemma {:induction false} ZerosDoNotCount(digits: string)
    requires AllDigits(digits)
    ensures AllDigits("0" + digits) && Value("0" + digits) == Value(digits)
    decreases |digits|
  {
    var zero := "0" + digits;
    if digits != "" {
      ZerosDoNotCount(digits[..|digits| - 1]);
      assert zero[..|zero| - 1] == "0" + digits[..|digits| - 1];
    }
  }

  /** So printed numbers below 2^32 sort by value. */
  lemma PrintedSortByValue(m: nat, n: nat)
    requires m < 0x1_0000_0000 && n < 0x1_0000_0000
    ensures Compare(NodeNames.Digits(m), NodeNames.Digits(n)) == CompareInt(m, n)
  {
    PrintedIsRead(m);
    PrintedIsRead(n);
    NumbersAlone(NodeNames.Digits(m), NodeNames.Digits(n));
  }

  // ---------------------------------------------------------------- the code

  /** Reads the digits at `i`, in 32-bit arithmetic that wraps. */
  method ReadNumber(s: string, i: nat) returns (n: nat, j: nat)
    requires i <= |s|
    ensures i <= j <= |s| && j == i + DigitRun(s[i..]) && AllDigits(s[i..j]) && n == Value(s[i..j]) % WIDTH
  {
    n, j := 0, i;
    while j < |s| && IsDigit(s[j])
      invariant i <= j <= |s| && AllDigits(s[i..j])
      invariant n == Value(s[i..j]) % WIDTH
    {
      assert s[i..j + 1] == s[i..j] + [s[j]];
      assert s[i..j + 1][..|s[i..j + 1]| - 1] == s[i..j];
      WrapStep(Value(s[i..j]), DigitValue(s[j]));
      n := (n * 10 + DigitValue(s[j])) % WIDTH;
      j := j + 1;
    }
    assert s[i..] == s[i..j] + s[j..];
    RunOf(s[i..j], s[j..]);
  }

  lemma WrapStep(v: nat, d: nat)
    ensures (v % WIDTH * 10 + d) % WIDTH == (v * 10 + d) % WIDTH
  {
    var q := v / WIDTH;
    assert v * 10 + d == v % WIDTH * 10 + d + 10 * q * WIDTH;
    ModAdds(v % WIDTH * 10 + d, 10 * q);
  }

  lemma {:induction false} ModAdds(a: nat, k: nat)
    ensures (a + k * WIDTH) % WIDTH == a % WIDTH
    decreases k
  {
    if k > 0 {
      assert a + k * WIDTH == a + (k - 1) * WIDTH + WIDTH;
      ModAdds(a, k - 1);
    }
  }

  /** `numeric_sort_key`. */
  method NumericSortKey(left: string, right: string) returns (o: Ordering)
    ensures o == Compare(left, right)
  {
    hide DigitRun, Value;
    var i1, i2 := 0, 0;
    while true
      invariant i1 <= |left| && i2 <= |right|
      invariant Compare(left, right) == Compare(left[i1..], right[i2..])
      decreases |left| - i1
    {
      if i1 < |left| && i2 < |right| && IsDigit(left[i1]) && IsDigit(right[i2]) {
        var an, j1 := ReadNumber(left, i1);
        var bn, j2 := ReadNumber(right, i2);
        TokensAtNumber(left, i1, j1);
        TokensAtNumber(right, i2, j2);
        if an != bn { return CompareInt(an, bn); }
        i1, i2 := j1, j2;
      } else if i1 < |left| && i2 < |right| && left[i1] == right[i2] {
        assert left[i1..][1..] == left[i1 + 1..] && right[i2..][1..] == right[i2 + 1..];
        i1, i2 := i1 + 1, i2 + 1;
      } else {
        TokensDiffer(left[i1..], right[i2..]);
        if i1 == |left| { return if i2 == |right| then Equal else Less; }
        if i2 == |right| { return Greater; }
        return CompareInt(left[i1] as int, right[i2] as int);
      }
    }
  }

  lemma TokensAtNumber(s: string, i: nat, j: nat)
    requires i < j <= |s| && j == i + DigitRun(s[i..]) && AllDigits(s[i..j])
    ensures Tokens(s[i..]) == [('0' as int) * WIDTH + Value(s[i..j]) % WIDTH] + Tokens(s[j..])
  {
    assert s[i..][..j - i] == s[i..j] && s[i..][j - i..] == s[j..];
  }

  /** When the next characters are different and not both digits, they decide. */
  lemma TokensDiffer(a: string, b: string)
    requires !(a != "" && b != "" && IsDigit(a[0]) && IsDigit(b[0])) && !(a != "" && b != "" && a[0] == b[0])
    ensures Compare(a, b) ==
      if a == "" then (if b == "" then Equal else Less)
      else if b == "" then Greater
      else CompareInt(a[0] as int, b[0] as int)
  {
    hide Value, DigitRun;
  }
}
