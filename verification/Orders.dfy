/** Three-way comparison, text order and sorting. */
module Orders {
  datatype Ordering = Less | Equal | Greater {
    /** `then_with`. */
    function Then(other: Ordering): Ordering {
      if this.Equal? then other else this
    }
  }

  function Flip(o: Ordering): Ordering {
    match o case Less => Greater case Equal => Equal case Greater => Less
  }

  function CompareInt(a: int, b: int): Ordering {
    if a < b then Less else if a == b then Equal else Greater
  }

  /** Lexicographic order. */
  function Lex(a: seq<int>, b: seq<int>): Ordering {
    if a == [] then (if b == [] then Equal else Less)
    else if b == [] then Greater
    else if a[0] == b[0] then Lex(a[1..], b[1..])
    else CompareInt(a[0], b[0])
  }

  lemma {:induction false} LexFlips(a: seq<int>, b: seq<int>)
    ensures Lex(b, a) == Flip(Lex(a, b))
  {
    if a != [] && b != [] { LexFlips(a[1..], b[1..]); }
  }

  lemma {:induction false} LexEqual(a: seq<int>, b: seq<int>)
    ensures Lex(a, b) == Equal <==> a == b
  {
    if a != [] && b != [] && a[0] == b[0] {
      LexEqual(a[1..], b[1..]);
      assert a == [a[0]] + a[1..] && b == [b[0]] + b[1..];
    }
  }

  lemma {:induction false} LexTransitive(a: seq<int>, b: seq<int>, c: seq<int>)
    requires Lex(a, b) != Greater && Lex(b, c) != Greater
    ensures Lex(a, c) != Greater
    ensures Lex(a, c) == Equal ==> Lex(a, b) == Equal && Lex(b, c) == Equal
  {
    if a != [] && b != [] && c != [] && a[0] == b[0] == c[0] { LexTransitive(a[1..], b[1..], c[1..]); }
  }

  // ---------------------------------------------------------------- texts

  function Codes(s: string): (r: seq<int>)
    ensures |r| == |s| && forall k :: 0 <= k < |s| ==> r[k] == s[k] as int
  {
    seq(|s|, k requires 0 <= k < |s| => s[k] as int)
  }

  lemma CodesInjective(a: string, b: string)
    requires Codes(a) == Codes(b)
    ensures a == b
  {
    forall k | 0 <= k < |a| ensures a[k] == b[k] { assert Codes(a)[k] == Codes(b)[k]; }
  }

  /** The order of strings. */
  function CompareText(a: string, b: string): Ordering {
    Lex(Codes(a), Codes(b))
  }

  lemma TextFlips(a: string, b: string)
    ensures CompareText(b, a) == Flip(CompareText(a, b))
  {
    LexFlips(Codes(a), Codes(b));
  }

  lemma TextEqual(a: string, b: string)
    ensures CompareText(a, b) == Equal <==> a == b
  {
    LexEqual(Codes(a), Codes(b));
    if Codes(a) == Codes(b) { CodesInjective(a, b); }
  }

  lemma TextTransitive(a: string, b: string, c: string)
    requires CompareText(a, b) != Greater && CompareText(b, c) != Greater
    ensures CompareText(a, c) != Greater
    ensures CompareText(a, c) == Equal ==> a == b == c
  {
    LexTransitive(Codes(a), Codes(b), Codes(c));
    TextEqual(a, b);
    TextEqual(b, c);
  }

  // ---------------------------------------------------------------- sorting

  ghost predicate IsPreorder<T(!new)>(cmp: (T, T) -> Ordering) {
    && (forall a, b :: cmp(b, a) == Flip(cmp(a, b)))
    && (forall a, b, c :: cmp(a, b) != Greater && cmp(b, c) != Greater ==> cmp(a, c) != Greater)
  }

  predicate Sorted<T>(s: seq<T>, cmp: (T, T) -> Ordering) {
    forall i, j :: 0 <= i < j < |s| ==> cmp(s[i], s[j]) != Greater
  }

  /** A sorted permutation; the library's own algorithm is not modelled. */
  method SortBy<T(!new)>(s: seq<T>, cmp: (T, T) -> Ordering) returns (r: seq<T>)
    requires IsPreorder(cmp)
    ensures multiset(r) == multiset(s) && Sorted(r, cmp)
  {
    r := [];
    for i := 0 to |s|
      invariant multiset(r) == multiset(s[..i]) && Sorted(r, cmp)
    {
      assert s[..i + 1] == s[..i] + [s[i]];
      r := InsertSorted(r, s[i], cmp);
    }
    assert s[..|s|] == s;
  }

  method InsertSorted<T(!new)>(s: seq<T>, x: T, cmp: (T, T) -> Ordering) returns (r: seq<T>)
    requires IsPreorder(cmp) && Sorted(s, cmp)
    ensures multiset(r) == multiset(s) + multiset{x} && Sorted(r, cmp)
  {
    var k := 0;
    while k < |s| && cmp(s[k], x) != Greater
      invariant 0 <= k <= |s| && forall i :: 0 <= i < k ==> cmp(s[i], x) != Greater
    {
      k := k + 1;
    }
    r := s[..k] + [x] + s[k..];
    InsertedSorted(s, x, k, cmp);
    assert s == s[..k] + s[k..];
  }

  lemma InsertedSorted<T(!new)>(s: seq<T>, x: T, k: nat, cmp: (T, T) -> Ordering)
    requires IsPreorder(cmp) && Sorted(s, cmp) && k <= |s|
    requires forall i :: 0 <= i < k ==> cmp(s[i], x) != Greater
    requires k < |s| ==> cmp(s[k], x) == Greater
    ensures Sorted(s[..k] + [x] + s[k..], cmp)
  {
    var r := s[..k] + [x] + s[k..];
    assert |r| == |s| + 1 && r[k] == x;
    forall j | k <= j < |s| ensures cmp(x, s[j]) != Greater {
      assert cmp(x, s[k]) == Flip(cmp(s[k], x));
      if j > k { assert cmp(s[k], s[j]) != Greater; }
    }
    forall i, j | 0 <= i < j < |r| ensures cmp(r[i], r[j]) != Greater {
      assert r[i] == if i < k then s[i] else if i == k then x else s[i - 1];
      assert r[j] == if j < k then s[j] else if j == k then x else s[j - 1];
    }
  }

  lemma OnceInDistinct<T>(s: seq<T>, x: T)
    requires forall i, j :: 0 <= i < j < |s| ==> s[i] != s[j]
    ensures multiset(s)[x] <= 1
  {
    if x in s {
      var k :| 0 <= k < |s| && s[k] == x;
      assert s == s[..k] + [x] + s[k + 1..];
      assert x !in multiset(s[..k]) && x !in multiset(s[k + 1..]);
    } else {
      assert x !in multiset(s);
    }
  }

  lemma TwiceIfRepeated<T>(s: seq<T>, i: nat, j: nat)
    requires i < j < |s| && s[i] == s[j]
    ensures multiset(s)[s[i]] >= 2
  {
    assert s == s[..j] + s[j..] && s[..j][i] == s[i] && s[j..][0] == s[i];
    assert s[i] in multiset(s[..j]) && s[i] in multiset(s[j..]);
  }

  /** A permutation repeats nothing that was not repeated before. */
  lemma PermutedDistinct<T>(s: seq<T>, r: seq<T>)
    requires multiset(s) == multiset(r) && forall i, j :: 0 <= i < j < |s| ==> s[i] != s[j]
    ensures forall i, j :: 0 <= i < j < |r| ==> r[i] != r[j]
  {
    forall i, j | 0 <= i < j < |r| ensures r[i] != r[j] {
      OnceInDistinct(s, r[i]);
      if r[i] == r[j] { TwiceIfRepeated(r, i, j); }
    }
  }
}
