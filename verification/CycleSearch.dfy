/** The search for a cycle to report when the topological sort leaves cells over: from each
    seed a breadth-first search on two stacks with back pointers. */
module CycleSearch {
  import opened Wrappers
  import opened Dag
  import opened TopSort

  /** What the search has found: a tree of back pointers, with the level of every cell. */
  ghost predicate Tree(next: seq<seq<nat>>, seed: nat, back: map<nat, nat>, level: map<nat, nat>) {
    && level.Keys == back.Keys && (seed in back ==> level[seed] == 1)
    && forall n {:trigger TreeCell(next, seed, back, level, n)} :: n in back ==> TreeCell(next, seed, back, level, n)
  }

  ghost predicate TreeCell(next: seq<seq<nat>>, seed: nat, back: map<nat, nat>, level: map<nat, nat>, n: nat) {
    && n in back && n in level && n < |next| && back[n] < |next| && n in next[back[n]] && level[n] >= 1
    && (level[n] == 1 <==> back[n] == seed)
    && (level[n] > 1 ==> back[n] in back && back[n] in level && level[back[n]] == level[n] - 1)
  }

  /** All successors are in the tree, at most one level further, and the seed is not one. */
  ghost predicate Done(next: seq<seq<nat>>, seed: nat, level: map<nat, nat>, n: nat)
    requires n < |next| && n in level
  {
    seed !in next[n] && forall m :: m in next[n] ==> m in level && level[m] <= level[n] + 1
  }

  /** `s1` is what is left of level `d`, `s2` what is known of the next. */
  ghost predicate Searching(next: seq<seq<nat>>, seed: nat, back: map<nat, nat>, level: map<nat, nat>,
                            s1: seq<nat>, s2: seq<nat>, d: nat)
  {
    && InRange(next, |next|) && seed < |next| && Tree(next, seed, back, level)
    && (forall n :: n in s1 ==> n in back && level[n] == d)
    && (forall n :: n in s2 ==> n in back && level[n] == d + 1)
    && (forall n :: n in back ==> level[n] <= d + 1)
    && (forall m :: m in next[seed] ==> m in back && level[m] == 1)
    && (forall n :: n in back && n !in s1 && n !in s2 ==> n < |next| && Done(next, seed, level, n))
  }

  ghost function Reverse(s: seq<nat>): seq<nat> {
    if s == [] then [] else Reverse(s[1..]) + [s[0]]
  }

  lemma {:induction false} ReverseSnoc(s: seq<nat>, x: nat)
    ensures Reverse(s + [x]) == [x] + Reverse(s)
  {
    if s != [] {
      assert (s + [x])[1..] == s[1..] + [x];
      ReverseSnoc(s[1..], x);
    } else {
      assert [x][1..] == [];
    }
  }

  lemma {:induction false} ReverseElements(s: seq<nat>)
    ensures |Reverse(s)| == |s| && forall x :: x in Reverse(s) <==> x in s
  {
    if s != [] {
      ReverseElements(s[1..]);
      assert s == [s[0]] + s[1..];
    }
  }

  /** Pouring one stack into the other turns it around. */
  method Pour(s2: seq<nat>) returns (s1: seq<nat>)
    ensures s1 == Reverse(s2)
  {
    var rest := s2;
    s1 := [];
    while rest != []
      invariant s1 + Reverse(rest) == Reverse(s2)
    {
      assert rest == rest[..|rest| - 1] + [rest[|rest| - 1]];
      ReverseSnoc(rest[..|rest| - 1], rest[|rest| - 1]);
      s1 := s1 + [rest[|rest| - 1]];
      rest := rest[..|rest| - 1];
    }
  }

  /** Before any cell with an edge to the seed was met on the first level, the first level
      was taken in the order of the seed's edge list. */
  ghost predicate FirstLevel(next: seq<seq<nat>>, seed: nat, s1: seq<nat>, d: nat, taken: nat)
    requires seed < |next| && InRange(next, |next|)
  {
    && taken <= |next[seed]|
    && (forall j :: 0 <= j < taken ==> seed !in next[next[seed][j]])
    && (d == 0 ==> taken == 0 && s1 == [])
    && (d == 1 ==> s1 == Reverse(next[seed][taken..]))
    && (d >= 2 ==> taken == |next[seed]|)
  }

  /** The tree while the successors of `n` are being entered. */
  ghost predicate Growing(next: seq<seq<nat>>, seed: nat, back0: map<nat, nat>, level0: map<nat, nat>, s2_0: seq<nat>,
                          back: map<nat, nat>, level: map<nat, nat>, s2: seq<nat>, n: nat, d: nat)
  {
    && InRange(next, |next|) && n < |next| && n != seed && d >= 1
    && Tree(next, seed, back, level) && n in back && level[n] == d
    && level0.Keys == back0.Keys && back0.Keys <= back.Keys
    && (forall m :: m in back0 ==> level[m] == level0[m])
    && (forall m :: m in back && m !in back0 ==> m in s2)
    && (forall m :: m in s2_0 ==> m in s2)
    && (forall m :: m in s2 ==> m in back && level[m] == d + 1)
    && (forall m :: m in back ==> level[m] <= d + 1)
    && |s2| - |back| == |s2_0| - |back0|
  }

  lemma TreeCellKept(next: seq<seq<nat>>, seed: nat, back: map<nat, nat>, level: map<nat, nat>, x: nat, m: nat, n: nat,
                     d: nat)
    requires TreeCell(next, seed, back, level, x) && m !in back && back.Keys == level.Keys
    ensures TreeCell(next, seed, back[m := n], level[m := d], x)
  {
  }

  lemma TreeInsert(next: seq<seq<nat>>, seed: nat, back: map<nat, nat>, level: map<nat, nat>, n: nat, m: nat)
    requires InRange(next, |next|) && Tree(next, seed, back, level) && n in back && n < |next| && n != seed
    requires m in next[n] && m !in back && m != seed
    ensures Tree(next, seed, back[m := n], level[m := level[n] + 1])
  {
    var back1, level1 := back[m := n], level[m := level[n] + 1];
    assert TreeCell(next, seed, back, level, n);
    assert TreeCell(next, seed, back1, level1, m);
    forall x: nat | x in back
      ensures TreeCell(next, seed, back1, level1, x)
    {
      assert TreeCell(next, seed, back, level, x);
      TreeCellKept(next, seed, back, level, x, m, n, level[n] + 1);
    }
    assert level1.Keys == back1.Keys;
  }

  lemma GrowStep(next: seq<seq<nat>>, seed: nat, back0: map<nat, nat>, level0: map<nat, nat>, s2_0: seq<nat>,
                 back: map<nat, nat>, level: map<nat, nat>, s2: seq<nat>, n: nat, d: nat, m: nat)
    requires Growing(next, seed, back0, level0, s2_0, back, level, s2, n, d)
    requires m in next[n] && m !in back && m != seed
    ensures Growing(next, seed, back0, level0, s2_0, back[m := n], level[m := d + 1], s2 + [m], n, d)
  {
    TreeInsert(next, seed, back, level, n, m);
  }

  lemma GrowStart(next: seq<seq<nat>>, seed: nat, back: map<nat, nat>, level: map<nat, nat>, s1: seq<nat>, s2: seq<nat>,
                  n: nat, d: nat)
    requires Searching(next, seed, back, level, s1 + [n], s2, d) && d >= 1 && n != seed
    ensures Growing(next, seed, back, level, s2, back, level, s2, n, d)
  {
    assert (s1 + [n])[|s1|] == n;
    assert n in s1 + [n];
    assert TreeCell(next, seed, back, level, n);
  }

  lemma GrowEnd(next: seq<seq<nat>>, seed: nat, back0: map<nat, nat>, level0: map<nat, nat>, s1: seq<nat>,
                s2_0: seq<nat>,
                back: map<nat, nat>, level: map<nat, nat>, s2: seq<nat>, n: nat, d: nat)
    requires Searching(next, seed, back0, level0, s1 + [n], s2_0, d)
    requires Growing(next, seed, back0, level0, s2_0, back, level, s2, n, d)
    requires forall m :: m in next[n] ==> m != seed && m in back
    ensures Searching(next, seed, back, level, s1, s2, d)
  {
    assert forall x :: x in s1 + [n] <==> x in s1 || x == n;
    forall x | x in back && x !in s1 && x !in s2
      ensures x < |next| && Done(next, seed, level, x)
    {
      if x != n {
        assert x < |next| && Done(next, seed, level0, x);
      }
    }
  }

  lemma SeedOnlyOnLoop(next: seq<seq<nat>>, seed: nat, back: map<nat, nat>, level: map<nat, nat>, s1: seq<nat>,
                       s2: seq<nat>, n: nat, d: nat)
    requires Searching(next, seed, back, level, s1 + [n], s2, d)
    ensures n == seed ==> seed in next[seed]
  {
    assert (s1 + [n])[|s1|] == n;
    assert n in s1 + [n];
    assert TreeCell(next, seed, back, level, n);
  }

  /** Looks at the successors of `n`: either the seed is among them, or all are entered. */
  method Expand(next: seq<seq<nat>>, seed: nat, n: nat, back0: map<nat, nat>, ghost level0: map<nat, nat>,
                ghost s1: seq<nat>, s2_0: seq<nat>, ghost d: nat)
    returns (found: bool, back: map<nat, nat>, ghost level: map<nat, nat>, s2: seq<nat>)
    requires Searching(next, seed, back0, level0, s1 + [n], s2_0, d) && n < |next| && d >= 1
    ensures found == (seed in next[n])
    ensures found && n != seed ==> Tree(next, seed, back, level) && n in back && level[n] == d
    ensures !found ==> Searching(next, seed, back, level, s1, s2, d)
    ensures !found ==> |s2| - |back| == |s2_0| - |back0| && back0.Keys <= back.Keys
  {
    hide Searching, Tree;
    back, level, s2 := back0, level0, s2_0;
    SeedOnlyOnLoop(next, seed, back, level, s1, s2, n, d);
    if n != seed { GrowStart(next, seed, back, level, s1, s2, n, d); }
    var ms := next[n];
    for i := 0 to |ms|
      invariant n != seed ==> Growing(next, seed, back0, level0, s2_0, back, level, s2, n, d)
      invariant forall j :: 0 <= j < i ==> ms[j] != seed && ms[j] in back
    {
      var m := ms[i];
      if m == seed {
        return true, back, level, s2;
      }
      if m !in back {
        if n != seed { GrowStep(next, seed, back0, level0, s2_0, back, level, s2, n, d, m); }
        back := back[m := n];
        level := level[m := d + 1];
        s2 := s2 + [m];
      }
    }
    found := false;
    GrowEnd(next, seed, back0, level0, s1, s2_0, back, level, s2, n, d);
  }

  // ---------------------------------------------------------------- no shorter cycle

  lemma {:induction false} LevelOnWalk(next: seq<seq<nat>>, seed: nat, back: map<nat, nat>, level: map<nat, nat>,
                                       s1: seq<nat>, s2: seq<nat>, d: nat, w: seq<nat>, k: nat)
    requires Searching(next, seed, back, level, s1, s2, d) && ClosedWalk(next, seed, w)
    requires 1 <= k <= d && k < |w|
    ensures w[k] in back && level[w[k]] <= k
  {
    if k == 1 {
      assert w[1] in next[w[0]];
    } else {
      LevelOnWalk(next, seed, back, level, s1, s2, d, w, k - 1);
      var x := w[k - 1];
      assert x !in s1 && x !in s2 && Done(next, seed, level, x);
      assert w[k] in next[x];
    }
  }

  lemma ShallowMissesSeed(next: seq<seq<nat>>, seed: nat, back: map<nat, nat>, level: map<nat, nat>,
                          s1: seq<nat>, s2: seq<nat>, d: nat, w: seq<nat>, k: nat)
    requires Searching(next, seed, back, level, s1, s2, d) && ClosedWalk(next, seed, w)
    requires 1 <= k < d && k + 1 < |w|
    ensures w[k + 1] != seed
  {
    LevelOnWalk(next, seed, back, level, s1, s2, d, w, k);
    assert w[k] !in s1 && w[k] !in s2 && Done(next, seed, level, w[k]);
    assert w[k + 1] in next[w[k]];
  }

  /** While level `d` is searched, every closed walk of two edges or more is longer than `d`. */
  lemma NoShortCycle(next: seq<seq<nat>>, seed: nat, back: map<nat, nat>, level: map<nat, nat>,
                     s1: seq<nat>, s2: seq<nat>, d: nat, w: seq<nat>)
    requires Searching(next, seed, back, level, s1, s2, d) && ClosedWalk(next, seed, w) && |w| >= 3
    ensures |w| >= d + 2
  {
    if |w| < d + 2 {
      ShallowMissesSeed(next, seed, back, level, s1, s2, d, w, |w| - 2);
    }
  }

  lemma {:induction false} WalkStaysInTree(next: seq<seq<nat>>, seed: nat, back: map<nat, nat>, level: map<nat, nat>,
                                           d: nat, w: seq<nat>, k: nat)
    requires Searching(next, seed, back, level, [], [], d) && ClosedWalk(next, seed, w)
    requires 1 <= k < |w|
    ensures w[k] in back && w[k] != seed
  {
    if k == 1 {
      assert w[1] in next[w[0]];
      assert Done(next, seed, level, w[1]);
    } else {
      WalkStaysInTree(next, seed, back, level, d, w, k - 1);
      assert Done(next, seed, level, w[k - 1]);
      assert w[k] in next[w[k - 1]];
    }
  }

  /** When both stacks run empty there is no cycle through the seed. */
  lemma ExhaustedMeansNone(next: seq<seq<nat>>, seed: nat, back: map<nat, nat>, level: map<nat, nat>, d: nat)
    requires Searching(next, seed, back, level, [], [], d)
    ensures !OnCycle(next, seed)
  {
    forall w | ClosedWalk(next, seed, w)
      ensures false
    {
      WalkStaysInTree(next, seed, back, level, d, w, |w| - 1);
    }
  }

  // ---------------------------------------------------------------- the reported list

  /** Starts and ends at the seed, and follows edges backwards. */
  ghost predicate ReversedCycle(next: seq<seq<nat>>, seed: nat, c: seq<nat>) {
    && |c| >= 2 && c[0] == seed && c[|c| - 1] == seed
    && (forall k :: 0 <= k < |c| ==> c[k] < |next|)
    && forall k :: 0 <= k < |c| - 1 ==> c[k] in next[c[k + 1]]
  }

  lemma ReversedCycleIsClosedWalk(next: seq<seq<nat>>, seed: nat, c: seq<nat>)
    requires ReversedCycle(next, seed, c)
    ensures ClosedWalk(next, seed, Reverse(c))
  {
    ReverseAt(c);
    var w := Reverse(c);
    forall k | 0 <= k < |w| - 1
      ensures w[k + 1] in next[w[k]]
    {
      assert w[k] == c[|c| - 1 - k] && w[k + 1] == c[|c| - 2 - k];
    }
  }

  lemma {:induction false} ReverseAt(c: seq<nat>)
    ensures |Reverse(c)| == |c| && forall k :: 0 <= k < |c| ==> Reverse(c)[k] == c[|c| - 1 - k]
  {
    if c != [] {
      ReverseAt(c[1..]);
    }
  }

  /** Follows the back pointers; "Internal error" is the missing pointer, which never happens. */
  method Follow(next: seq<seq<nat>>, seed: nat, back: map<nat, nat>, ghost level: map<nat, nat>, n0: nat)
    returns (cycle: seq<nat>)
    requires InRange(next, |next|) && seed < |next| && n0 < |next| && seed in next[n0]
    requires n0 != seed ==> Tree(next, seed, back, level) && n0 in back
    ensures ReversedCycle(next, seed, cycle)
    ensures n0 == seed ==> |cycle| == 2
    ensures n0 != seed ==> n0 in level && |cycle| == level[n0] + 2
  {
    var n: nat := n0;
    cycle := [seed];
    while n != seed
      invariant n < |next| && |cycle| >= 1 && cycle[0] == seed
      invariant forall k :: 0 <= k < |cycle| ==> cycle[k] < |next|
      invariant forall k :: 0 <= k < |cycle| - 1 ==> cycle[k] in next[cycle[k + 1]]
      invariant cycle[|cycle| - 1] in next[n]
      invariant n0 == seed ==> n == seed
      invariant n != seed ==> n in back && Tree(next, seed, back, level) && n0 in level && n in level
      invariant n != seed ==> |cycle| == level[n0] - level[n] + 1
      invariant n == seed && n0 != seed ==> n0 in level && |cycle| == level[n0] + 1
      invariant n0 == seed ==> |cycle| == 1
      decreases if n != seed && n in level then level[n] else 0
    {
      assert TreeCell(next, seed, back, level, n);
      cycle := cycle + [n];
      n := back[n];
      assert n != seed ==> TreeCell(next, seed, back, level, n);
    }
    cycle := cycle + [seed];
  }

  // ---------------------------------------------------------------- the search from one seed

  /** No cell before the seed in the seed's own edge list has an edge back to the seed. */
  ghost predicate SelfLoopFirst(next: seq<seq<nat>>, seed: nat)
    requires InRange(next, |next|) && seed < |next|
  {
    seed in next[seed] ==>
      forall i :: 0 <= i < |next[seed]| && seed !in next[seed][..i + 1] ==> seed !in next[next[seed][i]]
  }

  ghost predicate Shortest(next: seq<seq<nat>>, seed: nat, c: seq<nat>) {
    forall w :: ClosedWalk(next, seed, w) ==> |c| <= |w|
  }

  /** The first level: all successors of the seed, with duplicates on the stack. */
  method FirstFrontier(next: seq<seq<nat>>, seed: nat)
    returns (back: map<nat, nat>, ghost level: map<nat, nat>, s2: seq<nat>)
    requires InRange(next, |next|) && seed < |next|
    ensures Searching(next, seed, back, level, [], s2, 0) && s2 == next[seed]
  {
    back, level, s2 := map[], map[], [];
    var ms := next[seed];
    for i := 0 to |ms|
      invariant s2 == ms[..i] && level.Keys == back.Keys
      invariant forall n :: n in back <==> n in s2
      invariant forall n :: n in back ==> back[n] == seed && level[n] == 1
    {
      back := back[ms[i] := seed];
      level := level[ms[i] := 1];
      s2 := s2 + [ms[i]];
    }
    assert ms[..|ms|] == ms;
    forall n: nat | n in back
      ensures TreeCell(next, seed, back, level, n)
    {
      assert n in ms;
    }
  }

  lemma TreeSize(next: seq<seq<nat>>, seed: nat, back: map<nat, nat>, level: map<nat, nat>)
    requires Tree(next, seed, back, level)
    ensures |back| <= |next|
  {
    forall n | n in back.Keys
      ensures n in Cells(|next|)
    {
      assert TreeCell(next, seed, back, level, n);
    }
    SubsetSize(back.Keys, Cells(|next|));
  }

  lemma PourSearching(next: seq<seq<nat>>, seed: nat, back: map<nat, nat>, level: map<nat, nat>, s2: seq<nat>, d: nat)
    requires Searching(next, seed, back, level, [], s2, d)
    ensures Searching(next, seed, back, level, Reverse(s2), [], d + 1)
  {
    ReverseElements(s2);
  }

  lemma ShallowIsDone(next: seq<seq<nat>>, seed: nat, back: map<nat, nat>, level: map<nat, nat>,
                      s1: seq<nat>, s2: seq<nat>, d: nat, n: nat)
    requires Searching(next, seed, back, level, s1, s2, d) && n in back && n < |next|
    ensures level[n] < d ==> Done(next, seed, level, n)
  {
  }

  /** With a self loop the search ends on the first level, at the first cell with an edge to
      the seed. */
  lemma SelfLoopFoundAtOnce(next: seq<seq<nat>>, seed: nat, back: map<nat, nat>, level: map<nat, nat>,
                            s1: seq<nat>, s2: seq<nat>, d: nat, taken: nat, n: nat)
    requires Searching(next, seed, back, level, s1 + [n], s2, d) && d >= 1
    requires FirstLevel(next, seed, s1 + [n], d, taken) && n < |next| && seed in next[n]
    requires seed in next[seed]
    ensures d == 1 && taken < |next[seed]| && n == next[seed][taken]
    ensures forall j :: 0 <= j < taken ==> seed !in next[next[seed][j]]
    ensures SelfLoopFirst(next, seed) <==> n == seed
  {
    ShallowIsDone(next, seed, back, level, s1 + [n], s2, d, seed);
    assert d == 1;
    var ms := next[seed];
    TakenNext(ms, taken, s1, n);
    if n == seed {
      forall i | 0 <= i < |ms| && seed !in ms[..i + 1]
        ensures seed !in next[ms[i]]
      {
        assert forall k :: 0 <= k <= i ==> ms[..i + 1][k] == ms[k];
      }
    } else {
      assert seed !in ms[..taken + 1] by {
        assert forall j :: 0 <= j <= taken ==> ms[j] != seed;
      }
    }
  }

  lemma TakenNext(ms: seq<nat>, taken: nat, s1: seq<nat>, n: nat)
    requires taken <= |ms| && s1 + [n] == Reverse(ms[taken..])
    ensures taken < |ms| && n == ms[taken] && s1 == Reverse(ms[taken + 1..])
  {
    ReverseElements(ms[taken..]);
    assert |s1 + [n]| == |s1| + 1;
    assert ms[taken..][1..] == ms[taken + 1..];
    assert (s1 + [n])[|s1|] == n;
    assert s1 == (s1 + [n])[..|s1|];
  }

  /** What is known when `n` of level `d` has an edge to the seed. */
  lemma FoundIsShortest(next: seq<seq<nat>>, seed: nat, back: map<nat, nat>, level: map<nat, nat>,
                        s1: seq<nat>, s2: seq<nat>, d: nat, taken: nat, n: nat, c: seq<nat>)
    requires Searching(next, seed, back, level, s1 + [n], s2, d) && d >= 1
    requires FirstLevel(next, seed, s1 + [n], d, taken) && n < |next| && seed in next[n]
    requires |c| == if n == seed then 2 else d + 2
    ensures Shortest(next, seed, c) <==> SelfLoopFirst(next, seed)
  {
    forall w | ClosedWalk(next, seed, w)
      ensures |w| >= 3 ==> |w| >= |c|
    {
      if |w| >= 3 { NoShortCycle(next, seed, back, level, s1 + [n], s2, d, w); }
    }
    if seed in next[seed] {
      assert ClosedWalk(next, seed, [seed, seed]);
      SelfLoopFoundAtOnce(next, seed, back, level, s1, s2, d, taken, n);
    } else {
      forall w | ClosedWalk(next, seed, w)
        ensures |w| >= 3
      {
        assert w[1] in next[w[0]];
      }
    }
  }

  lemma FirstLevelPoured(next: seq<seq<nat>>, seed: nat, s2: seq<nat>, d: nat, taken: nat)
    requires InRange(next, |next|) && seed < |next| && FirstLevel(next, seed, [], d, taken)
    requires d == 0 ==> s2 == next[seed]
    ensures FirstLevel(next, seed, Reverse(s2), d + 1, taken)
  {
    if d == 1 {
      ReverseElements(next[seed][taken..]);
    }
    assert next[seed][0..] == next[seed];
  }

  lemma FirstLevelTaken(next: seq<seq<nat>>, seed: nat, s1: seq<nat>, d: nat, taken: nat, n: nat) returns (now: nat)
    requires InRange(next, |next|) && seed < |next| && d >= 1
    requires FirstLevel(next, seed, s1 + [n], d, taken) && n < |next| && seed !in next[n]
    ensures FirstLevel(next, seed, s1, d, now)
  {
    now := taken;
    if d == 1 {
      TakenNext(next[seed], taken, s1, n);
      now := taken + 1;
    }
  }

  /** The cycle through one seed: none exactly when there is none. A cycle that is found is a
      real one; it has the least length exactly when no self loop of the seed is passed over. */
  method FindCycle(next: seq<seq<nat>>, seed: nat) returns (cycle: Option<seq<nat>>)
    requires InRange(next, |next|) && seed < |next|
    ensures cycle.None? <==> !OnCycle(next, seed)
    ensures cycle.Some? ==> ReversedCycle(next, seed, cycle.value)
    ensures cycle.Some? ==> (Shortest(next, seed, cycle.value) <==> SelfLoopFirst(next, seed))
  {
    hide Searching, FirstLevel, Shortest, SelfLoopFirst, ReversedCycle, ClosedWalk, InRange;
    var back, level, s2 := FirstFrontier(next, seed);
    var s1: seq<nat> := [];
    ghost var d: nat, taken: nat := 0, 0;
    FirstLevelStart(next, seed);
    while s1 != [] || s2 != []
      invariant Searching(next, seed, back, level, s1, s2, d)
      invariant FirstLevel(next, seed, s1, d, taken)
      invariant d == 0 ==> s1 == [] && s2 == next[seed]
      decreases |next| - |back|, |s1| + |s2|
    {
      if s1 == [] {
        PourSearching(next, seed, back, level, s2, d);
        FirstLevelPoured(next, seed, s2, d, taken);
        ReverseElements(s2);
        s1 := Pour(s2);
        s2 := [];
        d := d + 1;
      }
      assert s1 == s1[..|s1| - 1] + [s1[|s1| - 1]];
      var n := s1[|s1| - 1];
      s1 := s1[..|s1| - 1];
      SearchingRange(next, seed, back, level, s1, s2, n, d);
      ghost var back0, level0 := back, level;
      ghost var s20 := s2;
      var found;
      found, back, level, s2 := Expand(next, seed, n, back, level, s1, s2, d);
      if found {
        var c := Follow(next, seed, back, level, n);
        FoundIsShortest(next, seed, back0, level0, s1, s20, d, taken, n, c);
        ReversedCycleIsClosedWalk(next, seed, c);
        return Some(c);
      }
      taken := FirstLevelTaken(next, seed, s1, d, taken, n);
      SearchingSize(next, seed, back, level, s1, s2, d);
      SubsetSize(back0.Keys, back.Keys);
    }
    ExhaustedMeansNone(next, seed, back, level, d);
    cycle := None;
  }

  lemma FirstLevelStart(next: seq<seq<nat>>, seed: nat)
    requires InRange(next, |next|) && seed < |next|
    ensures FirstLevel(next, seed, [], 0, 0)
  {
  }

  lemma SearchingRange(next: seq<seq<nat>>, seed: nat, back: map<nat, nat>, level: map<nat, nat>, s1: seq<nat>,
                       s2: seq<nat>, n: nat, d: nat)
    requires Searching(next, seed, back, level, s1 + [n], s2, d)
    ensures n < |next|
  {
    assert (s1 + [n])[|s1|] == n;
    assert n in s1 + [n];
    assert TreeCell(next, seed, back, level, n);
  }

  lemma SearchingSize(next: seq<seq<nat>>, seed: nat, back: map<nat, nat>, level: map<nat, nat>, s1: seq<nat>,
                      s2: seq<nat>, d: nat)
    requires Searching(next, seed, back, level, s1, s2, d)
    ensures |back| <= |next|
  {
    TreeSize(next, seed, back, level);
  }

  // ---------------------------------------------------------------- the reported cycle

  ghost predicate Candidate(next: seq<seq<nat>>, seed: nat, c: seq<nat>) {
    && ReversedCycle(next, seed, c) && seed < |next| && InRange(next, |next|)
    && (Shortest(next, seed, c) <==> SelfLoopFirst(next, seed))
  }

  /** One candidate for every left cell on a cycle; the kept list is a longest of them. */
  ghost predicate Reported(next: seq<seq<nat>>, left: set<nat>, kept: seq<nat>, candidates: map<nat, seq<nat>>) {
    && candidates.Keys == (set seed | seed in left && OnCycle(next, seed))
    && (forall seed :: seed in candidates ==> Candidate(next, seed, candidates[seed]))
    && kept != [] && kept[0] in candidates && candidates[kept[0]] == kept
    && forall seed :: seed in candidates ==> |candidates[seed]| <= |kept|
  }

  /** One seed after another, in any order. A new candidate replaces the kept one unless the
      kept one is at least as long. Leftovers always yield a cycle, so "No cycle found" is
      unreachable. */
  method ReportCycle(next: seq<seq<nat>>, left: set<nat>, ghost g: Graph)
    returns (kept: seq<nat>, ghost candidates: map<nat, seq<nat>>)
    requires g.next == next && Inverse(g) && InGraph(g, left) && Stuck(g, left) && left != {}
    ensures Reported(next, left, kept, candidates)
    ensures kept[0] in left && ReversedCycle(next, kept[0], kept)
  {
    hide Candidate, OnCycle, ReversedCycle;
    var todo := left;
    var best: Option<seq<nat>> := None;
    candidates := map[];
    while todo != {}
      invariant todo <= left
      invariant candidates.Keys == set seed | seed in left - todo && OnCycle(next, seed)
      invariant best.None? ==> candidates.Keys == {}
      invariant best.Some? ==>
        best.value != [] && best.value[0] in candidates && candidates[best.value[0]] == best.value
      invariant forall seed :: seed in candidates ==> Candidate(next, seed, candidates[seed])
      invariant best.Some? ==> forall seed :: seed in candidates ==> |candidates[seed]| <= |best.value|
    {
      var seed :| seed in todo;
      todo := todo - {seed};
      var cycle := FindCycle(next, seed);
      assert left - todo == (left - todo - {seed}) + {seed};
      if cycle.Some? {
        IsCandidate(next, seed, cycle.value);
        candidates := candidates[seed := cycle.value];
        if best.None? || |best.value| < |cycle.value| {
          best := cycle;
        }
      }
    }
    assert left - todo == left;
    StuckHasCycle(g, left);
    kept := best.value;
    assert Candidate(next, kept[0], kept);
    CandidateIsCycle(next, kept[0], kept);
  }

  lemma IsCandidate(next: seq<seq<nat>>, seed: nat, c: seq<nat>)
    requires InRange(next, |next|) && seed < |next| && ReversedCycle(next, seed, c)
    requires Shortest(next, seed, c) <==> SelfLoopFirst(next, seed)
    ensures Candidate(next, seed, c) && c != [] && c[0] == seed
  {
  }

  lemma CandidateIsCycle(next: seq<seq<nat>>, seed: nat, c: seq<nat>)
    requires Candidate(next, seed, c)
    ensures ReversedCycle(next, seed, c)
  {
  }

  /** Every left cell on a cycle has a closed walk as short as any closed walk from a left cell. */
  ghost predicate SameGirth(next: seq<seq<nat>>, left: set<nat>) {
    forall s, t, w :: s in left && t in left && OnCycle(next, t) && ClosedWalk(next, s, w) ==>
      HasWalkWithin(next, t, |w|)
  }

  ghost predicate HasWalkWithin(next: seq<seq<nat>>, seed: nat, n: nat) {
    exists v :: ClosedWalk(next, seed, v) && |v| <= n
  }

  /** What is kept is as short as every closed walk from a left cell. */
  ghost predicate IsShortestOfAll(next: seq<seq<nat>>, left: set<nat>, kept: seq<nat>) {
    forall s, w :: s in left && ClosedWalk(next, s, w) ==> |kept| <= |w|
  }

  ghost predicate AllSelfLoopsFirst(next: seq<seq<nat>>, left: set<nat>)
    requires InRange(next, |next|) && forall s :: s in left ==> s < |next|
  {
    forall s :: s in left && OnCycle(next, s) ==> SelfLoopFirst(next, s)
  }

  /** The variable is called shortest, but what is reported is a shortest cycle exactly when no
      self loop of a left cell is passed over and all left cells on cycles have shortest cycles of
      one length. */
  lemma KeptIsShortestIff(next: seq<seq<nat>>, left: set<nat>, kept: seq<nat>, candidates: map<nat, seq<nat>>)
    requires InRange(next, |next|) && (forall s :: s in left ==> s < |next|)
    requires Reported(next, left, kept, candidates)
    ensures IsShortestOfAll(next, left, kept) <==> AllSelfLoopsFirst(next, left) && SameGirth(next, left)
  {
    hide ClosedWalk, OnCycle, ReversedCycle, SelfLoopFirst, Shortest;
    if IsShortestOfAll(next, left, kept) {
      forall s | s in left && OnCycle(next, s) ensures SelfLoopFirst(next, s) && HasWalkWithin(next, s, |kept|) {
        CandidateOfShortest(next, left, kept, candidates, s);
      }
    }
    if AllSelfLoopsFirst(next, left) && SameGirth(next, left) {
      forall s, w | s in left && ClosedWalk(next, s, w) ensures |kept| <= |w| {
        assert HasWalkWithin(next, kept[0], |w|);
        var v :| ClosedWalk(next, kept[0], v) && |v| <= |w|;
        assert Candidate(next, kept[0], kept);
        ShortestIsLeast(next, kept[0], kept, v);
      }
    }
  }

  lemma ShortestIsLeast(next: seq<seq<nat>>, seed: nat, c: seq<nat>, v: seq<nat>)
    requires Shortest(next, seed, c) && ClosedWalk(next, seed, v)
    ensures |c| <= |v|
  {
  }

  /** When the kept cycle is a shortest of all, so is the candidate of every seed. */
  lemma CandidateOfShortest(next: seq<seq<nat>>, left: set<nat>, kept: seq<nat>, candidates: map<nat, seq<nat>>, s: nat)
    requires InRange(next, |next|) && (forall t :: t in left ==> t < |next|)
    requires Reported(next, left, kept, candidates) && IsShortestOfAll(next, left, kept)
    requires s in left && OnCycle(next, s)
    ensures SelfLoopFirst(next, s) && HasWalkWithin(next, s, |kept|)
  {
    hide OnCycle, ReversedCycle, SelfLoopFirst;
    var c := candidates[s];
    assert Candidate(next, s, c);
    ReversedCycleIsClosedWalk(next, s, c);
    ReverseAt(c);
    assert ClosedWalk(next, s, Reverse(c));
    assert |c| == |kept|;
    assert Shortest(next, s, c);
  }
}
