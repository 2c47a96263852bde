/** The topological sort of the deployment graph: the cells a deployment needs, and the
    heap-driven order in which they come out. */
module TopSort {
  import opened NodeNames
  import opened Dag
  import opened VisitStore

  // ---------------------------------------------------------------- counting in-edges

  /** How many entries of an edge list lie in `S`, with multiplicity. */
  ghost function CountIn(s: seq<nat>, S: set<nat>): nat {
    if s == [] then 0 else (if s[0] in S then 1 else 0) + CountIn(s[1..], S)
  }

  lemma {:induction false} CountInRemove(s: seq<nat>, S: set<nat>, x: nat)
    requires x !in S
    ensures CountIn(s, S + {x}) == CountIn(s, S) + multiset(s)[x]
  {
    if s != [] {
      CountInRemove(s[1..], S, x);
      assert multiset(s) == multiset{s[0]} + multiset(s[1..]) by { assert s == [s[0]] + s[1..]; }
    }
  }

  lemma {:induction false} CountInZero(s: seq<nat>, S: set<nat>)
    ensures CountIn(s, S) == 0 <==> forall m :: m in s ==> m !in S
  {
    if s != [] {
      CountInZero(s[1..], S);
      assert s == [s[0]] + s[1..];
    }
  }

  lemma {:induction false} CountInAll(s: seq<nat>, S: set<nat>)
    requires forall m :: m in s ==> m in S
    ensures CountIn(s, S) == |s|
  {
    if s != [] {
      CountInAll(s[1..], S);
    }
  }

  // ---------------------------------------------------------------- the needed cells

  ghost predicate PrevClosed(g: Graph, S: set<nat>) {
    forall n, m :: n in S && n < |g.prev| && m in g.prev[n] ==> m in S
  }

  /** The least set that holds the seeds and is closed under `prev`. */
  ghost predicate IsClosure(g: Graph, seeds: set<nat>, S: set<nat>) {
    && seeds <= S && PrevClosed(g, S)
    && forall C: set<nat> :: seeds <= C && PrevClosed(g, C) ==> S <= C
  }

  ghost predicate InGraph(g: Graph, S: set<nat>) {
    forall n :: n in S ==> n < |g.next|
  }

  ghost function Cells(n: nat): (S: set<nat>)
    ensures |S| == n
    ensures forall i: nat :: i in S <==> i < n
  {
    if n == 0 then {} else Cells(n - 1) + {n - 1}
  }

  lemma SubsetSize(a: set<nat>, b: set<nat>)
    requires a <= b
    ensures |a| <= |b|
  {
    assert b == a + (b - a);
  }

  ghost predicate Distinct(s: seq<nat>) {
    forall i, j :: 0 <= i < j < |s| ==> s[i] != s[j]
  }

  /** Cells whose in-edges have been counted, cells that wait for it, cells not met. */
  ghost predicate Counting(g: Graph, inCount: seq<nat>, seen: set<nat>, toVisit: seq<nat>) {
    && |inCount| == |g.next| == |g.prev| && InGraph(g, seen) && Distinct(toVisit)
    && (forall n :: n in toVisit ==> n in seen)
    && (forall n :: 0 <= n < |inCount| ==> inCount[n] == if n in seen && n !in toVisit then |g.prev[n]| else 0)
    && (forall n, m :: n in seen && n !in toVisit && m in g.prev[n] ==> m in seen)
  }

  /** Only cells that every closed superset of the seeds contains. */
  ghost predicate Needed(g: Graph, seeds: set<nat>, S: set<nat>) {
    forall C: set<nat> :: seeds <= C && PrevClosed(g, C) ==> S <= C
  }

  /** One turn of the counting loop: counts the in-edges of `node`, meets new cells. */
  method CountNode(arena: NodeArena, node: nat, ghost seeds: set<nat>, seen0: set<nat>, rest: seq<nat>)
    returns (seen: set<nat>, toVisit: seq<nat>)
    requires Inverse(arena.G()) && Counting(arena.G(), arena.inCount, seen0, rest + [node])
    requires Needed(arena.G(), seeds, seen0)
    modifies arena`inCount
    ensures Counting(arena.G(), arena.inCount, seen, toVisit) && Needed(arena.G(), seeds, seen)
    ensures seen0 <= seen && |toVisit| - |seen| == |rest| - |seen0|
  {
    ghost var g := arena.G();
    seen, toVisit := seen0, rest;
    ghost var before := arena.inCount;
    MeetingStart(g, before, seeds, node, seen0, rest);
    var prev := arena.prev[node];
    for i := 0 to |prev|
      invariant arena.inCount == before[node := i]
      invariant Meeting(g, seeds, node, seen0, rest, prev[..i], seen, toVisit)
    {
      arena.inCount := arena.inCount[node := arena.inCount[node] + 1];
      assert prev[..i + 1] == prev[..i] + [prev[i]];
      if prev[i] !in seen {
        seen := seen + {prev[i]};
        toVisit := toVisit + [prev[i]];
      }
    }
    assert prev[..|prev|] == prev;
    MeetingEnd(g, before, seeds, node, seen0, rest, seen, toVisit);
  }

  /** The cells met while the in-edges of `node` are counted. */
  ghost predicate Meeting(g: Graph, seeds: set<nat>, node: nat, seen0: set<nat>, rest: seq<nat>, met: seq<nat>,
                          seen: set<nat>, toVisit: seq<nat>)
  {
    && InRange(g.prev, |g.next|) && node < |g.prev| && (forall m :: m in met ==> m in g.prev[node] && m in seen) &&
         node in seen
    && seen0 <= seen && InGraph(g, seen) && Distinct(toVisit) && node !in toVisit
    && (forall n :: n in toVisit ==> n in seen)
    && (forall n :: n in seen && n !in toVisit ==> n == node || (n in seen0 && n !in rest))
    && (forall n :: n in seen0 && n !in rest ==> n !in toVisit)
    && Needed(g, seeds, seen)
    && |toVisit| - |seen| == |rest| - |seen0|
  }

  lemma MeetingStart(g: Graph, inCount: seq<nat>, seeds: set<nat>, node: nat, seen: set<nat>, rest: seq<nat>)
    requires Inverse(g) && Counting(g, inCount, seen, rest + [node]) && Needed(g, seeds, seen)
    ensures Meeting(g, seeds, node, seen, rest, [], seen, rest) && node < |inCount| && inCount[node] == 0
    ensures inCount == inCount[node := 0]
  {
    assert (rest + [node])[|rest|] == node && node in rest + [node];
    assert forall k :: 0 <= k < |rest| ==> (rest + [node])[k] == rest[k];
  }

  lemma MeetingEnd(g: Graph, inCount: seq<nat>, seeds: set<nat>, node: nat, seen0: set<nat>, rest: seq<nat>,
                   seen: set<nat>, toVisit: seq<nat>)
    requires Counting(g, inCount, seen0, rest + [node])
    requires node < |g.prev| && Meeting(g, seeds, node, seen0, rest, g.prev[node], seen, toVisit)
    ensures Counting(g, inCount[node := |g.prev[node]|], seen, toVisit)
  {
    assert forall n :: n in rest + [node] <==> n in rest || n == node;
  }

  /** Finds every cell that the seeds need, and counts the in-edges of each. */
  method CountClosure(arena: NodeArena, seeds: seq<nat>) returns (seen: set<nat>)
    requires arena.Fresh() && Inverse(arena.G()) && InGraph(arena.G(), Elements(seeds)) && Distinct(seeds)
    modifies arena`inCount
    ensures IsClosure(arena.G(), Elements(seeds), seen) && InGraph(arena.G(), seen)
    ensures Counting(arena.G(), arena.inCount, seen, [])
  {
    ghost var g := arena.G();
    var toVisit := seeds;
    seen := set n | n in seeds;
    while toVisit != []
      invariant Counting(g, arena.inCount, seen, toVisit) && Needed(g, Elements(seeds), seen)
      invariant Elements(seeds) <= seen
      decreases |g.next| - |seen|, |toVisit|
    {
      var node := toVisit[|toVisit| - 1];
      assert toVisit == toVisit[..|toVisit| - 1] + [node];
      SubsetSize(seen, Cells(|g.next|));
      ghost var before := seen;
      seen, toVisit := CountNode(arena, node, Elements(seeds), seen, toVisit[..|toVisit| - 1]);
      SubsetSize(before, seen);
      SubsetSize(seen, Cells(|g.next|));
    }
  }

  // ---------------------------------------------------------------- the order

  /** Greatest first: by type order, then by id. */
  predicate Below(a: (int, int), b: (int, int)) {
    a.0 < b.0 || (a.0 == b.0 && a.1 < b.1)
  }

  ghost function Key(arena: NodeArena, n: nat): (int, int)
    requires n < |arena.typeOrder| == |arena.ids|
    reads arena
  {
    (arena.typeOrder[n], arena.ids[n])
  }

  /** A cell that waits for nothing that is left. */
  ghost predicate Ready(g: Graph, left: set<nat>, n: nat) {
    n in left && n < |g.prev| && forall m :: m in g.prev[n] ==> m !in left
  }

  /** Nothing ready has a greater key. */
  ghost predicate GreatestReady(g: Graph, keys: seq<(int, int)>, left: set<nat>, n: nat) {
    && Ready(g, left, n)
    && forall m: nat :: Ready(g, left, m) && m < |keys| && n < |keys| ==> !Below(keys[n], keys[m])
  }

  /** The cells of `order` come out of `all` one by one, each the greatest that is ready,
      until nothing that is left is ready. */
  ghost predicate Emits(g: Graph, keys: seq<(int, int)>, all: set<nat>, order: seq<nat>, left: set<nat>) {
    && EmitsSoFar(g, keys, all, order, left)
    && forall n: nat :: !Ready(g, left, n)
  }

  ghost predicate EmitsSoFar(g: Graph, keys: seq<(int, int)>, all: set<nat>, order: seq<nat>, left: set<nat>) {
    && left == all - Elements(order)
    && Elements(order) <= all
    && forall k :: 0 <= k < |order| ==> GreatestReady(g, keys, all - Elements(order[..k]), order[k])
  }

  /** The count of every cell that is left is the number of in-edges from cells that are left. */
  ghost predicate Counts(g: Graph, inCount: seq<nat>, left: set<nat>) {
    && |inCount| == |g.next| == |g.prev| && InGraph(g, left)
    && forall m :: m in left ==> inCount[m] == CountIn(g.prev[m], left)
  }

  ghost predicate IsReadySet(inCount: seq<nat>, left: set<nat>, pq: set<nat>) {
    forall m :: m in pq <==> m in left && m < |inCount| && inCount[m] == 0
  }

  /** The heap gives back a greatest element; which one of several is not determined. */
  lemma {:induction false} HasGreatest(keys: seq<(int, int)>, pq: set<nat>)
    requires pq != {} && forall n :: n in pq ==> n < |keys|
    ensures exists v :: v in pq && forall w :: w in pq ==> !Below(keys[v], keys[w])
  {
    var x :| x in pq;
    var rest := pq - {x};
    if rest == {} {
      assert pq == {x};
    } else {
      HasGreatest(keys, rest);
      var v :| v in rest && forall w :: w in rest ==> !Below(keys[v], keys[w]);
      assert forall w :: w in pq ==> w == x || w in rest;
      if Below(keys[v], keys[x]) {
        assert forall w :: w in pq ==> !Below(keys[x], keys[w]);
      } else {
        assert forall w :: w in pq ==> !Below(keys[v], keys[w]);
      }
    }
  }

  method PopGreatest(keys: seq<(int, int)>, pq: set<nat>) returns (v: nat, rest: set<nat>)
    requires pq != {} && forall n :: n in pq ==> n < |keys|
    ensures v in pq && rest == pq - {v}
    ensures forall w :: w in pq ==> !Below(keys[v], keys[w])
  {
    HasGreatest(keys, pq);
    v :| v in pq && forall w :: w in pq ==> !Below(keys[v], keys[w]);
    rest := pq - {v};
  }

  /** How far the counts are while the out-edges of `node` are being released. */
  ghost predicate Releasing(g: Graph, inCount: seq<nat>, left: set<nat>, node: nat, done: seq<nat>) {
    && |inCount| == |g.next| == |g.prev| && InGraph(g, left) && node < |g.next|
    && forall m :: m in left ==> inCount[m] + multiset(done)[m] == CountIn(g.prev[m], left) + multiset(g.next[node])[m]
  }

  /** Releases the out-edges of an emitted cell; no count goes below zero. */
  method Release(arena: NodeArena, node: nat, left: set<nat>, pq0: set<nat>) returns (pq: set<nat>)
    requires Inverse(arena.G()) && node !in left && node < |arena.next|
    requires Counts(arena.G(), arena.inCount, left + {node})
    requires IsReadySet(arena.inCount, left, pq0)
    modifies arena`inCount
    ensures Counts(arena.G(), arena.inCount, left)
    ensures IsReadySet(arena.inCount, left, pq)
  {
    hide Inverse, CountIn;
    ghost var g := arena.G();
    pq := pq0;
    var next := arena.next[node];
    ReleaseStart(g, arena.inCount, left, node);
    for i := 0 to |next|
      invariant Releasing(g, arena.inCount, left, node, next[..i])
      invariant IsReadySet(arena.inCount, left, pq)
    {
      ReleaseStep(g, arena.inCount, left, node, i);
      if next[i] in left {
        arena.inCount := arena.inCount[next[i] := arena.inCount[next[i]] - 1];
        if arena.inCount[next[i]] == 0 {
          pq := pq + {next[i]};
        }
      }
    }
    assert next[..|next|] == next;
  }

  lemma ReleaseStart(g: Graph, inCount: seq<nat>, left: set<nat>, node: nat)
    requires Inverse(g) && node !in left && node < |g.next| && Counts(g, inCount, left + {node})
    ensures Releasing(g, inCount, left, node, g.next[node][..0])
  {
    forall m | m in left
      ensures inCount[m] == CountIn(g.prev[m], left) + multiset(g.next[node])[m]
    {
      CountInRemove(g.prev[m], left, node);
      assert Times(g.next, node, m) == Times(g.prev, m, node);
    }
  }

  /** Taking one off the count of the next successor, which is not zero, if it is left. */
  lemma ReleaseStep(g: Graph, inCount: seq<nat>, left: set<nat>, node: nat, i: nat)
    requires node < |g.next| && i < |g.next[node]| && Releasing(g, inCount, left, node, g.next[node][..i])
    ensures var n := g.next[node][i];
      if n in left then inCount[n] > 0 && Releasing(g, inCount[n := inCount[n] - 1], left, node, g.next[node][..i + 1])
      else Releasing(g, inCount, left, node, g.next[node][..i + 1])
  {
    hide CountIn;
    var next, n := g.next[node], g.next[node][i];
    assert multiset(next[..i + 1]) == multiset(next[..i]) + multiset{n} by { assert next[..i + 1] == next[..i] + [n]; }
    assert multiset(next) == multiset(next[..i + 1]) + multiset(next[i + 1..]) by {
      assert next == next[..i + 1] + next[i + 1..];
    }
  }

  /** What the heap compares: the type order of a cell, then its id. */
  function Keys(typeOrder: seq<int>, ids: seq<I64>): seq<(int, int)>
    requires |typeOrder| == |ids|
  {
    seq(|ids|, n requires 0 <= n < |ids| => (typeOrder[n], ids[n]))
  }

  /** Sets the type order of every needed cell and heaps the cells without in-edges. */
  method FillHeap(arena: NodeArena, cfg: Config, seen: set<nat>) returns (pq: set<nat>)
    requires Counts(arena.G(), arena.inCount, seen)
    requires |arena.typeOrder| == |arena.ids| == |arena.next|
    modifies arena`typeOrder
    ensures |arena.typeOrder| == |arena.ids|
    ensures forall n :: n in seen ==> arena.typeOrder[n] == cfg.TypeOrder(arena.ids[n])
    ensures IsReadySet(arena.inCount, seen, pq)
  {
    pq := {};
    var todo := seen;
    while todo != {}
      invariant todo <= seen && |arena.typeOrder| == |arena.ids|
      invariant forall n :: n in seen - todo ==> arena.typeOrder[n] == cfg.TypeOrder(arena.ids[n])
      invariant IsReadySet(arena.inCount, seen - todo, pq)
    {
      var n :| n in todo;
      arena.typeOrder := arena.typeOrder[n := cfg.TypeOrder(arena.ids[n])];
      if arena.inCount[n] == 0 {
        pq := pq + {n};
      }
      assert seen - (todo - {n}) == (seen - todo) + {n};
      todo := todo - {n};
    }
    assert seen - todo == seen;
  }

  lemma CountedIsCounts(g: Graph, inCount: seq<nat>, seen: set<nat>)
    requires PrevClosed(g, seen) && Counting(g, inCount, seen, [])
    ensures Counts(g, inCount, seen)
  {
    forall m | m in seen
      ensures inCount[m] == CountIn(g.prev[m], seen)
    {
      CountInAll(g.prev[m], seen);
    }
  }

  lemma ReadyIffZero(g: Graph, inCount: seq<nat>, left: set<nat>, n: nat)
    requires Counts(g, inCount, left) && n in left
    ensures Ready(g, left, n) <==> inCount[n] == 0
  {
    CountInZero(g.prev[n], left);
  }

  lemma EmitNext(g: Graph, keys: seq<(int, int)>, all: set<nat>, order: seq<nat>, left: set<nat>, n: nat)
    requires EmitsSoFar(g, keys, all, order, left) && GreatestReady(g, keys, left, n)
    ensures EmitsSoFar(g, keys, all, order + [n], left - {n})
  {
    var longer := order + [n];
    assert Elements(longer) == Elements(order) + {n};
    forall k | 0 <= k < |longer|
      ensures GreatestReady(g, keys, all - Elements(longer[..k]), longer[k])
    {
      assert longer[..k] == if k < |order| then order[..k] else order;
    }
  }

  /** Takes the greatest ready cell until none is left in the heap. */
  method Sort(arena: NodeArena, cfg: Config, all: set<nat>) returns (order: seq<nat>, left: set<nat>)
    requires Inverse(arena.G()) && PrevClosed(arena.G(), all)
    requires Counting(arena.G(), arena.inCount, all, [])
    requires |arena.typeOrder| == |arena.ids| == |arena.next|
    modifies arena`typeOrder, arena`inCount
    ensures |arena.typeOrder| == |arena.ids|
    ensures forall n :: n in all ==> arena.typeOrder[n] == cfg.TypeOrder(arena.ids[n])
    ensures Emits(arena.G(), Keys(arena.typeOrder, arena.ids), all, order, left)
  {
    ghost var g := arena.G();
    CountedIsCounts(g, arena.inCount, all);
    var pq := FillHeap(arena, cfg, all);
    var keys := Keys(arena.typeOrder, arena.ids);
    order, left := [], all;
    ghost var typeOrder := arena.typeOrder;
    while pq != {}
      invariant arena.typeOrder == typeOrder
      invariant Counts(g, arena.inCount, left) && IsReadySet(arena.inCount, left, pq)
      invariant EmitsSoFar(g, keys, all, order, left)
      decreases left
    {
      var n;
      n, pq := PopGreatest(keys, pq);
      forall m: nat | Ready(g, left, m) && m < |keys|
        ensures !Below(keys[n], keys[m])
      {
        ReadyIffZero(g, arena.inCount, left, m);
      }
      ReadyIffZero(g, arena.inCount, left, n);
      EmitNext(g, keys, all, order, left, n);
      assert left - {n} + {n} == left;
      order, left := order + [n], left - {n};
      pq := Release(arena, n, left, pq);
    }
    forall n: nat | n in left
      ensures !Ready(g, left, n)
    {
      ReadyIffZero(g, arena.inCount, left, n);
    }
  }

  // ---------------------------------------------------------------- what the order means

  lemma ElementsOfPrefix(order: seq<nat>, k: nat)
    requires k < |order|
    ensures Elements(order[..k + 1]) == Elements(order[..k]) + {order[k]}
    ensures order[k] in Elements(order)
  {
    assert order[..k + 1] == order[..k] + [order[k]];
  }

  /** Every needed cell comes out exactly once or is left over. */
  lemma EmittedOnce(g: Graph, keys: seq<(int, int)>, all: set<nat>, order: seq<nat>, left: set<nat>)
    requires Emits(g, keys, all, order, left)
    ensures Distinct(order) && Elements(order) !! left && Elements(order) + left == all
  {
    forall i, j | 0 <= i < j < |order|
      ensures order[i] != order[j]
    {
      assert order[i] in Elements(order[..j]) by { assert order[..j][i] == order[i]; }
      assert GreatestReady(g, keys, all - Elements(order[..j]), order[j]);
    }
  }

  /** A cell comes after everything it has an in-edge from. */
  lemma PrevComesFirst(g: Graph, keys: seq<(int, int)>, all: set<nat>, order: seq<nat>, left: set<nat>, j: nat, m: nat)
    requires Emits(g, keys, all, order, left) && PrevClosed(g, all)
    requires j < |order| && order[j] < |g.prev| && m in g.prev[order[j]]
    ensures exists i :: 0 <= i < j && order[i] == m
  {
    assert GreatestReady(g, keys, all - Elements(order[..j]), order[j]);
    assert order[j] in all && m in all;
    assert m in order[..j];
  }

  ghost predicate Stuck(g: Graph, S: set<nat>) {
    forall n: nat :: !Ready(g, S, n)
  }

  /** What is left over does not depend on how ties are broken: it is the greatest set of
      needed cells in which no cell is ready. */
  lemma LeftoverIsGreatestStuck(g: Graph, keys: seq<(int, int)>, all: set<nat>, order: seq<nat>, left: set<nat>,
                                X: set<nat>)
    requires Emits(g, keys, all, order, left) && X <= all && Stuck(g, X)
    ensures X <= left && Stuck(g, left)
  {
    StuckStays(g, keys, all, order, left, X, |order|);
    assert order[..|order|] == order;
  }

  lemma {:induction false} StuckStays(g: Graph, keys: seq<(int, int)>, all: set<nat>, order: seq<nat>, left: set<nat>,
                                      X: set<nat>, k: nat)
    requires Emits(g, keys, all, order, left) && X <= all && Stuck(g, X) && k <= |order|
    ensures X <= all - Elements(order[..k])
  {
    if k > 0 {
      StuckStays(g, keys, all, order, left, X, k - 1);
      ElementsOfPrefix(order, k - 1);
      var rest, n := all - Elements(order[..k - 1]), order[k - 1];
      assert GreatestReady(g, keys, rest, n);
      assert !Ready(g, X, n);
    }
  }

  // ---------------------------------------------------------------- leftovers and cycles

  lemma {:induction false} Pigeonhole(w: seq<nat>, S: set<nat>)
    requires |w| > |S| && forall k :: 0 <= k < |w| ==> w[k] in S
    ensures !Distinct(w)
  {
    var last := w[|w| - 1];
    if forall k :: 0 <= k < |w| - 1 ==> w[k] != last {
      Pigeonhole(w[..|w| - 1], S - {last});
      var i, j :| 0 <= i < j < |w| - 1 && w[..|w| - 1][i] == w[..|w| - 1][j];
      assert w[i] == w[j];
    }
  }

  /** A walk of `k` edges inside `S` that ends in `n`. */
  lemma {:induction false} BackWalk(g: Graph, S: set<nat>, n: nat, k: nat) returns (w: seq<nat>)
    requires Inverse(g) && InGraph(g, S) && Stuck(g, S) && n in S
    ensures |w| == k + 1 && Walk(g.next, w) && forall i :: 0 <= i < |w| ==> w[i] in S
    ensures w[k] == n
    decreases k
  {
    if k == 0 {
      w := [n];
    } else {
      assert !Ready(g, S, n);
      var m :| m in g.prev[n] && m in S;
      EdgeBothWays(g, m, n);
      var v := BackWalk(g, S, m, k - 1);
      w := v + [n];
    }
  }

  /** Where nothing is ready there is a cycle. */
  lemma StuckHasCycle(g: Graph, S: set<nat>)
    requires Inverse(g) && InGraph(g, S) && Stuck(g, S) && S != {}
    ensures exists seed :: seed in S && OnCycle(g.next, seed)
  {
    var n :| n in S;
    var w := BackWalk(g, S, n, |S|);
    Pigeonhole(w, S);
    var i, j :| 0 <= i < j < |w| && w[i] == w[j];
    PartIsClosed(g.next, w, i, j);
  }

  lemma PartIsClosed(next: seq<seq<nat>>, w: seq<nat>, i: nat, j: nat)
    requires Walk(next, w) && i < j < |w| && w[i] == w[j]
    ensures ClosedWalk(next, w[i], w[i..j + 1])
  {
    var c := w[i..j + 1];
    assert forall k :: 0 <= k < |c| ==> c[k] == w[i + k];
  }

  lemma {:induction false} WalkStaysNeeded(g: Graph, all: set<nat>, w: seq<nat>, k: nat)
    requires Inverse(g) && PrevClosed(g, all) && Walk(g.next, w) && k < |w| && w[|w| - 1] in all
    ensures w[k] in all
    decreases |w| - k
  {
    if k < |w| - 1 {
      WalkStaysNeeded(g, all, w, k + 1);
      EdgeBothWays(g, w[k], w[k + 1]);
    }
  }

  lemma CycleIsStuck(g: Graph, seed: nat, w: seq<nat>)
    requires Inverse(g) && ClosedWalk(g.next, seed, w)
    ensures Stuck(g, Elements(w))
  {
    forall n | n in Elements(w)
      ensures !Ready(g, Elements(w), n)
    {
      var k :| 0 <= k < |w| && w[k] == n;
      var j := if k == 0 then |w| - 1 else k;
      assert w[j - 1] in Elements(w);
      EdgeBothWays(g, w[j - 1], w[j]);
    }
  }

  /** The sort leaves cells over exactly when some needed cell is on a cycle; every such
      cell is left over. */
  lemma LeftoverIffCycle(g: Graph, keys: seq<(int, int)>, all: set<nat>, order: seq<nat>, left: set<nat>)
    requires Inverse(g) && InGraph(g, all) && PrevClosed(g, all) && Emits(g, keys, all, order, left)
    ensures left != {} <==> exists seed :: seed in all && OnCycle(g.next, seed)
    ensures forall seed :: seed in all && OnCycle(g.next, seed) ==> seed in left
  {
    forall seed | seed in all && OnCycle(g.next, seed)
      ensures seed in left
    {
      var w :| ClosedWalk(g.next, seed, w);
      forall k | 0 <= k < |w|
        ensures w[k] in all
      {
        WalkStaysNeeded(g, all, w, k);
      }
      CycleIsStuck(g, seed, w);
      LeftoverIsGreatestStuck(g, keys, all, order, left, Elements(w));
      assert w[0] in Elements(w);
    }
    if left != {} {
      StuckHasCycle(g, left);
    }
  }
}
