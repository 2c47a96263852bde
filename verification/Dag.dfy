/** The deployment graph: cells of an arena addressed by index, each with the edge lists
    `prev` and `next`, and the walks they allow. */
module Dag {
  import opened NodeNames

  /** The edge lists of all cells; a reference to a cell is its index. */
  datatype Graph = Graph(prev: seq<seq<nat>>, next: seq<seq<nat>>)

  ghost predicate InRange(edges: seq<seq<nat>>, size: nat) {
    |edges| == size && forall a, k :: 0 <= a < size && 0 <= k < |edges[a]| ==> edges[a][k] < size
  }

  /** How often `b` occurs in the edge list of `a`. */
  ghost function Times(edges: seq<seq<nat>>, a: nat, b: nat): nat
    requires a < |edges|
  {
    multiset(edges[a])[b]
  }

  /** `prev` and `next` are exact inverses as multisets. */
  ghost predicate Inverse(g: Graph) {
    && InRange(g.prev, |g.next|)
    && InRange(g.next, |g.next|)
    && forall a, b :: 0 <= a < |g.next| && 0 <= b < |g.next| ==> Times(g.next, a, b) == Times(g.prev, b, a)
  }

  function AddEdge(g: Graph, a: nat, b: nat): Graph
    requires a < |g.next| && b < |g.prev|
  {
    Graph(g.prev[b := g.prev[b] + [a]], g.next[a := g.next[a] + [b]])
  }

  function AddCell(g: Graph): Graph {
    Graph(g.prev + [[]], g.next + [[]])
  }

  lemma TimesPush(edges: seq<seq<nat>>, a: nat, b: nat, x: nat, y: nat)
    requires a < |edges| && x < |edges|
    ensures Times(edges[a := edges[a] + [b]], x, y) == Times(edges, x, y) + if x == a && y == b then 1 else 0
  {
    assert multiset(edges[a] + [b]) == multiset(edges[a]) + multiset{b};
  }

  lemma AddEdgeKeepsInverse(g: Graph, a: nat, b: nat)
    requires Inverse(g) && a < |g.next| && b < |g.next|
    ensures Inverse(AddEdge(g, a, b))
  {
    var h := AddEdge(g, a, b);
    forall x, y | 0 <= x < |g.next| && 0 <= y < |g.next|
      ensures Times(h.next, x, y) == Times(h.prev, y, x)
    {
      TimesPush(g.next, a, b, x, y);
      TimesPush(g.prev, b, a, y, x);
      assert Times(g.next, x, y) == Times(g.prev, y, x);
    }
  }

  lemma AddCellKeepsInverse(g: Graph)
    requires Inverse(g)
    ensures Inverse(AddCell(g))
  {
    var h := AddCell(g);
    forall x, y | 0 <= x < |h.next| && 0 <= y < |h.next|
      ensures Times(h.next, x, y) == Times(h.prev, y, x)
    {
      if x < |g.next| && y < |g.next| {
        assert Times(g.next, x, y) == Times(g.prev, y, x);
      } else if x < |g.next| {
        assert y !in g.next[x];
      } else if y < |g.next| {
        assert x !in g.prev[y];
      }
    }
  }

  lemma EdgeBothWays(g: Graph, a: nat, b: nat)
    requires Inverse(g) && a < |g.next| && b < |g.next|
    ensures b in g.next[a] <==> a in g.prev[b]
  {
    assert Times(g.next, a, b) == Times(g.prev, b, a);
    assert b in multiset(g.next[a]) <==> b in g.next[a];
    assert a in multiset(g.prev[b]) <==> a in g.prev[b];
  }

  // ---------------------------------------------------------------- walks

  /** A walk along `next` edges. */
  ghost predicate Walk(next: seq<seq<nat>>, w: seq<nat>) {
    && (forall k :: 0 <= k < |w| ==> w[k] < |next|)
    && forall k :: 0 <= k < |w| - 1 ==> w[k + 1] in next[w[k]]
  }

  /** A closed walk through `seed` with at least one edge. */
  ghost predicate ClosedWalk(next: seq<seq<nat>>, seed: nat, w: seq<nat>) {
    |w| >= 2 && w[0] == seed && w[|w| - 1] == seed && Walk(next, w)
  }

  ghost predicate OnCycle(next: seq<seq<nat>>, seed: nat) {
    exists w :: ClosedWalk(next, seed, w)
  }

  ghost function Elements(w: seq<nat>): set<nat> {
    set x | x in w
  }

  // ---------------------------------------------------------------- the arena of cells

  /** The cells that the accessor can read and write; every field holds one entry a cell. */
  class NodeArena {
    var prev: seq<seq<nat>>
    var next: seq<seq<nat>>
    var ids: seq<I64>
    var normal: seq<bool>
    var inCount: seq<nat>
    var typeOrder: seq<int>

    ghost function G(): Graph
      reads this
    {
      Graph(prev, next)
    }

    /** Every cell has all its fields, and no count has been started. */
    ghost predicate Fresh()
      reads this
    {
      && |prev| == |next| == |ids| == |normal| == |inCount| == |typeOrder|
      && forall i :: 0 <= i < |inCount| ==> inCount[i] == 0
    }

    constructor ()
      ensures Fresh() && prev == next == [] && ids == [] && normal == []
    {
      prev, next, ids, normal, inCount, typeOrder := [], [], [], [], [], [];
    }

    method Alloc(id: I64, isNormal: bool) returns (cell: nat)
      requires Fresh()
      modifies this
      ensures Fresh() && cell == |old(next)|
      ensures G() == AddCell(old(G()))
      ensures ids == old(ids) + [id] && normal == old(normal) + [isNormal]
    {
      cell := |next|;
      prev, next := prev + [[]], next + [[]];
      ids, normal := ids + [id], normal + [isNormal];
      inCount, typeOrder := inCount + [0], typeOrder + [0];
    }

    method PushPrev(cell: nat, other: nat)
      requires Fresh() && cell < |prev|
      modifies this`prev
      ensures Fresh() && prev == old(prev)[cell := old(prev)[cell] + [other]]
    {
      prev := prev[cell := prev[cell] + [other]];
    }

    method PushNext(cell: nat, other: nat)
      requires Fresh() && cell < |next|
      modifies this`next
      ensures Fresh() && next == old(next)[cell := old(next)[cell] + [other]]
    {
      next := next[cell := next[cell] + [other]];
    }

    /** Both halves of an edge from `a` to `b`. */
    method Link(a: nat, b: nat)
      requires Fresh() && a < |next| && b < |next|
      modifies this`prev, this`next
      ensures Fresh() && G() == AddEdge(old(G()), a, b)
    {
      PushNext(a, b);
      PushPrev(b, a);
    }
  }
}
