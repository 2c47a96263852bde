/** Three membership cycles that a user can enter, the graphs that the visitors build for them step
    by step, and what the cycle search makes of the graphs. */
module CycleExamples {
  import opened Wrappers
  import opened NodeNames
  import opened Dag
  import opened VisitStore
  import opened TopSort
  import opened CycleSearch

  const TYPE: I64 := 9

  /** Objects of one type without variables, with these members. */
  function Members(members: map<I64, seq<I64>>): Config {
    Config((map id | id in members :: Object(TYPE, members[id], []))[TYPE := Object(TYPE, [], [])],
           map[TYPE := TypeInfo(true, false, None)])
  }

  function Name(id: I64): string {
    NodeName([], id)
  }

  const NOTHING: Store := Store(Graph([], []), [], [], [], map[], map[], map[])

  /** The cells of the object that was entered as number `k`. */
  function Cells(k: nat): Pair {
    Pair(2 * k + 1, 2 * k)
  }

  function Enter(s: Store, id: I64): (t: Store)
    requires Sized(s)
    ensures Sized(t) && |t.ids| == |s.ids| + 2
    ensures t.g.next == s.g.next + [[], [|s.ids|]] && t.g.prev == s.g.prev + [[|s.ids| + 1], []]
  {
    var n := |s.ids|;
    assert [] + [n] == [n] && [] + [n + 1] == [n + 1];
    var t := SetInner(AddPair(s, Name(id), id), Name(id), []);
    assert t.g.next == s.g.next + [[], [n]];
    assert t.g.prev == s.g.prev + [[n + 1], []];
    t
  }

  /** Entered as number `k`, with members under the empty prefix. */
  ghost predicate EnteredAs(s: Store, id: I64, k: nat) {
    && Name(id) in s.nodes && s.nodes[Name(id)] == Cells(k) && Cells(k).node < |s.ids| && s.ids[Cells(k).node] == id
    && Name(id) in s.inner && s.inner[Name(id)] == []
  }

  /** Entered in this order. */
  ghost predicate Has(s: Store, ids: seq<I64>) {
    && Sized(s) && |s.ids| == 2 * |ids|
    && (forall k :: 0 <= k < |ids| ==> EnteredAs(s, ids[k], k))
    && s.inner.Keys <= s.nodes.Keys
    && forall name :: name in s.nodes ==> exists k :: 0 <= k < |ids| && name == Name(ids[k])
  }

  /** A step of a visit that reports no error, with all entered names still open. */
  ghost predicate Building(cfg: Config, s: Store, ids: seq<I64>, open: set<string>) {
    Has(s, ids) && ValidStore(cfg, s, open, true) && s.tops == map[]
  }

  lemma NewName(s: Store, ids: seq<I64>, id: I64)
    requires Has(s, ids) && id !in ids
    ensures Name(id) !in s.nodes
  {
    if Name(id) in s.nodes {
      var k :| 0 <= k < |ids| && Name(id) == Name(ids[k]);
      NodeNameInjective([], id, [], ids[k]);
    }
  }

  lemma NotInner(s: Store, ids: seq<I64>, id: I64)
    requires Has(s, ids)
    ensures Name(id) in s.inner ==> Name(id) in s.nodes
  {
  }

  lemma EnterKeeps(s: Store, ids: seq<I64>, id: I64)
    requires Has(s, ids) && Name(id) !in s.nodes
    ensures var t := Enter(s, id);
      && EnteredAs(t, id, |ids|) && t.nodes.Keys == s.nodes.Keys + {Name(id)} && t.inner.Keys <= t.nodes.Keys
      && forall k :: 0 <= k < |ids| ==> EnteredAs(t, ids[k], k)
  {
    hide NodeName, AddEdge;
    var t := Enter(s, id);
    forall k | 0 <= k < |ids| ensures EnteredAs(t, ids[k], k) {
      assert EnteredAs(s, ids[k], k);
    }
  }

  lemma EnterHas(s: Store, ids: seq<I64>, id: I64)
    requires Has(s, ids) && Name(id) !in s.nodes
    ensures Has(Enter(s, id), ids + [id])
  {
    hide NodeName, Name, AddEdge, EnteredAs, Enter;
    var more := ids + [id];
    EnterKeeps(s, ids, id);
    forall k | 0 <= k < |more| ensures EnteredAs(Enter(s, id), more[k], k) {
      assert more[k] == if k < |ids| then ids[k] else id;
    }
    forall name | name in Enter(s, id).nodes ensures exists k :: 0 <= k < |more| && name == Name(more[k]) {
      if name in s.nodes {
        var k :| 0 <= k < |ids| && name == Name(ids[k]);
        assert more[k] == ids[k];
      } else {
        assert more[|ids|] == id;
      }
    }
  }

  lemma EnterValid(cfg: Config, s: Store, ids: seq<I64>, open: set<string>, id: I64)
    requires Building(cfg, s, ids, open) && id !in ids && cfg.Known(id)
    ensures Building(cfg, Enter(s, id), ids + [id], open + {Name(id)})
  {
    assert Name(id) == NodeName([], id);
    NotInner(s, ids, id);
    hide ValidStore, NodeName, Has;
    NewName(s, ids, id);
    EnterHas(s, ids, id);
    assert Named(Name(id), id) && InnerOf(Name(id), id, []);
    AddPairValid(cfg, s, open, true, Name(id), id);
    SetInnerValid(cfg, AddPair(s, Name(id), id), open + {Name(id)}, true, Name(id), []);
  }

  function Link(s: Store, a: nat, b: nat): (t: Store)
    requires Sized(s) && Cells(a).node < |s.ids| && Cells(b).node < |s.ids|
    ensures Sized(t) && t.ids == s.ids && t.normal == s.normal && t.names == s.names
    ensures t.g == LinkedGraph(s.g, a, b)
  {
    LinkChild(s, Cells(a), Cells(b))
  }

  /** The four pushes. */
  function LinkedGraph(g: Graph, a: nat, b: nat): Graph
    requires |g.next| == |g.prev| && 2 * a + 1 < |g.next| && 2 * b + 1 < |g.next|
  {
    Graph(PushAt(PushAt(g.prev, 2 * b + 1, 2 * a + 1), 2 * a, 2 * b),
      PushAt(PushAt(g.next, 2 * a + 1, 2 * b + 1), 2 * b, 2 * a))
  }

  function PushAt(edges: seq<seq<nat>>, cell: nat, other: nat): seq<seq<nat>>
    requires cell < |edges|
  {
    edges[cell := edges[cell] + [other]]
  }

  lemma LinkValid(cfg: Config, s: Store, ids: seq<I64>, open: set<string>, a: nat, b: nat)
    requires Building(cfg, s, ids, open) && a < |ids| && b < |ids| && cfg.Known(ids[a])
    requires ids[b] in cfg.Children(ids[a])
    ensures Building(cfg, Link(s, a, b), ids, open)
  {
    PairIsOk(cfg, s, ids, open, a);
    hide ValidStore, PairOk, NodeName;
    assert EnteredAs(s, ids[a], a) && EnteredAs(s, ids[b], b);
    assert IsMember(cfg, s, Name(ids[a]), ids[b]);
    LinkChildValid(cfg, s, open, true, Name(ids[a]), ids[b]);
  }

  lemma PairIsOk(cfg: Config, s: Store, ids: seq<I64>, open: set<string>, a: nat)
    requires Building(cfg, s, ids, open) && a < |ids|
    ensures PairOk(cfg, s, Name(ids[a]))
  {
  }

  /** All members linked: every name is closed. */
  lemma CloseAll(cfg: Config, s: Store, ids: seq<I64>, open: set<string>)
    requires Building(cfg, s, ids, open)
    requires forall k :: 0 <= k < |ids| ==>
      cfg.Known(ids[k]) && cfg.Dependencies(ids[k]) == [] && AllMembersIn(cfg, s, ids, k)
    ensures ValidStore(cfg, s, {}, true)
  {
    forall name | name in s.nodes ensures PairOk(cfg, s, name) && Complete(cfg, s, name) {
      var k :| 0 <= k < |ids| && name == Name(ids[k]);
      PairIsOk(cfg, s, ids, open, k);
      MembersLinked(cfg, s, ids, k);
    }
  }

  /** The members of object `k` are entered and their edges are there. */
  ghost predicate AllMembersIn(cfg: Config, s: Store, ids: seq<I64>, k: nat)
    requires Sized(s) && k < |ids| && cfg.Known(ids[k])
  {
    forall c :: c in cfg.Children(ids[k]) ==> exists b :: 0 <= b < |ids| && ids[b] == c && Inside(s, Cells(k), Cells(b))
  }

  lemma MembersLinked(cfg: Config, s: Store, ids: seq<I64>, k: nat)
    requires Has(s, ids) && k < |ids| && cfg.Known(ids[k]) && AllMembersIn(cfg, s, ids, k)
    ensures AllLinked(s, Cells(k), [], cfg.Children(ids[k]))
  {
    hide NodeName, Inside;
    forall c | c in cfg.Children(ids[k]) ensures ChildLinked(s, Cells(k), [], c) {
      var b :| 0 <= b < |ids| && ids[b] == c && Inside(s, Cells(k), Cells(b));
      assert EnteredAs(s, ids[b], b);
    }
  }

  // ---------------------------------------------------------------- the three graphs

  lemma NothingIsValid(cfg: Config)
    ensures Building(cfg, NOTHING, [], {})
  {
  }

  /** Two objects entered, A and then B. */
  function TwoStore(): (s: Store)
    ensures Sized(s) && |s.ids| == 4
    ensures s.g.next == [[], [0], [], [2]] && s.g.prev == [[1], [], [3], []]
  {
    Enter(Enter(NOTHING, 1), 2)
  }

  const TWO: set<string> := {Name(1), Name(2)}

  lemma TwoEntered(cfg: Config)
    requires cfg.Known(1) && cfg.Known(2)
    ensures Building(cfg, TwoStore(), [1, 2], TWO)
  {
    hide ValidStore, NodeName, Has, AddPair;
    NothingIsValid(cfg);
    EnterValid(cfg, NOTHING, [], {}, 1);
    assert [] + [1 as I64] == [1];
    EnterValid(cfg, Enter(NOTHING, 1), [1], {} + {Name(1)}, 2);
    assert [1 as I64] + [2] == [1, 2] && {} + {Name(1)} + {Name(2)} == TWO;
  }

  lemma FirstLink()
    ensures LinkedGraph(TwoStore().g, 1, 0) == Graph([[1], [3], [3, 0], []], [[2], [0], [], [2, 1]])
  {
    hide TwoStore;
    assert [2 as nat] + [1] == [2, 1] && [] + [2 as nat] == [2];
    assert [] + [3 as nat] == [3] && [3 as nat] + [0] == [3, 0];
    var g := LinkedGraph(TwoStore().g, 1, 0);
    assert g.next == [[2], [0], [], [2, 1]];
    assert g.prev == [[1], [3], [3, 0], []];
  }

  /** A contains B and itself, and B contains A. */
  const SELF: map<I64, seq<I64>> := map[1 := [2, 1], 2 := [1]]

  /** A is visited first: B inside it, A inside B, and then A inside A. */
  function SelfStore(): (s: Store)
    ensures Sized(s) && |s.ids| == 4 && s.g.next == SELF_NEXT
  {
    hide Enter, Link;
    var s := Link(TwoStore(), 1, 0);
    FirstLink();
    assert s.g.next == [[2], [0], [], [2, 1]];
    assert [0 as nat] + [3] == [0, 3] && [] + [0 as nat] == [0];
    var t := Link(s, 0, 1);
    assert t.g.next == [[2], [0, 3], [0], [2, 1]];
    assert [0 as nat, 3] + [1] == [0, 3, 1] && [2 as nat] + [0] == [2, 0];
    Link(t, 0, 0)
  }

  const SELF_NEXT: seq<seq<nat>> := [[2, 0], [0, 3, 1], [0], [2, 1]]

  lemma SelfChildren(cfg: Config)
    requires cfg == Members(SELF)
    ensures forall id :: id in [1, 2] ==> cfg.Known(id) && cfg.Dependencies(id) == []
    ensures cfg.Children(1) == [2, 1] && cfg.Children(2) == [1]
  {
  }

  lemma SelfBuilt(cfg: Config)
    requires cfg == Members(SELF)
    ensures Building(cfg, SelfStore(), [1, 2], TWO)
  {
    hide Building, NodeName, Enter, Link, TwoStore;
    SelfChildren(cfg);
    TwoEntered(cfg);
    var s1 := TwoStore();
    LinkValid(cfg, s1, [1, 2], TWO, 1, 0);
    LinkValid(cfg, Link(s1, 1, 0), [1, 2], TWO, 0, 1);
    LinkValid(cfg, Link(Link(s1, 1, 0), 0, 1), [1, 2], TWO, 0, 0);
  }

  lemma SelfInside()
    ensures var s := SelfStore();
      Inside(s, Cells(0), Cells(1)) && Inside(s, Cells(0), Cells(0)) && Inside(s, Cells(1), Cells(0))
  {
    hide SelfStore;
  }

  lemma SelfGraph()
    ensures ValidStore(Members(SELF), SelfStore(), {}, true)
  {
    hide ValidStore, NodeName, Has, SelfStore, Inside, Cells;
    var cfg := Members(SELF);
    SelfBuilt(cfg);
    SelfChildren(cfg);
    SelfInside();
    CloseAll(cfg, SelfStore(), [1, 2], TWO);
  }

  /** A contains B, and B contains A. */
  const MUTUAL: map<I64, seq<I64>> := map[1 := [2], 2 := [1]]

  const MUTUAL_GRAPH: Graph := Graph([[1, 2], [3], [3, 0], [1]], [[2], [0, 3], [0], [2, 1]])

  function MutualStore(): (s: Store)
    ensures Sized(s) && |s.ids| == 4 && s.g == MUTUAL_GRAPH
    ensures s.ids == TwoStore().ids && s.normal == TwoStore().normal && s.names == TwoStore().names
  {
    hide Enter, Link;
    var s := Link(TwoStore(), 1, 0);
    FirstLink();
    assert s.g.next == [[2], [0], [], [2, 1]];
    assert s.g.prev == [[1], [3], [3, 0], []];
    assert [0 as nat] + [3] == [0, 3] && [] + [0 as nat] == [0];
    assert [] + [1 as nat] == [1] && [1 as nat] + [2] == [1, 2];
    Link(s, 0, 1)
  }

  lemma MutualBuilt(cfg: Config)
    requires cfg.Known(1) && cfg.Known(2) && cfg.Children(1) == [2] && cfg.Children(2) == [1]
    ensures Building(cfg, MutualStore(), [1, 2], TWO)
  {
    hide ValidStore, NodeName, Has, Enter, Link, TwoStore;
    TwoEntered(cfg);
    LinkValid(cfg, TwoStore(), [1, 2], TWO, 1, 0);
    LinkValid(cfg, Link(TwoStore(), 1, 0), [1, 2], TWO, 0, 1);
  }

  lemma MutualGraph()
    ensures ValidStore(Members(MUTUAL), MutualStore(), {}, true)
  {
    hide ValidStore, NodeName, Has, MutualStore;
    var cfg := Members(MUTUAL);
    MutualBuilt(cfg);
    var s := MutualStore();
    assert Inside(s, Cells(0), Cells(1)) && Inside(s, Cells(1), Cells(0));
    CloseAll(cfg, s, [1, 2], TWO);
  }

  /** A contains B and B contains A; C contains D, D contains E, and E contains C. */
  const BOTH: map<I64, seq<I64>> := map[1 := [2], 2 := [1], 3 := [4], 4 := [5], 5 := [3]]

  const BOTH_NEXT: seq<seq<nat>> := [[2], [0, 3], [0], [2, 1], [8], [4, 7], [4], [6, 9], [6], [8, 5]]

  /** A and B as before, and then the other three entered. */
  function FiveStore(): (s: Store)
    ensures Sized(s) && |s.ids| == 10
    ensures s.g.next == [[2], [0, 3], [0], [2, 1], [], [4], [], [6], [], [8]]
  {
    hide Enter, MutualStore;
    var s := Enter(MutualStore(), 3);
    assert s.g.next == [[2], [0, 3], [0], [2, 1], [], [4]];
    var t := Enter(s, 4);
    assert t.g.next == [[2], [0, 3], [0], [2, 1], [], [4], [], [6]];
    Enter(t, 5)
  }

  function BothStore(): (s: Store)
    ensures Sized(s) && |s.ids| == 10 && s.g.next == BOTH_NEXT
  {
    hide Link, FiveStore;
    assert [8 as nat] + [5] == [8, 5] && [] + [8 as nat] == [8];
    var s := Link(FiveStore(), 4, 2);
    assert s.g.next == [[2], [0, 3], [0], [2, 1], [8], [4], [], [6], [], [8, 5]];
    assert [6 as nat] + [9] == [6, 9] && [] + [6 as nat] == [6];
    var t := Link(s, 3, 4);
    assert t.g.next == [[2], [0, 3], [0], [2, 1], [8], [4], [], [6, 9], [6], [8, 5]];
    assert [4 as nat] + [7] == [4, 7] && [] + [4 as nat] == [4];
    Link(t, 2, 3)
  }

  const FIVE: set<string> := {Name(1), Name(2), Name(3), Name(4), Name(5)}

  lemma FiveEntered(cfg: Config)
    requires cfg == Members(BOTH)
    ensures Building(cfg, FiveStore(), [1, 2, 3, 4, 5], FIVE)
  {
    hide ValidStore, NodeName, Has, Enter, MutualStore;
    assert cfg.Children(1) == [2] && cfg.Children(2) == [1];
    MutualBuilt(cfg);
    var s := MutualStore();
    EnterValid(cfg, s, [1, 2], TWO, 3);
    assert [1 as I64, 2] + [3] == [1, 2, 3];
    EnterValid(cfg, Enter(s, 3), [1, 2, 3], TWO + {Name(3)}, 4);
    assert [1 as I64, 2, 3] + [4] == [1, 2, 3, 4];
    EnterValid(cfg, Enter(Enter(s, 3), 4), [1, 2, 3, 4], TWO + {Name(3)} + {Name(4)}, 5);
    assert [1 as I64, 2, 3, 4] + [5] == [1, 2, 3, 4, 5];
    assert TWO + {Name(3)} + {Name(4)} + {Name(5)} == FIVE;
  }

  lemma BothChildren(cfg: Config)
    requires cfg == Members(BOTH)
    ensures forall id :: id in [1, 2, 3, 4, 5] ==> cfg.Known(id) && cfg.Dependencies(id) == []
    ensures cfg.Children(1) == [2] && cfg.Children(2) == [1] && cfg.Children(3) == [4] && cfg.Children(4) == [5]
    ensures cfg.Children(5) == [3]
  {
  }

  lemma BothBuilt(cfg: Config)
    requires cfg == Members(BOTH)
    ensures Building(cfg, BothStore(), [1, 2, 3, 4, 5], FIVE)
  {
    hide Building, NodeName, Link, FiveStore;
    var ids, s1 := [1, 2, 3, 4, 5], FiveStore();
    FiveEntered(cfg);
    BothChildren(cfg);
    LinkValid(cfg, s1, ids, FIVE, 4, 2);
    LinkValid(cfg, Link(s1, 4, 2), ids, FIVE, 3, 4);
    LinkValid(cfg, Link(Link(s1, 4, 2), 3, 4), ids, FIVE, 2, 3);
  }

  lemma BothInside()
    ensures var s := BothStore();
      && Inside(s, Cells(0), Cells(1)) && Inside(s, Cells(1), Cells(0))
      && Inside(s, Cells(2), Cells(3)) && Inside(s, Cells(3), Cells(4)) && Inside(s, Cells(4), Cells(2))
  {
    hide BothStore;
  }

  lemma BothGraph()
    ensures ValidStore(Members(BOTH), BothStore(), {}, true)
  {
    hide ValidStore, NodeName, Has, BothStore, Inside, Cells;
    var cfg, ids := Members(BOTH), [1, 2, 3, 4, 5];
    BothBuilt(cfg);
    BothChildren(cfg);
    BothInside();
    CloseAll(cfg, BothStore(), ids, FIVE);
  }

  // ---------------------------------------------------------------- what the search reports

  /** In the graph of A, which contains B and itself, the self loop of A is passed over: B, which
      stands before it in the edges of A, has an edge back. */
  lemma SelfLoopPassedOver(c: seq<nat>)
    requires Candidate(SelfStore().g.next, 1, c)
    ensures !Shortest(SelfStore().g.next, 1, c) && ClosedWalk(SelfStore().g.next, 1, [1, 1])
  {
    hide SelfStore, Shortest, ReversedCycle;
    var next := SELF_NEXT;
    assert next[1] == [0, 3, 1] && next[1][..2] == [0, 3] && next[next[1][1]] == [2, 1];
    assert !SelfLoopFirst(next, 1);
  }

  lemma ThreeCycleIsLong(c: seq<nat>)
    requires ReversedCycle(BOTH_NEXT, 5, c)
    ensures |c| >= 4
  {
    assert c[0] in BOTH_NEXT[c[1]];
    assert c[1] == 9;
    assert |c| >= 3;
    assert c[1] in BOTH_NEXT[c[2]];
    assert c[2] == 7;
  }

  /** With a cycle of two objects beside one of three, the longer one is reported. */
  lemma LongerCycleIsReported(left: set<nat>, kept: seq<nat>, candidates: map<nat, seq<nat>>)
    requires left == {0, 1, 2, 3, 4, 5, 6, 7, 8, 9} && Reported(BothStore().g.next, left, kept, candidates)
    ensures !IsShortestOfAll(BothStore().g.next, left, kept) && |kept| >= 4
    ensures ClosedWalk(BothStore().g.next, 1, [1, 3, 1])
  {
    hide BothStore, ReversedCycle, SelfLoopFirst, Shortest, ValidStore;
    assert ClosedWalk(BOTH_NEXT, 1, [1, 3, 1]);
    assert ClosedWalk(BOTH_NEXT, 5, [5, 7, 9, 5]);
    assert OnCycle(BOTH_NEXT, 5);
    assert 5 in candidates;
    assert Candidate(BOTH_NEXT, 5, candidates[5]);
    CandidateIsCycle(BOTH_NEXT, 5, candidates[5]);
    ThreeCycleIsLong(candidates[5]);
    assert 1 in left;
  }
}
