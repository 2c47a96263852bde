/** `setup_deployment_host` up to the emission order: visit, select, sort, and report a cycle
    if the sort gets stuck; with what the order promises about objects. */
module HostOrder {
  import opened Wrappers
  import opened NodeNames
  import opened Dag
  import opened VisitStore
  import opened Visitor
  import opened Problems
  import opened TopSort
  import opened CycleSearch

  /** A chain of containment: each pair of cells lies inside the one before it. */
  ghost predicate Nested(s: Store, chain: seq<Pair>) {
    forall k :: 0 <= k < |chain| - 1 ==> Inside(s, chain[k], chain[k + 1])
  }

  /** A pair of cells that was made for a visited object. */
  ghost predicate IsPair(s: Store, p: Pair) {
    exists name :: name in s.nodes && s.nodes[name] == p
  }

  ghost predicate Before(order: seq<nat>, a: nat, b: nat) {
    forall j :: 0 <= j < |order| && order[j] == b ==> exists i :: 0 <= i < j && order[i] == a
  }

  lemma BeforeTransitive(order: seq<nat>, a: nat, b: nat, c: nat)
    requires Before(order, a, b) && Before(order, b, c)
    ensures Before(order, a, c)
  {
    forall k | 0 <= k < |order| && order[k] == c
      ensures exists i :: 0 <= i < k && order[i] == a
    {
      var j :| 0 <= j < k && order[j] == b;
      var i :| 0 <= i < j && order[i] == a;
    }
  }

  lemma EdgeOrders(s: Store, keys: seq<(int, int)>, all: set<nat>, order: seq<nat>, left: set<nat>, a: nat, b: nat)
    requires Inverse(s.g) && PrevClosed(s.g, all) && Emits(s.g, keys, all, order, left)
    requires a < |s.g.next| && b in s.g.next[a]
    ensures Before(order, a, b)
  {
    EdgeBothWays(s.g, a, b);
    forall j | 0 <= j < |order| && order[j] == b
      ensures exists i :: 0 <= i < j && order[i] == a
    {
      PrevComesFirst(s.g, keys, all, order, left, j, a);
    }
  }

  /** A container comes before each of its members, at any depth. */
  lemma {:induction false} ContainerFirst(s: Store, keys: seq<(int, int)>, all: set<nat>, order: seq<nat>,
                                          left: set<nat>, chain: seq<Pair>)
    requires Inverse(s.g) && PrevClosed(s.g, all) && Emits(s.g, keys, all, order, left)
    requires |chain| >= 2 && Nested(s, chain)
    ensures Before(order, chain[0].node, chain[|chain| - 1].node)
    ensures Before(order, chain[|chain| - 1].sentinel, chain[0].sentinel)
    decreases |chain|
  {
    var n := |chain| - 1;
    assert Inside(s, chain[n - 1], chain[n]);
    EdgeOrders(s, keys, all, order, left, chain[n - 1].node, chain[n].node);
    EdgeOrders(s, keys, all, order, left, chain[n].sentinel, chain[n - 1].sentinel);
    if n >= 2 {
      ContainerFirst(s, keys, all, order, left, chain[..n]);
      BeforeTransitive(order, chain[0].node, chain[n - 1].node, chain[n].node);
      BeforeTransitive(order, chain[n].sentinel, chain[n - 1].sentinel, chain[0].sentinel);
    }
  }

  /** Everything contained at any depth in a dependency comes before the dependent object. */
  lemma DependencyContentsFirst(cfg: Config, s: Store, keys: seq<(int, int)>, all: set<nat>, order: seq<nat>,
                                left: set<nat>,
                                name: string, dep: I64, chain: seq<Pair>)
    requires ValidStore(cfg, s, {}, true)
    requires PrevClosed(s.g, all) && Emits(s.g, keys, all, order, left)
    requires name in s.nodes && PairOk(cfg, s, name) && dep in cfg.Dependencies(s.ids[s.nodes[name].node])
    requires dep in s.tops && chain != [] && s.tops[dep] == Some(chain[0])
    requires Nested(s, chain) && forall c :: c in chain ==> IsPair(s, c)
    ensures Before(order, chain[|chain| - 1].node, s.nodes[name].node)
  {
    hide ValidStore, Emits, Inverse, PrevClosed, PairOk;
    var p, last := s.nodes[name], chain[|chain| - 1];
    WaitsFor(cfg, s, name, dep);
    EdgeOrders(s, keys, all, order, left, chain[0].sentinel, p.node);
    assert IsPair(s, last);
    PairEdge(cfg, s, last);
    EdgeOrders(s, keys, all, order, left, last.node, last.sentinel);
    if |chain| >= 2 {
      ContainerFirst(s, keys, all, order, left, chain);
      BeforeTransitive(order, last.sentinel, chain[0].sentinel, p.node);
    }
    BeforeTransitive(order, last.node, last.sentinel, p.node);
  }

  lemma WaitsFor(cfg: Config, s: Store, name: string, dep: I64)
    requires ValidStore(cfg, s, {}, true) && name in s.nodes && PairOk(cfg, s, name)
    requires dep in cfg.Dependencies(s.ids[s.nodes[name].node])
    ensures Inverse(s.g) && DepLinked(s, s.nodes[name], dep)
  {
    assert Complete(cfg, s, name);
  }

  // ---------------------------------------------------------------- the same on objects

  /** A chain of objects, each of them contained in the one before it. */
  ghost predicate MemberChain(cfg: Config, ids: seq<I64>) {
    ids != [] && forall k :: 0 <= k < |ids| - 1 ==> cfg.Known(ids[k]) && ids[k + 1] in cfg.Children(ids[k])
  }

  /** These pairs of cells were made for these objects, and lie inside one another. */
  ghost predicate Follows(s: Store, chain: seq<Pair>, ids: seq<I64>) {
    |chain| == |ids| && Nested(s, chain) && forall k :: 0 <= k < |ids| ==> Visited(s, chain[k], ids[k])
  }

  /** In a graph without errors every chain of objects that starts at a visited one has its cells. */
  lemma {:induction false} ChainIsVisited(cfg: Config, s: Store, p: Pair, ids: seq<I64>) returns (chain: seq<Pair>)
    requires ValidStore(cfg, s, {}, true) && MemberChain(cfg, ids) && Visited(s, p, ids[0])
    ensures Follows(s, chain, ids) && chain[0] == p
    decreases |ids|
  {
    hide ValidStore, Visited, Inside;
    if |ids| == 1 {
      chain := [p];
    } else {
      var c := MemberIsVisited(cfg, s, p, ids[0], ids[1]);
      assert MemberChain(cfg, ids[1..]);
      var rest := ChainIsVisited(cfg, s, c, ids[1..]);
      chain := [p] + rest;
      forall k | 0 <= k < |ids| ensures Visited(s, chain[k], ids[k]) {
        if k > 0 { assert chain[k] == rest[k - 1] && ids[k] == ids[1..][k - 1]; }
      }
      forall k | 0 <= k < |chain| - 1 ensures Inside(s, chain[k], chain[k + 1]) {
        if k > 0 { assert Inside(s, rest[k - 1], rest[k]); }
      }
    }
  }

  lemma MemberIsVisited(cfg: Config, s: Store, p: Pair, id: I64, child: I64) returns (c: Pair)
    requires ValidStore(cfg, s, {}, true) && Visited(s, p, id) && cfg.Known(id) && child in cfg.Children(id)
    ensures Visited(s, c, child) && Inside(s, p, c)
  {
    hide Visited, Inside, NodeName;
    var name := NameOf(s, p, id);
    assert PairOk(cfg, s, name) && Complete(cfg, s, name);
    assert ChildLinked(s, p, s.inner[name], child);
    AtIsVisited(cfg, s, {}, true, s.inner[name], child);
    c := s.nodes[NodeName(s.inner[name], child)];
  }

  lemma NameOf(s: Store, p: Pair, id: I64) returns (name: string)
    requires Visited(s, p, id)
    ensures name in s.nodes && s.nodes[name] == p && p.node < |s.ids| && s.ids[p.node] == id
  {
    name :| name in s.nodes && s.nodes[name] == p && p.node < |s.ids| && s.ids[p.node] == id;
  }

  /** Down any chain of members the visited object comes before the last one, whose cells lie inside. */
  lemma MembersComeInside(cfg: Config, s: Store, keys: seq<(int, int)>, all: set<nat>, order: seq<nat>, left: set<nat>,
                          p: Pair, ids: seq<I64>)
    returns (chain: seq<Pair>)
    requires ValidStore(cfg, s, {}, true) && PrevClosed(s.g, all) && Emits(s.g, keys, all, order, left)
    requires MemberChain(cfg, ids) && |ids| >= 2 && Visited(s, p, ids[0])
    ensures Follows(s, chain, ids) && chain[0] == p
    ensures Before(order, p.node, chain[|ids| - 1].node) && Before(order, chain[|ids| - 1].sentinel, p.sentinel)
  {
    chain := ChainIsVisited(cfg, s, p, ids);
    assert Inverse(s.g);
    hide ValidStore, Emits, Inverse, PrevClosed;
    ContainerFirst(s, keys, all, order, left, chain);
  }

  /** An object that depends on the first of a chain of members comes after all of them. */
  lemma DependenciesComeFirst(cfg: Config, s: Store, keys: seq<(int, int)>, all: set<nat>, order: seq<nat>,
                              left: set<nat>,
                              p: Pair, id: I64, ids: seq<I64>) returns (chain: seq<Pair>)
    requires ValidStore(cfg, s, {}, true) && PrevClosed(s.g, all) && Emits(s.g, keys, all, order, left)
    requires Visited(s, p, id) && cfg.Known(id) && MemberChain(cfg, ids) && ids[0] in cfg.Dependencies(id)
    ensures Follows(s, chain, ids) && Before(order, chain[|ids| - 1].node, p.node)
  {
    hide ValidStore, PairOk, Emits, Inverse, PrevClosed, Nested, Visited, Before, Config.Known, Config.Dependencies;
    var name := DependencyHead(cfg, s, p, id, ids[0]);
    chain := ChainIsVisited(cfg, s, s.tops[ids[0]].value, ids);
    ChainIsPairs(s, chain, ids);
    DependencyContentsFirst(cfg, s, keys, all, order, left, name, ids[0], chain);
  }

  lemma DependencyHead(cfg: Config, s: Store, p: Pair, id: I64, dep: I64) returns (name: string)
    requires ValidStore(cfg, s, {}, true) && Visited(s, p, id) && cfg.Known(id) && dep in cfg.Dependencies(id)
    ensures Inverse(s.g) && name in s.nodes && s.nodes[name] == p && PairOk(cfg, s, name) && s.ids[p.node] == id
    ensures dep in s.tops && s.tops[dep].Some? && Visited(s, s.tops[dep].value, dep)
  {
    name := NameOf(s, p, id);
    assert PairOk(cfg, s, name);
    WaitsFor(cfg, s, name, dep);
    assert TopOk(s, dep, true);
    AtIsVisited(cfg, s, {}, true, [], dep);
  }

  lemma ChainIsPairs(s: Store, chain: seq<Pair>, ids: seq<I64>)
    requires Follows(s, chain, ids)
    ensures forall c :: c in chain ==> IsPair(s, c)
  {
    hide Visited;
    forall c | c in chain ensures IsPair(s, c) {
      var k :| 0 <= k < |chain| && chain[k] == c;
      var m := NameOf(s, c, ids[k]);
    }
  }

  lemma PairEdge(cfg: Config, s: Store, p: Pair)
    requires ValidStore(cfg, s, {}, true) && IsPair(s, p)
    ensures p.node < |s.g.next| && p.sentinel in s.g.next[p.node]
  {
    var name :| name in s.nodes && s.nodes[name] == p;
    assert PairOk(cfg, s, name);
  }

  /** No two node cells carry one name: emitted objects have distinct names. */
  lemma EmittedNamesDistinct(cfg: Config, s: Store, open: set<string>, clean: bool, a: nat, b: nat)
    requires ValidStore(cfg, s, open, clean) && a < |s.ids| && b < |s.ids|
    requires s.normal[a] && s.normal[b] && s.names[a] == s.names[b]
    ensures a == b
  {
    assert Covered(s, a) && Covered(s, b);
    var m :| m in s.nodes && (s.nodes[m].node == a || s.nodes[m].sentinel == a);
    var n :| n in s.nodes && (s.nodes[n].node == b || s.nodes[n].sentinel == b);
    assert PairOk(cfg, s, m) && PairOk(cfg, s, n);
  }

  /** A set that is closed under `prev` and has all sentinels has all cells. */
  lemma AllSentinelsNeedAll(cfg: Config, s: Store, open: set<string>, clean: bool, all: set<nat>)
    requires ValidStore(cfg, s, open, clean) && PrevClosed(s.g, all)
    requires forall name :: name in s.nodes ==> s.nodes[name].sentinel in all
    ensures forall i: nat :: i < |s.ids| ==> i in all
  {
    forall i: nat | i < |s.ids|
      ensures i in all
    {
      assert Covered(s, i);
      var name :| name in s.nodes && (s.nodes[name].node == i || s.nodes[name].sentinel == i);
      assert PairOk(cfg, s, name);
      EdgeBothWays(s.g, s.nodes[name].node, s.nodes[name].sentinel);
    }
  }

  lemma SentinelsDistinct(cfg: Config, s: Store, open: set<string>, clean: bool, m: string, n: string)
    requires ValidStore(cfg, s, open, clean) && m in s.nodes && n in s.nodes
    requires s.nodes[m].sentinel == s.nodes[n].sentinel
    ensures m == n
  {
    hide ValidStore;
    NameIsOk(cfg, s, open, clean, m);
    NameIsOk(cfg, s, open, clean, n);
  }

  /** Which visited objects a deployment of `deployId` is about; no id means everything. */
  predicate Selected(cfg: Config, hostId: I64, deployId: Option<I64>, id: I64) {
    match deployId
    case None => true
    case Some(d) => d == hostId || id == d || (id in cfg.objects && cfg.objects[id].typeId == d)
  }

  predicate HostFull(hostId: I64, deployId: Option<I64>) {
    deployId.None? || deployId.value == hostId
  }

  ghost predicate SelectsName(cfg: Config, s: Store, hostId: I64, deployId: Option<I64>, name: string)
    requires name in s.nodes && s.nodes[name].node < |s.ids|
  {
    Selected(cfg, hostId, deployId, s.ids[s.nodes[name].node])
  }

  ghost predicate AreSeeds(cfg: Config, s: Store, hostId: I64, deployId: Option<I64>, names: set<string>,
                           seeds: seq<nat>) {
    && Distinct(seeds) && names <= s.nodes.Keys
    && (forall n :: n in seeds ==> exists name :: name in names && s.nodes[name].sentinel == n)
    && forall name :: name in names ==> SeedIffSelected(cfg, s, hostId, deployId, seeds, name)
  }

  ghost predicate SeedIffSelected(cfg: Config, s: Store, hostId: I64, deployId: Option<I64>, seeds: seq<nat>,
                                  name: string)
    requires name in s.nodes
  {
    s.nodes[name].node < |s.ids| && (s.nodes[name].sentinel in seeds <==> SelectsName(cfg, s, hostId, deployId, name))
  }

  /** The sentinels that the sort starts from. */
  method SelectSentinels(v: Visitor, hostId: I64, deployId: Option<I64>) returns (seeds: seq<nat>)
    requires v.Valid({})
    ensures AreSeeds(v.cfg, v.S(), hostId, deployId, v.nodes.Keys, seeds)
  {
    hide ValidStore, AreSeeds, AllInScope, AllTexts, AllCaused, Closed;
    ghost var s := v.S();
    seeds := [];
    NoSeeds(v.cfg, s, hostId, deployId);
    var todo := v.nodes.Keys;
    assert v.nodes.Keys - todo == {};
    while todo != {}
      invariant todo <= v.nodes.Keys
      invariant AreSeeds(v.cfg, s, hostId, deployId, v.nodes.Keys - todo, seeds)
    {
      var name :| name in todo;
      NameIsOk(v.cfg, s, {}, v.errors == [], name);
      var p := v.nodes[name];
      if Selected(v.cfg, hostId, deployId, v.arena.ids[p.node]) {
        AddSeed(v.cfg, s, v.errors == [], hostId, deployId, v.nodes.Keys - todo, seeds, name);
        seeds := seeds + [p.sentinel];
      } else {
        SkipSeed(v.cfg, s, v.errors == [], hostId, deployId, v.nodes.Keys - todo, seeds, name);
      }
      assert v.nodes.Keys - (todo - {name}) == v.nodes.Keys - todo + {name};
      todo := todo - {name};
    }
    assert v.nodes.Keys - todo == v.nodes.Keys;
  }

  lemma NameIsOk(cfg: Config, s: Store, open: set<string>, clean: bool, name: string)
    requires ValidStore(cfg, s, open, clean) && name in s.nodes
    ensures PairOk(cfg, s, name)
  {
  }

  lemma NoSeeds(cfg: Config, s: Store, hostId: I64, deployId: Option<I64>)
    ensures AreSeeds(cfg, s, hostId, deployId, {}, [])
  {
  }

  lemma AddSeed(cfg: Config, s: Store, clean: bool, hostId: I64, deployId: Option<I64>, names: set<string>,
                seeds: seq<nat>, name: string)
    requires ValidStore(cfg, s, {}, clean)
    requires AreSeeds(cfg, s, hostId, deployId, names, seeds) && name in s.nodes && name !in names
    requires PairOk(cfg, s, name)
    requires s.nodes[name].node < |s.ids| && SelectsName(cfg, s, hostId, deployId, name)
    ensures AreSeeds(cfg, s, hostId, deployId, names + {name}, seeds + [s.nodes[name].sentinel])
  {
    hide ValidStore, PairOk;
    FreshSeed(cfg, s, clean, names, seeds, name);
    var x := s.nodes[name].sentinel;
    var more := seeds + [x];
    assert forall n :: n in more <==> n in seeds || n == x;
    forall m | m in names + {name}
      ensures SeedIffSelected(cfg, s, hostId, deployId, more, m)
    {
      if m in names { assert SeedIffSelected(cfg, s, hostId, deployId, seeds, m); }
    }
    forall n | n in more
      ensures exists m :: m in names + {name} && s.nodes[m].sentinel == n
    {
      if n in seeds {
        var m :| m in names && s.nodes[m].sentinel == n;
        assert m in names + {name};
      } else {
        assert name in names + {name};
      }
    }
  }

  lemma SkipSeed(cfg: Config, s: Store, clean: bool, hostId: I64, deployId: Option<I64>, names: set<string>,
                 seeds: seq<nat>, name: string)
    requires ValidStore(cfg, s, {}, clean)
    requires AreSeeds(cfg, s, hostId, deployId, names, seeds) && name in s.nodes && name !in names
    requires PairOk(cfg, s, name)
    requires s.nodes[name].node < |s.ids| && !SelectsName(cfg, s, hostId, deployId, name)
    ensures AreSeeds(cfg, s, hostId, deployId, names + {name}, seeds)
  {
    FreshSeed(cfg, s, clean, names, seeds, name);
  }

  lemma FreshSeed(cfg: Config, s: Store, clean: bool, names: set<string>, seeds: seq<nat>, name: string)
    requires ValidStore(cfg, s, {}, clean)
    requires names <= s.nodes.Keys && name in s.nodes && name !in names
    requires forall n :: n in seeds ==> exists m :: m in names && s.nodes[m].sentinel == n
    ensures s.nodes[name].sentinel !in seeds
    ensures forall m :: m in names ==> s.nodes[m].sentinel != s.nodes[name].sentinel
  {
    forall m | m in names
      ensures s.nodes[m].sentinel != s.nodes[name].sentinel
    {
      if s.nodes[m].sentinel == s.nodes[name].sentinel { SentinelsDistinct(cfg, s, {}, clean, m, name); }
    }
  }

  datatype Outcome =
    | Failed                                          // errors were reported while visiting
    | Nothing                                         // nothing to deploy here
    | Ordered(order: seq<nat>)                        // every needed cell, in order
    | Cycle(order: seq<nat>, cells: seq<nat>)         // the sort got stuck; a cycle to report

  lemma SeedsInGraph(cfg: Config, s: Store, clean: bool, hostId: I64, deployId: Option<I64>, seeds: seq<nat>)
    requires ValidStore(cfg, s, {}, clean) && AreSeeds(cfg, s, hostId, deployId, s.nodes.Keys, seeds)
    ensures Inverse(s.g) && InGraph(s.g, Elements(seeds)) && Distinct(seeds)
  {
    forall n | n in seeds
      ensures n < |s.g.next|
    {
      var name :| name in s.nodes && s.nodes[name].sentinel == n;
      assert PairOk(cfg, s, name);
    }
  }

  lemma FullNeedsAll(cfg: Config, s: Store, clean: bool, hostId: I64, deployId: Option<I64>, seeds: seq<nat>,
                     all: set<nat>)
    requires ValidStore(cfg, s, {}, clean) && AreSeeds(cfg, s, hostId, deployId, s.nodes.Keys, seeds)
    requires IsClosure(s.g, Elements(seeds), all) && HostFull(hostId, deployId)
    ensures forall i: nat :: i < |s.ids| ==> i in all
  {
    forall name | name in s.nodes
      ensures s.nodes[name].sentinel in all
    {
      assert SeedIffSelected(cfg, s, hostId, deployId, seeds, name);
      assert s.nodes[name].sentinel in Elements(seeds);
    }
    AllSentinelsNeedAll(cfg, s, {}, clean, all);
  }

  /** What the sort of a host's needed cells comes to. */
  ghost predicate Sorted(v: Visitor, all: set<nat>, r: Outcome, left: set<nat>)
    reads v, v.arena
  {
    && (r.Ordered? || r.Cycle?)
    && |v.arena.typeOrder| == |v.arena.ids|
    && PrevClosed(v.S().g, all)
    && (forall n :: n in all ==> n < |v.arena.ids| && v.arena.typeOrder[n] == v.cfg.TypeOrder(v.arena.ids[n]))
    && Emits(v.S().g, Keys(v.arena.typeOrder, v.arena.ids), all, r.order, left)
    && (r.Ordered? ==> left == {})
    && (r.Cycle? ==> left != {} && r.cells != [] && r.cells[0] in left)
    && (r.Cycle? ==> ReversedCycle(v.arena.next, r.cells[0], r.cells))
  }

  // ---------------------------------------------------------------- deploy orders

  /** The type of the object has this deploy order, where none counts as zero. */
  ghost predicate Declares(cfg: Config, id: I64, order: int) {
    && id in cfg.objects && cfg.objects[id].typeId in cfg.types
    && (cfg.types[cfg.objects[id].typeId].deployOrder == Some(order) ||
         (cfg.types[cfg.objects[id].typeId].deployOrder == None && order == 0))
  }

  /** A cell that could have come out instead of another has no greater deploy order, and with the same
      one no greater id. */
  lemma GreatestOrderFirst(v: Visitor, all: set<nat>, r: Outcome, left: set<nat>, j: nat, a: nat, x: int, y: int)
    requires Sorted(v, all, r, left) && j < |r.order| && r.order[j] < |v.arena.ids| && a < |v.arena.ids|
    requires a in all && a !in r.order[..j] && Ready(v.S().g, all - Elements(r.order[..j]), a)
    requires Declares(v.cfg, v.arena.ids[a], x) && Declares(v.cfg, v.arena.ids[r.order[j]], y)
    ensures x <= y && (x == y ==> v.arena.ids[a] <= v.arena.ids[r.order[j]])
  {
    var b := r.order[j];
    assert GreatestReady(v.S().g, Keys(v.arena.typeOrder, v.arena.ids), all - Elements(r.order[..j]), b);
    assert b in all;
  }

  /** Of two cells that wait for nothing the one with the greater deploy order comes out first. */
  lemma FreeCellsByOrder(v: Visitor, all: set<nat>, r: Outcome, left: set<nat>, a: nat, b: nat, x: int, y: int)
    requires Sorted(v, all, r, left) && a in all && a < |v.arena.prev| == |v.arena.ids| && v.arena.prev[a] == []
    requires b < |v.arena.ids| && Declares(v.cfg, v.arena.ids[a], x) && Declares(v.cfg, v.arena.ids[b], y) && x > y
    ensures Before(r.order, a, b)
  {
    forall j | 0 <= j < |r.order| && r.order[j] == b
      ensures exists i :: 0 <= i < j && r.order[i] == a
    {
      if a !in r.order[..j] {
        GreatestOrderFirst(v, all, r, left, j, a, x, y);
      }
      var i :| 0 <= i < |r.order[..j]| && r.order[..j][i] == a;
      assert r.order[i] == a;
    }
  }

  /** Counts, heaps and sorts from the seeds; a leftover is answered with a cycle. */
  method SortSeeds(v: Visitor, seeds: seq<nat>) returns (r: Outcome, ghost all: set<nat>, ghost left: set<nat>)
    requires v.arena.Fresh() && Inverse(v.arena.G()) && |v.arena.next| == |v.arena.ids|
    requires InGraph(v.arena.G(), Elements(seeds)) && Distinct(seeds)
    modifies v.arena`inCount, v.arena`typeOrder
    ensures v.S() == old(v.S())
    ensures IsClosure(v.S().g, Elements(seeds), all)
    ensures Sorted(v, all, r, left) && (r.Ordered? || r.Cycle?)
  {
    hide Emits, ReversedCycle, PrevClosed, Inverse, Counting, Stuck;
    ghost var g := v.arena.G();
    var seen := CountClosure(v.arena, seeds);
    all := seen;
    var order, rest := Sort(v.arena, v.cfg, seen);
    left := rest;
    LeftoversStuck(g, Keys(v.arena.typeOrder, v.arena.ids), all, order, rest);
    if rest == {} {
      r := Ordered(order);
    } else {
      var kept, _ := ReportCycle(v.arena.next, rest, g);
      r := Cycle(order, kept);
    }
  }

  lemma LeftoversStuck(g: Graph, keys: seq<(int, int)>, all: set<nat>, order: seq<nat>, left: set<nat>)
    requires Emits(g, keys, all, order, left) && InGraph(g, all)
    ensures Stuck(g, left) && InGraph(g, left)
  {
  }

  // ---------------------------------------------------------------- what a deployment covers

  /** Everything for no id or that of the host, else the object with the id and all objects of that type. */
  ghost predicate Asked(cfg: Config, hostId: I64, deployId: Option<I64>, id: I64) {
    || deployId == None || deployId == Some(hostId) || deployId == Some(id)
    || (id in cfg.objects && deployId == Some(cfg.objects[id].typeId))
  }

  ghost predicate AskedName(cfg: Config, s: Store, hostId: I64, deployId: Option<I64>, name: string) {
    name in s.nodes && s.nodes[name].node < |s.ids| && Asked(cfg, hostId, deployId, s.ids[s.nodes[name].node])
  }

  /** The least set of cells that holds the sentinels of what was asked for and all that they wait for. */
  ghost predicate Covers(cfg: Config, s: Store, hostId: I64, deployId: Option<I64>, all: set<nat>) {
    && PrevClosed(s.g, all) && HasAsked(cfg, s, hostId, deployId, all)
    && forall cells: set<nat> :: PrevClosed(s.g, cells) && HasAsked(cfg, s, hostId, deployId, cells) ==> all <= cells
  }

  ghost predicate HasAsked(cfg: Config, s: Store, hostId: I64, deployId: Option<I64>, cells: set<nat>) {
    forall name :: AskedName(cfg, s, hostId, deployId, name) ==> s.nodes[name].sentinel in cells
  }

  /** Neither the host nor anything on it. */
  ghost predicate NothingAsked(cfg: Config, s: Store, hostId: I64, deployId: Option<I64>) {
    deployId != None && deployId != Some(hostId) && forall name :: !AskedName(cfg, s, hostId, deployId, name)
  }

  lemma SeedsAreAsked(cfg: Config, s: Store, hostId: I64, deployId: Option<I64>, seeds: seq<nat>, cells: set<nat>)
    requires AreSeeds(cfg, s, hostId, deployId, s.nodes.Keys, seeds)
    ensures HasAsked(cfg, s, hostId, deployId, cells) <==> Elements(seeds) <= cells
    ensures seeds == [] <==> forall name :: !AskedName(cfg, s, hostId, deployId, name)
  {
    forall name | name in s.nodes
      ensures AskedName(cfg, s, hostId, deployId, name) <==> s.nodes[name].sentinel in seeds
    {
      assert SeedIffSelected(cfg, s, hostId, deployId, seeds, name);
    }
    hide AskedName, SeedIffSelected;
    if seeds != [] {
      assert seeds[0] in seeds;
    }
  }

  lemma ClosureCovers(cfg: Config, s: Store, hostId: I64, deployId: Option<I64>, seeds: seq<nat>, all: set<nat>)
    requires AreSeeds(cfg, s, hostId, deployId, s.nodes.Keys, seeds) && IsClosure(s.g, Elements(seeds), all)
    ensures Covers(cfg, s, hostId, deployId, all)
  {
    forall cells: set<nat> ensures HasAsked(cfg, s, hostId, deployId, cells) <==> Elements(seeds) <= cells {
      SeedsAreAsked(cfg, s, hostId, deployId, seeds, cells);
    }
    hide AreSeeds, HasAsked, Elements;
  }

  /** From the objects contained in a host to the order of their cells. */
  method OrderHost(v: Visitor, hostId: I64, contains: seq<I64>, deployId: Option<I64>)
    returns (r: Outcome, ghost all: set<nat>, ghost left: set<nat>)
    requires v.Valid({}) && v.errors == [] && v.topVisiting == {}
    requires forall c :: c in contains ==> c in v.reach
    modifies v, v.arena
    ensures r.Failed? <==> v.errors != []
    ensures AllCaused(v.Src(), v.errors) && forall rank :: Healthy(v.Src(), rank) ==> !r.Failed?
    ensures AllInScope(v.Src(), v.arena.ids, v.nodes, v.scopes)
    ensures !r.Failed? ==> ValidStore(v.cfg, v.S(), {}, true) && AllTops(v.tops, contains)
    ensures !r.Failed? && IsReach(v.cfg, contains, v.reach) ==> VisitedIds(v.S()) == v.reach
    ensures r.Ordered? || r.Cycle? ==> Sorted(v, all, r, left)
    ensures r.Ordered? || r.Cycle? ==> Covers(v.cfg, v.S(), hostId, deployId, all)
    ensures (r.Ordered? || r.Cycle?) && (deployId == None || deployId == Some(hostId)) ==>
      forall i: nat :: i < |v.arena.ids| ==> i in all
    ensures r.Nothing? <==> v.errors == [] && NothingAsked(v.cfg, v.S(), hostId, deployId)
  {
    hide ValidStore, Sorted, Inverse, IsClosure, AreSeeds, IsReach, VisitedIds, AllCaused, Healthy, Covers, AskedName;
    hide AllInScope;
    all, left := {}, {};
    v.VisitHost(contains);
    if v.errors != [] {
      return Failed, all, left;
    }
    var seeds := SelectSentinels(v, hostId, deployId);
    SeedsAreAsked(v.cfg, v.S(), hostId, deployId, seeds, {});
    if seeds == [] && !HostFull(hostId, deployId) {
      return Nothing, all, left;
    }
    ghost var s := v.S();
    SeedsInGraph(v.cfg, s, true, hostId, deployId, seeds);
    r, all, left := SortSeeds(v, seeds);
    ClosureCovers(v.cfg, s, hostId, deployId, seeds, all);
    if HostFull(hostId, deployId) {
      FullNeedsAll(v.cfg, s, true, hostId, deployId, seeds, all);
    }
  }
}
