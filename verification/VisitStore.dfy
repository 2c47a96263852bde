/** What a visitor has built so far, as a value: the graph, the cells' ids and names, the
    visited names and the top-level results; with the invariant that all visits keep. */
module VisitStore {
  import opened Wrappers
  import opened NodeNames
  import opened Dag

  datatype Object = Object(typeId: I64, contains: seq<I64>, depends: seq<I64>)

  datatype TypeInfo = TypeInfo(hasContains: bool, hasDepends: bool, deployOrder: Option<int>)

  /** The objects and types that a deployment is computed from. */
  datatype Config = Config(objects: map<I64, Object>, types: map<I64, TypeInfo>) {
    /** The object exists, its type exists, and so does the object that defines the type. */
    predicate Known(id: I64) {
      id in objects && objects[id].typeId in types && objects[id].typeId in objects
    }

    /** Everything contained in an object: its own members, then those of its type. */
    function Children(id: I64): seq<I64>
      requires Known(id)
    {
      var o := objects[id];
      (if types[o.typeId].hasContains then o.contains else []) + objects[o.typeId].contains
    }

    /** The deploy order of the object's type, zero when any part of it is missing. */
    function TypeOrder(id: I64): int {
      if id in objects && objects[id].typeId in types then
        match types[objects[id].typeId].deployOrder
        case Some(n) => n
        case None => 0
      else 0
    }

    function Dependencies(id: I64): seq<I64>
      requires Known(id)
    {
      var o := objects[id];
      (if types[o.typeId].hasDepends then o.depends else []) + objects[o.typeId].depends
    }
  }

  /** The two cells of a visited object: everything in it comes between them. */
  datatype Pair = Pair(node: nat, sentinel: nat)

  /** `inner` is the prefix of the members of a visited name, once they are visited. */
  datatype Store = Store(g: Graph, ids: seq<I64>, normal: seq<bool>, names: seq<string>,
                         nodes: map<string, Pair>, tops: map<I64, Option<Pair>>, inner: map<string, seq<I64>>)

  ghost predicate Sized(s: Store) {
    |s.g.prev| == |s.g.next| == |s.ids| == |s.normal| == |s.names|
  }

  ghost predicate Named(name: string, id: I64) {
    exists prefix :: name == NodeName(prefix, id)
  }

  /** Members go by the prefix of their container, or by that and the container. */
  ghost predicate InnerOf(name: string, id: I64, inner: seq<I64>) {
    exists prefix :: name == NodeName(prefix, id) && (inner == prefix || inner == prefix + [id])
  }

  ghost predicate PairOk(cfg: Config, s: Store, name: string) {
    && Sized(s) && name in s.nodes
    && var p := s.nodes[name];
    && p.node < |s.ids| && p.node == p.sentinel + 1
    && s.normal[p.node] && !s.normal[p.sentinel]
    && s.ids[p.node] == s.ids[p.sentinel] && s.names[p.node] == name
    && cfg.Known(s.ids[p.node]) && Named(name, s.ids[p.node])
    && (name in s.inner ==> InnerOf(name, s.ids[p.node], s.inner[name]))
    && p.sentinel in s.g.next[p.node]
  }

  /** The pair of cells that was made for this object under this prefix. */
  ghost predicate At(s: Store, prefix: seq<I64>, id: I64, p: Pair) {
    NodeName(prefix, id) in s.nodes && s.nodes[NodeName(prefix, id)] == p
  }

  /** Some visited name has this pair of cells, for this object. */
  ghost predicate Visited(s: Store, p: Pair, id: I64) {
    exists name :: name in s.nodes && s.nodes[name] == p && p.node < |s.ids| && s.ids[p.node] == id
  }

  ghost predicate Covered(s: Store, i: nat) {
    exists name :: name in s.nodes && (s.nodes[name].node == i || s.nodes[name].sentinel == i)
  }

  /** The child, under the inner prefix, is inside: entered after the node, left before the sentinel. */
  ghost predicate ChildLinked(s: Store, p: Pair, inner: seq<I64>, child: I64) {
    NodeName(inner, child) in s.nodes && Inside(s, p, s.nodes[NodeName(inner, child)])
  }

  ghost predicate Inside(s: Store, p: Pair, c: Pair) {
    && p.node < |s.g.next| && c.node in s.g.next[p.node]
    && c.sentinel < |s.g.next| && p.sentinel in s.g.next[c.sentinel]
  }

  ghost predicate AllLinked(s: Store, p: Pair, inner: seq<I64>, children: seq<I64>) {
    forall c :: c in children ==> ChildLinked(s, p, inner, c)
  }

  /** The node waits for the sentinel of a dependency. */
  ghost predicate DepLinked(s: Store, p: Pair, dep: I64) {
    && dep in s.tops && s.tops[dep].Some?
    && s.tops[dep].value.sentinel < |s.g.next| && p.node in s.g.next[s.tops[dep].value.sentinel]
  }

  ghost predicate AllWaitedFor(s: Store, p: Pair, deps: seq<I64>) {
    forall d :: d in deps ==> DepLinked(s, p, d)
  }

  /** Every member and every dependency of the visited object has its edges. */
  ghost predicate Complete(cfg: Config, s: Store, name: string)
    requires PairOk(cfg, s, name)
  {
    var p := s.nodes[name];
    var id := s.ids[p.node];
    && name in s.inner && AllLinked(s, p, s.inner[name], cfg.Children(id))
    && AllWaitedFor(s, p, cfg.Dependencies(id))
  }

  // ---- why an edge is there

  ghost predicate OwnEdge(s: Store, a: nat, b: nat) {
    exists name :: name in s.nodes && s.nodes[name] == Pair(a, b)
  }

  /** Between a container and the pair of a member under the inner prefix. */
  ghost predicate MemberEdge(cfg: Config, s: Store, a: nat, b: nat) {
    exists name, child :: IsMember(cfg, s, name, child) &&
      JoinsMember(s.nodes[name], s.nodes[NodeName(s.inner[name], child)], a, b)
  }

  ghost predicate IsMember(cfg: Config, s: Store, name: string, child: I64) {
    && name in s.nodes && name in s.inner && s.nodes[name].node < |s.ids|
    && cfg.Known(s.ids[s.nodes[name].node]) && child in cfg.Children(s.ids[s.nodes[name].node])
    && NodeName(s.inner[name], child) in s.nodes
  }

  ghost predicate JoinsMember(p: Pair, c: Pair, a: nat, b: nat) {
    (a == p.node && b == c.node) || (a == c.sentinel && b == p.sentinel)
  }

  ghost predicate DependsEdge(cfg: Config, s: Store, a: nat, b: nat) {
    exists p: Pair, id: I64, dep: I64 ::
      && Visited(s, p, id) && cfg.Known(id) && dep in cfg.Dependencies(id)
      && dep in s.tops && s.tops[dep].Some? && a == s.tops[dep].value.sentinel && b == p.node
  }

  ghost predicate Justified(cfg: Config, s: Store, a: nat, b: nat) {
    OwnEdge(s, a, b) || MemberEdge(cfg, s, a, b) || DependsEdge(cfg, s, a, b)
  }

  ghost predicate TopOk(s: Store, d: I64, clean: bool)
    requires d in s.tops
  {
    match s.tops[d]
    case None => !clean
    case Some(p) => At(s, [], d, p)
  }

  /** The invariant of all visits. `open` are the names still being visited; `clean` says
      that no error was reported. */
  ghost predicate ValidStore(cfg: Config, s: Store, open: set<string>, clean: bool) {
    && Sized(s)
    && Inverse(s.g)
    && (forall name :: name in s.nodes ==> PairOk(cfg, s, name))
    && (forall i :: 0 <= i < |s.ids| ==> Covered(s, i))
    && s.inner.Keys <= s.nodes.Keys
    && (forall d :: d in s.tops ==> TopOk(s, d, clean))
    && (forall a, b :: 0 <= a < |s.ids| && b in s.g.next[a] ==> Justified(cfg, s, a, b))
    && (clean ==> forall name :: name in s.nodes && name !in open ==> Complete(cfg, s, name))
  }

  /** Stores only grow: cells, names and results stay, edge lists are appended to. */
  ghost predicate Extends(s: Store, t: Store) {
    && Sized(s) && Sized(t)
    && s.ids <= t.ids && s.normal <= t.normal && s.names <= t.names
    && (forall i :: 0 <= i < |s.ids| ==> s.g.next[i] <= t.g.next[i])
    && (forall i :: 0 <= i < |s.ids| ==> s.g.prev[i] <= t.g.prev[i])
    && (forall name :: name in s.nodes ==> name in t.nodes && t.nodes[name] == s.nodes[name])
    && (forall d :: d in s.tops ==> d in t.tops && t.tops[d] == s.tops[d])
    && (forall name :: name in s.inner ==> name in t.inner && t.inner[name] == s.inner[name])
  }

  lemma ExtendsTransitive(s: Store, t: Store, u: Store)
    requires Extends(s, t) && Extends(t, u)
    ensures Extends(s, u)
  {
  }

  lemma VisitedExtends(s: Store, t: Store, p: Pair, id: I64)
    requires Extends(s, t) && Visited(s, p, id)
    ensures Visited(t, p, id)
  {
    var name :| name in s.nodes && s.nodes[name] == p && p.node < |s.ids| && s.ids[p.node] == id;
    assert name in t.nodes;
  }

  lemma EdgeExtends(s: Store, t: Store, a: nat, b: nat)
    requires Extends(s, t) && a < |s.g.next| && b in s.g.next[a]
    ensures b in t.g.next[a]
  {
    var k :| 0 <= k < |s.g.next[a]| && s.g.next[a][k] == b;
    assert s.g.next[a] <= t.g.next[a];
    assert t.g.next[a][k] == b;
  }

  lemma InsideExtends(s: Store, t: Store, p: Pair, c: Pair)
    requires Extends(s, t) && Inside(s, p, c)
    ensures Inside(t, p, c)
  {
    EdgeExtends(s, t, p.node, c.node);
    EdgeExtends(s, t, c.sentinel, p.sentinel);
  }

  lemma ChildLinkedExtends(s: Store, t: Store, p: Pair, inner: seq<I64>, child: I64)
    requires Extends(s, t) && ChildLinked(s, p, inner, child)
    ensures ChildLinked(t, p, inner, child)
  {
    InsideExtends(s, t, p, s.nodes[NodeName(inner, child)]);
  }

  /** The pair of a name is that of its object. */
  lemma AtIsVisited(cfg: Config, s: Store, open: set<string>, clean: bool, prefix: seq<I64>, id: I64)
    requires ValidStore(cfg, s, open, clean) && NodeName(prefix, id) in s.nodes
    ensures Visited(s, s.nodes[NodeName(prefix, id)], id) && PairOk(cfg, s, NodeName(prefix, id))
  {
    var name := NodeName(prefix, id);
    assert PairOk(cfg, s, name);
    var other := s.ids[s.nodes[name].node];
    var p :| name == NodeName(p, other);
    NodeNameInjective(prefix, id, p, other);
  }

  lemma DepLinkedExtends(s: Store, t: Store, p: Pair, dep: I64)
    requires Extends(s, t) && DepLinked(s, p, dep)
    ensures DepLinked(t, p, dep)
  {
    EdgeExtends(s, t, s.tops[dep].value.sentinel, p.node);
  }

  lemma AllLinkedExtends(s: Store, t: Store, p: Pair, inner: seq<I64>, children: seq<I64>)
    requires Extends(s, t) && AllLinked(s, p, inner, children)
    ensures AllLinked(t, p, inner, children)
  {
    forall c | c in children
      ensures ChildLinked(t, p, inner, c)
    {
      ChildLinkedExtends(s, t, p, inner, c);
    }
  }

  lemma AllLinkedNone(s: Store, p: Pair, inner: seq<I64>)
    ensures forall children: seq<I64> :: |children| == 0 ==> AllLinked(s, p, inner, children)
  {
  }

  lemma AllWaitedForNone(s: Store, p: Pair)
    ensures forall deps: seq<I64> :: |deps| == 0 ==> AllWaitedFor(s, p, deps)
  {
  }

  lemma AllLinkedStep(s: Store, t: Store, p: Pair, inner: seq<I64>, children: seq<I64>, k: nat)
    requires k < |children| && Extends(s, t) && AllLinked(s, p, inner, children[..k])
    requires ChildLinked(t, p, inner, children[k])
    ensures AllLinked(t, p, inner, children[..k + 1])
  {
    AllLinkedExtends(s, t, p, inner, children[..k]);
    assert children[..k + 1] == children[..k] + [children[k]];
  }

  lemma AllWaitedForExtends(s: Store, t: Store, p: Pair, deps: seq<I64>)
    requires Extends(s, t) && AllWaitedFor(s, p, deps)
    ensures AllWaitedFor(t, p, deps)
  {
    forall d | d in deps
      ensures DepLinked(t, p, d)
    {
      DepLinkedExtends(s, t, p, d);
    }
  }

  lemma AllWaitedForStep(s: Store, t: Store, p: Pair, deps: seq<I64>, k: nat)
    requires k < |deps| && Extends(s, t) && AllWaitedFor(s, p, deps[..k]) && DepLinked(t, p, deps[k])
    ensures AllWaitedFor(t, p, deps[..k + 1])
  {
    AllWaitedForExtends(s, t, p, deps[..k]);
    assert deps[..k + 1] == deps[..k] + [deps[k]];
  }

  lemma PairOkExtends(cfg: Config, s: Store, t: Store, name: string)
    requires Extends(s, t) && PairOk(cfg, s, name) && (name in t.inner ==> name in s.inner)
    ensures PairOk(cfg, t, name)
  {
    EdgeExtends(s, t, s.nodes[name].node, s.nodes[name].sentinel);
  }

  lemma CompleteExtends(cfg: Config, s: Store, t: Store, name: string)
    requires Extends(s, t) && PairOk(cfg, s, name) && PairOk(cfg, t, name) && Complete(cfg, s, name)
    ensures Complete(cfg, t, name)
  {
    var p := s.nodes[name];
    AllLinkedExtends(s, t, p, s.inner[name], cfg.Children(s.ids[p.node]));
    AllWaitedForExtends(s, t, p, cfg.Dependencies(s.ids[p.node]));
  }

  lemma MemberEdgeExtends(cfg: Config, s: Store, t: Store, a: nat, b: nat)
    requires Extends(s, t) && MemberEdge(cfg, s, a, b)
    ensures MemberEdge(cfg, t, a, b)
  {
    hide JoinsMember, NodeName, Config.Children;
    var name, child :|
      IsMember(cfg, s, name, child) && JoinsMember(s.nodes[name], s.nodes[NodeName(s.inner[name], child)], a, b);
    assert IsMember(cfg, t, name, child);
  }

  lemma DependsEdgeExtends(cfg: Config, s: Store, t: Store, a: nat, b: nat)
    requires Extends(s, t) && DependsEdge(cfg, s, a, b)
    ensures DependsEdge(cfg, t, a, b)
  {
    var p: Pair, id: I64, dep: I64 :|
      && Visited(s, p, id) && cfg.Known(id) && dep in cfg.Dependencies(id)
      && dep in s.tops && s.tops[dep].Some? && a == s.tops[dep].value.sentinel && b == p.node;
    VisitedExtends(s, t, p, id);
  }

  lemma JustifiedExtends(cfg: Config, s: Store, t: Store, a: nat, b: nat)
    requires Extends(s, t) && Justified(cfg, s, a, b)
    ensures Justified(cfg, t, a, b)
  {
    hide MemberEdge, DependsEdge;
    if OwnEdge(s, a, b) {
      var name :| name in s.nodes && s.nodes[name] == Pair(a, b);
      assert name in t.nodes;
    } else if MemberEdge(cfg, s, a, b) {
      MemberEdgeExtends(cfg, s, t, a, b);
    } else {
      DependsEdgeExtends(cfg, s, t, a, b);
    }
  }

  // ---------------------------------------------------------------- one step of a visit

  /** What a step has to show to keep the invariant: the new cells, edges and results. */
  lemma StepKeepsValid(cfg: Config, s: Store, t: Store, open: set<string>, newOpen: set<string>, clean: bool,
                       newClean: bool)
    requires ValidStore(cfg, s, open, clean) && Extends(s, t) && Inverse(t.g)
    requires (newClean ==> clean) && t.inner.Keys <= t.nodes.Keys
    requires forall name :: name in t.nodes && name !in s.nodes ==> name in newOpen
    requires forall name :: name in t.nodes && (name !in s.nodes || (name in t.inner && name !in s.inner)) ==>
      PairOk(cfg, t, name)
    requires open <= newOpen
    requires forall i :: |s.ids| <= i < |t.ids| ==> Covered(t, i)
    requires forall d :: d in t.tops && d !in s.tops ==> TopOk(t, d, newClean)
    requires forall a, b :: 0 <= a < |t.ids| && b in t.g.next[a] && (a < |s.ids| ==> b !in s.g.next[a])
               ==> Justified(cfg, t, a, b)
    ensures ValidStore(cfg, t, newOpen, newClean)
  {
    forall name | name in t.nodes
      ensures PairOk(cfg, t, name)
    {
      if name in s.nodes && (name in t.inner ==> name in s.inner) { PairOkExtends(cfg, s, t, name); }
    }
    forall i | 0 <= i < |t.ids|
      ensures Covered(t, i)
    {
      if i < |s.ids| {
        assert Covered(s, i);
        var name :| name in s.nodes && (s.nodes[name].node == i || s.nodes[name].sentinel == i);
        assert name in t.nodes;
      }
    }
    forall d | d in t.tops
      ensures TopOk(t, d, newClean)
    {
      if d in s.tops {
        assert TopOk(s, d, clean);
      }
    }
    forall a, b | 0 <= a < |t.ids| && b in t.g.next[a]
      ensures Justified(cfg, t, a, b)
    {
      if a < |s.ids| && b in s.g.next[a] {
        assert Justified(cfg, s, a, b);
        JustifiedExtends(cfg, s, t, a, b);
      }
    }
    if newClean {
      forall name | name in t.nodes && name !in newOpen
        ensures Complete(cfg, t, name)
      {
        assert name in s.nodes && Complete(cfg, s, name);
        CompleteExtends(cfg, s, t, name);
      }
    }
  }

  lemma AddEdgeExtends(s: Store, a: nat, b: nat)
    requires Sized(s) && a < |s.ids| && b < |s.ids|
    ensures Extends(s, s.(g := AddEdge(s.g, a, b)))
  {
  }

  lemma AddEdgeValid(cfg: Config, s: Store, open: set<string>, clean: bool, a: nat, b: nat)
    requires ValidStore(cfg, s, open, clean) && a < |s.ids| && b < |s.ids|
    requires Justified(cfg, s, a, b)
    ensures ValidStore(cfg, s.(g := AddEdge(s.g, a, b)), open, clean)
    ensures Extends(s, s.(g := AddEdge(s.g, a, b)))
  {
    var t := s.(g := AddEdge(s.g, a, b));
    AddEdgeExtends(s, a, b);
    AddEdgeKeepsInverse(s.g, a, b);
    JustifiedExtends(cfg, s, t, a, b);
    StepKeepsValid(cfg, s, t, open, open, clean, clean);
  }

  lemma EdgeAdded(s: Store, a: nat, b: nat)
    requires Sized(s) && a < |s.ids| && b < |s.ids|
    ensures b in AddEdge(s.g, a, b).next[a]
  {
    assert AddEdge(s.g, a, b).next[a][|s.g.next[a]|] == b;
  }

  /** `handle_contains` after a visit: container to member, and back from sentinel to sentinel. */
  function LinkChild(s: Store, p: Pair, c: Pair): Store
    requires Sized(s) && p.node < |s.ids| && c.node < |s.ids| && p.sentinel < |s.ids| && c.sentinel < |s.ids|
  {
    s.(g := AddEdge(AddEdge(s.g, p.node, c.node), c.sentinel, p.sentinel))
  }

  lemma LinkChildValid(cfg: Config, s: Store, open: set<string>, clean: bool, name: string, child: I64)
    requires ValidStore(cfg, s, open, clean) && IsMember(cfg, s, name, child)
    ensures var p, c := s.nodes[name], s.nodes[NodeName(s.inner[name], child)];
      && p.node < |s.ids| && p.sentinel < |s.ids| && c.node < |s.ids| && c.sentinel < |s.ids|
      && ValidStore(cfg, LinkChild(s, p, c), open, clean)
      && Extends(s, LinkChild(s, p, c)) && ChildLinked(LinkChild(s, p, c), p, s.inner[name], child)
  {
    var childName := NodeName(s.inner[name], child);
    hide NodeName, Config.Children;
    var p, c := s.nodes[name], s.nodes[childName];
    assert PairOk(cfg, s, childName) && PairOk(cfg, s, name);
    assert JoinsMember(p, c, p.node, c.node);
    assert MemberEdge(cfg, s, p.node, c.node);
    AddEdgeValid(cfg, s, open, clean, p.node, c.node);
    EdgeAdded(s, p.node, c.node);
    var t := s.(g := AddEdge(s.g, p.node, c.node));
    assert IsMember(cfg, t, name, child) && JoinsMember(p, c, c.sentinel, p.sentinel);
    assert MemberEdge(cfg, t, c.sentinel, p.sentinel);
    AddEdgeValid(cfg, t, open, clean, c.sentinel, p.sentinel);
    EdgeAdded(t, c.sentinel, p.sentinel);
    var u := LinkChild(s, p, c);
    ExtendsTransitive(s, t, u);
    EdgeExtends(t, u, p.node, c.node);
    assert Inside(u, p, c);
  }

  lemma LinkDependencyValid(cfg: Config, s: Store, open: set<string>, clean: bool, name: string, p: Pair, d: Pair,
                            dep: I64)
    requires ValidStore(cfg, s, open, clean) && name in s.nodes && s.nodes[name] == p && PairOk(cfg, s, name)
    requires dep in cfg.Dependencies(s.ids[p.node]) && dep in s.tops && s.tops[dep] == Some(d)
    ensures d.sentinel < |s.ids|
    ensures ValidStore(cfg, s.(g := AddEdge(s.g, d.sentinel, p.node)), open, clean)
    ensures Extends(s, s.(g := AddEdge(s.g, d.sentinel, p.node)))
    ensures DepLinked(s.(g := AddEdge(s.g, d.sentinel, p.node)), p, dep)
  {
    assert TopOk(s, dep, clean);
    assert PairOk(cfg, s, NodeName([], dep));
    assert Visited(s, p, s.ids[p.node]);
    assert DependsEdge(cfg, s, d.sentinel, p.node);
    AddEdgeValid(cfg, s, open, clean, d.sentinel, p.node);
    EdgeAdded(s, d.sentinel, p.node);
  }

  /** The two cells of a new object, with the edge between them. */
  function AddPair(s: Store, name: string, id: I64): Store
    requires Sized(s)
  {
    var n := |s.ids|;
    Store(AddEdge(AddCell(AddCell(s.g)), n + 1, n),
          s.ids + [id, id], s.normal + [false, true], s.names + ["", name],
          s.nodes[name := Pair(n + 1, n)], s.tops, s.inner)
  }

  lemma AddPairExtends(s: Store, name: string, id: I64)
    requires Sized(s) && name !in s.nodes
    ensures Extends(s, AddPair(s, name, id))
  {
  }

  lemma AddPairValid(cfg: Config, s: Store, open: set<string>, clean: bool, name: string, id: I64)
    requires ValidStore(cfg, s, open, clean) && name !in s.nodes && Named(name, id) && cfg.Known(id)
    ensures ValidStore(cfg, AddPair(s, name, id), open + {name}, clean)
    ensures Extends(s, AddPair(s, name, id))
  {
    var n, t := |s.ids|, AddPair(s, name, id);
    AddPairExtends(s, name, id);
    AddCellKeepsInverse(s.g);
    AddCellKeepsInverse(AddCell(s.g));
    AddEdgeKeepsInverse(AddCell(AddCell(s.g)), n + 1, n);
    assert name in t.nodes;
    assert OwnEdge(t, n + 1, n);
    StepKeepsValid(cfg, s, t, open, open + {name}, clean, clean);
  }

  /** The members of a name are about to be visited under this prefix. */
  function SetInner(s: Store, name: string, inner: seq<I64>): Store {
    s.(inner := s.inner[name := inner])
  }

  lemma SetInnerValid(cfg: Config, s: Store, open: set<string>, clean: bool, name: string, inner: seq<I64>)
    requires ValidStore(cfg, s, open, clean) && name in s.nodes && name !in s.inner
    requires s.nodes[name].node < |s.ids| && InnerOf(name, s.ids[s.nodes[name].node], inner)
    ensures ValidStore(cfg, SetInner(s, name, inner), open, clean) && Extends(s, SetInner(s, name, inner))
  {
    ValidHas(cfg, s, open, clean, name);
    hide ValidStore, PairOk, InnerOf, Inverse, Justified, Covered, TopOk, Extends;
    SetInnerPair(cfg, s, name, inner);
    SetInnerExtends(s, name, inner);
    StepKeepsValid(cfg, s, SetInner(s, name, inner), open, open, clean, clean);
  }

  lemma ValidHas(cfg: Config, s: Store, open: set<string>, clean: bool, name: string)
    requires ValidStore(cfg, s, open, clean) && name in s.nodes
    ensures Sized(s) && Inverse(s.g) && s.inner.Keys <= s.nodes.Keys && PairOk(cfg, s, name)
  {
  }

  lemma SetInnerPair(cfg: Config, s: Store, name: string, inner: seq<I64>)
    requires PairOk(cfg, s, name) && InnerOf(name, s.ids[s.nodes[name].node], inner)
    ensures PairOk(cfg, SetInner(s, name, inner), name)
  {
    hide InnerOf, Named;
  }

  lemma SetInnerExtends(s: Store, name: string, inner: seq<I64>)
    requires Sized(s) && name !in s.inner
    ensures Extends(s, SetInner(s, name, inner))
  {
  }

  /** A name may be closed exactly when, unless errors were reported, it is complete, or if it is open
      for another visit as well. */
  lemma CloseName(cfg: Config, s: Store, open: set<string>, clean: bool, name: string)
    requires ValidStore(cfg, s, open + {name}, clean) && name in s.nodes && PairOk(cfg, s, name)
    ensures ValidStore(cfg, s, open, clean) <==> (clean && name !in open ==> Complete(cfg, s, name))
  {
  }

  lemma SetTopValid(cfg: Config, s: Store, open: set<string>, clean: bool, d: I64, top: Option<Pair>)
    requires ValidStore(cfg, s, open, clean) && d !in s.tops
    requires match top case None => !clean case Some(p) => At(s, [], d, p)
    ensures ValidStore(cfg, s.(tops := s.tops[d := top]), open, clean)
    ensures Extends(s, s.(tops := s.tops[d := top]))
  {
    var t := s.(tops := s.tops[d := top]);
    StepKeepsValid(cfg, s, t, open, open, clean, clean);
  }

  lemma DirtyValid(cfg: Config, s: Store, open: set<string>, clean: bool, newClean: bool)
    requires ValidStore(cfg, s, open, clean) && (newClean ==> clean)
    ensures ValidStore(cfg, s, open, newClean)
  {
    assert forall d :: d in s.tops && TopOk(s, d, clean) ==> TopOk(s, d, newClean);
  }

  // ---------------------------------------------------------------- what a host reaches

  /** Members and dependencies of what is in the set are in the set. */
  ghost predicate Closed(cfg: Config, ids: set<I64>) {
    forall id :: id in ids && cfg.Known(id) ==> Includes(ids, cfg.Children(id)) && Includes(ids, cfg.Dependencies(id))
  }

  ghost predicate Includes(ids: set<I64>, some: seq<I64>) {
    forall x :: x in some ==> x in ids
  }

  /** The least closed set with these objects in it. */
  ghost predicate IsReach(cfg: Config, contains: seq<I64>, ids: set<I64>) {
    && Closed(cfg, ids) && Includes(ids, contains)
    && forall others :: Closed(cfg, others) && Includes(others, contains) ==> ids <= others
  }

  ghost function AllIds(cfg: Config): set<I64> {
    (set id, c | id in cfg.objects && c in cfg.objects[id].contains :: c)
    + (set id, d | id in cfg.objects && d in cfg.objects[id].depends :: d)
  }

  ghost predicate InEach(cfg: Config, contains: seq<I64>, id: I64) {
    forall ids :: Closed(cfg, ids) && Includes(ids, contains) ==> id in ids
  }

  /** There is such a set. */
  lemma ReachExists(cfg: Config, contains: seq<I64>) returns (ids: set<I64>)
    ensures IsReach(cfg, contains, ids)
  {
    ids := set x | x in AllIds(cfg) + (set c | c in contains) && InEach(cfg, contains, x);
    forall id | id in ids && cfg.Known(id)
      ensures Includes(ids, cfg.Children(id)) && Includes(ids, cfg.Dependencies(id))
    {
      forall x | x in cfg.Children(id) || x in cfg.Dependencies(id)
        ensures x in ids
      {
        forall others | Closed(cfg, others) && Includes(others, contains)
          ensures x in others
        {
          assert InEach(cfg, contains, id);
          assert Includes(others, cfg.Children(id)) && Includes(others, cfg.Dependencies(id));
        }
      }
    }
  }

  ghost function VisitedIds(s: Store): set<I64> {
    set id | id in s.ids
  }

  /** Without errors, what was visited is closed. */
  lemma VisitedAreClosed(cfg: Config, s: Store)
    requires ValidStore(cfg, s, {}, true)
    ensures Closed(cfg, VisitedIds(s)) && forall id :: id in VisitedIds(s) ==> cfg.Known(id)
  {
    hide NodeName;
    forall id | id in VisitedIds(s)
      ensures cfg.Known(id) && Includes(VisitedIds(s), cfg.Children(id))
      ensures Includes(VisitedIds(s), cfg.Dependencies(id))
    {
      var name := NameOfId(cfg, s, id);
      assert Complete(cfg, s, name);
      forall c | c in cfg.Children(id)
        ensures c in s.ids
      {
        assert ChildLinked(s, s.nodes[name], s.inner[name], c);
        AtIsVisited(cfg, s, {}, true, s.inner[name], c);
      }
      forall d | d in cfg.Dependencies(id)
        ensures d in s.ids
      {
        assert DepLinked(s, s.nodes[name], d) && TopOk(s, d, true);
        AtIsVisited(cfg, s, {}, true, [], d);
      }
    }
  }

  lemma NameOfId(cfg: Config, s: Store, id: I64) returns (name: string)
    requires ValidStore(cfg, s, {}, true) && id in s.ids
    ensures name in s.nodes && PairOk(cfg, s, name) && s.ids[s.nodes[name].node] == id && Complete(cfg, s, name)
  {
    var i :| 0 <= i < |s.ids| && s.ids[i] == id;
    assert Covered(s, i);
    name :| name in s.nodes && (s.nodes[name].node == i || s.nodes[name].sentinel == i);
    assert PairOk(cfg, s, name);
  }

  // ---------------------------------------------------------------- members and dependencies by their lists

  /** In the list of the object, if its type has such a list, or in the list of its type. */
  ghost predicate ListsMember(cfg: Config, id: I64, c: I64)
    requires cfg.Known(id)
  {
    var o := cfg.objects[id];
    (cfg.types[o.typeId].hasContains && c in o.contains) || c in cfg.objects[o.typeId].contains
  }

  ghost predicate ListsDependency(cfg: Config, id: I64, d: I64)
    requires cfg.Known(id)
  {
    var o := cfg.objects[id];
    (cfg.types[o.typeId].hasDepends && d in o.depends) || d in cfg.objects[o.typeId].depends
  }

  /** Without errors exactly what is listed is visited inside an object and waited for. */
  lemma ListedIsLinked(cfg: Config, s: Store, name: string, c: I64)
    requires ValidStore(cfg, s, {}, true) && name in s.nodes
    ensures PairOk(cfg, s, name) && name in s.inner
    ensures ListsMember(cfg, s.ids[s.nodes[name].node], c) ==> ChildLinked(s, s.nodes[name], s.inner[name], c)
    ensures ListsDependency(cfg, s.ids[s.nodes[name].node], c) ==> DepLinked(s, s.nodes[name], c)
    ensures IsMember(cfg, s, name, c) ==> ListsMember(cfg, s.ids[s.nodes[name].node], c)
  {
    hide NodeName;
    assert PairOk(cfg, s, name) && Complete(cfg, s, name);
  }
}
