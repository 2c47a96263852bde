/** From the emission order of a host to its objects: what each cell says, the diff with the stored
    rows, and what a cycle on an earlier host does to the stored objects. */
module HostDiff {
  import opened Wrappers
  import opened NodeNames
  import opened Dag
  import opened VisitStore
  import opened Visitor
  import opened Problems
  import opened DeployTypes
  import opened Diff
  import Orders
  import TopSort
  import Triggers
  import CycleExamples
  import CycleSearch
  import HostOrder
  import opened SetupHosts

  /** What visiting the content of an object left in its cell. */
  datatype Texts = Texts(title: string, script: Option<string>, content: Content, triggers: seq<TriggerData>)

  /** Texts of the cells, kinds of the types, and how errors and cycles are put into words. */
  datatype Info = Info(texts: nat -> Texts, kind: I64 -> Option<Kind>, problem: Problem -> string,
    cycle: seq<nat> -> string)

  /** What an object renders to with the variables in its scope, and the rest of it. */
  datatype Rendering = Rendering(texts: (I64, map<string, string>) -> Texts, kind: I64 -> Option<Kind>,
    problem: Problem -> string, cycle: seq<nat> -> string)

  /** Each cell says what its object rendered to, with the variables that were kept for its name. */
  function InfoOf(r: Rendering, ids: seq<I64>, names: seq<string>, scopes: map<string, map<string, string>>): Info {
    Info((n: nat) => if n < |ids| && n < |names| && names[n] in scopes then r.texts(ids[n], scopes[names[n]])
                     else Texts("", None, map[], []), r.kind, r.problem, r.cycle)
  }

  /** The objects and types of all node cells exist, so no lookup of them fails. */
  ghost predicate CellsKnown(cfg: Config, s: Store, order: seq<nat>) {
    && |s.ids| == |s.normal| == |s.names|
    && forall k :: 0 <= k < |order| ==> order[k] < |s.ids| && (s.normal[order[k]] ==> cfg.Known(s.ids[order[k]]))
  }

  ghost function CellOf(cfg: Config, s: Store, info: Info, names: Settings, n: nat): Emitted
    requires n < |s.ids| == |s.names| && cfg.Known(s.ids[n])
  {
    var id, texts := s.ids[n], info.texts(n);
    var typeId := cfg.objects[id].typeId;
    Emitted(s.names[n], texts.title, texts.script, texts.content, id, typeId, info.kind(typeId), names.TypeName(typeId),
            texts.triggers, cfg.TypeOrder(id))
  }

  /** What the node cells of an order say. */
  ghost function EmittedOf(cfg: Config, s: Store, info: Info, names: Settings, order: seq<nat>): seq<Emitted>
    requires CellsKnown(cfg, s, order)
  {
    if order == [] then []
    else
      var n := order[|order| - 1];
      EmittedOf(cfg, s, info, names, order[..|order| - 1]) + if s.normal[n] then [CellOf(cfg, s, info, names, n)]
        else []
  }

  /** Every emitted object comes from a cell of the order that carries its name, and each such cell
      is emitted. */
  lemma {:induction false} EmittedCells(cfg: Config, s: Store, info: Info, names: Settings, order: seq<nat>)
    requires CellsKnown(cfg, s, order)
    ensures forall name :: name in NamesOf(EmittedOf(cfg, s, info, names, order)) <==> HasCell(s, order, name)
  {
    hide CellOf;
    if order != [] {
      var last, init := order[|order| - 1], order[..|order| - 1];
      EmittedCells(cfg, s, info, names, init);
      assert forall n :: n in order <==> n in init || n == last;
      forall name ensures name in NamesOf(EmittedOf(cfg, s, info, names, order)) <==> HasCell(s, order, name) {
        LastCell(cfg, s, info, names, order, name);
      }
    }
  }

  lemma LastCell(cfg: Config, s: Store, info: Info, names: Settings, order: seq<nat>, name: string)
    requires CellsKnown(cfg, s, order) && order != []
    ensures var last, init := order[|order| - 1], order[..|order| - 1];
      && (name in NamesOf(EmittedOf(cfg, s, info, names, order)) <==>
          name in NamesOf(EmittedOf(cfg, s, info, names, init)) || (s.normal[last] && s.names[last] == name))
      && (HasCell(s, order, name) <==> HasCell(s, init, name) || (s.normal[last] && s.names[last] == name))
  {
    var last, init := order[|order| - 1], order[..|order| - 1];
    var es, before := EmittedOf(cfg, s, info, names, order), EmittedOf(cfg, s, info, names, init);
    assert order == init + [last];
    assert forall n :: n in order <==> n in init || n == last;
    if s.normal[last] {
      assert es == before + [CellOf(cfg, s, info, names, last)];
    } else {
      assert es == before;
    }
  }

  ghost predicate HasCell(s: Store, order: seq<nat>, name: string) {
    exists n :: n in order && n < |s.normal| == |s.names| && s.normal[n] && s.names[n] == name
  }

  lemma CellsAreKnown(cfg: Config, s: Store, open: set<string>, clean: bool, order: seq<nat>)
    requires ValidStore(cfg, s, open, clean) && forall n :: n in order ==> n < |s.ids|
    ensures CellsKnown(cfg, s, order)
  {
    forall k | 0 <= k < |order| ensures order[k] < |s.ids| && (s.normal[order[k]] ==> cfg.Known(s.ids[order[k]])) {
      var n := order[k];
      assert n in order;
      assert Covered(s, n);
      var name :| name in s.nodes && (s.nodes[name].node == n || s.nodes[name].sentinel == n);
      assert PairOk(cfg, s, name);
    }
  }

  lemma CellOfName(cfg: Config, s: Store, clean: bool, order: seq<nat>, c: nat)
    requires ValidStore(cfg, s, {}, clean) && c < |s.ids| == |s.normal| == |s.names| && s.normal[c]
    requires HasCell(s, order, s.names[c])
    ensures c in order
  {
    hide ValidStore;
    var n :| n in order && n < |s.normal| && s.normal[n] && s.names[n] == s.names[c];
    HostOrder.EmittedNamesDistinct(cfg, s, {}, clean, n, c);
  }

  /** Emitted objects have distinct names. */
  lemma {:induction false} EmittedDistinct(cfg: Config, s: Store, clean: bool, info: Info, names: Settings,
                                           order: seq<nat>)
    requires ValidStore(cfg, s, {}, clean) && CellsKnown(cfg, s, order) && TopSort.Distinct(order)
    ensures DistinctNames(EmittedOf(cfg, s, info, names, order))
  {
    hide ValidStore;
    if order != [] {
      var last, init := order[|order| - 1], order[..|order| - 1];
      EmittedDistinct(cfg, s, clean, info, names, init);
      if s.normal[last] {
        EmittedCells(cfg, s, info, names, init);
        if HasCell(s, init, s.names[last]) { CellOfName(cfg, s, clean, init, last); }
        var before, e := EmittedOf(cfg, s, info, names, init), CellOf(cfg, s, info, names, last);
        assert EmittedOf(cfg, s, info, names, order) == before + [e];
        forall i | 0 <= i < |before| ensures before[i].name != e.name {
          assert before[i].name in NamesOf(before);
        }
      } else {
        assert EmittedOf(cfg, s, info, names, order) == EmittedOf(cfg, s, info, names, init) + [];
      }
    }
  }

  /** The part of the loop that builds an object from each node cell. */
  method EmitCells(v: Visitor, info: Info, names: Settings, order: seq<nat>) returns (es: seq<Emitted>)
    requires CellsKnown(v.cfg, v.S(), order) && |v.arena.typeOrder| == |v.arena.ids|
    requires forall n :: n in order ==> n < |v.arena.ids| && v.arena.typeOrder[n] == v.cfg.TypeOrder(v.arena.ids[n])
    ensures es == EmittedOf(v.cfg, v.S(), info, names, order)
  {
    es := [];
    for k := 0 to |order|
      invariant es == EmittedOf(v.cfg, v.S(), info, names, order[..k])
    {
      var n := order[k];
      assert order[..k + 1][..k] == order[..k] && order[..k + 1][k] == n;
      if v.arena.normal[n] {
        var id, texts := v.arena.ids[n], info.texts(n);
        var typeId := v.cfg.objects[id].typeId;
        es := es + [Emitted(v.names[n], texts.title, texts.script, texts.content, id, typeId, info.kind(typeId),
                            names.TypeName(typeId), texts.triggers, v.arena.typeOrder[n])];
      }
    }
    assert order[..|order|] == order;
  }

  // ---------------------------------------------------------------- the order of ties

  ghost predicate SameElements<T(!new)>(a: seq<T>, b: seq<T>) {
    forall x :: x in a <==> x in b
  }

  /** What is emitted is what the node cells of the order say. */
  lemma {:induction false} EmittedAre(cfg: Config, s: Store, info: Info, names: Settings, order: seq<nat>, e: Emitted)
    requires CellsKnown(cfg, s, order)
    ensures e in EmittedOf(cfg, s, info, names, order) <==>
      exists k :: 0 <= k < |order| && s.normal[order[k]] && e == CellOf(cfg, s, info, names, order[k])
  {
    hide CellOf;
    if order != [] {
      var last, init := order[|order| - 1], order[..|order| - 1];
      EmittedAre(cfg, s, info, names, init, e);
      assert forall k :: 0 <= k < |init| ==> init[k] == order[k];
    }
  }

  /** What an emitted object says about the object of its cell: its own id and type, the name of the
      type, and the deploy order that its type declares. */
  lemma EmittedSays(cfg: Config, s: Store, info: Info, names: Settings, order: seq<nat>, e: Emitted) returns (n: nat)
    requires CellsKnown(cfg, s, order) && e in EmittedOf(cfg, s, info, names, order)
    ensures n in order && n < |s.ids| == |s.names| == |s.normal| && s.normal[n]
    ensures e.name == s.names[n] && e.id == s.ids[n]
    ensures e.id in cfg.objects && e.typeId == cfg.objects[e.id].typeId && e.kind == info.kind(e.typeId)
    ensures e.typeId in names.typeNames ==> e.typeName == names.typeNames[e.typeId]
    ensures Texts(e.title, e.script, e.content, e.triggers) == info.texts(n)
    ensures forall x :: HostOrder.Declares(cfg, e.id, x) ==> e.order == x
  {
    EmittedAre(cfg, s, info, names, order, e);
    var k :| 0 <= k < |order| && s.normal[order[k]] && e == CellOf(cfg, s, info, names, order[k]);
    n := order[k];
  }

  /** What an emitted object says depends on its name alone, however and from where it was first visited:
      it is what its object renders to with the variables of the objects in the name. */
  lemma SaidByName(cfg: Config, st: Store, src: Source, scopes: map<string, map<string, string>>, r: Rendering,
                   names: Settings, order: seq<nat>, e: Emitted)
    returns (prefix: seq<I64>, id: I64)
    requires ValidStore(cfg, st, {}, true) && CellsKnown(cfg, st, order) && AllInScope(src, st.ids, st.nodes, scopes)
    requires e in EmittedOf(cfg, st, InfoOf(r, st.ids, st.names, scopes), names, order)
    ensures e.id == id && e.name == NodeName(prefix, id)
    ensures Texts(e.title, e.script, e.content, e.triggers) == r.texts(id, ScopeOf(src, prefix))
  {
    hide EmittedOf, NodeName, ScopeOf;
    var n := EmittedSays(cfg, st, InfoOf(r, st.ids, st.names, scopes), names, order, e);
    NameOfCell(cfg, st, n);
    assert InScope(src, st.names[n], st.ids[n], scopes[st.names[n]]);
    id := st.ids[n];
    prefix :| st.names[n] == NodeName(prefix, st.ids[n]) && scopes[st.names[n]] == ScopeOf(src, prefix);
  }

  lemma NameOfCell(cfg: Config, st: Store, n: nat)
    requires ValidStore(cfg, st, {}, true) && n < |st.ids| == |st.normal| == |st.names| && st.normal[n]
    ensures st.names[n] in st.nodes && st.nodes[st.names[n]].node == n
  {
    assert Covered(st, n);
    var name :| name in st.nodes && (st.nodes[name].node == n || st.nodes[name].sentinel == n);
    assert PairOk(cfg, st, name);
  }

  lemma EmittedWithin(cfg: Config, s: Store, info: Info, names: Settings, others: Settings, a: seq<nat>, b: seq<nat>,
                      e: Emitted)
    requires CellsKnown(cfg, s, a) && CellsKnown(cfg, s, b) && names.typeNames == others.typeNames
    requires (forall n :: n in a ==> n in b) && e in EmittedOf(cfg, s, info, names, a)
    ensures e in EmittedOf(cfg, s, info, others, b)
  {
    hide EmittedOf;
    EmittedAre(cfg, s, info, names, a, e);
    EmittedAre(cfg, s, info, others, b, e);
    var k :| 0 <= k < |a| && s.normal[a[k]] && e == CellOf(cfg, s, info, names, a[k]);
    assert a[k] in a && a[k] in b;
    var j :| 0 <= j < |b| && b[j] == a[k];
    assert e == CellOf(cfg, s, info, others, b[j]);
  }

  /** However the sort breaks ties, the same objects are emitted. */
  lemma TiesEmitTheSame(cfg: Config, s: Store, info: Info, names: Settings, others: Settings, keys: seq<(int, int)>,
                        all: set<nat>,
                        a: seq<nat>, left: set<nat>, b: seq<nat>, rest: set<nat>)
    requires CellsKnown(cfg, s, a) && CellsKnown(cfg, s, b) && names.typeNames == others.typeNames
    requires TopSort.Emits(s.g, keys, all, a, left) && TopSort.Emits(s.g, keys, all, b, rest)
    ensures left == rest && SameElements(EmittedOf(cfg, s, info, names, a), EmittedOf(cfg, s, info, others, b))
  {
    LeftoversAgree(s.g, keys, all, a, left, b, rest);
    hide EmittedOf, TopSort.Emits, CellsKnown;
    forall e ensures e in EmittedOf(cfg, s, info, names, a) <==> e in EmittedOf(cfg, s, info, others, b) {
      if e in EmittedOf(cfg, s, info, names, a) { EmittedWithin(cfg, s, info, names, others, a, b, e); }
      if e in EmittedOf(cfg, s, info, others, b) { EmittedWithin(cfg, s, info, others, names, b, a, e); }
    }
  }

  lemma LeftoversAgree(g: Graph, keys: seq<(int, int)>, all: set<nat>, a: seq<nat>, left: set<nat>, b: seq<nat>,
                       rest: set<nat>)
    requires TopSort.Emits(g, keys, all, a, left) && TopSort.Emits(g, keys, all, b, rest)
    ensures left == rest && forall n :: n in a <==> n in b
  {
    assert left <= all && rest <= all && TopSort.Stuck(g, left) && TopSort.Stuck(g, rest);
    hide TopSort.Emits;
    TopSort.LeftoverIsGreatestStuck(g, keys, all, a, left, rest);
    TopSort.LeftoverIsGreatestStuck(g, keys, all, b, rest, left);
    TopSort.EmittedOnce(g, keys, all, a, left);
    TopSort.EmittedOnce(g, keys, all, b, rest);
    assert Elements(a) == all - left == all - rest == Elements(b);
    forall n ensures n in a <==> n in b {
      assert n in a <==> n in Elements(a);
      assert n in b <==> n in Elements(b);
    }
  }

  // ---------------------------------------------------------------- one host

  /** The diff of what was emitted, with these errors; it fails exactly when a script is missing. */
  ghost predicate DiffOf(cfg: Config, st: Store, info: Info, s: Settings, rows: map<string, Row>, order: seq<nat>,
                         errors: seq<string>, r: HostResult) {
    && CellsKnown(cfg, st, order)
    && var es := EmittedOf(cfg, st, info, s, order);
    && DistinctNames(es)
    && (r.Found? <==> Complete(s, rows, es))
    && (r.Found? ==> r.errors == errors && IsDiff(s, rows, es, r.objects))
  }

  /** Every deployable object has a script, and so has every row that is to be removed. */
  ghost predicate Complete(s: Settings, rows: map<string, Row>, es: seq<Emitted>) {
    AllScripted(Deployable(es)) && (s.full ==> RemovalsScripted(Orphans(rows, Deployable(es))))
  }

  /** What a host leaves, given how the visit and the sort went. */
  ghost predicate ResultFor(cfg: Config, st: Store, info: Info, s: Settings, rows: map<string, Row>,
                            o: HostOrder.Outcome, r: HostResult) {
    match o
    case Failed => r.Found? && r.errors != [] && r.objects == []
    case Nothing => r == Found([], [])
    case Ordered(order) => DiffOf(cfg, st, info, s, rows, order, [], r)
    case Cycle(order, cells) => DiffOf(cfg, st, info, s, rows, order, [info.cycle(cells)], r)
  }

  method DiffHost(v: Visitor, info: Info, s: Settings, rows: map<string, Row>, order: seq<nat>, errors: seq<string>)
    returns (r: HostResult)
    requires ValidStore(v.cfg, v.S(), {}, true) && TopSort.Distinct(order) && |v.arena.typeOrder| == |v.arena.ids|
    requires forall n :: n in order ==> n < |v.arena.ids| && v.arena.typeOrder[n] == v.cfg.TypeOrder(v.arena.ids[n])
    ensures DiffOf(v.cfg, v.S(), info, s, rows, order, errors, r)
  {
    CellsAreKnown(v.cfg, v.S(), {}, true, order);
    hide ValidStore;
    EmittedDistinct(v.cfg, v.S(), true, info, s, order);
    var es := EmitCells(v, info, s, order);
    var d := ComputeDiff(s, rows, es);
    match d {
      case Ok(os) => r := Found(errors, os);
      case Err(_) => r := Aborted("Missing script");
    }
  }

  /** `setup_deployment_host`, from the visits to the objects of the host. A cycle is an error, and the
      diff goes on with what was emitted. */
  method SetupDeploymentHost(v: Visitor, contains: seq<I64>, deployId: Option<I64>, rendering: Rendering, s: Settings,
                             rows: map<string, Row>)
    returns (r: HostResult, o: HostOrder.Outcome, ghost all: set<nat>, ghost left: set<nat>)
    requires v.Valid({}) && v.errors == [] && v.topVisiting == {}
    requires forall c :: c in contains ==> c in v.reach
    requires -0x8000_0000_0000_0000 <= s.host < 0x8000_0000_0000_0000
    requires s.full == (deployId == None || deployId == Some(s.host))
    modifies v, v.arena
    ensures o.Failed? <==> v.errors != []
    ensures AllCaused(v.Src(), v.errors) && forall rank :: Healthy(v.Src(), rank) ==> !o.Failed?
    ensures o.Ordered? || o.Cycle? ==> ValidStore(v.cfg, v.S(), {}, true) && HostOrder.Sorted(v, all, o, left)
    ensures o.Ordered? || o.Cycle? ==> HostOrder.Covers(v.cfg, v.S(), s.host, deployId, all)
    ensures (o.Ordered? || o.Cycle?) && s.full ==> forall i: nat :: i < |v.arena.ids| ==> i in all
    ensures AllInScope(v.Src(), v.arena.ids, v.nodes, v.scopes)
    ensures ResultFor(v.cfg, v.S(), InfoOf(rendering, v.arena.ids, v.names, v.scopes), s, rows, o, r)
  {
    hide ValidStore, DiffOf, AllCaused, Healthy, HostOrder.Covers, HostOrder.AskedName, AllInScope;
    o, all, left := HostOrder.OrderHost(v, s.host, contains, deployId);
    var info := InfoOf(rendering, v.arena.ids, v.names, v.scopes);
    match o {
      case Failed =>
        r := Found(seq(|v.errors|, k requires 0 <= k < |v.errors| reads v => info.problem(v.errors[k])), []);
      case Nothing =>
        r := Found([], []);
      case Ordered(order) =>
        OrderInGraph(v, all, o, left);
        r := DiffHost(v, info, s, rows, order, []);
      case Cycle(order, cells) =>
        OrderInGraph(v, all, o, left);
        r := DiffHost(v, info, s, rows, order, [info.cycle(cells)]);
    }
  }

  lemma OrderInGraph(v: Visitor, all: set<nat>, o: HostOrder.Outcome, left: set<nat>)
    requires HostOrder.Sorted(v, all, o, left)
    ensures TopSort.Distinct(o.order) && |v.arena.typeOrder| == |v.arena.ids|
    ensures forall n :: n in o.order ==> n < |v.arena.ids| && v.arena.typeOrder[n] == v.cfg.TypeOrder(v.arena.ids[n])
  {
    TopSort.EmittedOnce(v.S().g, TopSort.Keys(v.arena.typeOrder, v.arena.ids), all, o.order, left);
    forall n | n in o.order ensures n in all {
      assert n in Elements(o.order);
    }
  }

  // ---------------------------------------------------------------- a cycle on an earlier host

  /** A cell that is left over is not among what was emitted. */
  lemma LeftIsNotEmitted(cfg: Config, st: Store, info: Info, s: Settings, keys: seq<(int, int)>, all: set<nat>,
                         order: seq<nat>, left: set<nat>, c: nat)
    requires ValidStore(cfg, st, {}, true) && CellsKnown(cfg, st, order) && TopSort.Emits(st.g, keys, all, order, left)
    requires c in left && c < |st.ids| && st.normal[c]
    ensures st.names[c] !in NamesOf(EmittedOf(cfg, st, info, s, order))
  {
    hide ValidStore, TopSort.Emits;
    EmittedCells(cfg, st, info, s, order);
    TopSort.EmittedOnce(st.g, keys, all, order, left);
    assert c !in Elements(order);
    if HasCell(st, order, st.names[c]) { CellOfName(cfg, st, true, order, c); }
  }

  /** A node cell under whose name there is a row. */
  predicate IsStored(st: Store, rows: map<string, Row>, c: nat) {
    c < |st.ids| == |st.names| == |st.normal| && st.normal[c] && st.names[c] in rows
  }

  /** A host on which the sort got stuck reports a cycle. If it is not the last one, and the last one
      has no errors, the setup is ready for review all the same, and whatever is stored on a full host
      for an object whose cell was left over is listed for removal. */
  lemma CycleOnEarlierHostRemoves(root: RootResult, results: seq<HostResult>, k: nat, cfg: Config, st: Store,
                                  info: Info, s: Settings, rows: map<string, Row>,
                                  keys: seq<(int, int)>, all: set<nat>, o: HostOrder.Outcome, left: set<nat>)
    requires root.RootErrors? && NoneAborted(results) && k < |results| - 1 && results[|results| - 1].errors == []
    requires ValidStore(cfg, st, {}, true) && o.Cycle? && TopSort.Emits(st.g, keys, all, o.order, left)
    requires ResultFor(cfg, st, info, s, rows, o, results[k]) && s.full
    ensures results[k].errors != [] && SetupOutcome(root, results).Ready?
    ensures forall c :: c in left && IsStored(st, rows, c) ==>
      exists x :: x in SetupOutcome(root, results).objects && Removes(x, s.host, st.names[c])
  {
    hide AllObjectsOf, IsDiff, ValidStore, TopSort.Emits, NamesOf, EmittedOf;
    forall c | c in left && IsStored(st, rows, c)
      ensures exists x :: x in AllObjectsOf(results) && Removes(x, s.host, st.names[c])
    {
      LeftIsNotEmitted(cfg, st, info, s, keys, all, o.order, left, c);
      NotEmittedIsRemoved(s, rows, EmittedOf(cfg, st, info, s, o.order), results[k].objects, st.names[c]);
      var x :| x in results[k].objects && Removes(x, s.host, st.names[c]);
      ObjectsOfHost(results, k, x);
    }
  }

  const OLD_ROW: Row := Row(DeployContent(Some("script"), Some(map[]), [], 0, "", 1), CycleExamples.TYPE, "A")

  /** A is stored, and now contains B, which contains A: on a host before the last one the cycle is
      reported, and A is up for removal. */
  lemma CycleRemovesExample(root: RootResult, info: Info, s: Settings, keys: seq<(int, int)>)
    requires s.full && root.RootErrors?
    ensures var cfg, st, all := CycleExamples.Members(CycleExamples.MUTUAL), CycleExamples.MutualStore(), {0, 1, 2, 3};
      var name := CycleExamples.Name(1);
      var first := Found([info.cycle([1, 3, 1])], [RemoveObject(s, name, OLD_ROW)]);
      && ValidStore(cfg, st, {}, true) && TopSort.Emits(st.g, keys, all, [], all) &&
           CycleSearch.ReversedCycle(st.g.next, 1, [1, 3, 1])
      && ResultFor(cfg, st, info, s, map[name := OLD_ROW], HostOrder.Cycle([], [1, 3, 1]), first)
      && SetupOutcome(root, [first, Found([], [])]) == Ready([RemoveObject(s, name, OLD_ROW)])
  {
    hide CycleExamples.Name, CycleExamples.MutualStore, CycleExamples.TwoStore, CycleExamples.Members;
    hide ValidStore, IsDiff, ResultFor, SetupOutcome, TopSort.Emits;
    CycleExamples.MutualGraph();
    var cfg, st, all := CycleExamples.Members(CycleExamples.MUTUAL), CycleExamples.MutualStore(), {0, 1, 2, 3};
    var name := CycleExamples.Name(1);
    var first := Found([info.cycle([1, 3, 1])], [RemoveObject(s, name, OLD_ROW)]);
    NothingReady(keys);
    ExampleResult(cfg, st, info, s, name, first);
    ExampleOutcome(root, [first, Found([], [])]);
  }

  lemma ExampleResult(cfg: Config, st: Store, info: Info, s: Settings, name: string, first: HostResult)
    requires s.full && |st.ids| == |st.normal| == |st.names|
    requires first == Found([info.cycle([1, 3, 1])], [RemoveObject(s, name, OLD_ROW)])
    ensures ResultFor(cfg, st, info, s, map[name := OLD_ROW], HostOrder.Cycle([], [1, 3, 1]), first)
  {
    hide IsDiff, Complete;
    NothingEmitted(s, name);
    assert EmittedOf(cfg, st, info, s, []) == [];
  }

  lemma NothingReady(keys: seq<(int, int)>)
    ensures TopSort.Emits(CycleExamples.MUTUAL_GRAPH, keys, {0, 1, 2, 3}, [], {0, 1, 2, 3})
  {
    var g, all := CycleExamples.MUTUAL_GRAPH, {0, 1, 2, 3};
    forall n: nat ensures !TopSort.Ready(g, all, n) {
      if n < 4 { assert g.prev[n][0] in g.prev[n]; }
    }
    assert Elements([]) == {};
  }

  lemma NothingEmitted(s: Settings, name: string)
    requires s.full
    ensures IsDiff(s, map[name := OLD_ROW], [], [RemoveObject(s, name, OLD_ROW)])
    ensures Complete(s, map[name := OLD_ROW], [])
  {
    var rows, es: seq<Emitted>, o := map[name := OLD_ROW], [], RemoveObject(s, name, OLD_ROW);
    assert NamesOf(es) == {} && Orphans(rows, es) == rows;
    assert IsRemovalOrder(s, rows, es, [name]);
    assert [name][1..] == [] && Removals(s, rows, [name]) == [o];
    var main := Changes(s, rows, es) + Removals(s, rows, [name]);
    assert main == [o] && [o][1..] == [];
    var ts: seq<TriggerData> := [];
    assert Triggers.DropRepeats(ts) == [] && Triggers.Permutes(ts, ts) && Orders.Sorted(ts, Triggers.TriggerOrder);
    assert TriggersOf(main) == [];
    assert Triggers.Fired(TriggersOf(main), ts);
    assert main + TriggerObjects(s, ts) == [o];
  }

  lemma ExampleOutcome(root: RootResult, results: seq<HostResult>)
    requires root.RootErrors? && |results| == 2 && results[0].Found? && results[1] == Found([], [])
    ensures SetupOutcome(root, results) == Ready(results[0].objects)
  {
    assert AllObjectsOf(results[1..]) == [] by { assert results[1..][1..] == []; }
  }
}
