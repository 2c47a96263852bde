/** From the emitted objects of a host and its stored rows to the objects of a deployment:
    what is added, modified and removed, and the triggers that this fires. */
module Diff {
  import opened Wrappers
  import opened DeployTypes
  import opened Orders
  import opened Triggers

  /** What an emitted cell of an object says. */
  datatype Emitted = Emitted(
    name: string, title: string, script: Option<string>, content: Content, id: int, typeId: int,
    kind: Option<Kind>, typeName: string, triggers: seq<TriggerData>, order: int)

  /** `typeNames` are the names of all objects, of which those of types are looked up. */
  datatype Settings = Settings(host: int, redeploy: bool, full: bool, debPackages: bool, typeNames: map<int, string>) {
    function TypeName(typeId: int): string {
      if typeId in typeNames then typeNames[typeId] else ""
    }
  }

  predicate Skipped(e: Emitted) {
    e.kind in {Some(Host), Some(Root), Some(Collection), Some(Hostvar)}
  }

  /** The emitted objects that are deployed at all. */
  function Deployable(es: seq<Emitted>): seq<Emitted> {
    if es == [] then []
    else (if Skipped(es[0]) then [] else [es[0]]) + Deployable(es[1..])
  }

  function NamesOf(es: seq<Emitted>): set<string> {
    set e | e in es :: e.name
  }

  ghost predicate DistinctNames(es: seq<Emitted>) {
    forall i, j :: 0 <= i < j < |es| ==> es[i].name != es[j].name
  }

  /** The object for an emitted one, compared with the stored row unless this is a redeploy. */
  function ObjectFor(s: Settings, rows: map<string, Row>, e: Emitted): DeployObject
    requires e.script.Some?
  {
    var o := DeployObject(s.host, e.title, e.name, true, Normal, Add, e.script.value, Some(""), Some(e.content), None,
                          Some(e.id), e.typeId, e.typeName, e.triggers, e.order);
    if e.name in rows && !s.redeploy then
      o.(prevContent := rows[e.name].content.content, prevScript := rows[e.name].content.script, action := Modify)
    else o
  }

  predicate Changed(o: DeployObject) {
    o.nextContent != o.prevContent || Some(o.script) != o.prevScript
  }

  /** Packages are only deployed on hosts that want them. */
  predicate Wanted(s: Settings, o: DeployObject) {
    s.debPackages || o.typeId != PACKAGE_ID
  }

  /** What is added or modified, in the order of emission. */
  function Changes(s: Settings, rows: map<string, Row>, es: seq<Emitted>): seq<DeployObject>
    requires forall e :: e in es ==> e.script.Some?
  {
    if es == [] then []
    else
      var o := ObjectFor(s, rows, es[0]);
      (if Wanted(s, o) && Changed(o) then [o] else []) + Changes(s, rows, es[1..])
  }

  function RemoveObject(s: Settings, name: string, row: Row): DeployObject
    requires row.content.script.Some?
  {
    var c := row.content;
    DeployObject(s.host, row.title, name, true, Normal, Remove, c.script.value, None, None, c.content,
                 Some(c.objectId), row.typeId, c.typeName, c.triggers, c.deploymentOrder)
  }

  // ---------------------------------------------------------------- the order of removals

  predicate StringLess(a: string, b: string) {
    CompareText(a, b) == Less
  }

  lemma StringTotal(a: string, b: string)
    ensures StringLess(a, b) || a == b || StringLess(b, a)
    ensures !(StringLess(a, b) && StringLess(b, a)) && !StringLess(a, a)
  {
    TextFlips(a, b);
    TextEqual(a, b);
    TextEqual(a, a);
  }

  /** By deployment order, then by name. */
  predicate RemovesBefore(rows: map<string, Row>, a: string, b: string)
    requires a in rows && b in rows
  {
    var x, y := rows[a].content.deploymentOrder, rows[b].content.deploymentOrder;
    x < y || (x == y && StringLess(a, b))
  }

  ghost predicate SortedNames(rows: map<string, Row>, names: seq<string>) {
    && (forall n :: n in names ==> n in rows)
    && forall i, j :: 0 <= i < j < |names| ==> RemovesBefore(rows, names[i], names[j])
  }

  /** A row to remove: its name and its deployment order. */
  type Removal = (string, int)

  function RemovalOrder(a: Removal, b: Removal): Ordering {
    CompareInt(a.1, b.1).Then(CompareText(a.0, b.0))
  }

  lemma RemovalOrderIsPreorder()
    ensures IsPreorder(RemovalOrder)
  {
    forall a, b ensures RemovalOrder(b, a) == Flip(RemovalOrder(a, b)) {
      TextFlips(a.0, b.0);
    }
    forall a, b, c | RemovalOrder(a, b) != Greater && RemovalOrder(b, c) != Greater
      ensures RemovalOrder(a, c) != Greater
    {
      if a.1 == b.1 == c.1 { TextTransitive(a.0, b.0, c.0); }
    }
  }

  /** The rows with these names, each once, in any order. */
  ghost predicate Lists(rows: map<string, Row>, names: set<string>, values: seq<Removal>) {
    && (forall v :: v in values ==> v.0 in rows && v.0 in names && v.1 == rows[v.0].content.deploymentOrder)
    && (forall n :: n in names && n in rows ==> (n, rows[n].content.deploymentOrder) in values)
    && forall i, j :: 0 <= i < j < |values| ==> values[i] != values[j]
  }

  lemma SortedByOrder(rows: map<string, Row>, values: seq<Removal>, sorted: seq<Removal>, names: seq<string>)
    requires Lists(rows, rows.Keys, values) && multiset(values) == multiset(sorted) && Sorted(sorted, RemovalOrder)
    requires |names| == |sorted| && forall k :: 0 <= k < |names| ==> names[k] == sorted[k].0
    ensures SortedNames(rows, names) && forall n :: n in names <==> n in rows
  {
    PermutedDistinct(values, sorted);
    forall v ensures v in sorted <==> v in values {
      assert v in multiset(sorted) <==> v in multiset(values);
    }
    forall n | n in rows ensures n in names {
      var k :| 0 <= k < |sorted| && sorted[k] == (n, rows[n].content.deploymentOrder);
      assert names[k] == n;
    }
    forall k | 0 <= k < |names| ensures names[k] in rows && sorted[k].1 == rows[names[k]].content.deploymentOrder {
      assert sorted[k] in sorted;
    }
    forall i, j | 0 <= i < j < |names| ensures RemovesBefore(rows, names[i], names[j]) {
      assert RemovalOrder(sorted[i], sorted[j]) != Greater;
      TextEqual(names[i], names[j]);
      assert sorted[i] != sorted[j];
    }
  }

  /** `sort_by` over the rows that are left, collected in any order. */
  method SortNames(rows: map<string, Row>) returns (names: seq<string>)
    ensures SortedNames(rows, names)
    ensures forall n :: n in names <==> n in rows
  {
    var values: seq<Removal> := [];
    var todo := rows.Keys;
    while todo != {}
      invariant todo <= rows.Keys && Lists(rows, rows.Keys - todo, values)
    {
      var n :| n in todo;
      values := values + [(n, rows[n].content.deploymentOrder)];
      todo := todo - {n};
    }
    assert rows.Keys - todo == rows.Keys;
    RemovalOrderIsPreorder();
    var sorted := SortBy(values, RemovalOrder);
    names := seq(|sorted|, k requires 0 <= k < |sorted| => sorted[k].0);
    SortedByOrder(rows, values, sorted, names);
  }

  function Removals(s: Settings, rows: map<string, Row>, names: seq<string>): seq<DeployObject>
    requires forall n :: n in names ==> n in rows && rows[n].content.script.Some?
  {
    if names == [] then [] else [RemoveObject(s, names[0], rows[names[0]])] + Removals(s, rows, names[1..])
  }

  // ---------------------------------------------------------------- triggers

  function TriggersOf(os: seq<DeployObject>): seq<TriggerData> {
    if os == [] then [] else os[0].triggers + TriggersOf(os[1..])
  }

  function TriggerObject(s: Settings, t: TriggerData): DeployObject {
    DeployObject(s.host, t.title, "", true, Normal, Fire, t.script, None, Some(t.Content()), None,
                 None, t.typeId, s.TypeName(t.typeId), [], 0)
  }

  function TriggerObjects(s: Settings, ts: seq<TriggerData>): seq<DeployObject> {
    if ts == [] then [] else [TriggerObject(s, ts[0])] + TriggerObjects(s, ts[1..])
  }

  // ---------------------------------------------------------------- the whole diff

  ghost predicate AllScripted(es: seq<Emitted>) {
    forall e :: e in es ==> e.script.Some?
  }

  /** What is left of the rows once every deployable object has taken its own. */
  function Orphans(rows: map<string, Row>, es: seq<Emitted>): map<string, Row> {
    rows - NamesOf(es)
  }

  /** The objects of one host: changes, then removals, then one object for each trigger. */
  ghost predicate IsDiff(s: Settings, rows: map<string, Row>, es: seq<Emitted>, os: seq<DeployObject>) {
    && AllScripted(Deployable(es))
    && exists names, ts ::
         && IsRemovalOrder(s, rows, es, names)
         && var main := Changes(s, rows, Deployable(es)) + Removals(s, Orphans(rows, Deployable(es)), names);
         && Fired(TriggersOf(main), ts)
         && os == main + TriggerObjects(s, ts)
  }

  ghost predicate IsRemovalOrder(s: Settings, rows: map<string, Row>, es: seq<Emitted>, names: seq<string>) {
    var orphans := Orphans(rows, Deployable(es));
    && SortedNames(orphans, names)
    && (if s.full then forall n :: n in names <==> n in orphans else names == [])
    && forall n :: n in names ==> orphans[n].content.script.Some?
  }

  // ---------------------------------------------------------------- computing it

  function AllObjects(s: Settings, rows: map<string, Row>, es: seq<Emitted>): seq<DeployObject>
    requires forall e :: e in es ==> e.script.Some?
  {
    if es == [] then [] else [ObjectFor(s, rows, es[0])] + AllObjects(s, rows, es[1..])
  }

  function Retain(os: seq<DeployObject>, keep: DeployObject -> bool): seq<DeployObject> {
    if os == [] then [] else (if keep(os[0]) then [os[0]] else []) + Retain(os[1..], keep)
  }

  predicate NotPackage(o: DeployObject) {
    o.typeId != PACKAGE_ID
  }

  /** The list after the package filter, which only runs on hosts without packages. */
  function WithoutUnwanted(s: Settings, os: seq<DeployObject>): seq<DeployObject> {
    if s.debPackages then os else Retain(os, NotPackage)
  }

  lemma {:induction false} RetainedAreChanges(s: Settings, rows: map<string, Row>, es: seq<Emitted>)
    requires forall e :: e in es ==> e.script.Some?
    ensures Retain(WithoutUnwanted(s, AllObjects(s, rows, es)), Changed) == Changes(s, rows, es)
  {
    if es != [] {
      RetainedAreChanges(s, rows, es[1..]);
      var o, rest := ObjectFor(s, rows, es[0]), AllObjects(s, rows, es[1..]);
      assert AllObjects(s, rows, es)[1..] == rest;
      var tail := WithoutUnwanted(s, rest);
      assert WithoutUnwanted(s, AllObjects(s, rows, es)) == (if Wanted(s, o) then [o] else []) + tail;
      if Wanted(s, o) {
        assert ([o] + tail)[1..] == tail;
      } else {
        assert [] + tail == tail;
      }
    }
  }

  lemma {:induction false} AllObjectsSnoc(s: Settings, rows: map<string, Row>, es: seq<Emitted>, e: Emitted)
    requires (forall x :: x in es ==> x.script.Some?) && e.script.Some?
    ensures AllObjects(s, rows, es + [e]) == AllObjects(s, rows, es) + [ObjectFor(s, rows, e)]
  {
    if es == [] {
      assert [e][1..] == [];
    } else {
      assert (es + [e])[1..] == es[1..] + [e];
      AllObjectsSnoc(s, rows, es[1..], e);
    }
  }

  lemma {:induction false} DeployableSnoc(es: seq<Emitted>, e: Emitted)
    ensures Deployable(es + [e]) == Deployable(es) + if Skipped(e) then [] else [e]
  {
    if es == [] {
      assert [e][1..] == [];
    } else {
      assert (es + [e])[1..] == es[1..] + [e];
      DeployableSnoc(es[1..], e);
    }
  }

  lemma {:induction false} DeployableSubset(es: seq<Emitted>)
    ensures forall d :: d in Deployable(es) ==> d in es && !Skipped(d)
  {
    if es != [] { DeployableSubset(es[1..]); }
  }

  /** `old_content.remove(name)`, used for the comparison unless this is a redeploy. */
  method TakeRow(s: Settings, ghost rows: map<string, Row>, oldContent: map<string, Row>, e: Emitted)
    returns (o: DeployObject, rest: map<string, Row>)
    requires e.script.Some? && (e.name in rows <==> e.name in oldContent)
    requires e.name in rows ==> rows[e.name] == oldContent[e.name]
    ensures o == ObjectFor(s, rows, e) && rest == oldContent - {e.name}
  {
    o := DeployObject(s.host, e.title, e.name, true, Normal, Add, e.script.value, Some(""), Some(e.content), None,
                      Some(e.id), e.typeId, e.typeName, e.triggers, e.order);
    if e.name in oldContent && !s.redeploy {
      var c := oldContent[e.name].content;
      o := o.(prevContent := c.content, prevScript := c.script, action := Modify);
    }
    rest := oldContent - {e.name};
  }

  /** The loop over emitted cells: each takes its row out of the old ones. */
  method TakeRows(s: Settings, rows: map<string, Row>, es: seq<Emitted>)
    returns (ok: bool, os: seq<DeployObject>, oldContent: map<string, Row>)
    requires DistinctNames(es)
    ensures ok <==> AllScripted(Deployable(es))
    ensures ok ==> os == AllObjects(s, rows, Deployable(es)) && oldContent == Orphans(rows, Deployable(es))
  {
    hide Deployable, AllObjects, ObjectFor;
    os, oldContent := [], rows;
    NothingTaken(s, rows, es);
    for k := 0 to |es|
      invariant AllScripted(Deployable(es[..k]))
      invariant os == AllObjects(s, rows, Deployable(es[..k]))
      invariant oldContent == Orphans(rows, Deployable(es[..k]))
    {
      var e := es[k];
      assert es[..k + 1] == es[..k] + [e];
      DeployableSnoc(es[..k], e);
      if Skipped(e) {
        assert Deployable(es[..k + 1]) == Deployable(es[..k]);
      } else {
        if e.script.None? {
          assert e in Deployable(es[..k + 1]);
          DeployablePrefix(es, k + 1);
          return false, [], map[];
        }
        AllObjectsSnoc(s, rows, Deployable(es[..k]), e);
        NotTakenYet(es, k);
        var o;
        o, oldContent := TakeRow(s, rows, oldContent, e);
        os := os + [o];
        assert NamesOf(Deployable(es[..k]) + [e]) == NamesOf(Deployable(es[..k])) + {e.name};
      }
    }
    assert es[..|es|] == es;
    ok := true;
  }

  lemma NothingTaken(s: Settings, rows: map<string, Row>, es: seq<Emitted>)
    ensures Deployable(es[..0]) == [] && AllObjects(s, rows, []) == []
    ensures Orphans(rows, []) == rows
  {
  }

  lemma NotTakenYet(es: seq<Emitted>, k: nat)
    requires DistinctNames(es) && k < |es|
    ensures es[k].name !in NamesOf(Deployable(es[..k]))
  {
    DeployableSubset(es[..k]);
    forall d | d in Deployable(es[..k])
      ensures d.name != es[k].name
    {
      var i :| 0 <= i < k && es[..k][i] == d;
      assert es[i] == d;
    }
  }

  lemma {:induction false} DeployablePrefix(es: seq<Emitted>, k: nat)
    requires k <= |es|
    ensures forall d :: d in Deployable(es[..k]) ==> d in Deployable(es)
    decreases |es| - k
  {
    if k < |es| {
      assert es[..k + 1] == es[..k] + [es[k]];
      DeployableSnoc(es[..k], es[k]);
      DeployablePrefix(es, k + 1);
    } else {
      assert es[..k] == es;
    }
  }

  method RetainLoop(os: seq<DeployObject>, keep: DeployObject -> bool) returns (kept: seq<DeployObject>)
    ensures kept == Retain(os, keep)
  {
    kept := [];
    for k := 0 to |os|
      invariant kept + Retain(os[k..], keep) == Retain(os, keep)
    {
      assert os[k..][0] == os[k] && os[k..][1..] == os[k + 1..];
      if keep(os[k]) {
        kept := kept + [os[k]];
      }
    }
  }

  method RemovalLoop(s: Settings, oldContent: map<string, Row>, names: seq<string>)
    returns (ok: bool, os: seq<DeployObject>)
    requires forall n :: n in names ==> n in oldContent
    ensures ok <==> forall n :: n in names ==> oldContent[n].content.script.Some?
    ensures ok ==> os == Removals(s, oldContent, names)
  {
    os := [];
    for k := 0 to |names|
      invariant forall n :: n in names[..k] ==> oldContent[n].content.script.Some?
      invariant os == Removals(s, oldContent, names[..k])
    {
      var n := names[k];
      if oldContent[n].content.script.None? {
        return false, [];
      }
      assert names[..k + 1] == names[..k] + [n];
      RemovalsSnoc(s, oldContent, names[..k], n);
      os := os + [RemoveObject(s, n, oldContent[n])];
    }
    assert names[..|names|] == names;
    ok := true;
  }

  lemma {:induction false} RemovalsSnoc(s: Settings, rows: map<string, Row>, names: seq<string>, n: string)
    requires forall x :: x in names + [n] ==> x in rows && rows[x].content.script.Some?
    ensures forall x :: x in names ==> x in rows && rows[x].content.script.Some?
    ensures Removals(s, rows, names + [n]) == Removals(s, rows, names) + [RemoveObject(s, n, rows[n])]
  {
    assert n in names + [n];
    assert forall x :: x in names ==> x in names + [n];
    if names == [] {
      assert ([] + [n])[1..] == [];
    } else {
      assert (names + [n])[1..] == names[1..] + [n];
      RemovalsSnoc(s, rows, names[1..], n);
    }
  }

  method TriggerLoop(s: Settings, os: seq<DeployObject>) returns (all: seq<DeployObject>, ghost ts: seq<TriggerData>)
    ensures Fired(TriggersOf(os), ts) && all == os + TriggerObjects(s, ts)
  {
    var found: seq<TriggerData> := [];
    for k := 0 to |os|
      invariant found + TriggersOf(os[k..]) == TriggersOf(os)
    {
      assert os[k..][0] == os[k] && os[k..][1..] == os[k + 1..];
      found := found + os[k].triggers;
    }
    var ds := DedupTriggers(found);
    assert found == TriggersOf(os);
    ts := ds;
    all := os;
    for k := 0 to |ds|
      invariant all + TriggerObjects(s, ds[k..]) == os + TriggerObjects(s, ds)
    {
      assert ds[k..][0] == ds[k] && ds[k..][1..] == ds[k + 1..];
      all := all + [TriggerObject(s, ds[k])];
    }
  }

  ghost predicate RemovalsScripted(rows: map<string, Row>) {
    forall n :: n in rows ==> rows[n].content.script.Some?
  }

  /** The second half of `setup_deployment_host`. It fails exactly when a deployable object
      or a row to be removed has no script. */
  method ComputeDiff(s: Settings, rows: map<string, Row>, es: seq<Emitted>) returns (r: Result<seq<DeployObject>, ()>)
    requires DistinctNames(es)
    ensures r.Ok? ==> IsDiff(s, rows, es, r.value)
    ensures r.Ok? <==> AllScripted(Deployable(es)) && (s.full ==> RemovalsScripted(Orphans(rows, Deployable(es))))
  {
    var ok, os, oldContent := TakeRows(s, rows, es);
    if !ok {
      return Err(());
    }
    if !s.debPackages {
      os := RetainLoop(os, NotPackage);
    }
    os := RetainLoop(os, Changed);
    RetainedAreChanges(s, rows, Deployable(es));
    var names: seq<string> := [];
    if s.full {
      names := SortNames(oldContent);
    }
    var removals;
    ok, removals := RemovalLoop(s, oldContent, names);
    if !ok {
      return Err(());
    }
    ghost var ts;
    os, ts := TriggerLoop(s, os + removals);
    assert IsRemovalOrder(s, rows, es, names);
    r := Ok(os);
  }
}
