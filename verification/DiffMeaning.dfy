/** What the diff of a host means for each emitted object, by its kind, and for each stored row. */
module DiffMeaning {
  import opened Wrappers
  import opened DeployTypes
  import opened OrderedJson
  import opened Diff
  import opened Triggers
  import opened Execution
  import opened Fixpoint
  import SetupHosts

  /** Hosts, roots, collections and host variables are never deployed; everything else is. */
  ghost predicate DeployedKind(e: Emitted) {
    e.kind != Some(Host) && e.kind != Some(Root) && e.kind != Some(Collection) && e.kind != Some(Hostvar)
  }

  /** Of an object type other than packages, or on a host that wants packages. */
  ghost predicate WantedHere(s: Settings, e: Emitted) {
    s.debPackages || e.typeId != 10
  }

  /** The object carries what was emitted. */
  ghost predicate Carries(s: Settings, e: Emitted, o: DeployObject) {
    && o.host == s.host && o.name == e.name && o.title == e.title && Some(o.script) == e.script
    && o.nextContent == Some(e.content) && o.id == Some(e.id) && o.typeId == e.typeId && o.typeName == e.typeName
    && o.triggers == e.triggers && o.deploymentOrder == e.order && o.enabled && o.status == Normal
  }

  /** As a new one, with nothing before it. */
  ghost predicate Adds(s: Settings, e: Emitted, o: DeployObject) {
    Carries(s, e, o) && o.action == Add && o.prevContent == None && o.prevScript == Some("")
  }

  /** In place of what is stored. */
  ghost predicate Modifies(s: Settings, e: Emitted, row: Row, o: DeployObject) {
    Carries(s, e, o) && o.action == Modify && o.prevContent == row.content.content && o.prevScript == row.content.script
  }

  ghost predicate Differs(e: Emitted, row: Row) {
    row.content.content != Some(e.content) || row.content.script != e.script
  }

  /** What becomes of an emitted object. */
  ghost predicate Meant(s: Settings, rows: map<string, Row>, e: Emitted, os: seq<DeployObject>) {
    if !DeployedKind(e) || !WantedHere(s, e) then NoChange(e.name, os)
    else if e.name !in rows || s.redeploy then exists o :: o in os && Adds(s, e, o)
    else if Differs(e, rows[e.name]) then exists o :: o in os && Modifies(s, e, rows[e.name], o)
    else NoChange(e.name, os)
  }

  ghost predicate NoChange(name: string, os: seq<DeployObject>) {
    forall o :: o in os && o.name == name ==> o.action != Add && o.action != Modify
  }

  ghost predicate NoRemoval(name: string, os: seq<DeployObject>) {
    forall o :: o in os && o.name == name ==> o.action != Remove
  }

  // ---------------------------------------------------------------- changes

  lemma {:induction false} ChangesHave(s: Settings, rows: map<string, Row>, es: seq<Emitted>, e: Emitted)
    requires AllScripted(es) && e in es && Deploys(s, rows, e)
    ensures ObjectFor(s, rows, e) in Changes(s, rows, es)
  {
    assert forall x :: x in es[1..] ==> x in es;
    if e != es[0] { ChangesHave(s, rows, es[1..], e); }
  }

  lemma {:induction false} ChangesAre(s: Settings, rows: map<string, Row>, es: seq<Emitted>, o: DeployObject)
    returns (e: Emitted)
    requires AllScripted(es) && o in Changes(s, rows, es)
    ensures e in es && e.script.Some? && Deploys(s, rows, e) && o == ObjectFor(s, rows, e)
  {
    hide ObjectFor, Wanted, Changed;
    assert forall x :: x in es[1..] ==> x in es;
    if o in Changes(s, rows, es[1..]) {
      e := ChangesAre(s, rows, es[1..], o);
    } else {
      e := es[0];
    }
  }

  lemma {:induction false} DeployableAre(es: seq<Emitted>, e: Emitted)
    ensures e in Deployable(es) <==> e in es && DeployedKind(e)
  {
    if es != [] { DeployableAre(es[1..], e); }
  }

  lemma {:induction false} DeployableDistinct(es: seq<Emitted>)
    requires DistinctNames(es)
    ensures DistinctNames(Deployable(es))
  {
    if es != [] {
      DeployableDistinct(es[1..]);
      DeployableSubset(es[1..]);
      var rest := Deployable(es[1..]);
      forall k | 0 <= k < |rest| ensures rest[k].name != es[0].name {
        assert rest[k] in rest;
      }
    }
  }

  lemma DeploysMeans(s: Settings, rows: map<string, Row>, e: Emitted)
    requires e.script.Some?
    ensures Deploys(s, rows, e) <==> WantedHere(s, e) && (s.redeploy || e.name !in rows || Differs(e, rows[e.name]))
    ensures var o := ObjectFor(s, rows, e);
      if e.name in rows && !s.redeploy then Modifies(s, e, rows[e.name], o) else Adds(s, e, o)
  {
  }

  /** The parts of a diff. */
  ghost predicate Parts(s: Settings, rows: map<string, Row>, es: seq<Emitted>, names: seq<string>, ts: seq<TriggerData>,
                        os: seq<DeployObject>)
  {
    && AllScripted(Deployable(es)) && IsRemovalOrder(s, rows, es, names)
    && var main := Changes(s, rows, Deployable(es)) + Removals(s, Orphans(rows, Deployable(es)), names);
    && Fired(TriggersOf(main), ts)
    && os == main + TriggerObjects(s, ts)
  }

  lemma PartsOf(s: Settings, rows: map<string, Row>, es: seq<Emitted>, os: seq<DeployObject>)
    returns (names: seq<string>, ts: seq<TriggerData>)
    requires IsDiff(s, rows, es, os)
    ensures Parts(s, rows, es, names, ts, os)
  {
    names, ts :|
      && IsRemovalOrder(s, rows, es, names)
      && var main := Changes(s, rows, Deployable(es)) + Removals(s, Orphans(rows, Deployable(es)), names);
      && Fired(TriggersOf(main), ts)
      && os == main + TriggerObjects(s, ts);
  }

  /** Which part an object is in says its action. */
  lemma PartByAction(s: Settings, rows: map<string, Row>, es: seq<Emitted>, names: seq<string>, ts: seq<TriggerData>,
                     os: seq<DeployObject>, o: DeployObject)
    requires Parts(s, rows, es, names, ts, os) && o in os
    ensures o.action in {Add, Modify} <==> o in Changes(s, rows, Deployable(es))
    ensures o.action == Remove <==> o in Removals(s, Orphans(rows, Deployable(es)), names)
    ensures o.action == Fire <==> o in TriggerObjects(s, ts)
  {
    var ds := Deployable(es);
    ChangesAct(s, rows, ds);
    RemovalsAct(s, Orphans(rows, ds), names);
    TriggersShape(s, ts);
    hide Changes, Removals, TriggerObjects, Orphans, AllScripted;
    assert o in Changes(s, rows, ds) || o in Removals(s, Orphans(rows, ds), names) || o in TriggerObjects(s, ts);
  }

  lemma ChangesAct(s: Settings, rows: map<string, Row>, es: seq<Emitted>)
    requires AllScripted(es)
    ensures forall o :: o in Changes(s, rows, es) ==> o.action in {Add, Modify}
  {
    hide Changes;
    forall o | o in Changes(s, rows, es) ensures o.action in {Add, Modify} {
      var e := ChangesAre(s, rows, es, o);
    }
  }

  lemma RemovalsAct(s: Settings, rows: map<string, Row>, names: seq<string>)
    requires forall n :: n in names ==> n in rows && rows[n].content.script.Some?
    ensures forall o :: o in Removals(s, rows, names) ==> o.action == Remove
  {
    RemovalsNamed(s, rows, names);
  }

  // ---------------------------------------------------------------- emitted objects

  /** Every emitted object is added, modified or left alone as its kind, the host and its row say. */
  lemma EmittedIsMeant(s: Settings, rows: map<string, Row>, es: seq<Emitted>, os: seq<DeployObject>, e: Emitted)
    requires IsDiff(s, rows, es, os) && DistinctNames(es) && e in es
    ensures DeployedKind(e) ==> e.script.Some? && NoRemoval(e.name, os)
    ensures Meant(s, rows, e, os)
  {
    hide IsDiff, Parts, Meant, Changes, Removals, Deployable, DistinctNames;
    var names, ts := PartsOf(s, rows, es, os);
    if DeployedKind(e) {
      NotRemoved(s, rows, es, names, ts, os, e);
    }
    ChangedOrNot(s, rows, es, names, ts, os, e);
  }

  lemma NotRemoved(s: Settings, rows: map<string, Row>, es: seq<Emitted>, names: seq<string>, ts: seq<TriggerData>,
                   os: seq<DeployObject>, e: Emitted)
    requires Parts(s, rows, es, names, ts, os) && e in es && DeployedKind(e)
    ensures e.script.Some? && NoRemoval(e.name, os)
  {
    hide Fired, Changes;
    DeployableAre(es, e);
    RemovalNames(s, Orphans(rows, Deployable(es)), names);
    assert e.name in NamesOf(Deployable(es));
    assert e.name !in names;
    forall o | o in os && o.name == e.name ensures o.action != Remove {
      PartByAction(s, rows, es, names, ts, os, o);
    }
  }

  lemma RemovalNames(s: Settings, rows: map<string, Row>, names: seq<string>)
    requires forall n :: n in names ==> n in rows && rows[n].content.script.Some?
    ensures forall o :: o in Removals(s, rows, names) ==> o.name in names
  {
    RemovalsNamed(s, rows, names);
  }

  lemma ChangedOrNot(s: Settings, rows: map<string, Row>, es: seq<Emitted>, names: seq<string>, ts: seq<TriggerData>,
                     os: seq<DeployObject>, e: Emitted)
    requires Parts(s, rows, es, names, ts, os) && DistinctNames(es) && e in es
    ensures Meant(s, rows, e, os)
  {
    hide Changes, Removals, Orphans, Deployable, ObjectFor, Deploys;
    DeployableAre(es, e);
    if DeployedKind(e) && Deploys(s, rows, e) {
      ChangesHave(s, rows, Deployable(es), e);
      assert ObjectFor(s, rows, e) in os;
      DeploysMeans(s, rows, e);
    } else {
      if DeployedKind(e) { DeploysMeans(s, rows, e); }
      forall o | o in os && o.name == e.name ensures o.action != Add && o.action != Modify {
        if o.action in {Add, Modify} {
          PartByAction(s, rows, es, names, ts, os, o);
          var x := ChangesAre(s, rows, Deployable(es), o);
          DeployableAre(es, x);
          DeploysMeans(s, rows, x);
          OnlyOneOfName(es, e);
        }
      }
    }
  }

  // ---------------------------------------------------------------- rows and triggers

  /** The removal of a row, with what the row says. */
  ghost predicate RemovesRow(s: Settings, name: string, row: Row, o: DeployObject) {
    && o.host == s.host && o.name == name && o.action == Remove && o.enabled && o.status == Normal
    && Some(o.script) == row.content.script && o.prevScript == None
    && o.prevContent == row.content.content && o.nextContent == None
    && o.title == row.title && o.typeId == row.typeId && o.typeName == row.content.typeName
    && o.triggers == row.content.triggers && o.id == Some(row.content.objectId)
    && o.deploymentOrder == row.content.deploymentOrder
  }

  lemma RemovalIs(s: Settings, rows: map<string, Row>, names: seq<string>, o: DeployObject)
    requires forall n :: n in names ==> n in rows && rows[n].content.script.Some?
    requires o in Removals(s, rows, names)
    ensures o.name in names && RemovesRow(s, o.name, rows[o.name], o)
  {
    hide Removals;
    RemovalsNamed(s, rows, names);
    var k :| 0 <= k < |names| && Removals(s, rows, names)[k] == o;
    assert names[k] in names;
  }

  lemma RemovalFor(s: Settings, rows: map<string, Row>, names: seq<string>, name: string) returns (o: DeployObject)
    requires forall n :: n in names ==> n in rows && rows[n].content.script.Some?
    requires name in names
    ensures o in Removals(s, rows, names) && RemovesRow(s, name, rows[name], o)
  {
    hide Removals;
    RemovalsNamed(s, rows, names);
    var k :| 0 <= k < |names| && names[k] == name;
    o := Removals(s, rows, names)[k];
  }

  /** Rows are removed exactly on full hosts, and exactly those of which no object of a deployed kind
      was emitted. */
  lemma RowIsRemovedIff(s: Settings, rows: map<string, Row>, es: seq<Emitted>, os: seq<DeployObject>, name: string)
    requires IsDiff(s, rows, es, os) && name in rows
    ensures (exists o :: o in os && RemovesRow(s, name, rows[name], o)) <==>
      s.full && forall e :: e in es && e.name == name ==> !DeployedKind(e)
    ensures forall o :: o in os && o.action == Remove ==> o.name in rows && RemovesRow(s, o.name, rows[o.name], o)
  {
    var names, ts := PartsOf(s, rows, es, os);
    var ds := Deployable(es);
    var orphans := Orphans(rows, ds);
    forall e ensures e in ds <==> e in es && DeployedKind(e) { DeployableAre(es, e); }
    hide IsDiff, Deployable, Changes, Removals, Fired, Parts, RemovesRow;
    forall o | o in os && o.action == Remove
      ensures o.name in names && o.name in rows && RemovesRow(s, o.name, rows[o.name], o)
    {
      PartByAction(s, rows, es, names, ts, os, o);
      RemovalIs(s, orphans, names, o);
    }
    if name in names {
      var o := RemovalFor(s, orphans, names, name);
      assert o in os && RemovesRow(s, name, rows[name], o);
    }
    assert name in names <==> s.full && name in orphans;
    assert name in orphans <==> forall e :: e in es && e.name == name ==> !DeployedKind(e);
  }

  /** Every fired object carries a trigger of an object that is added, modified or removed. */
  lemma FiredComeFromTriggers(s: Settings, rows: map<string, Row>, es: seq<Emitted>, os: seq<DeployObject>,
                              o: DeployObject)
    requires IsDiff(s, rows, es, os) && o in os && o.action == Fire
    ensures exists x, t :: x in os && x.action != Fire && t in x.triggers && FiresTrigger(s, t, o)
  {
    hide IsDiff, Fired, Changes, Removals, Deployable, Orphans, TriggerObjects, FiresTrigger, TriggersOf;
    var names, ts := PartsOf(s, rows, es, os);
    var main := Changes(s, rows, Deployable(es)) + Removals(s, Orphans(rows, Deployable(es)), names);
    PartByAction(s, rows, es, names, ts, os, o);
    var t := TriggerOf(s, ts, o);
    FiredAreDue(TriggersOf(main), ts);
    var x := DueAt(main, t);
    DiffParts(s, rows, Deployable(es), names, ts, os, main);
    var k :| 0 <= k < |main| && main[k] == x;
    assert os[k] == x;
  }

  /** ... and every such trigger is fired, by itself or by one with the same type, script and content. */
  lemma TriggersAreFired(s: Settings, rows: map<string, Row>, es: seq<Emitted>, os: seq<DeployObject>,
                         x: DeployObject, t: TriggerData)
    requires IsDiff(s, rows, es, os) && x in os && x.action != Fire && t in x.triggers
    ensures exists o :: o in os && FiresSame(t, o)
  {
    var names, ts := PartsOf(s, rows, es, os);
    hide IsDiff, Fired, Changes, Removals, Deployable, Orphans, TriggerObject, FiresSame;
    var main := Changes(s, rows, Deployable(es)) + Removals(s, Orphans(rows, Deployable(es)), names);
    PartByAction(s, rows, es, names, ts, os, x);
    IsDue(main, x, t);
    var u := FiredFor(main, ts, t);
    FiredObject(s, ts, u);
    SameIsFired(s, t, u);
    assert TriggerObject(s, u) in os;
  }

  /** A trigger with this type, script and content is fired. */
  ghost predicate FiresSame(t: TriggerData, o: DeployObject) {
    o.action == Fire && o.typeId == t.typeId && o.script == t.script && o.nextContent == Some(MeaningOf(t.fields))
  }

  lemma SameIsFired(s: Settings, t: TriggerData, u: TriggerData)
    requires SameTrigger(u, t)
    ensures FiresSame(t, TriggerObject(s, u))
  {
  }

  lemma FiredFor(main: seq<DeployObject>, ts: seq<TriggerData>, t: TriggerData) returns (u: TriggerData)
    requires Fired(TriggersOf(main), ts) && t in TriggersOf(main)
    ensures u in ts && SameTrigger(u, t)
  {
    hide Fired, TriggersOf;
    FiredAreDue(TriggersOf(main), ts);
    assert HasTrigger(ts, t);
    u :| u in ts && SameTrigger(u, t);
  }

  lemma {:induction false} IsDue(os: seq<DeployObject>, x: DeployObject, t: TriggerData)
    requires x in os && t in x.triggers
    ensures t in TriggersOf(os)
  {
    if x != os[0] { IsDue(os[1..], x, t); }
  }

  lemma {:induction false} FiredObject(s: Settings, ts: seq<TriggerData>, t: TriggerData)
    requires t in ts
    ensures TriggerObject(s, t) in TriggerObjects(s, ts)
  {
    if t != ts[0] { FiredObject(s, ts[1..], t); }
  }

  /** The object that fires a trigger, with its script, title and content. */
  ghost predicate FiresTrigger(s: Settings, t: TriggerData, o: DeployObject) {
    && o.host == s.host && o.name == "" && o.action == Fire && o.enabled && o.status == Normal
    && o.script == t.script && o.title == t.title && o.typeId == t.typeId
    && o.nextContent == Some(MeaningOf(t.fields)) && o.prevContent == None && o.prevScript == None && o.id == None
    && o.typeName == (if t.typeId in s.typeNames then s.typeNames[t.typeId] else "")
    && o.triggers == [] && o.deploymentOrder == 0
  }

  lemma {:induction false} TriggerOf(s: Settings, ts: seq<TriggerData>, o: DeployObject) returns (t: TriggerData)
    requires o in TriggerObjects(s, ts)
    ensures t in ts && FiresTrigger(s, t, o)
  {
    if o == TriggerObject(s, ts[0]) {
      t := ts[0];
    } else {
      t := TriggerOf(s, ts[1..], o);
    }
  }

  lemma {:induction false} DueAt(os: seq<DeployObject>, t: TriggerData) returns (x: DeployObject)
    requires t in TriggersOf(os)
    ensures x in os && t in x.triggers
  {
    if t in os[0].triggers {
      x := os[0];
    } else {
      x := DueAt(os[1..], t);
    }
  }

  // ---------------------------------------------------------------- the fixpoint by kind

  /** After a full deployment that succeeds, the rows of the host are content and script of every object
      of a deployed kind that the host wants, and what was stored of packages that it does not want;
      there is no row of an object of another kind, nor of one that was not emitted. */
  lemma FixpointByKind(s: Settings, es: seq<Emitted>, p: Params, t: Table, a: nat, os: seq<DeployObject>, e: Emitted)
    requires s.full && DistinctNames(es) && e in es
    requires IsDiff(s, HostRows(t, s.host), es, os) && KindsAsIntended(p, os)
    requires RunFrom(p, Initial(p, t), 0).1 == Finished
    requires HostSucceeded(p, RunFrom(p, Initial(p, t), 0).0.status, a, os, s.host)
    ensures var after := HostRows(RunFrom(p, Initial(p, t), 0).0.table, s.host);
      if !DeployedKind(e) then e.name !in after
      else if WantedHere(s, e) then e.name in after && !Differs(e, after[e.name])
      else RowAt(after, e.name) == RowAt(HostRows(t, s.host), e.name)
  {
    hide RunFrom, HostSucceeded, HostRows, IsDiff;
    DeployableDistinct(es);
    FullDeploymentReachesFixpoint(s, es, p, t, a, os);
    var after := HostRows(RunFrom(p, Initial(p, t), 0).0.table, s.host);
    DeployableAre(es, e);
    if DeployedKind(e) {
      assert RowDesired(s, HostRows(t, s.host), e, after);
    } else {
      forall d | d in Deployable(es) ensures d.name != e.name {
        DeployableAre(es, d);
        OnlyOneOfName(es, e);
      }
    }
  }
}
