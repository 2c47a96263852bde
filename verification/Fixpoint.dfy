/** A full deployment that succeeds leaves nothing to deploy. */
module Fixpoint {
  import opened Wrappers
  import opened DeployTypes
  import opened Diff
  import OrderedJson
  import Orders
  import opened Triggers
  import opened Execution
  import opened ExecutionTable

  // ---------------------------------------------------------------- the rows of one host

  function RowAt(rows: map<string, Row>, name: string): Option<Row> {
    if name in rows then Some(rows[name]) else None
  }

  /** `set_deployment` seen on the rows of the object's host. */
  function ApplyRow(rows: map<string, Row>, o: DeployObject): map<string, Row> {
    match o.nextContent
    case None => rows - {o.name}
    case Some(_) => if o.id.None? then rows else rows[o.name := RowOf(o)]
  }

  function ApplyAll(rows: map<string, Row>, os: seq<DeployObject>): map<string, Row>
    decreases |os|
  {
    if os == [] then rows else ApplyAll(ApplyRow(rows, os[0]), os[1..])
  }

  lemma {:induction false} ApplySnoc(rows: map<string, Row>, os: seq<DeployObject>, o: DeployObject)
    ensures ApplyAll(rows, os + [o]) == ApplyRow(ApplyAll(rows, os), o)
    decreases |os|
  {
    if os == [] {
      assert ([] + [o])[1..] == [];
    } else {
      assert (os + [o])[1..] == os[1..] + [o];
      ApplySnoc(ApplyRow(rows, os[0]), os[1..], o);
    }
  }

  lemma {:induction false} ApplyConcat(rows: map<string, Row>, os: seq<DeployObject>, more: seq<DeployObject>)
    ensures ApplyAll(rows, os + more) == ApplyAll(ApplyAll(rows, os), more)
    decreases |os|
  {
    if os == [] {
      assert [] + more == more;
    } else {
      assert (os + more)[1..] == os[1..] + more;
      ApplyConcat(ApplyRow(rows, os[0]), os[1..], more);
    }
  }

  lemma SetOnHost(t: Table, o: DeployObject)
    ensures HostRows(SetOr(t, o), o.host) == ApplyRow(HostRows(t, o.host), o)
  {
    var a, b := HostRows(SetOr(t, o), o.host), ApplyRow(HostRows(t, o.host), o);
    forall n: string
      ensures n in a <==> n in b
      ensures n in a ==> a[n] == b[n]
    {
      HostRowsHas(SetOr(t, o), o.host, n);
      HostRowsHas(t, o.host, n);
    }
    assert a.Keys == b.Keys;
  }

  lemma SetOnOtherHost(t: Table, o: DeployObject, host: int)
    requires o.host != host
    ensures HostRows(SetOr(t, o), host) == HostRows(t, host)
  {
    var a, b := HostRows(SetOr(t, o), host), HostRows(t, host);
    forall n: string
      ensures n in a <==> n in b
      ensures n in a ==> a[n] == b[n]
    {
      HostRowsHas(SetOr(t, o), host, n);
      HostRowsHas(t, host, n);
    }
    assert a.Keys == b.Keys;
  }

  /** The objects with indices from `i` up to `j` that will be recorded. */
  function RecordedIn(p: Params, i: nat, j: nat): seq<DeployObject>
    requires i <= j <= |p.objects|
    decreases j - i
  {
    if i == j then []
    else RecordedIn(p, i, j - 1) + if Recorded(p, j - 1) then [p.objects[j - 1]] else []
  }

  lemma {:induction false} RangeOnHost(p: Params, status: seq<ObjectStatus>, t: Table, host: int, i: nat, j: nat)
    requires i <= j <= |p.objects| == |status|
    requires forall k :: i <= k < j ==> p.objects[k].host == host && (Recorded(p, k) ==> status[k] == Success)
    ensures HostRows(RecordRange(p, status, t, i, j), host) == ApplyAll(HostRows(t, host), RecordedIn(p, i, j))
    decreases j - i
  {
    hide HostRows, ApplyRow, SetOr;
    if i < j {
      RangeOnHost(p, status, t, host, i, j - 1);
      if Recorded(p, j - 1) {
        SetOnHost(RecordRange(p, status, t, i, j - 1), p.objects[j - 1]);
        ApplySnoc(HostRows(t, host), RecordedIn(p, i, j - 1), p.objects[j - 1]);
      } else {
        assert RecordedIn(p, i, j) == RecordedIn(p, i, j - 1);
      }
    }
  }

  lemma {:induction false} RangeOnOthers(p: Params, status: seq<ObjectStatus>, t: Table, host: int, i: nat, j: nat)
    requires i <= j <= |p.objects| == |status|
    requires forall k :: i <= k < j ==> p.objects[k].host != host
    ensures HostRows(RecordRange(p, status, t, i, j), host) == HostRows(t, host)
    decreases j - i
  {
    hide HostRows, SetOr;
    if i < j {
      RangeOnOthers(p, status, t, host, i, j - 1);
      SetOnOtherHost(RecordRange(p, status, t, i, j - 1), p.objects[j - 1], host);
    }
  }

  // ---------------------------------------------------------------- what the diff does to the rows

  /** The object is deployed: it is wanted and differs from its row. */
  predicate Deploys(s: Settings, rows: map<string, Row>, e: Emitted)
    requires e.script.Some?
  {
    Wanted(s, ObjectFor(s, rows, e)) && Changed(ObjectFor(s, rows, e))
  }

  ghost predicate Named(es: seq<Emitted>, name: string) {
    exists e :: e in es && e.name == name
  }

  lemma ApplyFirst(s: Settings, rows: map<string, Row>, es: seq<Emitted>, now: map<string, Row>)
    requires AllScripted(es) && es != []
    ensures AllScripted(es[1..])
    ensures var now1 := if Deploys(s, rows, es[0]) then ApplyRow(now, ObjectFor(s, rows, es[0])) else now;
      ApplyAll(now, Changes(s, rows, es)) == ApplyAll(now1, Changes(s, rows, es[1..]))
  {
    hide ApplyRow, ObjectFor, Wanted, Changed;
    assert forall x :: x in es[1..] ==> x in es;
    if Deploys(s, rows, es[0]) {
      assert Changes(s, rows, es)[1..] == Changes(s, rows, es[1..]);
    } else {
      assert Changes(s, rows, es) == Changes(s, rows, es[1..]);
    }
  }

  lemma {:induction false} ChangesLeaveOthers(s: Settings, rows: map<string, Row>, es: seq<Emitted>,
                                              now: map<string, Row>, name: string)
    requires AllScripted(es) && forall e :: e in es && e.name == name ==> !Deploys(s, rows, e)
    ensures RowAt(ApplyAll(now, Changes(s, rows, es)), name) == RowAt(now, name)
  {
    if es != [] {
      assert forall e :: e in es[1..] ==> e in es;
      ApplyFirst(s, rows, es, now);
      ChangesLeaveOthers(s, rows, es[1..], if Deploys(s, rows, es[0]) then ApplyRow(now, ObjectFor(s, rows, es[0]))
        else now, name);
    }
  }

  lemma {:induction false} ChangesSetOwn(s: Settings, rows: map<string, Row>, es: seq<Emitted>, now: map<string, Row>,
                                         e: Emitted)
    requires AllScripted(es) && DistinctNames(es) && e in es && Deploys(s, rows, e)
    ensures RowAt(ApplyAll(now, Changes(s, rows, es)), e.name) == Some(RowOf(ObjectFor(s, rows, e)))
  {
    hide ApplyAll, Changes;
    var o, rest := ObjectFor(s, rows, es[0]), es[1..];
    assert forall x :: x in rest ==> x in es;
    var now1 := if Deploys(s, rows, es[0]) then ApplyRow(now, o) else now;
    ApplyFirst(s, rows, es, now);
    if e == es[0] {
      assert forall x :: x in rest ==> x.name != e.name;
      ChangesLeaveOthers(s, rows, rest, now1, e.name);
    } else {
      ChangesSetOwn(s, rows, rest, now1, e);
    }
  }

  lemma {:induction false} RemovalsRemove(s: Settings, rows: map<string, Row>, names: seq<string>,
                                          now: map<string, Row>, name: string)
    requires forall n :: n in names ==> n in rows && rows[n].content.script.Some?
    ensures RowAt(ApplyAll(now, Removals(s, rows, names)), name) == if name in names then None else RowAt(now, name)
  {
    if names != [] {
      var o := RemoveObject(s, names[0], rows[names[0]]);
      assert Removals(s, rows, names)[1..] == Removals(s, rows, names[1..]);
      RemovalsRemove(s, rows, names[1..], ApplyRow(now, o), name);
    }
  }

  // ---------------------------------------------------------------- the rows after a deployment

  predicate WantedType(s: Settings, e: Emitted) {
    s.debPackages || e.typeId != PACKAGE_ID
  }

  /** The stored rows are the desired ones: content and script of every wanted object, the old
      row of every unwanted package, and nothing else. */
  ghost predicate IsDesired(s: Settings, rows: map<string, Row>, es: seq<Emitted>, after: map<string, Row>) {
    && (forall e :: e in es ==> RowDesired(s, rows, e, after))
    && forall name :: name in after ==> name in NamesOf(es)
  }

  ghost predicate RowDesired(s: Settings, rows: map<string, Row>, e: Emitted, after: map<string, Row>) {
    if WantedType(s, e) then
      e.name in after && after[e.name].content.content == Some(e.content) && after[e.name].content.script == e.script
    else RowAt(after, e.name) == RowAt(rows, e.name)
  }

  /** Carrying out the changes and removals of a full deployment gives the desired rows. */
  lemma DiffGivesDesired(s: Settings, rows: map<string, Row>, es: seq<Emitted>, names: seq<string>)
    requires s.full && AllScripted(es) && DistinctNames(es)
    requires forall n :: n in names <==> n in Orphans(rows, es)
    requires forall n :: n in names ==> Orphans(rows, es)[n].content.script.Some?
    ensures IsDesired(s, rows, es, ApplyAll(rows, Changes(s, rows, es) + Removals(s, Orphans(rows, es), names)))
  {
    var changes, removals := Changes(s, rows, es), Removals(s, Orphans(rows, es), names);
    var mid := ApplyAll(rows, changes);
    var after := ApplyAll(rows, changes + removals);
    ApplyConcat(rows, changes, removals);
    forall e | e in es
      ensures RowDesired(s, rows, e, after)
    {
      RemovalsRemove(s, Orphans(rows, es), names, mid, e.name);
      assert e.name in NamesOf(es);
      if Deploys(s, rows, e) {
        ChangesSetOwn(s, rows, es, rows, e);
      } else {
        OnlyOneOfName(es, e);
        ChangesLeaveOthers(s, rows, es, rows, e.name);
      }
    }
    forall name | name in after
      ensures name in NamesOf(es)
    {
      RemovalsRemove(s, Orphans(rows, es), names, mid, name);
      assert forall e :: e in es ==> e.name in NamesOf(es);
      assert name in rows && name !in NamesOf(es) ==> name in Orphans(rows, es);
      if name !in NamesOf(es) {
        ChangesLeaveOthers(s, rows, es, rows, name);
      }
    }
  }

  lemma OnlyOneOfName(es: seq<Emitted>, e: Emitted)
    requires DistinctNames(es) && e in es
    ensures forall x :: x in es && x.name == e.name ==> x == e
  {
  }

  lemma HasElement<T>(s: seq<T>)
    requires s != []
    ensures exists x :: x in s
  {
    assert s[0] in s;
  }

  /** Desired rows leave nothing to change. */
  lemma {:induction false} NothingChanges(s: Settings, rows: map<string, Row>, es: seq<Emitted>,
                                          after: map<string, Row>)
    requires AllScripted(es) && !s.redeploy
    requires forall e :: e in es ==> RowDesired(s, rows, e, after)
    ensures Changes(s, after, es) == []
  {
    if es != [] {
      assert forall x :: x in es[1..] ==> x in es;
      assert RowDesired(s, rows, es[0], after);
      NothingChanges(s, rows, es[1..], after);
    }
  }

  /** ... and the next diff that is not a redeploy is empty: no object, and so no trigger. */
  lemma DesiredIsUpToDate(s: Settings, rows: map<string, Row>, es: seq<Emitted>, after: map<string, Row>,
                          os: seq<DeployObject>)
    requires IsDesired(s, rows, Deployable(es), after)
    requires IsDiff(s.(redeploy := false), after, es, os)
    ensures os == []
  {
    var s2, ds := s.(redeploy := false), Deployable(es);
    var names, ts :|
      && IsRemovalOrder(s2, after, es, names)
      && var main := Changes(s2, after, ds) + Removals(s2, Orphans(after, ds), names);
      && Fired(TriggersOf(main), ts)
      && os == main + TriggerObjects(s2, ts);
    forall e | e in ds
      ensures RowDesired(s2, rows, e, after)
    {
      assert RowDesired(s, rows, e, after);
    }
    NothingChanges(s2, rows, ds, after);
    assert Orphans(after, ds) == map[];
    if names != [] { HasElement(names); }
    FiredAreDue(TriggersOf(Changes(s2, after, ds) + Removals(s2, Orphans(after, ds), names)), ts);
    if ts != [] { HasElement(ts); }
  }

  // ---------------------------------------------------------------- the whole deployment

  lemma {:induction false} RecordedAll(p: Params, i: nat, m: nat)
    requires i <= m <= |p.objects|
    requires forall k :: i <= k < m ==> Recorded(p, k)
    ensures RecordedIn(p, i, m) == p.objects[i..m]
    decreases m - i
  {
    hide Recorded;
    if i < m {
      RecordedAll(p, i, m - 1);
      SliceSnoc(p.objects, i, m);
    }
  }

  lemma SliceSnoc<T>(s: seq<T>, i: nat, m: nat)
    requires i < m <= |s|
    ensures s[i..m] == s[i..m - 1] + [s[m - 1]]
  {
  }

  lemma {:induction false} RecordedNoMore(p: Params, i: nat, m: nat, j: nat)
    requires i <= m <= j <= |p.objects|
    requires forall k :: m <= k < j ==> !Recorded(p, k)
    ensures RecordedIn(p, i, j) == RecordedIn(p, i, m)
    decreases j - m
  {
    hide Recorded;
    if m < j { RecordedNoMore(p, i, m, j - 1); }
  }

  /** Types of changed and removed objects are of kind Sum or Delta, those of triggers are not. */
  ghost predicate KindsAsIntended(p: Params, os: seq<DeployObject>) {
    forall o :: o in os ==> (o.action == Fire <==> KindOf(p, o.typeId) !in {Some(Sum), Some(Delta)})
  }

  lemma {:induction false} ChangesShape(s: Settings, rows: map<string, Row>, es: seq<Emitted>)
    requires AllScripted(es)
    ensures forall o :: o in Changes(s, rows, es) ==> o.host == s.host && o.enabled && o.action != Fire
  {
    if es != [] {
      assert forall x :: x in es[1..] ==> x in es;
      ChangesShape(s, rows, es[1..]);
    }
  }

  lemma {:induction false} RemovalsShape(s: Settings, rows: map<string, Row>, names: seq<string>)
    requires forall n :: n in names ==> n in rows && rows[n].content.script.Some?
    ensures forall o :: o in Removals(s, rows, names) ==> o.host == s.host && o.enabled && o.action != Fire
  {
    if names != [] { RemovalsShape(s, rows, names[1..]); }
  }

  lemma {:induction false} TriggersShape(s: Settings, ts: seq<TriggerData>)
    ensures forall o :: o in TriggerObjects(s, ts) ==> o.host == s.host && o.enabled && o.action == Fire
  {
    if ts != [] { TriggersShape(s, ts[1..]); }
  }

  /** The objects of this host are at `a` and after, and all of them succeeded. */
  ghost predicate HostSucceeded(p: Params, status: seq<ObjectStatus>, a: nat, os: seq<DeployObject>, host: int) {
    && |status| == |p.objects| && a + |os| <= |p.objects| && p.objects[a..a + |os|] == os
    && (forall k :: 0 <= k < |p.objects| && !(a <= k < a + |os|) ==> p.objects[k].host != host)
    && forall k :: a <= k < a + |os| ==> status[k] == Success
  }

  lemma HostRowsAfter(p: Params, status: seq<ObjectStatus>, t: Table, a: nat, os: seq<DeployObject>,
                      main: seq<DeployObject>, host: int)
    requires HostSucceeded(p, status, a, os, host) && main <= os
    requires forall o :: o in os ==> o.host == host && o.enabled
    requires forall k :: 0 <= k < |os| ==> (k < |main| <==> KindOf(p, os[k].typeId) in {Some(Sum), Some(Delta)})
    ensures HostRows(RecordRange(p, status, t, 0, |p.objects|), host) == ApplyAll(HostRows(t, host), main)
  {
    hide HostRows, ApplyAll;
    var b, m, n := a + |os|, a + |main|, |p.objects|;
    assert forall k :: a <= k < b ==> p.objects[k] == os[k - a];
    RecordRangeSplits(p, status, t, 0, a, n);
    var t1 := RecordRange(p, status, t, 0, a);
    RecordRangeSplits(p, status, t1, a, b, n);
    var t2 := RecordRange(p, status, t1, a, b);
    RangeOnOthers(p, status, t, host, 0, a);
    RangeOnHost(p, status, t1, host, a, b);
    RangeOnOthers(p, status, t2, host, b, n);
    RecordedAll(p, a, m);
    RecordedNoMore(p, a, m, b);
    assert p.objects[a..m] == main;
  }

  /** The whole run changes the rows of the host by the changes and removals of its diff. */
  lemma RunAppliesDiff(s: Settings, es: seq<Emitted>, p: Params, t: Table, a: nat, os: seq<DeployObject>)
    returns (names: seq<string>)
    requires IsDiff(s, HostRows(t, s.host), es, os) && KindsAsIntended(p, os)
    requires RunFrom(p, Initial(p, t), 0).1 == Finished
    requires HostSucceeded(p, RunFrom(p, Initial(p, t), 0).0.status, a, os, s.host)
    ensures IsRemovalOrder(s, HostRows(t, s.host), es, names)
    ensures var rows, ds := HostRows(t, s.host), Deployable(es);
      HostRows(RunFrom(p, Initial(p, t), 0).0.table, s.host) ==
        ApplyAll(rows, Changes(s, rows, ds) + Removals(s, Orphans(rows, ds), names))
  {
    hide HostRows, RunFrom, RecordRange, HostSucceeded, Deployable;
    var rows, ds := HostRows(t, s.host), Deployable(es);
    var run := RunFrom(p, Initial(p, t), 0).0;
    var ts;
    names, ts :|
      && IsRemovalOrder(s, rows, es, names)
      && var main := Changes(s, rows, ds) + Removals(s, Orphans(rows, ds), names);
      && Fired(TriggersOf(main), ts)
      && os == main + TriggerObjects(s, ts);
    var main := Changes(s, rows, ds) + Removals(s, Orphans(rows, ds), names);
    RunRecordsSuccesses(p, Initial(p, t), 0);
    DiffParts(s, rows, ds, names, ts, os, main);
    HostRowsAfter(p, run.status, t, a, os, main, s.host);
  }

  /** A full deployment of a host in which every object of the host succeeds, by its scripts
      or by being marked, leaves the desired rows, and the next diff has no objects. */
  lemma FullDeploymentReachesFixpoint(s: Settings, es: seq<Emitted>, p: Params, t: Table, a: nat, os: seq<DeployObject>)
    requires s.full && DistinctNames(Deployable(es))
    requires IsDiff(s, HostRows(t, s.host), es, os) && KindsAsIntended(p, os)
    requires RunFrom(p, Initial(p, t), 0).1 == Finished
    requires HostSucceeded(p, RunFrom(p, Initial(p, t), 0).0.status, a, os, s.host)
    ensures var after := HostRows(RunFrom(p, Initial(p, t), 0).0.table, s.host);
      && IsDesired(s, HostRows(t, s.host), Deployable(es), after)
      && forall next :: IsDiff(s.(redeploy := false), after, es, next) ==> next == []
  {
    hide HostRows, RunFrom, HostSucceeded, IsDesired, Deployable;
    var rows, ds := HostRows(t, s.host), Deployable(es);
    var names := RunAppliesDiff(s, es, p, t, a, os);
    DiffGivesDesired(s, rows, ds, names);
    var after := HostRows(RunFrom(p, Initial(p, t), 0).0.table, s.host);
    forall next | IsDiff(s.(redeploy := false), after, es, next)
      ensures next == []
    {
      DesiredIsUpToDate(s, rows, es, after, next);
    }
  }

  lemma DiffParts(s: Settings, rows: map<string, Row>, ds: seq<Emitted>, names: seq<string>, ts: seq<TriggerData>,
                  os: seq<DeployObject>, main: seq<DeployObject>)
    requires AllScripted(ds)
    requires forall n :: n in names ==> n in Orphans(rows, ds) && Orphans(rows, ds)[n].content.script.Some?
    requires main == Changes(s, rows, ds) + Removals(s, Orphans(rows, ds), names) && os == main + TriggerObjects(s, ts)
    ensures main <= os && forall o :: o in os ==> o.host == s.host && o.enabled
    ensures forall k :: 0 <= k < |os| ==> (k < |main| <==> os[k].action != Fire)
  {
    ChangesShape(s, rows, ds);
    RemovalsShape(s, Orphans(rows, ds), names);
    TriggersShape(s, ts);
    hide Changes, Removals, TriggerObjects, Orphans, AllScripted;
    MainThenFired(main, TriggerObjects(s, ts), s.host);
  }

  lemma MainThenFired(main: seq<DeployObject>, fired: seq<DeployObject>, host: int)
    requires forall o :: o in main ==> o.host == host && o.enabled && o.action != Fire
    requires forall o :: o in fired ==> o.host == host && o.enabled && o.action == Fire
    ensures var os := main + fired;
      && main <= os && (forall o :: o in os ==> o.host == host && o.enabled)
      && forall k :: 0 <= k < |os| ==> (k < |main| <==> os[k].action != Fire)
  {
    forall k | 0 <= k < |main + fired| ensures k < |main| <==> (main + fired)[k].action != Fire {
      if k < |main| { assert main[k] in main; } else { assert fired[k - |main|] in fired; }
    }
  }

  // ---------------------------------------------------------------- names

  ghost predicate ComesFrom(s: Settings, rows: map<string, Row>, es: seq<Emitted>, o: DeployObject)
    requires AllScripted(es)
  {
    exists e :: e in es && o == ObjectFor(s, rows, e)
  }

  lemma {:induction false} ChangesNamed(s: Settings, rows: map<string, Row>, es: seq<Emitted>)
    requires AllScripted(es)
    ensures forall o :: o in Changes(s, rows, es) ==> ComesFrom(s, rows, es, o) && o.name in NamesOf(es)
  {
    if es != [] {
      var rest := es[1..];
      assert forall x :: x in rest ==> x in es;
      ChangesNamed(s, rows, rest);
      forall o | o in Changes(s, rows, es)
        ensures ComesFrom(s, rows, es, o) && o.name in NamesOf(es)
      {
        if o in Changes(s, rows, rest) {
          assert ComesFrom(s, rows, rest, o);
          var e :| e in rest && o == ObjectFor(s, rows, e);
          assert e in es;
        } else {
          assert es[0] in es && o == ObjectFor(s, rows, es[0]);
        }
      }
    }
  }

  lemma {:induction false} ChangesDistinct(s: Settings, rows: map<string, Row>, es: seq<Emitted>)
    requires AllScripted(es) && DistinctNames(es)
    ensures forall i, j :: 0 <= i < j < |Changes(s, rows, es)| ==>
      Changes(s, rows, es)[i].name != Changes(s, rows, es)[j].name
  {
    if es != [] {
      var rest := es[1..];
      assert forall x :: x in rest ==> x in es;
      ChangesNamed(s, rows, rest);
      ChangesDistinct(s, rows, rest);
      assert es[0].name !in NamesOf(rest);
      var tail := Changes(s, rows, rest);
      assert forall k :: 0 <= k < |tail| ==> tail[k] in tail;
    }
  }

  lemma {:induction false} RemovalsNamed(s: Settings, rows: map<string, Row>, names: seq<string>)
    requires forall n :: n in names ==> n in rows && rows[n].content.script.Some?
    ensures |Removals(s, rows, names)| == |names|
    ensures forall k :: 0 <= k < |names| ==> Removals(s, rows, names)[k] == RemoveObject(s, names[k], rows[names[k]])
  {
    if names != [] { RemovalsNamed(s, rows, names[1..]); }
  }

  lemma SortedAreDistinct(rows: map<string, Row>, names: seq<string>)
    requires SortedNames(rows, names)
    ensures forall i, j :: 0 <= i < j < |names| ==> names[i] != names[j]
  {
    forall i, j | 0 <= i < j < |names|
      ensures names[i] != names[j]
    {
      StringTotal(names[i], names[j]);
      assert RemovesBefore(rows, names[i], names[j]);
    }
  }

  /** Each name is added, modified or removed at most once. */
  lemma EachNameOnce(s: Settings, rows: map<string, Row>, ds: seq<Emitted>, names: seq<string>)
    requires AllScripted(ds) && DistinctNames(ds) && SortedNames(Orphans(rows, ds), names)
    requires forall n :: n in names ==> Orphans(rows, ds)[n].content.script.Some?
    ensures var main := Changes(s, rows, ds) + Removals(s, Orphans(rows, ds), names);
      forall i, j :: 0 <= i < j < |main| ==> main[i].name != main[j].name
  {
    var changes, removals := Changes(s, rows, ds), Removals(s, Orphans(rows, ds), names);
    ChangesNamed(s, rows, ds);
    ChangesDistinct(s, rows, ds);
    RemovalsNamed(s, Orphans(rows, ds), names);
    SortedAreDistinct(Orphans(rows, ds), names);
    forall i, j | 0 <= i < |changes| && 0 <= j < |removals|
      ensures changes[i].name != removals[j].name
    {
      assert changes[i] in changes && names[j] in names;
    }
  }

  /** Changed and removed objects fit the stored rows when names keep their types. */
  lemma DiffFits(s: Settings, t: Table, ds: seq<Emitted>, names: seq<string>, o: DeployObject)
    requires AllScripted(ds) && DistinctNames(ds)
    requires forall n :: n in names ==>
      n in Orphans(HostRows(t, s.host), ds) && Orphans(HostRows(t, s.host), ds)[n].content.script.Some?
    requires forall e :: e in ds ==>
      e.content != map[] && ((s.host, e.name) in t ==> t[(s.host, e.name)].typeId == e.typeId)
    requires o in Changes(s, HostRows(t, s.host), ds) || o in Removals(s, Orphans(HostRows(t, s.host), ds), names)
    ensures Fits(t, o)
  {
    var rows := HostRows(t, s.host);
    if o in Changes(s, rows, ds) {
      ChangesNamed(s, rows, ds);
      assert ComesFrom(s, rows, ds, o);
      var e :| e in ds && o == ObjectFor(s, rows, e);
    } else {
      RemovalsNamed(s, Orphans(rows, ds), names);
      var k :| 0 <= k < |names| && Removals(s, Orphans(rows, ds), names)[k] == o;
      assert names[k] in names;
      HostRowsHas(t, s.host, names[k]);
    }
  }

  // ---------------------------------------------------------------- what stays stale

  /** The row that an emitted object calls for, with its title, triggers, order and ids. */
  function RowFor(e: Emitted): Row
    requires e.script.Some?
  {
    Row(DeployContent(e.script, Some(e.content), e.triggers, e.order, e.typeName, e.id), e.typeId, e.title)
  }

  /** Only content and script are compared. */
  lemma OnlyContentAndScriptCompared(s: Settings, rows: map<string, Row>, e: Emitted)
    requires e.script.Some? && WantedType(s, e)
    ensures Deploys(s, rows, e) <==> s.redeploy || !LooksUpToDate(rows, e)
  {
  }

  /** What the filter takes for a row that needs no deployment. */
  predicate LooksUpToDate(rows: map<string, Row>, e: Emitted) {
    e.name in rows && rows[e.name].content.content == Some(e.content) && rows[e.name].content.script == e.script
  }

  /** After the changes and removals of a diff, the row of an emitted object is the one that it calls
      for exactly when it was deployed or had that row already; a stale title, trigger list or order
      stays as long as content and script are the stored ones. */
  lemma RowIsFreshIff(s: Settings, rows: map<string, Row>, es: seq<Emitted>, names: seq<string>, e: Emitted)
    requires AllScripted(es) && DistinctNames(es) && e in es
    requires forall n :: n in names ==> n in Orphans(rows, es) && Orphans(rows, es)[n].content.script.Some?
    ensures var after := ApplyAll(rows, Changes(s, rows, es) + Removals(s, Orphans(rows, es), names));
      RowAt(after, e.name) == Some(RowFor(e)) <==> Deploys(s, rows, e) || RowAt(rows, e.name) == Some(RowFor(e))
  {
    hide ApplyAll, Changes, Removals, Deploys;
    var changes, removals := Changes(s, rows, es), Removals(s, Orphans(rows, es), names);
    ApplyConcat(rows, changes, removals);
    RemovalsRemove(s, Orphans(rows, es), names, ApplyAll(rows, changes), e.name);
    assert e.name in NamesOf(es);
    if Deploys(s, rows, e) {
      ChangesSetOwn(s, rows, es, rows, e);
    } else {
      OnlyOneOfName(es, e);
      ChangesLeaveOthers(s, rows, es, rows, e.name);
    }
  }

  /** ... and so after every run in which the objects of the host succeed: for an object that the
      host wants, exactly unless the deployment is no redeploy, content and script are stored, and
      the rest of the stored row differs. */
  lemma DeploymentFreshensIff(s: Settings, es: seq<Emitted>, p: Params, t: Table, a: nat, os: seq<DeployObject>,
                              e: Emitted)
    requires DistinctNames(Deployable(es)) && e in Deployable(es) && WantedType(s, e)
    requires IsDiff(s, HostRows(t, s.host), es, os) && KindsAsIntended(p, os)
    requires RunFrom(p, Initial(p, t), 0).1 == Finished
    requires HostSucceeded(p, RunFrom(p, Initial(p, t), 0).0.status, a, os, s.host)
    ensures e.script.Some?
    ensures RowAt(HostRows(RunFrom(p, Initial(p, t), 0).0.table, s.host), e.name) == Some(RowFor(e))
       <==> s.redeploy || !LooksUpToDate(HostRows(t, s.host), e) || HostRows(t, s.host)[e.name] == RowFor(e)
  {
    hide HostRows, RunFrom, HostSucceeded, Deployable, ApplyAll;
    var names := RunAppliesDiff(s, es, p, t, a, os);
    RowIsFreshIff(s, HostRows(t, s.host), Deployable(es), names, e);
    OnlyContentAndScriptCompared(s, HostRows(t, s.host), e);
  }

  const RETITLED: Emitted :=
    Emitted(".7", "new title", Some("script"), map["x" := OrderedJson.BoolValue(true)], 7, 5, None, "type", [], 0)

  const STALE: Row :=
    Row(DeployContent(Some("script"), Some(map["x" := OrderedJson.BoolValue(true)]), [], 0, "type", 7), 5, "old title")

  lemma EmptyDiff(s: Settings, rows: map<string, Row>, es: seq<Emitted>)
    requires AllScripted(Deployable(es)) && IsRemovalOrder(s, rows, es, [])
    requires Changes(s, rows, Deployable(es)) == []
    ensures IsDiff(s, rows, es, [])
  {
    var ds, names: seq<string>, ts: seq<TriggerData> := Deployable(es), [], [];
    var main := Changes(s, rows, ds) + Removals(s, Orphans(rows, ds), names);
    assert main == [];
    assert DropRepeats(ts) == [] && Permutes(ts, ts) && Orders.Sorted(ts, TriggerOrder);
    assert Fired(TriggersOf(main), ts);
    assert main + TriggerObjects(s, ts) == [];
    assert IsRemovalOrder(s, rows, es, names);
  }

  /** An object with a new title: the diff of a full deployment is empty, so the row is not touched. */
  lemma StaleRowExample(s: Settings)
    requires s.full && !s.redeploy
    ensures IsDiff(s, map[".7" := STALE], [RETITLED], []) && STALE != RowFor(RETITLED)
    ensures forall os :: IsDiff(s, map[".7" := STALE], [RETITLED], os) ==> os == []
  {
    var rows, es := map[".7" := STALE], [RETITLED];
    assert es[0] == RETITLED && es[1..] == [];
    assert Deployable(es) == [RETITLED];
    assert RETITLED in es;
    assert NamesOf(es) == {".7"};
    assert Orphans(rows, es) == map[];
    assert Changes(s, rows, es) == [];
    assert IsRemovalOrder(s, rows, es, []);
    EmptyDiff(s, rows, es);
    forall os | IsDiff(s, rows, es, os) ensures os == [] {
      assert IsDesired(s, rows, es, rows);
      DesiredIsUpToDate(s, rows, es, rows, os);
    }
  }
}
