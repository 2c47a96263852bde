/** After a deployment of all hosts that succeeds, the next setup has nothing to deploy. */
module SecondSetup {
  import opened Wrappers
  import opened DeployTypes
  import opened Diff
  import opened SetupHosts
  import opened Execution
  import ExecutionFailures
  import opened ExecutionCache
  import opened ExecutionSuccess
  import opened ExecutionTable
  import opened Fixpoint
  import opened SetupRuns
  import DiffMeaning
  import HostDiff
  import Triggers

  // ---------------------------------------------------------------- the order of what is emitted

  /** Desired rows are desired whatever the order. */
  lemma DesiredInAnyOrder(s: Settings, rows: map<string, Row>, es: seq<Emitted>, others: seq<Emitted>,
                          after: map<string, Row>)
    requires HostDiff.SameElements(es, others) && IsDesired(s, rows, Deployable(es), after)
    ensures IsDesired(s, rows, Deployable(others), after)
  {
    hide Deployable, RowDesired;
    forall e ensures e in Deployable(es) <==> e in Deployable(others) {
      DiffMeaning.DeployableAre(es, e);
      DiffMeaning.DeployableAre(others, e);
    }
    assert NamesOf(Deployable(es)) == NamesOf(Deployable(others));
  }

  // ---------------------------------------------------------------- where the objects of a host are

  lemma {:induction false} AllObjectsConcat(a: seq<HostResult>, b: seq<HostResult>)
    ensures AllObjectsOf(a + b) == AllObjectsOf(a) + AllObjectsOf(b)
  {
    hide ObjectsOf;
    if a == [] {
      assert a + b == b;
    } else {
      assert (a + b)[1..] == a[1..] + b;
      AllObjectsConcat(a[1..], b);
    }
  }

  lemma {:induction false} NotOnHost(hosts: seq<Input>, results: seq<HostResult>, host: int)
    requires |hosts| == |results|
    requires forall k :: 0 <= k < |hosts| ==> OnHost(ObjectsOf(results[k]), hosts[k].s.host) && hosts[k].s.host != host
    ensures forall o :: o in AllObjectsOf(results) ==> o.host != host
    decreases |hosts|
  {
    if hosts != [] { NotOnHost(hosts[1..], results[1..], host); }
  }

  /** The objects of one host are in one place, and no others are its. */
  lemma HostIsAt(hosts: seq<Input>, results: seq<HostResult>, k: nat) returns (a: nat)
    requires |hosts| == |results| && k < |hosts|
    requires forall j :: 0 <= j < |hosts| ==> OnHost(ObjectsOf(results[j]), hosts[j].s.host)
    requires forall i, j :: 0 <= i < j < |hosts| ==> hosts[i].s.host != hosts[j].s.host
    ensures var all, os := AllObjectsOf(results), ObjectsOf(results[k]);
      && a + |os| <= |all| && all[a..a + |os|] == os
      && forall i :: 0 <= i < |all| && !(a <= i < a + |os|) ==> all[i].host != hosts[k].s.host
  {
    hide ObjectsOf, OnHost, AllObjectsOf;
    var before, os, after := AllObjectsOf(results[..k]), ObjectsOf(results[k]), AllObjectsOf(results[k + 1..]);
    a := |before|;
    AllObjectsConcat(results[..k], results[k..]);
    assert results == results[..k] + results[k..] && results[k..] == [results[k]] + results[k + 1..];
    AllObjectsConcat([results[k]], results[k + 1..]);
    OneHost(results[k]);
    NotOnHost(hosts[..k], results[..k], hosts[k].s.host);
    NotOnHost(hosts[k + 1..], results[k + 1..], hosts[k].s.host);
    var all := AllObjectsOf(results);
    assert all == before + (os + after);
    forall i | 0 <= i < |all| && !(a <= i < a + |os|) ensures all[i].host != hosts[k].s.host {
      if i < a {
        assert all[i] == before[i] && before[i] in before;
      } else {
        assert all[i] == after[i - a - |os|] && after[i - a - |os|] in after;
      }
    }
  }

  lemma OneHost(r: HostResult)
    ensures AllObjectsOf([r]) == ObjectsOf(r)
  {
    assert [r][1..] == [] && AllObjectsOf([r][1..]) == [];
  }

  // ---------------------------------------------------------------- the two setups

  /** A host that was diffed as a whole, over distinct names, without errors. */
  ghost predicate DiffedFully(t: Table, h: Input, r: HostResult) {
    && r.Found? && r.errors == [] && h.s.full && DistinctNames(Deployable(h.es))
    && IsDiff(h.s, HostRows(t, h.s.host), h.es, r.objects)
  }

  ghost predicate DiffedOnHosts(t: Table, hosts: seq<Input>, results: seq<HostResult>) {
    && |hosts| == |results|
    && (forall k :: 0 <= k < |hosts| ==> DiffedFully(t, hosts[k], results[k]))
    && forall i, j :: 0 <= i < j < |hosts| ==> hosts[i].s.host != hosts[j].s.host
  }

  /** The next setup emits the same for a host, in any order, and is no redeploy. */
  ghost predicate SameHost(h: Input, again: Input) {
    again.s == h.s.(redeploy := false) && HostDiff.SameElements(h.es, again.es)
  }

  lemma DiffIsOnHost(t: Table, h: Input, r: HostResult)
    requires DiffedFully(t, h, r)
    ensures OnHost(ObjectsOf(r), h.s.host)
  {
    hide HostRows, Deployable, DistinctNames;
    var rows, ds := HostRows(t, h.s.host), Deployable(h.es);
    var names, ts :|
      && IsRemovalOrder(h.s, rows, h.es, names)
      && var main := Changes(h.s, rows, ds) + Removals(h.s, Orphans(rows, ds), names);
      && Triggers.Fired(TriggersOf(main), ts)
      && r.objects == main + TriggerObjects(h.s, ts);
    DiffParts(h.s, rows, ds, names, ts, r.objects, Changes(h.s, rows, ds) + Removals(h.s, Orphans(rows, ds), names));
  }

  /** The next diff of one host is empty. */
  lemma NextIsEmpty(p: Params, t: Table, hosts: seq<Input>, results: seq<HostResult>, k: nat, again: Input,
                    next: seq<DeployObject>)
    requires DiffedOnHosts(t, hosts, results) && k < |hosts| && SameHost(hosts[k], again)
    requires p.objects == AllObjectsOf(results) && KindsAsIntended(p, p.objects)
    requires Succeeds(p, t)
    requires IsDiff(again.s, HostRows(RunFrom(p, Initial(p, t), 0).0.table, again.s.host), again.es, next)
    ensures next == []
  {
    hide HostRows, RunFrom, IsDiff, Deployable, DistinctNames, IsDesired, AllObjectsOf, ObjectsOf,
      HostDiff.SameElements;
    forall j | 0 <= j < |hosts| ensures OnHost(ObjectsOf(results[j]), hosts[j].s.host) {
      DiffIsOnHost(t, hosts[j], results[j]);
    }
    var a := HostIsAt(hosts, results, k);
    var h, os := hosts[k], results[k].objects;
    IsFound(results[k]);
    KindsOfPart(p, p.objects, a, os);
    FullDeploymentReachesFixpoint(h.s, h.es, p, t, a, os);
    var rows, after := HostRows(t, h.s.host), HostRows(RunFrom(p, Initial(p, t), 0).0.table, h.s.host);
    DesiredInAnyOrder(h.s, rows, h.es, again.es, after);
    DesiredIsUpToDate(h.s, rows, again.es, after, next);
  }

  lemma IsFound(r: HostResult)
    requires r.Found?
    ensures ObjectsOf(r) == r.objects
  {
  }

  lemma KindsOfPart(p: Params, all: seq<DeployObject>, a: nat, os: seq<DeployObject>)
    requires KindsAsIntended(p, all) && a + |os| <= |all| && all[a..a + |os|] == os
    ensures KindsAsIntended(p, os)
  {
    forall o | o in os ensures o in all {
      var k :| 0 <= k < |os| && os[k] == o;
      assert all[a + k] == o;
    }
  }

  /** The deployment ends, and every object in it succeeded. */
  ghost predicate Succeeds(p: Params, t: Table) {
    && RunFrom(p, Initial(p, t), 0).1 == Finished
    && forall k :: 0 <= k < |p.objects| ==> RunFrom(p, Initial(p, t), 0).0.status[k] == Success
  }

  lemma {:induction false} NoObjectsAtAll(results: seq<HostResult>)
    requires forall k :: 0 <= k < |results| ==> results[k].Found? && results[k].objects == []
    ensures AllObjectsOf(results) == []
  {
    if results != [] { NoObjectsAtAll(results[1..]); }
  }

  /** All hosts are set up in full, everything is deployed or marked and succeeds. If the next setup,
      which is no redeploy, emits the same objects, in whatever order ties were broken, then its
      outcome is that there is nothing to deploy. */
  lemma SecondSetupIsEmpty(p: Params, t: Table, hosts: seq<Input>, results: seq<HostResult>,
                           again: seq<Input>, next: seq<HostResult>, root: RootResult)
    requires DiffedOnHosts(t, hosts, results) && |again| == |hosts|
    requires forall k :: 0 <= k < |hosts| ==> SameHost(hosts[k], again[k])
    requires p.objects == AllObjectsOf(results) && KindsAsIntended(p, p.objects) && Succeeds(p, t)
    requires DiffedOnHosts(RunFrom(p, Initial(p, t), 0).0.table, again, next)
    requires root.RootErrors? && (hosts == [] ==> root.errors == [])
    ensures SetupOutcome(root, next) == Ready([])
  {
    hide HostRows, RunFrom, IsDiff, Deployable, DistinctNames, AllObjectsOf, Succeeds, KindsAsIntended, SameHost;
    forall k | 0 <= k < |next| ensures next[k].Found? && next[k].objects == [] {
      NextIsEmpty(p, t, hosts, results, k, again[k], next[k].objects);
    }
    NoObjectsAtAll(next);
  }

  // ---------------------------------------------------------------- deployments that succeed

  /** Enabled, and with an id if it is to be recorded with content. */
  ghost predicate Settable(o: DeployObject) {
    o.enabled && (o.action != Fire ==> CanBeSet(o))
  }

  lemma DiffIsSettable(t: Table, h: Input, r: HostResult)
    requires FoundOn(t, h, r)
    ensures forall o :: o in ObjectsOf(r) ==> Settable(o)
  {
    if r.objects != [] {
      var rows := HostRows(t, h.s.host);
      hide HostRows, DistinctNames, TypesKept, IsDiff;
      var names, ts := DiffMeaning.PartsOf(h.s, rows, h.es, r.objects);
      forall o | o in r.objects ensures Settable(o) {
        PartIsSettable(h.s, rows, h.es, names, ts, r.objects, o);
      }
    }
  }

  lemma PartIsSettable(s: Settings, rows: map<string, Row>, es: seq<Emitted>, names: seq<string>, ts: seq<TriggerData>,
                       os: seq<DeployObject>, o: DeployObject)
    requires DiffMeaning.Parts(s, rows, es, names, ts, os) && o in os
    ensures Settable(o)
  {
    var ds := Deployable(es);
    DiffMeaning.PartByAction(s, rows, es, names, ts, os, o);
    DiffParts(s, rows, ds, names, ts, os, Changes(s, rows, ds) + Removals(s, Orphans(rows, ds), names));
    hide Changes, Removals, Orphans, Deployable, TriggerObjects;
    if o in Changes(s, rows, ds) {
      ChangeIsSettable(s, rows, ds, o);
    } else if o in Removals(s, Orphans(rows, ds), names) {
      RemovalIsSettable(s, Orphans(rows, ds), names, o);
    }
  }

  lemma ChangeIsSettable(s: Settings, rows: map<string, Row>, ds: seq<Emitted>, o: DeployObject)
    requires AllScripted(ds) && o in Changes(s, rows, ds)
    ensures Settable(o)
  {
    hide Changes;
    var e := DiffMeaning.ChangesAre(s, rows, ds, o);
  }

  lemma RemovalIsSettable(s: Settings, rows: map<string, Row>, names: seq<string>, o: DeployObject)
    requires forall n :: n in names ==> n in rows && rows[n].content.script.Some?
    requires o in Removals(s, rows, names)
    ensures Settable(o)
  {
    hide Removals;
    RemovalsNamed(s, rows, names);
    var k :| 0 <= k < |names| && Removals(s, rows, names)[k] == o;
  }

  lemma {:induction false} AllAreSettable(t: Table, hosts: seq<Input>, results: seq<HostResult>)
    requires |hosts| == |results| && forall k :: 0 <= k < |hosts| ==> FoundOn(t, hosts[k], results[k])
    ensures forall o :: o in AllObjectsOf(results) ==> Settable(o)
    decreases |hosts|
  {
    hide FoundOn, Settable, ObjectsOf;
    if hosts != [] {
      DiffIsSettable(t, hosts[0], results[0]);
      AllAreSettable(t, hosts[1..], results[1..]);
    }
  }

  /** Everything that a setup found is deployed, or marked as deployed. If nothing is cancelled, all kinds
      are handled, and no host is down and no script fails unless objects are only marked, then the
      deployment ends and every object in it succeeds. */
  lemma DeploymentSucceeds(p: Params, t: Table, hosts: seq<Input>, results: seq<HostResult>)
    requires FoundOnHosts(t, hosts, results) && p.objects == AllObjectsOf(results) && KindsAsIntended(p, p.objects)
    requires NothingFails(p) && forall k :: 0 <= k < |p.objects| ==> !p.cancelled(k) && Handled(p, k)
    ensures Succeeds(p, t)
  {
    hide FoundOn, RestFits, KeysDistinct, ExecutionFailures.HostsGrouped, AllObjectsOf, RunFrom, Handled;
    SetupFits(p, t, hosts, results);
    AllAreSettable(t, hosts, results);
    forall k | 0 <= k < |p.objects|
      ensures p.objects[k].enabled && (Recordable(p, k) ==> CanBeSet(p.objects[k]))
    {
      assert p.objects[k] in p.objects && Settable(p.objects[k]);
    }
    RunFinishes(p, Initial(p, t), 0);
    AllSucceed(p, t, |p.objects|);
  }
}
