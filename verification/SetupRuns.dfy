/** The objects that a setup finds are what the theorems about runs ask for. */
module SetupRuns {
  import opened Wrappers
  import opened DeployTypes
  import opened Diff
  import opened SetupHosts
  import opened Execution
  import opened ExecutionFailures
  import opened ExecutionTable
  import opened ExecutionCache
  import opened ExecutionSent
  import Triggers
  import opened Fixpoint
  import DiffMeaning
  import HostDiff
  import HostOrder
  import VisitStore

  /** What a host was diffed with. */
  datatype Input = Input(s: Settings, es: seq<Emitted>)

  /** Contents are not empty, and no name has changed its type since it was stored. */
  ghost predicate TypesKept(t: Table, h: Input) {
    forall e :: e in Deployable(h.es) ==>
      e.content != map[] && ((h.s.host, e.name) in t ==> t[(h.s.host, e.name)].typeId == e.typeId)
  }

  /** A host that was found without failing: nothing, or the diff of distinct names with its rows. */
  ghost predicate FoundOn(t: Table, h: Input, r: HostResult) {
    && r.Found? && h.s.host != -1
    && (r.objects == [] || (IsDiff(h.s, HostRows(t, h.s.host), h.es, r.objects) && DistinctNames(Deployable(h.es)) &&
         TypesKept(t, h)))
  }

  /** Each host is set up once. */
  ghost predicate FoundOnHosts(t: Table, hosts: seq<Input>, results: seq<HostResult>) {
    && |hosts| == |results|
    && (forall k :: 0 <= k < |hosts| ==> FoundOn(t, hosts[k], results[k]))
    && forall j, k :: 0 <= j < k < |hosts| ==> hosts[j].s.host != hosts[k].s.host
  }

  /** What a host leaves that did not fail is such a result, for the objects that it emitted. */
  lemma HostResultFound(cfg: VisitStore.Config, st: VisitStore.Store, info: HostDiff.Info, s: Settings, t: Table,
                        o: HostOrder.Outcome, r: HostResult)
    returns (h: Input)
    requires HostDiff.ResultFor(cfg, st, info, s, HostRows(t, s.host), o, r) && r.Found? && s.host != -1
    requires o.Ordered? || o.Cycle? ==> TypesKept(t, Input(s, HostDiff.EmittedOf(cfg, st, info, s, o.order)))
    ensures h.s == s && FoundOn(t, h, r)
  {
    hide HostRows, TypesKept, IsDiff, HostDiff.EmittedOf, DistinctNames;
    if o.Ordered? || o.Cycle? {
      h := Input(s, HostDiff.EmittedOf(cfg, st, info, s, o.order));
      DiffMeaning.DeployableDistinct(h.es);
    } else {
      h := Input(s, []);
    }
  }

  // ---------------------------------------------------------------- properties of lists of objects

  ghost predicate OnHost(os: seq<DeployObject>, host: int) {
    forall o :: o in os ==> o.host == host
  }

  ghost predicate HostsOf(os: seq<DeployObject>, hosts: seq<Input>) {
    forall o :: o in os ==> exists k :: 0 <= k < |hosts| && o.host == hosts[k].s.host
  }

  ghost predicate ListFits(t: Table, os: seq<DeployObject>) {
    forall o :: o in os && o.action != Fire ==> Fits(t, o)
  }

  /** No name is added, modified or removed twice on a host. */
  ghost predicate ListDistinct(os: seq<DeployObject>) {
    forall a, b :: 0 <= a < b < |os| && os[a].action != Fire && os[b].action != Fire ==>
      (os[a].host, os[a].name) != (os[b].host, os[b].name)
  }

  ghost predicate ListGrouped(os: seq<DeployObject>) {
    forall a, b, c :: 0 <= a < b < c < |os| && os[a].host == os[c].host ==> os[b].host == os[a].host
  }

  /** One host. */
  lemma HostIsFine(t: Table, h: Input, r: HostResult)
    requires FoundOn(t, h, r)
    ensures OnHost(r.objects, h.s.host) && ListFits(t, r.objects) && ListDistinct(r.objects)
  {
    hide HostRows, Deployable, DistinctNames, Fits;
    if r.objects != [] {
      var rows, ds := HostRows(t, h.s.host), Deployable(h.es);
      var names, ts :|
        && IsRemovalOrder(h.s, rows, h.es, names)
        && var main := Changes(h.s, rows, ds) + Removals(h.s, Orphans(rows, ds), names);
        && Triggers.Fired(TriggersOf(main), ts)
        && r.objects == main + TriggerObjects(h.s, ts);
      var main := Changes(h.s, rows, ds) + Removals(h.s, Orphans(rows, ds), names);
      DiffParts(h.s, rows, ds, names, ts, r.objects, main);
      EachNameOnce(h.s, rows, ds, names);
      PartsAreFine(t, h, r.objects, main, names);
    }
  }

  lemma PartsAreFine(t: Table, h: Input, os: seq<DeployObject>, main: seq<DeployObject>, names: seq<string>)
    requires var rows, ds := HostRows(t, h.s.host), Deployable(h.es);
      && AllScripted(ds) && DistinctNames(ds) && TypesKept(t, h) && IsRemovalOrder(h.s, rows, h.es, names)
      && main == Changes(h.s, rows, ds) + Removals(h.s, Orphans(rows, ds), names)
    requires main <= os && forall k :: 0 <= k < |os| ==> (k < |main| <==> os[k].action != Fire)
    requires forall i, j :: 0 <= i < j < |main| ==> main[i].name != main[j].name
    ensures ListFits(t, os) && ListDistinct(os)
  {
    hide HostRows, Deployable, DistinctNames, Fits, Changes, Removals, SortedNames;
    forall o | o in os && o.action != Fire ensures Fits(t, o) {
      var k :| 0 <= k < |os| && os[k] == o;
      assert main[k] == o && o in main;
      DiffFits(h.s, t, Deployable(h.es), names, o);
    }
    assert forall k :: 0 <= k < |main| ==> os[k] == main[k];
  }

  // ---------------------------------------------------------------- all hosts

  lemma Joined(t: Table, x: seq<DeployObject>, y: seq<DeployObject>, host: int)
    requires OnHost(x, host) && forall o :: o in y ==> o.host != host
    requires ListFits(t, x) && ListFits(t, y) && ListDistinct(x) && ListDistinct(y) && ListGrouped(y)
    ensures ListFits(t, x + y) && ListDistinct(x + y) && ListGrouped(x + y)
  {
    hide Fits;
    var os, n := x + y, |x|;
    assert forall k :: 0 <= k < |os| ==>
      if k < n then os[k] == x[k] && x[k] in x else os[k] == y[k - n] && y[k - n] in y;
    forall a, b, c | 0 <= a < b < c < |os| && os[a].host == os[c].host ensures os[b].host == os[a].host {
      if a >= n { assert y[a - n].host == y[c - n].host; }
    }
    forall a, b | 0 <= a < b < |os| && os[a].action != Fire && os[b].action != Fire
      ensures (os[a].host, os[a].name) != (os[b].host, os[b].name)
    {
      if a >= n { assert os[a] == y[a - n] && os[b] == y[b - n]; }
    }
  }

  lemma {:induction false} AllHostsFine(t: Table, hosts: seq<Input>, results: seq<HostResult>)
    requires FoundOnHosts(t, hosts, results)
    ensures var os := AllObjectsOf(results);
      ListFits(t, os) && ListDistinct(os) && ListGrouped(os) && HostsOf(os, hosts)
    decreases |hosts|
  {
    hide FoundOn, ListFits, ListDistinct;
    if hosts == [] {
      NoObjects(t);
    } else {
      var rest, os := AllObjectsOf(results[1..]), ObjectsOf(results[0]);
      FoundObjects(t, hosts[0], results[0]);
      HostIsFine(t, hosts[0], results[0]);
      AllHostsFine(t, hosts[1..], results[1..]);
      forall o | o in rest
        ensures o.host != hosts[0].s.host && exists k :: 0 <= k < |hosts| && o.host == hosts[k].s.host
      {
        var k :| 0 <= k < |hosts[1..]| && o.host == hosts[1..][k].s.host;
        assert hosts[1..][k] == hosts[k + 1];
      }
      Joined(t, os, rest, hosts[0].s.host);
    }
  }

  lemma NoObjects(t: Table)
    ensures ListFits(t, []) && ListDistinct([])
  {
  }

  lemma FoundObjects(t: Table, h: Input, r: HostResult)
    requires FoundOn(t, h, r)
    ensures ObjectsOf(r) == r.objects && h.s.host != -1
  {
  }

  // ---------------------------------------------------------------- runs over what was found

  /** The objects of the run are those found, apart from which are enabled and their statuses. */
  ghost predicate RunsOver(p: Params, os: seq<DeployObject>) {
    && |p.objects| == |os|
    && forall k :: 0 <= k < |os| ==>
         p.objects[k] == os[k].(enabled := p.objects[k].enabled, status := p.objects[k].status)
  }

  lemma ListsAreEnough(p: Params, t: Table, os: seq<DeployObject>)
    requires RunsOver(p, os) && KindsAsIntended(p, os) && ListFits(t, os) && ListDistinct(os) && ListGrouped(os)
    ensures RestFits(p, t, 0) && KeysDistinct(p) && HostsGrouped(p)
  {
    forall k | 0 <= k < |p.objects| ensures Recorded(p, k) ==> os[k].action != Fire && Fits(t, p.objects[k]) {
      assert os[k] in os;
    }
  }

  /** Whatever the user has enabled, a run over the objects that a setup found on distinct hosts meets
      the conditions of the theorems about runs ... */
  lemma SetupFits(p: Params, t: Table, hosts: seq<Input>, results: seq<HostResult>)
    requires FoundOnHosts(t, hosts, results) && RunsOver(p, AllObjectsOf(results))
    requires KindsAsIntended(p, AllObjectsOf(results))
    ensures RestFits(p, t, 0) && KeysDistinct(p) && HostsGrouped(p)
    ensures forall k :: 0 <= k < |p.objects| ==> p.objects[k].host != -1
  {
    hide FoundOn, RestFits, KeysDistinct, HostsGrouped, ListFits, ListDistinct, ListGrouped, KindsAsIntended;
    var os := AllObjectsOf(results);
    AllHostsFine(t, hosts, results);
    ListsAreEnough(p, t, os);
    forall k | 0 <= k < |p.objects| ensures p.objects[k].host != -1 {
      assert os[k] in os;
      var j :| 0 <= j < |hosts| && os[k].host == hosts[j].s.host;
      FoundObjects(t, hosts[j], results[j]);
    }
  }

  /** ... so at every turn the cache agrees with the table, every batch carries what is stored, and a
      run that ends sends nothing to a host after its first fatal failure. */
  lemma SetupDeploys(p: Params, t: Table, hosts: seq<Input>, results: seq<HostResult>)
    requires FoundOnHosts(t, hosts, results) && RunsOver(p, AllObjectsOf(results))
    requires KindsAsIntended(p, AllObjectsOf(results))
    ensures var (after, end) := RunFrom(p, Initial(p, t), 0);
      && (forall x :: x in Heads(p, Initial(p, t), 0) ==> InStep(p, x.0, x.1))
      && (forall r :: r in after.sent ==> Carries(p, t, after.status, r))
      && (end == Finished ==> SilentAfterFatal(p, after, |p.objects|))
  {
    hide FoundOn, RestFits, KeysDistinct, HostsGrouped, KindsAsIntended, RunFrom, Heads, InStep, Carries,
      SilentAfterFatal;
    SetupFits(p, t, hosts, results);
    DeploymentCacheAgrees(p, t);
    DeploymentSendsStored(p, t);
    if RunFrom(p, Initial(p, t), 0).1 == Finished { DeploymentStopsPerHost(p, t); }
  }
}
