/** What the scripts of a run carry: every batch of Sum objects is sent with the contents that are
    stored when its turn comes, with the batch applied. */
module ExecutionSent {
  import opened Wrappers
  import opened DeployTypes
  import opened Execution
  import opened ExecutionOrder
  import opened ExecutionTable
  import opened ExecutionCache

  /** The script of a batch carries what is stored after the successes before it, overlaid with
      its members. */
  ghost predicate Carries(p: Params, t: Table, status: seq<ObjectStatus>, r: Run)
    requires |status| == |p.objects|
  {
    r.SumRun? ==>
      && r.members != [] && AllBelow(r.members, |p.objects|)
      && r.objects == OverlayAll(Stored(RecordRange(p, status, t, 0, r.members[0]), r.host, r.typeId), p, r.members)
  }

  ghost predicate SentCarries(p: Params, t: Table, st: Exec, i: nat)
    requires i <= |p.objects| == |st.status|
  {
    && st.table == RecordRange(p, st.status, t, 0, i)
    && forall r :: r in st.sent ==> Carries(p, t, st.status, r) && AllBelow(r.members, i) && r.members != []
  }

  // ---------------------------------------------------------------- earlier statuses stay

  /** Statuses below `i` are the same. */
  ghost predicate SameBelow(a: seq<ObjectStatus>, b: seq<ObjectStatus>, i: nat) {
    |a| == |b| && forall k :: 0 <= k < i && k < |a| ==> a[k] == b[k]
  }

  lemma SumKeepsEarlier(p: Params, st: Exec, i: nat)
    requires i < |p.objects| == |st.status| && p.objects[i].enabled
    ensures SameBelow(st.status, SumStep(p, st, i).0.status, i)
  {
    hide RecordAll, OverlayAll, NonEmpty, CacheAt, MarkAll, EnabledIn;
  }

  lemma SingleKeepsEarlier(p: Params, st: Exec, i: nat)
    requires i < |p.objects| == |st.status| && p.objects[i].enabled
    ensures SameBelow(st.status, SingleStep(p, st, i).0.status, i)
  {
    hide SetDeployment, SingleRun;
  }

  lemma StepKeepsEarlier(p: Params, st: Exec, i: nat)
    requires i < |p.objects| == |st.status|
    ensures SameBelow(st.status, Step(p, st, i).0.status, i)
  {
    hide SumStep, SingleStep, CacheOf;
    if p.objects[i].enabled {
      var st1 := EnterHost(st, p.objects[i].host);
      SumKeepsEarlier(p, st1, i);
      SingleKeepsEarlier(p, st1, i);
    }
  }

  lemma CarriesLater(p: Params, t: Table, s1: seq<ObjectStatus>, s2: seq<ObjectStatus>, r: Run, i: nat)
    requires i <= |p.objects| == |s1| == |s2| && Carries(p, t, s1, r)
    requires r.members != [] && r.members[0] <= i && SameBelow(s1, s2, i)
    ensures Carries(p, t, s2, r)
  {
    hide OverlayAll, Stored;
    if r.SumRun? { RecordRangeStatus(p, s1, s2, t, 0, r.members[0]); }
  }

  // ---------------------------------------------------------------- one step

  lemma EnteredAgrees(p: Params, st: Exec, i: nat)
    requires i < |p.objects| == |st.status| && p.objects[i].host != -1 && InStep(p, st, i)
    ensures var st1 := EnterHost(st, p.objects[i].host);
      st1.table == st.table && st1.sent == st.sent && st1.curHost == p.objects[i].host &&
        (st1.badHost || CacheAgrees(p, st1))
  {
    hide CacheAgrees;
    if p.objects[i].host != st.curHost { CacheOfAgrees(p, EnterHost(st, p.objects[i].host), p.objects[i].host); }
  }

  lemma SumStepSent(p: Params, st: Exec, i: nat, r: Run)
    requires i < |p.objects| == |st.status| && p.objects[i].enabled
    requires r in SumStep(p, st, i).0.sent && r !in st.sent
    ensures var o := p.objects[i];
      r == SumRun(o.host, o.script, EnabledIn(p, i, BatchEnd(p, i, i + 1)), o.typeId, BatchObjects(p, st, i))
  {
    hide RecordAll, OverlayAll, NonEmpty, CacheAt, MarkAll, EnabledIn;
  }

  lemma SingleStepSent(p: Params, st: Exec, i: nat, r: Run)
    requires i < |p.objects| == |st.status| && p.objects[i].enabled
    requires r in SingleStep(p, st, i).0.sent && r !in st.sent
    ensures !r.SumRun?
  {
    hide SetDeployment;
  }

  /** The script that a step sends for a batch carries the stored contents. */
  lemma StepSendsStored(p: Params, st: Exec, i: nat, r: Run)
    requires i < |p.objects| == |st.status| && p.objects[i].host != -1 && InStep(p, st, i) && KeysDistinct(p)
    requires r in Step(p, st, i).0.sent && r !in st.sent && r.SumRun?
    requires r.members != [] && r.members[0] == i && AllBelow(r.members, |p.objects|)
    ensures r.objects == OverlayAll(Stored(st.table, r.host, r.typeId), p, r.members)
  {
    hide SumStep, SingleStep, CacheAgrees, KeysDistinct, RestFits, OverlayAll, Stored, BatchObjects, EnterHost;
    EnteredAgrees(p, st, i);
    var st1 := EnterHost(st, p.objects[i].host);
    if KindOf(p, p.objects[i].typeId) == Some(Sum) {
      SumStepSent(p, st1, i, r);
      SumSendsStored(p, st1, i);
    } else {
      SingleStepSent(p, st1, i, r);
    }
  }

  lemma StepSent(p: Params, t: Table, st: Exec, i: nat)
    requires i < |p.objects| == |st.status| && p.objects[i].host != -1 && InStep(p, st, i) && KeysDistinct(p)
    requires SentCarries(p, t, st, i)
    ensures forall r :: r in Step(p, st, i).0.sent ==>
              Carries(p, t, Step(p, st, i).0.status, r) && r.members != [] && AllBelow(r.members, |p.objects|) &&
                r.members[0] <= i
    ensures Step(p, st, i).1.Continue? ==> forall r :: r in Step(p, st, i).0.sent ==>
      AllBelow(r.members, Step(p, st, i).1.next)
  {
    hide Step, InStep, KeysDistinct, OverlayAll, Stored, RunOk, RecordRange;
    StepKeepsEarlier(p, st, i);
    var runs := StepSends(p, st, i);
    var (next, flow) := Step(p, st, i);
    forall r | r in next.sent
      ensures Carries(p, t, next.status, r) && r.members != [] && AllBelow(r.members, |p.objects|) && r.members[0] <= i
      ensures flow.Continue? ==> AllBelow(r.members, flow.next)
    {
      if r in st.sent {
        CarriesLater(p, t, st.status, next.status, r, i);
      } else {
        assert r in runs;
        MembersBelow(p, r);
        if r.SumRun? {
          StepSendsStored(p, st, i, r);
          RecordRangeStatus(p, st.status, next.status, t, 0, i);
        }
      }
    }
  }

  lemma StepKeepsTable(p: Params, t: Table, st: Exec, i: nat)
    requires i < |p.objects| == |st.status| && st.table == RecordRange(p, st.status, t, 0, i)
    requires Step(p, st, i).1.Continue?
    ensures Step(p, st, i).0.table == RecordRange(p, Step(p, st, i).0.status, t, 0, Step(p, st, i).1.next)
  {
    hide Step, RecordRange;
    StepKeepsEarlier(p, st, i);
    StepTable(p, st, i);
    var (next, flow) := Step(p, st, i);
    RecordRangeStatus(p, st.status, next.status, t, 0, i);
    RecordRangeSplits(p, next.status, t, 0, i, flow.next);
  }

  // ---------------------------------------------------------------- the whole run

  lemma {:induction false} RunSendsStored(p: Params, t: Table, st: Exec, i: nat)
    requires i <= |p.objects| == |st.status| && InStep(p, st, i) && KeysDistinct(p) && SentCarries(p, t, st, i)
    requires forall k :: 0 <= k < |p.objects| ==> p.objects[k].host != -1
    ensures var after := RunFrom(p, st, i).0; forall r :: r in after.sent ==> Carries(p, t, after.status, r)
    decreases |p.objects| - i
  {
    hide Step, InStep, KeysDistinct, Carries, RecordRange;
    if i < |p.objects| {
      StepSent(p, t, st, i);
      var (next, flow) := Step(p, st, i);
      if flow.Continue? {
        StepKeepsTable(p, t, st, i);
        StepKeepsCache(p, st, i);
        RunSendsStored(p, t, next, flow.next);
        assert RunFrom(p, st, i) == RunFrom(p, next, flow.next);
        assert forall r :: r in RunFrom(p, next, flow.next).0.sent ==>
          Carries(p, t, RunFrom(p, next, flow.next).0.status, r);
      } else {
        assert RunFrom(p, st, i).0 == next;
        assert forall r :: r in next.sent ==> Carries(p, t, next.status, r);
      }
    }
  }

  /** In a deployment whose objects fit the table, however it ends, every batch is sent with what is
      stored for its type after the successes before it, with the batch applied. */
  lemma DeploymentSendsStored(p: Params, t: Table)
    requires RestFits(p, t, 0) && KeysDistinct(p)
    requires forall k :: 0 <= k < |p.objects| ==> p.objects[k].host != -1
    ensures var after := RunFrom(p, Initial(p, t), 0).0; forall r :: r in after.sent ==> Carries(p, t, after.status, r)
  {
    RunSendsStored(p, t, Initial(p, t), 0);
  }

  // ---------------------------------------------------------------- after a failed batch

  lemma OverlayKeepsNonEmpty(m: map<string, Content>, o: DeployObject)
    requires NonEmpty(m) == m
    ensures NonEmpty(Overlay(m, o)) == Overlay(m, o)
  {
    assert forall n :: n in m ==> n in NonEmpty(m) && m[n] != map[];
    assert forall n :: n in Overlay(m, o) ==> Overlay(m, o)[n] != map[];
  }

  lemma {:induction false} OverlayAllNonEmpty(m: map<string, Content>, p: Params, members: seq<nat>)
    requires AllBelow(members, |p.objects|) && NonEmpty(m) == m
    ensures NonEmpty(OverlayAll(m, p, members)) == OverlayAll(m, p, members)
  {
    hide NonEmpty, Overlay;
    if members != [] {
      var init := members[..|members| - 1];
      OverlayAllNonEmpty(m, p, init);
      OverlayKeepsNonEmpty(OverlayAll(m, p, init), p.objects[members[|members| - 1]]);
    }
  }

  /** The cache is changed before a batch is run. After a failed one it still agrees with the table
      exactly if the batch would have changed nothing; the host is bad then, and gets no script. */
  lemma FailedBatchCacheIff(p: Params, st: Exec, i: nat)
    requires i < |p.objects| == |st.status| && p.objects[i].enabled && KindOf(p, p.objects[i].typeId) == Some(Sum)
    requires CacheAgrees(p, st) && st.curHost == p.objects[i].host && !p.cancelled(i) && !p.markOnly && !p.ok(i)
    ensures var after := SumStep(p, st, i).0;
      && after.badHost && after.table == st.table
      && (CacheAgrees(p, after) <==> BatchObjects(p, st, i) == Stored(st.table, st.curHost, p.objects[i].typeId))
  {
    hide RecordAll, OverlayAll, EnabledIn, Stored, NonEmpty, MarkAll, BatchEnd;
    var after, typeId := SumStep(p, st, i).0, p.objects[i].typeId;
    NonEmptyTwice(CacheAt(st.cache, typeId));
    OverlayAllNonEmpty(NonEmpty(CacheAt(st.cache, typeId)), p, EnabledIn(p, i, BatchEnd(p, i, i + 1)));
    assert CacheAt(after.cache, typeId) == BatchObjects(p, st, i);
    assert forall other :: other != typeId ==> CacheAt(after.cache, other) == CacheAt(st.cache, other);
  }
}
