/** What a run does with each object: consumed once, left to right, in maximal batches, and
    no script after the first failure on a host. */
module ExecutionOrder {
  import opened Wrappers
  import opened DeployTypes
  import opened Execution

  predicate Ended(s: ObjectStatus) {
    s == Success || s == Failure
  }

  /** The objects from `i` up to `j` have been dealt with. */
  ghost predicate Consumed(p: Params, before: seq<ObjectStatus>, after: seq<ObjectStatus>, i: nat, j: nat) {
    && |before| == |after| == |p.objects| && i <= j <= |p.objects|
    && forall k :: 0 <= k < |p.objects| ==>
         if i <= k < j && p.objects[k].enabled then Ended(after[k]) else after[k] == before[k]
  }

  lemma SumConsumes(p: Params, st: Exec, i: nat)
    requires i < |p.objects| == |st.status| && p.objects[i].enabled && SumStep(p, st, i).1.Continue?
    ensures Consumed(p, st.status, SumStep(p, st, i).0.status, i, SumStep(p, st, i).1.next)
  {
    hide RecordAll, OverlayAll, NonEmpty, CacheAt;
  }

  lemma SingleConsumes(p: Params, st: Exec, i: nat)
    requires i < |p.objects| == |st.status| && p.objects[i].enabled && SingleStep(p, st, i).1.Continue?
    ensures Consumed(p, st.status, SingleStep(p, st, i).0.status, i, SingleStep(p, st, i).1.next)
  {
    hide SetDeployment, SingleRun;
  }

  lemma StepConsumes(p: Params, st: Exec, i: nat)
    requires i < |p.objects| == |st.status| && Step(p, st, i).1.Continue?
    ensures Consumed(p, st.status, Step(p, st, i).0.status, i, Step(p, st, i).1.next)
  {
    hide SumStep, SingleStep, CacheOf;
    if p.objects[i].enabled {
      var st1 := EnterHost(st, p.objects[i].host);
      if !st1.badHost && (p.markOnly || p.up(i)) {
        if KindOf(p, p.objects[i].typeId) == Some(Sum) {
          SumConsumes(p, st1, i);
        } else {
          SingleConsumes(p, st1, i);
        }
      }
    }
  }

  /** In a run that is neither cancelled nor cut off by an error, every enabled object ends in
      success or failure and every disabled one is untouched. */
  lemma {:induction false} RunConsumesAll(p: Params, st: Exec, i: nat)
    requires i <= |p.objects| == |st.status| && RunFrom(p, st, i).1 == Finished
    ensures Consumed(p, st.status, RunFrom(p, st, i).0.status, i, |p.objects|)
    decreases |p.objects| - i
  {
    if i < |p.objects| {
      StepConsumes(p, st, i);
      var (next, flow) := Step(p, st, i);
      RunConsumesAll(p, next, flow.next);
    }
  }

  // ---------------------------------------------------------------- the scripts that are sent

  ghost predicate Ascending(m: seq<nat>) {
    forall a, b :: 0 <= a < b < |m| ==> m[a] < m[b]
  }

  /** Enabled, and no enabled object since `i` belongs to another batch. */
  ghost predicate InBatch(p: Params, i: nat, k: nat) {
    && i <= k < |p.objects| && p.objects[k].enabled
    && forall l :: i <= l <= k && p.objects[l].enabled ==> SameBatch(p, i, l)
  }

  /** What a sent script is about: a Sum script is about a maximal run of enabled objects with
      one host, type and script; every other script is about its own object. */
  ghost predicate RunOk(p: Params, r: Run) {
    && r.members != [] && Ascending(r.members) && AllBelow(r.members, |p.objects|)
    && var i := r.members[0];
    && var o := p.objects[i];
    && o.enabled && r.host == o.host && r.script == o.script && !p.markOnly
    && match r
       case SumRun(_, _, m, t, _) =>
         && t == o.typeId && KindOf(p, t) == Some(Sum)
         && forall k :: k in m <==> InBatch(p, i, k)
       case DeltaRun(_, _, m, b, a) =>
         && m == [i] && KindOf(p, o.typeId) in {None, Some(Delta)} && b == o.prevContent && a == o.nextContent
       case TriggerRun(_, _, m, c) =>
         && m == [i] && KindOf(p, o.typeId) == Some(Trigger) && c == o.nextContent
  }

  lemma {:induction false} BatchEndIs(p: Params, i: nat, j: nat)
    requires i < j <= |p.objects| && p.objects[i].enabled
    requires forall l :: i <= l < j && p.objects[l].enabled ==> SameBatch(p, i, l)
    ensures forall k :: i <= k < |p.objects| && p.objects[k].enabled ==> (k < BatchEnd(p, i, j) <==> InBatch(p, i, k))
    decreases |p.objects| - j
  {
    if j < |p.objects| && !(p.objects[j].enabled && !SameBatch(p, i, j)) {
      BatchEndIs(p, i, j + 1);
    }
  }

  lemma {:induction false} EnabledAscending(p: Params, i: nat, j: nat)
    requires i <= j <= |p.objects|
    ensures Ascending(EnabledIn(p, i, j))
    ensures i < j && p.objects[i].enabled ==> EnabledIn(p, i, j) != [] && EnabledIn(p, i, j)[0] == i
    decreases j - i
  {
    assert Ascending([]);
    hide Ascending;
    if i < j {
      EnabledAscending(p, i, j - 1);
      AscendingSnoc(EnabledIn(p, i, j - 1), j - 1);
    }
  }

  lemma AscendingSnoc(m: seq<nat>, x: nat)
    requires Ascending(m) && AllBelow(m, x)
    ensures Ascending(m + [x])
  {
  }

  lemma BatchIsRun(p: Params, i: nat, contents: map<string, Content>)
    requires i < |p.objects| && p.objects[i].enabled && KindOf(p, p.objects[i].typeId) == Some(Sum) && !p.markOnly
    ensures var o := p.objects[i];
      var members := EnabledIn(p, i, BatchEnd(p, i, i + 1));
      && members != [] && members[0] == i && AllBelow(members, BatchEnd(p, i, i + 1))
      && RunOk(p, SumRun(o.host, o.script, members, o.typeId, contents))
  {
    BatchEndIs(p, i, i + 1);
    EnabledAscending(p, i, BatchEnd(p, i, i + 1));
    assert forall k :: k in EnabledIn(p, i, BatchEnd(p, i, i + 1)) <==> InBatch(p, i, k);
  }

  lemma SumSends(p: Params, st: Exec, i: nat) returns (runs: seq<Run>)
    requires i < |p.objects| == |st.status| && p.objects[i].enabled && KindOf(p, p.objects[i].typeId) == Some(Sum)
    ensures SumStep(p, st, i).0.sent == st.sent + runs && |runs| <= 1
    ensures forall r :: r in runs ==>
      RunOk(p, r) && r.members != [] && r.members[0] == i && AllBelow(r.members, BatchEnd(p, i, i + 1))
    ensures SumStep(p, st, i).1.Continue? ==> SumStep(p, st, i).1.next == BatchEnd(p, i, i + 1)
  {
    hide RecordAll, OverlayAll, NonEmpty, CacheAt, MarkAll, EnabledIn, BatchEnd, RunOk, InBatch;
    var o, j := p.objects[i], BatchEnd(p, i, i + 1);
    var members := EnabledIn(p, i, j);
    if p.cancelled(i) || p.markOnly {
      runs := [];
    } else {
      BatchIsRun(p, i, OverlayAll(NonEmpty(CacheAt(st.cache, o.typeId)), p, members));
      runs := [SumRun(o.host, o.script, members, o.typeId,
        OverlayAll(NonEmpty(CacheAt(st.cache, o.typeId)), p, members))];
    }
  }

  lemma SingleSends(p: Params, st: Exec, i: nat) returns (runs: seq<Run>)
    requires i < |p.objects| == |st.status| && p.objects[i].enabled && KindOf(p, p.objects[i].typeId) != Some(Sum)
    ensures SingleStep(p, st, i).0.sent == st.sent + runs && |runs| <= 1
    ensures forall r :: r in runs ==> RunOk(p, r) && r.members == [i]
    ensures SingleStep(p, st, i).1.Continue? ==> SingleStep(p, st, i).1.next == i + 1
  {
    hide SetDeployment;
    runs := if p.cancelled(i) || p.markOnly || SingleRun(p, i).None? then [] else [SingleRun(p, i).value];
  }

  /** The script that one step sends, if any. */
  lemma StepSends(p: Params, st: Exec, i: nat) returns (runs: seq<Run>)
    requires i < |p.objects| == |st.status|
    ensures Step(p, st, i).0.sent == st.sent + runs && |runs| <= 1
    ensures forall r :: r in runs ==> RunOk(p, r) && r.members != [] && r.members[0] == i
    ensures Step(p, st, i).1.Continue? ==> forall r :: r in runs ==> AllBelow(r.members, Step(p, st, i).1.next)
    ensures st.badHost && st.curHost == p.objects[i].host ==> runs == []
  {
    hide SumStep, SingleStep, CacheOf, RunOk;
    runs := [];
    var o := p.objects[i];
    if o.enabled {
      var st1 := EnterHost(st, o.host);
      if !st1.badHost && (p.markOnly || p.up(i)) {
        if KindOf(p, o.typeId) == Some(Sum) {
          runs := SumSends(p, st1, i);
        } else {
          runs := SingleSends(p, st1, i);
        }
      }
    }
  }

  /** Every object is in at most one sent script, and scripts are sent from left to right. */
  ghost predicate SentInOrder(p: Params, sent: seq<Run>, i: nat) {
    && (forall r :: 0 <= r < |sent| ==> RunOk(p, sent[r]) && AllBelow(sent[r].members, i))
    && forall r, s :: 0 <= r < s < |sent| ==> sent[s].members != [] && AllBelow(sent[r].members, sent[s].members[0])
  }

  lemma SentInOrderSnoc(p: Params, sent: seq<Run>, i: nat, r: Run, j: nat)
    requires SentInOrder(p, sent, i) && RunOk(p, r) && r.members != [] && r.members[0] == i && AllBelow(r.members, j)
    requires i <= j
    ensures SentInOrder(p, sent + [r], j)
  {
    var more := sent + [r];
    assert forall s :: 0 <= s < |sent| ==> more[s] == sent[s];
    forall s | 0 <= s < |more|
      ensures RunOk(p, more[s]) && AllBelow(more[s].members, j)
    {
      assert s < |sent| ==> AllBelow(sent[s].members, i);
    }
    forall a, b | 0 <= a < b < |more|
      ensures more[b].members != [] && AllBelow(more[a].members, more[b].members[0])
    {
      assert AllBelow(sent[a].members, i);
      assert b < |sent| ==> sent[b].members != [] && AllBelow(sent[a].members, sent[b].members[0]);
    }
  }

  lemma SentInOrderLater(p: Params, sent: seq<Run>, i: nat, j: nat)
    requires SentInOrder(p, sent, i) && i <= j
    ensures SentInOrder(p, sent, j)
  {
  }

  /** The scripts of a whole run. */
  lemma {:induction false} RunSendsInOrder(p: Params, st: Exec, i: nat)
    requires i <= |p.objects| == |st.status| && SentInOrder(p, st.sent, i)
    ensures SentInOrder(p, RunFrom(p, st, i).0.sent, |p.objects|)
    decreases |p.objects| - i
  {
    hide RunOk, Step;
    if i < |p.objects| {
      var runs := StepSends(p, st, i);
      var (next, flow) := Step(p, st, i);
      var j := if flow.Continue? then flow.next else |p.objects|;
      if runs != [] {
        assert runs == [runs[0]];
        MembersBelow(p, runs[0]);
        SentInOrderSnoc(p, st.sent, i, runs[0], j);
      } else {
        assert next.sent == st.sent;
        SentInOrderLater(p, st.sent, i, j);
      }
      if flow.Continue? { RunSendsInOrder(p, next, j); }
    }
  }

  lemma MembersBelow(p: Params, r: Run)
    requires RunOk(p, r)
    ensures AllBelow(r.members, |p.objects|)
  {
  }

  /** The object has what the script of a batch is about. */
  ghost predicate GoesInto(o: DeployObject, r: Run)
    requires r.SumRun?
  {
    o.enabled && o.host == r.host && o.typeId == r.typeId && o.script == r.script
  }

  lemma BatchGoesTogether(p: Params, r: Run, k: nat)
    requires RunOk(p, r) && r.SumRun? && k < |p.objects|
    ensures k in r.members ==> GoesInto(p.objects[k], r)
    ensures k !in r.members && k > r.members[0] && p.objects[k].enabled ==>
      exists l :: r.members[0] < l <= k && p.objects[l].enabled && !GoesInto(p.objects[l], r)
  {
    var i := r.members[0];
    assert k in r.members <==> InBatch(p, i, k);
    if k !in r.members && k > i && p.objects[k].enabled {
      var l :| i <= l <= k && p.objects[l].enabled && !SameBatch(p, i, l);
      assert !GoesInto(p.objects[l], r);
    }
  }

  /** Whatever the run of a deployment, a batch that is sent holds enabled objects of its own host, type
      and script only, and an enabled object after its first one is left out only if another one came
      between, or it is one itself. */
  lemma DeploymentSendsBatches(p: Params, t: Table, r: Run, k: nat)
    requires r in RunFrom(p, Initial(p, t), 0).0.sent && r.SumRun? && k < |p.objects|
    ensures r.members != [] && (k in r.members ==> GoesInto(p.objects[k], r))
    ensures k !in r.members && k > r.members[0] && p.objects[k].enabled ==>
      exists l :: r.members[0] < l <= k && p.objects[l].enabled && !GoesInto(p.objects[l], r)
  {
    hide RunFrom, GoesInto, InBatch;
    RunSendsInOrder(p, Initial(p, t), 0);
    var sent := RunFrom(p, Initial(p, t), 0).0.sent;
    var m :| 0 <= m < |sent| && sent[m] == r;
    assert RunOk(p, sent[m]);
    hide RunOk;
    BatchGoesTogether(p, r, k);
  }
}
