/** After a host is down, or after its first failure that is not a trigger's, no script is
    sent to it again and its later enabled objects fail. */
module ExecutionFailures {
  import opened Wrappers
  import opened DeployTypes
  import opened Execution
  import opened ExecutionOrder

  ghost predicate WasSent(sent: seq<Run>, k: nat) {
    exists r :: r in sent && k in r.members
  }

  ghost predicate SameRun(sent: seq<Run>, b: nat, k: nat) {
    exists r :: r in sent && b in r.members && k in r.members
  }

  /** A failure other than that of a trigger script. */
  ghost predicate Fatal(p: Params, st: Exec, b: nat)
    requires b < |p.objects| == |st.status|
  {
    st.status[b] == Failure && !(IsTrigger(p, b) && WasSent(st.sent, b))
  }

  predicate On(p: Params, k: nat, host: int)
    requires k < |p.objects|
  {
    p.objects[k].enabled && p.objects[k].host == host
  }

  /** The objects of one host are next to each other, as they are set up. */
  ghost predicate HostsGrouped(p: Params) {
    forall a, b, c :: 0 <= a < b < c < |p.objects| && p.objects[a].host == p.objects[c].host
      ==> p.objects[b].host == p.objects[a].host
  }

  /** Nothing after a fatal failure on the same host: neither a success nor a script. */
  ghost predicate SilentAfterFatal(p: Params, st: Exec, i: nat)
    requires i <= |p.objects| == |st.status|
  {
    forall b, k :: 0 <= b < k < i && On(p, b, p.objects[k].host) && p.objects[k].enabled
      && Fatal(p, st, b) && !SameRun(st.sent, b, k)
      ==> st.status[k] == Failure && !WasSent(st.sent, k)
  }

  /** `bad_host` and `cur_host` say what has happened on the current host. */
  ghost predicate HostKnown(p: Params, st: Exec, i: nat)
    requires i <= |p.objects| == |st.status|
  {
    && (forall b :: 0 <= b < i && On(p, b, st.curHost) && Fatal(p, st, b) ==> st.badHost)
    && (forall b :: 0 <= b < i && p.objects[b].enabled && p.objects[b].host != st.curHost
          ==> exists c :: b < c < i && On(p, c, st.curHost))
    && (forall r :: r in st.sent ==> AllBelow(r.members, i))
  }

  /** What one step did to the objects it consumed, on a host that was `bad` or not. */
  ghost predicate Outcome(p: Params, bad: bool, before: Exec, after: Exec, i: nat, j: nat)
    requires |p.objects| == |before.status| == |after.status| && i < j <= |p.objects|
  {
    && after.curHost == p.objects[i].host
    && Consumed(p, before.status, after.status, i, j)
    && (forall k :: i <= k < j && p.objects[k].enabled ==> p.objects[k].host == p.objects[i].host)
    && (bad ==> after.badHost && j == i + 1 && after.status[i] == Failure && after.sent == before.sent)
    && (forall k :: i <= k < j && p.objects[k].enabled && Fatal(p, after, k) ==> after.badHost)
    && (forall b, k :: i <= b < k < j && p.objects[b].enabled && p.objects[k].enabled && Fatal(p, after, b) ==>
         SameRun(after.sent, b, k))
  }

  lemma SumHosts(p: Params, st: Exec, i: nat)
    requires i < |p.objects| && p.objects[i].enabled
    ensures forall k :: i <= k < BatchEnd(p, i, i + 1) && p.objects[k].enabled ==>
      p.objects[k].host == p.objects[i].host
  {
    BatchEndIs(p, i, i + 1);
    forall k | i <= k < BatchEnd(p, i, i + 1) && p.objects[k].enabled
      ensures p.objects[k].host == p.objects[i].host
    {
      assert InBatch(p, i, k);
    }
  }

  ghost predicate AllInOneRun(p: Params, sent: seq<Run>, i: nat, j: nat)
    requires j <= |p.objects|
  {
    forall b, k :: i <= b < j && p.objects[b].enabled && i <= k < j && p.objects[k].enabled ==> SameRun(sent, b, k)
  }

  lemma SumSucceeds(p: Params, st: Exec, i: nat)
    requires i < |p.objects| == |st.status| && p.objects[i].enabled && !p.cancelled(i) && (p.markOnly || p.ok(i))
    ensures var (after, flow) := SumStep(p, st, i); var j := BatchEnd(p, i, i + 1);
      && (flow.Continue? ==> flow.next == j) && after.curHost == st.curHost
      && forall k :: i <= k < j && p.objects[k].enabled ==> after.status[k] == Success
  {
    hide RecordAll, OverlayAll, NonEmpty, CacheAt;
  }

  lemma SumFails(p: Params, st: Exec, i: nat)
    requires i < |p.objects| == |st.status| && p.objects[i].enabled && !p.cancelled(i) && !(p.markOnly || p.ok(i))
    ensures var (after, flow) := SumStep(p, st, i); var j := BatchEnd(p, i, i + 1);
      && flow == Continue(j) && after.curHost == st.curHost && after.badHost && AllInOneRun(p, after.sent, i, j)
      && forall k :: i <= k < j && p.objects[k].enabled ==> after.status[k] == Failure
  {
    hide RecordAll, OverlayAll, NonEmpty, CacheAt;
    var after := SumStep(p, st, i).0;
    var r := after.sent[|st.sent|];
    assert r in after.sent && r.members == EnabledIn(p, i, BatchEnd(p, i, i + 1));
  }

  ghost predicate AllEnded(p: Params, after: Exec, i: nat, j: nat, s: ObjectStatus)
    requires j <= |p.objects| == |after.status|
  {
    forall k :: i <= k < j && p.objects[k].enabled ==> after.status[k] == s
  }

  /** A batch succeeds as a whole, or fails as a whole with the host marked bad. */
  lemma SumAllOrNothing(p: Params, st: Exec, i: nat)
    requires i < |p.objects| == |st.status| && p.objects[i].enabled && SumStep(p, st, i).1.Continue?
    ensures var (after, flow) := SumStep(p, st, i); var j := BatchEnd(p, i, i + 1);
      && flow.next == j && after.curHost == st.curHost
      && (AllEnded(p, after, i, j, Success) || (AllEnded(p, after, i, j, Failure) && after.badHost &&
           AllInOneRun(p, after.sent, i, j)))
  {
    NotCancelled(p, st, i);
    hide SumStep;
    if p.markOnly || p.ok(i) {
      SumSucceeds(p, st, i);
    } else {
      SumFails(p, st, i);
    }
  }

  lemma NotCancelled(p: Params, st: Exec, i: nat)
    requires i < |p.objects| == |st.status| && p.objects[i].enabled && SumStep(p, st, i).1.Continue?
    ensures !p.cancelled(i)
  {
  }

  lemma SumOutcome(p: Params, st: Exec, i: nat)
    requires i < |p.objects| == |st.status| && p.objects[i].enabled && KindOf(p, p.objects[i].typeId) == Some(Sum)
    requires st.curHost == p.objects[i].host && SumStep(p, st, i).1.Continue?
    ensures Outcome(p, false, st, SumStep(p, st, i).0, i, SumStep(p, st, i).1.next)
  {
    hide SumStep, SameRun, Consumed;
    SumConsumes(p, st, i);
    SumHosts(p, st, i);
    SumAllOrNothing(p, st, i);
  }

  lemma SingleOutcome(p: Params, st: Exec, i: nat)
    requires i < |p.objects| == |st.status| && p.objects[i].enabled && KindOf(p, p.objects[i].typeId) != Some(Sum)
    requires st.curHost == p.objects[i].host && SingleStep(p, st, i).1.Continue?
    ensures Outcome(p, false, st, SingleStep(p, st, i).0, i, SingleStep(p, st, i).1.next)
  {
    hide SetDeployment;
    SingleConsumes(p, st, i);
    var after := SingleStep(p, st, i).0;
    if SingleRun(p, i).Some? && !p.markOnly {
      var r := after.sent[|st.sent|];
      assert r in after.sent && r.members == [i] && i in r.members;
    }
  }

  lemma StepOutcome(p: Params, st: Exec, i: nat)
    requires i < |p.objects| == |st.status| && p.objects[i].enabled && Step(p, st, i).1.Continue?
    ensures Outcome(p, EnterHost(st, p.objects[i].host).badHost, st, Step(p, st, i).0, i, Step(p, st, i).1.next)
  {
    hide SumStep, SingleStep, CacheOf;
    var st1 := EnterHost(st, p.objects[i].host);
    if !st1.badHost && (p.markOnly || p.up(i)) {
      if KindOf(p, p.objects[i].typeId) == Some(Sum) {
        SumOutcome(p, st1, i);
      } else {
        SingleOutcome(p, st1, i);
      }
    }
  }

  lemma FatalKept(p: Params, st: Exec, after: Exec, i: nat, j: nat, runs: seq<Run>, b: nat)
    requires i < j <= |p.objects| == |st.status| == |after.status|
    requires Consumed(p, st.status, after.status, i, j) && after.sent == st.sent + runs
    requires forall r :: r in runs ==> RunOk(p, r) && r.members[0] == i
    requires b < i
    ensures Fatal(p, after, b) <==> Fatal(p, st, b)
    ensures WasSent(after.sent, b) <==> WasSent(st.sent, b)
    ensures forall k :: SameRun(st.sent, b, k) ==> SameRun(after.sent, b, k)
  {
    forall r | r in runs
      ensures b !in r.members
    {
      assert RunOk(p, r);
    }
    if WasSent(st.sent, b) {
      var r :| r in st.sent && b in r.members;
      assert r in after.sent;
    }
    forall k | SameRun(st.sent, b, k)
      ensures SameRun(after.sent, b, k)
    {
      var r :| r in st.sent && b in r.members && k in r.members;
      assert r in after.sent;
    }
  }

  lemma SentAreOlder(p: Params, st: Exec, i: nat, k: nat)
    requires i <= k < |p.objects| == |st.status| && HostKnown(p, st, i)
    ensures !WasSent(st.sent, k)
  {
  }

  lemma StepKeepsHostKnown(p: Params, st: Exec, i: nat)
    requires i < |p.objects| == |st.status| && p.objects[i].enabled && Step(p, st, i).1.Continue?
    requires HostsGrouped(p) && HostKnown(p, st, i)
    ensures HostKnown(p, Step(p, st, i).0, Step(p, st, i).1.next)
  {
    hide Step, RunOk, Fatal;
    var runs := StepSends(p, st, i);
    var (after, flow) := Step(p, st, i);
    var j, h := flow.next, p.objects[i].host;
    StepOutcome(p, st, i);
    forall b | 0 <= b < j && On(p, b, h) && Fatal(p, after, b)
      ensures after.badHost
    {
      if b < i {
        FatalKept(p, st, after, i, j, runs, b);
        assert st.curHost == h;
        assert st.badHost;
      }
    }
    forall b | 0 <= b < j && p.objects[b].enabled && p.objects[b].host != h
      ensures exists c :: b < c < j && On(p, c, h)
    {
      assert b < i < j && On(p, i, h);
    }
    forall r | r in after.sent
      ensures AllBelow(r.members, j)
    {
      if r in st.sent { assert AllBelow(r.members, i); }
    }
  }

  lemma StepKeepsSilence(p: Params, st: Exec, i: nat)
    requires i < |p.objects| == |st.status| && p.objects[i].enabled && Step(p, st, i).1.Continue?
    requires HostsGrouped(p) && HostKnown(p, st, i) && SilentAfterFatal(p, st, i)
    ensures SilentAfterFatal(p, Step(p, st, i).0, Step(p, st, i).1.next)
  {
    hide Step, RunOk, Fatal, WasSent, SameRun;
    var runs := StepSends(p, st, i);
    var (after, flow) := Step(p, st, i);
    var j := flow.next;
    StepOutcome(p, st, i);
    forall b, k | 0 <= b < k < j && On(p, b, p.objects[k].host) && p.objects[k].enabled
      && Fatal(p, after, b) && !SameRun(after.sent, b, k)
      ensures after.status[k] == Failure && !WasSent(after.sent, k)
    {
      if b < i {
        FatalKept(p, st, after, i, j, runs, b);
        if k < i {
          FatalKept(p, st, after, i, j, runs, k);
        } else {
          FatalBeforeMeansBad(p, st, i, b);
          assert k == i;
          SentAreOlder(p, st, i, i);
        }
      }
    }
  }

  lemma FatalBeforeMeansBad(p: Params, st: Exec, i: nat, b: nat)
    requires b < i < |p.objects| == |st.status| && HostsGrouped(p) && HostKnown(p, st, i)
    requires On(p, b, p.objects[i].host) && Fatal(p, st, b)
    ensures st.curHost == p.objects[i].host && st.badHost
  {
    assert forall c :: b < c < i ==> p.objects[c].host == p.objects[i].host;
  }

  lemma SkipKeeps(p: Params, st: Exec, i: nat)
    requires i < |p.objects| == |st.status| && !p.objects[i].enabled
    requires HostKnown(p, st, i) && SilentAfterFatal(p, st, i)
    ensures HostKnown(p, st, i + 1) && SilentAfterFatal(p, st, i + 1)
  {
    assert forall b :: 0 <= b < i && p.objects[b].enabled && p.objects[b].host != st.curHost
                       ==> exists c :: b < c < i && On(p, c, st.curHost);
    forall b | 0 <= b < i + 1 && p.objects[b].enabled && p.objects[b].host != st.curHost
      ensures exists c :: b < c < i + 1 && On(p, c, st.curHost)
    {
      var c :| b < c < i && On(p, c, st.curHost);
      assert c < i + 1;
    }
  }

  /** Over a whole run: once an object of a host has failed fatally, every later enabled
      object of that host fails too, and no script is sent for it. */
  lemma {:induction false} SilenceAfterFatal(p: Params, st: Exec, i: nat)
    requires i <= |p.objects| == |st.status| && HostsGrouped(p)
    requires HostKnown(p, st, i) && SilentAfterFatal(p, st, i)
    requires RunFrom(p, st, i).1 == Finished
    ensures SilentAfterFatal(p, RunFrom(p, st, i).0, |p.objects|)
    decreases |p.objects| - i
  {
    hide Step, HostKnown, SilentAfterFatal, HostsGrouped;
    if i < |p.objects| {
      var (next, flow) := Step(p, st, i);
      if p.objects[i].enabled {
        StepKeepsHostKnown(p, st, i);
        StepKeepsSilence(p, st, i);
      } else {
        SkipKeeps(p, st, i);
        SkipIsNoStep(p, st, i);
      }
      SilenceAfterFatal(p, next, flow.next);
    }
  }

  lemma SkipIsNoStep(p: Params, st: Exec, i: nat)
    requires i < |p.objects| == |st.status| && !p.objects[i].enabled
    ensures Step(p, st, i) == (st, Continue(i + 1))
  {
  }

  /** Every finished deployment, from its start. */
  lemma DeploymentStopsPerHost(p: Params, t: Table)
    requires HostsGrouped(p) && RunFrom(p, Initial(p, t), 0).1 == Finished
    ensures SilentAfterFatal(p, RunFrom(p, Initial(p, t), 0).0, |p.objects|)
  {
    SilenceAfterFatal(p, Initial(p, t), 0);
  }
}
