/** The statuses that a run announces one after another, and the statuses they add up to. */
module ExecutionMarks {
  import opened Wrappers
  import opened DeployTypes
  import opened Execution

  /** One section that sets the status of some objects. */
  datatype Mark = Mark(indices: seq<nat>, status: ObjectStatus)

  function ApplyMark(status: seq<ObjectStatus>, m: Mark): (r: seq<ObjectStatus>)
    ensures |r| == |status|
  {
    seq(|status|, k requires 0 <= k < |status| => if k in m.indices then m.status else status[k])
  }

  function ApplyMarks(status: seq<ObjectStatus>, marks: seq<Mark>): (r: seq<ObjectStatus>)
    ensures |r| == |status|
    decreases |marks|
  {
    if marks == [] then status else ApplyMarks(ApplyMark(status, marks[0]), marks[1..])
  }

  lemma {:induction false} ApplyConcat(status: seq<ObjectStatus>, a: seq<Mark>, b: seq<Mark>)
    ensures ApplyMarks(status, a + b) == ApplyMarks(ApplyMarks(status, a), b)
    decreases |a|
  {
    if a == [] {
      assert [] + b == b;
    } else {
      assert (a + b)[1..] == a[1..] + b;
      ApplyConcat(ApplyMark(status, a[0]), a[1..], b);
    }
  }

  lemma ApplyFew(status: seq<ObjectStatus>, a: Mark, b: Mark)
    ensures ApplyMarks(status, [a]) == ApplyMark(status, a)
    ensures ApplyMarks(status, [a, b]) == ApplyMark(ApplyMark(status, a), b)
  {
    hide ApplyMark;
    assert [a][1..] == [] && [b][1..] == [] && [a, b][1..] == [b];
    assert ApplyMarks(ApplyMark(status, a), []) == ApplyMark(status, a);
    var next := ApplyMark(status, a);
    assert ApplyMarks(next, [b]) == ApplyMarks(ApplyMark(next, b), []) == ApplyMark(next, b);
  }

  // ---------------------------------------------------------------- what is announced

  function SumMarks(p: Params, i: nat): seq<Mark>
    requires i < |p.objects|
  {
    if p.cancelled(i) then []
    else
      var members := EnabledIn(p, i, BatchEnd(p, i, i + 1));
      [Mark(members, Deploying), Mark(members, if p.markOnly || p.ok(i) then Success else Failure)]
  }

  /** The run of an object that cannot be recorded ends before its last status is announced. */
  function SingleMarks(p: Params, st: Exec, i: nat): seq<Mark>
    requires i < |p.objects|
  {
    var kind := KindOf(p, p.objects[i].typeId);
    var ok := SingleRun(p, i).Some? && (p.markOnly || p.ok(i));
    if p.cancelled(i) then []
    else if ok && kind.Some? && kind != Some(Trigger) &&
      SetDeployment(st.table, p.objects[i]).Err? then [Mark([i], Deploying)]
    else [Mark([i], Deploying), Mark([i], if ok then Success else Failure)]
  }

  function HostMarks(p: Params, st: Exec, i: nat): seq<Mark>
    requires i < |p.objects|
  {
    if st.badHost || (!p.markOnly && !p.up(i)) then [Mark([i], Failure)]
    else if KindOf(p, p.objects[i].typeId) == Some(Sum) then SumMarks(p, i)
    else SingleMarks(p, st, i)
  }

  function StepMarks(p: Params, st: Exec, i: nat): seq<Mark>
    requires i < |p.objects|
  {
    if p.objects[i].enabled then HostMarks(p, EnterHost(st, p.objects[i].host), i) else []
  }

  function RunMarks(p: Params, st: Exec, i: nat): seq<Mark>
    requires i <= |p.objects| == |st.status|
    decreases |p.objects| - i
  {
    if i == |p.objects| then []
    else
      var (next, flow) := Step(p, st, i);
      StepMarks(p, st, i) + if flow.Continue? then RunMarks(p, next, flow.next) else []
  }

  // ---------------------------------------------------------------- what it adds up to

  lemma SumMarksApply(p: Params, st: Exec, i: nat)
    requires i < |p.objects| == |st.status| && p.objects[i].enabled
    ensures ApplyMarks(st.status, SumMarks(p, i)) == SumStep(p, st, i).0.status
  {
    hide RecordAll, OverlayAll, NonEmpty, CacheAt, MarkAll, EnabledIn, BatchEnd, ApplyMarks;
    if p.cancelled(i) {
      assert ApplyMarks(st.status, []) == st.status by { NoMarks(st.status); }
    } else {
      var marks := SumMarks(p, i);
      ApplyFew(st.status, marks[0], marks[1]);
      assert marks == [marks[0], marks[1]];
    }
  }

  lemma NoMarks(status: seq<ObjectStatus>)
    ensures ApplyMarks(status, []) == status
  {
  }

  lemma SingleMarksApply(p: Params, st: Exec, i: nat)
    requires i < |p.objects| == |st.status| && p.objects[i].enabled
    ensures ApplyMarks(st.status, SingleMarks(p, st, i)) == SingleStep(p, st, i).0.status
  {
    hide SetDeployment, SingleRun, ApplyMarks;
    NoMarks(st.status);
    var first, good, bad := Mark([i], Deploying), Mark([i], Success), Mark([i], Failure);
    ApplyFew(st.status, first, good);
    ApplyFew(st.status, first, bad);
    assert forall s :: st.status[i := s] == ApplyMark(st.status, Mark([i], s));
    assert forall s :: st.status[i := Deploying][i := s] == ApplyMark(ApplyMark(st.status, first), Mark([i], s));
    TriggersRun(p, i);
  }

  lemma TriggersRun(p: Params, i: nat)
    requires i < |p.objects|
    ensures KindOf(p, p.objects[i].typeId) in {None, Some(Trigger)} ==> SingleRun(p, i).Some?
  {
  }

  /** The statuses after a step are what the step announces, also when it cuts the run off. */
  lemma StepMarksApply(p: Params, st: Exec, i: nat)
    requires i < |p.objects| == |st.status|
    ensures ApplyMarks(st.status, StepMarks(p, st, i)) == Step(p, st, i).0.status
  {
    hide SumStep, SingleStep, SumMarks, SingleMarks, CacheOf, ApplyMarks;
    NoMarks(st.status);
    if p.objects[i].enabled {
      var st1 := EnterHost(st, p.objects[i].host);
      ApplyFew(st.status, Mark([i], Failure), Mark([i], Failure));
      assert st.status[i := Failure] == ApplyMark(st.status, Mark([i], Failure));
      SumMarksApply(p, st1, i);
      SingleMarksApply(p, st1, i);
    }
  }

  /** Over a whole run, however it ends. */
  lemma {:induction false} RunMarksApply(p: Params, st: Exec, i: nat)
    requires i <= |p.objects| == |st.status|
    ensures ApplyMarks(st.status, RunMarks(p, st, i)) == RunFrom(p, st, i).0.status
    decreases |p.objects| - i
  {
    hide Step, StepMarks, ApplyMarks;
    if i == |p.objects| {
      NoMarks(st.status);
    } else {
      var (next, flow) := Step(p, st, i);
      StepMarksApply(p, st, i);
      var rest := if flow.Continue? then RunMarks(p, next, flow.next) else [];
      ApplyConcat(st.status, StepMarks(p, st, i), rest);
      if flow.Continue? {
        RunMarksApply(p, next, flow.next);
      } else {
        NoMarks(next.status);
      }
    }
  }

  ghost predicate AllInside(marks: seq<Mark>, n: nat) {
    forall k :: 0 <= k < |marks| ==> AllBelow(marks[k].indices, n)
  }

  lemma {:induction false} RunMarksInside(p: Params, st: Exec, i: nat)
    requires i <= |p.objects| == |st.status|
    ensures AllInside(RunMarks(p, st, i), |p.objects|)
    decreases |p.objects| - i
  {
    hide Step, EnabledIn, BatchEnd, EnterHost;
    if i < |p.objects| {
      var (next, flow) := Step(p, st, i);
      if flow.Continue? { RunMarksInside(p, next, flow.next); }
    }
  }
}
