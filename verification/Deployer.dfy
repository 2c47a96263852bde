/** `perform_deploy` in its own form: one loop with a peekable iterator over the objects,
    proved to do what `Execution.RunFrom` says. */
module Deployer {
  import opened Wrappers
  import opened DeployTypes
  import opened Execution
  import opened ExecutionMarks
  import opened ExecutionTable

  class Deployer {
    /** The statuses of the deployment's objects. */
    var status: seq<ObjectStatus>
    /** The table of deployments. */
    var table: Table
    var hostObjects: Cache
    var badHost: bool
    var curHost: int
    /** The scripts sent to hosts. */
    var sent: seq<Run>
    /** The statuses announced to the clients, section by section. */
    var marks: seq<Mark>

    function State(): Exec
      reads this
    {
      Exec(status, table, hostObjects, badHost, curHost, sent)
    }

    constructor (p: Params, t: Table)
      ensures State() == Initial(p, t) && marks == []
    {
      status := seq(|p.objects|, k requires 0 <= k < |p.objects| => p.objects[k].status);
      table, hostObjects, badHost, curHost, sent, marks := t, map[], false, -1, [], [];
    }

    /** The rows of a host, one after another, into the map of stored contents. */
    method LoadHost(host: int)
      modifies this`hostObjects
      ensures hostObjects == CacheOf(table, host)
    {
      hide CacheOf, TypeContents;
      hostObjects := map[];
      NoRowsNoCache(host);
      var todo := set k | k in table && k.0 == host;
      ghost var done: Table := map[];
      while todo != {}
        invariant forall k :: k in done <==> k in table && k.0 == host && k !in todo
        invariant forall k :: k in done ==> done[k] == table[k]
        invariant forall k :: k in todo ==> k in table && k.0 == host
        invariant hostObjects == CacheOf(done, host)
      {
        var k :| k in todo;
        var row := table[k];
        var entry := if row.typeId in hostObjects then hostObjects[row.typeId] else map[];
        assert entry == CacheAt(hostObjects, row.typeId);
        CacheOfInsert(done, k, row, entry);
        hostObjects := hostObjects[row.typeId := entry[k.1 := ContentOf(row)]];
        done := done[k := row];
        todo := todo - {k};
      }
      CacheOfHostOnly(table, done, host);
    }

    /** Takes the batch of the object at `i` off the iterator. */
    method CollectBatch(p: Params, i: nat) returns (members: seq<nat>, j: nat)
      requires i < |p.objects| && p.objects[i].enabled
      ensures j == BatchEnd(p, i, i + 1) && members == EnabledIn(p, i, j)
    {
      hide BatchEnd, EnabledIn;
      members, j := [i], i + 1;
      EnabledSnoc(p, i, i + 1);
      EnabledNone(p, i);
      while j < |p.objects|
        invariant i < j <= |p.objects| && members == EnabledIn(p, i, j)
        invariant BatchEnd(p, i, j) == BatchEnd(p, i, i + 1)
      {
        BatchEndStep(p, i, j);
        EnabledSnoc(p, i, j + 1);
        if p.objects[j].enabled {
          if p.objects[j].typeId != p.objects[i].typeId || p.objects[j].host != p.objects[i].host ||
            p.objects[j].script != p.objects[i].script {
            return;
          }
          members := members + [j];
        }
        j := j + 1;
      }
      BatchEndAtEnd(p, i);
    }

    method OverlayBatch(p: Params, members: seq<nat>, start: map<string, Content>) returns (next: map<string, Content>)
      requires AllBelow(members, |p.objects|)
      ensures next == OverlayAll(start, p, members)
    {
      next := start;
      for k := 0 to |members|
        invariant next == OverlayAll(start, p, members[..k])
      {
        var o := p.objects[members[k]];
        assert members[..k + 1][..k] == members[..k];
        if o.prevContent.Some? {
          next := next - {o.name};
        }
        if o.nextContent.Some? && o.nextContent.value != map[] {
          next := next[o.name := o.nextContent.value];
        }
      }
      assert members[..|members|] == members;
    }

    method SetStatuses(members: seq<nat>, s: ObjectStatus)
      requires AllBelow(members, |status|)
      modifies this`status, this`marks
      ensures status == MarkAll(old(status), members, s) && marks == old(marks) + [Mark(members, s)]
    {
      for k := 0 to |members|
        invariant |status| == |old(status)| && status == MarkAll(old(status), members[..k], s)
        invariant marks == old(marks)
      {
        assert members[..k + 1][..k] == members[..k];
        status := status[members[k] := s];
      }
      assert members[..|members|] == members;
      marks := marks + [Mark(members, s)];
    }

    method SetStatus(i: nat, s: ObjectStatus)
      requires i < |status|
      modifies this`status, this`marks
      ensures status == old(status)[i := s] && marks == old(marks) + [Mark([i], s)]
    {
      status := status[i := s];
      marks := marks + [Mark([i], s)];
    }

    method RecordBatch(p: Params, members: seq<nat>) returns (ok: bool)
      requires AllBelow(members, |p.objects|)
      modifies this`table
      ensures (table, ok) == RecordAll(old(table), p, members)
    {
      for k := 0 to |members|
        invariant (table, true) == RecordAll(old(table), p, members[..k])
      {
        assert members[..k + 1][..k] == members[..k];
        match SetDeployment(table, p.objects[members[k]]) {
          case Ok(t) => table := t;
          case Err(_) =>
            RecordAllFails(old(table), p, members, k + 1);
            return false;
        }
      }
      assert members[..|members|] == members;
      ok := true;
    }

    /** A batch of Sum objects. */
    method DeploySum(p: Params, i: nat) returns (flow: Flow)
      requires i < |p.objects| == |status| && p.objects[i].enabled
      modifies this
      ensures (State(), flow) == SumStep(p, old(State()), i)
      ensures marks == old(marks) + SumMarks(p, i)
    {
      hide OverlayAll, NonEmpty, MarkAll, RecordAll, EnabledIn, BatchEnd;
      var o := p.objects[i];
      var members, j := CollectBatch(p, i);
      var start := NonEmpty(if o.typeId in hostObjects then hostObjects[o.typeId] else map[]);
      var next := OverlayBatch(p, members, start);
      hostObjects := hostObjects[o.typeId := next];
      if p.cancelled(i) {
        return Cancel;
      }
      SetStatuses(members, Deploying);
      MarkTwice(old(status), members, Deploying);
      if !p.markOnly {
        sent := sent + [SumRun(o.host, o.script, members, o.typeId, next)];
      }
      if p.markOnly || p.ok(i) {
        SetStatuses(members, Success);
        var ok := RecordBatch(p, members);
        flow := if ok then Continue(j) else Abort;
      } else {
        SetStatuses(members, Failure);
        badHost := true;
        flow := Continue(j);
      }
    }

    /** An object of any other kind. */
    method DeploySingle(p: Params, i: nat) returns (flow: Flow)
      requires i < |p.objects| == |status| && p.objects[i].enabled
      requires KindOf(p, p.objects[i].typeId) != Some(Sum)
      modifies this
      ensures (State(), flow) == SingleStep(p, old(State()), i)
      ensures marks == old(marks) + SingleMarks(p, old(State()), i)
    {
      var o := p.objects[i];
      var kind := KindOf(p, o.typeId);
      if p.cancelled(i) {
        return Cancel;
      }
      SetStatus(i, Deploying);
      var ok;
      if kind == Some(Trigger) {
        ok := p.markOnly || p.ok(i);
        if !p.markOnly { sent := sent + [TriggerRun(o.host, o.script, [i], o.nextContent)]; }
      } else if kind == None || kind == Some(Delta) {
        ok := p.markOnly || p.ok(i);
        if !p.markOnly { sent := sent + [DeltaRun(o.host, o.script, [i], o.prevContent, o.nextContent)]; }
      } else {
        ok := false;
      }
      if !ok {
        if kind != Some(Trigger) {
          badHost := true;
        }
      } else if kind != Some(Trigger) && kind.Some? {
        match SetDeployment(table, o) {
          case Ok(t) => table := t;
          case Err(_) => return Abort;
        }
      }
      SetStatus(i, if ok then Success else Failure);
      flow := Continue(i + 1);
    }

    /** What is done with an enabled object. */
    method DeployObject(p: Params, i: nat) returns (flow: Flow)
      requires i < |p.objects| == |status| && p.objects[i].enabled
      modifies this
      ensures (State(), flow) == Step(p, old(State()), i)
      ensures marks == old(marks) + StepMarks(p, old(State()), i)
    {
      hide SumStep, SingleStep, SumMarks, SingleMarks, CacheOf;
      var o := p.objects[i];
      if o.host != curHost {
        badHost := false;
        curHost := o.host;
        LoadHost(o.host);
      }
      if badHost {
        SetStatus(i, Failure);
        return Continue(i + 1);
      }
      if !p.markOnly && !p.up(i) {
        badHost := true;
        SetStatus(i, Failure);
        return Continue(i + 1);
      }
      if KindOf(p, o.typeId) == Some(Sum) {
        flow := DeploySum(p, i);
      } else {
        flow := DeploySingle(p, i);
      }
    }

    /** The deployment: `start`, or `mark_deployed` when nothing is to be sent. */
    method PerformDeploy(p: Params) returns (end: End)
      requires State() == Initial(p, table)
      modifies this
      ensures (State(), end) == RunFrom(p, Initial(p, old(table)), 0)
      ensures marks == old(marks) + RunMarks(p, Initial(p, old(table)), 0)
    {
      hide Step, StepMarks;
      ghost var start := Initial(p, old(table));
      var i := 0;
      while i < |p.objects|
        invariant i <= |p.objects| == |status|
        invariant RunFrom(p, State(), i) == RunFrom(p, start, 0)
        invariant marks + RunMarks(p, State(), i) == old(marks) + RunMarks(p, start, 0)
      {
        if !p.objects[i].enabled {
          SkipDisabled(p, State(), i);
          i := i + 1;
          continue;
        }
        var flow := DeployObject(p, i);
        match flow {
          case Continue(j) => i := j;
          case Cancel => return Cancelled;
          case Abort => return Aborted;
        }
      }
      end := Finished;
    }
  }

  lemma SkipDisabled(p: Params, st: Exec, i: nat)
    requires i < |p.objects| == |st.status| && !p.objects[i].enabled
    ensures RunFrom(p, st, i) == RunFrom(p, st, i + 1) && RunMarks(p, st, i) == RunMarks(p, st, i + 1)
  {
    assert [] + RunMarks(p, st, i + 1) == RunMarks(p, st, i + 1);
  }

  lemma MarkTwice(status: seq<ObjectStatus>, members: seq<nat>, first: ObjectStatus)
    requires AllBelow(members, |status|)
    ensures forall s :: MarkAll(MarkAll(status, members, first), members, s) == MarkAll(status, members, s)
  {
  }

  lemma {:induction false} RecordAllFails(t: Table, p: Params, members: seq<nat>, k: nat)
    requires k <= |members| && AllBelow(members, |p.objects|) && !RecordAll(t, p, members[..k]).1
    ensures RecordAll(t, p, members) == RecordAll(t, p, members[..k])
    decreases |members| - k
  {
    if k < |members| {
      assert members[..k + 1][..k] == members[..k];
      RecordAllFails(t, p, members, k + 1);
    } else {
      assert members[..k] == members;
    }
  }

  lemma BatchEndStep(p: Params, i: nat, j: nat)
    requires i < |p.objects| && j < |p.objects|
    ensures BatchEnd(p, i, j) == if p.objects[j].enabled && !SameBatch(p, i, j) then j else BatchEnd(p, i, j + 1)
  {
  }

  lemma BatchEndAtEnd(p: Params, i: nat)
    requires i < |p.objects|
    ensures BatchEnd(p, i, |p.objects|) == |p.objects|
  {
  }

  lemma EnabledNone(p: Params, i: nat)
    requires i <= |p.objects|
    ensures EnabledIn(p, i, i) == []
  {
  }

  lemma NoRowsNoCache(host: int)
    ensures CacheOf(map[], host) == map[]
  {
  }

  lemma CacheOfHostOnly(t: Table, u: Table, host: int)
    requires forall k :: k in u <==> k in t && k.0 == host
    requires forall k :: k in u ==> u[k] == t[k]
    ensures CacheOf(u, host) == CacheOf(t, host)
  {
    assert TypesOf(u, host) == TypesOf(t, host);
    forall typeId | typeId in TypesOf(t, host)
      ensures TypeContents(u, host, typeId) == TypeContents(t, host, typeId)
    {
    }
  }

  lemma CacheOfInsert(t: Table, k: (int, string), row: Row, entry: map<string, Content>)
    requires k !in t
    requires entry == CacheAt(CacheOf(t, k.0), row.typeId)
    ensures CacheOf(t[k := row], k.0) == CacheOf(t, k.0)[row.typeId := entry[k.1 := ContentOf(row)]]
  {
    hide TypesOf, TypeContents;
    var a, b := CacheOf(t[k := row], k.0), CacheOf(t, k.0)[row.typeId := entry[k.1 := ContentOf(row)]];
    forall typeId: int
      ensures typeId in a <==> typeId in b
      ensures typeId in a ==> a[typeId] == b[typeId]
    {
      CacheOfInsertAt(t, k, row, entry, typeId);
    }
    assert a.Keys == b.Keys;
  }

  lemma CacheOfInsertAt(t: Table, k: (int, string), row: Row, entry: map<string, Content>, typeId: int)
    requires k !in t
    requires entry == CacheAt(CacheOf(t, k.0), row.typeId)
    ensures var a, b := CacheOf(t[k := row], k.0), CacheOf(t, k.0)[row.typeId := entry[k.1 := ContentOf(row)]];
      (typeId in a <==> typeId in b) && (typeId in a ==> a[typeId] == b[typeId])
  {
    if row.typeId !in TypesOf(t, k.0) { NoContents(t, k.0, row.typeId); }
    hide TypesOf, TypeContents, ContentOf;
    TypesOfInsert(t, k, row);
    TypeContentsInsert(t, k, row, typeId);
  }

  lemma TypesOfInsert(t: Table, k: (int, string), row: Row)
    requires k !in t
    ensures TypesOf(t[k := row], k.0) == TypesOf(t, k.0) + {row.typeId}
  {
    var u := t[k := row];
    assert u[k].typeId == row.typeId;
    assert forall x :: x in t && x.0 == k.0 ==> x in u && u[x].typeId == t[x].typeId;
  }

  lemma TypeContentsInsert(t: Table, k: (int, string), row: Row, typeId: int)
    requires k !in t
    ensures TypeContents(t[k := row], k.0, typeId) ==
            var c := TypeContents(t, k.0, typeId); if typeId == row.typeId then c[k.1 := ContentOf(row)] else c
  {
    var a := TypeContents(t[k := row], k.0, typeId);
    var c := TypeContents(t, k.0, typeId);
    var b := if typeId == row.typeId then c[k.1 := ContentOf(row)] else c;
    forall n: string
      ensures n in a <==> n in b
      ensures n in a ==> a[n] == b[n]
    {
      assert n in a <==> (k.0, n) in t[k := row] && t[k := row][(k.0, n)].typeId == typeId;
      assert n in c <==> (k.0, n) in t && t[(k.0, n)].typeId == typeId;
      assert n == k.1 <==> (k.0, n) == k;
    }
    assert a.Keys == b.Keys;
  }

  lemma NoContents(t: Table, host: int, typeId: int)
    requires typeId !in TypesOf(t, host)
    ensures TypeContents(t, host, typeId) == map[]
  {
    forall k | k in t && k.0 == host
      ensures t[k].typeId != typeId
    {
      assert t[k].typeId in TypesOf(t, host);
    }
  }
}