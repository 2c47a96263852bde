/** What a run writes to the table of deployments, and why the contents sent with a batch
    of Sum objects are the stored ones with the batch applied. */
module ExecutionTable {
  import opened Wrappers
  import opened DeployTypes
  import opened Execution
  import opened ExecutionOrder

  /** Objects whose success is written to the table. */
  predicate Recorded(p: Params, k: nat)
    requires k < |p.objects|
  {
    p.objects[k].enabled && KindOf(p, p.objects[k].typeId) in {Some(Sum), Some(Delta)}
  }

  function SetOr(t: Table, o: DeployObject): Table {
    match SetDeployment(t, o)
    case Ok(u) => u
    case Err(_) => t
  }

  /** The table after the successes among the objects from `i` up to `j`. */
  function RecordRange(p: Params, status: seq<ObjectStatus>, t: Table, i: nat, j: nat): Table
    requires i <= j <= |p.objects| == |status|
    decreases j - i
  {
    if i == j then t
    else
      var u := RecordRange(p, status, t, i, j - 1);
      if Recorded(p, j - 1) && status[j - 1] == Success then SetOr(u, p.objects[j - 1]) else u
  }

  lemma {:induction false} RecordRangeSplits(p: Params, status: seq<ObjectStatus>, t: Table, i: nat, m: nat, j: nat)
    requires i <= m <= j <= |p.objects| == |status|
    ensures RecordRange(p, status, t, i, j) == RecordRange(p, status, RecordRange(p, status, t, i, m), m, j)
    decreases j - m
  {
    if m < j {
      RecordRangeSplits(p, status, t, i, m, j - 1);
    }
  }

  lemma {:induction false} RecordRangeStatus(p: Params, s1: seq<ObjectStatus>, s2: seq<ObjectStatus>, t: Table, i: nat,
                                             j: nat)
    requires i <= j <= |p.objects| == |s1| == |s2|
    requires forall k :: i <= k < j && p.objects[k].enabled ==> s1[k] == s2[k]
    ensures RecordRange(p, s1, t, i, j) == RecordRange(p, s2, t, i, j)
    decreases j - i
  {
    if i < j {
      RecordRangeStatus(p, s1, s2, t, i, j - 1);
    }
  }

  lemma {:induction false} RecordNone(p: Params, status: seq<ObjectStatus>, t: Table, i: nat, j: nat)
    requires i <= j <= |p.objects| == |status|
    requires forall k :: i <= k < j && p.objects[k].enabled ==> status[k] != Success
    ensures RecordRange(p, status, t, i, j) == t
    decreases j - i
  {
    if i < j {
      RecordNone(p, status, t, i, j - 1);
    }
  }

  lemma RecordAllNone(t: Table, p: Params, i: nat)
    requires i <= |p.objects|
    ensures RecordAll(t, p, EnabledIn(p, i, i)) == (t, true)
  {
  }

  lemma EnabledSnoc(p: Params, i: nat, j: nat)
    requires i < j <= |p.objects|
    ensures EnabledIn(p, i, j) == EnabledIn(p, i, j - 1) + if p.objects[j - 1].enabled then [j - 1] else []
  {
  }

  lemma RecordAllPush(t: Table, p: Params, m: seq<nat>, k: nat)
    requires AllBelow(m, |p.objects|) && k < |p.objects|
    ensures AllBelow(m + [k], |p.objects|)
    ensures RecordAll(t, p, m + [k]).1 ==> RecordAll(t, p, m).1 && SetDeployment(RecordAll(t, p, m).0, p.objects[k]).Ok?
    ensures RecordAll(t, p, m + [k]).1 ==> RecordAll(t, p, m + [k]).0 == SetOr(RecordAll(t, p, m).0, p.objects[k])
  {
    hide SetDeployment;
    var more := m + [k];
    assert more[..|more| - 1] == m && more[|more| - 1] == k;
  }

  /** A batch that is recorded to its end is recorded up to any point of it. */
  lemma RecordAllSnoc(t: Table, p: Params, i: nat, j: nat)
    requires i < j <= |p.objects| && RecordAll(t, p, EnabledIn(p, i, j)).1
    ensures var (u, ok) := RecordAll(t, p, EnabledIn(p, i, j - 1));
      && ok && (p.objects[j - 1].enabled ==> SetDeployment(u, p.objects[j - 1]).Ok?)
      && RecordAll(t, p, EnabledIn(p, i, j)).0 == if p.objects[j - 1].enabled then SetOr(u, p.objects[j - 1]) else u
  {
    hide SetDeployment, RecordAll, EnabledIn, SetOr;
    EnabledSnoc(p, i, j);
    if p.objects[j - 1].enabled {
      RecordAllPush(t, p, EnabledIn(p, i, j - 1), j - 1);
    } else {
      assert EnabledIn(p, i, j) == EnabledIn(p, i, j - 1);
    }
  }

  lemma {:induction false} RecordBatch(p: Params, status: seq<ObjectStatus>, t: Table, i: nat, j: nat)
    requires i <= j <= |p.objects| == |status|
    requires forall k :: i <= k < j && p.objects[k].enabled ==> Recorded(p, k) && status[k] == Success
    requires RecordAll(t, p, EnabledIn(p, i, j)).1
    ensures RecordAll(t, p, EnabledIn(p, i, j)).0 == RecordRange(p, status, t, i, j)
    decreases j - i
  {
    hide RecordAll, EnabledIn, SetOr;
    RecordAllNone(t, p, i);
    if i < j {
      RecordAllSnoc(t, p, i, j);
      RecordBatch(p, status, t, i, j - 1);
    }
  }

  lemma BatchRecorded(p: Params, i: nat)
    requires i < |p.objects| && p.objects[i].enabled && KindOf(p, p.objects[i].typeId) == Some(Sum)
    ensures forall k :: i <= k < BatchEnd(p, i, i + 1) && p.objects[k].enabled ==>
              Recorded(p, k) && p.objects[k].typeId == p.objects[i].typeId && p.objects[k].host == p.objects[i].host
  {
    BatchEndIs(p, i, i + 1);
    forall k | i <= k < BatchEnd(p, i, i + 1) && p.objects[k].enabled
      ensures SameBatch(p, i, k)
    {
      assert InBatch(p, i, k);
    }
  }

  lemma SumTable(p: Params, st: Exec, i: nat)
    requires i < |p.objects| == |st.status| && p.objects[i].enabled && KindOf(p, p.objects[i].typeId) == Some(Sum)
    requires SumStep(p, st, i).1.Continue?
    ensures var (after, flow) := SumStep(p, st, i); after.table == RecordRange(p, after.status, st.table, i, flow.next)
  {
    hide OverlayAll, NonEmpty, CacheAt, MarkAll, EnabledIn, RecordRange;
    var j := BatchEnd(p, i, i + 1);
    BatchRecorded(p, i);
    var after := SumStep(p, st, i).0;
    if p.markOnly || p.ok(i) {
      RecordBatch(p, after.status, st.table, i, j);
    } else {
      RecordNone(p, after.status, st.table, i, j);
    }
  }

  lemma StepTable(p: Params, st: Exec, i: nat)
    requires i < |p.objects| == |st.status| && Step(p, st, i).1.Continue?
    ensures var (after, flow) := Step(p, st, i); after.table == RecordRange(p, after.status, st.table, i, flow.next)
  {
    hide SumStep, CacheOf;
    var st1 := EnterHost(st, p.objects[i].host);
    assert forall s: seq<ObjectStatus>, t :: |s| == |p.objects| ==> RecordRange(p, s, t, i, i) == t;
    if p.objects[i].enabled && !st1.badHost && (p.markOnly || p.up(i)) && KindOf(p, p.objects[i].typeId) == Some(Sum) {
      SumTable(p, st1, i);
    }
  }

  /** The table ends up with every success recorded, in order, and nothing else. */
  lemma {:induction false} RunRecordsSuccesses(p: Params, st: Exec, i: nat)
    requires i <= |p.objects| == |st.status| && RunFrom(p, st, i).1 == Finished
    ensures var after := RunFrom(p, st, i).0; after.table == RecordRange(p, after.status, st.table, i, |p.objects|)
    decreases |p.objects| - i
  {
    hide Step;
    if i < |p.objects| {
      var (next, flow) := Step(p, st, i);
      var j := flow.next;
      StepTable(p, st, i);
      RunRecordsSuccesses(p, next, j);
      RunConsumesAll(p, next, j);
      var after := RunFrom(p, st, i).0;
      assert after == RunFrom(p, next, j).0;
      RecordRangeStatus(p, next.status, after.status, st.table, i, j);
      RecordRangeSplits(p, after.status, st.table, i, j, |p.objects|);
    }
  }

  // ---------------------------------------------------------------- the cache of stored contents

  /** The stored contents of a type on a host that are not empty. */
  function Stored(t: Table, host: int, typeId: int): map<string, Content> {
    NonEmpty(TypeContents(t, host, typeId))
  }

  ghost predicate CacheAgrees(p: Params, st: Exec) {
    forall typeId :: KindOf(p, typeId) == Some(Sum) ==>
      NonEmpty(CacheAt(st.cache, typeId)) == Stored(st.table, st.curHost, typeId)
  }

  function Key(p: Params, k: nat): (int, string)
    requires k < |p.objects|
  {
    (p.objects[k].host, p.objects[k].name)
  }

  /** The object and the row of its name go together: a name keeps its type, content that is
      not empty is removed only by an object that knows of it, and contents are not empty. */
  ghost predicate Fits(t: Table, o: DeployObject) {
    && ((o.host, o.name) in t ==> t[(o.host, o.name)].typeId == o.typeId)
    && (o.nextContent.None? && (o.host, o.name) in t && ContentOf(t[(o.host, o.name)]) != map[] ==> o.prevContent.Some?)
    && (o.nextContent.Some? ==> o.nextContent.value != map[])
  }

  /** No name is recorded twice on one host. */
  ghost predicate KeysDistinct(p: Params) {
    forall a, b :: 0 <= a < b < |p.objects| && Recorded(p, a) && Recorded(p, b) ==> Key(p, a) != Key(p, b)
  }

  lemma StoredHas(t: Table, host: int, typeId: int, n: string)
    ensures n in Stored(t, host, typeId) <==>
              (host, n) in t && t[(host, n)].typeId == typeId && ContentOf(t[(host, n)]) != map[]
    ensures n in Stored(t, host, typeId) ==> Stored(t, host, typeId)[n] == ContentOf(t[(host, n)])
  {
  }

  /** Recording one object does to the stored contents of its type what the batch does to
      the cache. */
  lemma SetIsOverlay(t: Table, o: DeployObject)
    requires Fits(t, o) && SetDeployment(t, o).Ok?
    ensures Stored(SetOr(t, o), o.host, o.typeId) == Overlay(Stored(t, o.host, o.typeId), o)
  {
    var a, b := Stored(SetOr(t, o), o.host, o.typeId), Overlay(Stored(t, o.host, o.typeId), o);
    forall n: string
      ensures n in a <==> n in b
      ensures n in a ==> a[n] == b[n]
    {
      SetIsOverlayAt(t, o, n);
    }
    assert a.Keys == b.Keys;
  }

  lemma OverlayHas(m: map<string, Content>, o: DeployObject, n: string)
    ensures n != o.name ==> (n in Overlay(m, o) <==> n in m) && (n in m ==> Overlay(m, o)[n] == m[n])
    ensures o.nextContent.Some? && o.nextContent.value != map[] ==>
      o.name in Overlay(m, o) && Overlay(m, o)[o.name] == o.nextContent.value
    ensures o.nextContent.None? ==> (o.name in Overlay(m, o) <==> o.name in m && o.prevContent.None?)
  {
  }

  lemma SetIsOverlayAt(t: Table, o: DeployObject, n: string)
    requires Fits(t, o) && SetDeployment(t, o).Ok?
    ensures var a, b := Stored(SetOr(t, o), o.host, o.typeId), Overlay(Stored(t, o.host, o.typeId), o);
      (n in a <==> n in b) && (n in a ==> a[n] == b[n])
  {
    hide Overlay, Stored;
    StoredHas(SetOr(t, o), o.host, o.typeId, n);
    StoredHas(t, o.host, o.typeId, n);
    OverlayHas(Stored(t, o.host, o.typeId), o, n);
  }

  /** ... and nothing to any other type, or any other host. */
  lemma SetKeepsOthers(t: Table, o: DeployObject, host: int, typeId: int)
    requires Fits(t, o) && (host != o.host || typeId != o.typeId)
    ensures Stored(SetOr(t, o), host, typeId) == Stored(t, host, typeId)
  {
    hide Stored;
    var u := SetOr(t, o);
    var a, b := Stored(u, host, typeId), Stored(t, host, typeId);
    forall n: string
      ensures n in a <==> n in b
      ensures n in a ==> a[n] == b[n]
    {
      StoredHas(u, host, typeId, n);
      StoredHas(t, host, typeId, n);
    }
    assert a.Keys == b.Keys;
  }

  lemma SetKeepsFit(t: Table, o: DeployObject, other: DeployObject)
    requires Fits(t, other) && (o.host, o.name) != (other.host, other.name)
    ensures Fits(SetOr(t, o), other)
  {
  }
}
