/** What `perform_deploy` does, as functions on the state of a run: one turn of its loop,
    and the whole loop. Which hosts are up, which scripts succeed and when the run is
    cancelled are inputs, indexed by the object at which they are asked for. */
module Execution {
  import opened Wrappers
  import opened DeployTypes

  datatype Params = Params(objects: seq<DeployObject>, kinds: map<int, Option<Kind>>, markOnly: bool,
                           up: nat -> bool, ok: nat -> bool, cancelled: nat -> bool)

  /** A script sent to a host, for the objects with the indices `members`. */
  datatype Run =
    | SumRun(host: int, script: string, members: seq<nat>, typeId: int, objects: map<string, Content>)
    | DeltaRun(host: int, script: string, members: seq<nat>, before: Option<Content>, after: Option<Content>)
    | TriggerRun(host: int, script: string, members: seq<nat>, input: Option<Content>)

  type Cache = map<int, map<string, Content>>

  datatype Exec = Exec(status: seq<ObjectStatus>, table: Table, cache: Cache, badHost: bool, curHost: int,
    sent: seq<Run>)

  datatype Flow = Continue(next: nat) | Cancel | Abort

  datatype End = Finished | Cancelled | Aborted

  function KindOf(p: Params, typeId: int): Option<Kind> {
    if typeId in p.kinds then p.kinds[typeId] else None
  }

  // ---------------------------------------------------------------- entering a host

  function TypesOf(t: Table, host: int): set<int> {
    set k | k in t && k.0 == host :: t[k].typeId
  }

  function ContentOf(row: Row): Content {
    match row.content.content
    case Some(c) => c
    case None => map[]
  }

  function TypeContents(t: Table, host: int, typeId: int): map<string, Content> {
    map k | k in t && k.0 == host && t[k].typeId == typeId :: k.1 := ContentOf(t[k])
  }

  /** The stored contents of a host, by type and name. */
  function CacheOf(t: Table, host: int): Cache {
    map typeId | typeId in TypesOf(t, host) :: TypeContents(t, host, typeId)
  }

  function CacheAt(cache: Cache, typeId: int): map<string, Content> {
    if typeId in cache then cache[typeId] else map[]
  }

  function EnterHost(st: Exec, host: int): Exec {
    if host == st.curHost then st
    else st.(badHost := false, curHost := host, cache := CacheOf(st.table, host))
  }

  // ---------------------------------------------------------------- batches of Sum objects

  predicate SameBatch(p: Params, i: nat, j: nat)
    requires i < |p.objects| && j < |p.objects|
  {
    var a, b := p.objects[i], p.objects[j];
    b.typeId == a.typeId && b.host == a.host && b.script == a.script
  }

  /** The first index from `j` on with an enabled object that does not belong to the batch of `i`. */
  function BatchEnd(p: Params, i: nat, j: nat): (e: nat)
    requires i < |p.objects| && j <= |p.objects|
    ensures j <= e <= |p.objects|
    decreases |p.objects| - j
  {
    if j == |p.objects| then j
    else if p.objects[j].enabled && !SameBatch(p, i, j) then j
    else BatchEnd(p, i, j + 1)
  }

  predicate AllBelow(members: seq<nat>, n: nat) {
    forall x :: 0 <= x < |members| ==> members[x] < n
  }

  /** The enabled indices from `i` up to `j`. */
  function EnabledIn(p: Params, i: nat, j: nat): (m: seq<nat>)
    requires i <= j <= |p.objects|
    ensures forall k :: k in m <==> i <= k < j && p.objects[k].enabled
    ensures AllBelow(m, j)
    decreases j - i
  {
    if i == j then [] else EnabledIn(p, i, j - 1) + if p.objects[j - 1].enabled then [j - 1] else []
  }

  function NonEmpty(m: map<string, Content>): map<string, Content> {
    map n | n in m && m[n] != map[] :: m[n]
  }

  /** One object of a batch changes what the host will have. */
  function Overlay(m: map<string, Content>, o: DeployObject): map<string, Content> {
    var without := if o.prevContent.Some? then m - {o.name} else m;
    if o.nextContent.Some? && o.nextContent.value != map[] then without[o.name := o.nextContent.value] else without
  }

  function OverlayAll(m: map<string, Content>, p: Params, members: seq<nat>): map<string, Content>
    requires AllBelow(members, |p.objects|)
  {
    if members == [] then m
    else Overlay(OverlayAll(m, p, members[..|members| - 1]), p.objects[members[|members| - 1]])
  }

  function MarkAll(status: seq<ObjectStatus>, members: seq<nat>, s: ObjectStatus): (r: seq<ObjectStatus>)
    requires AllBelow(members, |status|)
    ensures |r| == |status|
    ensures forall k :: 0 <= k < |status| ==> r[k] == if k in members then s else status[k]
  {
    if members == [] then status
    else MarkAll(status, members[..|members| - 1], s)[members[|members| - 1] := s]
  }

  /** `set_deployment` for each object in turn, up to the first error. */
  function RecordAll(t: Table, p: Params, members: seq<nat>): (Table, bool)
    requires AllBelow(members, |p.objects|)
  {
    if members == [] then (t, true)
    else
      var (u, ok) := RecordAll(t, p, members[..|members| - 1]);
      if !ok then (u, false)
      else
        match SetDeployment(u, p.objects[members[|members| - 1]])
        case Ok(v) => (v, true)
        case Err(_) => (u, false)
  }

  function SumStep(p: Params, st: Exec, i: nat): (r: (Exec, Flow))
    requires i < |p.objects| == |st.status| && p.objects[i].enabled
    ensures |r.0.status| == |st.status| && (r.1.Continue? ==> i < r.1.next <= |p.objects|)
  {
    var o := p.objects[i];
    var j := BatchEnd(p, i, i + 1);
    var members := EnabledIn(p, i, j);
    var next := OverlayAll(NonEmpty(CacheAt(st.cache, o.typeId)), p, members);
    var st1 := st.(cache := st.cache[o.typeId := next]);
    if p.cancelled(i) then (st1, Cancel)
    else
      var st2 := if p.markOnly then st1 else st1.(sent := st1.sent +
        [SumRun(o.host, o.script, members, o.typeId, next)]);
      if p.markOnly || p.ok(i) then
        var (t, ok) := RecordAll(st2.table, p, members);
        (st2.(status := MarkAll(st2.status, members, Success), table := t), if ok then Continue(j) else Abort)
      else (st2.(status := MarkAll(st2.status, members, Failure), badHost := true), Continue(j))
  }

  // ---------------------------------------------------------------- single objects

  /** The script run of an object that is not of kind Sum; none for kinds that are not handled. */
  function SingleRun(p: Params, i: nat): Option<Run>
    requires i < |p.objects|
  {
    var o := p.objects[i];
    match KindOf(p, o.typeId)
    case Some(Trigger) => Some(TriggerRun(o.host, o.script, [i], o.nextContent))
    case Some(Delta) => Some(DeltaRun(o.host, o.script, [i], o.prevContent, o.nextContent))
    case None => Some(DeltaRun(o.host, o.script, [i], o.prevContent, o.nextContent))
    case _ => None
  }

  predicate IsTrigger(p: Params, i: nat)
    requires i < |p.objects|
  {
    KindOf(p, p.objects[i].typeId) == Some(Trigger)
  }

  function SingleStep(p: Params, st: Exec, i: nat): (r: (Exec, Flow))
    requires i < |p.objects| == |st.status| && p.objects[i].enabled
    ensures |r.0.status| == |st.status| && (r.1.Continue? ==> r.1.next == i + 1)
  {
    var o := p.objects[i];
    if p.cancelled(i) then (st, Cancel)
    else
      var run := SingleRun(p, i);
      var st1 := st.(status := st.status[i := Deploying],
                     sent := if run.Some? && !p.markOnly then st.sent + [run.value] else st.sent);
      if run.None? || !(p.markOnly || p.ok(i)) then
        (st1.(status := st1.status[i := Failure], badHost := st1.badHost || !IsTrigger(p, i)), Continue(i + 1))
      else if IsTrigger(p, i) || KindOf(p, o.typeId).None? then
        (st1.(status := st1.status[i := Success]), Continue(i + 1))
      else
        match SetDeployment(st1.table, o)
        case Ok(t) => (st1.(status := st1.status[i := Success], table := t), Continue(i + 1))
        case Err(_) => (st1, Abort)
  }

  // ---------------------------------------------------------------- the loop

  /** An enabled object whose host is bad or down fails without a script. */
  function HostStep(p: Params, st: Exec, i: nat): (r: (Exec, Flow))
    requires i < |p.objects| == |st.status| && p.objects[i].enabled
    ensures |r.0.status| == |st.status| && (r.1.Continue? ==> i < r.1.next <= |p.objects|)
  {
    if st.badHost then (st.(status := st.status[i := Failure]), Continue(i + 1))
    else if !p.markOnly && !p.up(i) then (st.(status := st.status[i := Failure], badHost := true), Continue(i + 1))
    else if KindOf(p, p.objects[i].typeId) == Some(Sum) then SumStep(p, st, i)
    else SingleStep(p, st, i)
  }

  function Step(p: Params, st: Exec, i: nat): (r: (Exec, Flow))
    requires i < |p.objects| == |st.status|
    ensures |r.0.status| == |st.status|
    ensures r.1.Continue? ==> i < r.1.next <= |p.objects|
  {
    if !p.objects[i].enabled then (st, Continue(i + 1))
    else HostStep(p, EnterHost(st, p.objects[i].host), i)
  }

  function RunFrom(p: Params, st: Exec, i: nat): (r: (Exec, End))
    requires i <= |p.objects| == |st.status|
    ensures |r.0.status| == |st.status|
    decreases |p.objects| - i
  {
    if i == |p.objects| then (st, Finished)
    else
      var (next, flow) := Step(p, st, i);
      match flow
      case Continue(j) => RunFrom(p, next, j)
      case Cancel => (next, Cancelled)
      case Abort => (next, Aborted)
  }

  function Initial(p: Params, t: Table): Exec {
    Exec(seq(|p.objects|, k requires 0 <= k < |p.objects| => p.objects[k].status), t, map[], false, -1, [])
  }
}
