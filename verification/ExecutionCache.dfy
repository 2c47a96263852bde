/** The in-memory copy of a host's stored contents agrees with the table throughout a run. */
module ExecutionCache {
  import opened Wrappers
  import opened DeployTypes
  import opened Execution
  import opened ExecutionTable

  /** From `i` on, every object that will be recorded fits the table. */
  ghost predicate RestFits(p: Params, t: Table, i: nat) {
    forall k :: i <= k < |p.objects| && Recorded(p, k) ==> Fits(t, p.objects[k])
  }

  ghost predicate OneBatch(p: Params, i: nat, j: nat, host: int, typeId: int) {
    i <= j <= |p.objects| && forall k :: i <= k < j && p.objects[k].enabled ==>
      Recorded(p, k) && p.objects[k].host == host && p.objects[k].typeId == typeId
  }

  lemma OverlayAllSnoc(c: map<string, Content>, p: Params, i: nat, j: nat)
    requires i < j <= |p.objects|
    ensures OverlayAll(c, p, EnabledIn(p, i, j)) ==
            var d := OverlayAll(c, p, EnabledIn(p, i, j - 1));
              if p.objects[j - 1].enabled then Overlay(d, p.objects[j - 1]) else d
  {
    hide Overlay, EnabledIn;
    EnabledSnoc(p, i, j);
    var m, full := EnabledIn(p, i, j - 1), EnabledIn(p, i, j);
    if p.objects[j - 1].enabled {
      assert full[..|full| - 1] == m && full[|full| - 1] == j - 1;
    } else {
      assert full == m;
    }
  }

  lemma OverlayAllNone(c: map<string, Content>, p: Params, i: nat)
    requires i <= |p.objects|
    ensures OverlayAll(c, p, EnabledIn(p, i, i)) == c
  {
  }

  /** What a recorded batch leaves in the table, for its own type and for all others. */
  ghost predicate BatchDone(p: Params, t: Table, u: Table, i: nat, j: nat, host: int, typeId: int)
    requires i <= j <= |p.objects|
  {
    && Stored(u, host, typeId) == OverlayAll(Stored(t, host, typeId), p, EnabledIn(p, i, j))
    && (forall h, ty :: h != host || ty != typeId ==> Stored(u, h, ty) == Stored(t, h, ty))
    && RestFits(p, u, j)
  }

  lemma SetKeepsRest(p: Params, t: Table, k: nat)
    requires k < |p.objects| && Recorded(p, k) && KeysDistinct(p) && RestFits(p, t, k)
    ensures RestFits(p, SetOr(t, p.objects[k]), k + 1)
  {
    hide Fits, SetOr;
    forall l | k + 1 <= l < |p.objects| && Recorded(p, l)
      ensures Fits(SetOr(t, p.objects[k]), p.objects[l])
    {
      assert Key(p, k) != Key(p, l);
      SetKeepsFit(t, p.objects[k], p.objects[l]);
    }
  }

  lemma {:induction false} BatchOverlay(p: Params, t: Table, i: nat, j: nat, host: int, typeId: int)
    requires OneBatch(p, i, j, host, typeId) && KeysDistinct(p) && RestFits(p, t, i)
    requires RecordAll(t, p, EnabledIn(p, i, j)).1
    ensures BatchDone(p, t, RecordAll(t, p, EnabledIn(p, i, j)).0, i, j, host, typeId)
    decreases j - i
  {
    hide RecordAll, OverlayAll, EnabledIn, Stored, SetOr, SetDeployment, Overlay, Fits, KeysDistinct;
    if i == j {
      RecordAllNone(t, p, i);
      OverlayAllNone(Stored(t, host, typeId), p, i);
    } else {
      RecordAllSnoc(t, p, i, j);
      BatchOverlay(p, t, i, j - 1, host, typeId);
      OverlayAllSnoc(Stored(t, host, typeId), p, i, j);
      var u := RecordAll(t, p, EnabledIn(p, i, j - 1)).0;
      var o := p.objects[j - 1];
      if o.enabled {
        assert Recorded(p, j - 1);
        assert Fits(u, o);
        SetIsOverlay(u, o);
        SetKeepsRest(p, u, j - 1);
        forall h, ty | h != host || ty != typeId
          ensures Stored(SetOr(u, o), h, ty) == Stored(t, h, ty)
        {
          SetKeepsOthers(u, o, h, ty);
        }
      }
    }
  }

  // ---------------------------------------------------------------- one step

  lemma CacheOfAgrees(p: Params, st: Exec, host: int)
    requires st.cache == CacheOf(st.table, host) && st.curHost == host
    ensures CacheAgrees(p, st)
  {
    forall typeId | KindOf(p, typeId) == Some(Sum)
      ensures NonEmpty(CacheAt(st.cache, typeId)) == Stored(st.table, host, typeId)
    {
      if typeId !in TypesOf(st.table, host) {
        assert TypeContents(st.table, host, typeId) == map[] by {
          forall k | k in st.table && k.0 == host
            ensures st.table[k].typeId != typeId
          {
            assert st.table[k].typeId in TypesOf(st.table, host);
          }
        }
      }
    }
  }

  lemma NonEmptyTwice(m: map<string, Content>)
    ensures NonEmpty(NonEmpty(m)) == NonEmpty(m)
  {
  }

  /** The invariant of the loop. */
  ghost predicate InStep(p: Params, st: Exec, i: nat) {
    (st.badHost || st.curHost == -1 || CacheAgrees(p, st)) && RestFits(p, st.table, i)
  }

  /** The contents that the batch at `i` is run with. */
  function BatchObjects(p: Params, st: Exec, i: nat): map<string, Content>
    requires i < |p.objects|
  {
    OverlayAll(NonEmpty(CacheAt(st.cache, p.objects[i].typeId)), p, EnabledIn(p, i, BatchEnd(p, i, i + 1)))
  }

  /** What is sent with a batch: the stored contents of its type with the batch applied; and
      when the batch succeeds, that is what is stored afterwards. */
  lemma SumSendsStored(p: Params, st: Exec, i: nat)
    requires i < |p.objects| == |st.status| && p.objects[i].enabled && KindOf(p, p.objects[i].typeId) == Some(Sum)
    requires CacheAgrees(p, st) && st.curHost == p.objects[i].host && RestFits(p, st.table, i) && KeysDistinct(p)
    ensures BatchObjects(p, st, i)
         == OverlayAll(Stored(st.table, p.objects[i].host, p.objects[i].typeId), p,
           EnabledIn(p, i, BatchEnd(p, i, i + 1)))
    ensures SumStep(p, st, i).1.Continue? ==>
              var after := SumStep(p, st, i).0;
              && InStep(p, after, BatchEnd(p, i, i + 1))
              && (!after.badHost && !st.badHost ==>
                   Stored(after.table, p.objects[i].host, p.objects[i].typeId) == BatchObjects(p, st, i))
  {
    hide RecordAll, OverlayAll, EnabledIn, Fits, KeysDistinct, Stored, NonEmpty, MarkAll;
    var o, j := p.objects[i], BatchEnd(p, i, i + 1);
    BatchRecorded(p, i);
    assert OneBatch(p, i, j, o.host, o.typeId);
    RestFitsLater(p, st.table, i, j);
    var (after, flow) := SumStep(p, st, i);
    if flow.Continue? && (p.markOnly || p.ok(i)) {
      BatchOverlay(p, st.table, i, j, o.host, o.typeId);
      StoredIsNonEmpty(after.table, o.host, o.typeId);
      forall typeId | KindOf(p, typeId) == Some(Sum)
        ensures NonEmpty(CacheAt(after.cache, typeId)) == Stored(after.table, after.curHost, typeId)
      {
        assert typeId != o.typeId ==> CacheAt(after.cache, typeId) == CacheAt(st.cache, typeId);
      }
    }
  }

  lemma StoredIsNonEmpty(t: Table, host: int, typeId: int)
    ensures NonEmpty(Stored(t, host, typeId)) == Stored(t, host, typeId)
  {
    NonEmptyTwice(TypeContents(t, host, typeId));
  }

  lemma RestFitsLater(p: Params, t: Table, i: nat, j: nat)
    requires RestFits(p, t, i) && i <= j
    ensures RestFits(p, t, j)
  {
  }

  lemma SingleKeepsCache(p: Params, st: Exec, i: nat)
    requires i < |p.objects| == |st.status| && p.objects[i].enabled && KindOf(p, p.objects[i].typeId) != Some(Sum)
    requires CacheAgrees(p, st) && RestFits(p, st.table, i) && KeysDistinct(p)
    requires SingleStep(p, st, i).1.Continue?
    ensures InStep(p, SingleStep(p, st, i).0, i + 1)
  {
    hide Fits, KeysDistinct, Stored, NonEmpty, RestFits;
    var after, o := SingleStep(p, st, i).0, p.objects[i];
    RestFitsLater(p, st.table, i, i + 1);
    if after.table != st.table {
      assert Recorded(p, i) && after.table == SetOr(st.table, o);
      SetKeepsRest(p, st.table, i);
      assert Fits(st.table, o) by { RestFitsHere(p, st.table, i); }
      forall typeId | KindOf(p, typeId) == Some(Sum)
        ensures NonEmpty(CacheAt(after.cache, typeId)) == Stored(after.table, after.curHost, typeId)
      {
        SetKeepsOthers(st.table, o, st.curHost, typeId);
      }
    }
  }

  lemma RestFitsHere(p: Params, t: Table, i: nat)
    requires RestFits(p, t, i) && i < |p.objects| && Recorded(p, i)
    ensures Fits(t, p.objects[i])
  {
  }

  lemma StepKeepsCache(p: Params, st: Exec, i: nat)
    requires i < |p.objects| == |st.status| && p.objects[i].host != -1
    requires InStep(p, st, i) && KeysDistinct(p) && Step(p, st, i).1.Continue?
    ensures InStep(p, Step(p, st, i).0, Step(p, st, i).1.next)
  {
    hide SumStep, SingleStep, RestFits, KeysDistinct, CacheAgrees;
    RestFitsLater(p, st.table, i, i + 1);
    var o := p.objects[i];
    if o.enabled {
      var st1 := EnterHost(st, o.host);
      if o.host != st.curHost { CacheOfAgrees(p, st1, o.host); }
      if !st1.badHost && (p.markOnly || p.up(i)) {
        if KindOf(p, o.typeId) == Some(Sum) {
          SumSendsStored(p, st1, i);
          SumNext(p, st1, i);
        } else {
          SingleKeepsCache(p, st1, i);
          SingleNext(p, st1, i);
        }
      }
    }
  }

  lemma SumNext(p: Params, st: Exec, i: nat)
    requires i < |p.objects| == |st.status| && p.objects[i].enabled && SumStep(p, st, i).1.Continue?
    ensures SumStep(p, st, i).1.next == BatchEnd(p, i, i + 1)
  {
  }

  lemma SingleNext(p: Params, st: Exec, i: nat)
    requires i < |p.objects| == |st.status| && p.objects[i].enabled && SingleStep(p, st, i).1.Continue?
    ensures SingleStep(p, st, i).1.next == i + 1
  {
  }

  // ---------------------------------------------------------------- the whole run

  /** The states at the head of the loop, with the index of the next object. */
  function Heads(p: Params, st: Exec, i: nat): seq<(Exec, nat)>
    requires i <= |p.objects| == |st.status|
    decreases |p.objects| - i
  {
    [(st, i)] +
    if i == |p.objects| then []
    else
      var (next, flow) := Step(p, st, i);
      if flow.Continue? then Heads(p, next, flow.next) else []
  }

  /** At every turn of the loop the cache agrees with the table. */
  lemma {:induction false} CacheAlwaysAgrees(p: Params, st: Exec, i: nat)
    requires i <= |p.objects| == |st.status| && InStep(p, st, i) && KeysDistinct(p)
    requires forall k :: 0 <= k < |p.objects| ==> p.objects[k].host != -1
    ensures forall x :: x in Heads(p, st, i) ==> InStep(p, x.0, x.1)
    decreases |p.objects| - i
  {
    hide Step, InStep, KeysDistinct;
    if i < |p.objects| {
      var (next, flow) := Step(p, st, i);
      if flow.Continue? {
        StepKeepsCache(p, st, i);
        CacheAlwaysAgrees(p, next, flow.next);
      }
    }
  }

  /** From the start of a deployment whose objects fit the table. */
  lemma DeploymentCacheAgrees(p: Params, t: Table)
    requires RestFits(p, t, 0) && KeysDistinct(p)
    requires forall k :: 0 <= k < |p.objects| ==> p.objects[k].host != -1
    ensures forall x :: x in Heads(p, Initial(p, t), 0) ==> InStep(p, x.0, x.1)
  {
    CacheAlwaysAgrees(p, Initial(p, t), 0);
  }
}
