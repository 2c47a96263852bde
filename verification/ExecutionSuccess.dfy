/** When an object of a run succeeds, and when it is in a script that is sent: exactly unless its host
    was bad or down, its type is not handled, or its script fails. */
module ExecutionSuccess {
  import opened Wrappers
  import opened DeployTypes
  import opened Execution
  import opened ExecutionOrder
  import opened ExecutionFailures

  /** Objects of these kinds, and those whose type has no kind, have a script to run. */
  ghost predicate Handled(p: Params, k: nat)
    requires k < |p.objects|
  {
    var kind := KindOf(p, p.objects[k].typeId);
    kind == None || kind == Some(Sum) || kind == Some(Delta) || kind == Some(Trigger)
  }

  // ---------------------------------------------------------------- the first object of a batch

  /** The first of the enabled objects up to `k` that go into one batch with it, if it is of kind Sum;
      objects of other kinds are on their own. */
  ghost predicate IsHead(p: Params, k: nat, h: nat)
    requires k < |p.objects|
  {
    && h <= k && p.objects[h].enabled
    && if KindOf(p, p.objects[k].typeId) != Some(Sum) then h == k
       else Joins(p, h, k) && forall g :: 0 <= g < h && p.objects[g].enabled ==> !Joins(p, g, k)
  }

  /** All enabled objects from `h` to `k` have the host, type and script of `k`. */
  ghost predicate Joins(p: Params, h: nat, k: nat)
    requires h <= k < |p.objects|
  {
    forall l :: h <= l <= k && p.objects[l].enabled ==> SameBatch(p, k, l)
  }

  lemma {:induction false} HeadExists(p: Params, k: nat, g: nat) returns (h: nat)
    requires g <= k < |p.objects| && p.objects[k].enabled && KindOf(p, p.objects[k].typeId) == Some(Sum)
    requires forall f :: 0 <= f < g && p.objects[f].enabled ==> !Joins(p, f, k)
    ensures IsHead(p, k, h)
    decreases k - g
  {
    if p.objects[g].enabled && Joins(p, g, k) {
      h := g;
    } else {
      assert g != k;
      h := HeadExists(p, k, g + 1);
    }
  }

  ghost function HeadOf(p: Params, k: nat): (h: nat)
    requires k < |p.objects| && p.objects[k].enabled
    ensures IsHead(p, k, h)
  {
    assert exists h :: IsHead(p, k, h) by {
      if KindOf(p, p.objects[k].typeId) == Some(Sum) {
        var h := HeadExists(p, k, 0);
      } else {
        assert IsHead(p, k, k);
      }
    }
    var h :| IsHead(p, k, h);
    h
  }

  lemma HeadUnique(p: Params, k: nat, g: nat, h: nat)
    requires k < |p.objects| && IsHead(p, k, g) && IsHead(p, k, h)
    ensures g == h
  {
  }

  /** An enabled object at or after the head has the same head, up to `k`. */
  lemma HeadBetween(p: Params, i: nat, k: nat)
    requires i <= k < |p.objects| && p.objects[i].enabled && p.objects[k].enabled && HeadOf(p, k) <= i
    ensures HeadOf(p, i) == HeadOf(p, k) && SameBatch(p, i, k)
    ensures i < k ==> KindOf(p, p.objects[i].typeId) == Some(Sum)
  {
    var h := HeadOf(p, k);
    if i < k {
      assert Joins(p, h, k) && SameBatch(p, k, i);
      forall l | h <= l <= i && p.objects[l].enabled ensures SameBatch(p, i, l) {
        assert SameBatch(p, k, l);
      }
      forall g | 0 <= g < h && p.objects[g].enabled ensures !Joins(p, g, i) {
        if Joins(p, g, i) {
          forall l | g <= l <= k && p.objects[l].enabled ensures SameBatch(p, k, l) {
            if l < h { assert SameBatch(p, i, l); }
          }
        }
      }
      HeadUnique(p, i, HeadOf(p, i), h);
    }
  }

  /** The members of the batch that starts at its head have that head; what comes after does not. */
  lemma HeadsOfBatch(p: Params, i: nat)
    requires i < |p.objects| && p.objects[i].enabled && KindOf(p, p.objects[i].typeId) == Some(Sum) && HeadOf(p, i) == i
    ensures forall k :: i <= k < BatchEnd(p, i, i + 1) && p.objects[k].enabled ==> HeadOf(p, k) == i
    ensures forall k :: BatchEnd(p, i, i + 1) <= k < |p.objects| && p.objects[k].enabled ==>
      HeadOf(p, k) >= BatchEnd(p, i, i + 1)
  {
    var j := BatchEnd(p, i, i + 1);
    BatchEndIs(p, i, i + 1);
    forall k | i <= k < j && p.objects[k].enabled ensures HeadOf(p, k) == i {
      assert InBatch(p, i, k);
      HeadInBatch(p, i, k);
    }
    forall l | i <= l < j && p.objects[l].enabled ensures SameBatch(p, i, l) {
      assert InBatch(p, i, l);
    }
    forall k | j <= k < |p.objects| && p.objects[k].enabled ensures HeadOf(p, k) >= j {
      assert !InBatch(p, i, k);
      if HeadOf(p, k) < j { WithinBatch(p, i, j, k); }
    }
  }

  lemma HeadInBatch(p: Params, i: nat, k: nat)
    requires i < |p.objects| && p.objects[i].enabled && KindOf(p, p.objects[i].typeId) == Some(Sum) && HeadOf(p, i) == i
    requires InBatch(p, i, k)
    ensures HeadOf(p, k) == i
  {
    assert SameBatch(p, i, k);
    forall l | i <= l <= k && p.objects[l].enabled ensures SameBatch(p, k, l) {
      assert SameBatch(p, i, l);
    }
    forall g | 0 <= g < i && p.objects[g].enabled ensures !Joins(p, g, k) {
      if Joins(p, g, k) {
        forall l | g <= l <= i && p.objects[l].enabled ensures SameBatch(p, i, l) {
          assert SameBatch(p, k, l);
        }
        assert Joins(p, g, i);
      }
    }
    HeadUnique(p, k, HeadOf(p, k), i);
  }

  /** If the head of a later object is within the batch, the object is too. */
  lemma WithinBatch(p: Params, i: nat, j: nat, k: nat)
    requires i < j <= k < |p.objects| && p.objects[i].enabled && p.objects[k].enabled && HeadOf(p, k) < j
    requires forall l :: i <= l < j && p.objects[l].enabled ==> SameBatch(p, i, l)
    ensures InBatch(p, i, k)
  {
    var h := HeadOf(p, k);
    var m := if h < i then i else h;
    HeadBetween(p, m, k);
    assert SameBatch(p, i, m);
    forall l | i <= l <= k && p.objects[l].enabled ensures SameBatch(p, i, l) {
      if l >= j {
        HeadBetween(p, l, k);
      } else {
        assert SameBatch(p, i, l);
      }
    }
  }

  // ---------------------------------------------------------------- what should happen to an object

  /** No object of its host before its batch has failed, other than by a trigger script. */
  ghost predicate Good(p: Params, st: Exec, k: nat)
    requires k < |p.objects| == |st.status| && p.objects[k].enabled
  {
    forall b :: 0 <= b < HeadOf(p, k) && On(p, b, p.objects[k].host) ==> !Fatal(p, st, b)
  }

  ghost predicate ShouldSucceed(p: Params, st: Exec, k: nat)
    requires k < |p.objects| == |st.status| && p.objects[k].enabled
  {
    Good(p, st, k) && Handled(p, k) && (p.markOnly || (p.up(HeadOf(p, k)) && p.ok(HeadOf(p, k))))
  }

  ghost predicate ShouldBeSent(p: Params, st: Exec, k: nat)
    requires k < |p.objects| == |st.status| && p.objects[k].enabled
  {
    Good(p, st, k) && Handled(p, k) && !p.markOnly && p.up(HeadOf(p, k))
  }

  /** What happened to an object is what should. */
  ghost predicate Right(p: Params, st: Exec, k: nat)
    requires k < |p.objects| == |st.status| && p.objects[k].enabled
  {
    (st.status[k] == Success <==> ShouldSucceed(p, st, k)) && (WasSent(st.sent, k) <==> ShouldBeSent(p, st, k))
  }

  ghost predicate AllRight(p: Params, st: Exec, i: nat, j: nat)
    requires j <= |p.objects| == |st.status|
  {
    forall k :: i <= k < j && p.objects[k].enabled ==> Right(p, st, k)
  }

  /** Among the objects before `i` is the reason why `k` cannot succeed. */
  ghost predicate Blocked(p: Params, st: Exec, i: nat, k: nat)
    requires i <= k < |p.objects| == |st.status| && p.objects[k].enabled
  {
    || (exists b :: 0 <= b < i && b < HeadOf(p, k) && On(p, b, p.objects[k].host) && Fatal(p, st, b))
    || (!p.markOnly && !p.up(HeadOf(p, k)))
  }

  /** A host is bad only for a reason, and the loop never stands inside a batch of a good host. */
  ghost predicate Reasons(p: Params, st: Exec, i: nat)
    requires i <= |p.objects| == |st.status|
  {
    forall k :: i <= k < |p.objects| && On(p, k, st.curHost) ==>
      if st.badHost then Blocked(p, st, i, k) else HeadOf(p, k) >= i
  }

  // ---------------------------------------------------------------- earlier objects

  ghost predicate SameFates(p: Params, st: Exec, after: Exec, i: nat)
    requires i <= |p.objects| == |st.status| == |after.status|
  {
    forall b :: 0 <= b < i ==>
      && st.status[b] == after.status[b] && (Fatal(p, after, b) <==> Fatal(p, st, b))
      && (WasSent(after.sent, b) <==> WasSent(st.sent, b))
  }

  lemma StepSameFates(p: Params, st: Exec, i: nat)
    requires i < |p.objects| == |st.status| && p.objects[i].enabled && Step(p, st, i).1.Continue?
    ensures SameFates(p, st, Step(p, st, i).0, i)
  {
    hide Step, RunOk, Fatal, WasSent, SameRun;
    var runs := StepSends(p, st, i);
    var (after, flow) := Step(p, st, i);
    StepOutcome(p, st, i);
    forall b | 0 <= b < i
      ensures st.status[b] == after.status[b] && (Fatal(p, after, b) <==> Fatal(p, st, b))
      ensures WasSent(after.sent, b) <==> WasSent(st.sent, b)
    {
      FatalKept(p, st, after, i, flow.next, runs, b);
    }
  }

  lemma RightStays(p: Params, st: Exec, after: Exec, i: nat)
    requires i <= |p.objects| == |st.status| == |after.status| && SameFates(p, st, after, i) && AllRight(p, st, 0, i)
    ensures AllRight(p, after, 0, i)
  {
    hide Fatal, WasSent;
    forall k | 0 <= k < i && p.objects[k].enabled ensures Right(p, after, k) {
      assert Right(p, st, k);
    }
  }

  lemma BlockedStays(p: Params, st: Exec, after: Exec, i: nat, j: nat, k: nat)
    requires i <= j <= k < |p.objects| == |st.status| == |after.status| && p.objects[k].enabled
    requires SameFates(p, st, after, i) && Blocked(p, st, i, k)
    ensures Blocked(p, after, j, k)
  {
    hide Fatal, WasSent;
  }

  /** Something that is blocked neither succeeds nor is sent. */
  lemma BlockedIsWrong(p: Params, st: Exec, i: nat, k: nat)
    requires i <= k < |p.objects| == |st.status| && p.objects[k].enabled && Blocked(p, st, i, k)
    ensures !ShouldSucceed(p, st, k) && !ShouldBeSent(p, st, k)
  {
    hide Fatal, Handled;
  }

  // ---------------------------------------------------------------- the turn of an object on a good host

  /** At its turn on a good host, an object is the head of its batch, and nothing has failed. */
  lemma TurnIsGood(p: Params, st: Exec, i: nat)
    requires i < |p.objects| == |st.status| && p.objects[i].enabled && HostsGrouped(p)
    requires HostKnown(p, st, i) && Reasons(p, st, i) && !EnterHost(st, p.objects[i].host).badHost
    ensures HeadOf(p, i) == i && forall b :: 0 <= b < i && On(p, b, p.objects[i].host) ==> !Fatal(p, st, b)
  {
    hide Fatal;
    var host := p.objects[i].host;
    if host != st.curHost {
      forall b | 0 <= b < i ensures !On(p, b, host) {
        if p.objects[b].enabled { OldHost(p, st, i, b); }
      }
      HeadOnHost(p, i);
    }
  }

  /** When the host changes, no earlier object is on the new one. */
  lemma OldHost(p: Params, st: Exec, i: nat, b: nat)
    requires b < i < |p.objects| == |st.status| && p.objects[b].enabled && HostsGrouped(p) && HostKnown(p, st, i)
    requires p.objects[i].host != st.curHost
    ensures p.objects[b].host != p.objects[i].host
  {
    hide Fatal;
    if p.objects[b].host != st.curHost {
      var c :| b < c < i && On(p, c, st.curHost);
    }
  }

  lemma HeadOnHost(p: Params, k: nat)
    requires k < |p.objects| && p.objects[k].enabled
    ensures On(p, HeadOf(p, k), p.objects[k].host)
  {
    HeadBetween(p, HeadOf(p, k), k);
  }

  /** An object of another kind than Sum, or behind a batch, is not inside the batch of a later one. */
  lemma HeadBehindSingle(p: Params, i: nat, k: nat)
    requires i < k < |p.objects| && p.objects[i].enabled && p.objects[k].enabled
    requires KindOf(p, p.objects[i].typeId) != Some(Sum)
    ensures HeadOf(p, k) > i
  {
    if HeadOf(p, k) <= i { HeadBetween(p, i, k); }
  }

  /** What one turn leaves: its objects are right, and the host is good or bad for a reason. */
  ghost predicate TurnRight(p: Params, after: Exec, i: nat, j: nat, host: int)
    requires i < j <= |p.objects| == |after.status|
  {
    && AllRight(p, after, i, j) && after.curHost == host
    && forall k :: j <= k < |p.objects| && On(p, k, host) ==>
         if after.badHost then Blocked(p, after, j, k) else HeadOf(p, k) >= j
  }

  /** The host is down. */
  lemma DownTurn(p: Params, st: Exec, after: Exec, i: nat)
    requires i < |p.objects| == |st.status| && p.objects[i].enabled && HeadOf(p, i) == i
    requires !p.markOnly && !p.up(i) && after == st.(status := st.status[i := Failure], badHost := true)
    requires st.curHost == p.objects[i].host && !WasSent(st.sent, i)
    ensures TurnRight(p, after, i, i + 1, p.objects[i].host)
  {
    hide WasSent, Handled;
    assert Fatal(p, after, i);
    forall k | i + 1 <= k < |p.objects| && On(p, k, p.objects[i].host) ensures Blocked(p, after, i + 1, k) {
      if HeadOf(p, k) <= i { HeadBetween(p, i, k); } else { assert On(p, i, p.objects[k].host); }
    }
  }

  /** The host was bad before. */
  lemma BadTurn(p: Params, st: Exec, after: Exec, i: nat)
    requires i < |p.objects| == |st.status| && p.objects[i].enabled && Reasons(p, st, i) && st.badHost
    requires after == st.(status := st.status[i := Failure]) && st.curHost == p.objects[i].host
    requires SameFates(p, st, after, i) && !WasSent(st.sent, i)
    ensures TurnRight(p, after, i, i + 1, p.objects[i].host)
  {
    hide WasSent, Fatal, Handled;
    BlockedStays(p, st, after, i, i, i);
    BlockedIsWrong(p, after, i, i);
    forall k | i + 1 <= k < |p.objects| && On(p, k, p.objects[i].host) ensures Blocked(p, after, i + 1, k) {
      BlockedStays(p, st, after, i, i + 1, k);
    }
  }

  /** A batch. */
  lemma SumTurn(p: Params, st: Exec, i: nat)
    requires i < |p.objects| == |st.status| && p.objects[i].enabled && HeadOf(p, i) == i
    requires KindOf(p, p.objects[i].typeId) == Some(Sum) && SumStep(p, st, i).1.Continue?
    requires st.curHost == p.objects[i].host && !st.badHost && (p.markOnly || p.up(i))
    requires SameFates(p, st, SumStep(p, st, i).0, i) && forall k :: i <= k < |p.objects| ==> !WasSent(st.sent, k)
    requires forall b :: 0 <= b < i && On(p, b, p.objects[i].host) ==> !Fatal(p, st, b)
    ensures TurnRight(p, SumStep(p, st, i).0, i, SumStep(p, st, i).1.next, p.objects[i].host)
  {
    var (after, flow) := SumStep(p, st, i);
    var j := flow.next;
    SumFacts(p, st, i);
    HeadsOfBatch(p, i);
    SumHosts(p, st, i);
    hide SumStep, WasSent, Fatal, IsHead, BatchEnd;
    forall k | i <= k < j && p.objects[k].enabled ensures Right(p, after, k) {
      BatchRight(p, after, i, k);
    }
    forall k | j <= k < |p.objects| && On(p, k, p.objects[i].host) && after.badHost ensures Blocked(p, after, j, k) {
      assert Fatal(p, after, i) && On(p, i, p.objects[k].host);
    }
  }

  lemma SumFacts(p: Params, st: Exec, i: nat)
    requires i < |p.objects| == |st.status| && p.objects[i].enabled && SumStep(p, st, i).1.Continue?
    requires KindOf(p, p.objects[i].typeId) == Some(Sum) && forall k :: i <= k < |p.objects| ==> !WasSent(st.sent, k)
    ensures var (after, flow) := SumStep(p, st, i); var j := BatchEnd(p, i, i + 1);
      && flow.next == j && after.curHost == st.curHost
      && after.badHost == (st.badHost || !(p.markOnly || p.ok(i)))
      && (forall k :: i <= k < j && p.objects[k].enabled ==>
           && after.status[k] == (if p.markOnly || p.ok(i) then Success else Failure)
           && KindOf(p, p.objects[k].typeId) == Some(Sum) && (WasSent(after.sent, k) <==> !p.markOnly))
      && (!(p.markOnly || p.ok(i)) ==> Fatal(p, after, i))
  {
    hide RecordAll, OverlayAll, NonEmpty, CacheAt, EnabledIn, BatchEnd;
    var (after, flow) := SumStep(p, st, i);
    var j := BatchEnd(p, i, i + 1);
    BatchKinds(p, i);
    forall k | i <= k < j && p.objects[k].enabled ensures WasSent(after.sent, k) <==> !p.markOnly {
      if !p.markOnly {
        var r := after.sent[|st.sent|];
        assert r in after.sent && k in r.members;
      } else {
        assert after.sent == st.sent;
      }
    }
  }

  lemma BatchKinds(p: Params, i: nat)
    requires i < |p.objects| && p.objects[i].enabled
    ensures forall k :: i <= k < BatchEnd(p, i, i + 1) && p.objects[k].enabled ==>
      p.objects[k].typeId == p.objects[i].typeId
  {
    BatchEndIs(p, i, i + 1);
    forall k | i <= k < BatchEnd(p, i, i + 1) && p.objects[k].enabled ensures SameBatch(p, i, k) {
      assert InBatch(p, i, k);
    }
  }

  lemma BatchRight(p: Params, after: Exec, i: nat, k: nat)
    requires i <= k < |p.objects| == |after.status| && p.objects[i].enabled && p.objects[k].enabled && HeadOf(p, k) == i
    requires p.objects[k].host == p.objects[i].host && KindOf(p, p.objects[k].typeId) == Some(Sum)
    requires p.markOnly || p.up(i)
    requires forall b :: 0 <= b < i && On(p, b, p.objects[i].host) ==> !Fatal(p, after, b)
    requires after.status[k] == (if p.markOnly || p.ok(i) then Success else Failure)
    requires WasSent(after.sent, k) <==> !p.markOnly
    ensures Right(p, after, k)
  {
    hide WasSent, Fatal, IsHead;
  }

  /** Any other object. */
  lemma SingleTurn(p: Params, st: Exec, i: nat)
    requires i < |p.objects| == |st.status| && p.objects[i].enabled && HeadOf(p, i) == i
    requires KindOf(p, p.objects[i].typeId) != Some(Sum) && SingleStep(p, st, i).1.Continue?
    requires st.curHost == p.objects[i].host && !st.badHost && (p.markOnly || p.up(i))
    requires SameFates(p, st, SingleStep(p, st, i).0, i) && !WasSent(st.sent, i)
    requires forall b :: 0 <= b < i && On(p, b, p.objects[i].host) ==> !Fatal(p, st, b)
    ensures TurnRight(p, SingleStep(p, st, i).0, i, i + 1, p.objects[i].host)
  {
    var after := SingleStep(p, st, i).0;
    SingleFacts(p, st, i);
    hide SingleStep, WasSent, Fatal, IsHead;
    forall k | i + 1 <= k < |p.objects| && On(p, k, p.objects[i].host)
      ensures if after.badHost then Blocked(p, after, i + 1, k) else HeadOf(p, k) >= i + 1
    {
      HeadBehindSingle(p, i, k);
      if after.badHost { assert Fatal(p, after, i) && On(p, i, p.objects[k].host); }
    }
    assert Right(p, after, i);
  }

  lemma SingleFacts(p: Params, st: Exec, i: nat)
    requires i < |p.objects| == |st.status| && p.objects[i].enabled && !WasSent(st.sent, i)
    requires KindOf(p, p.objects[i].typeId) != Some(Sum) && SingleStep(p, st, i).1.Continue?
    ensures var after := SingleStep(p, st, i).0;
      && after.curHost == st.curHost
      && (after.status[i] == Success <==> Handled(p, i) && (p.markOnly || p.ok(i)))
      && (WasSent(after.sent, i) <==> Handled(p, i) && !p.markOnly)
      && (after.badHost && !st.badHost ==> Fatal(p, after, i))
  {
    hide SetDeployment;
    var after := SingleStep(p, st, i).0;
    if Handled(p, i) && !p.markOnly {
      var r := after.sent[|st.sent|];
      assert r in after.sent && i in r.members;
    } else {
      assert after.sent == st.sent;
    }
  }

  // ---------------------------------------------------------------- the whole run

  lemma TurnIsRight(p: Params, st: Exec, i: nat)
    requires i < |p.objects| == |st.status| && p.objects[i].enabled && HostsGrouped(p) && Step(p, st, i).1.Continue?
    requires HostKnown(p, st, i) && Reasons(p, st, i)
    ensures TurnRight(p, Step(p, st, i).0, i, Step(p, st, i).1.next, p.objects[i].host)
  {
    StepSameFates(p, st, i);
    forall k | i <= k < |p.objects| ensures !WasSent(st.sent, k) { SentAreOlder(p, st, i, k); }
    var st1 := EnterHost(st, p.objects[i].host);
    if st1.badHost {
      assert st1 == st;
      StepWhenBad(p, st, i);
      hide Step, WasSent, Reasons, HostKnown, TurnRight, SameFates;
      BadTurn(p, st, Step(p, st, i).0, i);
    } else {
      TurnIsGood(p, st, i);
      hide WasSent, Fatal, Reasons, HostKnown, TurnRight, HostsGrouped, SumStep, SingleStep, CacheOf;
      EnteredSame(p, st, i);
      if !p.markOnly && !p.up(i) {
        DownTurn(p, st1, Step(p, st, i).0, i);
      } else if KindOf(p, p.objects[i].typeId) == Some(Sum) {
        SumTurn(p, st1, i);
      } else {
        SingleTurn(p, st1, i);
      }
    }
  }

  lemma StepWhenBad(p: Params, st: Exec, i: nat)
    requires i < |p.objects| == |st.status| && p.objects[i].enabled && st.curHost == p.objects[i].host && st.badHost
    ensures Step(p, st, i) == (st.(status := st.status[i := Failure]), Continue(i + 1))
  {
  }

  lemma EnteredSame(p: Params, st: Exec, i: nat)
    requires i < |p.objects| == |st.status|
    ensures var st1 := EnterHost(st, p.objects[i].host);
      && st1.status == st.status && st1.sent == st.sent && st1.curHost == p.objects[i].host
      && (forall b :: 0 <= b < i ==> (Fatal(p, st1, b) <==> Fatal(p, st, b)))
      && forall after: Exec :: |after.status| == |p.objects| && SameFates(p, st, after, i) ==>
           SameFates(p, st1, after, i)
  {
  }

  lemma SkipIsRight(p: Params, st: Exec, i: nat)
    requires i < |p.objects| == |st.status| && !p.objects[i].enabled
    requires AllRight(p, st, 0, i) && Reasons(p, st, i)
    ensures AllRight(p, st, 0, i + 1) && Reasons(p, st, i + 1)
  {
    hide Right, Fatal;
  }

  lemma StepKeepsRight(p: Params, st: Exec, i: nat)
    requires i < |p.objects| == |st.status| && HostsGrouped(p) && Step(p, st, i).1.Continue?
    requires HostKnown(p, st, i) && Reasons(p, st, i) && AllRight(p, st, 0, i)
    ensures AllRight(p, Step(p, st, i).0, 0, Step(p, st, i).1.next)
    ensures Reasons(p, Step(p, st, i).0, Step(p, st, i).1.next)
  {
    hide HostKnown, HostsGrouped, Right, SameFates, Blocked;
    if p.objects[i].enabled {
      TurnIsRight(p, st, i);
      StepSameFates(p, st, i);
      hide Step;
      RightStays(p, st, Step(p, st, i).0, i);
    } else {
      SkipIsRight(p, st, i);
      SkipIsNoStep(p, st, i);
    }
  }

  lemma {:induction false} RunIsRight(p: Params, st: Exec, i: nat)
    requires i <= |p.objects| == |st.status| && HostsGrouped(p)
    requires HostKnown(p, st, i) && SilentAfterFatal(p, st, i) && Reasons(p, st, i) && AllRight(p, st, 0, i)
    requires RunFrom(p, st, i).1 == Finished
    ensures AllRight(p, RunFrom(p, st, i).0, 0, |p.objects|)
    decreases |p.objects| - i
  {
    hide Step, HostKnown, SilentAfterFatal, HostsGrouped, Reasons, AllRight;
    if i < |p.objects| {
      var (next, flow) := Step(p, st, i);
      StepKeepsRight(p, st, i);
      if p.objects[i].enabled {
        StepKeepsHostKnown(p, st, i);
        StepKeepsSilence(p, st, i);
      } else {
        SkipKeeps(p, st, i);
        SkipIsNoStep(p, st, i);
      }
      RunIsRight(p, next, flow.next);
    }
  }

  /** In a deployment that ends by itself, an enabled object succeeds exactly if no object of its host
      before its batch failed, other than by a trigger script, its kind is handled, and everything is
      marked only or the host is up and the script succeeds when its batch has its turn. It is in a
      script that is sent exactly if nothing failed before, its kind is handled, the host is up and
      it is not marked only. */
  lemma SucceedsIff(p: Params, t: Table, k: nat)
    requires HostsGrouped(p) && RunFrom(p, Initial(p, t), 0).1 == Finished
    requires k < |p.objects| && p.objects[k].enabled
    ensures var after, h := RunFrom(p, Initial(p, t), 0).0, HeadOf(p, k);
      && (after.status[k] == Success <==> Good(p, after, k) && Handled(p, k) && (p.markOnly || (p.up(h) && p.ok(h))))
      && (WasSent(after.sent, k) <==> Good(p, after, k) && Handled(p, k) && !p.markOnly && p.up(h))
  {
    hide RunFrom, HostsGrouped, WasSent, Good, Handled, SilentAfterFatal, IsHead;
    StartIsRight(p, t);
    RunIsRight(p, Initial(p, t), 0);
    assert Right(p, RunFrom(p, Initial(p, t), 0).0, k);
  }

  lemma StartIsRight(p: Params, t: Table)
    ensures HostKnown(p, Initial(p, t), 0) && SilentAfterFatal(p, Initial(p, t), 0)
    ensures Reasons(p, Initial(p, t), 0) && AllRight(p, Initial(p, t), 0, 0)
  {
  }

  // ---------------------------------------------------------------- runs in which nothing fails

  /** Objects are only marked, or their hosts are up and their scripts succeed. */
  ghost predicate NothingFails(p: Params) {
    p.markOnly || forall k :: 0 <= k < |p.objects| ==> p.up(k) && p.ok(k)
  }

  /** Then everything of a handled kind succeeds. */
  lemma {:induction false} AllSucceed(p: Params, t: Table, n: nat)
    requires HostsGrouped(p) && RunFrom(p, Initial(p, t), 0).1 == Finished && NothingFails(p)
    requires forall j :: 0 <= j < |p.objects| ==> Handled(p, j)
    requires n <= |p.objects|
    ensures forall k :: 0 <= k < n && p.objects[k].enabled ==> RunFrom(p, Initial(p, t), 0).0.status[k] == Success
    decreases n
  {
    hide RunFrom, HostsGrouped, Handled, WasSent, IsHead;
    if n > 0 {
      AllSucceed(p, t, n - 1);
      var k := n - 1;
      if p.objects[k].enabled {
        HeadBefore(p, k);
        SucceedsIff(p, t, k);
      }
    }
  }

  lemma HeadBefore(p: Params, k: nat)
    requires k < |p.objects| && p.objects[k].enabled
    ensures HeadOf(p, k) <= k
  {
  }

  /** A run ends by itself if it is not cancelled and everything that is recorded has an id. */
  lemma {:induction false} RunFinishes(p: Params, st: Exec, i: nat)
    requires i <= |p.objects| == |st.status|
    requires forall k :: 0 <= k < |p.objects| ==> !p.cancelled(k) && (Recordable(p, k) ==> CanBeSet(p.objects[k]))
    ensures RunFrom(p, st, i).1 == Finished
    decreases |p.objects| - i
  {
    hide Step, CanBeSet;
    if i < |p.objects| {
      StepContinues(p, st, i);
      var (next, flow) := Step(p, st, i);
      RunFinishes(p, next, flow.next);
    }
  }

  ghost predicate Recordable(p: Params, k: nat)
    requires k < |p.objects|
  {
    p.objects[k].enabled && KindOf(p, p.objects[k].typeId) in {Some(Sum), Some(Delta)}
  }

  ghost predicate CanBeSet(o: DeployObject) {
    o.nextContent.Some? ==> o.id.Some?
  }

  lemma StepContinues(p: Params, st: Exec, i: nat)
    requires i < |p.objects| == |st.status|
    requires forall k :: 0 <= k < |p.objects| ==> !p.cancelled(k) && (Recordable(p, k) ==> CanBeSet(p.objects[k]))
    ensures Step(p, st, i).1.Continue?
  {
    hide SumStep, CacheOf;
    if p.objects[i].enabled && KindOf(p, p.objects[i].typeId) == Some(Sum) {
      SumContinues(p, EnterHost(st, p.objects[i].host), i);
    }
  }

  lemma SumContinues(p: Params, st: Exec, i: nat)
    requires i < |p.objects| == |st.status| && p.objects[i].enabled && KindOf(p, p.objects[i].typeId) == Some(Sum)
    requires forall k :: 0 <= k < |p.objects| ==> !p.cancelled(k) && (Recordable(p, k) ==> CanBeSet(p.objects[k]))
    ensures SumStep(p, st, i).1.Continue?
  {
    hide OverlayAll, NonEmpty, CacheAt, MarkAll, RecordAll, EnabledIn, BatchEnd;
    BatchKinds(p, i);
    var members := EnabledIn(p, i, BatchEnd(p, i, i + 1));
    forall x | 0 <= x < |members| ensures CanBeSet(p.objects[members[x]]) {
      assert members[x] in members;
      assert Recordable(p, members[x]);
    }
    RecordAllWorks(st.table, p, members);
  }

  lemma {:induction false} RecordAllWorks(t: Table, p: Params, members: seq<nat>)
    requires AllBelow(members, |p.objects|) && forall x :: 0 <= x < |members| ==> CanBeSet(p.objects[members[x]])
    ensures RecordAll(t, p, members).1
  {
    if members != [] { RecordAllWorks(t, p, members[..|members| - 1]); }
  }
}
