/** A run of `perform_deploy` as events of the protocol: what the clients see of it. */
module DeployEvents {
  import opened Wrappers
  import opened DeployTypes
  import opened Execution
  import opened ExecutionMarks
  import opened StatusMachine
  import opened Protocol

  function StatusesOf(objects: seq<DeployObject>): (r: seq<ObjectStatus>)
    ensures |r| == |objects|
  {
    seq(|objects|, k requires 0 <= k < |objects| => objects[k].status)
  }

  /** The marks among the events. */
  function MarksOf(es: seq<Event>): seq<Mark> {
    if es == [] then []
    else (if es[0].MarkStatus? then [Mark(es[0].indices, es[0].mark)] else []) + MarksOf(es[1..])
  }

  predicate NotEnded(es: seq<Event>, w: nat) {
    forall k :: 0 <= k < |es| ==> es[k] != FinishDeploy(w) && es[k] != LoseWorker(w)
  }

  // ---------------------------------------------------------------- one event

  function WithStatuses(objects: seq<DeployObject>, indices: seq<nat>, s: ObjectStatus): seq<DeployObject> {
    seq(|objects|, k requires 0 <= k < |objects| => if k in indices then objects[k].(status := s) else objects[k])
  }

  lemma {:induction false} MarksUpdate(s: Server, indices: seq<nat>, mark: ObjectStatus, actions: seq<ServerAction>)
    requires |actions| == |indices|
    requires forall k :: 0 <= k < |actions| ==> actions[k] == SetObjectStatus(indices[k], mark)
    ensures UpdateAll(s, actions).objects == WithStatuses(s.objects, indices, mark)
    decreases |indices|
  {
    if indices == [] {
      assert WithStatuses(s.objects, indices, mark) == s.objects;
    } else {
      var t := Update(s, actions[0]);
      MarksUpdate(t, indices[1..], mark, actions[1..]);
      assert forall k: nat :: k in indices <==> k == indices[0] || k in indices[1..];
      assert WithStatuses(t.objects, indices[1..], mark) == WithStatuses(s.objects, indices, mark);
    }
  }

  lemma MarkEvent(s: Server, indices: seq<nat>, mark: ObjectStatus)
    ensures StatusesOf(Perform(s, DeployMark(indices, mark)).0.objects) ==
      ApplyMark(StatusesOf(s.objects), Mark(indices, mark))
  {
    hide UpdateAll;
    MarksUpdate(s, indices, mark, Marks(indices, mark));
  }

  /** While a worker deploys, only marks change statuses. */
  lemma OtherEvent(y: System, e: Event, w: nat)
    requires Safe(y) && Possible(y, e) && w in y.deploys && !e.MarkStatus? && e != FinishDeploy(w) && e != LoseWorker(w)
    ensures w in Next(y, e).0.deploys && Next(y, e).0.server.objects == y.server.objects
  {
    hide Perform;
    SetSmall(y.setups, y.deploys);
    NothingDone(y.server, e);
    if SectionOf(e).Some? && Passes(y.server, SectionOf(e).value) {
      SectionEffect(y.server, SectionOf(e).value);
    }
  }

  lemma EventMarks(y: System, e: Event, w: nat)
    requires Safe(y) && Possible(y, e) && w in y.deploys && e != FinishDeploy(w) && e != LoseWorker(w)
    ensures var z := Next(y, e).0;
      && Safe(z) && w in z.deploys && SameButStatus(y.server.objects, z.server.objects)
      && StatusesOf(z.server.objects) ==
           if e.MarkStatus? then ApplyMark(StatusesOf(y.server.objects), Mark(e.indices, e.mark))
             else StatusesOf(y.server.objects)
  {
    StepSafe(y, e);
    if e.MarkStatus? {
      MarkEvent(y.server, e.indices, e.mark);
      hide Perform, Safe;
      assert w in Next(y, e).0.deploys;
      DeployingListKept(y, e, w);
    } else {
      hide Safe, Possible, Next;
      OtherEvent(y, e, w);
    }
  }

  // ---------------------------------------------------------------- all events

  /** Whatever else is requested meanwhile, the statuses on the server are the marks of the worker. */
  lemma {:induction false} EventsMark(y: System, es: seq<Event>, w: nat)
    requires Safe(y) && AllPossible(y, es) && w in y.deploys && NotEnded(es, w)
    ensures var objects := RunAll(y, es).0.server.objects;
      && SameButStatus(y.server.objects, objects)
      && StatusesOf(objects) == ApplyMarks(StatusesOf(y.server.objects), MarksOf(es))
    decreases |es|
  {
    hide Next, Safe, Possible, ApplyMark;
    if es != [] {
      var z := Next(y, es[0]).0;
      EventMarks(y, es[0], w);
      EventsMark(z, es[1..], w);
      FirstMark(StatusesOf(y.server.objects), es);
    }
  }

  lemma FirstMark(status: seq<ObjectStatus>, es: seq<Event>)
    requires es != []
    ensures ApplyMarks(status, MarksOf(es)) ==
      ApplyMarks(if es[0].MarkStatus? then ApplyMark(status, Mark(es[0].indices, es[0].mark))
        else status, MarksOf(es[1..]))
  {
    hide ApplyMark;
    if es[0].MarkStatus? {
      var m := Mark(es[0].indices, es[0].mark);
      assert MarksOf(es)[0] == m && MarksOf(es)[1..] == MarksOf(es[1..]);
    } else {
      assert MarksOf(es) == MarksOf(es[1..]);
    }
  }

  /** If the worker announces what a run over the list that it took announces, then the server, and with
      it every client that was up to date, has the statuses of the run, on objects that are otherwise
      those of the list; whatever is requested in between. */
  lemma ClientsSeeTheRun(y: System, es: seq<Event>, w: nat, p: Params, t: Table)
    requires Safe(y) && AllPossible(y, es) && w in y.deploys && NotEnded(es, w)
    requires p.objects == y.server.objects && MarksOf(es) == RunMarks(p, Initial(p, t), 0)
    ensures var (z, actions) := RunAll(y, es);
      && var seen := ReceiveAll(View(y.server), actions);
      && seen.Some? && seen.value == View(z.server)
      && SameButStatus(p.objects, seen.value.objects)
      && StatusesOf(seen.value.objects) == RunFrom(p, Initial(p, t), 0).0.status
  {
    hide RunFrom, RunMarks, Safe, AllPossible, ApplyMarks;
    EveryRun(y, es);
    EventsMark(y, es, w);
    RunMarksApply(p, Initial(p, t), 0);
    assert StatusesOf(p.objects) == Initial(p, t).status;
  }

  // ---------------------------------------------------------------- such events are possible

  function Announce(w: nat, marks: seq<Mark>): seq<Event> {
    if marks == [] then [] else [MarkStatus(w, marks[0].indices, marks[0].status)] + Announce(w, marks[1..])
  }

  /** Any run over the list can be announced. */
  lemma {:induction false} AnnouncePossible(y: System, w: nat, marks: seq<Mark>)
    requires Safe(y) && w in y.deploys && AllInside(marks, |y.server.objects|)
    ensures AllPossible(y, Announce(w, marks)) && NotEnded(Announce(w, marks), w)
    ensures MarksOf(Announce(w, marks)) == marks
    decreases |marks|
  {
    hide Next, ApplyMark;
    if marks != [] {
      var es := Announce(w, marks);
      assert es[1..] == Announce(w, marks[1..]);
      assert Possible(y, es[0]);
      EventMarks(y, es[0], w);
      AnnouncePossible(Next(y, es[0]).0, w, marks[1..]);
      assert NotEnded(es, w);
    }
  }

  lemma RunCanBeAnnounced(y: System, w: nat, p: Params, t: Table)
    requires Safe(y) && w in y.deploys && p.objects == y.server.objects
    ensures var es := Announce(w, RunMarks(p, Initial(p, t), 0));
      AllPossible(y, es) && NotEnded(es, w) && MarksOf(es) == RunMarks(p, Initial(p, t), 0)
  {
    RunMarksInside(p, Initial(p, t), 0);
    hide RunMarks, Safe;
    AnnouncePossible(y, w, RunMarks(p, Initial(p, t), 0));
  }
}
