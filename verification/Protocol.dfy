/** Any interleaving of setup, start, mark, stop, cancel and toggle: who works when, what the
    clients see, and which statuses are never left. */
module Protocol {
  import opened Wrappers
  import opened DeployTypes
  import opened StatusMachine

  // ---------------------------------------------------------------- the web client

  /** The deployment part of a client's state. */
  datatype Client = Client(status: Status, message: string, objects: seq<DeployObject>)

  /** One action in `onmessage`; an index out of range is an exception. */
  function Receive(c: Client, a: ServerAction): Option<Client> {
    match a
    case AddLog(_) => Some(c)
    case ClearLog => Some(c)
    case SetStatus(s) => Some(c.(status := s))
    case SetMessage(m) => Some(c.(message := m))
    case SetObjects(os) => Some(c.(objects := os))
    case SetObjectStatus(i, s) =>
      if i < |c.objects| then Some(c.(objects := c.objects[i := c.objects[i].(status := s)])) else None
    case ToggleObject(None, on) => Some(c.(objects := WithEnabled(c.objects, on)))
    case ToggleObject(Some(i), on) =>
      if i < |c.objects| then Some(c.(objects := c.objects[i := c.objects[i].(enabled := on)])) else None
  }

  function ReceiveAll(c: Client, actions: seq<ServerAction>): Option<Client>
    decreases |actions|
  {
    if actions == [] then Some(c)
    else
      match Receive(c, actions[0])
      case Some(d) => ReceiveAll(d, actions[1..])
      case None => None
  }

  function View(s: Server): Client {
    Client(s.status, s.message, s.objects)
  }

  /** The client as an object whose fields the message handler assigns. */
  class DeploymentState {
    var status: Status
    var message: string
    var objects: seq<DeployObject>

    function C(): Client
      reads this
    {
      Client(status, message, objects)
    }

    constructor (initial: Server)
      ensures C() == View(initial)
    {
      status, message, objects := initial.status, initial.message, initial.objects;
    }

    method OnMessage(d: ServerAction) returns (ok: bool)
      modifies this
      ensures ok <==> Receive(old(C()), d).Some?
      ensures ok ==> Some(C()) == Receive(old(C()), d)
      ensures !ok ==> C() == old(C())
    {
      ok := true;
      match d {
        case SetStatus(s) => status := s;
        case SetMessage(m) => message := m;
        case SetObjects(os) => objects := os;
        case SetObjectStatus(i, s) =>
          if i >= |objects| { return false; }
          objects := objects[i := objects[i].(status := s)];
        case ToggleObject(Some(i), on) =>
          if i >= |objects| { return false; }
          objects := objects[i := objects[i].(enabled := on)];
        case ToggleObject(None, on) =>
          var before := objects;
          for k := 0 to |before|
            invariant |objects| == |before| && status == old(status) && message == old(message)
            invariant forall j :: 0 <= j < |before| ==>
              objects[j] == if j < k then before[j].(enabled := on) else before[j]
          {
            objects := objects[k := objects[k].(enabled := on)];
          }
          assert objects == WithEnabled(before, on);
        case _ =>
      }
    }
  }

  // ---------------------------------------------------------------- runs of the protocol

  /** Events of a run. A worker is a call that passed its first section and has not ended; it
      can also be lost, when it returns early without another section. */
  datatype Event =
    | RequestSetup(worker: nat, cancel: bool)
    | FailSetup(worker: nat, reason: string)
    | FinishSetup(worker: nat, found: seq<DeployObject>)
    | RequestDeploy(worker: nat)
    | LogLine(worker: nat, line: string)
    | MarkStatus(worker: nat, indices: seq<nat>, mark: ObjectStatus)
    | FinishDeploy(worker: nat)
    | LoseWorker(worker: nat)
    | RequestStop
    | RequestCancel
    | RequestToggle(index: Option<nat>, on: bool)

  /** The lock-guarded state, the workers, and how many objects each deploy worker iterates over. */
  datatype System = System(server: Server, setups: set<nat>, deploys: map<nat, nat>)

  function SectionOf(e: Event): Option<Section> {
    match e
    case RequestSetup(_, cancel) => Some(SetupBegin(cancel))
    case FailSetup(_, m) => Some(SetupInvalid(m))
    case FinishSetup(_, os) => Some(SetupReady(os))
    case RequestDeploy(w) => Some(DeployBegin(w))
    case LogLine(_, line) => Some(DeployLog(line))
    case MarkStatus(_, indices, s) => Some(DeployMark(indices, s))
    case FinishDeploy(_) => Some(DeployDone)
    case LoseWorker(_) => None
    case RequestStop => Some(Stop)
    case RequestCancel => Some(CancelReview)
    case RequestToggle(i, on) => Some(Toggle(i, on))
  }

  /** Sections inside a worker are only run by a worker that is active; a deploy worker marks
      objects of the list it took. New workers have new names. */
  predicate Possible(y: System, e: Event) {
    match e
    case RequestSetup(w, _) => w !in y.setups && w !in y.deploys
    case FailSetup(w, _) => w in y.setups
    case FinishSetup(w, _) => w in y.setups
    case RequestDeploy(w) => w !in y.setups && w !in y.deploys
    case LogLine(w, _) => w in y.deploys
    case MarkStatus(w, indices, _) => w in y.deploys && forall k :: 0 <= k < |indices| ==> indices[k] < y.deploys[w]
    case FinishDeploy(w) => w in y.deploys
    case LoseWorker(w) => w in y.setups || w in y.deploys
    case _ => true
  }

  function Workers(y: System, e: Event): (set<nat>, map<nat, nat>) {
    match e
    case RequestSetup(w, c) => (if Passes(y.server, SetupBegin(c)) then y.setups + {w} else y.setups, y.deploys)
    case FailSetup(w, _) => (y.setups - {w}, y.deploys)
    case FinishSetup(w, _) => (y.setups - {w}, y.deploys)
    case RequestDeploy(w) =>
      (y.setups, if Passes(y.server, DeployBegin(w)) then y.deploys[w := |y.server.objects|] else y.deploys)
    case FinishDeploy(w) => (y.setups, y.deploys - {w})
    case LoseWorker(w) => (y.setups - {w}, y.deploys - {w})
    case _ => (y.setups, y.deploys)
  }

  function Next(y: System, e: Event): (System, seq<ServerAction>) {
    var (setups, deploys) := Workers(y, e);
    match SectionOf(e)
    case None => (System(y.server, setups, deploys), [])
    case Some(c) =>
      var (s, actions) := Perform(y.server, c);
      (System(s, setups, deploys), actions)
  }

  /** At most one worker; a setup worker only while the tree is built, a deploy worker only
      while deploying or stopping, over a list of the length it took and with the run token of
      the server. One status is never set. */
  predicate Safe(y: System) {
    && |y.setups| + |y.deploys| <= 1
    && (y.setups != {} ==> y.server.status == BuildingTree)
    && (forall w :: w in y.deploys ==>
         y.server.status in {Status.Deploying, Stopping} && y.deploys[w] == |y.server.objects| &&
           y.server.token == Some(w))
    && (y.server.status in {Status.Deploying, Stopping} ==> y.server.token.Some?)
    && y.server.status != ComputingChanges
  }

  // ---------------------------------------------------------------- safety

  lemma SetSmall(a: set<nat>, m: map<nat, nat>)
    requires |a| + |m| <= 1
    ensures forall x, y :: x in a && y in a ==> x == y
    ensures forall x, y :: x in m && y in m ==> x == y
    ensures a != {} ==> m == map[]
  {
    if a != {} {
      var x :| x in a;
      assert |a - {x}| == |a| - 1;
      assert |m| == 0;
    }
    if m != map[] {
      var x :| x in m;
      assert |m.Keys - {x}| == |m.Keys| - 1;
    }
  }

  lemma RemoveWorker(y: System, w: nat)
    requires Safe(y) && (w in y.setups || w in y.deploys)
    ensures y.setups - {w} == {} && y.deploys - {w} == map[]
  {
    SetSmall(y.setups, y.deploys);
  }

  lemma {:induction false} MarksKeepLength(s: Server, actions: seq<ServerAction>)
    requires forall k :: 0 <= k < |actions| ==> actions[k].SetObjectStatus?
    ensures var t := UpdateAll(s, actions);
      t.status == s.status && t.message == s.message && t.token == s.token && SameButStatus(s.objects, t.objects)
    decreases |actions|
  {
    if actions != [] {
      MarksKeepLength(Update(s, actions[0]), actions[1..]);
    }
  }

  /** The same objects, up to their statuses. */
  ghost predicate SameButStatus(a: seq<DeployObject>, b: seq<DeployObject>) {
    |a| == |b| && forall k :: 0 <= k < |a| ==> b[k] == a[k].(status := b[k].status)
  }

  /** What a section does to status, objects and token. */
  lemma SectionEffect(s: Server, c: Section)
    requires Passes(s, c)
    ensures Perform(s, c).0.token == if c.DeployBegin? then Some(c.worker) else s.token
    ensures var t := Perform(s, c).0;
      match c
      case SetupBegin(_) => t.status == BuildingTree && t.objects == s.objects
      case SetupInvalid(_) => t.status == InvalidTree && t.objects == s.objects
      case SetupReady(os) => t.status == (if os == [] then Done else ReviewChanges) && t.objects == os
      case DeployBegin(_) => t.status == Status.Deploying && t.objects == s.objects
      case DeployLog(_) => t.status == s.status && t.objects == s.objects
      case DeployMark(_, _) => t.status == s.status && SameButStatus(s.objects, t.objects)
      case DeployDone => t.status == Done && t.objects == s.objects
      case Stop => t.status == Stopping && t.objects == s.objects
      case CancelReview => t.status == Done && t.objects == []
      case Toggle(_, _) => t.status == s.status && |t.objects| == |s.objects|
  {
    match c {
      case SetupBegin(_) => UpdateFew(s, SetStatus(BuildingTree), SetMessage(""), ClearLog);
      case SetupInvalid(m) => UpdateFew(s, SetStatus(InvalidTree), SetMessage(m), ClearLog);
      case SetupReady(os) =>
        UpdateFew(s, SetStatus(Done), SetMessage(UP_TO_DATE), SetObjects(os));
        UpdateFew(s, SetStatus(ReviewChanges), SetMessage(""), SetObjects(os));
        assert ActionsOf(c) == if os == [] then [SetStatus(Done), SetMessage(UP_TO_DATE), SetObjects(os)]
                               else [SetStatus(ReviewChanges), SetMessage(""), SetObjects(os)];
      case DeployBegin(w) => UpdateFew(s.(token := Some(w)), SetStatus(Status.Deploying),
        AddLog("Deployment started\r\n"), ClearLog);
      case DeployLog(line) => UpdateFew(s, AddLog(line), ClearLog, ClearLog);
      case DeployMark(indices, mark) => MarksKeepLength(s, Marks(indices, mark));
      case DeployDone => UpdateFew(s, AddLog("Done"), SetStatus(Done), ClearLog);
      case Stop => UpdateFew(s, SetStatus(Stopping), AddLog("Stopping (could take a bit)"), ClearLog);
      case CancelReview => UpdateFew(s, SetStatus(Done), SetObjects([]), SetMessage(""));
      case Toggle(i, on) => UpdateFew(s, ToggleObject(i, on), ClearLog, ClearLog);
    }
  }

  /** Without workers only the status matters. */
  lemma IdleIsSafe(y: System)
    requires y.setups == {} && y.deploys == map[] && y.server.status != ComputingChanges
    requires y.server.status in {Status.Deploying, Stopping} ==> y.server.token.Some?
    ensures Safe(y)
  {
  }

  predicate Ends(e: Event, w: nat) {
    e == LoseWorker(w) || e == FinishDeploy(w) || (e.FailSetup? && e.worker == w) || (e.FinishSetup? && e.worker == w)
  }

  lemma EndLeavesNobody(y: System, e: Event, w: nat)
    requires Safe(y) && Possible(y, e) && Ends(e, w)
    ensures Next(y, e).0.setups == {} && Next(y, e).0.deploys == map[]
  {
    OneKindOfWorker(y);
    hide Perform, Safe;
    RemoveWorker(y, w);
  }

  lemma OneKindOfWorker(y: System)
    requires Safe(y)
    ensures y.setups == {} || y.deploys == map[]
  {
    SetSmall(y.setups, y.deploys);
  }

  lemma EndStatus(y: System, e: Event, w: nat)
    requires Ends(e, w) && y.server.status != ComputingChanges
    requires y.server.status in {Status.Deploying, Stopping} ==> y.server.token.Some?
    ensures var s := Next(y, e).0.server;
      s.status != ComputingChanges && (s.status in {Status.Deploying, Stopping} ==> s.token.Some?)
  {
    hide Perform, Workers;
    if SectionOf(e).Some? { SectionEffect(y.server, SectionOf(e).value); }
  }

  lemma EndIsSafe(y: System, e: Event, w: nat)
    requires Safe(y) && Possible(y, e) && Ends(e, w)
    ensures Safe(Next(y, e).0)
  {
    hide Perform, Next, Possible, Ends;
    EndLeavesNobody(y, e, w);
    EndStatus(y, e, w);
    IdleIsSafe(Next(y, e).0);
  }

  lemma StartIsAlone(y: System, e: Event)
    requires Safe(y) && Possible(y, e) && (e.RequestSetup? || e.RequestDeploy?)
    ensures Safe(Next(y, e).0)
  {
    hide Perform;
    NothingDone(y.server, e);
    if Passes(y.server, SectionOf(e).value) {
      NoWorkers(y);
      SectionEffect(y.server, SectionOf(e).value);
      var w := e.worker;
      assert |{w}| == 1;
      assert |map[w := |y.server.objects|]| == 1;
    }
  }

  lemma WorkIsSafe(y: System, e: Event)
    requires Safe(y) && Possible(y, e)
    requires e.LogLine? || e.MarkStatus? || e.RequestStop? || e.RequestCancel? || e.RequestToggle?
    ensures Safe(Next(y, e).0)
  {
    hide Perform;
    NothingDone(y.server, e);
    NoWorkers(y);
    if Passes(y.server, SectionOf(e).value) {
      SectionEffect(y.server, SectionOf(e).value);
    }
  }

  lemma StepSafe(y: System, e: Event)
    requires Safe(y) && Possible(y, e)
    ensures Safe(Next(y, e).0)
  {
    hide Next, Safe, Possible;
    match e {
      case FailSetup(w, _) => EndIsSafe(y, e, w);
      case FinishSetup(w, _) => EndIsSafe(y, e, w);
      case FinishDeploy(w) => EndIsSafe(y, e, w);
      case LoseWorker(w) => EndIsSafe(y, e, w);
      case RequestSetup(_, _) => StartIsAlone(y, e);
      case RequestDeploy(_) => StartIsAlone(y, e);
      case _ => WorkIsSafe(y, e);
    }
  }

  lemma NothingDone(s: Server, e: Event)
    ensures SectionOf(e).Some? && !Passes(s, SectionOf(e).value) ==> Perform(s, SectionOf(e).value) == (s, [])
  {
  }

  /** Nobody works in a status in which a new worker may start. */
  lemma NoWorkers(y: System)
    requires Safe(y)
    ensures y.server.status in {Done, ReviewChanges} ==> y.setups == {} && y.deploys == map[]
  {
    if y.deploys != map[] {
      var w :| w in y.deploys;
    }
  }

  /** A stop that finds a deployment under way cancels one token, and that is the active worker's. */
  lemma StopCancelsWorker(y: System)
    requires Safe(y) && Passes(y.server, Stop)
    ensures |Cancels(y.server)| == 1 && (y.deploys != map[] ==> Cancels(y.server) == y.deploys.Keys)
  {
    SetSmall(y.setups, y.deploys);
    if y.deploys != map[] {
      var w :| w in y.deploys;
      assert y.deploys.Keys == {w};
    }
  }

  /** While one worker deploys, the list of objects is not replaced: only statuses change. */
  lemma DeployingListKept(y: System, e: Event, w: nat)
    requires Safe(y) && Possible(y, e) && w in y.deploys && w in Next(y, e).0.deploys
    ensures SameButStatus(y.server.objects, Next(y, e).0.server.objects)
  {
    hide Perform;
    SetSmall(y.setups, y.deploys);
    NothingDone(y.server, e);
    if SectionOf(e).Some? && Passes(y.server, SectionOf(e).value) {
      SectionEffect(y.server, SectionOf(e).value);
    }
  }

  // ---------------------------------------------------------------- what each event shows

  /** Only objects have changed. */
  ghost predicate OnlyObjects(s: Server, t: Server) {
    t == s.(objects := t.objects) && |t.objects| == |s.objects|
  }

  ghost predicate ShowsToggle(s: Server, index: Option<nat>, on: bool, t: Server) {
    && OnlyObjects(s, t)
    && forall k :: 0 <= k < |s.objects| ==>
         t.objects[k] == if index == None || index == Some(k) then s.objects[k].(enabled := on) else s.objects[k]
  }

  ghost predicate ShowsMarks(s: Server, indices: seq<nat>, mark: ObjectStatus, t: Server) {
    && OnlyObjects(s, t)
    && forall k :: 0 <= k < |s.objects| ==>
         t.objects[k] == if k in indices then s.objects[k].(status := mark) else s.objects[k]
  }

  /** The state after an event, by the status that it finds. */
  ghost predicate Shows(s: Server, e: Event, t: Server) {
    match e
    case RequestSetup(_, cancel) =>
      t == if s.status == Done || (cancel && s.status == ReviewChanges) then
             Server(BuildingTree, "", s.objects, [], s.token)
           else s
    case FailSetup(_, reason) => t == Server(InvalidTree, reason, s.objects, s.log, s.token)
    case FinishSetup(_, found) =>
      t == if found == [] then Server(Done, "Everything up to date, nothing to deploy!", [], s.log, s.token)
           else Server(ReviewChanges, "", found, s.log, s.token)
    case RequestDeploy(w) =>
      t == if s.status == ReviewChanges then
             Server(Status.Deploying, s.message, s.objects, s.log + ["Deployment started\r\n"], Some(w))
           else s
    case LogLine(_, line) => t == s.(log := s.log + [line])
    case MarkStatus(_, indices, mark) => ShowsMarks(s, indices, mark, t)
    case FinishDeploy(_) => t == Server(Done, s.message, s.objects, s.log + ["Done"], s.token)
    case LoseWorker(_) => t == s
    case RequestStop =>
      t == if s.status == Status.Deploying then
             Server(Stopping, s.message, s.objects, s.log + ["Stopping (could take a bit)"], s.token)
           else s
    case RequestCancel => t == if s.status == ReviewChanges then Server(Done, "", [], s.log, s.token) else s
    case RequestToggle(i, on) =>
      if s.status == ReviewChanges && (i == None || i.value < |s.objects|) then ShowsToggle(s, i, on, t) else t == s
  }

  lemma {:induction false} MarksShow(s: Server, indices: seq<nat>, mark: ObjectStatus, actions: seq<ServerAction>)
    requires |actions| == |indices|
    requires forall k :: 0 <= k < |actions| ==> actions[k] == SetObjectStatus(indices[k], mark)
    ensures ShowsMarks(s, indices, mark, UpdateAll(s, actions))
    decreases |indices|
  {
    if indices != [] {
      MarksShow(Update(s, actions[0]), indices[1..], mark, actions[1..]);
      assert forall k: nat :: k in indices <==> k == indices[0] || k in indices[1..];
    }
  }

  lemma SetupShows(y: System, e: Event)
    requires e.RequestSetup? || e.FailSetup? || e.FinishSetup?
    ensures Shows(y.server, e, Next(y, e).0.server)
  {
    hide UpdateAll, Workers;
    var s := y.server;
    match e {
      case RequestSetup(_, _) => UpdateFew(s, SetStatus(BuildingTree), SetMessage(""), ClearLog);
      case FailSetup(_, m) => UpdateFew(s, SetStatus(InvalidTree), SetMessage(m), ClearLog);
      case FinishSetup(_, os) =>
        UpdateFew(s, SetStatus(Done), SetMessage(UP_TO_DATE), SetObjects(os));
        UpdateFew(s, SetStatus(ReviewChanges), SetMessage(""), SetObjects(os));
        SetupActions(os);
    }
  }

  lemma SetupActions(os: seq<DeployObject>)
    ensures ActionsOf(SetupReady(os)) ==
      if os == [] then [SetStatus(Done), SetMessage(UP_TO_DATE), SetObjects(os)]
      else [SetStatus(ReviewChanges), SetMessage(""), SetObjects(os)]
  {
  }

  lemma DeployShows(y: System, e: Event)
    requires e.RequestDeploy? || e.LogLine? || e.MarkStatus? || e.FinishDeploy?
    ensures Shows(y.server, e, Next(y, e).0.server)
  {
    hide UpdateAll, Workers;
    var s := y.server;
    match e {
      case RequestDeploy(w) =>
        UpdateFew(s.(token := Some(w)), SetStatus(Status.Deploying), AddLog("Deployment started\r\n"), ClearLog);
      case LogLine(_, line) => UpdateFew(s, AddLog(line), ClearLog, ClearLog);
      case MarkStatus(_, indices, mark) => MarksShow(s, indices, mark, Marks(indices, mark));
      case FinishDeploy(_) => UpdateFew(s, AddLog("Done"), SetStatus(Done), ClearLog);
    }
  }

  lemma RequestShows(y: System, e: Event)
    requires e.LoseWorker? || e.RequestStop? || e.RequestCancel? || e.RequestToggle?
    ensures Shows(y.server, e, Next(y, e).0.server)
  {
    hide UpdateAll, Workers;
    var s := y.server;
    match e {
      case LoseWorker(_) =>
      case RequestStop => UpdateFew(s, SetStatus(Stopping), AddLog("Stopping (could take a bit)"), ClearLog);
      case RequestCancel => UpdateFew(s, SetStatus(Done), SetObjects([]), SetMessage(""));
      case RequestToggle(i, on) => UpdateFew(s, ToggleObject(i, on), ClearLog, ClearLog);
    }
  }

  /** Whatever the interleaving, each event shows this. */
  lemma EventShows(y: System, e: Event)
    ensures Shows(y.server, e, Next(y, e).0.server)
  {
    hide Shows, Next;
    if e.RequestSetup? || e.FailSetup? || e.FinishSetup? {
      SetupShows(y, e);
    } else if e.RequestDeploy? || e.LogLine? || e.MarkStatus? || e.FinishDeploy? {
      DeployShows(y, e);
    } else {
      RequestShows(y, e);
    }
  }

  // ---------------------------------------------------------------- the mirror

  /** Every index in the actions is in range when its turn comes. */
  ghost predicate AllInRange(s: Server, actions: seq<ServerAction>)
    decreases |actions|
  {
    actions == [] || (Receive(View(s), actions[0]).Some? && AllInRange(Update(s, actions[0]), actions[1..]))
  }

  lemma {:induction false} ReplayFollows(s: Server, actions: seq<ServerAction>)
    requires AllInRange(s, actions)
    ensures ReceiveAll(View(s), actions) == Some(View(UpdateAll(s, actions)))
    decreases |actions|
  {
    if actions != [] {
      ReplayFollows(Update(s, actions[0]), actions[1..]);
    }
  }

  lemma {:induction false} MarksInRange(s: Server, actions: seq<ServerAction>)
    requires forall k :: 0 <= k < |actions| ==> actions[k].SetObjectStatus? && actions[k].index < |s.objects|
    ensures AllInRange(s, actions)
    decreases |actions|
  {
    if actions != [] {
      MarksInRange(Update(s, actions[0]), actions[1..]);
    }
  }

  lemma {:induction false} NoIndicesInRange(s: Server, actions: seq<ServerAction>)
    requires forall k :: 0 <= k < |actions| ==> !actions[k].SetObjectStatus? && !actions[k].ToggleObject?
    ensures AllInRange(s, actions)
    decreases |actions|
  {
    if actions != [] {
      NoIndicesInRange(Update(s, actions[0]), actions[1..]);
    }
  }

  /** A client that is up to date before a step is up to date after it. */
  lemma StepMirrors(y: System, e: Event)
    requires Safe(y) && Possible(y, e)
    ensures ReceiveAll(View(y.server), Next(y, e).1) == Some(View(Next(y, e).0.server))
  {
    hide AllInRange, UpdateAll;
    if SectionOf(e).Some? && Passes(y.server, SectionOf(e).value) {
      var c := SectionOf(e).value;
      var t := if c.DeployBegin? then y.server.(token := Some(c.worker)) else y.server;
      match c {
        case DeployMark(indices, mark) => MarksInRange(t, ActionsOf(c));
        case Toggle(i, on) => ToggleInRange(t, i, on);
        case _ => NoIndicesInRange(t, ActionsOf(c));
      }
      ReplayFollows(t, ActionsOf(c));
    }
  }

  lemma ToggleInRange(s: Server, i: Option<nat>, on: bool)
    requires i.Some? ==> i.value < |s.objects|
    ensures AllInRange(s, [ToggleObject(i, on)])
  {
    var a := ToggleObject(i, on);
    assert [a][1..] == [];
    assert AllInRange(Update(s, a), []);
  }

  // ---------------------------------------------------------------- whole runs

  ghost predicate AllPossible(y: System, es: seq<Event>)
    decreases |es|
  {
    es == [] || (Possible(y, es[0]) && AllPossible(Next(y, es[0]).0, es[1..]))
  }

  function RunAll(y: System, es: seq<Event>): (System, seq<ServerAction>)
    decreases |es|
  {
    if es == [] then (y, [])
    else
      var (z, actions) := Next(y, es[0]);
      var (end, more) := RunAll(z, es[1..]);
      (end, actions + more)
  }

  const START: System := System(Server(Done, "", [], [], None), {}, map[])

  lemma {:induction false} ReceiveConcat(c: Client, a: seq<ServerAction>, b: seq<ServerAction>)
    ensures ReceiveAll(c, a + b) ==
            match ReceiveAll(c, a) case Some(d) => ReceiveAll(d, b) case None => None
    decreases |a|
  {
    if a == [] {
      assert [] + b == b;
    } else {
      assert (a + b)[1..] == a[1..] + b;
      if Receive(c, a[0]).Some? { ReceiveConcat(Receive(c, a[0]).value, a[1..], b); }
    }
  }

  /** Whatever the interleaving: the system stays safe, and a client that starts from any of its
      states and receives the actions in the order of the lock never sees an index out of range
      and ends with the server's status, message and objects. */
  lemma {:induction false} EveryRun(y: System, es: seq<Event>)
    requires Safe(y) && AllPossible(y, es)
    ensures Safe(RunAll(y, es).0)
    ensures ReceiveAll(View(y.server), RunAll(y, es).1) == Some(View(RunAll(y, es).0.server))
    decreases |es|
  {
    hide Next, Possible;
    if es != [] {
      var (z, actions) := Next(y, es[0]);
      StepSafe(y, es[0]);
      StepMirrors(y, es[0]);
      EveryRun(z, es[1..]);
      ReceiveConcat(View(y.server), actions, RunAll(z, es[1..]).1);
    }
  }

  lemma StartIsSafe(es: seq<Event>)
    requires AllPossible(START, es)
    ensures Safe(RunAll(START, es).0)
    ensures ReceiveAll(View(START.server), RunAll(START, es).1) == Some(View(RunAll(START, es).0.server))
  {
    EveryRun(START, es);
  }

  // ---------------------------------------------------------------- statuses that are never left

  lemma InvalidTreeStays(y: System, e: Event)
    requires Safe(y) && y.server.status == InvalidTree && Possible(y, e)
    ensures Safe(Next(y, e).0) && Next(y, e).0.server == y.server && Next(y, e).1 == []
  {
    StepSafe(y, e);
    NoWorkersAtAll(y);
  }

  lemma NoWorkersAtAll(y: System)
    requires Safe(y) && y.server.status !in {BuildingTree, Status.Deploying, Stopping}
    ensures y.setups == {} && y.deploys == map[]
  {
    assert forall w :: w !in y.deploys;
    assert y.deploys.Keys == {};
  }

  /** Once a tree is invalid, no sequence of requests ever changes anything again. */
  lemma {:induction false} InvalidTreeIsFinal(y: System, es: seq<Event>)
    requires Safe(y) && y.server.status == InvalidTree && AllPossible(y, es)
    ensures RunAll(y, es).0.server == y.server && RunAll(y, es).1 == []
    decreases |es|
  {
    if es != [] {
      InvalidTreeStays(y, es[0]);
      InvalidTreeIsFinal(Next(y, es[0]).0, es[1..]);
    }
  }

  /** The tree is valid, and the worker that has to leave the present status was not lost. */
  predicate CanFinish(y: System) {
    && y.server.status != InvalidTree
    && (y.server.status == BuildingTree ==> y.setups != {})
    && (y.server.status in {Status.Deploying, Stopping} ==> y.deploys != map[])
  }

  lemma StuckStays(y: System, e: Event)
    requires Safe(y) && !CanFinish(y) && Possible(y, e)
    ensures var z := Next(y, e).0;
      Safe(z) && !CanFinish(z) && (z.server.status == y.server.status || z.server.status == Stopping) &&
        z.server.objects == y.server.objects
  {
    hide Perform;
    StepSafe(y, e);
    NothingDone(y.server, e);
    if y.server.status == InvalidTree { NoWorkersAtAll(y); }
    if SectionOf(e).Some? && Passes(y.server, SectionOf(e).value) {
      SectionEffect(y.server, SectionOf(e).value);
    }
  }

  lemma {:induction false} StuckForever(y: System, es: seq<Event>)
    requires Safe(y) && !CanFinish(y) && AllPossible(y, es)
    ensures !CanFinish(RunAll(y, es).0) && RunAll(y, es).0.server.objects == y.server.objects
    decreases |es|
  {
    hide Next, Safe, CanFinish, Possible;
    if es != [] {
      StuckStays(y, es[0]);
      StuckForever(Next(y, es[0]).0, es[1..]);
    }
  }

  lemma WayToDone(y: System) returns (es: seq<Event>)
    requires Safe(y) && CanFinish(y)
    ensures AllPossible(y, es) && RunAll(y, es).0.server.status == Done
  {
    hide Perform;
    if y.server.status == Done {
      es := [];
    } else if y.server.status == ReviewChanges {
      es := [RequestCancel];
      SectionEffect(y.server, CancelReview);
    } else if y.server.status == BuildingTree {
      var w :| w in y.setups;
      es := [FinishSetup(w, [])];
      SectionEffect(y.server, SetupReady([]));
    } else {
      var w :| w in y.deploys;
      es := [FinishDeploy(w)];
      SectionEffect(y.server, DeployDone);
    }
    if es != [] {
      assert es[1..] == [];
      assert AllPossible(Next(y, es[0]).0, es[1..]);
      assert RunAll(Next(y, es[0]).0, es[1..]).0 == Next(y, es[0]).0;
    }
  }

  /** From a safe state some sequence of events leads to Done exactly when the tree is valid and no
      worker was lost that the status waits for. */
  lemma DoneReachableIff(y: System)
    requires Safe(y)
    ensures (exists es :: AllPossible(y, es) && RunAll(y, es).0.server.status == Done) <==> CanFinish(y)
  {
    hide Safe, AllPossible, RunAll;
    if CanFinish(y) {
      var es := WayToDone(y);
    } else {
      forall es | AllPossible(y, es) ensures RunAll(y, es).0.server.status != Done {
        StuckForever(y, es);
      }
    }
  }

  lemma WayToStuck(y: System) returns (es: seq<Event>)
    requires Safe(y)
    ensures AllPossible(y, es) && |es| <= 2 && !CanFinish(RunAll(y, es).0)
  {
    if !CanFinish(y) {
      es := [];
    } else if y.setups != {} || y.deploys != map[] {
      var w :| w in y.setups || w in y.deploys;
      LosingIsStuck(y, w);
      OneEvent(y, LoseWorker(w));
      es := [LoseWorker(w)];
    } else {
      var e := if y.server.status == Done then RequestSetup(0, false) else RequestDeploy(0);
      StartsWorker(y, e);
      LosingIsStuck(Next(y, e).0, 0);
      OneEvent(Next(y, e).0, LoseWorker(0));
      es := [e, LoseWorker(0)];
      assert es[1..] == [LoseWorker(0)];
      hide Next;
    }
  }

  lemma LosingIsStuck(y: System, w: nat)
    requires Safe(y) && (w in y.setups || w in y.deploys)
    ensures Possible(y, LoseWorker(w)) && !CanFinish(Next(y, LoseWorker(w)).0)
  {
    RemoveWorker(y, w);
  }

  lemma StartsWorker(y: System, e: Event)
    requires Safe(y) && CanFinish(y) && y.setups == {} && y.deploys == map[]
    requires e == if y.server.status == Done then RequestSetup(0, false) else RequestDeploy(0)
    ensures Possible(y, e) && Safe(Next(y, e).0) && (0 in Next(y, e).0.setups || 0 in Next(y, e).0.deploys)
  {
    hide Perform;
    StepSafe(y, e);
  }

  lemma OneEvent(y: System, e: Event)
    ensures AllPossible(y, [e]) == Possible(y, e) && RunAll(y, [e]).0 == Next(y, e).0
  {
    assert [e][1..] == [];
    assert RunAll(Next(y, e).0, []).0 == Next(y, e).0;
  }

  /** From every safe state at most two events lead to one from which nothing ever leads to Done. */
  lemma StuckIsNear(y: System) returns (es: seq<Event>)
    requires Safe(y)
    ensures AllPossible(y, es) && |es| <= 2
    ensures forall more :: AllPossible(RunAll(y, es).0, more) ==>
      RunAll(RunAll(y, es).0, more).0.server.status != Done
  {
    hide Safe, AllPossible, RunAll;
    es := WayToStuck(y);
    EveryRun(y, es);
    var z := RunAll(y, es).0;
    forall more | AllPossible(z, more) ensures RunAll(z, more).0.server.status != Done {
      StuckForever(z, more);
    }
  }

  /** A deployment whose worker was lost can only be stopped, never finished or set up anew. */
  lemma {:induction false} LostDeployIsFinal(y: System, es: seq<Event>)
    requires Safe(y) && y.server.status in {Status.Deploying, Stopping} && y.deploys == map[] && AllPossible(y, es)
    ensures RunAll(y, es).0.server.status in {Status.Deploying, Stopping}
    ensures RunAll(y, es).0.server.objects == y.server.objects
    decreases |es|
  {
    if es != [] {
      LostDeployStays(y, es[0]);
      LostDeployIsFinal(Next(y, es[0]).0, es[1..]);
    }
  }

  lemma LostDeployStays(y: System, e: Event)
    requires Safe(y) && y.server.status in {Status.Deploying, Stopping} && y.deploys == map[] && Possible(y, e)
    ensures var z := Next(y, e).0;
      Safe(z) && z.server.status in {Status.Deploying, Stopping} && z.deploys == map[] &&
        z.server.objects == y.server.objects
  {
    hide Perform;
    StepSafe(y, e);
    NothingDone(y.server, e);
    if SectionOf(e).Some? && Passes(y.server, SectionOf(e).value) {
      SectionEffect(y.server, SectionOf(e).value);
    }
  }
}
