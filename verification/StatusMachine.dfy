/** The critical sections of the deployment state, the actions they broadcast, and the web
    client that replays the actions. */
module StatusMachine {
  import opened Wrappers
  import opened DeployTypes

  datatype Status = Done | BuildingTree | InvalidTree | ComputingChanges | ReviewChanges | Deploying | Stopping

  datatype ServerAction =
    | AddLog(line: string)
    | ClearLog
    | SetStatus(status: Status)
    | SetMessage(message: string)
    | SetObjects(objects: seq<DeployObject>)
    | SetObjectStatus(index: nat, objectStatus: ObjectStatus)
    | ToggleObject(toggled: Option<nat>, enabled: bool)

  /** What the lock guards. */
  datatype Server = Server(status: Status, message: string, objects: seq<DeployObject>, log: seq<string>,
    token: Option<nat>)

  const UP_TO_DATE: string := "Everything up to date, nothing to deploy!"

  // ---------------------------------------------------------------- single updates

  function WithObjectStatus(objects: seq<DeployObject>, index: nat, s: ObjectStatus): (r: seq<DeployObject>)
    ensures |r| == |objects|
  {
    if index < |objects| then objects[index := objects[index].(status := s)] else objects
  }

  function WithEnabled(objects: seq<DeployObject>, enabled: bool): seq<DeployObject> {
    seq(|objects|, k requires 0 <= k < |objects| => objects[k].(enabled := enabled))
  }

  /** What one action does to the server that queued it. */
  function Update(s: Server, a: ServerAction): Server {
    match a
    case AddLog(line) => s.(log := s.log + [line])
    case ClearLog => s.(log := [])
    case SetStatus(status) => s.(status := status)
    case SetMessage(m) => s.(message := m)
    case SetObjects(os) => s.(objects := os)
    case SetObjectStatus(i, st) => s.(objects := WithObjectStatus(s.objects, i, st))
    case ToggleObject(None, e) => s.(objects := WithEnabled(s.objects, e))
    case ToggleObject(Some(i), e) => if i < |s.objects| then s.(objects := s.objects[i := s.objects[i].(enabled := e)])
      else s
  }

  function UpdateAll(s: Server, actions: seq<ServerAction>): Server
    decreases |actions|
  {
    if actions == [] then s else UpdateAll(Update(s, actions[0]), actions[1..])
  }

  lemma UpdateFew(s: Server, a: ServerAction, b: ServerAction, c: ServerAction)
    ensures UpdateAll(s, [a]) == Update(s, a)
    ensures UpdateAll(s, [a, b]) == Update(Update(s, a), b)
    ensures UpdateAll(s, [a, b, c]) == Update(Update(Update(s, a), b), c)
  {
    UpdateOne(s, a);
    UpdateOne(Update(s, a), b);
    UpdateOne(Update(Update(s, a), b), c);
    assert [a, b][1..] == [b] && [a, b, c][1..] == [b, c] && [b, c][1..] == [c];
    assert UpdateAll(Update(s, a), [b, c]) == UpdateAll(Update(Update(s, a), b), [c]);
  }

  lemma UpdateOne(s: Server, a: ServerAction)
    ensures UpdateAll(s, [a]) == Update(s, a)
  {
    assert [a][1..] == [];
    assert UpdateAll(Update(s, a), []) == Update(s, a);
  }

  // ---------------------------------------------------------------- the critical sections

  /** What a section does under the lock: the actions it queues, in order; and whether the
      caller goes on as a worker afterwards. */
  datatype Section =
    | SetupBegin(cancel: bool)
    | SetupInvalid(reason: string)
    | SetupReady(found: seq<DeployObject>)
    | DeployBegin(worker: nat)
    | DeployLog(line: string)
    | DeployMark(indices: seq<nat>, mark: ObjectStatus)
    | DeployDone
    | Stop
    | CancelReview
    | Toggle(index: Option<nat>, on: bool)

  function Marks(indices: seq<nat>, s: ObjectStatus): seq<ServerAction> {
    seq(|indices|, k requires 0 <= k < |indices| => SetObjectStatus(indices[k], s))
  }

  /** The section finds the status it needs. */
  predicate Passes(s: Server, c: Section) {
    match c
    case SetupBegin(cancel) => s.status == Done || (cancel && s.status == ReviewChanges)
    case DeployBegin(_) => s.status == ReviewChanges
    case Stop => s.status == Status.Deploying
    case CancelReview => s.status == ReviewChanges
    case Toggle(i, _) => s.status == ReviewChanges && (i.Some? ==> i.value < |s.objects|)
    case _ => true
  }

  function ActionsOf(c: Section): seq<ServerAction> {
    match c
    case SetupBegin(_) => [SetStatus(BuildingTree), SetMessage(""), ClearLog]
    case SetupInvalid(m) => [SetStatus(InvalidTree), SetMessage(m)]
    case SetupReady(os) =>
      (if os == [] then [SetStatus(Done), SetMessage(UP_TO_DATE)] else [SetStatus(ReviewChanges), SetMessage("")]) +
        [SetObjects(os)]
    case DeployBegin(_) => [SetStatus(Status.Deploying), AddLog("Deployment started\r\n")]
    case DeployLog(line) => [AddLog(line)]
    case DeployMark(indices, s) => Marks(indices, s)
    case DeployDone => [AddLog("Done"), SetStatus(Done)]
    case Stop => [SetStatus(Stopping), AddLog("Stopping (could take a bit)")]
    case CancelReview => [SetStatus(Done), SetObjects([]), SetMessage("")]
    case Toggle(i, on) => [ToggleObject(i, on)]
  }

  /** The state after a section, and what it broadcasts. */
  function Perform(s: Server, c: Section): (Server, seq<ServerAction>) {
    if !Passes(s, c) then (s, [])
    else
      var t := if c.DeployBegin? then s.(token := Some(c.worker)) else s;
      (UpdateAll(t, ActionsOf(c)), ActionsOf(c))
  }

  /** The run tokens that a stop cancels, whatever status it finds. */
  function Cancels(s: Server): set<nat> {
    if s.token.Some? then {s.token.value} else {}
  }

  // ---------------------------------------------------------------- the sections as the code runs them

  class Deployment {
    var status: Status
    var message: string
    var objects: seq<DeployObject>
    var log: seq<string>
    var delayedActions: seq<ServerAction>
    var token: Option<nat>
    /** The run tokens that were cancelled. */
    var cancelled: set<nat>

    function S(): Server
      reads this
    {
      Server(status, message, objects, log, token)
    }

    constructor ()
      ensures S() == Server(Done, "", [], [], None) && delayedActions == []
    {
      status, message, objects, log, delayedActions, token, cancelled := Done, "", [], [], [], None, {};
    }

    method QueueLog(line: string)
      modifies this`log, this`delayedActions
      ensures S() == Update(old(S()), AddLog(line)) && delayedActions == old(delayedActions) + [AddLog(line)]
    {
      log := log + [line];
      delayedActions := delayedActions + [AddLog(line)];
    }

    method QueueClearLog()
      modifies this`log, this`delayedActions
      ensures S() == Update(old(S()), ClearLog) && delayedActions == old(delayedActions) + [ClearLog]
    {
      log := [];
      delayedActions := delayedActions + [ClearLog];
    }

    method QueueStatus(s: Status)
      modifies this`status, this`delayedActions
      ensures S() == Update(old(S()), SetStatus(s)) && delayedActions == old(delayedActions) + [SetStatus(s)]
    {
      status := s;
      delayedActions := delayedActions + [SetStatus(s)];
    }

    method QueueObjectStatus(index: nat, s: ObjectStatus)
      modifies this`objects, this`delayedActions
      ensures S() == Update(old(S()), SetObjectStatus(index, s))
      ensures delayedActions == old(delayedActions) + [SetObjectStatus(index, s)]
    {
      if index < |objects| {
        objects := objects[index := objects[index].(status := s)];
      }
      delayedActions := delayedActions + [SetObjectStatus(index, s)];
    }

    method QueueMessage(m: string)
      modifies this`message, this`delayedActions
      ensures S() == Update(old(S()), SetMessage(m)) && delayedActions == old(delayedActions) + [SetMessage(m)]
    {
      message := m;
      delayedActions := delayedActions + [SetMessage(m)];
    }

    method QueueObjects(os: seq<DeployObject>)
      modifies this`objects, this`delayedActions
      ensures S() == Update(old(S()), SetObjects(os)) && delayedActions == old(delayedActions) + [SetObjects(os)]
    {
      objects := os;
      delayedActions := delayedActions + [SetObjects(os)];
    }

    method TakeActions() returns (actions: seq<ServerAction>)
      modifies this`delayedActions
      ensures actions == old(delayedActions) && delayedActions == []
    {
      actions := delayedActions;
      delayedActions := [];
    }

    /** The first section of `setup_deployment`. */
    method BeginSetup(cancel: bool) returns (refused: bool, actions: seq<ServerAction>)
      requires delayedActions == []
      modifies this
      ensures delayedActions == [] && (S(), actions) == Perform(old(S()), SetupBegin(cancel))
      ensures refused <==> !Passes(old(S()), SetupBegin(cancel))
    {
      if status != Done && (!cancel || status != ReviewChanges) {
        return true, [];
      }
      UpdateFew(S(), SetStatus(BuildingTree), SetMessage(""), ClearLog);
      QueueStatus(BuildingTree);
      QueueMessage("");
      QueueClearLog();
      actions := TakeActions();
      assert actions == ActionsOf(SetupBegin(cancel));
      refused := false;
    }

    method EndSetupInvalid(reason: string) returns (actions: seq<ServerAction>)
      requires delayedActions == []
      modifies this
      ensures delayedActions == [] && (S(), actions) == Perform(old(S()), SetupInvalid(reason))
    {
      UpdateFew(S(), SetStatus(InvalidTree), SetMessage(reason), ClearLog);
      QueueStatus(InvalidTree);
      QueueMessage(reason);
      actions := TakeActions();
      assert actions == ActionsOf(SetupInvalid(reason));
    }

    method EndSetup(found: seq<DeployObject>) returns (actions: seq<ServerAction>)
      requires delayedActions == []
      modifies this
      ensures delayedActions == [] && (S(), actions) == Perform(old(S()), SetupReady(found))
    {
      UpdateFew(S(), SetStatus(Done), SetMessage(UP_TO_DATE), SetObjects(found));
      UpdateFew(S(), SetStatus(ReviewChanges), SetMessage(""), SetObjects(found));
      if found == [] {
        QueueStatus(Done);
        QueueMessage(UP_TO_DATE);
      } else {
        QueueStatus(ReviewChanges);
        QueueMessage("");
      }
      QueueObjects(found);
      actions := TakeActions();
      assert ActionsOf(SetupReady(found)) ==
        if found == [] then [SetStatus(Done), SetMessage(UP_TO_DATE), SetObjects(found)]
        else [SetStatus(ReviewChanges), SetMessage(""), SetObjects(found)];
      assert actions == ActionsOf(SetupReady(found));
    }

    method BeginDeploy(worker: nat) returns (snapshot: Option<seq<DeployObject>>, actions: seq<ServerAction>)
      requires delayedActions == []
      modifies this
      ensures delayedActions == [] && (S(), actions) == Perform(old(S()), DeployBegin(worker))
      ensures snapshot == if Passes(old(S()), DeployBegin(worker)) then Some(old(objects)) else None
    {
      if status != ReviewChanges {
        return None, [];
      }
      token := Some(worker);
      UpdateFew(S(), SetStatus(Status.Deploying), AddLog("Deployment started\r\n"), ClearLog);
      QueueStatus(Status.Deploying);
      QueueLog("Deployment started\r\n");
      snapshot := Some(objects);
      actions := TakeActions();
      assert actions == ActionsOf(DeployBegin(worker));
    }

    method MarkObjects(indices: seq<nat>, s: ObjectStatus) returns (actions: seq<ServerAction>)
      requires delayedActions == []
      modifies this
      ensures delayedActions == [] && (S(), actions) == Perform(old(S()), DeployMark(indices, s))
    {
      ghost var start := S();
      for k := 0 to |indices|
        invariant S() == UpdateAll(start, Marks(indices, s)[..k])
        invariant delayedActions == Marks(indices, s)[..k]
      {
        QueueObjectStatus(indices[k], s);
        assert Marks(indices, s)[..k + 1] == Marks(indices, s)[..k] + [SetObjectStatus(indices[k], s)];
        UpdateSnoc(start, Marks(indices, s)[..k], SetObjectStatus(indices[k], s));
      }
      assert Marks(indices, s)[..|indices|] == Marks(indices, s);
      actions := TakeActions();
    }

    method EndDeploy() returns (actions: seq<ServerAction>)
      requires delayedActions == []
      modifies this
      ensures delayedActions == [] && (S(), actions) == Perform(old(S()), DeployDone)
    {
      UpdateFew(S(), AddLog("Done"), SetStatus(Done), ClearLog);
      QueueLog("Done");
      QueueStatus(Done);
      actions := TakeActions();
      assert actions == ActionsOf(DeployDone);
    }

    method StopDeploy() returns (actions: seq<ServerAction>)
      requires delayedActions == []
      modifies this
      ensures delayedActions == [] && (S(), actions) == Perform(old(S()), Stop)
      ensures cancelled == old(cancelled) + Cancels(old(S()))
    {
      if token.Some? {
        cancelled := cancelled + {token.value};
      }
      if status != Status.Deploying {
        return [];
      }
      UpdateFew(S(), SetStatus(Stopping), AddLog("Stopping (could take a bit)"), ClearLog);
      QueueStatus(Stopping);
      QueueLog("Stopping (could take a bit)");
      actions := TakeActions();
      assert actions == ActionsOf(Stop);
    }

    method Cancel() returns (actions: seq<ServerAction>)
      requires delayedActions == []
      modifies this
      ensures delayedActions == [] && (S(), actions) == Perform(old(S()), CancelReview)
    {
      if status != ReviewChanges {
        return [];
      }
      UpdateFew(S(), SetStatus(Done), SetObjects([]), SetMessage(""));
      QueueStatus(Done);
      QueueObjects([]);
      QueueMessage("");
      actions := TakeActions();
      assert actions == ActionsOf(CancelReview);
    }

    method ToggleEnabled(index: Option<nat>, on: bool) returns (actions: seq<ServerAction>)
      requires delayedActions == []
      modifies this`objects
      ensures delayedActions == [] && (S(), actions) == Perform(old(S()), Toggle(index, on))
    {
      if status != ReviewChanges {
        return [];
      }
      UpdateFew(S(), ToggleObject(index, on), ClearLog, ClearLog);
      match index {
        case Some(i) =>
          if i < |objects| {
            objects := objects[i := objects[i].(enabled := on)];
          } else {
            return [];
          }
        case None =>
          var before := objects;
          for k := 0 to |before|
            invariant |objects| == |before|
            invariant forall j :: 0 <= j < |before| ==>
              objects[j] == if j < k then before[j].(enabled := on) else before[j]
          {
            objects := objects[k := objects[k].(enabled := on)];
          }
          assert objects == WithEnabled(before, on);
      }
      actions := [ToggleObject(index, on)];
    }
  }

  lemma {:induction false} UpdateSnoc(s: Server, actions: seq<ServerAction>, a: ServerAction)
    ensures UpdateAll(s, actions + [a]) == Update(UpdateAll(s, actions), a)
    decreases |actions|
  {
    if actions == [] {
      assert ([] + [a])[1..] == [];
    } else {
      assert (actions + [a])[1..] == actions[1..] + [a];
      UpdateSnoc(Update(s, actions[0]), actions[1..], a);
    }
  }
}
