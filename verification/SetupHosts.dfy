/** All hosts of a setup, one after another, and what becomes of the errors of one of them. */
module SetupHosts {
  import opened DeployTypes
  import opened Diff
  import opened Triggers
  import opened Wrappers

  /** What `setup_deployment_host` leaves: errors that were collected and objects that were found,
      or a failure that ends the setup. */
  datatype HostResult = Found(errors: seq<string>, objects: seq<DeployObject>) | Aborted(reason: string)

  /** What the root object leaves before any host is visited: errors of its variables and its content,
      or a failure that ends the setup. */
  datatype RootResult = RootErrors(errors: seq<string>) | RootFailed(reason: string)

  datatype Outcome = Ready(objects: seq<DeployObject>) | Invalid(message: string)

  function Join(lines: seq<string>): string {
    if lines == [] then "" else if |lines| == 1 then lines[0] else lines[0] + "\n" + Join(lines[1..])
  }

  /** The lines of a text. */
  function LinesOf(text: string): (lines: seq<string>)
    ensures lines != []
  {
    if text == "" then [""]
    else
      var rest := LinesOf(text[1..]);
      if text[0] == '\n' then [""] + rest else [[text[0]] + rest[0]] + rest[1..]
  }

  lemma {:induction false} LineThenRest(line: string, rest: string)
    requires '\n' !in line
    ensures LinesOf(line) == [line] && LinesOf(line + "\n" + rest) == [line] + LinesOf(rest)
    decreases |line|
  {
    var text := line + "\n" + rest;
    if line == "" {
      assert text == "\n" + rest && text[1..] == rest;
    } else {
      assert '\n' !in line[1..] && text[1..] == line[1..] + "\n" + rest;
      LineThenRest(line[1..], rest);
      assert [line[0]] + line[1..] == line;
    }
  }

  /** Every error has its own line in the message, in the order in which they were reported. */
  lemma {:induction false} MessageHasAllErrors(errors: seq<string>)
    requires errors != [] && forall e :: e in errors ==> '\n' !in e
    ensures LinesOf(Join(errors)) == errors
    decreases |errors|
  {
    LineThenRest(errors[0], Join(errors[1..]));
    if |errors| > 1 {
      MessageHasAllErrors(errors[1..]);
      assert errors == [errors[0]] + errors[1..];
    }
  }

  function AllObjectsOf(results: seq<HostResult>): seq<DeployObject> {
    if results == [] then []
    else ObjectsOf(results[0]) + AllObjectsOf(results[1..])
  }

  function ObjectsOf(r: HostResult): seq<DeployObject> {
    if r.Found? then r.objects else []
  }

  predicate NoneAborted(results: seq<HostResult>) {
    forall k :: 0 <= k < |results| ==> results[k].Found?
  }

  lemma {:induction false} AllObjectsSnoc(results: seq<HostResult>, r: HostResult)
    ensures AllObjectsOf(results + [r]) == AllObjectsOf(results) + ObjectsOf(r)
  {
    hide ObjectsOf;
    if results == [] {
      assert results + [r] == [r] && [r][1..] == [];
      assert [] + ObjectsOf(r) == ObjectsOf(r) + [];
    } else {
      assert (results + [r])[1..] == results[1..] + [r];
      AllObjectsSnoc(results[1..], r);
      var a, b, c := ObjectsOf(results[0]), AllObjectsOf(results[1..]), ObjectsOf(r);
      assert a + (b + c) == (a + b) + c;
    }
  }

  /** Why the first host that failed did. */
  function FirstReason(results: seq<HostResult>): string
    requires !NoneAborted(results)
  {
    if results[0].Aborted? then results[0].reason else FirstReason(results[1..])
  }

  /** The errors that are looked at after the loop: those of the last host, or of the root if there
      is no host. */
  function LastErrors(root: RootResult, results: seq<HostResult>): seq<string>
    requires root.RootErrors? && NoneAborted(results)
  {
    if results == [] then root.errors else results[|results| - 1].errors
  }

  /** A root or a host that fails ends the setup; otherwise the last errors decide. */
  function SetupOutcome(root: RootResult, results: seq<HostResult>): Outcome {
    if root.RootFailed? then Invalid(root.reason)
    else if !NoneAborted(results) then Invalid(FirstReason(results))
    else if LastErrors(root, results) != [] then Invalid(Join(LastErrors(root, results)))
    else Ready(AllObjectsOf(results))
  }

  lemma {:induction false} FirstAborts(results: seq<HostResult>, k: nat)
    requires k < |results| && results[k].Aborted? && forall i :: 0 <= i < k ==> results[i].Found?
    ensures !NoneAborted(results) && FirstReason(results) == results[k].reason
    decreases k
  {
    if k > 0 { FirstAborts(results[1..], k - 1); }
  }

  /** The root, and the loop over the hosts. The errors are cleared before every host, so what is
      looked at after the loop are the errors of the last one, or those of the root without a host. */
  method SetupDeploymentInner(root: RootResult, results: seq<HostResult>) returns (o: Outcome)
    ensures o == SetupOutcome(root, results)
  {
    if root.RootFailed? { return Invalid(root.reason); }
    var errors := root.errors;
    var objects: seq<DeployObject> := [];
    for k := 0 to |results|
      invariant NoneAborted(results[..k]) && objects == AllObjectsOf(results[..k])
      invariant errors == if k == 0 then root.errors else results[k - 1].errors
    {
      errors := [];
      match results[k] {
        case Aborted(reason) =>
          assert forall i :: 0 <= i < k ==> results[i] == results[..k][i];
          FirstAborts(results, k);
          return Invalid(reason);
        case Found(found, os) =>
          errors := errors + found;
          AllObjectsSnoc(results[..k], results[k]);
          assert results[..k + 1] == results[..k] + [results[k]];
          objects := objects + os;
      }
    }
    assert results[..|results|] == results;
    if errors != [] { return Invalid(Join(errors)); }
    return Ready(objects);
  }

  /** A setup fails exactly if the root or a host failed, or the last host reported errors, or the root
      did and there is no host; otherwise everything that was found on any host is up for review,
      whatever the hosts before the last one reported. */
  lemma InvalidIff(root: RootResult, results: seq<HostResult>)
    ensures SetupOutcome(root, results).Invalid? <==>
      || root.RootFailed?
      || !NoneAborted(results)
      || if results == [] then root.errors != [] else results[|results| - 1].errors != []
    ensures SetupOutcome(root, results).Ready? ==>
      forall k, o :: 0 <= k < |results| && o in results[k].objects ==> o in SetupOutcome(root, results).objects
  {
    hide AllObjectsOf;
    if SetupOutcome(root, results).Ready? {
      forall k, o | 0 <= k < |results| && o in results[k].objects ensures o in SetupOutcome(root, results).objects {
        ObjectsOfHost(results, k, o);
      }
    }
  }

  /** The errors of the root are dropped as soon as there is a host. */
  lemma RootErrorsCountIff(errors: seq<string>, results: seq<HostResult>)
    requires errors != []
    ensures SetupOutcome(RootErrors(errors), results) == SetupOutcome(RootErrors([]), results) <==> results != []
  {
  }

  lemma {:induction false} ObjectsOfHost(results: seq<HostResult>, k: nat, o: DeployObject)
    requires k < |results| && results[k].Found? && o in results[k].objects
    ensures o in AllObjectsOf(results)
    decreases |results|
  {
    if k > 0 { ObjectsOfHost(results[1..], k - 1, o); }
  }

  predicate Removes(o: DeployObject, host: int, name: string) {
    o.host == host && o.name == name && o.action == Remove
  }

  /** A row of a full host whose object was not emitted is listed for removal. */
  lemma NotEmittedIsRemoved(s: Settings, rows: map<string, Row>, es: seq<Emitted>, os: seq<DeployObject>, name: string)
    requires IsDiff(s, rows, es, os) && s.full && name in rows && name !in NamesOf(es)
    ensures exists o :: o in os && Removes(o, s.host, name)
  {
    var ds := Deployable(es);
    DeployableSubset(es);
    var orphans := Orphans(rows, ds);
    var names, ts :|
      && IsRemovalOrder(s, rows, es, names)
      && var main := Changes(s, rows, ds) + Removals(s, orphans, names);
      && Fired(TriggersOf(main), ts)
      && os == main + TriggerObjects(s, ts);
    assert name !in NamesOf(ds);
    assert name in names;
    var o := RemovalOf(s, orphans, names, name);
    assert o in os;
  }

  lemma {:induction false} RemovalOf(s: Settings, rows: map<string, Row>, names: seq<string>, name: string)
    returns (o: DeployObject)
    requires (forall n :: n in names ==> n in rows && rows[n].content.script.Some?) && name in names
    ensures o in Removals(s, rows, names) && Removes(o, s.host, name)
    decreases |names|
  {
    if names[0] == name {
      o := RemoveObject(s, name, rows[name]);
    } else {
      o := RemovalOf(s, rows, names[1..], name);
    }
  }
}
