/** The errors that the visitors report, and what causes each of them. */
module Problems {
  import opened NodeNames
  import opened VariableStack
  import opened VisitStore

  datatype Problem =
    | MissingObject(id: I64)
    | MissingType(id: I64)
    | SelfMember(id: I64)
    | BadContent(id: I64)
    | BadTemplate(id: I64)
    | BadTrigger(id: I64)
    | CyclicDependency
    | BadName

  /** What computing an object's content does to the variables in scope. */
  datatype ContentEffect = ContentEffect(adds: seq<(string, string)>, problems: seq<Problem>, ok: bool)

  /** What computing its triggers does; trigger errors are only reported. */
  datatype TriggerEffect = TriggerEffect(adds: seq<(string, string)>, problems: seq<Problem>)

  type Contents = (I64, map<string, string>) -> ContentEffect
  type TriggerTexts = (I64, map<string, string>) -> TriggerEffect

  // ---------------------------------------------------------------- chains of objects

  /** The object has the other as a member or, if these count, as a dependency. */
  ghost predicate Has(cfg: Config, a: I64, b: I64, depends: bool) {
    cfg.Known(a) && (b in cfg.Children(a) || (depends && b in cfg.Dependencies(a)))
  }

  ghost predicate Chain(cfg: Config, ids: seq<I64>, depends: bool) {
    |ids| >= 2 && forall k :: 0 <= k < |ids| - 1 ==> Has(cfg, ids[k], ids[k + 1], depends)
  }

  /** A chain of members, and of dependencies if these count, leads from one object to the other. */
  ghost predicate Leads(cfg: Config, a: I64, b: I64, depends: bool) {
    exists ids :: Chain(cfg, ids, depends) && ids[0] == a && ids[|ids| - 1] == b
  }

  lemma LeadsAtOnce(cfg: Config, a: I64, b: I64, depends: bool)
    requires Has(cfg, a, b, depends)
    ensures Leads(cfg, a, b, depends)
  {
    var ids := [a, b];
    assert Chain(cfg, ids, depends) && ids[0] == a && ids[|ids| - 1] == b;
  }

  lemma LeadsOn(cfg: Config, a: I64, b: I64, c: I64, depends: bool)
    requires Leads(cfg, a, b, depends) && Has(cfg, b, c, depends)
    ensures Leads(cfg, a, c, depends)
  {
    hide Has;
    var ids :| Chain(cfg, ids, depends) && ids[0] == a && ids[|ids| - 1] == b;
    var more := ids + [c];
    assert forall k :: 0 <= k < |ids| ==> more[k] == ids[k];
    assert Chain(cfg, more, depends) && more[0] == a && more[|more| - 1] == c;
  }

  /** Everything on the path leads to the object through members. */
  ghost predicate PathLeads(cfg: Config, path: seq<I64>, id: I64) {
    forall x :: x in path ==> Leads(cfg, x, id, false)
  }

  /** The path ends at the object. */
  ghost predicate PathEnds(cfg: Config, path: seq<I64>, id: I64) {
    forall x :: x in path ==> x == id || Leads(cfg, x, id, false)
  }

  /** What is being visited at the top is the object or leads to it. */
  ghost predicate TopsEnd(cfg: Config, tops: set<I64>, id: I64) {
    forall x :: x in tops ==> x == id || Leads(cfg, x, id, true)
  }

  ghost predicate TopsLead(cfg: Config, tops: set<I64>, id: I64) {
    forall x :: x in tops ==> Leads(cfg, x, id, true)
  }

  lemma ToMember(cfg: Config, path: seq<I64>, tops: set<I64>, id: I64, child: I64)
    requires PathEnds(cfg, path, id) && TopsEnd(cfg, tops, id) && cfg.Known(id) && child in cfg.Children(id)
    ensures PathLeads(cfg, path, child) && TopsEnd(cfg, tops, child)
  {
    assert Has(cfg, id, child, false) && Has(cfg, id, child, true);
    hide Leads, Has;
    forall x | x in path ensures Leads(cfg, x, child, false) {
      if x == id { LeadsAtOnce(cfg, id, child, false); } else { LeadsOn(cfg, x, id, child, false); }
    }
    forall x | x in tops ensures Leads(cfg, x, child, true) {
      if x == id { LeadsAtOnce(cfg, id, child, true); } else { LeadsOn(cfg, x, id, child, true); }
    }
  }

  lemma PathEndsHere(cfg: Config, path: seq<I64>, id: I64)
    requires PathLeads(cfg, path, id)
    ensures PathEnds(cfg, path + [id], id)
  {
    hide Leads;
  }

  lemma ToDependency(cfg: Config, tops: set<I64>, id: I64, dep: I64)
    requires TopsEnd(cfg, tops, id) && cfg.Known(id) && dep in cfg.Dependencies(id)
    ensures TopsLead(cfg, tops, dep)
  {
    assert Has(cfg, id, dep, true);
    hide Leads, Has;
    forall x | x in tops ensures Leads(cfg, x, dep, true) {
      if x == id { LeadsAtOnce(cfg, id, dep, true); } else { LeadsOn(cfg, x, id, dep, true); }
    }
  }

  // ---------------------------------------------------------------- causes

  /** What was asked for while visiting the objects of `reach`. */
  datatype Source = Source(cfg: Config, reach: set<I64>, content: Contents, triggers: TriggerTexts)

  /** Rendering reported it for an object that is reached. */
  ghost predicate FromTexts(s: Source, p: Problem) {
    exists id, vars :: id in s.reach && (p in s.content(id, vars).problems || p in s.triggers(id, vars).problems)
  }

  ghost predicate HasType(s: Source, typeId: I64) {
    exists id :: id in s.reach && id in s.cfg.objects && s.cfg.objects[id].typeId == typeId
  }

  ghost predicate Refuses(s: Source, id: I64) {
    exists vars :: !s.content(id, vars).ok
  }

  /** A reached object that leads back to itself. */
  ghost predicate HasCycle(s: Source) {
    exists id :: id in s.reach && Leads(s.cfg, id, id, true)
  }

  /** A missing object or type is missing and asked for, a member of itself is one, a cyclic dependency
      is a cycle through members and dependencies, and all else comes from rendering. */
  ghost predicate Caused(s: Source, p: Problem) {
    || FromTexts(s, p)
    || match p
       case MissingObject(id) => id in s.reach && id !in s.cfg.objects
       case MissingType(t) => HasType(s, t) && (t !in s.cfg.types || t !in s.cfg.objects)
       case SelfMember(id) => id in s.reach && Leads(s.cfg, id, id, false)
       case BadContent(id) => id in s.reach && Refuses(s, id)
       case CyclicDependency => HasCycle(s)
       case _ => false
  }

  ghost predicate AllCaused(s: Source, problems: seq<Problem>) {
    forall p :: p in problems ==> Caused(s, p)
  }

  lemma AllCausedConcat(s: Source, a: seq<Problem>, b: seq<Problem>)
    requires AllCaused(s, a) && AllCaused(s, b)
    ensures AllCaused(s, a + b)
  {
  }

  lemma ContentCauses(s: Source, id: I64, vars: map<string, string>)
    requires id in s.reach
    ensures AllCaused(s, s.content(id, vars).problems) && AllCaused(s, s.triggers(id, vars).problems)
    ensures !s.content(id, vars).ok ==> Caused(s, BadContent(id))
  {
    forall p | p in s.content(id, vars).problems || p in s.triggers(id, vars).problems ensures Caused(s, p) {
      assert FromTexts(s, p);
    }
  }

  // ---------------------------------------------------------------- what is rendered, with which variables

  /** The variables that the members of an object see: those it sees itself, and what it adds. */
  ghost function Within(s: Source, id: I64, vars: map<string, string>): map<string, string> {
    var more := Added(vars, s.content(id, vars).adds);
    Added(more, s.triggers(id, more).adds)
  }

  /** The variables under a prefix: what its objects add, from the outermost to the innermost. */
  ghost function ScopeOf(s: Source, prefix: seq<I64>): map<string, string>
    decreases |prefix|
  {
    if prefix == [] then map[] else Within(s, prefix[|prefix| - 1], ScopeOf(s, prefix[..|prefix| - 1]))
  }

  lemma ScopeInside(s: Source, prefix: seq<I64>, id: I64)
    ensures ScopeOf(s, prefix + [id]) == Within(s, id, ScopeOf(s, prefix))
  {
    assert (prefix + [id])[..|prefix|] == prefix;
  }

  /** These are the variables under the prefix of the name. */
  ghost predicate InScope(s: Source, name: string, id: I64, vars: map<string, string>) {
    exists prefix :: name == NodeName(prefix, id) && vars == ScopeOf(s, prefix)
  }

  /** Every visited object was rendered with the variables under the prefix of its name. */
  ghost predicate AllInScope(s: Source, ids: seq<I64>, nodes: map<string, Pair>,
                             scopes: map<string, map<string, string>>) {
    && scopes.Keys == nodes.Keys
    && forall name :: name in nodes ==>
         nodes[name].node < |ids| && InScope(s, name, ids[nodes[name].node], scopes[name])
  }

  /** The content of the object is computed without a problem. */
  ghost predicate Rendered(s: Source, id: I64, vars: map<string, string>) {
    s.content(id, vars).ok && s.content(id, vars).problems == []
  }

  /** So are its triggers, with what its content added. */
  ghost predicate Triggered(s: Source, id: I64, vars: map<string, string>) {
    s.triggers(id, Added(vars, s.content(id, vars).adds)).problems == []
  }

  /** Contents of all visited objects are computed, triggers of all whose members are visited. */
  ghost predicate AllTexts(s: Source, ids: seq<I64>, nodes: map<string, Pair>, inner: map<string, seq<I64>>,
                           scopes: map<string, map<string, string>>)
    requires AllInScope(s, ids, nodes, scopes)
  {
    && (forall name :: name in nodes ==> Rendered(s, ids[nodes[name].node], scopes[name]))
    && forall name :: name in inner ==> name in nodes && Triggered(s, ids[nodes[name].node], scopes[name])
  }

  /** A new name keeps all this. */
  lemma AddInScope(s: Source, ids: seq<I64>, nodes: map<string, Pair>, inner: map<string, seq<I64>>,
                   scopes: map<string, map<string, string>>, t: seq<I64>, name: string, prefix: seq<I64>, p: Pair)
    requires AllInScope(s, ids, nodes, scopes) && inner.Keys <= nodes.Keys && ids <= t && name !in nodes
    requires p.node < |t| && name == NodeName(prefix, t[p.node])
    ensures var more := scopes[name := ScopeOf(s, prefix)];
      && AllInScope(s, t, nodes[name := p], more)
      && (AllTexts(s, ids, nodes, inner, scopes) && Rendered(s, t[p.node], ScopeOf(s, prefix)) ==>
            AllTexts(s, t, nodes[name := p], inner, more))
  {
    hide Rendered, Triggered, ScopeOf, NodeName;
    var more := scopes[name := ScopeOf(s, prefix)];
    assert InScope(s, name, t[p.node], more[name]);
    hide InScope;
  }

  // ---------------------------------------------------------------- no problems

  /** All reached objects and their types exist, members and dependencies have a smaller rank, and
      rendering succeeds. */
  ghost predicate Healthy(s: Source, rank: I64 -> nat) {
    && (forall id :: id in s.reach ==> s.cfg.Known(id))
    && (forall a, b :: a in s.reach && Has(s.cfg, a, b, true) ==> rank(b) < rank(a))
    && (forall id, vars :: id in s.reach ==> s.content(id, vars).ok && s.content(id, vars).problems == [])
    && (forall id, vars :: id in s.reach ==> s.triggers(id, vars).problems == [])
  }

  lemma {:induction false} RankFalls(s: Source, rank: I64 -> nat, ids: seq<I64>, depends: bool)
    requires Closed(s.cfg, s.reach) && Healthy(s, rank) && Chain(s.cfg, ids, depends) && ids[0] in s.reach
    ensures rank(ids[|ids| - 1]) < rank(ids[0])
    decreases |ids|
  {
    assert Has(s.cfg, ids[0], ids[1], depends);
    assert Has(s.cfg, ids[0], ids[1], true);
    assert Includes(s.reach, s.cfg.Children(ids[0])) && Includes(s.reach, s.cfg.Dependencies(ids[0]));
    if |ids| > 2 {
      assert Chain(s.cfg, ids[1..], depends);
      RankFalls(s, rank, ids[1..], depends);
    }
  }

  /** Then nothing has a cause. */
  lemma HealthyHasNone(s: Source, rank: I64 -> nat, p: Problem)
    requires Closed(s.cfg, s.reach) && Healthy(s, rank)
    ensures !Caused(s, p)
  {
    hide Leads, Closed, Has;
    forall id, depends | id in s.reach ensures !Leads(s.cfg, id, id, depends) {
      NoWayBack(s, rank, id, depends);
    }
  }

  lemma NoWayBack(s: Source, rank: I64 -> nat, id: I64, depends: bool)
    requires Closed(s.cfg, s.reach) && Healthy(s, rank) && id in s.reach
    ensures !Leads(s.cfg, id, id, depends)
  {
    hide Has, Closed, Healthy;
    if Leads(s.cfg, id, id, depends) {
      var ids :| Chain(s.cfg, ids, depends) && ids[0] == id && ids[|ids| - 1] == id;
      RankFalls(s, rank, ids, depends);
    }
  }
}
