/** The recursive visitors that compile a host's objects into the deployment graph. */
module Visitor {
  import opened Wrappers
  import opened NodeNames
  import opened Dag
  import opened VariableStack
  import opened VisitStore
  import opened Problems

  ghost predicate PathOk(cfg: Config, path: seq<I64>) {
    && (forall i, j :: 0 <= i < j < |path| ==> path[i] != path[j])
    && forall i :: 0 <= i < |path| ==> path[i] in cfg.objects
  }

  /** The state that `visit` borrows from `visit_top`: a path of ids, a name prefix, the variables. */
  class Walker {
    var path: seq<I64>
    var prefix: seq<I64>
    var vars: Variables

    constructor ()
      ensures path == [] && prefix == [] && vars == EMPTY
    {
      path, prefix, vars := [], [], EMPTY;
    }

    /** Distinct ids of known objects on the path, and never an empty variable stack. */
    ghost predicate Ok(cfg: Config)
      reads this
    {
      && vars.stack != []
      && PathOk(cfg, path)
    }

    /** `path.push(id)` and, when the object has variables, `prefix.push(id)`. */
    method Enter(id: I64, ghost cfg: Config) returns (pushedPrefix: bool)
      requires Ok(cfg) && id in cfg.objects && id !in path
      modifies this`path, this`prefix
      ensures Ok(cfg) && path == old(path) + [id]
      ensures prefix == if pushedPrefix then old(prefix) + [id] else old(prefix)
      ensures pushedPrefix == HasVars(vars)
    {
      path := path + [id];
      pushedPrefix := HasVars(vars);
      if pushedPrefix {
        prefix := prefix + [id];
      }
    }

    method Leave(pushedPrefix: bool, ghost cfg: Config)
      requires Ok(cfg) && path != [] && (pushedPrefix ==> prefix != [])
      modifies this`path, this`prefix
      ensures Ok(cfg) && path == old(path)[..|old(path)| - 1]
      ensures prefix == if pushedPrefix then old(prefix)[..|old(prefix)| - 1] else old(prefix)
    {
      path := path[..|path| - 1];
      if pushedPrefix {
        prefix := prefix[..|prefix| - 1];
      }
    }
  }

  class Visitor {
    const cfg: Config
    const arena: NodeArena
    /** Rendering of contents and triggers, as a function of the object and the variables. */
    const content: Contents
    const triggers: TriggerTexts

    var errors: seq<Problem>
    var tops: map<I64, Option<Pair>>
    var topVisiting: set<I64>
    var nodes: map<string, Pair>
    /** The name each cell carries; a sentinel carries its title, which is not modelled. */
    var names: seq<string>
    /** The variables that the object of each name was rendered with; they stand for what its cell says. */
    var scopes: map<string, map<string, string>>
    /** The prefix of the members of each name, from the time they are visited. */
    ghost var inner: map<string, seq<I64>>
    /** A closed set of ids that holds everything that is visited. */
    ghost const reach: set<I64>

    constructor (cfg: Config, arena: NodeArena, ghost reach: set<I64>,
                 content: Contents,
                 triggers: TriggerTexts)
      requires arena.Fresh() && arena.next == [] && Closed(cfg, reach)
      ensures this.cfg == cfg && this.arena == arena && this.reach == reach && arena.Fresh()
      ensures Valid({}) && errors == [] && topVisiting == {} && tops == map[]
    {
      this.cfg, this.arena, this.content, this.triggers := cfg, arena, content, triggers;
      errors, tops, topVisiting, nodes, names, scopes := [], map[], {}, map[], [], map[];
      this.reach, inner := reach, map[];
      new;
      assert Inverse(S().g);
    }

    ghost function S(): Store
      reads this, arena
    {
      Store(arena.G(), arena.ids, arena.normal, names, nodes, tops, inner)
    }

    ghost predicate Valid(open: set<string>)
      reads this, arena
    {
      && arena.Fresh()
      && ValidStore(cfg, S(), open, errors == [])
      && tops.Keys !! topVisiting
      && Closed(cfg, reach) && Includes(reach, arena.ids)
      && AllCaused(Src(), errors) && AllInScope(Src(), arena.ids, nodes, scopes)
      && (errors == [] ==> AllTexts(Src(), arena.ids, nodes, inner, scopes))
    }

    ghost function Src(): Source {
      Source(cfg, reach, content, triggers)
    }

    /** The variables are those under the prefix. */
    ghost predicate Scoped(w: Walker)
      reads w
    {
      w.vars.vars == ScopeOf(Src(), w.prefix)
    }

    /** They are those that the members of the object see; the same where the object has none. */
    ghost predicate ScopedInside(w: Walker, id: I64)
      reads w
    {
      && w.vars.vars == Within(Src(), id, ScopeOf(Src(), w.prefix))
      && (!HasVars(w.vars) ==> Scoped(w))
    }

    /** How many ids are not being visited at the top level. */
    ghost function TopsLeft(): nat
      reads this
    {
      |reach - topVisiting|
    }

    /** How many objects are not on the path. */
    ghost function PathLeft(w: Walker): nat
      reads w
    {
      |cfg.objects.Keys - (set id | id in w.path)|
    }

    /** What every visit leaves as it was. */
    twostate predicate Restored(w: Walker)
      reads this, w
    {
      && topVisiting == old(topVisiting)
      && w.path == old(w.path) && w.prefix == old(w.prefix) && w.vars == old(w.vars)
    }

    method PushChildEdges(p: Pair, c: Pair)
      requires arena.Fresh() && Sized(S())
      requires p.node < |names| && c.node < |names| && p.sentinel < |names| && c.sentinel < |names|
      modifies arena`prev, arena`next
      ensures arena.Fresh() && S() == VisitStore.LinkChild(old(S()), p, c)
    {
      arena.Link(p.node, c.node);
      arena.Link(c.sentinel, p.sentinel);
    }

    lemma MemberIsAt(name: string, child: I64, c: Pair)
      requires IsMember(cfg, S(), name, child) && At(S(), inner[name], child, c)
      ensures name in nodes && NodeName(inner[name], child) in nodes && nodes[NodeName(inner[name], child)] == c
    {
    }

    method LinkChild(ghost name: string, p: Pair, c: Pair, ghost child: I64, ghost open: set<string>)
      requires Valid(open) && IsMember(cfg, S(), name, child)
      requires nodes[name] == p && At(S(), inner[name], child, c)
      modifies arena`prev, arena`next
      ensures Valid(open) && Extends(old(S()), S())
      ensures ChildLinked(S(), p, inner[name], child)
    {
      hide ValidStore, IsMember, ChildLinked, Extends, VisitStore.LinkChild, Closed, Includes, NodeName, At;
      hide AllInScope, AllTexts;
      MemberIsAt(name, child, c);
      ValidHas(cfg, S(), open, errors == [], name);
      LinkChildValid(cfg, S(), open, errors == [], name, child);
      PushChildEdges(p, c);
    }

    method LinkDependency(ghost name: string, p: Pair, d: Pair, ghost dep: I64, ghost open: set<string>)
      requires Valid(open) && name in nodes && nodes[name] == p
      requires dep in cfg.Dependencies(arena.ids[p.node]) && dep in tops && tops[dep] == Some(d)
      modifies arena`prev, arena`next
      ensures Valid(open) && Extends(old(S()), S())
      ensures DepLinked(S(), p, dep)
    {
      hide ValidStore, PairOk, DepLinked, Extends, Closed, Includes, AddEdge, Config.Dependencies, AllCaused;
      hide AllInScope, AllTexts;
      ghost var s := S();
      ValidHas(cfg, s, open, errors == [], name);
      LinkDependencyValid(cfg, s, open, errors == [], name, p, d, dep);
      PushEdge(d.sentinel, p.node);
    }

    method PushEdge(a: nat, b: nat)
      requires arena.Fresh() && Sized(S()) && a < |names| && b < |names|
      modifies arena`prev, arena`next
      ensures arena.Fresh() && S() == old(S()).(g := AddEdge(old(S()).g, a, b))
    {
      arena.Link(a, b);
    }

    method Report(problems: seq<Problem>, ghost open: set<string>)
      requires Valid(open) && AllCaused(Src(), problems)
      modifies this`errors
      ensures Valid(open) && errors == old(errors) + problems && S() == old(S())
    {
      ghost var clean := errors == [];
      AllCausedConcat(Src(), errors, problems);
      errors := errors + problems;
      DirtyValid(cfg, S(), open, clean, errors == []);
    }

    lemma ExtendsItself(s: Store, open: set<string>)
      requires Valid(open) && s == S()
      ensures Extends(s, s)
    {
    }

    lemma ReachHas(name: string, p: Pair, id: I64, open: set<string>)
      requires Valid(open) && Entered(name, p, id) && cfg.Known(id)
      ensures id in reach && Includes(reach, cfg.Children(id)) && Includes(reach, cfg.Dependencies(id))
    {
      assert id in arena.ids;
    }

    lemma NameIsOfObject(name: string, prefix: seq<I64>, id: I64, open: set<string>)
      requires Valid(open) && name in nodes && name == NodeName(prefix, id)
      ensures At(S(), prefix, id, nodes[name])
    {
    }

    /** The members of the name are being visited under this prefix. */
    ghost predicate Entering(name: string, p: Pair, id: I64, prefix: seq<I64>)
      reads this, arena
    {
      Entered(name, p, id) && name in inner && inner[name] == prefix
    }

    lemma EnteringExtends(name: string, p: Pair, id: I64, prefix: seq<I64>, s: Store, open: set<string>)
      requires Valid(open) && Extends(s, S()) && name in s.nodes && s.nodes[name] == p
      requires p.node < |s.ids| && s.ids[p.node] == id && name in s.inner && s.inner[name] == prefix
      ensures Entering(name, p, id, prefix)
    {
    }

    /** One turn of the loop over the members. */
    method VisitChild(child: I64, ghost name: string, p: Pair, ghost id: I64, w: Walker, ghost open: set<string>)
      requires Valid(open) && w.Ok(cfg) && Scoped(w) && Entering(name, p, id, w.prefix)
      requires PathEnds(cfg, w.path, id) && TopsEnd(cfg, topVisiting, id)
      requires cfg.Known(id) && child in cfg.Children(id) && child in reach
      modifies this, arena, w
      decreases TopsLeft(), PathLeft(w), 4
      ensures Valid(open) && w.Ok(cfg) && Restored(w)
      ensures Extends(old(S()), S()) && old(errors) <= errors
      ensures errors == [] ==> ChildLinked(S(), p, w.prefix, child)
    {
      hide ValidStore, ChildLinked, Extends, NodeName, Config.Children, AllCaused, Caused, Closed, AllInScope, AllTexts;
      hide PathEnds, PathLeads, TopsEnd;
      ghost var s := S();
      ToMember(cfg, w.path, topVisiting, id, child);
      var r := Visit(w, child, open);
      match r {
        case Ok(c) =>
          ghost var t := S();
          EnteringExtends(name, p, id, w.prefix, s, open);
          LinkChild(name, p, c, child, open);
          ExtendsTransitive(s, t, S());
        case Err(e) =>
          OneCaused(e);
          Report([e], open);
      }
    }

    lemma OneCaused(p: Problem)
      requires Caused(Src(), p)
      ensures AllCaused(Src(), [p])
    {
    }

    method HandleContains(contains: seq<I64>, ghost name: string, p: Pair, ghost id: I64, w: Walker,
                          ghost open: set<string>)
      requires Valid(open) && w.Ok(cfg) && Scoped(w) && Entering(name, p, id, w.prefix)
      requires PathEnds(cfg, w.path, id) && TopsEnd(cfg, topVisiting, id)
      requires cfg.Known(id) && forall c :: c in contains ==> c in cfg.Children(id)
      modifies this, arena, w
      decreases TopsLeft(), PathLeft(w), 5
      ensures Valid(open) && w.Ok(cfg) && Restored(w)
      ensures Extends(old(S()), S()) && old(errors) <= errors
      ensures errors == [] ==> AllLinked(S(), p, w.prefix, contains)
    {
      hide Valid;
      hide ValidStore, AllLinked, ChildLinked, Extends, Config.Children, AllCaused, PathEnds, TopsEnd, AllInScope;
      hide AllTexts;
      ghost var s := S();
      ExtendsItself(s, open);
      ReachHas(name, p, id, open);
      AllLinkedNone(s, p, w.prefix);
      for k := 0 to |contains|
        invariant Valid(open) && w.Ok(cfg) && Restored(w)
        invariant Extends(s, S()) && old(errors) <= errors
        invariant errors == [] ==> AllLinked(S(), p, w.prefix, contains[..k])
      {
        ghost var t := S();
        EnteringExtends(name, p, id, w.prefix, s, open);
        VisitChild(contains[k], name, p, id, w, open);
        ExtendsTransitive(s, t, S());
        if errors == [] { AllLinkedStep(t, S(), p, w.prefix, contains, k); }
      }
      assert contains[..|contains|] == contains;
    }

    /** `visit`: the pair that is returned is the one under the name of prefix and id. */
    method Visit(w: Walker, id: I64, ghost open: set<string>) returns (r: Result<Pair, Problem>)
      requires Valid(open) && w.Ok(cfg) && Scoped(w) && id in reach
      requires PathLeads(cfg, w.path, id) && TopsEnd(cfg, topVisiting, id)
      modifies this, arena, w
      decreases TopsLeft(), PathLeft(w), 3
      ensures Valid(open) && w.Ok(cfg) && Restored(w)
      ensures Extends(old(S()), S()) && old(errors) <= errors
      ensures r.Ok? ==> At(S(), w.prefix, id, r.value)
      ensures r.Err? ==> Caused(Src(), r.error)
    {
      hide ValidStore, AllLinked, At, Extends, NodeName, PathOk, TopsLeft, PathLeft, AllCaused, Caused, AllInScope;
      hide AllTexts;
      hide PathLeads, TopsEnd;
      ExtendsItself(S(), open);
      var name, filled := BuildName(w.prefix, id);
      if !filled {
        assert false;
        return Err(BadName);
      }
      if name in nodes {
        NameIsOfObject(name, w.prefix, id, open);
        return Ok(nodes[name]);
      }
      r := VisitNew(w, name, id, open);
    }

    /** A name that was not visited before. */
    method VisitNew(w: Walker, name: string, id: I64, ghost open: set<string>) returns (r: Result<Pair, Problem>)
      requires Valid(open) && w.Ok(cfg) && Scoped(w) && name == NodeName(w.prefix, id) && name !in nodes
      requires id in reach && PathLeads(cfg, w.path, id) && TopsEnd(cfg, topVisiting, id)
      modifies this, arena, w
      decreases TopsLeft(), PathLeft(w), 3, 0
      ensures Valid(open) && w.Ok(cfg) && Restored(w)
      ensures Extends(old(S()), S()) && old(errors) <= errors
      ensures r.Ok? ==> At(S(), w.prefix, id, r.value)
      ensures r.Err? ==> Caused(Src(), r.error)
    {
      hide ValidStore, AllLinked, AllCaused, Leads, TopsEnd, AllInScope, AllTexts, ScopeOf, Closed, Includes;
      ExtendsItself(S(), open);
      if id !in cfg.objects {
        return Err(MissingObject(id));
      }
      var typeId := cfg.objects[id].typeId;
      if typeId !in cfg.types || typeId !in cfg.objects {
        assert HasType(Src(), typeId);
        return Err(MissingType(typeId));
      }
      if id in w.path {
        return Err(SelfMember(id));
      }
      ghost var s := S();
      r := VisitScoped(w, name, id, open);
      if r.Ok? {
        ghost var t := S();
        HandleAllDepends(name, r.value, id, open);
        ExtendsTransitive(s, t, S());
      }
    }

    /** `vars.push()`, `visit_inner` and `vars.pop()`. */
    method VisitScoped(w: Walker, name: string, id: I64, ghost open: set<string>) returns (r: Result<Pair, Problem>)
      requires Valid(open) && w.Ok(cfg) && Scoped(w)
      requires name == NodeName(w.prefix, id) && name !in nodes && cfg.Known(id) && id !in w.path && id in reach
      requires PathLeads(cfg, w.path, id) && TopsEnd(cfg, topVisiting, id)
      modifies this, arena, w
      decreases TopsLeft(), PathLeft(w), 2
      ensures w.Ok(cfg) && Restored(w)
      ensures Extends(old(S()), S()) && old(errors) <= errors
      ensures r.Err? ==> Valid(open) && Caused(Src(), r.error)
      ensures r.Ok? ==> Valid(open + {name}) && Entered(name, r.value, id)
      ensures r.Ok? && errors == [] ==> MembersLinked(name, r.value, id)
    {
      hide Valid;
      hide AllCaused, Caused, PathLeads, TopsEnd, Closed, AllInScope, AllTexts;
      ghost var before := w.vars;
      w.vars := Push(w.vars);
      assert Pop(w.vars) == before by { PopUndoesPush(before, []); }
      r := VisitInner(w, name, id, open);
      w.vars := Pop(w.vars);
    }

    /** All members are linked under the inner prefix of the name. */
    ghost predicate MembersLinked(name: string, p: Pair, id: I64)
      requires cfg.Known(id)
      reads this, arena
    {
      name in inner && AllLinked(S(), p, inner[name], cfg.Children(id))
    }

    /** The name has been given the pair of cells of this object. */
    ghost predicate Entered(name: string, p: Pair, id: I64)
      reads this, arena
    {
      name in nodes && nodes[name] == p && p.node < |arena.ids| && arena.ids[p.node] == id
    }

    method VisitInner(w: Walker, name: string, id: I64, ghost open: set<string>) returns (r: Result<Pair, Problem>)
      requires Valid(open) && w.Ok(cfg) && Scoped(w) && !HasVars(w.vars)
      requires name == NodeName(w.prefix, id) && name !in nodes && cfg.Known(id) && id !in w.path && id in reach
      requires PathLeads(cfg, w.path, id) && TopsEnd(cfg, topVisiting, id)
      modifies this, arena, w
      decreases TopsLeft(), PathLeft(w), 1
      ensures w.Ok(cfg) && topVisiting == old(topVisiting)
      ensures w.path == old(w.path) && w.prefix == old(w.prefix)
      ensures |w.vars.stack| == |old(w.vars.stack)| && Pop(w.vars) == Pop(old(w.vars))
      ensures Extends(old(S()), S()) && old(errors) <= errors
      ensures r.Err? ==> Valid(open) && Caused(Src(), r.error)
      ensures r.Ok? ==> Valid(open + {name}) && Entered(name, r.value, id)
      ensures r.Ok? && errors == [] ==> MembersLinked(name, r.value, id)
    {
      hide ValidStore, AddAll, Pop, AllCaused, Caused, PathLeads, TopsEnd, Closed, AllInScope, AllTexts;
      hide Triggered, Rendered, ScopeOf, Added, Includes, NodeName, PathOk, AllLinked, Grown, ScopedInside, HasVars;
      hide Valid;
      var scope := w.vars.vars;
      ghost var before := w.vars;
      var ok := ComputeContent(w, id, open);
      if !ok {
        ExtendsItself(S(), open);
        GrownHas(before, content(id, scope).adds, w.vars);
        return Err(BadContent(id));
      }
      ghost var s := S();
      var p := NewPair(name, id, w.prefix, scope, open);
      ghost var middle := w.vars;
      GrownHas(before, content(id, scope).adds, middle);
      ComputeTriggers(w, id, scope, open + {name});
      GrownInside(w, id, before, middle);
      ghost var t := S();
      VisitMembers(w, name, p, id, open + {name});
      ExtendsTransitive(s, t, S());
      r := Ok(p);
    }

    /** Variables, name variable and `visit_content`. */
    method ComputeContent(w: Walker, id: I64, ghost open: set<string>) returns (ok: bool)
      requires Valid(open) && w.Ok(cfg) && id in reach
      modifies this`errors, w`vars
      ensures Valid(open) && w.Ok(cfg) && S() == old(S()) && old(errors) <= errors
      ensures Grown(old(w.vars), content(id, old(w.vars.vars)).adds, w.vars)
      ensures !ok ==> Caused(Src(), BadContent(id))
      ensures ok && errors == [] ==> Rendered(Src(), id, old(w.vars.vars))
    {
      hide ValidStore, AllCaused, Caused, Closed, AllInScope, AllTexts, Grown;
      ContentCauses(Src(), id, w.vars.vars);
      var effect := content(id, w.vars.vars);
      w.vars := AddVariables(w.vars, effect.adds);
      Report(effect.problems, open);
      ok := effect.ok;
    }

    method ComputeTriggers(w: Walker, id: I64, ghost scope: map<string, string>, ghost open: set<string>)
      requires Valid(open) && w.Ok(cfg) && id in reach && w.vars.vars == Added(scope, content(id, scope).adds)
      modifies this`errors, w`vars
      ensures Valid(open) && w.Ok(cfg) && S() == old(S()) && old(errors) <= errors
      ensures Grown(old(w.vars), triggers(id, old(w.vars.vars)).adds, w.vars)
      ensures errors == [] ==> Triggered(Src(), id, scope)
    {
      hide ValidStore, AllCaused, Caused, Closed, AllInScope, AllTexts, Grown;
      ContentCauses(Src(), id, w.vars.vars);
      var effect := triggers(id, w.vars.vars);
      w.vars := AddVariables(w.vars, effect.adds);
      Report(effect.problems, open);
    }

    /** What was added is in scope; the frame below is the same once this one is popped, and so are the
        variables if this one has nothing. */
    ghost predicate Grown(vars: Variables, adds: seq<(string, string)>, r: Variables)
      requires vars.stack != []
    {
      && |r.stack| == |vars.stack| && Pop(r) == Pop(vars) && r.vars == Added(vars.vars, adds)
      && (HasVars(vars) ==> HasVars(r)) && (!HasVars(r) ==> r.vars == vars.vars)
    }

    lemma GrownHas(vars: Variables, adds: seq<(string, string)>, r: Variables)
      requires vars.stack != [] && Grown(vars, adds, r)
      ensures |r.stack| == |vars.stack| && Pop(r) == Pop(vars) && r.vars == Added(vars.vars, adds)
    {
    }

    /** After content and triggers. */
    lemma GrownInside(w: Walker, id: I64, before: Variables, middle: Variables)
      requires before.stack != [] && before.vars == ScopeOf(Src(), w.prefix) && middle.stack != []
      requires Grown(before, content(id, before.vars).adds, middle)
      requires Grown(middle, triggers(id, middle.vars).adds, w.vars)
      ensures ScopedInside(w, id) && |w.vars.stack| == |before.stack| && Pop(w.vars) == Pop(before)
    {
      hide Pop, Added, ScopeOf;
    }

    function AddVariables(vars: Variables, adds: seq<(string, string)>): (r: Variables)
      requires vars.stack != []
      ensures r.stack != [] && Grown(vars, adds, r)
    {
      PopForgetsAdds(vars, adds);
      AddAllAdds(vars, adds);
      AddAll(vars, adds)
    }

    /** Allocates sentinel and node, joins them and enters the name. */
    method NewPair(name: string, id: I64, prefix: seq<I64>, scope: map<string, string>, ghost open: set<string>)
      returns (p: Pair)
      requires Valid(open) && name == NodeName(prefix, id) && name !in nodes && cfg.Known(id) && id in reach
      requires scope == ScopeOf(Src(), prefix) && (errors == [] ==> Rendered(Src(), id, scope))
      modifies this`nodes, this`names, this`scopes, arena
      ensures Valid(open + {name}) && Entered(name, p, id) && name !in inner
      ensures name in scopes && scopes[name] == scope
      ensures Extends(old(S()), S())
    {
      hide ValidStore, AllInScope, AllTexts, Rendered, ScopeOf, AllCaused, Closed;
      ghost var s := S();
      ghost var kept := scopes;
      assert Named(name, id);
      InnerIsEntered(open);
      AddPairValid(cfg, s, open, errors == [], name, id);
      p := PushPair(name, id);
      scopes := scopes[name := scope];
      AddInScope(Src(), s.ids, s.nodes, inner, kept, arena.ids, name, prefix, p);
    }

    lemma InnerIsEntered(open: set<string>)
      requires Valid(open)
      ensures inner.Keys <= nodes.Keys
    {
    }

    method PushPair(name: string, id: I64) returns (p: Pair)
      requires arena.Fresh() && Sized(S())
      modifies this`nodes, this`names, arena
      ensures arena.Fresh() && S() == AddPair(old(S()), name, id)
      ensures p == Pair(|old(names)| + 1, |old(names)|)
    {
      var sentinel := arena.Alloc(id, false);
      var node := arena.Alloc(id, true);
      arena.Link(node, sentinel);
      names := names + ["", name];
      p := Pair(node, sentinel);
      nodes := nodes[name := p];
    }

    /** The members, with the object on the path and, if it has variables, in the prefix. */
    method VisitMembers(w: Walker, ghost name: string, p: Pair, id: I64, ghost open: set<string>)
      requires Valid(open) && w.Ok(cfg) && Entered(name, p, id) && cfg.Known(id) && id !in w.path
      requires name == NodeName(w.prefix, id) && name !in inner && ScopedInside(w, id)
      requires name in scopes && (errors == [] ==> Triggered(Src(), id, scopes[name]))
      requires PathLeads(cfg, w.path, id) && TopsEnd(cfg, topVisiting, id)
      modifies this, arena, w
      decreases TopsLeft(), PathLeft(w), 0
      ensures Valid(open) && w.Ok(cfg) && Restored(w)
      ensures Extends(old(S()), S()) && old(errors) <= errors
      ensures errors == [] ==> MembersLinked(name, p, id)
    {
      hide Valid;
      hide ValidStore, AllLinked, Extends, PathOk, NodeName, Closed, Includes, AllCaused, PathLeads, PathEnds, TopsEnd;
      hide AllInScope, AllTexts, ScopeOf, Within;
      PathShrinks(w, id);
      ghost var s := S();
      var pushedPrefix := EnterMembers(w, name, p, id, open);
      ghost var t := S();
      PathEndsHere(cfg, w.path[..|w.path| - 1], id);
      HandleAllContains(name, p, id, w, open);
      EnteringExtends(name, p, id, w.prefix, t, open);
      ExtendsTransitive(s, t, S());
      w.Leave(pushedPrefix, cfg);
    }

    /** The object goes on the path, and its members by the prefix that they are now visited under. */
    method EnterMembers(w: Walker, ghost name: string, p: Pair, id: I64, ghost open: set<string>)
      returns (pushedPrefix: bool)
      requires Valid(open) && w.Ok(cfg) && Entered(name, p, id) && cfg.Known(id) && id !in w.path
      requires name == NodeName(w.prefix, id) && name !in inner && ScopedInside(w, id)
      requires name in scopes && (errors == [] ==> Triggered(Src(), id, scopes[name]))
      modifies this`inner, w`path, w`prefix
      ensures Valid(open) && w.Ok(cfg) && Scoped(w) && Entering(name, p, id, w.prefix) && Extends(old(S()), S())
      ensures w.path == old(w.path) + [id] && w.prefix == if pushedPrefix then old(w.prefix) + [id] else old(w.prefix)
    {
      hide ValidStore, AllLinked, Extends, PathOk, NodeName, Closed, Includes, AllCaused, PathLeads, PathEnds, TopsEnd;
      hide AllInScope, ScopeOf, Within, Triggered, Rendered;
      ghost var s := S();
      ScopeInside(Src(), w.prefix, id);
      pushedPrefix := w.Enter(id, cfg);
      SetInnerValid(cfg, s, open, errors == [], name, w.prefix);
      inner := inner[name := w.prefix];
      assert S() == SetInner(s, name, w.prefix);
    }

    method HandleAllContains(ghost name: string, p: Pair, id: I64, w: Walker, ghost open: set<string>)
      requires Valid(open) && w.Ok(cfg) && Scoped(w) && Entering(name, p, id, w.prefix) && cfg.Known(id)
      requires PathEnds(cfg, w.path, id) && TopsEnd(cfg, topVisiting, id)
      modifies this, arena, w
      decreases TopsLeft(), PathLeft(w), 6
      ensures Valid(open) && w.Ok(cfg) && Restored(w)
      ensures Extends(old(S()), S()) && old(errors) <= errors
      ensures errors == [] ==> AllLinked(S(), p, w.prefix, cfg.Children(id))
    {
      hide Valid;
      hide ValidStore, ChildLinked, Extends, AllInScope, AllTexts;
      var o := cfg.objects[id];
      ghost var s := S();
      ExtendsItself(s, open);
      if cfg.types[o.typeId].hasContains {
        HandleContains(o.contains, name, p, id, w, open);
      }
      ghost var t := S();
      EnteringExtends(name, p, id, w.prefix, s, open);
      HandleContains(cfg.objects[o.typeId].contains, name, p, id, w, open);
      ExtendsTransitive(s, t, S());
      if errors == [] && cfg.types[o.typeId].hasContains {
        AllLinkedExtends(t, S(), p, w.prefix, o.contains);
      }
    }

    lemma PathShrinks(w: Walker, id: I64)
      requires id in cfg.objects && id !in w.path
      ensures |cfg.objects.Keys - (set x | x in w.path + [id])| < PathLeft(w)
    {
      var before := cfg.objects.Keys - (set x | x in w.path);
      var after := cfg.objects.Keys - (set x | x in w.path + [id]);
      assert after == before - {id};
    }

    method HandleAllDepends(name: string, p: Pair, id: I64, ghost open: set<string>)
      requires Valid(open + {name}) && Entered(name, p, id) && cfg.Known(id)
      requires errors == [] ==> MembersLinked(name, p, id)
      requires TopsEnd(cfg, topVisiting, id)
      modifies this, arena
      decreases TopsLeft(), 0, 2
      ensures Valid(open) && topVisiting == old(topVisiting)
      ensures Extends(old(S()), S()) && old(errors) <= errors
      ensures Entered(name, p, id)
    {
      hide ValidStore, ChildLinked, DepLinked, AllCaused, AllInScope, AllTexts, Closed, TopsEnd;
      var o := cfg.objects[id];
      ReachHas(name, p, id, open + {name});
      ghost var s := S();
      if cfg.types[o.typeId].hasDepends {
        HandleDepends(o.depends, name, p, id, open + {name});
      }
      ghost var t := S();
      HandleDepends(cfg.objects[o.typeId].depends, name, p, id, open + {name});
      ghost var u := S();
      ExtendsTransitive(s, t, u);
      if errors == [] {
        if cfg.types[o.typeId].hasDepends {
          AllWaitedForExtends(t, u, p, o.depends);
        }
        AllLinkedExtends(s, u, p, s.inner[name], cfg.Children(id));
      }
      NameIsOk(name, open + {name});
      CloseName(cfg, u, open, errors == [], name);
    }

    lemma NameIsOk(name: string, open: set<string>)
      requires Valid(open) && name in nodes
      ensures PairOk(cfg, S(), name)
    {
    }

    method HandleDepends(depends: seq<I64>, ghost name: string, p: Pair, ghost id: I64, ghost open: set<string>)
      requires Valid(open) && Entered(name, p, id) && cfg.Known(id) && TopsEnd(cfg, topVisiting, id)
      requires forall d :: d in depends ==> d in cfg.Dependencies(id) && d in reach
      modifies this, arena
      decreases TopsLeft(), 0, 1
      ensures Valid(open) && topVisiting == old(topVisiting)
      ensures Extends(old(S()), S()) && old(errors) <= errors
      ensures errors == [] ==> AllWaitedFor(S(), p, depends)
    {
      hide Valid;
      hide ValidStore, DepLinked, AllWaitedFor, AllCaused, AllInScope, AllTexts, Closed, TopsEnd;
      ghost var s := S();
      ExtendsItself(s, open);
      AllWaitedForNone(s, p);
      for k := 0 to |depends|
        invariant Valid(open) && topVisiting == old(topVisiting)
        invariant Extends(s, S()) && old(errors) <= errors
        invariant errors == [] ==> AllWaitedFor(S(), p, depends[..k])
      {
        ghost var t := S();
        VisitDependency(depends[k], name, p, id, open);
        ExtendsTransitive(s, t, S());
        if errors == [] { AllWaitedForStep(t, S(), p, depends, k); }
      }
      assert depends[..|depends|] == depends;
    }

    method VisitDependency(dep: I64, ghost name: string, p: Pair, ghost id: I64, ghost open: set<string>)
      requires Valid(open) && Entered(name, p, id) && cfg.Known(id) && TopsEnd(cfg, topVisiting, id)
      requires dep in cfg.Dependencies(id) && dep in reach
      modifies this, arena
      decreases TopsLeft(), 0, 0, 1
      ensures Valid(open) && topVisiting == old(topVisiting)
      ensures Extends(old(S()), S()) && old(errors) <= errors
      ensures errors == [] ==> DepLinked(S(), p, dep)
    {
      hide Valid;
      hide ValidStore, DepLinked, AllCaused, AllInScope, AllTexts, Closed, TopsEnd;
      ghost var s := S();
      ToDependency(cfg, topVisiting, id, dep);
      var c := VisitTop(dep, open);
      if c.Some? {
        ghost var t := S();
        LinkDependency(name, p, c.value, dep, open);
        ExtendsTransitive(s, t, S());
      }
    }

    /** Visits an object contained directly in the host, or a dependency. */
    method VisitTop(id: I64, ghost open: set<string>) returns (c: Option<Pair>)
      requires Valid(open) && id in reach && TopsLead(cfg, topVisiting, id)
      modifies this, arena
      decreases TopsLeft(), 0, 0, 0
      ensures Valid(open) && topVisiting == old(topVisiting)
      ensures Extends(old(S()), S()) && old(errors) <= errors
      ensures c.Some? ==> id in tops && tops[id] == c
      ensures c.None? ==> errors != []
    {
      hide Valid;
      hide ValidStore, At, AllInScope, AllTexts;
      ExtendsItself(S(), open);
      if id in tops {
        TopIsOk(id, open);
        return tops[id];
      }
      if id in topVisiting {
        CycleCaused(id);
        Report([CyclicDependency], open);
        return None;
      }
      c := VisitNewTop(id, open);
    }

    lemma CycleCaused(id: I64)
      requires id in reach && id in topVisiting && TopsLead(cfg, topVisiting, id)
      ensures AllCaused(Src(), [CyclicDependency])
    {
      assert HasCycle(Src());
      assert Caused(Src(), CyclicDependency);
    }

    method VisitNewTop(id: I64, ghost open: set<string>) returns (c: Option<Pair>)
      requires Valid(open) && id in reach && id !in tops && id !in topVisiting && TopsLead(cfg, topVisiting, id)
      modifies this, arena
      decreases TopsLeft(), 0, 0, 0, 0
      ensures Valid(open) && topVisiting == old(topVisiting)
      ensures Extends(old(S()), S()) && old(errors) <= errors
      ensures id in tops && tops[id] == c
      ensures c.None? ==> errors != []
    {
      hide ValidStore, At, AllInScope, AllTexts, AllCaused, Caused, Leads, Closed, Includes;
      TopsShrink(id);
      topVisiting := topVisiting + {id};
      ghost var s := S();
      var w := new Walker();
      var r := Visit(w, id, open);
      match r {
        case Ok(p) =>
          c := Some(p);
        case Err(e) =>
          OneCaused(e);
          Report([e], open);
          c := None;
      }
      ghost var t := S();
      RecordTop(id, c, open);
      ExtendsTransitive(s, t, S());
    }

    /** Enters the result of a top-level visit and ends the visit. */
    method RecordTop(id: I64, c: Option<Pair>, ghost open: set<string>)
      requires Valid(open) && id !in tops && id in topVisiting
      requires match c case None => errors != [] case Some(p) => At(S(), [], id, p)
      modifies this`tops, this`topVisiting
      ensures Valid(open) && topVisiting == old(topVisiting) - {id}
      ensures Extends(old(S()), S()) && id in tops && tops[id] == c
    {
      hide ValidStore, At, AllInScope, AllTexts;
      ghost var t := S();
      SetTopValid(cfg, t, open, errors == [], id, c);
      tops := tops[id := c];
      topVisiting := topVisiting - {id};
      assert S() == t.(tops := t.tops[id := c]);
    }

    lemma TopIsOk(id: I64, open: set<string>)
      requires Valid(open) && id in tops
      ensures TopOk(S(), id, errors == [])
    {
    }

    lemma TopsShrink(id: I64)
      requires id in reach && id !in topVisiting
      ensures |reach - (topVisiting + {id})| < TopsLeft()
    {
      assert reach - (topVisiting + {id}) == reach - topVisiting - {id};
    }

    /** All objects contained in the host, in order. Without errors every visited name has exactly the
        edges that its members, under their names, and its dependencies call for, and what is visited
        is what the host reaches through members and dependencies. */
    method VisitHost(contains: seq<I64>)
      requires Valid({}) && errors == [] && topVisiting == {}
      requires forall c :: c in contains ==> c in reach
      modifies this, arena
      ensures Valid({}) && topVisiting == {}
      ensures errors == [] ==> AllTops(tops, contains)
      ensures errors == [] ==> forall name :: name in nodes ==> PairOk(cfg, S(), name) && Complete(cfg, S(), name)
      ensures AllInScope(Src(), arena.ids, nodes, scopes)
      ensures errors == [] ==> forall name :: name in nodes ==> Said(name)
      ensures VisitedIds(S()) <= reach && AllCaused(Src(), errors)
      ensures forall rank :: Healthy(Src(), rank) ==> errors == []
      ensures errors == [] && IsReach(cfg, contains, reach) ==> VisitedIds(S()) == reach
    {
      hide ValidStore, Complete, PairOk, IsReach, AllInScope, AllTexts;
      for k := 0 to |contains|
        invariant Valid({}) && topVisiting == {}
        invariant errors == [] ==> AllTops(tops, contains[..k])
      {
        ghost var before := tops;
        var _ := VisitTop(contains[k], {});
        assert contains[..k + 1] == contains[..k] + [contains[k]];
        assert forall d :: d in before ==> d in S().tops && S().tops[d] == before[d];
      }
      assert contains[..|contains|] == contains;
      AllComplete();
      AllHaveTexts();
      if errors == [] && IsReach(cfg, contains, reach) { AllVisited(contains); }
      forall rank | Healthy(Src(), rank) ensures errors == [] {
        if errors != [] { HealthyHasNone(Src(), rank, errors[0]); }
      }
    }

    lemma AllVisited(contains: seq<I64>)
      requires Valid({}) && errors == [] && AllTops(tops, contains) && IsReach(cfg, contains, reach)
      ensures VisitedIds(S()) == reach
    {
      hide NodeName;
      VisitedAreClosed(cfg, S());
      forall c | c in contains ensures c in arena.ids {
        assert TopOk(S(), c, true);
        AtIsVisited(cfg, S(), {}, true, [], c);
      }
    }

    /** Content and triggers of the object of the name are computed, with the variables kept for it. */
    ghost predicate Said(name: string)
      requires name in nodes
      reads this, arena
    {
      && nodes[name].node < |arena.ids| && name in scopes
      && Rendered(Src(), arena.ids[nodes[name].node], scopes[name])
      && Triggered(Src(), arena.ids[nodes[name].node], scopes[name])
    }

    lemma AllHaveTexts()
      requires Valid({})
      ensures errors == [] ==> forall name :: name in nodes ==> Said(name)
    {
      AllComplete();
      hide ValidStore, Rendered, Triggered, InScope;
    }

    lemma AllComplete()
      requires Valid({})
      ensures errors == [] ==> forall name :: name in nodes ==> PairOk(cfg, S(), name) && Complete(cfg, S(), name)
    {
    }
  }

  ghost predicate AllTops(tops: map<I64, Option<Pair>>, contains: seq<I64>) {
    forall c :: c in contains ==> c in tops && tops[c].Some?
  }
}
