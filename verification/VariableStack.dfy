/** The variables in scope of a visit: one map, and a stack of frames that say how to
    undo what was added since each `push`. */
module VariableStack {
  import opened Wrappers

  datatype Entry = Entry(key: string, previous: Option<string>)

  datatype Variables = Variables(vars: map<string, string>, stack: seq<seq<Entry>>)

  const EMPTY: Variables := Variables(map[], [[]])

  /** `add_str` refuses values that start with `json:`. */
  predicate Refused(value: string) {
    "json:" <= value
  }

  function Lookup(vars: map<string, string>, key: string): Option<string> {
    if key in vars then Some(vars[key]) else None
  }

  function AddStr(s: Variables, key: string, value: string): Variables
    requires s.stack != []
  {
    if Refused(value) then s
    else
      var last := |s.stack| - 1;
      Variables(s.vars[key := value], s.stack[last := s.stack[last] + [Entry(key, Lookup(s.vars, key))]])
  }

  /** A value is in scope once it is added, and no other is touched; one for JSON is not added at all. */
  lemma AddedIsInScope(s: Variables, key: string, value: string)
    requires s.stack != []
    ensures var t := AddStr(s, key, value);
      if |value| >= 5 && value[..5] == "json:" then t == s
      else t.vars.Keys == s.vars.Keys + {key} && forall k :: k in t.vars ==>
        t.vars[k] == if k == key then value else s.vars[k]
  {
  }

  function AddAll(s: Variables, adds: seq<(string, string)>): (r: Variables)
    requires s.stack != []
    ensures |r.stack| == |s.stack|
    decreases |adds|
  {
    if adds == [] then s else AddAll(AddStr(s, adds[0].0, adds[0].1), adds[1..])
  }

  predicate HasVars(s: Variables) {
    s.stack != [] && s.stack[|s.stack| - 1] != []
  }

  /** What additions make of the variables, without the frames. */
  function Added(vars: map<string, string>, adds: seq<(string, string)>): map<string, string>
    decreases |adds|
  {
    if adds == [] then vars
    else Added(if Refused(adds[0].1) then vars else vars[adds[0].0 := adds[0].1], adds[1..])
  }

  /** Where the top frame stays empty nothing was added. */
  lemma {:induction false} AddAllAdds(s: Variables, adds: seq<(string, string)>)
    requires s.stack != []
    ensures AddAll(s, adds).vars == Added(s.vars, adds)
    ensures HasVars(s) ==> HasVars(AddAll(s, adds))
    ensures !HasVars(AddAll(s, adds)) ==> AddAll(s, adds).vars == s.vars
    decreases |adds|
  {
    if adds != [] { AddAllAdds(AddStr(s, adds[0].0, adds[0].1), adds[1..]); }
  }

  function Push(s: Variables): Variables {
    s.(stack := s.stack + [[]])
  }

  function Restore(vars: map<string, string>, e: Entry): map<string, string> {
    match e.previous
    case Some(v) => vars[e.key := v]
    case None => vars - {e.key}
  }

  /** Undoes a frame from its last entry to its first. */
  function Undo(vars: map<string, string>, frame: seq<Entry>): map<string, string>
    decreases |frame|
  {
    if frame == [] then vars
    else Undo(Restore(vars, frame[|frame| - 1]), frame[..|frame| - 1])
  }

  function Pop(s: Variables): Variables
    requires s.stack != []
  {
    var last := |s.stack| - 1;
    Variables(Undo(s.vars, s.stack[last]), s.stack[..last])
  }

  lemma PopForgetsAdd(s: Variables, key: string, value: string)
    requires s.stack != []
    ensures Pop(AddStr(s, key, value)) == Pop(s)
  {
    if !Refused(value) {
      var last := |s.stack| - 1;
      var frame := AddStr(s, key, value).stack[last];
      assert frame[..|frame| - 1] == s.stack[last];
      assert Restore(s.vars[key := value], Entry(key, Lookup(s.vars, key))) == s.vars;
    }
  }

  lemma {:induction false} PopForgetsAdds(s: Variables, adds: seq<(string, string)>)
    requires s.stack != []
    ensures Pop(AddAll(s, adds)) == Pop(s)
    decreases |adds|
  {
    if adds != [] {
      PopForgetsAdds(AddStr(s, adds[0].0, adds[0].1), adds[1..]);
      PopForgetsAdd(s, adds[0].0, adds[0].1);
    }
  }

  /** A balanced push and pop leaves the whole stack and the whole map as they were. */
  lemma PopUndoesPush(s: Variables, adds: seq<(string, string)>)
    ensures Pop(AddAll(Push(s), adds)) == s
  {
    PopForgetsAdds(Push(s), adds);
    assert Push(s).stack[..|s.stack|] == s.stack;
  }
}
