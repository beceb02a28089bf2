/** What templates print: the laws of the evaluator that the check is proved sound against. */
module TemplateOutput {
  import opened TemplateFlow

  // ----- lists ------------------------------------------------------------------------------

  // b after a: only where a came to its end.
  function AndThen(a: Run, b: Run): Run {
    if a.end == Ok(Next) then Run(a.out + b.out, b.end) else a
  }

  lemma AndThenAssoc(a: Run, b: Run, c: Run)
    ensures AndThen(AndThen(a, b), c) == AndThen(a, AndThen(b, c))
  {
    assert a.out + b.out + c.out == a.out + (b.out + c.out);
  }

  /** A list prints what its parts print one after the other, up to a break, a continue or an error. */
  lemma {:induction false} ListsInTurn(env: Env, a: seq<Node>, b: seq<Node>, dot: Value, vars: map<string, Value>)
    ensures ExecList(env, a + b, dot, vars) == AndThen(ExecList(env, a, dot, vars), ExecList(env, b, dot, vars))
    decreases |a|
  {
    var rb := ExecList(env, b, dot, vars);
    if a == [] {
      assert a + b == b;
      assert [] + rb.out == rb.out;
    } else {
      assert (a + b)[1..] == a[1..] + b && (a + b)[0] == a[0];
      ListsInTurn(env, a[1..], b, dot, vars);
      AndThenAssoc(Exec(env, a[0], dot, vars), ExecList(env, a[1..], dot, vars), rb);
    }
  }

  lemma OneNode(env: Env, n: Node, dot: Value, vars: map<string, Value>)
    ensures ExecList(env, [n], dot, vars) == Exec(env, n, dot, vars)
  {
    var r := Exec(env, n, dot, vars);
    assert r.out + [] == r.out;
    assert [n][1..] == [];
  }

  lemma PlainNodes(env: Env, text: string, name: string, p: Pipe, dot: Value, vars: map<string, Value>)
    ensures Exec(env, TextNode(text), dot, vars) == Run([Piece(text, false)], Ok(Next))
    ensures Exec(env, CommentNode, dot, vars) == ExecList(env, [], dot, vars) == Run([], Ok(Next))
    ensures Exec(env, BreakNode, dot, vars) == Run([], Ok(Break)) && Exec(env, ContinueNode, dot, vars) == Run([], Ok(Continue))
    ensures Exec(env, TemplateNode(name, p), dot, vars).end.Err? && Exec(env, TemplateNode(name, p), dot, vars).out == []
  {
  }

  // ----- actions and branches ---------------------------------------------------------------------

  // The pipeline's variables hold its value from there on.
  ghost function Bound(p: Pipe, v: Value, vars: map<string, Value>): map<string, Value> {
    if p.decl == [] then vars else vars[p.decl[|p.decl| - 1] := v]
  }

  /** An action prints the value of its pipeline, strings as they are; one that declares a variable prints nothing. */
  lemma ActionPrints(env: Env, p: Pipe, dot: Value, vars: map<string, Value>, v: Value)
    requires EvalPipe(env, p, dot, vars) == Ok(v)
    ensures p.decl != [] ==> Exec(env, ActionNode(p), dot, vars) == Run([], Ok(Next))
    ensures p.decl == [] && v.Str? ==> Exec(env, ActionNode(p), dot, vars) == Run([Piece(v.s, IsBareReveal(p))], Ok(Next))
    ensures p.decl == [] && !v.Str? && env.show(v).Ok? ==>
              Exec(env, ActionNode(p), dot, vars) == Run([Piece(env.show(v).value, IsBareReveal(p))], Ok(Next))
    ensures p.decl == [] && !v.Str? && env.show(v).Err? ==> Exec(env, ActionNode(p), dot, vars) == Run([], Err(env.show(v).error))
  {
  }

  /** if runs one of its lists with dot where it was, with moves dot to the value where that holds, and range runs its
      list for every item and its else list when there is none. */
  lemma BranchRuns(env: Env, b: Branch, dot: Value, vars: map<string, Value>, v: Value)
    requires EvalPipe(env, b.pipe, dot, vars) == Ok(v)
    ensures env.truth(v) == Ok(true) ==>
              && Exec(env, IfNode(b), dot, vars) == ExecList(env, b.list, dot, Bound(b.pipe, v, vars))
              && Exec(env, WithNode(b), dot, vars) == ExecList(env, b.list, v, Bound(b.pipe, v, vars))
    ensures env.truth(v) == Ok(false) ==>
              && Exec(env, IfNode(b), dot, vars) == ExecList(env, b.elseList, dot, Bound(b.pipe, v, vars))
              && Exec(env, WithNode(b), dot, vars) == ExecList(env, b.elseList, dot, Bound(b.pipe, v, vars))
    ensures env.items(v) == Ok([]) ==> Exec(env, RangeNode(b), dot, vars) == ExecList(env, b.elseList, dot, Bound(b.pipe, v, vars))
    ensures env.items(v).Ok? && env.items(v).value != [] ==> Exec(env, RangeNode(b), dot, vars) == ExecItems(env, b, env.items(v).value, vars)
  {
  }

  /** Wherever a pipeline, its truth or its items fail the node prints nothing and the error goes up. */
  lemma ErrorsGoUp(env: Env, b: Branch, dot: Value, vars: map<string, Value>, e: string)
    ensures EvalPipe(env, b.pipe, dot, vars) == Err(e) ==>
              && Exec(env, ActionNode(b.pipe), dot, vars) == Exec(env, IfNode(b), dot, vars) == Run([], Err(e))
              && Exec(env, WithNode(b), dot, vars) == Exec(env, RangeNode(b), dot, vars) == Run([], Err(e))
    ensures EvalPipe(env, b.pipe, dot, vars).Ok? && env.truth(EvalPipe(env, b.pipe, dot, vars).value) == Err(e) ==>
              Exec(env, IfNode(b), dot, vars) == Exec(env, WithNode(b), dot, vars) == Run([], Err(e))
    ensures EvalPipe(env, b.pipe, dot, vars).Ok? && env.items(EvalPipe(env, b.pipe, dot, vars).value) == Err(e) ==>
              Exec(env, RangeNode(b), dot, vars) == Run([], Err(e))
  {
  }

  // The list with dot at an item.
  ghost function ForItem(env: Env, b: Branch, v: Value, vars: map<string, Value>): Run {
    ExecList(env, b.list, v, Bound(b.pipe, v, vars))
  }

  // What the first item leaves to the others.
  ghost function ItemThen(r: Run, rest: Run): Run {
    if r.end.Err? then r else if r.end == Ok(Break) then Run(r.out, Ok(Next)) else Run(r.out + rest.out, rest.end)
  }

  lemma FirstItem(env: Env, b: Branch, v: Value, rest: seq<Value>, vars: map<string, Value>)
    ensures ExecItems(env, b, [v] + rest, vars) == ItemThen(ForItem(env, b, v, vars), ExecItems(env, b, rest, vars))
  {
    assert ([v] + rest)[1..] == rest;
  }

  ghost predicate GoesOn(r: Run) {
    r.end == Ok(Next) || r.end == Ok(Continue)
  }

  lemma Prepended(out: seq<Piece>, more: seq<Piece>, r: Run)
    ensures Run(out + Run(more + r.out, r.end).out, r.end) == Run(out + more + r.out, r.end)
  {
    assert out + (more + r.out) == out + more + r.out;
  }

  /** range goes through the items in order, whether the list ends or continues; a break ends it, an error goes up. */
  lemma {:induction false} RangeInTurn(env: Env, b: Branch, before: seq<Value>, v: Value, after: seq<Value>, vars: map<string, Value>)
    requires forall i :: 0 <= i < |before| ==> GoesOn(ForItem(env, b, before[i], vars))
    ensures var r := ItemThen(ForItem(env, b, v, vars), ExecItems(env, b, after, vars));
            ExecItems(env, b, before + [v] + after, vars) == Run(Outs(env, b, before, vars) + r.out, r.end)
    decreases |before|
  {
    var r := ItemThen(ForItem(env, b, v, vars), ExecItems(env, b, after, vars));
    if before == [] {
      assert before + [v] + after == [v] + after;
      FirstItem(env, b, v, after, vars);
      assert [] + r.out == r.out;
    } else {
      var rest := before[1..] + [v] + after;
      assert before + [v] + after == [before[0]] + rest;
      FirstItem(env, b, before[0], rest, vars);
      assert GoesOn(ForItem(env, b, before[0], vars));
      RangeInTurn(env, b, before[1..], v, after, vars);
      Prepended(ForItem(env, b, before[0], vars).out, Outs(env, b, before[1..], vars), r);
    }
  }

  // What the items print one after the other.
  ghost function Outs(env: Env, b: Branch, items: seq<Value>, vars: map<string, Value>): seq<Piece> {
    if items == [] then [] else ForItem(env, b, items[0], vars).out + Outs(env, b, items[1..], vars)
  }

  lemma NoItems(env: Env, b: Branch, vars: map<string, Value>)
    ensures ExecItems(env, b, [], vars) == Run([], Ok(Next))
  {
  }

  // ----- values ---------------------------------------------------------------------------------

  /** One field after the other; a struct has just its own fields, any other value its methods. */
  lemma {:induction false} FieldsInTurn(env: Env, v: Result<Value>, names: seq<string>, last: string)
    ensures Fields(env, v, names + [last]) == Field(env, Fields(env, v, names), last)
    ensures Fields(env, v, []) == v
    decreases |names|
  {
    if names == [] {
      assert names + [last] == [last] && [last][1..] == [];
    } else {
      assert (names + [last])[1..] == names[1..] + [last];
      FieldsInTurn(env, Field(env, v, names[0]), names[1..], last);
    }
  }

  lemma FieldOf(env: Env, v: Value, e: string, name: string)
    ensures Field(env, Err(e), name) == Err(e)
    ensures v.Struct? && name in v.fields ==> Field(env, Ok(v), name) == Ok(v.fields[name])
    ensures v.Struct? && name !in v.fields ==> Field(env, Ok(v), name).Err?
    ensures !v.Struct? ==> Field(env, Ok(v), name) == env.method_(v, name)
  {
  }

  /** What the arguments mean. */
  lemma ArgMeans(env: Env, dot: Value, vars: map<string, Value>, names: seq<string>, inner: Arg, p: Pipe, v: Value)
    requires names != []
    ensures EvalArg(env, DotArg, dot, vars) == Ok(dot) && EvalArg(env, ConstArg(v), dot, vars) == Ok(v)
    ensures EvalArg(env, FieldArg(names[0], names[1..]), dot, vars) == Fields(env, Ok(dot), names)
    ensures names[0] in vars ==> EvalArg(env, VariableArg(names), dot, vars) == Fields(env, Ok(vars[names[0]]), names[1..])
    ensures names[0] !in vars ==> EvalArg(env, VariableArg(names), dot, vars).Err?
    ensures EvalArg(env, ChainArg(inner, names), dot, vars) == Fields(env, EvalArg(env, inner, dot, vars), names)
    ensures EvalArg(env, PipeArg(p), dot, vars) == EvalPipe(env, p, dot, vars)
    ensures EvalArg(env, FunctionArg(names[0]), dot, vars) == Ok(Func(names[0]))
  {
  }

  lemma {:induction false} ArgsInTurn(env: Env, args: seq<Arg>, dot: Value, vars: map<string, Value>)
    ensures |EvalArgs(env, args, dot, vars)| == |args|
    ensures forall i :: 0 <= i < |args| ==> EvalArgs(env, args, dot, vars)[i] == EvalArg(env, args[i], dot, vars)
    decreases |args|
  {
    if args != [] { ArgsInTurn(env, args[1..], dot, vars); }
  }

  lemma FirstArg(env: Env, args: seq<Arg>, dot: Value, vars: map<string, Value>)
    ensures |EvalArgs(env, args, dot, vars)| == |args|
    ensures args != [] ==> EvalArgs(env, args, dot, vars)[0] == EvalArg(env, args[0], dot, vars)
  {
    ArgsInTurn(env, args, dot, vars);
  }

  // A command on the value piped into it, if any.
  ghost function CommandOn(env: Env, c: Command, piped: seq<Value>, dot: Value, vars: map<string, Value>): Result<Value> {
    if |c.args| == 1 && piped == [] && !c.args[0].FunctionArg? then EvalArg(env, c.args[0], dot, vars)
    else env.call(EvalArgs(env, c.args, dot, vars), piped)
  }

  lemma FirstCommand(env: Env, cmds: seq<Command>, piped: seq<Value>, dot: Value, vars: map<string, Value>)
    requires cmds != []
    ensures var v := CommandOn(env, cmds[0], piped, dot, vars);
            EvalCmds(env, cmds, piped, dot, vars) == if v.Err? then v else EvalCmds(env, cmds[1..], [v.value], dot, vars)
  {
    FirstArg(env, cmds[0].args, dot, vars);
  }

  lemma NoCommands(env: Env, v: Value, dot: Value, vars: map<string, Value>)
    ensures EvalCmds(env, [], [v], dot, vars) == Ok(v)
  {
  }

  /** The commands of a pipeline in turn, the value of each piped into the next; the first error is the pipeline's. */
  lemma {:induction false} CommandsInTurn(env: Env, cmds: seq<Command>, c: Command, piped: seq<Value>, dot: Value, vars: map<string, Value>)
    ensures cmds == [] ==> EvalCmds(env, cmds + [c], piped, dot, vars) == CommandOn(env, c, piped, dot, vars)
    ensures cmds != [] ==>
              var before := EvalCmds(env, cmds, piped, dot, vars);
              EvalCmds(env, cmds + [c], piped, dot, vars)
              == if before.Err? then before else CommandOn(env, c, [before.value], dot, vars)
    decreases |cmds|
  {
    FirstCommand(env, cmds + [c], piped, dot, vars);
    if cmds == [] {
      var v := CommandOn(env, c, piped, dot, vars);
      assert (cmds + [c])[1..] == [];
      if v.Ok? { NoCommands(env, v.value, dot, vars); }
    } else {
      FirstCommand(env, cmds, piped, dot, vars);
      assert (cmds + [c])[1..] == cmds[1..] + [c];
      var v := CommandOn(env, cmds[0], piped, dot, vars);
      if v.Ok? {
        CommandsInTurn(env, cmds[1..], c, [v.value], dot, vars);
        if cmds[1..] == [] { NoCommands(env, v.value, dot, vars); }
      }
    }
  }

  /** A template starts with its data as dot and as the variable $. */
  lemma ExecuteStarts(env: Env, t: Tree, data: Value, p: Pipe)
    ensures Execute(env, t, data) == ExecList(env, t.root, data, map["$" := data])
    ensures EvalPipe(env, p, data, map["$" := data]) == EvalCmds(env, p.cmds, [], data, map["$" := data])
  {
  }
}
