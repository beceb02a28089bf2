/** The static check on mail templates and what it guarantees: runs of an accepted template that differ only
    in RevealURL write the same pieces, except for the URL in its own bare {{ .RevealURL }} actions.

    The evaluator follows text/template. What functions, methods, truth and ranging mean is left open:
    every statement holds for all of them. */
module TemplateFlow {

  const REVEAL := "RevealURL"

  // ----- parse trees -------------------------------------------------------------------

  datatype Node =
    | TextNode(text: string)
    | ActionNode(pipe: Pipe)
    | IfNode(branch: Branch)
    | RangeNode(branch: Branch)
    | WithNode(branch: Branch)
    | TemplateNode(name: string, pipe: Pipe)
    | CommentNode
    | BreakNode
    | ContinueNode

  datatype Branch = Branch(pipe: Pipe, list: seq<Node>, elseList: seq<Node>)

  datatype Pipe = Pipe(decl: seq<string>, cmds: seq<Command>)

  datatype Command = Command(args: seq<Arg>)

  datatype Arg =
    | DotArg
    | VariableArg(ident: seq<string>)
    | FieldArg(first: string, rest: seq<string>)
    | ChainArg(node: Arg, field: seq<string>)
    | PipeArg(pipe: Pipe)
    | FunctionArg(name: string)
    | ConstArg(value: Value)

  // ----- the static check --------------------------------------------------------------

  predicate IsBareReveal(p: Pipe) {
    && p.decl == [] && |p.cmds| == 1 && |p.cmds[0].args| == 1
    && p.cmds[0].args[0] == FieldArg(REVEAL, [])
  }

  predicate WalkArg(a: Arg) {
    match a
    case DotArg => false
    case VariableArg(_) => false
    case FieldArg(first, rest) => first != REVEAL && REVEAL !in rest
    case ChainArg(node, field) => REVEAL !in field && WalkArg(node)
    case PipeArg(pipe) => WalkPipe(pipe)
    case FunctionArg(_) => true
    case ConstArg(_) => true
  }

  predicate WalkPipe(p: Pipe) {
    p.decl == [] && forall c, a | c in p.cmds && a in c.args :: WalkArg(a)
  }

  predicate WalkNode(n: Node, allowReveal: bool) {
    match n
    case ActionNode(pipe) => if IsBareReveal(pipe) then allowReveal else WalkPipe(pipe)
    case IfNode(b) => WalkBranch(b, allowReveal)
    case RangeNode(b) => WalkBranch(b, allowReveal)
    case WithNode(b) => WalkBranch(b, allowReveal)
    case TemplateNode(_, _) => false
    case _ => true
  }

  predicate WalkBranch(b: Branch, allowReveal: bool) {
    WalkPipe(b.pipe) && WalkList(b.list, allowReveal) && WalkList(b.elseList, allowReveal)
  }

  predicate WalkList(l: seq<Node>, allowReveal: bool) {
    forall n | n in l :: WalkNode(n, allowReveal)
  }

  // What of the check matters: RevealURL after another field, in a chain and in a declaration may pass, since the
  // values they start from are refused where they could hold the URL.
  predicate LooseArg(a: Arg) {
    match a
    case DotArg => false
    case VariableArg(_) => false
    case FieldArg(first, _) => first != REVEAL
    case ChainArg(node, _) => LooseArg(node)
    case PipeArg(pipe) => LoosePipe(pipe)
    case FunctionArg(_) => true
    case ConstArg(_) => true
  }

  predicate LoosePipe(p: Pipe) {
    forall c, a | c in p.cmds && a in c.args :: LooseArg(a)
  }

  predicate LooseNode(n: Node, allowReveal: bool) {
    match n
    case ActionNode(pipe) => if IsBareReveal(pipe) then allowReveal else LoosePipe(pipe)
    case IfNode(b) => LooseBranch(b, allowReveal)
    case RangeNode(b) => LooseBranch(b, allowReveal)
    case WithNode(b) => LooseBranch(b, allowReveal)
    case TemplateNode(_, _) => false
    case _ => true
  }

  predicate LooseBranch(b: Branch, allowReveal: bool) {
    LoosePipe(b.pipe) && LooseList(b.list, allowReveal) && LooseList(b.elseList, allowReveal)
  }

  predicate LooseList(l: seq<Node>, allowReveal: bool) {
    forall n | n in l :: LooseNode(n, allowReveal)
  }

  lemma {:induction false} ArgIsLoose(a: Arg)
    requires WalkArg(a)
    ensures LooseArg(a)
  {
    match a
    case ChainArg(node, _) => ArgIsLoose(node);
    case PipeArg(pipe) => PipeIsLoose(pipe);
    case _ =>
  }

  lemma {:induction false} PipeIsLoose(p: Pipe)
    requires WalkPipe(p)
    ensures LoosePipe(p)
  {
    forall c, a | c in p.cmds && a in c.args ensures LooseArg(a) { ArgIsLoose(a); }
  }

  lemma {:induction false} NodeIsLoose(n: Node, allowReveal: bool)
    requires WalkNode(n, allowReveal)
    ensures LooseNode(n, allowReveal)
    decreases n, 0
  {
    match n
    case ActionNode(pipe) => if !IsBareReveal(pipe) { PipeIsLoose(pipe); }
    case IfNode(b) => BranchIsLoose(b, allowReveal);
    case RangeNode(b) => BranchIsLoose(b, allowReveal);
    case WithNode(b) => BranchIsLoose(b, allowReveal);
    case _ =>
  }

  lemma {:induction false} BranchIsLoose(b: Branch, allowReveal: bool)
    requires WalkBranch(b, allowReveal)
    ensures LooseBranch(b, allowReveal)
    decreases b, 1
  {
    PipeIsLoose(b.pipe);
    ListIsLoose(b.list, allowReveal);
    ListIsLoose(b.elseList, allowReveal);
  }

  lemma {:induction false} ListIsLoose(l: seq<Node>, allowReveal: bool)
    requires WalkList(l, allowReveal)
    ensures LooseList(l, allowReveal)
    decreases l, 1
  {
    forall n | n in l ensures LooseNode(n, allowReveal) { NodeIsLoose(n, allowReveal); }
  }

  // The source parsed into its root list and the templates it defines besides.
  datatype Tree = Tree(root: seq<Node>, defines: nat)

  /** checkTree: whether one part of a mail is accepted; allowReveal is false for the subject. */
  predicate CheckTree(t: Tree, allowReveal: bool) {
    t.defines == 0 && WalkList(t.root, allowReveal)
  }

  // ----- evaluation ----------------------------------------------------------------------

  datatype Value =
    | Str(s: string)
    | Num(n: int)
    | Other(id: int)
    | Func(name: string)
    | List(elems: seq<Value>)
    | Struct(fields: map<string, Value>)

  datatype Result<T> = Ok(value: T) | Err(error: string)

  // What the engine and the function table do with values; deterministic, otherwise arbitrary.
  datatype Env = Env(
    // A command applied to its evaluated arguments and, when it is not the first, to the piped value.
    call: (seq<Result<Value>>, seq<Value>) -> Result<Value>,
    // A method of a value that is not a plain struct.
    method_: (Value, string) -> Result<Value>,
    truth: Value -> Result<bool>,
    items: Value -> Result<seq<Value>>,
    show: Value -> Result<string>)

  function Field(env: Env, v: Result<Value>, name: string): Result<Value> {
    match v
    case Err(_) => v
    case Ok(val) =>
      if !val.Struct? then env.method_(val, name)
      else if name in val.fields then Ok(val.fields[name])
      else Err("can't evaluate field")
  }

  function Fields(env: Env, v: Result<Value>, names: seq<string>): Result<Value>
    decreases |names|
  {
    if names == [] then v else Fields(env, Field(env, v, names[0]), names[1..])
  }

  // vars: the template variables in scope, "$" among them.
  function EvalArg(env: Env, a: Arg, dot: Value, vars: map<string, Value>): Result<Value>
    decreases a, 0
  {
    match a
    case DotArg => Ok(dot)
    case VariableArg(ident) =>
      if ident != [] && ident[0] in vars then Fields(env, Ok(vars[ident[0]]), ident[1..]) else Err("undefined variable")
    case FieldArg(first, rest) => Fields(env, Field(env, Ok(dot), first), rest)
    case ChainArg(node, field) => Fields(env, EvalArg(env, node, dot, vars), field)
    case PipeArg(pipe) => EvalPipe(env, pipe, dot, vars)
    case FunctionArg(name) => Ok(Func(name))
    case ConstArg(value) => Ok(value)
  }

  function EvalArgs(env: Env, args: seq<Arg>, dot: Value, vars: map<string, Value>): seq<Result<Value>>
    decreases args, 0
  {
    if args == [] then [] else [EvalArg(env, args[0], dot, vars)] + EvalArgs(env, args[1..], dot, vars)
  }

  function EvalCmds(env: Env, cmds: seq<Command>, piped: seq<Value>, dot: Value, vars: map<string, Value>): Result<Value>
    decreases cmds, 0
  {
    if cmds == [] then (if piped == [] then Err("missing value") else Ok(piped[0]))
    else
      // A lone argument that is not a function is its own value; everything else is a call.
      var args := EvalArgs(env, cmds[0].args, dot, vars);
      var v := if |args| == 1 && piped == [] && !cmds[0].args[0].FunctionArg? then args[0] else env.call(args, piped);
      match v
      case Err(_) => v
      case Ok(val) => EvalCmds(env, cmds[1..], [val], dot, vars)
  }

  function EvalPipe(env: Env, p: Pipe, dot: Value, vars: map<string, Value>): Result<Value>
    decreases p, 0
  {
    EvalCmds(env, p.cmds, [], dot, vars)
  }

  // One executed text or action node: what it wrote, and whether it was a bare {{ .RevealURL }}.
  datatype Piece = Piece(text: string, hole: bool)

  datatype Signal = Next | Break | Continue

  // Execution output up to the end, a break or continue, or an error.
  datatype Run = Run(out: seq<Piece>, end: Result<Signal>)

  function Then(r: Run, out: seq<Piece>): Run {
    r.(out := out + r.out)
  }

  function Declared(p: Pipe, v: Value, vars: map<string, Value>): map<string, Value> {
    if p.decl == [] then vars else vars[p.decl[|p.decl| - 1] := v]
  }

  function Exec(env: Env, n: Node, dot: Value, vars: map<string, Value>): Run
    decreases n, 0
  {
    match n
    case TextNode(text) => Run([Piece(text, false)], Ok(Next))
    case CommentNode => Run([], Ok(Next))
    case BreakNode => Run([], Ok(Break))
    case ContinueNode => Run([], Ok(Continue))
    case TemplateNode(_, _) => Run([], Err("template not defined"))
    case ActionNode(pipe) =>
      (match EvalPipe(env, pipe, dot, vars)
       case Err(e) => Run([], Err(e))
       case Ok(v) =>
         if pipe.decl != [] then Run([], Ok(Next))
         else match Show(env, v)
              case Err(e) => Run([], Err(e))
              case Ok(s) => Run([Piece(s, IsBareReveal(pipe))], Ok(Next)))
    case IfNode(b) =>
      (match EvalPipe(env, b.pipe, dot, vars)
       case Err(e) => Run([], Err(e))
       case Ok(v) =>
         match env.truth(v)
         case Err(e) => Run([], Err(e))
         case Ok(yes) => ExecList(env, if yes then b.list else b.elseList, dot, Declared(b.pipe, v, vars)))
    case WithNode(b) =>
      (match EvalPipe(env, b.pipe, dot, vars)
       case Err(e) => Run([], Err(e))
       case Ok(v) =>
         match env.truth(v)
         case Err(e) => Run([], Err(e))
         case Ok(yes) =>
           if yes then ExecList(env, b.list, v, Declared(b.pipe, v, vars))
           else ExecList(env, b.elseList, dot, Declared(b.pipe, v, vars)))
    case RangeNode(b) =>
      (match EvalPipe(env, b.pipe, dot, vars)
       case Err(e) => Run([], Err(e))
       case Ok(v) =>
         match env.items(v)
         case Err(e) => Run([], Err(e))
         case Ok(items) =>
           if items == [] then ExecList(env, b.elseList, dot, Declared(b.pipe, v, vars))
           else ExecItems(env, b, items, vars))
  }

  function Show(env: Env, v: Value): Result<string> {
    if v.Str? then Ok(v.s) else env.show(v)
  }

  function ExecList(env: Env, l: seq<Node>, dot: Value, vars: map<string, Value>): Run
    decreases l, 0
  {
    if l == [] then Run([], Ok(Next))
    else
      var r := Exec(env, l[0], dot, vars);
      if r.end != Ok(Next) then r else Then(ExecList(env, l[1..], dot, vars), r.out)
  }

  function ExecItems(env: Env, b: Branch, items: seq<Value>, vars: map<string, Value>): Run
    decreases b, 0, |items|
  {
    if items == [] then Run([], Ok(Next))
    else
      var r := ExecList(env, b.list, items[0], Declared(b.pipe, items[0], vars));
      if r.end.Err? then r
      else if r.end.value == Break then Run(r.out, Ok(Next))
      else Then(ExecItems(env, b, items[1..], vars), r.out)
  }

  function Execute(env: Env, t: Tree, data: Value): Run {
    ExecList(env, t.root, data, map["$" := data])
  }

  function Text(out: seq<Piece>): string {
    if out == [] then "" else out[0].text + Text(out[1..])
  }

  // ----- two runs side by side --------------------------------------------------------------

  // The data of a run: a struct whose RevealURL is url.
  ghost predicate DataOf(v: Value, url: string) {
    v.Struct? && REVEAL in v.fields && v.fields[REVEAL] == Str(url)
  }

  // Two data values that differ in RevealURL only.
  ghost predicate Twins(v1: Value, url1: string, v2: Value, url2: string) {
    && DataOf(v1, url1) && DataOf(v2, url2) && v1.fields.Keys == v2.fields.Keys
    && forall k :: k in v1.fields && k != REVEAL ==> v1.fields[k] == v2.fields[k]
  }

  // The two runs' inputs, fixed throughout an argument.
  datatype Pair = Pair(v1: Value, url1: string, v2: Value, url2: string) {
    ghost predicate Valid() { Twins(v1, url1, v2, url2) }
    // Dot is the whole data in both runs, or the same value.
    ghost predicate Dots(d1: Value, d2: Value) { d1 == d2 || (d1 == v1 && d2 == v2) }
    ghost predicate SamePiece(p1: Piece, p2: Piece, allowReveal: bool) {
      p1 == p2 || (allowReveal && p1 == Piece(url1, true) && p2 == Piece(url2, true))
    }
    ghost predicate SameOut(o1: seq<Piece>, o2: seq<Piece>, allowReveal: bool) {
      |o1| == |o2| && forall i :: 0 <= i < |o1| ==> SamePiece(o1[i], o2[i], allowReveal)
    }
    ghost predicate SameRun(r1: Run, r2: Run, allowReveal: bool) {
      r1.end == r2.end && SameOut(r1.out, r2.out, allowReveal)
    }
  }

  lemma {:induction false} ArgSame(env: Env, a: Arg, q: Pair, d1: Value, d2: Value,
                                   x1: map<string, Value>, x2: map<string, Value>)
    requires q.Valid() && q.Dots(d1, d2) && LooseArg(a)
    ensures EvalArg(env, a, d1, x1) == EvalArg(env, a, d2, x2)
    decreases a, 0
  {
    match a
    case ChainArg(node, _) => ArgSame(env, node, q, d1, d2, x1, x2);
    case PipeArg(pipe) => PipeSame(env, pipe, q, d1, d2, x1, x2);
    case _ =>
  }

  lemma {:induction false} ArgsSame(env: Env, args: seq<Arg>, q: Pair, d1: Value, d2: Value,
                                    x1: map<string, Value>, x2: map<string, Value>)
    requires q.Valid() && q.Dots(d1, d2) && forall a | a in args :: LooseArg(a)
    ensures EvalArgs(env, args, d1, x1) == EvalArgs(env, args, d2, x2)
    decreases args, 0
  {
    if args != [] {
      ArgSame(env, args[0], q, d1, d2, x1, x2);
      ArgsSame(env, args[1..], q, d1, d2, x1, x2);
    }
  }

  lemma {:induction false} CmdsSame(env: Env, cmds: seq<Command>, piped: seq<Value>, q: Pair, d1: Value, d2: Value,
                                    x1: map<string, Value>, x2: map<string, Value>)
    requires q.Valid() && q.Dots(d1, d2) && forall c, a | c in cmds && a in c.args :: LooseArg(a)
    ensures EvalCmds(env, cmds, piped, d1, x1) == EvalCmds(env, cmds, piped, d2, x2)
    decreases cmds, 0
  {
    if cmds != [] {
      ArgsSame(env, cmds[0].args, q, d1, d2, x1, x2);
      var args := EvalArgs(env, cmds[0].args, d1, x1);
      var v := if |args| == 1 && piped == [] && !cmds[0].args[0].FunctionArg? then args[0] else env.call(args, piped);
      if v.Ok? { CmdsSame(env, cmds[1..], [v.value], q, d1, d2, x1, x2); }
    }
  }

  /** A pipeline the looser check accepts has the same value in both runs, wherever dot has moved. */
  lemma {:induction false} PipeSame(env: Env, p: Pipe, q: Pair, d1: Value, d2: Value,
                                    x1: map<string, Value>, x2: map<string, Value>)
    requires q.Valid() && q.Dots(d1, d2) && LoosePipe(p)
    ensures EvalPipe(env, p, d1, x1) == EvalPipe(env, p, d2, x2)
    decreases p, 0
  {
    CmdsSame(env, p.cmds, [], q, d1, d2, x1, x2);
  }

  lemma OneCommand(env: Env, args: seq<Arg>, d: Value, x: map<string, Value>)
    ensures EvalPipe(env, Pipe([], [Command(args)]), d, x)
         == if |args| == 1 && !args[0].FunctionArg? then EvalArg(env, args[0], d, x)
            else env.call(EvalArgs(env, args, d, x), [])
  {
    var cmds := [Command(args)];
    var vals := EvalArgs(env, args, d, x);
    if |args| == 1 {
      assert args[1..] == [] && EvalArgs(env, args[1..], d, x) == [];
      assert vals == [EvalArg(env, args[0], d, x)];
    }
    var v := if |vals| == 1 && !args[0].FunctionArg? then vals[0] else env.call(vals, []);
    if v.Ok? { assert EvalCmds(env, cmds[1..], [v.value], d, x) == v; }
  }

  lemma BareRevealValue(env: Env, p: Pipe, d: Value, x: map<string, Value>)
    requires IsBareReveal(p)
    ensures EvalPipe(env, p, d, x) == Field(env, Ok(d), REVEAL)
  {
    assert p == Pipe([], [Command([FieldArg(REVEAL, [])])]) by {
      assert p.cmds == [p.cmds[0]] && p.cmds[0].args == [p.cmds[0].args[0]];
    }
    OneCommand(env, [FieldArg(REVEAL, [])], d, x);
  }

  lemma ActionSame(env: Env, pipe: Pipe, allowReveal: bool, q: Pair, d1: Value, d2: Value,
                   x1: map<string, Value>, x2: map<string, Value>)
    requires q.Valid() && q.Dots(d1, d2) && LooseNode(ActionNode(pipe), allowReveal)
    ensures q.SameRun(Exec(env, ActionNode(pipe), d1, x1), Exec(env, ActionNode(pipe), d2, x2), allowReveal)
  {
    if IsBareReveal(pipe) {
      BareRevealValue(env, pipe, d1, x1);
      BareRevealValue(env, pipe, d2, x2);
    } else {
      PipeSame(env, pipe, q, d1, d2, x1, x2);
    }
  }

  // Where the branches of the two runs agree so do the whole constructs, since the pipeline does.
  lemma {:induction false} NodeSame(env: Env, n: Node, allowReveal: bool, q: Pair, d1: Value, d2: Value,
                                    x1: map<string, Value>, x2: map<string, Value>)
    requires q.Valid() && q.Dots(d1, d2) && LooseNode(n, allowReveal)
    ensures q.SameRun(Exec(env, n, d1, x1), Exec(env, n, d2, x2), allowReveal)
    decreases n, 0
  {
    match n
    case ActionNode(pipe) => ActionSame(env, pipe, allowReveal, q, d1, d2, x1, x2);
    case IfNode(b) => IfSame(env, n, allowReveal, q, d1, d2, x1, x2);
    case WithNode(b) => WithSame(env, n, allowReveal, q, d1, d2, x1, x2);
    case RangeNode(b) => RangeSame(env, n, allowReveal, q, d1, d2, x1, x2);
    case _ =>
  }

  lemma {:induction false} IfSame(env: Env, n: Node, allowReveal: bool, q: Pair, d1: Value, d2: Value,
                                  x1: map<string, Value>, x2: map<string, Value>)
    requires q.Valid() && q.Dots(d1, d2) && n.IfNode? && LooseBranch(n.branch, allowReveal)
    ensures q.SameRun(Exec(env, n, d1, x1), Exec(env, n, d2, x2), allowReveal)
    decreases n.branch, 2
  {
    var b := n.branch;
    PipeSame(env, b.pipe, q, d1, d2, x1, x2);
    var v := EvalPipe(env, b.pipe, d1, x1);
    if v.Ok? { BranchSame(env, b, allowReveal, q, d1, d2, Declared(b.pipe, v.value, x1), Declared(b.pipe, v.value, x2)); }
  }

  lemma {:induction false} WithSame(env: Env, n: Node, allowReveal: bool, q: Pair, d1: Value, d2: Value,
                                    x1: map<string, Value>, x2: map<string, Value>)
    requires q.Valid() && q.Dots(d1, d2) && n.WithNode? && LooseBranch(n.branch, allowReveal)
    ensures q.SameRun(Exec(env, n, d1, x1), Exec(env, n, d2, x2), allowReveal)
    decreases n.branch, 2
  {
    var b := n.branch;
    PipeSame(env, b.pipe, q, d1, d2, x1, x2);
    var v := EvalPipe(env, b.pipe, d1, x1);
    if v.Ok? {
      var y1, y2 := Declared(b.pipe, v.value, x1), Declared(b.pipe, v.value, x2);
      ListSame(env, b.list, allowReveal, q, v.value, v.value, y1, y2);
      BranchSame(env, b, allowReveal, q, d1, d2, y1, y2);
    }
  }

  lemma {:induction false} RangeSame(env: Env, n: Node, allowReveal: bool, q: Pair, d1: Value, d2: Value,
                                     x1: map<string, Value>, x2: map<string, Value>)
    requires q.Valid() && q.Dots(d1, d2) && n.RangeNode? && LooseBranch(n.branch, allowReveal)
    ensures q.SameRun(Exec(env, n, d1, x1), Exec(env, n, d2, x2), allowReveal)
    decreases n.branch, 2
  {
    var b := n.branch;
    PipeSame(env, b.pipe, q, d1, d2, x1, x2);
    var v := EvalPipe(env, b.pipe, d1, x1);
    if v.Ok? && env.items(v.value).Ok? {
      ItemsSame(env, b, allowReveal, q, env.items(v.value).value, x1, x2);
      BranchSame(env, b, allowReveal, q, d1, d2, Declared(b.pipe, v.value, x1), Declared(b.pipe, v.value, x2));
    }
  }

  lemma {:induction false} BranchSame(env: Env, b: Branch, allowReveal: bool, q: Pair, d1: Value, d2: Value,
                                      x1: map<string, Value>, x2: map<string, Value>)
    requires q.Valid() && q.Dots(d1, d2) && LooseBranch(b, allowReveal)
    ensures q.SameRun(ExecList(env, b.list, d1, x1), ExecList(env, b.list, d2, x2), allowReveal)
    ensures q.SameRun(ExecList(env, b.elseList, d1, x1), ExecList(env, b.elseList, d2, x2), allowReveal)
    decreases b, 1
  {
    ListSame(env, b.list, allowReveal, q, d1, d2, x1, x2);
    ListSame(env, b.elseList, allowReveal, q, d1, d2, x1, x2);
  }

  lemma {:induction false} ListSame(env: Env, l: seq<Node>, allowReveal: bool, q: Pair, d1: Value, d2: Value,
                                    x1: map<string, Value>, x2: map<string, Value>)
    requires q.Valid() && q.Dots(d1, d2) && LooseList(l, allowReveal)
    ensures q.SameRun(ExecList(env, l, d1, x1), ExecList(env, l, d2, x2), allowReveal)
    decreases l, 0
  {
    if l != [] {
      NodeSame(env, l[0], allowReveal, q, d1, d2, x1, x2);
      ListSame(env, l[1..], allowReveal, q, d1, d2, x1, x2);
    }
  }

  lemma {:induction false} ItemsSame(env: Env, b: Branch, allowReveal: bool, q: Pair, items: seq<Value>,
                                     x1: map<string, Value>, x2: map<string, Value>)
    requires q.Valid() && LooseBranch(b, allowReveal)
    ensures q.SameRun(ExecItems(env, b, items, x1), ExecItems(env, b, items, x2), allowReveal)
    decreases b, 0, |items|
  {
    if items != [] {
      ListSame(env, b.list, allowReveal, q, items[0], items[0],
               Declared(b.pipe, items[0], x1), Declared(b.pipe, items[0], x2));
      ItemsSame(env, b, allowReveal, q, items[1..], x1, x2);
    }
  }

  /** Non-interference of an accepted template: two runs whose data differ in RevealURL only end the same way
      and write as many pieces, position by position equal, or the run's own URL verbatim in a bare
      {{ .RevealURL }} action in both. */
  lemma NonInterference(env: Env, t: Tree, v1: Value, url1: string, v2: Value, url2: string)
    requires CheckTree(t, true) && Twins(v1, url1, v2, url2)
    ensures var r1, r2 := Execute(env, t, v1), Execute(env, t, v2);
            && r1.end == r2.end && |r1.out| == |r2.out|
            && forall i :: 0 <= i < |r1.out| ==>
                 r1.out[i] == r2.out[i] || (r1.out[i] == Piece(url1, true) && r2.out[i] == Piece(url2, true))
  {
    ListIsLoose(t.root, true);
    LooserIsEnough(env, t, v1, url1, v2, url2);
  }

  /** The looser check is enough for that. */
  lemma LooserIsEnough(env: Env, t: Tree, v1: Value, url1: string, v2: Value, url2: string)
    requires LooseList(t.root, true) && Twins(v1, url1, v2, url2)
    ensures var r1, r2 := Execute(env, t, v1), Execute(env, t, v2);
            && r1.end == r2.end && |r1.out| == |r2.out|
            && forall i :: 0 <= i < |r1.out| ==>
                 r1.out[i] == r2.out[i] || (r1.out[i] == Piece(url1, true) && r2.out[i] == Piece(url2, true))
  {
    var q := Pair(v1, url1, v2, url2);
    ListSame(env, t.root, true, q, v1, v2, map["$" := v1], map["$" := v2]);
    var r1, r2 := Execute(env, t, v1), Execute(env, t, v2);
    forall i | 0 <= i < |r1.out|
      ensures r1.out[i] == r2.out[i] || (r1.out[i] == Piece(url1, true) && r2.out[i] == Piece(url2, true))
    {
      assert q.SamePiece(r1.out[i], r2.out[i], true);
    }
  }

  /** A part that may not carry the URL at all (the subject) does not depend on it at all. */
  lemma SubjectIndependent(env: Env, t: Tree, v1: Value, url1: string, v2: Value, url2: string)
    requires CheckTree(t, false) && Twins(v1, url1, v2, url2)
    ensures Execute(env, t, v1) == Execute(env, t, v2)
    ensures Text(Execute(env, t, v1).out) == Text(Execute(env, t, v2).out)
  {
    var q := Pair(v1, url1, v2, url2);
    ListIsLoose(t.root, false);
    ListSame(env, t.root, false, q, v1, v2, map["$" := v1], map["$" := v2]);
    var r1, r2 := Execute(env, t, v1), Execute(env, t, v2);
    assert r1.out == r2.out by {
      forall i | 0 <= i < |r1.out| ensures r1.out[i] == r2.out[i] {
        assert q.SamePiece(r1.out[i], r2.out[i], false);
      }
    }
  }

  // ----- each refusal of the looser check is needed --------------------------------------------

  function Data(url: string): Value {
    Struct(map[REVEAL := Str(url)])
  }

  // An environment that shows a struct by its RevealURL, takes a string for true when it is not empty, and in which
  // every function returns its last argument and every method its receiver.
  function PlainEnv(): Env {
    Env((args: seq<Result<Value>>, piped: seq<Value>) => if |args| == 2 then args[1] else Err("call"),
        (v, name) => Ok(v),
        v => Ok(v != Str("")),
        (v: Value) => if v.List? then Ok(v.elems) else Err("range"),
        (v: Value) => if v.Struct? && REVEAL in v.fields && v.fields[REVEAL].Str? then Ok(v.fields[REVEAL].s) else Err("show"))
  }

  function Show1(a: seq<Arg>): Node { ActionNode(Pipe([], [Command(a)])) }

  const HOLE := FieldArg(REVEAL, [])

  // The node writes the URL outside a bare action.
  ghost predicate Leaks(n: Node) {
    forall url :: Exec(PlainEnv(), n, Data(url), map["$" := Data(url)]).out == [Piece(url, false)]
  }

  /** Dropping any one refusal of the looser check loses the property. Dot, a variable, the field as an argument, in
      a nested pipeline and as the start of a chain each write the URL; the field as a condition lets it choose. */
  lemma RefusalsNeeded()
    ensures Leaks(Show1([DotArg]))
    ensures Leaks(Show1([VariableArg(["$", REVEAL])]))
    ensures Leaks(Show1([FunctionArg("f"), HOLE]))
    ensures Leaks(Show1([PipeArg(Pipe([], [Command([HOLE])]))]))
    ensures Leaks(Show1([ChainArg(HOLE, ["String"])]))
    ensures var n := IfNode(Branch(Pipe([], [Command([HOLE])]), [TextNode("y")], [TextNode("n")]));
            Exec(PlainEnv(), n, Data("u"), map[]).out != Exec(PlainEnv(), n, Data(""), map[]).out
  {
    forall url ensures Exec(PlainEnv(), Show1([DotArg]), Data(url), map["$" := Data(url)]).out == [Piece(url, false)] { DotShows(url); }
    forall url ensures Exec(PlainEnv(), Show1([VariableArg(["$", REVEAL])]), Data(url), map["$" := Data(url)]).out == [Piece(url, false)] {
      VariableShows(url);
    }
    forall url ensures Exec(PlainEnv(), Show1([FunctionArg("f"), HOLE]), Data(url), map["$" := Data(url)]).out == [Piece(url, false)] {
      ArgumentShows(url);
    }
    NestedLeaks();
    ChainLeaks();
    ConditionChooses();
  }

  lemma DotShows(url: string)
    ensures Exec(PlainEnv(), Show1([DotArg]), Data(url), map["$" := Data(url)]).out == [Piece(url, false)]
  {
    OneCommand(PlainEnv(), [DotArg], Data(url), map["$" := Data(url)]);
  }

  lemma VariableShows(url: string)
    ensures Exec(PlainEnv(), Show1([VariableArg(["$", REVEAL])]), Data(url), map["$" := Data(url)]).out == [Piece(url, false)]
  {
    var env, d := PlainEnv(), Data(url);
    OneCommand(env, [VariableArg(["$", REVEAL])], d, map["$" := d]);
    assert ["$", REVEAL][1..] == [REVEAL] && [REVEAL][1..] == [];
    assert Fields(env, Ok(d), [REVEAL]) == Ok(Str(url));
  }

  lemma ArgumentShows(url: string)
    ensures Exec(PlainEnv(), Show1([FunctionArg("f"), HOLE]), Data(url), map["$" := Data(url)]).out == [Piece(url, false)]
  {
    var env, d, x := PlainEnv(), Data(url), map["$" := Data(url)];
    OneCommand(env, [FunctionArg("f"), HOLE], d, x);
    assert [FunctionArg("f"), HOLE][1..] == [HOLE];
    assert EvalArgs(env, [HOLE], d, x) == [Ok(Str(url))];
    assert EvalArgs(env, [FunctionArg("f"), HOLE], d, x) == [Ok(Func("f")), Ok(Str(url))];
  }

  lemma NestedLeaks()
    ensures Leaks(Show1([PipeArg(Pipe([], [Command([HOLE])]))]))
  {
    var nested := PipeArg(Pipe([], [Command([HOLE])]));
    forall url ensures Exec(PlainEnv(), Show1([nested]), Data(url), map["$" := Data(url)]).out == [Piece(url, false)] {
      OneCommand(PlainEnv(), [nested], Data(url), map["$" := Data(url)]);
      OneCommand(PlainEnv(), [HOLE], Data(url), map["$" := Data(url)]);
    }
  }

  lemma ChainLeaks()
    ensures Leaks(Show1([ChainArg(HOLE, ["String"])]))
  {
    var chain := ChainArg(HOLE, ["String"]);
    forall url ensures Exec(PlainEnv(), Show1([chain]), Data(url), map["$" := Data(url)]).out == [Piece(url, false)] {
      OneCommand(PlainEnv(), [chain], Data(url), map["$" := Data(url)]);
      assert ["String"][1..] == [];
      assert Fields(PlainEnv(), Ok(Str(url)), ["String"]) == Ok(Str(url));
    }
  }

  lemma ConditionChooses()
    ensures var n := IfNode(Branch(Pipe([], [Command([HOLE])]), [TextNode("y")], [TextNode("n")]));
            Exec(PlainEnv(), n, Data("u"), map[]).out != Exec(PlainEnv(), n, Data(""), map[]).out
  {
    var env, d := PlainEnv(), Data("u");
    OneCommand(env, [HOLE], d, map[]);
    OneCommand(env, [HOLE], Data(""), map[]);
    assert ExecList(env, [TextNode("y")], d, map[]).out == [Piece("y", false)];
    assert ExecList(env, [TextNode("n")], Data(""), map[]).out == [Piece("n", false)];
  }
}
