/** What the static check on mail templates accepts, said of the things that occur in a template rather than of the walk
    over it. */
module TemplateCheck {
  import opened TemplateFlow

  // ----- occurrence -----------------------------------------------------------------------

  // x is an argument of the pipeline or occurs in one, inside a chain or in parentheses.
  ghost predicate ArgIn(x: Arg, p: Pipe)
    decreases p, 0
  {
    exists c, a :: c in p.cmds && a in c.args && ArgInArg(x, a)
  }

  ghost predicate ArgInArg(x: Arg, a: Arg)
    decreases a, 1
  {
    || x == a
    || (a.ChainArg? && ArgInArg(x, a.node))
    || (a.PipeArg? && ArgIn(x, a.pipe))
  }

  // n stands in the list or in a branch of a node of the list.
  ghost predicate NodeIn(n: Node, l: seq<Node>)
    decreases l, 1
  {
    exists m :: m in l && NodeInNode(n, m)
  }

  ghost predicate NodeInNode(n: Node, m: Node)
    decreases m, 0
  {
    n == m || ((m.IfNode? || m.RangeNode? || m.WithNode?) && (NodeIn(n, m.branch.list) || NodeIn(n, m.branch.elseList)))
  }

  // ----- what may occur ---------------------------------------------------------------------

  // Neither dot nor a variable, no mention of the URL, no declaration inside.
  ghost predicate Harmless(x: Arg) {
    match x
    case DotArg => false
    case VariableArg(_) => false
    case FieldArg(first, rest) => "RevealURL" !in [first] + rest
    case ChainArg(_, field) => "RevealURL" !in field
    case PipeArg(pipe) => pipe.decl == []
    case FunctionArg(_) => true
    case ConstArg(_) => true
  }

  ghost predicate HarmlessPipe(p: Pipe) {
    p.decl == [] && forall x :: ArgIn(x, p) ==> Harmless(x)
  }

  // The action {{ .RevealURL }} and nothing else.
  const BARE := Pipe([], [Command([FieldArg("RevealURL", [])])])

  ghost predicate Permitted(n: Node, allowReveal: bool) {
    match n
    case ActionNode(pipe) => if pipe == BARE then allowReveal else HarmlessPipe(pipe)
    case IfNode(b) => HarmlessPipe(b.pipe)
    case RangeNode(b) => HarmlessPipe(b.pipe)
    case WithNode(b) => HarmlessPipe(b.pipe)
    case TemplateNode(_, _) => false
    case _ => true
  }

  // ----- the walk decides it -------------------------------------------------------------------

  lemma BareIs(p: Pipe)
    ensures IsBareReveal(p) <==> p == BARE
  {
    if IsBareReveal(p) { assert p.cmds == [p.cmds[0]] && p.cmds[0].args == [p.cmds[0].args[0]]; }
  }

  ghost predicate HarmlessIn(a: Arg) {
    forall x :: ArgInArg(x, a) ==> Harmless(x)
  }

  lemma {:induction false} ArgWalked(a: Arg)
    ensures WalkArg(a) <==> HarmlessIn(a)
    decreases a, 1
  {
    assert ArgInArg(a, a);
    match a
    case ChainArg(node, _) =>
      ArgWalked(node);
      forall x ensures ArgInArg(x, a) <==> x == a || ArgInArg(x, node) {}
    case PipeArg(pipe) =>
      PipeWalked(pipe);
      forall x ensures ArgInArg(x, a) <==> x == a || ArgIn(x, pipe) {}
    case _ =>
  }

  // The argument of the pipeline that x occurs in.
  lemma Within(x: Arg, p: Pipe) returns (a: Arg)
    requires ArgIn(x, p)
    ensures ArgInArg(x, a) && exists c :: c in p.cmds && a in c.args
  {
    var c, b :| c in p.cmds && b in c.args && ArgInArg(x, b);
    a := b;
  }

  lemma {:induction false} PipeWalked(p: Pipe)
    ensures WalkPipe(p) <==> HarmlessPipe(p)
    decreases p, 0
  {
    forall c, a | c in p.cmds && a in c.args ensures WalkArg(a) <==> HarmlessIn(a) { ArgWalked(a); }
    if HarmlessPipe(p) {
      forall c, a | c in p.cmds && a in c.args ensures WalkArg(a) {
        forall x | ArgInArg(x, a) ensures Harmless(x) { assert ArgIn(x, p); }
      }
    }
    if WalkPipe(p) {
      forall x | ArgIn(x, p) ensures Harmless(x) {
        var a := Within(x, p);
        assert WalkArg(a) && HarmlessIn(a);
      }
    }
  }

  ghost predicate PermittedIn(n: Node, allowReveal: bool) {
    forall m :: NodeInNode(m, n) ==> Permitted(m, allowReveal)
  }

  ghost predicate PermittedAll(l: seq<Node>, allowReveal: bool) {
    forall m :: NodeIn(m, l) ==> Permitted(m, allowReveal)
  }

  lemma {:induction false} NodeWalked(n: Node, allowReveal: bool)
    ensures WalkNode(n, allowReveal) <==> PermittedIn(n, allowReveal)
    decreases n, 0
  {
    assert NodeInNode(n, n);
    if n.ActionNode? {
      BareIs(n.pipe);
      PipeWalked(n.pipe);
    }
    if n.IfNode? || n.RangeNode? || n.WithNode? {
      BranchWalked(n.branch, allowReveal);
      forall m ensures NodeInNode(m, n) <==> m == n || NodeIn(m, n.branch.list) || NodeIn(m, n.branch.elseList) {}
    }
  }

  lemma {:induction false} BranchWalked(b: Branch, allowReveal: bool)
    ensures WalkPipe(b.pipe) <==> HarmlessPipe(b.pipe)
    ensures WalkList(b.list, allowReveal) <==> PermittedAll(b.list, allowReveal)
    ensures WalkList(b.elseList, allowReveal) <==> PermittedAll(b.elseList, allowReveal)
    decreases b, 2
  {
    PipeWalked(b.pipe);
    ListWalked(b.list, allowReveal);
    ListWalked(b.elseList, allowReveal);
  }

  lemma {:induction false} ListWalked(l: seq<Node>, allowReveal: bool)
    ensures WalkList(l, allowReveal) <==> PermittedAll(l, allowReveal)
    decreases l, 1
  {
    forall n | n in l ensures WalkNode(n, allowReveal) <==> PermittedIn(n, allowReveal) { NodeWalked(n, allowReveal); }
    if PermittedAll(l, allowReveal) {
      forall n | n in l ensures WalkNode(n, allowReveal) {
        forall m | NodeInNode(m, n) ensures Permitted(m, allowReveal) { assert NodeIn(m, l); }
      }
    }
    if WalkList(l, allowReveal) {
      forall m | NodeIn(m, l) ensures Permitted(m, allowReveal) {
        var n :| n in l && NodeInNode(m, n);
        assert PermittedIn(n, allowReveal);
      }
    }
  }

  /** A part is accepted exactly when it defines no templates and every node in it, however deep, is permitted: no
      template call; the bare action only where allowed; and in every other pipeline no declaration, no dot, no
      variable and no mention of the URL. */
  lemma AcceptedIff(t: Tree, allowReveal: bool)
    ensures CheckTree(t, allowReveal) <==> t.defines == 0 && forall n :: NodeIn(n, t.root) ==> Permitted(n, allowReveal)
  {
    ListWalked(t.root, allowReveal);
  }
}
