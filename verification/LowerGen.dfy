/** What sethi.c emits, as a function of the tree and the next unused symbol number. */
module LowerGen {
  import opened LowerSpec

  /** Statements to run first, the node left to evaluate, and the next unused symbol. */
  datatype Lowered = Lowered(code: Program, res: Expr, n: nat)

  function Lab(l: nat): Line {
    Line(At(l), Nop)
  }

  function Do(s: Stmt): Line {
    Line(NoLabel, s)
  }

  function GenBool(e: Expr, t: nat, f: nat, n: nat): (g: (Program, nat))
    ensures n <= g.1
    decreases e, if IsLogic(e) then 0 else 1
  {
    match e
    case Not(x) => GenBool(x, f, t, n)
    case And(l, r) =>
      var (c1, n1) := GenBool(l, n, f, n + 1);
      var (c2, n2) := GenBool(r, t, f, n1);
      (c1 + [Lab(n)] + c2, n2)
    case Or(l, r) =>
      var (c1, n1) := GenBool(l, t, n, n + 1);
      var (c2, n2) := GenBool(r, t, f, n1);
      (c1 + [Lab(n)] + c2, n2)
    case _ =>
      var g := Gen(e, n);
      (g.code + [Do(Branch(g.res, t)), Do(Jump(f))], g.n)
  }

  function GenComma(e: Expr, n: nat): (g: (Program, nat))
    ensures n <= g.1
    decreases e, 2
  {
    if e.Comma? then
      var (c1, n1) := GenComma(e.l, n);
      var g := Gen(e.r, n1);
      (c1 + (g.code + [Do(Eff(g.res))]), g.n)
    else
      var g := Gen(e, n);
      (g.code + [Do(Eff(g.res))], g.n)
  }

  /** The tail of logicexpr: where the two outcomes become a value. */
  function LogicTail(n: nat, x: nat): Program {
    [Line(At(n), Assign(x, Leaf(Const(1)))), Do(Jump(n + 2)), Line(At(n + 1), Assign(x, Leaf(Const(0)))), Lab(n + 2)]
  }

  function Gen(e: Expr, n: nat): (g: Lowered)
    ensures n <= g.n && Residual(g.res)
    decreases e, if IsLogic(e) then 1 else 0
  {
    match e
    case Leaf(_) => Lowered([], e, n)
    case Op(id, x) => var g := Gen(x, n); Lowered(g.code, Op(id, g.res), g.n)
    case Comma(l, r) =>
      var (c1, n1) := GenComma(l, n);
      var g := Gen(r, n1);
      Lowered(c1 + g.code, g.res, g.n)
    case Cond(c, a, b) =>
      var (c1, x) := GenBool(c, n, n + 1, n + 3);
      var ga := Gen(a, x + 1);
      var gb := Gen(b, ga.n);
      Lowered(c1 + Arm(n, ga, x) + [Do(Jump(n + 2))] + Arm(n + 1, gb, x) + [Lab(n + 2)], Leaf(Tmp(x)), gb.n)
    case _ =>
      var (c1, x) := GenBool(e, n, n + 1, n + 3);
      Lowered(c1 + LogicTail(n, x), Leaf(Tmp(x)), x + 1)
  }

  /** One arm of a ternary: its label, its statements, and its value stored in `x`. */
  function Arm(lab: nat, g: Lowered, x: nat): Program {
    [Lab(lab)] + g.code + [Do(Assign(x, g.res))]
  }

  /** Lowering again what is already lowered changes nothing. */
  lemma {:induction false} GenResidual(e: Expr, n: nat)
    requires Residual(e)
    ensures Gen(e, n) == Lowered([], e, n)
  {
    match e
    case Op(_, x) => GenResidual(x, n);
    case _ =>
  }

  lemma {:induction false} TmpsBelowMore(e: Expr, n: nat, n': nat)
    requires TmpsBelow(e, n) && n <= n'
    ensures TmpsBelow(e, n')
  {
    match e
    case Op(_, x) => TmpsBelowMore(x, n, n');
    case Not(x) => TmpsBelowMore(x, n, n');
    case And(l, r) => TmpsBelowMore(l, n, n'); TmpsBelowMore(r, n, n');
    case Or(l, r) => TmpsBelowMore(l, n, n'); TmpsBelowMore(r, n, n');
    case Cond(c, a, b) => TmpsBelowMore(c, n, n'); TmpsBelowMore(a, n, n'); TmpsBelowMore(b, n, n');
    case Comma(l, r) => TmpsBelowMore(l, n, n'); TmpsBelowMore(r, n, n');
    case _ =>
  }

  lemma {:induction false} ResidualBelow(e: Expr, n: nat)
    requires TmpsBelow(e, n)
    ensures TmpsBelow(Gen(e, n).res, Gen(e, n).n)
    decreases e
  {
    match e
    case Op(_, x) => ResidualBelow(x, n);
    case Comma(l, r) =>
      var n1 := GenComma(l, n).1;
      TmpsBelowMore(r, n, n1);
      ResidualBelow(r, n1);
    case _ =>
  }
}
