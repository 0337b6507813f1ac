/** sethi.c as it runs: recursion over the tree that inserts statements as it goes. */
module Lowering {
  import opened LowerSpec
  import opened LowerGen

  /** 0 for a tree that is already lowered: lowering it once more cannot recurse far. */
  ghost function Rank(e: Expr): nat {
    if Residual(e) then 0 else 1
  }

  lemma Append3(s: Program, a: Program, b: Program, c: Program)
    ensures s + a + b + c == s + (a + b + c)
  {
  }

  /** The first half of a lowered conditional: its condition, its first arm, the jump behind. */
  function Head(c: Expr, a: Expr, n: nat): Program {
    var (c1, x) := GenBool(c, n, n + 1, n + 3);
    c1 + Arm(n, Gen(a, x + 1), x) + [Do(Jump(n + 2))]
  }

  class Emitter {
    /** The statements inserted in front of the current one. */
    var code: Program
    /** The next unused number for a label or temporary. */
    var next: nat

    constructor (n: nat)
      ensures code == [] && next == n
    {
      code, next := [], n;
    }

    method NewSymbol() returns (l: nat)
      modifies this`next
      ensures l == old(next) && next == old(next) + 1
    {
      l := next;
      next := next + 1;
    }

    method PreStmt(s: Line)
      modifies this`code
      ensures code == old(code) + [s]
    {
      code := code + [s];
    }

    /** Emit jumps to `t` or `f` according to the truth of `e`. */
    method Bool(e: Expr, t: nat, f: nat)
      modifies this
      ensures code == old(code) + GenBool(e, t, f, old(next)).0
      ensures next == GenBool(e, t, f, old(next)).1
      decreases Rank(e), e, if IsLogic(e) then 0 else 3
    {
      match e {
        case Not(x) =>
          Bool(x, f, t);
        case And(l, r) =>
          var mid := NewSymbol();
          ghost var (c1, n1) := GenBool(l, mid, f, next);
          Append3(code, c1, [Lab(mid)], GenBool(r, t, f, n1).0);
          Bool(l, mid, f);
          PreStmt(Lab(mid));
          Bool(r, t, f);
        case Or(l, r) =>
          var mid := NewSymbol();
          ghost var (c1, n1) := GenBool(l, t, mid, next);
          Append3(code, c1, [Lab(mid)], GenBool(r, t, f, n1).0);
          Bool(l, t, mid);
          PreStmt(Lab(mid));
          Bool(r, t, f);
        case _ =>
          ghost var g := Gen(e, next);
          var x := Sethi(e);
          PreStmt(Do(Branch(x, t)));
          PreStmt(Do(Jump(f)));
          assert code == old(code) + (g.code + [Do(Branch(g.res, t)), Do(Jump(f))]);
      }
    }

    /** An assignment to a temporary; its operand is lowered again, which changes nothing. */
    method AssignNode(x: nat, e: Expr) returns (s: Stmt)
      requires Residual(e)
      modifies this
      ensures s == Assign(x, e) && code == old(code) && next == old(next)
      decreases 0, e, 3
    {
      GenResidual(e, next);
      var r := Sethi(e);
      s := Assign(x, r);
    }

    method LogicExpr(e: Expr) returns (r: Expr)
      requires IsLogic(e)
      modifies this
      ensures r == Gen(e, old(next)).res && next == Gen(e, old(next)).n
      ensures code == old(code) + Gen(e, old(next)).code
      decreases 1, e, 1
    {
      ghost var c0, n := code, next;
      var t := NewSymbol();
      var f := NewSymbol();
      var phi := NewSymbol();
      Bool(e, t, f);
      var x := NewSymbol();
      var s := AssignNode(x, Leaf(Const(1)));
      PreStmt(Line(At(t), s));
      PreStmt(Do(Jump(phi)));
      s := AssignNode(x, Leaf(Const(0)));
      PreStmt(Line(At(f), s));
      PreStmt(Lab(phi));
      assert code == c0 + (GenBool(e, n, n + 1, n + 3).0 + LogicTail(n, x));
      r := Leaf(Tmp(x));
    }

    method CommaList(e: Expr)
      modifies this
      ensures code == old(code) + GenComma(e, old(next)).0
      ensures next == GenComma(e, old(next)).1
      decreases Rank(e), e, 4
    {
      if e.Comma? {
        CommaList(e.l);
        var x := Sethi(e.r);
        PreStmt(Do(Eff(x)));
      } else {
        var x := Sethi(e);
        PreStmt(Do(Eff(x)));
      }
    }

    /** One arm of a ternary: its label, its statements and the assignment of its value. */
    method EmitArm(lab: nat, e: Expr, x: nat)
      modifies this
      ensures code == old(code) + Arm(lab, Gen(e, old(next)), x) && next == Gen(e, old(next)).n
      decreases 1, e, 4
    {
      ghost var g := Gen(e, next);
      PreStmt(Lab(lab));
      var y := Sethi(e);
      var s := AssignNode(x, y);
      PreStmt(Do(s));
      assert code == old(code) + ([Lab(lab)] + g.code + [Do(Assign(x, g.res))]);
    }

    /** Three labels, the condition, and the temporary for the value. */
    method TernaryTest(c: Expr, ghost e: Expr) returns (t: nat, f: nat, phi: nat, x: nat)
      requires e.Cond? && e.c == c
      modifies this
      ensures t == old(next) && f == t + 1 && phi == t + 2
      ensures x == GenBool(c, t, f, t + 3).1 && next == x + 1
      ensures code == old(code) + GenBool(c, t, f, t + 3).0
      decreases 1, e, 0, 0
    {
      t := NewSymbol();
      f := NewSymbol();
      phi := NewSymbol();
      Bool(c, t, f);
      x := NewSymbol();
    }

    /** The condition and the first arm, up to the jump over the second. */
    method TernaryHead(c: Expr, a: Expr, ghost e: Expr) returns (f: nat, phi: nat, x: nat)
      requires e.Cond? && e.c == c && e.a == a
      modifies this
      ensures x == GenBool(c, old(next), old(next) + 1, old(next) + 3).1 && f == old(next) + 1 && phi == old(next) + 2
      ensures next == Gen(a, x + 1).n && code == old(code) + Head(c, a, old(next))
      decreases 1, e, 0, 1
    {
      ghost var before := code;
      var t;
      t, f, phi, x := TernaryTest(c, e);
      ghost var c1, arm := GenBool(c, t, f, t + 3).0, Arm(t, Gen(a, x + 1), x);
      EmitArm(t, a, x);
      PreStmt(Do(Jump(phi)));
      Append3(before, c1, arm, [Do(Jump(phi))]);
    }

    method Ternary(c: Expr, a: Expr, b: Expr) returns (r: Expr)
      modifies this
      ensures var n := old(next);
              var x := GenBool(c, n, n + 1, n + 3).1;
              var gb := Gen(b, Gen(a, x + 1).n);
              code == old(code) + (Head(c, a, n) + Arm(n + 1, gb, x) + [Lab(n + 2)]) &&
              r == Leaf(Tmp(x)) && next == gb.n
      decreases 1, Cond(c, a, b), 1
    {
      ghost var n, c0 := next, code;
      var f, phi, x := TernaryHead(c, a, Cond(c, a, b));
      ghost var arm := Arm(f, Gen(b, next), x);
      EmitArm(f, b, x);
      PreStmt(Lab(phi));
      Append3(c0, Head(c, a, n), arm, [Lab(phi)]);
      r := Leaf(Tmp(x));
    }

    /** Lower an expression: hoist what needs control flow and return what is left. */
    method Sethi(e: Expr) returns (r: Expr)
      modifies this
      ensures r == Gen(e, old(next)).res && next == Gen(e, old(next)).n
      ensures code == old(code) + Gen(e, old(next)).code
      decreases Rank(e), e, 2
    {
      match e {
        case Op(id, x) =>
          var y := Sethi(x);
          r := Op(id, y);
        case Comma(l, y) =>
          CommaList(l);
          r := Sethi(y);
        case Cond(c, a, b) =>
          var x := Ternary(c, a, b);
          GenResidual(x, next);
          r := Sethi(x);
        case Not(_) =>
          r := LogicExpr(e);
        case And(_, _) =>
          r := LogicExpr(e);
        case Or(_, _) =>
          r := LogicExpr(e);
        case _ =>
          r := e;
      }
    }
  }
}
