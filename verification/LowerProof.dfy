/** Running the emitted statements is evaluating the expression. */
module LowerProof {
  import opened LowerSpec
  import opened LowerGen

  ghost predicate Reaches(p: Program, o: Oracle, c: Config, d: Config) {
    exists k: nat :: Steps(p, o, c, k) == d
  }

  lemma ReachesSelf(p: Program, o: Oracle, c: Config)
    ensures Reaches(p, o, c, c)
  {
    assert Steps(p, o, c, 0) == c;
  }

  lemma ReachesStep(p: Program, o: Oracle, c: Config)
    ensures Reaches(p, o, c, Step(p, o, c))
  {
    assert Steps(p, o, Step(p, o, c), 0) == Step(p, o, c);
    assert Steps(p, o, c, 1) == Step(p, o, c);
  }

  lemma ReachesTrans(p: Program, o: Oracle, a: Config, b: Config, c: Config)
    requires Reaches(p, o, a, b) && Reaches(p, o, b, c)
    ensures Reaches(p, o, a, c)
  {
    var j: nat :| Steps(p, o, a, j) == b;
    var k: nat :| Steps(p, o, b, k) == c;
    StepsAdd(p, o, a, j, k);
  }

  lemma AgreeTrans(a: Temps, b: Temps, c: Temps, n: nat, n': nat)
    requires Agree(a, b, n) && Agree(b, c, n') && n <= n'
    ensures Agree(a, c, n)
  {
    forall x | 0 <= x < n ensures Value(c, x) == Value(a, x) {
      assert Value(c, x) == Value(b, x) && Value(b, x) == Value(a, x);
    }
  }

  lemma AboveTrans(a: Temps, b: Temps, c: Temps, n: nat, n': nat)
    requires Above(a, b, n) && Above(b, c, n') && n <= n'
    ensures Above(a, c, n')
  {
    forall x | x >= n' ensures Value(c, x) == Value(a, x) {
      assert Value(c, x) == Value(b, x) && Value(b, x) == Value(a, x);
    }
  }

  // One statement more, by kind.

  lemma RunNop(p: Program, o: Oracle, a: Config, b: Config) returns (c: Config)
    requires Reaches(p, o, a, b) && b.pc < |p| && p[b.pc].stmt == Nop
    ensures c == b.(pc := b.pc + 1) && Reaches(p, o, a, c)
  {
    c := Step(p, o, b);
    ReachesStep(p, o, b);
    ReachesTrans(p, o, a, b, c);
  }

  lemma RunEff(p: Program, o: Oracle, a: Config, b: Config, e: Expr) returns (c: Config)
    requires Reaches(p, o, a, b) && b.pc < |p| && p[b.pc].stmt == Eff(e)
    ensures c == b.(pc := b.pc + 1, h := Eval(o, e, b.h, b.temps).0) && Reaches(p, o, a, c)
  {
    c := Step(p, o, b);
    ReachesStep(p, o, b);
    ReachesTrans(p, o, a, b, c);
  }

  lemma RunAssign(p: Program, o: Oracle, a: Config, b: Config, x: nat, e: Expr, lo: nat, hi: nat, m: Temps)
    returns (c: Config)
    requires Reaches(p, o, a, b) && b.pc < |p| && p[b.pc].stmt == Assign(x, e)
    requires Agree(m, b.temps, lo) && Above(m, b.temps, hi) && lo <= x < hi
    ensures Reaches(p, o, a, c) && c.pc == b.pc + 1 && Agree(m, c.temps, lo) && Above(m, c.temps, hi)
    ensures (c.h, Value(c.temps, x)) == Eval(o, e, b.h, b.temps)
  {
    c := Step(p, o, b);
    ReachesStep(p, o, b);
    ReachesTrans(p, o, a, b, c);
    forall y: nat | y < lo || hi <= y ensures Value(c.temps, y) == Value(m, y) {
      assert Value(b.temps, y) == Value(m, y);
    }
  }

  lemma RunJump(p: Program, o: Oracle, a: Config, b: Config, l: nat) returns (c: Config)
    requires Reaches(p, o, a, b) && b.pc < |p| && p[b.pc].stmt == Jump(l)
    ensures c == b.(pc := Find(p, l)) && Reaches(p, o, a, c)
  {
    c := Step(p, o, b);
    ReachesStep(p, o, b);
    ReachesTrans(p, o, a, b, c);
  }

  lemma RunBranch(p: Program, o: Oracle, a: Config, b: Config, e: Expr, t: nat, f: nat) returns (c: Config)
    requires Reaches(p, o, a, b) && b.pc + 1 < |p|
    requires p[b.pc].stmt == Branch(e, t) && p[b.pc + 1].stmt == Jump(f)
    ensures Reaches(p, o, a, c) && c.temps == b.temps
    ensures var (h, v) := Eval(o, e, b.h, b.temps);
            c.h == h && c.pc == Find(p, if v != 0 then t else f)
  {
    c := Step(p, o, b);
    ReachesStep(p, o, b);
    ReachesTrans(p, o, a, b, c);
    if Eval(o, e, b.h, b.temps).1 == 0 {
      c := RunJump(p, o, a, c, f);
    }
  }

  /** The code for a condition halts at exactly one of its two labels, at `t` exactly when the
      condition holds, having performed the events C prescribes, once each and in order. */
  lemma {:induction false} BoolCorrect(p: Program, o: Oracle, e: Expr, t: nat, f: nat, n: nat, c: Config)
    returns (d: Config)
    requires Embedded(p, c.pc, GenBool(e, t, f, n).0) && TmpsBelow(e, n)
    ensures Reaches(p, o, c, d) && Agree(c.temps, d.temps, n) && Above(c.temps, d.temps, GenBool(e, t, f, n).1)
    ensures var (h, v) := Eval(o, e, c.h, c.temps);
            d.h == h && d.pc == Find(p, if v != 0 then t else f)
    decreases e, if IsLogic(e) then 2 else 6
  {
    match e {
      case Not(x) =>
        d := BoolCorrect(p, o, x, f, t, n, c);
      case And(l, r) =>
        d := AndCorrect(p, o, l, r, t, f, n, c);
      case Or(l, r) =>
        d := OrCorrect(p, o, l, r, t, f, n, c);
      case _ =>
        d := LeafCorrect(p, o, e, t, f, n, c);
    }
  }

  lemma {:induction false} LeafCorrect(p: Program, o: Oracle, e: Expr, t: nat, f: nat, n: nat, c: Config)
    returns (d: Config)
    requires !IsLogic(e) && Embedded(p, c.pc, Gen(e, n).code + [Do(Branch(Gen(e, n).res, t)), Do(Jump(f))])
    requires TmpsBelow(e, n)
    ensures Reaches(p, o, c, d) && Agree(c.temps, d.temps, n) && Above(c.temps, d.temps, Gen(e, n).n)
    ensures var (h, v) := Eval(o, e, c.h, c.temps);
            d.h == h && d.pc == Find(p, if v != 0 then t else f)
    decreases e, 5
  {
    var g := Gen(e, n);
    var tail := [Do(Branch(g.res, t)), Do(Jump(f))];
    EmbeddedConcat(p, c.pc, g.code, tail);
    var b := ExprCorrect(p, o, e, n, c);
    EmbeddedAt(p, b.pc, tail, 0);
    EmbeddedAt(p, b.pc, tail, 1);
    d := RunBranch(p, o, c, b, g.res, t, f);
  }

  /** `&&`: the second operand runs exactly when the first holds. */
  lemma {:induction false} AndCorrect(p: Program, o: Oracle, l: Expr, r: Expr, t: nat, f: nat, n: nat, c: Config)
    returns (d: Config)
    requires Embedded(p, c.pc, GenBool(And(l, r), t, f, n).0) && TmpsBelow(And(l, r), n)
    ensures Reaches(p, o, c, d) && Agree(c.temps, d.temps, n)
    ensures Above(c.temps, d.temps, GenBool(And(l, r), t, f, n).1)
    ensures var (h, v) := Eval(o, And(l, r), c.h, c.temps);
            d.h == h && d.pc == Find(p, if v != 0 then t else f)
    decreases And(l, r), 1
  {
    var (c1, n1) := GenBool(l, n, f, n + 1);
    SecondEmbedded(p, c.pc, c1, n, GenBool(r, t, f, n1).0);
    TmpsBelowMore(l, n, n + 1);
    d := BoolCorrect(p, o, l, n, f, n + 1, c);
    if Eval(o, l, c.h, c.temps).1 != 0 {
      d := SecondCorrect(p, o, r, t, f, n, n1, c, d);
    }
  }

  /** `||`: the second operand runs exactly when the first does not hold. */
  lemma {:induction false} OrCorrect(p: Program, o: Oracle, l: Expr, r: Expr, t: nat, f: nat, n: nat, c: Config)
    returns (d: Config)
    requires Embedded(p, c.pc, GenBool(Or(l, r), t, f, n).0) && TmpsBelow(Or(l, r), n)
    ensures Reaches(p, o, c, d) && Agree(c.temps, d.temps, n)
    ensures Above(c.temps, d.temps, GenBool(Or(l, r), t, f, n).1)
    ensures var (h, v) := Eval(o, Or(l, r), c.h, c.temps);
            d.h == h && d.pc == Find(p, if v != 0 then t else f)
    decreases Or(l, r), 1
  {
    var (c1, n1) := GenBool(l, t, n, n + 1);
    SecondEmbedded(p, c.pc, c1, n, GenBool(r, t, f, n1).0);
    TmpsBelowMore(l, n, n + 1);
    d := BoolCorrect(p, o, l, t, n, n + 1, c);
    if Eval(o, l, c.h, c.temps).1 == 0 {
      d := SecondCorrect(p, o, r, t, f, n, n1, c, d);
    }
  }

  lemma SecondEmbedded(p: Program, i: nat, c1: Program, n: nat, c2: Program)
    requires Embedded(p, i, c1 + [Lab(n)] + c2)
    ensures Embedded(p, i, c1) && i + |c1| < |p| && p[i + |c1|] == Lab(n) && Find(p, n) == i + |c1|
    ensures Embedded(p, i + |c1| + 1, c2)
  {
    EmbeddedConcat(p, i, c1 + [Lab(n)], c2);
    EmbeddedConcat(p, i, c1, [Lab(n)]);
    EmbeddedAt(p, i + |c1|, [Lab(n)], 0);
  }

  /** Continue at the middle label `n` with the second operand. */
  lemma {:induction false} SecondCorrect(p: Program, o: Oracle, r: Expr, t: nat, f: nat, n: nat, n1: nat, a: Config, b: Config)
    returns (d: Config)
    requires Reaches(p, o, a, b) && Agree(a.temps, b.temps, n) && Above(a.temps, b.temps, n1)
    requires n < n1 && TmpsBelow(r, n)
    requires b.pc < |p| && p[b.pc] == Lab(n) && Embedded(p, b.pc + 1, GenBool(r, t, f, n1).0)
    ensures Reaches(p, o, a, d) && Agree(a.temps, d.temps, n) && Above(a.temps, d.temps, GenBool(r, t, f, n1).1)
    ensures var (h, v) := Eval(o, r, b.h, a.temps);
            d.h == h && d.pc == Find(p, if v != 0 then t else f)
    decreases r, 7
  {
    TmpsBelowMore(r, n, n1);
    EvalAgree(o, r, b.h, a.temps, b.temps, n);
    var b1 := RunNop(p, o, a, b);
    d := BoolCorrect(p, o, r, t, f, n1, b1);
    ReachesTrans(p, o, a, b1, d);
    AgreeTrans(a.temps, b1.temps, d.temps, n, n1);
    AboveTrans(a.temps, b1.temps, d.temps, n1, GenBool(r, t, f, n1).1);
  }

  /** Running the hoisted statements and then evaluating the residual node gives the same
      events and value as evaluating the expression. */
  lemma {:induction false} ExprCorrect(p: Program, o: Oracle, e: Expr, n: nat, c: Config)
    returns (d: Config)
    requires Embedded(p, c.pc, Gen(e, n).code) && TmpsBelow(e, n)
    ensures Reaches(p, o, c, d) && d.pc == c.pc + |Gen(e, n).code|
    ensures Agree(c.temps, d.temps, n) && Above(c.temps, d.temps, Gen(e, n).n)
    ensures Eval(o, Gen(e, n).res, d.h, d.temps) == Eval(o, e, c.h, c.temps)
    decreases e, 4
  {
    match e {
      case Op(_, x) =>
        d := ExprCorrect(p, o, x, n, c);
      case Comma(l, r) =>
        var (c1, n1) := GenComma(l, n);
        EmbeddedConcat(p, c.pc, c1, Gen(r, n1).code);
        var b := CommaCorrect(p, o, l, n, c);
        TmpsBelowMore(r, n, n1);
        d := ExprCorrect(p, o, r, n1, b);
        EvalAgree(o, r, b.h, c.temps, b.temps, n);
        ReachesTrans(p, o, c, b, d);
        AgreeTrans(c.temps, b.temps, d.temps, n, n1);
        AboveTrans(c.temps, b.temps, d.temps, n1, Gen(r, n1).n);
      case Cond(_, _, _) =>
        d := CondCorrect(p, o, e.c, e.a, e.b, n, c);
      case Not(_) =>
        d := LogicCorrect(p, o, e, n, c);
      case And(_, _) =>
        d := LogicCorrect(p, o, e, n, c);
      case Or(_, _) =>
        d := LogicCorrect(p, o, e, n, c);
      case _ =>
        d := c;
        ReachesSelf(p, o, c);
    }
  }

  /** A discarded left operand of a comma is evaluated for its events. */
  lemma {:induction false} CommaCorrect(p: Program, o: Oracle, e: Expr, n: nat, c: Config)
    returns (d: Config)
    requires Embedded(p, c.pc, GenComma(e, n).0) && TmpsBelow(e, n)
    ensures Reaches(p, o, c, d) && d.pc == c.pc + |GenComma(e, n).0|
    ensures Agree(c.temps, d.temps, n) && Above(c.temps, d.temps, GenComma(e, n).1)
    ensures d.h == Eval(o, e, c.h, c.temps).0
    decreases e, 6
  {
    if e.Comma? {
      var (c1, n1) := GenComma(e.l, n);
      EmbeddedConcat(p, c.pc, c1, Gen(e.r, n1).code + [Do(Eff(Gen(e.r, n1).res))]);
      var b := CommaCorrect(p, o, e.l, n, c);
      TmpsBelowMore(e.r, n, n1);
      EvalAgree(o, e.r, b.h, c.temps, b.temps, n);
      d := DiscardCorrect(p, o, e.r, n1, b);
      ReachesTrans(p, o, c, b, d);
      AgreeTrans(c.temps, b.temps, d.temps, n, n1);
      AboveTrans(c.temps, b.temps, d.temps, n1, Gen(e.r, n1).n);
    } else {
      d := DiscardCorrect(p, o, e, n, c);
    }
  }

  lemma {:induction false} DiscardCorrect(p: Program, o: Oracle, e: Expr, n: nat, c: Config)
    returns (d: Config)
    requires Embedded(p, c.pc, Gen(e, n).code + [Do(Eff(Gen(e, n).res))]) && TmpsBelow(e, n)
    ensures Reaches(p, o, c, d) && d.pc == c.pc + |Gen(e, n).code| + 1
    ensures Agree(c.temps, d.temps, n) && Above(c.temps, d.temps, Gen(e, n).n)
    ensures d.h == Eval(o, e, c.h, c.temps).0
    decreases e, 5
  {
    EmbeddedConcat(p, c.pc, Gen(e, n).code, [Do(Eff(Gen(e, n).res))]);
    d := ExprCorrect(p, o, e, n, c);
    EmbeddedAt(p, d.pc, [Do(Eff(Gen(e, n).res))], 0);
    d := RunEff(p, o, c, d, Gen(e, n).res);
  }

  lemma {:induction false} LogicCorrect(p: Program, o: Oracle, e: Expr, n: nat, c: Config)
    returns (d: Config)
    requires IsLogic(e) && Embedded(p, c.pc, Gen(e, n).code) && TmpsBelow(e, n)
    ensures Reaches(p, o, c, d) && d.pc == c.pc + |Gen(e, n).code|
    ensures Agree(c.temps, d.temps, n) && Above(c.temps, d.temps, Gen(e, n).n)
    ensures Eval(o, Gen(e, n).res, d.h, d.temps) == Eval(o, e, c.h, c.temps)
    decreases e, 3
  {
    var (c1, x) := GenBool(e, n, n + 1, n + 3);
    EmbeddedConcat(p, c.pc, c1, LogicTail(n, x));
    TmpsBelowMore(e, n, n + 3);
    var b := BoolCorrect(p, o, e, n, n + 1, n + 3, c);
    d := TailCorrect(p, o, n, x, c.pc + |c1|, c, b, Eval(o, e, c.h, c.temps).1 != 0);
    LogicValue(o, e, c.h, c.temps);
  }

  /** From either label the tail of logicexpr stores the truth value and falls out at its end. */
  lemma TailCorrect(p: Program, o: Oracle, n: nat, x: nat, i: nat, a: Config, b: Config, v: bool)
    returns (d: Config)
    requires Embedded(p, i, LogicTail(n, x)) && Reaches(p, o, a, b) && n <= x
    requires Agree(a.temps, b.temps, n) && Above(a.temps, b.temps, x)
    requires b.pc == Find(p, if v then n else n + 1)
    ensures Reaches(p, o, a, d) && d.pc == i + |LogicTail(n, x)| && d.h == b.h
    ensures Agree(a.temps, d.temps, n) && Above(a.temps, d.temps, x + 1) && Value(d.temps, x) == Truth(v)
  {
    EmbeddedAt(p, i, LogicTail(n, x), 3);
    if v {
      EmbeddedAt(p, i, LogicTail(n, x), 0);
      EmbeddedAt(p, i, LogicTail(n, x), 1);
      d := RunAssign(p, o, a, b, x, Leaf(Const(1)), n, x + 1, a.temps);
      d := RunJump(p, o, a, d, n + 2);
    } else {
      EmbeddedAt(p, i, LogicTail(n, x), 2);
      d := RunAssign(p, o, a, b, x, Leaf(Const(0)), n, x + 1, a.temps);
    }
    d := RunNop(p, o, a, d);
  }

  lemma LogicValue(o: Oracle, e: Expr, h: History, m: Temps)
    requires IsLogic(e)
    ensures var v := Eval(o, e, h, m).1; v == Truth(v != 0)
  {
  }

  /** Where one arm of a ternary stands: label, statements, assignment. */
  ghost predicate ArmAt(p: Program, i: nat, lab: nat, g: Lowered, x: nat) {
    && i + 1 + |g.code| < |p|
    && p[i] == Lab(lab) && Find(p, lab) == i
    && Embedded(p, i + 1, g.code)
    && p[i + 1 + |g.code|] == Do(Assign(x, g.res))
  }

  lemma ArmEmbedded(p: Program, i: nat, lab: nat, g: Lowered, x: nat)
    requires Embedded(p, i, Arm(lab, g, x))
    ensures ArmAt(p, i, lab, g, x) && |Arm(lab, g, x)| == |g.code| + 2
  {
    EmbeddedConcat(p, i, [Lab(lab)] + g.code, [Do(Assign(x, g.res))]);
    EmbeddedConcat(p, i, [Lab(lab)], g.code);
    EmbeddedAt(p, i, [Lab(lab)], 0);
    EmbeddedAt(p, i + 1 + |g.code|, [Do(Assign(x, g.res))], 0);
  }

  /** Where the pieces of a lowered ternary stand. */
  ghost predicate CondAt(p: Program, i: nat, c1: Program, n: nat, ga: Lowered, gb: Lowered, x: nat) {
    var j := i + |c1| + |ga.code| + 2;
    var k := j + 1 + |gb.code| + 2;
    && Embedded(p, i, c1)
    && ArmAt(p, i + |c1|, n, ga, x)
    && ArmAt(p, j + 1, n + 1, gb, x)
    && k < |p| && p[j] == Do(Jump(n + 2)) && p[k] == Lab(n + 2) && Find(p, n + 2) == k
  }

  lemma CondEmbedded(p: Program, i: nat, c1: Program, n: nat, ga: Lowered, gb: Lowered, x: nat)
    requires Embedded(p, i, c1 + Arm(n, ga, x) + [Do(Jump(n + 2))] + Arm(n + 1, gb, x) + [Lab(n + 2)])
    ensures CondAt(p, i, c1, n, ga, gb, x)
    ensures |c1 + Arm(n, ga, x) + [Do(Jump(n + 2))] + Arm(n + 1, gb, x) + [Lab(n + 2)]|
            == |c1| + |ga.code| + |gb.code| + 6
  {
    var a1, jmp, a2, end := Arm(n, ga, x), [Do(Jump(n + 2))], Arm(n + 1, gb, x), [Lab(n + 2)];
    EmbeddedConcat(p, i, c1 + a1 + jmp + a2, end);
    EmbeddedConcat(p, i, c1 + a1 + jmp, a2);
    EmbeddedConcat(p, i, c1 + a1, jmp);
    EmbeddedConcat(p, i, c1, a1);
    ArmEmbedded(p, i + |c1|, n, ga, x);
    ArmEmbedded(p, i + |c1| + |a1| + 1, n + 1, gb, x);
    EmbeddedAt(p, i + |c1| + |a1|, jmp, 0);
    EmbeddedAt(p, i + |c1| + |a1| + 1 + |a2|, end, 0);
  }

  lemma {:induction false} CondCorrect(p: Program, o: Oracle, ec: Expr, ea: Expr, eb: Expr, n: nat, c: Config)
    returns (d: Config)
    requires Embedded(p, c.pc, Gen(Cond(ec, ea, eb), n).code) && TmpsBelow(Cond(ec, ea, eb), n)
    ensures var e := Cond(ec, ea, eb);
            Reaches(p, o, c, d) && d.pc == c.pc + |Gen(e, n).code| &&
            Agree(c.temps, d.temps, n) && Above(c.temps, d.temps, Gen(e, n).n) &&
            Eval(o, Gen(e, n).res, d.h, d.temps) == Eval(o, e, c.h, c.temps)
    decreases Cond(ec, ea, eb), 3
  {
    var (c1, x) := GenBool(ec, n, n + 1, n + 3);
    var ga := Gen(ea, x + 1);
    var gb := Gen(eb, ga.n);
    CondEmbedded(p, c.pc, c1, n, ga, gb, x);
    TmpsBelowMore(ec, n, n + 3);
    var b := BoolCorrect(p, o, ec, n, n + 1, n + 3, c);
    d := CondRun(p, o, Cond(ec, ea, eb), ea, eb, n, c, b, c1, x, Eval(o, ec, c.h, c.temps).1 != 0);
  }

  /** Run the arm that the condition chose. */
  lemma {:induction false} CondRun(p: Program, o: Oracle, e: Expr, ea: Expr, eb: Expr, n: nat, a: Config, b: Config,
                                   c1: Program, x: nat, v: bool)
    returns (d: Config)
    requires e.Cond? && e.a == ea && e.b == eb && TmpsBelow(ea, n) && TmpsBelow(eb, n) && n <= x
    requires CondAt(p, a.pc, c1, n, Gen(ea, x + 1), Gen(eb, Gen(ea, x + 1).n), x)
    requires Reaches(p, o, a, b) && b.pc == Find(p, if v then n else n + 1)
    requires Agree(a.temps, b.temps, n) && Above(a.temps, b.temps, x)
    ensures Reaches(p, o, a, d) && Agree(a.temps, d.temps, n)
    ensures Above(a.temps, d.temps, Gen(eb, Gen(ea, x + 1).n).n)
    ensures d.pc == a.pc + |c1| + |Gen(ea, x + 1).code| + |Gen(eb, Gen(ea, x + 1).n).code| + 6
    ensures (d.h, Value(d.temps, x)) == Eval(o, if v then ea else eb, b.h, a.temps)
    decreases e, 2
  {
    if v {
      d := ThenArm(p, o, ea, c1, n, Gen(eb, Gen(ea, x + 1).n), x, a, b);
    } else {
      d := ElseArm(p, o, eb, c1, n, Gen(ea, x + 1), x, a, b);
    }
  }

  lemma {:induction false} ThenArm(p: Program, o: Oracle, ea: Expr, c1: Program, n: nat, gb: Lowered, x: nat,
                                   a: Config, b: Config) returns (d: Config)
    requires CondAt(p, a.pc, c1, n, Gen(ea, x + 1), gb, x) && Reaches(p, o, a, b) && b.pc == Find(p, n)
    requires Agree(a.temps, b.temps, n) && Above(a.temps, b.temps, x) && TmpsBelow(ea, n) && n <= x
    ensures Reaches(p, o, a, d) && Agree(a.temps, d.temps, n) && Above(a.temps, d.temps, Gen(ea, x + 1).n)
    ensures d.pc == a.pc + |c1| + |Gen(ea, x + 1).code| + |gb.code| + 6
    ensures (d.h, Value(d.temps, x)) == Eval(o, ea, b.h, a.temps)
    decreases ea, 7
  {
    var y := ArmCorrect(p, o, ea, n, x + 1, x, n, a.temps, b);
    ReachesTrans(p, o, a, b, y);
    d := CondJoin(p, o, c1, n, Gen(ea, x + 1), gb, x, a, y);
  }

  lemma {:induction false} ElseArm(p: Program, o: Oracle, eb: Expr, c1: Program, n: nat, ga: Lowered, x: nat,
                                   a: Config, b: Config) returns (d: Config)
    requires CondAt(p, a.pc, c1, n, ga, Gen(eb, ga.n), x) && Reaches(p, o, a, b) && b.pc == Find(p, n + 1)
    requires Agree(a.temps, b.temps, n) && Above(a.temps, b.temps, x) && TmpsBelow(eb, n) && n <= x < ga.n
    ensures Reaches(p, o, a, d) && Agree(a.temps, d.temps, n) && Above(a.temps, d.temps, Gen(eb, ga.n).n)
    ensures d.pc == a.pc + |c1| + |ga.code| + |Gen(eb, ga.n).code| + 6
    ensures (d.h, Value(d.temps, x)) == Eval(o, eb, b.h, a.temps)
    decreases eb, 7
  {
    var y := ArmCorrect(p, o, eb, n + 1, ga.n, x, n, a.temps, b);
    ReachesTrans(p, o, a, b, y);
    d := CondJoin(p, o, c1, n, ga, Gen(eb, ga.n), x, a, y);
  }

  /** From the end of either arm to the end of the ternary. */
  lemma CondJoin(p: Program, o: Oracle, c1: Program, n: nat, ga: Lowered, gb: Lowered, x: nat, a: Config, b: Config)
    returns (d: Config)
    requires CondAt(p, a.pc, c1, n, ga, gb, x) && Reaches(p, o, a, b)
    requires b.pc == a.pc + |c1| + |ga.code| + 2 || b.pc == a.pc + |c1| + |ga.code| + |gb.code| + 5
    ensures Reaches(p, o, a, d) && d.pc == a.pc + |c1| + |ga.code| + |gb.code| + 6
    ensures d.h == b.h && d.temps == b.temps
  {
    d := b;
    if b.pc == a.pc + |c1| + |ga.code| + 2 {
      d := RunJump(p, o, a, d, n + 2);
    }
    d := RunNop(p, o, a, d);
  }

  /** One arm leaves its value in `x` and no older temporary changed. */
  lemma {:induction false} ArmCorrect(p: Program, o: Oracle, e: Expr, lab: nat, n: nat, x: nat, lo: nat, m: Temps, c: Config)
    returns (d: Config)
    requires ArmAt(p, c.pc, lab, Gen(e, n), x) && TmpsBelow(e, lo) && lo <= x < n
    requires Agree(m, c.temps, lo) && Above(m, c.temps, n)
    ensures Reaches(p, o, c, d) && d.pc == c.pc + |Gen(e, n).code| + 2
    ensures Agree(m, d.temps, lo) && Above(m, d.temps, Gen(e, n).n)
    ensures (d.h, Value(d.temps, x)) == Eval(o, e, c.h, m)
    decreases e, 6
  {
    ReachesSelf(p, o, c);
    var b := RunNop(p, o, c, c);
    TmpsBelowMore(e, lo, n);
    EvalAgree(o, e, c.h, m, c.temps, lo);
    d := ExprCorrect(p, o, e, n, b);
    ReachesTrans(p, o, c, b, d);
    AgreeTrans(m, b.temps, d.temps, lo, n);
    AboveTrans(m, b.temps, d.temps, n, Gen(e, n).n);
    d := RunAssign(p, o, c, d, x, Gen(e, n).res, lo, Gen(e, n).n, m);
  }
}
