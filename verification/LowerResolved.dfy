/** Emitted code jumps to labels that it marks itself or was given. */
module LowerResolved {
  import opened LowerSpec
  import opened LowerGen
  import opened LowerProof
  import opened LowerFresh

  function Target(s: Stmt): set<nat> {
    if s.Jump? || s.Branch? then {s.to} else {}
  }

  /** The labels jumped to. */
  ghost function Refs(code: Program): set<nat> {
    if code == [] then {} else Target(code[0].stmt) + Refs(code[1..])
  }

  /** Every label jumped to marks a statement; other programs are refused by the assembler. */
  ghost predicate Resolved(p: Program) {
    Refs(p) <= Marks(p)
  }

  lemma {:induction false} RefsConcat(a: Program, b: Program)
    ensures Refs(a + b) == Refs(a) + Refs(b)
  {
    if a == [] {
      assert a + b == b;
    } else {
      assert (a + b)[1..] == a[1..] + b;
      RefsConcat(a[1..], b);
    }
  }

  lemma RefsOne(s: Line)
    ensures Refs([s]) == Target(s.stmt)
  {
    assert [s][1..] == [];
  }

  /** Labels are found exactly when they are marked. */
  lemma {:induction false} FindMarked(p: Program, l: nat)
    ensures Find(p, l) <= |p| && (Find(p, l) < |p| <==> l in Marks(p))
  {
    if p != [] && p[0].mark != At(l) {
      FindMarked(p[1..], l);
    }
  }

  /** `code` jumps to its own labels and to those of `out` only. */
  ghost predicate Within(code: Program, out: set<nat>) {
    Refs(code) <= Marks(code) + out
  }

  lemma WithinConcat(a: Program, b: Program, out: set<nat>)
    requires Within(a, Marks(b) + out) && Within(b, Marks(a) + out)
    ensures Within(a + b, out)
  {
    RefsConcat(a, b);
    MarksConcat(a, b);
  }

  lemma WithinBoth(a: Program, b: Program)
    requires Within(a, {}) && Within(b, {})
    ensures Within(a + b, {})
  {
    WithinConcat(a, b, {});
  }

  lemma WithinOne(code: Program, s: Line, out: set<nat>)
    requires Within(code, out) && Target(s.stmt) <= Marks(code) + out
    ensures Within(code + [s], out)
  {
    RefsOne(s);
    RefsConcat(code, [s]);
    MarksConcat(code, [s]);
  }

  lemma WithinMiddle(a: Program, l: nat, b: Program, out: set<nat>)
    requires Within(a, {l} + out) && Within(b, out)
    ensures Within(a + [Lab(l)] + b, out)
  {
    RefsOne(Lab(l));
    MarksOne(Lab(l));
    RefsConcat(a, [Lab(l)]);
    MarksConcat(a, [Lab(l)]);
    RefsConcat(a + [Lab(l)], b);
    MarksConcat(a + [Lab(l)], b);
  }

  lemma {:induction false} BoolRefs(e: Expr, t: nat, f: nat, n: nat)
    ensures Within(GenBool(e, t, f, n).0, {t, f}) && {t, f} <= Refs(GenBool(e, t, f, n).0)
    decreases e, if IsLogic(e) then 0 else 1
  {
    match e {
      case Not(x) =>
        BoolRefs(x, f, t, n);
        assert {f, t} == {t, f};
      case And(l, r) =>
        var (c1, n1) := GenBool(l, n, f, n + 1);
        BoolRefs(l, n, f, n + 1);
        BoolRefs(r, t, f, n1);
        JoinRefs(c1, n, GenBool(r, t, f, n1).0, t, f);
      case Or(l, r) =>
        var (c1, n1) := GenBool(l, t, n, n + 1);
        BoolRefs(l, t, n, n + 1);
        BoolRefs(r, t, f, n1);
        JoinRefs(c1, n, GenBool(r, t, f, n1).0, t, f);
      case _ =>
        var g := Gen(e, n);
        GenRefs(e, n);
        ForkRefs(g.code, Do(Branch(g.res, t)), Do(Jump(f)), t, f);
    }
  }

  lemma ForkRefs(code: Program, b: Line, j: Line, t: nat, f: nat)
    requires Within(code, {}) && Target(b.stmt) == {t} && Target(j.stmt) == {f}
    ensures Within(code + [b, j], {t, f}) && {t, f} <= Refs(code + [b, j])
  {
    WithinOne(code, b, {t, f});
    WithinOne(code + [b], j, {t, f});
    RefsOne(b);
    RefsOne(j);
    RefsConcat(code, [b]);
    RefsConcat(code + [b], [j]);
    assert code + [b] + [j] == code + [b, j];
  }

  lemma JoinRefs(a: Program, l: nat, b: Program, t: nat, f: nat)
    requires Refs(a) <= Marks(a) + {l, t, f} && Within(b, {t, f}) && {t, f} <= Refs(b)
    ensures Within(a + [Lab(l)] + b, {t, f}) && {t, f} <= Refs(a + [Lab(l)] + b)
  {
    WithinMiddle(a, l, b, {t, f});
    RefsConcat(a + [Lab(l)], b);
  }

  lemma {:induction false} CommaRefs(e: Expr, n: nat)
    ensures Within(GenComma(e, n).0, {})
    decreases e, 2
  {
    if e.Comma? {
      var (c1, n1) := GenComma(e.l, n);
      var g := Gen(e.r, n1);
      CommaRefs(e.l, n);
      GenRefs(e.r, n1);
      WithinOne(g.code, Do(Eff(g.res)), {});
      WithinBoth(c1, g.code + [Do(Eff(g.res))]);
    } else {
      var g := Gen(e, n);
      GenRefs(e, n);
      WithinOne(g.code, Do(Eff(g.res)), {});
    }
  }

  /** What is hoisted jumps to labels it marks itself. */
  lemma {:induction false} GenRefs(e: Expr, n: nat)
    ensures Within(Gen(e, n).code, {})
    decreases e, if IsLogic(e) then 1 else 0, 1
  {
    match e {
      case Op(_, x) => GenRefs(x, n);
      case Comma(l, r) =>
        var (c1, n1) := GenComma(l, n);
        CommaRefs(l, n);
        GenRefs(r, n1);
        WithinBoth(c1, Gen(r, n1).code);
      case Cond(c, a, b) =>
        BoolRefs(c, n, n + 1, n + 3);
        GenRefs(a, GenBool(c, n, n + 1, n + 3).1 + 1);
        GenRefs(b, Gen(a, GenBool(c, n, n + 1, n + 3).1 + 1).n);
        TernaryRefs(e, n);
      case Leaf(_) =>
        assert Refs([]) == {};
      case _ => LogicRefs(e, n);
    }
  }

  lemma TernaryRefs(e: Expr, n: nat)
    requires e.Cond?
    requires var g := GenBool(e.c, n, n + 1, n + 3);
      var ga := Gen(e.a, g.1 + 1);
      Within(g.0, {n, n + 1}) && Within(ga.code, {}) && Within(Gen(e.b, ga.n).code, {})
    ensures Within(Gen(e, n).code, {})
  {
    var g := GenBool(e.c, n, n + 1, n + 3);
    var ga := Gen(e.a, g.1 + 1);
    CondRefs(g.0, n, g.1, ga, Gen(e.b, ga.n));
  }

  lemma {:induction false} LogicRefs(e: Expr, n: nat)
    requires IsLogic(e)
    ensures Within(Gen(e, n).code, {})
    decreases e, 1, 0
  {
    var g := GenBool(e, n, n + 1, n + 3);
    BoolRefs(e, n, n + 1, n + 3);
    TailRefs(g.0, n, g.1);
  }

  lemma TailRefs(c1: Program, n: nat, x: nat)
    requires Within(c1, {n, n + 1})
    ensures Within(c1 + LogicTail(n, x), {})
  {
    var t := LogicTail(n, x);
    assert t == [t[0]] + [t[1]] + [t[2]] + [t[3]];
    RefsOne(t[0]);
    RefsOne(t[1]);
    RefsOne(t[2]);
    RefsOne(t[3]);
    RefsConcat([t[0]], [t[1]]);
    RefsConcat([t[0]] + [t[1]], [t[2]]);
    RefsConcat([t[0]] + [t[1]] + [t[2]], [t[3]]);
    TailMarks(n, x);
    WithinConcat(c1, t, {});
  }

  lemma TailMarks(n: nat, x: nat)
    ensures Marks(LogicTail(n, x)) == {n, n + 1, n + 2}
  {
    var t := LogicTail(n, x);
    assert t == [t[0]] + [t[1]] + [t[2]] + [t[3]];
    MarksOne(t[0]);
    MarksOne(t[1]);
    MarksOne(t[2]);
    MarksOne(t[3]);
    MarksConcat([t[0]], [t[1]]);
    MarksConcat([t[0]] + [t[1]], [t[2]]);
    MarksConcat([t[0]] + [t[1]] + [t[2]], [t[3]]);
  }

  lemma ArmRefs(lab: nat, g: Lowered, x: nat)
    requires Within(g.code, {})
    ensures Within(Arm(lab, g, x), {}) && lab in Marks(Arm(lab, g, x))
  {
    var s := Do(Assign(x, g.res));
    RefsOne(Lab(lab));
    MarksOne(Lab(lab));
    RefsConcat([Lab(lab)], g.code);
    MarksConcat([Lab(lab)], g.code);
    WithinOne([Lab(lab)] + g.code, s, {});
    MarksConcat([Lab(lab)] + g.code, [s]);
  }

  lemma CondRefs(c1: Program, n: nat, x: nat, ga: Lowered, gb: Lowered)
    requires Within(c1, {n, n + 1}) && Within(ga.code, {}) && Within(gb.code, {})
    ensures Within(c1 + Arm(n, ga, x) + [Do(Jump(n + 2))] + Arm(n + 1, gb, x) + [Lab(n + 2)], {})
  {
    var a1, a2, j, l := Arm(n, ga, x), Arm(n + 1, gb, x), Do(Jump(n + 2)), Lab(n + 2);
    ArmRefs(n, ga, x);
    ArmRefs(n + 1, gb, x);
    WithinConcat(c1, a1, {n + 1, n + 2});
    WithinOne(c1 + a1, j, {n + 1, n + 2});
    WithinConcat(c1 + a1 + [j], a2, {n + 2});
    RefsOne(l);
    MarksOne(l);
    WithinConcat(c1 + a1 + [j] + a2, [l], {});
  }
}
