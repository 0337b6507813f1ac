/** The labels of emitted code are fresh and distinct, so the code stands on its own. */
module LowerFresh {
  import opened LowerSpec
  import opened LowerGen
  import opened LowerProof

  ghost function Marks(code: Program): set<nat> {
    if code == [] then {}
    else (if code[0].mark.At? then {code[0].mark.name} else {}) + Marks(code[1..])
  }

  /** No label marks two statements. */
  ghost predicate Distinct(code: Program) {
    code == [] || (Distinct(code[1..]) && (code[0].mark.At? ==> code[0].mark.name !in Marks(code[1..])))
  }

  /** Distinct labels, all between `lo` and `hi`. */
  ghost predicate Fresh(code: Program, lo: nat, hi: nat) {
    Distinct(code) && forall l :: l in Marks(code) ==> lo <= l < hi
  }

  lemma {:induction false} MarksConcat(a: Program, b: Program)
    ensures Marks(a + b) == Marks(a) + Marks(b)
    ensures Distinct(a + b) <==> Distinct(a) && Distinct(b) && Marks(a) !! Marks(b)
  {
    if a == [] {
      assert a + b == b;
    } else {
      assert (a + b)[1..] == a[1..] + b;
      MarksConcat(a[1..], b);
    }
  }

  lemma MarksOne(s: Line)
    ensures Marks([s]) == (if s.mark.At? then {s.mark.name} else {}) && Distinct([s])
  {
    assert [s][1..] == [];
  }

  lemma UnmarkedTail(code: Program, s: Line, lo: nat, hi: nat)
    requires Fresh(code, lo, hi) && s.mark.NoLabel?
    ensures Fresh(code + [s], lo, hi)
  {
    MarksConcat(code, [s]);
    MarksOne(s);
  }

  lemma FreshConcat(a: Program, b: Program, lo: nat, mid: nat, hi: nat)
    requires Fresh(a, lo, mid) && Fresh(b, mid, hi) && lo <= mid <= hi
    ensures Fresh(a + b, lo, hi)
  {
    MarksConcat(a, b);
  }

  /** A label `l` below everything in `b` and disjoint from `a`, put between the two. */
  lemma FreshMiddle(a: Program, s: Line, b: Program, lo: nat, mid: nat, hi: nat)
    requires s.mark == At(lo) && Fresh(a, lo + 1, mid) && Fresh(b, mid, hi) && lo < mid <= hi
    ensures Fresh(a + [s] + b, lo, hi)
  {
    MarksOne(s);
    MarksConcat(a, [s]);
    MarksConcat(a + [s], b);
  }

  lemma {:induction false} BoolFresh(e: Expr, t: nat, f: nat, n: nat)
    ensures Fresh(GenBool(e, t, f, n).0, n, GenBool(e, t, f, n).1)
    decreases e, if IsLogic(e) then 0 else 1
  {
    match e {
      case Not(x) => BoolFresh(x, f, t, n);
      case And(l, r) =>
        var (c1, n1) := GenBool(l, n, f, n + 1);
        BoolFresh(l, n, f, n + 1);
        BoolFresh(r, t, f, n1);
        FreshMiddle(c1, Lab(n), GenBool(r, t, f, n1).0, n, n1, GenBool(r, t, f, n1).1);
      case Or(l, r) =>
        var (c1, n1) := GenBool(l, t, n, n + 1);
        BoolFresh(l, t, n, n + 1);
        BoolFresh(r, t, f, n1);
        FreshMiddle(c1, Lab(n), GenBool(r, t, f, n1).0, n, n1, GenBool(r, t, f, n1).1);
      case _ =>
        var g := Gen(e, n);
        GenFresh(e, n);
        var b, j := Do(Branch(g.res, t)), Do(Jump(f));
        UnmarkedTail(g.code, b, n, g.n);
        UnmarkedTail(g.code + [b], j, n, g.n);
        assert g.code + [b] + [j] == g.code + [b, j];
    }
  }

  lemma {:induction false} CommaFresh(e: Expr, n: nat)
    ensures Fresh(GenComma(e, n).0, n, GenComma(e, n).1)
    decreases e, 2
  {
    if e.Comma? {
      var (c1, n1) := GenComma(e.l, n);
      var g := Gen(e.r, n1);
      CommaFresh(e.l, n);
      GenFresh(e.r, n1);
      UnmarkedTail(g.code, Do(Eff(g.res)), n1, g.n);
      FreshConcat(c1, g.code + [Do(Eff(g.res))], n, n1, g.n);
    } else {
      var g := Gen(e, n);
      GenFresh(e, n);
      UnmarkedTail(g.code, Do(Eff(g.res)), n, g.n);
    }
  }

  lemma {:induction false} GenFresh(e: Expr, n: nat)
    ensures Fresh(Gen(e, n).code, n, Gen(e, n).n)
    decreases e, if IsLogic(e) then 1 else 0
  {
    match e {
      case Op(_, x) => GenFresh(x, n);
      case Comma(l, r) =>
        var (c1, n1) := GenComma(l, n);
        CommaFresh(l, n);
        GenFresh(r, n1);
        FreshConcat(c1, Gen(r, n1).code, n, n1, Gen(r, n1).n);
      case Cond(c, a, b) =>
        var (c1, x) := GenBool(c, n, n + 1, n + 3);
        var ga := Gen(a, x + 1);
        BoolFresh(c, n, n + 1, n + 3);
        GenFresh(a, x + 1);
        GenFresh(b, ga.n);
        CondFresh(c1, n, x, ga, Gen(b, ga.n));
      case Leaf(_) =>
      case _ =>
        var (c1, x) := GenBool(e, n, n + 1, n + 3);
        BoolFresh(e, n, n + 1, n + 3);
        TailFresh(c1, n, x);
    }
  }

  lemma TailFresh(c1: Program, n: nat, x: nat)
    requires Fresh(c1, n + 3, x) && n + 3 <= x
    ensures Fresh(c1 + LogicTail(n, x), n, x + 1)
  {
    var t := LogicTail(n, x);
    assert t == [t[0]] + [t[1]] + [t[2]] + [t[3]];
    MarksOne(t[0]);
    MarksOne(t[1]);
    MarksOne(t[2]);
    MarksOne(t[3]);
    MarksConcat([t[0]], [t[1]]);
    MarksConcat([t[0]] + [t[1]], [t[2]]);
    MarksConcat([t[0]] + [t[1]] + [t[2]], [t[3]]);
    MarksConcat(c1, t);
  }

  lemma ArmFresh(lab: nat, g: Lowered, x: nat, lo: nat)
    requires Fresh(g.code, lo, g.n) && lab < lo
    ensures Distinct(Arm(lab, g, x)) && Marks(Arm(lab, g, x)) == {lab} + Marks(g.code)
  {
    MarksOne(Lab(lab));
    MarksOne(Do(Assign(x, g.res)));
    MarksConcat([Lab(lab)], g.code);
    MarksConcat([Lab(lab)] + g.code, [Do(Assign(x, g.res))]);
  }

  lemma CondFresh(c1: Program, n: nat, x: nat, ga: Lowered, gb: Lowered)
    requires Fresh(c1, n + 3, x) && Fresh(ga.code, x + 1, ga.n) && Fresh(gb.code, ga.n, gb.n)
    requires n + 3 <= x < ga.n <= gb.n
    ensures Fresh(c1 + Arm(n, ga, x) + [Do(Jump(n + 2))] + Arm(n + 1, gb, x) + [Lab(n + 2)], n, gb.n)
  {
    var left, a2, l := c1 + Arm(n, ga, x) + [Do(Jump(n + 2))], Arm(n + 1, gb, x), [Lab(n + 2)];
    CondLeftFresh(c1, n, x, ga);
    ArmFresh(n + 1, gb, x, ga.n);
    MarksOne(l[0]);
    MarksConcat(left, a2);
    MarksConcat(left + a2, l);
  }

  lemma CondLeftFresh(c1: Program, n: nat, x: nat, ga: Lowered)
    requires Fresh(c1, n + 3, x) && Fresh(ga.code, x + 1, ga.n) && n + 3 <= x < ga.n
    ensures var left := c1 + Arm(n, ga, x) + [Do(Jump(n + 2))];
            Distinct(left) && forall l :: l in Marks(left) ==> l == n || n + 3 <= l < ga.n
  {
    var a1, j := Arm(n, ga, x), [Do(Jump(n + 2))];
    ArmFresh(n, ga, x, x + 1);
    MarksOne(j[0]);
    MarksConcat(c1, a1);
    MarksConcat(c1 + a1, j);
  }

  // ----- closed programs -----

  lemma {:induction false} FindDistinct(p: Program, i: nat)
    requires Distinct(p) && i < |p| && p[i].mark.At?
    ensures Find(p, p[i].mark.name) == i && p[i].mark.name in Marks(p)
  {
    if i > 0 {
      FindDistinct(p[1..], i - 1);
    }
  }

  lemma {:induction false} SelfEmbedded(p: Program, i: nat)
    requires Distinct(p) && i <= |p|
    ensures Embedded(p, i, p[i..])
    decreases |p| - i
  {
    if i < |p| {
      SelfEmbedded(p, i + 1);
      assert p[i..][1..] == p[i + 1..];
      if p[i].mark.At? {
        FindDistinct(p, i);
      }
    }
  }

  /** The statements hoisted for any expression, run from the first to past the last, followed
      by the residual node: same events, same value as C's evaluation. */
  lemma LoweringCorrect(o: Oracle, e: Expr, n: nat, h: History, m: Temps) returns (d: Config)
    requires TmpsBelow(e, n)
    ensures var g := Gen(e, n);
            Reaches(g.code, o, Config(0, h, m), d) && d.pc == |g.code| && Residual(g.res) &&
            Eval(o, g.res, d.h, d.temps) == Eval(o, e, h, m) && Agree(m, d.temps, n)
  {
    var p := Gen(e, n).code;
    GenFresh(e, n);
    SelfEmbedded(p, 0);
    assert p[0..] == p;
    d := ExprCorrect(p, o, e, n, Config(0, h, m));
  }

  /** The code for any condition, with its two landing labels behind it, stops at `t` when the
      condition holds and at `f` when it does not, after exactly the events of evaluating it. */
  lemma ConditionCorrect(o: Oracle, e: Expr, t: nat, f: nat, n: nat, h: History, m: Temps) returns (d: Config)
    requires TmpsBelow(e, n) && t < n && f < n && t != f
    ensures var c := GenBool(e, t, f, n).0;
            var (h1, v) := Eval(o, e, h, m);
            Reaches(c + [Lab(t), Lab(f)], o, Config(0, h, m), d) && d.h == h1 && Agree(m, d.temps, n) &&
            d.pc == |c| + (if v != 0 then 0 else 1)
  {
    var c, l := GenBool(e, t, f, n).0, [Lab(t), Lab(f)];
    var p := c + l;
    BoolFresh(e, t, f, n);
    MarksOne(Lab(t));
    MarksOne(Lab(f));
    assert l == [Lab(t)] + [Lab(f)];
    MarksConcat([Lab(t)], [Lab(f)]);
    MarksConcat(c, l);
    SelfEmbedded(p, 0);
    assert p[0..] == p;
    EmbeddedConcat(p, 0, c, l);
    EmbeddedAt(p, |c|, l, 0);
    EmbeddedAt(p, |c|, l, 1);
    d := BoolCorrect(p, o, e, t, f, n, Config(0, h, m));
  }
}
