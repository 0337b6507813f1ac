/** A branch on a logical condition and the expression statement behind it.

    sethi labels the following statement to have a place to land on, and lowers that statement
    afterwards, putting what it hoists in front of the labelled statement.  */
module LowerBranch {

  import opened Options
  import opened LowerSpec
  import opened LowerGen
  import opened LowerProof
  import opened LowerFresh
  import opened LowerResolved

  /** A statement keeps its label through sethi: `replace` copies another node over one that is a
      control operator, and the label goes with what was there. */
  predicate Kept(e: Expr) {
    e.Leaf? || e.Op?
  }

  function Landing(e: Expr, land: nat): Label {
    if Kept(e) then At(land) else NoLabel
  }

  /** The code of the branch on `c` to `target`, then of the expression statement `e` that got
      the label `land`, then the place branched to. */
  function BranchCode(c: Expr, target: nat, land: nat, e: Expr, n: nat): Program {
    var (c1, n1) := GenBool(c, target, land, n);
    var g := Gen(e, n1);
    c1 + (g.code + [Line(Landing(e, land), Eff(g.res)), Lab(target)])
  }

  lemma BranchDistinct(c: Expr, target: nat, land: nat, e: Expr, n: nat)
    requires target < n && land < n && target != land
    ensures var p := BranchCode(c, target, land, e, n); Distinct(p) && (land in Marks(p) <==> Kept(e))
  {
    var (c1, n1) := GenBool(c, target, land, n);
    var g := Gen(e, n1);
    var s, t := Line(Landing(e, land), Eff(g.res)), Lab(target);
    BoolFresh(c, target, land, n);
    GenFresh(e, n1);
    MarksOne(s);
    MarksOne(t);
    assert [s, t] == [s] + [t];
    MarksConcat([s], [t]);
    MarksConcat(g.code, [s, t]);
    MarksConcat(c1, g.code + [s, t]);
  }

  /** Where the two labels are: the landing label behind everything the second statement hoisted,
      or nowhere. */
  lemma BranchLabels(c: Expr, target: nat, land: nat, e: Expr, n: nat)
    requires target < n && land < n && target != land
    ensures var p := BranchCode(c, target, land, e, n);
      && Embedded(p, 0, GenBool(c, target, land, n).0)
      && |p| >= 2 && Find(p, target) == |p| - 1 && Find(p, land) == (if Kept(e) then |p| - 2 else |p|)
      && p[|p| - 2].stmt == Eff(Gen(e, GenBool(c, target, land, n).1).res)
  {
    var (c1, n1) := GenBool(c, target, land, n);
    var g := Gen(e, n1);
    var last := [Line(Landing(e, land), Eff(g.res)), Lab(target)];
    var p := BranchCode(c, target, land, e, n);
    BranchDistinct(c, target, land, e, n);
    SelfEmbedded(p, 0);
    assert p[0..] == p;
    EmbeddedConcat(p, 0, c1, g.code + last);
    assert p[|p| - 2] == last[0] && p[|p| - 1] == last[1];
    FindDistinct(p, |p| - 1);
    if Kept(e) {
      FindDistinct(p, |p| - 2);
    } else {
      FindMarked(p, land);
    }
  }

  /** The code can be assembled exactly when the second statement keeps its label. */
  lemma BranchResolved(c: Expr, target: nat, land: nat, e: Expr, n: nat)
    requires target < n && land < n && target != land
    ensures Resolved(BranchCode(c, target, land, e, n)) <==> e.Leaf? || e.Op?
  {
    var (c1, n1) := GenBool(c, target, land, n);
    var g := Gen(e, n1);
    var s, t := Line(Landing(e, land), Eff(g.res)), Lab(target);
    BranchDistinct(c, target, land, e, n);
    BoolRefs(c, target, land, n);
    GenRefs(e, n1);
    assert [s, t] == [s] + [t];
    RefsOne(s);
    RefsOne(t);
    MarksOne(t);
    RefsConcat([s], [t]);
    MarksConcat([s], [t]);
    RefsConcat(g.code, [s, t]);
    MarksConcat(g.code, [s, t]);
    RefsConcat(c1, g.code + [s, t]);
    MarksConcat(c1, g.code + [s, t]);
  }

  /** The events of the two statements in C: the second one runs when the branch is not taken. */
  function SourceHistory(o: Oracle, c: Expr, e: Expr, h: History, m: Temps): History {
    var (h1, v) := Eval(o, c, h, m);
    if v != 0 then h1 else Eval(o, e, h1, m).0
  }

  /** When the branch is not taken, control lands on the labelled statement, past what was hoisted for
      it: only the residual node of the second statement is evaluated, with temporaries that
      nothing of that statement has set.  A statement that lost its label is not found at all. */
  lemma BranchLands(o: Oracle, c: Expr, target: nat, land: nat, e: Expr, n: nat, h: History, m: Temps)
    returns (d: Config, t: Temps)
    requires TmpsBelow(c, n) && target < n && land < n && target != land
    ensures var p, n1 := BranchCode(c, target, land, e, n), GenBool(c, target, land, n).1;
      var (h1, v) := Eval(o, c, h, m);
      && Reaches(p, o, Config(0, h, m), d) && Agree(m, t, n) && Above(m, t, n1)
      && d.pc == (if v != 0 || Kept(e) then |p| - 1 else |p|)
      && d.h == if v != 0 || !Kept(e) then h1 else Eval(o, Gen(e, n1).res, h1, t).0
  {
    var p, n1 := BranchCode(c, target, land, e, n), GenBool(c, target, land, n).1;
    var a := Config(0, h, m);
    BranchLabels(c, target, land, e, n);
    d := BoolCorrect(p, o, c, target, land, n, a);
    t := d.temps;
    if Eval(o, c, h, m).1 == 0 && Kept(e) {
      d := RunEff(p, o, a, d, Gen(e, n1).res);
    }
  }

  // ----- expressions that do nothing -----

  /** Expressions as the parser delivers them. */
  predicate Source(e: Expr) {
    match e
    case Leaf(x) => x.Atom? || x.Const?
    case Op(_, x) => Source(x)
    case Not(x) => Source(x)
    case And(l, r) => Source(l) && Source(r)
    case Or(l, r) => Source(l) && Source(r)
    case Cond(c, a, b) => Source(c) && Source(a) && Source(b)
    case Comma(l, r) => Source(l) && Source(r)
  }

  /** The value of an expression that reaches no atom and no operation; none for one that does. */
  function QuietValue(e: Expr): Option<int> {
    match e
    case Leaf(x) => if x.Const? then Some(x.value) else None
    case Op(_, _) => None
    case Not(x) => if QuietValue(x).None? then None else Some(Truth(QuietValue(x).value == 0))
    case And(l, r) =>
      if QuietValue(l).None? then None
      else if QuietValue(l).value == 0 then Some(0)
      else if QuietValue(r).None? then None
      else Some(Truth(QuietValue(r).value != 0))
    case Or(l, r) =>
      if QuietValue(l).None? then None
      else if QuietValue(l).value != 0 then Some(1)
      else if QuietValue(r).None? then None
      else Some(Truth(QuietValue(r).value != 0))
    case Cond(c, a, b) =>
      if QuietValue(c).None? then None
      else if QuietValue(c).value != 0 then QuietValue(a) else QuietValue(b)
    case Comma(l, r) => if QuietValue(l).None? then None else QuietValue(r)
  }

  predicate Quiet(e: Expr) { QuietValue(e).Some? }

  /** Exactly the quiet expressions do nothing, on every run. */
  lemma {:induction false} QuietExactly(o: Oracle, e: Expr, h: History, m: Temps)
    requires Source(e)
    ensures Quiet(e) ==> Eval(o, e, h, m) == (h, QuietValue(e).value)
    ensures !Quiet(e) ==> |Eval(o, e, h, m).0| > |h|
    ensures |Eval(o, e, h, m).0| >= |h|
  {
    match e
    case Leaf(_) =>
    case Op(_, x) => QuietExactly(o, x, h, m);
    case Not(x) => QuietExactly(o, x, h, m);
    case And(l, r) =>
      QuietExactly(o, l, h, m);
      QuietExactly(o, r, Eval(o, l, h, m).0, m);
    case Or(l, r) =>
      QuietExactly(o, l, h, m);
      QuietExactly(o, r, Eval(o, l, h, m).0, m);
    case Cond(c, a, b) =>
      QuietExactly(o, c, h, m);
      QuietExactly(o, a, Eval(o, c, h, m).0, m);
      QuietExactly(o, b, Eval(o, c, h, m).0, m);
    case Comma(l, r) =>
      QuietExactly(o, l, h, m);
      QuietExactly(o, r, Eval(o, l, h, m).0, m);
  }

  // ----- when skipping the hoisted part is right -----

  /** What is hoisted does nothing. */
  predicate Hushed(e: Expr) {
    match e
    case Leaf(_) => true
    case Op(_, x) => Hushed(x)
    case Comma(l, r) => Quiet(l) && Hushed(r)
    case _ => Quiet(e)
  }

  /** And the residual node does not read a temporary that was to be set. */
  predicate ValueRight(e: Expr) {
    match e
    case Leaf(_) => true
    case Op(_, x) => ValueRight(x)
    case Comma(l, r) => Quiet(l) && ValueRight(r)
    case _ => false
  }

  /** The statements that may stand behind a branch on a logical condition. */
  predicate Right(e: Expr) {
    Kept(e) && ValueRight(e)
  }

  lemma {:induction false} RightRuns(o: Oracle, e: Expr, n: nat, h: History, m: Temps, t: Temps)
    requires Source(e) && ValueRight(e)
    ensures Eval(o, Gen(e, n).res, h, t) == Eval(o, e, h, m)
  {
    match e
    case Leaf(_) =>
    case Op(_, x) => RightRuns(o, x, n, h, m, t);
    case Comma(l, r) =>
      QuietExactly(o, l, h, m);
      RightRuns(o, r, GenComma(l, n).1, h, m, t);
  }

  /** Events of a residual node. */
  function Length(e: Expr): nat {
    match e
    case Leaf(x) => if x.Atom? then 1 else 0
    case Op(_, x) => Length(x) + 1
    case _ => 0
  }

  lemma {:induction false} ResidualLength(o: Oracle, e: Expr, h: History, t: Temps)
    requires Residual(e)
    ensures |Eval(o, e, h, t).0| == |h| + Length(e)
  {
    if e.Op? {
      ResidualLength(o, e.arg, h, t);
    }
  }

  /** The source does at least what the residual node does, and more unless the rest is hushed. */
  lemma {:induction false} SourceLength(o: Oracle, e: Expr, n: nat, h: History, m: Temps)
    requires Source(e)
    ensures |Eval(o, e, h, m).0| >= |h| + Length(Gen(e, n).res)
    ensures !Hushed(e) ==> |Eval(o, e, h, m).0| > |h| + Length(Gen(e, n).res)
  {
    QuietExactly(o, e, h, m);
    match e
    case Leaf(_) =>
    case Op(_, x) => SourceLength(o, x, n, h, m);
    case Comma(l, r) =>
      QuietExactly(o, l, h, m);
      SourceLength(o, r, GenComma(l, n).1, Eval(o, l, h, m).0, m);
    case _ =>
  }

  /** The operation next to the temporary at the heart of a residual node, if any, and the value
      that was to be there. */
  function Heart(e: Expr): (Option<nat>, int) {
    match e
    case Op(id, x) => var (i, v) := Heart(x); (if i.None? then Some(id) else i, v)
    case Comma(_, r) => Heart(r)
    case _ => (None, if Quiet(e) then QuietValue(e).value else 0)
  }

  /** The temporary at the heart of a residual node. */
  function HeartTmp(e: Expr): Option<nat> {
    match e
    case Leaf(x) => if x.Tmp? then Some(x.name) else None
    case Op(_, x) => HeartTmp(x)
    case _ => None
  }

  /** Event number |h| of a history. */
  ghost predicate Begins(h1: History, h: History, ev: Event) {
    |h1| > |h| && h1[..|h|] == h && h1[|h|] == ev
  }

  /** With nothing else lost, the first event differs in the value handed over. */
  lemma {:induction false} HeartRuns(o: Oracle, e: Expr, n: nat, h: History, m: Temps, t: Temps)
    requires Source(e) && Hushed(e) && !ValueRight(e)
    ensures var y := HeartTmp(Gen(e, n).res); y.Some? && n <= y.value
    ensures var (i, v) := Heart(e);
      var y := HeartTmp(Gen(e, n).res).value;
      if i.None? then Eval(o, e, h, m) == (h, v) && Eval(o, Gen(e, n).res, h, t) == (h, Value(t, y))
      else Begins(Eval(o, e, h, m).0, h, Event(i.value, v))
           && Begins(Eval(o, Gen(e, n).res, h, t).0, h, Event(i.value, Value(t, y)))
  {
    match e
    case Op(_, x) => HeartRuns(o, x, n, h, m, t);
    case Comma(l, r) =>
      QuietExactly(o, l, h, m);
      HeartRuns(o, r, GenComma(l, n).1, h, m, t);
    case _ => QuietExactly(o, e, h, m);
  }

  // ----- exactly when -----

  /** The code can be assembled, and the run from these temporaries ends with the events of the
      source. */
  ghost predicate Means(o: Oracle, c: Expr, target: nat, land: nat, e: Expr, n: nat, h: History, m: Temps) {
    var p := BranchCode(c, target, land, e, n);
    Resolved(p) && exists d :: Reaches(p, o, Config(0, h, m), d) && d.pc == |p| - 1 && d.h == SourceHistory(o, c, e, h, m)
  }

  lemma {:induction false} StuckAtEnd(p: Program, o: Oracle, c: Config, k: nat)
    requires c.pc == |p|
    ensures Steps(p, o, c, k) == c
    decreases k
  {
    if k > 0 {
      assert Step(p, o, c) == c;
      StuckAtEnd(p, o, c, k - 1);
    }
  }

  /** The last statement is reached once. */
  lemma LastOnce(p: Program, o: Oracle, a: Config, b: Config, d: Config)
    requires |p| > 0 && p[|p| - 1].stmt == Nop && Reaches(p, o, a, b) && Reaches(p, o, a, d)
    requires b.pc == |p| - 1 && d.pc == |p| - 1
    ensures b == d
  {
    var j: nat :| Steps(p, o, a, j) == b;
    var k: nat :| Steps(p, o, a, k) == d;
    if j < k {
      PastLast(p, o, a, j, k);
    } else if k < j {
      PastLast(p, o, a, k, j);
    }
  }

  lemma PastLast(p: Program, o: Oracle, a: Config, j: nat, k: nat)
    requires |p| > 0 && p[|p| - 1].stmt == Nop && j < k && Steps(p, o, a, j).pc == |p| - 1
    ensures Steps(p, o, a, k).pc == |p|
  {
    var b := Steps(p, o, a, j);
    StepsAdd(p, o, a, j, k - j);
    var c := Step(p, o, b);
    assert c.pc == |p|;
    StuckAtEnd(p, o, c, k - j - 1);
  }

  lemma RightMeans(o: Oracle, c: Expr, target: nat, land: nat, e: Expr, n: nat, h: History, m: Temps)
    requires TmpsBelow(c, n) && target < n && land < n && target != land && Source(e) && Right(e)
    ensures Means(o, c, target, land, e, n, h, m)
  {
    var d, t := BranchLands(o, c, target, land, e, n, h, m);
    BranchResolved(c, target, land, e, n);
    RightRuns(o, e, GenBool(c, target, land, n).1, Eval(o, c, h, m).0, m, t);
  }

  /** The one history the code can end with. */
  lemma OnlyHistory(o: Oracle, c: Expr, target: nat, land: nat, e: Expr, n: nat, h: History, m: Temps) returns (t: Temps)
    requires TmpsBelow(c, n) && target < n && land < n && target != land && Eval(o, c, h, m).1 == 0 && Kept(e)
    ensures var n1, h1 := GenBool(c, target, land, n).1, Eval(o, c, h, m).0;
      Above(m, t, n1) &&
      (Means(o, c, target, land, e, n, h, m) ==> Eval(o, Gen(e, n1).res, h1, t).0 == Eval(o, e, h1, m).0)
  {
    var p := BranchCode(c, target, land, e, n);
    var d;
    d, t := BranchLands(o, c, target, land, e, n, h, m);
    assert p[|p| - 1] == Lab(target);
    if Means(o, c, target, land, e, n, h, m) {
      var d' :| Reaches(p, o, Config(0, h, m), d') && d'.pc == |p| - 1 && d'.h == SourceHistory(o, c, e, h, m);
      LastOnce(p, o, Config(0, h, m), d, d');
    }
  }

  /** Behind any other statement the code cannot be assembled, or it goes wrong wherever the branch is
      not taken, if the temporary it never set happens to hold another value. */
  lemma WrongMeans(o: Oracle, c: Expr, target: nat, land: nat, e: Expr, n: nat, h: History, m0: Temps) returns (m: Temps)
    requires TmpsBelow(c, n) && target < n && land < n && target != land
    requires Source(e) && !Right(e) && Eval(o, c, h, m0).1 == 0
    ensures !Means(o, c, target, land, e, n, h, m)
  {
    var n1, h1 := GenBool(c, target, land, n).1, Eval(o, c, h, m0).0;
    m := m0;
    BranchResolved(c, target, land, e, n);
    if !Kept(e) {
      return;
    } else if !Hushed(e) {
      var t := OnlyHistory(o, c, target, land, e, n, h, m);
      SourceLength(o, e, n1, h1, m);
      ResidualLength(o, Gen(e, n1).res, h1, t);
    } else {
      var v := Heart(e).1;
      HeartRuns(o, e, n1, h1, m0, m0);
      var y := HeartTmp(Gen(e, n1).res).value;
      m := m0[y := v + 1];
      EvalAgree(o, c, h, m0, m, n);
      var t := OnlyHistory(o, c, target, land, e, n, h, m);
      HeartRuns(o, e, n1, h1, m, t);
    }
  }

  ghost predicate AlwaysMeans(c: Expr, target: nat, land: nat, e: Expr, n: nat) {
    forall o: Oracle, h: History, m: Temps :: Means(o, c, target, land, e, n, h, m)
  }

  /** A branch on a logical condition that is not taken on some run and the statement behind it mean
      what C says, on all runs, exactly when that statement is one of the harmless kind. */
  lemma BranchExactly(c: Expr, target: nat, land: nat, e: Expr, n: nat, o: Oracle, h: History, m: Temps)
    requires IsLogic(c) && TmpsBelow(c, n) && target < n && land < n && target != land
    requires Source(e) && Eval(o, c, h, m).1 == 0
    ensures AlwaysMeans(c, target, land, e, n) <==> Right(e)
  {
    if Right(e) {
      forall o: Oracle, h: History, m: Temps ensures Means(o, c, target, land, e, n, h, m) {
        RightMeans(o, c, target, land, e, n, h, m);
      }
    } else {
      var m' := WrongMeans(o, c, target, land, e, n, h, m);
    }
  }

  // ----- statements of the other kind -----

  /** The branch over the statement in `if (a && b)`, and a run on which all operands are true. */
  function Guard(): Expr { Not(And(Leaf(Atom(1)), Leaf(Atom(2)))) }

  function Yes(): Oracle { (h: History) => 1 }

  lemma BothTrue(i: nat, j: nat, h: History, m: Temps)
    ensures Eval(Yes(), And(Leaf(Atom(i)), Leaf(Atom(j))), h, m) == (h + [Event(i, 0)] + [Event(j, 0)], 1)
  {
    var h1 := h + [Event(i, 0)];
    assert Eval(Yes(), Leaf(Atom(i)), h, m) == (h1, 1);
    assert Eval(Yes(), Leaf(Atom(j)), h1, m) == (h1 + [Event(j, 0)], 1);
  }

  lemma GuardFails(h: History, m: Temps)
    ensures Eval(Yes(), Guard(), h, m) == (h + [Event(1, 0)] + [Event(2, 0)], 0)
  {
    BothTrue(1, 2, h, m);
  }

  /** The node left of `x = f() && g()` reads a temporary that the branch does not touch. */
  lemma StaleNode(e: Expr, n: nat) returns (y: nat)
    requires e == Op(9, And(Leaf(Atom(7)), Leaf(Atom(8))))
    ensures y >= n && Gen(e, n).res == Op(9, Leaf(Tmp(y)))
  {
    y := Gen(e.arg, n).res.x.name;
  }

  /** `if (a && b) x = f() && g();`: neither f nor g is called. */
  lemma LostCall(h: History, m: Temps, e: Expr) returns (d: Config, y: nat)
    requires e == Op(9, And(Leaf(Atom(7)), Leaf(Atom(8))))
    ensures var p := BranchCode(Guard(), 0, 1, e, 2); Reaches(p, Yes(), Config(0, h, m), d) && d.pc == |p| - 1
    ensures var h1 := h + [Event(1, 0)] + [Event(2, 0)];
      && SourceHistory(Yes(), Guard(), e, h, m) == h1 + [Event(7, 0)] + [Event(8, 0)] + [Event(9, 1)]
      && d.h == h1 + [Event(9, Value(m, y))]
    ensures y == Gen(e, GenBool(Guard(), 0, 1, 2).1).res.arg.x.name && y >= GenBool(Guard(), 0, 1, 2).1
  {
    var h1 := h + [Event(1, 0)] + [Event(2, 0)];
    GuardFails(h, m);
    BothTrue(7, 8, h1, m);
    y := StaleNode(e, GenBool(Guard(), 0, 1, 2).1);
    var t;
    d, t := BranchLands(Yes(), Guard(), 0, 1, e, 2, h, m);
    assert Value(t, y) == Value(m, y);
  }

  /** And x gets whatever the temporary held. */
  lemma StaleValue(h: History, m0: Temps, e: Expr, w: int) returns (m: Temps, d: Config)
    requires e == Op(9, And(Leaf(Atom(7)), Leaf(Atom(8))))
    ensures var p := BranchCode(Guard(), 0, 1, e, 2); Reaches(p, Yes(), Config(0, h, m), d) && d.pc == |p| - 1
    ensures d.h == h + [Event(1, 0)] + [Event(2, 0)] + [Event(9, w)]
  {
    var y := StaleNode(e, GenBool(Guard(), 0, 1, 2).1);
    m := m0[y := w];
    var z;
    d, z := LostCall(h, m, e);
  }

  /** `if (a && b) f() && g();`: the label to land on marks no statement. */
  lemma LostLabel(h: History, m: Temps, e: Expr) returns (d: Config)
    requires e == And(Leaf(Atom(7)), Leaf(Atom(8)))
    ensures var p := BranchCode(Guard(), 0, 1, e, 2); !Resolved(p) && Reaches(p, Yes(), Config(0, h, m), d) && d.pc == |p|
  {
    GuardFails(h, m);
    BranchResolved(Guard(), 0, 1, e, 2);
    var t;
    d, t := BranchLands(Yes(), Guard(), 0, 1, e, 2, h, m);
  }
}
