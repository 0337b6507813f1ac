/** A branch on a logical condition and whatever statement stands behind it, another branch
    included. */
module LowerNested {

  import opened Options
  import opened LowerSpec
  import opened LowerGen
  import opened LowerProof
  import opened LowerFresh
  import opened LowerResolved
  import opened LowerBranch

  /** The statement behind a branch: an expression, or a branch on `c` to `to` over a call of `id`.
      Behind that one `next` is put. */
  datatype Behind = Does(e: Expr) | Tests(c: Expr, to: nat, next: nat, id: nat)

  /** The call branched over, and the places branched to. */
  function After(b: Behind, target: nat): Program
    requires b.Tests?
  {
    [Line(At(b.next), Eff(Leaf(Atom(b.id)))), Lab(b.to), Lab(target)]
  }

  /** A branch on a logical condition is deleted when its code has been put in front of it, and its
      label with it; another branch keeps its label. */
  function TestCode(b: Behind, land: nat, n: nat): Program
    requires b.Tests?
  {
    if IsLogic(b.c) then GenBool(b.c, b.to, b.next, n).0
    else
      var g := Gen(b.c, n);
      g.code + [Line(At(land), Branch(g.res, b.to))]
  }

  /** The branch on `c` to `target` and the statement behind it, which got the label `land`. */
  function Code(c: Expr, target: nat, land: nat, b: Behind, n: nat): Program {
    match b
    case Does(e) => BranchCode(c, target, land, e, n)
    case Tests(_, _, _, _) =>
      var (c1, n1) := GenBool(c, target, land, n);
      c1 + (TestCode(b, land, n1) + After(b, target))
  }

  /** The labels are different, and older than those of the code. */
  predicate Labels(target: nat, land: nat, b: Behind, n: nat) {
    && target < n && land < n && target != land
    && (b.Tests? ==> b.to < n && b.next < n && b.to != b.next && b.to != target && b.to != land && b.next != target && b.next != land)
  }

  // ----- labels -----

  lemma AfterMarks(b: Behind, target: nat, land: nat, n: nat)
    requires b.Tests? && Labels(target, land, b, n)
    ensures Distinct(After(b, target)) && Marks(After(b, target)) == {b.next, b.to, target} && Refs(After(b, target)) == {}
  {
    var a := After(b, target);
    assert a == [a[0]] + [a[1]] + [a[2]];
    MarksOne(a[0]);
    MarksOne(a[1]);
    MarksOne(a[2]);
    RefsOne(a[0]);
    RefsOne(a[1]);
    RefsOne(a[2]);
    MarksConcat([a[0]], [a[1]]);
    MarksConcat([a[0]] + [a[1]], [a[2]]);
    RefsConcat([a[0]], [a[1]]);
    RefsConcat([a[0]] + [a[1]], [a[2]]);
  }

  /** Labels of the second statement: new ones, and the landing label if it is kept. */
  lemma TestMarks(b: Behind, land: nat, n: nat)
    requires b.Tests? && land < n
    ensures Distinct(TestCode(b, land, n)) && (land in Marks(TestCode(b, land, n)) <==> !IsLogic(b.c))
    ensures forall l :: l in Marks(TestCode(b, land, n)) ==> l >= n || l == land
    ensures Within(TestCode(b, land, n), {b.to, b.next})
  {
    if IsLogic(b.c) {
      BoolFresh(b.c, b.to, b.next, n);
      BoolRefs(b.c, b.to, b.next, n);
    } else {
      var g := Gen(b.c, n);
      var s := Line(At(land), Branch(g.res, b.to));
      GenFresh(b.c, n);
      GenRefs(b.c, n);
      MarksOne(s);
      MarksConcat(g.code, [s]);
      WithinOne(g.code, s, {b.to, b.next});
    }
  }

  lemma NewMarks(c1: Program, t: Program, a: Program, n: nat, land: nat, n1: nat, out: set<nat>)
    requires Fresh(c1, n, n1) && Distinct(t) && Distinct(a) && land < n <= n1 && land !in out
    requires (forall l :: l in Marks(t) ==> l >= n1 || l == land) && Marks(a) == out && forall l :: l in out ==> l < n
    ensures Distinct(c1 + (t + a)) && (land in Marks(c1 + (t + a)) <==> land in Marks(t))
    ensures Marks(c1 + (t + a)) == Marks(c1) + Marks(t) + out
  {
    MarksConcat(t, a);
    MarksConcat(c1, t + a);
  }

  lemma TestDistinct(c: Expr, target: nat, land: nat, b: Behind, n: nat)
    requires b.Tests? && Labels(target, land, b, n)
    ensures var p := Code(c, target, land, b, n); Distinct(p) && (land in Marks(p) <==> !IsLogic(b.c))
  {
    var (c1, n1) := GenBool(c, target, land, n);
    BoolFresh(c, target, land, n);
    TestMarks(b, land, n1);
    AfterMarks(b, target, land, n);
    NewMarks(c1, TestCode(b, land, n1), After(b, target), n, land, n1, {b.next, b.to, target});
  }

  /** The code can be assembled exactly when the branch behind is on no logical condition. */
  lemma TestResolved(c: Expr, target: nat, land: nat, b: Behind, n: nat)
    requires b.Tests? && Labels(target, land, b, n)
    ensures Resolved(Code(c, target, land, b, n)) <==> !(b.c.Not? || b.c.And? || b.c.Or?)
  {
    var (c1, n1) := GenBool(c, target, land, n);
    var t, a := TestCode(b, land, n1), After(b, target);
    TestDistinct(c, target, land, b, n);
    BoolRefs(c, target, land, n);
    TestMarks(b, land, n1);
    AfterMarks(b, target, land, n);
    RefsConcat(t, a);
    MarksConcat(t, a);
    RefsConcat(c1, t + a);
    MarksConcat(c1, t + a);
  }

  /** The places of a test and what stands behind it. */
  lemma TestLabels(c: Expr, target: nat, land: nat, b: Behind, n: nat)
    requires b.Tests? && Labels(target, land, b, n)
    ensures var p := Code(c, target, land, b, n);
      && Embedded(p, 0, GenBool(c, target, land, n).0)
      && |p| >= 3 && Find(p, target) == |p| - 1 && Find(p, b.to) == |p| - 2
      && p[|p| - 3].stmt == Eff(Leaf(Atom(b.id))) && p[|p| - 2].stmt == Nop && p[|p| - 1].stmt == Nop
      && if IsLogic(b.c) then Find(p, land) == |p|
         else |p| >= 4 && Find(p, land) == |p| - 4
              && p[|p| - 4].stmt == Branch(Gen(b.c, GenBool(c, target, land, n).1).res, b.to)
  {
    var (c1, n1) := GenBool(c, target, land, n);
    var t, a := TestCode(b, land, n1), After(b, target);
    var p := Code(c, target, land, b, n);
    TestDistinct(c, target, land, b, n);
    SelfEmbedded(p, 0);
    assert p[0..] == p;
    EmbeddedConcat(p, 0, c1, t + a);
    assert p[|p| - 3] == a[0] && p[|p| - 2] == a[1] && p[|p| - 1] == a[2];
    FindDistinct(p, |p| - 1);
    FindDistinct(p, |p| - 2);
    if IsLogic(b.c) {
      FindMarked(p, land);
    } else {
      assert p[|p| - 4] == t[|t| - 1];
      FindDistinct(p, |p| - 4);
    }
  }

  // ----- runs -----

  function Passed(h: History, w: int, id: nat): History {
    if w != 0 then h else h + [Event(id, 0)]
  }

  /** The events in C. */
  function SourceOf(o: Oracle, c: Expr, b: Behind, h: History, m: Temps): History {
    match b
    case Does(e) => SourceHistory(o, c, e, h, m)
    case Tests(c2, _, _, id) =>
      var (h1, v) := Eval(o, c, h, m);
      if v != 0 then h1 else var (h2, w) := Eval(o, c2, h1, m); Passed(h2, w, id)
  }

  lemma OverCall(p: Program, o: Oracle, a: Config, q: Config, b: Behind, e: Expr) returns (d: Config)
    requires b.Tests? && |p| >= 4 && Reaches(p, o, a, q) && q.pc == |p| - 4 && p[|p| - 4].stmt == Branch(e, b.to)
    requires Find(p, b.to) == |p| - 2
    requires p[|p| - 3].stmt == Eff(Leaf(Atom(b.id))) && p[|p| - 2].stmt == Nop
    ensures Reaches(p, o, a, d) && d.pc == |p| - 1
    ensures var (h2, w) := Eval(o, e, q.h, q.temps); d.h == Passed(h2, w, b.id)
  {
    var r := Step(p, o, q);
    ReachesStep(p, o, q);
    ReachesTrans(p, o, a, q, r);
    if Eval(o, e, q.h, q.temps).1 == 0 {
      r := RunEff(p, o, a, r, Leaf(Atom(b.id)));
    }
    d := RunNop(p, o, a, r);
  }

  /** When the first branch is not taken, the second one is met without what was hoisted for its
      condition; on a logical condition it is not met at all, and control is at no statement. */
  lemma TestLands(o: Oracle, c: Expr, target: nat, land: nat, b: Behind, n: nat, h: History, m: Temps)
    returns (d: Config, t: Temps)
    requires b.Tests? && TmpsBelow(c, n) && Labels(target, land, b, n)
    ensures var p, n1 := Code(c, target, land, b, n), GenBool(c, target, land, n).1;
      var (h1, v) := Eval(o, c, h, m);
      && Reaches(p, o, Config(0, h, m), d) && Agree(m, t, n) && Above(m, t, n1)
      && d.pc == (if v != 0 || !IsLogic(b.c) then |p| - 1 else |p|)
      && d.h == if v != 0 || IsLogic(b.c) then h1 else var (h2, w) := Eval(o, Gen(b.c, n1).res, h1, t); Passed(h2, w, b.id)
  {
    var p, n1 := Code(c, target, land, b, n), GenBool(c, target, land, n).1;
    var a := Config(0, h, m);
    TestLabels(c, target, land, b, n);
    d := BoolCorrect(p, o, c, target, land, n, a);
    t := d.temps;
    if Eval(o, c, h, m).1 == 0 && !IsLogic(b.c) {
      d := OverCall(p, o, a, d, b, Gen(b.c, n1).res);
    }
  }

  // ----- exactly when -----

  predicate SourceBehind(b: Behind) {
    match b
    case Does(e) => Source(e)
    case Tests(c, _, _, id) => Source(c) && Absent(c, id)
  }

  /** The statements that may stand behind a branch on a logical condition. */
  predicate RightBehind(b: Behind) {
    match b
    case Does(e) => Right(e)
    case Tests(c, _, _, _) => ValueRight(c)
  }

  /** The code can be assembled, and the run from these temporaries ends with the events of the
      source. */
  ghost predicate BehindMeans(o: Oracle, c: Expr, target: nat, land: nat, b: Behind, n: nat, h: History, m: Temps) {
    var p := Code(c, target, land, b, n);
    Resolved(p) && exists d :: Reaches(p, o, Config(0, h, m), d) && d.pc == |p| - 1 && d.h == SourceOf(o, c, b, h, m)
  }

  ghost predicate BehindAlways(c: Expr, target: nat, land: nat, b: Behind, n: nat) {
    forall o: Oracle, h: History, m: Temps :: BehindMeans(o, c, target, land, b, n, h, m)
  }

  /** No event of `e` is a call of `id`. */
  predicate Absent(e: Expr, id: nat) {
    match e
    case Leaf(x) => x.Atom? ==> x.id != id
    case Op(i, x) => i != id && Absent(x, id)
    case Not(x) => Absent(x, id)
    case And(l, r) => Absent(l, id) && Absent(r, id)
    case Or(l, r) => Absent(l, id) && Absent(r, id)
    case Cond(c, a, b) => Absent(c, id) && Absent(a, id) && Absent(b, id)
    case Comma(l, r) => Absent(l, id) && Absent(r, id)
  }

  ghost predicate NoCall(h: History, from: nat, id: nat) {
    from <= |h| && forall i :: from <= i < |h| ==> h[i].id != id
  }

  lemma {:induction false} AbsentEvents(o: Oracle, e: Expr, h: History, m: Temps, id: nat, from: nat)
    requires Absent(e, id) && NoCall(h, from, id)
    ensures NoCall(Eval(o, e, h, m).0, from, id)
  {
    match e
    case Leaf(_) =>
    case Op(_, x) => AbsentEvents(o, x, h, m, id, from);
    case Not(x) => AbsentEvents(o, x, h, m, id, from);
    case And(l, r) =>
      AbsentEvents(o, l, h, m, id, from);
      AbsentEvents(o, r, Eval(o, l, h, m).0, m, id, from);
    case Or(l, r) =>
      AbsentEvents(o, l, h, m, id, from);
      AbsentEvents(o, r, Eval(o, l, h, m).0, m, id, from);
    case Cond(c, a, b) =>
      AbsentEvents(o, c, h, m, id, from);
      AbsentEvents(o, a, Eval(o, c, h, m).0, m, id, from);
      AbsentEvents(o, b, Eval(o, c, h, m).0, m, id, from);
    case Comma(l, r) =>
      AbsentEvents(o, l, h, m, id, from);
      AbsentEvents(o, r, Eval(o, l, h, m).0, m, id, from);
  }

  lemma RightTest(o: Oracle, c: Expr, target: nat, land: nat, b: Behind, n: nat, h: History, m: Temps)
    requires b.Tests? && TmpsBelow(c, n) && Labels(target, land, b, n) && SourceBehind(b) && RightBehind(b)
    ensures BehindMeans(o, c, target, land, b, n, h, m)
  {
    var d, t := TestLands(o, c, target, land, b, n, h, m);
    TestResolved(c, target, land, b, n);
    RightRuns(o, b.c, GenBool(c, target, land, n).1, Eval(o, c, h, m).0, m, t);
  }

  /** The one history the code can end with. */
  lemma OnlyTest(o: Oracle, c: Expr, target: nat, land: nat, b: Behind, n: nat, h: History, m: Temps) returns (t: Temps)
    requires b.Tests? && TmpsBelow(c, n) && Labels(target, land, b, n) && Eval(o, c, h, m).1 == 0 && !IsLogic(b.c)
    ensures var n1, h1 := GenBool(c, target, land, n).1, Eval(o, c, h, m).0;
      var (h2, w) := Eval(o, Gen(b.c, n1).res, h1, t);
      Above(m, t, n1) &&
      (BehindMeans(o, c, target, land, b, n, h, m) ==> Passed(h2, w, b.id) == SourceOf(o, c, b, h, m))
  {
    var p := Code(c, target, land, b, n);
    var d;
    d, t := TestLands(o, c, target, land, b, n, h, m);
    TestLabels(c, target, land, b, n);
    if BehindMeans(o, c, target, land, b, n, h, m) {
      var d' :| Reaches(p, o, Config(0, h, m), d') && d'.pc == |p| - 1 && d'.h == SourceOf(o, c, b, h, m);
      LastOnce(p, o, Config(0, h, m), d, d');
    }
  }

  /** A run with fewer events than the source is told from it by the call. */
  lemma ShortHistory(s: History, r: History, w: int, w': int, id: nat, from: nat)
    requires |r| < |s| && from <= |r| && NoCall(s, from, id)
    ensures Passed(r, w', id) != Passed(s, w, id)
  {
    if w' == 0 && w != 0 && |r| + 1 == |s| {
      assert Passed(r, w', id)[|r|].id == id && s[|r|].id != id;
    }
  }

  lemma WrongTest(o: Oracle, c: Expr, target: nat, land: nat, b: Behind, n: nat, h: History, m0: Temps) returns (m: Temps)
    requires b.Tests? && TmpsBelow(c, n) && Labels(target, land, b, n)
    requires SourceBehind(b) && !RightBehind(b) && Eval(o, c, h, m0).1 == 0
    ensures !BehindMeans(o, c, target, land, b, n, h, m)
  {
    TestResolved(c, target, land, b, n);
    if IsLogic(b.c) {
      m := m0;
    } else if !Hushed(b.c) {
      m := m0;
      LostEvents(o, c, target, land, b, n, h, m);
    } else {
      m := StaleTest(o, c, target, land, b, n, h, m0);
    }
  }

  lemma LostEvents(o: Oracle, c: Expr, target: nat, land: nat, b: Behind, n: nat, h: History, m: Temps)
    requires b.Tests? && TmpsBelow(c, n) && Labels(target, land, b, n)
    requires SourceBehind(b) && !IsLogic(b.c) && !Hushed(b.c) && Eval(o, c, h, m).1 == 0
    ensures !BehindMeans(o, c, target, land, b, n, h, m)
  {
    var n1, h1 := GenBool(c, target, land, n).1, Eval(o, c, h, m).0;
    var t := OnlyTest(o, c, target, land, b, n, h, m);
    SourceLength(o, b.c, n1, h1, m);
    ResidualLength(o, Gen(b.c, n1).res, h1, t);
    AbsentEvents(o, b.c, h1, m, b.id, |h1|);
    var (s, w) := Eval(o, b.c, h1, m);
    var (r, w') := Eval(o, Gen(b.c, n1).res, h1, t);
    ShortHistory(s, r, w, w', b.id, |h1|);
  }

  /** Nothing is lost, but the temporary that was to be set decides the branch, or is handed over. */
  lemma StaleTest(o: Oracle, c: Expr, target: nat, land: nat, b: Behind, n: nat, h: History, m0: Temps) returns (m: Temps)
    requires b.Tests? && TmpsBelow(c, n) && Labels(target, land, b, n)
    requires SourceBehind(b) && !IsLogic(b.c) && Hushed(b.c) && !ValueRight(b.c) && Eval(o, c, h, m0).1 == 0
    ensures !BehindMeans(o, c, target, land, b, n, h, m)
  {
    var n1, h1 := GenBool(c, target, land, n).1, Eval(o, c, h, m0).0;
    var v := Heart(b.c).1;
    HeartRuns(o, b.c, n1, h1, m0, m0);
    var y := HeartTmp(Gen(b.c, n1).res).value;
    m := m0[y := if v == 0 then 1 else 0];
    EvalAgree(o, c, h, m0, m, n);
    var t := OnlyTest(o, c, target, land, b, n, h, m);
    StaleDiffers(o, b.c, n1, h1, m, t, b.id);
  }

  lemma StaleDiffers(o: Oracle, e: Expr, n: nat, h: History, m: Temps, t: Temps, id: nat)
    requires Source(e) && Hushed(e) && !ValueRight(e)
    requires var y := HeartTmp(Gen(e, n).res); y.Some? ==> Value(t, y.value) == if Heart(e).1 == 0 then 1 else 0
    ensures var (s, w) := Eval(o, e, h, m);
      var (r, w') := Eval(o, Gen(e, n).res, h, t);
      Passed(r, w', id) != Passed(s, w, id)
  {
    HeartRuns(o, e, n, h, m, t);
    var (s, w) := Eval(o, e, h, m);
    var (r, w') := Eval(o, Gen(e, n).res, h, t);
    if Heart(e).0.None? {
      assert |Passed(r, w', id)| != |Passed(s, w, id)|;
    } else {
      assert Passed(r, w', id)[|h|] != Passed(s, w, id)[|h|];
    }
  }

  /** A branch on a logical condition that is not taken on some run, and any statement behind it: on
      all runs they mean what C says exactly when the statement is of the harmless kind. */
  lemma BehindExactly(c: Expr, target: nat, land: nat, b: Behind, n: nat, o: Oracle, h: History, m: Temps)
    requires IsLogic(c) && TmpsBelow(c, n) && Labels(target, land, b, n)
    requires SourceBehind(b) && Eval(o, c, h, m).1 == 0
    ensures BehindAlways(c, target, land, b, n) <==> RightBehind(b)
  {
    if b.Does? {
      BranchExactly(c, target, land, b.e, n, o, h, m);
      DoesSame(c, target, land, b, n);
    } else if RightBehind(b) {
      forall o: Oracle, h: History, m: Temps ensures BehindMeans(o, c, target, land, b, n, h, m) {
        RightTest(o, c, target, land, b, n, h, m);
      }
    } else {
      var m' := WrongTest(o, c, target, land, b, n, h, m);
    }
  }

  lemma DoesSame(c: Expr, target: nat, land: nat, b: Behind, n: nat)
    requires b.Does?
    ensures BehindAlways(c, target, land, b, n) <==> AlwaysMeans(c, target, land, b.e, n)
  {
    forall o: Oracle, h: History, m: Temps
      ensures BehindMeans(o, c, target, land, b, n, h, m) <==> Means(o, c, target, land, b.e, n, h, m)
    {
      var p := BranchCode(c, target, land, b.e, n);
      assert Code(c, target, land, b, n) == p && SourceOf(o, c, b, h, m) == SourceHistory(o, c, b.e, h, m);
    }
  }

  /** A logical branch behind a logical branch: the label to land on marks nothing. */
  lemma LogicBehindLogic(c: Expr, target: nat, land: nat, b: Behind, n: nat)
    requires b.Tests? && Labels(target, land, b, n) && (b.c.Not? || b.c.And? || b.c.Or?)
    ensures var p := Code(c, target, land, b, n); Find(p, land) == |p| && land in Refs(p) && !Resolved(p)
  {
    TestLabels(c, target, land, b, n);
    TestResolved(c, target, land, b, n);
    BoolRefs(c, target, land, n);
    var (c1, n1) := GenBool(c, target, land, n);
    RefsConcat(c1, TestCode(b, land, n1) + After(b, target));
  }

  /** `if (a && b) { if (c && d) f(); }` */
  lemma NestedIf(h: History, m: Temps, b: Behind) returns (d: Config)
    requires b == Tests(Not(And(Leaf(Atom(3)), Leaf(Atom(4)))), 2, 3, 7)
    ensures var p := Code(Guard(), 0, 1, b, 4);
      !Resolved(p) && Reaches(p, Yes(), Config(0, h, m), d) && d.pc == |p| && !RightBehind(b)
  {
    GuardFails(h, m);
    LogicBehindLogic(Guard(), 0, 1, b, 4);
    var t;
    d, t := TestLands(Yes(), Guard(), 0, 1, b, 4, h, m);
  }
}
