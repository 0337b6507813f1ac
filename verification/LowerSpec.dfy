/** Expressions with control operators, and the flat statements cc2 turns them into.

    The outside world is whatever an arbitrary oracle says: the value of the next event may
    depend on everything that happened before, so two runs agree exactly when they perform
    the same events in the same order.  */
module LowerSpec {

  /** `Atom` is any operand without control operators, `Op` any operation on one operand
      (a cast, a call, an assignment), both with effects; `Tmp` and `Same`, which compares a
      temporary with a constant, occur after lowering only. */
  datatype Operand = Atom(id: nat) | Const(value: int) | Tmp(name: nat) | Same(value: int, name: nat)

  datatype Expr =
    | Leaf(x: Operand)
    | Op(id: nat, arg: Expr)
    | Not(e: Expr)
    | And(l: Expr, r: Expr)
    | Or(l: Expr, r: Expr)
    | Cond(c: Expr, a: Expr, b: Expr)
    | Comma(l: Expr, r: Expr)

  datatype Event = Event(id: nat, arg: int)
  type History = seq<Event>
  type Oracle = History -> int
  type Temps = map<nat, int>

  function Value(m: Temps, x: nat): int {
    if x in m then m[x] else 0
  }

  function Truth(b: bool): int {
    if b then 1 else 0
  }

  function Fetch(o: Oracle, x: Operand, h: History, m: Temps): (History, int) {
    match x
    case Atom(id) => var h1 := h + [Event(id, 0)]; (h1, o(h1))
    case Const(v) => (h, v)
    case Tmp(y) => (h, Value(m, y))
    case Same(k, y) => (h, Truth(Value(m, y) == k))
  }

  /** Big-step evaluation, C99 sections 6.5.13 to 6.5.17: events so far and the value. */
  function Eval(o: Oracle, e: Expr, h: History, m: Temps): (History, int) {
    match e
    case Leaf(x) => Fetch(o, x, h, m)
    case Op(id, x) => var (h1, v) := Eval(o, x, h, m); var h2 := h1 + [Event(id, v)]; (h2, o(h2))
    case Not(x) => var (h1, v) := Eval(o, x, h, m); (h1, Truth(v == 0))
    case And(l, r) =>
      var (h1, v) := Eval(o, l, h, m);
      if v == 0 then (h1, 0) else var (h2, w) := Eval(o, r, h1, m); (h2, Truth(w != 0))
    case Or(l, r) =>
      var (h1, v) := Eval(o, l, h, m);
      if v != 0 then (h1, 1) else var (h2, w) := Eval(o, r, h1, m); (h2, Truth(w != 0))
    case Cond(c, a, b) =>
      var (h1, v) := Eval(o, c, h, m);
      if v != 0 then Eval(o, a, h1, m) else Eval(o, b, h1, m)
    case Comma(l, r) => var (h1, v) := Eval(o, l, h, m); Eval(o, r, h1, m)
  }

  /** Nothing left for control flow to do. */
  predicate Residual(e: Expr) {
    match e
    case Leaf(_) => true
    case Op(_, x) => Residual(x)
    case _ => false
  }

  predicate IsLogic(e: Expr) {
    e.Not? || e.And? || e.Or?
  }

  /** Every temporary of `e` was allocated before `n`. */
  predicate TmpsBelow(e: Expr, n: nat) {
    match e
    case Leaf(x) => (x.Tmp? || x.Same?) ==> x.name < n
    case Op(_, x) => TmpsBelow(x, n)
    case Not(x) => TmpsBelow(x, n)
    case And(l, r) => TmpsBelow(l, n) && TmpsBelow(r, n)
    case Or(l, r) => TmpsBelow(l, n) && TmpsBelow(r, n)
    case Cond(c, a, b) => TmpsBelow(c, n) && TmpsBelow(a, n) && TmpsBelow(b, n)
    case Comma(l, r) => TmpsBelow(l, n) && TmpsBelow(r, n)
  }

  // ----- the label machine -----

  datatype Stmt =
    | Nop
    | Eff(e: Expr)
    | Assign(x: nat, e: Expr)
    | Jump(to: nat)
    | Branch(e: Expr, to: nat)

  datatype Label = NoLabel | At(name: nat)

  datatype Line = Line(mark: Label, stmt: Stmt)

  type Program = seq<Line>

  datatype Config = Config(pc: nat, h: History, temps: Temps)

  /** Position of the statement labelled `l`, or the end of the program. */
  function Find(p: Program, l: nat): nat {
    if p == [] || p[0].mark == At(l) then 0 else 1 + Find(p[1..], l)
  }

  lemma {:induction false} FindFirst(p: Program, l: nat)
    ensures Find(p, l) <= |p| && (Find(p, l) < |p| ==> p[Find(p, l)].mark == At(l))
    ensures forall j :: 0 <= j < Find(p, l) ==> p[j].mark != At(l)
  {
    if p != [] && p[0].mark != At(l) {
      FindFirst(p[1..], l);
      assert forall j :: 0 < j < Find(p, l) ==> p[j] == p[1..][j - 1];
    }
  }

  function Step(p: Program, o: Oracle, c: Config): Config {
    if c.pc >= |p| then c else
    match p[c.pc].stmt
    case Nop => c.(pc := c.pc + 1)
    case Eff(e) => c.(pc := c.pc + 1, h := Eval(o, e, c.h, c.temps).0)
    case Assign(x, e) =>
      var (h1, v) := Eval(o, e, c.h, c.temps);
      Config(c.pc + 1, h1, c.temps[x := v])
    case Jump(l) => c.(pc := Find(p, l))
    case Branch(e, l) =>
      var (h1, v) := Eval(o, e, c.h, c.temps);
      Config(if v != 0 then Find(p, l) else c.pc + 1, h1, c.temps)
  }

  function Steps(p: Program, o: Oracle, c: Config, k: nat): Config
    decreases k
  {
    if k == 0 then c else Steps(p, o, Step(p, o, c), k - 1)
  }

  lemma {:induction false} StepsAdd(p: Program, o: Oracle, c: Config, j: nat, k: nat)
    ensures Steps(p, o, c, j + k) == Steps(p, o, Steps(p, o, c, j), k)
    decreases j
  {
    if j > 0 {
      StepsAdd(p, o, Step(p, o, c), j - 1, k);
    }
  }

  /** `code` stands in `p` at position `i` and its labels mean these positions. */
  ghost predicate Embedded(p: Program, i: nat, code: Program)
    decreases |code|
  {
    code == [] ||
    (i < |p| && p[i] == code[0] && (code[0].mark.At? ==> Find(p, code[0].mark.name) == i) &&
     Embedded(p, i + 1, code[1..]))
  }

  lemma {:induction false} EmbeddedConcat(p: Program, i: nat, a: Program, b: Program)
    ensures Embedded(p, i, a + b) <==> Embedded(p, i, a) && Embedded(p, i + |a|, b)
    decreases |a|
  {
    if a == [] {
      assert a + b == b;
    } else {
      assert (a + b)[1..] == a[1..] + b;
      EmbeddedConcat(p, i + 1, a[1..], b);
    }
  }

  lemma {:induction false} EmbeddedAt(p: Program, i: nat, code: Program, j: nat)
    requires Embedded(p, i, code) && j < |code|
    ensures i + j < |p| && p[i + j] == code[j]
    ensures code[j].mark.At? ==> Find(p, code[j].mark.name) == i + j
    decreases j
  {
    if j > 0 {
      EmbeddedAt(p, i + 1, code[1..], j - 1);
    }
  }

  /** The temporaries from `n` on have the same value. */
  ghost predicate Above(m: Temps, m': Temps, n: nat) {
    forall x :: x >= n ==> Value(m', x) == Value(m, x)
  }

  /** Older temporaries have the same value. */
  ghost predicate Agree(m: Temps, m': Temps, n: nat) {
    forall x :: 0 <= x < n ==> Value(m', x) == Value(m, x)
  }

  lemma {:induction false} EvalAgree(o: Oracle, e: Expr, h: History, m: Temps, m': Temps, n: nat)
    requires Agree(m, m', n) && TmpsBelow(e, n)
    ensures Eval(o, e, h, m') == Eval(o, e, h, m)
    decreases e
  {
    match e
    case Leaf(x) => assert x.Tmp? || x.Same? ==> Value(m', x.name) == Value(m, x.name);
    case Op(_, x) => EvalAgree(o, x, h, m, m', n);
    case Not(x) => EvalAgree(o, x, h, m, m', n);
    case And(l, r) =>
      EvalAgree(o, l, h, m, m', n);
      EvalAgree(o, r, Eval(o, l, h, m).0, m, m', n);
    case Or(l, r) =>
      EvalAgree(o, l, h, m, m', n);
      EvalAgree(o, r, Eval(o, l, h, m).0, m, m', n);
    case Cond(c, a, b) =>
      EvalAgree(o, c, h, m, m', n);
      EvalAgree(o, a, Eval(o, c, h, m).0, m, m', n);
      EvalAgree(o, b, Eval(o, c, h, m).0, m, m', n);
    case Comma(l, r) =>
      EvalAgree(o, l, h, m, m', n);
      EvalAgree(o, r, Eval(o, l, h, m).0, m, m', n);
  }
}
