/** No two trees share a text: postfix words read from the end leave no choice. */
module IrUnique {

  import opened Numbers
  import opened NumberText
  import opened IrTree
  import opened IrParse
  import opened IrRoundTrip

  /** Trees as cc2 can tell them apart: no cast to void, constants cut to their type. */
  predicate Plainly(t: Tree) {
    match t
    case Var(_, _) => true
    case Const(ty, v) => 0 <= v < TypeModulus(ty.letter)
    case Unary(_, _, l) => Plainly(l)
    case Cast(_, l) => Plainly(l)
    case VoidCast(_) => false
    case Binary(_, _, l, r) => Plainly(l) && Plainly(r)
    case Assign(_, _, l, r) => Plainly(l) && Plainly(r)
    case Ask(_, c, l, r) => Plainly(c) && Plainly(l) && Plainly(r)
    case Call(_, _, f, ps) => Plainly(f) && PlainlyPars(ps)
  }

  predicate PlainlyPars(ps: Pars) {
    match ps
    case NoPars => true
    case Par(prev, _, arg) => PlainlyPars(prev) && Plainly(arg)
  }

  lemma PlainSame(a: nat, b: nat, conv: Conv)
    requires Sensible(conv) && Plain(a, conv) == Plain(b, conv)
    ensures a == b
  {
    PlainValue(a, conv);
    PlainValue(b, conv);
  }

  lemma TypeSame(a: Type, b: Type)
    requires GoodType(a) && GoodType(b) && TypeText(a) == TypeText(b)
    ensures a == b
  {
    TypeReads(a, 0, TypeText(a));
    TypeReads(b, 0, TypeText(b));
  }

  /** A word says everything about its node but the children. */
  ghost predicate SameHead(t: Tree, u: Tree) {
    match t
    case Var(c, id) => u == t
    case Const(ty, v) => u == t
    case Unary(op, ty, _) => u.Unary? && u.op == op && u.ty == ty
    case Cast(ty, _) => u.Cast? && u.ty == ty
    case VoidCast(_) => u.VoidCast?
    case Binary(op, ty, _, _) => u.Binary? && u.op == op && u.ty == ty
    case Assign(sub, ty, _, _) => u.Assign? && u.sub == sub && u.ty == ty
    case Ask(ty, _, _, _) => u.Ask? && u.ty == ty
    case Call(op, ty, _, _) => u.Call? && u.op == op && u.ty == ty
  }

  /** The first letter names the constructor and the operator. */
  lemma FirstLetter(t: Tree)
    requires Good(t) && !t.VoidCast?
    ensures Word(t) != [] && var k := KindOf(Word(t)[0]);
      match t
      case Var(c, _) => k.KSymbol? && Word(t)[0] == c
      case Const(_, _) => k.KConstant?
      case Unary(op, _, _) => k.KUnary? && Word(t)[0] == op && op != 'g'
      case Cast(_, _) => k.KUnary? && Word(t)[0] == 'g'
      case VoidCast(_) => true
      case Binary(op, _, _, _) => k.KBinary? && Word(t)[0] == op
      case Assign(_, _, _, _) => k.KAssign?
      case Ask(_, _, _, _) => k.KTernary?
      case Call(op, _, _, _) => k.KCall? && Word(t)[0] == op
  {
    Kinds();
  }

  lemma TailSame(c: char, a: string, d: char, b: string)
    requires [c] + a == [d] + b
    ensures c == d && a == b
  {
    assert ([c] + a)[1..] == a && ([d] + b)[1..] == b && ([c] + a)[0] == c && ([d] + b)[0] == d;
  }

  lemma ConstSame(t: Tree, u: Tree)
    requires Good(t) && Good(u) && Plainly(t) && Plainly(u) && t.Const? && u.Const? && Word(t) == Word(u)
    ensures t == u
  {
    InRange(t.val, TypeModulus(t.ty.letter));
    InRange(u.val, TypeModulus(u.ty.letter));
    ConstTextSame(t.ty.letter, t.val, u.ty.letter, u.val);
  }

  lemma InRange(v: int, m: nat)
    requires 0 <= v < m
    ensures v % m == v
  {
  }

  lemma ConstTextSame(a: char, x: nat, b: char, y: nat)
    requires "#" + ([a] + Plain(x, HEX)) == "#" + ([b] + Plain(y, HEX))
    ensures a == b && x == y
  {
    TailSame('#', [a] + Plain(x, HEX), '#', [b] + Plain(y, HEX));
    TailSame(a, Plain(x, HEX), b, Plain(y, HEX));
    PlainSame(x, y, HEX);
  }

  lemma AssignSame(t: Tree, u: Tree)
    requires Good(t) && Good(u) && t.Assign? && u.Assign? && Word(t) == Word(u)
    ensures t.sub == u.sub && t.ty == u.ty
  {
    TypeIsNoSubOp(t.ty);
    TypeIsNoSubOp(u.ty);
    SubOpReads(t.sub, TypeText(t.ty), Word(t));
    SubOpReads(u.sub, TypeText(u.ty), Word(u));
    TypeSame(t.ty, u.ty);
  }

  lemma WordSame(t: Tree, u: Tree)
    requires Good(t) && Good(u) && Plainly(t) && Plainly(u) && Word(t) == Word(u)
    ensures SameHead(t, u)
  {
    FirstLetter(t);
    FirstLetter(u);
    match t
    case Var(c, id) =>
      TailSame(c, Plain(id, DECIMAL), u.class_, Plain(u.id, DECIMAL));
      PlainSame(id, u.id, DECIMAL);
    case Const(_, _) => ConstSame(t, u);
    case Unary(op, ty, _) =>
      TailSame(op, TypeText(ty), u.op, TypeText(u.ty));
      TypeSame(ty, u.ty);
    case Cast(ty, _) =>
    case Binary(op, ty, _, _) =>
      TailSame(op, TypeText(ty), u.op, TypeText(u.ty));
      TypeSame(ty, u.ty);
    case Assign(_, _, _, _) => AssignSame(t, u);
    case Ask(ty, _, _, _) =>
      TailSame('?', TypeText(ty), '?', TypeText(u.ty));
      TypeSame(ty, u.ty);
    case Call(op, ty, _, _) =>
      TailSame(op, TypeText(ty), u.op, TypeText(u.ty));
      TypeSame(ty, u.ty);
  }

  /** A tree's own word is the last one. */
  function Before(t: Tree): seq<string>
    requires !t.VoidCast?
  {
    match t
    case Var(_, _) => []
    case Const(_, _) => []
    case Unary(_, _, l) => Words(l)
    case Cast(_, l) => Words(l)
    case Binary(_, _, l, r) => Words(l) + Words(r)
    case Assign(_, _, l, r) => Words(l) + Words(r)
    case Ask(_, c, l, r) => Words(c) + Words(l) + Words(r)
    case Call(_, _, f, ps) => Words(f) + ParWords(ps)
  }

  lemma WordLast(p: seq<string>, t: Tree)
    requires !t.VoidCast?
    ensures p + Words(t) == p + Before(t) + [Word(t)]
  {
    assert Words(t) == Before(t) + [Word(t)];
  }

  lemma Cut(a: seq<string>, x: string, b: seq<string>, y: string)
    requires a + [x] == b + [y]
    ensures a == b && x == y
  {
    assert (a + [x])[..|a|] == a && (b + [y])[..|b|] == b;
  }

  lemma CutTail(a: seq<string>, b: seq<string>, c: seq<string>)
    requires a + c == b + c
    ensures a == b
  {
    assert (a + c)[..|a|] == a && (b + c)[..|b|] == b;
  }

  /** Read from the end, the words leave no choice, whatever stands before them. */
  lemma {:induction false} SuffixSame(p: seq<string>, t: Tree, q: seq<string>, u: Tree)
    requires Good(t) && Good(u) && Plainly(t) && Plainly(u) && p + Words(t) == q + Words(u)
    ensures t == u
    decreases t, 1
  {
    WordLast(p, t);
    WordLast(q, u);
    Cut(p + Before(t), Word(t), q + Before(u), Word(u));
    WordSame(t, u);
    match t
    case Var(_, _) =>
    case Const(_, _) =>
    case Unary(_, _, l) => SuffixSame(p, l, q, u.left);
    case Cast(_, l) => SuffixSame(p, l, q, u.left);
    case Binary(_, _, l, r) => TwoSame(t, p, l, r, q, u.left, u.right);
    case Assign(_, _, l, r) => TwoSame(t, p, l, r, q, u.left, u.right);
    case Ask(_, c, l, r) =>
      Front3(p, Words(c), Words(l), Words(r));
      Front3(q, Words(u.cond), Words(u.left), Words(u.right));
      TwoSame(t, p + Words(c), l, r, q + Words(u.cond), u.left, u.right);
      CutTail(p + Words(c), q + Words(u.cond), Words(l) + Words(r));
      SuffixSame(p, c, q, u.cond);
    case Call(_, _, f, ps) =>
      Front2(p, Words(f), ParWords(ps));
      Front2(q, Words(u.fun), ParWords(u.pars));
      CallSame(t, p, f, ps, q, u.fun, u.pars);
  }

  lemma Front2(p: seq<string>, a: seq<string>, b: seq<string>)
    ensures p + (a + b) == p + a + b
  {
  }

  lemma Front3(p: seq<string>, a: seq<string>, b: seq<string>, c: seq<string>)
    ensures p + (a + b + c) == (p + a) + (b + c)
  {
  }

  lemma ParFront(p: seq<string>, ps: Pars)
    requires ps.Par?
    ensures p + ParWords(ps) == p + ParWords(ps.prev) + Words(ps.arg) + ["p" + TypeText(ps.ty)]
  {
    Regroup(p, ParWords(ps.prev), Words(ps.arg), ["p" + TypeText(ps.ty)]);
  }

  lemma Regroup(p: seq<string>, a: seq<string>, b: seq<string>, c: seq<string>)
    ensures p + (a + (b + c)) == p + a + b + c && p + (a + b + c) == p + a + b + c
  {
  }

  lemma {:induction false} TwoSame(t: Tree, p: seq<string>, l: Tree, r: Tree, q: seq<string>, l': Tree, r': Tree)
    requires l < t && r < t && Good(l) && Good(r) && Plainly(l) && Plainly(r)
    requires Good(l') && Good(r') && Plainly(l') && Plainly(r')
    requires p + (Words(l) + Words(r)) == q + (Words(l') + Words(r'))
    ensures l == l' && r == r'
    decreases t, 0
  {
    Front2(p, Words(l), Words(r));
    Front2(q, Words(l'), Words(r'));
    SuffixSame(p + Words(l), r, q + Words(l'), r');
    CutTail(p + Words(l), q + Words(l'), Words(r));
    SuffixSame(p, l, q, l');
  }

  /** The parameters end where a word is no longer that of a parameter. */
  lemma {:induction false} CallSame(t: Tree, p: seq<string>, f: Tree, ps: Pars, q: seq<string>, f': Tree, ps': Pars)
    requires f < t && ps < t && Good(f) && GoodPars(ps) && Plainly(f) && PlainlyPars(ps)
    requires Good(f') && GoodPars(ps') && Plainly(f') && PlainlyPars(ps')
    requires p + Words(f) + ParWords(ps) == q + Words(f') + ParWords(ps')
    ensures f == f' && ps == ps'
    decreases t, 0, ps, 1
  {
    assert p + Words(f) + [] == p + Words(f) && q + Words(f') + [] == q + Words(f');
    if ps.NoPars? && ps'.NoPars? {
      SuffixSame(p, f, q, f');
    } else if ps.NoPars? {
      FunctionLast(p, f);
      ParLast(q + Words(f'), ps');
    } else if ps'.NoPars? {
      FunctionLast(q, f');
      ParLast(p + Words(f), ps);
    } else {
      ParSame(t, p + Words(f), ps, q + Words(f'), ps');
      CallSame(t, p, f, ps.prev, q, f', ps'.prev);
    }
  }

  lemma {:induction false} ParSame(t: Tree, p: seq<string>, ps: Pars, q: seq<string>, ps': Pars)
    requires ps.Par? && ps'.Par? && ps < t && GoodPars(ps) && PlainlyPars(ps) && GoodPars(ps') && PlainlyPars(ps')
    requires p + ParWords(ps) == q + ParWords(ps')
    ensures ps.ty == ps'.ty && ps.arg == ps'.arg && p + ParWords(ps.prev) == q + ParWords(ps'.prev)
    decreases t, 0, ps, 0
  {
    var a, b := p + ParWords(ps.prev), q + ParWords(ps'.prev);
    ParFront(p, ps);
    ParFront(q, ps');
    Cut(a + Words(ps.arg), "p" + TypeText(ps.ty), b + Words(ps'.arg), "p" + TypeText(ps'.ty));
    TailSame('p', TypeText(ps.ty), 'p', TypeText(ps'.ty));
    TypeSame(ps.ty, ps'.ty);
    SuffixSame(a, ps.arg, b, ps'.arg);
    CutTail(a, b, Words(ps.arg));
  }

  lemma FunctionLast(p: seq<string>, f: Tree)
    requires Good(f) && Plainly(f)
    ensures var s := p + Words(f); s != [] && s[|s| - 1] != [] && s[|s| - 1][0] != 'p'
  {
    WordLast(p, f);
    FirstLetter(f);
    Kinds();
  }

  lemma ParLast(p: seq<string>, ps: Pars)
    requires ps.Par?
    ensures var s := p + ParWords(ps); s != [] && s[|s| - 1] != [] && s[|s| - 1][0] == 'p'
  {
    ParFront(p, ps);
  }

  /** No two different trees share a text. */
  lemma Unambiguous(t: Tree, u: Tree)
    requires Good(t) && Good(u) && Plainly(t) && Plainly(u) && Printed(t) == Printed(u)
    ensures t == u
  {
    PrintedSplits(t);
    PrintedSplits(u);
    assert [] + Words(t) == [] + Words(u);
    SuffixSame([], t, [], u);
  }
}
