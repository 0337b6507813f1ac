/** What cc1 prints, cc2 rebuilds: the same tree with the arguments of calls in source order,
    exactly when the stack has room for it. */
module IrRoundTrip {

  import opened Numbers
  import opened NumberText
  import opened IrTree
  import opened IrParse

  // ----- the tree cc2 should have -----

  /** Constants are cut to their type, casts to void disappear, and the chain of arguments runs
      from the first one. */
  function Rebuilt(st: nat -> Type, t: Tree): (n: Node)
    requires Good(t)
    ensures n.Node? && !IsPar(n)
  {
    match t
    case Var(c, id) => Node(StorageOp(c), id, Typed(st(id)), Nil, Nil)
    case Const(ty, v) => Node(OConst, v % TypeModulus(ty.letter), Typed(ty), Nil, Nil)
    case Unary(op, ty, l) => Node(Of(op), 0, Typed(ty), Rebuilt(st, l), Nil)
    case Cast(ty, l) => Node(Of('g'), 0, Typed(ty), Rebuilt(st, l), Nil)
    case VoidCast(l) => Rebuilt(st, l)
    case Binary(op, ty, l, r) => Node(Of(op), 0, Typed(ty), Rebuilt(st, l), Rebuilt(st, r))
    case Assign(sub, ty, l, r) => Node(OAssign(sub), 0, Typed(ty), Rebuilt(st, l), Rebuilt(st, r))
    case Ask(ty, c, l, r) =>
      Node(Of('?'), 0, Typed(ty), Rebuilt(st, c), Node(OColon, 0, Untyped, Rebuilt(st, l), Rebuilt(st, r)))
    case Call(op, ty, f, ps) => Node(Of(op), 0, Typed(ty), Rebuilt(st, f), Chain(st, ps, Nil))
  }

  /** The arguments in front of `rest`. */
  function Chain(st: nat -> Type, ps: Pars, rest: Node): Node
    requires GoodPars(ps)
  {
    match ps
    case NoPars => rest
    case Par(prev, ty, arg) => Chain(st, prev, Node(Of('p'), 0, Typed(ty), Rebuilt(st, arg), rest))
  }

  /** The arguments as they wait on the stack. */
  function Waiting(st: nat -> Type, ps: Pars): (ns: seq<Node>)
    requires GoodPars(ps)
    ensures |ns| == Count(ps) && forall i :: 0 <= i < |ns| ==> IsPar(ns[i])
  {
    match ps
    case NoPars => []
    case Par(prev, ty, arg) => Waiting(st, prev) + [Node(Of('p'), 0, Typed(ty), Rebuilt(st, arg), Nil)]
  }

  function Count(ps: Pars): nat {
    match ps
    case NoPars => 0
    case Par(prev, _, _) => Count(prev) + 1
  }

  // ----- the room a tree needs -----

  function Max(a: nat, b: nat): nat { if a < b then b else a }

  /** Places of the stack in use while the tree is read, the one for a type included. */
  function Need(t: Tree): (n: nat)
    ensures n >= 1
  {
    match t
    case Var(_, _) => 1
    case Const(_, _) => 1
    case Unary(_, _, l) => Max(Need(l), 2)
    case Cast(_, l) => Max(Need(l), 2)
    case VoidCast(l) => Need(l)
    case Binary(_, _, l, r) => Max(Need(l), Max(1 + Need(r), 3))
    case Assign(_, _, l, r) => Max(Need(l), Max(1 + Need(r), 3))
    case Ask(_, c, l, r) => Max(Need(c), Max(1 + Need(l), Max(2 + Need(r), 4)))
    case Call(_, _, f, ps) => Max(Need(f), 1 + NeedPars(ps))
  }

  /** The same for the arguments, from the place of the first one. */
  function NeedPars(ps: Pars): nat {
    match ps
    case NoPars => 0
    case Par(prev, _, arg) => Max(NeedPars(prev), Count(prev) + Max(Need(arg), 2))
  }

  // ----- words read back -----

  lemma DecimalReads(id: nat)
    ensures Atoi(Plain(id, DECIMAL)) == id
  {
    var s := Plain(id, DECIMAL);
    PlainValue(id, DECIMAL);
    DigitsEndAll(s, 0, 10);
    assert s[..|s|] == s;
  }

  /** A type's text is read back, if there is a place for it. */
  lemma TypeReads(ty: Type, n: nat, s: string)
    requires GoodType(ty) && n <= STACKSIZ && s == TypeText(ty)
    ensures GetType(n, s) == if n == STACKSIZ then Fails(Overflow) else Got(ty)
  {
    if ty.Agg? {
      DecimalReads(ty.id);
      assert s[1..] == Plain(ty.id, DECIMAL);
    }
  }

  lemma ConstReads(ty: Type, v: nat, w: string, n: nat)
    requires n <= STACKSIZ && ty.Base? && GoodType(ty) && v < 0x1_0000_0000_0000_0000
    requires w == "#" + ([ty.letter] + Plain(v, HEX))
    ensures w[2..] == Plain(v, HEX) && AllDigits(w[2..], 16) && Value(w[2..], 16) == v
    ensures GetType(n, w[1..]) == if n == STACKSIZ then Fails(Overflow) else Got(ty)
  {
    PlainValue(v, HEX);
    assert w[1..] == [ty.letter] + Plain(v, HEX);
    assert w[2..] == Plain(v, HEX);
  }

  // ----- parameters taken off -----

  lemma {:induction false} TakesPars(st: nat -> Type, stack: seq<Node>, f: Node, ps: Pars, rest: Node)
    requires GoodPars(ps) && !IsPar(f)
    ensures TakePars(stack + [f] + Waiting(st, ps), rest) == Some(f, Chain(st, ps, rest), stack)
    decreases ps
  {
    match ps
    case NoPars =>
      assert stack + [f] + [] == stack + [f];
      assert (stack + [f])[..|stack|] == stack;
    case Par(prev, ty, arg) =>
      var p := Node(Of('p'), 0, Typed(ty), Rebuilt(st, arg), Nil);
      var s := stack + [f] + Waiting(st, ps);
      assert s == stack + [f] + Waiting(st, prev) + [p];
      assert s[|s| - 1] == p && s[..|s| - 1] == stack + [f] + Waiting(st, prev);
      TakesPars(st, stack, f, prev, p.(right := rest));
  }

  // ----- one word on top of what it needs -----

  /** The stack with `n` on it, if `need` places are free. */
  function Room(stack: seq<Node>, need: nat, n: Node): Parsed {
    if |stack| + need <= STACKSIZ then Stack(stack + [n]) else Overflow
  }

  lemma VarWord(st: nat -> Type, stack: seq<Node>, c: char, id: nat, w: string)
    requires KindOf(c).KSymbol? && id < USHRT_MAX && |stack| <= STACKSIZ && w == [c] + Plain(id, DECIMAL)
    ensures Step(st, stack, w) == Room(stack, 1, Node(StorageOp(c), id, Typed(st(id)), Nil, Nil))
  {
    DecimalReads(id);
    assert w[1..] == Plain(id, DECIMAL);
  }

  lemma ConstStep(stack: seq<Node>, ty: Type, v: nat, w: string)
    requires v < 0x1_0000_0000_0000_0000 && |w| >= 2
    requires GetType(|stack|, w[1..]) == if |stack| == STACKSIZ then Fails(Overflow) else Got(ty)
    requires AllDigits(w[2..], 16) && Value(w[2..], 16) == v && |stack| <= STACKSIZ
    ensures Constant(stack, w) == Room(stack, 1, Node(OConst, v, Typed(ty), Nil, Nil))
  {
  }

  lemma ConstWord(st: nat -> Type, stack: seq<Node>, ty: Type, v: nat, w: string)
    requires ty.Base? && GoodType(ty) && v < 0x1_0000_0000_0000_0000 && |stack| <= STACKSIZ
    requires w == "#" + ([ty.letter] + Plain(v, HEX))
    ensures Step(st, stack, w) == Room(stack, 1, Node(OConst, v, Typed(ty), Nil, Nil))
  {
    ConstReads(ty, v, w, |stack|);
    ConstStep(stack, ty, v, w);
    Kinds();
    Dispatch(st, stack, '#', w);
  }

  /** A word is handled by the function its first letter names. */
  lemma Dispatch(st: nat -> Type, stack: seq<Node>, c: char, w: string)
    requires w != [] && w[0] == c
    ensures Step(st, stack, w) == match KindOf(c)
      case KSymbol => Symbol(st, stack, w)
      case KConstant => Constant(stack, w)
      case KUnary => UnaryStep(stack, w)
      case KBinary => TwoStep(stack, Of(c), w[1..])
      case KAssign => TwoStep(stack, OAssign(SubOp(w)), w[1 + |SubOp(w)|..])
      case KTernary => TernaryStep(stack, w)
      case KCall => CallStep(stack, w)
      case KOther => Unmodelled
      case KNone => Stack(stack)
  {
  }

  lemma UnaryWord(st: nat -> Type, stack: seq<Node>, l: Node, op: char, ty: Type, w: string)
    requires KindOf(op).KUnary? && GoodType(ty) && w == [op] + TypeText(ty)
    requires |stack| < STACKSIZ
    ensures Step(st, stack + [l], w) == Room(stack, 2, Node(Of(op), 0, Typed(ty), l, Nil))
  {
    assert w[1..] == TypeText(ty);
    TypeReads(ty, |stack| + 1, w[1..]);
    assert (stack + [l])[..|stack|] == stack;
  }

  lemma TwoWord(stack: seq<Node>, l: Node, r: Node, op: Op, ty: Type)
    requires GoodType(ty) && |stack| + 2 <= STACKSIZ
    ensures TwoStep(stack + [l] + [r], op, TypeText(ty)) == Room(stack, 3, Node(op, 0, Typed(ty), l, r))
  {
    TypeReads(ty, |stack| + 2, TypeText(ty));
    assert (stack + [l] + [r])[..|stack|] == stack;
  }

  lemma BinaryWord(st: nat -> Type, stack: seq<Node>, l: Node, r: Node, op: char, ty: Type, w: string)
    requires KindOf(op).KBinary? && GoodType(ty) && |stack| + 2 <= STACKSIZ
    requires w != [] && w[0] == op && w[1..] == TypeText(ty)
    ensures Step(st, stack + [l] + [r], w) == Room(stack, 3, Node(Of(op), 0, Typed(ty), l, r))
  {
    TwoWord(stack, l, r, Of(op), ty);
    Dispatch(st, stack + [l] + [r], op, w);
  }

  lemma Kinds()
    ensures KindOf('#').KConstant? && KindOf(':').KAssign? && KindOf('?').KTernary?
    ensures KindOf('g').KUnary? && KindOf('p').KUnary?
  {
  }

  lemma TypeIsNoSubOp(ty: Type)
    requires GoodType(ty)
    ensures TypeText(ty) != [] && !IsSubOp(TypeText(ty)[0])
  {
    assert TypeText(ty)[0] == ty.letter;
  }

  lemma SubOpReads(sub: string, tail: string, w: string)
    requires sub == [] || (|sub| == 1 && IsSubOp(sub[0]))
    requires tail != [] && !IsSubOp(tail[0]) && w == ":" + (sub + tail)
    ensures SubOp(w) == sub && w[1 + |sub|..] == tail
  {
    if sub == [] {
      assert w == ":" + tail && w[1] == tail[0];
    } else {
      assert w[1] == sub[0] && sub == [sub[0]];
    }
  }

  lemma AssignWord(st: nat -> Type, stack: seq<Node>, l: Node, r: Node, sub: string, ty: Type, w: string)
    requires GoodType(ty) && |stack| + 2 <= STACKSIZ
    requires w != [] && w[0] == ':' && SubOp(w) == sub && w[1 + |sub|..] == TypeText(ty)
    ensures Step(st, stack + [l] + [r], w) == Room(stack, 3, Node(OAssign(sub), 0, Typed(ty), l, r))
  {
    Kinds();
    TwoWord(stack, l, r, OAssign(sub), ty);
    Dispatch(st, stack + [l] + [r], ':', w);
  }

  /** The word of a tree with two children, on top of both. */
  lemma TwoNodes(st: nat -> Type, stack: seq<Node>, t: Tree)
    requires Good(t) && (t.Binary? || t.Assign?) && |stack| + 2 <= STACKSIZ
    ensures Step(st, stack + [Rebuilt(st, t.left)] + [Rebuilt(st, t.right)], Word(t)) == Room(stack, 3, Rebuilt(st, t))
  {
    var w, l, r := Word(t), Rebuilt(st, t.left), Rebuilt(st, t.right);
    if t.Binary? {
      assert w[1..] == TypeText(t.ty);
      BinaryWord(st, stack, l, r, t.op, t.ty, w);
    } else {
      TypeIsNoSubOp(t.ty);
      SubOpReads(t.sub, TypeText(t.ty), w);
      AssignWord(st, stack, l, r, t.sub, t.ty, w);
    }
  }

  lemma AskStep(stack: seq<Node>, s: seq<Node>, c: Node, l: Node, r: Node, ty: Type, w: string)
    requires GoodType(ty) && w != [] && w[1..] == TypeText(ty) && |stack| + 3 <= STACKSIZ
    requires s == stack + [c, l, r]
    ensures TernaryStep(s, w)
         == Room(stack, 4, Node(Of('?'), 0, Typed(ty), c, Node(OColon, 0, Untyped, l, r)))
  {
    TypeReads(ty, |stack| + 3, w[1..]);
    assert s[..|stack|] == stack;
  }

  lemma ThreeOnTop(stack: seq<Node>, c: Node, l: Node, r: Node)
    ensures stack + [c] + [l] + [r] == stack + [c, l, r]
  {
  }

  lemma AskWord(st: nat -> Type, stack: seq<Node>, c: Node, l: Node, r: Node, ty: Type, w: string)
    requires GoodType(ty) && |stack| + 3 <= STACKSIZ && w != [] && w[0] == '?' && w[1..] == TypeText(ty)
    ensures Step(st, stack + [c] + [l] + [r], w)
         == Room(stack, 4, Node(Of('?'), 0, Typed(ty), c, Node(OColon, 0, Untyped, l, r)))
  {
    Kinds();
    ThreeOnTop(stack, c, l, r);
    AskStep(stack, stack + [c, l, r], c, l, r, ty, w);
    Dispatch(st, stack + [c, l, r], '?', w);
  }

  lemma CallTakes(st: nat -> Type, stack: seq<Node>, f: Node, ps: Pars, op: char, ty: Type, w: string)
    requires GoodType(ty) && w != [] && w[0] == op && w[1..] == TypeText(ty) && GoodPars(ps) && !IsPar(f)
    requires |stack| < STACKSIZ
    ensures CallStep(stack + [f] + Waiting(st, ps), w)
         == Stack(stack + [Node(Of(op), 0, Typed(ty), f, Chain(st, ps, Nil))])
  {
    TypeReads(ty, |stack|, w[1..]);
    TakesPars(st, stack, f, ps, Nil);
  }

  lemma CallWord(st: nat -> Type, stack: seq<Node>, f: Node, ps: Pars, op: char, ty: Type, w: string)
    requires KindOf(op).KCall? && GoodType(ty) && w == [op] + TypeText(ty) && GoodPars(ps) && !IsPar(f)
    requires |stack| < STACKSIZ
    ensures Step(st, stack + [f] + Waiting(st, ps), w)
         == Stack(stack + [Node(Of(op), 0, Typed(ty), f, Chain(st, ps, Nil))])
  {
    assert w[1..] == TypeText(ty);
    CallTakes(st, stack, f, ps, op, ty, w);
    Dispatch(st, stack + [f] + Waiting(st, ps), op, w);
  }

  // ----- whole trees -----

  lemma RunWord(st: nat -> Type, stack: seq<Node>, w: string, rest: seq<string>)
    requires !Ends(w)
    ensures Run(st, stack, [w] + rest)
         == var r := Step(st, stack, w); if r.Stack? then Run(st, r.nodes, rest) else r
  {
    assert ([w] + rest)[1..] == rest;
  }

  /** Every printed word has a parse function. */
  lemma WordGoesOn(t: Tree)
    requires Good(t) && !t.VoidCast?
    ensures !Ends(Word(t))
  {
    Kinds();
  }

  /** How reading a tree ends, with `rest` still to read. */
  ghost function Onward(st: nat -> Type, stack: seq<Node>, need: nat, ns: seq<Node>, rest: seq<string>): Parsed {
    if |stack| + need <= STACKSIZ then Run(st, stack + ns, rest) else Overflow
  }

  lemma Regroup(a: seq<string>, b: seq<string>, c: seq<string>, d: seq<string>, e: seq<string>)
    ensures a + (b + c) + d == a + (b + (c + d))
    ensures a + (b + (c + d)) + e == a + (b + (c + (d + e)))
  {
  }

  lemma {:induction false} ReadsOne(st: nat -> Type, t: Tree, l: Tree, stack: seq<Node>, rest: seq<string>)
    requires Good(t) && |stack| <= STACKSIZ
    requires (t.Unary? && l == t.left) || (t.Cast? && l == t.left)
    ensures Run(st, stack, Words(l) + [Word(t)] + rest) == Onward(st, stack, Need(t), [Rebuilt(st, t)], rest)
    decreases t, 0
  {
    var op := if t.Unary? then t.op else 'g';
    Regroup(Words(l), [Word(t)], [], rest, []);
    assert [Word(t)] + [] == [Word(t)] && [] + rest == rest;
    Reads(st, l, stack, [Word(t)] + rest);
    if |stack| + Need(l) <= STACKSIZ {
      WordGoesOn(t);
      RunWord(st, stack + [Rebuilt(st, l)], Word(t), rest);
      UnaryWord(st, stack, Rebuilt(st, l), op, t.ty, Word(t));
    }
  }

  lemma {:induction false} ReadsTwo(st: nat -> Type, t: Tree, stack: seq<Node>, rest: seq<string>)
    requires Good(t) && |stack| <= STACKSIZ && (t.Binary? || t.Assign?)
    ensures Run(st, stack, Words(t) + rest) == Onward(st, stack, Need(t), [Rebuilt(st, t)], rest)
    decreases t, 0
  {
    var l, r, w := t.left, t.right, [Word(t)];
    assert Words(t) == Words(l) + (Words(r) + w) && Need(t) == Max(Need(l), Max(1 + Need(r), 3));
    Regroup(Words(l), Words(r), w, rest, []);
    Reads(st, l, stack, Words(r) + (w + rest));
    if |stack| + Need(l) <= STACKSIZ {
      Reads(st, r, stack + [Rebuilt(st, l)], w + rest);
      if |stack| + 1 + Need(r) <= STACKSIZ {
        TwoNodes(st, stack, t);
        WordGoesOn(t);
        LastWord(st, stack + [Rebuilt(st, l)] + [Rebuilt(st, r)], stack, Word(t), 3, Rebuilt(st, t), rest);
      }
    }
  }

  /** The word that ends a tree, on top of its children. */
  lemma LastWord(st: nat -> Type, full: seq<Node>, stack: seq<Node>, w: string, need: nat, n: Node, rest: seq<string>)
    requires !Ends(w) && Step(st, full, w) == Room(stack, need, n)
    ensures Run(st, full, [w] + rest) == Onward(st, stack, need, [n], rest)
  {
    RunWord(st, full, w, rest);
  }

  lemma {:induction false} ReadsAsk(st: nat -> Type, t: Tree, stack: seq<Node>, rest: seq<string>)
    requires Good(t) && |stack| <= STACKSIZ && t.Ask?
    ensures Run(st, stack, Words(t) + rest) == Onward(st, stack, Need(t), [Rebuilt(st, t)], rest)
    decreases t, 0
  {
    var c, l, r, w := t.cond, t.left, t.right, [Word(t)];
    Regroup(Words(c), Words(l), Words(r), w, rest);
    Reads(st, c, stack, Words(l) + (Words(r) + (w + rest)));
    if |stack| + Need(c) <= STACKSIZ {
      var s1 := stack + [Rebuilt(st, c)];
      Reads(st, l, s1, Words(r) + (w + rest));
      if |s1| + Need(l) <= STACKSIZ {
        var s2 := s1 + [Rebuilt(st, l)];
        Reads(st, r, s2, w + rest);
        if |s2| + Need(r) <= STACKSIZ {
          WordGoesOn(t);
          assert Word(t)[1..] == TypeText(t.ty);
          AskWord(st, stack, Rebuilt(st, c), Rebuilt(st, l), Rebuilt(st, r), t.ty, Word(t));
          LastWord(st, s2 + [Rebuilt(st, r)], stack, Word(t), 4, Rebuilt(st, t), rest);
        }
      }
    }
  }

  lemma {:induction false} ReadsCall(st: nat -> Type, t: Tree, stack: seq<Node>, rest: seq<string>)
    requires Good(t) && |stack| <= STACKSIZ && t.Call?
    ensures Run(st, stack, Words(t) + rest) == Onward(st, stack, Need(t), [Rebuilt(st, t)], rest)
    decreases t, 0
  {
    var f, ps, w := t.fun, t.pars, [Word(t)];
    Regroup(Words(f), ParWords(ps), w, rest, []);
    Reads(st, f, stack, ParWords(ps) + (w + rest));
    if |stack| + Need(f) <= STACKSIZ {
      var s1 := stack + [Rebuilt(st, f)];
      ReadsPars(st, ps, s1, w + rest);
      if |s1| + NeedPars(ps) <= STACKSIZ {
        WordGoesOn(t);
        RunWord(st, s1 + Waiting(st, ps), Word(t), rest);
        CallWord(st, stack, Rebuilt(st, f), ps, t.op, t.ty, Word(t));
      }
    }
  }

  lemma WaitingMore(st: nat -> Type, stack: seq<Node>, prev: Pars, p: Node)
    requires GoodPars(prev)
    ensures stack + Waiting(st, prev) + [p] == stack + (Waiting(st, prev) + [p])
  {
  }

  lemma {:induction false} ReadsPars(st: nat -> Type, ps: Pars, stack: seq<Node>, rest: seq<string>)
    requires GoodPars(ps) && |stack| <= STACKSIZ
    ensures Run(st, stack, ParWords(ps) + rest) == Onward(st, stack, NeedPars(ps), Waiting(st, ps), rest)
    decreases ps, 1
  {
    match ps
    case NoPars =>
      assert [] + rest == rest && stack + [] == stack;
    case Par(prev, ty, arg) =>
      var w := "p" + TypeText(ty);
      var p := Node(Of('p'), 0, Typed(ty), Rebuilt(st, arg), Nil);
      Regroup(ParWords(prev), Words(arg), [w], rest, []);
      ReadsPars(st, prev, stack, Words(arg) + ([w] + rest));
      if |stack| + NeedPars(prev) <= STACKSIZ {
        WaitingFits(prev);
        var s1 := stack + Waiting(st, prev);
        Reads(st, arg, s1, [w] + rest);
        if |s1| + Need(arg) <= STACKSIZ {
          Kinds();
          RunWord(st, s1 + [Rebuilt(st, arg)], w, rest);
          UnaryWord(st, s1, Rebuilt(st, arg), 'p', ty, w);
          WaitingMore(st, stack, prev, p);
        }
      }
  }

  lemma {:induction false} WaitingFits(ps: Pars)
    ensures Count(ps) <= NeedPars(ps)
  {
    if ps.Par? {
      WaitingFits(ps.prev);
    }
  }

  /** A printed tree is rebuilt exactly, one place higher, when the stack has room for it; with
      no room cc2 stops with an overflow. */
  lemma {:induction false} Reads(st: nat -> Type, t: Tree, stack: seq<Node>, rest: seq<string>)
    requires Good(t) && |stack| <= STACKSIZ
    ensures Run(st, stack, Words(t) + rest) == Onward(st, stack, Need(t), [Rebuilt(st, t)], rest)
    decreases t, 1
  {
    match t
    case Var(c, id) =>
      VarWord(st, stack, c, id, Word(t));
      WordGoesOn(t);
      RunWord(st, stack, Word(t), rest);
    case Const(ty, v) =>
      ConstWord(st, stack, ty, v % TypeModulus(ty.letter), Word(t));
      WordGoesOn(t);
      RunWord(st, stack, Word(t), rest);
    case Unary(_, _, l) => ReadsOne(st, t, l, stack, rest);
    case Cast(_, l) => ReadsOne(st, t, l, stack, rest);
    case VoidCast(l) => Reads(st, l, stack, rest);
    case Binary(_, _, _, _) => ReadsTwo(st, t, stack, rest);
    case Assign(_, _, _, _) => ReadsTwo(st, t, stack, rest);
    case Ask(_, _, _, _) => ReadsAsk(st, t, stack, rest);
    case Call(_, _, _, _) => ReadsCall(st, t, stack, rest);
  }

  // ----- arguments in source order -----

  datatype Arg = Arg(ty: Type, tree: Tree)

  /** The arguments of a call as they were written. */
  function Written(ps: Pars): seq<Arg> {
    match ps
    case NoPars => []
    case Par(prev, ty, arg) => Written(prev) + [Arg(ty, arg)]
  }

  /** The parameters met when following the right links from a call. */
  function Linked(n: Node): seq<(NodeType, Node)> {
    if n.Nil? then [] else [(n.ty, n.left)] + Linked(n.right)
  }

  ghost predicate InOrder(st: nat -> Type, args: seq<Arg>, links: seq<(NodeType, Node)>) {
    |links| == |args| && forall i :: 0 <= i < |args| && Good(args[i].tree) ==>
      links[i] == (Typed(args[i].ty), Rebuilt(st, args[i].tree))
  }

  lemma {:induction false} ChainLinks(st: nat -> Type, ps: Pars, rest: Node, args: seq<Arg>)
    requires GoodPars(ps) && InOrder(st, args, Linked(rest))
    ensures InOrder(st, Written(ps) + args, Linked(Chain(st, ps, rest)))
    decreases ps
  {
    match ps
    case NoPars =>
      assert [] + args == args;
    case Par(prev, ty, arg) =>
      var n := Node(Of('p'), 0, Typed(ty), Rebuilt(st, arg), rest);
      assert InOrder(st, [Arg(ty, arg)] + args, Linked(n));
      ChainLinks(st, prev, n, [Arg(ty, arg)] + args);
      assert Written(ps) + args == Written(prev) + ([Arg(ty, arg)] + args);
  }

  /** The rebuilt call finds its arguments in the order of the source, nested calls or not. */
  lemma ArgumentsInOrder(st: nat -> Type, t: Tree)
    requires Good(t) && t.Call?
    ensures InOrder(st, Written(t.pars), Linked(Rebuilt(st, t).right))
  {
    ChainLinks(st, t.pars, Nil, []);
    assert Written(t.pars) + [] == Written(t.pars);
  }

  // ----- words and lines -----

  predicate Clean(w: string) {
    w != [] && forall i :: 0 <= i < |w| ==> !Delim(w[i])
  }

  predicate AllClean(words: seq<string>) {
    forall i :: 0 <= i < |words| ==> Clean(words[i])
  }

  lemma {:induction false} WordEndIs(s: string, i: nat, e: nat)
    requires i <= e < |s| && Delim(s[e]) && forall j :: i <= j < e ==> !Delim(s[j])
    ensures WordEnd(s, i) == e
    decreases e - i
  {
    if i < e {
      WordEndIs(s, i + 1, e);
    }
  }

  /** One word behind a tab is split off. */
  lemma SplitWord(s: string, i: nat, w: string)
    requires Clean(w) && i + 1 + |w| < |s| && s[i] == '\t' && s[i + 1..i + 1 + |w|] == w && Delim(s[i + 1 + |w|])
    ensures Split(s, i) == [w] + Split(s, i + 1 + |w|)
  {
    var e := i + 1 + |w|;
    forall j | i + 1 <= j < e ensures !Delim(s[j]) {
      assert s[j] == w[j - i - 1];
    }
    WordEndIs(s, i + 2, e);
    assert !Delim(s[i + 1]);
  }

  lemma LineStarts(words: seq<string>)
    ensures Delim((Line(words) + "\n")[0])
  {
  }

  /** Where the first word of the rest of a line stands. */
  lemma WordInLine(s: string, i: nat, w: string, more: string)
    requires i <= |s| && s[i..] == "\t" + (w + more) && more != []
    ensures var e := i + 1 + |w|; e < |s| && s[i] == '\t' && s[i + 1..e] == w && s[e..] == more
  {
    var t, e := s[i..], i + 1 + |w|;
    assert t[0] == '\t' && t[1..] == w + more;
    assert t[1..1 + |w|] == w && t[1 + |w|..] == more;
    assert s[i + 1..e] == t[1..1 + |w|] && s[e..] == t[1 + |w|..];
  }

  lemma LineCons(words: seq<string>, tail: string)
    requires words != []
    ensures Line(words) + tail == "\t" + (words[0] + (Line(words[1..]) + tail))
  {
  }

  lemma {:induction false} SplitFrom(s: string, i: nat, words: seq<string>)
    requires AllClean(words) && i <= |s| && s[i..] == Line(words) + "\n"
    ensures Split(s, i) == words
    decreases |words|
  {
    if words == [] {
      assert s[i..] == "\n" && s[i] == '\n';
    } else {
      var w, more := words[0], Line(words[1..]) + "\n";
      LineCons(words, "\n");
      LineStarts(words[1..]);
      WordInLine(s, i, w, more);
      assert s[i + 1 + |w|] == more[0];
      SplitWord(s, i, w);
      SplitFrom(s, i + 1 + |w|, words[1..]);
    }
  }

  /** strtok cuts a printed line into the words that were printed. */
  lemma SplitLine(words: seq<string>)
    requires AllClean(words)
    ensures Split(Line(words) + "\n", 0) == words
  {
    SplitFrom(Line(words) + "\n", 0, words);
  }

  lemma DigitsClean(c: char, val: nat, conv: Conv)
    requires Sensible(conv) && !Delim(c)
    ensures Clean([c] + Plain(val, conv))
  {
    PlainValue(val, conv);
    var s := Plain(val, conv);
    forall i | 0 <= i < |s| ensures !Delim(s[i]) {
      assert Dtoi(s[i]) < conv.base;
    }
  }

  lemma TypeClean(c: char, ty: Type)
    requires !Delim(c) && GoodType(ty)
    ensures Clean([c] + TypeText(ty)) && Clean(TypeText(ty))
  {
    if ty.Agg? {
      DigitsClean(ty.letter, ty.id, DECIMAL);
    }
  }

  lemma CleanConcat(a: string, b: string)
    requires Clean(a) && Clean(b)
    ensures Clean(a + b)
  {
  }

  lemma WordClean(t: Tree)
    requires Good(t) && !t.VoidCast?
    ensures Clean(Word(t))
  {
    match t
    case Var(c, id) => DigitsClean(c, id, DECIMAL);
    case Const(ty, v) =>
      DigitsClean(ty.letter, v % TypeModulus(ty.letter), HEX);
      CleanConcat("#", [ty.letter] + Plain(v % TypeModulus(ty.letter), HEX));
    case Unary(op, ty, _) => TypeClean(op, ty);
    case Cast(ty, _) =>
    case Binary(op, ty, _, _) => TypeClean(op, ty);
    case Assign(sub, ty, _, _) =>
      TypeClean(':', ty);
      if sub == [] {
        assert sub + TypeText(ty) == TypeText(ty);
      } else {
        CleanConcat(sub, TypeText(ty));
      }
      CleanConcat(":", sub + TypeText(ty));
    case Ask(ty, _, _, _) => TypeClean('?', ty);
    case Call(op, ty, _, _) => TypeClean(op, ty);
  }

  lemma AllCleanConcat(a: seq<string>, b: seq<string>)
    requires AllClean(a) && AllClean(b)
    ensures AllClean(a + b)
  {
  }

  lemma {:induction false} WordsClean(t: Tree)
    requires Good(t)
    ensures AllClean(Words(t))
  {
    if !t.VoidCast? {
      WordClean(t);
    }
    match t
    case Var(_, _) =>
    case Const(_, _) =>
    case Unary(_, _, l) => WordsClean(l);
    case Cast(_, l) => WordsClean(l);
    case VoidCast(l) => WordsClean(l);
    case Binary(_, _, l, r) =>
      WordsClean(l);
      WordsClean(r);
      AllCleanConcat(Words(r), [Word(t)]);
      AllCleanConcat(Words(l), Words(r) + [Word(t)]);
    case Assign(_, _, l, r) =>
      WordsClean(l);
      WordsClean(r);
      AllCleanConcat(Words(r), [Word(t)]);
      AllCleanConcat(Words(l), Words(r) + [Word(t)]);
    case Ask(_, c, l, r) =>
      WordsClean(c);
      WordsClean(l);
      WordsClean(r);
      AllCleanConcat(Words(r), [Word(t)]);
      AllCleanConcat(Words(l), Words(r) + [Word(t)]);
      AllCleanConcat(Words(c), Words(l) + (Words(r) + [Word(t)]));
    case Call(_, _, f, ps) =>
      WordsClean(f);
      ParWordsClean(ps);
      AllCleanConcat(ParWords(ps), [Word(t)]);
      AllCleanConcat(Words(f), ParWords(ps) + [Word(t)]);
  }

  lemma {:induction false} ParWordsClean(ps: Pars)
    requires GoodPars(ps)
    ensures AllClean(ParWords(ps))
  {
    match ps
    case NoPars =>
    case Par(prev, ty, arg) =>
      ParWordsClean(prev);
      WordsClean(arg);
      TypeClean('p', ty);
      AllCleanConcat(Words(arg), ["p" + TypeText(ty)]);
      AllCleanConcat(ParWords(prev), Words(arg) + ["p" + TypeText(ty)]);
  }

  // ----- the theorem -----

  /** The line cc1 writes for an expression. */
  function Printed(t: Tree): string { Line(Words(t)) + "\n" }

  lemma PrintedSplits(t: Tree)
    requires Good(t)
    ensures Split(Printed(t), 0) == Words(t)
  {
    WordsClean(t);
    SplitLine(Words(t));
  }

  lemma ReadsAlone(st: nat -> Type, t: Tree)
    requires Good(t)
    ensures Run(st, [], Words(t)) == if Need(t) <= STACKSIZ then Stack([Rebuilt(st, t)]) else Overflow
  {
    Reads(st, t, [], []);
    assert Words(t) + [] == Words(t) && [] + [Rebuilt(st, t)] == [Rebuilt(st, t)];
  }

  lemma {:induction false} LineEndIs(s: string, i: nat, e: nat)
    requires i < e <= |s| && s[e - 1] == '\n' && forall j :: i <= j < e - 1 ==> s[j] != '\n'
    ensures LineEnd(s, i) == e
    decreases e - i
  {
    if i < e - 1 {
      LineEndIs(s, i + 1, e);
    }
  }

  lemma {:induction false} NoNewlineInside(words: seq<string>)
    requires AllClean(words)
    ensures forall j :: 0 <= j < |Line(words)| ==> Line(words)[j] != '\n'
  {
    if words != [] {
      var front, back := "\t" + words[0], Line(words[1..]);
      NoNewlineInside(words[1..]);
      assert Line(words) == front + back;
      forall j | 0 <= j < |front| ensures front[j] != '\n' {
        assert j > 0 ==> front[j] == words[0][j - 1] && !Delim(words[0][j - 1]);
      }
    }
  }

  lemma {:induction false} WordsNonEmpty(t: Tree)
    ensures Words(t) != []
  {
    match t
    case VoidCast(l) => WordsNonEmpty(l);
    case _ =>
  }

  /** How cc2 ends on the line of a tree. */
  function ReadBack(st: nat -> Type, t: Tree): Parsed
    requires Good(t)
  {
    if |Printed(t)| >= LINESIZ then LongLine
    else if Need(t) > STACKSIZ then Overflow
    else Stack([Rebuilt(st, t)])
  }

  /** fgets takes exactly the printed line, or as much of it as the buffer holds. */
  lemma PrintedFetched(t: Tree, rest: string)
    requires Good(t)
    ensures var s := Printed(t) + rest;
      s != [] && s[0] == '\t' && Fgets(s) == if |Printed(t)| < LINESIZ then Printed(t) else s[..LINESIZ - 1]
    ensures |Printed(t)| >= LINESIZ ==> (Printed(t) + rest)[LINESIZ - 2] != '\n'
  {
    var s, e := Printed(t) + rest, |Printed(t)|;
    WordsClean(t);
    WordsNonEmpty(t);
    NoNewlineInside(Words(t));
    assert forall j :: 0 <= j < e - 1 ==> s[j] == Line(Words(t))[j];
    assert s[e - 1] == '\n';
    LineEndIs(s, 0, e);
    assert s[..e] == Printed(t);
  }

  /** cc2 reads the line back to the one tree cc1 printed, whatever lines follow, if and only if the
      line fits its line buffer and the tree its stack. */
  lemma RoundTrip(st: nat -> Type, t: Tree, rest: string)
    requires Good(t)
    ensures NextLine(st, Printed(t) + rest) == ReadBack(st, t)
    ensures NextLine(st, Printed(t) + rest) ==
      if |Printed(t)| >= 4095 then LongLine else if Need(t) > 50 then Overflow else Stack([Rebuilt(st, t)])
  {
    var s := Printed(t) + rest;
    PrintedFetched(t, rest);
    if |Printed(t)| >= LINESIZ {
      CutLine(st, s);
    } else {
      WholeLine(st, s, Printed(t));
      PrintedSplits(t);
      ReadsAlone(st, t);
    }
  }

  lemma CutLine(st: nat -> Type, s: string)
    requires |s| >= LINESIZ && s[0] != '\n' && Fgets(s) == s[..LINESIZ - 1] && s[LINESIZ - 2] != '\n'
    ensures NextLine(st, s) == LongLine
  {
    var l := s[..LINESIZ - 1];
    assert |l| == LINESIZ - 1 && l[|l| - 1] == s[LINESIZ - 2];
  }

  lemma WholeLine(st: nat -> Type, s: string, l: string)
    requires s != [] && s[0] != '\n' && l != [] && Fgets(s) == l && l[|l| - 1] == '\n'
    ensures NextLine(st, s) == Run(st, [], Split(l, 0))
  {
  }

  // ----- a long line of a shallow tree -----

  /** A sum of `n + 1` variables, nested to the left. */
  function Sum(n: nat): Tree {
    if n == 0 then Var('A', 1) else Binary('+', Base('W'), Sum(n - 1), Var('A', 1))
  }

  lemma {:induction false} SumShallow(n: nat)
    ensures Good(Sum(n)) && Need(Sum(n)) <= 3
  {
    if n > 0 {
      SumShallow(n - 1);
    }
  }

  lemma {:induction false} SumLong(n: nat)
    ensures |Line(Words(Sum(n)))| >= n
  {
    if n > 0 {
      var more := Words(Var('A', 1)) + [Word(Sum(n))];
      SumLong(n - 1);
      LineConcat(Words(Sum(n - 1)), more);
      LineLonger(more);
    }
  }

  lemma LineLonger(words: seq<string>)
    requires words != []
    ensures |Line(words)| >= 1
  {
  }

  /** Three places of the stack are enough for it, and yet cc2 cannot read it. */
  lemma LongSum(st: nat -> Type)
    ensures Good(Sum(LINESIZ)) && Need(Sum(LINESIZ)) <= STACKSIZ && ReadBack(st, Sum(LINESIZ)) == LongLine
  {
    SumShallow(LINESIZ);
    SumLong(LINESIZ);
  }
}
