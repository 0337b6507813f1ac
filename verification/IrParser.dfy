/** cc2's parser at work: words change a fixed stack in place. */
module IrParser {

  import opened Numbers
  import opened IrTree
  import opened IrParse
  import opened IrRoundTrip

  datatype Outcome = Fine | Fault(error: Parsed)

  const TUINT_MOD: nat := 0x1_0000_0000_0000_0000

  lemma ShiftIn(a: nat, v: nat, d: nat)
    requires v == a % TUINT_MOD
    ensures (v * 16 % TUINT_MOD + d) % TUINT_MOD == (a * 16 + d) % TUINT_MOD
  {
    var q := a / TUINT_MOD;
    assert a * 16 + d == v * 16 + d + (q * 16) * TUINT_MOD;
    assert (v * 16) % TUINT_MOD == v * 16 - (v * 16 / TUINT_MOD) * TUINT_MOD;
  }

  /** `constant`: the hexadecimal digits shifted in, in 64 bits. */
  method HexValue(s: string) returns (v: nat)
    requires AllDigits(s, 16)
    ensures v == Value(s, 16) % TUINT_MOD
  {
    v := 0;
    for i := 0 to |s|
      invariant v == Value(s[..i], 16) % TUINT_MOD
    {
      assert s[..i + 1] == s[..i] + [s[i]];
      ValueSnoc(s[..i], s[i], 16);
      ShiftIn(Value(s[..i], 16), v, Dtoi(s[i]));
      v := v * 16 % TUINT_MOD;
      v := (v + Dtoi(s[i])) % TUINT_MOD;
    }
    assert s[..|s|] == s;
  }

  class Parser {
    const stack: array<Node>
    const st: nat -> Type
    var sp: nat

    ghost predicate Valid()
      reads this
    {
      stack.Length == STACKSIZ && sp <= STACKSIZ
    }

    ghost function Contents(): (s: seq<Node>)
      requires Valid()
      reads this, stack
      ensures |s| == sp
    {
      stack[..sp]
    }

    /** The stack is the one `want` asks for, or its error was raised. */
    ghost predicate Did(o: Outcome, want: Parsed)
      requires Valid()
      reads this, stack
    {
      if want.Stack? then o.Fine? && Contents() == want.nodes else o == Fault(want)
    }

    constructor (st: nat -> Type)
      ensures Valid() && Contents() == [] && this.st == st && fresh(stack)
    {
      this.st := st;
      stack := new Node[STACKSIZ](_ => Nil);
      sp := 0;
    }

    method PushNode(n: Node) returns (o: Outcome)
      requires Valid()
      modifies this, stack
      ensures Valid() && Did(o, Push(old(Contents()), n))
    {
      if sp == STACKSIZ {
        return Fault(Overflow);
      }
      stack[sp] := n;
      sp := sp + 1;
      return Fine;
    }

    method PopNode() returns (o: Outcome, n: Node)
      requires Valid()
      modifies this
      ensures Valid()
      ensures old(sp) == 0 ==> o == Fault(Underflow) && Contents() == old(Contents())
      ensures old(sp) > 0 ==> o.Fine? && sp == old(sp) - 1 && n == old(Contents())[sp] && Contents() == old(Contents())[..sp]
    {
      if sp == 0 {
        return Fault(Underflow), Nil;
      }
      sp := sp - 1;
      return Fine, stack[sp];
    }

    /** The end of a line that began with a tab: what is left becomes a statement, and nothing may be
        left behind it. */
    method Statement() returns (o: Outcome, added: seq<Node>)
      requires Valid()
      modifies this
      ensures Valid() && o == if old(sp) <= 1 then Fine else Fault(Unaligned)
      ensures o.Fine? ==> added == old(Contents()) && Contents() == []
    {
      added := [];
      if sp > 0 {
        var n;
        o, n := PopNode();
        added := [n];
      }
      o := if sp != 0 then Fault(Unaligned) else Fine;
    }

    method DoConstant(w: string) returns (o: Outcome)
      requires Valid() && w != []
      modifies this, stack
      ensures Valid() && Did(o, Constant(old(Contents()), w))
    {
      var t := GetType(sp, w[1..]);
      if t.Fails? {
        return Fault(t.error);
      }
      if !AllDigits(w[2..], 16) {
        return Fault(Syntax);
      }
      var v := HexValue(w[2..]);
      o := PushNode(Node(OConst, v, Typed(t.ty), Nil, Nil));
    }

    method DoUnary(w: string) returns (o: Outcome)
      requires Valid() && w != []
      modifies this, stack
      ensures Valid() && Did(o, UnaryStep(old(Contents()), w))
    {
      var t := GetType(sp, w[1..]);
      if t.Fails? {
        return Fault(t.error);
      }
      var l;
      o, l := PopNode();
      if o.Fault? {
        return;
      }
      o := PushNode(Node(Of(w[0]), 0, Typed(t.ty), l, Nil));
    }

    method DoTwo(op: Op, tail: string) returns (o: Outcome)
      requires Valid()
      modifies this, stack
      ensures Valid() && Did(o, TwoStep(old(Contents()), op, tail))
    {
      var t := GetType(sp, tail);
      if t.Fails? {
        return Fault(t.error);
      }
      var l, r;
      o, r := PopNode();
      if o.Fault? {
        return;
      }
      o, l := PopNode();
      if o.Fault? {
        return;
      }
      o := PushNode(Node(op, 0, Typed(t.ty), l, r));
    }

    method DoTernary(w: string) returns (o: Outcome)
      requires Valid() && w != []
      modifies this, stack
      ensures Valid() && Did(o, TernaryStep(old(Contents()), w))
    {
      var t := GetType(sp, w[1..]);
      if t.Fails? {
        return Fault(t.error);
      }
      var c, l, r;
      o, r := PopNode();
      if o.Fault? {
        return;
      }
      o, l := PopNode();
      if o.Fault? {
        return;
      }
      o, c := PopNode();
      if o.Fault? {
        return;
      }
      o := PushNode(Node(Of('?'), 0, Typed(t.ty), c, Node(OColon, 0, Untyped, l, r)));
    }

    method DoCall(w: string) returns (o: Outcome)
      requires Valid() && w != []
      modifies this, stack
      ensures Valid() && Did(o, CallStep(old(Contents()), w))
    {
      var par, fun := Nil, Nil;
      while true
        invariant Valid()
        invariant TakePars(Contents(), par) == TakePars(old(Contents()), Nil)
        decreases sp
      {
        o, fun := PopNode();
        if o.Fault? {
          return;
        }
        if !IsPar(fun) {
          break;
        }
        par := fun.(right := par);
      }
      assert TakePars(old(Contents()), Nil) == Some(fun, par, Contents());
      var t := GetType(sp, w[1..]);
      if t.Fails? {
        return Fault(t.error);
      }
      o := PushNode(Node(Of(w[0]), 0, Typed(t.ty), fun, par));
    }

    /** One turn of eval: the first letter chooses the function. */
    method DoWord(w: string) returns (o: Outcome)
      requires Valid()
      modifies this, stack
      ensures Valid() && Did(o, Step(st, old(Contents()), w))
    {
      if w == [] {
        return Fine;
      }
      match KindOf(w[0]) {
        case KSymbol =>
          var id := Atoi(w[1..]);
          if id >= USHRT_MAX {
            return Fault(BadId);
          }
          o := PushNode(Node(StorageOp(w[0]), id, Typed(st(id)), Nil, Nil));
        case KConstant => o := DoConstant(w);
        case KUnary => o := DoUnary(w);
        case KBinary => o := DoTwo(Of(w[0]), w[1..]);
        case KAssign => o := DoTwo(OAssign(SubOp(w)), w[1 + |SubOp(w)|..]);
        case KTernary => o := DoTernary(w);
        case KCall => o := DoCall(w);
        case KOther => o := Fault(Unmodelled);
        case KNone => o := Fine;
      }
    }

    /** nextline without the evaluation of declarations and statements. */
    method DoLine(s: string) returns (o: Outcome)
      requires Valid() && Contents() == []
      modifies this, stack
      ensures Valid() && Did(o, NextLine(st, s))
    {
      var i := 0;
      assert s[0..] == s;
      while i < |s| && s[i] == '\n'
        invariant i <= |s| && NextLine(st, s[i..]) == NextLine(st, s)
      {
        assert s[i..][1..] == s[i + 1..] && s[i..][0] == '\n';
        i := i + 1;
      }
      if i == |s| {
        assert s[i..] == [];
        return Fine;
      }
      var l := ReadLine(s[i..]);
      if l[|l| - 1] != '\n' {
        return if |l| < LINESIZ - 1 then Fault(NoNewline) else Fault(LongLine);
      }
      o := Eval(l);
    }

    /** eval over a line cut into words by strtok. */
    method Eval(line: string) returns (o: Outcome)
      requires Valid()
      modifies this, stack
      ensures Valid() && Did(o, Run(st, old(Contents()), Split(line, 0)))
    {
      var i := 0;
      o := Fine;
      while i < |line|
        invariant i <= |line| && Valid() && o.Fine?
        invariant Run(st, Contents(), Split(line, i)) == Run(st, old(Contents()), Split(line, 0))
      {
        if Delim(line[i]) {
          i := i + 1;
        } else {
          var e := i + 1;
          while e < |line| && !Delim(line[e])
            invariant i < e <= |line| && WordEnd(line, e) == WordEnd(line, i + 1)
          {
            e := e + 1;
          }
          SplitStep(st, Contents(), line, i, e);
          if KindOf(line[i]).KNone? {
            return Fine;
          }
          o := DoWord(line[i..e]);
          if o.Fault? {
            return;
          }
          i := e;
        }
      }
    }
  }

  /** fgets: characters up to the newline, as long as the buffer has room. */
  method ReadLine(s: string) returns (l: string)
    ensures l == Fgets(s)
  {
    var i := 0;
    while i < |s| && i < LINESIZ - 1
      invariant i <= |s| && i <= LINESIZ - 1 && LineEnd(s, 0) == LineEnd(s, i)
      decreases |s| - i
    {
      if s[i] == '\n' {
        return s[..i + 1];
      }
      i := i + 1;
    }
    return s[..i];
  }

  lemma SplitStep(st: nat -> Type, stack: seq<Node>, line: string, i: nat, e: nat)
    requires i < e <= |line| && !Delim(line[i]) && WordEnd(line, i + 1) == e
    ensures Run(st, stack, Split(line, i)) ==
      if KindOf(line[i]).KNone? then Stack(stack)
      else var r := Step(st, stack, line[i..e]); if r.Stack? then Run(st, r.nodes, Split(line, e)) else r
  {
    assert line[i..e][0] == line[i];
    if !KindOf(line[i]).KNone? {
      RunWord(st, stack, line[i..e], Split(line, e));
    }
  }

  /** Print a tree with cc1 and read it with cc2. */
  method Transport(st: nat -> Type, t: Tree) returns (o: Outcome, n: Node)
    requires Good(t)
    ensures o == if ReadBack(st, t).Stack? then Fine else Fault(ReadBack(st, t))
    ensures o.Fine? ==> n == Rebuilt(st, t)
  {
    var printer := new Printer();
    printer.EmitNode(t);
    RoundTrip(st, t, []);
    assert printer.out + "\n" + [] == Printed(t) + [];
    var parser := new Parser(st);
    o := parser.DoLine(printer.out + "\n");
    assert printer.out + "\n" == printer.out + "\n" + [];
    n := Nil;
    if o.Fine? {
      var added;
      o, added := parser.Statement();
      n := added[0];
    }
  }
}
