/** What the letters of the postfix text stand for, written out. */
module IrLetters {
  import opened Numbers
  import opened NumberText
  import opened IrTree
  import opened IrParse
  import opened IrRoundTrip

  // ----- constants -----

  /** A constant arrives as the bits of its type. */
  ghost predicate ArrivesIn(st: nat -> Type, letter: char, v: int, bits: int)
    requires IsBasic(letter)
  {
    var n := Rebuilt(st, Const(Base(letter), v));
    && n.op == OConst && n.ty == Typed(Base(letter))
    && (0 <= v < bits ==> n.info == v)
    && (-bits <= v < 0 ==> n.info == v + bits)
    && 0 <= n.info < bits && exists q: int :: v == q * bits + n.info
  }

  predicate IsWidth(bits: int) {
    bits == 0x100 || bits == 0x1_0000 || bits == 0x1_0000_0000 || bits == 0x1_0000_0000_0000_0000
  }

  lemma Arrives(st: nat -> Type, letter: char, v: int, bits: int)
    requires IsBasic(letter) && IsWidth(bits) && Rebuilt(st, Const(Base(letter), v)).info == v % bits
    ensures ArrivesIn(st, letter, v, bits)
  {
    Quotient(v, bits);
  }

  lemma Quotient(v: int, bits: int)
    requires IsWidth(bits)
    ensures 0 <= v < bits ==> v % bits == v
    ensures -bits <= v < 0 ==> v % bits == v + bits
    ensures 0 <= v % bits < bits && exists q: int :: v == q * bits + v % bits
  {
    var q := v / bits;
    if bits == 0x100 {
      assert v == q * 0x100 + v % 0x100;
    } else if bits == 0x1_0000 {
      assert v == q * 0x1_0000 + v % 0x1_0000;
    } else if bits == 0x1_0000_0000 {
      assert v == q * 0x1_0000_0000 + v % 0x1_0000_0000;
    } else {
      assert v == q * 0x1_0000_0000_0000_0000 + v % 0x1_0000_0000_0000_0000;
    }
  }

  /** Every constant in the range of its type arrives unchanged, and a negative one as its two's
      complement: eight bits for char and bool, sixteen for short, thirty-two for int, sixty-four
      for everything else. */
  lemma ConstantsArrive(st: nat -> Type, letter: char, v: int)
    requires IsBasic(letter)
    ensures letter in "CKB" ==> ArrivesIn(st, letter, v, 0x100) && TypeModulus(letter) == 0x100
    ensures letter in "IN" ==> ArrivesIn(st, letter, v, 0x1_0000) && TypeModulus(letter) == 0x1_0000
    ensures letter in "WZ" ==> ArrivesIn(st, letter, v, 0x1_0000_0000) && TypeModulus(letter) == 0x1_0000_0000
    ensures letter !in "CKBINWZ" ==>
      ArrivesIn(st, letter, v, 0x1_0000_0000_0000_0000) && TypeModulus(letter) == 0x1_0000_0000_0000_0000
  {
    if letter in "CKB" {
      Arrives(st, letter, v, 0x100);
    } else if letter in "IN" {
      Arrives(st, letter, v, 0x1_0000);
    } else if letter in "WZ" {
      Arrives(st, letter, v, 0x1_0000_0000);
    } else {
      Arrives(st, letter, v, 0x1_0000_0000_0000_0000);
    }
  }

  // ----- words -----

  /** The storage classes, each with its operator. */
  lemma SymbolLetters(st: nat -> Type, c: char, id: nat)
    ensures KindOf(c).KSymbol? <==> c in "ARGXYTM"
    ensures Good(Var(c, id)) ==>
      Rebuilt(st, Var(c, id)) == Node(if c == 'A' then OAuto else if c == 'R' then OReg else OMem, id, Typed(st(id)), Nil, Nil)
  {
  }

  /** The letters of complete types, of types with an identifier, and of assignments that compute. */
  lemma TypeLetters(c: char)
    ensures IsBasic(c) <==> c in "CIWQKNZOJDH0BPE1F"
    ensures IsAggregate(c) <==> c in "VUS"
    ensures IsSubOp(c) <==> c in "+-*%/lr&|^id"
  {
  }

  lemma TypeWord(n: nat, t: char)
    requires t in "CIWQKNZOJDH0BPE1F" && n < STACKSIZ
    ensures GetType(n, [t]) == Got(Base(t))
  {
    TypeLetters(t);
  }

  /** The class of every letter. */
  lemma KindLetters(c: char)
    ensures KindOf(c).KUnary? <==> c in "~_'@gpn"
    ensures KindOf(c).KBinary? <==> c in "ao.+-*%/lr<>[]=!&|^,"
    ensures KindOf(c).KConstant? <==> c == '#'
    ensures KindOf(c).KAssign? <==> c == ':'
    ensures KindOf(c).KTernary? <==> c == '?'
    ensures KindOf(c).KCall? <==> c == 'c' || c == 'z'
  {
  }

  /** What a word of an operator letter and a type does to a stack with a free place: the operands it
      takes, and the node in their place. */
  lemma UnaryWords(st: nat -> Type, stack: seq<Node>, c: char, t: char)
    requires c in "~_'@gpn" && t in "CIWQKNZOJDH0BPE1F" && |stack| < STACKSIZ
    ensures Step(st, stack, [c, t]) ==
      if |stack| < 1 then Underflow
      else Stack(stack[..|stack| - 1] + [Node(Of(c), 0, Typed(Base(t)), stack[|stack| - 1], Nil)])
  {
    KindLetters(c);
    assert [c, t][1..] == [t];
    TypeWord(|stack|, t);
  }

  lemma BinaryWords(st: nat -> Type, stack: seq<Node>, c: char, t: char)
    requires c in "ao.+-*%/lr<>[]=!&|^," && t in "CIWQKNZOJDH0BPE1F" && |stack| < STACKSIZ
    ensures Step(st, stack, [c, t]) ==
      if |stack| < 2 then Underflow
      else Stack(stack[..|stack| - 2] + [Node(Of(c), 0, Typed(Base(t)), stack[|stack| - 2], stack[|stack| - 1])])
  {
    KindLetters(c);
    assert [c, t][1..] == [t];
    TypeWord(|stack|, t);
  }

  lemma TernaryWords(st: nat -> Type, stack: seq<Node>, t: char)
    requires t in "CIWQKNZOJDH0BPE1F" && |stack| < STACKSIZ
    ensures Step(st, stack, ['?', t]) ==
      if |stack| < 3 then Underflow
      else Stack(stack[..|stack| - 3]
                 + [Node(Of('?'), 0, Typed(Base(t)), stack[|stack| - 3],
                         Node(OColon, 0, Untyped, stack[|stack| - 2], stack[|stack| - 1]))])
  {
    assert ['?', t][1..] == [t];
    TypeWord(|stack|, t);
  }

  lemma AssignWords(st: nat -> Type, stack: seq<Node>, sub: char, t: char)
    requires t in "CIWQKNZOJDH0BPE1F" && |stack| < STACKSIZ
    ensures Step(st, stack, [':', t]) ==
        if |stack| < 2 then Underflow
        else Stack(stack[..|stack| - 2] + [Node(OAssign([]), 0, Typed(Base(t)), stack[|stack| - 2], stack[|stack| - 1])])
    ensures sub in "+-*%/lr&|^id" ==>
      Step(st, stack, [':', sub, t]) ==
        if |stack| < 2 then Underflow
        else Stack(stack[..|stack| - 2] + [Node(OAssign([sub]), 0, Typed(Base(t)), stack[|stack| - 2], stack[|stack| - 1])])
  {
    TypeLetters(t);
    TypeLetters(sub);
    TypeWord(|stack|, t);
    assert [':', t][1..] == [t] && [':', sub, t][2..] == [t];
  }

  lemma ParsedLetters(c: char)
    ensures c in "VUS" || c in "CIWQKNZOJDH0BPE1F" ==> !KindOf(c).KNone?
  {
  }

  lemma UnparsedLetters(c: char)
    requires c == 'i' || c == 'd' || c == '{' || c == '}' || c == '2' || c == ';'
    ensures KindOf(c).KNone? && !IsBasic(c) && !IsAggregate(c)
  {
  }

  /** What stands for no type: nothing, a letter without a parse function, an identifier out of range,
      and any type when the stack is full. */
  lemma TypeErrors(n: nat, s: string)
    ensures s == [] ==> GetType(n, s) == Fails(Syntax)
    ensures s != [] && s[0] in "VUS" ==>
      GetType(n, s) == if Atoi(s[1..]) >= 65535 then Fails(BadId) else if n == 50 then Fails(Overflow)
                       else Got(Agg(s[0], Atoi(s[1..])))
    ensures s != [] && s[0] in "CIWQKNZOJDH0BPE1F" ==>
      GetType(n, s) == if n == 50 then Fails(Overflow) else Got(Base(s[0]))
  {
    if s != [] {
      ParsedLetters(s[0]);
      TypeLetters(s[0]);
    }
  }

  lemma NoType(n: nat, s: string)
    requires s != [] && (s[0] == 'i' || s[0] == 'd' || s[0] == '{' || s[0] == '}' || s[0] == '2' || s[0] == ';')
    ensures GetType(n, s) == Fails(Syntax)
  {
    UnparsedLetters(s[0]);
  }

  /** Words end at tabs and at the end of the line. */
  lemma Delimiters(c: char)
    ensures Delim(c) <==> c == '\t' || c == '\n'
  {
  }

  /** An operator without a type is an error, also behind the operator of an assignment. */
  lemma BareOperators(st: nat -> Type, stack: seq<Node>, c: char, sub: char)
    ensures c in "~_'@gpn" || c in "ao.+-*%/lr<>[]=!&|^," || c == '?' || c == ':' ==> Step(st, stack, [c]) == Syntax
    ensures sub in "+-*%/lr&|^id" ==> Step(st, stack, [':', sub]) == Syntax
  {
    KindLetters(c);
    TypeLetters(sub);
    assert [c][1..] == [] && [':', sub][2..] == [];
  }

  /** A symbol is pushed by its identifier, and a constant as the hexadecimal number it spells,
      modulo 2^64. */
  lemma LeafWords(st: nat -> Type, stack: seq<Node>, c: char, digits: string, t: char)
    ensures c in "ARGXYTM" ==>
      Step(st, stack, [c] + digits) ==
        if Atoi(digits) >= 65535 then BadId
        else if |stack| == 50 then Overflow
        else Stack(stack + [Node(if c == 'A' then OAuto else if c == 'R' then OReg else OMem,
                                 Atoi(digits), Typed(st(Atoi(digits))), Nil, Nil)])
    ensures t in "CIWQKNZOJDH0BPE1F" ==>
      Step(st, stack, ['#', t] + digits) ==
        if |stack| == 50 then Overflow
        else if !AllDigits(digits, 16) then Syntax
        else Stack(stack + [Node(OConst, Value(digits, 16) % 18446744073709551616, Typed(Base(t)), Nil, Nil)])
  {
    SymbolLetters(st, c, 0);
    var w := ['#', t] + digits;
    assert ([c] + digits)[1..] == digits && w[1..] == [t] + digits && w[2..] == digits;
    TypeErrors(|stack|, w[1..]);
  }
}
