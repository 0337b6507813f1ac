/** cc2's reader of the typed postfix text: a stack of nodes in a fixed array. */
module IrParse {

  import opened Numbers
  import opened IrTree

  const STACKSIZ: nat := 50

  datatype Op = OAuto | OReg | OMem | OConst | OColon | OAssign(sub: string) | Of(c: char)

  datatype NodeType = Untyped | Typed(ty: Type)

  /** A cc2 node; `info` is the symbol or the value, Nil the null pointer. */
  datatype Node = Nil | Node(op: Op, info: nat, ty: NodeType, left: Node, right: Node)

  /** What a word leaves: a stack, or the error that ends cc2. */
  datatype Parsed =
    | Stack(nodes: seq<Node>)
    | Overflow | Underflow | Syntax | BadId | LongLine | NoNewline | Unaligned
    | Unmodelled  // a parse function that does not occur in expressions

  // ----- one word -----

  function Atoi(s: string): nat {
    Value(s[..DigitsEnd(s, 0, 10)], 10)
  }

  datatype TypeRead = Got(ty: Type) | Fails(error: Parsed)

  /** gettype: the type goes over the stack, so it needs a free place. */
  function GetType(n: nat, s: string): (r: TypeRead)
    ensures r.Fails? ==> !r.error.Stack?
  {
    if s == [] || KindOf(s[0]).KNone? then Fails(Syntax)
    else if !IsBasic(s[0]) && !IsAggregate(s[0]) then Fails(Unmodelled)
    else if IsAggregate(s[0]) && Atoi(s[1..]) >= USHRT_MAX then Fails(BadId)
    else if n == STACKSIZ then Fails(Overflow)
    else Got(if IsBasic(s[0]) then Base(s[0]) else Agg(s[0], Atoi(s[1..])))
  }

  function Push(stack: seq<Node>, n: Node): Parsed {
    if |stack| == STACKSIZ then Overflow else Stack(stack + [n])
  }

  function StorageOp(c: char): Op {
    if c == 'A' then OAuto else if c == 'R' then OReg else OMem
  }

  function Symbol(st: nat -> Type, stack: seq<Node>, w: string): Parsed
    requires w != []
  {
    var id := Atoi(w[1..]);
    if id >= USHRT_MAX then BadId
    else Push(stack, Node(StorageOp(w[0]), id, Typed(st(id)), Nil, Nil))
  }

  function Constant(stack: seq<Node>, w: string): Parsed
    requires w != []
  {
    var t := GetType(|stack|, w[1..]);
    if t.Fails? then t.error
    else if !AllDigits(w[2..], 16) then Syntax
    else Push(stack, Node(OConst, Value(w[2..], 16) % 0x1_0000_0000_0000_0000, Typed(t.ty), Nil, Nil))
  }

  function UnaryStep(stack: seq<Node>, w: string): Parsed
    requires w != []
  {
    var t, n := GetType(|stack|, w[1..]), |stack|;
    if t.Fails? then t.error
    else if n < 1 then Underflow
    else Stack(stack[..n - 1] + [Node(Of(w[0]), 0, Typed(t.ty), stack[n - 1], Nil)])
  }

  /** binary and assign, which differ in the operator and where the type is. */
  function TwoStep(stack: seq<Node>, op: Op, tail: string): Parsed {
    var t, n := GetType(|stack|, tail), |stack|;
    if t.Fails? then t.error
    else if n < 2 then Underflow
    else Stack(stack[..n - 2] + [Node(op, 0, Typed(t.ty), stack[n - 2], stack[n - 1])])
  }

  function SubOp(w: string): string
    requires w != []
  {
    if |w| > 1 && IsSubOp(w[1]) then [w[1]] else []
  }

  function TernaryStep(stack: seq<Node>, w: string): Parsed
    requires w != []
  {
    var t, n := GetType(|stack|, w[1..]), |stack|;
    if t.Fails? then t.error
    else if n < 3 then Underflow
    else
      var colon := Node(OColon, 0, Untyped, stack[n - 2], stack[n - 1]);
      Stack(stack[..n - 3] + [Node(Of('?'), 0, Typed(t.ty), stack[n - 3], colon)])
  }

  predicate IsPar(n: Node) { n.Node? && n.op == Of('p') }

  datatype Taken = None | Some(fun: Node, pars: Node, rest: seq<Node>)

  /** The loop of call: parameters come off the stack last one first and are chained through
      their right links. */
  function TakePars(stack: seq<Node>, pars: Node): (r: Taken)
    ensures r.Some? ==> |r.rest| < |stack|
  {
    if stack == [] then None
    else
      var n := stack[|stack| - 1];
      if IsPar(n) then TakePars(stack[..|stack| - 1], n.(right := pars))
      else Some(n, pars, stack[..|stack| - 1])
  }

  function CallStep(stack: seq<Node>, w: string): Parsed
    requires w != []
  {
    var p := TakePars(stack, Nil);
    if p.None? then Underflow
    else
      var t := GetType(|p.rest|, w[1..]);
      if t.Fails? then t.error
      else Push(p.rest, Node(Of(w[0]), 0, Typed(t.ty), p.fun, p.pars))
  }

  /** A word at which eval stops: its letter has no parse function. */
  predicate Ends(w: string) { w == [] || KindOf(w[0]).KNone? }

  /** One word of an expression. */
  function Step(st: nat -> Type, stack: seq<Node>, w: string): Parsed {
    if w == [] then Stack(stack)
    else match KindOf(w[0])
      case KSymbol => Symbol(st, stack, w)
      case KConstant => Constant(stack, w)
      case KUnary => UnaryStep(stack, w)
      case KBinary => TwoStep(stack, Of(w[0]), w[1..])
      case KAssign => TwoStep(stack, OAssign(SubOp(w)), w[1 + |SubOp(w)|..])
      case KTernary => TernaryStep(stack, w)
      case KCall => CallStep(stack, w)
      case KOther => Unmodelled
      case KNone => Stack(stack)
  }

  /** eval: word after word until an error or a word without a parse function. */
  function Run(st: nat -> Type, stack: seq<Node>, words: seq<string>): Parsed
    decreases |words|
  {
    if words == [] || Ends(words[0]) then Stack(stack)
    else
      var r := Step(st, stack, words[0]);
      if r.Stack? then Run(st, r.nodes, words[1..]) else r
  }

  // ----- splitting a line -----

  predicate Delim(c: char) { c == '\t' || c == '\n' }

  /** Up to the next tab or newline. */
  function WordEnd(s: string, i: nat): (e: nat)
    requires i <= |s|
    ensures i <= e <= |s|
    decreases |s| - i
  {
    if i < |s| && !Delim(s[i]) then WordEnd(s, i + 1) else i
  }

  /** The words strtok finds from position `i` on. */
  function Split(s: string, i: nat): seq<string>
    requires i <= |s|
    decreases |s| - i
  {
    if i == |s| then []
    else if Delim(s[i]) then Split(s, i + 1)
    else
      var e := WordEnd(s, i + 1);
      [s[i..e]] + Split(s, e)
  }

  // ----- reading a line -----

  const LINESIZ: nat := 4095

  /** One past the first newline, or the end. */
  function LineEnd(s: string, i: nat): (e: nat)
    requires i <= |s|
    ensures i <= e <= |s|
    decreases |s| - i
  {
    if i == |s| then i else if s[i] == '\n' then i + 1 else LineEnd(s, i + 1)
  }

  /** fgets with a buffer of LINESIZ. */
  function Fgets(s: string): string {
    var e := LineEnd(s, 0);
    s[..if e < LINESIZ then e else LINESIZ - 1]
  }

  /** nextline on the input that is left: blank lines are skipped, a line that does not end in the
      buffer is an error, any other is evaluated on the empty stack. */
  function NextLine(st: nat -> Type, s: string): Parsed {
    if s == [] then Stack([])
    else if s[0] == '\n' then NextLine(st, s[1..])
    else
      var l := Fgets(s);
      if l[|l| - 1] != '\n' then (if |l| < LINESIZ - 1 then NoNewline else LongLine)
      else Run(st, [], Split(l, 0))
  }
}
