/** Expression trees as cc1 builds them, and the typed postfix text it prints for them. */
module IrTree {

  import opened Numbers
  import opened NumberText

  /** A type as its letter; arrays, structs and unions carry an identifier as well. */
  datatype Type = Base(letter: char) | Agg(letter: char, id: nat)

  /** cc1 chains the arguments of a call from the last one: each OPAR has the ones before it on
      its left. */
  datatype Pars = NoPars | Par(prev: Pars, ty: Type, arg: Tree)

  datatype Tree =
    | Var(class_: char, id: nat)
    | Const(ty: Type, val: int)
    | Unary(op: char, ty: Type, left: Tree)
    | Cast(ty: Type, left: Tree)
    | VoidCast(left: Tree)
    | Binary(op: char, ty: Type, left: Tree, right: Tree)
    | Assign(sub: string, ty: Type, left: Tree, right: Tree)
    | Ask(ty: Type, cond: Tree, left: Tree, right: Tree)
    | Call(op: char, ty: Type, fun: Tree, pars: Pars)

  // ----- the letters of the format -----

  /** The letters of types that are complete in themselves. */
  predicate IsBasic(c: char) {
    c == 'C' || c == 'I' || c == 'W' || c == 'Q' || c == 'K' || c == 'N' || c == 'Z' || c == 'O'
    || c == 'J' || c == 'D' || c == 'H' || c == '0' || c == 'B' || c == 'P' || c == 'E'
    || c == '1' || c == 'F'
  }

  /** Arrays, unions and structs. */
  predicate IsAggregate(c: char) { c == 'V' || c == 'U' || c == 'S' }

  /** What the first letter of a word says, as in cc2's table: KOther for parse functions that do
      not occur in expressions, KNone where the table has no parse function. */
  datatype Kind = KSymbol | KConstant | KUnary | KBinary | KAssign | KTernary | KCall | KOther | KNone

  function KindOf(c: char): Kind {
    if c == 'T' || c == 'Y' || c == 'G' || c == 'R' || c == 'M' || c == 'X' || c == 'A' then KSymbol
    else if c == '#' then KConstant
    else if c == '~' || c == '_' || c == '\'' || c == '@' || c == 'n' || c == 'g' || c == 'p' then KUnary
    else if c == 'a' || c == 'o' || c == '.' || c == '+' || c == '-' || c == '*' || c == '%' || c == '/' || c == 'l' || c == 'r'
         || c == '<' || c == '>' || c == '[' || c == ']' || c == '=' || c == '!' || c == '&' || c == '|' || c == '^' || c == ',' then KBinary
    else if c == ':' then KAssign
    else if c == '?' then KTernary
    else if c == 'c' || c == 'z' then KCall
    else if IsBasic(c) || IsAggregate(c) || c == 'L' || c == '"' || c == '(' || c == ')' || c == 'm' || c == 'j'
         || c == 'y' || c == 'h' || c == 'b' || c == 'e' || c == 'v' || c == 'f' || c == 't' || c == 's' then KOther
    else KNone
  }

  /** The operators that may stand behind the colon of an assignment. */
  predicate IsSubOp(c: char) {
    c == '+' || c == '-' || c == '*' || c == '%' || c == '/' || c == 'l' || c == 'r' || c == '&'
    || c == '|' || c == '^' || c == 'i' || c == 'd'
  }

  const USHRT_MAX: nat := 65535

  predicate GoodType(t: Type) {
    match t
    case Base(c) => IsBasic(c)
    case Agg(c, id) => IsAggregate(c) && id < USHRT_MAX
  }

  /** Bytes of a constant's type on amd64. */
  function Size(letter: char): nat {
    if letter in "CKB" then 1 else if letter in "IN" then 2 else if letter in "WZ" then 4 else 8
  }

  function TypeModulus(letter: char): (m: nat)
    ensures 0 < m <= 0x1_0000_0000_0000_0000
  {
    match Size(letter)
    case 1 => 0x100
    case 2 => 0x1_0000
    case 4 => 0x1_0000_0000
    case _ => 0x1_0000_0000_0000_0000
  }

  /** Trees cc1 prints: constants of integer, enumeration or pointer type, casts to scalars. */
  predicate Good(t: Tree) {
    match t
    case Var(c, id) => KindOf(c).KSymbol? && id < USHRT_MAX
    case Const(ty, _) => ty.Base? && GoodType(ty)
    case Unary(op, ty, l) => KindOf(op).KUnary? && op != 'g' && op != 'p' && GoodType(ty) && Good(l)
    case Cast(ty, l) => ty.Base? && GoodType(ty) && Good(l)
    case VoidCast(l) => Good(l)
    case Binary(op, ty, l, r) => KindOf(op).KBinary? && GoodType(ty) && Good(l) && Good(r)
    case Assign(sub, ty, l, r) => (sub == [] || (|sub| == 1 && IsSubOp(sub[0]))) && GoodType(ty) && Good(l) && Good(r)
    case Ask(ty, c, l, r) => GoodType(ty) && Good(c) && Good(l) && Good(r)
    case Call(op, ty, f, ps) => KindOf(op).KCall? && GoodType(ty) && Good(f) && GoodPars(ps)
  }

  predicate GoodPars(ps: Pars) {
    match ps
    case NoPars => true
    case Par(prev, ty, arg) => GoodPars(prev) && GoodType(ty) && Good(arg)
  }

  // ----- printing -----

  const DECIMAL := Conv(10, false, false, 0, "")
  const HEX := Conv(16, false, false, 0, "")

  /** emitletter */
  function TypeText(t: Type): string {
    match t
    case Base(c) => [c]
    case Agg(c, id) => [c] + Plain(id, DECIMAL)
  }

  /** The word printed for a node itself, without its children: none for a cast to void. */
  function Word(t: Tree): string {
    match t
    case Var(c, id) => [c] + Plain(id, DECIMAL)
    case Const(ty, v) => "#" + ([ty.letter] + Plain(v % TypeModulus(ty.letter), HEX))
    case Unary(op, ty, _) => [op] + TypeText(ty)
    case Cast(ty, _) => ['g', ty.letter]
    case VoidCast(_) => []
    case Binary(op, ty, _, _) => [op] + TypeText(ty)
    case Assign(sub, ty, _, _) => ":" + (sub + TypeText(ty))
    case Ask(ty, _, _, _) => "?" + TypeText(ty)
    case Call(op, ty, _, _) => [op] + TypeText(ty)
  }

  /** The words of a whole tree, in the order they are printed.  The colon of a conditional
      prints nothing. */
  function Words(t: Tree): seq<string> {
    match t
    case Var(_, _) => [Word(t)]
    case Const(_, _) => [Word(t)]
    case Unary(_, _, l) => Words(l) + [Word(t)]
    case Cast(_, l) => Words(l) + [Word(t)]
    case VoidCast(l) => Words(l)
    case Binary(_, _, l, r) => Words(l) + (Words(r) + [Word(t)])
    case Assign(_, _, l, r) => Words(l) + (Words(r) + [Word(t)])
    case Ask(_, c, l, r) => Words(c) + (Words(l) + (Words(r) + [Word(t)]))
    case Call(_, _, f, ps) => Words(f) + (ParWords(ps) + [Word(t)])
  }

  function ParWords(ps: Pars): seq<string> {
    match ps
    case NoPars => []
    case Par(prev, ty, arg) => ParWords(prev) + (Words(arg) + ["p" + TypeText(ty)])
  }

  /** Each word behind a tab. */
  function Line(words: seq<string>): string {
    if words == [] then [] else "\t" + words[0] + Line(words[1..])
  }

  lemma {:induction false} LineConcat(a: seq<string>, b: seq<string>)
    ensures Line(a + b) == Line(a) + Line(b)
  {
    if a == [] {
      assert a + b == b;
    } else {
      assert (a + b)[0] == a[0] && (a + b)[1..] == a[1..] + b;
      LineConcat(a[1..], b);
    }
  }

  lemma LineOne(w: string)
    ensures Line([w]) == "\t" + w
  {
    assert [w][1..] == [];
  }

  lemma Line2(o: string, a: seq<string>, b: seq<string>)
    ensures o + Line(a) + Line(b) == o + Line(a + b)
  {
    LineConcat(a, b);
    assert o + Line(a) + Line(b) == o + (Line(a) + Line(b));
  }

  lemma Line3(o: string, a: seq<string>, b: seq<string>, c: seq<string>)
    ensures o + Line(a) + Line(b) + Line(c) == o + Line(a + (b + c))
  {
    Line2(o + Line(a), b, c);
    Line2(o, a, b + c);
  }

  /** cc1's output file. */
  class Printer {
    var out: string

    constructor ()
      ensures out == []
    {
      out := [];
    }

    method Put(w: string)
      modifies this
      ensures out == old(out) + Line([w])
    {
      LineOne(w);
      out := out + ("\t" + w);
    }

    /** emitnode, through emitbin, emitcast and emitsym. */
    method EmitNode(t: Tree)
      modifies this
      ensures out == old(out) + Line(Words(t))
      decreases t, 2
    {
      match t {
        case Var(_, _) => Put(Word(t));
        case Const(_, _) => Put(Word(t));
        case VoidCast(l) => EmitNode(l);
        case Unary(_, _, l) => EmitOne(t, l);
        case Cast(_, l) => EmitOne(t, l);
        case Binary(_, _, l, r) => EmitTwo(t, l, r);
        case Assign(_, _, l, r) => EmitTwo(t, l, r);
        case Ask(_, c, l, r) =>
          ghost var o := out;
          EmitNode(c);
          EmitTwo(t, l, r);
          Line2(o, Words(c), Words(l) + (Words(r) + [Word(t)]));
        case Call(_, _, f, ps) =>
          ghost var o := out;
          EmitNode(f);
          EmitPars(ps);
          Put(Word(t));
          Line3(o, Words(f), ParWords(ps), [Word(t)]);
      }
    }

    method EmitOne(t: Tree, l: Tree)
      requires l < t
      modifies this
      ensures out == old(out) + Line(Words(l) + [Word(t)])
      decreases t, 1
    {
      ghost var o := out;
      EmitNode(l);
      Put(Word(t));
      Line2(o, Words(l), [Word(t)]);
    }

    method EmitTwo(t: Tree, l: Tree, r: Tree)
      requires l < t && r < t
      modifies this
      ensures out == old(out) + Line(Words(l) + (Words(r) + [Word(t)]))
      decreases t, 1
    {
      ghost var o := out;
      EmitNode(l);
      EmitNode(r);
      Put(Word(t));
      Line3(o, Words(l), Words(r), [Word(t)]);
    }

    method EmitPars(ps: Pars)
      modifies this
      ensures out == old(out) + Line(ParWords(ps))
      decreases ps, 2
    {
      match ps {
        case NoPars =>
        case Par(prev, ty, arg) =>
          ghost var o := out;
          EmitPars(prev);
          EmitNode(arg);
          Put("p" + TypeText(ty));
          Line3(o, ParWords(prev), Words(arg), ["p" + TypeText(ty)]);
      }
    }
  }
}
