/** What macro expansion does to a text: argument lists, replacement lists with `#` and `##`,
    and the whole expansion as one recursive function that always terminates. */
module MacroText {

  import opened Options
  import opened MacroStack

  // ----- argument lists -----

  /** One argument, the comma or parenthesis that ended it, and what follows. */
  datatype Piece = Piece(arg: seq<Token>, last: bool, rest: seq<Token>)

  /** parameter() and paren(): up to a comma or a closing parenthesis outside all others. */
  function Argument(text: seq<Token>, depth: nat): (r: Option<Piece>)
    ensures r.Some? ==> |r.value.arg| < |text| && |r.value.rest| < |text|
  {
    if text == [] then None
    else if depth == 0 && text[0].Close? then Some(Piece([], true, text[1..]))
    else if depth == 0 && text[0].Comma? then Some(Piece([], false, text[1..]))
    else
      var d := if text[0].Open? then depth + 1 else if text[0].Close? then depth - 1 else depth;
      var r := Argument(text[1..], d);
      if r.None? then None else Some(r.value.(arg := [text[0]] + r.value.arg))
  }

  /** The arguments of an invocation, from behind its opening parenthesis. */
  function Arguments(text: seq<Token>): (r: Option<(seq<seq<Token>>, seq<Token>)>)
    ensures r.Some? ==> |r.value.0| > 0 && |r.value.1| < |text|
    ensures r.Some? ==> forall i :: 0 <= i < |r.value.0| ==> |r.value.0[i]| < |text|
    decreases |text|
  {
    var p := Argument(text, 0);
    if p.None? then None
    else if p.value.last then Some(([p.value.arg], p.value.rest))
    else
      var r := Arguments(p.value.rest);
      if r.None? then None else Some(([p.value.arg] + r.value.0, r.value.1))
  }

  /** The text of an argument list, closing parenthesis included. */
  function Spelled(args: seq<seq<Token>>): seq<Token> {
    if args == [] then []
    else if |args| == 1 then args[0] + [Close]
    else args[0] + [Comma] + Spelled(args[1..])
  }

  /** Depth after reading `text`, when it never closes more than is open and shows no comma
      at depth 0. */
  ghost predicate Nested(text: seq<Token>, depth: nat) {
    if text == [] then depth == 0
    else if text[0].Open? then Nested(text[1..], depth + 1)
    else if text[0].Close? then depth > 0 && Nested(text[1..], depth - 1)
    else if text[0].Comma? then depth > 0 && Nested(text[1..], depth)
    else Nested(text[1..], depth)
  }

  lemma InFrontOf(t: Token, a: seq<Token>, m: Token, r: seq<Token>)
    ensures [t] + (a + [m] + r) == ([t] + a) + [m] + r
  {
  }

  lemma {:induction false} ArgumentSpelled(text: seq<Token>, depth: nat)
    requires Argument(text, depth).Some?
    ensures var p := Argument(text, depth).value;
      text == p.arg + [if p.last then Close else Comma] + p.rest && Nested(p.arg, depth)
  {
    if !(depth == 0 && (text[0].Close? || text[0].Comma?)) {
      var d := if text[0].Open? then depth + 1 else if text[0].Close? then depth - 1 else depth;
      ArgumentSpelled(text[1..], d);
      var p, q := Argument(text, depth).value, Argument(text[1..], d).value;
      assert p.arg[1..] == q.arg;
      InFrontOf(text[0], q.arg, if q.last then Close else Comma, q.rest);
      assert text == [text[0]] + text[1..];
    } else {
      assert text == [text[0]] + text[1..];
    }
  }

  /** Nothing of an argument list is lost or made up, and every argument has its parentheses
      matched and no comma outside them. */
  lemma {:induction false} ArgumentsSpelled(text: seq<Token>)
    requires Arguments(text).Some?
    ensures var (args, rest) := Arguments(text).value;
      text == Spelled(args) + rest && forall i :: 0 <= i < |args| ==> Nested(args[i], 0)
    decreases |text|
  {
    var p := Argument(text, 0).value;
    ArgumentSpelled(text, 0);
    if !p.last {
      ArgumentsSpelled(p.rest);
      var (args, rest) := Arguments(text).value;
      assert args[1..] == Arguments(p.rest).value.0;
    }
  }

  /** The only such reading: an argument list ends where its parentheses say. */
  lemma {:induction false} ArgumentUnique(arg: seq<Token>, last: bool, rest: seq<Token>, depth: nat)
    requires Nested(arg, depth)
    ensures Argument(arg + [if last then Close else Comma] + rest, depth) == Some(Piece(arg, last, rest))
  {
    var text := arg + [if last then Close else Comma] + rest;
    if arg == [] {
      assert text[1..] == rest;
    } else {
      var d := if arg[0].Open? then depth + 1 else if arg[0].Close? then depth - 1 else depth;
      ArgumentUnique(arg[1..], last, rest, d);
      assert text[1..] == arg[1..] + [if last then Close else Comma] + rest;
      assert arg == [arg[0]] + arg[1..];
    }
  }

  // ----- definitions -----

  /** One element of a replacement list; Cat is `##` and Str is `#` on a parameter. */
  datatype Item = Lit(tok: Token) | Par(i: nat) | Str(i: nat) | Cat

  /** `npars` is -1 for an object-like macro. */
  datatype Def = Def(npars: int, body: seq<Item>)

  /** The macro table, with the lexer's reading of two spellings put together and the string
      that quotes an argument. */
  datatype Table = Table(
    macros: map<Sym, Def>,
    glue: (Token, Token) -> seq<Token>,
    quote: seq<Token> -> Token)

  predicate WellFormed(def: Def) {
    -1 <= def.npars < NR_MACROARG as int
    && forall k :: 0 <= k < |def.body| && (def.body[k].Par? || def.body[k].Str?) ==> def.body[k].i < def.npars
  }

  predicate WellFormedTable(tb: Table) {
    forall s :: s in tb.macros ==> WellFormed(tb.macros[s])
  }

  /** concatoper: a parameter beside `##` is copied without being expanded. */
  predicate BesideCat(body: seq<Item>, k: nat)
    requires k < |body|
  {
    (k + 1 < |body| && body[k + 1].Cat?) || (k > 0 && body[k - 1].Cat?)
  }

  /** Append to the buffer, joining at the seam when `##` came before. */
  function Join(tb: Table, buf: seq<Token>, piece: seq<Token>, glued: bool): seq<Token> {
    if glued && buf != [] && piece != [] then
      buf[..|buf| - 1] + tb.glue(buf[|buf| - 1], piece[0]) + piece[1..]
    else buf + piece
  }

  // ----- expansion -----

  /** How expanding a text ends: whole, at an invocation whose arguments do not end in the same
      input, or at an invocation with the wrong number of arguments. */
  datatype Status = Ok | Crossed | BadCall

  /** The tokens produced, the symbols expanded on the way, and the steps it takes. */
  datatype Result = Result(status: Status, out: seq<Token>, touched: set<Sym>, cost: nat)

  /** What a name that can be expanded stands for. */
  datatype Call = Name | Bad(status: Status) | Invoke(args: seq<seq<Token>>, rest: seq<Token>)

  predicate Opens(text: seq<Token>, follow: bool) {
    if text == [] then follow else text[0].Open?
  }

  /** parsepars on the text behind the name; `follow` says that a parenthesis comes after it in
      the inputs below. */
  function ParsePars(def: Def, rest: seq<Token>, follow: bool): (r: Call)
    ensures r.Invoke? ==> |r.rest| <= |rest| && forall i :: 0 <= i < |r.args| ==> |r.args[i]| < |rest|
    ensures r.Invoke? && def.npars >= 0 ==> |r.args| == def.npars
  {
    if def.npars == -1 then Invoke([], rest)
    else if !Opens(rest, follow) then Name
    else if rest == [] then Bad(Crossed)
    else if def.npars == 0 && |rest| > 1 && rest[1].Close? then Invoke([], rest[2..])
    else
      var r := Arguments(rest[1..]);
      if r.None? then Bad(Crossed)
      else if |r.value.0| != def.npars then Bad(BadCall)
      else Invoke(r.value.0, r.value.1)
  }

  predicate Expandable(tb: Table, t: Token, hidden: set<Sym>) {
    t.Id? && t.sym in tb.macros && t.sym !in hidden
  }

  function Free(tb: Table, hidden: set<Sym>): nat {
    |tb.macros.Keys - hidden|
  }

  lemma FreeShrinks(tb: Table, hidden: set<Sym>, more: set<Sym>, s: Sym)
    requires s in tb.macros && s !in hidden && s in more && hidden <= more
    ensures Free(tb, more) < Free(tb, hidden)
  {
    var a, b := tb.macros.Keys - more, tb.macros.Keys - hidden;
    assert s in b && a <= b - {s};
    SubsetSize(a, b - {s});
  }

  lemma {:induction false} SubsetSize(a: set<Sym>, b: set<Sym>)
    requires a <= b
    ensures |a| <= |b|
  {
    if a != {} {
      var x :| x in a;
      SubsetSize(a - {x}, b - {x});
    }
  }

  /** copymacro on the first `k` elements: each parameter is expanded anew where it stands, with
      the macro's own symbol not yet hidden. */
  function Build(tb: Table, body: seq<Item>, k: nat, args: seq<seq<Token>>, hidden: set<Sym>, n: nat): Result
    requires WellFormedTable(tb) && k <= |body|
    requires forall j :: 0 <= j < |body| && (body[j].Par? || body[j].Str?) ==> body[j].i < |args|
    requires forall i :: 0 <= i < |args| ==> |args[i]| < n
    decreases Free(tb, hidden), n, k
  {
    if k == 0 then Result(Ok, [], {}, 0)
    else
      var b := Build(tb, body, k - 1, args, hidden, n);
      if b.status != Ok then b
      else
        var it, glued := body[k - 1], k > 1 && body[k - 2].Cat?;
        match it
        case Lit(t) => b.(out := Join(tb, b.out, [t], glued))
        case Str(i) => b.(out := Join(tb, b.out, [tb.quote(args[i])], glued))
        case Cat => b
        case Par(i) =>
          if BesideCat(body, k - 1) then b.(out := Join(tb, b.out, args[i], glued))
          else
            var r := Expand(tb, args[i], hidden, false);
            Result(r.status, Join(tb, b.out, r.out, glued), b.touched + r.touched, b.cost + r.cost + 1)
  }

  /** The expansion of a text with some symbols hidden.  An invocation is replaced by its
      expanded replacement list, rescanned with its own symbol hidden and with every symbol
      hidden that its arguments expanded. */
  function Expand(tb: Table, text: seq<Token>, hidden: set<Sym>, follow: bool): Result
    requires WellFormedTable(tb)
    decreases Free(tb, hidden), |text| + 1, 0
  {
    if text == [] then Result(Ok, [], {}, 0)
    else
      var t, rest := text[0], text[1..];
      var call := if Expandable(tb, t, hidden) then ParsePars(tb.macros[t.sym], rest, follow) else Name;
      match call
      case Bad(st) => Result(st, [], {}, 0)
      case Name =>
        var r := Expand(tb, rest, hidden, follow);
        r.(out := [t] + r.out, cost := r.cost + 1)
      case Invoke(args, rest2) =>
        var b := Build(tb, tb.macros[t.sym].body, |tb.macros[t.sym].body|, args, hidden, |text|);
        var d := b.touched + {t.sym};
        if b.status != Ok then Result(b.status, [], d, b.cost + 1)
        else
          FreeShrinks(tb, hidden, hidden + d, t.sym);
          var r := Expand(tb, b.out, hidden + d, Opens(rest2, follow));
          if r.status != Ok then Result(r.status, r.out, d + r.touched, b.cost + r.cost + 2)
          else
            var q := Expand(tb, rest2, hidden, follow);
            Result(q.status, r.out + q.out, d + r.touched + q.touched, b.cost + r.cost + q.cost + 2)
  }
}
