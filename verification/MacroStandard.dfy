/** Macro replacement as section 6.10.3.4 of C99 describes it, and when the preprocessor agrees. */
module MacroStandard {

  import opened Options
  import opened MacroStack
  import opened MacroText

  // ----- the reference -----

  function Spell(t: Token): Token {
    if t.Blue? then Id(t.sym) else t
  }

  /** A text without its paint. */
  function Bare(text: seq<Token>): (r: seq<Token>)
    ensures |r| == |text| && forall i :: 0 <= i < |text| ==> r[i] == Spell(text[i])
  {
    seq(|text|, i requires 0 <= i < |text| => Spell(text[i]))
  }

  function BareAll(args: seq<seq<Token>>): (r: seq<seq<Token>>)
    ensures |r| == |args| && forall i :: 0 <= i < |args| ==> r[i] == Bare(args[i])
  {
    seq(|args|, i requires 0 <= i < |args| => Bare(args[i]))
  }

  /** A name found while its own macro is being replaced is not replaced, and never will be. */
  function Paint(tb: Table, t: Token, hidden: set<Sym>): Token {
    if t.Id? && t.sym in tb.macros && t.sym in hidden then Blue(t.sym) else t
  }

  function JoinC99(tb: Table, buf: seq<Token>, piece: seq<Token>, glued: bool): seq<Token> {
    if glued && buf != [] && piece != [] then
      buf[..|buf| - 1] + tb.glue(Spell(buf[|buf| - 1]), Spell(piece[0])) + piece[1..]
    else buf + piece
  }

  /** Section 6.10.3.1: a parameter preceded by `#` or `##`, or followed by `##`, is not replaced. */
  predicate Pasted(body: seq<Item>, k: nat)
    requires k < |body|
  {
    exists j :: 0 <= j < |body| && (j == k - 1 || j == k + 1) && body[j].Cat?
  }

  function BuildC99(tb: Table, body: seq<Item>, k: nat, args: seq<seq<Token>>, hidden: set<Sym>, n: nat): Result
    requires WellFormedTable(tb) && k <= |body|
    requires forall j :: 0 <= j < |body| && (body[j].Par? || body[j].Str?) ==> body[j].i < |args|
    requires forall i :: 0 <= i < |args| ==> |args[i]| < n
    decreases Free(tb, hidden), n, k
  {
    if k == 0 then Result(Ok, [], {}, 0)
    else
      var b := BuildC99(tb, body, k - 1, args, hidden, n);
      if b.status != Ok then b
      else
        var it, glued := body[k - 1], k > 1 && body[k - 2].Cat?;
        match it
        case Lit(t) => b.(out := JoinC99(tb, b.out, [t], glued))
        case Str(i) => b.(out := JoinC99(tb, b.out, [tb.quote(Bare(args[i]))], glued))
        case Cat => b
        case Par(i) =>
          if Pasted(body, k - 1) then b.(out := JoinC99(tb, b.out, args[i], glued))
          else
            var r := ExpandC99(tb, args[i], hidden, false);
            Result(r.status, JoinC99(tb, b.out, r.out, glued), b.touched + r.touched, b.cost + r.cost + 1)
  }

  /** Arguments are replaced first, as if they were the rest of the file; the result is scanned
      again with the macro's own name, and no other, hidden in addition. */
  function ExpandC99(tb: Table, text: seq<Token>, hidden: set<Sym>, follow: bool): Result
    requires WellFormedTable(tb)
    decreases Free(tb, hidden), |text| + 1, 0
  {
    if text == [] then Result(Ok, [], {}, 0)
    else
      var t, rest := text[0], text[1..];
      var call := if Expandable(tb, t, hidden) then ParsePars(tb.macros[t.sym], rest, follow) else Name;
      match call
      case Bad(st) => Result(st, [], {t.sym}, 0)
      case Name =>
        var r := ExpandC99(tb, rest, hidden, follow);
        r.(out := [Paint(tb, t, hidden)] + r.out, cost := r.cost + 1)
      case Invoke(args, rest2) =>
        var b := BuildC99(tb, tb.macros[t.sym].body, |tb.macros[t.sym].body|, args, hidden, |text|);
        var d := b.touched + {t.sym};
        if b.status != Ok then Result(b.status, [], d, b.cost + 1)
        else
          FreeShrinks(tb, hidden, hidden + {t.sym}, t.sym);
          var r := ExpandC99(tb, b.out, hidden + {t.sym}, Opens(rest2, follow));
          if r.status != Ok then Result(r.status, r.out, d + r.touched, b.cost + r.cost + 2)
          else
            var q := ExpandC99(tb, rest2, hidden, follow);
            Result(q.status, r.out + q.out, d + r.touched + q.touched, b.cost + r.cost + q.cost + 2)
  }

  // ----- when hiding more cannot be noticed -----

  ghost predicate NoBlue(text: seq<Token>) {
    forall i :: 0 <= i < |text| ==> !text[i].Blue?
  }

  /** Paint comes from replacement only, not from definitions, joining or quoting. */
  ghost predicate Unpainted(tb: Table) {
    && (forall s, j :: s in tb.macros && 0 <= j < |tb.macros[s].body| && tb.macros[s].body[j].Lit? ==>
          !tb.macros[s].body[j].tok.Blue?)
    && (forall l, r :: NoBlue(tb.glue(l, r)))
    && (forall a :: !tb.quote(a).Blue?)
  }

  /** The element `j` of the list is an argument that is replaced before it is put there. */
  predicate Replaced(body: seq<Item>, j: nat) {
    j < |body| && body[j].Par? && !Pasted(body, j)
  }

  /** The condition: at no invocation is a symbol that was replaced in the arguments replaced again
      when the replacement list is scanned. */
  ghost predicate Separate(tb: Table, text: seq<Token>, hidden: set<Sym>, follow: bool)
    requires WellFormedTable(tb)
    decreases Free(tb, hidden), |text| + 1, 0
  {
    text == [] ||
    var t, rest := text[0], text[1..];
    var call := if Expandable(tb, t, hidden) then ParsePars(tb.macros[t.sym], rest, follow) else Name;
    match call
    case Bad(_) => true
    case Name => Separate(tb, rest, hidden, follow)
    case Invoke(args, rest2) =>
      var body := tb.macros[t.sym].body;
      && (forall j: nat :: Replaced(body, j) ==> Separate(tb, args[body[j].i], hidden, false))
      && (var b := BuildC99(tb, body, |body|, args, hidden, |text|);
          if b.status != Ok then true
          else
            FreeShrinks(tb, hidden, hidden + {t.sym}, t.sym);
            var r := ExpandC99(tb, b.out, hidden + {t.sym}, Opens(rest2, follow));
            && r.touched !! b.touched - {t.sym}
            && Separate(tb, b.out, hidden + {t.sym}, Opens(rest2, follow))
            && (r.status == Ok ==> Separate(tb, rest2, hidden, follow)))
  }
}
