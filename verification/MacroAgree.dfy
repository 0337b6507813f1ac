/** The preprocessor's expansion is that of section 6.10.3.4 of C99 wherever its extra hiding cannot
    be noticed. */
module MacroAgree {

  import opened Options
  import opened MacroStack
  import opened MacroText
  import opened MacroStandard

  // ----- paint does not change how a text is cut up -----

  lemma BareConcat(a: seq<Token>, b: seq<Token>)
    ensures Bare(a + b) == Bare(a) + Bare(b)
  {
  }

  lemma BareTail(text: seq<Token>, n: nat)
    requires n <= |text|
    ensures Bare(text)[n..] == Bare(text[n..]) && Bare(text)[..n] == Bare(text[..n])
  {
  }

  function BarePiece(p: Option<Piece>): Option<Piece> {
    if p.None? then None else Some(Piece(Bare(p.value.arg), p.value.last, Bare(p.value.rest)))
  }

  lemma {:induction false} ArgumentBare(text: seq<Token>, depth: nat)
    ensures Argument(Bare(text), depth) == BarePiece(Argument(text, depth))
  {
    if text != [] {
      BareTail(text, 1);
      if depth == 0 && (text[0].Close? || text[0].Comma?) {
        assert Bare([]) == [];
      } else {
        var d := if text[0].Open? then depth + 1 else if text[0].Close? then depth - 1 else depth;
        ArgumentBare(text[1..], d);
        var r := Argument(text[1..], d);
        if r.Some? {
          BareConcat([text[0]], r.value.arg);
          assert Bare([text[0]]) == [Spell(text[0])];
        }
      }
    }
  }

  function BareList(r: Option<(seq<seq<Token>>, seq<Token>)>): Option<(seq<seq<Token>>, seq<Token>)> {
    if r.None? then None else Some((BareAll(r.value.0), Bare(r.value.1)))
  }

  lemma BareCons(arg: seq<Token>, args: seq<seq<Token>>)
    ensures BareAll([arg] + args) == [Bare(arg)] + BareAll(args) && BareAll([arg]) == [Bare(arg)]
  {
  }

  lemma {:induction false} ArgumentsBare(text: seq<Token>)
    ensures Arguments(Bare(text)) == BareList(Arguments(text))
    decreases |text|
  {
    ArgumentBare(text, 0);
    var p := Argument(text, 0);
    if p.Some? && p.value.last {
      BareCons(p.value.arg, []);
    } else if p.Some? {
      ArgumentsBare(p.value.rest);
      var r := Arguments(p.value.rest);
      if r.Some? {
        BareCons(p.value.arg, r.value.0);
      }
    }
  }

  function BareCall(c: Call): Call {
    match c
    case Name => Name
    case Bad(st) => Bad(st)
    case Invoke(args, rest) => Invoke(BareAll(args), Bare(rest))
  }

  lemma ParseParsBare(def: Def, rest: seq<Token>, follow: bool)
    ensures ParsePars(def, Bare(rest), follow) == BareCall(ParsePars(def, rest, follow))
  {
    assert BareAll([]) == [];
    if rest != [] && rest[0].Open? {
      BareTail(rest, 1);
      ArgumentsBare(rest[1..]);
      if |rest| > 1 {
        BareTail(rest, 2);
      }
    }
  }

  /** concatoper finds what section 6.10.3.1 asks for. */
  lemma PastedBeside(body: seq<Item>, k: nat)
    requires k < |body|
    ensures Pasted(body, k) <==> BesideCat(body, k)
  {
    if k + 1 < |body| && body[k + 1].Cat? {
      assert Pasted(body, k);
    }
    if k > 0 && body[k - 1].Cat? {
      assert Pasted(body, k);
    }
  }

  // ----- where painted names come from -----

  ghost predicate BluesIn(text: seq<Token>, b: set<Sym>) {
    forall i :: 0 <= i < |text| && text[i].Blue? ==> text[i].sym in b
  }

  lemma BluesConcat(a: seq<Token>, c: seq<Token>, b: set<Sym>)
    ensures BluesIn(a + c, b) <==> BluesIn(a, b) && BluesIn(c, b)
  {
    assert forall i :: 0 <= i < |a| ==> (a + c)[i] == a[i];
    assert forall i :: 0 <= i < |c| ==> (a + c)[|a| + i] == c[i];
  }

  lemma BluesPart(text: seq<Token>, i: nat, j: nat, b: set<Sym>)
    requires BluesIn(text, b) && i <= j <= |text|
    ensures BluesIn(text[i..j], b)
  {
  }

  lemma BluesTail(text: seq<Token>, i: nat, b: set<Sym>)
    requires BluesIn(text, b) && i <= |text|
    ensures BluesIn(text[i..], b)
  {
    BluesPart(text, i, |text|, b);
    assert text[i..|text|] == text[i..];
  }

  lemma BluesMore(text: seq<Token>, b: set<Sym>, c: set<Sym>)
    requires BluesIn(text, b) && b <= c
    ensures BluesIn(text, c)
  {
  }

  lemma {:induction false} ArgumentBlues(text: seq<Token>, depth: nat, b: set<Sym>)
    requires BluesIn(text, b) && Argument(text, depth).Some?
    ensures BluesIn(Argument(text, depth).value.arg, b) && BluesIn(Argument(text, depth).value.rest, b)
  {
    ArgumentSpelled(text, depth);
    var p := Argument(text, depth).value;
    var m := [if p.last then Close else Comma];
    BluesConcat(p.arg + m, p.rest, b);
    BluesConcat(p.arg, m, b);
  }

  lemma {:induction false} ArgumentsBlues(text: seq<Token>, b: set<Sym>)
    requires BluesIn(text, b) && Arguments(text).Some?
    ensures var (args, rest) := Arguments(text).value;
      BluesIn(rest, b) && forall i :: 0 <= i < |args| ==> BluesIn(args[i], b)
    decreases |text|
  {
    ArgumentBlues(text, 0, b);
    var p := Argument(text, 0).value;
    if !p.last {
      ArgumentsBlues(p.rest, b);
    }
  }

  lemma ParseParsBlues(def: Def, rest: seq<Token>, follow: bool, b: set<Sym>)
    requires BluesIn(rest, b) && ParsePars(def, rest, follow).Invoke?
    ensures var c := ParsePars(def, rest, follow);
      BluesIn(c.rest, b) && forall i :: 0 <= i < |c.args| ==> BluesIn(c.args[i], b)
  {
    if def.npars != -1 {
      BluesTail(rest, 1, b);
      if def.npars == 0 && |rest| > 1 && rest[1].Close? {
        BluesTail(rest, 2, b);
      } else {
        ArgumentsBlues(rest[1..], b);
      }
    }
  }

  lemma JoinBlues(tb: Table, buf: seq<Token>, piece: seq<Token>, glued: bool, b: set<Sym>)
    requires Unpainted(tb) && BluesIn(buf, b) && BluesIn(piece, b)
    ensures BluesIn(JoinC99(tb, buf, piece, glued), b)
  {
    if glued && buf != [] && piece != [] {
      var mid := tb.glue(Spell(buf[|buf| - 1]), Spell(piece[0]));
      assert NoBlue(mid);
      BluesPart(buf, 0, |buf| - 1, b);
      assert buf[0..|buf| - 1] == buf[..|buf| - 1];
      BluesTail(piece, 1, b);
      BluesConcat(buf[..|buf| - 1], mid, b);
      BluesConcat(buf[..|buf| - 1] + mid, piece[1..], b);
    } else {
      BluesConcat(buf, piece, b);
    }
  }

  ghost predicate BareBody(body: seq<Item>) {
    forall j :: 0 <= j < |body| && body[j].Lit? ==> !body[j].tok.Blue?
  }

  lemma {:induction false} BuildBlues(tb: Table, body: seq<Item>, j: nat, args: seq<seq<Token>>, h: set<Sym>, n: nat, b: set<Sym>)
    requires WellFormedTable(tb) && Unpainted(tb) && j <= |body| && BareBody(body)
    requires forall i :: 0 <= i < |body| && (body[i].Par? || body[i].Str?) ==> body[i].i < |args|
    requires forall i :: 0 <= i < |args| ==> |args[i]| < n && BluesIn(args[i], b)
    ensures var r := BuildC99(tb, body, j, args, h, n); BluesIn(r.out, b + h + r.touched)
    decreases Free(tb, h), n, j + 1
  {
    if j > 0 {
      BuildBlues(tb, body, j - 1, args, h, n, b);
      var p, r := BuildC99(tb, body, j - 1, args, h, n), BuildC99(tb, body, j, args, h, n);
      if p.status == Ok {
        var it, glued := body[j - 1], j > 1 && body[j - 2].Cat?;
        match it
        case Lit(t) =>
          JoinBlues(tb, p.out, [t], glued, b + h + p.touched);
        case Str(i) =>
          JoinBlues(tb, p.out, [tb.quote(Bare(args[i]))], glued, b + h + p.touched);
        case Cat =>
        case Par(i) =>
          if Pasted(body, j - 1) {
            BluesMore(args[i], b, b + h + p.touched);
            JoinBlues(tb, p.out, args[i], glued, b + h + p.touched);
          } else {
            ExpandBlues(tb, args[i], h, false, b);
            var e := ExpandC99(tb, args[i], h, false);
            BluesMore(e.out, b + h + e.touched, b + h + r.touched);
            BluesMore(p.out, b + h + p.touched, b + h + r.touched);
            JoinBlues(tb, p.out, e.out, glued, b + h + r.touched);
          }
      }
    }
  }

  /** Painted names were painted already, hidden or replaced. */
  lemma {:induction false} ExpandBlues(tb: Table, text: seq<Token>, h: set<Sym>, follow: bool, b: set<Sym>)
    requires WellFormedTable(tb) && Unpainted(tb) && BluesIn(text, b)
    ensures var r := ExpandC99(tb, text, h, follow); BluesIn(r.out, b + h + r.touched)
    decreases Free(tb, h), |text| + 1, 1
  {
    if text != [] {
      var t, rest := text[0], text[1..];
      BluesTail(text, 1, b);
      var call := if Expandable(tb, t, h) then ParsePars(tb.macros[t.sym], rest, follow) else Name;
      match call
      case Bad(_) =>
      case Name =>
        ExpandBlues(tb, rest, h, follow, b);
        var r := ExpandC99(tb, rest, h, follow);
        BluesConcat([Paint(tb, t, h)], r.out, b + h + r.touched);
      case Invoke(args, rest2) => InvokeBlues(tb, text, h, follow, b, args, rest2);
    }
  }

  lemma {:induction false} InvokeBlues(tb: Table, text: seq<Token>, h: set<Sym>, follow: bool, b: set<Sym>,
                                       args: seq<seq<Token>>, rest2: seq<Token>)
    requires WellFormedTable(tb) && Unpainted(tb) && BluesIn(text, b) && text != [] && Expandable(tb, text[0], h)
    requires ParsePars(tb.macros[text[0].sym], text[1..], follow) == Invoke(args, rest2)
    ensures var r := ExpandC99(tb, text, h, follow); BluesIn(r.out, b + h + r.touched)
    decreases Free(tb, h), |text| + 1, 0
  {
    var s := text[0].sym;
    var body := tb.macros[s].body;
    BluesTail(text, 1, b);
    ParseParsBlues(tb.macros[s], text[1..], follow, b);
    BuildBlues(tb, body, |body|, args, h, |text|, b);
    var z := BuildC99(tb, body, |body|, args, h, |text|);
    if z.status == Ok {
      FreeShrinks(tb, h, h + {s}, s);
      ExpandBlues(tb, z.out, h + {s}, Opens(rest2, follow), b + h + z.touched);
      ExpandBlues(tb, rest2, h, follow, b);
      var r := ExpandC99(tb, z.out, h + {s}, Opens(rest2, follow));
      var q := ExpandC99(tb, rest2, h, follow);
      var all := ExpandC99(tb, text, h, follow);
      BluesMore(r.out, b + h + z.touched + (h + {s}) + r.touched, b + h + all.touched);
      if r.status == Ok {
        BluesMore(q.out, b + h + q.touched, b + h + all.touched);
        BluesConcat(r.out, q.out, b + h + all.touched);
      }
    }
  }

  // ----- agreement -----

  /** The same tokens but for the paint and, in an expansion that succeeds, the same symbols
      replaced in as many steps. */
  ghost predicate Alike(a: Result, b: Result) {
    a.status == b.status && a.out == Bare(b.out) && (b.status == Ok ==> a.touched == b.touched && a.cost == b.cost)
  }

  lemma JoinBare(tb: Table, buf: seq<Token>, piece: seq<Token>, glued: bool)
    requires Unpainted(tb)
    ensures Join(tb, Bare(buf), Bare(piece), glued) == Bare(JoinC99(tb, buf, piece, glued))
  {
    if glued && buf != [] && piece != [] {
      var mid := tb.glue(Spell(buf[|buf| - 1]), Spell(piece[0]));
      assert NoBlue(mid);
      assert Bare(mid) == mid;
      BareTail(buf, |buf| - 1);
      BareTail(piece, 1);
      BareConcat(buf[..|buf| - 1], mid);
      BareConcat(buf[..|buf| - 1] + mid, piece[1..]);
    } else {
      BareConcat(buf, piece);
    }
  }

  lemma {:induction false} BuildAgree(tb: Table, body: seq<Item>, j: nat, args: seq<seq<Token>>, h: set<Sym>, d: set<Sym>, n: nat)
    requires WellFormedTable(tb) && Unpainted(tb) && j <= |body| && BareBody(body)
    requires forall i :: 0 <= i < |body| && (body[i].Par? || body[i].Str?) ==> body[i].i < |args|
    requires forall i :: 0 <= i < |args| ==> |args[i]| < n && BluesIn(args[i], h + d)
    requires forall i: nat :: Replaced(body, i) ==> Separate(tb, args[body[i].i], h, false)
    requires BuildC99(tb, body, j, args, h, n).touched !! d
    ensures Alike(Build(tb, body, j, BareAll(args), h + d, n), BuildC99(tb, body, j, args, h, n))
    decreases Free(tb, h), n, j + 1
  {
    assert Bare([]) == [];
    if j > 0 {
      BuildAgree(tb, body, j - 1, args, h, d, n);
      var p := BuildC99(tb, body, j - 1, args, h, n);
      if p.status == Ok {
        var it, glued := body[j - 1], j > 1 && body[j - 2].Cat?;
        match it
        case Lit(t) =>
          assert Bare([t]) == [t];
          JoinBare(tb, p.out, [t], glued);
        case Str(i) =>
          var q := tb.quote(Bare(args[i]));
          assert Bare([q]) == [q];
          JoinBare(tb, p.out, [q], glued);
        case Cat =>
        case Par(i) =>
          PastedBeside(body, j - 1);
          if Pasted(body, j - 1) {
            JoinBare(tb, p.out, args[i], glued);
          } else {
            assert Replaced(body, j - 1);
            ExpandAgree(tb, args[i], h, d, false);
            JoinBare(tb, p.out, ExpandC99(tb, args[i], h, false).out, glued);
          }
      }
    }
  }

  /** `d` is hidden by the preprocessor only: no matter, when the standard replaces none of it. */
  lemma {:induction false} ExpandAgree(tb: Table, text: seq<Token>, h: set<Sym>, d: set<Sym>, follow: bool)
    requires WellFormedTable(tb) && Unpainted(tb) && BluesIn(text, h + d)
    requires Separate(tb, text, h, follow) && ExpandC99(tb, text, h, follow).touched !! d
    ensures Alike(Expand(tb, Bare(text), h + d, follow), ExpandC99(tb, text, h, follow))
    decreases Free(tb, h), |text| + 1, 1
  {
    assert Bare([]) == [];
    if text != [] {
      var t, rest := text[0], text[1..];
      BluesTail(text, 1, h + d);
      BareTail(text, 1);
      if Expandable(tb, t, h) {
        ParseParsBare(tb.macros[t.sym], rest, follow);
      }
      var call := if Expandable(tb, t, h) then ParsePars(tb.macros[t.sym], rest, follow) else Name;
      match call
      case Bad(_) =>
      case Name =>
        ExpandAgree(tb, rest, h, d, follow);
        BareConcat([Paint(tb, t, h)], ExpandC99(tb, rest, h, follow).out);
        assert Bare([Paint(tb, t, h)]) == [Spell(t)];
      case Invoke(args, rest2) => InvokeAgree(tb, text, h, d, follow, args, rest2);
    }
  }

  lemma {:induction false} InvokeAgree(tb: Table, text: seq<Token>, h: set<Sym>, d: set<Sym>, follow: bool,
                                       args: seq<seq<Token>>, rest2: seq<Token>)
    requires WellFormedTable(tb) && Unpainted(tb) && BluesIn(text, h + d)
    requires text != [] && Expandable(tb, text[0], h) && Separate(tb, text, h, follow)
    requires ParsePars(tb.macros[text[0].sym], text[1..], follow) == Invoke(args, rest2)
    requires ExpandC99(tb, text, h, follow).touched !! d
    ensures Alike(Expand(tb, Bare(text), h + d, follow), ExpandC99(tb, text, h, follow))
    decreases Free(tb, h), |text| + 1, 0
  {
    var s := text[0].sym;
    var body := tb.macros[s].body;
    BluesTail(text, 1, h + d);
    BareTail(text, 1);
    ParseParsBare(tb.macros[s], text[1..], follow);
    ParseParsBlues(tb.macros[s], text[1..], follow, h + d);
    BuildAgree(tb, body, |body|, args, h, d, |text|);
    var z := BuildC99(tb, body, |body|, args, h, |text|);
    if z.status == Ok {
      BuildBlues(tb, body, |body|, args, h, |text|, h + d);
      InvokeWhole(tb, Bare(text), h + d, follow, BareAll(args), Bare(rest2), z.touched + {s});
      BehindList(tb, text, h, d, s, follow, rest2, Build(tb, body, |body|, BareAll(args), h + d, |text|), z);
    }
  }

  /** The rescan and the text behind the invocation. */
  lemma {:induction false} BehindList(tb: Table, text: seq<Token>, h: set<Sym>, d: set<Sym>, s: Sym, follow: bool, rest2: seq<Token>,
                                      b: Result, z: Result)
    requires WellFormedTable(tb) && Unpainted(tb) && s in tb.macros && s !in h && Alike(b, z) && z.status == Ok
    requires BluesIn(z.out, h + d + h + z.touched) && BluesIn(rest2, h + d) && |rest2| < |text|
    requires var follow2 := Opens(rest2, follow);
      var y := ExpandC99(tb, z.out, h + {s}, follow2);
      && y.touched !! d && y.touched !! z.touched - {s} && Separate(tb, z.out, h + {s}, follow2)
      && (y.status == Ok ==> Separate(tb, rest2, h, follow) && ExpandC99(tb, rest2, h, follow).touched !! d)
    ensures Alike(Whole(b, Expand(tb, Bare(z.out), h + d + (z.touched + {s}), Opens(Bare(rest2), follow)),
                        Expand(tb, Bare(rest2), h + d, follow), z.touched + {s}),
                  Whole(z, ExpandC99(tb, z.out, h + {s}, Opens(rest2, follow)), ExpandC99(tb, rest2, h, follow), z.touched + {s}))
    decreases Free(tb, h), |text|, 2
  {
    var follow2 := Opens(rest2, follow);
    assert Opens(Bare(rest2), follow) == follow2;
    RescanAgree(tb, z, h, d, s, follow2);
    var y := ExpandC99(tb, z.out, h + {s}, follow2);
    if y.status == Ok {
      ExpandAgree(tb, rest2, h, d, follow);
    }
    InvokeAlike(b, z, Expand(tb, Bare(z.out), h + d + (z.touched + {s}), follow2), y,
                Expand(tb, Bare(rest2), h + d, follow), ExpandC99(tb, rest2, h, follow), z.touched + {s});
  }

  /** What an invocation comes to, from its list, the rescan and what follows. */
  function Whole(b: Result, x: Result, q: Result, d: set<Sym>): Result {
    if x.status != Ok then Result(x.status, x.out, d + x.touched, b.cost + x.cost + 2)
    else Result(q.status, x.out + q.out, d + x.touched + q.touched, b.cost + x.cost + q.cost + 2)
  }

  lemma InvokeWhole(tb: Table, text: seq<Token>, h: set<Sym>, follow: bool, args: seq<seq<Token>>, rest2: seq<Token>, d: set<Sym>)
    requires WellFormedTable(tb) && text != [] && Expandable(tb, text[0], h)
    requires ParsePars(tb.macros[text[0].sym], text[1..], follow) == Invoke(args, rest2)
    requires var body := tb.macros[text[0].sym].body;
      var b := Build(tb, body, |body|, args, h, |text|); b.status == Ok && d == b.touched + {text[0].sym}
    ensures var body := tb.macros[text[0].sym].body;
      var b := Build(tb, body, |body|, args, h, |text|);
      Expand(tb, text, h, follow) == Whole(b, Expand(tb, b.out, h + d, Opens(rest2, follow)), Expand(tb, rest2, h, follow), d)
  {
  }

  lemma InvokeAlike(b: Result, c: Result, x: Result, y: Result, q: Result, r: Result, d: set<Sym>)
    requires Alike(b, c) && c.status == Ok && Alike(x, y) && (y.status == Ok ==> Alike(q, r))
    ensures Alike(Whole(b, x, q, d), Whole(c, y, r, d))
  {
    BareConcat(y.out, r.out);
  }

  /** The replacement list: more is hidden than the standard hides, and none of it is replaced. */
  lemma {:induction false} RescanAgree(tb: Table, z: Result, h: set<Sym>, d: set<Sym>, s: Sym, follow: bool)
    requires WellFormedTable(tb) && Unpainted(tb) && s in tb.macros && s !in h
    requires BluesIn(z.out, h + d + h + z.touched) && Separate(tb, z.out, h + {s}, follow)
    requires ExpandC99(tb, z.out, h + {s}, follow).touched !! d
    requires ExpandC99(tb, z.out, h + {s}, follow).touched !! z.touched - {s}
    ensures Alike(Expand(tb, Bare(z.out), h + d + (z.touched + {s}), follow), ExpandC99(tb, z.out, h + {s}, follow))
    decreases Free(tb, h), 0, 0
  {
    var dd := d + (z.touched - {s});
    FreeShrinks(tb, h, h + {s}, s);
    BluesMore(z.out, h + d + h + z.touched, (h + {s}) + dd);
    ExpandAgree(tb, z.out, h + {s}, dd, follow);
    assert (h + {s}) + dd == h + d + (z.touched + {s});
  }

  // ----- the theorem -----

  /** For every text and table that meets the condition, the preprocessor produces the tokens that
      section 6.10.3.4 prescribes. */
  lemma AgreesWithC99(tb: Table, text: seq<Token>, follow: bool)
    requires WellFormedTable(tb) && Unpainted(tb) && NoBlue(text) && Separate(tb, text, {}, follow)
    ensures var a, b := Expand(tb, text, {}, follow), ExpandC99(tb, text, {}, follow);
      a.status == b.status && a.out == Bare(b.out)
  {
    ExpandAgree(tb, text, {}, {}, follow);
    assert Bare(text) == text;
    var none: set<Sym> := {};
    assert none + none == none;
  }
}
