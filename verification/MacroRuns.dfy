/** Whole runs of the preprocessor, and a text that shows where it leaves section 6.10.3.4 of
    C99. */
module MacroRuns {

  import opened Options
  import opened MacroStack
  import opened MacroText
  import opened MacroLevels
  import opened Preprocessor
  import opened MacroStandard
  import opened MacroAgree

  /** Read a text to its end.  The run always ends, and when it is not stopped the tokens are
      those of the expansion and no symbol is left hidden. */
  method Preprocess(tb: Table, text: seq<Token>) returns (c: Copied, lexer: Lexer)
    requires WellFormedTable(tb)
    ensures c.Text? ==> Expand(tb, text, {}, false).status == Ok && c.text == Expand(tb, text, {}, false).out
    ensures c.Failed? ==> c.status == Expand(tb, text, {}, false).status != Ok
    ensures c.Full? ==> |tb.macros| > NR_MACROARG
    ensures c.Text? ==> lexer.m == Machine([Plain([])], {})
  {
    lexer := new Lexer(tb, text);
    ghost var m1, d: set<Sym> := lexer.m, {};
    Stays(tb, m1);
    var buf := [];
    while true
      invariant lexer.tb == tb && lexer.Ready() && Advances(tb, m1, lexer.m, buf, d)
      decreases Rest(tb, lexer.m).cost
    {
      ghost var m2 := lexer.m;
      var r; ghost var d2;
      r, d2 := lexer.Next();
      match r {
        case TooComplex => return Full, lexer;
        case Stop(st) => return Failed(st), lexer;
        case Tok(tok) =>
          Compose(tb, m1, m2, lexer.m, buf, d, [tok], d2);
          buf, d := buf + [tok], d + d2;
        case Eof =>
          Compose(tb, m1, m2, lexer.m, buf, d, [], d2);
          PlainEnd(tb, lexer.m);
          assert lexer.m.stack[..0] == [] && lexer.m.stack == [Plain([])];
          assert buf + [] + [] == buf;
          return Text(buf), lexer;
      }
    }
  }

  // ----- arguments that expand nothing -----

  ghost predicate Quiet(tb: Table, text: seq<Token>, hidden: set<Sym>) {
    forall i :: 0 <= i < |text| ==> !Expandable(tb, text[i], hidden)
  }

  /** A text without names to expand is its own expansion. */
  lemma {:induction false} QuietText(tb: Table, text: seq<Token>, hidden: set<Sym>, follow: bool)
    requires WellFormedTable(tb) && Quiet(tb, text, hidden)
    ensures Expand(tb, text, hidden, follow) == Result(Ok, text, {}, |text|)
    decreases |text|
  {
    if text != [] {
      assert forall i :: 0 <= i < |text[1..]| ==> text[1..][i] == text[i + 1];
      QuietText(tb, text[1..], hidden, follow);
      assert [text[0]] + text[1..] == text;
    }
  }

  lemma {:induction false} QuietC99(tb: Table, text: seq<Token>, hidden: set<Sym>, follow: bool)
    requires WellFormedTable(tb) && Quiet(tb, text, hidden)
    ensures var r := ExpandC99(tb, text, hidden, follow); r.status == Ok && r.touched == {}
    decreases |text|
  {
    if text != [] {
      assert forall i :: 0 <= i < |text[1..]| ==> text[1..][i] == text[i + 1];
      QuietC99(tb, text[1..], hidden, follow);
    }
  }

  /** With quiet arguments the rescan hides the macro's own symbol and no other, which is what
      section 6.10.3.4 asks for: the condition of agreement holds at such an invocation. */
  lemma {:induction false} QuietArguments(tb: Table, body: seq<Item>, k: nat, args: seq<seq<Token>>, hidden: set<Sym>, n: nat)
    requires WellFormedTable(tb) && k <= |body|
    requires forall j :: 0 <= j < |body| && (body[j].Par? || body[j].Str?) ==> body[j].i < |args|
    requires forall i :: 0 <= i < |args| ==> |args[i]| < n && Quiet(tb, args[i], hidden)
    ensures Build(tb, body, k, args, hidden, n).status == Ok && Build(tb, body, k, args, hidden, n).touched == {}
    ensures BuildC99(tb, body, k, args, hidden, n).status == Ok && BuildC99(tb, body, k, args, hidden, n).touched == {}
    ensures forall y: Result, s :: y.touched !! BuildC99(tb, body, k, args, hidden, n).touched - {s}
    decreases k
  {
    if k > 0 {
      QuietArguments(tb, body, k - 1, args, hidden, n);
      if body[k - 1].Par? {
        QuietText(tb, args[body[k - 1].i], hidden, false);
        QuietC99(tb, args[body[k - 1].i], hidden, false);
      }
    }
  }

  lemma ExpandInvoked(tb: Table, text: seq<Token>, hidden: set<Sym>, args: seq<seq<Token>>, rest: seq<Token>, b: Result, d: set<Sym>)
    requires WellFormedTable(tb) && text != [] && Expandable(tb, text[0], hidden)
    requires ParsePars(tb.macros[text[0].sym], text[1..], false) == Invoke(args, rest)
    requires b == Build(tb, tb.macros[text[0].sym].body, |tb.macros[text[0].sym].body|, args, hidden, |text|)
    requires b.status == Ok && d == b.touched + {text[0].sym}
    ensures Expand(tb, text, hidden, false)
         == Entering(Expand(tb, b.out, hidden + d, Opens(rest, false)), Expand(tb, rest, hidden, false), d, b.cost)
  {
  }

  /** A replacement list without parameters is copied as it stands. */
  lemma BuildOneLit(tb: Table, t: Token, hidden: set<Sym>, n: nat)
    requires WellFormedTable(tb)
    ensures Build(tb, [Lit(t)], 1, [], hidden, n) == Result(Ok, [t], {}, 0)
  {
    assert Build(tb, [Lit(t)], 0, [], hidden, n) == Result(Ok, [], {}, 0);
    assert [] + [t] == [t];
  }

  lemma BuildParLit(tb: Table, t: Token, arg: seq<Token>, hidden: set<Sym>, n: nat)
    requires WellFormedTable(tb) && |arg| < n && Expand(tb, arg, hidden, false).status == Ok
    ensures var r, b := Expand(tb, arg, hidden, false), Build(tb, [Par(0), Lit(t)], 2, [arg], hidden, n);
      b.status == Ok && b.out == r.out + [t] && b.touched == r.touched
  {
    var r, body := Expand(tb, arg, hidden, false), [Par(0), Lit(t)];
    assert Build(tb, body, 0, [arg], hidden, n) == Result(Ok, [], {}, 0);
    assert !BesideCat(body, 0) && [] + r.out == r.out && {} + r.touched == r.touched;
    assert Build(tb, body, 1, [arg], hidden, n) == Result(Ok, r.out, r.touched, r.cost + 1);
  }

  lemma ExpandsToOne(tb: Table, b: Sym, text: seq<Token>, hidden: set<Sym>)
    requires WellFormedTable(tb) && b in tb.macros && tb.macros[b] == Def(-1, [Lit(Other(1))]) && b !in hidden
    requires text == [Id(b)]
    ensures var r := Expand(tb, text, hidden, false);
      r.status == Ok && r.out == [Other(1)] && r.touched == {b}
  {
    BuildOneLit(tb, Other(1), hidden, 1);
    ExpandInvoked(tb, text, hidden, [], [], Result(Ok, [Other(1)], {}, 0), {} + {b});
    QuietText(tb, [Other(1)], hidden + ({} + {b}), false);
    assert [Other(1)] + [] == [Other(1)];
  }

  lemma OneArgument(text: seq<Token>, t: Token)
    requires text == [t, Close] && t.Id?
    ensures Arguments(text) == Some(([[t]], []))
  {
    assert text[1..] == [Close] && text[1..][1..] == [];
    assert Argument(text[1..], 0) == Some(Piece([], true, []));
    assert [t] + [] == [t];
  }

  // ----- the same invocation by the standard -----

  lemma ExpandInvokedC99(tb: Table, text: seq<Token>, hidden: set<Sym>, args: seq<seq<Token>>, rest: seq<Token>, b: Result)
    requires WellFormedTable(tb) && text != [] && Expandable(tb, text[0], hidden)
    requires ParsePars(tb.macros[text[0].sym], text[1..], false) == Invoke(args, rest)
    requires b == BuildC99(tb, tb.macros[text[0].sym].body, |tb.macros[text[0].sym].body|, args, hidden, |text|)
    requires b.status == Ok
    ensures ExpandC99(tb, text, hidden, false)
         == Entering(ExpandC99(tb, b.out, hidden + {text[0].sym}, Opens(rest, false)),
                     ExpandC99(tb, rest, hidden, false), b.touched + {text[0].sym}, b.cost)
  {
  }

  lemma OneByC99(tb: Table, text: seq<Token>, hidden: set<Sym>)
    requires WellFormedTable(tb) && text == [Other(1)]
    ensures ExpandC99(tb, text, hidden, false) == Result(Ok, [Other(1)], {}, 1)
  {
    assert text[1..] == [];
  }

  lemma ExpandsToOneC99(tb: Table, b: Sym, text: seq<Token>, hidden: set<Sym>)
    requires WellFormedTable(tb) && b in tb.macros && tb.macros[b] == Def(-1, [Lit(Other(1))]) && b !in hidden
    requires text == [Id(b)]
    ensures var r := ExpandC99(tb, text, hidden, false);
      r.status == Ok && r.out == [Other(1)] && r.touched == {b}
  {
    var body := [Lit(Other(1))];
    assert BuildC99(tb, body, 0, [], hidden, 1) == Result(Ok, [], {}, 0);
    assert BuildC99(tb, body, 1, [], hidden, 1).out == [] + [Other(1)] == [Other(1)];
    ExpandInvokedC99(tb, text, hidden, [], [], BuildC99(tb, body, 1, [], hidden, 1));
    OneByC99(tb, [Other(1)], hidden + {b});
  }

  lemma BuildParLitC99(tb: Table, t: Token, arg: seq<Token>, hidden: set<Sym>, n: nat)
    requires WellFormedTable(tb) && |arg| < n && ExpandC99(tb, arg, hidden, false).status == Ok
    ensures var r, b := ExpandC99(tb, arg, hidden, false), BuildC99(tb, [Par(0), Lit(t)], 2, [arg], hidden, n);
      b.status == Ok && b.out == r.out + [t] && b.touched == r.touched
  {
    var r, body := ExpandC99(tb, arg, hidden, false), [Par(0), Lit(t)];
    PastedBeside(body, 0);
    assert BuildC99(tb, body, 0, [arg], hidden, n) == Result(Ok, [], {}, 0);
    assert !BesideCat(body, 0) && [] + r.out == r.out && {} + r.touched == r.touched;
    assert BuildC99(tb, body, 1, [arg], hidden, n) == Result(Ok, r.out, r.touched, r.cost + 1);
  }

  /** The rescan of `1 B` by the standard: B is not hidden. */
  lemma OneThenB(tb: Table, b: Sym, text: seq<Token>, hidden: set<Sym>)
    requires WellFormedTable(tb) && b in tb.macros && tb.macros[b] == Def(-1, [Lit(Other(1))]) && b !in hidden
    requires text == [Other(1), Id(b)]
    ensures var r := ExpandC99(tb, text, hidden, false); r.status == Ok && r.out == [Other(1), Other(1)]
  {
    assert text[1..] == [Id(b)];
    ExpandsToOneC99(tb, b, [Id(b)], hidden);
  }

  lemma ByC99(tb: Table, f: Sym, b: Sym, text: seq<Token>)
    requires f != b && tb.macros == map[f := Def(1, [Par(0), Lit(Id(b))]), b := Def(-1, [Lit(Other(1))])]
    requires text == [Id(f), Open, Id(b), Close]
    ensures WellFormedTable(tb)
    ensures var r := ExpandC99(tb, text, {}, false); r.status == Ok && r.out == [Other(1), Other(1)]
  {
    assert text[1..][1..] == [Id(b), Close];
    OneArgument([Id(b), Close], Id(b));
    ExpandsToOneC99(tb, b, [Id(b)], {});
    BuildParLitC99(tb, Id(b), [Id(b)], {}, 4);
    var z := BuildC99(tb, [Par(0), Lit(Id(b))], 2, [[Id(b)]], {}, 4);
    ExpandInvokedC99(tb, text, {}, [[Id(b)]], [], z);
    OneThenB(tb, b, z.out, {} + {f});
    assert [Other(1), Other(1)] + [] == [Other(1), Other(1)];
  }

  lemma ByCode(tb: Table, f: Sym, b: Sym, text: seq<Token>)
    requires f != b && tb.macros == map[f := Def(1, [Par(0), Lit(Id(b))]), b := Def(-1, [Lit(Other(1))])]
    requires text == [Id(f), Open, Id(b), Close]
    ensures WellFormedTable(tb)
    ensures var r := Expand(tb, text, {}, false); r.status == Ok && r.out == [Other(1), Id(b)]
  {
    assert text[1..][1..] == [Id(b), Close];
    OneArgument([Id(b), Close], Id(b));
    ExpandsToOne(tb, b, [Id(b)], {});
    BuildParLit(tb, Id(b), [Id(b)], {}, 4);
    var z := Build(tb, [Par(0), Lit(Id(b))], 2, [[Id(b)]], {}, 4);
    ExpandInvoked(tb, text, {}, [[Id(b)]], [], z, z.touched + {f});
    QuietText(tb, z.out, {} + (z.touched + {f}), false);
  }

  /** A name expanded in an argument stays hidden in the rescan: with F(x) standing for `x B`
      and B for 1, F(B) gives `1 B` where section 6.10.3.4 asks for `1 1`. */
  lemma ArgumentHides(tb: Table, f: Sym, b: Sym, text: seq<Token>)
    requires f != b && tb.macros == map[f := Def(1, [Par(0), Lit(Id(b))]), b := Def(-1, [Lit(Other(1))])]
    requires text == [Id(f), Open, Id(b), Close]
    ensures WellFormedTable(tb)
    ensures var code, c99 := Expand(tb, text, {}, false), ExpandC99(tb, text, {}, false);
      && code.status == c99.status == Ok
      && code.out == [Other(1), Id(b)] && c99.out == [Other(1), Other(1)]
      && code.out != Bare(c99.out)
    ensures Unpainted(tb) ==> !Separate(tb, text, {}, false)
  {
    ByCode(tb, f, b, text);
    ByC99(tb, f, b, text);
    var code, c99 := Expand(tb, text, {}, false), ExpandC99(tb, text, {}, false);
    assert code.out[1] == Id(b) && Bare(c99.out)[1] == Other(1);
    if Unpainted(tb) && Separate(tb, text, {}, false) {
      AgreesWithC99(tb, text, false);
    }
  }
}
