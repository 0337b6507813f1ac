/** The condition under which the preprocessor expands as section 6.10.3.4 of C99 prescribes is
    exact. */
module MacroExact {

  import opened Options
  import opened MacroStack
  import opened MacroText
  import opened MacroStandard
  import opened MacroAgree
  import MacroLevels

  /** At every invocation that the standard meets, the preprocessor's rescan, with all it hides,
      gives the same tokens by replacing the same symbols. */
  ghost predicate SameWay(tb: Table, text: seq<Token>, h: set<Sym>, d: set<Sym>, follow: bool)
    requires WellFormedTable(tb)
    decreases Free(tb, h), |text| + 1, 0
  {
    text == [] ||
    var t, rest := text[0], text[1..];
    var call := if Expandable(tb, t, h) then ParsePars(tb.macros[t.sym], rest, follow) else Name;
    match call
    case Bad(_) => true
    case Name => SameWay(tb, rest, h, d, follow)
    case Invoke(args, rest2) =>
      var body := tb.macros[t.sym].body;
      && (forall j: nat :: Replaced(body, j) ==> SameWay(tb, args[body[j].i], h, d, false))
      && (var b := BuildC99(tb, body, |body|, args, h, |text|);
          if b.status != Ok then true
          else
            FreeShrinks(tb, h, h + {t.sym}, t.sym);
            && Alike(Expand(tb, Bare(b.out), h + d + (b.touched + {t.sym}), Opens(rest2, follow)),
                     ExpandC99(tb, b.out, h + {t.sym}, Opens(rest2, follow)))
            && SameWay(tb, b.out, h + {t.sym}, d + (b.touched - {t.sym}), Opens(rest2, follow))
            && (ExpandC99(tb, b.out, h + {t.sym}, Opens(rest2, follow)).status == Ok ==> SameWay(tb, rest2, h, d, follow)))
  }

  /** The arguments of a list that was built were expanded whole. */
  lemma {:induction false} BuildParts(tb: Table, body: seq<Item>, j: nat, args: seq<seq<Token>>, h: set<Sym>, n: nat, i: nat)
    requires WellFormedTable(tb) && i < j <= |body| && Replaced(body, i)
    requires forall i :: 0 <= i < |body| && (body[i].Par? || body[i].Str?) ==> body[i].i < |args|
    requires forall i :: 0 <= i < |args| ==> |args[i]| < n
    requires BuildC99(tb, body, j, args, h, n).status == Ok
    ensures var e := ExpandC99(tb, args[body[i].i], h, false);
      e.status == Ok && e.touched <= BuildC99(tb, body, j, args, h, n).touched
    decreases j
  {
    if i < j - 1 {
      BuildParts(tb, body, j - 1, args, h, n, i);
    }
  }

  /** What the preprocessor replaces was not hidden, so it replaces what the standard replaces only
      where the standard replaces nothing of `e`. */
  lemma SameOnlyIf(tb: Table, text: seq<Token>, hidden: set<Sym>, follow: bool, y: Result, e: set<Sym>)
    requires WellFormedTable(tb) && Alike(Expand(tb, text, hidden, follow), y) && y.status == Ok && e <= hidden
    ensures y.touched !! e
  {
    MacroLevels.ExpandFresh(tb, text, hidden, follow);
  }

  lemma {:induction false} WayExactly(tb: Table, text: seq<Token>, h: set<Sym>, d: set<Sym>, follow: bool)
    requires WellFormedTable(tb) && Unpainted(tb) && BluesIn(text, h + d)
    requires var r := ExpandC99(tb, text, h, follow); r.status == Ok && r.touched !! d
    ensures SameWay(tb, text, h, d, follow) <==> Separate(tb, text, h, follow)
    decreases Free(tb, h), |text| + 1, 1
  {
    if text != [] {
      var t, rest := text[0], text[1..];
      BluesTail(text, 1, h + d);
      var call := if Expandable(tb, t, h) then ParsePars(tb.macros[t.sym], rest, follow) else Name;
      match call
      case Bad(_) =>
      case Name => WayExactly(tb, rest, h, d, follow);
      case Invoke(args, rest2) => InvokeExactly(tb, text, h, d, follow, args, rest2);
    }
  }

  lemma {:induction false} InvokeExactly(tb: Table, text: seq<Token>, h: set<Sym>, d: set<Sym>, follow: bool,
                                         args: seq<seq<Token>>, rest2: seq<Token>)
    requires WellFormedTable(tb) && Unpainted(tb) && BluesIn(text, h + d)
    requires text != [] && Expandable(tb, text[0], h)
    requires ParsePars(tb.macros[text[0].sym], text[1..], follow) == Invoke(args, rest2)
    requires var r := ExpandC99(tb, text, h, follow); r.status == Ok && r.touched !! d
    ensures SameWay(tb, text, h, d, follow) <==> Separate(tb, text, h, follow)
    decreases Free(tb, h), |text| + 1, 0
  {
    var s := text[0].sym;
    var body := tb.macros[s].body;
    BluesTail(text, 1, h + d);
    ParseParsBlues(tb.macros[s], text[1..], follow, h + d);
    var z := BuildC99(tb, body, |body|, args, h, |text|);
    forall j: nat | Replaced(body, j)
      ensures SameWay(tb, args[body[j].i], h, d, false) <==> Separate(tb, args[body[j].i], h, false)
    {
      BuildParts(tb, body, |body|, args, h, |text|, j);
      WayExactly(tb, args[body[j].i], h, d, false);
    }
    BuildBlues(tb, body, |body|, args, h, |text|, h + d);
    ScanExactly(tb, z, h, d, s, Opens(rest2, follow));
    WayExactly(tb, rest2, h, d, follow);
  }

  ghost predicate ScansSame(tb: Table, z: Result, h: set<Sym>, d: set<Sym>, s: Sym, follow: bool)
    requires WellFormedTable(tb)
  {
    && Alike(Expand(tb, Bare(z.out), h + d + (z.touched + {s}), follow), ExpandC99(tb, z.out, h + {s}, follow))
    && SameWay(tb, z.out, h + {s}, d + (z.touched - {s}), follow)
  }

  lemma {:induction false} ScanExactly(tb: Table, z: Result, h: set<Sym>, d: set<Sym>, s: Sym, follow: bool)
    requires WellFormedTable(tb) && Unpainted(tb) && s in tb.macros && s !in h
    requires BluesIn(z.out, h + d + h + z.touched)
    requires var y := ExpandC99(tb, z.out, h + {s}, follow); y.status == Ok && y.touched !! d
    ensures ScansSame(tb, z, h, d, s, follow) <==>
            ExpandC99(tb, z.out, h + {s}, follow).touched !! z.touched - {s} && Separate(tb, z.out, h + {s}, follow)
    decreases Free(tb, h), 0, 0
  {
    var y, dd := ExpandC99(tb, z.out, h + {s}, follow), d + (z.touched - {s});
    FreeShrinks(tb, h, h + {s}, s);
    if ScansSame(tb, z, h, d, s, follow) {
      SameOnlyIf(tb, Bare(z.out), h + d + (z.touched + {s}), follow, y, z.touched - {s});
    }
    if y.touched !! z.touched - {s} {
      BluesMore(z.out, h + d + h + z.touched, (h + {s}) + dd);
      WayExactly(tb, z.out, h + {s}, dd, follow);
      if Separate(tb, z.out, h + {s}, follow) {
        RescanAgree(tb, z, h, d, s, follow);
      }
    }
  }

  /** For every text that the standard expands: at every invocation the preprocessor does what
      section 6.10.3.4 prescribes, symbol by symbol, if and only if no symbol replaced in arguments
      is replaced again in the rescan. */
  lemma SeparateExactly(tb: Table, text: seq<Token>, follow: bool)
    requires WellFormedTable(tb) && Unpainted(tb) && NoBlue(text) && ExpandC99(tb, text, {}, follow).status == Ok
    ensures SameWay(tb, text, {}, {}, follow) <==> Separate(tb, text, {}, follow)
  {
    WayExactly(tb, text, {}, {}, follow);
  }
}
