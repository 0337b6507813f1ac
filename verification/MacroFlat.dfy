/** When the preprocessor does what section 6.10.3.4 of C99 prescribes, read off the text and the
    definitions it uses. */
module MacroFlat {

  import opened Options
  import opened MacroStack
  import opened MacroText
  import opened MacroStandard
  import opened MacroAgree

  // ----- names a text can lead to -----

  ghost predicate FreeIn(text: seq<Token>, k: iset<Sym>) {
    forall i :: 0 <= i < |text| && text[i].Id? ==> text[i].sym in k
  }

  predicate Joins(body: seq<Item>) {
    exists j :: 0 <= j < |body| && body[j].Cat?
  }

  /** The literal tokens of a list are in `k`, and if it joins tokens what comes of it is too. */
  ghost predicate ListIn(tb: Table, body: seq<Item>, k: iset<Sym>) {
    && (forall j :: 0 <= j < |body| && body[j].Lit? ==> FreeIn([body[j].tok], k))
    && (Joins(body) ==> forall l, r :: FreeIn(tb.glue(l, r), k))
  }

  /** The macros of `k` are object-like, and replacing them leads to names of `k` only. */
  ghost predicate Constants(tb: Table, k: iset<Sym>) {
    forall s :: s in tb.macros && s in k ==> tb.macros[s].npars == -1 && ListIn(tb, tb.macros[s].body, k)
  }

  /** No macro is in both. */
  ghost predicate Apart(tb: Table, k: iset<Sym>, l: iset<Sym>) {
    forall s :: s in tb.macros ==> s !in k || s !in l
  }

  /** A list that joins nothing, whose own tokens are in `l` or no macros, and whose strings are no
      macro names. */
  ghost predicate ListOf(tb: Table, body: seq<Item>, l: iset<Sym>) {
    && !Joins(body) && ListIn(tb, body, Wide(tb, l))
    && (forall j, a :: 0 <= j < |body| && body[j].Str? ==> FreeIn([tb.quote(a)], Wide(tb, l)))
  }

  predicate IsSym(s: Sym) { s >= 0 }

  /** With the names that are no macros. */
  ghost function Wide(tb: Table, l: iset<Sym>): iset<Sym> { iset s: Sym | IsSym(s) && (s in l || s !in tb.macros) }

  /** Constants of `k` or `l` anywhere; function-like macros with arguments from `k` and lists from
      `l`. */
  ghost predicate Flat(tb: Table, text: seq<Token>, follow: bool, k: iset<Sym>, l: iset<Sym>)
    requires WellFormedTable(tb)
    decreases |text|
  {
    text == [] ||
    var t, rest := text[0], text[1..];
    if !(t.Id? && t.sym in tb.macros) then Flat(tb, rest, follow, k, l)
    else if tb.macros[t.sym].npars == -1 then (t.sym in k || t.sym in l) && Flat(tb, rest, follow, k, l)
    else
      match ParsePars(tb.macros[t.sym], rest, follow)
      case Name => Flat(tb, rest, follow, k, l)
      case Bad(_) => true
      case Invoke(args, rest2) =>
        && ListOf(tb, tb.macros[t.sym].body, l)
        && (forall i :: 0 <= i < |args| ==> FreeIn(args[i], k))
        && Flat(tb, rest2, follow, k, l)
  }

  // ----- constants -----

  lemma JoinFree(tb: Table, buf: seq<Token>, piece: seq<Token>, glued: bool, k: iset<Sym>)
    requires FreeIn(buf, k) && FreeIn(piece, k) && (glued ==> forall l, r :: FreeIn(tb.glue(l, r), k))
    ensures FreeIn(JoinC99(tb, buf, piece, glued), k)
  {
    if glued && buf != [] && piece != [] {
      assert FreeIn(tb.glue(Spell(buf[|buf| - 1]), Spell(piece[0])), k);
    }
  }

  lemma {:induction false} ConstantList(tb: Table, body: seq<Item>, j: nat, h: set<Sym>, n: nat, k: iset<Sym>)
    requires WellFormedTable(tb) && j <= |body| && ListIn(tb, body, k)
    requires forall i :: 0 <= i < |body| ==> !body[i].Par? && !body[i].Str?
    ensures var r := BuildC99(tb, body, j, [], h, n); r.status == Ok && r.touched == {} && FreeIn(r.out, k)
    decreases j
  {
    if j > 0 {
      ConstantList(tb, body, j - 1, h, n, k);
      var p := BuildC99(tb, body, j - 1, [], h, n);
      if body[j - 1].Lit? {
        JoinFree(tb, p.out, [body[j - 1].tok], j > 1 && body[j - 2].Cat?, k);
      }
    }
  }

  ghost predicate NoMacros(tb: Table, text: seq<Token>) {
    forall i :: 0 <= i < |text| && text[i].Id? ==> text[i].sym !in tb.macros
  }

  /** Done, with names of `k` replaced and no macro name left free. */
  ghost predicate Settled(tb: Table, r: Result, k: iset<Sym>) {
    && r.status == Ok && NoMacros(tb, r.out)
    && forall x :: x in r.touched ==> x in k && x in tb.macros
  }

  /** Replacing constants meets no arguments and leaves no macro name free. */
  lemma {:induction false} ConstantsOut(tb: Table, text: seq<Token>, h: set<Sym>, follow: bool, k: iset<Sym>)
    requires WellFormedTable(tb) && Constants(tb, k) && FreeIn(text, k)
    ensures Separate(tb, text, h, follow) && Settled(tb, ExpandC99(tb, text, h, follow), k)
    decreases Free(tb, h), |text|
  {
    if text != [] {
      var t, rest := text[0], text[1..];
      assert FreeIn(rest, k);
      ConstantsOut(tb, rest, h, follow, k);
      if Expandable(tb, t, h) {
        ConstantOut(tb, text, h, follow, k);
      }
    }
  }

  lemma {:induction false} ConstantOut(tb: Table, text: seq<Token>, h: set<Sym>, follow: bool, k: iset<Sym>)
    requires WellFormedTable(tb) && Constants(tb, k) && text != [] && Expandable(tb, text[0], h) && text[0].sym in k
    requires Separate(tb, text[1..], h, follow)
    ensures Separate(tb, text, h, follow)
    ensures Settled(tb, ExpandC99(tb, text[1..], h, follow), k) ==> Settled(tb, ExpandC99(tb, text, h, follow), k)
    decreases Free(tb, h), |text|, 0
  {
    var s, rest := text[0].sym, text[1..];
    var body := tb.macros[s].body;
    assert tb.macros[s].npars == -1;
    ConstantList(tb, body, |body|, h, |text|, k);
    var z := BuildC99(tb, body, |body|, [], h, |text|);
    FreeShrinks(tb, h, h + {s}, s);
    ConstantsOut(tb, z.out, h + {s}, Opens(rest, follow), k);
    ConstantSeparate(tb, text, h, follow, z);
    ConstantWhole(tb, text, h, follow, z);
    BothOut(tb, z, ExpandC99(tb, z.out, h + {s}, Opens(rest, follow)), ExpandC99(tb, rest, h, follow), s, k);
  }

  lemma ConstantSeparate(tb: Table, text: seq<Token>, h: set<Sym>, follow: bool, z: Result)
    requires WellFormedTable(tb) && text != [] && Expandable(tb, text[0], h) && tb.macros[text[0].sym].npars == -1
    requires var body := tb.macros[text[0].sym].body; z == BuildC99(tb, body, |body|, [], h, |text|) && z.touched == {}
    requires Separate(tb, z.out, h + {text[0].sym}, Opens(text[1..], follow)) && Separate(tb, text[1..], h, follow)
    ensures Separate(tb, text, h, follow)
  {
  }

  lemma ConstantWhole(tb: Table, text: seq<Token>, h: set<Sym>, follow: bool, z: Result)
    requires WellFormedTable(tb) && text != [] && Expandable(tb, text[0], h) && tb.macros[text[0].sym].npars == -1
    requires var body := tb.macros[text[0].sym].body; z == BuildC99(tb, body, |body|, [], h, |text|) && z.status == Ok
    ensures var s, rest := text[0].sym, text[1..];
      ExpandC99(tb, text, h, follow)
        == Whole(z, ExpandC99(tb, z.out, h + {s}, Opens(rest, follow)), ExpandC99(tb, rest, h, follow), z.touched + {s})
  {
  }

  lemma BothOut(tb: Table, z: Result, r: Result, q: Result, s: Sym, k: iset<Sym>)
    requires z.touched == {} && s in k && s in tb.macros && Settled(tb, r, k)
    ensures Settled(tb, q, k) ==> Settled(tb, Whole(z, r, q, z.touched + {s}), k)
  {
  }

  // ----- function-like macros -----

  lemma WideConstants(tb: Table, l: iset<Sym>)
    requires Constants(tb, l)
    ensures Constants(tb, Wide(tb, l))
  {
    forall s | s in tb.macros && s in Wide(tb, l) ensures ListIn(tb, tb.macros[s].body, Wide(tb, l)) {
      WiderList(tb, tb.macros[s].body, l, Wide(tb, l));
    }
  }

  lemma WiderList(tb: Table, body: seq<Item>, l: iset<Sym>, w: iset<Sym>)
    requires ListIn(tb, body, l) && l <= w
    ensures ListIn(tb, body, w)
  {
    if Joins(body) {
      forall a, c ensures FreeIn(tb.glue(a, c), w) {
        assert FreeIn(tb.glue(a, c), l);
      }
    }
  }

  lemma {:induction false} FlatList(tb: Table, body: seq<Item>, j: nat, args: seq<seq<Token>>, n: nat, k: iset<Sym>, l: iset<Sym>)
    requires WellFormedTable(tb) && j <= |body| && ListOf(tb, body, l) && Constants(tb, k)
    requires forall i :: 0 <= i < |body| && (body[i].Par? || body[i].Str?) ==> body[i].i < |args|
    requires forall i :: 0 <= i < |args| ==> |args[i]| < n && FreeIn(args[i], k)
    ensures var r := BuildC99(tb, body, j, args, {}, n);
      r.status == Ok && FreeIn(r.out, Wide(tb, l)) && forall x :: x in r.touched ==> x in k && x in tb.macros
    decreases j
  {
    if j > 0 {
      FlatList(tb, body, j - 1, args, n, k, l);
      var p, w := BuildC99(tb, body, j - 1, args, {}, n), Wide(tb, l);
      match body[j - 1]
      case Lit(t) => JoinFree(tb, p.out, [t], false, w);
      case Str(i) => JoinFree(tb, p.out, [tb.quote(Bare(args[i]))], false, w);
      case Par(i) =>
        ConstantsOut(tb, args[i], {}, false, k);
        JoinFree(tb, p.out, ExpandC99(tb, args[i], {}, false).out, false, w);
    }
  }

  lemma FlatInvoke(tb: Table, text: seq<Token>, follow: bool, k: iset<Sym>, l: iset<Sym>, args: seq<seq<Token>>, rest2: seq<Token>)
    requires WellFormedTable(tb) && Constants(tb, k) && Constants(tb, l) && Apart(tb, k, l)
    requires text != [] && text[0].Id? && text[0].sym in tb.macros && tb.macros[text[0].sym].npars != -1
    requires ParsePars(tb.macros[text[0].sym], text[1..], follow) == Invoke(args, rest2)
    requires Flat(tb, text, follow, k, l) && Separate(tb, rest2, {}, follow)
    ensures Separate(tb, text, {}, follow)
  {
    var s := text[0].sym;
    var body := tb.macros[s].body;
    forall i | 0 <= i < |args| ensures Separate(tb, args[i], {}, false) {
      ConstantsOut(tb, args[i], {}, false, k);
    }
    FlatList(tb, body, |body|, args, |text|, k, l);
    var z := BuildC99(tb, body, |body|, args, {}, |text|);
    WideConstants(tb, l);
    ConstantsOut(tb, z.out, {} + {s}, Opens(rest2, follow), Wide(tb, l));
  }

  lemma {:induction false} FlatSeparate(tb: Table, text: seq<Token>, follow: bool, k: iset<Sym>, l: iset<Sym>)
    requires WellFormedTable(tb) && Constants(tb, k) && Constants(tb, l) && Apart(tb, k, l)
    requires Flat(tb, text, follow, k, l)
    ensures Separate(tb, text, {}, follow)
    decreases |text|
  {
    if text != [] {
      var t, rest := text[0], text[1..];
      if !Expandable(tb, t, {}) {
        FlatSeparate(tb, rest, follow, k, l);
      } else if tb.macros[t.sym].npars == -1 {
        FlatSeparate(tb, rest, follow, k, l);
        ConstantOut(tb, text, {}, follow, if t.sym in k then k else l);
      } else {
        match ParsePars(tb.macros[t.sym], rest, follow)
        case Name => FlatSeparate(tb, rest, follow, k, l);
        case Bad(_) =>
        case Invoke(args, rest2) =>
          FlatSeparate(tb, rest2, follow, k, l);
          FlatInvoke(tb, text, follow, k, l, args, rest2);
      }
    }
  }

  /** Constants used freely and passed to macros whose lists use other constants: there the
      preprocessor does what section 6.10.3.4 prescribes. */
  lemma FlatAgrees(tb: Table, text: seq<Token>, follow: bool, k: iset<Sym>, l: iset<Sym>)
    requires WellFormedTable(tb) && Unpainted(tb) && NoBlue(text)
    requires Constants(tb, k) && Constants(tb, l) && Apart(tb, k, l) && Flat(tb, text, follow, k, l)
    ensures var a, b := Expand(tb, text, {}, follow), ExpandC99(tb, text, {}, follow);
      a.status == b.status && a.out == Bare(b.out)
  {
    FlatSeparate(tb, text, follow, k, l);
    AgreesWithC99(tb, text, follow);
  }

  // ----- an instance -----

  /** F(x) stands for `x C`, B for 1 and C for 2; any two tokens join to B. */
  ghost function Sizes(f: Sym, b: Sym, c: Sym): Table {
    Table(map[f := Def(1, [Par(0), Lit(Id(c))]), b := Def(-1, [Lit(Other(1))]), c := Def(-1, [Lit(Other(2))])],
          (l, r) => [Id(b)], a => Other(0))
  }

  lemma SizesTable(f: Sym, b: Sym, c: Sym)
    requires f != b && b != c && f != c
    ensures var tb, k, l := Sizes(f, b, c), iset{b}, iset{c};
      && WellFormedTable(tb) && Unpainted(tb) && tb.glue(Open, Close) == [Id(b)]
      && Constants(tb, k) && Constants(tb, l) && Apart(tb, k, l) && ListOf(tb, tb.macros[f].body, l)
  {
    var tb := Sizes(f, b, c);
    assert !Joins(tb.macros[b].body) && !Joins(tb.macros[c].body) && !Joins(tb.macros[f].body);
  }

  lemma SizesCall(f: Sym, b: Sym, c: Sym, text: seq<Token>)
    requires f != b && b != c && f != c && text == [Open, Id(b), Close]
    ensures ParsePars(Sizes(f, b, c).macros[f], text, false) == Invoke([[Id(b)]], [])
  {
    assert text[1..] == [Id(b), Close] && [Id(b), Close][1..] == [Close] && [Close][1..] == [];
    assert Argument([Close], 0) == Some(Piece([], true, []));
    assert [Id(b)] + [] == [Id(b)];
    assert Argument([Id(b), Close], 0) == Some(Piece([Id(b)], true, []));
  }

  /** F(B) is such a text, although two tokens can be joined to B. */
  lemma SizesFlat(f: Sym, b: Sym, c: Sym)
    requires f != b && b != c && f != c
    ensures var tb, text, k, l := Sizes(f, b, c), [Id(f), Open, Id(b), Close], iset{b}, iset{c};
      && WellFormedTable(tb) && Unpainted(tb) && NoBlue(text) && tb.glue(Open, Close) == [Id(b)]
      && Constants(tb, k) && Constants(tb, l) && Apart(tb, k, l) && Flat(tb, text, false, k, l)
      && Expand(tb, text, {}, false).out == Bare(ExpandC99(tb, text, {}, false).out)
  {
    var tb, text, k, l := Sizes(f, b, c), [Id(f), Open, Id(b), Close], iset{b}, iset{c};
    SizesTable(f, b, c);
    assert text[1..] == [Open, Id(b), Close];
    SizesCall(f, b, c, text[1..]);
    FlatAgrees(tb, text, false, k, l);
  }
}
