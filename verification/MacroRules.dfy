/** The rules of macro replacement, each on the elements and tokens themselves. */
module MacroRules {

  import opened Options
  import opened MacroStack
  import opened MacroText
  import opened MacroStandard
  import opened MacroAgree
  import P = MacroProcess

  // ----- one element of a replacement list -----

  /** The arguments are there and shorter than the text. */
  ghost predicate Supplied(tb: Table, body: seq<Item>, args: seq<seq<Token>>, n: nat) {
    && WellFormedTable(tb)
    && (forall j :: 0 <= j < |body| && (body[j].Par? || body[j].Str?) ==> body[j].i < |args|)
    && (forall i :: 0 <= i < |args| ==> |args[i]| < n)
  }

  predicate CatAt(body: seq<Item>, j: int) {
    0 <= j < |body| && body[j].Cat?
  }

  /** `piece` behind `buf`: with `##` in between the last token and the first become what their
      spellings read as. */
  ghost predicate Appended(tb: Table, buf: seq<Token>, piece: seq<Token>, glued: bool, out: seq<Token>) {
    if glued && |buf| > 0 && |piece| > 0 then
      out == buf[..|buf| - 1] + tb.glue(buf[|buf| - 1], piece[0]) + piece[1..]
    else out == buf + piece
  }

  /** A parameter beside `##`, on either side, puts in its argument as it is written and replaces
      nothing. */
  lemma RawBesideCat(tb: Table, body: seq<Item>, j: nat, args: seq<seq<Token>>, hidden: set<Sym>, n: nat)
    requires Supplied(tb, body, args, n) && j < |body| && body[j].Par? && (CatAt(body, j - 1) || CatAt(body, j + 1))
    requires Build(tb, body, j, args, hidden, n).status == Ok
    ensures var b, r := Build(tb, body, j, args, hidden, n), Build(tb, body, j + 1, args, hidden, n);
      && r.status == Ok && r.touched == b.touched && r.cost == b.cost
      && Appended(tb, b.out, args[body[j].i], CatAt(body, j - 1), r.out)
  {
  }

  /** Any other parameter puts in its argument replaced as if it were the rest of the file. */
  lemma ReplacedElsewhere(tb: Table, body: seq<Item>, j: nat, args: seq<seq<Token>>, hidden: set<Sym>, n: nat)
    requires Supplied(tb, body, args, n) && j < |body| && body[j].Par? && !CatAt(body, j - 1) && !CatAt(body, j + 1)
    requires Build(tb, body, j, args, hidden, n).status == Ok
    ensures var b, r := Build(tb, body, j, args, hidden, n), Build(tb, body, j + 1, args, hidden, n);
      var e := Expand(tb, args[body[j].i], hidden, false);
      r.status == e.status && r.touched == b.touched + e.touched && r.out == b.out + e.out
  {
  }

  /** The other elements: tokens are copied, `#` quotes the argument as written, `##` adds nothing. */
  lemma OtherElements(tb: Table, body: seq<Item>, j: nat, args: seq<seq<Token>>, hidden: set<Sym>, n: nat)
    requires Supplied(tb, body, args, n) && j < |body| && !body[j].Par?
    requires Build(tb, body, j, args, hidden, n).status == Ok
    ensures var b, r := Build(tb, body, j, args, hidden, n), Build(tb, body, j + 1, args, hidden, n);
      && r.status == Ok && r.touched == b.touched
      && match body[j]
         case Lit(t) => Appended(tb, b.out, [t], CatAt(body, j - 1), r.out)
         case Str(i) => Appended(tb, b.out, [tb.quote(args[i])], CatAt(body, j - 1), r.out)
         case Cat => r.out == b.out
  {
  }

  /** So where every parameter stands beside `##` the macros of the table do not matter. */
  lemma {:induction false} AllRaw(tb: Table, tb': Table, body: seq<Item>, k: nat, args: seq<seq<Token>>,
                                  hidden: set<Sym>, hidden': set<Sym>, n: nat)
    requires Supplied(tb, body, args, n) && WellFormedTable(tb') && k <= |body|
    requires tb'.glue == tb.glue && tb'.quote == tb.quote
    requires forall j :: 0 <= j < |body| && body[j].Par? ==> CatAt(body, j - 1) || CatAt(body, j + 1)
    ensures var r := Build(tb, body, k, args, hidden, n);
      r.status == Ok && r.touched == {} && r == Build(tb', body, k, args, hidden', n)
    decreases k
  {
    if k > 0 {
      AllRaw(tb, tb', body, k - 1, args, hidden, hidden', n);
      assert body[k - 1].Par? ==> CatAt(body, k - 2) || CatAt(body, k);
    }
  }

  /** The standard's list is built the same way. */
  lemma RawByC99(tb: Table, body: seq<Item>, j: nat, args: seq<seq<Token>>, hidden: set<Sym>, n: nat)
    requires Supplied(tb, body, args, n) && j < |body| && body[j].Par?
    requires BuildC99(tb, body, j, args, hidden, n).status == Ok
    ensures var b, r := BuildC99(tb, body, j, args, hidden, n), BuildC99(tb, body, j + 1, args, hidden, n);
      if CatAt(body, j - 1) || CatAt(body, j + 1) then
        && r.status == Ok && r.touched == b.touched
        && (!CatAt(body, j - 1) ==> r.out == b.out + args[body[j].i])
        && (CatAt(body, j - 1) && |b.out| > 0 && |args[body[j].i]| > 0 ==>
              r.out == b.out[..|b.out| - 1] + tb.glue(Spell(b.out[|b.out| - 1]), Spell(args[body[j].i][0])) + args[body[j].i][1..])
      else
        var e := ExpandC99(tb, args[body[j].i], hidden, false);
        r.status == e.status && r.touched == b.touched + e.touched && r.out == b.out + e.out
  {
    PastedBeside(body, j);
  }

  /** `#define CAT(x, y) x ## y`: the arguments are joined as they are written, whatever macros they
      name. */
  lemma Joined(tb: Table, a: seq<Token>, c: seq<Token>, hidden: set<Sym>, n: nat)
    requires WellFormedTable(tb) && 0 < |a| < n && 0 < |c| < n
    ensures Build(tb, [Par(0), Cat, Par(1)], 3, [a, c], hidden, n)
         == Result(Ok, a[..|a| - 1] + tb.glue(a[|a| - 1], c[0]) + c[1..], {}, 0)
  {
    var body, args := [Par(0), Cat, Par(1)], [a, c];
    assert Build(tb, body, 0, args, hidden, n) == Result(Ok, [], {}, 0);
    RawBesideCat(tb, body, 0, args, hidden, n);
    assert Build(tb, body, 1, args, hidden, n).out == a;
    OtherElements(tb, body, 1, args, hidden, n);
    RawBesideCat(tb, body, 2, args, hidden, n);
  }

  /** The moves do the same: an argument beside `##` is not scanned, any other one is. */
  lemma ScannedOrRaw(tb: Table, p: P.Process, body: seq<Item>, c: P.Copy)
    requires WellFormedTable(tb) && P.Proper(tb, p) && p.phase.Fill? && Top(p.m).sym in tb.macros
    requires body == tb.macros[Top(p.m).sym].body && c == P.Last(p.copies) && c.k < |body| && body[c.k].Par?
    ensures P.Move(tb, p).Goes?
    ensures var q := P.Move(tb, p).p;
      if CatAt(body, c.k - 1) || CatAt(body, c.k + 1) then q.m == p.m && q.phase.Fill?
      else body[c.k].i < |c.args| && q.m == Push(p.m, Plain(c.args[body[c.k].i])) && q.phase.Scan?
  {
  }

  // ----- tokens of a text -----

  /** What is replaced: the name of a macro that is not hidden. */
  lemma ReplacedNames(tb: Table, t: Token, hidden: set<Sym>)
    ensures Expandable(tb, t, hidden) <==> exists s :: t == Id(s) && s in tb.macros.Keys && s !in hidden
  {
  }

  /** Any other token stays, and so does a function-like name without a parenthesis behind it. */
  lemma Stays(tb: Table, t: Token, rest: seq<Token>, hidden: set<Sym>, follow: bool)
    requires WellFormedTable(tb)
    requires || !t.Id? || t.sym !in tb.macros || t.sym in hidden
             || (tb.macros[t.sym].npars >= 0 && if rest == [] then !follow else !rest[0].Open?)
    ensures var r, q := Expand(tb, [t] + rest, hidden, follow), Expand(tb, rest, hidden, follow);
      r.status == q.status && r.out == [t] + q.out && r.touched == q.touched
  {
    assert ([t] + rest)[1..] == rest;
  }

  /** For the standard too, and there a name hidden by its own replacement is painted for good. */
  lemma StaysByC99(tb: Table, t: Token, rest: seq<Token>, hidden: set<Sym>, follow: bool)
    requires WellFormedTable(tb)
    requires || !t.Id? || t.sym !in tb.macros || t.sym in hidden
             || (tb.macros[t.sym].npars >= 0 && if rest == [] then !follow else !rest[0].Open?)
    ensures var r, q := ExpandC99(tb, [t] + rest, hidden, follow), ExpandC99(tb, rest, hidden, follow);
      var painted := t.Id? && t.sym in tb.macros && t.sym in hidden;
      r.status == q.status && r.out == [if painted then Blue(t.sym) else t] + q.out && r.touched == q.touched
  {
    assert ([t] + rest)[1..] == rest;
  }

  // ----- invocations -----

  lemma {:induction false} ListRead(args: seq<seq<Token>>, rest: seq<Token>)
    requires args != [] && forall i :: 0 <= i < |args| ==> Nested(args[i], 0)
    ensures Arguments(Spelled(args) + rest) == Some((args, rest))
    decreases |args|
  {
    if |args| == 1 {
      ArgumentUnique(args[0], true, rest, 0);
      assert [args[0]] == args;
    } else {
      ListRead(args[1..], rest);
      ArgumentUnique(args[0], false, Spelled(args[1..]) + rest, 0);
      FirstOfList(args, rest);
    }
  }

  lemma FirstOfList(args: seq<seq<Token>>, rest: seq<Token>)
    requires |args| > 1
    ensures Spelled(args) + rest == args[0] + [Comma] + (Spelled(args[1..]) + rest) && [args[0]] + args[1..] == args
  {
    Regrouped(args[0], [Comma], Spelled(args[1..]), rest);
  }

  lemma Regrouped(a: seq<Token>, m: seq<Token>, b: seq<Token>, c: seq<Token>)
    ensures a + m + b + c == a + m + (b + c)
  {
  }

  /** How the name of a macro is read: an object-like one is an invocation by itself; a function-like
      one with an argument for each parameter, given in parentheses, is one; with another number of
      arguments it is an error. */
  lemma Invocations(def: Def, args: seq<seq<Token>>, rest: seq<Token>, follow: bool)
    requires args != [] && forall i :: 0 <= i < |args| ==> Nested(args[i], 0)
    requires def.npars >= -1
    ensures def.npars == -1 ==> ParsePars(def, rest, follow) == Invoke([], rest)
    ensures def.npars == 0 ==> ParsePars(def, [Open, Close] + rest, follow) == Invoke([], rest)
    ensures def.npars == |args| ==> ParsePars(def, [Open] + (Spelled(args) + rest), follow) == Invoke(args, rest)
    ensures def.npars > 0 && def.npars != |args| ==>
      ParsePars(def, [Open] + (Spelled(args) + rest), follow) == Bad(BadCall)
  {
    ListRead(args, rest);
    assert ([Open] + (Spelled(args) + rest))[1..] == Spelled(args) + rest;
    assert ([Open, Close] + rest)[2..] == rest;
  }

  /** And what it comes to: the list, scanned again with the name hidden, and then the rest. */
  lemma Invoked(tb: Table, s: Sym, text: seq<Token>, hidden: set<Sym>, follow: bool, args: seq<seq<Token>>, rest: seq<Token>)
    requires WellFormedTable(tb) && s in tb.macros && s !in hidden
    requires ParsePars(tb.macros[s], text, follow) == Invoke(args, rest)
    ensures s in Expand(tb, [Id(s)] + text, hidden, follow).touched
    ensures var body, all := tb.macros[s].body, [Id(s)] + text;
      var b := Build(tb, body, |body|, args, hidden, |all|);
      var x := Expand(tb, b.out, hidden + b.touched + {s}, Opens(rest, follow));
      var q := Expand(tb, rest, hidden, follow);
      b.status == Ok && x.status == Ok && q.status == Ok ==>
        Expand(tb, all, hidden, follow).status == Ok && Expand(tb, all, hidden, follow).out == x.out + q.out
  {
    var all := [Id(s)] + text;
    assert all[1..] == text;
    var b := Build(tb, tb.macros[s].body, |tb.macros[s].body|, args, hidden, |all|);
    assert hidden + (b.touched + {s}) == hidden + b.touched + {s};
  }
}
