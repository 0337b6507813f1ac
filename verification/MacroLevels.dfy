/** What a stack of inputs still has to produce, and how each step of the preprocessor moves
    through it. */
module MacroLevels {

  import opened Options
  import opened MacroStack
  import opened MacroText

  // ----- facts about expansion -----

  /** Only symbols of the table that are not hidden are ever expanded. */
  ghost predicate Fresh(tb: Table, touched: set<Sym>, hidden: set<Sym>) {
    touched <= tb.macros.Keys && touched !! hidden
  }

  lemma {:induction false} BuildFresh(tb: Table, body: seq<Item>, k: nat, args: seq<seq<Token>>, hidden: set<Sym>, n: nat)
    requires WellFormedTable(tb) && k <= |body|
    requires forall j :: 0 <= j < |body| && (body[j].Par? || body[j].Str?) ==> body[j].i < |args|
    requires forall i :: 0 <= i < |args| ==> |args[i]| < n
    ensures Fresh(tb, Build(tb, body, k, args, hidden, n).touched, hidden)
    decreases Free(tb, hidden), n, k
  {
    if k > 0 {
      BuildFresh(tb, body, k - 1, args, hidden, n);
      if body[k - 1].Par? {
        ExpandFresh(tb, args[body[k - 1].i], hidden, false);
      }
    }
  }

  lemma {:induction false} ExpandFresh(tb: Table, text: seq<Token>, hidden: set<Sym>, follow: bool)
    requires WellFormedTable(tb)
    ensures Fresh(tb, Expand(tb, text, hidden, follow).touched, hidden)
    decreases Free(tb, hidden), |text| + 1, 0
  {
    if text != [] {
      var t, rest := text[0], text[1..];
      var call := if Expandable(tb, t, hidden) then ParsePars(tb.macros[t.sym], rest, follow) else Name;
      match call
      case Bad(_) =>
      case Name => ExpandFresh(tb, rest, hidden, follow);
      case Invoke(args, rest2) =>
        var body := tb.macros[t.sym].body;
        BuildFresh(tb, body, |body|, args, hidden, |text|);
        var b := Build(tb, body, |body|, args, hidden, |text|);
        var d := b.touched + {t.sym};
        FreeShrinks(tb, hidden, hidden + d, t.sym);
        ExpandFresh(tb, b.out, hidden + d, Opens(rest2, follow));
        ExpandFresh(tb, rest2, hidden, follow);
    }
  }

  // ----- the inputs down to the parameter or file being read -----

  /** From the top only finished macros, down to a parameter or a file. */
  predicate Live(stack: seq<Input>) {
    stack != [] && (stack[|stack| - 1].Plain? || (IsDone(stack[|stack| - 1]) && Live(stack[..|stack| - 1])))
  }

  /** ahead() == '(' */
  predicate Ahead(stack: seq<Input>)
    requires Live(stack)
  {
    var top := stack[|stack| - 1];
    if top.text != [] then top.text[0].Open?
    else top.Macro? && Ahead(stack[..|stack| - 1])
  }

  /** The same question behind the end of the top input. */
  predicate Follow(stack: seq<Input>)
    requires Live(stack)
  {
    stack[|stack| - 1].Macro? && Ahead(stack[..|stack| - 1])
  }

  /** Where the parameter or file is. */
  function BaseIndex(stack: seq<Input>): (k: nat)
    requires Live(stack)
    ensures k < |stack| && stack[k].Plain?
  {
    if stack[|stack| - 1].Plain? then |stack| - 1 else BaseIndex(stack[..|stack| - 1])
  }

  /** The symbols hidden once the macros of the level have ended. */
  function BaseHidden(stack: seq<Input>, hidden: set<Sym>): set<Sym>
    requires Live(stack)
  {
    var top := stack[|stack| - 1];
    if top.Plain? then hidden else BaseHidden(stack[..|stack| - 1], hidden - top.hideset)
  }

  function Then(a: Result, b: Result): Result {
    if a.status != Ok then a.(cost := a.cost + 1)
    else Result(b.status, a.out + b.out, a.touched + b.touched, a.cost + b.cost + 1)
  }

  /** Everything the level has still to produce. */
  function Remaining(tb: Table, stack: seq<Input>, hidden: set<Sym>): Result
    requires WellFormedTable(tb) && Live(stack)
    decreases |stack|
  {
    var top := stack[|stack| - 1];
    var r := Expand(tb, top.text, hidden, Follow(stack));
    if top.Plain? then r else Then(r, Remaining(tb, stack[..|stack| - 1], hidden - top.hideset))
  }

  // ----- growing hidesets changes nothing -----

  lemma GrowSplit(stack: seq<Input>, ip: Input, d: set<Sym>)
    ensures Grow(stack + [ip], d) == Grow(stack, d) + [GrowOne(ip, d)]
  {
  }

  lemma GrowTwice(stack: seq<Input>, d: set<Sym>, e: set<Sym>)
    ensures Grow(Grow(stack, d), e) == Grow(stack, d + e)
  {
    forall i | 0 <= i < |stack| ensures GrowOne(GrowOne(stack[i], d), e) == GrowOne(stack[i], d + e) {
      if stack[i].Macro? {
        assert stack[i].hideset + d + e == stack[i].hideset + (d + e);
      }
    }
  }

  lemma GrowNone(stack: seq<Input>)
    ensures Grow(stack, {}) == stack
  {
    forall i | 0 <= i < |stack| ensures GrowOne(stack[i], {}) == stack[i] {
      if stack[i].Macro? {
        assert stack[i].hideset + {} == stack[i].hideset;
      }
    }
  }

  lemma {:induction false} GrowLive(stack: seq<Input>, d: set<Sym>)
    requires Live(stack)
    ensures Live(Grow(stack, d)) && BaseIndex(Grow(stack, d)) == BaseIndex(stack)
    ensures Ahead(Grow(stack, d)) == Ahead(stack) && Follow(Grow(stack, d)) == Follow(stack)
  {
    var n := |stack| - 1;
    assert Grow(stack, d)[n] == GrowOne(stack[n], d);
    if stack[n].Macro? {
      assert Grow(stack, d)[..n] == Grow(stack[..n], d);
      GrowLive(stack[..n], d);
    }
  }

  lemma {:induction false} GrowRemaining(tb: Table, stack: seq<Input>, hidden: set<Sym>, d: set<Sym>)
    requires WellFormedTable(tb) && Live(stack) && d !! hidden
    ensures Live(Grow(stack, d))
    ensures Remaining(tb, Grow(stack, d), hidden) == Remaining(tb, stack, hidden)
    ensures BaseHidden(Grow(stack, d), hidden) == BaseHidden(stack, hidden)
    decreases |stack|
  {
    GrowLive(stack, d);
    var n := |stack| - 1;
    assert Grow(stack, d)[n] == GrowOne(stack[n], d);
    if stack[n].Macro? {
      assert Grow(stack, d)[..n] == Grow(stack[..n], d);
      assert hidden - (stack[n].hideset + d) == hidden - stack[n].hideset;
      GrowRemaining(tb, stack[..n], hidden - stack[n].hideset, d);
    }
  }

  // ----- moving through the level -----

  ghost function Rest(tb: Table, m: Machine): Result
    requires WellFormedTable(tb) && Live(m.stack)
  {
    Remaining(tb, m.stack, m.hidden)
  }

  /** From `m` to `r` the tokens `out` were produced and the symbols `d` expanded; the inputs
      below the level only gained `d` in their hidesets. */
  ghost predicate Advances(tb: Table, m: Machine, r: Machine, out: seq<Token>, d: set<Sym>)
    requires WellFormedTable(tb)
  {
    && Live(m.stack) && Live(r.stack)
    && BaseIndex(r.stack) == BaseIndex(m.stack)
    && r.stack[..BaseIndex(m.stack)] == Grow(m.stack[..BaseIndex(m.stack)], d)
    && BaseHidden(r.stack, r.hidden) == BaseHidden(m.stack, m.hidden)
    && Rest(tb, m).status == Rest(tb, r).status
    && Rest(tb, m).out == out + Rest(tb, r).out
    && Rest(tb, m).touched == d + Rest(tb, r).touched
    && Rest(tb, r).cost <= Rest(tb, m).cost
  }

  lemma Stays(tb: Table, m: Machine)
    requires WellFormedTable(tb) && Live(m.stack)
    ensures Advances(tb, m, m, [], {})
  {
    GrowNone(m.stack[..BaseIndex(m.stack)]);
  }

  lemma Compose(tb: Table, m: Machine, q: Machine, r: Machine, o1: seq<Token>, d1: set<Sym>, o2: seq<Token>, d2: set<Sym>)
    requires WellFormedTable(tb) && Advances(tb, m, q, o1, d1) && Advances(tb, q, r, o2, d2)
    ensures Advances(tb, m, r, o1 + o2, d1 + d2)
  {
    var k := BaseIndex(m.stack);
    GrowTwice(m.stack[..k], d1, d2);
    assert o1 + (o2 + Rest(tb, r).out) == (o1 + o2) + Rest(tb, r).out;
    assert d1 + (d2 + Rest(tb, r).touched) == (d1 + d2) + Rest(tb, r).touched;
  }

  /** The end of a macro: delinput and delmacro. */
  lemma FinishAdvances(tb: Table, m: Machine)
    requires WellFormedTable(tb) && Live(m.stack) && Top(m).Macro? && Top(m).text == []
    ensures Advances(tb, m, Finished(m), [], {})
    ensures Rest(tb, Finished(m)).cost < Rest(tb, m).cost
    ensures Ahead(m.stack) == Ahead(Finished(m).stack)
  {
    var k := BaseIndex(m.stack);
    assert m.stack[..|m.stack| - 1][..k] == m.stack[..k];
    GrowNone(m.stack[..k]);
  }

  /** The call the next token makes, as expand and parsepars see it. */
  ghost function NextCall(tb: Table, m: Machine): Call
    requires Live(m.stack) && Top(m).text != []
  {
    var t := Top(m).text[0];
    if Expandable(tb, t, m.hidden) then ParsePars(tb.macros[t.sym], Top(m).text[1..], Follow(m.stack)) else Name
  }

  function WithText(m: Machine, text: seq<Token>): Machine
    requires m.stack != []
  {
    Replace(m, Top(m).(text := text))
  }

  lemma WithTextLive(m: Machine, text: seq<Token>)
    requires Live(m.stack)
    ensures var r := WithText(m, text);
      && Live(r.stack) && BaseIndex(r.stack) == BaseIndex(m.stack) && Follow(r.stack) == Follow(m.stack)
      && r.stack[..BaseIndex(m.stack)] == m.stack[..BaseIndex(m.stack)]
      && BaseHidden(r.stack, r.hidden) == BaseHidden(m.stack, m.hidden)
      && Below(r) == Below(m) && Ahead(r.stack) == Opens(text, Follow(m.stack))
  {
    var r := WithText(m, text);
    assert Below(r) == Below(m);
  }

  /** A token that is not expanded goes out as it is. */
  lemma ReadAdvances(tb: Table, m: Machine)
    requires WellFormedTable(tb) && Live(m.stack) && Top(m).text != [] && NextCall(tb, m) == Name
    ensures var r := WithText(m, Top(m).text[1..]);
      Advances(tb, m, r, [Top(m).text[0]], {}) && Rest(tb, r).cost < Rest(tb, m).cost
  {
    WithTextLive(m, Top(m).text[1..]);
    GrowNone(m.stack[..BaseIndex(m.stack)]);
    ReadRest(tb, m);
  }

  lemma ReadRest(tb: Table, m: Machine)
    requires WellFormedTable(tb) && Live(m.stack) && Top(m).text != [] && NextCall(tb, m) == Name
    requires Live(WithText(m, Top(m).text[1..]).stack)
    ensures Rest(tb, m) == Named(Rest(tb, WithText(m, Top(m).text[1..])), Top(m).text[0])
  {
    var text, follow := Top(m).text, Follow(m.stack);
    RestByTop(tb, m, text[1..]);
    ExpandName(tb, text, m.hidden, follow);
    if Top(m).Macro? {
      NameThen(Expand(tb, text[1..], m.hidden, follow), text[0], Remaining(tb, Below(m), m.hidden - Top(m).hideset));
    }
  }

  function Named(r: Result, t: Token): Result {
    r.(out := [t] + r.out, cost := r.cost + 1)
  }

  lemma ExpandName(tb: Table, text: seq<Token>, hidden: set<Sym>, follow: bool)
    requires WellFormedTable(tb) && text != []
    requires Expandable(tb, text[0], hidden) ==> ParsePars(tb.macros[text[0].sym], text[1..], follow) == Name
    ensures Expand(tb, text, hidden, follow) == Named(Expand(tb, text[1..], hidden, follow), text[0])
  {
  }

  lemma NameThen(r: Result, t: Token, q: Result)
    ensures Then(Named(r, t), q) == Named(Then(r, q), t)
  {
    if r.status == Ok {
      assert [t] + r.out + q.out == [t] + (r.out + q.out);
    }
  }

  lemma StopsHere(tb: Table, m: Machine)
    requires WellFormedTable(tb) && Live(m.stack) && Top(m).text != [] && NextCall(tb, m).Bad?
    ensures Rest(tb, m).status == NextCall(tb, m).status && Rest(tb, m).out == []
  {
  }

  /** The replacement list of the invocation at the head of the top input. */
  ghost function NextBody(tb: Table, m: Machine): Result
    requires WellFormedTable(tb) && Live(m.stack) && Top(m).text != [] && NextCall(tb, m).Invoke?
  {
    var def := tb.macros[Top(m).text[0].sym];
    Build(tb, def.body, |def.body|, NextCall(tb, m).args, m.hidden, |Top(m).text|)
  }

  lemma InvokeFails(tb: Table, m: Machine)
    requires WellFormedTable(tb) && Live(m.stack) && Top(m).text != [] && NextCall(tb, m).Invoke?
    requires NextBody(tb, m).status != Ok
    ensures Rest(tb, m).status == NextBody(tb, m).status && Rest(tb, m).out == []
  {
  }

  lemma BodyCheaper(tb: Table, m: Machine)
    requires WellFormedTable(tb) && Live(m.stack) && Top(m).text != [] && NextCall(tb, m).Invoke?
    ensures NextBody(tb, m).cost < Rest(tb, m).cost
  {
  }

  /** The stack after an invocation: every hideset has gained `d`, and the replacement list is
      read with `d` hidden. */
  function Entered(m: Machine, s: Sym, rest: seq<Token>, d: set<Sym>, text: seq<Token>): Machine
    requires m.stack != []
  {
    Machine(Grow(WithText(m, rest).stack, d) + [Macro(s, d, true, text)], m.hidden + d)
  }

  lemma EnteredRest(tb: Table, m: Machine, s: Sym, rest: seq<Token>, d: set<Sym>, text: seq<Token>)
    requires WellFormedTable(tb) && Live(m.stack) && d !! m.hidden
    ensures var r := Entered(m, s, rest, d, text);
      && Live(r.stack) && Live(WithText(m, rest).stack)
      && Rest(tb, r) == Then(Expand(tb, text, m.hidden + d, Opens(rest, Follow(m.stack))), Rest(tb, WithText(m, rest)))
      && BaseIndex(r.stack) == BaseIndex(m.stack)
      && r.stack[..BaseIndex(m.stack)] == Grow(m.stack[..BaseIndex(m.stack)], d)
      && BaseHidden(r.stack, r.hidden) == BaseHidden(m.stack, m.hidden)
  {
    var r, ma := Entered(m, s, rest, d, text), WithText(m, rest);
    WithTextLive(m, rest);
    GrowLive(ma.stack, d);
    GrowRemaining(tb, ma.stack, m.hidden, d);
    assert Below(r) == Grow(ma.stack, d);
    assert r.hidden - d == m.hidden;
    assert Live(r.stack) && Follow(r.stack) == Opens(rest, Follow(m.stack));
    EnteredBelow(m, s, rest, d, text);
  }

  /** Entering a macro grows the inputs below the level and nothing else there. */
  lemma EnteredBelow(m: Machine, s: Sym, rest: seq<Token>, d: set<Sym>, text: seq<Token>)
    requires Live(m.stack) && Live(Entered(m, s, rest, d, text).stack)
    ensures var r := Entered(m, s, rest, d, text);
      && BaseIndex(r.stack) == BaseIndex(m.stack)
      && r.stack[..BaseIndex(m.stack)] == Grow(m.stack[..BaseIndex(m.stack)], d)
  {
    var r, ma, k := Entered(m, s, rest, d, text), WithText(m, rest), BaseIndex(m.stack);
    WithTextLive(m, rest);
    GrowLive(ma.stack, d);
    assert Below(r) == Grow(ma.stack, d);
    GrowBelow(ma.stack, Macro(s, d, true, text), d, k);
  }

  lemma GrowBelow(stack: seq<Input>, ip: Input, d: set<Sym>, k: nat)
    requires k <= |stack|
    ensures (Grow(stack, d) + [ip])[..k] == Grow(stack[..k], d)
  {
  }

  /** What Expand makes of a replacement list `x`, built at cost `c`, and of the text behind. */
  function Entering(x: Result, q: Result, d: set<Sym>, c: nat): Result {
    if x.status != Ok then Result(x.status, x.out, d + x.touched, c + x.cost + 2)
    else Result(q.status, x.out + q.out, d + x.touched + q.touched, c + x.cost + q.cost + 2)
  }

  /** `r` is what is left of `e` when `d` has been expanded and nothing produced. */
  ghost predicate Leaves(e: Result, r: Result, d: set<Sym>) {
    e.status == r.status && e.out == r.out && e.touched == d + r.touched && r.cost < e.cost
  }

  lemma EnteringLeaves(x: Result, q: Result, d: set<Sym>, c: nat, below: Result)
    ensures Leaves(Entering(x, q, d, c), Then(x, q), d)
    ensures Leaves(Then(Entering(x, q, d, c), below), Then(x, Then(q, below)), d)
  {
    if x.status == Ok {
      assert d + x.touched + q.touched == d + (x.touched + q.touched);
      if q.status == Ok {
        assert (x.out + q.out) + below.out == x.out + (q.out + below.out);
        assert (d + x.touched + q.touched) + below.touched == d + (x.touched + (q.touched + below.touched));
      }
    }
  }

  lemma InvokeRest(tb: Table, m: Machine, d: set<Sym>)
    requires WellFormedTable(tb) && Live(m.stack) && Top(m).text != [] && NextCall(tb, m).Invoke?
    requires NextBody(tb, m).status == Ok && d == NextBody(tb, m).touched + {Top(m).text[0].sym}
    ensures var b, rest := NextBody(tb, m), NextCall(tb, m).rest;
      var r := Expand(tb, b.out, m.hidden + d, Opens(rest, Follow(m.stack)));
      var q := Expand(tb, rest, m.hidden, Follow(m.stack));
      Expand(tb, Top(m).text, m.hidden, Follow(m.stack)) == Entering(r, q, d, b.cost)
  {
  }

  lemma RestByTop(tb: Table, m: Machine, text: seq<Token>)
    requires WellFormedTable(tb) && Live(m.stack)
    ensures Live(WithText(m, text).stack)
    ensures Rest(tb, WithText(m, text)) ==
      var r := Expand(tb, text, m.hidden, Follow(m.stack));
      if Top(m).Plain? then r else Then(r, Remaining(tb, Below(m), m.hidden - Top(m).hideset))
  {
    WithTextLive(m, text);
  }

  lemma InvokeLeaves(tb: Table, m: Machine, d: set<Sym>)
    requires WellFormedTable(tb) && Live(m.stack) && Top(m).text != [] && NextCall(tb, m).Invoke?
    requires NextBody(tb, m).status == Ok && d == NextBody(tb, m).touched + {Top(m).text[0].sym}
    ensures var b, rest := NextBody(tb, m), NextCall(tb, m).rest;
      var x := Expand(tb, b.out, m.hidden + d, Opens(rest, Follow(m.stack)));
      Live(WithText(m, rest).stack) && Leaves(Rest(tb, m), Then(x, Rest(tb, WithText(m, rest))), d)
  {
    var b, rest := NextBody(tb, m), NextCall(tb, m).rest;
    var x := Expand(tb, b.out, m.hidden + d, Opens(rest, Follow(m.stack)));
    var q := Expand(tb, rest, m.hidden, Follow(m.stack));
    InvokeRest(tb, m, d);
    RestByTop(tb, m, rest);
    if Top(m).Macro? {
      EnteringLeaves(x, q, d, b.cost, Remaining(tb, Below(m), m.hidden - Top(m).hideset));
    } else {
      EnteringLeaves(x, q, d, b.cost, q);
    }
  }

  /** An invocation moves on without producing anything by itself. */
  lemma InvokeAdvances(tb: Table, m: Machine, d: set<Sym>)
    requires WellFormedTable(tb) && Live(m.stack) && Top(m).text != [] && NextCall(tb, m).Invoke?
    requires NextBody(tb, m).status == Ok && d == NextBody(tb, m).touched + {Top(m).text[0].sym}
    ensures var r := Entered(m, Top(m).text[0].sym, NextCall(tb, m).rest, d, NextBody(tb, m).out);
      Advances(tb, m, r, [], d) && Rest(tb, r).cost < Rest(tb, m).cost
  {
    var s, call := Top(m).text[0].sym, NextCall(tb, m);
    var def := tb.macros[s];
    BuildFresh(tb, def.body, |def.body|, call.args, m.hidden, |Top(m).text|);
    EnteredRest(tb, m, s, call.rest, d, NextBody(tb, m).out);
    InvokeLeaves(tb, m, d);
  }
}
