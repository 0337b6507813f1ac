/** A function-like name that ends a replacement list and finds its arguments in the input below. */
module MacroForward {

  import opened Options
  import opened MacroStack
  import opened MacroText
  import opened MacroLevels
  import opened Preprocessor
  import opened MacroProcess
  import opened MacroMeaning

  /** A run ends as what it leads to ends. */
  lemma SameEnd(tb: Table, p: Process, n: nat, r: Process, o: Outcome)
    requires Leads(tb, p, n, Goes(r)) && !o.Goes?
    ensures EndsWith(tb, p, o) <==> EndsWith(tb, r, o)
  {
    if EndsWith(tb, p, o) {
      var k :| k >= n && Iterate(Mover(tb), p, k) == Goes(r);
      var l :| l >= 0 && Iterate(Mover(tb), p, l) == o;
      if l <= k {
        StillGoing(Mover(tb), p, l, k);
      }
      IterateOnward(Mover(tb), p, k, r, l - k);
      OneEnd(tb, r, o);
    }
    if EndsWith(tb, r, o) {
      Onward(tb, p, n, r, 0, o);
      OneEnd(tb, p, o);
    }
  }

  /** The machine that looks for the parenthesis, and the same with the name put in front of it. */
  lemma {:induction false} LookHidden(m: Machine, s: Sym)
    requires Live(m.stack) && s !in m.hidden
    ensures s !in Settled(m).hidden && Live(Settled(m).stack)
    decreases |m.stack|
  {
    if Top(m).Macro? && Top(m).text == [] {
      LookHidden(Finished(m), s);
    }
  }

  function Lowered(m: Machine, s: Sym): Machine
    requires Live(m.stack)
  {
    var r := Settled(m);
    if r.stack == [] then r else WithText(r, [Id(s)] + Top(r).text)
  }

  /** The name finds its parenthesis below: from there on the moves are those of the name standing in
      the input below, with every macro above it ended. */
  lemma NameFallsThrough(tb: Table, p: Process, s: Sym, m1: Machine, q: Process, o: Outcome)
    requires Set(tb, p) && Top(p.m).text == [Id(s)] && Expandable(tb, Id(s), p.m.hidden) && tb.macros[s].npars != -1
    requires m1 == WithText(p.m, []) && Live(m1.stack) && Settled(m1).stack != []
    requires Top(Settled(m1)).text != [] && Top(Settled(m1)).text[0].Open?
    requires q == p.(m := Lowered(m1, s)) && Set(tb, q) && !o.Goes?
    ensures EndsWith(tb, p, o) <==> EndsWith(tb, q, o)
  {
    var low := Settled(m1);
    var text := Top(low).text;
    var r := p.(m := WithText(low, text[1..]), phase := AtArgs(s, [], [], 0));
    FromAbove(tb, p, s, m1, r);
    SameEnd(tb, p, 1, r, o);
    LookHidden(m1, s);
    FromBelow(tb, q, s, low, r);
    SameEnd(tb, q, 2, r, o);
  }

  lemma FromBelow(tb: Table, q: Process, s: Sym, low: Machine, r: Process)
    requires low.stack != [] && Top(low).text != [] && Top(low).text[0].Open?
    requires Set(tb, q) && q.m == WithText(low, [Id(s)] + Top(low).text)
    requires Expandable(tb, Id(s), q.m.hidden) && tb.macros[s].npars != -1
    requires r == q.(m := WithText(low, Top(low).text[1..]), phase := AtArgs(s, [], [], 0))
    ensures Leads(tb, q, 2, Goes(r))
  {
    var text := Top(low).text;
    TextTwice(low, [Id(s)] + text, text[1..]);
    assert ([Id(s)] + text)[2..] == text[1..];
    IntoList(tb, q, s, r);
  }

  lemma FromAbove(tb: Table, p: Process, s: Sym, m1: Machine, r: Process)
    requires Set(tb, p) && Top(p.m).text == [Id(s)] && Expandable(tb, Id(s), p.m.hidden) && tb.macros[s].npars != -1
    requires m1 == WithText(p.m, []) && Live(m1.stack) && Settled(m1).stack != []
    requires Top(Settled(m1)).text != [] && Top(Settled(m1)).text[0].Open?
    requires r == p.(m := WithText(Settled(m1), Top(Settled(m1)).text[1..]), phase := AtArgs(s, [], [], 0))
    ensures Leads(tb, p, 1, Goes(r))
  {
    var q1 := p.(m := m1, phase := AtName(s));
    var q2 := q1.(m := Settled(m1));
    assert Top(p.m).text[1..] == [];
    IntoName(tb, p, s, q1);
    NameLooks(tb, q1, s);
    OpenMove(tb, q2, s, r);
    Onward(tb, p, 1, q1, 0, Goes(q2));
    Onward(tb, p, 1, q2, 1, Goes(r));
  }

  // ----- one macro that stands for another -----

  /** Where the moves are when G has been replaced by F. */
  function InForward(f: Sym, g: Sym, rest: seq<Token>): Process {
    Process(Machine([Plain(rest), Macro(g, {g}, true, [Id(f)])], {g}), Scan, [], [])
  }

  ghost predicate Forwards(tb: Table, f: Sym, g: Sym) {
    && WellFormedTable(tb) && f != g && f in tb.macros && g in tb.macros
    && tb.macros[g] == Def(-1, [Lit(Id(f))]) && tb.macros[f].npars != -1
  }

  lemma BeginSet(tb: Table, text: seq<Token>)
    requires WellFormedTable(tb)
    ensures Set(tb, Beginning(text))
  {
    BeginningProper(tb, text);
  }

  lemma Replaces(tb: Table, f: Sym, g: Sym, rest: seq<Token>)
    requires Forwards(tb, f, g)
    ensures Leads(tb, Beginning([Id(g)] + rest), 1, Goes(InForward(f, g, rest))) && Proper(tb, InForward(f, g, rest))
  {
    var p := Beginning([Id(g)] + rest);
    var m := Machine([Plain(rest)] + [Macro(g, {}, false, [])], {});
    var q0 := p.(m := Machine([Plain(rest)], {}), phase := AtCall(g, []));
    var q1 := Process(m, Fill, [Copy([], 0, [], [])], []);
    var q2 := Process(m, Fill, [Copy([], 1, [Id(f)], [])], []);
    var r := InForward(f, g, rest);
    BeginSet(tb, [Id(g)] + rest);
    assert ([Id(g)] + rest)[1..] == rest;
    assert WithText(p.m, rest) == q0.m;
    ObjectCall(tb, p, g);
    CallMove(tb, q0, q1);
    LitMove(tb, q1, q2, Id(f));
    InstallOne(tb, q2, r, g);
    Onward(tb, p, 0, q0, 1, Goes(q1));
    Onward(tb, p, 1, q1, 1, Goes(q2));
    Onward(tb, p, 2, q2, 1, Goes(r));
  }

  lemma LitMove(tb: Table, p: Process, q: Process, t: Token)
    requires WellFormedTable(tb) && Proper(tb, p) && p.phase.Fill? && tb.macros[Top(p.m).sym].body == [Lit(t)]
    requires p.copies == [Copy([], 0, [], [])] && q == p.(copies := [Copy([], 1, [t], [])])
    ensures Leads(tb, p, 1, Goes(q)) && Proper(tb, q)
  {
    assert [] + [t] == [t];
    assert Outer(p.copies) == [];
    assert Move(tb, p) == Goes(q);
    OneMove(tb, p, q);
  }

  lemma InstallOne(tb: Table, q: Process, r: Process, g: Sym)
    requires WellFormedTable(tb) && Proper(tb, q) && |q.m.stack| == 2 && q.m.stack[0].Plain?
    requires q.m.stack[1] == Macro(g, {}, false, []) && q.m.hidden == {} && |tb.macros[g].body| == 1
    requires q == Process(q.m, Fill, [Copy([], 1, q.copies[0].buf, [])], [])
    requires r == Process(Machine([q.m.stack[0], Macro(g, {g}, true, q.copies[0].buf)], {g}), Scan, [], [])
    ensures Leads(tb, q, 1, Goes(r)) && Proper(tb, r)
  {
    assert {} + {g} == {g};
    assert Room(q.m.stack, g);
    assert Installed(q.m, q.copies[0].buf) == r.m;
    assert Move(tb, q) == Goes(r);
    OneMove(tb, q, r);
  }

  /** With G standing for the function-like F: G and an argument list end as F and that list do. */
  lemma ForwardedCall(tb: Table, f: Sym, g: Sym, rest: seq<Token>, o: Outcome)
    requires Forwards(tb, f, g) && rest != [] && rest[0].Open? && !o.Goes?
    ensures EndsWith(tb, Beginning([Id(g)] + rest), o) <==> EndsWith(tb, Beginning([Id(f)] + rest), o)
  {
    var p, q := InForward(f, g, rest), Beginning([Id(f)] + rest);
    Replaces(tb, f, g, rest);
    SameEnd(tb, Beginning([Id(g)] + rest), 1, p, o);
    var m1 := WithText(p.m, []);
    assert m1 == Machine([Plain(rest), Macro(g, {g}, true, [])], {g});
    assert Finished(m1) == Machine([Plain(rest)], {});
    assert Settled(m1) == Finished(m1);
    BeginSet(tb, [Id(f)] + rest);
    ForwardSet(tb, f, g, rest);
    NameFallsThrough(tb, p, f, m1, q, o);
  }

  lemma ForwardSet(tb: Table, f: Sym, g: Sym, rest: seq<Token>)
    requires Forwards(tb, f, g) && Proper(tb, InForward(f, g, rest))
    ensures Set(tb, InForward(f, g, rest))
  {
    var m := InForward(f, g, rest).m;
    assert m.stack[..1] == [Plain(rest)];
    assert HiddenBy(m.stack, 0, g);
  }

  /** So G and the list give what the expansion function gives for F and the list. */
  lemma ForwardedExpands(tb: Table, f: Sym, g: Sym, rest: seq<Token>)
    requires Forwards(tb, f, g) && rest != [] && rest[0].Open?
    ensures var e := Expand(tb, [Id(f)] + rest, {}, false);
      e.status == Ok ==>
        EndsWith(tb, Beginning([Id(g)] + rest), Ends(e.out)) || EndsFull(tb, Beginning([Id(g)] + rest))
  {
    var e := Expand(tb, [Id(f)] + rest, {}, false);
    ProcessExpands(tb, [Id(f)] + rest);
    ForwardedCall(tb, f, g, rest, Ends(e.out));
    ForwardedCall(tb, f, g, rest, Stops(Complex));
  }
}
