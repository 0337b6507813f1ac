/** A text whose expansion never ends. */
module MacroLoop {

  import opened Options
  import opened MacroStack
  import opened MacroText
  import opened MacroProcess
  import opened MacroRuns

  /** With F(x) standing for `x` and G for `F ( ( G )`, reading `( G )` takes the argument of F
      from G's replacement list and then from the text below it, where G is no longer hidden. */
  function Looping(g: Sym): seq<Token> { [Open, Id(g), Close] }

  function Replacement(f: Sym, g: Sym): seq<Token> { [Id(f), Open, Open, Id(g), Close] }

  predicate Circular(tb: Table, f: Sym, g: Sym) {
    && f != g && WellFormedTable(tb) && f in tb.macros && g in tb.macros
    && tb.macros[f] == Def(1, [Par(0)])
    && tb.macros[g] == Def(-1, [Lit(Id(f)), Lit(Open), Lit(Open), Lit(Id(g)), Lit(Close)])
  }

  /** The process with these inputs on top of `b`. */
  function On(b: seq<Input>, top: Input, hidden: set<Sym>, phase: Phase, copies: seq<Copy>, out: seq<Token>): Process {
    Process(Machine(b + [top], hidden), phase, copies, out)
  }

  lemma OnTop(b: seq<Input>, top: Input, hidden: set<Sym>)
    ensures var m := Machine(b + [top], hidden); Top(m) == top && Below(m) == b
  {
  }

  // ----- into G -----

  lemma IntoG(tb: Table, f: Sym, g: Sym, b: seq<Input>, p: Process, q: Process)
    requires Circular(tb, f, g) && Proper(tb, p)
    requires p == On(b, Plain(Looping(g)), {}, Scan, p.copies, p.out)
    requires var e := Emit(p, Open);
      q == Process(Machine(b + [Plain([Close])] + [Macro(g, {}, false, [])], {}), Fill, e.copies + [Copy([], 0, [], [])], e.out)
    ensures Leads(tb, p, 4, Goes(q)) && Proper(tb, q)
  {
    var e := Emit(p, Open);
    var p1 := On(b, Plain([Id(g), Close]), {}, Scan, e.copies, e.out);
    var p2 := On(b, Plain([Close]), {}, AtName(g), e.copies, e.out);
    var p3 := p2.(phase := AtCall(g, []));
    OnTop(b, Plain(Looping(g)), {});
    OnTop(b, Plain([Id(g), Close]), {});
    assert Looping(g)[1..] == [Id(g), Close] && [Id(g), Close][1..] == [Close];
    assert Move(tb, p) == Goes(p1);
    OneMove(tb, p, p1);
    assert Move(tb, p1) == Goes(p2);
    OneMove(tb, p1, p2);
    OneMove(tb, p2, p3);
    OneMove(tb, p3, q);
    Onward(tb, p, 1, p1, 1, Goes(p2));
    Onward(tb, p, 2, p2, 1, Goes(p3));
    Onward(tb, p, 3, p3, 1, Goes(q));
  }

  /** Copying a list of tokens takes one move for each. */
  lemma {:induction false} FillLits(tb: Table, m: Machine, cs: seq<Copy>, k: nat, toks: seq<Token>, out: seq<Token>)
    requires WellFormedTable(tb) && m.stack != [] && Top(m).Macro? && Top(m).sym in tb.macros
    requires var body := tb.macros[Top(m).sym].body;
      |body| == |toks| && k <= |toks| && forall i :: 0 <= i < |body| ==> body[i] == Lit(toks[i])
    requires Proper(tb, Process(m, Fill, cs + [Copy([], k, toks[..k], [])], out))
    ensures var q := Process(m, Fill, cs + [Copy([], |toks|, toks, [])], out);
      Leads(tb, Process(m, Fill, cs + [Copy([], k, toks[..k], [])], out), |toks| - k, Goes(q)) && Proper(tb, q)
    decreases |toks| - k
  {
    var c := Copy([], k, toks[..k], []);
    var p := Process(m, Fill, cs + [c], out);
    assert Last(p.copies) == c && Outer(p.copies) == cs;
    if k == |toks| {
      assert toks[..k] == toks;
      NoMove(tb, p);
    } else {
      var c1 := Copy([], k + 1, toks[..k + 1], []);
      assert toks[..k + 1] == toks[..k] + [toks[k]];
      var q := Process(m, Fill, cs + [c1], out);
      assert Move(tb, p) == Goes(q);
      OneMove(tb, p, q);
      FillLits(tb, m, cs, k + 1, toks, out);
      Onward(tb, p, 1, q, |toks| - k - 1, Goes(Process(m, Fill, cs + [Copy([], |toks|, toks, [])], out)));
    }
  }

  lemma SmallSets(stack: seq<Input>, f: Sym, g: Sym)
    requires Within(stack, {f, g})
    ensures Room(stack, g)
  {
    forall i | 0 <= i < |stack| && stack[i].Macro? ensures |stack[i].hideset + {g}| <= NR_MACROARG {
      SubsetSize(stack[i].hideset + {g}, {f, g});
    }
  }

  lemma InstallG(tb: Table, f: Sym, g: Sym, b: seq<Input>, cs: seq<Copy>, out: seq<Token>, p: Process, q: Process)
    requires Circular(tb, f, g) && Proper(tb, p) && Within(b, {f, g})
    requires p == Process(Machine(b + [Plain([Close])] + [Macro(g, {}, false, [])], {}), Fill, cs + [Copy([], 5, Replacement(f, g), [])], out)
    requires q == On(Grow(b, {g}) + [Plain([Close])], Macro(g, {g}, true, Replacement(f, g)), {g}, Scan, cs, out)
    ensures Leads(tb, p, 1, Goes(q)) && Proper(tb, q)
  {
    OnTop(b + [Plain([Close])], Macro(g, {}, false, []), {});
    SmallSets(p.m.stack, f, g);
    assert Grow(b + [Plain([Close])], {g}) == Grow(b, {g}) + [Plain([Close])];
    assert {} + {g} == {g};
    assert Outer(p.copies) == cs;
    assert Move(tb, p) == Goes(q);
    OneMove(tb, p, q);
  }

  // ----- through G and past its end -----

  /** The arguments of F as far as G's list goes. */
  lemma ThroughG(tb: Table, f: Sym, g: Sym, b: seq<Input>, cs: seq<Copy>, out: seq<Token>, p: Process, q: Process)
    requires Circular(tb, f, g) && Proper(tb, p)
    requires p == On(b, Macro(g, {g}, true, Replacement(f, g)), {g}, Scan, cs, out)
    requires q == On(b, Macro(g, {g}, true, []), {g}, AtArgs(f, [], Looping(g), 0), cs, out)
    ensures Leads(tb, p, 5, Goes(q)) && Proper(tb, q)
  {
    var p2 := On(b, Macro(g, {g}, true, [Open, Id(g), Close]), {g}, AtArgs(f, [], [], 0), cs, out);
    NamesF(tb, f, g, b, cs, out, p, p2);
    GatherG(tb, f, g, b, cs, out, p2, q);
    Onward(tb, p, 2, p2, 3, Goes(q));
  }

  lemma NamesF(tb: Table, f: Sym, g: Sym, b: seq<Input>, cs: seq<Copy>, out: seq<Token>, p: Process, q: Process)
    requires Circular(tb, f, g) && Proper(tb, p)
    requires p == On(b, Macro(g, {g}, true, Replacement(f, g)), {g}, Scan, cs, out)
    requires q == On(b, Macro(g, {g}, true, [Open, Id(g), Close]), {g}, AtArgs(f, [], [], 0), cs, out)
    ensures Leads(tb, p, 2, Goes(q)) && Proper(tb, q)
  {
    var t := Replacement(f, g);
    var ip := Macro(g, {g}, true, t);
    var r := On(b, ip.(text := [Open, Open, Id(g), Close]), {g}, AtName(f), cs, out);
    assert t[1..] == [Open, Open, Id(g), Close] && [Open, Open, Id(g), Close][1..] == [Open, Id(g), Close];
    OnTop(b, ip, {g});
    OnTop(b, ip.(text := [Open, Open, Id(g), Close]), {g});
    assert Move(tb, p) == Goes(r);
    OneMove(tb, p, r);
    assert Move(tb, r) == Goes(q);
    OneMove(tb, r, q);
    Onward(tb, p, 1, r, 1, Goes(q));
  }

  lemma GatherG(tb: Table, f: Sym, g: Sym, b: seq<Input>, cs: seq<Copy>, out: seq<Token>, p: Process, q: Process)
    requires Circular(tb, f, g) && Proper(tb, p)
    requires p == On(b, Macro(g, {g}, true, [Open, Id(g), Close]), {g}, AtArgs(f, [], [], 0), cs, out)
    requires q == On(b, Macro(g, {g}, true, []), {g}, AtArgs(f, [], Looping(g), 0), cs, out)
    ensures Leads(tb, p, 3, Goes(q)) && Proper(tb, q)
  {
    var p1 := On(b, Macro(g, {g}, true, [Id(g), Close]), {g}, AtArgs(f, [], [Open], 1), cs, out);
    var p2 := On(b, Macro(g, {g}, true, [Close]), {g}, AtArgs(f, [], [Open, Id(g)], 1), cs, out);
    assert [Open] + [Id(g), Close] == [Open, Id(g), Close] && [Id(g)] + [Close] == [Id(g), Close] && [Close] + [] == [Close];
    assert [] + [Open] == [Open] && [Open] + [Id(g)] == [Open, Id(g)] && [Open, Id(g)] + [Close] == Looping(g);
    Gather(tb, b, g, Open, [Id(g), Close], p, p1);
    Gather(tb, b, g, Id(g), [Close], p1, p2);
    Gather(tb, b, g, Close, [], p2, q);
    Onward(tb, p, 1, p1, 1, Goes(p2));
    Onward(tb, p, 2, p2, 1, Goes(q));
  }

  /** One token inside an argument. */
  lemma Gather(tb: Table, b: seq<Input>, g: Sym, t: Token, rest: seq<Token>, p: Process, q: Process)
    requires WellFormedTable(tb) && Proper(tb, p) && p.phase.AtArgs?
    requires p == On(b, Macro(g, {g}, true, [t] + rest), {g}, p.phase, p.copies, p.out)
    requires !t.Comma? && (p.phase.depth == 0 ==> !t.Close?)
    requires var AtArgs(s, args, cur, depth) := p.phase;
      var d := if t.Open? then depth + 1 else if t.Close? then depth - 1 else depth;
      q == On(b, Macro(g, {g}, true, rest), {g}, AtArgs(s, args, cur + [t], d), p.copies, p.out)
    ensures Leads(tb, p, 1, Goes(q)) && Proper(tb, q)
  {
    OnTop(b, Macro(g, {g}, true, [t] + rest), {g});
    assert ([t] + rest)[1..] == rest;
    assert Move(tb, p) == Goes(q);
    OneMove(tb, p, q);
  }

  /** G's list ends, G is unhidden, and the last parenthesis comes from the text below. */
  lemma PastG(tb: Table, f: Sym, g: Sym, b: seq<Input>, cs: seq<Copy>, out: seq<Token>, p: Process, q: Process)
    requires Circular(tb, f, g) && Proper(tb, p)
    requires p == On(b + [Plain([Close])], Macro(g, {g}, true, []), {g}, AtArgs(f, [], Looping(g), 0), cs, out)
    requires q == On(b, Plain([]), {}, AtCall(f, [Looping(g)]), cs, out)
    ensures Leads(tb, p, 2, Goes(q)) && Proper(tb, q)
  {
    var p1 := On(b, Plain([Close]), {}, AtArgs(f, [], Looping(g), 0), cs, out);
    OnTop(b + [Plain([Close])], Macro(g, {g}, true, []), {g});
    OnTop(b, Plain([Close]), {});
    assert {g} - {g} == {};
    assert Move(tb, p) == Goes(p1);
    OneMove(tb, p, p1);
    assert [Close][1..] == [] && [] + [Looping(g)] == [Looping(g)];
    assert Move(tb, p1) == Goes(q);
    OneMove(tb, p1, q);
    Onward(tb, p, 1, p1, 1, Goes(q));
  }

  lemma IntoF(tb: Table, f: Sym, g: Sym, b: seq<Input>, cs: seq<Copy>, out: seq<Token>, p: Process, q: Process)
    requires Circular(tb, f, g) && Proper(tb, p)
    requires p == On(b, Plain([]), {}, AtCall(f, [Looping(g)]), cs, out)
    requires q == On(b + [Plain([])] + [Macro(f, {}, false, [])], Plain(Looping(g)), {}, Scan, cs + [Copy([Looping(g)], 0, [], [])], out)
    ensures Leads(tb, p, 2, Goes(q)) && Proper(tb, q)
  {
    var m1 := Machine(b + [Plain([])] + [Macro(f, {}, false, [])], {});
    var p1 := Process(m1, Fill, cs + [Copy([Looping(g)], 0, [], [])], out);
    OneMove(tb, p, p1);
    OnTop(b + [Plain([])], Macro(f, {}, false, []), {});
    assert Last(p1.copies) == Copy([Looping(g)], 0, [], []) && !BesideCat([Par(0)], 0);
    assert Move(tb, p1) == Goes(q);
    OneMove(tb, p1, q);
    Onward(tb, p, 1, p1, 1, Goes(q));
  }

  // ----- laps -----

  ghost predicate AtLap(tb: Table, p: Process, f: Sym, g: Sym) {
    && Proper(tb, p) && p.phase.Scan? && Top(p.m) == Plain(Looping(g))
    && p.m.hidden == {} && Within(p.m.stack, {f, g})
  }

  ghost predicate Deeper(tb: Table, f: Sym, g: Sym, p: Process, moves: nat, q: Process, depth: int) {
    Leads(tb, p, moves, Goes(q)) && AtLap(tb, q, f, g) && |q.m.stack| == |p.m.stack| + depth
  }

  lemma AgainAtLap(tb: Table, f: Sym, g: Sym, b: seq<Input>, q: Process)
    requires Within(b, {f, g}) && Proper(tb, q)
    requires q == On(Grow(b, {g}) + [Plain([])] + [Macro(f, {}, false, [])], Plain(Looping(g)), {}, Scan, q.copies, q.out)
    ensures AtLap(tb, q, f, g) && |q.m.stack| == |b| + 3
  {
    forall i | 0 <= i < |q.m.stack| && q.m.stack[i].Macro? ensures q.m.stack[i].hideset <= {f, g} {
      if i < |b| {
        assert q.m.stack[i] == GrowOne(b[i], {g});
      }
    }
  }

  /** The first half: to G's list. */
  lemma Enter(tb: Table, f: Sym, g: Sym, b: seq<Input>, p: Process) returns (q: Process)
    requires Circular(tb, f, g) && Proper(tb, p) && Within(b, {f, g})
    requires p == On(b, Plain(Looping(g)), {}, Scan, p.copies, p.out)
    ensures Leads(tb, p, 10, Goes(q)) && Proper(tb, q)
    ensures q == On(Grow(b, {g}) + [Plain([Close])], Macro(g, {g}, true, Replacement(f, g)), {g}, Scan, q.copies, q.out)
  {
    var e, t := Emit(p, Open), Replacement(f, g);
    var cs, out := e.copies, e.out;
    var m1 := Machine(b + [Plain([Close])] + [Macro(g, {}, false, [])], {});
    var p1 := Process(m1, Fill, cs + [Copy([], 0, [], [])], out);
    var p2 := Process(m1, Fill, cs + [Copy([], 5, t, [])], out);
    q := On(Grow(b, {g}) + [Plain([Close])], Macro(g, {g}, true, t), {g}, Scan, cs, out);
    IntoG(tb, f, g, b, p, p1);
    CopyG(tb, f, g, m1, cs, out, p1, p2);
    InstallG(tb, f, g, b, cs, out, p2, q);
    Onward(tb, p, 4, p1, 5, Goes(p2));
    Onward(tb, p, 9, p2, 1, Goes(q));
  }

  /** Every lap is forced, and leaves the same text to read two inputs deeper. */
  lemma Lap(tb: Table, f: Sym, g: Sym, p: Process) returns (q: Process)
    requires Circular(tb, f, g) && AtLap(tb, p, f, g)
    ensures Deeper(tb, f, g, p, 1, q, 2)
  {
    var b := Below(p.m);
    StackSplit(p.m);
    var r := Enter(tb, f, g, b, p);
    q := Around(tb, f, g, Grow(b, {g}), r.copies, r.out, r);
    Onward(tb, p, 10, r, 9, Goes(q));
    AgainAtLap(tb, f, g, b, q);
  }

  lemma CopyG(tb: Table, f: Sym, g: Sym, m: Machine, cs: seq<Copy>, out: seq<Token>, p: Process, q: Process)
    requires Circular(tb, f, g) && Proper(tb, p) && m.stack != [] && Top(m) == Macro(g, {}, false, [])
    requires p == Process(m, Fill, cs + [Copy([], 0, [], [])], out)
    requires q == Process(m, Fill, cs + [Copy([], 5, Replacement(f, g), [])], out)
    ensures Leads(tb, p, 5, Goes(q)) && Proper(tb, q)
  {
    assert Replacement(f, g)[..0] == [];
    FillLits(tb, m, cs, 0, Replacement(f, g), out);
  }

  /** From G's list to the call of F. */
  lemma Leave(tb: Table, f: Sym, g: Sym, b: seq<Input>, cs: seq<Copy>, out: seq<Token>, p: Process, q: Process)
    requires Circular(tb, f, g) && Proper(tb, p)
    requires p == On(b + [Plain([Close])], Macro(g, {g}, true, Replacement(f, g)), {g}, Scan, cs, out)
    requires q == On(b, Plain([]), {}, AtCall(f, [Looping(g)]), cs, out)
    ensures Leads(tb, p, 7, Goes(q)) && Proper(tb, q)
  {
    var r := On(b + [Plain([Close])], Macro(g, {g}, true, []), {g}, AtArgs(f, [], Looping(g), 0), cs, out);
    ThroughG(tb, f, g, b + [Plain([Close])], cs, out, p, r);
    PastG(tb, f, g, b, cs, out, r, q);
    Onward(tb, p, 5, r, 2, Goes(q));
  }

  /** The second half: from G's list to the argument of F. */
  lemma Around(tb: Table, f: Sym, g: Sym, b: seq<Input>, cs: seq<Copy>, out: seq<Token>, p: Process) returns (q: Process)
    requires Circular(tb, f, g) && Proper(tb, p)
    requires p == On(b + [Plain([Close])], Macro(g, {g}, true, Replacement(f, g)), {g}, Scan, cs, out)
    ensures Leads(tb, p, 9, Goes(q)) && Proper(tb, q)
    ensures q == On(b + [Plain([])] + [Macro(f, {}, false, [])], Plain(Looping(g)), {}, Scan, q.copies, q.out)
  {
    var r := On(b, Plain([]), {}, AtCall(f, [Looping(g)]), cs, out);
    q := On(b + [Plain([])] + [Macro(f, {}, false, [])], Plain(Looping(g)), {}, Scan, cs + [Copy([Looping(g)], 0, [], [])], out);
    Leave(tb, f, g, b, cs, out, p, r);
    IntoF(tb, f, g, b, cs, out, r, q);
    Onward(tb, p, 7, r, 2, Goes(q));
  }

  lemma DeeperOnward(tb: Table, f: Sym, g: Sym, p: Process, a: nat, q: Process, d: int, b: nat, r: Process, e: int)
    requires Deeper(tb, f, g, p, a, q, d) && Deeper(tb, f, g, q, b, r, e)
    ensures Deeper(tb, f, g, p, a + b, r, d + e)
  {
    Onward(tb, p, a, q, b, Goes(r));
  }

  lemma {:induction false} Laps(tb: Table, f: Sym, g: Sym, p: Process, n: nat) returns (q: Process)
    requires Circular(tb, f, g) && AtLap(tb, p, f, g)
    ensures Deeper(tb, f, g, p, n, q, 2 * n)
    decreases n
  {
    if n == 0 {
      q := p;
      NoMove(tb, p);
    } else {
      var r := Lap(tb, f, g, p);
      q := Laps(tb, f, g, r, n - 1);
      DeeperOnward(tb, f, g, p, 1, r, 2, n - 1, q, 2 * (n - 1));
    }
  }

  /** Reading `( G )` never ends: after any number of moves the process still goes on, and for every
      n it comes, not before n moves, to be 2n inputs deeper with nothing hidden and the same text to
      read. */
  lemma Diverges(tb: Table, f: Sym, g: Sym, n: nat)
    requires Circular(tb, f, g)
    ensures Moves(tb, Beginning(Looping(g)), n).Goes?
    ensures exists q :: Deeper(tb, f, g, Beginning(Looping(g)), n, q, 2 * n)
  {
    var p := Beginning(Looping(g));
    BeginningProper(tb, Looping(g));
    assert AtLap(tb, p, f, g);
    var q := Laps(tb, f, g, p, n);
    var k :| k >= n && Iterate(Mover(tb), p, k) == Goes(q);
    StillGoing(Mover(tb), p, n, k);
  }

  // ----- the expansion function on that text -----

  /** A list of plain tokens is copied as it stands. */
  lemma {:induction false} BuildLits(tb: Table, toks: seq<Token>, body: seq<Item>, k: nat, hidden: set<Sym>, n: nat)
    requires WellFormedTable(tb) && |body| == |toks| && k <= |body|
    requires forall i :: 0 <= i < |body| ==> body[i] == Lit(toks[i])
    ensures Build(tb, body, k, [], hidden, n) == Result(Ok, toks[..k], {}, 0)
    decreases k
  {
    if k > 0 {
      BuildLits(tb, toks, body, k - 1, hidden, n);
      assert toks[..k] == toks[..k - 1] + [toks[k - 1]];
    }
  }

  lemma FlaggedAtF(tb: Table, f: Sym, g: Sym, text: seq<Token>)
    requires f != g && WellFormedTable(tb) && f in tb.macros && tb.macros[f] == Def(1, [Par(0)])
    requires text == Replacement(f, g)
    ensures Expand(tb, text, {g}, false).status == Crossed
  {
    var rest := [Open, Id(g), Close];
    assert text[1..] == [Open, Open, Id(g), Close] && text[1..][1..] == rest;
    assert rest[1..] == [Id(g), Close] && rest[1..][1..] == [Close] && rest[1..][1..][1..] == [];
    assert Argument([], 0) == None;
    assert Argument(rest[1..][1..], 1) == None;
    assert Argument(rest[1..], 1) == None;
    assert Argument(rest, 0) == None;
    assert ParsePars(tb.macros[f], text[1..], false) == Bad(Crossed);
  }

  lemma FlaggedAtG(tb: Table, f: Sym, g: Sym, text: seq<Token>)
    requires Circular(tb, f, g)
    requires text == [Id(g), Close]
    ensures Expand(tb, text, {}, false).status == Crossed
  {
    var z := Result(Ok, Replacement(f, g), {}, 0);
    BuildLits(tb, Replacement(f, g), tb.macros[g].body, 5, {}, 2);
    assert Replacement(f, g)[..5] == Replacement(f, g);
    ExpandInvoked(tb, text, {}, [], text[1..], z, {} + {g});
    assert {} + ({} + {g}) == {g};
    FlaggedAtF(tb, f, g, Replacement(f, g));
  }

  /** The expansion function says where: at an invocation whose arguments leave the input. */
  lemma DivergenceFlagged(tb: Table, f: Sym, g: Sym)
    requires Circular(tb, f, g)
    ensures Expand(tb, Looping(g), {}, false).status == Crossed
  {
    var text := Looping(g);
    assert text[1..] == [Id(g), Close];
    assert !Expandable(tb, Open, {});
    FlaggedAtG(tb, f, g, [Id(g), Close]);
  }
}
