/** The moves of the preprocessor produce the tokens of the expansion function. */
module MacroMeaning {

  import opened Options
  import opened MacroStack
  import opened MacroText
  import opened MacroLevels
  import opened Preprocessor
  import opened MacroProcess
  import S = MacroStandard
  import A = MacroAgree

  // ----- tokens on their way out -----

  function EmitAll(p: Process, toks: seq<Token>): Process {
    if p.copies == [] then p.(out := p.out + toks)
    else p.(copies := Outer(p.copies) + [Last(p.copies).(piece := Last(p.copies).piece + toks)])
  }

  lemma EmitNone(p: Process)
    ensures EmitAll(p, []) == p
  {
    if p.copies == [] {
      assert p.out + [] == p.out;
    } else {
      assert Last(p.copies).piece + [] == Last(p.copies).piece;
      assert Outer(p.copies) + [Last(p.copies)] == p.copies;
    }
  }

  lemma EmitMore(p: Process, m: Machine, a: seq<Token>, b: seq<Token>)
    ensures EmitAll(EmitAll(p, a).(m := m), b) == EmitAll(p, a + b).(m := m)
  {
    if p.copies == [] {
      assert p.out + a + b == p.out + (a + b);
    } else {
      var c := Last(p.copies);
      assert Last(EmitAll(p, a).copies) == c.(piece := c.piece + a);
      assert Outer(EmitAll(p, a).copies) == Outer(p.copies);
      assert c.piece + a + b == c.piece + (a + b);
    }
  }

  // ----- a level of the stack -----

  lemma {:induction false} ShapeLive(stack: seq<Input>)
    requires Shape(stack) && !Pending(stack[|stack| - 1])
    ensures Live(stack)
    decreases |stack|
  {
    var n := |stack| - 1;
    if stack[n].Macro? {
      assert stack == stack[..n] + [stack[n]];
      PopShape(stack[..n], stack[n]);
      ShapeLive(stack[..n]);
    }
  }

  /** Between two tokens. */
  ghost predicate Set(tb: Table, p: Process) {
    && WellFormedTable(tb)
    && p.phase.Scan? && Proper(tb, p) && Good(tb, p.m) && Live(p.m.stack)
  }

  /** The level has been read to its end and its tokens have gone out. */
  ghost predicate LevelRead(tb: Table, p: Process, q: Process)
    requires WellFormedTable(tb) && Live(p.m.stack)
  {
    var e := Rest(tb, p.m);
    && q == EmitAll(p, e.out).(m := q.m) && Advances(tb, p.m, q.m, e.out, e.touched)
    && Top(q.m) == Plain([]) && Good(tb, q.m)
  }

  /** A hideset was full, which takes more macros than it has places. */
  ghost predicate Full(tb: Table, o: Outcome) {
    o == Stops(Complex) && |tb.macros| > NR_MACROARG
  }

  ghost predicate Overflows(tb: Table, p: Process) {
    |tb.macros| > NR_MACROARG && Leads(tb, p, 0, Stops(Complex))
  }

  /** The moves from `p` end as the expansion function says, or with a full hideset. */
  ghost predicate Finishes(tb: Table, p: Process, o: Outcome)
    requires WellFormedTable(tb) && Live(p.m.stack)
  {
    && Leads(tb, p, 0, o)
    && (Rest(tb, p.m).status == Ok ==> (o.Goes? && LevelRead(tb, p, o.p)) || Full(tb, o))
    && (Rest(tb, p.m).status == BadCall ==> o == Stops(Arity) || Full(tb, o))
  }

  /** Some moves that advance through the level. */
  ghost predicate Onwards(tb: Table, p: Process, r: Process, out: seq<Token>, d: set<Sym>)
    requires WellFormedTable(tb)
  {
    && Leads(tb, p, 0, Goes(r)) && r == EmitAll(p, out).(m := r.m) && Set(tb, r)
    && Advances(tb, p.m, r.m, out, d) && Rest(tb, r.m).cost < Rest(tb, p.m).cost
  }

  lemma Further(tb: Table, p: Process, r: Process, out: seq<Token>, d: set<Sym>, o: Outcome)
    requires Set(tb, p) && Onwards(tb, p, r, out, d) && Finishes(tb, r, o)
    ensures Finishes(tb, p, o)
  {
    Onward(tb, p, 0, r, 0, o);
    if Rest(tb, r.m).status == Ok && o.Goes? {
      var q, e := o.p, Rest(tb, r.m);
      EmitMore(p, r.m, out, e.out);
      Compose(tb, p.m, r.m, q.m, out, d, e.out, e.touched);
    }
  }

  // ----- ends and plain tokens -----

  lemma PastEnd(tb: Table, p: Process) returns (r: Process)
    requires Set(tb, p) && Top(p.m).Macro? && Top(p.m).text == []
    ensures Onwards(tb, p, r, [], {})
  {
    r := p.(m := Finished(p.m));
    assert Move(tb, p) == Goes(r);
    OneMove(tb, p, r);
    FinishGood(tb, p.m);
    FinishAdvances(tb, p.m);
    EmitNone(p);
  }

  lemma PastToken(tb: Table, p: Process) returns (r: Process)
    requires Set(tb, p) && Top(p.m).text != [] && !Expandable(tb, Top(p.m).text[0], p.m.hidden)
    ensures Onwards(tb, p, r, [Top(p.m).text[0]], {})
  {
    var t := Top(p.m).text[0];
    r := Emit(ReadOne(p), t);
    assert Move(tb, p) == Goes(r);
    OneMove(tb, p, r);
    TextGood(tb, p.m, Top(p.m).text[1..]);
    ReadAdvances(tb, p.m);
  }

  lemma AtEnd(tb: Table, p: Process)
    requires Set(tb, p) && Top(p.m) == Plain([])
    ensures Finishes(tb, p, Goes(p))
  {
    NoMove(tb, p);
    PlainEnd(tb, p.m);
    EmitNone(p);
    Stays(tb, p.m);
  }

  // ----- names that are left alone -----

  /** Looking for a parenthesis ends the macro inputs that have run out. */
  lemma {:induction false} NameLooks(tb: Table, p: Process, s: Sym)
    requires WellFormedTable(tb) && Proper(tb, p) && p.phase == AtName(s) && tb.macros[s].npars != -1 && Live(p.m.stack)
    ensures Leads(tb, p, 0, Goes(p.(m := Settled(p.m)))) && Proper(tb, p.(m := Settled(p.m)))
    decreases |p.m.stack|
  {
    if Top(p.m).Macro? && Top(p.m).text == [] {
      var q := p.(m := Finished(p.m));
      assert Move(tb, p) == Goes(q);
      OneMove(tb, p, q);
      NameLooks(tb, q, s);
      Onward(tb, p, 1, q, 0, Goes(p.(m := Settled(p.m))));
    } else {
      NoMove(tb, p);
    }
  }

  lemma IntoName(tb: Table, p: Process, s: Sym, q: Process)
    requires Set(tb, p) && Top(p.m).text != [] && Top(p.m).text[0] == Id(s) && Expandable(tb, Id(s), p.m.hidden)
    requires q == p.(m := WithText(p.m, Top(p.m).text[1..]), phase := AtName(s))
    ensures Leads(tb, p, 1, Goes(q)) && Proper(tb, q) && Live(q.m.stack) && Good(tb, q.m)
  {
    assert Move(tb, p) == Goes(q);
    OneMove(tb, p, q);
    WithTextLive(p.m, Top(p.m).text[1..]);
    TextGood(tb, p.m, Top(p.m).text[1..]);
  }

  lemma NameOut(tb: Table, p: Process, s: Sym, r: Process)
    requires WellFormedTable(tb) && Proper(tb, p) && p.phase == AtName(s) && tb.macros[s].npars != -1
    requires Top(p.m).text == [] ==> Top(p.m).Plain?
    requires Top(p.m).text != [] ==> !Top(p.m).text[0].Open?
    requires r == EmitAll(p, [Id(s)]).(phase := Scan)
    ensures Leads(tb, p, 1, Goes(r)) && Proper(tb, r)
  {
    assert Move(tb, p) == Goes(r);
    OneMove(tb, p, r);
  }

  /** The machine where a name with nothing to call is put out. */
  lemma NameAdvances(tb: Table, m: Machine, s: Sym, m1: Machine)
    requires WellFormedTable(tb) && Good(tb, m) && Live(m.stack) && Top(m).text != [] && Top(m).text[0] == Id(s)
    requires Expandable(tb, Id(s), m.hidden) && NextCall(tb, m) == Name && m1 == WithText(m, Top(m).text[1..])
    ensures Live(m1.stack) && tb.macros[s].npars != -1
    ensures var r := Settled(m1);
      && Live(r.stack) && Good(tb, r) && (Top(r).text == [] ==> Top(r).Plain?)
      && (Top(r).text != [] ==> !Top(r).text[0].Open?)
      && Advances(tb, m, r, [Id(s)], {}) && Rest(tb, r).cost < Rest(tb, m).cost
  {
    NothingAhead(tb, m, s);
    WithTextLive(m, Top(m).text[1..]);
    TextGood(tb, m, Top(m).text[1..]);
    SettledAdvances(tb, m1);
    NameEnds(tb, m, Settled(m1));
  }

  lemma NothingAhead(tb: Table, m: Machine, s: Sym)
    requires Live(m.stack) && Top(m).text != [] && Top(m).text[0] == Id(s)
    requires Expandable(tb, Id(s), m.hidden) && NextCall(tb, m) == Name
    ensures tb.macros[s].npars != -1 && !Opens(Top(m).text[1..], Follow(m.stack))
  {
  }

  lemma PastName(tb: Table, p: Process, s: Sym) returns (r: Process)
    requires Set(tb, p) && Top(p.m).text != [] && Top(p.m).text[0] == Id(s) && Expandable(tb, Id(s), p.m.hidden)
    requires NextCall(tb, p.m) == Name
    ensures Onwards(tb, p, r, [Id(s)], {})
  {
    var m1 := WithText(p.m, Top(p.m).text[1..]);
    var q := p.(m := m1, phase := AtName(s));
    NameAdvances(tb, p.m, s, m1);
    var q2 := q.(m := Settled(m1));
    r := EmitAll(p, [Id(s)]).(m := q2.m);
    IntoName(tb, p, s, q);
    NameLooks(tb, q, s);
    NameOut(tb, q2, s, r);
    Onward(tb, p, 1, q, 0, Goes(q2));
    Onward(tb, p, 1, q2, 1, Goes(r));
  }

  // ----- argument lists -----

  lemma {:induction false} Gathers(tb: Table, p: Process, list: seq<seq<Token>>, rest: seq<Token>)
    requires WellFormedTable(tb) && Proper(tb, p) && p.phase.AtArgs?
    requires Completed(p.phase.args, p.phase.cur, p.phase.depth, Top(p.m).text) == Some((list, rest))
    requires !(tb.macros[p.phase.s].npars == 0 && p.phase.args == [] && p.phase.cur == [] && Top(p.m).text[0].Close?)
    ensures if |list| == tb.macros[p.phase.s].npars
            then var q := p.(m := WithText(p.m, rest), phase := AtCall(p.phase.s, list)); Leads(tb, p, 0, Goes(q)) && Proper(tb, q)
            else Leads(tb, p, 0, Stops(Arity))
    decreases |Top(p.m).text|
  {
    var text := Top(p.m).text;
    assert text == [text[0]] + text[1..];
    ArgumentsMoveByMove(tb, p, text[1..]);
    var o := Move(tb, p);
    if o.Goes? {
      OneMove(tb, p, o.p);
      if o.p.phase.AtArgs? {
        GathersOn(tb, p, o.p, list, rest);
      }
    } else {
      LastMove(tb, p, o);
    }
  }

  lemma {:induction false} GathersOn(tb: Table, p: Process, q: Process, list: seq<seq<Token>>, rest: seq<Token>)
    requires WellFormedTable(tb) && Proper(tb, p) && p.phase.AtArgs? && Top(p.m).text != []
    requires Move(tb, p) == Goes(q) && Leads(tb, p, 1, Goes(q)) && Proper(tb, q) && q.phase.AtArgs?
    requires Completed(q.phase.args, q.phase.cur, q.phase.depth, Top(p.m).text[1..]) == Some((list, rest))
    ensures if |list| == tb.macros[p.phase.s].npars
            then var q := p.(m := WithText(p.m, rest), phase := AtCall(p.phase.s, list)); Leads(tb, p, 0, Goes(q)) && Proper(tb, q)
            else Leads(tb, p, 0, Stops(Arity))
    decreases |Top(p.m).text|, 0
  {
    var text := Top(p.m).text;
    assert q.m == WithText(p.m, text[1..]) && Top(q.m).text == text[1..] && q.phase.s == p.phase.s;
    assert WithText(q.m, rest) == WithText(p.m, rest);
    Gathers(tb, q, list, rest);
    if |list| == tb.macros[p.phase.s].npars {
      Onward(tb, p, 1, q, 0, Goes(p.(m := WithText(p.m, rest), phase := AtCall(p.phase.s, list))));
    } else {
      Onward(tb, p, 1, q, 0, Stops(Arity));
    }
  }

  /** From the name to behind the opening parenthesis. */
  lemma IntoList(tb: Table, p: Process, s: Sym, q: Process)
    requires Set(tb, p) && |Top(p.m).text| > 1 && Top(p.m).text[0] == Id(s) && Expandable(tb, Id(s), p.m.hidden)
    requires tb.macros[s].npars != -1 && Top(p.m).text[1].Open?
    requires q == p.(m := WithText(p.m, Top(p.m).text[2..]), phase := AtArgs(s, [], [], 0))
    ensures Leads(tb, p, 2, Goes(q)) && Proper(tb, q)
  {
    var text := Top(p.m).text;
    var q1 := p.(m := WithText(p.m, text[1..]), phase := AtName(s));
    IntoName(tb, p, s, q1);
    TextTwice(p.m, text[1..], text[2..]);
    assert text[1..][1..] == text[2..];
    OpenMove(tb, q1, s, q);
    Onward(tb, p, 1, q1, 1, Goes(q));
  }

  lemma TextTwice(m: Machine, a: seq<Token>, b: seq<Token>)
    requires m.stack != []
    ensures Top(WithText(m, a)).text == a && WithText(WithText(m, a), b) == WithText(m, b)
  {
    assert Below(WithText(m, a)) == Below(m);
  }

  lemma OpenMove(tb: Table, p: Process, s: Sym, q: Process)
    requires WellFormedTable(tb) && Proper(tb, p) && p.phase == AtName(s) && tb.macros[s].npars != -1
    requires Top(p.m).text != [] && Top(p.m).text[0].Open?
    requires q == p.(m := WithText(p.m, Top(p.m).text[1..]), phase := AtArgs(s, [], [], 0))
    ensures Leads(tb, p, 1, Goes(q)) && Proper(tb, q)
  {
    assert Move(tb, p) == Goes(q);
    OneMove(tb, p, q);
  }

  /** An invocation found by parsepars is found by the moves, and so is one with the wrong number of
      arguments. */
  lemma IntoCall(tb: Table, p: Process, s: Sym)
    requires Set(tb, p) && Top(p.m).text != [] && Top(p.m).text[0] == Id(s) && Expandable(tb, Id(s), p.m.hidden)
    ensures NextCall(tb, p.m).Invoke? ==>
      var q := p.(m := WithText(p.m, NextCall(tb, p.m).rest), phase := AtCall(s, NextCall(tb, p.m).args));
      Leads(tb, p, 0, Goes(q)) && Proper(tb, q)
    ensures NextCall(tb, p.m) == Bad(BadCall) ==> Leads(tb, p, 0, Stops(Arity))
  {
    var text, call := Top(p.m).text, NextCall(tb, p.m);
    if tb.macros[s].npars == -1 {
      ObjectCall(tb, p, s);
    } else if call.Invoke? || call == Bad(BadCall) {
      var q := p.(m := WithText(p.m, text[2..]), phase := AtArgs(s, [], [], 0));
      assert text[1..][1..] == text[2..] && Top(q.m).text == text[2..];
      IntoList(tb, p, s, q);
      ListCall(tb, p, s, q);
    }
  }

  lemma ObjectCall(tb: Table, p: Process, s: Sym)
    requires Set(tb, p) && Top(p.m).text != [] && Top(p.m).text[0] == Id(s) && Expandable(tb, Id(s), p.m.hidden)
    requires tb.macros[s].npars == -1
    ensures NextCall(tb, p.m) == Invoke([], Top(p.m).text[1..])
    ensures var q := p.(m := WithText(p.m, Top(p.m).text[1..]), phase := AtCall(s, []));
      Leads(tb, p, 0, Goes(q)) && Proper(tb, q)
  {
    var q1 := p.(m := WithText(p.m, Top(p.m).text[1..]), phase := AtName(s));
    var q := q1.(phase := AtCall(s, []));
    IntoName(tb, p, s, q1);
    assert Move(tb, q1) == Goes(q);
    OneMove(tb, q1, q);
    Onward(tb, p, 1, q1, 1, Goes(q));
  }

  /** `( )` behind a macro without parameters. */
  lemma CloseMove(tb: Table, p: Process, r: Process)
    requires WellFormedTable(tb) && Proper(tb, p) && p.phase.AtArgs? && tb.macros[p.phase.s].npars == 0
    requires p.phase == AtArgs(p.phase.s, [], [], 0) && Top(p.m).text != [] && Top(p.m).text[0].Close?
    requires r == p.(m := WithText(p.m, Top(p.m).text[1..]), phase := AtCall(p.phase.s, []))
    ensures Leads(tb, p, 1, Goes(r)) && Proper(tb, r)
  {
    assert Move(tb, p) == Goes(r);
    OneMove(tb, p, r);
  }

  lemma ListCall(tb: Table, p: Process, s: Sym, q: Process)
    requires Set(tb, p) && |Top(p.m).text| > 1 && Top(p.m).text[0] == Id(s) && Expandable(tb, Id(s), p.m.hidden)
    requires tb.macros[s].npars != -1 && Top(p.m).text[1].Open?
    requires q == p.(m := WithText(p.m, Top(p.m).text[2..]), phase := AtArgs(s, [], [], 0))
    requires Leads(tb, p, 2, Goes(q)) && Proper(tb, q)
    ensures NextCall(tb, p.m).Invoke? ==>
      var r := p.(m := WithText(p.m, NextCall(tb, p.m).rest), phase := AtCall(s, NextCall(tb, p.m).args));
      Leads(tb, p, 0, Goes(r)) && Proper(tb, r)
    ensures NextCall(tb, p.m) == Bad(BadCall) ==> Leads(tb, p, 0, Stops(Arity))
  {
    var text, call := Top(p.m).text, NextCall(tb, p.m);
    assert text[1..][1..] == text[2..];
    TextTwice(p.m, text[2..], []);
    if tb.macros[s].npars == 0 && |text| > 2 && text[2].Close? {
      var r := p.(m := WithText(p.m, text[3..]), phase := AtCall(s, []));
      assert text[2..][1..] == text[3..] && text[1..][2..] == text[3..];
      TextTwice(p.m, text[2..], text[3..]);
      CloseMove(tb, q, r);
      Onward(tb, p, 2, q, 1, Goes(r));
    } else if call.Invoke? || call == Bad(BadCall) {
      CompletedStart(text[2..]);
      var v := Arguments(text[2..]).value;
      Gathers(tb, q, v.0, v.1);
      TextTwice(p.m, text[2..], v.1);
      if call.Invoke? {
        Onward(tb, p, 2, q, 0, Goes(p.(m := WithText(p.m, v.1), phase := AtCall(s, v.0))));
      } else {
        Onward(tb, p, 2, q, 0, Stops(Arity));
      }
    }
  }

  // ----- copying a replacement list -----

  /** copymacro under way above `m0`, the arguments so far having expanded `d`. */
  function Filling(m0: Machine, d: set<Sym>, cs: seq<Copy>, c: Copy, out: seq<Token>): Process {
    Process(Machine(Grow(m0.stack, d), m0.hidden), Fill, cs + [c], out)
  }

  ghost predicate Copyable(tb: Table, m0: Machine, args: seq<seq<Token>>, z: nat) {
    && WellFormedTable(tb)
    && m0.stack != [] && Pending(Top(m0)) && Called(tb, Top(m0).sym, args)
    && (forall i :: 0 <= i < |args| ==> |args[i]| < z)
    && (forall j :: 0 <= j < |BodyOf(tb, m0)| && (BodyOf(tb, m0)[j].Par? || BodyOf(tb, m0)[j].Str?) ==> BodyOf(tb, m0)[j].i < |args|)
  }

  function BodyOf(tb: Table, m0: Machine): seq<Item>
    requires m0.stack != [] && Pending(Top(m0)) && Top(m0).sym in tb.macros
  {
    tb.macros[Top(m0).sym].body
  }

  ghost function Built(tb: Table, m0: Machine, args: seq<seq<Token>>, z: nat, k: nat): Result
    requires Copyable(tb, m0, args, z) && k <= |BodyOf(tb, m0)|
  {
    Build(tb, BodyOf(tb, m0), k, args, m0.hidden, z)
  }

  ghost function CopyAt(tb: Table, m0: Machine, args: seq<seq<Token>>, z: nat, k: nat, cs: seq<Copy>, out: seq<Token>): Process
    requires Copyable(tb, m0, args, z) && k <= |BodyOf(tb, m0)|
  {
    var b := Built(tb, m0, args, z, k);
    Filling(m0, b.touched, cs, Copy(args, k, b.out, []), out)
  }

  ghost predicate Copying(tb: Table, m0: Machine, args: seq<seq<Token>>, z: nat, k: nat, cs: seq<Copy>, out: seq<Token>) {
    && Copyable(tb, m0, args, z) && k <= |BodyOf(tb, m0)| && Built(tb, m0, args, z, k).status == Ok
    && Proper(tb, CopyAt(tb, m0, args, z, k, cs, out)) && Good(tb, CopyAt(tb, m0, args, z, k, cs, out).m)
  }

  lemma FillingTop(m0: Machine, d: set<Sym>, cs: seq<Copy>, c: Copy, out: seq<Token>)
    requires m0.stack != [] && Pending(Top(m0))
    ensures var p := Filling(m0, d, cs, c, out);
      Top(p.m).sym == Top(m0).sym && Pending(Top(p.m)) && Last(p.copies) == c && Outer(p.copies) == cs
  {
  }

  lemma CopyItem(tb: Table, m0: Machine, args: seq<seq<Token>>, z: nat, k: nat, cs: seq<Copy>, out: seq<Token>)
    requires Copying(tb, m0, args, z, k, cs, out) && k < |BodyOf(tb, m0)|
    requires BodyOf(tb, m0)[k].Par? ==> BesideCat(BodyOf(tb, m0), k)
    ensures Copying(tb, m0, args, z, k + 1, cs, out)
    ensures Leads(tb, CopyAt(tb, m0, args, z, k, cs, out), 1, Goes(CopyAt(tb, m0, args, z, k + 1, cs, out)))
  {
    var p, q := CopyAt(tb, m0, args, z, k, cs, out), CopyAt(tb, m0, args, z, k + 1, cs, out);
    var b := Built(tb, m0, args, z, k);
    FillingTop(m0, b.touched, cs, Copy(args, k, b.out, []), out);
    assert Built(tb, m0, args, z, k + 1).touched == b.touched;
    assert Move(tb, p) == Goes(q);
    OneMove(tb, p, q);
  }

  lemma IntoArg(tb: Table, m0: Machine, args: seq<seq<Token>>, z: nat, k: nat, cs: seq<Copy>, out: seq<Token>) returns (p1: Process)
    requires Copying(tb, m0, args, z, k, cs, out) && k < |BodyOf(tb, m0)|
    requires BodyOf(tb, m0)[k].Par? && !BesideCat(BodyOf(tb, m0), k)
    ensures var p := CopyAt(tb, m0, args, z, k, cs, out);
      var arg := args[BodyOf(tb, m0)[k].i];
      && p1 == p.(m := Push(p.m, Plain(arg)), phase := Scan) && Leads(tb, p, 1, Goes(p1)) && Set(tb, p1)
      && Rest(tb, p1.m) == Expand(tb, arg, m0.hidden, false)
  {
    var p := CopyAt(tb, m0, args, z, k, cs, out);
    var arg := args[BodyOf(tb, m0)[k].i];
    var b := Built(tb, m0, args, z, k);
    FillingTop(m0, b.touched, cs, Copy(args, k, b.out, []), out);
    p1 := p.(m := Push(p.m, Plain(arg)), phase := Scan);
    assert Move(tb, p) == Goes(p1);
    OneMove(tb, p, p1);
    ArgStarts(tb, p.m, arg);
  }

  /** The argument has been read: expandarg returns, and the next element is due. */
  lemma OutOfArg(tb: Table, m0: Machine, args: seq<seq<Token>>, z: nat, k: nat, cs: seq<Copy>, out: seq<Token>, p1: Process, q1: Process)
    requires Copying(tb, m0, args, z, k, cs, out) && k < |BodyOf(tb, m0)|
    requires BodyOf(tb, m0)[k].Par? && !BesideCat(BodyOf(tb, m0), k)
    requires var p := CopyAt(tb, m0, args, z, k, cs, out);
      p1 == p.(m := Push(p.m, Plain(args[BodyOf(tb, m0)[k].i])), phase := Scan)
    requires Set(tb, p1) && Proper(tb, q1) && Rest(tb, p1.m).status == Ok && LevelRead(tb, p1, q1)
    ensures Copying(tb, m0, args, z, k + 1, cs, out)
    ensures Leads(tb, q1, 1, Goes(CopyAt(tb, m0, args, z, k + 1, cs, out)))
  {
    var p, q := CopyAt(tb, m0, args, z, k, cs, out), CopyAt(tb, m0, args, z, k + 1, cs, out);
    var b, arg, e := Built(tb, m0, args, z, k), args[BodyOf(tb, m0)[k].i], Rest(tb, p1.m);
    ArgBack(tb, m0, b.touched, p.m, arg, q1.m, e);
    PieceGiven(p1, cs, Copy(args, k, b.out, []), e.out);
    BuiltPar(tb, m0, args, z, k, cs, out, e);
    FillingTop(m0, b.touched + e.touched, cs, Last(q.copies), out);
    ReturnIs(tb, q1, q, BodyOf(tb, m0));
  }

  lemma BuiltPar(tb: Table, m0: Machine, args: seq<seq<Token>>, z: nat, k: nat, cs: seq<Copy>, out: seq<Token>, e: Result)
    requires Copyable(tb, m0, args, z) && k < |BodyOf(tb, m0)| && Built(tb, m0, args, z, k).status == Ok
    requires BodyOf(tb, m0)[k].Par? && !BesideCat(BodyOf(tb, m0), k)
    requires e == Expand(tb, args[BodyOf(tb, m0)[k].i], m0.hidden, false) && e.status == Ok
    ensures var b, b1 := Built(tb, m0, args, z, k), Built(tb, m0, args, z, k + 1);
      && b1.status == Ok && b1.touched == b.touched + e.touched
      && CopyAt(tb, m0, args, z, k + 1, cs, out)
           == Filling(m0, b1.touched, cs, Added(tb, BodyOf(tb, m0), Copy(args, k, b.out, e.out), e.out), out)
  {
  }

  lemma PieceGiven(p: Process, cs: seq<Copy>, c: Copy, toks: seq<Token>)
    requires p.copies == cs + [c] && c.piece == []
    ensures EmitAll(p, toks).copies == cs + [c.(piece := toks)]
    ensures Last(EmitAll(p, toks).copies) == c.(piece := toks) && Outer(EmitAll(p, toks).copies) == cs
  {
    assert [] + toks == toks;
    assert Last(p.copies) == c && Outer(p.copies) == cs;
  }

  /** Behind an argument the stack has grown by what the argument expanded. */
  lemma ArgBack(tb: Table, m0: Machine, d: set<Sym>, m: Machine, arg: seq<Token>, m1: Machine, e: Result)
    requires WellFormedTable(tb) && Good(tb, m) && m == Machine(Grow(m0.stack, d), m0.hidden)
    requires Live(Push(m, Plain(arg)).stack) && e == Rest(tb, Push(m, Plain(arg)))
    requires Good(tb, m1) && Advances(tb, Push(m, Plain(arg)), m1, e.out, e.touched) && Top(m1) == Plain([])
    ensures Finished(m1) == Machine(Grow(m0.stack, d + e.touched), m0.hidden) && Good(tb, Finished(m1))
    ensures e == Expand(tb, arg, m0.hidden, false)
  {
    ArgStarts(tb, m, arg);
    ArgEnds(tb, m, arg, m1, e.out, e.touched);
    GrowTwice(m0.stack, d, e.touched);
  }

  lemma ReturnIs(tb: Table, q1: Process, q: Process, body: seq<Item>)
    requires WellFormedTable(tb) && Proper(tb, q1) && q1.phase.Scan? && q1.copies != [] && Top(q1.m) == Plain([])
    requires q.m == Finished(q1.m) && q.m.stack != [] && Pending(Top(q.m)) && Top(q.m).sym in tb.macros
    requires body == tb.macros[Top(q.m).sym].body && Last(q1.copies).k < |body|
    requires q == Process(q.m, Fill, Outer(q1.copies) + [Added(tb, body, Last(q1.copies), Last(q1.copies).piece)], q1.out)
    ensures Leads(tb, q1, 1, Goes(q)) && Proper(tb, q)
  {
    ProperScan(tb, q1);
    assert Move(tb, q1) == Goes(Return(tb, q1));
    assert Return(tb, q1) == q;
    OneMove(tb, q1, q);
  }

  // ----- the whole of it -----

  /** The moves from element `k` on get to element `n`, or stop, as Build says, or a hideset is full
      before. */
  ghost predicate CopiesTo(tb: Table, m0: Machine, args: seq<seq<Token>>, z: nat, k: nat, n: nat, cs: seq<Copy>, out: seq<Token>)
    requires Copyable(tb, m0, args, z) && k <= n <= |BodyOf(tb, m0)|
  {
    var b, p := Built(tb, m0, args, z, n), CopyAt(tb, m0, args, z, k, cs, out);
    || Overflows(tb, p)
    || ((b.status == Ok ==>
           Copying(tb, m0, args, z, n, cs, out) && Leads(tb, p, 0, Goes(CopyAt(tb, m0, args, z, n, cs, out))))
        && (b.status == BadCall ==> Leads(tb, p, 0, Stops(Arity))))
  }

  lemma {:induction false} Copies(tb: Table, m0: Machine, args: seq<seq<Token>>, z: nat, k: nat, cs: seq<Copy>, out: seq<Token>, cost: nat)
    requires Copying(tb, m0, args, z, k, cs, out)
    requires var b := Built(tb, m0, args, z, |BodyOf(tb, m0)|); b.status != Crossed && b.cost <= cost
    ensures CopiesTo(tb, m0, args, z, k, |BodyOf(tb, m0)|, cs, out)
    decreases cost, 1, |BodyOf(tb, m0)| - k
  {
    var body := BodyOf(tb, m0);
    if k == |body| {
      NoMove(tb, CopyAt(tb, m0, args, z, k, cs, out));
    } else {
      BuildOnward(tb, body, k + 1, |body|, args, m0.hidden, z);
      CopiesOne(tb, m0, args, z, k, cs, out, cost);
      if Built(tb, m0, args, z, k + 1).status == Ok && !Overflows(tb, CopyAt(tb, m0, args, z, k, cs, out)) {
        Copies(tb, m0, args, z, k + 1, cs, out, cost);
        CopiesOn(tb, m0, args, z, k, |body|, cs, out);
      }
    }
  }

  lemma CopiesOn(tb: Table, m0: Machine, args: seq<seq<Token>>, z: nat, k: nat, n: nat, cs: seq<Copy>, out: seq<Token>)
    requires Copyable(tb, m0, args, z) && k < n <= |BodyOf(tb, m0)| && Built(tb, m0, args, z, k + 1).status == Ok
    requires CopiesTo(tb, m0, args, z, k, k + 1, cs, out) && CopiesTo(tb, m0, args, z, k + 1, n, cs, out)
    requires !Overflows(tb, CopyAt(tb, m0, args, z, k, cs, out))
    ensures CopiesTo(tb, m0, args, z, k, n, cs, out)
  {
    var p, q := CopyAt(tb, m0, args, z, k, cs, out), CopyAt(tb, m0, args, z, k + 1, cs, out);
    if Overflows(tb, q) {
      Onward(tb, p, 0, q, 0, Stops(Complex));
      return;
    }
    match Built(tb, m0, args, z, n).status
    case Ok => Onward(tb, p, 0, q, 0, Goes(CopyAt(tb, m0, args, z, n, cs, out)));
    case BadCall => Onward(tb, p, 0, q, 0, Stops(Arity));
    case Crossed =>
  }

  lemma {:induction false} CopiesOne(tb: Table, m0: Machine, args: seq<seq<Token>>, z: nat, k: nat, cs: seq<Copy>, out: seq<Token>, cost: nat)
    requires Copying(tb, m0, args, z, k, cs, out) && k < |BodyOf(tb, m0)|
    requires var b := Built(tb, m0, args, z, k + 1); b.status != Crossed && b.cost <= cost
    ensures CopiesTo(tb, m0, args, z, k, k + 1, cs, out)
    decreases cost, 0, 1
  {
    if BodyOf(tb, m0)[k].Par? && !BesideCat(BodyOf(tb, m0), k) {
      CopiesArg(tb, m0, args, z, k, cs, out, cost);
    } else {
      CopyItem(tb, m0, args, z, k, cs, out);
    }
  }

  lemma {:induction false} CopiesArg(tb: Table, m0: Machine, args: seq<seq<Token>>, z: nat, k: nat, cs: seq<Copy>, out: seq<Token>, cost: nat)
    requires Copying(tb, m0, args, z, k, cs, out) && k < |BodyOf(tb, m0)|
    requires BodyOf(tb, m0)[k].Par? && !BesideCat(BodyOf(tb, m0), k)
    requires var b := Built(tb, m0, args, z, k + 1); b.status != Crossed && b.cost <= cost
    ensures CopiesTo(tb, m0, args, z, k, k + 1, cs, out)
    decreases cost, 0, 0
  {
    var p := CopyAt(tb, m0, args, z, k, cs, out);
    var p1 := IntoArg(tb, m0, args, z, k, cs, out);
    var o := Level(tb, p1);
    Onward(tb, p, 1, p1, 0, o);
    if o.Goes? && Rest(tb, p1.m).status == Ok {
      LeadsProper(tb, p1, 0, o.p);
      OutOfArg(tb, m0, args, z, k, cs, out, p1, o.p);
      Onward(tb, p, 1, o.p, 1, Goes(CopyAt(tb, m0, args, z, k + 1, cs, out)));
    }
  }

  /** The stack when an invocation has been read and its macro begun. */
  ghost function Begun(tb: Table, p: Process, s: Sym): Machine
    requires Live(p.m.stack) && Top(p.m).text != [] && NextCall(tb, p.m).Invoke?
  {
    Push(WithText(p.m, NextCall(tb, p.m).rest), Macro(s, {}, false, []))
  }

  lemma StartCopy(tb: Table, p: Process, s: Sym, m0: Machine, args: seq<seq<Token>>, z: nat)
    requires Set(tb, p) && Top(p.m).text != [] && Top(p.m).text[0] == Id(s) && Expandable(tb, Id(s), p.m.hidden)
    requires NextCall(tb, p.m).Invoke? && m0 == Begun(tb, p, s) && args == NextCall(tb, p.m).args && z == |Top(p.m).text|
    ensures Copying(tb, m0, args, z, 0, p.copies, p.out)
    ensures Built(tb, m0, args, z, |BodyOf(tb, m0)|) == NextBody(tb, p.m)
    ensures Leads(tb, p, 0, Goes(CopyAt(tb, m0, args, z, 0, p.copies, p.out)))
  {
    var rest := NextCall(tb, p.m).rest;
    var q := p.(m := WithText(p.m, rest), phase := AtCall(s, args));
    IntoCall(tb, p, s);
    var r := Process(m0, Fill, p.copies + [Copy(args, 0, [], [])], p.out);
    CallMove(tb, q, r);
    EnterInv(tb, p.m, s, rest);
    NothingCopied(tb, m0, args, z, r);
    Onward(tb, p, 0, q, 1, Goes(r));
  }

  lemma CallMove(tb: Table, p: Process, r: Process)
    requires WellFormedTable(tb) && Proper(tb, p) && p.phase.AtCall?
    requires r == Process(Push(p.m, Macro(p.phase.s, {}, false, [])), Fill, p.copies + [Copy(p.phase.args, 0, [], [])], p.out)
    ensures Leads(tb, p, 1, Goes(r)) && Proper(tb, r)
  {
    assert Move(tb, p) == Goes(r);
    OneMove(tb, p, r);
  }

  lemma NothingCopied(tb: Table, m0: Machine, args: seq<seq<Token>>, z: nat, r: Process)
    requires WellFormedTable(tb) && Good(tb, m0) && Proper(tb, r)
    requires m0.stack != [] && Pending(Top(m0)) && Called(tb, Top(m0).sym, args)
    requires forall i :: 0 <= i < |args| ==> |args[i]| < z
    requires r.copies != [] && r == Process(m0, Fill, Outer(r.copies) + [Copy(args, 0, [], [])], r.out)
    ensures Copying(tb, m0, args, z, 0, Outer(r.copies), r.out) && CopyAt(tb, m0, args, z, 0, Outer(r.copies), r.out) == r
  {
    GrowNone(m0.stack);
  }

  lemma {:induction false} BadBody(tb: Table, p: Process, s: Sym) returns (o: Outcome)
    requires Set(tb, p) && Top(p.m).text != [] && Top(p.m).text[0] == Id(s) && Expandable(tb, Id(s), p.m.hidden)
    requires NextCall(tb, p.m).Invoke? && NextBody(tb, p.m).status == BadCall
    ensures Leads(tb, p, 0, o) && (o == Stops(Arity) || Full(tb, o))
    decreases Rest(tb, p.m).cost, 2, 0
  {
    var m0, args, z := Begun(tb, p, s), NextCall(tb, p.m).args, |Top(p.m).text|;
    StartCopy(tb, p, s, m0, args, z);
    BodyCheaper(tb, p.m);
    Copies(tb, m0, args, z, 0, p.copies, p.out, NextBody(tb, p.m).cost);
    var c := CopyAt(tb, m0, args, z, 0, p.copies, p.out);
    o := if Overflows(tb, c) then Stops(Complex) else Stops(Arity);
    Onward(tb, p, 0, c, 0, o);
  }

  /** An invocation whose list was built is entered, unless a hideset is full before. */
  lemma {:induction false} PastCall(tb: Table, p: Process, s: Sym) returns (r: Process, d: set<Sym>)
    requires Set(tb, p) && Top(p.m).text != [] && Top(p.m).text[0] == Id(s) && Expandable(tb, Id(s), p.m.hidden)
    requires NextCall(tb, p.m).Invoke? && NextBody(tb, p.m).status == Ok
    ensures Overflows(tb, p) || Onwards(tb, p, r, [], d)
    decreases Rest(tb, p.m).cost, 2, 0
  {
    var m0, args, z := Begun(tb, p, s), NextCall(tb, p.m).args, |Top(p.m).text|;
    StartCopy(tb, p, s, m0, args, z);
    BodyCheaper(tb, p.m);
    Copies(tb, m0, args, z, 0, p.copies, p.out, NextBody(tb, p.m).cost);
    var c := CopyAt(tb, m0, args, z, 0, p.copies, p.out);
    r, d := p, NextBody(tb, p.m).touched + {s};
    if Overflows(tb, c) {
      Onward(tb, p, 0, c, 0, Stops(Complex));
    } else {
      var q := CopyAt(tb, m0, args, z, |BodyOf(tb, m0)|, p.copies, p.out);
      Onward(tb, p, 0, c, 0, Goes(q));
      r := Installs(tb, p, s, m0, args, z, q);
      if Overflows(tb, q) {
        Onward(tb, p, 0, q, 0, Stops(Complex));
      } else {
        Onward(tb, p, 0, q, 1, Goes(r));
        InvokeAdvances(tb, p.m, d);
        EmitNone(p);
      }
    }
  }

  lemma Installs(tb: Table, p: Process, s: Sym, m0: Machine, args: seq<seq<Token>>, z: nat, q: Process) returns (r: Process)
    requires Set(tb, p) && Top(p.m).text != [] && Top(p.m).text[0] == Id(s) && Expandable(tb, Id(s), p.m.hidden)
    requires NextCall(tb, p.m).Invoke? && NextBody(tb, p.m).status == Ok
    requires m0 == Begun(tb, p, s) && args == NextCall(tb, p.m).args && z == |Top(p.m).text|
    requires Copyable(tb, m0, args, z) && Copying(tb, m0, args, z, |BodyOf(tb, m0)|, p.copies, p.out)
    requires Built(tb, m0, args, z, |BodyOf(tb, m0)|) == NextBody(tb, p.m)
    requires q == CopyAt(tb, m0, args, z, |BodyOf(tb, m0)|, p.copies, p.out)
    ensures var b := NextBody(tb, p.m);
      r == p.(m := Entered(p.m, s, NextCall(tb, p.m).rest, b.touched + {s}, b.out))
    ensures Overflows(tb, q) || (Leads(tb, q, 1, Goes(r)) && Proper(tb, r) && Good(tb, r.m))
  {
    var b, rest := NextBody(tb, p.m), NextCall(tb, p.m).rest;
    FillingTop(m0, b.touched, p.copies, Copy(args, |BodyOf(tb, m0)|, b.out, []), p.out);
    EnterDone(tb, p.m, s, rest, b.touched, b.out);
    r := p.(m := Entered(p.m, s, rest, b.touched + {s}, b.out));
    InstallIs(tb, q, r);
  }

  lemma InstallIs(tb: Table, q: Process, r: Process)
    requires WellFormedTable(tb) && Proper(tb, q) && q.phase.Fill?
    requires !Room(q.m.stack, Top(q.m).sym) ==> |tb.macros| > NR_MACROARG
    requires Last(q.copies).k == |tb.macros[Top(q.m).sym].body|
    requires r == Process(Installed(q.m, Last(q.copies).buf), Scan, Outer(q.copies), q.out)
    ensures Overflows(tb, q) || (Leads(tb, q, 1, Goes(r)) && Proper(tb, r))
  {
    if Room(q.m.stack, Top(q.m).sym) {
      assert Move(tb, q) == Goes(r);
      OneMove(tb, q, r);
    } else {
      LastMove(tb, q, Stops(Complex));
    }
  }

  /** What comes next in a level: its end, an error, or some moves onward. */
  datatype Stage = Over(o: Outcome) | On(r: Process, out: seq<Token>, d: set<Sym>)

  ghost predicate Staged(tb: Table, p: Process, g: Stage)
    requires WellFormedTable(tb) && Live(p.m.stack)
  {
    match g
    case Over(o) => Finishes(tb, p, o)
    case On(r, out, d) => Onwards(tb, p, r, out, d)
  }

  lemma {:induction false} Call(tb: Table, p: Process) returns (g: Stage)
    requires Set(tb, p) && Rest(tb, p.m).status != Crossed
    requires Top(p.m).text != [] && Expandable(tb, Top(p.m).text[0], p.m.hidden) && NextCall(tb, p.m) != Name
    ensures Staged(tb, p, g)
    decreases Rest(tb, p.m).cost, 2, 1
  {
    var s := Top(p.m).text[0].sym;
    if NextCall(tb, p.m).Bad? {
      StopsHere(tb, p.m);
      IntoCall(tb, p, s);
      g := Over(Stops(Arity));
    } else if NextBody(tb, p.m).status != Ok {
      InvokeFails(tb, p.m);
      var o := BadBody(tb, p, s);
      g := Over(o);
    } else {
      var r, d := PastCall(tb, p, s);
      g := if Overflows(tb, p) then Over(Stops(Complex)) else On(r, [], d);
    }
  }

  lemma {:induction false} NextStage(tb: Table, p: Process) returns (g: Stage)
    requires Set(tb, p) && Rest(tb, p.m).status != Crossed
    ensures Staged(tb, p, g)
    decreases Rest(tb, p.m).cost, 2, 2
  {
    var text := Top(p.m).text;
    if text == [] && Top(p.m).Plain? {
      AtEnd(tb, p);
      g := Over(Goes(p));
    } else if text == [] {
      var r := PastEnd(tb, p);
      g := On(r, [], {});
    } else if !Expandable(tb, text[0], p.m.hidden) {
      var r := PastToken(tb, p);
      g := On(r, [text[0]], {});
    } else if NextCall(tb, p.m) == Name {
      var r := PastName(tb, p, text[0].sym);
      g := On(r, [text[0]], {});
    } else {
      g := Call(tb, p);
    }
  }

  lemma {:induction false} Level(tb: Table, p: Process) returns (o: Outcome)
    requires Set(tb, p) && Rest(tb, p.m).status != Crossed
    ensures Finishes(tb, p, o)
    decreases Rest(tb, p.m).cost, 3, 0
  {
    var g := NextStage(tb, p);
    match g
    case Over(end) => o := end;
    case On(r, out, d) =>
      o := Level(tb, r);
      Further(tb, p, r, out, d, o);
  }

  /** For every table and every text whose invocations end in the input they begin in: the moves
      come to one end, with the tokens of the expansion, with the error of an invocation that has
      the wrong number of arguments, or with a full hideset, the last only when the table has more
      macros than a hideset has places. */
  lemma ProcessExpands(tb: Table, text: seq<Token>)
    requires WellFormedTable(tb)
    ensures var e := Expand(tb, text, {}, false);
      && (e.status == Ok ==> EndsWith(tb, Beginning(text), Ends(e.out)) || EndsFull(tb, Beginning(text)))
      && (e.status == BadCall ==> EndsWith(tb, Beginning(text), Stops(Arity)) || EndsFull(tb, Beginning(text)))
  {
    var p := Beginning(text);
    BeginningProper(tb, text);
    assert Set(tb, p);
    if Expand(tb, text, {}, false).status != Crossed {
      var o := Level(tb, p);
      if o.Goes? {
        WholeText(tb, p, o.p);
        OneEnd(tb, p, Ends(o.p.out));
      } else {
        OneEnd(tb, p, o);
      }
    }
  }

  /** So where nothing replaced in an argument is replaced again, the moves end with the tokens of
      section 6.10.3.4 of C99. */
  lemma ProcessIsC99(tb: Table, text: seq<Token>)
    requires WellFormedTable(tb)
    requires S.Separate(tb, text, {}, false) && S.Unpainted(tb) && S.NoBlue(text)
    requires S.ExpandC99(tb, text, {}, false).status == Ok
    ensures EndsWith(tb, Beginning(text), Ends(S.Bare(S.ExpandC99(tb, text, {}, false).out))) || EndsFull(tb, Beginning(text))
  {
    ProcessExpands(tb, text);
    A.AgreesWithC99(tb, text, false);
  }

  ghost predicate EndsFull(tb: Table, p: Process) {
    |tb.macros| > NR_MACROARG && EndsWith(tb, p, Stops(Complex))
  }

  /** The moves get to `o`, and to nothing else that is an end. */
  ghost predicate EndsWith(tb: Table, p: Process, o: Outcome) {
    Leads(tb, p, 0, o) && forall n :: Moves(tb, p, n).Goes? || Moves(tb, p, n) == o
  }

  lemma OneEnd(tb: Table, p: Process, o: Outcome)
    requires Leads(tb, p, 0, o) && !o.Goes?
    ensures EndsWith(tb, p, o)
  {
    var k :| k >= 0 && Iterate(Mover(tb), p, k) == o;
    forall n ensures Moves(tb, p, n).Goes? || Moves(tb, p, n) == o {
      EndsOnce(Mover(tb), p, k, n);
    }
  }

  lemma {:induction false} EndsOnce(step: Process -> Outcome, p: Process, a: nat, b: nat)
    requires !Iterate(step, p, a).Goes?
    ensures Iterate(step, p, b).Goes? || Iterate(step, p, b) == Iterate(step, p, a)
    decreases a
  {
    if b > 0 && step(p).Goes? {
      EndsOnce(step, step(p).p, a - 1, b - 1);
    }
  }

  lemma WholeText(tb: Table, p: Process, q: Process)
    requires Set(tb, p) && p.copies == [] && p.out == [] && BaseIndex(p.m.stack) == 0
    requires Leads(tb, p, 0, Goes(q)) && LevelRead(tb, p, q)
    ensures Leads(tb, p, 0, Ends(q.out)) && q.out == Rest(tb, p.m).out
  {
    LeadsProper(tb, p, 0, q);
    assert [] + Rest(tb, p.m).out == Rest(tb, p.m).out;
    assert Move(tb, q) == Ends(q.out);
    LastMove(tb, q, Ends(q.out));
    Onward(tb, p, 0, q, 1, Ends(q.out));
  }
}
