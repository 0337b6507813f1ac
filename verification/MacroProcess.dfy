/** Macro expansion move by move, with the macro table: the one thing next(), expand(), parsepars(),
    copymacro() and expandarg() do in each situation, also where the arguments of an invocation are
    read across the ends of inputs. */
module MacroProcess {

  import opened Options
  import opened MacroStack
  import opened MacroText

  /** A copymacro that has not returned: the arguments, the elements copied, the buffer, and what
      the argument being prescanned has given so far. */
  datatype Copy = Copy(args: seq<seq<Token>>, k: nat, buf: seq<Token>, piece: seq<Token>)

  datatype Phase =
    | Scan                                                               // next
    | AtName(s: Sym)                                                     // expand, before its parsepars
    | AtArgs(s: Sym, args: seq<seq<Token>>, cur: seq<Token>, depth: nat) // parameter and paren
    | AtCall(s: Sym, args: seq<seq<Token>>)                              // parsepars has succeeded
    | Fill                                                               // copymacro

  /** `out` is what the compiler proper has got. */
  datatype Process = Process(m: Machine, phase: Phase, copies: seq<Copy>, out: seq<Token>)

  datatype Reason = Unended | Arity | Complex | Improper

  datatype Outcome = Goes(p: Process) | Ends(out: seq<Token>) | Stops(why: Reason)

  function Beginning(text: seq<Token>): Process { Process(Start(text), Scan, [], []) }

  // ----- what a process looks like -----

  predicate Pending(ip: Input) { ip.Macro? && !ip.done }

  /** An argument stands above its macro and nowhere else. */
  predicate Shape(stack: seq<Input>) {
    stack != [] && stack[0].Plain? && forall i :: 0 < i < |stack| ==> (stack[i].Plain? <==> Pending(stack[i - 1]))
  }

  /** The macros being copied, outermost first. */
  function Pend(stack: seq<Input>): seq<Sym> {
    if stack == [] then []
    else
      var ip := stack[|stack| - 1];
      Pend(stack[..|stack| - 1]) + if Pending(ip) then [ip.sym] else []
  }

  predicate Called(tb: Table, s: Sym, args: seq<seq<Token>>) {
    s in tb.macros && (tb.macros[s].npars >= 0 ==> |args| == tb.macros[s].npars)
  }

  predicate Fits(tb: Table, c: Copy, s: Sym) {
    Called(tb, s, c.args) && c.k <= |tb.macros[s].body|
  }

  predicate Waits(tb: Table, c: Copy, s: Sym) {
    Fits(tb, c, s) && c.k < |tb.macros[s].body|
  }

  predicate AllWait(tb: Table, copies: seq<Copy>, syms: seq<Sym>) {
    |copies| == |syms| && forall j :: 0 <= j < |copies| ==> Waits(tb, copies[j], syms[j])
  }

  function Last(copies: seq<Copy>): Copy
    requires copies != []
  {
    copies[|copies| - 1]
  }

  function Outer(copies: seq<Copy>): seq<Copy>
    requires copies != []
  {
    copies[..|copies| - 1]
  }

  predicate Usable(tb: Table, m: Machine, s: Sym) {
    s in tb.macros && s !in m.hidden
  }

  ghost predicate Proper(tb: Table, p: Process) {
    Shape(p.m.stack) &&
    if p.phase.Fill? then
         && Pending(Top(p.m)) && p.copies != []
         && Fits(tb, Last(p.copies), Top(p.m).sym)
         && AllWait(tb, Outer(p.copies), Pend(Below(p.m)))
       else
         && !Pending(Top(p.m)) && AllWait(tb, p.copies, Pend(p.m.stack))
         && (!p.phase.Scan? ==> Usable(tb, p.m, p.phase.s))
         && (p.phase.AtArgs? ==> tb.macros[p.phase.s].npars >= 0)
         && (p.phase.AtCall? ==> Called(tb, p.phase.s, p.phase.args))
  }

  // ----- the moves -----

  /** A token that is not replaced goes to the argument being prescanned, or out. */
  function Emit(p: Process, t: Token): Process {
    if p.copies == [] then p.(out := p.out + [t])
    else p.(copies := Outer(p.copies) + [Last(p.copies).(piece := Last(p.copies).piece + [t])])
  }

  function ReadOne(p: Process): Process
    requires p.m.stack != [] && Top(p.m).text != []
  {
    p.(m := Act(p.m, Read(1)))
  }

  /** The buffer with one more piece, and the element behind it. */
  function Added(tb: Table, body: seq<Item>, c: Copy, piece: seq<Token>): Copy
    requires c.k < |body|
  {
    Copy(c.args, c.k + 1, Join(tb, c.buf, piece, c.k > 0 && body[c.k - 1].Cat?), [])
  }

  function Refill(p: Process, c: Copy): Process
    requires p.copies != []
  {
    p.(copies := Outer(p.copies) + [c])
  }

  /** The macro below the current input waits for it. */
  predicate Awaited(tb: Table, p: Process) {
    && p.copies != [] && |p.m.stack| > 1
    && Pending(Top(Finished(p.m))) && Waits(tb, Last(p.copies), Top(Finished(p.m)).sym)
  }

  /** The end of an argument: expandarg returns to copymacro. */
  function Return(tb: Table, p: Process): Process
    requires Awaited(tb, p)
  {
    var m, c := Finished(p.m), Last(p.copies);
    Refill(p, Added(tb, tb.macros[Top(m).sym].body, c, c.piece)).(m := m, phase := Fill)
  }

  function MoveScan(tb: Table, p: Process): Outcome
    requires p.m.stack != [] && (Top(p.m).Plain? && p.copies != [] ==> Awaited(tb, p))
  {
    var top := Top(p.m);
    if top.text != [] then
      var t := top.text[0];
      if Expandable(tb, t, p.m.hidden) then Goes(ReadOne(p).(phase := AtName(t.sym)))
      else Goes(Emit(ReadOne(p), t))
    else if top.Macro? then Goes(p.(m := Finished(p.m)))
    else if p.copies == [] then Ends(p.out)
    else Goes(Return(tb, p))
  }

  /** parsepars up to the opening parenthesis: ahead() ends the macro inputs it runs out of. */
  function MoveName(tb: Table, p: Process): Outcome
    requires p.m.stack != [] && p.phase.AtName? && p.phase.s in tb.macros
  {
    var top, s := Top(p.m), p.phase.s;
    if tb.macros[s].npars == -1 then Goes(p.(phase := AtCall(s, [])))
    else if top.text == [] && top.Macro? then Goes(p.(m := Finished(p.m)))
    else if top.text == [] || !top.text[0].Open? then Goes(Emit(p, Id(s)).(phase := Scan))
    else Goes(ReadOne(p).(phase := AtArgs(s, [], [], 0)))
  }

  /** One more token of the argument list. */
  function MoveArgs(tb: Table, p: Process): Outcome
    requires p.m.stack != [] && p.phase.AtArgs? && p.phase.s in tb.macros
  {
    var top := Top(p.m);
    if top.text == [] && top.Macro? then Goes(p.(m := Finished(p.m)))
    else if top.text == [] then Stops(Unended)
    else
      var AtArgs(s, args, cur, depth) := p.phase;
      var t := top.text[0];
      if depth == 0 && t.Close? then
        var list := if tb.macros[s].npars == 0 && args == [] && cur == [] then [] else args + [cur];
        if |list| == tb.macros[s].npars then Goes(ReadOne(p).(phase := AtCall(s, list))) else Stops(Arity)
      else if depth == 0 && t.Comma? then
        if |args| + 1 == NR_MACROARG then Stops(Arity) else Goes(ReadOne(p).(phase := AtArgs(s, args + [cur], [], 0)))
      else
        var d := if t.Open? then depth + 1 else if t.Close? then depth - 1 else depth;
        Goes(ReadOne(p).(phase := AtArgs(s, args, cur + [t], d)))
  }

  function MoveCall(p: Process): Outcome
    requires p.phase.AtCall?
  {
    Goes(Process(Push(p.m, Macro(p.phase.s, {}, false, [])), Fill, p.copies + [Copy(p.phase.args, 0, [], [])], p.out))
  }

  /** copymacro on one element, or its end. */
  function MoveFill(tb: Table, p: Process): Outcome
    requires WellFormedTable(tb) && p.m.stack != [] && Pending(Top(p.m)) && p.copies != []
    requires Fits(tb, Last(p.copies), Top(p.m).sym)
  {
    var c, body := Last(p.copies), tb.macros[Top(p.m).sym].body;
    if c.k == |body| then
      if Room(p.m.stack, Top(p.m).sym) then Goes(Process(Installed(p.m, c.buf), Scan, Outer(p.copies), p.out))
      else Stops(Complex)
    else
      match body[c.k]
      case Lit(t) => Goes(Refill(p, Added(tb, body, c, [t])))
      case Str(i) => Goes(Refill(p, Added(tb, body, c, [tb.quote(c.args[i])])))
      case Cat => Goes(Refill(p, c.(k := c.k + 1)))
      case Par(i) =>
        if BesideCat(body, c.k) then Goes(Refill(p, Added(tb, body, c, c.args[i])))
        else Goes(p.(m := Push(p.m, Plain(c.args[i])), phase := Scan))
  }

  /** The next move; `Improper` never comes up in a run. */
  ghost function Move(tb: Table, p: Process): Outcome {
    if !(WellFormedTable(tb) && Proper(tb, p)) then Stops(Improper)
    else
      match p.phase
      case Scan => ProperScan(tb, p); MoveScan(tb, p)
      case AtName(_) => MoveName(tb, p)
      case AtArgs(_, _, _, _) => MoveArgs(tb, p)
      case AtCall(_, _) => MoveCall(p)
      case Fill => MoveFill(tb, p)
  }

  // ----- every move is a step of the machine, or none, and leaves a proper process -----

  lemma PendLast(stack: seq<Input>, ip: Input)
    ensures Pend(stack + [ip]) == Pend(stack) + if Pending(ip) then [ip.sym] else []
  {
    assert (stack + [ip])[..|stack|] == stack;
  }

  lemma StackSplit(m: Machine)
    requires m.stack != []
    ensures m.stack == Below(m) + [Top(m)]
    ensures Pend(m.stack) == Pend(Below(m)) + if Pending(Top(m)) then [Top(m).sym] else []
  {
    PendLast(Below(m), Top(m));
  }

  lemma {:induction false} PendGrow(stack: seq<Input>, d: set<Sym>)
    ensures Pend(Grow(stack, d)) == Pend(stack)
    decreases |stack|
  {
    if stack != [] {
      var n := |stack| - 1;
      PendGrow(stack[..n], d);
      assert Grow(stack, d)[..n] == Grow(stack[..n], d);
    }
  }

  // Changing the top input keeps the shape of the stack.

  lemma PopShape(stack: seq<Input>, a: Input)
    requires Shape(stack + [a]) && stack != []
    ensures Shape(stack) && (a.Plain? <==> Pending(stack[|stack| - 1]))
  {
    assert forall i :: 0 <= i < |stack| ==> (stack + [a])[i] == stack[i];
    assert (stack + [a])[|stack|] == a;
  }

  lemma PushShape(stack: seq<Input>, a: Input)
    requires Shape(stack) && (a.Plain? <==> Pending(stack[|stack| - 1]))
    ensures Shape(stack + [a])
  {
  }

  lemma SameTop(stack: seq<Input>, a: Input, b: Input)
    requires Shape(stack + [a]) && !Pending(a) && !Pending(b) && (a.Plain? <==> b.Plain?)
    ensures Shape(stack + [b])
  {
    if stack != [] {
      PopShape(stack, a);
      PushShape(stack, b);
    } else {
      assert (stack + [a])[0] == a;
    }
  }

  lemma ProperScan(tb: Table, p: Process)
    requires Proper(tb, p)
    ensures p.phase.Scan? && Top(p.m).Plain? && p.copies != [] ==> Awaited(tb, p)
  {
    if p.phase.Scan? && Top(p.m).Plain? && p.copies != [] {
      var q := Finished(p.m);
      StackSplit(p.m);
      assert |p.m.stack| > 1;
      StackSplit(q);
      assert Top(q) == p.m.stack[|p.m.stack| - 2];
    }
  }

  ghost predicate MachineStep(m: Machine, r: Machine) {
    r == m || exists a :: Enabled(m, a) && r == Act(m, a)
  }

  /** What a move may lead to. */
  ghost predicate Sound(tb: Table, p: Process, o: Outcome) {
    o != Stops(Improper) && (o.Goes? ==> Proper(tb, o.p) && MachineStep(p.m, o.p.m))
  }

  lemma ReadProper(tb: Table, p: Process)
    requires Proper(tb, p) && !p.phase.Fill? && Top(p.m).text != []
    ensures var q := ReadOne(p);
      && Shape(q.m.stack) && !Pending(Top(q.m)) && q.m.hidden == p.m.hidden
      && AllWait(tb, q.copies, Pend(q.m.stack)) && MachineStep(p.m, q.m)
  {
    var q := ReadOne(p);
    assert Enabled(p.m, Read(1));
    StackSplit(p.m);
    StackSplit(q.m);
    assert Below(q.m) == Below(p.m);
    SameTop(Below(p.m), Top(p.m), Top(q.m));
  }

  lemma FinishProper(tb: Table, p: Process)
    requires Proper(tb, p) && !p.phase.Fill? && Top(p.m).text == [] && Top(p.m).Macro?
    ensures Proper(tb, p.(m := Finished(p.m))) && MachineStep(p.m, Finished(p.m))
  {
    var q := Finished(p.m);
    assert Enabled(p.m, Finish);
    StackSplit(p.m);
    PopShape(Below(p.m), Top(p.m));
  }

  lemma EmitProper(tb: Table, p: Process, t: Token)
    requires Proper(tb, p.(phase := Scan))
    ensures Proper(tb, Emit(p, t).(phase := Scan)) && Emit(p, t).m == p.m
  {
  }

  lemma ReturnProper(tb: Table, p: Process)
    requires Proper(tb, p) && p.phase.Scan? && Top(p.m).Plain? && Top(p.m).text == [] && Awaited(tb, p)
    ensures Proper(tb, Return(tb, p)) && MachineStep(p.m, Return(tb, p).m)
  {
    var q := Finished(p.m);
    assert Enabled(p.m, Finish);
    StackSplit(p.m);
    StackSplit(q);
    assert |Pend(Below(q))| == |Outer(p.copies)|;
  }

  lemma ScanSound(tb: Table, p: Process)
    requires WellFormedTable(tb) && Proper(tb, p) && p.phase.Scan?
    ensures Sound(tb, p, Move(tb, p))
  {
    ProperScan(tb, p);
    if Top(p.m).text != [] {
      var t := Top(p.m).text[0];
      ReadProper(tb, p);
      if !Expandable(tb, t, p.m.hidden) {
        EmitProper(tb, ReadOne(p), t);
        assert Emit(ReadOne(p), t).(phase := Scan) == Emit(ReadOne(p), t);
      }
    } else if Top(p.m).Macro? {
      FinishProper(tb, p);
    } else if p.copies != [] {
      ReturnProper(tb, p);
    }
  }

  lemma NameSound(tb: Table, p: Process)
    requires WellFormedTable(tb) && Proper(tb, p) && p.phase.AtName?
    ensures Sound(tb, p, Move(tb, p))
  {
    var top, s := Top(p.m), p.phase.s;
    if tb.macros[s].npars != -1 {
      if top.text == [] && top.Macro? {
        FinishProper(tb, p);
      } else if top.text == [] || !top.text[0].Open? {
        EmitProper(tb, p, Id(s));
      } else {
        ReadProper(tb, p);
      }
    }
  }

  lemma ArgsSound(tb: Table, p: Process)
    requires WellFormedTable(tb) && Proper(tb, p) && p.phase.AtArgs?
    ensures Sound(tb, p, Move(tb, p))
  {
    if Top(p.m).text == [] {
      if Top(p.m).Macro? {
        FinishProper(tb, p);
      }
    } else {
      var AtArgs(s, args, cur, depth) := p.phase;
      var t := Top(p.m).text[0];
      if depth == 0 && t.Close? {
        var list := if tb.macros[s].npars == 0 && args == [] && cur == [] then [] else args + [cur];
        if |list| == tb.macros[s].npars {
          ReadSound(tb, p, AtCall(s, list));
        }
      } else if depth == 0 && t.Comma? {
        ReadSound(tb, p, AtArgs(s, args + [cur], [], 0));
      } else {
        ReadSound(tb, p, AtArgs(s, args, cur + [t], if t.Open? then depth + 1 else if t.Close? then depth - 1 else depth));
      }
    }
  }

  lemma ReadSound(tb: Table, p: Process, ph: Phase)
    requires Proper(tb, p) && p.phase.AtArgs? && Top(p.m).text != []
    requires (ph.AtArgs? || ph.AtCall?) && ph.s == p.phase.s && (ph.AtCall? ==> Called(tb, ph.s, ph.args))
    ensures Sound(tb, p, Goes(ReadOne(p).(phase := ph)))
  {
    ReadProper(tb, p);
  }

  lemma CallSound(tb: Table, p: Process)
    requires WellFormedTable(tb) && Proper(tb, p) && p.phase.AtCall?
    ensures Sound(tb, p, Move(tb, p))
  {
    var a := Begin(p.phase.s);
    assert Enabled(p.m, a);
    var q := MoveCall(p).p;
    assert q.m == Act(p.m, a) && Below(q.m) == p.m.stack && Outer(q.copies) == p.copies;
  }

  lemma InstallSound(tb: Table, p: Process)
    requires WellFormedTable(tb) && Proper(tb, p) && p.phase.Fill? && Room(p.m.stack, Top(p.m).sym)
    ensures var q := Process(Installed(p.m, Last(p.copies).buf), Scan, Outer(p.copies), p.out);
      Proper(tb, q) && MachineStep(p.m, q.m)
  {
    var a := Install(Last(p.copies).buf);
    assert Enabled(p.m, a);
    var r, s := Act(p.m, a), Top(p.m).sym;
    StackSplit(p.m);
    StackSplit(r);
    assert Below(r) == Grow(Below(p.m), {s});
    PendGrow(Below(p.m), {s});
    InstalledShape(p.m.stack, r.stack, s);
  }

  lemma InstalledShape(a: seq<Input>, b: seq<Input>, s: Sym)
    requires Shape(a) && |a| == |b| && |a| > 0 && Pending(a[|a| - 1]) && IsDone(b[|b| - 1])
    requires forall i :: 0 <= i < |a| - 1 ==> b[i] == GrowOne(a[i], {s})
    ensures Shape(b)
  {
  }

  lemma FillSound(tb: Table, p: Process)
    requires WellFormedTable(tb) && Proper(tb, p) && p.phase.Fill?
    ensures Sound(tb, p, Move(tb, p))
  {
    var c, s := Last(p.copies), Top(p.m).sym;
    var body := tb.macros[s].body;
    if c.k == |body| {
      if Room(p.m.stack, s) {
        InstallSound(tb, p);
      }
    } else {
      match body[c.k]
      case Lit(t) => RefillSound(tb, p, Added(tb, body, c, [t]));
      case Str(i) => RefillSound(tb, p, Added(tb, body, c, [tb.quote(c.args[i])]));
      case Cat => RefillSound(tb, p, c.(k := c.k + 1));
      case Par(i) =>
        if BesideCat(body, c.k) {
          RefillSound(tb, p, Added(tb, body, c, c.args[i]));
        } else {
          PrescanSound(tb, p, c.args[i]);
        }
    }
  }

  lemma RefillSound(tb: Table, p: Process, c: Copy)
    requires Proper(tb, p) && p.phase.Fill? && Fits(tb, c, Top(p.m).sym)
    ensures Sound(tb, p, Goes(Refill(p, c)))
  {
    assert Outer(Refill(p, c).copies) == Outer(p.copies);
  }

  lemma PrescanSound(tb: Table, p: Process, arg: seq<Token>)
    requires WellFormedTable(tb) && Proper(tb, p) && p.phase.Fill? && Waits(tb, Last(p.copies), Top(p.m).sym)
    ensures var q := p.(m := Push(p.m, Plain(arg)), phase := Scan); Proper(tb, q) && MachineStep(p.m, q.m)
  {
    var a := Prescan(arg);
    assert Enabled(p.m, a);
    var m := Act(p.m, a);
    StackSplit(p.m);
    StackSplit(m);
    assert Below(m) == p.m.stack;
    PushShape(p.m.stack, Plain(arg));
    assert p.copies == Outer(p.copies) + [Last(p.copies)];
  }

  /** No move leads out of the machine. */
  lemma MoveSound(tb: Table, p: Process)
    requires WellFormedTable(tb) && Proper(tb, p)
    ensures Sound(tb, p, Move(tb, p))
  {
    match p.phase
    case Scan => ScanSound(tb, p);
    case AtName(_) => NameSound(tb, p);
    case AtArgs(_, _, _, _) => ArgsSound(tb, p);
    case AtCall(_, _) => CallSound(tb, p);
    case Fill => FillSound(tb, p);
  }

  // ----- the arguments gathered are those of the tokens read -----

  function Prefixed(args: seq<seq<Token>>, r: Option<(seq<seq<Token>>, seq<Token>)>): Option<(seq<seq<Token>>, seq<Token>)> {
    if r.None? then None else Some((args + r.value.0, r.value.1))
  }

  /** The list that `text`, read in this phase, completes. */
  function Completed(args: seq<seq<Token>>, cur: seq<Token>, depth: nat, text: seq<Token>): Option<(seq<seq<Token>>, seq<Token>)> {
    var p := Argument(text, depth);
    if p.None? then None
    else if p.value.last then Some((args + [cur + p.value.arg], p.value.rest))
    else Prefixed(args + [cur + p.value.arg], Arguments(p.value.rest))
  }

  lemma CompletedStart(text: seq<Token>)
    ensures Completed([], [], 0, text) == Arguments(text)
  {
    var p := Argument(text, 0);
    if p.Some? {
      assert [] + p.value.arg == p.value.arg;
      assert [] + [p.value.arg] == [p.value.arg];
    }
  }

  lemma CompletedComma(args: seq<seq<Token>>, cur: seq<Token>, text: seq<Token>)
    ensures Completed(args, cur, 0, [Comma] + text) == Completed(args + [cur], [], 0, text)
  {
    assert ([Comma] + text)[1..] == text;
    assert cur + [] == cur;
    var p := Argument(text, 0);
    if p.Some? {
      assert [] + p.value.arg == p.value.arg;
      if !p.value.last && Arguments(p.value.rest).Some? {
        var v := Arguments(p.value.rest).value.0;
        assert args + [cur] + ([p.value.arg] + v) == args + [cur] + [p.value.arg] + v;
      }
    }
  }

  lemma CompletedToken(args: seq<seq<Token>>, cur: seq<Token>, depth: nat, t: Token, text: seq<Token>)
    requires !(depth == 0 && (t.Close? || t.Comma?))
    ensures Completed(args, cur, depth, [t] + text)
         == Completed(args, cur + [t], if t.Open? then depth + 1 else if t.Close? then depth - 1 else depth, text)
  {
    assert ([t] + text)[1..] == text;
    var p := Argument(text, if t.Open? then depth + 1 else if t.Close? then depth - 1 else depth);
    if p.Some? {
      assert cur + ([t] + p.value.arg) == cur + [t] + p.value.arg;
    }
  }

  /** From whichever inputs the tokens come: after each one the list still to be completed is the
      same, and a call gets the list that the tokens read so far spell. */
  lemma ArgumentsMoveByMove(tb: Table, p: Process, text: seq<Token>)
    requires WellFormedTable(tb) && Proper(tb, p) && p.phase.AtArgs? && Top(p.m).text != []
    ensures var AtArgs(s, args, cur, depth) := p.phase;
      var all, o := Completed(args, cur, depth, [Top(p.m).text[0]] + text), Move(tb, p);
      && (o.Goes? && o.p.phase.AtArgs? ==> all == Completed(o.p.phase.args, o.p.phase.cur, o.p.phase.depth, text))
      && (o.Goes? && !o.p.phase.AtArgs? ==>
            o.p.phase.AtCall? && all.Some? && all.value.1 == text
            && (o.p.phase.args == all.value.0 || (tb.macros[s].npars == 0 && all.value.0 == [[]] && o.p.phase.args == [])))
      && (o.Stops? && all.Some? ==> |all.value.0| != tb.macros[s].npars)
  {
    var AtArgs(s, args, cur, depth) := p.phase;
    var t := Top(p.m).text[0];
    if depth == 0 && t.Close? {
      assert ([t] + text)[1..] == text && cur + [] == cur;
    } else if depth == 0 && t.Comma? {
      CompletedComma(args, cur, text);
    } else {
      CompletedToken(args, cur, depth, t, text);
    }
  }

  // ----- runs -----

  function Iterate(step: Process -> Outcome, p: Process, n: nat): Outcome
    decreases n
  {
    if n == 0 then Goes(p)
    else
      match step(p)
      case Goes(q) => Iterate(step, q, n - 1)
      case o => o
  }

  lemma {:induction false} IterateOnward(step: Process -> Outcome, p: Process, a: nat, q: Process, b: nat)
    requires Iterate(step, p, a) == Goes(q)
    ensures Iterate(step, p, a + b) == Iterate(step, q, b)
    decreases a
  {
    if a > 0 {
      IterateOnward(step, step(p).p, a - 1, q, b);
    }
  }

  /** What still goes on after more moves goes on after fewer. */
  lemma {:induction false} StillGoing(step: Process -> Outcome, p: Process, a: nat, b: nat)
    requires a <= b && Iterate(step, p, b).Goes?
    ensures Iterate(step, p, a).Goes?
    decreases a
  {
    if a > 0 {
      StillGoing(step, step(p).p, a - 1, b - 1);
    }
  }

  ghost function Mover(tb: Table): Process -> Outcome {
    p => Move(tb, p)
  }

  ghost function Moves(tb: Table, p: Process, n: nat): Outcome {
    Iterate(Mover(tb), p, n)
  }

  lemma BeginningProper(tb: Table, text: seq<Token>)
    ensures Proper(tb, Beginning(text))
  {
    assert Pend([Plain(text)]) == [] by { PendLast([], Plain(text)); assert [] + [Plain(text)] == [Plain(text)]; }
  }

  ghost predicate Reaches(m: Machine, r: Machine) {
    exists run :: Runs(m, run, r)
  }

  lemma StepThenRun(m: Machine, q: Machine, r: Machine)
    requires MachineStep(m, q) && Reaches(q, r)
    ensures Reaches(m, r)
  {
    var run :| Runs(q, run, r);
    if q != m {
      var a :| Enabled(m, a) && q == Act(m, a);
      assert ([a] + run)[1..] == run;
      assert Runs(m, [a] + run, r);
    }
  }

  lemma {:induction false} MovesRun(tb: Table, p: Process, n: nat)
    requires WellFormedTable(tb) && Proper(tb, p)
    ensures var o := Iterate(Mover(tb), p, n);
      o != Stops(Improper) && (o.Goes? ==> Proper(tb, o.p) && Reaches(p.m, o.p.m))
    decreases n
  {
    if n == 0 {
      assert Runs(p.m, [], p.m);
    } else {
      MoveSound(tb, p);
      var o := Mover(tb)(p);
      if o.Goes? {
        MovesRun(tb, o.p, n - 1);
        var r := Iterate(Mover(tb), o.p, n - 1);
        if r.Goes? {
          StepThenRun(p.m, o.p.m, r.p.m);
        }
      }
    }
  }

  /** `n` or more moves lead from `p` to `o`. */
  ghost predicate Leads(tb: Table, p: Process, n: nat, o: Outcome) {
    exists k :: k >= n && Iterate(Mover(tb), p, k) == o
  }

  lemma NoMove(tb: Table, p: Process)
    ensures Leads(tb, p, 0, Goes(p))
  {
    assert Iterate(Mover(tb), p, 0) == Goes(p);
  }

  lemma OneMove(tb: Table, p: Process, q: Process)
    requires WellFormedTable(tb) && Proper(tb, p) && Move(tb, p) == Goes(q)
    ensures Leads(tb, p, 1, Goes(q)) && Proper(tb, q)
  {
    MoveSound(tb, p);
    assert Mover(tb)(p) == Goes(q) && Iterate(Mover(tb), q, 0) == Goes(q);
    assert Iterate(Mover(tb), p, 1) == Goes(q);
  }

  lemma LastMove(tb: Table, p: Process, o: Outcome)
    requires Move(tb, p) == o && !o.Goes?
    ensures Leads(tb, p, 1, o)
  {
    assert Mover(tb)(p) == o;
    assert Iterate(Mover(tb), p, 1) == o;
  }

  lemma Onward(tb: Table, p: Process, a: nat, q: Process, b: nat, o: Outcome)
    requires Leads(tb, p, a, Goes(q)) && Leads(tb, q, b, o)
    ensures Leads(tb, p, a + b, o)
  {
    var k :| k >= a && Iterate(Mover(tb), p, k) == Goes(q);
    var l :| l >= b && Iterate(Mover(tb), q, l) == o;
    IterateOnward(Mover(tb), p, k, q, l);
  }

  lemma LeadsProper(tb: Table, p: Process, n: nat, q: Process)
    requires WellFormedTable(tb) && Proper(tb, p) && Leads(tb, p, n, Goes(q))
    ensures Proper(tb, q)
  {
    var k :| k >= n && Iterate(Mover(tb), p, k) == Goes(q);
    MovesRun(tb, p, k);
  }

  /** Whatever the table and the text, and however arguments are spread over the inputs: the
      machine covers the run, so its invariant holds after every number of moves. */
  lemma EveryProcess(tb: Table, text: seq<Token>, n: nat)
    requires WellFormedTable(tb)
    ensures var o := Moves(tb, Beginning(text), n);
      && o != Stops(Improper)
      && (o.Goes? ==>
            var m := o.p.m;
            && Reaches(Start(text), m)
            && (forall i :: 0 <= i < |m.stack| && IsDone(m.stack[i]) ==> m.stack[i].sym in m.hidden)
            && (forall i, j :: 0 <= i < j < |m.stack| && IsDone(m.stack[i]) && IsDone(m.stack[j]) ==>
                  m.stack[i].sym != m.stack[j].sym)
            && (forall s :: s in m.hidden ==> HiddenBy(m.stack, 0, s)))
  {
    BeginningProper(tb, text);
    MovesRun(tb, Beginning(text), n);
    var o := Iterate(Mover(tb), Beginning(text), n);
    if o.Goes? {
      var run :| Runs(Start(text), run, o.p.m);
      ReachableStacks(text, run, o.p.m);
    }
  }
}
