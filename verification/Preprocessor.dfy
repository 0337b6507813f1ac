/** The preprocessor itself: next(), expand(), copymacro() and expandarg() working on the input
    stack in place. */
module Preprocessor {

  import opened Options
  import opened MacroStack
  import opened MacroText
  import opened MacroLevels

  // ----- reading an argument list -----

  function InFront(done: seq<Token>, r: Option<Piece>): Option<Piece> {
    if r.None? then None else Some(r.value.(arg := done + r.value.arg))
  }

  lemma InFrontNone(r: Option<Piece>)
    ensures InFront([], r) == r
  {
    if r.Some? {
      assert [] + r.value.arg == r.value.arg;
    }
  }

  lemma InFrontOne(done: seq<Token>, t: Token, r: Option<Piece>)
    ensures InFront(done, InFront([t], r)) == InFront(done + [t], r)
  {
    if r.Some? {
      assert done + ([t] + r.value.arg) == done + [t] + r.value.arg;
    }
  }

  /** parameter() with paren(): the loop keeps the nesting depth. */
  method ReadArgument(text: seq<Token>) returns (r: Option<Piece>)
    ensures r == Argument(text, 0)
  {
    var i, depth: nat := 0, 0;
    assert text[..0] == [] && text[0..] == text;
    InFrontNone(Argument(text, 0));
    while i < |text|
      invariant i <= |text| && Argument(text, 0) == InFront(text[..i], Argument(text[i..], depth))
    {
      var t := text[i];
      assert text[i..][0] == t && text[i..][1..] == text[i + 1..];
      assert text[..i + 1] == text[..i] + [t];
      if depth == 0 && (t.Close? || t.Comma?) {
        assert text[..i] + [] == text[..i];
        return Some(Piece(text[..i], t.Close?, text[i + 1..]));
      }
      if t.Open? {
        depth := depth + 1;
      } else if t.Close? {
        depth := depth - 1;
      }
      InFrontOne(text[..i], t, Argument(text[i + 1..], depth));
      i := i + 1;
    }
    return None;
  }

  function ArgsInFront(done: seq<seq<Token>>, r: Option<(seq<seq<Token>>, seq<Token>)>): Option<(seq<seq<Token>>, seq<Token>)> {
    if r.None? then None else Some((done + r.value.0, r.value.1))
  }

  lemma ArgsInFrontNone(r: Option<(seq<seq<Token>>, seq<Token>)>)
    ensures ArgsInFront([], r) == r
  {
    if r.Some? {
      assert [] + r.value.0 == r.value.0;
    }
  }

  lemma ArgsInFrontOne(done: seq<seq<Token>>, arg: seq<Token>, r: Option<(seq<seq<Token>>, seq<Token>)>)
    ensures ArgsInFront(done, ArgsInFront([arg], r)) == ArgsInFront(done + [arg], r)
  {
    if r.Some? {
      assert done + ([arg] + r.value.0) == done + [arg] + r.value.0;
    }
  }

  /** The do-while loop of parsepars. */
  method ReadArguments(text: seq<Token>) returns (r: Option<(seq<seq<Token>>, seq<Token>)>)
    ensures r == Arguments(text)
  {
    var args: seq<seq<Token>>, rest := [], text;
    ArgsInFrontNone(Arguments(text));
    while true
      invariant Arguments(text) == ArgsInFront(args, Arguments(rest))
      decreases |rest|
    {
      var p := ReadArgument(rest);
      if p.None? {
        return None;
      }
      ArgsInFrontOne(args, p.value.arg, Arguments(p.value.rest));
      args, rest := args + [p.value.arg], p.value.rest;
      if p.value.last {
        return Some((args, rest));
      }
    }
  }

  // ----- what every method keeps -----

  ghost predicate Good(tb: Table, m: Machine) {
    Inv(m) && Within(m.stack, tb.macros.Keys)
  }

  lemma FinishGood(tb: Table, m: Machine)
    requires Good(tb, m) && m.stack != [] && (IsDone(Top(m)) || Top(m).Plain?)
    ensures Good(tb, Finished(m))
  {
    FinishKeeps(m);
  }

  lemma PushGood(tb: Table, m: Machine, ip: Input)
    requires Good(tb, m) && !IsDone(ip) && (ip.Macro? ==> ip.sym !in m.hidden && ip.hideset == {})
    ensures Good(tb, Push(m, ip))
  {
    PushKeeps(m, ip);
  }

  lemma SameGood(tb: Table, m: Machine, r: Machine)
    requires Good(tb, m) && SameButText(m.stack, r.stack) && r.hidden == m.hidden
    ensures Good(tb, r)
  {
    SameKeeps(m, r);
  }

  lemma TextGood(tb: Table, m: Machine, text: seq<Token>)
    requires Good(tb, m) && m.stack != []
    ensures Good(tb, WithText(m, text))
  {
    SameGood(tb, m, WithText(m, text));
  }

  lemma InstallGood(tb: Table, m: Machine, text: seq<Token>)
    requires Good(tb, m) && m.stack != [] && Top(m).Macro? && !Top(m).done && Top(m).sym in tb.macros
    ensures Good(tb, Installed(m, text))
  {
    InstallKeeps(m, text);
    InstallWithin(m, text, tb.macros.Keys);
  }

  /** A hideset can only be full when the table has more macros than it has places. */
  lemma FullTable(tb: Table, m: Machine, s: Sym)
    requires Good(tb, m) && s in tb.macros && !Room(m.stack, s)
    ensures |tb.macros| > NR_MACROARG
  {
    var i :| 0 <= i < |m.stack| && m.stack[i].Macro? && |m.stack[i].hideset + {s}| > NR_MACROARG;
    SubsetSize(m.stack[i].hideset + {s}, tb.macros.Keys);
  }

  // ----- copymacro, step by step -----

  lemma {:induction false} BuildOnward(tb: Table, body: seq<Item>, k: nat, n: nat, args: seq<seq<Token>>, hidden: set<Sym>, z: nat)
    requires WellFormedTable(tb) && k <= n <= |body|
    requires forall j :: 0 <= j < |body| && (body[j].Par? || body[j].Str?) ==> body[j].i < |args|
    requires forall i :: 0 <= i < |args| ==> |args[i]| < z
    ensures var b, c := Build(tb, body, k, args, hidden, z), Build(tb, body, n, args, hidden, z);
      b.cost <= c.cost && (b.status != Ok ==> c == b)
    decreases n
  {
    if k < n {
      BuildOnward(tb, body, k, n - 1, args, hidden, z);
    }
  }

  /** The machine once the macros that have ended are gone. */
  function Settled(m: Machine): Machine
    requires Live(m.stack)
    decreases |m.stack|
  {
    if Top(m).Macro? && Top(m).text == [] then Settled(Finished(m)) else m
  }

  lemma {:induction false} SettledAdvances(tb: Table, m: Machine)
    requires WellFormedTable(tb) && Live(m.stack) && Good(tb, m)
    ensures var r := Settled(m);
      && Good(tb, r) && Advances(tb, m, r, [], {})
      && (Top(r).text == [] ==> Top(r).Plain?) && Ahead(r.stack) == Ahead(m.stack)
    decreases |m.stack|
  {
    if Top(m).Macro? && Top(m).text == [] {
      FinishGood(tb, m);
      FinishAdvances(tb, m);
      SettledAdvances(tb, Finished(m));
      Compose(tb, m, Finished(m), Settled(m), [], {}, [], {});
    } else {
      Stays(tb, m);
    }
  }

  /** What next() returns: a token, the end of the parameter or file, or the error that ends the
      compilation; the wrong number of arguments, or arguments that leave the input. */
  datatype Lexed = Tok(tok: Token) | Eof | Stop(status: Status) | TooComplex

  lemma ArgStarts(tb: Table, m0: Machine, arg: seq<Token>)
    requires WellFormedTable(tb) && Good(tb, m0)
    ensures var m1 := Push(m0, Plain(arg));
      && Good(tb, m1) && Live(m1.stack) && Advances(tb, m1, m1, [], {})
      && Rest(tb, m1) == Expand(tb, arg, m0.hidden, false)
      && BaseIndex(m1.stack) == |m0.stack| && BaseHidden(m1.stack, m1.hidden) == m0.hidden
  {
    PushGood(tb, m0, Plain(arg));
    Stays(tb, Push(m0, Plain(arg)));
  }

  lemma PlainEnd(tb: Table, m: Machine)
    requires WellFormedTable(tb) && Live(m.stack) && Top(m).Plain? && Top(m).text == []
    ensures Rest(tb, m) == Result(Ok, [], {}, 0)
    ensures BaseIndex(m.stack) == |m.stack| - 1 && BaseHidden(m.stack, m.hidden) == m.hidden
    ensures Finished(m) == Machine(m.stack[..BaseIndex(m.stack)], m.hidden)
  {
  }

  /** At the end of an argument the stack is as it was, but for the grown hidesets, and exactly
      the same symbols are hidden. */
  lemma ArgEnds(tb: Table, m0: Machine, arg: seq<Token>, m: Machine, buf: seq<Token>, d: set<Sym>)
    requires WellFormedTable(tb) && Good(tb, m0) && Good(tb, m) && Live(Push(m0, Plain(arg)).stack)
    requires Advances(tb, Push(m0, Plain(arg)), m, buf, d) && Top(m).Plain? && Top(m).text == []
    ensures var e := Expand(tb, arg, m0.hidden, false);
      && e.status == Ok && e.out == buf && e.touched == d
      && Finished(m) == Machine(Grow(m0.stack, d), m0.hidden) && Good(tb, Finished(m))
  {
    ArgStarts(tb, m0, arg);
    PlainEnd(tb, m);
    FinishGood(tb, m);
    assert Push(m0, Plain(arg)).stack[..|m0.stack|] == m0.stack;
    assert buf + [] == buf;
  }

  /** What expand() did: left the name alone, replaced the input, or ended in an error. */
  datatype Expansion = NoCall | Expanded | Broken(status: Status) | Overflow

  /** parsepars where the text goes on behind the name. */
  method Parse(def: Def, rest: seq<Token>) returns (call: Call)
    requires def.npars == -1 || rest != []
    ensures forall follow :: call == ParsePars(def, rest, follow)
  {
    if def.npars == -1 {
      return Invoke([], rest);
    }
    if !rest[0].Open? {
      return Name;
    }
    if def.npars == 0 && |rest| > 1 && rest[1].Close? {
      return Invoke([], rest[2..]);
    }
    var r := ReadArguments(rest[1..]);
    if r.None? {
      return Bad(Crossed);
    }
    if |r.value.0| != def.npars {
      return Bad(BadCall);
    }
    return Invoke(r.value.0, r.value.1);
  }

  lemma ThroughOne(tb: Table, m0: Machine, m1: Machine, m2: Machine, out: seq<Token>)
    requires WellFormedTable(tb) && Advances(tb, m0, m1, [], {}) && Advances(tb, m1, m2, out, {})
    ensures Advances(tb, m0, m2, out, {})
  {
    Compose(tb, m0, m1, m2, [], {}, out, {});
    assert [] + out == out;
  }

  lemma ReadStep(tb: Table, m0: Machine, m1: Machine, t: Token)
    requires WellFormedTable(tb) && Advances(tb, m0, m1, [], {})
    requires Top(m1).text != [] && Top(m1).text[0] == t && !Expandable(tb, t, m1.hidden) && Good(tb, m1)
    ensures var m2 := WithText(m1, Top(m1).text[1..]);
      Good(tb, m2) && Advances(tb, m0, m2, [t], {}) && Rest(tb, m2).cost < Rest(tb, m0).cost
  {
    ReadAdvances(tb, m1);
    TextGood(tb, m1, Top(m1).text[1..]);
    ThroughOne(tb, m0, m1, WithText(m1, Top(m1).text[1..]), [t]);
  }

  /** A function-like name that ends its input is a call if a parenthesis follows below. */
  lemma NameAtEndCalls(tb: Table, m: Machine, s: Sym)
    requires WellFormedTable(tb) && Live(m.stack) && Top(m).text == [Id(s)] && Expandable(tb, Id(s), m.hidden)
    requires tb.macros[s].npars != -1
    ensures var m1 := WithText(m, Top(m).text[1..]);
      && Live(m1.stack)
      && (Ahead(m1.stack) ==> Rest(tb, m).status == Crossed && Rest(tb, m).out == [])
      && (!Ahead(m1.stack) ==> NextCall(tb, m) == Name)
  {
    WithTextLive(m, Top(m).text[1..]);
    if Follow(m.stack) {
      StopsHere(tb, m);
    }
  }

  /** Reading it drops the inputs that end there; what is then on top decides. */
  lemma NameSettles(tb: Table, m: Machine, s: Sym)
    requires WellFormedTable(tb) && Live(m.stack) && Good(tb, m)
    requires Top(m).text == [Id(s)] && Expandable(tb, Id(s), m.hidden) && tb.macros[s].npars != -1
    ensures var m1 := WithText(m, Top(m).text[1..]);
      Live(m1.stack) &&
      var r := Settled(m1);
      && Live(r.stack) && Good(tb, r)
      && if Top(r).text != [] && Top(r).text[0].Open? then Rest(tb, m).status == Crossed && Rest(tb, m).out == []
         else Advances(tb, m, r, [Id(s)], {}) && Rest(tb, r).cost < Rest(tb, m).cost
  {
    var m1 := WithText(m, Top(m).text[1..]);
    NameAtEndCalls(tb, m, s);
    TextGood(tb, m, Top(m).text[1..]);
    SettledAdvances(tb, m1);
    if !Ahead(m1.stack) {
      NameEnds(tb, m, Settled(m1));
    }
  }

  lemma EnterInv(tb: Table, m0: Machine, s: Sym, rest: seq<Token>)
    requires Good(tb, m0) && m0.stack != [] && s !in m0.hidden
    ensures Good(tb, Push(WithText(m0, rest), Macro(s, {}, false, [])))
  {
    TextGood(tb, m0, rest);
    PushGood(tb, WithText(m0, rest), Macro(s, {}, false, []));
  }

  lemma ThroughTwo(tb: Table, m0: Machine, m1: Machine, m2: Machine, m3: Machine, d1: set<Sym>, out: seq<Token>, d: set<Sym>)
    requires WellFormedTable(tb)
    requires Advances(tb, m0, m1, [], {}) && Advances(tb, m1, m2, [], d1) && Advances(tb, m2, m3, out, d)
    ensures Advances(tb, m0, m3, out, d1 + d)
  {
    Compose(tb, m1, m2, m3, [], d1, out, d);
    Compose(tb, m0, m1, m3, [], {}, [] + out, d1 + d);
    assert [] + ([] + out) == out && {} + (d1 + d) == d1 + d;
  }

  /** A function-like name at the end of its input with no parenthesis behind it. */
  lemma NameEnds(tb: Table, m0: Machine, m: Machine)
    requires WellFormedTable(tb) && Live(m0.stack) && Top(m0).text != [] && NextCall(tb, m0) == Name
    requires var m1 := WithText(m0, Top(m0).text[1..]);
      Live(m1.stack) && Advances(tb, m1, m, [], {})
    ensures Advances(tb, m0, m, [Top(m0).text[0]], {}) && Rest(tb, m).cost < Rest(tb, m0).cost
  {
    var m1 := WithText(m0, Top(m0).text[1..]);
    ReadAdvances(tb, m0);
    Compose(tb, m0, m1, m, [Top(m0).text[0]], {}, [], {});
    assert [Top(m0).text[0]] + [] == [Top(m0).text[0]];
  }

  /** Installing over hidesets grown by the arguments is entering with both. */
  lemma EnterInstalls(m0: Machine, s: Sym, rest: seq<Token>, d: set<Sym>, text: seq<Token>)
    requires m0.stack != []
    ensures var m1 := Push(WithText(m0, rest), Macro(s, {}, false, []));
      var m2 := Machine(Grow(m1.stack, d), m1.hidden);
      Top(m2).Macro? && Installed(m2, text) == Entered(m0, s, rest, d + {s}, text)
  {
    var ma := WithText(m0, rest);
    var m1 := Push(ma, Macro(s, {}, false, []));
    var m2 := Machine(Grow(m1.stack, d), m1.hidden);
    GrowSplit(ma.stack, Macro(s, {}, false, []), d);
    assert {} + d == d;
    assert Top(m2) == Macro(s, d, false, []) && Below(m2) == Grow(ma.stack, d);
    GrowTwice(ma.stack, d, {s});
  }

  lemma EnterDone(tb: Table, m0: Machine, s: Sym, rest: seq<Token>, d: set<Sym>, text: seq<Token>)
    requires m0.stack != [] && s in tb.macros
    requires Good(tb, Machine(Grow(Push(WithText(m0, rest), Macro(s, {}, false, [])).stack, d), m0.hidden))
    ensures var m2 := Machine(Grow(Push(WithText(m0, rest), Macro(s, {}, false, [])).stack, d), m0.hidden);
      && Top(m2).Macro? && Top(m2).sym == s && (!Room(m2.stack, s) ==> |tb.macros| > NR_MACROARG)
      && Good(tb, Installed(m2, text)) && Installed(m2, text) == Entered(m0, s, rest, d + {s}, text)
  {
    var m1 := Push(WithText(m0, rest), Macro(s, {}, false, []));
    var m2 := Machine(Grow(m1.stack, d), m0.hidden);
    GrownTop(m1, d);
    InstallGood(tb, m2, text);
    EnterInstalls(m0, s, rest, d, text);
    if !Room(m2.stack, s) {
      FullTable(tb, m2, s);
    }
  }

  lemma GrownTop(m0: Machine, d: set<Sym>)
    requires m0.stack != [] && Top(m0).Macro? && !Top(m0).done
    ensures var m := Machine(Grow(m0.stack, d), m0.hidden); Top(m).Macro? && !Top(m).done
  {
  }

  datatype Copied = Text(text: seq<Token>) | Failed(status: Status) | Full

  class Lexer {
    const tb: Table
    var m: Machine

    ghost predicate Ready()
      reads this
    {
      WellFormedTable(tb) && Live(m.stack) && Good(tb, m)
    }

    constructor (tb: Table, text: seq<Token>)
      requires WellFormedTable(tb)
      ensures this.tb == tb && m == Start(text) && Ready()
    {
      this.tb := tb;
      m := Start(text);
    }

    /** delinput with delmacro. */
    method DelInput()
      requires m.stack != []
      modifies this
      ensures m == Finished(old(m))
    {
      var ip := Top(m);
      m := Machine(m.stack[..|m.stack| - 1], if ip.Macro? then m.hidden - ip.hideset else m.hidden);
    }

    /** Drop the macros that have ended, as moreinput does. */
    method MoreInput()
      requires Live(m.stack)
      modifies this
      ensures m == Settled(old(m))
    {
      while Top(m).text == [] && Top(m).Macro?
        invariant Live(m.stack) && Settled(m) == Settled(old(m))
        decreases |m.stack|
      {
        DelInput();
      }
    }

    /** addhideset on every macro input of the stack; false when a hideset is full. */
    method AddHidesets(s: Sym) returns (ok: bool)
      modifies this
      ensures ok == Room(old(m.stack), s)
      ensures m.hidden == old(m.hidden) && (ok ==> m.stack == Grow(old(m.stack), {s}))
    {
      ghost var was := m.stack;
      for i := 0 to |m.stack|
        invariant |m.stack| == |was| && m.hidden == old(m.hidden)
        invariant forall j :: 0 <= j < i ==> m.stack[j] == GrowOne(was[j], {s})
        invariant forall j :: 0 <= j < i && was[j].Macro? ==> |was[j].hideset + {s}| <= NR_MACROARG
        invariant forall j :: i <= j < |was| ==> m.stack[j] == was[j]
      {
        if m.stack[i].Macro? {
          var set' := m.stack[i].hideset + {s};
          if |set'| > NR_MACROARG {
            return false;
          }
          m := m.(stack := m.stack[i := m.stack[i].(hideset := set')]);
        }
      }
      ok := true;
      assert m.stack == Grow(was, {s});
    }

    /** The end of expand: hide the macro's symbol and all its arguments expanded. */
    method Install(text: seq<Token>) returns (ok: bool)
      requires m.stack != [] && Top(m).Macro?
      modifies this
      ensures ok == Room(old(m.stack), Top(old(m)).sym)
      ensures ok ==> m == Installed(old(m), text)
    {
      var n, s := |m.stack| - 1, Top(m).sym;
      ghost var was := m;
      ok := AddHidesets(s);
      if ok {
        assert m.stack[..n] == Grow(was.stack[..n], {s});
        assert m.stack[n] == GrowOne(was.stack[n], {s});
        m := Machine(m.stack[..n] + [m.stack[n].(done := true, text := text)], m.hidden + m.stack[n].hideset);
      }
    }

    /** next(). */
    method Next() returns (r: Lexed, ghost d: set<Sym>)
      requires Ready()
      modifies this
      ensures r.Tok? ==> Ready() && Advances(tb, old(m), m, [r.tok], d) && Rest(tb, m).cost < Rest(tb, old(m)).cost
      ensures r.Eof? ==> Ready() && Advances(tb, old(m), m, [], d) && Top(m).Plain? && Top(m).text == []
      ensures r.Stop? ==> Rest(tb, old(m)).status == r.status != Ok && Rest(tb, old(m)).out == []
      ensures r.TooComplex? ==> |tb.macros| > NR_MACROARG
      decreases Rest(tb, m).cost, 3
    {
      ghost var m0 := m;
      SettledAdvances(tb, m0);
      MoreInput();
      if Top(m).text == [] {
        return Eof, {};
      }
      var t := Top(m).text[0];
      ghost var m1 := m;
      if !Expandable(tb, t, m.hidden) {
        ReadStep(tb, m0, m1, t);
        Drop(1);
        return Tok(t), {};
      }
      var e;
      e, d := ExpandName(t.sym);
      match e {
        case Overflow => r := TooComplex;
        case Broken(st) => r := Stop(st);
        case NoCall =>
          ThroughOne(tb, m0, m1, m, [t]);
          return Tok(t), {};
        case Expanded =>
          ghost var m2, d1 := m, d;
          r, d := Next();
          if r.Tok? || r.Eof? {
            ThroughTwo(tb, m0, m1, m2, m, d1, if r.Tok? then [r.tok] else [], d);
          }
          d := d1 + d;
      }
    }

    /** Tokens taken from the current input. */
    method Drop(n: nat)
      requires m.stack != [] && n <= |Top(m).text|
      modifies this
      ensures m == WithText(old(m), Top(old(m)).text[n..])
    {
      m := WithText(m, Top(m).text[n..]);
    }

    /** expand() on a name that is a macro and not hidden. */
    method ExpandName(s: Sym) returns (e: Expansion, ghost d: set<Sym>)
      requires Ready() && Top(m).text != [] && Top(m).text[0] == Id(s) && Expandable(tb, Id(s), m.hidden)
      modifies this
      ensures e.NoCall? ==> Ready() && Advances(tb, old(m), m, [Id(s)], {})
      ensures e.Expanded? ==> Ready() && Advances(tb, old(m), m, [], d)
      ensures e.NoCall? || e.Expanded? ==> Rest(tb, m).cost < Rest(tb, old(m)).cost
      ensures e.Broken? ==> Rest(tb, old(m)).status == e.status != Ok && Rest(tb, old(m)).out == []
      ensures e.Overflow? ==> |tb.macros| > NR_MACROARG
      decreases Rest(tb, m).cost, 2
    {
      ghost var m0 := m;
      d := {};
      var rest := Top(m).text[1..];
      var def := tb.macros[s];
      if def.npars != -1 && rest == [] {
        e := NameAtEnd(s);
        return;
      }
      var call := Parse(def, rest);
      assert call == NextCall(tb, m0);
      match call {
        case Bad(st) =>
          StopsHere(tb, m0);
          e := Broken(st);
        case Name =>
          ReadAdvances(tb, m0);
          TextGood(tb, m0, Top(m0).text[1..]);
          Drop(1);
          e := NoCall;
        case Invoke(args, rest2) =>
          e, d := Enter(s, args, rest2);
          if e.Expanded? {
            InvokeAdvances(tb, m0, d);
          } else if e.Broken? {
            InvokeFails(tb, m0);
          }
      }
    }

    /** The name ends its input: ahead() drops the inputs that have ended. */
    method NameAtEnd(s: Sym) returns (e: Expansion)
      requires Ready() && Top(m).text == [Id(s)] && Expandable(tb, Id(s), m.hidden) && tb.macros[s].npars != -1
      modifies this
      ensures e == NoCall || e == Broken(Crossed)
      ensures e.NoCall? ==> Ready() && Advances(tb, old(m), m, [Id(s)], {}) && Rest(tb, m).cost < Rest(tb, old(m)).cost
      ensures e.Broken? ==> Rest(tb, old(m)).status == Crossed && Rest(tb, old(m)).out == []
    {
      NameSettles(tb, m, s);
      Drop(1);
      MoreInput();
      var text := Top(m).text;
      return if text != [] && text[0].Open? then Broken(Crossed) else NoCall;
    }

    /** addinput(IMACRO) behind the invocation. */
    method BeginMacro(s: Sym, rest: seq<Token>)
      requires m.stack != [] && Good(tb, m) && s !in m.hidden
      modifies this
      ensures m == Push(WithText(old(m), rest), Macro(s, {}, false, [])) && Good(tb, m)
    {
      EnterInv(tb, m, s, rest);
      m := WithText(m, rest);
      m := Push(m, Macro(s, {}, false, []));
    }

    /** Push the macro, copy its replacement list, then hide. */
    method Enter(s: Sym, args: seq<seq<Token>>, rest: seq<Token>) returns (e: Expansion, ghost d: set<Sym>)
      requires Ready() && Top(m).text != [] && Top(m).text[0] == Id(s)
      requires NextCall(tb, m) == Invoke(args, rest)
      modifies this
      ensures !e.NoCall?
      ensures e.Expanded? ==>
        && NextBody(tb, old(m)).status == Ok && d == NextBody(tb, old(m)).touched + {s} && Good(tb, m)
        && m == Entered(old(m), s, rest, d, NextBody(tb, old(m)).out)
      ensures e.Broken? ==> e.status == NextBody(tb, old(m)).status != Ok
      ensures e.Overflow? ==> |tb.macros| > NR_MACROARG
      decreases Rest(tb, m).cost, 1
    {
      ghost var m0, n := m, |Top(m).text|;
      BodyCheaper(tb, m0);
      d := {};
      BeginMacro(s, rest);
      ghost var m1 := m;
      var c := CopyMacro(tb.macros[s].body, args, n);
      match c {
        case Failed(st) => return Broken(st), {};
        case Full => return Overflow, {};
        case Text(text) =>
          ghost var m2, b := m, NextBody(tb, m0);
          EnterDone(tb, m0, s, rest, b.touched, text);
          var ok := Install(text);
          if !ok {
            return Overflow, {};
          }
          return Expanded, b.touched + {s};
      }
    }

    /** expandarg on a parameter that is not beside `##`: read the argument as an input of its
        own up to its end. */
    method ExpandArg(arg: seq<Token>) returns (c: Copied)
      requires WellFormedTable(tb) && Good(tb, m) && m.stack != [] && Top(m).Macro? && !Top(m).done
      modifies this
      ensures c.Text? ==>
        var e := Expand(tb, arg, old(m.hidden), false);
        && e.status == Ok && c.text == e.out && Good(tb, m)
        && m == Machine(Grow(old(m.stack), e.touched), old(m.hidden))
      ensures c.Full? ==> |tb.macros| > NR_MACROARG
      ensures c.Failed? ==> c.status == Expand(tb, arg, old(m.hidden), false).status != Ok
      decreases Expand(tb, arg, m.hidden, false).cost + 1, 0
    {
      ghost var m0 := m;
      m := Push(m, Plain(arg));
      ghost var m1, d: set<Sym> := m, {};
      ArgStarts(tb, m0, arg);
      var buf := [];
      while true
        invariant Ready() && Advances(tb, m1, m, buf, d)
        decreases Rest(tb, m).cost
      {
        ghost var m2 := m;
        var r; ghost var d2;
        r, d2 := Next();
        match r {
          case TooComplex => return Full;
          case Stop(st) => return Failed(st);
          case Tok(tok) =>
            Compose(tb, m1, m2, m, buf, d, [tok], d2);
            buf, d := buf + [tok], d + d2;
          case Eof =>
            Compose(tb, m1, m2, m, buf, d, [], d2);
            ArgEnds(tb, m0, arg, m, buf, d + d2);
            DelInput();
            return Text(buf);
        }
      }
    }

    /** copymacro: the replacement list with its arguments put in. */
    method CopyMacro(body: seq<Item>, args: seq<seq<Token>>, ghost n: nat) returns (c: Copied)
      requires WellFormedTable(tb) && Good(tb, m) && m.stack != [] && Top(m).Macro? && !Top(m).done
      requires forall j :: 0 <= j < |body| && (body[j].Par? || body[j].Str?) ==> body[j].i < |args|
      requires forall i :: 0 <= i < |args| ==> |args[i]| < n
      modifies this
      ensures c.Text? ==>
        var b := Build(tb, body, |body|, args, old(m.hidden), n);
        && b.status == Ok && c.text == b.out && Good(tb, m)
        && m == Machine(Grow(old(m.stack), b.touched), old(m.hidden))
      ensures c.Full? ==> |tb.macros| > NR_MACROARG
      ensures c.Failed? ==> c.status == Build(tb, body, |body|, args, old(m.hidden), n).status != Ok
      decreases Build(tb, body, |body|, args, m.hidden, n).cost, 1
    {
      ghost var m0 := m;
      ghost var b := Build(tb, body, 0, args, m.hidden, n);
      GrowNone(m.stack);
      var buf := [];
      for k := 0 to |body|
        invariant b == Build(tb, body, k, args, m0.hidden, n) && b.status == Ok && buf == b.out
        invariant Good(tb, m) && m == Machine(Grow(m0.stack, b.touched), m0.hidden)
      {
        BuildOnward(tb, body, k + 1, |body|, args, m0.hidden, n);
        var piece := [];
        match body[k] {
          case Lit(t) => piece := [t];
          case Str(i) => piece := [tb.quote(args[i])];
          case Cat =>
          case Par(i) =>
            if BesideCat(body, k) {
              piece := args[i];
            } else {
              GrownTop(m0, b.touched);
              var e := ExpandArg(args[i]);
              if !e.Text? {
                return e;
              }
              piece := e.text;
              GrowTwice(m0.stack, b.touched, Expand(tb, args[i], m0.hidden, false).touched);
            }
        }
        if !body[k].Cat? {
          buf := Join(tb, buf, piece, k > 0 && body[k - 1].Cat?);
        }
        b := Build(tb, body, k + 1, args, m0.hidden, n);
      }
      return Text(buf);
    }
  }
}
