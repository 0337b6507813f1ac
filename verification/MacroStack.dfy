/** The preprocessor's input stack, hidesets and hide flags, as a machine of small steps.

    Every run of next(), expand(), copymacro() and expandarg() is a sequence of these steps,
    also when the arguments of an invocation are read across the ends of several inputs. */
module MacroStack {

  const NR_MACROARG: nat := 127

  type Sym = nat

  /** Blue is a name that may not be replaced any more; section 6.10.3.4 of C99 makes such names,
      the preprocessor does not. */
  datatype Token = Id(sym: Sym) | Open | Close | Comma | Other(spelling: nat) | Blue(sym: Sym)

  /** One Input: a file or a macro parameter, or the text of a macro with the symbols to
      unhide when it ends.  `done` records that copymacro has returned. */
  datatype Input =
    | Plain(text: seq<Token>)
    | Macro(sym: Sym, hideset: set<Sym>, done: bool, text: seq<Token>)

  predicate IsDone(ip: Input) { ip.Macro? && ip.done }

  /** The stack, innermost input last, and the symbols whose hide flag is set. */
  datatype Machine = Machine(stack: seq<Input>, hidden: set<Sym>)

  function Top(m: Machine): Input
    requires m.stack != []
  {
    m.stack[|m.stack| - 1]
  }

  function Below(m: Machine): seq<Input>
    requires m.stack != []
  {
    m.stack[..|m.stack| - 1]
  }

  // ----- the steps -----

  function GrowOne(ip: Input, d: set<Sym>): Input {
    if ip.Macro? then ip.(hideset := ip.hideset + d) else ip
  }

  /** addhideset on every macro input. */
  function Grow(stack: seq<Input>, d: set<Sym>): (r: seq<Input>)
    ensures |r| == |stack| && forall i :: 0 <= i < |stack| ==> r[i] == GrowOne(stack[i], d)
  {
    seq(|stack|, i requires 0 <= i < |stack| => GrowOne(stack[i], d))
  }

  /** Every hideset still takes one more symbol. */
  predicate Room(stack: seq<Input>, s: Sym) {
    forall i :: 0 <= i < |stack| && stack[i].Macro? ==> |stack[i].hideset + {s}| <= NR_MACROARG
  }

  datatype Action =
    | Read(n: nat)                // tokens taken from the current input
    | Begin(sym: Sym)             // expand: newmacro and addinput(IMACRO)
    | Prescan(arg: seq<Token>)    // expandarg: addinput(IPARAM)
    | Install(text: seq<Token>)   // expand after copymacro: addhideset on all, then hide
    | Finish                      // delinput, with delmacro unhiding a hideset

  predicate Enabled(m: Machine, a: Action) {
    m.stack != [] &&
    match a
    case Read(n) => n <= |Top(m).text|
    case Begin(sym) => sym !in m.hidden
    case Prescan(_) => Top(m).Macro? && !Top(m).done
    case Install(_) => Top(m).Macro? && !Top(m).done && Room(m.stack, Top(m).sym)
    case Finish => (IsDone(Top(m)) || Top(m).Plain?) && Top(m).text == []
  }

  function Push(m: Machine, ip: Input): Machine {
    m.(stack := m.stack + [ip])
  }

  function Replace(m: Machine, ip: Input): Machine
    requires m.stack != []
  {
    m.(stack := Below(m) + [ip])
  }

  function Installed(m: Machine, text: seq<Token>): Machine
    requires m.stack != [] && Top(m).Macro?
  {
    var top := GrowOne(Top(m), {Top(m).sym});
    Machine(Grow(Below(m), {top.sym}) + [top.(done := true, text := text)], m.hidden + top.hideset)
  }

  function Finished(m: Machine): Machine
    requires m.stack != []
  {
    Machine(Below(m), if Top(m).Macro? then m.hidden - Top(m).hideset else m.hidden)
  }

  function Act(m: Machine, a: Action): Machine
    requires Enabled(m, a)
  {
    match a
    case Read(n) => Replace(m, Top(m).(text := Top(m).text[n..]))
    case Begin(sym) => Push(m, Macro(sym, {}, false, []))
    case Prescan(arg) => Push(m, Plain(arg))
    case Install(text) => Installed(m, text)
    case Finish => Finished(m)
  }

  // ----- the invariant -----

  ghost predicate DoneHidden(m: Machine) {
    forall i :: 0 <= i < |m.stack| && IsDone(m.stack[i]) ==>
      m.stack[i].sym in m.hidden && m.stack[i].sym in m.stack[i].hideset
  }

  /** No input above a finished one would unhide its symbol. */
  ghost predicate Shielded(stack: seq<Input>) {
    forall i, j :: 0 <= i < j < |stack| && IsDone(stack[i]) && stack[j].Macro? ==>
      stack[i].sym !in stack[j].hideset
  }

  ghost predicate HiddenBy(stack: seq<Input>, from: nat, s: Sym) {
    exists k :: from <= k < |stack| && IsDone(stack[k]) && s in stack[k].hideset
  }

  ghost predicate Covered(m: Machine) {
    forall s :: s in m.hidden ==> HiddenBy(m.stack, 0, s)
  }

  /** While a macro collects its arguments its own symbol is hidden only by inputs above it. */
  ghost predicate PendingFree(m: Machine) {
    forall j :: 0 <= j < |m.stack| && m.stack[j].Macro? && !m.stack[j].done && m.stack[j].sym in m.hidden ==>
      HiddenBy(m.stack, j + 1, m.stack[j].sym)
  }

  /** Hidesets hold only symbols of the table. */
  predicate Within(stack: seq<Input>, keys: set<Sym>) {
    forall i :: 0 <= i < |stack| && stack[i].Macro? ==> stack[i].hideset <= keys
  }

  lemma InstallWithin(m: Machine, text: seq<Token>, keys: set<Sym>)
    requires m.stack != [] && Top(m).Macro? && Within(m.stack, keys) && Top(m).sym in keys
    ensures Within(Installed(m, text).stack, keys)
  {
    var r, n, s := Installed(m, text), |m.stack| - 1, Top(m).sym;
    forall i | 0 <= i < |r.stack| && r.stack[i].Macro? ensures r.stack[i].hideset <= keys {
      if i < n {
        assert r.stack[i] == GrowOne(m.stack[i], {s});
      } else {
        assert r.stack[i].hideset == m.stack[n].hideset + {s};
      }
    }
  }

  ghost predicate Inv(m: Machine) {
    DoneHidden(m) && Shielded(m.stack) && Covered(m) && PendingFree(m)
  }

  // ----- every step keeps it -----

  /** What hides a symbol in `a` still hides it in `b`. */
  ghost predicate Extends(a: seq<Input>, b: seq<Input>) {
    |a| <= |b| && forall k :: 0 <= k < |a| && IsDone(a[k]) ==> IsDone(b[k]) && a[k].hideset <= b[k].hideset
  }

  lemma HiddenByExtends(a: seq<Input>, b: seq<Input>, from: nat, s: Sym)
    requires Extends(a, b) && HiddenBy(a, from, s)
    ensures HiddenBy(b, from, s)
  {
    var k :| from <= k < |a| && IsDone(a[k]) && s in a[k].hideset;
    assert IsDone(b[k]) && s in b[k].hideset;
  }

  /** The two conditions on hidden symbols survive when none is added and none loses cover. */
  lemma CoverKept(m: Machine, r: Machine)
    requires Covered(m) && PendingFree(m) && Extends(m.stack, r.stack) && r.hidden <= m.hidden
    requires forall j :: 0 <= j < |r.stack| && r.stack[j].Macro? && !r.stack[j].done && r.stack[j].sym in r.hidden ==>
      j < |m.stack| && m.stack[j].Macro? && !m.stack[j].done && m.stack[j].sym == r.stack[j].sym
    ensures Covered(r) && PendingFree(r)
  {
    forall s | s in r.hidden ensures HiddenBy(r.stack, 0, s) {
      HiddenByExtends(m.stack, r.stack, 0, s);
    }
    forall j | 0 <= j < |r.stack| && r.stack[j].Macro? && !r.stack[j].done && r.stack[j].sym in r.hidden
      ensures HiddenBy(r.stack, j + 1, r.stack[j].sym)
    {
      HiddenByExtends(m.stack, r.stack, j + 1, m.stack[j].sym);
    }
  }

  /** The same inputs but for their texts. */
  ghost predicate SameButText(a: seq<Input>, b: seq<Input>) {
    |a| == |b| && forall i :: 0 <= i < |a| ==> b[i] == a[i].(text := b[i].text)
  }

  lemma SameKeeps(m: Machine, r: Machine)
    requires Inv(m) && SameButText(m.stack, r.stack) && r.hidden == m.hidden
    ensures Inv(r)
  {
    CoverKept(m, r);
  }

  lemma PushKeeps(m: Machine, ip: Input)
    requires Inv(m) && !IsDone(ip) && (ip.Macro? ==> ip.sym !in m.hidden && ip.hideset == {})
    ensures Inv(Push(m, ip))
  {
    var r, n := Push(m, ip), |m.stack|;
    assert forall i :: 0 <= i < n ==> r.stack[i] == m.stack[i];
    assert r.stack[n] == ip;
    PushShields(m.stack, r.stack, ip);
    CoverKept(m, r);
  }

  lemma PushShields(a: seq<Input>, b: seq<Input>, ip: Input)
    requires Shielded(a) && b == a + [ip] && !IsDone(ip) && (ip.Macro? ==> ip.hideset == {})
    ensures Shielded(b)
  {
  }

  lemma FinishKeeps(m: Machine)
    requires Inv(m) && m.stack != [] && (IsDone(Top(m)) || Top(m).Plain?)
    ensures Inv(Finished(m))
  {
    var r := Finished(m);
    var n := |m.stack| - 1;
    assert forall i :: 0 <= i < n ==> r.stack[i] == m.stack[i];
    assert DoneHidden(r) && Shielded(r.stack);
    forall s | s in r.hidden ensures HiddenBy(r.stack, 0, s) {
      StillHidden(m, 0, s);
    }
    forall j | 0 <= j < |r.stack| && r.stack[j].Macro? && !r.stack[j].done && r.stack[j].sym in r.hidden
      ensures HiddenBy(r.stack, j + 1, r.stack[j].sym)
    {
      StillHidden(m, j + 1, m.stack[j].sym);
    }
  }

  lemma StillHidden(m: Machine, from: nat, s: Sym)
    requires m.stack != [] && HiddenBy(m.stack, from, s) && s in Finished(m).hidden
    ensures HiddenBy(Finished(m).stack, from, s)
  {
    var k :| from <= k < |m.stack| && IsDone(m.stack[k]) && s in m.stack[k].hideset;
    assert k < |m.stack| - 1 && Finished(m).stack[k] == m.stack[k];
  }

  lemma InstallKeeps(m: Machine, text: seq<Token>)
    requires Inv(m) && m.stack != [] && Top(m).Macro? && !Top(m).done
    ensures Inv(Installed(m, text))
  {
    var r := Installed(m, text);
    var n, s := |m.stack| - 1, Top(m).sym;
    assert s !in m.hidden;
    assert forall i :: 0 <= i < n ==> r.stack[i] == GrowOne(m.stack[i], {s});
    assert r.stack[n] == Macro(s, Top(m).hideset + {s}, true, text);
    InstallShields(m, r, n, s);
    InstallCovers(m, r, n, s);
  }

  /** `r` is `m` with `s` in every hideset and the macro at the top finished. */
  ghost predicate Grown(m: Machine, r: Machine, n: nat, s: Sym) {
    && |m.stack| == |r.stack| == n + 1
    && m.stack[n].Macro? && !m.stack[n].done && m.stack[n].sym == s
    && r.stack[n].Macro? && r.stack[n].done && r.stack[n].sym == s && r.stack[n].hideset == m.stack[n].hideset + {s}
    && (forall i :: 0 <= i < n ==> r.stack[i] == GrowOne(m.stack[i], {s}))
    && r.hidden == m.hidden + r.stack[n].hideset
  }

  lemma InstallShields(m: Machine, r: Machine, n: nat, s: Sym)
    requires DoneHidden(m) && Shielded(m.stack) && s !in m.hidden && Grown(m, r, n, s)
    ensures DoneHidden(r) && Shielded(r.stack)
  {
  }

  lemma InstallCovers(m: Machine, r: Machine, n: nat, s: Sym)
    requires Covered(m) && PendingFree(m) && Grown(m, r, n, s)
    ensures Covered(r) && PendingFree(r)
  {
    forall x, from: nat | x in r.hidden && from <= n && (x in m.hidden ==> HiddenBy(m.stack, from, x))
      ensures HiddenBy(r.stack, from, x)
    {
      if x in m.hidden {
        HiddenByExtends(m.stack, r.stack, from, x);
      } else {
        assert IsDone(r.stack[n]) && x in r.stack[n].hideset;
      }
    }
  }

  lemma ActKeeps(m: Machine, a: Action)
    requires Inv(m) && Enabled(m, a)
    ensures Inv(Act(m, a))
  {
    match a
    case Read(n) => SameKeeps(m, Act(m, a));
    case Begin(sym) => PushKeeps(m, Macro(sym, {}, false, []));
    case Prescan(arg) => PushKeeps(m, Plain(arg));
    case Install(text) => InstallKeeps(m, text);
    case Finish => FinishKeeps(m);
  }

  // ----- every run -----

  /** `m` leads to `r` by the steps of `run`. */
  ghost predicate Runs(m: Machine, run: seq<Action>, r: Machine)
    decreases |run|
  {
    if run == [] then m == r
    else Enabled(m, run[0]) && Runs(Act(m, run[0]), run[1..], r)
  }

  function Start(text: seq<Token>): Machine { Machine([Plain(text)], {}) }

  lemma {:induction false} RunKeeps(m: Machine, run: seq<Action>, r: Machine)
    requires Inv(m) && Runs(m, run, r)
    ensures Inv(r)
    decreases |run|
  {
    if run != [] {
      ActKeeps(m, run[0]);
      RunKeeps(Act(m, run[0]), run[1..], r);
    }
  }

  /** No hideset takes more symbols than it has places. */
  ghost predicate Bounded(stack: seq<Input>) {
    forall i :: 0 <= i < |stack| && stack[i].Macro? ==> |stack[i].hideset| <= NR_MACROARG
  }

  lemma ActBounded(m: Machine, a: Action)
    requires Bounded(m.stack) && Enabled(m, a)
    ensures Bounded(Act(m, a).stack)
  {
    if a.Install? {
      InstallBounded(m, a.text);
    }
  }

  lemma InstallBounded(m: Machine, text: seq<Token>)
    requires Bounded(m.stack) && m.stack != [] && Top(m).Macro? && Room(m.stack, Top(m).sym)
    ensures Bounded(Installed(m, text).stack)
  {
    var r, n, s := Installed(m, text), |m.stack| - 1, Top(m).sym;
    forall i | 0 <= i < |r.stack| && r.stack[i].Macro? ensures |r.stack[i].hideset| <= NR_MACROARG {
      if i < n {
        assert r.stack[i] == GrowOne(m.stack[i], {s});
      } else {
        assert r.stack[i].hideset == m.stack[n].hideset + {s};
      }
    }
  }

  lemma {:induction false} RunBounded(m: Machine, run: seq<Action>, r: Machine)
    requires Bounded(m.stack) && Runs(m, run, r)
    ensures Bounded(r.stack)
    decreases |run|
  {
    if run != [] {
      ActBounded(m, run[0]);
      RunBounded(Act(m, run[0]), run[1..], r);
    }
  }

  /** In every reachable stack: a macro input past copymacro has its symbol hidden, no two such
      inputs share a symbol, each hidden symbol is in the hideset of such an input, and nothing
      is hidden once no macro input is left. */
  lemma ReachableStacks(text: seq<Token>, run: seq<Action>, m: Machine)
    requires Runs(Start(text), run, m)
    ensures forall i :: 0 <= i < |m.stack| && IsDone(m.stack[i]) ==> m.stack[i].sym in m.hidden
    ensures forall i, j :: 0 <= i < j < |m.stack| && IsDone(m.stack[i]) && IsDone(m.stack[j]) ==>
              m.stack[i].sym != m.stack[j].sym
    ensures forall s :: s in m.hidden ==> HiddenBy(m.stack, 0, s)
    ensures (forall i :: 0 <= i < |m.stack| ==> m.stack[i].Plain?) ==> m.hidden == {}
  {
    RunKeeps(Start(text), run, m);
    if m.hidden != {} {
      var s :| s in m.hidden;
      assert HiddenBy(m.stack, 0, s);
    }
  }

  /** And in none does a hideset hold more symbols than it has places. */
  lemma ReachableHidesets(text: seq<Token>, run: seq<Action>, m: Machine)
    requires Runs(Start(text), run, m)
    ensures forall i :: 0 <= i < |m.stack| && m.stack[i].Macro? ==> |m.stack[i].hideset| <= 127
  {
    RunBounded(Start(text), run, m);
  }
}
