/** UTF-8: the table of _validutf8, the encoder wcrtomb and the resumable decoder mbrtowc.

    Bytes are integers below 256 and the bit operations of the source are written as
    arithmetic: `c & 0x3f` is `c % 64`, `x << 6 | y` with `y` below 64 is `64 * x + y`, and
    `oc`, of which only the low eight bits matter, is kept below 256.  */
module Utf8 {

  const MB_CUR_MAX: nat := 4

  type Byte = b: int | 0 <= b < 256

  datatype Row = Row(begin: nat, end: nat, valid: bool, nbytes: nat)

  const ULONG_MAX: nat := 0xFFFF_FFFF_FFFF_FFFF

  const RANGES: seq<Row> := [
    Row(0, 0x80, true, 1),
    Row(0x80, 0x800, true, 2),
    Row(0x800, 0xD800, true, 3),
    Row(0xD800, 0xDD00, false, 3),
    Row(0xDD00, 0x10000, true, 3),
    Row(0x10000, 0x110000, true, 4),
    Row(0x110000, ULONG_MAX, false, 0)
  ]

  /** What the table says about a character. */
  predicate IsValid(wc: nat) {
    wc < 0xD800 || 0xDD00 <= wc < 0x110000
  }

  function Length(wc: nat): nat {
    if wc < 0x80 then 1 else if wc < 0x800 then 2 else if wc < 0x10000 then 3 else if wc < 0x110000 then 4 else 0
  }

  /** _validutf8: scan for the row that holds `wc`; the value -1 (ULONG_MAX) is in no row. */
  method ValidUtf8(wc: nat) returns (valid: bool, nbytes: nat)
    requires wc < ULONG_MAX
    ensures valid == IsValid(wc) && nbytes == Length(wc)
  {
    var bp := 0;
    while RANGES[bp].begin > wc || RANGES[bp].end <= wc
      invariant 0 <= bp < |RANGES| && RANGES[bp].begin <= wc
      decreases |RANGES| - bp
    {
      bp := bp + 1;
    }
    return RANGES[bp].valid, RANGES[bp].nbytes;
  }

  // ----- the encoder -----

  /** Section 3 of RFC 3629, by number of bytes. */
  function Encode(wc: nat): (s: seq<Byte>)
    requires wc < 0x110000
    ensures |s| == Length(wc)
  {
    if wc < 0x80 then [wc]
    else if wc < 0x800 then [0xC0 + wc / 64, 0x80 + wc % 64]
    else if wc < 0x10000 then [0xE0 + wc / 4096, 0x80 + wc / 64 % 64, 0x80 + wc % 64]
    else [0xF0 + wc / 262144, 0x80 + wc / 4096 % 64, 0x80 + wc / 64 % 64, 0x80 + wc % 64]
  }

  /** wcrtomb: fill the buffer from its end while shifting the character down; -1 and an
      untouched buffer for a character the table does not allow. */
  method Wcrtomb(s: array<Byte>, wc: nat) returns (r: int)
    requires wc < ULONG_MAX && s.Length >= MB_CUR_MAX
    modifies s
    ensures if IsValid(wc) then r == Length(wc) && s[..r] == Encode(wc) && s[r..] == old(s[..])[r..]
            else r == -1 && s[..] == old(s[..])
  {
    if wc < 0x80 {
      s[0] := wc;
      return 1;
    }
    var ok, n := ValidUtf8(wc);
    if !ok {
      return -1;
    }
    n := n - 1;
    s[0] := 0x80;
    var c := FillTail(s, wc, n);
    EncodeBytes(wc, n);
    s[0] := s[0] + c;
    assert s[..n + 1] == Encode(wc);
    return n + 1;
  }

  /** The loop of wcrtomb: each turn adds a mark to the lead byte and stores six bits. */
  method FillTail(s: array<Byte>, wc: nat, n: nat) returns (c: nat)
    requires n <= 3 < s.Length && s[0] == 0x80
    modifies s
    ensures c == Shifted(wc, n) && s[0] == Marks(n) && s[n + 1..] == old(s[..])[n + 1..]
    ensures forall k :: 0 < k <= n ==> s[k] == Trail(wc, n - k)
  {
    c := wc;
    for i := 0 to n
      invariant s[n + 1..] == old(s[..])[n + 1..]
      invariant c == Shifted(wc, i) && s[0] == Marks(i)
      invariant forall k :: n - i < k <= n ==> s[k] == Trail(wc, n - k)
    {
      s[0] := s[0] / 2 + 0x80;
      s[n - i] := 0x80 + c % 64;
      c := c / 64;
    }
  }

  function Trail(wc: nat, i: nat): Byte { 0x80 + Shifted(wc, i) % 64 }

  lemma EncodeBytes(wc: nat, n: nat)
    requires 0x80 <= wc < 0x110000 && n == Length(wc) - 1
    ensures Encode(wc)[0] == Marks(n) + Shifted(wc, n)
    ensures forall k :: 0 < k <= n ==> Encode(wc)[k] == Trail(wc, n - k)
  {
    assert Shifted(wc, 1) == wc / 64;
    assert Shifted(wc, 2) == wc / 4096;
    assert Shifted(wc, 3) == wc / 262144;
  }

  /** `wc >> 6 * i` */
  function Shifted(wc: nat, i: nat): nat {
    if i == 0 then wc else Shifted(wc, i - 1) / 64
  }

  /** `i + 1` leading ones. */
  function Marks(i: nat): Byte
    requires i <= 3
  {
    if i == 0 then 0x80 else if i == 1 then 0xC0 else if i == 2 then 0xE0 else 0xF0
  }

  // ----- the decoder, one byte at a time -----

  /** mbstate_t: pending length marks, bytes seen so far, and bits gathered. */
  datatype State = State(oc: Byte, sh: nat, wc: nat)

  const INITIAL := State(0, 0, 0)

  /** What one call returns: -1, -2, or a character and the bytes used by this call. */
  datatype Out = Illegal | Incomplete | Char(wc: nat, used: nat)

  datatype Progress = Bad | More(st: State) | Done(wc: nat)

  /** The low eight bits of `oc << 1`. */
  function Shl(oc: Byte): Byte { if oc < 128 then 2 * oc else 2 * oc - 256 }

  /** `1 << 6 * n` */
  function Place(n: nat): nat
    requires n <= 4
  {
    if n == 0 then 1 else if n == 1 then 64 else if n == 2 then 4096 else if n == 3 then 262144 else 16777216
  }

  /** `wc | oc >> sh << (sh - 1) * 6`: the lead byte's own bits above the gathered ones. */
  function Full(oc: Byte, sh: nat, wc: nat): nat
    requires 2 <= sh <= 5
  {
    wc + if sh == 2 then oc / 4 * 64 else if sh == 3 then oc / 8 * 4096
         else if sh == 4 then oc / 16 * 262144 else oc / 32 * 16777216
  }

  predicate Trails(c: Byte) { 0x80 <= c < 0xC0 }

  /** One byte in the initial state. */
  function Lead(c: Byte): Progress {
    if c < 0x80 then Done(c)
    else if c < 0xC0 then Bad
    else More(State(Shl(c), 1, 0))
  }

  /** One byte in the middle of a character. */
  function Continue(st: State, c: Byte): Progress
    requires st.sh > 0
  {
    if st.sh > MB_CUR_MAX || !Trails(c) then Bad
    else
      var wc, oc, sh := 64 * st.wc + c % 64, Shl(st.oc), st.sh + 1;
      if oc >= 0x80 then More(State(oc, sh, wc))
      else
        var full := Full(oc, sh, wc);
        if IsValid(full) && sh == Length(full) then Done(full) else Bad
  }

  function Take(st: State, c: Byte): Progress {
    if st.sh == 0 then Lead(c) else Continue(st, c)
  }

  /** Count bytes already used in front of what the remaining ones give. */
  function After(n: nat, o: Out): Out {
    if o.Char? then Char(o.wc, n + o.used) else o
  }

  /** A whole call: bytes are taken until a character, an error, or the end of the input. */
  function Feed(st: State, s: seq<Byte>): (Out, State)
    decreases |s|
  {
    if s == [] then (Incomplete, st)
    else match Take(st, s[0])
      case Bad => (Illegal, INITIAL)
      case Done(wc) => (Char(wc, if wc == 0 then 0 else 1), INITIAL)
      case More(st1) =>
        var r := Feed(st1, s[1..]);
        (After(1, r.0), r.1)
  }

  /** States a call can leave behind.  The bits gathered lie below those the lead byte will
      add, so the source's `|` is an addition. */
  predicate Reachable(st: State) {
    st == INITIAL || (0x80 <= st.oc && 1 <= st.sh <= 5 && st.wc < Place(st.sh - 1))
  }

  lemma TakeReachable(st: State, c: Byte)
    requires Reachable(st)
    ensures Take(st, c).More? ==> Reachable(Take(st, c).st) && Take(st, c).st.sh == st.sh + 1
    ensures Take(st, c).Done? && st.sh > 0 ==> Take(st, c).wc >= 0x80
  {
  }

  /** One more byte taken from a longer call. */
  lemma FeedOne(st: State, s: seq<Byte>, t: nat)
    requires t < |s|
    ensures Take(st, s[t]).Bad? ==> Feed(st, s[t..]) == (Illegal, INITIAL)
    ensures Take(st, s[t]).Done? && st.sh > 0 && Reachable(st) ==>
              Feed(st, s[t..]) == (Char(Take(st, s[t]).wc, 1), INITIAL)
    ensures Take(st, s[t]).More? ==> var r := Feed(Take(st, s[t]).st, s[t + 1..]);
              Feed(st, s[t..]) == (After(1, r.0), r.1)
  {
    assert s[t..][1..] == s[t + 1..];
    if Reachable(st) {
      TakeReachable(st, s[t]);
    }
  }

  /** What a call still has to do once `t` bytes are taken and it is in state `st`. */
  ghost predicate Pends(st0: State, s: seq<Byte>, t: nat, st: State) {
    t <= |s| && Reachable(st)
    && Feed(st0, s) == (After(t, Feed(st, s[t..]).0), Feed(st, s[t..]).1)
  }

  lemma PendsStops(st0: State, s: seq<Byte>, t: nat, st: State)
    requires Pends(st0, s, t, st) && t < |s| && st.sh > 0
    ensures Take(st, s[t]).Bad? ==> Feed(st0, s) == (Illegal, INITIAL)
    ensures Take(st, s[t]).Done? ==> Feed(st0, s) == (Char(Take(st, s[t]).wc, t + 1), INITIAL)
  {
    FeedOne(st, s, t);
  }

  lemma PendsMore(st0: State, s: seq<Byte>, t: nat, st: State, st1: State)
    requires Pends(st0, s, t, st) && t < |s| && st.sh > 0 && Take(st, s[t]) == More(st1)
    ensures Pends(st0, s, t + 1, st1)
  {
    FeedOne(st, s, t);
    TakeReachable(st, s[t]);
  }

  lemma PendsStep(st0: State, s: seq<Byte>, t: nat, st: State)
    requires Pends(st0, s, t, st) && t < |s| && st.sh > 0
    ensures Take(st, s[t]).Bad? ==> Feed(st0, s) == (Illegal, INITIAL)
    ensures Take(st, s[t]).Done? ==> Feed(st0, s) == (Char(Take(st, s[t]).wc, t + 1), INITIAL)
    ensures Take(st, s[t]).More? ==> Pends(st0, s, t + 1, Take(st, s[t]).st)
  {
    var p := Take(st, s[t]);
    if p.More? {
      PendsMore(st0, s, t, st, p.st);
    } else {
      PendsStops(st0, s, t, st);
    }
  }

  /** mbstate_t as the library keeps it between calls. */
  class Mbstate {
    var oc: Byte
    var sh: nat
    var wc: nat

    function Value(): State
      reads this
    {
      State(oc, sh, wc)
    }

    constructor ()
      ensures Value() == INITIAL
    {
      oc, sh, wc := 0, 0, 0;
    }

    method Reset()
      modifies this
      ensures Value() == INITIAL
    {
      oc, sh, wc := 0, 0, 0;
    }

    /** mbrtowc with a null string asks whether a character is pending. */
    method Flush() returns (out: Out)
      requires Reachable(Value())
      modifies this
      ensures Value() == INITIAL
      ensures out.Illegal? <==> old(Value()) != INITIAL
      ensures !out.Illegal? ==> out == Char(0, 0)
    {
      out := if sh != 0 then Illegal else Char(0, 0);
      Reset();
    }

    /** mbrtowc on a buffer of bytes. */
    method Mbrtowc(s: seq<Byte>) returns (out: Out)
      requires Reachable(Value())
      modifies this
      ensures (out, Value()) == Feed(old(Value()), s)
      ensures Reachable(Value())
    {
      if |s| == 0 {
        return Incomplete;
      }
      var o: Byte, w: nat, n: nat, t: nat := oc, wc, sh, 0;
      if n == 0 {
        if s[0] == 0 {
          return Char(0, 0);
        }
        t := 1;
        if s[0] < 0x80 {
          return Char(s[0], 1);
        }
        if s[0] < 0xC0 {
          Reset();
          return Illegal;
        }
        o, w, n := Shl(s[0]), 0, 1;
      }
      while t < |s|
        invariant n > 0 && unchanged(this) && Pends(old(Value()), s, t, State(o, n, w))
      {
        ghost var p := Take(State(o, n, w), s[t]);
        PendsStep(old(Value()), s, t, State(o, n, w));
        if n > MB_CUR_MAX {
          Reset();
          return Illegal;
        }
        var c := s[t];
        t := t + 1;
        if !(0x80 <= c < 0xC0) {
          Reset();
          return Illegal;
        }
        w := 64 * w + c % 64;
        o := Shl(o);
        n := n + 1;
        if o < 0x80 {
          w := Full(o, n, w);
          assert p == if IsValid(w) && n == Length(w) then Done(w) else Bad;
          var ok, max := ValidUtf8(w);
          Reset();
          if !ok || n != max {
            return Illegal;
          }
          return Char(w, t);
        }
        assert p == More(State(o, n, w));
      }
      assert s[t..] == [];
      oc, sh, wc := o, n, w;
      return Incomplete;
    }
  }

  // ----- what a lead byte asks for -----

  function Bits(c: Byte): nat { c % 64 }

  lemma Two(s: seq<Byte>)
    requires |s| >= 2 && 0xC0 <= s[0] < 0xE0
    ensures var v := (s[0] - 0xC0) * 64 + Bits(s[1]);
            Feed(INITIAL, s).0 == if Trails(s[1]) && 0x80 <= v then Char(v, 2) else Illegal
    ensures Feed(INITIAL, s).1 == INITIAL
  {
    var st := State(Shl(s[0]), 1, 0);
    assert Take(INITIAL, s[0]) == More(st);
    FeedOne(st, s, 1);
    assert Shl(st.oc) / 4 == s[0] - 0xC0;
  }

  lemma Three(s: seq<Byte>)
    requires |s| >= 3 && 0xE0 <= s[0] < 0xF0 && Trails(s[1])
    ensures var v := (s[0] - 0xE0) * 4096 + Bits(s[1]) * 64 + Bits(s[2]);
            Feed(INITIAL, s).0 == if Trails(s[2]) && 0x800 <= v && IsValid(v) then Char(v, 3) else Illegal
    ensures Feed(INITIAL, s).1 == INITIAL
  {
    var st := State(Shl(s[0]), 1, 0);
    assert Take(INITIAL, s[0]) == More(st);
    var st2 := State(Shl(st.oc), 2, Bits(s[1]));
    assert Take(st, s[1]) == More(st2);
    FeedOne(st, s, 1);
    FeedOne(st2, s, 2);
    assert Shl(st2.oc) / 8 == s[0] - 0xE0;
  }

  lemma FourthByte(x: nat, wc: nat, c: Byte)
    requires x < 8 && wc < 4096
    ensures Continue(State(0x80 + 8 * x, 3, wc), c)
         == var v := x * 262144 + wc * 64 + Bits(c);
            if Trails(c) && 0x10000 <= v < 0x110000 then Done(v) else Bad
  {
    assert 16 * x / 16 == x;
  }

  /** A lead byte for four or more keeps the call going for two continuations. */
  lemma AfterThree(s: seq<Byte>)
    requires |s| >= 3 && 0xF0 <= s[0] && Trails(s[1]) && Trails(s[2])
    ensures Pends(INITIAL, s, 3, State(Shl(Shl(Shl(s[0]))), 3, Bits(s[1]) * 64 + Bits(s[2])))
  {
    var st := State(Shl(s[0]), 1, 0);
    assert Pends(INITIAL, s, 1, st) by { assert Take(INITIAL, s[0]) == More(st); }
    PendsStep(INITIAL, s, 1, st);
    PendsStep(INITIAL, s, 2, State(Shl(st.oc), 2, Bits(s[1])));
  }

  lemma Four(s: seq<Byte>)
    requires |s| >= 4 && 0xF0 <= s[0] < 0xF8 && Trails(s[1]) && Trails(s[2])
    ensures var v := (s[0] - 0xF0) * 262144 + (Bits(s[1]) * 64 + Bits(s[2])) * 64 + Bits(s[3]);
            Feed(INITIAL, s) == (if Trails(s[3]) && 0x10000 <= v < 0x110000 then Char(v, 4) else Illegal, INITIAL)
  {
    AfterThree(s);
    var wc := Bits(s[1]) * 64 + Bits(s[2]);
    FourthByte(s[0] - 0xF0, wc, s[3]);
    PendsStep(INITIAL, s, 3, State(0x80 + 8 * (s[0] - 0xF0), 3, wc));
  }

  /** A lead byte for three or more: the second byte decides nothing but an error. */
  lemma SecondByte(s: seq<Byte>)
    requires 1 <= |s| && 0xE0 <= s[0]
    ensures |s| == 1 ==> Feed(INITIAL, s).0 == Incomplete
    ensures |s| == 2 && Trails(s[1]) ==> Feed(INITIAL, s).0 == Incomplete
    ensures |s| >= 2 && !Trails(s[1]) ==> Feed(INITIAL, s).0 == Illegal
  {
    var st := State(Shl(s[0]), 1, 0);
    assert Take(INITIAL, s[0]) == More(st);
    if |s| >= 2 {
      FeedOne(st, s, 1);
    }
  }

  lemma ThirdByte(s: seq<Byte>)
    requires 3 <= |s| && 0xF0 <= s[0] && Trails(s[1])
    ensures |s| == 3 && Trails(s[2]) ==> Feed(INITIAL, s).0 == Incomplete
    ensures !Trails(s[2]) ==> Feed(INITIAL, s).0 == Illegal
  {
    var st := State(Shl(s[0]), 1, 0);
    assert Take(INITIAL, s[0]) == More(st);
    FeedOne(st, s, 1);
    var st2 := State(Shl(st.oc), 2, Bits(s[1]));
    assert Take(st, s[1]) == More(st2);
    FeedOne(st2, s, 2);
  }

  /** From a state that already needs five bytes nothing is ever accepted. */
  lemma {:induction false} TooLong(st: State, s: seq<Byte>, marks: nat)
    requires 1 <= st.sh <= 5 && st.oc >= [0xF0, 0xE0, 0xC0, 0x80, 0][st.sh - 1]
    requires marks == 5 - st.sh
    ensures !Feed(st, s).0.Char?
    decreases |s|
  {
    if s != [] && Take(st, s[0]).More? {
      TooLong(Take(st, s[0]).st, s[1..], marks - 1);
    }
  }

  // ----- the theorems -----

  /** The NUL byte is a character, but the call that finds it counts no bytes. */
  function Used(wc: nat): nat {
    if wc == 0 then 0 else Length(wc)
  }

  lemma TwoDigits(x: nat, y: nat)
    requires x < 32 && y < 64 && 2 <= x
    ensures Encode(x * 64 + y) == [0xC0 + x, 0x80 + y]
  {
  }

  lemma ThreeDigits(x: nat, y: nat, z: nat)
    requires x < 16 && y < 64 && z < 64 && 0x800 <= x * 4096 + y * 64 + z
    ensures Encode(x * 4096 + y * 64 + z) == [0xE0 + x, 0x80 + y, 0x80 + z]
  {
    var v := x * 4096 + y * 64 + z;
    assert v / 4096 == x && v / 64 == x * 64 + y;
  }

  lemma FourDigits(x: nat, y: nat, z: nat, u: nat)
    requires x < 8 && y < 64 && z < 64 && u < 64 && 0x10000 <= x * 262144 + y * 4096 + z * 64 + u < 0x110000
    ensures Encode(x * 262144 + y * 4096 + z * 64 + u) == [0xF0 + x, 0x80 + y, 0x80 + z, 0x80 + u]
  {
    var v := x * 262144 + y * 4096 + z * 64 + u;
    assert v / 262144 == x && v / 4096 == x * 64 + y && v / 64 == (x * 64 + y) * 64 + z;
  }

  /** What the encoder wrote is read back, whatever follows it. */
  lemma RoundTrip(wc: nat, rest: seq<Byte>)
    requires IsValid(wc)
    ensures Feed(INITIAL, Encode(wc) + rest) == (Char(wc, Used(wc)), INITIAL)
  {
    var s := Encode(wc) + rest;
    if wc < 0x80 {
      assert s[0] == wc;
    } else if wc < 0x800 {
      ReadTwo(s, wc / 64, wc % 64);
    } else if wc < 0x10000 {
      Digits(wc);
      ReadThree(s, wc / 4096, wc / 64 % 64, wc % 64);
    } else {
      Digits(wc);
      ReadFour(s, wc / 262144, wc / 4096 % 64, wc / 64 % 64, wc % 64);
    }
  }

  lemma Digits(wc: nat)
    ensures wc == wc / 4096 * 4096 + wc / 64 % 64 * 64 + wc % 64
    ensures wc == wc / 262144 * 262144 + wc / 4096 % 64 * 4096 + wc / 64 % 64 * 64 + wc % 64
  {
    assert wc / 64 / 64 == wc / 4096;
    assert wc / 4096 / 64 == wc / 262144;
  }

  lemma ReadTwo(s: seq<Byte>, x: nat, y: nat)
    requires |s| >= 2 && 2 <= x < 32 && y < 64 && s[0] == 0xC0 + x && s[1] == 0x80 + y
    ensures Feed(INITIAL, s) == (Char(x * 64 + y, 2), INITIAL)
  {
    Two(s);
  }

  lemma ReadThree(s: seq<Byte>, x: nat, y: nat, z: nat)
    requires |s| >= 3 && x < 16 && y < 64 && z < 64
    requires s[0] == 0xE0 + x && s[1] == 0x80 + y && s[2] == 0x80 + z
    requires var v := x * 4096 + y * 64 + z; 0x800 <= v && IsValid(v)
    ensures Feed(INITIAL, s) == (Char(x * 4096 + y * 64 + z, 3), INITIAL)
  {
    Three(s);
  }

  lemma ReadFour(s: seq<Byte>, x: nat, y: nat, z: nat, u: nat)
    requires |s| >= 4 && x < 8 && y < 64 && z < 64 && u < 64
    requires s[0] == 0xF0 + x && s[1] == 0x80 + y && s[2] == 0x80 + z && s[3] == 0x80 + u
    requires 0x10000 <= x * 262144 + y * 4096 + z * 64 + u < 0x110000
    ensures Feed(INITIAL, s) == (Char(x * 262144 + y * 4096 + z * 64 + u, 4), INITIAL)
  {
    Four(s);
  }

  /** `s` gives a character and starts with that character's encoding. */
  ghost predicate StartsWithIts(s: seq<Byte>) {
    var r := Feed(INITIAL, s).0;
    r.Char? ==> IsValid(r.wc) && Encode(r.wc) <= s
  }

  lemma Matches(s: seq<Byte>, v: nat, e: seq<Byte>)
    requires Feed(INITIAL, s).0.Char? && Feed(INITIAL, s).0.wc == v && IsValid(v)
    requires Encode(v) == e && |e| <= |s| && forall i :: 0 <= i < |e| ==> e[i] == s[i]
    ensures StartsWithIts(s)
  {
  }

  lemma LeadOfTwo(s: seq<Byte>)
    requires 1 <= |s| && 0xC0 <= s[0] < 0xE0
    ensures StartsWithIts(s)
  {
    if |s| == 1 {
      assert Take(INITIAL, s[0]) == More(State(Shl(s[0]), 1, 0)) && s[1..] == [];
    } else if Feed(INITIAL, s).0.Char? {
      Two(s);
      TwoDigits(s[0] - 0xC0, Bits(s[1]));
    }
  }

  lemma LeadOfThree(s: seq<Byte>)
    requires 1 <= |s| && 0xE0 <= s[0] < 0xF0
    ensures StartsWithIts(s)
  {
    SecondByte(s);
    if |s| >= 3 && Trails(s[1]) && Feed(INITIAL, s).0.Char? {
      Three(s);
      ThreeDigits(s[0] - 0xE0, Bits(s[1]), Bits(s[2]));
    }
  }

  lemma FourValue(s: seq<Byte>, x: nat, y: nat, z: nat, u: nat) returns (v: nat)
    requires |s| >= 4 && 0xF0 <= s[0] < 0xF8 && Trails(s[1]) && Trails(s[2])
    requires s[0] == 0xF0 + x && y == Bits(s[1]) && z == Bits(s[2]) && Bits(s[3]) == u
    requires Feed(INITIAL, s).0.Char?
    ensures v == x * 262144 + y * 4096 + z * 64 + u && 0x10000 <= v < 0x110000
    ensures Feed(INITIAL, s).0.wc == v && Trails(s[3])
  {
    Four(s);
    v := x * 262144 + y * 4096 + z * 64 + u;
  }

  lemma FourTaken(s: seq<Byte>, x: nat, y: nat, z: nat, u: nat)
    requires |s| >= 4 && x < 8 && y < 64 && z < 64 && u < 64
    requires s[0] == 0xF0 + x && s[1] == 0x80 + y && s[2] == 0x80 + z && s[3] % 64 == u
    requires Feed(INITIAL, s).0.Char?
    ensures StartsWithIts(s)
  {
    var v := FourValue(s, x, y, z, u);
    FourDigits(x, y, z, u);
    Matches(s, v, [0xF0 + x, 0x80 + y, 0x80 + z, 0x80 + u]);
  }

  lemma LeadOfFour(s: seq<Byte>)
    requires 1 <= |s| && 0xF0 <= s[0] < 0xF8
    ensures StartsWithIts(s)
  {
    SecondByte(s);
    if |s| >= 3 && Trails(s[1]) {
      ThirdByte(s);
      if |s| >= 4 && Trails(s[2]) && Feed(INITIAL, s).0.Char? {
        FourTaken(s, s[0] - 0xF0, Bits(s[1]), Bits(s[2]), Bits(s[3]));
      }
    }
  }

  lemma LeadOfMore(s: seq<Byte>)
    requires 1 <= |s| && 0xF8 <= s[0]
    ensures !Feed(INITIAL, s).0.Char?
  {
    var st := State(Shl(s[0]), 1, 0);
    assert Take(INITIAL, s[0]) == More(st);
    TooLong(st, s[1..], 4);
  }

  /** Nothing else is read: overlong forms, stray continuations, the excluded range and leads
      of five bytes or more all fail. */
  lemma OnlyEncodings(s: seq<Byte>)
    ensures StartsWithIts(s)
  {
    if s != [] {
      if 0xC0 <= s[0] < 0xE0 {
        LeadOfTwo(s);
      } else if 0xE0 <= s[0] < 0xF0 {
        LeadOfThree(s);
      } else if 0xF0 <= s[0] < 0xF8 {
        LeadOfFour(s);
      } else if 0xF8 <= s[0] {
        LeadOfMore(s);
      }
    }
  }

  /** Exactness: a call from the initial state gives `wc` if and only if its input starts with
      the encoding of `wc`, a character valid in the table. */
  lemma AcceptsExactly(s: seq<Byte>, wc: nat)
    ensures Feed(INITIAL, s).0 == Char(wc, Used(wc)) <==> IsValid(wc) && Encode(wc) <= s
    ensures Feed(INITIAL, s).0.Char? ==> Feed(INITIAL, s).0 == Char(Feed(INITIAL, s).0.wc, Used(Feed(INITIAL, s).0.wc))
  {
    if IsValid(wc) && Encode(wc) <= s {
      assert Encode(wc) + s[|Encode(wc)|..] == s;
      RoundTrip(wc, s[|Encode(wc)|..]);
    }
    if Feed(INITIAL, s).0.Char? {
      OnlyEncodings(s);
      var v := Feed(INITIAL, s).0.wc;
      assert Encode(v) + s[|Encode(v)|..] == s;
      RoundTrip(v, s[|Encode(v)|..]);
    }
  }

  /** No encoding is the start of another, so decoding is injective. */
  lemma PrefixFree(v: nat, w: nat)
    requires IsValid(v) && IsValid(w) && Encode(v) <= Encode(w)
    ensures v == w
  {
    AcceptsExactly(Encode(w), v);
    AcceptsExactly(Encode(w), w);
  }

  // ----- splitting an encoding over several calls -----

  /** The bytes of an unfinished call may as well have come in front of the next call's. */
  lemma {:induction false} FeedConcat(st: State, a: seq<Byte>, b: seq<Byte>)
    requires Feed(st, a).0 == Incomplete
    ensures Feed(st, a + b) == (After(|a|, Feed(Feed(st, a).1, b).0), Feed(Feed(st, a).1, b).1)
    decreases |a|
  {
    if a == [] {
      assert a + b == b;
    } else {
      assert (a + b)[0] == a[0] && (a + b)[1..] == a[1..] + b;
      FeedConcat(Take(st, a[0]).st, a[1..], b);
    }
  }

  /** What stopped a call stops it whatever follows. */
  lemma {:induction false} FeedStops(st: State, a: seq<Byte>, b: seq<Byte>)
    requires Feed(st, a).0 != Incomplete
    ensures Feed(st, a + b) == Feed(st, a)
    decreases |a|
  {
    assert (a + b)[0] == a[0] && (a + b)[1..] == a[1..] + b;
    if Take(st, a[0]).More? {
      FeedStops(Take(st, a[0]).st, a[1..], b);
    }
  }

  /** Every proper prefix of an encoding is incomplete. */
  lemma PrefixIncomplete(wc: nat, a: seq<Byte>, b: seq<Byte>)
    requires IsValid(wc) && a + b == Encode(wc) && b != []
    ensures Feed(INITIAL, a).0 == Incomplete
  {
    RoundTrip(wc, []);
    assert Encode(wc) + [] == Encode(wc);
    if Feed(INITIAL, a).0 != Incomplete {
      FeedStops(INITIAL, a, b);
      AcceptsExactly(a, wc);
    }
  }

  function Flatten(pieces: seq<seq<Byte>>): seq<Byte> {
    if pieces == [] then [] else pieces[0] + Flatten(pieces[1..])
  }

  /** Each piece but the last answers -2. */
  ghost predicate AllIncomplete(st: State, pieces: seq<seq<Byte>>)
    decreases |pieces|
  {
    pieces == [] || (Feed(st, pieces[0]).0 == Incomplete && AllIncomplete(Feed(st, pieces[0]).1, pieces[1..]))
  }

  function StateAfter(st: State, pieces: seq<seq<Byte>>): State
    decreases |pieces|
  {
    if pieces == [] then st else StateAfter(Feed(st, pieces[0]).1, pieces[1..])
  }

  lemma {:induction false} PiecesAsOne(st: State, pieces: seq<seq<Byte>>)
    requires Feed(st, Flatten(pieces)).0 == Incomplete
    ensures AllIncomplete(st, pieces) && StateAfter(st, pieces) == Feed(st, Flatten(pieces)).1
    decreases |pieces|
  {
    if pieces != [] {
      if Feed(st, pieces[0]).0 != Incomplete {
        FeedStops(st, pieces[0], Flatten(pieces[1..]));
      }
      FeedConcat(st, pieces[0], Flatten(pieces[1..]));
      PiecesAsOne(Feed(st, pieces[0]).1, pieces[1..]);
    }
  }

  /** However an encoding is split over calls, every call but the last answers -2 and uses its
      whole piece, and the last one gives the character, uses exactly the missing bytes and
      leaves the initial state. */
  lemma Resumable(wc: nat, pieces: seq<seq<Byte>>, last: seq<Byte>, rest: seq<Byte>)
    requires IsValid(wc)
    requires Flatten(pieces) + last == Encode(wc) && last != []
    ensures AllIncomplete(INITIAL, pieces)
    ensures Feed(StateAfter(INITIAL, pieces), last + rest) == (Char(wc, if wc == 0 then 0 else |last|), INITIAL)
    ensures |Flatten(pieces)| + |last| == Length(wc)
  {
    var front := Flatten(pieces);
    PrefixIncomplete(wc, front, last);
    PiecesAsOne(INITIAL, pieces);
    FeedConcat(INITIAL, front, last + rest);
    RoundTrip(wc, rest);
    assert front + (last + rest) == Encode(wc) + rest;
  }
}
