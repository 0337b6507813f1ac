/** Integers as text: the readers strtoimax and strtoumax, and the writer numtostr of printf.

    A C string is the sequence of its characters; reading past them gives the terminator.
    `isspace` and `toupper` are those of the C locale.  */
module Numbers {

  const INTMAX_MAX: int := 0x7FFF_FFFF_FFFF_FFFF
  const INTMAX_MIN: int := -0x8000_0000_0000_0000
  const UINTMAX_MAX: int := 0xFFFF_FFFF_FFFF_FFFF
  const INT_MAX: int := 0x7FFF_FFFF

  // ----- characters -----

  function At(s: string, i: nat): char {
    if i < |s| then s[i] else '\0'
  }

  predicate IsSpace(c: char) {
    c == ' ' || 9 <= c as int <= 13
  }

  function ToUpper(c: char): char {
    if 'a' <= c <= 'z' then (c as int - 32) as char else c
  }

  /** _dtoi: the place of the upper-case character in the digit string; the terminator is
      found behind the last digit. */
  function Dtoi(c: char): nat {
    var u := ToUpper(c);
    if '0' <= u <= '9' then u as int - '0' as int
    else if 'A' <= u <= 'Z' then u as int - 'A' as int + 10
    else if u == '\0' then 36
    else INT_MAX
  }

  // ----- the value of a run of digits -----

  predicate AllDigits(s: string, base: nat) {
    forall i :: 0 <= i < |s| ==> Dtoi(s[i]) < base
  }

  function Value(s: string, base: nat): nat {
    if s == [] then 0 else Value(s[..|s| - 1], base) * base + Dtoi(s[|s| - 1])
  }

  lemma ValueSnoc(s: string, c: char, base: nat)
    ensures Value(s + [c], base) == Value(s, base) * base + Dtoi(c)
  {
    assert (s + [c])[..|s|] == s;
  }

  lemma MulUp(a: nat, b: nat, base: nat)
    requires a <= b
    ensures a * base <= b * base
  {
  }

  /** More digits never make a smaller number. */
  lemma {:induction false} ValueGrows(s: string, base: nat, k: nat)
    requires k <= |s| && base >= 1
    ensures Value(s[..k], base) <= Value(s, base)
  {
    if k == |s| {
      assert s[..k] == s;
    } else {
      ValueGrows(s[..|s| - 1], base, k);
      assert s[..|s| - 1][..k] == s[..k];
      MulUp(1, base, Value(s[..|s| - 1], base));
    }
  }

  // ----- the subject sequence -----

  /** Where the digits start and stop, in which base, and whether a minus sign precedes them. */
  datatype Subject = Subject(neg: bool, base: nat, start: nat, stop: nat)

  function SkipSpaces(s: string, i: nat): (r: nat)
    ensures i <= |s| ==> i <= r <= |s|
    decreases |s| - i
  {
    if i < |s| && IsSpace(s[i]) then SkipSpaces(s, i + 1) else i
  }

  predicate HexMark(s: string, i: nat) {
    At(s, i) == '0' && ToUpper(At(s, i + 1)) == 'X'
  }

  function BaseAt(s: string, i: nat, base: nat): nat {
    if base != 0 then base
    else if At(s, i) == '0' then (if HexMark(s, i) then 16 else 8)
    else 10
  }

  function DigitsEnd(s: string, i: nat, base: nat): (r: nat)
    ensures i <= |s| ==> i <= r <= |s|
    decreases |s| - i
  {
    if i < |s| && Dtoi(s[i]) < base then DigitsEnd(s, i + 1, base) else i
  }

  /** Past the spaces and an optional sign. */
  function AfterSign(s: string): (r: (bool, nat))
    ensures r.1 <= |s|
  {
    var i := SkipSpaces(s, 0);
    (At(s, i) == '-', if At(s, i) == '-' || At(s, i) == '+' then i + 1 else i)
  }

  function Scan(s: string, base: nat): (sub: Subject)
    ensures sub.start <= sub.stop <= |s|
  {
    var (neg, j) := AfterSign(s);
    var b := BaseAt(s, j, base);
    var k := if b == 16 && HexMark(s, j) then j + 2 else j;
    Subject(neg, b, k, DigitsEnd(s, k, b))
  }

  lemma {:induction false} DigitsEndMaximal(s: string, i: nat, base: nat)
    requires i <= |s|
    ensures var e := DigitsEnd(s, i, base);
      AllDigits(s[i..e], base) && (e < |s| ==> Dtoi(s[e]) >= base)
    decreases |s| - i
  {
    if i < |s| && Dtoi(s[i]) < base {
      DigitsEndMaximal(s, i + 1, base);
      assert s[i..DigitsEnd(s, i, base)] == [s[i]] + s[i + 1..DigitsEnd(s, i, base)];
    }
  }

  /** The subject sequence is the longest run of digits of its base. */
  lemma SubjectMaximal(s: string, base: nat)
    ensures var sub := Scan(s, base);
      AllDigits(s[sub.start..sub.stop], sub.base) && (sub.stop < |s| ==> Dtoi(s[sub.stop]) >= sub.base)
  {
    DigitsEndMaximal(s, Scan(s, base).start, Scan(s, base).base);
  }

  /** The part of the readers that comes before the digit loop. */
  method ScanPrefix(s: string, base0: nat) returns (neg: bool, base: nat, i: nat)
    ensures var sub := Scan(s, base0); neg == sub.neg && base == sub.base && i == sub.start
    ensures i <= |s|
  {
    i := 0;
    while IsSpace(At(s, i))
      invariant i <= |s| && SkipSpaces(s, 0) == SkipSpaces(s, i)
      decreases |s| - i
    {
      i := i + 1;
    }
    neg := false;
    if At(s, i) == '-' {
      neg := true;
      i := i + 1;
    } else if At(s, i) == '+' {
      i := i + 1;
    }
    base := base0;
    if base == 0 {
      if At(s, i) == '0' {
        base := if ToUpper(At(s, i + 1)) == 'X' then 16 else 8;
      } else {
        base := 10;
      }
    }
    if base == 16 && At(s, i) == '0' && ToUpper(At(s, i + 1)) == 'X' {
      i := i + 2;
    }
  }

  ghost function Magnitude(s: string, sub: Subject): nat
    requires sub.start <= sub.stop <= |s|
  {
    Value(s[sub.start..sub.stop], sub.base)
  }

  /** Where the digit loop stands: every character from `start` up to `t` is a digit. */
  ghost predicate Along(s: string, sub: Subject, t: nat) {
    sub.start <= t <= sub.stop <= |s| && DigitsEnd(s, t, sub.base) == sub.stop
  }

  lemma AlongStep(s: string, sub: Subject, t: nat)
    requires Along(s, sub, t) && sub.base <= 36
    ensures Dtoi(At(s, t)) < sub.base <==> t < sub.stop
    ensures t < sub.stop ==> Along(s, sub, t + 1)
    ensures t < sub.stop ==>
      Value(s[sub.start..t + 1], sub.base) == Value(s[sub.start..t], sub.base) * sub.base + Dtoi(s[t])
  {
    if t < sub.stop {
      var run := s[sub.start..t];
      assert s[sub.start..t + 1] == run + [s[t]];
      ValueSnoc(run, s[t], sub.base);
    }
  }

  /** A prefix beyond the limit puts the whole run beyond it. */
  lemma BeyondStays(s: string, sub: Subject, t: nat)
    requires sub.start <= t <= sub.stop <= |s| && sub.base >= 1
    ensures Value(s[sub.start..t], sub.base) <= Magnitude(s, sub)
  {
    var run := s[sub.start..sub.stop];
    ValueGrows(run, sub.base, t - sub.start);
    assert run[..t - sub.start] == s[sub.start..t];
  }

  /** The digit at `end` is the first that takes the number beyond the limit. */
  ghost predicate Breaks(s: string, sub: Subject, end: nat, limit: nat) {
    sub.start <= end < sub.stop <= |s|
    && Value(s[sub.start..end], sub.base) <= limit < Value(s[sub.start..end + 1], sub.base)
  }

  lemma DivLimit(v: nat, base: nat, m: nat)
    requires base >= 1
    ensures v > m / base <==> v * base > m
  {
    if v > m / base {
      MulUp(m / base + 1, v, base);
    } else {
      MulUp(v, m / base, base);
    }
  }

  lemma NegMul(n: int, v: nat, base: nat)
    requires n + v == 0
    ensures n * base + v * base == 0
  {
    assert (n + v) * base == n * base + v * base;
  }

  /** A hexadecimal mark with no digit behind it. */
  predicate BareMark(s: string, base: nat) {
    var j := AfterSign(s).1;
    BaseAt(s, j, base) == 16 && HexMark(s, j) && Dtoi(At(s, j + 2)) >= 16
  }

  /** Where section 7.8.2.3 of C99 puts `*end`: behind the last digit of the subject sequence, which
      is the `0` alone of a bare mark, or at the start when there is none. */
  function StandardEnd(s: string, base: nat): nat {
    var sub := Scan(s, base);
    if BareMark(s, base) then AfterSign(s).1 + 1
    else if sub.start == sub.stop then 0
    else sub.stop
  }

  /** What either reader leaves in `*end`. */
  ghost predicate Left(s: string, base: nat, limit: nat, end: nat) {
    var sub := Scan(s, base);
    if Magnitude(s, sub) <= limit then end == if sub.start == sub.stop then 0 else sub.stop
    else Breaks(s, sub, end, limit)
  }

  /** That is where the standard puts it exactly when the number is in range and not a bare mark. */
  lemma EndRight(s: string, base: nat, limit: nat, end: nat)
    requires Left(s, base, limit, end)
    ensures end == StandardEnd(s, base) <==> Magnitude(s, Scan(s, base)) <= limit && !BareMark(s, base)
  {
    var sub := Scan(s, base);
    if BareMark(s, base) {
      assert sub.start == sub.stop && s[sub.start..sub.stop] == [];
    }
  }

  /** `0x`: the standard reads the 0 and ends behind it, the readers end at the start. */
  lemma BareMarkEnd(s: string, limit: nat, end: nat)
    requires s == "0x" && Left(s, 16, limit, end)
    ensures end == 0 && StandardEnd(s, 16) == 1
  {
    assert SkipSpaces(s, 0) == 0 && AfterSign(s) == (false, 0);
    var sub := Scan(s, 16);
    assert sub.start == 2 == sub.stop;
    assert s[2..2] == [];
  }

  /** The greatest magnitude a signed result may have. */
  function Limit(neg: bool): nat {
    if neg then -INTMAX_MIN else INTMAX_MAX
  }

  function Signed(neg: bool, v: nat): int {
    if neg then 0 - v else v
  }

  /** strtoimax gathers the number as a negative one.  C's division truncates, so
      INTMAX_MIN / base is minus the quotient of the magnitudes. */
  method Strtoimax(s: string, base0: nat) returns (r: int, end: nat, erange: bool)
    requires base0 <= 36
    ensures var sub, m := Scan(s, base0), Magnitude(s, Scan(s, base0));
      && (erange <==> m > Limit(sub.neg))
      && (!erange ==> r == Signed(sub.neg, m) && end == if sub.start == sub.stop then 0 else sub.stop)
      && (erange ==> r == Signed(sub.neg, Limit(sub.neg)) && Breaks(s, sub, end, Limit(sub.neg)))
    ensures Left(s, base0, Limit(Scan(s, base0).neg), end)
    ensures end == StandardEnd(s, base0) <==> !erange && !BareMark(s, base0)
  {
    ghost var sub := Scan(s, base0);
    var neg, base, start := ScanPrefix(s, base0);
    var sign := if neg then 1 else -1;
    var n, t := 0, start;
    while Dtoi(At(s, t)) < base
      invariant Along(s, sub, t)
      invariant n + Value(s[start..t], base) == 0 && -n <= Limit(neg)
      decreases sub.stop - t
    {
      var d := Dtoi(At(s, t));
      AlongStep(s, sub, t);
      BeyondStays(s, sub, t + 1);
      ghost var v := Value(s[start..t], base);
      DivLimit(v, base, -INTMAX_MIN);
      NegMul(n, v, base);
      if n < -(-INTMAX_MIN / base) {
        return if sign < 0 then INTMAX_MAX else INTMAX_MIN, t, true;
      }
      n := n * base;
      if -d < INTMAX_MIN - n {
        return if sign < 0 then INTMAX_MAX else INTMAX_MIN, t, true;
      }
      n := n - d;
      if n == INTMAX_MIN && sign < 0 {
        return if sign < 0 then INTMAX_MAX else INTMAX_MIN, t, true;
      }
      t := t + 1;
    }
    AlongStep(s, sub, t);
    return n * sign, if t != start then t else 0, false;
  }

  /** strtoumax: a minus sign negates modulo 2^64. */
  method Strtoumax(s: string, base0: nat) returns (r: int, end: nat, erange: bool)
    requires base0 <= 36
    ensures var sub, m := Scan(s, base0), Magnitude(s, Scan(s, base0));
      && (erange <==> m > UINTMAX_MAX)
      && (!erange ==> r == Signed(sub.neg, m) % (UINTMAX_MAX + 1))
      && (!erange ==> end == if sub.start == sub.stop then 0 else sub.stop)
      && (erange ==> r == UINTMAX_MAX && Breaks(s, sub, end, UINTMAX_MAX))
    ensures Left(s, base0, UINTMAX_MAX, end)
    ensures end == StandardEnd(s, base0) <==> !erange && !BareMark(s, base0)
  {
    ghost var sub := Scan(s, base0);
    var neg, base, start := ScanPrefix(s, base0);
    var sign := if neg then -1 else 1;
    var n, t := 0, start;
    while Dtoi(At(s, t)) < base
      invariant Along(s, sub, t)
      invariant n == Value(s[start..t], base) && n <= UINTMAX_MAX
      decreases sub.stop - t
    {
      var d := Dtoi(At(s, t));
      AlongStep(s, sub, t);
      BeyondStays(s, sub, t + 1);
      DivLimit(n, base, UINTMAX_MAX);
      if n > UINTMAX_MAX / base {
        return UINTMAX_MAX, t, true;
      }
      n := n * base;
      if d > UINTMAX_MAX - n {
        return UINTMAX_MAX, t, true;
      }
      n := n + d;
      t := t + 1;
    }
    AlongStep(s, sub, t);
    return n * sign % (UINTMAX_MAX + 1), if t != start then t else 0, false;
  }
}
