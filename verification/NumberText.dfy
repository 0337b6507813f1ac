/** numtostr and getnum of vfprintf, and the round trips through strtoimax and strtoumax. */
module NumberText {

  import opened Numbers

  // ----- the text of a number -----

  /** How a conversion asks for a number: base, case of the digit string, `#`, precision, sign. */
  datatype Conv = Conv(base: nat, lower: bool, alt: bool, prec: nat, sign: string)

  predicate Sensible(conv: Conv) {
    && (conv.base == 8 || conv.base == 10 || conv.base == 16)
    && conv.sign in ["", " ", "+", "-"]
  }

  const UPPER: string := "0123456789ABCDEFX"
  const LOWER: string := "0123456789abcdefx"

  function Digs(lower: bool): (s: string)
    ensures |s| == 17
  {
    if lower then LOWER else UPPER
  }

  lemma DigitReads(lower: bool, d: nat)
    requires d < 16
    ensures Dtoi(Digs(lower)[d]) == d && (Digs(lower)[d] == '0' <==> d == 0)
    ensures ToUpper(Digs(lower)[d]) != 'X' && !IsSpace(Digs(lower)[d])
    ensures Digs(lower)[d] != '-' && Digs(lower)[d] != '+'
  {
    if lower {
      LowerReads(d);
    } else {
      UpperReads(d);
    }
  }

  lemma LowerReads(d: nat)
    requires d < 16
    ensures LOWER[d] == if d < 10 then ('0' as int + d) as char else ('a' as int + d - 10) as char
  {
  }

  lemma UpperReads(d: nat)
    requires d < 16
    ensures UPPER[d] == if d < 10 then ('0' as int + d) as char else ('A' as int + d - 10) as char
  {
  }

  /** The significant digits; none for zero. */
  function Significant(val: nat, conv: Conv): string
    requires Sensible(conv)
  {
    if val == 0 then [] else Significant(val / conv.base, conv) + [Digs(conv.lower)[val % conv.base]]
  }

  function Zeros(n: nat): (s: string)
    ensures |s| == n && forall i :: 0 <= i < n ==> s[i] == '0'
  {
    seq(n, _ => '0')
  }

  function Plain(val: nat, conv: Conv): string
    requires Sensible(conv)
  {
    if val == 0 then [Digs(conv.lower)[0]] else Significant(val, conv)
  }

  /** At least one digit, and at least `prec` of them. */
  function Body(val: nat, conv: Conv): string
    requires Sensible(conv)
  {
    var plain := Plain(val, conv);
    Zeros(if |plain| < conv.prec then conv.prec - |plain| else 0) + plain
  }

  lemma BodyNonEmpty(val: nat, conv: Conv)
    requires Sensible(conv)
    ensures |Plain(val, conv)| > 0 && |Body(val, conv)| > 0
  {
  }

  function Prefix(val: nat, conv: Conv): string
    requires Sensible(conv)
  {
    if !conv.alt then []
    else if conv.base == 8 && Body(val, conv)[..1] != "0" then "0"
    else if conv.base == 16 && val != 0 then ['0', Digs(conv.lower)[16]]
    else []
  }

  function Text(val: nat, conv: Conv): string
    requires Sensible(conv)
  {
    conv.sign + (Prefix(val, conv) + Body(val, conv))
  }

  // ----- numtostr -----

  /** The buffer holds `text` from `pos` up to its terminator at `top`. */
  ghost predicate Holds(buf: array<char>, pos: nat, top: nat, text: string)
    reads buf
  {
    pos <= top < buf.Length && buf[pos..top] == text && buf[top] == '\0'
  }

  /** `*--buf = c` */
  method Put(buf: array<char>, pos: nat, c: char, ghost top: nat, ghost text: string) returns (r: nat)
    requires pos > 0 && Holds(buf, pos, top, text)
    modifies buf
    ensures r == pos - 1 && Holds(buf, r, top, [c] + text)
    ensures forall i :: 0 <= i < buf.Length && (i < r || top <= i) ==> buf[i] == old(buf[i])
  {
    r := pos - 1;
    buf[r] := c;
    assert buf[r..top] == [c] + text;
  }

  lemma DigitMoves(v: nat, conv: Conv, text: string)
    requires Sensible(conv) && v > 0
    ensures Significant(v, conv) + text
         == Significant(v / conv.base, conv) + ([Digs(conv.lower)[v % conv.base]] + text)
  {
    var high, c := Significant(v / conv.base, conv), Digs(conv.lower)[v % conv.base];
    assert (high + [c]) + text == high + ([c] + text);
  }

  lemma FirstDigit(val: nat, conv: Conv)
    requires Sensible(conv)
    ensures Plain(val, conv) == Significant(val / conv.base, conv) + [Digs(conv.lower)[val % conv.base]]
  {
  }

  /** The do-while loop: digits from the least significant one backwards. */
  method PutDigits(val: nat, conv: Conv, buf: array<char>, top: nat) returns (pos: nat)
    requires Sensible(conv) && |Plain(val, conv)| <= top < buf.Length && buf[top] == '\0'
    modifies buf
    ensures pos + |Plain(val, conv)| == top && Holds(buf, pos, top, Plain(val, conv))
    ensures forall i :: 0 <= i < buf.Length && (i < pos || top <= i) ==> buf[i] == old(buf[i])
  {
    var v: nat := val / conv.base;
    ghost var text := [Digs(conv.lower)[val % conv.base]];
    FirstDigit(val, conv);
    pos := Put(buf, top, Digs(conv.lower)[val % conv.base], top, []);
    assert [Digs(conv.lower)[val % conv.base]] + [] == text;
    while v > 0
      invariant Plain(val, conv) == Significant(v, conv) + text
      invariant pos + |text| == top && Holds(buf, pos, top, text)
      invariant forall i :: 0 <= i < buf.Length && (i < pos || top <= i) ==> buf[i] == old(buf[i])
    {
      var c := Digs(conv.lower)[v % conv.base];
      pos := Put(buf, pos, c, top, text);
      DigitMoves(v, conv, text);
      text := [c] + text;
      v := v / conv.base;
    }
    assert Plain(val, conv) == text;
  }

  lemma ZeroMore(k: nat, text: string)
    ensures ['0'] + (Zeros(k) + text) == Zeros(k + 1) + text
  {
    assert ['0'] + Zeros(k) == Zeros(k + 1);
  }

  method PutZeros(n: nat, buf: array<char>, from: nat, top: nat, ghost text: string) returns (pos: nat)
    requires n <= from && Holds(buf, from, top, text)
    modifies buf
    ensures pos == from - n && Holds(buf, pos, top, Zeros(n) + text)
    ensures forall i :: 0 <= i < buf.Length && (i < pos || top <= i) ==> buf[i] == old(buf[i])
  {
    pos := from;
    assert Zeros(0) + text == text;
    while from - pos < n
      invariant pos <= from && from - pos <= n && Holds(buf, pos, top, Zeros(from - pos) + text)
      invariant forall i :: 0 <= i < buf.Length && (i < pos || top <= i) ==> buf[i] == old(buf[i])
    {
      pos := PutZero(buf, pos, top, from - pos, text);
    }
  }

  method PutZero(buf: array<char>, from: nat, top: nat, ghost k: nat, ghost text: string) returns (pos: nat)
    requires from > 0 && Holds(buf, from, top, Zeros(k) + text)
    modifies buf
    ensures pos == from - 1 && Holds(buf, pos, top, Zeros(k + 1) + text)
    ensures forall i :: 0 <= i < buf.Length && (i < pos || top <= i) ==> buf[i] == old(buf[i])
  {
    pos := Put(buf, from, '0', top, Zeros(k) + text);
    ZeroMore(k, text);
  }

  /** numtostr fills the buffer backwards from `top` and returns where the text starts. */
  method NumToStr(val: nat, conv: Conv, buf: array<char>, top: nat) returns (pos: nat)
    requires Sensible(conv) && |Text(val, conv)| <= top < buf.Length
    modifies buf
    ensures pos + |Text(val, conv)| == top && Holds(buf, pos, top, Text(val, conv))
    ensures forall i :: 0 <= i < buf.Length && (i < pos || top < i) ==> buf[i] == old(buf[i])
  {
    buf[top] := '\0';
    BodyNonEmpty(val, conv);
    pos := PutDigits(val, conv, buf, top);
    var n := if top - pos < conv.prec then conv.prec - (top - pos) else 0;
    pos := PutZeros(n, buf, pos, top, Plain(val, conv));
    pos := PutPrefix(val, conv, buf, pos, top);
    if conv.sign != [] {
      pos := Put(buf, pos, conv.sign[0], top, Prefix(val, conv) + Body(val, conv));
    }
  }

  lemma TwoInFront(c: char, d: char, s: string)
    ensures [c] + ([d] + s) == [c, d] + s
  {
  }

  method PutPrefix(val: nat, conv: Conv, buf: array<char>, from: nat, top: nat) returns (pos: nat)
    requires Sensible(conv) && Holds(buf, from, top, Body(val, conv)) && |Prefix(val, conv)| <= from
    modifies buf
    ensures pos + |Prefix(val, conv)| == from && Holds(buf, pos, top, Prefix(val, conv) + Body(val, conv))
    ensures forall i :: 0 <= i < buf.Length && (i < pos || top <= i) ==> buf[i] == old(buf[i])
  {
    pos := from;
    ghost var body := Body(val, conv);
    BodyNonEmpty(val, conv);
    assert [] + body == body;
    if conv.alt {
      assert buf[from] == body[0] && body[..1] == [body[0]];
      if conv.base == 8 && buf[pos] != '0' {
        assert Prefix(val, conv) == "0";
        pos := Put(buf, pos, '0', top, body);
      } else if conv.base == 16 && val != 0 {
        var x := Digs(conv.lower)[16];
        assert Prefix(val, conv) == ['0', x];
        pos := Put(buf, pos, x, top, body);
        pos := Put(buf, pos, '0', top, [x] + body);
        TwoInFront('0', x, body);
      } else {
        assert Prefix(val, conv) == [];
      }
    }
  }

  // ----- the text read back -----

  /** Digits of the base, of value `val`, without a leading zero. */
  ghost predicate Denotes(s: string, val: nat, base: nat) {
    AllDigits(s, base) && Value(s, base) == val && (s != [] ==> s[0] != '0') && (val > 0 ==> s != [])
  }

  lemma DenotesSnoc(s: string, c: char, q: nat, d: nat, base: nat)
    requires Denotes(s, q, base) && Dtoi(c) == d < base && (c == '0' <==> d == 0) && (s == [] ==> d > 0)
    ensures Denotes(s + [c], q * base + d, base)
  {
    ValueSnoc(s, c, base);
  }

  lemma {:induction false} SignificantValue(val: nat, conv: Conv)
    requires Sensible(conv)
    ensures Denotes(Significant(val, conv), val, conv.base)
  {
    if val > 0 {
      SignificantValue(val / conv.base, conv);
      DigitReads(conv.lower, val % conv.base);
      DivRem(val, conv.base);
      DenotesSnoc(Significant(val / conv.base, conv), Digs(conv.lower)[val % conv.base],
                  val / conv.base, val % conv.base, conv.base);
    }
  }

  lemma DivRem(val: nat, base: nat)
    requires base > 0
    ensures val / base * base + val % base == val
  {
  }

  /** Leading zeros change nothing, in any base. */
  lemma {:induction false} ZerosValue(n: nat, s: string, base: nat)
    ensures Value(Zeros(n) + s, base) == Value(s, base)
    decreases n + |s|
  {
    if s != [] {
      ZerosValue(n, s[..|s| - 1], base);
      assert (Zeros(n) + s)[..n + |s| - 1] == Zeros(n) + s[..|s| - 1];
    } else if n > 0 {
      ZerosValue(n - 1, [], base);
      assert (Zeros(n) + s)[..n - 1] == Zeros(n - 1) + [];
    }
  }

  lemma PlainValue(val: nat, conv: Conv)
    requires Sensible(conv)
    ensures AllDigits(Plain(val, conv), conv.base) && Value(Plain(val, conv), conv.base) == val
  {
    SignificantValue(val, conv);
    DigitReads(conv.lower, 0);
    ValueSnoc([], Digs(conv.lower)[0], conv.base);
    assert [] + [Digs(conv.lower)[0]] == [Digs(conv.lower)[0]];
  }

  lemma BodyValue(val: nat, conv: Conv)
    requires Sensible(conv)
    ensures AllDigits(Body(val, conv), conv.base) && Value(Body(val, conv), conv.base) == val
  {
    var plain := Plain(val, conv);
    var n := if |plain| < conv.prec then conv.prec - |plain| else 0;
    PlainValue(val, conv);
    ZerosValue(n, plain, conv.base);
    assert Dtoi('0') == 0;
  }

  // ----- what the readers make of a sign, a mark and digits -----

  predicate IsMark(mark: string) { mark == "" || mark == "0x" || mark == "0X" }

  /** The base that base 0 stands for. */
  function Detected(mark: string, digits: string): nat
    requires digits != []
  {
    if mark != "" then 16 else if digits[..1] == "0" then 8 else 10
  }

  lemma {:induction false} DigitsEndAll(s: string, i: nat, base: nat)
    requires i <= |s| && forall j :: i <= j < |s| ==> Dtoi(s[j]) < base
    ensures DigitsEnd(s, i, base) == |s|
    decreases |s| - i
  {
    if i < |s| {
      DigitsEndAll(s, i + 1, base);
    }
  }

  /** Below base 17 a digit is no space, no sign and no hexadecimal mark. */
  lemma DigitIsPlain(c: char)
    requires Dtoi(c) < 16
    ensures !IsSpace(c) && c != '-' && c != '+' && ToUpper(c) != 'X'
  {
  }

  lemma SkipsSign(sign: string, rest: string)
    requires sign in ["", " ", "+", "-"] && rest != [] && Dtoi(rest[0]) < 16
    ensures AfterSign(sign + rest) == (sign == "-", |sign|)
  {
    var s := sign + rest;
    DigitIsPlain(rest[0]);
    if sign == " " {
      assert s[0] == ' ' && s[1] == rest[0];
      assert SkipSpaces(s, 1) == 1;
    } else if sign == "" {
      assert s[0] == rest[0];
    } else {
      assert s[0] == sign[0];
    }
  }

  lemma MarkSeen(sign: string, mark: string, digits: string, base: nat)
    requires IsMark(mark) && digits != [] && AllDigits(digits, base) && base <= 16
    ensures var s := sign + (mark + digits);
      && (HexMark(s, |sign|) <==> mark != "")
      && (At(s, |sign|) == '0' <==> mark != "" || digits[..1] == "0")
  {
    var s := sign + (mark + digits);
    if mark == "" {
      assert s[|sign|] == digits[0];
      if |digits| > 1 {
        assert s[|sign| + 1] == digits[1];
        DigitIsPlain(digits[1]);
      }
    } else {
      assert s[|sign|] == '0' && s[|sign| + 1] == mark[1];
    }
  }

  lemma TailIsDigits(sign: string, mark: string, digits: string, base: nat)
    requires AllDigits(digits, base)
    ensures var s, k := sign + (mark + digits), |sign| + |mark|;
      s[k..] == digits && DigitsEnd(s, k, base) == |s|
  {
    var s, k := sign + (mark + digits), |sign| + |mark|;
    forall j | k <= j < |s| ensures Dtoi(s[j]) < base {
      assert s[j] == digits[j - k];
    }
    DigitsEndAll(s, k, base);
  }

  /** A reader finds the sign, skips the mark, and takes all the digits. */
  lemma ScanText(sign: string, mark: string, digits: string, base: nat, asked: nat)
    requires sign in ["", " ", "+", "-"] && IsMark(mark) && digits != []
    requires base <= 16 && AllDigits(digits, base) && (mark != "" ==> base == 16)
    requires asked == base > 0 || (asked == 0 && Detected(mark, digits) == base)
    ensures var s := sign + (mark + digits);
      Scan(s, asked) == Subject(sign == "-", base, |sign| + |mark|, |s|)
  {
    var s, rest := sign + (mark + digits), mark + digits;
    SkipsSign(sign, rest);
    MarkSeen(sign, mark, digits, base);
    TailIsDigits(sign, mark, digits, base);
    ScanFrom(s, |sign|, mark != "", base, asked);
  }

  lemma ScanFrom(s: string, j: nat, marked: bool, base: nat, asked: nat)
    requires AfterSign(s).1 == j && (HexMark(s, j) <==> marked) && (marked ==> base == 16)
    requires asked == base > 0 || (asked == 0 && base == BaseAt(s, j, 0))
    requires DigitsEnd(s, if marked then j + 2 else j, base) == |s|
    ensures Scan(s, asked) == Subject(AfterSign(s).0, base, if marked then j + 2 else j, |s|)
  {
  }

  // ----- the round trips -----

  /** Base 0 finds the base of the text: octal with a leading zero, hexadecimal with its mark,
      decimal without padding; zero reads as zero in any base. */
  predicate Detectable(val: nat, conv: Conv)
    requires Sensible(conv)
  {
    var padded := conv.prec > |Plain(val, conv)|;
    if val == 0 then true
    else if conv.base == 8 then conv.alt || padded
    else if conv.base == 16 then conv.alt
    else !padded
  }

  /** The reader takes the whole text and finds the number. */
  ghost predicate ReadsAs(s: string, asked: nat, neg: bool, val: nat) {
    var sub := Scan(s, asked);
    sub.neg == neg && sub.start < sub.stop == |s| && Magnitude(s, sub) == val
  }

  lemma ReadParts(sign: string, mark: string, digits: string, base: nat, asked: nat, val: nat)
    requires sign in ["", " ", "+", "-"] && IsMark(mark) && digits != []
    requires base <= 16 && AllDigits(digits, base) && (mark != "" ==> base == 16)
    requires asked == base > 0 || (asked == 0 && Detected(mark, digits) == base)
    requires Value(digits, base) == val
    ensures ReadsAs(sign + (mark + digits), asked, sign == "-", val)
  {
    ScanText(sign, mark, digits, base, asked);
    ReadScanned(sign, mark, digits, base, asked, val, sign == "-");
  }

  lemma ReadScanned(sign: string, mark: string, digits: string, base: nat, asked: nat, val: nat, neg: bool)
    requires AllDigits(digits, base) && digits != [] && Value(digits, base) == val
    requires var s := sign + (mark + digits); Scan(s, asked) == Subject(neg, base, |sign| + |mark|, |s|)
    ensures ReadsAs(sign + (mark + digits), asked, neg, val)
  {
    TailIsDigits(sign, mark, digits, base);
    ReadTail(sign + (mark + digits), asked, neg, base, |sign| + |mark|, val);
  }

  lemma ReadTail(s: string, asked: nat, neg: bool, base: nat, k: nat, val: nat)
    requires k < |s| && Scan(s, asked) == Subject(neg, base, k, |s|) && Value(s[k..], base) == val
    ensures ReadsAs(s, asked, neg, val)
  {
    assert s[k..|s|] == s[k..];
  }

  lemma LeadingDigit(val: nat, conv: Conv)
    requires Sensible(conv)
    ensures Body(val, conv) != []
    ensures Body(val, conv)[..1] == "0" <==> val == 0 || conv.prec > |Plain(val, conv)|
  {
    SignificantValue(val, conv);
    DigitReads(conv.lower, 0);
    BodyNonEmpty(val, conv);
    assert Body(val, conv)[..1] == [Body(val, conv)[0]];
  }

  lemma ZeroInFront(s: string, base: nat)
    requires AllDigits(s, base) && base > 0
    ensures AllDigits("0" + s, base) && Value("0" + s, base) == Value(s, base)
  {
    assert "0" == Zeros(1);
    ZerosValue(1, s, base);
    assert Dtoi('0') == 0;
  }

  /** An octal text made to start with a zero. */
  lemma OctalReadsBack(val: nat, conv: Conv, asked: nat)
    requires Sensible(conv) && conv.base == 8
    requires asked == 8 || (asked == 0 && (conv.alt || Body(val, conv)[..1] == "0"))
    ensures ReadsAs(Text(val, conv), asked, conv.sign == "-", val)
  {
    BodyValue(val, conv);
    BodyNonEmpty(val, conv);
    var body := Body(val, conv);
    if Prefix(val, conv) == "0" {
      ZeroInFront(body, 8);
      assert ("0" + body)[..1] == "0" && "" + ("0" + body) == "0" + body;
      ReadParts(conv.sign, "", "0" + body, 8, asked, val);
    } else {
      assert "" + body == body;
      ReadParts(conv.sign, "", body, 8, asked, val);
    }
  }

  lemma MarkedReadsBack(val: nat, conv: Conv, asked: nat)
    requires Sensible(conv) && conv.base != 8
    requires asked == conv.base || (asked == 0 && if conv.base == 16 then conv.alt && val != 0 else Body(val, conv)[..1] != "0")
    ensures ReadsAs(Text(val, conv), asked, conv.sign == "-", val)
  {
    BodyValue(val, conv);
    BodyNonEmpty(val, conv);
    ReadParts(conv.sign, Prefix(val, conv), Body(val, conv), conv.base, asked, val);
  }

  /** What numtostr writes, strtoimax and strtoumax read back: in the base it was written in,
      or in base 0 when the text shows its base. */
  lemma TextReadsBack(val: nat, conv: Conv, asked: nat)
    requires Sensible(conv)
    requires asked == conv.base || (asked == 0 && Detectable(val, conv))
    ensures ReadsAs(Text(val, conv), asked, conv.sign == "-", val)
  {
    LeadingDigit(val, conv);
    if val == 0 && asked == 0 {
      ZeroReadsBack(conv);
    } else if conv.base == 8 {
      OctalReadsBack(val, conv, asked);
    } else {
      MarkedReadsBack(val, conv, asked);
    }
  }

  /** Zero is written as zeros only, which are zero in whatever base. */
  lemma ZeroReadsBack(conv: Conv)
    requires Sensible(conv)
    ensures ReadsAs(Text(0, conv), 0, conv.sign == "-", 0)
  {
    LeadingDigit(0, conv);
    var body := Body(0, conv);
    assert Prefix(0, conv) == "";
    assert body == Zeros(|body|) by { DigitReads(conv.lower, 0); }
    assert Zeros(|body|) + [] == body;
    ZerosValue(|body|, [], 8);
    assert Dtoi('0') == 0;
    ReadParts(conv.sign, "", body, 8, 0, 0);
  }

  // ----- getnum -----

  /** The length modifiers getnum tells apart; ptrdiff_t falls through to int. */
  datatype Len = Char | Short | Int | Long | LongLong | Size | IntMax | Pointer

  /** 2 to the width of the type the argument is converted to; char and short arguments arrive as int. */
  function Modulus(len: Len): nat {
    match len
    case Char => 0x100
    case Short => 0x1_0000
    case Int => 0x1_0000_0000
    case _ => 0x1_0000_0000_0000_0000
  }

  /** The range of the argument fetched. */
  predicate Fetched(len: Len, arg: int) {
    match len
    case Char | Short | Int => -0x8000_0000 <= arg <= INT_MAX
    case Size | Pointer => 0 <= arg <= UINTMAX_MAX
    case _ => INTMAX_MIN <= arg <= INTMAX_MAX
  }

  /** getnum: the unsigned value to print and whether it needs a minus sign.  The negation of
      INTMAX_MIN wraps to itself and its conversion to unsigned is 2^63. */
  method GetNum(arg: int, len: Len, unsigned: bool) returns (uval: nat, minus: bool)
    requires Fetched(len, arg)
    ensures uval <= UINTMAX_MAX
    ensures minus <==> !unsigned && arg < 0
    ensures uval == if minus then -arg else arg % Modulus(len)
    ensures !unsigned && (len.Char? || len.Short?) ==> Shown(arg, len) == if minus then 0 - uval else uval
  {
    uval := arg % Modulus(len);
    minus := false;
    var val := if len == Size then 0 else arg;
    if !unsigned && val < 0 {
      minus := true;
      var neg := if val == INTMAX_MIN then INTMAX_MIN else -val;
      uval := neg % (UINTMAX_MAX + 1);
    }
  }

  function Abs(arg: int): nat { if arg < 0 then -arg else arg }

  function Sign(conv: Conv, minus: bool): (r: Conv)
    ensures Sensible(conv) ==> Sensible(r)
  {
    if minus then conv.(sign := "-") else conv
  }

  /** strtoimax on a text it takes whole. */
  method ReadWhole(s: string, asked: nat, ghost neg: bool, ghost val: nat) returns (r: int, end: nat, erange: bool)
    requires asked <= 36 && ReadsAs(s, asked, neg, val)
    ensures erange <==> val > Limit(neg)
    ensures !erange ==> r == Signed(neg, val) && end == |s|
  {
    r, end, erange := Strtoimax(s, asked);
  }

  method ReadWholeUnsigned(s: string, asked: nat, ghost val: nat) returns (r: int, end: nat, erange: bool)
    requires asked <= 36 && ReadsAs(s, asked, false, val)
    ensures erange <==> val > UINTMAX_MAX
    ensures !erange ==> r == val && end == |s|
  {
    r, end, erange := Strtoumax(s, asked);
  }

  /** Printing a signed argument and reading the text gives the argument back, INTMAX_MIN
      included. */
  method PrintThenRead(arg: int, len: Len, conv: Conv, asked: nat, buf: array<char>, top: nat)
      returns (r: int, end: nat, erange: bool)
    requires len.Int? || len.Long? || len.LongLong? || len.IntMax?
    requires Fetched(len, arg) && Sensible(conv) && conv.sign != "-"
    requires asked == conv.base || (asked == 0 && Detectable(Abs(arg), Sign(conv, arg < 0)))
    requires |Text(Abs(arg), Sign(conv, arg < 0))| <= top < buf.Length
    modifies buf
    ensures !erange && r == arg && end == |Text(Abs(arg), Sign(conv, arg < 0))|
  {
    var uval, minus := GetNum(arg, len, false);
    var c := Sign(conv, minus);
    assert uval == Abs(arg);
    TextReadsBack(uval, c, asked);
    var pos := NumToStr(uval, c, buf, top);
    r, end, erange := ReadWhole(buf[pos..top], asked, minus, uval);
  }

  /** The same for an unsigned argument and strtoumax. */
  method PrintThenReadUnsigned(arg: int, len: Len, conv: Conv, asked: nat, buf: array<char>, top: nat)
      returns (r: int, end: nat, erange: bool)
    requires Fetched(len, arg) && Sensible(conv) && conv.sign != "-"
    requires asked == conv.base || (asked == 0 && Detectable(arg % Modulus(len), conv))
    requires |Text(arg % Modulus(len), conv)| <= top < buf.Length
    modifies buf
    ensures !erange && r == arg % Modulus(len) <= UINTMAX_MAX && end == |Text(arg % Modulus(len), conv)|
  {
    var uval, minus := GetNum(arg, len, true);
    TextReadsBack(uval, conv, asked);
    var pos := NumToStr(uval, conv, buf, top);
    r, end, erange := ReadWholeUnsigned(buf[pos..top], asked, uval);
  }

  /** What a signed %hhd or %hd shows; section 7.19.6.1 of C99 asks for the argument converted
      to signed char or short. */
  function Shown(arg: int, len: Len): int {
    if arg < 0 then arg else arg % Modulus(len)
  }

  function Converted(arg: int, len: Len): int {
    var m := arg % Modulus(len);
    if m < Modulus(len) / 2 then m else m - Modulus(len)
  }

  /** A negative argument is shown unconverted and a large remainder keeps its sign bit, so the
      conversion is right exactly for these arguments. */
  lemma ShortConversion(arg: int, len: Len)
    requires (len.Char? || len.Short?) && Fetched(len, arg)
    ensures Shown(arg, len) == Converted(arg, len)
       <==> if arg < 0 then -(Modulus(len) / 2) <= arg else arg % Modulus(len) < Modulus(len) / 2
  {
    if arg < 0 && -(Modulus(len) / 2) <= arg {
      assert arg % Modulus(len) == arg + Modulus(len);
    }
  }

  // ----- the buffer of vfprintf -----

  const MAXPREC: nat := 50

  function Pow8(k: nat): nat {
    if k == 0 then 1 else 8 * Pow8(k - 1)
  }

  lemma {:induction false} SignificantLength(val: nat, conv: Conv, k: nat)
    requires Sensible(conv) && val < Pow8(k)
    ensures |Significant(val, conv)| <= k
    decreases k
  {
    if val > 0 {
      assert val / conv.base < Pow8(k - 1);
      SignificantLength(val / conv.base, conv, k - 1);
    }
  }

  lemma PlainLength(val: nat, conv: Conv)
    requires Sensible(conv) && val <= UINTMAX_MAX
    ensures 1 <= |Plain(val, conv)| <= 22
  {
    assert Pow8(4) == 4096;
    assert Pow8(8) == 0x100_0000;
    assert Pow8(12) == 0x10_0000_0000;
    assert Pow8(16) == 0x1_0000_0000_0000;
    assert Pow8(20) == 0x1000_0000_0000_0000;
    assert Pow8(22) == 0x4_0000_0000_0000_0000;
    SignificantLength(val, conv, 22);
    BodyNonEmpty(val, conv);
  }

  /** The text fits below the top of the 51-byte buffer exactly when the precision leaves room for
      sign and prefix; vfprintf cuts the precision to MAXPREC and no further. */
  lemma FitsBuffer(val: nat, conv: Conv)
    requires Sensible(conv) && val <= UINTMAX_MAX && conv.prec <= MAXPREC
    ensures |Text(val, conv)| <= MAXPREC <==> conv.prec + |conv.sign| + |Prefix(val, conv)| <= MAXPREC
  {
    PlainLength(val, conv);
  }

  /** `%+.50d` has no room for its sign. */
  lemma SignDoesNotFit(val: nat)
    requires val <= INTMAX_MAX
    ensures |Text(val, Conv(10, false, false, MAXPREC, "+"))| == MAXPREC + 1
  {
    PlainLength(val, Conv(10, false, false, MAXPREC, "+"));
  }

  // ----- where the readers end -----

  function Pow10(k: nat): nat {
    if k == 0 then 1 else 10 * Pow10(k - 1)
  }

  lemma {:induction false} OneAndZeros(n: nat)
    ensures Value("1" + Zeros(n), 10) == Pow10(n)
  {
    if n > 0 {
      OneAndZeros(n - 1);
      assert "1" + Zeros(n) == ("1" + Zeros(n - 1)) + ['0'];
      ValueSnoc("1" + Zeros(n - 1), '0', 10);
      assert Dtoi('0') == 0;
    } else {
      assert "1" + Zeros(0) == [] + ['1'];
      ValueSnoc([], '1', 10);
      assert Dtoi('1') == 1;
    }
  }

  lemma OneAndZerosScan(s: string)
    requires s == "1" + Zeros(19)
    ensures Scan(s, 10) == Subject(false, 10, 0, 20)
  {
    assert s[0] == '1' && s[1] == '0' && SkipSpaces(s, 0) == 0;
    forall j | 0 <= j < |s| ensures Dtoi(s[j]) < 10 {
      assert s[j] == '1' || s[j] == '0';
    }
    DigitsEndAll(s, 0, 10);
  }

  lemma TwentyDigits()
    ensures Value("1" + Zeros(19), 10) == 10000000000000000000
  {
    OneAndZeros(19);
    assert Pow10(5) == 100000 && Pow10(10) == 10000000000;
    assert Pow10(15) == 1000000000000000 && Pow10(19) == 10000000000000000000;
  }

  /** A 20-digit number: the standard ends behind its last digit, strtoimax before it. */
  lemma OverflowEnd(s: string, end: nat)
    requires s == "1" + Zeros(19) && Left(s, 10, Limit(false), end)
    ensures StandardEnd(s, 10) == 20 && end < 20
  {
    TwentyDigits();
    OneAndZerosScan(s);
    assert s[0..20] == s;
  }
}
