/** The characters of numbers, written out: what is skipped, what is a digit, what is printed. */
module NumberLetters {

  import opened Numbers
  import opened NumberText

  /** isspace in the C locale. */
  lemma Spaces(c: char)
    ensures IsSpace(c) <==>
      c == ' ' || c == '\t' || c == '\n' || c as int == 0x0B || c as int == 0x0C || c == '\r'
  {
  }

  lemma {:induction false} SkipsSpaces(s: string, i: nat)
    requires i <= |s|
    ensures var j := SkipSpaces(s, i);
      && i <= j <= |s|
      && (forall k :: i <= k < j ==> s[k] == ' ' || 9 <= s[k] as int <= 13)
      && (j < |s| ==> s[j] != ' ' && !(9 <= s[j] as int <= 13))
    decreases |s| - i
  {
    if i < |s| && IsSpace(s[i]) {
      SkipsSpaces(s, i + 1);
    }
  }

  /** The digits of all bases up to 36, in either case, and no others. */
  lemma DigitLetters(c: char)
    ensures '0' <= c <= '9' ==> Dtoi(c) == c as int - 48
    ensures 'A' <= c <= 'Z' ==> Dtoi(c) == c as int - 55
    ensures 'a' <= c <= 'z' ==> Dtoi(c) == c as int - 87
    ensures !('0' <= c <= '9' || 'A' <= c <= 'Z' || 'a' <= c <= 'z') ==> Dtoi(c) >= 36
  {
  }

  // ----- what is printed -----

  predicate InCase(c: char, lower: bool) {
    '0' <= c <= '9' || (if lower then 'a' <= c <= 'f' else 'A' <= c <= 'F')
  }

  ghost predicate AllInCase(s: string, lower: bool) {
    forall i :: 0 <= i < |s| ==> InCase(s[i], lower)
  }

  lemma DigitInCase(lower: bool, d: nat)
    requires d < 16
    ensures InCase(Digs(lower)[d], lower)
  {
    if lower {
      LowerReads(d);
    } else {
      UpperReads(d);
    }
  }

  lemma {:induction false} SignificantInCase(val: nat, conv: Conv)
    requires Sensible(conv)
    ensures AllInCase(Significant(val, conv), conv.lower)
    decreases val
  {
    if val > 0 {
      SignificantInCase(val / conv.base, conv);
      DigitInCase(conv.lower, val % conv.base);
    }
  }

  /** The digits are those of the conversion's case: %x prints a to f, %X prints A to F. */
  lemma BodyInCase(val: nat, conv: Conv)
    requires Sensible(conv)
    ensures AllInCase(Body(val, conv), conv.lower)
  {
    SignificantInCase(val, conv);
    DigitInCase(conv.lower, 0);
  }

  /** In front of them come the sign and, for `#`, the mark: 0x or 0X before a hexadecimal number that
      is not zero, and a zero before an octal one that shows none. */
  lemma TextParts(val: nat, conv: Conv)
    requires Sensible(conv)
    ensures var mark :=
        if conv.alt && conv.base == 16 && val != 0 then (if conv.lower then "0x" else "0X")
        else if conv.alt && conv.base == 8 && Body(val, conv)[..1] != "0" then "0"
        else "";
      Text(val, conv) == conv.sign + (mark + Body(val, conv))
  {
    BodyNonEmpty(val, conv);
    assert ['0', Digs(conv.lower)[16]] == if conv.lower then "0x" else "0X";
  }

  // ----- the widths of arguments -----

  lemma Widths()
    ensures Modulus(Char) == 256 && Modulus(Short) == 65536 && Modulus(Int) == 0x1_0000_0000
    ensures forall len: Len :: !(len.Char? || len.Short? || len.Int?) ==> Modulus(len) == 0x1_0000_0000_0000_0000
  {
  }

  /** Conversion to signed char and short. */
  lemma ConvertedExactly(arg: int, len: Len)
    ensures len.Char? ==> -128 <= Converted(arg, len) < 128 && (arg - Converted(arg, len)) % 256 == 0
    ensures len.Short? ==> -32768 <= Converted(arg, len) < 32768 && (arg - Converted(arg, len)) % 65536 == 0
  {
  }
}
