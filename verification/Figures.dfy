/** The figures of the source in one place: limits, tables and units. */
module Figures {

  import Heap
  import HeapLinks
  import Switch
  import IrParse
  import IrParser
  import IrTree
  import MacroStack
  import Numbers
  import NumberText
  import Utf8
  import opened CalendarSpec

  lemma Limits()
    ensures HeapLinks.UNIT == 16 && Heap.NALLOC == 16 && Heap.SIZE_MAX == 18446744073709551615
    ensures MacroStack.NR_MACROARG == 127
    ensures IrParse.STACKSIZ == 50 && IrParse.LINESIZ == 4095 && IrTree.USHRT_MAX == 65535
    ensures IrParser.TUINT_MOD == 18446744073709551616
    ensures NumberText.MAXPREC == 50
    ensures Switch.TINT_MAX == 9223372036854775807 && Switch.TINT_MIN == -9223372036854775808
  {
  }

  /** intmax_t and uintmax_t, and the greatest magnitudes that strtoimax takes. */
  lemma Integers()
    ensures Numbers.INTMAX_MAX == 9223372036854775807 && Numbers.INTMAX_MIN == -9223372036854775808
    ensures Numbers.UINTMAX_MAX == 18446744073709551615 && Numbers.INT_MAX == 2147483647
    ensures Numbers.Limit(false) == 9223372036854775807 && Numbers.Limit(true) == 9223372036854775808
  {
  }

  /** Valid characters, as the table has them, and how many bytes each takes. */
  lemma Characters(wc: nat)
    ensures Utf8.MB_CUR_MAX == 4
    ensures Utf8.IsValid(wc) <==> wc <= 0x10FFFF && !(0xD800 <= wc <= 0xDCFF)
    ensures Utf8.Used(wc) == if wc == 0 then 0 else Utf8.Length(wc)
    ensures Utf8.Length(wc) ==
      if wc <= 0x7F then 1 else if wc <= 0x7FF then 2 else if wc <= 0xFFFF then 3 else if wc <= 0x10FFFF then 4 else 0
  {
  }

  /** The Gregorian leap rule. */
  lemma LeapRule(y: int)
    ensures DaysYear(y) == 366 <==> (y % 4 == 0 && y % 100 != 0) || y % 400 == 0
    ensures DaysYear(y) == 365 || DaysYear(y) == 366
  {
    FourHundred(y);
  }

  lemma FourHundred(y: int)
    ensures y % 400 == 0 ==> y % 100 == 0 && y % 4 == 0
  {
    if y % 400 == 0 {
      var q := y / 400;
      assert y == 4 * (100 * q) && y == 100 * (4 * q);
    }
  }

  /** The units of time, the years that can be counted, and where some of them begin. */
  lemma Years()
    ensures SECDAY == 24 * 60 * 60 && EPOCH == 1970 && MINYEAR == 1900 && MAXYEAR == 9999
    ensures YearStart(1970) == 0 && YearStart(1971) == 365 && YearStart(1973) == 1096 && YearStart(2000) == 10957
  {
  }

  /** The first day of every month, counted from 1 January. */
  lemma Months(y: int, m: nat)
    requires m < 12
    ensures var leap := if m > 1 && DaysYear(y) == 366 then 1 else 0;
      MonthStart(y, m) == [0, 31, 59, 90, 120, 151, 181, 212, 243, 273, 304, 334][m] + leap
    ensures Table(y)[m] ==
      if m == 3 || m == 5 || m == 8 || m == 10 then 30
      else if m == 1 then (if DaysYear(y) == 366 then 29 else 28)
      else 31
  {
    Sums(y);
  }

  lemma Sums(y: int)
    ensures var f := 59 + if DaysYear(y) == 366 then 1 else 0;
      && MonthStart(y, 0) == 0 && MonthStart(y, 1) == 31 && MonthStart(y, 2) == f
      && MonthStart(y, 3) == f + 31 && MonthStart(y, 4) == f + 61 && MonthStart(y, 5) == f + 92
      && MonthStart(y, 6) == f + 122 && MonthStart(y, 7) == f + 153 && MonthStart(y, 8) == f + 184
      && MonthStart(y, 9) == f + 214 && MonthStart(y, 10) == f + 245 && MonthStart(y, 11) == f + 275
  {
  }

  /** The day of the week of 1 January 1970 is Thursday. */
  lemma FirstThursday()
    ensures NewYear(1970 - 1900) == 4 && NewYear(2000 - 1900) == 6 && NewYear(2024 - 1900) == 1
  {
  }
}
