/** Day counting on the Gregorian calendar, independent of the loops of the library. */
module CalendarSpec {
  const EPOCH := 1970
  const MINYEAR := 1900
  const MAXYEAR := 9999
  const SECDAY := 86400
  const THU := 4
  const FEB := 1
  const DEC := 11

  /** _daysyear */
  function DaysYear(y: int): int {
    if y % 4 != 0 then 365 else if y % 100 == 0 && y % 400 != 0 then 365 else 366
  }

  function FebDays(y: int): int {
    if DaysYear(y) == 366 then 29 else 28
  }

  /** The month table with the right February. */
  function Table(y: int): seq<int> {
    [31, FebDays(y), 31, 30, 31, 30, 31, 31, 30, 31, 30, 31]
  }

  /** Days from 1 January 1970 to 1 January of year `y`, in closed form. */
  function YearStart(y: int): int {
    var p := y - 1;
    365 * p + p / 4 - p / 100 + p / 400 - 719162
  }

  /** Days from 1 January to the first of month `m`. */
  function MonthStart(y: int, m: nat): int
    requires m <= 12
  {
    if m == 0 then 0 else MonthStart(y, m - 1) + Table(y)[m - 1]
  }

  lemma Step4(y: int)
    ensures y / 4 == (y - 1) / 4 + if y % 4 == 0 then 1 else 0
  {
  }

  lemma Step100(y: int)
    ensures y / 100 == (y - 1) / 100 + if y % 100 == 0 then 1 else 0
  {
  }

  lemma Step400(y: int)
    ensures y / 400 == (y - 1) / 400 + if y % 400 == 0 then 1 else 0
  {
  }

  lemma LeapRule100(y: int)
    requires y % 100 == 0
    ensures y % 4 == 0
  {
    var k := y / 100;
    assert y == 100 * k;
    assert y == 4 * (25 * k);
  }

  lemma LeapRule400(y: int)
    requires y % 400 == 0
    ensures y % 100 == 0
  {
    var k := y / 400;
    assert y == 400 * k;
    assert y == 100 * (4 * k);
  }

  /** The closed form grows by the length of each year. */
  lemma YearStep(y: int)
    ensures YearStart(y + 1) == YearStart(y) + DaysYear(y)
  {
    Step4(y);
    Step100(y);
    Step400(y);
    if y % 100 == 0 { LeapRule100(y); }
    if y % 400 == 0 { LeapRule400(y); }
  }

  lemma EpochStart()
    ensures YearStart(EPOCH) == 0
  {
  }

  lemma {:induction false} YearOrder(y: int, z: int)
    requires y < z
    ensures YearStart(y) + DaysYear(y) <= YearStart(z)
    decreases z - y
  {
    YearStep(y);
    if y + 1 < z {
      YearOrder(y + 1, z);
    }
  }

  lemma MonthStarts(y: int)
    ensures MonthStart(y, 0) == 0 && MonthStart(y, 1) == 31 && MonthStart(y, 2) == 31 + FebDays(y)
    ensures MonthStart(y, 3) == 62 + FebDays(y) && MonthStart(y, 4) == 92 + FebDays(y)
    ensures MonthStart(y, 5) == 123 + FebDays(y) && MonthStart(y, 6) == 153 + FebDays(y)
    ensures MonthStart(y, 7) == 184 + FebDays(y) && MonthStart(y, 8) == 215 + FebDays(y)
    ensures MonthStart(y, 9) == 245 + FebDays(y) && MonthStart(y, 10) == 276 + FebDays(y)
    ensures MonthStart(y, 11) == 306 + FebDays(y) && MonthStart(y, 12) == 337 + FebDays(y) == DaysYear(y)
  {
    assert MonthStart(y, 3) == MonthStart(y, 2) + 31;
    assert MonthStart(y, 5) == MonthStart(y, 4) + 31;
    assert MonthStart(y, 7) == MonthStart(y, 6) + 31;
    assert MonthStart(y, 9) == MonthStart(y, 8) + 30;
    assert MonthStart(y, 11) == MonthStart(y, 10) + 30;
  }

  lemma {:induction false} MonthOrder(y: int, m: nat, k: nat)
    requires m < k <= 12
    ensures MonthStart(y, m) + Table(y)[m] <= MonthStart(y, k)
    decreases k
  {
    if m < k - 1 {
      MonthOrder(y, m, k - 1);
    }
  }

  /** _newyear: the weekday of 1 January, from its argument alone. */
  function NewYear(year: int): int
    requires year >= -1899
  {
    var y := year + 1900 - 1;
    (1 + y + y / 4 - y / 100 + y / 400) % 7
  }

  /** The closed-form weekday agrees with counting days from Thursday, 1 January 1970. */
  lemma NewYearAgrees(year: int, yday: int)
    requires year >= 0 && yday >= 0
    ensures (NewYear(year) + yday) % 7 == (YearStart(year + MINYEAR) + yday + THU) % 7
  {
    var y := year + 1900 - 1;
    var q := 1 + y + y / 4 - y / 100 + y / 400;
    assert YearStart(year + MINYEAR) + THU == q + 364 * y - 719159;
    assert 364 * y - 719159 == 7 * (52 * y - 102737);
    Mod7(q + yday, 52 * y - 102737);
    Mod7Sum(q, yday);
  }

  lemma Mod7(a: int, k: int)
    ensures (a + 7 * k) % 7 == a % 7
  {
  }

  lemma Mod7Sum(a: int, b: int)
    ensures (a % 7 + b) % 7 == (a + b) % 7
  {
    var k := a / 7;
    assert a == 7 * k + a % 7;
    Mod7(a % 7 + b, k);
  }

  // ----- broken-down times -----

  datatype Tm = Tm(sec: int, min: int, hour: int, mday: int, mon: int, year: int, wday: int, yday: int)

  predicate InRange(tm: Tm) {
    && 0 <= tm.sec < 60 && 0 <= tm.min < 60 && 0 <= tm.hour < 24
    && 0 <= tm.mon < 12 && 1 <= tm.mday <= Table(tm.year + MINYEAR)[tm.mon]
  }

  /** The day a date denotes, counted from the epoch; month and day may be out of range. */
  function DayOf(year: int, mon: int, mday: int): int {
    var y := year + MINYEAR + mon / 12;
    YearStart(y) + MonthStart(y, mon % 12) + mday - 1
  }

  /** The instant a broken-down time denotes, whatever its fields (C99 section 7.23.2.3). */
  function Instant(tm: Tm): int {
    DayOf(tm.year, tm.mon, tm.mday) * SECDAY + tm.hour * 3600 + tm.min * 60 + tm.sec
  }

  /** The weekday and day of year that go with the date. */
  predicate Derived(tm: Tm)
    requires InRange(tm)
  {
    tm.yday == MonthStart(tm.year + MINYEAR, tm.mon) + tm.mday - 1 &&
    tm.wday == (DayOf(tm.year, tm.mon, tm.mday) + THU) % 7
  }

  lemma YearUnique(y: int, r: int, z: int, q: int)
    requires 0 <= r < DaysYear(y) && 0 <= q < DaysYear(z) && YearStart(y) + r == YearStart(z) + q
    ensures y == z
  {
    if y < z { YearOrder(y, z); } else if z < y { YearOrder(z, y); }
  }

  lemma MonthUnique(y: int, m: nat, d: int, k: nat, e: int)
    requires m < 12 && k < 12 && 1 <= d <= Table(y)[m] && 1 <= e <= Table(y)[k]
    requires MonthStart(y, m) + d == MonthStart(y, k) + e
    ensures m == k
  {
    if m < k { MonthOrder(y, m, k); } else if k < m { MonthOrder(y, k, m); }
  }

  lemma MonthInYear(y: int, m: nat, d: int)
    requires m < 12 && 1 <= d <= Table(y)[m]
    ensures 0 <= MonthStart(y, m) + d - 1 < DaysYear(y)
  {
    MonthStarts(y);
    MonthOrder(y, m, 12);
  }

  lemma DayInYear(tm: Tm)
    requires InRange(tm)
    ensures var y := tm.year + MINYEAR;
            DayOf(tm.year, tm.mon, tm.mday) == YearStart(y) + MonthStart(y, tm.mon) + tm.mday - 1 &&
            0 <= MonthStart(y, tm.mon) + tm.mday - 1 < DaysYear(y)
  {
    MonthInYear(tm.year + MINYEAR, tm.mon, tm.mday);
  }

  lemma DateUnique(a: Tm, b: Tm)
    requires InRange(a) && InRange(b) && DayOf(a.year, a.mon, a.mday) == DayOf(b.year, b.mon, b.mday)
    ensures a.year == b.year && a.mon == b.mon && a.mday == b.mday
  {
    DayInYear(a);
    DayInYear(b);
    var y, z := a.year + MINYEAR, b.year + MINYEAR;
    YearUnique(y, MonthStart(y, a.mon) + a.mday - 1, z, MonthStart(z, b.mon) + b.mday - 1);
    MonthUnique(y, a.mon, a.mday, b.mon, b.mday);
  }

  /** In-range fields are determined by the instant. */
  lemma InstantUnique(a: Tm, b: Tm)
    requires InRange(a) && InRange(b) && Derived(a) && Derived(b) && Instant(a) == Instant(b)
    ensures a == b
  {
    ClockUnique(DayOf(a.year, a.mon, a.mday), a.hour, a.min, a.sec, DayOf(b.year, b.mon, b.mday), b.hour, b.min, b.sec);
    DateUnique(a, b);
  }

  lemma ClockUnique(x: int, h: int, m: int, s: int, x': int, h': int, m': int, s': int)
    requires 0 <= s < 60 && 0 <= m < 60 && 0 <= h < 24 && 0 <= s' < 60 && 0 <= m' < 60 && 0 <= h' < 24
    requires x * SECDAY + h * 3600 + m * 60 + s == x' * SECDAY + h' * 3600 + m' * 60 + s'
    ensures x == x' && h == h' && m == m' && s == s'
  {
  }
}
