/** gmtime, mktime and _systime, sharing the mutable month table `_daysmon`. */
module Calendar {
  import opened CalendarSpec

  const INT_MAX := 0x7FFF_FFFF
  const INT_MIN := -0x8000_0000

  predicate IsInt(x: int) {
    INT_MIN <= x <= INT_MAX
  }

  predicate IntFields(tm: Tm) {
    IsInt(tm.sec) && IsInt(tm.min) && IsInt(tm.hour) && IsInt(tm.mday) && IsInt(tm.mon) && IsInt(tm.year)
  }

  /** A negative value lifted by `norm`: one too many when it is a multiple of `max`. */
  lemma LiftNegative(v: int, max: int)
    requires v < 0 && (max == 60 || max == 24 || max == 12)
    ensures var d := -v / max + 1;
            var w := v + d * max;
            1 <= d <= -v + 1 && 1 <= w <= max && 24 * (d - 1) <= -2 * v &&
            (w < max ==> v % max == w && v / max == -d) &&
            (w == max ==> v % max == 0 && v / max == 1 - d)
  {
    if max == 60 {
      var q := -v / 60;
      assert 60 * q <= -v < 60 * q + 60;
    } else if max == 24 {
      var q := -v / 24;
      assert 24 * q <= -v < 24 * q + 24;
    } else {
      var q := -v / 12;
      assert 12 * q <= -v < 12 * q + 12;
    }
  }

  lemma Reduce(v: int, max: int)
    requires v >= 0 && (max == 60 || max == 24 || max == 12)
    ensures v - v / max * max == v % max && 12 * (v / max) <= v
  {
  }

  /** What norm does: the value in range and the carry, a refusal, or a step that leaves int. */
  datatype Carry = Carried(v: int, n: int) | Refused | LeavesInt

  /** What it should do: refuse exactly when the carry cannot be represented. */
  function Wanted(v: int, n: int, max: int): Carry
    requires max > 0
  {
    if IsInt(n + v / max) then Carried(v % max, n + v / max) else Refused
  }

  /** The multiple of `max` by which norm moves the value, counted. */
  function Turns(v: int, max: int): int
    requires max > 0
  {
    if v < 0 then -v / max + 1 else v / max
  }

  /** Negating or multiplying leaves int before any guard is asked. */
  predicate ProductLeaves(v: int, max: int)
    requires max > 0
  {
    v < 0 && (v == INT_MIN || Turns(v, max) * max > INT_MAX)
  }

  /** The guards: the first one tests against the wrong end of int. */
  predicate Refuses(v: int, n: int, max: int)
    requires max > 0
  {
    var d := Turns(v, max);
    if v < 0 then !ProductLeaves(v, max) && (n > INT_MAX - d || (v % max == 0 && n - d == INT_MIN))
    else v >= max && n < INT_MIN + d
  }

  predicate Leaves(v: int, n: int, max: int)
    requires max > 0
  {
    var d := Turns(v, max);
    if v < 0 then ProductLeaves(v, max) || (n <= INT_MAX - d && n - d < INT_MIN)
    else v >= max && INT_MIN + d <= n && n + d > INT_MAX
  }

  /** The carries that norm gets right. */
  predicate RightRange(v: int, n: int, max: int)
    requires max > 0
  {
    var d := Turns(v, max);
    if v < 0 then
      !ProductLeaves(v, max) && INT_MIN + d + (if v % max == 0 then 1 else 0) <= n <= INT_MAX - d
    else v >= max ==> INT_MIN + d <= n <= INT_MAX - d
  }

  function Outcome(v: int, n: int, max: int): Carry
    requires max > 0
  {
    if Leaves(v, n, max) then LeavesInt
    else if Refuses(v, n, max) then Refused
    else Carried(v % max, n + v / max)
  }

  /** norm does what it should exactly on RightRange. */
  lemma NormExactly(v: int, n: int, max: int)
    requires (max == 60 || max == 24 || max == 12) && IsInt(v) && IsInt(n)
    ensures Outcome(v, n, max) == Wanted(v, n, max) <==> RightRange(v, n, max)
  {
    if v < 0 {
      LiftNegative(v, max);
    } else {
      Reduce(v, max);
      SmallQuotient(v, max);
    }
  }

  lemma SmallQuotient(v: int, max: int)
    requires v >= 0 && (max == 60 || max == 24 || max == 12)
    ensures (v < max <==> v / max == 0) && v / max >= 0
  {
  }

  /** norm: bring `v` into range and carry into `n`, rounding down whatever the sign of `v`. */
  method Norm(v: int, n: int, max: int) returns (c: Carry)
    requires (max == 60 || max == 24 || max == 12) && IsInt(v) && IsInt(n)
    ensures c == Outcome(v, n, max) && (c.Carried? ==> IsInt(c.n))
  {
    var v', n' := v, n;
    var d;
    if v' < 0 {
      Lifted(v, n, max);
      if !IsInt(-v') {
        return LeavesInt;
      }
      d := -v' / max + 1;
      if !IsInt(d * max) {
        return LeavesInt;
      }
      v' := v' + d * max;
      if n' > INT_MAX - d {
        return Refused;
      }
      n' := n' - d;
      if !IsInt(n') {
        return LeavesInt;
      }
    }
    if v' >= max {
      Lowered(v', n', max);
      d := v' / max;
      v' := v' - d * max;
      if n' < INT_MIN + d {
        return Refused;
      }
      n' := n' + d;
      if !IsInt(n') {
        return LeavesInt;
      }
    }
    return Carried(v', n');
  }

  /** The outcome for a negative value, in the terms of the source. */
  lemma Lifted(v: int, n: int, max: int)
    requires (max == 60 || max == 24 || max == 12) && v < 0 && IsInt(v) && IsInt(n)
    ensures var d := -v / max + 1;
      var w := v + d * max;
      1 <= d && 1 <= w <= max && d * max > 0 &&
      Outcome(v, n, max) ==
        if v == INT_MIN || d * max > INT_MAX then LeavesInt
        else if n > INT_MAX - d then Refused
        else if n - d < INT_MIN then LeavesInt
        else if w < max then Carried(w, n - d)
        else if n - d < INT_MIN + 1 then Refused
        else Carried(0, n - d + 1)
  {
    LiftNegative(v, max);
  }

  /** And for one at or above the range; `max` itself counts one turn. */
  lemma Lowered(v: int, n: int, max: int)
    requires (max == 60 || max == 24 || max == 12) && v >= max && IsInt(n)
    ensures var d := v / max;
      d >= 1 && v - d * max == v % max && (v == max ==> d == 1 && v % max == 0) &&
      Outcome(v, n, max) ==
        if n < INT_MIN + d then Refused else if n + d > INT_MAX then LeavesInt else Carried(v % max, n + d)
  {
    Reduce(v, max);
  }

  /** One second before a full minute count: refused although it can be represented. */
  lemma WronglyRefused()
    ensures Refuses(-1, INT_MAX, 60) && Wanted(-1, INT_MAX, 60) == Carried(59, INT_MAX - 1)
  {
  }

  /** Carries past either end of int that no guard stops. */
  lemma Unguarded()
    ensures Leaves(-1, INT_MIN, 60) && Wanted(-1, INT_MIN, 60) == Refused
    ensures Leaves(60, INT_MAX, 60) && Wanted(60, INT_MAX, 60) == Refused
    ensures Leaves(INT_MIN, 0, 60) && Leaves(-INT_MAX, 0, 60)
  {
  }

  /** Carrying seconds, minutes and hours leaves the instant alone. */
  lemma CarryTime(day: int, hour: int, min: int, sec: int)
    ensures var m := min + sec / 60;
            var h := hour + m / 60;
            (day + h / 24) * SECDAY + h % 24 * 3600 + m % 60 * 60 + sec % 60
              == day * SECDAY + hour * 3600 + min * 60 + sec
  {
  }

  /** The date the normalisation starts from: month in range, day still anything. */
  function StartYear(tm: Tm): int {
    tm.year + MINYEAR + tm.mon / 12
  }

  function StartDay(tm: Tm): int {
    tm.mday + (tm.hour + (tm.min + tm.sec / 60) / 60) / 24
  }

  /** The day number that the normalised date must have. */
  function TargetDay(tm: Tm): int {
    DayOf(tm.year, tm.mon, StartDay(tm))
  }

  /** What normalize accepts: a start and an end inside the years it can count. */
  predicate Acceptable(tm: Tm) {
    MINYEAR <= StartYear(tm) <= MAXYEAR &&
    YearStart(MINYEAR) <= TargetDay(tm) < YearStart(MAXYEAR + 1)
  }

  /** All fields in range, derived fields right, same instant. */
  ghost predicate Normalized(tm: Tm, r: Tm) {
    InRange(r) && Derived(r) && Instant(r) == Instant(tm) && MINYEAR <= r.year + MINYEAR <= MAXYEAR
  }

  /** How the four calls of norm and the addition of MINYEAR end. */
  datatype Fields = Good | Refuse | Overflow

  function Ends(v: int, n: int, max: int): Fields
    requires max > 0
  {
    if Leaves(v, n, max) then Overflow else if Refuses(v, n, max) then Refuse else Good
  }

  /** In the order of the source, each call seeing what the one before carried. */
  function FieldsEnd(tm: Tm): Fields {
    var min := tm.min + tm.sec / 60;
    var hour := tm.hour + min / 60;
    if !Ends(tm.sec, tm.min, 60).Good? then Ends(tm.sec, tm.min, 60)
    else if !Ends(min, tm.hour, 60).Good? then Ends(min, tm.hour, 60)
    else if !Ends(hour, tm.mday, 24).Good? then Ends(hour, tm.mday, 24)
    else if !Ends(tm.mon, tm.year, 12).Good? then Ends(tm.mon, tm.year, 12)
    else if StartYear(tm) > INT_MAX then Overflow
    else Good
  }

  /** The four calls of norm. */
  method NormFields(tm: Tm) returns (end: Fields, sec: int, min: int, hour: int, mday: int, mon: int, year: int)
    requires IntFields(tm)
    ensures FieldsEnd(tm).Good? ==> end.Good?
    ensures !end.Good? ==> end == FieldsEnd(tm)
    ensures end.Good? && !FieldsEnd(tm).Good? ==> FieldsEnd(tm).Overflow? && StartYear(tm) > INT_MAX
    ensures end.Good? ==> sec == tm.sec % 60 && min == (tm.min + tm.sec / 60) % 60
    ensures end.Good? ==> hour == (tm.hour + (tm.min + tm.sec / 60) / 60) % 24 && mday == StartDay(tm)
    ensures end.Good? ==> mon == tm.mon % 12 && year + MINYEAR == StartYear(tm)
  {
    sec, min, hour, mday, mon, year := tm.sec, tm.min, tm.hour, tm.mday, tm.mon, tm.year;
    var c := Norm(sec, min, 60);
    if !c.Carried? {
      end := if c.Refused? then Refuse else Overflow;
      return;
    }
    sec, min := c.v, c.n;
    c := Norm(min, hour, 60);
    if !c.Carried? {
      end := if c.Refused? then Refuse else Overflow;
      return;
    }
    min, hour := c.v, c.n;
    c := Norm(hour, mday, 24);
    if !c.Carried? {
      end := if c.Refused? then Refuse else Overflow;
      return;
    }
    hour, mday := c.v, c.n;
    c := Norm(mon, year, 12);
    if !c.Carried? {
      end := if c.Refused? then Refuse else Overflow;
      return;
    }
    mon, year := c.v, c.n;
    end := Good;
  }

  lemma NormalizedDate(tm: Tm, r: Tm)
    requires InRange(r) && 0 <= r.year <= MAXYEAR - MINYEAR
    requires r.sec == tm.sec % 60 && r.min == (tm.min + tm.sec / 60) % 60
    requires r.hour == (tm.hour + (tm.min + tm.sec / 60) / 60) % 24
    requires var y := r.year + MINYEAR;
             YearStart(y) + MonthStart(y, r.mon) + r.mday - 1 == TargetDay(tm) &&
             r.yday == MonthStart(y, r.mon) + r.mday - 1 && r.wday == (NewYear(r.year) + r.yday) % 7
    ensures Normalized(tm, r)
  {
    DayInYear(r);
    InstantKept(tm, r);
    DerivedRight(r);
  }

  lemma DerivedRight(r: Tm)
    requires InRange(r) && 0 <= r.year
    requires r.yday == MonthStart(r.year + MINYEAR, r.mon) + r.mday - 1 && r.wday == (NewYear(r.year) + r.yday) % 7
    ensures Derived(r)
  {
    var y := r.year + MINYEAR;
    DayInYear(r);
    assert DayOf(r.year, r.mon, r.mday) == YearStart(y) + r.yday && r.yday >= 0;
    NewYearAgrees(r.year, r.yday);
  }

  lemma InstantKept(tm: Tm, r: Tm)
    requires r.sec == tm.sec % 60 && r.min == (tm.min + tm.sec / 60) % 60
    requires r.hour == (tm.hour + (tm.min + tm.sec / 60) / 60) % 24
    requires DayOf(r.year, r.mon, r.mday) == TargetDay(tm)
    ensures Instant(r) == Instant(tm)
  {
    CarryTime(DayOf(tm.year, tm.mon, tm.mday), tm.hour, tm.min, tm.sec);
    DayShift(tm);
  }

  lemma DayShift(tm: Tm)
    ensures TargetDay(tm) == DayOf(tm.year, tm.mon, tm.mday) + (tm.hour + (tm.min + tm.sec / 60) / 60) / 24
  {
  }

  class Calendar {
    var daysmon: seq<int>

    /** The shared table is right for some year, the one used last. */
    ghost predicate Valid()
      reads this
    {
      exists y :: daysmon == Table(y)
    }

    constructor ()
      ensures Valid() && daysmon == Table(1970)
    {
      daysmon := [31, 28, 31, 30, 31, 30, 31, 31, 30, 31, 30, 31];
    }

    method SetFeb(year: int)
      requires Valid()
      modifies this
      ensures Valid() && daysmon == Table(year)
    {
      daysmon := daysmon[FEB := if DaysYear(year) == 366 then 29 else 28];
      assert daysmon == Table(year);
    }

    /** First loop of normalize: borrow months until the day is positive. */
    method BorrowMonths(mon0: int, year0: int, day0: int) returns (ok: bool, mon: int, year: int, day: int)
      requires 0 <= mon0 <= DEC && MINYEAR <= year0 <= MAXYEAR && daysmon == Table(year0)
      modifies this
      ensures Valid()
      ensures !ok ==> YearStart(year0) + MonthStart(year0, mon0) + day0 - 1 < YearStart(MINYEAR)
      ensures ok ==>
                && 0 <= mon <= DEC && MINYEAR <= year <= year0 && daysmon == Table(year) && 1 <= day
                && YearStart(year) + MonthStart(year, mon) + day - 1
                   == YearStart(year0) + MonthStart(year0, mon0) + day0 - 1
    {
      ghost var target := YearStart(year0) + MonthStart(year0, mon0) + day0 - 1;
      ok, mon, year, day := true, mon0, year0, day0;
      while day < 1
        invariant 0 <= mon <= DEC && MINYEAR <= year <= year0 && daysmon == Table(year)
        invariant YearStart(year) + MonthStart(year, mon) + day - 1 == target
        decreases 1 - day
      {
        if mon == 0 {
          if year == MINYEAR {
            return false, mon, year, day;
          }
          year := year - 1;
          SetFeb(year);
          mon := DEC + 1;
          YearStep(year);
          MonthStarts(year);
        }
        assert MonthStart(year, mon) == MonthStart(year, mon - 1) + daysmon[mon - 1];
        day := day + daysmon[mon - 1];
        mon := mon - 1;
      }
    }

    /** Second loop of normalize: pass on whole months. */
    method PassMonths(mon0: int, year0: int, day0: int) returns (ok: bool, mon: int, year: int, day: int)
      requires 0 <= mon0 <= DEC && MINYEAR <= year0 <= MAXYEAR && daysmon == Table(year0) && 1 <= day0
      modifies this
      ensures Valid()
      ensures !ok ==> YearStart(year0) + MonthStart(year0, mon0) + day0 - 1 >= YearStart(MAXYEAR + 1)
      ensures ok ==>
                && 0 <= mon <= DEC && year0 <= year <= MAXYEAR && daysmon == Table(year) && 1 <= day <= Table(year)[mon]
                && YearStart(year) + MonthStart(year, mon) + day - 1
                   == YearStart(year0) + MonthStart(year0, mon0) + day0 - 1
    {
      ghost var target := YearStart(year0) + MonthStart(year0, mon0) + day0 - 1;
      ok, mon, year, day := true, mon0, year0, day0;
      while day > daysmon[mon]
        invariant 0 <= mon <= DEC && year0 <= year <= MAXYEAR && daysmon == Table(year) && 1 <= day
        invariant YearStart(year) + MonthStart(year, mon) + day - 1 == target
        decreases day
      {
        assert MonthStart(year, mon + 1) == MonthStart(year, mon) + daysmon[mon];
        day := day - daysmon[mon];
        if mon == DEC {
          YearStep(year);
          MonthStarts(year);
          if year == MAXYEAR {
            return false, mon, year, day;
          }
          year := year + 1;
          SetFeb(year);
          mon := -1;
        }
        mon := mon + 1;
      }
    }

    /** The two loops of normalize together, from a month in range and any day. */
    method NormalizeDate(mon0: int, year0: int, day0: int) returns (ok: bool, mon: int, year: int, day: int)
      requires 0 <= mon0 <= DEC && MINYEAR <= year0 <= MAXYEAR && Valid()
      modifies this
      ensures Valid()
      ensures var target := YearStart(year0) + MonthStart(year0, mon0) + day0 - 1;
              && (ok <==> YearStart(MINYEAR) <= target < YearStart(MAXYEAR + 1))
              && (ok ==> 0 <= mon <= DEC && MINYEAR <= year <= MAXYEAR && 1 <= day <= Table(year)[mon] &&
                         daysmon == Table(year) && YearStart(year) + MonthStart(year, mon) + day - 1 == target)
    {
      SetFeb(year0);
      YearOrder(MINYEAR, MAXYEAR + 1);
      ok, mon, year, day := BorrowMonths(mon0, year0, day0);
      if ok {
        MonthStarts(year);
        if MINYEAR < year { YearOrder(MINYEAR, year); }
        ok, mon, year, day := PassMonths(mon, year, day);
        if ok {
          MonthInYear(year, mon, day);
          YearOrder(year, MAXYEAR + 1);
        }
      }
    }

    /** normalize: bring every field into range without changing the instant, or refuse; for every
        time with int fields. */
    method Normalize(tm: Tm) returns (end: Fields, r: Tm)
      requires Valid() && IntFields(tm)
      modifies this
      ensures Valid()
      ensures end.Overflow? <==> FieldsEnd(tm).Overflow?
      ensures end.Good? <==> FieldsEnd(tm).Good? && Acceptable(tm)
      ensures end.Good? ==> Normalized(tm, r) && daysmon == Table(r.year + MINYEAR)
    {
      r := tm;
      var sec, min, hour, mday, mon, year;
      end, sec, min, hour, mday, mon, year := NormFields(tm);
      if !end.Good? {
        return;
      }
      if year < 0 {
        return Refuse, tm;
      }
      if !IsInt(MINYEAR + year) {
        return Overflow, tm;
      }
      var y := MINYEAR + year;
      if y > MAXYEAR {
        return Refuse, tm;
      }
      var ok;
      ok, r := Dated(tm, sec, min, hour, mday, mon, y);
      end := if ok then Good else Refuse;
    }

    /** The second half of normalize: the date, the day of the year and the weekday. */
    method Dated(tm: Tm, sec: int, min: int, hour: int, mday: int, mon0: int, year: int) returns (ok: bool, r: Tm)
      requires Valid() && sec == tm.sec % 60 && min == (tm.min + tm.sec / 60) % 60
      requires hour == (tm.hour + (tm.min + tm.sec / 60) / 60) % 24 && mday == StartDay(tm)
      requires mon0 == tm.mon % 12 && year == StartYear(tm) && MINYEAR <= year <= MAXYEAR
      modifies this
      ensures Valid()
      ensures ok <==> Acceptable(tm)
      ensures ok ==> Normalized(tm, r) && daysmon == Table(r.year + MINYEAR)
    {
      var mon, y, day;
      ok, mon, y, day := NormalizeDate(mon0, year, mday);
      r := tm;
      if ok {
        var yday := SumMonths(mon, y);
        yday := yday + day - 1;
        r := Tm(sec, min, hour, day, mon, y - MINYEAR, (NewYear(y - MINYEAR) + yday) % 7, yday);
        NormalizedDate(tm, r);
      }
    }

    method SumMonths(mon: int, ghost y: int) returns (yday: int)
      requires 0 <= mon <= 12 && daysmon == Table(y)
      ensures yday == MonthStart(y, mon)
    {
      yday := 0;
      for i := 0 to mon
        invariant yday == MonthStart(y, i)
      {
        yday := yday + daysmon[i];
      }
    }

    /** The first loop of _systime: the years from the epoch on. */
    method SumYears(year: int) returns (t: int)
      ensures t == if year < EPOCH then 0 else YearStart(year) * SECDAY
    {
      t := 0;
      EpochStart();
      var i := EPOCH;
      while i < year
        invariant EPOCH <= i && (i <= year || i == EPOCH) && t == YearStart(i) * SECDAY
      {
        YearStep(i);
        t := t + DaysYear(i) * SECDAY;
        i := i + 1;
      }
    }


    /** _systime: seconds since the epoch, counting whole years from 1970 upwards only. */
    method Systime(tm: Tm) returns (t: int)
      requires InRange(tm) && daysmon == Table(tm.year + MINYEAR)
      ensures t == Instant(tm) - if tm.year + MINYEAR < EPOCH then YearStart(tm.year + MINYEAR) * SECDAY else 0
      ensures t == Instant(tm) <==> tm.year + MINYEAR >= EPOCH
    {
      var year := tm.year + MINYEAR;
      t := SumYears(year);
      ghost var t0 := t;
      DayInYear(tm);
      if year < EPOCH { YearOrder(year, EPOCH); }
      for m := 0 to tm.mon
        invariant t == t0 + MonthStart(year, m) * SECDAY
      {
        t := t + daysmon[m] * SECDAY;
      }
      t := t + tm.sec;
      t := t + tm.min * 60;
      t := t + tm.hour * 3600;
      t := t + (tm.mday - 1) * SECDAY;
    }

    /** mktime: -1, or the instant of the normalised time, which is returned with it. */
    method Mktime(tm: Tm) returns (end: Fields, t: int, r: Tm)
      requires Valid() && IntFields(tm)
      modifies this
      ensures Valid()
      ensures end.Overflow? <==> FieldsEnd(tm).Overflow?
      ensures end.Good? <==> FieldsEnd(tm).Good? && Acceptable(tm)
      ensures end.Refuse? ==> t == -1
      ensures end.Good? ==> Normalized(tm, r) && (t == Instant(tm) <==> r.year + MINYEAR >= EPOCH)
    {
      end, r := Normalize(tm);
      t := -1;
      if end.Good? {
        t := Systime(r);
      }
    }

    /** gmtime: the in-range fields of an instant, by counting off years and months. */
    method Gmtime(t: int) returns (tm: Tm)
      requires Valid() && t >= 0
      modifies this
      ensures InRange(tm) && Derived(tm) && Instant(tm) == t
      ensures tm.year + MINYEAR >= EPOCH && daysmon == Table(tm.year + MINYEAR)
    {
      var sec := t % SECDAY;
      var min := sec / 60;
      sec := sec % 60;
      var hour := min / 60;
      min := min % 60;
      var day := t / SECDAY;
      var wday := (day + THU) % 7;
      ghost var total := day;
      var y, yday, m, d := SplitDay(day);
      tm := Tm(sec, min, hour, d + 1, m, y - MINYEAR, wday, yday);
      DayInYear(tm);
      ClockFields(t);
    }

    /** The two subtracting loops of gmtime. */
    method SplitDay(day: int) returns (y: int, yday: int, m: int, d: int)
      requires Valid() && day >= 0
      modifies this
      ensures y >= EPOCH && daysmon == Table(y) && 0 <= m <= DEC && 0 <= d < Table(y)[m]
      ensures yday == MonthStart(y, m) + d && YearStart(y) + yday == day
    {
      EpochStart();
      y, d := EPOCH, day;
      while d >= DaysYear(y)
        invariant y >= EPOCH && d >= 0 && YearStart(y) + d == day && daysmon == old(daysmon)
        decreases d
      {
        YearStep(y);
        d := d - DaysYear(y);
        y := y + 1;
      }
      yday := d;
      SetFeb(y);
      MonthStarts(y);
      m := 0;
      while d >= daysmon[m]
        invariant 0 <= m <= DEC && d >= 0 && MonthStart(y, m) + d == yday < DaysYear(y)
        decreases d
      {
        assert MonthStart(y, m + 1) == MonthStart(y, m) + daysmon[m];
        d := d - daysmon[m];
        m := m + 1;
      }
    }
  }

  lemma ClockFields(t: int)
    requires t >= 0
    ensures var s := t % SECDAY;
            t == t / SECDAY * SECDAY + s / 60 / 60 * 3600 + s / 60 % 60 * 60 + s % 60 && s / 60 / 60 < 24
  {
  }

  /** gmtime after _systime and back: for every time from the epoch on, nothing is lost. */
  method GmtimeThenSystime(c: Calendar, t: int) returns (u: int)
    requires c.Valid() && t >= 0
    modifies c
    ensures c.Valid() && u == t
  {
    var tm := c.Gmtime(t);
    u := c.Systime(tm);
  }

  /** Whatever mktime accepts from 1970 on, gmtime of its result gives exactly the fields that
      mktime stored, the weekday computed in two different ways included. */
  method MktimeThenGmtime(c: Calendar, tm: Tm) returns (r: Tm, g: Tm)
    requires c.Valid() && IntFields(tm)
    requires FieldsEnd(tm).Good? && Acceptable(tm) && Instant(tm) >= 0
    modifies c
    ensures c.Valid() && g == r && Instant(g) == Instant(tm)
  {
    var end, t;
    end, t, r := c.Mktime(tm);
    EpochBoundary(r);
    g := c.Gmtime(t);
    InstantUnique(g, r);
  }

  /** An in-range time is at or after the epoch exactly when its year is 1970 or later. */
  lemma EpochBoundary(tm: Tm)
    requires InRange(tm)
    ensures Instant(tm) >= 0 <==> tm.year + MINYEAR >= EPOCH
  {
    var y := tm.year + MINYEAR;
    EpochStart();
    DayInYear(tm);
    if y < EPOCH { YearOrder(y, EPOCH); } else if EPOCH < y { YearOrder(EPOCH, y); }
  }
}
