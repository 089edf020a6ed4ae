/**
 Broken-down time to seconds since 1970, against a calendar that counts years and
 months one by one. Every int of the C code is an int32 here, and every long long an
 int64; inputs on which one of them would overflow have the outcome Undefined.
 */
module Calendar {
  import opened Arith

  type int32 = x: int | -0x8000_0000 <= x < 0x8000_0000
  type int64 = x: int | -0x8000_0000_0000_0000 <= x < 0x8000_0000_0000_0000

  /** The outcome of C arithmetic: a signed overflow leaves it undefined. */
  datatype Outcome<T> = Undefined | Defined(value: T)

  // ------------------------------------------------------------------ the calendar

  predicate IsLeap(y: int) {
    y % 4 == 0 && (y % 100 != 0 || y % 400 == 0)
  }

  function YearLength(y: int): int {
    if IsLeap(y) then 366 else 365
  }

  /** Days from 1 January 1970 to 1 January of year `y`, counted year by year. */
  function DaysToYear(y: int): int
    decreases if y < 1970 then 1970 - y else y - 1970
  {
    if y == 1970 then 0
    else if y > 1970 then DaysToYear(y - 1) + YearLength(y - 1)
    else DaysToYear(y + 1) - YearLength(y)
  }

  function MonthLength(m: nat, leap: bool): int
    requires m < 12
  {
    if m == 1 then if leap then 29 else 28
    else if m == 3 || m == 5 || m == 8 || m == 10 then 30 else 31
  }

  /** Days of the year before month `m`, which counts from 0. */
  function DaysToMonth(m: nat, leap: bool): int
    requires m <= 12
  {
    if m == 0 then 0 else DaysToMonth(m - 1, leap) + MonthLength(m - 1, leap)
  }

  /** A month's number may lie outside the year; it is carried into the year. */
  function Day(year: int, mon: int, mday: int): int {
    var y := year + mon / 12;
    DaysToYear(y) + DaysToMonth(mon % 12, IsLeap(y)) + mday - 1
  }

  lemma MonthTable(leap: bool)
    ensures DaysToMonth(0, leap) == 0 && DaysToMonth(1, leap) == 31
    ensures var l := if leap then 1 else 0;
            && DaysToMonth(2, leap) == 59 + l && DaysToMonth(3, leap) == 90 + l
            && DaysToMonth(4, leap) == 120 + l && DaysToMonth(5, leap) == 151 + l
            && DaysToMonth(6, leap) == 181 + l && DaysToMonth(7, leap) == 212 + l
            && DaysToMonth(8, leap) == 243 + l && DaysToMonth(9, leap) == 273 + l
            && DaysToMonth(10, leap) == 304 + l && DaysToMonth(11, leap) == 334 + l && DaysToMonth(12, leap) == 365 + l
  {
    assert DaysToMonth(1, leap) == DaysToMonth(0, leap) + MonthLength(0, leap);
    assert DaysToMonth(2, leap) == DaysToMonth(1, leap) + MonthLength(1, leap);
    assert DaysToMonth(3, leap) == DaysToMonth(2, leap) + MonthLength(2, leap);
    assert DaysToMonth(4, leap) == DaysToMonth(3, leap) + MonthLength(3, leap);
    assert DaysToMonth(5, leap) == DaysToMonth(4, leap) + MonthLength(4, leap);
    assert DaysToMonth(6, leap) == DaysToMonth(5, leap) + MonthLength(5, leap);
    assert DaysToMonth(7, leap) == DaysToMonth(6, leap) + MonthLength(6, leap);
    assert DaysToMonth(8, leap) == DaysToMonth(7, leap) + MonthLength(7, leap);
    assert DaysToMonth(9, leap) == DaysToMonth(8, leap) + MonthLength(8, leap);
    assert DaysToMonth(10, leap) == DaysToMonth(9, leap) + MonthLength(9, leap);
    assert DaysToMonth(11, leap) == DaysToMonth(10, leap) + MonthLength(10, leap);
    assert DaysToMonth(12, leap) == DaysToMonth(11, leap) + MonthLength(11, leap);
  }

  /** The calendar is consistent: twelve months make up a year. */
  lemma MonthsFillYear(y: int)
    ensures DaysToMonth(12, IsLeap(y)) == YearLength(y)
  {
    MonthTable(IsLeap(y));
  }

  // ------------------------------------------------------------------ a closed form

  /** Leap days up to and including year `n`, from a fixed origin. */
  function LeapCount(n: int): int {
    n / 4 - n / 100 + n / 400
  }

  lemma LeapCountStep(y: int)
    ensures LeapCount(y) - LeapCount(y - 1) == if IsLeap(y) then 1 else 0
  {
    FloorStep(y, 4);
    FloorStep(y, 100);
    FloorStep(y, 400);
  }

  lemma FloorStep(y: int, d: int)
    requires d > 0
    ensures y / d - (y - 1) / d == if y % d == 0 then 1 else 0
  {
    var q, r := y / d, y % d;
    assert y == q * d + r;
    if r == 0 {
      FloorUnique(y - 1, d, q - 1);
    } else {
      FloorUnique(y - 1, d, q);
    }
  }

  lemma {:induction false} ClosedForm(y: int)
    ensures DaysToYear(y) == 365 * (y - 1970) + LeapCount(y - 1) - LeapCount(1969)
    decreases if y < 1970 then 1970 - y else y - 1970
  {
    hide LeapCount, IsLeap;
    if y > 1970 {
      ClosedForm(y - 1);
      LeapCountStep(y - 1);
    } else if y < 1970 {
      ClosedForm(y + 1);
      LeapCountStep(y);
    }
  }

  // ------------------------------------------------------------------ the code

  /** C's division and remainder, which cut toward zero. */
  function Quot(a: int, b: int): int
    requires b > 0
  {
    if a >= 0 then a / b else -((-a) / b)
  }

  function Rem(a: int, b: int): int
    requires b > 0
  {
    a - Quot(a, b) * b
  }

  /** Correcting a negative remainder turns C's division into floor division. */
  lemma QuotFloor(a: int, b: int)
    requires b > 0
    ensures -b < Rem(a, b) < b
    ensures Rem(a, b) < 0 ==> Quot(a, b) - 1 == a / b && Rem(a, b) + b == a % b
    ensures Rem(a, b) >= 0 ==> Quot(a, b) == a / b && Rem(a, b) == a % b
  {
    if a < 0 {
      var q := (-a) / b;
      var m := q * b;
      assert m <= -a < m + b;
      assert (-q) * b == -m && (-q - 1) * b == -m - b;
      FloorUnique(a, b, if a + m < 0 then -q - 1 else -q);
    }
  }

  /** The branch for 1902 to 2038, in plain int arithmetic. */
  method NearYear(year: int64) returns (secs: int32, isLeap: bool)
    requires 2 <= year <= 138
    ensures secs == 86400 * DaysToYear(year + 1900) && isLeap == IsLeap(year + 1900)
  {
    ClosedForm(year + 1900);
    NearLeaps(year);
    var y: int32 := year;
    var since68: int32 := y - 68;
    var leaps: int32 := since68 / 4;       // an arithmetic shift by 2
    if since68 % 4 == 0 {
      leaps := leaps - 1;
      isLeap := true;
    } else {
      isLeap := false;
    }
    var since70: int32 := y - 70;
    var years: int32 := 31536000 * since70;
    var days: int32 := 86400 * leaps;
    secs := years + days;
  }

  /** Between 1902 and 2038 every fourth year is a leap year. */
  lemma NearLeaps(year: int)
    requires 2 <= year <= 138
    ensures LeapCount(year + 1899) - LeapCount(1969) == (year - 68) / 4 - if (year - 68) % 4 == 0 then 1 else 0
    ensures IsLeap(year + 1900) <==> (year - 68) % 4 == 0
  {
    var n := year + 1899;
    FloorUnique(n, 100, if n < 2000 then 19 else 20);
    FloorUnique(n, 400, if n < 2000 then 4 else 5);
  }

  /** A position in the 400-year cycle that starts in 2000. */
  lemma CycleLeaps(cycles: int, centuries: int, rest: int)
    requires 0 <= centuries < 4 && 0 <= rest < 100
    ensures var y := 2000 + 400 * cycles + 100 * centuries + rest;
            var leap := if rest == 0 then centuries == 0 else rest % 4 == 0;
            && IsLeap(y) == leap
            && LeapCount(y - 1) - LeapCount(1969) + 1 ==
               (if rest == 0 then 0 else rest / 4) + 97 * cycles + 24 * centuries - (if leap then 1 else 0) + 9
  {
    var y := 2000 + 400 * cycles + 100 * centuries + rest;
    LeapCountStep(y);
    FloorUnique(y, 100, 20 + 4 * cycles + centuries);
    FloorUnique(y, 400, 5 + cycles);
    assert y / 4 == 500 + 100 * cycles + 25 * centuries + rest / 4;
    assert y % 400 == 100 * centuries + rest;
    assert y % 100 == rest && y % 4 == rest % 4;
  }

  /** The century of a position in the cycle, and the position in the century. */
  method Century(pos: int32) returns (centuries: int32, rem: int32)
    requires 0 <= pos < 400
    ensures 0 <= centuries < 4 && 0 <= rem < 100 && pos == 100 * centuries + rem
  {
    rem := pos;
    if rem >= 200 {
      if rem >= 300 {
        centuries, rem := 3, rem - 300;
      } else {
        centuries, rem := 2, rem - 200;
      }
    } else {
      if rem >= 100 {
        centuries, rem := 1, rem - 100;
      } else {
        centuries := 0;
      }
    }
  }

  /** The cycle of 400 years that a year lies in, and its position there. */
  method Cycle(since2000: int64) returns (cycles: int32, rem: int32)
    requires IsInt(since2000 / 400) && IsInt(since2000 / 400 + 1)
    ensures cycles == since2000 / 400 && rem == since2000 % 400
  {
    hide Quot, Rem;
    QuotFloor(since2000, 400);
    cycles := Quot(since2000, 400);
    rem := Rem(since2000, 400);
    if rem < 0 {
      cycles := cycles - 1;
      rem := rem + 400;
    }
  }

  /** The century of a position in the cycle, whether it is a leap year, and the leap years up to it in its century. */
  method Leaps(pos: int32) returns (centuries: int32, isLeap: bool, leaps: int32)
    requires 0 <= pos < 400
    ensures centuries == pos / 100 && leaps == pos % 100 / 4
    ensures isLeap == if pos % 100 == 0 then centuries == 0 else pos % 100 % 4 == 0
  {
    if pos == 0 {
      isLeap, centuries, leaps := true, 0, 0;
    } else {
      var rem;
      centuries, rem := Century(pos);
      if rem == 0 {
        isLeap, leaps := false, 0;
      } else {
        leaps := rem / 4;
        rem := rem % 4;
        isLeap := rem == 0;
      }
    }
  }

  predicate IsInt(x: int) {
    -0x8000_0000 <= x < 0x8000_0000
  }

  /**
   The int values that the general branch goes through, for the cycle, century and year of `year`.
   If one of the sums is not an int, the sum overflows. A cycle number that is not an int is not an
   overflow: C narrows it on assignment, and the code may go on to a wrong value. Here both count as
   undefined.
   */
  predicate IntsFit(year: int64) {
    var cycles, pos := (year - 100) / 400, (year - 100) % 400;
    var centuries, rest := pos / 100, pos % 100;
    var leap := if (if rest == 0 then centuries == 0 else rest % 4 == 0) then 1 else 0;
    && IsInt(97 * cycles) && IsInt(97 * cycles + 24 * centuries) && IsInt(97 * cycles + 24 * centuries - leap)
    && IsInt(rest / 4 + 97 * cycles + 24 * centuries - leap)
  }

  /** The sum of the leap days, in int. */
  method AllLeaps(cycles: int32, centuries: int32, isLeap: bool, leaps: int32) returns (r: int32)
    requires 0 <= centuries < 4
    requires var leap := if isLeap then 1 else 0;
             && IsInt(97 * cycles) && IsInt(97 * cycles + 24 * centuries) && IsInt(97 * cycles + 24 * centuries - leap)
             && IsInt(leaps + 97 * cycles + 24 * centuries - leap)
    ensures r == leaps + 97 * cycles + 24 * centuries - if isLeap then 1 else 0
  {
    var byCycle: int32 := 97 * cycles;
    var byCentury: int32 := 24 * centuries;
    var before: int32 := byCycle + byCentury;
    before := before - if isLeap then 1 else 0;
    r := leaps + before;
  }

  const FIRST_YEAR := -8855602300
  const LAST_YEAR := 8855602772

  /** They are ints exactly for these years, counted from 1900. */
  lemma YearsThatFit(year: int64)
    ensures IntsFit(year) <==> FIRST_YEAR <= year <= LAST_YEAR
  {
    var cycles, pos := (year - 100) / 400, (year - 100) % 400;
    CycleOf(year);
    FitsAt(cycles, pos / 100, pos % 100);
  }

  lemma FitsAt(cycles: int, centuries: int, rest: int)
    requires 0 <= centuries < 4 && 0 <= rest < 100
    ensures var leap := if (if rest == 0 then centuries == 0 else rest % 4 == 0) then 1 else 0;
            (&& IsInt(97 * cycles) && IsInt(97 * cycles + 24 * centuries) && IsInt(97 * cycles + 24 * centuries - leap)
             && IsInt(rest / 4 + 97 * cycles + 24 * centuries - leap))
            <==> FIRST_YEAR <= 100 + 400 * cycles + 100 * centuries + rest <= LAST_YEAR
  {
    if -22139006 < cycles < 22139006 {
      assert -0x8000_0000 + 97 <= 97 * cycles <= 0x7FFF_FFFF - 97;
    } else if cycles < -22139006 || 22139006 < cycles {
      assert !IsInt(97 * cycles);
    }
  }

  datatype Start = Start(secs: int64, isLeap: bool)

  predicate Starts(start: Start, year: int) {
    start.secs == 86400 * DaysToYear(year + 1900) && start.isLeap == IsLeap(year + 1900)
  }

  lemma CycleOf(year: int64)
    ensures var cycles, pos := (year - 100) / 400, (year - 100) % 400;
            year + 1900 == 2000 + 400 * cycles + 100 * (pos / 100) + pos % 100
  {
  }

  /** The seconds since 1970, from the years and the leap days since 2000. */
  method SecsFrom2000(since2000: int64, leaps: int32) returns (secs: int64)
    requires FIRST_YEAR - 100 <= since2000 <= LAST_YEAR - 100
    ensures secs == 31536000 * since2000 + 86400 * leaps + 946684800 + 86400
  {
    var years: int64 := since2000 * 31536000;
    var days: int64 := leaps * 86400;
    secs := years + days;
    secs := secs + 946684800;
    secs := secs + 86400;
  }

  /** The general branch, for any year. */
  method AnyYear(year: int64) returns (r: Outcome<Start>)
    ensures r.Defined? <==> FIRST_YEAR <= year <= LAST_YEAR
    ensures r.Defined? ==> Starts(r.value, year)
  {
    YearsThatFit(year);
    if !IntsFit(year) {
      return Undefined;
    }
    CycleOf(year);
    hide IntsFit, LeapCount, IsLeap, DaysToYear;
    ClosedForm(year + 1900);
    var since2000: int64 := year - 100;
    var cycles, pos := Cycle(since2000);
    var centuries, isLeap, leaps := Leaps(pos);
    CycleLeaps(cycles, centuries, pos % 100);
    leaps := AllLeaps(cycles, centuries, isLeap, leaps);
    var secs := SecsFrom2000(since2000, leaps);
    return Defined(Start(secs, isLeap));
  }

  /** __year_to_secs. The unsigned comparison admits exactly the years 2 to 138. */
  method YearToSecs(year: int64) returns (r: Outcome<Start>)
    ensures r.Defined? <==> FIRST_YEAR <= year <= LAST_YEAR
    ensures r.Defined? ==> Starts(r.value, year)
  {
    if (year - 2) % 0x1_0000_0000_0000_0000 <= 136 {
      var secs, isLeap := NearYear(year);
      r := Defined(Start(secs, isLeap));
    } else {
      r := AnyYear(year);
    }
  }

  /** __month_to_secs. */
  method MonthToSecs(month: int32, isLeap: bool) returns (t: int32)
    requires 0 <= month < 12
    ensures t == 86400 * DaysToMonth(month, isLeap)
  {
    hide DaysToMonth;
    MonthTable(isLeap);
    var days := [0, 31, 59, 90, 120, 151, 181, 212, 243, 273, 304, 334];
    t := days[month] * 86400;
    if isLeap && month >= 2 {
      t := t + 86400;
    }
  }

  datatype Tm = Tm(year: int32, mon: int32, mday: int32, hour: int32, min: int32, sec: int32)

  /** The day before is taken in int: that overflows for exactly one day of the month. */
  lemma DayBefore(mday: int32)
    ensures IsInt(mday - 1) <==> mday != -0x8000_0000
  {
  }

  /** __tm_to_secs: no field has to be in its usual range. */
  method TmToSecs(tm: Tm) returns (r: Outcome<int64>)
    ensures r.Undefined? <==> tm.mday == -0x8000_0000
    ensures r.Defined? ==>
              r.value == 86400 * Day(tm.year + 1900, tm.mon, tm.mday) + 3600 * tm.hour + 60 * tm.min + tm.sec
  {
    hide DaysToYear, DaysToMonth, IsLeap;
    QuotFloor(tm.mon, 12);
    var year: int64 := tm.year;
    var month: int32 := tm.mon;
    if month >= 12 || month < 0 {
      var adj: int32 := Quot(month, 12);
      month := Rem(month, 12);
      if month < 0 {
        adj := adj - 1;
        month := month + 12;
      }
      year := year + adj;
    }
    var start := YearToSecs(year);
    var months := MonthToSecs(month, start.value.isLeap);
    FarEnough(year + 1900);
    var t: int64 := start.value.secs;
    t := t + months;
    DayBefore(tm.mday);
    if !IsInt(tm.mday - 1) {
      return Undefined;
    }
    var day: int32 := tm.mday - 1;
    t := t + 86400 * day;
    t := t + 3600 * tm.hour;
    t := t + 60 * tm.min;
    t := t + tm.sec;
    return Defined(t);
  }

  lemma FarEnough(y: int)
    requires -0x1_0000_0000 <= y <= 0x1_0000_0000
    ensures -400 * 0x1_0000_0000 <= DaysToYear(y) <= 400 * 0x1_0000_0000
  {
    ClosedForm(y);
  }

  lemma PosixLeaps(y: int)
    ensures LeapCount(y + 1899) - LeapCount(1969) == (y - 69) / 4 - (y - 1) / 100 + (y + 299) / 400
  {
    assert (y + 1899) / 4 == (y - 69) / 4 + 492;
    assert (y + 1899) / 100 == (y - 1) / 100 + 19;
    assert (y + 1899) / 400 == (y + 299) / 400 + 4;
  }

  /** From 1970 on this is the formula of POSIX.1-2017, Base Definitions, section 4.16. */
  lemma Posix(tm: Tm)
    requires 70 <= tm.year && 0 <= tm.mon < 12
    ensures var yday := DaysToMonth(tm.mon, IsLeap(tm.year + 1900)) + tm.mday - 1;
            86400 * Day(tm.year + 1900, tm.mon, tm.mday) + 3600 * tm.hour + 60 * tm.min + tm.sec
            == tm.sec + tm.min * 60 + tm.hour * 3600 + yday * 86400
               + (tm.year - 70) * 31536000 + (tm.year - 69) / 4 * 86400
               - (tm.year - 1) / 100 * 86400 + (tm.year + 299) / 400 * 86400
  {
    var y: int := tm.year;
    ClosedForm(y + 1900);
    hide DaysToYear, DaysToMonth, IsLeap, LeapCount;
    PosixLeaps(y);
  }
}
