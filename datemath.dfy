/** Calendar dates as the calculator handles them: `Date` objects at UTC
    midnight, built by `Date.UTC`, compared by `getTime()`, shifted by whole
    months, and read from and written to `YYYY-MM-DD` text. */
module DateMath {
  import opened Options
  import opened Numbers
  import opened Text

  datatype Ymd = Ymd(year: int, month: int, day: int)

  predicate IsLeapYear(y: int) {
    y % 4 == 0 && (y % 100 != 0 || y % 400 == 0)
  }

  /** The length of month `m` (1 = January) of year `y` in the proleptic
      Gregorian calendar. */
  function MonthLength(y: int, m: int): (n: int)
    requires 1 <= m <= 12
    ensures 28 <= n <= 31
  {
    if m == 2 then (if IsLeapYear(y) then 29 else 28)
    else if m == 4 || m == 6 || m == 9 || m == 11 then 30
    else 31
  }

  predicate IsCalendarDate(d: Ymd) {
    1 <= d.month <= 12 && 1 <= d.day <= MonthLength(d.year, d.month)
  }

  /** A `Date` object: midnight UTC of one day of the proleptic Gregorian
      calendar (months counted from 1 here, from 0 by `getUTCMonth`). */
  type Date = d: Ymd | IsCalendarDate(d) witness Ymd(1970, 1, 1)

  function YearLength(y: int): int {
    if IsLeapYear(y) then 366 else 365
  }

  /** Days from 0001-01-01 to January 1 of year `y` (negative before). */
  function DaysBeforeYear(y: int): int {
    var p := y - 1;
    365 * p + p / 4 - p / 100 + p / 400
  }

  /** Days from January 1 of year `y` to the first of month `m`. */
  function DaysBeforeMonth(y: int, m: int): int
    requires 1 <= m <= 12
  {
    var common :=
      if m == 1 then 0 else if m == 2 then 31 else if m == 3 then 59
      else if m == 4 then 90 else if m == 5 then 120 else if m == 6 then 151
      else if m == 7 then 181 else if m == 8 then 212 else if m == 9 then 243
      else if m == 10 then 273 else if m == 11 then 304 else 334;
    common + (if m > 2 && IsLeapYear(y) then 1 else 0)
  }

  /** 0001-01-01 to 1970-01-01, the origin of `getTime()`. */
  const UnixEpochOffset := 719162
  const MsPerDay := 86400000

  /** Whole days from 1970-01-01 to `d`. */
  function EpochDay(d: Date): int {
    DaysBeforeYear(d.year) + DaysBeforeMonth(d.year, d.month) + d.day - 1 - UnixEpochOffset
  }

  /** `getTime()`: milliseconds since the epoch; always a whole number of days. */
  function GetTime(d: Date): int {
    EpochDay(d) * MsPerDay
  }

  /** `lt`, `lte`, `gt`: comparisons of instants. */
  predicate Lt(a: Date, b: Date) { GetTime(a) < GetTime(b) }
  predicate Lte(a: Date, b: Date) { GetTime(a) <= GetTime(b) }
  predicate Gt(a: Date, b: Date) { GetTime(a) > GetTime(b) }

  /** Calendar order: by year, then month, then day. */
  predicate Precedes(a: Ymd, b: Ymd) {
    a.year < b.year ||
    (a.year == b.year && (a.month < b.month || (a.month == b.month && a.day < b.day)))
  }

  // ---------------------------------------------------------------- day count

  lemma DaysBeforeNextYear(y: int)
    ensures DaysBeforeYear(y + 1) == DaysBeforeYear(y) + YearLength(y)
  {
    FloorDivStep4(y - 1);
    FloorDivStep100(y - 1);
    FloorDivStep400(y - 1);
    ModDivides(y);
    assert DaysBeforeYear(y + 1) - DaysBeforeYear(y) ==
      365 + (if y % 4 == 0 then 1 else 0) - (if y % 100 == 0 then 1 else 0) + (if y % 400 == 0 then 1 else 0);
  }

  lemma ModDivides(y: int)
    ensures y % 400 == 0 ==> y % 100 == 0
    ensures y % 100 == 0 ==> y % 4 == 0
  {
    if y % 100 == 0 {
      var k := y / 100;
      assert y == 4 * (25 * k);
    }
    if y % 400 == 0 {
      var k := y / 400;
      assert y == 100 * (4 * k);
    }
  }

  lemma FloorDivStep4(p: int)
    ensures (p + 1) / 4 == p / 4 + (if (p + 1) % 4 == 0 then 1 else 0)
  {
  }

  lemma FloorDivStep100(p: int)
    ensures (p + 1) / 100 == p / 100 + (if (p + 1) % 100 == 0 then 1 else 0)
  {
  }

  lemma FloorDivStep400(p: int)
    ensures (p + 1) / 400 == p / 400 + (if (p + 1) % 400 == 0 then 1 else 0)
  {
  }

  lemma {:induction false} DaysBeforeYearMonotone(y1: int, y2: int)
    requires y1 <= y2
    ensures DaysBeforeYear(y1) + 365 * (y2 - y1) <= DaysBeforeYear(y2)
    decreases y2 - y1
  {
    if y1 < y2 {
      DaysBeforeYearMonotone(y1, y2 - 1);
      DaysBeforeNextYear(y2 - 1);
    }
  }

  /** The first of the month after (`y`, `m`) comes `MonthLength(y, m)`
      days after the first of (`y`, `m`). */
  lemma NextMonthStart(y: int, m: int)
    requires 1 <= m <= 12
    ensures EpochDay(NextMonthFirst(y, m)) == EpochDay(Ymd(y, m, 1)) + MonthLength(y, m)
  {
    if m == 12 {
      DaysBeforeNextYear(y);
    }
  }

  function NextMonthFirst(y: int, m: int): Date
    requires 1 <= m <= 12
  {
    if m == 12 then Ymd(y + 1, 1, 1) else Ymd(y, m + 1, 1)
  }

  function PrevMonthFirst(y: int, m: int): (r: Date)
    requires 1 <= m <= 12
    ensures NextMonthFirst(r.year, r.month) == Ymd(y, m, 1)
  {
    if m == 1 then Ymd(y - 1, 12, 1) else Ymd(y, m - 1, 1)
  }

  /** A day lies within its year. */
  lemma WithinYear(d: Date)
    ensures 0 <= DaysBeforeMonth(d.year, d.month) + d.day - 1 < YearLength(d.year)
  {
  }

  lemma MonthsInOrder(y: int, m1: int, m2: int)
    requires 1 <= m1 < m2 <= 12
    ensures DaysBeforeMonth(y, m1) + MonthLength(y, m1) <= DaysBeforeMonth(y, m2)
  {
  }

  lemma PrecedesEarlier(a: Date, b: Date)
    requires Precedes(a, b)
    ensures EpochDay(a) < EpochDay(b)
  {
    if a.year < b.year {
      WithinYear(a);
      DaysBeforeNextYear(a.year);
      DaysBeforeYearMonotone(a.year + 1, b.year);
    } else if a.month < b.month {
      MonthsInOrder(a.year, a.month, b.month);
    }
  }

  /** The day count orders dates exactly as the calendar does. */
  lemma EpochDayOrder(a: Date, b: Date)
    ensures EpochDay(a) < EpochDay(b) <==> Precedes(a, b)
    ensures EpochDay(a) == EpochDay(b) <==> a == b
  {
    if Precedes(a, b) {
      PrecedesEarlier(a, b);
    } else if Precedes(b, a) {
      PrecedesEarlier(b, a);
    }
  }

  /** `lt`, `lte` and `gt` are the calendar order. */
  lemma ComparisonsAreCalendarOrder(a: Date, b: Date)
    ensures Lt(a, b) <==> Precedes(a, b)
    ensures Lte(a, b) <==> Precedes(a, b) || a == b
    ensures Gt(a, b) <==> Precedes(b, a)
  {
    EpochDayOrder(a, b);
    EpochDayOrder(b, a);
  }

  // ------------------------------------------------------------ normalisation

  /** The day-of-month normalisation that `Date.UTC` and `setUTCDate` apply:
      day `d` of month `m` of year `y`, counting on into later months when
      `d` exceeds the month and back into earlier months when `d < 1`. */
  function MakeDate(y: int, m: int, d: int): Date
    requires 1 <= m <= 12
    decreases if d < 1 then 1 - d else 0, d
  {
    if d < 1 then
      var p := PrevMonthFirst(y, m);
      MakeDate(p.year, p.month, d + MonthLength(p.year, p.month))
    else if d > MonthLength(y, m) then
      var n := NextMonthFirst(y, m);
      MakeDate(n.year, n.month, d - MonthLength(y, m))
    else
      Ymd(y, m, d)
  }

  /** The normalised date lies `d - 1` days after the first of month `m`:
      the normalisation neither loses nor invents days. */
  lemma {:induction false} MakeDateCountsDays(y: int, m: int, d: int)
    requires 1 <= m <= 12
    ensures EpochDay(MakeDate(y, m, d)) == EpochDay(Ymd(y, m, 1)) + d - 1
    decreases if d < 1 then 1 - d else 0, d
  {
    if d < 1 {
      var p := PrevMonthFirst(y, m);
      NextMonthStart(p.year, p.month);
      MakeDateCountsDays(p.year, p.month, d + MonthLength(p.year, p.month));
    } else if d > MonthLength(y, m) {
      var n := NextMonthFirst(y, m);
      NextMonthStart(y, m);
      MakeDateCountsDays(n.year, n.month, d - MonthLength(y, m));
    }
  }

  /** `Date.UTC` reads a year argument from 0 to 99 as 1900 to 1999. */
  function UtcYear(y: int): int {
    if 0 <= y <= 99 then 1900 + y else y
  }

  /** `new Date(Date.UTC(y, m0, d))` with a zero-based month: the month
      carries into the year by floor division, then the day is normalised. */
  function DateUtc(y: int, m0: int, d: int): Date {
    MakeDate(UtcYear(y) + m0 / 12, m0 % 12 + 1, d)
  }

  // ---------------------------------------------------------------- helpers

  /** `daysInMonth(year, monthIndex0)`: the day before the first of the next
      month, built with `Date.UTC`. */
  function DaysInMonth(year: int, monthIndex0: int): (n: int)
    requires 0 <= monthIndex0 <= 11
    ensures n == MonthLength(UtcYear(year), monthIndex0 + 1)
    ensures 28 <= n <= 31
    ensures n == 29 <==> monthIndex0 == 1 && IsLeapYear(UtcYear(year))
  {
    var y, m := UtcYear(year), monthIndex0 + 1;
    var next := NextMonthFirst(y, m);
    assert DateUtc(year, monthIndex0 + 1, 0) == MakeDate(next.year, next.month, 0);
    assert PrevMonthFirst(next.year, next.month) == Ymd(y, m, 1);
    assert MakeDate(next.year, next.month, 0) == MakeDate(y, m, MonthLength(y, m));
    DateUtc(year, monthIndex0 + 1, 0).day
  }

  /** The leap years among 1900..1999 are exactly the leap years among
      0..99 other than 0, so month lengths agree for years 1 to 99. */
  lemma UtcYearMonthLength(y: int, m: int)
    requires 1 <= m <= 12
    ensures MonthLength(UtcYear(y), m) <= MonthLength(y, m)
    ensures y != 0 ==> MonthLength(UtcYear(y), m) == MonthLength(y, m)
  {
  }

  /** `addMonths(date, months)`: the first of the month `months` later (the
      month carrying into the year), then the original day clamped to that
      month's length. */
  function AddMonths(date: Date, months: int): (r: Date)
    ensures r.year == UtcYear(date.year) + (date.month - 1 + months) / 12
    ensures r.month == (date.month - 1 + months) % 12 + 1
    ensures r.day == Min(date.day, DaysInMonth(r.year, r.month - 1))
  {
    var out := DateUtc(date.year, date.month - 1 + months, 1);
    var endDay := Min(date.day, DaysInMonth(out.year, out.month - 1));
    UtcYearMonthLength(out.year, out.month);
    MakeDate(out.year, out.month, endDay)
  }

  /** For the dates the calculator produces (years from 100 on) and forward
      shifts, `addMonths` is plain Gregorian month arithmetic: the year
      carries by floor division and the day is clamped to the target month. */
  lemma AddMonthsGregorian(date: Date, months: int)
    requires date.year >= 100 && months >= 0
    ensures AddMonths(date, months) ==
      var target := Ymd(date.year + (date.month - 1 + months) / 12, (date.month - 1 + months) % 12 + 1, 1);
      Ymd(target.year, target.month, Min(date.day, MonthLength(target.year, target.month)))
  {
  }

  /** Shifting by zero months returns the date itself, except for years 0
      to 99, which `Date.UTC` moves into the 1900s. */
  lemma AddMonthsZero(date: Date)
    requires !(0 <= date.year <= 99)
    ensures AddMonths(date, 0) == date
  {
    var r := AddMonths(date, 0);
    assert (date.month - 1) / 12 == 0 && (date.month - 1) % 12 == date.month - 1;
    assert r.year == date.year && r.month == date.month;
    assert DaysInMonth(r.year, r.month - 1) == MonthLength(date.year, date.month);
  }

  /** The clamping at a month end: January 31 plus one month is February 29
      in a leap year and February 28 otherwise, in every year `Date.UTC`
      leaves alone (all but 0 to 99). */
  lemma AddMonthsClampsToMonthEnd(y: int)
    requires !(0 <= y <= 99)
    ensures AddMonths(Ymd(y, 1, 31), 1) == Ymd(y, 2, if IsLeapYear(y) then 29 else 28)
  {
    if y >= 100 {
      AddMonthsGregorian(Ymd(y, 1, 31), 1);
    }
  }

  /** Shifting forward never moves a date earlier, and a shift of at least
      one month moves it strictly later. */
  lemma AddMonthsNotEarlier(date: Date, months: int)
    requires months >= 0
    ensures Lte(date, AddMonths(date, months))
    ensures months >= 1 ==> Lt(date, AddMonths(date, months))
  {
    var r := AddMonths(date, months);
    ComparisonsAreCalendarOrder(date, r);
    var idx := date.year * 12 + date.month - 1;
    assert r.year * 12 + r.month - 1 == UtcYear(date.year) * 12 + date.month - 1 + months;
    if r.year * 12 + r.month - 1 == idx {
      assert r.year == date.year && r.month == date.month;
    }
  }

  // ------------------------------------------------------------ day counting

  /** `diffDays(a, b)`: the millisecond difference in days, rounded, floored
      at zero. It is the day-count difference when `a <= b` and zero
      otherwise: a floor, not an absolute value. */
  function DiffDays(a: Date, b: Date): (n: int)
    ensures n == if Lte(a, b) then EpochDay(b) - EpochDay(a) else 0
  {
    var ms := GetTime(b) - GetTime(a);
    assert ms as real / MsPerDay as real == (EpochDay(b) - EpochDay(a)) as real;
    Max(0, Round(ms as real / MsPerDay as real))
  }

  /** The next calendar day. */
  function NextDay(d: Date): (r: Date)
    ensures EpochDay(r) == EpochDay(d) + 1
  {
    if d.day < MonthLength(d.year, d.month) then Ymd(d.year, d.month, d.day + 1)
    else
      NextMonthStart(d.year, d.month);
      NextMonthFirst(d.year, d.month)
  }

  /** The date `k` calendar days after `d`, stepping one day at a time. */
  function DaysLater(d: Date, k: nat): (r: Date)
    ensures EpochDay(r) == EpochDay(d) + k
    decreases k
  {
    if k == 0 then d else DaysLater(NextDay(d), k - 1)
  }

  /** `diffDays(a, b)` counts the calendar days from `a` to `b`: stepping
      that many days from `a` reaches `b`. From a later date it is 0, and
      from a date to itself it is 0. */
  lemma DiffDaysCountsCalendarDays(a: Date, b: Date)
    ensures DiffDays(a, b) >= 0 && DiffDays(a, a) == 0
    ensures Lte(a, b) ==> DaysLater(a, DiffDays(a, b)) == b
    ensures Lt(b, a) ==> DiffDays(a, b) == 0
  {
    if Lte(a, b) {
      EpochDayOrder(DaysLater(a, DiffDays(a, b)), b);
    }
  }

  // ---------------------------------------------------------------- text

  /** `parseDate(str)`: `null` for an empty string, for fewer than three
      `-`-separated fields, or when a field's `parseInt` is `NaN` or 0;
      otherwise `Date.UTC(y, m - 1, d)`, which normalises an out-of-range
      month or day. */
  function ParseDate(s: string): Option<Date>
  {
    if s == "" then None
    else
      var parts := Split(s, '-');
      if |parts| < 3 then None
      else
        var y, m, d := ParseInt(parts[0]), ParseInt(parts[1]), ParseInt(parts[2]);
        if y == None || y == Some(0) || m == None || m == Some(0) || d == None || d == Some(0) then None
        else Some(DateUtc(y.value, m.value - 1, d.value))
  }

  /** `toInputValue(date)`: `YYYY-MM-DD`, the year unpadded, month and day
      padded to two digits. */
  function ToInputValue(d: Date): string {
    IntToString(d.year) + "-" + PadStart2(NatToString(d.month)) + "-" + PadStart2(NatToString(d.day))
  }

  /** Writing a date and parsing it back gives the same date for every year
      from 100 on. Years 1 to 99 come back in the 1900s (the text has no
      leading zeros and `Date.UTC` reads them as two-digit years); years 0
      and below do not parse. */
  lemma ParseDateOfInputValue(d: Date)
    ensures d.year >= 100 ==> ParseDate(ToInputValue(d)) == Some(d)
    ensures 1 <= d.year <= 99 ==> ParseDate(ToInputValue(d)) == Some(Ymd(d.year + 1900, d.month, d.day))
    ensures d.year <= 0 ==> ParseDate(ToInputValue(d)) == None
  {
    if d.year >= 0 {
      ParseInputValueFields(d);
      if d.year != 0 {
        DateUtcOfCalendarDate(d);
      }
    } else {
      var s := ToInputValue(d);
      assert s[0] == '-';
      assert Split(s, '-')[0] == "";
    }
  }

  /** `Date.UTC` rebuilds a calendar date from its own fields, up to the
      two-digit year rule. */
  lemma DateUtcOfCalendarDate(d: Date)
    requires d.year != 0
    ensures DateUtc(d.year, d.month - 1, d.day) == Ymd(UtcYear(d.year), d.month, d.day)
  {
    assert (d.month - 1) / 12 == 0 && (d.month - 1) % 12 == d.month - 1;
    UtcYearMonthLength(d.year, d.month);
  }

  /** The three fields of `toInputValue` parse back to year, month and day. */
  lemma ParseInputValueFields(d: Date)
    requires d.year >= 0
    ensures ParseDate(ToInputValue(d)) == if d.year == 0 then None else Some(DateUtc(d.year, d.month - 1, d.day))
  {
    var ys, ms, ds := NatToString(d.year), PadStart2(NatToString(d.month)), PadStart2(NatToString(d.day));
    var s := ToInputValue(d);
    assert s == ys + ['-'] + ms + ['-'] + ds;
    SplitThree(ys, ms, ds, '-');
    var parts := Split(s, '-');
    assert parts == [ys, ms, ds];
    DigitsValueOfNatToString(d.year);
    ParseIntOfDigits(ys);
    assert ParseInt(parts[0]) == Some(d.year);
    ParseIntPadded(d.month);
    assert ParseInt(parts[1]) == Some(d.month);
    ParseIntPadded(d.day);
    assert ParseInt(parts[2]) == Some(d.day);
    assert |s| > 0;
  }

  /** `parseDate` on text with three `-`-separated fields `a`, `b`, `c`: a
      date exactly when every field parses to a non-zero number, and then
      `Date.UTC` of those numbers. Two fields, or the empty string, give
      `null`. */
  lemma ParseDateFields(a: string, b: string, c: string)
    requires '-' !in a && '-' !in b && '-' !in c
    ensures ParseDate("") == None
    ensures ParseDate(a) == None
    ensures ParseDate(a + "-" + b) == None
    ensures var y, m, d := ParseInt(a), ParseInt(b), ParseInt(c);
      ParseDate(a + "-" + b + "-" + c) ==
        if y.Some? && y.value != 0 && m.Some? && m.value != 0 && d.Some? && d.value != 0
        then Some(DateUtc(y.value, m.value - 1, d.value))
        else None
  {
    SplitWithoutSeparator(a, '-');
    SplitAtSeparator(a, b, '-');
    SplitWithoutSeparator(b, '-');
    assert Split(a + "-" + b, '-') == [a, b];
    SplitThree(a, b, c, '-');
    assert a + "-" + b + "-" + c == a + ['-'] + b + ['-'] + c;
    assert |a + "-" + b + "-" + c| > 0;
  }
}
