/**
 * The proleptic Gregorian calendar and the parts of JavaScript's local-time
 * `Date` that the page script uses: the `new Date(y, m, d)` constructor with
 * its month and day overflow, `getDay`, `setDate`, `setHours`, and the
 * `toDateInput`/`fromDateInput` conversions to and from "YYYY-MM-DD".
 * Time zones and daylight saving are not modelled: a day is always 24 hours.
 */
module Calendar {
  import opened Wrappers
  import opened Text

  /** A calendar day; month runs 1..12 (JavaScript's `getMonth()` is month - 1). */
  datatype CivilDate = CivilDate(year: int, month: int, day: int)

  predicate IsLeap(y: int) {
    y % 4 == 0 && (y % 100 != 0 || y % 400 == 0)
  }

  function MonthLength(y: int, m: int): (n: int)
    requires 1 <= m <= 12
    ensures 28 <= n <= 31
  {
    if m == 2 then (if IsLeap(y) then 29 else 28)
    else if m == 4 || m == 6 || m == 9 || m == 11 then 30
    else 31
  }

  predicate ValidDate(d: CivilDate) {
    1 <= d.month <= 12 && 1 <= d.day <= MonthLength(d.year, d.month)
  }

  /** Days from 0000-01-01 to the first of January of year y. */
  function DaysBeforeYear(y: int): int {
    365 * y + (y + 3) / 4 - (y + 99) / 100 + (y + 399) / 400
  }

  /** Days from the first of January to the first of month m of year y. */
  function DaysBeforeMonth(y: int, m: int): int
    requires 1 <= m <= 12
  {
    var leap := if IsLeap(y) then 1 else 0;
    if m == 1 then 0
    else if m == 2 then 31
    else [59, 90, 120, 151, 181, 212, 243, 273, 304, 334][m - 3] + leap
  }

  /** Days since 0000-01-01: consecutive days have consecutive numbers. */
  function DayNumber(d: CivilDate): int
    requires 1 <= d.month <= 12
  {
    DaysBeforeYear(d.year) + DaysBeforeMonth(d.year, d.month) + d.day - 1
  }

  lemma YearStep(y: int)
    ensures DaysBeforeYear(y + 1) == DaysBeforeYear(y) + (if IsLeap(y) then 366 else 365)
  {
    assert (y + 4) / 4 - (y + 3) / 4 == if y % 4 == 0 then 1 else 0;
    assert (y + 100) / 100 - (y + 99) / 100 == if y % 100 == 0 then 1 else 0;
    assert (y + 400) / 400 - (y + 399) / 400 == if y % 400 == 0 then 1 else 0;
    assert y % 400 == 0 ==> y % 100 == 0 && y % 4 == 0;
    assert y % 100 == 0 ==> y % 4 == 0;
  }

  /** The first day of the month after d's month. */
  function NextMonthFirst(d: CivilDate): CivilDate {
    if d.month == 12 then CivilDate(d.year + 1, 1, 1) else CivilDate(d.year, d.month + 1, 1)
  }

  /** The last day of the month before d's month. */
  function PrevMonthLast(d: CivilDate): CivilDate
    requires 1 <= d.month <= 12
  {
    if d.month == 1 then CivilDate(d.year - 1, 12, 31)
    else CivilDate(d.year, d.month - 1, MonthLength(d.year, d.month - 1))
  }

  lemma NextMonthStep(d: CivilDate)
    requires 1 <= d.month <= 12
    ensures ValidDate(NextMonthFirst(d))
    ensures DayNumber(NextMonthFirst(d)) == DayNumber(CivilDate(d.year, d.month, 1)) + MonthLength(d.year, d.month)
  {
    if d.month == 12 {
      YearStep(d.year);
    }
  }

  lemma PrevMonthStep(d: CivilDate)
    requires 1 <= d.month <= 12
    ensures ValidDate(PrevMonthLast(d))
    ensures DayNumber(PrevMonthLast(d)) == DayNumber(CivilDate(d.year, d.month, 1)) - 1
  {
    if d.month == 1 {
      YearStep(d.year - 1);
    }
  }

  /** The day n days after d (before it when n is negative). */
  function AddDays(d: CivilDate, n: int): (r: CivilDate)
    requires ValidDate(d)
    ensures ValidDate(r) && DayNumber(r) == DayNumber(d) + n
    decreases if n < 0 then -n else n
  {
    var day := d.day + n;
    var len := MonthLength(d.year, d.month);
    if 1 <= day <= len then CivilDate(d.year, d.month, day)
    else if day > len then
      NextMonthStep(d);
      AddDays(NextMonthFirst(d), day - len - 1)
    else
      PrevMonthStep(d);
      AddDays(PrevMonthLast(d), day)
  }

  lemma {:induction false} DayNumberInjective(a: CivilDate, b: CivilDate)
    requires ValidDate(a) && ValidDate(b) && DayNumber(a) == DayNumber(b)
    ensures a == b
  {
    if a.year != b.year || a.month != b.month {
      var (lo, hi) := if (a.year, a.month) == (b.year, b.month) then (a, b)
        else if a.year < b.year || (a.year == b.year && a.month < b.month) then (a, b) else (b, a);
      DayNumberMonthOrder(lo, hi);
    }
  }

  /** A date in an earlier month has a smaller day number. */
  lemma {:induction false} DayNumberMonthOrder(a: CivilDate, b: CivilDate)
    requires ValidDate(a) && ValidDate(b)
    requires a.year < b.year || (a.year == b.year && a.month < b.month)
    ensures DayNumber(a) < DayNumber(b)
    decreases b.year - a.year, 12 - a.month
  {
    var next := NextMonthFirst(a);
    NextMonthStep(a);
    if next.year == b.year && next.month == b.month {
    } else {
      DayNumberMonthOrder(next, b);
    }
  }

  /** JavaScript's `getDay()`: 0 is Sunday, 1 is Monday, ..., 6 is Saturday. */
  function Weekday(d: CivilDate): (w: int)
    requires 1 <= d.month <= 12
    ensures 0 <= w < 7
  {
    (DayNumber(d) + 6) % 7
  }

  /** The Date constructor reads a year in 0..99 as 1900 + year. */
  function MapYear(y: int): int {
    if 0 <= y <= 99 then 1900 + y else y
  }

  /**
   * The calendar day of `new Date(y, m0, d)`: m0 is a zero-based month
   * index and both m0 and d may lie outside their usual range.
   */
  function MakeDate(y: int, m0: int, d: int): (r: CivilDate)
    ensures ValidDate(r)
    ensures DayNumber(r) == DayNumber(CivilDate(MapYear(y) + m0 / 12, m0 % 12 + 1, 1)) + d - 1
  {
    AddDays(CivilDate(MapYear(y) + m0 / 12, m0 % 12 + 1, 1), d - 1)
  }

  /** A JavaScript `Date`: a calendar day and the milliseconds into it. */
  datatype JsDate = JsDate(date: CivilDate, ms: int)

  const MsPerDay: int := 86400000

  predicate ValidJsDate(t: JsDate) {
    ValidDate(t.date) && 0 <= t.ms < MsPerDay
  }

  /** `t.setDate(x)`: day x of t's month, overflowing into neighbouring months. */
  function SetDate(t: JsDate, x: int): (r: JsDate)
    requires ValidJsDate(t)
    ensures ValidJsDate(r) && r.ms == t.ms
    ensures DayNumber(r.date) == DayNumber(t.date) + x - t.date.day
  {
    JsDate(AddDays(CivilDate(t.date.year, t.date.month, 1), x - 1), t.ms)
  }

  /** `t.setHours(h, mi, s, ms)`: the time of day, overflowing into other days. */
  function SetHours(t: JsDate, h: int, mi: int, s: int, ms: int): (r: JsDate)
    requires ValidJsDate(t)
    ensures ValidJsDate(r)
  {
    var total := ((h * 60 + mi) * 60 + s) * 1000 + ms;
    JsDate(AddDays(t.date, total / MsPerDay), total % MsPerDay)
  }

  /**
   * `startOfWeek` (app/static/script.js:52-59): the Monday that begins d's
   * week, at midnight; a Sunday belongs to the week that began six days earlier.
   */
  method StartOfWeek(d: JsDate) returns (m: JsDate)
    requires ValidJsDate(d)
    ensures ValidJsDate(m) && m.ms == 0
    ensures Weekday(m.date) == 1
    ensures DayNumber(d.date) - 7 < DayNumber(m.date) <= DayNumber(d.date)
  {
    var day := Weekday(d.date);
    var diff := if day == 0 then -6 else 1 - day;
    m := d;
    m := SetDate(m, d.date.day + diff);
    MondayOfWeek(d, m, diff);
    MidnightSameDay(m);
    m := SetHours(m, 0, 0, 0, 0);
  }

  /** Moving back to the Monday lands on a Monday of the same week. */
  lemma MondayOfWeek(d: JsDate, m: JsDate, diff: int)
    requires ValidJsDate(d) && ValidJsDate(m)
    requires diff == if Weekday(d.date) == 0 then -6 else 1 - Weekday(d.date)
    requires DayNumber(m.date) == DayNumber(d.date) + diff
    ensures Weekday(m.date) == 1
    ensures DayNumber(d.date) - 7 < DayNumber(m.date) <= DayNumber(d.date)
  {
    MondayArithmetic(DayNumber(d.date), diff, DayNumber(m.date));
  }

  /** The weekday arithmetic of startOfWeek on day numbers. */
  lemma MondayArithmetic(n: int, diff: int, mn: int)
    requires diff == if (n + 6) % 7 == 0 then -6 else 1 - (n + 6) % 7
    requires mn == n + diff
    ensures (mn + 6) % 7 == 1 && n - 7 < mn <= n
  {
    ModSevenShift(n + 6, diff);
  }

  /** `setHours(0, 0, 0, 0)` keeps the day and goes to midnight. */
  lemma MidnightSameDay(t: JsDate)
    requires ValidJsDate(t)
    ensures SetHours(t, 0, 0, 0, 0) == JsDate(t.date, 0)
  {
    assert AddDays(t.date, 0) == t.date;
  }

  lemma ModSevenShift(k: int, n: int)
    ensures (k + n) % 7 == (k % 7 + n) % 7
  {
    var q, r := k / 7, k % 7;
    assert k == 7 * q + r;
    var q2, r2 := (r + n) / 7, (r + n) % 7;
    assert r + n == 7 * q2 + r2 && 0 <= r2 < 7;
    assert k + n == 7 * (q + q2) + r2;
  }

  /**
   * `addMinutes(d, m)` (app/static/script.js:49-51): midnight of d's day plus m
   * minutes, through the Date constructor (so a year in 0..99 is remapped).
   */
  function AddMinutes(t: JsDate, minutes: int): (r: JsDate)
    ensures ValidJsDate(r)
  {
    JsDate(MakeDate(t.date.year, t.date.month - 1, t.date.day + minutes / 1440), (minutes % 1440) * 60000)
  }

  /** For a year of at least 100, addMinutes moves by whole days exactly. */
  lemma AddMinutesWholeDays(t: JsDate, days: int)
    requires ValidDate(t.date) && t.date.year >= 100
    ensures AddMinutes(t, days * 1440).ms == 0
    ensures DayNumber(AddMinutes(t, days * 1440).date) == DayNumber(t.date) + days
  {
    WholeDayMinutes(days);
    MonthStart(t.date);
  }

  lemma WholeDayMinutes(days: int)
    ensures (days * 1440) / 1440 == days && (days * 1440) % 1440 == 0
  {
    var q, r := (days * 1440) / 1440, (days * 1440) % 1440;
    assert (days - q) * 1440 == r && 0 <= r < 1440;
  }

  /** From year 100 on, the Date constructor takes year and month as given. */
  lemma MonthStart(c: CivilDate)
    requires ValidDate(c) && c.year >= 100
    ensures MapYear(c.year) == c.year && (c.month - 1) / 12 == 0 && (c.month - 1) % 12 + 1 == c.month
    ensures DayNumber(c) == DayNumber(CivilDate(c.year, c.month, 1)) + c.day - 1
  {
  }

  /** `toDateInput` (app/static/script.js:35-37): "YYYY-MM-DD" of a Date. */
  function ToDateInput(t: JsDate): string {
    IntToString(t.date.year) + "-" + Pad2(t.date.month) + "-" + Pad2(t.date.day)
  }

  /**
   * `fromDateInput` (app/static/script.js:38-41): split on "-", read three
   * numbers and build `new Date(y, m - 1, d)`; `None` is an Invalid Date.
   */
  function FromDateInput(s: string): (r: Option<JsDate>)
    ensures r.Some? ==> ValidJsDate(r.value) && r.value.ms == 0
  {
    var parts := Split(s, '-');
    var y, m, d := NumberAt(parts, 0), NumberAt(parts, 1), NumberAt(parts, 2);
    if y.None? || m.None? || d.None? then None
    else Some(JsDate(MakeDate(y.value, m.value - 1, d.value), 0))
  }

  /** "YYYY-MM-DD" read back gives the same day, at midnight, from year 100 on. */
  lemma DateInputRoundTrip(t: JsDate)
    requires ValidDate(t.date) && t.date.year >= 100
    ensures FromDateInput(ToDateInput(t)) == Some(JsDate(t.date, 0))
  {
    DateInputParts(t);
    DigitsValueOfNat(t.date.year);
    Pad2Value(t.date.month);
    Pad2Value(t.date.day);
    MakeDateOfCivil(t.date);
  }

  /** "YYYY-MM-DD" splits at "-" into the year, the month and the day. */
  lemma DateInputParts(t: JsDate)
    requires ValidDate(t.date) && t.date.year >= 100
    ensures Split(ToDateInput(t), '-') == [IntToString(t.date.year), Pad2(t.date.month), Pad2(t.date.day)]
  {
    var y, mo, dd := IntToString(t.date.year), Pad2(t.date.month), Pad2(t.date.day);
    DigitsValueOfNat(t.date.year);
    Pad2Value(t.date.month);
    Pad2Value(t.date.day);
    DigitsHaveNoSeparators(y);
    DigitsHaveNoSeparators(mo);
    DigitsHaveNoSeparators(dd);
    assert ToDateInput(t) == y + ['-'] + (mo + ['-'] + dd);
    SplitJoin(y, '-', mo + ['-'] + dd);
    SplitJoin(mo, '-', dd);
    SplitNone(dd, '-');
  }

  /** From year 100 on, `new Date(y, m - 1, d)` of a valid date is that date. */
  lemma MakeDateOfCivil(c: CivilDate)
    requires ValidDate(c) && c.year >= 100
    ensures MakeDate(c.year, c.month - 1, c.day) == c
  {
    MonthStart(c);
    DayNumberInjective(MakeDate(c.year, c.month - 1, c.day), c);
  }

  /**
   * `daysInMonth(year, month)` (app/static/script.js:779): the day number of
   * `new Date(year, month + 1, 0)`, the last day of the zero-based month.
   */
  function DaysInMonth(year: int, month: int): (n: int)
    ensures 1 <= n <= 31
  {
    MakeDate(year, month + 1, 0).day
  }

  /** daysInMonth is the length of the month the constructor lands in. */
  lemma DaysInMonthIsMonthLength(year: int, month: int)
    ensures DaysInMonth(year, month) == MonthLength(MapYear(year) + month / 12, month % 12 + 1)
  {
    var here := CivilDate(MapYear(year) + month / 12, month % 12 + 1, 1);
    var next := CivilDate(MapYear(year) + (month + 1) / 12, (month + 1) % 12 + 1, 1);
    assert next == NextMonthFirst(here);
    var last := CivilDate(here.year, here.month, MonthLength(here.year, here.month));
    NextMonthStep(here);
    DayNumberInjective(MakeDate(year, month + 1, 0), last);
  }

  /**
   * `firstWeekday(year, month)` (app/static/script.js:780): the weekday of the
   * first of the month, counted from Monday as 0.
   */
  function FirstWeekday(year: int, month: int): (w: int)
    ensures 0 <= w < 7
    ensures (w + 1) % 7 == Weekday(MakeDate(year, month, 1))
  {
    (Weekday(MakeDate(year, month, 1)) + 6) % 7
  }

  /** January 2025 begins on a Wednesday and has 31 days. */
  lemma January2025()
    ensures Weekday(MakeDate(2025, 0, 1)) == 3
    ensures FirstWeekday(2025, 0) == 2 && DaysInMonth(2025, 0) == 31
  {
    var first := CivilDate(2025, 1, 1);
    assert DaysBeforeYear(2025) == 739617;
    DayNumberInjective(MakeDate(2025, 0, 1), first);
    DaysInMonthIsMonthLength(2025, 0);
  }

  /** 1970-01-01, day 0 of JavaScript time, was a Thursday. */
  lemma EpochIsThursday()
    ensures Weekday(CivilDate(1970, 1, 1)) == 4
  {
  }
}
