/**
 * Naive dates and date-times of the proleptic Gregorian calendar, as Python's `datetime`
 * module defines them: years 1 to 9999, day numbers ("ordinals") counted from 0001-01-01,
 * which is day 1 and a Monday.
 */
module Dates {

  const MinYear: int := 1
  const MaxYear: int := 9999

  datatype Date = Date(year: int, month: int, day: int)

  predicate IsLeap(y: int) {
    y % 4 == 0 && (y % 100 != 0 || y % 400 == 0)
  }

  function DaysInMonth(y: int, m: int): int
    requires 1 <= m <= 12
  {
    if m == 2 then (if IsLeap(y) then 29 else 28)
    else if m == 4 || m == 6 || m == 9 || m == 11 then 30
    else 31
  }

  predicate ValidDate(d: Date) {
    && MinYear <= d.year <= MaxYear
    && 1 <= d.month <= 12
    && 1 <= d.day <= DaysInMonth(d.year, d.month)
  }

  /** A `datetime.date` value. */
  type CivilDate = d: Date | ValidDate(d) witness Date(MinYear, 1, 1)

  /** A naive `datetime.datetime` value: a date and a time of day to the microsecond. */
  datatype DateTime = DateTime(date: Date, hour: int, minute: int, second: int, microsecond: int)

  predicate ValidDateTime(t: DateTime) {
    && ValidDate(t.date)
    && 0 <= t.hour < 24
    && 0 <= t.minute < 60
    && 0 <= t.second < 60
    && 0 <= t.microsecond < 1000000
  }

  type Timestamp = t: DateTime | ValidDateTime(t) witness DateTime(Date(MinYear, 1, 1), 0, 0, 0, 0)

  /** Days in the years before year `y`. */
  function DaysBeforeYear(y: int): int
    requires y >= 1
  {
    var p := y - 1;
    p * 365 + p / 4 - p / 100 + p / 400
  }

  /** Days in the months of year `y` before month `m`. */
  function DaysBeforeMonth(y: int, m: int): int
    requires 1 <= m <= 12
  {
    var common :=
      if m == 1 then 0 else if m == 2 then 31 else if m == 3 then 59
      else if m == 4 then 90 else if m == 5 then 120 else if m == 6 then 151
      else if m == 7 then 181 else if m == 8 then 212 else if m == 9 then 243
      else if m == 10 then 273 else if m == 11 then 304 else 334;
    common + if m > 2 && IsLeap(y) then 1 else 0
  }

  /** `date.toordinal()`: 0001-01-01 is day 1. */
  function Ordinal(d: CivilDate): (n: int)
    ensures n >= 1
    ensures n == 1 <==> d == Date(MinYear, 1, 1)
  {
    DaysBeforeYear(d.year) + DaysBeforeMonth(d.year, d.month) + d.day
  }

  /** `date.weekday()`: Monday is 0 and Sunday is 6. */
  function Weekday(d: CivilDate): (w: int)
    ensures 0 <= w < 7
    ensures d == Date(MinYear, 1, 1) ==> w == 0
  {
    (Ordinal(d) + 6) % 7
  }

  lemma DaysBeforeMonthStep(y: int, m: int)
    requires 2 <= m <= 12
    ensures DaysBeforeMonth(y, m) == DaysBeforeMonth(y, m - 1) + DaysInMonth(y, m - 1)
  {
  }

  /** The number of multiples of 4, 100 and 400 up to `q` each step up exactly at a multiple. */
  lemma DivStep4(q: int)
    requires q >= 0
    ensures (q + 1) / 4 == q / 4 + (if (q + 1) % 4 == 0 then 1 else 0)
  {
  }

  lemma DivStep100(q: int)
    requires q >= 0
    ensures (q + 1) / 100 == q / 100 + (if (q + 1) % 100 == 0 then 1 else 0)
  {
  }

  lemma DivStep400(q: int)
    requires q >= 0
    ensures (q + 1) / 400 == q / 400 + (if (q + 1) % 400 == 0 then 1 else 0)
  {
  }

  /** Year `y` adds one leap day to the count exactly when it is a leap year. */
  lemma LeapDayCount(y: int)
    requires y >= 1
    ensures (if y % 4 == 0 then 1 else 0) - (if y % 100 == 0 then 1 else 0) + (if y % 400 == 0 then 1 else 0)
      == if IsLeap(y) then 1 else 0
  {
    if y % 100 == 0 {
      assert y % 4 == 0;
    }
    if y % 400 == 0 {
      assert y % 100 == 0;
    }
  }

  lemma DaysBeforeYearStep(y: int)
    requires y >= 2
    ensures DaysBeforeYear(y) == DaysBeforeYear(y - 1) + DaysBeforeMonth(y - 1, 12) + 31
  {
    var p := y - 2;
    DivStep4(p);
    DivStep100(p);
    DivStep400(p);
    LeapDayCount(p + 1);
    assert DaysBeforeYear(y) == DaysBeforeYear(y - 1) + 365 + if IsLeap(y - 1) then 1 else 0;
    assert DaysBeforeMonth(y - 1, 12) == 334 + if IsLeap(y - 1) then 1 else 0;
  }

  /** The day before `d`. */
  function PrevDay(d: CivilDate): (p: CivilDate)
    requires d != Date(MinYear, 1, 1)
    ensures Ordinal(p) == Ordinal(d) - 1
  {
    if d.day > 1 then
      Date(d.year, d.month, d.day - 1)
    else if d.month > 1 then
      DaysBeforeMonthStep(d.year, d.month);
      Date(d.year, d.month - 1, DaysInMonth(d.year, d.month - 1))
    else
      DaysBeforeYearStep(d.year);
      Date(d.year - 1, 12, 31)
  }

  /** The day before a given day falls on the previous weekday. */
  lemma PrevDayWeekday(d: CivilDate)
    requires d != Date(MinYear, 1, 1)
    ensures Weekday(PrevDay(d)) == (Weekday(d) + 6) % 7
  {
    WeekdayStep(Ordinal(d));
  }

  lemma WeekdayStep(o: int)
    ensures (o - 1 + 6) % 7 == ((o + 6) % 7 + 6) % 7
  {
  }

  /** `t - timedelta(days=n)`: the date moves back `n` days and the time of day is kept. */
  function SubtractDays(t: Timestamp, n: nat): (r: Timestamp)
    requires n < Ordinal(t.date)
    ensures Ordinal(r.date) == Ordinal(t.date) - n
    ensures r == t.(date := r.date)
    decreases n
  {
    if n == 0 then t else SubtractDays(t.(date := PrevDay(t.date)), n - 1)
  }

  /** `t.date()`: the calendar date of a timestamp, the key of a day bucket. */
  function DayKey(t: Timestamp): CivilDate {
    t.date
  }

  /** Stepping back `w` days from weekday `w` reaches a Monday, never before day 1. */
  lemma WeekStart(o: int, w: int)
    requires o >= 1 && w == (o + 6) % 7
    ensures 0 <= w < o && w <= 6
    ensures (o - w + 6) % 7 == 0
  {
  }

  /** `(t - timedelta(days=t.weekday())).date()`: the Monday starting the week of `t`. */
  function WeekKey(t: Timestamp): (k: CivilDate)
    ensures Weekday(k) == 0
    ensures Ordinal(k) <= Ordinal(t.date) <= Ordinal(k) + 6
  {
    var o, w := Ordinal(t.date), Weekday(t.date);
    WeekStart(o, w);
    var r := SubtractDays(t, w);
    r.date
  }

  /** `t.date().replace(day=1)`: the first day of the month of `t`. */
  function MonthKey(t: Timestamp): (k: CivilDate)
    ensures k.year == t.date.year && k.month == t.date.month && k.day == 1
    ensures Ordinal(k) <= Ordinal(t.date) < Ordinal(k) + DaysInMonth(k.year, k.month)
  {
    t.date.(day := 1)
  }
}
