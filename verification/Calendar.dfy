/**
 Days since 1970-01-01: `days_from_civil` of
 `crates/zero-cache-change-source/src/pg_to_change.rs`, against counting day by day in the
 proleptic Gregorian calendar.
 */
module Calendar {

  datatype Date = Date(year: int, month: int, day: int)

  // ---- The calendar ----------------------------------------------------------

  predicate Leap(year: int) {
    year % 4 == 0 && (year % 100 != 0 || year % 400 == 0)
  }

  function DaysInMonth(year: int, month: int): int {
    if month == 2 then if Leap(year) then 29 else 28
    else if month == 4 || month == 6 || month == 9 || month == 11 then 30
    else 31
  }

  predicate Valid(d: Date) {
    1 <= d.month <= 12 && 1 <= d.day <= DaysInMonth(d.year, d.month)
  }

  function NextDay(d: Date): (next: Date)
    requires Valid(d)
    ensures Valid(next)
  {
    if d.day < DaysInMonth(d.year, d.month) then d.(day := d.day + 1)
    else if d.month < 12 then Date(d.year, d.month + 1, 1)
    else Date(d.year + 1, 1, 1)
  }

  function PreviousDay(d: Date): (previous: Date)
    requires Valid(d)
    ensures Valid(previous) && NextDay(previous) == d
  {
    if d.day > 1 then d.(day := d.day - 1)
    else if d.month > 1 then Date(d.year, d.month - 1, DaysInMonth(d.year, d.month - 1))
    else Date(d.year - 1, 12, 31)
  }

  /** The date `n` days after the epoch, or before it, one day at a time. */
  function DayByDay(n: int): (d: Date)
    ensures Valid(d)
    decreases if n < 0 then -n else n
  {
    if n == 0 then Date(1970, 1, 1)
    else if n > 0 then NextDay(DayByDay(n - 1))
    else PreviousDay(DayByDay(n + 1))
  }

  // ---- The closed form -------------------------------------------------------

  /** Integer division that rounds toward zero. */
  function Truncated(a: int, b: int): int
    requires b > 0
  {
    if a >= 0 then a / b else -((-a) / b)
  }

  function DaysFromCivil(d: Date): int {
    var y := if d.month <= 2 then d.year - 1 else d.year;
    var era := Truncated(if y >= 0 then y else y - 399, 400);
    var yoe := y - era * 400;
    var mp := if d.month > 2 then d.month - 3 else d.month + 9;
    var doy := Truncated(153 * mp + 2, 5) + d.day - 1;
    var doe := yoe * 365 + Truncated(yoe, 4) - Truncated(yoe, 100) + doy;
    era * 146097 + doe - 719468
  }

  /** The era is the year divided by 400, rounded down. */
  lemma EraRoundsDown(y: int)
    ensures Truncated(if y >= 0 then y else y - 399, 400) == y / 400
  {
  }

  /** The days before year `r` of an era. */
  function YearStart(r: int): int {
    r * 365 + r / 4 - r / 100
  }

  /** The days before 1 March of a year. */
  function MarchFirst(y: int): int {
    (y / 400) * 146097 + YearStart(y % 400)
  }

  /** The days of the year, counted from March, before a month. */
  function MonthStart(month: int): int {
    var mp := if month > 2 then month - 3 else month + 9;
    (153 * mp + 2) / 5
  }

  /** January and February belong to the year that began the March before. */
  function MarchYear(year: int, month: int): int {
    if month <= 2 then year - 1 else year
  }

  lemma ByMarchYear(d: Date)
    requires Valid(d)
    ensures DaysFromCivil(d) == MarchCount(d)
  {
    EraRoundsDown(MarchYear(d.year, d.month));
  }

  lemma YearLength(r: int)
    requires 0 < r < 400
    ensures YearStart(r) == YearStart(r - 1) + if r % 4 == 0 && r % 100 != 0 then 366 else 365
  {
    QuotientStep(r, 4);
    QuotientStep(r, 100);
    assert r % 100 == 0 ==> r % 4 == 0;
  }

  lemma QuotientStep(r: int, k: int)
    requires k == 4 || k == 100
    ensures r / k == (r - 1) / k + if r % k == 0 then 1 else 0
  {
  }

  lemma EraStep(y: int)
    ensures if y % 400 == 0 then (y - 1) / 400 == y / 400 - 1 && (y - 1) % 400 == 399
            else (y - 1) / 400 == y / 400 && (y - 1) % 400 == y % 400 - 1
  {
  }

  lemma LeapInEra(y: int)
    ensures var r := y % 400; Leap(y) <==> r == 0 || (r % 4 == 0 && r % 100 != 0)
  {
    Remainder4(y / 400, y % 400);
    Remainder100(y / 400, y % 400);
  }

  lemma Remainder4(q: int, r: int)
    ensures (400 * q + r) % 4 == r % 4
  {
    assert 400 * q + r == 4 * (100 * q + r / 4) + r % 4;
    RemainderBy4(100 * q + r / 4, r % 4);
  }

  lemma Remainder100(q: int, r: int)
    ensures (400 * q + r) % 100 == r % 100
  {
    assert 400 * q + r == 100 * (4 * q + r / 100) + r % 100;
    RemainderBy100(4 * q + r / 100, r % 100);
  }

  lemma RemainderBy4(a: int, b: int)
    requires 0 <= b < 4
    ensures (4 * a + b) % 4 == b
  {
  }

  lemma RemainderBy100(a: int, b: int)
    requires 0 <= b < 100
    ensures (100 * a + b) % 100 == b
  {
  }

  /** From one 1 March to the next there is one more day when a leap day lies between. */
  lemma MarchYearLength(y: int)
    ensures MarchFirst(y) == MarchFirst(y - 1) + if Leap(y) then 366 else 365
  {
    EraStep(y);
    LeapInEra(y);
    if y % 400 != 0 {
      YearLength(y % 400);
    }
  }

  lemma MonthLength(year: int, month: int)
    requires 1 <= month <= 12 && month != 2
    ensures MonthStart(month) + DaysInMonth(year, month) == MonthStart(if month == 12 then 1 else month + 1)
  {
  }

  /** The count by years that begin in March. */
  function MarchCount(d: Date): int {
    MarchFirst(MarchYear(d.year, d.month)) + MonthStart(d.month) + d.day - 1 - 719468
  }

  lemma NextDayIsOneMore(d: Date)
    requires Valid(d)
    ensures DaysFromCivil(NextDay(d)) == DaysFromCivil(d) + 1
  {
    ByMarchYear(d);
    ByMarchYear(NextDay(d));
    NextMarchCount(d);
  }

  lemma NextMarchCount(d: Date)
    requires Valid(d)
    ensures MarchCount(NextDay(d)) == MarchCount(d) + 1
  {
    var next := NextDay(d);
    if d.day == DaysInMonth(d.year, d.month) {
      if d.month == 2 {
        MarchYearLength(d.year);
      } else {
        MonthLength(d.year, d.month);
        assert MarchYear(next.year, next.month) == MarchYear(d.year, d.month);
      }
    }
  }

  /** Only the epoch has no days. */
  lemma {:induction false} EpochIsZero(d: Date)
    requires Valid(d) && DaysFromCivil(d) == 0
    ensures d == Date(1970, 1, 1)
  {
    ByMarchYear(d);
    var y := MarchYear(d.year, d.month);
    assert MarchFirst(1969) == 719468 - 306;
    if y > 1969 {
      MarchFirstGrows(1969, y);
    }
    if y < 1969 {
      MarchFirstGrows(y, 1969);
    }
  }

  lemma {:induction false} MarchFirstGrows(a: int, b: int)
    requires a < b
    ensures MarchFirst(a) + 365 <= MarchFirst(b)
    decreases b - a
  {
    MarchYearLength(b);
    if a < b - 1 {
      MarchFirstGrows(a, b - 1);
    }
  }

  /** Every day count is the count of exactly one date. */
  lemma {:induction false} CountsDayByDay(n: int)
    ensures DaysFromCivil(DayByDay(n)) == n
    decreases if n < 0 then -n else n
  {
    if n > 0 {
      CountsDayByDay(n - 1);
      NextDayIsOneMore(DayByDay(n - 1));
    } else if n < 0 {
      CountsDayByDay(n + 1);
      NextDayIsOneMore(DayByDay(n));
    }
  }

  /** The closed form is the day-by-day count, for every valid date of every year. */
  lemma {:induction false} ClosedFormIsDayByDay(d: Date)
    requires Valid(d)
    ensures DayByDay(DaysFromCivil(d)) == d
    decreases var n := DaysFromCivil(d); if n < 0 then -n else n
  {
    var n := DaysFromCivil(d);
    if n == 0 {
      EpochIsZero(d);
    } else if n > 0 {
      NextDayIsOneMore(PreviousDay(d));
      ClosedFormIsDayByDay(PreviousDay(d));
    } else {
      NextDayIsOneMore(d);
      ClosedFormIsDayByDay(NextDay(d));
      PreviousOfNext(d);
    }
  }

  lemma PreviousOfNext(d: Date)
    requires Valid(d)
    ensures PreviousDay(NextDay(d)) == d
  {
  }
}
