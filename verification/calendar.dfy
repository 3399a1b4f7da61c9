/** Calendar dates as the Date object's getters see them (UTC is assumed): year, zero-based
    month, day of month and milliseconds into the day, with the day-overflow normalisation
    that setMonth, setFullYear and the Date(y, m, d) constructor perform. */
module Calendar {

  const MsPerDay: int := 86400000

  predicate IsLeapYear(y: int) {
    y % 4 == 0 && (y % 100 != 0 || y % 400 == 0)
  }

  /** Length of month m (0 = January) of year y. */
  function DaysInMonth(y: int, m: int): (n: int)
    requires 0 <= m < 12
    ensures 28 <= n <= 31
  {
    if m == 1 then (if IsLeapYear(y) then 29 else 28)
    else if m == 3 || m == 5 || m == 8 || m == 10 then 30
    else 31
  }

  /** A date: `month` is zero-based as getMonth() returns it, `time` is the time of day in ms. */
  datatype DateTime = DateTime(year: int, month: int, day: int, time: int)

  predicate Valid(d: DateTime) {
    0 <= d.month < 12 && 1 <= d.day <= DaysInMonth(d.year, d.month) && 0 <= d.time < MsPerDay
  }

  /** Months since year 0, January. */
  function MonthIndex(d: DateTime): int {
    d.year * 12 + d.month
  }

  /** A day number that is increasing along the calendar (31 slots per month, some unused). */
  function DaySlot(d: DateTime): int {
    MonthIndex(d) * 31 + d.day - 1
  }

  /** A key with the same order as the instants the dates denote. It models `a < b` on Date
      objects, and the sign of `a - b` in a sort comparator, but not the size of `a - b`:
      across a month boundary the key skips the unused day slots. */
  function Ordinal(d: DateTime): int {
    DaySlot(d) * MsPerDay + d.time
  }

  predicate Before(a: DateTime, b: DateTime) {
    Ordinal(a) < Ordinal(b)
  }

  /** A date before another is in the same month or an earlier one. */
  lemma BeforeMonthIndex(a: DateTime, b: DateTime)
    requires Valid(a) && Valid(b)
    requires !Before(b, a)
    ensures MonthIndex(a) <= MonthIndex(b)
  {}

  /** Distinct valid dates have distinct keys, so the order on keys is total on dates. */
  lemma OrdinalInjective(a: DateTime, b: DateTime)
    requires Valid(a) && Valid(b)
    requires Ordinal(a) == Ordinal(b)
    ensures a == b
  {}

  /** The date `new Date(y, m, d)` denotes (with time of day t), for a month index m that may
      be out of range (it carries into the year) and a day 0..31 (0 is the last day of the
      previous month; a day past the month's end spills into the next month). */
  function MakeDate(y: int, m: int, d: int, t: int): (r: DateTime)
    requires 0 <= d <= 31 && 0 <= t < MsPerDay
    ensures Valid(r)
    ensures r.time == t
  {
    var ym := y + m / 12;
    var mm := m % 12;
    if d == 0 then
      var py := if mm == 0 then ym - 1 else ym;
      var pm := if mm == 0 then 11 else mm - 1;
      DateTime(py, pm, DaysInMonth(py, pm), t)
    else if d <= DaysInMonth(ym, mm) then DateTime(ym, mm, d, t)
    else if mm == 11 then DateTime(ym + 1, 0, d - DaysInMonth(ym, mm), t)
    else DateTime(ym, mm + 1, d - DaysInMonth(ym, mm), t)
  }

  lemma MonthCarry(y: int, m: int)
    ensures (y + m / 12) * 12 + m % 12 == y * 12 + m
  {}

  /** `date.setMonth(date.getMonth() + k)`. */
  function AddMonths(dt: DateTime, k: int): (r: DateTime)
    requires Valid(dt)
    ensures Valid(r)
    ensures r.time == dt.time
    ensures
      var target := MonthIndex(dt) + k;
      var dim := DaysInMonth(target / 12, target % 12);
      if dt.day <= dim then MonthIndex(r) == target && r.day == dt.day
      else MonthIndex(r) == target + 1 && r.day == dt.day - dim
  {
    MonthCarry(dt.year, dt.month + k);
    assert (dt.year + (dt.month + k) / 12) == (MonthIndex(dt) + k) / 12;
    MakeDate(dt.year, dt.month + k, dt.day, dt.time)
  }

  /** `date.setFullYear(date.getFullYear() + k)`. */
  function AddYears(dt: DateTime, k: int): (r: DateTime)
    requires Valid(dt)
    ensures Valid(r)
    ensures r.time == dt.time
    ensures dt.day <= DaysInMonth(dt.year + k, dt.month) ==> r == DateTime(dt.year + k, dt.month, dt.day, dt.time)
    ensures dt.day > DaysInMonth(dt.year + k, dt.month) ==> r == DateTime(dt.year + k, 2, 1, dt.time)
  {
    MakeDate(dt.year + k, dt.month, dt.day, dt.time)
  }

  /** Stepping forward by a positive number of months or years always moves strictly later. */
  lemma AddMonthsMovesLater(dt: DateTime, k: int)
    requires Valid(dt) && k >= 1
    ensures Before(dt, AddMonths(dt, k))
    ensures MonthIndex(AddMonths(dt, k)) >= MonthIndex(dt) + k
  {
    var r := AddMonths(dt, k);
    assert DaySlot(r) > DaySlot(dt);
  }

  lemma AddYearsMovesLater(dt: DateTime, k: int)
    requires Valid(dt) && k >= 1
    ensures Before(dt, AddYears(dt, k))
    ensures MonthIndex(AddYears(dt, k)) >= MonthIndex(dt) + 12 * k
  {
    var r := AddYears(dt, k);
    assert DaySlot(r) > DaySlot(dt);
  }

  /** Month steps do not compose: 31 January plus one month is 3 March (2025 is not a leap
      year), and one more month gives 3 April, whereas adding two months at once gives 31 March. */
  lemma MonthStepsDrift()
    ensures AddMonths(DateTime(2025, 0, 31, 0), 1) == DateTime(2025, 2, 3, 0)
    ensures AddMonths(AddMonths(DateTime(2025, 0, 31, 0), 1), 1) == DateTime(2025, 3, 3, 0)
    ensures AddMonths(DateTime(2025, 0, 31, 0), 2) == DateTime(2025, 2, 31, 0)
  {
    assert DaysInMonth(2025, 1) == 28;
  }

  /** `new Date(y, m + 1, 0)`: the last day of month m, at midnight. */
  function EndOfMonth(dt: DateTime): (r: DateTime)
    requires Valid(dt)
    ensures Valid(r)
    ensures MonthIndex(r) == MonthIndex(dt) && r.day == DaysInMonth(dt.year, dt.month) && r.time == 0
    ensures !Before(r, DateTime(dt.year, dt.month, dt.day, 0))
  {
    MonthCarry(dt.year, dt.month + 1);
    MakeDate(dt.year, dt.month + 1, 0, 0)
  }

  /** `new Date(y, m - i, 1)`: the first day of the month i months before dt's month, at midnight. */
  function MonthStart(dt: DateTime, i: int): (r: DateTime)
    requires Valid(dt)
    ensures Valid(r)
    ensures MonthIndex(r) == MonthIndex(dt) - i && r.day == 1 && r.time == 0
  {
    MonthCarry(dt.year, dt.month - i);
    MakeDate(dt.year, dt.month - i, 1, 0)
  }
}
