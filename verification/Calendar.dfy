/**
 * The calendar that periods are counted in: Gregorian months, onwards and back without end, in one zone
 * without clock changes.
 */
module Calendar {
  /** Nanoseconds in a day. An instant counts them from the first of January of year 0. */
  const DAY := 86_400_000_000_000

  predicate IsLeap(year: int) {
    year % 4 == 0 && (year % 100 != 0 || year % 400 == 0)
  }

  function LengthIn(year: int, m: nat): (d: nat)
    ensures 28 <= d <= 31
  {
    if m == 1 then (if IsLeap(year) then 29 else 28)
    else if m == 3 || m == 5 || m == 8 || m == 10 then 30
    else 31
  }

  /** Months are numbered on end: twelve a year, from January of year 0. */
  function MonthLength(n: int): (d: nat)
    ensures 28 <= d <= 31
  {
    LengthIn(n / 12, n % 12)
  }

  /** The number of the month's first day. */
  function MonthStart(n: int): int
    decreases if n < 0 then -n else n
  {
    if n == 0 then 0
    else if n > 0 then MonthStart(n - 1) + MonthLength(n - 1)
    else MonthStart(n + 1) - MonthLength(n)
  }

  lemma NextStart(n: int)
    ensures MonthStart(n + 1) == MonthStart(n) + MonthLength(n)
  {
  }

  /** How many days stand before the year, by the four-, hundred- and four-hundred-year cycles. */
  function DaysBeforeYear(year: int): int {
    365 * year + (year + 3) / 4 - (year + 99) / 100 + (year + 399) / 400
  }

  /** How many days of a year stand before its month m, from the table of common years. */
  function DaysBeforeMonth(year: int, m: nat): nat
    requires m < 12
  {
    [0, 31, 59, 90, 120, 151, 181, 212, 243, 273, 304, 334][m] + if IsLeap(year) && m >= 2 then 1 else 0
  }

  lemma YearLength(year: int)
    ensures DaysBeforeYear(year + 1) == DaysBeforeYear(year) + if IsLeap(year) then 366 else 365
  {
    assert (year + 4) / 4 == (year + 3) / 4 + if year % 4 == 0 then 1 else 0;
    assert (year + 100) / 100 == (year + 99) / 100 + if year % 100 == 0 then 1 else 0;
    assert (year + 400) / 400 == (year + 399) / 400 + if year % 400 == 0 then 1 else 0;
    assert year % 400 == 0 ==> year % 100 == 0;
    assert year % 100 == 0 ==> year % 4 == 0;
  }

  lemma MonthInYear(year: int, m: nat)
    requires m < 12
    ensures m < 11 ==> DaysBeforeMonth(year, m + 1) == DaysBeforeMonth(year, m) + LengthIn(year, m)
    ensures m == 11 ==> DaysBeforeMonth(year, m) + LengthIn(year, m) == if IsLeap(year) then 366 else 365
  {
  }

  /** The first of month n by the cycles and the table. */
  function FirstByCycles(n: int): int {
    DaysBeforeYear(n / 12) + DaysBeforeMonth(n / 12, n % 12)
  }

  lemma NextFirst(n: int)
    ensures FirstByCycles(n + 1) == FirstByCycles(n) + MonthLength(n)
  {
    var (year, m) := (n / 12, n % 12);
    MonthInYear(year, m);
    if m == 11 {
      assert (n + 1) / 12 == year + 1 && (n + 1) % 12 == 0;
      YearLength(year);
    } else {
      assert (n + 1) / 12 == year && (n + 1) % 12 == m + 1;
    }
  }

  lemma NoYearsBefore(year: int)
    requires year == 0
    ensures DaysBeforeYear(year) == 0
  {
    assert (year + 3) / 4 == 0;
    assert (year + 99) / 100 == 0;
    assert (year + 399) / 400 == 0;
  }

  lemma NoMonthsBefore(year: int, m: nat)
    requires m == 0
    ensures DaysBeforeMonth(year, m) == 0
  {
  }

  lemma FirstOfAll()
    ensures FirstByCycles(0) == 0
  {
    NoYearsBefore(0);
    NoMonthsBefore(0, 0);
  }

  /** Two counts that begin alike and grow alike are alike. */
  lemma {:induction false} CountsAgree(count: int -> int, n: int)
    requires count(0) == 0 && forall k: int :: count(k + 1) == count(k) + MonthLength(k)
    ensures MonthStart(n) == count(n)
    decreases if n < 0 then -n else n
  {
    if n > 0 {
      CountsAgree(count, n - 1);
      assert count(n - 1 + 1) == count(n - 1) + MonthLength(n - 1);
    } else if n < 0 {
      CountsAgree(count, n + 1);
      assert count(n + 1) == count(n) + MonthLength(n);
    }
  }

  /** Counting month by month and counting by the cycles lead to the same first of the month. */
  lemma CyclesAgree(n: int)
    ensures MonthStart(n) == FirstByCycles(n)
  {
    FirstOfAll();
    CyclesGrow();
    CountsAgree(k => FirstByCycles(k), n);
  }

  lemma CyclesGrow()
    ensures forall k: int :: FirstByCycles(k + 1) == FirstByCycles(k) + MonthLength(k)
  {
    forall k: int ensures FirstByCycles(k + 1) == FirstByCycles(k) + MonthLength(k) { NextFirst(k); }
  }

  /** The first of January 1970 is 719528 days after that of year 0. */
  lemma EpochIsPlaced(n: int)
    requires n == 12 * 1970
    ensures MonthStart(n) == 719_528
  {
    CyclesAgree(n);
    YearsToEpoch(n / 12);
    NoMonthsBefore(n / 12, n % 12);
  }

  lemma YearsToEpoch(year: int)
    requires year == 1970
    ensures DaysBeforeYear(year) == 719_528
  {
    assert (year + 3) / 4 == 493;
    assert (year + 99) / 100 == 20;
    assert (year + 399) / 400 == 5;
  }

  /** Every four hundred years are 146097 days. */
  lemma FourHundredYears(n: int, later: int)
    requires later == n + 4800
    ensures MonthStart(later) == MonthStart(n) + 146_097
  {
    CyclesAgree(n);
    CyclesAgree(later);
    CycleOn(n, later);
    CycleFirst(n / 12, later / 12, n % 12);
  }

  lemma CycleFirst(year: int, later: int, m: nat)
    requires m < 12 && later == year + 400
    ensures DaysBeforeYear(later) + DaysBeforeMonth(later, m) == DaysBeforeYear(year) + DaysBeforeMonth(year, m) + 146_097
  {
    Cycle(year);
    SameTable(year, later, m);
  }

  lemma CycleOn(n: int, later: int)
    requires later == n + 4800
    ensures later / 12 == n / 12 + 400 && later % 12 == n % 12
  {
  }

  lemma SameTable(year: int, other: int, m: nat)
    requires m < 12 && IsLeap(year) == IsLeap(other)
    ensures DaysBeforeMonth(year, m) == DaysBeforeMonth(other, m)
  {
  }

  lemma Cycle(year: int)
    ensures DaysBeforeYear(year + 400) == DaysBeforeYear(year) + 146_097
    ensures IsLeap(year + 400) == IsLeap(year)
  {
    assert (year + 400 + 3) / 4 == (year + 3) / 4 + 100;
    assert (year + 400 + 99) / 100 == (year + 99) / 100 + 4;
    assert (year + 400 + 399) / 400 == (year + 399) / 400 + 1;
    assert (year + 400) % 4 == year % 4 && (year + 400) % 100 == year % 100 && (year + 400) % 400 == year % 400;
  }

  /** From the first of March it is (153 m + 2) / 5 days to the first of the month m months on, up to February. */
  lemma {:induction false} FromMarch(year: int, m: nat)
    requires m <= 11
    ensures MonthStart(12 * year + 2 + m) == MonthStart(12 * year + 2) + (153 * m + 2) / 5
  {
    if m > 0 {
      FromMarch(year, m - 1);
      NextStart(12 * year + 2 + (m - 1));
      OnFromMarch(year, m - 1);
    }
  }

  lemma OnFromMarch(year: int, m: nat)
    requires m < 11
    ensures (153 * (m + 1) + 2) / 5 == (153 * m + 2) / 5 + MonthLength(12 * year + 2 + m)
  {
    if m < 10 {
      assert (12 * year + 2 + m) / 12 == year && (12 * year + 2 + m) % 12 == m + 2;
    } else {
      assert (12 * year + 2 + m) / 12 == year + 1 && (12 * year + 2 + m) % 12 == 0;
    }
  }

  /** The lengths of m months from month n on, added up. */
  function DaysOver(n: int, m: nat): nat {
    if m == 0 then 0 else DaysOver(n, m - 1) + MonthLength(n + m - 1)
  }

  lemma {:induction false} MonthsOn(n: int, m: nat)
    ensures MonthStart(n + m) == MonthStart(n) + DaysOver(n, m)
  {
    if m > 0 {
      MonthsOn(n, m - 1);
      NextStart(n + m - 1);
    }
  }

  lemma {:induction false} DaysOverBounds(n: int, m: nat)
    ensures 28 * m <= DaysOver(n, m) <= 31 * m
  {
    if m > 0 { DaysOverBounds(n, m - 1); }
  }

  /** How many days lie between the firsts of two months so many months apart; less than none going back. */
  function DaysAcross(n: int, months: int): int {
    if months >= 0 then DaysOver(n, months) else -(DaysOver(n + months, -months) as int)
  }

  lemma MonthsAcross(n: int, months: int)
    ensures MonthStart(n + months) == MonthStart(n) + DaysAcross(n, months)
    ensures if months >= 0 then 28 * months <= DaysAcross(n, months) <= 31 * months
            else 31 * months <= DaysAcross(n, months) <= 28 * months
  {
    if months >= 0 {
      MonthsOn(n, months);
      DaysOverBounds(n, months);
    } else {
      MonthsOn(n + months, -months);
      DaysOverBounds(n + months, -months);
    }
  }

  /** Any twelve months on end make 365 or 366 days: 366 when they hold a 29th of February. */
  lemma TwelveMonths(n: int)
    ensures DaysOver(n, 12) == if IsLeap(if n % 12 < 2 then n / 12 else n / 12 + 1) then 366 else 365
  {
    MonthsOn(n, 12);
    CyclesAgree(n);
    CyclesAgree(n + 12);
    YearAcross(n);
  }

  lemma SameMonth(n: int)
    ensures (n + 12) / 12 == n / 12 + 1 && (n + 12) % 12 == n % 12
  {
  }

  lemma YearAcross(n: int)
    ensures FirstByCycles(n + 12) - FirstByCycles(n) == if IsLeap(if n % 12 < 2 then n / 12 else n / 12 + 1) then 366 else 365
  {
    SameMonth(n);
    YearOn(n / 12, n % 12);
  }

  lemma YearOn(year: int, m: nat)
    requires m < 12
    ensures DaysBeforeYear(year + 1) + DaysBeforeMonth(year + 1, m) - DaysBeforeYear(year) - DaysBeforeMonth(year, m)
         == if IsLeap(if m < 2 then year else year + 1) then 366 else 365
  {
    YearLength(year);
    LeapDays(year, year + 1, m);
  }

  lemma LeapDays(year: int, other: int, m: nat)
    requires m < 12
    ensures DaysBeforeMonth(year, m) - (if IsLeap(year) && m >= 2 then 1 else 0)
         == DaysBeforeMonth(other, m) - if IsLeap(other) && m >= 2 then 1 else 0
  {
  }

  /** The month a day falls in. */
  function MonthOf(day: int): (n: int)
    ensures MonthStart(n) <= day < MonthStart(n + 1)
  {
    if day >= 0 then MonthFrom(day, 0) else MonthBack(day, -1)
  }

  function MonthFrom(day: int, n: int): (r: int)
    requires MonthStart(n) <= day
    ensures MonthStart(r) <= day < MonthStart(r + 1)
    decreases day - MonthStart(n)
  {
    NextStart(n);
    if day < MonthStart(n + 1) then n else MonthFrom(day, n + 1)
  }

  function MonthBack(day: int, n: int): (r: int)
    requires day < MonthStart(n + 1)
    ensures MonthStart(r) <= day < MonthStart(r + 1)
    decreases MonthStart(n + 1) - day
  {
    NextStart(n);
    if MonthStart(n) <= day then n else MonthBack(day, n - 1)
  }

  lemma StartsGrow(n: int, m: int)
    requires n <= m
    ensures MonthStart(n) <= MonthStart(m)
  {
    MonthsOn(n, m - n);
  }

  lemma MonthIsUnique(day: int, n: int, m: int)
    requires MonthStart(n) <= day < MonthStart(n + 1) && MonthStart(m) <= day < MonthStart(m + 1)
    ensures n == m
  {
    if n < m { StartsGrow(n + 1, m); } else if m < n { StartsGrow(m + 1, n); }
  }

  /**
   * The same day number and clock time, so many months later, or earlier: counted from the first of the
   * target month, so a day that month does not have runs over into the next.
   */
  function AddMonths(t: int, months: int): int {
    var day := t / DAY;
    var n := MonthOf(day);
    (MonthStart(n + months) + (day - MonthStart(n))) * DAY + t % DAY
  }

  function AddDays(t: int, days: int): int {
    t + days * DAY
  }

  lemma DaysTimes(a: int, b: int)
    ensures (a + b) * DAY == a * DAY + b * DAY
  {
  }

  /** The same number of days into its month and the same time of day, so many months on; past the end it runs over. */
  lemma SameDayOfMonth(n: int, day: nat, time: int, months: int)
    requires day < MonthLength(n) && 0 <= time < DAY
    ensures AddMonths((MonthStart(n) + day) * DAY + time, months) == (MonthStart(n + months) + day) * DAY + time
  {
    var t := (MonthStart(n) + day) * DAY + time;
    assert t / DAY == MonthStart(n) + day && t % DAY == time;
    NextStart(n);
    MonthIsUnique(MonthStart(n) + day, n, MonthOf(t / DAY));
  }

  /** Adding months moves an instant by exactly the lengths of the months passed over, back for months below none. */
  lemma AddMonthsMoves(t: int, months: int)
    ensures AddMonths(t, months) == AddDays(t, DaysAcross(MonthOf(t / DAY), months))
    ensures if months >= 0 then AddDays(t, 28 * months) <= AddMonths(t, months) <= AddDays(t, 31 * months)
            else AddDays(t, 31 * months) <= AddMonths(t, months) <= AddDays(t, 28 * months)
    ensures months == 12 ==> AddMonths(t, months) == AddDays(t, 365) || AddMonths(t, months) == AddDays(t, 366)
    ensures months == -12 ==> AddMonths(t, months) == AddDays(t, -365) || AddMonths(t, months) == AddDays(t, -366)
  {
    var n := MonthOf(t / DAY);
    MonthsAcross(n, months);
    DaysTimes(t / DAY, DaysAcross(n, months));
    assert t == t / DAY * DAY + t % DAY;
    if months == 12 { TwelveMonths(n); }
    if months == -12 { TwelveMonths(n - 12); }
  }
}
