/** Calendar arithmetic behind `formatJulianAsGregorian`: the Julian Day
    Number of a Julian-calendar date, Richards' algorithm from a Julian Day
    Number to a proleptic Gregorian date, and reference definitions of both
    calendars (leap-year rules and month lengths) to judge them against.

    Years use astronomical numbering (1 BC is year 0). Division is Dafny's
    Euclidean division, which for a positive divisor is Python's floor
    division `//`. */
module Calendar {

  datatype Date = Date(year: int, month: int, day: int)

  // ------------------------------------------------- what the source computes

  /** The Julian Day Number the source computes for a Julian-calendar date:
      the formula of the "Julian day number calculation" section of the
      Wikipedia article on the Julian day, evaluated with floor division. */
  function JulianDayNumber(y: int, m: int, d: int): int {
    367 * y - (7 * (y + 5001 + (m - 9) / 7)) / 4 + (275 * m) / 9 + d + 1729777
  }

  /** Richards' algorithm, with the Gregorian-calendar parameters
      y=4716, j=1401, m=2, n=12, r=4, p=1461, v=3, u=5, s=153, w=2,
      B=274277, C=-38. */
  function GregorianFromDayNumber(j: int): (r: Date)
    ensures 1 <= r.month <= 12
    ensures 1 <= r.day <= 31
  {
    var f := j + 1401 + (((4 * j + 274277) / 146097) * 3) / 4 - 38;
    var e := 4 * f + 3;
    var g := (e % 1461) / 4;
    var h := 5 * g + 2;
    var day := (h % 153) / 5 + 1;
    var month := (h / 153 + 2) % 12 + 1;
    var year := e / 1461 - 4716 + (12 + 2 - month) / 12;
    Date(year, month, day)
  }

  // ------------------------------------------------- the formula as published

  /** Division truncating toward zero, as the published formula uses it. */
  function TruncDiv(a: int, b: int): (q: int)
    requires b > 0
    ensures a >= 0 ==> q == a / b
    ensures a < 0 ==> q == -((-a) / b)
  {
    if a >= 0 then a / b else -((-a) / b)
  }

  /** The published Julian-calendar formula with truncating division. */
  function PublishedJulianDayNumber(y: int, m: int, d: int): int {
    367 * y - TruncDiv(7 * (y + 5001 + TruncDiv(m - 9, 7)), 4) + TruncDiv(275 * m, 9) + d + 1729777
  }

  predicate IsLateMonth(m: int) { m == 2 || 9 <= m <= 12 }
  predicate IsEarlyMonth(m: int) { m == 1 || 3 <= m <= 8 }

  /** For February and September to December, floor and truncating division
      agree, so the source computes the published formula. */
  lemma FloorAgreesWithPublishedFormula(y: int, m: int, d: int)
    requires IsLateMonth(m) && y >= -4999
    ensures JulianDayNumber(y, m, d) == PublishedJulianDayNumber(y, m, d)
  {
    assert (m - 9) / 7 == TruncDiv(m - 9, 7);
  }

  /** For January and March to August, `(M - 9) // 7` is one below the
      truncated quotient, and the source's day number is one or two days
      later than the published formula's. */
  lemma FloorRunsLateInEarlyMonths(y: int, m: int, d: int)
    requires IsEarlyMonth(m) && y >= -4999
    ensures 1 <= JulianDayNumber(y, m, d) - PublishedJulianDayNumber(y, m, d) <= 2
  {
    assert (m - 9) / 7 == TruncDiv(m - 9, 7) - 1;
    var x := y + 5001 + TruncDiv(m - 9, 7);
    assert x >= 0;
    assert (7 * x) / 4 - (7 * (x - 1)) / 4 == 1 || (7 * x) / 4 - (7 * (x - 1)) / 4 == 2;
  }

  // ------------------------------------------------------- reference calendars

  predicate IsJulianLeapYear(y: int) { y % 4 == 0 }

  predicate IsGregorianLeapYear(y: int) { y % 4 == 0 && (y % 100 != 0 || y % 400 == 0) }

  function DaysInMonth(leap: bool, m: int): int
    requires 1 <= m <= 12
  {
    if m == 2 then (if leap then 29 else 28)
    else if m == 4 || m == 6 || m == 9 || m == 11 then 30
    else 31
  }

  /** Days of the year before the first of month m. */
  function DaysBeforeMonth(leap: bool, m: int): (n: int)
    requires 1 <= m <= 12
  {
    var common :=
      if m == 1 then 0 else if m == 2 then 31 else if m == 3 then 59
      else if m == 4 then 90 else if m == 5 then 120 else if m == 6 then 151
      else if m == 7 then 181 else if m == 8 then 212 else if m == 9 then 243
      else if m == 10 then 273 else if m == 11 then 304 else 334;
    if leap && m > 2 then common + 1 else common
  }

  /** The month table adds up: each month starts where the previous one ends,
      and the year ends where the next begins. */
  lemma MonthsAddUp(leap: bool, m: int)
    requires 1 <= m <= 12
    ensures m < 12 ==> DaysBeforeMonth(leap, m + 1) == DaysBeforeMonth(leap, m) + DaysInMonth(leap, m)
    ensures m == 12 ==> DaysBeforeMonth(leap, m) + DaysInMonth(leap, m) == (if leap then 366 else 365)
  {
  }

  /** Day number of 1 January of year y in the Julian calendar. */
  function JulianYearStart(y: int): int {
    365 * y + (y - 1) / 4 + 1721059
  }

  /** Day number of 1 January of year y in the proleptic Gregorian calendar. */
  function GregorianYearStart(y: int): int {
    365 * y + (y - 1) / 4 - (y - 1) / 100 + (y - 1) / 400 + 1721061
  }

  function DaysInJulianYear(y: int): int { if IsJulianLeapYear(y) then 366 else 365 }
  function DaysInGregorianYear(y: int): int { if IsGregorianLeapYear(y) then 366 else 365 }

  /** Each Julian year is as long as the Julian leap rule says. */
  lemma JulianYearsFollowLeapRule(y: int)
    ensures JulianYearStart(y + 1) == JulianYearStart(y) + DaysInJulianYear(y)
  {
    QuadrennialStep(y);
  }

  /** Stepping from y - 1 to y passes a multiple of 4, 100 or 400 exactly
      when y is one. */
  lemma QuadrennialStep(y: int)
    ensures y / 4 - (y - 1) / 4 == (if y % 4 == 0 then 1 else 0)
  {
    var k, r := y / 4, y % 4;
    assert y == 4 * k + r;
    if r == 0 { assert y - 1 == 4 * (k - 1) + 3; } else { assert y - 1 == 4 * k + (r - 1); }
  }

  lemma CenturyStep(y: int)
    ensures y / 100 - (y - 1) / 100 == (if y % 100 == 0 then 1 else 0)
  {
    var k, r := y / 100, y % 100;
    assert y == 100 * k + r;
    if r == 0 { assert y - 1 == 100 * (k - 1) + 99; } else { assert y - 1 == 100 * k + (r - 1); }
  }

  lemma QuadricentennialStep(y: int)
    ensures y / 400 - (y - 1) / 400 == (if y % 400 == 0 then 1 else 0)
  {
    var k, r := y / 400, y % 400;
    assert y == 400 * k + r;
    if r == 0 { assert y - 1 == 400 * (k - 1) + 399; } else { assert y - 1 == 400 * k + (r - 1); }
  }

  /** A multiple of 400 is one of 100, and a multiple of 100 one of 4. */
  lemma CenturyOfQuadricentennial(y: int)
    requires y % 400 == 0
    ensures y % 100 == 0
  {
    var k := y / 400;
    assert y == 100 * (4 * k);
  }

  lemma QuadrennialOfCentury(y: int)
    requires y % 100 == 0
    ensures y % 4 == 0
  {
    var k := y / 100;
    assert y == 4 * (25 * k);
  }

  /** The Gregorian leap days counted up to y, less those up to y - 1: one
      exactly when y is a leap year. */
  lemma GregorianLeapDayStep(y: int)
    ensures (y / 4 - (y - 1) / 4) - (y / 100 - (y - 1) / 100) + (y / 400 - (y - 1) / 400)
            == (if IsGregorianLeapYear(y) then 1 else 0)
  {
    QuadrennialStep(y);
    CenturyStep(y);
    QuadricentennialStep(y);
    if y % 400 == 0 { CenturyOfQuadricentennial(y); }
    if y % 100 == 0 { QuadrennialOfCentury(y); }
  }

  /** Each Gregorian year is as long as the Gregorian leap rule says. */
  lemma GregorianYearsFollowLeapRule(y: int)
    ensures GregorianYearStart(y + 1) == GregorianYearStart(y) + DaysInGregorianYear(y)
  {
    GregorianLeapDayStep(y);
  }

  predicate ValidMonth(dt: Date) { 1 <= dt.month <= 12 }

  /** Julian Day Number of a Julian-calendar date. */
  function JulianCalendarDay(dt: Date): int
    requires ValidMonth(dt)
  {
    JulianYearStart(dt.year) + DaysBeforeMonth(IsJulianLeapYear(dt.year), dt.month) + dt.day - 1
  }

  /** Julian Day Number of a proleptic Gregorian date. */
  function GregorianCalendarDay(dt: Date): int
    requires ValidMonth(dt)
  {
    GregorianYearStart(dt.year) + DaysBeforeMonth(IsGregorianLeapYear(dt.year), dt.month) + dt.day - 1
  }

  /** Day 0 is 1 January 4713 BC in the Julian calendar and 24 November
      4714 BC in the Gregorian one; 1 January 2000 (Gregorian) is day
      2451545 and (Julian) day 2451558. */
  lemma Epochs()
    ensures JulianCalendarDay(Date(-4712, 1, 1)) == 0
    ensures GregorianCalendarDay(Date(-4713, 11, 24)) == 0
    ensures GregorianCalendarDay(Date(2000, 1, 1)) == 2451545
    ensures JulianCalendarDay(Date(2000, 1, 1)) == 2451558
  {
  }

  // ------------------------------------- the source's day number, judged

  /** Days from 1 March to the first of the k-th month after March
      (k = 0 for March, ..., 11 for February). */
  function MarchMonthStart(k: int): int {
    (153 * k + 2) / 5
  }

  /** Day number of 1 March of Gregorian year y. */
  function GregorianMarchStart(y: int): int {
    365 * y + y / 4 - y / 100 + y / 400 + 1721120
  }

  /** Day number of 1 March of Julian year y. */
  function JulianMarchStart(y: int): int {
    365 * y + y / 4 + 1721118
  }

  /** A Julian-calendar date counted from 1 March of its March-based year. */
  lemma JulianMarchForm(dt: Date)
    requires ValidMonth(dt)
    ensures var k := (dt.month + 9) % 12;
            var ym := if dt.month <= 2 then dt.year - 1 else dt.year;
            JulianCalendarDay(dt) == JulianMarchStart(ym) + MarchMonthStart(k) + dt.day - 1
  {
    var y := dt.year;
    MarchMonthTable(dt.month);
    QuadrennialStep(y);
  }

  /** The month table against the days from 1 March: March to December
      start 59 days (a common year's January and February) later in the
      calendar year than in the March-based year, January and February 306
      days earlier. */
  lemma MarchMonthTable(m: int)
    requires 1 <= m <= 12
    ensures DaysBeforeMonth(false, m) == MarchMonthStart((m + 9) % 12) + (if m <= 2 then -306 else 59)
  {
    var k := (m + 9) % 12;
    assert k == if m <= 2 then m + 9 else m - 3;
    if m == 1 { assert MarchMonthStart(k) == 306; }
    else if m == 2 { assert MarchMonthStart(k) == 337; }
    else if m == 3 { assert MarchMonthStart(k) == 0; }
    else if m == 4 { assert MarchMonthStart(k) == 31; }
    else if m == 5 { assert MarchMonthStart(k) == 61; }
    else if m == 6 { assert MarchMonthStart(k) == 92; }
    else if m == 7 { assert MarchMonthStart(k) == 122; }
    else if m == 8 { assert MarchMonthStart(k) == 153; }
    else if m == 9 { assert MarchMonthStart(k) == 184; }
    else if m == 10 { assert MarchMonthStart(k) == 214; }
    else if m == 11 { assert MarchMonthStart(k) == 245; }
    else { assert MarchMonthStart(k) == 275; }
  }

  /** 1 March follows the 59 or 60 days of January and February. */
  lemma GregorianMarchStartFollowsFebruary(y: int)
    ensures GregorianMarchStart(y) == GregorianYearStart(y) + 59 + (if IsGregorianLeapYear(y) then 1 else 0)
  {
    GregorianLeapDayStep(y);
  }

  /** A Gregorian date counted from 1 March of its March-based year. */
  lemma GregorianMarchForm(dt: Date)
    requires ValidMonth(dt)
    ensures var k := (dt.month + 9) % 12;
            var ym := if dt.month <= 2 then dt.year - 1 else dt.year;
            GregorianCalendarDay(dt) == GregorianMarchStart(ym) + MarchMonthStart(k) + dt.day - 1
  {
    var y := dt.year;
    MarchMonthTable(dt.month);
    if dt.month <= 2 {
      GregorianMarchStartFollowsFebruary(y - 1);
      GregorianYearsFollowLeapRule(y - 1);
    } else {
      GregorianMarchStartFollowsFebruary(y);
    }
  }

  /** For February and September to December the source's day number is the
      Julian calendar's. */
  lemma DayNumberExactInLateMonths(y: int, m: int, d: int)
    requires IsLateMonth(m)
    ensures JulianDayNumber(y, m, d) == JulianCalendarDay(Date(y, m, d))
  {
    JulianMarchForm(Date(y, m, d));
    MonthTerms(m);
    if m == 2 {
      SevenQuarters(y - 1);
      assert 7 * (y + 5001 + (m - 9) / 7) == (7 * (y - 1) + 3) + 4 * 8751;
    } else {
      SevenQuarters(y);
      assert 7 * (y + 5001 + (m - 9) / 7) == (7 * y + 3) + 4 * 8751;
    }
  }

  /** The month terms of the source's formula against the days from 1 March
      to the first of the month. */
  lemma MonthTerms(m: int)
    requires 1 <= m <= 12
    ensures (m - 9) / 7 == (if m == 1 then -2 else if m <= 8 then -1 else 0)
    ensures (275 * m) / 9 == MarchMonthStart((m + 9) % 12) + (if m <= 2 then -276 else 91)
  {
    MarchMonthTable(m);
  }

  /** Seven quarters of a year count, against the year and its leap days. */
  lemma SevenQuarters(x: int)
    ensures (7 * x + 3) / 4 == 2 * x - x / 4
    ensures 2 * x - x / 4 - 1 <= (7 * x) / 4 <= 2 * x - x / 4
  {
    var q, r := x / 4, x % 4;
    assert x == 4 * q + r;
    assert 7 * x + 3 == 4 * (7 * q) + (7 * r + 3);
    assert 7 * x == 4 * (7 * q) + 7 * r;
    assert (4 * (7 * q) + (7 * r + 3)) / 4 == 7 * q + (7 * r + 3) / 4;
    assert (4 * (7 * q) + 7 * r) / 4 == 7 * q + (7 * r) / 4;
  }

  /** For January and March to August the source's day number is one or two
      days after the Julian calendar's. */
  lemma DayNumberLateInEarlyMonths(y: int, m: int, d: int)
    requires IsEarlyMonth(m)
    ensures 1 <= JulianDayNumber(y, m, d) - JulianCalendarDay(Date(y, m, d)) <= 2
  {
    JulianMarchForm(Date(y, m, d));
    MonthTerms(m);
    if m == 1 {
      SevenQuarters(y - 1);
      assert 7 * (y + 5001 + (m - 9) / 7) == 7 * (y - 1) + 4 * 8750;
    } else {
      SevenQuarters(y);
      assert 7 * (y + 5001 + (m - 9) / 7) == 7 * y + 4 * 8750;
    }
  }

  // ------------------------------------------------- the formula as intended

  /** The day number with the month term `(M - 9) / 7` truncated toward
      zero, as the published formula has it. The year term keeps floor
      division, which agrees with truncation wherever the published formula
      is meant to be used and keeps the count right before it. */
  function IntendedJulianDayNumber(y: int, m: int, d: int): int {
    367 * y - (7 * (y + 5001 + TruncDiv(m - 9, 7))) / 4 + (275 * m) / 9 + d + 1729777
  }

  /** From year -4999 on this is the published formula. */
  lemma IntendedIsPublished(y: int, m: int, d: int)
    requires 1 <= m <= 12 && y >= -4999
    ensures IntendedJulianDayNumber(y, m, d) == PublishedJulianDayNumber(y, m, d)
  {
    assert TruncDiv(m - 9, 7) == if m <= 2 then -1 else 0;
  }

  /** In every month the intended day number is the Julian calendar's. */
  lemma IntendedDayNumberIsExact(y: int, m: int, d: int)
    requires 1 <= m <= 12
    ensures IntendedJulianDayNumber(y, m, d) == JulianCalendarDay(Date(y, m, d))
  {
    JulianMarchForm(Date(y, m, d));
    MonthTerms(m);
    assert TruncDiv(m - 9, 7) == if m <= 2 then -1 else 0;
    if m <= 2 {
      SevenQuarters(y - 1);
      assert 7 * (y + 5001 + TruncDiv(m - 9, 7)) == (7 * (y - 1) + 3) + 4 * 8751;
    } else {
      SevenQuarters(y);
      assert 7 * (y + 5001 + TruncDiv(m - 9, 7)) == (7 * y + 3) + 4 * 8751;
    }
  }

  /** In February and September to December the source computes the
      intended day number. */
  lemma AsWrittenAgreesInLateMonths(y: int, m: int, d: int)
    requires IsLateMonth(m)
    ensures JulianDayNumber(y, m, d) == IntendedJulianDayNumber(y, m, d)
  {
    assert (m - 9) / 7 == TruncDiv(m - 9, 7);
  }

  // ------------------------------------------- Richards' algorithm, judged

  /** A day of a March-based year (0 = 1 March) splits into a month index
      (0 = March, ..., 11 = February) and a day of that month. */
  lemma MarchDaySplits(g: int)
    requires 0 <= g <= 365
    ensures var h := 5 * g + 2;
            0 <= h / 153 <= 11 && MarchMonthStart(h / 153) + (h % 153) / 5 == g
  {
    var h := 5 * g + 2;
    var k, r := h / 153, h % 153;
    assert h == 153 * k + r && 0 <= r < 153;
    var a, alpha := (153 * k + 2) / 5, (153 * k + 2) % 5;
    var b, beta := r / 5, r % 5;
    assert 153 * k + 2 == 5 * a + alpha;
    assert r == 5 * b + beta;
    assert 5 * g == 5 * a + 5 * b + alpha + beta - 4;
    assert alpha + beta == 4;
  }

  /** Inside Richards' algorithm: with e = 4f + 3, the quotient and remainder
      of e by 1461 count four-year cycles of 365.25 days, so f is a
      Julian-style count of March-based years plus the day of the year. */
  lemma FourYearCycles(f: int)
    ensures var e := 4 * f + 3;
            var yq := e / 1461;
            var g := (e % 1461) / 4;
            0 <= g <= 365 && f == 365 * yq + yq / 4 + g
  {
    var e := 4 * f + 3;
    var yq, t := e / 1461, e % 1461;
    var g, s := t / 4, t % 4;
    assert e == 1461 * yq + t;
    assert t == 4 * g + s;
    var a, b := yq / 4, yq % 4;
    assert yq == 4 * a + b;
    assert 4 * f == 1461 * yq + 4 * g + s - 3;
    assert 4 * f == 5844 * a + 1461 * b + 4 * g + s - 3;
    assert (b + s) % 4 == 3;
    assert b + s == 3;
  }

  /** Inside Richards' algorithm: the correction (3q) div 4, with q the
      number of Gregorian centuries counted from the day number, is the
      number of leap days the Gregorian calendar drops up to the resulting
      March-based year. */
  lemma CenturyCorrection(j: int)
    ensures var q := (4 * j + 274277) / 146097;
            var cq := (3 * q) / 4;
            var f := j + 1401 + cq - 38;
            var ym := (4 * f + 3) / 1461 - 4716;
            cq == ym / 100 - ym / 400 + 36
  {
    var a := 4 * j + 274277;
    var q, rho := a / 146097, a % 146097;
    assert a == 146097 * q + rho && 0 <= rho < 146097;
    var cq := (3 * q) / 4;
    var f := j + 1401 + cq - 38;
    var e := 4 * f + 3;
    var p := q - 1;
    var s := (3 * p + 3) % 4;
    assert 3 * q == 4 * cq + s;
    var n := rho + 2 - s;
    assert e + 122724 == 1461 * (100 * p) + n;
    var delta := n / 1461;
    assert n == 1461 * delta + n % 1461;
    assert -1 <= delta <= 99;
    var yc := e / 1461 + 84;
    assert yc == 100 * p + delta by {
      assert e + 122724 == 1461 * (100 * p + delta) + n % 1461;
    }
    if delta < 0 {
      assert rho == 0 && s == 3;
    }
    CenturyYears(p, delta, cq, s);
  }

  /** The correction against the centuries and quadricentennials of the
      March-based year 100 p + delta - 4800. */
  lemma CenturyYears(p: int, delta: int, cq: int, s: int)
    requires -1 <= delta <= 99 && 0 <= s < 4 && 3 * (p + 1) == 4 * cq + s
    requires delta == -1 ==> s == 3
    ensures var ym := 100 * p + delta - 4800;
            cq == ym / 100 - ym / 400 + 36
  {
    var yc := 100 * p + delta;
    var ym := yc - 4800;
    assert ym / 100 == yc / 100 - 48;
    assert ym / 400 == yc / 400 - 12;
    var pa, pb := p / 4, p % 4;
    assert p == 4 * pa + pb;
    if delta >= 0 {
      assert yc / 100 == p;
      assert yc / 400 == pa;
      assert cq == 3 * pa + pb;
    } else {
      assert pb == 0;
      assert yc == 400 * pa - 1;
      assert yc / 100 == 4 * pa - 1;
      assert yc / 400 == pa - 1;
      assert cq == 3 * pa;
    }
  }

  /** Richards' algorithm is exact: the date it produces is the proleptic
      Gregorian date with the given Julian Day Number. */
  lemma GregorianFromDayNumberIsExact(j: int)
    ensures GregorianCalendarDay(GregorianFromDayNumber(j)) == j
  {
    var f := j + 1401 + (((4 * j + 274277) / 146097) * 3) / 4 - 38;
    var e := 4 * f + 3;
    var h := 5 * ((e % 1461) / 4) + 2;
    var ym, k, day := e / 1461 - 4716, h / 153, (h % 153) / 5 + 1;
    MarchDayOfDayNumber(j);
    MarchDateIsGregorian(ym, k, day, GregorianFromDayNumber(j), j);
  }

  /** The March-based year, month index and day that Richards' algorithm
      extracts add back up to the day number. */
  lemma MarchDayOfDayNumber(j: int)
    ensures var f := j + 1401 + (((4 * j + 274277) / 146097) * 3) / 4 - 38;
            var e := 4 * f + 3;
            var h := 5 * ((e % 1461) / 4) + 2;
            0 <= h / 153 <= 11 &&
            GregorianMarchStart(e / 1461 - 4716) + MarchMonthStart(h / 153) + (h % 153) / 5 == j
  {
    var f := j + 1401 + (((4 * j + 274277) / 146097) * 3) / 4 - 38;
    var e := 4 * f + 3;
    MarchYearOfDayNumber(j);
    MarchDaySplits((e % 1461) / 4);
  }

  /** The year and day-of-year that Richards' algorithm extracts place the
      day number that many days after 1 March of that Gregorian year. */
  lemma MarchYearOfDayNumber(j: int)
    ensures var f := j + 1401 + (3 * ((4 * j + 274277) / 146097)) / 4 - 38;
            var e := 4 * f + 3;
            0 <= (e % 1461) / 4 <= 365 &&
            GregorianMarchStart(e / 1461 - 4716) + (e % 1461) / 4 == j
  {
    var q := (4 * j + 274277) / 146097;
    var cq := (3 * q) / 4;
    var f := j + 1401 + cq - 38;
    var e := 4 * f + 3;
    var yq := e / 1461;
    var g := (e % 1461) / 4;
    FourYearCycles(f);
    CenturyCorrection(j);
    var ym := yq - 4716;
    assert yq / 4 == ym / 4 + 1179;
  }

  /** A March-based year, month index and day name this Gregorian date. */
  lemma MarchDateIsGregorian(ym: int, k: int, day: int, dt: Date, j: int)
    requires 0 <= k <= 11
    requires var month := (k + 2) % 12 + 1;
      dt == Date(ym + (12 + 2 - month) / 12, month, day)
    requires GregorianMarchStart(ym) + MarchMonthStart(k) + day - 1 == j
    ensures ValidMonth(dt) && GregorianCalendarDay(dt) == j
  {
    if k <= 9 {
      assert (k + 2) % 12 + 1 == k + 3;
      MarchToDecember(ym, k, day);
    } else {
      assert (k + 2) % 12 + 1 == k - 9;
      JanuaryToFebruary(ym, k, day);
    }
  }

  lemma MarchToDecember(ym: int, k: int, day: int)
    requires 0 <= k <= 9
    ensures GregorianCalendarDay(Date(ym, k + 3, day))
            == GregorianMarchStart(ym) + MarchMonthStart(k) + day - 1
  {
    var dt := Date(ym, k + 3, day);
    assert (dt.month + 9) % 12 == k by {
      assert dt.month + 9 == 12 * 1 + k;
    }
    GregorianMarchForm(dt);
  }

  lemma JanuaryToFebruary(ym: int, k: int, day: int)
    requires 10 <= k <= 11
    ensures GregorianCalendarDay(Date(ym + 1, k - 9, day))
            == GregorianMarchStart(ym) + MarchMonthStart(k) + day - 1
  {
    var dt := Date(ym + 1, k - 9, day);
    GregorianMarchForm(dt);
    assert (dt.month + 9) % 12 == k;
  }

  /** For February and September to December the source's conversion is
      exact: the Gregorian date it produces is the same day as the Julian
      date it was given. */
  lemma ConversionExactInLateMonths(y: int, m: int, d: int)
    requires IsLateMonth(m)
    ensures GregorianCalendarDay(GregorianFromDayNumber(JulianDayNumber(y, m, d)))
            == JulianCalendarDay(Date(y, m, d))
  {
    DayNumberExactInLateMonths(y, m, d);
    GregorianFromDayNumberIsExact(JulianDayNumber(y, m, d));
  }

  /** The intended conversion is exact in every month. */
  lemma IntendedConversionIsExact(y: int, m: int, d: int)
    requires 1 <= m <= 12
    ensures GregorianCalendarDay(GregorianFromDayNumber(IntendedJulianDayNumber(y, m, d)))
            == JulianCalendarDay(Date(y, m, d))
  {
    IntendedDayNumberIsExact(y, m, d);
    GregorianFromDayNumberIsExact(IntendedJulianDayNumber(y, m, d));
  }

  /** For January and March to August the source's conversion lands one or
      two days after the Gregorian date of the Julian date it was given. */
  lemma ConversionLateInEarlyMonths(y: int, m: int, d: int)
    requires IsEarlyMonth(m)
    ensures var shift := GregorianCalendarDay(GregorianFromDayNumber(JulianDayNumber(y, m, d)))
                         - JulianCalendarDay(Date(y, m, d));
            shift == 1 || shift == 2
  {
    DayNumberLateInEarlyMonths(y, m, d);
    GregorianFromDayNumberIsExact(JulianDayNumber(y, m, d));
  }
}
