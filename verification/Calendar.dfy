/** The calendar arithmetic of http.c: day numbers of Gregorian dates, in closed form, against the
    count of days that they stand for. */
module Calendar {
  import opened Powers

  // ---------------------------------------------------------------- what http.c computes

  /** C's remainder, which has the sign of the dividend. */
  function CMod(a: int, b: int): int
    requires b > 0
  {
    if a >= 0 then a % b else -((-a) % b)
  }

  /** GregorianLeapYearP. */
  predicate LeapYear(year: int) {
    var tmp := CMod(year, 400);
    CMod(year, 4) == 0 && tmp != 100 && tmp != 200 && tmp != 300
  }

  /** FixedFromGregorian; `/` rounds down, as `floor` does. */
  function FixedFromGregorian(month: int, day: int, year: int): int {
    365 * (year - 1) + (year - 1) / 4 - (year - 1) / 100 + (year - 1) / 400 + (367 * month - 362) / 12
    + (if month <= 2 then 0 else if LeapYear(year) then -1 else -2) + day
  }

  /** GregorianYearFromFixed. */
  function GregorianYearFromFixed(fixedDate: int): int {
    var d0 := fixedDate - 1;
    var n400, d1 := d0 / 146097, CMod(d0, 146097);
    var n100, d2 := d1 / 36524, CMod(d1, 36524);
    var n4, d3 := d2 / 1461, CMod(d2, 1461);
    var n1 := d3 / 365;
    var year := 400 * n400 + 100 * n100 + 4 * n4 + n1;
    if n100 == 4 || n1 == 4 then year else year + 1
  }

  // ---------------------------------------------------------------- what it stands for

  /** Leap years as the Gregorian reform made them. */
  predicate Leap(year: nat) {
    year % 4 == 0 && (year % 100 == 0 ==> year % 400 == 0)
  }

  function MonthLength(month: nat, year: nat): nat
    requires 1 <= month <= 12
  {
    if month == 2 then (if Leap(year) then 29 else 28)
    else if month == 4 || month == 6 || month == 9 || month == 11 then 30
    else 31
  }

  predicate Valid(month: nat, day: nat, year: nat) {
    1 <= year && 1 <= month <= 12 && 1 <= day <= MonthLength(month, year)
  }

  /** The days of the years before this one. */
  function DaysBeforeYear(year: nat): nat
    requires year >= 1
  {
    if year == 1 then 0 else DaysBeforeYear(year - 1) + (if Leap(year - 1) then 366 else 365)
  }

  /** The days of the months before this one. */
  function DaysBeforeMonth(month: nat, year: nat): nat
    requires 1 <= month <= 12
  {
    if month == 1 then 0 else DaysBeforeMonth(month - 1, year) + MonthLength(month - 1, year)
  }

  /** The number of a date, counting from 1 January of the year 1. */
  function Ordinal(month: nat, day: nat, year: nat): nat
    requires year >= 1 && 1 <= month <= 12
  {
    DaysBeforeYear(year) + DaysBeforeMonth(month, year) + day
  }

  lemma LeapAgrees(year: nat)
    ensures LeapYear(year) == Leap(year)
  {
    var q, r := year / 400, year % 400;
    assert year == 400 * q + r;
    RemainderOf(year, 100, 4 * q, r);
    RemainderOf(year, 4, 100 * q, r);
  }

  lemma RemainderOf(n: nat, d: nat, k: nat, r: nat)
    requires d > 0 && n == d * k + r
    ensures n % d == r % d
  {
    assert r == d * (r / d) + r % d;
    assert d * (k + r / d) == d * k + d * (r / d);
    DivIs(n, d, k + r / d, r % d);
  }

  lemma {:induction false} YearsInClosedForm(year: nat)
    requires year >= 1
    ensures DaysBeforeYear(year) == 365 * (year - 1) + (year - 1) / 4 - (year - 1) / 100 + (year - 1) / 400
  {
    if year > 1 {
      YearsInClosedForm(year - 1);
      Quotient(year - 1, 4);
      Quotient(year - 1, 100);
      Quotient(year - 1, 400);
      Hundreds(year - 1);
    }
  }

  lemma Hundreds(n: nat)
    ensures n % 400 == 0 ==> n % 100 == 0
    ensures n % 100 == 0 ==> n % 4 == 0
  {
    RemainderOf(n, 100, 4 * (n / 400), n % 400);
    RemainderOf(n, 4, 25 * (n / 100), n % 100);
  }

  lemma Quotient(n: nat, d: nat)
    requires n >= 1 && d > 1
    ensures n / d == (n - 1) / d + (if n % d == 0 then 1 else 0)
  {
    var q, r := n / d, n % d;
    assert n == d * q + r;
    if r == 0 {
      assert q >= 1;
      assert n - 1 == d * (q - 1) + (d - 1);
      DivIs(n - 1, d, q - 1, d - 1);
    } else {
      assert n - 1 == d * q + (r - 1);
      DivIs(n - 1, d, q, r - 1);
    }
  }

  lemma MonthsInClosedForm(month: nat, year: nat)
    requires 1 <= month <= 12
    ensures DaysBeforeMonth(month, year)
         == (367 * month - 362) / 12 + (if month <= 2 then 0 else if Leap(year) then -1 else -2)
  {
    if month > 1 {
      MonthsInClosedForm(month - 1, year);
    }
  }

  /** The closed form is the count of days. */
  lemma FixedIsOrdinal(month: nat, day: nat, year: nat)
    requires year >= 1 && 1 <= month <= 12
    ensures FixedFromGregorian(month, day, year) == Ordinal(month, day, year)
  {
    LeapAgrees(year);
    YearsInClosedForm(year);
    MonthsInClosedForm(month, year);
  }

  /** The start of 1970 is day 719163, and 400 years have 146097 days. */
  lemma Epoch(year: nat)
    requires year >= 1
    ensures Ordinal(1, 1, 1970) == 719163 && DaysBeforeYear(year + 400) == DaysBeforeYear(year) + 146097
  {
    YearsInClosedForm(1970);
    YearsInClosedForm(year);
    YearsInClosedForm(year + 400);
    hide DaysBeforeYear;
    MoreQuotients(year - 1);
  }

  lemma MoreQuotients(n: nat)
    ensures (n + 400) / 400 == n / 400 + 1 && (n + 400) / 100 == n / 100 + 4 && (n + 400) / 4 == n / 4 + 100
  {
  }

  // ---------------------------------------------------------------- consequences

  datatype Date = Date(month: nat, day: nat, year: nat)

  function NextDay(d: Date): Date
    requires Valid(d.month, d.day, d.year)
  {
    if d.day < MonthLength(d.month, d.year) then Date(d.month, d.day + 1, d.year)
    else if d.month < 12 then Date(d.month + 1, 1, d.year)
    else Date(1, 1, d.year + 1)
  }

  lemma YearLength(year: nat)
    ensures DaysBeforeMonth(12, year) + 31 == if Leap(year) then 366 else 365
  {
    MonthsInClosedForm(12, year);
  }

  lemma OrdinalNext(d: Date)
    requires Valid(d.month, d.day, d.year)
    ensures var n := NextDay(d);
            && Valid(n.month, n.day, n.year) && n.year >= 1 && 1 <= n.month <= 12
            && d.year >= 1 && 1 <= d.month <= 12
            && Ordinal(n.month, n.day, n.year) == Ordinal(d.month, d.day, d.year) + 1
  {
    YearLength(d.year);
  }

  /** The day after has the next number, at every month's and every year's end too. */
  lemma NextDayIsNext(d: Date)
    requires Valid(d.month, d.day, d.year)
    ensures var n := NextDay(d);
            && Valid(n.month, n.day, n.year)
            && FixedFromGregorian(n.month, n.day, n.year) == FixedFromGregorian(d.month, d.day, d.year) + 1
  {
    hide FixedFromGregorian;
    var n := NextDay(d);
    OrdinalNext(d);
    hide *;
    FixedIsOrdinal(d.month, d.day, d.year);
    FixedIsOrdinal(n.month, n.day, n.year);
  }

  predicate Before(a: Date, b: Date) {
    a.year < b.year || (a.year == b.year && (a.month < b.month || (a.month == b.month && a.day < b.day)))
  }

  lemma {:induction false} YearsGrow(a: nat, b: nat)
    requires 1 <= a < b
    ensures DaysBeforeYear(a) + (if Leap(a) then 366 else 365) <= DaysBeforeYear(b)
  {
    if a + 1 < b {
      YearsGrow(a, b - 1);
    }
  }

  lemma {:induction false} MonthsGrow(a: nat, b: nat, year: nat)
    requires 1 <= a < b <= 12
    ensures DaysBeforeMonth(a, year) + MonthLength(a, year) <= DaysBeforeMonth(b, year)
  {
    if a + 1 < b {
      MonthsGrow(a, b - 1, year);
    }
  }

  lemma DayOfYear(d: Date)
    requires Valid(d.month, d.day, d.year)
    ensures 1 <= DaysBeforeMonth(d.month, d.year) + d.day <= if Leap(d.year) then 366 else 365
  {
    YearLength(d.year);
    if d.month < 12 {
      MonthsGrow(d.month, 12, d.year);
    }
  }

  /** Earlier dates have smaller numbers, and only those. */
  lemma OrderKept(a: Date, b: Date)
    requires Valid(a.month, a.day, a.year) && Valid(b.month, b.day, b.year)
    ensures Before(a, b) <==> FixedFromGregorian(a.month, a.day, a.year) < FixedFromGregorian(b.month, b.day, b.year)
  {
    FixedIsOrdinal(a.month, a.day, a.year);
    FixedIsOrdinal(b.month, b.day, b.year);
    if Before(a, b) {
      BeforeIsLess(a, b);
    } else if Before(b, a) {
      BeforeIsLess(b, a);
    } else {
      assert a == b;
    }
  }

  lemma BeforeIsLess(a: Date, b: Date)
    requires Valid(a.month, a.day, a.year) && Valid(b.month, b.day, b.year) && Before(a, b)
    ensures Ordinal(a.month, a.day, a.year) < Ordinal(b.month, b.day, b.year)
  {
    DayOfYear(a);
    DayOfYear(b);
    if a.year < b.year {
      YearsGrow(a.year, b.year);
    } else if a.month < b.month {
      MonthsGrow(a.month, b.month, a.year);
    }
  }

  /** The year comes back from the number of any day in it. */
  lemma YearRecovered(d: Date)
    requires Valid(d.month, d.day, d.year)
    ensures GregorianYearFromFixed(FixedFromGregorian(d.month, d.day, d.year)) == d.year
  {
    FixedIsOrdinal(d.month, d.day, d.year);
    DayOfYear(d);
    YearsInClosedForm(d.year);
    var t := DaysBeforeMonth(d.month, d.year) + d.day - 1;
    YearFromDay(d.year, t);
  }

  /** The `t`-th day of a year, by cycles of 400, 100, 4 and 1 years. */
  lemma YearFromDay(year: nat, t: nat)
    requires year >= 1 && t < (if Leap(year) then 366 else 365)
    ensures var y := year - 1; GregorianYearFromFixed(365 * y + y / 4 - y / 100 + y / 400 + t + 1) == year
  {
    var y := year - 1;
    var a, b, c, e := Digits(y);
    Cycles(y, a, b, c, e);
    LeapInCycle(year, a, b, c, e);
    hide GregorianYearFromFixed, Leap;
    var d0 := 146097 * a + 36524 * b + 1461 * c + 365 * e + t;
    FromCycles(d0, a, b, c, e, t);
  }

  lemma Digits(y: nat) returns (a: nat, b: nat, c: nat, e: nat)
    ensures y == 400 * a + 100 * b + 4 * c + e && b < 4 && c < 25 && e < 4
  {
    var r := y % 400;
    var s := r % 100;
    a, b, c, e := y / 400, r / 100, s / 4, s % 4;
  }

  lemma Cycles(y: nat, a: nat, b: nat, c: nat, e: nat)
    requires y == 400 * a + 100 * b + 4 * c + e && b < 4 && c < 25 && e < 4
    ensures y / 4 == 100 * a + 25 * b + c && y / 100 == 4 * a + b && y / 400 == a
    ensures 365 * y + y / 4 - y / 100 + y / 400 == 146097 * a + 36524 * b + 1461 * c + 365 * e
  {
  }

  lemma LeapInCycle(year: nat, a: nat, b: nat, c: nat, e: nat)
    requires year == 400 * a + 100 * b + 4 * c + e + 1 && b < 4 && c < 25 && e < 4
    ensures Leap(year) <==> e == 3 && (c != 24 || b == 3)
  {
  }

  lemma FromCycles(d0: nat, a: nat, b: nat, c: nat, e: nat, t: nat)
    requires d0 == 146097 * a + 36524 * b + 1461 * c + 365 * e + t && b < 4 && c < 25 && e < 4
    requires t < if e == 3 && (c != 24 || b == 3) then 366 else 365
    ensures GregorianYearFromFixed(d0 + 1) == 400 * a + 100 * b + 4 * c + e + 1
  {
    var d1 := 36524 * b + 1461 * c + 365 * e + t;
    assert d1 < 146097;
    DivIs(d0, 146097, a, d1);
    if b == 3 && c == 24 && e == 3 && t == 365 {
      assert d1 == 146096 && d1 / 36524 == 4 && d1 % 36524 == 0;
    } else {
      var d2 := 1461 * c + 365 * e + t;
      DivIs(d1, 36524, b, d2);
      if e == 3 && t == 365 {
        assert d2 == 1461 * c + 1460;
        DivIs(d2, 1461, c, 1460);
      } else {
        DivIs(d2, 1461, c, 365 * e + t);
        DivIs(365 * e + t, 365, e, t);
      }
    }
  }
}
