/**
 * The calendar arithmetic the main screen gets from `java.util.Calendar`
 * and `SimpleDateFormat("yyyy-MM-dd")`, as pure functions. Months are
 * 0-based, as in `Calendar.MONTH`; the rules are the proleptic Gregorian
 * ones for every year.
 */
module Gregorian {
  import Lang

  /** A calendar date: `month` is 0-based (January is 0), `day` is 1-based. */
  datatype Date = Date(year: int, month: int, day: int)

  // `Calendar.DAY_OF_WEEK` values.
  const SUNDAY: int := 1
  const MONDAY: int := 2
  const SATURDAY: int := 7

  predicate IsLeapYear(y: int) {
    y % 4 == 0 && (y % 100 != 0 || y % 400 == 0)
  }

  /** `getActualMaximum(DAY_OF_MONTH)` for month `m` of year `y`. */
  function DaysInMonth(y: int, m: int): (n: int)
    requires 0 <= m < 12
    ensures 28 <= n <= 31
    ensures m == 1 ==> (n == 29 <==> IsLeapYear(y))
  {
    if m == 1 then (if IsLeapYear(y) then 29 else 28)
    else if m == 3 || m == 5 || m == 8 || m == 10 then 30
    else 31
  }

  predicate ValidDate(d: Date) {
    0 <= d.month < 12 && 1 <= d.day <= DaysInMonth(d.year, d.month)
  }

  function YearLength(y: int): int {
    if IsLeapYear(y) then 366 else 365
  }

  /** Days in the years before year `y`, counted from 0001-01-01. */
  function DaysBeforeYear(y: int): int {
    365 * (y - 1) + (y - 1) / 4 - (y - 1) / 100 + (y - 1) / 400
  }

  /** Days in the months of year `y` before month `m`. */
  function DaysBeforeMonth(y: int, m: int): int
    requires 0 <= m <= 12
  {
    if m == 0 then 0 else DaysBeforeMonth(y, m - 1) + DaysInMonth(y, m - 1)
  }

  /** Consecutive numbering of days; 0001-01-01, a Monday, is day 1. */
  function DayNumber(d: Date): int
    requires 0 <= d.month < 12
  {
    DaysBeforeYear(d.year) + DaysBeforeMonth(d.year, d.month) + d.day
  }

  /** `Calendar.DAY_OF_WEEK`: SUNDAY (1) through SATURDAY (7). */
  function DayOfWeek(d: Date): (w: int)
    requires 0 <= d.month < 12
    ensures SUNDAY <= w <= SATURDAY
  {
    DayNumber(d) % 7 + 1
  }

  /** The months of a year add up to the length of the year. */
  lemma MonthsFillYear(y: int)
    ensures DaysBeforeMonth(y, 12) == YearLength(y)
  {
    var f := if IsLeapYear(y) then 29 else 28;
    assert DaysBeforeMonth(y, 1) == 31;
    assert DaysBeforeMonth(y, 2) == 31 + f;
    assert DaysBeforeMonth(y, 3) == 62 + f;
    assert DaysBeforeMonth(y, 4) == 92 + f;
    assert DaysBeforeMonth(y, 5) == 123 + f;
    assert DaysBeforeMonth(y, 6) == 153 + f;
    assert DaysBeforeMonth(y, 7) == 184 + f;
    assert DaysBeforeMonth(y, 8) == 215 + f;
    assert DaysBeforeMonth(y, 9) == 245 + f;
    assert DaysBeforeMonth(y, 10) == 276 + f;
    assert DaysBeforeMonth(y, 11) == 306 + f;
  }

  lemma DivStep(y: int, k: int)
    requires k == 4 || k == 100 || k == 400
    ensures y / k - (y - 1) / k == if y % k == 0 then 1 else 0
  {
  }

  /** A multiple of `a * b` is a multiple of `b`. */
  lemma MultipleOfMultiple(y: int, a: int, b: int)
    requires a > 0 && b > 0 && y % (a * b) == 0
    ensures y % b == 0
  {
    var q := y / (a * b);
    assert y == (a * b) * q;
    assert y == b * (a * q);
  }

  /** The leap-day count of `DaysBeforeYear` agrees with `IsLeapYear`. */
  lemma YearStep(y: int)
    ensures DaysBeforeYear(y + 1) == DaysBeforeYear(y) + YearLength(y)
  {
    DivStep(y, 4);
    DivStep(y, 100);
    DivStep(y, 400);
    var d4, d100, d400 := y / 4 - (y - 1) / 4, y / 100 - (y - 1) / 100, y / 400 - (y - 1) / 400;
    assert DaysBeforeYear(y + 1) - DaysBeforeYear(y) == 365 + d4 - d100 + d400;
    if y % 400 == 0 {
      MultipleOfMultiple(y, 4, 100);
      MultipleOfMultiple(y, 25, 4);
    } else if y % 100 == 0 {
      MultipleOfMultiple(y, 25, 4);
    }
  }

  /** The first of the month after month `m` is `DaysInMonth` days after the first of `m`. */
  lemma {:induction false} NextFirstOfMonth(y: int, m: int)
    requires 0 <= m < 12
    ensures var next := if m == 11 then Date(y + 1, 0, 1) else Date(y, m + 1, 1);
            DayNumber(next) == DayNumber(Date(y, m, 1)) + DaysInMonth(y, m)
  {
    if m == 11 {
      YearStep(y);
      MonthsFillYear(y);
    }
  }

  /** Calendar order: `a` is an earlier date than `b`. */
  predicate DateBefore(a: Date, b: Date) {
    a.year < b.year ||
    (a.year == b.year && (a.month < b.month || (a.month == b.month && a.day < b.day)))
  }

  lemma {:induction false} DaysBeforeMonthGrows(y: int, m1: int, m2: int)
    requires 0 <= m1 <= m2 <= 12
    ensures DaysBeforeMonth(y, m1) + 28 * (m2 - m1) <= DaysBeforeMonth(y, m2)
    decreases m2 - m1
  {
    if m1 < m2 { DaysBeforeMonthGrows(y, m1, m2 - 1); }
  }

  lemma {:induction false} DaysBeforeYearGrows(y1: int, y2: int)
    requires y1 <= y2
    ensures DaysBeforeYear(y1) + 365 * (y2 - y1) <= DaysBeforeYear(y2)
    decreases y2 - y1
  {
    if y1 < y2 {
      DaysBeforeYearGrows(y1, y2 - 1);
      YearStep(y2 - 1);
    }
  }

  /** The day of a valid date falls inside its month and its year. */
  lemma DayOfYearBounds(d: Date)
    requires ValidDate(d)
    ensures 0 <= DaysBeforeMonth(d.year, d.month) < DaysBeforeMonth(d.year, d.month) + d.day
    ensures DaysBeforeMonth(d.year, d.month) + d.day <= DaysBeforeMonth(d.year, d.month + 1)
    ensures DaysBeforeMonth(d.year, d.month) + d.day <= YearLength(d.year)
  {
    DaysBeforeMonthGrows(d.year, 0, d.month);
    DaysBeforeMonthGrows(d.year, d.month + 1, 12);
    MonthsFillYear(d.year);
  }

  /** A valid date of an earlier year has a smaller day number. */
  lemma EarlierYear(a: Date, b: Date)
    requires ValidDate(a) && ValidDate(b) && a.year < b.year
    ensures DayNumber(a) < DayNumber(b)
  {
    DayOfYearBounds(a);
    DayOfYearBounds(b);
    YearStep(a.year);
    DaysBeforeYearGrows(a.year + 1, b.year);
    assert DayNumber(a) <= DaysBeforeYear(a.year + 1);
  }

  /** Within a year, a valid date of an earlier month has a smaller day number. */
  lemma EarlierMonth(a: Date, b: Date)
    requires ValidDate(a) && ValidDate(b) && a.year == b.year && a.month < b.month
    ensures DayNumber(a) < DayNumber(b)
  {
    DayOfYearBounds(a);
    DaysBeforeMonthGrows(a.year, a.month + 1, b.month);
  }

  lemma EarlierDate(a: Date, b: Date)
    requires ValidDate(a) && ValidDate(b) && DateBefore(a, b)
    ensures DayNumber(a) < DayNumber(b)
  {
    if a.year < b.year {
      EarlierYear(a, b);
    } else if a.month < b.month {
      EarlierMonth(a, b);
    }
  }

  /** Day numbers follow calendar order on valid dates. */
  lemma DayNumberOrder(a: Date, b: Date)
    requires ValidDate(a) && ValidDate(b)
    ensures DayNumber(a) < DayNumber(b) <==> DateBefore(a, b)
    ensures DayNumber(a) == DayNumber(b) <==> a == b
  {
    if DateBefore(a, b) {
      EarlierDate(a, b);
    } else if DateBefore(b, a) {
      EarlierDate(b, a);
    }
  }

  // ---------------------------------------------------------------------
  // The `yyyy-MM-dd` key

  /** The `yyyy` field of `SimpleDateFormat`: years before 1 are years B.C., printed as 1 - year. */
  function YearOfEra(y: int): (n: nat)
    ensures n >= 1
  {
    if y >= 1 then y else 1 - y
  }

  /**
   * `SimpleDateFormat("yyyy-MM-dd")`: the year of era in at least four
   * digits, the 1-based month and the day in at least two digits each.
   */
  function DateKey(d: Date): (s: string)
    requires 0 <= d.month < 12 && 1 <= d.day
  {
    Lang.ZeroPad(YearOfEra(d.year), 4) + "-" + Lang.ZeroPad(d.month + 1, 2) + "-" + Lang.ZeroPad(d.day, 2)
  }

  /** The shape of the primary key of an entry: four digits, '-', two digits, '-', two digits. */
  predicate IsDateKey(s: string) {
    |s| == 10 && s[4] == '-' && s[7] == '-' &&
    Lang.AllDigits(s[..4]) && Lang.AllDigits(s[5..7]) && Lang.AllDigits(s[8..])
  }

  /** Three fields joined by '-', the last two of width 2, come back apart by position. */
  lemma SplitKey(y: string, m: string, dd: string)
    requires |m| == 2 && |dd| == 2
    ensures var s := y + "-" + m + "-" + dd;
            |s| == |y| + 6 && s[|y|] == '-' && s[|y| + 3] == '-' &&
            s[..|y|] == y && s[|y| + 1..|y| + 3] == m && s[|y| + 4..] == dd
  {
    var s := y + "-" + m + "-" + dd;
    assert s[..|y|] == y;
    assert s[|y| + 1..|y| + 3] == m;
    assert s[|y| + 4..] == dd;
  }

  /** Two such joins are equal exactly when their fields are. */
  lemma JoinInjective(y1: string, m1: string, d1: string, y2: string, m2: string, d2: string)
    requires |m1| == 2 && |d1| == 2 && |m2| == 2 && |d2| == 2
    ensures y1 + "-" + m1 + "-" + d1 == y2 + "-" + m2 + "-" + d2 <==> y1 == y2 && m1 == m2 && d1 == d2
  {
    SplitKey(y1, m1, d1);
    SplitKey(y2, m2, d2);
  }

  /**
   * For any year, two keys are equal exactly when year of era, month and
   * day agree: each field is padded to a fixed width or ends the key
   * before it, and reads back as its number.
   */
  lemma DateKeyEquality(a: Date, b: Date)
    requires 0 <= a.month < 12 && 1 <= a.day <= 31
    requires 0 <= b.month < 12 && 1 <= b.day <= 31
    ensures DateKey(a) == DateKey(b) <==>
            YearOfEra(a.year) == YearOfEra(b.year) && a.month == b.month && a.day == b.day
  {
    TwoDigits(a.month + 1);
    TwoDigits(a.day);
    TwoDigits(b.month + 1);
    TwoDigits(b.day);
    ZeroPadInjective(YearOfEra(a.year), YearOfEra(b.year), 4);
    ZeroPadInjective(a.month + 1, b.month + 1, 2);
    ZeroPadInjective(a.day, b.day, 2);
    JoinInjective(Lang.ZeroPad(YearOfEra(a.year), 4), Lang.ZeroPad(a.month + 1, 2), Lang.ZeroPad(a.day, 2),
                  Lang.ZeroPad(YearOfEra(b.year), 4), Lang.ZeroPad(b.month + 1, 2), Lang.ZeroPad(b.day, 2));
  }

  /** A month or day number is padded to exactly two digits. */
  lemma TwoDigits(n: nat)
    requires n < 100
    ensures |Lang.ZeroPad(n, 2)| == 2
  {
    assert Lang.Pow10(2) == 100;
    Lang.ZeroPadWidth(n, 2);
  }

  /** Padding to one width keeps distinct numbers distinct. */
  lemma ZeroPadInjective(x: nat, y: nat, width: nat)
    ensures Lang.ZeroPad(x, width) == Lang.ZeroPad(y, width) <==> x == y
  {
    Lang.ZeroPadValue(x, width);
    Lang.ZeroPadValue(y, width);
  }

  /** For years 1 to 9999 a key has the fixed shape, and its three fields read back as the date. */
  lemma DateKeyFields(d: Date)
    requires 1 <= d.year <= 9999 && 0 <= d.month < 12 && 1 <= d.day <= 31
    ensures var s := DateKey(d);
            IsDateKey(s) &&
            Lang.Value(s[..4]) == d.year && Lang.Value(s[5..7]) == d.month + 1 && Lang.Value(s[8..]) == d.day
  {
    assert Lang.Pow10(2) == 100 && Lang.Pow10(4) == 10000;
    PaddedField(d.year, 4);
    PaddedField(d.month + 1, 2);
    PaddedField(d.day, 2);
    KeyShape(Lang.ZeroPad(d.year, 4), Lang.ZeroPad(d.month + 1, 2), Lang.ZeroPad(d.day, 2));
  }

  /** Four digits, '-', two digits, '-', two digits make a key whose fields sit at fixed positions. */
  lemma KeyShape(y: string, m: string, dd: string)
    requires |y| == 4 && |m| == 2 && |dd| == 2
    requires Lang.AllDigits(y) && Lang.AllDigits(m) && Lang.AllDigits(dd)
    ensures var s := y + "-" + m + "-" + dd;
            IsDateKey(s) && s[..4] == y && s[5..7] == m && s[8..] == dd
  {
    SplitKey(y, m, dd);
  }

  /** A number below 10^width padded to width is exactly width digits that read back as the number. */
  lemma PaddedField(n: nat, width: nat)
    requires 1 <= width && n < Lang.Pow10(width)
    ensures var f := Lang.ZeroPad(n, width);
            |f| == width && Lang.AllDigits(f) && Lang.Value(f) == n
  {
    Lang.ZeroPadWidth(n, width);
    Lang.ZeroPadValue(n, width);
  }

  /** Distinct dates of years 1 to 9999 have distinct keys. */
  lemma DateKeyInjective(a: Date, b: Date)
    requires 1 <= a.year <= 9999 && 0 <= a.month < 12 && 1 <= a.day <= 31
    requires 1 <= b.year <= 9999 && 0 <= b.month < 12 && 1 <= b.day <= 31
    ensures DateKey(a) == DateKey(b) <==> a == b
  {
    DateKeyEquality(a, b);
  }
}
