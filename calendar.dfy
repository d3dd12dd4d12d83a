/**
 * Timestamps of the service: naive local date-times, counted in whole seconds
 * from 1970-01-01 00:00, with the two operations the service applies to them:
 * adding a number of days, and taking the (year, month) key of the month a
 * timestamp falls in.
 */
module Calendar {

  type Timestamp = int

  const SecondsPerDay := 86400

  /** `t + timedelta(days=days)`. */
  function AddDays(t: Timestamp, days: nat): (r: Timestamp)
    ensures days > 0 ==> r > t
  {
    t + days * SecondsPerDay
  }

  /** The month key a timestamp is counted under (what `strftime("%Y-%m")` prints). */
  datatype YearMonth = YearMonth(year: int, month: int)

  /**
   * The proleptic Gregorian (year, month) of a timestamp: day number to civil
   * date by 400-year eras counted from 0000-03-01.
   */
  function MonthOf(t: Timestamp): (ym: YearMonth)
    ensures 1 <= ym.month <= 12
  {
    MonthOfDay(t / SecondsPerDay)
  }

  /** The (year, month) of a day number counted from 1970-01-01. */
  function MonthOfDay(days: int): (ym: YearMonth)
    ensures 1 <= ym.month <= 12
  {
    var z := days + 719468;
    var era := z / 146097;
    MonthOfEraDay(era, z - era * 146097)
  }

  /** The (year, month) of day `doe` of the 400-year era `era`, both counted from 1 March. */
  function MonthOfEraDay(era: int, doe: int): (ym: YearMonth)
    requires 0 <= doe < 146097
    ensures 1 <= ym.month <= 12
  {
    YearOfEraBounds(doe);
    var yoe := YearOfEra(doe);
    var mp := MarchMonthOfDay(doe - DayOfEra(yoe, 0));
    var m := if mp < 10 then mp + 3 else mp - 9;
    YearMonth(yoe + era * 400 + (if m <= 2 then 1 else 0), m)
  }

  /** The year of the era that day `doe` of the era falls in (leap days of years 3, 7, …, 399 removed). */
  function YearOfEra(doe: int): int {
    (doe - doe / 1460 + doe / 36524 - doe / 146096) / 365
  }

  /** The March-based month that day `doy` of a March-based year falls in. */
  function MarchMonthOfDay(doy: int): (mp: int)
    requires 0 <= doy <= 365
    ensures 0 <= mp < 12
  {
    (5 * doy + 2) / 153
  }

  // ---- The calendar MonthOf decodes ----

  predicate IsLeapYear(y: int) {
    y % 4 == 0 && (y % 100 != 0 || y % 400 == 0)
  }

  function DaysInMonth(y: int, m: int): int
    requires 1 <= m <= 12
  {
    if m == 2 then (if IsLeapYear(y) then 29 else 28)
    else if m == 4 || m == 6 || m == 9 || m == 11 then 30
    else 31
  }

  /** A day of the proleptic Gregorian calendar. */
  predicate ValidDate(y: int, m: int, d: int) {
    1 <= m <= 12 && 1 <= d <= DaysInMonth(y, m)
  }

  /** The day after y-m-d. */
  function NextDay(y: int, m: int, d: int): (int, int, int)
    requires ValidDate(y, m, d)
  {
    if d < DaysInMonth(y, m) then (y, m, d + 1)
    else if m < 12 then (y, m + 1, 1)
    else (y + 1, 1, 1)
  }

  /** Day of the March-based year on which day `d` of March-based month `mp` falls (0 = 1 March). */
  function DayOfYear(mp: int, d: int): int {
    (153 * mp + 2) / 5 + d - 1
  }

  /** Day of the 400-year era on which day `doy` of year `yoe` of the era falls (0 = 1 March of year 0). */
  function DayOfEra(yoe: int, doy: int): int {
    yoe * 365 + yoe / 4 - yoe / 100 + doy
  }

  /** The March-based year that y-m falls in: January and February belong to the year before. */
  function MarchYear(y: int, m: int): int {
    if m <= 2 then y - 1 else y
  }

  /** The March-based month of m: March is 0, February is 11. */
  function MarchMonth(m: int): int {
    if m > 2 then m - 3 else m + 9
  }

  /**
   * The day number of y-m-d, counted from 1970-01-01: years are taken from
   * March, so that a leap day ends its year, and grouped in 400-year eras.
   */
  function DaysFromCivil(y: int, m: int, d: int): int
    requires ValidDate(y, m, d)
  {
    var yp := MarchYear(y, m);
    var era := yp / 400;
    era * 146097 + DayOfEra(yp - era * 400, DayOfYear(MarchMonth(m), d)) - 719468
  }

  /** Day 0 is 1970-01-01. */
  lemma CivilEpoch()
    ensures DaysFromCivil(1970, 1, 1) == 0
  {
  }

  /** Whether the March-based year `yoe` of an era ends with a leap day. */
  predicate LeapYoe(yoe: int) {
    (yoe + 1) % 4 == 0 && ((yoe + 1) % 100 != 0 || yoe == 399)
  }

  /** The length of March-based month `mp` in year `yoe` of an era. */
  function MarchMonthLength(yoe: int, mp: int): int {
    if mp == 11 then (if LeapYoe(yoe) then 29 else 28)
    else if mp == 1 || mp == 3 || mp == 6 || mp == 8 then 30
    else 31
  }

  /** The year y that ends March-based year `yoe` of era `era` is leap exactly when that year ends with a leap day. */
  lemma LeapOfYearOfEra(y: int, era: int, yoe: int)
    requires 0 <= yoe < 400 && y == era * 400 + yoe + 1
    ensures IsLeapYear(y) <==> LeapYoe(yoe)
  {
    var w := yoe + 1;
    EuclideanRemainder(y, 4, 100 * era + w / 4, w % 4);
    EuclideanRemainder(y, 100, 4 * era + w / 100, w % 100);
    EuclideanRemainder(y, 400, era + w / 400, w % 400);
  }

  /** The calendar month m of year y has the length of its March-based month. */
  lemma MonthLengths(y: int, m: int)
    requires 1 <= m <= 12
    ensures var yp := MarchYear(y, m);
      DaysInMonth(y, m) == MarchMonthLength(yp - yp / 400 * 400, MarchMonth(m))
  {
    var yp := MarchYear(y, m);
    if m == 2 {
      LeapOfYearOfEra(y, yp / 400, yp - yp / 400 * 400);
    }
  }

  /** The months of a March-based year follow each other without gaps. */
  lemma DayOfYearStep(yoe: int, mp: int)
    requires 0 <= mp < 11
    ensures DayOfYear(mp + 1, 1) == DayOfYear(mp, MarchMonthLength(yoe, mp)) + 1
  {
  }

  /** The years of an era follow each other without gaps. */
  lemma DayOfEraStep(yoe: int)
    requires 0 <= yoe < 399
    ensures DayOfEra(yoe + 1, DayOfYear(0, 1)) == DayOfEra(yoe, DayOfYear(11, MarchMonthLength(yoe, 11))) + 1
  {
    var w := yoe + 1;
    assert w / 4 == yoe / 4 + (if w % 4 == 0 then 1 else 0);
    assert w / 100 == yoe / 100 + (if w % 100 == 0 then 1 else 0);
  }

  /** The eras follow each other without gaps. */
  lemma EraStep()
    ensures DayOfEra(0, DayOfYear(0, 1)) + 146097 == DayOfEra(399, DayOfYear(11, MarchMonthLength(399, 11))) + 1
  {
  }

  /** The day number of y-m-d from its era, year of the era and day of the year. */
  lemma CivilParts(y: int, m: int, d: int, era: int, yoe: int)
    requires ValidDate(y, m, d)
    requires era == MarchYear(y, m) / 400 && yoe == MarchYear(y, m) - era * 400
    ensures DaysFromCivil(y, m, d) == era * 146097 + DayOfEra(yoe, DayOfYear(MarchMonth(m), d)) - 719468
  {
  }

  /** Within a month, the next day is the next day number. */
  lemma NextDayInMonth(y: int, m: int, d: int)
    requires ValidDate(y, m, d) && d < DaysInMonth(y, m)
    ensures DaysFromCivil(y, m, d + 1) == DaysFromCivil(y, m, d) + 1
  {
    var era := MarchYear(y, m) / 400;
    var yoe := MarchYear(y, m) - era * 400;
    CivilParts(y, m, d, era, yoe);
    CivilParts(y, m, d + 1, era, yoe);
  }

  /** The first of a month follows the last of the month before, within a March-based year. */
  lemma NextDayNewMonth(y: int, m: int)
    requires 1 <= m < 12 && m != 2
    ensures DaysFromCivil(y, m + 1, 1) == DaysFromCivil(y, m, DaysInMonth(y, m)) + 1
  {
    var era := MarchYear(y, m) / 400;
    var yoe := MarchYear(y, m) - era * 400;
    MonthLengths(y, m);
    CivilParts(y, m, DaysInMonth(y, m), era, yoe);
    CivilParts(y, m + 1, 1, era, yoe);
    DayOfYearStep(yoe, MarchMonth(m));
  }

  /** New Year's Day follows 31 December. */
  lemma NextDayNewYear(y: int)
    ensures DaysFromCivil(y + 1, 1, 1) == DaysFromCivil(y, 12, 31) + 1
  {
    var era := y / 400;
    var yoe := y - era * 400;
    CivilParts(y, 12, 31, era, yoe);
    CivilParts(y + 1, 1, 1, era, yoe);
    DayOfYearStep(yoe, 9);
  }

  /** 1 March follows the last day of February, which ends the March-based year. */
  lemma NextDayMarch(y: int)
    ensures DaysFromCivil(y, 3, 1) == DaysFromCivil(y, 2, DaysInMonth(y, 2)) + 1
  {
    var era := (y - 1) / 400;
    var yoe := y - 1 - era * 400;
    MonthLengths(y, 2);
    CivilParts(y, 2, DaysInMonth(y, 2), era, yoe);
    if yoe < 399 {
      MarchInEra(y, era, yoe);
    } else {
      MarchNewEra(y, era);
    }
  }

  /** March 1st of a year whose predecessor is not the last of its era. */
  lemma MarchInEra(y: int, era: int, yoe: int)
    requires y - 1 == era * 400 + yoe && 0 <= yoe < 399
    ensures DaysFromCivil(y, 3, 1) == era * 146097 + DayOfEra(yoe, DayOfYear(11, MarchMonthLength(yoe, 11))) + 1 - 719468
  {
    EuclideanDivision(y, 400, era, yoe + 1);
    CivilParts(y, 3, 1, era, yoe + 1);
    DayOfEraStep(yoe);
  }

  /** March 1st of the year that opens a new era. */
  lemma MarchNewEra(y: int, era: int)
    requires y - 1 == era * 400 + 399
    ensures DaysFromCivil(y, 3, 1) == era * 146097 + DayOfEra(399, DayOfYear(11, MarchMonthLength(399, 11))) + 1 - 719468
  {
    EuclideanDivision(y, 400, era + 1, 0);
    CivilParts(y, 3, 1, era + 1, 0);
    EraStep();
  }


  /** Consecutive days have consecutive day numbers. */
  lemma CivilNextDay(y: int, m: int, d: int)
    requires ValidDate(y, m, d)
    ensures var (y', m', d') := NextDay(y, m, d);
      ValidDate(y', m', d') && DaysFromCivil(y', m', d') == DaysFromCivil(y, m, d) + 1
  {
    if d < DaysInMonth(y, m) {
      CivilNextDayInMonth(y, m, d);
    } else if m == 2 {
      CivilNextDayMarch(y, m, d);
    } else if m < 12 {
      CivilNextDayNewMonth(y, m, d);
    } else {
      CivilNextDayNewYear(y, m, d);
    }
  }

  // CivilNextDay, one case of NextDay at a time.

  lemma CivilNextDayInMonth(y: int, m: int, d: int)
    requires ValidDate(y, m, d) && d < DaysInMonth(y, m)
    ensures var (y', m', d') := NextDay(y, m, d);
      ValidDate(y', m', d') && DaysFromCivil(y', m', d') == DaysFromCivil(y, m, d) + 1
  {
    NextDayInMonth(y, m, d);
  }

  lemma CivilNextDayMarch(y: int, m: int, d: int)
    requires ValidDate(y, m, d) && d == DaysInMonth(y, m) && m == 2
    ensures var (y', m', d') := NextDay(y, m, d);
      ValidDate(y', m', d') && DaysFromCivil(y', m', d') == DaysFromCivil(y, m, d) + 1
  {
    NextDayMarch(y);
  }

  lemma CivilNextDayNewMonth(y: int, m: int, d: int)
    requires ValidDate(y, m, d) && d == DaysInMonth(y, m) && m != 2 && m < 12
    ensures var (y', m', d') := NextDay(y, m, d);
      ValidDate(y', m', d') && DaysFromCivil(y', m', d') == DaysFromCivil(y, m, d) + 1
  {
    NextDayNewMonth(y, m);
  }

  lemma CivilNextDayNewYear(y: int, m: int, d: int)
    requires ValidDate(y, m, d) && d == DaysInMonth(y, m) && m == 12
    ensures var (y', m', d') := NextDay(y, m, d);
      ValidDate(y', m', d') && DaysFromCivil(y', m', d') == DaysFromCivil(y, m, d) + 1
  {
    NextDayNewYear(y);
  }


  /** A year of an era in centuries, four-year cycles and years, and the day of the era it starts on. */
  lemma SplitYearOfEra(yoe: int) returns (c: int, q: int, r: int)
    requires 0 <= yoe < 400
    ensures yoe == 100 * c + 4 * q + r && 0 <= c <= 3 && 0 <= q <= 24 && 0 <= r <= 3
    ensures DayOfEra(yoe, 0) == 36524 * c + 1461 * q + 365 * r
  {
    c, q, r := yoe / 100, (yoe % 100) / 4, yoe % 4;
    EuclideanDivision(yoe, 4, 25 * c + q, r);
  }

  /** A day of an era (before its last day) in centuries of 36524 days, four-year cycles of 1461 days, and the rest. */
  lemma SplitDayOfEra(doe: int) returns (c: int, q: int, s: int)
    requires 0 <= doe < 146096
    ensures doe == 36524 * c + 1461 * q + s && 0 <= c <= 3 && 0 <= q <= 24 && 0 <= s < 1461
    ensures 1461 * q + s < 36524
  {
    c := doe / 36524;
    q := (doe - 36524 * c) / 1461;
    s := doe - 36524 * c - 1461 * q;
  }

  /** Up to four years of 365 days. */
  lemma SplitYears(days: int) returns (p: int, x: int)
    requires 0 <= days < 1460
    ensures days == 365 * p + x && 0 <= p <= 3 && 0 <= x < 365
  {
    p, x := days / 365, days % 365;
  }

  /** `YearOfEra` from its quotients, given as `k` (by 1460) and `c` (by 36524). */
  lemma YearOfEraIs(doe: int, k: int, c: int, yoe: int)
    requires 0 <= doe < 146096
    requires 0 <= doe - 1460 * k < 1460
    requires 0 <= doe - 36524 * c < 36524
    requires 0 <= doe - k + c - 365 * yoe < 365
    ensures YearOfEra(doe) == yoe
  {
    EuclideanDivision(doe, 1460, k, doe - 1460 * k);
    EuclideanDivision(doe, 36524, c, doe - 36524 * c);
    EuclideanDivision(doe, 146096, 0, doe);
    EuclideanDivision(doe - k + c, 365, yoe, doe - k + c - 365 * yoe);
  }

  /** Every day of an era falls in a year of the era, on day 0..365 of that year. */
  lemma YearOfEraBounds(doe: int)
    requires 0 <= doe < 146097
    ensures 0 <= YearOfEra(doe) < 400
    ensures 0 <= doe - DayOfEra(YearOfEra(doe), 0) <= 365
  {
    if doe == 146096 {
      assert YearOfEra(doe) == 399;
    } else {
      var c, q, s := SplitDayOfEra(doe);
      var late := if 24 * c + q + s >= 1460 then 1 else 0;
      var p, x := SplitYears(s - late);
      var yoe := 100 * c + 4 * q + p;
      YearOfEraIs(doe, 25 * c + q + late, c, yoe);
      var c', q', r' := SplitYearOfEra(yoe);
      assert c' == c && q' == q && r' == p;
    }
  }

  /** The year of the era is recovered from the day of the era. */
  lemma YearOfEraRecovered(yoe: int, doy: int, doe: int)
    requires 0 <= yoe < 400
    requires 0 <= doy < 365 || (doy == 365 && LeapYoe(yoe))
    requires doe == DayOfEra(yoe, doy)
    ensures 0 <= doe < 146097 && YearOfEra(doe) == yoe
  {
    var c, q, r := SplitYearOfEra(yoe);
    assert doe == 36524 * c + 1461 * q + 365 * r + doy;
    if yoe == 399 && doy == 365 {
      assert doe == 146096;
      assert YearOfEra(doe) == 399;
    } else {
      assert 1461 * q + 365 * r + doy < 36524;
      var late := if 24 * c + q + 365 * r + doy >= 1460 then 1 else 0;
      assert late == 1 ==> doy >= 1;
      assert doy == 365 ==> late == 1;
      YearOfEraIs(doe, 25 * c + q + late, c, yoe);
    }
  }

  /** The March-based month is recovered from the day of the year. */
  lemma MonthRecovered(yoe: int, mp: int, d: int)
    requires 0 <= mp < 12 && 1 <= d <= MarchMonthLength(yoe, mp)
    ensures 0 <= DayOfYear(mp, d) <= 365
    ensures MarchMonthOfDay(DayOfYear(mp, d)) == mp
    ensures DayOfYear(mp, d) == 365 ==> LeapYoe(yoe)
  {
  }

  /** Quotient and remainder are unique. */
  lemma EuclideanDivision(n: int, divisor: int, q: int, r: int)
    requires 0 <= r < divisor && n == q * divisor + r
    ensures n / divisor == q
  {
    var q', r' := n / divisor, n % divisor;
    assert (q' - q) * divisor == r - r' by {
      assert (q' - q) * divisor == q' * divisor - q * divisor;
    }
    if q' > q {
      MultipleAtLeast(q' - q, divisor);
    } else if q' < q {
      MultipleAtLeast(q - q', divisor);
    }
  }

  lemma EuclideanRemainder(n: int, divisor: int, q: int, r: int)
    requires 0 <= r < divisor && n == q * divisor + r
    ensures n % divisor == r
  {
    EuclideanDivision(n, divisor, q, r);
  }

  lemma MultipleAtLeast(k: int, b: int)
    requires k >= 1 && b >= 0
    ensures k * b >= b
  {
    assert k * b == (k - 1) * b + b;
  }

  /** Every second of day `days` lies in that day's month. */
  lemma MonthOfSecond(days: int, s: int)
    requires 0 <= s < SecondsPerDay
    ensures MonthOf(days * SecondsPerDay + s) == MonthOfDay(days)
  {
    EuclideanDivision(days * SecondsPerDay + s, SecondsPerDay, days, s);
  }

  /** A day number splits uniquely into an era and a day of that era. */
  lemma MonthOfEra(days: int, era: int, doe: int)
    requires 0 <= doe < 146097 && days == era * 146097 + doe - 719468
    ensures MonthOfDay(days) == MonthOfEraDay(era, doe)
  {
    var z := days + 719468;
    EuclideanDivision(z, 146097, era, doe);
    assert MonthOfDay(days) == MonthOfEraDay(z / 146097, z - z / 146097 * 146097);
    assert z - z / 146097 * 146097 == doe;
  }

  /** Within an era, the year of the era and the March-based month are recovered. */
  lemma MonthOfYearDay(era: int, yoe: int, mp: int, d: int)
    requires 0 <= yoe < 400 && 0 <= mp < 12 && 1 <= d <= MarchMonthLength(yoe, mp)
    ensures 0 <= DayOfEra(yoe, DayOfYear(mp, d)) < 146097
    ensures var m := if mp < 10 then mp + 3 else mp - 9;
      MonthOfEraDay(era, DayOfEra(yoe, DayOfYear(mp, d)))
        == YearMonth(yoe + era * 400 + (if m <= 2 then 1 else 0), m)
  {
    var doy := DayOfYear(mp, d);
    var doe := DayOfEra(yoe, doy);
    MonthRecovered(yoe, mp, d);
    YearOfEraRecovered(yoe, doy, doe);
    assert doe - DayOfEra(yoe, 0) == doy;
  }

  /** The day number of y-m-d lies in the month (y, m). */
  lemma MonthOfDayCivil(y: int, m: int, d: int)
    requires ValidDate(y, m, d)
    ensures MonthOfDay(DaysFromCivil(y, m, d)) == YearMonth(y, m)
  {
    var yp := MarchYear(y, m);
    var era := yp / 400;
    var yoe := yp - era * 400;
    var mp := MarchMonth(m);
    var doe := DayOfEra(yoe, DayOfYear(mp, d));
    MonthLengths(y, m);
    MonthOfYearDay(era, yoe, mp, d);
    CivilParts(y, m, d, era, yoe);
    MonthOfEra(DaysFromCivil(y, m, d), era, doe);
  }

  /**
   * MonthOf decodes the calendar: any second of the day y-m-d (day number
   * `days` since 1970-01-01) lies in the month key (y, m).
   */
  lemma MonthOfCivil(y: int, m: int, d: int, days: int, s: int)
    requires ValidDate(y, m, d) && days == DaysFromCivil(y, m, d) && 0 <= s < SecondsPerDay
    ensures MonthOf(days * SecondsPerDay + s) == YearMonth(y, m)
  {
    MonthOfDayCivil(y, m, d);
    MonthOfSecond(days, s);
  }

}
