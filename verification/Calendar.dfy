/** The day arithmetic behind every ledger timestamp: `civil_from_days` and the
    RFC 3339 rendering of `now_rfc3339`, against a table-driven Gregorian calendar. */
module Calendar {

  datatype Date = Date(year: int, month: int, day: int)

  // ----- the closed form of the source -----

  /** Rust's `/`: truncation toward zero. */
  function TruncDiv(a: int, b: int): int
    requires b > 0
  {
    if a >= 0 then a / b else -((-a) / b)
  }

  function CivilFromDays(days: int): Date {
    var z := days + 719_468;
    var era := TruncDiv(if z >= 0 then z else z - 146_096, 146_097);
    DateInEra(era, z - era * 146_097)
  }

  /** Day `doe` of a 400-year era that starts on March 1. */
  function DateInEra(era: int, doe: int): Date {
    var yoe := YearOfEra(doe);
    var y := yoe + era * 400;
    var doy := doe - (365 * yoe + TruncDiv(yoe, 4) - TruncDiv(yoe, 100));
    var mp := TruncDiv(5 * doy + 2, 153);
    var d := doy - TruncDiv(153 * mp + 2, 5) + 1;
    var m := if mp < 10 then mp + 3 else mp - 9;
    Date(if m <= 2 then y + 1 else y, m, d)
  }

  function YearOfEra(doe: int): int {
    TruncDiv(doe - TruncDiv(doe, 1460) + TruncDiv(doe, 36_524) - TruncDiv(doe, 146_096), 365)
  }

  // ----- the Gregorian calendar, by its rules -----

  predicate IsLeap(y: int) {
    y % 4 == 0 && (y % 100 != 0 || y % 400 == 0)
  }

  function DaysInMonth(y: int, m: int): int {
    if m == 2 then (if IsLeap(y) then 29 else 28)
    else if m in {4, 6, 9, 11} then 30
    else 31
  }

  predicate ValidDate(x: Date) {
    1 <= x.month <= 12 && 1 <= x.day <= DaysInMonth(x.year, x.month)
  }

  function NextDay(x: Date): Date {
    if x.day < DaysInMonth(x.year, x.month) then x.(day := x.day + 1)
    else if x.month < 12 then Date(x.year, x.month + 1, 1)
    else Date(x.year + 1, 1, 1)
  }

  predicate Before(a: Date, b: Date) {
    a.year < b.year || (a.year == b.year &&
    (a.month < b.month || (a.month == b.month && a.day < b.day)))
  }

  /** Days from 1970-01-01 to January 1 of `y`. */
  function DaysBeforeYear(y: int): int {
    365 * (y - 1970) + (y - 1) / 4 - (y - 1) / 100 + (y - 1) / 400 - 477
  }

  function DaysBeforeMonth(y: int, m: int): int
    requires 1 <= m <= 12
  {
    if m == 1 then 0 else DaysBeforeMonth(y, m - 1) + DaysInMonth(y, m - 1)
  }

  function DayNumber(x: Date): int
    requires 1 <= x.month <= 12
  {
    DaysBeforeYear(x.year) + DaysBeforeMonth(x.year, x.month) + x.day - 1
  }

  // ----- the ordinal of a date is strictly monotonic -----

  /** Division by the calendar's three periods, from its defining equation. */
  lemma FloorUnique(a: int, k: int, q: int, r: int)
    requires k in {4, 100, 400} && 0 <= r < k && a == k * q + r
    ensures a / k == q && a % k == r
  {
    if k == 4 {
      assert a == 4 * q + r;
    } else if k == 100 {
      assert a == 100 * q + r;
    } else {
      assert a == 400 * q + r;
    }
  }

  lemma FloorSteps(a: int, k: int)
    requires k in {4, 100, 400}
    ensures a / k == (a - 1) / k + (if a % k == 0 then 1 else 0)
  {
    if a % k == 0 {
      FloorUnique(a - 1, k, a / k - 1, k - 1);
    } else {
      FloorUnique(a - 1, k, a / k, a % k - 1);
    }
  }

  lemma YearLength(y: int)
    ensures DaysBeforeYear(y + 1) == DaysBeforeYear(y) + (if IsLeap(y) then 366 else 365)
  {
    FloorSteps(y, 4);
    FloorSteps(y, 100);
    FloorSteps(y, 400);
    LeapNesting(y);
  }

  lemma LeapNesting(y: int)
    ensures y % 100 == 0 ==> y % 4 == 0
    ensures y % 400 == 0 ==> y % 100 == 0
  {
  }

  lemma {:induction false} YearsMonotonic(y: int, y': int)
    requires y < y'
    ensures DaysBeforeYear(y) + 365 <= DaysBeforeYear(y')
    ensures DaysBeforeYear(y + 1) <= DaysBeforeYear(y')
    decreases y' - y
  {
    YearLength(y);
    if y + 1 < y' {
      YearsMonotonic(y + 1, y');
    }
  }

  lemma MonthTable(y: int)
    ensures var l := if IsLeap(y) then 1 else 0;
            && DaysBeforeMonth(y, 1) == 0
            && DaysBeforeMonth(y, 2) == 31
            && DaysBeforeMonth(y, 3) == 59 + l
            && DaysBeforeMonth(y, 4) == 90 + l
            && DaysBeforeMonth(y, 5) == 120 + l
            && DaysBeforeMonth(y, 6) == 151 + l
            && DaysBeforeMonth(y, 7) == 181 + l
            && DaysBeforeMonth(y, 8) == 212 + l
            && DaysBeforeMonth(y, 9) == 243 + l
            && DaysBeforeMonth(y, 10) == 273 + l
            && DaysBeforeMonth(y, 11) == 304 + l
            && DaysBeforeMonth(y, 12) == 334 + l
  {
    assert DaysBeforeMonth(y, 2) == DaysBeforeMonth(y, 1) + 31;
    assert DaysBeforeMonth(y, 4) == DaysBeforeMonth(y, 3) + 31;
    assert DaysBeforeMonth(y, 6) == DaysBeforeMonth(y, 5) + 31;
    assert DaysBeforeMonth(y, 8) == DaysBeforeMonth(y, 7) + 31;
    assert DaysBeforeMonth(y, 10) == DaysBeforeMonth(y, 9) + 30;
  }

  lemma DayNumberMonotonic(a: Date, b: Date)
    requires ValidDate(a) && ValidDate(b)
    ensures Before(a, b) <==> DayNumber(a) < DayNumber(b)
    ensures a == b <==> DayNumber(a) == DayNumber(b)
  {
    if Before(a, b) {
      DayNumberIncreases(a, b);
    } else if Before(b, a) {
      DayNumberIncreases(b, a);
    }
  }

  lemma DayNumberIncreases(a: Date, b: Date)
    requires ValidDate(a) && ValidDate(b) && Before(a, b)
    ensures DayNumber(a) < DayNumber(b)
  {
    MonthTable(a.year);
    MonthTable(b.year);
    if a.year < b.year {
      YearLength(a.year);
      YearsMonotonic(a.year, b.year);
    }
  }

  lemma NextDayNumber(x: Date)
    requires ValidDate(x)
    ensures ValidDate(NextDay(x)) && DayNumber(NextDay(x)) == DayNumber(x) + 1
  {
    MonthTable(x.year);
    MonthTable(x.year + 1);
    YearLength(x.year);
  }

  // ----- the closed form computes the date with a given ordinal -----

  /** A day of the 400-year era lies in the March-based year `YearOfEra` names. */
  lemma YearOfEraBounds(doe: int)
    requires 0 <= doe < 146_097
    ensures var y := YearOfEra(doe);
            && 0 <= y < 400
            && 0 <= doe - (365 * y + y / 4 - y / 100) <= 365
            && (doe - (365 * y + y / 4 - y / 100) == 365 ==> IsLeap(y + 1))
  {
    var c, q, t, r := EraDigits(doe);
    YearFromDigits(doe, c, q, t, r);
    var y := 100 * c + 4 * q + t;
    assert y / 4 == 25 * c + q && y / 100 == c;
  }

  /** Century, leap cycle, year and day of a day of the era; only the last of each may be one longer. */
  lemma EraDigits(doe: int) returns (c: int, q: int, t: int, r: int)
    requires 0 <= doe < 146_097
    ensures 0 <= c <= 3 && 0 <= q <= 24 && 0 <= t <= 3 && 0 <= r <= 365
    ensures doe == 36_524 * c + 1461 * q + 365 * t + r
    ensures r == 365 ==> t == 3 && (q == 24 ==> c == 3)
    ensures q == 24 && c < 3 ==> 365 * t + r < 1460
  {
    c := if doe == 146_096 then 3 else doe / 36_524;
    var rc := doe - 36_524 * c;
    q := rc / 1461;
    var rq := rc - 1461 * q;
    t := if rq == 1460 then 3 else rq / 365;
    r := rq - 365 * t;
  }

  lemma YearFromDigits(doe: int, c: int, q: int, t: int, r: int)
    requires 0 <= doe < 146_097
    requires 0 <= c <= 3 && 0 <= q <= 24 && 0 <= t <= 3 && 0 <= r <= 365
    requires doe == 36_524 * c + 1461 * q + 365 * t + r
    requires r == 365 ==> t == 3 && (q == 24 ==> c == 3)
    requires q == 24 && c < 3 ==> 365 * t + r < 1460
    ensures YearOfEra(doe) == 100 * c + 4 * q + t
  {
    var slack := 24 * c + q + 365 * t + r;
    var carry := if slack >= 1460 then 1 else 0;
    var last := if doe == 146_096 then 1 else 0;
    Quotient(doe, 1460, 25 * c + q + carry, slack - 1460 * carry);
    Quotient(doe, 36_524, c + last, doe - 36_524 * (c + last));
    Quotient(doe, 146_096, last, doe - 146_096 * last);
    Quotient(365 * (100 * c + 4 * q + t) + r - carry, 365, 100 * c + 4 * q + t, r - carry);
  }

  lemma Quotient(a: int, k: int, q: int, r: int)
    requires k in {365, 1460, 36_524, 146_096}
    requires a == k * q + r && 0 <= r < k
    ensures a / k == q
  {
    if k == 365 {
      assert a == 365 * q + r;
    } else if k == 1460 {
      assert a == 1460 * q + r;
    } else if k == 36_524 {
      assert a == 36_524 * q + r;
    } else {
      assert a == 146_096 * q + r;
    }
  }

  lemma EraIsFloor(z: int)
    ensures TruncDiv(if z >= 0 then z else z - 146_096, 146_097) == z / 146_097
  {
  }

  /** March 1 of a year, as an ordinal, in the era decomposition. */
  lemma MarchFirst(era: int, yoe: int)
    requires 0 <= yoe < 400
    ensures var y := 400 * era + yoe;
            DaysBeforeYear(y) + 59 + (if IsLeap(y) then 1 else 0)
            == 146_097 * era + 365 * yoe + yoe / 4 - yoe / 100 - 719_468
  {
    var y := 400 * era + yoe;
    FloorUnique(y, 4, 100 * era + yoe / 4, yoe % 4);
    FloorUnique(y, 100, 4 * era + yoe / 100, yoe % 100);
    FloorUnique(y, 400, era, yoe);
    FloorSteps(y, 4);
    FloorSteps(y, 100);
    FloorSteps(y, 400);
    LeapNesting(y);
  }

  lemma LeapPeriod(era: int, y: int)
    ensures IsLeap(400 * era + y) == IsLeap(y)
  {
    FloorUnique(400 * era + y, 4, 100 * era + y / 4, y % 4);
    FloorUnique(400 * era + y, 100, 4 * era + y / 100, y % 100);
    FloorUnique(400 * era + y, 400, era + y / 400, y % 400);
  }

  /** The date `doy` days after March 1 of `y`, by the source's month formula. */
  function MarchDate(y: int, doy: int): Date {
    var mp := (5 * doy + 2) / 153;
    var m := if mp < 10 then mp + 3 else mp - 9;
    Date(if m <= 2 then y + 1 else y, m, doy - (153 * mp + 2) / 5 + 1)
  }

  /** The closed form, once year and day of year are known. */
  lemma DateInEraIs(era: int, doe: int)
    requires 0 <= YearOfEra(doe)
    requires 0 <= doe - (365 * YearOfEra(doe) + YearOfEra(doe) / 4 - YearOfEra(doe) / 100)
    ensures DateInEra(era, doe)
            == MarchDate(400 * era + YearOfEra(doe), doe - (365 * YearOfEra(doe) + YearOfEra(doe) / 4 - YearOfEra(doe) / 100))
  {
  }

  lemma CivilByEra(days: int)
    ensures CivilFromDays(days) == DateInEra((days + 719_468) / 146_097, (days + 719_468) % 146_097)
  {
    EraIsFloor(days + 719_468);
  }

  /** Counting `doy` days on from March 1 of `y`, by the month formula. */
  lemma DayOfMarchYear(y: int, doy: int)
    requires 0 <= doy <= 365 && (doy == 365 ==> IsLeap(y + 1))
    ensures var x := MarchDate(y, doy);
            && ValidDate(x)
            && DayNumber(x) == DaysBeforeYear(y) + 59 + (if IsLeap(y) then 1 else 0) + doy
  {
    MonthOfDay(doy);
    MonthTable(y);
    MonthTable(y + 1);
    YearLength(y);
  }

  lemma MarchDateOrdinal(days: int, era: int, yoe: int, doy: int)
    requires 0 <= yoe < 400 && 0 <= doy <= 365 && (doy == 365 ==> IsLeap(yoe + 1))
    requires days + 719_468 == 146_097 * era + 365 * yoe + yoe / 4 - yoe / 100 + doy
    ensures ValidDate(MarchDate(400 * era + yoe, doy))
    ensures DayNumber(MarchDate(400 * era + yoe, doy)) == days
  {
    LeapPeriod(era, yoe + 1);
    assert 400 * era + (yoe + 1) == (400 * era + yoe) + 1;
    MarchFirst(era, yoe);
    DayOfMarchYear(400 * era + yoe, doy);
  }

  lemma DateInEraOrdinal(era: int, doe: int)
    requires 0 <= doe < 146_097
    ensures ValidDate(DateInEra(era, doe))
    ensures DayNumber(DateInEra(era, doe)) == 146_097 * era + doe - 719_468
  {
    YearOfEraBounds(doe);
    var yoe := YearOfEra(doe);
    DateInEraIs(era, doe);
    MarchDateOrdinal(146_097 * era + doe - 719_468, era, yoe, doe - (365 * yoe + yoe / 4 - yoe / 100));
  }

  /** Every integer day gets a valid date, and the date's ordinal is that day. */
  lemma CivilHasOrdinal(days: int)
    ensures ValidDate(CivilFromDays(days))
    ensures DayNumber(CivilFromDays(days)) == days
  {
    CivilByEra(days);
    DateInEraOrdinal((days + 719_468) / 146_097, (days + 719_468) % 146_097);
  }

  /** The `(153 * mp + 2) / 5` month formula, month by month from March. */
  lemma MonthOfDay(doy: int)
    requires 0 <= doy <= 365
    ensures var mp := (5 * doy + 2) / 153;
            && 0 <= mp <= 11
            && (153 * mp + 2) / 5 == [0, 31, 61, 92, 122, 153, 184, 214, 245, 275, 306, 337][mp]
            && 0 <= doy - (153 * mp + 2) / 5 < [31, 30, 31, 30, 31, 31, 30, 31, 30, 31, 31, 29][mp]
  {
  }

  // ----- main results -----

  lemma Epoch()
    ensures CivilFromDays(0) == Date(1970, 1, 1)
  {
  }

  /** Stepping the day steps the Gregorian calendar, for every integer day. */
  lemma CivilStepsByOneDay(days: int)
    ensures CivilFromDays(days + 1) == NextDay(CivilFromDays(days))
  {
    var x := CivilFromDays(days);
    CivilHasOrdinal(days);
    CivilHasOrdinal(days + 1);
    NextDayNumber(x);
    DayNumberMonotonic(NextDay(x), CivilFromDays(days + 1));
  }

  /** Later days are later dates, and only those. */
  lemma CivilIsMonotonic(a: int, b: int)
    ensures a < b <==> Before(CivilFromDays(a), CivilFromDays(b))
    ensures a == b <==> CivilFromDays(a) == CivilFromDays(b)
  {
    CivilHasOrdinal(a);
    CivilHasOrdinal(b);
    DayNumberMonotonic(CivilFromDays(a), CivilFromDays(b));
  }

  /** With monotonicity this makes the map a bijection onto the valid dates. */
  lemma CivilIsOnto(x: Date)
    requires ValidDate(x)
    ensures CivilFromDays(DayNumber(x)) == x
  {
    CivilHasOrdinal(DayNumber(x));
    DayNumberMonotonic(CivilFromDays(DayNumber(x)), x);
  }
}
