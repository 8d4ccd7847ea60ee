/** The civil date of a day count, and the proleptic Gregorian calendar it must follow. */
module Calendar {
  import opened Strings

  datatype Date = Date(year: int, month: int, day: int)

  datatype Timestamp = Timestamp(date: Date, hour: int, minute: int, second: int)

  /** Division of signed machine integers truncates toward zero. */
  function TruncDiv(a: int, b: int): int
    requires b > 0
  {
    if a >= 0 then a / b else -((-a) / b)
  }

  function CivilFromDays(days: int): Date {
    var z := days + 719_468;
    var era := TruncDiv(if z >= 0 then z else z - 146_096, 146_097);
    var doe := z - era * 146_097;
    var yoe := YearInEra(doe);
    FromMarch(yoe + era * 400, doe - (365 * yoe + TruncDiv(yoe, 4) - TruncDiv(yoe, 100)))
  }

  function YearInEra(doe: int): int {
    TruncDiv(doe - TruncDiv(doe, 1460) + TruncDiv(doe, 36_524) - TruncDiv(doe, 146_096), 365)
  }

  /** The date of a day of a year that begins in March. */
  function FromMarch(y: int, doy: int): Date {
    var mp := TruncDiv(5 * doy + 2, 153);
    var d := doy - TruncDiv(153 * mp + 2, 5) + 1;
    var m := if mp < 10 then mp + 3 else mp - 9;
    Date(if m <= 2 then y + 1 else y, m, d)
  }

  /** `iso_now` without its formatting: the day and the second of the day, split by
      Euclidean division so that the remainder is never negative. */
  function TimestampOf(secs: int): Timestamp {
    var days, rem := secs / 86_400, secs % 86_400;
    Timestamp(CivilFromDays(days), rem / 3600, (rem % 3600) / 60, rem % 60)
  }

  // ── the Gregorian calendar ───────────────────────────────────────────────

  /** Appendix C of RFC 3339, extended to every year. */
  predicate IsLeap(year: int) {
    year % 4 == 0 && (year % 100 != 0 || year % 400 == 0)
  }

  /** Section 5.7 of RFC 3339. */
  function DaysInMonth(year: int, month: int): int
    requires 1 <= month <= 12
  {
    if month == 2 then (if IsLeap(year) then 29 else 28)
    else if month == 4 || month == 6 || month == 9 || month == 11 then 30
    else 31
  }

  predicate ValidDate(d: Date) {
    1 <= d.month <= 12 && 1 <= d.day <= DaysInMonth(d.year, d.month)
  }

  function NextDay(d: Date): Date
    requires ValidDate(d)
  {
    if d.day < DaysInMonth(d.year, d.month) then d.(day := d.day + 1)
    else if d.month < 12 then Date(d.year, d.month + 1, 1)
    else Date(d.year + 1, 1, 1)
  }

  /** The days of the year before the first of a month. */
  function DaysBeforeMonth(year: int, month: int): int
    requires 1 <= month <= 12
  {
    if month == 1 then 0 else DaysBeforeMonth(year, month - 1) + DaysInMonth(year, month - 1)
  }

  /** The days from 0001-01-01 to the first of January of a year: 365 a year and one more
      for each leap year passed. */
  function DaysBeforeYear(year: int): int {
    365 * (year - 1) + (year - 1) / 4 - (year - 1) / 100 + (year - 1) / 400
  }

  function DaysFromCivil(d: Date): int
    requires ValidDate(d)
  {
    DaysBeforeYear(d.year) + DaysBeforeMonth(d.year, d.month) + d.day - 1 - 719_162
  }

  // ── the reference count follows the calendar ─────────────────────────────

  lemma YearLength(y: int)
    ensures DaysBeforeYear(y + 1) == DaysBeforeYear(y) + (if IsLeap(y) then 366 else 365)
  {
    LeapDivisions(y);
  }

  /** Each leap rule adds one to its quotient exactly in the years it divides. */
  lemma LeapDivisions(y: int)
    ensures y / 4 == (y - 1) / 4 + (if y % 4 == 0 then 1 else 0)
    ensures y / 100 == (y - 1) / 100 + (if y % 100 == 0 then 1 else 0)
    ensures y / 400 == (y - 1) / 400 + (if y % 400 == 0 then 1 else 0)
    ensures y % 400 == 0 ==> y % 100 == 0
    ensures y % 100 == 0 ==> y % 4 == 0
  {
    assert y == 4 * (y / 4) + y % 4;
    assert y == 100 * (y / 100) + y % 100;
    assert y == 400 * (y / 400) + y % 400;
    assert y % 100 == 0 ==> y == 4 * (25 * (y / 100));
    assert y % 400 == 0 ==> y == 100 * (4 * (y / 400));
  }

  lemma DaysBeforeMonthTable(year: int)
    ensures var f := if IsLeap(year) then 1 else 0;
            && DaysBeforeMonth(year, 1) == 0 && DaysBeforeMonth(year, 2) == 31
            && DaysBeforeMonth(year, 3) == 59 + f && DaysBeforeMonth(year, 4) == 90 + f
            && DaysBeforeMonth(year, 5) == 120 + f && DaysBeforeMonth(year, 6) == 151 + f
            && DaysBeforeMonth(year, 7) == 181 + f && DaysBeforeMonth(year, 8) == 212 + f
            && DaysBeforeMonth(year, 9) == 243 + f && DaysBeforeMonth(year, 10) == 273 + f
            && DaysBeforeMonth(year, 11) == 304 + f && DaysBeforeMonth(year, 12) == 334 + f
  {
  }

  /** The day count steps by one from each date to its calendar successor. */
  lemma CountFollowsCalendar(d: Date)
    requires ValidDate(d)
    ensures ValidDate(NextDay(d)) && DaysFromCivil(NextDay(d)) == DaysFromCivil(d) + 1
  {
    YearLength(d.year);
    DaysBeforeMonthTable(d.year);
    DaysBeforeMonthTable(d.year + 1);
  }

  /** Distinct valid dates have distinct day counts, in calendar order. */
  lemma CountIsMonotone(a: Date, b: Date)
    requires ValidDate(a) && ValidDate(b)
    requires a.year < b.year
             || (a.year == b.year && (a.month < b.month || (a.month == b.month && a.day < b.day)))
    ensures DaysFromCivil(a) < DaysFromCivil(b)
  {
    if a.year < b.year {
      EarlierYear(a, b);
    } else {
      EarlierDay(a, b);
    }
  }

  lemma EarlierYear(a: Date, b: Date)
    requires ValidDate(a) && ValidDate(b) && a.year < b.year
    ensures DaysFromCivil(a) < DaysFromCivil(b)
  {
    WithinYear(a);
    WithinYear(b);
    YearsIncrease(a.year + 1, b.year);
  }

  /** A date lies between the first day of its year and that of the next. */
  lemma WithinYear(d: Date)
    requires ValidDate(d)
    ensures DaysFromCivil(Date(d.year, 1, 1)) <= DaysFromCivil(d) < DaysFromCivil(Date(d.year + 1, 1, 1))
  {
    DaysBeforeMonthTable(d.year);
    DaysBeforeMonthTable(d.year + 1);
    YearLength(d.year);
  }

  lemma EarlierDay(a: Date, b: Date)
    requires ValidDate(a) && ValidDate(b) && a.year == b.year
    requires a.month < b.month || (a.month == b.month && a.day < b.day)
    ensures DaysFromCivil(a) < DaysFromCivil(b)
  {
    DaysBeforeMonthTable(a.year);
  }

  lemma YearsIncrease(y: int, w: int)
    requires y <= w
    ensures DaysBeforeYear(y) <= DaysBeforeYear(w)
    decreases w - y
  {
    if y < w {
      YearLength(y);
      YearsIncrease(y + 1, w);
    }
  }

  // ── civil_from_days ──────────────────────────────────────────────────────

  /** The first of March of the `y`-th year, in days from 0000-03-01. */
  function MarchFirst(y: int): int {
    365 * y + y / 4 - y / 100 + y / 400
  }

  function YearFormula(doe: int): int {
    (doe - doe / 1460 + doe / 36_524 - doe / 146_096) / 365
  }

  /** The closed formula on a day given by its century, four-year cycle, year and day. */
  lemma YearFormulaAt(c: int, q: int, r: int, g: int)
    requires 0 <= c <= 3 && 0 <= q <= 24 && 0 <= r <= 3 && 0 <= g <= 365
    requires g == 365 ==> r == 3 && (q < 24 || c == 3)
    ensures YearFormula(36_524 * c + 1461 * q + 365 * r + g) == 100 * c + 4 * q + r
  {
    var doe := 36_524 * c + 1461 * q + 365 * r + g;
    var spill := 24 * c + q + 365 * r + g;
    assert doe == 1460 * (25 * c + q) + spill;
    assert doe / 1460 == 25 * c + q + spill / 1460;
    assert 0 <= spill < 2920;
    var within := 1461 * q + 365 * r + g;
    assert doe == 36_524 * c + within;
    assert 0 <= within <= 36_524;
    if within == 36_524 {
      assert doe == 146_096;
    } else {
      assert doe / 36_524 == c;
      assert doe / 146_096 == 0;
    }
  }

  /** The year of the 400-year era, and the day of that year counted from March. */
  lemma YearOfEra(doe: int)
    requires 0 <= doe < 146_097
    ensures var yoe := YearFormula(doe);
            && 0 <= yoe < 400
            && 365 * yoe + yoe / 4 - yoe / 100 <= doe
            && doe < (if yoe == 399 then 146_097 else 365 * (yoe + 1) + (yoe + 1) / 4 - (yoe + 1) / 100)
  {
    var c, q, r, g := SplitEra(doe);
    YearFormulaAt(c, q, r, g);
    YearsBefore(c, q, r);
  }

  /** The century, the four-year cycle, the year of the cycle and the day of the year. */
  lemma SplitEra(doe: int) returns (c: int, q: int, r: int, g: int)
    requires 0 <= doe < 146_097
    ensures 0 <= c <= 3 && 0 <= q <= 24 && 0 <= r <= 3 && 0 <= g <= 365
    ensures g == 365 ==> r == 3 && (q < 24 || c == 3)
    ensures doe == 36_524 * c + 1461 * q + 365 * r + g
  {
    c := if doe == 146_096 then 3 else doe / 36_524;
    var e := doe - 36_524 * c;
    assert 0 <= e <= 36_524 && (e == 36_524 ==> c == 3);
    q := e / 1461;
    var f := e - 1461 * q;
    assert 0 <= q <= 24 && 0 <= f <= 1460 && (f == 1460 ==> q < 24 || c == 3);
    r := if f == 1460 then 3 else f / 365;
    g := f - 365 * r;
  }

  lemma YearsBefore(c: int, q: int, r: int)
    requires 0 <= c <= 3 && 0 <= q <= 24 && 0 <= r <= 3
    ensures var yoe := 100 * c + 4 * q + r;
            && yoe / 4 == 25 * c + q && yoe / 100 == c
            && (yoe + 1) / 4 == 25 * c + q + (if r == 3 then 1 else 0)
            && (yoe + 1) / 100 == c + (if r == 3 && q == 24 then 1 else 0)
  {
  }

  lemma EraIsFloor(z: int)
    ensures TruncDiv(if z >= 0 then z else z - 146_096, 146_097) == z / 146_097
  {
    if z < 0 {
      var q := z / 146_097;
      assert z == 146_097 * q + z % 146_097;
      assert -(z - 146_096) == 146_097 * -q + (146_096 - z % 146_097);
    }
  }

  /** The March-based year holding a day, and the day within it. */
  lemma MarchYear(z: int)
    ensures var era := z / 146_097;
            var doe := z - era * 146_097;
            var yoe := YearFormula(doe);
            var y := yoe + era * 400;
            && 0 <= doe < 146_097 && 0 <= yoe < 400
            && z - MarchFirst(y) == doe - (365 * yoe + yoe / 4 - yoe / 100)
            && MarchFirst(y) <= z < MarchFirst(y + 1)
  {
    var era := z / 146_097;
    var doe := z - era * 146_097;
    YearOfEra(doe);
    MarchFirstOfEra(era, YearFormula(doe));
    MarchFirstOfEra(era, YearFormula(doe) + 1);
  }

  lemma MarchFirstOfEra(era: int, yoe: int)
    requires 0 <= yoe <= 400
    ensures MarchFirst(yoe + era * 400) == 146_097 * era +
            (if yoe == 400 then 146_097 else 365 * yoe + yoe / 4 - yoe / 100)
  {
    var y := yoe + era * 400;
    assert y == 4 * (100 * era) + yoe && y / 4 == 100 * era + yoe / 4;
    assert y == 100 * (4 * era) + yoe && y / 100 == 4 * era + yoe / 100;
    assert y / 400 == era + yoe / 400;
  }

  /** The first of March and the first of January, in the two day counts. */
  lemma MarchAndJanuary(y: int)
    ensures MarchFirst(y) == DaysBeforeYear(y) + DaysBeforeMonth(y, 3) + 306
    ensures MarchFirst(y) == DaysBeforeYear(y + 1)
    ensures MarchFirst(y + 1) - MarchFirst(y) == if IsLeap(y + 1) then 366 else 365
  {
    LeapDivisions(y);
    LeapDivisions(y + 1);
    DaysBeforeMonthTable(y);
  }

  lemma MarchYearLength(y: int)
    ensures MarchFirst(y + 1) - MarchFirst(y) <= 366
  {
    MarchAndJanuary(y);
  }

  /** The date of a day of the March-based year `y`. */
  function MarchDate(y: int, doy: int): Date {
    var mp := (5 * doy + 2) / 153;
    Date(if mp >= 10 then y + 1 else y, if mp < 10 then mp + 3 else mp - 9, doy - (153 * mp + 2) / 5 + 1)
  }

  lemma CivilIsMarchDate(z: int) returns (y: int, doy: int)
    ensures CivilFromDays(z) == MarchDate(y, doy)
    ensures z + 719_468 == MarchFirst(y) + doy
    ensures 0 <= doy < MarchFirst(y + 1) - MarchFirst(y)
  {
    var w := z + 719_468;
    EraIsFloor(w);
    MarchYear(w);
    var era := w / 146_097;
    var doe := w - era * 146_097;
    y := YearFormula(doe) + era * 400;
    doy := w - MarchFirst(y);
    MarchYearLength(y);
    CivilByEra(z, era, doe, YearFormula(doe), doy);
  }

  /** On an era and a day of the era, truncation is never felt. */
  lemma CivilByEra(z: int, era: int, doe: int, yoe: int, doy: int)
    requires era == TruncDiv(if z + 719_468 >= 0 then z + 719_468 else z + 719_468 - 146_096, 146_097)
    requires doe == z + 719_468 - era * 146_097 && doe >= 0
    requires yoe == YearFormula(doe) && yoe >= 0
    requires doy == doe - (365 * yoe + yoe / 4 - yoe / 100) && 0 <= doy <= 366
    ensures CivilFromDays(z) == MarchDate(yoe + era * 400, doy)
  {
    YearInEraIs(doe);
    FromMarchIs(yoe + era * 400, doy);
  }

  lemma YearInEraIs(doe: int)
    requires doe >= 0 && YearFormula(doe) >= 0
    ensures YearInEra(doe) == YearFormula(doe)
  {
  }

  lemma FromMarchIs(y: int, doy: int)
    requires 0 <= doy <= 366
    ensures FromMarch(y, doy) == MarchDate(y, doy)
  {
    assert 0 <= (5 * doy + 2) / 153 <= 11;
  }

  lemma MarchDateIsExact(y: int, doy: int)
    requires 0 <= doy < MarchFirst(y + 1) - MarchFirst(y)
    ensures ValidDate(MarchDate(y, doy))
    ensures DaysFromCivil(MarchDate(y, doy)) == MarchFirst(y) + doy - 719_468
  {
    MarchAndJanuary(y);
    MonthOfDay(y, doy);
  }

  /** `civil_from_days` returns a valid calendar date, and the date has that day count. */
  lemma CivilIsExact(z: int)
    ensures ValidDate(CivilFromDays(z)) && DaysFromCivil(CivilFromDays(z)) == z
  {
    var y, doy := CivilIsMarchDate(z);
    MarchDateIsExact(y, doy);
  }

  /** The month formula finds the month that holds the `doy`-th day after the first of March. */
  lemma MonthOfDay(y: int, doy: int)
    requires 0 <= doy < if IsLeap(y + 1) then 366 else 365
    ensures var mp := (5 * doy + 2) / 153;
            var year := if mp >= 10 then y + 1 else y;
            var month := if mp < 10 then mp + 3 else mp - 9;
            var day := doy - (153 * mp + 2) / 5 + 1;
            && 0 <= mp <= 11
            && 1 <= day <= DaysInMonth(year, month)
            && doy == DaysBeforeMonth(year, month) + day - 1 +
                      (if mp >= 10 then 306 else -DaysBeforeMonth(y, 3))
  {
    DaysBeforeMonthTable(y);
    DaysBeforeMonthTable(y + 1);
  }

  /** The date is the inverse of the day count, from both sides. */
  lemma CountInvertsCivil(d: Date)
    requires ValidDate(d)
    ensures CivilFromDays(DaysFromCivil(d)) == d
  {
    var e := CivilFromDays(DaysFromCivil(d));
    CivilIsExact(DaysFromCivil(d));
    if e != d {
      if e.year < d.year || (e.year == d.year && (e.month < d.month || (e.month == d.month && e.day < d.day))) {
        CountIsMonotone(e, d);
      } else {
        CountIsMonotone(d, e);
      }
    }
  }

  /** Day 0 is 1970-01-01 and each next day is the calendar successor: together these fix
      the date of every day, before and after the epoch. */
  lemma CivilIsGregorian(z: int)
    ensures CivilFromDays(0) == Date(1970, 1, 1)
    ensures ValidDate(CivilFromDays(z)) && CivilFromDays(z + 1) == NextDay(CivilFromDays(z))
  {
    EpochIsDayZero();
    var d := CivilOf(z);
    Successor(d, z);
  }

  /** The date of a day, with its count. */
  lemma CivilOf(z: int) returns (d: Date)
    ensures d == CivilFromDays(z) && ValidDate(d) && DaysFromCivil(d) == z
  {
    CivilIsExact(z);
    d := CivilFromDays(z);
  }

  lemma EpochIsDayZero()
    ensures CivilFromDays(0) == Date(1970, 1, 1)
  {
    assert DaysFromCivil(Date(1970, 1, 1)) == 0;
    CountInvertsCivil(Date(1970, 1, 1));
  }

  lemma Successor(d: Date, z: int)
    requires ValidDate(d) && DaysFromCivil(d) == z
    ensures CivilFromDays(z + 1) == NextDay(d)
  {
    CountFollowsCalendar(d);
    CivilAt(NextDay(d), z + 1);
  }

  lemma CivilAt(d: Date, z: int)
    requires ValidDate(d) && DaysFromCivil(d) == z
    ensures CivilFromDays(z) == d
  {
    CountInvertsCivil(d);
  }

  /** The day and second split loses nothing, before the epoch too. */
  lemma TimestampIsExact(secs: int)
    ensures var t := TimestampOf(secs);
            && ValidDate(t.date) && 0 <= t.hour < 24 && 0 <= t.minute < 60 && 0 <= t.second < 60
            && secs == 86_400 * DaysFromCivil(t.date) + 3600 * t.hour + 60 * t.minute + t.second
  {
    CivilIsExact(secs / 86_400);
    ClockSplit(secs % 86_400);
  }

  lemma ClockSplit(rem: int)
    requires 0 <= rem < 86_400
    ensures 0 <= rem / 3600 < 24 && 0 <= (rem % 3600) / 60 < 60 && 0 <= rem % 60 < 60
    ensures rem == 3600 * (rem / 3600) + 60 * ((rem % 3600) / 60) + rem % 60
  {
    var h, m := rem / 3600, (rem % 3600) / 60;
    assert rem == 3600 * h + rem % 3600;
    assert rem % 3600 == 60 * m + (rem % 3600) % 60;
    assert rem == 60 * (60 * h + m) + (rem % 3600) % 60;
  }

  /** Every intermediate value of `civil_from_days`. */
  function Intermediates(days: int): seq<int> {
    var z := days + 719_468;
    var era := TruncDiv(if z >= 0 then z else z - 146_096, 146_097);
    var doe := z - era * 146_097;
    var yoe := TruncDiv(doe - TruncDiv(doe, 1460) + TruncDiv(doe, 36_524) - TruncDiv(doe, 146_096), 365);
    var doy := doe - (365 * yoe + TruncDiv(yoe, 4) - TruncDiv(yoe, 100));
    var mp := TruncDiv(5 * doy + 2, 153);
    [z, z - 146_096, era, era * 146_097, doe, yoe, era * 400, yoe + era * 400, yoe + era * 400 + 1,
     365 * yoe, doy, 5 * doy + 2, mp, 153 * mp + 2]
  }

  /** No step overflows 64 bits on any day that a 64-bit count of seconds can reach. */
  lemma NoOverflow(secs: int)
    requires IsI64(secs)
    ensures forall k :: 0 <= k < |Intermediates(secs / 86_400)| ==> IsI64(Intermediates(secs / 86_400)[k])
  {
    var z := secs / 86_400 + 719_468;
    EraIsFloor(z);
    MarchYear(z);
    var doe := z - z / 146_097 * 146_097;
    MarchAndJanuary(YearFormula(doe) + z / 146_097 * 400);
  }
}
