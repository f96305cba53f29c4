// The build date (src/trx-server/build.rs): seconds since the Unix epoch to a civil date,
// proved against the calendar itself.
module BuildDate {

  // ---- Rust's integer operators ------------------------------------------------------

  // `/` truncates toward zero.
  function TruncDiv(a: int, b: int): int
    requires b > 0
  {
    if a >= 0 then a / b else -((-a) / b)
  }

  // `div_euclid` rounds down for a positive divisor.
  function DivEuclid(a: int, b: int): int
    requires b > 0
  {
    a / b
  }

  function AsI32(x: int): int {
    (x + 0x8000_0000) % 0x1_0000_0000 - 0x8000_0000
  }

  // ---- the source's arithmetic ---------------------------------------------------------

  datatype Date = Date(year: int, month: int, day: int)

  function YearOfEra(doe: int): int {
    TruncDiv(doe - TruncDiv(doe, 1_460) + TruncDiv(doe, 36_524) - TruncDiv(doe, 146_096), 365)
  }

  function Civil(days: int): Date {
    var z := days + 719_468;
    var era := TruncDiv(if z >= 0 then z else z - 146_096, 146_097);
    CivilInEra(era, z - era * 146_097)
  }

  function CivilInEra(era: int, doe: int): Date {
    var yoe := YearOfEra(doe);
    var y := yoe + era * 400;
    var doy := doe - (365 * yoe + TruncDiv(yoe, 4) - TruncDiv(yoe, 100));
    var mp := TruncDiv(5 * doy + 2, 153);
    var d := doy - TruncDiv(153 * mp + 2, 5) + 1;
    var m := mp + (if mp < 10 then 3 else -9);
    Date(y + (if m <= 2 then 1 else 0), m, d)
  }

  function UtcYmdFromUnixSecs(secs: int): Date {
    var date := Civil(DivEuclid(secs, 86_400));
    date.(year := AsI32(date.year))
  }

  // ---- the calendar ----------------------------------------------------------------------

  predicate Leap(y: int) {
    y % 4 == 0 && (y % 100 != 0 || y % 400 == 0)
  }

  function MonthLength(y: int, m: int): int {
    if m == 2 then (if Leap(y) then 29 else 28)
    else if m == 4 || m == 6 || m == 9 || m == 11 then 30
    else 31
  }

  predicate IsDate(x: Date) {
    1 <= x.month <= 12 && 1 <= x.day <= MonthLength(x.year, x.month)
  }

  // The day after.
  function Next(x: Date): Date {
    if x.day < MonthLength(x.year, x.month) then x.(day := x.day + 1)
    else if x.month < 12 then Date(x.year, x.month + 1, 1)
    else Date(x.year + 1, 1, 1)
  }

  // Days before 1 January of year `y`, counted from the year 1.
  function DaysBeforeYear(y: int): int {
    365 * (y - 1) + (y - 1) / 4 - (y - 1) / 100 + (y - 1) / 400
  }

  function DaysBeforeMonth(y: int, m: int): int
    decreases m
  {
    if m <= 1 then 0 else DaysBeforeMonth(y, m - 1) + MonthLength(y, m - 1)
  }

  // Day 0 is 1 January 1970.
  function DayNumber(x: Date): int {
    DaysBeforeYear(x.year) + DaysBeforeMonth(x.year, x.month) + x.day - 1 - 719_162
  }

  lemma MonthTable(y: int)
    ensures var l := if Leap(y) then 1 else 0;
            DaysBeforeMonth(y, 1) == 0 && DaysBeforeMonth(y, 2) == 31 && DaysBeforeMonth(y, 3) == 59 + l
            && DaysBeforeMonth(y, 4) == 90 + l && DaysBeforeMonth(y, 5) == 120 + l && DaysBeforeMonth(y, 6) == 151 + l
            && DaysBeforeMonth(y, 7) == 181 + l && DaysBeforeMonth(y, 8) == 212 + l && DaysBeforeMonth(y, 9) == 243 + l
            && DaysBeforeMonth(y, 10) == 273 + l && DaysBeforeMonth(y, 11) == 304 + l
            && DaysBeforeMonth(y, 12) == 334 + l
  {
    assert DaysBeforeMonth(y, 2) == 31;
    var f := 59 + if Leap(y) then 1 else 0;
    assert DaysBeforeMonth(y, 3) == f;
    assert DaysBeforeMonth(y, 4) == f + 31;
    assert DaysBeforeMonth(y, 5) == f + 61;
    assert DaysBeforeMonth(y, 6) == f + 92;
    assert DaysBeforeMonth(y, 7) == f + 122;
    assert DaysBeforeMonth(y, 8) == f + 153;
    assert DaysBeforeMonth(y, 9) == f + 184;
    assert DaysBeforeMonth(y, 10) == f + 214;
    assert DaysBeforeMonth(y, 11) == f + 245;
  }

  lemma YearLength(y: int)
    ensures DaysBeforeYear(y + 1) == DaysBeforeYear(y) + (if Leap(y) then 366 else 365)
  {
    QuotientStep(y, 4);
    QuotientStep(y, 100);
    QuotientStep(y, 400);
    Multiples(y);
  }

  lemma Multiples(y: int)
    ensures y % 400 == 0 ==> y % 100 == 0
    ensures y % 100 == 0 ==> y % 4 == 0
  {
    var a, b := y / 400, y / 100;
    if y % 400 == 0 {
      AddMultiple(0, 100, 4 * a);
    }
    if y % 100 == 0 {
      AddMultiple(0, 4, 25 * b);
    }
  }

  lemma QuotientStep(y: int, n: int)
    requires n in {4, 100, 400}
    ensures y / n == (y - 1) / n + (if y % n == 0 then 1 else 0)
  {
  }

  // The day number really counts days: it is 0 on 1 January 1970 and grows by one per day.
  lemma DayNumberCounts(x: Date)
    requires IsDate(x)
    ensures DayNumber(Date(1970, 1, 1)) == 0
    ensures IsDate(Next(x)) && DayNumber(Next(x)) == DayNumber(x) + 1
  {
    MonthTable(x.year);
    MonthTable(x.year + 1);
    YearLength(x.year);
  }

  // ---- the year inside an era --------------------------------------------------------------

  // A year of the era that starts on 1 March, by its first day.
  function MarchYear(yoe: int): int {
    365 * yoe + yoe / 4 - yoe / 100
  }

  // Days counted in centuries, four-year cycles, years and days.
  datatype Split = Split(century: int, cycle: int, year: int, day: int)

  predicate IsSplit(x: Split) {
    && 0 <= x.century <= 3 && 0 <= x.cycle <= 24 && 0 <= x.year <= 3
    && 0 <= x.day <= (if x.year == 3 && LongCycle(x) then 365 else 364)
  }

  // The last cycle of a century ends without a leap day, except at the end of the era.
  predicate LongCycle(x: Split) {
    x.cycle < 24 || x.century == 3
  }

  function DayOfEra(x: Split): int {
    36_524 * x.century + 1_461 * x.cycle + 365 * x.year + x.day
  }

  function SplitOf(doe: int): Split {
    var b := if doe == 146_096 then 3 else doe / 36_524;
    var r := doe - 36_524 * b;
    var q := if r == 36_524 then 24 else r / 1_461;
    var s := r - 1_461 * q;
    var t := if s / 365 <= 3 then s / 365 else 3;
    Split(b, q, t, s - 365 * t)
  }

  lemma Splits(doe: int)
    requires 0 <= doe <= 146_096
    ensures IsSplit(SplitOf(doe)) && DayOfEra(SplitOf(doe)) == doe
  {
  }

  function YearOfSplit(x: Split): int {
    100 * x.century + 4 * x.cycle + x.year
  }

  lemma YearOfSplitStart(x: Split)
    requires IsSplit(x)
    ensures 0 <= YearOfSplit(x) <= 399
    ensures MarchYear(YearOfSplit(x)) == DayOfEra(x) - x.day
  {
    var y := YearOfSplit(x);
    assert y / 4 == 25 * x.century + x.cycle;
    assert y / 100 == x.century;
  }

  // The day inside the year reaches 365 only in years whose February (in the next civil
  // year) has 29 days.
  lemma LeapDay(x: Split)
    requires IsSplit(x) && x.day == 365
    ensures Leap(YearOfSplit(x) + 1)
  {
    var n := YearOfSplit(x) + 1;
    assert n == 4 * (25 * x.century + x.cycle + 1);
    if x.cycle < 24 {
      assert n % 100 == 4 * x.cycle + 4;
    } else {
      assert n == 400;
    }
  }

  // The correction terms of the formula find the right year on every day of the era.
  lemma YearOfEraIsYear(x: Split)
    requires IsSplit(x)
    ensures YearOfEra(DayOfEra(x)) == YearOfSplit(x)
  {
    var doe := DayOfEra(x);
    var s := 365 * x.year + x.day;
    CenturyTerm(x, doe, s);
    CycleTerm(x, doe, s);
    var e := if s + x.cycle + 24 * x.century >= 1_460 then 1 else 0;
    var n := doe - doe / 1_460 + doe / 36_524 - doe / 146_096;
    assert n == 365 * YearOfSplit(x) + x.day - e;
  }

  lemma CenturyTerm(x: Split, doe: int, s: int)
    requires IsSplit(x) && doe == DayOfEra(x) && s == 365 * x.year + x.day
    ensures doe / 36_524 - doe / 146_096 == x.century
  {
  }

  lemma CycleTerm(x: Split, doe: int, s: int)
    requires IsSplit(x) && doe == DayOfEra(x) && s == 365 * x.year + x.day
    ensures doe / 1_460 == 25 * x.century + x.cycle + (if s + x.cycle + 24 * x.century >= 1_460 then 1 else 0)
  {
    assert doe == 1_460 * (25 * x.century + x.cycle) + (s + x.cycle + 24 * x.century);
  }

  // ---- the date of a day -----------------------------------------------------------------------

  // Month and day from the day of a year that starts on 1 March.
  function MonthOf(doy: int): int {
    var mp := (5 * doy + 2) / 153;
    if mp < 10 then mp + 3 else mp - 9
  }

  function DayOf(doy: int): int {
    doy - (153 * ((5 * doy + 2) / 153) + 2) / 5 + 1
  }

  // The 153-day formula against the table of month lengths.
  lemma MonthFormula(y: int, doy: int)
    requires 0 <= doy <= 365
    ensures var m := MonthOf(doy);
            var l := if Leap(y) then 1 else 0;
            1 <= m <= 12
            && (m >= 3
                ==> DaysBeforeMonth(y, m) + DayOf(doy) - 1 == 59 + l + doy && 1 <= DayOf(doy) <= MonthLength(y, m))
            && (m <= 2 ==> DaysBeforeMonth(y, m) + DayOf(doy) - 1 == doy - 306 && 1 <= DayOf(doy))
            && (m == 1 ==> DayOf(doy) <= 31) && (m == 2 ==> DayOf(doy) <= (if doy == 365 then 29 else 28))
  {
    MonthTable(y);
  }

  lemma MarchOffset(y: int)
    ensures DaysBeforeYear(y) + 59 + (if Leap(y) then 1 else 0) == 365 * y + y / 4 - y / 100 + y / 400 - 306
    ensures DaysBeforeYear(y + 1) == 365 * y + y / 4 - y / 100 + y / 400
  {
    YearLength(y);
  }

  lemma EraShift(yoe: int, era: int)
    requires 0 <= yoe <= 399
    ensures var y := yoe + 400 * era;
            365 * y + y / 4 - y / 100 + y / 400 == 146_097 * era + MarchYear(yoe)
            && Leap(y + 1) == Leap(yoe + 1)
  {
    AddMultiple(yoe, 4, 100 * era);
    AddMultiple(yoe, 100, 4 * era);
    AddMultiple(yoe, 400, era);
    AddMultiple(yoe + 1, 4, 100 * era);
    AddMultiple(yoe + 1, 100, 4 * era);
    AddMultiple(yoe + 1, 400, era);
  }

  lemma AddMultiple(a: int, n: int, k: int)
    requires n in {4, 100, 400}
    ensures (a + n * k) / n == a / n + k && (a + n * k) % n == a % n
  {
  }

  lemma EraOf(z: int, era: int, doe: int)
    requires 0 <= doe <= 146_096 && z == 146_097 * era + doe
    ensures TruncDiv(if z >= 0 then z else z - 146_096, 146_097) == era
  {
  }

  // What the source computes, in terms of the split day.
  lemma CivilIsSplit(days: int, era: int, x: Split)
    requires IsSplit(x) && days + 719_468 == 146_097 * era + DayOfEra(x)
    ensures var m := MonthOf(x.day);
            Civil(days) == Date(YearOfSplit(x) + 400 * era + (if m <= 2 then 1 else 0), m, DayOf(x.day))
  {
    hide CivilInEra, MonthOf, DayOf, YearOfSplit, DayOfEra;
    DayOfEraRange(x);
    EraOf(days + 719_468, era, DayOfEra(x));
    CivilInEraIsSplit(era, x);
  }

  lemma CivilInEraIsSplit(era: int, x: Split)
    requires IsSplit(x)
    ensures var m := MonthOf(x.day);
            CivilInEra(era, DayOfEra(x))
            == Date(YearOfSplit(x) + 400 * era + (if m <= 2 then 1 else 0), m, DayOf(x.day))
  {
    YearOfEraIsYear(x);
    YearOfSplitStart(x);
    MonthAndDay(x.day);
    MarchYearTerms(YearOfSplit(x));
  }

  lemma MarchYearTerms(yoe: int)
    requires yoe >= 0
    ensures 365 * yoe + TruncDiv(yoe, 4) - TruncDiv(yoe, 100) == MarchYear(yoe)
  {
  }

  lemma MonthAndDay(doy: int)
    requires 0 <= doy <= 365
    ensures var mp := TruncDiv(5 * doy + 2, 153);
            mp + (if mp < 10 then 3 else -9) == MonthOf(doy) && doy - TruncDiv(153 * mp + 2, 5) + 1 == DayOf(doy)
  {
  }

  lemma DayOfEraRange(x: Split)
    requires IsSplit(x)
    ensures 0 <= DayOfEra(x) <= 146_096
  {
  }

  // For every day count, negative ones included, the result is a calendar date and its
  // day number is that count.
  lemma CivilIsTheDate(days: int)
    ensures IsDate(Civil(days)) && DayNumber(Civil(days)) == days
  {
    var z := days + 719_468;
    var era := z / 146_097;
    var x := SplitOf(z % 146_097);
    Splits(z % 146_097);
    CivilIsSplit(days, era, x);
    SplitDate(days, era, x);
  }

  lemma SplitDate(days: int, era: int, x: Split)
    requires IsSplit(x) && days + 719_468 == 146_097 * era + DayOfEra(x)
    ensures var m := MonthOf(x.day);
            var date := Date(YearOfSplit(x) + 400 * era + (if m <= 2 then 1 else 0), m, DayOf(x.day));
            IsDate(date) && DayNumber(date) == days
  {
    hide MonthOf, DayOf, DayOfEra;
    var y := YearOfSplit(x) + 400 * era;
    YearOfSplitStart(x);
    EraShift(YearOfSplit(x), era);
    MarchOffset(y);
    MonthFormula(y, x.day);
    MonthFormula(y + 1, x.day);
    if x.day == 365 {
      LeapDay(x);
    }
  }

  // ---- a bijection that keeps the order of days ----------------------------------------------------

  lemma {:induction false} YearsGrow(a: int, b: int)
    requires a <= b
    ensures DaysBeforeYear(b) - DaysBeforeYear(a) >= 365 * (b - a)
    decreases b - a
  {
    if a == b {
    } else {
      YearLength(a);
      YearsGrow(a + 1, b);
    }
  }

  lemma {:induction false} MonthsGrow(y: int, a: int, b: int)
    requires 1 <= a <= b <= 12
    ensures DaysBeforeMonth(y, b) >= DaysBeforeMonth(y, a)
    ensures a < b ==> DaysBeforeMonth(y, b) >= DaysBeforeMonth(y, a) + MonthLength(y, a)
    decreases b - a
  {
    if a == b {
    } else {
      MonthsGrow(y, a + 1, b);
      assert DaysBeforeMonth(y, a + 1) == DaysBeforeMonth(y, a) + MonthLength(y, a);
    }
  }

  // A later year starts after every date of an earlier one.
  lemma YearBounds(x: Date)
    requires IsDate(x)
    ensures DaysBeforeYear(x.year) <= DayNumber(x) + 719_162 < DaysBeforeYear(x.year + 1)
  {
    MonthTable(x.year);
    YearLength(x.year);
  }

  lemma DayNumberInjective(a: Date, b: Date)
    requires IsDate(a) && IsDate(b) && DayNumber(a) == DayNumber(b)
    ensures a == b
  {
    SameYear(a, b);
    if a.month < b.month {
      EarlierMonth(a, b);
    } else if b.month < a.month {
      EarlierMonth(b, a);
    }
  }

  lemma SameYear(a: Date, b: Date)
    requires IsDate(a) && IsDate(b) && DayNumber(a) == DayNumber(b)
    ensures a.year == b.year
  {
    YearBounds(a);
    YearBounds(b);
    if a.year < b.year {
      YearsGrow(a.year + 1, b.year);
    } else if b.year < a.year {
      YearsGrow(b.year + 1, a.year);
    }
  }

  lemma EarlierMonth(a: Date, b: Date)
    requires IsDate(a) && IsDate(b) && a.year == b.year && a.month < b.month
    ensures DayNumber(a) < DayNumber(b)
  {
    MonthsGrow(a.year, a.month, b.month);
  }

  // Every calendar date is produced, by its day number and by no other.
  lemma EveryDateReached(x: Date, days: int)
    requires IsDate(x)
    ensures Civil(days) == x <==> DayNumber(x) == days
  {
    CivilIsTheDate(days);
    if DayNumber(x) == days {
      DayNumberInjective(Civil(days), x);
    }
  }

  // Consecutive days get consecutive dates.
  lemma NextDayNextDate(days: int)
    ensures Civil(days + 1) == Next(Civil(days))
  {
    CivilIsTheDate(days);
    CivilIsTheDate(days + 1);
    DayNumberCounts(Civil(days));
    DayNumberInjective(Civil(days + 1), Next(Civil(days)));
  }

  // ---- the cast to a 32-bit year ---------------------------------------------------------------------

  const FIRST_SECOND := -67_768_100_567_971_200
  const LAST_SECOND := 67_767_976_233_532_799

  // The program's result is the true date exactly for the seconds whose year fits into 32
  // bits, from 1 January -2147483648 to 31 December 2147483647.
  lemma DateIsRight(secs: int)
    ensures UtcYmdFromUnixSecs(secs) == Civil(secs / 86_400) <==> FIRST_SECOND <= secs <= LAST_SECOND
  {
    var days := secs / 86_400;
    var date := Civil(days);
    CivilIsTheDate(days);
    YearBounds(date);
    if date.year < -0x8000_0000 {
      YearsGrow(date.year + 1, -0x8000_0000);
    } else {
      YearsGrow(-0x8000_0000, date.year);
    }
    if date.year > 0x7FFF_FFFF {
      YearsGrow(0x8000_0000, date.year);
    } else {
      YearsGrow(date.year + 1, 0x8000_0000);
    }
    CastKeeps(date.year);
  }

  lemma CastKeeps(x: int)
    ensures AsI32(x) == x <==> -0x8000_0000 <= x <= 0x7FFF_FFFF
  {
  }
}
