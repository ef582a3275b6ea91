/** The civil calendar as three bindings count it (bindings/rust/runtime/src/temporal.rs,
    bindings/go/runtime/temporal.go, bindings/php/runtime/src/Calendar.php), and the counts a temporal
    holds (native/crates/abi/src/lib.rs). */
module Calendar {

  datatype Civil = Civil(year: int, month: int, day: int)

  // ----- as Rust counts it -----

  function DaysFromCivil(year: int, month: int, day: int): int {
    var y := if month <= 2 then year - 1 else year;
    var era := y / 400;
    var yearOfEra := y - era * 400;
    var monthFromMarch := if month > 2 then month - 3 else month + 9;
    var dayOfYear := (153 * monthFromMarch + 2) / 5 + day - 1;
    var dayOfEra := yearOfEra * 365 + yearOfEra / 4 - yearOfEra / 100 + dayOfYear;
    era * 146_097 + dayOfEra - 719_468
  }

  function YearOfEra(dayOfEra: int): int {
    (dayOfEra - dayOfEra / 1_460 + dayOfEra / 36_524 - dayOfEra / 146_096) / 365
  }

  function CivilFromDays(days: int): Civil {
    var d := days + 719_468;
    var era := d / 146_097;
    CivilOfEra(era, d - era * 146_097)
  }

  function CivilOfEra(era: int, dayOfEra: int): Civil {
    var yearOfEra := YearOfEra(dayOfEra);
    var dayOfYear := dayOfEra - (365 * yearOfEra + yearOfEra / 4 - yearOfEra / 100);
    CivilIn(yearOfEra + era * 400, dayOfYear)
  }

  /** The day at `dayOfYear` of the year from March that begins in `year`. */
  function CivilIn(year: int, dayOfYear: int): Civil {
    var monthFromMarch := (5 * dayOfYear + 2) / 153;
    var day := dayOfYear - (153 * monthFromMarch + 2) / 5 + 1;
    var month := if monthFromMarch < 10 then monthFromMarch + 3 else monthFromMarch - 9;
    Civil(if month <= 2 then year + 1 else year, month, day)
  }

  predicate IsLeap(year: int) {
    year % 4 == 0 && (year % 100 != 0 || year % 400 == 0)
  }

  function MonthLength(year: int, month: int): int {
    if month == 1 || month == 3 || month == 5 || month == 7 || month == 8 || month == 10 || month == 12 then 31
    else if month == 4 || month == 6 || month == 9 || month == 11 then 30
    else if IsLeap(year) then 29
    else 28
  }

  /** A day the calendar has, in whatever year. */
  predicate IsDay(c: Civil) {
    1 <= c.month <= 12 && 1 <= c.day <= MonthLength(c.year, c.month)
  }

  const MIN_YEAR := -999_999_999
  const MAX_YEAR := 999_999_999
  const SECONDS_PER_DAY := 86_400

  /** What `Date::new` takes. */
  predicate IsDate(c: Civil) {
    MIN_YEAR <= c.year <= MAX_YEAR && IsDay(c)
  }

  const FIRST_DAY := -365_243_219_162
  const LAST_DAY := 365_241_780_471
  const FIRST_SECOND := -31_557_014_167_219_200
  const LAST_SECOND := 31_556_889_864_403_199

  // ----- years counted from March -----

  /** A year from March, in the order its days come: within an era of four centuries, `century`,
      `leaps` years of four and `rest`. */
  predicate InEra(century: int, leaps: int, rest: int, dayOfYear: int) {
    && 0 <= century <= 3 && 0 <= leaps <= 24 && 0 <= rest <= 3 && 0 <= dayOfYear <= 365
    && (dayOfYear == 365 ==> rest == 3 && (leaps < 24 || century == 3))
  }

  lemma YearOfEraIs(century: int, leaps: int, rest: int, dayOfYear: int)
    requires InEra(century, leaps, rest, dayOfYear)
    ensures var year := 100 * century + 4 * leaps + rest;
            var dayOfEra := 365 * year + year / 4 - year / 100 + dayOfYear;
      && dayOfEra == 36_524 * century + 1_461 * leaps + 365 * rest + dayOfYear && 0 <= dayOfEra < 146_097
      && YearOfEra(dayOfEra) == year
  {
    var year := 100 * century + 4 * leaps + rest;
    assert year / 4 == 25 * century + leaps && year / 100 == century;
    var dayOfEra := 365 * year + year / 4 - year / 100 + dayOfYear;
    var over := if 24 * century + leaps + 365 * rest + dayOfYear < 1_460 then 0 else 1;
    assert dayOfEra / 1_460 == 25 * century + leaps + over;
    var end := if dayOfEra == 146_096 then 1 else 0;
    assert dayOfEra / 36_524 == century + end && dayOfEra / 146_096 == end;
    assert 0 <= dayOfYear - over <= 364;
  }

  /** Every day of an era is of one such year. */
  lemma EraSplits(dayOfEra: int) returns (century: int, leaps: int, rest: int, dayOfYear: int)
    requires 0 <= dayOfEra < 146_097
    ensures InEra(century, leaps, rest, dayOfYear)
    ensures dayOfEra == 36_524 * century + 1_461 * leaps + 365 * rest + dayOfYear
  {
    century := if dayOfEra == 146_096 then 3 else dayOfEra / 36_524;
    var ofCentury := dayOfEra - 36_524 * century;
    leaps := ofCentury / 1_461;
    var ofLeaps := ofCentury - 1_461 * leaps;
    rest := if ofLeaps == 1_460 then 3 else ofLeaps / 365;
    dayOfYear := ofLeaps - 365 * rest;
  }

  function MonthStart(monthFromMarch: int): int {
    (153 * monthFromMarch + 2) / 5
  }

  /** The length of a month counted from March, the last being as long as its year lets it. */
  function LengthFromMarch(monthFromMarch: int, leap: bool): int {
    if monthFromMarch == 11 then (if leap then 29 else 28)
    else if monthFromMarch == 1 || monthFromMarch == 3 || monthFromMarch == 6 || monthFromMarch == 8 then 30
    else 31
  }

  lemma MonthStarts()
    ensures MonthStart(0) == 0 && MonthStart(1) == 31 && MonthStart(2) == 61 && MonthStart(3) == 92 && MonthStart(4) == 122
    ensures MonthStart(5) == 153 && MonthStart(6) == 184 && MonthStart(7) == 214 && MonthStart(8) == 245
    ensures MonthStart(9) == 275 && MonthStart(10) == 306 && MonthStart(11) == 337
  {
  }

  lemma MonthOfDay(monthFromMarch: int, day: int, leap: bool)
    requires 0 <= monthFromMarch <= 11 && 1 <= day <= LengthFromMarch(monthFromMarch, leap)
    ensures var dayOfYear := MonthStart(monthFromMarch) + day - 1;
      (5 * dayOfYear + 2) / 153 == monthFromMarch && 0 <= dayOfYear <= (if leap then 365 else 364)
  {
    MonthStarts();
  }

  lemma DayOfMonth(dayOfYear: int, leap: bool)
    requires 0 <= dayOfYear <= (if leap then 365 else 364)
    ensures var monthFromMarch := (5 * dayOfYear + 2) / 153;
      && 0 <= monthFromMarch <= 11
      && 1 <= dayOfYear - MonthStart(monthFromMarch) + 1 <= LengthFromMarch(monthFromMarch, leap)
  {
    MonthStarts();
    var monthFromMarch := (5 * dayOfYear + 2) / 153;
    assert 153 * monthFromMarch <= 5 * dayOfYear + 2 < 153 * (monthFromMarch + 1);
  }

  /** The year from March a month is in, and which of its months it is. */
  function MarchYear(c: Civil): int {
    if c.month <= 2 then c.year - 1 else c.year
  }

  function FromMarch(month: int): int {
    if month > 2 then month - 3 else month + 9
  }

  lemma LengthIs(c: Civil)
    requires 1 <= c.month <= 12
    ensures MonthLength(c.year, c.month) == LengthFromMarch(FromMarch(c.month), IsLeap(MarchYear(c) + 1))
    ensures 0 <= FromMarch(c.month) <= 11
  {
  }

  lemma LeapInEra(era: int, century: int, leaps: int, rest: int)
    requires 0 <= century <= 3 && 0 <= leaps <= 24 && 0 <= rest <= 3
    ensures IsLeap(era * 400 + 100 * century + 4 * leaps + rest + 1) <==> rest == 3 && (leaps < 24 || century == 3)
  {
    var year := era * 400 + 100 * century + 4 * leaps + rest + 1;
    assert year % 4 == (rest + 1) % 4;
    assert year % 100 == (4 * leaps + rest + 1) % 100;
    assert year % 400 == (100 * century + 4 * leaps + rest + 1) % 400;
  }

  lemma YearSplits(year: int) returns (era: int, century: int, leaps: int, rest: int)
    ensures year == era * 400 + 100 * century + 4 * leaps + rest && era == year / 400
    ensures 0 <= century <= 3 && 0 <= leaps <= 24 && 0 <= rest <= 3
  {
    era := year / 400;
    var ofEra := year - era * 400;
    century := ofEra / 100;
    leaps := (ofEra - 100 * century) / 4;
    rest := ofEra - 100 * century - 4 * leaps;
  }

  /** The count of the day at `dayOfYear` of a year from March. */
  function DaysAt(era: int, century: int, leaps: int, rest: int, dayOfYear: int): int {
    era * 146_097 + 36_524 * century + 1_461 * leaps + 365 * rest + dayOfYear - 719_468
  }

  lemma DaysLaidAt(c: Civil, era: int, century: int, leaps: int, rest: int, dayOfYear: int)
    requires 0 <= century <= 3 && 0 <= leaps <= 24 && 0 <= rest <= 3
    requires MarchYear(c) == era * 400 + 100 * century + 4 * leaps + rest
    requires dayOfYear == MonthStart(FromMarch(c.month)) + c.day - 1
    ensures DaysFromCivil(c.year, c.month, c.day) == DaysAt(era, century, leaps, rest, dayOfYear)
  {
    var year := 100 * century + 4 * leaps + rest;
    assert MarchYear(c) / 400 == era;
    assert year / 4 == 25 * century + leaps && year / 100 == century;
  }

  /** A count of days, split as both ways of the calendar split it. */
  lemma DaysLaid(c: Civil) returns (era: int, century: int, leaps: int, rest: int, dayOfYear: int)
    requires IsDay(c)
    ensures InEra(century, leaps, rest, dayOfYear)
    ensures MarchYear(c) == era * 400 + 100 * century + 4 * leaps + rest
    ensures dayOfYear == MonthStart(FromMarch(c.month)) + c.day - 1
    ensures DaysFromCivil(c.year, c.month, c.day) == DaysAt(era, century, leaps, rest, dayOfYear)
  {
    era, century, leaps, rest := YearSplits(MarchYear(c));
    LengthIs(c);
    LeapInEra(era, century, leaps, rest);
    dayOfYear := MonthStart(FromMarch(c.month)) + c.day - 1;
    MonthOfDay(FromMarch(c.month), c.day, IsLeap(MarchYear(c) + 1));
    DaysLaidAt(c, era, century, leaps, rest, dayOfYear);
  }

  lemma CivilLaid(days: int, era: int, century: int, leaps: int, rest: int, dayOfYear: int)
    requires InEra(century, leaps, rest, dayOfYear) && days == DaysAt(era, century, leaps, rest, dayOfYear)
    ensures CivilFromDays(days) == CivilIn(era * 400 + 100 * century + 4 * leaps + rest, dayOfYear)
  {
    EraOf(era, 36_524 * century + 1_461 * leaps + 365 * rest + dayOfYear);
    EraLaid(era, century, leaps, rest, dayOfYear);
  }

  lemma EraLaid(era: int, century: int, leaps: int, rest: int, dayOfYear: int)
    requires InEra(century, leaps, rest, dayOfYear)
    ensures 0 <= 36_524 * century + 1_461 * leaps + 365 * rest + dayOfYear < 146_097
    ensures CivilOfEra(era, 36_524 * century + 1_461 * leaps + 365 * rest + dayOfYear)
         == CivilIn(era * 400 + 100 * century + 4 * leaps + rest, dayOfYear)
  {
    YearOfEraIs(century, leaps, rest, dayOfYear);
  }

  lemma EraOf(era: int, dayOfEra: int)
    requires 0 <= dayOfEra < 146_097
    ensures (era * 146_097 + dayOfEra) / 146_097 == era
  {
  }

  lemma CivilInMonth(c: Civil)
    requires IsDay(c)
    ensures CivilIn(MarchYear(c), MonthStart(FromMarch(c.month)) + c.day - 1) == c
  {
    LengthIs(c);
    MonthOfDay(FromMarch(c.month), c.day, IsLeap(MarchYear(c) + 1));
  }

  lemma CivilInIsDay(year: int, dayOfYear: int)
    requires 0 <= dayOfYear <= if IsLeap(year + 1) then 365 else 364
    ensures var c := CivilIn(year, dayOfYear);
      IsDay(c) && MarchYear(c) == year && MonthStart(FromMarch(c.month)) + c.day - 1 == dayOfYear
  {
    DayOfMonth(dayOfYear, IsLeap(year + 1));
    LengthIs(CivilIn(year, dayOfYear));
  }

  // ----- the two ways undo each other -----

  /** For every day of the calendar, in any year. */
  lemma CivilOfDays(c: Civil)
    requires IsDay(c)
    ensures CivilFromDays(DaysFromCivil(c.year, c.month, c.day)) == c
  {
    var era, century, leaps, rest, dayOfYear := DaysLaid(c);
    CivilLaid(DaysFromCivil(c.year, c.month, c.day), era, century, leaps, rest, dayOfYear);
    CivilInMonth(c);
  }

  /** For every count of days. */
  lemma DaysOfCivil(days: int)
    ensures var c := CivilFromDays(days); IsDay(c) && DaysFromCivil(c.year, c.month, c.day) == days
  {
    var era := (days + 719_468) / 146_097;
    var century, leaps, rest, dayOfYear := EraSplits(days + 719_468 - era * 146_097);
    CivilLaid(days, era, century, leaps, rest, dayOfYear);
    DaysOfCivilIn(era, century, leaps, rest, dayOfYear);
  }

  lemma DaysOfCivilIn(era: int, century: int, leaps: int, rest: int, dayOfYear: int)
    requires InEra(century, leaps, rest, dayOfYear)
    ensures var c := CivilIn(era * 400 + 100 * century + 4 * leaps + rest, dayOfYear);
      IsDay(c) && DaysFromCivil(c.year, c.month, c.day) == DaysAt(era, century, leaps, rest, dayOfYear)
  {
    LeapInEra(era, century, leaps, rest);
    var year := era * 400 + 100 * century + 4 * leaps + rest;
    CivilInIsDay(year, dayOfYear);
    DaysLaidAt(CivilIn(year, dayOfYear), era, century, leaps, rest, dayOfYear);
  }

  // ----- order -----

  /** The derived order on a date. */
  predicate Before(a: Civil, b: Civil) {
    a.year < b.year || (a.year == b.year && (a.month < b.month || (a.month == b.month && a.day < b.day)))
  }

  function YearStart(year: int): int {
    365 * year + year / 4 - year / 100 + year / 400 - 719_468
  }

  lemma DaysFromYearStart(c: Civil)
    requires IsDay(c)
    ensures DaysFromCivil(c.year, c.month, c.day) == YearStart(MarchYear(c)) + MonthStart(FromMarch(c.month)) + c.day - 1
    ensures YearStart(MarchYear(c)) <= DaysFromCivil(c.year, c.month, c.day) < YearStart(MarchYear(c) + 1)
  {
    var era, century, leaps, rest, dayOfYear := DaysLaid(c);
    var year := MarchYear(c);
    assert year / 4 == 100 * era + 25 * century + leaps && year / 100 == 4 * era + century && year / 400 == era;
    NextYearStart(era, century, leaps, rest);
  }

  lemma NextYearStart(era: int, century: int, leaps: int, rest: int)
    requires 0 <= century <= 3 && 0 <= leaps <= 24 && 0 <= rest <= 3
    ensures var year := era * 400 + 100 * century + 4 * leaps + rest;
      YearStart(year + 1) == YearStart(year) + if rest == 3 && (leaps < 24 || century == 3) then 366 else 365
  {
    var year := era * 400 + 100 * century + 4 * leaps + rest;
    assert year / 4 == 100 * era + 25 * century + leaps && year / 100 == 4 * era + century && year / 400 == era;
    assert (year + 1) / 4 == year / 4 + if rest == 3 then 1 else 0;
    assert (year + 1) / 100 == year / 100 + if rest == 3 && leaps == 24 then 1 else 0;
    assert (year + 1) / 400 == year / 400 + if rest == 3 && leaps == 24 && century == 3 then 1 else 0;
  }

  lemma {:induction false} YearStartsGrow(a: int, b: int)
    requires a <= b
    ensures YearStart(a) <= YearStart(b)
    decreases b - a
  {
    if a < b {
      YearStartsGrow(a, b - 1);
      var era, century, leaps, rest := YearSplits(b - 1);
      NextYearStart(era, century, leaps, rest);
    }
  }

  lemma MonthsFollow(m: int, n: int, day: int, leap: bool)
    requires 0 <= m < n <= 11 && 1 <= day <= LengthFromMarch(m, leap)
    ensures MonthStart(m) + day - 1 < MonthStart(n)
  {
    MonthStarts();
  }

  /** The order of dates is the order of their days. */
  lemma OrderIsDayOrder(a: Civil, b: Civil)
    requires IsDay(a) && IsDay(b)
    ensures Before(a, b) <==> DaysFromCivil(a.year, a.month, a.day) < DaysFromCivil(b.year, b.month, b.day)
  {
    if Before(a, b) {
      BeforeIsLess(a, b);
    } else if a != b {
      BeforeIsLess(b, a);
    }
  }

  /** Counted from March, the earlier of two days is in an earlier year, month or day still. */
  lemma BeforeFromMarch(a: Civil, b: Civil)
    requires 1 <= a.month <= 12 && 1 <= b.month <= 12 && Before(a, b)
    ensures MarchYear(a) <= MarchYear(b)
    ensures MarchYear(a) == MarchYear(b) ==> FromMarch(a.month) <= FromMarch(b.month)
    ensures MarchYear(a) == MarchYear(b) && FromMarch(a.month) == FromMarch(b.month) ==> a.day < b.day
  {
  }

  lemma EarlierYear(a: Civil, b: Civil)
    requires IsDay(a) && IsDay(b) && MarchYear(a) < MarchYear(b)
    ensures DaysFromCivil(a.year, a.month, a.day) < DaysFromCivil(b.year, b.month, b.day)
  {
    DaysFromYearStart(a);
    DaysFromYearStart(b);
    YearStartsGrow(MarchYear(a) + 1, MarchYear(b));
    Chained(DaysFromCivil(a.year, a.month, a.day), YearStart(MarchYear(a) + 1), YearStart(MarchYear(b)),
            DaysFromCivil(b.year, b.month, b.day));
  }

  lemma Chained(p: int, q: int, r: int, s: int)
    requires p < q <= r <= s
    ensures p < s
  {
  }

  lemma LaterInYear(a: Civil, b: Civil)
    requires IsDay(a) && IsDay(b) && MarchYear(a) == MarchYear(b)
    requires FromMarch(a.month) < FromMarch(b.month) || (FromMarch(a.month) == FromMarch(b.month) && a.day < b.day)
    ensures DaysFromCivil(a.year, a.month, a.day) < DaysFromCivil(b.year, b.month, b.day)
  {
    var era, century, leaps, rest := YearSplits(MarchYear(a));
    var x, y := MonthStart(FromMarch(a.month)) + a.day - 1, MonthStart(FromMarch(b.month)) + b.day - 1;
    DaysLaidAt(a, era, century, leaps, rest, x);
    DaysLaidAt(b, era, century, leaps, rest, y);
    LengthIs(a);
    if FromMarch(a.month) < FromMarch(b.month) {
      MonthsFollow(FromMarch(a.month), FromMarch(b.month), a.day, IsLeap(MarchYear(a) + 1));
    }
    assert x < y;
  }

  lemma BeforeIsLess(a: Civil, b: Civil)
    requires IsDay(a) && IsDay(b) && Before(a, b)
    ensures DaysFromCivil(a.year, a.month, a.day) < DaysFromCivil(b.year, b.month, b.day)
  {
    BeforeFromMarch(a, b);
    if MarchYear(a) < MarchYear(b) { EarlierYear(a, b); } else { LaterInYear(a, b); }
  }

  // ----- ranges -----

  /** Dates are exactly the days the ABI says a date holds. */
  lemma DatesAreDays(c: Civil)
    requires IsDay(c)
    ensures IsDate(c) <==> FIRST_DAY <= DaysFromCivil(c.year, c.month, c.day) <= LAST_DAY
  {
    DateDays();
    OrderIsDayOrder(c, Civil(MIN_YEAR, 1, 1));
    OrderIsDayOrder(Civil(MAX_YEAR, 12, 31), c);
    InYears(c);
  }

  lemma DateDays()
    ensures DaysFromCivil(MIN_YEAR, 1, 1) == FIRST_DAY && DaysFromCivil(MAX_YEAR, 12, 31) == LAST_DAY
  {
    DaysLaidAt(Civil(MIN_YEAR, 1, 1), -2_500_000, 0, 0, 0, 306);
    DaysLaidAt(Civil(MAX_YEAR, 12, 31), 2_499_999, 3, 24, 3, 305);
  }

  lemma InYears(c: Civil)
    requires IsDay(c)
    ensures IsDate(c) <==> !Before(c, Civil(MIN_YEAR, 1, 1)) && !Before(Civil(MAX_YEAR, 12, 31), c)
  {
  }

  lemma DaysAreDates(days: int)
    ensures FIRST_DAY <= days <= LAST_DAY <==> IsDate(CivilFromDays(days))
  {
    DaysOfCivil(days);
    DatesAreDays(CivilFromDays(days));
  }

  const FIRST_MOMENT_DAY := -365_243_219_528
  const LAST_MOMENT_DAY := 365_241_780_837

  lemma MomentDays()
    ensures DaysFromCivil(-1_000_000_000, 1, 1) == FIRST_MOMENT_DAY && DaysFromCivil(1_000_000_000, 12, 31) == LAST_MOMENT_DAY
    ensures FIRST_MOMENT_DAY * SECONDS_PER_DAY == FIRST_SECOND && (LAST_MOMENT_DAY + 1) * SECONDS_PER_DAY - 1 == LAST_SECOND
  {
    DaysLaidAt(Civil(-1_000_000_000, 1, 1), -2_500_001, 3, 24, 3, 306);
    DaysLaidAt(Civil(1_000_000_000, 12, 31), 2_500_000, 0, 0, 0, 305);
  }

  lemma YearsAreDays(c: Civil)
    requires IsDay(c)
    ensures -1_000_000_000 <= c.year <= 1_000_000_000 <==> FIRST_MOMENT_DAY <= DaysFromCivil(c.year, c.month, c.day) <= LAST_MOMENT_DAY
  {
    MomentDays();
    OrderIsDayOrder(c, Civil(-1_000_000_000, 1, 1));
    OrderIsDayOrder(Civil(1_000_000_000, 12, 31), c);
  }

  /** Moments are exactly the seconds of the days from the first of year -1000000000 to the last of
      year 1000000000. */
  lemma MomentsAreSeconds(second: int)
    ensures FIRST_SECOND <= second <= LAST_SECOND <==>
      -1_000_000_000 <= CivilFromDays(second / SECONDS_PER_DAY).year <= 1_000_000_000
    ensures DaysFromCivil(-1_000_000_000, 1, 1) * SECONDS_PER_DAY == FIRST_SECOND
    ensures (DaysFromCivil(1_000_000_000, 12, 31) + 1) * SECONDS_PER_DAY - 1 == LAST_SECOND
  {
    var days := second / SECONDS_PER_DAY;
    MomentDays();
    DaysOfCivil(days);
    YearsAreDays(CivilFromDays(days));
    SecondsOfDays(second);
  }

  lemma SecondsOfDays(second: int)
    ensures FIRST_SECOND <= second <= LAST_SECOND <==> FIRST_MOMENT_DAY <= second / SECONDS_PER_DAY <= LAST_MOMENT_DAY
  {
  }

  // ----- sixty-four bits -----

  predicate Fits64(n: int) {
    -0x8000_0000_0000_0000 <= n < 0x8000_0000_0000_0000
  }

  /** Nothing worked out on the way from a day leaves sixty-four bits, for any year a moment can be in. */
  lemma DaysFit(c: Civil)
    requires IsDay(c) && -1_000_000_000 <= c.year <= 1_000_000_000
    ensures var y := MarchYear(c); var era := y / 400; var yearOfEra := y - era * 400;
      && Fits64(y) && Fits64(era * 400) && Fits64(yearOfEra * 365) && Fits64(153 * FromMarch(c.month) + 2)
      && Fits64(yearOfEra * 365 + yearOfEra / 4 - yearOfEra / 100 + MonthStart(FromMarch(c.month)) + c.day - 1)
      && Fits64(era * 146_097)
      && Fits64((DaysFromCivil(c.year, c.month, c.day) + 1) * SECONDS_PER_DAY)
      && Fits64(DaysFromCivil(c.year, c.month, c.day) * SECONDS_PER_DAY)
  {
    LengthIs(c);
    MonthStarts();
  }

  /** Nor on the way back, for any count of seconds a sixty-four bit word holds. */
  lemma CivilFits(second: int)
    requires Fits64(second)
    ensures var d := second / SECONDS_PER_DAY + 719_468; var era := d / 146_097; var dayOfEra := d - era * 146_097;
      && Fits64(d) && Fits64(era * 146_097) && Fits64(dayOfEra) && Fits64(365 * YearOfEra(dayOfEra))
      && Fits64(era * 400 + YearOfEra(dayOfEra) + 1)
  {
    var d := second / SECONDS_PER_DAY + 719_468;
    var dayOfEra := d - d / 146_097 * 146_097;
    var century, leaps, rest, dayOfYear := EraSplits(dayOfEra);
    YearOfEraIs(century, leaps, rest, dayOfYear);
  }

  // ----- as Go and PHP count it, dividing toward nought -----

  function Truncated(a: int, b: int): int
    requires b > 0
  {
    if a >= 0 then a / b else -((-a) / b)
  }

  function Left(a: int, b: int): int
    requires b > 0
  {
    a - Truncated(a, b) * b
  }

  function FloorDiv(a: int, b: int): int
    requires b > 0
  {
    var q := Truncated(a, b);
    if Left(a, b) != 0 && (a < 0) != (b < 0) then q - 1 else q
  }

  function FloorMod(a: int, b: int): int
    requires b > 0
  {
    a - FloorDiv(a, b) * b
  }

  lemma FloorIsEuclidean(a: int, b: int)
    requires b > 0
    ensures FloorDiv(a, b) == a / b && FloorMod(a, b) == a % b
  {
    if a < 0 {
      var q, r := (-a) / b, (-a) % b;
      assert -a == q * b + r;
      Negative(a, b, q, r);
    } else {
      assert Truncated(a, b) * b == a / b * b;
      assert a == a / b * b + a % b;
    }
  }

  lemma Negative(a: int, b: int, q: int, r: int)
    requires b > 0 && -a == q * b + r && 0 <= r < b
    ensures a / b == if r == 0 then -q else -q - 1
    ensures -((-a) / b) == -q && a - -q * b == -r && a % b == if r == 0 then 0 else b - r
  {
    if r == 0 {
      Quotient(a, b, -q, 0);
    } else {
      assert (-q - 1) * b == -q * b - b;
      Quotient(a, b, -q - 1, b - r);
    }
    Quotient(-a, b, q, r);
    assert -q * b == -(q * b);
  }

  lemma Quotient(a: int, b: int, q: int, r: int)
    requires b > 0 && a == q * b + r && 0 <= r < b
    ensures a / b == q && a % b == r
  {
    var q0, r0 := a / b, a % b;
    assert a == q0 * b + r0;
    assert (q - q0) * b == q * b - q0 * b;
    NoMultiple(q - q0, b);
  }

  lemma NoMultiple(k: int, b: int)
    requires b > 0 && -b < k * b < b
    ensures k == 0
  {
    assert (k - 1) * b == k * b - b && (-k - 1) * b == -(k * b) - b;
    assert k > 0 ==> (k - 1) * b >= 0;
    assert k < 0 ==> (-k - 1) * b >= 0;
  }

  function GoCivilIn(year: int, dayOfYear: int): Civil {
    var monthFromMarch := Truncated(5 * dayOfYear + 2, 153);
    var day := dayOfYear - Truncated(153 * monthFromMarch + 2, 5) + 1;
    var month := if monthFromMarch < 10 then monthFromMarch + 3 else monthFromMarch - 9;
    Civil(if month <= 2 then year + 1 else year, month, day)
  }

  function GoYearOfEra(dayOfEra: int): int {
    Truncated(dayOfEra - Truncated(dayOfEra, 1_460) + Truncated(dayOfEra, 36_524) - Truncated(dayOfEra, 146_096), 365)
  }

  function GoCivilFromDays(days: int): Civil {
    var d := days + 719_468;
    var era := FloorDiv(d, 146_097);
    GoCivilOfEra(era, d - era * 146_097)
  }

  function GoCivilOfEra(era: int, dayOfEra: int): Civil {
    var yearOfEra := GoYearOfEra(dayOfEra);
    var dayOfYear := dayOfEra - (365 * yearOfEra + Truncated(yearOfEra, 4) - Truncated(yearOfEra, 100));
    GoCivilIn(yearOfEra + era * 400, dayOfYear)
  }

  function GoDaysFromCivil(year: int, month: int, day: int): int {
    var y := if month <= 2 then year - 1 else year;
    var era := FloorDiv(y, 400);
    var yearOfEra := y - era * 400;
    var monthFromMarch := Left(month + 9, 12);
    var dayOfYear := Truncated(153 * monthFromMarch + 2, 5) + day - 1;
    var dayOfEra := yearOfEra * 365 + Truncated(yearOfEra, 4) - Truncated(yearOfEra, 100) + dayOfYear;
    era * 146_097 + dayOfEra - 719_468
  }

  predicate GoIsLeap(year: int) {
    FloorMod(year, 4) == 0 && (FloorMod(year, 100) != 0 || FloorMod(year, 400) == 0)
  }

  /** They are the one calendar, for every count of days and every day of it. */
  lemma GoCountsTheSame(days: int)
    ensures GoCivilFromDays(days) == CivilFromDays(days)
  {
    FloorIsEuclidean(days + 719_468, 146_097);
    var era := (days + 719_468) / 146_097;
    GoEraIs(era, days + 719_468 - era * 146_097);
  }

  lemma GoEraIs(era: int, dayOfEra: int)
    requires 0 <= dayOfEra < 146_097
    ensures GoCivilOfEra(era, dayOfEra) == CivilOfEra(era, dayOfEra)
  {
    var century, leaps, rest, dayOfYear := EraSplits(dayOfEra);
    EraLaid(era, century, leaps, rest, dayOfYear);
    GoEraLaid(era, century, leaps, rest, dayOfYear);
    GoCivilInIs(era * 400 + 100 * century + 4 * leaps + rest, dayOfYear);
  }

  lemma GoEraLaid(era: int, century: int, leaps: int, rest: int, dayOfYear: int)
    requires InEra(century, leaps, rest, dayOfYear)
    ensures GoCivilOfEra(era, 36_524 * century + 1_461 * leaps + 365 * rest + dayOfYear)
         == GoCivilIn(era * 400 + 100 * century + 4 * leaps + rest, dayOfYear)
  {
    YearOfEraIs(century, leaps, rest, dayOfYear);
    GoYearIs(36_524 * century + 1_461 * leaps + 365 * rest + dayOfYear);
    TruncatedYear(100 * century + 4 * leaps + rest);
  }

  lemma TruncatedYear(year: int)
    requires year >= 0
    ensures Truncated(year, 4) == year / 4 && Truncated(year, 100) == year / 100
  {
  }

  lemma GoYearIs(dayOfEra: int)
    requires 0 <= dayOfEra < 146_097
    ensures GoYearOfEra(dayOfEra) == YearOfEra(dayOfEra)
  {
  }

  lemma GoCivilInIs(year: int, dayOfYear: int)
    requires 0 <= dayOfYear <= 365
    ensures GoCivilIn(year, dayOfYear) == CivilIn(year, dayOfYear)
  {
  }

  lemma GoCountsBackTheSame(c: Civil)
    requires 1 <= c.month <= 12
    ensures GoDaysFromCivil(c.year, c.month, c.day) == DaysFromCivil(c.year, c.month, c.day)
  {
    FloorIsEuclidean(MarchYear(c), 400);
  }

  lemma GoLeapsTheSame(year: int)
    ensures GoIsLeap(year) <==> IsLeap(year)
  {
    FloorIsEuclidean(year, 4);
    FloorIsEuclidean(year, 100);
    FloorIsEuclidean(year, 400);
  }
}
