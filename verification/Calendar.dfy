/**
 Calendar arithmetic of the EXSLT date functions: days since 1970-01-01 and dates of the proleptic
 Gregorian calendar, and the ISO 8601 week. Division is the source's, which truncates toward zero.
 */
module Calendar {
  datatype Date = Date(year: int, month: nat, day: nat)

  /** Division as the source's language does it. */
  function Quotient(a: int, b: int): int
    requires b > 0
  {
    if a >= 0 then a / b else -(-a / b)
  }

  function Remainder(a: int, b: int): int
    requires b > 0
  {
    a - b * Quotient(a, b)
  }

  /** Which run of `length` a number falls in, rounding down by hand where it is negative. */
  function EraOf(n: int, length: int): int
    requires length > 0
  {
    Quotient(if n >= 0 then n else n - (length - 1), length)
  }

  predicate IsLeap(year: int) {
    (Remainder(year, 4) == 0 && Remainder(year, 100) != 0) || Remainder(year, 400) == 0
  }

  function DaysInMonth(year: int, month: nat): nat {
    match month
    case 1 => 31 case 3 => 31 case 5 => 31 case 7 => 31 case 8 => 31 case 10 => 31 case 12 => 31
    case 4 => 30 case 6 => 30 case 9 => 30 case 11 => 30
    case 2 => if IsLeap(year) then 29 else 28
    case _ => 0
  }

  predicate IsDate(d: Date) {
    1 <= d.month <= 12 && 1 <= d.day <= DaysInMonth(d.year, d.month)
  }

  function DaysBeforeMonth(year: int, month: nat): nat {
    if month <= 1 then 0 else DaysBeforeMonth(year, month - 1) + DaysInMonth(year, month - 1)
  }

  /** A date's number within its year: the lengths of the months gone by, and its day. */
  function DayOfYear(d: Date): nat {
    DaysBeforeMonth(d.year, d.month) + d.day
  }

  /** A date as a count of days; 1970-01-01 is day zero. */
  function DaysFromCivil(d: Date): int {
    var year := if d.month <= 2 then d.year - 1 else d.year;
    var era := EraOf(year, 400);
    var yearOfEra := year - era * 400;
    var dayOfYear := Quotient(153 * (if d.month > 2 then d.month - 3 else d.month + 9) + 2, 5) + d.day - 1;
    var dayOfEra := yearOfEra * 365 + Quotient(yearOfEra, 4) - Quotient(yearOfEra, 100) + dayOfYear;
    era * 146_097 + dayOfEra - 719_468
  }

  function YearOfEra(dayOfEra: int): int {
    Quotient(dayOfEra - Quotient(dayOfEra, 1460) + Quotient(dayOfEra, 36_524) - Quotient(dayOfEra, 146_096), 365)
  }

  /** A count that the source casts to an unsigned number. */
  function Cast(n: int): nat {
    if n >= 0 then n else 0
  }

  /** The date that a count of days names. */
  function CivilFromDays(count: int): Date {
    var days := count + 719_468;
    var era := EraOf(days, 146_097);
    var dayOfEra := days - era * 146_097;
    var yearOfEra := YearOfEra(dayOfEra);
    MarchDate(yearOfEra + era * 400, DayInYearOfEra(dayOfEra, yearOfEra))
  }

  function DayInYearOfEra(dayOfEra: int, yearOfEra: int): int {
    dayOfEra - (365 * yearOfEra + Quotient(yearOfEra, 4) - Quotient(yearOfEra, 100))
  }

  /** The date of a day of a year that begins in March. */
  function MarchDate(year: int, dayOfYear: int): Date {
    var monthPrime := Quotient(5 * dayOfYear + 2, 153);
    var day := Cast(dayOfYear - Quotient(153 * monthPrime + 2, 5) + 1);
    var month := Cast(if monthPrime < 10 then monthPrime + 3 else monthPrime - 9);
    Date(if month <= 2 then year + 1 else year, month, day)
  }

  /** The weekday by number, Sunday being 1 and Saturday 7. */
  function DayOfWeek(d: Date): nat {
    (DaysFromCivil(d) + 4) % 7 + 1
  }

  /** The number of weeks that belong to a year by ISO 8601. */
  function WeeksInYear(year: int): nat {
    var first := DayOfWeek(Date(year, 1, 1));
    if first == 5 || (IsLeap(year) && first == 4) then 53 else 52
  }

  /** The week a date belongs to, which may be one of the year before or after. */
  function IsoWeek(d: Date): int {
    var weekday := if DayOfWeek(d) == 1 then 7 else DayOfWeek(d) - 1;
    var week := Quotient(DayOfYear(d) - weekday + 10, 7);
    if week < 1 then WeeksInYear(d.year - 1)
    else if week > WeeksInYear(d.year) then 1
    else week
  }

  // --- Years that begin in March ----------------------------------------------------------------------

  /** The first day of the year that begins on the first of March. */
  function MarchFirst(year: int): int {
    365 * year + year / 4 - year / 100 + year / 400 - 719_468
  }

  function YearLength(year: int): int {
    if IsLeap(year) then 366 else 365
  }

  /** The year a date is in when years begin in March, and which day of it, from zero. */
  function MarchYear(d: Date): int {
    if d.month <= 2 then d.year - 1 else d.year
  }

  function DayOfMarchYear(d: Date): int {
    (153 * (if d.month > 2 then d.month - 3 else d.month + 9) + 2) / 5 + d.day - 1
  }

  lemma LeapYears(year: int)
    ensures IsLeap(year) <==> (year % 4 == 0 && year % 100 != 0) || year % 400 == 0
  {
  }

  /** Rounding the quotient of a negative number down by hand is rounding down. */
  lemma Eras(year: int, length: int)
    requires length > 0
    ensures EraOf(year, length) == year / length
    ensures 0 <= year - EraOf(year, length) * length < length
  {
    if year < 0 {
      var q := year / length;
      var r := year % length;
      assert year == q * length + r;
      var n := -(year - (length - 1));
      assert n == (-q) * length + (length - 1 - r);
      QuotientIs(n, length, -q, length - 1 - r);
    }
  }

  lemma QuotientIs(n: int, length: int, q: int, r: int)
    requires length > 0 && n == q * length + r && 0 <= r < length
    ensures n / length == q && n % length == r
  {
    var d := n / length - q;
    assert n == (n / length) * length + n % length;
    assert d * length == r - n % length;
    assert d >= 1 ==> d * length >= length;
    assert d <= -1 ==> d * length <= -length;
  }

  lemma SameDays(d: Date)
    requires IsDate(d)
    ensures DaysFromCivil(d) == MarchFirst(MarchYear(d)) + DayOfMarchYear(d)
  {
    var year := MarchYear(d);
    Eras(year, 400);
    var era := year / 400;
    var yearOfEra := year - era * 400;
    assert year / 4 == 100 * era + yearOfEra / 4;
    assert year / 100 == 4 * era + yearOfEra / 100;
  }

  lemma MarchNext(year: int)
    ensures MarchFirst(year + 1) == MarchFirst(year) + YearLength(year + 1)
  {
    LeapYears(year + 1);
    hide IsLeap;
    FloorNext(year);
  }

  lemma FloorNext(year: int)
    ensures (year + 1) / 4 == year / 4 + if (year + 1) % 4 == 0 then 1 else 0
    ensures (year + 1) / 100 == year / 100 + if (year + 1) % 100 == 0 then 1 else 0
    ensures (year + 1) / 400 == year / 400 + if (year + 1) % 400 == 0 then 1 else 0
  {
  }

  lemma DayOfMarchYearBound(d: Date)
    requires IsDate(d)
    ensures 0 <= DayOfMarchYear(d) < YearLength(MarchYear(d) + 1)
  {
  }

  lemma {:induction false} MarchLater(a: int, b: int)
    requires a < b
    ensures MarchFirst(a) + YearLength(a + 1) <= MarchFirst(b)
    decreases b - a
  {
    MarchNext(b - 1);
    if a < b - 1 {
      MarchLater(a, b - 1);
    }
  }

  // --- Order ------------------------------------------------------------------------------------------

  predicate IsEarlier(a: Date, b: Date) {
    a.year < b.year || (a.year == b.year && (a.month < b.month || (a.month == b.month && a.day < b.day)))
  }

  lemma EarlierInMarchYear(a: Date, b: Date)
    requires IsDate(a) && IsDate(b) && IsEarlier(a, b) && MarchYear(a) == MarchYear(b)
    ensures DayOfMarchYear(a) < DayOfMarchYear(b)
  {
  }

  lemma EarlierHasFewerDays(a: Date, b: Date)
    requires IsDate(a) && IsDate(b) && IsEarlier(a, b)
    ensures DaysFromCivil(a) < DaysFromCivil(b)
  {
    SameDays(a);
    SameDays(b);
    hide DaysFromCivil, DayOfMarchYear, MarchFirst, YearLength, IsLeap;
    DayOfMarchYearBound(a);
    DayOfMarchYearBound(b);
    if MarchYear(a) == MarchYear(b) {
      EarlierInMarchYear(a, b);
    } else {
      MarchLater(MarchYear(a), MarchYear(b));
    }
  }

  /** Counting days keeps the order of dates, and never gives two dates one count. */
  lemma DaysAreMonotone(a: Date, b: Date)
    requires IsDate(a) && IsDate(b)
    ensures IsEarlier(a, b) <==> DaysFromCivil(a) < DaysFromCivil(b)
    ensures a == b <==> DaysFromCivil(a) == DaysFromCivil(b)
  {
    hide DaysFromCivil;
    if IsEarlier(a, b) {
      EarlierHasFewerDays(a, b);
    } else if IsEarlier(b, a) {
      EarlierHasFewerDays(b, a);
    }
  }

  // --- Days to dates ------------------------------------------------------------------------------------

  /** A day of an era of 400 years: which century, which four years of it, which year of those, which day. */
  datatype EraDay = EraDay(century: int, leapCycle: int, year: int, day: int) {
    predicate IsValid() {
      && 0 <= century < 4 && 0 <= leapCycle < 25 && 0 <= year < 4
      && 0 <= day <= (if year == 3 && (leapCycle < 24 || century == 3) then 365 else 364)
    }

    function YearOfEra(): int {
      100 * century + 4 * leapCycle + year
    }

    function DayOfEra(): int {
      36_524 * century + 1461 * leapCycle + 365 * year + day
    }
  }

  function EraDayOf(dayOfEra: int): EraDay {
    var century := if dayOfEra == 146_096 then 3 else dayOfEra / 36_524;
    var inCentury := dayOfEra - 36_524 * century;
    var leapCycle := inCentury / 1461;
    var inCycle := inCentury - 1461 * leapCycle;
    var year := if inCycle == 1460 then 3 else inCycle / 365;
    EraDay(century, leapCycle, year, inCycle - 365 * year)
  }

  lemma EveryDayIsAnEraDay(dayOfEra: int)
    requires 0 <= dayOfEra < 146_097
    ensures EraDayOf(dayOfEra).IsValid() && EraDayOf(dayOfEra).DayOfEra() == dayOfEra
  {
  }

  /** The correction terms find the year: this is why they are what they are. */
  lemma YearIsFound(e: EraDay)
    requires e.IsValid()
    ensures 0 <= e.DayOfEra() < 146_097
    ensures YearOfEra(e.DayOfEra()) == e.YearOfEra()
    ensures e.DayOfEra() == 365 * e.YearOfEra() + e.YearOfEra() / 4 - e.YearOfEra() / 100 + e.day
  {
    CenturyIsFound(e);
    YearOfEraInYear(e);
    var n := e.DayOfEra();
    var fours := 25 * e.century + e.leapCycle;
    var over := 24 * e.century + e.leapCycle + 365 * e.year + e.day;
    assert n == 1460 * fours + over;
    FoursAreFound(fours, over);
    hide EraDay.DayOfEra, EraDay.YearOfEra;
    assert YearOfEra(n) == (n - n / 1460 + e.century) / 365;
    assert n - n / 1460 + e.century == 365 * e.YearOfEra() + e.day - if over >= 1460 then 1 else 0;
  }

  lemma CenturyIsFound(e: EraDay)
    requires e.IsValid()
    ensures e.DayOfEra() / 36_524 - e.DayOfEra() / 146_096 == e.century
  {
  }

  lemma FoursAreFound(fours: int, over: int)
    requires 0 <= fours && 0 <= over < 2920
    ensures (1460 * fours + over) / 1460 == fours + if over >= 1460 then 1 else 0
  {
  }

  lemma YearOfEraInYear(e: EraDay)
    requires e.IsValid()
    ensures 0 <= e.YearOfEra() < 400
    ensures e.YearOfEra() / 4 == 25 * e.century + e.leapCycle && e.YearOfEra() / 100 == e.century
    ensures e.day == 365 ==> (e.YearOfEra() + 1) % 4 == 0 && ((e.YearOfEra() + 1) % 100 != 0 || e.YearOfEra() == 399)
  {
  }

  /** The month formula and its inverse fit together on every day of the year. */
  lemma MonthIsFound(year: int, dayOfYear: int)
    requires 0 <= dayOfYear < YearLength(year + 1)
    ensures var d := MarchDate(year, dayOfYear);
            IsDate(d) && MarchYear(d) == year && DayOfMarchYear(d) == dayOfYear
  {
    var m := (5 * dayOfYear + 2) / 153;
    assert 0 <= m < 12;
    hide IsLeap;
    assert m == 0 || m == 1 || m == 2 || m == 3 || m == 4 || m == 5 || m == 6 || m == 7 || m == 8 || m == 9 || m == 10 || m == 11;
  }

  lemma EraStart(era: int, yearOfEra: int)
    requires 0 <= yearOfEra < 400
    ensures MarchFirst(yearOfEra + era * 400) == era * 146_097 + 365 * yearOfEra + yearOfEra / 4 - yearOfEra / 100 - 719_468
  {
    var year := yearOfEra + era * 400;
    assert year / 4 == 100 * era + yearOfEra / 4;
    assert year / 100 == 4 * era + yearOfEra / 100;
    assert year / 400 == era;
  }

  lemma LastDayIsLeap(era: int, e: EraDay)
    requires e.IsValid()
    ensures e.day < YearLength(e.YearOfEra() + era * 400 + 1)
  {
    YearOfEraInYear(e);
    LeapYears(e.YearOfEra() + 1);
    LeapInEveryEra(era, e.YearOfEra() + 1);
    hide IsLeap;
  }

  lemma SameRemainder(y: int, length: int, times: int)
    requires length > 0
    ensures (y + times * length) % length == y % length
  {
    QuotientIs(y + times * length, length, y / length + times, y % length);
  }

  lemma LeapInEveryEra(era: int, y: int)
    ensures IsLeap(y + era * 400) == IsLeap(y)
  {
    LeapYears(y);
    LeapYears(y + era * 400);
    hide IsLeap;
    SameRemainder(y, 4, era * 100);
    SameRemainder(y, 100, era * 4);
    SameRemainder(y, 400, era);
  }

  lemma CivilIs(count: int) returns (year: int, dayOfYear: int)
    ensures 0 <= dayOfYear < YearLength(year + 1)
    ensures MarchFirst(year) + dayOfYear == count && CivilFromDays(count) == MarchDate(year, dayOfYear)
  {
    hide EraOf, YearOfEra, EraDayOf, EraDay.IsValid, EraDay.YearOfEra, MarchFirst, MarchDate, YearLength, DayInYearOfEra;
    var days := count + 719_468;
    Eras(days, 146_097);
    var era := EraOf(days, 146_097);
    var e := EraDayOf(days - era * 146_097);
    EveryDayIsAnEraDay(days - era * 146_097);
    YearIsFound(e);
    YearOfEraInYear(e);
    year, dayOfYear := e.YearOfEra() + era * 400, e.day;
    EraStart(era, e.YearOfEra());
    LastDayIsLeap(era, e);
    DayIsFound(e);
  }

  lemma DayIsFound(e: EraDay)
    requires e.IsValid()
    ensures DayInYearOfEra(e.DayOfEra(), e.YearOfEra()) == e.day
  {
    YearIsFound(e);
    YearOfEraInYear(e);
    hide YearOfEra, EraDay.YearOfEra, EraDay.DayOfEra;
  }

  /** Every count of days is the count of the date it gives, which is a date of the calendar. */
  lemma DaysRoundTrip(count: int)
    ensures IsDate(CivilFromDays(count)) && DaysFromCivil(CivilFromDays(count)) == count
  {
    hide IsDate, DaysFromCivil, CivilFromDays, MarchDate, MarchFirst, YearLength;
    var year, dayOfYear := CivilIs(count);
    MonthIsFound(year, dayOfYear);
    SameDays(MarchDate(year, dayOfYear));
  }

  /** Every date is the date of its count of days. */
  lemma DatesRoundTrip(d: Date)
    requires IsDate(d)
    ensures CivilFromDays(DaysFromCivil(d)) == d
  {
    hide IsDate, DaysFromCivil, CivilFromDays;
    DaysRoundTrip(DaysFromCivil(d));
    DaysAreMonotone(CivilFromDays(DaysFromCivil(d)), d);
  }

  /** The count starts where it says it does. */
  lemma EpochIsZero()
    ensures DaysFromCivil(Date(1970, 1, 1)) == 0
  {
  }

  /** Counting days agrees with summing the months of the year. */
  lemma DaysWithinYear(d: Date)
    requires IsDate(d)
    ensures DaysFromCivil(d) - DaysFromCivil(Date(d.year, 1, 1)) + 1 == DayOfYear(d)
  {
    SameDays(d);
    SameDays(Date(d.year, 1, 1));
    MarchNext(d.year - 1);
    hide DaysFromCivil, MarchFirst;
    MonthsBefore(d.year, d.month);
  }

  /** The days before each month, which the March formula gives without a table. */
  lemma MonthsBefore(year: int, month: nat)
    requires 1 <= month <= 12
    ensures DaysBeforeMonth(year, month) ==
            if month <= 2 then (153 * (month + 9) + 2) / 5 - 306
            else (153 * (month - 3) + 2) / 5 + YearLength(year) - 306
  {
    hide IsLeap;
    var feb := DaysInMonth(year, 2);
    assert DaysBeforeMonth(year, 2) == 31;
    assert DaysBeforeMonth(year, 3) == 31 + feb;
    assert DaysBeforeMonth(year, 4) == 62 + feb;
    assert DaysBeforeMonth(year, 5) == 92 + feb;
    assert DaysBeforeMonth(year, 6) == 123 + feb;
    assert DaysBeforeMonth(year, 7) == 153 + feb;
    assert DaysBeforeMonth(year, 8) == 184 + feb;
    assert DaysBeforeMonth(year, 9) == 215 + feb;
    assert DaysBeforeMonth(year, 10) == 245 + feb;
    assert DaysBeforeMonth(year, 11) == 276 + feb;
    assert DaysBeforeMonth(year, 12) == 306 + feb;
  }

  // --- Weeks ----------------------------------------------------------------------------------------------

  /** Years in days: the first day of a year, and the first of the next. */
  lemma YearStarts(year: int)
    ensures DaysFromCivil(Date(year + 1, 1, 1)) == DaysFromCivil(Date(year, 1, 1)) + YearLength(year)
  {
    SameDays(Date(year, 1, 1));
    SameDays(Date(year + 1, 1, 1));
    MarchNext(year - 1);
  }

  lemma {:induction false} YearStartsLater(a: int, b: int)
    requires a < b
    ensures DaysFromCivil(Date(a + 1, 1, 1)) <= DaysFromCivil(Date(b, 1, 1))
    decreases b - a
  {
    hide DaysFromCivil;
    YearStarts(b - 1);
    if a < b - 1 {
      YearStartsLater(a, b - 1);
    }
  }

  lemma DayOfYearBound(d: Date)
    requires IsDate(d)
    ensures 1 <= DayOfYear(d) <= YearLength(d.year)
  {
    MonthsBefore(d.year, d.month);
    hide IsLeap;
  }

  /** The day at an offset into a year is in that year, and its ordinal is the offset. */
  lemma DayInYear(year: int, ordinal: int)
    requires 1 <= ordinal <= YearLength(year)
    ensures var d := CivilFromDays(DaysFromCivil(Date(year, 1, 1)) + ordinal - 1);
            d.year == year && DayOfYear(d) == ordinal
  {
    hide DaysFromCivil, CivilFromDays, IsDate, DayOfYear, YearLength;
    var n := DaysFromCivil(Date(year, 1, 1)) + ordinal - 1;
    var d := CivilFromDays(n);
    DaysRoundTrip(n);
    DaysWithinYear(d);
    DayOfYearBound(d);
    YearStarts(year);
    YearStarts(d.year);
    if d.year < year {
      YearStartsLater(d.year, year);
    } else if year < d.year {
      YearStartsLater(year, d.year);
    }
  }

  /** The day of the week a count of days falls on, Monday being 1. */
  function Weekday(count: int): int {
    (count + 3) % 7 + 1
  }

  /** The Thursday of the Monday-to-Sunday week a count of days is in. */
  function ThursdayOf(count: int): int {
    count - Weekday(count) + 4
  }

  /** The ISO 8601 rule: a date's week is the ordinal of its week's Thursday in that Thursday's own year. */
  function WeekOfThursday(count: int): int {
    WeekAt(DayOfYear(CivilFromDays(ThursdayOf(count))))
  }

  /** The ordinal of a day's week when the weeks are counted from the first of the year. */
  function WeekAt(ordinal: int): int {
    (ordinal - 1) / 7 + 1
  }

  lemma ThursdayIsThursday(count: int)
    ensures Weekday(ThursdayOf(count)) == 4 && ThursdayOf(count) % 7 == 0
    ensures count - 3 <= ThursdayOf(count) <= count + 3
  {
  }

  /** The Thursdays of a year, by the ordinal of the first: it holds 53 when there is room for them. */
  lemma WeeksAreThursdays(year: int, ordinal: int)
    requires 1 <= ordinal <= YearLength(year) && (DaysFromCivil(Date(year, 1, 1)) + ordinal - 1) % 7 == 0
    ensures 1 <= WeekAt(ordinal) <= WeeksInYear(year)
    ensures ordinal + 7 > YearLength(year) ==> WeekAt(ordinal) == WeeksInYear(year)
  {
    hide DaysFromCivil, IsLeap;
    var first := DaysFromCivil(Date(year, 1, 1));
    var k := (ordinal - 1) / 7;
    var f := (ordinal - 1) % 7;
    assert (first + f) % 7 == 0;
    assert DayOfWeek(Date(year, 1, 1)) == (first + 4) % 7 + 1;
    assert DayOfWeek(Date(year, 1, 1)) == 5 <==> f == 0;
    assert DayOfWeek(Date(year, 1, 1)) == 4 <==> f == 1;
  }

  lemma YearLengths(year: int)
    ensures forall k | year - 1 <= k <= year + 1 :: 365 <= YearLength(k) <= 366
  {
  }

  lemma WeekInYear(year: int, ordinal: int, count: int)
    requires 1 <= ordinal <= YearLength(year) && ThursdayOf(count) == DaysFromCivil(Date(year, 1, 1)) + ordinal - 1
    ensures WeekOfThursday(count) == WeekAt(ordinal) && 1 <= WeekAt(ordinal) <= WeeksInYear(year)
    ensures ordinal + 7 > YearLength(year) ==> WeekAt(ordinal) == WeeksInYear(year)
  {
    hide DaysFromCivil, CivilFromDays, YearLength, DayOfYear, WeeksInYear;
    ThursdayIsThursday(count);
    DayInYear(year, ordinal);
    WeeksAreThursdays(year, ordinal);
  }

  lemma WeekdayIs(count: int)
    ensures Weekday(count) == if (count + 4) % 7 + 1 == 1 then 7 else (count + 4) % 7
  {
  }

  lemma WeekBefore(count: int)
    ensures ThursdayOf(count - 7) == ThursdayOf(count) - 7
  {
  }

  lemma WeekNumbers(ordinal: int)
    ensures WeekAt(ordinal) == WeekAt(ordinal - 7) + 1
    ensures -2 <= ordinal < 1 ==> WeekAt(ordinal) == 0
    ensures 1 <= ordinal <= 3 ==> WeekAt(ordinal) == 1
  {
  }

  /** Week numbers as the source works them out, from the ordinal of the week's Thursday. */
  lemma WeekOfOrdinal(d: Date, ordinal: int)
    requires IsDate(d) && ordinal == DayOfYear(d) - Weekday(DaysFromCivil(d)) + 4
    ensures var week := WeekAt(ordinal);
            IsoWeek(d) == if week < 1 then WeeksInYear(d.year - 1) else if week > WeeksInYear(d.year) then 1 else week
  {
    DayOfYearBound(d);
    WeekdayIs(DaysFromCivil(d));
    assert (ordinal + 6) / 7 == WeekAt(ordinal);
    hide DaysFromCivil, IsDate, DayOfYear, IsLeap, WeeksInYear, Weekday, WeekAt;
  }

  lemma ThursdayInYear(d: Date, ordinal: int)
    requires IsDate(d) && ordinal == DayOfYear(d) - Weekday(DaysFromCivil(d)) + 4
    ensures -2 <= ordinal <= YearLength(d.year) + 3
    ensures ThursdayOf(DaysFromCivil(d)) == DaysFromCivil(Date(d.year, 1, 1)) + ordinal - 1
  {
    DaysWithinYear(d);
    DayOfYearBound(d);
    hide DaysFromCivil, IsDate, DayOfYear, IsLeap, YearLength;
  }

  /** A Thursday before the first of January is the last of the year before. */
  lemma LastWeekBefore(year: int, ordinal: int, count: int)
    requires -2 <= ordinal < 1 && ThursdayOf(count) == DaysFromCivil(Date(year, 1, 1)) + ordinal - 1
    ensures WeekAt(ordinal) == 0 && WeekOfThursday(count) == WeeksInYear(year - 1)
  {
    YearLengths(year);
    WeekNumbers(ordinal);
    hide WeekOfThursday, WeekAt, ThursdayOf, DaysFromCivil, YearLength, WeeksInYear;
    YearStarts(year - 1);
    WeekInYear(year - 1, ordinal + YearLength(year - 1), count);
  }

  /** A Thursday after the last of December is the first of the year after. */
  lemma FirstWeekAfter(year: int, ordinal: int, count: int)
    requires YearLength(year) < ordinal <= YearLength(year) + 3
    requires ThursdayOf(count) == DaysFromCivil(Date(year, 1, 1)) + ordinal - 1
    ensures WeekAt(ordinal) == WeeksInYear(year) + 1 && WeekOfThursday(count) == 1
  {
    YearLengths(year);
    WeekNumbers(ordinal);
    WeekNumbers(ordinal - YearLength(year));
    WeekBefore(count);
    hide WeekOfThursday, WeekAt, ThursdayOf, DaysFromCivil, YearLength, WeeksInYear;
    YearStarts(year);
    WeekInYear(year + 1, ordinal - YearLength(year), count);
    WeekInYear(year, ordinal - 7, count - 7);
  }

  /** `IsoWeek` is the ISO 8601 rule, for every date of every year. */
  lemma IsoWeekIsThursdays(d: Date)
    requires IsDate(d)
    ensures IsoWeek(d) == WeekOfThursday(DaysFromCivil(d))
  {
    hide IsoWeek, WeekOfThursday, WeekAt, ThursdayOf, DaysFromCivil, IsDate, DayOfYear, YearLength, WeeksInYear, Weekday;
    var n := DaysFromCivil(d);
    var ordinal := DayOfYear(d) - Weekday(n) + 4;
    WeekOfOrdinal(d, ordinal);
    ThursdayInYear(d, ordinal);
    if ordinal < 1 {
      LastWeekBefore(d.year, ordinal, n);
    } else if ordinal > YearLength(d.year) {
      FirstWeekAfter(d.year, ordinal, n);
    } else {
      WeekInYear(d.year, ordinal, n);
    }
  }

  /** The week is one of 53, and every day from a Monday to a Sunday is in the same. */
  lemma WeeksAreWhole(a: Date, b: Date)
    requires IsDate(a) && IsDate(b)
    ensures 1 <= IsoWeek(a) <= 53
    ensures ThursdayOf(DaysFromCivil(a)) == ThursdayOf(DaysFromCivil(b)) ==> IsoWeek(a) == IsoWeek(b)
  {
    IsoWeekIsThursdays(a);
    IsoWeekIsThursdays(b);
    hide IsoWeek, CivilFromDays, DaysFromCivil, IsDate, DayOfYear, IsLeap;
    DaysRoundTrip(ThursdayOf(DaysFromCivil(a)));
    DayOfYearBound(CivilFromDays(ThursdayOf(DaysFromCivil(a))));
  }

  /** The Thursdays among the days from one count up to another. */
  function Thursdays(from: int, to: int): nat
    decreases to - from
  {
    if from >= to then 0 else (if Weekday(from) == 4 then 1 else 0) + Thursdays(from + 1, to)
  }

  lemma OneMoreDay(day: int)
    ensures (day + 7) / 7 == (day + 6) / 7 + if Weekday(day) == 4 then 1 else 0
  {
  }

  lemma {:induction false} ThursdaysCounted(from: int, days: nat)
    ensures Thursdays(from, from + days) == (from + days + 6) / 7 - (from + 6) / 7
    decreases days
  {
    if days > 0 {
      OneMoreDay(from);
      hide Weekday;
      ThursdaysCounted(from + 1, days - 1);
    }
  }

  /** A year has as many weeks as it has Thursdays. */
  lemma WeeksInYearCountsThursdays(year: int)
    ensures WeeksInYear(year) == Thursdays(DaysFromCivil(Date(year, 1, 1)), DaysFromCivil(Date(year + 1, 1, 1)))
  {
    hide DaysFromCivil, IsLeap;
    YearStarts(year);
    ThursdaysCounted(DaysFromCivil(Date(year, 1, 1)), YearLength(year));
  }
}
