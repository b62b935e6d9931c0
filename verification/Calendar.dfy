/** Converting a count of days since 1970-01-01 to a date of the Gregorian calendar. */
module Calendar {

  const U64_MODULUS: nat := 0x1_0000_0000_0000_0000

  /** Days from 0000-03-01 to 1970-01-01. */
  const EPOCH_SHIFT: nat := 719468

  datatype Date = Date(year: int, month: int, day: int)

  /** `epoch_days_to_date`; the addition is the only step that can leave the range of 64-bit unsigned integers. */
  function EpochDaysToDate(days: nat): (date: Date) {
    var z := (days + EPOCH_SHIFT) % U64_MODULUS;
    var era := z / 146097;
    var doe := z - era * 146097;
    var yoe := YearOfEra(doe);
    DateOfMarchYear(yoe + era * 400, doe - DaysBeforeYear(yoe))
  }

  function YearOfEra(doe: int): (yoe: int) {
    (doe - doe / 1460 + doe / 36524 - doe / 146096) / 365
  }

  /** Days of an era before its year `yoe`, for years that begin on the first of March. */
  function DaysBeforeYear(yoe: int): (n: int) {
    365 * yoe + yoe / 4 - yoe / 100
  }

  /** Day `doy` of the year that begins on the first of March of year `y`. */
  function DateOfMarchYear(y: int, doy: int): (date: Date) {
    var mp := (5 * doy + 2) / 153;
    var d := doy - (153 * mp + 2) / 5 + 1;
    var m := if mp < 10 then mp + 3 else mp - 9;
    Date(if m <= 2 then y + 1 else y, m, d)
  }

  // ----- The Gregorian calendar -----

  predicate IsLeap(year: int) {
    year % 4 == 0 && (year % 100 != 0 || year % 400 == 0)
  }

  function DaysInMonth(year: int, month: int): (n: int) {
    if month == 2 then if IsLeap(year) then 29 else 28
    else if month == 4 || month == 6 || month == 9 || month == 11 then 30
    else 31
  }

  predicate IsValid(date: Date) {
    1 <= date.month <= 12 && 1 <= date.day <= DaysInMonth(date.year, date.month)
  }

  function NextDay(date: Date): (next: Date) {
    if date.day < DaysInMonth(date.year, date.month) then date.(day := date.day + 1)
    else if date.month < 12 then Date(date.year, date.month + 1, 1)
    else Date(date.year + 1, 1, 1)
  }

  /** The calendar itself: the date `n` days after 1970-01-01, one day at a time. */
  function DateAfter(n: nat): (date: Date) {
    if n == 0 then Date(1970, 1, 1) else NextDay(DateAfter(n - 1))
  }

  /** Days of the year before a month, in a year without a leap day. */
  function DaysBeforeMonth(month: int): (n: int) {
    match month
    case 1 => 0
    case 2 => 31
    case 3 => 59
    case 4 => 90
    case 5 => 120
    case 6 => 151
    case 7 => 181
    case 8 => 212
    case 9 => 243
    case 10 => 273
    case 11 => 304
    case _ => 334
  }

  /** Days from 1970-01-01 to the first of January of a year. */
  function DaysBeforeYearOf(year: int): (n: int) {
    var y := year - 1;
    365 * y + y / 4 - y / 100 + y / 400 - 719162
  }

  /** Days from 1970-01-01 to a date, by counting years, leap days, months and days. */
  function DaysFromDate(date: Date): (n: int) {
    DaysBeforeYearOf(date.year) + DaysBeforeMonth(date.month) + (if date.month > 2 && IsLeap(date.year) then 1 else 0) + date.day - 1
  }

  // ----- Where a day stands in its 400-year era -----

  /** Day `d` of year `r` of four-year cycle `q` of century `c` of an era; years begin on the first of March. */
  datatype Place = Place(era: int, c: int, q: int, r: int, d: int) {
    /** Only a leap year has a day 365. */
    ghost predicate Valid() {
      0 <= c < 4 && 0 <= q < 25 && 0 <= r < 4 && 0 <= d <= 365 && (d == 365 ==> r == 3 && (q < 24 || c == 3))
    }

    function YearOfEra(): (yoe: int) {
      100 * c + 4 * q + r
    }

    function Year(): (y: int) {
      400 * era + YearOfEra()
    }

    function DayOfEra(): (doe: int) {
      36524 * c + 1461 * q + 365 * r + d
    }

    function Count(): (z: int) {
      146097 * era + DayOfEra()
    }

    function Next(): (p: Place) {
      if d < 364 || (d == 364 && r == 3 && (q < 24 || c == 3)) then this.(d := d + 1)
      else if r < 3 then Place(era, c, q, r + 1, 0)
      else if q < 24 then Place(era, c, q + 1, 0, 0)
      else if c < 3 then Place(era, c + 1, 0, 0, 0)
      else Place(era + 1, 0, 0, 0, 0)
    }
  }

  lemma NextPlaceCounts(p: Place)
    requires p.Valid()
    ensures p.Next().Valid() && p.Next().Count() == p.Count() + 1
    ensures p.Next() == p.(d := p.d + 1) || (p.Next().Year() == p.Year() + 1 && p.Next().d == 0)
  {}

  /** The corrections in `YearOfEra` count centuries and four-year cycles; `late` days fall into the next cycle's count. */
  lemma CountsOfEra(p: Place) returns (late: nat)
    requires p.Valid()
    ensures late == if p.q + 24 * p.c + 365 * p.r + p.d >= 1460 then 1 else 0
    ensures p.DayOfEra() / 36524 - p.DayOfEra() / 146096 == p.c && p.DayOfEra() / 1460 == 25 * p.c + p.q + late
  {
    late := if p.q + 24 * p.c + 365 * p.r + p.d >= 1460 then 1 else 0;
  }

  lemma YearOfEraIsRight(p: Place)
    requires p.Valid()
    ensures YearOfEra(p.DayOfEra()) == p.YearOfEra() && p.DayOfEra() - DaysBeforeYear(p.YearOfEra()) == p.d
  {
    var doe := p.DayOfEra();
    var late := CountsOfEra(p);
    assert doe - doe / 1460 + doe / 36524 - doe / 146096 == 365 * p.YearOfEra() + p.d - late;
  }

  lemma SameRemainder(k: int, m: int, y: int)
    requires m == 4 || m == 100 || m == 400
    ensures (m * k + y) % m == y % m
  {
    assert m * k + y == m * (k + y / m) + y % m;
  }

  /** The March year of a place holds the leap day of the next calendar year exactly if it may have a day 365. */
  lemma LeapPlace(p: Place)
    requires p.Valid()
    ensures IsLeap(p.Year() + 1) <==> p.r == 3 && (p.q < 24 || p.c == 3)
  {
    SameRemainder(100 * p.era, 4, p.YearOfEra() + 1);
    SameRemainder(4 * p.era, 100, p.YearOfEra() + 1);
    SameRemainder(p.era, 400, p.YearOfEra() + 1);
  }

  lemma Locate(z: nat) returns (p: Place)
    ensures p.Valid() && p.Count() == z
  {
    var era, doe := z / 146097, z % 146097;
    var c := if doe / 36524 < 4 then doe / 36524 else 3;
    var e := doe - 36524 * c;
    var q := if e / 1461 < 25 then e / 1461 else 24;
    var f := e - 1461 * q;
    var r := if f / 365 < 4 then f / 365 else 3;
    p := Place(era, c, q, r, f - 365 * r);
  }

  function DateOf(p: Place): (date: Date) {
    DateOfMarchYear(p.Year(), p.d)
  }

  lemma EraOf(p: Place, z: nat)
    requires p.Valid() && p.Count() == z
    ensures z / 146097 == p.era && z - p.era * 146097 == p.DayOfEra()
  {
    assert 0 <= p.DayOfEra() < 146097;
  }

  lemma NoWrap(z: nat)
    requires z < U64_MODULUS
    ensures z % U64_MODULUS == z
  {}

  lemma DateOfPlace(days: nat, p: Place)
    requires p.Valid() && days + EPOCH_SHIFT == p.Count() < U64_MODULUS
    ensures EpochDaysToDate(days) == DateOf(p)
  {
    NoWrap(days + EPOCH_SHIFT);
    DateOfSum(days, p);
  }

  /** The date depends on what the sum, possibly wrapped, counts. */
  lemma DateOfSum(days: nat, p: Place)
    requires p.Valid() && (days + EPOCH_SHIFT) % U64_MODULUS == p.Count()
    ensures EpochDaysToDate(days) == DateOf(p)
  {
    hide YearOfEra, DaysBeforeYear, DateOfMarchYear;
    EraOf(p, (days + EPOCH_SHIFT) % U64_MODULUS);
    YearOfEraIsRight(p);
  }

  /** One day later in a March year; day 364 is followed by day 365 only in a leap year. */
  lemma NextDayInYear(y: int, doy: int)
    requires 0 <= doy < 365 && (doy == 364 ==> IsLeap(y + 1))
    ensures DateOfMarchYear(y, doy + 1) == NextDay(DateOfMarchYear(y, doy))
    ensures IsValid(DateOfMarchYear(y, doy))
  {}

  lemma NextMarchYear(y: int, doy: int)
    requires doy == if IsLeap(y + 1) then 365 else 364
    ensures DateOfMarchYear(y + 1, 0) == NextDay(DateOfMarchYear(y, doy))
    ensures IsValid(DateOfMarchYear(y, doy))
  {}

  lemma NextPlaceIsNextDay(p: Place)
    requires p.Valid()
    ensures DateOf(p.Next()) == NextDay(DateOf(p)) && IsValid(DateOf(p))
  {
    NextPlaceCounts(p);
    LeapPlace(p);
    if p.Next() == p.(d := p.d + 1) {
      NextDayInYear(p.Year(), p.d);
    } else {
      NextMarchYear(p.Year(), p.d);
    }
  }

  /** The next day's date is the calendar's next day, and dates are valid. */
  lemma NextDate(days: nat)
    requires days + 1 + EPOCH_SHIFT < U64_MODULUS
    ensures EpochDaysToDate(days + 1) == NextDay(EpochDaysToDate(days)) && IsValid(EpochDaysToDate(days))
  {
    var p := Locate(days + EPOCH_SHIFT);
    NextPlaceCounts(p);
    DateOfPlace(days, p);
    DateOfPlace(days + 1, p.Next());
    NextPlaceIsNextDay(p);
  }

  /** For every day count without overflow the conversion gives the date that many days after 1970-01-01. */
  lemma {:induction false} ConversionFollowsTheCalendar(days: nat)
    requires days + EPOCH_SHIFT < U64_MODULUS
    ensures EpochDaysToDate(days) == DateAfter(days)
  {
    if days == 0 {
      assert EpochDaysToDate(0) == Date(1970, 1, 1) by {
        DateOfPlace(0, Place(4, 3, 17, 1, 306));
      }
    } else {
      ConversionFollowsTheCalendar(days - 1);
      NextDate(days - 1);
    }
  }

  lemma DivStep(y: int, m: int)
    requires m == 4 || m == 100 || m == 400
    ensures (y + 1) / m == y / m + if (y + 1) % m == 0 then 1 else 0
  {}

  lemma MultiplesNest(y: int)
    ensures (y % 400 == 0 ==> y % 100 == 0) && (y % 100 == 0 ==> y % 4 == 0)
  {
    if y % 400 == 0 { Multiple(4 * (y / 400), 100); }
    if y % 100 == 0 { Multiple(25 * (y / 100), 4); }
  }

  lemma Multiple(k: int, m: int)
    requires m == 4 || m == 100
    ensures m * k % m == 0
  {}

  lemma YearLength(year: int)
    ensures DaysBeforeYearOf(year + 1) == DaysBeforeYearOf(year) + if IsLeap(year) then 366 else 365
  {
    DivStep(year - 1, 4);
    DivStep(year - 1, 100);
    DivStep(year - 1, 400);
    MultiplesNest(year);
  }

  lemma NextDayIsOneLater(date: Date)
    requires IsValid(date)
    ensures IsValid(NextDay(date)) && DaysFromDate(NextDay(date)) == DaysFromDate(date) + 1
  {
    YearLength(date.year);
  }

  lemma {:induction false} CalendarCounts(n: nat)
    ensures IsValid(DateAfter(n)) && DaysFromDate(DateAfter(n)) == n
  {
    if n > 0 {
      CalendarCounts(n - 1);
      NextDayIsOneLater(DateAfter(n - 1));
    }
  }

  /** The converted date is valid, and counting its days gives the day count back. */
  lemma ConversionReadsBack(days: nat)
    requires days + EPOCH_SHIFT < U64_MODULUS
    ensures IsValid(EpochDaysToDate(days)) && DaysFromDate(EpochDaysToDate(days)) == days
  {
    ConversionFollowsTheCalendar(days);
    CalendarCounts(days);
  }

  lemma {:induction false} StaysAfter1970(n: nat)
    ensures DateAfter(n).year >= 1970
  {
    if n > 0 { StaysAfter1970(n - 1); }
  }

  /** The date of a wrapped sum lies before 1970. */
  lemma WrappedIsEarly(days: nat)
    requires days < U64_MODULUS <= days + EPOCH_SHIFT
    ensures EpochDaysToDate(days).year < 1970
  {
    var z := days + EPOCH_SHIFT - U64_MODULUS;
    WrapsTo(days + EPOCH_SHIFT, z);
    var p := Locate(z);
    hide EpochDaysToDate, DateOf;
    DateOfSum(days, p);
    EarlyPlace(p);
  }

  lemma WrapsTo(sum: nat, z: nat)
    requires sum == z + U64_MODULUS && z < U64_MODULUS
    ensures sum % U64_MODULUS == z
  {}

  lemma EarlyPlace(p: Place)
    requires p.Valid() && p.Count() < EPOCH_SHIFT
    ensures DateOf(p).year < 1970
  {}

  /** Over all 64-bit day counts, the conversion follows the calendar exactly if the addition does not overflow. */
  lemma FollowsTheCalendarIff(days: nat)
    requires days < U64_MODULUS
    ensures EpochDaysToDate(days) == DateAfter(days) <==> days + EPOCH_SHIFT < U64_MODULUS
  {
    hide EpochDaysToDate, DateAfter;
    if days + EPOCH_SHIFT < U64_MODULUS {
      ConversionFollowsTheCalendar(days);
    } else {
      WrappedIsEarly(days);
      StaysAfter1970(days);
    }
  }
}
