/**
 Civil dates from three files: civil-from-days in the enclave's timestamp formatter and in the gateway's archive file
 names, days-from-civil in the gateway's RFC 3339 parser. They are proved to invert each other and to agree with the
 Gregorian calendar counted day by day.
 */
module Calendar {
  import opened Wrappers
  import opened Digits
  import opened Text

  datatype Date = Date(year: int, month: int, day: int)

  // ---------------------------------------------------------------- the Gregorian calendar, by its rules

  predicate LeapYear(y: int) {
    y % 4 == 0 && (y % 100 != 0 || y % 400 == 0)
  }

  function DaysInMonth(y: int, m: int): int {
    if m == 2 then (if LeapYear(y) then 29 else 28)
    else if m in {4, 6, 9, 11} then 30
    else 31
  }

  predicate Valid(c: Date) {
    1 <= c.month <= 12 && 1 <= c.day <= DaysInMonth(c.year, c.month)
  }

  function NextDay(c: Date): Date {
    if c.day < DaysInMonth(c.year, c.month) then Date(c.year, c.month, c.day + 1)
    else if c.month < 12 then Date(c.year, c.month + 1, 1)
    else Date(c.year + 1, 1, 1)
  }

  /** The date n days after 1 January 1970, by turning the page n times. */
  function AfterEpoch(n: nat): Date {
    if n == 0 then Date(1970, 1, 1) else NextDay(AfterEpoch(n - 1))
  }

  // ---------------------------------------------------------------- the source's arithmetic

  /** Division of signed machine integers: truncates toward zero. */
  function TruncDiv(a: int, b: int): int
    requires 0 < b
  {
    if a >= 0 then a / b else -((-a) / b)
  }

  /** The enclave's era, by a branch and a truncating division. */
  function EraByBranch(z: int): int {
    TruncDiv(if z >= 0 then z else z - 146_096, 146_097)
  }

  /** The gateway's era, by Euclidean division. */
  function EraEuclid(z: int): int {
    z / 146_097
  }

  function YearOfEra(doe: int): int {
    (doe - doe / 1460 + doe / 36_524 - doe / 146_096) / 365
  }

  /** Day of the era on which a year, counted from 1 March, begins. */
  function YearStart(yoe: int): int {
    365 * yoe + yoe / 4 - yoe / 100
  }

  function MonthFromMarch(doy: int): int {
    (5 * doy + 2) / 153
  }

  function DateInEra(era: int, doe: int): Date {
    var yoe := YearOfEra(doe);
    var doy := doe - YearStart(yoe);
    var mp := MonthFromMarch(doy);
    var d := doy - (153 * mp + 2) / 5 + 1;
    var m := if mp < 10 then mp + 3 else mp - 9;
    var y := yoe + era * 400;
    Date(if m <= 2 then y + 1 else y, m, d)
  }

  function CivilFromDaysEnclave(days: int): Date {
    var z := days + 719_468;
    DateInEra(EraByBranch(z), z - EraByBranch(z) * 146_097)
  }

  function CivilFromDaysGateway(days: int): Date {
    var z := days + 719_468;
    DateInEra(EraEuclid(z), z - EraEuclid(z) * 146_097)
  }

  function DaysFromCivil(c: Date): int {
    var y := if c.month <= 2 then c.year - 1 else c.year;
    var era := TruncDiv(if y >= 0 then y else y - 399, 400);
    var yoe := (y - era * 400) % 400;
    var doy := (153 * (if c.month > 2 then c.month - 3 else c.month + 9) + 2) / 5 + c.day - 1;
    var doe := YearStart(yoe) + doy;
    era * 146_097 + doe - 719_468
  }

  // ---------------------------------------------------------------- the year of a day

  lemma ErasAgree(z: int)
    ensures EraByBranch(z) == EraEuclid(z)
  {
  }

  /** Days in a year counted from 1 March; the last year of an era keeps the extra leap day. */
  function YearLength(yoe: int): int {
    if LeapYear(yoe + 1) then 366 else 365
  }

  /** Century c, four-year cycle q and year k of an era before its last day. */
  lemma YearParts(doe: int) returns (c: int, q: int, k: int, t: int)
    requires 0 <= doe < 146_096
    ensures 0 <= c < 4 && 0 <= q < 25 && 0 <= k < 4
    ensures doe == 36_524 * c + 1461 * q + t
    ensures 365 * k <= t < 365 * (k + 1) || (k == 3 && t == 1460 && q < 24)
  {
    c := doe / 36_524;
    var r := doe % 36_524;
    q, t := r / 1461, r % 1461;
    k := if t == 1460 then 3 else t / 365;
  }

  lemma YearStartOfParts(c: int, q: int, k: int)
    requires 0 <= c < 4 && 0 <= q < 25 && 0 <= k < 4
    ensures YearStart(100 * c + 4 * q + k) == 36_524 * c + 1461 * q + 365 * k
  {
    assert (100 * c + 4 * q + k) / 4 == 25 * c + q;
    assert (100 * c + 4 * q + k) / 100 == c;
  }

  lemma YearOfParts(doe: int, c: int, q: int, k: int, t: int)
    requires 0 <= c < 4 && 0 <= q < 25 && 0 <= k < 4
    requires doe == 36_524 * c + 1461 * q + t < 146_096
    requires 365 * k <= t < 365 * (k + 1) || (k == 3 && t == 1460 && q < 24)
    ensures YearOfEra(doe) == 100 * c + 4 * q + k
  {
    var low := 24 * c + q + t;
    var e := if low < 1460 then 0 else 1;
    assert doe == 1460 * (25 * c + q) + low;
    assert doe / 1460 == 25 * c + q + e;
    assert doe / 36_524 == c;
    assert doe / 146_096 == 0;
    assert doe - doe / 1460 + doe / 36_524 == 365 * (100 * c + 4 * q) + (t - e);
    assert (t - e) / 365 == k;
  }

  /** The year formula finds the year that contains the day. */
  lemma YearContainsDay(doe: int)
    requires 0 <= doe < 146_097
    ensures 0 <= YearOfEra(doe) < 400
    ensures 0 <= doe - YearStart(YearOfEra(doe)) < YearLength(YearOfEra(doe))
  {
    if doe < 146_096 {
      hide YearOfEra, YearStart, LeapYear;
      var c, q, k, t := YearParts(doe);
      YearOfParts(doe, c, q, k, t);
      YearStartOfParts(c, q, k);
      if t == 1460 {
        FourthYearIsLeap(c, q);
      }
    } else {
      EraEnds();
    }
  }

  lemma FourthYearIsLeap(c: int, q: int)
    requires 0 <= q < 24
    ensures LeapYear(100 * c + 4 * q + 4)
  {
    Mod100(c, 4 * q + 4);
    Mod4(25 * c + q + 1, 0);
  }

  /** No other year contains it. */
  lemma YearIsUnique(doe: int, yoe: int)
    requires 0 <= doe < 146_097 && 0 <= yoe < 400
    requires 0 <= doe - YearStart(yoe) < YearLength(yoe)
    ensures YearOfEra(doe) == yoe
  {
    YearContainsDay(doe);
    var y := YearOfEra(doe);
    if y < yoe {
      YearsDoNotOverlap(y, yoe);
    } else if yoe < y {
      YearsDoNotOverlap(yoe, y);
    }
  }

  lemma YearsDoNotOverlap(x: int, y: int)
    requires 0 <= x < y < 400
    ensures YearStart(x) + YearLength(x) <= YearStart(y)
  {
    assert YearStart(x) + YearLength(x) <= YearStart(x + 1) by {
      YearLengthStep(x);
    }
  }

  lemma YearLengthStep(x: int)
    requires 0 <= x < 399
    ensures YearStart(x) + YearLength(x) == YearStart(x + 1)
  {
    DivStep(x);
    Mod4(25 * ((x + 1) / 100), (x + 1) % 100);
  }

  lemma DivStep(x: int)
    ensures (x + 1) / 4 == x / 4 + (if (x + 1) % 4 == 0 then 1 else 0)
    ensures (x + 1) / 100 == x / 100 + (if (x + 1) % 100 == 0 then 1 else 0)
  {
  }

  // ---------------------------------------------------------------- the two conversions invert each other

  lemma ConversionsAgree(days: int)
    ensures CivilFromDaysEnclave(days) == CivilFromDaysGateway(days)
  {
    ErasAgree(days + 719_468);
  }

  /** Length of a month numbered from March = 0 in a March-based year. */
  function MarchMonthLength(mp: int, yoe: int): int {
    if mp == 11 then YearLength(yoe) - 337 else if mp in {1, 3, 6, 8} then 30 else 31
  }

  lemma MonthContainsDay(doy: int, yoe: int)
    requires 0 <= doy < YearLength(yoe)
    ensures var mp := MonthFromMarch(doy);
      0 <= mp < 12 && 1 <= doy - (153 * mp + 2) / 5 + 1 <= MarchMonthLength(mp, yoe)
  {
  }

  lemma MonthIsUnique(mp: int, d: int, yoe: int)
    requires 0 <= mp < 12 && 1 <= d <= MarchMonthLength(mp, yoe)
    ensures var doy := (153 * mp + 2) / 5 + d - 1;
      0 <= doy < YearLength(yoe) && MonthFromMarch(doy) == mp
  {
  }

  /** Leap years repeat with the era. */
  lemma LeapYearPeriod(era: int, y: int)
    ensures LeapYear(era * 400 + y) == LeapYear(y)
  {
    Periods(era, y);
  }

  lemma Periods(t: int, y: int)
    ensures (t * 400 + y) % 400 == y % 400
    ensures (t * 400 + y) % 100 == y % 100
    ensures (t * 400 + y) % 4 == y % 4
  {
    Mod400(t, y);
    Mod100(4 * t, y);
    Mod4(100 * t, y);
  }

  lemma Mod400(t: int, y: int)
    ensures (400 * t + y) % 400 == y % 400
  {
  }

  lemma Mod100(t: int, y: int)
    ensures (100 * t + y) % 100 == y % 100
  {
  }

  lemma Mod4(t: int, y: int)
    ensures (4 * t + y) % 4 == y % 4
  {
  }

  /** A March-based year splits into its era and year of era. */
  lemma EraOfYear(y: int, era: int, yoe: int)
    requires y == era * 400 + yoe && 0 <= yoe < 400
    ensures TruncDiv(if y >= 0 then y else y - 399, 400) == era
    ensures (y - era * 400) % 400 == yoe
  {
  }

  /** The calendar month of a March-based one. */
  function CalendarMonth(mp: int): int {
    if mp < 10 then mp + 3 else mp - 9
  }

  /** The date at an offset into the era, named by its parts. */
  function DateOfParts(era: int, yoe: int, mp: int, d: int): Date {
    var m := CalendarMonth(mp);
    Date(era * 400 + yoe + (if m <= 2 then 1 else 0), m, d)
  }

  function DayOfParts(era: int, yoe: int, mp: int, d: int): int {
    era * 146_097 + YearStart(yoe) + (153 * mp + 2) / 5 + d - 1 - 719_468
  }

  predicate ValidParts(yoe: int, mp: int, d: int) {
    0 <= yoe < 400 && 0 <= mp < 12 && 1 <= d <= MarchMonthLength(mp, yoe)
  }

  lemma PartsOfValidDate(c: Date) returns (era: int, yoe: int, mp: int)
    requires Valid(c)
    ensures ValidParts(yoe, mp, c.day) && c == DateOfParts(era, yoe, mp, c.day)
  {
    mp := if c.month > 2 then c.month - 3 else c.month + 9;
    var y := if c.month <= 2 then c.year - 1 else c.year;
    era, yoe := y / 400, y % 400;
    LeapYearPeriod(era, yoe + 1);
  }

  lemma DatesOfPartsAreValid(era: int, yoe: int, mp: int, d: int)
    requires ValidParts(yoe, mp, d)
    ensures Valid(DateOfParts(era, yoe, mp, d))
    ensures DaysFromCivil(DateOfParts(era, yoe, mp, d)) == DayOfParts(era, yoe, mp, d)
  {
    LeapYearPeriod(era, yoe + 1);
    EraOfYear(era * 400 + yoe, era, yoe);
  }

  /** Both directions at once: a day and the parts of its date determine each other. */
  lemma CivilOfParts(era: int, yoe: int, mp: int, d: int)
    requires ValidParts(yoe, mp, d)
    ensures CivilFromDaysGateway(DayOfParts(era, yoe, mp, d)) == DateOfParts(era, yoe, mp, d)
  {
    hide YearOfEra, YearLength, MonthFromMarch;
    MonthIsUnique(mp, d, yoe);
    var doy := (153 * mp + 2) / 5 + d - 1;
    var doe := YearStart(yoe) + doy;
    YearEndsInEra(yoe);
    YearIsUnique(doe, yoe);
    assert (era * 146_097 + doe) / 146_097 == era;
  }

  lemma YearEndsInEra(yoe: int)
    requires 0 <= yoe < 400
    ensures 0 <= YearStart(yoe) && YearStart(yoe) + YearLength(yoe) <= 146_097
  {
  }

  lemma PartsOfDay(days: int) returns (era: int, yoe: int, mp: int, d: int)
    ensures ValidParts(yoe, mp, d) && days == DayOfParts(era, yoe, mp, d)
  {
    hide YearOfEra, YearLength, MonthFromMarch, YearStart, MarchMonthLength;
    var z := days + 719_468;
    era := z / 146_097;
    var doe := z % 146_097;
    YearContainsDay(doe);
    yoe := YearOfEra(doe);
    var doy := doe - YearStart(yoe);
    MonthContainsDay(doy, yoe);
    mp := MonthFromMarch(doy);
    d := doy - (153 * mp + 2) / 5 + 1;
  }

  /** Every day has a real Gregorian date, and converting it back gives the day. */
  lemma DayRoundTrip(days: int)
    ensures Valid(CivilFromDaysEnclave(days))
    ensures DaysFromCivil(CivilFromDaysEnclave(days)) == days
  {
    hide CivilFromDaysEnclave, CivilFromDaysGateway, DaysFromCivil, DateOfParts, DayOfParts, ValidParts;
    ConversionsAgree(days);
    var era, yoe, mp, d := PartsOfDay(days);
    CivilOfParts(era, yoe, mp, d);
    DatesOfPartsAreValid(era, yoe, mp, d);
  }

  /** Every real Gregorian date is recovered from its day number. */
  lemma DateRoundTrip(c: Date)
    requires Valid(c)
    ensures CivilFromDaysEnclave(DaysFromCivil(c)) == c
  {
    hide CivilFromDaysEnclave, CivilFromDaysGateway, DaysFromCivil, DateOfParts, DayOfParts, ValidParts;
    var era, yoe, mp := PartsOfValidDate(c);
    CivilOfParts(era, yoe, mp, c.day);
    DatesOfPartsAreValid(era, yoe, mp, c.day);
    ConversionsAgree(DaysFromCivil(c));
  }

  /** The parts of the following day. */
  lemma NextParts(era: int, yoe: int, mp: int, d: int) returns (era': int, yoe': int, mp': int, d': int)
    requires ValidParts(yoe, mp, d)
    ensures ValidParts(yoe', mp', d')
    ensures DateOfParts(era', yoe', mp', d') == NextDay(DateOfParts(era, yoe, mp, d))
    ensures DayOfParts(era', yoe', mp', d') == DayOfParts(era, yoe, mp, d) + 1
  {
    hide YearLength, LeapYear, YearStart;
    LeapYearPeriod(era, yoe + 1);
    LengthIsLeap(yoe);
    if d < MarchMonthLength(mp, yoe) {
      era', yoe', mp', d' := era, yoe, mp, d + 1;
    } else if mp < 11 {
      era', yoe', mp', d' := era, yoe, mp + 1, 1;
    } else if yoe < 399 {
      YearLengthStep(yoe);
      era', yoe', mp', d' := era, yoe + 1, 0, 1;
    } else {
      EraEnds();
      era', yoe', mp', d' := era + 1, 0, 0, 1;
    }
  }

  lemma LengthIsLeap(yoe: int)
    ensures YearLength(yoe) == if LeapYear(yoe + 1) then 366 else 365
  {
  }

  lemma EraEnds()
    ensures YearStart(0) == 0 && YearStart(399) + YearLength(399) == 146_097
  {
  }

  /** The day after a date has the next day number. */
  lemma NextDayCounts(c: Date)
    requires Valid(c)
    ensures Valid(NextDay(c)) && DaysFromCivil(NextDay(c)) == DaysFromCivil(c) + 1
  {
    hide DaysFromCivil, DateOfParts, DayOfParts, ValidParts, NextDay, Valid;
    var era, yoe, mp := PartsOfValidDate(c);
    DatesOfPartsAreValid(era, yoe, mp, c.day);
    var era', yoe', mp', d' := NextParts(era, yoe, mp, c.day);
    DatesOfPartsAreValid(era', yoe', mp', d');
  }

  /** The closed formula is the calendar: day n is the date n page turns after 1 January 1970. */
  lemma {:induction false} CivilIsTheCalendar(n: nat)
    ensures CivilFromDaysEnclave(n) == AfterEpoch(n)
    ensures DaysFromCivil(AfterEpoch(n)) == n && Valid(AfterEpoch(n))
  {
    hide CivilFromDaysEnclave, CivilFromDaysGateway, DaysFromCivil, NextDay, Valid;
    if n == 0 {
      EpochDate();
    } else {
      CivilIsTheCalendar(n - 1);
      NextDayCounts(AfterEpoch(n - 1));
    }
    DateRoundTrip(AfterEpoch(n));
  }

  lemma EpochDate()
    ensures Valid(Date(1970, 1, 1)) && DaysFromCivil(Date(1970, 1, 1)) == 0
  {
    hide DaysFromCivil;
    YearBounds();
  }

  // ---------------------------------------------------------------- years in order

  /** Days before a March-based year, counted from year zero. */
  function MarchYearStart(y: int): int {
    365 * y + y / 4 - y / 100 + y / 400
  }

  lemma MarchYearOfParts(era: int, yoe: int)
    requires 0 <= yoe < 400
    ensures MarchYearStart(era * 400 + yoe) == era * 146_097 + YearStart(yoe)
  {
    assert (400 * era + yoe) / 400 == era;
    assert (4 * (100 * era) + yoe) / 4 == 100 * era + yoe / 4;
    assert (100 * (4 * era) + yoe) / 100 == 4 * era + yoe / 100;
  }

  lemma {:induction false} MarchYearsGrow(x: int, y: int)
    requires x < y
    ensures MarchYearStart(x) + 365 <= MarchYearStart(y)
    decreases y - x
  {
    if x + 1 < y {
      MarchYearsGrow(x, y - 1);
    }
    MarchYearStep(y - 1);
  }

  lemma MarchYearStep(x: int)
    ensures MarchYearStart(x) + 365 <= MarchYearStart(x + 1)
  {
    DivStep(x);
    assert (x + 1) / 400 >= x / 400;
    assert (x + 1) % 100 == 0 ==> (x + 1) % 4 == 0 by {
      Mod4(25 * ((x + 1) / 100), (x + 1) % 100);
    }
  }

  lemma DayOfDate(c: Date)
    requires Valid(c)
    ensures var y := if c.month <= 2 then c.year - 1 else c.year;
      var doy := DaysFromCivil(c) + 719_468 - MarchYearStart(y);
      if c.month <= 2 then 306 <= doy < 366 else 0 <= doy < 306
  {
    hide MarchYearStart, YearStart, DaysFromCivil, LeapYear;
    var era, yoe, mp := PartsOfValidDate(c);
    DatesOfPartsAreValid(era, yoe, mp, c.day);
    MarchYearOfParts(era, yoe);
  }

  /** A date lies in or after a year exactly when its day number is at or past the year's first. */
  lemma YearOrder(c: Date, year: int)
    requires Valid(c)
    ensures c.year >= year <==> DaysFromCivil(c) >= DaysFromCivil(Date(year, 1, 1))
  {
    hide MarchYearStart, YearStart, DaysFromCivil, LeapYear;
    DayOfDate(c);
    JanuaryFirst(year);
    var y := if c.month <= 2 then c.year - 1 else c.year;
    if y < year - 1 {
      MarchYearsGrow(y, year - 1);
    } else if y > year - 1 {
      MarchYearsGrow(year - 1, y);
    }
  }

  lemma JanuaryFirst(year: int)
    ensures DaysFromCivil(Date(year, 1, 1)) == MarchYearStart(year - 1) + 306 - 719_468
  {
    var era, yoe := (year - 1) / 400, (year - 1) % 400;
    EraOfYear(year - 1, era, yoe);
    MarchYearOfParts(era, yoe);
  }

  // ---------------------------------------------------------------- text

  const DASH: byte := 45
  const COLON: byte := 58
  const DOT: byte := 46
  const LETTER_T: byte := 84
  const LETTER_Z: byte := 90

  /** First day number of the year 10000. */
  const DAY_OF_YEAR_10000 := 2_932_897

  lemma YearIsFourDigits(days: nat)
    ensures CivilFromDaysEnclave(days).year >= 1970
    ensures CivilFromDaysEnclave(days).year < 10_000 <==> days < DAY_OF_YEAR_10000
  {
    hide CivilFromDaysEnclave, DaysFromCivil, Valid;
    var c := CivilFromDaysEnclave(days);
    DayRoundTrip(days);
    YearOrder(c, 1970);
    YearOrder(c, 10_000);
    YearBounds();
  }

  lemma YearBounds()
    ensures DaysFromCivil(Date(1970, 1, 1)) == 0
    ensures DaysFromCivil(Date(10_000, 1, 1)) == DAY_OF_YEAR_10000
  {
    hide DaysFromCivil;
    JanuaryFirst(1970);
    JanuaryFirst(10_000);
  }

  function DateText(c: Date): (s: Bytes)
    requires c.year >= 0 && c.month >= 0 && c.day >= 0
  {
    Padded(c.year, 4) + [DASH] + Padded(c.month, 2) + [DASH] + Padded(c.day, 2)
  }

  /** The enclave's OKX timestamp of a millisecond clock (a u64). */
  function OkxIso8601(ms: nat): Bytes {
    var secs := ms / 1000;
    var c := CivilFromDaysEnclave(secs / 86_400);
    var sod := secs % 86_400;
    YearIsFourDigits(secs / 86_400);
    DayRoundTrip(secs / 86_400);
    DateText(c) + [LETTER_T] + TimeText(sod / 3600, sod % 3600 / 60, sod % 60, ms % 1000)
  }

  function TimeText(h: nat, m: nat, s: nat, millis: nat): (t: Bytes)
    ensures |t| >= 13 && t[|t| - 1] == LETTER_Z
  {
    Padded(h, 2) + [COLON] + Padded(m, 2) + [COLON] + Padded(s, 2) + [DOT] + Padded(millis, 3) + [LETTER_Z]
  }

  /** The gateway's archive file date of a second clock (a u64). */
  function UtcDate(secs: nat): Bytes {
    var c := CivilFromDaysGateway(secs / 86_400);
    ConversionsAgree(secs / 86_400);
    YearIsFourDigits(secs / 86_400);
    DayRoundTrip(secs / 86_400);
    DateText(c)
  }

  datatype ParseError = BadShape | BadSeparators | BadField | SplitsACharacter

  /** A signed machine integer, as a field of at most four bytes is parsed: optional sign, then digits. */
  function ParseField(s: Bytes): Option<int> {
    if |s| == 0 then None
    else if s[0] == 43 || s[0] == 45 then
      var rest := s[1..];
      if |rest| > 0 && AllDigits(rest) then
        Some(if s[0] == 45 then -(ReadDecimal(rest) as int) else ReadDecimal(rest))
      else None
    else if AllDigits(s) then Some(ReadDecimal(s))
    else None
  }

  /** The gateway's RFC 3339 parser: epoch seconds, sub-second digits ignored. */
  function ParseRfc3339(s: Bytes): Result<int, ParseError> {
    if |s| < 20 || s[|s| - 1] != LETTER_Z then Err(BadShape)
    else if s[4] != DASH || s[7] != DASH || s[10] != LETTER_T || s[13] != COLON || s[16] != COLON then
      Err(BadSeparators)
    else
      var year, month, day := ParseField(s[0..4]), ParseField(s[5..7]), ParseField(s[8..10]);
      var hour, minute := ParseField(s[11..13]), ParseField(s[14..16]);
      if year.None? || month.None? || day.None? || hour.None? || minute.None? then Err(BadField)
      // Slicing a string inside a multi-byte character aborts; only the end of the seconds can fall there.
      else if 128 <= s[19] < 192 then Err(SplitsACharacter)
      else
        var second := ParseField(s[17..19]);
        if second.None? then Err(BadField)
        else
          var days := DaysFromCivil(Date(year.value, month.value, day.value));
          Ok(days * 86_400 + hour.value * 3600 + minute.value * 60 + second.value)
  }

  lemma PaddedFieldParses(n: nat, w: nat)
    requires 0 < w && n < Pow(10, w)
    ensures |Padded(n, w)| == w && ParseField(Padded(n, w)) == Some(n)
  {
    PaddedReadsBack(n, w);
  }

  lemma PowersOfTen()
    ensures Pow(10, 2) == 100 && Pow(10, 3) == 1000 && Pow(10, 4) == 10_000
  {
    assert Pow(10, 1) == 10;
  }

  /** Reading a full timestamp recovers its six fields. */
  lemma TimestampParses(c: Date, h: nat, m: nat, s: nat, millis: nat)
    requires Valid(c) && 0 <= c.year < 10_000 && h < 24 && m < 60 && s < 60 && millis < 1000
    ensures ParseRfc3339(DateText(c) + [LETTER_T] + TimeText(h, m, s, millis))
         == Ok(DaysFromCivil(c) * 86_400 + h * 3600 + m * 60 + s)
  {
    hide DaysFromCivil, ParseField, Padded, Pow;
    PowersOfTen();
    PaddedFieldParses(c.year, 4);
    PaddedFieldParses(c.month, 2);
    PaddedFieldParses(c.day, 2);
    PaddedFieldParses(h, 2);
    PaddedFieldParses(m, 2);
    PaddedFieldParses(s, 2);
    PaddedFieldParses(millis, 3);
    DateSlices(Padded(c.year, 4), Padded(c.month, 2), Padded(c.day, 2), TimeText(h, m, s, millis));
    TimeSlices(DateText(c) + [LETTER_T], Padded(h, 2), Padded(m, 2), Padded(s, 2), Padded(millis, 3));
    hide DateText, TimeText;
    assert Date(c.year, c.month, c.day) == c;
  }

  lemma DateSlices(y: Bytes, m: Bytes, d: Bytes, time: Bytes)
    requires |y| == 4 && |m| == 2 && |d| == 2
    ensures var date := y + [DASH] + m + [DASH] + d;
      var t := date + [LETTER_T] + time;
      && |date| == 10 && |t| == 11 + |time|
      && t[0..4] == y && t[4] == DASH && t[5..7] == m && t[7] == DASH && t[8..10] == d && t[10] == LETTER_T
  {
  }

  lemma TimeSlices(before: Bytes, h: Bytes, m: Bytes, s: Bytes, millis: Bytes)
    requires |before| == 11 && |h| == 2 && |m| == 2 && |s| == 2 && |millis| == 3
    ensures var t := before + (h + [COLON] + m + [COLON] + s + [DOT] + millis + [LETTER_Z]);
      && |t| == 24
      && t[11..13] == h && t[13] == COLON && t[14..16] == m && t[16] == COLON && t[17..19] == s
      && t[19] == DOT && t[23] == LETTER_Z
  {
  }

  /** First millisecond of the year 10000. */
  const MS_OF_YEAR_10000 := DAY_OF_YEAR_10000 * 86_400_000

  /** The gateway reads back the enclave's timestamp exactly when its year has four digits; otherwise it refuses it. */
  lemma TimestampRoundTrip(ms: nat)
    ensures ParseRfc3339(OkxIso8601(ms)) == if ms < MS_OF_YEAR_10000 then Ok(ms / 1000) else Err(BadSeparators)
  {
    hide CivilFromDaysEnclave, DaysFromCivil, ParseRfc3339, DateText, TimeText;
    var secs := ms / 1000;
    var days, sod := secs / 86_400, secs % 86_400;
    YearIsFourDigits(days);
    DayRoundTrip(days);
    var c := CivilFromDaysEnclave(days);
    if ms < MS_OF_YEAR_10000 {
      TimestampParses(c, sod / 3600, sod % 3600 / 60, sod % 60, ms % 1000);
    } else {
      LongYearRefused(c, TimeText(sod / 3600, sod % 3600 / 60, sod % 60, ms % 1000));
    }
  }

  predicate EndsInMillis(t: Bytes, millis: nat) {
    var n := |t|;
    && n >= 5 && t[n - 5] == '.' as int && t[n - 1] == 'Z' as int
    && AllDigits(t[n - 4..n - 1]) && ReadDecimal(t[n - 4..n - 1]) == millis
  }

  /** A timestamp ends in a point, the three digits of its milliseconds and `Z`. */
  lemma TimestampMillis(ms: nat)
    ensures EndsInMillis(OkxIso8601(ms), ms % 1000)
  {
    hide Padded, Pow, ReadDecimal;
    var date, time := TimestampParts(ms);
    PowersOfTen();
    PaddedReadsBack(ms % 1000, 3);
    var sod := ms / 1000 % 86_400;
    TimeEnds(sod / 3600, sod % 3600 / 60, sod % 60, ms % 1000);
    hide TimeText, OkxIso8601;
    SameEnd(date, time);
  }

  lemma TimestampParts(ms: nat) returns (date: Bytes, time: Bytes)
    ensures var sod := ms / 1000 % 86_400; time == TimeText(sod / 3600, sod % 3600 / 60, sod % 60, ms % 1000)
    ensures OkxIso8601(ms) == date + time
  {
    hide CivilFromDaysEnclave, DaysFromCivil, DateText, TimeText;
    var sod := ms / 1000 % 86_400;
    YearIsFourDigits(ms / 1000 / 86_400);
    DayRoundTrip(ms / 1000 / 86_400);
    date := DateText(CivilFromDaysEnclave(ms / 1000 / 86_400)) + [LETTER_T];
    time := TimeText(sod / 3600, sod % 3600 / 60, sod % 60, ms % 1000);
  }

  lemma SameEnd(date: Bytes, time: Bytes)
    requires |time| >= 5
    ensures var t, n, m := date + time, |date + time|, |time|;
      t[n - 5] == time[m - 5] && t[n - 1] == time[m - 1] && t[n - 4..n - 1] == time[m - 4..m - 1]
  {
  }

  lemma TimeEnds(h: nat, m: nat, s: nat, millis: nat)
    requires |Padded(millis, 3)| == 3
    ensures var t := TimeText(h, m, s, millis);
      var n := |t|;
      n >= 5 && t[n - 5] == '.' as int && t[n - 1] == 'Z' as int && t[n - 4..n - 1] == Padded(millis, 3)
  {
    hide Padded;
  }

  predicate Shaped(t: Bytes) {
    && |t| == 24
    && t[4] == '-' as int && t[7] == '-' as int && t[10] == 'T' as int
    && t[13] == ':' as int && t[16] == ':' as int && t[19] == '.' as int && t[23] == 'Z' as int
  }

  /** The shape of a timestamp up to the year 9999. */
  lemma TimestampShape(ms: nat)
    requires ms < MS_OF_YEAR_10000
    ensures Shaped(OkxIso8601(ms))
  {
    hide CivilFromDaysEnclave, DaysFromCivil, Padded, Pow;
    var secs := ms / 1000;
    var days, sod := secs / 86_400, secs % 86_400;
    YearIsFourDigits(days);
    DayRoundTrip(days);
    PowersOfTen();
    var c := CivilFromDaysEnclave(days);
    PaddedFieldParses(c.year, 4);
    PaddedFieldParses(c.month, 2);
    PaddedFieldParses(c.day, 2);
    PaddedFieldParses(sod / 3600, 2);
    PaddedFieldParses(sod % 3600 / 60, 2);
    PaddedFieldParses(sod % 60, 2);
    PaddedFieldParses(ms % 1000, 3);
    var h, m, s := Padded(sod / 3600, 2), Padded(sod % 3600 / 60, 2), Padded(sod % 60, 2);
    DateSlices(Padded(c.year, 4), Padded(c.month, 2), Padded(c.day, 2),
               TimeText(sod / 3600, sod % 3600 / 60, sod % 60, ms % 1000));
    TimeSlices(DateText(c) + [LETTER_T], h, m, s, Padded(ms % 1000, 3));
    hide DateText, TimeText;
  }

  /** Up to the year 9999 a timestamp names one millisecond. */
  lemma TimestampIsUnique(a: nat, b: nat)
    requires a < MS_OF_YEAR_10000 && b < MS_OF_YEAR_10000
    ensures OkxIso8601(a) == OkxIso8601(b) <==> a == b
  {
    hide OkxIso8601, ParseRfc3339, ReadDecimal;
    if OkxIso8601(a) == OkxIso8601(b) {
      TimestampRoundTrip(a);
      TimestampRoundTrip(b);
      TimestampMillis(a);
      TimestampMillis(b);
    }
  }

  lemma LongYearRefused(c: Date, time: Bytes)
    requires Valid(c) && c.year >= 10_000
    requires |time| >= 13 && time[|time| - 1] == LETTER_Z
    ensures ParseRfc3339(DateText(c) + [LETTER_T] + time) == Err(BadSeparators)
  {
    hide Padded, Pow, ParseField, DaysFromCivil;
    PowersOfTen();
    PaddedReadsBack(c.year, 4);
    var t := DateText(c) + [LETTER_T] + time;
    assert t[4] == Padded(c.year, 4)[4];
  }

  /** The archive date of a second is the date part of every timestamp within it. */
  lemma ArchiveDateIsDatePart(ms: nat)
    ensures UtcDate(ms / 1000) + [LETTER_T] <= OkxIso8601(ms)
  {
    hide CivilFromDaysEnclave, CivilFromDaysGateway, DateText, TimeText;
    ConversionsAgree(ms / 1000 / 86_400);
  }
}
