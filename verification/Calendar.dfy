/** `days_to_ymd`: a closed-form conversion from day numbers to civil dates, against the
    Gregorian calendar defined one day at a time (RFC 3339, section 5.7 and appendix C). */
module Calendar {

  datatype Date = Date(year: nat, month: nat, day: nat)

  // ----- The calendar, day by day -------------------------------------------

  predicate IsLeap(year: nat) {
    year % 4 == 0 && (year % 100 != 0 || year % 400 == 0)
  }

  function MonthLength(year: nat, month: nat): nat {
    if month == 2 then (if IsLeap(year) then 29 else 28)
    else if month == 4 || month == 6 || month == 9 || month == 11 then 30
    else 31
  }

  predicate ValidDate(d: Date) {
    1 <= d.month <= 12 && 1 <= d.day <= MonthLength(d.year, d.month)
  }

  function NextDay(d: Date): Date {
    if d.day < MonthLength(d.year, d.month) then d.(day := d.day + 1)
    else if d.month < 12 then Date(d.year, d.month + 1, 1)
    else Date(d.year + 1, 1, 1)
  }

  /** The date reached by counting `n` days on from 1970-01-01. */
  ghost function DateAfter(n: nat): (d: Date)
    ensures ValidDate(d)
  {
    if n == 0 then Date(1970, 1, 1) else NextDay(DateAfter(n - 1))
  }

  predicate Earlier(a: Date, b: Date) {
    a.year < b.year || (a.year == b.year && (a.month < b.month || (a.month == b.month && a.day < b.day)))
  }

  // ----- The closed form ----------------------------------------------------

  /** Days before March 1st of year `y` of a 400-year era that starts on March 1st. */
  function YearStart(y: nat): nat {
    365 * y + y / 4 - y / 100
  }

  function YearOfEra(dayOfEra: nat): nat
    requires dayOfEra < 146_097
  {
    (dayOfEra - dayOfEra / 1_460 + dayOfEra / 36_524 - dayOfEra / 146_096) / 365
  }

  /** Days before month `mp` of a year that starts in March. */
  function MonthStart(mp: nat): nat {
    (153 * mp + 2) / 5
  }

  function MonthOf(mp: nat): nat
    requires mp <= 11
  {
    if mp < 10 then mp + 3 else mp - 9
  }

  function MonthIndex(doy: nat): (mp: nat)
    requires doy <= 365
    ensures mp <= 11 && MonthStart(mp) <= doy < MonthStart(mp + 1)
  {
    (5 * doy + 2) / 153
  }

  /** The date of day `doy` of the year that starts on March 1st of `year`. */
  function MarchDate(year: nat, doy: nat): Date
    requires doy <= 365
  {
    var mp := MonthIndex(doy);
    var day := doy - MonthStart(mp) + 1;
    var month := MonthOf(mp);
    Date(if month <= 2 then year + 1 else year, month, day)
  }

  /** Day `doe` of era `era`. */
  function EraDate(era: nat, doe: nat): Date
    requires doe < 146_097
  {
    YearOfEraBounds(doe);
    MarchDate(YearOfEra(doe) + era * 400, doe - YearStart(YearOfEra(doe)))
  }

  /** The conversion before its result is narrowed. */
  function CivilFromDays(days: nat): Date {
    var z := days + 719_468;
    EraDate(z / 146_097, z % 146_097)
  }

  const U32_RANGE: nat := 0x1_0000_0000

  /** `days_to_ymd`: the year is narrowed to 32 bits. */
  function DaysToYmd(days: nat): Date {
    var d := CivilFromDays(days);
    d.(year := d.year % U32_RANGE)
  }

  // ----- Year and month arithmetic ------------------------------------------

  /** `doe` is day `s` of year `k` of four-year cycle `j` of century `c` of its era. */
  ghost predicate EraSplit(doe: nat, c: nat, j: nat, k: nat, s: nat) {
    && c <= 3 && j <= 24 && k <= 3 && s <= 365
    && doe == 36_524 * c + 1_461 * j + 365 * k + s
    && (s == 365 ==> k == 3 && (j < 24 || c == 3))
  }

  lemma SplitExists(doe: nat) returns (c: nat, j: nat, k: nat, s: nat)
    requires doe < 146_097
    ensures EraSplit(doe, c, j, k, s)
  {
    c := if doe < 146_096 then doe / 36_524 else 3;
    var r := doe - 36_524 * c;
    j := r / 1_461;
    var t := r % 1_461;
    k := if t < 1_460 then t / 365 else 3;
    s := t - 365 * k;
  }

  lemma SplitQuotient(doe: nat, c: nat, j: nat, k: nat, s: nat)
    requires EraSplit(doe, c, j, k, s)
    ensures doe / 1_460 == 25 * c + j + (if 24 * c + j + 365 * k + s >= 1_460 then 1 else 0)
  {}

  /** The divisions of the closed form find the year of the split. */
  lemma SplitYear(doe: nat, c: nat, j: nat, k: nat, s: nat)
    requires doe < 146_097 && EraSplit(doe, c, j, k, s)
    ensures YearOfEra(doe) == 100 * c + 4 * j + k
    ensures YearStart(100 * c + 4 * j + k) == 36_524 * c + 1_461 * j + 365 * k
  {
    SplitQuotient(doe, c, j, k, s);
    var y := 100 * c + 4 * j + k;
    assert doe < 146_096 ==> doe / 36_524 == c && doe / 146_096 == 0;
    assert y / 4 == 25 * c + j && y / 100 == c;
  }

  lemma YearOfEraBounds(doe: nat)
    requires doe < 146_097
    ensures YearOfEra(doe) <= 399
    ensures YearStart(YearOfEra(doe)) <= doe <= YearStart(YearOfEra(doe)) + 365
    ensures doe < YearStart(YearOfEra(doe) + 1) + (if YearOfEra(doe) == 399 then 1 else 0)
  {
    var c, j, k, s := SplitExists(doe);
    SplitYear(doe, c, j, k, s);
    var y := 100 * c + 4 * j + k;
    assert (y + 1) / 4 == 25 * c + j + (if k == 3 then 1 else 0);
    assert (y + 1) / 100 == c + (if k == 3 && j == 24 then 1 else 0);
  }

  lemma YearOfEraIsUnique(doe: nat, y: nat)
    requires doe < 146_097 && y <= 399
    requires YearStart(y) <= doe < YearStart(y + 1) + (if y == 399 then 1 else 0)
    ensures YearOfEra(doe) == y
  {
    YearOfEraBounds(doe);
    var v := YearOfEra(doe);
    YearStartGrows(v + 1, y);
    YearStartGrows(y + 1, v);
  }

  lemma YearStartGrows(a: nat, b: nat)
    ensures a <= b ==> YearStart(a) <= YearStart(b)
  {}

  /** Days from March 1st of `year` to the next March 1st. */
  function MarchYearLength(year: nat): nat {
    if IsLeap(year + 1) then 366 else 365
  }

  lemma YearStartStep(y: nat)
    requires y <= 399
    ensures YearStart(y + 1) + (if y == 399 then 1 else 0) == YearStart(y) + MarchYearLength(y)
  {
    assert (y + 1) / 4 == y / 4 + (if (y + 1) % 4 == 0 then 1 else 0);
    assert (y + 1) / 100 == y / 100 + (if (y + 1) % 100 == 0 then 1 else 0);
  }

  lemma Mod4Repeats(a: nat, k: nat)
    ensures (a + 4 * k) % 4 == a % 4
  {
    assert a + 4 * k == 4 * (a / 4 + k) + a % 4;
  }

  lemma Mod100Repeats(a: nat, k: nat)
    ensures (a + 100 * k) % 100 == a % 100
  {
    assert a + 100 * k == 100 * (a / 100 + k) + a % 100;
  }

  lemma Mod400Repeats(a: nat, k: nat)
    ensures (a + 400 * k) % 400 == a % 400
  {
    assert a + 400 * k == 400 * (a / 400 + k) + a % 400;
  }

  /** Leap years repeat every 400 years. */
  lemma LeapRepeats(y: nat, era: nat)
    ensures MarchYearLength(y + era * 400) == MarchYearLength(y)
  {
    Mod4Repeats(y + 1, era * 100);
    Mod100Repeats(y + 1, era * 4);
    Mod400Repeats(y + 1, era);
  }

  lemma MonthSpans(year: nat, mp: nat)
    requires mp <= 10
    ensures MonthStart(mp + 1) - MonthStart(mp) == MonthLength(year, MonthOf(mp))
  {
    assert MonthStart(0) == 0 && MonthStart(1) == 31 && MonthStart(2) == 61 && MonthStart(3) == 92;
    assert MonthStart(4) == 122 && MonthStart(5) == 153 && MonthStart(6) == 184 && MonthStart(7) == 214;
    assert MonthStart(8) == 245 && MonthStart(9) == 275 && MonthStart(10) == 306 && MonthStart(11) == 337;
  }

  lemma MonthIndexIsUnique(doy: nat, mp: nat)
    requires doy <= 365 && mp <= 11 && MonthStart(mp) <= doy < MonthStart(mp + 1)
    ensures MonthIndex(doy) == mp
  {}

  /** From March to the end of January. */
  lemma MarchDateStepInYear(year: nat, doy: nat)
    requires doy < 337
    ensures ValidDate(MarchDate(year, doy))
    ensures NextDay(MarchDate(year, doy)) == MarchDate(year, doy + 1)
  {
    var mp := MonthIndex(doy);
    assert MonthStart(11) == 337;
    assert mp <= 10;
    MonthSpans(if mp < 10 then year else year + 1, mp);
    MonthIndexIsUnique(doy + 1, if doy + 1 < MonthStart(mp + 1) then mp else mp + 1);
  }

  lemma MarchDateStep(year: nat, doy: nat)
    requires doy < MarchYearLength(year)
    ensures ValidDate(MarchDate(year, doy))
    ensures NextDay(MarchDate(year, doy))
         == if doy + 1 < MarchYearLength(year) then MarchDate(year, doy + 1) else MarchDate(year + 1, 0)
  {
    if doy < 337 {
      MarchDateStepInYear(year, doy);
    } else {
      MonthIndexIsUnique(doy, 11);
      if doy + 1 < MarchYearLength(year) {
        MonthIndexIsUnique(doy + 1, 11);
      } else {
        MonthIndexIsUnique(0, 0);
      }
    }
  }

  /** Day `doe` of an era is day `doy` of its year `y`. */
  ghost predicate EraDay(doe: nat, y: nat, doy: nat) {
    doe < 146_097 && y <= 399 && doe == YearStart(y) + doy && doy < MarchYearLength(y)
  }

  lemma EraDayExists(doe: nat) returns (y: nat, doy: nat)
    requires doe < 146_097
    ensures EraDay(doe, y, doy) && doy < MarchYearLength(y)
  {
    YearOfEraBounds(doe);
    y := YearOfEra(doe);
    doy := doe - YearStart(y);
    YearStartStep(y);
  }

  lemma EraDateIs(era: nat, doe: nat, y: nat, doy: nat)
    requires EraDay(doe, y, doy)
    ensures EraDate(era, doe) == MarchDate(y + era * 400, doy)
  {
    YearStartStep(y);
    YearOfEraIsUnique(doe, y);
  }

  lemma EraDayNext(doe: nat, y: nat, doy: nat)
    requires EraDay(doe, y, doy)
    ensures doe < 146_096 && doy + 1 < MarchYearLength(y) ==> EraDay(doe + 1, y, doy + 1)
    ensures doe < 146_096 && doy + 1 == MarchYearLength(y) ==> y < 399 && EraDay(doe + 1, y + 1, 0)
    ensures doe == 146_096 ==> y == 399 && doy + 1 == MarchYearLength(y)
  {
    YearStartStep(y);
    YearStartGrows(y + 1, 399);
  }

  lemma EraDateStep(era: nat, doe: nat)
    requires doe < 146_097
    ensures ValidDate(EraDate(era, doe))
    ensures NextDay(EraDate(era, doe)) == if doe == 146_096 then EraDate(era + 1, 0) else EraDate(era, doe + 1)
  {
    hide EraDate, MarchDate, NextDay, ValidDate, EraDay, IsLeap;
    var y, doy := EraDayExists(doe);
    EraDateIs(era, doe, y, doy);
    LeapRepeats(y, era);
    EraDayNext(doe, y, doy);
    EraDayFirst(0);
    assert YearStart(0) == 0;
    MarchDateStep(y + era * 400, doy);
    if doe == 146_096 {
      EraDateIs(era + 1, 0, 0, 0);
    } else if doy + 1 < MarchYearLength(y) {
      EraDateIs(era, doe + 1, y, doy + 1);
    } else {
      EraDateIs(era, doe + 1, y + 1, 0);
    }
  }

  /** The first day of a year of the era. */
  lemma EraDayFirst(y: nat)
    requires y <= 399
    ensures EraDay(YearStart(y), y, 0)
  {
    YearStartGrows(y, 399);
  }

  /** The closed form moves to the calendar's next day. */
  lemma CivilStep(days: nat)
    ensures ValidDate(CivilFromDays(days))
    ensures CivilFromDays(days + 1) == NextDay(CivilFromDays(days))
  {
    hide EraDate, NextDay, ValidDate;
    var z := days + 719_468;
    EraDateStep(z / 146_097, z % 146_097);
    assert if z % 146_097 == 146_096
           then (z + 1) / 146_097 == z / 146_097 + 1 && (z + 1) % 146_097 == 0
           else (z + 1) / 146_097 == z / 146_097 && (z + 1) % 146_097 == z % 146_097 + 1;
  }

  lemma CivilEpoch()
    ensures CivilFromDays(0) == Date(1970, 1, 1)
  {
    SplitYear(135_080, 3, 17, 1, 306);
    MonthIndexIsUnique(306, 10);
    assert 719_468 / 146_097 == 4 && 719_468 % 146_097 == 135_080;
  }

  /** The closed form counts days as the calendar does. */
  lemma {:induction false} CivilCounts(days: nat)
    ensures CivilFromDays(days) == DateAfter(days)
  {
    hide CivilFromDays, NextDay;
    if days == 0 {
      CivilEpoch();
    } else {
      CivilCounts(days - 1);
      CivilStep(days - 1);
    }
  }

  // ----- Counting days back, independently of the closed form ---------------

  ghost function DaysBeforeYear(year: nat): nat {
    if year <= 1970 then 0 else DaysBeforeYear(year - 1) + (if IsLeap(year - 1) then 366 else 365)
  }

  ghost function DaysBeforeMonth(year: nat, month: nat): nat {
    if month <= 1 then 0 else DaysBeforeMonth(year, month - 1) + MonthLength(year, month - 1)
  }

  /** How many days after 1970-01-01 a date lies: whole years, whole months, then days. */
  ghost function DayNumber(d: Date): nat {
    DaysBeforeYear(d.year) + DaysBeforeMonth(d.year, d.month) + (if d.day > 0 then d.day - 1 else 0)
  }

  lemma MonthsFillYear(year: nat)
    ensures DaysBeforeMonth(year, 12) + 31 == if IsLeap(year) then 366 else 365
  {
    var feb := MonthLength(year, 2);
    assert DaysBeforeMonth(year, 2) == 31;
    assert DaysBeforeMonth(year, 4) == 62 + feb;
    assert DaysBeforeMonth(year, 6) == 123 + feb;
    assert DaysBeforeMonth(year, 8) == 184 + feb;
    assert DaysBeforeMonth(year, 10) == 245 + feb;
  }

  lemma NextDayCounts(d: Date)
    requires ValidDate(d) && d.year >= 1970
    ensures ValidDate(NextDay(d)) && DayNumber(NextDay(d)) == DayNumber(d) + 1
  {
    MonthsFillYear(d.year);
    assert DaysBeforeMonth(d.year, d.month + 1) == DaysBeforeMonth(d.year, d.month) + MonthLength(d.year, d.month);
  }

  lemma {:induction false} DateAfterCounts(n: nat)
    ensures DateAfter(n).year >= 1970 && DayNumber(DateAfter(n)) == n
  {
    if n > 0 {
      DateAfterCounts(n - 1);
      NextDayCounts(DateAfter(n - 1));
    }
  }

  lemma {:induction false} MonthsGrow(year: nat, a: nat, b: nat)
    requires 1 <= a < b
    ensures DaysBeforeMonth(year, a) + MonthLength(year, a) <= DaysBeforeMonth(year, b)
  {
    if a + 1 < b {
      MonthsGrow(year, a, b - 1);
    }
  }

  lemma {:induction false} YearsGrow(a: nat, b: nat)
    requires 1970 <= a < b
    ensures DaysBeforeYear(a) + (if IsLeap(a) then 366 else 365) <= DaysBeforeYear(b)
  {
    if a + 1 < b {
      YearsGrow(a, b - 1);
    }
  }

  lemma DayInsideYear(d: Date)
    requires ValidDate(d)
    ensures DaysBeforeMonth(d.year, d.month) + d.day <= if IsLeap(d.year) then 366 else 365
  {
    MonthsFillYear(d.year);
    if d.month < 12 {
      MonthsGrow(d.year, d.month, 12);
    }
  }

  lemma EarlierCountsLess(a: Date, b: Date)
    requires ValidDate(a) && ValidDate(b) && a.year >= 1970 && Earlier(a, b)
    ensures DayNumber(a) < DayNumber(b)
  {
    if a.year < b.year {
      DayInsideYear(a);
      YearsGrow(a.year, b.year);
    } else if a.month < b.month {
      MonthsGrow(a.year, a.month, b.month);
    }
  }

  // ----- The conversion -----------------------------------------------------

  /** 4294967296-01-01, the first day whose year does not fit 32 bits. */
  const FIRST_WIDE_DAY: nat := 1_568_703_873_082

  lemma FirstWideDay()
    ensures CivilFromDays(FIRST_WIDE_DAY) == Date(U32_RANGE, 1, 1)
  {
    var z := FIRST_WIDE_DAY + 719_468;
    assert z / 146_097 == 10_737_418 && z % 146_097 == 35_004;
    SplitYear(35_004, 0, 23, 3, 306);
    MonthIndexIsUnique(306, 10);
  }

  /** On that day the conversion returns January 1st of the year 0. */
  lemma WideYearWraps()
    ensures DaysToYmd(FIRST_WIDE_DAY) == Date(0, 1, 1)
  {
    hide CivilFromDays;
    FirstWideDay();
  }

  /** Day numbers and dates order alike. */
  lemma DatesIncrease(m: nat, n: nat)
    ensures m < n <==> Earlier(DateAfter(m), DateAfter(n))
  {
    DateAfterCounts(m);
    DateAfterCounts(n);
    var a, b := DateAfter(m), DateAfter(n);
    if Earlier(a, b) {
      EarlierCountsLess(a, b);
    } else if Earlier(b, a) {
      EarlierCountsLess(b, a);
    }
  }

  /** `days_to_ymd` returns the calendar date exactly for the days whose year fits 32 bits. */
  lemma DaysToYmdIsCalendar(days: nat)
    ensures DaysToYmd(days) == DateAfter(days) <==> days < FIRST_WIDE_DAY
  {
    hide CivilFromDays, DateAfter;
    CivilCounts(days);
    CivilCounts(FIRST_WIDE_DAY);
    FirstWideDay();
    DatesIncrease(days, FIRST_WIDE_DAY);
  }

  /** Counting the days of the result gives the input back. */
  lemma DaysToYmdRoundTrip(days: nat)
    requires days < FIRST_WIDE_DAY
    ensures ValidDate(DaysToYmd(days)) && DayNumber(DaysToYmd(days)) == days
  {
    DaysToYmdIsCalendar(days);
    DateAfterCounts(days);
  }

  /** Every valid date from 1970 on comes back from its day number. */
  lemma DayNumberRoundTrip(d: Date)
    requires ValidDate(d) && 1970 <= d.year < U32_RANGE
    ensures DaysToYmd(DayNumber(d)) == d
  {
    hide CivilFromDays, DayNumber;
    var n := DayNumber(d);
    DateAfterCounts(n);
    var e := DateAfter(n);
    if Earlier(d, e) {
      EarlierCountsLess(d, e);
    } else if Earlier(e, d) {
      EarlierCountsLess(e, d);
    }
    CivilCounts(n);
  }

  /** The conversion is strictly increasing. */
  lemma DaysToYmdIncreases(m: nat, n: nat)
    requires m < FIRST_WIDE_DAY && n < FIRST_WIDE_DAY
    ensures m < n <==> Earlier(DaysToYmd(m), DaysToYmd(n))
  {
    DaysToYmdIsCalendar(m);
    DaysToYmdIsCalendar(n);
    DatesIncrease(m, n);
  }
}
