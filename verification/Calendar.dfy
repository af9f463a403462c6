/** Gregorian calendar arithmetic behind the timestamps, over all integers. */
module Calendar {

  datatype Date = Date(year: int, month: int, day: int)

  // ----- the calendar, by counting -----

  predicate IsLeap(y: int) { y % 4 == 0 && (y % 100 != 0 || y % 400 == 0) }

  function DaysInMonth(y: int, m: int): int {
    if m == 2 then (if IsLeap(y) then 29 else 28)
    else if m == 4 || m == 6 || m == 9 || m == 11 then 30
    else 31
  }

  predicate ValidDate(d: Date) {
    1 <= d.month <= 12 && 1 <= d.day <= DaysInMonth(d.year, d.month)
  }

  /** The day after. */
  function NextDay(d: Date): Date {
    if d.day < DaysInMonth(d.year, d.month) then d.(day := d.day + 1)
    else if d.month < 12 then Date(d.year, d.month + 1, 1)
    else Date(d.year + 1, 1, 1)
  }

  // ----- the conversion -----

  /** Year of era, counted from March, of a day of era. */
  function YearOfEra(doe: int): int {
    (doe - doe / 1460 + doe / 36_524 - doe / 146_096) / 365
  }

  /** Days of the era before year `yoe`. */
  function YearStart(yoe: int): int { 365 * yoe + yoe / 4 - yoe / 100 }

  /** Days of the March-based year before month `mp`. */
  function MonthStart(mp: int): int { (153 * mp + 2) / 5 }

  /** The date of a day number, where day 0 is the first of January 1970. */
  function CivilFromDays(days: int): Date {
    var z := days + 719_468;
    var era := z / 146_097;
    var doe := z % 146_097;
    var yoe := YearOfEra(doe);
    var doy := doe - YearStart(yoe);
    var mp := (5 * doy + 2) / 153;
    var month := if mp < 10 then mp + 3 else mp - 9;
    Date(yoe + era * 400 + (if month <= 2 then 1 else 0), month, doy - MonthStart(mp) + 1)
  }

  /** Days of the year of era `yoe`, March to February: February is next year's. */
  function YearLength(yoe: int): (n: int)
    ensures n == 365 || n == 366
  {
    if IsLeap(yoe + 1) then 366 else 365
  }

  /** A day of era as centuries, four-year cycles, years and days. */
  predicate Parts(c: int, q: int, t: int, s: int) {
    && 0 <= c < 4 && 0 <= q < 25 && 0 <= t < 4
    && 0 <= s < (if t == 3 && (q < 24 || c == 3) then 366 else 365)
  }

  lemma {:induction false} SplitDay(doe: int) returns (c: int, q: int, t: int, s: int)
    requires 0 <= doe < 146_097
    ensures Parts(c, q, t, s) && doe == 36_524 * c + 1_461 * q + 365 * t + s
  {
    c := if doe / 36_524 < 3 then doe / 36_524 else 3;
    var r := doe - 36_524 * c;
    q := r / 1_461;
    var u := r - 1_461 * q;
    t := if u / 365 < 3 then u / 365 else 3;
    s := u - 365 * t;
  }

  lemma {:induction false} YearStartParts(c: int, q: int, t: int)
    requires Parts(c, q, t, 0)
    ensures YearStart(100 * c + 4 * q + t) == 36_524 * c + 1_461 * q + 365 * t
    ensures YearLength(100 * c + 4 * q + t) == if t == 3 && (q < 24 || c == 3) then 366 else 365
  {
    var y := 100 * c + 4 * q + t;
    assert y / 4 == 25 * c + q && y / 100 == c;
    assert (y + 1) % 4 == (t + 1) % 4;
    assert (y + 1) % 100 == 0 <==> q == 24 && t == 3;
    assert q == 24 && t == 3 ==> y + 1 == 100 * (c + 1);
  }

  lemma {:induction false} FourYears(k: int, left: int)
    requires 0 <= left < 2_920
    ensures (1_460 * k + left) / 1_460 == k + (if left >= 1_460 then 1 else 0)
  {
  }

  /** The last day of an era is the only one the first division puts too high. */
  lemma {:induction false} Centuries(c: int, r: int)
    requires 0 <= c < 4 && 0 <= r && r < (if c == 3 then 36_525 else 36_524)
    ensures (36_524 * c + r) / 36_524 - (36_524 * c + r) / 146_096 == c
  {
    var doe := 36_524 * c + r;
    if r == 36_524 {
      assert doe == 146_096;
    } else {
      assert doe / 36_524 == c && doe / 146_096 == 0;
    }
  }

  lemma {:induction false} WholeYears(y: int, m: int)
    requires 0 <= m < 365
    ensures (365 * y + m) / 365 == y
  {
  }

  lemma {:induction false} YearOfEraParts(c: int, q: int, t: int, s: int)
    requires Parts(c, q, t, s)
    ensures YearOfEra(36_524 * c + 1_461 * q + 365 * t + s) == 100 * c + 4 * q + t
  {
    var doe := 36_524 * c + 1_461 * q + 365 * t + s;
    var left := 24 * c + q + 365 * t + s;
    var e := if left >= 1_460 then 1 else 0;
    assert doe == 1_460 * (25 * c + q) + left;
    FourYears(25 * c + q, left);
    Centuries(c, 1_461 * q + 365 * t + s);
    WholeYears(100 * c + 4 * q + t, s - e);
  }

  /** The year of era is the one the day lies in. */
  lemma {:induction false} YearOfEraFits(doe: int)
    requires 0 <= doe < 146_097
    ensures 0 <= YearOfEra(doe) < 400
    ensures YearStart(YearOfEra(doe)) <= doe < YearStart(YearOfEra(doe)) + YearLength(YearOfEra(doe))
  {
    var c, q, t, s := SplitDay(doe);
    YearOfEraParts(c, q, t, s);
    YearStartParts(c, q, t);
  }

  /** Years of an era follow one another without gaps. */
  lemma {:induction false} YearsAbut(y: int)
    requires 0 <= y < 400
    ensures y < 399 ==> YearStart(y + 1) == YearStart(y) + YearLength(y)
    ensures y == 399 ==> YearStart(y) + YearLength(y) == 146_097
  {
    var c, q, t := y / 100, y % 100 / 4, y % 4;
    assert y == 100 * c + 4 * q + t;
    YearStartParts(c, q, t);
    if t < 3 {
      YearStartParts(c, q, t + 1);
    } else if q < 24 {
      YearStartParts(c, q + 1, 0);
    } else if c < 3 {
      YearStartParts(c + 1, 0, 0);
    }
  }

  /** ... so a day lies in only one of them. */
  lemma {:induction false} YearOfEraUnique(doe: int, y: int)
    requires 0 <= doe < 146_097 && 0 <= y < 400
    requires YearStart(y) <= doe < YearStart(y) + YearLength(y)
    ensures YearOfEra(doe) == y
  {
    YearOfEraFits(doe);
    var x := YearOfEra(doe);
    if x < y {
      YearsAbut(x);
      YearStartGrows(x + 1, y);
    } else if y < x {
      YearsAbut(y);
      YearStartGrows(y + 1, x);
    }
  }

  lemma {:induction false} YearStartGrows(x: int, y: int)
    requires 0 <= x <= y < 400
    ensures YearStart(x) <= YearStart(y)
    decreases y - x
  {
    if x < y {
      YearsAbut(x);
      YearStartGrows(x + 1, y);
    }
  }

  // ----- months -----

  /** Days of the March-based month `mp` of a year with `length` days. */
  function MonthLength(mp: int, length: int): int {
    if mp == 11 then length - 337
    else if mp == 1 || mp == 3 || mp == 6 || mp == 8 then 30
    else 31
  }

  lemma {:induction false} MonthFits(doy: int, length: int)
    requires (length == 365 || length == 366) && 0 <= doy < length
    ensures var mp := (5 * doy + 2) / 153;
      0 <= mp < 12 && MonthStart(mp) <= doy < MonthStart(mp) + MonthLength(mp, length)
  {
    var mp := (5 * doy + 2) / 153;
    assert 153 * mp <= 5 * doy + 2 < 153 * (mp + 1);
  }

  lemma {:induction false} MonthUnique(doy: int, length: int, mp: int)
    requires (length == 365 || length == 366) && 0 <= doy < length && 0 <= mp < 12
    requires MonthStart(mp) <= doy < MonthStart(mp) + MonthLength(mp, length)
    ensures (5 * doy + 2) / 153 == mp
  {
    MonthFits(doy, length);
  }

  // ----- dates -----

  /** The date of day `doy` of the March-based year `y`. */
  function DateOf(y: int, doy: int): Date {
    var mp := (5 * doy + 2) / 153;
    var month := if mp < 10 then mp + 3 else mp - 9;
    Date(y + (if month <= 2 then 1 else 0), month, doy - MonthStart(mp) + 1)
  }

  lemma {:induction false} LeapStep(y: int)
    ensures IsLeap(y + 400) == IsLeap(y)
  {
    assert (y + 400) % 4 == y % 4 && (y + 400) % 100 == y % 100 && (y + 400) % 400 == y % 400;
  }

  lemma {:induction false} LeapPeriod(y: int, era: int)
    ensures IsLeap(y + era * 400) == IsLeap(y)
    decreases if era < 0 then -era else era
  {
    hide IsLeap;
    if era > 0 {
      LeapPeriod(y, era - 1);
      LeapStep(y + (era - 1) * 400);
    } else if era < 0 {
      LeapPeriod(y, era + 1);
      LeapStep(y + era * 400);
    }
  }

  lemma {:induction false} DateOfValid(y: int, doy: int)
    requires 0 <= doy < YearLength(y)
    ensures ValidDate(DateOf(y, doy))
  {
    MonthFits(doy, YearLength(y));
  }

  /** Within a March-based year, days follow the calendar. */
  lemma {:induction false} NextDoy(y: int, doy: int)
    requires 0 <= doy && doy + 1 < YearLength(y)
    ensures DateOf(y, doy + 1) == NextDay(DateOf(y, doy))
  {
    var n := YearLength(y);
    MonthFits(doy, n);
    var mp := (5 * doy + 2) / 153;
    if doy + 1 < MonthStart(mp) + MonthLength(mp, n) {
      MonthUnique(doy + 1, n, mp);
    } else {
      assert mp < 11;
      MonthUnique(doy + 1, n, mp + 1);
    }
  }

  /** The last day of February is followed by the first of March. */
  lemma {:induction false} NextMarch(y: int)
    ensures DateOf(y + 1, 0) == NextDay(DateOf(y, YearLength(y) - 1))
  {
    MonthUnique(YearLength(y) - 1, YearLength(y), 11);
  }

  lemma {:induction false} CivilIsDateOf(days: int) returns (era: int, doe: int, yoe: int, doy: int)
    ensures days + 719_468 == era * 146_097 + doe && 0 <= doe < 146_097
    ensures yoe == YearOfEra(doe) && 0 <= yoe < 400 && doy == doe - YearStart(yoe)
    ensures 0 <= doy < YearLength(yoe) == YearLength(yoe + era * 400)
    ensures CivilFromDays(days) == DateOf(yoe + era * 400, doy)
  {
    var z := days + 719_468;
    era, doe := z / 146_097, z % 146_097;
    YearOfEraFits(doe);
    yoe := YearOfEra(doe);
    doy := doe - YearStart(yoe);
    hide YearOfEra, YearStart, YearLength, MonthStart;
    assert CivilFromDays(days) == DateOf(yoe + era * 400, doy);
    hide CivilFromDays, DateOf;
    SameLength(yoe, era);
  }

  /** Eras repeat the lengths of their years. */
  lemma {:induction false} SameLength(yoe: int, era: int)
    ensures YearLength(yoe) == YearLength(yoe + era * 400)
  {
    hide IsLeap;
    LeapPeriod(yoe + 1, era);
    assert (yoe + 1) + era * 400 == (yoe + era * 400) + 1;
  }

  /** Every day has a date that exists. */
  lemma {:induction false} CivilValid(days: int)
    ensures ValidDate(CivilFromDays(days))
  {
    hide *;
    var era, doe, yoe, doy := CivilIsDateOf(days);
    DateOfValid(yoe + era * 400, doy);
  }

  /** The day after a day has the date after its date: leap years, centuries and the ends of
      eras included. */
  lemma {:induction false} CivilSuccessor(days: int)
    ensures CivilFromDays(days + 1) == NextDay(CivilFromDays(days))
  {
    hide *;
    var era, doe, yoe, doy := CivilIsDateOf(days);
    var era', doe', yoe', doy' := CivilIsDateOf(days + 1);
    YearsAbut(yoe);
    EraEnd(yoe);
    if doy + 1 < YearLength(yoe) {
      SameEra(era, doe + 1, era', doe');
      YearOfEraUnique(doe + 1, yoe);
      NextDoy(yoe + era * 400, doy);
    } else if yoe < 399 {
      SameEra(era, doe + 1, era', doe');
      EraEnd(yoe + 1);
      YearOfEraUnique(doe + 1, yoe + 1);
      NextMarch(yoe + era * 400);
      assert yoe + era * 400 + 1 == yoe' + era' * 400;
    } else {
      SameEra(era + 1, 0, era', doe');
      EraEnd(0);
      YearOfEraUnique(0, 0);
      NextMarch(yoe + era * 400);
      assert yoe + era * 400 + 1 == yoe' + era' * 400;
    }
  }

  /** A year of an era ends within it. */
  lemma {:induction false} EraEnd(yoe: int)
    requires 0 <= yoe < 400
    ensures 0 <= YearStart(yoe) && YearStart(yoe) + YearLength(yoe) <= 146_097
    ensures YearStart(0) == 0
    ensures yoe < 399 ==> YearStart(yoe + 1) < 146_097
  {
    YearStartGrows(0, yoe);
    YearsAbut(yoe);
    if yoe < 399 {
      YearStartGrows(yoe + 1, 399);
      YearsAbut(399);
    }
  }

  lemma {:induction false} SameEra(era: int, doe: int, era': int, doe': int)
    requires 0 <= doe < 146_097 && 0 <= doe' < 146_097
    requires era * 146_097 + doe == era' * 146_097 + doe'
    ensures era == era' && doe == doe'
  {
  }

  // ----- counting days -----

  function DaysBeforeYear(y: int): int { 365 * (y - 1970) + Leaps(y - 1) - Leaps(1969) }

  /** Leap years from year 1 up to year `y`, negative before it. */
  function Leaps(y: int): int { y / 4 - y / 100 + y / 400 }

  function DaysBeforeMonth(y: int, m: int): int
    requires 1 <= m <= 12
  {
    if m == 1 then 0 else DaysBeforeMonth(y, m - 1) + DaysInMonth(y, m - 1)
  }

  /** Days from 1970-01-01 to a date. */
  function DayNumber(d: Date): int
    requires ValidDate(d)
  {
    DaysBeforeYear(d.year) + DaysBeforeMonth(d.year, d.month) + d.day - 1
  }

  lemma {:induction false} YearCount(y: int)
    ensures DaysBeforeYear(y + 1) == DaysBeforeYear(y) + (if IsLeap(y) then 366 else 365)
  {
    By4(y);
    By100(y);
    By400(y);
  }

  lemma {:induction false} By4(y: int)
    ensures y / 4 == (y - 1) / 4 + (if y % 4 == 0 then 1 else 0)
  {
  }

  lemma {:induction false} By100(y: int)
    ensures y / 100 == (y - 1) / 100 + (if y % 100 == 0 then 1 else 0)
    ensures y % 100 == 0 ==> y % 4 == 0
  {
    if y % 100 == 0 { assert y == 4 * (25 * (y / 100)); }
  }

  lemma {:induction false} By400(y: int)
    ensures y / 400 == (y - 1) / 400 + (if y % 400 == 0 then 1 else 0)
    ensures y % 400 == 0 ==> y % 100 == 0
  {
    if y % 400 == 0 { assert y == 100 * (4 * (y / 400)); }
  }

  lemma {:induction false} YearTotal(y: int)
    ensures DaysBeforeMonth(y, 12) + 31 == if IsLeap(y) then 366 else 365
  {
    assert DaysBeforeMonth(y, 4) == DaysBeforeMonth(y, 2) + DaysInMonth(y, 2) + 31;
    assert DaysBeforeMonth(y, 6) == DaysBeforeMonth(y, 4) + 61;
    assert DaysBeforeMonth(y, 8) == DaysBeforeMonth(y, 6) + 61;
    assert DaysBeforeMonth(y, 10) == DaysBeforeMonth(y, 8) + 61;
    assert DaysBeforeMonth(y, 12) == DaysBeforeMonth(y, 10) + 61;
  }

  lemma {:induction false} NextDayCounts(d: Date)
    requires ValidDate(d)
    ensures ValidDate(NextDay(d)) && DayNumber(NextDay(d)) == DayNumber(d) + 1
  {
    if d.day == DaysInMonth(d.year, d.month) && d.month == 12 {
      YearCount(d.year);
      YearTotal(d.year);
    }
  }

  lemma {:induction false} Epoch()
    ensures CivilFromDays(0) == Date(1970, 1, 1) && DayNumber(Date(1970, 1, 1)) == 0
  {
    assert 719_468 / 146_097 == 4 && 719_468 % 146_097 == 135_080;
    assert YearOfEra(135_080) == 369;
    assert YearStart(369) == 134_774;
  }

  /** Counting days inverts the conversion, for every day before or after 1970. */
  lemma {:induction false} CountInverts(days: int)
    ensures ValidDate(CivilFromDays(days)) && DayNumber(CivilFromDays(days)) == days
    decreases if days < 0 then -days else days
  {
    hide CivilFromDays, DayNumber, NextDay;
    CivilValid(days);
    if days == 0 {
      Epoch();
    } else if days > 0 {
      CountInverts(days - 1);
      CivilSuccessor(days - 1);
      NextDayCounts(CivilFromDays(days - 1));
    } else {
      CountInverts(days + 1);
      CivilSuccessor(days);
      NextDayCounts(CivilFromDays(days));
    }
  }

  /** Dates in order. */
  predicate Before(a: Date, b: Date) {
    a.year < b.year || (a.year == b.year && (a.month < b.month || (a.month == b.month && a.day < b.day)))
  }

  lemma {:induction false} MonthsGrow(y: int, m: int, n: int)
    requires 1 <= m < n <= 12
    ensures DaysBeforeMonth(y, m) + DaysInMonth(y, m) <= DaysBeforeMonth(y, n)
    decreases n - m
  {
    if m + 1 < n {
      MonthsGrow(y, m + 1, n);
    }
  }

  lemma {:induction false} YearsGrow(y: int, z: int)
    requires y < z
    ensures DaysBeforeYear(y) + (if IsLeap(y) then 366 else 365) <= DaysBeforeYear(z)
    decreases z - y
  {
    YearCount(y);
    if y + 1 < z {
      YearsGrow(y + 1, z);
    }
  }

  lemma {:induction false} InYear(d: Date)
    requires ValidDate(d)
    ensures 0 <= DaysBeforeMonth(d.year, d.month) + d.day - 1 < if IsLeap(d.year) then 366 else 365
  {
    YearTotal(d.year);
    if d.month < 12 {
      MonthsGrow(d.year, d.month, 12);
    }
    if d.month > 1 {
      MonthsGrow(d.year, 1, d.month);
    }
  }

  /** Later dates have larger numbers. */
  lemma {:induction false} CountOrders(a: Date, b: Date)
    requires ValidDate(a) && ValidDate(b) && Before(a, b)
    ensures DayNumber(a) < DayNumber(b)
  {
    if a.year < b.year {
      YearsGrow(a.year, b.year);
      InYear(a);
      InYear(b);
    } else if a.month < b.month {
      MonthsGrow(a.year, a.month, b.month);
    }
  }

  /** The conversion inverts counting: every date that exists is reached, from its own day. */
  lemma {:induction false} CivilInverts(d: Date)
    requires ValidDate(d)
    ensures CivilFromDays(DayNumber(d)) == d
  {
    var e := CivilFromDays(DayNumber(d));
    CountInverts(DayNumber(d));
    if Before(d, e) {
      CountOrders(d, e);
    } else if Before(e, d) {
      CountOrders(e, d);
    }
  }

  // ----- the time of day -----

  datatype Timestamp = Timestamp(date: Date, hour: int, minute: int, second: int, millis: int)

  /** The fields of a timestamp, `millis` milliseconds after the epoch. */
  function Fields(millis: nat): Timestamp {
    var secs := millis / 1000;
    var rem := secs % 86_400;
    Timestamp(CivilFromDays(secs / 86_400), rem / 3600, rem % 3600 / 60, rem % 60, millis % 1000)
  }

  /** The fields are in range and together give the instant back. */
  lemma {:induction false} FieldsExact(millis: nat)
    ensures var t := Fields(millis);
      && ValidDate(t.date)
      && 0 <= t.hour < 24 && 0 <= t.minute < 60 && 0 <= t.second < 60 && 0 <= t.millis < 1000
      && millis == ((DayNumber(t.date) * 24 + t.hour) * 60 + t.minute) * 60_000 + t.second * 1000 + t.millis
  {
    hide CivilFromDays, DayNumber;
    var secs := millis / 1000;
    var rem := secs % 86_400;
    CountInverts(secs / 86_400);
    assert rem == rem / 3600 * 3600 + rem % 3600;
    assert rem % 3600 == rem % 3600 / 60 * 60 + rem % 60;
    assert secs == secs / 86_400 * 86_400 + rem;
  }
}
