/** Unix time to calendar dates, and the order-preserving packing of dates. */
module Calendar {

  const U16_SPAN: nat := 0x1_0000
  const U32_SPAN: nat := 0x1_0000_0000
  const DAY: nat := 86400

  /** Months count from 0. The fields are 16 bits wide, month and year 32. */
  datatype DateTime = DateTime(year: nat, mon: nat, day: nat, hour: nat, min: nat, sec: nat, msec: nat, micro: nat)

  // ---- the Gregorian calendar ----

  predicate Leap(year: nat) { year % 4 == 0 && (year % 100 != 0 || year % 400 == 0) }

  function MonthDays(year: nat, mon: nat): nat
    requires mon < 12
  {
    if mon == 1 then if Leap(year) then 29 else 28
    else if mon == 3 || mon == 5 || mon == 8 || mon == 10 then 30
    else 31
  }

  function YearDays(year: nat): nat { if Leap(year) then 366 else 365 }

  predicate ValidDate(year: nat, mon: nat, day: nat) { mon < 12 && 1 <= day <= MonthDays(year, mon) }

  /** Days before a month, in closed form. */
  function DaysBefore(year: nat, mon: nat): nat
    requires mon <= 12
  {
    var days := [0, 31, 59, 90, 120, 151, 181, 212, 243, 273, 304, 334, 365][mon];
    if mon > 1 && Leap(year) then days + 1 else days
  }

  /** Days from the year 1 to the first of January of a year, by the rule of leap years. */
  function YearStart(year: nat): int
    requires year >= 1
  {
    var y := year - 1;
    365 * y + y / 4 - y / 100 + y / 400
  }

  /** The number of a day since the first of January 1970. */
  function DayNumber(year: nat, mon: nat, day: nat): int
    requires year >= 1 && mon < 12
  {
    YearStart(year) + DaysBefore(year, mon) + day - 1 - YearStart(1970)
  }

  lemma QuotientSteps(y: nat, m: nat)
    requires m == 4 || m == 100 || m == 400
    ensures (y + 1) / m == y / m + (if (y + 1) % m == 0 then 1 else 0)
  {
  }

  lemma Multiples(year: nat)
    ensures year % 400 == 0 ==> year % 100 == 0
    ensures year % 100 == 0 ==> year % 4 == 0
  {
    if year % 400 == 0 {
      Hundreds(year / 400 * 4);
    }
    if year % 100 == 0 {
      Fours(year / 100 * 25);
    }
  }

  lemma Hundreds(q: nat)
    ensures q * 100 % 100 == 0
  {
  }

  lemma Fours(q: nat)
    ensures q * 4 % 4 == 0
  {
  }

  lemma NextYear(year: nat)
    requires year >= 1
    ensures YearStart(year + 1) == YearStart(year) + YearDays(year)
  {
    QuotientSteps(year - 1, 4);
    QuotientSteps(year - 1, 100);
    QuotientSteps(year - 1, 400);
    Multiples(year);
  }

  lemma NextMonth(year: nat, mon: nat)
    requires mon < 12
    ensures DaysBefore(year, mon + 1) == DaysBefore(year, mon) + MonthDays(year, mon)
  {
  }

  lemma {:induction false} LaterYear(a: nat, b: nat)
    requires 1 <= a < b
    ensures YearStart(a) + YearDays(a) <= YearStart(b)
    decreases b - a
  {
    NextYear(b - 1);
    if a + 1 < b {
      LaterYear(a, b - 1);
    } else {
      NextYear(a);
    }
  }

  lemma {:induction false} LaterMonth(year: nat, a: nat, b: nat)
    requires a < b <= 12
    ensures DaysBefore(year, a) + MonthDays(year, a) <= DaysBefore(year, b) <= YearDays(year)
  {
    NextMonth(year, a);
  }

  /** A later date has a greater number. */
  predicate Earlier(y: nat, m: nat, d: nat, y': nat, m': nat, d': nat) {
    y < y' || (y == y' && (m < m' || (m == m' && d < d')))
  }

  lemma LaterDay(y: nat, m: nat, d: nat, y': nat, m': nat, d': nat)
    requires y >= 1 && y' >= 1 && ValidDate(y, m, d) && ValidDate(y', m', d') && Earlier(y, m, d, y', m', d')
    ensures DayNumber(y, m, d) < DayNumber(y', m', d')
  {
    LaterMonth(y, m, 12);
    LaterMonth(y', m', 12);
    if y < y' {
      LaterYear(y, y');
    } else if m < m' {
      LaterMonth(y, m, m');
    }
  }

  /** A day has one date. */
  lemma OneDate(y: nat, m: nat, d: nat, y': nat, m': nat, d': nat)
    requires y >= 1 && y' >= 1 && ValidDate(y, m, d) && ValidDate(y', m', d')
    ensures DayNumber(y, m, d) == DayNumber(y', m', d') <==> y == y' && m == m' && d == d'
  {
    if Earlier(y, m, d, y', m', d') {
      LaterDay(y, m, d, y', m', d');
    } else if Earlier(y', m', d', y, m, d) {
      LaterDay(y', m', d', y, m, d);
    }
  }

  // ---- Unix time ----

  /** The one-based number of days that is counted down; the field has 16 bits. */
  function DayField(unix: nat): nat { (1 + unix / DAY) % U16_SPAN }

  predicate Found(year: nat, mon: nat, day: nat, days: nat) {
    && 1970 <= year && mon < 12 && day <= MonthDays(year, mon) && DayNumber(year, mon, 1) + day == days
  }

  predicate Converted(unix: nat, date: DateTime) {
    && Found(date.year, date.mon, date.day, DayField(unix)) && (DayField(unix) > 0 ==> date.day > 0)
    && date.sec == unix % U32_SPAN % 60
    && date.min == unix / 60 % U32_SPAN % 60
    && date.hour == unix / 3600 % U32_SPAN % 24
    && date.msec == 0 && date.micro == 0
  }

  /** The loop ends for every time. It finds the date whose number the day field held, less one; for a field that has
      wrapped to zero that is a day zero of January 1970. */
  method DateTimeFromUnixTime(unix: nat) returns (date: DateTime)
    ensures Converted(unix, date)
  {
    var sec := unix % U32_SPAN % 60;
    var min := unix / 60 % U32_SPAN % 60;
    var hour := unix / 3600 % U32_SPAN % 24;
    var year, day := 1970, DayField(unix);
    hide DaysBefore, YearStart, MonthDays, Leap, YearDays, DayField;
    var done := false;
    var mon: nat := 0;
    ghost var n := DayField(unix);
    Zeroth(1970);
    while !done
      invariant year >= 1970 && day >= 0 && (!done ==> YearStart(year) - YearStart(1970) + day == n)
      invariant done ==> Found(year, mon, day, n)
      invariant n > 0 ==> day > 0
      decreases !done, day
    {
      mon := 0;
      ghost var day0 := day;
      Zeroth(year);
      while mon < 12
        invariant mon <= 12 && day >= 0 && !done && DaysBefore(year, mon) + day == day0 && (n > 0 ==> day > 0)
        invariant mon > 0 ==> day < day0
        decreases 12 - mon
      {
        var c := MonthDays(year, mon);
        if day <= c {
          done := true;
          break;
        }
        MonthPositive(year, mon);
        NextMonth(year, mon);
        day := day - c;
        mon := mon + 1;
      }
      if !done {
        WholeYear(year);
        NextYear(year);
        year := year + 1;
      }
    }
    return DateTime(year, mon, day, hour, min, sec, 0, 0);
  }

  lemma Zeroth(year: nat)
    ensures DaysBefore(year, 0) == 0
  {
  }

  lemma MonthPositive(year: nat, mon: nat)
    requires mon < 12
    ensures MonthDays(year, mon) > 0
  {
  }

  lemma WholeYear(year: nat)
    ensures DaysBefore(year, 12) == YearDays(year)
  {
  }

  /** A date and time of day that is so many seconds after 1970. */
  predicate Represents(date: DateTime, unix: nat) {
    && date.year >= 1 && ValidDate(date.year, date.mon, date.day)
    && date.hour < 24 && date.min < 60 && date.sec < 60 && date.msec == 0 && date.micro == 0
    && DayNumber(date.year, date.mon, date.day) * DAY + date.hour * 3600 + date.min * 60 + date.sec == unix
  }

  lemma Clock(unix: nat)
    ensures unix == unix / DAY * DAY + unix / 3600 % 24 * 3600 + unix / 60 % 60 * 60 + unix % 60
  {
    var minutes, hours := unix / 60, unix / 3600;
    assert unix == minutes * 60 + unix % 60;
    assert minutes / 60 == hours;
    assert minutes == hours * 60 + minutes % 60;
    assert hours / 24 == unix / DAY;
    assert hours == unix / DAY * 24 + hours % 24;
  }

  /** The conversion is right exactly for times of 32 bits: beyond them the seconds, and later the day, are not. */
  lemma UnixExact(unix: nat, date: DateTime)
    requires Converted(unix, date)
    ensures Represents(date, unix) <==> unix < U32_SPAN
  {
    hide MonthDays, DayNumber, DayField;
    if unix < U32_SPAN {
      InOrder(unix, date);
    } else if Represents(date, unix) {
      FewDays(unix, date);
      InTime(unix, DayNumber(date.year, date.mon, date.day), date.hour, date.min, date.sec);
    }
  }

  lemma InOrder(unix: nat, date: DateTime)
    requires Converted(unix, date) && unix < U32_SPAN
    ensures Represents(date, unix)
  {
    RightDate(unix, date);
    ClockFields(unix, date);
    NoMicros(unix, date);
    Clock(unix);
    hide Converted, MonthDays, DayNumber, ValidDate;
  }

  lemma NoMicros(unix: nat, date: DateTime)
    requires Converted(unix, date)
    ensures date.micro == 0
  {
    hide Found;
  }

  lemma ClockFields(unix: nat, d: DateTime)
    requires Converted(unix, d) && unix < U32_SPAN
    ensures d.sec == unix % 60 && d.min == unix / 60 % 60 && d.hour == unix / 3600 % 24 && d.msec == 0
  {
    SmallTimes(unix);
    ClockOf(unix, unix / 60, unix / 3600, d);
  }

  lemma ClockOf(unix: nat, minutes: nat, hours: nat, d: DateTime)
    requires Converted(unix, d) && minutes == unix / 60 && hours == unix / 3600
    requires unix < U32_SPAN && minutes < U32_SPAN && hours < U32_SPAN
    ensures d.sec == unix % 60 && d.min == minutes % 60 && d.hour == hours % 24 && d.msec == 0
  {
    hide Found, DayField;
    Whole(unix);
    Whole(minutes);
    Whole(hours);
  }

  lemma Whole(x: nat)
    requires x < U32_SPAN
    ensures x % U32_SPAN == x
  {
  }

  lemma RightDate(unix: nat, date: DateTime)
    requires Converted(unix, date) && unix < U32_SPAN
    ensures ValidDate(date.year, date.mon, date.day) && date.year >= 1
    ensures DayNumber(date.year, date.mon, date.day) == unix / DAY
  {
    hide MonthDays, YearStart, DaysBefore, DayField;
    DayFits(unix);
  }

  lemma FewDays(unix: nat, date: DateTime)
    requires Converted(unix, date)
    ensures date.year >= 1 && date.mon < 12 && DayNumber(date.year, date.mon, date.day) < U16_SPAN
  {
    hide MonthDays, YearStart, DaysBefore;
  }

  lemma DayFits(unix: nat)
    requires unix < U32_SPAN
    ensures DayField(unix) == 1 + unix / DAY
  {
  }

  lemma SmallTimes(unix: nat)
    requires unix < U32_SPAN
    ensures unix / 60 < U32_SPAN && unix / 3600 < U32_SPAN
  {
  }

  lemma InTime(unix: nat, n: int, hour: nat, min: nat, sec: nat)
    requires n < U16_SPAN && hour < 24 && min < 60 && sec == unix % U32_SPAN % 60
    requires n * DAY + hour * 3600 + min * 60 + sec == unix
    ensures unix < U32_SPAN
  {
    var k, r := unix / U32_SPAN, unix % U32_SPAN;
    SecondsOf(n * 1440 + hour * 60 + min, sec);
    SecondsShift(k, r);
    Fifteenth(k);
  }

  lemma SecondsOf(minutes: int, sec: nat)
    requires sec < 60
    ensures (minutes * 60 + sec) % 60 == sec
  {
  }

  /** The seconds agree only after a multiple of fifteen wraps. */
  lemma SecondsShift(k: nat, r: nat)
    requires (k * U32_SPAN + r) % 60 == r % 60
    ensures k * 16 % 60 == 0
  {
    Sixties(k * 71582788, k * 16 + r);
    assert k * U32_SPAN + r == k * 71582788 * 60 + (k * 16 + r);
    SameSeconds(k * 16, r);
  }

  lemma Sixties(m: nat, x: nat)
    ensures (m * 60 + x) % 60 == x % 60
  {
  }

  lemma SameSeconds(a: nat, r: nat)
    requires (a + r) % 60 == r % 60
    ensures a % 60 == 0
  {
  }

  lemma Fifteenth(k: nat)
    requires k * 16 % 60 == 0
    ensures k == 0 || k >= 15
  {
  }

  // ---- dense time ----

  const U64_SPAN: nat := 0x1_0000_0000_0000_0000

  predicate InRange(d: DateTime) {
    d.mon < 12 && d.day < 31 && d.hour < 24 && d.min < 60 && d.sec < 61 && d.msec < 1000 && d.micro == 0
  }

  function Months(d: DateTime): nat { d.year * 12 + d.mon }

  function Days(d: DateTime): nat { Months(d) * 31 + d.day }

  function Hours(d: DateTime): nat { Days(d) * 24 + d.hour }

  function Minutes(d: DateTime): nat { Hours(d) * 60 + d.min }

  function Seconds(d: DateTime): nat { Minutes(d) * 61 + d.sec }

  function Dense(d: DateTime): nat { Seconds(d) * 1000 + d.msec }

  /** 64 bits. */
  function DenseTime(d: DateTime): nat { Dense(d) % U64_SPAN }

  function FromDense(time: nat): DateTime {
    var seconds := time / 1000;
    var minutes := seconds / 61;
    var hours := minutes / 60;
    var days := hours / 24;
    var months := days / 31;
    DateTime(months / 12, months % 12, days % 31, hours % 24, minutes % 60, seconds % 61, time % 1000, 0)
  }

  lemma DenseOfParts(time: nat)
    ensures Dense(FromDense(time)) == time && InRange(FromDense(time))
  {
  }

  lemma Part(x: nat, y: nat, base: nat)
    requires y < base && (base == 12 || base == 31 || base == 24 || base == 60 || base == 61 || base == 1000)
    ensures (x * base + y) / base == x && (x * base + y) % base == y
  {
  }

  lemma PartsOfDense(d: DateTime)
    requires InRange(d)
    ensures FromDense(Dense(d)) == d
  {
    var months := d.year * 12 + d.mon;
    var days := months * 31 + d.day;
    var hours := days * 24 + d.hour;
    var minutes := hours * 60 + d.min;
    var seconds := minutes * 61 + d.sec;
    Part(d.year, d.mon, 12);
    Part(months, d.day, 31);
    Part(days, d.hour, 24);
    Part(hours, d.min, 60);
    Part(minutes, d.sec, 61);
    Part(seconds, d.msec, 1000);
  }

  /** Every 64-bit number is the dense time of the date read off it. */
  lemma DenseIsOnto(time: nat)
    requires time < U64_SPAN
    ensures DenseTime(FromDense(time)) == time && FromDense(time).year < U32_SPAN
  {
    DenseOfParts(time);
  }

  /** A date comes back from its dense time exactly when its fields are in range (days and months from 0) and its
      year is not too far off for 64 bits. */
  lemma DenseRoundTrip(d: DateTime)
    ensures FromDense(DenseTime(d)) == d <==> InRange(d) && Dense(d) < U64_SPAN
  {
    DenseOfParts(DenseTime(d));
    hide FromDense;
    if InRange(d) {
      PartsOfDense(d);
    }
  }

  /** The order of dates, field by field. */
  predicate Before(a: DateTime, b: DateTime) {
    || a.year < b.year
    || (a.year == b.year && a.mon < b.mon)
    || (a.year == b.year && a.mon == b.mon && a.day < b.day)
    || (a.year == b.year && a.mon == b.mon && a.day == b.day && a.hour < b.hour)
    || (a.year == b.year && a.mon == b.mon && a.day == b.day && a.hour == b.hour && a.min < b.min)
    || (a.year == b.year && a.mon == b.mon && a.day == b.day && a.hour == b.hour && a.min == b.min && a.sec < b.sec)
    || (a.year == b.year && a.mon == b.mon && a.day == b.day && a.hour == b.hour && a.min == b.min && a.sec == b.sec
        && a.msec < b.msec)
  }

  lemma DenseOrders(a: DateTime, b: DateTime)
    requires InRange(a) && InRange(b) && Dense(a) < U64_SPAN && Dense(b) < U64_SPAN
    ensures DenseTime(a) < DenseTime(b) <==> Before(a, b)
  {
    hide Dense, DenseTime, Before, InRange;
    PackedOrder(a, b);
    NoWrap(a);
    NoWrap(b);
  }

  lemma NoWrap(d: DateTime)
    requires Dense(d) < U64_SPAN
    ensures DenseTime(d) == Dense(d)
  {
    hide Dense;
  }

  lemma Levels(a: DateTime, b: DateTime)
    requires InRange(a) && InRange(b)
    ensures Less(Months(a), a.year, a.mon, Months(b), b.year, b.mon)
    ensures Less(Days(a), Months(a), a.day, Days(b), Months(b), b.day)
    ensures Less(Hours(a), Days(a), a.hour, Hours(b), Days(b), b.hour)
    ensures Less(Minutes(a), Hours(a), a.min, Minutes(b), Hours(b), b.min)
    ensures Less(Seconds(a), Minutes(a), a.sec, Seconds(b), Minutes(b), b.sec)
    ensures Less(Dense(a), Seconds(a), a.msec, Dense(b), Seconds(b), b.msec)
  {
    UpperLevels(a, b);
    LowerLevels(a, b);
    hide Less, Months, Days, Hours, Minutes, Seconds, Dense;
  }

  lemma UpperLevels(a: DateTime, b: DateTime)
    requires InRange(a) && InRange(b)
    ensures Less(Months(a), a.year, a.mon, Months(b), b.year, b.mon)
    ensures Less(Days(a), Months(a), a.day, Days(b), Months(b), b.day)
    ensures Less(Hours(a), Days(a), a.hour, Hours(b), Days(b), b.hour)
  {
    hide Less;
    Level(a.year, a.mon, b.year, b.mon, 12);
    Level(Months(a), a.day, Months(b), b.day, 31);
    Level(Days(a), a.hour, Days(b), b.hour, 24);
  }

  lemma LowerLevels(a: DateTime, b: DateTime)
    requires InRange(a) && InRange(b)
    ensures Less(Minutes(a), Hours(a), a.min, Minutes(b), Hours(b), b.min)
    ensures Less(Seconds(a), Minutes(a), a.sec, Seconds(b), Minutes(b), b.sec)
    ensures Less(Dense(a), Seconds(a), a.msec, Dense(b), Seconds(b), b.msec)
  {
    hide Less, Hours;
    Level(Hours(a), a.min, Hours(b), b.min, 60);
    Level(Minutes(a), a.sec, Minutes(b), b.sec, 61);
    Level(Seconds(a), a.msec, Seconds(b), b.msec, 1000);
  }

  /** The order, and the equality, of packed numbers is that of the pairs in them. */
  predicate Less(p: nat, x: nat, y: nat, p': nat, x': nat, y': nat) {
    (p < p' <==> x < x' || (x == x' && y < y')) && (p == p' <==> x == x' && y == y')
  }

  lemma Level(x: nat, y: nat, x': nat, y': nat, base: nat)
    requires y < base && y' < base
             && (base == 12 || base == 31 || base == 24 || base == 60 || base == 61 || base == 1000)
    ensures Less(x * base + y, x, y, x' * base + y', x', y')
  {
    Pairs(x, y, x', y', base);
  }

  lemma Pairs(x: nat, y: nat, x': nat, y': nat, base: nat)
    requires y < base && y' < base
             && (base == 12 || base == 31 || base == 24 || base == 60 || base == 61 || base == 1000)
    ensures x * base + y < x' * base + y' <==> x < x' || (x == x' && y < y')
    ensures x * base + y == x' * base + y' <==> x == x' && y == y'
  {
  }

  // ---- Unix time as dense time ----

  /** The date of an earlier time is an earlier date, or the same. */
  lemma EarlierDate(u: nat, v: nat, a: DateTime, b: DateTime)
    requires u < v < U32_SPAN && Converted(u, a) && Converted(v, b)
    ensures
      || Earlier(a.year, a.mon, a.day, b.year, b.mon, b.day)
      || (a.year == b.year && a.mon == b.mon && a.day == b.day && u / DAY == v / DAY)
  {
    RightDate(u, a);
    RightDate(v, b);
    hide MonthDays, DayNumber, Found, DayField;
    DaysGrow(u, v);
    if Earlier(b.year, b.mon, b.day, a.year, a.mon, a.day) {
      LaterDay(b.year, b.mon, b.day, a.year, a.mon, a.day);
    }
  }

  lemma DaysGrow(u: nat, v: nat)
    requires u < v
    ensures u / DAY <= v / DAY
  {
  }

  /** Within a day the time of day grows with the time. */
  lemma SameDayTime(u: nat, v: nat)
    requires u < v && u / DAY == v / DAY
    ensures
      var h, h' := u / 3600 % 24, v / 3600 % 24;
      var m, m' := u / 60 % 60, v / 60 % 60;
      h < h' || (h == h' && (m < m' || (m == m' && u % 60 < v % 60)))
  {
    Clock(u);
    Clock(v);
    Within(u / 3600 % 24, u / 60 % 60, u % 60, v / 3600 % 24, v / 60 % 60, v % 60);
  }

  lemma Within(h: nat, m: nat, s: nat, h': nat, m': nat, s': nat)
    requires m < 60 && s < 60 && m' < 60 && s' < 60 && h * 3600 + m * 60 + s < h' * 3600 + m' * 60 + s'
    ensures h < h' || (h == h' && (m < m' || (m == m' && s < s')))
  {
  }

  lemma EarlierTime(u: nat, v: nat, a: DateTime, b: DateTime)
    requires u < v < U32_SPAN && Converted(u, a) && Converted(v, b)
    ensures Before(a, b)
  {
    hide Converted;
    EarlierDate(u, v, a, b);
    if !Earlier(a.year, a.mon, a.day, b.year, b.mon, b.day) {
      ClockFields(u, a);
      ClockFields(v, b);
      SameDayTime(u, v);
    }
  }

  /** Packing keeps the order of dates whose days count from 1, too. */
  predicate CivilRange(d: DateTime) {
    d.mon < 12 && 1 <= d.day <= 31 && d.hour < 24 && d.min < 60 && d.sec < 61 && d.msec < 1000 && d.micro == 0
  }

  /** Such a date with its days from 0; its dense time is less by one day's worth. */
  function FromZero(d: DateTime): DateTime
    requires d.day >= 1
  {
    d.(day := d.day - 1)
  }

  const DENSE_DAY: nat := 24 * 60 * 61 * 1000

  lemma OneDayLess(d: DateTime)
    requires d.day >= 1
    ensures Dense(d) == Dense(FromZero(d)) + DENSE_DAY
  {
  }

  lemma CivilOrder(a: DateTime, b: DateTime)
    requires CivilRange(a) && CivilRange(b)
    ensures Dense(a) < Dense(b) <==> Before(a, b)
  {
    OneDayLess(a);
    OneDayLess(b);
    PackedOrder(FromZero(a), FromZero(b));
    hide Dense;
  }

  lemma PackedOrder(a: DateTime, b: DateTime)
    requires InRange(a) && InRange(b)
    ensures Dense(a) < Dense(b) <==> Before(a, b)
  {
    Levels(a, b);
    hide Dense, Seconds, Minutes, Hours, Days, Months, InRange;
  }

  lemma ConvertedRange(unix: nat, d: DateTime)
    requires Converted(unix, d) && unix < U32_SPAN
    ensures CivilRange(d)
  {
    InOrder(unix, d);
    MonthAtMost(d.year, d.mon);
    hide MonthDays, DayNumber, Found, Converted;
  }

  lemma MonthAtMost(year: nat, mon: nat)
    requires mon < 12
    ensures MonthDays(year, mon) <= 31
  {
  }

  lemma LateYears(year: nat, mon: nat, day: nat)
    requires year >= 1970 && ValidDate(year, mon, day)
    ensures year > 2200 ==> DayNumber(year, mon, day) >= U16_SPAN
  {
    if year > 2200 {
      LaterDay(2200, 0, 1, year, mon, day);
    }
  }

  lemma SmallDense(d: DateTime)
    requires CivilRange(d) && d.year <= 2200
    ensures Dense(d) < U64_SPAN
  {
  }

  lemma ConvertedFits(unix: nat, d: DateTime)
    requires Converted(unix, d) && unix < U32_SPAN
    ensures Dense(d) < U64_SPAN
  {
    RightDate(unix, d);
    DaysOf(unix);
    ConvertedRange(unix, d);
    LateYears(d.year, d.mon, d.day);
    SmallDense(d);
  }

  lemma DaysOf(unix: nat)
    requires unix < U32_SPAN
    ensures unix / DAY < U16_SPAN
  {
  }

  /** Later 32-bit times have greater dense times, through their dates. */
  lemma UnixDenseOrder(u: nat, v: nat, a: DateTime, b: DateTime)
    requires u < v < U32_SPAN && Converted(u, a) && Converted(v, b)
    ensures DenseTime(a) < DenseTime(b)
  {
    EarlierTime(u, v, a, b);
    ConvertedRange(u, a);
    ConvertedRange(v, b);
    CivilOrder(a, b);
    ConvertedFits(u, a);
    ConvertedFits(v, b);
    hide Converted, Dense, DenseTime, Before, CivilRange;
    NoWrap(a);
    NoWrap(b);
  }

  /** But the date itself comes back from its dense time exactly when it is not the 31st: one conversion counts days
      from 1, the other from 0. */
  lemma UnixDenseRoundTrip(unix: nat, d: DateTime)
    requires Converted(unix, d) && unix < U32_SPAN
    ensures FromDense(DenseTime(d)) == d <==> d.day != 31
  {
    ConvertedRange(unix, d);
    ConvertedFits(unix, d);
    hide Converted, FromDense, Dense, DenseTime;
    DenseRoundTrip(d);
  }
}
