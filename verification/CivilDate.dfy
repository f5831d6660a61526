/** The build timestamp (`core/build.rs`): epoch seconds to a UTC date and time by the closed-form civil-date
    algorithm, against the Gregorian calendar counted one day at a time. */
module CivilDate {
  import opened Common

  datatype Date = Date(year: int, month: int, day: int)
  datatype Time = Time(hour: int, minute: int, second: int)

  // ----- The algorithm

  /** Integer division as the source's language has it: toward zero. */
  function Truncated(a: int, b: int): int
    requires b > 0
  {
    if a >= 0 then a / b else -(-a / b)
  }

  function Era(days: int): int {
    Truncated(if days >= 0 then days else days - 146_096, 146_097)
  }

  function YearOfEra(doe: int): int {
    (doe - doe / 1460 + doe / 36524 - doe / 146_096) / 365
  }

  function DayOfYear(doe: int): int {
    var yoe := YearOfEra(doe);
    doe - (365 * yoe + yoe / 4 - yoe / 100)
  }

  /** Month and day from the day of a year that starts in March. */
  function MonthAndDay(doy: int): (int, int) {
    var mp := (5 * doy + 2) / 153;
    (if mp < 10 then mp + 3 else mp - 9, doy - (153 * mp + 2) / 5 + 1)
  }

  /** The date of a day, counted from 1970-01-01. */
  function Civil(epochDays: int): Date {
    var days := epochDays + 719_468;
    var era := Era(days);
    var doe := days - era * 146_097;
    var y := YearOfEra(doe) + era * 400;
    var (month, day) := MonthAndDay(DayOfYear(doe));
    Date(if month <= 2 then y + 1 else y, month, day)
  }

  function TimeOfDay(seconds: int): Time {
    Time(seconds / 3600, seconds % 3600 / 60, seconds % 60)
  }

  // ----- The calendar

  predicate IsLeap(year: int) {
    year % 4 == 0 && (year % 100 != 0 || year % 400 == 0)
  }

  function DaysInMonth(year: int, month: int): int {
    if month == 2 then (if IsLeap(year) then 29 else 28)
    else if month in {4, 6, 9, 11} then 30
    else 31
  }

  predicate IsDate(d: Date) {
    1 <= d.month <= 12 && 1 <= d.day <= DaysInMonth(d.year, d.month)
  }

  function NextDay(d: Date): Date {
    if d.day < DaysInMonth(d.year, d.month) then d.(day := d.day + 1)
    else if d.month < 12 then Date(d.year, d.month + 1, 1)
    else Date(d.year + 1, 1, 1)
  }

  // ----- The algorithm follows the calendar

  /** A day of an era as century, group of four years, year of the group and day of a year that starts in March.
      The leap day ends such a year. */
  datatype Split = Split(century: int, group: int, year: int, day: int) {
    predicate Fits() {
      0 <= century < 4 && 0 <= group < 25 && 0 <= year < 4 && 0 <= day < Length()
    }

    function YearOfEra(): int {
      100 * century + 4 * group + year
    }

    function Length(): int {
      if year == 3 && (group < 24 || century == 3) then 366 else 365
    }

    function DayOfEra(): int {
      36524 * century + 1461 * group + 365 * year + day
    }
  }

  function SplitDay(doe: int): Split {
    var century := if doe < 3 * 36524 then doe / 36524 else 3;
    var inCentury := doe - 36524 * century;
    var group := inCentury / 1461;
    var inGroup := inCentury - 1461 * group;
    var year := if inGroup < 3 * 365 then inGroup / 365 else 3;
    Split(century, group, year, inGroup - 365 * year)
  }

  lemma SplitFits(doe: int)
    requires 0 <= doe < 146_097
    ensures SplitDay(doe).Fits() && SplitDay(doe).DayOfEra() == doe
  {
  }

  lemma NextMultiple(d: int, a: int, b: int)
    requires d > 0 && a < b
    ensures d * a + d <= d * b
  {
    assert d * a + d == d * (a + 1);
  }

  lemma QuotientOf(n: int, d: int, q: int, r: int)
    requires d > 0 && n == d * q + r && 0 <= r < d
    ensures n / d == q
  {
    if q < n / d {
      NextMultiple(d, q, n / d);
    }
    if n / d < q {
      NextMultiple(d, n / d, q);
    }
  }

  /** The closed form finds the year: its corrections cancel the leap days before it. */
  lemma YearIsFound(s: Split)
    requires s.Fits()
    ensures YearOfEra(s.DayOfEra()) == s.YearOfEra() && DayOfYear(s.DayOfEra()) == s.day
  {
    var doe := s.DayOfEra();
    var excess := 24 * s.century + s.group + 365 * s.year + s.day;
    var carry := if excess >= 1460 then 1 else 0;
    QuotientOf(doe, 1460, 25 * s.century + s.group + carry, excess - 1460 * carry);
    var last := if doe == 146_096 then 1 else 0;
    QuotientOf(doe, 36524, s.century + last, doe - 36524 * (s.century + last));
    QuotientOf(doe, 146_096, last, doe - 146_096 * last);
    QuotientOf(365 * s.YearOfEra() + s.day - carry, 365, s.YearOfEra(), s.day - carry);
    QuotientOf(s.YearOfEra(), 4, 25 * s.century + s.group, s.year);
    QuotientOf(s.YearOfEra(), 100, s.century, 4 * s.group + s.year);
  }

  /** The date of a day of a March year. */
  function MarchDate(year: int, doy: int): Date {
    var (month, day) := MonthAndDay(doy);
    Date(if month <= 2 then year + 1 else year, month, day)
  }

  function MarchLength(year: int): int {
    if IsLeap(year + 1) then 366 else 365
  }

  lemma LengthIsCalendars(s: Split, era: int)
    requires s.Fits()
    ensures MarchLength(s.YearOfEra() + era * 400) == s.Length()
  {
    var y := s.YearOfEra() + era * 400 + 1;
    if s.year < 3 {
      QuotientOf(y, 4, 25 * s.century + s.group + 100 * era, s.year + 1);
    } else if s.group < 24 {
      QuotientOf(y, 4, 25 * s.century + s.group + 100 * era + 1, 0);
      QuotientOf(y, 100, s.century + 4 * era, 4 * s.group + 4);
    } else if s.century < 3 {
      QuotientOf(y, 100, s.century + 4 * era + 1, 0);
      QuotientOf(y, 400, era, 100 * s.century + 100);
    } else {
      QuotientOf(y, 4, 100 * era + 100, 0);
      QuotientOf(y, 400, era + 1, 0);
    }
  }

  /** The months, unrolled. */
  lemma MonthTable(doy: int)
    requires 0 <= doy < 366
    ensures MonthAndDay(doy) ==
            if doy < 31 then (3, doy + 1) else if doy < 61 then (4, doy - 30) else if doy < 92 then (5, doy - 60)
            else if doy < 122 then (6, doy - 91) else if doy < 153 then (7, doy - 121)
            else if doy < 184 then (8, doy - 152) else if doy < 214 then (9, doy - 183)
            else if doy < 245 then (10, doy - 213) else if doy < 275 then (11, doy - 244)
            else if doy < 306 then (12, doy - 274) else if doy < 337 then (1, doy - 305) else (2, doy - 336)
  {
  }

  lemma NextInYear(year: int, doy: int)
    requires 0 <= doy < MarchLength(year) - 1
    ensures MarchDate(year, doy + 1) == NextDay(MarchDate(year, doy))
  {
    hide MonthAndDay, IsLeap;
    MonthTable(doy);
    MonthTable(doy + 1);
  }

  lemma NextYear(year: int)
    ensures MarchDate(year + 1, 0) == NextDay(MarchDate(year, MarchLength(year) - 1))
  {
  }

  lemma CivilOfSplit(epochDays: int, year: int, s: Split, era: int)
    requires s.Fits()
    requires epochDays == era * 146_097 + s.DayOfEra() - 719_468 && year == s.YearOfEra() + era * 400
    ensures Civil(epochDays) == MarchDate(year, s.day)
  {
    hide YearOfEra, DayOfYear, MonthAndDay, Era;
    EraOfSplit(s, era);
    YearIsFound(s);
  }

  lemma EraOfSplit(s: Split, era: int)
    requires s.Fits()
    ensures Era(era * 146_097 + s.DayOfEra()) == era
  {
  }

  /** The first day of the March year after a day's. */
  function YearAfter(s: Split): Split {
    if s.year < 3 then Split(s.century, s.group, s.year + 1, 0)
    else if s.group < 24 then Split(s.century, s.group + 1, 0, 0)
    else if s.century < 3 then Split(s.century + 1, 0, 0, 0)
    else Split(0, 0, 0, 0)
  }

  lemma YearAfterFits(s: Split)
    requires s.Fits() && s.day + 1 == s.Length()
    ensures var next := YearAfter(s);
            var newEra := if s.YearOfEra() == 399 then 1 else 0;
            && next.Fits() && next.day == 0
            && next.DayOfEra() + newEra * 146_097 == s.DayOfEra() + 1
            && next.YearOfEra() + newEra * 400 == s.YearOfEra() + 1
  {
  }

  lemma CivilStartsYear(epochDays: int, year: int, s: Split, era: int)
    requires s.Fits() && s.day + 1 == s.Length()
    requires epochDays == era * 146_097 + s.DayOfEra() - 719_468 && year == s.YearOfEra() + era * 400
    ensures Civil(epochDays + 1) == MarchDate(year + 1, 0)
  {
    hide Civil, MarchDate, YearAfter;
    YearAfterFits(s);
    CivilOfSplit(epochDays + 1, year + 1, YearAfter(s), era + if s.YearOfEra() == 399 then 1 else 0);
  }

  /** On every day, before the epoch too, the algorithm's date is followed by the calendar's next day. */
  lemma CivilFollowsCalendar(epochDays: int)
    ensures Civil(epochDays + 1) == NextDay(Civil(epochDays))
  {
    hide Civil, NextDay, SplitDay, MarchDate, IsLeap;
    var days := epochDays + 719_468;
    var era, s := days / 146_097, SplitDay(days % 146_097);
    SplitFits(days % 146_097);
    var year := s.YearOfEra() + era * 400;
    CivilOfSplit(epochDays, year, s, era);
    LengthIsCalendars(s, era);
    if s.day + 1 < s.Length() {
      CivilOfSplit(epochDays + 1, year, s.(day := s.day + 1), era);
      NextInYear(year, s.day);
    } else {
      CivilStartsYear(epochDays, year, s, era);
      NextYear(year);
    }
  }

  // ----- Counting days back

  /** Days before a month in its year. */
  function DaysBeforeMonth(year: int, month: int): int
    decreases month
  {
    if month <= 1 then 0 else DaysBeforeMonth(year, month - 1) + DaysInMonth(year, month - 1)
  }

  /** Days from 0001-01-01 to the start of a year. */
  function DaysBeforeYear(year: int): int {
    365 * (year - 1) + (year - 1) / 4 - (year - 1) / 100 + (year - 1) / 400
  }

  /** Days from 1970-01-01, counted through the calendar. */
  function DaysFrom(d: Date): int {
    DaysBeforeYear(d.year) + DaysBeforeMonth(d.year, d.month) + d.day - 1 - 719_162
  }

  function YearLength(year: int): int {
    if IsLeap(year) then 366 else 365
  }

  lemma NextYearStarts(year: int)
    ensures DaysBeforeYear(year + 1) == DaysBeforeYear(year) + YearLength(year)
    ensures DaysBeforeMonth(year, 12) + DaysInMonth(year, 12) == YearLength(year)
  {
    MonthsOf(year);
    LeapCount(year);
  }

  lemma MonthsOf(year: int)
    ensures DaysBeforeMonth(year, 12) == YearLength(year) - 31
  {
  }

  lemma LeapCount(year: int)
    ensures year / 4 - year / 100 + year / 400 ==
            (year - 1) / 4 - (year - 1) / 100 + (year - 1) / 400 + if IsLeap(year) then 1 else 0
  {
    CountsMultiples(year, 4);
    CountsMultiples(year, 100);
    CountsMultiples(year, 400);
  }

  lemma CountsMultiples(n: int, d: int)
    requires d > 1
    ensures n / d == (n - 1) / d + if n % d == 0 then 1 else 0
  {
    if n % d == 0 {
      QuotientOf(n - 1, d, n / d - 1, d - 1);
    } else {
      QuotientOf(n - 1, d, n / d, n % d - 1);
    }
  }

  lemma NextDayCounts(d: Date)
    requires IsDate(d)
    ensures IsDate(NextDay(d)) && DaysFrom(NextDay(d)) == DaysFrom(d) + 1
  {
    hide DaysBeforeYear, IsLeap;
    NextYearStarts(d.year);
  }

  lemma MarchDateIsDate(year: int, doy: int)
    requires 0 <= doy < MarchLength(year)
    ensures IsDate(MarchDate(year, doy))
  {
  }

  /** Every day gets a date that exists. */
  lemma CivilIsDate(epochDays: int)
    ensures IsDate(Civil(epochDays))
  {
    hide Civil, MarchDate, IsDate;
    var days := epochDays + 719_468;
    var s := SplitDay(days % 146_097);
    SplitFits(days % 146_097);
    var year := s.YearOfEra() + days / 146_097 * 400;
    CivilOfSplit(epochDays, year, s, days / 146_097);
    LengthIsCalendars(s, days / 146_097);
    MarchDateIsDate(year, s.day);
  }

  lemma Epoch()
    ensures Civil(0) == Date(1970, 1, 1) && DaysFrom(Date(1970, 1, 1)) == 0
  {
  }

  /** Counting the days up to the algorithm's date gives the day back. */
  lemma {:induction false} CivilCounts(epochDays: int)
    ensures DaysFrom(Civil(epochDays)) == epochDays
    decreases if epochDays < 0 then -epochDays else epochDays
  {
    hide Civil, NextDay, DaysFrom, IsDate;
    if epochDays == 0 {
      Epoch();
    } else {
      var before := if epochDays > 0 then epochDays - 1 else epochDays;
      CivilCounts(if epochDays > 0 then epochDays - 1 else epochDays + 1);
      CivilFollowsCalendar(before);
      CivilIsDate(before);
      NextDayCounts(Civil(before));
    }
  }

  // ----- Order

  predicate Earlier(a: Date, b: Date) {
    a.year < b.year || (a.year == b.year && (a.month < b.month || (a.month == b.month && a.day < b.day)))
  }

  lemma {:induction false} MonthsAccumulate(year: int, month: int, later: int)
    requires 1 <= month < later <= 12
    ensures DaysBeforeMonth(year, month) + DaysInMonth(year, month) <= DaysBeforeMonth(year, later)
    decreases later
  {
    if month + 1 < later {
      MonthsAccumulate(year, month, later - 1);
    }
  }

  lemma {:induction false} YearsAccumulate(year: int, later: int)
    requires year < later
    ensures DaysBeforeYear(year) + YearLength(year) <= DaysBeforeYear(later)
    decreases later - year
  {
    hide DaysBeforeYear, IsLeap;
    if year + 1 < later {
      YearsAccumulate(year, later - 1);
      NextYearStarts(later - 1);
    } else {
      NextYearStarts(year);
    }
  }

  lemma EarlierCountsLess(a: Date, b: Date)
    requires IsDate(a) && IsDate(b) && Earlier(a, b)
    ensures DaysFrom(a) < DaysFrom(b)
  {
    hide DaysBeforeYear, IsLeap, DaysBeforeMonth;
    if a.year < b.year {
      YearsAccumulate(a.year, b.year);
      WithinYear(a);
      WithinYear(b);
    } else if a.month < b.month {
      MonthsAccumulate(a.year, a.month, b.month);
    }
  }

  lemma WithinYear(d: Date)
    requires IsDate(d)
    ensures 0 <= DaysBeforeMonth(d.year, d.month)
    ensures DaysBeforeMonth(d.year, d.month) + d.day <= YearLength(d.year)
  {
    NextYearStarts(d.year);
    if d.month < 12 {
      MonthsAccumulate(d.year, d.month, 12);
    }
    if d.month > 1 {
      MonthsAccumulate(d.year, 1, d.month);
    }
  }

  /** The algorithm and the count are inverse to each other: every date that exists is the date of its day. */
  lemma CountIsCivilsInverse(d: Date)
    requires IsDate(d)
    ensures Civil(DaysFrom(d)) == d
  {
    hide Civil, DaysFrom, IsDate;
    var c := Civil(DaysFrom(d));
    CivilCounts(DaysFrom(d));
    CivilIsDate(DaysFrom(d));
    if Earlier(c, d) {
      EarlierCountsLess(c, d);
    } else if Earlier(d, c) {
      EarlierCountsLess(d, c);
    }
  }

  // ----- The whole timestamp

  datatype Instant = Instant(date: Date, time: Time)

  function Utc(epoch: int): Instant {
    Instant(Civil(epoch / 86400), TimeOfDay(epoch % 86400))
  }

  predicate IsTime(t: Time) {
    0 <= t.hour < 24 && 0 <= t.minute < 60 && 0 <= t.second < 60
  }

  function EpochOf(i: Instant): int {
    86400 * DaysFrom(i.date) + 3600 * i.time.hour + 60 * i.time.minute + i.time.second
  }

  predicate Before(a: Instant, b: Instant) {
    || Earlier(a.date, b.date)
    || (a.date == b.date && (a.time.hour < b.time.hour || (a.time.hour == b.time.hour &&
        (a.time.minute < b.time.minute || (a.time.minute == b.time.minute && a.time.second < b.time.second)))))
  }

  /** Every epoch second, negative ones included, is a date that exists and a time of day, from which the second
      can be computed back. */
  lemma UtcIsExact(epoch: int)
    ensures IsDate(Utc(epoch).date) && IsTime(Utc(epoch).time) && EpochOf(Utc(epoch)) == epoch
  {
    hide Civil, DaysFrom, IsDate;
    CivilIsDate(epoch / 86400);
    CivilCounts(epoch / 86400);
  }

  lemma TimeIsReached(t: Time)
    requires IsTime(t)
    ensures TimeOfDay(3600 * t.hour + 60 * t.minute + t.second) == t
  {
    var ofDay := 3600 * t.hour + 60 * t.minute + t.second;
    QuotientOf(ofDay, 3600, t.hour, 60 * t.minute + t.second);
    QuotientOf(ofDay, 60, 60 * t.hour + t.minute, t.second);
    QuotientOf(60 * t.minute + t.second, 60, t.minute, t.second);
  }

  /** Every date and time of day is that of exactly one epoch second. */
  lemma EveryInstantIsReached(i: Instant)
    requires IsDate(i.date) && IsTime(i.time)
    ensures Utc(EpochOf(i)) == i
  {
    hide Civil, DaysFrom, IsDate;
    CountIsCivilsInverse(i.date);
    var ofDay := 3600 * i.time.hour + 60 * i.time.minute + i.time.second;
    QuotientOf(EpochOf(i), 86400, DaysFrom(i.date), ofDay);
    TimeIsReached(i.time);
  }

  /** A later second is a later date, or the same date and a later time. */
  lemma UtcIsMonotone(epoch: int, later: int)
    ensures epoch < later <==> Before(Utc(epoch), Utc(later))
  {
    hide Civil, DaysFrom, IsDate;
    UtcIsExact(epoch);
    UtcIsExact(later);
    var a, b := Utc(epoch), Utc(later);
    if Earlier(a.date, b.date) {
      EarlierCountsLess(a.date, b.date);
    }
    if Earlier(b.date, a.date) {
      EarlierCountsLess(b.date, a.date);
    }
  }

  // ----- The text

  function Zeros(n: int): string {
    if n <= 0 then "" else "0" + Zeros(n - 1)
  }

  /** `{n:0width}`; a minus sign counts towards the width. */
  function Padded(n: int, width: int): string {
    if n < 0 then "-" + Zeros(width - 1 - |Decimal(-n)|) + Decimal(-n)
    else Zeros(width - |Decimal(n)|) + Decimal(n)
  }

  /** `YYYY-MM-DD HH:MM:SS`. */
  function Format(i: Instant): string {
    Padded(i.date.year, 4) + ("-" + (Padded(i.date.month, 2) + ("-" + (Padded(i.date.day, 2) + (" " +
    (Padded(i.time.hour, 2) + (":" + (Padded(i.time.minute, 2) + (":" + Padded(i.time.second, 2))))))))))
  }

  function FormatUtc(epoch: int): string {
    Format(Utc(epoch))
  }

  /** Exactly `width` digits. */
  function Digits(n: nat, width: nat): (s: string)
    ensures |s| == width
  {
    if width == 0 then "" else Digits(n / 10, width - 1) + [Digit(n % 10)]
  }

  function Pow10(n: nat): nat {
    if n == 0 then 1 else 10 * Pow10(n - 1)
  }

  lemma {:induction false} ZerosAreDigits(width: nat)
    ensures Zeros(width) == Digits(0, width)
  {
    if width > 0 {
      ZerosAreDigits(width - 1);
      ZerosCommute(width - 1);
    }
  }

  lemma {:induction false} ZerosCommute(n: nat)
    ensures "0" + Zeros(n) == Zeros(n) + "0"
  {
    if n > 0 {
      ZerosCommute(n - 1);
      assert "0" + (Zeros(n - 1) + "0") == ("0" + Zeros(n - 1)) + "0";
    }
  }

  lemma {:induction false} PaddedIsDigits(n: nat, width: nat)
    requires width > 0 && n < Pow10(width)
    ensures Padded(n, width) == Digits(n, width)
  {
    if n < 10 {
      assert Decimal(n) == [Digit(n)];
      ZerosAreDigits(width - 1);
      assert n / 10 == 0 && n % 10 == n;
    } else {
      assert width > 1;
      PaddedIsDigits(n / 10, width - 1);
      var zeros := Zeros(width - |Decimal(n)|);
      assert |Decimal(n)| == |Decimal(n / 10)| + 1;
      assert zeros + (Decimal(n / 10) + [Digit(n % 10)]) == zeros + Decimal(n / 10) + [Digit(n % 10)];
    }
  }

  /** The order of texts, character by character. */
  predicate Less(a: string, b: string) {
    b != "" && (a == "" || a[0] < b[0] || (a[0] == b[0] && Less(a[1..], b[1..])))
  }

  lemma {:induction false} LessAfter(a: string, b: string, rest: string, other: string)
    requires |a| == |b|
    ensures Less(a + rest, b + other) <==> Less(a, b) || (a == b && Less(rest, other))
  {
    if a == "" {
      assert a + rest == rest && b + other == other;
    } else {
      LessAfter(a[1..], b[1..], rest, other);
      assert (a + rest)[1..] == a[1..] + rest && (b + other)[1..] == b[1..] + other;
      assert a == [a[0]] + a[1..] && b == [b[0]] + b[1..];
    }
  }

  lemma {:induction false} DigitsInOrder(n: nat, m: nat, width: nat)
    requires n < Pow10(width) && m < Pow10(width)
    ensures Less(Digits(n, width), Digits(m, width)) <==> n < m
    ensures Digits(n, width) == Digits(m, width) <==> n == m
  {
    if width > 0 {
      DigitsInOrder(n / 10, m / 10, width - 1);
      LessAfter(Digits(n / 10, width - 1), Digits(m / 10, width - 1), [Digit(n % 10)], [Digit(m % 10)]);
      LastDigit(Digits(n / 10, width - 1), Digits(m / 10, width - 1), Digit(n % 10), Digit(m % 10));
      DigitsDiffer(n % 10, m % 10);
    }
  }

  lemma LastDigit(a: string, b: string, x: char, y: char)
    requires |a| == |b|
    ensures a + [x] == b + [y] <==> a == b && x == y
  {
    if a + [x] == b + [y] {
      assert a == (a + [x])[..|a|] == (b + [y])[..|a|] == b;
      assert x == (a + [x])[|a|] == (b + [y])[|a|] == y;
    }
  }

  lemma DigitsDiffer(a: nat, b: nat)
    requires a < 10 && b < 10
    ensures Digit(a) < Digit(b) <==> a < b
    ensures Digit(a) == Digit(b) <==> a == b
    ensures Less([Digit(a)], [Digit(b)]) <==> a < b
  {
  }

  lemma FieldInOrder(n: nat, m: nat, width: nat, rest: string, other: string)
    requires 0 < width && n < Pow10(width) && m < Pow10(width)
    ensures Less(Padded(n, width) + rest, Padded(m, width) + other) <==> n < m || (n == m && Less(rest, other))
  {
    hide Padded, Digits, Less, Pow10;
    PaddedIsDigits(n, width);
    PaddedIsDigits(m, width);
    DigitsInOrder(n, m, width);
    LessAfter(Digits(n, width), Digits(m, width), rest, other);
  }

  lemma SeparatorIsIgnored(c: char, rest: string, other: string)
    ensures Less([c] + rest, [c] + other) <==> Less(rest, other)
  {
  }

  /** A two-digit field, its separator and what follows. */
  lemma PartInOrder(n: nat, m: nat, separator: char, rest: string, other: string)
    requires n < 100 && m < 100
    ensures Less(Padded(n, 2) + ([separator] + rest), Padded(m, 2) + ([separator] + other)) <==>
            n < m || (n == m && Less(rest, other))
  {
    hide Padded, Less;
    assert Pow10(2) == 100;
    FieldInOrder(n, m, 2, [separator] + rest, [separator] + other);
    SeparatorIsIgnored(separator, rest, other);
  }

  lemma FormatInOrder(a: Instant, b: Instant)
    requires IsDate(a.date) && IsTime(a.time) && IsDate(b.date) && IsTime(b.time)
    requires 0 <= a.date.year < 10_000 && 0 <= b.date.year < 10_000
    ensures Less(Format(a), Format(b)) <==> Before(a, b)
  {
    hide Padded, Less;
    var sa, sb := Padded(a.time.second, 2), Padded(b.time.second, 2);
    assert Pow10(2) == 100 && Pow10(4) == 10_000;
    assert sa + "" == sa && sb + "" == sb;
    FieldInOrder(a.time.second, b.time.second, 2, "", "");
    NotLessThanItself();
    var ma, mb := Padded(a.time.minute, 2) + (":" + sa), Padded(b.time.minute, 2) + (":" + sb);
    PartInOrder(a.time.minute, b.time.minute, ':', sa, sb);
    var ha, hb := Padded(a.time.hour, 2) + (":" + ma), Padded(b.time.hour, 2) + (":" + mb);
    PartInOrder(a.time.hour, b.time.hour, ':', ma, mb);
    var da, db := Padded(a.date.day, 2) + (" " + ha), Padded(b.date.day, 2) + (" " + hb);
    PartInOrder(a.date.day, b.date.day, ' ', ha, hb);
    var na, nb := Padded(a.date.month, 2) + ("-" + da), Padded(b.date.month, 2) + ("-" + db);
    PartInOrder(a.date.month, b.date.month, '-', da, db);
    FieldInOrder(a.date.year, b.date.year, 4, "-" + na, "-" + nb);
    SeparatorIsIgnored('-', na, nb);
  }

  lemma NotLessThanItself()
    ensures !Less("", "")
  {
  }

  /** The first second of a year. */
  function NewYear(year: int): Instant {
    Instant(Date(year, 1, 1), Time(0, 0, 0))
  }

  lemma YearHasBegun(epoch: int, year: int)
    ensures Utc(epoch).date.year >= year <==> epoch >= EpochOf(NewYear(year))
  {
    hide Utc, EpochOf, IsLeap;
    UtcIsExact(epoch);
    EveryInstantIsReached(NewYear(year));
    UtcIsMonotone(epoch, EpochOf(NewYear(year)));
  }

  /** The first seconds of the years 0 and 10000. */
  const FIRST: int := -62_167_219_200
  const LIMIT: int := 253_402_300_800

  lemma YearsWithRoom(epoch: int)
    ensures FIRST <= epoch < LIMIT <==> 0 <= Utc(epoch).date.year < 10_000
  {
    hide Utc;
    YearHasBegun(epoch, 0);
    YearHasBegun(epoch, 10_000);
    assert EpochOf(NewYear(0)) == FIRST && EpochOf(NewYear(10_000)) == LIMIT;
  }

  /** From year 0 to year 9999, where the format has room, the texts sort as the instants do. */
  lemma TextsSortAsInstants(epoch: int, later: int)
    requires FIRST <= epoch < LIMIT && FIRST <= later < LIMIT
    ensures epoch < later <==> Less(FormatUtc(epoch), FormatUtc(later))
  {
    hide Format, Utc, Less, Before, IsDate;
    YearsWithRoom(epoch);
    YearsWithRoom(later);
    UtcIsExact(epoch);
    UtcIsExact(later);
    UtcIsMonotone(epoch, later);
    FormatInOrder(Utc(epoch), Utc(later));
  }

  lemma {:induction false} DigitsRead(n: nat, width: nat)
    requires n < Pow10(width)
    ensures DigitsValue(Digits(n, width)) == Some(n)
  {
    if width > 0 {
      DigitsRead(n / 10, width - 1);
      assert Digits(n, width)[..width - 1] == Digits(n / 10, width - 1);
    }
  }

  /** A text with its fields at fixed places. */
  predicate Reads(text: string, i: Instant) {
    && |text| == 19
    && text[4] == '-' && text[7] == '-' && text[10] == ' ' && text[13] == ':' && text[16] == ':'
    && DigitsValue(text[..4]) == Some(i.date.year) && DigitsValue(text[5..7]) == Some(i.date.month)
    && DigitsValue(text[8..10]) == Some(i.date.day) && DigitsValue(text[11..13]) == Some(i.time.hour)
    && DigitsValue(text[14..16]) == Some(i.time.minute) && DigitsValue(text[17..]) == Some(i.time.second)
  }

  lemma FormatReads(i: Instant)
    requires IsDate(i.date) && IsTime(i.time) && 0 <= i.date.year < 10_000
    ensures Reads(Format(i), i)
  {
    hide Padded, Digits, DigitsValue;
    assert Pow10(2) == 100 && Pow10(4) == 10_000;
    TwoDigits(i.date.month);
    TwoDigits(i.date.day);
    TwoDigits(i.time.hour);
    TwoDigits(i.time.minute);
    TwoDigits(i.time.second);
    PaddedIsDigits(i.date.year, 4);
    DigitsRead(i.date.year, 4);
    var t := Format(i);
    assert t[..4] == Padded(i.date.year, 4) && t[5..7] == Padded(i.date.month, 2) && t[8..10] == Padded(i.date.day, 2);
    assert t[11..13] == Padded(i.time.hour, 2) && t[14..16] == Padded(i.time.minute, 2);
    assert t[17..] == Padded(i.time.second, 2);
  }

  lemma TwoDigits(n: nat)
    requires n < 100
    ensures |Padded(n, 2)| == 2 && DigitsValue(Padded(n, 2)) == Some(n)
  {
    assert Pow10(2) == 100;
    PaddedIsDigits(n, 2);
    DigitsRead(n, 2);
  }

  /** Between the bounds the text is `YYYY-MM-DD HH:MM:SS`, with the fields of the instant. */
  lemma TextShowsInstant(epoch: int)
    requires FIRST <= epoch < LIMIT
    ensures Reads(FormatUtc(epoch), Utc(epoch))
  {
    hide Format, Utc, Reads, IsDate;
    YearsWithRoom(epoch);
    UtcIsExact(epoch);
    FormatReads(Utc(epoch));
  }

  /** Before year 0 the sign takes one of the four places. */
  lemma NegativeYearIsPadded(n: nat)
    requires 0 < n < 1000
    ensures Padded(0 - n, 4) == "-" + Digits(n, 3)
  {
    assert Pow10(3) == 1000;
    PaddedIsDigits(n, 3);
    var text := Padded(n, 3);
    assert "-" + Zeros(3 - |Decimal(n)|) + Decimal(n) == "-" + text;
  }
}
