/** Epoch seconds to calendar time in `time_core`. */
module Calendar {
  import opened Prelude

  predicate IsLeap(year: int) {
    year % 4 == 0 && (year % 100 != 0 || year % 400 == 0)
  }

  /** `month_lengths`. */
  function MonthLengths(leap: bool): (r: seq<int>)
    ensures |r| == 12
  {
    [31, if leap then 29 else 28, 31, 30, 31, 30, 31, 31, 30, 31, 30, 31]
  }

  /** Month and day count from 1. */
  datatype Parts = Parts(year: int, month: int, day: int, hour: int, minute: int, second: int)
  {
    /** A time of the Gregorian calendar that is not before the epoch. */
    predicate Valid() {
      && 1970 <= year && 1 <= month <= 12 && 1 <= day <= MonthLengths(IsLeap(year))[month - 1]
      && 0 <= hour < 24 && 0 <= minute < 60 && 0 <= second < 60
    }
  }

  // -- The day count, in closed form ---------------------------------------

  function LeapsBefore(year: int): int {
    (year - 1) / 4 - (year - 1) / 100 + (year - 1) / 400
  }

  /** Days from the epoch to the first day of a year. */
  function DaysToYear(year: int): int {
    365 * (year - 1970) + LeapsBefore(year) - LeapsBefore(1970)
  }

  /** Days of a year before a month. */
  function DaysToMonth(month: int, leap: bool): int {
    (367 * month - 362) / 12 - if month <= 2 then 0 else if leap then 1 else 2
  }

  function DayNumber(p: Parts): int {
    DaysToYear(p.year) + DaysToMonth(p.month, IsLeap(p.year)) + p.day - 1
  }

  function EpochSeconds(p: Parts): int {
    86400 * DayNumber(p) + 3600 * p.hour + 60 * p.minute + p.second
  }

  function YearLength(year: int): int {
    if IsLeap(year) then 366 else 365
  }

  lemma NextYear(year: int)
    requires year >= 1970
    ensures DaysToYear(year + 1) == DaysToYear(year) + YearLength(year)
  {
    StepsOf(year, 4);
    StepsOf(year, 100);
    StepsOf(year, 400);
  }

  lemma StepsOf(n: int, k: int)
    requires n >= 1 && k > 1
    ensures n / k == (n - 1) / k + if n % k == 0 then 1 else 0
  {
    var q, r := n / k, n % k;
    assert n == k * q + r;
    if r == 0 {
      assert n - 1 == k * (q - 1) + (k - 1);
      QuotientIs(n - 1, k, q - 1, k - 1);
    } else {
      QuotientIs(n - 1, k, q, r - 1);
    }
  }

  lemma Multiple(k: int, d: int)
    requires k > 0 && -k < k * d < k
    ensures d == 0
  {
  }

  lemma QuotientIs(n: int, k: int, q: int, r: int)
    requires k > 0 && n == k * q + r && 0 <= r < k
    ensures n / k == q
  {
    var d := n / k - q;
    assert k * d == k * (n / k) - k * q;
    Multiple(k, d);
  }

  lemma NextMonth(month: int, leap: bool)
    requires 1 <= month <= 12
    ensures DaysToMonth(month, leap) + MonthLengths(leap)[month - 1] ==
      if month < 12 then DaysToMonth(month + 1, leap) else if leap then 366 else 365
    ensures DaysToMonth(1, leap) == 0
  {
  }

  lemma {:induction false} MonthsApart(m: int, n: int, leap: bool)
    requires 1 <= m < n <= 12
    ensures DaysToMonth(m, leap) + MonthLengths(leap)[m - 1] <= DaysToMonth(n, leap)
    decreases n - m
  {
    NextMonth(m, leap);
    if m + 1 < n {
      MonthsApart(m + 1, n, leap);
    }
  }

  lemma {:induction false} YearsApart(y: int, z: int)
    requires 1970 <= y < z
    ensures DaysToYear(y) + YearLength(y) <= DaysToYear(z)
    decreases z - y
  {
    NextYear(y);
    if y + 1 < z {
      YearsApart(y + 1, z);
    }
  }

  lemma DayWithinYear(p: Parts)
    requires p.Valid()
    ensures DaysToYear(p.year) <= DayNumber(p) < DaysToYear(p.year) + YearLength(p.year)
  {
    NextMonth(p.month, IsLeap(p.year));
    if p.month > 1 {
      MonthsApart(1, p.month, IsLeap(p.year));
    }
    if p.month < 12 {
      MonthsApart(p.month, 12, IsLeap(p.year));
      NextMonth(12, IsLeap(p.year));
    }
  }

  predicate DateBefore(p: Parts, q: Parts) {
    p.year < q.year || (p.year == q.year && (p.month < q.month || (p.month == q.month && p.day < q.day)))
  }

  predicate SameDate(p: Parts, q: Parts) {
    p.year == q.year && p.month == q.month && p.day == q.day
  }

  /** Lexicographic order of the six parts. */
  predicate Before(p: Parts, q: Parts) {
    DateBefore(p, q) ||
    (SameDate(p, q) &&
     (p.hour < q.hour || (p.hour == q.hour && (p.minute < q.minute || (p.minute == q.minute && p.second < q.second)))))
  }

  lemma EarlierDate(p: Parts, q: Parts)
    requires p.Valid() && q.Valid() && DateBefore(p, q)
    ensures DayNumber(p) < DayNumber(q)
  {
    if p.year < q.year {
      DayWithinYear(p);
      DayWithinYear(q);
      YearsApart(p.year, q.year);
    } else if p.month < q.month {
      MonthsApart(p.month, q.month, IsLeap(p.year));
    }
  }

  /** The day count orders valid times as their parts do, so it also identifies them. */
  lemma OrderOfTimes(p: Parts, q: Parts)
    requires p.Valid() && q.Valid()
    ensures Before(p, q) <==> EpochSeconds(p) < EpochSeconds(q)
    ensures p == q <==> EpochSeconds(p) == EpochSeconds(q)
  {
    if DateBefore(p, q) {
      EarlierDate(p, q);
    } else if DateBefore(q, p) {
      EarlierDate(q, p);
    } else {
      assert SameDate(p, q);
    }
  }

  // -- The loops -----------------------------------------------------------

  /** `epoch_to_parts`: the one valid time that the day count maps back. */
  method EpochToParts(epochSecs: nat) returns (p: Parts)
    ensures p.Valid() && EpochSeconds(p) == epochSecs
    ensures forall q: Parts :: q.Valid() && EpochSeconds(q) == epochSecs ==> q == p
  {
    var hour := (epochSecs % 86400) / 3600;
    var minute := (epochSecs % 3600) / 60;
    var second := epochSecs % 60;
    var days := epochSecs / 86400;
    var year := 1970;
    var remaining := days;
    while remaining >= YearLength(year)
      invariant year >= 1970 && remaining >= 0
      invariant DaysToYear(year) + remaining == days
      decreases remaining
    {
      NextYear(year);
      remaining := remaining - YearLength(year);
      year := year + 1;
    }
    var monthDays := MonthLengths(IsLeap(year));
    var month := 0;
    while month < 12 && remaining >= monthDays[month]
      invariant 0 <= month <= 12 && remaining >= 0
      invariant month < 12 ==> DaysToMonth(month + 1, IsLeap(year)) + remaining == days - DaysToYear(year)
      invariant month == 12 ==> YearLength(year) + remaining == days - DaysToYear(year)
    {
      NextMonth(month + 1, IsLeap(year));
      remaining := remaining - monthDays[month];
      month := month + 1;
    }
    ClockParts(epochSecs);
    p := Parts(year, month + 1, remaining + 1, hour, minute, second);
    forall q: Parts | q.Valid() && EpochSeconds(q) == epochSecs
      ensures q == p
    {
      OrderOfTimes(p, q);
    }
  }

  lemma ClockParts(t: nat)
    ensures var h, m, s := (t % 86400) / 3600, (t % 3600) / 60, t % 60;
      && 0 <= h < 24 && 0 <= m < 60 && 0 <= s < 60
      && t == 86400 * (t / 86400) + 3600 * h + 60 * m + s
  {
    SecondOfHour(t, t / 86400, t % 86400);
    SecondOfMinute(t, t / 3600, t % 3600);
  }

  lemma SecondOfHour(t: int, days: int, d: int)
    requires t == 86400 * days + d
    ensures t % 3600 == d % 3600
  {
    var h, r := d / 3600, d % 3600;
    assert t == 3600 * (24 * days + h) + r;
  }

  lemma SecondOfMinute(t: int, hours: int, r: int)
    requires t == 3600 * hours + r
    ensures t % 60 == r % 60
  {
    var m, s := r / 60, r % 60;
    assert t == 60 * (60 * hours + m) + s;
  }

  // -- From second to second -----------------------------------------------

  /** The day after, by the Gregorian calendar. */
  function NextDay(p: Parts): Parts {
    var leap := p.year % 4 == 0 && (p.year % 100 != 0 || p.year % 400 == 0);
    var last := if p.month == 2 then if leap then 29 else 28 else if p.month in {4, 6, 9, 11} then 30 else 31;
    if p.day < last then p.(day := p.day + 1)
    else if p.month < 12 then p.(month := p.month + 1, day := 1)
    else p.(year := p.year + 1, month := 1, day := 1)
  }

  /** The second after. */
  function NextSecond(p: Parts): Parts {
    if p.second < 59 then p.(second := p.second + 1)
    else if p.minute < 59 then p.(minute := p.minute + 1, second := 0)
    else if p.hour < 23 then p.(hour := p.hour + 1, minute := 0, second := 0)
    else NextDay(p).(hour := 0, minute := 0, second := 0)
  }

  /** The count starts with the first second of 1970. */
  lemma EpochStarts()
    ensures Parts(1970, 1, 1, 0, 0, 0).Valid() && EpochSeconds(Parts(1970, 1, 1, 0, 0, 0)) == 0
  {
  }

  lemma NextDayCounts(p: Parts)
    requires p.Valid()
    ensures NextDay(p).Valid() && DayNumber(NextDay(p)) == DayNumber(p) + 1
  {
    NextMonth(p.month, IsLeap(p.year));
    NextMonth(1, IsLeap(p.year + 1));
    NextYear(p.year);
  }

  /** And it goes on by one for each second of the calendar, so the time of every second is
      determined. */
  lemma NextSecondCounts(p: Parts)
    requires p.Valid()
    ensures NextSecond(p).Valid() && EpochSeconds(NextSecond(p)) == EpochSeconds(p) + 1
  {
    NextDayCounts(p);
    var q := NextSecond(p);
    if p.second < 59 || p.minute < 59 || p.hour < 23 {
      DayOfDate(p, q);
    } else {
      DayOfDate(NextDay(p), q);
    }
    hide DayNumber, MonthLengths, IsLeap, NextDay;
  }

  /** The day does not depend on the time. */
  lemma DayOfDate(p: Parts, q: Parts)
    requires p.year == q.year && p.month == q.month && p.day == q.day
    ensures DayNumber(p) == DayNumber(q)
  {
  }

  // -- Timestamps as text --------------------------------------------------

  lemma {:induction false} LexPrefix(a: string, b: string, x: string, y: string)
    requires |a| == |b|
    ensures LexLess(a, b) ==> LexLess(a + x, b + y)
    ensures LexLess(x, y) ==> LexLess(a + x, a + y)
    decreases |a|
  {
    if a == "" {
      assert a + x == x && a + y == y;
    } else {
      assert (a + x)[1..] == a[1..] + x && (b + y)[1..] == b[1..] + y && (a + y)[1..] == a[1..] + y;
      LexPrefix(a[1..], b[1..], x, y);
    }
  }

  lemma {:induction false} DecimalOrder(m: nat, n: nat, width: nat)
    requires m < Pow10(width) && n < Pow10(width)
    ensures |Decimal(m, width)| == width
    ensures m < n ==> LexLess(Decimal(m, width), Decimal(n, width))
    decreases width
  {
    if width > 0 {
      DecimalOrder(m / 10, n / 10, width - 1);
      DecimalOrder(n / 10, m / 10, width - 1);
      LexPrefix(Decimal(m / 10, width - 1), Decimal(n / 10, width - 1), [Digit(m % 10)], [Digit(n % 10)]);
    }
  }

  /** One field and the rest of the text. */
  function Field(n: nat, width: nat, rest: string): string {
    Decimal(n, width) + rest
  }

  lemma {:induction false} FieldOrder(m: nat, n: nat, width: nat, x: string, y: string)
    requires m < Pow10(width) && n < Pow10(width)
    ensures m < n ==> LexLess(Field(m, width, x), Field(n, width, y))
    ensures m == n && LexLess(x, y) ==> LexLess(Field(m, width, x), Field(n, width, y))
  {
    DecimalOrder(m, n, width);
    DecimalOrder(n, m, width);
    LexPrefix(Decimal(m, width), Decimal(n, width), x, y);
  }

  function TimeText(p: Parts): string
    requires p.Valid()
  {
    "T" + Field(p.hour, 2, ":" + Field(p.minute, 2, ":" + Field(p.second, 2, "Z")))
  }

  /** The text of `iso_zulu`. */
  function IsoText(p: Parts): string
    requires p.Valid()
  {
    Field(p.year, 4, "-" + Field(p.month, 2, "-" + Field(p.day, 2, TimeText(p))))
  }

  lemma TimeTextOrder(p: Parts, q: Parts)
    requires p.Valid() && q.Valid() && SameDate(p, q) && Before(p, q)
    ensures LexLess(TimeText(p), TimeText(q))
  {
    assert Pow10(2) == 100;
    var ps, qs := Field(p.second, 2, "Z"), Field(q.second, 2, "Z");
    var pm, qm := Field(p.minute, 2, ":" + ps), Field(q.minute, 2, ":" + qs);
    FieldOrder(p.second, q.second, 2, "Z", "Z");
    LexPrefix(":", ":", ps, qs);
    FieldOrder(p.minute, q.minute, 2, ":" + ps, ":" + qs);
    LexPrefix(":", ":", pm, qm);
    FieldOrder(p.hour, q.hour, 2, ":" + pm, ":" + qm);
    LexPrefix("T", "T", Field(p.hour, 2, ":" + pm), Field(q.hour, 2, ":" + qm));
  }

  /** Through year 9999 timestamps sort as text in the order of time. */
  lemma IsoTextOrder(p: Parts, q: Parts)
    requires p.Valid() && q.Valid() && q.year <= 9999
    requires EpochSeconds(p) < EpochSeconds(q)
    ensures LexLess(IsoText(p), IsoText(q))
  {
    hide LexLess, Decimal, EpochSeconds;
    OrderOfTimes(p, q);
    assert Pow10(2) == 100 && Pow10(4) == 10000;
    var pd, qd := Field(p.day, 2, TimeText(p)), Field(q.day, 2, TimeText(q));
    var pm, qm := Field(p.month, 2, "-" + pd), Field(q.month, 2, "-" + qd);
    if SameDate(p, q) {
      TimeTextOrder(p, q);
    }
    FieldOrder(p.day, q.day, 2, TimeText(p), TimeText(q));
    LexPrefix("-", "-", pd, qd);
    FieldOrder(p.month, q.month, 2, "-" + pd, "-" + qd);
    LexPrefix("-", "-", pm, qm);
    FieldOrder(p.year, q.year, 4, "-" + pm, "-" + qm);
  }

  /** The text is `YYYY-MM-DDTHH:MM:SSZ`, and longer only from the year 10000 on. */
  lemma IsoTextMeaning(p: Parts) returns (fields: seq<string>)
    requires p.Valid()
    ensures |fields| == 6
    ensures IsNumber(fields[0], p.year, 4) && IsNumber(fields[1], p.month, 2) && IsNumber(fields[2], p.day, 2)
    ensures IsNumber(fields[3], p.hour, 2) && IsNumber(fields[4], p.minute, 2) && IsNumber(fields[5], p.second, 2)
    ensures IsoText(p) == fields[0] + ("-" + (fields[1] + ("-" + (fields[2] +
      ("T" + (fields[3] + (":" + (fields[4] + (":" + (fields[5] + "Z"))))))))))
  {
    DecimalMeaning(p.year, 4);
    DecimalMeaning(p.month, 2);
    DecimalMeaning(p.day, 2);
    DecimalMeaning(p.hour, 2);
    DecimalMeaning(p.minute, 2);
    DecimalMeaning(p.second, 2);
    fields := [Decimal(p.year, 4), Decimal(p.month, 2), Decimal(p.day, 2),
      Decimal(p.hour, 2), Decimal(p.minute, 2), Decimal(p.second, 2)];
  }

  /** `iso_zulu`. */
  method IsoZulu(epochSecs: nat) returns (text: string)
    ensures exists p: Parts :: p.Valid() && EpochSeconds(p) == epochSecs && text == IsoText(p)
  {
    var p := EpochToParts(epochSecs);
    text := IsoText(p);
  }
}
