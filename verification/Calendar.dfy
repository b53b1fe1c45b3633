/**
 The closed-form day number behind plain date-times, against counting days one
 by one in the proleptic Gregorian calendar.
 */
module Calendar {

  datatype Date = Date(year: int, month: nat, day: nat)

  datatype Time = Time(hour: nat, minute: nat, second: nat, millisecond: nat)

  datatype Kind = PlainTime | Dated

  // ---------------------------------------------------------------------
  // The calendar, one day at a time

  predicate IsLeap(year: int) {
    year % 4 == 0 && (year % 100 != 0 || year % 400 == 0)
  }

  function MonthLength(year: int, month: nat): nat
    requires 1 <= month <= 12
  {
    if month == 2 then (if IsLeap(year) then 29 else 28)
    else if month in {4, 6, 9, 11} then 30
    else 31
  }

  predicate IsDate(d: Date) {
    1 <= d.month <= 12 && 1 <= d.day <= MonthLength(d.year, d.month)
  }

  predicate IsTime(t: Time) {
    t.hour < 24 && t.minute < 60 && t.second < 60 && t.millisecond < 1000
  }

  const EPOCH: Date := Date(1970, 1, 1)

  function Tomorrow(d: Date): (r: Date)
    requires IsDate(d)
    ensures IsDate(r)
  {
    if d.day < MonthLength(d.year, d.month) then Date(d.year, d.month, d.day + 1)
    else if d.month < 12 then Date(d.year, d.month + 1, 1)
    else Date(d.year + 1, 1, 1)
  }

  function Yesterday(d: Date): (r: Date)
    requires IsDate(d)
    ensures IsDate(r) && Tomorrow(r) == d
  {
    if d.day > 1 then Date(d.year, d.month, d.day - 1)
    else if d.month > 1 then Date(d.year, d.month - 1, MonthLength(d.year, d.month - 1))
    else Date(d.year - 1, 12, 31)
  }

  /** The date a number of days after (or before) 1970-01-01, counted one by one. */
  function DateAt(n: int): (d: Date)
    ensures IsDate(d)
    decreases if n < 0 then -n else n
  {
    if n == 0 then EPOCH else if n > 0 then Tomorrow(DateAt(n - 1)) else Yesterday(DateAt(n + 1))
  }

  /** Calendar order. */
  predicate Earlier(a: Date, b: Date) {
    a.year < b.year || (a.year == b.year && (a.month < b.month || (a.month == b.month && a.day < b.day)))
  }

  predicate EarlierTime(a: Time, b: Time) {
    || a.hour < b.hour
    || (a.hour == b.hour && (a.minute < b.minute || (a.minute == b.minute &&
        (a.second < b.second || (a.second == b.second && a.millisecond < b.millisecond)))))
  }

  // ---------------------------------------------------------------------
  // The closed form

  /** Days since 1970-01-01, by 400-year eras of years that start in March. */
  function Days(d: Date): int
    requires 1 <= d.month <= 12
  {
    var year := d.year - (if d.month <= 2 then 1 else 0);
    var era := year / 400;
    var yearOfEra := year - era * 400;
    var marchMonth := d.month + (if d.month > 2 then -3 else 9);
    var dayOfYear := (153 * marchMonth + 2) / 5 + d.day - 1;
    var dayOfEra := yearOfEra * 365 + yearOfEra / 4 - yearOfEra / 100 + dayOfYear;
    era * 146_097 + dayOfEra - 719_468
  }

  function PlainEpochMilliseconds(kind: Kind, d: Date, t: Time): int
    requires IsDate(d)
  {
    var date := if kind.PlainTime? then EPOCH else d;
    Days(date) * 86_400_000 + t.hour * 3_600_000 + t.minute * 60_000 + t.second * 1_000 + t.millisecond
  }

  // ---------------------------------------------------------------------
  // Years that start in March

  /** Days before March of a year, without eras. */
  function March(year: int): int {
    365 * year + year / 4 - year / 100 + year / 400
  }

  lemma {:induction false} Eras(year: int)
    ensures var era := year / 400;
            var rest := year - era * 400;
            era * 146_097 + rest * 365 + rest / 4 - rest / 100 == March(year)
  {
    var era := year / 400;
    var rest := year - era * 400;
    assert 0 <= rest < 400;
    assert year / 4 == 100 * era + rest / 4;
    assert year / 100 == 4 * era + rest / 100;
  }

  lemma {:induction false} MarchStep(year: int)
    ensures March(year + 1) == March(year) + 365 + if IsLeap(year + 1) then 1 else 0
  {
    Divides(year, 4);
    Divides(year, 100);
    Divides(year, 400);
    assert (year + 1) % 400 == 0 ==> (year + 1) % 100 == 0;
    assert (year + 1) % 100 == 0 ==> (year + 1) % 4 == 0;
  }

  lemma {:induction false} Divides(n: int, k: int)
    requires k > 1
    ensures (n + 1) / k == n / k + if (n + 1) % k == 0 then 1 else 0
  {
    var q, r := n / k, n % k;
    assert n == q * k + r;
    if r + 1 == k {
      assert n + 1 == (q + 1) * k;
      Quotient(n + 1, q + 1, 0, k);
    } else {
      assert n + 1 == q * k + (r + 1);
      Quotient(n + 1, q, r + 1, k);
    }
  }

  lemma {:induction false} Quotient(n: int, q: int, r: int, k: int)
    requires 0 <= r < k && n == q * k + r
    ensures n / k == q && n % k == r
  {
    var d := n / k - q;
    assert n == (n / k) * k + n % k;
    assert d * k == r - n % k;
    Small(d, k);
  }

  lemma {:induction false} Small(d: int, k: int)
    requires k > 0 && -k < d * k < k
    ensures d == 0
  {
    assert d >= 1 ==> d * k >= k;
    assert d <= -1 ==> d * k <= -k;
  }

  /** Days of a year before a month that starts in March. */
  function MonthStart(month: nat): int
    requires 1 <= month <= 12
  {
    (153 * (month + (if month > 2 then -3 else 9)) + 2) / 5
  }

  lemma {:induction false} DaysByMarch(d: Date)
    requires 1 <= d.month <= 12
    ensures Days(d) == March(d.year - if d.month <= 2 then 1 else 0) + MonthStart(d.month) + d.day - 719_469
  {
    Eras(d.year - if d.month <= 2 then 1 else 0);
  }

  // ---------------------------------------------------------------------
  // Successive days

  lemma {:induction false} TomorrowAddsOne(d: Date)
    requires IsDate(d)
    ensures Days(Tomorrow(d)) == Days(d) + 1
  {
    hide Days, March, MonthStart;
    DaysByMarch(d);
    DaysByMarch(Tomorrow(d));
    MarchStep(d.year - 1);
    MonthStarts(d.year, d.month);
  }

  lemma {:induction false} MonthStarts(year: int, month: nat)
    requires 1 <= month <= 12
    ensures MonthStart(3) == 0 && MonthStart(2) == 337
    ensures month != 2 ==>
              MonthStart(if month == 12 then 1 else month + 1) == MonthStart(month) + MonthLength(year, month)
  {
  }

  lemma {:induction false} EpochIsZero()
    ensures Days(EPOCH) == 0
  {
  }

  /** Counting n days from the epoch gives a date whose closed form is n. */
  lemma {:induction false} DaysOfDateAt(n: int)
    ensures Days(DateAt(n)) == n
    decreases if n < 0 then -n else n
  {
    hide Days;
    if n == 0 {
      EpochIsZero();
    } else if n > 0 {
      DaysOfDateAt(n - 1);
      TomorrowAddsOne(DateAt(n - 1));
    } else {
      DaysOfDateAt(n + 1);
      TomorrowAddsOne(DateAt(n));
    }
  }

  lemma {:induction false} YearStartsGrow(a: int, b: int)
    requires a < b
    ensures Days(Date(a, 12, 31)) < Days(Date(b, 1, 1))
    decreases b - a
  {
    hide Days;
    TomorrowAddsOne(Date(a, 12, 31));
    if a + 1 < b {
      YearStartsGrow(a + 1, b);
      WithinYear(Date(a + 1, 1, 1), Date(a + 1, 12, 31));
    }
  }

  lemma {:induction false} WithinYear(a: Date, b: Date)
    requires IsDate(a) && IsDate(b) && a.year == b.year && Earlier(a, b)
    ensures Days(a) < Days(b)
    decreases b.month - a.month
  {
    hide Days, IsLeap;
    DaysByMarch(a);
    DaysByMarch(b);
    if a.month < b.month {
      var end := Date(a.year, a.month, MonthLength(a.year, a.month));
      DaysByMarch(end);
      TomorrowAddsOne(end);
      if Tomorrow(end) != b {
        WithinYear(Tomorrow(end), b);
      }
    }
  }

  /** The closed form orders dates as the calendar does. */
  lemma {:induction false} DaysKeepOrder(a: Date, b: Date)
    requires IsDate(a) && IsDate(b)
    ensures Earlier(a, b) <==> Days(a) < Days(b)
  {
    hide Days;
    if Earlier(a, b) {
      DaysGrow(a, b);
    } else if Earlier(b, a) {
      DaysGrow(b, a);
    }
  }

  lemma {:induction false} DaysGrow(a: Date, b: Date)
    requires IsDate(a) && IsDate(b) && Earlier(a, b)
    ensures Days(a) < Days(b)
  {
    hide Days;
    if a.year == b.year {
      WithinYear(a, b);
    } else {
      YearStartsGrow(a.year, b.year);
      if a != Date(a.year, 12, 31) {
        WithinYear(a, Date(a.year, 12, 31));
      }
      if b != Date(b.year, 1, 1) {
        WithinYear(Date(b.year, 1, 1), b);
      }
    }
  }

  /** Every date is reached by counting, and the closed form is the count. */
  lemma {:induction false} DaysCount(d: Date)
    requires IsDate(d)
    ensures DateAt(Days(d)) == d
  {
    hide Days, DateAt;
    DaysOfDateAt(Days(d));
    DaysKeepOrder(DateAt(Days(d)), d);
    DaysKeepOrder(d, DateAt(Days(d)));
  }

  /** A year has 366 days exactly when it is divisible by 4, but of the full centuries only by 400. */
  lemma {:induction false} YearLengths(year: int)
    ensures Days(Date(year + 1, 1, 1)) - Days(Date(year, 1, 1)) ==
            if year % 400 == 0 || (year % 4 == 0 && year % 100 != 0) then 366 else 365
  {
    hide Days, March;
    DaysByMarch(Date(year + 1, 1, 1));
    DaysByMarch(Date(year, 1, 1));
    MarchStep(year - 1);
    assert year % 400 == 0 ==> year % 4 == 0;
  }

  /** The calendar repeats after 400 years, which are 146097 days. */
  lemma {:induction false} FourCenturies(d: Date)
    requires 1 <= d.month <= 12
    ensures Days(Date(d.year + 400, d.month, d.day)) == Days(d) + 146_097
  {
    hide Days;
    DaysByMarch(d);
    DaysByMarch(Date(d.year + 400, d.month, d.day));
    var year := d.year - if d.month <= 2 then 1 else 0;
    assert (year + 400) / 400 == year / 400 + 1 && (year + 400) / 100 == year / 100 + 4 && (year + 400) / 4 == year / 4 + 100;
  }

  // ---------------------------------------------------------------------
  // Milliseconds

  function TimeOf(t: Time): nat {
    t.hour * 3_600_000 + t.minute * 60_000 + t.second * 1_000 + t.millisecond
  }

  lemma {:induction false} TimesKeepOrder(a: Time, b: Time)
    requires IsTime(a) && IsTime(b)
    ensures TimeOf(a) < 86_400_000
    ensures EarlierTime(a, b) <==> TimeOf(a) < TimeOf(b)
  {
  }

  /** The order of date-times, to the millisecond, is the order of their numbers. */
  lemma {:induction false} MillisecondsKeepOrder(a: Date, t: Time, b: Date, u: Time)
    requires IsDate(a) && IsDate(b) && IsTime(t) && IsTime(u)
    ensures Earlier(a, b) || (a == b && EarlierTime(t, u))
            <==> PlainEpochMilliseconds(Dated, a, t) < PlainEpochMilliseconds(Dated, b, u)
    ensures EarlierTime(t, u) <==> PlainEpochMilliseconds(PlainTime, a, t) < PlainEpochMilliseconds(PlainTime, b, u)
  {
    hide Days;
    DaysKeepOrder(a, b);
    DaysKeepOrder(b, a);
    TimesKeepOrder(t, u);
    TimesKeepOrder(u, t);
  }

  /** Minutes of an hour, seconds of a minute, milliseconds of a second. */
  function SinceMidnight(t: Time): nat {
    ((t.hour * 60 + t.minute) * 60 + t.second) * 1000 + t.millisecond
  }

  /** A plain time is its milliseconds since midnight; a dated value adds whole days counted from 1970-01-01. */
  lemma {:induction false} MillisecondsCount(n: int, d: Date, t: Time)
    requires IsDate(d)
    ensures PlainEpochMilliseconds(PlainTime, d, t) == SinceMidnight(t)
    ensures PlainEpochMilliseconds(Dated, DateAt(n), t) == n * (24 * 60 * 60 * 1000) + SinceMidnight(t)
  {
    hide Days, DateAt;
    EpochIsZero();
    DaysOfDateAt(n);
  }

  const FIRST_YEAR: int := -271_821
  const LAST_YEAR: int := 275_760

  lemma {:induction false} YearEdges()
    ensures Days(Date(FIRST_YEAR, 1, 1)) == -100_000_109 && Days(Date(LAST_YEAR, 12, 31)) == 100_000_109
  {
    hide Days;
    DaysByMarch(Date(FIRST_YEAR, 1, 1));
    DaysByMarch(Date(LAST_YEAR, 12, 31));
    assert March(FIRST_YEAR - 1) == -99_280_947 && March(LAST_YEAR) == 100_719_272;
    assert MonthStart(1) == 306 && MonthStart(12) == 275;
  }

  /**
   For every date of Temporal's years every step of the computation fits a
   signed 64-bit integer: the era and the day within it, their product and sum,
   and the milliseconds, whose partial sums lie between the day and the result.
   */
  lemma {:induction false} FitsInt64(d: Date, t: Time)
    requires IsDate(d) && IsTime(t) && FIRST_YEAR <= d.year <= LAST_YEAR
    ensures var year := d.year - (if d.month <= 2 then 1 else 0);
            var rest := year - year / 400 * 400;
            && -680 <= year / 400 <= 689
            && 0 <= rest * 365 + rest / 4 - rest / 100 <= 145_731
            && 0 <= MonthStart(d.month) + d.day - 1 <= 367
    ensures -100_000_109 <= Days(d) <= 100_000_109
    ensures -8_640_009_417_600_000 <= Days(d) * 86_400_000 <= PlainEpochMilliseconds(Dated, d, t) < 8_640_009_504_000_000
    ensures 8_640_009_504_000_000 < 0x8000_0000_0000_0000
  {
    EraBounds(d);
    DayBounds(d);
    hide Days;
    TimesKeepOrder(t, t);
  }

  lemma {:induction false} EraBounds(d: Date)
    requires IsDate(d) && FIRST_YEAR <= d.year <= LAST_YEAR
    ensures var year := d.year - (if d.month <= 2 then 1 else 0);
            var rest := year - year / 400 * 400;
            && -680 <= year / 400 <= 689
            && 0 <= rest * 365 + rest / 4 - rest / 100 <= 145_731
            && 0 <= MonthStart(d.month) + d.day - 1 <= 367
  {
    hide Days;
  }

  lemma {:induction false} DayBounds(d: Date)
    requires IsDate(d) && FIRST_YEAR <= d.year <= LAST_YEAR
    ensures -100_000_109 <= Days(d) <= 100_000_109
  {
    hide Days;
    YearEdges();
    DaysKeepOrder(d, Date(FIRST_YEAR, 1, 1));
    DaysKeepOrder(Date(LAST_YEAR, 12, 31), d);
  }
}
