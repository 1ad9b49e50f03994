/** Calendar buckets on the proleptic Gregorian calendar. A day is the number of days since
    Monday 0001-01-01; an instant is a day and the nanoseconds passed of it, UTC. */
module Calendar {

  const DAY: nat := 86_400_000_000_000

  datatype InstantRaw = Instant(day: int, nanos: nat)

  type Instant = t: InstantRaw | t.nanos < DAY witness Instant(0, 0)

  predicate Before(a: Instant, b: Instant) {
    a.day < b.day || (a.day == b.day && a.nanos < b.nanos)
  }

  /** One instant is before another if fewer nanoseconds have passed. */
  lemma {:induction false} BeforeIs(a: Instant, b: Instant)
    ensures Before(a, b) <==> a.day * DAY + a.nanos < b.day * DAY + b.nanos
  {
  }

  function Midnight(day: int): Instant { Instant(day, 0) }

  // ---------------------------------------------------------------- years

  predicate IsLeap(year: int) { year % 4 == 0 && (year % 100 != 0 || year % 400 == 0) }

  function YearLength(year: int): (n: int)
    ensures 365 <= n <= 366
  {
    if IsLeap(year) then 366 else 365
  }

  /** The first day of a year. */
  function YearStart(year: int): int
    decreases if year >= 1 then year - 1 else 2 - year
  {
    if year == 1 then 0
    else if year > 1 then YearStart(year - 1) + YearLength(year - 1)
    else YearStart(year + 1) - YearLength(year)
  }

  lemma {:induction false} YearsAbut(year: int)
    ensures YearStart(year + 1) == YearStart(year) + YearLength(year)
  {
  }

  lemma {:induction false} OneMoreMultiple(n: int, d: int)
    requires d in {4, 100, 400}
    ensures n / d == (n - 1) / d + if n % d == 0 then 1 else 0
  {
  }

  lemma {:induction false} LeapDays(year: int)
    ensures year / 4 - year / 100 + year / 400
         == (year - 1) / 4 - (year - 1) / 100 + (year - 1) / 400 + if IsLeap(year) then 1 else 0
  {
    OneMoreMultiple(year, 4);
    OneMoreMultiple(year, 100);
    OneMoreMultiple(year, 400);
  }

  /** Between 1 January 0001 and that of a year lie 365 days a year and the leap days of the years before it: one
      every four years, but none every hundred, and one after all every four hundred. */
  lemma {:induction false} YearStartIs(year: int)
    ensures YearStart(year) == 365 * (year - 1) + (year - 1) / 4 - (year - 1) / 100 + (year - 1) / 400
    decreases if year >= 1 then year - 1 else 2 - year
  {
    if year > 1 {
      LeapDays(year - 1);
      YearStartIs(year - 1);
    } else if year < 1 {
      LeapDays(year);
      YearStartIs(year + 1);
    }
  }

  /** The year of a day. */
  function YearOf(day: int): (y: int)
    ensures YearStart(y) <= day < YearStart(y + 1)
  {
    if day >= 0 then YearUp(day, 1) else YearDown(day, 0)
  }

  function YearUp(day: int, year: int): (y: int)
    requires YearStart(year) <= day
    ensures YearStart(y) <= day < YearStart(y + 1)
    decreases day - YearStart(year)
  {
    YearsAbut(year);
    if day < YearStart(year + 1) then year else YearUp(day, year + 1)
  }

  function YearDown(day: int, year: int): (y: int)
    requires day < YearStart(year + 1)
    ensures YearStart(y) <= day < YearStart(y + 1)
    decreases YearStart(year + 1) - day
  {
    YearsAbut(year);
    if YearStart(year) <= day then year else YearDown(day, year - 1)
  }

  lemma {:induction false} YearsGrow(y1: int, y2: int)
    requires y1 < y2
    ensures YearStart(y1) + 365 <= YearStart(y2)
    decreases y2 - y1
  {
    YearsAbut(y2 - 1);
    if y1 + 1 < y2 {
      YearsGrow(y1, y2 - 1);
    }
  }

  lemma {:induction false} SameYear(day: int, y1: int, y2: int)
    requires YearStart(y1) <= day < YearStart(y1 + 1) && YearStart(y2) <= day < YearStart(y2 + 1)
    ensures y1 == y2
  {
    if y1 < y2 {
      if y1 + 1 < y2 { YearsGrow(y1 + 1, y2); }
    } else if y2 < y1 {
      if y2 + 1 < y1 { YearsGrow(y2 + 1, y1); }
    }
  }

  /** The year of a day is the only one it lies in. */
  lemma {:induction false} YearIsUnique(day: int, year: int)
    requires YearStart(year) <= day < YearStart(year + 1)
    ensures YearOf(day) == year
  {
    SameYear(day, YearOf(day), year);
  }

  // ---------------------------------------------------------------- months

  /** Days before month m (0 = January, 12 = the year's length), in an ordinary or leap year. */
  function DaysBefore(month: nat, leap: bool): (n: nat)
    requires month <= 12
    ensures month > 0 ==> n >= 31
  {
    [0, 31, 59, 90, 120, 151, 181, 212, 243, 273, 304, 334, 365][month] + if leap && month >= 2 then 1 else 0
  }

  function MonthFrom(yday: int, leap: bool, month: nat): (m: nat)
    requires month < 12 && DaysBefore(month, leap) <= yday < DaysBefore(12, leap)
    ensures m < 12 && DaysBefore(m, leap) <= yday < DaysBefore(m + 1, leap)
    decreases 12 - month
  {
    if yday < DaysBefore(month + 1, leap) then month else MonthFrom(yday, leap, month + 1)
  }

  /** The first day of month m of a year; month 12 is the next January. */
  function MonthStart(year: int, month: nat): int
    requires month <= 12
  {
    YearStart(year) + DaysBefore(month, IsLeap(year))
  }

  /** The month a day lies in. */
  function MonthOf(day: int): (m: nat)
    ensures m < 12
    ensures MonthStart(YearOf(day), m) <= day < MonthStart(YearOf(day), m + 1)
  {
    YearsAbut(YearOf(day));
    MonthFrom(day - YearStart(YearOf(day)), IsLeap(YearOf(day)), 0)
  }

  /** How long each month is, and that the twelve make up the year. */
  lemma {:induction false} MonthLengths(year: int, month: nat)
    requires month < 12
    ensures MonthStart(year, month + 1) - MonthStart(year, month)
         == if month == 1 then (if year % 4 == 0 && (year % 100 != 0 || year % 400 == 0) then 29 else 28)
            else if month in {3, 5, 8, 10} then 30
            else 31
    ensures MonthStart(year, 0) == YearStart(year) && MonthStart(year, 12) == YearStart(year + 1)
  {
    YearsAbut(year);
  }

  lemma {:induction false} MonthsGrow(m1: nat, m2: nat, leap: bool)
    requires m1 < m2 <= 12
    ensures DaysBefore(m1, leap) < DaysBefore(m2, leap)
  {
    if m1 + 1 < m2 {
      MonthsGrow(m1, m2 - 1, leap);
    }
  }

  /** The month of a day is the only one it lies in. */
  lemma {:induction false} MonthIsUnique(day: int, year: int, month: nat)
    requires month < 12 && MonthStart(year, month) <= day < MonthStart(year, month + 1)
    ensures YearOf(day) == year && MonthOf(day) == month
  {
    YearsAbut(year);
    if month > 0 { MonthsGrow(0, month, IsLeap(year)); }
    if month < 11 { MonthsGrow(month + 1, 12, IsLeap(year)); }
    YearIsUnique(day, year);
    var m := MonthOf(day);
    if m < month && m + 1 < month { MonthsGrow(m + 1, month, IsLeap(year)); }
    if month < m && month + 1 < m { MonthsGrow(month + 1, m, IsLeap(year)); }
  }

  // ---------------------------------------------------------------- ISO weeks

  /** time.Weekday: 0 = Sunday. */
  function Weekday(day: int): (w: int)
    ensures 0 <= w < 7
  {
    (day + 1) % 7
  }

  /** The day `isoWeekStart` returns. */
  function WeekStart(day: int): int {
    var weekday := if Weekday(day) == 0 then 7 else Weekday(day);
    day + (1 - weekday)
  }

  /** ISO 8601-1:2019 section 5.2.4: a week belongs to the year of its Thursday. */
  function ISOWeek(day: int): int {
    var thursday := WeekStart(day) + 3;
    (thursday - YearStart(YearOf(thursday))) / 7 + 1
  }

  /** Weeks start on Mondays; week k is the days 7k, ..., 7k + 6. */
  lemma {:induction false} WeekStartIs(day: int, k: int)
    requires 7 * k <= day < 7 * k + 7
    ensures WeekStart(day) == 7 * k
  {
  }

  /** 1 January 2024 was a Monday. */
  lemma {:induction false} MondayIs()
    ensures WeekStart(YearStart(2024)) == YearStart(2024)
  {
    hide YearStart;
    YearStartIs(2024);
  }

  lemma {:induction false} WeekNumber(k: int, year: int)
    requires YearStart(year) <= 7 * k + 3 < YearStart(year + 1)
    ensures ISOWeek(7 * k) == (7 * k + 3 - YearStart(year)) / 7 + 1
  {
    WeekStartIs(7 * k, k);
    YearIsUnique(7 * k + 3, year);
  }

  /** The arithmetic of week numbers: Thursday t of a year that starts at `start`, and the Thursday after. */
  lemma {:induction false} WeekArithmetic(t: int, start: int, next: int, w: int, w': int)
    requires start <= t < next && 365 <= next - start <= 366
    requires w == (t - start) / 7 + 1 && w' == (t + 7 - if t + 7 < next then start else next) / 7 + 1
    ensures 1 <= w <= 53
    ensures w < 52 ==> w' == w + 1
    ensures w == 52 ==> w' in {1, 53}
    ensures w == 53 ==> w' == 1
  {
  }

  /** The year a week after a day is in. */
  function YearAfter(day: int, year: int): (y: int)
    requires YearStart(year) <= day < YearStart(year + 1)
    ensures YearStart(y) <= day + 7 < YearStart(y + 1)
    ensures y == if day + 7 < YearStart(year + 1) then year else year + 1
  {
    YearsAbut(year);
    YearsAbut(year + 1);
    if day + 7 < YearStart(year + 1) then year else year + 1
  }

  lemma {:induction false} WeekNumbers(k: int) returns (start: int, next: int)
    ensures start <= 7 * k + 3 < next && 365 <= next - start <= 366
    ensures ISOWeek(7 * k) == (7 * k + 3 - start) / 7 + 1
    ensures ISOWeek(7 * (k + 1)) == (7 * k + 10 - if 7 * k + 10 < next then start else next) / 7 + 1
  {
    var year := YearOf(7 * k + 3);
    YearsAbut(year);
    start, next := YearStart(year), YearStart(year + 1);
    WeekNumber(k, year);
    WeekNumber(k + 1, YearAfter(7 * k + 3, year));
  }

  /** Week numbers run 1 to 52 or 53, and the week after the last is week 1. */
  lemma {:induction false} NextWeek(k: int)
    ensures 1 <= ISOWeek(7 * k) <= 53
    ensures ISOWeek(7 * k) < 52 ==> ISOWeek(7 * (k + 1)) == ISOWeek(7 * k) + 1
    ensures ISOWeek(7 * k) == 52 ==> ISOWeek(7 * (k + 1)) in {1, 53}
    ensures ISOWeek(7 * k) == 53 ==> ISOWeek(7 * (k + 1)) == 1
  {
    var start, next := WeekNumbers(k);
    WeekArithmetic(7 * k + 3, start, next, ISOWeek(7 * k), ISOWeek(7 * (k + 1)));
  }

  /** Week 1 of a year is the one with 4 January. */
  lemma {:induction false} FirstWeek(day: int, year: int)
    requires WeekStart(day) <= YearStart(year) + 3 < WeekStart(day) + 7
    ensures ISOWeek(day) == 1
  {
    YearIsUnique(WeekStart(day) + 3, year);
    YearsAbut(year);
  }

  /** A week with number 1 has 4 January. */
  lemma {:induction false} FirstWeekIs(day: int) returns (year: int)
    requires ISOWeek(day) == 1
    ensures WeekStart(day) <= YearStart(year) + 3 < WeekStart(day) + 7
  {
    year := YearOf(WeekStart(day) + 3);
  }

  lemma {:induction false} PreviousWeek(k: int)
    requires ISOWeek(7 * k) % 2 == 0
    ensures ISOWeek(7 * (k - 1)) == ISOWeek(7 * k) - 1
  {
    NextWeek(k - 1);
    NextWeek(k);
  }

  // ---------------------------------------------------------------- buckets

  datatype Bucket = ISOWeekBucket | ISOBiweekBucket | MonthBucket

  /** The biweek a day lies in, given the numbering of the weeks that start on Mondays. */
  function BiweekRange(weekOf: int -> int, day: int): (int, int) {
    var start := WeekStart(day);
    var week := weekOf(start);
    if week == 53 then (start, start + 7)
    else if week % 2 == 0 then (start - 7, start - 7 + 14)
    else (start, start + 14)
  }

  /** `calendarBucketRange` on days: first day, and the day after the last. */
  function DayRange(day: int, bucket: Bucket): (int, int) {
    match bucket
    case ISOWeekBucket => (WeekStart(day), WeekStart(day) + 7)
    case ISOBiweekBucket => BiweekRange(ISOWeek, day)
    case MonthBucket => (MonthStart(YearOf(day), MonthOf(day)), MonthStart(YearOf(day), MonthOf(day) + 1))
  }

  /** `calendarBucketRange`. */
  function BucketRange(now: Instant, bucket: Bucket): (Instant, Instant) {
    var (first, after) := DayRange(now.day, bucket);
    (Midnight(first), Midnight(after))
  }

  function BiweekLength(week: int): int { if week == 53 then 7 else 14 }

  /** Odd weeks up to 51 are followed by an even one, even weeks follow an odd one. */
  ghost predicate Paired(weekOf: int -> int, k: int) {
    var w := weekOf(7 * k);
    && 1 <= w <= 53
    && (w % 2 == 1 && w != 53 ==> weekOf(7 * (k + 1)) == w + 1)
    && (w % 2 == 0 ==> weekOf(7 * (k - 1)) == w - 1)
  }

  lemma {:induction false} WeeksArePaired(k: int)
    ensures Paired(ISOWeek, k)
  {
    NextWeek(k);
    if ISOWeek(7 * k) % 2 == 0 { PreviousWeek(k); }
  }

  /** A biweek bucket starts on the Monday of an odd week, and every day of it has that bucket. */
  lemma {:induction false} BiweekIs(weekOf: int -> int, day: int, k: int)
    requires forall j :: Paired(weekOf, j)
    requires weekOf(7 * k) % 2 == 1 && 7 * k <= day < 7 * k + BiweekLength(weekOf(7 * k))
    ensures BiweekRange(weekOf, day) == (7 * k, 7 * k + BiweekLength(weekOf(7 * k)))
  {
    assert Paired(weekOf, k);
    WeekStartIs(day, if day < 7 * k + 7 then k else k + 1);
  }

  lemma {:induction false} BiweekExists(weekOf: int -> int, day: int) returns (k: int)
    requires forall j :: Paired(weekOf, j)
    ensures weekOf(7 * k) % 2 == 1 && 7 * k <= day < 7 * k + BiweekLength(weekOf(7 * k))
    ensures BiweekRange(weekOf, day) == (7 * k, 7 * k + BiweekLength(weekOf(7 * k)))
  {
    k := day / 7;
    assert Paired(weekOf, k);
    assert Paired(weekOf, k - 1);
    if weekOf(7 * k) % 2 == 0 { k := k - 1; }
    BiweekIs(weekOf, day, k);
  }

  lemma {:induction false} BiweekPartition(weekOf: int -> int, day: int, other: int)
    requires forall j :: Paired(weekOf, j)
    ensures var (first, after) := BiweekRange(weekOf, day);
            && first <= day < after
            && (first <= other < after <==> BiweekRange(weekOf, other) == (first, after))
  {
    var k := BiweekExists(weekOf, day);
    var j := BiweekExists(weekOf, other);
    if 7 * k <= other < 7 * k + BiweekLength(weekOf(7 * k)) { BiweekIs(weekOf, other, k); }
  }

  /** The days of a bucket are exactly the days whose bucket it is. */
  lemma {:induction false} DayPartition(day: int, other: int, bucket: Bucket)
    ensures var (first, after) := DayRange(day, bucket);
            && first <= day < after
            && (first <= other < after <==> DayRange(other, bucket) == (first, after))
  {
    hide MonthStart, YearOf, MonthOf, ISOWeek, BiweekRange;
    match bucket
    case ISOWeekBucket =>
      WeekStartIs(day, day / 7);
      WeekStartIs(other, other / 7);
    case ISOBiweekBucket =>
      forall k ensures Paired(ISOWeek, k) { WeeksArePaired(k); }
      BiweekPartition(ISOWeek, day, other);
    case MonthBucket =>
      if MonthStart(YearOf(day), MonthOf(day)) <= other < MonthStart(YearOf(day), MonthOf(day) + 1) {
        MonthIsUnique(other, YearOf(day), MonthOf(day));
      }
  }

  /** Which intervals are buckets: a week from a Monday on; two weeks from the Monday of a week with an odd number
      on, or week 53 alone; and a month. */
  lemma {:induction false} BucketsAre(now: Instant, bucket: Bucket)
    ensures var (start, end) := BucketRange(now, bucket);
            && start.nanos == end.nanos == 0
            && match bucket
               case ISOWeekBucket => start.day % 7 == 0 && end.day == start.day + 7
               case ISOBiweekBucket =>
                 && start.day % 7 == 0 && ISOWeek(start.day) % 2 == 1
                 && end.day == start.day + if ISOWeek(start.day) == 53 then 7 else 14
               case MonthBucket =>
                 exists year, month: nat ::
                   month < 12 && start.day == MonthStart(year, month) && end.day == MonthStart(year, month + 1)
  {
    hide MonthStart, ISOWeek, BiweekRange, YearOf, MonthOf;
    match bucket
    case ISOWeekBucket => WeekStartIs(now.day, now.day / 7);
    case ISOBiweekBucket =>
      forall k ensures Paired(ISOWeek, k) { WeeksArePaired(k); }
      var _ := BiweekExists(ISOWeek, now.day);
    case MonthBucket =>
      assert MonthOf(now.day) < 12;
  }

  /** On days: the bucket is a fixed point at its first day, and buckets abut. */
  lemma {:induction false} DaysAbut(day: int, bucket: Bucket)
    ensures var (first, after) := DayRange(day, bucket);
            && DayRange(first, bucket) == (first, after)
            && DayRange(after, bucket).0 == after
            && DayRange(first - 1, bucket).1 == first
  {
    var (first, after) := DayRange(day, bucket);
    DayPartition(day, day, bucket);
    DayPartition(day, first, bucket);
    NoOverlap(day, after, bucket);
    NoOverlap(day, first - 1, bucket);
  }

  /** The bucket of a day outside another bucket lies wholly on one side of it. */
  lemma {:induction false} NoOverlap(day: int, other: int, bucket: Bucket)
    ensures var (f, a) := DayRange(day, bucket); var (g, b) := DayRange(other, bucket);
            && (other >= a ==> a <= g <= other)
            && (other < f ==> other < b <= f)
  {
    var (f, a) := DayRange(day, bucket);
    var (g, b) := DayRange(other, bucket);
    DayPartition(day, other, bucket);
    DayPartition(other, day, bucket);
    DayPartition(day, a - 1, bucket);
    DayPartition(other, a - 1, bucket);
    DayPartition(day, f, bucket);
    DayPartition(other, f, bucket);
  }

  predicate Within(t: Instant, range: (Instant, Instant)) {
    !Before(t, range.0) && Before(t, range.1)
  }

  /** Calendar buckets partition time: every instant lies in its own bucket, and an instant
      lies in that interval exactly when it has the same bucket. */
  lemma {:induction false} BucketsPartitionTime(now: Instant, other: Instant, bucket: Bucket)
    ensures Within(now, BucketRange(now, bucket))
    ensures Within(other, BucketRange(now, bucket)) <==> BucketRange(other, bucket) == BucketRange(now, bucket)
  {
    DayPartition(now.day, now.day, bucket);
    DayPartition(now.day, other.day, bucket);
  }

  lemma {:induction false} RangeOf(now: Instant, bucket: Bucket, days: (int, int))
    requires DayRange(now.day, bucket) == days
    ensures BucketRange(now, bucket) == (Midnight(days.0), Midnight(days.1))
  {
  }

  lemma {:induction false} NextBucketStarts(t: Instant, bucket: Bucket, day: int)
    requires DayRange(t.day, bucket).0 == day
    ensures BucketRange(t, bucket).0 == Midnight(day)
  {
  }

  lemma {:induction false} LastBucketEnds(t: Instant, bucket: Bucket, day: int)
    requires DayRange(t.day, bucket).1 == day
    ensures BucketRange(t, bucket).1 == Midnight(day)
  {
  }

  /** The range is a fixed point at its start, the next bucket starts where this one ends, and
      the bucket of the last nanosecond before it ends where this one starts. */
  lemma {:induction false} BucketsAbut(now: Instant, bucket: Bucket, range: (Instant, Instant))
    requires range == BucketRange(now, bucket)
    ensures BucketRange(range.0, bucket) == range
    ensures BucketRange(range.1, bucket).0 == range.1
    ensures BucketRange(Instant(range.0.day - 1, DAY - 1), bucket).1 == range.0
  {
    hide DayRange;
    DaysAbut(now.day, bucket);
    RangeOf(range.0, bucket, (range.0.day, range.1.day));
    NextBucketStarts(range.1, bucket, range.1.day);
    LastBucketEnds(Instant(range.0.day - 1, DAY - 1), bucket, range.0.day);
  }
}
