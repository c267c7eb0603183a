/** The fixed windows of the rate limiter. An instant is a number of nanoseconds since
    0001-01-01T00:00:00Z, the origin Go's `Truncate` counts from. */
module RateWindows {
  import opened Collections

  const SECOND := 1_000_000_000
  const MINUTE := 60 * SECOND
  const HOUR := 60 * MINUTE
  const DAY := 24 * HOUR
  const WEEK := 7 * DAY

  /** The Unix epoch, 719162 days after the origin. */
  const EPOCH := 719162 * DAY

  // ----------------------------------------------------------- the Gregorian calendar

  predicate IsLeap(y: int) {
    y % 4 == 0 && (y % 100 != 0 || y % 400 == 0)
  }

  function YearLength(y: int): int {
    if IsLeap(y) then 366 else 365
  }

  /** Days from the origin to 1 January of year y. */
  function DaysBefore(y: int): int {
    365 * (y - 1) + (y - 1) / 4 - (y - 1) / 100 + (y - 1) / 400
  }

  lemma YearByYear(y: int)
    ensures DaysBefore(y + 1) == DaysBefore(y) + YearLength(y)
  {
    CenturyDivision(y);
  }

  lemma CenturyDivision(y: int)
    ensures y / 4 - (y - 1) / 4 == if y % 4 == 0 then 1 else 0
    ensures y / 100 - (y - 1) / 100 == if y % 100 == 0 then 1 else 0
    ensures y / 400 - (y - 1) / 400 == if y % 400 == 0 then 1 else 0
    ensures y % 400 == 0 ==> y % 100 == 0
    ensures y % 100 == 0 ==> y % 4 == 0
  {
  }

  /** The year of a day: 400-year cycles, then centuries, then 4-year cycles, then years,
      the last century and the last year of a cycle being one leap day longer. */
  function YearOf(day: int): (y: int)
    ensures DaysBefore(y) <= day < DaysBefore(y + 1)
  {
    var a, r := day / 146097, day % 146097;
    var b0 := r / 36524;
    var b := if b0 == 4 then 3 else b0;
    var r1 := r - 36524 * b;
    var c, r2 := r1 / 1461, r1 % 1461;
    var e0 := r2 / 365;
    var e := if e0 == 4 then 3 else e0;
    CycleStart(a, b, c, e);
    CycleLength(a, b, c, e);
    400 * a + 100 * b + 4 * c + e + 1
  }

  lemma CycleStart(a: int, b: int, c: int, e: int)
    requires 0 <= b <= 3 && 0 <= c <= 24 && 0 <= e <= 3
    ensures DaysBefore(400 * a + 100 * b + 4 * c + e + 1) == 146097 * a + 36524 * b + 1461 * c + 365 * e
  {
    var n := 400 * a + 100 * b + 4 * c + e;
    assert n / 4 == 100 * a + 25 * b + c;
    assert n / 100 == 4 * a + b;
    assert n / 400 == a;
  }

  lemma CycleLength(a: int, b: int, c: int, e: int)
    requires 0 <= b <= 3 && 0 <= c <= 24 && 0 <= e <= 3
    ensures YearLength(400 * a + 100 * b + 4 * c + e + 1) ==
            if e == 3 && (c != 24 || b == 3) then 366 else 365
    ensures DaysBefore(400 * a + 100 * b + 4 * c + e + 2) ==
            DaysBefore(400 * a + 100 * b + 4 * c + e + 1) +
            if e == 3 && (c != 24 || b == 3) then 366 else 365
  {
    var y := 400 * a + 100 * b + 4 * c + e + 1;
    hide DaysBefore, IsLeap;
    YearByYear(y);
    LeapInCycle(a, b, c, e);
  }

  lemma LeapInCycle(a: int, b: int, c: int, e: int)
    requires 0 <= b <= 3 && 0 <= c <= 24 && 0 <= e <= 3
    ensures IsLeap(400 * a + 100 * b + 4 * c + e + 1) <==> e == 3 && (c != 24 || b == 3)
  {
    Remainder4(100 * a + 25 * b + c, e + 1);
    Remainder100(4 * a + b, 4 * c + e + 1);
    Remainder400(a, 100 * b + 4 * c + e + 1);
    var y := 400 * a + 100 * b + 4 * c + e + 1;
    assert y == 4 * (100 * a + 25 * b + c) + (e + 1);
    assert y == 100 * (4 * a + b) + (4 * c + e + 1);
    assert y == 400 * a + (100 * b + 4 * c + e + 1);
  }

  lemma Remainder4(q: int, r: int)
    requires 1 <= r <= 4
    ensures (4 * q + r) % 4 == 0 <==> r == 4
  {
  }

  lemma Remainder100(q: int, r: int)
    requires 1 <= r <= 100
    ensures (100 * q + r) % 100 == 0 <==> r == 100
  {
  }

  lemma Remainder400(q: int, r: int)
    requires 1 <= r <= 400
    ensures (400 * q + r) % 400 == 0 <==> r == 400
  {
  }

  /** Days of year y before month m; month 13 is the length of the year. */
  function DaysBeforeMonth(y: int, m: int): int
    requires 1 <= m <= 13
  {
    [0, 31, 59, 90, 120, 151, 181, 212, 243, 273, 304, 334, 365][m - 1] +
    if m > 2 && IsLeap(y) then 1 else 0
  }

  lemma MonthLength(y: int, m: int)
    requires 1 <= m <= 12
    ensures 28 <= DaysBeforeMonth(y, m + 1) - DaysBeforeMonth(y, m) <= 31
    ensures DaysBeforeMonth(y, 1) == 0 && DaysBeforeMonth(y, 13) == YearLength(y)
  {
  }

  function MonthFrom(y: int, dayOfYear: int, m: int): (month: int)
    requires 1 <= m <= 12
    requires DaysBeforeMonth(y, m) <= dayOfYear < YearLength(y)
    ensures m <= month <= 12
    ensures DaysBeforeMonth(y, month) <= dayOfYear < DaysBeforeMonth(y, month + 1)
    decreases 12 - m
  {
    if m == 12 || dayOfYear < DaysBeforeMonth(y, m + 1) then m else MonthFrom(y, dayOfYear, m + 1)
  }

  /** Midnight UTC on the first of month m of year y; month 13 is January of the next year,
      as `time.Date` normalises it. */
  function FirstOf(y: int, m: int): int
    requires 1 <= m <= 13
  {
    if m == 13 then DaysBefore(y + 1) * DAY else (DaysBefore(y) + DaysBeforeMonth(y, m)) * DAY
  }

  // ------------------------------------------------------------------------- windows

  datatype Period = Second | Minute | Hour | Day | Week | Month | Year

  function PeriodName(p: Period): string {
    match p
    case Second => "second"
    case Minute => "minute"
    case Hour => "hour"
    case Day => "day"
    case Week => "week"
    case Month => "month"
    case Year => "year"
  }

  function ParsePeriod(name: string): (p: Option<Period>)
    ensures p.Some? ==> PeriodName(p.value) == name
    ensures p.Some? <==> name in ["second", "minute", "hour", "day", "week", "month", "year"]
  {
    if name == "second" then Some(Second)
    else if name == "minute" then Some(Minute)
    else if name == "hour" then Some(Hour)
    else if name == "day" then Some(Day)
    else if name == "week" then Some(Week)
    else if name == "month" then Some(Month)
    else if name == "year" then Some(Year)
    else None
  }

  datatype Window = Window(start: int, end: int)

  function Truncate(t: int, d: int): int
    requires d > 0
  {
    t - t % d
  }

  /** The window of `now`. */
  function WindowOf(p: Period, now: int): Window {
    match p
    case Second => Window(Truncate(now, SECOND), Truncate(now, SECOND) + SECOND)
    case Minute => Window(Truncate(now, MINUTE), Truncate(now, MINUTE) + MINUTE)
    case Hour => Window(Truncate(now, HOUR), Truncate(now, HOUR) + HOUR)
    case Day => Window(Truncate(now, DAY), Truncate(now, DAY) + DAY)
    case Week => Window(Truncate(now, WEEK), Truncate(now, WEEK) + WEEK)
    case Month =>
      var y := YearOf(now / DAY);
      YearByYear(y);
      var m := MonthFrom(y, now / DAY - DaysBefore(y), 1);
      Window(FirstOf(y, m), FirstOf(y, m + 1))
    case Year =>
      var y := YearOf(now / DAY);
      Window(FirstOf(y, 1), FirstOf(y + 1, 1))
  }

  function WindowBounds(name: string, now: int): Result<Window, string> {
    match ParsePeriod(name)
    case Some(p) => Success(WindowOf(p, now))
    case None => Failure("unrecognized rate limit period")
  }

  // ------------------------------------------------------------ windows tile the time

  /** The boundaries between windows, in order, for every integer k. */
  function Edge(p: Period, k: int): int {
    match p
    case Second => k * SECOND
    case Minute => k * MINUTE
    case Hour => k * HOUR
    case Day => k * DAY
    case Week => k * WEEK
    case Month => FirstOf(k / 12, k % 12 + 1)
    case Year => FirstOf(k, 1)
  }

  function Index(p: Period, t: int): int {
    match p
    case Second => t / SECOND
    case Minute => t / MINUTE
    case Hour => t / HOUR
    case Day => t / DAY
    case Week => t / WEEK
    case Month =>
      var y := YearOf(t / DAY);
      YearByYear(y);
      12 * y + MonthFrom(y, t / DAY - DaysBefore(y), 1) - 1
    case Year => YearOf(t / DAY)
  }

  lemma MonthEdges(y: int, m: int)
    requires 1 <= m <= 12
    ensures Edge(Month, 12 * y + m - 1) == FirstOf(y, m)
    ensures Edge(Month, 12 * y + m) == FirstOf(y, m + 1)
  {
    hide FirstOf;
    var k := 12 * y + m - 1;
    assert k / 12 == y && k % 12 == m - 1;
    if m == 12 {
      assert (k + 1) / 12 == y + 1 && (k + 1) % 12 == 0;
      NextJanuary(y);
    } else {
      assert (k + 1) / 12 == y && (k + 1) % 12 == m;
    }
  }

  lemma NextJanuary(y: int)
    ensures FirstOf(y, 13) == FirstOf(y + 1, 1)
  {
    hide DaysBefore;
  }

  lemma MonthIsAfter(y: int, m: int)
    requires 1 <= m <= 12
    ensures FirstOf(y, m + 1) == FirstOf(y, m) + (DaysBeforeMonth(y, m + 1) - DaysBeforeMonth(y, m)) * DAY
    ensures FirstOf(y, m) + 28 * DAY <= FirstOf(y, m + 1) <= FirstOf(y, m) + 31 * DAY
  {
    hide DaysBefore, DaysBeforeMonth;
    MonthLength(y, m);
    YearByYear(y);
  }

  lemma EdgesIncrease(p: Period, k: int)
    ensures Edge(p, k) < Edge(p, k + 1)
  {
    if p == Month {
      var y, m := k / 12, k % 12 + 1;
      hide Edge, FirstOf;
      assert k == 12 * y + m - 1;
      MonthEdges(y, m);
      MonthIsAfter(y, m);
    } else if p == Year {
      hide DaysBefore;
      YearByYear(k);
    }
  }

  lemma {:induction false} EdgesOrdered(p: Period, j: int, k: int)
    requires j <= k
    ensures Edge(p, j) <= Edge(p, k)
    decreases k - j
  {
    if j < k {
      EdgesOrdered(p, j, k - 1);
      EdgesIncrease(p, k - 1);
    }
  }

  lemma MonthBetweenEdges(t: int)
    ensures WindowOf(Month, t) == Window(Edge(Month, Index(Month, t)), Edge(Month, Index(Month, t) + 1))
    ensures WindowOf(Month, t).start <= t < WindowOf(Month, t).end
  {
    hide Edge, YearOf, MonthFrom, DaysBeforeMonth, DaysBefore, FirstOf;
    var y := YearOf(t / DAY);
    YearByYear(y);
    MonthLength(y, 1);
    var m := MonthFrom(y, t / DAY - DaysBefore(y), 1);
    MonthEdges(y, m);
    MonthContains(y, m, t);
  }

  lemma MonthContains(y: int, m: int, t: int)
    requires 1 <= m <= 12
    requires DaysBeforeMonth(y, m) <= t / DAY - DaysBefore(y) < DaysBeforeMonth(y, m + 1)
    ensures FirstOf(y, m) <= t < FirstOf(y, m + 1)
  {
    hide DaysBefore, DaysBeforeMonth;
    MonthLength(y, m);
    YearByYear(y);
  }

  /** Every window lies between two consecutive edges, around its own instant. */
  lemma WindowIsBetweenEdges(p: Period, t: int)
    ensures WindowOf(p, t) == Window(Edge(p, Index(p, t)), Edge(p, Index(p, t) + 1))
    ensures WindowOf(p, t).start <= t < WindowOf(p, t).end
  {
    hide DaysBefore, YearOf, MonthFrom;
    if p == Month {
      hide WindowOf, Edge, Index;
      MonthBetweenEdges(t);
    }
  }

  lemma IndexUnique(p: Period, t: int, k: int)
    requires Edge(p, k) <= t < Edge(p, k + 1)
    ensures Index(p, t) == k
  {
    WindowIsBetweenEdges(p, t);
    hide WindowOf, Edge, Index;
    var i := Index(p, t);
    if i < k {
      EdgesOrdered(p, i + 1, k);
    } else if k < i {
      EdgesOrdered(p, k + 1, i);
    }
  }

  /** Windows tile time: around their instant, the same for every instant inside, and
      adjacent to the window at their end and to the one just before their start. */
  lemma WindowsTile(p: Period, now: int, t: int)
    ensures WindowOf(p, now).start <= now < WindowOf(p, now).end
    ensures WindowOf(p, now).start <= t < WindowOf(p, now).end <==> WindowOf(p, t) == WindowOf(p, now)
    ensures WindowOf(p, WindowOf(p, now).end).start == WindowOf(p, now).end
    ensures WindowOf(p, WindowOf(p, now).start - 1).end == WindowOf(p, now).start
  {
    hide Edge, Index, WindowOf;
    var k := Index(p, now);
    WindowIsBetweenEdges(p, now);
    WindowIsBetweenEdges(p, t);
    if WindowOf(p, now).start <= t < WindowOf(p, now).end {
      IndexUnique(p, t, k);
    }
    EdgesIncrease(p, k + 1);
    IndexUnique(p, Edge(p, k + 1), k + 1);
    WindowIsBetweenEdges(p, Edge(p, k + 1));
    EdgesIncrease(p, k - 1);
    IndexUnique(p, Edge(p, k) - 1, k - 1);
    WindowIsBetweenEdges(p, Edge(p, k) - 1);
  }

  /** Later instants never fall into earlier windows. */
  lemma LaterWindow(p: Period, now: int, t: int)
    requires WindowOf(p, now).end <= t
    ensures WindowOf(p, now).end <= WindowOf(p, t).start
  {
    hide Edge, Index, WindowOf;
    WindowIsBetweenEdges(p, now);
    WindowIsBetweenEdges(p, t);
    var i, k := Index(p, now), Index(p, t);
    if k <= i {
      EdgesOrdered(p, k + 1, i + 1);
    } else {
      EdgesOrdered(p, i + 1, k);
    }
  }

  // ------------------------------------------------- lengths, months in a year, waiting

  lemma WindowLength(p: Period, now: int)
    ensures var length := WindowOf(p, now).end - WindowOf(p, now).start;
            && (p == Second ==> length == SECOND)
            && (p == Minute ==> length == MINUTE)
            && (p == Hour ==> length == HOUR)
            && (p == Day ==> length == DAY)
            && (p == Week ==> length == WEEK)
            && (p == Month ==> 28 * DAY <= length <= 31 * DAY)
            && (p == Year ==> length == YearLength(YearOf(now / DAY)) * DAY && length >= 365 * DAY)
  {
    hide FirstOf, YearOf, MonthFrom, DaysBefore, YearLength;
    if p == Month {
      hide WindowOf;
      MonthWindowLength(now);
    } else if p == Year {
      hide WindowOf;
      YearWindowLength(now);
    }
  }

  lemma MonthWindowLength(now: int)
    ensures 28 * DAY <= WindowOf(Month, now).end - WindowOf(Month, now).start <= 31 * DAY
  {
    hide WindowOf, Edge, FirstOf, Index;
    MonthBetweenEdges(now);
    var y, m := Index(Month, now) / 12, Index(Month, now) % 12 + 1;
    assert Index(Month, now) == 12 * y + m - 1;
    MonthEdges(y, m);
    MonthIsAfter(y, m);
  }

  lemma YearWindowLength(now: int)
    ensures WindowOf(Year, now).end - WindowOf(Year, now).start == YearLength(YearOf(now / DAY)) * DAY
    ensures WindowOf(Year, now).end - WindowOf(Year, now).start >= 365 * DAY
  {
    hide YearOf, DaysBefore;
    YearByYear(YearOf(now / DAY));
  }

  /** The seven names a token's limit may carry, and the fixed lengths in nanoseconds. */
  lemma NamedWindows(now: int)
    ensures ParsePeriod("second") == Some(Second) && ParsePeriod("minute") == Some(Minute)
            && ParsePeriod("hour") == Some(Hour) && ParsePeriod("day") == Some(Day)
            && ParsePeriod("week") == Some(Week) && ParsePeriod("month") == Some(Month)
            && ParsePeriod("year") == Some(Year)
    ensures var second, minute := WindowOf(Second, now), WindowOf(Minute, now);
            second.end - second.start == 1_000_000_000 && minute.end - minute.start == 60 * 1_000_000_000
    ensures var hour, day, week := WindowOf(Hour, now), WindowOf(Day, now), WindowOf(Week, now);
            && hour.end - hour.start == 3_600 * 1_000_000_000
            && day.end - day.start == 86_400 * 1_000_000_000
            && week.end - week.start == 604_800 * 1_000_000_000
  {
  }

  /** The start of the n-th month window from the one at `start` on. */
  function MonthsOn(start: int, n: nat): int {
    if n == 0 then start else WindowOf(Month, MonthsOn(start, n - 1)).end
  }

  /** The month window that starts at the first of a month is that month. */
  lemma MonthWindowAt(y: int, m: int)
    requires 1 <= m <= 12
    ensures WindowOf(Month, FirstOf(y, m)) == Window(FirstOf(y, m), FirstOf(y, m + 1))
  {
    hide WindowOf, Edge, FirstOf, Index;
    MonthEdges(y, m);
    MonthIsAfter(y, m);
    IndexUnique(Month, FirstOf(y, m), 12 * y + m - 1);
    WindowIsBetweenEdges(Month, FirstOf(y, m));
  }

  lemma {:induction false} MonthsOfYear(y: int, n: nat)
    requires n <= 12
    ensures MonthsOn(FirstOf(y, 1), n) == FirstOf(y, n + 1)
  {
    hide WindowOf, FirstOf;
    if n > 0 {
      MonthsOfYear(y, n - 1);
      MonthWindowAt(y, n);
    }
  }

  /** A year window is the concatenation of its twelve month windows. */
  lemma YearIsTwelveMonths(now: int)
    ensures var year := WindowOf(Year, now);
            && MonthsOn(year.start, 12) == year.end
            && forall n :: 0 <= n < 12 ==>
                 WindowOf(Month, MonthsOn(year.start, n)) ==
                 Window(MonthsOn(year.start, n), MonthsOn(year.start, n + 1))
  {
    var y := YearOf(now / DAY);
    assert WindowOf(Year, now) == Window(FirstOf(y, 1), FirstOf(y + 1, 1));
    hide WindowOf, FirstOf;
    MonthsOfYear(y, 12);
    NextJanuary(y);
    forall n | 0 <= n < 12
      ensures WindowOf(Month, MonthsOn(FirstOf(y, 1), n)) ==
              Window(MonthsOn(FirstOf(y, 1), n), MonthsOn(FirstOf(y, 1), n + 1))
    {
      MonthsOfYear(y, n);
      MonthsOfYear(y, n + 1);
      MonthWindowAt(y, n + 1);
    }
  }

  lemma MonthTable(y: int, n: nat)
    requires n < 12
    ensures DaysBeforeMonth(y, n + 2) - DaysBeforeMonth(y, n + 1) ==
            if n == 1 then (if y % 4 == 0 && (y % 100 != 0 || y % 400 == 0) then 29 else 28)
            else if n == 3 || n == 5 || n == 8 || n == 10 then 30 else 31
  {
  }

  /** The n-th month window of a year, from January on, has 30 days for April, June, September
      and November, 28 or 29 for February, and 31 otherwise. */
  lemma MonthWindowDays(now: int, n: nat)
    requires n < 12
    ensures var y, w := YearOf(now / DAY), WindowOf(Month, MonthsOn(WindowOf(Year, now).start, n));
            && (n == 3 || n == 5 || n == 8 || n == 10 ==> w.end - w.start == 30 * DAY)
            && (n == 1 && y % 4 == 0 && (y % 100 != 0 || y % 400 == 0) ==> w.end - w.start == 29 * DAY)
            && (n == 1 && !(y % 4 == 0 && (y % 100 != 0 || y % 400 == 0)) ==> w.end - w.start == 28 * DAY)
            && (n !in [1, 3, 5, 8, 10] ==> w.end - w.start == 31 * DAY)
  {
    var y := YearOf(now / DAY);
    assert WindowOf(Year, now).start == FirstOf(y, 1);
    hide WindowOf, FirstOf, YearOf, MonthsOn, DaysBeforeMonth;
    MonthsOfYear(y, n);
    MonthWindowAt(y, n + 1);
    MonthIsAfter(y, n + 1);
    MonthTable(y, n);
  }

  /** 2025 starts 20089 days after the Unix epoch, and the month window of its 1 May starts
      that very day, 120 days later. */
  lemma MayStartsInMay()
    ensures YearOf(719162 + 20089) == 2025
    ensures WindowOf(Month, EPOCH + (20089 + 120) * DAY).start == EPOCH + (20089 + 120) * DAY
  {
    assert DaysBefore(2025) == 719162 + 20089 && DaysBefore(2026) > 719162 + 20089;
    DayOfYear(719162 + 20089, 2025);
    MonthWindowAt(2025, 5);
    hide WindowOf, YearOf;
    assert FirstOf(2025, 5) == EPOCH + (20089 + 120) * DAY;
  }

  /** A day is in one year only. */
  lemma DayOfYear(day: int, y: int)
    requires DaysBefore(y) <= day < DaysBefore(y + 1)
    ensures YearOf(day) == y
  {
    YearsOrdered(YearOf(day) + 1, y);
    YearsOrdered(y + 1, YearOf(day));
  }

  lemma {:induction false} YearsOrdered(a: int, b: int)
    ensures a <= b ==> DaysBefore(a) <= DaysBefore(b)
    decreases b - a
  {
    if a < b {
      hide DaysBefore;
      YearsOrdered(a, b - 1);
      YearByYear(b - 1);
    }
  }

  /** 2^24 seconds, about 194 days. From there to 2^25, longer than any window, neighbouring
      float64 values are 2^-28 seconds apart, and the last nanosecond of a second rounds up to
      the next second. Below, no whole number of nanoseconds does. */
  const COARSE_SECONDS := 16_777_216

  /** The whole part of a wait in seconds after it has been made a float64. */
  function FloatSeconds(wait: int): int {
    wait / SECOND + if wait / SECOND >= COARSE_SECONDS && wait % SECOND == SECOND - 1 then 1 else 0
  }

  /** The seconds sent back as Retry-After for a request denied at `now`. */
  function RetryAfterSeconds(p: Period, now: int): int {
    FloatSeconds(WindowOf(p, now).end - now) + 1
  }

  /** Waiting that long lands in a strictly later window, at most a second and a nanosecond
      into it: in the very next one, except for a one-second window denied on its first
      nanosecond, which skips one. */
  lemma RetryLandsLater(p: Period, now: int)
    ensures WindowOf(p, now).end < now + RetryAfterSeconds(p, now) * 1_000_000_000
            <= WindowOf(p, now).end + 1_000_000_001
    ensures var later := WindowOf(p, now + RetryAfterSeconds(p, now) * SECOND);
            && WindowOf(p, now).end <= later.start
            && (later.start == WindowOf(p, now).end <==> !(p == Second && now == WindowOf(p, now).start))
  {
    hide WindowOf;
    var w := WindowOf(p, now);
    var t := now + RetryAfterSeconds(p, now) * SECOND;
    WindowsTile(p, now, now);
    WindowLength(p, now);
    WindowLength(p, w.end);
    assert w.end < t <= w.end + SECOND + 1 && (p == Second ==> t <= w.end + SECOND);
    LaterWindow(p, now, t);
    WindowsTile(p, w.end, t);
    WindowsTile(p, t, t);
    if t < WindowOf(p, w.end).end {
      assert WindowOf(p, t) == WindowOf(p, w.end);
    }
  }

  lemma WholeSeconds(n: int)
    ensures (n * SECOND) % SECOND == 0
  {
  }

  /** Window starts are whole seconds. */
  lemma StartsOnSecond(p: Period, now: int)
    ensures WindowOf(p, now).start % SECOND == 0
  {
    hide DaysBefore, YearOf, MonthFrom, DaysBeforeMonth, IsLeap;
    match p {
      case Second => WholeSeconds(now / SECOND);
      case Minute => WholeSeconds(now / MINUTE * 60);
      case Hour => WholeSeconds(now / HOUR * 3600);
      case Day => WholeSeconds(now / DAY * 86400);
      case Week => WholeSeconds(now / WEEK * 604800);
      case Month =>
        hide WindowOf, Edge;
        MonthBetweenEdges(now);
        MidnightIsWhole(Index(Month, now) / 12, Index(Month, now) % 12 + 1);
        MonthEdges(Index(Month, now) / 12, Index(Month, now) % 12 + 1);
      case Year => MidnightIsWhole(YearOf(now / DAY), 1);
    }
  }

  lemma MidnightIsWhole(y: int, m: int)
    requires 1 <= m <= 12
    ensures FirstOf(y, m) % SECOND == 0
  {
    hide DaysBefore, DaysBeforeMonth;
    WholeSeconds((DaysBefore(y) + DaysBeforeMonth(y, m)) * 86400);
  }

  lemma EpochIsTheStartOf1970()
    ensures FirstOf(1970, 1) == EPOCH
  {
  }

  /** The Unix epoch starts a window of every period but the week; with their lengths, and
      windows tiling time, this fixes every boundary. */
  lemma EpochStartsAllButWeeks(p: Period)
    ensures WindowOf(p, EPOCH).start == EPOCH <==> p != Week
  {
    EpochIsTheStartOf1970();
    if p == Month || p == Year {
      hide WindowOf, FirstOf;
      MonthWindowAt(1970, 1);
      YearStarts(1970);
    }
  }

  lemma YearStarts(y: int)
    ensures WindowOf(Year, FirstOf(y, 1)).start == FirstOf(y, 1)
  {
    hide WindowOf, FirstOf, Index;
    EdgesIncrease(Year, y);
    IndexUnique(Year, FirstOf(y, 1), y);
    WindowIsBetweenEdges(Year, FirstOf(y, 1));
  }

  lemma WeekRemainder(q: int)
    ensures (WEEK * q + 4 * DAY) % WEEK == 4 * DAY
  {
  }

  lemma DayRemainder(q: int)
    ensures (DAY * q) % DAY == 0
  {
  }

  /** Fixed windows are anchored at year 1. Day windows, and the shorter ones, line up with
      the Unix epoch all the same; week windows never do: they start on Mondays. */
  lemma WeeksAreNotEpochAnchored(now: int)
    ensures (WindowOf(Day, now).start - EPOCH) % DAY == 0
    ensures (WindowOf(Week, now).start - EPOCH) % WEEK == 4 * DAY
  {
    DayRemainder(now / DAY - 719162);
    WeekRemainder(now / WEEK - 102738);
  }
}
