/** The metrics summary of the dashboard page (`src/ui/dashboard/main.tsx`):
    the day keys of the last `count` days, the sums of a per-day metric over
    such a window, and the week-over-week change shown beside each sum. The
    clock reading `new Date()` is the parameter `now`, an instant in the
    local calendar of module `Calendar`. */
module Dashboard {
  import opened Base
  import opened Calendar
  import BackgroundMetrics

  // ---------------------------------------------------------------------------
  // Recent days

  /** The key of the day `i` days before the one holding `now`
      (`d.setDate(now.getDate() - i)` followed by `getDayKey(d)`, the same
      `toISOString` key the background metrics use). */
  function DaysBeforeKey(now: int, i: int): string
  {
    BackgroundMetrics.DayKey(now - i * MS_PER_DAY)
  }

  /** What `getRecentDays(count)` returns: today first, then each earlier day. */
  function RecentDays(count: int, now: int): seq<string>
  {
    seq(Max(count, 0), i => DaysBeforeKey(now, i))
  }

  /** Going back `i` whole days lands on the day `i` before. */
  lemma DayNumberBack(now: int, i: int)
    ensures DayNumber(now - i * MS_PER_DAY) == DayNumber(now) - i
  {
    var r := now % MS_PER_DAY;
    assert now == DayNumber(now) * MS_PER_DAY + r;
    assert now - i * MS_PER_DAY == (DayNumber(now) - i) * MS_PER_DAY + r;
  }

  /** `getRecentDays(count)`: the loop pushes one key per day, today first. */
  method GetRecentDays(count: int, now: int) returns (days: seq<string>)
    ensures days == RecentDays(count, now)
    ensures |days| == Max(count, 0)
  {
    days := [];
    var i := 0;
    while i < count
      invariant 0 <= i <= Max(count, 0)
      invariant days == RecentDays(i, now)
    {
      assert RecentDays(i + 1, now) == RecentDays(i, now) + [DaysBeforeKey(now, i)];
      days := days + [DaysBeforeKey(now, i)];
      i := i + 1;
    }
  }

  /** The `i`-th day of the window is the day `i` days before today. */
  lemma RecentDaysAreDaysBefore(count: int, now: int)
    ensures |RecentDays(count, now)| == Max(count, 0)
    ensures forall i :: 0 <= i < |RecentDays(count, now)| ==>
      RecentDays(count, now)[i] == BackgroundMetrics.DayKey(StartOfDay(DayNumber(now) - i))
  {
    var days := RecentDays(count, now);
    forall i | 0 <= i < |days|
      ensures days[i] == BackgroundMetrics.DayKey(StartOfDay(DayNumber(now) - i))
    {
      DayNumberBack(now, i);
      BackgroundMetrics.DayKeySameDay(now - i * MS_PER_DAY, StartOfDay(DayNumber(now) - i));
    }
  }

  /** The window holds different days, so no day is counted twice in a sum. */
  lemma RecentDaysDistinct(count: int, now: int)
    ensures Distinct(RecentDays(count, now))
  {
    var days := RecentDays(count, now);
    forall i, j | 0 <= i < j < |days|
      ensures days[i] != days[j]
    {
      DayNumberBack(now, i);
      DayNumberBack(now, j);
      BackgroundMetrics.DayKeySameDay(now - i * MS_PER_DAY, now - j * MS_PER_DAY);
    }
  }

  /** `getRecentDays(14)` starts with `getRecentDays(7)`, and its
      `.slice(7)` is the seven days a week before: the two weeks compared on
      the dashboard follow each other and share no day. */
  lemma TwoWeeks(now: int)
    ensures RecentDays(14, now)[..7] == RecentDays(7, now)
    ensures RecentDays(14, now)[7..] == RecentDays(7, now - 7 * MS_PER_DAY)
    ensures forall d :: d in RecentDays(7, now) ==> d !in RecentDays(14, now)[7..]
  {
    var fortnight := RecentDays(14, now);
    var earlier := RecentDays(7, now - 7 * MS_PER_DAY);
    forall k | 0 <= k < 7
      ensures fortnight[7 + k] == earlier[k]
    {
      assert now - (7 + k) * MS_PER_DAY == (now - 7 * MS_PER_DAY) - k * MS_PER_DAY;
    }
    RecentDaysDistinct(14, now);
  }

  // ---------------------------------------------------------------------------
  // Sums over a window

  /** `keys.reduce((acc, key) => acc + (byDay[key] || 0), 0)`. */
  function WindowSum(keys: seq<string>, byDay: map<string, int>): int
    decreases |keys|
  {
    if |keys| == 0 then 0
    else WindowSum(keys[..|keys| - 1], byDay) + (if keys[|keys| - 1] in byDay then byDay[keys[|keys| - 1]] else 0)
  }

  /** Summing a window in two pieces gives the sum of the whole window. */
  lemma {:induction false} WindowSumAppend(a: seq<string>, b: seq<string>, byDay: map<string, int>)
    ensures WindowSum(a + b, byDay) == WindowSum(a, byDay) + WindowSum(b, byDay)
    decreases |b|
  {
    if |b| == 0 {
      assert a + b == a;
    } else {
      var init := b[..|b| - 1];
      assert (a + b)[..|a + b| - 1] == a + init;
      WindowSumAppend(a, init, byDay);
    }
  }

  /** The sums of a metric over this week and the week before add up to
      its sum over the last fourteen days. */
  lemma FortnightSplits(now: int, byDay: map<string, int>)
    ensures WindowSum(RecentDays(14, now), byDay)
      == WindowSum(RecentDays(7, now), byDay) + WindowSum(RecentDays(7, now - 7 * MS_PER_DAY), byDay)
  {
    var fortnight := RecentDays(14, now);
    TwoWeeks(now);
    assert fortnight == fortnight[..7] + fortnight[7..];
    WindowSumAppend(fortnight[..7], fortnight[7..], byDay);
  }

  // ---------------------------------------------------------------------------
  // Week-over-week change

  /** `deltaClass(current, previous)`: the colour of the change label. */
  function DeltaClass(current: int, previous: int): string
  {
    if previous == 0 then (if current == 0 then "neutral" else "positive")
    else if current == previous then "neutral"
    else if current > previous then "positive"
    else "negative"
  }

  /** For the counts and durations the page sums, which are never negative,
      the class says whether the metric went up, down or stayed. */
  lemma DeltaClassMeaning(current: int, previous: int)
    requires current >= 0 && previous >= 0
    ensures DeltaClass(current, previous) == "positive" <==> current > previous
    ensures DeltaClass(current, previous) == "negative" <==> current < previous
    ensures DeltaClass(current, previous) == "neutral" <==> current == previous
  {
  }

  /** The integer nearest to `x`, halves rounded up, as `toFixed(0)` picks it. */
  function RoundHalfUp(x: real): (n: nat)
    requires x >= 0.0
    ensures x - 0.5 < n as real <= x + 0.5
  {
    (x + 0.5).Floor
  }

  /** `x.toFixed(0)`: the sign of a negative number, then its magnitude
      rounded, so that a value just below zero prints as "-0". */
  function ToFixed0(x: real): string
  {
    if x < 0.0 then "-" + NatToString(RoundHalfUp(-x)) else NatToString(RoundHalfUp(x))
  }

  /** `percentDelta(current, previous)`: the relative change in percent,
      with "+" before a rise, "+100%" when the previous week was empty. */
  function PercentDelta(current: int, previous: int): string
  {
    if previous == 0 then (if current == 0 then "0%" else "+100%")
    else
      var delta := (current - previous) as real / previous as real * 100.0;
      (if delta > 0.0 then "+" else "") + ToFixed0(delta) + "%"
  }

  /** The label starts with "+" exactly on a rise and with "-" exactly on a
      fall, and reads "0%" exactly when nothing changed. */
  lemma PercentDeltaSign(current: int, previous: int)
    requires current >= 0 && previous >= 0
    ensures var r := PercentDelta(current, previous);
      |r| >= 2 && r[|r| - 1] == '%'
      && (r[0] == '+' <==> current > previous)
      && (r[0] == '-' <==> current < previous)
      && (r == "0%" <==> current == previous)
  {
    if previous > 0 {
      var change := (current - previous) as real / previous as real * 100.0;
      assert change > 0.0 <==> current > previous;
      assert change < 0.0 <==> current < previous;
      if change == 0.0 {
        assert RoundHalfUp(change) == 0;
      }
    }
  }

  /** After a week with something in it, the digits of the label are the
      change in percent rounded to the nearest whole number. */
  lemma PercentDeltaRounded(current: int, previous: int)
    requires current >= 0 && previous > 0
    ensures var r := PercentDelta(current, previous);
      var change := (current - previous) as real / previous as real * 100.0;
      var size := if change < 0.0 then -change else change;
      |r| >= 2 && exists n: nat ::
        r[if change == 0.0 then 0 else 1..|r| - 1] == NatToString(n)
        && size - 0.5 < n as real <= size + 0.5
  {
    var r := PercentDelta(current, previous);
    var change := (current - previous) as real / previous as real * 100.0;
    var size := if change < 0.0 then -change else change;
    var n := RoundHalfUp(size);
    var digits := NatToString(n);
    if change > 0.0 {
      assert r == "+" + digits + "%";
      assert r[1..|r| - 1] == digits;
    } else if change < 0.0 {
      assert r == "-" + digits + "%";
      assert r[1..|r| - 1] == digits;
    } else {
      assert r == digits + "%";
      assert r[0..|r| - 1] == digits;
    }
  }
}
