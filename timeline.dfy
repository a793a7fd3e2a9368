/** The schedule timeline of the latest generation (`src/domain/schedule/timeline.ts`):
    each day's enabled "blocked" intervals become absolute `[start, end)` windows in
    milliseconds (an overnight interval ends on the next day), sorted by start; the
    window holding `now` and the next window to start give the countdown shown to
    the user. */
module Timeline {
  import opened Base
  import opened Types
  import opened Calendar
  import opened CoreSchedule
  import DomainWeekly
  import Durations

  /** `AbsWindow`. */
  datatype Window = Window(start: int, end: int)

  predicate Holds(w: Window, now: int)
  {
    w.start <= now < w.end
  }

  /** `minutesToDate(day, minutes).getTime()`: midnight of day `z` plus `minutes`
      (minutes past 1439 roll over into later days, as `setMinutes` does). */
  function MinutesToDate(z: int, minutes: int): int
  {
    StartOfDay(z) + minutes * MS_PER_MINUTE
  }

  /** A minute of the day lands on that day, at that minute. */
  lemma MinutesToDateOnDay(z: int, minutes: int)
    requires 0 <= minutes < MINUTES_PER_DAY
    ensures DayNumber(MinutesToDate(z, minutes)) == z && MinuteOfDay(MinutesToDate(z, minutes)) == minutes
  {
    DayNumberOfStart(z, minutes, 0);
  }

  // ---------------------------------------------------------------------------
  // Windows of one day

  /** `intervals.filter(i => i.enabled && i.mode === "blocked")`, order kept. */
  function ActiveOnly(ivs: seq<Interval>): seq<Interval>
  {
    if |ivs| == 0 then []
    else (if Active(ivs[0]) then [ivs[0]] else []) + ActiveOnly(ivs[1..])
  }

  /** The filter keeps exactly the enabled "blocked" intervals. */
  lemma {:induction false} ActiveOnlyMembers(ivs: seq<Interval>, iv: Interval)
    ensures iv in ActiveOnly(ivs) <==> iv in ivs && Active(iv)
  {
    if |ivs| > 0 {
      ActiveOnlyMembers(ivs[1..], iv);
      assert ivs == [ivs[0]] + ivs[1..];
    }
  }

  /** `getBlockedIntervalsForDay`. */
  function BlockedIntervalsForDay(week: IntervalWeek, day: int): seq<Interval>
  {
    ActiveOnly(DayIntervals(week, day))
  }

  lemma BlockedIntervalsMembers(week: IntervalWeek, day: int, iv: Interval)
    ensures iv in BlockedIntervalsForDay(week, day) <==> iv in DayIntervals(week, day) && Active(iv)
  {
    ActiveOnlyMembers(DayIntervals(week, day), iv);
  }

  /** The window one interval of day `z` contributes (the loop body of `buildDayWindows`):
      none when start equals end. An interval with a time that reads as NaN also gives
      none here, where `buildDayWindows` takes its overnight branch and pushes a window
      with an invalid date as one bound. */
  function WindowOf(z: int, iv: Interval): (r: Option<Window>)
    ensures r.Some? <==> (ParseTimeToMinutes(iv.start).Some? && ParseTimeToMinutes(iv.end).Some?
                          && ParseTimeToMinutes(iv.start) != ParseTimeToMinutes(iv.end))
    ensures r.Some? ==> r.value.start == MinutesToDate(z, ParseTimeToMinutes(iv.start).value)
  {
    var s := ParseTimeToMinutes(iv.start);
    var e := ParseTimeToMinutes(iv.end);
    if s.None? || e.None? || s == e then None
    else if e.value > s.value then Some(Window(MinutesToDate(z, s.value), MinutesToDate(z, e.value)))
    else Some(Window(MinutesToDate(z, s.value), MinutesToDate(z + 1, e.value)))
  }

  /** A well-formed interval yields a window that starts on its own day at its start
      minute and ends after it starts: on the same day before midnight for a
      same-day interval, on the next day for an overnight one. */
  lemma WindowOfWellFormed(z: int, iv: Interval)
    requires ValidTime(iv.start) && ValidTime(iv.end) && Minutes(iv.start) != Minutes(iv.end)
    ensures WindowOf(z, iv).Some?
    ensures var w := WindowOf(z, iv).value;
      w.start < w.end && DayNumber(w.start) == z && MinuteOfDay(w.start) == Minutes(iv.start)
      && (Minutes(iv.start) < Minutes(iv.end) ==> w.end <= StartOfDay(z + 1))
      && (Minutes(iv.end) < Minutes(iv.start) ==> StartOfDay(z + 1) <= w.end < StartOfDay(z + 2))
  {
    MinutesToDateOnDay(z, Minutes(iv.start));
  }

  /** The windows of `ivs` in list order (the array `out` before sorting). */
  function RawWindows(z: int, ivs: seq<Interval>): (ws: seq<Window>)
    ensures |ws| <= |ivs|
  {
    if |ivs| == 0 then []
    else
      var rest := RawWindows(z, ivs[..|ivs| - 1]);
      match WindowOf(z, ivs[|ivs| - 1])
      case None => rest
      case Some(w) => rest + [w]
  }

  lemma {:induction false} RawWindowsMembers(z: int, ivs: seq<Interval>, w: Window)
    ensures w in RawWindows(z, ivs) <==> exists iv :: iv in ivs && WindowOf(z, iv) == Some(w)
  {
    if |ivs| > 0 {
      var init, last := ivs[..|ivs| - 1], ivs[|ivs| - 1];
      RawWindowsMembers(z, init, w);
      assert ivs == init + [last];
      var extra := if WindowOf(z, last).Some? then [WindowOf(z, last).value] else [];
      assert RawWindows(z, ivs) == RawWindows(z, init) + extra;
      if w in RawWindows(z, ivs) && w !in RawWindows(z, init) {
        assert last in ivs && WindowOf(z, last) == Some(w);
      }
      if exists iv :: iv in ivs && WindowOf(z, iv) == Some(w) {
        var iv :| iv in ivs && WindowOf(z, iv) == Some(w);
        if iv != last {
          assert iv in init;
        }
      }
    }
  }

  // ---------------------------------------------------------------------------
  // Sorting by start (stable, as `Array.prototype.sort` is)

  predicate SortedByStart(ws: seq<Window>)
  {
    forall i, j :: 0 <= i < j < |ws| ==> ws[i].start <= ws[j].start
  }

  /** Places `w` after every window that starts no later than it. */
  function Insert(w: Window, ws: seq<Window>): seq<Window>
  {
    if |ws| == 0 then [w]
    else if w.start < ws[0].start then [w] + ws
    else
      assert ws == [ws[0]] + ws[1..];
      [ws[0]] + Insert(w, ws[1..])
  }

  /** Inserting adds `w` and keeps every other window. */
  lemma {:induction false} InsertPermutes(w: Window, ws: seq<Window>)
    ensures multiset(Insert(w, ws)) == multiset(ws) + multiset{w}
  {
    if |ws| > 0 && w.start >= ws[0].start {
      InsertPermutes(w, ws[1..]);
      assert ws == [ws[0]] + ws[1..];
    }
  }

  lemma {:induction false} InsertSorted(w: Window, ws: seq<Window>)
    requires SortedByStart(ws)
    ensures SortedByStart(Insert(w, ws))
  {
    if |ws| > 0 && w.start >= ws[0].start {
      var tail := Insert(w, ws[1..]);
      InsertSorted(w, ws[1..]);
      InsertPermutes(w, ws[1..]);
      forall x | x in tail
        ensures ws[0].start <= x.start
      {
        assert x in multiset(tail);
        assert x in multiset(ws[1..]) || x == w;
      }
      assert Insert(w, ws) == [ws[0]] + tail;
    }
  }

  /** `windows.sort((a, b) => a.start - b.start)`: insertion sort, oldest first. */
  function SortByStart(ws: seq<Window>): seq<Window>
  {
    if |ws| == 0 then []
    else Insert(ws[|ws| - 1], SortByStart(ws[..|ws| - 1]))
  }

  /** The sort only reorders. */
  lemma {:induction false} SortByStartPermutes(ws: seq<Window>)
    ensures multiset(SortByStart(ws)) == multiset(ws)
  {
    if |ws| > 0 {
      var init, last := ws[..|ws| - 1], ws[|ws| - 1];
      SortByStartPermutes(init);
      InsertPermutes(last, SortByStart(init));
      assert ws == init + [last];
    }
  }

  /** The sort orders by start. */
  lemma {:induction false} SortByStartSorted(ws: seq<Window>)
    ensures SortedByStart(SortByStart(ws))
  {
    if |ws| > 0 {
      var init, last := ws[..|ws| - 1], ws[|ws| - 1];
      SortByStartSorted(init);
      InsertSorted(last, SortByStart(init));
    }
  }

  /** The windows of a list that start at `k`, in order. */
  function StartingAt(ws: seq<Window>, k: int): (r: seq<Window>)
  {
    if |ws| == 0 then []
    else (if ws[0].start == k then [ws[0]] else []) + StartingAt(ws[1..], k)
  }

  lemma {:induction false} StartingAtAppend(a: seq<Window>, b: seq<Window>, k: int)
    ensures StartingAt(a + b, k) == StartingAt(a, k) + StartingAt(b, k)
  {
    if |a| > 0 {
      assert (a + b)[1..] == a[1..] + b;
      StartingAtAppend(a[1..], b, k);
    } else {
      assert a + b == b;
    }
  }

  lemma StartingAtCons(x: Window, xs: seq<Window>, k: int)
    ensures StartingAt([x] + xs, k) == (if x.start == k then [x] else []) + StartingAt(xs, k)
  {
    assert ([x] + xs)[1..] == xs;
  }

  lemma {:induction false} StartingAtInsert(w: Window, ws: seq<Window>, k: int)
    requires SortedByStart(ws)
    ensures StartingAt(Insert(w, ws), k) == StartingAt(ws, k) + StartingAt([w], k)
  {
    StartingAtCons(w, [], k);
    assert [w] + [] == [w];
    if |ws| == 0 {
    } else if w.start < ws[0].start {
      StartingAtCons(w, ws, k);
      if w.start == k {
        NoneStartingAt(ws, k);
      }
    } else {
      StartingAtInsert(w, ws[1..], k);
      StartingAtCons(ws[0], Insert(w, ws[1..]), k);
      StartingAtCons(ws[0], ws[1..], k);
      assert [ws[0]] + ws[1..] == ws;
    }
  }

  /** A sorted list whose first start exceeds `k` holds nothing starting at `k`. */
  lemma {:induction false} NoneStartingAt(ws: seq<Window>, k: int)
    requires SortedByStart(ws) && |ws| > 0 && k < ws[0].start
    ensures StartingAt(ws, k) == []
  {
    if |ws| > 1 {
      NoneStartingAt(ws[1..], k);
    }
  }

  /** The sort is stable: windows with equal starts keep their relative order. */
  lemma {:induction false} SortIsStable(ws: seq<Window>, k: int)
    ensures StartingAt(SortByStart(ws), k) == StartingAt(ws, k)
  {
    if |ws| > 0 {
      var init, last := ws[..|ws| - 1], ws[|ws| - 1];
      SortIsStable(init, k);
      SortByStartSorted(init);
      StartingAtInsert(last, SortByStart(init), k);
      assert ws == init + [last];
      StartingAtAppend(init, [last], k);
    }
  }

  /** `buildDayWindows(day z)` as a value. */
  function DayWindows(z: int, week: IntervalWeek): seq<Window>
  {
    SortByStart(RawWindows(z, BlockedIntervalsForDay(week, WeekdayOfDay(z))))
  }

  lemma DayWindowsSorted(z: int, week: IntervalWeek)
    ensures SortedByStart(DayWindows(z, week))
  {
    SortByStartSorted(RawWindows(z, BlockedIntervalsForDay(week, WeekdayOfDay(z))));
  }

  /** One more interval adds its window, if any, at the end of the raw list. */
  lemma RawWindowsStep(z: int, ranges: seq<Interval>, i: nat)
    requires i < |ranges|
    ensures WindowOf(z, ranges[i]).None? ==> RawWindows(z, ranges[..i + 1]) == RawWindows(z, ranges[..i])
    ensures WindowOf(z, ranges[i]).Some? ==>
      RawWindows(z, ranges[..i + 1]) == RawWindows(z, ranges[..i]) + [WindowOf(z, ranges[i]).value]
  {
    assert ranges[..i + 1][..i] == ranges[..i];
  }

  /** The loop body of `buildDayWindows` for one interval `r` of day `z`. */
  method WindowFor(z: int, r: Interval) returns (o: Option<Window>)
    ensures o == WindowOf(z, r)
  {
    var startM := ParseTimeToMinutes(r.start);
    var endM := ParseTimeToMinutes(r.end);
    if startM.None? || endM.None? || startM == endM {
      return None;
    }
    var start := MinutesToDate(z, startM.value);
    if endM.value > startM.value {
      var end := MinutesToDate(z, endM.value);
      return Some(Window(start, end));
    } else {
      var end := MinutesToDate(z + 1, endM.value);
      return Some(Window(start, end));
    }
  }

  /** `buildDayWindows(dayStart, intervalsByDay)`. */
  method BuildDayWindows(z: int, week: IntervalWeek) returns (out: seq<Window>)
    ensures out == DayWindows(z, week)
  {
    var ranges := BlockedIntervalsForDay(week, WeekdayOfDay(z));
    out := [];
    var i := 0;
    while i < |ranges|
      invariant 0 <= i <= |ranges|
      invariant out == RawWindows(z, ranges[..i])
    {
      var o := WindowFor(z, ranges[i]);
      RawWindowsStep(z, ranges, i);
      if o.Some? {
        out := out + [o.value];
      }
      i := i + 1;
    }
    assert ranges[..i] == ranges;
    assert out == RawWindows(z, BlockedIntervalsForDay(week, WeekdayOfDay(z)));
    out := SortByStart(out);
  }

  /** Every window of a day is a member of the raw list, which the sort only reorders. */
  lemma DayWindowsMembers(z: int, week: IntervalWeek, w: Window)
    ensures w in DayWindows(z, week) <==>
      exists iv :: iv in BlockedIntervalsForDay(week, WeekdayOfDay(z)) && WindowOf(z, iv) == Some(w)
  {
    var raw := RawWindows(z, BlockedIntervalsForDay(week, WeekdayOfDay(z)));
    SortByStartPermutes(raw);
    assert w in DayWindows(z, week) <==> w in multiset(raw);
    RawWindowsMembers(z, BlockedIntervalsForDay(week, WeekdayOfDay(z)), w);
  }

  // ---------------------------------------------------------------------------
  // The current window

  /** `windows.filter(w => w.end > t)`. */
  function EndingAfter(ws: seq<Window>, t: int): (r: seq<Window>)
  {
    if |ws| == 0 then []
    else (if ws[0].end > t then [ws[0]] else []) + EndingAfter(ws[1..], t)
  }

  /** The filter keeps exactly the windows ending after `t`. */
  lemma {:induction false} EndingAfterMembers(ws: seq<Window>, t: int, w: Window)
    ensures w in EndingAfter(ws, t) <==> w in ws && w.end > t
  {
    if |ws| > 0 {
      EndingAfterMembers(ws[1..], t, w);
      assert w in ws <==> w == ws[0] || w in ws[1..];
    }
  }

  /** The windows `findCurrentWindow` scans: yesterday's that reach past `midnight`,
      then today's, sorted by start. */
  function Candidates(yesterday: seq<Window>, today: seq<Window>, midnight: int): seq<Window>
  {
    SortByStart(EndingAfter(yesterday, midnight) + today)
  }

  lemma CandidatesMembers(yesterday: seq<Window>, today: seq<Window>, midnight: int, w: Window)
    ensures w in Candidates(yesterday, today, midnight) <==> (w in yesterday && w.end > midnight) || w in today
  {
    var all := EndingAfter(yesterday, midnight) + today;
    SortByStartPermutes(all);
    assert w in Candidates(yesterday, today, midnight) <==> w in multiset(all);
    EndingAfterMembers(yesterday, midnight, w);
  }

  /** The first window of `ws` holding `now`. */
  function FirstHolding(ws: seq<Window>, now: int): (r: Option<Window>)
    ensures r.Some? ==> r.value in ws && Holds(r.value, now)
  {
    if |ws| == 0 then None
    else if Holds(ws[0], now) then Some(ws[0])
    else FirstHolding(ws[1..], now)
  }

  /** The scan finds a window exactly when some window holds `now`. */
  lemma {:induction false} FirstHoldingFinds(ws: seq<Window>, now: int, w: Window)
    requires w in ws && Holds(w, now)
    ensures FirstHolding(ws, now).Some?
  {
    if ws[0] != w {
      FirstHoldingFinds(ws[1..], now, w);
    }
  }

  /** The windows of the day before day `z`. */
  function PreviousDayWindows(z: int, week: IntervalWeek): seq<Window>
  {
    DayWindows(z - 1, week)
  }

  /** `findCurrentWindow(now, intervalsByDay)` as a value. */
  function CurrentWindow(now: int, week: IntervalWeek): (r: Option<Window>)
    ensures r.Some? ==> r.value.start <= now < r.value.end
  {
    var z := DayNumber(now);
    FirstHolding(Candidates(PreviousDayWindows(z, week), DayWindows(z, week), StartOfDay(z)), now)
  }

  /** The loop of `findCurrentWindow` over the sorted candidates. */
  method FirstHoldingScan(windows: seq<Window>, now: int) returns (r: Option<Window>)
    ensures r == FirstHolding(windows, now)
  {
    var i := 0;
    assert windows[i..] == windows;
    while i < |windows|
      invariant 0 <= i <= |windows|
      invariant FirstHolding(windows[i..], now) == FirstHolding(windows, now)
    {
      ghost var rest := windows[i..];
      assert rest[0] == windows[i] && rest[1..] == windows[i + 1..];
      if now >= windows[i].start && now < windows[i].end {
        return Some(windows[i]);
      }
      i := i + 1;
    }
    assert windows[i..] == [];
    return None;
  }

  /** `findCurrentWindow(now, intervalsByDay)`. */
  method FindCurrentWindow(now: int, week: IntervalWeek) returns (r: Option<Window>)
    ensures r == CurrentWindow(now, week)
  {
    var z := DayNumber(now);
    var today := StartOfDay(z);
    var wToday := BuildDayWindows(z, week);
    var y := z - 1;
    var wY := BuildDayWindows(y, week);
    DayBeforeWindows(z, y, week);
    var windows := SortByStart(EndingAfter(wY, today) + wToday);
    assert windows == Candidates(PreviousDayWindows(z, week), DayWindows(z, week), StartOfDay(z));
    r := FirstHoldingScan(windows, now);
  }

  // ---------------------------------------------------------------------------
  // The next window

  /** The first window of `ws` starting after `now`. */
  function FirstStartingAfter(ws: seq<Window>, now: int): (r: Option<Window>)
    ensures r.Some? ==> r.value in ws && r.value.start > now
  {
    if |ws| == 0 then None
    else if ws[0].start > now then Some(ws[0])
    else FirstStartingAfter(ws[1..], now)
  }

  /** Nothing is found exactly when every window starts at or before `now`. */
  lemma {:induction false} FirstStartingAfterNone(ws: seq<Window>, now: int)
    ensures FirstStartingAfter(ws, now).None? <==> forall w :: w in ws ==> w.start <= now
  {
    if |ws| > 0 && ws[0].start <= now {
      FirstStartingAfterNone(ws[1..], now);
      assert ws == [ws[0]] + ws[1..];
    }
  }

  /** The inner loop of `findNextWindow` over one day's windows. */
  method FirstStartingAfterScan(windows: seq<Window>, now: int) returns (r: Option<Window>)
    ensures r == FirstStartingAfter(windows, now)
  {
    var j := 0;
    assert windows[j..] == windows;
    while j < |windows|
      invariant 0 <= j <= |windows|
      invariant FirstStartingAfter(windows[j..], now) == FirstStartingAfter(windows, now)
    {
      ghost var rest := windows[j..];
      assert rest[0] == windows[j] && rest[1..] == windows[j + 1..];
      if windows[j].start > now {
        return Some(windows[j]);
      }
      j := j + 1;
    }
    assert windows[j..] == [];
    return None;
  }

  /** In a sorted list, the first window starting after `now` starts no later than any other such window. */
  lemma {:induction false} FirstStartingAfterEarliest(ws: seq<Window>, now: int, w: Window)
    requires SortedByStart(ws) && w in ws && w.start > now
    ensures FirstStartingAfter(ws, now).Some? && FirstStartingAfter(ws, now).value.start <= w.start
  {
    if ws[0].start <= now {
      assert w != ws[0];
      FirstStartingAfterEarliest(ws[1..], now, w);
    }
  }

  /** The window lists of the eight days `findNextWindow` scans, from day `base` on. */
  function ScanDays(base: int, week: IntervalWeek): (days: seq<seq<Window>>)
    ensures |days| == 8
  {
    seq(8, k => DayWindows(base + k, week))
  }

  /** The first window starting after `now`, day list by day list. */
  function NextIn(days: seq<seq<Window>>, now: int): (r: Option<Window>)
    ensures r.Some? ==> r.value.start > now
  {
    if |days| == 0 then None
    else
      match FirstStartingAfter(days[0], now)
      case Some(w) => Some(w)
      case None => NextIn(days[1..], now)
  }

  /** `findNextWindow(now, intervalsByDay)` as a value. */
  function NextWindow(now: int, week: IntervalWeek): (r: Option<Window>)
    ensures r.Some? ==> r.value.start > now
  {
    NextIn(ScanDays(DayNumber(now), week), now)
  }

  /** `findNextWindow(now, intervalsByDay)`. */
  method FindNextWindow(now: int, week: IntervalWeek) returns (r: Option<Window>)
    ensures r == NextWindow(now, week)
  {
    var base := DayNumber(now);
    ghost var days := ScanDays(base, week);
    var offset := 0;
    assert days[offset..] == days;
    while offset < 8
      invariant 0 <= offset <= 8
      invariant NextIn(days[offset..], now) == NextWindow(now, week)
    {
      var day := base + offset;
      var windows := BuildDayWindows(day, week);
      ScanDaysEntry(base, week, offset, day);
      ghost var later := days[offset..];
      assert later[0] == windows && later[1..] == days[offset + 1..];
      var found := FirstStartingAfterScan(windows, now);
      if found.Some? {
        return found;
      }
      offset := offset + 1;
    }
    assert days[offset..] == [];
    return None;
  }

  // ---------------------------------------------------------------------------
  // Well-formed schedules

  /** A window of a well-formed day starts on that day. */
  lemma DayWindowStartsThatDay(z: int, week: IntervalWeek, w: Window)
    requires DayWellFormed(week, WeekdayOfDay(z)) && w in DayWindows(z, week)
    ensures DayNumber(w.start) == z && StartOfDay(z) <= w.start < StartOfDay(z + 1)
  {
    DayWindowsMembers(z, week, w);
    var iv :| iv in BlockedIntervalsForDay(week, WeekdayOfDay(z)) && WindowOf(z, iv) == Some(w);
    BlockedIntervalsMembers(week, WeekdayOfDay(z), iv);
    WindowOfWellFormed(z, iv);
  }

  /** Day lists each sorted by start, every window of an earlier list starting before
      every window of a later one. */
  predicate DaysInOrder(days: seq<seq<Window>>)
  {
    (forall i :: 0 <= i < |days| ==> SortedByStart(days[i]))
    && forall i, j, a, b :: 0 <= i < j < |days| && a in days[i] && b in days[j] ==> a.start < b.start
  }

  lemma DaysInOrderTail(days: seq<seq<Window>>)
    requires DaysInOrder(days) && |days| > 0
    ensures DaysInOrder(days[1..])
  {
    var tail := days[1..];
    forall i | 0 <= i < |tail|
      ensures SortedByStart(tail[i])
    {
      assert tail[i] == days[i + 1];
    }
    forall i: int, j: int, a: Window, b: Window | 0 <= i < j < |tail| && a in tail[i] && b in tail[j]
      ensures a.start < b.start
    {
      assert tail[i] == days[i + 1] && tail[j] == days[j + 1];
    }
  }

  /** Over day lists in order, the scan returns a window starting no later than any
      window that starts after `now`. */
  lemma {:induction false} NextInEarliest(days: seq<seq<Window>>, now: int, k: nat, w: Window)
    requires DaysInOrder(days) && k < |days| && w in days[k] && w.start > now
    ensures NextIn(days, now).Some? && NextIn(days, now).value.start <= w.start
  {
    if k == 0 {
      FirstStartingAfterEarliest(days[0], now, w);
    } else {
      match FirstStartingAfter(days[0], now)
      case Some(v) =>
        assert v in days[0] && w in days[k];
      case None =>
        assert days[1..][k - 1] == days[k];
        DaysInOrderTail(days);
        NextInEarliest(days[1..], now, k - 1, w);
    }
  }

  /** Entry `k` of the scan holds the windows of day `d`, `k` days after `base`. */
  lemma ScanDaysEntry(base: int, week: IntervalWeek, k: int, d: int)
    requires 0 <= k < 8 && d == base + k
    ensures ScanDays(base, week)[k] == DayWindows(d, week)
  {
  }

  lemma ScanDaysPair(base: int, week: IntervalWeek, i: int, j: int, a: Window, b: Window)
    requires 0 <= i < j < 8 && a in ScanDays(base, week)[i] && b in ScanDays(base, week)[j]
    requires forall d :: 0 <= d < 7 ==> DayWellFormed(week, d)
    ensures a.start < b.start
  {
    var di, dj := base + i, base + j;
    ScanDaysEntry(base, week, i, di);
    ScanDaysEntry(base, week, j, dj);
    DayWindowsBefore(di, dj, week, a, b);
  }

  /** The eight days of a well-formed schedule are in order. */
  lemma ScanDaysInOrder(base: int, week: IntervalWeek)
    requires forall d :: 0 <= d < 7 ==> DayWellFormed(week, d)
    ensures DaysInOrder(ScanDays(base, week))
  {
    var days := ScanDays(base, week);
    forall i | 0 <= i < |days|
      ensures SortedByStart(days[i])
    {
      var d := base + i;
      ScanDaysEntry(base, week, i, d);
      DayWindowsSorted(d, week);
    }
    forall i: int, j: int, a: Window, b: Window | 0 <= i < j < |days| && a in days[i] && b in days[j]
      ensures a.start < b.start
    {
      ScanDaysPair(base, week, i, j, a, b);
    }
  }

  lemma DayWindowsBefore(d1: int, d2: int, week: IntervalWeek, a: Window, b: Window)
    requires d1 < d2 && a in DayWindows(d1, week) && b in DayWindows(d2, week)
    requires forall d :: 0 <= d < 7 ==> DayWellFormed(week, d)
    ensures a.start < b.start
  {
    DayWindowStartsThatDay(d1, week, a);
    DayWindowStartsThatDay(d2, week, b);
  }

  lemma SameDayWindows(a: int, b: int, week: IntervalWeek)
    requires a == b
    ensures DayWindows(a, week) == DayWindows(b, week)
  {
  }

  lemma DayBeforeWindows(z: int, y: int, week: IntervalWeek)
    requires y == z - 1
    ensures PreviousDayWindows(z, week) == DayWindows(y, week)
  {
  }

  /** With a well-formed schedule, the next window starts no later than any window
      starting after `now` on the eight days scanned, today included. */
  lemma NextWindowEarliest(now: int, week: IntervalWeek, day: int, w: Window)
    requires DayNumber(now) <= day < DayNumber(now) + 8 && w in DayWindows(day, week) && w.start > now
    requires forall d :: 0 <= d < 7 ==> DayWellFormed(week, d)
    ensures NextWindow(now, week).Some? && NextWindow(now, week).value.start <= w.start
  {
    var base := DayNumber(now);
    var days := ScanDays(base, week);
    var k := day - base;
    ScanDaysEntry(base, week, k, day);
    ScanDaysInOrder(base, week);
    NextInEarliest(days, now, k, w);
  }

  /** A window of day `z` holds an instant of that day exactly when its interval covers
      the instant's minute on its own day. */
  lemma TodayWindowHolds(z: int, iv: Interval, now: int)
    requires DayNumber(now) == z && Active(iv) && ValidTime(iv.start) && ValidTime(iv.end)
    ensures (WindowOf(z, iv).Some? && Holds(WindowOf(z, iv).value, now)) <==> CoversOwnDay(iv, MinuteOfDay(now))
  {
    var m := MinuteOfDay(now);
    assert now == StartOfDay(z) + m * MS_PER_MINUTE + now % MS_PER_MINUTE;
  }

  /** A window of day `z - 1` reaching past midnight holds an instant of day `z`
      exactly when its interval spills onto the instant's minute. */
  lemma YesterdayWindowHolds(z: int, iv: Interval, now: int)
    requires DayNumber(now) == z && Active(iv) && ValidTime(iv.start) && ValidTime(iv.end)
    ensures (WindowOf(z - 1, iv).Some? && WindowOf(z - 1, iv).value.end > StartOfDay(z)
             && Holds(WindowOf(z - 1, iv).value, now)) <==> CoversNextDay(iv, MinuteOfDay(now))
  {
    var m := MinuteOfDay(now);
    assert now == StartOfDay(z) + m * MS_PER_MINUTE + now % MS_PER_MINUTE;
  }

  /** A window of `now`'s day holds `now`. */
  predicate HeldToday(now: int, week: IntervalWeek)
  {
    exists w :: w in DayWindows(DayNumber(now), week) && Holds(w, now)
  }

  /** A window of the day before reaching past midnight holds `now`. */
  predicate HeldFromYesterday(now: int, week: IntervalWeek)
  {
    var z := DayNumber(now);
    exists w :: w in PreviousDayWindows(z, week) && w.end > StartOfDay(z) && Holds(w, now)
  }

  /** The intervals of the day before `now` are those of the weekday before `now`'s. */
  lemma PreviousWeekdayIntervals(now: int, week: IntervalWeek)
    ensures DayIntervals(week, WeekdayOfDay(DayNumber(now) - 1)) == DayIntervals(week, (Weekday(now) + 6) % 7)
  {
    WeekdayNext(DayNumber(now));
  }

  /** Some window of day `z` holds `now` exactly when one of the day's intervals
      `ivs` covers `now`'s minute on its own day. */
  lemma TodayHolds(now: int, week: IntervalWeek)
    requires DayWellFormed(week, Weekday(now))
    ensures HeldToday(now, week) <==> SomeCoversOwnDay(DayIntervals(week, Weekday(now)), MinuteOfDay(now))
  {
    var z, m, ivs := DayNumber(now), MinuteOfDay(now), DayIntervals(week, Weekday(now));
    if exists w :: w in DayWindows(z, week) && Holds(w, now) {
      var w :| w in DayWindows(z, week) && Holds(w, now);
      DayWindowsMembers(z, week, w);
      var iv :| iv in BlockedIntervalsForDay(week, WeekdayOfDay(z)) && WindowOf(z, iv) == Some(w);
      BlockedIntervalsMembers(week, WeekdayOfDay(z), iv);
      TodayWindowHolds(z, iv, now);
    }
    if exists iv :: iv in ivs && CoversOwnDay(iv, m) {
      var iv :| iv in ivs && CoversOwnDay(iv, m);
      TodayWindowHolds(z, iv, now);
      BlockedIntervalsMembers(week, WeekdayOfDay(z), iv);
      DayWindowsMembers(z, week, WindowOf(z, iv).value);
    }
  }

  /** Some window of the day before day `z` reaching past midnight holds `now` exactly
      when one of that day's intervals `ivs` spills onto `now`'s minute. */
  lemma YesterdayHolds(now: int, week: IntervalWeek)
    requires DayWellFormed(week, (Weekday(now) + 6) % 7)
    ensures HeldFromYesterday(now, week) <==> SomeCoversNextDay(DayIntervals(week, (Weekday(now) + 6) % 7), MinuteOfDay(now))
  {
    var z := DayNumber(now);
    if HeldFromYesterday(now, week) {
      var w :| w in PreviousDayWindows(z, week) && w.end > StartOfDay(z) && Holds(w, now);
      YesterdayWindowCovers(now, week, w);
    }
    if SomeCoversNextDay(DayIntervals(week, (Weekday(now) + 6) % 7), MinuteOfDay(now)) {
      var iv :| iv in DayIntervals(week, (Weekday(now) + 6) % 7) && CoversNextDay(iv, MinuteOfDay(now));
      YesterdayCoverHolds(now, week, iv);
    }
  }

  /** A window of the day before comes from one of that day's active intervals. */
  lemma PreviousWindowInterval(z: int, y: int, week: IntervalWeek, w: Window)
    requires y == z - 1 && w in PreviousDayWindows(z, week)
    ensures exists iv :: iv in BlockedIntervalsForDay(week, WeekdayOfDay(y)) && WindowOf(y, iv) == Some(w)
  {
    DayBeforeWindows(z, y, week);
    DayWindowsMembers(y, week, w);
  }

  /** The active intervals of the day before `now` are active intervals of the weekday before. */
  lemma PreviousDayInterval(now: int, y: int, week: IntervalWeek, iv: Interval)
    requires y == DayNumber(now) - 1 && iv in BlockedIntervalsForDay(week, WeekdayOfDay(y))
    ensures iv in DayIntervals(week, (Weekday(now) + 6) % 7) && Active(iv)
  {
    PreviousWeekdayIntervals(now, week);
    BlockedIntervalsMembers(week, WeekdayOfDay(y), iv);
  }

  lemma YesterdayWindowCovers(now: int, week: IntervalWeek, w: Window)
    requires DayWellFormed(week, (Weekday(now) + 6) % 7)
    requires w in PreviousDayWindows(DayNumber(now), week) && w.end > StartOfDay(DayNumber(now)) && Holds(w, now)
    ensures SomeCoversNextDay(DayIntervals(week, (Weekday(now) + 6) % 7), MinuteOfDay(now))
  {
    var z := DayNumber(now);
    var y := z - 1;
    PreviousWindowInterval(z, y, week, w);
    var iv :| iv in BlockedIntervalsForDay(week, WeekdayOfDay(y)) && WindowOf(y, iv) == Some(w);
    PreviousDayInterval(now, y, week, iv);
    YesterdayWindowHolds(z, iv, now);
  }

  lemma YesterdayCoverHolds(now: int, week: IntervalWeek, iv: Interval)
    requires DayWellFormed(week, (Weekday(now) + 6) % 7)
    requires iv in DayIntervals(week, (Weekday(now) + 6) % 7) && CoversNextDay(iv, MinuteOfDay(now))
    ensures HeldFromYesterday(now, week)
  {
    var z := DayNumber(now);
    var y := z - 1;
    PreviousWeekdayIntervals(now, week);
    assert iv in DayIntervals(week, WeekdayOfDay(y)) && Active(iv);
    BlockedIntervalsMembers(week, WeekdayOfDay(y), iv);
    YesterdayWindowHolds(z, iv, now);
    var w := WindowOf(y, iv).value;
    DayWindowsMembers(y, week, w);
    DayBeforeWindows(z, y, week);
    assert w in PreviousDayWindows(z, week) && w.end > StartOfDay(z) && Holds(w, now);
  }

  /** A current window exists exactly when a window of yesterday reaching past midnight,
      or a window of today, holds `now`. */
  lemma CurrentWindowFound(now: int, week: IntervalWeek)
    ensures CurrentWindow(now, week).Some? <==> HeldFromYesterday(now, week) || HeldToday(now, week)
  {
    var z := DayNumber(now);
    var yesterday, today, midnight := PreviousDayWindows(z, week), DayWindows(z, week), StartOfDay(z);
    if CurrentWindow(now, week).Some? {
      CandidatesMembers(yesterday, today, midnight, CurrentWindow(now, week).value);
    }
    if exists w :: (w in yesterday && w.end > midnight && Holds(w, now)) || (w in today && Holds(w, now)) {
      var w :| (w in yesterday && w.end > midnight && Holds(w, now)) || (w in today && Holds(w, now));
      CandidatesMembers(yesterday, today, midnight, w);
      FirstHoldingFinds(Candidates(yesterday, today, midnight), now, w);
    }
  }

  /** The windows hold `now` exactly when the intervals block its weekday and minute. */
  lemma HeldExactlyWhenBlocked(now: int, week: IntervalWeek)
    requires DayWellFormed(week, Weekday(now)) && DayWellFormed(week, (Weekday(now) + 6) % 7)
    ensures HeldFromYesterday(now, week) || HeldToday(now, week) <==> BlockedAt(Weekday(now), MinuteOfDay(now), week)
  {
    HeldExactlyWhenCovered(now, week);
    BlockedNowCharacterised(now, week);
  }

  lemma BlockedNowCharacterised(now: int, week: IntervalWeek)
    requires DayWellFormed(week, Weekday(now)) && DayWellFormed(week, (Weekday(now) + 6) % 7)
    ensures BlockedAt(Weekday(now), MinuteOfDay(now), week) <==>
      SomeCoversOwnDay(DayIntervals(week, Weekday(now)), MinuteOfDay(now))
      || SomeCoversNextDay(DayIntervals(week, (Weekday(now) + 6) % 7), MinuteOfDay(now))
  {
    var d, m := Weekday(now), MinuteOfDay(now);
    BlockedAtCharacterised(d, m, week);
  }

  lemma HeldExactlyWhenCovered(now: int, week: IntervalWeek)
    requires DayWellFormed(week, Weekday(now)) && DayWellFormed(week, (Weekday(now) + 6) % 7)
    ensures HeldFromYesterday(now, week) || HeldToday(now, week) <==>
      SomeCoversOwnDay(DayIntervals(week, Weekday(now)), MinuteOfDay(now))
      || SomeCoversNextDay(DayIntervals(week, (Weekday(now) + 6) % 7), MinuteOfDay(now))
  {
    TodayHolds(now, week);
    YesterdayHolds(now, week);
  }

  /** The timeline and the blocking decision agree: with well-formed times on the
      current and the previous weekday, a current window exists exactly when
      `isWithinBlockedSchedule` reports the instant as blocked. */
  lemma CurrentWindowMatchesSchedule(now: int, week: IntervalWeek)
    requires DayWellFormed(week, Weekday(now)) && DayWellFormed(week, (Weekday(now) + 6) % 7)
    ensures CurrentWindow(now, week).Some? <==> IsWithinBlockedSchedule(now, week)
  {
    CurrentWindowFound(now, week);
    HeldExactlyWhenBlocked(now, week);
  }

  // ---------------------------------------------------------------------------
  // The timeline

  datatype TimelineState = StateBlocked | StateFree

  datatype TimelineReason = ByManual | BySchedule | ByTemporaryUnblock | ByScheduleFree | ByWeeklyUnblock

  /** `ScheduleTimeline`: the state, why it holds, and the instants it changes at. */
  datatype ScheduleTimeline = ScheduleTimeline(
    state: TimelineState,
    reason: TimelineReason,
    currentUntil: Option<int>,
    nextChangeAt: Option<int>,
    nextBlockStart: Option<int>,
    nextBlockEnd: Option<int>)

  /** `computeScheduleTimeline(settings, now)`. */
  function ComputeScheduleTimeline(s: Settings, now: int): (t: ScheduleTimeline)
    ensures t.currentUntil == t.nextChangeAt
    ensures t.state == StateBlocked <==> t.reason == ByManual || t.reason == BySchedule
    ensures t.state == StateBlocked ==> t.nextBlockStart.None? && t.nextBlockEnd.None?
    ensures s.blockEnabled <==> t.reason == ByManual || t.reason == ByWeeklyUnblock
    ensures t.currentUntil.Some? ==> t.currentUntil.value > now
    ensures t.reason == ByManual ==> t.currentUntil.None?
    ensures t.reason == ByTemporaryUnblock ==>
      t.currentUntil.Some? && t.nextBlockEnd.Some? && t.currentUntil.value <= t.nextBlockEnd.value
      && t.nextBlockStart == t.currentUntil
  {
    if s.blockEnabled then
      if DomainWeekly.IsWeeklySessionActive(s, now) then
        var until := s.weeklyUnblockUntil;
        ScheduleTimeline(StateFree, ByWeeklyUnblock, until, until, until, None)
      else
        ScheduleTimeline(StateBlocked, ByManual, None, None, None, None)
    else
      match CurrentWindow(now, s.intervalsByDay)
      case Some(current) =>
        if TemporaryUnblockActive(s.strictMode, s.unblockUntil, now) then
          var freeUntil := Min(s.unblockUntil.value, current.end);
          ScheduleTimeline(StateFree, ByTemporaryUnblock, Some(freeUntil), Some(freeUntil), Some(freeUntil), Some(current.end))
        else
          ScheduleTimeline(StateBlocked, BySchedule, Some(current.end), Some(current.end), None, None)
      case None =>
        match NextWindow(now, s.intervalsByDay)
        case Some(next) =>
          ScheduleTimeline(StateFree, ByScheduleFree, Some(next.start), Some(next.start), Some(next.start), Some(next.end))
        case None =>
          ScheduleTimeline(StateFree, ByScheduleFree, None, None, None, None)
  }

  /** Every weekday's intervals have well-formed times. */
  predicate WeekWellFormed(week: IntervalWeek)
  {
    forall d :: 0 <= d < 7 ==> DayWellFormed(week, d)
  }

  /** With `blockEnabled` off, the timeline blocks for the schedule exactly when
      `isWithinBlockedSchedule` does and no temporary unblock runs, and it reports a
      temporary unblock exactly when one runs inside a blocked stretch. */
  lemma TimelineFollowsSchedule(s: Settings, now: int)
    requires !s.blockEnabled && WeekWellFormed(s.intervalsByDay)
    ensures ComputeScheduleTimeline(s, now).reason == BySchedule <==>
      IsWithinBlockedSchedule(now, s.intervalsByDay) && !TemporaryUnblockActive(s.strictMode, s.unblockUntil, now)
    ensures ComputeScheduleTimeline(s, now).reason == ByTemporaryUnblock <==>
      IsWithinBlockedSchedule(now, s.intervalsByDay) && TemporaryUnblockActive(s.strictMode, s.unblockUntil, now)
    ensures ComputeScheduleTimeline(s, now).reason == ByScheduleFree <==> !IsWithinBlockedSchedule(now, s.intervalsByDay)
  {
    var week := s.intervalsByDay;
    assert DayWellFormed(week, Weekday(now)) && DayWellFormed(week, (Weekday(now) + 6) % 7);
    CurrentWindowMatchesSchedule(now, week);
  }

  /** With `blockEnabled` on, the timeline is free exactly while a weekly session runs,
      and then until the session's end. */
  lemma TimelineUnderManualBlock(s: Settings, now: int)
    requires s.blockEnabled
    ensures ComputeScheduleTimeline(s, now).state == StateFree <==> DomainWeekly.IsWeeklySessionActive(s, now)
    ensures DomainWeekly.IsWeeklySessionActive(s, now) ==>
      ComputeScheduleTimeline(s, now).currentUntil == s.weeklyUnblockUntil
      && ComputeScheduleTimeline(s, now).nextBlockStart == s.weeklyUnblockUntil
      && ComputeScheduleTimeline(s, now).nextBlockEnd.None?
  {
  }

  /** Outside every window, the announced next block is no later than any window of
      the eight scanned days that starts after `now`. */
  lemma ScheduleFreeAnnouncesEarliest(s: Settings, now: int, day: int, w: Window)
    requires !s.blockEnabled && WeekWellFormed(s.intervalsByDay)
    requires CurrentWindow(now, s.intervalsByDay).None?
    requires DayNumber(now) <= day < DayNumber(now) + 8 && w in DayWindows(day, s.intervalsByDay) && w.start > now
    ensures ComputeScheduleTimeline(s, now).nextBlockStart.Some?
    ensures ComputeScheduleTimeline(s, now).nextBlockStart.value <= w.start
  {
    NextWindowEarliest(now, s.intervalsByDay, day, w);
  }

  /** `formatDuration(ms)`: whole seconds, negatives shown as zero, "H:MM:SS" from an
      hour on and "M:SS" below. */
  function FormatDuration(ms: int): (r: string)
    ensures Durations.ReadHms(r) == Some(Max(0, ms / 1000) as nat)
  {
    var n := Max(0, ms / 1000) as nat;
    Durations.FormatHmsReadBack(n);
    Durations.FormatHms(n)
  }
}
