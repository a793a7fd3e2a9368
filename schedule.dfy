/** The blocking schedule (`src/core/schedule.ts`): "HH:MM" parsing and the
    two-pass test of an instant against the intervals of its weekday and the
    overnight spill of the previous weekday. A parsed time is an `Option<int>`
    whose `None` is JavaScript's NaN; every comparison with NaN is false. */
module CoreSchedule {
  import opened Base
  import opened Types
  import opened Calendar

  /** `const [h, m] = value.split(":").map(Number)`, then 0 when either part is NaN.
      Without a ':' the minute part is `undefined`, which `Number.isNaN` does not
      flag, so a numeric hour alone yields `h * 60 + undefined`, that is NaN. */
  function ParseTimeToMinutes(value: string): Option<int>
  {
    var parts := Split(value, ':');
    var h := JsNumber(parts[0]);
    if |parts| == 1 then
      if h.None? then Some(0) else None
    else
      var m := JsNumber(parts[1]);
      if h.None? || m.None? then Some(0) else Some(h.value * 60 + m.value)
  }

  /** The time is NaN exactly when it holds no ':' and reads as a number on its own. */
  lemma ParseTimeNaN(value: string)
    ensures ParseTimeToMinutes(value).None? <==> (!Contains(value, ":") && IsIntLiteral(value))
  {
    if |Split(value, ':')| == 1 {
      SplitSingle(value);
    } else {
      SplitSeveral(value);
    }
  }

  lemma SplitSingle(value: string)
    requires |Split(value, ':')| == 1
    ensures Split(value, ':') == [value] && !Contains(value, ":")
  {
    assert IndexOfChar(value, ':').None?;
    ContainsAt(value, ":");
    forall i | 0 <= i <= |value| - 1
      ensures !StartsWith(value[i..], ":")
    {
      assert value[i] != ':';
    }
  }

  lemma SplitSeveral(value: string)
    requires |Split(value, ':')| > 1
    ensures Contains(value, ":")
  {
    var k := IndexOfChar(value, ':');
    assert k.Some?;
    ContainsSlice(value, k.value, k.value + 1);
    assert value[k.value..k.value + 1] == ":";
  }

  /** The time string "HH:MM" with both parts zero-padded to two digits. */
  function Clock(h: nat, m: nat): (s: string)
    requires h < 100 && m < 100
    ensures |s| == 5 && s[2] == ':'
  {
    Pad2(h) + ":" + Pad2(m)
  }

  /** "HH:MM" with two-digit parts reads as `60 * HH + MM`. */
  lemma {:induction false} ParseTwoDigitTime(h: nat, m: nat)
    requires h < 100 && m < 100
    ensures ParseTimeToMinutes(Clock(h, m)) == Some(60 * h + m)
  {
    var s := Pad2(h) + ":" + Pad2(m);
    assert forall k :: 0 <= k < |Pad2(h)| ==> Pad2(h)[k] != ':';
    SplitJoin(Pad2(h), ':', Pad2(m));
    assert Pad2(h) + [':'] + Pad2(m) == s;
    SplitNoSep(Pad2(m), ':');
    assert Split(s, ':') == [Pad2(h), Pad2(m)];
    Pad2Value(h);
    Pad2Value(m);
  }

  /** `parseTimeToMinutes("01:30") === 90`. */
  lemma ParseExample()
    ensures ParseTimeToMinutes("01:30") == Some(90)
  {
    ParseTwoDigitTime(1, 30);
    assert Clock(1, 30) == "01:30";
  }

  /** A part that is not a number makes the whole time 0 once a ':' is present. */
  lemma ParseNonNumberIsZero(a: string, b: string)
    requires forall k :: 0 <= k < |a| ==> a[k] != ':'
    requires !IsIntLiteral(a) || !IsIntLiteral(Split(b, ':')[0])
    ensures ParseTimeToMinutes(a + ":" + b) == Some(0)
  {
    SplitJoin(a, ':', b);
    assert a + [':'] + b == a + ":" + b;
    var parts := Split(a + ":" + b, ':');
    assert |parts| > 1 && parts[0] == a && parts[1] == Split(b, ':')[0];
    assert JsNumber(parts[0]).None? || JsNumber(parts[1]).None?;
  }

  // ---------------------------------------------------------------------------
  // Comparisons where NaN compares false

  predicate Lt(x: Option<int>, y: Option<int>) { x.Some? && y.Some? && x.value < y.value }
  predicate Eq(x: Option<int>, y: Option<int>) { x.Some? && y.Some? && x.value == y.value }

  /** An interval that can block at all: enabled and in "blocked" mode. */
  predicate Active(iv: Interval)
  {
    iv.enabled && iv.mode == Blocked
  }

  /** The first pass: does `iv`, listed on the current weekday, cover minute `m`? */
  predicate CoversToday(iv: Interval, m: int)
  {
    var s := ParseTimeToMinutes(iv.start);
    var e := ParseTimeToMinutes(iv.end);
    Active(iv) && !Eq(s, e) &&
    (if Lt(s, e) then s.value <= m < e.value else Lt(s, Some(m)) || Eq(s, Some(m)))
  }

  /** The second pass: does `iv`, listed on the previous weekday, spill past midnight onto minute `m`? */
  predicate CoversSpill(iv: Interval, m: int)
  {
    var s := ParseTimeToMinutes(iv.start);
    var e := ParseTimeToMinutes(iv.end);
    Active(iv) && !Eq(s, e) && !Lt(s, e) && Lt(Some(m), e)
  }

  /** `isWithinBlockedSchedule` on a weekday and a minute of the day. */
  predicate BlockedAt(day: int, m: int, week: IntervalWeek)
  {
    var today := DayIntervals(week, day);
    var prev := DayIntervals(week, (day + 6) % 7);
    (exists i :: 0 <= i < |today| && CoversToday(today[i], m)) ||
    (exists i :: 0 <= i < |prev| && CoversSpill(prev[i], m))
  }

  /** `isWithinBlockedSchedule(new Date(now), week)`: only the weekday and the
      minute of the day of `now` are read. */
  function IsWithinBlockedSchedule(now: int, week: IntervalWeek): (r: bool)
    ensures r == BlockedAt(Weekday(now), MinuteOfDay(now), week)
  {
    var day := Weekday(now);
    var m := MinuteOfDay(now);
    var today := DayIntervals(week, day);
    var prev := DayIntervals(week, (day + 6) % 7);
    AnyCoversToday(today, m) || AnyCoversSpill(prev, m)
  }

  function AnyCoversToday(ivs: seq<Interval>, m: int): (r: bool)
    ensures r <==> exists i :: 0 <= i < |ivs| && CoversToday(ivs[i], m)
  {
    if |ivs| == 0 then false
    else
      assert forall i :: 1 <= i < |ivs| ==> ivs[i] == ivs[1..][i - 1];
      CoversToday(ivs[0], m) || AnyCoversToday(ivs[1..], m)
  }

  function AnyCoversSpill(ivs: seq<Interval>, m: int): (r: bool)
    ensures r <==> exists i :: 0 <= i < |ivs| && CoversSpill(ivs[i], m)
  {
    if |ivs| == 0 then false
    else
      assert forall i :: 1 <= i < |ivs| ==> ivs[i] == ivs[1..][i - 1];
      CoversSpill(ivs[0], m) || AnyCoversSpill(ivs[1..], m)
  }

  /** An interval that can make the schedule block: enabled, "blocked", and with
      a start that differs from its end. */
  predicate CanBlock(iv: Interval)
  {
    Active(iv) && !Eq(ParseTimeToMinutes(iv.start), ParseTimeToMinutes(iv.end))
  }

  /** Only such an interval, on the weekday itself or on the previous one, can make the schedule block. */
  lemma OnlyActiveIntervalsBlock(day: int, m: int, week: IntervalWeek)
    requires BlockedAt(day, m, week)
    ensures (exists iv :: iv in DayIntervals(week, day) && CanBlock(iv)) ||
            (exists iv :: iv in DayIntervals(week, (day + 6) % 7) && CanBlock(iv))
  {
    var today := DayIntervals(week, day);
    var prev := DayIntervals(week, (day + 6) % 7);
    if exists i :: 0 <= i < |today| && CoversToday(today[i], m) {
      var i :| 0 <= i < |today| && CoversToday(today[i], m);
      assert today[i] in today && CanBlock(today[i]);
    } else {
      var i :| 0 <= i < |prev| && CoversSpill(prev[i], m);
      assert prev[i] in prev && CanBlock(prev[i]);
    }
  }

  /** A well-formed time: it parses to a minute of the day. */
  predicate ValidTime(t: string)
  {
    var p := ParseTimeToMinutes(t);
    p.Some? && 0 <= p.value < MINUTES_PER_DAY
  }

  function Minutes(t: string): int
    requires ValidTime(t)
  {
    ParseTimeToMinutes(t).value
  }

  /** A same-day interval on weekday `d` blocks exactly its minutes `start <= m < end` of `d`. */
  lemma SameDayIntervalBlocks(week: IntervalWeek, d: int, i: nat, m: int)
    requires 0 <= d < 7 && i < |DayIntervals(week, d)|
    requires var iv := DayIntervals(week, d)[i];
      Active(iv) && ValidTime(iv.start) && ValidTime(iv.end) && Minutes(iv.start) < Minutes(iv.end)
    requires Minutes(DayIntervals(week, d)[i].start) <= m < Minutes(DayIntervals(week, d)[i].end)
    ensures BlockedAt(d, m, week)
  {
    assert CoversToday(DayIntervals(week, d)[i], m);
  }

  /** An overnight interval (end before start) on weekday `d` blocks the minutes from
      its start to midnight on `d` and the minutes before its end on the next weekday. */
  lemma OvernightIntervalBlocks(week: IntervalWeek, d: int, i: nat, m: int)
    requires 0 <= d < 7 && i < |DayIntervals(week, d)|
    requires var iv := DayIntervals(week, d)[i];
      Active(iv) && ValidTime(iv.start) && ValidTime(iv.end) && Minutes(iv.end) < Minutes(iv.start)
    ensures m >= Minutes(DayIntervals(week, d)[i].start) ==> BlockedAt(d, m, week)
    ensures m < Minutes(DayIntervals(week, d)[i].end) ==> BlockedAt((d + 1) % 7, m, week)
  {
    var iv := DayIntervals(week, d)[i];
    if m >= Minutes(iv.start) {
      assert CoversToday(iv, m);
    }
    if m < Minutes(iv.end) {
      assert ((d + 1) % 7 + 6) % 7 == d;
      assert CoversSpill(iv, m);
    }
  }

  /** Minute `m` of the interval's own weekday is covered: within `[start, end)` for a
      same-day interval, from `start` to midnight for an overnight one. */
  predicate CoversOwnDay(iv: Interval, m: int)
    requires ValidTime(iv.start) && ValidTime(iv.end)
  {
    Active(iv) &&
    ((Minutes(iv.start) < Minutes(iv.end) && Minutes(iv.start) <= m < Minutes(iv.end)) ||
     (Minutes(iv.end) < Minutes(iv.start) && Minutes(iv.start) <= m))
  }

  /** Minute `m` of the next weekday is covered by an overnight interval. */
  predicate CoversNextDay(iv: Interval, m: int)
    requires ValidTime(iv.start) && ValidTime(iv.end)
  {
    Active(iv) && Minutes(iv.end) < Minutes(iv.start) && m < Minutes(iv.end)
  }

  /** Every interval of `ivs` has two well-formed times. */
  predicate TimesWellFormed(ivs: seq<Interval>)
  {
    forall iv :: iv in ivs ==> ValidTime(iv.start) && ValidTime(iv.end)
  }

  /** Every interval listed for weekday `day` has two well-formed times. */
  predicate DayWellFormed(week: IntervalWeek, day: int)
  {
    TimesWellFormed(DayIntervals(week, day))
  }

  /** Some interval of `ivs` covers minute `m` on its own day. */
  predicate SomeCoversOwnDay(ivs: seq<Interval>, m: int)
    requires TimesWellFormed(ivs)
  {
    exists iv :: iv in ivs && CoversOwnDay(iv, m)
  }

  /** Some interval of `ivs` spills onto minute `m` of the next day. */
  predicate SomeCoversNextDay(ivs: seq<Interval>, m: int)
    requires TimesWellFormed(ivs)
  {
    exists iv :: iv in ivs && CoversNextDay(iv, m)
  }

  lemma CoversTodayWellFormed(iv: Interval, m: int)
    requires ValidTime(iv.start) && ValidTime(iv.end)
    ensures CoversToday(iv, m) <==> CoversOwnDay(iv, m)
    ensures CoversSpill(iv, m) <==> CoversNextDay(iv, m)
  {
  }

  lemma TodayPassCharacterised(today: seq<Interval>, m: int)
    requires TimesWellFormed(today)
    ensures (exists i :: 0 <= i < |today| && CoversToday(today[i], m)) <==>
      (exists iv :: iv in today && CoversOwnDay(iv, m))
  {
    if exists i :: 0 <= i < |today| && CoversToday(today[i], m) {
      var i :| 0 <= i < |today| && CoversToday(today[i], m);
      CoversTodayWellFormed(today[i], m);
      assert today[i] in today;
    }
    if exists iv :: iv in today && CoversOwnDay(iv, m) {
      var iv :| iv in today && CoversOwnDay(iv, m);
      var i :| 0 <= i < |today| && today[i] == iv;
      CoversTodayWellFormed(iv, m);
    }
  }

  lemma SpillPassCharacterised(prev: seq<Interval>, m: int)
    requires TimesWellFormed(prev)
    ensures (exists i :: 0 <= i < |prev| && CoversSpill(prev[i], m)) <==>
      (exists iv :: iv in prev && CoversNextDay(iv, m))
  {
    if exists i :: 0 <= i < |prev| && CoversSpill(prev[i], m) {
      var i :| 0 <= i < |prev| && CoversSpill(prev[i], m);
      CoversTodayWellFormed(prev[i], m);
      assert prev[i] in prev;
    }
    if exists iv :: iv in prev && CoversNextDay(iv, m) {
      var iv :| iv in prev && CoversNextDay(iv, m);
      var i :| 0 <= i < |prev| && prev[i] == iv;
      CoversTodayWellFormed(iv, m);
    }
  }

  /** When every interval of a weekday and of the weekday before it is well formed,
      the schedule blocks exactly the minutes that an enabled "blocked" interval
      covers on its own day (up to midnight for an overnight one) or that an
      overnight interval of the day before spills onto. */
  lemma BlockedAtCharacterised(day: int, m: int, week: IntervalWeek)
    requires DayWellFormed(week, day) && DayWellFormed(week, (day + 6) % 7)
    ensures BlockedAt(day, m, week) <==>
      SomeCoversOwnDay(DayIntervals(week, day), m) || SomeCoversNextDay(DayIntervals(week, (day + 6) % 7), m)
  {
    TodayPassCharacterised(DayIntervals(week, day), m);
    SpillPassCharacterised(DayIntervals(week, (day + 6) % 7), m);
  }
}
