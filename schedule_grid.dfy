/** The minute grid of the schedule editor (`src/ui/options/schedule/helpers.ts`):
    each interval of a day covers one or two minute ranges, the enabled ones are
    painted minute by minute onto a grid ("blocked" wins over "free"), and the
    grid is cut into renderable segments, scanned for overlapping intervals and
    totalled. */
module ScheduleGrid {
  import opened Base
  import opened Types
  import Durations

  const DAY_MINUTES: int := 1440

  // ---------------------------------------------------------------------------
  // Times of day

  /** `parseTimeToMinutes(value)`: `h * 60 + m` of the first two ':'-separated
      fields; `None` is NaN (a field that is not a number, or no second field). */
  function GridTime(value: string): Option<int>
  {
    var parts := Split(value, ':');
    if |parts| < 2 then None
    else
      match (JsNumber(parts[0]), JsNumber(parts[1]))
      case (Some(h), Some(m)) => Some(h * 60 + m)
      case _ => None
  }

  /** A clock text "HH:MM" with 00 <= HH <= 23 and 00 <= MM <= 59. */
  predicate IsClockText(s: string)
  {
    |s| == 5 && s[2] == ':' && AllDigits(s[..2]) && AllDigits(s[3..])
    && DigitsValue(s[..2]) < 24 && DigitsValue(s[3..]) < 60
  }

  /** JavaScript's `a % b` for a positive `b`: the remainder takes the sign of `a`. */
  function JsRem(a: int, b: int): int
    requires b > 0
  {
    if a >= 0 then a % b else -((-a) % b)
  }

  /** `s.padStart(2, "0")`. */
  function PadStart2(s: string): string
  {
    if |s| == 0 then "00" else if |s| == 1 then "0" + s else s
  }

  /** The two fields of a clock text, each padded to two characters. */
  function ClockText(h: int, m: int): string
  {
    PadStart2(IntToString(h)) + ":" + PadStart2(IntToString(m))
  }

  /** `minutesToTime(total)`: hours `Math.floor(total / 60) % 24`, minutes
      `total % 60`, each padded to two characters. */
  function MinutesToTime(total: int): string
  {
    ClockText(JsRem(total / 60, 24), JsRem(total, 60))
  }

  /** For a minute count that is not negative, the hours wrap round the day and both
      fields are two-digit numbers. */
  lemma MinutesToTimeOfCount(total: nat)
    ensures MinutesToTime(total) == Pad2((total / 60) % 24) + ":" + Pad2(total % 60)
  {
    ClockTextPadded((total / 60) % 24, total % 60);
  }

  lemma ClockTextPadded(h: nat, m: nat)
    requires h < 100 && m < 100
    ensures ClockText(h, m) == Pad2(h) + ":" + Pad2(m)
  {
    PadStartOfNat(h);
    PadStartOfNat(m);
  }

  lemma PadStartOfNat(n: nat)
    requires n < 100
    ensures PadStart2(IntToString(n)) == Pad2(n)
  {
  }

  /** A two-digit string is the padding of its own value. */
  lemma TwoDigitsPadded(t: string)
    requires |t| == 2 && AllDigits(t)
    ensures DigitsValue(t) < 100 && Pad2(DigitsValue(t)) == t
  {
    var v := DigitsValue(t);
    TwoDigitsValue(t);
    Pad2Value(v);
    var p := Pad2(v);
    TwoDigitsValue(p);
  }

  lemma TwoDigitsValue(t: string)
    requires |t| == 2 && AllDigits(t)
    ensures DigitsValue(t) == DigitValue(t[0]) * 10 + DigitValue(t[1])
  {
    var first := t[..1];
    assert first[..0] == [] && first[0] == t[0];
    assert DigitsValue(first) == DigitValue(t[0]);
  }

  /** The minutes of "HH:MM" are `60 * HH + MM`. */
  lemma GridTimeOfClock(h: nat, m: nat)
    requires h < 100 && m < 100
    ensures GridTime(Pad2(h) + ":" + Pad2(m)) == Some(h * 60 + m)
  {
    var a, b := Pad2(h), Pad2(m);
    Durations.SplitShort(a, b);
    Pad2Value(h);
    Pad2Value(m);
  }

  /** Minute `60 * h + m` of the day prints as hours `h` and minutes `m`. */
  lemma MinutesToTimeOfFields(h: nat, m: nat)
    requires h < 24 && m < 60
    ensures MinutesToTime(h * 60 + m) == ClockText(h, m)
  {
    ClockFields(h, m);
  }

  lemma ClockFields(h: nat, m: nat)
    requires h < 24 && m < 60
    ensures JsRem((h * 60 + m) / 60, 24) == h && JsRem(h * 60 + m, 60) == m
  {
  }

  /** `minutesToTime(parseTimeToMinutes(s)) == s` for every clock text. */
  lemma ClockRoundTrip(s: string)
    requires IsClockText(s)
    ensures GridTime(s).Some? && MinutesToTime(GridTime(s).value) == s
  {
    var h, m := ClockSplit(s);
    var t := ClockOfFields(h, m);
    var v := h * 60 + m;
    RoundTripAt(s, t, v);
  }

  /** The clock text of `h` hours and `m` minutes reads as `60 * h + m`, which
      prints back as the same text. */
  lemma ClockOfFields(h: nat, m: nat) returns (t: string)
    requires h < 24 && m < 60
    ensures t == Pad2(h) + ":" + Pad2(m)
    ensures GridTime(t) == Some(h * 60 + m) && MinutesToTime(h * 60 + m) == t
  {
    t := Pad2(h) + ":" + Pad2(m);
    GridTimeOfClock(h, m);
    MinutesToTimeOfFields(h, m);
    ClockTextPadded(h, m);
  }

  lemma RoundTripAt(s: string, t: string, v: int)
    requires s == t && GridTime(t) == Some(v) && MinutesToTime(v) == t
    ensures GridTime(s).Some? && MinutesToTime(GridTime(s).value) == s
  {
  }

  /** A clock text is its two padded fields joined by ':'. */
  lemma ClockSplit(s: string) returns (h: nat, m: nat)
    requires IsClockText(s)
    ensures h < 24 && m < 60 && s == Pad2(h) + ":" + Pad2(m)
  {
    var hs, ms := s[..2], s[3..];
    assert s == hs + ":" + ms;
    TwoDigitsPadded(hs);
    TwoDigitsPadded(ms);
    h, m := DigitsValue(hs), DigitsValue(ms);
  }

  // ---------------------------------------------------------------------------
  // Periods of the day

  /** The five period labels; the grid compares labels, and distinct names have
      distinct texts (`PeriodTextInjective`). */
  datatype PeriodName = Madrugada | Manana | Mediodia | Tarde | Noche

  function PeriodText(p: PeriodName): string
  {
    match p
    case Madrugada => "Madrugada"
    case Manana => "Mañana"
    case Mediodia => "Mediodía"
    case Tarde => "Tarde"
    case Noche => "Noche"
  }

  lemma PeriodTextInjective(a: PeriodName, b: PeriodName)
    requires PeriodText(a) == PeriodText(b)
    ensures a == b
  {
  }

  datatype Period = Period(name: PeriodName, start: int, end: int)

  /** `PERIODS`: the five fixed parts of the day. */
  const PERIODS: seq<Period> := [
    Period(Madrugada, 0, 360),
    Period(Manana, 360, 720),
    Period(Mediodia, 720, 840),
    Period(Tarde, 840, 1200),
    Period(Noche, 1200, 1440)
  ]

  /** `PERIODS.find(p => minute >= p.start && minute < p.end)`, label or "Noche". */
  function FindLabel(ps: seq<Period>, minute: int): PeriodName
  {
    if |ps| == 0 then Noche
    else if ps[0].start <= minute < ps[0].end then ps[0].name
    else FindLabel(ps[1..], minute)
  }

  /** `getPeriodLabel(minute)`. */
  function PeriodLabel(minute: int): PeriodName
  {
    FindLabel(PERIODS, minute)
  }

  /** The periods tile the day: they start at 0, each ends where the next starts,
      the last ends at 1440, and none is empty. */
  lemma PeriodsTileTheDay()
    ensures PERIODS[0].start == 0 && PERIODS[|PERIODS| - 1].end == DAY_MINUTES
    ensures forall i :: 0 <= i < |PERIODS| - 1 ==> PERIODS[i].end == PERIODS[i + 1].start
    ensures forall i :: 0 <= i < |PERIODS| ==> PERIODS[i].start < PERIODS[i].end
  {
  }

  /** So every minute of the day lies in exactly one period, and gets its label. */
  lemma {:induction false} PeriodLabelOf(minute: int, i: int)
    requires 0 <= i < |PERIODS| && PERIODS[i].start <= minute < PERIODS[i].end
    ensures PeriodLabel(minute) == PERIODS[i].name
    ensures forall j :: 0 <= j < |PERIODS| && PERIODS[j].start <= minute < PERIODS[j].end ==> j == i
  {
    FindLabelAt(PERIODS, minute, i);
  }

  /** `find` returns the first period holding the minute. */
  lemma {:induction false} FindLabelAt(ps: seq<Period>, minute: int, i: int)
    requires 0 <= i < |ps| && ps[i].start <= minute < ps[i].end
    requires forall j :: 0 <= j < i ==> !(ps[j].start <= minute < ps[j].end)
    ensures FindLabel(ps, minute) == ps[i].name
  {
    if i > 0 {
      FindLabelAt(ps[1..], minute, i - 1);
    }
  }

  // ---------------------------------------------------------------------------
  // Minute ranges

  datatype Range = Range(startMin: int, endMin: int)

  predicate InRange(r: Range, m: int)
  {
    r.startMin <= m < r.endMin
  }

  /** `expandIntervalToRanges(startMin, endMin)`: one range, two when the interval
      crosses midnight, none when start equals end. */
  function ExpandIntervalToRanges(startMin: int, endMin: int): seq<Range>
  {
    if endMin > startMin then [Range(startMin, endMin)]
    else if endMin < startMin then [Range(startMin, DAY_MINUTES), Range(0, endMin)]
    else []
  }

  function RangeLength(r: Range): int
  {
    Max(0, r.endMin - r.startMin)
  }

  function TotalLength(rs: seq<Range>): int
  {
    if |rs| == 0 then 0 else RangeLength(rs[0]) + TotalLength(rs[1..])
  }

  /** For times within the day the ranges cover `(end - start) mod 1440` minutes,
      and a minute of the day is covered exactly when it lies in `[start, end)`
      read round the clock. */
  lemma ExpandedCoverage(s: int, e: int, m: int)
    requires 0 <= s < DAY_MINUTES && 0 <= e < DAY_MINUTES && 0 <= m < DAY_MINUTES
    ensures TotalLength(ExpandIntervalToRanges(s, e)) == (e - s) % DAY_MINUTES
    ensures (exists k :: 0 <= k < |ExpandIntervalToRanges(s, e)| && InRange(ExpandIntervalToRanges(s, e)[k], m))
      <==> (s < e && s <= m < e) || (e < s && (s <= m || m < e))
  {
    var rs := ExpandIntervalToRanges(s, e);
    if e < s {
      assert rs[1..] == [rs[1]] && [rs[1]][1..] == [];
      assert TotalLength(rs[1..]) == RangeLength(rs[1]);
      if m < e {
        assert InRange(rs[1], m);
      }
    }
  }

  /** The ranges an interval paints: none when a time is NaN (every comparison
      with NaN is false). */
  function IntervalRanges(iv: Interval): seq<Range>
  {
    match (GridTime(iv.start), GridTime(iv.end))
    case (Some(s), Some(e)) => ExpandIntervalToRanges(s, e)
    case _ => []
  }

  predicate Covers(iv: Interval, m: int)
  {
    var rs := IntervalRanges(iv);
    exists k :: 0 <= k < |rs| && InRange(rs[k], m)
  }

  // ---------------------------------------------------------------------------
  // The grid's extent

  /** The highest minute a range writes, plus one (0 when it writes nothing). */
  function RangeReach(r: Range): int
  {
    if r.startMin < r.endMin then r.endMin else 0
  }

  function RangesReach(rs: seq<Range>): int
  {
    if |rs| == 0 then 0 else Max(RangeReach(rs[0]), RangesReach(rs[1..]))
  }

  function Reach(ivs: seq<Interval>): int
  {
    if |ivs| == 0 then 0
    else Max(Reach(ivs[..|ivs| - 1]), if ivs[|ivs| - 1].enabled then RangesReach(IntervalRanges(ivs[|ivs| - 1])) else 0)
  }

  /** The length of the arrays `buildMinuteModes` and `detectOverlaps` fill: 1440,
      grown to the highest minute written (times past "23:59" write past the day). */
  function GridLength(ivs: seq<Interval>): int
  {
    Max(DAY_MINUTES, Reach(ivs))
  }

  lemma {:induction false} RangesReachBound(rs: seq<Range>, k: int)
    requires 0 <= k < |rs|
    ensures RangeReach(rs[k]) <= RangesReach(rs)
  {
    if k > 0 {
      RangesReachBound(rs[1..], k - 1);
    }
  }

  lemma {:induction false} ReachBound(ivs: seq<Interval>, i: int)
    requires 0 <= i < |ivs| && ivs[i].enabled
    ensures RangesReach(IntervalRanges(ivs[i])) <= Reach(ivs)
  {
    if i < |ivs| - 1 {
      ReachBound(ivs[..|ivs| - 1], i);
    }
  }

  // ---------------------------------------------------------------------------
  // Minute modes

  /** An enabled "blocked" interval covering minute `m`. */
  predicate PaintsBlocked(iv: Interval, m: int)
  {
    iv.enabled && iv.mode == Blocked && Covers(iv, m)
  }

  /** Some interval of `ivs` paints minute `m` "blocked", the last one or an earlier one. */
  predicate BlockedMinute(ivs: seq<Interval>, m: int)
  {
    |ivs| > 0 && (BlockedMinute(ivs[..|ivs| - 1], m) || PaintsBlocked(ivs[|ivs| - 1], m))
  }

  lemma {:induction false} BlockedMinuteMembers(ivs: seq<Interval>, m: int)
    ensures BlockedMinute(ivs, m) <==> exists iv :: iv in ivs && PaintsBlocked(iv, m)
  {
    if |ivs| > 0 {
      var init := ivs[..|ivs| - 1];
      BlockedMinuteMembers(init, m);
      assert ivs == init + [ivs[|ivs| - 1]];
    }
  }

  /** The mode the grid shows for minute `m`. */
  function ModeAt(ivs: seq<Interval>, m: int): Mode
  {
    if BlockedMinute(ivs, m) then Blocked else Free
  }

  /** Order does not matter: rearranging the intervals leaves every minute's mode,
      so a "free" interval listed after a "blocked" one never frees its minutes. */
  lemma ModeIgnoresOrder(a: seq<Interval>, b: seq<Interval>, m: int)
    requires multiset(a) == multiset(b)
    ensures ModeAt(a, m) == ModeAt(b, m)
  {
    BlockedMinuteMembers(a, m);
    BlockedMinuteMembers(b, m);
    forall iv
      ensures iv in a <==> iv in b
    {
      assert iv in a <==> iv in multiset(a);
      assert iv in b <==> iv in multiset(b);
    }
  }

  /** One range of one interval painted onto the grid (the innermost loop of
      `buildMinuteModes`): "blocked" marks the minute and the mask, "free" writes
      only unmasked minutes. Minutes below 0 are array properties no reader sees. */
  method PaintRange(minutes: array<Mode>, blockedMask: array<bool>, r: Range, mode: Mode)
    modifies minutes, blockedMask
    requires minutes.Length == blockedMask.Length && RangeReach(r) <= minutes.Length
    requires forall x :: 0 <= x < minutes.Length ==> (blockedMask[x] <==> minutes[x] == Blocked)
    ensures forall x :: 0 <= x < minutes.Length ==> (blockedMask[x] <==> minutes[x] == Blocked)
    ensures forall x :: 0 <= x < minutes.Length ==>
      (minutes[x] == Blocked <==> old(minutes[x]) == Blocked || (mode == Blocked && r.startMin <= x < r.endMin))
  {
    var m := r.startMin;
    while m < r.endMin
      invariant r.startMin < r.endMin ==> r.startMin <= m <= r.endMin
      invariant r.startMin >= r.endMin ==> m == r.startMin
      invariant forall x :: 0 <= x < minutes.Length ==> (blockedMask[x] <==> minutes[x] == Blocked)
      invariant forall x :: 0 <= x < minutes.Length ==>
        (minutes[x] == Blocked <==> old(minutes[x]) == Blocked || (mode == Blocked && r.startMin <= x < m))
      decreases r.endMin - m
    {
      if 0 <= m {
        if mode == Blocked {
          minutes[m] := Blocked;
          blockedMask[m] := true;
        } else if !blockedMask[m] {
          minutes[m] := Free;
        }
      }
      m := m + 1;
    }
  }

  /** All the ranges of one enabled interval painted onto the grid. */
  method PaintInterval(minutes: array<Mode>, blockedMask: array<bool>, interval: Interval)
    modifies minutes, blockedMask
    requires minutes.Length == blockedMask.Length && RangesReach(IntervalRanges(interval)) <= minutes.Length
    requires forall x :: 0 <= x < minutes.Length ==> (blockedMask[x] <==> minutes[x] == Blocked)
    ensures forall x :: 0 <= x < minutes.Length ==> (blockedMask[x] <==> minutes[x] == Blocked)
    ensures forall x :: 0 <= x < minutes.Length ==>
      (minutes[x] == Blocked <==> old(minutes[x]) == Blocked || (interval.mode == Blocked && Covers(interval, x)))
  {
    var ranges := IntervalRanges(interval);
    var j := 0;
    while j < |ranges|
      invariant 0 <= j <= |ranges|
      invariant forall x :: 0 <= x < minutes.Length ==> (blockedMask[x] <==> minutes[x] == Blocked)
      invariant forall x :: 0 <= x < minutes.Length ==>
        (minutes[x] == Blocked <==>
          (old(minutes[x]) == Blocked || (interval.mode == Blocked && exists k :: 0 <= k < j && InRange(ranges[k], x))))
    {
      RangesReachBound(ranges, j);
      PaintRange(minutes, blockedMask, ranges[j], interval.mode);
      j := j + 1;
    }
    assert forall x :: Covers(interval, x) <==> exists k :: 0 <= k < |ranges| && InRange(ranges[k], x);
  }

  /** The grid after painting the intervals `ivs`: the mask marks exactly the
      "blocked" minutes, and those are the minutes some interval of `ivs` paints
      "blocked". */
  predicate PaintedBy(minutes: array<Mode>, blockedMask: array<bool>, ivs: seq<Interval>)
    reads minutes, blockedMask
  {
    minutes.Length == blockedMask.Length
    && (forall x :: 0 <= x < minutes.Length ==> (blockedMask[x] <==> minutes[x] == Blocked))
    && (forall x :: 0 <= x < minutes.Length ==> (minutes[x] == Blocked <==> BlockedMinute(ivs, x)))
  }

  /** One pass of the `forEach` of `buildMinuteModes`: interval `k`, if enabled. */
  method PaintNext(minutes: array<Mode>, blockedMask: array<bool>, intervals: seq<Interval>, k: int)
    modifies minutes, blockedMask
    requires 0 <= k < |intervals| && minutes.Length == GridLength(intervals)
    requires PaintedBy(minutes, blockedMask, intervals[..k])
    ensures PaintedBy(minutes, blockedMask, intervals[..k + 1])
  {
    var interval := intervals[k];
    assert intervals[..k + 1][..k] == intervals[..k];
    if interval.enabled {
      ReachBound(intervals, k);
      PaintInterval(minutes, blockedMask, interval);
    }
  }

  /** `buildMinuteModes(intervals)`: minute `m` is "blocked" exactly when some enabled
      "blocked" interval covers it, whatever the order of the intervals. */
  method BuildMinuteModes(intervals: seq<Interval>) returns (minutes: array<Mode>)
    ensures minutes.Length == GridLength(intervals)
    ensures forall m :: 0 <= m < minutes.Length ==> minutes[m] == ModeAt(intervals, m)
  {
    var n := GridLength(intervals);
    minutes := new Mode[n](_ => Free);
    var blockedMask := new bool[n](_ => false);
    var k := 0;
    while k < |intervals|
      invariant 0 <= k <= |intervals|
      invariant PaintedBy(minutes, blockedMask, intervals[..k])
    {
      PaintNext(minutes, blockedMask, intervals, k);
      k := k + 1;
    }
    assert intervals[..k] == intervals;
  }

  // ---------------------------------------------------------------------------
  // Segments

  /** `Segment`. */
  datatype Segment = Segment(id: string, startMin: int, endMin: int, mode: Mode, periodLabel: PeriodName)

  function ModeName(mode: Mode): string
  {
    match mode
    case Blocked => "blocked"
    case Free => "free"
  }

  /** The segment id `${mode}-${period}-${startMin}`. */
  function SegmentId(mode: Mode, period: PeriodName, startMin: nat): string
  {
    ModeName(mode) + "-" + PeriodText(period) + "-" + NatToString(startMin)
  }

  /** `segs` lies end to end over `[0, upTo)`, every segment non-empty. */
  predicate Tiles(segs: seq<Segment>, upTo: int)
  {
    (|segs| == 0 ==> upTo == 0)
    && (|segs| > 0 ==> segs[0].startMin == 0 && segs[|segs| - 1].endMin == upTo)
    && (forall i :: 0 <= i < |segs| - 1 ==> segs[i].endMin == segs[i + 1].startMin)
    && (forall i :: 0 <= i < |segs| ==> 0 <= segs[i].startMin < segs[i].endMin <= DAY_MINUTES)
  }

  /** The segment carries the id built from its mode, period and start. */
  predicate HasOwnId(s: Segment)
  {
    s.startMin >= 0 && s.id == SegmentId(s.mode, s.periodLabel, s.startMin)
  }

  /** Every segment carries its own id. */
  predicate Labelled(segs: seq<Segment>)
  {
    |segs| == 0 || (Labelled(segs[..|segs| - 1]) && HasOwnId(segs[|segs| - 1]))
  }

  lemma {:induction false} LabelledAt(segs: seq<Segment>, i: int)
    requires Labelled(segs) && 0 <= i < |segs|
    ensures HasOwnId(segs[i])
  {
    if i < |segs| - 1 {
      LabelledAt(segs[..|segs| - 1], i);
    }
  }

  /** Minute `x` of the grid has mode `mode` and lies in period `period`. */
  predicate Fits(modes: seq<Mode>, x: int, mode: Mode, period: PeriodName)
  {
    0 <= x < |modes| && modes[x] == mode && PeriodLabel(x) == period
  }

  /** Every minute of `[lo, hi)` has mode `mode` and lies in period `period`. */
  predicate RunHolds(modes: seq<Mode>, lo: int, hi: int, mode: Mode, period: PeriodName)
  {
    forall x :: lo <= x < hi ==> Fits(modes, x, mode, period)
  }

  lemma RunExtend(modes: seq<Mode>, lo: int, hi: int, mode: Mode, period: PeriodName)
    requires RunHolds(modes, lo, hi, mode, period)
    requires Fits(modes, hi, mode, period)
    ensures RunHolds(modes, lo, hi + 1, mode, period)
  {
  }

  /** Every minute of a segment has the segment's mode and period. */
  predicate Uniform(segs: seq<Segment>, modes: seq<Mode>)
  {
    forall i :: 0 <= i < |segs| ==>
      RunHolds(modes, segs[i].startMin, segs[i].endMin, segs[i].mode, segs[i].periodLabel)
  }

  /** Neighbouring segments differ in mode or in period. */
  predicate Alternating(segs: seq<Segment>)
  {
    forall i :: 0 <= i < |segs| - 1 ==>
      segs[i].mode != segs[i + 1].mode || segs[i].periodLabel != segs[i + 1].periodLabel
  }

  /** `segs` cuts `[0, upTo)` into maximal runs of one mode within one period. */
  predicate SegmentsUpTo(segs: seq<Segment>, modes: seq<Mode>, upTo: int)
  {
    Tiles(segs, upTo) && Labelled(segs) && Uniform(segs, modes) && Alternating(segs)
  }

  /** The segmentation of the whole day. */
  predicate IsSegmentation(segs: seq<Segment>, modes: seq<Mode>)
  {
    |segs| > 0 && SegmentsUpTo(segs, modes, DAY_MINUTES)
  }

  /** The grid of the day as a sequence. */
  function DayModes(ivs: seq<Interval>): (modes: seq<Mode>)
    ensures |modes| == DAY_MINUTES
  {
    seq(DAY_MINUTES, m => ModeAt(ivs, m))
  }

  lemma PushTiles(segs: seq<Segment>, s: Segment)
    requires Tiles(segs, s.startMin) && 0 <= s.startMin < s.endMin <= DAY_MINUTES
    ensures Tiles(segs + [s], s.endMin)
  {
    var next := segs + [s];
    forall i | 0 <= i < |next| - 1
      ensures next[i].endMin == next[i + 1].startMin
    {
      if i < |segs| - 1 {
        assert next[i] == segs[i] && next[i + 1] == segs[i + 1];
      }
    }
  }

  lemma PushLabelled(segs: seq<Segment>, s: Segment)
    requires Labelled(segs) && HasOwnId(s)
    ensures Labelled(segs + [s])
  {
    assert (segs + [s])[..|segs|] == segs;
  }

  lemma PushUniform(segs: seq<Segment>, modes: seq<Mode>, s: Segment)
    requires Uniform(segs, modes)
    requires RunHolds(modes, s.startMin, s.endMin, s.mode, s.periodLabel)
    ensures Uniform(segs + [s], modes)
  {
    var next := segs + [s];
    forall i | 0 <= i < |next|
      ensures RunHolds(modes, next[i].startMin, next[i].endMin, next[i].mode, next[i].periodLabel)
    {
      if i < |segs| {
        assert next[i] == segs[i];
      } else {
        assert next[i] == s;
      }
    }
  }

  lemma PushAlternating(segs: seq<Segment>, s: Segment)
    requires Alternating(segs)
    requires |segs| > 0 ==> segs[|segs| - 1].mode != s.mode || segs[|segs| - 1].periodLabel != s.periodLabel
    ensures Alternating(segs + [s])
  {
    var next := segs + [s];
    forall i | 0 <= i < |next| - 1
      ensures next[i].mode != next[i + 1].mode || next[i].periodLabel != next[i + 1].periodLabel
    {
      if i < |segs| - 1 {
        assert next[i] == segs[i] && next[i + 1] == segs[i + 1];
      }
    }
  }

  /** Closing the run `[startMin, m)` extends the segmentation to `m`. */
  lemma PushSegment(segs: seq<Segment>, modes: seq<Mode>, s: Segment)
    requires 0 <= s.startMin < s.endMin <= DAY_MINUTES && HasOwnId(s)
    requires SegmentsUpTo(segs, modes, s.startMin)
    requires |segs| > 0 ==> segs[|segs| - 1].mode != s.mode || segs[|segs| - 1].periodLabel != s.periodLabel
    requires RunHolds(modes, s.startMin, s.endMin, s.mode, s.periodLabel)
    ensures SegmentsUpTo(segs + [s], modes, s.endMin)
  {
    PushTiles(segs, s);
    PushLabelled(segs, s);
    PushUniform(segs, modes, s);
    PushAlternating(segs, s);
  }

  /** `normalizeIntervals(intervals)`: the day's grid cut into maximal runs of one
      mode within one period. */
  method NormalizeIntervals(intervals: seq<Interval>) returns (segments: seq<Segment>)
    ensures IsSegmentation(segments, DayModes(intervals))
  {
    var minutes := BuildMinuteModes(intervals);
    var day := minutes[..DAY_MINUTES];
    assert day == DayModes(intervals);
    segments := CutDay(day);
  }

  /** The scan of `normalizeIntervals` over the 1440 minutes of the grid. */
  method CutDay(minutes: seq<Mode>) returns (segments: seq<Segment>)
    requires |minutes| == DAY_MINUTES
    ensures IsSegmentation(segments, minutes)
  {
    segments := [];
    var startMin := 0;
    var currentMode := minutes[0];
    var currentPeriod := PeriodLabel(0);
    var m := 1;
    while m <= DAY_MINUTES
      invariant 1 <= m <= DAY_MINUTES + 1
      invariant m <= DAY_MINUTES ==> Cutting(minutes, segments, startMin, m, currentMode, currentPeriod)
      invariant m > DAY_MINUTES ==> IsSegmentation(segments, minutes)
    {
      segments, startMin, currentMode, currentPeriod := CutStep(minutes, segments, startMin, m, currentMode, currentPeriod);
      m := m + 1;
    }
  }

  /** The state of the scan before minute `m`: `segments` cut `[0, startMin)` and
      the open run `[startMin, m)` has one mode and one period, which differ from
      those of the last closed segment. */
  predicate Cutting(minutes: seq<Mode>, segments: seq<Segment>, startMin: int, m: int,
                    currentMode: Mode, currentPeriod: PeriodName)
  {
    |minutes| == DAY_MINUTES && 1 <= m <= DAY_MINUTES && 0 <= startMin < m
    && RunHolds(minutes, startMin, m, currentMode, currentPeriod)
    && SegmentsUpTo(segments, minutes, startMin)
    && (|segments| > 0 ==>
          segments[|segments| - 1].mode != currentMode || segments[|segments| - 1].periodLabel != currentPeriod)
  }

  /** One turn of the scan of `normalizeIntervals`, at minute `m`. */
  method CutStep(minutes: seq<Mode>, segments: seq<Segment>, startMin: int, m: int,
                 currentMode: Mode, currentPeriod: PeriodName)
    returns (segments': seq<Segment>, startMin': int, mode': Mode, period': PeriodName)
    requires Cutting(minutes, segments, startMin, m, currentMode, currentPeriod)
    ensures m < DAY_MINUTES ==> Cutting(minutes, segments', startMin', m + 1, mode', period')
    ensures m == DAY_MINUTES ==> IsSegmentation(segments', minutes)
  {
    var mode := if m < DAY_MINUTES then minutes[m] else currentMode;
    var period := if m < DAY_MINUTES then PeriodLabel(m) else currentPeriod;
    if mode != currentMode || period != currentPeriod || m == DAY_MINUTES {
      var segment := Segment(SegmentId(currentMode, currentPeriod, startMin), startMin, m, currentMode, currentPeriod);
      CloseRun(minutes, segments, segment, mode, period);
      segments', startMin', mode', period' := segments + [segment], m, mode, period;
    } else {
      KeepRun(minutes, segments, startMin, m, currentMode, currentPeriod);
      segments', startMin', mode', period' := segments, startMin, currentMode, currentPeriod;
    }
  }

  /** Closing the open run as `segment` at minute `m` and opening one there. */
  lemma CloseRun(minutes: seq<Mode>, segments: seq<Segment>, segment: Segment, mode: Mode, period: PeriodName)
    requires Cutting(minutes, segments, segment.startMin, segment.endMin, segment.mode, segment.periodLabel)
    requires HasOwnId(segment)
    requires segment.endMin < DAY_MINUTES ==> Fits(minutes, segment.endMin, mode, period)
    requires segment.endMin < DAY_MINUTES ==> mode != segment.mode || period != segment.periodLabel
    ensures segment.endMin < DAY_MINUTES ==> Cutting(minutes, segments + [segment], segment.endMin, segment.endMin + 1, mode, period)
    ensures segment.endMin == DAY_MINUTES ==> IsSegmentation(segments + [segment], minutes)
  {
    PushSegment(segments, minutes, segment);
  }

  /** Extending the open run over minute `m`. */
  lemma KeepRun(minutes: seq<Mode>, segments: seq<Segment>, startMin: int, m: int,
                currentMode: Mode, currentPeriod: PeriodName)
    requires Cutting(minutes, segments, startMin, m, currentMode, currentPeriod) && m < DAY_MINUTES
    requires Fits(minutes, m, currentMode, currentPeriod)
    ensures Cutting(minutes, segments, startMin, m + 1, currentMode, currentPeriod)
  {
    RunExtend(minutes, startMin, m, currentMode, currentPeriod);
  }

  // ---------------------------------------------------------------------------
  // Overlaps

  /** How many of the ranges `rs` hold minute `x`. */
  function RangeHits(rs: seq<Range>, x: int): nat
  {
    if |rs| == 0 then 0
    else RangeHits(rs[..|rs| - 1], x) + (if InRange(rs[|rs| - 1], x) then 1 else 0)
  }

  /** An enabled interval covering minute `x`. */
  predicate Occupies(iv: Interval, x: int)
  {
    iv.enabled && Covers(iv, x)
  }

  /** The count `detectOverlaps` keeps for minute `x`: one per range of an enabled
      interval holding it. */
  function CoverCount(ivs: seq<Interval>, x: int): nat
  {
    if |ivs| == 0 then 0
    else
      var iv := ivs[|ivs| - 1];
      CoverCount(ivs[..|ivs| - 1], x) + (if iv.enabled then RangeHits(IntervalRanges(iv), x) else 0)
  }

  /** The two ranges of an interval that crosses midnight never overlap, so the
      ranges hold a minute at most once. */
  lemma ExpandedHits(s: int, e: int, x: int)
    ensures RangeHits(ExpandIntervalToRanges(s, e), x)
      == if exists k :: 0 <= k < |ExpandIntervalToRanges(s, e)| && InRange(ExpandIntervalToRanges(s, e)[k], x) then 1 else 0
  {
    var rs := ExpandIntervalToRanges(s, e);
    if e > s {
      assert rs[..0] == [];
    } else if e < s {
      assert rs[..1][..0] == [] && rs[..1] == [rs[0]];
      assert RangeHits(rs[..1], x) == if InRange(rs[0], x) then 1 else 0;
    }
  }

  /** An interval counts a minute once when it covers it, and not at all otherwise. */
  lemma IntervalHits(iv: Interval, x: int)
    ensures RangeHits(IntervalRanges(iv), x) == if Covers(iv, x) then 1 else 0
  {
    match (GridTime(iv.start), GridTime(iv.end))
    case (Some(s), Some(e)) => ExpandedHits(s, e, x);
    case _ =>
  }

  /** The number of set flags. */
  function CountTrue(bs: seq<bool>): nat
  {
    if |bs| == 0 then 0 else CountTrue(bs[..|bs| - 1]) + (if bs[|bs| - 1] then 1 else 0)
  }

  lemma {:induction false} CountTruePositive(bs: seq<bool>)
    ensures CountTrue(bs) >= 1 <==> exists i :: 0 <= i < |bs| && bs[i]
  {
    if |bs| > 0 {
      var init := bs[..|bs| - 1];
      CountTruePositive(init);
      if exists i :: 0 <= i < |init| && init[i] {
        var i :| 0 <= i < |init| && init[i];
        assert bs[i];
      }
    }
  }

  lemma {:induction false} CountTrueMany(bs: seq<bool>)
    ensures CountTrue(bs) > 1 <==> exists i, j :: 0 <= i < j < |bs| && bs[i] && bs[j]
  {
    if |bs| > 0 {
      var init := bs[..|bs| - 1];
      CountTrueMany(init);
      CountTruePositive(init);
      if exists i, j :: 0 <= i < j < |bs| && bs[i] && bs[j] {
        var i, j :| 0 <= i < j < |bs| && bs[i] && bs[j];
        assert init[i];
        if j < |init| {
          assert init[j];
        }
      }
      if exists i, j :: 0 <= i < j < |init| && init[i] && init[j] {
        var i, j :| 0 <= i < j < |init| && init[i] && init[j];
        assert bs[i] && bs[j];
      }
      if CountTrue(init) >= 1 && bs[|bs| - 1] {
        var i :| 0 <= i < |init| && init[i];
        assert bs[i];
      }
    }
  }

  /** Which intervals occupy minute `x`. */
  function Occupancy(ivs: seq<Interval>, x: int): (occ: seq<bool>)
    ensures |occ| == |ivs|
  {
    if |ivs| == 0 then [] else Occupancy(ivs[..|ivs| - 1], x) + [Occupies(ivs[|ivs| - 1], x)]
  }

  lemma {:induction false} OccupancyAt(ivs: seq<Interval>, x: int, i: int)
    requires 0 <= i < |ivs|
    ensures Occupancy(ivs, x)[i] == Occupies(ivs[i], x)
  {
    if i < |ivs| - 1 {
      OccupancyAt(ivs[..|ivs| - 1], x, i);
    }
  }

  /** The count of a minute is the number of enabled intervals covering it. */
  lemma {:induction false} CoverCountOccupants(ivs: seq<Interval>, x: int)
    ensures CoverCount(ivs, x) == CountTrue(Occupancy(ivs, x))
  {
    if |ivs| > 0 {
      var init, iv := ivs[..|ivs| - 1], ivs[|ivs| - 1];
      CoverCountOccupants(init, x);
      IntervalHits(iv, x);
      assert Occupancy(ivs, x)[..|ivs| - 1] == Occupancy(init, x);
    }
  }

  /** A minute counts more than 1 exactly when two different enabled intervals
      cover it: that is what `detectOverlaps` reports. */
  lemma CoverCountOverlap(ivs: seq<Interval>, x: int)
    ensures CoverCount(ivs, x) > 1 <==>
      exists i, j :: 0 <= i < j < |ivs| && Occupies(ivs[i], x) && Occupies(ivs[j], x)
  {
    CoverCountOccupants(ivs, x);
    var occ := Occupancy(ivs, x);
    CountTrueMany(occ);
    if exists i, j :: 0 <= i < j < |ivs| && Occupies(ivs[i], x) && Occupies(ivs[j], x) {
      var i, j :| 0 <= i < j < |ivs| && Occupies(ivs[i], x) && Occupies(ivs[j], x);
      OccupancyAt(ivs, x, i);
      OccupancyAt(ivs, x, j);
    }
    if exists i, j :: 0 <= i < j < |occ| && occ[i] && occ[j] {
      var i, j :| 0 <= i < j < |occ| && occ[i] && occ[j];
      OccupancyAt(ivs, x, i);
      OccupancyAt(ivs, x, j);
    }
  }

  /** One range of one enabled interval counted onto the day (the innermost loop
      of `detectOverlaps`); minutes outside the day are not elements of `counts`. */
  method CountRange(counts: array<int>, r: Range)
    modifies counts
    ensures forall x :: 0 <= x < counts.Length ==>
      counts[x] == old(counts[x]) + (if InRange(r, x) then 1 else 0)
  {
    var m := r.startMin;
    while m < r.endMin
      invariant r.startMin < r.endMin ==> r.startMin <= m <= r.endMin
      invariant r.startMin >= r.endMin ==> m == r.startMin
      invariant forall x :: 0 <= x < counts.Length ==>
        counts[x] == old(counts[x]) + (if r.startMin <= x < m then 1 else 0)
      decreases r.endMin - m
    {
      if 0 <= m < counts.Length {
        counts[m] := counts[m] + 1;
      }
      m := m + 1;
    }
  }

  /** All the ranges of one enabled interval counted onto the day. */
  method CountInterval(counts: array<int>, interval: Interval)
    modifies counts
    ensures forall x :: 0 <= x < counts.Length ==>
      counts[x] == old(counts[x]) + RangeHits(IntervalRanges(interval), x)
  {
    var ranges := IntervalRanges(interval);
    var j := 0;
    while j < |ranges|
      invariant 0 <= j <= |ranges|
      invariant forall x :: 0 <= x < counts.Length ==> counts[x] == old(counts[x]) + RangeHits(ranges[..j], x)
    {
      assert ranges[..j + 1][..j] == ranges[..j];
      CountRange(counts, ranges[j]);
      j := j + 1;
    }
    assert ranges[..j] == ranges;
  }

  /** The first loop of `detectOverlaps`: minute `x` of the day ends with the
      count `CoverCount(intervals, x)`. */
  method CountCoverage(intervals: seq<Interval>) returns (counts: array<int>)
    ensures counts.Length == DAY_MINUTES
    ensures forall x :: 0 <= x < DAY_MINUTES ==> counts[x] == CoverCount(intervals, x)
  {
    counts := new int[DAY_MINUTES](_ => 0);
    var k := 0;
    while k < |intervals|
      invariant 0 <= k <= |intervals|
      invariant forall x :: 0 <= x < DAY_MINUTES ==> counts[x] == CoverCount(intervals[..k], x)
    {
      assert intervals[..k + 1][..k] == intervals[..k];
      if intervals[k].enabled {
        CountInterval(counts, intervals[k]);
      }
      k := k + 1;
    }
    assert intervals[..k] == intervals;
  }

  /** The minutes of the day covered by two or more enabled intervals. */
  function OverlapFlags(ivs: seq<Interval>): (flags: seq<bool>)
    ensures |flags| == DAY_MINUTES
  {
    seq(DAY_MINUTES, x => CoverCount(ivs, x) > 1)
  }

  predicate AllSet(flags: seq<bool>, lo: int, hi: int)
  {
    forall x :: lo <= x < hi ==> 0 <= x < |flags| && flags[x]
  }

  predicate NoneSet(flags: seq<bool>, lo: int, hi: int)
  {
    forall x :: lo <= x < hi ==> 0 <= x < |flags| && !flags[x]
  }

  /** `runs` are the maximal runs of set flags in `[0, upTo)`, in ascending order:
      each run is non-empty and all set, and the gaps around and between them are
      all clear, every gap between two runs non-empty. */
  predicate Runs(runs: seq<Range>, flags: seq<bool>, upTo: int)
  {
    0 <= upTo <= |flags|
    && (forall i :: 0 <= i < |runs| ==>
          0 <= runs[i].startMin < runs[i].endMin <= upTo && AllSet(flags, runs[i].startMin, runs[i].endMin))
    && (forall i :: 0 <= i < |runs| - 1 ==>
          runs[i].endMin < runs[i + 1].startMin && NoneSet(flags, runs[i].endMin, runs[i + 1].startMin))
    && NoneSet(flags, 0, if |runs| == 0 then upTo else runs[0].startMin)
    && (|runs| > 0 ==> NoneSet(flags, runs[|runs| - 1].endMin, upTo))
  }

  /** The runs hold exactly the set flags, and each is maximal: it starts at 0 or
      after a clear flag, and ends at the end or at a clear flag. */
  lemma RunsCharacterised(runs: seq<Range>, flags: seq<bool>, x: int)
    requires Runs(runs, flags, |flags|) && 0 <= x < |flags|
    ensures flags[x] <==> exists i :: 0 <= i < |runs| && InRange(runs[i], x)
    ensures forall i :: 0 <= i < |runs| ==>
      (runs[i].startMin == 0 || !flags[runs[i].startMin - 1])
      && (runs[i].endMin == |flags| || !flags[runs[i].endMin])
  {
    if flags[x] {
      assert |runs| > 0;
      var i := FirstRunEndingAfter(runs, flags, x);
      assert InRange(runs[i], x);
    }
    forall i | 0 <= i < |runs|
      ensures runs[i].startMin == 0 || !flags[runs[i].startMin - 1]
      ensures runs[i].endMin == |flags| || !flags[runs[i].endMin]
    {
      if i > 0 {
        assert NoneSet(flags, runs[i - 1].endMin, runs[i].startMin);
      }
      if i < |runs| - 1 {
        assert NoneSet(flags, runs[i].endMin, runs[i + 1].startMin);
      }
    }
  }

  /** The first run that ends after minute `x`, which holds `x` when `x` is set. */
  lemma FirstRunEndingAfter(runs: seq<Range>, flags: seq<bool>, x: int) returns (i: int)
    requires Runs(runs, flags, |flags|) && 0 <= x < |flags| && flags[x] && |runs| > 0
    ensures 0 <= i < |runs| && InRange(runs[i], x)
  {
    i := 0;
    while i < |runs| && runs[i].endMin <= x
      invariant 0 <= i <= |runs|
      invariant forall k :: 0 <= k < i ==> runs[k].endMin <= x
      invariant i == 0 || x >= runs[i - 1].endMin
    {
      i := i + 1;
    }

  }

  /** The state of the overlap scan before minute `m`: the runs closed so far, and
      the open run `[overlapStart, m)` when `inOverlap`. */
  predicate Scanning(flags: seq<bool>, overlaps: seq<Range>, inOverlap: bool, overlapStart: int, m: int)
  {
    |flags| == DAY_MINUTES && 0 <= m <= DAY_MINUTES
    && (!inOverlap ==>
          Runs(overlaps, flags, m) && (|overlaps| > 0 ==> overlaps[|overlaps| - 1].endMin < m))
    && (inOverlap ==>
          0 <= overlapStart < m && Runs(overlaps, flags, overlapStart) && AllSet(flags, overlapStart, m)
          && (|overlaps| > 0 ==> overlaps[|overlaps| - 1].endMin < overlapStart))
  }

  /** One turn of the second loop of `detectOverlaps`, at minute `m`. */
  method ScanStep(ghost flags: seq<bool>, isOverlap: bool,
                  overlaps: seq<Range>, inOverlap: bool, overlapStart: int, m: int)
    returns (overlaps': seq<Range>, inOverlap': bool, overlapStart': int)
    requires Scanning(flags, overlaps, inOverlap, overlapStart, m)
    requires isOverlap == (m < DAY_MINUTES && flags[m])
    ensures m < DAY_MINUTES ==> Scanning(flags, overlaps', inOverlap', overlapStart', m + 1)
    ensures m == DAY_MINUTES ==> Runs(overlaps', flags, DAY_MINUTES)
  {
    overlaps', inOverlap', overlapStart' := overlaps, inOverlap, overlapStart;
    if isOverlap && !inOverlap' {
      inOverlap' := true;
      overlapStart' := m;
    }
    if (!isOverlap || m == DAY_MINUTES) && inOverlap' {
      overlaps' := overlaps' + [Range(overlapStart', m)];
      inOverlap' := false;
      PushRun(overlaps, flags, Range(overlapStart', m));
    }
  }

  lemma PushRun(runs: seq<Range>, flags: seq<bool>, r: Range)
    requires 0 <= r.startMin < r.endMin <= |flags| && Runs(runs, flags, r.startMin)
    requires |runs| > 0 ==> runs[|runs| - 1].endMin < r.startMin
    requires AllSet(flags, r.startMin, r.endMin)
    ensures Runs(runs + [r], flags, r.endMin)
  {
    var next := runs + [r];
    forall i | 0 <= i < |next| - 1
      ensures next[i].endMin < next[i + 1].startMin && NoneSet(flags, next[i].endMin, next[i + 1].startMin)
    {
      if i < |runs| - 1 {
        assert next[i] == runs[i] && next[i + 1] == runs[i + 1];
      }
    }
  }

  /** `detectOverlaps(intervals)`: the maximal runs of minutes of the day covered
      by two or more enabled intervals, in ascending order. */
  method DetectOverlaps(intervals: seq<Interval>) returns (overlaps: seq<Range>)
    ensures Runs(overlaps, OverlapFlags(intervals), DAY_MINUTES)
  {
    var counts := CountCoverage(intervals);
    ghost var flags := OverlapFlags(intervals);
    overlaps := [];
    var inOverlap := false;
    var overlapStart := 0;
    var m := 0;
    while m <= DAY_MINUTES
      invariant 0 <= m <= DAY_MINUTES + 1
      invariant m <= DAY_MINUTES ==> Scanning(flags, overlaps, inOverlap, overlapStart, m)
      invariant m > DAY_MINUTES ==> Runs(overlaps, flags, DAY_MINUTES)
      invariant forall x :: 0 <= x < DAY_MINUTES ==> counts[x] == CoverCount(intervals, x)
    {
      var isOverlap := m < DAY_MINUTES && counts[m] > 1;
      assert m < DAY_MINUTES ==> flags[m] == (counts[m] > 1);
      overlaps, inOverlap, overlapStart := ScanStep(flags, isOverlap, overlaps, inOverlap, overlapStart, m);
      m := m + 1;
    }
  }

  // ---------------------------------------------------------------------------
  // Totals

  /** How many minutes of `modes` are `mode`. */
  function CountMode(modes: seq<Mode>, mode: Mode): nat
  {
    if |modes| == 0 then 0
    else CountMode(modes[..|modes| - 1], mode) + (if modes[|modes| - 1] == mode then 1 else 0)
  }

  /** Every minute is "blocked" or "free". */
  lemma {:induction false} CountModeSplit(modes: seq<Mode>)
    ensures CountMode(modes, Blocked) + CountMode(modes, Free) == |modes|
  {
    if |modes| > 0 {
      CountModeSplit(modes[..|modes| - 1]);
    }
  }

  /** The whole grid `buildMinuteModes` returns, as a sequence. */
  function GridModes(ivs: seq<Interval>): (modes: seq<Mode>)
    ensures |modes| == GridLength(ivs)
  {
    seq(GridLength(ivs), m => ModeAt(ivs, m))
  }

  /** `computeTotals(intervals)`: the "blocked" minutes of the grid, and 1440 less
      that number as the free ones. */
  method ComputeTotals(intervals: seq<Interval>) returns (blockedMinutes: int, freeMinutes: int)
    ensures blockedMinutes == CountMode(GridModes(intervals), Blocked)
    ensures freeMinutes == DAY_MINUTES - blockedMinutes
  {
    var minutes := BuildMinuteModes(intervals);
    blockedMinutes := 0;
    var i := 0;
    while i < minutes.Length
      invariant 0 <= i <= minutes.Length
      invariant blockedMinutes == CountMode(minutes[..i], Blocked)
    {
      assert minutes[..i + 1][..i] == minutes[..i];
      if minutes[i] == Blocked {
        blockedMinutes := blockedMinutes + 1;
      }
      i := i + 1;
    }
    assert minutes[..] == GridModes(intervals);
    assert minutes[..i] == minutes[..];
    freeMinutes := DAY_MINUTES - blockedMinutes;
  }

  /** Times that are clock texts stay within the day, so the grid is the day. */
  lemma {:induction false} ClockTimesStayInDay(ivs: seq<Interval>)
    requires forall i :: 0 <= i < |ivs| && ivs[i].enabled ==> IsClockText(ivs[i].start) && IsClockText(ivs[i].end)
    ensures Reach(ivs) <= DAY_MINUTES
  {
    if |ivs| > 0 {
      var init, iv := ivs[..|ivs| - 1], ivs[|ivs| - 1];
      assert forall i :: 0 <= i < |init| ==> init[i] == ivs[i];
      ClockTimesStayInDay(init);
      if iv.enabled {
        IntervalReachInDay(iv);
      }
    }
  }

  lemma IntervalReachInDay(iv: Interval)
    requires IsClockText(iv.start) && IsClockText(iv.end)
    ensures RangesReach(IntervalRanges(iv)) <= DAY_MINUTES
  {
    ClockTimeInDay(iv.start);
    ClockTimeInDay(iv.end);
    var s, e := GridTime(iv.start).value, GridTime(iv.end).value;
    assert IntervalRanges(iv) == ExpandIntervalToRanges(s, e);
    ExpandedReach(s, e);
  }

  lemma ExpandedReach(s: int, e: int)
    requires 0 <= s < DAY_MINUTES && 0 <= e < DAY_MINUTES
    ensures RangesReach(ExpandIntervalToRanges(s, e)) <= DAY_MINUTES
  {
    var rs := ExpandIntervalToRanges(s, e);
    if e < s {
      assert rs[1..] == [Range(0, e)] && rs[1..][1..] == [];
      assert RangesReach(rs[1..]) == Max(RangeReach(Range(0, e)), 0);
    } else if e > s {
      assert rs[1..] == [];
    }
  }

  /** A clock text reads as a minute of the day. */
  lemma ClockTimeInDay(s: string)
    requires IsClockText(s)
    ensures GridTime(s).Some? && 0 <= GridTime(s).value < DAY_MINUTES
  {
    var h, m := ClockSplit(s);
    var t := ClockOfFields(h, m);
  }

  /** With clock-text times the totals split the day: the free minutes are the
      day's "free" minutes, never negative, and the two add up to 1440. */
  lemma TotalsSplitTheDay(ivs: seq<Interval>)
    requires forall i :: 0 <= i < |ivs| && ivs[i].enabled ==> IsClockText(ivs[i].start) && IsClockText(ivs[i].end)
    ensures GridModes(ivs) == DayModes(ivs)
    ensures DAY_MINUTES - CountMode(GridModes(ivs), Blocked) == CountMode(DayModes(ivs), Free) >= 0
  {
    ClockTimesStayInDay(ivs);
    CountModeSplit(DayModes(ivs));
  }

  // ---------------------------------------------------------------------------
  // Disabled intervals

  /** `intervals.filter((i) => i.enabled)`. */
  function EnabledOnly(ivs: seq<Interval>): seq<Interval>
  {
    if |ivs| == 0 then []
    else if ivs[|ivs| - 1].enabled then EnabledOnly(ivs[..|ivs| - 1]) + [ivs[|ivs| - 1]]
    else EnabledOnly(ivs[..|ivs| - 1])
  }

  /** Disabled intervals change nothing: not the grid's length, not a minute's
      mode, not its overlap count. */
  lemma {:induction false} DisabledIgnored(ivs: seq<Interval>, m: int)
    ensures GridLength(EnabledOnly(ivs)) == GridLength(ivs)
    ensures ModeAt(EnabledOnly(ivs), m) == ModeAt(ivs, m)
    ensures CoverCount(EnabledOnly(ivs), m) == CoverCount(ivs, m)
  {
    if |ivs| > 0 {
      var init, iv := ivs[..|ivs| - 1], ivs[|ivs| - 1];
      DisabledIgnored(init, m);
      var e := EnabledOnly(init);
      if iv.enabled {
        assert (e + [iv])[..|e|] == e;
      }
    }
  }
}
