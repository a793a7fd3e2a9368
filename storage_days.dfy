/** The per-weekday merges of stored settings (`mergeSchedules`,
    `schedulesToIntervals`, `mergeIntervalsByDay`), written identically in
    `src/infrastructure/storage.ts` and `src/shared/storage.ts`. */
module StorageDays {
  import opened Base
  import opened Types
  import opened RawInput

  /** A stored schedule range before validation: either field may be missing. */
  datatype RawRange = RawRange(start: Option<string>, end: Option<string>)

  /** A stored interval before validation. */
  datatype RawInterval = RawInterval(
    id: Option<string>,
    start: Option<string>,
    end: Option<string>,
    mode: Option<string>,
    enabled: Json)

  /** `value || "00:00"`. */
  function OrMidnight(v: Option<string>): string
  {
    if v.Some? && v.value != "" then v.value else "00:00"
  }

  /** A stored string field as the id template prints it: a missing one reads
      "undefined". The merged intervals also take this text as their start or end,
      where the code copies the value `undefined` itself, on which a later
      `parseTimeToMinutes` throws; that failure is not modelled. */
  function Shown(v: Option<string>): string
  {
    if v.Some? then v.value else "undefined"
  }

  /** `` `day-${day}-${idx}-${start}-${end}` ``. */
  function DerivedId(day: int, idx: nat, start: string, end: string): (id: string)
    ensures id != ""
  {
    "day-" + IntToString(day) + "-" + IntToString(idx) + "-" + start + "-" + end
  }

  /** The range `mergeSchedules` keeps for a stored range. */
  function ScheduleRange(day: int, idx: int, r: RawRange): TimeRange
  {
    TimeRange(OrMidnight(r.start), OrMidnight(r.end))
  }

  /** The interval `schedulesToIntervals` derives from a stored range. */
  function DerivedInterval(day: int, idx: int, r: RawRange): Interval
  {
    Interval(DerivedId(day, if idx >= 0 then idx else 0, Shown(r.start), Shown(r.end)),
             Shown(r.start), Shown(r.end), Blocked, true)
  }

  /** The interval `mergeIntervalsByDay` keeps for a stored interval. */
  function MergedInterval(day: int, idx: int, r: RawInterval): Interval
  {
    Interval(if r.id.Some? && r.id.value != "" then r.id.value
             else DerivedId(day, if idx >= 0 then idx else 0, Shown(r.start), Shown(r.end)),
             Shown(r.start), Shown(r.end),
             if r.mode == Some("free") then Free else Blocked,
             Truthy(r.enabled))
  }

  // ---------------------------------------------------------------------------
  // Specifications

  /** What `mergeSchedules(input)` returns: the default days when the input is
      missing, else the default days overwritten by the loop. */
  function MergedSchedules(base: WeekSchedule, input: Option<RawWeek<RawRange>>): WeekSchedule
  {
    match input
    case None => base
    case Some(entries) => Fill(base, entries, ScheduleRange)
  }

  /** What `schedulesToIntervals(input)` returns. */
  function IntervalsOfSchedules(base: IntervalWeek, input: RawWeek<RawRange>): IntervalWeek
  {
    Fill(base, input, DerivedInterval)
  }

  /** What `mergeIntervalsByDay(input, fallbackSchedules)` returns. */
  function MergedIntervals(base: IntervalWeek, input: Option<RawWeek<RawInterval>>,
                           fallback: Option<RawWeek<RawRange>>): IntervalWeek
  {
    match input
    case None => if fallback.Some? then IntervalsOfSchedules(base, fallback.value) else base
    case Some(entries) => Fill(base, entries, MergedInterval)
  }

  // ---------------------------------------------------------------------------
  // The loops

  method MergeSchedules(base: WeekSchedule, input: Option<RawWeek<RawRange>>) returns (next: WeekSchedule)
    ensures next == MergedSchedules(base, input)
  {
    next := base;
    if input.None? {
      return;
    }
    next := FillDays(base, input.value, ScheduleRange);
  }

  method SchedulesToIntervals(base: IntervalWeek, input: RawWeek<RawRange>) returns (intervals: IntervalWeek)
    ensures intervals == IntervalsOfSchedules(base, input)
  {
    intervals := FillDays(base, input, DerivedInterval);
  }

  method MergeIntervalsByDay(base: IntervalWeek, input: Option<RawWeek<RawInterval>>,
                             fallback: Option<RawWeek<RawRange>>) returns (next: IntervalWeek)
    ensures next == MergedIntervals(base, input, fallback)
  {
    if input.None? {
      if fallback.Some? {
        next := SchedulesToIntervals(base, fallback.value);
      } else {
        next := base;
      }
      return;
    }
    next := FillDays(base, input.value, MergedInterval);
  }

  // ---------------------------------------------------------------------------
  // What the merges promise

  /** A range both of whose ends are set. */
  predicate Filled(r: TimeRange)
  {
    r.start != "" && r.end != ""
  }

  /** An interval with an id. */
  predicate HasId(iv: Interval)
  {
    iv.id != ""
  }

  /** A day named by an array under a numeric key takes the last such array,
      each range with a falsy end replaced by "00:00"; every other default day
      stays as it was. */
  lemma MergedScheduleDay(base: WeekSchedule, input: RawWeek<RawRange>, day: int)
    ensures day in MergedSchedules(base, Some(input)) <==> day in base || LastFor(input, day).Some?
    ensures LastFor(input, day).None? && day in base ==> MergedSchedules(base, Some(input))[day] == base[day]
    ensures LastFor(input, day).Some? ==>
      var items := LastFor(input, day).value;
      var ranges := MergedSchedules(base, Some(input))[day];
      |ranges| == |items| &&
      forall i :: 0 <= i < |items| ==>
        (ranges[i].start == if items[i].start.Some? && items[i].start.value != "" then items[i].start.value else "00:00")
        && (ranges[i].end == if items[i].end.Some? && items[i].end.value != "" then items[i].end.value else "00:00")
  {
    FillAt(base, input, ScheduleRange, day);
  }

  /** Merged schedules keep every default day and never hold an empty end,
      when the default ranges hold none. */
  lemma MergedSchedulesFilled(base: WeekSchedule, input: Option<RawWeek<RawRange>>)
    requires AllItems(base, Filled)
    ensures AllItems(MergedSchedules(base, input), Filled)
    ensures base.Keys <= MergedSchedules(base, input).Keys
  {
    if input.Some? {
      FillKeeps(base, input.value, ScheduleRange, Filled);
      BaseDaysKept(base, input.value, ScheduleRange);
    }
  }

  /** An interval derived from a legacy range is enabled and blocking, and keeps
      the range's ends as they were stored. */
  lemma DerivedIntervalDay(base: IntervalWeek, input: RawWeek<RawRange>, day: int)
    ensures day in IntervalsOfSchedules(base, input) <==> day in base || LastFor(input, day).Some?
    ensures LastFor(input, day).None? && day in base ==> IntervalsOfSchedules(base, input)[day] == base[day]
    ensures LastFor(input, day).Some? ==>
      var items := LastFor(input, day).value;
      var ivs := IntervalsOfSchedules(base, input)[day];
      |ivs| == |items| &&
      forall i :: 0 <= i < |items| ==>
        ivs[i].mode == Blocked && ivs[i].enabled
        && ivs[i].start == Shown(items[i].start) && ivs[i].end == Shown(items[i].end)
        && ivs[i].id == DerivedId(day, i, ivs[i].start, ivs[i].end)
  {
    FillAt(base, input, DerivedInterval, day);
  }

  /** A stored interval keeps its id when it has one, is free exactly when its
      mode is "free", and is enabled exactly when its flag is truthy. */
  lemma MergedIntervalDay(base: IntervalWeek, input: RawWeek<RawInterval>, day: int)
    ensures day in Fill(base, input, MergedInterval) <==> day in base || LastFor(input, day).Some?
    ensures LastFor(input, day).None? && day in base ==> Fill(base, input, MergedInterval)[day] == base[day]
    ensures LastFor(input, day).Some? ==>
      var items := LastFor(input, day).value;
      var ivs := Fill(base, input, MergedInterval)[day];
      |ivs| == |items| &&
      forall i :: 0 <= i < |items| ==>
        (ivs[i].mode == Free <==> items[i].mode == Some("free"))
        && (ivs[i].enabled <==> Truthy(items[i].enabled))
        && (items[i].id.Some? && items[i].id.value != "" ==> ivs[i].id == items[i].id.value)
        && ((items[i].id.None? || items[i].id.value == "") ==> ivs[i].id == DerivedId(day, i, ivs[i].start, ivs[i].end))
        && ivs[i].start == Shown(items[i].start) && ivs[i].end == Shown(items[i].end)
  {
    FillAt(base, input, MergedInterval, day);
  }

  /** Every merged interval has an id and every default day survives, when the
      default intervals all have ids. */
  lemma MergedIntervalsHaveIds(base: IntervalWeek, input: Option<RawWeek<RawInterval>>,
                               fallback: Option<RawWeek<RawRange>>)
    requires AllItems(base, HasId)
    ensures AllItems(MergedIntervals(base, input, fallback), HasId)
    ensures base.Keys <= MergedIntervals(base, input, fallback).Keys
  {
    match input
    case None =>
      if fallback.Some? {
        FillKeeps(base, fallback.value, DerivedInterval, HasId);
        BaseDaysKept(base, fallback.value, DerivedInterval);
      }
    case Some(entries) =>
      FillKeeps(base, entries, MergedInterval, HasId);
      BaseDaysKept(base, entries, MergedInterval);
  }

  lemma FirstField(a: string, rest: string)
    requires AllDigits(a)
    ensures Split(a + "-" + rest, '-')[0] == a
  {
    assert a + "-" + rest == a + ['-'] + rest;
    SplitJoin(a, '-', rest);
  }

  /** The derived id as the day prefix followed by the index field and the rest. */
  lemma DerivedIdShape(day: int, idx: nat, start: string, end: string)
    ensures DerivedId(day, idx, start, end)
            == ("day-" + IntToString(day) + "-") + (NatToString(idx) + "-" + (start + "-" + end))
  {
    assert IntToString(idx) == NatToString(idx);
  }

  /** Two ranges of the same day get different derived ids, whatever their ends. */
  lemma DerivedIdsDistinct(day: int, i: nat, j: nat, s1: string, e1: string, s2: string, e2: string)
    requires i != j
    ensures DerivedId(day, i, s1, e1) != DerivedId(day, j, s2, e2)
  {
    var p := "day-" + IntToString(day) + "-";
    var a, b := NatToString(i), NatToString(j);
    var r1, r2 := s1 + "-" + e1, s2 + "-" + e2;
    DerivedIdShape(day, i, s1, e1);
    DerivedIdShape(day, j, s2, e2);
    if DerivedId(day, i, s1, e1) == DerivedId(day, j, s2, e2) {
      assert a + "-" + r1 == b + "-" + r2 by {
        assert (p + (a + "-" + r1))[|p|..] == a + "-" + r1;
        assert (p + (b + "-" + r2))[|p|..] == b + "-" + r2;
      }
      FirstField(a, r1);
      FirstField(b, r2);
      NatToStringInjective(i, j);
    }
  }
}
