/** The interval editor of the options page
    (`src/ui/options/schedule/ScheduleView.tsx`): deleting, toggling and saving
    an interval of the selected weekday, the modal's refusal of an empty
    interval, and the duration and time labels it shows. */
module ScheduleView {
  import opened Base
  import opened Types
  import opened ScheduleGrid

  // ---------------------------------------------------------------------------
  // Editing a day

  /** `intervals.filter((i) => i.id !== id)`. */
  function WithoutId(xs: seq<Interval>, id: string): seq<Interval>
    decreases |xs|
  {
    if |xs| == 0 then []
    else (if xs[0].id == id then [] else [xs[0]]) + WithoutId(xs[1..], id)
  }

  /** The filtered list holds exactly the intervals with another id, none
      with the deleted one, and is the list itself when no interval has it. */
  lemma {:induction false} WithoutIdMeaning(xs: seq<Interval>, id: string)
    ensures forall iv :: iv in WithoutId(xs, id) <==> iv in xs && iv.id != id
    ensures |WithoutId(xs, id)| <= |xs|
    ensures (forall k :: 0 <= k < |xs| ==> xs[k].id != id) ==> WithoutId(xs, id) == xs
    decreases |xs|
  {
    if |xs| > 0 {
      WithoutIdMeaning(xs[1..], id);
      assert forall iv :: iv in xs <==> iv == xs[0] || iv in xs[1..];
      if forall k :: 0 <= k < |xs| ==> xs[k].id != id {
        assert forall k :: 0 <= k < |xs[1..]| ==> xs[1..][k].id != id by {
          forall k | 0 <= k < |xs[1..]| ensures xs[1..][k].id != id {
            assert xs[1..][k] == xs[k + 1];
          }
        }
        assert [xs[0]] + xs[1..] == xs;
      }
    }
  }

  /** `handleDelete(id)` on the selected day. */
  function HandleDelete(week: IntervalWeek, day: int, id: string): IntervalWeek
  {
    week[day := WithoutId(DayIntervals(week, day), id)]
  }

  /** Deleting drops every interval with the id from the selected day, keeps
      its other intervals, and leaves every other day as it was. */
  lemma HandleDeleteEffect(week: IntervalWeek, day: int, id: string, other: int)
    ensures var r := HandleDelete(week, day, id);
      day in r && (forall iv :: iv in r[day] <==> iv in DayIntervals(week, day) && iv.id != id)
      && (other != day ==> (other in r <==> other in week) && DayIntervals(r, other) == DayIntervals(week, other))
  {
    WithoutIdMeaning(DayIntervals(week, day), id);
  }

  /** Deleting twice is deleting once. */
  lemma {:induction false} WithoutIdTwice(xs: seq<Interval>, id: string)
    ensures WithoutId(WithoutId(xs, id), id) == WithoutId(xs, id)
    decreases |xs|
  {
    if |xs| > 0 {
      WithoutIdTwice(xs[1..], id);
      var rest := WithoutId(xs[1..], id);
      if xs[0].id != id {
        assert ([xs[0]] + rest)[0] == xs[0] && ([xs[0]] + rest)[1..] == rest;
        assert WithoutId([xs[0]] + rest, id) == [xs[0]] + WithoutId(rest, id);
      } else {
        assert WithoutId(xs, id) == rest by {
          assert [] + rest == rest;
        }
      }
    }
  }

  /** The interval with `enabled` flipped when it carries the id. */
  function ToggledIf(iv: Interval, id: string): Interval
  {
    if iv.id == id then iv.(enabled := !iv.enabled) else iv
  }

  /** `intervals.map((i) => (i.id === id ? { ...i, enabled: !i.enabled } : i))`. */
  function ToggleId(xs: seq<Interval>, id: string): (r: seq<Interval>)
    ensures |r| == |xs|
  {
    seq(|xs|, k requires 0 <= k < |xs| => ToggledIf(xs[k], id))
  }

  /** `handleToggle(id)` on the selected day. */
  function HandleToggle(week: IntervalWeek, day: int, id: string): IntervalWeek
  {
    week[day := ToggleId(DayIntervals(week, day), id)]
  }

  /** Toggling keeps the day's order and length and every field but
      `enabled`, flips `enabled` exactly on the intervals with the id, and
      touches no other day; toggling twice restores the day. */
  lemma HandleToggleEffect(week: IntervalWeek, day: int, id: string, other: int)
    ensures var xs := DayIntervals(week, day);
      var r := HandleToggle(week, day, id);
      day in r && |r[day]| == |xs|
      && (forall k :: 0 <= k < |xs| ==>
            r[day][k].(enabled := xs[k].enabled) == xs[k]
            && (r[day][k].enabled != xs[k].enabled <==> xs[k].id == id))
      && (other != day ==> (other in r <==> other in week) && DayIntervals(r, other) == DayIntervals(week, other))
      && HandleToggle(r, day, id) == week[day := xs]
  {
    var xs := DayIntervals(week, day);
    var once := ToggleId(xs, id);
    assert ToggleId(once, id) == xs;
  }

  /** `list.some((i) => i.id === next.id)`. */
  predicate HasId(xs: seq<Interval>, id: string)
  {
    exists k :: 0 <= k < |xs| && xs[k].id == id
  }

  /** `list.map((i) => (i.id === next.id ? next : i))`. */
  function ReplaceId(xs: seq<Interval>, next: Interval): (r: seq<Interval>)
    ensures |r| == |xs|
  {
    seq(|xs|, k requires 0 <= k < |xs| => if xs[k].id == next.id then next else xs[k])
  }

  /** The day's list after `handleSave(next)`. */
  function SavedList(xs: seq<Interval>, next: Interval): seq<Interval>
  {
    if HasId(xs, next.id) then ReplaceId(xs, next) else xs + [next]
  }

  /** `handleSave(next)` on the selected day. */
  function HandleSave(week: IntervalWeek, day: int, next: Interval): IntervalWeek
  {
    week[day := SavedList(DayIntervals(week, day), next)]
  }

  /** Saving an interval whose id is listed replaces every interval with that
      id in place; saving a new one appends it. Either way the saved interval
      is the only one left with its id, and no other day changes. */
  lemma HandleSaveEffect(week: IntervalWeek, day: int, next: Interval, other: int)
    ensures var xs := DayIntervals(week, day);
      var r := HandleSave(week, day, next);
      day in r && next in r[day]
      && (HasId(xs, next.id) ==>
            |r[day]| == |xs| && forall k :: 0 <= k < |xs| ==> r[day][k] == if xs[k].id == next.id then next else xs[k])
      && (!HasId(xs, next.id) ==> r[day] == xs + [next])
      && (forall k :: 0 <= k < |r[day]| && r[day][k].id == next.id ==> r[day][k] == next)
      && (other != day ==> (other in r <==> other in week) && DayIntervals(r, other) == DayIntervals(week, other))
  {
    var xs := DayIntervals(week, day);
    if HasId(xs, next.id) {
      var k :| 0 <= k < |xs| && xs[k].id == next.id;
      assert ReplaceId(xs, next)[k] == next;
    } else {
      assert (xs + [next])[|xs|] == next;
    }
  }

  /** Saving the same interval again changes nothing. */
  lemma HandleSaveIdempotent(week: IntervalWeek, day: int, next: Interval)
    ensures HandleSave(HandleSave(week, day, next), day, next) == HandleSave(week, day, next)
  {
    var xs := DayIntervals(week, day);
    var once := SavedList(xs, next);
    HandleSaveEffect(week, day, next, day);
    var k :| 0 <= k < |once| && once[k] == next;
    assert HasId(once, next.id);
    assert ReplaceId(once, next) == once;
  }

  // ---------------------------------------------------------------------------
  // The interval modal

  /** The modal's `validate()`: the error shown, or "" when the times differ. */
  function Validate(start: string, end: string): (message: string)
    ensures message == "" <==> start != end
  {
    if start == end then "Inicio y fin no pueden ser iguales." else ""
  }

  /** What the modal's save button does: show an error, or hand an interval on. */
  datatype ModalOutcome = Rejected(message: string) | Accepted(interval: Interval)

  /** The modal's `handleSave()`: the interval handed to `onSave`, or the
      error it shows instead. The id is that of the interval being edited,
      else `freshId`, which stands for the generated `id-<time>-<random>`. */
  function ModalSave(editing: Option<Interval>, freshId: string, start: string, end: string,
                     mode: Mode, enabled: bool): ModalOutcome
  {
    var message := Validate(start, end);
    if message != "" then Rejected(message)
    else Accepted(Interval(if editing.Some? then editing.value.id else freshId, start, end, mode, enabled))
  }

  /** The modal hands on an interval exactly when start and end differ; an
      edited interval keeps its id, so saving it replaces it in its day. */
  lemma ModalSaveMeaning(editing: Option<Interval>, freshId: string, start: string, end: string,
                         mode: Mode, enabled: bool)
    ensures var r := ModalSave(editing, freshId, start, end, mode, enabled);
      (r.Accepted? <==> start != end)
      && (r.Accepted? ==>
            r.interval.start == start && r.interval.end == end && r.interval.mode == mode
            && r.interval.enabled == enabled && r.interval.start != r.interval.end)
      && (r.Accepted? && editing.Some? ==> r.interval.id == editing.value.id)
      && (r.Accepted? && editing.None? ==> r.interval.id == freshId)
  {
  }

  // ---------------------------------------------------------------------------
  // Labels

  /** `formatMinutes(total)`: "Hh Mm" with `Math.floor(total / 60)` hours
      and `total % 60` minutes. */
  function FormatMinutes(total: int): string
  {
    IntToString(total / 60) + "h " + IntToString(JsRem(total, 60)) + "m"
  }

  /** For a minute count that is not negative, the label reads `h` hours and
      `m` minutes with `60 * h + m` the count and `m` below 60. */
  lemma FormatMinutesFields(total: nat)
    ensures exists h: nat, m: nat ::
      m < 60 && 60 * h + m == total && FormatMinutes(total) == NatToString(h) + "h " + NatToString(m) + "m"
  {
    var h, m := total / 60, total % 60;
    assert 60 * h + m == total;
    assert FormatMinutes(total) == NatToString(h) + "h " + NatToString(m) + "m";
  }

  /** The minutes from `s` to `e` going forward round the clock. */
  function ForwardMinutes(s: int, e: int): int
  {
    if e > s then e - s else DAY_MINUTES - s + e
  }

  /** `durationLabel()`: "0m" for equal times, else the forward distance
      from start to end as "Hh Mm"; a time that does not parse is NaN, which
      prints as "NaNh NaNm". */
  function DurationLabel(start: string, end: string): string
  {
    match (GridTime(start), GridTime(end))
    case (Some(s), Some(e)) => if s == e then "0m" else FormatMinutes(ForwardMinutes(s, e))
    case _ => "NaNh NaNm"
  }

  /** Between two different minutes of the day the label shows a duration
      `t` with `0 < t < 1440` that takes the start to the end round the clock. */
  lemma DurationLabelOfMinutes(start: string, end: string, s: int, e: int)
    requires GridTime(start) == Some(s) && GridTime(end) == Some(e)
    requires 0 <= s < DAY_MINUTES && 0 <= e < DAY_MINUTES
    ensures DurationLabel(start, end) == "0m" <==> s == e
    ensures s != e ==> exists t :: 0 < t < DAY_MINUTES && (s + t) % DAY_MINUTES == e
                                   && DurationLabel(start, end) == FormatMinutes(t)
  {
    if s != e {
      var t := ForwardMinutes(s, e);
      assert 0 < t < DAY_MINUTES && (s + t) % DAY_MINUTES == e;
      FormatMinutesLong(t);
      assert DurationLabel(start, end) == FormatMinutes(t);
    }
  }

  /** A "Hh Mm" label is longer than "0m". */
  lemma FormatMinutesLong(total: int)
    ensures |FormatMinutes(total)| >= 4
  {
  }

  /** `formatMinuteLabel(total, use12h)`: "HH:MM" in 24-hour mode; in 12-hour
      mode "h:MM AM" or "h:MM PM" with hour 0 shown as 12. */
  function FormatMinuteLabel(total: int, use12h: bool): string
  {
    if !use12h then MinutesToTime(total)
    else
      var hh := JsRem(total / 60, 24);
      var mm := JsRem(total, 60);
      var period := if hh >= 12 then "PM" else "AM";
      var hour12 := if JsRem(hh, 12) == 0 then 12 else JsRem(hh, 12);
      IntToString(hour12) + ":" + PadStart2(IntToString(mm)) + " " + period
  }

  /** The 12-hour label of a minute count: an hour from 1 to 12, the minutes
      padded to two digits, "PM" exactly from noon, and the clock hour is
      recovered as `hour % 12`, plus 12 in the afternoon. */
  lemma FormatMinuteLabel12h(total: nat)
    ensures exists hour12: nat, period: string ::
      1 <= hour12 <= 12
      && (period == "PM" <==> (total / 60) % 24 >= 12) && (period == "AM" || period == "PM")
      && hour12 % 12 + (if period == "PM" then 12 else 0) == (total / 60) % 24
      && FormatMinuteLabel(total, true) == NatToString(hour12) + ":" + Pad2(total % 60) + " " + period
  {
    var hh := (total / 60) % 24;
    var hour12: nat := if hh % 12 == 0 then 12 else hh % 12;
    var period := if hh >= 12 then "PM" else "AM";
    PadStartOfNat(total % 60);
    assert FormatMinuteLabel(total, true) == NatToString(hour12) + ":" + Pad2(total % 60) + " " + period;
  }

  /** In 24-hour mode the label is the editor's own "HH:MM" text. */
  lemma FormatMinuteLabel24h(total: nat)
    ensures FormatMinuteLabel(total, false) == Pad2((total / 60) % 24) + ":" + Pad2(total % 60)
  {
    MinutesToTimeOfCount(total);
  }
}
