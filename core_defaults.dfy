/** The defaults of the `src/core` generation (`src/core/defaults.ts`): empty
    schedules for the seven weekdays, the intervals derived from them by
    `toIntervals`, the default settings and the empty version-2 metrics. */
module CoreDefaults {
  import opened Base
  import opened Types
  import opened RawInput
  import opened StorageDays
  import Storage
  import SharedStorage

  /** `{ 0: [], 1: [], …, 6: [] }`. */
  function EmptyWeek<T>(): (w: map<int, seq<T>>)
  {
    map d | d in Weekdays() :: []
  }

  /** The day numbers of `Date.getDay()`. */
  function Weekdays(): (days: set<int>)
    ensures forall d :: d in days <==> 0 <= d < 7
  {
    {0, 1, 2, 3, 4, 5, 6}
  }

  /** `DEFAULT_SCHEDULES`. */
  function DefaultSchedules(): WeekSchedule
  {
    EmptyWeek()
  }

  /** `toIntervals(schedules)`: the seven empty days, each day named by an array
      under a numeric key replaced by its derived intervals. */
  method ToIntervals(schedules: RawWeek<RawRange>) returns (intervals: IntervalWeek)
    ensures intervals == IntervalsOfSchedules(EmptyWeek(), schedules)
  {
    intervals := EmptyWeek();
    intervals := FillDays(intervals, schedules, DerivedInterval);
  }

  /** Every weekday is present after `toIntervals`; a day no entry names stays
      empty; a named day holds enabled blocking intervals with the derived ids. */
  lemma ToIntervalsDays(schedules: RawWeek<RawRange>, day: int)
    ensures 0 <= day < 7 ==> day in IntervalsOfSchedules(EmptyWeek(), schedules)
    ensures day in IntervalsOfSchedules(EmptyWeek(), schedules) <==> 0 <= day < 7 || LastFor(schedules, day).Some?
    ensures 0 <= day < 7 && LastFor(schedules, day).None? ==> IntervalsOfSchedules(EmptyWeek(), schedules)[day] == []
    ensures LastFor(schedules, day).Some? ==>
      var items := LastFor(schedules, day).value;
      var ivs := IntervalsOfSchedules(EmptyWeek(), schedules)[day];
      |ivs| == |items| &&
      forall i :: 0 <= i < |items| ==>
        ivs[i] == Interval(DerivedId(day, i, Shown(items[i].start), Shown(items[i].end)),
                           Shown(items[i].start), Shown(items[i].end), Blocked, true)
  {
    DerivedIntervalDay(EmptyWeek(), schedules, day);
  }

  /** `DEFAULT_INTERVALS = toIntervals(DEFAULT_SCHEDULES)`. */
  function DefaultIntervals(): IntervalWeek
  {
    IntervalsOfSchedules(EmptyWeek(), WeekEntries(DefaultSchedules(), Storage.RangeJson))
  }

  /** The default intervals, like the default schedules, are the seven empty days. */
  lemma DefaultIntervalsEmpty()
    ensures DefaultIntervals() == EmptyWeek()
    ensures forall d :: d in DefaultIntervals() <==> 0 <= d < 7
  {
    var w: WeekSchedule := DefaultSchedules();
    var r := DefaultIntervals();
    forall d
      ensures d in r <==> d in EmptyWeek<Interval>()
      ensures d in r ==> r[d] == EmptyWeek<Interval>()[d]
    {
      FillOwnEntries(EmptyWeek<Interval>(), w, Storage.RangeJson, DerivedInterval, d);
    }
    SameMaps(r, EmptyWeek());
  }

  /** `DEFAULT_SETTINGS`. The core record has no weekly-unblock fields or tags:
      they are off, absent and empty here. */
  function DefaultSettings(): Settings
  {
    Settings(
      blockEnabled := false,
      blockShorts := true,
      blockKids := false,
      language := En,
      strictMode := false,
      pinHash := None,
      blockedDomains := [],
      whitelist := [],
      schedules := DefaultSchedules(),
      intervalsByDay := DefaultIntervals(),
      timeFormat12h := false,
      unblockUntil := None,
      weeklyUnblockEnabled := false,
      weeklyUnblockDays := None,
      weeklyUnblockDurationMinutes := 0.0,
      weeklyUnblockUntil := None,
      weeklyUnblockLastWeek := None,
      blockedDomainTags := map[])
  }

  /** `DEFAULT_METRICS`. */
  function DefaultMetrics(): Metrics
  {
    Metrics(2, map[], map[], map[], map[], map[], None, None)
  }

  /** Out of the box nothing is blocked by hand, no temporary unblock is
      running at any time, and no domain or exception is listed. */
  lemma DefaultSettingsInert(now: int)
    ensures !DefaultSettings().blockEnabled && DefaultSettings().blockShorts
    ensures !TemporaryUnblockActive(DefaultSettings().strictMode, DefaultSettings().unblockUntil, now)
    ensures |DefaultSettings().blockedDomains| == 0 && |DefaultSettings().whitelist| == 0
    ensures forall d :: 0 <= d < 7 ==> DayIntervals(DefaultSettings().intervalsByDay, d) == []
  {
    DefaultIntervalsEmpty();
  }

  /** The default metrics are version 2 with every counter at zero and no timestamps. */
  lemma DefaultMetricsEmpty(key: string)
    ensures DefaultMetrics().version == 2
    ensures Count(DefaultMetrics().attemptsByDay, key) == 0 && Count(DefaultMetrics().timeByDay, key) == 0
    ensures Count(DefaultMetrics().blockedTimeByDay, key) == 0 && Count(DefaultMetrics().sessionsByDay, key) == 0
    ensures key !in DefaultMetrics().timeByDomainByDay
    ensures DefaultMetrics().lastAttemptAt.None? && DefaultMetrics().lastUpdatedAt.None?
  {
  }

  /** The same record in the oldest generation's shape. */
  function SharedOf(s: Settings): SharedSettings
  {
    SharedSettings(s.blockEnabled, s.blockShorts, s.blockKids, s.strictMode, s.pinHash, s.blockedDomains,
                   s.whitelist, s.schedules, s.intervalsByDay, s.timeFormat12h, s.unblockUntil)
  }

  /** These defaults are in the shape the settings merge keeps, so a merge
      starting from them is idempotent. */
  lemma DefaultsMergeClean()
    ensures SharedStorage.DefaultsClean(SharedOf(DefaultSettings()), DefaultIntervals())
  {
    DefaultIntervalsEmpty();
  }
}
