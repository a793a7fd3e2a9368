/** The settings and metrics merges of `src/infrastructure/storage.ts`: what is
    read back from `chrome.storage.local` is validated field by field and
    completed from the defaults, and updates go through the same merge. The
    storage itself is a value: a stored record is a `RawSettings` (or `None` when
    nothing is stored), and `DEFAULT_SETTINGS`, `DEFAULT_INTERVALS` and
    `DEFAULT_METRICS` are parameters. */
module Storage {
  import opened Base
  import opened Types
  import opened RawInput
  import opened StorageDays
  import opened StorageFields
  import Calendar

  /** A stored settings record before validation. For the fields the merge
      takes as they are, `None` is a missing key; `blockedDomains` and
      `whitelist` are `None` when they are not arrays, `schedules` and
      `intervalsByDay` when they are falsy, `weeklyUnblockDays` when it is not an
      array and `blockedDomainTags` when it is not an object. */
  datatype RawSettings = RawSettings(
    blockEnabled: Option<bool>,
    blockShorts: Option<bool>,
    blockKids: Option<bool>,
    language: Option<Language>,
    strictMode: Option<bool>,
    pinHash: Option<Option<string>>,
    blockedDomains: Option<seq<string>>,
    whitelist: Option<seq<string>>,
    schedules: Option<RawWeek<RawRange>>,
    intervalsByDay: Option<RawWeek<RawInterval>>,
    timeFormat12h: Option<bool>,
    unblockUntil: Option<Option<int>>,
    weeklyUnblockEnabled: Json,
    weeklyUnblockDays: Option<seq<Json>>,
    weeklyUnblockDurationMinutes: Json,
    weeklyUnblockUntil: Json,
    weeklyUnblockLastWeek: Json,
    blockedDomainTags: Option<seq<(string, Json)>>)

  /** The value of a key the spread copies, or the default when it is missing. */
  function Or<T>(v: Option<T>, dflt: T): T
  {
    if v.Some? then v.value else dflt
  }

  /** What `mergeSettings(input)` returns. */
  function Merged(d: Settings, di: IntervalWeek, input: RawSettings): Settings
  {
    Settings(
      blockEnabled := Or(input.blockEnabled, d.blockEnabled),
      blockShorts := Or(input.blockShorts, d.blockShorts),
      blockKids := Or(input.blockKids, d.blockKids),
      language := Or(input.language, d.language),
      strictMode := Or(input.strictMode, d.strictMode),
      pinHash := Or(input.pinHash, d.pinHash),
      blockedDomains := Or(input.blockedDomains, d.blockedDomains),
      whitelist := Or(input.whitelist, d.whitelist),
      schedules := MergedSchedules(d.schedules, input.schedules),
      intervalsByDay := MergedIntervals(di, input.intervalsByDay, input.schedules),
      timeFormat12h := Or(input.timeFormat12h, d.timeFormat12h),
      unblockUntil := Or(input.unblockUntil, d.unblockUntil),
      weeklyUnblockEnabled := Truthy(input.weeklyUnblockEnabled),
      weeklyUnblockDays := WeeklyDays(d.weeklyUnblockDays, input.weeklyUnblockDays),
      weeklyUnblockDurationMinutes := WeeklyDuration(d.weeklyUnblockDurationMinutes, input.weeklyUnblockDurationMinutes),
      weeklyUnblockUntil := WeeklyUntil(input.weeklyUnblockUntil),
      weeklyUnblockLastWeek := WeeklyLastWeek(input.weeklyUnblockLastWeek),
      blockedDomainTags := NormalizedTags(input.blockedDomainTags))
  }

  /** `mergeSettings`: the three day loops, the tag loop and the field checks. */
  method MergeSettings(d: Settings, di: IntervalWeek, input: RawSettings) returns (s: Settings)
    ensures s == Merged(d, di, input)
  {
    var schedules := MergeSchedules(d.schedules, input.schedules);
    var intervals := MergeIntervalsByDay(di, input.intervalsByDay, input.schedules);
    var tags := NormalizeBlockedDomainTags(input.blockedDomainTags);
    s := Settings(
      blockEnabled := Or(input.blockEnabled, d.blockEnabled),
      blockShorts := Or(input.blockShorts, d.blockShorts),
      blockKids := Or(input.blockKids, d.blockKids),
      language := Or(input.language, d.language),
      strictMode := Or(input.strictMode, d.strictMode),
      pinHash := Or(input.pinHash, d.pinHash),
      blockedDomains := Or(input.blockedDomains, d.blockedDomains),
      whitelist := Or(input.whitelist, d.whitelist),
      schedules := schedules,
      intervalsByDay := intervals,
      timeFormat12h := Or(input.timeFormat12h, d.timeFormat12h),
      unblockUntil := Or(input.unblockUntil, d.unblockUntil),
      weeklyUnblockEnabled := Truthy(input.weeklyUnblockEnabled),
      weeklyUnblockDays := WeeklyDays(d.weeklyUnblockDays, input.weeklyUnblockDays),
      weeklyUnblockDurationMinutes := WeeklyDuration(d.weeklyUnblockDurationMinutes, input.weeklyUnblockDurationMinutes),
      weeklyUnblockUntil := WeeklyUntil(input.weeklyUnblockUntil),
      weeklyUnblockLastWeek := WeeklyLastWeek(input.weeklyUnblockLastWeek),
      blockedDomainTags := tags);
  }

  /** `getSettings()`: the merge of what is stored, or the defaults when nothing is. */
  function GetSettings(d: Settings, di: IntervalWeek, stored: Option<RawSettings>): Settings
  {
    if stored.Some? then Merged(d, di, stored.value) else d
  }

  // ---------------------------------------------------------------------------
  // The shape every merge leaves

  /** What a merged record satisfies: every default day present, no empty range
      end, every interval with an id, clean weekly days, whole minutes, and
      normalised tags. */
  predicate Clean(d: Settings, di: IntervalWeek, s: Settings)
  {
    d.schedules.Keys <= s.schedules.Keys && AllItems(s.schedules, Filled)
    && di.Keys <= s.intervalsByDay.Keys && AllItems(s.intervalsByDay, HasId)
    && (s.weeklyUnblockDays.Some? ==> CleanDays(s.weeklyUnblockDays.value))
    && (s.weeklyUnblockDays.None? ==> d.weeklyUnblockDays.None?)
    && WholeMinutes(s.weeklyUnblockDurationMinutes)
    && CleanTags(s.blockedDomainTags)
  }

  /** Defaults that are themselves in the merged shape. */
  predicate DefaultsClean(d: Settings, di: IntervalWeek)
  {
    Clean(d, di, d) && AllItems(di, HasId)
  }

  /** Whatever is stored, the merge leaves the clean shape. */
  lemma MergedClean(d: Settings, di: IntervalWeek, input: RawSettings)
    requires DefaultsClean(d, di)
    ensures Clean(d, di, Merged(d, di, input))
  {
    MergedSchedulesFilled(d.schedules, input.schedules);
    MergedIntervalsHaveIds(di, input.intervalsByDay, input.schedules);
    if input.weeklyUnblockDays.Some? {
      WeeklyDaysClean(d.weeklyUnblockDays, input.weeklyUnblockDays.value);
    }
    WeeklyDurationWhole(d.weeklyUnblockDurationMinutes, input.weeklyUnblockDurationMinutes);
    NormalizedTagsClean(input.blockedDomainTags);
  }

  /** The sanitised fields as the merge promises them: tags normalised, array
      fields that are not arrays replaced by the defaults, weekly days clean. */
  lemma MergedSanitised(d: Settings, di: IntervalWeek, input: RawSettings)
    ensures CleanTags(Merged(d, di, input).blockedDomainTags)
    ensures Merged(d, di, input).whitelist == if input.whitelist.Some? then input.whitelist.value else d.whitelist
    ensures Merged(d, di, input).blockedDomains == if input.blockedDomains.Some? then input.blockedDomains.value else d.blockedDomains
    ensures input.weeklyUnblockDays.Some? ==>
      Merged(d, di, input).weeklyUnblockDays.Some? && CleanDays(Merged(d, di, input).weeklyUnblockDays.value)
    ensures input.weeklyUnblockDays.None? ==> Merged(d, di, input).weeklyUnblockDays == d.weeklyUnblockDays
    ensures Merged(d, di, input).weeklyUnblockEnabled == Truthy(input.weeklyUnblockEnabled)
    ensures input.weeklyUnblockLastWeek.Str? <==> Merged(d, di, input).weeklyUnblockLastWeek.Some?
  {
    NormalizedTagsClean(input.blockedDomainTags);
    if input.weeklyUnblockDays.Some? {
      WeeklyDaysClean(d.weeklyUnblockDays, input.weeklyUnblockDays.value);
    }
  }

  /** Missing intervals are rebuilt from the stored legacy schedules, and from
      the default intervals when there are none either. */
  lemma MergedIntervalsFallback(d: Settings, di: IntervalWeek, input: RawSettings)
    requires input.intervalsByDay.None?
    ensures input.schedules.Some? ==>
      Merged(d, di, input).intervalsByDay == IntervalsOfSchedules(di, input.schedules.value)
    ensures input.schedules.None? ==> Merged(d, di, input).intervalsByDay == di
  {
  }

  // ---------------------------------------------------------------------------
  // A merged record written back and read again

  function ModeText(m: Mode): string
  {
    match m
    case Blocked => "blocked"
    case Free => "free"
  }

  function RangeJson(r: TimeRange): RawRange
  {
    RawRange(Some(r.start), Some(r.end))
  }

  function IntervalJson(iv: Interval): RawInterval
  {
    RawInterval(Some(iv.id), Some(iv.start), Some(iv.end), Some(ModeText(iv.mode)), Bool(iv.enabled))
  }

  function NullableNumber(v: Option<int>): Json
  {
    if v.Some? then Num(v.value as real) else Null
  }

  function NullableString(v: Option<string>): Json
  {
    if v.Some? then Str(v.value) else Null
  }

  /** The record `setSettings(s)` stores, as the next read sees it. */
  ghost function Stored(s: Settings): RawSettings
  {
    RawSettings(
      blockEnabled := Some(s.blockEnabled),
      blockShorts := Some(s.blockShorts),
      blockKids := Some(s.blockKids),
      language := Some(s.language),
      strictMode := Some(s.strictMode),
      pinHash := Some(s.pinHash),
      blockedDomains := Some(s.blockedDomains),
      whitelist := Some(s.whitelist),
      schedules := Some(WeekEntries(s.schedules, RangeJson)),
      intervalsByDay := Some(WeekEntries(s.intervalsByDay, IntervalJson)),
      timeFormat12h := Some(s.timeFormat12h),
      unblockUntil := Some(s.unblockUntil),
      weeklyUnblockEnabled := Bool(s.weeklyUnblockEnabled),
      weeklyUnblockDays := if s.weeklyUnblockDays.Some? then Some(DayList(s.weeklyUnblockDays.value)) else None,
      weeklyUnblockDurationMinutes := Num(s.weeklyUnblockDurationMinutes),
      weeklyUnblockUntil := NullableNumber(s.weeklyUnblockUntil),
      weeklyUnblockLastWeek := NullableString(s.weeklyUnblockLastWeek),
      blockedDomainTags := Some(StoredTags(s.blockedDomainTags)))
  }

  lemma SchedulesStable(base: WeekSchedule, week: WeekSchedule)
    requires base.Keys <= week.Keys && AllItems(week, Filled)
    ensures MergedSchedules(base, Some(WeekEntries(week, RangeJson))) == week
  {
    forall d, i | d in week && 0 <= i < |week[d]|
      ensures ScheduleRange(d, i, RangeJson(week[d][i])) == week[d][i]
    {
      assert Filled(week[d][i]);
    }
    RefillOwn(base, week, RangeJson, ScheduleRange);
  }

  lemma IntervalsStable(base: IntervalWeek, week: IntervalWeek, fallback: Option<RawWeek<RawRange>>)
    requires base.Keys <= week.Keys && AllItems(week, HasId)
    ensures MergedIntervals(base, Some(WeekEntries(week, IntervalJson)), fallback) == week
  {
    forall d, i | d in week && 0 <= i < |week[d]|
      ensures MergedInterval(d, i, IntervalJson(week[d][i])) == week[d][i]
    {
      assert HasId(week[d][i]);
    }
    RefillOwn(base, week, IntervalJson, MergedInterval);
  }

  lemma WeeklyStable(dd: Option<seq<int>>, dur: real, s: Settings)
    requires s.weeklyUnblockDays.Some? ==> CleanDays(s.weeklyUnblockDays.value)
    requires s.weeklyUnblockDays.None? ==> dd.None?
    requires WholeMinutes(s.weeklyUnblockDurationMinutes)
    ensures WeeklyDays(dd, if s.weeklyUnblockDays.Some? then Some(DayList(s.weeklyUnblockDays.value)) else None)
      == s.weeklyUnblockDays
    ensures WeeklyDuration(dur, Num(s.weeklyUnblockDurationMinutes)) == s.weeklyUnblockDurationMinutes
    ensures WeeklyUntil(NullableNumber(s.weeklyUnblockUntil)) == s.weeklyUnblockUntil
    ensures WeeklyLastWeek(NullableString(s.weeklyUnblockLastWeek)) == s.weeklyUnblockLastWeek
  {
    if s.weeklyUnblockDays.Some? {
      WeeklyDaysStable(dd, s.weeklyUnblockDays.value);
    }
    WeeklyDurationWhole(dur, Num(s.weeklyUnblockDurationMinutes));
    if s.weeklyUnblockUntil.Some? {
      WeeklyUntilSameDeadline(Num(s.weeklyUnblockUntil.value as real), 0);
    }
  }

  lemma DaysStable(d: Settings, di: IntervalWeek, s: Settings)
    requires DefaultsClean(d, di) && Clean(d, di, s)
    ensures Merged(d, di, Stored(s)).schedules == s.schedules
    ensures Merged(d, di, Stored(s)).intervalsByDay == s.intervalsByDay
  {
    var raw := Stored(s);
    SchedulesStable(d.schedules, s.schedules);
    IntervalsStable(di, s.intervalsByDay, raw.schedules);
  }

  lemma FieldsStable(d: Settings, di: IntervalWeek, s: Settings)
    requires DefaultsClean(d, di) && Clean(d, di, s)
    ensures Merged(d, di, Stored(s)).weeklyUnblockDays == s.weeklyUnblockDays
    ensures Merged(d, di, Stored(s)).weeklyUnblockDurationMinutes == s.weeklyUnblockDurationMinutes
    ensures Merged(d, di, Stored(s)).weeklyUnblockUntil == s.weeklyUnblockUntil
    ensures Merged(d, di, Stored(s)).weeklyUnblockLastWeek == s.weeklyUnblockLastWeek
    ensures Merged(d, di, Stored(s)).blockedDomainTags == s.blockedDomainTags
  {
    WeeklyStable(d.weeklyUnblockDays, d.weeklyUnblockDurationMinutes, s);
    NormalizedTagsStable(s.blockedDomainTags);
  }

  /** A record in the merged shape survives being stored and read back: the
      merge is idempotent. */
  lemma MergedStable(d: Settings, di: IntervalWeek, s: Settings)
    requires DefaultsClean(d, di) && Clean(d, di, s)
    ensures Merged(d, di, Stored(s)) == s
  {
    DaysStable(d, di, s);
    FieldsStable(d, di, s);
  }

  /** Merging a merge changes nothing. */
  lemma MergeIdempotent(d: Settings, di: IntervalWeek, input: RawSettings)
    requires DefaultsClean(d, di)
    ensures Merged(d, di, Stored(Merged(d, di, input))) == Merged(d, di, input)
  {
    MergedClean(d, di, input);
    MergedStable(d, di, Merged(d, di, input));
  }

  // ---------------------------------------------------------------------------
  // updateSettings

  /** A `Partial<Settings>` patch: `None` leaves the field out. */
  datatype SettingsPatch = SettingsPatch(
    blockEnabled: Option<bool>,
    blockShorts: Option<bool>,
    blockKids: Option<bool>,
    language: Option<Language>,
    strictMode: Option<bool>,
    pinHash: Option<Option<string>>,
    blockedDomains: Option<seq<string>>,
    whitelist: Option<seq<string>>,
    schedules: Option<WeekSchedule>,
    intervalsByDay: Option<IntervalWeek>,
    timeFormat12h: Option<bool>,
    unblockUntil: Option<Option<int>>,
    weeklyUnblockEnabled: Option<bool>,
    weeklyUnblockDays: Option<Option<seq<int>>>,
    weeklyUnblockDurationMinutes: Option<real>,
    weeklyUnblockUntil: Option<Option<int>>,
    weeklyUnblockLastWeek: Option<Option<string>>,
    blockedDomainTags: Option<map<string, seq<string>>>)

  /** `{ ...settings, ...patch }`. */
  function Apply(s: Settings, p: SettingsPatch): Settings
  {
    Settings(
      blockEnabled := Or(p.blockEnabled, s.blockEnabled),
      blockShorts := Or(p.blockShorts, s.blockShorts),
      blockKids := Or(p.blockKids, s.blockKids),
      language := Or(p.language, s.language),
      strictMode := Or(p.strictMode, s.strictMode),
      pinHash := Or(p.pinHash, s.pinHash),
      blockedDomains := Or(p.blockedDomains, s.blockedDomains),
      whitelist := Or(p.whitelist, s.whitelist),
      schedules := Or(p.schedules, s.schedules),
      intervalsByDay := Or(p.intervalsByDay, s.intervalsByDay),
      timeFormat12h := Or(p.timeFormat12h, s.timeFormat12h),
      unblockUntil := Or(p.unblockUntil, s.unblockUntil),
      weeklyUnblockEnabled := Or(p.weeklyUnblockEnabled, s.weeklyUnblockEnabled),
      weeklyUnblockDays := Or(p.weeklyUnblockDays, s.weeklyUnblockDays),
      weeklyUnblockDurationMinutes := Or(p.weeklyUnblockDurationMinutes, s.weeklyUnblockDurationMinutes),
      weeklyUnblockUntil := Or(p.weeklyUnblockUntil, s.weeklyUnblockUntil),
      weeklyUnblockLastWeek := Or(p.weeklyUnblockLastWeek, s.weeklyUnblockLastWeek),
      blockedDomainTags := Or(p.blockedDomainTags, s.blockedDomainTags))
  }

  /** `updateSettings(patch)`: the stored settings with the patch applied, merged
      again; the result is what is written and returned. */
  ghost function UpdateSettings(d: Settings, di: IntervalWeek, stored: Option<RawSettings>, p: SettingsPatch): Settings
  {
    Merged(d, di, Stored(Apply(GetSettings(d, di, stored), p)))
  }

  /** A patch whose sanitised fields are already in the merged shape. */
  predicate PatchClean(d: Settings, di: IntervalWeek, p: SettingsPatch)
  {
    (p.schedules.Some? ==> d.schedules.Keys <= p.schedules.value.Keys && AllItems(p.schedules.value, Filled))
    && (p.intervalsByDay.Some? ==> di.Keys <= p.intervalsByDay.value.Keys && AllItems(p.intervalsByDay.value, HasId))
    && (p.weeklyUnblockDays.Some? && p.weeklyUnblockDays.value.Some? ==> CleanDays(p.weeklyUnblockDays.value.value))
    && (p.weeklyUnblockDays.Some? && p.weeklyUnblockDays.value.None? ==> d.weeklyUnblockDays.None?)
    && (p.weeklyUnblockDurationMinutes.Some? ==> WholeMinutes(p.weeklyUnblockDurationMinutes.value))
    && (p.blockedDomainTags.Some? ==> CleanTags(p.blockedDomainTags.value))
  }

  /** `getSettings()` always returns the merged shape. */
  lemma GetSettingsClean(d: Settings, di: IntervalWeek, stored: Option<RawSettings>)
    requires DefaultsClean(d, di)
    ensures Clean(d, di, GetSettings(d, di, stored))
  {
    if stored.Some? {
      MergedClean(d, di, stored.value);
    }
  }

  /** Patched fields take the patch value and every other field keeps its
      stored value, for any patch whose own fields are in the merged shape. */
  lemma UpdateSettingsApplies(d: Settings, di: IntervalWeek, stored: Option<RawSettings>, p: SettingsPatch)
    requires DefaultsClean(d, di) && PatchClean(d, di, p)
    ensures UpdateSettings(d, di, stored, p) == Apply(GetSettings(d, di, stored), p)
  {
    GetSettingsClean(d, di, stored);
    MergedStable(d, di, Apply(GetSettings(d, di, stored), p));
  }

  /** Any update, clean patch or not, leaves the merged shape. */
  lemma UpdateSettingsClean(d: Settings, di: IntervalWeek, stored: Option<RawSettings>, p: SettingsPatch)
    requires DefaultsClean(d, di)
    ensures Clean(d, di, UpdateSettings(d, di, stored, p))
  {
    MergedClean(d, di, Stored(Apply(GetSettings(d, di, stored), p)));
  }

  // ---------------------------------------------------------------------------
  // Metrics

  /** A stored metrics record before the merge: `None` is a missing or falsy field. */
  datatype RawMetrics = RawMetrics(
    attemptsByDay: Option<map<string, int>>,
    timeByDay: Option<map<string, int>>,
    blockedTimeByDay: Option<map<string, int>>,
    sessionsByDay: Option<map<string, int>>,
    timeByDomainByDay: Option<map<string, map<string, int>>>,
    lastAttemptAt: Option<Option<int>>,
    lastUpdatedAt: Option<Option<int>>)

  /** What `mergeMetrics(input)` returns. */
  function MergedMetrics(d: Metrics, input: RawMetrics): (m: Metrics)
    ensures m.version == 2
  {
    Metrics(
      version := 2,
      attemptsByDay := Or(input.attemptsByDay, d.attemptsByDay),
      timeByDay := Or(input.timeByDay, d.timeByDay),
      blockedTimeByDay := Or(input.blockedTimeByDay, d.blockedTimeByDay),
      sessionsByDay := Or(input.sessionsByDay, d.sessionsByDay),
      timeByDomainByDay := Or(input.timeByDomainByDay, d.timeByDomainByDay),
      lastAttemptAt := Or(input.lastAttemptAt, d.lastAttemptAt),
      lastUpdatedAt := Or(input.lastUpdatedAt, d.lastUpdatedAt))
  }

  /** The record `setMetrics(m)` stores, as the next read sees it. */
  function StoredMetrics(m: Metrics): RawMetrics
  {
    RawMetrics(Some(m.attemptsByDay), Some(m.timeByDay), Some(m.blockedTimeByDay), Some(m.sessionsByDay),
               Some(m.timeByDomainByDay), Some(m.lastAttemptAt), Some(m.lastUpdatedAt))
  }

  /** `getMetrics()`. */
  function GetMetrics(d: Metrics, stored: Option<RawMetrics>): Metrics
  {
    if stored.Some? then MergedMetrics(d, stored.value) else d
  }

  /** The merge keeps every counter map it is given and fills the missing ones
      from the defaults. */
  lemma MergedMetricsKeeps(d: Metrics, input: RawMetrics)
    ensures input.attemptsByDay.Some? ==> MergedMetrics(d, input).attemptsByDay == input.attemptsByDay.value
    ensures input.attemptsByDay.None? ==> MergedMetrics(d, input).attemptsByDay == d.attemptsByDay
    ensures input.timeByDay.Some? ==> MergedMetrics(d, input).timeByDay == input.timeByDay.value
    ensures input.timeByDay.None? ==> MergedMetrics(d, input).timeByDay == d.timeByDay
    ensures input.timeByDomainByDay.Some? ==> MergedMetrics(d, input).timeByDomainByDay == input.timeByDomainByDay.value
    ensures input.timeByDomainByDay.None? ==> MergedMetrics(d, input).timeByDomainByDay == d.timeByDomainByDay
  {
  }

  /** A version-2 record read back is unchanged; an older one is migrated to version 2. */
  lemma MergedMetricsStable(d: Metrics, m: Metrics)
    ensures MergedMetrics(d, StoredMetrics(m)) == m.(version := 2)
  {
  }

  /** The day key of `new Date(timestamp).toISOString().slice(0, 10)`. */
  function AttemptDayKey(timestamp: int): string
  {
    Calendar.LocalDayKey(timestamp)
  }

  /** `incrementAttempt(timestamp)`: the stored metrics with one more attempt
      on the timestamp's day and both timestamps set, merged again. */
  function IncrementAttempt(d: Metrics, stored: Option<RawMetrics>, timestamp: int): Metrics
  {
    var m := GetMetrics(d, stored);
    var key := AttemptDayKey(timestamp);
    MergedMetrics(d, StoredMetrics(m).(
      attemptsByDay := Some(m.attemptsByDay[key := Count(m.attemptsByDay, key) + 1]),
      lastAttemptAt := Some(Some(timestamp)),
      lastUpdatedAt := Some(Some(timestamp))))
  }

  /** Exactly the timestamp's day gains one attempt; every other counter and
      map is unchanged and both timestamps are the new one. */
  lemma IncrementAttemptCounts(d: Metrics, stored: Option<RawMetrics>, timestamp: int, other: string)
    ensures var before, after := GetMetrics(d, stored), IncrementAttempt(d, stored, timestamp);
      Count(after.attemptsByDay, AttemptDayKey(timestamp)) == Count(before.attemptsByDay, AttemptDayKey(timestamp)) + 1
      && (other != AttemptDayKey(timestamp) ==>
            (other in after.attemptsByDay <==> other in before.attemptsByDay)
            && Count(after.attemptsByDay, other) == Count(before.attemptsByDay, other))
      && after.lastAttemptAt == Some(timestamp) && after.lastUpdatedAt == Some(timestamp)
      && after.timeByDay == before.timeByDay && after.blockedTimeByDay == before.blockedTimeByDay
      && after.sessionsByDay == before.sessionsByDay && after.timeByDomainByDay == before.timeByDomainByDay
      && after.version == 2
  {
  }

  /** Two attempts count towards the same day exactly when they fall on the same day. */
  lemma AttemptsShareDay(t1: int, t2: int)
    ensures AttemptDayKey(t1) == AttemptDayKey(t2) <==> Calendar.DayNumber(t1) == Calendar.DayNumber(t2)
  {
    Calendar.LocalDayKeySameDay(t1, t2);
  }
}
