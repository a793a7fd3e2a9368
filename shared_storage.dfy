/** The settings merge of the oldest generation (`src/shared/storage.ts`): the
    same per-day merges as the current one, over the smaller record without a
    language, weekly unblock or domain tags. Its metrics merge and
    `incrementAttempt` are the same code as the current generation's, modelled
    by `Storage.MergedMetrics` and `Storage.IncrementAttempt`. */
module SharedStorage {
  import opened Base
  import opened Types
  import opened RawInput
  import opened StorageDays
  import Storage

  /** A stored record of this generation before validation (see `Storage.RawSettings`). */
  datatype RawShared = RawShared(
    blockEnabled: Option<bool>,
    blockShorts: Option<bool>,
    blockKids: Option<bool>,
    strictMode: Option<bool>,
    pinHash: Option<Option<string>>,
    blockedDomains: Option<seq<string>>,
    whitelist: Option<seq<string>>,
    schedules: Option<RawWeek<RawRange>>,
    intervalsByDay: Option<RawWeek<RawInterval>>,
    timeFormat12h: Option<bool>,
    unblockUntil: Option<Option<int>>)

  /** What `mergeSettings(input)` returns. */
  function Merged(d: SharedSettings, di: IntervalWeek, input: RawShared): SharedSettings
  {
    SharedSettings(
      blockEnabled := Storage.Or(input.blockEnabled, d.blockEnabled),
      blockShorts := Storage.Or(input.blockShorts, d.blockShorts),
      blockKids := Storage.Or(input.blockKids, d.blockKids),
      strictMode := Storage.Or(input.strictMode, d.strictMode),
      pinHash := Storage.Or(input.pinHash, d.pinHash),
      blockedDomains := Storage.Or(input.blockedDomains, d.blockedDomains),
      whitelist := Storage.Or(input.whitelist, d.whitelist),
      schedules := MergedSchedules(d.schedules, input.schedules),
      intervalsByDay := MergedIntervals(di, input.intervalsByDay, input.schedules),
      timeFormat12h := Storage.Or(input.timeFormat12h, d.timeFormat12h),
      unblockUntil := Storage.Or(input.unblockUntil, d.unblockUntil))
  }

  method MergeSettings(d: SharedSettings, di: IntervalWeek, input: RawShared) returns (s: SharedSettings)
    ensures s == Merged(d, di, input)
  {
    var schedules := MergeSchedules(d.schedules, input.schedules);
    var intervals := MergeIntervalsByDay(di, input.intervalsByDay, input.schedules);
    s := SharedSettings(
      blockEnabled := Storage.Or(input.blockEnabled, d.blockEnabled),
      blockShorts := Storage.Or(input.blockShorts, d.blockShorts),
      blockKids := Storage.Or(input.blockKids, d.blockKids),
      strictMode := Storage.Or(input.strictMode, d.strictMode),
      pinHash := Storage.Or(input.pinHash, d.pinHash),
      blockedDomains := Storage.Or(input.blockedDomains, d.blockedDomains),
      whitelist := Storage.Or(input.whitelist, d.whitelist),
      schedules := schedules,
      intervalsByDay := intervals,
      timeFormat12h := Storage.Or(input.timeFormat12h, d.timeFormat12h),
      unblockUntil := Storage.Or(input.unblockUntil, d.unblockUntil));
  }

  /** `getSettings()`. */
  function GetSettings(d: SharedSettings, di: IntervalWeek, stored: Option<RawShared>): SharedSettings
  {
    if stored.Some? then Merged(d, di, stored.value) else d
  }

  /** The shape every merge of this generation leaves. */
  predicate Clean(d: SharedSettings, di: IntervalWeek, s: SharedSettings)
  {
    d.schedules.Keys <= s.schedules.Keys && AllItems(s.schedules, Filled)
    && di.Keys <= s.intervalsByDay.Keys && AllItems(s.intervalsByDay, HasId)
  }

  predicate DefaultsClean(d: SharedSettings, di: IntervalWeek)
  {
    Clean(d, di, d) && AllItems(di, HasId)
  }

  /** Whatever is stored, the merge leaves the clean shape; the list fields fall
      back to the defaults unless they are arrays. */
  lemma MergedClean(d: SharedSettings, di: IntervalWeek, input: RawShared)
    requires DefaultsClean(d, di)
    ensures Clean(d, di, Merged(d, di, input))
    ensures Merged(d, di, input).whitelist == if input.whitelist.Some? then input.whitelist.value else d.whitelist
    ensures Merged(d, di, input).blockedDomains == if input.blockedDomains.Some? then input.blockedDomains.value else d.blockedDomains
  {
    MergedSchedulesFilled(d.schedules, input.schedules);
    MergedIntervalsHaveIds(di, input.intervalsByDay, input.schedules);
  }

  /** The record `setSettings(s)` stores, as the next read sees it. */
  function Stored(s: SharedSettings): RawShared
  {
    RawShared(
      blockEnabled := Some(s.blockEnabled),
      blockShorts := Some(s.blockShorts),
      blockKids := Some(s.blockKids),
      strictMode := Some(s.strictMode),
      pinHash := Some(s.pinHash),
      blockedDomains := Some(s.blockedDomains),
      whitelist := Some(s.whitelist),
      schedules := Some(WeekEntries(s.schedules, Storage.RangeJson)),
      intervalsByDay := Some(WeekEntries(s.intervalsByDay, Storage.IntervalJson)),
      timeFormat12h := Some(s.timeFormat12h),
      unblockUntil := Some(s.unblockUntil))
  }

  /** A clean record survives being stored and read back. */
  lemma MergedStable(d: SharedSettings, di: IntervalWeek, s: SharedSettings)
    requires DefaultsClean(d, di) && Clean(d, di, s)
    ensures Merged(d, di, Stored(s)) == s
  {
    var raw := Stored(s);
    Storage.SchedulesStable(d.schedules, s.schedules);
    Storage.IntervalsStable(di, s.intervalsByDay, raw.schedules);
  }

  /** A `Partial<Settings>` patch of this generation. */
  datatype SharedPatch = SharedPatch(
    blockEnabled: Option<bool>,
    blockShorts: Option<bool>,
    blockKids: Option<bool>,
    strictMode: Option<bool>,
    pinHash: Option<Option<string>>,
    blockedDomains: Option<seq<string>>,
    whitelist: Option<seq<string>>,
    schedules: Option<WeekSchedule>,
    intervalsByDay: Option<IntervalWeek>,
    timeFormat12h: Option<bool>,
    unblockUntil: Option<Option<int>>)

  /** `{ ...settings, ...patch }`. */
  function Apply(s: SharedSettings, p: SharedPatch): SharedSettings
  {
    SharedSettings(
      blockEnabled := Storage.Or(p.blockEnabled, s.blockEnabled),
      blockShorts := Storage.Or(p.blockShorts, s.blockShorts),
      blockKids := Storage.Or(p.blockKids, s.blockKids),
      strictMode := Storage.Or(p.strictMode, s.strictMode),
      pinHash := Storage.Or(p.pinHash, s.pinHash),
      blockedDomains := Storage.Or(p.blockedDomains, s.blockedDomains),
      whitelist := Storage.Or(p.whitelist, s.whitelist),
      schedules := Storage.Or(p.schedules, s.schedules),
      intervalsByDay := Storage.Or(p.intervalsByDay, s.intervalsByDay),
      timeFormat12h := Storage.Or(p.timeFormat12h, s.timeFormat12h),
      unblockUntil := Storage.Or(p.unblockUntil, s.unblockUntil))
  }

  /** `updateSettings(patch)`. */
  function UpdateSettings(d: SharedSettings, di: IntervalWeek, stored: Option<RawShared>, p: SharedPatch): SharedSettings
  {
    Merged(d, di, Stored(Apply(GetSettings(d, di, stored), p)))
  }

  predicate PatchClean(d: SharedSettings, di: IntervalWeek, p: SharedPatch)
  {
    (p.schedules.Some? ==> d.schedules.Keys <= p.schedules.value.Keys && AllItems(p.schedules.value, Filled))
    && (p.intervalsByDay.Some? ==> di.Keys <= p.intervalsByDay.value.Keys && AllItems(p.intervalsByDay.value, HasId))
  }

  /** Patched fields take the patch value and every other field keeps its stored value. */
  lemma UpdateSettingsApplies(d: SharedSettings, di: IntervalWeek, stored: Option<RawShared>, p: SharedPatch)
    requires DefaultsClean(d, di) && PatchClean(d, di, p)
    ensures UpdateSettings(d, di, stored, p) == Apply(GetSettings(d, di, stored), p)
  {
    if stored.Some? {
      MergedClean(d, di, stored.value);
    }
    MergedStable(d, di, Apply(GetSettings(d, di, stored), p));
  }
}
