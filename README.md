# FocusTube in Dafny

FocusTube is a browser extension that blocks distracting sites (YouTube first of all). It decides per URL whether to block:
- a blocked-domain list, with tags on each domain (`intervalos` for the interval schedule, `por_semana` for the weekly session);
- a whitelist of channels;
- a Shorts filter;
- a weekly schedule of blocked and allowed intervals;
- a temporary unblock;
- a once-per-week (or once-per-day) "weekly session".

It also counts usage metrics per day: sessions, active time, time spent blocked and blocked attempts. It has an options page (a schedule editor, list editors, import and export) and a dashboard.

This project models the decision logic, the settings and metrics merges, the background bookkeeping and the list and schedule editors. It then proves what each of them promises.

The code base carries three generations of the same logic, and the model keeps them apart:

- `src/domain` and `src/infrastructure` are the current ones.
  - `DomainBlocking` models `evaluateBlock` and the URL helpers of `src/domain/blocking/url.ts`.
  - `DomainTags` models the domain tags.
  - `DomainWeekly` models the weekly session keyed by local day.
  - `Timeline` models the schedule timeline.
  - `Storage`, `StorageDays` and `StorageFields` model the storage merges.
- `src/core` is older.
  - `CoreUrl`: weekly session before `blockEnabled`.
  - `CoreSchedule`: `parseTimeToMinutes` and `isWithinBlockedSchedule`.
  - `CoreWeekly`: ISO-week key and a fixed Monday.
  - `CoreDefaults`.
- `src/shared` is the oldest.
  - `SharedUrl`: no weekly session, no tags.
  - `SharedStorage`, `I18n`.
- `src/background`:
  - `BackgroundState`: a class holding the tab map and caches.
  - `BackgroundMetrics`: the metric queues and `tickMetrics`.
  - `BackgroundTabs`: the tab listeners.
  - `ContentScripts`.
- `src/content/youtubeWhitelist.ts`: `YouTubeWhitelist`.
- `src/ui`:
  - `ScheduleGrid` (the schedule helpers), `ScheduleView`.
  - `SettingsLists`: the whitelist and blocked-domain editors, which `Options.tsx` and the dashboard's `main.tsx` carry with the same list logic (their status and error messages differ and are not modelled).
  - `Dashboard`, `OptionsPage`, `Durations`.
- Shared helpers:
  - `Base`: strings, ASCII lowercasing and trimming, number printing.
  - `Calendar`: a zone-free local calendar.
  - `Types`: the settings and metrics records, a superset of all generations.
  - `RawInput`: untyped stored values.
  - `UrlMatch`: `normalizeDomain` and host matching, identical in `src/core/url.ts` and `src/shared/url.ts`.

Abstractions used throughout:
- Instants are integer epoch milliseconds.
  - The local calendar has days of exactly 86 400 000 ms, and day 0 is a Thursday.
  - Weekday, minute of day and civil date are derived from it.
  - Real time zones and DST are absent.
- URL parsing is a parameter `parse: string -> Option<Url>`. A `Url` holds a host name, a path and query pairs.
- Stored settings and metrics are values. The loaders are parameters.
- The default settings of `src/domain/settings/defaults.ts` and `src/shared/defaults.ts` are parameters. Those files are not part of this model.
- These are all inputs:
  - the answer of the permissions API;
  - the handle found in the page DOM;
  - the random interval id of a new schedule entry;
  - the language files of `I18n`.
- `src/domain/schedule/schedule.ts` is not part of this model.
  - `timeline.ts` and `url.ts` import its `parseTimeToMinutes` and `isWithinBlockedSchedule`.
  - Those uses are modelled by the functions of `src/core/schedule.ts` (`CoreSchedule`).

Decisions of the code that shape the model:
- Whitelist matching is plain lower-case substring matching of the URL (`src/domain/blocking/url.ts:67-79`). An entry `@x` matches `/@x`. No channel-id or video-id parsing takes place.
- In `evaluateBlock` of `src/domain/blocking/url.ts`:
  - a matched domain with an empty tag list blocks with `missing_tag`;
  - the legacy chain is reached only by a non-empty tag list that holds neither known tag;
  - normalised settings never contain such a list (`DomainBlocking.LegacyUnreachable`);
  - the legacy chain has no schedule check.
- The weekly-session period differs between generations. `src/domain/weekly/weekly.ts` keys a session by local day; `src/core/weekly.ts` keys it by ISO week.

Behaviour of the code that the model reproduces and that a reader may not expect:
- `parseTimeToMinutes` of `src/core/schedule.ts` lets a colon-less number such as `"12"` through its NaN test. The minute part is `undefined`, and `Number.isNaN(undefined)` is false. The result is NaN, not 0 (`CoreSchedule.ParseTimeNaN`).
- On YouTube watch pages, an `ab_channel` value made only of whitespace matches a bare `@` whitelist entry.
- In the background tab tracker, a blocked-domain list whose first matching entry is `""` makes `find(...) || null` give no domain (`src/background/tabs.ts:5-7`). A later entry that matches is then ignored.
- `percentDelta` on the dashboard prints `-0%` for a drop smaller than half a percent.
- `normalizeSettings` on the options page keeps a `schedules` week that lacks days.
- `findNextWindow` scans day offsets 0 to 7 for a window starting after now.
- `src/tests/weekly.test.ts` imports `getWeeklySessionWeekKey` from `src/domain/weekly`. That module exports only `getWeeklySessionDayKey`.
- The infrastructure and shared versions of `mergeMetrics` and `incrementAttempt` are the same code. So are `normalizeDomain` in the core and shared URL modules.

## Model

| member | source | states |
|---|---|---|
| CoreSchedule.ParseTimeNaN | src/core/schedule.ts:4-10 | `parseTimeToMinutes` yields NaN exactly when the text holds no ':' and reads as a number by itself, because the missing minute part is `undefined` and escapes the NaN test |
| CoreSchedule.ParseTwoDigitTime | src/core/schedule.ts:4-10 | "HH:MM" with two-digit parts reads as 60·HH + MM |
| CoreSchedule.ParseExample | src/tests/schedule.test.ts:16-18 | `parseTimeToMinutes("01:30")` is 90 |
| CoreSchedule.ParseNonNumberIsZero | src/core/schedule.ts:5-8 | once a ':' is present, a part that is not a number makes the time 0 |
| CoreSchedule.IsWithinBlockedSchedule | src/core/schedule.ts:13-18 | the verdict depends only on the weekday and the minute of the day of the instant |
| CoreSchedule.AnyCoversToday | src/core/schedule.ts:20-33 | the first `some` holds exactly when one of today's intervals covers the minute |
| CoreSchedule.AnyCoversSpill | src/core/schedule.ts:38-48 | the second `some` holds exactly when one of the previous day's intervals spills onto the minute |
| CoreSchedule.OnlyActiveIntervalsBlock | src/core/schedule.ts:20-48 | blocking needs an enabled "blocked" interval whose start differs from its end, listed today or on the previous weekday |
| CoreSchedule.SameDayIntervalBlocks | src/core/schedule.ts:29-30 | a same-day interval blocks every minute in [start, end) of its weekday |
| CoreSchedule.OvernightIntervalBlocks | src/core/schedule.ts:29-47 | an overnight interval blocks from its start to midnight, and before its end on the next weekday |
| CoreSchedule.CoversTodayWellFormed | src/core/schedule.ts:20-48 | with well-formed times, each pass's test is the plain-minute coverage of the interval |
| CoreSchedule.TodayPassCharacterised | src/core/schedule.ts:20-33 | the first pass finds exactly the intervals covering the minute on their own day |
| CoreSchedule.SpillPassCharacterised | src/core/schedule.ts:38-48 | the second pass finds exactly the overnight intervals of the day before that reach the minute |
| CoreSchedule.BlockedAtCharacterised | src/core/schedule.ts:13-51 | with well-formed times, the schedule blocks exactly the minutes covered today or spilled onto from the day before |
| CoreWeekly.IsoWeekday | src/core/weekly.ts:7 | `getUTCDay() or 7` numbers Monday 1 to Sunday 7 and agrees with the weekday modulo 7 |
| CoreWeekly.IsoThursday | src/core/weekly.ts:8 | the day moved to is a Thursday within three days of the date |
| CoreWeekly.WeeksFromInjective | src/core/weekly.ts:10 | two Thursdays counted from the same year start with the same week count are the same day |
| CoreWeekly.IsoWeekNumber | src/core/weekly.ts:9-10 | the week number lies in 1..53 |
| CoreWeekly.IsoWeekKey | src/core/weekly.ts:5-12 | the key ends in "-W" and two digits |
| CoreWeekly.SameWeekSameKey | src/core/weekly.ts:5-12 | the seven days from a Monday share one Thursday and one key |
| CoreWeekly.IsoWeekKeyParts | src/core/weekly.ts:11 | a key determines its ISO year and week number |
| CoreWeekly.IsoYearWeekThursday | src/core/weekly.ts:9-10 | an ISO year and week number name exactly one Thursday |
| CoreWeekly.IsoWeekKeyInjective | src/core/weekly.ts:5-12 | equal keys mean the same ISO week |
| CoreWeekly.CanStartWeeklySession | src/core/weekly.ts:18-24 | no session when disabled or not a Monday; on an enabled Monday, a session can start exactly when the stored week key is not this week's |
| CoreWeekly.AlreadyUsedThisWeek | src/core/weekly.ts:18-28 | once recorded, no further session in the same ISO week; the Monday of any other week allows one |
| CoreWeekly.GetWeeklySessionDurationMs | src/core/weekly.ts:30-33 | at least one minute, a whole number of minutes, the floored setting from one minute on |
| DomainWeekly.CanStartWeeklySession | src/domain/weekly/weekly.ts:14-21 | no session when disabled, on a day not listed or with no day list; on an allowed day, a session can start exactly when the stored key is not today's |
| DomainWeekly.AlreadyUsedToday | src/domain/weekly/weekly.ts:14-25 | once recorded, no further session the same local day; any other allowed day allows one |
| DomainWeekly.GetWeeklySessionDurationMs | src/domain/weekly/weekly.ts:27-30 | at least one minute, a whole number of minutes, the floored setting from one minute on |
| DomainTags.DomainTagsExact | src/domain/blocking/tags.ts:3-7 | exactly "intervalos" and "por_semana" are tags, case-sensitively |
| CoreDefaults.ToIntervals | src/core/defaults.ts:15-31 | the loop's result is the seven empty days with each day named by an array replaced by its derived intervals |
| CoreDefaults.ToIntervalsDays | src/core/defaults.ts:15-31 | every weekday is present; a day no entry names stays empty; a named day holds one enabled blocking interval per range with the id `day-D-I-start-end` |
| CoreDefaults.DefaultIntervalsEmpty | src/core/defaults.ts:4-12 | the default intervals, derived from the empty default schedules, are the seven empty days |
| CoreDefaults.DefaultSettingsInert | src/core/defaults.ts:36-49 | by default nothing is blocked by hand, Shorts blocking is on, no temporary unblock runs, and no list or interval is set |
| CoreDefaults.DefaultMetricsEmpty | src/core/defaults.ts:52-61 | the default metrics are version 2 with every counter zero and no timestamps |
| CoreDefaults.DefaultsMergeClean | src/core/defaults.ts:36-49 | the defaults already have the shape the settings merge leaves, so merging from them is stable |
| I18n.Strings | src/shared/i18n.ts:11-20 | the built table holds exactly the English keys |
| I18n.BuildStrings | src/shared/i18n.ts:11-20 | the reducer over the English key order builds that table |
| I18n.T | src/shared/i18n.ts:22-25 | an unknown key is returned as itself |
| I18n.TFallback | src/shared/i18n.ts:11-25 | `t` gives the language's text, else the English text, else the key |
| I18n.Tf | src/shared/i18n.ts:27-33 | the loop fills the variables in `Object.entries` order into the looked-up text, each through `replace` with its `$` patterns expanded, and no variables leave the text as `t` returns it |
| I18n.FillOneReplacesFirst | src/shared/i18n.ts:29-31 | a variable replaces only the first occurrence of its placeholder, keeps the text around it, inserts its value with `$` patterns expanded, and inserts a `$`-free value as written |
| I18n.FillWithMatchPattern | src/shared/i18n.ts:30 | a value of `$&` puts the matched placeholder back, so the text comes out unchanged |
| I18n.FillAbsent | src/shared/i18n.ts:29-31 | a variable whose placeholder is absent leaves the text alone |
| Base.Lower | src/core/url.ts:60 | `toLowerCase()` keeps the length, lowers each ASCII capital and leaves no capital behind |
| Base.LowerConcat | src/core/url.ts:60 | lowercasing distributes over concatenation |
| Base.LowerOfLowercase | src/core/url.ts:60 | lowercasing lowercase text changes nothing |
| Base.Trim | src/core/url.ts:8 | `trim()` never lengthens and leaves no space at either end |
| Base.TrimOfTrimmed | src/core/url.ts:8 | trimming text without outer spaces changes nothing |
| Base.IndexOf | src/shared/i18n.ts:30 | the first position where the pattern occurs, none before it, and none exactly when the text does not contain it |
| Base.ReplaceFirst | src/shared/i18n.ts:30 | `replace` with a string pattern swaps only its first occurrence for the expanded replacement, inserts a `$`-free value as written, and leaves text without the pattern unchanged |
| Base.ExpandReplacement | src/shared/i18n.ts:30 | the replacement template of `String.prototype.replace` with a string pattern: a template without `$` is inserted as written |
| Base.ExpandReplacementPatterns | src/shared/i18n.ts:30 | `$$` gives `$`, `$&` the match, `` $` `` the text before it, `$'` the text after it, and any other `$`, one before a digit included, is copied since a string pattern has no groups |
| Base.Split | src/core/schedule.ts:5 | `split(":")` yields at least one part and no part holds the separator |
| Base.SplitJoin | src/core/schedule.ts:5 | splitting at the first separator gives the part before it followed by the split of the rest |
| Base.JsNumber | src/core/schedule.ts:5 | `Number(text)` is NaN exactly for text that is not an integer literal, and a digit string reads as its value |
| Base.JsNumberOfIntString | src/core/schedule.ts:5 | `Number(String(n))` is n |
| Base.Pad2 | src/ui/options/schedule/helpers.ts:30 | `String(n).padStart(2, "0")` is two digits below 100 |
| Base.Pad2Value | src/ui/options/schedule/helpers.ts:30 | the two padded digits read back as the number |
| Base.Pad2Injective | src/ui/options/schedule/helpers.ts:30 | different numbers below 100 pad to different texts |
| Base.NatToStringValue | src/ui/dashboard/main.tsx:18 | `String(n)` reads back as n |
| Base.IntToStringInjective | src/domain/weekly/weekly.ts:4-7 | different integers print differently |
| Base.Dedup | src/ui/dashboard/main.tsx:126 | `Array.from(new Set(list))` keeps exactly the same members, once each |
| Base.DedupAppend | src/ui/dashboard/main.tsx:126 | on a list without repeats, it appends the new value unless already present and otherwise changes nothing |
| Base.DedupOfDistinct | src/ui/dashboard/main.tsx:126 | a list without repeats is kept as it is |
| Base.Without | src/ui/dashboard/main.tsx:132 | `filter((entry) => entry !== value)` keeps exactly the entries other than the value |
| Base.WithoutIdempotent | src/ui/dashboard/main.tsx:132 | filtering again changes nothing, and filtering out an absent value keeps the list |
| Calendar.MinuteOfDay | src/core/schedule.ts:15 | `getHours() * 60 + getMinutes()` lies in 0..1439 and, with the day and the dropped seconds, recomposes the instant |
| Calendar.Weekday | src/core/schedule.ts:14 | `getDay()` lies in 0..6 |
| Calendar.WeekdayNext | src/core/schedule.ts:17 | the next day's weekday is one more modulo 7 and the previous day's is `(day + 6) % 7` |
| Calendar.StartOfDay | src/core/schedule.ts:14-15 | local midnight of a day is on that day at minute 0 |
| Calendar.DayNumberOfStart | src/core/schedule.ts:14-15 | an instant built from a day, a minute and a remainder reads back as that day and minute |
| Calendar.CivilFromDays | src/domain/weekly/weekly.ts:4-6 | `getMonth() + 1` lies in 1..12 and `getDate()` in 1..31 |
| Calendar.CivilRoundTrip | src/domain/weekly/weekly.ts:4-6 | the date of a day converts back to the same day |
| Calendar.YearStartBefore | src/core/weekly.ts:9 | a day lies on or after 1 January of its year |
| Calendar.NextYearStartAfter | src/core/weekly.ts:9 | a day lies before 1 January of the following year |
| Calendar.YearLength | src/core/weekly.ts:9-10 | a calendar year has 365 or 366 days |
| Calendar.DateKey | src/domain/weekly/weekly.ts:3-8 | the key has dashes at its two fixed positions from the end |
| Calendar.DateKeyInjective | src/domain/weekly/weekly.ts:3-8 | different dates have different keys |
| Calendar.LocalDayKeySameDay | src/domain/weekly/weekly.ts:3-8 | two instants share a key exactly when they fall on the same local day |
| RawInput.FiniteNumber | src/infrastructure/storage.ts:173 | a finite number reads as itself and a string of decimal digits as its value |
| RawInput.FillAt | src/infrastructure/storage.ts:125-137 | after the loop a day is present exactly when the base has it or some entry names it, holds the mapped items of the last entry naming it, and otherwise keeps its base value |
| RawInput.LastForFound | src/infrastructure/storage.ts:125-129 | an entry naming the day is found exactly when one exists, and it is the one no later entry overrides |
| RawInput.FillDays | src/infrastructure/storage.ts:124-138 | the loop over `Object.entries(input)` leaves exactly the record `Fill` describes |
| RawInput.AscendingDays | src/infrastructure/storage.ts:125 | `Object.entries` lists the integer day keys of a record each once and in ascending order |
| RawInput.WeekEntriesLast | src/infrastructure/storage.ts:125-129 | in the entries of a typed record each day is named by exactly its own items |
| RawInput.FillOwnEntries | src/infrastructure/storage.ts:124-138 | looping over a record's own entries rewrites each of its days from its own items and keeps the other base days |
| RawInput.FillKeeps | src/infrastructure/storage.ts:124-138 | a property of every base item and every mapped item holds of every item the loop leaves |
| RawInput.BaseDaysKept | src/infrastructure/storage.ts:124 | the loop never removes a day of the defaults it starts from |
| RawInput.MapIndexedOwn | src/infrastructure/storage.ts:130-136 | items that the per-item map sends to themselves come back unchanged as a whole day |
| RawInput.RefillDay | src/infrastructure/storage.ts:124-138 | re-merging a merged record gives each of its days back |
| RawInput.RefillOwn | src/infrastructure/storage.ts:124-138 | re-merging a record that holds every default day and whose items survive the map gives the record back |
| StorageDays.DerivedId | src/infrastructure/storage.ts:110 | a synthesised interval id is never empty |
| StorageDays.MergeSchedules | src/infrastructure/storage.ts:84-100 | `mergeSchedules` returns the defaults for a missing input and otherwise the record its loop builds |
| StorageDays.SchedulesToIntervals | src/infrastructure/storage.ts:102-118 | `schedulesToIntervals` returns the record its loop builds over the default intervals |
| StorageDays.MergeIntervalsByDay | src/infrastructure/storage.ts:120-139 | `mergeIntervalsByDay` derives the intervals from the legacy schedules or takes the defaults when the input is missing, and otherwise returns the record its loop builds |
| StorageDays.MergedScheduleDay | src/infrastructure/storage.ts:89-97 | a day named by an array under a numeric key takes the last such array with each falsy start or end replaced by "00:00"; other default days are kept |
| StorageDays.MergedSchedulesFilled | src/infrastructure/storage.ts:85-99 | merged schedules keep every default day and hold no empty start or end |
| StorageDays.DerivedIntervalDay | src/infrastructure/storage.ts:104-115 | a derived interval is enabled and blocking, keeps the range's ends and gets the id "day-d-idx-start-end" |
| StorageDays.MergedIntervalDay | src/infrastructure/storage.ts:125-136 | a merged interval is free exactly when its mode is "free", enabled exactly when its flag is truthy, keeps a non-empty id and otherwise gets the synthesised one |
| StorageDays.MergedIntervalsHaveIds | src/infrastructure/storage.ts:120-139 | every merged interval has an id and every default day survives |
| StorageDays.DerivedIdShape | src/infrastructure/storage.ts:110 | the synthesised id is "day-", the day, "-", the index, "-", then start "-" end |
| StorageDays.DerivedIdsDistinct | src/infrastructure/storage.ts:109-110 | two ranges of one day get different synthesised ids, whatever their ends |
| StorageFields.KeptWeekday | src/infrastructure/storage.ts:167-168 | a kept entry is a weekday index 0..6 |
| StorageFields.KeptWeekdayExact | src/infrastructure/storage.ts:167-168 | an entry is kept exactly when `Number(day)` is an integer from 0 to 6 |
| StorageFields.KeptWeekdays | src/infrastructure/storage.ts:166-168 | every number the map and filter keep is a weekday index |
| StorageFields.KeptWeekdaysMembers | src/infrastructure/storage.ts:166-168 | the kept numbers are exactly the weekday indexes some entry names |
| StorageFields.SortNumbersSorted | src/infrastructure/storage.ts:170 | `.sort((a, b) => a - b)` returns the numbers ascending and as a permutation of its input |
| StorageFields.SortOfAscending | src/infrastructure/storage.ts:170 | sorting an ascending list changes nothing |
| StorageFields.WeeklyDaysClean | src/infrastructure/storage.ts:163-171 | an array yields the weekday indexes it names, strictly ascending, each once |
| StorageFields.KeptWeekdaysOfClean | src/infrastructure/storage.ts:166-168 | a list of weekday indexes passes the map and filter unchanged |
| StorageFields.WeeklyDaysStable | src/infrastructure/storage.ts:163-171 | a stored clean list of days reads back as itself |
| StorageFields.WeeklyDurationWhole | src/infrastructure/storage.ts:172-175 | a finite number becomes `max(1, floor(x))`, a whole number of at least one minute; anything else the default |
| StorageFields.WeeklyUntilSameDeadline | src/infrastructure/storage.ts:176-179 | only a finite number is kept, and the kept deadline compares with an integer clock as the stored number does |
| StorageFields.KnownTags | src/infrastructure/storage.ts:150-152 | `map(String).filter(isDomainTag)` keeps only known tags |
| StorageFields.KnownTagsMembers | src/infrastructure/storage.ts:150-152 | the kept tags are exactly the known tags some item spells |
| StorageFields.NormalizeBlockedDomainTags | src/infrastructure/storage.ts:141-159 | the loop returns the map `NormalizedTags` describes, empty for a missing or non-object input |
| StorageFields.NormalizedTagsClean | src/infrastructure/storage.ts:145-158 | normalised tags hold no empty list, no unknown tag and no repeat |
| StorageFields.TagsFoldAt | src/infrastructure/storage.ts:146-156 | a domain is kept exactly when some array entry for it has a known tag, with the tags of the last such entry |
| StorageFields.DomainTagListExact | src/infrastructure/storage.ts:147-153 | an array keeps exactly the known tags it spells, each once, in first-occurrence order |
| StorageFields.KnownTagsOfKnown | src/infrastructure/storage.ts:150-152 | a list of known tags passes the filter unchanged |
| StorageFields.TagsFoldOwn | src/infrastructure/storage.ts:146-156 | looping over a clean tag map's own entries rebuilds the map |
| StorageFields.NormalizedTagsStable | src/infrastructure/storage.ts:141-159 | a normalised tag map read back is itself |
| Storage.MergeSettings | src/infrastructure/storage.ts:162-198 | `mergeSettings` runs the day loops, the tag loop and the field checks and returns the merged record |
| Storage.MergedClean | src/infrastructure/storage.ts:162-198 | whatever is stored, the merge keeps every default day, fills every range end and interval id, cleans the weekly days, whole minutes and tags |
| Storage.MergedSanitised | src/infrastructure/storage.ts:163-196 | each validated field is the input when it has the right type and the default or null otherwise; `weeklyUnblockEnabled` is the truthiness of its input |
| Storage.MergedIntervalsFallback | src/infrastructure/storage.ts:120-122 | missing intervals are rebuilt from the stored legacy schedules, or are the default intervals when those are missing too |
| Storage.SchedulesStable | src/infrastructure/storage.ts:84-100 | a merged schedule record read back is itself |
| Storage.IntervalsStable | src/infrastructure/storage.ts:120-139 | merged intervals read back are themselves |
| Storage.WeeklyStable | src/infrastructure/storage.ts:163-180 | the four weekly fields of a merged record read back as themselves |
| Storage.DaysStable | src/infrastructure/storage.ts:190-191 | the schedules and intervals of a merged record survive being stored and merged again |
| Storage.FieldsStable | src/infrastructure/storage.ts:185-196 | the validated fields of a merged record survive being stored and merged again |
| Storage.MergedStable | src/infrastructure/storage.ts:162-198 | a record in the merged shape is unchanged by being stored and read back |
| Storage.MergeIdempotent | src/infrastructure/storage.ts:162-198 | merging a merged record changes nothing |
| Storage.GetSettingsClean | src/infrastructure/storage.ts:27-30 | `getSettings()` returns the merged shape whether or not something is stored |
| Storage.UpdateSettingsApplies | src/infrastructure/storage.ts:38-43 | with a clean patch, patched fields take the patch value and every other field keeps its stored value |
| Storage.UpdateSettingsClean | src/infrastructure/storage.ts:38-43 | any update leaves the merged shape |
| Storage.MergedMetrics | src/infrastructure/storage.ts:201-211 | `mergeMetrics` always sets version 2 |
| Storage.MergedMetricsKeeps | src/infrastructure/storage.ts:206-210 | each counter map given is kept and each missing one is the default |
| Storage.MergedMetricsStable | src/infrastructure/storage.ts:201-211 | a stored metrics record reads back unchanged apart from the version, which becomes 2 |
| Storage.IncrementAttemptCounts | src/infrastructure/storage.ts:70-81 | the timestamp's day gains exactly one attempt, every other day and map is unchanged, and both timestamps are the new one |
| Storage.AttemptsShareDay | src/infrastructure/storage.ts:72 | two attempts count towards the same day exactly when they fall on the same day |
| SharedStorage.MergeSettings | src/shared/storage.ts:141-152 | the oldest `mergeSettings` returns the merged record of its generation |
| SharedStorage.MergedClean | src/shared/storage.ts:141-152 | the merge keeps every default day, fills ends and ids, and takes the lists only when they are arrays |
| SharedStorage.MergedStable | src/shared/storage.ts:141-152 | a clean record of this generation survives being stored and read back |
| SharedStorage.UpdateSettingsApplies | src/shared/storage.ts:37-42 | patched fields take the patch value and every other field keeps its stored value |
| DomainTags.FilterTags | src/infrastructure/storage.ts:152 | filtering through `isDomainTag` keeps exactly the known tags of the list |
| DomainTags.KnownTagsNonEmpty | src/infrastructure/storage.ts:152-155 | a non-empty list of known tags holds "intervalos" or "por_semana" |
| UrlMatch.Candidate | src/domain/blocking/url.ts:12 | the string handed to the parser always carries a scheme separator |
| UrlMatch.NormalizeDomain | src/domain/blocking/url.ts:7-20 | `null` for blank or unparseable input; otherwise the lowercased host without its leading "www.", never empty |
| UrlMatch.NormalizeKeepsNormalHost | src/domain/blocking/url.ts:7-20 | a lowercase host without "www." that the parser reads back unchanged is its own normal form |
| UrlMatch.NormalizeIdempotent | src/domain/blocking/url.ts:7-20 | normalising a normalised domain changes nothing |
| UrlMatch.HostnameMatchesAtLabel | src/domain/blocking/url.ts:23-25 | a host matches a domain exactly when it is the domain or ends with it right after a dot |
| UrlMatch.SubdomainMatches | src/domain/blocking/url.ts:23-25 | every subdomain of a domain matches it |
| UrlMatch.GluedLabelDoesNotMatch | src/domain/blocking/url.ts:23-25 | a host ending in the domain glued to a character other than a dot does not match, so "notyoutube.com" is not under "youtube.com" |
| UrlMatch.FirstMatch | src/domain/blocking/url.ts:39 | the index found matches and no earlier domain does; none is found exactly when no domain matches |
| UrlMatch.MatchDomain | src/domain/blocking/url.ts:38-40 | `find(...) or null` returns the first matching domain, and `null` when none matches or the first match is the empty string |
| UrlMatch.MatchDomainFindsAny | src/domain/blocking/url.ts:38-40 | with no empty domain listed, a domain is found exactly when some listed domain matches |
| UrlMatch.EmptyHostMatchesNothing | src/domain/blocking/url.ts:90 | no non-empty domain matches an empty host |
| UrlMatch.IsTargetUrl | src/domain/blocking/url.ts:28-36 | false on a parse failure, otherwise whether some blocked domain matches the lowercased host |
| UrlMatch.IsKidsDomain | src/domain/blocking/url.ts:47-54 | true exactly for youtubekids.com and its subdomains, false on a parse failure |
| UrlMatch.IsShortsUrl | src/domain/blocking/url.ts:57-64 | true exactly when the path contains "/shorts/", false on a parse failure |
| UrlMatch.EntryMatchesMeaning | src/domain/blocking/url.ts:69-78 | a blank entry matches nothing, an "@name" entry matches when the URL contains "/@name", any other entry when the URL contains it |
| UrlMatch.AnyEntryMatchesSome | src/domain/blocking/url.ts:67-79 | the whitelist admits a URL exactly when one of its entries matches the lowercased URL |
| UrlMatch.MatchingEntryAdmits | src/domain/blocking/url.ts:69 | one matching entry is enough |
| UrlMatch.BlankEntryNeverMatches | src/domain/blocking/url.ts:71-73 | a blank entry matches nothing |
| UrlMatch.BlankEntriesIgnored | src/domain/blocking/url.ts:69-73 | inserting a blank entry anywhere in the whitelist changes no decision |
| DomainBlocking.GetDomainTags | src/domain/blocking/url.ts:42-44 | a domain without an entry has no tags |
| DomainBlocking.MatchedDomain | src/domain/blocking/url.ts:83-90 | the domain found is a blocked domain matching the parsed, lowercased host |
| DomainBlocking.IntervalPolicy | src/domain/blocking/url.ts:106-124 | a running temporary unblock lets through; otherwise Kids, then Shorts, then the schedule give the reason, and the target is blocked exactly when one of them applies |
| DomainBlocking.IntervalPolicyIsCoreChain | src/domain/blocking/url.ts:106-124 | outside a temporary unblock the "intervalos" policy decides as the `src/core` chain does with `blockEnabled` off |
| DomainBlocking.WeeklyPolicy | src/domain/blocking/url.ts:126-131 | unblocked exactly while the weekly unblock is enabled and a session is active, else blocked as "manual" |
| DomainBlocking.LegacyPolicy | src/domain/blocking/url.ts:133-149 | a temporary unblock lets through; otherwise `blockEnabled` gives "manual", then Kids, then Shorts; the target is blocked exactly when one of them applies, and the schedule is not consulted |
| DomainBlocking.LegacyIsCoreChainWithoutSchedule | src/domain/blocking/url.ts:133-149 | outside a temporary unblock the legacy chain agrees with the `src/core` chain except that a schedule block is let through |
| DomainBlocking.EvaluateBlock | src/domain/blocking/url.ts:82-150 | every blocked result carries a blocking reason, "not_target" only comes unblocked, and it comes exactly when no blocked domain matches the parsed host |
| DomainBlocking.NotTargetExactly | src/domain/blocking/url.ts:83-93 | with no empty blocked domain, "not_target" is returned exactly for URLs that are not targets |
| DomainBlocking.WhitelistBeforeTags | src/domain/blocking/url.ts:95-97 | a whitelisted target is unblocked whatever its tags |
| DomainBlocking.MissingTagBlocks | src/domain/blocking/url.ts:99-102 | a target that is not whitelisted and has no tags is blocked as "missing_tag" |
| DomainBlocking.IntervalsIgnoreWeekly | src/domain/blocking/url.ts:103-124 | with "intervalos" the interval policy decides, and the weekly settings and `blockEnabled` play no part, even when "por_semana" is present |
| DomainBlocking.WeeklyOnlyPolicy | src/domain/blocking/url.ts:126-131 | with only "por_semana", unblocked exactly while a weekly session is active, else blocked as "manual" |
| DomainBlocking.LegacyUnreachable | src/domain/blocking/url.ts:133-149 | settings whose tags are normalised never reach the legacy chain |
| DomainBlocking.BlockEnabledIgnoredWhenNormalized | src/domain/blocking/url.ts:137-139 | under normalised tags `blockEnabled` does not affect the decision |
| DomainBlocking.ReasonKey | src/domain/blocking/url.ts:153-170 | exactly the five blocking reasons have a label key |
| DomainBlocking.ReasonLabel | src/domain/blocking/url.ts:153-170 | a blocking reason shows its translation; "not_target" and a missing reason show "" |
| DomainBlocking.BlockedDecisionsAreLabelled | src/domain/blocking/url.ts:153-170 | every blocked decision has a translated label |
| CoreUrl.BlockChain | src/core/url.ts:91-107 | `blockEnabled` answers "manual"; otherwise Kids, then Shorts, then the schedule give the reason, and the target is blocked exactly when one of them applies |
| CoreUrl.EvaluateBlock | src/core/url.ts:74-108 | "not_target" exactly for non-targets, a whitelisted target is unblocked, and every blocked result is manual, kids, shorts or schedule |
| CoreUrl.WeeklySessionOverridesManual | src/core/url.ts:83-85 | an active weekly session lets a target through even with `blockEnabled` |
| CoreUrl.TemporaryUnblockOverridesManual | src/core/url.ts:87-93 | past the weekly check, a target under `blockEnabled` is unblocked exactly while a temporary unblock runs, and never in strict mode |
| CoreUrl.ManualBeforeKidsShortsSchedule | src/core/url.ts:91-107 | once the unblock checks pass, `blockEnabled` answers "manual" before Kids, Shorts and the schedule are consulted |
| CoreUrl.ReasonLabel | src/core/url.ts:111-126 | manual, kids, shorts and schedule show their translation; every other reason, and none, shows "" |
| SharedUrl.EvaluateBlock | src/shared/url.ts:72-102 | "not_target" exactly for non-targets, a whitelisted target is unblocked, and every blocked result is manual, kids, shorts or schedule |
| SharedUrl.TemporaryUnblockBeforeManual | src/shared/url.ts:81-87 | a target under `blockEnabled` is unblocked exactly while a temporary unblock runs, and blocked as "manual" otherwise |
| SharedUrl.KidsShortsSchedule | src/shared/url.ts:89-101 | without `blockEnabled` or a temporary unblock, the target is blocked exactly when Kids, Shorts or the schedule applies, the reason is the first of them that applies, and an unblocked target carries no reason |
| SharedUrl.ReasonLabel | src/shared/url.ts:105-120 | the label is non-empty exactly for manual, kids, shorts and schedule |
| SharedUrl.DecisionsAreLabelled | src/shared/url.ts:105-120 | every blocked decision has a non-empty label and "not_target" the empty one |
| Timeline.MinutesToDateOnDay | src/domain/schedule/timeline.ts:19-24 | a minute of the day set on a day's midnight lands on that day at that minute |
| Timeline.ActiveOnlyMembers | src/domain/schedule/timeline.ts:28 | the filter keeps exactly the enabled "blocked" intervals |
| Timeline.BlockedIntervalsMembers | src/domain/schedule/timeline.ts:26-29 | a day's blocked intervals are exactly its enabled "blocked" ones, none for a missing day |
| Timeline.WindowOf | src/domain/schedule/timeline.ts:39-54 | the model gives an interval a window exactly when both its times read as numbers and differ, and the window starts at its start minute on the day |
| Timeline.WindowOfWellFormed | src/domain/schedule/timeline.ts:39-54 | a well-formed interval yields a window with start before end, on the same day for a same-day interval and ending on the next day for an overnight one |
| Timeline.RawWindows | src/domain/schedule/timeline.ts:38-55 | the loop pushes at most one window per interval |
| Timeline.RawWindowsMembers | src/domain/schedule/timeline.ts:38-55 | the pushed windows are exactly those the intervals contribute |
| Timeline.SortByStartPermutes | src/domain/schedule/timeline.ts:57 | the sort by start only reorders the windows |
| Timeline.SortByStartSorted | src/domain/schedule/timeline.ts:57 | the sort leaves the windows in ascending order of start |
| Timeline.SortIsStable | src/domain/schedule/timeline.ts:57 | windows with equal starts keep their relative order |
| Timeline.DayWindowsSorted | src/domain/schedule/timeline.ts:31-58 | the windows the model builds for a day come out sorted by start |
| Timeline.WindowFor | src/domain/schedule/timeline.ts:39-54 | the loop body computes the window the interval contributes |
| Timeline.BuildDayWindows | src/domain/schedule/timeline.ts:31-58 | the loop and the sort return the day's windows |
| Timeline.DayWindowsMembers | src/domain/schedule/timeline.ts:31-58 | a day's windows are exactly those its blocked intervals contribute |
| Timeline.EndingAfterMembers | src/domain/schedule/timeline.ts:69 | the filter keeps exactly the windows ending after midnight |
| Timeline.CandidatesMembers | src/domain/schedule/timeline.ts:68-70 | the scanned windows are yesterday's that end after today's midnight and all of today's |
| Timeline.FirstHolding | src/domain/schedule/timeline.ts:72-75 | a window found is a scanned one with start at or before `now` and end after it |
| Timeline.FirstHoldingFinds | src/domain/schedule/timeline.ts:72-75 | when some scanned window holds `now`, one is found |
| Timeline.CurrentWindow | src/domain/schedule/timeline.ts:60-76 | the current window, when there is one, holds `now` |
| Timeline.FirstHoldingScan | src/domain/schedule/timeline.ts:72-75 | the loop returns the first window holding `now` |
| Timeline.FindCurrentWindow | src/domain/schedule/timeline.ts:60-76 | `findCurrentWindow` returns the current window |
| Timeline.FirstStartingAfter | src/domain/schedule/timeline.ts:87-89 | a window found starts after `now` |
| Timeline.FirstStartingAfterNone | src/domain/schedule/timeline.ts:87-89 | nothing is found exactly when every window starts at or before `now` |
| Timeline.FirstStartingAfterScan | src/domain/schedule/timeline.ts:87-89 | the inner loop returns the first window starting after `now` |
| Timeline.FirstStartingAfterEarliest | src/domain/schedule/timeline.ts:87-89 | in a sorted list, the window found starts no later than any other window starting after `now` |
| Timeline.ScanDays | src/domain/schedule/timeline.ts:83 | the scan covers eight days |
| Timeline.NextIn | src/domain/schedule/timeline.ts:83-91 | a window found starts after `now` |
| Timeline.NextWindow | src/domain/schedule/timeline.ts:78-92 | the next window, when there is one, starts after `now` |
| Timeline.FindNextWindow | src/domain/schedule/timeline.ts:78-92 | the nested loops return the next window |
| Timeline.DayWindowStartsThatDay | src/domain/schedule/timeline.ts:43 | every window of a well-formed day starts on that day |
| Timeline.NextInEarliest | src/domain/schedule/timeline.ts:83-91 | over day lists in order, the window found starts no later than any later-starting window of the lists |
| Timeline.ScanDaysInOrder | src/domain/schedule/timeline.ts:83-86 | with well-formed times, each scanned day is sorted and every window of a day starts before every window of a later day |
| Timeline.NextWindowEarliest | src/domain/schedule/timeline.ts:78-92 | with well-formed times, the next window starts no later than any window of the eight days that starts after `now` |
| Timeline.TodayWindowHolds | src/domain/schedule/timeline.ts:43-54 | a window of today holds `now` exactly when its interval covers `now`'s minute on its own day |
| Timeline.YesterdayWindowHolds | src/domain/schedule/timeline.ts:51-54 | a window of yesterday reaching past midnight holds `now` exactly when its overnight interval covers `now`'s minute after midnight |
| Timeline.PreviousWeekdayIntervals | src/domain/schedule/timeline.ts:65-66 | the day before `now` has the intervals of weekday `(day + 6) % 7` |
| Timeline.TodayHolds | src/domain/schedule/timeline.ts:68 | some window of today holds `now` exactly when one of today's intervals covers its minute |
| Timeline.YesterdayHolds | src/domain/schedule/timeline.ts:69 | some window of yesterday holds `now` exactly when one of yesterday's overnight intervals covers its minute |
| Timeline.CurrentWindowFound | src/domain/schedule/timeline.ts:60-76 | a current window exists exactly when a window of yesterday or of today holds `now` |
| Timeline.HeldExactlyWhenBlocked | src/domain/schedule/timeline.ts:60-76 | the windows hold `now` exactly when the intervals block its weekday and minute |
| Timeline.CurrentWindowMatchesSchedule | src/domain/schedule/timeline.ts:60-76 | with well-formed times, a current window exists exactly when `isWithinBlockedSchedule` holds |
| Timeline.ComputeScheduleTimeline | src/domain/schedule/timeline.ts:95-152 | `currentUntil` always equals `nextChangeAt` and lies after `now`; blocked means manual or schedule and has no next block; a temporary unblock ends no later than the window |
| Timeline.TimelineFollowsSchedule | src/domain/schedule/timeline.ts:118-151 | without `blockEnabled`, the reason is "schedule", "temporary_unblock" or "schedule_free" exactly as the schedule blocks and a temporary unblock runs |
| Timeline.TimelineUnderManualBlock | src/domain/schedule/timeline.ts:96-116 | with `blockEnabled`, the timeline is free exactly during a weekly session, until its end |
| Timeline.ScheduleFreeAnnouncesEarliest | src/domain/schedule/timeline.ts:143-151 | outside every window, the announced next block is no later than any window of the eight days starting after `now` |
| Timeline.FormatDuration | src/domain/schedule/timeline.ts:155-162 | the text reads back as the whole seconds of the clamped duration |
| ScheduleGrid.MinutesToTimeOfCount | src/ui/options/schedule/helpers.ts:27-32 | a non-negative minute count prints as its hours modulo 24 and its minutes, each padded to two digits |
| ScheduleGrid.GridTimeOfClock | src/ui/options/schedule/helpers.ts:21-24 | a text "HH:MM" of two padded fields reads as 60 times the hours plus the minutes |
| ScheduleGrid.MinutesToTimeOfFields | src/ui/options/schedule/helpers.ts:27-32 | minute 60h+m of the day prints with hours h and minutes m |
| ScheduleGrid.ClockRoundTrip | src/ui/options/schedule/helpers.ts:21-32 | printing the minutes read from any clock text gives back that text |
| ScheduleGrid.ClockOfFields | src/ui/options/schedule/helpers.ts:21-32 | the clock text of hours h and minutes m reads as 60h+m and prints back as itself |
| ScheduleGrid.ClockSplit | src/ui/options/schedule/helpers.ts:22 | every clock text is two padded fields, hours below 24 and minutes below 60, joined by a colon |
| ScheduleGrid.ClockTimeInDay | src/ui/options/schedule/helpers.ts:21-24 | a clock text reads as a minute of the day |
| ScheduleGrid.PeriodTextInjective | src/ui/options/schedule/helpers.ts:12-18 | different periods have different label texts |
| ScheduleGrid.PeriodsTileTheDay | src/ui/options/schedule/helpers.ts:12-18 | the periods start at 0, follow on without gaps, end at 1440 and none is empty |
| ScheduleGrid.PeriodLabelOf | src/ui/options/schedule/helpers.ts:35-38 | a minute inside a period gets that period's label, and no other period holds it |
| ScheduleGrid.FindLabelAt | src/ui/options/schedule/helpers.ts:36 | the search returns the first period that holds the minute |
| ScheduleGrid.ExpandedCoverage | src/ui/options/schedule/helpers.ts:41-52 | for times within the day the ranges cover (end - start) mod 1440 minutes, and hold a minute exactly when it lies from start up to end going round midnight |
| ScheduleGrid.ReachBound | src/ui/options/schedule/helpers.ts:55-79 | the ranges of every enabled interval stay within the grid's reach |
| ScheduleGrid.BlockedMinuteMembers | src/ui/options/schedule/helpers.ts:68-71 | a minute is painted "blocked" exactly when some enabled "blocked" interval covers it |
| ScheduleGrid.ModeIgnoresOrder | src/ui/options/schedule/helpers.ts:68-73 | reordering the intervals changes no minute's mode: a "free" interval never overrides a blocked minute |
| ScheduleGrid.PaintRange | src/ui/options/schedule/helpers.ts:67-74 | painting one range marks its minutes blocked for a "blocked" interval, leaves every other minute as it was, and keeps the mask equal to the blocked minutes |
| ScheduleGrid.PaintInterval | src/ui/options/schedule/helpers.ts:62-75 | painting one interval adds exactly the minutes it covers, keeping the mask equal to the blocked minutes |
| ScheduleGrid.PaintNext | src/ui/options/schedule/helpers.ts:61-76 | after painting one more interval the grid is the grid of the intervals so far |
| ScheduleGrid.BuildMinuteModes | src/ui/options/schedule/helpers.ts:55-79 | the grid has 1440 minutes, more when a time lies past the day, and minute m is "blocked" exactly when some enabled "blocked" interval covers it |
| ScheduleGrid.LabelledAt | src/ui/options/schedule/helpers.ts:96 | every segment of a labelled list carries the id built from its mode, period and start |
| ScheduleGrid.RunExtend | src/ui/options/schedule/helpers.ts:90-94 | a run of one mode in one period extends over a next minute that has the same mode and period |
| ScheduleGrid.PushSegment | src/ui/options/schedule/helpers.ts:95-101 | closing a run as a segment extends the segmentation up to the run's end |
| ScheduleGrid.NormalizeIntervals | src/ui/options/schedule/helpers.ts:82-109 | the segments tile the day end to end, each non-empty with its own id, every minute of a segment has the segment's mode and period, and neighbours differ in mode or period |
| ScheduleGrid.CutDay | src/ui/options/schedule/helpers.ts:86-108 | the scan over the grid yields its segmentation |
| ScheduleGrid.CutStep | src/ui/options/schedule/helpers.ts:91-105 | one turn of the scan keeps the scan's invariant, and the last turn completes the segmentation |
| ScheduleGrid.CloseRun | src/ui/options/schedule/helpers.ts:94-104 | closing the open run at a change of mode or period keeps the invariant, and at 1440 completes the segmentation |
| ScheduleGrid.KeepRun | src/ui/options/schedule/helpers.ts:94 | a minute with the open run's mode and period extends the run |
| ScheduleGrid.ExpandedHits | src/ui/options/schedule/helpers.ts:41-52 | the ranges of one interval hold any minute at most once |
| ScheduleGrid.IntervalHits | src/ui/options/schedule/helpers.ts:118-126 | an interval adds 1 to a minute's count when it covers it and 0 otherwise |
| ScheduleGrid.CountTruePositive | src/ui/options/schedule/helpers.ts:134 | a count of flags is at least one exactly when some flag is set |
| ScheduleGrid.CountTrueMany | src/ui/options/schedule/helpers.ts:134 | a count of flags is above one exactly when two different flags are set |
| ScheduleGrid.OccupancyAt | src/ui/options/schedule/helpers.ts:115-117 | the occupancy of a minute marks exactly the enabled intervals covering it |
| ScheduleGrid.CoverCountOccupants | src/ui/options/schedule/helpers.ts:113-127 | the count of a minute is the number of enabled intervals covering it |
| ScheduleGrid.CoverCountOverlap | src/ui/options/schedule/helpers.ts:134 | a minute counts more than one exactly when two different enabled intervals cover it |
| ScheduleGrid.CountRange | src/ui/options/schedule/helpers.ts:123-125 | counting one range adds one to each of its minutes within the day and changes no other |
| ScheduleGrid.CountInterval | src/ui/options/schedule/helpers.ts:118-126 | counting one interval adds its hits to each minute of the day |
| ScheduleGrid.CountCoverage | src/ui/options/schedule/helpers.ts:113-127 | every minute of the day ends with the number of enabled intervals' ranges holding it |
| ScheduleGrid.RunsCharacterised | src/ui/options/schedule/helpers.ts:129-145 | the runs hold exactly the overlapping minutes, and each run is maximal |
| ScheduleGrid.FirstRunEndingAfter | src/ui/options/schedule/helpers.ts:133-143 | an overlapping minute lies in some run |
| ScheduleGrid.ScanStep | src/ui/options/schedule/helpers.ts:134-142 | one turn of the overlap scan keeps its invariant, and the last turn leaves the maximal runs |
| ScheduleGrid.PushRun | src/ui/options/schedule/helpers.ts:139-141 | closing a run of overlapping minutes after a clear gap extends the runs up to its end |
| ScheduleGrid.DetectOverlaps | src/ui/options/schedule/helpers.ts:112-146 | the result is the ascending list of maximal runs of minutes covered by two or more enabled intervals, with clear gaps between them |
| ScheduleGrid.CountModeSplit | src/ui/options/schedule/helpers.ts:151-152 | every minute is either "blocked" or "free" |
| ScheduleGrid.ComputeTotals | src/ui/options/schedule/helpers.ts:149-154 | the blocked minutes are the grid's "blocked" minutes and the free minutes are 1440 less those |
| ScheduleGrid.ClockTimesStayInDay | src/ui/options/schedule/helpers.ts:56 | with clock-text times no range writes past minute 1439 |
| ScheduleGrid.IntervalReachInDay | src/ui/options/schedule/helpers.ts:62-64 | an interval with clock-text times paints only minutes of the day |
| ScheduleGrid.ExpandedReach | src/ui/options/schedule/helpers.ts:41-52 | the ranges of two times within the day stay within the day |
| ScheduleGrid.TotalsSplitTheDay | src/ui/options/schedule/helpers.ts:149-154 | with clock-text times the grid is the day and the free total is the count of free minutes |
| ScheduleGrid.DisabledIgnored | src/ui/options/schedule/helpers.ts:60 | disabled intervals change neither the grid's length nor any minute's mode or overlap count |
| Durations.FormatHms | src/domain/schedule/timeline.ts:157-161 | the text has at least one field of minutes, a colon and two digits of seconds |
| Durations.SplitShort | src/domain/schedule/timeline.ts:161 | splitting "M:SS" at the colons gives back its two fields |
| Durations.SplitLong | src/domain/schedule/timeline.ts:161 | splitting "H:MM:SS" at the colons gives back its three fields |
| Durations.LongFields | src/domain/schedule/timeline.ts:161 | three digit fields read as hours, minutes and seconds |
| Durations.ShortFields | src/domain/schedule/timeline.ts:161 | two digit fields read as minutes and seconds |
| Durations.ReadLong | src/domain/schedule/timeline.ts:161 | a long clock text reads back as the seconds its fields denote |
| Durations.ReadShort | src/domain/schedule/timeline.ts:161 | a short clock text reads back as the seconds its fields denote |
| Durations.ReadLongOf | src/domain/schedule/timeline.ts:160-161 | hours, padded minutes and padded seconds read back as 3600h + 60m + s |
| Durations.ReadShortOf | src/domain/schedule/timeline.ts:160-161 | minutes and padded seconds read back as 60m + s |
| Durations.HmsParts | src/domain/schedule/timeline.ts:157-159 | hours, minutes and seconds recombine to the whole, minutes and seconds stay below 60, and hours are positive exactly from 3600 seconds on |
| Durations.FormatHmsReadBack | src/domain/schedule/timeline.ts:155-162 | the text reads back as the number of seconds it was made from |
| Durations.FormatHmsInjective | src/domain/schedule/timeline.ts:155-162 | two durations print alike only when they are the same number of seconds |
| Durations.FormatHmsLongForm | src/domain/schedule/timeline.ts:161 | the hours field appears exactly from one hour on |
| Durations.FormatSeconds | src/ui/dashboard/main.tsx:13-20 | the text reads back as the seconds floored, negatives shown as zero |
| ScheduleView.WithoutIdMeaning | src/ui/options/schedule/ScheduleView.tsx:41 | the filtered list holds exactly the intervals with another id, is no longer, and is the list itself when no interval has the id |
| ScheduleView.HandleDeleteEffect | src/ui/options/schedule/ScheduleView.tsx:38-43 | deleting drops exactly the intervals with the id from the selected day and leaves every other day as it was |
| ScheduleView.WithoutIdTwice | src/ui/options/schedule/ScheduleView.tsx:41 | deleting twice is deleting once |
| ScheduleView.ToggleId | src/ui/options/schedule/ScheduleView.tsx:48 | toggling keeps the list's length |
| ScheduleView.HandleToggleEffect | src/ui/options/schedule/ScheduleView.tsx:45-50 | toggling keeps the day's order and every field but enabled, flips enabled exactly on the intervals with the id, touches no other day, and toggling twice restores the day |
| ScheduleView.ReplaceId | src/ui/options/schedule/ScheduleView.tsx:55 | replacing keeps the list's length |
| ScheduleView.HandleSaveEffect | src/ui/options/schedule/ScheduleView.tsx:52-59 | a listed id is replaced in place, a new interval is appended, the saved interval is the only one left with its id, and no other day changes |
| ScheduleView.HandleSaveIdempotent | src/ui/options/schedule/ScheduleView.tsx:52-59 | saving the same interval again changes nothing |
| ScheduleView.Validate | src/ui/options/schedule/ScheduleView.tsx:333-338 | the error is empty exactly when start and end differ |
| ScheduleView.ModalSaveMeaning | src/ui/options/schedule/ScheduleView.tsx:340-353 | the modal hands on an interval exactly when start and end differ, with the edited fields, the edited interval's id or else the fresh id |
| ScheduleView.FormatMinutesFields | src/ui/options/schedule/ScheduleView.tsx:439-443 | a non-negative count prints as h hours and m minutes with 60h+m the count and m below 60 |
| ScheduleView.DurationLabelOfMinutes | src/ui/options/schedule/ScheduleView.tsx:355-365 | the label is "0m" exactly when the times are equal, else it shows the forward distance round the clock from start to end |
| ScheduleView.FormatMinutesLong | src/ui/options/schedule/ScheduleView.tsx:439-443 | a duration label is longer than "0m", so it never reads as the equal-times label |
| ScheduleView.FormatMinuteLabel12h | src/ui/options/schedule/ScheduleView.tsx:428-437 | the 12-hour label shows an hour from 1 to 12, padded minutes and "PM" exactly from noon, and the clock hour is recoverable from it |
| ScheduleView.FormatMinuteLabel24h | src/ui/options/schedule/ScheduleView.tsx:428-431 | in 24-hour mode the label is the editor's own "HH:MM" text |
| BackgroundState.Background.constructor | src/background/state.ts:18-24 | the worker starts with no tab records, no active tab, the window focused, both caches empty and both flags clear |
| BackgroundState.Background.GetTabState | src/background/state.ts:27-44 | the stored record is returned untouched, or a default one is stored and returned, new tabs going last in insertion order |
| BackgroundState.Background.PutTabState | src/background/state.ts:5-15 | a write to a field of a handed-out record replaces that tab's record and no other |
| BackgroundState.Background.DeleteTabState | src/background/tabs.ts:60 | the tab's record is gone and the insertion order drops it, still without repeats |
| BackgroundState.Background.EnsureSettingsLoaded | src/background/state.ts:47-52 | the loader is consulted exactly when nothing is cached, and the value returned is then cached |
| BackgroundState.Background.EnsureMetricsLoaded | src/background/state.ts:55-60 | the loader is consulted exactly when nothing is cached, and the value returned is then cached |
| BackgroundState.Background.SetActiveTabId | src/background/state.ts:63-69 | the getter reads back the value set |
| BackgroundState.Background.SetWindowFocused | src/background/state.ts:72-78 | the getter reads back the value set |
| BackgroundState.Background.SetSettingsCache | src/background/state.ts:81-87 | the getter reads back the value set |
| BackgroundState.Background.SetMetricsCache | src/background/state.ts:90-96 | the getter reads back the value set |
| BackgroundState.Background.SetMetricsDirty | src/background/state.ts:99-105 | the getter reads back the value set |
| BackgroundState.Background.SetBackgroundStarted | src/background/state.ts:108-114 | the getter reads back the value set |
| BackgroundState.StateOfInserted | src/background/state.ts:27-44 | once created, a tab's record is what every later lookup returns, and creating it disturbs no other tab |
| BackgroundMetrics.DayKeyIsLocal | src/background/metrics.ts:58-60 | the day key of an instant is its YYYY-MM-DD date |
| BackgroundMetrics.DayKeySameDay | src/background/metrics.ts:58-60 | two instants share a day key exactly when they fall on the same day |
| BackgroundMetrics.AddCountsAt | src/background/metrics.ts:33-38 | a key of the per-domain sum is a key of either record, and its count is the sum of the two |
| BackgroundMetrics.MergedDeltaSums | src/background/metrics.ts:23-44 | every counter of the merged aggregate is the sum of the two with missing ones as zero, per-domain seconds add up pointwise and are kept only when some domain has any, and a non-zero timestamp of the delta wins |
| BackgroundMetrics.MergedDeltaOrderFree | src/background/metrics.ts:23-44 | merging two deltas in either order gives the same counters and per-domain seconds |
| BackgroundMetrics.SessionCountedDay | src/background/metrics.ts:71-74 | a session start adds exactly one session to the day of now and changes no other counter |
| BackgroundMetrics.TimeCountedDay | src/background/metrics.ts:92-105 | tracked seconds go to the day's total and to the domain's share of that day, and nowhere else |
| BackgroundMetrics.BlockedTimeCountedDay | src/background/metrics.ts:116-121 | blocked-screen seconds go to the day's blocked total only |
| BackgroundMetrics.AttemptCountedDay | src/background/metrics.ts:138-142 | a counted attempt adds exactly one attempt to the day of now and sets both timestamps |
| BackgroundMetrics.AddDomainSeconds | src/background/metrics.ts:33-38 | the loop leaves the per-domain sums of the current and the delta's seconds |
| BackgroundMetrics.MetricsQueue.constructor | src/background/metrics.ts:14-15 | the queues start empty |
| BackgroundMetrics.MetricsQueue.QueueDbEvent | src/background/metrics.ts:18-20 | the event is appended and the daily aggregates are unchanged |
| BackgroundMetrics.MetricsQueue.MergeDailyDelta | src/background/metrics.ts:23-44 | only the day's aggregate changes, to its merge with the delta, and the events are unchanged |
| BackgroundMetrics.MetricsQueue.FlushDb | src/background/metrics.ts:47-55 | when anything is pending exactly the pending events and aggregates are handed over, and both queues end empty |
| BackgroundMetrics.StartSession | src/background/metrics.ts:63-87 | an active session changes nothing but the loaded cache; otherwise the session starts, the day gains one session, and one event and a one-session delta are queued |
| BackgroundMetrics.BeginSession | src/background/metrics.ts:69-86 | the tab's session starts at now, the metrics count it, and its event and delta are queued |
| BackgroundMetrics.AddTime | src/background/metrics.ts:90-111 | the metrics gain the seconds on the day and domain, are marked dirty, and one time event and delta are queued |
| BackgroundMetrics.AddBlockedTime | src/background/metrics.ts:114-127 | the metrics gain the blocked seconds on the day, are marked dirty, and one event and delta are queued |
| BackgroundMetrics.AddAttempt | src/background/metrics.ts:130-148 | an attempt in the cooldown changes nothing but the loaded cache; otherwise the tab remembers it, the day gains one attempt, and one event and a one-attempt delta are queued |
| BackgroundMetrics.CountAttempt | src/background/metrics.ts:136-147 | the tab notes the attempt, the metrics count it, and its event and delta are queued |
| BackgroundMetrics.AttemptCooldown | src/background/metrics.ts:133 | after a counted attempt, a repeat of the same URL is ignored exactly when it comes less than 5000 ms later and the first was not at instant zero, and another URL is never ignored |
| BackgroundMetrics.TickTabMeaning | src/background/metrics.ts:154-175 | every tab ends the tick at now; time accrues only for an eligible tab at least a second after its last tick, in whole seconds, and counts as activity; a session survives only on a target tab that is eligible or active within the last minute |
| BackgroundMetrics.TickAddsFromEligible | src/background/metrics.ts:153-159 | every time addition of a tick comes from an eligible tab, on its domain, and is at least one second |
| BackgroundMetrics.TickOne | src/background/metrics.ts:154-175 | one tab's turn adds its accrued time, if any, to the metrics and queues, and replaces its record by the ticked one |
| BackgroundMetrics.TickNext | src/background/metrics.ts:153-176 | one turn of the loop takes the tick one tab further |
| BackgroundMetrics.TickMetrics | src/background/metrics.ts:151-177 | every tab is ticked once in insertion order, and the time each accrues is added to the metrics and queued in that order |
| BackgroundMetrics.FlushMetrics | src/background/metrics.ts:180-195 | dirty cached metrics are saved as version 2 and marked clean, otherwise nothing is saved, and the database queues are flushed either way |
| BackgroundTabs.TargetDomainMeaning | src/background/tabs.ts:4-23 | a tab has a target domain exactly when its URL is a target URL, and the domain is then the first blocked domain matching the lowercased host |
| BackgroundTabs.TabAfterTargetMeaning | src/background/tabs.ts:24-32 | after retargeting the tab is a target exactly when it has a domain, a non-target has no session, a tab entering a target has one, and a tab staying on target is only retargeted |
| BackgroundTabs.NoRestartOnTarget | src/background/tabs.ts:27-29 | a session starts only on the step into a target domain, never on a further update while on target |
| BackgroundTabs.UpdateTabTarget | src/background/tabs.ts:19-33 | the settings are loaded once, the tab's record becomes its retargeted record, and a session is counted and queued exactly when the tab enters a target without an active session |
| BackgroundTabs.ActivatedMeaning | src/background/tabs.ts:37-49 | the new tab is active and ticked now, a previously active other tab is inactive and ticked now, and every other tab is untouched |
| BackgroundTabs.OnActivated | src/background/tabs.ts:37-49 | the active tab id becomes the tab, and the tab records and insertion order are those of an activation |
| BackgroundTabs.UpdatedUrlChoice | src/background/tabs.ts:52-56 | a reported URL change wins over the tab's URL, and without one nothing happens for a missing or empty tab URL |
| BackgroundTabs.OnUpdated | src/background/tabs.ts:51-57 | without a usable URL nothing changes, otherwise the tab is retargeted with that URL |
| BackgroundTabs.OnRemoved | src/background/tabs.ts:59-64 | the tab's record and its place in the insertion order go, and the active id is cleared when it was that tab |
| BackgroundTabs.RemovedIsGone | src/background/tabs.ts:59-64 | after a removal no record, order entry or active id refers to the tab |
| BackgroundTabs.OnFocusChanged | src/background/tabs.ts:66-68 | the window counts as focused exactly when the id is not the no-window id |
| ContentScripts.PatternsShape | src/background/contentScripts.ts:10 | the flat list has two patterns per domain in list order, the exact pattern then the subdomain pattern |
| ContentScripts.PatternsMembers | src/background/contentScripts.ts:10 | a pattern is listed exactly when it is one of the two patterns of a listed domain |
| ContentScripts.BuildMatches | src/background/contentScripts.ts:9-12 | the match list has no repeats, is empty exactly when there are no domains, and holds exactly the patterns of the domains |
| ContentScripts.PatternsInjective | src/background/contentScripts.ts:10 | for domains without a star, different domains give different patterns and an exact pattern never equals a subdomain pattern |
| ContentScripts.BuildMatchesKeepsAll | src/background/contentScripts.ts:9-12 | for distinct star-free domains nothing is dropped: two patterns per domain, in order |
| ContentScripts.SyncRegisteredContentScripts | src/background/contentScripts.ts:15-58 | the exact calls made: a stale registration is dropped first; nothing is registered for no domains; otherwise one registration with the match list, retried once after an unregister on a duplicate-id error; any other error is passed on |
| ContentScripts.ListOf | src/background/contentScripts.ts:83-93 | the list holds the option's value and nothing else |
| ContentScripts.InjectTargetMeaning | src/background/contentScripts.ts:80-93 | a tab is injected into exactly when it has a non-zero id and the worker would mark its URL as a target |
| ContentScripts.InjectedTabsMembers | src/background/contentScripts.ts:80-102 | an id is injected into exactly when a listed tab with that id passes every skip test |
| ContentScripts.NoDomainsNoInjection | src/background/contentScripts.ts:90-93 | with no domains no tab is injected into |
| ContentScripts.ReinjectContentScriptIntoOpenTabs | src/background/contentScripts.ts:75-103 | the tabs are queried exactly when there are domains, and one injection of the content script is made per matching tab, in query order |
| YouTubeWhitelist.WatchUrlMeaning | src/content/youtubeWhitelist.ts:5-16 | a watch page is exactly a parsed URL whose lowercased host is youtube.com or a subdomain of it and whose path is exactly /watch |
| YouTubeWhitelist.UpToSeparator | src/content/youtubeWhitelist.ts:27 | the result is the longest prefix without "/", "?" or "#" |
| YouTubeWhitelist.HandleRun | src/content/youtubeWhitelist.ts:30 | the result is the longest prefix of handle characters |
| YouTubeWhitelist.RegexHandle | src/content/youtubeWhitelist.ts:30-31 | a handle the fallback pattern finds is non-empty, made of handle characters, and follows "/@" in the text |
| YouTubeWhitelist.ExtractedHandleShape | src/content/youtubeWhitelist.ts:19-33 | whichever way a handle is found it is non-empty, lowercase and free of "/", "?" and "#", and an empty href gives none |
| YouTubeWhitelist.HandleFromChannelPath | src/content/youtubeWhitelist.ts:23-28 | a channel path "/@name" followed by nothing or a separator gives the lowercased name |
| YouTubeWhitelist.RegexHandleOfChannelHref | src/content/youtubeWhitelist.ts:30-31 | the fallback pattern reads the name from a raw "/@name" link |
| YouTubeWhitelist.QueryGet | src/content/youtubeWhitelist.ts:123 | a value is found exactly when some query pair has the name |
| YouTubeWhitelist.QueryGetFirst | src/content/youtubeWhitelist.ts:123 | the value read is that of the first pair with the name |
| YouTubeWhitelist.AbEntryMatchesMeaning | src/content/youtubeWhitelist.ts:126-133 | an "@name" entry matches the value name, and any other non-blank entry must equal the value |
| YouTubeWhitelist.AnyAbMatchSome | src/content/youtubeWhitelist.ts:126-133 | the fallback hits exactly when one entry matches the value |
| YouTubeWhitelist.AllowedMeaning | src/content/youtubeWhitelist.ts:92-143 | a watch page is let through exactly when the page URL, the channel URL of a found handle, or the ab_channel value is whitelisted, and any other page never is |
| YouTubeWhitelist.DecidedBeforeLookup | src/content/youtubeWhitelist.ts:95-103 | a page that is no watch page or is itself whitelisted is decided before, and regardless of, the handle lookup |
| YouTubeWhitelist.ChannelRule | src/content/youtubeWhitelist.ts:113-118 | for a watch page not itself whitelisted, a found handle lets it through by the channel rule exactly when its channel URL is whitelisted, and without a handle only the ab_channel rule remains |
| YouTubeWhitelist.ChannelUrlAdmittedByAtEntry | src/content/youtubeWhitelist.ts:114-115 | a lowercase handle is admitted by an "@handle" entry of the whitelist |
| SettingsLists.ContainsLength | src/ui/options/Options.tsx:544 | a string is at least as long as any string it contains |
| SettingsLists.ValidEntryNotBlank | src/ui/options/Options.tsx:538-544 | an accepted entry is never blank once trimmed and lowercased, so the whitelist check never skips it |
| SettingsLists.ValidHandleEntryAdmitsChannel | src/ui/options/Options.tsx:538-544 | an accepted "@handle" entry whitelists the channel URL of its lowercased handle |
| SettingsLists.AddWhitelistMeaning | src/ui/options/Options.tsx:99-111 | blank input is ignored and invalid input refused; otherwise the trimmed entry joins the list, every listed entry is kept, and the list has no repeats |
| SettingsLists.WithoutAppend | src/ui/options/Options.tsx:114 | removal keeps the order of what is left: filtering a joined list is joining the filtered pieces |
| SettingsLists.RemoveEntryMeaning | src/ui/options/Options.tsx:113-116 | removing drops exactly the entries equal to the value, changes nothing when it is absent, and removing twice is removing once |
| SettingsLists.AddBlockedDomainMeaning | src/ui/options/Options.tsx:227-245 | input that does not normalise or a domain already listed is refused before the permission is asked; a new domain is appended once permission is granted, and the list otherwise stays as it was |
| Dashboard.DayNumberBack | src/ui/dashboard/main.tsx:30-31 | going back i whole days lands on the day i before |
| Dashboard.GetRecentDays | src/ui/dashboard/main.tsx:26-35 | the loop returns one key per day for count days, today first |
| Dashboard.RecentDaysAreDaysBefore | src/ui/dashboard/main.tsx:26-35 | the window has count keys and its i-th key is the day i days before today |
| Dashboard.RecentDaysDistinct | src/ui/dashboard/main.tsx:26-35 | the window holds different days, so no day is counted twice in a sum |
| Dashboard.TwoWeeks | src/ui/dashboard/main.tsx:518-519 | the 14-day window starts with the 7-day window, its tail is the week before, and the two weeks share no day |
| Dashboard.WindowSumAppend | src/ui/dashboard/main.tsx:521-522 | summing a window in two pieces gives the sum of the whole window |
| Dashboard.FortnightSplits | src/ui/dashboard/main.tsx:518-522 | the sum over 14 days is this week's sum plus the previous week's |
| Dashboard.DeltaClassMeaning | src/ui/dashboard/main.tsx:531-537 | for counts that are never negative the class is positive, negative or neutral exactly on a rise, a fall or no change |
| Dashboard.RoundHalfUp | src/ui/dashboard/main.tsx:529 | the result is the nearest whole number, halves rounded up |
| Dashboard.PercentDeltaSign | src/ui/dashboard/main.tsx:523-530 | the label ends in "%", starts with "+" exactly on a rise and with "-" exactly on a fall, and is "0%" exactly when nothing changed |
| Dashboard.PercentDeltaRounded | src/ui/dashboard/main.tsx:527-529 | after a week with something in it the digits are the change in percent rounded to the nearest whole number |
| OptionsPage.ExportImportRoundTrip | src/ui/options/Options.tsx:188-210 | exporting the settings and importing the file restores them exactly, whatever the defaults |
| OptionsPage.EmptyFileGivesDefaults | src/ui/options/Options.tsx:547-559 | a file with none of the keys imports as the defaults |
| OptionsPage.ImportIdempotent | src/ui/options/Options.tsx:547-559 | importing, exporting the result and importing again gives the first import |
| OptionsPage.ImportedLists | src/ui/options/Options.tsx:553-556 | the lists are the file's arrays when it has them and the defaults' lists otherwise |
| OptionsPage.CompleteFileIgnoresDefaults | src/ui/options/Options.tsx:547-559 | a file giving every key imports the same whatever the defaults |

## Left out

- Storage and database I/O.
  - Reads and writes of `chrome.storage`: `ensureDefaults`, `getSettings`, `setSettings`, `getMetrics`, `setMetrics`.
  - IndexedDB and sql.js persistence, including what `flushDb` hands to the database.
  - JSON (de)serialisation in `src/infrastructure/sqlite.ts` and the file read and download of `Options.tsx`.
  - Reason: these are foreign storage. Stored values are modelled as datatypes, and the loaders are parameters.
- Interleaving of the `async` listeners and loaders. Each operation is modelled as one atomic step.
- DOM and React presentation.
  - The overlay, the blocking guard and the blocker of `src/content`.
  - The popup, help and blocked pages, and Chart.js.
  - The 5-minute grant of the blocked page (`src/ui/blocked/main.ts:104-117`).
  - Reason: these are UI and browser APIs.
- `chrome.permissions` requests. Their answer is an input.
- Timers, polling and message routing, because their point is asynchronous scheduling.
  - `unblockTimer`, `extensionMessaging`, `backgroundTasks`, `messaging`, `lifecycle`.
  - Content-script bootstrap.
  - The `waitForYouTubeHandle` and `findYouTubeHandleInDom` polling. The handle they find is an input.
- `src/shared/hash.ts`: SHA-256 through `crypto.subtle`, a foreign call.
- The URL parser of the WHATWG URL Standard (section 4.4, URL parsing). IDNA, percent-encoding and relative resolution are hidden behind the parser parameter.
- Time zones and DST.
  - The calendar has fixed 86 400 000 ms days, so `setHours`/`setDate` arithmetic across a DST change is not modelled.
  - The UTC `toISOString()` day keys of `src/background/metrics.ts:58-60` and `src/ui/dashboard/main.tsx:22-24` are modelled as local-calendar keys.
- Unicode.
  - Lowercasing and trimming are ASCII only.
  - Strings are sequences of characters, not UTF-16 units.
- Floating point.
  - Chart bar heights on the options page.
  - Segment widths and the "now" marker percentages of the schedule view.
  - The exponent form of `toFixed` for huge numbers.
  - Durations are reals, or integer milliseconds where the code only multiplies and floors.
- Calls of the chrome scripting API may fail. In `ContentScripts.SyncRegisteredContentScripts`, only the first registration error and the error of the retried registration are inputs; the retry's unregister is taken to succeed.
- Fields of an imported or stored object that the code copies without checking: extra keys are dropped and wrongly typed values are not represented.
- The random interval id of `ScheduleView.tsx:347` (from `Date.now()` and `Math.random()`) is an input of `ScheduleView.ModalSaveMeaning`.
- Type-only and build files (`src/core/types.ts`, `src/shared/types.ts`, `src/infrastructure/dbTypes.ts`, the Vite and manifest scripts): they only shape the datatypes, or are build configuration.
- StorageDays.DerivedIntervalDay: a stored schedule range without `start` or `end` gives an interval whose start or end is the text "undefined" (through `StorageDays.DerivedInterval`). The code (`src/infrastructure/storage.ts:111-112`) copies the value `undefined` itself. The later `parseTimeToMinutes` then throws a TypeError, and the model reads the text as midnight instead, through the NaN branch of `src/core/schedule.ts:5-8`. The exception is not modelled.
- StorageDays.MergedIntervalDay: the same holds for a stored interval without `start` or `end` (through `StorageDays.MergedInterval`, `src/infrastructure/storage.ts:132-133`).
- StorageDays.DerivedInterval: a missing `start` or `end` becomes the text "undefined" instead of the value `undefined`; the TypeError that follows in the code is not modelled.
- StorageDays.MergedInterval: the same as `StorageDays.DerivedInterval`, for a stored interval.
- Imported files that are not part of this model, besides `src/domain/schedule/schedule.ts`: `src/shared/schedule.ts` (imported by `src/shared/url.ts`) and `src/core/i18n.ts` (imported by `src/core/url.ts` and the dashboard). The model assumes they behave as `src/core/schedule.ts` and `src/shared/i18n.ts` do, and uses `CoreSchedule` and `I18n` for them.
- Timeline.WindowOf: an interval whose start or end reads as NaN (a time without a colon such as `"12"`, see `CoreSchedule.ParseTimeNaN`) gives no window in the model. `buildDayWindows` takes its overnight branch for it and pushes a window with an invalid date as one bound.
- Timeline.DayWindowsSorted: proved for the windows the model builds. With a NaN start the comparator `a.start - b.start` returns NaN, which the ECMAScript sort reads as "equal" to every window; the comparator is then inconsistent and the order of the result is implementation-defined.
- Timeline.BuildDayWindows: returns the windows of the model, so it lacks the NaN-bound windows and their implementation-defined order.
- Timeline.FindNextWindow: a window with a valid start and a NaN end, which `findNextWindow` can return, is never built in the model.
- Timeline.ComputeScheduleTimeline: when an interval time reads as NaN, `nextBlockStart` and `nextChangeAt` can differ from the code, for the reasons above; for times that read as numbers they follow the code.
- RawInput.FiniteNumber: JavaScript `Number()` is modelled only for numbers, booleans, `null`, `undefined` and decimal digit strings with an optional minus sign.
  - Arrays and objects read as NaN; JavaScript reads `[]` as 0 and `[5]` as 5.
  - Strings with surrounding spaces, hexadecimal or exponent form read as NaN.
- CoreSchedule.ParseTwoDigitTime: the same restriction to digit strings applies to the parts of `"HH:MM"`.
- StorageFields.WeeklyUntil: a fractional stored deadline is kept as its ceiling. `StorageFields.WeeklyUntilSameDeadline` proves that `now < until` is unchanged for every integer `now`.
- CoreDefaults.DefaultSettings: `src/core/defaults.ts` has no weekly fields. They are filled with the values that mean "absent": no days, no deadline, duration 0.
- BackgroundTabs.TargetDomainMeaning: stated for blocked-domain lists without empty entries. With an empty entry, `find(...) || null` can yield no domain even though a later entry matches.
- Dashboard.DeltaClassMeaning: stated for non-negative sums, which is all that the day counters can hold.
- Dashboard.PercentDeltaSign: stated for non-negative sums, as above.
- Dashboard.PercentDeltaRounded: the change `(current - previous) / previous * 100` is an exact rational in the model, where the code computes it in IEEE doubles before `toFixed(0)` rounds it. At a quotient that is exactly half-way the double can fall just below the half, so the label can differ by one: 63 against 40 prints "+57%" in the code and "+58%" in the model.
- Dashboard.PercentDelta: the same exact quotient, so its label can differ from the code's by one at half-way quotients.
