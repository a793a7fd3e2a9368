/** The records every generation of the extension passes around: schedule
    ranges and intervals, the settings record (a superset of the `src/domain`,
    `src/core` and `src/shared` shapes), the metrics record, block decisions and
    parsed URLs. */
module Types {
  import opened Base

  datatype Language = En | Es | Pt | Fr

  /** A legacy schedule range, `{ start, end }` as "HH:MM" strings. */
  datatype TimeRange = TimeRange(start: string, end: string)

  /** `Record<number, TimeRange[]>`: ranges per weekday (0 = Sunday). */
  type WeekSchedule = map<int, seq<TimeRange>>

  datatype Mode = Blocked | Free

  /** One schedule interval of a weekday; it may cross midnight when `end < start`. */
  datatype Interval = Interval(id: string, start: string, end: string, mode: Mode, enabled: bool)

  /** `Record<number, Interval[]>`: intervals per weekday (0 = Sunday). */
  type IntervalWeek = map<int, seq<Interval>>

  /** `intervalsByDay[day] ?? []`. */
  function DayIntervals(week: IntervalWeek, day: int): (r: seq<Interval>)
    ensures day !in week ==> r == []
  {
    if day in week then week[day] else []
  }

  /** The settings record. `unblockUntil` and `weeklyUnblockUntil` hold `null` as
      `None`; `weeklyUnblockDays` is `None` when the field is absent; the tag map
      holds raw tag strings so that settings which never went through
      normalisation are representable. */
  datatype Settings = Settings(
    blockEnabled: bool,
    blockShorts: bool,
    blockKids: bool,
    language: Language,
    strictMode: bool,
    pinHash: Option<string>,
    blockedDomains: seq<string>,
    whitelist: seq<string>,
    schedules: WeekSchedule,
    intervalsByDay: IntervalWeek,
    timeFormat12h: bool,
    unblockUntil: Option<int>,
    weeklyUnblockEnabled: bool,
    weeklyUnblockDays: Option<seq<int>>,
    weeklyUnblockDurationMinutes: real,
    weeklyUnblockUntil: Option<int>,
    weeklyUnblockLastWeek: Option<string>,
    blockedDomainTags: map<string, seq<string>>)

  /** The settings record of the oldest generation (`src/shared/types.ts`). */
  datatype SharedSettings = SharedSettings(
    blockEnabled: bool,
    blockShorts: bool,
    blockKids: bool,
    strictMode: bool,
    pinHash: Option<string>,
    blockedDomains: seq<string>,
    whitelist: seq<string>,
    schedules: WeekSchedule,
    intervalsByDay: IntervalWeek,
    timeFormat12h: bool,
    unblockUntil: Option<int>)

  /** JavaScript truthiness of a nullable timestamp: `null` and `0` are falsy. */
  predicate IsSet(v: Option<int>)
  {
    v.Some? && v.value != 0
  }

  /** `!strictMode && unblockUntil && now < unblockUntil`: a temporary unblock is running. */
  predicate TemporaryUnblockActive(strictMode: bool, unblockUntil: Option<int>, now: int)
  {
    !strictMode && IsSet(unblockUntil) && now < unblockUntil.value
  }

  /** The metrics record (version 2): counters per day key and per domain. */
  datatype Metrics = Metrics(
    version: int,
    attemptsByDay: map<string, int>,
    timeByDay: map<string, int>,
    blockedTimeByDay: map<string, int>,
    sessionsByDay: map<string, int>,
    timeByDomainByDay: map<string, map<string, int>>,
    lastAttemptAt: Option<int>,
    lastUpdatedAt: Option<int>)

  /** `record[key] || 0` for a counter map. */
  function Count(m: map<string, int>, key: string): (r: int)
    ensures key !in m ==> r == 0
  {
    if key in m then m[key] else 0
  }

  datatype BlockReason = Manual | Schedule | Shorts | Kids | NotTarget | MissingTag | Unknown

  /** `{ blocked, reason? }`. */
  datatype BlockDecision = BlockDecision(blocked: bool, reason: Option<BlockReason>)

  /** What `new URL(s)` exposes to the extension: host, path and query pairs. */
  datatype Url = Url(hostname: string, pathname: string, search: seq<(string, string)>)

  /** `new URL(s)`: `None` stands for the exception thrown on invalid input. */
  type UrlParser = string -> Option<Url>
}
