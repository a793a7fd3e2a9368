/** The weekly bonus session of the latest generation (`src/domain/weekly/weekly.ts`):
    a session may be started on the configured weekdays, at most once per local
    day, and is active until `weeklyUnblockUntil`. */
module DomainWeekly {
  import opened Base
  import opened Types
  import opened Calendar

  /** `isWeeklySessionActive`: enabled, an end time is set (non-null and non-zero), and it lies ahead. */
  predicate IsWeeklySessionActive(s: Settings, now: int)
  {
    s.weeklyUnblockEnabled && IsSet(s.weeklyUnblockUntil) && now < s.weeklyUnblockUntil.value
  }

  /** `settings.weeklyUnblockDays ?? []`. */
  function AllowedDays(s: Settings): seq<int>
  {
    if s.weeklyUnblockDays.Some? then s.weeklyUnblockDays.value else []
  }

  /** `getWeeklySessionDayKey(now)`: the "YYYY-MM-DD" key of the local day of `now`. */
  function GetWeeklySessionDayKey(now: int): string
  {
    LocalDayKey(now)
  }

  /** `canStartWeeklySession`. */
  function CanStartWeeklySession(s: Settings, now: int): (r: bool)
    ensures !s.weeklyUnblockEnabled ==> !r
    ensures Weekday(now) !in AllowedDays(s) ==> !r
    ensures s.weeklyUnblockDays.None? ==> !r
    ensures s.weeklyUnblockEnabled && Weekday(now) in AllowedDays(s) ==>
      (r <==> s.weeklyUnblockLastWeek != Some(GetWeeklySessionDayKey(now)))
  {
    if !s.weeklyUnblockEnabled then false
    else if Weekday(now) !in AllowedDays(s) then false
    else s.weeklyUnblockLastWeek != Some(LocalDayKey(now))
  }

  /** Once a session was recorded at `started`, no session can start again the same
      local day; on any other day that is allowed, one can. */
  lemma AlreadyUsedToday(s: Settings, started: int, now: int)
    requires s.weeklyUnblockLastWeek == Some(GetWeeklySessionDayKey(started))
    ensures DayNumber(now) == DayNumber(started) ==> !CanStartWeeklySession(s, now)
    ensures DayNumber(now) != DayNumber(started) && s.weeklyUnblockEnabled && Weekday(now) in AllowedDays(s)
      ==> CanStartWeeklySession(s, now)
  {
    LocalDayKeySameDay(now, started);
  }

  /** `getWeeklySessionDurationMs`: `max(1, floor(minutes))` minutes in milliseconds. */
  function GetWeeklySessionDurationMs(s: Settings): (ms: int)
    ensures ms >= MS_PER_MINUTE && ms % MS_PER_MINUTE == 0
    ensures s.weeklyUnblockDurationMinutes >= 1.0 ==> ms == s.weeklyUnblockDurationMinutes.Floor * MS_PER_MINUTE
    ensures s.weeklyUnblockDurationMinutes < 1.0 ==> ms == MS_PER_MINUTE
  {
    Max(1, s.weeklyUnblockDurationMinutes.Floor) * 60 * 1000
  }
}
