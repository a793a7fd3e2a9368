/** The weekly bonus session of the `src/core` generation (`src/core/weekly.ts`):
    sessions start only on Mondays and are keyed by ISO week ("YYYY-Www", the
    week containing the date's Thursday, per section 4.1.4 of ISO 8601:2004). */
module CoreWeekly {
  import opened Base
  import opened Types
  import opened Calendar

  /** `WEEKLY_UNBLOCK_DAY`: Monday in `getDay()` numbering. */
  const WEEKLY_UNBLOCK_DAY: int := 1

  /** `getUTCDay() || 7`: Monday 1 ... Sunday 7. */
  function IsoWeekday(z: int): (d: int)
    ensures 1 <= d <= 7 && d % 7 == WeekdayOfDay(z)
  {
    var w := WeekdayOfDay(z);
    if w == 0 then 7 else w
  }

  /** The Thursday of the ISO week of day `z` (`setUTCDate(getUTCDate() + 4 - day)`). */
  function IsoThursday(z: int): (thu: int)
    ensures WeekdayOfDay(thu) == 4 && thu % 7 == 0
    ensures z - 3 <= thu <= z + 3
  {
    z + 4 - IsoWeekday(z)
  }

  /** `Math.ceil(a / b)` for a positive divisor. */
  function CeilDiv(a: int, b: int): int
    requires b > 0
  {
    (a + b - 1) / b
  }

  /** The ISO week-numbering year: the calendar year of the week's Thursday. */
  function IsoWeekYear(z: int): int
  {
    CivilFromDays(IsoThursday(z)).year
  }

  /** `Math.ceil(((thursday - yearStart) / 86400000 + 1) / 7)` for a Thursday on or after `yearStart`. */
  function WeeksFrom(thu: int, yearStart: int): int
  {
    CeilDiv(thu - yearStart + 1, 7)
  }

  /** Two Thursdays on or after the same start that fall in the same week count are the same day. */
  lemma WeeksFromInjective(t1: int, t2: int, yearStart: int)
    requires yearStart <= t1 && yearStart <= t2 && t1 % 7 == 0 && t2 % 7 == 0
    requires WeeksFrom(t1, yearStart) == WeeksFrom(t2, yearStart)
    ensures t1 == t2
  {
    var d1, d2 := t1 - yearStart, t2 - yearStart;
    assert d1 / 7 == d2 / 7;
    assert d1 % 7 == d2 % 7;
  }

  /** The ISO week number of day `z`. */
  function IsoWeekNumber(z: int): (w: int)
    ensures 1 <= w <= 53
  {
    var thu := IsoThursday(z);
    YearStartBefore(thu);
    NextYearStartAfter(thu);
    YearLength(CivilFromDays(thu).year);
    WeeksFrom(thu, YearStart(IsoWeekYear(z)))
  }

  /** `getIsoWeekKey`: "YYYY-Www" with a two-digit week number. */
  function IsoWeekKey(z: int): (key: string)
    ensures |key| >= 5 && key[|key| - 4..|key| - 2] == "-W"
  {
    IntToString(IsoWeekYear(z)) + "-W" + Pad2(IsoWeekNumber(z))
  }

  /** The seven days Monday..Sunday of one ISO week share their key. */
  lemma SameWeekSameKey(monday: int, k: int)
    requires IsoWeekday(monday) == 1 && 0 <= k < 7
    ensures IsoThursday(monday + k) == IsoThursday(monday)
    ensures IsoWeekKey(monday + k) == IsoWeekKey(monday)
  {
    assert WeekdayOfDay(monday + k) == (WeekdayOfDay(monday) + k) % 7;
  }

  /** Splitting "YYYY-Www" at its fixed-width tail recovers both parts. */
  lemma SplitKey(y1: string, w1: string, y2: string, w2: string)
    requires |w1| == 2 && |w2| == 2 && y1 + "-W" + w1 == y2 + "-W" + w2
    ensures y1 == y2 && w1 == w2
  {
    var k := y1 + "-W" + w1;
    assert k[..|k| - 4] == y1 && k[|k| - 2..] == w1;
    var k2 := y2 + "-W" + w2;
    assert k2[..|k2| - 4] == y2 && k2[|k2| - 2..] == w2;
  }

  /** A key determines its ISO year and week number. */
  lemma IsoWeekKeyParts(z1: int, z2: int)
    requires IsoWeekKey(z1) == IsoWeekKey(z2)
    ensures IsoWeekYear(z1) == IsoWeekYear(z2) && IsoWeekNumber(z1) == IsoWeekNumber(z2)
  {
    var y1, y2 := IsoWeekYear(z1), IsoWeekYear(z2);
    var w1, w2 := IsoWeekNumber(z1), IsoWeekNumber(z2);
    SplitKey(IntToString(y1), Pad2(w1), IntToString(y2), Pad2(w2));
    Pad2Injective(w1, w2);
    IntToStringInjective(y1, y2);
  }

  /** An ISO year and week number name exactly one Thursday. */
  lemma IsoYearWeekThursday(z1: int, z2: int)
    requires IsoWeekYear(z1) == IsoWeekYear(z2) && IsoWeekNumber(z1) == IsoWeekNumber(z2)
    ensures IsoThursday(z1) == IsoThursday(z2)
  {
    var t1, t2 := IsoThursday(z1), IsoThursday(z2);
    YearStartBefore(t1);
    YearStartBefore(t2);
    WeeksFromInjective(t1, t2, YearStart(IsoWeekYear(z1)));
  }

  /** Equal keys mean the same ISO week: the key names the week's Thursday. */
  lemma IsoWeekKeyInjective(z1: int, z2: int)
    requires IsoWeekKey(z1) == IsoWeekKey(z2)
    ensures IsoThursday(z1) == IsoThursday(z2)
  {
    IsoWeekKeyParts(z1, z2);
    IsoYearWeekThursday(z1, z2);
  }

  /** `isWeeklySessionActive`: the same rule as the latest generation. */
  predicate IsWeeklySessionActive(s: Settings, now: int)
  {
    s.weeklyUnblockEnabled && IsSet(s.weeklyUnblockUntil) && now < s.weeklyUnblockUntil.value
  }

  /** `getWeeklySessionWeekKey(now)`. */
  function GetWeeklySessionWeekKey(now: int): string
  {
    IsoWeekKey(DayNumber(now))
  }

  /** `canStartWeeklySession`: enabled, a Monday, and not yet used this ISO week. */
  function CanStartWeeklySession(s: Settings, now: int): (r: bool)
    ensures !s.weeklyUnblockEnabled ==> !r
    ensures Weekday(now) != WEEKLY_UNBLOCK_DAY ==> !r
    ensures s.weeklyUnblockEnabled && Weekday(now) == WEEKLY_UNBLOCK_DAY ==>
      (r <==> s.weeklyUnblockLastWeek != Some(GetWeeklySessionWeekKey(now)))
  {
    if !s.weeklyUnblockEnabled then false
    else if Weekday(now) != WEEKLY_UNBLOCK_DAY then false
    else s.weeklyUnblockLastWeek != Some(IsoWeekKey(DayNumber(now)))
  }

  /** Once a session was recorded at `started`, no session can start again in the
      same ISO week; on the Monday of any other week, one can. */
  lemma AlreadyUsedThisWeek(s: Settings, started: int, now: int)
    requires s.weeklyUnblockLastWeek == Some(GetWeeklySessionWeekKey(started))
    ensures IsoThursday(DayNumber(now)) == IsoThursday(DayNumber(started)) ==> !CanStartWeeklySession(s, now)
    ensures (IsoThursday(DayNumber(now)) != IsoThursday(DayNumber(started)) && s.weeklyUnblockEnabled
             && Weekday(now) == WEEKLY_UNBLOCK_DAY) ==> CanStartWeeklySession(s, now)
  {
    if IsoWeekKey(DayNumber(now)) == IsoWeekKey(DayNumber(started)) {
      IsoWeekKeyInjective(DayNumber(now), DayNumber(started));
    }
  }

  /** `getWeeklySessionDurationMs`: `max(1, floor(minutes))` minutes in milliseconds. */
  function GetWeeklySessionDurationMs(s: Settings): (ms: int)
    ensures ms >= MS_PER_MINUTE && ms % MS_PER_MINUTE == 0
    ensures s.weeklyUnblockDurationMinutes >= 1.0 ==> ms == s.weeklyUnblockDurationMinutes.Floor * MS_PER_MINUTE
    ensures s.weeklyUnblockDurationMinutes < 1.0 ==> ms == MS_PER_MINUTE
  {
    Max(1, s.weeklyUnblockDurationMinutes.Floor) * 60 * 1000
  }
}
