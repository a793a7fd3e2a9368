/** The local calendar every module reads instants in: an instant is a count of
    milliseconds since the local epoch (1970-01-01 00:00, a Thursday), a day has
    exactly 86 400 000 ms, and dates follow the proleptic Gregorian calendar.
    This is what `new Date(now)` with `getDay()`, `getHours()`, `getMinutes()`,
    `getFullYear()`, `getMonth()` and `getDate()` yields once time zones are set aside. */
module Calendar {
  import opened Base

  const MS_PER_SECOND: int := 1000
  const MS_PER_MINUTE: int := 60000
  const MINUTES_PER_DAY: int := 1440
  const MS_PER_DAY: int := 86400000

  /** Days since the epoch (negative before it); `/` floors since the divisor is positive. */
  function DayNumber(t: int): int
  {
    t / MS_PER_DAY
  }

  /** `getHours() * 60 + getMinutes()`: seconds and milliseconds are dropped. */
  function MinuteOfDay(t: int): (m: int)
    ensures 0 <= m < MINUTES_PER_DAY
    ensures t == DayNumber(t) * MS_PER_DAY + m * MS_PER_MINUTE + t % MS_PER_MINUTE
  {
    (t % MS_PER_DAY) / MS_PER_MINUTE
  }

  /** `getDay()` of a day number: 0 is Sunday; day 0 of the epoch is a Thursday. */
  function WeekdayOfDay(z: int): (w: int)
    ensures 0 <= w < 7
  {
    (z + 4) % 7
  }

  function Weekday(t: int): (w: int)
    ensures 0 <= w < 7
  {
    WeekdayOfDay(DayNumber(t))
  }

  /** The instant of local midnight starting day `z`. */
  function StartOfDay(z: int): (t: int)
    ensures DayNumber(t) == z && MinuteOfDay(t) == 0
  {
    z * MS_PER_DAY
  }

  lemma WeekdayNext(z: int)
    ensures WeekdayOfDay(z + 1) == (WeekdayOfDay(z) + 1) % 7
    ensures WeekdayOfDay(z - 1) == (WeekdayOfDay(z) + 6) % 7
  {
  }

  lemma DayNumberOfStart(z: int, m: int, rest: int)
    requires 0 <= m < MINUTES_PER_DAY && 0 <= rest < MS_PER_MINUTE
    ensures DayNumber(StartOfDay(z) + m * MS_PER_MINUTE + rest) == z
    ensures MinuteOfDay(StartOfDay(z) + m * MS_PER_MINUTE + rest) == m
  {
    var t := StartOfDay(z) + m * MS_PER_MINUTE + rest;
    assert 0 <= m * MS_PER_MINUTE + rest < MS_PER_DAY;
    assert t % MS_PER_DAY == m * MS_PER_MINUTE + rest;
  }

  // ---------------------------------------------------------------------------
  // Civil dates

  /** A calendar date: `month` is 1..12 and `day` 1..31 as `getMonth() + 1` and `getDate()` give them. */
  datatype Date = Date(year: int, month: int, day: int)

  /** Day number of 1 March of year `y`: years are counted from March so that the
      leap day is the last day of a year; an era is 400 years of 146 097 days. */
  function MarchYearStart(y: int): int
  {
    var era := y / 400;
    var yoe := y % 400;
    era * 146097 + 365 * yoe + yoe / 4 - yoe / 100 - 719468
  }

  /** Day offset from 1 March of the start of month `mp` (0 = March ... 11 = February). */
  function MonthStart(mp: int): int
  {
    (153 * mp + 2) / 5
  }

  /** A March-based year of the Gregorian calendar has 365 or 366 days. */
  lemma MarchYearLength(y: int)
    ensures 365 <= MarchYearStart(y + 1) - MarchYearStart(y) <= 366
  {
    var yoe := y % 400;
    if yoe == 399 {
      assert (y + 1) / 400 == y / 400 + 1 && (y + 1) % 400 == 0;
    } else {
      assert (y + 1) / 400 == y / 400 && (y + 1) % 400 == yoe + 1;
      if (yoe + 1) % 100 == 0 {
        assert (yoe + 1) % 4 == 0;
      }
    }
  }

  /** Splits a day number into its March-based year and the day of that year. */
  function MarchYearOf(z: int): (r: (int, int))
    ensures 0 <= r.1 <= 365
    ensures z == MarchYearStart(r.0) + r.1
  {
    var zp := z + 719468;
    var era := zp / 146097;
    var doe := zp % 146097;
    var c := Min(doe / 36524, 3);
    var r1 := doe - 36524 * c;
    var q := r1 / 1461;
    var r2 := r1 % 1461;
    var yy := Min(r2 / 365, 3);
    var doy := r2 - 365 * yy;
    var yoe := 100 * c + 4 * q + yy;
    assert 0 <= q <= 24;
    assert 0 <= yoe < 400;
    var y := 400 * era + yoe;
    assert y / 400 == era && y % 400 == yoe;
    assert yoe / 4 == 25 * c + q;
    assert yoe / 100 == c;
    (y, doy)
  }

  lemma MonthOfDayOfYear(doy: int)
    requires 0 <= doy <= 365
    ensures var mp := (5 * doy + 2) / 153;
      0 <= mp <= 11 && MonthStart(mp) <= doy < MonthStart(mp + 1) && doy - MonthStart(mp) < 31
      && (mp <= 9 <==> doy < MonthStart(10))
  {
    var mp := (5 * doy + 2) / 153;
    assert 153 * mp <= 5 * doy + 2 < 153 * mp + 153;
    assert MonthStart(10) == 306;
    if mp == 0 { } else if mp == 1 { } else if mp == 2 { } else if mp == 3 { }
    else if mp == 4 { } else if mp == 5 { } else if mp == 6 { } else if mp == 7 { }
    else if mp == 8 { } else if mp == 9 { } else if mp == 10 { } else { assert mp == 11; }
  }

  /** The local date of day number `z` (`getFullYear`, `getMonth() + 1`, `getDate`). */
  function CivilFromDays(z: int): (r: Date)
    ensures 1 <= r.month <= 12 && 1 <= r.day <= 31
  {
    var (y, doy) := MarchYearOf(z);
    MonthOfDayOfYear(doy);
    var mp := (5 * doy + 2) / 153;
    var d := doy - MonthStart(mp) + 1;
    var m := if mp < 10 then mp + 3 else mp - 9;
    Date(if m <= 2 then y + 1 else y, m, d)
  }

  /** `Date.UTC(year, month - 1, day)` in days: the inverse of `CivilFromDays`. */
  function DaysFromCivil(dt: Date): int
  {
    var y := if dt.month <= 2 then dt.year - 1 else dt.year;
    var mp := if dt.month > 2 then dt.month - 3 else dt.month + 9;
    MarchYearStart(y) + MonthStart(mp) + dt.day - 1
  }

  /** Every day number is recovered from its date. */
  lemma CivilRoundTrip(z: int)
    ensures DaysFromCivil(CivilFromDays(z)) == z
  {
  }

  /** Day number of 1 January of year `y`. */
  function YearStart(y: int): int
  {
    DaysFromCivil(Date(y, 1, 1))
  }

  /** The calendar year of a day, read off its March-based year and day of year. */
  lemma CivilYear(z: int)
    ensures var r := MarchYearOf(z);
      CivilFromDays(z).year == if r.1 < 306 then r.0 else r.0 + 1
  {
    var r := MarchYearOf(z);
    MonthOfDayOfYear(r.1);
  }

  lemma YearStartMarch(y: int)
    ensures YearStart(y) == MarchYearStart(y - 1) + 306
  {
  }

  /** A day lies in the calendar year of its date ... */
  lemma YearStartBefore(z: int)
    ensures YearStart(CivilFromDays(z).year) <= z
  {
    var year := CivilFromDays(z).year;
    CivilYear(z);
    YearStartMarch(year);
    MarchYearLength(year - 1);
  }

  /** ... and before the start of the next one. */
  lemma NextYearStartAfter(z: int)
    ensures z < YearStart(CivilFromDays(z).year + 1)
  {
    var year := CivilFromDays(z).year;
    CivilYear(z);
    YearStartMarch(year + 1);
    MarchYearLength(year - 1);
  }

  /** A calendar year has 365 or 366 days. */
  lemma YearLength(y: int)
    ensures 365 <= YearStart(y + 1) - YearStart(y) <= 366
  {
    YearStartMarch(y);
    YearStartMarch(y + 1);
    MarchYearLength(y - 1);
  }

  // ---------------------------------------------------------------------------
  // Local day keys

  /** `${getFullYear()}-${pad2(getMonth() + 1)}-${pad2(getDate())}`. */
  function DateKey(dt: Date): (key: string)
    requires 1 <= dt.month <= 12 && 1 <= dt.day <= 31
    ensures |key| >= 7 && key[|key| - 6] == '-' && key[|key| - 3] == '-'
  {
    IntToString(dt.year) + "-" + Pad2(dt.month) + "-" + Pad2(dt.day)
  }

  lemma DateKeyInjective(a: Date, b: Date)
    requires 1 <= a.month <= 12 && 1 <= a.day <= 31
    requires 1 <= b.month <= 12 && 1 <= b.day <= 31
    requires DateKey(a) == DateKey(b)
    ensures a == b
  {
    var ka, kb := DateKey(a), DateKey(b);
    var n := |ka|;
    assert ka[..n - 6] == IntToString(a.year);
    assert kb[..n - 6] == IntToString(b.year);
    IntToStringInjective(a.year, b.year);
    assert ka[n - 5..n - 3] == Pad2(a.month) && kb[n - 5..n - 3] == Pad2(b.month);
    Pad2Injective(a.month, b.month);
    assert ka[n - 2..] == Pad2(a.day) && kb[n - 2..] == Pad2(b.day);
    Pad2Injective(a.day, b.day);
  }

  /** The key of the local day holding instant `t`. */
  function LocalDayKey(t: int): string
  {
    DateKey(CivilFromDays(DayNumber(t)))
  }

  /** Two instants share a day key exactly when they fall on the same local day. */
  lemma LocalDayKeySameDay(t1: int, t2: int)
    ensures LocalDayKey(t1) == LocalDayKey(t2) <==> DayNumber(t1) == DayNumber(t2)
  {
    if LocalDayKey(t1) == LocalDayKey(t2) {
      DateKeyInjective(CivilFromDays(DayNumber(t1)), CivilFromDays(DayNumber(t2)));
      CivilRoundTrip(DayNumber(t1));
      CivilRoundTrip(DayNumber(t2));
    }
  }
}
