/** What the settings merges read: stored JSON whose shape is not trusted, and the
    `for (const [dayKey, ranges] of Object.entries(input))` loop that rebuilds a
    per-weekday record from it, shared by `src/infrastructure/storage.ts`,
    `src/shared/storage.ts` and `src/core/defaults.ts`. */
module RawInput {
  import opened Base

  /** A stored JSON value as the merges see it. `Num` is a finite number;
      `Composite` is an object that is not an array. */
  datatype Json =
    | Undefined
    | Null
    | Bool(b: bool)
    | Num(r: real)
    | NaN
    | Infinite(negative: bool)
    | Str(s: string)
    | List(items: seq<Json>)
    | Composite

  /** `Boolean(j)`. */
  predicate Truthy(j: Json)
  {
    match j
    case Undefined => false
    case Null => false
    case Bool(b) => b
    case Num(r) => r != 0.0
    case NaN => false
    case Infinite(_) => true
    case Str(s) => s != ""
    case List(_) => true
    case Composite => true
  }

  /** `Number(j)` when that is a finite number (`None` for NaN and the two
      infinities). Strings are read as optionally negative decimal integers. */
  function FiniteNumber(j: Json): (r: Option<real>)
    ensures j.Num? ==> r == Some(j.r)
    ensures j.Str? && AllDigits(j.s) ==> r == Some(DigitsValue(j.s) as real)
  {
    match j
    case Undefined => None
    case Null => Some(0.0)
    case Bool(b) => Some(if b then 1.0 else 0.0)
    case Num(r) => Some(r)
    case NaN => None
    case Infinite(_) => None
    case Str(s) => (match JsNumber(s) case Some(n) => Some(n as real) case None => None)
    case List(_) => None
    case Composite => None
  }

  // ---------------------------------------------------------------------------
  // Per-weekday records

  /** The value stored under a day key: an array of items, or anything else. */
  datatype RawDay<T> = NotArray | Items(items: seq<T>)

  /** `Object.entries(record)`, in the order the loop visits them. */
  type RawWeek<T> = seq<(string, RawDay<T>)>

  /** The day an entry names and its items: `None` when `Number(dayKey)` is NaN or
      the value is not an array, the two cases the loop skips. */
  function DayOf<T>(entry: (string, RawDay<T>)): Option<(int, seq<T>)>
  {
    match (JsNumber(entry.0), entry.1)
    case (Some(d), Items(items)) => Some((d, items))
    case _ => None
  }

  /** `ranges.map((range, idx) => f(day, idx, range))`. */
  function MapIndexed<T, U>(day: int, items: seq<T>, f: (int, int, T) -> U): (r: seq<U>)
    ensures |r| == |items| && forall i :: 0 <= i < |items| ==> r[i] == f(day, i, items[i])
  {
    seq(|items|, i requires 0 <= i < |items| => f(day, i, items[i]))
  }

  /** The record the loop leaves: `base`, with each entry the loop does not skip
      writing its day, later entries over earlier ones. */
  function Fill<T, U>(base: map<int, seq<U>>, entries: RawWeek<T>, f: (int, int, T) -> U): map<int, seq<U>>
  {
    if |entries| == 0 then base
    else
      var prev := Fill(base, entries[..|entries| - 1], f);
      match DayOf(entries[|entries| - 1])
      case Some((d, items)) => prev[d := MapIndexed(d, items, f)]
      case None => prev
  }

  /** The items of the last entry that names `day` and is not skipped. */
  function LastFor<T>(entries: RawWeek<T>, day: int): Option<seq<T>>
  {
    if |entries| == 0 then None
    else
      var last := DayOf(entries[|entries| - 1]);
      if last.Some? && last.value.0 == day then Some(last.value.1)
      else LastFor(entries[..|entries| - 1], day)
  }

  /** After the loop a day holds the mapped items of the last entry naming it, or
      its base value when no entry names it. */
  lemma {:induction false} FillAt<T, U>(base: map<int, seq<U>>, entries: RawWeek<T>, f: (int, int, T) -> U, day: int)
    ensures day in Fill(base, entries, f) <==> day in base || LastFor(entries, day).Some?
    ensures LastFor(entries, day).Some? ==>
      Fill(base, entries, f)[day] == MapIndexed(day, LastFor(entries, day).value, f)
    ensures LastFor(entries, day).None? && day in base ==> Fill(base, entries, f)[day] == base[day]
  {
    if |entries| > 0 {
      FillAt(base, entries[..|entries| - 1], f, day);
    }
  }

  /** `LastFor` finds an entry naming the day exactly when there is one, and no
      later entry names it. */
  lemma {:induction false} LastForFound<T>(entries: RawWeek<T>, day: int)
    ensures LastFor(entries, day).Some? <==>
      exists k :: 0 <= k < |entries| && DayOf(entries[k]).Some? && DayOf(entries[k]).value.0 == day
    ensures LastFor(entries, day).Some? ==>
      exists k :: 0 <= k < |entries| && DayOf(entries[k]) == Some((day, LastFor(entries, day).value))
        && forall j :: k < j < |entries| ==> DayOf(entries[j]).None? || DayOf(entries[j]).value.0 != day
  {
    if |entries| > 0 {
      var init := entries[..|entries| - 1];
      LastForFound(init, day);
      var last := DayOf(entries[|entries| - 1]);
      if !(last.Some? && last.value.0 == day) {
        if exists k :: 0 <= k < |entries| && DayOf(entries[k]).Some? && DayOf(entries[k]).value.0 == day {
          var k :| 0 <= k < |entries| && DayOf(entries[k]).Some? && DayOf(entries[k]).value.0 == day;
          assert entries[k] == init[k];
        }
        if LastFor(entries, day).Some? {
          var k :| 0 <= k < |init| && DayOf(init[k]) == Some((day, LastFor(init, day).value))
            && forall j :: k < j < |init| ==> DayOf(init[j]).None? || DayOf(init[j]).value.0 != day;
          assert entries[k] == init[k];
          forall j | k < j < |entries|
            ensures DayOf(entries[j]).None? || DayOf(entries[j]).value.0 != day
          {
            if j < |init| {
              assert entries[j] == init[j];
            }
          }
        }
      }
    }
  }

  /** The `for` loop over `Object.entries(input)` writing into `next`. */
  method FillDays<T, U>(base: map<int, seq<U>>, entries: RawWeek<T>, f: (int, int, T) -> U)
    returns (next: map<int, seq<U>>)
    ensures next == Fill(base, entries, f)
  {
    next := base;
    var k := 0;
    while k < |entries|
      invariant 0 <= k <= |entries|
      invariant next == Fill(base, entries[..k], f)
    {
      assert entries[..k + 1][..k] == entries[..k];
      match DayOf(entries[k]) {
        case Some((d, items)) =>
          next := next[d := MapIndexed(d, items, f)];
        case None =>
      }
      k := k + 1;
    }
    assert entries[..k] == entries;
  }

  // ---------------------------------------------------------------------------
  // A typed record read back as entries

  /** The smallest day of a non-empty set of days. */
  function Least(s: set<int>): (m: int)
    requires s != {}
    ensures m in s && forall x :: x in s ==> m <= x
  {
    LeastExists(s);
    var m :| m in s && forall x :: x in s ==> m <= x;
    m
  }

  lemma EmptyOrHas<T>(s: set<T>)
    ensures s == {} || exists y :: y in s
  {
    if forall y :: y !in s {
      assert s == {};
    }
  }

  lemma HasMember(s: set<int>)
    ensures s == {} || exists y :: y in s
  {
    if forall y :: y !in s {
      assert s == {};
    }
  }

  lemma LeastExists(s: set<int>)
    requires s != {}
    ensures exists m :: m in s && forall x :: x in s ==> m <= x
    decreases |s|
  {
    HasMember(s);
    var y :| y in s;
    if s != {y} {
      var rest := s - {y};
      LeastExists(rest);
      var m :| m in rest && forall x :: x in rest ==> m <= x;
      var least := if y < m then y else m;
      forall x | x in s
        ensures least <= x
      {
        if x != y {
          assert x in rest;
        }
      }
    } else {
      forall x | x in s
        ensures y <= x
      {
        assert x in {y};
      }
    }
  }

  /** The days of a record in ascending order, the order `Object.entries` lists
      integer keys in. */
  function AscendingDays(s: set<int>): (r: seq<int>)
    ensures forall x :: x in r <==> x in s
    ensures forall i, j :: 0 <= i < j < |r| ==> r[i] < r[j]
    decreases |s|
  {
    if s == {} then []
    else
      var m := Least(s);
      var rest := AscendingDays(s - {m});
      assert forall i :: 0 <= i < |rest| ==> m < rest[i] by {
        forall i | 0 <= i < |rest|
          ensures m < rest[i]
        {
          assert rest[i] in s - {m};
        }
      }
      [m] + rest
  }

  /** `Object.entries` of a typed per-weekday record, each item read back through `raw`. */
  function WeekEntries<T, R>(week: map<int, seq<T>>, raw: T -> R): (r: RawWeek<R>)
    ensures |r| == |AscendingDays(week.Keys)|
  {
    var days := AscendingDays(week.Keys);
    seq(|days|, i requires 0 <= i < |days| => (IntToString(days[i]), Items(MapRaw(week[days[i]], raw))))
  }

  function MapRaw<T, R>(items: seq<T>, raw: T -> R): (r: seq<R>)
    ensures |r| == |items| && forall i :: 0 <= i < |items| ==> r[i] == raw(items[i])
  {
    seq(|items|, i requires 0 <= i < |items| => raw(items[i]))
  }

  /** Each day of a typed record is named by exactly its own entry. */
  lemma WeekEntriesLast<T, R>(week: map<int, seq<T>>, raw: T -> R, day: int)
    ensures LastFor(WeekEntries(week, raw), day) == if day in week then Some(MapRaw(week[day], raw)) else None
  {
    var entries := WeekEntries(week, raw);
    var days := AscendingDays(week.Keys);
    forall k | 0 <= k < |entries|
      ensures DayOf(entries[k]) == Some((days[k], MapRaw(week[days[k]], raw)))
    {
      JsNumberOfIntString(days[k]);
    }
    forall k | 0 <= k < |entries| && DayOf(entries[k]).Some? && DayOf(entries[k]).value.0 == day
      ensures day in week
    {
      assert days[k] in week;
    }
    LastForFound(entries, day);
    if day in week {
      var k :| 0 <= k < |days| && days[k] == day;
      assert DayOf(entries[k]).value.0 == day;
      var j :| 0 <= j < |entries| && DayOf(entries[j]) == Some((day, LastFor(entries, day).value))
        && forall i :: j < i < |entries| ==> DayOf(entries[i]).None? || DayOf(entries[i]).value.0 != day;
      assert days[j] == day;
    }
  }

  /** Re-running the loop over a typed record's own entries: every day of the
      record is rewritten from its own items, the other days keep their base value. */
  lemma FillOwnEntries<T, R, U>(base: map<int, seq<U>>, week: map<int, seq<T>>, raw: T -> R,
                               f: (int, int, R) -> U, day: int)
    ensures day in Fill(base, WeekEntries(week, raw), f) <==> day in base || day in week
    ensures day in week ==> Fill(base, WeekEntries(week, raw), f)[day] == MapIndexed(day, MapRaw(week[day], raw), f)
    ensures day !in week && day in base ==> Fill(base, WeekEntries(week, raw), f)[day] == base[day]
  {
    WeekEntriesLast(week, raw, day);
    FillAt(base, WeekEntries(week, raw), f, day);
  }

  /** Every item of every day of a per-weekday record satisfies `P`. */
  predicate AllItems<U>(week: map<int, seq<U>>, P: U -> bool)
  {
    forall d, i :: d in week && 0 <= i < |week[d]| ==> P(week[d][i])
  }

  /** When the base items and every item `f` makes satisfy `P`, so does every
      item the loop leaves. */
  lemma {:induction false} FillKeeps<T, U>(base: map<int, seq<U>>, entries: RawWeek<T>, f: (int, int, T) -> U, P: U -> bool)
    requires AllItems(base, P)
    requires forall d, i, x :: P(f(d, i, x))
    ensures AllItems(Fill(base, entries, f), P)
  {
    if |entries| > 0 {
      FillKeeps(base, entries[..|entries| - 1], f, P);
    }
  }

  /** The loop never drops a base day. */
  lemma BaseDaysKept<T, U>(base: map<int, seq<U>>, entries: RawWeek<T>, f: (int, int, T) -> U)
    ensures base.Keys <= Fill(base, entries, f).Keys
  {
    forall d | d in base
      ensures d in Fill(base, entries, f)
    {
      FillAt(base, entries, f, d);
    }
  }

  /** Items that survive being read back, read back as a whole day. */
  lemma MapIndexedOwn<R, U>(day: int, items: seq<U>, raw: U -> R, f: (int, int, R) -> U)
    requires forall i :: 0 <= i < |items| ==> f(day, i, raw(items[i])) == items[i]
    ensures MapIndexed(day, MapRaw(items, raw), f) == items
  {
  }

  lemma RefillDay<R, U>(base: map<int, seq<U>>, week: map<int, seq<U>>, raw: U -> R, f: (int, int, R) -> U, d: int)
    requires base.Keys <= week.Keys
    requires d in week ==> forall i :: 0 <= i < |week[d]| ==> f(d, i, raw(week[d][i])) == week[d][i]
    ensures d in Fill(base, WeekEntries(week, raw), f) <==> d in week
    ensures d in week ==> Fill(base, WeekEntries(week, raw), f)[d] == week[d]
  {
    FillOwnEntries(base, week, raw, f, d);
    if d in week {
      MapIndexedOwn(d, week[d], raw, f);
    }
  }

  lemma SameMaps<U>(a: map<int, seq<U>>, b: map<int, seq<U>>)
    requires forall d :: d in a <==> d in b
    requires forall d :: d in a ==> a[d] == b[d]
    ensures a == b
  {
    assert forall d :: d in a.Keys <==> d in b.Keys;
    assert a.Keys == b.Keys;
    assert forall d :: d in a.Keys ==> a[d] == b[d];
  }

  /** Reading a record back through the loop gives the record again, when it
      holds every base day and each item survives being read back. */
  lemma RefillOwn<R, U>(base: map<int, seq<U>>, week: map<int, seq<U>>, raw: U -> R, f: (int, int, R) -> U)
    requires base.Keys <= week.Keys
    requires forall d, i :: d in week && 0 <= i < |week[d]| ==> f(d, i, raw(week[d][i])) == week[d][i]
    ensures Fill(base, WeekEntries(week, raw), f) == week
  {
    var r := Fill(base, WeekEntries(week, raw), f);
    forall d
      ensures d in r <==> d in week
      ensures d in r ==> r[d] == week[d]
    {
      RefillDay(base, week, raw, f, d);
    }
    SameMaps(r, week);
  }
}
