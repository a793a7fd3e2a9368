/** The settings fields `mergeSettings` in `src/infrastructure/storage.ts`
    validates one by one: the weekly-unblock fields and the per-domain tags. */
module StorageFields {
  import opened Base
  import opened Types
  import opened RawInput
  import opened DomainTags
  import DomainBlocking

  // ---------------------------------------------------------------------------
  // weeklyUnblockDays

  /** `Number(day)` when the filter keeps it: an integer from 0 to 6. */
  function KeptWeekday(j: Json): (r: Option<int>)
    ensures r.Some? ==> 0 <= r.value <= 6
  {
    match FiniteNumber(j)
    case Some(x) => if x.Floor as real == x && 0.0 <= x <= 6.0 then Some(x.Floor) else None
    case None => None
  }

  /** The filter keeps exactly the entries whose number is a weekday index. */
  lemma KeptWeekdayExact(j: Json, d: int)
    ensures KeptWeekday(j) == Some(d) <==> FiniteNumber(j) == Some(d as real) && 0 <= d <= 6
  {
  }

  /** `.map((day) => Number(day)).filter(...)`. */
  function KeptWeekdays(xs: seq<Json>): (r: seq<int>)
    ensures forall i :: 0 <= i < |r| ==> 0 <= r[i] <= 6
  {
    if |xs| == 0 then []
    else
      var rest := KeptWeekdays(xs[1..]);
      match KeptWeekday(xs[0])
      case Some(d) => [d] + rest
      case None => rest
  }

  lemma {:induction false} KeptWeekdaysMembers(xs: seq<Json>)
    ensures forall d :: d in KeptWeekdays(xs) <==> exists k :: 0 <= k < |xs| && KeptWeekday(xs[k]) == Some(d)
  {
    if |xs| > 0 {
      KeptWeekdaysMembers(xs[1..]);
      forall d | (exists k :: 0 <= k < |xs| && KeptWeekday(xs[k]) == Some(d))
        ensures d in KeptWeekdays(xs)
      {
        var k :| 0 <= k < |xs| && KeptWeekday(xs[k]) == Some(d);
        if k > 0 {
          assert xs[1..][k - 1] == xs[k];
        }
      }
      forall d | d in KeptWeekdays(xs)
        ensures exists k :: 0 <= k < |xs| && KeptWeekday(xs[k]) == Some(d)
      {
        if KeptWeekday(xs[0]) != Some(d) {
          var k :| 0 <= k < |xs[1..]| && KeptWeekday(xs[1..][k]) == Some(d);
          assert xs[k + 1] == xs[1..][k];
        }
      }
    }
  }

  predicate Ascending(xs: seq<int>)
  {
    forall i, j :: 0 <= i < j < |xs| ==> xs[i] <= xs[j]
  }

  predicate StrictlyAscending(xs: seq<int>)
  {
    forall i, j :: 0 <= i < j < |xs| ==> xs[i] < xs[j]
  }

  function Insert(x: int, ys: seq<int>): seq<int>
  {
    if |ys| == 0 then [x]
    else if x <= ys[0] then [x] + ys
    else [ys[0]] + Insert(x, ys[1..])
  }

  /** `.sort((a, b) => a - b)`. */
  function SortNumbers(xs: seq<int>): seq<int>
  {
    if |xs| == 0 then [] else Insert(xs[0], SortNumbers(xs[1..]))
  }

  lemma {:induction false} InsertMembers(x: int, ys: seq<int>)
    ensures forall z :: z in Insert(x, ys) <==> z == x || z in ys
  {
    if |ys| > 0 && x > ys[0] {
      InsertMembers(x, ys[1..]);
      assert forall z :: z in ys <==> z == ys[0] || z in ys[1..];
    }
  }

  lemma {:induction false} InsertPermutes(x: int, ys: seq<int>)
    ensures multiset(Insert(x, ys)) == multiset(ys) + multiset{x}
  {
    if |ys| > 0 && x > ys[0] {
      InsertPermutes(x, ys[1..]);
      assert ys == [ys[0]] + ys[1..];
    }
  }

  lemma {:induction false} InsertSorted(x: int, ys: seq<int>)
    requires Ascending(ys)
    ensures Ascending(Insert(x, ys))
  {
    if |ys| > 0 && x > ys[0] {
      InsertSorted(x, ys[1..]);
      InsertMembers(x, ys[1..]);
      var r := Insert(x, ys[1..]);
      forall i | 0 <= i < |r|
        ensures ys[0] <= r[i]
      {
        assert r[i] in r;
      }
    }
  }

  /** The comparator sort orders the numbers ascending and keeps each one as
      often as it was given. */
  lemma {:induction false} SortNumbersSorted(xs: seq<int>)
    ensures Ascending(SortNumbers(xs))
    ensures multiset(SortNumbers(xs)) == multiset(xs)
  {
    if |xs| > 0 {
      SortNumbersSorted(xs[1..]);
      InsertSorted(xs[0], SortNumbers(xs[1..]));
      InsertPermutes(xs[0], SortNumbers(xs[1..]));
      assert xs == [xs[0]] + xs[1..];
    }
  }

  lemma SortedDistinctStrict(xs: seq<int>)
    requires Ascending(xs) && Distinct(xs)
    ensures StrictlyAscending(xs)
  {
  }

  lemma {:induction false} DistinctOfMultiset(xs: seq<int>, ys: seq<int>)
    requires multiset(xs) == multiset(ys) && Distinct(ys)
    ensures Distinct(xs)
  {
    forall i, j | 0 <= i < j < |xs|
      ensures xs[i] != xs[j]
    {
      if xs[i] == xs[j] {
        assert xs == xs[..i] + [xs[i]] + xs[i + 1..];
        assert xs[i + 1..] == xs[i + 1..j] + [xs[j]] + xs[j + 1..];
        assert multiset(xs)[xs[i]] >= 2;
        MultiplicityOfDistinct(ys, xs[i]);
      }
    }
  }

  lemma {:induction false} MultiplicityOfDistinct(ys: seq<int>, v: int)
    requires Distinct(ys)
    ensures multiset(ys)[v] <= 1
  {
    if |ys| > 0 {
      assert ys == ys[..|ys| - 1] + [ys[|ys| - 1]];
      assert Distinct(ys[..|ys| - 1]);
      MultiplicityOfDistinct(ys[..|ys| - 1], v);
      if ys[|ys| - 1] == v {
        assert v !in ys[..|ys| - 1];
      }
    }
  }

  lemma {:induction false} SortOfAscending(xs: seq<int>)
    requires Ascending(xs)
    ensures SortNumbers(xs) == xs
  {
    if |xs| > 0 {
      SortOfAscending(xs[1..]);
      assert xs == [xs[0]] + xs[1..];
    }
  }

  /** The stored form of `weeklyUnblockDays`: ascending weekday indexes without repeats. */
  predicate CleanDays(days: seq<int>)
  {
    StrictlyAscending(days) && forall i :: 0 <= i < |days| ==> 0 <= days[i] <= 6
  }

  /** The `weeklyDays` expression of `mergeSettings`: a non-array falls back to
      the default; an array keeps its integer entries from 0 to 6, once each,
      sorted. */
  function WeeklyDays(dflt: Option<seq<int>>, input: Option<seq<Json>>): Option<seq<int>>
  {
    match input
    case None => dflt
    case Some(xs) => Some(SortNumbers(Dedup(KeptWeekdays(xs))))
  }

  /** An array yields the weekday indexes it names, ascending and without repeats. */
  lemma WeeklyDaysClean(dflt: Option<seq<int>>, xs: seq<Json>)
    ensures WeeklyDays(dflt, Some(xs)).Some?
    ensures CleanDays(WeeklyDays(dflt, Some(xs)).value)
    ensures forall d :: d in WeeklyDays(dflt, Some(xs)).value <==>
      exists k :: 0 <= k < |xs| && KeptWeekday(xs[k]) == Some(d)
  {
    var kept := KeptWeekdays(xs);
    var unique := Dedup(kept);
    var r := SortNumbers(unique);
    KeptWeekdaysMembers(xs);
    SortNumbersSorted(unique);
    DistinctOfMultiset(r, unique);
    SortedDistinctStrict(r);
    forall i | 0 <= i < |r|
      ensures 0 <= r[i] <= 6
    {
      assert r[i] in multiset(unique);
      assert r[i] in kept;
    }
    forall d
      ensures d in r <==> d in kept
    {
      assert d in r <==> d in multiset(r);
      assert d in unique <==> d in multiset(unique);
    }
  }

  /** The stored list as JSON numbers. */
  function DayList(days: seq<int>): seq<Json>
  {
    seq(|days|, i requires 0 <= i < |days| => Num(days[i] as real))
  }

  lemma {:induction false} KeptWeekdaysOfClean(days: seq<int>)
    requires forall i :: 0 <= i < |days| ==> 0 <= days[i] <= 6
    ensures KeptWeekdays(DayList(days)) == days
  {
    if |days| > 0 {
      assert DayList(days)[1..] == DayList(days[1..]);
      KeptWeekdaysOfClean(days[1..]);
      assert days == [days[0]] + days[1..];
    }
  }

  /** A clean list read back is itself. */
  lemma WeeklyDaysStable(dflt: Option<seq<int>>, days: seq<int>)
    requires CleanDays(days)
    ensures WeeklyDays(dflt, Some(DayList(days))) == Some(days)
  {
    KeptWeekdaysOfClean(days);
    DedupOfDistinct(days);
    SortOfAscending(days);
  }

  // ---------------------------------------------------------------------------
  // weeklyUnblockDurationMinutes, weeklyUnblockUntil, weeklyUnblockLastWeek

  /** A whole number of minutes, at least one. */
  predicate WholeMinutes(r: real)
  {
    r.Floor as real == r && r >= 1.0
  }

  /** `Math.max(1, Math.floor(x))` for a finite number, else the default. */
  function WeeklyDuration(dflt: real, j: Json): real
  {
    if j.Num? then Max(1, j.r.Floor) as real else dflt
  }

  /** A finite number is rounded down to whole minutes, at least one; anything
      else gives the default; a whole number of minutes is kept as it is. */
  lemma WeeklyDurationWhole(dflt: real, j: Json)
    ensures j.Num? ==> WholeMinutes(WeeklyDuration(dflt, j))
    ensures j.Num? && j.r >= 1.0 ==> WeeklyDuration(dflt, j) <= j.r < WeeklyDuration(dflt, j) + 1.0
    ensures j.Num? && j.r < 1.0 ==> WeeklyDuration(dflt, j) == 1.0
    ensures j.Num? && WholeMinutes(j.r) ==> WeeklyDuration(dflt, j) == j.r
    ensures !j.Num? ==> WeeklyDuration(dflt, j) == dflt
  {
  }

  /** The smallest integer not below `x`. */
  function Ceil(x: real): int
  {
    -((-x).Floor)
  }

  /** `weeklyUntil`: a finite number is kept, anything else is `null`. The model
      keeps timestamps as integers, so a fractional deadline is rounded up. */
  function WeeklyUntil(j: Json): Option<int>
  {
    if j.Num? then Some(Ceil(j.r)) else None
  }

  /** Rounding up changes no comparison with an integer clock, and an integer
      deadline is kept exactly. */
  lemma WeeklyUntilSameDeadline(j: Json, now: int)
    ensures j.Num? <==> WeeklyUntil(j).Some?
    ensures j.Num? ==> (now < WeeklyUntil(j).value <==> (now as real) < j.r)
    ensures j.Num? && j.r.Floor as real == j.r ==> WeeklyUntil(j) == Some(j.r.Floor)
  {
    if j.Num? {
      var c := Ceil(j.r);
      CeilBounds(j.r);
      assert now < c <==> (now as real) < j.r by {
        if now < c {
          assert now <= c - 1;
          assert (now as real) <= (c - 1) as real < j.r;
        }
      }
      if j.r.Floor as real == j.r {
        CeilOfInteger(j.r.Floor);
      }
    }
  }

  /** A whole number rounds up to itself. */
  lemma CeilOfInteger(n: int)
    ensures Ceil(n as real) == n
  {
    assert -(n as real) == (-n) as real;
  }

  /** The integer `Ceil` picks lies in `[x, x + 1)`. */
  lemma CeilBounds(x: real)
    ensures x <= Ceil(x) as real < x + 1.0
  {
    var f := (-x).Floor;
    assert f as real <= -x < f as real + 1.0;
  }

  /** `typeof x === "string" ? x : null`. */
  function WeeklyLastWeek(j: Json): Option<string>
  {
    if j.Str? then Some(j.s) else None
  }

  // ---------------------------------------------------------------------------
  // blockedDomainTags

  /** `String(tag)` when it can spell a tag: a string, or an array of one element
      whose text it is. Every other value prints as a keyword, a number, "" or a
      comma-separated list, none of which is a known tag. */
  function TagText(j: Json): Option<string>
  {
    match j
    case Str(s) => Some(s)
    case List(items) => if |items| == 1 then TagText(items[0]) else None
    case _ => None
  }

  /** `.map((tag) => String(tag)).filter(isDomainTag)`. */
  function KnownTags(items: seq<Json>): (r: seq<string>)
    ensures forall t :: t in r ==> IsDomainTag(t)
  {
    if |items| == 0 then []
    else
      var rest := KnownTags(items[1..]);
      var t := TagText(items[0]);
      if t.Some? && IsDomainTag(t.value) then [t.value] + rest else rest
  }

  lemma {:induction false} KnownTagsMembers(items: seq<Json>)
    ensures forall t :: t in KnownTags(items) <==>
      IsDomainTag(t) && exists k :: 0 <= k < |items| && TagText(items[k]) == Some(t)
  {
    if |items| > 0 {
      KnownTagsMembers(items[1..]);
      forall t | IsDomainTag(t) && exists k :: 0 <= k < |items| && TagText(items[k]) == Some(t)
        ensures t in KnownTags(items)
      {
        var k :| 0 <= k < |items| && TagText(items[k]) == Some(t);
        if k > 0 {
          assert items[1..][k - 1] == items[k];
        }
      }
      forall t | t in KnownTags(items)
        ensures exists k :: 0 <= k < |items| && TagText(items[k]) == Some(t)
      {
        if TagText(items[0]) != Some(t) {
          var k :| 0 <= k < |items[1..]| && TagText(items[1..][k]) == Some(t);
          assert items[k + 1] == items[1..][k];
        }
      }
    }
  }

  /** The tags of one domain entry: `None` when the value is not an array. */
  function DomainTagList(v: Json): Option<seq<string>>
  {
    if v.List? then Some(Dedup(KnownTags(v.items))) else None
  }

  /** The map the loop of `normalizeBlockedDomainTags` builds: each array value
      with at least one known tag sets its domain, later entries over earlier ones. */
  function TagsFold(entries: seq<(string, Json)>): map<string, seq<string>>
  {
    if |entries| == 0 then map[]
    else
      var prev := TagsFold(entries[..|entries| - 1]);
      var last := entries[|entries| - 1];
      var tags := DomainTagList(last.1);
      if tags.Some? && |tags.value| > 0 then prev[last.0 := tags.value] else prev
  }

  /** What `normalizeBlockedDomainTags(input)` returns; `None` is a missing or
      non-object input. */
  function NormalizedTags(input: Option<seq<(string, Json)>>): map<string, seq<string>>
  {
    if input.Some? then TagsFold(input.value) else map[]
  }

  method NormalizeBlockedDomainTags(input: Option<seq<(string, Json)>>) returns (next: map<string, seq<string>>)
    ensures next == NormalizedTags(input)
  {
    next := map[];
    if input.None? {
      return;
    }
    var entries := input.value;
    var k := 0;
    while k < |entries|
      invariant 0 <= k <= |entries|
      invariant next == TagsFold(entries[..k])
    {
      assert entries[..k + 1][..k] == entries[..k];
      var tags := DomainTagList(entries[k].1);
      if tags.Some? && |tags.value| > 0 {
        next := next[entries[k].0 := tags.value];
      }
      k := k + 1;
    }
    assert entries[..k] == entries;
  }

  /** The stored form of the tag map: every list non-empty, known tags only, no repeats. */
  predicate CleanTags(m: map<string, seq<string>>)
  {
    DomainBlocking.TagsNormalized(m) && forall d :: d in m ==> Distinct(m[d])
  }

  lemma {:induction false} TagsFoldClean(entries: seq<(string, Json)>)
    ensures CleanTags(TagsFold(entries))
  {
    if |entries| > 0 {
      TagsFoldClean(entries[..|entries| - 1]);
    }
  }

  /** Normalised tags never hold an empty list, an unknown tag or a repeat. */
  lemma NormalizedTagsClean(input: Option<seq<(string, Json)>>)
    ensures CleanTags(NormalizedTags(input))
  {
    if input.Some? {
      TagsFoldClean(input.value);
    }
  }

  /** The tag list of the last entry for `domain` that has a known tag. */
  function LastTags(entries: seq<(string, Json)>, domain: string): Option<seq<string>>
  {
    if |entries| == 0 then None
    else
      var last := entries[|entries| - 1];
      var tags := DomainTagList(last.1);
      if last.0 == domain && tags.Some? && |tags.value| > 0 then tags
      else LastTags(entries[..|entries| - 1], domain)
  }

  /** A domain is kept exactly when some entry for it has a known tag, with the
      known tags of the last such entry, once each in first-seen order. */
  lemma {:induction false} TagsFoldAt(entries: seq<(string, Json)>, domain: string)
    ensures domain in TagsFold(entries) <==> LastTags(entries, domain).Some?
    ensures domain in TagsFold(entries) ==> TagsFold(entries)[domain] == LastTags(entries, domain).value
  {
    if |entries| > 0 {
      TagsFoldAt(entries[..|entries| - 1], domain);
    }
  }

  /** The tags an array value keeps: exactly the known tags it spells, each once. */
  lemma DomainTagListExact(items: seq<Json>)
    ensures DomainTagList(List(items)).Some?
    ensures Distinct(DomainTagList(List(items)).value)
    ensures forall t :: t in DomainTagList(List(items)).value <==>
      IsDomainTag(t) && exists k :: 0 <= k < |items| && TagText(items[k]) == Some(t)
  {
    KnownTagsMembers(items);
  }

  // ---------------------------------------------------------------------------
  // A normalised map read back

  /** A stored tag list as JSON strings. */
  function TagList(tags: seq<string>): Json
  {
    List(seq(|tags|, i requires 0 <= i < |tags| => Str(tags[i])))
  }

  lemma {:induction false} KnownTagsOfKnown(tags: seq<string>)
    requires forall t :: t in tags ==> IsDomainTag(t)
    ensures KnownTags(TagList(tags).items) == tags
  {
    if |tags| > 0 {
      assert TagList(tags).items[1..] == TagList(tags[1..]).items;
      KnownTagsOfKnown(tags[1..]);
      assert tags == [tags[0]] + tags[1..];
    }
  }

  /** The entries of a tag map, one per domain of `domains`. */
  function TagEntries(m: map<string, seq<string>>, domains: seq<string>): seq<(string, Json)>
    requires forall d :: d in domains ==> d in m
  {
    if |domains| == 0 then []
    else
      var last := domains[|domains| - 1];
      TagEntries(m, domains[..|domains| - 1]) + [(last, TagList(m[last]))]
  }

  lemma {:induction false} TagsFoldOwn(m: map<string, seq<string>>, domains: seq<string>)
    requires CleanTags(m)
    requires forall d :: d in domains ==> d in m
    ensures TagsFold(TagEntries(m, domains)) == map d | d in domains :: m[d]
  {
    if |domains| > 0 {
      var init := domains[..|domains| - 1];
      var last := domains[|domains| - 1];
      var entries := TagEntries(m, domains);
      assert entries[..|entries| - 1] == TagEntries(m, init);
      TagsFoldOwn(m, init);
      KnownTagsOfKnown(m[last]);
      DedupOfDistinct(m[last]);
      assert forall d :: d in domains <==> d in init || d == last;
    }
  }

  /** The domains of a tag map, in some order. */
  ghost function Domains(s: set<string>): (r: seq<string>)
    ensures forall d :: d in r <==> d in s
    decreases |s|
  {
    if s == {} then []
    else
      EmptyOrHas(s);
      var d :| d in s;
      [d] + Domains(s - {d})
  }

  /** `Object.entries` of a tag map. */
  ghost function StoredTags(m: map<string, seq<string>>): seq<(string, Json)>
  {
    TagEntries(m, Domains(m.Keys))
  }

  /** A normalised map read back is itself. */
  lemma NormalizedTagsStable(m: map<string, seq<string>>)
    requires CleanTags(m)
    ensures NormalizedTags(Some(StoredTags(m))) == m
  {
    var ds := Domains(m.Keys);
    TagsFoldOwn(m, ds);
    assert (map d | d in ds :: m[d]) == m;
  }
}
