/** Usage tracking in the background worker (`src/background/metrics.ts`): the
    cached metrics record is updated in place, and every change is also queued
    as an event plus a per-day delta for the database, until `flushDb` drains
    both queues. */
module BackgroundMetrics {
  import opened Base
  import opened Types
  import Calendar
  import opened BackgroundState

  /** A session ends after this long without eligible activity. */
  const SESSION_IDLE_MS: int := 60000
  /** A repeated attempt on the same URL within this window is not counted. */
  const ATTEMPT_COOLDOWN_MS: int := 5000

  datatype EventKind = AttemptEvent | TimeEvent | BlockedTimeEvent | SessionStartEvent

  /** A queued database event (its `id` is assigned by the database). */
  datatype DbEvent = DbEvent(
    ts: int,
    day: string,
    kind: EventKind,
    domain: Option<string>,
    url: Option<string>,
    deltaSec: Option<int>,
    tabId: Option<int>)

  /** A pending per-day aggregate; absent fields count as zero. */
  datatype DailyDelta = DailyDelta(
    attempts: Option<int>,
    time: Option<int>,
    blockedTime: Option<int>,
    sessions: Option<int>,
    timeByDomain: Option<map<string, int>>,
    updatedAt: Option<int>)

  /** `{}`. */
  const NO_DELTA: DailyDelta := DailyDelta(None, None, None, None, None, None)

  /** `getDayKey(t)`, that is `new Date(t).toISOString().slice(0, 10)`, in
      the model's zone-free calendar: the value is `Calendar.LocalDayKey(t)`
      (`DayKeyIsLocal`). The detour through `DayKeyAfter` stands for nothing in the
      source; it only keeps the verifier from unfolding the calendar wherever a key
      is merely compared (the dashboard's window lemmas run out of resource with
      the key defined directly). */
  function DayKey(t: int): string
  {
    DayKeyAfter(t, [t, t])
  }

  /** `Calendar.LocalDayKey(t)`, reached after one step per element of `delay`, each
      changing nothing: a device for the verifier, see `DayKey`. */
  function DayKeyAfter(t: int, delay: seq<int>): string
    decreases |delay|
  {
    if |delay| == 0 then Calendar.LocalDayKey(t) else DayKeyAfter(t, delay[1..])
  }

  /** The key is the `YYYY-MM-DD` date of the instant. */
  lemma DayKeyIsLocal(t: int)
    ensures DayKey(t) == Calendar.LocalDayKey(t)
  {
    assert [t, t][1..] == [t] && [t][1..] == [];
    assert DayKeyAfter(t, [t, t]) == DayKeyAfter(t, [t]) == DayKeyAfter(t, []) == Calendar.LocalDayKey(t);
  }

  /** Two instants share a key exactly when they fall on the same day. */
  lemma DayKeySameDay(t1: int, t2: int)
    ensures DayKey(t1) == DayKey(t2) <==> Calendar.DayNumber(t1) == Calendar.DayNumber(t2)
  {
    DayKeyIsLocal(t1);
    DayKeyIsLocal(t2);
    Calendar.LocalDayKeySameDay(t1, t2);
  }

  /** `v || 0`. */
  function OrZero(v: Option<int>): int
  {
    if v.Some? then v.value else 0
  }

  /** `v || {}`. */
  function OrEmpty(v: Option<map<string, int>>): map<string, int>
  {
    if v.Some? then v.value else map[]
  }

  /** Per-key sums of two counter records. */
  function AddCounts(a: map<string, int>, b: map<string, int>): map<string, int>
  {
    map k | k in a.Keys + b.Keys :: Count(a, k) + Count(b, k)
  }

  /** A key of the sum is a key of either record, and its count is the sum of the two. */
  lemma AddCountsAt(a: map<string, int>, b: map<string, int>, k: string)
    ensures k in AddCounts(a, b) <==> k in a || k in b
    ensures Count(AddCounts(a, b), k) == Count(a, k) + Count(b, k)
  {
  }

  /** `merged.timeByDomain`: set only when some domain has seconds. */
  function DomainsField(byDomain: map<string, int>): Option<map<string, int>>
  {
    if |byDomain| > 0 then Some(byDomain) else None
  }

  /** The `merged` record of `mergeDailyDelta`, given the per-domain seconds. */
  function MergedWith(current: DailyDelta, delta: DailyDelta, byDomain: map<string, int>): DailyDelta
  {
    DailyDelta(
      attempts := Some(OrZero(current.attempts) + OrZero(delta.attempts)),
      time := Some(OrZero(current.time) + OrZero(delta.time)),
      blockedTime := Some(OrZero(current.blockedTime) + OrZero(delta.blockedTime)),
      sessions := Some(OrZero(current.sessions) + OrZero(delta.sessions)),
      timeByDomain := DomainsField(byDomain),
      updatedAt := if delta.updatedAt.Some? && delta.updatedAt.value != 0 then delta.updatedAt else current.updatedAt)
  }

  /** The aggregate `mergeDailyDelta` stores for a day already holding `current`. */
  function MergedDelta(current: DailyDelta, delta: DailyDelta): DailyDelta
  {
    MergedWith(current, delta, AddCounts(OrEmpty(current.timeByDomain), OrEmpty(delta.timeByDomain)))
  }

  /** `pendingDailyDeltas.get(day) || {}`. */
  function DeltaOf(deltas: map<string, DailyDelta>, day: string): DailyDelta
  {
    if day in deltas then deltas[day] else NO_DELTA
  }

  /** The queue after `mergeDailyDelta(day, delta)`. */
  function WithDelta(deltas: map<string, DailyDelta>, day: string, delta: DailyDelta): map<string, DailyDelta>
  {
    deltas[day := MergedDelta(DeltaOf(deltas, day), delta)]
  }

  lemma EmptyOrHasKey(m: map<string, int>)
    ensures |m| == 0 || exists k :: k in m
  {
    if forall k :: k !in m {
      assert m.Keys == {};
    }
  }

  /** Reading back the recorded per-domain seconds gives the full sum. */
  lemma DomainsFieldRead(byDomain: map<string, int>)
    ensures OrEmpty(DomainsField(byDomain)) == byDomain
  {
    if |byDomain| == 0 {
      assert byDomain.Keys == {};
    }
  }

  /** Each counter of the merged aggregate is the sum of the two, missing ones
      read as zero; per-domain seconds add up pointwise and are recorded only
      when some domain has any; the delta's non-zero timestamp wins. */
  lemma MergedDeltaSums(current: DailyDelta, delta: DailyDelta, domain: string)
    ensures var r := MergedDelta(current, delta);
      OrZero(r.attempts) == OrZero(current.attempts) + OrZero(delta.attempts)
      && OrZero(r.time) == OrZero(current.time) + OrZero(delta.time)
      && OrZero(r.blockedTime) == OrZero(current.blockedTime) + OrZero(delta.blockedTime)
      && OrZero(r.sessions) == OrZero(current.sessions) + OrZero(delta.sessions)
      && Count(OrEmpty(r.timeByDomain), domain)
         == Count(OrEmpty(current.timeByDomain), domain) + Count(OrEmpty(delta.timeByDomain), domain)
      && (r.timeByDomain.None? <==> |OrEmpty(current.timeByDomain)| == 0 && |OrEmpty(delta.timeByDomain)| == 0)
      && r.updatedAt == (if delta.updatedAt.Some? && delta.updatedAt.value != 0 then delta.updatedAt else current.updatedAt)
  {
    var a, b := OrEmpty(current.timeByDomain), OrEmpty(delta.timeByDomain);
    var byDomain := AddCounts(a, b);
    DomainsFieldRead(byDomain);
    AddCountsAt(a, b, domain);
    if |a| > 0 {
      EmptyOrHasKey(a);
      var k :| k in a;
      AddCountsAt(a, b, k);
    }
    if |b| > 0 {
      EmptyOrHasKey(b);
      var k :| k in b;
      AddCountsAt(a, b, k);
    }
  }

  /** Adding nothing changes no count. */
  lemma AddNothing(a: map<string, int>)
    ensures AddCounts(a, map[]) == a
  {
    forall k
      ensures k in a <==> k in AddCounts(a, map[])
      ensures Count(a, k) == Count(AddCounts(a, map[]), k)
    {
      AddCountsAt(a, map[], k);
    }
    assert forall k :: k in a ==> a[k] == Count(a, k);
  }

  /** Adding two records to a third in either order gives the same sums. */
  lemma AddCountsSwap(c: map<string, int>, x: map<string, int>, y: map<string, int>)
    ensures AddCounts(AddCounts(c, x), y) == AddCounts(AddCounts(c, y), x)
  {
    var p, q := AddCounts(AddCounts(c, x), y), AddCounts(AddCounts(c, y), x);
    forall k
      ensures k in p <==> k in q
      ensures Count(p, k) == Count(q, k)
    {
      AddCountsAt(c, x, k);
      AddCountsAt(c, y, k);
      AddCountsAt(AddCounts(c, x), y, k);
      AddCountsAt(AddCounts(c, y), x, k);
    }
    assert forall k :: k in p ==> p[k] == Count(p, k);
    assert forall k :: k in q ==> q[k] == Count(q, k);
  }

  /** Pending aggregates do not depend on the order in which deltas arrive:
      merging two deltas either way gives the same counters and per-domain
      seconds. */
  lemma MergedDeltaOrderFree(current: DailyDelta, d1: DailyDelta, d2: DailyDelta)
    ensures var a, b := MergedDelta(MergedDelta(current, d1), d2), MergedDelta(MergedDelta(current, d2), d1);
      a.attempts == b.attempts && a.time == b.time && a.blockedTime == b.blockedTime
      && a.sessions == b.sessions && a.timeByDomain == b.timeByDomain
  {
    var c, x, y := OrEmpty(current.timeByDomain), OrEmpty(d1.timeByDomain), OrEmpty(d2.timeByDomain);
    DomainsFieldRead(AddCounts(c, x));
    DomainsFieldRead(AddCounts(c, y));
    AddCountsSwap(c, x, y);
  }

  // ---------------------------------------------------------------------------
  // The metrics record

  /** The per-domain seconds recorded for a day. */
  function DomainsOn(m: Metrics, day: string): map<string, int>
  {
    if day in m.timeByDomainByDay then m.timeByDomainByDay[day] else map[]
  }

  /** `startSession`'s change to the metrics. */
  function SessionCounted(m: Metrics, now: int): Metrics
  {
    var key := DayKey(now);
    m.(sessionsByDay := m.sessionsByDay[key := Count(m.sessionsByDay, key) + 1], lastUpdatedAt := Some(now))
  }

  /** `addTime`'s change to the metrics. */
  function TimeCounted(m: Metrics, domain: string, sec: int, now: int): Metrics
  {
    var key := DayKey(now);
    var dayDomains := DomainsOn(m, key);
    m.(timeByDay := m.timeByDay[key := Count(m.timeByDay, key) + sec],
       timeByDomainByDay := m.timeByDomainByDay[key := dayDomains[domain := Count(dayDomains, domain) + sec]],
       lastUpdatedAt := Some(now))
  }

  /** `addBlockedTime`'s change to the metrics. */
  function BlockedTimeCounted(m: Metrics, sec: int, now: int): Metrics
  {
    var key := DayKey(now);
    m.(blockedTimeByDay := m.blockedTimeByDay[key := Count(m.blockedTimeByDay, key) + sec], lastUpdatedAt := Some(now))
  }

  /** `addAttempt`'s change to the metrics. */
  function AttemptCounted(m: Metrics, now: int): Metrics
  {
    var key := DayKey(now);
    m.(attemptsByDay := m.attemptsByDay[key := Count(m.attemptsByDay, key) + 1],
       lastAttemptAt := Some(now), lastUpdatedAt := Some(now))
  }

  /** A session start adds exactly one session to the day of `now` and changes
      no other counter. */
  lemma SessionCountedDay(m: Metrics, now: int, day: string)
    ensures var r := SessionCounted(m, now);
      Count(r.sessionsByDay, day) == Count(m.sessionsByDay, day) + (if day == DayKey(now) then 1 else 0)
      && (day in r.sessionsByDay <==> day in m.sessionsByDay || day == DayKey(now))
      && r == m.(sessionsByDay := r.sessionsByDay, lastUpdatedAt := Some(now))
  {
  }

  /** Tracked time goes to the day's total and to the domain's share of that
      day, and nowhere else. */
  lemma TimeCountedDay(m: Metrics, domain: string, sec: int, now: int, day: string, d: string)
    ensures var r := TimeCounted(m, domain, sec, now);
      Count(r.timeByDay, day) == Count(m.timeByDay, day) + (if day == DayKey(now) then sec else 0)
      && (day in r.timeByDay <==> day in m.timeByDay || day == DayKey(now))
      && Count(DomainsOn(r, day), d) == Count(DomainsOn(m, day), d) + (if day == DayKey(now) && d == domain then sec else 0)
      && (d in DomainsOn(r, day) <==> d in DomainsOn(m, day) || (day == DayKey(now) && d == domain))
      && r == m.(timeByDay := r.timeByDay, timeByDomainByDay := r.timeByDomainByDay, lastUpdatedAt := Some(now))
  {
  }

  /** Blocked-screen time goes to the day's total only. */
  lemma BlockedTimeCountedDay(m: Metrics, sec: int, now: int, day: string)
    ensures var r := BlockedTimeCounted(m, sec, now);
      Count(r.blockedTimeByDay, day) == Count(m.blockedTimeByDay, day) + (if day == DayKey(now) then sec else 0)
      && (day in r.blockedTimeByDay <==> day in m.blockedTimeByDay || day == DayKey(now))
      && r == m.(blockedTimeByDay := r.blockedTimeByDay, lastUpdatedAt := Some(now))
  {
  }

  /** A counted attempt adds exactly one attempt to the day of `now` and sets
      both timestamps. */
  lemma AttemptCountedDay(m: Metrics, now: int, day: string)
    ensures var r := AttemptCounted(m, now);
      Count(r.attemptsByDay, day) == Count(m.attemptsByDay, day) + (if day == DayKey(now) then 1 else 0)
      && (day in r.attemptsByDay <==> day in m.attemptsByDay || day == DayKey(now))
      && r == m.(attemptsByDay := r.attemptsByDay, lastAttemptAt := Some(now), lastUpdatedAt := Some(now))
  {
  }

  /** The loop of `mergeDailyDelta` over the delta's per-domain seconds. */
  method AddDomainSeconds(current: map<string, int>, entries: map<string, int>) returns (byDomain: map<string, int>)
    ensures byDomain == AddCounts(current, entries)
  {
    byDomain := current;
    var rest := entries.Keys;
    while rest != {}
      invariant rest <= entries.Keys
      invariant forall k :: k in byDomain <==> k in current || (k in entries && k !in rest)
      invariant forall k :: Count(byDomain, k) == Count(current, k) + (if k in entries && k !in rest then entries[k] else 0)
      decreases rest
    {
      var k :| k in rest;
      byDomain := byDomain[k := Count(byDomain, k) + entries[k]];
      rest := rest - {k};
    }
    var sums := AddCounts(current, entries);
    forall k
      ensures k in byDomain <==> k in sums
      ensures k in byDomain ==> byDomain[k] == sums[k]
    {
      AddCountsAt(current, entries, k);
    }
  }

  // ---------------------------------------------------------------------------
  // The queues

  /** The module's `pendingDbEvents` array and `pendingDailyDeltas` map. */
  class MetricsQueue {
    var pendingDbEvents: seq<DbEvent>
    var pendingDailyDeltas: map<string, DailyDelta>

    constructor()
      ensures pendingDbEvents == [] && pendingDailyDeltas == map[]
    {
      pendingDbEvents := [];
      pendingDailyDeltas := map[];
    }

    /** `queueDbEvent(event)`. */
    method QueueDbEvent(event: DbEvent)
      modifies this
      ensures pendingDbEvents == old(pendingDbEvents) + [event]
      ensures pendingDailyDeltas == old(pendingDailyDeltas)
    {
      pendingDbEvents := pendingDbEvents + [event];
    }

    /** `mergeDailyDelta(day, delta)`: only the day's aggregate changes. */
    method MergeDailyDelta(day: string, delta: DailyDelta)
      modifies this
      ensures pendingDailyDeltas == WithDelta(old(pendingDailyDeltas), day, delta)
      ensures pendingDbEvents == old(pendingDbEvents)
    {
      var current := DeltaOf(pendingDailyDeltas, day);
      var byDomain := OrEmpty(current.timeByDomain);
      if delta.timeByDomain.Some? {
        byDomain := AddDomainSeconds(byDomain, delta.timeByDomain.value);
      } else {
        AddNothing(byDomain);
      }
      assert byDomain == AddCounts(OrEmpty(current.timeByDomain), OrEmpty(delta.timeByDomain));
      pendingDailyDeltas := pendingDailyDeltas[day := MergedWith(current, delta, byDomain)];
    }

    /** `flushDb()`: when anything is pending, hands over exactly the pending
        events and aggregates and leaves both queues empty. */
    method FlushDb() returns (flushed: bool, events: seq<DbEvent>, deltas: map<string, DailyDelta>)
      modifies this
      ensures flushed <==> old(pendingDbEvents) != [] || old(pendingDailyDeltas) != map[]
      ensures flushed ==> events == old(pendingDbEvents) && deltas == old(pendingDailyDeltas)
      ensures pendingDbEvents == [] && pendingDailyDeltas == map[]
    {
      if |pendingDbEvents| == 0 && |pendingDailyDeltas| == 0 {
        assert pendingDailyDeltas == map[];
        return false, [], map[];
      }
      flushed := true;
      events := pendingDbEvents;
      pendingDbEvents := [];
      deltas := pendingDailyDeltas;
      pendingDailyDeltas := map[];
    }
  }

  // ---------------------------------------------------------------------------
  // Sessions, time and attempts

  /** The tab's record once its session has started. */
  function SessionBegun(s: TabState, now: int): TabState
  {
    s.(sessionActive := true, lastActiveAt := Some(now))
  }

  /** The event `startSession` queues. */
  function SessionEventOf(s: TabState, tabId: int, now: int): DbEvent
  {
    DbEvent(now, DayKey(now), SessionStartEvent, s.domain, None, None, Some(tabId))
  }

  /** The delta `startSession` merges. */
  function SessionDeltaOf(now: int): DailyDelta
  {
    NO_DELTA.(sessions := Some(1), updatedAt := Some(now))
  }

  /** `startSession(tabId, now)`, with `loaded` the value `getMetrics()` would
      return. Nothing but the metrics cache changes when the tab's session is
      already active; otherwise the session starts, the day gains one session
      and one event and a `{ sessions: 1 }` delta are queued. */
  method StartSession(st: Background, q: MetricsQueue, tabId: int, now: int, loaded: Metrics)
    requires st.Valid()
    modifies st`tabStates, st`order, st`metricsCache, st`metricsDirty, q
    ensures st.Valid()
    ensures st.order == OrderAfterGet(old(st.order), old(st.tabStates), tabId)
    ensures var s0 := StateOf(old(st.tabStates), tabId);
      st.tabStates == old(st.tabStates)[tabId := if s0.sessionActive then s0 else SessionBegun(s0, now)]
    ensures var s0, m0 := StateOf(old(st.tabStates), tabId), Cached(old(st.metricsCache), loaded);
      st.metricsCache == Some(if s0.sessionActive then m0 else SessionCounted(m0, now))
      && st.metricsDirty == (old(st.metricsDirty) || !s0.sessionActive)
    ensures var s0 := StateOf(old(st.tabStates), tabId);
      q.pendingDbEvents == old(q.pendingDbEvents) + (if s0.sessionActive then [] else [SessionEventOf(s0, tabId, now)])
      && q.pendingDailyDeltas == (if s0.sessionActive then old(q.pendingDailyDeltas)
           else WithDelta(old(q.pendingDailyDeltas), DayKey(now), SessionDeltaOf(now)))
  {
    var metrics, _ := st.EnsureMetricsLoaded(loaded);
    ghost var tabs0 := st.tabStates;
    var state := st.GetTabState(tabId);
    if !state.sessionActive {
      BeginSession(st, q, tabId, state, metrics, now);
      UpdateTwice(tabs0, tabId, state, SessionBegun(state, now));
    }
  }

  /** The part of `startSession` after the early return. */
  method BeginSession(st: Background, q: MetricsQueue, tabId: int, state: TabState, metrics: Metrics, now: int)
    requires st.Valid() && tabId in st.tabStates
    modifies st`tabStates, st`metricsCache, st`metricsDirty, q
    ensures st.Valid()
    ensures st.tabStates == old(st.tabStates)[tabId := SessionBegun(state, now)]
    ensures st.metricsCache == Some(SessionCounted(metrics, now)) && st.metricsDirty
    ensures q.pendingDbEvents == old(q.pendingDbEvents) + [SessionEventOf(state, tabId, now)]
    ensures q.pendingDailyDeltas == WithDelta(old(q.pendingDailyDeltas), DayKey(now), SessionDeltaOf(now))
  {
    st.tabStates := st.tabStates[tabId := SessionBegun(state, now)];
    st.metricsCache := Some(SessionCounted(metrics, now));
    st.metricsDirty := true;
    q.QueueDbEvent(SessionEventOf(state, tabId, now));
    q.MergeDailyDelta(DayKey(now), SessionDeltaOf(now));
  }

  /** The event `addTime` queues. */
  function TimeEventOf(domain: string, sec: int, now: int): DbEvent
  {
    DbEvent(now, DayKey(now), TimeEvent, Some(domain), None, Some(sec), None)
  }

  /** The delta `addTime` merges. */
  function TimeDeltaOf(domain: string, sec: int, now: int): DailyDelta
  {
    NO_DELTA.(time := Some(sec), timeByDomain := Some(map[domain := sec]), updatedAt := Some(now))
  }

  /** `addTime(domain, deltaSec, now)`: the metrics gain the seconds, and one
      event and one delta are queued; the tabs are not touched. */
  method AddTime(st: Background, q: MetricsQueue, domain: string, deltaSec: int, now: int, loaded: Metrics)
    modifies st`metricsCache, st`metricsDirty, q
    ensures st.metricsCache == Some(TimeCounted(Cached(old(st.metricsCache), loaded), domain, deltaSec, now))
    ensures st.metricsDirty
    ensures q.pendingDbEvents == old(q.pendingDbEvents) + [TimeEventOf(domain, deltaSec, now)]
    ensures q.pendingDailyDeltas == WithDelta(old(q.pendingDailyDeltas), DayKey(now), TimeDeltaOf(domain, deltaSec, now))
  {
    var metrics, _ := st.EnsureMetricsLoaded(loaded);
    st.metricsCache := Some(TimeCounted(metrics, domain, deltaSec, now));
    st.metricsDirty := true;
    q.QueueDbEvent(TimeEventOf(domain, deltaSec, now));
    q.MergeDailyDelta(DayKey(now), TimeDeltaOf(domain, deltaSec, now));
  }

  /** The event `addBlockedTime` queues. */
  function BlockedTimeEventOf(sec: int, now: int): DbEvent
  {
    DbEvent(now, DayKey(now), BlockedTimeEvent, None, None, Some(sec), None)
  }

  /** The delta `addBlockedTime` merges. */
  function BlockedTimeDeltaOf(sec: int, now: int): DailyDelta
  {
    NO_DELTA.(blockedTime := Some(sec), updatedAt := Some(now))
  }

  /** `addBlockedTime(deltaSec, now)`: likewise, for time on the block screen. */
  method AddBlockedTime(st: Background, q: MetricsQueue, deltaSec: int, now: int, loaded: Metrics)
    modifies st`metricsCache, st`metricsDirty, q
    ensures st.metricsCache == Some(BlockedTimeCounted(Cached(old(st.metricsCache), loaded), deltaSec, now))
    ensures st.metricsDirty
    ensures q.pendingDbEvents == old(q.pendingDbEvents) + [BlockedTimeEventOf(deltaSec, now)]
    ensures q.pendingDailyDeltas == WithDelta(old(q.pendingDailyDeltas), DayKey(now), BlockedTimeDeltaOf(deltaSec, now))
  {
    var metrics, _ := st.EnsureMetricsLoaded(loaded);
    st.metricsCache := Some(BlockedTimeCounted(metrics, deltaSec, now));
    st.metricsDirty := true;
    q.QueueDbEvent(BlockedTimeEventOf(deltaSec, now));
    q.MergeDailyDelta(DayKey(now), BlockedTimeDeltaOf(deltaSec, now));
  }

  /** The cooldown test of `addAttempt`: the tab's last counted attempt (at a
      non-zero time) was on the same URL less than 5000 ms ago. */
  predicate InCooldown(s: TabState, url: string, now: int)
  {
    s.lastAttemptAt.Some? && s.lastAttemptAt.value != 0 && s.lastAttemptUrl == Some(url)
    && now - s.lastAttemptAt.value < ATTEMPT_COOLDOWN_MS
  }

  /** The tab's record once an attempt on `url` has been counted. */
  function AttemptNoted(s: TabState, url: string, now: int): TabState
  {
    s.(lastAttemptAt := Some(now), lastAttemptUrl := Some(url))
  }

  /** The event `addAttempt` queues. */
  function AttemptEventOf(s: TabState, tabId: int, url: string, now: int): DbEvent
  {
    DbEvent(now, DayKey(now), AttemptEvent, s.domain, Some(url), None, Some(tabId))
  }

  /** The delta `addAttempt` merges. */
  function AttemptDeltaOf(now: int): DailyDelta
  {
    NO_DELTA.(attempts := Some(1), updatedAt := Some(now))
  }

  /** `addAttempt(tabId, url, now)`: ignored during the cooldown; otherwise the
      tab remembers this attempt, the day gains one attempt and one event and
      an `{ attempts: 1 }` delta are queued. */
  method AddAttempt(st: Background, q: MetricsQueue, tabId: int, url: string, now: int, loaded: Metrics)
    requires st.Valid()
    modifies st`tabStates, st`order, st`metricsCache, st`metricsDirty, q
    ensures st.Valid()
    ensures st.order == OrderAfterGet(old(st.order), old(st.tabStates), tabId)
    ensures var s0 := StateOf(old(st.tabStates), tabId);
      st.tabStates == old(st.tabStates)[tabId := if InCooldown(s0, url, now) then s0 else AttemptNoted(s0, url, now)]
    ensures var s0, m0 := StateOf(old(st.tabStates), tabId), Cached(old(st.metricsCache), loaded);
      var ignored := InCooldown(s0, url, now);
      st.metricsCache == Some(if ignored then m0 else AttemptCounted(m0, now))
      && st.metricsDirty == (old(st.metricsDirty) || !ignored)
    ensures var s0 := StateOf(old(st.tabStates), tabId);
      var ignored := InCooldown(s0, url, now);
      q.pendingDbEvents == old(q.pendingDbEvents) + (if ignored then [] else [AttemptEventOf(s0, tabId, url, now)])
      && q.pendingDailyDeltas == (if ignored then old(q.pendingDailyDeltas)
           else WithDelta(old(q.pendingDailyDeltas), DayKey(now), AttemptDeltaOf(now)))
  {
    var metrics, _ := st.EnsureMetricsLoaded(loaded);
    ghost var tabs0 := st.tabStates;
    var state := st.GetTabState(tabId);
    if !InCooldown(state, url, now) {
      CountAttempt(st, q, tabId, url, state, metrics, now);
      UpdateTwice(tabs0, tabId, state, AttemptNoted(state, url, now));
    }
  }

  /** The part of `addAttempt` after the cooldown test. */
  method CountAttempt(st: Background, q: MetricsQueue, tabId: int, url: string, state: TabState, metrics: Metrics, now: int)
    requires st.Valid() && tabId in st.tabStates
    modifies st`tabStates, st`metricsCache, st`metricsDirty, q
    ensures st.Valid()
    ensures st.tabStates == old(st.tabStates)[tabId := AttemptNoted(state, url, now)]
    ensures st.metricsCache == Some(AttemptCounted(metrics, now)) && st.metricsDirty
    ensures q.pendingDbEvents == old(q.pendingDbEvents) + [AttemptEventOf(state, tabId, url, now)]
    ensures q.pendingDailyDeltas == WithDelta(old(q.pendingDailyDeltas), DayKey(now), AttemptDeltaOf(now))
  {
    st.tabStates := st.tabStates[tabId := AttemptNoted(state, url, now)];
    st.metricsCache := Some(AttemptCounted(metrics, now));
    st.metricsDirty := true;
    q.QueueDbEvent(AttemptEventOf(state, tabId, url, now));
    q.MergeDailyDelta(DayKey(now), AttemptDeltaOf(now));
  }

  /** After a counted attempt at `t1`, a second attempt at `t2` is ignored
      exactly when it repeats the URL less than 5000 ms later (and `t1` is
      not the zero instant, which reads as "no attempt yet"). */
  lemma AttemptCooldown(s: TabState, url: string, other: string, t1: int, t2: int)
    ensures var s1 := AttemptNoted(s, url, t1);
      (InCooldown(s1, url, t2) <==> t1 != 0 && t2 - t1 < 5000)
      && (other != url ==> !InCooldown(s1, other, t2))
  {
  }

  // ---------------------------------------------------------------------------
  // The tick

  /** A tab is eligible for time tracking while it is the active tab of the
      focused window, visible, and on a target domain. */
  predicate Eligible(s: TabState, focused: bool)
  {
    s.active && focused && s.visible && s.isTarget && s.domain.Some? && s.domain.value != ""
  }

  /** One tab's part of `tickMetrics`: the tab's new record, and the domain
      and whole seconds to add, if any. */
  function TickTab(s: TabState, focused: bool, now: int): (TabState, Option<(string, int)>)
  {
    var last := if s.lastTick.Some? then s.lastTick.value else now;
    var deltaSec := (now - last) / 1000;
    var accrued := Eligible(s, focused) && deltaSec > 0;
    var s1 := if accrued then s.(lastTick := Some(now), lastActiveAt := Some(now)) else s.(lastTick := Some(now));
    var idle := !Eligible(s, focused) && s1.lastActiveAt.Some? && s1.lastActiveAt.value != 0
                && now - s1.lastActiveAt.value > SESSION_IDLE_MS;
    var ended := s1.sessionActive && (!s1.isTarget || idle);
    (if ended then s1.(sessionActive := false) else s1,
     if accrued then Some((s.domain.value, deltaSec)) else None)
  }

  /** Every tab ends the tick with `lastTick = now`. Time accrues only for an
      eligible tab whose last tick is at least a second old, as whole seconds
      rounded down, and then counts as activity. A session survives only on a
      target tab that is eligible or was active within the last minute. */
  lemma TickTabMeaning(s: TabState, focused: bool, now: int)
    ensures var (next, add) := TickTab(s, focused, now);
      var last := if s.lastTick.Some? then s.lastTick.value else now;
      next.lastTick == Some(now)
      && (add.Some? <==> Eligible(s, focused) && now - last >= 1000)
      && (add.Some? ==> add.value == (s.domain.value, (now - last) / 1000) && add.value.1 >= 1 && next.lastActiveAt == Some(now))
      && (add.None? ==> next.lastActiveAt == s.lastActiveAt)
      && (next.sessionActive <==>
            s.sessionActive && s.isTarget
            && (Eligible(s, focused) || s.lastActiveAt.None? || s.lastActiveAt.value == 0
                || now - s.lastActiveAt.value <= SESSION_IDLE_MS))
      && next == s.(lastTick := next.lastTick, lastActiveAt := next.lastActiveAt, sessionActive := next.sessionActive)
  {
  }

  /** The time additions of a tick over the tabs `ids`, in map order. */
  function TickAdds(ids: seq<int>, tabs: map<int, TabState>, focused: bool, now: int): seq<(string, int)>
    requires forall i :: 0 <= i < |ids| ==> ids[i] in tabs
    decreases |ids|
  {
    if |ids| == 0 then []
    else
      var add := TickTab(tabs[ids[|ids| - 1]], focused, now).1;
      TickAdds(ids[..|ids| - 1], tabs, focused, now) + (if add.Some? then [add.value] else [])
  }

  /** Every addition of a tick comes from an eligible tab of the list, on that
      tab's domain, and is at least one second. */
  lemma {:induction false} TickAddsFromEligible(ids: seq<int>, tabs: map<int, TabState>, focused: bool, now: int, k: int)
    requires forall i :: 0 <= i < |ids| ==> ids[i] in tabs
    requires 0 <= k < |TickAdds(ids, tabs, focused, now)|
    ensures var add := TickAdds(ids, tabs, focused, now)[k];
      add.1 >= 1 && exists i :: 0 <= i < |ids| && Eligible(tabs[ids[i]], focused) && tabs[ids[i]].domain == Some(add.0)
    decreases |ids|
  {
    var init := ids[..|ids| - 1];
    var prev := TickAdds(init, tabs, focused, now);
    var s := tabs[ids[|ids| - 1]];
    TickTabMeaning(s, focused, now);
    if k < |prev| {
      TickAddsFromEligible(init, tabs, focused, now, k);
      var add := prev[k];
      var i :| 0 <= i < |init| && Eligible(tabs[init[i]], focused) && tabs[init[i]].domain == Some(add.0);
      assert init[i] == ids[i];
    }
  }

  /** The metrics after `addTime` for each addition in turn. */
  function FoldTime(m: Metrics, adds: seq<(string, int)>, now: int): Metrics
    decreases |adds|
  {
    if |adds| == 0 then m
    else
      var last := adds[|adds| - 1];
      TimeCounted(FoldTime(m, adds[..|adds| - 1], now), last.0, last.1, now)
  }

  /** The events queued by those additions. */
  function TimeEvents(adds: seq<(string, int)>, now: int): seq<DbEvent>
    decreases |adds|
  {
    if |adds| == 0 then []
    else TimeEvents(adds[..|adds| - 1], now) + [TimeEventOf(adds[|adds| - 1].0, adds[|adds| - 1].1, now)]
  }

  /** The daily aggregates after merging those additions' deltas. */
  function FoldTimeDeltas(deltas: map<string, DailyDelta>, adds: seq<(string, int)>, now: int): map<string, DailyDelta>
    decreases |adds|
  {
    if |adds| == 0 then deltas
    else
      var last := adds[|adds| - 1];
      WithDelta(FoldTimeDeltas(deltas, adds[..|adds| - 1], now), DayKey(now), TimeDeltaOf(last.0, last.1, now))
  }

  /** The metrics cache after a tick: loaded and changed only if time accrued. */
  function CacheAfterTick(cache: Option<Metrics>, loaded: Metrics, adds: seq<(string, int)>, now: int): Option<Metrics>
  {
    if |adds| == 0 then cache else Some(FoldTime(Cached(cache, loaded), adds, now))
  }

  /** Every tab's record after a tick. */
  function Ticked(tabs: map<int, TabState>, focused: bool, now: int): map<int, TabState>
  {
    map id | id in tabs :: TickTab(tabs[id], focused, now).0
  }

  /** The tab records part-way through a tick: the tabs listed in `done` are ticked. */
  function TickedSome(tabs: map<int, TabState>, done: seq<int>, focused: bool, now: int): map<int, TabState>
  {
    map id | id in tabs :: if id in done then TickTab(tabs[id], focused, now).0 else tabs[id]
  }

  /** Ticking one more tab, not yet ticked, changes that tab's record only. */
  lemma TickedSomeStep(ids: seq<int>, i: int, tabs: map<int, TabState>, focused: bool, now: int)
    requires 0 <= i < |ids| && Distinct(ids) && ids[i] in tabs
    ensures var id := ids[i];
      TickedSome(tabs, ids[..i], focused, now)[id] == tabs[id]
      && TickedSome(tabs, ids[..i], focused, now)[id := TickTab(tabs[id], focused, now).0]
         == TickedSome(tabs, ids[..i + 1], focused, now)
  {
    var id := ids[i];
    assert ids[..i + 1] == ids[..i] + [id];
    assert id !in ids[..i] by {
      forall j | 0 <= j < i
        ensures ids[..i][j] != id
      {
        assert ids[j] != ids[i];
      }
    }
    var before, after := TickedSome(tabs, ids[..i], focused, now), TickedSome(tabs, ids[..i + 1], focused, now);
    var stepped := before[id := TickTab(tabs[id], focused, now).0];
    forall k | k in tabs
      ensures stepped[k] == after[k]
    {
      assert k in ids[..i + 1] <==> k in ids[..i] || k == id;
    }
  }

  /** The additions of one more tab come after those of the tabs before it. */
  lemma TickAddsStep(ids: seq<int>, i: int, tabs: map<int, TabState>, focused: bool, now: int)
    requires 0 <= i < |ids|
    requires forall j :: 0 <= j < |ids| ==> ids[j] in tabs
    ensures var add := TickTab(tabs[ids[i]], focused, now).1;
      TickAdds(ids[..i + 1], tabs, focused, now)
      == if add.Some? then TickAdds(ids[..i], tabs, focused, now) + [add.value] else TickAdds(ids[..i], tabs, focused, now)
  {
    assert ids[..i + 1][..i] == ids[..i];
    var adds := TickAdds(ids[..i], tabs, focused, now);
    assert adds + [] == adds;
  }

  /** Appending one addition applies one more `addTime` to the cache. */
  lemma CacheStep(cache: Option<Metrics>, loaded: Metrics, adds: seq<(string, int)>, add: (string, int), now: int)
    ensures CacheAfterTick(cache, loaded, adds + [add], now)
            == Some(TimeCounted(Cached(CacheAfterTick(cache, loaded, adds, now), loaded), add.0, add.1, now))
  {
    assert (adds + [add])[..|adds|] == adds;
  }

  /** Appending one addition queues one more event. */
  lemma EventsStep(events: seq<DbEvent>, adds: seq<(string, int)>, add: (string, int), now: int)
    ensures events + TimeEvents(adds + [add], now) == events + TimeEvents(adds, now) + [TimeEventOf(add.0, add.1, now)]
  {
    assert (adds + [add])[..|adds|] == adds;
    var e, e1 := TimeEvents(adds, now), TimeEventOf(add.0, add.1, now);
    assert TimeEvents(adds + [add], now) == e + [e1];
    assert events + (e + [e1]) == events + e + [e1];
  }

  /** Appending one addition merges one more delta. */
  lemma DeltasStep(deltas: map<string, DailyDelta>, adds: seq<(string, int)>, add: (string, int), now: int)
    ensures FoldTimeDeltas(deltas, adds + [add], now)
            == WithDelta(FoldTimeDeltas(deltas, adds, now), DayKey(now), TimeDeltaOf(add.0, add.1, now))
  {
    assert (adds + [add])[..|adds|] == adds;
  }

  /** With every listed tab done, the part-way records are the ticked ones. */
  lemma TickedAll(ids: seq<int>, tabs: map<int, TabState>, focused: bool, now: int)
    requires forall id :: id in tabs ==> id in ids
    ensures TickedSome(tabs, ids, focused, now) == Ticked(tabs, focused, now)
  {
    var some, all := TickedSome(tabs, ids, focused, now), Ticked(tabs, focused, now);
    forall id | id in tabs
      ensures some[id] == all[id]
    {
      assert id in ids;
    }
  }

  /** Nothing is ticked before the loop. */
  lemma TickedNone(tabs: map<int, TabState>, focused: bool, now: int)
    ensures TickedSome(tabs, [], focused, now) == tabs
  {
  }

  /** The body of `tickMetrics`'s loop for one tab: the `addTime` call, if any,
      then the tab's new record. */
  method TickOne(st: Background, q: MetricsQueue, id: int, focused: bool, now: int, loaded: Metrics)
    requires st.Valid() && id in st.tabStates
    modifies st`tabStates, st`metricsCache, st`metricsDirty, q
    ensures st.Valid()
    ensures var (next, add) := TickTab(old(st.tabStates)[id], focused, now);
      st.tabStates == old(st.tabStates)[id := next]
      && st.metricsCache == (if add.Some? then Some(TimeCounted(Cached(old(st.metricsCache), loaded), add.value.0, add.value.1, now))
                             else old(st.metricsCache))
      && st.metricsDirty == (old(st.metricsDirty) || add.Some?)
      && q.pendingDbEvents == old(q.pendingDbEvents) + (if add.Some? then [TimeEventOf(add.value.0, add.value.1, now)] else [])
      && q.pendingDailyDeltas == (if add.Some? then WithDelta(old(q.pendingDailyDeltas), DayKey(now), TimeDeltaOf(add.value.0, add.value.1, now))
                                  else old(q.pendingDailyDeltas))
  {
    var (next, add) := TickTab(st.tabStates[id], focused, now);
    if add.Some? {
      AddTime(st, q, add.value.0, add.value.1, now, loaded);
    }
    st.tabStates := st.tabStates[id := next];
  }

  /** What `tickMetrics` starts from: the tabs in map order, their records,
      the window focus, the metrics cache and flag, and the two queues. */
  datatype TickStart = TickStart(
    ids: seq<int>,
    tabs: map<int, TabState>,
    focused: bool,
    cache: Option<Metrics>,
    dirty: bool,
    events: seq<DbEvent>,
    deltas: map<string, DailyDelta>)

  /** The state `tickMetrics` has reached once the first `i` tabs are ticked. */
  ghost predicate TickedUpTo(st: Background, q: MetricsQueue, t: TickStart, i: int, now: int, loaded: Metrics)
    reads st`tabStates, st`metricsCache, st`metricsDirty, q
  {
    0 <= i <= |t.ids| && (forall j :: 0 <= j < |t.ids| ==> t.ids[j] in t.tabs)
    && var adds := TickAdds(t.ids[..i], t.tabs, t.focused, now);
    st.tabStates == TickedSome(t.tabs, t.ids[..i], t.focused, now)
    && st.metricsCache == CacheAfterTick(t.cache, loaded, adds, now)
    && st.metricsDirty == (t.dirty || |adds| > 0)
    && q.pendingDbEvents == t.events + TimeEvents(adds, now)
    && q.pendingDailyDeltas == FoldTimeDeltas(t.deltas, adds, now)
  }

  /** One turn of `tickMetrics`'s loop: the tick reaches one tab further. */
  method TickNext(st: Background, q: MetricsQueue, ghost t: TickStart, i: int, id: int, focused: bool, now: int, loaded: Metrics)
    requires st.Valid() && Distinct(t.ids) && 0 <= i < |t.ids| && id == t.ids[i] && focused == t.focused
    requires TickedUpTo(st, q, t, i, now, loaded)
    modifies st`tabStates, st`metricsCache, st`metricsDirty, q
    ensures st.Valid() && TickedUpTo(st, q, t, i + 1, now, loaded)
  {
    TickedSomeStep(t.ids, i, t.tabs, focused, now);
    TickAddsStep(t.ids, i, t.tabs, focused, now);
    ghost var adds := TickAdds(t.ids[..i], t.tabs, focused, now);
    ghost var add := TickTab(t.tabs[id], focused, now).1;
    TickOne(st, q, id, focused, now, loaded);
    if add.Some? {
      CacheStep(t.cache, loaded, adds, add.value, now);
      EventsStep(t.events, adds, add.value, now);
      DeltasStep(t.deltas, adds, add.value, now);
    }
  }

  /** `tickMetrics()` at instant `now`: every tab is ticked once, in map order,
      and the time it accrues is added to the metrics and queued. */
  method TickMetrics(st: Background, q: MetricsQueue, now: int, loaded: Metrics)
    requires st.Valid()
    modifies st`tabStates, st`metricsCache, st`metricsDirty, q
    ensures st.Valid()
    ensures st.tabStates == Ticked(old(st.tabStates), st.windowFocused, now)
    ensures var adds := TickAdds(st.order, old(st.tabStates), st.windowFocused, now);
      st.metricsCache == CacheAfterTick(old(st.metricsCache), loaded, adds, now)
      && st.metricsDirty == (old(st.metricsDirty) || |adds| > 0)
      && q.pendingDbEvents == old(q.pendingDbEvents) + TimeEvents(adds, now)
      && q.pendingDailyDeltas == FoldTimeDeltas(old(q.pendingDailyDeltas), adds, now)
  {
    var ids := st.order;
    var focused := st.windowFocused;
    ghost var t := TickStart(ids, st.tabStates, focused, st.metricsCache, st.metricsDirty, q.pendingDbEvents, q.pendingDailyDeltas);
    TickedNone(t.tabs, focused, now);
    assert ids[..0] == [];
    var i := 0;
    while i < |ids|
      invariant 0 <= i <= |ids|
      invariant st.Valid() && TickedUpTo(st, q, t, i, now, loaded)
    {
      TickNext(st, q, t, i, ids[i], focused, now, loaded);
      i := i + 1;
    }
    assert ids[..i] == ids;
    TickedAll(ids, t.tabs, focused, now);
  }

  /** `flushMetrics()`: when the cache holds changes, the cached record is
      marked version 2, handed to `setMetrics` as `saved` and the cache is
      clean; the database queues are flushed either way. */
  method FlushMetrics(st: Background, q: MetricsQueue)
    returns (saved: Option<Metrics>, flushed: bool, events: seq<DbEvent>, deltas: map<string, DailyDelta>)
    modifies st`metricsCache, st`metricsDirty, q
    ensures saved.Some? <==> old(st.metricsDirty) && old(st.metricsCache).Some?
    ensures saved.Some? ==> saved.value == old(st.metricsCache).value.(version := 2)
                            && st.metricsCache == saved && !st.metricsDirty
    ensures saved.None? ==> st.metricsCache == old(st.metricsCache) && st.metricsDirty == old(st.metricsDirty)
    ensures flushed <==> old(q.pendingDbEvents) != [] || old(q.pendingDailyDeltas) != map[]
    ensures flushed ==> events == old(q.pendingDbEvents) && deltas == old(q.pendingDailyDeltas)
    ensures q.pendingDbEvents == [] && q.pendingDailyDeltas == map[]
  {
    saved := None;
    if st.metricsDirty && st.metricsCache.Some? {
      var metrics := st.metricsCache.value.(version := 2);
      st.metricsCache := Some(metrics);
      saved := Some(metrics);
      st.metricsDirty := false;
    }
    flushed, events, deltas := q.FlushDb();
  }
}
