/** The in-memory state of the background service worker
    (`src/background/state.ts`): one record per tab, the active tab, window
    focus, the lazily loaded settings and metrics, and two flags. */
module BackgroundState {
  import opened Base
  import opened Types

  /** What the worker remembers about one tab for time tracking. */
  datatype TabState = TabState(
    domain: Option<string>,
    isTarget: bool,
    active: bool,
    visible: bool,
    lastTick: Option<int>,
    lastActiveAt: Option<int>,
    sessionActive: bool,
    lastAttemptAt: Option<int>,
    lastAttemptUrl: Option<string>)

  /** The record `getTabState` creates for a tab it has not seen. */
  function NewTabState(): (s: TabState)
    ensures s.domain.None? && !s.isTarget && !s.active && s.visible
    ensures s.lastTick.None? && s.lastActiveAt.None? && !s.sessionActive
    ensures s.lastAttemptAt.None? && s.lastAttemptUrl.None?
  {
    TabState(None, false, false, true, None, None, false, None, None)
  }

  /** The state a call to `getTabState(tabId)` hands out. */
  function StateOf(tabs: map<int, TabState>, tabId: int): (s: TabState)
    ensures tabId in tabs ==> s == tabs[tabId]
    ensures tabId !in tabs ==> s == NewTabState()
  {
    if tabId in tabs then tabs[tabId] else NewTabState()
  }

  /** Where `getTabState` leaves the insertion order: a new tab goes last. */
  function OrderAfterGet(order: seq<int>, tabs: map<int, TabState>, tabId: int): seq<int>
  {
    if tabId in tabs then order else order + [tabId]
  }

  /** `cache ?? loaded`: what a lazy loader returns. */
  function Cached<T>(cache: Option<T>, loaded: T): (v: T)
    ensures cache.Some? ==> v == cache.value
    ensures cache.None? ==> v == loaded
  {
    if cache.Some? then cache.value else loaded
  }

  /** The module-level variables of the worker. `tabStates` is a `Map`, whose
      iteration follows insertion order: `order` keeps that order. */
  class Background {
    var tabStates: map<int, TabState>
    var order: seq<int>
    var activeTabId: Option<int>
    var windowFocused: bool
    var settingsCache: Option<Settings>
    var metricsCache: Option<Metrics>
    var metricsDirty: bool
    var backgroundStarted: bool

    /** `order` lists each key of `tabStates` exactly once. */
    ghost predicate Valid()
      reads this`tabStates, this`order
    {
      Distinct(order) && (forall id :: id in tabStates <==> id in order)
      && (forall i :: 0 <= i < |order| ==> order[i] in tabStates)
    }

    /** The initial values of the module's variables. */
    constructor()
      ensures Valid() && tabStates == map[] && order == []
      ensures activeTabId.None? && windowFocused && settingsCache.None? && metricsCache.None?
      ensures !metricsDirty && !backgroundStarted
    {
      tabStates := map[];
      order := [];
      activeTabId := None;
      windowFocused := true;
      settingsCache := None;
      metricsCache := None;
      metricsDirty := false;
      backgroundStarted := false;
    }

    /** `getTabState(tabId)`: the existing record, untouched, or a fresh default
        one inserted at the end of the map. */
    method GetTabState(tabId: int) returns (state: TabState)
      requires Valid()
      modifies this`tabStates, this`order
      ensures Valid()
      ensures state == StateOf(old(tabStates), tabId)
      ensures tabStates == old(tabStates)[tabId := state]
      ensures order == OrderAfterGet(old(order), old(tabStates), tabId)
    {
      if tabId in tabStates {
        state := tabStates[tabId];
        assert tabStates == tabStates[tabId := state];
        return;
      }
      state := NewTabState();
      tabStates := tabStates[tabId := state];
      order := order + [tabId];
    }

    /** An assignment to a field of the record `getTabState` handed out: the
        record lives in the map, so the map entry changes and nothing else. */
    method PutTabState(tabId: int, state: TabState)
      requires Valid() && tabId in tabStates
      modifies this`tabStates
      ensures Valid()
      ensures tabStates == old(tabStates)[tabId := state]
    {
      tabStates := tabStates[tabId := state];
    }

    /** `tabStates.delete(tabId)`. */
    method DeleteTabState(tabId: int)
      requires Valid()
      modifies this`tabStates, this`order
      ensures Valid()
      ensures tabStates == old(tabStates) - {tabId}
      ensures order == Without(old(order), tabId)
    {
      WithoutDistinct(order, tabId);
      tabStates := tabStates - {tabId};
      order := Without(order, tabId);
    }

    /** `ensureSettingsLoaded()` with the value `getSettings()` would return:
        the loader runs only while the cache is empty, and the cached value is
        returned. */
    method EnsureSettingsLoaded(loaded: Settings) returns (s: Settings, calledLoader: bool)
      modifies this`settingsCache
      ensures calledLoader <==> old(settingsCache).None?
      ensures s == Cached(old(settingsCache), loaded) && settingsCache == Some(s)
    {
      calledLoader := settingsCache.None?;
      if calledLoader {
        settingsCache := Some(loaded);
      }
      s := settingsCache.value;
    }

    /** `ensureMetricsLoaded()`, likewise for the metrics. */
    method EnsureMetricsLoaded(loaded: Metrics) returns (m: Metrics, calledLoader: bool)
      modifies this`metricsCache
      ensures calledLoader <==> old(metricsCache).None?
      ensures m == Cached(old(metricsCache), loaded) && metricsCache == Some(m)
    {
      calledLoader := metricsCache.None?;
      if calledLoader {
        metricsCache := Some(loaded);
      }
      m := metricsCache.value;
    }

    function GetActiveTabId(): Option<int>
      reads this
    {
      activeTabId
    }

    method SetActiveTabId(next: Option<int>)
      modifies this`activeTabId
      ensures GetActiveTabId() == next
    {
      activeTabId := next;
    }

    function IsWindowFocused(): bool
      reads this
    {
      windowFocused
    }

    method SetWindowFocused(next: bool)
      modifies this`windowFocused
      ensures IsWindowFocused() == next
    {
      windowFocused := next;
    }

    function GetSettingsCache(): Option<Settings>
      reads this
    {
      settingsCache
    }

    method SetSettingsCache(next: Option<Settings>)
      modifies this`settingsCache
      ensures GetSettingsCache() == next
    {
      settingsCache := next;
    }

    function GetMetricsCache(): Option<Metrics>
      reads this
    {
      metricsCache
    }

    method SetMetricsCache(next: Option<Metrics>)
      modifies this`metricsCache
      ensures GetMetricsCache() == next
    {
      metricsCache := next;
    }

    function IsMetricsDirty(): bool
      reads this
    {
      metricsDirty
    }

    method SetMetricsDirty(next: bool)
      modifies this`metricsDirty
      ensures IsMetricsDirty() == next
    {
      metricsDirty := next;
    }

    function IsBackgroundStarted(): bool
      reads this
    {
      backgroundStarted
    }

    method SetBackgroundStarted(next: bool)
      modifies this`backgroundStarted
      ensures IsBackgroundStarted() == next
    {
      backgroundStarted := next;
    }
  }

  /** Two writes to one key leave only the second. */
  lemma UpdateTwice<K, V>(m: map<K, V>, k: K, a: V, b: V)
    ensures m[k := a][k := b] == m[k := b]
  {
  }

  /** Dropping one value from a list without repeats leaves a list without repeats. */
  lemma {:induction false} WithoutDistinct<T(!new)>(xs: seq<T>, v: T)
    requires Distinct(xs)
    ensures Distinct(Without(xs, v))
    decreases |xs|
  {
    if |xs| > 0 {
      WithoutDistinct(xs[1..], v);
      var rest := Without(xs[1..], v);
      assert xs[0] !in xs[1..];
      assert xs[0] !in rest;
    }
  }

  /** A tab's record, once created, is what every later `getTabState` hands
      out, and creating it disturbs no other tab. */
  lemma StateOfInserted(tabs: map<int, TabState>, tabId: int, other: int)
    ensures var next := tabs[tabId := StateOf(tabs, tabId)];
      StateOf(next, tabId) == StateOf(tabs, tabId)
      && (other != tabId ==> StateOf(next, other) == StateOf(tabs, other))
      && (other in next <==> other in tabs || other == tabId)
  {
  }
}
