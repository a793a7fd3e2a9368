/** The tab and window listeners of the background worker
    (`src/background/tabs.ts`): which blocked domain a tab is on, the session
    start on entering a target domain, and the bookkeeping of the active tab
    and the window focus. The file's own `matchDomain` is the same `find`
    as `UrlMatch.MatchDomain`. */
module BackgroundTabs {
  import opened Base
  import opened Types
  import opened UrlMatch
  import opened BackgroundState
  import opened BackgroundMetrics

  /** `chrome.windows.WINDOW_ID_NONE`. */
  const WINDOW_ID_NONE: int := -1

  /** `getHostname(url)`: the lowercased host, or `null` when the URL does not parse. */
  function GetHostname(parse: UrlParser, url: string): Option<string>
  {
    if parse(url).Some? then Some(Lower(parse(url).value.hostname)) else None
  }

  /** The `domain` `updateTabTarget` records: none for a missing or empty URL,
      an unparseable one or an empty host, else the first matching blocked domain. */
  function TargetDomain(parse: UrlParser, url: Option<string>, domains: seq<string>): Option<string>
  {
    if url.None? || url.value == "" then None
    else match GetHostname(parse, url.value)
      case None => None
      case Some(host) => if host == "" then None else MatchDomain(host, domains)
  }

  /** A tab has a target domain exactly when its URL is a target URL in the
      sense of the blocking rules, and the domain is then the first blocked
      domain matching the lowercased host. */
  lemma TargetDomainMeaning(parse: UrlParser, url: string, domains: seq<string>)
    requires url != ""
    requires forall j :: 0 <= j < |domains| ==> domains[j] != []
    ensures TargetDomain(parse, Some(url), domains).Some? <==> IsTargetUrl(parse, url, domains)
    ensures TargetDomain(parse, Some(url), domains).Some? ==>
      var host := Lower(parse(url).value.hostname);
      var d := TargetDomain(parse, Some(url), domains).value;
      d in domains && HostnameMatches(host, d)
      && forall j :: 0 <= j < |domains| && domains[j] == d ==> FirstMatch(host, domains).value <= j
  {
    if parse(url).Some? {
      var host := Lower(parse(url).value.hostname);
      MatchDomainFindsAny(host, domains);
      if host == "" {
        EmptyHostMatchesNothing(domains);
      }
    }
  }

  /** The tab's record once `updateTabTarget` has written the new domain. */
  function Retargeted(s: TabState, domain: Option<string>): TabState
  {
    s.(domain := domain, isTarget := domain.Some?)
  }

  /** Whether `updateTabTarget` calls `startSession`: the tab becomes a target. */
  predicate EntersTarget(s: TabState, domain: Option<string>)
  {
    domain.Some? && !s.isTarget
  }

  /** The tab's record after `updateTabTarget`. */
  function TabAfterTarget(s: TabState, domain: Option<string>, now: int): TabState
  {
    var s1 := Retargeted(s, domain);
    if EntersTarget(s, domain) then (if s1.sessionActive then s1 else SessionBegun(s1, now))
    else if domain.None? then s1.(sessionActive := false)
    else s1
  }

  /** After `updateTabTarget` the tab is a target exactly when it has a domain;
      a tab that is not a target has no session; a tab entering a target domain
      has one, and a tab staying on target keeps its session as it was. */
  lemma TabAfterTargetMeaning(s: TabState, domain: Option<string>, now: int)
    ensures var r := TabAfterTarget(s, domain, now);
      r.domain == domain && (r.isTarget <==> domain.Some?)
      && (domain.None? ==> !r.sessionActive)
      && (EntersTarget(s, domain) ==> r.sessionActive)
      && (domain.Some? && s.isTarget ==> r == Retargeted(s, domain))
      && (r.lastActiveAt != s.lastActiveAt ==> EntersTarget(s, domain) && !s.sessionActive && r.lastActiveAt == Some(now))
  {
  }

  /** A session is only ever started on the step into a target domain: once
      on target, a further update to any target domain starts none. */
  lemma NoRestartOnTarget(s: TabState, d1: string, d2: string, now: int, later: int)
    ensures var s1 := TabAfterTarget(s, Some(d1), now);
      !EntersTarget(s1, Some(d2)) && TabAfterTarget(s1, Some(d2), later) == Retargeted(s1, Some(d2))
  {
  }

  /** `updateTabTarget(tabId, url)` with the settings `getSettings()` would
      return and the metrics `getMetrics()` would return; `now` is the
      `Date.now()` handed to `startSession`. */
  method UpdateTabTarget(st: Background, q: MetricsQueue, parse: UrlParser, tabId: int, url: Option<string>,
                         now: int, settingsLoaded: Settings, metricsLoaded: Metrics)
    requires st.Valid()
    modifies st`tabStates, st`order, st`settingsCache, st`metricsCache, st`metricsDirty, q
    ensures st.Valid()
    ensures st.settingsCache == Some(Cached(old(st.settingsCache), settingsLoaded))
    ensures st.order == OrderAfterGet(old(st.order), old(st.tabStates), tabId)
    ensures var s0 := StateOf(old(st.tabStates), tabId);
      var domain := TargetDomain(parse, url, Cached(old(st.settingsCache), settingsLoaded).blockedDomains);
      st.tabStates == old(st.tabStates)[tabId := TabAfterTarget(s0, domain, now)]
    ensures var s0 := StateOf(old(st.tabStates), tabId);
      var domain := TargetDomain(parse, url, Cached(old(st.settingsCache), settingsLoaded).blockedDomains);
      var counted := EntersTarget(s0, domain) && !s0.sessionActive;
      var m0 := Cached(old(st.metricsCache), metricsLoaded);
      st.metricsCache == (if counted then Some(SessionCounted(m0, now))
                          else if EntersTarget(s0, domain) then Some(m0) else old(st.metricsCache))
      && st.metricsDirty == (old(st.metricsDirty) || counted)
      && q.pendingDbEvents == old(q.pendingDbEvents)
           + (if counted then [SessionEventOf(Retargeted(s0, domain), tabId, now)] else [])
      && q.pendingDailyDeltas == (if counted then WithDelta(old(q.pendingDailyDeltas), DayKey(now), SessionDeltaOf(now))
                                  else old(q.pendingDailyDeltas))
  {
    var settings, _ := st.EnsureSettingsLoaded(settingsLoaded);
    ghost var tabs0 := st.tabStates;
    var state := st.GetTabState(tabId);
    var domain := TargetDomain(parse, url, settings.blockedDomains);
    var wasTarget := state.isTarget;
    var next := Retargeted(state, domain);
    st.PutTabState(tabId, next);
    UpdateTwice(tabs0, tabId, state, next);
    if next.isTarget && !wasTarget {
      ghost var tabs1 := st.tabStates;
      StartSession(st, q, tabId, now, metricsLoaded);
      UpdateTwice(tabs0, tabId, next, st.tabStates[tabId]);
    } else if !next.isTarget && next.sessionActive {
      st.PutTabState(tabId, next.(sessionActive := false));
      UpdateTwice(tabs0, tabId, next, next.(sessionActive := false));
    }
  }

  /** The record of a tab that stops being the active one. */
  function Deactivated(s: TabState, now: int): TabState
  {
    s.(active := false, lastTick := Some(now))
  }

  /** The record of the newly active tab. */
  function Activated(s: TabState, now: int): TabState
  {
    s.(active := true, lastTick := Some(now))
  }

  /** The tab map after `onActivated` with the previously active tab `prev`. */
  function TabsAfterActivated(tabs: map<int, TabState>, prev: Option<int>, tabId: int, now: int): map<int, TabState>
  {
    var tabs1 := if prev.Some? then tabs[prev.value := Deactivated(StateOf(tabs, prev.value), now)] else tabs;
    tabs1[tabId := Activated(StateOf(tabs1, tabId), now)]
  }

  /** The insertion order after `onActivated`. */
  function OrderAfterActivated(order: seq<int>, tabs: map<int, TabState>, prev: Option<int>, tabId: int): seq<int>
  {
    var tabs1 := if prev.Some? then tabs[prev.value := StateOf(tabs, prev.value)] else tabs;
    var order1 := if prev.Some? then OrderAfterGet(order, tabs, prev.value) else order;
    OrderAfterGet(order1, tabs1, tabId)
  }

  /** After `onActivated` the new tab is active and ticked now; the tab that
      was active, if another, is inactive and ticked now; every other tab is
      untouched; and no other field of either record changes. */
  lemma ActivatedMeaning(tabs: map<int, TabState>, prev: Option<int>, tabId: int, now: int, other: int)
    ensures var r := TabsAfterActivated(tabs, prev, tabId, now);
      tabId in r && r[tabId].active && r[tabId].lastTick == Some(now)
      && r[tabId] == StateOf(tabs, tabId).(active := true, lastTick := Some(now))
      && (prev.Some? && prev.value != tabId ==>
            prev.value in r && r[prev.value] == StateOf(tabs, prev.value).(active := false, lastTick := Some(now)))
      && (other != tabId && (prev.None? || other != prev.value) ==>
            (other in r <==> other in tabs) && (other in tabs ==> r[other] == tabs[other]))
  {
  }

  /** The `chrome.tabs.onActivated` listener for tab `tabId` at instant `now`. */
  method OnActivated(st: Background, tabId: int, now: int)
    requires st.Valid()
    modifies st`tabStates, st`order, st`activeTabId
    ensures st.Valid()
    ensures st.activeTabId == Some(tabId)
    ensures st.tabStates == TabsAfterActivated(old(st.tabStates), old(st.activeTabId), tabId, now)
    ensures st.order == OrderAfterActivated(old(st.order), old(st.tabStates), old(st.activeTabId), tabId)
  {
    var prev := st.GetActiveTabId();
    if prev.Some? {
      var prevState := st.GetTabState(prev.value);
      st.PutTabState(prev.value, Deactivated(prevState, now));
    }
    st.SetActiveTabId(Some(tabId));
    ghost var tabs1 := st.tabStates;
    var state := st.GetTabState(tabId);
    st.PutTabState(tabId, Activated(state, now));
    UpdateTwice(tabs1, tabId, state, Activated(state, now));
  }

  /** The URL `onUpdated` retargets the tab with: a URL change, else the
      tab's non-empty URL; `None` when the listener does nothing. */
  function UpdatedUrl(changeUrl: Option<string>, tabUrl: Option<string>): Option<string>
  {
    if changeUrl.Some? then changeUrl
    else if tabUrl.Some? && tabUrl.value != "" then tabUrl
    else None
  }

  /** A reported URL change wins over the tab's URL; without one, an empty or
      missing tab URL leaves the tab alone. */
  lemma UpdatedUrlChoice(changeUrl: Option<string>, tabUrl: Option<string>)
    ensures changeUrl.Some? ==> UpdatedUrl(changeUrl, tabUrl) == changeUrl
    ensures changeUrl.None? ==> (UpdatedUrl(changeUrl, tabUrl).None? <==> tabUrl.None? || tabUrl.value == "")
  {
  }

  /** The `chrome.tabs.onUpdated` listener. */
  method OnUpdated(st: Background, q: MetricsQueue, parse: UrlParser, tabId: int,
                   changeUrl: Option<string>, tabUrl: Option<string>,
                   now: int, settingsLoaded: Settings, metricsLoaded: Metrics)
    requires st.Valid()
    modifies st`tabStates, st`order, st`settingsCache, st`metricsCache, st`metricsDirty, q
    ensures st.Valid()
    ensures UpdatedUrl(changeUrl, tabUrl).None? ==>
      st.tabStates == old(st.tabStates) && st.order == old(st.order) && st.settingsCache == old(st.settingsCache)
      && st.metricsCache == old(st.metricsCache) && st.metricsDirty == old(st.metricsDirty)
      && q.pendingDbEvents == old(q.pendingDbEvents) && q.pendingDailyDeltas == old(q.pendingDailyDeltas)
    ensures UpdatedUrl(changeUrl, tabUrl).Some? ==>
      var domain := TargetDomain(parse, UpdatedUrl(changeUrl, tabUrl), Cached(old(st.settingsCache), settingsLoaded).blockedDomains);
      st.tabStates == old(st.tabStates)[tabId := TabAfterTarget(StateOf(old(st.tabStates), tabId), domain, now)]
  {
    var url := UpdatedUrl(changeUrl, tabUrl);
    if url.Some? {
      UpdateTabTarget(st, q, parse, tabId, url, now, settingsLoaded, metricsLoaded);
    }
  }

  /** The `chrome.tabs.onRemoved` listener: the tab's record goes, and so
      does the active tab id when it named this tab. */
  method OnRemoved(st: Background, tabId: int)
    requires st.Valid()
    modifies st`tabStates, st`order, st`activeTabId
    ensures st.Valid()
    ensures st.tabStates == old(st.tabStates) - {tabId} && st.order == Without(old(st.order), tabId)
    ensures st.activeTabId == if old(st.activeTabId) == Some(tabId) then None else old(st.activeTabId)
  {
    st.DeleteTabState(tabId);
    if st.GetActiveTabId() == Some(tabId) {
      st.SetActiveTabId(None);
    }
  }

  /** After a removal no record and no active id refer to the tab. */
  lemma RemovedIsGone(tabs: map<int, TabState>, order: seq<int>, active: Option<int>, tabId: int)
    ensures tabId !in tabs - {tabId} && tabId !in Without(order, tabId)
    ensures (if active == Some(tabId) then None else active) != Some(tabId)
  {
  }

  /** The `chrome.windows.onFocusChanged` listener: the window counts as
      focused unless no window has the focus. */
  method OnFocusChanged(st: Background, windowId: int)
    modifies st`windowFocused
    ensures st.IsWindowFocused() <==> windowId != WINDOW_ID_NONE
  {
    st.SetWindowFocused(windowId != WINDOW_ID_NONE);
  }
}
