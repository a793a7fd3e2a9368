/** The registration of the blocking content script
    (`src/background/contentScripts.ts`): the match patterns built from the
    blocked domains, the calls `syncRegisteredContentScripts` makes to
    `chrome.scripting`, and the tabs `reinjectContentScriptIntoOpenTabs`
    injects into. The file's own `matchDomain` and `getHostname` are the same
    code as `UrlMatch.MatchDomain` and `BackgroundTabs.GetHostname`. */
module ContentScripts {
  import opened Base
  import opened Types
  import opened UrlMatch
  import opened BackgroundTabs

  /** `CONTENT_SCRIPT_ID`. */
  const CONTENT_SCRIPT_ID: string := "focustube-dynamic"
  /** The script file registered and injected. */
  const CONTENT_JS: string := "content.js"

  /** The pattern for the domain itself, on any scheme and path. */
  function ExactPattern(d: string): string
  {
    "*://" + d + "/*"
  }

  /** The pattern for the domain and its subdomains, on any scheme and path. */
  function SubdomainPattern(d: string): string
  {
    "*://*." + d + "/*"
  }

  /** `domains.flatMap((domain) => [exact, subdomain])`. */
  function Patterns(domains: seq<string>): seq<string>
    decreases |domains|
  {
    if |domains| == 0 then []
    else Patterns(domains[..|domains| - 1]) + [ExactPattern(domains[|domains| - 1]), SubdomainPattern(domains[|domains| - 1])]
  }

  /** The flat list has two patterns per domain, in list order: the exact
      pattern of domain `i` at `2i`, its subdomain pattern at `2i + 1`. */
  lemma {:induction false} PatternsShape(domains: seq<string>)
    ensures |Patterns(domains)| == 2 * |domains|
    ensures forall i :: 0 <= i < |domains| ==>
      Patterns(domains)[2 * i] == ExactPattern(domains[i]) && Patterns(domains)[2 * i + 1] == SubdomainPattern(domains[i])
    decreases |domains|
  {
    if |domains| > 0 {
      var init := domains[..|domains| - 1];
      PatternsShape(init);
      forall i | 0 <= i < |domains|
        ensures Patterns(domains)[2 * i] == ExactPattern(domains[i]) && Patterns(domains)[2 * i + 1] == SubdomainPattern(domains[i])
      {
        if i < |init| {
          assert domains[i] == init[i];
        }
      }
    }
  }

  /** A pattern is in the flat list exactly when it is one of the two
      patterns of a listed domain. */
  lemma PatternsMembers(domains: seq<string>, p: string)
    ensures p in Patterns(domains) <==>
      exists i :: 0 <= i < |domains| && (p == ExactPattern(domains[i]) || p == SubdomainPattern(domains[i]))
  {
    PatternsShape(domains);
    var ps := Patterns(domains);
    if p in ps {
      var k :| 0 <= k < |ps| && ps[k] == p;
      assert k == 2 * (k / 2) || k == 2 * (k / 2) + 1;
      assert p == ExactPattern(domains[k / 2]) || p == SubdomainPattern(domains[k / 2]);
    }
    if exists i :: 0 <= i < |domains| && (p == ExactPattern(domains[i]) || p == SubdomainPattern(domains[i])) {
      var i :| 0 <= i < |domains| && (p == ExactPattern(domains[i]) || p == SubdomainPattern(domains[i]));
      assert ps[2 * i] == ExactPattern(domains[i]) && ps[2 * i + 1] == SubdomainPattern(domains[i]);
    }
  }

  /** `buildMatches(domains)`: the flat list without repeats, first occurrences
      kept (`Array.from(new Set(...))`). */
  function BuildMatches(domains: seq<string>): (matches: seq<string>)
    ensures Distinct(matches)
    ensures |matches| == 0 <==> |domains| == 0
    ensures forall p :: p in matches <==> p in Patterns(domains)
  {
    PatternsShape(domains);
    assert |domains| > 0 ==> ExactPattern(domains[0]) in Patterns(domains);
    Dedup(Patterns(domains))
  }

  /** A domain that starts with `*.` makes its exact pattern equal another
      domain's subdomain pattern; the blocked domains never contain `*`. */
  predicate Starless(d: string)
  {
    forall k :: 0 <= k < |d| ==> d[k] != '*'
  }

  lemma PatternsInjective(a: string, b: string)
    requires Starless(a) && Starless(b)
    ensures ExactPattern(a) == ExactPattern(b) ==> a == b
    ensures SubdomainPattern(a) == SubdomainPattern(b) ==> a == b
    ensures ExactPattern(a) != SubdomainPattern(b)
  {
    if ExactPattern(a) == ExactPattern(b) {
      assert a == ExactPattern(a)[4..|ExactPattern(a)| - 2];
      assert b == ExactPattern(b)[4..|ExactPattern(b)| - 2];
    }
    if SubdomainPattern(a) == SubdomainPattern(b) {
      assert a == SubdomainPattern(a)[6..|SubdomainPattern(a)| - 2];
      assert b == SubdomainPattern(b)[6..|SubdomainPattern(b)| - 2];
    }
    assert ExactPattern(a)[4] == if |a| > 0 then a[0] else '/';
    assert SubdomainPattern(b)[4] == '*';
  }

  /** For distinct domains free of `*` nothing is dropped: the match list is
      the flat list itself, two patterns per domain in list order. */
  lemma BuildMatchesKeepsAll(domains: seq<string>)
    requires Distinct(domains)
    requires forall i :: 0 <= i < |domains| ==> Starless(domains[i])
    ensures BuildMatches(domains) == Patterns(domains)
    ensures |BuildMatches(domains)| == 2 * |domains|
  {
    PatternsShape(domains);
    var ps := Patterns(domains);
    forall j, k | 0 <= j < k < |ps|
      ensures ps[j] != ps[k]
    {
      var a, b := domains[j / 2], domains[k / 2];
      PatternsInjective(a, b);
      PatternsInjective(b, a);
      assert j == 2 * (j / 2) || j == 2 * (j / 2) + 1;
      assert k == 2 * (k / 2) || k == 2 * (k / 2) + 1;
      if j / 2 != k / 2 {
        assert a != b;
      }
    }
    DedupOfDistinct(ps);
  }

  /** A call to `chrome.scripting`. */
  datatype ScriptCall =
    | Unregister(ids: seq<string>)
    | Register(id: string, js: seq<string>, matches: seq<string>, runAt: string)
    | Execute(tabId: int, files: seq<string>)

  /** The one registration `syncRegisteredContentScripts` asks for. */
  function Registration(matches: seq<string>): ScriptCall
  {
    Register(CONTENT_SCRIPT_ID, [CONTENT_JS], matches, "document_start")
  }

  /** Whether a registration error is the duplicate-id one that is retried. */
  predicate IsDuplicateId(message: string)
  {
    Contains(message, "Duplicate script ID")
  }

  /** `syncRegisteredContentScripts(domains)`: `alreadyRegistered` is what
      `getRegisteredContentScripts` reported, `registerError` the message of
      the error the first registration throws (an error without a message
      reads as `""`), `retryError` that of the registration after a
      duplicate-id error. Returns the calls made, in order, and the error
      the function rejects with. */
  method SyncRegisteredContentScripts(domains: seq<string>, alreadyRegistered: bool,
                                      registerError: Option<string>, retryError: Option<string>)
    returns (calls: seq<ScriptCall>, thrown: Option<string>)
    ensures var matches := BuildMatches(domains);
      var stale := if alreadyRegistered then [Unregister([CONTENT_SCRIPT_ID])] else [];
      // nothing is registered for an empty list, and the function then succeeds
      && (|domains| == 0 ==> calls == stale && thrown.None?)
      // otherwise one registration with the match list, after dropping the stale one
      && (|domains| > 0 && registerError.None? ==> calls == stale + [Registration(matches)] && thrown.None?)
      // a duplicate id is retried once, after an unregister, and the retry's error is passed on
      && (|domains| > 0 && registerError.Some? && IsDuplicateId(registerError.value) ==>
            calls == stale + [Registration(matches), Unregister([CONTENT_SCRIPT_ID]), Registration(matches)]
            && thrown == retryError)
      // any other registration error is passed on after the single attempt
      && (|domains| > 0 && registerError.Some? && !IsDuplicateId(registerError.value) ==>
            calls == stale + [Registration(matches)] && thrown == registerError)
  {
    var matches := BuildMatches(domains);
    calls := [];
    thrown := None;
    if alreadyRegistered {
      calls := calls + [Unregister([CONTENT_SCRIPT_ID])];
    }
    if |matches| == 0 {
      return;
    }
    calls := calls + [Registration(matches)];
    if registerError.Some? {
      if IsDuplicateId(registerError.value) {
        calls := calls + [Unregister([CONTENT_SCRIPT_ID]), Registration(matches)];
        thrown := retryError;
      } else {
        thrown := registerError;
      }
    }
  }

  /** A tab as `chrome.tabs.query` reports it. */
  datatype Tab = Tab(id: Option<int>, url: Option<string>)

  /** The tab id the content script is injected into, if any: a tab is
      skipped for a missing or zero id, a missing or empty URL, a URL without
      a host, or a host no blocked domain matches. */
  function InjectTarget(parse: UrlParser, tab: Tab, domains: seq<string>): Option<int>
  {
    if tab.id.None? || tab.id.value == 0 || tab.url.None? || tab.url.value == "" then None
    else match GetHostname(parse, tab.url.value)
      case None => None
      case Some(host) =>
        if host == "" then None
        else if MatchDomain(host, domains).None? then None
        else tab.id
  }

  /** The list holding the value of an option, if any. */
  function ListOf(o: Option<int>): (xs: seq<int>)
    ensures |xs| <= 1 && (forall x :: x in xs <==> o == Some(x))
  {
    if o.Some? then [o.value] else []
  }

  /** The tabs injected into, in the order `chrome.tabs.query` lists them. */
  function InjectedTabs(parse: UrlParser, tabs: seq<Tab>, domains: seq<string>): seq<int>
    decreases |tabs|
  {
    if |tabs| == 0 then []
    else InjectedTabs(parse, tabs[..|tabs| - 1], domains) + ListOf(InjectTarget(parse, tabs[|tabs| - 1], domains))
  }

  /** A tab is injected into exactly when it has a non-zero id and the
      background worker would mark its URL as a target: reinjection and
      `updateTabTarget` agree on which tabs are on a blocked domain. */
  lemma InjectTargetMeaning(parse: UrlParser, tab: Tab, domains: seq<string>)
    ensures InjectTarget(parse, tab, domains).Some? <==>
      tab.id.Some? && tab.id.value != 0 && TargetDomain(parse, tab.url, domains).Some?
    ensures InjectTarget(parse, tab, domains).Some? ==> InjectTarget(parse, tab, domains) == tab.id
  {
  }

  /** An id is injected into exactly when a listed tab with that id passes
      every skip test; an empty domain list injects into nothing. */
  lemma {:induction false} InjectedTabsMembers(parse: UrlParser, tabs: seq<Tab>, domains: seq<string>, x: int)
    ensures x in InjectedTabs(parse, tabs, domains) <==>
      exists i :: 0 <= i < |tabs| && InjectTarget(parse, tabs[i], domains) == Some(x)
    ensures |InjectedTabs(parse, tabs, domains)| <= |tabs|
    decreases |tabs|
  {
    if |tabs| > 0 {
      var init, last := tabs[..|tabs| - 1], tabs[|tabs| - 1];
      var found := ListOf(InjectTarget(parse, last, domains));
      InjectedTabsMembers(parse, init, domains, x);
      assert InjectedTabs(parse, tabs, domains) == InjectedTabs(parse, init, domains) + found;
      assert x in InjectedTabs(parse, tabs, domains) <==> x in InjectedTabs(parse, init, domains) || x in found;
      assert forall i :: 0 <= i < |init| ==> tabs[i] == init[i];
    }
  }

  lemma {:induction false} NoDomainsNoInjection(parse: UrlParser, tabs: seq<Tab>)
    ensures InjectedTabs(parse, tabs, []) == []
    decreases |tabs|
  {
    if |tabs| > 0 {
      NoDomainsNoInjection(parse, tabs[..|tabs| - 1]);
    }
  }

  /** `reinjectContentScriptIntoOpenTabs(domains)` with the tabs
      `chrome.tabs.query({})` returns: `queried` is false when the function
      returns before asking for the tabs; `calls` are the `executeScript`
      calls made, whose failures are ignored. */
  method ReinjectContentScriptIntoOpenTabs(parse: UrlParser, domains: seq<string>, tabs: seq<Tab>)
    returns (queried: bool, calls: seq<ScriptCall>)
    ensures queried <==> |domains| > 0
    ensures |calls| == |InjectedTabs(parse, tabs, domains)|
    ensures forall k :: 0 <= k < |calls| ==> calls[k] == Execute(InjectedTabs(parse, tabs, domains)[k], [CONTENT_JS])
  {
    calls := [];
    queried := |domains| > 0;
    if !queried {
      NoDomainsNoInjection(parse, tabs);
      return;
    }
    var i := 0;
    while i < |tabs|
      invariant 0 <= i <= |tabs|
      invariant |calls| == |InjectedTabs(parse, tabs[..i], domains)|
      invariant forall k :: 0 <= k < |calls| ==> calls[k] == Execute(InjectedTabs(parse, tabs[..i], domains)[k], [CONTENT_JS])
    {
      assert tabs[..i + 1][..i] == tabs[..i];
      var tab := tabs[i];
      if tab.id.None? || tab.id.value == 0 || tab.url.None? || tab.url.value == "" {
        i := i + 1;
        continue;
      }
      var hostname := GetHostname(parse, tab.url.value);
      if hostname.None? || hostname.value == "" {
        i := i + 1;
        continue;
      }
      var domain := MatchDomain(hostname.value, domains);
      if domain.None? {
        i := i + 1;
        continue;
      }
      calls := calls + [Execute(tab.id.value, [CONTENT_JS])];
      i := i + 1;
    }
    assert tabs[..|tabs|] == tabs;
  }
}
