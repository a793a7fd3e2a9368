/** The URL helpers every generation of the blocker carries verbatim
    (`src/domain/blocking/url.ts`, `src/core/url.ts`, `src/shared/url.ts`):
    domain normalisation, exact-or-subdomain host matching, the first matching
    blocked domain, the YouTube Kids and Shorts tests, and the substring whitelist. */
module UrlMatch {
  import opened Base
  import opened Types

  // ---------------------------------------------------------------------------
  // normalizeDomain

  /** `.replace(/^www\./, "")`: one leading "www." goes. */
  function StripWww(h: string): (r: string)
    ensures StartsWith(h, "www.") ==> r == h[4..]
    ensures !StartsWith(h, "www.") ==> r == h
  {
    if StartsWith(h, "www.") then h[4..] else h
  }

  /** The string handed to `new URL`: "https://" is prefixed unless a scheme separator is present. */
  function Candidate(trimmed: string): (c: string)
    ensures Contains(c, "://")
  {
    if Contains(trimmed, "://") then trimmed
    else
      ContainsSlice("https://" + trimmed, 5, 8);
      "https://" + trimmed
  }

  /** `normalizeDomain(input)`: `None` for blank or unparseable input and for an empty host. */
  function NormalizeDomain(parse: UrlParser, input: string): (r: Option<string>)
    ensures Trim(input) == [] ==> r.None?
    ensures Trim(input) != [] && parse(Candidate(Lower(Trim(input)))).None? ==> r.None?
    ensures r.Some? ==> (parse(Candidate(Lower(Trim(input)))).Some?
                         && r.value == StripWww(Lower(parse(Candidate(Lower(Trim(input)))).value.hostname)))
    ensures r.Some? ==> r.value != [] && IsLowercase(r.value)
  {
    var trimmed := Lower(Trim(input));
    if trimmed == [] then None
    else
      match parse(Candidate(trimmed))
      case None => None
      case Some(url) =>
        var hostname := StripWww(Lower(url.hostname));
        if hostname == [] then None else Some(hostname)
  }

  /** A host the parser reads back unchanged is its own normal form when it is
      already lowercase, has no "www." to drop and no surrounding blanks. */
  lemma NormalizeKeepsNormalHost(parse: UrlParser, host: string)
    requires host != [] && IsLowercase(host) && !StartsWith(host, "www.") && !Contains(host, "://")
    requires !IsSpace(host[0]) && !IsSpace(host[|host| - 1])
    requires parse("https://" + host).Some? && parse("https://" + host).value.hostname == host
    ensures NormalizeDomain(parse, host) == Some(host)
  {
    TrimOfTrimmed(host);
    LowerOfLowercase(host);
  }

  /** Normalising twice changes nothing, for a parser that reads a bare lowercase host back. */
  lemma NormalizeIdempotent(parse: UrlParser, input: string)
    requires NormalizeDomain(parse, input).Some?
    requires var h := NormalizeDomain(parse, input).value;
      !StartsWith(h, "www.") && !Contains(h, "://") && !IsSpace(h[0]) && !IsSpace(h[|h| - 1])
      && parse("https://" + h).Some? && parse("https://" + h).value.hostname == h
    ensures NormalizeDomain(parse, NormalizeDomain(parse, input).value) == NormalizeDomain(parse, input)
  {
    NormalizeKeepsNormalHost(parse, NormalizeDomain(parse, input).value);
  }

  // ---------------------------------------------------------------------------
  // Host matching

  /** `hostnameMatches`: the host is the domain or one of its subdomains. */
  predicate HostnameMatches(hostname: string, domain: string)
  {
    hostname == domain || EndsWith(hostname, "." + domain)
  }

  /** A match is the whole host or a suffix starting right after a dot, so
      "notyoutube.com" does not match "youtube.com". */
  lemma HostnameMatchesAtLabel(hostname: string, domain: string)
    ensures HostnameMatches(hostname, domain) <==>
      hostname == domain
      || (|hostname| > |domain| && hostname[|hostname| - |domain| - 1] == '.'
          && hostname[|hostname| - |domain|..] == domain)
  {
    var n, k := |hostname|, |domain|;
    if n > k && hostname[n - k - 1] == '.' && hostname[n - k..] == domain {
      assert hostname[n - k - 1..] == "." + domain;
    }
    if EndsWith(hostname, "." + domain) {
      assert hostname[n - k - 1..][1..] == hostname[n - k..];
    }
  }

  /** Every host under a domain matches it. */
  lemma SubdomainMatches(sub: string, domain: string)
    ensures HostnameMatches(sub + "." + domain, domain)
  {
    assert (sub + "." + domain)[|sub|..] == "." + domain;
  }

  /** A host that ends with the domain's text glued to a letter other than a dot does not match. */
  lemma GluedLabelDoesNotMatch(prefix: string, domain: string)
    requires |prefix| > 0 && prefix[|prefix| - 1] != '.'
    ensures !HostnameMatches(prefix + domain, domain)
  {
    HostnameMatchesAtLabel(prefix + domain, domain);
    assert (prefix + domain)[|prefix| - 1] == prefix[|prefix| - 1];
  }

  /** The index of the first blocked domain matching `hostname`. */
  function FirstMatch(hostname: string, domains: seq<string>): (r: Option<nat>)
    ensures r.Some? ==> (r.value < |domains| && HostnameMatches(hostname, domains[r.value])
                         && forall j :: 0 <= j < r.value ==> !HostnameMatches(hostname, domains[j]))
    ensures r.None? <==> forall j :: 0 <= j < |domains| ==> !HostnameMatches(hostname, domains[j])
  {
    if |domains| == 0 then None
    else if HostnameMatches(hostname, domains[0]) then Some(0)
    else
      match FirstMatch(hostname, domains[1..])
      case None => None
      case Some(k) => Some(k + 1)
  }

  /** `matchDomain`: `find(...) || null`, so a matching empty domain also yields `null`. */
  function MatchDomain(hostname: string, domains: seq<string>): (r: Option<string>)
    ensures r.Some? ==> r.value != [] && r.value in domains && HostnameMatches(hostname, r.value)
    ensures r.Some? ==> r == Some(domains[FirstMatch(hostname, domains).value])
    ensures r.None? <==> FirstMatch(hostname, domains).None? || domains[FirstMatch(hostname, domains).value] == []
  {
    match FirstMatch(hostname, domains)
    case None => None
    case Some(i) => if domains[i] == [] then None else Some(domains[i])
  }

  /** `blockedDomains.some(d => hostnameMatches(hostname, d))`. */
  predicate AnyMatch(hostname: string, domains: seq<string>)
  {
    exists j :: 0 <= j < |domains| && HostnameMatches(hostname, domains[j])
  }

  /** With no empty entry in the list, a domain is found exactly when some domain matches. */
  lemma MatchDomainFindsAny(hostname: string, domains: seq<string>)
    requires forall j :: 0 <= j < |domains| ==> domains[j] != []
    ensures MatchDomain(hostname, domains).Some? <==> AnyMatch(hostname, domains)
  {
  }

  /** No non-empty domain matches the empty host. */
  lemma EmptyHostMatchesNothing(domains: seq<string>)
    requires forall j :: 0 <= j < |domains| ==> domains[j] != []
    ensures !AnyMatch([], domains)
  {
  }

  /** `isTargetUrl`: false on a parse failure, else whether a blocked domain matches the lowercased host. */
  function IsTargetUrl(parse: UrlParser, url: string, domains: seq<string>): (r: bool)
    ensures r <==> parse(url).Some? && AnyMatch(Lower(parse(url).value.hostname), domains)
  {
    match parse(url)
    case None => false
    case Some(u) => FirstMatch(Lower(u.hostname), domains).Some?
  }

  // ---------------------------------------------------------------------------
  // Kids, Shorts and the whitelist

  const KIDS_HOST: string := "youtubekids.com"

  /** `isKidsDomain`: youtubekids.com or one of its subdomains, as the parser reports the host. */
  function IsKidsDomain(parse: UrlParser, url: string): (r: bool)
    ensures r <==> parse(url).Some? && HostnameMatches(parse(url).value.hostname, KIDS_HOST)
  {
    match parse(url)
    case None => false
    case Some(u) => u.hostname == "youtubekids.com" || EndsWith(u.hostname, ".youtubekids.com")
  }

  /** `isShortsUrl`: the path contains "/shorts/". */
  function IsShortsUrl(parse: UrlParser, url: string): (r: bool)
    ensures r <==> parse(url).Some? && Contains(parse(url).value.pathname, "/shorts/")
  {
    match parse(url)
    case None => false
    case Some(u) => Contains(u.pathname, "/shorts/")
  }

  /** One whitelist entry against the lowercased URL. */
  predicate EntryMatches(normalizedUrl: string, entryRaw: string)
  {
    var entry := Lower(Trim(entryRaw));
    if entry == [] then false
    else if StartsWith(entry, "@") then Contains(normalizedUrl, "/@" + entry[1..])
    else Contains(normalizedUrl, entry)
  }

  /** An "@name" entry is looked for as "/@name" in the URL; any other non-blank
      entry as a plain substring. */
  lemma EntryMatchesMeaning(normalizedUrl: string, entryRaw: string)
    ensures var entry := Lower(Trim(entryRaw));
      EntryMatches(normalizedUrl, entryRaw) <==>
        entry != [] && (if entry[0] == '@' then Contains(normalizedUrl, "/" + entry) else Contains(normalizedUrl, entry))
  {
    var entry := Lower(Trim(entryRaw));
    if entry != [] && entry[0] == '@' {
      assert "/@" + entry[1..] == "/" + entry;
    }
  }

  /** `isWhitelisted`: `whitelist.some(...)` over the lowercased URL. */
  function IsWhitelisted(url: string, whitelist: seq<string>): bool
  {
    AnyEntryMatches(Lower(url), whitelist)
  }

  function AnyEntryMatches(normalizedUrl: string, whitelist: seq<string>): bool
  {
    AnyOf(entry => EntryMatches(normalizedUrl, entry), whitelist)
  }

  /** The whitelist admits a URL exactly when one of its entries matches it. */
  lemma AnyEntryMatchesSome(normalizedUrl: string, whitelist: seq<string>)
    ensures AnyEntryMatches(normalizedUrl, whitelist) <==>
      exists j :: 0 <= j < |whitelist| && EntryMatches(normalizedUrl, whitelist[j])
  {
    AnyOfSome(entry => EntryMatches(normalizedUrl, entry), whitelist);
  }

  /** One matching entry is enough to admit the URL. */
  lemma MatchingEntryAdmits(normalizedUrl: string, whitelist: seq<string>, j: int)
    requires 0 <= j < |whitelist| && EntryMatches(normalizedUrl, whitelist[j])
    ensures AnyEntryMatches(normalizedUrl, whitelist)
  {
    AnyOfAt(entry => EntryMatches(normalizedUrl, entry), whitelist, j);
  }

  /** A blank entry matches nothing. */
  lemma BlankEntryNeverMatches(normalizedUrl: string, blank: string)
    requires Trim(blank) == []
    ensures !EntryMatches(normalizedUrl, blank)
  {
  }

  /** Blank entries never whitelist anything, wherever they sit in the list. */
  lemma BlankEntriesIgnored(normalizedUrl: string, before: seq<string>, blank: string, after: seq<string>)
    requires Trim(blank) == []
    ensures AnyEntryMatches(normalizedUrl, before + [blank] + after) == AnyEntryMatches(normalizedUrl, before + after)
  {
    BlankEntryNeverMatches(normalizedUrl, blank);
    AnyOfSkip(entry => EntryMatches(normalizedUrl, entry), before, blank, after);
  }
}
