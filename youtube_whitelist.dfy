/** The exception for whitelisted YouTube channels
    (`src/content/youtubeWhitelist.ts`): which pages are watch pages, how a
    channel handle is read from a link, and in what order the page URL, the
    channel handle and the `ab_channel` query parameter can let a blocked
    watch page through. The handle found in the page is an input. */
module YouTubeWhitelist {
  import opened Base
  import opened Types
  import opened UrlMatch

  // ---------------------------------------------------------------------------
  // Watch pages

  /** `isYouTubeWatchUrl`: a youtube.com host (or subdomain) and the path
      `/watch`; false when the URL does not parse. */
  function IsYouTubeWatchUrl(parse: UrlParser, url: string): bool
  {
    match parse(url)
    case None => false
    case Some(u) =>
      var host := Lower(u.hostname);
      if host != "youtube.com" && !EndsWith(host, ".youtube.com") then false
      else u.pathname == "/watch"
  }

  /** A watch page is exactly a parsed URL whose lowercased host is
      youtube.com or a subdomain of it, and whose path is exactly `/watch`. */
  lemma WatchUrlMeaning(parse: UrlParser, url: string)
    ensures IsYouTubeWatchUrl(parse, url) <==>
      parse(url).Some? && HostnameMatches(Lower(parse(url).value.hostname), "youtube.com")
      && parse(url).value.pathname == "/watch"
  {
    assert "." + "youtube.com" == ".youtube.com";
  }

  // ---------------------------------------------------------------------------
  // Handles

  /** The characters `split(/[/?#]/)` cuts at. */
  predicate IsSeparator(c: char)
  {
    c == '/' || c == '?' || c == '#'
  }

  predicate NoSeparator(s: string)
  {
    forall k :: 0 <= k < |s| ==> !IsSeparator(s[k])
  }

  /** `s.split(/[/?#]/)[0]`: the text before the first separator. */
  function UpToSeparator(s: string): (r: string)
    ensures |r| <= |s| && r == s[..|r|] && NoSeparator(r)
    ensures |r| < |s| ==> IsSeparator(s[|r|])
    decreases |s|
  {
    if |s| == 0 || IsSeparator(s[0]) then [] else [s[0]] + UpToSeparator(s[1..])
  }

  /** The characters of the fallback pattern `[a-zA-Z0-9._-]`. */
  predicate IsHandleChar(c: char)
  {
    ('a' <= c <= 'z') || ('A' <= c <= 'Z') || ('0' <= c <= '9') || c == '.' || c == '_' || c == '-'
  }

  predicate AllHandleChars(s: string)
  {
    forall k :: 0 <= k < |s| ==> IsHandleChar(s[k])
  }

  /** The greedy `[a-zA-Z0-9._-]+` run at the start of `s`. */
  function HandleRun(s: string): (r: string)
    ensures |r| <= |s| && r == s[..|r|] && AllHandleChars(r)
    ensures |r| < |s| ==> !IsHandleChar(s[|r|])
    decreases |s|
  {
    if |s| == 0 || !IsHandleChar(s[0]) then [] else [s[0]] + HandleRun(s[1..])
  }

  /** `s.match(/\/\@([a-zA-Z0-9._-]+)/)?.[1]`: the leftmost "/@" followed by
      at least one handle character, and the longest run of them. */
  function RegexHandle(s: string): (r: Option<string>)
    ensures r.Some? ==> r.value != [] && AllHandleChars(r.value) && Contains(s, "/@" + r.value)
    decreases |s|
  {
    if |s| < 3 then None
    else if s[0] == '/' && s[1] == '@' && IsHandleChar(s[2]) then
      var h := HandleRun(s[2..]);
      assert s[..|h| + 2] == "/@" + h;
      Some(h)
    else
      var r := RegexHandle(s[1..]);
      assert r.Some? ==> Contains(s, "/@" + r.value);
      r
  }

  /** The handle in a parsed link's path: the text after the first "/@", cut
      at the first separator, lowercased; none if there is no "/@" or the
      text is empty. */
  function HandleInPath(path: string): Option<string>
  {
    match IndexOf(path, "/@")
    case None => None
    case Some(idx) =>
      var h := UpToSeparator(path[idx + 2..]);
      if h == [] then None else Some(Lower(h))
  }

  /** `extractHandleFromHref(href)`. `parse` is `new URL(href)` for an
      absolute link (one starting "http"); `resolve` is
      `new URL(href, window.location.origin)` for any other. When parsing
      throws, the fallback pattern is applied to the raw link. */
  function ExtractHandleFromHref(parse: UrlParser, resolve: UrlParser, href: string): Option<string>
  {
    if href == [] then None
    else
      var u := if StartsWith(href, "http") then parse(href) else resolve(href);
      match u
      case Some(url) => HandleInPath(url.pathname)
      case None =>
        match RegexHandle(href)
        case None => None
        case Some(h) => Some(Lower(h))
  }

  /** Lowercasing a string without separators leaves it without separators. */
  lemma LowerNoSeparator(s: string)
    requires NoSeparator(s)
    ensures NoSeparator(Lower(s))
  {
  }

  /** Whichever way a handle is found, it is non-empty, lowercase, and free
      of "/", "?" and "#". */
  lemma ExtractedHandleShape(parse: UrlParser, resolve: UrlParser, href: string)
    ensures var r := ExtractHandleFromHref(parse, resolve, href);
      r.Some? ==> r.value != [] && IsLowercase(r.value) && NoSeparator(r.value)
    ensures href == [] ==> ExtractHandleFromHref(parse, resolve, href).None?
  {
    var u := if StartsWith(href, "http") then parse(href) else resolve(href);
    if href != [] {
      if u.Some? {
        var path := u.value.pathname;
        if IndexOf(path, "/@").Some? {
          LowerNoSeparator(UpToSeparator(path[IndexOf(path, "/@").value + 2..]));
        }
      } else if RegexHandle(href).Some? {
        var h := RegexHandle(href).value;
        assert NoSeparator(h) by {
          forall k | 0 <= k < |h| ensures !IsSeparator(h[k]) {
            assert IsHandleChar(h[k]);
          }
        }
        LowerNoSeparator(h);
      }
    }
  }

  /** A channel link's path `/@name` (optionally followed by more path, a
      query or a fragment) yields the lowercased name. */
  lemma HandleFromChannelPath(name: string, tail: string)
    requires name != [] && NoSeparator(name)
    requires tail == [] || IsSeparator(tail[0])
    ensures HandleInPath("/@" + name + tail) == Some(Lower(name))
  {
    var path := "/@" + name + tail;
    assert StartsWith(path, "/@");
    assert path[2..] == name + tail;
    UpToSeparatorPrefix(name, tail);
  }

  lemma {:induction false} UpToSeparatorPrefix(name: string, tail: string)
    requires NoSeparator(name)
    requires tail == [] || IsSeparator(tail[0])
    ensures UpToSeparator(name + tail) == name
    decreases |name|
  {
    if |name| > 0 {
      UpToSeparatorPrefix(name[1..], tail);
      assert (name + tail)[1..] == name[1..] + tail;
    }
  }

  /** The fallback pattern reads the same name from a raw `/@name` link
      whose name is made of handle characters. */
  lemma {:induction false} RegexHandleOfChannelHref(name: string, tail: string)
    requires name != [] && AllHandleChars(name)
    requires tail == [] || !IsHandleChar(tail[0])
    ensures RegexHandle("/@" + name + tail) == Some(name)
  {
    var s := "/@" + name + tail;
    assert s[2..] == name + tail;
    HandleRunPrefix(name, tail);
  }

  lemma {:induction false} HandleRunPrefix(name: string, tail: string)
    requires AllHandleChars(name)
    requires tail == [] || !IsHandleChar(tail[0])
    ensures HandleRun(name + tail) == name
    decreases |name|
  {
    if |name| > 0 {
      HandleRunPrefix(name[1..], tail);
      assert (name + tail)[1..] == name[1..] + tail;
    }
  }

  // ---------------------------------------------------------------------------
  // The ab_channel fallback

  /** `searchParams.get(name)`: the first value under that name. */
  function QueryGet(search: seq<(string, string)>, name: string): (r: Option<string>)
    ensures r.Some? <==> exists k :: 0 <= k < |search| && search[k].0 == name
    decreases |search|
  {
    if |search| == 0 then None
    else if search[0].0 == name then Some(search[0].1)
    else
      var r := QueryGet(search[1..], name);
      assert forall k :: 1 <= k < |search| ==> search[k] == search[1..][k - 1];
      r
  }

  /** The value read is that of the first pair with the name. */
  lemma {:induction false} QueryGetFirst(search: seq<(string, string)>, name: string)
    ensures QueryGet(search, name).Some? ==>
      exists k :: 0 <= k < |search| && search[k] == (name, QueryGet(search, name).value)
        && forall j :: 0 <= j < k ==> search[j].0 != name
    decreases |search|
  {
    if |search| > 0 && search[0].0 != name {
      QueryGetFirst(search[1..], name);
      if QueryGet(search, name).Some? {
        var k :| 0 <= k < |search[1..]| && search[1..][k] == (name, QueryGet(search, name).value)
          && forall j :: 0 <= j < k ==> search[1..][j].0 != name;
        assert search[k + 1] == search[1..][k];
        assert forall j :: 1 <= j < k + 1 ==> search[j] == search[1..][j - 1];
      }
    } else if |search| > 0 {
      assert search[0] == (name, QueryGet(search, name).value);
    }
  }

  /** One whitelist entry against the normalised `ab_channel` value. */
  predicate AbEntryMatches(abNorm: string, entryRaw: string)
  {
    var entry := Lower(Trim(entryRaw));
    if entry == [] then false
    else if StartsWith(entry, "@") then entry[1..] == abNorm
    else entry == abNorm
  }

  /** An "@name" entry matches the value "name"; any other non-blank entry
      must equal the value. */
  lemma AbEntryMatchesMeaning(abNorm: string, entryRaw: string)
    ensures var entry := Lower(Trim(entryRaw));
      AbEntryMatches(abNorm, entryRaw) <==>
        entry == "@" + abNorm || (entry == abNorm && entry != [] && entry[0] != '@')
  {
    var entry := Lower(Trim(entryRaw));
    if entry != [] && entry[0] == '@' {
      assert entry == "@" + entry[1..];
    }
  }

  /** `whitelist.some(...)` of the fallback. */
  function AnyAbMatch(abNorm: string, whitelist: seq<string>): bool
  {
    AnyOf(entry => AbEntryMatches(abNorm, entry), whitelist)
  }

  /** The fallback hits exactly when one entry matches the value. */
  lemma AnyAbMatchSome(abNorm: string, whitelist: seq<string>)
    ensures AnyAbMatch(abNorm, whitelist) <==> exists j :: 0 <= j < |whitelist| && AbEntryMatches(abNorm, whitelist[j])
  {
    AnyOfSome(entry => AbEntryMatches(abNorm, entry), whitelist);
  }

  /** The fallback: the page URL carries a non-empty `ab_channel` whose
      trimmed, lowercased value some entry matches. */
  predicate AbChannelHit(parse: UrlParser, href: string, whitelist: seq<string>)
  {
    match parse(href)
    case None => false
    case Some(u) =>
      match QueryGet(u.search, "ab_channel")
      case None => false
      case Some(ab) => ab != [] && AnyAbMatch(Lower(Trim(ab)), whitelist)
  }

  // ---------------------------------------------------------------------------
  // The decision

  /** The channel page URL a handle is checked as. */
  function ChannelUrl(handle: string): string
  {
    "https://www.youtube.com/@" + handle
  }

  /** Which step of `allowWhitelistedYouTubeWatchIfPossible` decided. */
  datatype Verdict = NotWatch | PageWhitelisted | ChannelWhitelisted | AbChannelWhitelisted | NotWhitelisted
  {
    predicate Allowed()
    {
      PageWhitelisted? || ChannelWhitelisted? || AbChannelWhitelisted?
    }
  }

  /** `allowWhitelistedYouTubeWatchIfPossible()` on the page `href` with the
      stored whitelist and the handle `waitForYouTubeHandle` found (`None`
      when the lookup timed out). */
  function AllowVerdict(parse: UrlParser, href: string, whitelist: seq<string>, handle: Option<string>): Verdict
  {
    if !IsYouTubeWatchUrl(parse, href) then NotWatch
    else if IsWhitelisted(href, whitelist) then PageWhitelisted
    else if handle.Some? && handle.value != [] && IsWhitelisted(ChannelUrl(handle.value), whitelist) then ChannelWhitelisted
    else if AbChannelHit(parse, href, whitelist) then AbChannelWhitelisted
    else NotWhitelisted
  }

  /** A watch page is let through exactly when the page URL, the channel
      URL of a found handle, or the `ab_channel` value is whitelisted; any
      other page never is. */
  lemma AllowedMeaning(parse: UrlParser, href: string, whitelist: seq<string>, handle: Option<string>)
    ensures AllowVerdict(parse, href, whitelist, handle).Allowed() <==>
      IsYouTubeWatchUrl(parse, href)
      && (IsWhitelisted(href, whitelist)
          || (handle.Some? && handle.value != [] && IsWhitelisted(ChannelUrl(handle.value), whitelist))
          || AbChannelHit(parse, href, whitelist))
  {
  }

  /** The first two checks come before the handle lookup: their outcome does
      not depend on the handle. */
  lemma DecidedBeforeLookup(parse: UrlParser, href: string, whitelist: seq<string>, h1: Option<string>, h2: Option<string>)
    requires !IsYouTubeWatchUrl(parse, href) || IsWhitelisted(href, whitelist)
    ensures AllowVerdict(parse, href, whitelist, h1) == AllowVerdict(parse, href, whitelist, h2)
    ensures AllowVerdict(parse, href, whitelist, h1) == if IsYouTubeWatchUrl(parse, href) then PageWhitelisted else NotWatch
  {
  }

  /** A handle found for a watch page that is not itself whitelisted lets it
      through by the channel rule exactly when its channel URL is
      whitelisted; without a handle only the `ab_channel` rule remains. */
  lemma ChannelRule(parse: UrlParser, href: string, whitelist: seq<string>, handle: Option<string>)
    requires IsYouTubeWatchUrl(parse, href) && !IsWhitelisted(href, whitelist)
    ensures handle.Some? && handle.value != [] ==>
      (AllowVerdict(parse, href, whitelist, handle) == ChannelWhitelisted <==> IsWhitelisted(ChannelUrl(handle.value), whitelist))
    ensures handle.None? ==>
      (AllowVerdict(parse, href, whitelist, handle).Allowed() <==> AbChannelHit(parse, href, whitelist))
  {
  }

  /** A lowercase handle is admitted by an "@handle" entry of the whitelist,
      whatever surrounding whitespace or case the entry was stored with. */
  lemma ChannelUrlAdmittedByAtEntry(handle: string, whitelist: seq<string>, j: int)
    requires handle != [] && IsLowercase(handle)
    requires 0 <= j < |whitelist| && Lower(Trim(whitelist[j])) == "@" + handle
    ensures IsWhitelisted(ChannelUrl(handle), whitelist)
  {
    var prefix := "https://www.youtube.com";
    var url := ChannelUrl(handle);
    assert url == prefix + ("/@" + handle);
    assert IsLowercase(url);
    LowerOfLowercase(url);
    assert url[|prefix|..|url|] == "/@" + handle;
    ContainsSlice(url, |prefix|, |url|);
    var entry := Lower(Trim(whitelist[j]));
    assert entry[..1] == "@" && entry[1..] == handle;
    assert Contains(Lower(url), "/@" + entry[1..]);
    assert EntryMatches(Lower(url), whitelist[j]);
    MatchingEntryAdmits(Lower(url), whitelist, j);
  }
}
