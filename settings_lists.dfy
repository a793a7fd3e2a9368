/** The whitelist and blocked-domain editors of the dashboard
    (`src/ui/dashboard/main.tsx`) and of the options page
    (`src/ui/options/Options.tsx`), which carry the same code: which
    whitelist entries are accepted, adding without duplicates, removing every
    equal entry, and adding a domain only after the host permission is
    granted. The permission prompt's answer is an input. */
module SettingsLists {
  import opened Base
  import opened Types
  import opened UrlMatch
  import YouTubeWhitelist

  // ---------------------------------------------------------------------------
  // Whitelist entries

  /** `isWhitelistValid(value)`: an "@handle" with at least one character
      after the "@", or anything mentioning youtube.com or youtu.be. */
  predicate IsWhitelistValid(value: string)
  {
    var trimmed := Trim(value);
    if StartsWith(trimmed, "@") then |trimmed| > 1
    else Contains(trimmed, "youtube.com") || Contains(trimmed, "youtu.be")
  }

  /** A string is at least as long as any string it contains. */
  lemma ContainsLength(s: string, sub: string)
    requires Contains(s, sub)
    ensures |sub| <= |s|
  {
    ContainsAt(s, sub);
  }

  /** An accepted entry is never one of the blank entries `isWhitelisted`
      skips, so it always takes part in matching. */
  lemma ValidEntryNotBlank(value: string)
    requires IsWhitelistValid(value)
    ensures Lower(Trim(value)) != []
  {
    var trimmed := Trim(value);
    if !StartsWith(trimmed, "@") {
      if Contains(trimmed, "youtube.com") {
        ContainsLength(trimmed, "youtube.com");
      } else {
        ContainsLength(trimmed, "youtu.be");
      }
    }
  }

  /** An accepted "@handle" entry lets that channel's watch pages through:
      the channel URL of its lowercased handle is whitelisted by it. */
  lemma ValidHandleEntryAdmitsChannel(value: string)
    requires IsWhitelistValid(value) && StartsWith(Trim(value), "@")
    ensures var handle := Lower(Trim(value))[1..];
      handle != [] && IsWhitelisted(YouTubeWhitelist.ChannelUrl(handle), [value])
  {
    var entry := Lower(Trim(value));
    var handle := entry[1..];
    assert entry[0] == LowerChar(Trim(value)[0]) == '@';
    assert entry == "@" + handle;
    YouTubeWhitelist.ChannelUrlAdmittedByAtEntry(handle, [value], 0);
  }

  /** What an add button does to a list: nothing for blank input, a message
      for input it refuses, or a new list. */
  datatype ListEdit = Ignored | Rejected | Updated(next: seq<string>)

  /** `addWhitelist()` with the text in the input box. */
  function AddWhitelist(whitelist: seq<string>, input: string): ListEdit
  {
    var value := Trim(input);
    if value == [] then Ignored
    else if !IsWhitelistValid(value) then Rejected
    else Updated(Dedup(whitelist + [value]))
  }

  /** Blank input is ignored and invalid input refused; otherwise the trimmed
      entry is added unless already listed, every listed entry is kept, and
      the new list has no repeats. */
  lemma AddWhitelistMeaning(whitelist: seq<string>, input: string)
    ensures var r := AddWhitelist(whitelist, input);
      (r.Ignored? <==> Trim(input) == [])
      && (r.Rejected? <==> Trim(input) != [] && !IsWhitelistValid(Trim(input)))
      && (r.Updated? ==>
            IsWhitelistValid(Trim(input)) && Distinct(r.next)
            && (forall x :: x in r.next <==> x in whitelist || x == Trim(input))
            && (Distinct(whitelist) ==> r.next == if Trim(input) in whitelist then whitelist else whitelist + [Trim(input)]))
  {
    var value := Trim(input);
    TrimOfTrimmed(value);
    if Distinct(whitelist) {
      DedupAppend(whitelist, value);
    }
  }

  // ---------------------------------------------------------------------------
  // Removing

  /** `list.filter((entry) => entry !== value)` keeps the order of what is
      left: it distributes over concatenation. */
  lemma {:induction false} WithoutAppend(a: seq<string>, b: seq<string>, v: string)
    ensures Without(a + b, v) == Without(a, v) + Without(b, v)
    decreases |a|
  {
    if |a| > 0 {
      WithoutAppend(a[1..], b, v);
      assert (a + b)[0] == a[0] && (a + b)[1..] == a[1..] + b;
    } else {
      assert a + b == b;
    }
  }

  /** Removing an entry (`removeWhitelist`, `removeBlockedDomain`) drops
      every equal entry, keeps every other one, and changes nothing when the
      entry is absent; removing again changes nothing. */
  lemma RemoveEntryMeaning(list: seq<string>, value: string)
    ensures forall x :: x in Without(list, value) <==> x in list && x != value
    ensures value !in list ==> Without(list, value) == list
    ensures Without(Without(list, value), value) == Without(list, value)
  {
    WithoutIdempotent(list, value);
  }

  // ---------------------------------------------------------------------------
  // Blocked domains

  /** What `addBlockedDomain()` ends with. */
  datatype DomainEdit = InvalidDomain | AlreadyListed | PermissionDenied | DomainAdded(next: seq<string>)
  {
    /** Whether the host permission was requested on the way. */
    predicate AskedPermission()
    {
      PermissionDenied? || DomainAdded?
    }
  }

  /** `addBlockedDomain()` with the text in the input box and the answer
      `requestDomainPermission` would give. */
  function AddBlockedDomain(parse: UrlParser, domains: seq<string>, input: string, granted: bool): DomainEdit
  {
    match NormalizeDomain(parse, input)
    case None => InvalidDomain
    case Some(domain) =>
      if domain in domains then AlreadyListed
      else if !granted then PermissionDenied
      else DomainAdded(Dedup(domains + [domain]))
  }

  /** Input that does not normalise, or a domain already listed, is refused
      before the permission is asked for; a new domain is appended once the
      permission is granted, and the list is otherwise kept as it was. */
  lemma AddBlockedDomainMeaning(parse: UrlParser, domains: seq<string>, input: string, granted: bool)
    ensures var r := AddBlockedDomain(parse, domains, input, granted);
      var d := NormalizeDomain(parse, input);
      (r.InvalidDomain? <==> d.None?)
      && (r.AlreadyListed? <==> d.Some? && d.value in domains)
      && (r.AskedPermission() <==> d.Some? && d.value !in domains)
      && (r.DomainAdded? <==> d.Some? && d.value !in domains && granted)
      && (r.DomainAdded? ==>
            (forall x :: x in r.next <==> x in domains || x == d.value) && Distinct(r.next)
            && (Distinct(domains) ==> r.next == domains + [d.value]))
  {
    var d := NormalizeDomain(parse, input);
    if d.Some? && Distinct(domains) {
      DedupAppend(domains, d.value);
    }
  }
}
