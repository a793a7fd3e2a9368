/** The blocking decision of the latest generation (`src/domain/blocking/url.ts`):
    a URL is a target when its host matches a blocked domain; the whitelist is
    consulted next, then the tags of the matched domain choose the policy —
    "intervalos" (temporary unblock, Kids, Shorts, schedule), "por_semana"
    (blocked unless a weekly session runs), or, for a tag list holding neither,
    the legacy chain. */
module DomainBlocking {
  import opened Base
  import opened Types
  import opened UrlMatch
  import opened DomainTags
  import CoreSchedule
  import CoreUrl
  import DomainWeekly
  import I18n

  const NOT_TARGET: BlockDecision := BlockDecision(false, Some(NotTarget))
  const UNBLOCKED: BlockDecision := BlockDecision(false, None)

  function BlockedFor(reason: BlockReason): BlockDecision
  {
    BlockDecision(true, Some(reason))
  }

  /** The reasons a blocking decision of this generation can carry. */
  predicate BlockingReason(reason: BlockReason)
  {
    reason == Manual || reason == Kids || reason == Shorts || reason == Schedule || reason == MissingTag
  }

  /** `getDomainTags`: `blockedDomainTags[domain] ?? []`. */
  function GetDomainTags(s: Settings, domain: string): (tags: seq<string>)
    ensures domain !in s.blockedDomainTags ==> tags == []
  {
    if domain in s.blockedDomainTags then s.blockedDomainTags[domain] else []
  }

  /** The blocked domain the URL's lowercased host falls under (lines 83-90): none when
      the URL does not parse or the host is empty. */
  function MatchedDomain(parse: UrlParser, url: string, s: Settings): (r: Option<string>)
    ensures r.Some? ==> (parse(url).Some? && r.value in s.blockedDomains
                         && HostnameMatches(Lower(parse(url).value.hostname), r.value))
  {
    match parse(url)
    case None => None
    case Some(u) =>
      var hostname := Lower(u.hostname);
      if hostname == [] then None else MatchDomain(hostname, s.blockedDomains)
  }

  /** The "intervalos" policy: temporary unblock, then Kids, Shorts and the schedule. */
  function IntervalPolicy(parse: UrlParser, url: string, s: Settings, now: int): (r: BlockDecision)
    ensures TemporaryUnblockActive(s.strictMode, s.unblockUntil, now) ==> r == UNBLOCKED
    ensures !TemporaryUnblockActive(s.strictMode, s.unblockUntil, now) && s.blockKids && IsKidsDomain(parse, url)
      ==> r == BlockedFor(Kids)
    ensures (!TemporaryUnblockActive(s.strictMode, s.unblockUntil, now) && !(s.blockKids && IsKidsDomain(parse, url))
      && s.blockShorts && IsShortsUrl(parse, url)) ==> r == BlockedFor(Shorts)
    ensures !TemporaryUnblockActive(s.strictMode, s.unblockUntil, now) && !(s.blockKids && IsKidsDomain(parse, url))
      && !(s.blockShorts && IsShortsUrl(parse, url)) && CoreSchedule.IsWithinBlockedSchedule(now, s.intervalsByDay)
      ==> r == BlockedFor(Schedule)
    ensures r.blocked <==> (!TemporaryUnblockActive(s.strictMode, s.unblockUntil, now)
                            && ((s.blockKids && IsKidsDomain(parse, url)) || (s.blockShorts && IsShortsUrl(parse, url))
                                || CoreSchedule.IsWithinBlockedSchedule(now, s.intervalsByDay)))
    ensures r == UNBLOCKED || r == BlockedFor(Kids) || r == BlockedFor(Shorts) || r == BlockedFor(Schedule)
  {
    if !s.strictMode && IsSet(s.unblockUntil) && now < s.unblockUntil.value then UNBLOCKED
    else if s.blockKids && IsKidsDomain(parse, url) then BlockedFor(Kids)
    else if s.blockShorts && IsShortsUrl(parse, url) then BlockedFor(Shorts)
    else if CoreSchedule.IsWithinBlockedSchedule(now, s.intervalsByDay) then BlockedFor(Schedule)
    else UNBLOCKED
  }

  /** The "por_semana" policy: blocked for good unless a weekly session is running. */
  function WeeklyPolicy(s: Settings, now: int): (r: BlockDecision)
    ensures !r.blocked <==> s.weeklyUnblockEnabled && DomainWeekly.IsWeeklySessionActive(s, now)
    ensures r == UNBLOCKED || r == BlockedFor(Manual)
  {
    if s.weeklyUnblockEnabled && DomainWeekly.IsWeeklySessionActive(s, now) then UNBLOCKED
    else BlockedFor(Manual)
  }

  /** The legacy chain for a tag list that names neither known tag. */
  function LegacyPolicy(parse: UrlParser, url: string, s: Settings, now: int): (r: BlockDecision)
    ensures TemporaryUnblockActive(s.strictMode, s.unblockUntil, now) ==> r == UNBLOCKED
    ensures !TemporaryUnblockActive(s.strictMode, s.unblockUntil, now) && s.blockEnabled ==> r == BlockedFor(Manual)
    ensures (!TemporaryUnblockActive(s.strictMode, s.unblockUntil, now) && !s.blockEnabled
      && s.blockKids && IsKidsDomain(parse, url)) ==> r == BlockedFor(Kids)
    ensures (!TemporaryUnblockActive(s.strictMode, s.unblockUntil, now) && !s.blockEnabled
      && !(s.blockKids && IsKidsDomain(parse, url)) && s.blockShorts && IsShortsUrl(parse, url)) ==> r == BlockedFor(Shorts)
    ensures r.blocked <==> (!TemporaryUnblockActive(s.strictMode, s.unblockUntil, now)
                            && (s.blockEnabled || (s.blockKids && IsKidsDomain(parse, url))
                                || (s.blockShorts && IsShortsUrl(parse, url))))
    ensures r == UNBLOCKED || r == BlockedFor(Manual) || r == BlockedFor(Kids) || r == BlockedFor(Shorts)
  {
    if !s.strictMode && IsSet(s.unblockUntil) && now < s.unblockUntil.value then UNBLOCKED
    else if s.blockEnabled then BlockedFor(Manual)
    else if s.blockKids && IsKidsDomain(parse, url) then BlockedFor(Kids)
    else if s.blockShorts && IsShortsUrl(parse, url) then BlockedFor(Shorts)
    else UNBLOCKED
  }

  /** `evaluateBlock(urlString, settings, now)`. */
  function EvaluateBlock(parse: UrlParser, url: string, s: Settings, now: int): (r: BlockDecision)
    ensures r.blocked ==> r.reason.Some? && BlockingReason(r.reason.value)
    ensures r.reason == Some(NotTarget) ==> !r.blocked
    ensures r == NOT_TARGET <==> MatchedDomain(parse, url, s).None?
  {
    match MatchedDomain(parse, url, s)
    case None => NOT_TARGET
    case Some(domain) =>
      if IsWhitelisted(url, s.whitelist) then UNBLOCKED
      else
        var tags := GetDomainTags(s, domain);
        if |tags| == 0 then BlockedFor(MissingTag)
        else if INTERVALOS in tags then IntervalPolicy(parse, url, s, now)
        else if POR_SEMANA in tags then WeeklyPolicy(s, now)
        else LegacyPolicy(parse, url, s, now)
  }

  /** With no empty blocked domain, "not_target" is exactly a URL that is not a target. */
  lemma NotTargetExactly(parse: UrlParser, url: string, s: Settings, now: int)
    requires forall j :: 0 <= j < |s.blockedDomains| ==> s.blockedDomains[j] != []
    ensures EvaluateBlock(parse, url, s, now) == NOT_TARGET <==> !IsTargetUrl(parse, url, s.blockedDomains)
  {
    if parse(url).Some? {
      var hostname := Lower(parse(url).value.hostname);
      MatchDomainFindsAny(hostname, s.blockedDomains);
      if hostname == [] {
        EmptyHostMatchesNothing(s.blockedDomains);
      }
    }
  }

  /** A whitelisted target is let through before its tags are read: the tag map
      does not matter. */
  lemma WhitelistBeforeTags(parse: UrlParser, url: string, s: Settings, now: int, tags: map<string, seq<string>>)
    requires MatchedDomain(parse, url, s).Some? && IsWhitelisted(url, s.whitelist)
    ensures EvaluateBlock(parse, url, s, now) == UNBLOCKED
    ensures EvaluateBlock(parse, url, s.(blockedDomainTags := tags), now) == UNBLOCKED
  {
    assert MatchedDomain(parse, url, s.(blockedDomainTags := tags)) == MatchedDomain(parse, url, s);
  }

  /** A target that is not whitelisted and has no tags is blocked as "missing_tag". */
  lemma MissingTagBlocks(parse: UrlParser, url: string, s: Settings, now: int)
    requires MatchedDomain(parse, url, s).Some? && !IsWhitelisted(url, s.whitelist)
    requires GetDomainTags(s, MatchedDomain(parse, url, s).value) == []
    ensures EvaluateBlock(parse, url, s, now) == BlockedFor(MissingTag)
  {
  }

  /** A target that is not whitelisted and whose domain carries `tag`. */
  predicate TaggedTarget(parse: UrlParser, url: string, s: Settings, tag: string)
  {
    MatchedDomain(parse, url, s).Some? && !IsWhitelisted(url, s.whitelist)
    && tag in GetDomainTags(s, MatchedDomain(parse, url, s).value)
  }

  /** With "intervalos" the interval policy decides, whether or not "por_semana" is
      also present: weekly sessions and `blockEnabled` are not consulted. */
  lemma IntervalsIgnoreWeekly(parse: UrlParser, url: string, s: Settings, now: int,
                              weeklyEnabled: bool, weeklyUntil: Option<int>, blockEnabled: bool)
    requires TaggedTarget(parse, url, s, INTERVALOS)
    ensures EvaluateBlock(parse, url, s, now) == IntervalPolicy(parse, url, s, now)
    ensures var s' := s.(weeklyUnblockEnabled := weeklyEnabled, weeklyUnblockUntil := weeklyUntil, blockEnabled := blockEnabled);
      EvaluateBlock(parse, url, s', now) == EvaluateBlock(parse, url, s, now)
  {
    var s' := s.(weeklyUnblockEnabled := weeklyEnabled, weeklyUnblockUntil := weeklyUntil, blockEnabled := blockEnabled);
    assert MatchedDomain(parse, url, s') == MatchedDomain(parse, url, s);
    assert IntervalPolicy(parse, url, s', now) == IntervalPolicy(parse, url, s, now);
  }

  /** With "por_semana" alone, the target is let through exactly while a weekly
      session runs, and is otherwise blocked as "manual". */
  lemma WeeklyOnlyPolicy(parse: UrlParser, url: string, s: Settings, now: int)
    requires TaggedTarget(parse, url, s, POR_SEMANA) && !TaggedTarget(parse, url, s, INTERVALOS)
    ensures var r := EvaluateBlock(parse, url, s, now);
      (!r.blocked <==> s.weeklyUnblockEnabled && DomainWeekly.IsWeeklySessionActive(s, now))
      && (r.blocked ==> r.reason == Some(Manual))
  {
  }

  /** Every tag list is non-empty and holds only known tags: what
      `normalizeBlockedDomainTags` produces. */
  predicate TagsNormalized(tags: map<string, seq<string>>)
  {
    forall d :: d in tags ==> |tags[d]| > 0 && forall t :: t in tags[d] ==> IsDomainTag(t)
  }

  /** The legacy chain runs only for a non-empty tag list without a known tag. */
  predicate ReachesLegacy(parse: UrlParser, url: string, s: Settings)
  {
    MatchedDomain(parse, url, s).Some? && !IsWhitelisted(url, s.whitelist)
    && var tags := GetDomainTags(s, MatchedDomain(parse, url, s).value);
    |tags| > 0 && INTERVALOS !in tags && POR_SEMANA !in tags
  }

  /** Normalised settings never reach the legacy chain. */
  lemma LegacyUnreachable(parse: UrlParser, url: string, s: Settings)
    requires TagsNormalized(s.blockedDomainTags)
    ensures !ReachesLegacy(parse, url, s)
  {
    var m := MatchedDomain(parse, url, s);
    if m.Some? {
      var tags := GetDomainTags(s, m.value);
      if |tags| > 0 {
        KnownTagsNonEmpty(tags);
      }
    }
  }

  /** The "intervalos" policy is the tail of the older `src/core` chain with `blockEnabled`
      switched off: the same reasons in the same order. */
  lemma IntervalPolicyIsCoreChain(parse: UrlParser, url: string, s: Settings, now: int)
    requires !TemporaryUnblockActive(s.strictMode, s.unblockUntil, now)
    ensures IntervalPolicy(parse, url, s, now) == CoreUrl.BlockChain(parse, url, s.(blockEnabled := false), now)
  {
  }

  /** The legacy chain is the older `src/core` chain without its schedule step: it agrees
      with that chain except where the chain blocks for the schedule, which it lets through. */
  lemma LegacyIsCoreChainWithoutSchedule(parse: UrlParser, url: string, s: Settings, now: int)
    requires !TemporaryUnblockActive(s.strictMode, s.unblockUntil, now)
    ensures var core := CoreUrl.BlockChain(parse, url, s, now);
      (core.reason != Some(Schedule) ==> LegacyPolicy(parse, url, s, now) == core)
      && (core.reason == Some(Schedule) ==> LegacyPolicy(parse, url, s, now) == UNBLOCKED)
  {
  }

  /** Hence, under normalised tags, `blockEnabled` plays no part in the decision. */
  lemma BlockEnabledIgnoredWhenNormalized(parse: UrlParser, url: string, s: Settings, now: int, blockEnabled: bool)
    requires TagsNormalized(s.blockedDomainTags)
    ensures EvaluateBlock(parse, url, s.(blockEnabled := blockEnabled), now) == EvaluateBlock(parse, url, s, now)
  {
    var s' := s.(blockEnabled := blockEnabled);
    LegacyUnreachable(parse, url, s);
    assert MatchedDomain(parse, url, s') == MatchedDomain(parse, url, s);
    assert IntervalPolicy(parse, url, s', now) == IntervalPolicy(parse, url, s, now);
    assert WeeklyPolicy(s', now) == WeeklyPolicy(s, now);
  }

  /** The i18n key of a reason's label; "not_target" and a missing reason have none. */
  function ReasonKey(reason: BlockReason): (key: Option<string>)
    ensures key.Some? <==> BlockingReason(reason)
  {
    match reason
    case Manual => Some("reason.manual")
    case Kids => Some("reason.kids")
    case Shorts => Some("reason.shorts")
    case Schedule => Some("reason.schedule")
    case MissingTag => Some("reason.missing_tag")
    case NotTarget => None
    case Unknown => None
  }

  /** `reasonLabel(reason, lang)`: the translated label, or "" when there is none. */
  function ReasonLabel(strings: map<string, I18n.Entry>, reason: Option<BlockReason>, lang: Language): (text: string)
    ensures reason.None? ==> text == []
    ensures reason.Some? && ReasonKey(reason.value).Some? ==> text == I18n.T(strings, lang, ReasonKey(reason.value).value)
    ensures reason == Some(NotTarget) ==> text == []
  {
    if reason.None? then []
    else match ReasonKey(reason.value)
      case Some(key) => I18n.T(strings, lang, key)
      case None => []
  }

  /** Every blocking decision has a translated label; "not_target" has the empty one. */
  lemma BlockedDecisionsAreLabelled(parse: UrlParser, url: string, s: Settings, now: int,
                                    strings: map<string, I18n.Entry>, lang: Language)
    ensures var r := EvaluateBlock(parse, url, s, now);
      r.blocked ==> (ReasonKey(r.reason.value).Some?
                     && ReasonLabel(strings, r.reason, lang) == I18n.T(strings, lang, ReasonKey(r.reason.value).value))
  {
  }
}
