/** The blocking decision of the `src/core` generation (`src/core/url.ts`): a single
    early-return chain with no tags — target, whitelist, weekly session, temporary
    unblock, `blockEnabled`, Kids, Shorts, schedule. Its URL helpers are the ones
    of `UrlMatch`. */
module CoreUrl {
  import opened Base
  import opened Types
  import opened UrlMatch
  import CoreSchedule
  import CoreWeekly
  import I18n

  const NOT_TARGET: BlockDecision := BlockDecision(false, Some(NotTarget))
  const UNBLOCKED: BlockDecision := BlockDecision(false, None)

  function BlockedFor(reason: BlockReason): BlockDecision
  {
    BlockDecision(true, Some(reason))
  }

  /** The part of the chain after the whitelist and the two unblock checks. */
  function BlockChain(parse: UrlParser, url: string, s: Settings, now: int): (r: BlockDecision)
    ensures s.blockEnabled ==> r == BlockedFor(Manual)
    ensures !s.blockEnabled ==>
      (r.blocked <==> (s.blockKids && IsKidsDomain(parse, url)) || (s.blockShorts && IsShortsUrl(parse, url))
                      || CoreSchedule.IsWithinBlockedSchedule(now, s.intervalsByDay))
    ensures !s.blockEnabled && s.blockKids && IsKidsDomain(parse, url) ==> r == BlockedFor(Kids)
    ensures !s.blockEnabled && !(s.blockKids && IsKidsDomain(parse, url)) && s.blockShorts && IsShortsUrl(parse, url)
      ==> r == BlockedFor(Shorts)
    ensures (!s.blockEnabled && !(s.blockKids && IsKidsDomain(parse, url)) && !(s.blockShorts && IsShortsUrl(parse, url))
      && CoreSchedule.IsWithinBlockedSchedule(now, s.intervalsByDay)) ==> r == BlockedFor(Schedule)
    ensures r == UNBLOCKED || r == BlockedFor(Manual) || r == BlockedFor(Kids)
      || r == BlockedFor(Shorts) || r == BlockedFor(Schedule)
  {
    if s.blockEnabled then BlockedFor(Manual)
    else if s.blockKids && IsKidsDomain(parse, url) then BlockedFor(Kids)
    else if s.blockShorts && IsShortsUrl(parse, url) then BlockedFor(Shorts)
    else if CoreSchedule.IsWithinBlockedSchedule(now, s.intervalsByDay) then BlockedFor(Schedule)
    else UNBLOCKED
  }

  /** `evaluateBlock(urlString, settings, now)`. */
  function EvaluateBlock(parse: UrlParser, url: string, s: Settings, now: int): (r: BlockDecision)
    ensures r == NOT_TARGET <==> !IsTargetUrl(parse, url, s.blockedDomains)
    ensures IsTargetUrl(parse, url, s.blockedDomains) && IsWhitelisted(url, s.whitelist) ==> r == UNBLOCKED
    ensures r.blocked ==> r.reason.Some? && r.reason.value in {Manual, Kids, Shorts, Schedule}
  {
    if !IsTargetUrl(parse, url, s.blockedDomains) then NOT_TARGET
    else if IsWhitelisted(url, s.whitelist) then UNBLOCKED
    else if CoreWeekly.IsWeeklySessionActive(s, now) then UNBLOCKED
    else if !s.strictMode && IsSet(s.unblockUntil) && now < s.unblockUntil.value then UNBLOCKED
    else BlockChain(parse, url, s, now)
  }

  /** A target that is neither whitelisted nor under a weekly session or temporary unblock. */
  predicate Exposed(parse: UrlParser, url: string, s: Settings, now: int)
  {
    IsTargetUrl(parse, url, s.blockedDomains) && !IsWhitelisted(url, s.whitelist)
    && !CoreWeekly.IsWeeklySessionActive(s, now) && !TemporaryUnblockActive(s.strictMode, s.unblockUntil, now)
  }

  /** An active weekly session lets every non-whitelisted target through, even with `blockEnabled`. */
  lemma WeeklySessionOverridesManual(parse: UrlParser, url: string, s: Settings, now: int)
    requires IsTargetUrl(parse, url, s.blockedDomains) && CoreWeekly.IsWeeklySessionActive(s, now)
    ensures EvaluateBlock(parse, url, s.(blockEnabled := true), now) == UNBLOCKED
  {
  }

  /** A temporary unblock overrides `blockEnabled`, but only outside strict mode. */
  lemma TemporaryUnblockOverridesManual(parse: UrlParser, url: string, s: Settings, now: int)
    requires IsTargetUrl(parse, url, s.blockedDomains) && !IsWhitelisted(url, s.whitelist)
    requires !CoreWeekly.IsWeeklySessionActive(s, now) && s.blockEnabled
    ensures EvaluateBlock(parse, url, s, now) == UNBLOCKED <==> TemporaryUnblockActive(s.strictMode, s.unblockUntil, now)
    ensures s.strictMode ==> EvaluateBlock(parse, url, s, now) == BlockedFor(Manual)
  {
  }

  /** Past the unblock checks, `blockEnabled` answers "manual" whatever the Kids, Shorts
      and schedule settings; without it, the outcome is theirs. */
  lemma ManualBeforeKidsShortsSchedule(parse: UrlParser, url: string, s: Settings, now: int,
                                       kids: bool, shorts: bool, week: IntervalWeek)
    requires Exposed(parse, url, s, now)
    ensures s.blockEnabled ==>
      EvaluateBlock(parse, url, s.(blockKids := kids, blockShorts := shorts, intervalsByDay := week), now) == BlockedFor(Manual)
    ensures EvaluateBlock(parse, url, s, now) == BlockChain(parse, url, s, now)
  {
    var s' := s.(blockKids := kids, blockShorts := shorts, intervalsByDay := week);
    assert Exposed(parse, url, s', now);
  }

  /** `reasonLabel(reason, lang)`: the translated label, "" for "not_target" or no reason. */
  function ReasonLabel(strings: map<string, I18n.Entry>, reason: Option<BlockReason>, lang: Language): (text: string)
    ensures reason.None? || reason == Some(NotTarget) || reason == Some(MissingTag) || reason == Some(Unknown)
      ==> text == []
    ensures reason == Some(Manual) ==> text == I18n.T(strings, lang, "reason.manual")
    ensures reason == Some(Kids) ==> text == I18n.T(strings, lang, "reason.kids")
    ensures reason == Some(Shorts) ==> text == I18n.T(strings, lang, "reason.shorts")
    ensures reason == Some(Schedule) ==> text == I18n.T(strings, lang, "reason.schedule")
  {
    match reason
    case Some(Manual) => I18n.T(strings, lang, "reason.manual")
    case Some(Kids) => I18n.T(strings, lang, "reason.kids")
    case Some(Shorts) => I18n.T(strings, lang, "reason.shorts")
    case Some(Schedule) => I18n.T(strings, lang, "reason.schedule")
    case _ => []
  }
}
