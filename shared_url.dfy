/** The blocking decision of the oldest generation (`src/shared/url.ts`): target,
    whitelist, temporary unblock, `blockEnabled`, Kids, Shorts, schedule — no weekly
    session and no tags — and fixed Spanish/English reason labels. Its URL helpers
    are the ones of `UrlMatch`. */
module SharedUrl {
  import opened Base
  import opened Types
  import opened UrlMatch
  import CoreSchedule

  const NOT_TARGET: BlockDecision := BlockDecision(false, Some(NotTarget))
  const UNBLOCKED: BlockDecision := BlockDecision(false, None)

  function BlockedFor(reason: BlockReason): BlockDecision
  {
    BlockDecision(true, Some(reason))
  }

  /** `evaluateBlock(urlString, settings, now)`. */
  function EvaluateBlock(parse: UrlParser, url: string, s: SharedSettings, now: int): (r: BlockDecision)
    ensures r == NOT_TARGET <==> !IsTargetUrl(parse, url, s.blockedDomains)
    ensures IsTargetUrl(parse, url, s.blockedDomains) && IsWhitelisted(url, s.whitelist) ==> r == UNBLOCKED
    ensures r.blocked ==> r.reason.Some? && r.reason.value in {Manual, Kids, Shorts, Schedule}
  {
    if !IsTargetUrl(parse, url, s.blockedDomains) then NOT_TARGET
    else if IsWhitelisted(url, s.whitelist) then UNBLOCKED
    else if !s.strictMode && IsSet(s.unblockUntil) && now < s.unblockUntil.value then UNBLOCKED
    else if s.blockEnabled then BlockedFor(Manual)
    else if s.blockKids && IsKidsDomain(parse, url) then BlockedFor(Kids)
    else if s.blockShorts && IsShortsUrl(parse, url) then BlockedFor(Shorts)
    else if CoreSchedule.IsWithinBlockedSchedule(now, s.intervalsByDay) then BlockedFor(Schedule)
    else UNBLOCKED
  }

  /** A target that is not whitelisted. */
  predicate Exposed(parse: UrlParser, url: string, s: SharedSettings)
  {
    IsTargetUrl(parse, url, s.blockedDomains) && !IsWhitelisted(url, s.whitelist)
  }

  /** The temporary unblock comes before `blockEnabled` and applies only outside strict mode. */
  lemma TemporaryUnblockBeforeManual(parse: UrlParser, url: string, s: SharedSettings, now: int)
    requires Exposed(parse, url, s) && s.blockEnabled
    ensures EvaluateBlock(parse, url, s, now) == UNBLOCKED <==> TemporaryUnblockActive(s.strictMode, s.unblockUntil, now)
    ensures !TemporaryUnblockActive(s.strictMode, s.unblockUntil, now) ==> EvaluateBlock(parse, url, s, now) == BlockedFor(Manual)
  {
  }

  /** Without `blockEnabled` and outside a temporary unblock, the target is blocked
      exactly when Kids, Shorts or the schedule applies, in that order of reasons. */
  lemma KidsShortsSchedule(parse: UrlParser, url: string, s: SharedSettings, now: int)
    requires Exposed(parse, url, s) && !s.blockEnabled && !TemporaryUnblockActive(s.strictMode, s.unblockUntil, now)
    ensures var r := EvaluateBlock(parse, url, s, now);
      (r.blocked <==> (s.blockKids && IsKidsDomain(parse, url)) || (s.blockShorts && IsShortsUrl(parse, url))
                      || CoreSchedule.IsWithinBlockedSchedule(now, s.intervalsByDay))
      && (s.blockKids && IsKidsDomain(parse, url) ==> r.reason == Some(Kids))
      && (!(s.blockKids && IsKidsDomain(parse, url)) && s.blockShorts && IsShortsUrl(parse, url) ==> r.reason == Some(Shorts))
      && ((!(s.blockKids && IsKidsDomain(parse, url)) && !(s.blockShorts && IsShortsUrl(parse, url))
           && CoreSchedule.IsWithinBlockedSchedule(now, s.intervalsByDay)) ==> r.reason == Some(Schedule))
      && (!r.blocked ==> r.reason.None?)
  {
  }

  /** `reasonLabel(reason)`. */
  function ReasonLabel(reason: Option<BlockReason>): (text: string)
    ensures text != [] <==> reason.Some? && reason.value in {Manual, Kids, Shorts, Schedule}
  {
    match reason
    case Some(Manual) => "Manual"
    case Some(Kids) => "Kids"
    case Some(Shorts) => "Shorts"
    case Some(Schedule) => "Horario"
    case _ => ""
  }

  /** Every blocking decision has a non-empty label; "not_target" has the empty one. */
  lemma DecisionsAreLabelled(parse: UrlParser, url: string, s: SharedSettings, now: int)
    ensures var r := EvaluateBlock(parse, url, s, now);
      (r.blocked ==> ReasonLabel(r.reason) != []) && (r == NOT_TARGET ==> ReasonLabel(r.reason) == [])
  {
  }
}
