/** The escalation timer of `needs_info_timeout_facts`: while a ticket waits for its
    submitter, decide whether to warn now, close now, or do nothing this pass. */
module TimeoutFacts {
  import opened Wrappers
  import Replay
  import TemplateFacts

  /** Timestamps are integer microseconds, the resolution of Python's `datetime`, on which
      the subtraction and its `.days` operate. */
  const MicrosPerDay: int := 86_400_000_000

  /** Configured thresholds: warn after 30 days, close after 60 days in all. */
  const DefaultWarnDays: int := 30
  const DefaultExpireDays: int := 60

  /** Boilerplate key of the needs-info warning comment. */
  const NeedsInfoBase: string := "needs_info_base"

  datatype Action = NoAction | Warn | Close

  /** The fallback path needs the time the label was last applied; when the history cannot
      tell it, the subtraction fails. */
  datatype TimeoutError = LabelAppliedUnknown

  /** What the ticket's history reports about the `needs_info` label and the boilerplate
      comments: dates of the last label application and removal, of the last needs-info
      and missing-data warnings, and the keys of every boilerplate comment posted. */
  datatype LabelHistory = LabelHistory(
    lastApplied: Option<int>,
    lastRemoved: Option<int>,
    lastBaseWarning: Option<int>,
    lastMissingDataWarning: Option<int>,
    boilerplateKeys: seq<string>)

  /** Whole days elapsed from `since` to `now`, rounded down as a time difference's `days` is. */
  function WholeDays(since: int, now: int): (r: int)
    ensures r * MicrosPerDay <= now - since < (r + 1) * MicrosPerDay
    ensures since <= now ==> r >= 0
  {
    (now - since) / MicrosPerDay
  }

  /** The later of two optional dates; absent only when both are. */
  function LaterOf(a: Option<int>, b: Option<int>): (r: Option<int>)
    ensures r.None? <==> a.None? && b.None?
    ensures r.Some? ==> r == a || r == b
    ensures a.Some? && r.Some? ==> a.value <= r.value
    ensures b.Some? && r.Some? ==> b.value <= r.value
  {
    match (a, b)
    case (None, None) => None
    case (Some(x), None) => Some(x)
    case (None, Some(y)) => Some(y)
    case (Some(x), Some(y)) => if x > y then Some(x) else Some(y)
  }

  /** The date the current escalation cycle counts from: the later warning comment, unless the
      label was removed strictly after it, in which case the cycle restarted. */
  function ReferenceDate(h: LabelHistory): (r: Option<int>)
    ensures r.Some? ==> r == LaterOf(h.lastBaseWarning, h.lastMissingDataWarning)
    ensures r.Some? ==> h.lastRemoved.None? || h.lastRemoved.value <= r.value
    ensures r.None? && LaterOf(h.lastBaseWarning, h.lastMissingDataWarning).Some? ==>
      h.lastRemoved.Some? && LaterOf(h.lastBaseWarning, h.lastMissingDataWarning).value < h.lastRemoved.value
  {
    var bpd := LaterOf(h.lastBaseWarning, h.lastMissingDataWarning);
    if h.lastRemoved.Some? && bpd.Some? && bpd.value < h.lastRemoved.value then None else bpd
  }

  /** Number of needs-info warning comments already posted. */
  function BaseWarnings(h: LabelHistory): (r: nat)
    ensures r > 0 <==> NeedsInfoBase in h.boilerplateKeys
    ensures r <= |h.boilerplateKeys|
  {
    multiset(h.boilerplateKeys)[NeedsInfoBase]
  }

  /** The escalation decision. Nothing happens unless the ticket needs info and carries the
      label. Counted from a reference comment: close at `expireDays - warnDays` days if a
      needs-info warning was posted and warn otherwise; past `warnDays` days warn only if no
      such warning exists yet. Without a reference comment: warn once the label has been on
      for more than `warnDays` days. */
  function TimeoutAction(
    isNeedsInfo: bool, labels: set<string>, h: LabelHistory,
    now: int, warnDays: int, expireDays: int): (r: Result<Action, TimeoutError>)
    ensures !isNeedsInfo || Replay.NeedsInfo !in labels ==> r == Success(NoAction)
    ensures r == Success(Close) <==>
      && isNeedsInfo && Replay.NeedsInfo in labels
      && BaseWarnings(h) >= 1
      && ReferenceDate(h).Some?
      && WholeDays(ReferenceDate(h).value, now) >= expireDays - warnDays
    ensures r.Failure? <==>
      isNeedsInfo && Replay.NeedsInfo in labels && ReferenceDate(h).None? && h.lastApplied.None?
  {
    var niWarn := warnDays;
    var niExpire := expireDays - warnDays;
    if !isNeedsInfo || Replay.NeedsInfo !in labels then Success(NoAction)
    else match ReferenceDate(h)
      case Some(bpd) =>
        var found := BaseWarnings(h);
        var delta := WholeDays(bpd, now);
        if delta >= niExpire then
          if found >= 1 then Success(Close) else Success(Warn)
        else if delta > niWarn then
          if found == 0 then Success(Warn) else Success(NoAction)
        else Success(NoAction)
      case None =>
        match h.lastApplied
        case None => Failure(LabelAppliedUnknown)
        case Some(la) => if WholeDays(la, now) > niWarn then Success(Warn) else Success(NoAction)
  }

  /** When a warning is due, exactly. */
  lemma WarnExactly(
    isNeedsInfo: bool, labels: set<string>, h: LabelHistory, now: int, warnDays: int, expireDays: int)
    ensures TimeoutAction(isNeedsInfo, labels, h, now, warnDays, expireDays) == Success(Warn) <==>
      && isNeedsInfo && Replay.NeedsInfo in labels
      && match ReferenceDate(h)
         case Some(bpd) => BaseWarnings(h) == 0 && (WholeDays(bpd, now) >= expireDays - warnDays || WholeDays(bpd, now) > warnDays)
         case None => h.lastApplied.Some? && WholeDays(h.lastApplied.value, now) > warnDays
  {
  }

  /** Whole days never decrease as time moves on. */
  lemma WholeDaysMonotone(since: int, now: int, later: int)
    requires now <= later
    ensures WholeDays(since, now) <= WholeDays(since, later)
  {
    var a := WholeDays(since, now);
    var b := WholeDays(since, later);
    assert a * MicrosPerDay <= now - since <= later - since < (b + 1) * MicrosPerDay;
  }

  /** Once the timer says close, it keeps saying close as time passes on the same history. */
  lemma CloseIsStable(
    isNeedsInfo: bool, labels: set<string>, h: LabelHistory,
    now: int, later: int, warnDays: int, expireDays: int)
    requires now <= later
    requires TimeoutAction(isNeedsInfo, labels, h, now, warnDays, expireDays) == Success(Close)
    ensures TimeoutAction(isNeedsInfo, labels, h, later, warnDays, expireDays) == Success(Close)
  {
    WholeDaysMonotone(ReferenceDate(h).value, now, later);
  }

  /** A label removal after every warning comment restarts the cycle: the decision is the one
      taken for a ticket with no warning comments at all. */
  lemma RemovalRestartsCycle(
    isNeedsInfo: bool, labels: set<string>, h: LabelHistory, now: int, warnDays: int, expireDays: int)
    requires h.lastRemoved.Some?
    requires h.lastBaseWarning.Some? ==> h.lastBaseWarning.value < h.lastRemoved.value
    requires h.lastMissingDataWarning.Some? ==> h.lastMissingDataWarning.value < h.lastRemoved.value
    ensures TimeoutAction(isNeedsInfo, labels, h, now, warnDays, expireDays)
         == TimeoutAction(isNeedsInfo, labels, h.(lastBaseWarning := None, lastMissingDataWarning := None), now, warnDays, expireDays)
  {
    var bpd := LaterOf(h.lastBaseWarning, h.lastMissingDataWarning);
    assert bpd.Some? ==> bpd.value < h.lastRemoved.value;
  }

  /** When the close threshold, counted from the reference comment, is no later than one day
      past the warn threshold (as with the 30/60 defaults, where both are 30 days), the warn
      branch below the close threshold can never be taken: with a reference comment the timer
      only ever acts once the close threshold is reached. */
  lemma EarlyWarnUnreachable(
    isNeedsInfo: bool, labels: set<string>, h: LabelHistory, now: int, warnDays: int, expireDays: int)
    requires expireDays - warnDays <= warnDays + 1
    requires ReferenceDate(h).Some?
    requires WholeDays(ReferenceDate(h).value, now) < expireDays - warnDays
    ensures TimeoutAction(isNeedsInfo, labels, h, now, warnDays, expireDays).Success?
    ensures TimeoutAction(isNeedsInfo, labels, h, now, warnDays, expireDays).value == NoAction
  {
  }

  /** Worked examples with the default thresholds of 30 and 60 days. */
  lemma DefaultScenarios(labels: set<string>, now: int)
    requires Replay.NeedsInfo in labels
    ensures var applied := LabelHistory(Some(now - 31 * MicrosPerDay), None, None, None, []);
      TimeoutAction(true, labels, applied, now, DefaultWarnDays, DefaultExpireDays) == Success(Warn)
    ensures var applied := LabelHistory(Some(now - 29 * MicrosPerDay), None, None, None, []);
      TimeoutAction(true, labels, applied, now, DefaultWarnDays, DefaultExpireDays) == Success(NoAction)
    ensures var warned := LabelHistory(Some(now - 100 * MicrosPerDay), None, Some(now - 61 * MicrosPerDay), None, [NeedsInfoBase]);
      TimeoutAction(true, labels, warned, now, DefaultWarnDays, DefaultExpireDays) == Success(Close)
    ensures var unwarned := LabelHistory(Some(now - 100 * MicrosPerDay), None, None, Some(now - 61 * MicrosPerDay), [TemplateFacts.IssueMissingData]);
      TimeoutAction(true, labels, unwarned, now, DefaultWarnDays, DefaultExpireDays) == Success(Warn)
  {
    assert multiset([NeedsInfoBase])[NeedsInfoBase] == 1;
    assert multiset([TemplateFacts.IssueMissingData])[NeedsInfoBase] == 0;
  }
}
