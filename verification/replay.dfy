/** The state replayer of `is_needsinfo`: one pass over a ticket's chronological event
    history, tracking whether the ticket is waiting for information from its submitter. */
module Replay {
  import opened Text

  /** The label name, and the comment token that sets the flag. */
  const NeedsInfo: string := "needs_info"
  /** The comment token that clears the flag; it contains `NeedsInfo`. */
  const NotNeedsInfo: string := "!needs_info"

  /** What happened in one history entry. Kinds other than the three the replayer reads
      are kept as `Other` with their tracker name, which is never `labeled`, `unlabeled` or
      `commented`: those kinds always use their own constructor. */
  datatype EventKind =
    | Labeled(labelName: string)
    | Unlabeled(labelName: string)
    | Commented(body: string)
    | Other(name: string)

  /** One entry of the ticket history: who did it and what it was. */
  datatype Event = Event(actor: string, kind: EventKind)

  /** One iteration of the replay loop, checks taken in the source's order: a submitter
      comment while the flag is set clears it; any other event by a bot is skipped; then
      the label and comment rules apply. */
  function Step(flag: bool, e: Event, submitter: string, bots: set<string>): (r: bool)
    ensures flag && e.actor == submitter && e.kind.Commented? ==> !r
    ensures e.kind.Commented? && e.actor == submitter && !Contains(e.kind.body, NeedsInfo) ==> !r
    ensures r != flag ==> e.actor !in bots || (flag && e.actor == submitter && e.kind.Commented?)
    ensures e.kind.Other? ==> r == flag
    ensures (e.kind.Labeled? || e.kind.Unlabeled?) && e.kind.labelName != NeedsInfo ==> r == flag
    ensures (e.kind.Commented? && e.actor !in bots && e.actor != submitter
             && !Contains(e.kind.body, NeedsInfo) && !Contains(e.kind.body, NotNeedsInfo)) ==> r == flag
  {
    if flag && e.actor == submitter && e.kind.Commented? then false
    else if e.actor in bots then flag
    else match e.kind
      case Labeled(name) => if name == NeedsInfo then true else flag
      case Unlabeled(name) => if name == NeedsInfo then false else flag
      case Commented(body) =>
        if Contains(body, NotNeedsInfo) then false
        else if Contains(body, NeedsInfo) then true
        else flag
      case Other(_) => flag
  }

  /** Left fold of `Step` over `events`, starting from `flag`. */
  function ReplayFrom(flag: bool, events: seq<Event>, submitter: string, bots: set<string>): (r: bool)
    ensures (forall i :: 0 <= i < |events| ==> Effect(events[i], submitter, bots) == Keep) ==> r == flag
    decreases |events|
  {
    if events == [] then flag
    else ReplayFrom(Step(flag, events[0], submitter, bots), events[1..], submitter, bots)
  }

  /** The needs-info flag after the whole history; it starts cleared. */
  function FinalFlag(events: seq<Event>, submitter: string, bots: set<string>): (r: bool)
    ensures (forall i :: 0 <= i < |events| ==> Effect(events[i], submitter, bots) == Keep) ==> !r
  {
    ReplayFrom(false, events, submitter, bots)
  }

  /** The replay loop as the source writes it: one mutable flag and early `continue`s. */
  method IsNeedsInfo(history: seq<Event>, submitter: string, bots: set<string>) returns (needsInfo: bool)
    ensures needsInfo == FinalFlag(history, submitter, bots)
  {
    needsInfo := false;
    var i := 0;
    while i < |history|
      invariant 0 <= i <= |history|
      invariant ReplayFrom(needsInfo, history[i..], submitter, bots) == FinalFlag(history, submitter, bots)
    {
      var event := history[i];
      assert history[i..][0] == event && history[i..][1..] == history[i + 1..];
      i := i + 1;
      if needsInfo && event.actor == submitter && event.kind.Commented? {
        needsInfo := false;
        continue;
      }
      if event.actor in bots {
        continue;
      }
      match event.kind {
        case Labeled(name) =>
          if name == NeedsInfo {
            needsInfo := true;
          }
        case Unlabeled(name) =>
          if name == NeedsInfo {
            needsInfo := false;
          }
        case Commented(body) =>
          if Contains(body, NotNeedsInfo) {
            needsInfo := false;
          } else if Contains(body, NeedsInfo) {
            needsInfo := true;
          }
        case Other(_) =>
      }
    }
  }

  /** How one event acts on the flag, independent of the flag's current value. */
  datatype Transition = SetTo(value: bool) | Keep | Toggle

  function Apply(t: Transition, flag: bool): bool
  {
    match t
    case SetTo(v) => v
    case Keep => flag
    case Toggle => !flag
  }

  /** The replayer's transition table, one row per kind of event. A submitter's comment
      clears the flag, except that a non-bot submitter whose comment holds only the plain
      token flips it: it clears a set flag and sets a cleared one. */
  function Effect(e: Event, submitter: string, bots: set<string>): (t: Transition)
    ensures e.actor in bots && !(e.actor == submitter && e.kind.Commented?) ==> t == Keep
    ensures e.actor !in bots && e.kind == Labeled(NeedsInfo) ==> t == SetTo(true)
    ensures e.actor !in bots && e.kind == Unlabeled(NeedsInfo) ==> t == SetTo(false)
    ensures e.kind.Commented? && Contains(e.kind.body, NotNeedsInfo) && (e.actor !in bots || e.actor == submitter)
            ==> t == SetTo(false)
    ensures e.kind.Commented? && e.actor == submitter && e.actor in bots ==> t == SetTo(false)
    ensures e.kind.Other? ==> t == Keep
    ensures (e.kind.Labeled? || e.kind.Unlabeled?) && e.kind.labelName != NeedsInfo ==> t == Keep
    ensures t == SetTo(true) ==> e.actor !in bots
    ensures (e.kind.Commented? && e.actor !in bots && e.actor != submitter
             && !Contains(e.kind.body, NeedsInfo) && !Contains(e.kind.body, NotNeedsInfo)) ==> t == Keep
    ensures (e.kind.Commented? && e.actor !in bots && e.actor != submitter
             && Contains(e.kind.body, NeedsInfo) && !Contains(e.kind.body, NotNeedsInfo)) ==> t == SetTo(true)
    ensures e.kind.Commented? && e.actor == submitter ==> t in {SetTo(false), Toggle}
    ensures t == Toggle <==>
      && e.kind.Commented? && e.actor == submitter && e.actor !in bots
      && Contains(e.kind.body, NeedsInfo) && !Contains(e.kind.body, NotNeedsInfo)
  {
    var fromBot := e.actor in bots;
    match e.kind
    case Labeled(name) => if !fromBot && name == NeedsInfo then SetTo(true) else Keep
    case Unlabeled(name) => if !fromBot && name == NeedsInfo then SetTo(false) else Keep
    case Commented(body) =>
      if e.actor == submitter then
        if !fromBot && !Contains(body, NotNeedsInfo) && Contains(body, NeedsInfo) then Toggle
        else SetTo(false)
      else if fromBot then Keep
      else if Contains(body, NotNeedsInfo) then SetTo(false)
      else if Contains(body, NeedsInfo) then SetTo(true)
      else Keep
    case Other(_) => Keep
  }

  /** The replay loop's step and the transition table agree on every event and flag. */
  lemma StepFollowsTable(flag: bool, e: Event, submitter: string, bots: set<string>)
    ensures Step(flag, e, submitter, bots) == Apply(Effect(e, submitter, bots), flag)
  {
  }

  /** Replaying a concatenation is replaying the second part from where the first ended. */
  lemma {:induction false} ReplayFromAppend(flag: bool, a: seq<Event>, b: seq<Event>, submitter: string, bots: set<string>)
    ensures ReplayFrom(flag, a + b, submitter, bots)
         == ReplayFrom(ReplayFrom(flag, a, submitter, bots), b, submitter, bots)
    decreases |a|
  {
    if a == [] {
      assert a + b == b;
    } else {
      assert (a + b)[0] == a[0] && (a + b)[1..] == a[1..] + b;
      ReplayFromAppend(Step(flag, a[0], submitter, bots), a[1..], b, submitter, bots);
    }
  }

  /** The flag after one more event is one step from the flag before it. */
  lemma ReplaySnoc(a: seq<Event>, e: Event, submitter: string, bots: set<string>)
    ensures FinalFlag(a + [e], submitter, bots) == Step(FinalFlag(a, submitter, bots), e, submitter, bots)
  {
    ReplayFromAppend(false, a, [e], submitter, bots);
  }

  /** A comment by the submitter while the flag is set clears it, whatever the body says and
      even when the submitter is also listed as a bot. */
  lemma SubmitterReplyClears(a: seq<Event>, body: string, submitter: string, bots: set<string>)
    requires FinalFlag(a, submitter, bots)
    ensures !FinalFlag(a + [Event(submitter, Commented(body))], submitter, bots)
  {
    ReplaySnoc(a, Event(submitter, Commented(body)), submitter, bots);
  }

  /** Events whose table row is `Keep` can be deleted from anywhere in the history without
      changing the outcome: bot events other than a submitter's comment, unknown event kinds,
      and labels other than `needs_info`. */
  lemma KeptEventsErasable(a: seq<Event>, e: Event, b: seq<Event>, submitter: string, bots: set<string>)
    requires Effect(e, submitter, bots) == Keep
    ensures FinalFlag(a + [e] + b, submitter, bots) == FinalFlag(a + b, submitter, bots)
  {
    ReplayFromAppend(false, a + [e], b, submitter, bots);
    ReplayFromAppend(false, a, b, submitter, bots);
    ReplaySnoc(a, e, submitter, bots);
    StepFollowsTable(FinalFlag(a, submitter, bots), e, submitter, bots);
  }

  /** An event that sets the flag to a fixed value makes everything before it irrelevant. */
  lemma ResetForgetsHistory(a: seq<Event>, e: Event, b: seq<Event>, submitter: string, bots: set<string>)
    requires Effect(e, submitter, bots).SetTo?
    ensures FinalFlag(a + [e] + b, submitter, bots)
         == ReplayFrom(Effect(e, submitter, bots).value, b, submitter, bots)
  {
    ReplayFromAppend(false, a + [e], b, submitter, bots);
    ReplaySnoc(a, e, submitter, bots);
    StepFollowsTable(FinalFlag(a, submitter, bots), e, submitter, bots);
  }

  /** A comment holding `!needs_info` always leaves the flag cleared, though it also holds
      `needs_info`, when it comes from a non-bot or from the submitter. */
  lemma NegationCommentClears(a: seq<Event>, actor: string, body: string, submitter: string, bots: set<string>)
    requires Contains(body, NotNeedsInfo)
    requires actor !in bots || actor == submitter
    ensures Contains(body, NeedsInfo)
    ensures !FinalFlag(a + [Event(actor, Commented(body))], submitter, bots)
  {
    assert NotNeedsInfo == ['!'] + NeedsInfo;
    ContainsSuffixOfToken(body, '!', NeedsInfo);
    ReplaySnoc(a, Event(actor, Commented(body)), submitter, bots);
  }

  /** A non-bot comment holding `needs_info` but not `!needs_info` leaves the flag set, unless
      it is the submitter replying while the flag was already set. */
  lemma TokenCommentSets(a: seq<Event>, actor: string, body: string, submitter: string, bots: set<string>)
    requires actor !in bots
    requires Contains(body, NeedsInfo) && !Contains(body, NotNeedsInfo)
    requires actor != submitter || !FinalFlag(a, submitter, bots)
    ensures FinalFlag(a + [Event(actor, Commented(body))], submitter, bots)
  {
    ReplaySnoc(a, Event(actor, Commented(body)), submitter, bots);
  }

  /** Applying `needs_info` and then removing it, the removal by a non-bot, ends cleared. */
  lemma LabelThenUnlabelClears(a: seq<Event>, x: string, y: string, submitter: string, bots: set<string>)
    requires y !in bots
    ensures !FinalFlag(a + [Event(x, Labeled(NeedsInfo)), Event(y, Unlabeled(NeedsInfo))], submitter, bots)
  {
    var l := Event(x, Labeled(NeedsInfo));
    var u := Event(y, Unlabeled(NeedsInfo));
    assert a + [l, u] == (a + [l]) + [u];
    ReplaySnoc(a + [l], u, submitter, bots);
  }

  /** A non-bot applying `needs_info` sets the flag, whatever came before. */
  lemma LabelSets(a: seq<Event>, x: string, submitter: string, bots: set<string>)
    requires x !in bots
    ensures FinalFlag(a + [Event(x, Labeled(NeedsInfo))], submitter, bots)
  {
    ReplaySnoc(a, Event(x, Labeled(NeedsInfo)), submitter, bots);
  }

  /** The same pair with a bot removing the label: the removal is skipped and the flag stays set. */
  lemma BotUnlabelIsSkipped(a: seq<Event>, x: string, y: string, submitter: string, bots: set<string>)
    requires x !in bots && y in bots
    ensures FinalFlag(a + [Event(x, Labeled(NeedsInfo)), Event(y, Unlabeled(NeedsInfo))], submitter, bots)
  {
    var l := Event(x, Labeled(NeedsInfo));
    var u := Event(y, Unlabeled(NeedsInfo));
    assert a + [l, u] == (a + [l]) + [u];
    LabelSets(a, x, submitter, bots);
    ReplaySnoc(a + [l], u, submitter, bots);
  }

  /** The flag after a whole history is true only if some event in it sets or toggles it. */
  lemma FinalFlagNeedsASetter(events: seq<Event>, submitter: string, bots: set<string>)
    requires FinalFlag(events, submitter, bots)
    ensures exists i :: 0 <= i < |events| && Effect(events[i], submitter, bots) in {SetTo(true), Toggle}
  {
    TrueNeedsASetter(false, events, submitter, bots);
  }

  /** The flag can be true only if some event in the history can set it: a non-bot applying
      the label or commenting with the plain token. */
  lemma {:induction false} TrueNeedsASetter(flag: bool, events: seq<Event>, submitter: string, bots: set<string>)
    requires ReplayFrom(flag, events, submitter, bots)
    ensures flag || exists i :: 0 <= i < |events| && Effect(events[i], submitter, bots) in {SetTo(true), Toggle}
    decreases |events|
  {
    if events != [] {
      var next := Step(flag, events[0], submitter, bots);
      StepFollowsTable(flag, events[0], submitter, bots);
      TrueNeedsASetter(next, events[1..], submitter, bots);
      if !next {
        var i :| 0 <= i < |events[1..]| && Effect(events[1..][i], submitter, bots) in {SetTo(true), Toggle};
        assert events[i + 1] == events[1..][i];
      } else if !flag {
        assert Effect(events[0], submitter, bots) in {SetTo(true), Toggle};
      }
    }
  }
}
