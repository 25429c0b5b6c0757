# needs_info: a Dafny model of ansibullbot's needs-info triage plugin

This project models `ansibullbot/triagers/plugins/needs_info.py`, the triage-bot plugin
that decides whether a GitHub ticket is waiting for information from its submitter and what
to do about it. The plugin has three pure decision procedures. Each becomes a Dafny function
once the data it reads from the ticket is passed in as values:

- **State replayer** (`is_needsinfo`, module `Replay`). It makes one left fold (`FinalFlag`) over the
  ticket's event history and tracks one boolean. The events are `labeled`, `unlabeled`,
  `commented` and any other kind. The check order matches the source: a submitter comment
  while the flag is set clears it; otherwise bot events are skipped; then the `needs_info`
  label, the `!needs_info` comment token and the `needs_info` comment token apply. The
  method `IsNeedsInfo` is the source-shaped loop. `Effect` is a transition table that does
  not depend on the flag (set to a value, keep, or toggle). Lemmas about whole histories are
  proved from it.
- **Template completeness** (`needs_info_template_facts`, module `TemplateFacts`). It
  builds the expected sections in a fixed order (`issue type`, `component name`,
  `ansible version`) and keeps the missing ones in that order. It then derives
  `template_missing`, the forced `is_needs_info` and `template_warning_required`. Two
  separate booleans are kept: `isPullRequest` decides which sections are expected, and
  `isIssue` decides whether a gap forces the flag.
- **Escalation timer** (`needs_info_timeout_facts`, module `TimeoutFacts`). It picks the
  reference date, which is the later of the two boilerplate dates, dropped if the label was
  removed strictly after it. It then counts whole days and decides no action, `warn` or
  `close`. It never closes without a prior `needs_info_base` comment.

Module `Text` holds Python's substring test `t in s`, ASCII lower-casing and the subsequence
relation. Module `Wrappers` holds `Option` and `Result`.

Modelling choices:
- Timestamps are integer microseconds. A `timedelta`'s `.days` is floor division by
  86 400 000 000, and Dafny's `/` with a positive divisor is floor division.
- `now` is a parameter. So are the two thresholds, `warnDays` and `expireDays`. Their
  defaults of 30 and 60 are the constants `DefaultWarnDays` and `DefaultExpireDays`. As in
  the source, the close threshold counted from the reference comment is
  `expireDays - warnDays`.
- The results of the history helpers are plain inputs: `label_last_applied`,
  `label_last_removed`, `last_date_for_boilerplate` and the keys of
  `get_boilerplate_comments`. They form the `LabelHistory` record. The helpers themselves are
  not part of this model.
- Bot names are a `set<string>`. Labels currently on the ticket are a `set<string>`. The
  component match strategy and the boilerplate keys are `seq<string>`.
- With no reference comment and no known label-application date, the source's subtraction
  at line 169 raises. The model returns `Failure(LabelAppliedUnknown)` rather than treating it as
  no action.

Behaviours of the code that a reader might not expect:
- A non-bot submitter's comment containing `needs_info` but not `!needs_info` sets a cleared
  flag (needs_info.py:42-48). It clears a set flag (needs_info.py:23-28). So such a comment
  toggles the flag (`Replay.TokenCommentSets`, `Replay.Effect`).
- A bot removing the `needs_info` label is skipped like any other bot event
  (needs_info.py:31-32). So "label then unlabel" ends cleared only when the remover is not a
  bot (`Replay.LabelThenUnlabelClears`, `Replay.BotUnlabelIsSkipped`).
- A section counts as missing only when it is absent or the empty string
  (needs_info.py:77). A value that is only blanks is present.

## Model

| member | source | states |
|---|---|---|
| `Replay.IsNeedsInfo` | ansibullbot/triagers/plugins/needs_info.py:22-50 | the source-shaped loop with early `continue`s returns exactly the left fold `FinalFlag` of the history |
| `Replay.Step` | ansibullbot/triagers/plugins/needs_info.py:23-48 | one loop iteration: a submitter comment clears a set flag, and one without the `needs_info` token leaves the flag cleared in every case; a bot changes the flag only through that rule; unknown kinds, other labels and non-bot, non-submitter comments with neither token leave it unchanged |
| `Replay.ReplayFrom` | ansibullbot/triagers/plugins/needs_info.py:22-50 | the fold over the history; a history made only of "keep" events leaves the starting flag unchanged |
| `Replay.FinalFlag` | ansibullbot/triagers/plugins/needs_info.py:8-50 | the flag after the history, starting cleared; a history made only of "keep" events ends cleared |
| `Replay.FinalFlagNeedsASetter` | ansibullbot/triagers/plugins/needs_info.py:8-50 | the flag after a whole history is true only if some event in it sets or toggles it |
| `Replay.Effect` | ansibullbot/triagers/plugins/needs_info.py:23-48 | transition table: a non-bot `needs_info` label sets the flag and its removal clears it; a `!needs_info` comment from a non-bot or the submitter clears it; a bot submitter's comment clears it; a non-bot, non-submitter comment with the plain token only sets it and one with neither token keeps it; other bot events, unknown kinds and other labels keep it; a submitter's comment either clears it or toggles it, and toggles it exactly when the submitter is not a bot and the comment holds the plain token only |
| `Replay.StepFollowsTable` | ansibullbot/triagers/plugins/needs_info.py:23-48 | one loop iteration acts on every flag value exactly as the event's table row says |
| `Replay.ReplayFromAppend` | ansibullbot/triagers/plugins/needs_info.py:22-50 | replaying `a + b` is replaying `b` from the flag `a` ends with |
| `Replay.ReplaySnoc` | ansibullbot/triagers/plugins/needs_info.py:22-50 | the flag after one more event is one iteration applied to the flag before it |
| `Replay.SubmitterReplyClears` | ansibullbot/triagers/plugins/needs_info.py:23-28 | while the flag is set, any submitter comment clears it, whatever the body and even if the submitter is a bot name |
| `Replay.KeptEventsErasable` | ansibullbot/triagers/plugins/needs_info.py:31-41 | an event whose row is "keep" can be deleted from anywhere in the history without changing the result |
| `Replay.ResetForgetsHistory` | ansibullbot/triagers/plugins/needs_info.py:34-45 | after an event that sets the flag to a fixed value, nothing earlier in the history matters |
| `Replay.NegationCommentClears` | ansibullbot/triagers/plugins/needs_info.py:42-45 | a comment holding `!needs_info` also holds `needs_info`, yet from a non-bot or the submitter it always leaves the flag false |
| `Replay.TokenCommentSets` | ansibullbot/triagers/plugins/needs_info.py:46-48 | a non-bot comment with `needs_info` and without `!needs_info` leaves the flag true, the submitter included when the flag was clear |
| `Replay.LabelSets` | ansibullbot/triagers/plugins/needs_info.py:34-37 | a non-bot applying `needs_info` leaves the flag set after any history |
| `Replay.LabelThenUnlabelClears` | ansibullbot/triagers/plugins/needs_info.py:34-41 | applying then removing `needs_info`, the removal by a non-bot, ends cleared after any history |
| `Replay.BotUnlabelIsSkipped` | ansibullbot/triagers/plugins/needs_info.py:31-32 | after any history, a non-bot applying the label followed by a bot removing it leaves the flag set |
| `Replay.TrueNeedsASetter` | ansibullbot/triagers/plugins/needs_info.py:8-50 | the flag ends true only if some event's row sets it or toggles it |
| `Text.Contains` | ansibullbot/triagers/plugins/needs_info.py:43-46 | Python's `t in s`: holds exactly when some offset of the body holds a copy of the token |
| `Text.ContainsSuffixOfToken` | ansibullbot/triagers/plugins/needs_info.py:43-46 | a body containing `!` + token also contains the token |
| `Text.Lower` | ansibullbot/triagers/plugins/needs_info.py:72 | `.lower()` on ASCII: each upper-case letter becomes its lower-case partner (+32), other characters are kept, no upper-case letter remains |
| `Text.LowerIdempotent` | ansibullbot/triagers/plugins/needs_info.py:72 | lower-casing an already lower-cased type changes nothing |
| `TemplateFacts.IssueTypeOf` | ansibullbot/triagers/plugins/needs_info.py:65 | `template.get('issue type', '')`: the declared value when present, and a non-empty result only when the key is present |
| `TemplateFacts.SectionMissing` | ansibullbot/triagers/plugins/needs_info.py:77-79 | a key is missing iff absent or `""`, whenever it is not `component name` or `component_command` is not in the strategy; a filled key is never missing; `component name` is never missing under `component_command` |
| `TemplateFacts.ExpectedSections` | ansibullbot/triagers/plugins/needs_info.py:65-73 | the result is a prefix of `issue type`, `component name`, `ansible version`, so the order is fixed and nothing else is expected; `issue type` always comes first; a pull request expects only it; `component name` exactly for non-PRs; `ansible version` exactly for non-PRs whose lower-cased type is neither exempt type |
| `TemplateFacts.MissingSections` | ansibullbot/triagers/plugins/needs_info.py:75-83 | the result is an order-preserving subsequence of the expected keys and holds exactly the expected keys that are absent or empty and not exempted by `component_command` |
| `TemplateFacts.TemplateFactsOf` | ansibullbot/triagers/plugins/needs_info.py:53-97 | `template_missing` iff the template is empty; missing sections as above; `is_needs_info` is the input or forced true when something is missing on an issue; the warning is required iff something is missing and no `issue_missing_data` comment exists |
| `TemplateFacts.PullRequestOnlyMissesIssueType` | ansibullbot/triagers/plugins/needs_info.py:68-73 | a pull request's missing sections are either none or just `issue type` |
| `TemplateFacts.ExemptTypesNeverMissVersion` | ansibullbot/triagers/plugins/needs_info.py:72-73 | a feature idea or documentation report is never reported missing `ansible version` |
| `TemplateFacts.VersionRequirementByType` | ansibullbot/triagers/plugins/needs_info.py:70-73 | an issue is asked for `ansible version` exactly when its lower-cased type is not exempt; "Feature Idea" is exempt and "bug report" is not |
| `TemplateFacts.ComponentCommandExemptsComponent` | ansibullbot/triagers/plugins/needs_info.py:75-79 | with `component_command` in the match strategy, `component name` is never reported |
| `TemplateFacts.EmptyTemplateOnIssue` | ansibullbot/triagers/plugins/needs_info.py:62-95 | for every match strategy, an empty issue template reports all three sections (only `issue type` and `ansible version` under `component_command`), forces the flag, and asks for the warning unless already posted |
| `TemplateFacts.EmptyTemplateOnPullRequest` | ansibullbot/triagers/plugins/needs_info.py:62-89 | an empty pull-request template reports `issue type` but leaves the flag as it was |
| `TemplateFacts.WarningPostedOnce` | ansibullbot/triagers/plugins/needs_info.py:91-95 | once an `issue_missing_data` comment exists the warning is never required again |
| `TemplateFacts.OnlyRequiredSectionsMatter` | ansibullbot/triagers/plugins/needs_info.py:62-83 | templates that agree on emptiness and on the three read sections give identical facts |
| `TemplateFacts.MissingSectionsLocal` | ansibullbot/triagers/plugins/needs_info.py:76-80 | the missing-section scan reads the template only at the expected keys |
| `TimeoutFacts.WholeDays` | ansibullbot/triagers/plugins/needs_info.py:153 | the day count is the floor of the elapsed time: `r` whole days fit and `r + 1` do not |
| `TimeoutFacts.LaterOf` | ansibullbot/triagers/plugins/needs_info.py:131-141 | the reference comment date is the maximum of the present boilerplate dates, absent only when both are |
| `TimeoutFacts.ReferenceDate` | ansibullbot/triagers/plugins/needs_info.py:131-145 | the later boilerplate date is kept unless the label was removed strictly after it |
| `TimeoutFacts.BaseWarnings` | ansibullbot/triagers/plugins/needs_info.py:149-150 | the number of `needs_info_base` comments: positive exactly when one was posted, never more than all boilerplate comments |
| `TimeoutFacts.TimeoutAction` | ansibullbot/triagers/plugins/needs_info.py:100-173 | no action unless the ticket needs info and carries the label; close exactly when it does, a `needs_info_base` comment exists and the reference date is at least `expire - warn` days old; an error exactly when the fallback path lacks the label date |
| `TimeoutFacts.WarnExactly` | ansibullbot/triagers/plugins/needs_info.py:147-171 | warn iff (with a reference date) no needs-info warning exists yet and the close or warn threshold is passed, or (without one) the label is older than `warnDays` days |
| `TimeoutFacts.WholeDaysMonotone` | ansibullbot/triagers/plugins/needs_info.py:153 | the elapsed day count never decreases as `now` grows |
| `TimeoutFacts.CloseIsStable` | ansibullbot/triagers/plugins/needs_info.py:157-159 | a close decision stays a close decision at every later time on the same history |
| `TimeoutFacts.RemovalRestartsCycle` | ansibullbot/triagers/plugins/needs_info.py:143-145 | a label removal after every warning comment yields the decision for a ticket with no warning comments |
| `TimeoutFacts.EarlyWarnUnreachable` | ansibullbot/triagers/plugins/needs_info.py:157-167 | when `expire - warn <= warn + 1`, as with the 30/60 defaults, a reference-dated ticket below the close threshold always gets no action |
| `TimeoutFacts.DefaultScenarios` | ansibullbot/triagers/plugins/needs_info.py:102-171 | with the defaults: label applied 31 days ago warns, 29 days ago does nothing, a needs-info warning 61 days old closes, a missing-data warning 61 days old with no needs-info warning warns |

## Left out

- The maintainer roster (ansibullbot/triagers/plugins/needs_info.py:10-20) is computed but never read. It is dead code and is not modelled.
- Logging (lines 120-123 and 155) is a side effect only.
- The clock (`datetime.now()` with `pytz`, line 129) is the parameter `now`.
- `ansibullbot.constants` is not part of this model. The thresholds are parameters, with the defaults of 30 and 60 that the comments at lines 102 and 104 state.
- The `iw.history` helpers (`label_last_applied`, `label_last_removed`, `last_date_for_boilerplate`, `get_boilerplate_comments`) are not part of this model. Their results are inputs, and the model does not relate `lastBaseWarning` to the count of `needs_info_base` keys.
- The caught `TypeError` at lines 152-155 (naive versus aware datetimes) is left out. Model timestamps are always comparable integers.
- Event timestamps are left out of `Event`. The replayer reads only actor, kind, label and body, in history order.
- `TemplateFacts.TemplateFactsOf`: `is_needs_info` is a `bool`. In the source, `meta.get` yields `None` when the key is absent.
- `TemplateFacts.ExpectedSections`: lower-casing covers ASCII letters only. Python's `str.lower()` also folds other scripts.
- Template values are strings. Python's falsy test on other value types is modelled only as the empty string.
