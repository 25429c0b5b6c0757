/** Template completeness, as `needs_info_template_facts` decides it: which required
    template sections are absent or empty, whether that forces the needs-info flag, and
    whether the "missing data" warning comment still has to be posted. */
module TemplateFacts {
  import opened Text

  const IssueType: string := "issue type"
  const ComponentName: string := "component name"
  const AnsibleVersion: string := "ansible version"
  /** Issue types (lower-cased) that are not asked for a version. */
  const VersionExempt: set<string> := {"feature idea", "documentation report"}
  /** Component match strategy marking a component already named by a bot command. */
  const ComponentCommand: string := "component_command"
  /** Boilerplate key of the "missing data" warning comment. */
  const IssueMissingData: string := "issue_missing_data"

  /** The facts this step derives for a ticket. */
  datatype NeedsInfoFacts = NeedsInfoFacts(
    templateMissing: bool,
    templateMissingSections: seq<string>,
    templateWarningRequired: bool,
    isNeedsInfo: bool)

  /** The declared issue type, or the empty string when the template has none. */
  function IssueTypeOf(template: map<string, string>): (r: string)
    ensures IssueType in template ==> r == template[IssueType]
    ensures r != "" ==> IssueType in template
  {
    if IssueType in template then template[IssueType] else ""
  }

  /** The template sections a ticket is expected to fill, in the order they are reported. */
  function ExpectedSections(isPullRequest: bool, issueType: string): (r: seq<string>)
    ensures |r| >= 1 && r[0] == IssueType
    ensures r <= [IssueType, ComponentName, AnsibleVersion]
    ensures isPullRequest ==> r == [IssueType]
    ensures ComponentName in r <==> !isPullRequest
    ensures AnsibleVersion in r <==> !isPullRequest && Lower(issueType) !in VersionExempt
  {
    if isPullRequest then [IssueType]
    else if Lower(issueType) in VersionExempt then [IssueType, ComponentName]
    else [IssueType, ComponentName, AnsibleVersion]
  }

  /** A section counts as missing when it is absent or empty; the component name is never
      missing once a bot command has named the component. */
  function SectionMissing(template: map<string, string>, key: string, strategy: seq<string>): (r: bool)
    ensures key != ComponentName ==> (r <==> key !in template || template[key] == "")
    ensures ComponentCommand !in strategy ==> (r <==> key !in template || template[key] == "")
    ensures key == ComponentName && ComponentCommand in strategy ==> !r
    ensures key in template && template[key] != "" ==> !r
  {
    && (key !in template || template[key] == "")
    && !(key == ComponentName && ComponentCommand in strategy)
  }

  /** The expected sections that are missing, kept in their expected order. */
  function MissingSections(expected: seq<string>, template: map<string, string>, strategy: seq<string>): (r: seq<string>)
    ensures IsSubsequence(r, expected)
    ensures forall k :: k in r <==> k in expected && SectionMissing(template, k, strategy)
    decreases |expected|
  {
    if expected == [] then []
    else
      var rest := MissingSections(expected[1..], template, strategy);
      assert forall k :: k in expected <==> k == expected[0] || k in expected[1..];
      if SectionMissing(template, expected[0], strategy) then [expected[0]] + rest
      else rest
  }

  /** The whole template step. `isPullRequest` decides which sections are expected and
      `isIssue` decides whether a gap forces the needs-info flag; the ticket model keeps
      them as two separate answers. */
  function TemplateFactsOf(
    template: map<string, string>,
    isPullRequest: bool,
    isIssue: bool,
    isNeedsInfo: bool,
    strategy: seq<string>,
    boilerplateKeys: seq<string>): (r: NeedsInfoFacts)
    ensures r.templateMissing <==> |template| == 0
    ensures IsSubsequence(r.templateMissingSections, ExpectedSections(isPullRequest, IssueTypeOf(template)))
    ensures forall k :: k in r.templateMissingSections <==>
      k in ExpectedSections(isPullRequest, IssueTypeOf(template)) && SectionMissing(template, k, strategy)
    ensures r.isNeedsInfo <==>
      isNeedsInfo || (isIssue && (r.templateMissing || r.templateMissingSections != []))
    ensures r.templateWarningRequired <==>
      (r.templateMissing || r.templateMissingSections != []) && IssueMissingData !in boilerplateKeys
  {
    var missingTemplate := |template| == 0;
    var sections := MissingSections(ExpectedSections(isPullRequest, IssueTypeOf(template)), template, strategy);
    var anything := missingTemplate || sections != [];
    NeedsInfoFacts(
      missingTemplate,
      sections,
      anything && IssueMissingData !in boilerplateKeys,
      isNeedsInfo || (anything && isIssue))
  }

  /** A pull request can only ever be reported as missing its issue type. */
  lemma PullRequestOnlyMissesIssueType(
    template: map<string, string>, isIssue: bool, isNeedsInfo: bool,
    strategy: seq<string>, boilerplateKeys: seq<string>)
    ensures TemplateFactsOf(template, true, isIssue, isNeedsInfo, strategy, boilerplateKeys).templateMissingSections
            in {[], [IssueType]}
  {
    var s := TemplateFactsOf(template, true, isIssue, isNeedsInfo, strategy, boilerplateKeys).templateMissingSections;
    assert IsSubsequence(s, [IssueType]);
    SubsequenceLength(s, [IssueType]);
    if s != [] {
      SubsequenceElements(s, [IssueType]);
      assert s[0] in s;
      assert s == [IssueType];
    }
  }

  /** Feature ideas and documentation reports, in any letter case, are never asked for a version. */
  lemma ExemptTypesNeverMissVersion(
    template: map<string, string>, isPullRequest: bool, isIssue: bool, isNeedsInfo: bool,
    strategy: seq<string>, boilerplateKeys: seq<string>)
    requires Lower(IssueTypeOf(template)) in VersionExempt
    ensures AnsibleVersion !in
      TemplateFactsOf(template, isPullRequest, isIssue, isNeedsInfo, strategy, boilerplateKeys).templateMissingSections
  {
  }

  /** An issue is asked for a version exactly when its declared type, in any letter case, is
      not an exempt type; "Feature Idea" is exempt and "bug report" is not. */
  lemma VersionRequirementByType(issueType: string)
    ensures Lower(issueType) in VersionExempt ==> ExpectedSections(false, issueType) == [IssueType, ComponentName]
    ensures Lower(issueType) !in VersionExempt ==>
      ExpectedSections(false, issueType) == [IssueType, ComponentName, AnsibleVersion]
    ensures Lower("Feature Idea") in VersionExempt && Lower("bug report") !in VersionExempt
  {
    assert Lower("Feature Idea") == "feature idea";
    assert Lower("bug report") == "bug report";
  }

  /** Once a bot command has named the component, its section is never reported missing. */
  lemma ComponentCommandExemptsComponent(
    template: map<string, string>, isPullRequest: bool, isIssue: bool, isNeedsInfo: bool,
    strategy: seq<string>, boilerplateKeys: seq<string>)
    requires ComponentCommand in strategy
    ensures ComponentName !in
      TemplateFactsOf(template, isPullRequest, isIssue, isNeedsInfo, strategy, boilerplateKeys).templateMissingSections
  {
  }

  /** An empty template on an issue lists every expected section (all but the component name
      once a bot command has named it), forces the flag, and asks for the warning unless it was
      already posted. */
  lemma EmptyTemplateOnIssue(isNeedsInfo: bool, strategy: seq<string>, boilerplateKeys: seq<string>)
    ensures var r := TemplateFactsOf(map[], false, true, isNeedsInfo, strategy, boilerplateKeys);
      && r.templateMissing
      && r.templateMissingSections ==
         (if ComponentCommand in strategy then [IssueType, AnsibleVersion]
          else [IssueType, ComponentName, AnsibleVersion])
      && r.isNeedsInfo
      && (r.templateWarningRequired <==> IssueMissingData !in boilerplateKeys)
  {
    var e := ExpectedSections(false, "");
    assert Lower("") == "";
    assert e == [IssueType, ComponentName, AnsibleVersion];
    assert e[1..][1..][1..] == [];
  }

  /** The same empty template on a pull request does not force the flag but is still reported. */
  lemma EmptyTemplateOnPullRequest(isNeedsInfo: bool, strategy: seq<string>, boilerplateKeys: seq<string>)
    ensures var r := TemplateFactsOf(map[], true, false, isNeedsInfo, strategy, boilerplateKeys);
      && r.templateMissing
      && r.templateMissingSections == [IssueType]
      && r.isNeedsInfo == isNeedsInfo
  {
    assert [IssueType][1..] == [];
  }

  /** The warning is never asked for twice: once posted, it is not required again. */
  lemma WarningPostedOnce(
    template: map<string, string>, isPullRequest: bool, isIssue: bool, isNeedsInfo: bool,
    strategy: seq<string>, boilerplateKeys: seq<string>)
    requires IssueMissingData in boilerplateKeys
    ensures !TemplateFactsOf(template, isPullRequest, isIssue, isNeedsInfo, strategy, boilerplateKeys).templateWarningRequired
  {
  }

  /** The facts depend on the template only through its emptiness and the three sections the
      step reads: other sections may be added, removed or changed freely. */
  lemma {:induction false} OnlyRequiredSectionsMatter(
    t1: map<string, string>, t2: map<string, string>, isPullRequest: bool, isIssue: bool,
    isNeedsInfo: bool, strategy: seq<string>, boilerplateKeys: seq<string>)
    requires (|t1| == 0) == (|t2| == 0)
    requires forall k :: k in {IssueType, ComponentName, AnsibleVersion} ==>
      (k in t1 <==> k in t2) && (k in t1 ==> t1[k] == t2[k])
    ensures TemplateFactsOf(t1, isPullRequest, isIssue, isNeedsInfo, strategy, boilerplateKeys)
         == TemplateFactsOf(t2, isPullRequest, isIssue, isNeedsInfo, strategy, boilerplateKeys)
  {
    assert IssueTypeOf(t1) == IssueTypeOf(t2);
    var e := ExpectedSections(isPullRequest, IssueTypeOf(t1));
    MissingSectionsLocal(e, t1, t2, strategy);
  }

  /** `MissingSections` only looks at the expected keys of the template. */
  lemma {:induction false} MissingSectionsLocal(
    expected: seq<string>, t1: map<string, string>, t2: map<string, string>, strategy: seq<string>)
    requires forall k :: k in expected ==> (k in t1 <==> k in t2) && (k in t1 ==> t1[k] == t2[k])
    ensures MissingSections(expected, t1, strategy) == MissingSections(expected, t2, strategy)
    decreases |expected|
  {
    if expected != [] {
      assert expected[0] in expected;
      assert forall k :: k in expected[1..] ==> k in expected;
      MissingSectionsLocal(expected[1..], t1, t2, strategy);
    }
  }
}
