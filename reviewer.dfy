/**
 * The reviewer: a pure function from a plan to a verdict. Three issue
 * checks run in order (empty artifacts, output coverage, vague wording) and
 * three independent suggestions are computed; the plan is approved exactly
 * when there is no issue. The issue texts are a protocol: the refiner reads
 * the missing output and the vague description back out of them.
 */
module Reviewer {
  import opened Strings
  import opened Plans

  const VAGUE_WORDS: seq<string> := ["something", "stuff", "things", "etc", "various", "misc"]

  datatype Verdict = Verdict(approved: bool, issues: seq<string>, suggestions: seq<string>)

  const EMPTY_ARTIFACTS_ISSUE: string := "Artifacts list is empty"

  function MissingOutputIssue(output: string): string {
    "Task output '" + output + "' not in artifacts list"
  }

  function VagueTitleIssue(title: string): string {
    "Milestone '" + title + "' has vague title"
  }

  function VagueDescriptionIssue(description: string): string {
    "Task '" + description + "' has vague description"
  }

  const TESTS_SUGGESTION: string := "Consider adding test files to artifacts"
  const DOCS_SUGGESTION: string := "Consider adding documentation (README.md)"
  const SPLIT_SUGGESTION: string := "Consider breaking work into multiple milestones"

  // ---------------------------------------------------------------------
  // Specification of the checks.

  /** A lower-cased text is vague when one of the vague words occurs in it, even inside another word. */
  predicate Vague(text: string) {
    exists k :: 0 <= k < |VAGUE_WORDS| && Contains(text, VAGUE_WORDS[k])
  }

  /** `_check_artifacts`. */
  function ArtifactIssues(p: Plan): (r: seq<string>)
    ensures r == [] <==> p.artifacts != []
    ensures r != [] ==> r == [EMPTY_ARTIFACTS_ISSUE]
  {
    if |p.artifacts| == 0 then [EMPTY_ARTIFACTS_ISSUE] else []
  }

  /** A task whose output is named but is not an artifact of the plan. */
  predicate Uncovered(t: Task, artifacts: seq<string>) {
    t.output != "" && t.output !in artifacts
  }

  /** One coverage issue per uncovered task, in task order. */
  function CoverageOf(ts: seq<Task>, artifacts: seq<string>): seq<string> {
    if ts == [] then []
    else
      var first := if Uncovered(ts[0], artifacts) then [MissingOutputIssue(ts[0].output)] else [];
      first + CoverageOf(ts[1..], artifacts)
  }

  function CoverageIssues(p: Plan): seq<string> {
    CoverageOf(AllTasks(p.milestones), p.artifacts)
  }

  function TitleIssues(m: Milestone): seq<string> {
    if Vague(Lower(m.title)) then [VagueTitleIssue(m.title)] else []
  }

  function DescriptionIssues(ts: seq<Task>): seq<string> {
    if ts == [] then []
    else
      var first := if Vague(Lower(ts[0].description)) then [VagueDescriptionIssue(ts[0].description)] else [];
      first + DescriptionIssues(ts[1..])
  }

  /** A milestone's title issue comes before the issues of its tasks. */
  function MilestoneVagueIssues(m: Milestone): seq<string> {
    TitleIssues(m) + DescriptionIssues(m.tasks)
  }

  function VagueIssues(ms: seq<Milestone>): seq<string> {
    if ms == [] then [] else MilestoneVagueIssues(ms[0]) + VagueIssues(ms[1..])
  }

  /** `_generate_suggestions`: three independent rules, in this order. */
  function Suggestions(p: Plan): seq<string> {
    var hasTestArtifact := exists a :: a in p.artifacts && Contains(Lower(a), "test");
    var hasDocs := exists a :: a in p.artifacts && EndsWith(a, ".md");
    (if !hasTestArtifact then [TESTS_SUGGESTION] else [])
    + (if !hasDocs then [DOCS_SUGGESTION] else [])
    + (if |p.milestones| == 1 then [SPLIT_SUGGESTION] else [])
  }

  /** Each rule fires exactly when its condition holds, and nothing else is suggested. */
  lemma SuggestionRules(p: Plan)
    ensures TESTS_SUGGESTION in Suggestions(p) <==> forall a :: a in p.artifacts ==> !Contains(Lower(a), "test")
    ensures DOCS_SUGGESTION in Suggestions(p) <==> forall a :: a in p.artifacts ==> !EndsWith(a, ".md")
    ensures SPLIT_SUGGESTION in Suggestions(p) <==> |p.milestones| == 1
    ensures forall s :: s in Suggestions(p) ==> s in [TESTS_SUGGESTION, DOCS_SUGGESTION, SPLIT_SUGGESTION]
  {
  }

  /** Position of a suggestion in the order the rules emit them. */
  function SuggestionRank(s: string): nat {
    if s == TESTS_SUGGESTION then 0 else if s == DOCS_SUGGESTION then 1 else 2
  }

  /** The suggestions come in rule order, so none is repeated. */
  lemma SuggestionsOrdered(p: Plan)
    ensures forall i, j :: 0 <= i < j < |Suggestions(p)| ==> SuggestionRank(Suggestions(p)[i]) < SuggestionRank(Suggestions(p)[j])
  {
  }

  /** `review_plan`: the issues of the three checks, in order, and the suggestions. */
  function Review(p: Plan): Verdict {
    var issues := ArtifactIssues(p) + CoverageIssues(p) + VagueIssues(p.milestones);
    Verdict(issues == [], issues, Suggestions(p))
  }

  // ---------------------------------------------------------------------
  // `_check_outputs_in_artifacts`, `_check_vague_content` and `review_plan`, loop by loop.

  /** `_is_vague`: scans the vague words in order and stops at the first one found. */
  method IsVague(text: string) returns (b: bool)
    ensures b == Vague(text)
  {
    for k := 0 to |VAGUE_WORDS|
      invariant forall j :: 0 <= j < k ==> !Contains(text, VAGUE_WORDS[j])
    {
      if Contains(text, VAGUE_WORDS[k]) {
        return true;
      }
    }
    return false;
  }

  /** `_check_outputs_in_artifacts`: nested loops over milestones and tasks. */
  method CheckOutputsInArtifacts(p: Plan) returns (issues: seq<string>)
    ensures issues == CoverageIssues(p)
  {
    issues := [];
    var ms := p.milestones;
    for i := 0 to |ms|
      invariant issues == CoverageOf(AllTasks(ms[..i]), p.artifacts)
    {
      var ts := ms[i].tasks;
      assert AllTasks(ms[..i]) + ts[..0] == AllTasks(ms[..i]);
      for j := 0 to |ts|
        invariant issues == CoverageOf(AllTasks(ms[..i]) + ts[..j], p.artifacts)
      {
        var output := ts[j].output;
        if output != "" && output !in p.artifacts {
          issues := issues + [MissingOutputIssue(output)];
        }
        assert ts[..j + 1] == ts[..j] + [ts[j]];
        assert AllTasks(ms[..i]) + ts[..j + 1] == (AllTasks(ms[..i]) + ts[..j]) + [ts[j]];
        CoverageAppend(AllTasks(ms[..i]) + ts[..j], [ts[j]], p.artifacts);
      }
      assert ts[..|ts|] == ts;
      assert ms[..i + 1] == ms[..i] + [ms[i]];
      AllTasksSnoc(ms[..i], ms[i]);
    }
    assert ms[..|ms|] == ms;
  }

  /** `_check_vague_content`: a milestone's title, then each of its tasks' descriptions. */
  method CheckVagueContent(p: Plan) returns (issues: seq<string>)
    ensures issues == VagueIssues(p.milestones)
  {
    issues := [];
    var ms := p.milestones;
    for i := 0 to |ms|
      invariant issues == VagueIssues(ms[..i])
    {
      var m := ms[i];
      ghost var before := issues;
      var titleVague := IsVague(Lower(m.title));
      if titleVague {
        issues := issues + [VagueTitleIssue(m.title)];
      }
      ghost var afterTitle := issues;
      var ts := m.tasks;
      for j := 0 to |ts|
        invariant issues == afterTitle + DescriptionIssues(ts[..j])
      {
        var descVague := IsVague(Lower(ts[j].description));
        if descVague {
          issues := issues + [VagueDescriptionIssue(ts[j].description)];
        }
        DescriptionSnoc(ts, j);
      }
      assert ts[..|ts|] == ts;
      VagueSnoc(ms, i);
    }
    assert ms[..|ms|] == ms;
  }

  /** `review_plan`; it only reads the plan, which is a value here. */
  method ReviewPlan(p: Plan) returns (v: Verdict)
    ensures v == Review(p)
    ensures v.approved <==> v.issues == []
  {
    var issues := ArtifactIssues(p);
    var coverage := CheckOutputsInArtifacts(p);
    issues := issues + coverage;
    var vague := CheckVagueContent(p);
    issues := issues + vague;
    var suggestions := Suggestions(p);
    v := Verdict(|issues| == 0, issues, suggestions);
  }

  // ---------------------------------------------------------------------
  // Lemmas.

  lemma {:induction false} CoverageAppend(a: seq<Task>, b: seq<Task>, artifacts: seq<string>)
    ensures CoverageOf(a + b, artifacts) == CoverageOf(a, artifacts) + CoverageOf(b, artifacts)
  {
    if a == [] {
      assert a + b == b;
    } else {
      assert (a + b)[1..] == a[1..] + b;
      CoverageAppend(a[1..], b, artifacts);
    }
  }

  lemma {:induction false} DescriptionAppend(a: seq<Task>, b: seq<Task>)
    ensures DescriptionIssues(a + b) == DescriptionIssues(a) + DescriptionIssues(b)
  {
    if a == [] {
      assert a + b == b;
    } else {
      assert (a + b)[1..] == a[1..] + b;
      DescriptionAppend(a[1..], b);
    }
  }

  lemma {:induction false} VagueAppend(a: seq<Milestone>, b: seq<Milestone>)
    ensures VagueIssues(a + b) == VagueIssues(a) + VagueIssues(b)
  {
    if a == [] {
      assert a + b == b;
    } else {
      assert (a + b)[1..] == a[1..] + b;
      VagueAppend(a[1..], b);
    }
  }

  lemma DescriptionSnoc(ts: seq<Task>, j: nat)
    requires j < |ts|
    ensures DescriptionIssues(ts[..j + 1]) ==
      DescriptionIssues(ts[..j]) + if Vague(Lower(ts[j].description)) then [VagueDescriptionIssue(ts[j].description)] else []
  {
    assert ts[..j + 1] == ts[..j] + [ts[j]];
    DescriptionAppend(ts[..j], [ts[j]]);
  }

  lemma VagueSnoc(ms: seq<Milestone>, i: nat)
    requires i < |ms|
    ensures VagueIssues(ms[..i + 1]) == VagueIssues(ms[..i]) + TitleIssues(ms[i]) + DescriptionIssues(ms[i].tasks)
  {
    assert ms[..i + 1] == ms[..i] + [ms[i]];
    assert VagueIssues([ms[i]]) == MilestoneVagueIssues(ms[i]);
    VagueAppend(ms[..i], [ms[i]]);
  }

  /** Every named task output of the plan is one of its artifacts. */
  predicate Covered(p: Plan) {
    forall i, j :: 0 <= i < |p.milestones| && 0 <= j < |p.milestones[i].tasks| ==>
      !Uncovered(p.milestones[i].tasks[j], p.artifacts)
  }

  /** No milestone title and no task description contains a vague word. */
  predicate VagueFree(ms: seq<Milestone>) {
    forall i :: 0 <= i < |ms| ==>
      !Vague(Lower(ms[i].title)) && forall j :: 0 <= j < |ms[i].tasks| ==> !Vague(Lower(ms[i].tasks[j].description))
  }

  lemma {:induction false} CoverageOfEmpty(ts: seq<Task>, artifacts: seq<string>)
    ensures CoverageOf(ts, artifacts) == [] <==> forall t :: t in ts ==> !Uncovered(t, artifacts)
  {
    if ts != [] {
      CoverageOfEmpty(ts[1..], artifacts);
      assert forall t :: t in ts ==> t == ts[0] || t in ts[1..];
    }
  }

  lemma CoverageEmpty(p: Plan)
    ensures CoverageIssues(p) == [] <==> Covered(p)
  {
    var ms := p.milestones;
    CoverageOfEmpty(AllTasks(ms), p.artifacts);
    forall t | t in AllTasks(ms)
      ensures exists i, j :: 0 <= i < |ms| && 0 <= j < |ms[i].tasks| && t == ms[i].tasks[j]
    {
      AllTasksMember(ms, t);
    }
    forall i, j | 0 <= i < |ms| && 0 <= j < |ms[i].tasks|
      ensures ms[i].tasks[j] in AllTasks(ms)
    {
      AllTasksMember(ms, ms[i].tasks[j]);
    }
  }

  lemma {:induction false} DescriptionIssuesEmpty(ts: seq<Task>)
    ensures DescriptionIssues(ts) == [] <==> forall j :: 0 <= j < |ts| ==> !Vague(Lower(ts[j].description))
  {
    if ts != [] {
      DescriptionIssuesEmpty(ts[1..]);
      assert forall j :: 1 <= j < |ts| ==> ts[j] == ts[1..][j - 1];
    }
  }

  lemma {:induction false} VagueIssuesEmpty(ms: seq<Milestone>)
    ensures VagueIssues(ms) == [] <==> VagueFree(ms)
  {
    if ms != [] {
      VagueIssuesEmpty(ms[1..]);
      DescriptionIssuesEmpty(ms[0].tasks);
      assert forall i :: 1 <= i < |ms| ==> ms[i] == ms[1..][i - 1];
    }
  }

  /** The plan is approved exactly when it has artifacts, covers every output and has no vague wording. */
  lemma ApprovedIff(p: Plan)
    ensures Review(p).approved <==> p.artifacts != [] && Covered(p) && VagueFree(p.milestones)
    ensures Review(p).approved <==> Review(p).issues == []
  {
    CoverageEmpty(p);
    VagueIssuesEmpty(p.milestones);
  }

  lemma MissingOutputIssueInjective(a: string, b: string)
    requires MissingOutputIssue(a) == MissingOutputIssue(b)
    ensures a == b
  {
    var x, y := MissingOutputIssue(a), MissingOutputIssue(b);
    assert a == x[13..|x| - 23];
    assert b == y[13..|y| - 23];
  }

  lemma {:induction false} CoverageOfMember(ts: seq<Task>, artifacts: seq<string>, issue: string)
    ensures issue in CoverageOf(ts, artifacts) <==>
      exists t :: t in ts && Uncovered(t, artifacts) && issue == MissingOutputIssue(t.output)
  {
    if ts != [] {
      CoverageOfMember(ts[1..], artifacts, issue);
      assert forall t :: t in ts ==> t == ts[0] || t in ts[1..];
    }
  }

  /**
   * Coverage issues are exactly the missing-output texts of the uncovered
   * tasks: one names output `o` if and only if some task with output `o`
   * is uncovered. An empty output is never flagged.
   */
  lemma CoverageIssueIff(p: Plan, o: string)
    ensures MissingOutputIssue(o) in CoverageIssues(p) <==>
      o != "" && o !in p.artifacts &&
      exists i, j :: 0 <= i < |p.milestones| && 0 <= j < |p.milestones[i].tasks| && p.milestones[i].tasks[j].output == o
    ensures forall issue :: issue in CoverageIssues(p) ==> exists o' :: issue == MissingOutputIssue(o') && o' != "" && o' !in p.artifacts
  {
    var ms := p.milestones;
    CoverageOfMember(AllTasks(ms), p.artifacts, MissingOutputIssue(o));
    if MissingOutputIssue(o) in CoverageIssues(p) {
      var t :| t in AllTasks(ms) && Uncovered(t, p.artifacts) && MissingOutputIssue(o) == MissingOutputIssue(t.output);
      MissingOutputIssueInjective(o, t.output);
      AllTasksMember(ms, t);
      var i :| 0 <= i < |ms| && t in ms[i].tasks;
      var j :| 0 <= j < |ms[i].tasks| && ms[i].tasks[j] == t;
    }
    if o != "" && o !in p.artifacts &&
      exists i, j :: 0 <= i < |ms| && 0 <= j < |ms[i].tasks| && ms[i].tasks[j].output == o {
      var i, j :| 0 <= i < |ms| && 0 <= j < |ms[i].tasks| && ms[i].tasks[j].output == o;
      AllTasksMember(ms, ms[i].tasks[j]);
    }
    forall issue | issue in CoverageIssues(p)
      ensures exists o' :: issue == MissingOutputIssue(o') && o' != "" && o' !in p.artifacts
    {
      CoverageOfMember(AllTasks(ms), p.artifacts, issue);
    }
  }

  lemma {:induction false} DescriptionIssuesMember(ts: seq<Task>, issue: string)
    ensures issue in DescriptionIssues(ts) <==>
      exists j :: 0 <= j < |ts| && Vague(Lower(ts[j].description)) && issue == VagueDescriptionIssue(ts[j].description)
  {
    if ts != [] {
      DescriptionIssuesMember(ts[1..], issue);
      assert forall j :: 1 <= j < |ts| ==> ts[j] == ts[1..][j - 1];
      if issue in DescriptionIssues(ts[1..]) {
        var j :| 0 <= j < |ts[1..]| && Vague(Lower(ts[1..][j].description)) && issue == VagueDescriptionIssue(ts[1..][j].description);
        assert ts[j + 1] == ts[1..][j];
      }
    }
  }

  /**
   * Vagueness issues quote the original-case text: a title issue for every
   * vague milestone title, a description issue for every vague task
   * description, and nothing else.
   */
  lemma {:induction false} VagueIssueMember(ms: seq<Milestone>, issue: string)
    ensures issue in VagueIssues(ms) <==>
      (exists i :: 0 <= i < |ms| && Vague(Lower(ms[i].title)) && issue == VagueTitleIssue(ms[i].title)) ||
      (exists i, j :: 0 <= i < |ms| && 0 <= j < |ms[i].tasks| && Vague(Lower(ms[i].tasks[j].description))
        && issue == VagueDescriptionIssue(ms[i].tasks[j].description))
  {
    if ms != [] {
      VagueIssueMember(ms[1..], issue);
      DescriptionIssuesMember(ms[0].tasks, issue);
      assert forall i :: 1 <= i < |ms| ==> ms[i] == ms[1..][i - 1];
      if exists i :: 0 <= i < |ms[1..]| && Vague(Lower(ms[1..][i].title)) && issue == VagueTitleIssue(ms[1..][i].title) {
        var i :| 0 <= i < |ms[1..]| && Vague(Lower(ms[1..][i].title)) && issue == VagueTitleIssue(ms[1..][i].title);
        assert ms[i + 1] == ms[1..][i];
      }
      if exists i, j :: (0 <= i < |ms[1..]| && 0 <= j < |ms[1..][i].tasks| && Vague(Lower(ms[1..][i].tasks[j].description))
          && issue == VagueDescriptionIssue(ms[1..][i].tasks[j].description)) {
        var i, j :| 0 <= i < |ms[1..]| && 0 <= j < |ms[1..][i].tasks| && Vague(Lower(ms[1..][i].tasks[j].description))
          && issue == VagueDescriptionIssue(ms[1..][i].tasks[j].description);
        assert ms[i + 1] == ms[1..][i];
      }
    }
  }
}
