/**
 * The refiner: copies the plan and applies three fix passes to the copy,
 * in order: append the artifacts that coverage issues name, rewrite the
 * task descriptions that vagueness issues quote, and add the artifacts the
 * suggestions ask for. The issue texts are read back with the two regular
 * expressions `output '([^']+)' not in artifacts` and
 * `Task '([^']+)' has vague description`, modelled here as leftmost-match
 * string functions.
 */
module Refiner {
  import opened Wrappers
  import opened Strings
  import Json
  import opened Plans
  import opened Reviewer

  // ---------------------------------------------------------------------
  // The two regular expressions.

  const MISSING_PRE: string := "output '"
  const MISSING_POST: string := "' not in artifacts"
  const VAGUE_PRE: string := "Task '"
  const VAGUE_POST: string := "' has vague description"

  /** The first position at or after `j` that holds a single quote, or `|s|`. */
  function NextQuote(s: string, j: nat): (k: nat)
    requires j <= |s|
    decreases |s| - j
    ensures j <= k <= |s|
    ensures k < |s| ==> s[k] == '\''
    ensures forall i :: j <= i < k ==> s[i] != '\''
  {
    if j == |s| then j else if s[j] == '\'' then j else NextQuote(s, j + 1)
  }

  /** `pre`, `x` and `post` stand side by side in `s`, from position `i`. */
  predicate Framed(s: string, pre: string, x: string, post: string, i: nat) {
    OccursAt(s, pre, i) && OccursAt(s, x, i + |pre|) && OccursAt(s, post, i + |pre| + |x|)
  }

  /**
   * The pattern `pre([^']+)post` tried at position `i`, for a `post` that
   * starts with a quote: the group is the run of non-quote characters after
   * `pre`, which must be non-empty and followed by `post`. (A shorter run
   * cannot match either, because the character after it is not a quote.)
   */
  function MatchAt(s: string, pre: string, post: string, i: nat): (r: Option<string>)
    requires i <= |s|
    ensures r.Some? ==> r.value != "" && QuoteFree(r.value) && Framed(s, pre, r.value, post, i)
  {
    if OccursAt(s, pre, i) then
      var j := i + |pre|;
      var k := NextQuote(s, j);
      if k > j && OccursAt(s, post, k) then Some(s[j..k]) else None
    else None
  }

  /** `re.search` from position `i` on: none exactly when the pattern matches at no position. */
  function SearchFrom(s: string, pre: string, post: string, i: nat): (r: Option<string>)
    requires i <= |s|
    decreases |s| - i
    ensures r.None? <==> forall p :: i <= p <= |s| ==> MatchAt(s, pre, post, p).None?
    ensures r.Some? ==> r.value != "" && QuoteFree(r.value)
  {
    var m := MatchAt(s, pre, post, i);
    if m.Some? then m else if i == |s| then None else SearchFrom(s, pre, post, i + 1)
  }

  /** The match `re.search` returns is the leftmost one: it is the match at `p`, and no earlier position matches. */
  lemma {:induction false} SearchFromLeftmost(s: string, pre: string, post: string, i: nat) returns (p: nat)
    requires i <= |s| && SearchFrom(s, pre, post, i).Some?
    ensures i <= p <= |s| && MatchAt(s, pre, post, p) == SearchFrom(s, pre, post, i)
    ensures forall q :: i <= q < p ==> MatchAt(s, pre, post, q).None?
    decreases |s| - i
  {
    if MatchAt(s, pre, post, i).Some? {
      p := i;
    } else {
      assert i < |s| && SearchFrom(s, pre, post, i) == SearchFrom(s, pre, post, i + 1);
      p := SearchFromLeftmost(s, pre, post, i + 1);
    }
  }

  function Search(s: string, pre: string, post: string): (r: Option<string>)
    ensures r.None? <==> forall p :: 0 <= p <= |s| ==> MatchAt(s, pre, post, p).None?
    ensures r.Some? ==> r.value != "" && QuoteFree(r.value)
  {
    SearchFrom(s, pre, post, 0)
  }

  /** A group `re.search` returns stands between the two literals in the text. */
  lemma SearchFound(s: string, pre: string, post: string)
    ensures var r := Search(s, pre, post);
      r.Some? ==> Contains(s, pre + r.value + post)
  {
    var r := Search(s, pre, post);
    if r.Some? {
      var p := SearchFromLeftmost(s, pre, post, 0);
      OccursJoin(s, pre, r.value, post, p);
    }
  }

  /** The missing artifact a coverage issue names: the group of `output '([^']+)' not in artifacts`. */
  function ExtractMissing(issue: string): (r: Option<string>)
    ensures r.None? <==> forall p :: 0 <= p <= |issue| ==> MatchAt(issue, MISSING_PRE, MISSING_POST, p).None?
    ensures r.Some? ==> r.value != "" && QuoteFree(r.value) && Contains(issue, MISSING_PRE + r.value + MISSING_POST)
  {
    SearchFound(issue, MISSING_PRE, MISSING_POST);
    Search(issue, MISSING_PRE, MISSING_POST)
  }

  /** The description a vagueness issue quotes: the group of `Task '([^']+)' has vague description`. */
  function ExtractVague(issue: string): (r: Option<string>)
    ensures r.None? <==> forall p :: 0 <= p <= |issue| ==> MatchAt(issue, VAGUE_PRE, VAGUE_POST, p).None?
    ensures r.Some? ==> r.value != "" && QuoteFree(r.value) && Contains(issue, VAGUE_PRE + r.value + VAGUE_POST)
  {
    SearchFound(issue, VAGUE_PRE, VAGUE_POST);
    Search(issue, VAGUE_PRE, VAGUE_POST)
  }

  // ---------------------------------------------------------------------
  // Reading back a text framed by two quotes.

  /** The last character is a quote and no other one is. */
  predicate QuoteOnlyAtEnd(a: string) {
    |a| > 0 && a[|a| - 1] == '\'' && QuoteFree(a[..|a| - 1])
  }

  /** The first character is a quote and no other one is. */
  predicate QuoteOnlyAtStart(b: string) {
    |b| > 0 && b[0] == '\'' && QuoteFree(b[1..])
  }

  predicate IsPrefixOf(w: string, s: string) {
    |w| <= |s| && s[..|w|] == w
  }

  lemma FramedQuotes(a: string, x: string, b: string)
    requires QuoteOnlyAtEnd(a) && QuoteFree(x) && QuoteOnlyAtStart(b)
    ensures forall q :: 0 <= q < |a + x + b| && (a + x + b)[q] == '\'' ==> q == |a| - 1 || q == |a| + |x|
  {
    var s := a + x + b;
    forall q | 0 <= q < |s| && q != |a| - 1 && q != |a| + |x|
      ensures s[q] != '\''
    {
      if q < |a| - 1 {
        assert s[q] == a[..|a| - 1][q];
      } else if |a| <= q < |a| + |x| {
        assert s[q] == x[q - |a|];
      } else if q > |a| + |x| {
        assert s[q] == b[1..][q - |a| - |x| - 1];
      }
    }
  }

  lemma MatchAtFramed(a: string, x: string, b: string, pre: string, post: string, i: nat)
    requires QuoteOnlyAtEnd(a) && QuoteFree(x) && QuoteOnlyAtStart(b)
    requires |pre| > 0 && pre[|pre| - 1] == '\''
    requires |post| > 0 && post[0] == '\''
    requires i <= |a + x + b|
    ensures MatchAt(a + x + b, pre, post, i) ==
      if i + |pre| == |a| && EndsWith(a, pre) && x != "" && IsPrefixOf(post, b) then Some(x) else None
  {
    var s := a + x + b;
    FramedQuotes(a, x, b);
    if i + |pre| == |a| && EndsWith(a, pre) {
      assert s[i..i + |pre|] == a[i..];
    }
    if OccursAt(s, pre, i) {
      assert s[i + |pre| - 1] == pre[|pre| - 1];
      var j := i + |pre|;
      if j == |a| {
        assert s[i..j] == a[i..];
        var k := NextQuote(s, j);
        assert s[|a| + |x|] == b[0];
        assert k == |a| + |x|;
        assert s[j..k] == x;
        assert s[k..] == b;
        if OccursAt(s, post, k) {
          assert b[..|post|] == s[k..k + |post|];
        }
        if IsPrefixOf(post, b) {
          assert s[k..k + |post|] == b[..|post|];
        }
      } else {
        assert j == |a| + |x| + 1;
        assert NextQuote(s, j) == |s|;
      }
    }
  }

  lemma {:induction false} SearchFromFramed(a: string, x: string, b: string, pre: string, post: string, i: nat)
    requires QuoteOnlyAtEnd(a) && QuoteFree(x) && QuoteOnlyAtStart(b)
    requires |pre| > 0 && pre[|pre| - 1] == '\''
    requires |post| > 0 && post[0] == '\''
    requires i <= |a + x + b|
    decreases |a + x + b| - i
    ensures SearchFrom(a + x + b, pre, post, i) ==
      if i + |pre| <= |a| && EndsWith(a, pre) && x != "" && IsPrefixOf(post, b) then Some(x) else None
  {
    MatchAtFramed(a, x, b, pre, post, i);
    if i < |a + x + b| {
      SearchFromFramed(a, x, b, pre, post, i + 1);
    }
  }

  /**
   * A text framed as `a + x + b`, with the only quotes being the last of
   * `a` and the first of `b`, yields `x` exactly when `a` ends with the
   * pattern's prefix, `x` is non-empty and `b` starts with its suffix.
   */
  lemma SearchFramed(a: string, x: string, b: string, pre: string, post: string)
    requires QuoteOnlyAtEnd(a) && QuoteFree(x) && QuoteOnlyAtStart(b)
    requires |pre| > 0 && pre[|pre| - 1] == '\''
    requires |post| > 0 && post[0] == '\''
    ensures Search(a + x + b, pre, post) ==
      if EndsWith(a, pre) && x != "" && IsPrefixOf(post, b) then Some(x) else None
  {
    SearchFromFramed(a, x, b, pre, post, 0);
  }

  lemma {:induction false} SearchFromQuoteFree(s: string, pre: string, post: string, i: nat)
    requires QuoteFree(s) && |pre| > 0 && pre[|pre| - 1] == '\''
    requires i <= |s|
    decreases |s| - i
    ensures SearchFrom(s, pre, post, i) == None
  {
    if i + |pre| <= |s| {
      assert s[i..i + |pre|][|pre| - 1] == s[i + |pre| - 1];
    }
    if i < |s| {
      SearchFromQuoteFree(s, pre, post, i + 1);
    }
  }

  // ---------------------------------------------------------------------
  // The reviewer's texts read back.

  lemma MissingFrame(o: string)
    ensures MissingOutputIssue(o) == "Task output '" + o + "' not in artifacts list"
    ensures QuoteOnlyAtEnd("Task output '") && QuoteOnlyAtStart("' not in artifacts list")
  {
    assert QuoteFree(("Task output '")[..12]);
    assert QuoteFree(("' not in artifacts list")[1..]);
  }

  /** Round trip: a coverage issue gives back the output it names. */
  lemma MissingRoundTrip(o: string)
    requires o != "" && QuoteFree(o)
    ensures ExtractMissing(MissingOutputIssue(o)) == Some(o)
  {
    MissingFrame(o);
    assert ("Task output '")[5..] == MISSING_PRE;
    assert ("' not in artifacts list")[..18] == MISSING_POST;
    SearchFramed("Task output '", o, "' not in artifacts list", MISSING_PRE, MISSING_POST);
  }

  lemma VagueFrame(d: string)
    ensures VagueDescriptionIssue(d) == "Task '" + d + "' has vague description"
    ensures QuoteOnlyAtEnd("Task '") && QuoteOnlyAtStart("' has vague description")
  {
    assert QuoteFree(("Task '")[..5]);
    assert QuoteFree(("' has vague description")[1..]);
  }

  lemma TitleFrame(t: string)
    ensures VagueTitleIssue(t) == "Milestone '" + t + "' has vague title"
    ensures QuoteOnlyAtEnd("Milestone '") && QuoteOnlyAtStart("' has vague title")
  {
    assert QuoteFree(("Milestone '")[..10]);
    assert QuoteFree(("' has vague title")[1..]);
  }

  /** Round trip: a vagueness issue gives back the description it quotes. */
  lemma VagueRoundTrip(d: string)
    requires d != "" && QuoteFree(d)
    ensures ExtractVague(VagueDescriptionIssue(d)) == Some(d)
  {
    VagueFrame(d);
    assert ("Task '")[0..] == VAGUE_PRE;
    assert ("' has vague description")[..23] == VAGUE_POST;
    SearchFramed("Task '", d, "' has vague description", VAGUE_PRE, VAGUE_POST);
  }

  /** Neither pattern matches an issue of another kind. */
  lemma OtherIssuesDoNotMatch(o: string, t: string, d: string)
    requires QuoteFree(o) && QuoteFree(t) && QuoteFree(d)
    ensures ExtractVague(MissingOutputIssue(o)) == None
    ensures ExtractMissing(VagueDescriptionIssue(d)) == None
    ensures ExtractMissing(VagueTitleIssue(t)) == None && ExtractVague(VagueTitleIssue(t)) == None
    ensures ExtractMissing(EMPTY_ARTIFACTS_ISSUE) == None && ExtractVague(EMPTY_ARTIFACTS_ISSUE) == None
  {
    MissingFrame(o);
    VagueFrame(d);
    TitleFrame(t);
    assert ("Task output '")[7..][0] != VAGUE_PRE[0];
    SearchFramed("Task output '", o, "' not in artifacts list", VAGUE_PRE, VAGUE_POST);
    SearchFramed("Task '", d, "' has vague description", MISSING_PRE, MISSING_POST);
    assert ("Milestone '")[3..][0] != MISSING_PRE[0];
    assert ("Milestone '")[5..][0] != VAGUE_PRE[0];
    SearchFramed("Milestone '", t, "' has vague title", MISSING_PRE, MISSING_POST);
    SearchFramed("Milestone '", t, "' has vague title", VAGUE_PRE, VAGUE_POST);
    assert QuoteFree(EMPTY_ARTIFACTS_ISSUE);
    SearchFromQuoteFree(EMPTY_ARTIFACTS_ISSUE, MISSING_PRE, MISSING_POST, 0);
    SearchFromQuoteFree(EMPTY_ARTIFACTS_ISSUE, VAGUE_PRE, VAGUE_POST, 0);
  }

  // ---------------------------------------------------------------------
  // The three passes, specified on values.

  /** The names the coverage issues mention, in issue order. */
  function MissingNames(issues: seq<string>): seq<string> {
    if issues == [] then []
    else
      var m := ExtractMissing(issues[|issues| - 1]);
      MissingNames(issues[..|issues| - 1]) + (if m.Some? then [m.value] else [])
  }

  lemma MissingNamesSnoc(issues: seq<string>, i: nat)
    requires i < |issues|
    ensures var m := ExtractMissing(issues[i]);
      MissingNames(issues[..i + 1]) == if m.Some? then MissingNames(issues[..i]) + [m.value] else MissingNames(issues[..i])
  {
    assert issues[..i + 1][..i] == issues[..i];
  }

  /** Appends each of `xs`, in order, unless it is already present. */
  function AppendNew(a: seq<string>, xs: seq<string>): seq<string> {
    if xs == [] then a
    else
      var r := AppendNew(a, xs[..|xs| - 1]);
      if xs[|xs| - 1] in r then r else r + [xs[|xs| - 1]]
  }

  lemma AppendNewSnoc(a: seq<string>, xs: seq<string>, x: string)
    ensures AppendNew(a, xs + [x]) == if x in AppendNew(a, xs) then AppendNew(a, xs) else AppendNew(a, xs) + [x]
  {
    assert (xs + [x])[..|xs|] == xs;
  }

  /** `_fix_missing_artifacts`. */
  function AddMissing(artifacts: seq<string>, issues: seq<string>): seq<string> {
    AppendNew(artifacts, MissingNames(issues))
  }

  /** The descriptions the vagueness issues quote. */
  function VagueTexts(issues: seq<string>): set<string> {
    if issues == [] then {}
    else
      var m := ExtractVague(issues[|issues| - 1]);
      VagueTexts(issues[..|issues| - 1]) + (if m.Some? then {m.value} else {})
  }

  const CLARIFIED: string := " (clarified during refinement)"

  function ClarifyTask(t: Task, vague: set<string>): Task {
    if t.description in vague then t.(description := t.description + CLARIFIED) else t
  }

  function ClarifyTasks(ts: seq<Task>, vague: set<string>): seq<Task> {
    seq(|ts|, j requires 0 <= j < |ts| => ClarifyTask(ts[j], vague))
  }

  /** `_fix_vague_descriptions`: every task whose description is quoted is rewritten. */
  function Clarify(ms: seq<Milestone>, vague: set<string>): seq<Milestone> {
    seq(|ms|, i requires 0 <= i < |ms| => ms[i].(tasks := ClarifyTasks(ms[i].tasks, vague)))
  }

  const TEST_FILE: string := "tests/test_basic.py"
  const TESTS_DIR: string := "tests/"
  const README_FILE: string := "README.md"

  predicate AsksForTests(suggestion: string) {
    Contains(Lower(suggestion), "test")
  }

  predicate AsksForDocs(suggestion: string) {
    Contains(Lower(suggestion), "readme") || Contains(Lower(suggestion), "documentation")
  }

  /**
   * One suggestion: a test file (and the tests directory, only together
   * with a newly added test file), then a README.
   */
  function SuggestionStep(artifacts: seq<string>, suggestion: string): seq<string> {
    DocsStep(TestsStep(artifacts, suggestion), suggestion)
  }

  /** The test rule of one suggestion. */
  function TestsStep(artifacts: seq<string>, suggestion: string): seq<string> {
    if AsksForTests(suggestion) && TEST_FILE !in artifacts then
      artifacts + [TEST_FILE] + (if TESTS_DIR !in artifacts then [TESTS_DIR] else [])
    else artifacts
  }

  /** The documentation rule of one suggestion. */
  function DocsStep(artifacts: seq<string>, suggestion: string): seq<string> {
    if AsksForDocs(suggestion) && README_FILE !in artifacts then artifacts + [README_FILE] else artifacts
  }

  /** `_apply_suggestions`. */
  function AddSuggested(artifacts: seq<string>, suggestions: seq<string>): seq<string> {
    if suggestions == [] then artifacts
    else SuggestionStep(AddSuggested(artifacts, suggestions[..|suggestions| - 1]), suggestions[|suggestions| - 1])
  }

  lemma AddSuggestedSnoc(a: seq<string>, ss: seq<string>, i: nat)
    requires i < |ss|
    ensures AddSuggested(a, ss[..i + 1]) == SuggestionStep(AddSuggested(a, ss[..i]), ss[i])
  {
    assert ss[..i + 1][..i] == ss[..i];
  }

  /** `refine_plan`: the three passes applied to a copy, in order. */
  function Refine(p: Plan, v: Verdict): Plan {
    p.(milestones := Clarify(p.milestones, VagueTexts(v.issues)),
       artifacts := AddSuggested(AddMissing(p.artifacts, v.issues), v.suggestions))
  }

  // ---------------------------------------------------------------------
  // `refine_plan`'s three passes, run in place on a mutable copy of the plan.

  /** The deep copy of the plan that the passes edit in place. */
  class PlanDraft {
    var feature: Json.Value
    var milestones: seq<Milestone>
    var artifacts: seq<string>
    var status: Json.Value

    /** `copy.deepcopy(plan)`. */
    constructor (p: Plan)
      ensures Snapshot() == p
    {
      feature := p.feature;
      milestones := p.milestones;
      artifacts := p.artifacts;
      status := p.status;
    }

    function Snapshot(): Plan
      reads this
    {
      Plan(feature, milestones, artifacts, status)
    }

    /** Appends each named missing artifact that the list does not hold yet. */
    method FixMissingArtifacts(issues: seq<string>)
      modifies this
      ensures Snapshot() == old(Snapshot()).(artifacts := AddMissing(old(artifacts), issues))
    {
      var present := set a | a in artifacts;
      for i := 0 to |issues|
        invariant artifacts == AppendNew(old(artifacts), MissingNames(issues[..i]))
        invariant present == set a | a in artifacts
        invariant feature == old(feature) && milestones == old(milestones) && status == old(status)
      {
        MissingNamesSnoc(issues, i);
        var m := ExtractMissing(issues[i]);
        if m.Some? {
          AppendNewSnoc(old(artifacts), MissingNames(issues[..i]), m.value);
          if m.value !in present {
            ElementsSnoc(artifacts, m.value);
            artifacts := artifacts + [m.value];
            present := present + {m.value};
          }
        }
      }
      assert issues[..|issues|] == issues;
    }

    /** Rewrites every task whose description a vagueness issue quotes. */
    method FixVagueDescriptions(issues: seq<string>)
      modifies this
      ensures Snapshot() == old(Snapshot()).(milestones := Clarify(old(milestones), VagueTexts(issues)))
    {
      var vague: set<string> := {};
      for i := 0 to |issues|
        invariant vague == VagueTexts(issues[..i])
      {
        assert issues[..i + 1][..i] == issues[..i];
        var m := ExtractVague(issues[i]);
        if m.Some? {
          vague := vague + {m.value};
        }
      }
      assert issues[..|issues|] == issues;
      ghost var ms0 := milestones;
      for i := 0 to |milestones|
        invariant |milestones| == |ms0|
        invariant forall k :: 0 <= k < i ==> milestones[k] == ms0[k].(tasks := ClarifyTasks(ms0[k].tasks, vague))
        invariant forall k :: i <= k < |ms0| ==> milestones[k] == ms0[k]
        invariant Snapshot() == old(Snapshot()).(milestones := milestones)
      {
        for j := 0 to |milestones[i].tasks|
          invariant |milestones| == |ms0|
          invariant forall k :: 0 <= k < i ==> milestones[k] == ms0[k].(tasks := ClarifyTasks(ms0[k].tasks, vague))
          invariant forall k :: i < k < |ms0| ==> milestones[k] == ms0[k]
          invariant milestones[i].id == ms0[i].id && milestones[i].title == ms0[i].title
          invariant |milestones[i].tasks| == |ms0[i].tasks|
          invariant forall l :: 0 <= l < j ==> milestones[i].tasks[l] == ClarifyTask(ms0[i].tasks[l], vague)
          invariant forall l :: j <= l < |ms0[i].tasks| ==> milestones[i].tasks[l] == ms0[i].tasks[l]
          invariant Snapshot() == old(Snapshot()).(milestones := milestones)
        {
          var task := milestones[i].tasks[j];
          if task.description in vague {
            milestones := milestones[i := milestones[i].(tasks := milestones[i].tasks[j := task.(description := task.description + CLARIFIED)])];
          }
        }
        assert milestones[i].tasks == ClarifyTasks(ms0[i].tasks, vague);
      }
      assert milestones == Clarify(ms0, vague);
    }
  
    /** Adds the test file, the tests directory and the README the suggestions ask for. */
    method ApplySuggestions(suggestions: seq<string>)
      modifies this
      ensures Snapshot() == old(Snapshot()).(artifacts := AddSuggested(old(artifacts), suggestions))
    {
      var present := set a | a in artifacts;
      for i := 0 to |suggestions|
        invariant artifacts == AddSuggested(old(artifacts), suggestions[..i])
        invariant present == set a | a in artifacts
        invariant feature == old(feature) && milestones == old(milestones) && status == old(status)
      {
        AddSuggestedSnoc(old(artifacts), suggestions, i);
        ghost var before := artifacts;
        var lower := Lower(suggestions[i]);
        if Contains(lower, "test") {
          if TEST_FILE !in present {
            ElementsSnoc(artifacts, TEST_FILE);
            artifacts := artifacts + [TEST_FILE];
            present := present + {TEST_FILE};
            if TESTS_DIR !in present {
              ElementsSnoc(artifacts, TESTS_DIR);
              artifacts := artifacts + [TESTS_DIR];
              present := present + {TESTS_DIR};
            }
          }
        }
        assert artifacts == TestsStep(before, suggestions[i]);
        ghost var withTests := artifacts;
        if Contains(lower, "readme") || Contains(lower, "documentation") {
          if README_FILE !in present {
            ElementsSnoc(artifacts, README_FILE);
            artifacts := artifacts + [README_FILE];
            present := present + {README_FILE};
          }
        }
        assert artifacts == DocsStep(withTests, suggestions[i]);
      }
      assert suggestions[..|suggestions|] == suggestions;
    }
  }

  /** The membership set that runs alongside a list grows with each append. */
  lemma ElementsSnoc(a: seq<string>, x: string)
    ensures (set y | y in a + [x]) == (set y | y in a) + {x}
  {
  }

  /** `refine_plan`: the passes run on a fresh copy, so the input plan is left as it was. */
  method RefinePlan(p: Plan, v: Verdict) returns (r: Plan)
    ensures r == Refine(p, v)
  {
    var draft := new PlanDraft(p);
    draft.FixMissingArtifacts(v.issues);
    draft.FixVagueDescriptions(v.issues);
    draft.ApplySuggestions(v.suggestions);
    r := draft.Snapshot();
  }

  // ---------------------------------------------------------------------
  // What the artifact passes guarantee.

  /** The position where `y` first occurs. */
  function FirstIndex(xs: seq<string>, y: string): (k: nat)
    requires y in xs
    ensures k < |xs| && xs[k] == y
    ensures forall l :: 0 <= l < k ==> xs[l] != y
  {
    if xs[0] == y then 0 else 1 + FirstIndex(xs[1..], y)
  }

  lemma FirstIndexSnoc(xs: seq<string>, x: string, y: string)
    requires y in xs + [x]
    ensures y in xs ==> FirstIndex(xs + [x], y) == FirstIndex(xs, y)
    ensures y !in xs ==> FirstIndex(xs + [x], y) == |xs|
  {
    assert forall l :: 0 <= l < |xs| ==> (xs + [x])[l] == xs[l];
    if y in xs {
      var k0 := FirstIndex(xs, y);
      assert (xs + [x])[k0] == y;
    }
  }

  /**
   * Appending the new names keeps the old list as a prefix, adds exactly
   * the names not yet present, never a duplicate, and in the order in
   * which the names are first mentioned.
   */
  lemma {:induction false} AppendNewProps(a: seq<string>, xs: seq<string>)
    ensures a <= AppendNew(a, xs)
    ensures forall y :: y in AppendNew(a, xs) <==> y in a || y in xs
    ensures forall k :: |a| <= k < |AppendNew(a, xs)| ==> AppendNew(a, xs)[k] in xs && AppendNew(a, xs)[k] !in a
    ensures NoDuplicates(a) ==> NoDuplicates(AppendNew(a, xs))
    ensures forall k1, k2 :: |a| <= k1 < k2 < |AppendNew(a, xs)| ==>
      FirstIndex(xs, AppendNew(a, xs)[k1]) < FirstIndex(xs, AppendNew(a, xs)[k2])
  {
    if xs != [] {
      var init, x := xs[..|xs| - 1], xs[|xs| - 1];
      assert xs == init + [x];
      AppendNewProps(a, init);
      var r0 := AppendNew(a, init);
      var r := AppendNew(a, xs);
      forall k | |a| <= k < |r0|
        ensures FirstIndex(xs, r0[k]) == FirstIndex(init, r0[k])
      {
        FirstIndexSnoc(init, x, r0[k]);
      }
      if x !in r0 {
        assert r == r0 + [x];
        FirstIndexSnoc(init, x, x);
        forall k1, k2 | |a| <= k1 < k2 < |r|
          ensures FirstIndex(xs, r[k1]) < FirstIndex(xs, r[k2])
        {
          if k2 == |r0| {
            assert r[k1] == r0[k1];
            assert FirstIndex(init, r0[k1]) < |init|;
          } else {
            assert r[k1] == r0[k1] && r[k2] == r0[k2];
          }
        }
      }
    }
  }

  /** A name is added when some issue names it. */
  lemma {:induction false} MissingNamesMember(issues: seq<string>, x: string)
    ensures x in MissingNames(issues) <==> exists k :: 0 <= k < |issues| && ExtractMissing(issues[k]) == Some(x)
  {
    if issues != [] {
      var init := issues[..|issues| - 1];
      MissingNamesMember(init, x);
      assert forall k :: 0 <= k < |init| ==> init[k] == issues[k];
    }
  }

  /** A description is rewritten when some issue quotes it. */
  lemma {:induction false} VagueTextsMember(issues: seq<string>, d: string)
    ensures d in VagueTexts(issues) <==> exists k :: 0 <= k < |issues| && ExtractVague(issues[k]) == Some(d)
  {
    if issues != [] {
      var init := issues[..|issues| - 1];
      VagueTextsMember(init, d);
      assert forall k :: 0 <= k < |init| ==> init[k] == issues[k];
    }
  }

  /**
   * `_fix_missing_artifacts`: the old artifacts stay a prefix, every
   * extracted name ends up in the list, nothing else is added, no
   * duplicate is introduced, and additions follow issue order.
   */
  lemma AddMissingProps(artifacts: seq<string>, issues: seq<string>)
    ensures artifacts <= AddMissing(artifacts, issues)
    ensures forall y :: y in AddMissing(artifacts, issues) <==>
      y in artifacts || exists k :: 0 <= k < |issues| && ExtractMissing(issues[k]) == Some(y)
    ensures NoDuplicates(artifacts) ==> NoDuplicates(AddMissing(artifacts, issues))
    ensures forall k1, k2 :: |artifacts| <= k1 < k2 < |AddMissing(artifacts, issues)| ==>
      AddMissing(artifacts, issues)[k1] in MissingNames(issues) && AddMissing(artifacts, issues)[k2] in MissingNames(issues) &&
      FirstIndex(MissingNames(issues), AddMissing(artifacts, issues)[k1]) < FirstIndex(MissingNames(issues), AddMissing(artifacts, issues)[k2])
  {
    AppendNewProps(artifacts, MissingNames(issues));
    forall y {
      MissingNamesMember(issues, y);
    }
  }

  lemma SuggestionStepProps(a: seq<string>, s: string)
    ensures a <= SuggestionStep(a, s)
    ensures forall y :: y in SuggestionStep(a, s) ==> y in a || y == TEST_FILE || y == TESTS_DIR || y == README_FILE
    ensures TEST_FILE in SuggestionStep(a, s) <==> TEST_FILE in a || AsksForTests(s)
    ensures TESTS_DIR in SuggestionStep(a, s) <==> TESTS_DIR in a || (TEST_FILE !in a && AsksForTests(s))
    ensures README_FILE in SuggestionStep(a, s) <==> README_FILE in a || AsksForDocs(s)
    ensures NoDuplicates(a) ==> NoDuplicates(SuggestionStep(a, s))
  {
  }

  /**
   * `_apply_suggestions`: a test suggestion adds the test file, and the
   * tests directory only along with a newly added test file; a
   * documentation suggestion adds the README; nothing else is added and
   * the old list stays a prefix.
   */
  lemma {:induction false} AddSuggestedProps(a: seq<string>, ss: seq<string>)
    ensures a <= AddSuggested(a, ss)
    ensures forall y :: y in AddSuggested(a, ss) ==> y in a || y == TEST_FILE || y == TESTS_DIR || y == README_FILE
    ensures TEST_FILE in AddSuggested(a, ss) <==> TEST_FILE in a || exists i :: 0 <= i < |ss| && AsksForTests(ss[i])
    ensures TESTS_DIR in AddSuggested(a, ss) <==>
      TESTS_DIR in a || (TEST_FILE !in a && exists i :: 0 <= i < |ss| && AsksForTests(ss[i]))
    ensures README_FILE in AddSuggested(a, ss) <==> README_FILE in a || exists i :: 0 <= i < |ss| && AsksForDocs(ss[i])
    ensures NoDuplicates(a) ==> NoDuplicates(AddSuggested(a, ss))
  {
    if ss != [] {
      var init := ss[..|ss| - 1];
      var last := ss[|ss| - 1];
      AddSuggestedProps(a, init);
      SuggestionStepProps(AddSuggested(a, init), last);
      assert forall i :: 0 <= i < |init| ==> init[i] == ss[i];
      assert (exists i :: 0 <= i < |ss| && AsksForTests(ss[i])) <==>
        (exists i :: 0 <= i < |init| && AsksForTests(init[i])) || AsksForTests(last);
      assert (exists i :: 0 <= i < |ss| && AsksForDocs(ss[i])) <==>
        (exists i :: 0 <= i < |init| && AsksForDocs(init[i])) || AsksForDocs(last);
    }
  }

  lemma {:induction false} AppendNewPresent(a: seq<string>, xs: seq<string>)
    requires forall x :: x in xs ==> x in a
    ensures AppendNew(a, xs) == a
  {
    if xs != [] {
      AppendNewPresent(a, xs[..|xs| - 1]);
    }
  }

  lemma {:induction false} AddSuggestedSatisfied(a: seq<string>, ss: seq<string>)
    requires forall i :: 0 <= i < |ss| ==> (AsksForTests(ss[i]) ==> TEST_FILE in a) && (AsksForDocs(ss[i]) ==> README_FILE in a)
    ensures AddSuggested(a, ss) == a
  {
    if ss != [] {
      AddSuggestedSatisfied(a, ss[..|ss| - 1]);
    }
  }

  /** The artifacts of a refined plan: old ones first, no new duplicate, every extracted name present. */
  lemma RefineArtifacts(p: Plan, v: Verdict)
    ensures p.artifacts <= Refine(p, v).artifacts
    ensures NoDuplicates(p.artifacts) ==> NoDuplicates(Refine(p, v).artifacts)
    ensures forall k :: 0 <= k < |v.issues| && ExtractMissing(v.issues[k]).Some? ==>
      ExtractMissing(v.issues[k]).value in Refine(p, v).artifacts
  {
    var added := AddMissing(p.artifacts, v.issues);
    AddMissingProps(p.artifacts, v.issues);
    AddSuggestedProps(added, v.suggestions);
  }

  /** The two artifact passes run a second time with the same issues and suggestions add nothing. */
  lemma ArtifactPassesIdempotent(a: seq<string>, issues: seq<string>, ss: seq<string>)
    ensures var r := AddSuggested(AddMissing(a, issues), ss);
      AddSuggested(AddMissing(r, issues), ss) == r
  {
    var added := AddMissing(a, issues);
    var r := AddSuggested(added, ss);
    AppendNewProps(a, MissingNames(issues));
    AddSuggestedProps(added, ss);
    forall x | x in MissingNames(issues)
      ensures x in r
    {
      assert x in added;
    }
    AppendNewPresent(r, MissingNames(issues));
    AddSuggestedSatisfied(r, ss);
  }

  /** Refining again with the same verdict adds no artifact. */
  lemma RefineArtifactsIdempotent(p: Plan, v: Verdict)
    ensures Refine(Refine(p, v), v).artifacts == Refine(p, v).artifacts
  {
    ArtifactPassesIdempotent(p.artifacts, v.issues, v.suggestions);
  }

  // ---------------------------------------------------------------------
  // What the description pass guarantees.

  /**
   * A description that a vagueness issue quotes gets the clarification
   * suffix; every other description, and every title, id, step, output and
   * priority, is left as it was.
   */
  lemma RefineRewritesOnlyQuoted(p: Plan, v: Verdict)
    ensures Refine(p, v).feature == p.feature && Refine(p, v).status == p.status
    ensures |Refine(p, v).milestones| == |p.milestones|
    ensures forall i :: 0 <= i < |p.milestones| ==>
      var m, m' := p.milestones[i], Refine(p, v).milestones[i];
      m'.id == m.id && m'.title == m.title && |m'.tasks| == |m.tasks|
    ensures forall i, j :: 0 <= i < |p.milestones| && 0 <= j < |p.milestones[i].tasks| ==>
      var t, t' := p.milestones[i].tasks[j], Refine(p, v).milestones[i].tasks[j];
      t'.step == t.step && t'.output == t.output && t'.priority == t.priority &&
      t'.description == (if exists k :: 0 <= k < |v.issues| && ExtractVague(v.issues[k]) == Some(t.description)
                         then t.description + CLARIFIED else t.description)
  {
    forall d {
      VagueTextsMember(v.issues, d);
    }
  }

  /** The clarified text keeps the original as a prefix, so it is still vague. */
  lemma ClarifiedStaysVague(d: string)
    requires Vague(Lower(d))
    ensures Vague(Lower(d + CLARIFIED))
  {
    var k :| 0 <= k < |VAGUE_WORDS| && Contains(Lower(d), VAGUE_WORDS[k]);
    LowerContainsExtend(d, CLARIFIED, VAGUE_WORDS[k]);
  }

  /** Refinement never makes vague content go away: titles are kept and clarified descriptions stay vague. */
  lemma RefineKeepsVagueness(p: Plan, v: Verdict)
    ensures forall i :: 0 <= i < |p.milestones| && Vague(Lower(p.milestones[i].title)) ==>
      Vague(Lower(Refine(p, v).milestones[i].title))
    ensures forall i, j ::
      (0 <= i < |p.milestones| && 0 <= j < |p.milestones[i].tasks| && Vague(Lower(p.milestones[i].tasks[j].description))) ==>
        Vague(Lower(Refine(p, v).milestones[i].tasks[j].description))
    ensures !VagueFree(p.milestones) ==> !VagueFree(Refine(p, v).milestones)
  {
    var vague := VagueTexts(v.issues);
    forall i, j | 0 <= i < |p.milestones| && 0 <= j < |p.milestones[i].tasks| &&
      Vague(Lower(p.milestones[i].tasks[j].description))
      ensures Vague(Lower(Refine(p, v).milestones[i].tasks[j].description))
    {
      ClarifiedStaysVague(p.milestones[i].tasks[j].description);
    }
  }

  // ---------------------------------------------------------------------
  // Refining with the plan's own review.

  /** No title, description or output of the plan has a single quote in it. */
  predicate QuoteFreePlan(p: Plan) {
    forall i :: 0 <= i < |p.milestones| ==>
      QuoteFree(p.milestones[i].title) &&
      forall j :: 0 <= j < |p.milestones[i].tasks| ==>
        QuoteFree(p.milestones[i].tasks[j].description) && QuoteFree(p.milestones[i].tasks[j].output)
  }

  /** No task output of the plan has a single quote in it. */
  predicate OutputsQuoteFree(p: Plan) {
    forall i, j :: 0 <= i < |p.milestones| && 0 <= j < |p.milestones[i].tasks| ==>
      QuoteFree(p.milestones[i].tasks[j].output)
  }

  lemma VagueNonEmpty(text: string)
    requires Vague(Lower(text))
    ensures text != ""
  {
    var k :| 0 <= k < |VAGUE_WORDS| && Contains(Lower(text), VAGUE_WORDS[k]);
    assert |VAGUE_WORDS[k]| > 0;
  }

  /** What the refiner reads out of one of the plan's own review issues. */
  lemma ReviewIssueExtractions(p: Plan, issue: string)
    requires QuoteFreePlan(p)
    requires issue in Review(p).issues
    ensures ExtractMissing(issue).Some? ==>
      var o := ExtractMissing(issue).value;
      o != "" && o !in p.artifacts &&
      exists i, j :: 0 <= i < |p.milestones| && 0 <= j < |p.milestones[i].tasks| && p.milestones[i].tasks[j].output == o
    ensures ExtractVague(issue).Some? ==>
      exists i, j :: 0 <= i < |p.milestones| && 0 <= j < |p.milestones[i].tasks| &&
        p.milestones[i].tasks[j].description == ExtractVague(issue).value && Vague(Lower(ExtractVague(issue).value))
  {
    var ms := p.milestones;
    if issue in ArtifactIssues(p) {
      OtherIssuesDoNotMatch("", "", "");
    } else if issue in CoverageIssues(p) {
      CoverageIssueIff(p, "");
      var o :| issue == MissingOutputIssue(o) && o != "" && o !in p.artifacts;
      CoverageIssueIff(p, o);
      var i, j :| 0 <= i < |ms| && 0 <= j < |ms[i].tasks| && ms[i].tasks[j].output == o;
      OtherIssuesDoNotMatch(o, "", "");
      MissingRoundTrip(o);
    } else {
      assert issue in VagueIssues(ms);
      VagueIssueMember(ms, issue);
      if exists i :: 0 <= i < |ms| && Vague(Lower(ms[i].title)) && issue == VagueTitleIssue(ms[i].title) {
        var i :| 0 <= i < |ms| && Vague(Lower(ms[i].title)) && issue == VagueTitleIssue(ms[i].title);
        OtherIssuesDoNotMatch("", ms[i].title, "");
      } else {
        var i, j :| 0 <= i < |ms| && 0 <= j < |ms[i].tasks| && Vague(Lower(ms[i].tasks[j].description))
          && issue == VagueDescriptionIssue(ms[i].tasks[j].description);
        var d := ms[i].tasks[j].description;
        VagueNonEmpty(d);
        OtherIssuesDoNotMatch("", "", d);
        VagueRoundTrip(d);
      }
    }
  }

  /** A verdict that names every uncovered output makes the refined plan cover them all. */
  lemma RefineCoversNamed(p: Plan, v: Verdict)
    requires forall i, j ::
      (0 <= i < |p.milestones| && 0 <= j < |p.milestones[i].tasks| && Uncovered(p.milestones[i].tasks[j], p.artifacts)) ==>
        exists k :: 0 <= k < |v.issues| && ExtractMissing(v.issues[k]) == Some(p.milestones[i].tasks[j].output)
    ensures Covered(Refine(p, v))
  {
    var r := Refine(p, v);
    var ms := p.milestones;
    RefineArtifacts(p, v);
    forall i, j | 0 <= i < |ms| && 0 <= j < |ms[i].tasks|
      ensures !Uncovered(r.milestones[i].tasks[j], r.artifacts)
    {
      assert r.milestones[i].tasks[j] == ClarifyTask(ms[i].tasks[j], VagueTexts(v.issues));
    }
  }

  /** The review names every uncovered output, when no output has a quote, in a form the refiner reads back. */
  lemma ReviewNamesUncovered(p: Plan, i: nat, j: nat)
    requires OutputsQuoteFree(p)
    requires i < |p.milestones| && j < |p.milestones[i].tasks| && Uncovered(p.milestones[i].tasks[j], p.artifacts)
    ensures exists k :: 0 <= k < |Review(p).issues| && ExtractMissing(Review(p).issues[k]) == Some(p.milestones[i].tasks[j].output)
  {
    var o := p.milestones[i].tasks[j].output;
    CoverageIssueIff(p, o);
    var issues := Review(p).issues;
    assert issues == ArtifactIssues(p) + CoverageIssues(p) + VagueIssues(p.milestones);
    assert MissingOutputIssue(o) in issues;
    var k :| 0 <= k < |issues| && issues[k] == MissingOutputIssue(o);
    MissingRoundTrip(o);
  }

  /** Refining a plan with quote-free outputs with its own review repairs every coverage issue. */
  lemma RefineRepairsCoverage(p: Plan)
    requires OutputsQuoteFree(p)
    ensures Covered(Refine(p, Review(p)))
  {
    forall i, j | 0 <= i < |p.milestones| && 0 <= j < |p.milestones[i].tasks| && Uncovered(p.milestones[i].tasks[j], p.artifacts)
      ensures exists k :: 0 <= k < |Review(p).issues| && ExtractMissing(Review(p).issues[k]) == Some(p.milestones[i].tasks[j].output)
    {
      ReviewNamesUncovered(p, i, j);
    }
    RefineCoversNamed(p, Review(p));
  }

  /** A verdict that quotes exactly the vague descriptions makes the refiner clarify exactly those. */
  lemma RefineClarifiesQuoted(p: Plan, v: Verdict)
    requires forall i, j :: 0 <= i < |p.milestones| && 0 <= j < |p.milestones[i].tasks| ==>
      ((exists k :: 0 <= k < |v.issues| && ExtractVague(v.issues[k]) == Some(p.milestones[i].tasks[j].description))
        <==> Vague(Lower(p.milestones[i].tasks[j].description)))
    ensures forall i, j :: 0 <= i < |p.milestones| && 0 <= j < |p.milestones[i].tasks| ==>
      var d := p.milestones[i].tasks[j].description;
      Refine(p, v).milestones[i].tasks[j].description == if Vague(Lower(d)) then d + CLARIFIED else d
  {
    var ms := p.milestones;
    forall i, j | 0 <= i < |ms| && 0 <= j < |ms[i].tasks|
      ensures var d := ms[i].tasks[j].description;
        Refine(p, v).milestones[i].tasks[j].description == if Vague(Lower(d)) then d + CLARIFIED else d
    {
      assert Refine(p, v).milestones[i].tasks[j] == ClarifyTask(ms[i].tasks[j], VagueTexts(v.issues));
      VagueTextsMember(v.issues, ms[i].tasks[j].description);
    }
  }

  /** The review quotes a description of a quote-free plan exactly when it is vague. */
  lemma ReviewQuotesVague(p: Plan, i: nat, j: nat)
    requires QuoteFreePlan(p)
    requires i < |p.milestones| && j < |p.milestones[i].tasks|
    ensures (exists k :: 0 <= k < |Review(p).issues| && ExtractVague(Review(p).issues[k]) == Some(p.milestones[i].tasks[j].description))
      <==> Vague(Lower(p.milestones[i].tasks[j].description))
  {
    var d := p.milestones[i].tasks[j].description;
    var issues := Review(p).issues;
    assert issues == ArtifactIssues(p) + CoverageIssues(p) + VagueIssues(p.milestones);
    if Vague(Lower(d)) {
      VagueIssueMember(p.milestones, VagueDescriptionIssue(d));
      assert VagueDescriptionIssue(d) in issues;
      var k :| 0 <= k < |issues| && issues[k] == VagueDescriptionIssue(d);
      VagueNonEmpty(d);
      VagueRoundTrip(d);
    } else if exists k :: 0 <= k < |issues| && ExtractVague(issues[k]) == Some(d) {
      var k :| 0 <= k < |issues| && ExtractVague(issues[k]) == Some(d);
      ReviewIssueExtractions(p, issues[k]);
      assert false;
    }
  }

  /** Refining a quote-free plan with its own review clarifies exactly its vague descriptions. */
  lemma RefineClarifiesVague(p: Plan)
    requires QuoteFreePlan(p)
    ensures forall i, j :: 0 <= i < |p.milestones| && 0 <= j < |p.milestones[i].tasks| ==>
      var d := p.milestones[i].tasks[j].description;
      Refine(p, Review(p)).milestones[i].tasks[j].description == if Vague(Lower(d)) then d + CLARIFIED else d
  {
    forall i, j | 0 <= i < |p.milestones| && 0 <= j < |p.milestones[i].tasks|
      ensures (exists k :: 0 <= k < |Review(p).issues| && ExtractVague(Review(p).issues[k]) == Some(p.milestones[i].tasks[j].description))
        <==> Vague(Lower(p.milestones[i].tasks[j].description))
    {
      ReviewQuotesVague(p, i, j);
    }
    RefineClarifiesQuoted(p, Review(p));
  }

  lemma TestsSuggestionWording()
    ensures OccursAt(TESTS_SUGGESTION, "test", 16)
  {
    assert TESTS_SUGGESTION == "Consider adding " + "test" + " files to artifacts";
    OccursMiddle("Consider adding ", "test", " files to artifacts");
  }

  lemma DocsSuggestionWording()
    ensures OccursAt(DOCS_SUGGESTION, "documentation", 16)
  {
    assert DOCS_SUGGESTION == "Consider adding " + "documentation" + " (README.md)";
    OccursMiddle("Consider adding ", "documentation", " (README.md)");
  }

  /** The reviewer's test and documentation suggestions are worded so that the refiner acts on them. */
  lemma SuggestionsAreActedOn()
    ensures AsksForTests(TESTS_SUGGESTION)
    ensures AsksForDocs(DOCS_SUGGESTION)
  {
    TestsSuggestionWording();
    assert NoUpper("test");
    OccursLower(TESTS_SUGGESTION, "test", 16);
    DocsSuggestionWording();
    assert NoUpper("documentation");
    OccursLower(DOCS_SUGGESTION, "documentation", 16);
  }

  /**
   * A plan with no artifacts does not stay empty after one refinement with
   * its own review: the review always suggests tests and documentation,
   * and those suggestions add the test file and the README.
   */
  lemma EmptyArtifactsRepaired(p: Plan)
    requires p.artifacts == []
    ensures TEST_FILE in Refine(p, Review(p)).artifacts
    ensures README_FILE in Refine(p, Review(p)).artifacts
  {
    var v := Review(p);
    var ss := v.suggestions;
    assert ss == Suggestions(p);
    SuggestionRules(p);
    assert TESTS_SUGGESTION in ss && DOCS_SUGGESTION in ss;
    var i :| 0 <= i < |ss| && ss[i] == TESTS_SUGGESTION;
    var j :| 0 <= j < |ss| && ss[j] == DOCS_SUGGESTION;
    SuggestionsAreActedOn();
    AddSuggestedProps(AddMissing(p.artifacts, v.issues), ss);
  }
}
