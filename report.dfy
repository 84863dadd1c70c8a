/**
 * The report aggregator: the summary counters, the fixed-order suggestion
 * list and the first-match-wins assessment ladder.
 */
module Report {
  import opened Types
  import opened Text

  /** `files.reduce(...)` over additions plus deletions: the size of the change. */
  function TotalChanges(files: seq<CodeFile>): nat
    decreases |files|
  {
    if files == [] then 0
    else
      var last := files[|files| - 1];
      TotalChanges(files[..|files| - 1]) + last.additions + last.deletions
  }

  /** The running `totalAdditions` of the analysis loop. */
  function SumAdditions(files: seq<CodeFile>): nat
    decreases |files|
  {
    if files == [] then 0 else SumAdditions(files[..|files| - 1]) + files[|files| - 1].additions
  }

  /** The running `totalDeletions` of the analysis loop. */
  function SumDeletions(files: seq<CodeFile>): nat
    decreases |files|
  {
    if files == [] then 0 else SumDeletions(files[..|files| - 1]) + files[|files| - 1].deletions
  }

  /** The change size the suggestions look at is the summary's additions plus deletions. */
  lemma {:induction false} TotalChangesIsSum(files: seq<CodeFile>)
    ensures TotalChanges(files) == SumAdditions(files) + SumDeletions(files)
    decreases |files|
  {
    if files != [] {
      TotalChangesIsSum(files[..|files| - 1]);
    }
  }

  /** The running totals of two lists of files in turn add up. */
  lemma {:induction false} SumsAppend(a: seq<CodeFile>, b: seq<CodeFile>)
    ensures SumAdditions(a + b) == SumAdditions(a) + SumAdditions(b)
    ensures SumDeletions(a + b) == SumDeletions(a) + SumDeletions(b)
    decreases |b|
  {
    if b == [] {
      assert a + b == a;
    } else {
      assert (a + b)[..|a + b| - 1] == a + b[..|b| - 1];
      SumsAppend(a, b[..|b| - 1]);
    }
  }

  /** The running totals after one more file. */
  lemma SumsStep(files: seq<CodeFile>, i: nat)
    requires i < |files|
    ensures SumAdditions(files[..i + 1]) == SumAdditions(files[..i]) + files[i].additions
    ensures SumDeletions(files[..i + 1]) == SumDeletions(files[..i]) + files[i].deletions
  {
    assert files[..i + 1][..i] == files[..i];
  }

  /** A file anywhere in the list adds its additions and deletions to the totals. */
  lemma SumsWithFile(pre: seq<CodeFile>, f: CodeFile, post: seq<CodeFile>)
    ensures SumAdditions(pre + [f] + post) == SumAdditions(pre + post) + f.additions
    ensures SumDeletions(pre + [f] + post) == SumDeletions(pre + post) + f.deletions
  {
    SumsAppend(pre + [f], post);
    SumsAppend(pre, [f]);
    SumsAppend(pre, post);
    assert [f][..0] == [];
  }

  /** `issues.some(i => i.type === "security")`. */
  function AnySecurity(issues: seq<CodeIssue>): (found: bool)
    ensures found <==> exists k :: 0 <= k < |issues| && issues[k].kind == Security
  {
    if issues == [] then false
    else
      assert forall k :: 1 <= k < |issues| ==> issues[k] == issues[1..][k - 1];
      issues[0].kind == Security || AnySecurity(issues[1..])
  }

  /** `issues.filter(i => i.type === "security").length`. */
  function CountSecurity(issues: seq<CodeIssue>): (n: nat)
    ensures n <= |issues|
    ensures n > 0 <==> exists k :: 0 <= k < |issues| && issues[k].kind == Security
    decreases |issues|
  {
    if issues == [] then 0
    else
      var init := issues[..|issues| - 1];
      assert forall k :: 0 <= k < |init| ==> init[k] == issues[k];
      CountSecurity(init) + (if issues[|issues| - 1].kind == Security then 1 else 0)
  }

  /** `issues.filter(i => i.severity === "high").length`. */
  function CountHigh(issues: seq<CodeIssue>): (n: nat)
    ensures n <= |issues|
    ensures n > 0 <==> exists k :: 0 <= k < |issues| && issues[k].severity == High
    decreases |issues|
  {
    if issues == [] then 0
    else
      var init := issues[..|issues| - 1];
      assert forall k :: 0 <= k < |init| ==> init[k] == issues[k];
      CountHigh(init) + (if issues[|issues| - 1].severity == High then 1 else 0)
  }

  /** Counting security issues distributes over concatenation. */
  lemma {:induction false} CountSecurityAppend(a: seq<CodeIssue>, b: seq<CodeIssue>)
    ensures CountSecurity(a + b) == CountSecurity(a) + CountSecurity(b)
    decreases |b|
  {
    if b == [] {
      assert a + b == a;
    } else {
      assert (a + b)[..|a + b| - 1] == a + b[..|b| - 1];
      CountSecurityAppend(a, b[..|b| - 1]);
    }
  }

  /** Some file name contains "test" or "spec" (case-sensitive). */
  function HasTests(files: seq<CodeFile>): (found: bool)
    ensures found <==>
      exists k :: 0 <= k < |files| && (Contains(files[k].filename, "test") || Contains(files[k].filename, "spec"))
  {
    if files == [] then false
    else
      assert forall k :: 1 <= k < |files| ==> files[k] == files[1..][k - 1];
      Contains(files[0].filename, "test") || Contains(files[0].filename, "spec")
      || HasTests(files[1..])
  }

  /** The position of each suggestion in the fixed order of the list. */
  function Position(s: SuggestionText): nat {
    match s
    case FixSecurityFirst => 0
    case SplitLargeChange => 1
    case AddTests => 2
  }

  /**
   * The suggestions of `generateSuggestions`: fix security issues first when
   * there is one, split the change when it exceeds 500 changed lines, add
   * tests when no file name mentions tests and more than 50 lines changed.
   * Each appears at most once, always in that order.
   */
  function Suggestions(files: seq<CodeFile>, issues: seq<CodeIssue>): (r: seq<SuggestionText>)
    ensures FixSecurityFirst in r <==> exists k :: 0 <= k < |issues| && issues[k].kind == Security
    ensures SplitLargeChange in r <==> TotalChanges(files) > 500
    ensures AddTests in r <==>
      TotalChanges(files) > 50
      && forall k :: 0 <= k < |files| ==> !Contains(files[k].filename, "test") && !Contains(files[k].filename, "spec")
    ensures forall i, j :: 0 <= i < j < |r| ==> Position(r[i]) < Position(r[j])
    ensures |r| <= 3
  {
    (if AnySecurity(issues) then [FixSecurityFirst] else [])
    + (if TotalChanges(files) > 500 then [SplitLargeChange] else [])
    + (if !HasTests(files) && TotalChanges(files) > 50 then [AddTests] else [])
  }

  /** `generateSuggestions`: builds the list by successive pushes. */
  method GenerateSuggestions(files: seq<CodeFile>, issues: seq<CodeIssue>)
    returns (suggestions: seq<SuggestionText>)
    ensures suggestions == Suggestions(files, issues)
  {
    suggestions := [];
    if AnySecurity(issues) {
      suggestions := suggestions + [FixSecurityFirst];
    }
    var totalChanges := TotalChanges(files);
    if totalChanges > 500 {
      suggestions := suggestions + [SplitLargeChange];
    }
    var hasTests := HasTests(files);
    if !hasTests && totalChanges > 50 {
      suggestions := suggestions + [AddTests];
    }
  }

  /** An issue that alone forces `requires-changes`: a security issue or a high-severity one. */
  predicate Blocking(i: CodeIssue) {
    i.kind == Security || i.severity == High
  }

  /**
   * `determineAssessment`: `requires-changes` exactly when some issue is a
   * security issue or has high severity; otherwise `needs-work` exactly when
   * there are more than five issues; otherwise `approved`.
   */
  function DetermineAssessment(issues: seq<CodeIssue>): (a: Assessment)
    ensures a == RequiresChanges <==> exists k :: 0 <= k < |issues| && Blocking(issues[k])
    ensures a == NeedsWork <==> (forall k :: 0 <= k < |issues| ==> !Blocking(issues[k])) && |issues| > 5
    ensures a == Approved <==> (forall k :: 0 <= k < |issues| ==> !Blocking(issues[k])) && |issues| <= 5
  {
    if AnySecurity(issues) then RequiresChanges
    else if CountHigh(issues) > 0 then RequiresChanges
    else if |issues| > 5 then NeedsWork
    else Approved
  }

  /** How strict a verdict is. */
  function Strictness(a: Assessment): nat {
    match a
    case Approved => 0
    case NeedsWork => 1
    case RequiresChanges => 2
  }

  /**
   * The verdict is monotonic: a list that holds at least the issues of
   * another (as a multiset) gets a verdict at least as strict.
   */
  lemma AssessmentMonotone(fewer: seq<CodeIssue>, more: seq<CodeIssue>)
    requires multiset(fewer) <= multiset(more)
    ensures Strictness(DetermineAssessment(fewer)) <= Strictness(DetermineAssessment(more))
  {
    if exists k :: 0 <= k < |fewer| && Blocking(fewer[k]) {
      var k :| 0 <= k < |fewer| && Blocking(fewer[k]);
      assert fewer[k] in multiset(fewer);
      assert fewer[k] in more;
      var m :| 0 <= m < |more| && more[m] == fewer[k];
    }
    assert |multiset(fewer)| <= |multiset(more)| by {
      assert multiset(more) == multiset(fewer) + (multiset(more) - multiset(fewer));
    }
  }

  /** Injecting one security issue anywhere always yields `requires-changes`. */
  lemma SecurityIssueForcesChanges(before: seq<CodeIssue>, issue: CodeIssue, after: seq<CodeIssue>)
    requires issue.kind == Security
    ensures DetermineAssessment(before + [issue] + after) == RequiresChanges
  {
    assert (before + [issue] + after)[|before|] == issue;
  }
}
