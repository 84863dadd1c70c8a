/**
 * The plain data records the analyzer consumes and produces: a changed file
 * of a pull request, an issue found in it, and the analysis result.
 */
module Types {

  datatype Option<+T> = None | Some(value: T)

  /** The change kind a pull-request file carries. */
  datatype FileStatus = Added | Modified | Deleted

  /**
   * One changed file. `patch` is the unified-diff text for the file; it is
   * absent for binary or very large files.
   */
  datatype CodeFile = CodeFile(
    filename: string,
    status: FileStatus,
    additions: nat,
    deletions: nat,
    patch: Option<string>)

  datatype IssueType = Error | Warning | Suggestion | Security

  datatype Severity = High | Medium | Low

  /** A finding; `line` is a line number on the post-change side of the diff. */
  datatype CodeIssue = CodeIssue(
    kind: IssueType,
    severity: Severity,
    file: string,
    line: Option<int>,
    message: string,
    suggestion: Option<string>)

  datatype Summary = Summary(
    totalFiles: nat,
    totalAdditions: nat,
    totalDeletions: nat,
    issuesFound: nat,
    securityIssues: nat)

  /**
   * The three fixed advice texts of the report, kept opaque: fix the security
   * issues before merging, split a large pull request, add tests.
   */
  datatype SuggestionText = FixSecurityFirst | SplitLargeChange | AddTests

  datatype Assessment = Approved | NeedsWork | RequiresChanges

  datatype AnalysisResult = AnalysisResult(
    summary: Summary,
    issues: seq<CodeIssue>,
    suggestions: seq<SuggestionText>,
    assessment: Assessment)

  /** Concatenation regroups freely. */
  lemma AppendAssoc<T>(a: seq<T>, b: seq<T>, c: seq<T>)
    ensures a + (b + c) == (a + b) + c
  {
  }
}
