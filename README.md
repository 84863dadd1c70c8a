# Code analyzer of github-pr-review-mcp, modelled in Dafny

The server's `CodeAnalyzer` reviews the changed files of a pull request by
text patterns alone. For every file it adds up the added and deleted line counts. It
skips files with no patch, an empty patch or a binary extension. For the rest, it walks the
unified-diff patch line by line and keeps the post-change line number. Each added
line is tested against two rule tables: five security rules, reported as
security/high, and four code-smell rules, reported as warning/medium. A scanned file
that adds more than 300 lines gets a file-level suggestion. The analyzer then builds a
summary, up to three suggestions, and an assessment: approved, needs-work or
requires-changes.

The model is split by concern:

- `Types` (`types.dfy`): the records the analyzer consumes and produces.
- `Text` (`text.dfy`): the string primitives the code relies on. These are
  `split("\n")`, `startsWith`, `includes`, the `\s` and `\d` classes, ASCII case
  folding, and decimal numerals.
- `Rules` (`rules.dfy`): the two rule tables. Each regular expression is kept as
  data and read by a backtracking matcher. The module also holds the per-line
  check `CheckPatterns` and its specification `Hits`.
- `DiffLines` (`difflines.dfy`): how a patch line is classified, the hunk-header
  expression, and the line counter. It also proves how added lines are numbered.
- `Report` (`report.dfy`): the totals, the suggestions and the assessment.
- `Analyzer` (`analyzer.dfy`): the binary-file test and the analysis itself. The
  pure specification is `Analysis`. The loops of `analyze` are the methods
  `Analyze`, `AnalyzeFile`, `ScanPatch` and `MapLine`, each proved against that
  specification. The module also proves properties of whole analyses.
- `GlobalRegex` (`lastindex.dfy`): the `lastIndex` state of the rules' global
  expressions, as the code has it (see Findings).

The analyzer keeps no state that it updates on purpose. Its only fields are the
two tables, so it is the immutable datatype `Rules.CodeAnalyzer`, and
`Rules.NewAnalyzer` holds the tables its constructor builds. The caller's
`issues` array, which `checkPatterns` pushes to, is passed in and returned as a
sequence.

## Model

| member | source | states |
|---|---|---|
| Text.SplitLinesSpec | src/code-analyzer.ts:43 | no piece of `split("\n")` holds a newline, and joining the pieces with newlines gives back the patch |
| Text.SplitJoinRoundTrip | src/code-analyzer.ts:43 | splitting newline-free lines that were joined with newlines gives back the lines |
| Text.IndexOfIsFirst | src/code-analyzer.ts:43 | the split point is the first newline |
| Text.LowerSpec | src/code-analyzer.ts:6 | the `i` flag's ASCII case folding keeps the length and folds each character in place |
| Text.DigitRunSpec | src/code-analyzer.ts:48 | a greedy `\d` run holds only digits and stops at the first non-digit or at the end |
| Text.DigitRunOfNumeral | src/code-analyzer.ts:48 | a numeral followed by a non-digit is read as exactly that numeral |
| Text.DecimalRoundTrip | src/code-analyzer.ts:49 | `parseInt` of the decimal numeral of n is n |
| Rules.RuleTablesAsDeclared | src/code-analyzer.ts:4-29 | the constants `Rules.SecurityRules` (five rules) and `Rules.SmellRules` (four rules), built from the nine rule constants, hold the nine expressions with their messages in source order; exactly the API-key, password, secret and TODO expressions carry the `i` flag |
| Rules.MatchesSomewhere | src/code-analyzer.ts:123 | the stateless search (`test` on a fresh expression, `lastIndex` 0) succeeds exactly when the pattern matches at some position of the line |
| Rules.Matches | src/code-analyzer.ts:123 | the stateless `test` of one rule on a line; `Rules.MatchesSomewhere` states that it holds exactly when the rule's pattern matches at some position |
| Rules.Hits | src/code-analyzer.ts:122-126 | the issues one table gives for a line; `Rules.HitsSpec` states them one by one |
| Rules.FiredSpec | src/code-analyzer.ts:122-126 | a rule of the table fires exactly when its pattern occurs in the line; the fired rules are in table order, each once |
| Rules.HitsSpec | src/code-analyzer.ts:122-126 | the k-th issue of a table is the issue of its k-th fired rule, with the table's type and severity, the rule's message, the file and the line |
| Rules.CheckPatterns | src/code-analyzer.ts:113-127 | the method appends to the caller's list exactly the issues of the fired rules, in table order |
| Rules.ScanLineSpec | src/code-analyzer.ts:57-77 | an added line gives the security issues (security/high) and then the smell issues (warning/medium), one per fired rule, all with the file and the line |
| DiffLines.HeaderParts | src/code-analyzer.ts:47-49 | a header "@@ -digits[,digits] +digits..." is classified as a hunk header whose new-side start is the value of the digit run after ` +` |
| DiffLines.HunkStart | src/code-analyzer.ts:48-49 | the unanchored header match, read at the leftmost position where it succeeds; `DiffLines.HeaderParts` states what it reads from a well-formed header, and `DiffLines.HunkStartSound` that it reads a start only from one |
| DiffLines.HunkStartSound | src/code-analyzer.ts:47-49 | the converse of `DiffLines.HeaderParts`: a line gives a new-side start n only at the leftmost position holding "@@ -", a digit run, an optional ",digits", " +" and a maximal digit run worth n; so an `@@` line the expression does not match leaves the counter |
| DiffLines.Classify | src/code-analyzer.ts:47-53 | the dispatch on `@@`, on `+` but not `+++`, and on `-`; `DiffLines.HunkHeaderRoundTrip` and `DiffLines.MapperStep` state its effect |
| DiffLines.NextCounter | src/code-analyzer.ts:49 | one step of the counter: a parsed header sets it to the new-side start minus one, an added or context line adds one (lines 54 and 79), anything else leaves it; `DiffLines.CounterWithoutReset` and `DiffLines.CounterInHunk` state its behaviour over a run of lines |
| DiffLines.CounterAfter | src/code-analyzer.ts:44-80 | the value of `currentLine` after the patch loop has read some lines, starting from 0; `DiffLines.CounterAfterAppend`, `DiffLines.CounterInHunk` and `Analyzer.ScanPatch` state it |
| DiffLines.AddedLines | src/code-analyzer.ts:44-80 | the added lines the patch loop hands to the scanner, each with its `currentLine`; `DiffLines.MapperStep`, `DiffLines.AddedLinesAppend` and `DiffLines.AddedLineNumber` state them |
| DiffLines.HunkHeaderRoundTrip | src/code-analyzer.ts:47-49 | every unified-format hunk header, with or without counts and with any heading, resets the counter to the new-side start that was written |
| DiffLines.MapperStep | src/code-analyzer.ts:46-80 | one more patch line moves the counter by one step; it hands an added line to the scanner, numbered one past the counter, and hands on nothing for any other line |
| DiffLines.CounterAfterAppend | src/code-analyzer.ts:44-80 | reading two runs of lines in turn is reading the second from where the first left the counter |
| DiffLines.AddedLinesAppend | src/code-analyzer.ts:44-80 | the added lines of two runs are those of the first, then those of the second numbered on from the first |
| DiffLines.CounterWithoutReset | src/code-analyzer.ts:46-80 | without a parseable hunk header, the counter grows by one for each added or context line, and removed lines leave it alone |
| DiffLines.CounterInHunk | src/code-analyzer.ts:48-49 | after a header with new-side start n, the counter is n - 1 plus the lines that advanced it, whatever came before the header |
| DiffLines.AddedLineNumber | src/code-analyzer.ts:53-61 | an added line inside a hunk is scanned with post-change line number n plus the advancing lines before it in the hunk |
| Report.TotalChangesIsSum | src/code-analyzer.ts:139-142 | the total of changes is the sum of the additions plus the sum of the deletions |
| Report.SumsAppend | src/code-analyzer.ts:37-38 | the running totals of two lists of files add up |
| Report.SumsWithFile | src/code-analyzer.ts:37-38 | a file in the middle of the list adds its own counts to the totals |
| Report.TotalChanges | src/code-analyzer.ts:139-142 | the `reduce` total; `Report.TotalChangesIsSum` states that it is the additions plus the deletions |
| Report.SumAdditions | src/code-analyzer.ts:33-38 | the running `totalAdditions`; `Report.SumsAppend`, `Report.SumsWithFile` and `Analyzer.Analyze` state it |
| Report.SumDeletions | src/code-analyzer.ts:33-38 | the running `totalDeletions`; `Report.SumsAppend`, `Report.SumsWithFile` and `Analyzer.Analyze` state it |
| Report.AnySecurity | src/code-analyzer.ts:135 | true exactly when some issue is of type security |
| Report.CountSecurity | src/code-analyzer.ts:95 | at most the number of issues, and positive exactly when some issue is of type security |
| Report.CountHigh | src/code-analyzer.ts:161 | at most the number of issues, and positive exactly when some issue is of high severity |
| Report.CountSecurityAppend | src/code-analyzer.ts:95 | counting security issues distributes over concatenation |
| Report.HasTests | src/code-analyzer.ts:147-149 | true exactly when some file name includes "test" or "spec" |
| Report.Suggestions | src/code-analyzer.ts:129-155 | each of the three suggestions is present exactly when its condition holds (a security issue; more than 500 changes; more than 50 changes and no test file); they keep the fixed order; there are at most three |
| Report.GenerateSuggestions | src/code-analyzer.ts:129-155 | the method returns exactly the specified suggestion list |
| Report.DetermineAssessment | src/code-analyzer.ts:157-165 | requires-changes exactly when some issue is security or high; otherwise needs-work exactly when there are more than 5 issues, and approved exactly when there are at most 5 |
| Report.AssessmentMonotone | src/code-analyzer.ts:157-165 | more issues never give a milder assessment |
| Report.SecurityIssueForcesChanges | src/code-analyzer.ts:160 | any list holding a security issue requires changes |
| Analyzer.Extension | src/code-analyzer.ts:168 | absent exactly when the name has no "."; otherwise it is the text after the last "." |
| Analyzer.ExtensionAtLastDot | src/code-analyzer.ts:168 | a "." with no "." after it starts the extension |
| Analyzer.ExtensionOfBinary | src/code-analyzer.ts:168 | a name that matches the binary expression has one of the eight extensions, up to case |
| Analyzer.BinaryOfExtension | src/code-analyzer.ts:168 | a name whose case-folded extension is one of the eight matches the binary expression |
| Analyzer.BinaryByExtension | src/code-analyzer.ts:167-169 | a file is binary exactly when its case-folded extension is jpg, jpeg, png, gif, pdf, zip, exe or bin |
| Analyzer.IsBinaryFile | src/code-analyzer.ts:167-169 | `isBinaryFile`; `Analyzer.BinaryByExtension` states that it holds exactly when the case-folded extension is one of the eight |
| Analyzer.Skipped | src/code-analyzer.ts:40 | the `continue` of the file loop: no patch, an empty patch, or a binary name; `Analyzer.SkippedFileContributesNothing` states its effect |
| Analyzer.LargeFileIssue | src/code-analyzer.ts:84-92 | the issue pushed for a scanned file that adds more than 300 lines; `Analyzer.FileIssuesLayout` states that it comes last and is the only issue without a line |
| Analyzer.FileIssues | src/code-analyzer.ts:40-92 | the issues one file adds; `Analyzer.FileIssuesLayout` and `Analyzer.AnalyzeFile` state them |
| Analyzer.Analysis | src/code-analyzer.ts:31-111 | the result of `analyze` as a function of the files; `Analyzer.Analyze` is proved equal to it, and `Analyzer.AnalysisOfConcatenation` and `Analyzer.SecurityIssuesAreSecurityMatches` state its properties |
| Analyzer.ConcatMapAppend | src/code-analyzer.ts:36 | issues collected over two runs of files or lines in turn are concatenated |
| Analyzer.MapLine | src/code-analyzer.ts:47-80 | one pass of the patch loop: the counter becomes the next counter, and the issues of an added line are appended |
| Analyzer.ScanPatch | src/code-analyzer.ts:43-81 | the patch loop appends the scanner's issues for every added line of the patch, in order, with its post-change line number |
| Analyzer.AnalyzeFile | src/code-analyzer.ts:40-92 | a skipped file adds nothing; otherwise the file adds its line issues, then the large-file issue when it adds more than 300 lines |
| Analyzer.Analyze | src/code-analyzer.ts:31-111 | the method returns exactly the specified analysis; it counts every file, `issuesFound` is the number of issues, and the security count is at most that |
| Analyzer.AllIssuesStep | src/code-analyzer.ts:36-93 | one more file appends its issues |
| Analyzer.AllIssuesAppend | src/code-analyzer.ts:36-93 | the issues of two lists of files are concatenated |
| Analyzer.AnalysisOfConcatenation | src/code-analyzer.ts:31-111 | analyzing two lists of files together concatenates the issues and adds every summary counter; the assessment is at least as strict as each part's |
| Analyzer.SkippedFileContributesNothing | src/code-analyzer.ts:40 | a file without a patch, with an empty patch, or with a binary name adds no issue but still counts in the totals |
| Analyzer.ScanAllLocated | src/code-analyzer.ts:53-77 | every scanner issue carries the file name, no suggestion, and the line number of one of the added lines; it is security/high or warning/medium |
| Analyzer.FileIssuesLayout | src/code-analyzer.ts:40-92 | a skipped file has no issues; every issue of a file carries its name; only the last one can lack a line, and that happens exactly when it is the large-file issue |
| Analyzer.HitsSecurityCount | src/code-analyzer.ts:58-66 | a table's issues count as security issues exactly when the table is reported as security |
| Analyzer.ScanAllSecurityCount | src/code-analyzer.ts:95 | the scanner gives one security issue for each pair of an added line and a security rule that matches it |
| Analyzer.SecurityIssuesAreSecurityMatches | src/code-analyzer.ts:95 | `securityIssues` equals the number of pairs of an added line of a scanned file and a security rule that matches it |
| Analyzer.EmptyAnalysis | src/code-analyzer.ts:31-111 | no files give an all-zero summary, no issues, no suggestions, and approval |
| GlobalRegex.MatchEndFound | src/code-analyzer.ts:4-29 | the first match end that the backtracking order finds exists exactly when the pattern matches |
| GlobalRegex.BranchEndFound | src/code-analyzer.ts:4-29 | the first matching alternative exists exactly when some alternative matches |
| GlobalRegex.SearchFromFound | src/code-analyzer.ts:123 | searching from position i succeeds exactly when the rule occurs in the text from i on |
| GlobalRegex.Test | src/code-analyzer.ts:123 | `test` on a global expression finds a match exactly when the rule occurs in the text from `lastIndex` on; a hit moves `lastIndex` to the end of the leftmost such match, and a miss resets it to 0 |
| GlobalRegex.TestFromStart | src/code-analyzer.ts:123 | with `lastIndex` 0, `test` agrees with the stateless search |
| GlobalRegex.CheckAsWritten | src/code-analyzer.ts:113-127 | as written, the check leaves each rule's `lastIndex` where that rule's `test` put it, and reports at most one issue per rule; `GlobalRegex.CheckAsWrittenSound` and `GlobalRegex.CheckAsWrittenComplete` state which rules report |
| GlobalRegex.CheckAsWrittenSound | src/code-analyzer.ts:122-124 | as written, every issue is the issue of a rule whose `test` hits from its current `lastIndex` |
| GlobalRegex.CheckAsWrittenComplete | src/code-analyzer.ts:122-124 | as written, every rule whose `test` hits from its current `lastIndex` reports its issue |
| GlobalRegex.CheckAsWrittenOnlyMisses | src/code-analyzer.ts:113-127 | as written, the check's issues are a sub-multiset of the stateless check's: the `lastIndex` state can only hide issues, never add one |
| GlobalRegex.FreshCheckIsHits | src/code-analyzer.ts:113-127 | with every `lastIndex` at 0 the check as written reports exactly the stateless check's issues, so only earlier matches cause misses |
| GlobalRegex.ScanAsWritten | src/code-analyzer.ts:53-77 | the scan of a file's added lines as written, with each rule's `lastIndex` carried from line to line (the `test` of line 123); `GlobalRegex.ScanAsWrittenOnlyMisses` and `GlobalRegex.SecondEvalMissed` state its behaviour |
| GlobalRegex.ScanAsWrittenOnlyMisses | src/code-analyzer.ts:53-77 | the as-written scan of any added lines from any state reports a sub-multiset of the corrected scan's issues |
| GlobalRegex.ScanAllOneTable | src/code-analyzer.ts:53-66 | the corrected one-table scan is the main model's scanner with only that table, reported as security/high |
| GlobalRegex.ScanCorrectedCount | src/code-analyzer.ts:122-126 | the corrected scan reports one issue for each line and each rule that fires on it |
| GlobalRegex.SecondEvalMissed | src/code-analyzer.ts:17 | the lines `eval(a)` and `eval(b)`, one after the other, give one issue as written and two when corrected |

## Left out

- The GitHub client, the MCP server and the argument schemas around the analyzer
  are outside this model. They fetch the files and format the result.
- JavaScript numbers are doubles. `parseInt` of a very long digit run loses
  precision, and the running totals could too. The model uses unbounded integers.
- JavaScript strings are UTF-16 code units. Here a string is a sequence of Dafny
  characters (Unicode scalar values), so an astral character counts as one
  position instead of two.
- Case folding is ASCII only. Every `i`-flag pattern of the rules is ASCII, and
  the binary-extension test only compares with ASCII text.
- The three suggestion strings, emoji included, are the enumeration
  `SuggestionText`. The issue messages keep their exact text.
- A file's `status` is carried but never read, as in the code.
- Rules.CheckPatterns: the main model tests each rule without the `lastIndex`
  state of a global expression. That state is modelled only in `GlobalRegex`,
  where it is the recorded finding below.
- GlobalRegex.CheckAsWritten: the expressions' `lastIndex` values are passed in
  and returned as a sequence, one per rule, instead of being fields of regular
  expression objects updated in place.

## Findings

| source | as written | input that shows it | evidently intended | confidence | as-written member | corrected member |
|---|---|---|---|---|---|---|
| src/code-analyzer.ts:4-29, 123 | Every rule expression has the global flag `g`, and one expression object per rule lives as long as the analyzer. After a match, `test` leaves `lastIndex` at the match end, so the next line is searched only from that position. | two consecutive added lines `eval(a)` and `eval(b)`: the second is searched from position 5 and is not reported | every added line is searched from its start, so both lines are reported | not executed | GlobalRegex.SecondEvalMissed | Rules.CheckPatterns |
