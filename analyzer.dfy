/**
 * The analysis pass: for every changed file, sum its additions and
 * deletions, skip it when it has no patch or is binary, scan the added lines
 * of its patch, and flag it when it adds more than 300 lines; then build the
 * summary, suggestions and assessment.
 */
module Analyzer {
  import opened Types
  import opened Text
  import opened Rules
  import opened DiffLines
  import opened Report

  /** The extensions of files the analyzer never scans (compared ignoring case). */
  const BinaryExtensions: seq<string> := ["jpg", "jpeg", "png", "gif", "pdf", "zip", "exe", "bin"]

  /** `isBinaryFile`: the name ends in "." and one of the binary extensions, ignoring case. */
  function IsBinaryFile(filename: string): bool {
    exists e | e in BinaryExtensions :: EndsWithIgnoreCase(filename, "." + e)
  }

  /** The text after the last "." of a file name, when the name has a ".". */
  function Extension(filename: string): (ext: Option<string>)
    ensures ext.None? <==> '.' !in filename
    ensures ext.Some? ==>
      && |ext.value| < |filename|
      && filename[|filename| - |ext.value| - 1] == '.'
      && filename[|filename| - |ext.value|..] == ext.value
      && '.' !in ext.value
    decreases |filename|
  {
    if filename == [] then None
    else
      var init, last := filename[..|filename| - 1], filename[|filename| - 1];
      assert filename == init + [last];
      if last == '.' then Some([])
      else match Extension(init)
        case Some(e) => Some(e + [last])
        case None => None
  }

  /** A "." at position p with no "." after it makes the text after p the extension. */
  lemma ExtensionAtLastDot(filename: string, p: nat)
    requires p < |filename| && filename[p] == '.' && '.' !in filename[p + 1..]
    ensures Extension(filename) == Some(filename[p + 1..])
  {
  }

  /** The case-folded suffix of `s` from position `p`: its first character, then the rest. */
  lemma LowerFrom(s: string, p: nat)
    requires p < |s|
    ensures Lower(s[p..]) == [ToLower(s[p])] + Lower(s[p + 1..])
  {
    assert s[p..][1..] == s[p + 1..];
  }

  /** A name ending in "." and a binary extension has that extension, up to case. */
  lemma ExtensionOfBinary(filename: string, e: string)
    requires e in BinaryExtensions && EndsWithIgnoreCase(filename, "." + e)
    ensures Extension(filename).Some? && Lower(Extension(filename).value) == e
  {
    var p := |filename| - |e| - 1;
    var ext := filename[p + 1..];
    LowerFrom(filename, p);
    assert [ToLower(filename[p])] + Lower(ext) == "." + e;
    assert ToLower(filename[p]) == ([ToLower(filename[p])] + Lower(ext))[0];
    assert Lower(ext) == ([ToLower(filename[p])] + Lower(ext))[1..];
    LowerSpec(ext);
    assert '.' !in e;
    forall j | 0 <= j < |ext| ensures ext[j] != '.' {
      assert ToLower(ext[j]) == e[j];
    }
    ExtensionAtLastDot(filename, p);
  }

  /** A name whose case-folded extension is a binary extension ends in "." and that extension. */
  lemma BinaryOfExtension(filename: string)
    requires Extension(filename).Some? && Lower(Extension(filename).value) in BinaryExtensions
    ensures IsBinaryFile(filename)
  {
    var ext := Extension(filename).value;
    var e := Lower(ext);
    var p := |filename| - |ext| - 1;
    LowerSpec(ext);
    LowerFrom(filename, p);
    assert filename[p + 1..] == ext;
    assert EndsWithIgnoreCase(filename, "." + e);
  }

  /**
   * A file is binary exactly when its extension, case-folded, is one of the
   * binary extensions.
   */
  lemma BinaryByExtension(filename: string)
    ensures IsBinaryFile(filename)
        <==> Extension(filename).Some? && Lower(Extension(filename).value) in BinaryExtensions
  {
    if IsBinaryFile(filename) {
      var e :| e in BinaryExtensions && EndsWithIgnoreCase(filename, "." + e);
      ExtensionOfBinary(filename, e);
    }
    if Extension(filename).Some? && Lower(Extension(filename).value) in BinaryExtensions {
      BinaryOfExtension(filename);
    }
  }

  /** The `continue` of the file loop: no patch, an empty patch, or a binary file. */
  predicate Skipped(f: CodeFile) {
    f.patch.None? || f.patch.value == "" || IsBinaryFile(f.filename)
  }

  /** Files adding more than this many lines get a file-level issue. */
  const LargeFileLimit := 300

  function LargeFileIssue(filename: string): CodeIssue {
    CodeIssue(Suggestion, Medium, filename, None, "Large file change (>300 lines)",
              Some("Consider breaking into smaller commits"))
  }

  /** The issues `f` gives for each element of `xs`, in order, one list after the other. */
  function ConcatMap<T>(f: T -> seq<CodeIssue>, xs: seq<T>): seq<CodeIssue>
    decreases |xs|
  {
    if xs == [] then [] else ConcatMap(f, xs[..|xs| - 1]) + f(xs[|xs| - 1])
  }

  /** Mapping two sequences in turn concatenates their issues. */
  lemma {:induction false} ConcatMapAppend<T>(f: T -> seq<CodeIssue>, a: seq<T>, b: seq<T>)
    ensures ConcatMap(f, a + b) == ConcatMap(f, a) + ConcatMap(f, b)
    decreases |b|
  {
    if b == [] {
      assert a + b == a;
    } else {
      var init := b[..|b| - 1];
      assert (a + b)[..|a + b| - 1] == a + init;
      assert (a + b)[|a + b| - 1] == b[|b| - 1];
      ConcatMapAppend(f, a, init);
    }
  }

  /** The scanner's issues for one added line of `file`. */
  function LineScan(an: CodeAnalyzer, file: string): AddedText -> seq<CodeIssue> {
    (t: AddedText) => ScanLine(an, t.content, file, t.line)
  }

  /** The scanner's issues for a sequence of added lines, in order. */
  function ScanAll(an: CodeAnalyzer, added: seq<AddedText>, file: string): seq<CodeIssue> {
    ConcatMap(LineScan(an, file), added)
  }

  /** Scanning one more added line appends its issues. */
  lemma ScanAllStep(an: CodeAnalyzer, added: seq<AddedText>, next: AddedText, file: string)
    ensures ScanAll(an, added + [next], file)
         == ScanAll(an, added, file) + ScanLine(an, next.content, file, next.line)
  {
    ConcatMapAppend(LineScan(an, file), added, [next]);
    assert [next][..0] == [];
  }

  /** The issues of one file, in the order `analyze` pushes them. */
  function FileIssues(an: CodeAnalyzer, f: CodeFile): seq<CodeIssue> {
    if Skipped(f) then []
    else
      ScanAll(an, AddedLines(SplitLines(f.patch.value), 0), f.filename)
      + (if f.additions > LargeFileLimit then [LargeFileIssue(f.filename)] else [])
  }

  /** The issues of all files, file after file. */
  function AllIssues(an: CodeAnalyzer, files: seq<CodeFile>): seq<CodeIssue> {
    ConcatMap((f: CodeFile) => FileIssues(an, f), files)
  }

  /** The result `analyze` returns, as a function of the files. */
  function Analysis(an: CodeAnalyzer, files: seq<CodeFile>): AnalysisResult {
    var issues := AllIssues(an, files);
    AnalysisResult(
      Summary(|files|, SumAdditions(files), SumDeletions(files), |issues|, CountSecurity(issues)),
      issues,
      Suggestions(files, issues),
      DetermineAssessment(issues))
  }

  /** The issues the scanner reports for `line` once the counter stands at `counter`. */
  function LineIssues(an: CodeAnalyzer, line: string, counter: int, filename: string): seq<CodeIssue> {
    match Classify(line)
    case AddedLine(content) => ScanLine(an, content, filename, counter + 1)
    case _ => []
  }

  /**
   * One pass of the patch loop of `analyze`: a hunk header resets the
   * counter, an added line advances it and is scanned with both rule tables,
   * a removed line leaves it alone, any other line advances it.
   */
  method MapLine(an: CodeAnalyzer, line: string, currentLine: int, filename: string,
                 issues: seq<CodeIssue>)
    returns (nextLine: int, result: seq<CodeIssue>)
    ensures nextLine == NextCounter(currentLine, line)
    ensures result == issues + LineIssues(an, line, currentLine, filename)
  {
    nextLine, result := currentLine, issues;
    if StartsWith(line, "@@") {
      var start := HunkStart(line);
      if start.Some? {
        nextLine := start.value as int - 1;
      }
      return;
    }
    if StartsWith(line, "+") && !StartsWith(line, "+++") {
      nextLine := currentLine + 1;
      var content := line[1..];
      result := CheckPatterns(content, filename, nextLine, an.securityPatterns,
                              Security, High, result);
      result := CheckPatterns(content, filename, nextLine, an.codeSmellPatterns,
                              Warning, Medium, result);
    } else if !StartsWith(line, "-") {
      nextLine := currentLine + 1;
    }
  }

  /**
   * The patch loop of `analyze`: walk the lines of the patch, tracking the
   * new-file line number, and scan every added line.
   */
  method ScanPatch(an: CodeAnalyzer, patch: string, filename: string, issues: seq<CodeIssue>)
    returns (result: seq<CodeIssue>)
    ensures result == issues + ScanAll(an, AddedLines(SplitLines(patch), 0), filename)
  {
    var lines := SplitLines(patch);
    var currentLine: int := 0;
    result := issues;

    for j := 0 to |lines|
      invariant currentLine == CounterAfter(lines[..j], 0)
      invariant result == issues + ScanAll(an, AddedLines(lines[..j], 0), filename)
    {
      ghost var added := AddedLines(lines[..j], 0);
      ghost var before := result;
      MapperStep(lines, j, 0);
      currentLine, result := MapLine(an, lines[j], currentLine, filename, result);
      if Classify(lines[j]).AddedLine? {
        var next := AddedText(Classify(lines[j]).content, currentLine);
        ScanAllStep(an, added, next, filename);
        AppendAssoc(issues, ScanAll(an, added, filename), ScanLine(an, next.content, filename, next.line));
      } else {
        assert before + [] == before;
      }
    }
    assert lines[..|lines|] == lines;
  }

  /**
   * The body of the file loop of `analyze` after the totals: skip the file,
   * or scan its patch and flag it when it adds more than 300 lines.
   */
  method AnalyzeFile(an: CodeAnalyzer, file: CodeFile, issues: seq<CodeIssue>)
    returns (result: seq<CodeIssue>)
    ensures result == issues + FileIssues(an, file)
  {
    result := issues;
    if file.patch.None? || file.patch.value == "" || IsBinaryFile(file.filename) {
      return;
    }

    result := ScanPatch(an, file.patch.value, file.filename, result);
    ghost var scanned := ScanAll(an, AddedLines(SplitLines(file.patch.value), 0), file.filename);

    if file.additions > LargeFileLimit {
      result := result + [LargeFileIssue(file.filename)];
      AppendAssoc(issues, scanned, [LargeFileIssue(file.filename)]);
    } else {
      assert scanned + [] == scanned;
    }
  }

  /** `analyze`. */
  method Analyze(an: CodeAnalyzer, files: seq<CodeFile>) returns (result: AnalysisResult)
    ensures result == Analysis(an, files)
    ensures result.summary.totalFiles == |files|
    ensures result.summary.issuesFound == |result.issues|
    ensures result.summary.securityIssues <= result.summary.issuesFound
  {
    var issues: seq<CodeIssue> := [];
    var totalAdditions := 0;
    var totalDeletions := 0;

    for i := 0 to |files|
      invariant issues == AllIssues(an, files[..i])
      invariant totalAdditions == SumAdditions(files[..i])
      invariant totalDeletions == SumDeletions(files[..i])
    {
      var file := files[i];
      AllIssuesStep(an, files, i);
      SumsStep(files, i);
      totalAdditions := totalAdditions + file.additions;
      totalDeletions := totalDeletions + file.deletions;

      issues := AnalyzeFile(an, file, issues);
    }
    assert files[..|files|] == files;

    var securityIssues := CountSecurity(issues);
    var suggestions := GenerateSuggestions(files, issues);
    var assessment := DetermineAssessment(issues);
    result := AnalysisResult(
      Summary(|files|, totalAdditions, totalDeletions, |issues|, securityIssues),
      issues, suggestions, assessment);
  }

  /** One more file appends its issues. */
  lemma AllIssuesStep(an: CodeAnalyzer, files: seq<CodeFile>, i: nat)
    requires i < |files|
    ensures AllIssues(an, files[..i + 1]) == AllIssues(an, files[..i]) + FileIssues(an, files[i])
  {
    assert files[..i + 1][..i] == files[..i];
  }

  /** Analysing files in two batches gives the issues of the first batch, then those of the second. */
  lemma AllIssuesAppend(an: CodeAnalyzer, a: seq<CodeFile>, b: seq<CodeFile>)
    ensures AllIssues(an, a + b) == AllIssues(an, a) + AllIssues(an, b)
  {
    ConcatMapAppend((f: CodeFile) => FileIssues(an, f), a, b);
  }

  /**
   * The analysis of two lists of files in turn: the issues concatenate,
   * every summary counter adds up, and the assessment is at least as strict
   * as that of either list alone.
   */
  lemma AnalysisOfConcatenation(an: CodeAnalyzer, a: seq<CodeFile>, b: seq<CodeFile>)
    ensures var r, ra, rb := Analysis(an, a + b), Analysis(an, a), Analysis(an, b);
      && r.issues == ra.issues + rb.issues
      && r.summary.totalFiles == ra.summary.totalFiles + rb.summary.totalFiles
      && r.summary.totalAdditions == ra.summary.totalAdditions + rb.summary.totalAdditions
      && r.summary.totalDeletions == ra.summary.totalDeletions + rb.summary.totalDeletions
      && r.summary.issuesFound == ra.summary.issuesFound + rb.summary.issuesFound
      && r.summary.securityIssues == ra.summary.securityIssues + rb.summary.securityIssues
      && Strictness(r.assessment) >= Strictness(ra.assessment)
      && Strictness(r.assessment) >= Strictness(rb.assessment)
  {
    var ia, ib := AllIssues(an, a), AllIssues(an, b);
    AllIssuesAppend(an, a, b);
    SumsAppend(a, b);
    CountSecurityAppend(ia, ib);
    assert multiset(ia + ib) == multiset(ia) + multiset(ib);
    AssessmentMonotone(ia, ia + ib);
    AssessmentMonotone(ib, ia + ib);
  }

  /**
   * A file without a patch, with an empty patch or with a binary name adds
   * no issue wherever it stands, not even the large-file one, yet its
   * additions and deletions are still counted.
   */
  lemma SkippedFileContributesNothing(an: CodeAnalyzer, pre: seq<CodeFile>, f: CodeFile,
                                      post: seq<CodeFile>)
    requires Skipped(f)
    ensures AllIssues(an, pre + [f] + post) == AllIssues(an, pre + post)
    ensures SumAdditions(pre + [f] + post) == SumAdditions(pre + post) + f.additions
    ensures SumDeletions(pre + [f] + post) == SumDeletions(pre + post) + f.deletions
  {
    AllIssuesStep(an, [f], 0);
    assert [f][..0] == [] && [f][..1] == [f];
    assert AllIssues(an, [f]) == [];
    calc {
      AllIssues(an, pre + [f] + post);
      { AllIssuesAppend(an, pre + [f], post); }
      AllIssues(an, pre + [f]) + AllIssues(an, post);
      { AllIssuesAppend(an, pre, [f]); }
      (AllIssues(an, pre) + []) + AllIssues(an, post);
      { assert AllIssues(an, pre) + [] == AllIssues(an, pre); }
      AllIssues(an, pre) + AllIssues(an, post);
      { AllIssuesAppend(an, pre, post); }
      AllIssues(an, pre + post);
    }
    SumsWithFile(pre, f, post);
  }

  /**
   * An issue the scanner can report for `added`: it carries the file name,
   * the line number of one of the added lines and no suggestion, and is
   * either a security issue of high severity or a warning of medium severity.
   */
  predicate ScannerIssue(issue: CodeIssue, file: string, added: seq<AddedText>) {
    && issue.file == file
    && issue.suggestion.None?
    && issue.line.Some?
    && (exists m :: 0 <= m < |added| && issue.line.value == added[m].line)
    && ((issue.kind == Security && issue.severity == High)
        || (issue.kind == Warning && issue.severity == Medium))
  }

  /** Every issue the scanner reports for a sequence of added lines is one of its issues. */
  lemma {:induction false} ScanAllLocated(an: CodeAnalyzer, added: seq<AddedText>, file: string)
    ensures forall k :: 0 <= k < |ScanAll(an, added, file)| ==>
      ScannerIssue(ScanAll(an, added, file)[k], file, added)
    decreases |added|
  {
    if added != [] {
      var init, last := added[..|added| - 1], added[|added| - 1];
      ScanAllLocated(an, init, file);
      var prior := ScanAll(an, init, file);
      var tail := ScanLine(an, last.content, file, last.line);
      ScanLineSpec(an, last.content, file, last.line);
      var sec := Fired(an.securityPatterns, last.content);
      forall k | 0 <= k < |prior + tail| ensures ScannerIssue((prior + tail)[k], file, added)
      {
        if k < |prior| {
          assert (prior + tail)[k] == prior[k];
          var m :| 0 <= m < |init| && prior[k].line.value == init[m].line;
          assert added[m] == init[m];
        } else {
          var k' := k - |prior|;
          assert (prior + tail)[k] == tail[k'];
          if k' < |sec| {
            var i := sec[k'];
            assert tail[k'] == CodeIssue(Security, High, file, Some(last.line),
                                         an.securityPatterns[i].message, None);
          } else {
            var smell := Fired(an.codeSmellPatterns, last.content);
            var i := smell[k' - |sec|];
            assert tail[|sec| + (k' - |sec|)] == CodeIssue(Warning, Medium, file, Some(last.line),
                                                           an.codeSmellPatterns[i].message, None);
          }
          assert added[|added| - 1] == last;
        }
      }
    }
  }

  /**
   * The issues of one file: all carry its name; all carry a line number
   * except the large-file issue, which comes last and exactly when the file
   * is scanned and adds more than 300 lines; a skipped file has none.
   */
  lemma FileIssuesLayout(an: CodeAnalyzer, f: CodeFile)
    ensures Skipped(f) ==> FileIssues(an, f) == []
    ensures forall k :: 0 <= k < |FileIssues(an, f)| ==> FileIssues(an, f)[k].file == f.filename
    ensures forall k :: 0 <= k < |FileIssues(an, f)| ==>
      (FileIssues(an, f)[k].line.None? <==> k == |FileIssues(an, f)| - 1 && f.additions > LargeFileLimit)
    ensures !Skipped(f) && f.additions > LargeFileLimit ==>
      |FileIssues(an, f)| > 0 && FileIssues(an, f)[|FileIssues(an, f)| - 1] == LargeFileIssue(f.filename)
  {
    if !Skipped(f) {
      ScanAllLocated(an, AddedLines(SplitLines(f.patch.value), 0), f.filename);
    }
  }

  /** The number of pairs of an added line and a rule of the security table it matches. */
  function SecurityMatches(an: CodeAnalyzer, added: seq<AddedText>): nat
    decreases |added|
  {
    if added == [] then 0
    else
      SecurityMatches(an, added[..|added| - 1])
      + |Fired(an.securityPatterns, added[|added| - 1].content)|
  }

  /** The security matches of every scanned file. */
  function FileSecurityMatches(an: CodeAnalyzer, files: seq<CodeFile>): nat
    decreases |files|
  {
    if files == [] then 0
    else
      var f := files[|files| - 1];
      FileSecurityMatches(an, files[..|files| - 1])
      + (if Skipped(f) then 0 else SecurityMatches(an, AddedLines(SplitLines(f.patch.value), 0)))
  }

  /** One table's issues count as security issues exactly when the table is reported as security. */
  lemma {:induction false} HitsSecurityCount(table: seq<Rule>, content: string, kind: IssueType,
                                             severity: Severity, file: string, line: int)
    ensures CountSecurity(Hits(table, content, kind, severity, file, line))
         == if kind == Security then |Fired(table, content)| else 0
    decreases |table|
  {
    if table != [] {
      var init, last := table[..|table| - 1], table[|table| - 1];
      HitsSecurityCount(init, content, kind, severity, file, line);
      CountSecurityAppend(Hits(init, content, kind, severity, file, line),
                          if Matches(last, content)
                          then [CodeIssue(kind, severity, file, Some(line), last.message, None)]
                          else []);
    }
  }

  /** The scanner reports one security issue per added line and security rule that match. */
  lemma {:induction false} ScanAllSecurityCount(an: CodeAnalyzer, added: seq<AddedText>, file: string)
    ensures CountSecurity(ScanAll(an, added, file)) == SecurityMatches(an, added)
    decreases |added|
  {
    if added != [] {
      var init, last := added[..|added| - 1], added[|added| - 1];
      ScanAllSecurityCount(an, init, file);
      var hs := Hits(an.securityPatterns, last.content, Security, High, file, last.line);
      var hw := Hits(an.codeSmellPatterns, last.content, Warning, Medium, file, last.line);
      HitsSecurityCount(an.securityPatterns, last.content, Security, High, file, last.line);
      HitsSecurityCount(an.codeSmellPatterns, last.content, Warning, Medium, file, last.line);
      CountSecurityAppend(hs, hw);
      CountSecurityAppend(ScanAll(an, init, file), hs + hw);
    }
  }

  /**
   * The summary's `securityIssues`, the security issues among all issues,
   * is the number of pairs of an added line
   * of a scanned file and a security rule whose pattern occurs in it: the
   * large-file issue and the warnings never count.
   */
  lemma {:induction false} SecurityIssuesAreSecurityMatches(an: CodeAnalyzer, files: seq<CodeFile>)
    ensures CountSecurity(AllIssues(an, files)) == FileSecurityMatches(an, files)
    decreases |files|
  {
    if files != [] {
      var init, f := files[..|files| - 1], files[|files| - 1];
      SecurityIssuesAreSecurityMatches(an, init);
      AllIssuesStep(an, files, |files| - 1);
      assert files[..|files|] == files;
      CountSecurityAppend(AllIssues(an, init), FileIssues(an, f));
      if !Skipped(f) {
        var scanned := ScanAll(an, AddedLines(SplitLines(f.patch.value), 0), f.filename);
        ScanAllSecurityCount(an, AddedLines(SplitLines(f.patch.value), 0), f.filename);
        CountSecurityAppend(scanned, if f.additions > LargeFileLimit then [LargeFileIssue(f.filename)] else []);
      }
    }
  }

  /** No files: an all-zero summary, no issues, no suggestions, approved. */
  lemma EmptyAnalysis(an: CodeAnalyzer)
    ensures Analysis(an, []) == AnalysisResult(Summary(0, 0, 0, 0, 0), [], [], Approved)
  {
  }
}
