/**
 * The rule patterns carry the global flag, and a global regular expression
 * remembers where its last successful search ended (its `lastIndex`): the
 * next `test` searches only from there, and a failed search sets it back to
 * zero. The analyzer keeps one expression object per rule for its whole
 * life, so a line is searched from wherever the previous match of that rule,
 * on an earlier line, ended. This module models `test` with that state, the
 * per-table check as written, and exhibits two added lines of which the
 * second is not reported; the rest of the model uses the stateless search
 * `Rules.Matches`, which reports both.
 */
module GlobalRegex {
  import opened Types
  import opened Text
  import opened Rules
  import opened DiffLines
  import opened Analyzer

  function Shift(k: nat, r: Option<nat>): (s: Option<nat>)
    ensures s.Some? <==> r.Some?
    ensures s.Some? ==> s.value == k + r.value
  {
    match r
    case None => None
    case Some(n) => Some(k + n)
  }

  /**
   * Where the first successful way of matching the atoms `p` at the start of
   * `t` ends, trying the alternatives in the order a backtracking engine
   * does (a repetition first takes one more character, then stops).
   */
  function MatchEnd(p: seq<Atom>, ignoreCase: bool, t: string): (r: Option<nat>)
    ensures r.Some? ==> r.value <= |t|
    decreases |p|, |t|
  {
    if p == [] then Some(0)
    else match p[0]
      case Lit(w) =>
        if LitAt(t, w, ignoreCase) then Shift(|w|, MatchEnd(p[1..], ignoreCase, t[|w|..])) else None
      case One(c) =>
        if t != [] && InClass(t[0], c) then Shift(1, MatchEnd(p[1..], ignoreCase, t[1..])) else None
      case Optional(c) =>
        var taken := if t != [] && InClass(t[0], c) then Shift(1, MatchEnd(p[1..], ignoreCase, t[1..])) else None;
        if taken.Some? then taken else MatchEnd(p[1..], ignoreCase, t)
      case Star(c) =>
        var taken := if t != [] && InClass(t[0], c) then Shift(1, MatchEnd(p, ignoreCase, t[1..])) else None;
        if taken.Some? then taken else MatchEnd(p[1..], ignoreCase, t)
      case Plus(c) =>
        if t != [] && InClass(t[0], c) then Shift(1, MatchEnd([Star(c)] + p[1..], ignoreCase, t[1..])) else None
  }

  /** A match end exists exactly when the atoms match a prefix. */
  lemma {:induction false} MatchEndFound(p: seq<Atom>, ignoreCase: bool, t: string)
    ensures MatchEnd(p, ignoreCase, t).Some? <==> MatchSeq(p, ignoreCase, t)
    decreases |p|, |t|
  {
    if p != [] {
      match p[0]
      case Lit(w) =>
        if LitAt(t, w, ignoreCase) { MatchEndFound(p[1..], ignoreCase, t[|w|..]); }
      case One(c) =>
        if t != [] && InClass(t[0], c) { MatchEndFound(p[1..], ignoreCase, t[1..]); }
      case Optional(c) =>
        if t != [] && InClass(t[0], c) { MatchEndFound(p[1..], ignoreCase, t[1..]); }
        MatchEndFound(p[1..], ignoreCase, t);
      case Star(c) =>
        if t != [] && InClass(t[0], c) { MatchEndFound(p, ignoreCase, t[1..]); }
        MatchEndFound(p[1..], ignoreCase, t);
      case Plus(c) =>
        if t != [] && InClass(t[0], c) { MatchEndFound([Star(c)] + p[1..], ignoreCase, t[1..]); }
    }
  }

  /** The end of the match of the first alternative that matches at the start of `t`. */
  function BranchEnd(branches: seq<seq<Atom>>, ignoreCase: bool, t: string): (r: Option<nat>)
    ensures r.Some? ==> r.value <= |t|
    decreases |branches|
  {
    if branches == [] then None
    else
      var first := MatchEnd(branches[0], ignoreCase, t);
      if first.Some? then first else BranchEnd(branches[1..], ignoreCase, t)
  }

  lemma {:induction false} BranchEndFound(branches: seq<seq<Atom>>, ignoreCase: bool, t: string)
    ensures BranchEnd(branches, ignoreCase, t).Some? <==> AnyBranch(branches, ignoreCase, t)
    decreases |branches|
  {
    if branches != [] {
      MatchEndFound(branches[0], ignoreCase, t);
      BranchEndFound(branches[1..], ignoreCase, t);
    }
  }

  /** The leftmost match of the rule starting at position `from` or later: where it ends in `s`. */
  function SearchFrom(rule: Rule, s: string, from: nat): (r: Option<nat>)
    requires from <= |s|
    ensures r.Some? ==> from <= r.value <= |s|
    decreases |s| - from
  {
    var here := BranchEnd(rule.pattern.branches, rule.pattern.ignoreCase, s[from..]);
    if here.Some? then Some(from + here.value)
    else if from == |s| then None
    else SearchFrom(rule, s, from + 1)
  }

  /** The search from `from` succeeds exactly when the rule occurs in the rest of `s`. */
  lemma {:induction false} SearchFromFound(rule: Rule, s: string, from: nat)
    requires from <= |s|
    ensures SearchFrom(rule, s, from).Some? <==> Matches(rule, s[from..])
    decreases |s| - from
  {
    BranchEndFound(rule.pattern.branches, rule.pattern.ignoreCase, s[from..]);
    if from < |s| {
      SearchFromFound(rule, s, from + 1);
      assert s[from..][1..] == s[from + 1..];
    }
  }

  /** What `test` reports, and the expression's `lastIndex` afterwards. */
  datatype Tested = Tested(found: bool, next: nat)

  /** Issues reported so far, and the `lastIndex` of each expression of a table. */
  datatype Checked = Checked(issues: seq<CodeIssue>, state: seq<nat>)

  /**
   * `test` on a global expression whose `lastIndex` is `lastIndex`: whether
   * a match is found, and the new `lastIndex` (the match's end, or zero when
   * the search fails or starts past the end of the text).
   */
  function Test(rule: Rule, s: string, lastIndex: nat): (r: Tested)
    ensures r.found <==> lastIndex <= |s| && Matches(rule, s[lastIndex..])
    ensures r.found ==> lastIndex <= |s| && SearchFrom(rule, s, lastIndex) == Some(r.next)
    ensures r.found ==> lastIndex <= r.next <= |s|
    ensures !r.found ==> r.next == 0
  {
    if lastIndex > |s| then Tested(false, 0)
    else
      SearchFromFound(rule, s, lastIndex);
      match SearchFrom(rule, s, lastIndex)
      case None => Tested(false, 0)
      case Some(e) => Tested(true, e)
  }

  /** With a fresh expression `test` agrees with the stateless search, and a hit leaves `lastIndex` inside the text. */
  lemma TestFromStart(rule: Rule, s: string)
    ensures Test(rule, s, 0).found <==> Matches(rule, s)
    ensures Test(rule, s, 0).next <= |s|
  {
    SearchFromFound(rule, s, 0);
    assert s[0..] == s;
  }

  /**
   * `checkPatterns` as written: the table's expressions, whose `lastIndex`
   * values are `state`, are tested in order against `content`; the issues
   * found and the expressions' new `lastIndex` values.
   */
  function CheckAsWritten(table: seq<Rule>, state: seq<nat>, content: string, kind: IssueType,
                          severity: Severity, file: string, line: int)
    : (r: Checked)
    requires |state| == |table|
    ensures |r.state| == |table|
    ensures forall i :: 0 <= i < |table| ==> r.state[i] == Test(table[i], content, state[i]).next
    ensures |r.issues| <= |table|
    decreases |table|
  {
    if table == [] then Checked([], [])
    else
      var n := |table| - 1;
      var prior := CheckAsWritten(table[..n], state[..n], content, kind, severity, file, line);
      var t := Test(table[n], content, state[n]);
      Checked(prior.issues + (if t.found then [CodeIssue(kind, severity, file, Some(line), table[n].message, None)] else []),
              prior.state + [t.next])
  }

  /**
   * With every expression fresh (`lastIndex` 0) the check as written reports
   * exactly what the stateless check reports: the missed issues come only
   * from matches on earlier lines.
   */
  lemma {:induction false} FreshCheckIsHits(table: seq<Rule>, state: seq<nat>, content: string,
                                            kind: IssueType, severity: Severity, file: string, line: int)
    requires |state| == |table|
    requires forall i :: 0 <= i < |state| ==> state[i] == 0
    ensures CheckAsWritten(table, state, content, kind, severity, file, line).issues
         == Hits(table, content, kind, severity, file, line)
    decreases |table|
  {
    if table != [] {
      var n := |table| - 1;
      FreshCheckIsHits(table[..n], state[..n], content, kind, severity, file, line);
      TestFromStart(table[n], content);
    }
  }

  /** A rule that occurs in a suffix of `s` occurs in `s`. */
  lemma MatchesInSuffix(rule: Rule, s: string, from: nat)
    requires from <= |s| && Matches(rule, s[from..])
    ensures Matches(rule, s)
  {
    MatchesSomewhere(rule, s[from..]);
    var j :| 0 <= j <= |s| - from && MatchesAt(rule, s[from..][j..]);
    assert s[from..][j..] == s[from + j..];
    MatchesSomewhere(rule, s);
  }

  /** The issue a rule of the table reports for the line. */
  function RuleIssue(rule: Rule, kind: IssueType, severity: Severity, file: string, line: int): CodeIssue {
    CodeIssue(kind, severity, file, Some(line), rule.message, None)
  }

  /** `issue` is the issue of a rule of the table whose `test` hits from its `lastIndex`. */
  predicate ReportedByHit(table: seq<Rule>, state: seq<nat>, content: string, kind: IssueType,
                          severity: Severity, file: string, line: int, issue: CodeIssue)
    requires |state| == |table|
  {
    exists i :: 0 <= i < |table| && Test(table[i], content, state[i]).found
      && issue == RuleIssue(table[i], kind, severity, file, line)
  }

  /** As written, every issue is that of a rule whose `test` hits from its `lastIndex`. */
  lemma {:induction false} CheckAsWrittenSound(table: seq<Rule>, state: seq<nat>, content: string,
                                               kind: IssueType, severity: Severity, file: string, line: int)
    requires |state| == |table|
    ensures forall k :: 0 <= k < |CheckAsWritten(table, state, content, kind, severity, file, line).issues| ==>
      ReportedByHit(table, state, content, kind, severity, file, line,
                    CheckAsWritten(table, state, content, kind, severity, file, line).issues[k])
    decreases |table|
  {
    if table != [] {
      var n := |table| - 1;
      var init, initState := table[..n], state[..n];
      CheckAsWrittenSound(init, initState, content, kind, severity, file, line);
      var prior := CheckAsWritten(init, initState, content, kind, severity, file, line);
      var r := CheckAsWritten(table, state, content, kind, severity, file, line);
      forall k | 0 <= k < |r.issues|
        ensures ReportedByHit(table, state, content, kind, severity, file, line, r.issues[k])
      {
        if k < |prior.issues| {
          assert r.issues[k] == prior.issues[k];
          assert ReportedByHit(init, initState, content, kind, severity, file, line, prior.issues[k]);
          var i :| 0 <= i < |init| && Test(init[i], content, initState[i]).found
            && prior.issues[k] == RuleIssue(init[i], kind, severity, file, line);
          assert init[i] == table[i] && initState[i] == state[i];
        } else {
          assert r.issues[k] == RuleIssue(table[n], kind, severity, file, line);
        }
      }
    }
  }

  /** As written, every rule whose `test` hits from its `lastIndex` reports its issue. */
  lemma {:induction false} CheckAsWrittenComplete(table: seq<Rule>, state: seq<nat>, content: string,
                                                  kind: IssueType, severity: Severity, file: string, line: int)
    requires |state| == |table|
    ensures var r := CheckAsWritten(table, state, content, kind, severity, file, line);
      forall i :: 0 <= i < |table| && Test(table[i], content, state[i]).found ==>
        RuleIssue(table[i], kind, severity, file, line) in r.issues
    decreases |table|
  {
    if table != [] {
      var n := |table| - 1;
      var init, initState := table[..n], state[..n];
      CheckAsWrittenComplete(init, initState, content, kind, severity, file, line);
      var prior := CheckAsWritten(init, initState, content, kind, severity, file, line);
      var r := CheckAsWritten(table, state, content, kind, severity, file, line);
      forall i | 0 <= i < |table| && Test(table[i], content, state[i]).found
        ensures RuleIssue(table[i], kind, severity, file, line) in r.issues
      {
        if i < n {
          assert init[i] == table[i] && initState[i] == state[i];
          assert RuleIssue(init[i], kind, severity, file, line) in prior.issues;
        } else {
          assert r.issues[|prior.issues|] == RuleIssue(table[n], kind, severity, file, line);
        }
      }
    }
  }

  /** Sub-multisets are kept by concatenation on both sides. */
  lemma ConcatSubMultiset(a: seq<CodeIssue>, b: seq<CodeIssue>, c: seq<CodeIssue>, d: seq<CodeIssue>)
    requires multiset(a) <= multiset(c) && multiset(b) <= multiset(d)
    ensures multiset(a + b) <= multiset(c + d)
  {
    assert multiset(a + b) == multiset(a) + multiset(b);
    assert multiset(c + d) == multiset(c) + multiset(d);
  }

  /** As written the check can only miss issues: its issues are among those of the stateless check. */
  lemma {:induction false} CheckAsWrittenOnlyMisses(table: seq<Rule>, state: seq<nat>, content: string,
                                                    kind: IssueType, severity: Severity, file: string, line: int)
    requires |state| == |table|
    ensures multiset(CheckAsWritten(table, state, content, kind, severity, file, line).issues)
         <= multiset(Hits(table, content, kind, severity, file, line))
    decreases |table|
  {
    if table != [] {
      var n := |table| - 1;
      var prior := CheckAsWritten(table[..n], state[..n], content, kind, severity, file, line).issues;
      var h := Hits(table[..n], content, kind, severity, file, line);
      CheckAsWrittenOnlyMisses(table[..n], state[..n], content, kind, severity, file, line);
      var t := Test(table[n], content, state[n]);
      var issue := RuleIssue(table[n], kind, severity, file, line);
      var tail: seq<CodeIssue> := if t.found then [issue] else [];
      var hitTail: seq<CodeIssue> := if Matches(table[n], content) then [issue] else [];
      assert CheckAsWritten(table, state, content, kind, severity, file, line).issues == prior + tail;
      assert Hits(table, content, kind, severity, file, line) == h + hitTail;
      if t.found {
        MatchesInSuffix(table[n], content, state[n]);
      }
      assert multiset(tail) <= multiset(hitTail);
      ConcatSubMultiset(prior, tail, h, hitTail);
    }
  }

  /** Mapping a non-empty sequence starts with its first element's issues. */
  lemma ConcatMapFront<T>(f: T -> seq<CodeIssue>, xs: seq<T>)
    requires xs != []
    ensures ConcatMap(f, xs) == f(xs[0]) + ConcatMap(f, xs[1..])
  {
    assert xs == [xs[0]] + xs[1..];
    ConcatMapAppend(f, [xs[0]], xs[1..]);
    assert [xs[0]][..0] == [];
    assert ConcatMap(f, [xs[0]]) == ConcatMap(f, []) + f(xs[0]);
  }

  /** As written, a scan of added lines can only miss issues of the corrected scan. */
  lemma {:induction false} ScanAsWrittenOnlyMisses(table: seq<Rule>, state: seq<nat>, added: seq<AddedText>,
                                                   kind: IssueType, severity: Severity, file: string)
    requires |state| == |table|
    ensures multiset(ScanAsWritten(table, state, added, kind, severity, file).issues)
         <= multiset(ScanCorrected(table, added, kind, severity, file))
    decreases |added|
  {
    if added != [] {
      var f := TableScan(table, kind, severity, file);
      var first := CheckAsWritten(table, state, added[0].content, kind, severity, file, added[0].line);
      CheckAsWrittenOnlyMisses(table, state, added[0].content, kind, severity, file, added[0].line);
      ScanAsWrittenOnlyMisses(table, first.state, added[1..], kind, severity, file);
      var rest := ScanAsWritten(table, first.state, added[1..], kind, severity, file);
      assert ScanAsWritten(table, state, added, kind, severity, file).issues == first.issues + rest.issues;
      ConcatMapFront(f, added);
      assert ScanCorrected(table, added, kind, severity, file)
          == f(added[0]) + ScanCorrected(table, added[1..], kind, severity, file);
      ConcatSubMultiset(first.issues, rest.issues, f(added[0]), ScanCorrected(table, added[1..], kind, severity, file));
    }
  }

  /** The added lines of a file checked in order against one table as written, from the expressions' `state`. */
  function ScanAsWritten(table: seq<Rule>, state: seq<nat>, added: seq<AddedText>,
                         kind: IssueType, severity: Severity, file: string)
    : (r: Checked)
    requires |state| == |table|
    ensures |r.state| == |table|
    decreases |added|
  {
    if added == [] then Checked([], state)
    else
      var first := CheckAsWritten(table, state, added[0].content, kind, severity, file, added[0].line);
      var rest := ScanAsWritten(table, first.state, added[1..], kind, severity, file);
      Checked(first.issues + rest.issues, rest.state)
  }

  /** One table's issues for one added line, with the stateless search. */
  function TableScan(table: seq<Rule>, kind: IssueType, severity: Severity, file: string)
    : AddedText -> seq<CodeIssue>
  {
    (t: AddedText) => Hits(table, t.content, kind, severity, file, t.line)
  }

  /** The same lines checked with the stateless search, as the rest of the model does. */
  function ScanCorrected(table: seq<Rule>, added: seq<AddedText>, kind: IssueType,
                         severity: Severity, file: string): seq<CodeIssue>
  {
    ConcatMap(TableScan(table, kind, severity, file), added)
  }

  /** The corrected scan is the scanner of the main model restricted to one table of security rules. */
  lemma {:induction false} ScanAllOneTable(table: seq<Rule>, added: seq<AddedText>, file: string)
    ensures ScanAll(CodeAnalyzer(table, []), added, file) == ScanCorrected(table, added, Security, High, file)
    decreases |added|
  {
    if added != [] {
      var init, last := added[..|added| - 1], added[|added| - 1];
      ScanAllOneTable(table, init, file);
      var h := Hits(table, last.content, Security, High, file, last.line);
      assert ScanLine(CodeAnalyzer(table, []), last.content, file, last.line) == h + [];
      assert h + [] == h;
    }
  }

  /** The number of pairs of an added line and a rule of `table` that matches it. */
  function CountFired(table: seq<Rule>, added: seq<AddedText>): nat
    decreases |added|
  {
    if added == [] then 0
    else CountFired(table, added[..|added| - 1]) + |Fired(table, added[|added| - 1].content)|
  }

  /** The corrected scan reports every matching rule on every line: one issue per line and fired rule. */
  lemma {:induction false} ScanCorrectedCount(table: seq<Rule>, added: seq<AddedText>, kind: IssueType,
                                              severity: Severity, file: string)
    ensures |ScanCorrected(table, added, kind, severity, file)| == CountFired(table, added)
    decreases |added|
  {
    if added != [] {
      var last := added[|added| - 1];
      HitsSpec(table, last.content, kind, severity, file, last.line);
      ScanCorrectedCount(table, added[..|added| - 1], kind, severity, file);
    }
  }

  /** A line `eval(x)` holding one call of `eval`. */
  function EvalCall(x: char): string {
    "eval(" + [x] + ")"
  }

  /** On `eval(x)` the `eval` rule matches at the start, and the match ends after `eval(`. */
  lemma EvalCallMatch(x: char)
    ensures MatchEnd(EvalRule.pattern.branches[0], false, EvalCall(x)) == Some(5)
    ensures Matches(EvalRule, EvalCall(x))
  {
    var p, s := EvalRule.pattern.branches[0], EvalCall(x);
    assert StartsWith(s, "eval") && s[4..] == "(" + [x] + ")";
    assert p[1..][1..] == p[2..] && p[1] == Star(Space) && !IsSpace('(');
    assert MatchEnd(p[2..], false, s[4..]) == Some(1);
    assert MatchEnd(p[1..], false, s[4..]) == Some(1);
    MatchEndFound(p, false, s);
  }

  /** A fresh `eval` expression finds the call in `eval(x)` and moves its `lastIndex` to 5. */
  lemma FirstTest(x: char)
    ensures Test(EvalRule, EvalCall(x), 0) == Tested(true, 5)
  {
    EvalCallMatch(x);
    assert EvalCall(x)[0..] == EvalCall(x);
  }

  /** From `lastIndex` 5 the `eval` expression finds nothing in `eval(x)`, and resets. */
  lemma SecondTest(x: char)
    ensures Test(EvalRule, EvalCall(x), 5) == Tested(false, 0)
  {
    var s := EvalCall(x);
    assert !StartsWith(s[5..], "eval") && !StartsWith(s[6..], "eval") && !StartsWith(s[7..], "eval");
    assert SearchFrom(EvalRule, s, 7) == None;
    assert SearchFrom(EvalRule, s, 6) == None;
  }

  /**
   * Two consecutive added lines that each call `eval`: as written the second
   * test starts at the end of the first line's match, past the second
   * line's call, and reports nothing; the stateless search reports both.
   */
  lemma SecondEvalMissed()
    ensures var added := [AddedText(EvalCall('a'), 1), AddedText(EvalCall('b'), 2)];
      |ScanAsWritten([EvalRule], [0], added, Security, High, "f.js").issues| == 1
      && |ScanCorrected([EvalRule], added, Security, High, "f.js")| == 2
  {
    var added := [AddedText(EvalCall('a'), 1), AddedText(EvalCall('b'), 2)];
    FirstTest('a');
    SecondTest('b');
    var first := CheckAsWritten([EvalRule], [0], EvalCall('a'), Security, High, "f.js", 1);
    assert [EvalRule][..0] == [] && [0][..0] == [];
    assert first.state == [5] && |first.issues| == 1;
    assert |CheckAsWritten([EvalRule], [5], EvalCall('b'), Security, High, "f.js", 2).issues| == 0;
    assert |added[1..][1..]| == 0;
    EvalCallMatch('a');
    EvalCallMatch('b');
    var f := TableScan([EvalRule], Security, High, "f.js");
    assert [EvalRule][..0] == [];
    assert |Hits([EvalRule], EvalCall('a'), Security, High, "f.js", 1)| == 1;
    assert |Hits([EvalRule], EvalCall('b'), Security, High, "f.js", 2)| == 1;
    assert f(added[0]) == Hits([EvalRule], EvalCall('a'), Security, High, "f.js", 1);
    assert f(added[1]) == Hits([EvalRule], EvalCall('b'), Security, High, "f.js", 2);
    assert added[..1] == [added[0]] && added[..1][..0] == [];
    assert ConcatMap(f, added[..1]) == ConcatMap(f, added[..1][..0]) + f(added[0]);
    assert ConcatMap(f, added) == ConcatMap(f, added[..1]) + f(added[1]);
  }
}
