/**
 * The pattern scanner: two ordered rule tables (five security rules, four
 * code-smell rules) and the per-line check that emits one issue for every
 * rule whose pattern occurs in an added line.
 *
 * A rule is a pattern and a fixed message, as in the analyzer's tables. The
 * pattern keeps the rule's regular expression as data, built from the few
 * constructs those expressions use (literal text, one character of a class,
 * the `?`, `*` and `+` repetitions of a class, alternatives), and a small
 * backtracking prefix matcher interprets it.
 */
module Rules {
  import opened Types
  import opened Text

  /** A character class of the rule patterns. */
  datatype CharClass = Space | AnyOf(chars: string) | NoneOf(chars: string)

  /** One element of a rule pattern. */
  datatype Atom =
    | Lit(text: string)          // the text itself
    | One(cls: CharClass)        // exactly one character of the class
    | Optional(cls: CharClass)   // at most one character of the class
    | Star(cls: CharClass)       // any number of characters of the class
    | Plus(cls: CharClass)       // at least one character of the class

  /**
   * A regular expression: alternatives, each a sequence of atoms, and whether
   * ASCII letters are compared ignoring case (the `i` flag; the texts of such
   * a pattern are written in lower case, and its classes hold no letters).
   */
  datatype Pattern = Pattern(branches: seq<seq<Atom>>, ignoreCase: bool)

  datatype Rule = Rule(pattern: Pattern, message: string)

  /** Optional white space, `:` or `=`, optional white space, a quoted literal. */
  const QuotedAssignment: seq<Atom> :=
    [Star(Space), One(AnyOf(":=")), Star(Space),
     One(AnyOf("\"'")), Plus(NoneOf("\"'")), One(AnyOf("\"'"))]

  const ApiKeyRule := Rule(
    Pattern([[Lit("api"), Optional(AnyOf("_-")), Lit("key")] + QuotedAssignment], true),
    "Potential API key exposure")
  const PasswordRule := Rule(
    Pattern([[Lit("password")] + QuotedAssignment], true),
    "Hardcoded password detected")
  const SecretRule := Rule(
    Pattern([[Lit("secret")] + QuotedAssignment, [Lit("token")] + QuotedAssignment], true),
    "Potential secret exposure")
  const EvalRule := Rule(
    Pattern([[Lit("eval"), Star(Space), One(AnyOf("("))]], false),
    "Dangerous eval() usage")
  const InnerHtmlRule := Rule(
    Pattern([[Lit("innerHTML"), Star(Space), One(AnyOf("="))]], false),
    "Potential XSS vulnerability")

  const ConsoleRule := Rule(
    Pattern([[Lit("console."), Lit("log")], [Lit("console."), Lit("error")],
             [Lit("console."), Lit("warn")], [Lit("console."), Lit("debug")]], false),
    "Console statement left in code")
  const DebuggerRule := Rule(
    Pattern([[Lit("debugger")]], false),
    "Debugger statement found")
  const AnyTypeRule := Rule(
    Pattern([[One(AnyOf(":")), Star(Space), Lit("any"), Star(Space), One(AnyOf(",;)"))]], false),
    "TypeScript \"any\" type used")
  const TodoRule := Rule(
    Pattern([[Lit("todo")], [Lit("fixme")], [Lit("hack")]], true),
    "TODO/FIXME comment found")

  /** Reported as security issues of high severity. */
  const SecurityRules: seq<Rule> := [ApiKeyRule, PasswordRule, SecretRule, EvalRule, InnerHtmlRule]

  /** Reported as warnings of medium severity. */
  const SmellRules: seq<Rule> := [ConsoleRule, DebuggerRule, AnyTypeRule, TodoRule]

  /** The messages of each table in order, and which of its expressions carry the `i` flag. */
  lemma RuleTablesAsDeclared()
    ensures |SecurityRules| == 5 && |SmellRules| == 4
    ensures forall r <- SecurityRules + SmellRules :: |r.pattern.branches| >= 1
    ensures [SecurityRules[0].message, SecurityRules[1].message, SecurityRules[2].message,
             SecurityRules[3].message, SecurityRules[4].message]
         == ["Potential API key exposure", "Hardcoded password detected", "Potential secret exposure",
             "Dangerous eval() usage", "Potential XSS vulnerability"]
    ensures [SmellRules[0].message, SmellRules[1].message, SmellRules[2].message, SmellRules[3].message]
         == ["Console statement left in code", "Debugger statement found",
             "TypeScript \"any\" type used", "TODO/FIXME comment found"]
    ensures forall k :: 0 <= k < 5 ==> (SecurityRules[k].pattern.ignoreCase <==> k < 3)
    ensures forall k :: 0 <= k < 4 ==> (SmellRules[k].pattern.ignoreCase <==> k == 3)
  {
  }

  /**
   * The analyzer object: its two rule tables, which it never changes. The
   * properties below hold for any tables; `NewAnalyzer` is the one the
   * analyzer's constructor builds.
   */
  datatype CodeAnalyzer = CodeAnalyzer(securityPatterns: seq<Rule>, codeSmellPatterns: seq<Rule>)

  const NewAnalyzer := CodeAnalyzer(SecurityRules, SmellRules)

  predicate InClass(c: char, cls: CharClass) {
    match cls
    case Space => IsSpace(c)
    case AnyOf(cs) => c in cs
    case NoneOf(cs) => c !in cs
  }

  predicate LitAt(t: string, text: string, ignoreCase: bool) {
    if ignoreCase then StartsWithIgnoreCase(t, text) else StartsWith(t, text)
  }

  /**
   * The atoms `p` match a prefix of `t`, trying every way the repetitions
   * can split the text, as a backtracking regular-expression search does.
   */
  predicate MatchSeq(p: seq<Atom>, ignoreCase: bool, t: string)
    decreases |p|, |t|
  {
    if p == [] then true
    else match p[0]
      case Lit(w) => LitAt(t, w, ignoreCase) && MatchSeq(p[1..], ignoreCase, t[|w|..])
      case One(c) => t != [] && InClass(t[0], c) && MatchSeq(p[1..], ignoreCase, t[1..])
      case Optional(c) =>
        (t != [] && InClass(t[0], c) && MatchSeq(p[1..], ignoreCase, t[1..]))
        || MatchSeq(p[1..], ignoreCase, t)
      case Star(c) =>
        (t != [] && InClass(t[0], c) && MatchSeq(p, ignoreCase, t[1..]))
        || MatchSeq(p[1..], ignoreCase, t)
      case Plus(c) =>
        t != [] && InClass(t[0], c) && MatchSeq([Star(c)] + p[1..], ignoreCase, t[1..])
  }

  /** Some alternative matches a prefix of `t`. */
  predicate AnyBranch(branches: seq<seq<Atom>>, ignoreCase: bool, t: string)
    decreases |branches|
  {
    branches != [] && (MatchSeq(branches[0], ignoreCase, t) || AnyBranch(branches[1..], ignoreCase, t))
  }

  /** The rule's pattern matches at the very start of `t`. */
  predicate MatchesAt(rule: Rule, t: string) {
    AnyBranch(rule.pattern.branches, rule.pattern.ignoreCase, t)
  }

  /** The regular expression's `test`: a left-to-right search for a match. */
  predicate Matches(rule: Rule, s: string)
    decreases |s|
  {
    MatchesAt(rule, s) || (s != [] && Matches(rule, s[1..]))
  }

  /** The search finds a match exactly when the pattern matches at some position. */
  lemma {:induction false} MatchesSomewhere(rule: Rule, s: string)
    ensures Matches(rule, s) <==> exists i | 0 <= i <= |s| :: MatchesAt(rule, s[i..])
    decreases |s|
  {
    assert s[0..] == s;
    if s != [] {
      MatchesSomewhere(rule, s[1..]);
      if Matches(rule, s) && !MatchesAt(rule, s) {
        var i :| 0 <= i <= |s| - 1 && MatchesAt(rule, s[1..][i..]);
        assert s[1..][i..] == s[i + 1..];
      }
      if exists i | 0 <= i <= |s| :: MatchesAt(rule, s[i..]) {
        var i :| 0 <= i <= |s| && MatchesAt(rule, s[i..]);
        if i > 0 {
          assert s[1..][i - 1..] == s[i..];
        }
      }
    }
  }

  /** The positions in `table` of the rules whose pattern occurs in `content`, in table order. */
  function Fired(table: seq<Rule>, content: string): seq<nat>
    decreases |table|
  {
    if table == [] then []
    else
      Fired(table[..|table| - 1], content)
      + (if Matches(table[|table| - 1], content) then [|table| - 1] else [])
  }

  /** Exactly the positions of the matching rules fire, each once, in table order. */
  lemma {:induction false} FiredSpec(table: seq<Rule>, content: string)
    ensures forall i <- Fired(table, content) :: i < |table|
    ensures forall i :: 0 <= i < |table| ==> (i in Fired(table, content) <==> Matches(table[i], content))
    ensures forall k, k' :: 0 <= k < k' < |Fired(table, content)| ==>
      Fired(table, content)[k] < Fired(table, content)[k']
    decreases |table|
  {
    if table != [] {
      var init := table[..|table| - 1];
      FiredSpec(init, content);
      var prior := Fired(init, content);
      var fired := Fired(table, content);
      assert forall i <- prior :: i < |init| && table[i] == init[i];
      assert forall k :: 0 <= k < |prior| ==> fired[k] == prior[k] && prior[k] in prior;
    }
  }

  /**
   * The issues `checkPatterns` appends for one table: for each rule in table
   * order whose pattern occurs in `content`, an issue with the table's type
   * and severity, the rule's message, the file name and the line.
   */
  function Hits(table: seq<Rule>, content: string, kind: IssueType, severity: Severity,
                file: string, line: int): seq<CodeIssue>
  {
    if table == [] then []
    else
      var init, last := table[..|table| - 1], table[|table| - 1];
      Hits(init, content, kind, severity, file, line)
      + (if Matches(last, content)
         then [CodeIssue(kind, severity, file, Some(line), last.message, None)]
         else [])
  }

  /** The k-th issue of a table is the one of its k-th fired rule. */
  lemma {:induction false} HitsSpec(table: seq<Rule>, content: string, kind: IssueType,
                                    severity: Severity, file: string, line: int)
    ensures |Hits(table, content, kind, severity, file, line)| == |Fired(table, content)|
    ensures forall k :: 0 <= k < |Fired(table, content)| ==>
      var i := Fired(table, content)[k];
      i < |table|
      && Hits(table, content, kind, severity, file, line)[k]
         == CodeIssue(kind, severity, file, Some(line), table[i].message, None)
    decreases |table|
  {
    if table != [] {
      var init := table[..|table| - 1];
      HitsSpec(init, content, kind, severity, file, line);
      FiredSpec(init, content);
      var prior := Fired(init, content);
      assert forall k :: 0 <= k < |prior| ==> prior[k] in prior;
    }
  }

  /** One more rule at the end of a table adds its issue, if it fires, at the end. */
  lemma HitsStep(table: seq<Rule>, rule: Rule, content: string, kind: IssueType,
                 severity: Severity, file: string, line: int)
    ensures Hits(table + [rule], content, kind, severity, file, line)
         == Hits(table, content, kind, severity, file, line)
            + (if Matches(rule, content)
               then [CodeIssue(kind, severity, file, Some(line), rule.message, None)]
               else [])
  {
    assert (table + [rule])[..|table|] == table;
  }

  /**
   * `checkPatterns`: tests every rule of `patterns` against `content` and
   * appends an issue for each that matches to the caller's list.
   */
  method CheckPatterns(content: string, filename: string, line: int, patterns: seq<Rule>,
                       kind: IssueType, severity: Severity, issues: seq<CodeIssue>)
    returns (result: seq<CodeIssue>)
    ensures result == issues + Hits(patterns, content, kind, severity, filename, line)
  {
    result := issues;
    for i := 0 to |patterns|
      invariant result == issues + Hits(patterns[..i], content, kind, severity, filename, line)
    {
      assert patterns[..i + 1] == patterns[..i] + [patterns[i]];
      HitsStep(patterns[..i], patterns[i], content, kind, severity, filename, line);
      if Matches(patterns[i], content) {
        var issue := CodeIssue(kind, severity, filename, Some(line), patterns[i].message, None);
        AppendAssoc(issues, Hits(patterns[..i], content, kind, severity, filename, line), [issue]);
        result := result + [issue];
      } else {
        assert Hits(patterns[..i], content, kind, severity, filename, line) + []
            == Hits(patterns[..i], content, kind, severity, filename, line);
      }
    }
    assert patterns[..|patterns|] == patterns;
  }

  /** All issues of one added line: the security table's, then the smell table's. */
  function ScanLine(a: CodeAnalyzer, content: string, file: string, line: int): seq<CodeIssue> {
    Hits(a.securityPatterns, content, Security, High, file, line)
    + Hits(a.codeSmellPatterns, content, Warning, Medium, file, line)
  }

  /**
   * An added line yields one issue per matching rule: first the security
   * rules, as security/high, then the smell rules, as warning/medium, each
   * table in its own order, all carrying the file name and the line.
   */
  lemma ScanLineSpec(a: CodeAnalyzer, content: string, file: string, line: int)
    ensures var sec, smell := Fired(a.securityPatterns, content), Fired(a.codeSmellPatterns, content);
      |ScanLine(a, content, file, line)| == |sec| + |smell|
    ensures forall k :: 0 <= k < |Fired(a.securityPatterns, content)| ==>
      var i := Fired(a.securityPatterns, content)[k];
      i < |a.securityPatterns|
      && ScanLine(a, content, file, line)[k]
         == CodeIssue(Security, High, file, Some(line), a.securityPatterns[i].message, None)
    ensures forall k :: 0 <= k < |Fired(a.codeSmellPatterns, content)| ==>
      var i := Fired(a.codeSmellPatterns, content)[k];
      i < |a.codeSmellPatterns|
      && ScanLine(a, content, file, line)[|Fired(a.securityPatterns, content)| + k]
         == CodeIssue(Warning, Medium, file, Some(line), a.codeSmellPatterns[i].message, None)
  {
    var sec, smell := Fired(a.securityPatterns, content), Fired(a.codeSmellPatterns, content);
    var hs := Hits(a.securityPatterns, content, Security, High, file, line);
    var hw := Hits(a.codeSmellPatterns, content, Warning, Medium, file, line);
    var issues := ScanLine(a, content, file, line);
    HitsSpec(a.securityPatterns, content, Security, High, file, line);
    HitsSpec(a.codeSmellPatterns, content, Warning, Medium, file, line);
    assert issues == hs + hw;
    forall k | 0 <= k < |smell| ensures issues[|sec| + k] == hw[k] {
    }
  }
}
