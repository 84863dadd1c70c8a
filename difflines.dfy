/**
 * The diff line mapper: reads a file's unified-diff patch (GNU diffutils
 * "unified format") line by line, keeps the line number on the post-change
 * side of the diff, and hands every added line to the pattern scanner.
 */
module DiffLines {
  import opened Types
  import opened Text

  /** How the mapper treats one line of a patch. */
  datatype LineKind =
    | HunkHeader(newStart: Option<nat>) // begins with "@@"; the new-side start, when it parses
    | AddedLine(content: string)        // begins with "+" but not "+++"; the text after the "+"
    | RemovedLine                       // begins with "-"
    | ContextLine                       // anything else, "+++" and the empty line included

  /**
   * The hunk-header expression tried at the start of `t`: "@@ -", digits,
   * an optional comma, optional digits, " +", digits. The result is the
   * value of the last digit run, the new-side start of the hunk.
   */
  function HunkAt(t: string): Option<nat> {
    if StartsWith(t, "@@ -") then OldStartAt(t[4..]) else None
  }

  /** `\d+` for the old-side start, then the rest of the expression. */
  function OldStartAt(t: string): Option<nat> {
    var a := DigitRun(t);
    if a == 0 then None else OldCountAt(t[a..])
  }

  /** `,?\d* \+`: an optional comma, optional digits, then " +" and the new-side start. */
  function OldCountAt(t: string): Option<nat> {
    var t' := if t != [] && t[0] == ',' then t[1..] else t;
    var t'' := t'[DigitRun(t')..];
    if StartsWith(t'', " +") then NewStartAt(t''[2..]) else None
  }

  /** `(\d+)`: the new-side start, read as a decimal number. */
  function NewStartAt(t: string): Option<nat> {
    var d := DigitRun(t);
    DigitRunSpec(t);
    if d == 0 then None else Some(DigitsValue(t[..d]))
  }

  /**
   * `line.match(...)` with the unanchored hunk-header expression: the
   * new-side start found at the leftmost position where it matches.
   */
  function HunkStart(line: string): Option<nat>
    decreases |line|
  {
    if line == [] then None
    else if HunkAt(line).Some? then HunkAt(line)
    else HunkStart(line[1..])
  }

  /** The optional ",count" of one side of a hunk header. */
  function CountPart(count: Option<nat>): string {
    match count
    case None => ""
    case Some(c) => "," + Decimal(c)
  }

  /**
   * A hunk header as the unified format of GNU diffutils writes it:
   * "@@ -start[,count] +start[,count] @@", then an optional heading.
   */
  function FormatHunkHeader(oldStart: nat, oldCount: Option<nat>, newStart: nat, newCount: Option<nat>,
                            heading: string): string {
    "@@ -" + (Decimal(oldStart) + (CountPart(oldCount) + (" +" + (Decimal(newStart)
    + (CountPart(newCount) + (" @@" + heading))))))
  }

  /** The optional ",count" and the " +" are skipped, whatever follows. */
  lemma OldCountParts(countPart: string, afterPlus: string)
    requires countPart == [] || (countPart[0] == ',' && AllDigits(countPart[1..]))
    ensures OldCountAt(countPart + (" +" + afterPlus)) == NewStartAt(afterPlus)
  {
    var afterOld := countPart + (" +" + afterPlus);
    assert (" +" + afterPlus)[2..] == afterPlus;
    if countPart == [] {
      assert afterOld == [] + (" +" + afterPlus);
      DigitRunOfNumeral([], " +" + afterPlus);
    } else {
      assert afterOld[1..] == countPart[1..] + (" +" + afterPlus);
      DigitRunOfNumeral(countPart[1..], " +" + afterPlus);
    }
  }

  /** The old-side start is skipped when the next character is not a digit. */
  lemma OldStartParts(oldDigits: string, afterOld: string)
    requires |oldDigits| >= 1 && AllDigits(oldDigits)
    requires afterOld == [] || !IsDigit(afterOld[0])
    ensures OldStartAt(oldDigits + afterOld) == OldCountAt(afterOld)
  {
    DigitRunOfNumeral(oldDigits, afterOld);
  }

  /** A header made of digit runs in the expected places parses to its new-side start. */
  lemma HeaderParts(oldDigits: string, countPart: string, newDigits: string, rest: string)
    requires |oldDigits| >= 1 && AllDigits(oldDigits)
    requires countPart == [] || (countPart[0] == ',' && AllDigits(countPart[1..]))
    requires |newDigits| >= 1 && AllDigits(newDigits)
    requires rest == [] || !IsDigit(rest[0])
    ensures Classify("@@ -" + (oldDigits + (countPart + (" +" + (newDigits + rest)))))
         == HunkHeader(Some(DigitsValue(newDigits)))
  {
    var afterPlus := newDigits + rest;
    DigitRunOfNumeral(newDigits, rest);
    assert NewStartAt(afterPlus) == Some(DigitsValue(newDigits));
    var afterOld := countPart + (" +" + afterPlus);
    OldCountParts(countPart, afterPlus);
    OldStartParts(oldDigits, afterOld);
    var h := "@@ -" + (oldDigits + afterOld);
    assert h[4..] == oldDigits + afterOld;
    assert StartsWith(h, "@@ -") && StartsWith(h, "@@");
    assert HunkAt(h) == Some(DigitsValue(newDigits));
  }

  /** The mapper reads back the new-side start of every well-formed hunk header. */
  lemma HunkHeaderRoundTrip(oldStart: nat, oldCount: Option<nat>, newStart: nat, newCount: Option<nat>,
                            heading: string)
    ensures Classify(FormatHunkHeader(oldStart, oldCount, newStart, newCount, heading))
         == HunkHeader(Some(newStart))
  {
    var countPart, rest := CountPart(oldCount), CountPart(newCount) + (" @@" + heading);
    assert countPart == [] || countPart[1..] == Decimal(oldCount.value);
    assert rest == [] || rest[0] == ',' || rest[0] == ' ';
    HeaderParts(Decimal(oldStart), countPart, Decimal(newStart), rest);
    DecimalRoundTrip(newStart);
  }

  /** A new-side start that parses is a digit run, ended by a non-digit or the end of the line. */
  lemma NewStartSound(t: string) returns (newDigits: string, rest: string)
    requires NewStartAt(t).Some?
    ensures t == newDigits + rest
    ensures |newDigits| >= 1 && AllDigits(newDigits)
    ensures rest == [] || !IsDigit(rest[0])
    ensures DigitsValue(newDigits) == NewStartAt(t).value
  {
    var d := DigitRun(t);
    DigitRunSpec(t);
    newDigits, rest := t[..d], t[d..];
    assert t == newDigits + rest;
  }

  /** What follows the old-side start, when it parses, is ",count" or nothing, then " +" and the new-side start. */
  lemma OldCountSound(t: string) returns (countPart: string, newDigits: string, rest: string)
    requires t == [] || !IsDigit(t[0])
    requires OldCountAt(t).Some?
    ensures t == countPart + (" +" + (newDigits + rest))
    ensures countPart == [] || (countPart[0] == ',' && AllDigits(countPart[1..]))
    ensures |newDigits| >= 1 && AllDigits(newDigits)
    ensures rest == [] || !IsDigit(rest[0])
    ensures DigitsValue(newDigits) == OldCountAt(t).value
  {
    var skip := if t != [] && t[0] == ',' then 1 else 0;
    var t' := t[skip..];
    var d := DigitRun(t');
    DigitRunSpec(t');
    var t'' := t'[d..];
    countPart := t[..skip + d];
    assert t'' == t[skip + d..];
    assert t == countPart + t'';
    assert StartsWith(t'', " +");
    newDigits, rest := NewStartSound(t''[2..]);
    assert t'' == " +" + (newDigits + rest);
    if skip == 1 {
      assert countPart[1..] == t'[..d];
    } else {
      assert d == 0;
    }
  }

  /** An old-side start that parses is a digit run, then what `OldCountSound` describes. */
  lemma OldStartSound(u: string) returns (oldDigits: string, countPart: string, newDigits: string, rest: string)
    requires OldStartAt(u).Some?
    ensures u == oldDigits + (countPart + (" +" + (newDigits + rest)))
    ensures |oldDigits| >= 1 && AllDigits(oldDigits)
    ensures countPart == [] || (countPart[0] == ',' && AllDigits(countPart[1..]))
    ensures |newDigits| >= 1 && AllDigits(newDigits)
    ensures rest == [] || !IsDigit(rest[0])
    ensures DigitsValue(newDigits) == OldStartAt(u).value
  {
    var a := DigitRun(u);
    DigitRunSpec(u);
    var v := u[a..];
    assert a > 0 && OldStartAt(u) == OldCountAt(v);
    assert v == [] || !IsDigit(v[0]) by {
      if v != [] {
        assert v[0] == u[a];
      }
    }
    oldDigits := u[..a];
    assert u == oldDigits + v;
    countPart, newDigits, rest := OldCountSound(v);
  }

  /** A header that parses at the start of `t` is made of digit runs in the places `HeaderParts` names. */
  lemma HunkAtSound(t: string) returns (oldDigits: string, countPart: string, newDigits: string, rest: string)
    requires HunkAt(t).Some?
    ensures t == "@@ -" + (oldDigits + (countPart + (" +" + (newDigits + rest))))
    ensures |oldDigits| >= 1 && AllDigits(oldDigits)
    ensures countPart == [] || (countPart[0] == ',' && AllDigits(countPart[1..]))
    ensures |newDigits| >= 1 && AllDigits(newDigits)
    ensures rest == [] || !IsDigit(rest[0])
    ensures DigitsValue(newDigits) == HunkAt(t).value
  {
    assert StartsWith(t, "@@ -");
    oldDigits, countPart, newDigits, rest := OldStartSound(t[4..]);
    assert t == t[..4] + t[4..];
  }

  /**
   * The converse of `HeaderParts`: a line yields a new-side start only at a
   * position holding a well-formed header, the leftmost one, worth that
   * start. So an `@@` line the expression does not match leaves the counter.
   */
  lemma {:induction false} HunkStartSound(line: string)
    returns (i: nat, oldDigits: string, countPart: string, newDigits: string, rest: string)
    requires HunkStart(line).Some?
    ensures i < |line| && line[i..] == "@@ -" + (oldDigits + (countPart + (" +" + (newDigits + rest))))
    ensures |oldDigits| >= 1 && AllDigits(oldDigits)
    ensures countPart == [] || (countPart[0] == ',' && AllDigits(countPart[1..]))
    ensures |newDigits| >= 1 && AllDigits(newDigits)
    ensures rest == [] || !IsDigit(rest[0])
    ensures DigitsValue(newDigits) == HunkStart(line).value
    ensures forall j :: 0 <= j < i ==> HunkAt(line[j..]).None?
    decreases |line|
  {
    if HunkAt(line).Some? {
      i := 0;
      oldDigits, countPart, newDigits, rest := HunkAtSound(line);
    } else {
      var k;
      k, oldDigits, countPart, newDigits, rest := HunkStartSound(line[1..]);
      i := k + 1;
      assert line[i..] == line[1..][k..];
      forall j | 0 <= j < i
        ensures HunkAt(line[j..]).None?
      {
        if j > 0 {
          assert line[j..] == line[1..][j - 1..];
        }
      }
    }
  }

  function Classify(line: string): LineKind {
    if StartsWith(line, "@@") then HunkHeader(HunkStart(line))
    else if StartsWith(line, "+") && !StartsWith(line, "+++") then AddedLine(line[1..])
    else if StartsWith(line, "-") then RemovedLine
    else ContextLine
  }

  /** The line advances the counter: an added or a context line. */
  predicate Advances(line: string) {
    Classify(line).AddedLine? || Classify(line).ContextLine?
  }

  /** The line is a hunk header whose new-side start parses: it resets the counter. */
  predicate Resets(line: string) {
    Classify(line).HunkHeader? && Classify(line).newStart.Some?
  }

  /** The counter after one more line. */
  function NextCounter(counter: int, line: string): int {
    match Classify(line)
    case HunkHeader(Some(n)) => n - 1
    case HunkHeader(None) => counter
    case AddedLine(_) => counter + 1
    case RemovedLine => counter
    case ContextLine => counter + 1
  }

  /** The counter after reading `lines`, starting from `start`. */
  function CounterAfter(lines: seq<string>, start: int): int
    decreases |lines|
  {
    if lines == [] then start
    else NextCounter(CounterAfter(lines[..|lines| - 1], start), lines[|lines| - 1])
  }

  /** An added line handed to the scanner: its text after the "+" and its line number. */
  datatype AddedText = AddedText(content: string, line: int)

  /** The added lines of `lines`, in order, numbered by the counter, starting from `start`. */
  function AddedLines(lines: seq<string>, start: int): seq<AddedText>
    decreases |lines|
  {
    if lines == [] then []
    else
      var init := lines[..|lines| - 1];
      AddedLines(init, start)
      + match Classify(lines[|lines| - 1])
        case AddedLine(content) => [AddedText(content, CounterAfter(init, start) + 1)]
        case _ => []
  }

  /** Reading one more line: the counter takes one step, and an added line is handed on. */
  lemma MapperStep(lines: seq<string>, j: nat, start: int)
    requires j < |lines|
    ensures CounterAfter(lines[..j + 1], start) == NextCounter(CounterAfter(lines[..j], start), lines[j])
    ensures Classify(lines[j]).AddedLine? ==>
      AddedLines(lines[..j + 1], start)
      == AddedLines(lines[..j], start)
         + [AddedText(Classify(lines[j]).content, CounterAfter(lines[..j], start) + 1)]
    ensures !Classify(lines[j]).AddedLine? ==>
      AddedLines(lines[..j + 1], start) == AddedLines(lines[..j], start)
  {
    assert lines[..j + 1][..j] == lines[..j];
  }

  /** The number of lines that advance the counter. */
  function AdvancingCount(lines: seq<string>): nat
    decreases |lines|
  {
    if lines == [] then 0
    else AdvancingCount(lines[..|lines| - 1]) + (if Advances(lines[|lines| - 1]) then 1 else 0)
  }

  /** Reading `a + b` is reading `a`, then `b` from where `a` left the counter. */
  lemma {:induction false} CounterAfterAppend(a: seq<string>, b: seq<string>, start: int)
    ensures CounterAfter(a + b, start) == CounterAfter(b, CounterAfter(a, start))
    decreases |b|
  {
    if b == [] {
      assert a + b == a;
    } else {
      var init := b[..|b| - 1];
      assert (a + b)[..|a + b| - 1] == a + init;
      CounterAfterAppend(a, init, start);
    }
  }

  /** The added lines of `a + b` are those of `a`, then those of `b` numbered on from `a`. */
  lemma {:induction false} AddedLinesAppend(a: seq<string>, b: seq<string>, start: int)
    ensures AddedLines(a + b, start) == AddedLines(a, start) + AddedLines(b, CounterAfter(a, start))
    decreases |b|
  {
    if b == [] {
      assert a + b == a;
    } else {
      var init := b[..|b| - 1];
      assert (a + b)[..|a + b| - 1] == a + init;
      AddedLinesAppend(a, init, start);
      CounterAfterAppend(a, init, start);
    }
  }

  /**
   * Without a parseable hunk header the counter moves by one for every added
   * or context line; removed lines and unparseable headers leave it alone.
   */
  lemma {:induction false} CounterWithoutReset(lines: seq<string>, start: int)
    requires forall l <- lines :: !Resets(l)
    ensures CounterAfter(lines, start) == start + AdvancingCount(lines)
    decreases |lines|
  {
    if lines != [] {
      var init, last := lines[..|lines| - 1], lines[|lines| - 1];
      assert forall l <- init :: l in lines;
      assert !Resets(last);
      CounterWithoutReset(init, start);
    }
  }

  /**
   * After a hunk header that declares new-side start `n`, the k-th line that
   * advances the counter, up to the next parseable header, is numbered
   * `n + k - 1`: the counter after the header and `mid` is `n - 1` plus the
   * advancing lines of `mid`, whatever came before the header.
   */
  lemma CounterInHunk(pre: seq<string>, header: string, mid: seq<string>, n: nat, start: int)
    requires Classify(header) == HunkHeader(Some(n))
    requires forall l <- mid :: !Resets(l)
    ensures CounterAfter(pre + [header] + mid, start) == n - 1 + AdvancingCount(mid)
  {
    CounterAfterAppend(pre + [header], mid, start);
    CounterAfterAppend(pre, [header], start);
    assert [header][..0] == [];
    CounterWithoutReset(mid, n - 1);
  }

  /**
   * An added line inside a hunk reaches the scanner with its post-change
   * line number `n + AdvancingCount(mid)`, between the added lines before it
   * and those after it.
   */
  lemma AddedLineNumber(pre: seq<string>, header: string, mid: seq<string>, added: string,
                        post: seq<string>, n: nat)
    requires Classify(header) == HunkHeader(Some(n))
    requires forall l <- mid :: !Resets(l)
    requires Classify(added).AddedLine?
    ensures AddedLines(pre + [header] + mid + [added] + post, 0)
         == AddedLines(pre + [header] + mid, 0)
            + [AddedText(Classify(added).content, n + AdvancingCount(mid))]
            + AddedLines(post, n + AdvancingCount(mid))
  {
    var front := pre + [header] + mid;
    CounterInHunk(pre, header, mid, n, 0);
    AddedLinesAppend(front + [added], post, 0);
    AddedLinesAppend(front, [added], 0);
    CounterAfterAppend(front, [added], 0);
    assert [added][..0] == [];
  }
}
