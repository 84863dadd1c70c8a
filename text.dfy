/**
 * String primitives the analyzer relies on: JavaScript's `split("\n")`,
 * `startsWith`, `includes`, the `\s` and `\d` regular-expression classes,
 * ASCII case folding (all that the `i` flag does to the ASCII patterns used
 * here) and decimal numerals as read by `parseInt`.
 */
module Text {

  /** JavaScript's `\s` class: white space and line terminators. */
  predicate IsSpace(c: char) {
    var n := c as int;
    (9 <= n <= 13) || n == 0x20 || n == 0xA0 || n == 0x1680
    || (0x2000 <= n <= 0x200A) || n == 0x2028 || n == 0x2029
    || n == 0x202F || n == 0x205F || n == 0x3000 || n == 0xFEFF
  }

  /** JavaScript's `\d` class. */
  predicate IsDigit(c: char) {
    '0' <= c <= '9'
  }

  predicate AllDigits(s: string) {
    forall j :: 0 <= j < |s| ==> IsDigit(s[j])
  }

  /** Case folding for ASCII letters; every other character is left alone. */
  function ToLower(c: char): char {
    if 'A' <= c <= 'Z' then (c as int + 32) as char else c
  }

  /** `s.startsWith(prefix)`. */
  predicate StartsWith(s: string, prefix: string) {
    prefix <= s
  }

  /** Every character of `s`, case-folded. */
  function Lower(s: string): string
    decreases |s|
  {
    if s == [] then [] else [ToLower(s[0])] + Lower(s[1..])
  }

  /** Case folding keeps the length and folds each character in place. */
  lemma {:induction false} LowerSpec(s: string)
    ensures |Lower(s)| == |s|
    ensures forall j :: 0 <= j < |s| ==> Lower(s)[j] == ToLower(s[j])
    decreases |s|
  {
    if s != [] {
      LowerSpec(s[1..]);
      assert forall j :: 1 <= j < |s| ==> Lower(s)[j] == Lower(s[1..])[j - 1];
    }
  }

  /** `s` begins with the lower-case `word`, ignoring the case of ASCII letters. */
  predicate StartsWithIgnoreCase(s: string, word: string) {
    |word| <= |s| && Lower(s[..|word|]) == word
  }

  /** `s` ends with the lower-case `word`, ignoring the case of ASCII letters. */
  predicate EndsWithIgnoreCase(s: string, word: string) {
    |word| <= |s| && Lower(s[|s| - |word|..]) == word
  }

  /** `s.includes(sub)`. */
  predicate Contains(s: string, sub: string) {
    exists i | 0 <= i <= |s| - |sub| :: sub <= s[i..]
  }

  /** The length of the run of digits `s` begins with, as a greedy `\d*` takes it. */
  function DigitRun(s: string): (n: nat)
    ensures n <= |s|
  {
    if s != [] && IsDigit(s[0]) then 1 + DigitRun(s[1..]) else 0
  }

  /** The run holds only digits and stops at the first non-digit, or at the end. */
  lemma {:induction false} DigitRunSpec(s: string)
    ensures AllDigits(s[..DigitRun(s)])
    ensures DigitRun(s) == |s| || !IsDigit(s[DigitRun(s)])
    decreases |s|
  {
    if s != [] && IsDigit(s[0]) {
      DigitRunSpec(s[1..]);
      var n := DigitRun(s[1..]);
      assert s[..n + 1] == [s[0]] + s[1..][..n];
    }
  }

  /** The digit run of a numeral followed by a non-digit is the numeral. */
  lemma {:induction false} DigitRunOfNumeral(digits: string, rest: string)
    requires AllDigits(digits) && (rest == [] || !IsDigit(rest[0]))
    ensures DigitRun(digits + rest) == |digits|
    ensures (digits + rest)[..|digits|] == digits && (digits + rest)[|digits|..] == rest
    decreases |digits|
  {
    if digits == [] {
      assert digits + rest == rest;
    } else {
      assert (digits + rest)[1..] == digits[1..] + rest;
      assert IsDigit(digits[0]);
      DigitRunOfNumeral(digits[1..], rest);
    }
  }

  /** `parseInt` of a string of decimal digits. */
  function DigitsValue(s: string): nat
    requires AllDigits(s)
  {
    if s == [] then 0 else 10 * DigitsValue(s[..|s| - 1]) + (s[|s| - 1] as int - '0' as int)
  }

  function DigitChar(d: nat): (c: char)
    requires d < 10
    ensures IsDigit(c) && c as int - '0' as int == d
  {
    ('0' as int + d) as char
  }

  /** The decimal numeral of `n`, without leading zeros. */
  function Decimal(n: nat): (s: string)
    ensures |s| >= 1 && AllDigits(s)
  {
    if n < 10 then [DigitChar(n)] else Decimal(n / 10) + [DigitChar(n % 10)]
  }

  /** Reading back a numeral written by `Decimal` gives the number. */
  lemma {:induction false} DecimalRoundTrip(n: nat)
    ensures DigitsValue(Decimal(n)) == n
  {
    if n >= 10 {
      var s := Decimal(n);
      assert s[..|s| - 1] == Decimal(n / 10);
      DecimalRoundTrip(n / 10);
    }
  }

  /** The position of the first `c` in `s`. */
  function IndexOf(s: string, c: char): (k: nat)
    requires c in s
    ensures k < |s| && s[k] == c && c !in s[..k]
  {
    if s[0] == c then 0 else 1 + IndexOf(s[1..], c)
  }

  /** `lines.join("\n")`. */
  function JoinLines(lines: seq<string>): string
    requires |lines| >= 1
  {
    if |lines| == 1 then lines[0] else lines[0] + "\n" + JoinLines(lines[1..])
  }

  /**
   * `s.split("\n")`: the pieces between newlines. A trailing newline leaves
   * an empty last piece, and the empty string splits into one empty piece.
   */
  function SplitLines(s: string): (lines: seq<string>)
    ensures |lines| >= 1
    decreases |s|
  {
    if '\n' !in s then [s]
    else
      var k := IndexOf(s, '\n');
      [s[..k]] + SplitLines(s[k + 1..])
  }

  /** The pieces hold no newline, and joining them with newlines gives back the text. */
  lemma {:induction false} SplitLinesSpec(s: string)
    ensures forall l <- SplitLines(s) :: '\n' !in l
    ensures JoinLines(SplitLines(s)) == s
    decreases |s|
  {
    if '\n' in s {
      var k := IndexOf(s, '\n');
      var lines, rest := SplitLines(s), SplitLines(s[k + 1..]);
      SplitLinesSpec(s[k + 1..]);
      assert lines == [s[..k]] + rest;
      assert lines[0] == s[..k] && lines[1..] == rest;
      assert JoinLines(lines) == s[..k] + "\n" + JoinLines(rest);
      assert s == s[..k] + "\n" + s[k + 1..];
      forall l <- lines ensures '\n' !in l {
        if l != s[..k] {
          assert l in rest;
        }
      }
    }
  }

  /** The first occurrence is the one with no earlier occurrence. */
  lemma {:induction false} IndexOfIsFirst(s: string, c: char, k: nat)
    requires k < |s| && s[k] == c && c !in s[..k]
    ensures IndexOf(s, c) == k
  {
    if k > 0 {
      assert s[0] == s[..k][0];
      assert s[1..][..k - 1] == s[1..k];
      assert s[1..k] == s[..k][1..];
      IndexOfIsFirst(s[1..], c, k - 1);
    }
  }

  /** Splitting undoes joining pieces that hold no newline. */
  lemma {:induction false} SplitJoinRoundTrip(lines: seq<string>)
    requires |lines| >= 1 && forall l <- lines :: '\n' !in l
    ensures SplitLines(JoinLines(lines)) == lines
  {
    if |lines| > 1 {
      var l0, rest := lines[0], JoinLines(lines[1..]);
      var s := l0 + "\n" + rest;
      assert s == JoinLines(lines);
      assert s[..|l0|] == l0 && s[|l0|] == '\n';
      IndexOfIsFirst(s, '\n', |l0|);
      assert s[|l0| + 1..] == rest;
      assert lines == [l0] + lines[1..];
      SplitJoinRoundTrip(lines[1..]);
    }
  }
}
