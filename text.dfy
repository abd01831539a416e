/** The Python string operations the tools rely on: `str.isspace`, `strip`,
    `lstrip`, `startswith`, `count`, `replace`, `join`, `lower` (ASCII only),
    `str(int)`, `int(digits)`, `readlines()` and `splitlines()`. */
module Text {

  /** `str.isspace()`; `\s` in a `str` pattern and `strip()` use the same set. */
  predicate IsSpace(c: char) {
    c == ' ' || '\t' <= c <= '\r' || '\U{1C}' <= c <= '\U{1F}' || c == '\U{85}' || c == '\U{A0}'
    || c == '\U{1680}' || '\U{2000}' <= c <= '\U{200A}' || c == '\U{2028}' || c == '\U{2029}'
    || c == '\U{202F}' || c == '\U{205F}' || c == '\U{3000}'
  }

  /** `[0-9]`, and `\d` restricted to ASCII. */
  predicate IsDigit(c: char) { '0' <= c <= '9' }

  predicate IsLowerLetter(c: char) { 'a' <= c <= 'z' }

  predicate IsAsciiLetter(c: char) { 'a' <= c <= 'z' || 'A' <= c <= 'Z' }

  /** `\w` restricted to ASCII: letters, digits and underscore. */
  predicate IsWordChar(c: char) { IsAsciiLetter(c) || IsDigit(c) || c == '_' }

  predicate AllDigits(s: string) { forall i :: 0 <= i < |s| ==> IsDigit(s[i]) }

  function LowerChar(c: char): char {
    if 'A' <= c <= 'Z' then (c as int + 32) as char else c
  }

  /** `str.lower()` on the ASCII range. */
  function Lower(s: string): (r: string)
    ensures |r| == |s|
  {
    if s == [] then [] else [LowerChar(s[0])] + Lower(s[1..])
  }

  /** `f` applied to each element, built from the end so that indexing the
      result does not unfold `f` everywhere. */
  function MapSeq<A, B>(xs: seq<A>, f: A -> B): (r: seq<B>)
    ensures |r| == |xs|
  {
    if xs == [] then [] else MapSeq(xs[..|xs| - 1], f) + [f(xs[|xs| - 1])]
  }

  lemma {:induction false} MapSeqAt<A, B>(xs: seq<A>, f: A -> B, i: nat)
    requires i < |xs|
    ensures MapSeq(xs, f)[i] == f(xs[i])
  {
    if i < |xs| - 1 {
      MapSeqAt(xs[..|xs| - 1], f, i);
    }
  }

  /** The first character of `s.lower()` is the first character of `s`, lowered. */
  lemma LowerCons(c: char, s: string)
    ensures Lower([c] + s) == [LowerChar(c)] + Lower(s)
  {
    assert ([c] + s)[1..] == s;
  }

  lemma LowerHead(s: string)
    requires s != []
    ensures Lower(s)[0] == LowerChar(s[0])
  {
  }

  /** A character that lowers to the same as a letter is a letter. */
  lemma LowerCharLetter(c: char, d: char)
    requires LowerChar(c) == LowerChar(d) && IsAsciiLetter(d)
    ensures IsAsciiLetter(c)
  {
  }

  predicate StartsWith(s: string, prefix: string) {
    |prefix| <= |s| && s[..|prefix|] == prefix
  }

  predicate EndsWith(s: string, suffix: string) {
    |suffix| <= |s| && s[|s| - |suffix|..] == suffix
  }

  /** Drops the longest prefix whose characters satisfy `drop`. */
  function LStripBy(s: string, drop: char -> bool): (r: string)
    ensures |r| <= |s|
  {
    if s != [] && drop(s[0]) then LStripBy(s[1..], drop) else s
  }

  /** What `LStripBy` leaves: a suffix of `s` that does not start with a
      character to drop, after a prefix made only of such characters. */
  lemma {:induction false} LStripByFacts(s: string, drop: char -> bool)
    ensures var r := LStripBy(s, drop);
      && r == s[|s| - |r|..]
      && (r == [] || !drop(r[0]))
      && (forall i :: 0 <= i < |s| - |r| ==> drop(s[i]))
  {
    if s != [] && drop(s[0]) {
      LStripByFacts(s[1..], drop);
    }
  }

  /** Drops the longest suffix whose characters satisfy `drop`. */
  function RStripBy(s: string, drop: char -> bool): (r: string)
    ensures |r| <= |s|
  {
    if s != [] && drop(s[|s| - 1]) then RStripBy(s[..|s| - 1], drop) else s
  }

  /** What `RStripBy` leaves: a prefix of `s` that does not end with a
      character to drop, before a suffix made only of such characters. */
  lemma {:induction false} RStripByFacts(s: string, drop: char -> bool)
    ensures var r := RStripBy(s, drop);
      && r == s[..|r|]
      && (r == [] || !drop(r[|r| - 1]))
      && (forall i :: |r| <= i < |s| ==> drop(s[i]))
  {
    if s != [] && drop(s[|s| - 1]) {
      RStripByFacts(s[..|s| - 1], drop);
    }
  }

  function LStrip(s: string): string { LStripBy(s, IsSpace) }

  function RStrip(s: string): string { RStripBy(s, IsSpace) }

  /** `str.strip()`. */
  function Strip(s: string): string { RStrip(LStrip(s)) }

  /** `str.strip(chars)`. */
  function StripChars(s: string, chars: set<char>): string {
    RStripBy(LStripBy(s, c => c in chars), c => c in chars)
  }

  /** Neither end of a stripped string is whitespace. */
  lemma StripEnds(s: string)
    ensures var r := Strip(s); r == [] || (!IsSpace(r[0]) && !IsSpace(r[|r| - 1]))
  {
    LStripByFacts(s, IsSpace);
    RStripByFacts(LStrip(s), IsSpace);
  }

  /** Neither end of `str.strip(chars)` is one of `chars`. */
  lemma StripCharsEnds(s: string, chars: set<char>)
    ensures var r := StripChars(s, chars); r == [] || (r[0] !in chars && r[|r| - 1] !in chars)
  {
    LStripByFacts(s, c => c in chars);
    RStripByFacts(LStripBy(s, c => c in chars), c => c in chars);
  }

  /** `str.lstrip(chars)`. */
  function LStripChars(s: string, chars: set<char>): string {
    LStripBy(s, c => c in chars)
  }

  /** The end of the run of whitespace starting at `i`. */
  function SkipSpace(s: string, i: nat): (j: nat)
    requires i <= |s|
    ensures i <= j <= |s|
    ensures forall k :: i <= k < j ==> IsSpace(s[k])
    ensures j == |s| || !IsSpace(s[j])
    decreases |s| - i
  {
    if i < |s| && IsSpace(s[i]) then SkipSpace(s, i + 1) else i
  }

  /** The end of the run of ASCII digits starting at `i`. */
  function SkipDigits(s: string, i: nat): (j: nat)
    requires i <= |s|
    ensures i <= j <= |s|
    ensures forall k :: i <= k < j ==> IsDigit(s[k])
    ensures j == |s| || !IsDigit(s[j])
    decreases |s| - i
  {
    if i < |s| && IsDigit(s[i]) then SkipDigits(s, i + 1) else i
  }

  /** `SkipSpace` from `i` stops at `j` when blanks fill `[i, j)` and none is at `j`. */
  lemma {:induction false} SkipSpaceAt(s: string, i: nat, j: nat)
    requires i <= j <= |s|
    requires forall k :: i <= k < j ==> IsSpace(s[k])
    requires j == |s| || !IsSpace(s[j])
    ensures SkipSpace(s, i) == j
    decreases j - i
  {
    if i < j {
      SkipSpaceAt(s, i + 1, j);
    }
  }

  /** `SkipDigits` from `i` stops at `j` when digits fill `[i, j)` and none is at `j`. */
  /** A run of digits, taken as a slice. */
  lemma DigitsBetween(s: string, i: nat, d: nat)
    requires i <= d <= |s|
    requires forall k :: i <= k < d ==> IsDigit(s[k])
    ensures AllDigits(s[i..d])
  {
    forall k | 0 <= k < d - i
      ensures IsDigit(s[i..d][k])
    {
      assert s[i..d][k] == s[i + k];
    }
  }

  lemma {:induction false} SkipDigitsAt(s: string, i: nat, j: nat)
    requires i <= j <= |s|
    requires forall k :: i <= k < j ==> IsDigit(s[k])
    requires j == |s| || !IsDigit(s[j])
    ensures SkipDigits(s, i) == j
    decreases j - i
  {
    if i < j {
      SkipDigitsAt(s, i + 1, j);
    }
  }

  /** The position of the first newline at or after `i`, or `|s|` (where `.*` stops). */
  function LineEnd(s: string, i: nat): (j: nat)
    requires i <= |s|
    ensures i <= j <= |s|
    ensures forall k :: i <= k < j ==> s[k] != '\n'
    ensures j == |s| || s[j] == '\n'
    decreases |s| - i
  {
    if i < |s| && s[i] != '\n' then LineEnd(s, i + 1) else i
  }

  /** `LineEnd` from `i` stops at the newline at `j` when none comes before. */
  lemma {:induction false} LineEndAt(s: string, i: nat, j: nat)
    requires i <= j < |s| && s[j] == '\n'
    requires forall k :: i <= k < j ==> s[k] != '\n'
    ensures LineEnd(s, i) == j
    decreases j - i
  {
    if i < j {
      LineEndAt(s, i + 1, j);
    }
  }

  /** The first index at or after `i` holding `c`, or `|s|`. */
  function IndexFrom(s: string, c: char, i: nat): (j: nat)
    requires i <= |s|
    ensures i <= j <= |s|
    ensures forall k :: i <= k < j ==> s[k] != c
    ensures j == |s| || s[j] == c
    decreases |s| - i
  {
    if i < |s| && s[i] != c then IndexFrom(s, c, i + 1) else i
  }

  /** The length of the longest prefix made of `c`. */
  function RunOf(s: string, c: char): (n: nat)
    ensures n <= |s|
    ensures forall i :: 0 <= i < n ==> s[i] == c
    ensures n == |s| || s[n] != c
  {
    if s != [] && s[0] == c then 1 + RunOf(s[1..], c) else 0
  }

  lemma RunOfExact(s: string, c: char, n: nat)
    requires n <= |s| && (forall i :: 0 <= i < n ==> s[i] == c) && (n == |s| || s[n] != c)
    ensures RunOf(s, c) == n
  {
    if n > 0 {
      RunOfExact(s[1..], c, n - 1);
    }
  }

  /** `str.count(c)` for a one-character argument. */
  function CountChar(s: string, c: char): (n: nat)
    ensures n == multiset(s)[c]
  {
    if s == [] then 0
    else
      assert s == [s[0]] + s[1..];
      (if s[0] == c then 1 else 0) + CountChar(s[1..], c)
  }

  /** The index of the first `c` in `s`, or `|s|`. */
  function IndexOf(s: string, c: char): (k: nat)
    ensures k <= |s|
    ensures k < |s| ==> s[k] == c
    ensures forall i :: 0 <= i < k ==> s[i] != c
  {
    if s == [] then 0 else if s[0] == c then 0 else 1 + IndexOf(s[1..], c)
  }

  /** `pat` occurs in `s` starting at `i`. */
  predicate OccursAt(s: string, pat: string, i: nat) {
    i + |pat| <= |s| && s[i..i + |pat|] == pat
  }

  /** `pat in s`. */
  predicate Contains(s: string, pat: string)
    decreases |s|
  {
    StartsWith(s, pat) || (s != [] && Contains(s[1..], pat))
  }

  /** `s.replace(pat, sub)`: every non-overlapping occurrence, left to right;
      an empty `pat` puts `sub` around every character. */
  function Replace(s: string, pat: string, sub: string): string
    decreases |s|
  {
    if pat == [] then
      (if s == [] then sub else sub + [s[0]] + Replace(s[1..], pat, sub))
    else if |s| < |pat| then s
    else if s[..|pat|] == pat then sub + Replace(s[|pat|..], pat, sub)
    else [s[0]] + Replace(s[1..], pat, sub)
  }

  function Concat(parts: seq<string>): string {
    if parts == [] then [] else parts[0] + Concat(parts[1..])
  }

  /** `sep.join(parts)`. */
  function Join(sep: string, parts: seq<string>): string {
    if parts == [] then []
    else if |parts| == 1 then parts[0]
    else parts[0] + sep + Join(sep, parts[1..])
  }

  function DigitChar(d: nat): char
    requires d < 10
  {
    ('0' as int + d) as char
  }

  /** `str(n)` for a non-negative integer. */
  function NatToString(n: nat): (r: string)
    ensures |r| >= 1 && AllDigits(r)
  {
    if n < 10 then [DigitChar(n)] else NatToString(n / 10) + [DigitChar(n % 10)]
  }

  /** `str(i)`. */
  function IntToString(i: int): string {
    if i < 0 then "-" + NatToString(-i) else NatToString(i)
  }

  /** `int(s)` for a string of ASCII digits (leading zeros allowed). */
  function DigitsValue(s: string): nat
    requires AllDigits(s)
  {
    if s == [] then 0 else DigitsValue(s[..|s| - 1]) * 10 + (s[|s| - 1] as int - '0' as int)
  }

  /** `int(str(n)) == n`. */
  lemma {:induction false} DigitsValueOfNatToString(n: nat)
    ensures DigitsValue(NatToString(n)) == n
  {
    if n >= 10 {
      var s := NatToString(n);
      assert s[..|s| - 1] == NatToString(n / 10);
      DigitsValueOfNatToString(n / 10);
    }
  }

  /** The length of the leading run of ASCII digits. */
  function DigitRun(s: string): (n: nat)
    ensures n <= |s| && AllDigits(s[..n])
    ensures n == |s| || !IsDigit(s[n])
  {
    if s != [] && IsDigit(s[0]) then 1 + DigitRun(s[1..]) else 0
  }

  lemma DigitRunOfDigits(s: string, rest: string)
    requires AllDigits(s)
    requires rest == [] || !IsDigit(rest[0])
    ensures DigitRun(s + rest) == |s|
  {
    if s != [] {
      assert (s + rest)[1..] == s[1..] + rest;
      DigitRunOfDigits(s[1..], rest);
    }
  }

  // ---------------------------------------------------------------------------
  // Lines of a file

  /** `f.readlines()` on text already decoded in universal-newline mode: every
      line keeps its terminating `"\n"`, the last one may have none. */
  function ReadLines(s: string): seq<string>
    decreases |s|
  {
    if s == [] then []
    else
      var k := IndexOf(s, '\n');
      if k < |s| then [s[..k + 1]] + ReadLines(s[k + 1..]) else [s]
  }

  /** A line as `readlines()` returns it: not empty, and a `"\n"` only at its end. */
  predicate IsReadLine(l: string) {
    |l| > 0 && forall i :: 0 <= i < |l| - 1 ==> l[i] != '\n'
  }

  /** One step of `readlines()`: the first line runs up to and including
      the first newline. */
  lemma ReadLinesStep(s: string, k: nat)
    requires s != [] && k == IndexOf(s, '\n') && k < |s|
    ensures ReadLines(s) == [s[..k + 1]] + ReadLines(s[k + 1..])
  {
  }

  /** Writing back what was read gives the same text. */
  lemma {:induction false} ReadLinesRoundTrip(s: string)
    ensures Concat(ReadLines(s)) == s
    decreases |s|
  {
    if s != [] {
      var k := IndexOf(s, '\n');
      if k < |s| {
        ReadLinesRoundTrip(s[k + 1..]);
        FirstLineRoundTrip(s, k);
      } else {
        ConcatCons(s, []);
      }
    }
  }

  lemma FirstLineRoundTrip(s: string, k: nat)
    requires s != [] && k == IndexOf(s, '\n') && k < |s|
    requires Concat(ReadLines(s[k + 1..])) == s[k + 1..]
    ensures Concat(ReadLines(s)) == s
  {
    ReadLinesStep(s, k);
    ConcatCons(s[..k + 1], ReadLines(s[k + 1..]));
    assert s == s[..k + 1] + s[k + 1..];
  }

  lemma ConcatCons(head: string, rest: seq<string>)
    ensures Concat([head] + rest) == head + Concat(rest)
  {
    assert ([head] + rest)[1..] == rest;
  }

  /** Every line `readlines()` returns is well formed. */
  lemma {:induction false} ReadLinesAreLines(s: string)
    ensures forall i :: 0 <= i < |ReadLines(s)| ==> IsReadLine(ReadLines(s)[i])
    decreases |s|
  {
    if s != [] {
      var k := IndexOf(s, '\n');
      if k < |s| {
        ReadLinesAreLines(s[k + 1..]);
        ReadLinesStep(s, k);
        AllReadLinesCons(s[..k + 1], ReadLines(s[k + 1..]));
      }
    }
  }

  lemma AllReadLinesCons(line: string, rest: seq<string>)
    requires IsReadLine(line) && forall i :: 0 <= i < |rest| ==> IsReadLine(rest[i])
    ensures forall i :: 0 <= i < |[line] + rest| ==> IsReadLine(([line] + rest)[i])
  {
    assert forall i :: 0 < i < |[line] + rest| ==> ([line] + rest)[i] == rest[i - 1];
  }

  /** A line boundary for `str.splitlines()`. */
  predicate IsLineBoundary(c: char) {
    c == '\n' || c == '\r' || c == '\U{0B}' || c == '\U{0C}' || '\U{1C}' <= c <= '\U{1E}'
    || c == '\U{85}' || c == '\U{2028}' || c == '\U{2029}'
  }

  function FirstBoundary(s: string): (k: nat)
    ensures k <= |s|
    ensures k < |s| ==> IsLineBoundary(s[k])
    ensures forall i :: 0 <= i < k ==> !IsLineBoundary(s[i])
  {
    if s == [] then 0 else if IsLineBoundary(s[0]) then 0 else 1 + FirstBoundary(s[1..])
  }

  /** `str.splitlines()`: lines without their terminators, `"\r\n"` being one
      terminator; a final terminator does not start an empty line. */
  function SplitLines(s: string): (lines: seq<string>)
    ensures forall i :: 0 <= i < |lines| ==> forall j :: 0 <= j < |lines[i]| ==> !IsLineBoundary(lines[i][j])
    decreases |s|
  {
    if s == [] then []
    else
      var k := FirstBoundary(s);
      if k == |s| then [s]
      else
        var next := if s[k] == '\r' && k + 1 < |s| && s[k + 1] == '\n' then k + 2 else k + 1;
        [s[..k]] + SplitLines(s[next..])
  }
}

/** The files the tools read and write. A non-empty path that is a key is a
    file (`os.path.isfile`; the empty path never is); its value is `None` when
    opening or decoding it fails. */
module Files {
  import opened Wrappers

  type FileSystem = map<string, Option<string>>

  predicate IsFile(fs: FileSystem, path: string) { path != [] && path in fs }

  /** `open(path).read()`: `None` when `open` or decoding raises. */
  function Read(fs: FileSystem, path: string): (r: Option<string>)
    ensures r.Some? ==> IsFile(fs, path)
  {
    if IsFile(fs, path) then fs[path] else None
  }
}
