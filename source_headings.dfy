/** The heading that opens a sources section
    (`get_language_dependent_header_pattern_for_sources` in `source_extract.py`):

      ^(#{1,max_level})\s*(?:\d+(?:\.\d+)*\.?)?\s*(?:word|word|...)   IGNORECASE

    Every title word starts with a letter, so a `#`, a blank, a digit or a
    `.` can never begin a word; the greedy reading of each part is then the
    only one that can succeed, and the recogniser below follows it. */
module SourceHeadings {
  import opened Text
  import opened Wrappers

  const GermanWords: seq<string> := ["Quelle", "Quellen", "Quellen & Verweise", "Quellen und Verweise"]
  const EnglishWords: seq<string> := ["Source", "Sources", "References", "Sources & References"]

  /** `patterns.get(lang, [])`. */
  function LanguageWords(lang: string): seq<string> {
    if lang == "de" then GermanWords else if lang == "en" then EnglishWords else []
  }

  // ---------------------------------------------------------------------------
  // De-duplication keeping the first occurrence

  /** `[w for w in words if not (w in seen or seen.add(w))]`, starting from `seen`. */
  function DedupFrom(s: seq<string>, seen: set<string>): seq<string> {
    if s == [] then []
    else if s[0] in seen then DedupFrom(s[1..], seen)
    else [s[0]] + DedupFrom(s[1..], seen + {s[0]})
  }

  function Dedup(s: seq<string>): seq<string> { DedupFrom(s, {}) }

  /** A reference definition: a word is kept iff it does not occur earlier. */
  function KeepFirst(s: seq<string>): seq<string> {
    if s == [] then []
    else
      var init, last := s[..|s| - 1], s[|s| - 1];
      KeepFirst(init) + (if last in init then [] else [last])
  }

  predicate NoDuplicates(s: seq<string>) {
    forall i, j :: 0 <= i < j < |s| ==> s[i] != s[j]
  }

  lemma {:induction false} DedupFromAppend(a: seq<string>, b: seq<string>, seen: set<string>)
    ensures DedupFrom(a + b, seen) == DedupFrom(a, seen) + DedupFrom(b, seen + set x | x in a)
    decreases |a|
  {
    if a == [] {
      assert a + b == b;
      assert seen + (set x | x in a) == seen;
    } else {
      assert (a + b)[1..] == a[1..] + b;
      if a[0] in seen {
        DedupFromAppend(a[1..], b, seen);
        assert seen + (set x | x in a[1..]) == seen + (set x | x in a);
      } else {
        DedupFromAppend(a[1..], b, seen + {a[0]});
        assert seen + {a[0]} + (set x | x in a[1..]) == seen + (set x | x in a);
      }
    }
  }

  /** The comprehension with its `seen` set keeps exactly the first occurrence
      of every word, in order. */
  lemma {:induction false} DedupIsKeepFirst(s: seq<string>)
    ensures Dedup(s) == KeepFirst(s)
    decreases |s|
  {
    if s != [] {
      var init, last := s[..|s| - 1], s[|s| - 1];
      assert s == init + [last];
      DedupFromAppend(init, [last], {});
      DedupIsKeepFirst(init);
      assert {} + (set x | x in init) == set x | x in init;
    }
  }

  lemma {:induction false} DedupFromProperties(s: seq<string>, seen: set<string>)
    ensures var r := DedupFrom(s, seen);
      && NoDuplicates(r)
      && (forall x :: x in r <==> x in s && x !in seen)
    decreases |s|
  {
    if s != [] {
      if s[0] in seen {
        DedupFromProperties(s[1..], seen);
      } else {
        DedupFromProperties(s[1..], seen + {s[0]});
      }
      assert forall x :: x in s <==> x == s[0] || x in s[1..];
    }
  }

  /** The de-duplicated list has no repeats and the same words as the input. */
  lemma DedupProperties(s: seq<string>)
    ensures NoDuplicates(Dedup(s))
    ensures forall x :: x in Dedup(s) <==> x in s
  {
    DedupFromProperties(s, {});
  }

  /** The title words for `language` (`None` stands for a falsy language). */
  function HeaderWords(language: Option<string>): (words: seq<string>)
    ensures NoDuplicates(words)
    ensures forall w :: w in words <==> w in GermanWords || w in EnglishWords
  {
    var lang := if language.Some? then Lower(language.value) else "";
    var all := LanguageWords(lang) + GermanWords + EnglishWords;
    DedupProperties(all);
    Dedup(all)
  }

  /** The eight built-in words are pairwise different. */
  lemma WordsDistinct()
    ensures NoDuplicates(GermanWords + EnglishWords)
    ensures NoDuplicates(EnglishWords + GermanWords)
  {
    var s := GermanWords + EnglishWords;
    assert forall i :: 0 <= i < 4 ==> s[i][0] == 'Q';
    assert forall i :: 4 <= i < 8 ==> s[i][0] != 'Q';
    assert |s[0]| == 6 && |s[1]| == 7 && |s[2]| == 18 && |s[3]| == 20;
    assert |s[4]| == 6 && |s[5]| == 7 && |s[6]| == 10 && |s[7]| == 20;
    var t := EnglishWords + GermanWords;
    assert forall i :: 0 <= i < 4 ==> t[i] == s[i + 4] && t[i + 4] == s[i];
  }

  lemma {:induction false} DedupFromAllSeen(s: seq<string>, seen: set<string>)
    requires forall x :: x in s ==> x in seen
    ensures DedupFrom(s, seen) == []
    decreases |s|
  {
    if s != [] {
      DedupFromAllSeen(s[1..], seen);
    }
  }

  lemma {:induction false} DedupOfDistinct(s: seq<string>, seen: set<string>)
    requires NoDuplicates(s)
    requires forall x :: x in s ==> x !in seen
    ensures DedupFrom(s, seen) == s
    decreases |s|
  {
    if s != [] {
      assert forall x :: x in s[1..] ==> x != s[0];
      DedupOfDistinct(s[1..], seen + {s[0]});
    }
  }

  /** Distinct words followed by words already among them: the first list alone. */
  lemma DedupOfRepeat(first: seq<string>, again: seq<string>)
    requires NoDuplicates(first)
    requires forall x :: x in again ==> x in first
    ensures Dedup(first + again) == first
  {
    DedupFromAppend(first, again, {});
    DedupOfDistinct(first, {});
    DedupFromAllSeen(again, {} + set x | x in first);
  }

  lemma EnglishList()
    ensures Dedup(EnglishWords + GermanWords + EnglishWords) == EnglishWords + GermanWords
  {
    WordsDistinct();
    assert EnglishWords + GermanWords + EnglishWords == (EnglishWords + GermanWords) + EnglishWords;
    DedupOfRepeat(EnglishWords + GermanWords, EnglishWords);
  }

  lemma DistinctParts(a: seq<string>, b: seq<string>)
    requires NoDuplicates(a + b)
    ensures NoDuplicates(a) && NoDuplicates(b)
    ensures forall x :: x in b ==> x !in a
  {
    assert forall i :: 0 <= i < |a| ==> a[i] == (a + b)[i];
    assert forall j :: 0 <= j < |b| ==> b[j] == (a + b)[|a| + j];
  }

  /** Distinct words `a + b` after a first copy of `a`: `a + b` again. */
  lemma DedupOfRepeatedPrefix(a: seq<string>, b: seq<string>)
    requires NoDuplicates(a + b)
    ensures Dedup(a + (a + b)) == a + b
  {
    DistinctParts(a, b);
    var seen := {} + set x | x in a;
    DedupFromAppend(a, a + b, {});
    DedupOfDistinct(a, {});
    assert Dedup(a + (a + b)) == a + DedupFrom(a + b, seen);
    DedupFromAppend(a, b, seen);
    DedupFromAllSeen(a, seen);
    assert seen + (set x | x in a) == seen;
    DedupOfDistinct(b, seen);
    assert DedupFrom(a + b, seen) == b;
  }

  lemma GermanList()
    ensures Dedup(GermanWords + GermanWords + EnglishWords) == GermanWords + EnglishWords
  {
    WordsDistinct();
    assert GermanWords + GermanWords + EnglishWords == GermanWords + (GermanWords + EnglishWords);
    DedupOfRepeatedPrefix(GermanWords, EnglishWords);
  }

  lemma OtherList()
    ensures Dedup([] + GermanWords + EnglishWords) == GermanWords + EnglishWords
  {
    WordsDistinct();
    assert [] + GermanWords + EnglishWords == GermanWords + EnglishWords;
    DedupOfDistinct(GermanWords + EnglishWords, {});
  }

  /** The requested language's words come first: for English, English then
      German; for German, no language or any other language, German then English. */
  lemma RequestedLanguageFirst(language: Option<string>)
    ensures language.Some? && Lower(language.value) == "en" ==> HeaderWords(language) == EnglishWords + GermanWords
    ensures language.None? || Lower(language.value) != "en" ==> HeaderWords(language) == GermanWords + EnglishWords
  {
    var lang := if language.Some? then Lower(language.value) else "";
    if lang == "en" {
      EnglishList();
    } else if lang == "de" {
      GermanList();
    } else {
      OtherList();
    }
  }

  // ---------------------------------------------------------------------------
  // Recognising a heading

  /** The text of a heading number, `\d+(?:\.\d+)*\.?`, such as `1`, `1.2` or `1.2.`. */
  predicate IsHeadingNumber(t: string) {
    |t| >= 1 && IsDigit(t[0]) && AfterDigit(t[1..])
  }

  /** What may follow a digit inside a heading number. */
  predicate AfterDigit(t: string)
    decreases |t|
  {
    || t == [] || t == "."
    || (IsDigit(t[0]) && AfterDigit(t[1..]))
    || (|t| >= 2 && t[0] == '.' && IsDigit(t[1]) && AfterDigit(t[2..]))
  }

  /** The greedy end of a heading number whose previous character is a digit. */
  function AfterDigitEnd(s: string, j: nat): (r: nat)
    requires j <= |s|
    ensures j <= r <= |s|
    decreases |s| - j
  {
    if j < |s| && IsDigit(s[j]) then AfterDigitEnd(s, j + 1)
    else if j + 1 < |s| && s[j] == '.' && IsDigit(s[j + 1]) then AfterDigitEnd(s, j + 2)
    else if j < |s| && s[j] == '.' then j + 1
    else j
  }

  /** `(?:\d+(?:\.\d+)*\.?)?` taken greedily from `i`. */
  function NumberingEnd(s: string, i: nat): (j: nat)
    requires i <= |s|
    ensures i <= j <= |s|
    ensures j == i || IsHeadingNumber(s[i..j])
  {
    if i < |s| && IsDigit(s[i]) then
      AfterDigitEndShape(s, i + 1);
      AfterDigitEnd(s, i + 1)
    else i
  }

  lemma {:induction false} AfterDigitEndShape(s: string, j: nat)
    requires j <= |s|
    ensures AfterDigit(s[j..AfterDigitEnd(s, j)])
    decreases |s| - j
  {
    var r := AfterDigitEnd(s, j);
    if j < |s| && IsDigit(s[j]) {
      AfterDigitEndShape(s, j + 1);
      assert s[j..r][1..] == s[j + 1..r];
    } else if j + 1 < |s| && s[j] == '.' && IsDigit(s[j + 1]) {
      AfterDigitEndShape(s, j + 2);
      assert s[j..r][2..] == s[j + 2..r];
    } else if j < |s| && s[j] == '.' {
      assert s[j..r] == ".";
    }
  }

  /** A heading number followed by something that cannot extend it is taken whole. */
  lemma {:induction false} AfterDigitEndOf(s: string, j: nat, b: nat)
    requires j <= b <= |s| && AfterDigit(s[j..b])
    requires b == |s| || (!IsDigit(s[b]) && s[b] != '.')
    ensures AfterDigitEnd(s, j) == b
    decreases b - j
  {
    var t := s[j..b];
    if t == [] {
    } else if t == "." {
      assert s[j] == '.';
    } else if IsDigit(t[0]) {
      assert t[1..] == s[j + 1..b];
      AfterDigitEndOf(s, j + 1, b);
    } else {
      assert t[2..] == s[j + 2..b];
      AfterDigitEndOf(s, j + 2, b);
    }
  }

  /** `text` starts with `w`, ignoring case. */
  predicate HasPrefixIgnoringCase(text: string, w: string) {
    |w| <= |text| && Lower(text[..|w|]) == Lower(w)
  }

  predicate StartsWithWord(text: string, words: seq<string>) {
    exists w :: w in words && HasPrefixIgnoringCase(text, w)
  }

  /** Where the title word must begin: after the `#` run, blanks, the number and blanks. */
  function WordStart(line: string): (c: nat)
    ensures c <= |line|
  {
    var k := RunOf(line, '#');
    SkipSpace(line, NumberingEnd(line, SkipSpace(line, k)))
  }

  /** `header_pattern.match(line)`: the level of the sources heading on this
      line (the length of its `#` group), or `None`. */
  function HeaderLevel(line: string, language: Option<string>, maxLevel: nat): (level: Option<nat>)
    requires maxLevel >= 1
    ensures level.Some? ==> 1 <= level.value <= maxLevel && level.value == RunOf(line, '#')
  {
    var k := RunOf(line, '#');
    if 1 <= k <= maxLevel && StartsWithWord(line[WordStart(line)..], HeaderWords(language)) then Some(k)
    else None
  }

  /** A sources heading spelled out: `k` hashes, blanks up to `a`, an optional
      heading number up to `b`, blanks up to `c`, then a title word. */
  ghost predicate HeadingShape(line: string, words: seq<string>, maxLevel: nat, k: nat, a: nat, b: nat, c: nat) {
    && 1 <= k <= maxLevel && k <= a <= b <= c <= |line|
    && (forall i :: 0 <= i < k ==> line[i] == '#')
    && (forall i :: k <= i < a ==> IsSpace(line[i]))
    && (a == b || IsHeadingNumber(line[a..b]))
    && (forall i :: b <= i < c ==> IsSpace(line[i]))
    && StartsWithWord(line[c..], words)
  }

  lemma WordsStartWithLetters(language: Option<string>)
    ensures forall w :: w in HeaderWords(language) ==> |w| >= 1 && IsAsciiLetter(w[0])
  {
    forall w | w in HeaderWords(language)
      ensures |w| >= 1 && IsAsciiLetter(w[0])
    {
      assert w in GermanWords || w in EnglishWords;
      if w in GermanWords {
        assert w[0] == 'Q' by {
          assert w == GermanWords[0] || w == GermanWords[1] || w == GermanWords[2] || w == GermanWords[3];
        }
      } else {
        assert w == EnglishWords[0] || w == EnglishWords[1] || w == EnglishWords[2] || w == EnglishWords[3];
      }
    }
  }

  /** Text that starts with a title word starts with a letter. */
  lemma WordStartsWithLetter(text: string, language: Option<string>)
    requires StartsWithWord(text, HeaderWords(language))
    ensures |text| >= 1 && IsAsciiLetter(text[0])
  {
    var w :| w in HeaderWords(language) && HasPrefixIgnoringCase(text, w);
    WordsStartWithLetters(language);
    var p := text[..|w|];
    LowerHead(p);
    LowerHead(w);
    LowerCharLetter(p[0], w[0]);
  }

  lemma HeaderLevelHasShape(line: string, language: Option<string>, maxLevel: nat, k: nat)
    requires maxLevel >= 1 && HeaderLevel(line, language, maxLevel) == Some(k)
    ensures exists a, b, c :: HeadingShape(line, HeaderWords(language), maxLevel, k, a, b, c)
  {
    var a := SkipSpace(line, k);
    var b := NumberingEnd(line, a);
    var c := SkipSpace(line, b);
    assert HeadingShape(line, HeaderWords(language), maxLevel, k, a, b, c);
  }

  lemma NumberTakenWhole(line: string, a: nat, b: nat, c: nat)
    requires a < b <= c < |line|
    requires IsHeadingNumber(line[a..b])
    requires forall i :: b <= i < c ==> IsSpace(line[i])
    requires IsAsciiLetter(line[c])
    ensures NumberingEnd(line, a) == b
  {
    assert line[a..b][1..] == line[a + 1..b];
    AfterDigitEndOf(line, a + 1, b);
  }

  lemma BlanksThenLetter(line: string, k: nat, c: nat)
    requires k <= c < |line|
    requires forall i :: k <= i < c ==> IsSpace(line[i])
    requires IsAsciiLetter(line[c])
    ensures SkipSpace(line, k) == c && NumberingEnd(line, c) == c && SkipSpace(line, c) == c
  {
  }

  /** Blanks, an optional heading number and blanks after the hashes, then a
      letter: the greedy scan stops exactly at that letter. */
  lemma WordStartAtLetter(line: string, k: nat, a: nat, b: nat, c: nat)
    requires 1 <= k <= a <= b <= c < |line|
    requires forall i :: 0 <= i < k ==> line[i] == '#'
    requires forall i :: k <= i < a ==> IsSpace(line[i])
    requires a == b || IsHeadingNumber(line[a..b])
    requires forall i :: b <= i < c ==> IsSpace(line[i])
    requires IsAsciiLetter(line[c])
    ensures RunOf(line, '#') == k && WordStart(line) == c
  {
    assert line[k] != '#';
    RunOfExact(line, '#', k);
    if a < b {
      assert IsDigit(line[a]);
      assert SkipSpace(line, k) == a;
      NumberTakenWhole(line, a, b, c);
      BlanksThenLetter(line, b, c);
    } else {
      BlanksThenLetter(line, k, c);
    }
  }

  lemma ShapeHasHeaderLevel(line: string, language: Option<string>, maxLevel: nat, k: nat, a: nat, b: nat, c: nat)
    requires maxLevel >= 1 && HeadingShape(line, HeaderWords(language), maxLevel, k, a, b, c)
    ensures HeaderLevel(line, language, maxLevel) == Some(k)
  {
    WordStartsWithLetter(line[c..], language);
    WordStartAtLetter(line, k, a, b, c);
  }

  /** A line opens a sources section at level `k` iff it has the shape of a
      sources heading with `k` hashes. */
  lemma HeaderLevelIsHeadingShape(line: string, language: Option<string>, maxLevel: nat, k: nat)
    requires maxLevel >= 1
    ensures HeaderLevel(line, language, maxLevel) == Some(k)
        <==> exists a, b, c :: HeadingShape(line, HeaderWords(language), maxLevel, k, a, b, c)
  {
    if HeaderLevel(line, language, maxLevel) == Some(k) {
      HeaderLevelHasShape(line, language, maxLevel, k);
    }
    if exists a, b, c :: HeadingShape(line, HeaderWords(language), maxLevel, k, a, b, c) {
      var a, b, c :| HeadingShape(line, HeaderWords(language), maxLevel, k, a, b, c);
      ShapeHasHeaderLevel(line, language, maxLevel, k, a, b, c);
    }
  }

  /** Which language is asked for does not change which lines are headings:
      every list holds the same German and English words. */
  lemma HeaderLevelLanguageIndependent(line: string, l1: Option<string>, l2: Option<string>, maxLevel: nat)
    requires maxLevel >= 1
    ensures HeaderLevel(line, l1, maxLevel) == HeaderLevel(line, l2, maxLevel)
  {
    var t := line[WordStart(line)..];
    if StartsWithWord(t, HeaderWords(l1)) {
      var w :| w in HeaderWords(l1) && HasPrefixIgnoringCase(t, w);
      assert w in HeaderWords(l2);
    }
    if StartsWithWord(t, HeaderWords(l2)) {
      var w :| w in HeaderWords(l2) && HasPrefixIgnoringCase(t, w);
      assert w in HeaderWords(l1);
    }
  }

  /** A line made of hashes, blanks, an optional number, blanks and one of
      the built-in words is a heading in every language. */
  lemma ShapeFromWord(line: string, language: Option<string>, maxLevel: nat, k: nat, a: nat, b: nat, c: nat, w: string)
    requires 1 <= k <= maxLevel && k <= a <= b <= c <= |line|
    requires forall i :: 0 <= i < k ==> line[i] == '#'
    requires forall i :: k <= i < a ==> IsSpace(line[i])
    requires a == b || IsHeadingNumber(line[a..b])
    requires forall i :: b <= i < c ==> IsSpace(line[i])
    requires (w in GermanWords || w in EnglishWords) && HasPrefixIgnoringCase(line[c..], w)
    ensures HeaderLevel(line, language, maxLevel) == Some(k)
  {
    assert w in HeaderWords(language);
    ShapeHasHeaderLevel(line, language, maxLevel, k, a, b, c);
  }

  lemma QuellenHeading(line: string)
    requires line == "## Quellen"
    ensures HeaderLevel(line, Some("de"), 6) == Some(2)
  {
    assert line[3..][..7] == GermanWords[1];
    ShapeFromWord(line, Some("de"), 6, 2, 3, 3, 3, GermanWords[1]);
  }

  lemma SourcesHeading(line: string)
    requires line == "## Sources"
    ensures HeaderLevel(line, Some("de"), 6) == Some(2)
  {
    assert line[3..][..7] == EnglishWords[1];
    ShapeFromWord(line, Some("de"), 6, 2, 3, 3, 3, EnglishWords[1]);
  }

  lemma NumberedHeading(line: string)
    requires line == "### 1.2. references"
    ensures HeaderLevel(line, None, 6) == Some(3)
  {
    NumberedParts(line);
    LowerCaseReferences(line[9..]);
    NumberOfHeading(line[4..8]);
    assert "References" in EnglishWords;
    ShapeFromWord(line, None, 6, 3, 4, 8, 9, "References");
  }

  lemma NumberedParts(line: string)
    requires line == "### 1.2. references"
    ensures |line| == 19 && line[9..] == "references" && line[4..8] == "1.2."
    ensures forall i :: 0 <= i < 3 ==> line[i] == '#'
    ensures forall i :: 3 <= i < 4 ==> IsSpace(line[i])
    ensures forall i :: 8 <= i < 9 ==> IsSpace(line[i])
  {
  }

  lemma LowerCaseReferences(t: string)
    requires t == "references"
    ensures HasPrefixIgnoringCase(t, "References")
  {
    assert t[..10] == ['r'] + "eferences";
    assert "References" == ['R'] + "eferences";
    LowerCons('r', "eferences");
    LowerCons('R', "eferences");
  }

  lemma NumberOfHeading(t: string)
    requires t == "1.2."
    ensures IsHeadingNumber(t)
  {
    assert AfterDigit(".2.") by {
      assert ".2."[2..] == ".";
    }
    assert t[1..] == ".2.";
  }

  lemma TooDeepHeading(line: string)
    requires line == "####### Quellen"
    ensures HeaderLevel(line, Some("de"), 6) == None
  {
    RunOfExact(line, '#', 7);
  }

  /** `"## Quellen"` and `"## Sources"` both open a section at level 2; a
      numbered, lower-case title is found as well; seven hashes are too many. */
  lemma HeadingExamples()
    ensures HeaderLevel("## Quellen", Some("de"), 6) == Some(2)
    ensures HeaderLevel("## Sources", Some("de"), 6) == Some(2)
    ensures HeaderLevel("### 1.2. references", None, 6) == Some(3)
    ensures HeaderLevel("####### Quellen", Some("de"), 6) == None
  {
    QuellenHeading("## Quellen");
    SourcesHeading("## Sources");
    NumberedHeading("### 1.2. references");
    TooDeepHeading("####### Quellen");
  }
}
