/** The multi-line list-item pattern of `source_extract.py`
    (`get_extract_multiline_list_items_pattern`, `extract_multiline_list_items`):

      ^\s*(?:\d+[.)-]|[a-zA-Z][.)-]|[*\-+])\s+.*(?:\n(?!\s*(?:same marker)\s).*)*

    matched with MULTILINE, so `^` holds at the start and after every newline.
    `\s` also matches newlines, so the leading blanks and the blanks after the
    marker may run over line ends; the recogniser below keeps that. Every part
    of the pattern is greedy and whatever follows it always succeeds, so the
    match is the greedy one and no backtracking has to be modelled. */
module ListItems {
  import opened Text
  import opened Wrappers

  /** `.`, `)` or `-` after a numbered or lettered marker. */
  predicate IsMarkerDelimiter(c: char) { c == '.' || c == ')' || c == '-' }

  predicate IsBullet(c: char) { c == '*' || c == '-' || c == '+' }

  /** `\d+[.)-]|[a-zA-Z][.)-]|[*\-+]` at `i`: the position after the marker. */
  function MarkerEnd(s: string, i: nat): (r: Option<nat>)
    requires i <= |s|
    ensures r.Some? ==> i < r.value <= |s|
  {
    if i == |s| then None
    else if IsDigit(s[i]) then
      var d := SkipDigits(s, i);
      if d < |s| && IsMarkerDelimiter(s[d]) then Some(d + 1) else None
    else if IsAsciiLetter(s[i]) then
      if i + 1 < |s| && IsMarkerDelimiter(s[i + 1]) then Some(i + 2) else None
    else if IsBullet(s[i]) then Some(i + 1)
    else None
  }

  /** `\s*(?:marker)\s` at `i`: a list item starts here (this is also the
      negative lookahead that ends an item). */
  predicate StartsItemAt(s: string, i: nat)
    requires i <= |s|
  {
    var m := MarkerEnd(s, SkipSpace(s, i));
    m.Some? && m.value < |s| && IsSpace(s[m.value])
  }

  /** The end of the first line of the item starting at `p`: leading blanks,
      marker, the blanks after it (`\s+`) and the rest of that line (`.*`). */
  function HeadEnd(s: string, p: nat): (h: nat)
    requires p <= |s| && StartsItemAt(s, p)
    ensures p < h <= |s|
    ensures h == |s| || s[h] == '\n'
  {
    var m := MarkerEnd(s, SkipSpace(s, p)).value;
    LineEnd(s, SkipSpace(s, m))
  }

  /** `(?:\n(?!\s*marker\s).*)*` after a line that ends at `e`: the item goes
      on over every following line that does not start an item. */
  function ContinuationEnd(s: string, e: nat): (r: nat)
    requires e <= |s|
    requires e == |s| || s[e] == '\n'
    ensures e <= r <= |s|
    decreases |s| - e
  {
    if e < |s| && !StartsItemAt(s, e + 1) then ContinuationEnd(s, LineEnd(s, e + 1))
    else e
  }

  /** The continuation stops at the end of the text or at a newline whose
      next line starts an item. */
  lemma {:induction false} ContinuationStops(s: string, e: nat)
    requires e <= |s|
    requires e == |s| || s[e] == '\n'
    ensures StopsItem(s, ContinuationEnd(s, e))
    decreases |s| - e
  {
    if e < |s| && !StartsItemAt(s, e + 1) {
      var next := LineEnd(s, e + 1);
      assert ContinuationEnd(s, e) == ContinuationEnd(s, next);
      ContinuationStops(s, next);
    } else {
      assert ContinuationEnd(s, e) == e;
    }
  }

  /** Where an item may stop: the end of the text, or a newline whose next
      line starts an item. */
  predicate StopsItem(s: string, r: nat)
    requires r <= |s|
  {
    r == |s| || (s[r] == '\n' && StartsItemAt(s, r + 1))
  }

  /** No newline in `[e, ContinuationEnd(s, e))` is followed by the start of an item. */
  lemma {:induction false} ContinuationHasNoItemStart(s: string, e: nat, k: nat)
    requires e <= |s| && (e == |s| || s[e] == '\n')
    requires e <= k < ContinuationEnd(s, e) && s[k] == '\n'
    ensures !StartsItemAt(s, k + 1)
    decreases |s| - e
  {
    if k > e {
      var next := LineEnd(s, e + 1);
      assert k >= next;
      ContinuationHasNoItemStart(s, next, k);
    }
  }

  /** The end of the item that starts at `p`. */
  function ItemEnd(s: string, p: nat): (e: nat)
    requires p <= |s| && StartsItemAt(s, p)
    ensures p < HeadEnd(s, p) <= e <= |s|
  {
    ContinuationEnd(s, HeadEnd(s, p))
  }

  /** Where `^` matches under MULTILINE. */
  predicate IsLineStart(s: string, p: nat) {
    p == 0 || (0 < p <= |s| && s[p - 1] == '\n')
  }

  /** `findall` from `from`: the spans of the items, as (start, end) pairs. */
  function SpansFrom(s: string, from: nat): seq<(nat, nat)>
    requires from <= |s|
    decreases |s| - from
  {
    if from == |s| then []
    else if IsLineStart(s, from) && StartsItemAt(s, from) then
      var e := ItemEnd(s, from);
      [(from, e)] + SpansFrom(s, e)
    else SpansFrom(s, from + 1)
  }

  function Spans(s: string): seq<(nat, nat)> { SpansFrom(s, 0) }

  /** `extract_multiline_list_items(text)`. */
  function ExtractMultilineListItems(text: string): (items: seq<string>)
    ensures |items| == |Spans(text)|
  {
    var sp := Spans(text);
    seq(|sp|, i requires 0 <= i < |sp| =>
      SpanWithin(text, 0, sp, i);
      text[sp[i].0..sp[i].1])
  }

  /** Every span lies in `[from, |s|]`, starts before it ends, and the spans
      follow each other without overlapping. */
  ghost predicate WellOrdered(s: string, from: nat, sp: seq<(nat, nat)>) {
    && (forall i :: 0 <= i < |sp| ==> from <= sp[i].0 < sp[i].1 <= |s|)
    && (forall i :: 0 <= i < |sp| - 1 ==> sp[i].1 <= sp[i + 1].0)
  }

  lemma {:induction false} SpansWellOrdered(s: string, from: nat)
    requires from <= |s|
    ensures WellOrdered(s, from, SpansFrom(s, from))
    decreases |s| - from
  {
    if from < |s| {
      if IsLineStart(s, from) && StartsItemAt(s, from) {
        var e := ItemEnd(s, from);
        SpansWellOrdered(s, e);
        WellOrderedCons(s, from, e, SpansFrom(s, e));
      } else {
        SpansWellOrdered(s, from + 1);
        WellOrderedFromEarlier(s, from, SpansFrom(s, from + 1));
      }
    }
  }

  lemma WellOrderedCons(s: string, from: nat, e: nat, rest: seq<(nat, nat)>)
    requires from < e <= |s| && WellOrdered(s, e, rest)
    ensures WellOrdered(s, from, [(from, e)] + rest)
  {
    var sp := [(from, e)] + rest;
    assert forall i :: 0 < i < |sp| ==> sp[i] == rest[i - 1];
  }

  lemma WellOrderedFromEarlier(s: string, from: nat, sp: seq<(nat, nat)>)
    requires WellOrdered(s, from + 1, sp)
    ensures WellOrdered(s, from, sp)
  {
  }

  lemma SpanWithin(s: string, from: nat, sp: seq<(nat, nat)>, i: nat)
    requires from <= |s| && sp == SpansFrom(s, from) && i < |sp|
    ensures sp[i].0 < sp[i].1 <= |s|
  {
    SpansWellOrdered(s, from);
  }

  /** Each span starts where `^` holds and an item starts, and ends where the
      pattern stops: at the end of the text or at a newline that is followed
      by the start of another item. */
  lemma {:induction false} SpansAreItems(s: string, from: nat)
    requires from <= |s|
    ensures forall i :: 0 <= i < |SpansFrom(s, from)| ==>
      var (a, e) := SpansFrom(s, from)[i];
      a < |s| && IsLineStart(s, a) && StartsItemAt(s, a) && e == ItemEnd(s, a)
    decreases |s| - from
  {
    if from < |s| {
      if IsLineStart(s, from) && StartsItemAt(s, from) {
        SpansAreItems(s, ItemEnd(s, from));
      } else {
        SpansAreItems(s, from + 1);
      }
    }
  }

  /** Some span in `sp` holds position `p`. */
  ghost predicate Covered(sp: seq<(nat, nat)>, p: nat) {
    exists i :: 0 <= i < |sp| && sp[i].0 <= p < sp[i].1
  }

  lemma CoveredCons(x: (nat, nat), sp: seq<(nat, nat)>, p: nat)
    requires Covered(sp, p) || x.0 <= p < x.1
    ensures Covered([x] + sp, p)
  {
    if x.0 <= p < x.1 {
      assert ([x] + sp)[0] == x;
    } else {
      var i :| 0 <= i < |sp| && sp[i].0 <= p < sp[i].1;
      assert ([x] + sp)[i + 1] == sp[i];
    }
  }

  /** Nothing is skipped: every position where `^` holds and an item starts
      lies inside one of the spans. */
  lemma {:induction false} SpansCoverEveryItemStart(s: string, from: nat, p: nat)
    requires from <= p < |s|
    requires IsLineStart(s, p) && StartsItemAt(s, p)
    ensures Covered(SpansFrom(s, from), p)
    decreases |s| - from, 1
  {
    if IsLineStart(s, from) && StartsItemAt(s, from) {
      ItemThenRest(s, from, p);
    } else {
      SpansCoverEveryItemStart(s, from + 1, p);
      SkipCovers(s, from, p);
    }
  }

  /** The item at `from` covers `p`, or `p` lies past it and the spans
      after it do. */
  lemma {:induction false} ItemThenRest(s: string, from: nat, p: nat)
    requires from <= p < |s|
    requires IsLineStart(s, p) && StartsItemAt(s, p)
    requires IsLineStart(s, from) && StartsItemAt(s, from)
    ensures Covered(SpansFrom(s, from), p)
    decreases |s| - from, 0
  {
    if p >= ItemEnd(s, from) {
      SpansCoverEveryItemStart(s, ItemEnd(s, from), p);
    }
    ItemCovers(s, from, p);
  }

  /** Covering carries over a position where no item starts. */
  lemma SkipCovers(s: string, from: nat, p: nat)
    requires from < |s| && !(IsLineStart(s, from) && StartsItemAt(s, from))
    requires Covered(SpansFrom(s, from + 1), p)
    ensures Covered(SpansFrom(s, from), p)
  {
    assert SpansFrom(s, from) == SpansFrom(s, from + 1);
  }

  /** An item starting at `from` covers `p`, or the spans after it do. */
  lemma ItemCovers(s: string, from: nat, p: nat)
    requires from < |s| && IsLineStart(s, from) && StartsItemAt(s, from)
    requires from <= p
    requires p < ItemEnd(s, from) || Covered(SpansFrom(s, ItemEnd(s, from)), p)
    ensures Covered(SpansFrom(s, from), p)
  {
    var e := ItemEnd(s, from);
    var rest := SpansFrom(s, e);
    assert SpansFrom(s, from) == [(from, e)] + rest;
    CoveredCons((from, e), rest, p);
  }

  /** The shape of one item: it ends at the end of the text or just before a
      newline that starts another item, and no newline after its first line
      is followed by the start of an item. */
  lemma ItemShape(s: string, p: nat)
    requires p <= |s| && StartsItemAt(s, p)
    ensures var e := ItemEnd(s, p);
      && (e == |s| || (s[e] == '\n' && StartsItemAt(s, e + 1)))
      && (forall k :: HeadEnd(s, p) <= k < e && s[k] == '\n' ==> !StartsItemAt(s, k + 1))
  {
    ContinuationStops(s, HeadEnd(s, p));
    forall k | HeadEnd(s, p) <= k < ItemEnd(s, p) && s[k] == '\n'
      ensures !StartsItemAt(s, k + 1)
    {
      ContinuationHasNoItemStart(s, HeadEnd(s, p), k);
    }
  }

  // ---------------------------------------------------------------------------
  // An item seen on its own: the marker and the blank after it are inside it.

  lemma SkipSpaceLocal(s: string, p: nat, e: nat, i: nat)
    requires p <= i <= e <= |s|
    ensures SkipSpace(s[p..e], i - p) == (if SkipSpace(s, i) < e then SkipSpace(s, i) else e) - p
    decreases e - i
  {
    if i < e && IsSpace(s[i]) {
      SkipSpaceLocal(s, p, e, i + 1);
    }
  }

  lemma SkipDigitsLocal(s: string, p: nat, e: nat, i: nat)
    requires p <= i <= e <= |s|
    ensures SkipDigits(s[p..e], i - p) == (if SkipDigits(s, i) < e then SkipDigits(s, i) else e) - p
    decreases e - i
  {
    if i < e && IsDigit(s[i]) {
      SkipDigitsLocal(s, p, e, i + 1);
    }
  }

  /** The marker at `j` reads the same inside the slice `s[p..e]` when it
      ends before `e`. */
  lemma MarkerEndLocal(s: string, p: nat, e: nat, j: nat)
    requires p <= j <= e <= |s|
    requires MarkerEnd(s, j).Some? && MarkerEnd(s, j).value < e
    ensures MarkerEnd(s[p..e], j - p) == Some(MarkerEnd(s, j).value - p)
  {
    if IsDigit(s[j]) {
      SkipDigitsLocal(s, p, e, j);
    }
  }

  /** Every item, taken as a string by itself, starts with optional blanks,
      a marker and a blank. */
  lemma ItemStartsWithMarker(s: string, p: nat)
    requires p <= |s| && StartsItemAt(s, p)
    ensures StartsItemAt(s[p..ItemEnd(s, p)], 0)
  {
    var m := MarkerEnd(s, SkipSpace(s, p)).value;
    assert m < HeadEnd(s, p) by {
      assert SkipSpace(s, m) > m;
    }
    StartsWithinSlice(s, p, ItemEnd(s, p));
  }

  /** An item start whose marker and following blank lie before `e` is also
      an item start of `s[p..e]`. */
  lemma StartsWithinSlice(s: string, p: nat, e: nat)
    requires p <= e <= |s| && StartsItemAt(s, p)
    requires MarkerEnd(s, SkipSpace(s, p)).value < e
    ensures StartsItemAt(s[p..e], 0)
  {
    var j := SkipSpace(s, p);
    var m := MarkerEnd(s, j).value;
    SkipSpaceLocal(s, p, e, p);
    MarkerEndLocal(s, p, e, j);
    assert s[p..e][m - p] == s[m];
  }

  /** `list_pattern.match(line)` on one line as `readlines()` returns it: the
      match takes the whole line, so the item's text is the line itself. */
  lemma ItemOfOneLine(line: string)
    requires IsReadLine(line) && StartsItemAt(line, 0)
    ensures ItemEnd(line, 0) == |line|
  {
    var h := HeadEnd(line, 0);
    if h < |line| {
      assert h == |line| - 1;
      assert !StartsItemAt(line, |line|) by {
        assert SkipSpace(line, |line|) == |line|;
      }
      assert LineEnd(line, |line|) == |line|;
    }
  }

  /** The items are the spans' text, in order. */
  lemma ItemsAreSpans(text: string)
    ensures forall i :: 0 <= i < |Spans(text)| ==>
      var (a, e) := Spans(text)[i];
      a < e <= |text| && ExtractMultilineListItems(text)[i] == text[a..e]
  {
    SpansWellOrdered(text, 0);
  }

  // ---------------------------------------------------------------------------
  // A worked example: "1. one\n  continued\n- bullet\n  second line\n"

  /** The characters of the example that the matcher looks at, line by line. */
  ghost predicate ExampleShape(s: string) {
    |s| == 42 && FirstLineShape(s) && SecondLineShape(s) && ThirdLineShape(s) && FourthLineShape(s)
  }

  ghost predicate FirstLineShape(s: string)
    requires |s| == 42
  {
    && s[0] == '1' && s[1] == '.' && s[2] == ' ' && s[3] == 'o'
    && (forall k :: 3 <= k < 6 ==> s[k] != '\n') && s[6] == '\n'
  }

  ghost predicate SecondLineShape(s: string)
    requires |s| == 42
  {
    s[7] == ' ' && s[8] == ' ' && s[9] == 'c' && s[10] == 'o' && (forall k :: 7 <= k < 18 ==> s[k] != '\n') && s[18] == '\n'
  }

  ghost predicate ThirdLineShape(s: string)
    requires |s| == 42
  {
    s[19] == '-' && s[20] == ' ' && s[21] == 'b' && (forall k :: 21 <= k < 27 ==> s[k] != '\n') && s[27] == '\n'
  }

  ghost predicate FourthLineShape(s: string)
    requires |s| == 42
  {
    s[28] == ' ' && s[29] == ' ' && s[30] == 's' && s[31] == 'e' && (forall k :: 28 <= k < 41 ==> s[k] != '\n') && s[41] == '\n'
  }

  lemma ExampleHasShape(s: string)
    requires s == "1. one\n  continued\n- bullet\n  second line\n"
    ensures ExampleShape(s)
  {
    FirstLineOfExample(s);
    SecondLineOfExample(s);
    ThirdLineOfExample(s);
    FourthLineOfExample(s);
  }

  lemma FirstLineOfExample(s: string)
    requires s == "1. one\n  continued\n- bullet\n  second line\n"
    ensures |s| == 42 && FirstLineShape(s)
  {
  }

  lemma SecondLineOfExample(s: string)
    requires s == "1. one\n  continued\n- bullet\n  second line\n"
    ensures |s| == 42 && SecondLineShape(s)
  {
  }

  lemma ThirdLineOfExample(s: string)
    requires s == "1. one\n  continued\n- bullet\n  second line\n"
    ensures |s| == 42 && ThirdLineShape(s)
  {
  }

  lemma FourthLineOfExample(s: string)
    requires s == "1. one\n  continued\n- bullet\n  second line\n"
    ensures |s| == 42 && FourthLineShape(s)
  {
  }

  lemma ExampleFirst(s: string)
    requires ExampleShape(s)
    ensures StartsItemAt(s, 0) && HeadEnd(s, 0) == 6
  {
    assert SkipDigits(s, 1) == 1;
    assert SkipSpace(s, 0) == 0 && SkipSpace(s, 2) == 3;
    assert LineEnd(s, 3) == 6 by {
      LineEndAt(s, 3, 6);
    }
  }

  lemma ExampleContinued(s: string)
    requires ExampleShape(s)
    ensures !StartsItemAt(s, 7) && LineEnd(s, 7) == 18
  {
    assert SkipSpace(s, 7) == 9;
    LineEndAt(s, 7, 18);
  }

  lemma ExampleSecond(s: string)
    requires ExampleShape(s)
    ensures StartsItemAt(s, 19) && HeadEnd(s, 19) == 27
  {
    assert SkipSpace(s, 19) == 19 && SkipSpace(s, 20) == 21;
    LineEndAt(s, 21, 27);
  }

  lemma ExampleSecondLine(s: string)
    requires ExampleShape(s)
    ensures !StartsItemAt(s, 28) && LineEnd(s, 28) == 41 && !StartsItemAt(s, 42)
  {
    assert SkipSpace(s, 28) == 30;
    LineEndAt(s, 28, 41);
    assert SkipSpace(s, 42) == 42;
  }

  lemma ExampleSpan1(s: string)
    requires ExampleShape(s)
    ensures SpansFrom(s, 0) == [(0, 18)] + SpansFrom(s, 19)
  {
    ExampleFirst(s);
    ExampleContinued(s);
    ExampleSecond(s);
    assert ContinuationEnd(s, 18) == 18;
    assert ContinuationEnd(s, 6) == 18;
    assert SpansFrom(s, 18) == SpansFrom(s, 19);
  }

  lemma ExampleSpan2(s: string)
    requires ExampleShape(s)
    ensures SpansFrom(s, 19) == [(19, 42)]
  {
    ExampleSecond(s);
    ExampleSecondLine(s);
    assert ContinuationEnd(s, 41) == 42 by {
      assert LineEnd(s, 42) == 42;
      assert ContinuationEnd(s, 42) == 42;
    }
    assert ItemEnd(s, 19) == 42;
    assert SpansFrom(s, 42) == [];
    assert IsLineStart(s, 19);
  }

  lemma ExampleFirstSlice(s: string)
    requires s == "1. one\n  continued\n- bullet\n  second line\n"
    ensures s[0..18] == "1. one\n  continued"
  {
  }

  lemma ExampleSecondSlice(s: string)
    requires s == "1. one\n  continued\n- bullet\n  second line\n"
    ensures s[19..42] == "- bullet\n  second line\n"
  {
    assert forall k :: 0 <= k < 23 ==> s[19..42][k] == s[19 + k];
  }

  /** A numbered item and a bullet item, each with a continuation line; the
      last item keeps the final newline. */
  lemma ExampleItems(s: string)
    requires s == "1. one\n  continued\n- bullet\n  second line\n"
    ensures ExtractMultilineListItems(s) == ["1. one\n  continued", "- bullet\n  second line\n"]
  {
    ExampleHasShape(s);
    ExampleSpans(s);
    ItemsOfTwoSpans(s, 0, 18, 19, 42);
    ExampleFirstSlice(s);
    ExampleSecondSlice(s);
  }

  lemma ExampleSpans(s: string)
    requires ExampleShape(s)
    ensures Spans(s) == [(0, 18), (19, 42)]
  {
    ExampleSpan1(s);
    ExampleSpan2(s);
  }

  lemma ItemsOfTwoSpans(s: string, a: nat, b: nat, c: nat, d: nat)
    requires Spans(s) == [(a, b), (c, d)]
    ensures a <= b <= |s| && c <= d <= |s| && ExtractMultilineListItems(s) == [s[a..b], s[c..d]]
  {
    ItemsAreSpans(s);
    assert Spans(s)[0] == (a, b) && Spans(s)[1] == (c, d);
  }
}
