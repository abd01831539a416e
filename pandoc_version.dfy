/** `get_pandoc_version` of `utils.py`: the version numbers read from the
    first line of `pandoc --version`. Running pandoc is left to the caller,
    which passes the captured standard output and the exit code. */
module PandocVersion {
  import opened Wrappers
  import opened Text

  /** `pandoc\s+[0-9]` matches at `i`. The blanks are taken greedily; a digit
      is never a blank, so no shorter run of blanks can match instead. */
  predicate MatchAt(s: string, i: nat) {
    OccursAt(s, "pandoc", i)
    && var j := SkipSpace(s, i + 6); j > i + 6 && j < |s| && IsDigit(s[j])
  }

  /** `re.search`: the leftmost match at or after `i`. */
  function FirstMatch(s: string, i: nat): (r: Option<nat>)
    requires i <= |s|
    ensures r.Some? ==> i <= r.value < |s| && MatchAt(s, r.value)
    ensures r.Some? ==> forall m :: i <= m < r.value ==> !MatchAt(s, m)
    ensures r.None? ==> forall m :: i <= m <= |s| ==> !MatchAt(s, m)
    decreases |s| - i
  {
    if i == |s| then None
    else if MatchAt(s, i) then Some(i)
    else FirstMatch(s, i + 1)
  }

  /** `[0-9]+(?:\.[0-9]+)*` from `j`, split at the dots and converted with
      `int`. The repetition is greedy and stops at a dot without a digit
      after it. */
  function Components(s: string, j: nat): (r: seq<nat>)
    requires j < |s| && IsDigit(s[j])
    ensures r != []
    decreases |s| - j
  {
    var d := SkipDigits(s, j);
    DigitsBetween(s, j, d);
    var v := DigitsValue(s[j..d]);
    if d + 1 < |s| && s[d] == '.' && IsDigit(s[d + 1]) then [v] + Components(s, d + 1) else [v]
  }

  /** `(0,)` where pandoc fails, prints nothing, or the first line holds no
      version; otherwise the numbers of the first version on the first line. */
  function PandocVersionOf(out: string, code: int): (v: seq<nat>)
    ensures v != []
  {
    if code != 0 || out == [] then [0]
    else
      var first := SplitLines(out)[0];
      match FirstMatch(first, 0)
      case None => [0]
      case Some(i) => Components(first, SkipSpace(first, i + 6))
  }

  // ---------------------------------------------------------------------------
  // Properties

  /** The version written out with dots: `".".join(map(str, v))`. */
  function Dotted(v: seq<nat>): (s: string)
    requires v != []
    ensures s != []
  {
    var head := NatToString(v[0]);
    if |v| == 1 then head else head + "." + Dotted(v[1..])
  }

  /** The dotted form holds digits and dots only, and starts with a digit. */
  lemma {:induction false} DottedChars(v: seq<nat>)
    requires v != []
    ensures IsDigit(Dotted(v)[0])
    ensures forall k :: 0 <= k < |Dotted(v)| ==> IsDigit(Dotted(v)[k]) || Dotted(v)[k] == '.'
    decreases |v|
  {
    var head := NatToString(v[0]);
    assert IsDigit(head[0]);
    if |v| > 1 {
      DottedChars(v[1..]);
      var tail := "." + Dotted(v[1..]);
      assert Dotted(v) == head + tail;
      forall k | 0 <= k < |Dotted(v)|
        ensures IsDigit(Dotted(v)[k]) || Dotted(v)[k] == '.'
      {
        if k >= |head| + 1 {
          assert Dotted(v)[k] == Dotted(v[1..])[k - |head| - 1];
        }
      }
    }
  }

  /** `s` holds the numerals `parts` joined with dots from `j` on, and what
      follows is neither a digit nor a dot. */
  ghost predicate JoinedAt(s: string, j: nat, parts: seq<string>) {
    var t := Join(".", parts);
    var e := j + |t|;
    && e <= |s|
    && (forall k :: 0 <= k < |t| ==> s[j + k] == t[k])
    && (e == |s| || (!IsDigit(s[e]) && s[e] != '.'))
  }

  /** Each of `parts` is a numeral of the number at the same place in `v`. */
  ghost predicate Numerals(parts: seq<string>, v: seq<nat>) {
    && |parts| == |v|
    && forall i :: 0 <= i < |parts| ==> parts[i] != [] && AllDigits(parts[i]) && DigitsValue(parts[i]) == v[i]
  }

  /** The joined form is the first part, then, when there are more, a dot
      and the rest joined. */
  lemma JoinParts(parts: seq<string>)
    requires parts != []
    ensures |parts| == 1 ==> Join(".", parts) == parts[0]
    ensures |parts| > 1 ==> |Join(".", parts)| == |parts[0]| + 1 + |Join(".", parts[1..])|
    ensures |parts| > 1 ==> Join(".", parts)[|parts[0]|] == '.'
    ensures |parts| > 1 ==> forall k :: 0 <= k < |Join(".", parts[1..])| ==> Join(".", parts)[|parts[0]| + 1 + k] == Join(".", parts[1..])[k]
    ensures forall k :: 0 <= k < |parts[0]| ==> Join(".", parts)[k] == parts[0][k]
  {
  }

  /** `Dotted` is `".".join` of the numerals. */
  lemma {:induction false} DottedIsJoin(v: seq<nat>, parts: seq<string>)
    requires v != [] && |parts| == |v|
    requires forall i :: 0 <= i < |v| ==> parts[i] == NatToString(v[i])
    ensures Dotted(v) == Join(".", parts)
    decreases |v|
  {
    if |v| > 1 {
      DottedIsJoin(v[1..], parts[1..]);
    }
  }

  /** Reading the numbers back from their dotted form gives the numbers, when
      what follows is neither a digit nor a dot. */
  lemma ComponentsOfDotted(pre: string, v: seq<nat>, rest: string)
    requires v != []
    requires rest == [] || (!IsDigit(rest[0]) && rest[0] != '.')
    ensures |pre| < |pre + Dotted(v) + rest| && IsDigit((pre + Dotted(v) + rest)[|pre|])
    ensures Components(pre + Dotted(v) + rest, |pre|) == v
  {
    var s := pre + Dotted(v) + rest;
    var parts := seq(|v|, i requires 0 <= i < |v| => NatToString(v[i]));
    DottedIsJoin(v, parts);
    forall i | 0 <= i < |v|
      ensures DigitsValue(parts[i]) == v[i]
    {
      DigitsValueOfNatToString(v[i]);
    }
    assert JoinedAt(s, |pre|, parts);
    ComponentsAt(s, |pre|, parts, v);
  }

  lemma {:induction false} ComponentsAt(s: string, j: nat, parts: seq<string>, v: seq<nat>)
    requires v != [] && Numerals(parts, v) && JoinedAt(s, j, parts)
    ensures j < |s| && IsDigit(s[j])
    ensures Components(s, j) == v
    decreases |v|
  {
    var d := j + |parts[0]|;
    HeadJoinedAt(s, j, parts, v);
    if |v| == 1 {
      ComponentsStep(s, j);
    } else {
      TailJoinedAt(s, j, parts);
      NumeralsTail(parts, v);
      ComponentsAt(s, d + 1, parts[1..], v[1..]);
      ComponentsCons(s, j, d, v[0], v[1..]);
      assert [v[0]] + v[1..] == v;
    }
  }

  lemma ComponentsCons(s: string, j: nat, d: nat, n: nat, w: seq<nat>)
    requires j < d < |s| && IsDigit(s[j]) && SkipDigits(s, j) == d
    requires AllDigits(s[j..d]) && DigitsValue(s[j..d]) == n
    requires d + 1 < |s| && s[d] == '.' && IsDigit(s[d + 1]) && Components(s, d + 1) == w
    ensures Components(s, j) == [n] + w
  {
    ComponentsStep(s, j);
  }

  lemma NumeralsTail(parts: seq<string>, v: seq<nat>)
    requires |v| > 1 && Numerals(parts, v)
    ensures Numerals(parts[1..], v[1..])
  {
    forall i | 0 <= i < |v| - 1
      ensures parts[1..][i] == parts[i + 1] && v[1..][i] == v[i + 1]
    {
    }
  }

  /** Where the first number of a dotted form stops, and its value. */
  lemma HeadJoinedAt(s: string, j: nat, parts: seq<string>, v: seq<nat>)
    requires v != [] && Numerals(parts, v) && JoinedAt(s, j, parts)
    ensures var d := j + |parts[0]|;
      && j < d <= |s| && IsDigit(s[j]) && SkipDigits(s, j) == d
      && AllDigits(s[j..d]) && DigitsValue(s[j..d]) == v[0]
      && (|v| == 1 ==> !(d + 1 < |s| && s[d] == '.'))
      && (|v| > 1 ==> d < |s| && s[d] == '.')
  {
    var head := parts[0];
    var d := j + |head|;
    JoinParts(parts);
    forall k | j <= k < d
      ensures s[k] == head[k - j] && IsDigit(s[k])
    {
      assert s[j + (k - j)] == Join(".", parts)[k - j];
    }
    if |v| > 1 {
      assert s[j + |head|] == Join(".", parts)[|head|];
    }
    SkipDigitsAt(s, j, d);
    assert s[j..d] == head;
  }

  /** After the first number and its dot, the rest of the dotted form. */
  lemma TailJoinedAt(s: string, j: nat, parts: seq<string>)
    requires |parts| > 1 && JoinedAt(s, j, parts)
    ensures JoinedAt(s, j + |parts[0]| + 1, parts[1..])
  {
    var h := |parts[0]|;
    var tail := Join(".", parts[1..]);
    JoinParts(parts);
    forall k | 0 <= k < |tail|
      ensures s[j + h + 1 + k] == tail[k]
    {
      assert s[j + (h + 1 + k)] == Join(".", parts)[h + 1 + k];
    }
  }

  /** One number, and the rest after a dot followed by a digit. */
  lemma ComponentsStep(s: string, j: nat)
    requires j < |s| && IsDigit(s[j])
    ensures var d := SkipDigits(s, j);
      AllDigits(s[j..d]) &&
      Components(s, j) == if d + 1 < |s| && s[d] == '.' && IsDigit(s[d + 1])
        then [DigitsValue(s[j..d])] + Components(s, d + 1) else [DigitsValue(s[j..d])]
  {
    DigitsBetween(s, j, SkipDigits(s, j));
  }

  /** `pandoc 3.1.2` on the first line gives `(3, 1, 2)`. */
  lemma VersionRoundTrip(v: seq<nat>, rest: string)
    requires v != []
    requires rest == [] || IsLineBoundary(rest[0])
    ensures PandocVersionOf("pandoc " + Dotted(v) + rest, 0) == v
  {
    var line := "pandoc " + Dotted(v);
    FirstLineIs(v, rest);
    VersionOfLine(v);
  }

  /** The first line of the output is the version line. */
  lemma FirstLineIs(v: seq<nat>, rest: string)
    requires v != []
    requires rest == [] || IsLineBoundary(rest[0])
    ensures "pandoc " + Dotted(v) + rest != []
    ensures SplitLines("pandoc " + Dotted(v) + rest)[0] == "pandoc " + Dotted(v)
  {
    var line := "pandoc " + Dotted(v);
    var out := line + rest;
    DottedChars(v);
    forall k | 0 <= k < |line|
      ensures !IsLineBoundary(line[k])
    {
      if k >= 7 {
        assert line[k] == Dotted(v)[k - 7];
      }
    }
    FirstBoundaryAt(out, |line|);
    assert out[..|line|] == line;
  }

  /** The version line matches at its start, and its numbers are `v`. */
  lemma VersionOfLine(v: seq<nat>)
    requires v != []
    ensures FirstMatch("pandoc " + Dotted(v), 0) == Some(0)
    ensures SkipSpace("pandoc " + Dotted(v), 6) == 7
    ensures Components("pandoc " + Dotted(v), 7) == v
  {
    var line := "pandoc " + Dotted(v);
    ComponentsOfDotted("pandoc ", v, []);
    assert "pandoc " + Dotted(v) + [] == line;
    assert line[..6] == "pandoc";
    assert SkipSpace(line, 6) == 7;
    assert MatchAt(line, 0);
  }

  lemma {:induction false} FirstBoundaryAt(s: string, k: nat)
    requires k <= |s|
    requires forall i :: 0 <= i < k ==> !IsLineBoundary(s[i])
    requires k == |s| || IsLineBoundary(s[k])
    ensures FirstBoundary(s) == k
  {
    if k > 0 {
      FirstBoundaryAt(s[1..], k - 1);
    }
  }

  /** Output whose first line never says `pandoc` followed by blanks and a
      digit gives `(0,)`. */
  lemma NoVersionOnFirstLine(out: string, code: int)
    requires code == 0 && out != []
    requires forall m :: 0 <= m <= |SplitLines(out)[0]| ==> !MatchAt(SplitLines(out)[0], m)
    ensures PandocVersionOf(out, code) == [0]
  {
  }
}
