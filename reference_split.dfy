/** `split_reference_to_description_and_urluri` of the package's
    `__init__.py`: a reference split into its description and the first URL
    or dotted name in it. */
module ReferenceSplit {
  import opened Wrappers
  import opened Text

  /** `[^\s\)\]\[]`: the characters a URL token is made of. An opening
      parenthesis is one of them. */
  predicate IsToken(c: char) { !IsSpace(c) && c != ')' && c != ']' && c != '[' }

  /** The end of the run of token characters from `g`. */
  function TokenEnd(s: string, g: nat): (e: nat)
    requires g <= |s|
    ensures g <= e <= |s|
    decreases |s| - g
  {
    if g < |s| && IsToken(s[g]) then TokenEnd(s, g + 1) else g
  }

  /** The run from `g` to `TokenEnd(s, g)` is made of token characters and
      stops at the end or at a character that is not one. */
  lemma {:induction false} TokenRun(s: string, g: nat)
    requires g <= |s|
    ensures forall k :: g <= k < TokenEnd(s, g) ==> IsToken(s[k])
    ensures TokenEnd(s, g) == |s| || !IsToken(s[TokenEnd(s, g)])
    decreases |s| - g
  {
    if g < |s| && IsToken(s[g]) {
      TokenRun(s, g + 1);
    }
  }

  /** A dot between `g` and `e` with something on both sides of it. */
  predicate InnerDot(s: string, g: nat, e: nat)
    requires g <= e <= |s|
  {
    exists p :: g < p && p + 1 < e && s[p] == '.'
  }

  /** Where group 1, `https?://[^\s\)\]\[]+|[^\s\)\]\[]+\.[^\s\)\]\[]+`, ends
      when it starts at `g`. Both alternatives take the whole run of token
      characters: the first when the run is `http://` or `https://` and more,
      the second when the run has a dot that neither starts nor ends it. */
  function GroupEnd(s: string, g: nat): (r: Option<nat>)
    requires g <= |s|
    ensures r.Some? ==> g < r.value == TokenEnd(s, g)
  {
    var e := TokenEnd(s, g);
    if (OccursAt(s, "https://", g) && e > g + 8) || (OccursAt(s, "http://", g) && e > g + 7) || InnerDot(s, g, e)
    then Some(e) else None
  }

  /** One match: where it starts, where its group starts and ends, and where
      it ends after the optional `]` and `)`. */
  datatype Match = Match(start: nat, groupStart: nat, groupEnd: nat, end: nat)

  predicate Wellformed(s: string, m: Match) {
    m.start <= m.groupStart < m.groupEnd <= m.end <= |s|
    && m.groupEnd == TokenEnd(s, m.groupStart)
  }

  /** The match of `\(?\[?(...)\]?\)?` starting at `i`. The optional `(` and
      `[` are taken when present and given back when the group then fails,
      so the group is tried after both, after the `(` alone, after the `[`
      alone and at `i` itself; a group can never start at a `[`. */
  function MatchAt(s: string, i: nat): (r: Option<Match>)
    requires i < |s|
    ensures r.Some? ==> r.value.start == i && Wellformed(s, r.value) && r.value.groupStart <= i + 2
    ensures r.Some? ==> GroupEnd(s, r.value.groupStart) == Some(r.value.groupEnd)
  {
    var paren := s[i] == '(';
    var bracketAfterParen := paren && i + 1 < |s| && s[i + 1] == '[';
    var bracket := s[i] == '[';
    var g :=
      if bracketAfterParen && GroupEnd(s, i + 2).Some? then i + 2
      else if paren && GroupEnd(s, i + 1).Some? then i + 1
      else if bracket && GroupEnd(s, i + 1).Some? then i + 1
      else i;
    match GroupEnd(s, g)
    case None => None
    case Some(e) =>
      var afterBracket := if e < |s| && s[e] == ']' then e + 1 else e;
      var end := if afterBracket < |s| && s[afterBracket] == ')' then afterBracket + 1 else afterBracket;
      Some(Match(i, g, e, end))
  }

  /** `url_pattern.search(s, from)`: the leftmost match from `from` on. */
  function Search(s: string, from: nat): (r: Option<Match>)
    requires from <= |s|
    ensures r.Some? ==> from <= r.value.start && Wellformed(s, r.value)
    ensures r.Some? ==> r.value.start < |s| && MatchAt(s, r.value.start) == r
    decreases |s| - from
  {
    if from == |s| then None
    else if MatchAt(s, from).Some? then MatchAt(s, from)
    else Search(s, from + 1)
  }

  /** No match starts at a position from `i` up to, not including, `e`. */
  ghost predicate NoMatchIn(s: string, i: nat, e: nat)
    decreases e - i
  {
    i >= e || i >= |s| || (MatchAt(s, i).None? && NoMatchIn(s, i + 1, e))
  }

  /** The match found is the leftmost one: none starts between `from` and
      it, nor anywhere from `from` on when none is found. */
  lemma {:induction false} SearchIsLeftmost(s: string, from: nat)
    requires from <= |s|
    ensures Search(s, from).Some? ==> NoMatchIn(s, from, Search(s, from).value.start)
    ensures Search(s, from).None? ==> NoMatchIn(s, from, |s|)
    decreases |s| - from
  {
    if from < |s| && MatchAt(s, from).None? {
      SearchIsLeftmost(s, from + 1);
    }
  }

  /** `NoMatchIn` holds position by position. */
  lemma {:induction false} NoMatchAt(s: string, i: nat, e: nat, j: nat)
    requires NoMatchIn(s, i, e) && i <= j < e && j < |s|
    ensures MatchAt(s, j).None?
    decreases j - i
  {
    if i < j {
      NoMatchAt(s, i + 1, e, j);
    }
  }

  /** `url_pattern.sub("", s)` from `from` on: every match removed, left to
      right, the search resuming after each one. */
  function RemoveMatches(s: string, from: nat): (r: string)
    requires from <= |s|
    ensures |r| <= |s| - from
    decreases |s| - from
  {
    match Search(s, from)
    case None => s[from..]
    case Some(m) => s[from..m.start] + RemoveMatches(s, m.end)
  }

  /** The characters stripped from the ends of the description. */
  const KeyChars: set<char> := {',', ' ', '"', ':', '(', ')', '[', ']'}

  /** `(key_part, value_part)`. */
  datatype Split = Split(key: string, value: string)

  /** `split_reference_to_description_and_urluri(name)`. The group holds no
      whitespace, so stripping it changes nothing. */
  function SplitReference(name: string): (r: Split)
    ensures Search(name, 0).None? <==> r.value == []
    ensures Search(name, 0).Some? ==> r.value == Group(name, Search(name, 0).value)
  {
    match Search(name, 0)
    case None => Split(Key(name), [])
    case Some(m) => Split(Key(RemoveMatches(name, 0)), Group(name, m))
  }

  /** `.strip(', ":()[]').strip()`. */
  function Key(s: string): (k: string)
    ensures |k| <= |s|
    ensures k == [] || (!IsSpace(k[0]) && !IsSpace(k[|k| - 1]))
  {
    StripEnds(StripChars(s, KeyChars));
    Strip(StripChars(s, KeyChars))
  }

  /** `match.group(1)`: a non-empty run of token characters. */
  function Group(s: string, m: Match): (v: string)
    requires Wellformed(s, m)
    ensures v != [] && forall k :: 0 <= k < |v| ==> IsToken(v[k])
  {
    var v := s[m.groupStart..m.groupEnd];
    TokenRun(s, m.groupStart);
    assert forall k :: 0 <= k < |v| ==> v[k] == s[m.groupStart + k];
    v
  }

  // ---------------------------------------------------------------------------
  // Properties

  /** The value, the group of the first match, never holds whitespace, `[`,
      `]` or `)`; it is an `http` or `https` URL or has a dot inside it. */
  lemma ValueShape(name: string)
    requires Search(name, 0).Some?
    ensures var v := Group(name, Search(name, 0).value);
      && (forall k :: 0 <= k < |v| ==> !IsSpace(v[k]) && v[k] != '[' && v[k] != ']' && v[k] != ')')
      && (StartsWith(v, "http://") || StartsWith(v, "https://") || exists p :: 0 < p < |v| - 1 && v[p] == '.')
  {
    var m := Search(name, 0).value;
    GroupShape(name, m.groupStart);
  }

  /** A group is a URL with a scheme or a dotted name. */
  lemma GroupShape(s: string, g: nat)
    requires g <= |s| && GroupEnd(s, g).Some?
    ensures var v := s[g..GroupEnd(s, g).value];
      StartsWith(v, "http://") || StartsWith(v, "https://") || exists p :: 0 < p < |v| - 1 && v[p] == '.'
  {
    var e := GroupEnd(s, g).value;
    var v := s[g..e];
    if OccursAt(s, "https://", g) && e > g + 8 {
      assert v[..8] == s[g..g + 8];
    } else if OccursAt(s, "http://", g) && e > g + 7 {
      assert v[..7] == s[g..g + 7];
    } else {
      var p :| g < p && p + 1 < e && s[p] == '.';
      assert v[p - g] == '.';
    }
  }

  /** Text without a match loses nothing to the substitution. */
  lemma {:induction false} NoMatchKept(s: string, from: nat)
    requires from <= |s| && Search(s, from).None?
    ensures RemoveMatches(s, from) == s[from..]
  {
  }

  /** The substitution keeps the text before the first match and goes on
      after it. */
  lemma FirstMatchRemoved(s: string)
    requires Search(s, 0).Some?
    ensures var m := Search(s, 0).value;
      RemoveMatches(s, 0) == s[..m.start] + RemoveMatches(s, m.end)
  {
  }

  lemma {:induction false} TokenEndStops(s: string, g: nat, n: nat)
    requires g <= n <= |s|
    requires n == |s| || !IsToken(s[n])
    ensures TokenEnd(s, g) <= n
    decreases n - g
  {
    if g < n && IsToken(s[g]) {
      TokenEndStops(s, g + 1, n);
    }
  }

  /** A group starting inside a run of text without `.` and `:` fails. */
  lemma NoGroupWithoutDotOrColon(s: string, g: nat, n: nat)
    requires g <= n <= |s|
    requires forall k :: 0 <= k < n ==> s[k] != '.' && s[k] != ':'
    requires n == |s| || !IsToken(s[n])
    ensures GroupEnd(s, g).None?
  {
    var e := TokenEnd(s, g);
    TokenEndStops(s, g, n);
    assert g + 8 <= |s| ==> s[g..g + 8][5] == s[g + 5];
    assert g + 7 <= |s| ==> s[g..g + 7][4] == s[g + 4];
    assert !(OccursAt(s, "https://", g) && e > g + 8) by {
      if e > g + 8 {
        assert s[g + 5] != ':';
      }
    }
    assert !(OccursAt(s, "http://", g) && e > g + 7) by {
      if e > g + 7 {
        assert s[g + 4] != ':';
      }
    }
  }

  /** `Description https://host/path`: the URL is the value and the
      description, stripped, is the key. */
  lemma DescriptionThenUrl(desc: string, rest: string)
    requires forall k :: 0 <= k < |desc| ==> desc[k] != '.' && desc[k] != ':'
    requires rest != [] && forall k :: 0 <= k < |rest| ==> IsToken(rest[k])
    ensures SplitReference(desc + " " + "https://" + rest) == Split(Key(desc + " "), "https://" + rest)
  {
    var head := desc + " ";
    var url := "https://" + rest;
    var name := head + url;
    var u := |head|;
    assert name == desc + " " + "https://" + rest;
    assert name[..u] == head;
    assert name[u..] == url;
    NoMatchInDescription(head, url);
    UrlMatch(head, rest);
    SearchSkips(name, 0, u);
    SplitAtTrailingMatch(name, u);
  }

  /** A match that starts at `u`, has its group there and runs to the end
      leaves the text before it as the key and the rest as the value. */
  lemma SplitAtTrailingMatch(name: string, u: nat)
    requires u < |name|
    requires Search(name, 0) == Some(Match(u, u, |name|, |name|))
    ensures SplitReference(name) == Split(Key(name[..u]), name[u..])
  {
    var m := Match(u, u, |name|, |name|);
    SplitOfMatch(name, m);
    RemovesTrailingMatch(name, u);
    assert Group(name, m) == name[u..];
  }

  lemma SplitOfMatch(name: string, m: Match)
    requires Search(name, 0) == Some(m)
    ensures SplitReference(name) == Split(Key(RemoveMatches(name, 0)), Group(name, m))
  {
  }

  lemma RemovesTrailingMatch(name: string, u: nat)
    requires u < |name|
    requires Search(name, 0) == Some(Match(u, u, |name|, |name|))
    ensures RemoveMatches(name, 0) == name[..u]
  {
    assert RemoveMatches(name, |name|) == [];
  }

  /** No match starts in a description without `.` and `:` that ends in a
      blank. */
  lemma NoMatchInDescription(head: string, tail: string)
    requires head != [] && head[|head| - 1] == ' '
    requires forall k :: 0 <= k < |head| ==> head[k] != '.' && head[k] != ':'
    ensures forall i :: 0 <= i < |head| ==> MatchAt(head + tail, i).None?
  {
    var s := head + tail;
    var n := |head| - 1;
    assert s[n] == ' ';
    assert forall k :: 0 <= k < n ==> s[k] == head[k];
    forall i | 0 <= i <= n
      ensures MatchAt(s, i).None?
    {
      NoGroupWithoutDotOrColon(s, i, n);
      if i < n {
        NoGroupWithoutDotOrColon(s, i + 1, n);
        if i + 2 <= n {
          NoGroupWithoutDotOrColon(s, i + 2, n);
        }
      }
    }
  }

  /** A URL that runs to the end of the text matches where it starts. */
  lemma UrlMatch(head: string, rest: string)
    requires rest != [] && forall k :: 0 <= k < |rest| ==> IsToken(rest[k])
    ensures MatchAt(head + ("https://" + rest), |head|) == Some(Match(|head|, |head|, |head| + 8 + |rest|, |head| + 8 + |rest|))
  {
    var s := head + ("https://" + rest);
    var u := |head|;
    forall k | u <= k < |s|
      ensures IsToken(s[k])
    {
      if k >= u + 8 {
        assert s[k] == rest[k - u - 8];
      }
    }
    TokenEndAt(s, u, |s|);
    assert s[u..u + 8] == "https://";
    assert s[u] == 'h';
  }

  lemma {:induction false} TokenEndAt(s: string, g: nat, e: nat)
    requires g <= e <= |s|
    requires forall k :: g <= k < e ==> IsToken(s[k])
    requires e == |s| || !IsToken(s[e])
    ensures TokenEnd(s, g) == e
    decreases e - g
  {
    if g < e {
      TokenEndAt(s, g + 1, e);
    }
  }

  lemma {:induction false} SearchSkips(s: string, lo: nat, hi: nat)
    requires lo <= hi <= |s|
    requires forall i :: lo <= i < hi ==> MatchAt(s, i).None?
    ensures Search(s, lo) == Search(s, hi)
    decreases hi - lo
  {
    if lo < hi {
      assert MatchAt(s, lo).None?;
      SearchSkips(s, lo + 1, hi);
      SearchStep(s, lo);
    }
  }

  lemma SearchStep(s: string, i: nat)
    requires i < |s| && MatchAt(s, i).None?
    ensures Search(s, i) == Search(s, i + 1)
  {
  }
}
