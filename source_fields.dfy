/** The fields of one reference record, derived from a list line inside a
    sources section (`extract_sources_of_a_md_file_to_dict`,
    `source_extract.py`). The patterns used there, with `.` never matching a
    newline:

      name     ^\s*([0-9a-z\*]+[\.) ]|[-*+])\s+(.*)      then strip,
               ^[0-9a-z\*]+[\.) ]\s*  removed,  ^"(.*)"$  unquoted,
               \[.*?\]\(.*?\)  removed everywhere, strip
      link     \[.*?\]\((.*?)\)   first match, group 1
      comment  \((.*?)\)          first match, group 1 */
module SourceFields {
  import opened Text
  import opened Wrappers
  import opened ListItems

  /** A reference record: the dict stored under the reference's name. */
  datatype Reference = Reference(
    numbering: string,
    link: Option<string>,
    comment: Option<string>,
    lineno: nat,
    line: string,
    kind: string)

  /** `{name: entry}`, one element of a file's list of references. */
  datatype NamedReference = Named(name: string, ref: Reference)

  /** `[0-9a-z\*]`. */
  predicate IsNameMarkerChar(c: char) { IsDigit(c) || IsLowerLetter(c) || c == '*' }

  /** `[\.) ]`. */
  predicate IsNameDelimiter(c: char) { c == '.' || c == ')' || c == ' ' }

  /** The end of the run of `[0-9a-z\*]` starting at `i`. */
  function MarkerRunEnd(s: string, i: nat): (j: nat)
    requires i <= |s|
    ensures i <= j <= |s|
    ensures forall k :: i <= k < j ==> IsNameMarkerChar(s[k])
    ensures j == |s| || !IsNameMarkerChar(s[j])
    decreases |s| - i
  {
    if i < |s| && IsNameMarkerChar(s[i]) then MarkerRunEnd(s, i + 1) else i
  }

  /** Group 2 of `^\s*([0-9a-z\*]+[\.) ]|[-*+])\s+(.*)`: the rest of the line
      after the marker and its blanks. A shorter marker run would leave a
      marker character where the delimiter must be, and fewer leading blanks
      would leave a blank where the marker must start, so only the greedy
      choices can match. */
  function NameGroup(line: string): (g: Option<string>)
    ensures g.Some? ==> forall k :: 0 <= k < |g.value| ==> g.value[k] != '\n'
  {
    var j := SkipSpace(line, 0);
    var r := MarkerRunEnd(line, j);
    if j < r && r + 1 < |line| && IsNameDelimiter(line[r]) && IsSpace(line[r + 1]) then
      var w := SkipSpace(line, r + 1);
      Some(line[w..LineEnd(line, w)])
    else if j + 1 < |line| && (line[j] == '-' || line[j] == '*' || line[j] == '+') && IsSpace(line[j + 1]) then
      var w := SkipSpace(line, j + 1);
      Some(line[w..LineEnd(line, w)])
    else None
  }

  /** `re.sub(r"^[0-9a-z\*]+[\.) ]\s*", "", s)`. */
  function StripNameMarker(s: string): (r: string)
    ensures |r| <= |s| && r == s[|s| - |r|..]
  {
    var e := MarkerRunEnd(s, 0);
    if 0 < e < |s| && IsNameDelimiter(s[e]) then s[SkipSpace(s, e + 1)..] else s
  }

  predicate NoNewline(s: string) { forall k :: 0 <= k < |s| ==> s[k] != '\n' }

  /** `re.sub(r'^"(.*)"$', r"\1", s)`: `$` also matches before a final newline. */
  function Unquote(s: string): string {
    if |s| >= 2 && s[0] == '"' && s[|s| - 1] == '"' && NoNewline(s[1..|s| - 1]) then s[1..|s| - 1]
    else if |s| >= 3 && s[0] == '"' && s[|s| - 2] == '"' && s[|s| - 1] == '\n' && NoNewline(s[1..|s| - 2]) then
      s[1..|s| - 2] + "\n"
    else s
  }

  /** The first `](` at or after `i`, or `|s|`. */
  function CloseOpenFrom(s: string, i: nat): (k: nat)
    requires i <= |s|
    ensures i <= k <= |s|
    ensures k < |s| ==> k + 1 < |s| && s[k] == ']' && s[k + 1] == '('
    ensures forall j :: i <= j < k && j + 1 < |s| ==> !(s[j] == ']' && s[j + 1] == '(')
    decreases |s| - i
  {
    if i + 1 >= |s| then |s|
    else if s[i] == ']' && s[i + 1] == '(' then i
    else CloseOpenFrom(s, i + 1)
  }

  /** Where a link's `](` and its closing `)` are. */
  datatype LinkSpan = LinkSpan(close: nat, end: nat)

  /** `\[.*?\]\(.*?\)` at `i`: the positions of its `](` and of its closing `)`.
      The lazy parts take the first `](` and the first `)` after it; when the
      line ends before them no later choice can succeed either. */
  function LinkAt(s: string, i: nat): (r: Option<LinkSpan>)
    requires i <= |s|
    ensures r.Some? ==> var k := r.value.close; var m := r.value.end;
      && i < k && k + 2 <= m < |s|
      && s[i] == '[' && s[k] == ']' && s[k + 1] == '(' && s[m] == ')'
  {
    if i < |s| && s[i] == '[' then
      var e := LineEnd(s, i);
      var k := CloseOpenFrom(s, i + 1);
      if k < e then
        var m := IndexFrom(s, ')', k + 2);
        if m < e then Some(LinkSpan(k, m)) else None
      else None
    else None
  }

  /** A link stays on one line, and its target holds no `)`. */
  lemma LinkIsPlain(s: string, i: nat)
    requires i <= |s| && LinkAt(s, i).Some?
    ensures var k := LinkAt(s, i).value.close; var m := LinkAt(s, i).value.end;
      && (forall j :: i <= j < m ==> s[j] != '\n')
      && (forall j :: k + 2 <= j < m ==> s[j] != ')')
  {
  }

  /** The position of the first link at or after `i` (`re.search`). */
  function FirstLinkFrom(s: string, i: nat): (r: Option<nat>)
    requires i <= |s|
    ensures r.Some? ==> i <= r.value < |s| && LinkAt(s, r.value).Some?
    decreases |s| - i
  {
    if i == |s| then None
    else if LinkAt(s, i).Some? then Some(i)
    else FirstLinkFrom(s, i + 1)
  }

  /** No link starts at a position from `i` up to, not including, `e`. */
  ghost predicate NoLinkIn(s: string, i: nat, e: nat)
    decreases e - i
  {
    i >= e || i > |s| || (LinkAt(s, i).None? && NoLinkIn(s, i + 1, e))
  }

  /** No link starts between `i` and the one found, nor anywhere from `i` on
      when none is found. */
  lemma {:induction false} FirstLinkIsFirst(s: string, i: nat)
    requires i <= |s|
    ensures FirstLinkFrom(s, i).Some? ==> NoLinkIn(s, i, FirstLinkFrom(s, i).value)
    ensures FirstLinkFrom(s, i).None? ==> NoLinkIn(s, i, |s| + 1)
    decreases |s| - i
  {
    if i < |s| && LinkAt(s, i).None? {
      FirstLinkIsFirst(s, i + 1);
    }
  }

  /** `NoLinkIn` holds position by position. */
  lemma {:induction false} NoLinkAt(s: string, i: nat, e: nat, j: nat)
    requires NoLinkIn(s, i, e) && i <= j < e && j <= |s|
    ensures LinkAt(s, j).None?
    decreases j - i
  {
    if i < j {
      NoLinkAt(s, i + 1, e, j);
    }
  }

  /** `re.sub(r"\[.*?\]\(.*?\)", "", s[i..])`. */
  function RemoveLinksFrom(s: string, i: nat): string
    requires i <= |s|
    decreases |s| - i
  {
    if i == |s| then []
    else
      match LinkAt(s, i)
      case Some(km) => RemoveLinksFrom(s, km.end + 1)
      case None => [s[i]] + RemoveLinksFrom(s, i + 1)
  }

  /** The name from the marker pattern alone, before any fallback. */
  function PrimaryName(line: string): string {
    match NameGroup(line)
    case None => ""
    case Some(g) =>
      var n := Unquote(StripNameMarker(Strip(g)));
      Strip(RemoveLinksFrom(n, 0))
  }

  /** Group 1 of the first `\[.*?\]\((.*?)\)`. */
  function Link(line: string): (link: Option<string>)
  {
    match FirstLinkFrom(line, 0)
    case None => None
    case Some(i) => var k := LinkAt(line, i).value.close; var m := LinkAt(line, i).value.end; Some(line[k + 2..m])
  }

  /** `link_match.group(0).split("]")[0].strip()`: the first link up to its
      first `]`, with the `[` kept. */
  function LinkName(line: string, i: nat): string
    requires i <= |line| && LinkAt(line, i).Some?
  {
    var k := LinkAt(line, i).value.close; var m := LinkAt(line, i).value.end;
    var g := line[i..m + 1];
    Strip(g[..IndexOf(g, ']')])
  }

  /** `\((.*?)\)` at `i`: the first `)` after an opening `(` on the same line. */
  function CommentAt(s: string, i: nat): (r: Option<nat>)
    requires i <= |s|
    ensures r.Some? ==> i < r.value < |s| && s[i] == '(' && s[r.value] == ')'
    ensures r.Some? ==> forall j :: i < j < r.value ==> s[j] != ')' && s[j] != '\n'
  {
    if i < |s| && s[i] == '(' then
      var m := IndexFrom(s, ')', i + 1);
      if m < LineEnd(s, i) then Some(m) else None
    else None
  }

  function FirstCommentFrom(s: string, i: nat): (r: Option<nat>)
    requires i <= |s|
    ensures r.Some? ==> i <= r.value < |s| && CommentAt(s, r.value).Some?
    ensures r.Some? ==> forall j :: i <= j < r.value ==> CommentAt(s, j).None?
    ensures r.None? ==> forall j :: i <= j <= |s| ==> CommentAt(s, j).None?
    decreases |s| - i
  {
    if i == |s| then None
    else if CommentAt(s, i).Some? then Some(i)
    else FirstCommentFrom(s, i + 1)
  }

  /** Group 1 of the first `\((.*?)\)`. */
  function Comment(line: string): Option<string> {
    match FirstCommentFrom(line, 0)
    case None => None
    case Some(i) => Some(line[i + 1..CommentAt(line, i).value])
  }

  const FallbackPrefix := "Referenz zu Zeile "

  /** The name a list line is stored under: the marker-based name, else the
      first link up to its `]`, else `"Referenz zu Zeile N"`. */
  function ReferenceName(line: string, lineno: nat): string {
    var primary := PrimaryName(line);
    var name :=
      if primary == [] && FirstLinkFrom(line, 0).Some? then LinkName(line, FirstLinkFrom(line, 0).value)
      else primary;
    if name == [] then FallbackPrefix + NatToString(lineno) else name
  }

  /** The record for the list line `line` (as read, with its newline) at
      1-based line number `lineno`: `numbering` is the stripped text of the
      list pattern's match. */
  function BuildReference(line: string, lineno: nat): NamedReference
    requires StartsItemAt(line, 0)
  {
    Named(ReferenceName(line, lineno),
          Reference(Strip(line[..ItemEnd(line, 0)]), Link(line), Comment(line), lineno, Strip(line), "external"))
  }

  /** For a line as `readlines()` returns it the match is the whole line, so
      `numbering` and `line` are the same stripped text. */
  lemma NumberingIsWholeLine(line: string, lineno: nat)
    requires IsReadLine(line) && StartsItemAt(line, 0)
    ensures BuildReference(line, lineno).ref.numbering == BuildReference(line, lineno).ref.line == Strip(line)
  {
    ItemOfOneLine(line);
    assert line[..|line|] == line;
  }

  // ---------------------------------------------------------------------------
  // Properties of the fields

  /** A name is never empty: the last fallback names the line. */
  lemma NameNeverEmpty(line: string, lineno: nat)
    requires StartsItemAt(line, 0)
    ensures BuildReference(line, lineno).name != []
  {
  }

  /** Without a marker-based name and without a link the name is
      `"Referenz zu Zeile N"`. */
  lemma NameFallsBackToLineNumber(line: string, lineno: nat)
    requires StartsItemAt(line, 0) && PrimaryName(line) == [] && FirstLinkFrom(line, 0).None?
    ensures BuildReference(line, lineno).name == FallbackPrefix + NatToString(lineno)
  {
  }

  /** Without a marker-based name but with a link the name is the link's text
      from its `[` up to the first `]` after it, stripped: it starts with the
      `[` and holds no `]`. */
  lemma NameFallsBackToLink(line: string, lineno: nat)
    requires StartsItemAt(line, 0) && PrimaryName(line) == [] && FirstLinkFrom(line, 0).Some?
    ensures var i := FirstLinkFrom(line, 0).value;
      var c := IndexOf(line[i..], ']');
      var name := BuildReference(line, lineno).name;
      && i + c < |line| && line[i + c] == ']'
      && name == Strip(line[i..i + c])
      && |name| >= 1 && name[0] == '['
      && (forall j :: 0 <= j < |name| ==> name[j] != ']')
  {
    var i := FirstLinkFrom(line, 0).value;
    LinkNameStartsWithBracket(line, i);
    LinkNameIsCut(line, i);
  }

  /** The link's name is its text up to the first `]`, stripped; it holds
      no `]`. */
  lemma LinkNameIsCut(line: string, i: nat)
    requires i <= |line| && LinkAt(line, i).Some?
    ensures var c := IndexOf(line[i..], ']');
      && i + c < |line| && line[i + c] == ']'
      && LinkName(line, i) == Strip(line[i..i + c])
      && (forall j :: 0 <= j < |LinkName(line, i)| ==> LinkName(line, i)[j] != ']')
  {
    var c := LinkNameCut(line, i);
    var text := line[i..i + c];
    forall k | 0 <= k < |text|
      ensures text[k] != ']'
    {
      assert text[k] == line[i..][k];
    }
    StripKeepsAbsent(text, ']');
  }

  /** The cut that `LinkName` makes is the first `]` from the link's start. */
  lemma LinkNameCut(line: string, i: nat) returns (c: nat)
    requires i <= |line| && LinkAt(line, i).Some?
    ensures c == IndexOf(line[i..], ']') && i + c < |line| && line[i + c] == ']'
    ensures LinkName(line, i) == Strip(line[i..i + c])
  {
    var span := LinkAt(line, i).value;
    var g := line[i..span.end + 1];
    c := IndexOf(g, ']');
    assert g[span.close - i] == ']';
    assert g[..c] == line[i..i + c];
    var rest := line[i..];
    assert rest[c] == ']';
    forall k | 0 <= k < c
      ensures rest[k] != ']'
    {
      assert rest[k] == g[k];
    }
  }

  /** Stripping adds no character: one absent from `s` is absent from its strip. */
  lemma StripKeepsAbsent(s: string, ch: char)
    requires forall k :: 0 <= k < |s| ==> s[k] != ch
    ensures forall j :: 0 <= j < |Strip(s)| ==> Strip(s)[j] != ch
  {
    var off := StripIsInside(s);
    forall j | 0 <= j < |Strip(s)|
      ensures Strip(s)[j] != ch
    {
      assert Strip(s)[j] == s[off + j];
    }
  }

  /** `str.strip()` keeps a contiguous part of its argument. */
  lemma StripIsInside(s: string) returns (off: nat)
    ensures off + |Strip(s)| <= |s| && Strip(s) == s[off..off + |Strip(s)|]
  {
    var l := LStrip(s);
    LStripByFacts(s, IsSpace);
    RStripByFacts(l, IsSpace);
    off := |s| - |l|;
  }

  /** The name cut from a link keeps the link's opening `[`. */
  lemma LinkNameStartsWithBracket(line: string, i: nat)
    requires i <= |line| && LinkAt(line, i).Some?
    ensures |LinkName(line, i)| >= 1 && LinkName(line, i)[0] == '['
  {
    var span := LinkAt(line, i).value;
    var g := line[i..span.end + 1];
    var cut := IndexOf(g, ']');
    assert g[0] == '[' && g[span.close - i] == ']';
    assert 0 < cut;
    assert !IsSpace(g[..cut][0]);
    StripKeepsFirst(g[..cut]);
  }

  /** Stripping a string that starts with a non-blank keeps that character first. */
  lemma StripKeepsFirst(s: string)
    requires |s| >= 1 && !IsSpace(s[0])
    ensures |Strip(s)| >= 1 && Strip(s)[0] == s[0]
  {
    assert LStrip(s) == s;
    RStripByFacts(s, IsSpace);
  }

  /** The link is the target of the first `[..](..)` on the line: the text
      between its `](` and its `)`, which holds no `)` and no newline; no
      earlier position starts such a link. */
  lemma LinkIsFirstTarget(line: string)
    requires Link(line).Some?
    ensures exists i ::
      && 0 <= i < |line| && LinkAt(line, i).Some?
      && Link(line).value == line[LinkAt(line, i).value.close + 2..LinkAt(line, i).value.end]
      && (forall j :: 0 <= j < i ==> LinkAt(line, j).None?)
    ensures forall j :: 0 <= j < |Link(line).value| ==> Link(line).value[j] != ')' && Link(line).value[j] != '\n'
  {
    var i := FirstLinkFrom(line, 0).value;
    FirstLinkIsFirst(line, 0);
    forall j | 0 <= j < i
      ensures LinkAt(line, j).None?
    {
      NoLinkAt(line, 0, i, j);
    }
    LinkIsPlain(line, i);
    var span := LinkAt(line, i).value;
    var link := line[span.close + 2..span.end];
    assert Link(line).value == link;
    forall j | 0 <= j < |link|
      ensures link[j] != ')' && link[j] != '\n'
    {
      assert link[j] == line[span.close + 2 + j];
    }
  }

  /** The comment is the text between the first `(` that is closed on the same
      line and the first `)` after it; it holds no `)` and no newline. */
  lemma CommentIsFirstParenthesis(line: string)
    requires Comment(line).Some?
    ensures exists i ::
      && 0 <= i < |line| && CommentAt(line, i).Some?
      && line[i] == '(' && Comment(line).value == line[i + 1..CommentAt(line, i).value]
      && (forall j :: 0 <= j < i ==> CommentAt(line, j).None?)
    ensures forall j :: 0 <= j < |Comment(line).value| ==> Comment(line).value[j] != ')' && Comment(line).value[j] != '\n'
  {
    var i := FirstCommentFrom(line, 0).value;
    var m := CommentAt(line, i).value;
    assert Comment(line).value == line[i + 1..m];
  }

  /** A line with a link always has a comment too: the link's `(..)` is one. */
  lemma LinkImpliesComment(line: string)
    requires Link(line).Some?
    ensures Comment(line).Some?
  {
    var i := FirstLinkFrom(line, 0).value;
    var k := LinkAt(line, i).value.close; var m := LinkAt(line, i).value.end;
    LinkIsPlain(line, i);
    assert CommentAt(line, k + 1).Some? by {
      assert IndexFrom(line, ')', k + 2) == m;
      assert LineEnd(line, k + 1) > m by {
        assert forall j :: k + 1 <= j <= m ==> line[j] != '\n';
      }
    }
    assert FirstCommentFrom(line, 0).Some?;
  }
}
