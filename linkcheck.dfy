/** The text-only checks of `linkcheck.py`: gaps in numbered citations,
    headings repeated across the book, and TODO/FIXME markers. Each walks the
    files in order and their lines in order; a file that cannot be opened is
    skipped (with a warning in the source) and the others are still checked. */
module LinkCheck {
  import opened Wrappers
  import opened Text
  import opened Files

  // ---------------------------------------------------------------------------
  // check_citation_numbering

  /** The number `^\s*([0-9]+)\.\s` reads from a line: blanks, digits, a dot
      and one more blank (a line break counts as a blank). */
  function CitationNumber(line: string): Option<nat> {
    var i := SkipSpace(line, 0);
    var d := SkipDigits(line, i);
    if i < d && d + 1 < |line| && line[d] == '.' && IsSpace(line[d + 1]) then
      DigitsBetween(line, i, d);
      Some(DigitsValue(line[i..d]))
    else None
  }

  /** The numbers of the numbered lines, in order. */
  function Numbers(lines: seq<string>): seq<nat> {
    if lines == [] then []
    else
      var init := Numbers(lines[..|lines| - 1]);
      match CitationNumber(lines[|lines| - 1])
      case Some(n) => init + [n]
      case None => init
  }

  /** `max(nums)`. */
  function Largest(nums: seq<nat>): (m: nat)
    requires nums != []
    ensures m in nums
    ensures forall k :: 0 <= k < |nums| ==> nums[k] <= m
  {
    if |nums| == 1 then nums[0]
    else
      var m := Largest(nums[..|nums| - 1]);
      assert forall k :: 0 <= k < |nums| - 1 ==> nums[k] == nums[..|nums| - 1][k];
      if nums[|nums| - 1] > m then nums[|nums| - 1] else m
  }

  /** The numbers from `lo` to `hi` that `nums` lacks, in ascending order. */
  function MissingBetween(nums: seq<nat>, lo: nat, hi: nat): (r: seq<nat>)
    ensures forall k :: 0 <= k < |r| ==> lo <= r[k] <= hi && r[k] !in nums
    ensures forall k :: 0 < k < |r| ==> r[k - 1] < r[k]
    ensures forall x :: lo <= x <= hi && x !in nums ==> x in r
    decreases hi + 1 - lo
  {
    if lo > hi then []
    else
      var rest := MissingBetween(nums, lo + 1, hi);
      if lo in nums then rest else [lo] + rest
  }

  /** `sorted(set(range(1, max(nums) + 1)) - set(nums))`. */
  function Missing(nums: seq<nat>): (r: seq<nat>)
    requires nums != []
    ensures forall k :: 0 <= k < |r| ==> 1 <= r[k] <= Largest(nums) && r[k] !in nums
    ensures forall k :: 0 < k < |r| ==> r[k - 1] < r[k]
    ensures forall x :: 1 <= x <= Largest(nums) && x !in nums ==> x in r
  {
    MissingBetween(nums, 1, Largest(nums))
  }

  /** A file and the citation numbers missing from it. */
  datatype Gap = Gap(file: string, missing: seq<nat>)

  /** What one file adds to the report: nothing when it cannot be read, has
      no numbered lines, or misses no number. */
  function FileGaps(fs: FileSystem, md: string): seq<Gap> {
    match Read(fs, md)
    case None => []
    case Some(text) =>
      var nums := Numbers(ReadLines(text));
      if nums == [] || Missing(nums) == [] then [] else [Gap(md, Missing(nums))]
  }

  function CitationGaps(fs: FileSystem, files: seq<string>): seq<Gap> {
    if files == [] then [] else CitationGaps(fs, files[..|files| - 1]) + FileGaps(fs, files[|files| - 1])
  }

  /** `check_citation_numbering(md_files)`. */
  method CheckCitationNumbering(fs: FileSystem, mdFiles: seq<string>) returns (gaps: seq<Gap>)
    ensures gaps == CitationGaps(fs, mdFiles)
  {
    gaps := [];
    for f := 0 to |mdFiles|
      invariant gaps == CitationGaps(fs, mdFiles[..f])
    {
      assert mdFiles[..f + 1][..f] == mdFiles[..f];
      var md := mdFiles[f];
      var text := Read(fs, md);
      if text.Some? {
        var lines := ReadLines(text.value);
        var nums: seq<nat> := [];
        for i := 0 to |lines|
          invariant nums == Numbers(lines[..i])
        {
          assert lines[..i + 1][..i] == lines[..i];
          var n := CitationNumber(lines[i]);
          if n.Some? {
            nums := nums + [n.value];
          }
        }
        assert lines[..|lines|] == lines;
        if nums != [] {
          var missing := Missing(nums);
          if missing != [] {
            gaps := gaps + [Gap(md, missing)];
          }
        }
      }
    }
    assert mdFiles[..|mdFiles|] == mdFiles;
  }

  // Properties of check_citation_numbering

  /** A line `<blanks><n>.<blank>...` carries the number `n`. */
  lemma CitationNumberOf(indent: string, n: nat, blank: char, rest: string)
    requires forall k :: 0 <= k < |indent| ==> IsSpace(indent[k])
    requires IsSpace(blank)
    ensures CitationNumber(indent + NatToString(n) + "." + [blank] + rest) == Some(n)
  {
    var digits := NatToString(n);
    var line := indent + digits + "." + [blank] + rest;
    CitationLineLayout(indent, digits, blank, rest);
    SkipSpaceAt(line, 0, |indent|);
    SkipDigitsAt(line, |indent|, |indent| + |digits|);
    CitationNumberAt(line, |indent|, |indent| + |digits|);
    DigitsValueOfNatToString(n);
  }

  /** Where the parts of a numbered line sit. */
  lemma CitationLineLayout(indent: string, digits: string, blank: char, rest: string)
    requires forall k :: 0 <= k < |indent| ==> IsSpace(indent[k])
    requires digits != [] && AllDigits(digits)
    ensures var line := indent + digits + "." + [blank] + rest;
      var i := |indent|;
      var d := i + |digits|;
      && d + 1 < |line| && line[d] == '.' && line[d + 1] == blank
      && (forall k :: 0 <= k < i ==> IsSpace(line[k]))
      && !IsSpace(line[i])
      && (forall k :: i <= k < d ==> IsDigit(line[k]))
      && line[i..d] == digits
  {
    var line := indent + digits + "." + [blank] + rest;
    var i := |indent|;
    var d := i + |digits|;
    assert forall k :: 0 <= k < i ==> line[k] == indent[k];
    assert forall k :: i <= k < d ==> line[k] == digits[k - i];
    assert line[i..d] == digits;
  }

  /** A line whose blanks end at `i` and whose digits run from `i` to `d`,
      followed by a dot and a blank, carries the number those digits spell. */
  lemma CitationNumberAt(line: string, i: nat, d: nat)
    requires i < d && d + 1 < |line| && line[d] == '.' && IsSpace(line[d + 1])
    requires SkipSpace(line, 0) == i && SkipDigits(line, i) == d
    ensures CitationNumber(line) == Some(DigitsValue(line[i..d]))
  {
  }

  /** Items 1 and 3 without 2 report the gap `[2]`. */
  lemma OneAndThreeMissTwo()
    ensures Missing([1, 3]) == [2]
  {
    assert Largest([1, 3]) == 3;
    assert MissingBetween([1, 3], 4, 3) == [];
    assert MissingBetween([1, 3], 3, 3) == [];
    assert MissingBetween([1, 3], 2, 3) == [2];
  }

  /** No gap is reported exactly when every number up to the largest occurs. */
  lemma NoGapIffConsecutive(nums: seq<nat>)
    requires nums != []
    ensures Missing(nums) == [] <==> forall x :: 1 <= x <= Largest(nums) ==> x in nums
  {
    var r := Missing(nums);
    if r != [] {
      assert 1 <= r[0] <= Largest(nums) && r[0] !in nums;
    }
  }

  /** Every reported gap names a listed file and a non-empty, strictly
      ascending list of numbers, none of which occurs in the file. */
  lemma {:induction false} GapsWellFormed(fs: FileSystem, files: seq<string>)
    ensures forall g :: g in CitationGaps(fs, files) ==>
      && g.file in files && Read(fs, g.file).Some? && g.missing != []
      && (forall k :: 0 < k < |g.missing| ==> g.missing[k - 1] < g.missing[k])
      && (forall k :: 0 <= k < |g.missing| ==> 1 <= g.missing[k] && g.missing[k] !in Numbers(ReadLines(Read(fs, g.file).value)))
  {
    if files != [] {
      var init := files[..|files| - 1];
      GapsWellFormed(fs, init);
      assert forall f :: f in init ==> f in files;
    }
  }

  // ---------------------------------------------------------------------------
  // list_todos

  /** `word` at `p` with a word boundary on each side (`\bword\b`). */
  predicate MarkerAt(line: string, p: nat, word: string) {
    OccursAt(line, word, p)
    && (p == 0 || !IsWordChar(line[p - 1]))
    && (p + |word| == |line| || !IsWordChar(line[p + |word|]))
  }

  /** `re.search(r"\b(TODO|FIXME)\b", line)` finds something from `p` on. */
  predicate MarkerFrom(line: string, p: nat)
    decreases |line| - p
  {
    p < |line| && (MarkerAt(line, p, "TODO") || MarkerAt(line, p, "FIXME") || MarkerFrom(line, p + 1))
  }

  predicate HasMarker(line: string) { MarkerFrom(line, 0) }

  /** A marker anywhere on the line is found. */
  lemma {:induction false} MarkerFound(line: string, p: nat, word: string)
    requires word == "TODO" || word == "FIXME"
    requires MarkerAt(line, p, word)
    ensures HasMarker(line)
  {
    MarkerFoundFrom(line, 0, p, word);
  }

  lemma {:induction false} MarkerFoundFrom(line: string, q: nat, p: nat, word: string)
    requires word == "TODO" || word == "FIXME"
    requires q <= p && MarkerAt(line, p, word)
    ensures MarkerFrom(line, q)
    decreases p - q
  {
    if q < p {
      MarkerFoundFrom(line, q + 1, p, word);
    }
  }

  /** What is found is a marker. */
  lemma {:induction false} MarkerPosition(line: string, q: nat) returns (p: nat, word: string)
    requires MarkerFrom(line, q)
    ensures q <= p && (word == "TODO" || word == "FIXME") && MarkerAt(line, p, word)
    decreases |line| - q
  {
    if MarkerAt(line, q, "TODO") {
      return q, "TODO";
    } else if MarkerAt(line, q, "FIXME") {
      return q, "FIXME";
    } else {
      p, word := MarkerPosition(line, q + 1);
    }
  }

  datatype Todo = Todo(file: string, lineno: nat, text: string)

  /** The entries of one file: each line with a marker, numbered from 1,
      stripped. */
  function TodosOfLines(md: string, lines: seq<string>): seq<Todo> {
    MarkedLines(md, lines, HasMarker, Strip)
  }

  /** The lines `marked` accepts, numbered from 1, as `clean` leaves them. */
  function MarkedLines(md: string, lines: seq<string>, marked: string -> bool, clean: string -> string): seq<Todo> {
    if lines == [] then []
    else
      var init := MarkedLines(md, lines[..|lines| - 1], marked, clean);
      var line := lines[|lines| - 1];
      if marked(line) then init + [Todo(md, |lines|, clean(line))] else init
  }

  function Todos(fs: FileSystem, files: seq<string>): seq<Todo> {
    if files == [] then []
    else
      var md := files[|files| - 1];
      Todos(fs, files[..|files| - 1]) + (if Read(fs, md).Some? then TodosOfLines(md, ReadLines(Read(fs, md).value)) else [])
  }

  /** `list_todos(md_files)`. */
  method ListTodos(fs: FileSystem, mdFiles: seq<string>) returns (todos: seq<Todo>)
    ensures todos == Todos(fs, mdFiles)
  {
    todos := [];
    for f := 0 to |mdFiles|
      invariant todos == Todos(fs, mdFiles[..f])
    {
      assert mdFiles[..f + 1][..f] == mdFiles[..f];
      var md := mdFiles[f];
      var text := Read(fs, md);
      if text.Some? {
        var found := FileTodos(md, ReadLines(text.value));
        todos := todos + found;
      }
    }
    assert mdFiles[..|mdFiles|] == mdFiles;
  }

  /** The loop over one file's lines. */
  method FileTodos(md: string, lines: seq<string>) returns (todos: seq<Todo>)
    ensures todos == TodosOfLines(md, lines)
  {
    todos := [];
    for i := 0 to |lines|
      invariant todos == TodosOfLines(md, lines[..i])
    {
      assert lines[..i + 1][..i] == lines[..i];
      if HasMarker(lines[i]) {
        todos := todos + [Todo(md, i + 1, Strip(lines[i]))];
      }
    }
    assert lines[..|lines|] == lines;
  }

  function TodoLinenos(todos: seq<Todo>): (r: seq<nat>)
    ensures |r| == |todos|
  {
    if todos == [] then [] else TodoLinenos(todos[..|todos| - 1]) + [todos[|todos| - 1].lineno]
  }

  /** A file's entries come in line order, one per line at most, each with
      its file, its line as `clean` leaves it, and a line `marked` accepts;
      `TodosOfLines` takes `HasMarker` and `Strip`. */
  lemma {:induction false} MarkedLinesOrdered(md: string, lines: seq<string>, marked: string -> bool, clean: string -> string)
    ensures var todos := MarkedLines(md, lines, marked, clean);
      && (forall k :: 0 < k < |todos| ==> todos[k - 1].lineno < todos[k].lineno)
      && (forall k :: 0 <= k < |todos| ==>
            && 1 <= todos[k].lineno <= |lines| && todos[k].file == md
            && marked(lines[todos[k].lineno - 1]) && todos[k].text == clean(lines[todos[k].lineno - 1]))
  {
    if lines != [] {
      var init := lines[..|lines| - 1];
      MarkedLinesOrdered(md, init, marked, clean);
      MarkedLinesStep(md, lines, marked, clean);
      forall k | 0 <= k < |MarkedLines(md, init, marked, clean)|
        ensures MarkedLines(md, lines, marked, clean)[k] == MarkedLines(md, init, marked, clean)[k]
        ensures lines[MarkedLines(md, init, marked, clean)[k].lineno - 1] == init[MarkedLines(md, init, marked, clean)[k].lineno - 1]
      {
      }
    }
  }

  lemma MarkedLinesStep(md: string, lines: seq<string>, marked: string -> bool, clean: string -> string)
    requires lines != []
    ensures var n := |lines|;
      MarkedLines(md, lines, marked, clean)
      == MarkedLines(md, lines[..n - 1], marked, clean) + (if marked(lines[n - 1]) then [Todo(md, n, clean(lines[n - 1]))] else [])
  {
  }

  /** Every line `marked` accepts has its entry, and no other line has one. */
  lemma {:induction false} MarkedLinesComplete(md: string, lines: seq<string>, marked: string -> bool, clean: string -> string)
    ensures var todos := MarkedLines(md, lines, marked, clean);
      forall i :: 0 <= i < |lines| ==> (i + 1 in TodoLinenos(todos) <==> marked(lines[i]))
  {
    if lines != [] {
      var n := |lines|;
      var init := lines[..n - 1];
      MarkedLinesComplete(md, init, marked, clean);
      MarkedLinesOrdered(md, init, marked, clean);
      MarkedLinesStep(md, lines, marked, clean);
      LinenosStep(MarkedLines(md, init, marked, clean), n, marked(lines[n - 1]), Todo(md, n, clean(lines[n - 1])));
      forall i | 0 <= i < n - 1
        ensures lines[i] == init[i]
      {
      }
    }
  }

  /** Appending an entry for line `n`, past every earlier entry, adds `n`
      and nothing else to the line numbers. */
  lemma LinenosStep(before: seq<Todo>, n: nat, add: bool, t: Todo)
    requires t.lineno == n
    requires forall k :: 0 <= k < |before| ==> before[k].lineno < n
    ensures var after := before + (if add then [t] else []);
      forall m :: m in TodoLinenos(after) <==> (m in TodoLinenos(before) || (add && m == n))
    ensures n !in TodoLinenos(before)
  {
    TodoLinenosAt(before);
    if add {
      assert (before + [t])[..|before|] == before;
    } else {
      assert before + [] == before;
    }
  }

  lemma {:induction false} TodoLinenosAt(todos: seq<Todo>)
    ensures forall k :: 0 <= k < |todos| ==> TodoLinenos(todos)[k] == todos[k].lineno
  {
    if todos != [] {
      TodoLinenosAt(todos[..|todos| - 1]);
    }
  }

  // ---------------------------------------------------------------------------
  // check_duplicate_headings

  /** The last position from `j` down to `lo` that `.` can match (anything
      but a line break). */
  function LastNonBreak(line: string, lo: nat, j: nat): (r: Option<nat>)
    requires lo <= j
    ensures r.Some? ==> lo <= r.value <= j && r.value < |line| && line[r.value] != '\n'
    ensures r.None? ==> forall k :: lo <= k <= j && k < |line| ==> line[k] == '\n'
    decreases j - lo
  {
    if j < |line| && line[j] != '\n' then Some(j)
    else if j == lo then None
    else LastNonBreak(line, lo, j - 1)
  }

  /** What `^(#{1,6})\s*(.+)` captures as the title. The hashes are taken
      greedily, at most six, then the blanks greedily; `.+` needs one
      character that is not a line break. Where none follows, the blanks are
      given back one at a time (a blank that is not a line break will do), and
      failing that one hash is given back, so that `.+` starts on it: `"##\n"`
      has the title `"#"`, `"#\n"` has none. */
  function HeadingText(line: string): Option<string> {
    var run := RunOf(line, '#');
    if run == 0 then None
    else
      var h := if run < 6 then run else 6;
      match LastNonBreak(line, h, SkipSpace(line, h))
      case Some(j) => Some(line[j..LineEnd(line, j)])
      case None => if h > 1 then Some(line[h - 1..LineEnd(line, h - 1)]) else None
  }

  /** `match.group(2).strip().lower()`. */
  function Title(line: string): Option<string> {
    match HeadingText(line)
    case Some(t) => Some(Lower(Strip(t)))
    case None => None
  }

  /** `f"{md}:{lineno}"`. */
  function Location(md: string, lineno: nat): string {
    md + ":" + NatToString(lineno)
  }

  /** A later heading and where its title was first seen. */
  datatype Duplicate = Duplicate(file: string, lineno: nat, title: string, first: string)

  /** The `seen` dictionary and the `duplicates` list. */
  datatype Headings = Headings(seen: map<string, string>, duplicates: seq<Duplicate>)

  /** One heading: a title seen before is reported with its first location;
      a new title is recorded with this line's location. */
  function VisitTitle(st: Headings, md: string, lineno: nat, title: Option<string>): Headings {
    match title
    case None => st
    case Some(t) =>
      if t in st.seen then Headings(st.seen, st.duplicates + [Duplicate(md, lineno, t, st.seen[t])])
      else Headings(st.seen[t := Location(md, lineno)], st.duplicates)
  }

  /** The titles of a file's lines, numbered from 1; `None` where a line is
      not a heading. */
  function VisitTitles(st: Headings, md: string, titles: seq<Option<string>>): (r: Headings)
    ensures |st.duplicates| <= |r.duplicates|
  {
    if titles == [] then st
    else VisitTitle(VisitTitles(st, md, titles[..|titles| - 1]), md, |titles|, titles[|titles| - 1])
  }

  function LineTitles(lines: seq<string>): (r: seq<Option<string>>)
    ensures |r| == |lines|
  {
    MapSeq(lines, Title)
  }

  function VisitLines(st: Headings, md: string, lines: seq<string>): Headings {
    VisitTitles(st, md, LineTitles(lines))
  }

  function VisitFiles(st: Headings, fs: FileSystem, files: seq<string>): Headings {
    if files == [] then st
    else
      var before := VisitFiles(st, fs, files[..|files| - 1]);
      var md := files[|files| - 1];
      if Read(fs, md).Some? then VisitLines(before, md, ReadLines(Read(fs, md).value)) else before
  }

  /** `check_duplicate_headings(md_files)`. */
  method CheckDuplicateHeadings(fs: FileSystem, mdFiles: seq<string>) returns (duplicates: seq<Duplicate>)
    ensures duplicates == VisitFiles(Headings(map[], []), fs, mdFiles).duplicates
  {
    var seen: map<string, string> := map[];
    duplicates := [];
    for f := 0 to |mdFiles|
      invariant Headings(seen, duplicates) == VisitFiles(Headings(map[], []), fs, mdFiles[..f])
    {
      assert mdFiles[..f + 1][..f] == mdFiles[..f];
      var md := mdFiles[f];
      var text := Read(fs, md);
      if text.Some? {
        seen, duplicates := CheckFileHeadings(seen, duplicates, md, ReadLines(text.value));
      }
    }
    assert mdFiles[..|mdFiles|] == mdFiles;
  }

  /** The loop over one file's lines. */
  method CheckFileHeadings(seen0: map<string, string>, duplicates0: seq<Duplicate>, md: string, lines: seq<string>)
    returns (seen: map<string, string>, duplicates: seq<Duplicate>)
    ensures Headings(seen, duplicates) == VisitLines(Headings(seen0, duplicates0), md, lines)
  {
    seen, duplicates := seen0, duplicates0;
    ghost var titles := LineTitles(lines);
    for i := 0 to |lines|
      invariant Headings(seen, duplicates) == VisitTitles(Headings(seen0, duplicates0), md, titles[..i])
    {
      assert titles[..i + 1][..i] == titles[..i];
      MapSeqAt(lines, Title, i);
      seen, duplicates := CheckHeading(seen, duplicates, md, i + 1, Title(lines[i]));
    }
    assert titles[..|lines|] == titles;
  }

  /** The body of the loop over a file's lines. */
  method CheckHeading(seen0: map<string, string>, duplicates0: seq<Duplicate>, md: string, lineno: nat, title: Option<string>)
    returns (seen: map<string, string>, duplicates: seq<Duplicate>)
    ensures Headings(seen, duplicates) == VisitTitle(Headings(seen0, duplicates0), md, lineno, title)
  {
    seen, duplicates := seen0, duplicates0;
    if title.Some? {
      var ref := Location(md, lineno);
      if title.value in seen {
        duplicates := duplicates + [Duplicate(md, lineno, title.value, seen[title.value])];
      } else {
        seen := seen[title.value := ref];
      }
    }
  }

  // Properties of check_duplicate_headings

  /** Every reported duplicate points at the location recorded for its title. */
  predicate PointsToFirst(st: Headings) {
    forall k :: 0 <= k < |st.duplicates| ==>
      st.duplicates[k].title in st.seen && st.duplicates[k].first == st.seen[st.duplicates[k].title]
  }

  /** `st` grows into `r`: no recorded location is ever overwritten and the
      report only grows at its end. */
  predicate Extends(st: Headings, r: Headings) {
    && (forall t :: t in st.seen ==> t in r.seen && r.seen[t] == st.seen[t])
    && st.duplicates <= r.duplicates
  }

  /** The titles among a file's lines. */
  function Titles(titles: seq<Option<string>>): set<string> {
    if titles == [] then {}
    else
      Titles(titles[..|titles| - 1])
      + (match titles[|titles| - 1] case Some(t) => {t} case None => {})
  }

  function Linenos(ds: seq<Duplicate>): seq<nat> {
    seq(|ds|, k requires 0 <= k < |ds| => ds[k].lineno)
  }

  /** Scanning a file keeps every recorded location and records exactly its
      new titles. */
  lemma {:induction false} VisitTitlesExtends(st: Headings, md: string, titles: seq<Option<string>>)
    ensures Extends(st, VisitTitles(st, md, titles))
    ensures VisitTitles(st, md, titles).seen.Keys == st.seen.Keys + Titles(titles)
  {
    if titles != [] {
      VisitTitlesExtends(st, md, titles[..|titles| - 1]);
    }
  }

  /** Duplicates keep pointing at first locations. */
  lemma {:induction false} VisitTitlesPointsToFirst(st: Headings, md: string, titles: seq<Option<string>>)
    requires PointsToFirst(st)
    ensures PointsToFirst(VisitTitles(st, md, titles))
  {
    if titles != [] {
      VisitTitlesPointsToFirst(st, md, titles[..|titles| - 1]);
    }
  }

  /** A file's duplicates name it and come in ascending line order. */
  lemma {:induction false} VisitTitlesOrdered(st: Headings, md: string, titles: seq<Option<string>>)
    ensures forall k :: |st.duplicates| <= k < |VisitTitles(st, md, titles).duplicates| ==>
      VisitTitles(st, md, titles).duplicates[k].file == md && 1 <= VisitTitles(st, md, titles).duplicates[k].lineno <= |titles|
    ensures forall k :: |st.duplicates| < k < |VisitTitles(st, md, titles).duplicates| ==>
      VisitTitles(st, md, titles).duplicates[k - 1].lineno < VisitTitles(st, md, titles).duplicates[k].lineno
  {
    if titles != [] {
      var init := titles[..|titles| - 1];
      VisitTitlesOrdered(st, md, init);
      var before := VisitTitles(st, md, init);
      var r := VisitTitles(st, md, titles);
      assert r == VisitTitle(before, md, |titles|, titles[|titles| - 1]);
      if r.duplicates != before.duplicates {
        assert r.duplicates == before.duplicates + [r.duplicates[|r.duplicates| - 1]];
      }
    }
  }

  /** A line of a file is reported exactly when it is a heading whose title
      was recorded before the file or on an earlier line: the first heading
      with a title is never reported, every later one is. */
  lemma {:induction false} ReportedIffSeenBefore(st: Headings, md: string, titles: seq<Option<string>>, i: nat)
    requires i < |titles|
    ensures var r := VisitTitles(st, md, titles);
      (i + 1 in Linenos(r.duplicates[|st.duplicates|..]))
      <==> (titles[i].Some? && titles[i].value in st.seen.Keys + Titles(titles[..i]))
  {
    var init := titles[..|titles| - 1];
    var before := VisitTitles(st, md, init);
    var r := VisitTitles(st, md, titles);
    var old_ := before.duplicates[|st.duplicates|..];
    var new_ := r.duplicates[|st.duplicates|..];
    var n := |titles|;
    assert r == VisitTitle(before, md, n, titles[n - 1]);
    if new_ != old_ {
      assert new_ == old_ + [r.duplicates[|r.duplicates| - 1]];
      assert r.duplicates[|r.duplicates| - 1].lineno == n;
      assert Linenos(new_) == Linenos(old_) + [n];
    } else {
      assert Linenos(new_) == Linenos(old_);
    }
    if i < |init| {
      ReportedIffSeenBefore(st, md, init, i);
      assert init[i] == titles[i] && init[..i] == titles[..i];
    } else {
      assert init == titles[..i];
      VisitTitlesOrdered(st, md, init);
      VisitTitlesExtends(st, md, init);
      forall k | 0 <= k < |old_|
        ensures old_[k].lineno < n
      {
        assert old_[k] == before.duplicates[|st.duplicates| + k];
      }
      assert n !in Linenos(old_);
    }
  }

  /** Across the files, no recorded location is overwritten and every
      duplicate points at the first location of its title. */
  lemma {:induction false} VisitFilesKeeps(st: Headings, fs: FileSystem, files: seq<string>)
    requires PointsToFirst(st)
    ensures Extends(st, VisitFiles(st, fs, files))
    ensures PointsToFirst(VisitFiles(st, fs, files))
  {
    if files != [] {
      var init := files[..|files| - 1];
      VisitFilesKeeps(st, fs, init);
      var before := VisitFiles(st, fs, init);
      var md := files[|files| - 1];
      if Read(fs, md).Some? {
        var titles := LineTitles(ReadLines(Read(fs, md).value));
        VisitTitlesExtends(before, md, titles);
        VisitTitlesPointsToFirst(before, md, titles);
      }
    }
  }

  /** A heading with title `t` on a file's only line. */
  lemma OneHeading(st: Headings, md: string, t: string)
    ensures VisitTitles(st, md, [Some(t)]) == VisitTitle(st, md, 1, Some(t))
  {
    assert [Some(t)][..0] == [];
  }

  /** `md` can be read and has the one line `line`. */
  predicate OneLineFile(fs: FileSystem, md: string, line: string) {
    Read(fs, md).Some? && ReadLines(Read(fs, md).value) == [line]
  }

  lemma VisitFilesStep(st: Headings, fs: FileSystem, files: seq<string>, line: string)
    requires files != []
    requires OneLineFile(fs, files[|files| - 1], line)
    ensures VisitFiles(st, fs, files) == VisitTitles(VisitFiles(st, fs, files[..|files| - 1]), files[|files| - 1], [Title(line)])
  {
    MapSeqAt([line], Title, 0);
  }

  /** The last of `files` has one line, with title `t`. */
  lemma OneTitleFile(st: Headings, fs: FileSystem, files: seq<string>, line: string, t: string)
    requires files != []
    requires OneLineFile(fs, files[|files| - 1], line)
    requires Title(line) == Some(t)
    ensures VisitFiles(st, fs, files) == VisitTitle(VisitFiles(st, fs, files[..|files| - 1]), files[|files| - 1], 1, Some(t))
  {
    VisitFilesStep(st, fs, files, line);
    OneHeading(VisitFiles(st, fs, files[..|files| - 1]), files[|files| - 1], t);
  }

  /** A second file with the title recorded by the first is reported. */
  lemma SecondTitleReported(fs: FileSystem, a: string, b: string, lineB: string, t: string)
    requires OneLineFile(fs, b, lineB) && Title(lineB) == Some(t)
    requires VisitFiles(Headings(map[], []), fs, [a]) == VisitTitle(Headings(map[], []), a, 1, Some(t))
    ensures VisitFiles(Headings(map[], []), fs, [a, b]).duplicates == [Duplicate(b, 1, t, Location(a, 1))]
  {
    var h0 := Headings(map[], []);
    OneTitleFile(h0, fs, [a, b], lineB, t);
    assert [a, b][..1] == [a];
    TitleTwice(a, b, t);
  }

  /** The same title twice from the empty state: the second is the duplicate. */
  lemma TitleTwice(a: string, b: string, t: string)
    ensures var h0 := Headings(map[], []);
      VisitTitle(VisitTitle(h0, a, 1, Some(t)), b, 1, Some(t)).duplicates == [Duplicate(b, 1, t, Location(a, 1))]
  {
    var h1 := VisitTitle(Headings(map[], []), a, 1, Some(t));
    assert h1.seen == map[t := Location(a, 1)] && h1.duplicates == [];
  }

  /** The same title in two one-line files: the second is reported with
      the location of the first. */
  lemma SameTitleInTwoFiles(fs: FileSystem, a: string, b: string, lineA: string, lineB: string, t: string)
    requires OneLineFile(fs, a, lineA) && Title(lineA) == Some(t)
    requires OneLineFile(fs, b, lineB) && Title(lineB) == Some(t)
    ensures VisitFiles(Headings(map[], []), fs, [a, b]).duplicates == [Duplicate(b, 1, t, Location(a, 1))]
  {
    OneTitleFile(Headings(map[], []), fs, [a], lineA, t);
    assert [a][..0] == [];
    SecondTitleReported(fs, a, b, lineB, t);
  }

  /** `<hashes> <title>` with one to six hashes has the stripped, lowered
      title. */
  lemma HeadingLine(hashes: string, title: string)
    requires 1 <= |hashes| <= 6 && forall k :: 0 <= k < |hashes| ==> hashes[k] == '#'
    requires title != [] && !IsSpace(title[0]) && title[0] != '#'
    requires forall k :: 0 <= k < |title| ==> title[k] != '\n'
    ensures HeadingText(hashes + " " + title + "\n") == Some(title)
    ensures Title(hashes + " " + title + "\n") == Some(Lower(Strip(title)))
  {
    var line := hashes + " " + title + "\n";
    var h := |hashes|;
    assert forall k :: 0 <= k < h ==> line[k] == hashes[k];
    assert line[h] == ' ' && line[h + 1] == title[0];
    RunOfExact(line, '#', h);
    SkipSpaceAt(line, h, h + 1);
    var e := h + 1 + |title|;
    assert forall k :: h + 1 <= k < e ==> line[k] == title[k - (h + 1)];
    assert line[e] == '\n';
    LineEndAt(line, h + 1, e);
    assert line[h + 1..e] == title;
  }

  /** The backtracking cases: `"##\n"` has the title `"#"`, `"#\n"` none. */
  lemma BareHashes()
    ensures HeadingText("##\n") == Some("#")
    ensures HeadingText("#\n") == None
  {
    RunOfExact("##\n", '#', 2);
    RunOfExact("#\n", '#', 1);
    assert SkipSpace("##\n", 2) == 3;
    assert LastNonBreak("##\n", 2, 2) == None;
    assert LastNonBreak("##\n", 2, 3) == None;
    assert LineEnd("##\n", 2) == 2;
    assert LineEnd("##\n", 1) == 2;
    assert "##\n"[1..2] == "#";
    assert SkipSpace("#\n", 1) == 2;
    assert LastNonBreak("#\n", 1, 1) == None;
    assert LastNonBreak("#\n", 1, 2) == None;
  }
}
