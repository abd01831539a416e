/** `parse_summary` of `utils.py`: the chapter files a `SUMMARY.md` lists, in
    the order it lists them. */
module Summary {
  import opened Wrappers
  import opened Text
  import opened Files
  import opened Paths

  /** A `.md` target right after `](` at `p`: up to the first `)` after it,
      at least one character and then `.md` (`\(([^)]+\.md)\)`). */
  function TargetAt(line: string, p: nat): (r: Option<string>)
    ensures r.Some? ==> p + 2 + |r.value| < |line| && line[p + 2 + |r.value|] == ')'
    ensures r.Some? ==> OccursAt(line, "](", p) && r.value == line[p + 2..p + 2 + |r.value|]
  {
    if OccursAt(line, "](", p) then
      var q := IndexFrom(line, ')', p + 2);
      if q < |line| && q - (p + 2) >= 4 && OccursAt(line, ".md", q - 3) then Some(line[p + 2..q]) else None
    else None
  }

  /** The greedy `.*` of `\[.*\]`: the last `](` from `p` down to `lo` that
      is followed by a target. */
  function LastTarget(line: string, lo: nat, p: nat): Option<string>
    requires lo <= p
    decreases p - lo
  {
    if TargetAt(line, p).Some? then TargetAt(line, p)
    else if p == lo then None
    else LastTarget(line, lo, p - 1)
  }

  /** What `re.match(r"\s*\*+\s*\[.*\]\(([^)]+\.md)\)", line)` captures:
      blanks, one or more `*`, blanks, `[`, then the bracketed title up to the
      last `](` on the line that a target follows. */
  function LinkTarget(line: string): Option<string> {
    var i := SkipSpace(line, 0);
    var stars := RunOf(line[i..], '*');
    if stars == 0 then None
    else
      var b := SkipSpace(line, i + stars);
      if b < |line| && line[b] == '[' then LastTarget(line, b + 1, LineEnd(line, b + 1)) else None
  }

  /** The files `parse_summary` returns for the lines of the summary. */
  function SummaryFiles(lines: seq<string>, base: string, paths: PathOps): seq<string> {
    if lines == [] then []
    else
      var init := SummaryFiles(lines[..|lines| - 1], base, paths);
      match LinkTarget(lines[|lines| - 1])
      case Some(t) => init + [paths.join(base, t)]
      case None => init
  }

  /** `parse_summary(summary_path)`: `None` where reading the summary fails
      (the source logs and calls `sys.exit(1)`). */
  method ParseSummary(fs: FileSystem, summaryPath: string, paths: PathOps) returns (r: Option<seq<string>>)
    ensures Read(fs, summaryPath).None? <==> r.None?
    ensures r.Some? ==> r.value == SummaryFiles(ReadLines(Read(fs, summaryPath).value), paths.dirname(summaryPath), paths)
  {
    var base := paths.dirname(summaryPath);
    var text := Read(fs, summaryPath);
    if text.None? {
      return None;
    }
    var lines := ReadLines(text.value);
    var files := [];
    var i := 0;
    while i < |lines|
      invariant 0 <= i <= |lines|
      invariant files == SummaryFiles(lines[..i], base, paths)
    {
      SummaryFilesSnoc(lines, i, base, paths);
      var target := LinkTarget(lines[i]);
      if target.Some? {
        files := files + [paths.join(base, target.value)];
      }
      i := i + 1;
    }
    assert lines[..i] == lines;
    return Some(files);
  }

  // ---------------------------------------------------------------------------
  // Properties

  /** One more line adds its target, if it has one. */
  lemma SummaryFilesSnoc(lines: seq<string>, i: nat, base: string, paths: PathOps)
    requires i < |lines|
    ensures SummaryFiles(lines[..i + 1], base, paths) ==
      SummaryFiles(lines[..i], base, paths) + (if LinkTarget(lines[i]).Some? then [paths.join(base, LinkTarget(lines[i]).value)] else [])
  {
    assert lines[..i + 1][..i] == lines[..i];
  }

  /** A captured target is a `.md` name with no `)` in it, closed by `)`. */
  lemma {:induction false} TargetShape(line: string, lo: nat, p: nat)
    requires lo <= p
    requires LastTarget(line, lo, p).Some?
    ensures var t := LastTarget(line, lo, p).value;
      && |t| >= 4 && EndsWith(t, ".md")
      && (forall k :: 0 <= k < |t| ==> t[k] != ')')
    decreases p - lo
  {
    if TargetAt(line, p).None? {
      TargetShape(line, lo, p - 1);
    } else {
      var q := IndexFrom(line, ')', p + 2);
      assert line[q - 3..q] == ".md";
    }
  }

  /** The match takes the last suitable `](` when none after it has a target. */
  lemma {:induction false} LastTargetAt(line: string, lo: nat, p: nat, hi: nat)
    requires lo <= p <= hi
    requires TargetAt(line, p).Some?
    requires forall m :: p < m <= hi ==> TargetAt(line, m).None?
    ensures LastTarget(line, lo, hi) == TargetAt(line, p)
    decreases hi - p
  {
    if p < hi {
      LastTargetAt(line, lo, p, hi - 1);
    }
  }

  /** The files come in the order of the lines that list them. */
  lemma {:induction false} SummaryFilesAppend(a: seq<string>, b: seq<string>, base: string, paths: PathOps)
    ensures SummaryFiles(a + b, base, paths) == SummaryFiles(a, base, paths) + SummaryFiles(b, base, paths)
    decreases |b|
  {
    if b != [] {
      var init := b[..|b| - 1];
      assert (a + b)[..|a + b| - 1] == a + init;
      assert (a + b)[|a + b| - 1] == b[|b| - 1];
      SummaryFilesAppend(a, init, base, paths);
    } else {
      assert a + b == a;
    }
  }

  /** The target right after `](` at `p`, closed by `)` at the end of the line. */
  lemma TargetAtEnd(line: string, p: nat, target: string)
    requires |target| >= 4 && EndsWith(target, ".md")
    requires forall k :: 0 <= k < |target| ==> target[k] != ')'
    requires OccursAt(line, "](", p)
    requires p + 2 + |target| < |line| && line[p + 2 + |target|] == ')'
    requires line[p + 2..p + 2 + |target|] == target
    ensures TargetAt(line, p) == Some(target)
  {
    var q := p + 2 + |target|;
    forall k | p + 2 <= k < q
      ensures line[k] != ')'
    {
      assert line[k] == target[k - (p + 2)];
    }
    assert IndexFrom(line, ')', p + 2) == q;
    assert line[q - 3..q] == target[|target| - 3..];
  }

  /** Blanks, `* [` at `i`: the title starts at `i + 3`. */
  lemma EntryStart(line: string, i: nat, e: nat)
    requires i + 3 <= |line| && LineEnd(line, i + 3) == e
    requires forall k :: 0 <= k < i ==> line[k] == ' '
    requires line[i] == '*' && line[i + 1] == ' ' && line[i + 2] == '['
    ensures LinkTarget(line) == LastTarget(line, i + 3, e)
  {
    SkipSpaceAt(line, 0, i);
    assert line[i..][0] == '*' && line[i..][1] == ' ';
    RunOfExact(line[i..], '*', 1);
    SkipSpaceAt(line, i + 1, i + 2);
  }

  /** No `](` after `p` on the line is followed by a target. */
  lemma NoLaterTarget(line: string, p: nat, target: string)
    requires forall k :: 0 <= k < |target| ==> target[k] != ']'
    requires p + 2 + |target| + 2 == |line|
    requires OccursAt(line, "](", p) && line[p + 2..p + 2 + |target|] == target
    requires line[p + 2 + |target|] == ')' && line[p + 3 + |target|] == '\n'
    ensures forall m :: p < m <= p + 3 + |target| ==> TargetAt(line, m).None?
  {
    assert line[p + 1] == line[p..p + 2][1] == '(';
    forall m | p < m <= p + 3 + |target|
      ensures TargetAt(line, m).None?
    {
      if p + 2 <= m < p + 2 + |target| {
        assert line[m] == target[m - (p + 2)];
      }
      assert line[m] != ']';
      assert m + 2 <= |line| ==> line[m..m + 2][0] == line[m];
    }
  }

  /** A line laid out as blanks, `* [`, a title without newlines, and
      `](target)` closing the line, lists `target`. */
  lemma EntryTarget(line: string, i: nat, p: nat, target: string)
    requires |target| >= 4 && EndsWith(target, ".md")
    requires forall k :: 0 <= k < |target| ==> target[k] != ')' && target[k] != ']' && target[k] != '\n'
    requires i + 3 <= p && |line| == p + 2 + |target| + 2
    requires forall k :: 0 <= k < i ==> line[k] == ' '
    requires line[i] == '*' && line[i + 1] == ' ' && line[i + 2] == '['
    requires forall k :: i + 3 <= k < p ==> line[k] != '\n'
    requires OccursAt(line, "](", p) && line[p + 2..p + 2 + |target|] == target
    requires line[p + 2 + |target|] == ')' && line[p + 3 + |target|] == '\n'
    ensures LinkTarget(line) == Some(target)
  {
    var e := p + 3 + |target|;
    EntryLineEnd(line, i, p, target);
    EntryStart(line, i, e);
    TargetAtEnd(line, p, target);
    NoLaterTarget(line, p, target);
    LastTargetAt(line, i + 3, p, e);
  }

  /** Nothing before the `)` that closes the target ends the line. */
  lemma EntryLineEnd(line: string, i: nat, p: nat, target: string)
    requires forall k :: 0 <= k < |target| ==> target[k] != '\n'
    requires i + 3 <= p && |line| == p + 2 + |target| + 2
    requires forall k :: i + 3 <= k < p ==> line[k] != '\n'
    requires OccursAt(line, "](", p) && line[p + 2..p + 2 + |target|] == target
    requires line[p + 2 + |target|] == ')' && line[p + 3 + |target|] == '\n'
    ensures LineEnd(line, i + 3) == p + 3 + |target|
  {
    var q := p + 2 + |target|;
    assert line[p] == line[p..p + 2][0] && line[p + 1] == line[p..p + 2][1];
    forall k | p + 2 <= k < q
      ensures line[k] != '\n'
    {
      assert line[k] == target[k - (p + 2)];
    }
    LineEndAt(line, i + 3, q + 1);
  }

  /** A summary entry `  * [Title](dir/file.md)` lists `dir/file.md`, relative
      to the summary's directory. */
  lemma SummaryEntry(indent: string, title: string, target: string, paths: PathOps, base: string)
    requires forall k :: 0 <= k < |indent| ==> indent[k] == ' '
    requires forall k :: 0 <= k < |title| ==> title[k] != '\n'
    requires |target| >= 4 && EndsWith(target, ".md")
    requires forall k :: 0 <= k < |target| ==> target[k] != ')' && target[k] != ']' && target[k] != '\n'
    ensures LinkTarget(indent + "* [" + title + "](" + target + ")\n") == Some(target)
    ensures SummaryFiles([indent + "* [" + title + "](" + target + ")\n"], base, paths) == [paths.join(base, target)]
  {
    var line := indent + "* [" + title + "](" + target + ")\n";
    var i := |indent|;
    var p := i + 3 + |title|;
    var q := p + 2 + |target|;
    assert line == indent + ("* [" + title) + ("](" + target + ")\n");
    assert forall k :: 0 <= k < i ==> line[k] == indent[k];
    assert forall k :: 0 <= k < |title| ==> line[i + 3 + k] == title[k];
    assert line[p..] == "](" + target + ")\n";
    assert line[p..p + 2] == "](";
    assert line[p + 2..q] == target;
    EntryTarget(line, i, p, target);
    assert [line][..0] == [];
  }
}
