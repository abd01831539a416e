/** The line scanner of `source_extract.py`: a sources heading opens a
    section, a shallower or equal heading closes it, and every list line in
    an open section becomes a reference record
    (`extract_sources_of_a_md_file_to_dict`); several files are collected
    into one dict (`extract_sources_to_dict`) and written as CSV rows
    (`extract_sources`). */
module SourceExtract {
  import opened Text
  import opened Files
  import opened Wrappers
  import opened ListItems
  import opened SourceHeadings
  import opened SourceFields

  /** The scanner builds its heading pattern with the defaults
      `language="de"`, `max_level=6`. */
  const ScanLanguage: Option<string> := Some("de")
  const ScanMaxLevel: nat := 6

  /** `in_section` together with `level`: `level` is set exactly when a
      sources heading has been seen. */
  datatype Section = Outside | Inside(level: nat)

  /** What the loop body looks at in one line: its sources-heading level, its
      leading `#` run (positive exactly when the line starts with `#`), and
      the record it yields when it is a list line. */
  datatype LineFacts = LineFacts(heading: Option<nat>, hashes: nat, record: Option<NamedReference>)

  function Facts(line: string, lineno: nat): (f: LineFacts)
    ensures f.heading.Some? ==> 1 <= f.heading.value <= ScanMaxLevel && f.heading.value == f.hashes
    ensures f.hashes > 0 <==> |line| > 0 && line[0] == '#'
  {
    LineFacts(
      HeaderLevel(line, ScanLanguage, ScanMaxLevel),
      RunOf(line, '#'),
      if StartsItemAt(line, 0) then Some(BuildReference(line, lineno)) else None)
  }

  /** The facts of every line, numbered from 1. */
  function FactsOf(lines: seq<string>): (facts: seq<LineFacts>)
    ensures |facts| == |lines|
  {
    PerLine(lines, Facts)
  }

  /** `f(line, n)` for every line, numbered from 1. */
  function PerLine<T>(lines: seq<string>, f: (string, nat) -> T): (r: seq<T>)
    ensures |r| == |lines|
  {
    if lines == [] then []
    else PerLine(lines[..|lines| - 1], f) + [f(lines[|lines| - 1], |lines|)]
  }

  lemma PerLineAt<T>(lines: seq<string>, f: (string, nat) -> T, i: nat)
    requires i < |lines|
    ensures PerLine(lines, f)[i] == f(lines[i], i + 1)
  {
    var init := lines[..|lines| - 1];
    if i < |init| {
      PerLineAt(init, f, i);
      assert lines[i] == init[i];
    }
  }

  /** The facts of line `i` as the loop body computes them. */
  lemma FactsOfLine(lines: seq<string>, i: nat)
    requires i < |lines|
    ensures FactsOf(lines)[i].heading == HeaderLevel(lines[i], ScanLanguage, ScanMaxLevel)
    ensures FactsOf(lines)[i].hashes == RunOf(lines[i], '#')
    ensures FactsOf(lines)[i].record.Some? <==> StartsItemAt(lines[i], 0)
    ensures StartsItemAt(lines[i], 0) ==> FactsOf(lines)[i].record.value == BuildReference(lines[i], i + 1)
  {
    FactsOfAt(lines, i);
  }

  lemma FactsOfAt(lines: seq<string>, i: nat)
    requires i < |lines|
    ensures FactsOf(lines)[i] == Facts(lines[i], i + 1)
  {
    PerLineAt(lines, Facts, i);
  }

  /** A line that ends the section: it starts with `#`, is not a sources
      heading, and its `#` run is at most the section's level. */
  predicate EndsSection(f: LineFacts, level: nat) {
    f.heading.None? && 0 < f.hashes <= level
  }

  /** The references the scan collects from line index `i` on, in state `sec`:
      a sources heading (re)opens the section, a line that ends the section
      stops the scan, and a list line in a section yields its record. */
  function Scan(facts: seq<LineFacts>, i: nat, sec: Section): seq<NamedReference>
    requires i <= |facts|
    decreases |facts| - i
  {
    if i == |facts| then []
    else
      var f := facts[i];
      if f.heading.Some? then Scan(facts, i + 1, Inside(f.heading.value))
      else if sec.Inside? && EndsSection(f, sec.level) then []
      else if sec.Inside? && f.record.Some? then [f.record.value] + Scan(facts, i + 1, sec)
      else Scan(facts, i + 1, sec)
  }

  /** The references of a file's text. */
  function FileReferences(text: string): seq<NamedReference> {
    Scan(FactsOf(ReadLines(text)), 0, Outside)
  }

  /** `extract_sources_of_a_md_file_to_dict(md_file)`: an empty path or a
      file that cannot be opened gives `{}`, otherwise the file's own key
      holds its references (possibly none). */
  method ExtractSourcesOfFile(fs: FileSystem, mdFile: string) returns (sources: map<string, seq<NamedReference>>)
    ensures mdFile == [] || Read(fs, mdFile).None? ==> sources == map[]
    ensures mdFile != [] && Read(fs, mdFile).Some? ==>
      sources == map[mdFile := FileReferences(Read(fs, mdFile).value)]
  {
    sources := map[];
    if mdFile != [] {
      var text := Read(fs, mdFile);
      if text.None? {
        return map[];
      }
      var lines := ReadLines(text.value);
      var found := ScanLines(lines);
      sources := sources[mdFile := found];
    }
  }

  /** The loop of `extract_sources_of_a_md_file_to_dict` over the lines read;
      `found` is the list stored under the file's key. */
  method ScanLines(lines: seq<string>) returns (found: seq<NamedReference>)
    ensures found == Scan(FactsOf(lines), 0, Outside)
  {
    ghost var facts := FactsOf(lines);
    ghost var total := Scan(facts, 0, Outside);
    var sec := Outside;
    found := [];
    var i := 0;
    while i < |lines|
      invariant i <= |lines|
      invariant found + Scan(facts, i, sec) == total
    {
      ghost var before := sec;
      ScanStep(facts, i, sec);
      var stop, entry;
      sec, stop, entry := ScanLine(lines, i, sec);
      if stop {
        assert found + [] == found;
        return;
      }
      if entry.Some? {
        ghost var rest := Scan(facts, i + 1, sec);
        assert found + ([entry.value] + rest) == found + [entry.value] + rest;
        found := found + [entry.value];
      }
      i := i + 1;
    }
    assert found + [] == found;
  }

  /** One step of the scan at `facts[i]`. */
  lemma ScanStep(facts: seq<LineFacts>, i: nat, sec: Section)
    requires i < |facts|
    ensures var f := facts[i];
      Scan(facts, i, sec) ==
        if f.heading.Some? then Scan(facts, i + 1, Inside(f.heading.value))
        else if sec.Inside? && EndsSection(f, sec.level) then []
        else if sec.Inside? && f.record.Some? then [f.record.value] + Scan(facts, i + 1, sec)
        else Scan(facts, i + 1, sec)
  {
  }

  /** The body of the loop for line `i`: the section after it, whether the
      scan stops at it, and the record it yields. */
  method ScanLine(lines: seq<string>, i: nat, sec: Section)
    returns (next: Section, stop: bool, entry: Option<NamedReference>)
    requires i < |lines|
    ensures var f := FactsOf(lines)[i];
      && (stop <==> f.heading.None? && sec.Inside? && EndsSection(f, sec.level))
      && next == (if f.heading.Some? then Inside(f.heading.value) else sec)
      && entry == (if f.heading.None? && sec.Inside? && !EndsSection(f, sec.level) then f.record else None)
  {
    FactsOfAt(lines, i);
    var line := lines[i];
    var lineno := i + 1;
    next, stop, entry := sec, false, None;
    var header := HeaderLevel(line, ScanLanguage, ScanMaxLevel);
    if header.Some? {
      next := Inside(header.value);
      return;
    }
    if sec.Inside? && |line| > 0 && line[0] == '#' {
      var current := RunOf(line, '#');
      if current <= sec.level {
        stop := true;
        return;
      }
    }
    if sec.Inside? && StartsItemAt(line, 0) {
      entry := Some(BuildReference(line, lineno));
    }
  }

  // ---------------------------------------------------------------------------
  // What the scan collects

  /** Every record sits on the line whose 1-based number it carries. */
  predicate Numbered(facts: seq<LineFacts>) {
    forall k :: 0 <= k < |facts| && facts[k].record.Some? ==> facts[k].record.value.ref.lineno == k + 1
  }

  lemma FactsNumbered(lines: seq<string>)
    ensures Numbered(FactsOf(lines))
  {
    forall k | 0 <= k < |lines| && FactsOf(lines)[k].record.Some?
      ensures FactsOf(lines)[k].record.value.ref.lineno == k + 1
    {
      FactsOfAt(lines, k);
    }
  }

  /** The records of the list lines among `facts[i..j]`, ignoring headings:
      the reference definition for the body of a section. */
  function ListLines(facts: seq<LineFacts>, i: nat, j: nat): seq<NamedReference>
    requires i <= j <= |facts|
    decreases j - i
  {
    if i == j then [] else Records(facts[i]) + ListLines(facts, i + 1, j)
  }

  /** The record of a line, if it has one. */
  function Records(f: LineFacts): seq<NamedReference> {
    if f.record.Some? then [f.record.value] else []
  }

  /** One line of a section body: its record, then the scan of the rest. */
  lemma InsideStep(facts: seq<LineFacts>, i: nat, l: nat)
    requires i < |facts| && facts[i].heading.None? && !EndsSection(facts[i], l)
    ensures Scan(facts, i, Inside(l)) == Records(facts[i]) + Scan(facts, i + 1, Inside(l))
  {
    ScanStep(facts, i, Inside(l));
  }

  /** The `n`-th collected record is the record of a line after `i`, and it
      carries that line's 1-based number. */
  lemma {:induction false} ScanRecordIsLine(facts: seq<LineFacts>, i: nat, sec: Section, n: nat)
    requires Numbered(facts)
    requires i <= |facts| && n < |Scan(facts, i, sec)|
    ensures i < Scan(facts, i, sec)[n].ref.lineno <= |facts|
    ensures facts[Scan(facts, i, sec)[n].ref.lineno - 1].record == Some(Scan(facts, i, sec)[n])
    decreases |facts| - i
  {
    var f := facts[i];
    if f.heading.Some? {
      ScanRecordIsLine(facts, i + 1, Inside(f.heading.value), n);
    } else if sec.Inside? && EndsSection(f, sec.level) {
    } else if sec.Inside? && f.record.Some? {
      if n > 0 {
        ScanRecordIsLine(facts, i + 1, sec, n - 1);
      }
    } else {
      ScanRecordIsLine(facts, i + 1, sec, n);
    }
  }

  /** The records follow the file's line order. */
  lemma {:induction false} ScanInLineOrder(facts: seq<LineFacts>, i: nat, sec: Section, a: nat, b: nat)
    requires Numbered(facts)
    requires i <= |facts| && a < b < |Scan(facts, i, sec)|
    ensures Scan(facts, i, sec)[a].ref.lineno < Scan(facts, i, sec)[b].ref.lineno
    decreases |facts| - i
  {
    var f := facts[i];
    if f.heading.Some? {
      ScanInLineOrder(facts, i + 1, Inside(f.heading.value), a, b);
    } else if sec.Inside? && EndsSection(f, sec.level) {
    } else if sec.Inside? && f.record.Some? {
      if a > 0 {
        ScanInLineOrder(facts, i + 1, sec, a - 1, b - 1);
      } else {
        ScanRecordIsLine(facts, i + 1, sec, b - 1);
      }
    } else {
      ScanInLineOrder(facts, i + 1, sec, a, b);
    }
  }

  /** Lines before the first sources heading yield nothing: the scan from `i`
      outside a section is the scan from the first heading on. */
  lemma {:induction false} NothingBeforeHeading(facts: seq<LineFacts>, i: nat, h: nat)
    requires i <= h <= |facts|
    requires forall k :: i <= k < h ==> facts[k].heading.None?
    ensures Scan(facts, i, Outside) == Scan(facts, h, Outside)
    decreases h - i
  {
    if i < h {
      NothingBeforeHeading(facts, i + 1, h);
    }
  }

  /** A file without a sources heading has no references. */
  lemma NoHeadingNoReferences(facts: seq<LineFacts>)
    requires forall k :: 0 <= k < |facts| ==> facts[k].heading.None?
    ensures Scan(facts, 0, Outside) == []
  {
    NothingBeforeHeading(facts, 0, |facts|);
  }

  /** Inside a section of level `l`, over lines that neither reopen nor end
      it, the scan collects exactly the list lines, in order. */
  lemma {:induction false} SectionBody(facts: seq<LineFacts>, i: nat, j: nat, l: nat)
    requires i <= j <= |facts|
    requires forall k :: i <= k < j ==> facts[k].heading.None? && !EndsSection(facts[k], l)
    ensures Scan(facts, i, Inside(l)) == ListLines(facts, i, j) + Scan(facts, j, Inside(l))
    decreases j - i
  {
    if i < j {
      SectionBody(facts, i + 1, j, l);
      InsideStep(facts, i, l);
      Regroup(Records(facts[i]), ListLines(facts, i + 1, j), Scan(facts, j, Inside(l)));
    }
  }

  lemma Regroup(here: seq<NamedReference>, body: seq<NamedReference>, rest: seq<NamedReference>)
    ensures here + (body + rest) == here + body + rest
  {
  }

  /** The section stops at the first line that ends it: nothing after it is
      collected, whatever follows (even a later sources heading). */
  lemma SectionStops(facts: seq<LineFacts>, i: nat, j: nat, l: nat)
    requires i <= j < |facts|
    requires forall k :: i <= k < j ==> facts[k].heading.None? && !EndsSection(facts[k], l)
    requires EndsSection(facts[j], l)
    ensures Scan(facts, i, Inside(l)) == ListLines(facts, i, j)
  {
    SectionBody(facts, i, j, l);
  }

  /** A sources heading (re)opens the section with the level of its `#`
      run, whatever the state before it. */
  lemma HeadingReopens(lines: seq<string>, i: nat, sec: Section)
    requires i < |lines| && HeaderLevel(lines[i], ScanLanguage, ScanMaxLevel).Some?
    ensures Scan(FactsOf(lines), i, sec) == Scan(FactsOf(lines), i + 1, Inside(RunOf(lines[i], '#')))
  {
    FactsOfAt(lines, i);
  }

  /** The fields of every record of a file: it comes from a list line, its
      `numbering` and `line` are that line stripped, `kind` is `"external"`,
      and the name is never empty. */
  lemma FileReferenceFields(text: string, n: nat)
    requires n < |FileReferences(text)|
    ensures var r := FileReferences(text)[n];
      && 1 <= r.ref.lineno <= |ReadLines(text)|
      && StartsItemAt(ReadLines(text)[r.ref.lineno - 1], 0)
      && r == BuildReference(ReadLines(text)[r.ref.lineno - 1], r.ref.lineno)
      && r.ref.numbering == r.ref.line == Strip(ReadLines(text)[r.ref.lineno - 1])
      && r.ref.kind == "external"
      && r.name != []
  {
    var lines := ReadLines(text);
    var facts := FactsOf(lines);
    FactsNumbered(lines);
    ScanRecordIsLine(facts, 0, Outside, n);
    var r := FileReferences(text)[n];
    var k := r.ref.lineno - 1;
    FactsOfAt(lines, k);
    ReadLinesAreLines(text);
    NumberingIsWholeLine(lines[k], r.ref.lineno);
    NameNeverEmpty(lines[k], r.ref.lineno);
  }

  // ---------------------------------------------------------------------------
  // Several files: `extract_sources_to_dict`

  /** One element of a file's list in the combined dict: a `{name: entry}`
      dict, or, for a path listed again, the whole list of that file appended
      as a single element. */
  datatype Element = Single(named: NamedReference) | Nested(list: seq<NamedReference>)

  /** A dict keyed by path; `keys` is its insertion order. */
  datatype SourceTable = SourceTable(keys: seq<string>, entries: map<string, seq<Element>>)

  function Singles(refs: seq<NamedReference>): (els: seq<Element>)
    ensures |els| == |refs| && forall k :: 0 <= k < |refs| ==> els[k] == Single(refs[k])
  {
    seq(|refs|, k requires 0 <= k < |refs| => Single(refs[k]))
  }

  /** The table after the loop has handled one more path: a path that is not
      a file is skipped; a file that cannot be read leaves `src` empty and
      `src[tag]` raises `KeyError`; a path seen before gets its list appended
      as one element; a new path gets its own list. */
  function AddFile(fs: FileSystem, t: SourceTable, md: string): Result<SourceTable> {
    if !IsFile(fs, md) then Success(t)
    else if Read(fs, md).None? then Failure("KeyError")
    else
      var refs := FileReferences(Read(fs, md).value);
      if md in t.entries then Success(SourceTable(t.keys, t.entries[md := t.entries[md] + [Nested(refs)]]))
      else Success(SourceTable(t.keys + [md], t.entries[md := Singles(refs)]))
  }

  /** `extract_sources_to_dict(md_files)` as a fold over the paths. */
  function SourcesOf(fs: FileSystem, files: seq<string>): Result<SourceTable>
    decreases |files|
  {
    if files == [] then Success(SourceTable([], map[]))
    else
      match SourcesOf(fs, files[..|files| - 1])
      case Failure(e) => Failure(e)
      case Success(t) => AddFile(fs, t, files[|files| - 1])
  }

  /** Once a path has raised, the whole call has raised. */
  lemma {:induction false} FailurePersists(fs: FileSystem, files: seq<string>, n: nat)
    requires n <= |files| && SourcesOf(fs, files[..n]).Failure?
    ensures SourcesOf(fs, files) == SourcesOf(fs, files[..n])
    decreases |files| - n
  {
    if n < |files| {
      assert files[..n + 1][..n] == files[..n];
      assert SourcesOf(fs, files[..n + 1]) == SourcesOf(fs, files[..n]);
      FailurePersists(fs, files, n + 1);
    } else {
      assert files[..n] == files;
    }
  }

  /** `extract_sources_to_dict(md_files)`. */
  method ExtractSourcesToDict(fs: FileSystem, mdFiles: seq<string>) returns (r: Result<SourceTable>)
    ensures r == SourcesOf(fs, mdFiles)
  {
    var sources := SourceTable([], map[]);
    var i := 0;
    while i < |mdFiles|
      invariant i <= |mdFiles|
      invariant SourcesOf(fs, mdFiles[..i]) == Success(sources)
    {
      var md := mdFiles[i];
      assert mdFiles[..i + 1][..i] == mdFiles[..i];
      if !IsFile(fs, md) {
        i := i + 1;
        continue;
      }
      var src := ExtractSourcesOfFile(fs, md);
      if md !in src {
        FailurePersists(fs, mdFiles, i + 1);
        return Failure("KeyError");
      }
      if md in sources.entries {
        sources := SourceTable(sources.keys, sources.entries[md := sources.entries[md] + [Nested(src[md])]]);
      } else {
        sources := SourceTable(sources.keys + [md], sources.entries[md := Singles(src[md])]);
      }
      i := i + 1;
    }
    assert mdFiles[..i] == mdFiles;
    return Success(sources);
  }

  /** The paths among `files` that are files, in order. */
  function FilesOnly(fs: FileSystem, files: seq<string>): (r: seq<string>)
    ensures forall m :: m in r <==> m in files && IsFile(fs, m)
    decreases |files|
  {
    if files == [] then []
    else
      var init, md := files[..|files| - 1], files[|files| - 1];
      assert files == init + [md];
      FilesOnly(fs, init) + (if IsFile(fs, md) then [md] else [])
  }

  /** What a readable file listed `count` times holds in the combined dict:
      its records, then its list once more for every repetition. */
  function Listed(refs: seq<NamedReference>, count: nat): seq<Element>
    requires count >= 1
  {
    Singles(refs) + seq(count - 1, _ => Nested(refs))
  }

  /** `extract_sources_to_dict` raises `KeyError` exactly when one of the
      paths is a file that cannot be read. */
  lemma {:induction false} KeyErrorIffUnreadable(fs: FileSystem, files: seq<string>)
    ensures SourcesOf(fs, files).Failure? <==>
      exists k :: 0 <= k < |files| && IsFile(fs, files[k]) && Read(fs, files[k]).None?
    ensures SourcesOf(fs, files).Failure? ==> SourcesOf(fs, files).error == "KeyError"
    decreases |files|
  {
    if files != [] {
      var init, md := files[..|files| - 1], files[|files| - 1];
      KeyErrorIffUnreadable(fs, init);
      if exists k :: 0 <= k < |init| && IsFile(fs, init[k]) && Read(fs, init[k]).None? {
        var k :| 0 <= k < |init| && IsFile(fs, init[k]) && Read(fs, init[k]).None?;
        assert files[k] == init[k];
      }
      if exists k :: 0 <= k < |files| && IsFile(fs, files[k]) && Read(fs, files[k]).None? {
        var k :| 0 <= k < |files| && IsFile(fs, files[k]) && Read(fs, files[k]).None?;
        if k < |init| {
          assert init[k] == files[k];
        }
      }
    }
  }

  /** The keys of the combined dict are the paths that are files, in the
      order of their first listing. */
  lemma {:induction false} TableKeys(fs: FileSystem, files: seq<string>)
    requires SourcesOf(fs, files).Success?
    ensures var t := SourcesOf(fs, files).value;
      && t.keys == KeepFirst(FilesOnly(fs, files))
      && (forall m :: m in t.entries <==> m in t.keys)
    decreases |files|
  {
    if files != [] {
      var init, md := files[..|files| - 1], files[|files| - 1];
      assert files == init + [md];
      TableKeys(fs, init);
      var t0 := SourcesOf(fs, init).value;
      KeysStep(fs, t0, md);
      DedupProperties(FilesOnly(fs, init));
      DedupIsKeepFirst(FilesOnly(fs, init));
      var before := FilesOnly(fs, init);
      if IsFile(fs, md) {
        assert FilesOnly(fs, files) == before + [md];
        assert (before + [md])[..|before|] == before;
      } else {
        assert FilesOnly(fs, files) == before;
      }
    }
  }

  /** Adding one path keeps the keys and the dict's domain equal, and
      appends the path to the keys when it is a new file. */
  lemma KeysStep(fs: FileSystem, t: SourceTable, md: string)
    requires forall m :: m in t.entries <==> m in t.keys
    requires AddFile(fs, t, md).Success?
    ensures var u := AddFile(fs, t, md).value;
      && u.keys == t.keys + (if IsFile(fs, md) && md !in t.keys then [md] else [])
      && (forall m :: m in u.entries <==> m in u.keys)
  {
    if !IsFile(fs, md) {
      assert t.keys + [] == t.keys;
    } else if md in t.keys {
      assert t.keys + [] == t.keys;
    }
  }

  /** Each key holds the file's records followed by one nested copy of them
      for every further listing of the same path. */
  lemma {:induction false} TableEntries(fs: FileSystem, files: seq<string>)
    requires SourcesOf(fs, files).Success?
    ensures var t := SourcesOf(fs, files).value;
      forall m :: m in t.entries ==>
        && multiset(files)[m] >= 1 && Read(fs, m).Some?
        && t.entries[m] == Listed(FileReferences(Read(fs, m).value), multiset(files)[m])
    decreases |files|
  {
    if files != [] {
      var init, md := files[..|files| - 1], files[|files| - 1];
      assert files == init + [md];
      TableEntries(fs, init);
      var t0 := SourcesOf(fs, init).value;
      assert SourcesOf(fs, files) == AddFile(fs, t0, md);
      if IsFile(fs, md) {
        if md !in t0.entries {
          TableKeys(fs, init);
          DedupProperties(FilesOnly(fs, init));
          DedupIsKeepFirst(FilesOnly(fs, init));
          assert md !in init;
        }
        EntriesStep(fs, init, md, t0);
      } else {
        CombinedKeys(fs, init);
        EntriesSkip(fs, init, md, t0);
      }
    }
  }

  /** The entries as `TableEntries` describes them. */
  predicate EntriesListed(fs: FileSystem, files: seq<string>, t: SourceTable) {
    forall m :: m in t.entries ==>
      && multiset(files)[m] >= 1 && Read(fs, m).Some?
      && t.entries[m] == Listed(FileReferences(Read(fs, m).value), multiset(files)[m])
  }

  lemma EntriesSkip(fs: FileSystem, init: seq<string>, md: string, t0: SourceTable)
    requires EntriesListed(fs, init, t0) && md !in t0.entries
    ensures EntriesListed(fs, init + [md], t0)
  {
    assert multiset(init + [md]) == multiset(init) + multiset{md};
  }

  lemma EntriesStep(fs: FileSystem, init: seq<string>, md: string, t0: SourceTable)
    requires EntriesListed(fs, init, t0) && IsFile(fs, md) && Read(fs, md).Some?
    requires md !in t0.entries ==> md !in init
    ensures AddFile(fs, t0, md).Success?
    ensures EntriesListed(fs, init + [md], AddFile(fs, t0, md).value)
  {
    var refs := FileReferences(Read(fs, md).value);
    if md in t0.entries {
      EntriesAppendSeen(fs, init, md, t0, refs);
    } else {
      EntriesAppendNew(fs, init, md, t0, refs);
    }
  }

  lemma EntriesAppendSeen(fs: FileSystem, init: seq<string>, md: string, t0: SourceTable, refs: seq<NamedReference>)
    requires EntriesListed(fs, init, t0) && md in t0.entries
    requires Read(fs, md).Some? && refs == FileReferences(Read(fs, md).value)
    ensures EntriesListed(fs, init + [md], SourceTable(t0.keys, t0.entries[md := t0.entries[md] + [Nested(refs)]]))
  {
    var files := init + [md];
    assert multiset(files) == multiset(init) + multiset{md};
    assert Listed(refs, multiset(files)[md]) == Listed(refs, multiset(init)[md]) + [Nested(refs)];
  }

  lemma EntriesAppendNew(fs: FileSystem, init: seq<string>, md: string, t0: SourceTable, refs: seq<NamedReference>)
    requires EntriesListed(fs, init, t0) && md !in t0.entries && md !in init
    requires Read(fs, md).Some? && refs == FileReferences(Read(fs, md).value)
    ensures EntriesListed(fs, init + [md], SourceTable(t0.keys + [md], t0.entries[md := Singles(refs)]))
  {
    var files := init + [md];
    assert multiset(files) == multiset(init) + multiset{md};
    assert multiset(init)[md] == 0;
    assert Listed(refs, 1) == Singles(refs);
  }

  /** The combined dict has one key per path that is a file, without
      repeats. */
  lemma CombinedKeys(fs: FileSystem, files: seq<string>)
    requires SourcesOf(fs, files).Success?
    ensures var t := SourcesOf(fs, files).value;
      && NoDuplicates(t.keys)
      && (forall m :: m in t.entries <==> m in files && IsFile(fs, m))
  {
    TableKeys(fs, files);
    DedupProperties(FilesOnly(fs, files));
    DedupIsKeepFirst(FilesOnly(fs, files));
  }

  // ---------------------------------------------------------------------------
  // The CSV rows of `extract_sources`

  const CsvHeader: seq<string> := ["File", "Name", "Link", "Numbering", "Comment", "Kind", "LineNo", "Line"]

  /** `csv.writer` writes `None` as an empty field. */
  function OrEmpty(v: Option<string>): string {
    if v.Some? then v.value else ""
  }

  /** The row of one record of `file`; the name loses a leading
      `[0-9a-z*]+[.) ]` marker once more. */
  function RowOf(file: string, r: NamedReference): (row: seq<string>)
    ensures |row| == |CsvHeader| && row[0] == file
  {
    [file, StripNameMarker(r.name), OrEmpty(r.ref.link), r.ref.numbering,
     OrEmpty(r.ref.comment), r.ref.kind, NatToString(r.ref.lineno), r.ref.line]
  }

  /** What `extract_sources` leaves behind. */
  datatype CsvOutcome =
    | NoSources                                          // only a warning, no file written
    | Written(rows: seq<seq<string>>)                     // the rows of the CSV file
    | Raised(error: string)                               // raised before the file is opened
    | WriteFailed(error: string, rows: seq<seq<string>>)  // rows written, then the error re-raised

  /** `rows` written before whatever `o` writes. */
  function Prefixed(rows: seq<seq<string>>, o: CsvOutcome): CsvOutcome {
    match o
    case Written(r) => Written(rows + r)
    case WriteFailed(e, r) => WriteFailed(e, rows + r)
    case _ => o
  }

  lemma PrefixedTwice(a: seq<seq<string>>, b: seq<seq<string>>, o: CsvOutcome)
    ensures Prefixed(a, Prefixed(b, o)) == Prefixed(a + b, o)
  {
    match o
    case Written(r) => assert a + (b + r) == (a + b) + r;
    case WriteFailed(e, r) => assert a + (b + r) == (a + b) + r;
    case _ =>
  }

  /** The list stored under `file` (empty when absent). */
  function EntriesOf(t: SourceTable, file: string): seq<Element> {
    if file in t.entries then t.entries[file] else []
  }

  /** Writing the elements `els[j..]` of `file`, then `rest`: a nested list
      has no `.items()` and raises `AttributeError`. */
  function FileBody(file: string, els: seq<Element>, j: nat, rest: CsvOutcome): (o: CsvOutcome)
    requires j <= |els|
    ensures rest.Written? || rest.WriteFailed? ==> o.Written? || o.WriteFailed?
    decreases |els| - j
  {
    if j == |els| then rest
    else if els[j].Nested? then WriteFailed("AttributeError", [])
    else Prefixed([RowOf(file, els[j].named)], FileBody(file, els, j + 1, rest))
  }

  /** Writing the files `t.keys[i..]` in insertion order. */
  function BodyFrom(t: SourceTable, i: nat): (o: CsvOutcome)
    requires i <= |t.keys|
    ensures o.Written? || o.WriteFailed?
    decreases |t.keys| - i
  {
    if i == |t.keys| then Written([])
    else FileBody(t.keys[i], EntriesOf(t, t.keys[i]), 0, BodyFrom(t, i + 1))
  }

  /** `extract_sources(md_files, output_csv)`. */
  function CsvOf(fs: FileSystem, files: seq<string>): CsvOutcome {
    match SourcesOf(fs, files)
    case Failure(e) => Raised(e)
    case Success(t) => if t.keys == [] then NoSources else Prefixed([CsvHeader], BodyFrom(t, 0))
  }

  /** `extract_sources(md_files, output_csv)`, writing row by row. */
  method ExtractSources(fs: FileSystem, mdFiles: seq<string>) returns (out: CsvOutcome)
    ensures out == CsvOf(fs, mdFiles)
  {
    var r := ExtractSourcesToDict(fs, mdFiles);
    if r.Failure? {
      return Raised(r.error);
    }
    var sources := r.value;
    if sources.keys == [] {
      return NoSources;
    }
    var rows := [CsvHeader];
    var i := 0;
    while i < |sources.keys|
      invariant i <= |sources.keys|
      invariant Prefixed(rows, BodyFrom(sources, i)) == CsvOf(fs, mdFiles)
    {
      var file := sources.keys[i];
      var failed;
      rows, failed := WriteEntries(rows, file, EntriesOf(sources, file), BodyFrom(sources, i + 1));
      if failed {
        return WriteFailed("AttributeError", rows);
      }
      i := i + 1;
    }
    assert rows + [] == rows;
    return Written(rows);
  }

  /** The inner loop of `extract_sources`: the rows of one file's list are
      written after `rows`, until a nested list raises. */
  method WriteEntries(rows: seq<seq<string>>, file: string, entries: seq<Element>, ghost rest: CsvOutcome)
    returns (out: seq<seq<string>>, failed: bool)
    ensures failed ==> Prefixed(rows, FileBody(file, entries, 0, rest)) == WriteFailed("AttributeError", out)
    ensures !failed ==> Prefixed(rows, FileBody(file, entries, 0, rest)) == Prefixed(out, rest)
  {
    out := rows;
    var j := 0;
    while j < |entries|
      invariant j <= |entries|
      invariant Prefixed(rows, FileBody(file, entries, 0, rest)) == Prefixed(out, FileBody(file, entries, j, rest))
    {
      if entries[j].Nested? {
        assert out + [] == out;
        return out, true;
      }
      var row := RowOf(file, entries[j].named);
      PrefixedTwice(out, [row], FileBody(file, entries, j + 1, rest));
      out := out + [row];
      j := j + 1;
    }
    return out, false;
  }

  /** The rows of a file's records, in order. */
  function RecordRows(file: string, refs: seq<NamedReference>): (rows: seq<seq<string>>)
    ensures |rows| == |refs|
  {
    seq(|refs|, n requires 0 <= n < |refs| => RowOf(file, refs[n]))
  }

  /** The rows of every record of the files `keys`, file by file: the
      reference definition of the CSV body. */
  function ReferenceRows(fs: FileSystem, keys: seq<string>): seq<seq<string>> {
    if keys == [] then []
    else
      var refs := match Read(fs, keys[0]) case Some(text) => FileReferences(text) case None => [];
      RecordRows(keys[0], refs) + ReferenceRows(fs, keys[1..])
  }

  lemma PrefixedEmpty(o: CsvOutcome)
    ensures Prefixed([], o) == o
  {
    match o
    case Written(r) => assert [] + r == r;
    case WriteFailed(e, r) => assert [] + r == r;
    case _ =>
  }

  /** A file's own records are written one row each, then whatever follows
      them in its list. */
  lemma {:induction false} SinglesWritten(file: string, refs: seq<NamedReference>, tail: seq<Element>, j: nat, rest: CsvOutcome)
    requires j <= |refs|
    ensures FileBody(file, Singles(refs) + tail, j, rest)
      == Prefixed(RecordRows(file, refs)[j..], FileBody(file, Singles(refs) + tail, |refs|, rest))
    decreases |refs| - j
  {
    var els := Singles(refs) + tail;
    var after := FileBody(file, els, |refs|, rest);
    if j == |refs| {
      assert RecordRows(file, refs)[j..] == [];
      PrefixedEmpty(after);
    } else {
      var row := RowOf(file, refs[j]);
      assert els[j] == Single(refs[j]);
      FileBodySingle(file, els, j, rest);
      SinglesWritten(file, refs, tail, j + 1, rest);
      PrefixedTwice([row], RecordRows(file, refs)[j + 1..], after);
      RecordRowsFrom(file, refs, j);
    }
  }

  lemma FileBodySingle(file: string, els: seq<Element>, j: nat, rest: CsvOutcome)
    requires j < |els| && els[j].Single?
    ensures FileBody(file, els, j, rest) == Prefixed([RowOf(file, els[j].named)], FileBody(file, els, j + 1, rest))
  {
  }

  lemma RecordRowsFrom(file: string, refs: seq<NamedReference>, j: nat)
    requires j < |refs|
    ensures RecordRows(file, refs)[j..] == [RowOf(file, refs[j])] + RecordRows(file, refs)[j + 1..]
  {
    var rows := RecordRows(file, refs);
    assert rows[j] == RowOf(file, refs[j]);
  }

  /** After its own records, a file's list ends (and the next file follows)
      or holds a nested list, which raises. */
  lemma AfterSingles(file: string, refs: seq<NamedReference>, tail: seq<Element>, rest: CsvOutcome)
    requires tail == [] || tail[0].Nested?
    ensures FileBody(file, Singles(refs) + tail, |refs|, rest)
      == if tail == [] then rest else WriteFailed("AttributeError", [])
  {
    var els := Singles(refs) + tail;
    if tail != [] {
      assert els[|refs|] == tail[0];
    }
  }

  /** With every readable file listed once, the CSV body is the rows of all
      records, file after file in the dict's order. */
  lemma {:induction false} BodyWhenListedOnce(fs: FileSystem, files: seq<string>, i: nat)
    requires SourcesOf(fs, files).Success?
    requires i <= |SourcesOf(fs, files).value.keys|
    requires forall m :: IsFile(fs, m) ==> multiset(files)[m] <= 1
    ensures var t := SourcesOf(fs, files).value;
      BodyFrom(t, i) == Written(ReferenceRows(fs, t.keys[i..]))
    decreases |SourcesOf(fs, files).value.keys| - i
  {
    var t := SourcesOf(fs, files).value;
    if i == |t.keys| {
      assert t.keys[i..] == [];
    } else {
      var file := t.keys[i];
      TableKeys(fs, files);
      CombinedKeys(fs, files);
      TableEntries(fs, files);
      var refs := FileReferences(Read(fs, file).value);
      assert EntriesOf(t, file) == Singles(refs) + [] by {
        assert multiset(files)[file] == 1;
        assert Listed(refs, 1) == Singles(refs) + [];
      }
      BodyWhenListedOnce(fs, files, i + 1);
      SinglesWritten(file, refs, [], 0, BodyFrom(t, i + 1));
      AfterSingles(file, refs, [], BodyFrom(t, i + 1));
      assert RecordRows(file, refs)[0..] == RecordRows(file, refs);
      assert t.keys[i..][1..] == t.keys[i + 1..];
    }
  }

  predicate HasNested(els: seq<Element>) {
    exists k :: 0 <= k < |els| && els[k].Nested?
  }

  /** A nested list in `els[j..]`, or a failing `rest`, makes writing the
      file fail with `AttributeError`. */
  lemma {:induction false} FileBodyFails(file: string, els: seq<Element>, j: nat, rest: CsvOutcome)
    requires j <= |els|
    requires (exists k :: j <= k < |els| && els[k].Nested?) || (rest.WriteFailed? && rest.error == "AttributeError")
    ensures FileBody(file, els, j, rest).WriteFailed? && FileBody(file, els, j, rest).error == "AttributeError"
    decreases |els| - j
  {
    if j < |els| && els[j].Single? {
      FileBodyFails(file, els, j + 1, rest);
    }
  }

  /** A file whose list holds a nested list makes the body fail. */
  lemma {:induction false} BodyFails(t: SourceTable, i: nat, k: nat)
    requires i <= k < |t.keys| && HasNested(EntriesOf(t, t.keys[k]))
    ensures BodyFrom(t, i).WriteFailed? && BodyFrom(t, i).error == "AttributeError"
    decreases k - i
  {
    if i < k {
      BodyFails(t, i + 1, k);
    }
    FileBodyFails(t.keys[i], EntriesOf(t, t.keys[i]), 0, BodyFrom(t, i + 1));
  }

  /** A file listed at least twice holds a nested list. */
  lemma ListedTwiceNests(refs: seq<NamedReference>, count: nat)
    requires count >= 2
    ensures HasNested(Listed(refs, count))
  {
    assert Listed(refs, count)[|refs|].Nested?;
  }

  /** `extract_sources` raises `KeyError`, before opening the CSV file,
      exactly when one of the paths is a file that cannot be read. */
  lemma CsvRaisesOnUnreadable(fs: FileSystem, files: seq<string>)
    ensures CsvOf(fs, files).Raised? <==>
      exists k :: 0 <= k < |files| && IsFile(fs, files[k]) && Read(fs, files[k]).None?
    ensures CsvOf(fs, files).Raised? ==> CsvOf(fs, files).error == "KeyError"
  {
    KeyErrorIffUnreadable(fs, files);
  }

  /** The dict is empty exactly when no path is a file. */
  lemma NoKeysIffNoFiles(fs: FileSystem, files: seq<string>, t: SourceTable)
    requires SourcesOf(fs, files) == Success(t)
    ensures t.keys == [] <==> forall k :: 0 <= k < |files| ==> !IsFile(fs, files[k])
  {
    TableKeys(fs, files);
    CombinedKeys(fs, files);
    if exists k :: 0 <= k < |files| && IsFile(fs, files[k]) {
      var k :| 0 <= k < |files| && IsFile(fs, files[k]);
      assert files[k] in t.entries;
    } else if t.keys != [] {
      assert t.keys[0] in t.entries;
    }
  }

  /** Without any readable file among the paths nothing is written. */
  lemma CsvNoSources(fs: FileSystem, files: seq<string>, t: SourceTable)
    requires SourcesOf(fs, files) == Success(t)
    ensures CsvOf(fs, files).NoSources? <==> forall k :: 0 <= k < |files| ==> !IsFile(fs, files[k])
  {
    NoKeysIffNoFiles(fs, files, t);
    if t.keys != [] {
      assert CsvOf(fs, files) == Prefixed([CsvHeader], BodyFrom(t, 0));
    }
  }

  /** A readable file listed twice makes `extract_sources` raise
      `AttributeError` after the header row. */
  lemma CsvFailsOnRepeatedPath(fs: FileSystem, files: seq<string>, t: SourceTable, m: string)
    requires SourcesOf(fs, files) == Success(t)
    requires IsFile(fs, m) && multiset(files)[m] >= 2
    ensures CsvOf(fs, files).WriteFailed?
    ensures CsvOf(fs, files).error == "AttributeError" && CsvOf(fs, files).rows[0] == CsvHeader
  {
    var k := RepeatedKey(fs, files, t, m);
    BodyFails(t, 0, k);
    var body := BodyFrom(t, 0);
    assert CsvOf(fs, files) == Prefixed([CsvHeader], body);
    assert Prefixed([CsvHeader], body) == WriteFailed(body.error, [CsvHeader] + body.rows);
  }

  /** A file listed twice is a key whose list holds a nested list. */
  lemma RepeatedKey(fs: FileSystem, files: seq<string>, t: SourceTable, m: string) returns (k: nat)
    requires SourcesOf(fs, files) == Success(t)
    requires IsFile(fs, m) && multiset(files)[m] >= 2
    ensures k < |t.keys| && t.keys[k] == m && HasNested(EntriesOf(t, m))
  {
    CombinedKeys(fs, files);
    TableKeys(fs, files);
    assert m in files;
    assert m in t.entries;
    k :| 0 <= k < |t.keys| && t.keys[k] == m;
    TableEntries(fs, files);
    assert t.entries[m] == Listed(FileReferences(Read(fs, m).value), multiset(files)[m]);
    ListedTwiceNests(FileReferences(Read(fs, m).value), multiset(files)[m]);
  }

  /** With every readable file listed once, the CSV file holds the header and
      then one row per record, file after file in the order of first listing. */
  lemma CsvRowsWhenListedOnce(fs: FileSystem, files: seq<string>, t: SourceTable)
    requires SourcesOf(fs, files) == Success(t) && t.keys != []
    requires forall m :: IsFile(fs, m) ==> multiset(files)[m] <= 1
    ensures CsvOf(fs, files) == Written([CsvHeader] + ReferenceRows(fs, t.keys))
  {
    BodyWhenListedOnce(fs, files, 0);
    assert t.keys[0..] == t.keys;
  }
}
