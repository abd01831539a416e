/** `proof_and_repair_internal_references`: every file with references gets
    the references' names inserted as lines, at the line each reference was
    found on, into the buffer as it stands after the previous insertions. */
module AiInternal {
  import opened Wrappers
  import opened Text
  import opened Files
  import opened SourceFields
  import opened SourceExtract

  datatype InternalAction = FootnoteAdded(file: string)

  /** The files after the run and the report, in order. */
  datatype InternalRun = InternalRun(fs: FileSystem, report: seq<InternalAction>)

  datatype InternalOutcome = SummaryUnreadable | Repaired(run: InternalRun)

  /** Where `lines.insert(lineno - 1, name)` or `lines.append(name)` puts the
      name; `insert(-1, x)` goes in front of the last element. */
  function InsertPosition(lineno: nat, count: nat): (k: nat)
    ensures k <= count
  {
    if lineno == 0 then (if count == 0 then 0 else count - 1)
    else if lineno - 1 < count then lineno - 1
    else count
  }

  function InsertName(lines: seq<string>, lineno: nat, name: string): (r: seq<string>)
    ensures |r| == |lines| + 1
    ensures multiset(r) == multiset(lines) + multiset{name}
  {
    var k := InsertPosition(lineno, |lines|);
    assert lines == lines[..k] + lines[k..];
    lines[..k] + [name] + lines[k..]
  }

  function Names(refs: seq<NamedReference>): seq<string> {
    seq(|refs|, k requires 0 <= k < |refs| => refs[k].name)
  }

  /** The names inserted one after another, each into the buffer the previous
      one left. */
  function InsertNames(lines: seq<string>, refs: seq<NamedReference>): (r: seq<string>)
    ensures |r| == |lines| + |refs|
    ensures multiset(r) == multiset(lines) + multiset(Names(refs))
    decreases |refs|
  {
    if refs == [] then lines
    else
      var r := InsertNames(InsertName(lines, refs[0].ref.lineno, refs[0].name), refs[1..]);
      assert Names(refs) == [refs[0].name] + Names(refs[1..]);
      r
  }

  /** The text written back: the lines joined by `"\n"`, plus a final `"\n"`. */
  function RepairedText(text: string, refs: seq<NamedReference>): string {
    Join("\n", InsertNames(SplitLines(text), refs)) + "\n"
  }

  /** `extract_sources_of_a_md_file_to_dict(file).get(file, [])`. */
  function ReferencesOf(fs: FileSystem, file: string): seq<NamedReference> {
    if file != [] && Read(fs, file).Some? then FileReferences(Read(fs, file).value) else []
  }

  /** One iteration of the loop over the files. */
  function InternalFile(fs: FileSystem, file: string): (r: InternalRun)
    ensures r.fs.Keys == fs.Keys
    ensures forall p :: p in fs && p != file ==> r.fs[p] == fs[p]
    ensures ReferencesOf(fs, file) == [] ==> r == InternalRun(fs, [])
    ensures ReferencesOf(fs, file) != [] ==>
      && r.report == [FootnoteAdded(file)]
      && r.fs == fs[file := Some(RepairedText(Read(fs, file).value, ReferencesOf(fs, file)))]
  {
    var refs := ReferencesOf(fs, file);
    if refs == [] then InternalRun(fs, [])
    else
      var text := Read(fs, file).value;
      InternalRun(fs[file := Some(RepairedText(text, refs))], [FootnoteAdded(file)])
  }

  /** The loop over the files, as a fold over its prefixes. */
  function InternalFiles(fs: FileSystem, files: seq<string>): (r: InternalRun)
    ensures r.fs.Keys == fs.Keys
    ensures |r.report| <= |files|
  {
    if files == [] then InternalRun(fs, [])
    else
      var before := InternalFiles(fs, files[..|files| - 1]);
      var step := InternalFile(before.fs, files[|files| - 1]);
      InternalRun(step.fs, before.report + step.report)
  }

  /** `proof_and_repair_internal_references`: opening the summary is the only
      way it fails; the summary's links are read but not used. */
  function InternalRepairOf(fs: FileSystem, files: seq<string>, summary: string): InternalOutcome {
    if Read(fs, summary).None? then SummaryUnreadable else Repaired(InternalFiles(fs, files))
  }

  /** The insertions into one file's buffer. */
  method InsertAll(lines: seq<string>, refs: seq<NamedReference>) returns (out: seq<string>)
    ensures out == InsertNames(lines, refs)
  {
    out := lines;
    var i := 0;
    while i < |refs|
      invariant 0 <= i <= |refs|
      invariant InsertNames(out, refs[i..]) == InsertNames(lines, refs)
    {
      var named := refs[i];
      var k := InsertPosition(named.ref.lineno, |out|);
      assert refs[i..][1..] == refs[i + 1..];
      out := out[..k] + [named.name] + out[k..];
      i := i + 1;
    }
    assert refs[i..] == [];
  }

  /** The body of the loop over the files. */
  method RepairFile(fs: FileSystem, file: string) returns (after: FileSystem, added: seq<InternalAction>)
    ensures InternalRun(after, added) == InternalFile(fs, file)
  {
    var extracted := ExtractSourcesOfFile(fs, file);
    var sources := if file in extracted then extracted[file] else [];
    assert sources == ReferencesOf(fs, file);
    if sources == [] {
      return fs, [];
    }
    var text := Read(fs, file).value;
    var lines := InsertAll(SplitLines(text), sources);
    after := fs[file := Some(Join("\n", lines) + "\n")];
    added := [FootnoteAdded(file)];
  }

  method ProofAndRepairInternalReferences(fs: FileSystem, mdFiles: seq<string>, summaryMd: string)
    returns (out: InternalOutcome)
    ensures out == InternalRepairOf(fs, mdFiles, summaryMd)
  {
    if Read(fs, summaryMd).None? {
      return SummaryUnreadable;
    }
    var files := fs;
    var report: seq<InternalAction> := [];
    var i := 0;
    while i < |mdFiles|
      invariant 0 <= i <= |mdFiles|
      invariant InternalRun(files, report) == InternalFiles(fs, mdFiles[..i])
    {
      FilesStep(fs, mdFiles, i);
      var added;
      files, added := RepairFile(files, mdFiles[i]);
      report := report + added;
      i := i + 1;
    }
    assert mdFiles[..i] == mdFiles;
    return Repaired(InternalRun(files, report));
  }

  lemma FilesStep(fs: FileSystem, files: seq<string>, i: nat)
    requires i < |files|
    ensures var before := InternalFiles(fs, files[..i]);
      var step := InternalFile(before.fs, files[i]);
      InternalFiles(fs, files[..i + 1]) == InternalRun(step.fs, before.report + step.report)
  {
    assert files[..i + 1][..i] == files[..i];
  }

  // ---------------------------------------------------------------------------
  // Properties

  /** Only listed files are written, and every report entry names a listed
      file. */
  lemma {:induction false} OnlyListedFilesChange(fs: FileSystem, files: seq<string>)
    ensures forall p :: p in fs && p !in files ==> InternalFiles(fs, files).fs[p] == fs[p]
    ensures forall k :: 0 <= k < |InternalFiles(fs, files).report| ==> InternalFiles(fs, files).report[k].file in files
  {
    if files != [] {
      var init := files[..|files| - 1];
      OnlyListedFilesChange(fs, init);
      var before := InternalFiles(fs, init);
      var step := InternalFile(before.fs, files[|files| - 1]);
      assert forall p :: p in init ==> p in files;
      assert |step.report| <= 1 && (step.report != [] ==> step.report[0].file == files[|files| - 1]);
    }
  }

  /** A file whose references are empty (or that cannot be read) is neither
      rewritten nor reported. */
  lemma NoSourcesNoChange(fs: FileSystem, file: string)
    requires ReferencesOf(fs, file) == []
    ensures InternalFile(fs, file) == InternalRun(fs, [])
  {
  }

  /** Each name lands where its line number says, shifting that line down. */
  lemma InsertAtLine(lines: seq<string>, lineno: nat, name: string)
    requires 1 <= lineno <= |lines|
    ensures var r := InsertName(lines, lineno, name);
      && r[lineno - 1] == name
      && r[..lineno - 1] == lines[..lineno - 1]
      && r[lineno..] == lines[lineno - 1..]
  {
  }

  /** A line number past the end appends the name. */
  lemma InsertPastEnd(lines: seq<string>, lineno: nat, name: string)
    requires lineno > |lines|
    ensures InsertName(lines, lineno, name) == lines + [name]
  {
  }

  /** A name for line 2 of a three-line file lands between lines 1 and 2. */
  lemma InsertsAtPosition(ref: Reference)
    requires ref.lineno == 2
    ensures InsertNames(["line1", "line2", "line3"], [Named("Note", ref)]) == ["line1", "Note", "line2", "line3"]
  {
    var lines := ["line1", "line2", "line3"];
    assert InsertName(lines, 2, "Note") == lines[..1] + ["Note"] + lines[1..];
    assert [Named("Note", ref)][1..] == [];
  }

  /** A name for line 1 of a one-line file goes in front of it. */
  lemma AddsFootnoteInFront(ref: Reference)
    requires ref.lineno == 1
    ensures InsertNames(["content"], [Named("Ref", ref)]) == ["Ref", "content"]
  {
    assert [Named("Ref", ref)][1..] == [];
  }
}
