/** `proof_and_repair_external_references`: every reference of every readable
    file is sent to the AI service; the verdicts are classified into report
    entries, and the lines of the repaired references are patched in the
    lines read back after all questions were asked. */
module AiExternal {
  import opened Wrappers
  import opened Text
  import opened Files
  import opened SourceFields
  import opened SourceExtract
  import opened AiJson
  import opened AiAsk
  import opened AiPrompt

  /** What the caller passes through to `ask_ai`. */
  datatype Endpoint = Endpoint(prompt: string, url: string, key: string, provider: string)

  /** The dict appended to `repaired_references`; `success` is the truth
      value of `success and has_json and result.get("success")`. A missing
      key and JSON `null` both read as `None`, here `JNull`. */
  datatype Verdict = Verdict(
    line: string,
    lineno: nat,
    success: bool,
    replacement: Json,
    error: Json,
    hint: Json,
    validationDate: Json,
    kind: Json)

  const DataErrorPrefix := "ai response data error: "
  const RepairPromptHint := "repair prompt, details in error"

  /** `result.get(key)`. */
  function GetOrNull(fields: map<string, Json>, key: string): Json {
    if key in fields then fields[key] else JNull
  }

  /** The verdict on one reference from what `ask_ai` returned. */
  function VerdictOf(dec: Decoders, r: Reference, ok: bool, value: AiValue): (v: Verdict)
    ensures v.line == r.line && v.lineno == r.lineno
    ensures v.success <==> ok && value.Parsed? && value.json.JObject? && TruthyField(value.json.fields, "success")
    ensures !(value.Parsed? && value.json.JObject?) ==>
      && v.replacement == JNull
      && v.error == JString(DataErrorPrefix + Show(dec, value))
      && v.hint == JString(RepairPromptHint)
  {
    if value.Parsed? && value.json.JObject? then
      var fields := value.json.fields;
      Verdict(r.line, r.lineno, ok && TruthyField(fields, "success"),
        GetOrNull(fields, "new"), GetOrNull(fields, "error"), GetOrNull(fields, "hint"),
        GetOrNull(fields, "validation_date"), GetOrNull(fields, "type"))
    else
      Verdict(r.line, r.lineno, false, JNull, JString(DataErrorPrefix + Show(dec, value)),
        JString(RepairPromptHint), JNull, JNull)
  }

  /** Ask about one reference, with the index derived from its numbering. */
  function Judge(svc: Service, dec: Decoders, at: Endpoint, r: Reference): (v: Verdict)
    ensures v.line == r.line && v.lineno == r.lineno
  {
    var asked := AskForReference(svc, dec, r.line, FootnoteIndex(r.numbering), at.prompt, at.url, at.key, at.provider);
    VerdictOf(dec, r, asked.ok, asked.value)
  }

  /** `Judge` as the function the loops apply to each reference. */
  function Judging(svc: Service, dec: Decoders, at: Endpoint): Reference -> Verdict {
    r => Judge(svc, dec, at, r)
  }

  /** The verdicts of a file's references, in order. */
  function Verdicts(judge: Reference -> Verdict, refs: seq<NamedReference>): (vs: seq<Verdict>)
    ensures |vs| == |refs|
  {
    seq(|refs|, k requires 0 <= k < |refs| => judge(refs[k].ref))
  }

  datatype ExternalAction =
    | LinkRepaired(file: string, lineno: nat, orig: string, replacement: string, validationDate: Json, kind: Json, hint: Json)
    | LinkCheckSucceeded(file: string, lineno: nat, orig: string, validationDate: Json, kind: Json, hint: Json)
    | LinkRepairFailed(file: string, lineno: nat, orig: string, error: Json, validationDate: Json, kind: Json, hint: Json)

  /** A verdict that asks for its line to be patched. */
  predicate Repairs(v: Verdict) {
    v.success && Truthy(v.replacement)
  }

  /** The report entry for a verdict whose patch, if any, went through. */
  function ActionOf(file: string, v: Verdict): (a: ExternalAction)
    requires Repairs(v) ==> v.replacement.JString?
    ensures a.file == file && a.lineno == v.lineno && a.orig == v.line
    ensures a.LinkRepaired? <==> Repairs(v)
    ensures a.LinkCheckSucceeded? <==> v.success && !Repairs(v)
    ensures a.LinkRepairFailed? <==> !v.success
  {
    if Repairs(v) then LinkRepaired(file, v.lineno, v.line, v.replacement.s, v.validationDate, v.kind, v.hint)
    else if v.success then LinkCheckSucceeded(file, v.lineno, v.line, v.validationDate, v.kind, v.hint)
    else LinkRepairFailed(file, v.lineno, v.line, v.error, v.validationDate, v.kind, v.hint)
  }

  /** The position `lines[lineno - 1]` designates: Python's index -1 is the
      last line; `None` where the index raises `IndexError`. */
  function LineIndex(lineno: nat, count: nat): (k: Option<nat>)
    ensures k.Some? ==> k.value < count
    ensures 1 <= lineno <= count ==> k == Some(lineno - 1)
  {
    if lineno == 0 then (if count == 0 then None else Some(count - 1))
    else if lineno - 1 < count then Some(lineno - 1)
    else None
  }

  /** The patch loop over the verdicts: the lines after it and the report
      entries, or the exception it stops with. */
  datatype Patched = Patched(lines: seq<string>, actions: seq<ExternalAction>) | PatchRaised(error: string)

  /** Why a patch stops: the line does not exist (`lines[lineno - 1]` is
      evaluated first and raises `IndexError`) or the new text is not a
      string (`str.replace` raises `TypeError`). */
  predicate PatchFails(v: Verdict, count: nat) {
    Repairs(v) && (!v.replacement.JString? || LineIndex(v.lineno, count).None?)
  }

  function PatchOne(lines: seq<string>, v: Verdict): (r: seq<string>)
    requires Repairs(v) && v.replacement.JString? && LineIndex(v.lineno, |lines|).Some?
    ensures |r| == |lines|
  {
    var k := LineIndex(v.lineno, |lines|).value;
    lines[k := Replace(lines[k], v.line, v.replacement.s) + "\n"]
  }

  /** The lines after one verdict. */
  function Next(lines: seq<string>, v: Verdict): (r: seq<string>)
    requires !PatchFails(v, |lines|)
    ensures |r| == |lines|
  {
    if Repairs(v) then PatchOne(lines, v) else lines
  }

  /** `for repaired_reference in repaired_references`, from verdict `i` on. */
  function PatchFrom(file: string, lines: seq<string>, vs: seq<Verdict>, i: nat): (p: Patched)
    requires i <= |vs|
    ensures p.Patched? ==> |p.lines| == |lines| && |p.actions| == |vs| - i
    ensures p.PatchRaised? ==> p.error in {"IndexError", "TypeError"}
    decreases |vs| - i
  {
    if i == |vs| then Patched(lines, [])
    else
      var v := vs[i];
      if PatchFails(v, |lines|) then
        PatchRaised(if LineIndex(v.lineno, |lines|).None? then "IndexError" else "TypeError")
      else
        var rest := PatchFrom(file, Next(lines, v), vs, i + 1);
        if rest.PatchRaised? then rest else Patched(rest.lines, [ActionOf(file, v)] + rest.actions)
  }

  /** The patch loop stops exactly when some verdict from `i` on cannot be
      patched. */
  lemma {:induction false} PatchRaisesIff(file: string, lines: seq<string>, vs: seq<Verdict>, i: nat)
    requires i <= |vs|
    ensures PatchFrom(file, lines, vs, i).Patched? <==> forall k :: i <= k < |vs| ==> !PatchFails(vs[k], |lines|)
    decreases |vs| - i
  {
    if i < |vs| && !PatchFails(vs[i], |lines|) {
      PatchRaisesIff(file, Next(lines, vs[i]), vs, i + 1);
    }
  }

  /** The patch loop stops at the first verdict that cannot be patched, with
      `IndexError` when its line does not exist and `TypeError` otherwise. */
  lemma {:induction false} PatchRaisesAtFirstFailure(file: string, lines: seq<string>, vs: seq<Verdict>, i: nat, k: nat)
    requires i <= k < |vs| && PatchFails(vs[k], |lines|)
    requires forall n :: i <= n < k ==> !PatchFails(vs[n], |lines|)
    ensures PatchFrom(file, lines, vs, i)
         == PatchRaised(if LineIndex(vs[k].lineno, |lines|).None? then "IndexError" else "TypeError")
    decreases k - i
  {
    if i < k {
      PatchRaisesAtFirstFailure(file, Next(lines, vs[i]), vs, i + 1, k);
    }
  }

  /** When every verdict can be patched, the report has the entry of each
      verdict in order. */
  lemma {:induction false} PatchActions(file: string, lines: seq<string>, vs: seq<Verdict>, i: nat)
    requires i <= |vs|
    requires forall k :: i <= k < |vs| ==> !PatchFails(vs[k], |lines|)
    ensures PatchFrom(file, lines, vs, i).Patched?
    ensures forall k :: i <= k < |vs| ==> Repairs(vs[k]) ==> vs[k].replacement.JString?
    ensures forall k :: i <= k < |vs| ==> ActionOf(file, vs[k]) == PatchFrom(file, lines, vs, i).actions[k - i]
    decreases |vs| - i
  {
    PatchRaisesIff(file, lines, vs, i);
    if i < |vs| {
      PatchActions(file, Next(lines, vs[i]), vs, i + 1);
    }
  }

  /** When every verdict can be patched, a line no repairing verdict points
      at keeps its text. */
  lemma {:induction false} PatchKeeps(file: string, lines: seq<string>, vs: seq<Verdict>, i: nat, j: nat)
    requires i <= |vs| && j < |lines|
    requires forall k :: i <= k < |vs| ==> !PatchFails(vs[k], |lines|)
    requires forall k :: i <= k < |vs| && Repairs(vs[k]) ==> LineIndex(vs[k].lineno, |lines|) != Some(j)
    ensures PatchFrom(file, lines, vs, i).Patched?
    ensures PatchFrom(file, lines, vs, i).lines[j] == lines[j]
    decreases |vs| - i
  {
    PatchRaisesIff(file, lines, vs, i);
    if i < |vs| {
      var next := Next(lines, vs[i]);
      assert next[j] == lines[j];
      PatchKeeps(file, next, vs, i + 1, j);
    }
  }

  /** The text line `j` of `count` lines ends with: the repairs aimed at it
      from verdict `i` on, applied to `s` one after the other. */
  function RepairedLine(s: string, vs: seq<Verdict>, i: nat, j: nat, count: nat): string
    requires i <= |vs|
    decreases |vs| - i
  {
    if i == |vs| then s
    else
      var v := vs[i];
      var aimed := Repairs(v) && v.replacement.JString? && LineIndex(v.lineno, count) == Some(j);
      RepairedLine(if aimed then Replace(s, v.line, v.replacement.s) + "\n" else s, vs, i + 1, j, count)
  }

  /** When every verdict can be patched, each line ends as the repairs aimed
      at it, in the order of the verdicts, leave it. */
  lemma {:induction false} PatchComposes(file: string, lines: seq<string>, vs: seq<Verdict>, i: nat, j: nat)
    requires i <= |vs| && j < |lines|
    requires forall k :: i <= k < |vs| ==> !PatchFails(vs[k], |lines|)
    ensures PatchFrom(file, lines, vs, i).Patched?
    ensures PatchFrom(file, lines, vs, i).lines[j] == RepairedLine(lines[j], vs, i, j, |lines|)
    decreases |vs| - i
  {
    PatchRaisesIff(file, lines, vs, i);
    if i < |vs| {
      var v := vs[i];
      var next := Next(lines, v);
      if Repairs(v) && LineIndex(v.lineno, |lines|) == Some(j) {
        assert next[j] == Replace(lines[j], v.line, v.replacement.s) + "\n";
      } else {
        assert next[j] == lines[j];
      }
      PatchComposes(file, next, vs, i + 1, j);
    }
  }

  /** When every verdict can be patched and exactly one repairing verdict
      points at line `j`, that line becomes
      `lines[lineno - 1].replace(line, new) + "\n"`. */
  lemma {:induction false} PatchRepairsLine(file: string, lines: seq<string>, vs: seq<Verdict>, i: nat, j: nat, k: nat)
    requires i <= k < |vs| && j < |lines|
    requires forall n :: i <= n < |vs| ==> !PatchFails(vs[n], |lines|)
    requires Repairs(vs[k]) && vs[k].replacement.JString? && LineIndex(vs[k].lineno, |lines|) == Some(j)
    requires forall n :: i <= n < |vs| && n != k && Repairs(vs[n]) ==> LineIndex(vs[n].lineno, |lines|) != Some(j)
    ensures PatchFrom(file, lines, vs, i).Patched?
    ensures PatchFrom(file, lines, vs, i).lines[j] == Replace(lines[j], vs[k].line, vs[k].replacement.s) + "\n"
    decreases |vs| - i
  {
    PatchRaisesIff(file, lines, vs, i);
    var next := Next(lines, vs[i]);
    if i == k {
      assert next[j] == Replace(lines[j], vs[k].line, vs[k].replacement.s) + "\n";
      PatchKeeps(file, next, vs, i + 1, j);
    } else {
      assert next[j] == lines[j];
      PatchRepairsLine(file, next, vs, i + 1, j, k);
    }
  }

  /** The outcome for one file: the files afterwards and the entries added. */
  datatype FileStep = Stepped(fs: FileSystem, actions: seq<ExternalAction>) | StepRaised(error: string)

  /** One iteration of the loop over the files. A file that cannot be read is
      skipped; a readable one is written back even when nothing changed. */
  function ExternalFile(judge: Reference -> Verdict, fs: FileSystem, file: string): (r: FileStep)
    ensures (file == [] || Read(fs, file).None?) ==> r == Stepped(fs, [])
  {
    if file == [] || Read(fs, file).None? then Stepped(fs, [])
    else
      var text := Read(fs, file).value;
      var vs := Verdicts(judge, FileReferences(text));
      match PatchFrom(file, ReadLines(text), vs, 0)
      case PatchRaised(e) => StepRaised(e)
      case Patched(lines, actions) => Stepped(fs[file := Some(Concat(lines))], actions)
  }

  /** The run: the files and the report, or the exception that ended it with
      the files as they were then. */
  datatype ExternalOutcome = ExternalDone(fs: FileSystem, report: seq<ExternalAction>) | ExternalRaised(error: string, fs: FileSystem)

  function ExternalFiles(judge: Reference -> Verdict, fs: FileSystem, files: seq<string>): (r: ExternalOutcome)
  {
    if files == [] then ExternalDone(fs, [])
    else
      match ExternalFiles(judge, fs, files[..|files| - 1])
      case ExternalRaised(e, after) => ExternalRaised(e, after)
      case ExternalDone(before, report) =>
        match ExternalFile(judge, before, files[|files| - 1])
        case StepRaised(e) => ExternalRaised(e, before)
        case Stepped(after, actions) => ExternalDone(after, report + actions)
  }

  // ---------------------------------------------------------------------------
  // The loops

  method JudgeAll(judge: Reference -> Verdict, refs: seq<NamedReference>) returns (vs: seq<Verdict>)
    ensures vs == Verdicts(judge, refs)
  {
    vs := [];
    var i := 0;
    while i < |refs|
      invariant 0 <= i <= |refs| && |vs| == i
      invariant forall k :: 0 <= k < i ==> vs[k] == judge(refs[k].ref)
    {
      vs := vs + [judge(refs[i].ref)];
      i := i + 1;
    }
  }

  method PatchLines(file: string, read: seq<string>, vs: seq<Verdict>) returns (p: Patched)
    ensures p == PatchFrom(file, read, vs, 0)
  {
    var lines := read;
    var actions: seq<ExternalAction> := [];
    var i := 0;
    while i < |vs|
      invariant 0 <= i <= |vs|
      invariant |lines| == |read|
      invariant PatchFrom(file, read, vs, 0) == Prefix(actions, PatchFrom(file, lines, vs, i))
    {
      var v := vs[i];
      if PatchFails(v, |lines|) {
        return PatchRaised(if LineIndex(v.lineno, |lines|).None? then "IndexError" else "TypeError");
      }
      PatchStep(file, lines, vs, i);
      ghost var before := lines;
      if Repairs(v) {
        var k := LineIndex(v.lineno, |lines|).value;
        lines := lines[k := Replace(lines[k], v.line, v.replacement.s) + "\n"];
      }
      assert lines == Next(before, v);
      PrefixAppend(actions, ActionOf(file, v), PatchFrom(file, lines, vs, i + 1));
      actions := actions + [ActionOf(file, v)];
      i := i + 1;
    }
    return Patched(lines, actions);
  }

  lemma PatchStep(file: string, lines: seq<string>, vs: seq<Verdict>, i: nat)
    requires i < |vs| && !PatchFails(vs[i], |lines|)
    ensures var rest := PatchFrom(file, Next(lines, vs[i]), vs, i + 1);
      PatchFrom(file, lines, vs, i) == if rest.PatchRaised? then rest else Patched(rest.lines, [ActionOf(file, vs[i])] + rest.actions)
  {
  }

  /** Report entries already made in front of an outcome. */
  function Prefix(done: seq<ExternalAction>, p: Patched): Patched {
    if p.PatchRaised? then p else Patched(p.lines, done + p.actions)
  }

  lemma PrefixAppend(done: seq<ExternalAction>, a: ExternalAction, p: Patched)
    ensures Prefix(done, if p.PatchRaised? then p else Patched(p.lines, [a] + p.actions)) == Prefix(done + [a], p)
  {
    if p.Patched? {
      assert done + ([a] + p.actions) == done + [a] + p.actions;
    }
  }

  method RepairFile(judge: Reference -> Verdict, fs: FileSystem, file: string) returns (r: FileStep)
    ensures r == ExternalFile(judge, fs, file)
  {
    var existing := ExtractSourcesOfFile(fs, file);
    if file !in existing {
      return Stepped(fs, []);
    }
    var text := Read(fs, file).value;
    var refs := existing[file];
    var vs := JudgeAll(judge, refs);
    var p := PatchLines(file, ReadLines(text), vs);
    if p.PatchRaised? {
      return StepRaised(p.error);
    }
    r := Stepped(fs[file := Some(Concat(p.lines))], p.actions);
  }

  lemma FilesStep(judge: Reference -> Verdict, fs: FileSystem, files: seq<string>, i: nat)
    requires i < |files|
    ensures ExternalFiles(judge, fs, files[..i + 1]) ==
      match ExternalFiles(judge, fs, files[..i])
      case ExternalRaised(e, after) => ExternalRaised(e, after)
      case ExternalDone(before, report) =>
        match ExternalFile(judge, before, files[i])
        case StepRaised(e) => ExternalRaised(e, before)
        case Stepped(after, actions) => ExternalDone(after, report + actions)
  {
    assert files[..i + 1][..i] == files[..i];
  }

  /** Once a file raises, the run ends with that exception. */
  lemma {:induction false} RaisedPersists(judge: Reference -> Verdict, fs: FileSystem, files: seq<string>, n: nat)
    requires n <= |files| && ExternalFiles(judge, fs, files[..n]).ExternalRaised?
    ensures ExternalFiles(judge, fs, files) == ExternalFiles(judge, fs, files[..n])
    decreases |files| - n
  {
    if n < |files| {
      FilesStep(judge, fs, files, n);
      RaisedPersists(judge, fs, files, n + 1);
    } else {
      assert files[..n] == files;
    }
  }

  method ProofAndRepairExternalReferences(svc: Service, dec: Decoders, fs: FileSystem, mdFiles: seq<string>,
                                          prompt: string, aiUrl: string, aiApiKey: string, aiProvider: string)
    returns (out: ExternalOutcome)
    ensures out == ExternalFiles(Judging(svc, dec, Endpoint(prompt, aiUrl, aiApiKey, aiProvider)), fs, mdFiles)
  {
    out := RepairFiles(Judging(svc, dec, Endpoint(prompt, aiUrl, aiApiKey, aiProvider)), fs, mdFiles);
  }

  /** The loop over the files, with the verdicts coming from `judge`. */
  method RepairFiles(judge: Reference -> Verdict, fs: FileSystem, mdFiles: seq<string>) returns (out: ExternalOutcome)
    ensures out == ExternalFiles(judge, fs, mdFiles)
  {
    var files := fs;
    var report: seq<ExternalAction> := [];
    var i := 0;
    while i < |mdFiles|
      invariant 0 <= i <= |mdFiles|
      invariant ExternalFiles(judge, fs, mdFiles[..i]) == ExternalDone(files, report)
    {
      var step := RepairFile(judge, files, mdFiles[i]);
      FilesAdvance(judge, fs, mdFiles, i, files, report, step);
      if step.StepRaised? {
        return ExternalRaised(step.error, files);
      }
      files, report := step.fs, report + step.actions;
      i := i + 1;
    }
    assert mdFiles[..i] == mdFiles;
    return ExternalDone(files, report);
  }

  /** One file further: its step is added to the run, or its exception ends
      the run. */
  lemma FilesAdvance(judge: Reference -> Verdict, fs: FileSystem, files: seq<string>, i: nat,
                     before: FileSystem, report: seq<ExternalAction>, step: FileStep)
    requires i < |files| && ExternalFiles(judge, fs, files[..i]) == ExternalDone(before, report)
    requires step == ExternalFile(judge, before, files[i])
    ensures step.Stepped? ==> ExternalFiles(judge, fs, files[..i + 1]) == ExternalDone(step.fs, report + step.actions)
    ensures step.StepRaised? ==> ExternalFiles(judge, fs, files) == ExternalRaised(step.error, before)
  {
    FilesStep(judge, fs, files, i);
    if step.StepRaised? {
      RaisedPersists(judge, fs, files, i + 1);
    }
  }

  // ---------------------------------------------------------------------------
  // Properties

  /** Every reference of a file is in range of the lines read back, so the
      patch can only stop on a new text that is not a string. */
  lemma ExtractedLinesExist(text: string, n: nat)
    requires n < |FileReferences(text)|
    ensures LineIndex(FileReferences(text)[n].ref.lineno, |ReadLines(text)|) == Some(FileReferences(text)[n].ref.lineno - 1)
  {
    FileReferenceFields(text, n);
  }

  /** Without a verdict that repairs, the patch loop keeps every line and
      reports each verdict as checked or failed. */
  lemma {:induction false} NothingToRepair(file: string, lines: seq<string>, vs: seq<Verdict>, i: nat)
    requires i <= |vs|
    requires forall k :: i <= k < |vs| ==> !Repairs(vs[k])
    ensures PatchFrom(file, lines, vs, i).Patched?
    ensures PatchFrom(file, lines, vs, i).lines == lines
    decreases |vs| - i
  {
    if i < |vs| {
      NothingToRepair(file, lines, vs, i + 1);
    }
  }

  /** A readable file in which nothing is repaired is written back with the
      text it had. */
  lemma UnrepairedFileKeepsText(judge: Reference -> Verdict, fs: FileSystem, file: string)
    requires file != [] && Read(fs, file).Some?
    requires var vs := Verdicts(judge, FileReferences(Read(fs, file).value));
      forall k :: 0 <= k < |vs| ==> !Repairs(vs[k])
    ensures ExternalFile(judge, fs, file).Stepped?
    ensures ExternalFile(judge, fs, file).fs == fs
  {
    var text := Read(fs, file).value;
    NothingToRepair(file, ReadLines(text), Verdicts(judge, FileReferences(text)), 0);
    ReadLinesRoundTrip(text);
    assert fs[file := Some(text)] == fs;
  }

  /** The OpenAI branch returns text, which is never a dict: every reference
      is reported as failed, with the answer quoted in the error. */
  lemma OpenAiVerdictFails(svc: Service, dec: Decoders, at: Endpoint, r: Reference)
    requires Lower(at.provider) == "openai"
    ensures var v := Judge(svc, dec, at, r);
      && !v.success && !Repairs(v)
      && v.error == JString(DataErrorPrefix + AskForReference(svc, dec, r.line, FootnoteIndex(r.numbering), at.prompt, at.url, at.key, at.provider).value.text)
  {
  }

  /** An unknown provider fails every reference without a request, naming
      the provider in the error. */
  lemma UnknownProviderVerdictFails(svc: Service, dec: Decoders, at: Endpoint, r: Reference)
    requires Lower(at.provider) != "openai" && Lower(at.provider) != "genai"
    ensures var v := Judge(svc, dec, at, r);
      && !v.success
      && v.error == JString(DataErrorPrefix + UnknownProvider(at.provider))
  {
  }

  /** When no verdict succeeds, a readable file keeps its text and its report
      has one `link_repair_failed` entry per reference, in order. */
  lemma NoSuccessKeepsText(judge: Reference -> Verdict, fs: FileSystem, file: string)
    requires file != [] && Read(fs, file).Some?
    requires var vs := Verdicts(judge, FileReferences(Read(fs, file).value));
      forall k :: 0 <= k < |vs| ==> !vs[k].success
    ensures var step := ExternalFile(judge, fs, file);
      var refs := FileReferences(Read(fs, file).value);
      && step.Stepped? && step.fs == fs && |step.actions| == |refs|
      && forall k :: 0 <= k < |refs| ==>
           && step.actions[k].LinkRepairFailed?
           && step.actions[k].lineno == judge(refs[k].ref).lineno && step.actions[k].orig == judge(refs[k].ref).line
  {
    var text := Read(fs, file).value;
    var refs := FileReferences(text);
    var vs := Verdicts(judge, refs);
    var p := PatchFrom(file, ReadLines(text), vs, 0);
    NoSuccessPatch(file, ReadLines(text), vs, 0);
    ReadLinesRoundTrip(text);
    assert ExternalFile(judge, fs, file) == Stepped(fs[file := Some(Concat(p.lines))], p.actions);
    assert fs[file := Some(text)] == fs;
    forall k | 0 <= k < |refs|
      ensures p.actions[k].LinkRepairFailed? && p.actions[k].lineno == judge(refs[k].ref).lineno && p.actions[k].orig == judge(refs[k].ref).line
    {
      assert vs[k] == judge(refs[k].ref);
      assert p.actions[k - 0].LinkRepairFailed?;
    }
  }

  /** Without a successful verdict the patch loop keeps the lines and reports
      each verdict as a failed repair. */
  lemma {:induction false} NoSuccessPatch(file: string, lines: seq<string>, vs: seq<Verdict>, i: nat)
    requires i <= |vs| && forall k :: i <= k < |vs| ==> !vs[k].success
    ensures var p := PatchFrom(file, lines, vs, i);
      && p.Patched? && p.lines == lines
      && forall k :: i <= k < |vs| ==> p.actions[k - i] == LinkRepairFailed(file, vs[k].lineno, vs[k].line, vs[k].error, vs[k].validationDate, vs[k].kind, vs[k].hint)
    decreases |vs| - i
  {
    if i < |vs| {
      NoSuccessPatch(file, lines, vs, i + 1);
    }
  }

  /** With OpenAI, a readable file keeps its text, and every reference is
      reported as a failed repair of its own line. */
  lemma OpenAiRepairsNothing(svc: Service, dec: Decoders, at: Endpoint, fs: FileSystem, file: string)
    requires Lower(at.provider) == "openai"
    requires file != [] && Read(fs, file).Some?
    ensures var step := ExternalFile(Judging(svc, dec, at), fs, file);
      var refs := FileReferences(Read(fs, file).value);
      && step.Stepped? && step.fs == fs && |step.actions| == |refs|
      && forall k :: 0 <= k < |refs| ==>
           step.actions[k].LinkRepairFailed? && step.actions[k].lineno == refs[k].ref.lineno && step.actions[k].orig == refs[k].ref.line
  {
    var judge := Judging(svc, dec, at);
    var refs := FileReferences(Read(fs, file).value);
    var vs := Verdicts(judge, refs);
    forall k | 0 <= k < |vs|
      ensures !vs[k].success && vs[k].lineno == refs[k].ref.lineno && vs[k].line == refs[k].ref.line
    {
      assert vs[k] == Judge(svc, dec, at, refs[k].ref);
      OpenAiVerdictFails(svc, dec, at, refs[k].ref);
    }
    NoSuccessKeepsText(judge, fs, file);
  }

  /** In the patched lines of a file, a line that no repairing verdict points
      at is written back as read. */
  lemma PatchTouchesOnlyRepairedLines(svc: Service, dec: Decoders, at: Endpoint, fs: FileSystem, file: string, j: nat)
    requires file != [] && Read(fs, file).Some?
    requires ExternalFile(Judging(svc, dec, at), fs, file).Stepped?
    requires var text := Read(fs, file).value;
      var refs := FileReferences(text);
      && j < |ReadLines(text)|
      && forall k :: 0 <= k < |refs| && Repairs(Judge(svc, dec, at, refs[k].ref)) ==> refs[k].ref.lineno != j + 1
    ensures var text := Read(fs, file).value;
      var p := PatchFrom(file, ReadLines(text), Verdicts(Judging(svc, dec, at), FileReferences(text)), 0);
      && p.Patched?
      && ExternalFile(Judging(svc, dec, at), fs, file).fs == fs[file := Some(Concat(p.lines))]
      && p.lines[j] == ReadLines(text)[j]
  {
    var text := Read(fs, file).value;
    var refs := FileReferences(text);
    var vs := Verdicts(Judging(svc, dec, at), refs);
    forall k | 0 <= k < |vs| && Repairs(vs[k])
      ensures LineIndex(vs[k].lineno, |ReadLines(text)|) != Some(j)
    {
      assert vs[k] == Judge(svc, dec, at, refs[k].ref);
      ExtractedLinesExist(text, k);
    }
    PatchRaisesIff(file, ReadLines(text), vs, 0);
    PatchKeeps(file, ReadLines(text), vs, 0, j);
  }

  /** A reference line read as `line + "\n"`, repaired to `new`, is written as
      `new`, the line end kept, and one more `"\n"`. */
  lemma {:induction false} RepairedLineDoublesNewline(line: string, replacement: string)
    requires line != [] && forall k :: 0 <= k < |line| ==> line[k] != '\n'
    ensures Replace(line + "\n", line, replacement) + "\n" == replacement + "\n\n"
  {
    var s := line + "\n";
    assert s[..|line|] == line;
    assert s[|line|..] == "\n";
    assert line[0] != '\n';
    if |line| == 1 {
      assert "\n"[..1] != line;
      assert "\n"[1..] == [];
    }
  }

  /** The line the repair test patches: `1. Example https://example.com`
      followed by a line end becomes `1. Example NEW` and two line ends. */
  lemma RepairExample()
    ensures Replace("1. Example https://example.com\n", "1. Example https://example.com", "1. Example NEW") + "\n"
         == "1. Example NEW\n\n"
  {
    RepairedLineDoublesNewline("1. Example https://example.com", "1. Example NEW");
  }

  /** Files not listed keep their text; a run that raises keeps the files
      written before the raising one. */
  lemma {:induction false} OnlyListedFilesChange(judge: Reference -> Verdict, fs: FileSystem, files: seq<string>)
    ensures var r := ExternalFiles(judge, fs, files);
      forall p :: p in fs && p !in files ==> p in r.fs && r.fs[p] == fs[p]
  {
    if files != [] {
      var init := files[..|files| - 1];
      OnlyListedFilesChange(judge, fs, init);
      assert forall p :: p in init ==> p in files;
    }
  }
}
