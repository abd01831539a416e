/** `_write_pandoc_header` of `utils.py`: the LaTeX header pandoc includes,
    written to `pandoc_header.tex` in the temporary directory, and the
    rewriting of the markdown file's wide tables that it triggers. */
module PandocHeader {
  import opened Wrappers
  import opened Text
  import opened Files
  import opened Paths
  import opened Tables

  /** `EMOJI_RANGES`: the code point ranges the emoji font is used for. */
  const EmojiRanges :=
    "1F300-1F5FF, 1F600-1F64F, 1F680-1F6FF, 1F700-1F77F, 1F780-1F7FF, "
    + "1F800-1F8FF, 1F900-1F9FF, 1FA00-1FA6F, 1FA70-1FAFF, "
    + "2600-26FF, 2700-27BF, 2300-23FF, 2B50, 2B06, 2934-2935, 25A0-25FF"

  const HeaderName := "pandoc_header.tex"

  /** The font the header treats specially. */
  const SegoeEmojiFont := "Segoe UI Emoji"

  /** The parts of the header, in the order they are written. An `OpenMoji`
      font and any other non-Segoe font give the same `EmojiFamily` line. */
  datatype Directive =
    | Fontspec
    | SansFont(font: string)
    | MonoFont(font: string)
    | MainFont(font: string)
    | EmojiFamily(font: string)
    | SegoeEmoji
    | WideTables
    | NoLongtable

  /** Where a part goes in the header. */
  function Rank(d: Directive): nat {
    match d
    case Fontspec => 0
    case SansFont(_) => 1
    case MonoFont(_) => 2
    case MainFont(_) => 3
    case EmojiFamily(_) => 4
    case SegoeEmoji => 4
    case WideTables => 5
    case NoLongtable => 6
  }

  /** The `hf.write` calls a part makes, one string per call. */
  function Writes(d: Directive): seq<string> {
    match d
    case Fontspec => ["\\usepackage{fontspec}\n"]
    case SansFont(f) => ["\\setsansfont{" + f + "}\n"]
    case MonoFont(f) => ["\\setmonofont{" + f + "}\n"]
    case MainFont(f) => ["\\setmainfont{" + f + "}\n"]
    case EmojiFamily(f) => ["\\newfontfamily\\EmojiOne{" + f + "}[Range={" + EmojiRanges + "}]\n"]
    case SegoeEmoji => [
      "\\IfFontExistsTF{Segoe UI Emoji}{\n",
      "  \\newfontfamily\\EmojiOne{Segoe UI Emoji}[Renderer=Harfbuzz,Range={" + EmojiRanges + "}]\n",
      "  \\directlua{luaotfload.add_fallback(\"mainfont\", \"Segoe UI Emoji:mode=harf\")}\n",
      "}{}\n"]
    case WideTables => [
      "\\usepackage{pdflscape}\n",
      "\\usepackage{ltablex}\n",
      "\\usepackage{tabularx}\n",
      "\\keepXColumns\n",
      "\\renewcommand\\_\\{\\textunderscore\\allowbreak\\}\n",
      "\\setlength{\\tabcolsep}{4pt}\n"]
    case NoLongtable => [
      "\\let\\oldlongtable\\longtable\n",
      "\\let\\oldendlongtable\\endlongtable\n",
      "\\renewenvironment{longtable}[1]{%\n",
      "  \\begin{tabular}{#1}%\n",
      "}{%\n",
      "  \\end{tabular}%\n",
      "}\n"]
  }

  /** The writes of the parts, in order. */
  function AllWrites(ds: seq<Directive>): seq<string> {
    Flat(ds, Writes)
  }

  function Flat<T>(ds: seq<T>, f: T -> seq<string>): seq<string> {
    if ds == [] then [] else Flat(ds[..|ds| - 1], f) + f(ds[|ds| - 1])
  }

  /** The options that choose the header's parts. */
  datatype HeaderOptions = HeaderOptions(
    emojiFont: string, sansFont: string, monoFont: string, mainFont: string,
    wrapTables: bool, writeMainfont: bool, disableLongtable: bool)

  /** The parts written before the wide tables are handled. */
  function FontDirectives(o: HeaderOptions): (r: seq<Directive>)
    ensures |r| >= 3 && r[..3] == [Fontspec, SansFont(o.sansFont), MonoFont(o.monoFont)]
  {
    [Fontspec, SansFont(o.sansFont), MonoFont(o.monoFont)]
    + (if o.writeMainfont then [MainFont(o.mainFont)] else [])
    + EmojiDirectives(o.emojiFont)
  }

  /** The main font is set only when asked for; the emoji part is the
      `Segoe UI Emoji` fallback or a font family line for the emoji font;
      the table parts come later. */
  lemma FontParts(o: HeaderOptions)
    ensures var r := FontDirectives(o);
      && (MainFont(o.mainFont) in r <==> o.writeMainfont)
      && (forall f :: MainFont(f) in r ==> f == o.mainFont)
      && (SegoeEmoji in r <==> o.emojiFont == SegoeEmojiFont)
      && (forall f :: EmojiFamily(f) in r <==> f == o.emojiFont && f != [] && f != SegoeEmojiFont)
      && WideTables !in r && NoLongtable !in r
  {
  }

  /** The emoji part: nothing without an emoji font, the guarded fallback
      for `Segoe UI Emoji`, one font family line for any other font. */
  function EmojiDirectives(emojiFont: string): seq<Directive> {
    if emojiFont == [] then []
    else if emojiFont == SegoeEmojiFont then [SegoeEmoji]
    else [EmojiFamily(emojiFont)]
  }

  /** Every part of the header, as `_write_pandoc_header` writes them: the
      font parts, then the wide-table packages, then the `longtable`
      replacement. */
  function Directives(o: HeaderOptions): (r: seq<Directive>)
    ensures |FontDirectives(o)| <= |r| && r[..|FontDirectives(o)|] == FontDirectives(o)
    ensures WideTables in r <==> o.wrapTables
    ensures NoLongtable in r <==> o.disableLongtable
    ensures forall i :: |FontDirectives(o)| <= i < |r| ==> r[i] == WideTables || r[i] == NoLongtable
  {
    var tables := if o.wrapTables then [WideTables] else [];
    var longtable := if o.disableLongtable then [NoLongtable] else [];
    var r := FontDirectives(o) + tables + longtable;
    assert r[..|FontDirectives(o)|] == FontDirectives(o);
    assert WideTables in r <==> WideTables in tables;
    assert NoLongtable in r <==> NoLongtable in longtable;
    r
  }

  /** Each part comes after the one before it in the header's fixed order. */
  predicate Ascending(ds: seq<Directive>) {
    forall i :: 0 < i < |ds| ==> Rank(ds[i - 1]) < Rank(ds[i])
  }

  /** What `_write_pandoc_header` leaves behind: the header written and its
      path returned, or the exception `wrap_wide_tables` raised, with the
      header holding what was written before it. */
  datatype HeaderOutcome = Written(fs: FileSystem, path: string) | Raised(fs: FileSystem)

  /** `_write_pandoc_header(...)`. The temporary directory and the markdown
      file are joined and read through the given path functions and file
      system; `convert` stands for pandoc's HTML-to-markdown conversion. The
      header file is written when it is closed, after the markdown file. */
  method WritePandocHeader(fs: FileSystem, paths: PathOps, tempDir: string, o: HeaderOptions,
                           threshold: int, mdFile: string, convert: string -> Option<string>)
    returns (r: HeaderOutcome)
    ensures var header := paths.join(tempDir, HeaderName);
      && (!o.wrapTables ==> r == Written(fs[header := Some(Concat(AllWrites(Directives(o))))], header))
      && (o.wrapTables && Read(fs, mdFile).None? ==>
            r == Raised(fs[header := Some(Concat(AllWrites(FontDirectives(o))))]))
      && (o.wrapTables && Read(fs, mdFile).Some? ==>
            r == Written(WrappedFile(fs, mdFile, threshold, convert)[header := Some(Concat(AllWrites(Directives(o))))], header))
  {
    var headerFile := paths.join(tempDir, HeaderName);
    var hf := WriteFonts(o);
    var ds := FontDirectives(o);
    var files := fs;
    if o.wrapTables {
      var wrapped := WrapWideTables(fs, mdFile, WrapStyle(threshold, false, "1cm"), convert);
      if wrapped.None? {
        return Raised(fs[headerFile := Some(Concat(hf))]);
      }
      files := wrapped.value;
      hf := WriteWideTables(hf);
      WritesStep(ds, WideTables);
      ds := ds + [WideTables];
    }
    if o.disableLongtable {
      hf := WriteNoLongtable(hf);
      WritesStep(ds, NoLongtable);
      ds := ds + [NoLongtable];
    }
    assert ds == Directives(o);
    return Written(files[headerFile := Some(Concat(hf))], headerFile);
  }

  /** The font part of the header. */
  method WriteFonts(o: HeaderOptions) returns (hf: seq<string>)
    ensures hf == AllWrites(FontDirectives(o))
  {
    hf := [];
    hf := hf + ["\\usepackage{fontspec}\n"];
    hf := hf + ["\\setsansfont{" + o.sansFont + "}\n"];
    hf := hf + ["\\setmonofont{" + o.monoFont + "}\n"];
    var ds := [Fontspec, SansFont(o.sansFont), MonoFont(o.monoFont)];
    FirstWrites(o);
    if o.writeMainfont {
      hf := hf + ["\\setmainfont{" + o.mainFont + "}\n"];
      WritesStep(ds, MainFont(o.mainFont));
      ds := ds + [MainFont(o.mainFont)];
    }
    hf := WriteEmoji(hf, o.emojiFont);
    AllWritesAppend(ds, EmojiDirectives(o.emojiFont));
    ds := ds + EmojiDirectives(o.emojiFont);
    assert ds == FontDirectives(o);
  }

  /** The emoji font lines. A font whose name starts with `OpenMoji` gets the
      same line as any other font but `Segoe UI Emoji`. */
  method WriteEmoji(before: seq<string>, emojiFont: string) returns (hf: seq<string>)
    ensures hf == before + AllWrites(EmojiDirectives(emojiFont))
  {
    hf := before;
    EmojiWrites(emojiFont);
    if emojiFont != [] {
      if StartsWith(emojiFont, "OpenMoji") {
        OpenMojiIsNotSegoe(emojiFont);
        hf := hf + ["\\newfontfamily\\EmojiOne{" + emojiFont + "}[Range={" + EmojiRanges + "}]\n"];
      } else if emojiFont == SegoeEmojiFont {
        hf := WriteSegoeEmoji(hf);
      } else {
        hf := hf + ["\\newfontfamily\\EmojiOne{" + emojiFont + "}[Range={" + EmojiRanges + "}]\n"];
      }
    } else {
      assert hf == before + [];
    }
  }

  /** The writes of the emoji part: none, the `Segoe UI Emoji` fallback, or
      one font family line. */
  lemma EmojiWrites(f: string)
    ensures f == [] ==> AllWrites(EmojiDirectives(f)) == []
    ensures f == SegoeEmojiFont ==> AllWrites(EmojiDirectives(f)) == Writes(SegoeEmoji)
    ensures f != [] && f != SegoeEmojiFont ==>
      AllWrites(EmojiDirectives(f)) == ["\\newfontfamily\\EmojiOne{" + f + "}[Range={" + EmojiRanges + "}]\n"]
  {
    if f != [] {
      WritesStep([], EmojiDirectives(f)[0]);
      assert [] + EmojiDirectives(f) == EmojiDirectives(f);
    }
  }

  lemma OpenMojiIsNotSegoe(f: string)
    requires StartsWith(f, "OpenMoji")
    ensures f != SegoeEmojiFont
  {
    assert f[0] == "OpenMoji"[0];
    assert SegoeEmojiFont[0] != 'O';
  }

  /** The `Segoe UI Emoji` fallback, guarded by `\IfFontExistsTF`. */
  method WriteSegoeEmoji(before: seq<string>) returns (hf: seq<string>)
    ensures hf == before + Writes(SegoeEmoji)
  {
    hf := before;
    hf := hf + ["\\IfFontExistsTF{Segoe UI Emoji}{\n"];
    hf := hf + ["  \\newfontfamily\\EmojiOne{Segoe UI Emoji}[Renderer=Harfbuzz,Range={" + EmojiRanges + "}]\n"];
    hf := hf + ["  \\directlua{luaotfload.add_fallback(\"mainfont\", \"Segoe UI Emoji:mode=harf\")}\n"];
    hf := hf + ["}{}\n"];
  }

  /** The packages for landscape pages and wrapped tables. */
  method WriteWideTables(before: seq<string>) returns (hf: seq<string>)
    ensures hf == before + Writes(WideTables)
  {
    hf := before;
    hf := hf + ["\\usepackage{pdflscape}\n"];
    hf := hf + ["\\usepackage{ltablex}\n"];
    hf := hf + ["\\usepackage{tabularx}\n"];
    hf := hf + ["\\keepXColumns\n"];
    hf := hf + ["\\renewcommand\\_\\{\\textunderscore\\allowbreak\\}\n"];
    hf := hf + ["\\setlength{\\tabcolsep}{4pt}\n"];
  }

  /** `longtable` redefined as a plain `tabular`. */
  method WriteNoLongtable(before: seq<string>) returns (hf: seq<string>)
    ensures hf == before + Writes(NoLongtable)
  {
    hf := before;
    hf := hf + ["\\let\\oldlongtable\\longtable\n"];
    hf := hf + ["\\let\\oldendlongtable\\endlongtable\n"];
    hf := hf + ["\\renewenvironment{longtable}[1]{%\n"];
    hf := hf + ["  \\begin{tabular}{#1}%\n"];
    hf := hf + ["}{%\n"];
    hf := hf + ["  \\end{tabular}%\n"];
    hf := hf + ["}\n"];
  }

  /** The markdown file after `wrap_wide_tables(md_file, threshold=threshold,
      use_raw_latex=False)`, when it can be read. */
  function WrappedFile(fs: FileSystem, mdFile: string, threshold: int, convert: string -> Option<string>): FileSystem
    requires Read(fs, mdFile).Some?
  {
    fs[mdFile := Some(Concat(WrappedLines(ReadLines(Read(fs, mdFile).value), WrapStyle(threshold, false, "1cm"), convert)))]
  }

  lemma WritesStep(ds: seq<Directive>, d: Directive)
    ensures AllWrites(ds + [d]) == AllWrites(ds) + Writes(d)
  {
    FlatStep(ds, d, Writes);
  }

  lemma FlatStep<T>(ds: seq<T>, d: T, f: T -> seq<string>)
    ensures Flat(ds + [d], f) == Flat(ds, f) + f(d)
  {
    assert (ds + [d])[..|ds|] == ds;
  }

  // ---------------------------------------------------------------------------
  // Properties

  lemma {:induction false} ConcatAppend(a: seq<string>, b: seq<string>)
    ensures Concat(a + b) == Concat(a) + Concat(b)
    decreases |a|
  {
    if a == [] {
      assert a + b == b;
    } else {
      assert (a + b)[1..] == a[1..] + b;
      ConcatAppend(a[1..], b);
    }
  }

  lemma {:induction false} FlatAppend<T>(a: seq<T>, b: seq<T>, f: T -> seq<string>)
    ensures Flat(a + b, f) == Flat(a, f) + Flat(b, f)
    decreases |b|
  {
    if b == [] {
      assert a + b == a;
    } else {
      var init := b[..|b| - 1];
      assert a + b == (a + init) + [b[|b| - 1]];
      FlatAppend(a, init, f);
      FlatStep(a + init, b[|b| - 1], f);
      FlatStep(init, b[|b| - 1], f);
      assert init + [b[|b| - 1]] == b;
    }
  }

  lemma AllWritesAppend(a: seq<Directive>, b: seq<Directive>)
    ensures AllWrites(a + b) == AllWrites(a) + AllWrites(b)
  {
    FlatAppend(a, b, Writes);
  }

  /** What the header holds when wrapping the tables raises is the start of
      the header that would have been written otherwise. */
  lemma PartialHeaderIsPrefix(o: HeaderOptions)
    ensures Concat(AllWrites(FontDirectives(o))) <= Concat(AllWrites(Directives(o)))
  {
    var rest := Directives(o)[|FontDirectives(o)|..];
    assert Directives(o) == FontDirectives(o) + rest;
    AllWritesAppend(FontDirectives(o), rest);
    ConcatAppend(AllWrites(FontDirectives(o)), AllWrites(rest));
  }

  /** The first three writes load `fontspec` and set the sans and mono
      fonts. */
  lemma FirstWrites(o: HeaderOptions)
    ensures AllWrites([Fontspec, SansFont(o.sansFont), MonoFont(o.monoFont)])
      == ["\\usepackage{fontspec}\n", "\\setsansfont{" + o.sansFont + "}\n", "\\setmonofont{" + o.monoFont + "}\n"]
  {
    WritesStep([], Fontspec);
    WritesStep([Fontspec], SansFont(o.sansFont));
    WritesStep([Fontspec, SansFont(o.sansFont)], MonoFont(o.monoFont));
    assert [] + [Fontspec] == [Fontspec];
    assert [Fontspec] + [SansFont(o.sansFont)] == [Fontspec, SansFont(o.sansFont)];
    assert [Fontspec, SansFont(o.sansFont)] + [MonoFont(o.monoFont)] == [Fontspec, SansFont(o.sansFont), MonoFont(o.monoFont)];
  }

  /** `\usepackage{fontspec}`, then the sans and the mono font. */
  function Opening(o: HeaderOptions): string {
    "\\usepackage{fontspec}\n" + ("\\setsansfont{" + o.sansFont + "}\n" + "\\setmonofont{" + o.monoFont + "}\n")
  }

  lemma ConcatThree(a: string, b: string, c: string, rest: seq<string>)
    ensures a + (b + c) <= Concat([a, b, c] + rest)
  {
    ConcatAppend([a, b, c], rest);
    ConcatCons(a, [b, c]);
    ConcatCons(b, [c]);
    ConcatCons(c, []);
    assert [a, b, c] == [a] + [b, c] && [b, c] == [b] + [c] && [c] == [c] + [];
  }

  /** The header always starts by loading `fontspec` and setting the sans and
      mono fonts, whatever the options. */
  lemma HeaderStartsWithFonts(o: HeaderOptions)
    ensures Opening(o) <= Concat(AllWrites(Directives(o)))
  {
    var ds := Directives(o);
    var head := [Fontspec, SansFont(o.sansFont), MonoFont(o.monoFont)];
    assert ds == head + ds[3..];
    AllWritesAppend(head, ds[3..]);
    FirstWrites(o);
    ConcatThree("\\usepackage{fontspec}\n", "\\setsansfont{" + o.sansFont + "}\n", "\\setmonofont{" + o.monoFont + "}\n", AllWrites(ds[3..]));
  }

  /** The parts come in the header's fixed order, each at most once. */
  lemma DirectivesAscending(o: HeaderOptions)
    ensures Ascending(Directives(o))
  {
    var ds := Directives(o);
    var n := |FontDirectives(o)|;
    forall i | 0 < i < |ds|
      ensures Rank(ds[i - 1]) < Rank(ds[i])
    {
      if i < n {
        assert ds[i - 1] == FontDirectives(o)[i - 1] && ds[i] == FontDirectives(o)[i];
        FontRanks(o, i);
      } else if i == n {
        assert ds[i - 1] == FontDirectives(o)[i - 1];
        assert ds[i - 1] in FontDirectives(o);
      } else {
        assert ds[i] == NoLongtable && ds[i - 1] == WideTables;
      }
    }
  }

  lemma FontRanks(o: HeaderOptions, i: nat)
    requires 0 < i < |FontDirectives(o)|
    ensures Rank(FontDirectives(o)[i - 1]) < Rank(FontDirectives(o)[i])
  {
  }
}
