/** The markdown table checks of `utils.py`: `validate_table_columns`, which
    reports rows whose column count differs from the first row of their
    table, and `wrap_wide_tables`, which puts a landscape wrapper around
    tables with more columns than a threshold. */
module Tables {
  import opened Wrappers
  import opened Text
  import opened Files

  /** `line.lstrip().startswith("|")`: the first character that is not
      whitespace is `|`. */
  predicate IsTableLine(line: string) {
    var k := SkipSpace(line, 0);
    k < |line| && line[k] == '|'
  }

  /** `line.count("|") - 1`. */
  function Columns(line: string): int {
    CountChar(line, '|') - 1
  }

  /** The first line of the run of table lines that line `i` belongs to. */
  function RunStart(lines: seq<string>, i: nat): (s: nat)
    requires i < |lines| && IsTableLine(lines[i])
    ensures s <= i
    ensures forall k :: s <= k <= i ==> IsTableLine(lines[k])
    ensures s == 0 || !IsTableLine(lines[s - 1])
  {
    if i > 0 && IsTableLine(lines[i - 1]) then RunStart(lines, i - 1) else i
  }

  // ---------------------------------------------------------------------------
  // validate_table_columns

  /** A row whose column count is not the one its table started with. */
  datatype Mismatch = Mismatch(lineno: nat, cols: int, expected: int)

  /** The mismatches among the first `n` lines, in line order. */
  function Mismatches(lines: seq<string>, n: nat): seq<Mismatch>
    requires n <= |lines|
  {
    if n == 0 then []
    else
      var i := n - 1;
      Mismatches(lines, i) + RowMismatch(lines, i)
  }

  /** The report on line `i`, if any: a table line whose column count is not
      that of its table's first line. */
  function RowMismatch(lines: seq<string>, i: nat): seq<Mismatch>
    requires i < |lines|
  {
    if IsTableLine(lines[i]) && Columns(lines[i]) != Columns(lines[RunStart(lines, i)])
    then [Mismatch(i + 1, Columns(lines[i]), Columns(lines[RunStart(lines, i)]))]
    else []
  }

  /** What a report on a line says: the line is a table line, its count and
      the count of its table's first line, which differ. */
  predicate Misfit(lines: seq<string>, m: Mismatch)
    requires 1 <= m.lineno <= |lines|
  {
    && IsTableLine(lines[m.lineno - 1])
    && m.cols == Columns(lines[m.lineno - 1])
    && m.expected == Columns(lines[RunStart(lines, m.lineno - 1)])
    && m.cols != m.expected
  }

  lemma RowMismatchIff(lines: seq<string>, i: nat, m: Mismatch)
    requires i < |lines|
    ensures m in RowMismatch(lines, i) <==> m.lineno == i + 1 && Misfit(lines, m)
  {
  }

  /** `f"Line {idx}: has {cols} columns (expected {ref_cols})"`. */
  function Message(m: Mismatch): string {
    "Line " + NatToString(m.lineno) + ": has " + IntToString(m.cols) + " columns (expected " + IntToString(m.expected) + ")"
  }

  function Messages(ms: seq<Mismatch>): (r: seq<string>)
    ensures |r| == |ms|
  {
    seq(|ms|, k requires 0 <= k < |ms| => Message(ms[k]))
  }

  /** The loop of `validate_table_columns` over the lines read. */
  method ValidateTableColumns(lines: seq<string>) returns (errors: seq<string>)
    ensures errors == Messages(Mismatches(lines, |lines|))
  {
    errors := [];
    var refCols := 0;
    var inTable := false;
    var i := 0;
    while i < |lines|
      invariant 0 <= i <= |lines|
      invariant inTable <==> i > 0 && IsTableLine(lines[i - 1])
      invariant inTable ==> refCols == Columns(lines[RunStart(lines, i - 1)])
      invariant errors == Messages(Mismatches(lines, i))
    {
      var line := lines[i];
      MismatchStep(lines, i);
      if IsTableLine(line) {
        var cols := Columns(line);
        if !inTable {
          inTable := true;
          refCols := cols;
        }
        assert refCols == Columns(lines[RunStart(lines, i)]);
        if cols != refCols {
          MessagesAppend(Mismatches(lines, i), Mismatch(i + 1, cols, refCols));
          errors := errors + [Message(Mismatch(i + 1, cols, refCols))];
        }
      } else {
        inTable := false;
        refCols := 0;
      }
      i := i + 1;
    }
  }

  lemma MismatchStep(lines: seq<string>, i: nat)
    requires i < |lines|
    ensures Mismatches(lines, i + 1) == Mismatches(lines, i) + RowMismatch(lines, i)
  {
  }

  lemma MessagesAppend(ms: seq<Mismatch>, m: Mismatch)
    ensures Messages(ms + [m]) == Messages(ms) + [Message(m)]
  {
  }

  /** `validate_table_columns(md_file)`: `None` where opening the file raises. */
  method ValidateFile(fs: FileSystem, mdFile: string) returns (r: Option<seq<string>>)
    ensures Read(fs, mdFile).None? ==> r.None?
    ensures Read(fs, mdFile).Some? ==>
      var lines := ReadLines(Read(fs, mdFile).value);
      r == Some(Messages(Mismatches(lines, |lines|)))
  {
    var text := Read(fs, mdFile);
    if text.None? {
      return None;
    }
    var errors := ValidateTableColumns(ReadLines(text.value));
    return Some(errors);
  }

  /** A line is reported exactly when it is a table line whose column count
      differs from that of the first line of its table. */
  lemma {:induction false} MismatchIff(lines: seq<string>, n: nat, m: Mismatch)
    requires n <= |lines|
    ensures m in Mismatches(lines, n) <==> 1 <= m.lineno <= n && Misfit(lines, m)
  {
    if n > 0 {
      var i := n - 1;
      MismatchIff(lines, i, m);
      RowMismatchIff(lines, i, m);
      assert m in Mismatches(lines, n) <==> m in Mismatches(lines, i) || m in RowMismatch(lines, i);
    }
  }

  /** Reports come in line order, at most one per line. */
  lemma {:induction false} MismatchesAscend(lines: seq<string>, n: nat)
    requires n <= |lines|
    ensures forall k :: 0 <= k < |Mismatches(lines, n)| ==> Mismatches(lines, n)[k].lineno <= n
    ensures forall k :: 0 < k < |Mismatches(lines, n)| ==> Mismatches(lines, n)[k - 1].lineno < Mismatches(lines, n)[k].lineno
  {
    if n > 0 {
      var i := n - 1;
      MismatchesAscend(lines, i);
      AscendSnoc(Mismatches(lines, i), RowMismatch(lines, i), n);
    }
  }

  lemma AscendSnoc(prev: seq<Mismatch>, extra: seq<Mismatch>, n: nat)
    requires forall k :: 0 <= k < |prev| ==> prev[k].lineno < n
    requires forall k :: 0 < k < |prev| ==> prev[k - 1].lineno < prev[k].lineno
    requires |extra| <= 1 && forall k :: 0 <= k < |extra| ==> extra[k].lineno == n
    ensures forall k :: 0 <= k < |prev + extra| ==> (prev + extra)[k].lineno <= n
    ensures forall k :: 0 < k < |prev + extra| ==> (prev + extra)[k - 1].lineno < (prev + extra)[k].lineno
  {
  }

  /** The first line of a table is never reported. */
  lemma FirstRowNeverReported(lines: seq<string>, i: nat, m: Mismatch)
    requires i < |lines| && IsTableLine(lines[i]) && (i == 0 || !IsTableLine(lines[i - 1]))
    requires m in Mismatches(lines, |lines|)
    ensures m.lineno != i + 1
  {
    MismatchIff(lines, |lines|, m);
  }

  /** A table of three rows of `e` columns and a fourth of another count, as
      in `|A|B|`, `|--|--|`, `|1|2|`, `|3|`: only the fourth line is
      reported, against the column count of the first. */
  lemma ShortRowReported(a: string, b: string, c: string, d: string)
    requires IsTableLine(a) && IsTableLine(b) && IsTableLine(c) && IsTableLine(d)
    requires Columns(b) == Columns(a) && Columns(c) == Columns(a) && Columns(d) != Columns(a)
    ensures Mismatches([a, b, c, d], 4) == [Mismatch(4, Columns(d), Columns(a))]
  {
    var lines := [a, b, c, d];
    assert RunStart(lines, 0) == 0;
    assert RunStart(lines, 1) == 0;
    assert RunStart(lines, 2) == 0;
    assert RunStart(lines, 3) == 0;
    MismatchStep(lines, 0);
    MismatchStep(lines, 1);
    MismatchStep(lines, 2);
    MismatchStep(lines, 3);
  }

  // ---------------------------------------------------------------------------
  // wrap_wide_tables

  /** A line that toggles the code state: `line.startswith("```")`. */
  predicate IsFence(line: string) {
    StartsWith(line, "```")
  }

  /** `line.lstrip().startswith("<table")`. */
  predicate IsHtmlStart(line: string) {
    OccursAt(line, "<table", SkipSpace(line, 0))
  }

  /** The parameters of `wrap_wide_tables` besides the file. */
  datatype WrapStyle = WrapStyle(threshold: int, rawLatex: bool, margin: string)

  /** How the loop of `wrap_wide_tables` takes the lines apart, each part
      with the index of its first line. */
  datatype Block =
    | Plain(at: nat, line: string)
    | Table(at: nat, rows: seq<string>)
    | Html(at: nat, rows: seq<string>)

  /** The end of the run of table lines starting at `i`. */
  function TableEnd(lines: seq<string>, i: nat): (j: nat)
    requires i <= |lines|
    ensures i <= j <= |lines|
    ensures forall k :: i <= k < j ==> IsTableLine(lines[k])
    ensures j == |lines| || !IsTableLine(lines[j])
    decreases |lines| - i
  {
    if i < |lines| && IsTableLine(lines[i]) then TableEnd(lines, i + 1) else i
  }

  /** The end of an HTML table: just past the first line from `i` on that
      holds `</table>`, or the end of the file. */
  function HtmlEnd(lines: seq<string>, i: nat): (j: nat)
    requires i < |lines|
    ensures i < j <= |lines|
    ensures forall k :: i <= k < j - 1 ==> !Contains(lines[k], "</table>")
    ensures j == |lines| || Contains(lines[j - 1], "</table>")
    decreases |lines| - i
  {
    if Contains(lines[i], "</table>") || i + 1 == |lines| then i + 1 else HtmlEnd(lines, i + 1)
  }

  /** The part starting at line `i`, where the loop goes on, and the code
      state it goes on with. */
  datatype Step = Step(block: Block, next: nat, inCode: bool)

  function First(lines: seq<string>, i: nat, inCode: bool): (r: Step)
    requires i < |lines|
    ensures i < r.next <= |lines| && r.block.at == i
    ensures r.inCode == (if IsFence(lines[i]) then !inCode else inCode)
  {
    if IsFence(lines[i]) then Step(Plain(i, lines[i]), i + 1, !inCode)
    else if inCode then Step(Plain(i, lines[i]), i + 1, inCode)
    else if IsTableLine(lines[i]) then
      var j := TableEnd(lines, i);
      TableLineIsNoFence(lines[i]);
      Step(Table(i, lines[i..j]), j, inCode)
    else if IsHtmlStart(lines[i]) then
      var j := HtmlEnd(lines, i);
      Step(Html(i, lines[i..j]), j, inCode)
    else Step(Plain(i, lines[i]), i + 1, inCode)
  }

  /** The parts from line `i` on, with `inCode` the state of the fence toggle. */
  function Blocks(lines: seq<string>, i: nat, inCode: bool): seq<Block>
    requires i <= |lines|
    decreases |lines| - i
  {
    if i == |lines| then []
    else
      var step := First(lines, i, inCode);
      [step.block] + Blocks(lines, step.next, step.inCode)
  }

  /** The lines of the parts, in order. */
  function Flatten(blocks: seq<Block>): seq<string> {
    if blocks == [] then []
    else
      (match blocks[0]
       case Plain(_, line) => [line]
       case Table(_, rows) => rows
       case Html(_, rows) => rows)
      + Flatten(blocks[1..])
  }

  /** `[l.count("|") - 1 for l in table if l.lstrip().startswith("|")]`. */
  function ColumnCounts(table: seq<string>): (cols: seq<int>)
    ensures |cols| <= |table|
  {
    if table == [] then []
    else (if IsTableLine(table[0]) then [Columns(table[0])] else []) + ColumnCounts(table[1..])
  }

  function MaxOf(xs: seq<int>): (m: int)
    requires xs != []
    ensures m in xs
    ensures forall k :: 0 <= k < |xs| ==> xs[k] <= m
  {
    if |xs| == 1 then xs[0]
    else
      var rest := MaxOf(xs[1..]);
      assert rest in xs[1..];
      if xs[0] < rest then rest else xs[0]
  }

  /** `f"::: {{.landscape cols={max_cols}}}\n"`. */
  function LandscapeOpen(cols: int): string {
    "::: {.landscape cols=" + IntToString(cols) + "}\n"
  }

  const LandscapeClose := ":::\n"

  function LatexOpen(margin: string): seq<string> {
    ["```{=latex}\n", "\\newgeometry{margin=" + margin + ",landscape}\n",
     "\\begin{adjustbox}{max width=\\linewidth,center}\n", "```\n"]
  }

  const LatexClose: seq<string> := ["```{=latex}\n", "\\end{adjustbox}\n", "\\restoregeometry\n", "```\n"]

  /** The inner `wrap(table)`. */
  function Wrap(table: seq<string>, st: WrapStyle): seq<string> {
    var cols := ColumnCounts(table);
    if cols == [] then table
    else
      var widest := MaxOf(cols);
      if widest <= st.threshold then table
      else if !st.rawLatex then [LandscapeOpen(widest)] + table + [LandscapeClose]
      else LatexOpen(st.margin) + table + LatexClose
  }

  /** An HTML table after `pandoc -f html -t gfm`: the output's lines, each
      with `"\n"`; the lines as read when running pandoc raises (`None`). */
  function Converted(rows: seq<string>, convert: string -> Option<string>): seq<string> {
    match convert(Concat(rows))
    case Some(out) =>
      var md := SplitLines(out);
      seq(|md|, k requires 0 <= k < |md| => md[k] + "\n")
    case None => rows
  }

  function Render(b: Block, st: WrapStyle, convert: string -> Option<string>): seq<string> {
    match b
    case Plain(_, line) => [line]
    case Table(_, rows) => Wrap(rows, st)
    case Html(_, rows) => Wrap(Converted(rows, convert), st)
  }

  function RenderAll(blocks: seq<Block>, st: WrapStyle, convert: string -> Option<string>): seq<string> {
    if blocks == [] then [] else Render(blocks[0], st, convert) + RenderAll(blocks[1..], st, convert)
  }

  /** The lines `wrap_wide_tables` writes back. */
  function WrappedLines(lines: seq<string>, st: WrapStyle, convert: string -> Option<string>): seq<string> {
    RenderAll(Blocks(lines, 0, false), st, convert)
  }

  lemma RenderAllCons(b: Block, rest: seq<Block>, st: WrapStyle, convert: string -> Option<string>)
    ensures RenderAll([b] + rest, st, convert) == Render(b, st, convert) + RenderAll(rest, st, convert)
  {
    assert ([b] + rest)[1..] == rest;
  }

  /** The inner loop that gathers a markdown table. */
  method CollectTable(lines: seq<string>, start: nat) returns (table: seq<string>, i: nat)
    requires start <= |lines|
    ensures i == TableEnd(lines, start) && table == lines[start..i]
  {
    i := start;
    table := [];
    while i < |lines| && IsTableLine(lines[i])
      invariant start <= i <= |lines|
      invariant table == lines[start..i]
      invariant TableEnd(lines, i) == TableEnd(lines, start)
      decreases |lines| - i
    {
      table := table + [lines[i]];
      i := i + 1;
    }
  }

  /** The inner loop that gathers an HTML table, up to and including the
      line holding `</table>`. */
  method CollectHtml(lines: seq<string>, start: nat) returns (rows: seq<string>, i: nat)
    requires start < |lines|
    ensures i == HtmlEnd(lines, start) && rows == lines[start..i]
  {
    i := start;
    rows := [];
    var closed := false;
    while i < |lines| && !closed
      invariant start <= i <= |lines|
      invariant rows == lines[start..i]
      invariant closed ==> i == HtmlEnd(lines, start)
      invariant !closed && i < |lines| ==> HtmlEnd(lines, i) == HtmlEnd(lines, start)
      invariant !closed && i == |lines| ==> HtmlEnd(lines, start) == |lines|
      decreases |lines| - i
    {
      rows := rows + [lines[i]];
      if Contains(lines[i], "</table>") {
        closed := true;
      }
      i := i + 1;
    }
  }

  /** One pass of the loop of `wrap_wide_tables`: the lines it appends, where
      it goes on and the code state it goes on with. */
  method WrapStep(lines: seq<string>, i: nat, inCode: bool, st: WrapStyle, convert: string -> Option<string>)
    returns (piece: seq<string>, j: nat, code: bool)
    requires i < |lines|
    ensures i < j <= |lines|
    ensures RenderAll(Blocks(lines, i, inCode), st, convert) == piece + RenderAll(Blocks(lines, j, code), st, convert)
  {
    var step := First(lines, i, inCode);
    RenderAllCons(step.block, Blocks(lines, step.next, step.inCode), st, convert);
    var line := lines[i];
    if IsFence(line) {
      return [line], i + 1, !inCode;
    } else if inCode {
      return [line], i + 1, inCode;
    } else if IsTableLine(line) {
      var table;
      table, j := CollectTable(lines, i);
      return Wrap(table, st), j, inCode;
    } else if IsHtmlStart(line) {
      var rows;
      rows, j := CollectHtml(lines, i);
      return Wrap(Converted(rows, convert), st), j, inCode;
    } else {
      return [line], i + 1, inCode;
    }
  }

  lemma Regroup(out: seq<string>, piece: seq<string>, rest: seq<string>)
    ensures out + (piece + rest) == (out + piece) + rest
  {
  }

  /** The loop of `wrap_wide_tables` over the lines read. */
  method WrapLines(lines: seq<string>, st: WrapStyle, convert: string -> Option<string>) returns (out: seq<string>)
    ensures out == WrappedLines(lines, st, convert)
  {
    out := [];
    var i := 0;
    var inCode := false;
    ghost var whole := WrappedLines(lines, st, convert);
    while i < |lines|
      invariant 0 <= i <= |lines|
      invariant out + RenderAll(Blocks(lines, i, inCode), st, convert) == whole
      decreases |lines| - i
    {
      var piece, j, code := WrapStep(lines, i, inCode, st, convert);
      Regroup(out, piece, RenderAll(Blocks(lines, j, code), st, convert));
      out, i, inCode := out + piece, j, code;
    }
    assert RenderAll(Blocks(lines, i, inCode), st, convert) == [];
    assert out + [] == out;
  }

  /** `wrap_wide_tables(md_file, threshold, use_raw_latex, margin)`: the file
      rewritten, or `None` where reading it raises. */
  method WrapWideTables(fs: FileSystem, mdFile: string, st: WrapStyle, convert: string -> Option<string>)
    returns (r: Option<FileSystem>)
    ensures Read(fs, mdFile).None? ==> r.None?
    ensures Read(fs, mdFile).Some? ==>
      r == Some(fs[mdFile := Some(Concat(WrappedLines(ReadLines(Read(fs, mdFile).value), st, convert)))])
  {
    var text := Read(fs, mdFile);
    if text.None? {
      return None;
    }
    var out := WrapLines(ReadLines(text.value), st, convert);
    return Some(fs[mdFile := Some(Concat(out))]);
  }

  // ---------------------------------------------------------------------------
  // Properties of wrap_wide_tables

  lemma FlattenCons(b: Block, rest: seq<Block>)
    ensures Flatten([b] + rest) == Flatten([b]) + Flatten(rest)
  {
    assert ([b] + rest)[1..] == rest;
    assert [b][1..] == [];
  }

  /** The parts cover the lines read, in order and without overlap. */
  lemma {:induction false} BlocksCoverLines(lines: seq<string>, i: nat, inCode: bool)
    requires i <= |lines|
    ensures Flatten(Blocks(lines, i, inCode)) == lines[i..]
    decreases |lines| - i
  {
    if i < |lines| {
      var step := First(lines, i, inCode);
      var j := step.next;
      BlocksCons(lines, i, inCode);
      BlocksCoverLines(lines, j, step.inCode);
      FlattenCons(step.block, Blocks(lines, j, step.inCode));
      FirstCovers(lines, i, inCode);
      SliceJoin(lines, i, j);
    }
  }

  lemma SliceJoin(s: seq<string>, i: nat, j: nat)
    requires i <= j <= |s|
    ensures s[i..] == s[i..j] + s[j..]
  {
  }

  lemma BlocksCons(lines: seq<string>, i: nat, inCode: bool)
    requires i < |lines|
    ensures Blocks(lines, i, inCode) == [First(lines, i, inCode).block] + Blocks(lines, First(lines, i, inCode).next, First(lines, i, inCode).inCode)
  {
  }

  /** The first part holds the lines up to where the loop goes on. */
  lemma FirstCovers(lines: seq<string>, i: nat, inCode: bool)
    requires i < |lines|
    ensures Flatten([First(lines, i, inCode).block]) == lines[i..First(lines, i, inCode).next]
  {
    var b := First(lines, i, inCode).block;
    assert [b][1..] == [];
    if b.Plain? {
      assert lines[i..i + 1] == [lines[i]];
    }
  }

  /** The table parts are maximal runs of table lines outside code, taken
      where they stand. */
  lemma {:induction false} TableBlocksAreRuns(lines: seq<string>, i: nat, inCode: bool, b: Block)
    requires i <= |lines|
    requires b in Blocks(lines, i, inCode) && b.Table?
    ensures i <= b.at && b.at + |b.rows| <= |lines| && b.rows == lines[b.at..b.at + |b.rows|]
    ensures b.rows != [] && forall k :: 0 <= k < |b.rows| ==> IsTableLine(b.rows[k])
    ensures b.at + |b.rows| == |lines| || !IsTableLine(lines[b.at + |b.rows|])
    decreases |lines| - i
  {
    var step := First(lines, i, inCode);
    if b != step.block {
      TableBlocksAreRuns(lines, step.next, step.inCode, b);
    }
  }

  /** The state of the fence toggle in front of line `k`, counting every
      fence line before it. */
  function InCode(lines: seq<string>, k: nat): bool
    requires k <= |lines|
  {
    if k == 0 then false else if IsFence(lines[k - 1]) then !InCode(lines, k - 1) else InCode(lines, k - 1)
  }

  predicate NoHtml(lines: seq<string>) {
    forall k :: 0 <= k < |lines| ==> !IsHtmlStart(lines[k])
  }

  /** A table line never starts a fence. */
  lemma TableLineIsNoFence(line: string)
    requires IsTableLine(line)
    ensures !IsFence(line)
  {
    if SkipSpace(line, 0) == 0 {
      assert line[0] == '|';
    } else {
      assert IsSpace(line[0]);
    }
  }

  lemma {:induction false} NoFenceKeepsCode(lines: seq<string>, i: nat, j: nat)
    requires i <= j <= |lines|
    requires forall k :: i <= k < j ==> !IsFence(lines[k])
    ensures InCode(lines, j) == InCode(lines, i)
    decreases j - i
  {
    if i < j {
      NoFenceKeepsCode(lines, i, j - 1);
    }
  }

  /** Without HTML tables, every fence line and every line inside a fenced
      block is written back as it was read, as a part of its own. */
  lemma {:induction false} CodeLinesStayPlain(lines: seq<string>, i: nat, k: nat)
    requires NoHtml(lines)
    requires i <= k < |lines| && (IsFence(lines[k]) || InCode(lines, k))
    ensures Plain(k, lines[k]) in Blocks(lines, i, InCode(lines, i))
    decreases |lines| - i
  {
    var step := First(lines, i, InCode(lines, i));
    var j := step.next;
    BlocksCons(lines, i, InCode(lines, i));
    if k < j {
      FirstHoldsCodeLine(lines, i, k);
    } else {
      FirstKeepsCode(lines, i);
      CodeLinesStayPlain(lines, j, k);
    }
  }

  /** Without HTML tables, the loop goes on with the code state of the line
      it goes on at. */
  lemma FirstKeepsCode(lines: seq<string>, i: nat)
    requires NoHtml(lines) && i < |lines|
    ensures First(lines, i, InCode(lines, i)).inCode == InCode(lines, First(lines, i, InCode(lines, i)).next)
  {
    var step := First(lines, i, InCode(lines, i));
    if step.block.Table? {
      forall m | i <= m < step.next
        ensures !IsFence(lines[m])
      {
        TableLineIsNoFence(lines[m]);
      }
      NoFenceKeepsCode(lines, i, step.next);
    }
  }

  /** Without HTML tables, a fence line or a line inside a fenced block that
      the first part covers is that part, alone. */
  lemma FirstHoldsCodeLine(lines: seq<string>, i: nat, k: nat)
    requires NoHtml(lines) && i <= k < |lines|
    requires k < First(lines, i, InCode(lines, i)).next
    requires IsFence(lines[k]) || InCode(lines, k)
    ensures First(lines, i, InCode(lines, i)).block == Plain(k, lines[k])
  {
    var step := First(lines, i, InCode(lines, i));
    if step.block.Table? {
      TableLineIsNoFence(lines[k]);
      forall m | i <= m < k
        ensures !IsFence(lines[m])
      {
        TableLineIsNoFence(lines[m]);
      }
      NoFenceKeepsCode(lines, i, k);
      assert false;
    }
  }

  /** A table is wrapped exactly when its widest row has more columns than
      the threshold, and then only wrapper lines are added around it. */
  lemma WrapCases(table: seq<string>, st: WrapStyle)
    ensures var cols := ColumnCounts(table);
      var wide := cols != [] && MaxOf(cols) > st.threshold;
      && (!wide ==> Wrap(table, st) == table)
      && (wide && !st.rawLatex ==> Wrap(table, st) == [LandscapeOpen(MaxOf(cols))] + table + [LandscapeClose])
      && (wide && st.rawLatex ==> Wrap(table, st) == LatexOpen(st.margin) + table + LatexClose)
  {
  }

  lemma {:induction false} ColumnCountsBound(table: seq<string>, bound: int)
    requires forall k :: 0 <= k < |table| && IsTableLine(table[k]) ==> Columns(table[k]) <= bound
    ensures forall k :: 0 <= k < |ColumnCounts(table)| ==> ColumnCounts(table)[k] <= bound
  {
    if table != [] {
      ColumnCountsBound(table[1..], bound);
    }
  }

  lemma SliceSplit(lines: seq<string>, i: nat, j: nat)
    requires i <= j <= |lines|
    ensures lines[i..] == lines[i..j] + lines[j..]
  {
  }

  lemma NarrowFirst(lines: seq<string>, i: nat, inCode: bool, st: WrapStyle, convert: string -> Option<string>)
    requires i < |lines| && NoHtml(lines)
    requires forall k :: 0 <= k < |lines| && IsTableLine(lines[k]) ==> Columns(lines[k]) <= st.threshold
    ensures Render(First(lines, i, inCode).block, st, convert) == lines[i..First(lines, i, inCode).next]
  {
    var step := First(lines, i, inCode);
    if step.block.Table? {
      ColumnCountsBound(lines[i..step.next], st.threshold);
    }
  }

  /** Without HTML tables and without a table line wider than the threshold,
      the file is written back unchanged. */
  lemma {:induction false} NarrowTablesUnchanged(lines: seq<string>, i: nat, inCode: bool, st: WrapStyle, convert: string -> Option<string>)
    requires i <= |lines| && NoHtml(lines)
    requires forall k :: 0 <= k < |lines| && IsTableLine(lines[k]) ==> Columns(lines[k]) <= st.threshold
    ensures RenderAll(Blocks(lines, i, inCode), st, convert) == lines[i..]
    decreases |lines| - i
  {
    if i < |lines| {
      var step := First(lines, i, inCode);
      var j := step.next;
      NarrowTablesUnchanged(lines, j, step.inCode, st, convert);
      RenderAllCons(step.block, Blocks(lines, j, step.inCode), st, convert);
      NarrowFirst(lines, i, inCode, st, convert);
      SliceSplit(lines, i, j);
    }
  }

  lemma RenderOne(b: Block, st: WrapStyle, convert: string -> Option<string>)
    ensures RenderAll([b], st, convert) == Render(b, st, convert)
  {
    assert [b][1..] == [];
  }

  lemma RenderTable(at: nat, rows: seq<string>, st: WrapStyle, convert: string -> Option<string>)
    ensures Render(Table(at, rows), st, convert) == Wrap(rows, st)
  {
  }

  predicate AllTableLines(lines: seq<string>) {
    forall k :: 0 <= k < |lines| ==> IsTableLine(lines[k])
  }

  lemma OneTable(lines: seq<string>)
    requires lines != [] && AllTableLines(lines)
    ensures Blocks(lines, 0, false) == [Table(0, lines)]
  {
    TableLineIsNoFence(lines[0]);
    assert TableEnd(lines, 0) == |lines|;
    assert lines[0..|lines|] == lines;
    assert First(lines, 0, false) == Step(Table(0, lines), |lines|, false);
  }

  /** A file that is one table wider than the threshold is written back
      between `::: {.landscape cols=N}` and `:::`. */
  lemma WideTableWrapped(lines: seq<string>, st: WrapStyle, convert: string -> Option<string>)
    requires lines != [] && AllTableLines(lines)
    requires !st.rawLatex && MaxOf(ColumnCounts(lines)) > st.threshold
    ensures WrappedLines(lines, st, convert) == [LandscapeOpen(MaxOf(ColumnCounts(lines)))] + lines + [LandscapeClose]
  {
    OneTable(lines);
    RenderOne(Table(0, lines), st, convert);
    RenderTable(0, lines, st, convert);
    WrapCases(lines, st);
  }
}
