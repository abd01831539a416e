/** `emoji_report` of `utils.py`: the characters outside ASCII and Latin-1
    to Latin Extended-B, counted per Unicode block, and the markdown table of
    the counts, the largest count first. */
module Emoji {
  import opened Wrappers
  import opened Text
  import opened Files

  /** A character `[^\u0000-\u007F\u00A0-\u024F]` matches. */
  predicate Reported(c: char) {
    !(c <= '\U{7F}' || '\U{A0}' <= c <= '\U{24F}')
  }

  datatype UnicodeBlock = UnicodeBlock(name: string, first: int, last: int)

  predicate InBlock(b: UnicodeBlock, cp: int) {
    b.first <= cp <= b.last
  }

  /** `EMOJI_BLOCKS`, in the order they are tried. */
  const EmojiBlocks: seq<UnicodeBlock> := [
    UnicodeBlock("Emoticons", 0x1F600, 0x1F64F),
    UnicodeBlock("Transport and Map Symbols", 0x1F680, 0x1F6FF),
    UnicodeBlock("Misc Symbols and Pictographs", 0x1F300, 0x1F5FF),
    UnicodeBlock("Supplemental Symbols and Pictographs", 0x1F900, 0x1F9FF),
    UnicodeBlock("Symbols and Pictographs Extended-A", 0x1FA70, 0x1FAFF),
    UnicodeBlock("Miscellaneous Symbols", 0x2600, 0x26FF),
    UnicodeBlock("Dingbats", 0x2700, 0x27BF),
    UnicodeBlock("Flags", 0x1F1E6, 0x1F1FF),
    UnicodeBlock("Alchemical Symbols", 0x1F700, 0x1F77F),
    UnicodeBlock("Enclosed Alphanumeric Supplement", 0x1F100, 0x1F1FF)
  ]

  const UnknownBlock := "Unknown"

  /** The name of the first block from `i` on that holds `cp`, else `"Unknown"`. */
  function BlockFrom(cp: int, i: nat): string
    requires i <= |EmojiBlocks|
    decreases |EmojiBlocks| - i
  {
    if i == |EmojiBlocks| then UnknownBlock
    else if InBlock(EmojiBlocks[i], cp) then EmojiBlocks[i].name
    else BlockFrom(cp, i + 1)
  }

  function BlockOf(c: char): string {
    BlockFrom(c as int, 0)
  }

  /** `[c for group in emoji_pattern.findall(text) for c in group]`: the
      reported characters, in text order. */
  function Found(text: string): (r: string)
    ensures |r| <= |text|
    ensures forall k :: 0 <= k < |r| ==> Reported(r[k])
  {
    if text == [] then []
    else (if Reported(text[0]) then [text[0]] else []) + Found(text[1..])
  }

  /** The block of each character found. */
  function BlockNames(found: string): (names: seq<string>)
    ensures |names| == |found|
  {
    seq(|found|, k requires 0 <= k < |found| => BlockOf(found[k]))
  }

  /** The keys of the counts dictionary in insertion order: each name where
      it first occurs. */
  function FirstSeen(names: seq<string>): seq<string> {
    if names == [] then []
    else
      var init := names[..|names| - 1];
      FirstSeen(init) + if names[|names| - 1] in init then [] else [names[|names| - 1]]
  }

  /** The counting loop of `emoji_report`: the dictionary and its key order. */
  method CountBlocks(found: string) returns (order: seq<string>, counts: map<string, nat>)
    ensures order == FirstSeen(BlockNames(found))
    ensures forall b :: b in counts <==> b in BlockNames(found)
    ensures forall b :: b in counts ==> counts[b] == multiset(BlockNames(found))[b]
  {
    order := [];
    counts := map[];
    ghost var names: seq<string> := [];
    var i := 0;
    while i < |found|
      invariant 0 <= i <= |found|
      invariant names == BlockNames(found[..i])
      invariant order == FirstSeen(names)
      invariant Counts(counts, names)
    {
      var block := BlockOf(found[i]);
      NamesStep(found, i);
      CountStep(counts, names, block);
      if block in counts {
        counts := counts[block := counts[block] + 1];
      } else {
        order := order + [block];
        counts := counts[block := 1];
      }
      names := names + [block];
      i := i + 1;
    }
    assert found[..i] == found;
  }

  /** `counts` holds, for each name seen, how often it was seen. */
  ghost predicate Counts(counts: map<string, nat>, names: seq<string>) {
    && (forall b :: b in counts <==> b in names)
    && (forall b :: b in counts ==> counts[b] == multiset(names)[b])
  }

  lemma CountStep(counts: map<string, nat>, names: seq<string>, block: string)
    requires Counts(counts, names)
    ensures Counts(if block in counts then counts[block := counts[block] + 1] else counts[block := 1], names + [block])
  {
    assert multiset(names + [block]) == multiset(names) + multiset{block};
  }

  lemma NamesStep(found: string, i: nat)
    requires i < |found|
    ensures BlockNames(found[..i + 1]) == BlockNames(found[..i]) + [BlockOf(found[i])]
    ensures FirstSeen(BlockNames(found[..i + 1])) == FirstSeen(BlockNames(found[..i]))
      + if BlockOf(found[i]) in BlockNames(found[..i]) then [] else [BlockOf(found[i])]
  {
    var names := BlockNames(found[..i + 1]);
    assert names[..|names| - 1] == BlockNames(found[..i]);
  }

  // ---------------------------------------------------------------------------
  // The table

  datatype Row = Row(name: string, count: nat)

  /** Python's `str` order: the first differing character decides, and a
      proper prefix comes first. */
  predicate LexLess(x: string, y: string) {
    if y == [] then false
    else if x == [] then true
    else if x[0] != y[0] then x[0] < y[0]
    else LexLess(x[1..], y[1..])
  }

  lemma {:induction false} LexLessTransitive(x: string, y: string, z: string)
    requires LexLess(x, y) && LexLess(y, z)
    ensures LexLess(x, z)
  {
    if x != [] && x[0] == y[0] && y[0] == z[0] {
      LexLessTransitive(x[1..], y[1..], z[1..]);
    }
  }

  lemma {:induction false} LexLessIrreflexive(x: string)
    ensures !LexLess(x, x)
  {
    if x != [] {
      LexLessIrreflexive(x[1..]);
    }
  }

  lemma {:induction false} LexLessTotal(x: string, y: string)
    requires x != y
    ensures LexLess(x, y) || LexLess(y, x)
  {
    if x != [] && y != [] && x[0] == y[0] {
      assert x == [x[0]] + x[1..] && y == [y[0]] + y[1..];
      LexLessTotal(x[1..], y[1..]);
    }
  }

  /** `key=lambda x: (-x[1], x[0])`: the larger count first, then the name. */
  predicate Before(a: Row, b: Row) {
    a.count > b.count || (a.count == b.count && LexLess(a.name, b.name))
  }

  lemma BeforeTransitive(a: Row, b: Row, c: Row)
    requires Before(a, b) && Before(b, c)
    ensures Before(a, c)
  {
    if a.count == b.count && b.count == c.count {
      LexLessTransitive(a.name, b.name, c.name);
    }
  }

  /** No row comes before one in front of it. */
  predicate Ordered(rows: seq<Row>) {
    forall i, j :: 0 <= i < j < |rows| ==> !Before(rows[j], rows[i])
  }

  function Insert(r: Row, rows: seq<Row>): (out: seq<Row>)
    ensures multiset(out) == multiset(rows) + multiset{r}
  {
    if rows == [] then [r]
    else if Before(r, rows[0]) then [r] + rows
    else
      assert rows == [rows[0]] + rows[1..];
      [rows[0]] + Insert(r, rows[1..])
  }

  /** Inserting into ordered rows keeps them ordered. */
  lemma {:induction false} InsertOrdered(r: Row, rows: seq<Row>)
    requires Ordered(rows)
    ensures Ordered(Insert(r, rows))
  {
    if rows == [] {
    } else if Before(r, rows[0]) {
      InsertInFront(r, rows);
    } else {
      InsertOrdered(r, rows[1..]);
      HeadStaysFirst(r, rows);
      ConsOrdered(rows[0], Insert(r, rows[1..]));
    }
  }

  /** What is inserted behind the first row of an ordered sequence, and the
      rows already behind it, never go before it. */
  lemma HeadStaysFirst(r: Row, rows: seq<Row>)
    requires Ordered(rows) && rows != [] && !Before(r, rows[0])
    ensures forall k :: 0 <= k < |Insert(r, rows[1..])| ==> !Before(Insert(r, rows[1..])[k], rows[0])
  {
    var rest := Insert(r, rows[1..]);
    assert multiset(rest) == multiset(rows[1..]) + multiset{r};
    forall k | 0 <= k < |rest|
      ensures !Before(rest[k], rows[0])
    {
      assert rest[k] in multiset(rest);
      if rest[k] != r {
        assert rest[k] in rows[1..];
      }
    }
  }

  /** A row no later row goes before, in front of an ordered sequence. */
  lemma ConsOrdered(x: Row, rest: seq<Row>)
    requires Ordered(rest)
    requires forall k :: 0 <= k < |rest| ==> !Before(rest[k], x)
    ensures Ordered([x] + rest)
  {
    var out := [x] + rest;
    assert forall i, j :: 0 < i < j < |out| ==> out[i] == rest[i - 1] && out[j] == rest[j - 1];
  }

  lemma InsertInFront(r: Row, rows: seq<Row>)
    requires Ordered(rows) && rows != [] && Before(r, rows[0])
    ensures Ordered([r] + rows)
  {
    forall j | 0 <= j < |rows| && Before(rows[j], r)
      ensures Before(rows[j], rows[0])
    {
      BeforeTransitive(rows[j], r, rows[0]);
    }
    LexLessIrreflexive(rows[0].name);
    assert forall j :: 0 <= j < |rows| ==> !Before(rows[j], r);
    var out := [r] + rows;
    assert forall i, j :: 0 < i < j < |out| ==> out[i] == rows[i - 1] && out[j] == rows[j - 1];
  }

  /** `sorted(rows, key=lambda x: (-x[1], x[0]))`. */
  function SortRows(rows: seq<Row>): (out: seq<Row>)
    ensures multiset(out) == multiset(rows)
    ensures Ordered(out)
  {
    if rows == [] then []
    else
      assert rows == [rows[0]] + rows[1..];
      InsertOrdered(rows[0], SortRows(rows[1..]));
      Insert(rows[0], SortRows(rows[1..]))
  }

  /** `counts.items()` for the counts of `names`, in insertion order. */
  function Items(names: seq<string>): (rows: seq<Row>)
    ensures |rows| == |FirstSeen(names)|
  {
    var order := FirstSeen(names);
    seq(|order|, k requires 0 <= k < |order| => Row(order[k], multiset(names)[order[k]]))
  }

  const TableHeader: seq<string> := ["| Unicode Block | Count |", "| --- | --- |"]

  function RowLine(r: Row): string {
    "| " + r.name + " | " + NatToString(r.count) + " |"
  }

  /** The lines of the table: the header, the separator, one line per row. */
  function TableLines(rows: seq<Row>): (lines: seq<string>)
    ensures |lines| == |rows| + 2
  {
    TableHeader + seq(|rows|, k requires 0 <= k < |rows| => RowLine(rows[k]))
  }

  /** The counts and the table `emoji_report` returns. */
  datatype Report = Report(counts: map<string, nat>, table: string)

  method EmojiReportOf(text: string) returns (r: Report)
    ensures var names := BlockNames(Found(text));
      && (forall b :: b in r.counts <==> b in names)
      && (forall b :: b in r.counts ==> r.counts[b] == multiset(names)[b])
      && r.table == Join("\n", TableLines(SortRows(Items(names))))
  {
    var order, counts := CountBlocks(Found(text));
    FirstSeenIn(BlockNames(Found(text)));
    var items := seq(|order|, k requires 0 <= k < |order| => Row(order[k], counts[order[k]]));
    assert items == Items(BlockNames(Found(text)));
    var rows := SortRows(items);
    r := Report(counts, Join("\n", TableLines(rows)));
  }

  /** `emoji_report(md_file)`: `None` where reading the file raises. */
  method EmojiReport(fs: FileSystem, mdFile: string) returns (r: Option<Report>)
    ensures Read(fs, mdFile).None? <==> r.None?
    ensures r.Some? ==> var names := BlockNames(Found(Read(fs, mdFile).value));
      && (forall b :: b in r.value.counts <==> b in names)
      && (forall b :: b in r.value.counts ==> r.value.counts[b] == multiset(names)[b])
      && r.value.table == Join("\n", TableLines(SortRows(Items(names))))
  {
    var text := Read(fs, mdFile);
    if text.None? {
      return None;
    }
    var report := EmojiReportOf(text.value);
    return Some(report);
  }

  // ---------------------------------------------------------------------------
  // Properties

  /** The keys in insertion order are the names found, each once. */
  lemma {:induction false} FirstSeenIn(names: seq<string>)
    ensures forall b :: b in FirstSeen(names) <==> b in names
    ensures forall i, j :: 0 <= i < j < |FirstSeen(names)| ==> FirstSeen(names)[i] != FirstSeen(names)[j]
  {
    if names != [] {
      var init := names[..|names| - 1];
      FirstSeenIn(init);
      assert names == init + [names[|names| - 1]];
    }
  }

  /** Exactly the reported characters are found, as often as they occur. */
  lemma {:induction false} FoundCounts(text: string, c: char)
    ensures multiset(Found(text))[c] == if Reported(c) then multiset(text)[c] else 0
  {
    if text != [] {
      FoundCounts(text[1..], c);
      assert text == [text[0]] + text[1..];
    }
  }

  /** A character goes under the first block holding it. */
  lemma {:induction false} FirstBlockWins(cp: int, i: nat, k: nat)
    requires i <= k < |EmojiBlocks| && InBlock(EmojiBlocks[k], cp)
    requires forall j :: i <= j < k ==> !InBlock(EmojiBlocks[j], cp)
    ensures BlockFrom(cp, i) == EmojiBlocks[k].name
    decreases k - i
  {
    if i < k {
      FirstBlockWins(cp, i + 1, k);
    }
  }

  /** A character in no block goes under `"Unknown"`. */
  lemma {:induction false} NoBlockUnknown(cp: int, i: nat)
    requires i <= |EmojiBlocks|
    requires forall j :: i <= j < |EmojiBlocks| ==> !InBlock(EmojiBlocks[j], cp)
    ensures BlockFrom(cp, i) == UnknownBlock
    decreases |EmojiBlocks| - i
  {
    if i < |EmojiBlocks| {
      NoBlockUnknown(cp, i + 1);
    }
  }

  /** Flags lie inside the Enclosed Alphanumeric Supplement, but the Flags
      block is tried first. */
  lemma FlagsBeforeEnclosed(c: char)
    requires 0x1F1E6 <= c as int <= 0x1F1FF
    ensures InBlock(EmojiBlocks[9], c as int)
    ensures BlockOf(c) == "Flags"
  {
    FirstBlockWins(c as int, 0, 7);
  }

  /** As in `"Hello 😊 world 🚀"`: two reported characters amid plain text
      give their two blocks, in text order. */
  lemma TwoEmojiExample(a: string, e1: char, b: string, e2: char)
    requires NothingReported(a) && NothingReported(b) && Reported(e1) && Reported(e2)
    ensures BlockNames(Found(a + [e1] + b + [e2])) == [BlockOf(e1), BlockOf(e2)]
  {
    FoundAppend(a + [e1] + b, [e2]);
    FoundAppend(a + [e1], b);
    FoundAppend(a, [e1]);
    NothingFound(a);
    NothingFound(b);
    assert Found([e1]) == [e1] && Found([e2]) == [e2];
  }

  /** The two characters of that example: 😊 is an Emoticon, 🚀 a Transport
      and Map Symbol. */
  lemma HelloWorldBlocks()
    ensures BlockOf('\U{1F60A}') == "Emoticons"
    ensures BlockOf('\U{1F680}') == "Transport and Map Symbols"
  {
    FirstBlockWins(0x1F680, 0, 1);
  }

  predicate NothingReported(s: string) {
    forall k :: 0 <= k < |s| ==> !Reported(s[k])
  }

  lemma {:induction false} NothingFound(s: string)
    requires NothingReported(s)
    ensures Found(s) == []
  {
    if s != [] {
      NothingFound(s[1..]);
    }
  }

  lemma {:induction false} FoundAppend(a: string, b: string)
    ensures Found(a + b) == Found(a) + Found(b)
  {
    if a != [] {
      assert (a + b)[0] == a[0];
      assert (a + b)[1..] == a[1..] + b;
      FoundAppend(a[1..], b);
      assert Found(a) == (if Reported(a[0]) then [a[0]] else []) + Found(a[1..]);
    } else {
      assert a + b == b;
    }
  }

  /** The counts add up to the number of characters found. */
  function SumCounts(order: seq<string>, counts: multiset<string>): nat {
    if order == [] then 0 else counts[order[0]] + SumCounts(order[1..], counts)
  }

  lemma {:induction false} SumBump(order: seq<string>, counts: multiset<string>, x: string)
    requires forall i, j :: 0 <= i < j < |order| ==> order[i] != order[j]
    ensures SumCounts(order, counts + multiset{x}) == SumCounts(order, counts) + if x in order then 1 else 0
  {
    if order != [] {
      SumBump(order[1..], counts, x);
      assert x in order <==> x == order[0] || x in order[1..];
      if x == order[0] {
        assert order[0] !in order[1..] by {
          forall k | 0 <= k < |order[1..]|
            ensures order[1..][k] != order[0]
          {
            assert order[k + 1] != order[0];
          }
        }
      }
    }
  }

  lemma SumAppend(order: seq<string>, x: string, counts: multiset<string>)
    ensures SumCounts(order + [x], counts) == SumCounts(order, counts) + counts[x]
  {
    if order != [] {
      assert (order + [x])[1..] == order[1..] + [x];
      SumAppend(order[1..], x, counts);
    }
  }

  lemma {:induction false} CountsAddUp(names: seq<string>)
    ensures SumCounts(FirstSeen(names), multiset(names)) == |names|
  {
    if names != [] {
      var init := names[..|names| - 1];
      var x := names[|names| - 1];
      CountsAddUp(init);
      assert names == init + [x];
      assert multiset(names) == multiset(init) + multiset{x};
      FirstSeenIn(init);
      SumBump(FirstSeen(init), multiset(init), x);
      assert names[..|names| - 1] == init;
      if x !in init {
        assert FirstSeen(names) == FirstSeen(init) + [x];
        SumAppend(FirstSeen(init), x, multiset(names));
        assert multiset(names)[x] == 1;
      } else {
        assert FirstSeen(names) == FirstSeen(init);
      }
    }
  }

  /** The table lists every block found once, in an order no row breaks. */
  lemma TableRows(text: string)
    ensures var names := BlockNames(Found(text));
      var rows := SortRows(Items(names));
      && Ordered(rows)
      && (forall b :: b in names <==> Row(b, multiset(names)[b]) in rows)
      && SumCounts(FirstSeen(names), multiset(names)) == |Found(text)|
  {
    var names := BlockNames(Found(text));
    FirstSeenIn(names);
    var items := Items(names);
    var rows := SortRows(items);
    forall b
      ensures b in names <==> Row(b, multiset(names)[b]) in rows
    {
      assert Row(b, multiset(names)[b]) in rows <==> Row(b, multiset(names)[b]) in multiset(items);
      if b in names {
        var k :| 0 <= k < |FirstSeen(names)| && FirstSeen(names)[k] == b;
        assert items[k] == Row(b, multiset(names)[b]);
      }
    }
    CountsAddUp(names);
  }
}
