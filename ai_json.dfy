/** Decoding what an AI service answered (`extract_json_from_ai_output`).
    `json.loads` and `ast.literal_eval` are library code: they enter the model
    as partial decoders, `None` standing for the exception they raise. */
module AiJson {
  import opened Wrappers
  import opened Text

  /** A decoded JSON value; object keys are unique, as in a Python `dict`. */
  datatype Json =
    | JNull
    | JBool(b: bool)
    | JNumber(n: real)
    | JString(s: string)
    | JArray(items: seq<Json>)
    | JObject(fields: map<string, Json>)

  /** Python truthiness of a decoded value. */
  predicate Truthy(j: Json) {
    match j
    case JNull => false
    case JBool(b) => b
    case JNumber(n) => n != 0.0
    case JString(s) => s != []
    case JArray(items) => items != []
    case JObject(fields) => fields != map[]
  }

  /** `d.get(key)` on a dict, `None` when the key is missing. */
  function Get(fields: map<string, Json>, key: string): (r: Option<Json>)
    ensures r.Some? <==> key in fields
  {
    if key in fields then Some(fields[key]) else None
  }

  /** Python truthiness of `d.get(key)`, where a missing key gives `None`. */
  predicate TruthyField(fields: map<string, Json>, key: string) {
    key in fields && Truthy(fields[key])
  }

  /** The library code the decoder relies on:
      `loads` is `json.loads` on a `str`;
      `evalStr` is `ast.literal_eval` when it yields a `str` (any other
      outcome makes the following step raise);
      `show` is `str()` of a decoded value. */
  datatype Decoders = Decoders(
    loads: string -> Option<Json>,
    evalStr: string -> Option<string>,
    show: Json -> string)

  /** The second member of the tuple the AI helpers return: a decoded value
      or a piece of text. */
  datatype AiValue = Parsed(json: Json) | Text(text: string)

  /** `str()` of an AI value. */
  function Show(dec: Decoders, v: AiValue): (r: string)
    ensures v.Text? ==> r == v.text
  {
    match v
    case Parsed(j) => dec.show(j)
    case Text(t) => t
  }

  const Fence := "```"
  const JsonFence := "```json"

  /** `text[7:].strip()` after a leading "```json". */
  function DropOpeningFence(t: string): (r: string)
    ensures |r| <= |t|
  {
    if StartsWith(t, JsonFence) then Strip(t[|JsonFence|..]) else t
  }

  /** `text[:-3].strip()` after a trailing "```". */
  function DropClosingFence(t: string): (r: string)
    ensures |r| <= |t|
  {
    if EndsWith(t, Fence) then Strip(t[..|t| - |Fence|]) else t
  }

  /** The text handed to the decoders: trimmed, unfenced, then stripped of
      outer single and then double quotes. */
  function CleanAiText(generated: string): string {
    var t := DropClosingFence(DropOpeningFence(Strip(generated)));
    StripChars(StripChars(Strip(t), {'\''}), {'"'})
  }

  /** `extract_json_from_ai_output`: plain JSON first, then a string literal
      holding a string literal holding JSON; otherwise the input unchanged. */
  function ExtractJson(dec: Decoders, generated: string): (r: (bool, AiValue))
    ensures r.0 <==> r.1.Parsed?
    ensures !r.0 ==> r.1 == Text(generated)
    ensures dec.loads(CleanAiText(generated)).Some? ==> r == (true, Parsed(dec.loads(CleanAiText(generated)).value))
  {
    var text := CleanAiText(generated);
    match dec.loads(text)
    case Some(j) => (true, Parsed(j))
    case None =>
      match dec.evalStr(text)
      case None => (false, Text(generated))
      case Some(once) =>
        match dec.evalStr(once)
        case None => (false, Text(generated))
        case Some(twice) =>
          match dec.loads(twice)
          case Some(j) => (true, Parsed(j))
          case None => (false, Text(generated))
  }

  // ---------------------------------------------------------------------------
  // Properties

  /** Otherwise two unescaping layers are peeled off before decoding. */
  lemma UnescapedJson(dec: Decoders, generated: string, once: string, twice: string)
    requires dec.loads(CleanAiText(generated)).None?
    requires dec.evalStr(CleanAiText(generated)) == Some(once)
    requires dec.evalStr(once) == Some(twice)
    requires dec.loads(twice).Some?
    ensures ExtractJson(dec, generated) == (true, Parsed(dec.loads(twice).value))
  {
  }

  /** A decoded value always comes from one of the two routes. */
  lemma DecodedFromCleanText(dec: Decoders, generated: string)
    requires ExtractJson(dec, generated).0
    ensures var text := CleanAiText(generated);
      || Some(ExtractJson(dec, generated).1.json) == dec.loads(text)
      || (&& dec.evalStr(text).Some?
          && dec.evalStr(dec.evalStr(text).value).Some?
          && Some(ExtractJson(dec, generated).1.json) == dec.loads(dec.evalStr(dec.evalStr(text).value).value))
  {
  }

  /** `a` is `b[i..j]`. */
  predicate SliceAt(a: string, b: string, i: nat, j: nat) {
    i <= j <= |b| && b[i..j] == a
  }

  ghost predicate IsSlice(a: string, b: string) {
    exists i: nat, j: nat :: SliceAt(a, b, i, j)
  }

  lemma SliceOfSlice(a: string, b: string, c: string)
    requires IsSlice(a, b) && IsSlice(b, c)
    ensures IsSlice(a, c)
  {
    var i: nat, j: nat :| SliceAt(a, b, i, j);
    var k: nat, l: nat :| SliceAt(b, c, k, l);
    assert b == c[k..l];
    assert forall x :: 0 <= x < j - i ==> c[k + i..k + j][x] == b[i..j][x];
    assert SliceAt(a, c, k + i, k + j);
  }

  lemma LStripIsSlice(s: string, drop: char -> bool)
    ensures IsSlice(LStripBy(s, drop), s)
  {
    var r := LStripBy(s, drop);
    LStripByFacts(s, drop);
    assert SliceAt(r, s, |s| - |r|, |s|);
  }

  lemma RStripIsSlice(s: string, drop: char -> bool)
    ensures IsSlice(RStripBy(s, drop), s)
  {
    var r := RStripBy(s, drop);
    RStripByFacts(s, drop);
    assert SliceAt(r, s, 0, |r|);
  }

  lemma StripIsSlice(s: string)
    ensures IsSlice(Strip(s), s)
  {
    LStripIsSlice(s, IsSpace);
    RStripIsSlice(LStrip(s), IsSpace);
    SliceOfSlice(Strip(s), LStrip(s), s);
  }

  lemma StripCharsIsSlice(s: string, chars: set<char>)
    ensures IsSlice(StripChars(s, chars), s)
  {
    var l := LStripBy(s, c => c in chars);
    LStripIsSlice(s, c => c in chars);
    RStripIsSlice(l, c => c in chars);
    SliceOfSlice(StripChars(s, chars), l, s);
  }

  lemma OpeningFenceIsSlice(t: string)
    ensures IsSlice(DropOpeningFence(t), t)
  {
    if StartsWith(t, JsonFence) {
      var rest := t[|JsonFence|..];
      StripIsSlice(rest);
      assert SliceAt(rest, t, |JsonFence|, |t|);
      SliceOfSlice(Strip(rest), rest, t);
    } else {
      assert SliceAt(t, t, 0, |t|);
    }
  }

  lemma ClosingFenceIsSlice(t: string)
    ensures IsSlice(DropClosingFence(t), t)
  {
    if EndsWith(t, Fence) {
      var rest := t[..|t| - |Fence|];
      StripIsSlice(rest);
      assert SliceAt(rest, t, 0, |t| - |Fence|);
      SliceOfSlice(Strip(rest), rest, t);
    } else {
      assert SliceAt(t, t, 0, |t|);
    }
  }

  /** The cleaning only ever cuts characters off the two ends: the decoders
      see one contiguous piece of what the service generated. */
  lemma {:induction false} CleanTextIsSlice(generated: string)
    ensures IsSlice(CleanAiText(generated), generated)
  {
    var t0 := Strip(generated);
    var t1 := DropOpeningFence(t0);
    var t2 := DropClosingFence(t1);
    var t3 := Strip(t2);
    var t4 := StripChars(t3, {'\''});
    StripIsSlice(generated);
    OpeningFenceIsSlice(t0);
    ClosingFenceIsSlice(t1);
    StripIsSlice(t2);
    StripCharsIsSlice(t3, {'\''});
    StripCharsIsSlice(t4, {'"'});
    SliceOfSlice(t1, t0, generated);
    SliceOfSlice(t2, t1, generated);
    SliceOfSlice(t3, t2, generated);
    SliceOfSlice(t4, t3, generated);
    SliceOfSlice(CleanAiText(generated), t4, generated);
  }

  /** The cleaned text neither starts nor ends with a double quote. */
  lemma CleanTextHasNoOuterDoubleQuote(generated: string)
    ensures var c := CleanAiText(generated);
      c == [] || (c[0] != '"' && c[|c| - 1] != '"')
  {
    var t := DropClosingFence(DropOpeningFence(Strip(generated)));
    StripCharsEnds(StripChars(Strip(t), {'\''}), {'"'});
  }

  lemma StripCharsKeeps(s: string, chars: set<char>)
    requires s != [] && s[0] !in chars && s[|s| - 1] !in chars
    ensures StripChars(s, chars) == s
  {
    var drop := c => c in chars;
    assert !drop(s[0]) && !drop(s[|s| - 1]);
    assert LStripBy(s, drop) == s;
    assert RStripBy(s, drop) == s;
  }

  lemma StripKeeps(s: string)
    requires s != [] && !IsSpace(s[0]) && !IsSpace(s[|s| - 1])
    ensures LStrip(s) == s && RStrip(s) == s && Strip(s) == s
  {
    assert LStrip(s) == s;
  }

  lemma DropOpeningFenceOf(s: string)
    ensures DropOpeningFence(JsonFence + s) == Strip(s)
  {
    assert (JsonFence + s)[..|JsonFence|] == JsonFence;
    assert (JsonFence + s)[|JsonFence|..] == s;
  }

  lemma DropClosingFenceOf(s: string)
    ensures DropClosingFence(s + Fence) == Strip(s)
  {
    assert (s + Fence)[|s|..] == Fence;
    assert (s + Fence)[..|s|] == s;
  }

  lemma LStripSkipsSpace(c: char, s: string)
    requires IsSpace(c)
    ensures LStrip([c] + s) == LStrip(s)
  {
    assert ([c] + s)[1..] == s;
  }

  lemma RStripSkipsSpace(s: string, c: char)
    requires IsSpace(c)
    ensures RStrip(s + [c]) == RStrip(s)
  {
    assert (s + [c])[..|s|] == s;
  }

  predicate PlainEnds(inner: string) {
    && inner != []
    && !IsSpace(inner[0]) && inner[0] != '\'' && inner[0] != '"'
    && !IsSpace(inner[|inner| - 1]) && inner[|inner| - 1] != '\'' && inner[|inner| - 1] != '"'
  }

  lemma OpeningFenceOfBlock(inner: string)
    requires PlainEnds(inner)
    ensures DropOpeningFence(Strip(JsonFence + "\n" + inner + "\n" + Fence)) == inner + "\n" + Fence
  {
    var g := JsonFence + "\n" + inner + "\n" + Fence;
    var rest := inner + "\n" + Fence;
    assert g == JsonFence + (['\n'] + rest);
    assert g[0] == '`' && g[|g| - 1] == '`';
    StripKeeps(g);
    DropOpeningFenceOf(['\n'] + rest);
    LStripSkipsSpace('\n', rest);
    assert rest[0] == inner[0] && rest[|rest| - 1] == '`';
    StripKeeps(rest);
    calc {
      DropOpeningFence(Strip(g));
      DropOpeningFence(g);
      Strip(['\n'] + rest);
      RStrip(LStrip(['\n'] + rest));
      RStrip(LStrip(rest));
      rest;
    }
  }

  lemma ClosingFenceOfBlock(inner: string)
    requires PlainEnds(inner)
    ensures DropClosingFence(inner + "\n" + Fence) == inner
  {
    DropClosingFenceOf(inner + "\n");
    RStripSkipsSpace(inner, '\n');
    StripKeeps(inner);
    assert (inner + "\n")[0] == inner[0];
    assert LStrip(inner + "\n") == inner + "\n";
  }

  /** An answer fenced as a JSON code block is decoded from what lies between
      the fences, when that neither begins nor ends with blanks or quotes. */
  lemma FencedAnswer(inner: string)
    requires PlainEnds(inner)
    ensures CleanAiText(JsonFence + "\n" + inner + "\n" + Fence) == inner
  {
    OpeningFenceOfBlock(inner);
    ClosingFenceOfBlock(inner);
    StripKeeps(inner);
    StripCharsKeeps(inner, {'\''});
    StripCharsKeeps(inner, {'"'});
  }
}
