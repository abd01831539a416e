/** `proof_and_repair_external_reference`: the prompt for one reference, and
    the footnote index that `proof_and_repair_external_references` derives
    from the reference's numbering. */
module AiPrompt {
  import opened Text
  import opened AiJson
  import opened AiAsk

  /** The answer format the prompt asks for, as laid out in the source
      (leading newline, indentation and trailing blanks included). */
  const JsonHint :=
    "\n    {\n"
    + "        \"success\": true|false,\n"
    + "        \"org\": \"<Originalquelle>\",\n"
    + "        \"new\": \"<neue Zitationszeile oder null>\",\n"
    + "        \"error\": \"<Fehlermeldung oder null>\",\n"
    + "        \"hint\": \"<Hinweis oder null>\",\n"
    + "        \"validation_date\": \"YYYY-MM-DD\",\n"
    + "        \"type\": \"internal reference\" | \"external url\" | \"external reference\" | \"?\"\n"
    + "    }\n    "

  const CitationOpen := "\n\nQuelle ["
  const CitationClose := "]: "

  /** Everything after the reference line. */
  const Instruction := "\n\n\n\nGenerate a structured JSON according:\n" + JsonHint

  /** The full prompt: the caller's prompt, `Quelle [index]: line`, and the
      request for a JSON answer in the hinted format. */
  function FullPrompt(prompt: string, index: int, line: string): string {
    prompt + CitationOpen + Citation(index, line) + Instruction
  }

  /** `{index}]: {line}`, between the opening of the citation and the instruction. */
  function Citation(index: int, line: string): string {
    IntToString(index) + CitationClose + line
  }

  /** `proof_and_repair_external_reference`: `ask_ai` with its defaults. With
      the default limit the GenAI branch is the retry exactly as written. */
  function AskForReference(svc: Service, dec: Decoders, line: string, index: int, prompt: string,
                           url: string, key: string, provider: string): (r: Asked)
    ensures |r.sent| <= 1 + DefaultMaxRetries
    ensures Lower(provider) != "openai" && Lower(provider) != "genai" ==> !r.ok && r.sent == []
    ensures Lower(provider) == "genai" ==>
      r == PostGenAiAsWritten(svc, GenAiReader(svc, dec), GenAiRequest(FullPrompt(prompt, index, line), url, key), 0, DefaultMaxRetries)
  {
    AsWrittenAgreesOnDefault(svc, GenAiReader(svc, dec), GenAiRequest(FullPrompt(prompt, index, line), url, key), 0);
    AskAi(svc, dec, FullPrompt(prompt, index, line), url, key, provider, 0, DefaultMaxRetries)
  }

  // ---------------------------------------------------------------------------
  // The prompt identifies the reference

  lemma NatToStringInjective(m: nat, n: nat)
    requires NatToString(m) == NatToString(n)
    ensures m == n
  {
    DigitsValueOfNatToString(m);
    DigitsValueOfNatToString(n);
  }

  lemma IntToStringSign(i: int)
    ensures IntToString(i) != [] && (IntToString(i)[0] == '-' <==> i < 0)
  {
    if 0 <= i {
      assert IsDigit(NatToString(i)[0]);
    }
  }

  lemma IntToStringInjective(i: int, j: int)
    requires IntToString(i) == IntToString(j)
    ensures i == j
  {
    IntToStringSign(i);
    IntToStringSign(j);
    if i < 0 && j < 0 {
      assert NatToString(-i) == IntToString(i)[1..];
      NatToStringInjective(-i, -j);
    } else if 0 <= i && 0 <= j {
      NatToStringInjective(i, j);
    }
  }

  /** `str(i)` holds no `]`. */
  lemma IntToStringHasNoBracket(i: int)
    ensures forall k :: 0 <= k < |IntToString(i)| ==> IntToString(i)[k] != ']'
  {
    if i < 0 {
      assert IntToString(i) == "-" + NatToString(-i);
      assert AllDigits(NatToString(-i));
    }
  }

  /** In `str(i) + "]: " + rest`, the first `]` closes the index. */
  lemma IndexEndsAtBracket(i: int, rest: string)
    ensures IndexOf(Citation(i, rest), ']') == |IntToString(i)|
  {
    var s := Citation(i, rest);
    IntToStringHasNoBracket(i);
    IndexOfExact(s, ']', |IntToString(i)|);
  }

  lemma IndexOfExact(s: string, c: char, k: nat)
    requires k < |s| && s[k] == c
    requires forall j :: 0 <= j < k ==> s[j] != c
    ensures IndexOf(s, c) == k
  {
    if k > 0 {
      IndexOfExact(s[1..], c, k - 1);
    }
  }

  /** The index and the line can be read back from a citation. */
  lemma CitationIdentifiesReference(i: int, line: string, j: int, other: string)
    requires Citation(i, line) == Citation(j, other)
    ensures i == j && line == other
  {
    var a := Citation(i, line);
    IndexEndsAtBracket(i, line);
    IndexEndsAtBracket(j, other);
    assert IntToString(i) == a[..|IntToString(i)|];
    assert IntToString(j) == a[..|IntToString(j)|];
    IntToStringInjective(i, j);
    assert line == a[|IntToString(i)| + |CitationClose|..];
    assert other == a[|IntToString(j)| + |CitationClose|..];
  }

  lemma {:induction false} SameFrame(head: string, a: string, b: string, tail: string)
    requires head + a + tail == head + b + tail
    ensures a == b
  {
    assert |a| == |b|;
    assert a == (head + a + tail)[|head|..|head| + |a|];
    assert b == (head + b + tail)[|head|..|head| + |b|];
  }

  /** Different references give different prompts. */
  lemma FullPromptIdentifiesReference(prompt: string, i: int, line: string, j: int, other: string)
    requires FullPrompt(prompt, i, line) == FullPrompt(prompt, j, other)
    ensures i == j && line == other
  {
    SameFrame(prompt + CitationOpen, Citation(i, line), Citation(j, other), Instruction);
    CitationIdentifiesReference(i, line, j, other);
  }

  // ---------------------------------------------------------------------------
  // The footnote index

  /** The value of the leading ASCII digits of `s`. */
  function LeadingNumber(s: string): (n: nat)
    requires s != [] && IsDigit(s[0])
  {
    DigitsValue(s[..DigitRun(s)])
  }

  /** `int(numbering)` when the stripped numbering is all digits, else the
      value of its leading digit run (`re.match(r"(\d+)", ...)`), else -1. */
  function FootnoteIndex(numbering: string): (index: int)
    ensures index >= -1
    ensures var n := Strip(numbering);
      index == if n != [] && IsDigit(n[0]) then LeadingNumber(n) else -1
  {
    var n := Strip(numbering);
    if n != [] && AllDigits(n) then
      DigitRunOfDigits(n, []);
      assert n + [] == n && n[..|n|] == n;
      DigitsValue(n)
    else if n != [] && IsDigit(n[0]) then LeadingNumber(n)
    else -1
  }

  /** Stripping keeps a leading run of digits and cuts only blanks behind it. */
  lemma StripAfterDigits(digits: string, rest: string) returns (tail: string)
    requires digits != [] && AllDigits(digits)
    ensures Strip(digits + rest) == digits + tail
    ensures tail == [] || tail[0] == rest[0]
  {
    var s := digits + rest;
    assert s[0] == digits[0];
    assert LStrip(s) == s;
    var n := RStrip(s);
    RStripByFacts(s, IsSpace);
    assert n == s[..|n|];
    assert s[|digits| - 1] == digits[|digits| - 1];
    assert !IsSpace(s[|digits| - 1]);
    tail := n[|digits|..];
    assert n == digits + tail;
  }

  /** A numbering that starts with `str(k)` and goes on with something other
      than a digit has index `k`. */
  lemma FootnoteIndexOfNumber(k: nat, rest: string)
    requires rest == [] || !IsDigit(rest[0])
    ensures FootnoteIndex(NatToString(k) + rest) == k
  {
    var digits := NatToString(k);
    var tail := StripAfterDigits(digits, rest);
    var n := digits + tail;
    DigitRunOfDigits(digits, tail);
    assert n[..DigitRun(n)] == digits;
    DigitsValueOfNatToString(k);
  }

  /** An item line with no digits in front has index -1. */
  lemma FootnoteIndexWithoutNumber(numbering: string)
    requires Strip(numbering) == [] || !IsDigit(Strip(numbering)[0])
    ensures FootnoteIndex(numbering) == -1
  {
  }
}
