# gitbook_worker core, modelled in Dafny

This project models the core of `gitbook_worker`, a tool that prepares a GitBook-style Markdown
repository for a PDF build with Pandoc and checks its quality. The model covers:

- **Source extraction** (`source_extract.py`). It finds the sources section of a Markdown file by
  its heading, turns every list item in that section into a reference record, merges the records
  of several files into one dict and writes them to a CSV file.
- **AI-assisted repair** (`ai_tools.py`):
  - Cleaning and decoding the JSON an AI service answers with.
  - `ask_ai` with its OpenAI and GenAI branches and its retry on HTTP 429.
  - The prompt sent for one reference.
  - Repairing internal references by inserting their names into the file.
  - Repairing external references by patching the lines the service corrected.
- **Utilities** (`utils.py`):
  - Table column validation and the wrapping of wide tables in landscape pages.
  - The emoji report.
  - Reading `SUMMARY.md`.
  - Parsing `pandoc --version`.
  - The LaTeX header written for Pandoc.
- **Link checks** (`linkcheck.py`): gaps in citation numbering, duplicate headings across files and
  the list of TODO markers.
- **Reference splitting** (`__init__.py`): the description and the first URL of a reference.
- **Pandoc command lines** (`pandoc_utils.py`): the local and the Docker command.

Every regular expression of the core is written as a recogniser. Each one was derived from the
pattern's backtracking behaviour, and its doc comment explains which choices the engine can make.
The file system is a map from paths to optional contents: `None` stands for a path that exists but
cannot be read. The network, `json.loads`, `ast.literal_eval`, the `os.path` helpers and the HTML
table converter are function parameters.

| file | module | models |
|---|---|---|
| `wrappers.dfy` | `Wrappers` | `Option` and `Result` |
| `text.dfy` | `Text`, `Files` | string helpers (`strip`, `lower`, `readlines`, `splitlines`, `str(int)`) and the file system |
| `list_items.dfy` | `ListItems` | the multiline list item pattern and `extract_multiline_list_items` |
| `source_headings.dfy` | `SourceHeadings` | the language dependent sources heading pattern |
| `source_fields.dfy` | `SourceFields` | the fields of one reference record (name, link, comment) |
| `source_extract.dfy` | `SourceExtract` | `extract_sources_of_a_md_file_to_dict`, `extract_sources_to_dict`, `extract_sources` |
| `ai_json.dfy` | `AiJson` | `extract_json_from_ai_output` |
| `ai_ask.dfy` | `AiAsk` | `ask_ai` |
| `ai_prompt.dfy` | `AiPrompt` | `proof_and_repair_external_reference` and the footnote index |
| `ai_internal.dfy` | `AiInternal` | `proof_and_repair_internal_references` |
| `ai_external.dfy` | `AiExternal` | `proof_and_repair_external_references` |
| `tables.dfy` | `Tables` | `validate_table_columns`, `wrap_wide_tables` |
| `emoji.dfy` | `Emoji` | `emoji_report` |
| `paths.dfy` | `Paths` | the `os.path` functions as parameters |
| `summary.dfy` | `Summary` | `parse_summary` |
| `pandoc_version.dfy` | `PandocVersion` | `get_pandoc_version` |
| `pandoc_header.dfy` | `PandocHeader` | `_write_pandoc_header` |
| `pandoc_cmd.dfy` | `PandocCmd` | `build_pandoc_cmd`, `build_docker_pandoc_cmd` |
| `linkcheck.dfy` | `LinkCheck` | `check_citation_numbering`, `check_duplicate_headings`, `list_todos` |
| `reference_split.dfy` | `ReferenceSplit` | `split_reference_to_description_and_urluri` |

## Model

| member | source | states |
|---|---|---|
| ListItems.ContinuationStops | gitbook_worker/src/gitbook_worker/source_extract.py:11 | an item goes on to the end of the text or to the first newline whose next line starts another item |
| ListItems.ContinuationHasNoItemStart | gitbook_worker/src/gitbook_worker/source_extract.py:11 | no newline inside an item's continuation is followed by the start of an item (the negative lookahead) |
| ListItems.ItemShape | gitbook_worker/src/gitbook_worker/source_extract.py:11 | an item ends at the end of the text or just before a newline that starts another item, and nothing in between starts one |
| ListItems.ItemStartsWithMarker | gitbook_worker/src/gitbook_worker/source_extract.py:11 | every item, read by itself, starts with optional blanks, a marker and a blank |
| ListItems.ItemOfOneLine | gitbook_worker/src/gitbook_worker/source_extract.py:77-88 | on a line as `readlines()` returns it, the match is the whole line |
| ListItems.SpansWellOrdered | gitbook_worker/src/gitbook_worker/source_extract.py:16-20 | the matches `findall` returns are in text order and do not overlap |
| ListItems.SpansAreItems | gitbook_worker/src/gitbook_worker/source_extract.py:16-20 | every match starts at a line start where an item starts and ends where the pattern stops |
| ListItems.SpansCoverEveryItemStart | gitbook_worker/src/gitbook_worker/source_extract.py:16-20 | every line start where an item starts lies inside some match: no item is skipped |
| ListItems.ItemsAreSpans | gitbook_worker/src/gitbook_worker/source_extract.py:16-20 | `extract_multiline_list_items` returns the text of the matches, in order |
| ListItems.ExampleItems | gitbook_worker/tests/test_new_quality.py:28-31 | a numbered item and a bullet item, each with a continuation line, are returned as two items |
| SourceHeadings.DedupIsKeepFirst | gitbook_worker/src/gitbook_worker/source_extract.py:33-36 | the comprehension with its `seen` set keeps the first occurrence of each word, in order |
| SourceHeadings.DedupProperties | gitbook_worker/src/gitbook_worker/source_extract.py:33-36 | the de-duplicated list has no repeats and holds exactly the words of the input |
| SourceHeadings.HeaderWords | gitbook_worker/src/gitbook_worker/source_extract.py:27-36 | the title words have no repeats and are exactly the German and English words |
| SourceHeadings.WordsDistinct | gitbook_worker/src/gitbook_worker/source_extract.py:28-31 | the eight built-in title words are pairwise different |
| SourceHeadings.RequestedLanguageFirst | gitbook_worker/src/gitbook_worker/source_extract.py:27-36 | English asks for English words first; German, no language or any other language gives German words first |
| SourceHeadings.EnglishList | gitbook_worker/src/gitbook_worker/source_extract.py:34-36 | for `en` the word list is the English words, then the German ones |
| SourceHeadings.GermanList | gitbook_worker/src/gitbook_worker/source_extract.py:34-36 | for `de` the word list is the German words, then the English ones |
| SourceHeadings.OtherList | gitbook_worker/src/gitbook_worker/source_extract.py:34-36 | for an unknown language the word list is the German words, then the English ones |
| SourceHeadings.NumberingEnd | gitbook_worker/src/gitbook_worker/source_extract.py:42 | the optional heading number, taken greedily, is empty or a dotted number |
| SourceHeadings.AfterDigitEndOf | gitbook_worker/src/gitbook_worker/source_extract.py:42 | a heading number followed by something that cannot extend it is taken whole |
| SourceHeadings.HeaderLevel | gitbook_worker/src/gitbook_worker/source_extract.py:45-48 | a match gives a level between 1 and the maximum, equal to the line's run of `#` |
| SourceHeadings.WordStartAtLetter | gitbook_worker/src/gitbook_worker/source_extract.py:46 | after the hashes, blanks, an optional number and blanks, the greedy scan stops at the first letter |
| SourceHeadings.HeaderLevelIsHeadingShape | gitbook_worker/src/gitbook_worker/source_extract.py:45-48 | a line matches at level k iff it has k hashes, blanks, an optional number, blanks and a title word (case-insensitive) |
| SourceHeadings.HeaderLevelLanguageIndependent | gitbook_worker/src/gitbook_worker/source_extract.py:34-48 | the requested language changes the word order but not which lines match |
| SourceHeadings.HeadingExamples | gitbook_worker/tests/test_sources.py:4-7 | `## Quellen` and `## Sources` both open a level-2 section; seven hashes never match |
| SourceFields.NameGroup | gitbook_worker/src/gitbook_worker/source_extract.py:89 | the name group, when the pattern matches, holds no newline |
| SourceFields.StripNameMarker | gitbook_worker/src/gitbook_worker/source_extract.py:92 | removing the leading marker leaves a suffix of the name |
| SourceFields.LinkAt | gitbook_worker/src/gitbook_worker/source_extract.py:94 | a lazy `[..](..)` starting at i: a `[`, then a `](`, then a `)` after it |
| SourceFields.LinkIsPlain | gitbook_worker/src/gitbook_worker/source_extract.py:94 | a link found this way stays on one line and its target holds no `)` |
| SourceFields.FirstLinkFrom | gitbook_worker/src/gitbook_worker/source_extract.py:97 | `re.search` returns a position at or after i where a link starts |
| SourceFields.FirstLinkIsFirst | gitbook_worker/src/gitbook_worker/source_extract.py:97 | no link starts before the position found, nor anywhere when none is found |
| SourceFields.NoLinkAt | gitbook_worker/src/gitbook_worker/source_extract.py:97 | a stretch without links has no link at any of its positions |
| SourceFields.CommentAt | gitbook_worker/src/gitbook_worker/source_extract.py:102 | a lazy `(..)` at i ends at the first `)` after the `(`, on the same line |
| SourceFields.FirstCommentFrom | gitbook_worker/src/gitbook_worker/source_extract.py:102 | `re.search` finds the leftmost `(..)`, or none exists |
| SourceFields.NumberingIsWholeLine | gitbook_worker/src/gitbook_worker/source_extract.py:77-88 | for a line read by `readlines()`, `numbering` and `line` are both the stripped line |
| SourceFields.NameNeverEmpty | gitbook_worker/src/gitbook_worker/source_extract.py:105-106 | a record's name is never empty |
| SourceFields.NameFallsBackToLineNumber | gitbook_worker/src/gitbook_worker/source_extract.py:105-106 | without a name and without a link the name is `Referenz zu Zeile N` |
| SourceFields.NameFallsBackToLink | gitbook_worker/src/gitbook_worker/source_extract.py:100-101 | without a name but with a link the name is the stripped text from the first link's `[` up to the first `]` after it; it starts with `[` and holds no `]` |
| SourceFields.LinkNameIsCut | gitbook_worker/src/gitbook_worker/source_extract.py:101 | `split("]")[0].strip()` of the link: the text before the first `]`, stripped, with no `]` in it |
| SourceFields.LinkIsFirstTarget | gitbook_worker/src/gitbook_worker/source_extract.py:97-99 | the link is the target of the leftmost `[..](..)` and holds no `)` or newline |
| SourceFields.CommentIsFirstParenthesis | gitbook_worker/src/gitbook_worker/source_extract.py:102-104 | the comment is the text inside the leftmost closed `(..)` and holds no `)` or newline |
| SourceFields.LinkImpliesComment | gitbook_worker/src/gitbook_worker/source_extract.py:97-104 | a line with a link always has a comment: the link's parentheses are one |
| SourceExtract.Facts | gitbook_worker/src/gitbook_worker/source_extract.py:68-75 | a heading's level equals the line's run of `#`, and that run is positive iff the line starts with `#` |
| SourceExtract.FactsOfLine | gitbook_worker/src/gitbook_worker/source_extract.py:67-88 | the facts of line i are its heading level, its `#` run and its record numbered i + 1 |
| SourceExtract.ExtractSourcesOfFile | gitbook_worker/src/gitbook_worker/source_extract.py:51-66 | an empty path or an unreadable file gives `{}`; otherwise the file's key holds its records |
| SourceExtract.ScanLines | gitbook_worker/src/gitbook_worker/source_extract.py:67-107 | the line loop collects what the scan over the line facts collects |
| SourceExtract.ScanRecordIsLine | gitbook_worker/src/gitbook_worker/source_extract.py:67-107 | every collected record is the record of a list line and carries that line's 1-based number |
| SourceExtract.ScanInLineOrder | gitbook_worker/src/gitbook_worker/source_extract.py:67-107 | the records follow the file's line order |
| SourceExtract.NothingBeforeHeading | gitbook_worker/src/gitbook_worker/source_extract.py:64-72 | lines before the first sources heading yield nothing |
| SourceExtract.NoHeadingNoReferences | gitbook_worker/src/gitbook_worker/source_extract.py:64-107 | a file without a sources heading has no records |
| SourceExtract.InsideStep | gitbook_worker/src/gitbook_worker/source_extract.py:73-107 | inside a section, a line that neither reopens nor ends it contributes its record, if any, and the scan goes on |
| SourceExtract.SectionBody | gitbook_worker/src/gitbook_worker/source_extract.py:73-107 | inside a section, the scan collects exactly the list lines, in order |
| SourceExtract.SectionStops | gitbook_worker/src/gitbook_worker/source_extract.py:73-76 | the first heading at or above the section's level stops the scan for good |
| SourceExtract.HeadingReopens | gitbook_worker/src/gitbook_worker/source_extract.py:68-72 | a sources heading (re)opens the section at the length of its `#` run |
| SourceExtract.FileReferenceFields | gitbook_worker/src/gitbook_worker/source_extract.py:77-107 | each record comes from a list line, its numbering and line are that line stripped, its kind is `external`, its name non-empty |
| SourceExtract.Singles | gitbook_worker/src/gitbook_worker/source_extract.py:127 | a file's first listing stores its records one by one |
| SourceExtract.FailurePersists | gitbook_worker/src/gitbook_worker/source_extract.py:115-127 | once a path raises, the whole call raises |
| SourceExtract.ExtractSourcesToDict | gitbook_worker/src/gitbook_worker/source_extract.py:111-128 | the loop over the paths computes the combined dict or the exception |
| SourceExtract.FilesOnly | gitbook_worker/src/gitbook_worker/source_extract.py:116-118 | the paths kept are exactly the listed paths that are files |
| SourceExtract.KeyErrorIffUnreadable | gitbook_worker/src/gitbook_worker/source_extract.py:116-127 | `KeyError` is raised exactly when some listed file cannot be read |
| SourceExtract.TableKeys | gitbook_worker/src/gitbook_worker/source_extract.py:111-128 | the dict's keys are the files in the order of their first listing |
| SourceExtract.KeysStep | gitbook_worker/src/gitbook_worker/source_extract.py:121-127 | adding a path keeps the keys equal to the dict's domain and appends a new file to the keys |
| SourceExtract.TableEntries | gitbook_worker/src/gitbook_worker/source_extract.py:121-127 | a key holds the file's records, then one nested copy per further listing |
| SourceExtract.CombinedKeys | gitbook_worker/src/gitbook_worker/source_extract.py:111-128 | one key per listed file, without repeats |
| SourceExtract.RowOf | gitbook_worker/src/gitbook_worker/source_extract.py:156-168 | a CSV row has the header's eight columns and starts with the file |
| SourceExtract.ExtractSources | gitbook_worker/src/gitbook_worker/source_extract.py:131-172 | `extract_sources` writes the header and the rows, or ends in the exception |
| SourceExtract.SinglesWritten | gitbook_worker/src/gitbook_worker/source_extract.py:151-168 | a file's own records are written one row each, in order |
| SourceExtract.AfterSingles | gitbook_worker/src/gitbook_worker/source_extract.py:151-155 | after its records, a file's list ends or holds a nested list, whose missing `.items()` raises `AttributeError` |
| SourceExtract.BodyWhenListedOnce | gitbook_worker/src/gitbook_worker/source_extract.py:151-168 | with each file listed once, the CSV body is the rows of all records, file after file |
| SourceExtract.FileBodyFails | gitbook_worker/src/gitbook_worker/source_extract.py:151-155 | a nested list raises `AttributeError` while writing a file |
| SourceExtract.BodyFails | gitbook_worker/src/gitbook_worker/source_extract.py:151-155 | a nested list in any later file makes the body fail |
| SourceExtract.ListedTwiceNests | gitbook_worker/src/gitbook_worker/source_extract.py:121-123 | a file listed twice holds a nested list |
| SourceExtract.CsvRaisesOnUnreadable | gitbook_worker/src/gitbook_worker/source_extract.py:131-132 | `extract_sources` raises `KeyError`, before the CSV is opened, exactly when a listed file cannot be read |
| SourceExtract.NoKeysIffNoFiles | gitbook_worker/src/gitbook_worker/source_extract.py:111-128 | the dict is empty exactly when no listed path is a file |
| SourceExtract.CsvNoSources | gitbook_worker/src/gitbook_worker/source_extract.py:133-135 | nothing is written exactly when no listed path is a file |
| SourceExtract.CsvFailsOnRepeatedPath | gitbook_worker/src/gitbook_worker/source_extract.py:151-155 | a file listed twice raises `AttributeError` after the header row |
| SourceExtract.CsvRowsWhenListedOnce | gitbook_worker/src/gitbook_worker/source_extract.py:136-168 | with each file listed once, the CSV is the header and one row per record, in order of first listing |
| AiJson.Get | gitbook_worker/src/gitbook_worker/ai_tools.py:232-237 | `get` finds a value exactly when the key is present |
| AiJson.ExtractJson | gitbook_worker/src/gitbook_worker/ai_tools.py:17-34 | the flag is true iff a value was decoded; plain JSON wins; otherwise the raw input comes back |
| AiJson.UnescapedJson | gitbook_worker/src/gitbook_worker/ai_tools.py:28-31 | when plain decoding fails, two string-literal layers are peeled off before decoding |
| AiJson.DecodedFromCleanText | gitbook_worker/src/gitbook_worker/ai_tools.py:17-31 | a decoded value comes from the cleaned text, either directly or through the two literal layers |
| AiJson.CleanTextIsSlice | gitbook_worker/src/gitbook_worker/ai_tools.py:18-23 | the cleaning only cuts characters off the two ends |
| AiJson.CleanTextHasNoOuterDoubleQuote | gitbook_worker/src/gitbook_worker/ai_tools.py:23 | the cleaned text neither starts nor ends with `"` |
| AiJson.DropOpeningFenceOf | gitbook_worker/src/gitbook_worker/ai_tools.py:19-20 | a leading ````json` fence is cut and the rest stripped |
| AiJson.DropClosingFenceOf | gitbook_worker/src/gitbook_worker/ai_tools.py:21-22 | a trailing ````` fence is cut and the rest stripped |
| AiJson.FencedAnswer | gitbook_worker/src/gitbook_worker/ai_tools.py:18-23 | an answer fenced as a JSON code block is decoded from what lies between the fences |
| AiAsk.Receive | gitbook_worker/src/gitbook_worker/ai_tools.py:42-44 | a body is received iff the post answered, the status does not raise and the body is JSON |
| AiAsk.AskOpenAi | gitbook_worker/src/gitbook_worker/ai_tools.py:39-47 | the OpenAI branch sends one request; its value is text; a failure carries the OpenAI prefix |
| AiAsk.GenAiAnswerCases | gitbook_worker/src/gitbook_worker/ai_tools.py:51-65 | a GenAI reply succeeds only through generated text that decodes; other failures carry the GenAI prefix |
| AiAsk.PostGenAi | gitbook_worker/src/gitbook_worker/ai_tools.py:51-63 | the corrected retry: the same request at most 1 + max_retries times; every reply but the last was a 429 answered while retries remained, and the last is not a 429 or the retries are used up; the last reply's reading is returned |
| AiAsk.AskGenAi | gitbook_worker/src/gitbook_worker/ai_tools.py:48-65 | the GenAI branch with the corrected retry sends the same request between 1 and 1 + max_retries times |
| AiAsk.AskAi | gitbook_worker/src/gitbook_worker/ai_tools.py:37-67 | the provider is compared case-insensitively and selects the OpenAI branch or the GenAI branch with the corrected retry; an unknown one fails without any request |
| AiAsk.PostGenAiAsWritten | gitbook_worker/src/gitbook_worker/ai_tools.py:51-63 | the retry as written: the same request at most 1 + (one retry on the caller's limit, then the default's) times; every reply but the last was a 429 within the limit of its attempt (the caller's for the first, the default for later ones), and the last is not a 429 or is past its limit; the last reply is what is returned |
| AiAsk.BusyServiceAsWritten | gitbook_worker/src/gitbook_worker/ai_tools.py:58-63 | as written, a service that keeps answering 429 gets exactly that many requests, four from a first call with any positive `max_retries`, and the answer is a GenAI failure |
| AiAsk.AsWrittenIgnoresMaxRetries | gitbook_worker/src/gitbook_worker/ai_tools.py:58-62 | asked for one retry, the code as written sends four requests |
| AiAsk.AsWrittenAgreesOnDefault | gitbook_worker/src/gitbook_worker/ai_tools.py:37 | with the default `max_retries`, the code as written and the corrected one agree |
| AiAsk.BusyServiceExhaustsRetries | gitbook_worker/src/gitbook_worker/ai_tools.py:58-63 | a service that keeps answering 429 gets exactly 1 + max_retries requests, and the answer is a GenAI failure |
| AiAsk.RetryReturnsLaterOutcome | gitbook_worker/src/gitbook_worker/ai_tools.py:58-62 | a 429 with retries left is followed by the same request, whose outcome is returned |
| AiAsk.FailuresAreReported | gitbook_worker/src/gitbook_worker/ai_tools.py:37-67 | `ask_ai` never raises; each failure carries its provider's prefix, except GenAI text that did not decode |
| AiAsk.OpenAiGivesText | gitbook_worker/src/gitbook_worker/ai_tools.py:45 | the OpenAI branch returns text, never a decoded value |
| AiPrompt.AskForReference | gitbook_worker/src/gitbook_worker/ai_tools.py:174 | at most 1 + 3 requests; an unknown provider fails without any request; the GenAI branch is the retry as written |
| AiPrompt.IntToStringInjective | gitbook_worker/src/gitbook_worker/ai_tools.py:170 | different footnote indexes print differently |
| AiPrompt.CitationIdentifiesReference | gitbook_worker/src/gitbook_worker/ai_tools.py:170 | the index and the line can be read back from `Quelle [i]: line` |
| AiPrompt.FullPromptIdentifiesReference | gitbook_worker/src/gitbook_worker/ai_tools.py:169-172 | different references give different prompts |
| AiPrompt.FootnoteIndex | gitbook_worker/src/gitbook_worker/ai_tools.py:209-216 | the index is the value of the stripped numbering's leading digits, or -1 when it has none |
| AiPrompt.FootnoteIndexOfNumber | gitbook_worker/src/gitbook_worker/ai_tools.py:209-214 | a numbering that starts with the digits of k and a non-digit has index k |
| AiPrompt.FootnoteIndexWithoutNumber | gitbook_worker/src/gitbook_worker/ai_tools.py:213-214 | a numbering without leading digits has index -1 |
| AiInternal.InsertPosition | gitbook_worker/src/gitbook_worker/ai_tools.py:88-92 | a name goes at `lineno - 1`, at the end past the end, and before the last line for line number 0 |
| AiInternal.InsertName | gitbook_worker/src/gitbook_worker/ai_tools.py:88-92 | one insertion adds the name and keeps every line |
| AiInternal.InsertNames | gitbook_worker/src/gitbook_worker/ai_tools.py:86-92 | the insertions add exactly the names and keep every line |
| AiInternal.InternalFile | gitbook_worker/src/gitbook_worker/ai_tools.py:80-95 | a file without records is untouched and unreported; otherwise it is rewritten and reported once |
| AiInternal.InternalFiles | gitbook_worker/src/gitbook_worker/ai_tools.py:79-96 | no path is added and there is at most one report entry per listed file |
| AiInternal.InsertAll | gitbook_worker/src/gitbook_worker/ai_tools.py:86-92 | the insertion loop computes the insertions one after another |
| AiInternal.RepairFile | gitbook_worker/src/gitbook_worker/ai_tools.py:81-95 | the loop body computes one file's step |
| AiInternal.ProofAndRepairInternalReferences | gitbook_worker/src/gitbook_worker/ai_tools.py:70-96 | an unreadable summary raises; otherwise the files are repaired one after another |
| AiInternal.OnlyListedFilesChange | gitbook_worker/src/gitbook_worker/ai_tools.py:79-96 | only listed files change, and every report entry names a listed file |
| AiInternal.NoSourcesNoChange | gitbook_worker/tests/test_quality_checks.py:111-121 | a file without records is neither rewritten nor reported |
| AiInternal.InsertAtLine | gitbook_worker/src/gitbook_worker/ai_tools.py:88-90 | a name for line n lands at line n and shifts the old line n down |
| AiInternal.InsertPastEnd | gitbook_worker/src/gitbook_worker/ai_tools.py:91-92 | a line number past the end appends the name |
| AiInternal.InsertsAtPosition | gitbook_worker/tests/test_quality_checks.py:155-181 | a name for line 2 of a three-line file lands between lines 1 and 2 |
| AiInternal.AddsFootnoteInFront | gitbook_worker/tests/test_quality_checks.py:124-152 | a name for line 1 of a one-line file goes in front of it |
| AiExternal.VerdictOf | gitbook_worker/src/gitbook_worker/ai_tools.py:227-238 | success iff the call succeeded with a dict whose `success` is truthy; a non-dict answer is quoted in the error |
| AiExternal.Judge | gitbook_worker/src/gitbook_worker/ai_tools.py:208-238 | a verdict keeps the reference's line and line number |
| AiExternal.Verdicts | gitbook_worker/src/gitbook_worker/ai_tools.py:195-239 | one verdict per reference |
| AiExternal.ActionOf | gitbook_worker/src/gitbook_worker/ai_tools.py:244-306 | the report entry is `link_repaired`, `link_check_succeeded` or `link_repair_failed` exactly as success and a new text say |
| AiExternal.LineIndex | gitbook_worker/src/gitbook_worker/ai_tools.py:247 | a line number in range designates its line; an index Python cannot use raises |
| AiExternal.PatchFrom | gitbook_worker/src/gitbook_worker/ai_tools.py:244-306 | a completed patch keeps the line count and reports one entry per verdict; an aborted one raises `IndexError` or `TypeError` |
| AiExternal.PatchRaisesAtFirstFailure | gitbook_worker/src/gitbook_worker/ai_tools.py:244-252 | the patch stops at the first verdict that cannot be patched: `IndexError` when its line does not exist (the index is evaluated before `replace`), `TypeError` when only the new text is not a string |
| AiExternal.PatchRaisesIff | gitbook_worker/src/gitbook_worker/ai_tools.py:244-306 | the patch completes exactly when no verdict has a line number Python cannot index with or a replacement that is not text |
| AiExternal.PatchActions | gitbook_worker/src/gitbook_worker/ai_tools.py:244-306 | a completed patch reports, for each verdict in order, the entry its success and its new text call for |
| AiExternal.PatchKeeps | gitbook_worker/src/gitbook_worker/ai_tools.py:244-306 | a line no repairing verdict points at keeps its text |
| AiExternal.PatchRepairsLine | gitbook_worker/src/gitbook_worker/ai_tools.py:244-252 | a line exactly one repairing verdict points at becomes `lines[lineno - 1].replace(line, new) + "\n"` |
| AiExternal.PatchComposes | gitbook_worker/src/gitbook_worker/ai_tools.py:244-252 | each line ends as the repairs aimed at it leave it, applied in the order of the verdicts, each replacing in the text the previous one left and adding `"\n"` |
| AiExternal.NoSuccessPatch | gitbook_worker/src/gitbook_worker/ai_tools.py:288-306 | without a successful verdict the lines stay as read and every verdict is reported as `link_repair_failed` |
| AiExternal.ExternalFile | gitbook_worker/src/gitbook_worker/ai_tools.py:187-309 | an empty path or an unreadable file is skipped without a report |
| AiExternal.JudgeAll | gitbook_worker/src/gitbook_worker/ai_tools.py:195-239 | the question loop computes the verdicts |
| AiExternal.PatchLines | gitbook_worker/src/gitbook_worker/ai_tools.py:244-306 | the patch loop computes the patched lines and the report |
| AiExternal.RepairFile | gitbook_worker/src/gitbook_worker/ai_tools.py:188-309 | the loop body computes one file's step |
| AiExternal.RaisedPersists | gitbook_worker/src/gitbook_worker/ai_tools.py:187-310 | once a file raises, the run ends with that exception |
| AiExternal.RepairFiles | gitbook_worker/src/gitbook_worker/ai_tools.py:187-310 | the loop over the files computes the run for any way of judging a reference |
| AiExternal.ProofAndRepairExternalReferences | gitbook_worker/src/gitbook_worker/ai_tools.py:177-310 | the loop over the files computes the run |
| AiExternal.ExtractedLinesExist | gitbook_worker/src/gitbook_worker/ai_tools.py:241-247 | every extracted record points at a line that exists in the lines read back |
| AiExternal.NothingToRepair | gitbook_worker/src/gitbook_worker/ai_tools.py:244-306 | without a repairing verdict every line is kept |
| AiExternal.UnrepairedFileKeepsText | gitbook_worker/src/gitbook_worker/ai_tools.py:241-309 | a readable file in which nothing is repaired is written back unchanged |
| AiExternal.OpenAiVerdictFails | gitbook_worker/src/gitbook_worker/ai_tools.py:227-238 | OpenAI answers are text, so each reference fails with the answer quoted in the error |
| AiExternal.UnknownProviderVerdictFails | gitbook_worker/src/gitbook_worker/ai_tools.py:66-67 | an unknown provider fails every reference and names the provider in the error |
| AiExternal.NoSuccessKeepsText | gitbook_worker/src/gitbook_worker/ai_tools.py:288-309 | with no successful verdict, the file keeps its text and has one `link_repair_failed` per reference |
| AiExternal.OpenAiRepairsNothing | gitbook_worker/src/gitbook_worker/ai_tools.py:227-309 | with OpenAI every file keeps its text and every reference is reported as failed |
| AiExternal.PatchTouchesOnlyRepairedLines | gitbook_worker/src/gitbook_worker/ai_tools.py:244-309 | a line no repairing verdict points at is written back as read |
| AiExternal.RepairedLineDoublesNewline | gitbook_worker/src/gitbook_worker/ai_tools.py:247-252 | a repaired line keeps its line end and gains one more `\n` |
| AiExternal.RepairExample | gitbook_worker/tests/test_external_repair.py:4-47 | the test's line is replaced by `1. Example NEW` and two line ends |
| AiExternal.OnlyListedFilesChange | gitbook_worker/src/gitbook_worker/ai_tools.py:187-310 | files that are not listed keep their text |
| Tables.RunStart | gitbook_worker/src/gitbook_worker/utils.py:229-239 | the reference row of a table line is the first line of its run of table lines |
| Tables.ValidateTableColumns | gitbook_worker/src/gitbook_worker/utils.py:226-241 | the loop reports one message per mismatching line, in order |
| Tables.ValidateFile | gitbook_worker/src/gitbook_worker/utils.py:216-241 | an unreadable file raises; otherwise the mismatches of its lines are reported |
| Tables.MismatchIff | gitbook_worker/src/gitbook_worker/utils.py:229-236 | a line is reported exactly when it is a table line whose column count differs from that of its table's first line |
| Tables.MismatchesAscend | gitbook_worker/src/gitbook_worker/utils.py:229-236 | reports come in line order, at most one per line |
| Tables.FirstRowNeverReported | gitbook_worker/src/gitbook_worker/utils.py:232-235 | the first line of a table is never reported |
| Tables.ShortRowReported | gitbook_worker/tests/test_validate_tables.py:10-13 | in a table whose fourth row is short, only that row is reported, against the first row's count |
| Tables.TableEnd | gitbook_worker/src/gitbook_worker/utils.py:174-178 | a markdown table is the maximal run of table lines |
| Tables.HtmlEnd | gitbook_worker/src/gitbook_worker/utils.py:183-190 | an HTML table runs up to and including the first line holding `</table>`, or to the end of the file |
| Tables.First | gitbook_worker/src/gitbook_worker/utils.py:160-206 | each pass consumes at least one line; a fence line toggles the code state |
| Tables.MaxOf | gitbook_worker/src/gitbook_worker/utils.py:138 | `max(cols)` is one of the counts and no count exceeds it |
| Tables.CollectTable | gitbook_worker/src/gitbook_worker/utils.py:175-178 | the inner loop gathers exactly the run of table lines |
| Tables.CollectHtml | gitbook_worker/src/gitbook_worker/utils.py:184-190 | the inner loop gathers the HTML table's lines |
| Tables.WrapStep | gitbook_worker/src/gitbook_worker/utils.py:160-206 | one pass appends what the first part renders to and goes on after it |
| Tables.WrapLines | gitbook_worker/src/gitbook_worker/utils.py:130-206 | the loop produces the rendering of all parts |
| Tables.WrapWideTables | gitbook_worker/src/gitbook_worker/utils.py:111-213 | an unreadable file raises; otherwise the file is rewritten with its lines wrapped |
| Tables.BlocksCoverLines | gitbook_worker/src/gitbook_worker/utils.py:160-206 | the parts cover the lines read, in order and without overlap |
| Tables.TableBlocksAreRuns | gitbook_worker/src/gitbook_worker/utils.py:174-180 | every table part is a maximal run of table lines taken where it stands |
| Tables.TableLineIsNoFence | gitbook_worker/src/gitbook_worker/utils.py:162-174 | a table line never starts a fence |
| Tables.CodeLinesStayPlain | gitbook_worker/src/gitbook_worker/utils.py:162-171 | fence lines and lines inside fenced code are written back as read |
| Tables.WrapCases | gitbook_worker/src/gitbook_worker/utils.py:134-158 | a table is wrapped exactly when its widest row exceeds the threshold, in the landscape Div or the raw LaTeX block |
| Tables.NarrowTablesUnchanged | gitbook_worker/tests/test_wide_tables.py:20-28 | without HTML tables and without a row wider than the threshold, the file is written back unchanged |
| Tables.WideTableWrapped | gitbook_worker/tests/test_wide_tables.py:11-18 | a file that is one wide table is put between `::: {.landscape cols=N}` and `:::` |
| Emoji.Found | gitbook_worker/src/gitbook_worker/utils.py:394-395 | the characters found are reported ones, no more than the text holds |
| Emoji.CountBlocks | gitbook_worker/src/gitbook_worker/utils.py:397-405 | the dict counts every block found exactly as often as its characters occur, keys in first-seen order |
| Emoji.SortRows | gitbook_worker/src/gitbook_worker/utils.py:407 | the rows are sorted by descending count, then by name, and are a permutation of the items |
| Emoji.InsertOrdered | gitbook_worker/src/gitbook_worker/utils.py:407 | inserting into ordered rows keeps them ordered |
| Emoji.EmojiReportOf | gitbook_worker/src/gitbook_worker/utils.py:394-413 | the counts are the blocks' occurrences, and the table lists the sorted rows under the header |
| Emoji.EmojiReport | gitbook_worker/src/gitbook_worker/utils.py:384-413 | an unreadable file raises; otherwise the keys are exactly the blocks found, each count is that block's occurrences in the text, and the table is the header and the rows sorted by count, then name |
| Emoji.FirstSeenIn | gitbook_worker/src/gitbook_worker/utils.py:397-405 | the keys are the blocks found, each once |
| Emoji.FoundCounts | gitbook_worker/src/gitbook_worker/utils.py:394-395 | exactly the characters outside ASCII and Latin are found, as often as they occur |
| Emoji.FirstBlockWins | gitbook_worker/src/gitbook_worker/utils.py:401-404 | a character goes under the first block that holds it |
| Emoji.NoBlockUnknown | gitbook_worker/src/gitbook_worker/utils.py:400 | a character in no block goes under `Unknown` |
| Emoji.FlagsBeforeEnclosed | gitbook_worker/src/gitbook_worker/utils.py:378-380 | flags also lie in the Enclosed Alphanumeric Supplement but are counted as Flags |
| Emoji.TwoEmojiExample | gitbook_worker/tests/test_emoji_report.py:5-8 | two emoji amid plain text give their two blocks, in text order |
| Emoji.HelloWorldBlocks | gitbook_worker/src/gitbook_worker/utils.py:371-372 | 😊 is an Emoticon and 🚀 a Transport and Map Symbol |
| Emoji.CountsAddUp | gitbook_worker/src/gitbook_worker/utils.py:397-405 | the counts add up to the number of characters found |
| Emoji.TableRows | gitbook_worker/src/gitbook_worker/utils.py:407-411 | the table has one row per block found, in sorted order, and the counts add up to the characters found |
| Summary.TargetAt | gitbook_worker/src/gitbook_worker/utils.py:84 | a target follows `](`, is closed by `)` and is the text in between |
| Summary.ParseSummary | gitbook_worker/src/gitbook_worker/utils.py:77-90 | an unreadable summary ends the run; otherwise the targets of its lines, joined to its directory |
| Summary.TargetShape | gitbook_worker/src/gitbook_worker/utils.py:84 | a captured target ends in `.md`, has a character before it and holds no `)` |
| Summary.LastTargetAt | gitbook_worker/src/gitbook_worker/utils.py:84 | the greedy `.*` makes the last suitable `](` on the line win |
| Summary.SummaryFilesAppend | gitbook_worker/src/gitbook_worker/utils.py:83-86 | the files come in the order of the lines that list them |
| Summary.EntryTarget | gitbook_worker/src/gitbook_worker/utils.py:84 | a line of blanks, `* [`, a title and `](target)` lists the target |
| Summary.SummaryEntry | gitbook_worker/tests/test_core_functions.py:16-26 | an entry `  * [Title](dir/file.md)` lists `dir/file.md` relative to the summary's directory |
| PandocVersion.FirstMatch | gitbook_worker/src/gitbook_worker/utils.py:53 | `re.search` finds the leftmost `pandoc` followed by blanks and a digit |
| PandocVersion.PandocVersionOf | gitbook_worker/src/gitbook_worker/utils.py:46-57 | the version is never empty |
| PandocVersion.DottedChars | gitbook_worker/src/gitbook_worker/utils.py:57 | the dotted form starts with a digit and holds only digits and dots |
| PandocVersion.ComponentsOfDotted | gitbook_worker/src/gitbook_worker/utils.py:53-57 | reading the numbers back from their dotted form gives the numbers |
| PandocVersion.VersionRoundTrip | gitbook_worker/src/gitbook_worker/utils.py:46-57 | `pandoc X.Y.Z` on the first line gives `(X, Y, Z)` |
| PandocVersion.NoVersionOnFirstLine | gitbook_worker/src/gitbook_worker/utils.py:52-56 | a first line without a version gives `(0,)` |
| PandocHeader.FontDirectives | gitbook_worker/src/gitbook_worker/utils.py:322-324 | fontspec and the sans and mono fonts come first |
| PandocHeader.FontParts | gitbook_worker/src/gitbook_worker/utils.py:322-344 | the main font iff asked; the Segoe fallback iff that font; otherwise a named emoji font; no table parts |
| PandocHeader.EmojiWrites | gitbook_worker/src/gitbook_worker/utils.py:327-344 | no emoji line without an emoji font, the Segoe fallback for `Segoe UI Emoji`, one font family line for any other |
| PandocHeader.Directives | gitbook_worker/src/gitbook_worker/utils.py:321-362 | the font parts first; the wide-table packages iff wrapping; the longtable replacement iff disabled |
| PandocHeader.WritePandocHeader | gitbook_worker/src/gitbook_worker/utils.py:296-367 | the header file is written with all parts; if the table wrap raises it holds only the font parts |
| PandocHeader.WriteFonts | gitbook_worker/src/gitbook_worker/utils.py:322-344 | the font lines written are those of the font parts |
| PandocHeader.WriteEmoji | gitbook_worker/src/gitbook_worker/utils.py:327-344 | the emoji lines written are those of the emoji part |
| PandocHeader.WriteSegoeEmoji | gitbook_worker/src/gitbook_worker/utils.py:332-340 | the Segoe fallback lines are appended |
| PandocHeader.WriteWideTables | gitbook_worker/src/gitbook_worker/utils.py:348-353 | the wide-table package lines are appended |
| PandocHeader.WriteNoLongtable | gitbook_worker/src/gitbook_worker/utils.py:355-362 | the longtable replacement lines are appended |
| PandocHeader.PartialHeaderIsPrefix | gitbook_worker/src/gitbook_worker/utils.py:345-365 | what a failed table wrap leaves is the start of the full header |
| PandocHeader.FirstWrites | gitbook_worker/src/gitbook_worker/utils.py:322-324 | the first three lines load fontspec and set the sans and mono fonts |
| PandocHeader.HeaderStartsWithFonts | gitbook_worker/tests/test_header.py:5-25 | the header always starts by loading fontspec and setting the sans and mono fonts |
| PandocHeader.DirectivesAscending | gitbook_worker/src/gitbook_worker/utils.py:321-362 | the parts come in the header's fixed order, each at most once |
| PandocCmd.PandocArgs | gitbook_worker/src/gitbook_worker/pandoc_utils.py:76-87 | pandoc's arguments start with the input and `-o` the output |
| PandocCmd.LuaFilters | gitbook_worker/src/gitbook_worker/pandoc_utils.py:91-93 | one `--lua-filter` argument per filter |
| PandocCmd.LuaFiltersAt | gitbook_worker/src/gitbook_worker/pandoc_utils.py:91-93 | the k-th `--lua-filter` argument names the k-th filter |
| PandocCmd.FilterMounts | gitbook_worker/src/gitbook_worker/pandoc_utils.py:40-42 | one `-v dirname:/filters` pair per filter |
| PandocCmd.FilterMountsAt | gitbook_worker/src/gitbook_worker/pandoc_utils.py:40-42 | the k-th pair mounts the directory of the k-th filter |
| PandocCmd.BuildPandocCmd | gitbook_worker/src/gitbook_worker/pandoc_utils.py:66-96 | the local command built step by step is the laid-out command |
| PandocCmd.BuildDockerPandocCmd | gitbook_worker/src/gitbook_worker/pandoc_utils.py:7-63 | the Docker command built step by step is the laid-out command |
| PandocCmd.LocalLayout | gitbook_worker/src/gitbook_worker/pandoc_utils.py:75-95 | the twelve fixed arguments, the extra arguments, the filters, then the resource path and the header |
| PandocCmd.DockerParts | gitbook_worker/src/gitbook_worker/pandoc_utils.py:29-62 | the Docker command is the mounts, the filter mounts, pandoc's arguments and the filters |
| PandocCmd.DockerMountsFirst | gitbook_worker/src/gitbook_worker/pandoc_utils.py:29-44 | the three directories and every filter directory are mounted before the image name |
| PandocCmd.DockerPaths | gitbook_worker/src/gitbook_worker/pandoc_utils.py:21-58 | inside the container pandoc uses `/temp`, `/data` and `/gitbook_repo` with the files' base names |
| PandocCmd.DockerFiltersLast | gitbook_worker/src/gitbook_worker/pandoc_utils.py:60-62 | the command ends with every filter's base name under `/filters`, in order |
| PandocCmd.DockerWithoutFilters | gitbook_worker/src/gitbook_worker/pandoc_utils.py:29-63 | without filters there are exactly the three mounts and no `--lua-filter` |
| LinkCheck.Largest | gitbook_worker/src/gitbook_worker/linkcheck.py:110 | `max(nums)` is one of the numbers and none exceeds it |
| LinkCheck.MissingBetween | gitbook_worker/src/gitbook_worker/linkcheck.py:110-111 | exactly the numbers in range that do not occur, ascending |
| LinkCheck.Missing | gitbook_worker/src/gitbook_worker/linkcheck.py:110-113 | the gaps are exactly the numbers from 1 to the largest that do not occur, ascending |
| LinkCheck.CheckCitationNumbering | gitbook_worker/src/gitbook_worker/linkcheck.py:97-116 | the loop over the files reports the files' gaps |
| LinkCheck.CitationNumberOf | gitbook_worker/src/gitbook_worker/linkcheck.py:100 | a line of blanks, a number, `.` and a blank carries that number |
| LinkCheck.OneAndThreeMissTwo | gitbook_worker/tests/test_quality_checks.py:104-108 | items 1 and 3 without 2 report `[2]` |
| LinkCheck.NoGapIffConsecutive | gitbook_worker/src/gitbook_worker/linkcheck.py:109-113 | no gap is reported exactly when every number up to the largest occurs |
| LinkCheck.GapsWellFormed | gitbook_worker/src/gitbook_worker/linkcheck.py:101-115 | every gap names a listed readable file and a non-empty ascending list of numbers missing from it |
| LinkCheck.MarkerFound | gitbook_worker/src/gitbook_worker/linkcheck.py:122-127 | a marker anywhere on the line is found |
| LinkCheck.MarkerPosition | gitbook_worker/src/gitbook_worker/linkcheck.py:122-127 | what is found is a whole-word `TODO` or `FIXME` |
| LinkCheck.ListTodos | gitbook_worker/src/gitbook_worker/linkcheck.py:119-131 | the loop over the files lists the entries |
| LinkCheck.MarkedLinesOrdered | gitbook_worker/src/gitbook_worker/linkcheck.py:123-128 | entries come in line order, each for a marked line of the file, numbered from 1, with the stripped line |
| LinkCheck.MarkedLinesComplete | gitbook_worker/src/gitbook_worker/linkcheck.py:123-128 | a line has an entry exactly when it holds a marker |
| LinkCheck.LastNonBreak | gitbook_worker/src/gitbook_worker/linkcheck.py:79 | the backtracking `.+` ends at the last character that is not a line break |
| LinkCheck.VisitTitles | gitbook_worker/src/gitbook_worker/linkcheck.py:83-91 | scanning a file only adds duplicates |
| LinkCheck.CheckDuplicateHeadings | gitbook_worker/src/gitbook_worker/linkcheck.py:75-94 | the loop over the files reports the duplicates |
| LinkCheck.VisitTitlesExtends | gitbook_worker/src/gitbook_worker/linkcheck.py:88-91 | no recorded location is overwritten, and exactly the file's new titles are recorded |
| LinkCheck.VisitTitlesPointsToFirst | gitbook_worker/src/gitbook_worker/linkcheck.py:88-91 | every duplicate points at the first location of its title |
| LinkCheck.VisitTitlesOrdered | gitbook_worker/src/gitbook_worker/linkcheck.py:83-89 | a file's duplicates name it and come in ascending line order |
| LinkCheck.ReportedIffSeenBefore | gitbook_worker/src/gitbook_worker/linkcheck.py:86-91 | a heading is reported exactly when its title was seen before |
| LinkCheck.VisitFilesKeeps | gitbook_worker/src/gitbook_worker/linkcheck.py:80-91 | across files, no location is overwritten and duplicates point at first locations |
| LinkCheck.SameTitleInTwoFiles | gitbook_worker/tests/test_core_functions.py:45-51 | the same title in two files reports the second with the first's location |
| LinkCheck.HeadingLine | gitbook_worker/src/gitbook_worker/linkcheck.py:79-86 | a heading of one to six hashes has the stripped, lowered title |
| LinkCheck.BareHashes | gitbook_worker/src/gitbook_worker/linkcheck.py:79 | `##` alone has the title `#`, and `#` alone has none |
| ReferenceSplit.TokenEnd | gitbook_worker/src/gitbook_worker/__init__.py:56 | the run of characters a URL token is made of |
| ReferenceSplit.GroupEnd | gitbook_worker/src/gitbook_worker/__init__.py:56 | a group, when one starts at g, takes the whole token run |
| ReferenceSplit.MatchAt | gitbook_worker/src/gitbook_worker/__init__.py:56 | a match at i has its group within two characters of i and the group is a full token run |
| ReferenceSplit.Search | gitbook_worker/src/gitbook_worker/__init__.py:57 | `search` returns the well-formed match at a position at or after `from` |
| ReferenceSplit.SearchIsLeftmost | gitbook_worker/src/gitbook_worker/__init__.py:57 | no match starts before the one found, nor anywhere when none is found |
| ReferenceSplit.NoMatchAt | gitbook_worker/src/gitbook_worker/__init__.py:57 | a stretch without matches has no match at any of its positions |
| ReferenceSplit.RemoveMatches | gitbook_worker/src/gitbook_worker/__init__.py:60 | `sub` never lengthens the text |
| ReferenceSplit.SplitReference | gitbook_worker/src/gitbook_worker/__init__.py:55-64 | the value is empty exactly when there is no match, and otherwise the first match's group |
| ReferenceSplit.Key | gitbook_worker/src/gitbook_worker/__init__.py:60-62 | the key has no blanks at either end |
| ReferenceSplit.Group | gitbook_worker/src/gitbook_worker/__init__.py:59 | the value is a non-empty run of token characters |
| ReferenceSplit.ValueShape | gitbook_worker/src/gitbook_worker/__init__.py:56-59 | the value holds no blanks, brackets or `)` and is an http(s) URL or has an inner dot |
| ReferenceSplit.GroupShape | gitbook_worker/src/gitbook_worker/__init__.py:56 | a group is an http(s) URL or a dotted name |
| ReferenceSplit.NoMatchKept | gitbook_worker/src/gitbook_worker/__init__.py:60-63 | text without a match loses nothing to the substitution |
| ReferenceSplit.FirstMatchRemoved | gitbook_worker/src/gitbook_worker/__init__.py:60 | the substitution keeps the text before the first match and goes on after it |
| ReferenceSplit.NoGroupWithoutDotOrColon | gitbook_worker/src/gitbook_worker/__init__.py:56 | no group starts inside text without `.` and `:` |
| ReferenceSplit.DescriptionThenUrl | gitbook_worker/src/gitbook_worker/__init__.py:55-64 | `Description https://...` splits into the stripped description and the URL |
| ReferenceSplit.SplitAtTrailingMatch | gitbook_worker/src/gitbook_worker/__init__.py:59-60 | a match running to the end leaves the text before it as the key and the rest as the value |
| ReferenceSplit.SearchSkips | gitbook_worker/src/gitbook_worker/__init__.py:57 | positions without a match are skipped by the search |

## Left out

- Character classes: `\d`, `\w`, `str.isdigit()`, `str.lower()` and `re.IGNORECASE` are modelled on ASCII; Python's Unicode digits, letters and case mapping are not. `\s`, `str.isspace()` and `strip()` use Python's full whitespace set (`Text.IsSpace`).
- Files are modelled as decoded strings in a map from path to optional content; encodings, universal newlines and partial reads are not modelled, and a missing or unreadable file is the same `None`.
- Write failures are not modelled: every write to an existing path succeeds.
- `json.loads` and `ast.literal_eval` are parameters (decoders) of the AI repair; JSON numbers are carried as `real`, and `str()` of a non-dict answer is not rendered character by character.
- The texts of exception messages and log lines are not modelled; a raised exception is a distinct outcome.
- Logging, the random wait before a retry, `time.sleep` and the `tqdm` progress bars have no effect on the results and are left out.
- The HTTP service of the AI repair is a parameter that maps a request to a response; the network itself is not modelled.
- CSV quoting and escaping of the reports are not modelled; a report is its sequence of rows.
- The summary links that the internal repair reads are read but never used by the source; the model only keeps the failure to open the summary.
- The pandoc conversion of HTML tables to markdown inside `wrap_wide_tables` is a parameter `convert`; its failure keeps the HTML as it was.
- `run`, `font_available` and the running of pandoc are processes and are left out; `get_pandoc_version` takes the process's exit code and output as parameters.
- `os.path.abspath`, `dirname`, `basename` and `join` are the parameters of `PathOps`; their behaviour on real paths is not modelled.
- `parse_summary` ends the process with `sys.exit(1)` when the summary cannot be read; the model returns `None` there.
- `build_pandoc_cmd` and `build_docker_pandoc_cmd`: an absent `filter_paths` or `extra_args` (`None`) is modelled as the empty list, which the source treats the same way.
- ReferenceSplit.ValueShape: the shape of the value is stated for the group of the first match, which is the value `SplitReference` returns when there is a match.
- `block_start`, `block_end` and `block_level` in `proof_and_repair_external_references` (gitbook_worker/src/gitbook_worker/ai_tools.py:183-206) are computed but never read; the model leaves them out.
- AiAsk.AskGenAi and AiAsk.AskAi: the GenAI branch uses the corrected retry `PostGenAi` (see Findings), so for a caller's `max_retries` other than 3 they bound the requests by `1 + max_retries`, where the source as written sends up to four from a first call; `PostGenAiAsWritten` and `BusyServiceAsWritten` state what the source does, and `AsWrittenAgreesOnDefault` and `AiPrompt.AskForReference` show the two agree for the default, which is the only value the source passes.

## Findings

| source | as written | input that shows it | evidently intended | confidence | as-written member | corrected member |
|---|---|---|---|---|---|---|
| gitbook_worker/src/gitbook_worker/ai_tools.py:62 | the retry after a 429 calls `ask_ai` again without passing `max_retries`, so every retry restarts with the default of 3 | a service that always answers 429, called with `max_retries=1`: four requests are sent instead of two | at most `1 + max_retries` requests | not executed | AiAsk.AsWrittenIgnoresMaxRetries | AiAsk.BusyServiceExhaustsRetries |
