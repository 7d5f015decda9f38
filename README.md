# Bug Hunter agent core, modelled in Dafny

The agent takes rows of C++ test code (an id, an intent text called the context, and the
code). For each row it does the following:

- fetches documentation for the context from a search tool;
- runs cppcheck on the code;
- numbers the code's lines;
- builds a prompt for a language model;
- parses the model's reply into a bug record;
- writes one output row (id, bug lines, explanations, corrected code).

This project models that pipeline and proves what each step promises. The steps are:

- the helpers in `utils/code_analyzer.py`: line numbering, the prompt, the reply parser with
  its JSON path and its regular-expression fallback, explanation truncation, and the
  formatting of the documents;
- the stderr filter of `utils/cpp_checker.py`;
- `search_docs`, `analyze_entry` and the row loop of `process_csv` in `bug_agent.py`.

Modules, one per file:

- `Outcomes` (`outcomes.dfy`): `Option`, and `Attempt`, which is a value or a raised
  exception's message.
- `Text` (`text.dfy`): the Python `str` operations used: `strip`, `split`, `join`,
  `startswith`, `find`, `replace(p, "")`, `str.split()` words and `str(int)`.
- `Seqs` (`seqs.dfy`): stable descending sort, slicing, and the filtered, numbered maps
  that the loops build.
- `PyValue` (`py_value.dfy`): decoded JSON values with `dict.get`, iteration and `str()`.
- `ReplyScan` (`reply_scan.dfy`): hand-written scanners for the four regular expressions
  of the parser. Each one returns the first match and the groups that Python's `re` returns.
- `CodeAnalyzer` (`code_analyzer.dfy`), `CppChecker` (`cpp_checker.dfy`) and `BugAgent`
  (`bug_agent.dfy`): the three source files.

Everything outside the process is a parameter:

- the search tool;
- `json.loads` and `ast.literal_eval` (`None` when they raise);
- writing the temporary file;
- running cppcheck;
- the model call (`Attempt`: a raised exception carries `str(e)`).

`analyze_entry` is modelled as `AnalyzeEntry` over a record of step functions
(`BugAgent.Steps`):

- `BugAgent.Pipeline(t)` holds the agent's own steps: `RagText(docs, 5)`, `AddLineNumbers`,
  the cppcheck report, `FillTemplate(t, …)` and `ParseSpec`. Each has its imperative method
  (`FormatRagDocs`, `CheckCodeSnippet`, `ParseLlmResponse`), proved equal to it.
- `BugAgent.AgentSteps` states what the agent does once those steps are plugged in.
- The prompt texts are a `PromptTemplate` value. `CodeAnalyzer.AnalysisTemplate` is the one
  `build_analysis_prompt` writes out, and `CodeAnalyzer.BuildAnalysisPrompt` fills it in.

Decoded documents are `Doc(text, score)`, with both fields optional. A score is a whole
number of thousandths, so `{score:.3f}` is rendered exactly.

Where the code and its design notes disagree, the model follows the code:

- The JSON path stringifies, truncates and pads. The fallback parser does none of these.
  Its explanations are not cut to 15 words, and its two lists already have equal length.
- Document labels are positions in the top-five list, counted before documents with empty
  text are dropped. The labels can therefore skip numbers.
- cppcheck failures are handled in two ways:
  - A failing cppcheck run does not degrade to "no findings". The prompt's findings section
    then holds "Error running cppcheck: " and the message.
  - A failure to write the temporary file happens outside the `try`. It propagates, and the
    row becomes an error row.
- A non-dict JSON value, a non-iterable "bug_lines" or a non-string explanation raises in
  the strict path. The row then becomes an error row.

## Model

| member | source | states |
|---|---|---|
| CodeAnalyzer.AddLineNumbers | utils/code_analyzer.py:11-15 | empty code numbers to the single line "1: " |
| CodeAnalyzer.AddLineNumbersLines | utils/code_analyzer.py:11-15 | the numbered text has exactly one line per line of the code, line i being "i+1: " followed by the code's line i |
| CodeAnalyzer.AddLineNumbersRoundTrip | utils/code_analyzer.py:11-15 | removing the "n: " prefix of every line gives the code back, so numbering is reproducible and loses nothing |
| CodeAnalyzer.Section | utils/code_analyzer.py:20-33 | an optional section is empty exactly when its body has no text after stripping, and is header, body, trailer otherwise |
| CodeAnalyzer.RenderPrompt | utils/code_analyzer.py:35-70 | the prompt's length, and where the intro, context, newline, docs section, newline, findings section, code opener, numbered code and closing text each lie |
| CodeAnalyzer.PromptSections | utils/code_analyzer.py:18-70 | the filled template is intro, context, docs section, findings section and fenced code in order; the docs header appears iff the docs have text, the findings header and its note iff the findings have text |
| CodeAnalyzer.Truncate | utils/code_analyzer.py:116-121 | the result's words are the first max_words words of the text; a text with no more than max_words words is returned unchanged |
| CodeAnalyzer.TruncateAll | utils/code_analyzer.py:105 | succeeds iff every explanation is a string, result i then being explanation i truncated |
| CodeAnalyzer.TruncateAllRaised | utils/code_analyzer.py:105 | a failure carries the AttributeError message for the first element that is not a string |
| CodeAnalyzer.Pad | utils/code_analyzer.py:107-111 | both lists end with the longer length, keep their elements as a prefix, and are padded with "" and "Bug detected" |
| CodeAnalyzer.PadLists | utils/code_analyzer.py:107-111 | the two padding loops produce exactly the padded lists |
| CodeAnalyzer.StrictSpec | utils/code_analyzer.py:97-113 | a non-dict raises the AttributeError for `get`; a dict succeeds iff "bug_lines" is iterable and "explanations" iterates to strings |
| CodeAnalyzer.StrictKeepsDecoded | utils/code_analyzer.py:97-113 | on success the bug lines begin with str() of each decoded element, the explanations with each truncated, the corrected code is the decoded value, and the lengths agree |
| CodeAnalyzer.StrictExplanationsShort | utils/code_analyzer.py:104-111 | every explanation the strict path returns has at most 15 words, the padding included |
| CodeAnalyzer.ObjectCandidate | utils/code_analyzer.py:87-90 | without a '{' before a '}' the text is kept; otherwise the candidate runs from the first '{' to the last '}' of the text |
| CodeAnalyzer.ParseLlmResponse | utils/code_analyzer.py:73-113 | the parser returns the parse specification's record or exception, and every record it returns has as many bug lines as explanations |
| CodeAnalyzer.FallbackParse | utils/code_analyzer.py:124-142 | the fallback parser returns the fallback record: the pairs of the matches and the corrected-code block |
| CodeAnalyzer.CollectMatches | utils/code_analyzer.py:133-135 | the loop over the matches collects group 1 and stripped group 2 of each match, in order |
| CodeAnalyzer.FallbackShape | utils/code_analyzer.py:130-135 | one pair per line-pattern match, in order and non-overlapping; each match has the pattern's shape; bug line k is the digit string of match k and explanation k its group 2 stripped, on one line |
| CodeAnalyzer.FallbackText | utils/code_analyzer.py:130-135 | explanation k is the rest of match k's line after its separator, stripped |
| CodeAnalyzer.FallbackNoMatch | utils/code_analyzer.py:130-135 | the fallback finds no pair iff the text has the line pattern's shape at no position |
| CodeAnalyzer.UnsignedText | utils/code_analyzer.py:158 | the three-decimal rendering of a non-negative score starts with a digit and reads back as that score |
| CodeAnalyzer.ScoreTextRoundTrip | utils/code_analyzer.py:158 | the rendering of any score, negative ones included, reads back as that score |
| CodeAnalyzer.FormatRagDocs | utils/code_analyzer.py:145-160 | the loop produces the formatter's text: "" for no documents, otherwise the numbered blocks of the top documents with text, joined by blank lines |
| CodeAnalyzer.TopDocsSpec | utils/code_analyzer.py:150-151 | the documents kept are a prefix of the stable descending sort, min(max_docs, n) of them, drawn from the input, in non-increasing score order, none scoring less than any left out |
| CodeAnalyzer.RagBlocksSpec | utils/code_analyzer.py:153-160 | one block per top document whose stripped text is non-empty, in order, labelled with its 1-based position and showing its score and text; a document is rendered iff its text is non-empty |
| ReplyScan.FenceBodyStart | utils/code_analyzer.py:83 | after the opening fence the group starts past an optional "json" and all the whitespace that follows it |
| ReplyScan.FenceSpan | utils/code_analyzer.py:83-85 | the fence pattern matches iff a second "```" follows the first; the group starts where the optional "json" and the whitespace after the first fence end, holds no fence, and ends at the next fence or at the newline just before it |
| ReplyScan.ObjectSpan | utils/code_analyzer.py:88-90 | the object pattern matches iff some '{' precedes some '}', and then spans the first '{' to the last '}' |
| ReplyScan.MatchLineAt | utils/code_analyzer.py:130-132 | a line-pattern match at i starts at i, ends within the text, has group 1 after "Line"/"line" as a non-empty digit string and the separator after it, and a single-line group 2 |
| ReplyScan.MatchLineAtIff | utils/code_analyzer.py:130-132 | the pattern matches at i iff the text there is "Line" or "line", whitespace, digits, whitespace, a separator, and later a character other than a newline |
| ReplyScan.MatchLineShape | utils/code_analyzer.py:130-132 | a match has that shape with group 1 and the separator where the match records them |
| ReplyScan.MatchLineGroup | utils/code_analyzer.py:130 | group 2 of a match is the group that the tail after its separator yields |
| ReplyScan.LineTailMatches | utils/code_analyzer.py:130 | the tail `\s*(.+?)(?:\n\|$)` matches at g iff some character at or after g is not a newline |
| ReplyScan.LineTailText | utils/code_analyzer.py:130 | the tail's group stripped equals the text from g to the end of the line holding the group, stripped |
| ReplyScan.LineHitsSpec | utils/code_analyzer.py:133-135 | finditer's matches are in order, do not overlap, and each is the pattern's match at its own start |
| ReplyScan.LineHitsCover | utils/code_analyzer.py:133 | wherever the line pattern matches, a listed match starts there or overlaps it |
| ReplyScan.CorrectedAt | utils/code_analyzer.py:138 | a corrected-code match at i starts with the case-folded label, and its group runs up to the first fence after its start |
| ReplyScan.AfterTag | utils/code_analyzer.py:138 | the group starts after an optional case-folded "cpp" or "c" and one optional newline |
| ReplyScan.CorrectedAtStart | utils/code_analyzer.py:138 | a match's group starts after the opening fence that follows the label, an optional ':' and whitespace |
| ReplyScan.CorrectedAtIff | utils/code_analyzer.py:138 | the pattern matches at i iff the case-folded label is there, followed by an optional ':', whitespace, a fence, and a later fence |
| ReplyScan.FirstMatch | utils/code_analyzer.py:138-140 | search returns the match at the first position where one exists, and nothing iff there is none |
| ReplyScan.FirstCorrectedSpec | utils/code_analyzer.py:138-140 | search finds a corrected-code block iff some position has the pattern's shape, and then it is the match at the first such position |
| PyValue.Get | utils/code_analyzer.py:97-99 | dict.get returns the value of the first entry with the key, else the default |
| PyValue.Iterate | utils/code_analyzer.py:102-105 | iteration raises TypeError iff the value is not a list, string or dict; it gives a list's items unchanged, a string's characters one by one, and a dict's keys in order |
| CppChecker.FilterFindings | utils/cpp_checker.py:45-57 | the filter loop returns the report: the cleaned reported lines of the stripped stderr joined by newlines, or "" |
| CppChecker.CheckCodeSnippet | utils/cpp_checker.py:22-60 | a failed temporary file propagates its exception; a failed run yields "Error running cppcheck: " and the message; a successful run yields the report |
| CppChecker.FindingsSpec | utils/cpp_checker.py:48-55 | a stderr line gives a finding iff it has text and does not start with "Checking"; findings keep the lines' order and each is its line cleaned |
| CppChecker.CleanSpec | utils/cpp_checker.py:54 | a line without the path is only stripped; a line that is just the path becomes empty |
| CppChecker.ReportLines | utils/cpp_checker.py:57 | no findings give ""; otherwise splitting the report at newlines gives the findings back |
| BugAgent.SearchDocs | bug_agent.py:44-66 | the method returns the search specification's documents |
| BugAgent.SearchDocsSource | bug_agent.py:44-66 | a failing tool call gives no documents; documents come only from the first content item, as the list json.loads decoded or, when it raised, the list literal_eval read |
| BugAgent.SearchDocsFound | bug_agent.py:49-60 | conversely the list json.loads decodes from the first item's text is returned, and so is the list literal_eval reads when json.loads raised; no content, a non-list payload or text both reject gives [] |
| BugAgent.AnalyzeEntry | bug_agent.py:96-149 | the method returns the row and makes the service calls that the analysis specification gives for the same steps |
| BugAgent.AnalyzeCalls | bug_agent.py:99-127 | the services are called in the order search, temporary file, cppcheck on that file, model with the built prompt; nothing is called after a failed temporary file |
| BugAgent.AnalyzeErrors | bug_agent.py:141-149 | the temporary file, the model or the parser raising gives the error row with that step's message |
| BugAgent.AnalyzeSuccess | bug_agent.py:129-139 | on success the row keeps the id, the parsed corrected code and the documents found, and joins the parsed lists into its two text fields |
| BugAgent.AgentSteps | bug_agent.py:101-127 | with the agent's steps the model receives the analysis prompt filled with the numbered code, context, top-five documents and cppcheck text, and the row is built from parse_llm_response's result |
| BugAgent.PipelineCheck | utils/cpp_checker.py:57-60 | the agent's cppcheck step yields "Error running cppcheck: " and the message for a failed run, the report otherwise |
| BugAgent.ErrorRowShape | bug_agent.py:143-149 | an error row has an empty bug line, empty corrected code, no documents, and "Error: " followed by the message |
| BugAgent.BugLineFieldSpec | bug_agent.py:135 | the bug-line field is empty iff there are no bug lines or one empty one, and splits back at commas into bug lines that hold no comma |
| BugAgent.FallbackBugLinesSplit | bug_agent.py:135 | bug lines from the fallback parser always split back out of their comma-joined field |
| BugAgent.ColumnsPresent | bug_agent.py:210 | a column is kept iff it is both wanted and present |
| BugAgent.ProcessCsv | bug_agent.py:183-219 | the loop's results and service calls are those of the batch specification; all four columns are written when there are results and none otherwise; bugs_found counts the rows with a bug line |
| BugAgent.BatchSpec | bug_agent.py:183-194 | one result per input row, in order, result i being row i's analysis without "RAG Docs" |
| BugAgent.ColumnsSpec | bug_agent.py:208-211 | with results every output column is kept in order; with none the column list is empty |
| BugAgent.CountBugs | bug_agent.py:219 | the count never exceeds the number of results |
| BugAgent.CountBugsSpec | bug_agent.py:219 | the count is the number of results whose bug line is non-empty |

## Left out

- `call_llm` (`bug_agent.py:68-94`) is modelled only as the `llm` service parameter. The HTTP
  request, its payload and the response-shape checks are I/O.
- The MCP client, `async`/`await`, `list_tools`, `analyze_single_snippet` and every `print`
  are left out. They are connection handling and logging.
- Reading and writing the CSV files is left out: `pd.read_csv`, `DataFrame`, `to_csv` and
  `os.makedirs`. Input rows arrive as strings. `str()` of NaN cells and other pandas
  conversions are not modelled.
- `tempfile`, `subprocess.run` and `os.remove` are parameters or are left out. An exception
  from `os.remove` in the `finally` block is not modelled.
- The temporary file's path and the model's reply are deterministic functions of their
  inputs (`tempFile(code)`, `llm(prompt)`). Fresh random paths and varying replies to the
  same prompt are not modelled.
- The search payload is taken as already decoded into a list of documents, or not a list.
  Ill-typed documents are not modelled. In `format_rag_docs`
  (`utils/code_analyzer.py:150-157`) they raise at different points:
  - a non-dict element raises in the sort, on `d.get`;
  - a text that is not a string raises only for a document among the top `max_docs`, on
    `.strip()`;
  - a string score raises only when the sort compares it with a number, or when it is
    formatted with `:.3f` for a top document that has text.
- Scores are exact thousandths. Floating-point scores, and their rounding to three
  decimals, are not modelled.
- `\d` is taken as the ASCII digits, and IGNORECASE as ASCII case folding. `repr()` of
  a string inside a container is the string between single quotes, with no escaping at
  all: quotes, backslashes and control characters are copied as they are. `str()` of floats is carried as a
  given text.
- CodeAnalyzer.BuildAnalysisPrompt: has no contract of its own. It is the analysis template
  filled in, and its properties are those of `FillTemplate`, `RenderPrompt` and
  `PromptSections` for any template.
- BugAgent.AnalyzeEntry: calls the steps through `Steps` function values, not through the
  imperative methods. `Pipeline(t)` supplies those methods' specification functions, which
  their methods are proved equal to.
