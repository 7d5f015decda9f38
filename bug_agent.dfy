/** The agent: fetch documentation, run cppcheck, number the code, build the prompt, call
    the language model, parse its reply, and project the result into one output row; then
    the same for every row of a batch. Every service outside the process is a parameter. */
module BugAgent {
  import opened Outcomes
  import opened Text
  import opened PyValue
  import CodeAnalyzer
  import CppChecker
  import opened Seqs

  type Doc = CodeAnalyzer.Doc
  type Template = CodeAnalyzer.PromptTemplate

  /** An element of the search tool's `content` list: one with a `text` attribute, or
      another object, seen through `str()`. */
  datatype ContentItem = TextItem(text: string) | OtherItem(repr: string)

  /** `content_list[0].text if hasattr(content_list[0], 'text') else str(content_list[0])`. */
  function RawText(c: ContentItem): string {
    match c
    case TextItem(t) => t
    case OtherItem(r) => r
  }

  /** What a decoder made of the tool's text: a list of documents, or any other value. */
  datatype Payload = DocList(docs: seq<Doc>) | NotAList

  /** The services the agent calls.
      `search(query)`: the `search_documents` tool call; `Ok(None)` for a result without
        `content`.
      `searchLoads`, `literalEval`: `json.loads` and `ast.literal_eval` on the tool's text;
        `None` when they raise.
      `tempFile(code)`: writing the code to a temporary `.cpp` file; its path.
      `cppcheck(path)`: running cppcheck on that file; its stderr.
      `llm(prompt)`: `call_llm`; the reply text.
      `replyLoads`: `json.loads` on the reply's candidate; `None` when it raises. */
  datatype Services = Services(
    search: string -> Attempt<Option<seq<ContentItem>>>,
    searchLoads: string -> Option<Payload>,
    literalEval: string -> Option<Payload>,
    tempFile: string -> Attempt<string>,
    cppcheck: string -> Attempt<string>,
    llm: string -> Attempt<string>,
    replyLoads: string -> Option<JsonValue>)

  /** A call to a service, as the agent makes it. */
  datatype Call = Search(query: string) | WriteTemp(code: string) | RunCppcheck(path: string) | CallLlm(prompt: string)

  /** The dict `analyze_entry` returns. */
  datatype Row = Row(id: string, bugLine: string, explanation: string, correctedCode: JsonValue, ragDocs: seq<Doc>)

  /** A row and the service calls made to produce it, in order. */
  datatype Outcome = Outcome(row: Row, calls: seq<Call>)

  // ---------------------------------------------------------------- search_docs

  /** What `search_docs` returns. */
  function SearchSpec(svc: Services, query: string): seq<Doc> {
    var result := svc.search(query);
    if result.Raised? || result.value.None? || result.value.value == [] then []
    else
      var raw := RawText(result.value.value[0]);
      var decoded := svc.searchLoads(raw);
      if decoded.Some? then (if decoded.value.DocList? then decoded.value.docs else [])
      else
        var evaluated := svc.literalEval(raw);
        if evaluated.Some? && evaluated.value.DocList? then evaluated.value.docs else []
  }

  /** `search_docs`: every failure, and every payload that is not a list, gives `[]`. */
  method SearchDocs(svc: Services, query: string) returns (docs: seq<Doc>)
    ensures docs == SearchSpec(svc, query)
  {
    var result := svc.search(query);
    if result.Raised? {
      return [];
    }
    var contentList := result.value.GetOr([]);
    if contentList == [] {
      return [];
    }
    var rawText := RawText(contentList[0]);
    var decoded := svc.searchLoads(rawText);
    if decoded.Some? {
      if decoded.value.DocList? {
        return decoded.value.docs;
      }
    } else {
      var evaluated := svc.literalEval(rawText);
      if evaluated.Some? && evaluated.value.DocList? {
        return evaluated.value.docs;
      }
    }
    return [];
  }

  /** Documents come back only from a successful call with content, as the list that
      `json.loads` decoded from the first item's text, or, when `json.loads` rejected that
      text, the list `ast.literal_eval` read from it; a failing call gives none. */
  lemma SearchDocsSource(svc: Services, query: string)
    ensures svc.search(query).Raised? ==> SearchSpec(svc, query) == []
    ensures var docs := SearchSpec(svc, query);
      docs != [] ==>
        && svc.search(query).Ok? && svc.search(query).value.Some? && svc.search(query).value.value != []
        && var raw := RawText(svc.search(query).value.value[0]);
           (svc.searchLoads(raw) == Some(DocList(docs))
            || (svc.searchLoads(raw).None? && svc.literalEval(raw) == Some(DocList(docs))))
  {
  }

  /** And conversely: a call with content whose first item's text decodes to a list gives
      that list, by `json.loads` when it accepts the text and by `ast.literal_eval` when it
      does not; a payload that is not a list, or text both decoders reject, gives `[]`, and
      so does a result without content or with an empty content list. */
  lemma SearchDocsFound(svc: Services, query: string, items: seq<ContentItem>, ds: seq<Doc>)
    ensures svc.search(query) == Ok(None) ==> SearchSpec(svc, query) == []
    ensures svc.search(query) == Ok(Some([])) ==> SearchSpec(svc, query) == []
    ensures svc.search(query) == Ok(Some(items)) && items != [] ==>
      var raw := RawText(items[0]);
      && (svc.searchLoads(raw) == Some(DocList(ds)) ==> SearchSpec(svc, query) == ds)
      && (svc.searchLoads(raw) == Some(NotAList) ==> SearchSpec(svc, query) == [])
      && (svc.searchLoads(raw).None? && svc.literalEval(raw) == Some(DocList(ds)) ==> SearchSpec(svc, query) == ds)
      && (svc.searchLoads(raw).None? && !(svc.literalEval(raw).Some? && svc.literalEval(raw).value.DocList?) ==>
            SearchSpec(svc, query) == [])
  {
  }

  // ---------------------------------------------------------------- analyze_entry

  /** `",".join(str(l) for l in bug_lines) if bug_lines else ""` (the parsed bug lines are
      already strings). */
  function BugLineField(bugLines: seq<string>): string {
    if bugLines == [] then "" else Join(bugLines, ",")
  }

  /** `"; ".join(explanations) if explanations else "No bugs detected"`. */
  function ExplanationField(explanations: seq<string>): string {
    if explanations == [] then "No bugs detected" else Join(explanations, "; ")
  }

  /** The row for a parsed reply. */
  function SuccessRow(id: string, p: CodeAnalyzer.Parsed, docs: seq<Doc>): Row {
    Row(id, BugLineField(p.bugLines), ExplanationField(p.explanations), p.correctedCode, docs)
  }

  /** The row for an exception with message `msg`. */
  function ErrorRow(id: string, msg: string): Row {
    Row(id, "", "Error: " + msg, JStr(""), [])
  }

  /** The pure steps of `analyze_entry`, as functions: formatting the documents found,
      numbering the code, reporting a cppcheck run on a path, building the prompt, and
      parsing the reply with a decoder. */
  datatype Steps = Steps(
    format: seq<Doc> -> string,
    number: string -> string,
    check: (string, string -> Attempt<string>) -> string,
    prompt: (string, string, string, string) -> string,
    parse: (string, string -> Option<JsonValue>) -> Attempt<CodeAnalyzer.Parsed>)

  /** The steps the agent uses, with prompt template `t`: `format_rag_docs(docs, 5)`,
      `add_line_numbers`, `check_code_snippet` once its temporary file exists,
      `build_analysis_prompt` and `parse_llm_response`. */
  function Pipeline(t: Template): Steps {
    Steps(
      docs => CodeAnalyzer.RagText(docs, 5),
      CodeAnalyzer.AddLineNumbers,
      (path: string, run: string -> Attempt<string>) => var r := CppChecker.CheckOutcome(Ok(path), run); if r.Ok? then r.value else "",
      (numbered, context, ragText, findings) => CodeAnalyzer.FillTemplate(t, numbered, context, ragText, findings),
      CodeAnalyzer.ParseSpec)
  }

  /** What `analyze_entry` returns for the given steps, with the service calls it makes. */
  function AnalyzeWith(svc: Services, steps: Steps, id: string, code: string, context: string): Outcome {
    var docs := SearchSpec(svc, context);
    var temp := svc.tempFile(code);
    if temp.Raised? then Outcome(ErrorRow(id, temp.message), [Search(context), WriteTemp(code)])
    else
      var findings := steps.check(temp.value, svc.cppcheck);
      var prompt := steps.prompt(steps.number(code), context, steps.format(docs), findings);
      var calls := [Search(context), WriteTemp(code), RunCppcheck(temp.value), CallLlm(prompt)];
      var reply := svc.llm(prompt);
      if reply.Raised? then Outcome(ErrorRow(id, reply.message), calls)
      else
        var parsed := steps.parse(reply.value, svc.replyLoads);
        if parsed.Raised? then Outcome(ErrorRow(id, parsed.message), calls)
        else Outcome(SuccessRow(id, parsed.value, docs), calls)
  }

  /** `analyze_entry` run with the given steps (the agent's own are `Pipeline(t)`): search,
      format, write the temporary file, check it, number the code, build the prompt, call
      the model, parse its reply; any exception becomes an error row. */
  method AnalyzeEntry(svc: Services, steps: Steps, id: string, code: string, context: string) returns (out: Outcome)
    ensures out == AnalyzeWith(svc, steps, id, code, context)
  {
    var calls := [Search(context)];
    var ragResults := SearchDocs(svc, context);
    var ragText := steps.format(ragResults);
    var temp := svc.tempFile(code);
    calls := calls + [WriteTemp(code)];
    if temp.Raised? {
      return Outcome(ErrorRow(id, temp.message), calls);
    }
    var staticErrors := steps.check(temp.value, svc.cppcheck);
    calls := calls + [RunCppcheck(temp.value)];
    var numberedCode := steps.number(code);
    var prompt := steps.prompt(numberedCode, context, ragText, staticErrors);
    calls := calls + [CallLlm(prompt)];
    var reply := svc.llm(prompt);
    if reply.Raised? {
      return Outcome(ErrorRow(id, reply.message), calls);
    }
    var result := steps.parse(reply.value, svc.replyLoads);
    if result.Raised? {
      return Outcome(ErrorRow(id, result.message), calls);
    }
    return Outcome(SuccessRow(id, result.value, ragResults), calls);
  }

  /** The services are called in the order search, temporary file, cppcheck, model; the
      search is for the context; cppcheck runs on the file just written; the model gets the
      prompt built from the numbered code, the context, the formatted documents and the
      cppcheck text; nothing after a failed temporary file is called. */
  lemma AnalyzeCalls(svc: Services, steps: Steps, id: string, code: string, context: string)
    ensures var calls := AnalyzeWith(svc, steps, id, code, context).calls;
      var temp := svc.tempFile(code);
      && |calls| >= 2 && calls[..2] == [Search(context), WriteTemp(code)]
      && (temp.Raised? <==> |calls| == 2)
      && (temp.Ok? ==>
            && |calls| == 4 && calls[2] == RunCppcheck(temp.value)
            && calls[3] == CallLlm(steps.prompt(steps.number(code), context,
                                                steps.format(SearchSpec(svc, context)),
                                                steps.check(temp.value, svc.cppcheck))))
  {
  }

  /** Any exception yields the error row with the message of the first step that raised:
      the temporary file, the model call, or the parser. The agent itself never raises. */
  lemma AnalyzeErrors(svc: Services, steps: Steps, id: string, code: string, context: string)
    ensures var out := AnalyzeWith(svc, steps, id, code, context);
      var temp := svc.tempFile(code);
      && (temp.Raised? ==> out.row == ErrorRow(id, temp.message))
      && (temp.Ok? ==>
            var reply := svc.llm(out.calls[3].prompt);
            && (reply.Raised? ==> out.row == ErrorRow(id, reply.message))
            && (reply.Ok? && steps.parse(reply.value, svc.replyLoads).Raised? ==>
                  out.row == ErrorRow(id, steps.parse(reply.value, svc.replyLoads).message)))
  {
  }

  /** When every step succeeds the row echoes the id, carries the parsed corrected code
      unchanged and the documents found, and its two text fields are the parsed lists joined. */
  lemma AnalyzeSuccess(svc: Services, steps: Steps, id: string, code: string, context: string)
    ensures var out := AnalyzeWith(svc, steps, id, code, context);
      svc.tempFile(code).Ok? && svc.llm(out.calls[3].prompt).Ok?
      && steps.parse(svc.llm(out.calls[3].prompt).value, svc.replyLoads).Ok? ==>
        var p := steps.parse(svc.llm(out.calls[3].prompt).value, svc.replyLoads).value;
        && out.row.id == id
        && out.row.bugLine == BugLineField(p.bugLines)
        && out.row.explanation == ExplanationField(p.explanations)
        && out.row.correctedCode == p.correctedCode
        && out.row.ragDocs == SearchSpec(svc, context)
  {
    AnalyzeCalls(svc, steps, id, code, context);
  }

  /** The agent's steps applied to one entry's values. */
  lemma PipelineApply(t: Template, docs: seq<Doc>, code: string, path: string, run: string -> Attempt<string>,
                      context: string, reply: string, loads: string -> Option<JsonValue>)
    ensures var steps := Pipeline(t);
      var findings := CppChecker.CheckOutcome(Ok(path), run);
      && findings.Ok?
      && steps.check(path, run) == findings.value
      && steps.prompt(steps.number(code), context, steps.format(docs), findings.value)
         == CodeAnalyzer.FillTemplate(t, CodeAnalyzer.AddLineNumbers(code), context, CodeAnalyzer.RagText(docs, 5), findings.value)
      && steps.parse(reply, loads) == CodeAnalyzer.ParseSpec(reply, loads)
  {
  }

  /** With the agent's own steps, the model is sent the analysis prompt of template `t`
      filled with the numbered code, the context, the top five documents found and the
      text of `check_code_snippet`, and a successful reply is parsed by `parse_llm_response`. */
  lemma AgentSteps(svc: Services, t: Template, id: string, code: string, context: string)
    ensures var out := AnalyzeWith(svc, Pipeline(t), id, code, context);
      var temp := svc.tempFile(code);
      var findings := CppChecker.CheckOutcome(temp, svc.cppcheck);
      temp.Ok? ==>
        && findings.Ok?
        && var prompt := CodeAnalyzer.FillTemplate(t, CodeAnalyzer.AddLineNumbers(code), context,
                                                  CodeAnalyzer.RagText(SearchSpec(svc, context), 5), findings.value);
           && out.calls == [Search(context), WriteTemp(code), RunCppcheck(temp.value), CallLlm(prompt)]
           && var reply := svc.llm(prompt);
              reply.Ok? ==>
                var parsed := CodeAnalyzer.ParseSpec(reply.value, svc.replyLoads);
                && (parsed.Raised? ==> out.row == ErrorRow(id, parsed.message))
                && (parsed.Ok? ==> out.row == SuccessRow(id, parsed.value, SearchSpec(svc, context)))
  {
    var temp := svc.tempFile(code);
    if temp.Ok? {
      var out := AnalyzeWith(svc, Pipeline(t), id, code, context);
      AnalyzeCalls(svc, Pipeline(t), id, code, context);
      var reply := svc.llm(out.calls[3].prompt);
      PipelineApply(t, SearchSpec(svc, context), code, temp.value, svc.cppcheck, context,
                    if reply.Ok? then reply.value else "", svc.replyLoads);
    }
  }

  /** The agent's cppcheck step reports a failed run as "Error running cppcheck: " and the
      message, which is what the prompt's findings then hold. */
  lemma PipelineCheck(t: Template, path: string, run: string -> Attempt<string>)
    ensures run(path).Raised? ==> Pipeline(t).check(path, run) == "Error running cppcheck: " + run(path).message
    ensures run(path).Ok? ==> Pipeline(t).check(path, run) == CppChecker.Report(run(path).value, path)
  {
  }

  /** An error row has an empty bug line, empty corrected code, no documents, and the
      message after "Error: ". */
  lemma ErrorRowShape(id: string, msg: string)
    ensures var row := ErrorRow(id, msg);
      && row.id == id && row.bugLine == "" && row.correctedCode == JStr("") && row.ragDocs == []
      && StartsWith(row.explanation, "Error: ") && row.explanation[|"Error: "|..] == msg
  {
  }

  /** The bug-line field is empty exactly when there are no bug lines or a single empty one;
      when no bug line holds a comma, the field splits back into the bug lines. */
  lemma BugLineFieldSpec(bugLines: seq<string>)
    ensures BugLineField(bugLines) == "" <==> (bugLines == [] || bugLines == [""])
    ensures bugLines != [] && (forall i :: 0 <= i < |bugLines| ==> ',' !in bugLines[i]) ==>
      Split(BugLineField(bugLines), ',') == bugLines
  {
    JoinEmpty(bugLines, ",");
    if bugLines != [] && (forall i :: 0 <= i < |bugLines| ==> ',' !in bugLines[i]) {
      SplitJoin(bugLines, ',');
    }
  }

  /** The bug lines the fallback finds are digit strings, so their field splits back into them. */
  lemma FallbackBugLinesSplit(response: string)
    ensures var lines := CodeAnalyzer.FallbackSpec(response).bugLines;
      lines != [] ==> Split(BugLineField(lines), ',') == lines && BugLineField(lines) != ""
  {
    var lines := CodeAnalyzer.FallbackSpec(response).bugLines;
    CodeAnalyzer.FallbackShape(response);
    forall i | 0 <= i < |lines| ensures ',' !in lines[i] {
      assert IsDigits(lines[i]);
    }
    BugLineFieldSpec(lines);
  }

  // ---------------------------------------------------------------- process_csv

  /** An input row: its "ID", "Context" and "Code" as strings. */
  datatype InputRow = InputRow(id: string, context: string, code: string)

  /** A result with "RAG Docs" removed. */
  datatype CsvRow = CsvRow(id: string, bugLine: string, explanation: string, correctedCode: JsonValue)

  function ToCsv(r: Row): CsvRow {
    CsvRow(r.id, r.bugLine, r.explanation, r.correctedCode)
  }

  /** The keys of a result once "RAG Docs" is removed, in insertion order. */
  const CsvKeys: seq<string> := ["ID", "Bug Line", "Explanation", "Corrected Code"]

  /** The columns written, in this order, when present. */
  const OutputColumns: seq<string> := ["ID", "Bug Line", "Explanation", "Corrected Code"]

  /** `[c for c in columns if c in present]`. */
  function ColumnsPresent(columns: seq<string>, present: seq<string>): (r: seq<string>)
    ensures forall c :: c in r <==> c in columns && c in present
    ensures |r| <= |columns|
  {
    if columns == [] then []
    else (if columns[0] in present then [columns[0]] else []) + ColumnsPresent(columns[1..], present)
  }

  /** `sum(1 for r in results if r["Bug Line"])`. */
  function CountBugs(results: seq<CsvRow>): (n: nat)
    ensures n <= |results|
  {
    if results == [] then 0
    else CountBugs(results[..|results| - 1]) + (if results[|results| - 1].bugLine != "" then 1 else 0)
  }

  /** The results of a batch: each row's result without "RAG Docs", in row order. */
  function Batch(svc: Services, steps: Steps, rows: seq<InputRow>): seq<CsvRow> {
    if rows == [] then []
    else
      var last := rows[|rows| - 1];
      Batch(svc, steps, rows[..|rows| - 1]) + [ToCsv(AnalyzeWith(svc, steps, last.id, last.code, last.context).row)]
  }

  /** The service calls of a batch: those of each row in turn. */
  function BatchCalls(svc: Services, steps: Steps, rows: seq<InputRow>): seq<Call> {
    if rows == [] then []
    else
      var last := rows[|rows| - 1];
      BatchCalls(svc, steps, rows[..|rows| - 1]) + AnalyzeWith(svc, steps, last.id, last.code, last.context).calls
  }

  /** The row loop and column filter of `process_csv`, each row analyzed with `steps`: the results
      and the service calls of the batch; the columns of `OutputColumns` that the results
      have; and the number of results with a bug line. */
  method ProcessCsv(svc: Services, steps: Steps, rows: seq<InputRow>)
    returns (results: seq<CsvRow>, columns: seq<string>, bugsFound: nat, calls: seq<Call>)
    ensures results == Batch(svc, steps, rows)
    ensures calls == BatchCalls(svc, steps, rows)
    ensures columns == if rows == [] then [] else OutputColumns
    ensures bugsFound == CountBugs(results)
  {
    results := [];
    calls := [];
    for i := 0 to |rows|
      invariant results == Batch(svc, steps, rows[..i])
      invariant calls == BatchCalls(svc, steps, rows[..i])
    {
      var row := rows[i];
      var out := AnalyzeEntry(svc, steps, row.id, row.code, row.context);
      results := results + [ToCsv(out.row)];
      calls := calls + out.calls;
      assert rows[..i + 1][..i] == rows[..i];
    }
    assert rows[..|rows|] == rows;
    BatchSpec(svc, steps, rows);
    var present := if results == [] then [] else CsvKeys;
    columns := ColumnsPresent(OutputColumns, present);
    ColumnsSpec(present);
    bugsFound := CountBugs(results);
  }

  /** One result per input row, in row order: result `i` is row `i`'s analysis without
      "RAG Docs". */
  lemma {:induction false} BatchSpec(svc: Services, steps: Steps, rows: seq<InputRow>)
    ensures |Batch(svc, steps, rows)| == |rows|
    ensures forall i :: 0 <= i < |rows| ==>
      Batch(svc, steps, rows)[i] == ToCsv(AnalyzeWith(svc, steps, rows[i].id, rows[i].code, rows[i].context).row)
  {
    if rows != [] {
      var front := rows[..|rows| - 1];
      BatchSpec(svc, steps, front);
      forall i | 0 <= i < |rows| - 1 ensures rows[i] == front[i] { }
    }
  }

  /** With results, every output column is present and kept in order; with none, no column
      is written. */
  lemma ColumnsSpec(present: seq<string>)
    requires present == [] || present == CsvKeys
    ensures ColumnsPresent(OutputColumns, present) == if present == [] then [] else OutputColumns
  {
    if present == [] {
      ColumnsPresentNone(OutputColumns);
    } else {
      ColumnsPresentAll(OutputColumns, present);
    }
  }

  lemma {:induction false} ColumnsPresentNone(columns: seq<string>)
    ensures ColumnsPresent(columns, []) == []
  {
    if columns != [] {
      ColumnsPresentNone(columns[1..]);
    }
  }

  lemma {:induction false} ColumnsPresentAll(columns: seq<string>, present: seq<string>)
    requires forall i :: 0 <= i < |columns| ==> columns[i] in present
    ensures ColumnsPresent(columns, present) == columns
  {
    if columns != [] {
      ColumnsPresentAll(columns[1..], present);
      assert [columns[0]] + columns[1..] == columns;
    }
  }

  predicate HasBugLine(r: CsvRow) { r.bugLine != "" }

  /** The bug count counts exactly the results with a non-empty bug line. */
  lemma {:induction false} CountBugsSpec(results: seq<CsvRow>)
    ensures CountBugs(results) == |Positions(results, HasBugLine)|
  {
    if results != [] {
      CountBugsSpec(results[..|results| - 1]);
    }
  }
}
