/** The helpers that prepare a code snippet for the language model and turn the model's
    free-text reply back into a bug record. */
module CodeAnalyzer {
  import opened Outcomes
  import opened Text
  import opened Seqs
  import opened PyValue
  import opened ReplyScan

  // ====================================================================================
  // Line numbering

  /** The `i`-th line (0-based) with its 1-based number in front. */
  function NumberedLine(i: nat, line: string): string {
    NatToString(i + 1) + ": " + line
  }

  /** Every line of `code` prefixed with its 1-based number and ": ". */
  function AddLineNumbers(code: string): (r: string)
    ensures code == "" ==> r == "1: "
  {
    var lines := Split(code, '\n');
    Join(seq(|lines|, i requires 0 <= i < |lines| => NumberedLine(i, lines[i])), "\n")
  }

  /** The text after the first ": " of a line, or the line itself without one. */
  function DropLineNumber(line: string): string {
    var k := FindFrom(line, ": ", 0);
    if k.Some? then line[k.value + 2..] else line
  }

  /** Numbered text with the number of every line removed. */
  function RemoveLineNumbers(text: string): string {
    var lines := Split(text, '\n');
    Join(seq(|lines|, i requires 0 <= i < |lines| => DropLineNumber(lines[i])), "\n")
  }

  lemma NumberedLineNoNewline(i: nat, line: string)
    requires '\n' !in line
    ensures '\n' !in NumberedLine(i, line)
  {
    var d := NatToString(i + 1);
    assert '\n' !in d by {
      forall k | 0 <= k < |d| ensures d[k] != '\n' { assert IsDigit(d[k]); }
    }
  }

  /** The numbered text has one line per input line, and line `i` is the input's line `i`
      behind the prefix "`i+1`: ". */
  lemma AddLineNumbersLines(code: string)
    ensures |Split(AddLineNumbers(code), '\n')| == |Split(code, '\n')|
    ensures forall i :: 0 <= i < |Split(code, '\n')| ==>
      Split(AddLineNumbers(code), '\n')[i] == NatToString(i + 1) + ": " + Split(code, '\n')[i]
  {
    var lines := Split(code, '\n');
    var numbered := seq(|lines|, i requires 0 <= i < |lines| => NumberedLine(i, lines[i]));
    forall i | 0 <= i < |numbered| ensures '\n' !in numbered[i] {
      NumberedLineNoNewline(i, lines[i]);
    }
    SplitJoin(numbered, '\n');
  }

  lemma DropNumberedLine(i: nat, line: string)
    ensures DropLineNumber(NumberedLine(i, line)) == line
  {
    var d := NatToString(i + 1);
    var s := NumberedLine(i, line);
    assert OccursAt(s, ": ", |d|) by { assert s[|d|..|d| + 2] == ": "; }
    forall k | 0 <= k < |d| ensures !OccursAt(s, ": ", k) {
      assert s[k] == d[k] && IsDigit(d[k]);
      if k + 2 <= |s| { assert s[k..k + 2][0] == s[k]; }
    }
    assert s[|d| + 2..] == line;
  }

  /** Removing the numbers gives back the code: numbering loses nothing. */
  lemma AddLineNumbersRoundTrip(code: string)
    ensures RemoveLineNumbers(AddLineNumbers(code)) == code
  {
    AddLineNumbersLines(code);
    var lines := Split(code, '\n');
    var out := Split(AddLineNumbers(code), '\n');
    var dropped := seq(|out|, i requires 0 <= i < |out| => DropLineNumber(out[i]));
    forall i | 0 <= i < |lines| ensures dropped[i] == lines[i] {
      DropNumberedLine(i, lines[i]);
    }
    assert dropped == lines;
    JoinSplit(code, '\n');
  }

  // ====================================================================================
  // Prompt

  /** The fixed text of the prompt around its four variable parts. */
  datatype PromptTemplate = PromptTemplate(
    intro: string,         // up to the context
    ragHeader: string,     // opens the documentation section
    staticHeader: string,  // opens the findings section
    staticNote: string,    // closes the findings section
    codeOpen: string,      // between the sections and the numbered code
    closing: string)       // after the numbered code

  const Instructions: seq<string> := [
    "",
    "**Bug categories to check:**",
    "- Wrong/misspelled function names (e.g., readHumanSeniority vs readHumSensor, iMeans vs iMeas)",
    "- Wrong argument order (e.g., iClamp(high, low) should be iClamp(low, high))",
    "- Values exceeding documented ranges.",
    "- Wrong API calls (e.g., use execute() instead of burst()).",
    "- Variable mismatches.",
    "- Lifecycle errors (e.g., RDI_END before RDI_BEGIN).",
    "- Pin name typos (e.g., \"D0\" vs \"DO\").",
    "",
    "**FEW-SHOT EXAMPLES:**",
    "",
    "Example 1:",
    "Code: `2: rdi.pmux(4).module(\"02\").readHumanSeniority().execute();`",
    "Output: {\"bug_lines\": [2], \"explanations\": [\"readHumanSeniority -> readHumSensor\"], \"corrected_code\": \"rdi.pmux(4).module(\\\"02\\\").readHumSensor().execute();\"}",
    "",
    "Example 2:",
    "Code: `3: iClamp(50 mA, -50 mA);`",
    "Output: {\"bug_lines\": [3], \"explanations\": [\"iClamp args swapped\"], \"corrected_code\": \"iClamp(-50 mA, 50 mA);\"}",
    "",
    "**RULES:**",
    "1. Explanations MUST be under 10 words.",
    "2. Report the exact line number.",
    "3. Provide the COMPLETE corrected line(s) of code in `corrected_code`. If multiple lines are wrong, fix all of them.",
    "4. Respond with ONLY the JSON object.",
    "",
    "{\"bug_lines\": [line_numbers], \"explanations\": [\"short explanation\"], \"corrected_code\": \"full corrected code snippet\"}"
  ]

  /** The template of the analysis prompt. */
  const AnalysisTemplate := PromptTemplate(
    "You are an expert bug detector for RDI/SmartRDI embedded test code. "
      + "Find ALL bugs and provide the CORRECTED code.\n\n**Context:** ",
    "\n**Relevant API Documentation (from knowledge base):**\n",
    "\n**Static Analysis Findings (CppCheck):**\n",
    "\n(Note: Use these findings as strong evidence, but verify them against the context.)\n",
    "\n**Code:**\n```\n",
    "\n```\n" + Join(Instructions, "\n"))

  /** An optional prompt section: present exactly when its body has text. */
  function Section(header: string, body: string, trailer: string): (r: string)
    ensures r == [] <==> !HasText(body)
    ensures HasText(body) ==> r == header + body + trailer
  {
    if HasText(body) then header + body + trailer else ""
  }

  /** The prompt for a template, given its two optional sections: the intro, the context,
      the docs section, the findings section, then the numbered code between the code opener
      and the closing text, each where the ensures place it, with one newline after the
      context and one after the docs section. */
  function RenderPrompt(t: PromptTemplate, numberedCode: string, context: string,
                        docs: string, findings: string): (r: string)
    ensures |r| == |t.intro| + |context| + |docs| + |findings| + |t.codeOpen| + |numberedCode| + |t.closing| + 2
    ensures r[..|t.intro|] == t.intro
    ensures r[|t.intro|..|t.intro| + |context|] == context
    ensures r[|t.intro| + |context|] == '\n'
    ensures r[|t.intro| + |context| + 1..|t.intro| + |context| + 1 + |docs|] == docs
    ensures r[|t.intro| + |context| + 1 + |docs|] == '\n'
    ensures var i := |t.intro| + |context| + |docs| + 2;
      r[i..i + |findings|] == findings && r[i + |findings|..i + |findings| + |t.codeOpen|] == t.codeOpen
    ensures var k := |t.intro| + |context| + |docs| + |findings| + 2 + |t.codeOpen|;
      r[k..k + |numberedCode|] == numberedCode && r[k + |numberedCode|..] == t.closing
  {
    var r := t.intro + context + "\n" + docs + "\n" + findings + t.codeOpen + numberedCode + t.closing;
    var i := |t.intro| + |context| + |docs| + 2;
    var k := i + |findings| + |t.codeOpen|;
    assert r[..|t.intro|] == t.intro;
    assert r[|t.intro|..|t.intro| + |context|] == context;
    assert r[|t.intro| + |context| + 1..|t.intro| + |context| + 1 + |docs|] == docs;
    assert r[i..i + |findings|] == findings;
    assert r[k - |t.codeOpen|..k] == t.codeOpen;
    assert r[k..k + |numberedCode|] == numberedCode;
    assert r[k + |numberedCode|..] == t.closing;
    r
  }

  /** The prompt built from template `t`: the docs section appears when the documentation
      has text, the findings section (with its note) when the static findings have text. */
  function FillTemplate(t: PromptTemplate, numberedCode: string, context: string,
                        ragDocs: string, staticErrors: string): string {
    RenderPrompt(t, numberedCode, context, Section(t.ragHeader, ragDocs, "\n"),
                 Section(t.staticHeader, staticErrors, t.staticNote))
  }

  /** `build_analysis_prompt`: the analysis template filled in. */
  function BuildAnalysisPrompt(numberedCode: string, context: string, ragDocs: string, staticErrors: string): string {
    FillTemplate(AnalysisTemplate, numberedCode, context, ragDocs, staticErrors)
  }

  /** The prompt is the intro, the context, the docs section, the findings section and the
      fenced numbered code, in that order; the docs header is present exactly when the
      documentation has text, and the findings header and its note exactly when the static
      findings have text. */
  lemma PromptSections(t: PromptTemplate, numberedCode: string, context: string, ragDocs: string, staticErrors: string)
    ensures exists docs, findings ::
      && FillTemplate(t, numberedCode, context, ragDocs, staticErrors)
         == t.intro + context + "\n" + docs + "\n" + findings + t.codeOpen + numberedCode + t.closing
      && (docs == [] <==> !HasText(ragDocs)) && (HasText(ragDocs) ==> docs == t.ragHeader + ragDocs + "\n")
      && (findings == [] <==> !HasText(staticErrors))
      && (HasText(staticErrors) ==> findings == t.staticHeader + staticErrors + t.staticNote)
  {
    var docs := Section(t.ragHeader, ragDocs, "\n");
    var findings := Section(t.staticHeader, staticErrors, t.staticNote);
    var p := FillTemplate(t, numberedCode, context, ragDocs, staticErrors);
    var q := t.intro + context + "\n" + docs + "\n" + findings + t.codeOpen + numberedCode + t.closing;
    assert p == q;
  }

  // ====================================================================================
  // Reply parsing

  /** The bug record a reply is turned into. `correctedCode` is whatever the decoded JSON
      held under "corrected_code"; the fallback path always puts a string there. */
  datatype Parsed = Parsed(bugLines: seq<string>, explanations: seq<string>, correctedCode: JsonValue)

  const Empty := Parsed([], [], JStr(""))

  const MaxWords := 15

  /** `_truncate`: at most `maxWords` words; the text itself when it has no more. */
  function Truncate(text: string, maxWords: int): (r: string)
    ensures Words(r) == SliceTo(Words(text), maxWords)
    ensures Words(r) == Words(text)[..|Words(r)|]
    ensures maxWords >= 0 ==> |Words(r)| <= maxWords
    ensures |Words(text)| <= maxWords ==> r == text
  {
    var words := Words(text);
    if |words| <= maxWords then text
    else
      var kept := SliceTo(words, maxWords);
      assert forall i :: 0 <= i < |kept| ==> IsWord(kept[i]) by {
        forall i | 0 <= i < |kept| ensures IsWord(kept[i]) { assert kept[i] == words[i]; }
      }
      WordsOfJoin(kept);
      Join(kept, " ")
  }

  /** `[_truncate(e, max_words) for e in es]`: every element must be a string, since
      `_truncate` calls its `split` method; the first one that is not raises. */
  function TruncateAll(es: seq<JsonValue>, maxWords: int): (r: Attempt<seq<string>>)
    ensures r.Ok? <==> forall i :: 0 <= i < |es| ==> es[i].JStr?
    ensures r.Ok? ==> |r.value| == |es| && forall i :: 0 <= i < |es| ==> r.value[i] == Truncate(es[i].s, maxWords)
  {
    if es == [] then Ok([])
    else if !es[0].JStr? then Raised(NoAttribute(es[0], "split"))
    else
      var rest := TruncateAll(es[1..], maxWords);
      assert forall i :: 1 <= i < |es| ==> es[i] == es[1..][i - 1];
      if rest.Raised? then rest
      else Ok([Truncate(es[0].s, maxWords)] + rest.value)
  }

  /** The exception raised is the one for the first element that is not a string. */
  lemma {:induction false} TruncateAllRaised(es: seq<JsonValue>, maxWords: int)
    requires TruncateAll(es, maxWords).Raised?
    ensures exists i :: 0 <= i < |es| && !es[i].JStr? && (forall j :: 0 <= j < i ==> es[j].JStr?)
                        && TruncateAll(es, maxWords).message == NoAttribute(es[i], "split")
  {
    if es[0].JStr? {
      var tail := es[1..];
      TruncateAllRaised(tail, maxWords);
      var i :| 0 <= i < |tail| && !tail[i].JStr? && (forall j :: 0 <= j < i ==> tail[j].JStr?)
               && TruncateAll(tail, maxWords).message == NoAttribute(tail[i], "split");
      assert es[i + 1] == tail[i];
      assert forall j :: 0 <= j < i + 1 ==> es[j].JStr? by {
        forall j | 0 <= j < i + 1 ensures es[j].JStr? {
          if j > 0 { assert es[j] == tail[j - 1]; }
        }
      }
    }
  }

  /** `[str(x) for x in items]`. */
  function StrAll(items: seq<JsonValue>): (r: seq<string>)
    ensures |r| == |items|
  {
    seq(|items|, i requires 0 <= i < |items| => PyStr(items[i]))
  }

  /** The two padding loops: the shorter list is extended, explanations with "Bug detected"
      and bug lines with "", until both lists have the length of the longer. */
  function Pad(bugLines: seq<string>, explanations: seq<string>, code: JsonValue): (p: Parsed)
    ensures |p.bugLines| == |p.explanations|
    ensures |p.bugLines| == if |bugLines| >= |explanations| then |bugLines| else |explanations|
    ensures p.bugLines[..|bugLines|] == bugLines && p.explanations[..|explanations|] == explanations
    ensures forall i :: |bugLines| <= i < |p.bugLines| ==> p.bugLines[i] == ""
    ensures forall i :: |explanations| <= i < |p.explanations| ==> p.explanations[i] == "Bug detected"
    ensures p.correctedCode == code
  {
    Parsed(bugLines + Fill("", |explanations| - |bugLines|),
           explanations + Fill("Bug detected", |bugLines| - |explanations|), code)
  }

  predicate Iterable(v: JsonValue) { v.JArr? || v.JStr? || v.JObj? }

  /** The dicts the strict path accepts: "bug_lines", if present, can be iterated, and
      iterating "explanations", if present, yields only strings. */
  predicate StrictAccepts(fields: seq<(string, JsonValue)>) {
    var lines := Get(fields, "bug_lines", JArr([]));
    var expls := Get(fields, "explanations", JArr([]));
    Iterable(lines)
    && (expls.JStr? || expls.JObj? || (expls.JArr? && forall i :: 0 <= i < |expls.items| ==> expls.items[i].JStr?))
  }

  /** The strict path on a decoded value: read the three keys, stringify the bug lines,
      truncate the explanations, pad. A value that is not a dict has no `get`; a key whose
      value cannot be iterated, or an explanation that is not a string, raises. */
  function StrictSpec(data: JsonValue): (r: Attempt<Parsed>)
    ensures !data.JObj? ==> r == Raised(NoAttribute(data, "get"))
    ensures data.JObj? ==> (r.Ok? <==> StrictAccepts(data.fields))
  {
    if !data.JObj? then Raised(NoAttribute(data, "get"))
    else
      var lines := Iterate(Get(data.fields, "bug_lines", JArr([])));
      var expls := Iterate(Get(data.fields, "explanations", JArr([])));
      var code := Get(data.fields, "corrected_code", JStr(""));
      if lines.Raised? then Raised(lines.message)
      else if expls.Raised? then Raised(expls.message)
      else
        var cut := TruncateAll(expls.value, MaxWords);
        if cut.Raised? then Raised(cut.message)
        else Ok(Pad(StrAll(lines.value), cut.value, code))
  }

  /** The stripped body of the first fenced block, or the text itself without one. */
  function FenceCandidate(text: string): string {
    var sp := FenceSpan(text);
    if sp.Some? then Strip(text[sp.value.lo..sp.value.hi]) else text
  }

  /** The text from the first '{' to the last '}', when the first '{' comes before the
      last '}'; otherwise the text itself. */
  function ObjectCandidate(t: string): (r: string)
    ensures (forall i, j :: 0 <= i < j < |t| && t[i] == '{' ==> t[j] != '}') ==> r == t
    ensures !(forall i, j :: 0 <= i < j < |t| && t[i] == '{' ==> t[j] != '}') ==>
      && 2 <= |r| && r[0] == '{' && r[|r| - 1] == '}'
      && exists lo: nat :: lo + |r| <= |t| && t[lo..lo + |r|] == r && '{' !in t[..lo] && '}' !in t[lo + |r|..]
  {
    var sp := ObjectSpan(t);
    if sp.Some? then
      var lo := sp.value.lo;
      var r := t[lo..sp.value.hi];
      assert t[lo..lo + |r|] == r;
      r
    else t
  }

  /** The text handed to the JSON decoder. */
  function Candidate(response: string): string {
    ObjectCandidate(FenceCandidate(Strip(response)))
  }

  /** Group 1 of the first corrected-code block, stripped; "" without one. */
  function CorrectedCode(response: string): string {
    var sp := FirstCorrected(response, 0);
    if sp.Some? then Strip(response[sp.value.lo..sp.value.hi]) else ""
  }

  /** `_fallback_parse`: one (number, stripped text) pair per match of the line pattern, and
      the corrected-code block. */
  function FallbackSpec(response: string): Parsed {
    var hits := LineHits(response, 0);
    Parsed(Numbers(hits), Explanations(hits), JStr(CorrectedCode(response)))
  }

  /** Group 1 of each match, in order. */
  function Numbers(hits: seq<LineHit>): seq<string> {
    seq(|hits|, k requires 0 <= k < |hits| => hits[k].number)
  }

  /** Group 2 of each match, stripped, in order. */
  function Explanations(hits: seq<LineHit>): seq<string> {
    seq(|hits|, k requires 0 <= k < |hits| => Strip(hits[k].group))
  }

  /** `parse_llm_response` with `json.loads` as `jsonLoads` (None when it raises
      `JSONDecodeError`). A blank reply gives the empty record; a candidate the decoder
      rejects sends the original reply to the fallback parser. */
  function ParseSpec(response: string, jsonLoads: string -> Option<JsonValue>): Attempt<Parsed> {
    if !HasText(response) then Ok(Empty)
    else
      var data := jsonLoads(Candidate(response));
      if data.None? then Ok(FallbackSpec(response)) else StrictSpec(data.value)
  }

  /** The loop of `_fallback_parse` over the matches. */
  method CollectMatches(hits: seq<LineHit>) returns (bugLines: seq<string>, explanations: seq<string>)
    ensures bugLines == Numbers(hits) && explanations == Explanations(hits)
  {
    bugLines, explanations := [], [];
    for i := 0 to |hits|
      invariant |bugLines| == i && |explanations| == i
      invariant forall k :: 0 <= k < i ==> bugLines[k] == hits[k].number
      invariant forall k :: 0 <= k < i ==> explanations[k] == Strip(hits[k].group)
    {
      bugLines := bugLines + [hits[i].number];
      explanations := explanations + [Strip(hits[i].group)];
    }
  }

  method FallbackParse(response: string) returns (p: Parsed)
    ensures p == FallbackSpec(response)
  {
    var bugLines, explanations := CollectMatches(LineHits(response, 0));
    p := Parsed(bugLines, explanations, JStr(CorrectedCode(response)));
  }

  /** The two padding loops of `parse_llm_response`, growing the lists in place. */
  method PadLists(lines0: seq<string>, expls0: seq<string>) returns (bugLines: seq<string>, explanations: seq<string>)
    ensures Parsed(bugLines, explanations, JNull) == Pad(lines0, expls0, JNull)
  {
    bugLines, explanations := lines0, expls0;
    while |explanations| < |bugLines|
      invariant bugLines == lines0
      invariant |expls0| <= |explanations| <= (if |lines0| >= |expls0| then |lines0| else |expls0|)
      invariant explanations[..|expls0|] == expls0
      invariant forall i :: |expls0| <= i < |explanations| ==> explanations[i] == "Bug detected"
      decreases |bugLines| - |explanations|
    {
      explanations := explanations + ["Bug detected"];
    }
    while |bugLines| < |explanations|
      invariant |explanations| == (if |lines0| >= |expls0| then |lines0| else |expls0|)
      invariant explanations[..|expls0|] == expls0
      invariant forall i :: |expls0| <= i < |explanations| ==> explanations[i] == "Bug detected"
      invariant |lines0| <= |bugLines| <= |explanations|
      invariant bugLines[..|lines0|] == lines0
      invariant forall i :: |lines0| <= i < |bugLines| ==> bugLines[i] == ""
      decreases |explanations| - |bugLines|
    {
      bugLines := bugLines + [""];
    }
    var padded := Pad(lines0, expls0, JNull);
    assert bugLines == padded.bugLines;
    assert explanations == padded.explanations;
  }

  method ParseLlmResponse(response: string, jsonLoads: string -> Option<JsonValue>) returns (r: Attempt<Parsed>)
    ensures r == ParseSpec(response, jsonLoads)
    ensures r.Ok? ==> |r.value.bugLines| == |r.value.explanations|
  {
    if !HasText(response) {
      return Ok(Empty);
    }
    var decoded := jsonLoads(Candidate(response));
    if decoded.None? {
      var fallback := FallbackParse(response);
      return Ok(fallback);
    }
    var data := decoded.value;
    if !data.JObj? {
      return Raised(NoAttribute(data, "get"));
    }
    var lineValues := Get(data.fields, "bug_lines", JArr([]));
    var explValues := Get(data.fields, "explanations", JArr([]));
    var code := Get(data.fields, "corrected_code", JStr(""));
    var lines := Iterate(lineValues);
    if lines.Raised? {
      return Raised(lines.message);
    }
    var bugLines := StrAll(lines.value);
    var expls := Iterate(explValues);
    if expls.Raised? {
      return Raised(expls.message);
    }
    var cut := TruncateAll(expls.value, MaxWords);
    if cut.Raised? {
      return Raised(cut.message);
    }
    var explanations;
    bugLines, explanations := PadLists(bugLines, cut.value);
    return Ok(Parsed(bugLines, explanations, code));
  }

  /** "Bug detected" is two words. */
  lemma BugDetectedWords()
    ensures |Words("Bug detected")| == 2
  {
    var ws := ["Bug", "detected"];
    LettersAreWord(ws[0]);
    LettersAreWord(ws[1]);
    assert Join(ws, " ") == "Bug detected" by {
      assert Join(ws[1..], " ") == "detected";
    }
    WordsOfJoin(ws);
  }

  /** On the strict path every explanation has at most 15 words: the decoded ones are
      truncated and the padding "Bug detected" has two. */
  lemma StrictExplanationsShort(data: JsonValue)
    ensures var r := StrictSpec(data);
      r.Ok? ==> forall i :: 0 <= i < |r.value.explanations| ==> |Words(r.value.explanations[i])| <= MaxWords
  {
    var r := StrictSpec(data);
    if r.Ok? {
      var es := Iterate(Get(data.fields, "explanations", JArr([]))).value;
      var cut := TruncateAll(es, MaxWords).value;
      var lines := StrAll(Iterate(Get(data.fields, "bug_lines", JArr([]))).value);
      var code := Get(data.fields, "corrected_code", JStr(""));
      assert r.value == Pad(lines, cut, code);
      BugDetectedWords();
      forall i | 0 <= i < |r.value.explanations| ensures |Words(r.value.explanations[i])| <= MaxWords {
        if i < |cut| {
          assert r.value.explanations[i] == cut[i] == Truncate(es[i].s, MaxWords);
        }
      }
    }
  }

  /** On the strict path the decoded entries survive as a prefix: the bug lines as
      `str()` of each element, the explanations truncated, and "corrected_code" unchanged
      ("" when absent); the lists then have equal length. */
  lemma StrictKeepsDecoded(data: JsonValue)
    requires StrictSpec(data).Ok?
    ensures var p := StrictSpec(data).value;
      var items := Iterate(Get(data.fields, "bug_lines", JArr([]))).value;
      var es := Iterate(Get(data.fields, "explanations", JArr([]))).value;
      && |p.bugLines| == |p.explanations|
      && |items| <= |p.bugLines| && (forall i :: 0 <= i < |items| ==> p.bugLines[i] == PyStr(items[i]))
      && |es| <= |p.explanations|
      && (forall i :: 0 <= i < |es| ==> es[i].JStr? && p.explanations[i] == Truncate(es[i].s, MaxWords))
      && p.correctedCode == Get(data.fields, "corrected_code", JStr(""))
  {
    var p := StrictSpec(data).value;
    var items := Iterate(Get(data.fields, "bug_lines", JArr([]))).value;
    var es := Iterate(Get(data.fields, "explanations", JArr([]))).value;
    var cut := TruncateAll(es, MaxWords).value;
    forall i | 0 <= i < |items| ensures p.bugLines[i] == PyStr(items[i]) {
      assert p.bugLines[i] == p.bugLines[..|items|][i];
    }
    forall i | 0 <= i < |es| ensures p.explanations[i] == cut[i] {
      assert p.explanations[i] == p.explanations[..|es|][i];
    }
  }

  /** The fallback record lists one pair per match of the line pattern, in the order of the
      matches, which do not overlap; each match has the pattern's shape, each bug line is
      its decimal digit string and each explanation its group 2 stripped, on one line. */
  lemma FallbackShape(response: string)
    ensures var p := FallbackSpec(response);
      var hits := LineHits(response, 0);
      && |p.bugLines| == |hits| && |p.explanations| == |hits|
      && (forall k :: 0 <= k < |hits| ==> IsMatchAt(response, hits[k]))
      && (forall k :: 0 <= k < |hits| ==>
            LineShape(response, hits[k].start, hits[k].numberAt, hits[k].numberAt + |hits[k].number|, hits[k].separatorAt))
      && (forall k :: 0 <= k < |hits| ==> p.bugLines[k] == hits[k].number && p.explanations[k] == Strip(hits[k].group))
      && (forall k :: 0 <= k < |hits| ==> p.bugLines[k] != [] && IsDigits(p.bugLines[k]) && '\n' !in p.explanations[k])
      && (forall k :: 0 <= k < |hits| - 1 ==> hits[k].end <= hits[k + 1].start)
  {
    LineHitsSpec(response, 0);
    var hits := LineHits(response, 0);
    forall k | 0 <= k < |hits|
      ensures '\n' !in Strip(hits[k].group)
      ensures LineShape(response, hits[k].start, hits[k].numberAt, hits[k].numberAt + |hits[k].number|, hits[k].separatorAt)
    {
      StripWithout(hits[k].group, '\n');
      MatchLineShape(response, hits[k].start);
    }
  }

  /** Each fallback explanation is the rest of its line after the separator, stripped
      (the lazy `(.+?)` stops at the end of that line). */
  lemma FallbackText(response: string)
    ensures var p := FallbackSpec(response);
      var hits := LineHits(response, 0);
      forall k :: 0 <= k < |hits| ==>
        hits[k].separatorAt < |response| &&
        p.explanations[k] == Strip(response[hits[k].separatorAt + 1..TailEnd(response, hits[k].separatorAt + 1)])
  {
    LineHitsGroups(response, 0);
    TailsStripped(response, LineHits(response, 0));
  }

  /** The fallback finds nothing exactly when the text has the line pattern's shape
      nowhere, and wherever it does match the fallback lists a match that starts there or
      overlaps it. */
  lemma FallbackNoMatch(response: string)
    ensures (FallbackSpec(response).bugLines == [] && FallbackSpec(response).explanations == [])
            <==> forall q, a, b, c :: !LineShape(response, q, a, b, c)
  {
    LineHitsSpec(response, 0);
    var hits := LineHits(response, 0);
    if hits != [] {
      assert IsMatchAt(response, hits[0]);
      var h := hits[0];
      MatchLineShape(response, h.start);
      assert FallbackSpec(response).bugLines != [];
    } else {
      forall q, a, b, c ensures !LineShape(response, q, a, b, c) {
        if LineShape(response, q, a, b, c) {
          ShapeMatches(response, q, a, b, c);
          LineHitsCover(response, 0, q);
          assert false;
        }
      }
    }
  }

  // ---------------------------------------------------------------- format_rag_docs

  /** A search result: its "text" and its "score", either possibly absent. Scores are
      counted in thousandths, the precision the rendering shows. */
  datatype Doc = Doc(text: Option<string>, score: Option<int>)

  /** `doc.get("score", 0)`. */
  function ScoreKey(d: Doc): int { d.score.GetOr(0) }

  /** `doc.get("text", "").strip()`. */
  function DocText(d: Doc): string { Strip(d.text.GetOr("")) }

  /** A document is rendered when its stripped text is not empty. */
  predicate Kept(d: Doc) { DocText(d) != [] }

  /** The three decimal digits of `n`, with leading zeros. */
  function ThreeDigits(n: nat): (r: string)
    requires n < 1000
    ensures |r| == 3 && IsDigits(r) && DigitsValue(r) == n
  {
    var r := [DigitChar(n / 100), DigitChar(n / 10 % 10), DigitChar(n % 10)];
    assert DigitsValue(r[..1]) == n / 100 by { assert r[..1][..0] == []; }
    assert DigitsValue(r[..2]) == n / 10 by { assert r[..2][..1] == r[..1]; }
    assert DigitsValue(r) == n by { assert r[..3][..2] == r[..2]; }
    r
  }

  /** Reads back an unsigned rendered score: digits, '.', three digits. */
  function ReadUnsigned(u: string): Option<nat> {
    if |u| < 5 || u[|u| - 4] != '.' || !IsDigits(u[..|u| - 4]) || !IsDigits(u[|u| - 3..]) then None
    else Some(DigitsValue(u[..|u| - 4]) * 1000 + DigitsValue(u[|u| - 3..]))
  }

  /** Reads a rendered score back: an optional '-' and an unsigned score. */
  function ReadScore(t: string): Option<int> {
    if |t| > 0 && t[0] == '-' then
      var v := ReadUnsigned(t[1..]);
      if v.Some? then Some(0 - v.value) else None
    else
      var v := ReadUnsigned(t);
      if v.Some? then Some(v.value) else None
  }

  /** `f"{score:.3f}"` for a non-negative score of `a` thousandths: whole part, '.', three
      decimals, which read back as `a`. */
  function UnsignedText(a: nat): (u: string)
    ensures ReadUnsigned(u) == Some(a)
    ensures u != [] && IsDigit(u[0])
  {
    var w := NatToString(a / 1000);
    var f := ThreeDigits(a % 1000);
    NatToStringValue(a / 1000);
    var u := w + "." + f;
    assert |u| == |w| + 4;
    assert u[..|w|] == w;
    assert u[|w| + 1..] == f;
    assert u[|w|] == '.';
    assert u[0] == w[0];
    u
  }

  /** `f"{score:.3f}"` for a score of `m` thousandths. */
  function ScoreText(m: int): string {
    if m < 0 then "-" + UnsignedText(-m) else UnsignedText(m)
  }

  /** The rendering loses nothing: the text shows the score exactly. */
  lemma ScoreTextRoundTrip(m: int)
    ensures ReadScore(ScoreText(m)) == Some(m)
  {
    if m < 0 {
      var u := UnsignedText(-m);
      assert ("-" + u)[1..] == u;
    }
  }

  /** `f"[Doc {position} (relevance: {score:.3f})]:\n{text}"`. */
  function DocBlock(position: nat, d: Doc): string {
    "[Doc " + NatToString(position) + " (relevance: " + ScoreText(ScoreKey(d)) + ")]:\n" + DocText(d)
  }

  /** `sorted(docs, key=score, reverse=True)[:maxDocs]`. */
  function TopDocs(docs: seq<Doc>, maxDocs: int): seq<Doc> {
    SliceTo(SortDesc(docs, ScoreKey), maxDocs)
  }

  /** What `format_rag_docs` returns. */
  function RagText(docs: seq<Doc>, maxDocs: int): string {
    if docs == [] then ""
    else
      var top := TopDocs(docs, maxDocs);
      Join(Numbered(top, Positions(top, Kept), DocBlock), "\n\n")
  }

  /** `format_rag_docs`: sort, keep the first `maxDocs`, render those with text. */
  method FormatRagDocs(docs: seq<Doc>, maxDocs: int) returns (text: string)
    ensures text == RagText(docs, maxDocs)
  {
    if docs == [] {
      return "";
    }
    var top := TopDocs(docs, maxDocs);
    var parts: seq<string> := [];
    for i := 0 to |top|
      invariant parts == Numbered(top, Positions(top[..i], Kept), DocBlock)
    {
      var d := top[i];
      var t := DocText(d);
      NumberedStep(top, Kept, DocBlock, i);
      if t != [] {
        parts := parts + [DocBlock(i + 1, d)];
      }
    }
    assert top[..|top|] == top;
    text := Join(parts, "\n\n");
  }

  /** The documents considered are the highest-scored ones, a missing score counting as 0:
      a prefix of the stable descending sort, at most `maxDocs` of them, each scoring at
      least as much as every document left out. */
  lemma TopDocsSpec(docs: seq<Doc>, maxDocs: int)
    ensures var sorted := SortDesc(docs, ScoreKey);
      var top := TopDocs(docs, maxDocs);
      && top == sorted[..|top|]
      && multiset(top) <= multiset(docs)
      && (maxDocs >= 0 ==> |top| == if maxDocs < |docs| then maxDocs else |docs|)
      && NonIncreasing(top, ScoreKey)
      && (forall i, j :: 0 <= i < |top| <= j < |sorted| ==> ScoreKey(sorted[i]) >= ScoreKey(sorted[j]))
  {
    var sorted := SortDesc(docs, ScoreKey);
    var top := TopDocs(docs, maxDocs);
    SortDescSpec(docs, ScoreKey);
    assert sorted == top + sorted[|top|..];
    assert multiset(sorted) == multiset(top) + multiset(sorted[|top|..]);
  }

  /** The blocks rendered: one per document of the top list whose stripped text is not
      empty, in order, each labelled with its document's 1-based position there, so labels
      increase strictly; a document is rendered exactly when it has text, and there are
      never more blocks than `maxDocs`. */
  lemma RagBlocksSpec(docs: seq<Doc>, maxDocs: int)
    requires docs != []
    ensures var top := TopDocs(docs, maxDocs);
      var ks := Positions(top, Kept);
      var blocks := Numbered(top, ks, DocBlock);
      && RagText(docs, maxDocs) == Join(blocks, "\n\n")
      && |blocks| <= |top| && (maxDocs >= 0 ==> |blocks| <= maxDocs)
      && (forall j :: 0 <= j < |ks| ==> blocks[j] == DocBlock(ks[j] + 1, top[ks[j]]) && DocText(top[ks[j]]) != [])
      && (forall j, j' :: 0 <= j < j' < |ks| ==> ks[j] + 1 < ks[j'] + 1)
      && (forall i :: 0 <= i < |top| ==> (Kept(top[i]) <==> i in ks))
  {
    var top := TopDocs(docs, maxDocs);
    forall i | 0 <= i < |top| && Kept(top[i]) ensures i in Positions(top, Kept) {
      PositionsComplete(top, Kept, i);
    }
  }
}
