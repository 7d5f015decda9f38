/** The cppcheck wrapper: which lines of the tool's stderr become findings, how they are
    cleaned, and how a failing run is turned into text for the prompt. */
module CppChecker {
  import opened Outcomes
  import opened Text
  import opened Seqs

  /** A stderr line is reported unless it is blank or, unstripped, starts with cppcheck's
      "Checking" progress prefix. */
  predicate Reported(line: string) {
    HasText(line) && !StartsWith(line, "Checking")
  }

  /** A reported line with every occurrence of the temporary file's path removed, stripped. */
  function Clean(line: string, path: string): string {
    Strip(RemoveAll(line, path))
  }

  /** `Clean` for a fixed temporary path. */
  function Cleaner(path: string): string -> string {
    line => Clean(line, path)
  }

  /** The lines of the stripped stderr. */
  function StderrLines(stderr: string): seq<string> {
    Split(Strip(stderr), '\n')
  }

  /** The findings: the reported lines of the stripped stderr, cleaned, in order. */
  function Findings(stderr: string, path: string): seq<string> {
    var lines := StderrLines(stderr);
    Pick(lines, Positions(lines, Reported), Cleaner(path))
  }

  /** What a successful run returns: the findings, one per line, or "" when there are none. */
  function Report(stderr: string, path: string): string {
    Join(Findings(stderr, path), "\n")
  }

  /** The filtering loop over the stripped stderr of a cppcheck run on `path`. */
  method FilterFindings(stderr: string, path: string) returns (report: string)
    ensures report == Report(stderr, path)
  {
    var output := Strip(stderr);
    var lines := Split(output, '\n');
    var findings: seq<string> := [];
    for i := 0 to |lines|
      invariant findings == Pick(lines, Positions(lines[..i], Reported), Cleaner(path))
    {
      var line := lines[i];
      PickStep(lines, Reported, Cleaner(path), i);
      if Reported(line) {
        var cleanLine := Clean(line, path);
        findings := findings + [cleanLine];
      }
    }
    assert lines[..|lines|] == lines;
    report := if findings != [] then Join(findings, "\n") else "";
  }

  /** What `check_code_snippet` returns, or the exception it lets through. */
  function CheckOutcome(tempFile: Attempt<string>, run: string -> Attempt<string>): Attempt<string> {
    if tempFile.Raised? then Raised(tempFile.message)
    else
      var result := run(tempFile.value);
      if result.Raised? then Ok("Error running cppcheck: " + result.message)
      else Ok(Report(result.value, tempFile.value))
  }

  /** `check_code_snippet`. `tempFile` is the outcome of writing the code to a temporary
      file (its path); it happens before the `try`, so its failure propagates. `run(path)`
      is the outcome of running cppcheck on that file (its stderr). A failing run is
      reported as text and never raises. */
  method CheckCodeSnippet(tempFile: Attempt<string>, run: string -> Attempt<string>)
    returns (r: Attempt<string>)
    ensures tempFile.Raised? ==> r == Raised(tempFile.message)
    ensures tempFile.Ok? && run(tempFile.value).Raised? ==>
      r == Ok("Error running cppcheck: " + run(tempFile.value).message)
    ensures tempFile.Ok? && run(tempFile.value).Ok? ==>
      r == Ok(Report(run(tempFile.value).value, tempFile.value))
    ensures r == CheckOutcome(tempFile, run)
  {
    if tempFile.Raised? {
      return Raised(tempFile.message);
    }
    var path := tempFile.value;
    var result := run(path);
    if result.Raised? {
      return Ok("Error running cppcheck: " + result.message);
    }
    var report := FilterFindings(result.value, path);
    return Ok(report);
  }

  /** The findings keep the order of their lines in the stripped stderr; a line is dropped
      exactly when it is blank or starts with "Checking"; each finding is its line cleaned;
      there are never more findings than lines. */
  lemma FindingsSpec(stderr: string, path: string)
    ensures var lines := StderrLines(stderr);
      var ks := Positions(lines, Reported);
      var fs := Findings(stderr, path);
      && |fs| == |ks| <= |lines|
      && (forall j :: 0 <= j < |ks| ==> fs[j] == Clean(lines[ks[j]], path))
      && (forall j, j' :: 0 <= j < j' < |ks| ==> ks[j] < ks[j'])
      && (forall i :: 0 <= i < |lines| ==> (Reported(lines[i]) <==> i in ks))
  {
    var lines := StderrLines(stderr);
    forall i | 0 <= i < |lines| && Reported(lines[i]) ensures i in Positions(lines, Reported) {
      PositionsComplete(lines, Reported, i);
    }
  }

  /** A line that does not contain the path is only stripped; one that is just the path
      (with blanks around it) becomes an empty finding. */
  lemma CleanSpec(line: string, path: string)
    ensures (forall k :: 0 <= k < |line| ==> !OccursAt(line, path, k)) ==> Clean(line, path) == Strip(line)
    ensures path != [] && line == path ==> Clean(line, path) == ""
  {
    if forall k :: 0 <= k < |line| ==> !OccursAt(line, path, k) {
      RemoveAllAbsent(line, path);
    }
    if path != [] && line == path {
      assert StartsWith(line, path) && line[|path|..] == [];
    }
  }

  /** The report splits back into the findings: no finding spans two lines. */
  lemma ReportLines(stderr: string, path: string)
    ensures Findings(stderr, path) == [] ==> Report(stderr, path) == ""
    ensures Findings(stderr, path) != [] ==> Split(Report(stderr, path), '\n') == Findings(stderr, path)
  {
    var lines := StderrLines(stderr);
    var fs := Findings(stderr, path);
    FindingsSpec(stderr, path);
    forall j | 0 <= j < |fs| ensures '\n' !in fs[j] {
      var line := lines[Positions(lines, Reported)[j]];
      RemoveAllWithout(line, path, '\n');
      StripWithout(RemoveAll(line, path), '\n');
    }
    if fs != [] {
      SplitJoin(fs, '\n');
    }
  }
}
