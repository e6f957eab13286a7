/** `scripts/validate-configs.ts`: the command-line check run before a deploy.
    It goes through the eight JSON files served from `public/`, reports each
    one as OK or FAIL, and exits with status 1 when any failed. The file
    system, `JSON.parse` and the zod schemas are replaced by `Probes`, three
    functions of the file name; the console by a list of lines, each tagged
    with the stream (`console.log` or `console.error`) it goes to. */
module ValidateConfigs {
  import opened Wrappers
  import opened Seqs
  import opened Strings

  /** The `configs` list, in order. */
  const ConfigFiles: seq<string> := [
    "site.json", "meta.json", "alerts.json", "rates.json",
    "governance.json", "links.json", "documents.json", "pictures.json"
  ]

  /** One element of a zod issue path: an object key or an array index. */
  datatype PathSegment = Key(name: string) | Index(n: nat) {
    /** The element as `Array.prototype.join` writes it. */
    function Text(): string {
      match this
      case Key(name) => name
      case Index(n) => NatToString(n)
    }
  }

  datatype Issue = Issue(path: seq<PathSegment>, message: string)

  /** What the script can find out about one file. `fileExists` is
      `existsSync`, `parses` whether `JSON.parse` succeeds on its text, and
      `issues` the result of `safeParse`: `None` on success. */
  datatype Probes = Probes(
    fileExists: string -> bool,
    parses: string -> bool,
    issues: string -> Option<seq<Issue>>)

  /** Where a file's checking stops. */
  datatype Outcome = Missing | InvalidJson | SchemaIssues(issues: seq<Issue>) | Valid

  /** The checks in the script's order: existence, then JSON, then schema;
      the first that fails decides. */
  function OutcomeOf(file: string, probes: Probes): (o: Outcome)
    ensures o == Missing <==> !probes.fileExists(file)
    ensures o == InvalidJson <==> probes.fileExists(file) && !probes.parses(file)
    ensures o.SchemaIssues? <==> probes.fileExists(file) && probes.parses(file) && probes.issues(file).Some?
    ensures o.SchemaIssues? ==> o.issues == probes.issues(file).value
  {
    if !probes.fileExists(file) then Missing
    else if !probes.parses(file) then InvalidJson
    else if probes.issues(file).Some? then SchemaIssues(probes.issues(file).value)
    else Valid
  }

  datatype Stream = Stdout | Stderr

  datatype Line = Line(stream: Stream, text: string)

  function Texts(path: seq<PathSegment>): (r: seq<string>)
    ensures |r| == |path|
    ensures forall i :: 0 <= i < |path| ==> r[i] == path[i].Text()
  {
    seq(|path|, i requires 0 <= i < |path| => path[i].Text())
  }

  /** `issue.path.length ? issue.path.join(".") : "(root)"`. */
  function PathText(path: seq<PathSegment>): (s: string)
    ensures |path| == 0 ==> s == "(root)"
  {
    if |path| > 0 then Join(Texts(path), ".") else "(root)"
  }

  /** The dotted path gives back its elements when no key holds a dot. */
  lemma PathTextSplits(path: seq<PathSegment>)
    requires |path| > 0
    requires forall i :: 0 <= i < |path| ==> '.' !in path[i].Text()
    ensures Split(PathText(path), '.') == Texts(path)
  {
    SplitJoin(Texts(path), '.');
  }

  const DetailIndent := "      → "

  function IssueLine(issue: Issue): Line {
    Line(Stderr, DetailIndent + PathText(issue.path) + ": " + issue.message)
  }

  /** One detail line per issue, in order. */
  function IssueLines(issues: seq<Issue>): (r: seq<Line>)
    ensures |r| == |issues|
    ensures forall i :: 0 <= i < |issues| ==> r[i] == IssueLine(issues[i])
  {
    if |issues| == 0 then [] else IssueLines(issues[..|issues| - 1]) + [IssueLine(issues[|issues| - 1])]
  }

  /** The first line written for a file. */
  function HeaderLine(file: string, o: Outcome): (l: Line)
    ensures l.stream == Stdout <==> o == Valid
  {
    match o
    case Missing => Line(Stderr, "FAIL  " + file + " — does not exist in public/")
    case InvalidJson => Line(Stderr, "FAIL  " + file + " — not valid JSON, check for missing commas or brackets")
    case SchemaIssues(_) => Line(Stderr, "FAIL  " + file)
    case Valid => Line(Stdout, "  OK  " + file)
  }

  /** All that is written for a file: its header, then its issues. */
  function FileLines(file: string, o: Outcome): (r: seq<Line>)
    ensures |r| >= 1 && r[0] == HeaderLine(file, o)
  {
    [HeaderLine(file, o)] + (if o.SchemaIssues? then IssueLines(o.issues) else [])
  }

  /** What the loop writes for `files`, file after file. */
  function Report(files: seq<string>, probes: Probes): seq<Line> {
    if |files| == 0 then []
    else Report(files[..|files| - 1], probes) + FileLines(files[|files| - 1], OutcomeOf(files[|files| - 1], probes))
  }

  /** The `failed` flag after checking `files`. */
  function AnyFailed(files: seq<string>, probes: Probes): bool {
    if |files| == 0 then false
    else AnyFailed(files[..|files| - 1], probes) || OutcomeOf(files[|files| - 1], probes) != Valid
  }

  /** The flag is set exactly when some file is not valid. */
  lemma {:induction false} AnyFailedIff(files: seq<string>, probes: Probes)
    ensures AnyFailed(files, probes) <==> exists i :: 0 <= i < |files| && OutcomeOf(files[i], probes) != Valid
  {
    if |files| > 0 {
      var init := files[..|files| - 1];
      AnyFailedIff(init, probes);
      if AnyFailed(init, probes) {
        var i :| 0 <= i < |init| && OutcomeOf(init[i], probes) != Valid;
        assert files[i] == init[i];
      }
      if exists i :: 0 <= i < |files| && OutcomeOf(files[i], probes) != Valid {
        var i :| 0 <= i < |files| && OutcomeOf(files[i], probes) != Valid;
        if i < |init| {
          assert init[i] == files[i];
        }
      }
    }
  }

  /** The closing line: on `console.error` after a failure, else on `console.log`. */
  function Summary(failed: bool): (l: Line)
    ensures l.stream == Stderr <==> failed
  {
    if failed then Line(Stderr, "\nValidation failed. Fix the errors above before deploying.")
    else Line(Stdout, "\nAll config files are valid.")
  }

  /** `process.exit(1)` after a failure; a normal exit otherwise. */
  function ExitCode(failed: bool): (code: int)
    ensures code == 1 <==> failed
    ensures code == 0 <==> !failed
  {
    if failed then 1 else 0
  }

  /** One step of the loop: the file at `k` adds its own lines and may set the flag. */
  lemma ReportStep(configs: seq<string>, k: nat, probes: Probes)
    requires k < |configs|
    ensures Report(configs[..k + 1], probes) ==
            Report(configs[..k], probes) + FileLines(configs[k], OutcomeOf(configs[k], probes))
    ensures AnyFailed(configs[..k + 1], probes) ==
            (AnyFailed(configs[..k], probes) || OutcomeOf(configs[k], probes) != Valid)
  {
    assert configs[..k + 1][..k] == configs[..k];
  }

  /** The inner loop over a schema failure's issues. */
  method WriteIssues(issues: seq<Issue>) returns (out: seq<Line>)
    ensures out == IssueLines(issues)
  {
    out := [];
    for j := 0 to |issues|
      invariant out == IssueLines(issues[..j])
    {
      assert issues[..j + 1][..j] == issues[..j];
      var path := if |issues[j].path| > 0 then Join(Texts(issues[j].path), ".") else "(root)";
      out := out + [Line(Stderr, DetailIndent + path + ": " + issues[j].message)];
    }
    assert issues[..|issues|] == issues;
  }

  /** The body of the loop for one file: what it writes and whether it fails. */
  method CheckFile(file: string, probes: Probes) returns (written: seq<Line>, bad: bool)
    ensures written == FileLines(file, OutcomeOf(file, probes))
    ensures bad == (OutcomeOf(file, probes) != Valid)
  {
    if !probes.fileExists(file) {
      written, bad := [Line(Stderr, "FAIL  " + file + " — does not exist in public/")], true;
    } else if !probes.parses(file) {
      written, bad := [Line(Stderr, "FAIL  " + file + " — not valid JSON, check for missing commas or brackets")], true;
    } else {
      var result := probes.issues(file);
      if result.Some? {
        var details := WriteIssues(result.value);
        written, bad := [Line(Stderr, "FAIL  " + file)] + details, true;
      } else {
        written, bad := [Line(Stdout, "  OK  " + file)], false;
      }
    }
  }

  /** The loop over `configs` with its `failed` flag. */
  method Validate(configs: seq<string>, probes: Probes) returns (lines: seq<Line>, exitCode: int)
    ensures lines == Report(configs, probes) + [Summary(AnyFailed(configs, probes))]
    ensures exitCode == ExitCode(AnyFailed(configs, probes))
  {
    var failed := false;
    lines := [];
    for k := 0 to |configs|
      invariant lines == Report(configs[..k], probes)
      invariant failed == AnyFailed(configs[..k], probes)
    {
      var written, bad := CheckFile(configs[k], probes);
      ReportStep(configs, k, probes);
      lines := lines + written;
      failed := failed || bad;
    }
    assert configs[..|configs|] == configs;
    lines := lines + [Summary(failed)];
    exitCode := if failed then 1 else 0;
  }

  /** The script itself, over the eight files. */
  method ValidateConfigs(probes: Probes) returns (lines: seq<Line>, exitCode: int)
    ensures lines == Report(ConfigFiles, probes) + [Summary(AnyFailed(ConfigFiles, probes))]
    ensures exitCode == 1 <==> exists i :: 0 <= i < |ConfigFiles| && OutcomeOf(ConfigFiles[i], probes) != Valid
  {
    lines, exitCode := Validate(ConfigFiles, probes);
    AnyFailedIff(ConfigFiles, probes);
  }

  /** A header line, as opposed to an issue line. */
  predicate IsHeader(l: Line) {
    "FAIL  " <= l.text || "  OK  " <= l.text
  }

  lemma IssueLineIsNoHeader(issue: Issue)
    ensures !IsHeader(IssueLine(issue))
  {
    var t := IssueLine(issue).text;
    assert t[0] == ' ' && t[2] == ' ';
  }

  /** A file's lines hold exactly one header, the first. */
  lemma FileLinesHeaders(file: string, o: Outcome)
    ensures Filter(FileLines(file, o), IsHeader) == [HeaderLine(file, o)]
  {
    var details := if o.SchemaIssues? then IssueLines(o.issues) else [];
    forall i | 0 <= i < |details| ensures !IsHeader(details[i]) {
      IssueLineIsNoHeader(o.issues[i]);
    }
    FilterEmpty(details, IsHeader);
    FilterAppend([HeaderLine(file, o)], details, IsHeader);
    var h := HeaderLine(file, o);
    assert IsHeader(h) by {
      assert h.text[..6] == "FAIL  " || h.text[..6] == "  OK  ";
    }
  }

  /** The headers: one per file, in list order, whatever happened to the
      files before it. */
  function Headers(files: seq<string>, probes: Probes): (r: seq<Line>)
    ensures |r| == |files|
  {
    seq(|files|, i requires 0 <= i < |files| => HeaderLine(files[i], OutcomeOf(files[i], probes)))
  }

  /** Every file gets exactly one OK or FAIL header, in list order: a failing
      file does not stop the files after it from being checked. */
  lemma {:induction false} OneHeaderPerFile(files: seq<string>, probes: Probes)
    ensures Filter(Report(files, probes), IsHeader) == Headers(files, probes)
  {
    if |files| > 0 {
      var init, last := files[..|files| - 1], files[|files| - 1];
      OneHeaderPerFile(init, probes);
      FilterAppend(Report(init, probes), FileLines(last, OutcomeOf(last, probes)), IsHeader);
      FileLinesHeaders(last, OutcomeOf(last, probes));
      HeadersSnoc(files, probes);
    }
  }

  lemma HeadersSnoc(files: seq<string>, probes: Probes)
    requires |files| > 0
    ensures Headers(files, probes) ==
            Headers(files[..|files| - 1], probes) + [HeaderLine(files[|files| - 1], OutcomeOf(files[|files| - 1], probes))]
  {
    var init := files[..|files| - 1];
    var r := Headers(init, probes) + [HeaderLine(files[|files| - 1], OutcomeOf(files[|files| - 1], probes))];
    forall i | 0 <= i < |files| ensures Headers(files, probes)[i] == r[i] {
      if i < |init| {
        assert init[i] == files[i];
      }
    }
  }

  /** Eight headers for the eight files. */
  lemma EightHeaders(probes: Probes)
    ensures |Filter(Report(ConfigFiles, probes), IsHeader)| == 8
  {
    OneHeaderPerFile(ConfigFiles, probes);
  }
}
