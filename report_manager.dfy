/**
 * The report sink of a run: choosing the run's report directory, seeding it
 * from the report template, and writing the interim results the server
 * hands out into `data/results.js` below it.
 */
module ReportManager {
  import opened Types
  import opened Http
  import opened Helper
  import opened FileManager

  /** `./ReportTemplate`, relative to the working directory. */
  const ReportTemplate: Path := ["ReportTemplate"]

  const ReportInterimRoute: string := "report_interim?token="

  /** `prefix ? prefix : ''`: an absent prefix reads as the empty string. */
  function PrefixOrEmpty(prefix: Option<string>): (s: string)
    ensures s == "" <==> prefix.None? || prefix.value == ""
    ensures s != "" ==> prefix == Some(s)
  {
    if prefix.Some? then prefix.value else ""
  }

  /** The segments `path.join` keeps: every non-empty one, in order. */
  function NonEmpty(parts: seq<string>): (r: seq<string>)
    ensures |r| <= |parts|
    ensures forall k :: 0 <= k < |r| ==> r[k] != "" && r[k] in parts
    ensures forall s :: s in parts && s != "" ==> s in r
  {
    if parts == [] then []
    else (if parts[0] == "" then [] else [parts[0]]) + NonEmpty(parts[1..])
  }

  /**
   * The run's report directory `init` computes: the configured root, then
   * `<prefix>/Report_<folderTimeStamp>` when a folder time stamp is given,
   * then `<prefix>`, then `Report_<timeStamp>`; empty parts are skipped.
   */
  function RunDirectory(filePath: Path, prefix: Option<string>, folderTimeStamp: Option<string>, timeStamp: string): (p: Path)
    ensures IsPrefix(filePath, p) && |p| > |filePath|
    ensures p[|p| - 1] == "Report_" + timeStamp
  {
    var pre := PrefixOrEmpty(prefix);
    var extra := if folderTimeStamp.Some? && folderTimeStamp.value != ""
                 then NonEmpty([pre, "Report_" + folderTimeStamp.value])
                 else [];
    var p := filePath + extra + NonEmpty([pre]) + ["Report_" + timeStamp];
    assert p[..|filePath|] == filePath;
    p
  }

  /** Keeping the non-empty segments of a single segment. */
  lemma NonEmptySingle(s: string)
    ensures NonEmpty([s]) == if s == "" then [] else [s]
  {
  }

  /** Keeping the non-empty segments distributes over concatenation, so order and repetitions are kept. */
  lemma {:induction false} NonEmptyAppend(a: seq<string>, b: seq<string>)
    ensures NonEmpty(a + b) == NonEmpty(a) + NonEmpty(b)
    decreases |a|
  {
    if a == [] {
      assert a + b == b;
    } else {
      assert (a + b)[0] == a[0] && (a + b)[1..] == a[1..] + b;
      NonEmptyAppend(a[1..], b);
    }
  }

  /**
   * The run directory for every prefix and folder time stamp: the root,
   * then the prefix (when non-empty) and `Report_<folder>` when a non-empty
   * folder time stamp is given, then the prefix again (when non-empty),
   * then `Report_<timeStamp>`. With the prefix unset or empty and no folder
   * time stamp it is just the root and `Report_<timeStamp>`.
   */
  lemma RunDirectoryShape(filePath: Path, prefix: Option<string>, folder: Option<string>, ts: string)
    ensures var pre := PrefixOrEmpty(prefix);
      var preSeg := if pre == "" then [] else [pre];
      var extra := if folder.Some? && folder.value != "" then preSeg + ["Report_" + folder.value] else [];
      RunDirectory(filePath, prefix, folder, ts) == filePath + extra + preSeg + ["Report_" + ts]
    ensures (prefix == None || prefix == Some("")) && (folder == None || folder == Some(""))
      ==> RunDirectory(filePath, prefix, folder, ts) == filePath + ["Report_" + ts]
  {
    var pre := PrefixOrEmpty(prefix);
    NonEmptySingle(pre);
    if folder.Some? && folder.value != "" {
      NonEmptyAppend([pre], ["Report_" + folder.value]);
      assert [pre] + ["Report_" + folder.value] == [pre, "Report_" + folder.value];
      NonEmptySingle("Report_" + folder.value);
    }
  }

  /**
   * Computing the run directory is not idempotent: a second `init` nests a
   * fresh run directory below the first one.
   */
  lemma RunDirectoryNests(filePath: Path, prefix: Option<string>, folder: Option<string>, ts: string, ts': string)
    ensures var once := RunDirectory(filePath, prefix, folder, ts);
      var twice := RunDirectory(once, prefix, folder, ts');
      IsPrefix(once, twice) && |twice| > |once| && twice != once
  {
  }

  /** What `init` does once the run directory is known. */
  datatype InitPlan = CopyTemplate | Refuse

  /**
   * The branch `init` takes, as written: with no template it copies; with a
   * template it copies when the run directory is new; only when both exist
   * does it throw "Report Template not Found".
   */
  function InitDecision(templateExists: bool, runDirExists: bool): (plan: InitPlan)
    ensures plan == Refuse <==> templateExists && runDirExists
    ensures !templateExists ==> plan == CopyTemplate
  {
    if !templateExists then CopyTemplate
    else if !runDirExists then CopyTemplate
    else Refuse
  }

  /**
   * The branch evidently intended: throw "Report Template not Found" when
   * the template is missing, copy it into a new run directory otherwise,
   * and never overwrite an existing run directory.
   */
  function IntendedInitDecision(templateExists: bool, runDirExists: bool): (plan: InitPlan)
    ensures plan == CopyTemplate <==> templateExists && !runDirExists
  {
    if !templateExists then Refuse
    else if !runDirExists then CopyTemplate
    else Refuse
  }

  /** The two decisions differ exactly when the template is missing. */
  lemma DecisionsDifferWhenTemplateMissing(templateExists: bool, runDirExists: bool)
    ensures InitDecision(templateExists, runDirExists) != IntendedInitDecision(templateExists, runDirExists)
        <==> !templateExists
  {
  }

  /**
   * As written, `init` copies a template that is not there: the copy cannot
   * be allowed, so it fails (after creating the run directory) instead of
   * reporting the missing template.
   */
  lemma MissingTemplateIsCopied(fs: map<Path, Node>, runDir: Path)
    requires ReportTemplate !in fs
    ensures InitDecision(false, runDir in fs) == CopyTemplate
    ensures !CopyAllowed(fs, ReportTemplate, runDir)
  {
  }

  /** With the intended decision, a copy is only attempted from a template that exists. */
  lemma IntendedCopyHasTemplate(fs: map<Path, Node>, runDir: Path)
    requires WellFormed(fs) && IsDir(fs, ReportTemplate) && MkdirAllowed(fs, runDir)
    requires IntendedInitDecision(ReportTemplate in fs, runDir in fs) == CopyTemplate
    ensures CopyAllowed(fs, ReportTemplate, runDir)
  {
    FreshDestinationCopyAllowed(fs, ReportTemplate, runDir);
  }

  /** Where `generateReport` writes: `<run directory>/data/results.js`. */
  function ResultsFile(runDir: Path): (p: Path)
    ensures IsPrefix(runDir, p) && |p| == |runDir| + 2
    ensures p[|runDir|] == "data" && p[|p| - 1] == "results.js"
  {
    var p := runDir + ["data", "results.js"];
    assert p[..|runDir|] == runDir;
    p
  }

  /**
   * `reportInterim`: the answer's text on a 2xx answer, nothing on another
   * status; a rejected fetch propagates.
   */
  function ReportInterim(response: Response): (r: Result<Option<string>, Error>)
    ensures r.Failure? <==> response.TransportFail?
    ensures r.Failure? ==> r.error == Transport
    ensures r.Success? ==> (r.value.Some? <==> response.Ok?)
    ensures r.Success? && r.value.Some? ==> r.value.value == response.body
  {
    match response
    case TransportFail => Failure(Transport)
    case NotOk(_, _) => Success(None)
    case Ok(body) => Success(Some(body))
  }

  /** A results file written by `generateReport` reads back as the interim results. */
  lemma WrittenResultsReadBack(fs: map<Path, Node>, runDir: Path, body: string)
    requires WriteFile(fs, ResultsFile(runDir), VarAssignment("results", body)).Success?
    ensures var fs' := WriteFile(fs, ResultsFile(runDir), VarAssignment("results", body)).value;
      && ResultsFile(runDir) in fs' && fs'[ResultsFile(runDir)].File?
      && ParseVarAssignment("results", fs'[ResultsFile(runDir)].content) == Some(body)
  {
    VarAssignmentRoundTrip("results", body);
  }

  class ReportManager {
    const serverURL: string
    /** The report settings; `init` replaces the file path with the run directory. */
    var reportConfig: ReportConfig
    const fileManager: FileManager

    constructor (server: ServerConfig, reportConfig: ReportConfig, fileManager: FileManager)
      ensures serverURL == NormalizeUrl(server.url) && EndsWithSlash(serverURL)
      ensures this.reportConfig == reportConfig && this.fileManager == fileManager
    {
      serverURL := NormalizeUrl(server.url);
      this.reportConfig := reportConfig;
      this.fileManager := fileManager;
    }

    /** The run directory `init` would choose now. */
    function NextRunDirectory(folderTimeStamp: Option<string>, now: DateParts): Path
      reads this
    {
      RunDirectory(reportConfig.filePath, reportConfig.prefix, folderTimeStamp, GenerateTimestamp(now))
    }

    /**
     * `init(folderTimeStamp)`, as written, with `now` the clock's reading:
     * moves the report path to the run directory, then copies the template
     * there or throws, as `InitDecision` says.
     */
    method Init(folderTimeStamp: Option<string>, now: DateParts) returns (r: Result<(), Error>)
      requires fileManager.Valid()
      requires Disjoint(ReportTemplate, NextRunDirectory(folderTimeStamp, now))
      modifies this`reportConfig, fileManager
      ensures reportConfig == old(reportConfig).(filePath := old(NextRunDirectory(folderTimeStamp, now)))
      ensures fileManager.Valid()
      ensures var plan := InitDecision(ReportTemplate in old(fileManager.fs), reportConfig.filePath in old(fileManager.fs));
        && (plan == Refuse ==> r == Failure(TemplateNotFound) && fileManager.fs == old(fileManager.fs))
        && (plan == CopyTemplate ==> OnlyUnder(old(fileManager.fs), fileManager.fs, reportConfig.filePath))
        && (plan == CopyTemplate && r.Success? ==> IsCopy(old(fileManager.fs), fileManager.fs, ReportTemplate, reportConfig.filePath))
        && (plan == CopyTemplate ==> (r.Success? <==> CopyAllowed(old(fileManager.fs), ReportTemplate, reportConfig.filePath)))
      ensures ReportTemplate !in old(fileManager.fs) && MkdirAllowed(old(fileManager.fs), reportConfig.filePath) ==>
        r == Failure(Fs(NoEntry)) && IsDir(fileManager.fs, reportConfig.filePath)
    {
      ghost var fs0 := fileManager.fs;
      reportConfig := reportConfig.(filePath := NextRunDirectory(folderTimeStamp, now));
      ghost var dir := reportConfig.filePath;
      var templateExists := fileManager.PathExists(ReportTemplate);
      var runDirExists := fileManager.PathExists(reportConfig.filePath);
      assert templateExists == (ReportTemplate in fs0) && runDirExists == (dir in fs0);
      r := ApplyPlan(InitDecision(templateExists, runDirExists));
      assert reportConfig.filePath == dir;
    }

    /** `init` with the intended decision: the missing template is reported as such. */
    method InitCorrected(folderTimeStamp: Option<string>, now: DateParts) returns (r: Result<(), Error>)
      requires fileManager.Valid()
      requires Disjoint(ReportTemplate, NextRunDirectory(folderTimeStamp, now))
      modifies this`reportConfig, fileManager
      ensures reportConfig == old(reportConfig).(filePath := old(NextRunDirectory(folderTimeStamp, now)))
      ensures fileManager.Valid()
      ensures ReportTemplate !in old(fileManager.fs) ==>
        r == Failure(TemplateNotFound) && fileManager.fs == old(fileManager.fs)
      ensures reportConfig.filePath in old(fileManager.fs) ==>
        r == Failure(TemplateNotFound) && fileManager.fs == old(fileManager.fs)
      ensures (IsDir(old(fileManager.fs), ReportTemplate) && reportConfig.filePath !in old(fileManager.fs)
               && MkdirAllowed(old(fileManager.fs), reportConfig.filePath)) ==>
        r.Success? && IsCopy(old(fileManager.fs), fileManager.fs, ReportTemplate, reportConfig.filePath)
      ensures r.Success? ==>
        && IsDir(old(fileManager.fs), ReportTemplate) && reportConfig.filePath !in old(fileManager.fs)
        && MkdirAllowed(old(fileManager.fs), reportConfig.filePath)
      ensures OnlyUnder(old(fileManager.fs), fileManager.fs, reportConfig.filePath)
    {
      ghost var fs0 := fileManager.fs;
      reportConfig := reportConfig.(filePath := NextRunDirectory(folderTimeStamp, now));
      ghost var dir := reportConfig.filePath;
      var templateExists := fileManager.PathExists(ReportTemplate);
      var runDirExists := fileManager.PathExists(reportConfig.filePath);
      assert templateExists == (ReportTemplate in fs0) && runDirExists == (dir in fs0);
      if IsDir(fs0, ReportTemplate) && dir !in fs0 && MkdirAllowed(fs0, dir) {
        FreshDestinationCopyAllowed(fs0, ReportTemplate, dir);
      }
      r := ApplyPlan(IntendedInitDecision(templateExists, runDirExists));
      assert reportConfig.filePath == dir;
    }

    /** Copies the template to the run directory, or refuses with "Report Template not Found". */
    method ApplyPlan(plan: InitPlan) returns (r: Result<(), Error>)
      requires fileManager.Valid() && Disjoint(ReportTemplate, reportConfig.filePath)
      modifies fileManager
      ensures fileManager.Valid()
      ensures plan == Refuse ==> r == Failure(TemplateNotFound) && fileManager.fs == old(fileManager.fs)
      ensures plan == CopyTemplate ==> OnlyUnder(old(fileManager.fs), fileManager.fs, reportConfig.filePath)
      ensures plan == CopyTemplate && r.Success? ==> IsCopy(old(fileManager.fs), fileManager.fs, ReportTemplate, reportConfig.filePath)
      ensures plan == CopyTemplate ==> (r.Success? <==> CopyAllowed(old(fileManager.fs), ReportTemplate, reportConfig.filePath))
      ensures plan == CopyTemplate && ReportTemplate !in old(fileManager.fs) && MkdirAllowed(old(fileManager.fs), reportConfig.filePath) ==>
        r == Failure(Fs(NoEntry)) && IsDir(fileManager.fs, reportConfig.filePath)
    {
      if plan == Refuse {
        return Failure(TemplateNotFound);
      }
      r := fileManager.CopyFolderRecursive(ReportTemplate, reportConfig.filePath);
    }

    function ReportInterimRequest(token: string): (q: Request)
      ensures q.Get? && q.url == serverURL + ReportInterimRoute + token
    {
      Get(serverURL + ReportInterimRoute + token)
    }

    /**
     * `generateReport(token)`: fetches the interim results and, when there
     * are any, writes them as `var results = <text>;` to the run directory's
     * `data/results.js`. A failed write is swallowed; only a rejected fetch
     * propagates.
     */
    method GenerateReport(token: string, response: Response) returns (r: Result<(), Error>, request: Request)
      requires fileManager.Valid()
      modifies fileManager
      ensures fileManager.Valid()
      ensures request == ReportInterimRequest(token)
      ensures r.Failure? <==> response.TransportFail?
      ensures r.Failure? ==> r.error == Transport
      ensures !(response.Ok? && response.body != "") ==> fileManager.fs == old(fileManager.fs)
      ensures response.Ok? && response.body != "" ==>
        var w := WriteFile(old(fileManager.fs), ResultsFile(reportConfig.filePath), VarAssignment("results", response.body));
        && (w.Success? ==> fileManager.fs == w.value)
        && (w.Failure? ==> fileManager.fs == old(fileManager.fs))
    {
      request := ReportInterimRequest(token);
      var content := ReportInterim(response);
      if content.Failure? {
        return Failure(content.error), request;
      }
      if content.value.None? || content.value.value == "" {
        return Success(()), request;
      }
      var written := fileManager.WriteVariableToFile(ResultsFile(reportConfig.filePath), "results", content.value.value);
      r := Success(());
    }
  }
}
