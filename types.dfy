/**
 * Values shared by every service of the action: the wrappers used for the
 * source's exceptions and optional fields, the progress record the server
 * returns, and the configuration records the input adapter builds.
 */
module Types {

  datatype Option<+T> = None | Some(value: T)

  /** A value or the error the source would throw instead of returning it. */
  datatype Result<+T, +E> = Success(value: T) | Failure(error: E)

  /** A path as the list of its segments, relative to the working directory. */
  type Path = seq<string>

  /** Status of a run as reported by the server; `Idle` is the server's "none". */
  datatype Status = Idle | Load | Play | Pause | Next | Stop

  /** One answer of the progress route: status, elapsed time and percentage. */
  datatype Progress = Progress(status: Status, time: int, progress: int)

  datatype ServerConfig = ServerConfig(url: string, baseUrl: Option<string>)

  /** `targetType` says which locator is meant; only `filePath` and `testCase` are sent. */
  datatype TargetConfig = TargetConfig(
    filePath: Option<string>,
    folderPath: Option<string>,
    testCase: Option<string>,
    targetType: string)

  datatype ExecutionConfig = ExecutionConfig(
    browser: string,
    captureConditionFailureScreenshot: bool,
    captureFailureScreenshot: bool,
    isAutoHealingEnabled: bool,
    stepInterval: Option<int>)

  datatype RbtConfig = RbtConfig(
    labelExecutionEnabled: bool,
    labels: Option<string>,
    priorityHigh: bool,
    priorityLow: bool,
    priorityMedium: bool)

  /** The report settings; `filePath` is the report root, later the run directory. */
  datatype ReportConfig = ReportConfig(
    filePath: Path,
    frequency: int,
    interval: int,
    passFailPercentage: int,
    pdfFormat: bool,
    prefix: Option<string>,
    zipFormat: bool)

  /** The JSON body of the params route, field for field. */
  datatype RunParams = RunParams(
    browser: string,
    interval: int,
    operatingSystem: string,
    version: string,
    isRBTEnable: bool,
    highPriority: bool,
    mediumPriority: bool,
    lowPriority: bool,
    isLabelBaseTestExecution: bool,
    settingLabel: Option<string>,
    testObject: Option<string>,
    isAutoHealingEnabled: bool,
    reportPath: Path,
    baseURL: Option<string>,
    isFailureScreenshot: bool,
    isConditionFailureScreenshot: bool)

  /** Node's error codes for the file operations the report sink performs. */
  datatype FsError = NoEntry | NotDirectory | IsDirectory | AlreadyExists

  /** What the services throw. */
  datatype Error =
    | Transport                          // fetch rejected: DNS, refused connection, ...
    | InvalidUrlOrPath(serverURL: string) // token could not be acquired, restart refused
    | PlayRejected(status: int)           // the play route answered with a non-2xx status
    | TemplateNotFound                    // report initialisation refused to overwrite
    | Fs(code: FsError)                   // a filesystem call rejected
    | OutOfResponses                      // the scripted server has no further answer

  /** Defaults the input adapter applies when an input is left empty. */
  const DefaultFrequency: int := 10
  const DefaultBrowser: string := "Google Chrome"
  const DefaultTargetType: string := "filePath"

  /** The characters JavaScript's `String.prototype.trim` removes. */
  predicate IsJsWhitespace(c: char) {
    var n := c as int;
    n == 0x09 || n == 0x0A || n == 0x0B || n == 0x0C || n == 0x0D || n == 0x20
    || n == 0xA0 || n == 0x1680 || (0x2000 <= n <= 0x200A) || n == 0x2028
    || n == 0x2029 || n == 0x202F || n == 0x205F || n == 0x3000 || n == 0xFEFF
  }

  /** Length of the run of whitespace that starts `s`. */
  function LeadingSpace(s: string): (n: nat)
    ensures n <= |s|
    ensures forall k :: 0 <= k < n ==> IsJsWhitespace(s[k])
    ensures n < |s| ==> !IsJsWhitespace(s[n])
  {
    if s == [] || !IsJsWhitespace(s[0]) then 0 else 1 + LeadingSpace(s[1..])
  }

  /** Length of the run of whitespace that ends `s`. */
  function TrailingSpace(s: string): (n: nat)
    ensures n <= |s|
    ensures forall k :: |s| - n <= k < |s| ==> IsJsWhitespace(s[k])
    ensures n < |s| ==> !IsJsWhitespace(s[|s| - 1 - n])
  {
    if s == [] || !IsJsWhitespace(s[|s| - 1]) then 0 else 1 + TrailingSpace(s[..|s| - 1])
  }

  /**
   * `s.trim()`: the result is the part of `s` between its leading and its
   * trailing whitespace, and neither starts nor ends with whitespace.
   */
  function Trim(s: string): (r: string)
    ensures LeadingSpace(s) + |r| <= |s|
    ensures r == s[LeadingSpace(s)..LeadingSpace(s) + |r|]
    ensures forall k :: LeadingSpace(s) + |r| <= k < |s| ==> IsJsWhitespace(s[k])
    ensures r != [] ==> !IsJsWhitespace(r[0]) && !IsJsWhitespace(r[|r| - 1])
  {
    var t := s[LeadingSpace(s)..];
    t[..|t| - TrailingSpace(t)]
  }

  /** Trimming twice is trimming once. */
  lemma TrimIdempotent(s: string)
    ensures Trim(Trim(s)) == Trim(s)
  {
    var r := Trim(s);
    if r != [] {
      assert LeadingSpace(r) == 0;
      assert TrailingSpace(r) == 0;
    }
  }

  /** A string that neither starts nor ends with whitespace is its own trim. */
  lemma TrimUntouched(s: string)
    requires s != [] ==> !IsJsWhitespace(s[0]) && !IsJsWhitespace(s[|s| - 1])
    ensures Trim(s) == s
  {
    if s != [] {
      assert LeadingSpace(s) == 0;
      assert TrailingSpace(s) == 0;
    }
  }
}
