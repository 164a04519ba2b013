/**
 * Running one script on the automation server: acquire a run token by
 * loading the script (restarting the server after every failed load), send
 * the run parameters, start the run, then watch its progress and request
 * interim reports and one final report.
 */
module ScriptExecutor {
  import opened Types
  import opened Http
  import opened ServerManager
  import opened ProgressMonitor

  const LoadRoute: string := "load"
  const ParamsRoute: string := "params?token="
  const PlayRoute: string := "play?token="
  const ProgressRoute: string := "progress?token="

  /** What a token acquisition returned or threw, and every request it sent, in order. */
  datatype Acquisition = Acquisition(result: Result<string, Error>, requests: seq<Request>)

  /** A call of `generateReport(token)`: an interim one at some progress, or the final one. */
  datatype ReportRequest = Snapshot(token: string, progress: int) | Final(token: string)

  const OperatingSystem: string := "Windows"

  /**
   * The body of the params route. The step interval is the configured one
   * when it is given and not negative, otherwise 0; risk-based testing is on
   * when any priority is selected; the two screenshot flags are sent crossed
   * over, each under the other's name.
   */
  function RunParameters(exec: ExecutionConfig, report: ReportConfig, rbt: RbtConfig,
                         target: TargetConfig, baseURL: Option<string>): (p: RunParams)
    ensures p.interval >= 0
    ensures exec.stepInterval.Some? && exec.stepInterval.value >= 0 ==> p.interval == exec.stepInterval.value
    ensures p.interval != 0 ==> exec.stepInterval == Some(p.interval)
    ensures p.isRBTEnable <==> rbt.priorityHigh || rbt.priorityMedium || rbt.priorityLow
    ensures p.isRBTEnable ==> p.highPriority || p.mediumPriority || p.lowPriority
    ensures p.highPriority == rbt.priorityHigh && p.mediumPriority == rbt.priorityMedium && p.lowPriority == rbt.priorityLow
    ensures p.isFailureScreenshot == exec.captureConditionFailureScreenshot
    ensures p.isConditionFailureScreenshot == exec.captureFailureScreenshot
    ensures p.browser == exec.browser && p.operatingSystem == OperatingSystem && p.version == []
    ensures p.isLabelBaseTestExecution == rbt.labelExecutionEnabled && p.settingLabel == rbt.labels
    ensures p.testObject == target.testCase && p.isAutoHealingEnabled == exec.isAutoHealingEnabled
    ensures p.reportPath == report.filePath && p.baseURL == baseURL
  {
    var interval := if exec.stepInterval.Some? && exec.stepInterval.value >= 0 then exec.stepInterval.value else 0;
    RunParams(
      browser := exec.browser,
      interval := interval,
      operatingSystem := OperatingSystem,
      version := [],
      isRBTEnable := rbt.priorityHigh || rbt.priorityMedium || rbt.priorityLow,
      highPriority := rbt.priorityHigh,
      mediumPriority := rbt.priorityMedium,
      lowPriority := rbt.priorityLow,
      isLabelBaseTestExecution := rbt.labelExecutionEnabled,
      settingLabel := rbt.labels,
      testObject := target.testCase,
      isAutoHealingEnabled := exec.isAutoHealingEnabled,
      reportPath := report.filePath,
      baseURL := baseURL,
      isFailureScreenshot := exec.captureConditionFailureScreenshot,
      isConditionFailureScreenshot := exec.captureFailureScreenshot)
  }

  /** The first `k` loads failed and each was followed by an acknowledged restart. */
  predicate RetriedBefore(loads: seq<Response>, restarts: seq<Response>, k: nat) {
    && k <= |loads| && k <= |restarts|
    && forall j :: 0 <= j < k ==> !loads[j].Ok? && restarts[j].Ok?
  }

  class ScriptExecutor {
    /** The run token, empty until a script was loaded. */
    var token: string
    const serverURL: string
    const baseURL: Option<string>
    const target: TargetConfig

    /** Both URLs are normalised to end in `/`; no token is held yet. */
    constructor (server: ServerConfig, target: TargetConfig)
      ensures token == ""
      ensures EndsWithSlash(serverURL) && serverURL == NormalizeUrl(server.url)
      ensures baseURL.Some? <==> server.baseUrl.Some?
      ensures baseURL.Some? ==> EndsWithSlash(baseURL.value) && baseURL.value == NormalizeUrl(server.baseUrl.value)
      ensures this.target == target
    {
      token := "";
      serverURL := NormalizeUrl(server.url);
      baseURL := if server.baseUrl.Some? then Some(NormalizeUrl(server.baseUrl.value)) else None;
      this.target := target;
    }

    /** The load request: always the script's file path, with file type `twizx`. */
    function LoadRequest(): (q: Request)
      ensures q.Post? && q.url == serverURL + LoadRoute
      ensures q.payload == LoadPayload(target.filePath, "twizx")
    {
      Post(serverURL + LoadRoute, LoadPayload(target.filePath, "twizx"))
    }

    /**
     * `getTokenForFile`: loads the script and returns the trimmed answer.
     * After a failed load the server is restarted; an acknowledged restart
     * starts over with a fresh load, for as long as restarts are
     * acknowledged; a refused restart throws the invalid-URL error, and a
     * restart whose fetch rejects propagates its error. `loads` and
     * `restarts` are the answers the server gives, in order.
     */
    function GetTokenForFile(server: ServerManager, loads: seq<Response>, restarts: seq<Response>): (a: Acquisition)
      decreases |loads|
      ensures |a.requests| <= 2 * |loads|
      ensures a.result.Success? ==> |a.requests| % 2 == 1
      ensures a.result.Failure? && a.result.error != OutOfResponses ==> |a.requests| % 2 == 0 && |a.requests| >= 2
    {
      if loads == [] then Acquisition(Failure(OutOfResponses), [])
      else
        var load := LoadRequest();
        if loads[0].Ok? then Acquisition(Success(Trim(loads[0].body)), [load])
        else if restarts == [] then Acquisition(Failure(OutOfResponses), [load])
        else
          var restart := server.RestartTWServer(restarts[0]);
          match restart.outcome
          case Failure(e) => Acquisition(Failure(e), [load, restart.request])
          case Success(acknowledged) =>
            if !acknowledged then Acquisition(Failure(InvalidUrlOrPath(serverURL)), [load, restart.request])
            else
              var rest := GetTokenForFile(server, loads[1..], restarts[1..]);
              Acquisition(rest.result, [load, restart.request] + rest.requests)
    }

    /** `params?token=<token>` with the run parameters. */
    function ParamsRequest(exec: ExecutionConfig, report: ReportConfig, rbt: RbtConfig, t: string): (q: Request)
      ensures q.Post? && q.url == serverURL + ParamsRoute + t
      ensures q.payload == ParamsPayload(RunParameters(exec, report, rbt, target, baseURL))
    {
      Post(serverURL + ParamsRoute + t, ParamsPayload(RunParameters(exec, report, rbt, target, baseURL)))
    }

    function PlayRequest(t: string): (q: Request)
      ensures q.Get? && q.url == serverURL + PlayRoute + t
    {
      Get(serverURL + PlayRoute + t)
    }

    function ProgressRequest(t: string): (q: Request)
      ensures q.Get? && q.url == serverURL + ProgressRoute + t
    {
      Get(serverURL + ProgressRoute + t)
    }

    /**
     * `execute`: acquire a token, send the parameters, start the run, and
     * return the token. The parameters answer is ignored unless its fetch
     * rejects; a non-2xx play answer throws. The token field is only set once
     * a token was acquired.
     */
    method Execute(exec: ExecutionConfig, report: ReportConfig, rbt: RbtConfig, server: ServerManager,
                   loads: seq<Response>, restarts: seq<Response>, paramsResponse: Response, playResponse: Response)
      returns (r: Result<string, Error>, requests: seq<Request>)
      modifies this`token
      ensures var a := GetTokenForFile(server, loads, restarts);
        && (a.result.Failure? ==> r == a.result && requests == a.requests && token == old(token))
        && (a.result.Success? ==> token == a.result.value)
        && (a.result.Success? && paramsResponse.TransportFail? ==>
              r == Failure(Transport) && requests == a.requests + [ParamsRequest(exec, report, rbt, token)])
        && (a.result.Success? && !paramsResponse.TransportFail? ==>
              requests == a.requests + [ParamsRequest(exec, report, rbt, token), PlayRequest(token)])
      ensures r.Success? <==>
        GetTokenForFile(server, loads, restarts).result.Success? && !paramsResponse.TransportFail? && playResponse.Ok?
      ensures r.Success? ==> r.value == token
      ensures (GetTokenForFile(server, loads, restarts).result.Success? && !paramsResponse.TransportFail?
               && playResponse.NotOk?) ==> r == Failure(PlayRejected(playResponse.status))
      ensures (GetTokenForFile(server, loads, restarts).result.Success? && !paramsResponse.TransportFail?
               && playResponse.TransportFail?) ==> r == Failure(Transport)
    {
      var a := GetTokenForFile(server, loads, restarts);
      requests := a.requests;
      if a.result.Failure? {
        return a.result, requests;
      }
      token := a.result.value;
      requests := requests + [ParamsRequest(exec, report, rbt, token)];
      var paramsOk := OkFlag(paramsResponse);
      if paramsOk.Failure? {
        return Failure(paramsOk.error), requests;
      }
      requests := requests + [PlayRequest(token)];
      match playResponse
      case TransportFail => r := Failure(Transport);
      case NotOk(status, _) => r := Failure(PlayRejected(status));
      case Ok(_) => r := Success(token);
    }

    /**
     * `monitorAndReportProgress`: polls until the run stops or five polls in
     * a row fail, calling `generateReport` whenever the progress passes the
     * next threshold below 100. Returns why the loop ended, the interim
     * report calls in order, and the progress requests sent, one per answer
     * read.
     */
    method MonitorAndReportProgress(report: ReportConfig, polls: seq<Option<Progress>>)
      returns (exit: Exit, interim: seq<ReportRequest>, polled: seq<Request>)
      ensures var run := Monitoring(Start(report.frequency), polls, report.frequency);
        && exit == run.exit && interim == Interim(token, run.snapshots)
        && |polled| == run.consumed && forall j :: 0 <= j < |polled| ==> polled[j] == ProgressRequest(token)
    {
      var f, t := report.frequency, token;
      var q := ProgressRequest(t);
      ghost var whole := Monitoring(Start(f), polls, f);
      var lastReported := 0;
      var nextThreshold := f;
      var retryCount: nat := 0;
      ghost var snapshots: seq<int> := [];
      ghost var consumed: nat := 0;
      exit := OutOfPolls;
      interim := [];
      polled := [];
      var pending := polls;
      while pending != []
        invariant SplitAt(whole, consumed, snapshots, Monitor(lastReported, nextThreshold, retryCount), pending, f)
        invariant interim == Interim(t, snapshots)
        invariant polled == Repeat(q, consumed)
        decreases |pending|
      {
        ghost var m, queue, before := Monitor(lastReported, nextThreshold, retryCount), pending, snapshots;
        ghost var snap: Option<int> := None;
        RepeatAppend(q, consumed);
        polled := polled + [q];
        var poll := pending[0];
        pending := pending[1..];
        consumed := consumed + 1;
        if poll.None? {
          retryCount := retryCount + 1;
          if retryCount >= MaxRetries {
            exit := Abandoned;
            HaltCycle(whole, consumed - 1, before, m, queue, f, exit, Monitor(lastReported, nextThreshold, retryCount));
            break;
          }
          ContinueCycle(whole, consumed - 1, before, m, queue, f, Monitor(lastReported, nextThreshold, retryCount), None);
          continue;
        }
        retryCount := 0;
        var p := poll.value;
        if p.status == Stop {
          exit := Stopped;
          HaltCycle(whole, consumed - 1, before, m, queue, f, exit, Monitor(lastReported, nextThreshold, retryCount));
          break;
        }
        if p.status == Play || p.status == Pause {
          if p.progress > lastReported {
            if p.progress != 100 && p.progress >= nextThreshold {
              InterimAppend(t, snapshots, p.progress);
              interim := interim + [Snapshot(t, p.progress)];
              snapshots := snapshots + [p.progress];
              nextThreshold := nextThreshold + f;
              snap := Some(p.progress);
            }
            lastReported := p.progress;
          }
        }
        ContinueCycle(whole, consumed - 1, before, m, queue, f, Monitor(lastReported, nextThreshold, retryCount), snap);
      }
    }

    /**
     * `startMonitoringAndReporting`: the watch, then exactly one final
     * report, whichever way the watch ended.
     */
    method StartMonitoringAndReporting(report: ReportConfig, polls: seq<Option<Progress>>)
      returns (exit: Exit, reports: seq<ReportRequest>)
      ensures var run := Monitoring(Start(report.frequency), polls, report.frequency);
        && exit == run.exit
        && |reports| == |run.snapshots| + 1
        && reports[|reports| - 1] == Final(token)
        && forall k :: 0 <= k < |run.snapshots| ==> reports[k] == Snapshot(token, run.snapshots[k])
    {
      var interim, polled;
      exit, interim, polled := MonitorAndReportProgress(report, polls);
      reports := interim + [Final(token)];
    }
  }

  /** The interim `generateReport` calls for reports taken at `snapshots`, in order. */
  function Interim(t: string, snapshots: seq<int>): (rs: seq<ReportRequest>)
    ensures |rs| == |snapshots|
    ensures forall k :: 0 <= k < |rs| ==> rs[k] == Snapshot(t, snapshots[k])
  {
    seq(|snapshots|, k requires 0 <= k < |snapshots| => Snapshot(t, snapshots[k]))
  }

  /** `n` copies of the request `q`. */
  function Repeat(q: Request, n: nat): (qs: seq<Request>)
    ensures |qs| == n
    ensures forall j :: 0 <= j < n ==> qs[j] == q
  {
    seq(n, _ => q)
  }

  /** One more answer read adds one more request at the end. */
  lemma RepeatAppend(q: Request, n: nat)
    ensures Repeat(q, n + 1) == Repeat(q, n) + [q]
  {
  }

  /** One more report taken adds one more interim call at the end. */
  lemma InterimAppend(t: string, snapshots: seq<int>, p: int)
    ensures Interim(t, snapshots + [p]) == Interim(t, snapshots) + [Snapshot(t, p)]
  {
  }

  /** `requests` alternate between `load` and `restart`, starting with `load`. */
  predicate Alternates(requests: seq<Request>, load: Request, restart: Request) {
    forall j :: 0 <= j < |requests| ==> requests[j] == if j % 2 == 0 then load else restart
  }

  /** The requests of an acquisition alternate: a load, then a restart, and so on. */
  lemma {:induction false} AcquisitionAlternates(x: ScriptExecutor, server: ServerManager,
                                                 loads: seq<Response>, restarts: seq<Response>)
    ensures Alternates(x.GetTokenForFile(server, loads, restarts).requests,
                       x.LoadRequest(), Get(server.serverURL + RestartRoute))
    decreases |loads|
  {
    var a := x.GetTokenForFile(server, loads, restarts);
    var load, restart := x.LoadRequest(), Get(server.serverURL + RestartRoute);
    if loads != [] && !loads[0].Ok? && restarts != [] && restarts[0].Ok? {
      AcquisitionAlternates(x, server, loads[1..], restarts[1..]);
      var rest := x.GetTokenForFile(server, loads[1..], restarts[1..]);
      assert a.requests == [load, restart] + rest.requests;
      forall j | 0 <= j < |a.requests|
        ensures a.requests[j] == if j % 2 == 0 then load else restart
      {
        if j >= 2 {
          assert a.requests[j] == rest.requests[j - 2];
          assert (j - 2) % 2 == j % 2;
        }
      }
    }
  }

  /**
   * A token is acquired exactly at the first load that succeeds, provided
   * every earlier failed load was followed by an acknowledged restart; the
   * token is that answer, trimmed.
   */
  lemma {:induction false} AcquisitionSuccess(x: ScriptExecutor, server: ServerManager,
                                              loads: seq<Response>, restarts: seq<Response>, k: nat)
    requires RetriedBefore(loads, restarts, k) && k < |loads| && loads[k].Ok?
    ensures var a := x.GetTokenForFile(server, loads, restarts);
      a.result == Success(Trim(loads[k].body)) && |a.requests| == 2 * k + 1
    decreases k
  {
    if k > 0 {
      AcquisitionSuccess(x, server, loads[1..], restarts[1..], k - 1);
    }
  }

  /** And conversely: a token only comes from such a series of answers. */
  lemma {:induction false} AcquisitionSuccessShape(x: ScriptExecutor, server: ServerManager,
                                                   loads: seq<Response>, restarts: seq<Response>)
    ensures var a := x.GetTokenForFile(server, loads, restarts);
      var k := |a.requests| / 2;
      a.result.Success? ==>
        RetriedBefore(loads, restarts, k) && k < |loads| && loads[k].Ok? && a.result.value == Trim(loads[k].body)
    decreases |loads|
  {
    var a := x.GetTokenForFile(server, loads, restarts);
    if loads != [] && !loads[0].Ok? && restarts != [] && restarts[0].Ok? {
      AcquisitionSuccessShape(x, server, loads[1..], restarts[1..]);
      var rest := x.GetTokenForFile(server, loads[1..], restarts[1..]);
      if a.result.Success? {
        var k' := |rest.requests| / 2;
        assert a.result == rest.result && |a.requests| == |rest.requests| + 2;
        assert |a.requests| / 2 == k' + 1;
        forall j | 0 <= j < k' + 1 ensures !loads[j].Ok? && restarts[j].Ok? {
          if j > 0 {
            assert loads[j] == loads[1..][j - 1] && restarts[j] == restarts[1..][j - 1];
          }
        }
        assert loads[k' + 1] == loads[1..][k'];
      }
    } else if a.result.Success? {
      assert |a.requests| == 1;
    }
  }

  /**
   * After the first `k` loads failed with acknowledged restarts, a failed
   * load followed by a refused restart throws the invalid-URL error, and one
   * followed by a rejected restart fetch propagates the transport error.
   */
  lemma {:induction false} AcquisitionRefused(x: ScriptExecutor, server: ServerManager,
                                              loads: seq<Response>, restarts: seq<Response>, k: nat)
    requires RetriedBefore(loads, restarts, k) && k < |loads| && k < |restarts| && !loads[k].Ok? && !restarts[k].Ok?
    ensures var a := x.GetTokenForFile(server, loads, restarts);
      && |a.requests| == 2 * k + 2
      && a.result == Failure(if restarts[k].TransportFail? then Transport else InvalidUrlOrPath(x.serverURL))
    decreases k
  {
    if k > 0 {
      AcquisitionRefused(x, server, loads[1..], restarts[1..], k - 1);
    }
  }

  /**
   * There is no bound on the retries: two failed loads, each followed by an
   * acknowledged restart, then a successful load yield its trimmed answer
   * after five requests.
   */
  lemma AcquisitionAfterTwoRestarts(x: ScriptExecutor, server: ServerManager, fail1: Response, fail2: Response,
                                    ack1: Response, ack2: Response, body: string)
    requires !fail1.Ok? && !fail2.Ok? && ack1.Ok? && ack2.Ok?
    ensures var a := x.GetTokenForFile(server, [fail1, fail2, Ok(body)], [ack1, ack2]);
      a.result == Success(Trim(body)) && |a.requests| == 5
  {
    var loads, restarts := [fail1, fail2, Ok(body)], [ack1, ack2];
    assert RetriedBefore(loads, restarts, 2);
    AcquisitionSuccess(x, server, loads, restarts, 2);
  }
}
