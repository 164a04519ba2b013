# TestingWhiz Action, modelled in Dafny

This project models the core of the TestingWhiz GitHub Action. The action
drives a remote TestingWhiz automation server through a fixed sequence:

1. It checks that the server is up.
2. It loads a script to obtain a run token, restarting the server after every
   failed load.
3. It sends the run parameters and starts the run.
4. It polls the run's progress. Each time the progress passes the next
   `frequency`-spaced threshold it requests an interim report, and it requests
   one final report at the end.
5. Each report is written as `var results = <json>;` into
   `data/results.js` of a run directory. That directory was seeded from
   `./ReportTemplate`.

The transport is abstracted away:
- An HTTP answer is `Ok(body) | NotOk(status, body) | TransportFail`. A
  rejected `fetch` is `TransportFail`.
- A progress poll is `Option<Progress>`.
- The answers a server gives are passed in as finite sequences.
- The filesystem is a map from paths (lists of segments) to `File(content)`
  or `Dir` nodes. `FileManager.WellFormed` keeps it a tree.

Modules follow the source files:

| module | source |
|---|---|
| `Types` | config and progress records, `Result`/`Option`, JavaScript's `trim` |
| `Http` | request/answer values, the URL normalisation shared by every constructor |
| `Helper` | `src/util/helper.ts` |
| `FileManager` | `src/service/file-manager.ts` |
| `ServerManager` | `src/service/server-manager.ts` |
| `ProgressMonitor` | specification of the polling loop in `src/service/script-executor.ts` |
| `ScriptExecutor` | `src/service/script-executor.ts` |
| `ReportManager` | `src/service/report-manager.ts` |

How state is modelled:
- Where the source updates fields in place, the model is a class:
  - `FileManager.FileManager` holds the filesystem;
  - `ScriptExecutor.ScriptExecutor` holds the token;
  - `ReportManager.ReportManager` holds the report configuration.
- `ServerManager` never changes after construction, so it is a datatype.
- The polling loop is an imperative method, `MonitorAndReportProgress`. It is
  proved equal to the pure specification `ProgressMonitor.Monitoring`, and
  the properties of the loop are lemmas about that function.
- `copyFolderRecursive` is a recursive method with a loop over the directory
  entries. It is proved to produce exactly the tree `FileManager.IsCopy`
  describes.

Where the code and its documentation disagree, the model follows the code:
- Token acquisition retries for as long as each restart is acknowledged.
  There is no single-retry limit.
- The answer to the params request is ignored. Only a rejected fetch of it
  fails `execute`.
- Progress answers whose status is not play, pause or stop are polled again
  at once.
- The two screenshot flags are sent crossed over:
  - `isFailureScreenshot` carries `captureConditionFailureScreenshot`;
  - `isConditionFailureScreenshot` carries `captureFailureScreenshot`.

  This is kept as written. It may match the server's own naming, so it is not
  claimed as a defect.

## Model

| member | source | states |
|---|---|---|
| Types.Trim | src/service/script-executor.ts:59 | the token is the loaded text with its leading and trailing JavaScript whitespace removed, and neither starts nor ends with whitespace |
| Types.TrimIdempotent | src/service/script-executor.ts:59 | trimming a trimmed token changes nothing |
| Types.TrimUntouched | src/service/script-executor.ts:59 | a text that neither starts nor ends with whitespace is its own trimmed token |
| Http.NormalizeUrl | src/service/server-manager.ts:10 | the server URL ends in `/`; one already ending in `/` is kept, any other gets exactly one `/` appended |
| Http.NormalizeUrlIdempotent | src/service/script-executor.ts:23-24 | normalising twice is normalising once |
| Http.RouteAfterBase | src/service/report-manager.ts:77 | a route appended to the normalised URL is separated from the configured URL by exactly one `/` |
| Http.OkFlag | src/service/server-manager.ts:18 | the result is `response.ok`; a rejected fetch propagates as an error |
| Helper.DecimalString | src/util/helper.ts:4 | `toString` of a non-negative integer is a non-empty run of digits without a leading zero, one digit exactly below 10 |
| Helper.DecimalRoundTrip | src/util/helper.ts:4 | reading back the decimal digits of `n` gives `n` |
| Helper.DecimalLengthFour | src/util/helper.ts:10 | a four-digit year prints as four characters |
| Helper.FormatPart | src/util/helper.ts:4 | padStart(2,'0'): at least two digits that read back as `n`, exactly two below 100, `0` then the digit below 10 |
| Helper.Hour12 | src/util/helper.ts:11 | `h % 12 \|\| 12` lies in 1..12 and agrees with `h` modulo 12 |
| Helper.Hour12Examples | src/util/helper.ts:11 | 0 and 12 read 12, 13 reads 1, 23 reads 11 |
| Helper.GenerateTimestamp | src/util/helper.ts:6-15 | the timestamp consists of digits and `_` only |
| Helper.StampOffsets | src/util/helper.ts:14 | fields of widths 2, 2, 4, `_`, 2, 2, 2 joined together sit at offsets 0, 2, 4, 8, 9, 11, 13 of a 15-character string |
| Helper.TimestampLayout | src/util/helper.ts:8-14 | with a four-digit year the padded day, month+1, year, hour, minutes and seconds sit at those fixed offsets |
| Helper.TimestampRoundTrip | src/util/helper.ts:8-14 | with a four-digit year: 15 characters, `_` at index 8, and the fixed-width fields read back as day, month+1, year, 12-hour hour, minutes, seconds |
| FileManager.VarAssignment | src/service/file-manager.ts:26 | the file text is `var `, the variable name, ` = `, the data and `;`: eight characters more than name and data together |
| FileManager.VarAssignmentRoundTrip | src/service/file-manager.ts:26 | stripping `var <name> = ` and the final `;` recovers the data written |
| FileManager.VarAssignmentInjective | src/service/file-manager.ts:26 | different data never give the same file content |
| FileManager.WriteFile | src/service/file-manager.ts:27 | writeFile succeeds iff the parent is a directory and the path is not one; then the file holds exactly the content, no other path changes, and the tree stays a tree |
| FileManager.Mkdirp | src/service/file-manager.ts:31 | recursive mkdir adds `dest` and its missing ancestors as directories and changes nothing else |
| FileManager.MkdirpWellFormed | src/service/file-manager.ts:31 | recursive mkdir keeps the filesystem a tree |
| FileManager.FileManager.PathExists | src/service/file-manager.ts:11-13 | true iff something, file or directory, is at the path; all its ancestors are then directories |
| FileManager.FileManager.WriteVariableToFile | src/service/file-manager.ts:21-28 | the file holds `var <name> = <data>;`, replacing what was there; a rejected write changes nothing and reports the error |
| FileManager.Children | src/service/file-manager.ts:32 | `readdir(src)` lists exactly the names `c` with an entry at `src/c` |
| FileManager.FileManager.CopyFolderRecursive | src/service/file-manager.ts:30-44 | on success the tree is exactly `IsCopy` (dest created, every entry below src replicated below dest, all else kept); it succeeds exactly when the copy is allowed (src a directory, dest creatable, no file of src meeting a directory below dest or the reverse), so a file landing on a directory makes it fail; nothing outside dest's subtree and its new ancestors changes; a failed mkdir changes nothing; a missing or non-directory src fails with ENOENT/ENOTDIR after the mkdir |
| FileManager.FileManager.CopyEntry | src/service/file-manager.ts:34-43 | one directory entry: a sub-directory is copied recursively, a file is written with the same content; on success the tree is the partial copy extended by that entry, on failure nothing outside dest's subtree changed and the copy was not allowed |
| FileManager.AllowedFromEntries | src/service/file-manager.ts:34-43 | when every entry `readdir(src)` lists could be copied without meeting an entry of the other kind, the whole copy is allowed |
| FileManager.CopyReplicatesSource | src/service/file-manager.ts:34-43 | after a copy, every entry at relative path r below src exists at dest/r with the same node (same content for files) |
| FileManager.CopyCreatesDestination | src/service/file-manager.ts:31 | after a copy dest is a directory, whether or not it existed before |
| FileManager.CopyKeepsSource | src/service/file-manager.ts:34-43 | the source tree is unchanged by a copy |
| FileManager.CopyKeepsOthers | src/service/file-manager.ts:34-43 | entries with no counterpart in src keep their node |
| FileManager.CopyDeterministic | src/service/file-manager.ts:34 | the resulting tree does not depend on the order readdir lists entries in |
| FileManager.FreshDestinationCopyAllowed | src/service/file-manager.ts:31-43 | copying a directory into a destination that does not exist yet (and can be created) always goes through |
| ServerManager.ServerManager.New | src/service/server-manager.ts:9-11 | the base URL ends in `/`, extends the configured URL by at most one character, and equals it when it already ended in `/` |
| ServerManager.ServerManager.CheckServer | src/service/server-manager.ts:13-19 | one GET of exactly the base URL; the result is `response.ok`, a rejected fetch propagates |
| ServerManager.ServerManager.RestartTWServer | src/service/server-manager.ts:21-28 | one GET of base + `restart-tw`, no retry; result `response.ok`, a rejected fetch propagates |
| ServerManager.ServerManager.DisposeMemory | src/service/server-manager.ts:30-37 | one GET of base + `despose?token=` + token; result `response.ok`, a rejected fetch propagates |
| ServerManager.RoutesFollowConfiguredUrl | src/service/server-manager.ts:10-31 | each route URL is the configured URL, one `/` only if it lacked one, then the route |
| ServerManager.NewIdempotent | src/service/server-manager.ts:10 | building the service from its own normalised URL gives the same service |
| ServerManager.DisposeTokenRecoverable | src/service/server-manager.ts:31 | the token can be read back from the dispose URL |
| ServerManager.RoutesDistinct | src/service/server-manager.ts:14-31 | the check, restart and dispose URLs never coincide |
| ProgressMonitor.Start | src/service/script-executor.ts:155-157 | before the first poll nothing is reported, the first threshold is `frequency` and the failure count is 0 |
| ProgressMonitor.Step | src/service/script-executor.ts:160-191 | one cycle: a failed poll adds one to the failure count and changes nothing else, halting at the fifth; a good poll resets it; stop halts; a report fires iff play/pause, p > last, p != 100, p >= threshold, and then the threshold moves by `frequency`; `lastReportedProgress` only rises; other statuses change nothing |
| ProgressMonitor.Monitoring | src/service/script-executor.ts:159-192 | the watch reads at most the given answers; when it ends out of answers it has read all of them; with no answers it ends out of answers; a watch that stops or is abandoned has read at least one |
| ProgressMonitor.MonitoringFirst | src/service/script-executor.ts:159-191 | the watch over a non-empty list of answers is the first cycle followed by the watch over the rest, or stops after one answer when that cycle halts |
| ProgressMonitor.HaltCycle | src/service/script-executor.ts:162-172 | when the next answer halts the loop, the watch ends there with the reports so far and one more answer read |
| ProgressMonitor.ContinueCycle | src/service/script-executor.ts:159-191 | when the next answer does not halt the loop, the rest of the watch continues from the new counters, one answer further, with the cycle's report appended |
| ProgressMonitor.LeadingFailures | src/service/script-executor.ts:162-165 | the length of the run of failed polls at the head of the answers: all of them failed and the next one, if any, succeeded |
| ProgressMonitor.FailuresOnlyCount | src/service/script-executor.ts:162-165 | fewer than five leading failed polls only raise the failure count: the watch goes on from there with no report |
| ProgressMonitor.RetriesAfterAppend | src/service/script-executor.ts:162-168 | a successful poll resets the failure counter to 0, a failed one adds one |
| ProgressMonitor.ExitIsFirstHalt | src/service/script-executor.ts:162-172 | the loop ends at the first answer that is stop or the fifth consecutive failure, no earlier answer halts it, and the final counter is the run of trailing failures |
| ProgressMonitor.MonitoringStopsAtExit | src/service/script-executor.ts:163-172 | answers after the exit are never read |
| ProgressMonitor.AbandonedAfterFiveFailures | src/service/script-executor.ts:153-165 | five failed polls in a row from a clean counter abandon the watch with no report |
| ProgressMonitor.FailureStreakResets | src/service/script-executor.ts:162-168 | four failures, a good poll, four failures do not abandon the watch |
| ProgressMonitor.TenPercentOpening | src/service/script-executor.ts:155-191 | frequency 10, answers 5, 12, 12: one report at 12, the threshold moves to 20, and the rest of the watch goes on from last 12 |
| ProgressMonitor.ThresholdTracksSnapshots | src/service/script-executor.ts:180-184 | the threshold equals its start plus `frequency` times the number of reports taken |
| ProgressMonitor.ThresholdFromStart | src/service/script-executor.ts:156-184 | from the start, `nextThreshold == frequency * (1 + reports taken)` |
| ProgressMonitor.SnapshotsAboveLast | src/service/script-executor.ts:176-186 | `lastReportedProgress` never decreases, and every report lies above the starting value and at most the final one |
| ProgressMonitor.SnapshotsMeetThresholds | src/service/script-executor.ts:180 | the k-th report is not at 100 and is at or beyond the k-th threshold |
| ProgressMonitor.SnapshotsIncrease | src/service/script-executor.ts:176-186 | reports are taken at strictly increasing progress values |
| ProgressMonitor.SnapshotsBounded | src/service/script-executor.ts:170-183 | every report is at most the largest progress the server sent |
| ProgressMonitor.SnapshotCountBound | src/service/script-executor.ts:180-184 | with a positive frequency and progress at most 100, `frequency * reports < 100` |
| ProgressMonitor.ThresholdsBelowHundred | src/service/script-executor.ts:180-184 | reports meeting thresholds `frequency`, `2*frequency`, ... and never at 100 satisfy `frequency * count < 100` |
| ProgressMonitor.ScenarioEveryTenPercent | src/service/script-executor.ts:155-192 | frequency 10, answers 5, 12, 12, 25, 100, stop: reports at 12 and 25 only, stopped after six answers |
| ProgressMonitor.IdleAnswersChangeNothing | src/service/script-executor.ts:174-191 | answers with status idle, load or next are read through without a report or exit; they change nothing except resetting the failure count |
| ScriptExecutor.RunParameters | src/service/script-executor.ts:80-104 | interval is stepInterval when given and >= 0, else 0; RBT enabled iff some priority; screenshot flags crossed over; all other fields carried as configured |
| ScriptExecutor.ScriptExecutor.constructor | src/service/script-executor.ts:22-26 | server and base URLs normalised to end in `/` (base only when given); no token yet |
| ScriptExecutor.ScriptExecutor.LoadRequest | src/service/script-executor.ts:42-50 | the load always POSTs the target's file path with file type `twizx` |
| ScriptExecutor.ScriptExecutor.GetTokenForFile | src/service/script-executor.ts:40-72 | a token comes after an odd number of requests, any thrown error other than running out of answers after an even number (at least two) |
| ScriptExecutor.AcquisitionAlternates | src/service/script-executor.ts:42-64 | the requests alternate: the full load request, then a restart, and so on |
| ScriptExecutor.AcquisitionSuccess | src/service/script-executor.ts:52-64 | after k failed loads each followed by an acknowledged restart, an ok load yields its trimmed body after 2k+1 requests |
| ScriptExecutor.AcquisitionSuccessShape | src/service/script-executor.ts:59-64 | conversely a token is always the trimmed body of the first ok load, every earlier load having failed and been followed by an acknowledged restart |
| ScriptExecutor.AcquisitionRefused | src/service/script-executor.ts:61-70 | a failed load followed by a refused restart throws the invalid-URL error; a rejected restart fetch propagates |
| ScriptExecutor.AcquisitionAfterTwoRestarts | src/service/script-executor.ts:40-72 | retries are not limited to one: any two failed loads, each followed by an acknowledged restart, then an ok load give its trimmed body after five requests |
| ScriptExecutor.ScriptExecutor.ParamsRequest | src/service/script-executor.ts:79-110 | POST to params?token= with the run parameters |
| ScriptExecutor.ScriptExecutor.PlayRequest | src/service/script-executor.ts:116 | GET of play?token= |
| ScriptExecutor.ScriptExecutor.ProgressRequest | src/service/script-executor.ts:209-216 | GET of progress?token=; the polling loop sends one per answer it reads |
| ScriptExecutor.ScriptExecutor.Execute | src/service/script-executor.ts:28-38 | load, then params, then play; an acquisition error leaves the token unchanged; the params answer is ignored unless rejected; success iff token acquired, params delivered and play ok; a non-ok play throws its status; a rejected play fetch propagates; the token acquired is stored and returned |
| ScriptExecutor.ScriptExecutor.MonitorAndReportProgress | src/service/script-executor.ts:147-193 | the loop's exit is that of `Monitoring` from the start counters; its `generateReport` calls are one interim report per report `Monitoring` takes, in order, with the run token; it sends exactly one progress request per answer `Monitoring` reads |
| ScriptExecutor.ScriptExecutor.StartMonitoringAndReporting | src/service/script-executor.ts:129-145 | after the watch, however it ended, exactly one final report follows the interim ones |
| ReportManager.PrefixOrEmpty | src/service/report-manager.ts:29-36 | `prefix ? prefix : ''`: empty exactly when the prefix is unset or empty, otherwise the prefix itself |
| ReportManager.NonEmpty | src/service/report-manager.ts:33-38 | path.join drops empty segments: the result is no longer than its input, holds only non-empty input segments and every non-empty one |
| ReportManager.NonEmptySingle | src/service/report-manager.ts:33-38 | a single segment is kept iff it is non-empty |
| ReportManager.NonEmptyAppend | src/service/report-manager.ts:33-38 | dropping empty segments distributes over concatenation, so the kept segments keep their order and repetitions |
| ReportManager.RunDirectory | src/service/report-manager.ts:26-38 | the run directory lies strictly below the configured root and ends in `Report_<timestamp>` |
| ReportManager.RunDirectoryShape | src/service/report-manager.ts:27-38 | for every prefix and folder time stamp: root, then the non-empty prefix and `Report_<folder>` only when a non-empty folder time stamp is given, then the non-empty prefix, then `Report_<timestamp>`; an unset or empty prefix with no folder time stamp gives root and `Report_<timestamp>` |
| ReportManager.RunDirectoryNests | src/service/report-manager.ts:33-38 | init is not idempotent: a second call nests a new run directory under the first |
| ReportManager.InitDecision | src/service/report-manager.ts:40-54 | as written: copy unless both template and run directory exist; no template always copies |
| ReportManager.IntendedInitDecision | src/service/report-manager.ts:40-54 | corrected: copy iff the template exists and the run directory does not |
| ReportManager.DecisionsDifferWhenTemplateMissing | src/service/report-manager.ts:40 | the two decisions differ exactly when the template is missing |
| ReportManager.MissingTemplateIsCopied | src/service/report-manager.ts:40-44 | with no template, init as written copies anyway, and that copy is not allowed |
| ReportManager.IntendedCopyHasTemplate | src/service/report-manager.ts:46-50 | a copy the corrected decision chooses is always allowed |
| ReportManager.ResultsFile | src/service/report-manager.ts:60-64 | results go to `<run directory>/data/results.js`: the run directory, then `data`, then `results.js` |
| ReportManager.ReportInterim | src/service/report-manager.ts:76-84 | the text on a 2xx answer, nothing otherwise; a rejected fetch propagates |
| ReportManager.WrittenResultsReadBack | src/service/report-manager.ts:60-70 | a written results file reads back as the fetched text |
| ReportManager.ReportManager.constructor | src/service/report-manager.ts:15-23 | server URL normalised; configuration and file manager kept |
| ReportManager.ReportManager.Init | src/service/report-manager.ts:25-55 | the report path becomes the run directory; both existing: throws template-not-found and changes nothing; otherwise copies the template there, succeeding exactly when that copy is allowed; no template: fails with ENOENT after creating the run directory |
| ReportManager.ReportManager.InitCorrected | src/service/report-manager.ts:25-55 | missing template or existing run directory: throws template-not-found, nothing changes; template directory and a new run directory: the copy succeeds; it succeeds only then |
| ReportManager.ReportManager.ApplyPlan | src/service/report-manager.ts:40-54 | refusing throws template-not-found and changes nothing; copying leaves the template copied to the run directory and succeeds exactly when that copy is allowed |
| ReportManager.ReportManager.ReportInterimRequest | src/service/report-manager.ts:77 | GET of base + `report_interim?token=` + token |
| ReportManager.ReportManager.GenerateReport | src/service/report-manager.ts:57-74 | a non-ok or empty answer writes nothing; otherwise `var results = <text>;` is written to data/results.js; a write error is swallowed; only a rejected fetch propagates |

## Left out

- Timers: the 3-minute restart cooldown, the 5 s and 2 s poll cadence, the 2 s settle after copying and `reportConfig.interval`. They are not observable in the model.
- `fetch`, HTTP headers, and the JSON parsing of progress answers. A progress answer that cannot be parsed is a failed poll (`None`).
- Progress as a floating-point number: it is an integer here.
- The clock: `generateTimestamp` takes the date components instead of reading `new Date()`.
- Console logging.
- The commented-out `stopScript` route.
- The `Token` getter.
- src/main.ts, the wiring:
  - checking the server before running;
  - the catch-all `setFailed`;
  - the `reportManager.init()` that is not awaited, which lets the copy race with the run (a concurrency concern).
- The GitHub input adapter: only its defaults are kept as constants (frequency 10, browser `Google Chrome`, target type `filePath`). Parsing with `parseInt` is not modelled. Email and SMTP configuration types are not used by any modelled logic.
- Aliasing: `init` replaces the report path on the same configuration object the executor later receives. The model keeps the configuration inside `ReportManager` and passes the report configuration to the executor separately.
- The final `generateReport` is not awaited, so its outcome never reaches the caller. The model returns the request sequence instead.
- A mid-loop interim report whose fetch is rejected would abort the watch. `MonitorAndReportProgress` records the report request but not its outcome.
- Paths:
  - no `.`/`..` normalisation;
  - no separators inside a configured prefix or root;
  - no absolute paths;
  - `./ReportTemplate` is the single segment `ReportTemplate`.
- Filesystem:
  - no permissions, symlinks or other node kinds;
  - copyFile replaces a file exactly as writeFile does;
  - a write whose parent is missing fails with `NoEntry` even when a further ancestor is a file, where Node reports ENOTDIR; no contract states error codes for writes.
  - readdir order is free, and the result does not depend on it (`CopyDeterministic`).
- FileManager.FileManager.CopyFolderRecursive requires `Disjoint(src, dest)`, so three overlapping cases are not modelled:
  - `dest` strictly below `src`: the copy keeps finding the directory it just created and descends until the path is too long for the system, so it does not end normally;
  - `dest == src`: each file would be copied onto itself;
  - `dest` a proper ancestor of `src`: the entries of `src` are copied up into `dest`, and may overwrite `src` itself while it is being read.
  In the source the last two terminate, but the model does not describe the tree they leave behind. `init` cannot reach the last two: its destination ends in a `Report_<timestamp>` segment, so it is neither `./ReportTemplate` nor above it. It reaches the first whenever the run directory lies below `./ReportTemplate`: a report root at or inside it, or root `.` with prefix `ReportTemplate`.
- ReportManager.ReportManager.Init requires the run directory to lie outside `./ReportTemplate`, because the copy it starts needs `Disjoint`.
- `OutOfResponses` and `OutOfPolls` only mean that the finite script of server answers ran out. The source waits for further answers instead.
- ScriptExecutor.ScriptExecutor.GetTokenForFile does not model an error thrown while reading a response body.

## Findings

| source | as written | input that shows it | evidently intended | confidence | as-written member | corrected member |
|---|---|---|---|---|---|---|
| src/service/report-manager.ts:40-54 | the first test is inverted: when `./ReportTemplate` is missing, `init` copies it, and it throws "Report Template not Found" only when the template and the run directory both exist | no `./ReportTemplate` and a fresh run directory: the run directory is created empty and `init` fails with ENOENT from readdir; "Report Template not Found" is never reported for a missing template | throw "Report Template not Found" when the template is missing; copy it into the run directory when the template exists and the run directory is new | medium, not executed | ReportManager.MissingTemplateIsCopied | ReportManager.ReportManager.InitCorrected |
