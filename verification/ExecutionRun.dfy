/** internal/executionrun/run.go: one foreground run, from launch plan to bound report. */
module ExecutionRun {
  import opened Protocol
  import opened ArtifactPattern
  import opened ExecutionPolicy
  import opened OutputCapture

  /** Collected content, keyed by group and path, until the response has streamed it. */
  class ArtifactBundle {
    const contents: map<string, bytes>
    var handed: set<string>
    var closed: bool

    constructor (contents: map<string, bytes>)
      ensures this.contents == contents && handed == {} && !closed
    {
      this.contents, handed, closed := contents, {}, false;
    }

    method Open(group: string, path: string) returns (content: Option<bytes>)
      modifies this`handed
      ensures var key := BundleKey(group, path);
              if closed || key !in contents || key in old(handed)
              then content == None && handed == old(handed)
              else content == Some(contents[key]) && handed == old(handed) + {key}
    {
      var key := BundleKey(group, path);
      if closed || key !in contents || key in handed { return None; }
      handed := handed + {key};
      content := Some(contents[key]);
    }

    method Close()
      modifies this`closed
      ensures closed
    {
      closed := true;
    }
  }

  datatype Output = Output(report: ExecutionReport, stdout: bytes, stderr: bytes, bundle: ArtifactBundle?)

  /** validateOutput, the writer's own precondition on what it streams. */
  ghost predicate OutputValid(lib: Library, output: Output)
  {
    && ReportValid(lib, output.report)
    && |output.stdout| == output.report.stdout.retainedBytes && |output.stderr| == output.report.stderr.retainedBytes
    && (!output.report.stdout.truncated ==> Digest(lib, output.stdout) == output.report.stdout.sha256)
    && (!output.report.stderr.truncated ==> Digest(lib, output.stderr) == output.report.stderr.sha256)
    && (output.report.artifacts.Files() == [] <==> output.bundle == null)
  }

  datatype RunError = InvalidLaunchPlan | ClockRegression | InvalidExecutionReport

  datatype RunResult = Produced(output: Output) | Refused(error: RunError)

  // ----- The outside world of one run -----

  /** Exit may be a nil channel; TerminateTree may fail. */
  datatype Process = Process(hasExitChannel: bool, terminates: bool)

  datatype Timer = NoTimer | NoTimerChannel | ArmedTimer

  /** Which channel operation of awaitProcess's select completes. */
  datatype Event =
    | ExitReceived(open: bool, runtimeError: bool, code: int)
    | ContextDone
    | TimerFired(contextDone: bool)

  /** What the collector returns when it is asked. */
  datatype Collection = Collection(failed: bool, manifest: ArtifactManifest, bundle: ArtifactBundle?)

  datatype World = World(
    startedAt: int, finishedAt: int, startFails: bool, process: Option<Process>,
    stdoutChunks: seq<bytes>, stderrChunks: seq<bytes>, timer: Timer, event: Event, collector: Option<Collection>)

  datatype Awaited = Awaited(status: CommandStatus, exitCode: Option<int>, safeToCollect: bool)

  function AwaitProcess(process: Process, timer: Timer, event: Event): Awaited
  {
    if !process.hasExitChannel || timer != ArmedTimer then Awaited(RuntimeFailed, None, process.terminates)
    else
      match event
      case ExitReceived(open, runtimeError, code) =>
        if !open || runtimeError || code < 0 || code > MAX_EXIT_CODE then Awaited(RuntimeFailed, None, true)
        else if code == 0 then Awaited(Completed, Some(code), true)
        else Awaited(Failed, Some(code), true)
      case ContextDone =>
        if process.terminates then Awaited(Cancelled, None, true) else Awaited(RuntimeFailed, None, false)
      case TimerFired(contextDone) =>
        if !process.terminates then Awaited(RuntimeFailed, None, false)
        else Awaited(if contextDone then Cancelled else TimedOut, None, true)
  }

  /** Every outcome is reportable, and artifacts are collected only once the tree is known to be gone. */
  lemma AwaitedOutcome(process: Process, timer: Timer, event: Event)
    ensures var awaited := AwaitProcess(process, timer, event);
            && CommandOutcomeValid(awaited.status, awaited.exitCode)
            && (awaited.safeToCollect <==>
                  process.terminates || (process.hasExitChannel && timer == ArmedTimer && event.ExitReceived?))
            && (awaited.exitCode.Some? ==> event.ExitReceived? && awaited.exitCode.value == event.code)
  {
  }

  // ----- Artifact manifests -----

  function SelectionOmissions(selection: ArtifactSelection, count: nat): seq<ArtifactOmission>
    requires count <= |selection.paths|
  {
    seq(count, k requires 0 <= k < count => ArtifactOmission(selection.name, selection.paths[k], CollectionFailure))
  }

  function FailedOmissions(selections: seq<ArtifactSelection>): seq<ArtifactOmission>
  {
    if selections == [] then []
    else
      var last := selections[|selections| - 1];
      FailedOmissions(selections[..|selections| - 1]) + SelectionOmissions(last, |last.paths|)
  }

  function FailedManifest(selections: seq<ArtifactSelection>): ArtifactManifest
  {
    if selections == [] then ArtifactManifest(NotRequested, Some([]), Some([]))
    else ArtifactManifest(ArtifactStatus.CollectionFailed, Some([]), Some(FailedOmissions(selections)))
  }

  method FailedArtifactManifest(selections: seq<ArtifactSelection>) returns (manifest: ArtifactManifest)
    ensures manifest == FailedManifest(selections)
  {
    if |selections| == 0 { return ArtifactManifest(NotRequested, Some([]), Some([])); }
    var omissions: seq<ArtifactOmission> := [];
    for i := 0 to |selections|
      invariant omissions == FailedOmissions(selections[..i])
    {
      var selection := selections[i];
      for j := 0 to |selection.paths|
        invariant omissions == FailedOmissions(selections[..i]) + SelectionOmissions(selection, j)
      {
        omissions := omissions + [ArtifactOmission(selection.name, selection.paths[j], CollectionFailure)];
      }
      assert selections[..i + 1][..i] == selections[..i];
    }
    assert selections[..|selections|] == selections;
    manifest := ArtifactManifest(ArtifactStatus.CollectionFailed, Some([]), Some(omissions));
  }

  /** The patterns the groups map ends up holding for a name: those of its last selection. */
  function PatternsOf(selections: seq<ArtifactSelection>, group: string): Option<seq<string>>
  {
    if selections == [] then None
    else
      var last := selections[|selections| - 1];
      if last.name == group then Some(last.paths) else PatternsOf(selections[..|selections| - 1], group)
  }

  /** Some pattern of the file's group selects it, and none of that group's patterns is malformed on it. */
  predicate FileAllowed(lib: Library, selections: seq<ArtifactSelection>, group: string, path: string)
  {
    match PatternsOf(selections, group)
    case None => false
    case Some(patterns) =>
      && (forall k :: 0 <= k < |patterns| ==> MatchOutcome(lib.pathMatch, patterns[k], path) != BadPattern)
      && exists k :: 0 <= k < |patterns| && MatchOutcome(lib.pathMatch, patterns[k], path) == Hit
  }

  predicate OmissionAllowed(selections: seq<ArtifactSelection>, group: string, pattern: string)
  {
    var patterns := PatternsOf(selections, group);
    patterns.Some? && pattern in patterns.value
  }

  /** What artifactCollectionAllowed accepts, without its maps. */
  predicate CollectionAllowed(lib: Library, manifest: ArtifactManifest, selections: seq<ArtifactSelection>)
  {
    if selections == [] then manifest.status == NotRequested && manifest.Files() == [] && manifest.Omissions() == []
    else
      && manifest.status != NotRequested
      && (forall k :: 0 <= k < |manifest.Files()| ==>
            FileAllowed(lib, selections, manifest.Files()[k].group, manifest.Files()[k].path))
      && (forall k :: 0 <= k < |manifest.Omissions()| ==>
            OmissionAllowed(selections, manifest.Omissions()[k].group, manifest.Omissions()[k].pattern))
  }

  method PatternsByGroup(selections: seq<ArtifactSelection>) returns (groups: map<string, seq<string>>)
    ensures forall group :: group in groups <==> PatternsOf(selections, group).Some?
    ensures forall group :: group in groups ==> groups[group] == PatternsOf(selections, group).value
    ensures groups == map[] <==> selections == []
  {
    groups := map[];
    for i := 0 to |selections|
      invariant forall group :: group in groups <==> PatternsOf(selections[..i], group).Some?
      invariant forall group :: group in groups ==> groups[group] == PatternsOf(selections[..i], group).value
      invariant groups == map[] <==> i == 0
    {
      groups := groups[selections[i].name := selections[i].paths];
      assert selections[i].name in groups;
      assert selections[..i + 1][..i] == selections[..i];
    }
    assert selections[..|selections|] == selections;
  }

  method MatchesGroup(lib: Library, patterns: seq<string>, path: string) returns (matched: bool, malformed: bool)
    ensures malformed <==>
              exists k :: 0 <= k < |patterns| && MatchOutcome(lib.pathMatch, patterns[k], path) == BadPattern
    ensures !malformed ==>
              (matched <==> exists k :: 0 <= k < |patterns| && MatchOutcome(lib.pathMatch, patterns[k], path) == Hit)
  {
    matched, malformed := false, false;
    for i := 0 to |patterns|
      invariant !malformed
      invariant forall k :: 0 <= k < i ==> MatchOutcome(lib.pathMatch, patterns[k], path) != BadPattern
      invariant matched <==> exists k :: 0 <= k < i && MatchOutcome(lib.pathMatch, patterns[k], path) == Hit
    {
      var outcome, _ := Match(lib.pathMatch, patterns[i], path);
      if outcome == BadPattern { return false, true; }
      matched := matched || outcome == Hit;
    }
  }

  method ArtifactCollectionAllowed(lib: Library, manifest: ArtifactManifest, selections: seq<ArtifactSelection>)
    returns (allowed: bool)
    ensures allowed <==> CollectionAllowed(lib, manifest, selections)
  {
    var groups := PatternsByGroup(selections);
    if groups == map[] {
      return manifest.status == NotRequested && |manifest.Files()| == 0 && |manifest.Omissions()| == 0;
    }
    if manifest.status == NotRequested { return false; }
    var files, omissions := manifest.Files(), manifest.Omissions();
    for i := 0 to |files|
      invariant forall k :: 0 <= k < i ==> FileAllowed(lib, selections, files[k].group, files[k].path)
    {
      if files[i].group !in groups { return false; }
      var matched, malformed := MatchesGroup(lib, groups[files[i].group], files[i].path);
      if malformed || !matched { return false; }
    }
    for i := 0 to |omissions|
      invariant forall k :: 0 <= k < i ==> OmissionAllowed(selections, omissions[k].group, omissions[k].pattern)
    {
      if omissions[i].group !in groups || omissions[i].pattern !in groups[omissions[i].group] { return false; }
    }
    allowed := true;
  }

  lemma {:induction false} PatternsOfHasGroup(selections: seq<ArtifactSelection>, group: string)
    ensures PatternsOf(selections, group).Some? <==> HasGroup(selections, group)
  {
    if selections != [] {
      var front, last := selections[..|selections| - 1], selections[|selections| - 1];
      PatternsOfHasGroup(front, group);
      if HasGroup(front, group) {
        var k :| 0 <= k < |front| && front[k].name == group;
        assert selections[k].name == group;
      }
      if HasGroup(selections, group) && last.name != group {
        var k :| 0 <= k < |selections| && selections[k].name == group;
        assert front[k].name == group;
      }
    }
  }

  lemma {:induction false} FailedOmissionsGroups(selections: seq<ArtifactSelection>)
    ensures forall k :: 0 <= k < |FailedOmissions(selections)| ==>
              HasGroup(selections, FailedOmissions(selections)[k].group)
  {
    if selections != [] {
      var front, last := selections[..|selections| - 1], selections[|selections| - 1];
      FailedOmissionsGroups(front);
      forall k | 0 <= k < |FailedOmissions(selections)|
        ensures HasGroup(selections, FailedOmissions(selections)[k].group)
      {
        if k < |FailedOmissions(front)| {
          var g :| 0 <= g < |front| && front[g].name == FailedOmissions(front)[k].group;
          assert selections[g].name == FailedOmissions(selections)[k].group;
        } else {
          assert selections[|selections| - 1].name == FailedOmissions(selections)[k].group;
        }
      }
    }
  }

  /** Whatever an allowed or failed manifest lists belongs to a requested group. */
  ghost predicate ManifestBound(manifest: ArtifactManifest, selections: seq<ArtifactSelection>)
  {
    && (selections == [] <==> manifest.status == NotRequested)
    && (forall k :: 0 <= k < |manifest.Files()| ==> HasGroup(selections, manifest.Files()[k].group))
    && (forall k :: 0 <= k < |manifest.Omissions()| ==> HasGroup(selections, manifest.Omissions()[k].group))
  }

  lemma AllowedIsBound(lib: Library, manifest: ArtifactManifest, selections: seq<ArtifactSelection>)
    requires CollectionAllowed(lib, manifest, selections) || manifest == FailedManifest(selections)
    ensures ManifestBound(manifest, selections)
  {
    FailedOmissionsGroups(selections);
    forall group ensures PatternsOf(selections, group).Some? <==> HasGroup(selections, group) {
      PatternsOfHasGroup(selections, group);
    }
  }

  // ----- The run -----

  function AssembleReport(lib: Library, plan: LaunchPlan, sha: string, status: CommandStatus, exitCode: Option<int>,
                          startedAt: int, finishedAt: int, stdout: Snapshot, stderr: Snapshot,
                          artifacts: ArtifactManifest): ExecutionReport
    requires startedAt <= finishedAt
  {
    ExecutionReport(
      VERSION, plan.requestId, plan.requestDigest, plan.attemptId, sha, status, exitCode,
      lib.formatTime(startedAt), lib.formatTime(finishedAt), DurationMilliseconds(startedAt, finishedAt),
      stdout.metadata, stderr.metadata, artifacts)
  }

  /** The report that is validated before anything is started. */
  function PreflightReport(lib: Library, plan: LaunchPlan, sha: string, startedAt: int): ExecutionReport
    requires 0 <= plan.maxOutputBytes
  {
    var before := SnapshotOf(lib, plan.maxOutputBytes, []).value;
    AssembleReport(lib, plan, sha, RuntimeFailed, None, startedAt, startedAt, before, before,
                   FailedManifest(plan.artifacts))
  }

  /** shellinvoke.Build */
  predicate InvocationBuilds(plan: LaunchPlan)
  {
    plan.executable != "" && plan.script != "" && plan.shell != UnknownShell
  }

  ghost predicate PlanAccepted(lib: Library, plan: LaunchPlan, sha: string, startedAt: int)
  {
    && MIN_TIMEOUT_SECONDS <= plan.timeoutSeconds <= MAX_TIMEOUT_SECONDS
    && MIN_OUTPUT_BYTES <= plan.maxOutputBytes <= MAX_OUTPUT_BYTES
    && InvocationBuilds(plan)
    && ReportValid(lib, PreflightReport(lib, plan, sha, startedAt))
  }

  /** Once preflight has passed, only the two times are left open: with the failed manifest, any later report is
      valid exactly when both can be formatted. */
  lemma FallbackValidity(lib: Library, plan: LaunchPlan, sha: string, checkedAt: int, startedAt: int, finishedAt: int,
                         status: CommandStatus, exitCode: Option<int>, stdout: bytes, stderr: bytes)
    requires Lawful(lib) && MIN_OUTPUT_BYTES <= plan.maxOutputBytes <= MAX_OUTPUT_BYTES
    requires ReportValid(lib, PreflightReport(lib, plan, sha, checkedAt))
    requires startedAt <= finishedAt && CommandOutcomeValid(status, exitCode)
    requires |stdout| <= MAX_INT64 && |stderr| <= MAX_INT64
    ensures ReportHeaderValid(lib, AssembleReport(lib, plan, sha, status, exitCode, startedAt, finishedAt,
              SnapshotOf(lib, plan.maxOutputBytes, stdout).value, SnapshotOf(lib, plan.maxOutputBytes, stderr).value,
              FailedManifest(plan.artifacts)))
            <==> Representable(startedAt) && Representable(finishedAt)
    ensures ManifestValid(lib, FailedManifest(plan.artifacts)) && Representable(checkedAt)
  {
    SnapshotIsValid(lib, plan.maxOutputBytes, stdout);
    SnapshotIsValid(lib, plan.maxOutputBytes, stderr);
    assert CanonicalTime(lib, lib.formatTime(checkedAt)).Some?;
  }

  /** The collector was asked, and what it returned may be reported. */
  ghost predicate Usable(lib: Library, plan: LaunchPlan, collector: Option<Collection>)
  {
    && plan.artifacts != [] && collector.Some? && !collector.value.failed
    && CollectionAllowed(lib, collector.value.manifest, plan.artifacts)
    && (collector.value.manifest.Files() != [] ==> collector.value.bundle != null)
  }

  method CollectArtifacts(lib: Library, plan: LaunchPlan, collector: Option<Collection>)
    returns (manifest: ArtifactManifest, bundle: ArtifactBundle?)
    modifies if collector.Some? && collector.value.bundle != null then {collector.value.bundle} else {}
    ensures manifest == if Usable(lib, plan, collector) then collector.value.manifest
              else FailedManifest(plan.artifacts)
    ensures bundle == if Usable(lib, plan, collector) && manifest.Files() != [] then collector.value.bundle else null
    ensures collector.Some? && collector.value.bundle != null ==>
              if plan.artifacts == [] || bundle != null then unchanged(collector.value.bundle)
              else collector.value.bundle.closed
  {
    bundle := null;
    if |plan.artifacts| == 0 {
      manifest := FailedArtifactManifest([]);
      return;
    }
    if collector.None? {
      manifest := FailedArtifactManifest(plan.artifacts);
      return;
    }
    var collection := collector.value;
    var allowed := ArtifactCollectionAllowed(lib, collection.manifest, plan.artifacts);
    if collection.failed || !allowed || (|collection.manifest.Files()| > 0 && collection.bundle == null) {
      if collection.bundle != null { collection.bundle.Close(); }
      manifest := FailedArtifactManifest(plan.artifacts);
      return;
    }
    manifest, bundle := collection.manifest, collection.bundle;
    if |manifest.Files()| == 0 && bundle != null {
      bundle.Close();
      bundle := null;
    }
  }

  ghost predicate BindsEveryRequest(lib: Library, plan: LaunchPlan, report: ExecutionReport)
  {
    forall accepted :: AcceptedValid(lib, accepted) && PlanFor(accepted, plan) ==> BindingHolds(accepted, report)
  }

  lemma ReportBinds(lib: Library, plan: LaunchPlan, report: ExecutionReport)
    requires report.requestId == plan.requestId && report.requestDigest == plan.requestDigest
    requires report.stdout.retainedBytes <= plan.maxOutputBytes && report.stderr.retainedBytes <= plan.maxOutputBytes
    requires ManifestBound(report.artifacts, plan.artifacts)
    ensures BindsEveryRequest(lib, plan, report)
  {
  }

  /** What a run comes to: how it ended, everything that was captured, and its artifacts. */
  datatype RunOutcome = RunOutcome(
    status: CommandStatus, exitCode: Option<int>, stdout: bytes, stderr: bytes, artifacts: ArtifactManifest)

  function AwaitedIn(world: World): Awaited
  {
    if !world.startFails && world.process.Some? then AwaitProcess(world.process.value, world.timer, world.event)
    else Awaited(RuntimeFailed, None, false)
  }

  /** The collector's manifest if the tree is known to be gone and the manifest is usable and valid; otherwise
      every requested pattern as failed. */
  ghost function ArtifactsOf(lib: Library, plan: LaunchPlan, world: World): ArtifactManifest
  {
    if AwaitedIn(world).safeToCollect && Usable(lib, plan, world.collector)
       && ManifestValid(lib, world.collector.value.manifest) then world.collector.value.manifest
    else FailedManifest(plan.artifacts)
  }

  ghost function OutcomeOf(lib: Library, plan: LaunchPlan, world: World): RunOutcome
  {
    RunOutcome(AwaitedIn(world).status, AwaitedIn(world).exitCode, AcceptedBytes([], world.stdoutChunks),
               AcceptedBytes([], world.stderrChunks), ArtifactsOf(lib, plan, world))
  }

  /** Captures count up to int64, the clock did not go back, and RFC 3339 can express both times. */
  predicate Reportable(startedAt: int, finishedAt: int, outcome: RunOutcome)
  {
    && startedAt <= finishedAt && Representable(startedAt) && Representable(finishedAt)
    && |outcome.stdout| <= MAX_INT64 && |outcome.stderr| <= MAX_INT64
  }

  ghost function ReportOf(lib: Library, plan: LaunchPlan, sha: string, startedAt: int, finishedAt: int,
                          outcome: RunOutcome): ExecutionReport
    requires Reportable(startedAt, finishedAt, outcome) && 0 <= plan.maxOutputBytes
  {
    AssembleReport(lib, plan, sha, outcome.status, outcome.exitCode, startedAt, finishedAt,
                   SnapshotOf(lib, plan.maxOutputBytes, outcome.stdout).value,
                   SnapshotOf(lib, plan.maxOutputBytes, outcome.stderr).value, outcome.artifacts)
  }

  /** The output is that outcome: its report, and the retained prefix of each stream. */
  ghost predicate Tells(lib: Library, plan: LaunchPlan, sha: string, startedAt: int, finishedAt: int,
                        outcome: RunOutcome, output: Output)
  {
    && Reportable(startedAt, finishedAt, outcome) && 0 <= plan.maxOutputBytes
    && output.report == ReportOf(lib, plan, sha, startedAt, finishedAt, outcome)
    && output.stdout == Retained(plan.maxOutputBytes, outcome.stdout)
    && output.stderr == Retained(plan.maxOutputBytes, outcome.stderr)
  }

  /** Preflight does not protect a run that ends after the year 9999: its fallback report is invalid. */
  lemma FallbackCanFail(lib: Library, plan: LaunchPlan, sha: string, startedAt: int)
    requires Lawful(lib) && MIN_OUTPUT_BYTES <= plan.maxOutputBytes <= MAX_OUTPUT_BYTES
    requires ReportValid(lib, PreflightReport(lib, plan, sha, startedAt)) && startedAt <= LAST_INSTANT + 1
    ensures !ReportValid(lib, AssembleReport(lib, plan, sha, Completed, Some(0), startedAt, LAST_INSTANT + 1,
              SnapshotOf(lib, plan.maxOutputBytes, []).value, SnapshotOf(lib, plan.maxOutputBytes, []).value,
              FailedManifest(plan.artifacts)))
  {
    FallbackValidity(lib, plan, sha, startedAt, startedAt, LAST_INSTANT + 1, Completed, Some(0), [], []);
  }

  /** Whether the collector is asked. */
  ghost predicate Asked(lib: Library, plan: LaunchPlan, sha: string, world: World)
  {
    && PlanAccepted(lib, plan, sha, world.startedAt) && world.startedAt <= world.finishedAt
    && |AcceptedBytes([], world.stdoutChunks)| <= MAX_INT64 && |AcceptedBytes([], world.stderrChunks)| <= MAX_INT64
    && AwaitedIn(world).safeToCollect && plan.artifacts != [] && world.collector.Some?
  }

  /** runForeground. Nothing the launcher, the timer or the collector does can make it emit an output that the
      session's binding check or the writer's validateOutput refuses; once the plan was accepted it fails only for
      a clock that went back, a capture past int64, or a finish time that RFC 3339 cannot express; what it produces
      is the outcome of its world; and the bundle of a collector that was asked is handed on open or closed. */
  method RunForeground(lib: Library, plan: LaunchPlan, sha: string, world: World) returns (result: RunResult)
    requires Lawful(lib)
    requires world.collector.Some? && world.collector.value.bundle != null ==> !world.collector.value.bundle.closed
    modifies if world.collector.Some? && world.collector.value.bundle != null
             then {world.collector.value.bundle} else {}
    ensures result == Refused(InvalidLaunchPlan) <==> !PlanAccepted(lib, plan, sha, world.startedAt)
    ensures result == Refused(ClockRegression) <==>
            PlanAccepted(lib, plan, sha, world.startedAt) && world.finishedAt < world.startedAt
    ensures result == Refused(InvalidExecutionReport) <==>
            && PlanAccepted(lib, plan, sha, world.startedAt) && world.startedAt <= world.finishedAt
            && (|| |AcceptedBytes([], world.stdoutChunks)| > MAX_INT64
                || |AcceptedBytes([], world.stderrChunks)| > MAX_INT64
                || !Representable(world.finishedAt))
    ensures result.Produced? ==>
              && Tells(lib, plan, sha, world.startedAt, world.finishedAt, OutcomeOf(lib, plan, world), result.output)
              && OutputValid(lib, result.output) && BindsEveryRequest(lib, plan, result.output.report)
    ensures result.Produced? && result.output.bundle != null ==>
              && world.collector.Some? && result.output.bundle == world.collector.value.bundle
              && Asked(lib, plan, sha, world) && unchanged(result.output.bundle)
    ensures world.collector.Some? && world.collector.value.bundle != null ==>
              if !Asked(lib, plan, sha, world) then unchanged(world.collector.value.bundle)
              else
                || world.collector.value.bundle.closed
                || (result.Produced? && result.output.bundle == world.collector.value.bundle)
  {
    hide OutputValid, BindsEveryRequest, Tells, ArtifactsOf, ReportValid, FailedManifest;
    if plan.timeoutSeconds < MIN_TIMEOUT_SECONDS || plan.timeoutSeconds > MAX_TIMEOUT_SECONDS {
      return Refused(InvalidLaunchPlan);
    }
    var stdoutCapture := NewCapture(lib, plan.maxOutputBytes);
    if stdoutCapture == null { return Refused(InvalidLaunchPlan); }
    var stderrCapture := NewCapture(lib, plan.maxOutputBytes);
    if stderrCapture == null { return Refused(InvalidLaunchPlan); }
    if !InvocationBuilds(plan) { return Refused(InvalidLaunchPlan); }
    var stdoutBefore := stdoutCapture.TakeSnapshot();
    var stderrBefore := stderrCapture.TakeSnapshot();
    var failed := FailedArtifactManifest(plan.artifacts);
    var preflight := AssembleReport(lib, plan, sha, RuntimeFailed, None, world.startedAt, world.startedAt,
                                    stdoutBefore.value, stderrBefore.value, failed);
    var valid := ValidateExecutionReport(lib, preflight);
    if !valid { return Refused(InvalidLaunchPlan); }

    result := Launch(lib, plan, sha, world, stdoutCapture, stderrCapture);
  }

  ghost predicate Empty(capture: Capture, lib: Library, limit: int)
    reads capture
  {
    capture.Valid() && capture.written == [] && capture.lib == lib && capture.limit == limit
  }

  /** runForeground from the launch on, with both captures still empty. */
  method Launch(lib: Library, plan: LaunchPlan, sha: string, world: World, stdoutCapture: Capture,
                stderrCapture: Capture)
    returns (result: RunResult)
    requires Lawful(lib) && PlanAccepted(lib, plan, sha, world.startedAt) && stdoutCapture != stderrCapture
    requires Empty(stdoutCapture, lib, plan.maxOutputBytes) && Empty(stderrCapture, lib, plan.maxOutputBytes)
    requires world.collector.Some? && world.collector.value.bundle != null ==> !world.collector.value.bundle.closed
    modifies stdoutCapture, stderrCapture
    modifies if world.collector.Some? && world.collector.value.bundle != null
             then {world.collector.value.bundle} else {}
    ensures result != Refused(InvalidLaunchPlan)
    ensures result == Refused(ClockRegression) <==> world.finishedAt < world.startedAt
    ensures result == Refused(InvalidExecutionReport) <==>
            && world.startedAt <= world.finishedAt
            && (|| |AcceptedBytes([], world.stdoutChunks)| > MAX_INT64
                || |AcceptedBytes([], world.stderrChunks)| > MAX_INT64
                || !Representable(world.finishedAt))
    ensures result.Produced? ==>
              && Tells(lib, plan, sha, world.startedAt, world.finishedAt, OutcomeOf(lib, plan, world), result.output)
              && OutputValid(lib, result.output) && BindsEveryRequest(lib, plan, result.output.report)
    ensures result.Produced? && result.output.bundle != null ==>
              && world.collector.Some? && result.output.bundle == world.collector.value.bundle
              && Asked(lib, plan, sha, world) && unchanged(result.output.bundle)
    ensures world.collector.Some? && world.collector.value.bundle != null ==>
              if !Asked(lib, plan, sha, world) then unchanged(world.collector.value.bundle)
              else
                || world.collector.value.bundle.closed
                || (result.Produced? && result.output.bundle == world.collector.value.bundle)
  {
    hide PlanAccepted, OutputValid, BindsEveryRequest, Tells, ArtifactsOf, CommandOutcomeValid, AwaitProcess;
    // The launched process writes to the captures; a refused write ends its stream.
    var _ := stdoutCapture.WriteChunks(world.stdoutChunks);
    var _ := stderrCapture.WriteChunks(world.stderrChunks);
    var awaited := Awaited(RuntimeFailed, None, false);
    if !world.startFails && world.process.Some? {
      awaited := AwaitProcess(world.process.value, world.timer, world.event);
    }

    if world.finishedAt < world.startedAt { return Refused(ClockRegression); }
    var stdout := stdoutCapture.TakeSnapshot();
    if stdout.None? { return Refused(InvalidExecutionReport); }
    var stderr := stderrCapture.TakeSnapshot();
    if stderr.None? { return Refused(InvalidExecutionReport); }
    result := Report(lib, plan, sha, world, awaited, stdout.value, stderr.value,
                     stdoutCapture.written, stderrCapture.written);
  }

  /** The tail of runForeground: collect, assemble, validate, and fall back to the failed manifest. */
  method Report(lib: Library, plan: LaunchPlan, sha: string, world: World, awaited: Awaited,
                stdout: Snapshot, stderr: Snapshot, ghost stdoutWritten: bytes, ghost stderrWritten: bytes)
    returns (result: RunResult)
    requires Lawful(lib) && PlanAccepted(lib, plan, sha, world.startedAt) && world.startedAt <= world.finishedAt
    requires awaited == AwaitedIn(world)
    requires stdoutWritten == AcceptedBytes([], world.stdoutChunks)
    requires stderrWritten == AcceptedBytes([], world.stderrChunks)
    requires SnapshotOf(lib, plan.maxOutputBytes, stdoutWritten) == Some(stdout)
    requires SnapshotOf(lib, plan.maxOutputBytes, stderrWritten) == Some(stderr)
    requires world.collector.Some? && world.collector.value.bundle != null ==> !world.collector.value.bundle.closed
    modifies if world.collector.Some? && world.collector.value.bundle != null
             then {world.collector.value.bundle} else {}
    ensures if Representable(world.finishedAt) then result.Produced? else result == Refused(InvalidExecutionReport)
    ensures result.Produced? ==>
              && Tells(lib, plan, sha, world.startedAt, world.finishedAt, OutcomeOf(lib, plan, world), result.output)
              && OutputValid(lib, result.output) && BindsEveryRequest(lib, plan, result.output.report)
    ensures result.Produced? && result.output.bundle != null ==>
              && world.collector.Some? && result.output.bundle == world.collector.value.bundle
              && awaited.safeToCollect && plan.artifacts != [] && unchanged(result.output.bundle)
    ensures world.collector.Some? && world.collector.value.bundle != null ==>
              if !awaited.safeToCollect || plan.artifacts == [] then unchanged(world.collector.value.bundle)
              else
                || world.collector.value.bundle.closed
                || (result.Produced? && result.output.bundle == world.collector.value.bundle)
  {
    hide OutputValid, BindsEveryRequest, ManifestValid, Usable, FailedManifest, CollectionAllowed, AwaitProcess,
         ReportHeaderValid;
    ReportOutcome(world);
    UsableIsAllowed(lib, plan, world.collector);
    FallbackValidity(lib, plan, sha, world.startedAt, world.startedAt, world.finishedAt,
                     awaited.status, awaited.exitCode, stdoutWritten, stderrWritten);
    var failed := FailedArtifactManifest(plan.artifacts);
    var artifacts, bundle := failed, null;
    if awaited.safeToCollect {
      artifacts, bundle := CollectArtifacts(lib, plan, world.collector);
    }
    var report := AssembleReport(lib, plan, sha, awaited.status, awaited.exitCode, world.startedAt, world.finishedAt,
                                 stdout, stderr, artifacts);
    SameHeader(lib, report, report.(artifacts := failed));
    var valid := ValidateExecutionReport(lib, report);
    if !valid {
      if bundle != null { bundle.Close(); }
      bundle := null;
      report := report.(artifacts := failed);
      valid := ValidateExecutionReport(lib, report);
      if !valid { return Refused(InvalidExecutionReport); }
    }
    result := Produced(Output(report, stdout.retained, stderr.retained, bundle));
    OutputIsValid(lib, plan, sha, world.startedAt, world.finishedAt, OutcomeOf(lib, plan, world), result.output);
  }

  lemma ReportOutcome(world: World)
    ensures CommandOutcomeValid(AwaitedIn(world).status, AwaitedIn(world).exitCode)
  {
    if !world.startFails && world.process.Some? { AwaitedOutcome(world.process.value, world.timer, world.event); }
  }

  lemma SameHeader(lib: Library, a: ExecutionReport, b: ExecutionReport)
    requires b == a.(artifacts := b.artifacts)
    ensures ReportHeaderValid(lib, a) <==> ReportHeaderValid(lib, b)
  {
  }

  lemma UsableIsAllowed(lib: Library, plan: LaunchPlan, collector: Option<Collection>)
    ensures Usable(lib, plan, collector) ==>
              && plan.artifacts != [] && collector.Some?
              && CollectionAllowed(lib, collector.value.manifest, plan.artifacts)
              && (collector.value.manifest.Files() != [] ==> collector.value.bundle != null)
    ensures FailedManifest(plan.artifacts).Files() == []
  {
  }

  /** Whatever tells an outcome in a valid report passes the writer's check and answers every request of the plan. */
  lemma OutputIsValid(lib: Library, plan: LaunchPlan, sha: string, startedAt: int, finishedAt: int,
                      outcome: RunOutcome, output: Output)
    requires Lawful(lib) && plan.maxOutputBytes <= MAX_OUTPUT_BYTES && ReportValid(lib, output.report)
    requires Tells(lib, plan, sha, startedAt, finishedAt, outcome, output)
    requires outcome.artifacts.Files() == [] <==> output.bundle == null
    requires CollectionAllowed(lib, outcome.artifacts, plan.artifacts)
             || outcome.artifacts == FailedManifest(plan.artifacts)
    ensures OutputValid(lib, output) && BindsEveryRequest(lib, plan, output.report)
  {
    hide ReportValid, BindsEveryRequest, CollectionAllowed, FailedManifest, Digest, Representable;
    SnapshotIsValid(lib, plan.maxOutputBytes, outcome.stdout);
    SnapshotIsValid(lib, plan.maxOutputBytes, outcome.stderr);
    AllowedIsBound(lib, outcome.artifacts, plan.artifacts);
    ReportBinds(lib, plan, output.report);
  }

  /** A fresh capture fed one content. */
  method CaptureOnce(lib: Library, limit: int, content: bytes) returns (snapshot: Option<Snapshot>)
    requires Lawful(lib)
    ensures snapshot.Some? <==> MIN_OUTPUT_BYTES <= limit <= MAX_OUTPUT_BYTES && |content| <= MAX_INT64
    ensures snapshot.Some? ==> snapshot == SnapshotOf(lib, limit, content)
  {
    var capture := NewCapture(lib, limit);
    if capture == null { return None; }
    var copied := capture.Write(content);
    if !copied { return None; }
    assert [] + content == content;
    snapshot := capture.TakeSnapshot();
  }

  /** The outcome of a start, status, stop or logs request, which carries no artifacts. */
  function Answered(status: CommandStatus, exitCode: Option<int>, stdout: bytes, stderr: bytes): RunOutcome
  {
    RunOutcome(status, exitCode, stdout, stderr, FailedManifest([]))
  }

  /** buildBackgroundOutput: for a plan that passed preflight, the response is built exactly when its outcome can
      be reported. */
  method BuildBackgroundOutput(lib: Library, plan: LaunchPlan, sha: string, status: CommandStatus,
                               exitCode: Option<int>,
                               startedAt: int, finishedAt: int, stdoutBytes: bytes, stderrBytes: bytes)
    returns (result: Option<Output>)
    requires Lawful(lib) && startedAt <= finishedAt && plan.artifacts == []
    ensures PlanAccepted(lib, plan, sha, 0) && CommandOutcomeValid(status, exitCode) ==>
              (result.Some? <==>
                 Reportable(startedAt, finishedAt, Answered(status, exitCode, stdoutBytes, stderrBytes)))
    ensures result.Some? ==>
              && Tells(lib, plan, sha, startedAt, finishedAt, Answered(status, exitCode, stdoutBytes, stderrBytes),
                       result.value)
              && OutputValid(lib, result.value) && result.value.bundle == null
              && BindsEveryRequest(lib, plan, result.value.report)
  {
    hide OutputValid, BindsEveryRequest, ManifestValid, CommandOutcomeValid, ReportHeaderValid, CollectionAllowed;
    ghost var outcome := Answered(status, exitCode, stdoutBytes, stderrBytes);
    ghost var accepted := PlanAccepted(lib, plan, sha, 0) && CommandOutcomeValid(status, exitCode);
    var stdout := CaptureOnce(lib, plan.maxOutputBytes, stdoutBytes);
    if stdout.None? { return None; }
    var stderr := CaptureOnce(lib, plan.maxOutputBytes, stderrBytes);
    if stderr.None? { return None; }
    var failed := FailedArtifactManifest([]);
    var report := AssembleReport(lib, plan, sha, status, exitCode, startedAt, finishedAt,
                                 stdout.value, stderr.value, failed);
    if accepted {
      FallbackValidity(lib, plan, sha, 0, startedAt, finishedAt, status, exitCode, stdoutBytes, stderrBytes);
    }
    var valid := ValidateExecutionReport(lib, report);
    if !valid { return None; }
    result := Some(Output(report, stdout.value.retained, stderr.value.retained, null));
    ValidTimes(lib, plan, sha, status, exitCode, startedAt, finishedAt, stdout.value, stderr.value);
    OutputIsValid(lib, plan, sha, startedAt, finishedAt, outcome, result.value);
  }

  lemma ValidTimes(lib: Library, plan: LaunchPlan, sha: string, status: CommandStatus, exitCode: Option<int>,
                   startedAt: int, finishedAt: int, stdout: Snapshot, stderr: Snapshot)
    requires Lawful(lib) && startedAt <= finishedAt
    requires ReportHeaderValid(lib,
                               AssembleReport(lib, plan, sha, status, exitCode, startedAt, finishedAt, stdout, stderr,
                                                   FailedManifest([])))
    ensures Representable(startedAt) && Representable(finishedAt)
  {
  }

  // ----- What preflight lets through -----

  /** The manifest that lists every requested pattern as failed is valid for every valid request. */
  lemma {:induction false} FailedOmissionsValid(lib: Library, selections: seq<ArtifactSelection>)
    requires forall k :: 0 <= k < |selections| ==> SelectionValid(lib, selections[k])
    requires forall a, b :: 0 <= a < b < |selections| ==> selections[a].name != selections[b].name
    ensures |FailedOmissions(selections)| == TotalPaths(selections)
    ensures OmissionsValid(lib, FailedOmissions(selections))
  {
    hide IsGroup, PatternValid;
    if selections != [] {
      var front, last := selections[..|selections| - 1], selections[|selections| - 1];
      FailedOmissionsValid(lib, front);
      FailedOmissionsGroups(front);
      assert SelectionValid(lib, last);
      var before, added := FailedOmissions(front), SelectionOmissions(last, |last.paths|);
      forall a, b | 0 <= a < b < |before + added| ensures (before + added)[a] != (before + added)[b] {
        if a < |before| <= b { assert HasGroup(front, before[a].group); }
      }
    }
  }

  lemma FailedManifestValid(lib: Library, selections: seq<ArtifactSelection>)
    requires SelectionsValid(lib, selections)
    ensures ManifestValid(lib, FailedManifest(selections))
  {
    hide SelectionValid, OmissionsValid;
    FailedOmissionsValid(lib, selections);
    if selections != [] {
      assert SelectionValid(lib, selections[|selections| - 1]);
      SomePath(lib, selections);
    } else {
      assert OmissionsValid(lib, []);
    }
  }

  lemma SomePath(lib: Library, selections: seq<ArtifactSelection>)
    requires selections != [] && SelectionValid(lib, selections[|selections| - 1])
    ensures TotalPaths(selections) > 0
  {
  }

  /** What an authorized plan brings from its request. */
  lemma AuthorizedFields(lib: Library, at: Installation, envelope: Envelope, plan: LaunchPlan)
    requires Lawful(lib) && Permitted(lib, at, envelope) && PlanOf(at, envelope, plan)
    ensures IsIdentifier(plan.requestId) && LowerHex(plan.requestDigest, 64) && IsIdentifier(plan.attemptId)
    ensures SelectionsValid(lib, plan.artifacts) && InvocationBuilds(plan)
    ensures MIN_TIMEOUT_SECONDS <= plan.timeoutSeconds <= MAX_TIMEOUT_SECONDS
    ensures MIN_OUTPUT_BYTES <= plan.maxOutputBytes <= MAX_OUTPUT_BYTES
  {
    PlanResolves(lib, at, envelope, plan);
    hide ResolutionAccepted, ConfiguredShell, RequestMatchesPlatform, IssueValid, WorkflowValid, IsIdentifier,
         SelectionsValid, CanonicalTime, Lawful;
  }

  lemma PreflightPasses(lib: Library, plan: LaunchPlan, sha: string, startedAt: int)
    requires Lawful(lib) && LowerHex(sha, 40)
    requires IsIdentifier(plan.requestId) && LowerHex(plan.requestDigest, 64) && IsIdentifier(plan.attemptId)
    requires SelectionsValid(lib, plan.artifacts) && InvocationBuilds(plan)
    requires MIN_TIMEOUT_SECONDS <= plan.timeoutSeconds <= MAX_TIMEOUT_SECONDS
    requires MIN_OUTPUT_BYTES <= plan.maxOutputBytes <= MAX_OUTPUT_BYTES
    ensures PlanAccepted(lib, plan, sha, startedAt) <==> Representable(startedAt)
  {
    hide InvocationBuilds, ManifestValid, FailedManifest, IsIdentifier, LowerHex, SelectionsValid;
    FailedManifestValid(lib, plan.artifacts);
    SnapshotIsValid(lib, plan.maxOutputBytes, []);
  }

  /** A permitted request's plan passes preflight at every time that RFC 3339 can express: what can still go wrong
      with the run is the clock, and the length of its output. */
  lemma AuthorizedIsAccepted(lib: Library, at: Installation, envelope: Envelope, plan: LaunchPlan, sha: string,
                             startedAt: int)
    requires Lawful(lib) && Permitted(lib, at, envelope) && PlanOf(at, envelope, plan) && LowerHex(sha, 40)
    ensures PlanAccepted(lib, plan, sha, startedAt) <==> Representable(startedAt)
  {
    hide Lawful, Permitted, PlanOf, InvocationBuilds, IsIdentifier, LowerHex, SelectionsValid, PlanAccepted;
    AuthorizedFields(lib, at, envelope, plan);
    PreflightPasses(lib, plan, sha, startedAt);
  }
}
