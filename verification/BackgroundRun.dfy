/** internal/executionrun/background.go: a start, status, stop or logs request, from its plan to its bound report. */
module BackgroundRun {
  import opened Protocol
  import opened ExecutionPolicy
  import opened ExecutionRun
  import opened OutputCapture
  import opened Background
  import opened BackgroundRunner

  function Ascii(text: string): bytes
  {
    seq(|text|, k requires 0 <= k < |text| => (text[k] as int % 256) as byte)
  }

  const NEWLINE: bytes := [10]
  const DENIED := Answered(Failed, Some(1), [], Ascii("background process operation denied\n"))
  const STOP_FAILED := Answered(RuntimeFailed, None, [], Ascii("background process stop failed\n"))

  /** What the request meets: whether the launcher and the tree's termination work, whether its context ends while
      it waits, what each entry's captures hold, and the JSON of a header. */
  datatype Outside = Outside(
    launches: bool, terminates: bool, cancelled: bool,
    stdoutOf: nat -> Option<Snapshot>, stderrOf: nat -> Option<Snapshot>,
    describe: (string, Guarded, OutputMetadata, OutputMetadata) -> Option<bytes>)

  /** backgroundResponse: the header line, and the retained output behind it if it was asked for. */
  function Response(processId: string, outside: Outside, id: nat, status: Guarded, includeLogs: bool): RunOutcome
  {
    var stdout, stderr := outside.stdoutOf(id), outside.stderrOf(id);
    if stdout.None? || stderr.None? then DENIED
    else
      match outside.describe(processId, status, stdout.value.metadata, stderr.value.metadata)
      case None => DENIED
      case Some(header) =>
        if includeLogs then
          Answered(Completed, Some(0), header + NEWLINE + stdout.value.retained, stderr.value.retained)
        else Answered(Completed, Some(0), header + NEWLINE, [])
  }

  /** validateBackgroundPlan */
  ghost predicate BackgroundAccepted(lib: Library, plan: LaunchPlan, sha: string)
  {
    plan.operation != Execute && plan.processId != "" && plan.artifacts == [] && PlanAccepted(lib, plan, sha, 0)
  }

  method ValidateBackgroundPlan(lib: Library, plan: LaunchPlan, sha: string) returns (ok: bool)
    requires Lawful(lib)
    ensures ok <==> BackgroundAccepted(lib, plan, sha)
  {
    hide ReportValid, FailedManifest;
    if plan.operation == Execute { return false; }
    if plan.processId == "" || plan.timeoutSeconds < MIN_TIMEOUT_SECONDS || plan.timeoutSeconds > MAX_TIMEOUT_SECONDS
       || plan.maxOutputBytes < MIN_OUTPUT_BYTES || plan.maxOutputBytes > MAX_OUTPUT_BYTES || |plan.artifacts| != 0 {
      return false;
    }
    if !InvocationBuilds(plan) { return false; }
    var empty := NewCapture(lib, plan.maxOutputBytes);
    var snapshot := empty.TakeSnapshot();
    var failed := FailedArtifactManifest([]);
    var report := AssembleReport(lib, plan, sha, RuntimeFailed, None, 0, 0, snapshot.value, snapshot.value, failed);
    ok := ValidateExecutionReport(lib, report);
  }

  /** What an operation must answer, going by the registry before it, the states it went through, and the entries
      after it. */
  ghost predicate Performed(plan: LaunchPlan, outside: Outside, before: State, during: seq<State>, after: State,
                            outcome: RunOutcome)
  {
    match plan.operation
    case Start =>
      if outside.launches && BackgroundKey(plan.sessionId, plan.processId) !in before.registry
         && |before.registry| < MAX_BACKGROUND_PROCESSES then
        && |before.entries| < |after.entries| && KeyOf(after.entries[|before.entries|]) == PlanKey(plan)
        && outcome == Response(plan.processId, outside, |before.entries|, after.entries[|before.entries|].status, false)
      else outcome == DENIED
    case Stop =>
      || (outcome == STOP_FAILED && (!outside.terminates || outside.cancelled || MissedIn(plan, during)))
      || exists id: nat :: StoppedBy(plan, outside, after, id, outcome)
    case _ =>
      match Registered(before, plan.sessionId, plan.processId, plan.workingDirectory)
      case None => outcome == DENIED
      case Some(id) =>
        && id < |after.entries|
        && outcome == Response(plan.processId, outside, id, after.entries[id].status, plan.operation == Logs)
  }

  /** At some moment nothing was registered for the plan. */
  ghost predicate MissedIn(plan: LaunchPlan, during: seq<State>)
  {
    exists k :: 0 <= k < |during|
                && Registered(during[k], plan.sessionId, plan.processId, plan.workingDirectory) == None
  }

  function PlanKey(plan: LaunchPlan): string { BackgroundKey(plan.sessionId, plan.processId) }

  /** The entry is this plan's, it has finished, and its key is free. */
  ghost predicate StoppedBy(plan: LaunchPlan, outside: Outside, after: State, id: nat, outcome: RunOutcome)
  {
    && Over(after, id) && KeyOf(after.entries[id]) == PlanKey(plan)
    && after.entries[id].workingDirectory == plan.workingDirectory
    && (forall key :: key in after.registry ==> after.registry[key] != id)
    && outcome == Response(plan.processId, outside, id, after.entries[id].status, false)
  }

  method Perform(runner: Runner, plan: LaunchPlan, outside: Outside) returns (outcome: RunOutcome)
    requires runner.Valid() && plan.operation != Execute
    modifies runner
    ensures runner.Continues()
    ensures Performed(plan, outside, old(runner.Now()), runner.states[|old(runner.states)|..], runner.Now(), outcome)
  {
    hide Later, IsRun, Evolves, Rank, Response, BackgroundKey;
    if plan.operation == Operation.Start {
      var started := runner.StartBackground(plan.sessionId, plan.processId, plan.workingDirectory, outside.launches);
      if started.None? { return DENIED; }
      outcome := Response(plan.processId, outside, started.value, runner.entries[started.value].status, false);
    } else if plan.operation == Stop {
      ghost var found, at;
      var stopped;
      stopped, found, at := runner.StopBackground(plan.sessionId, plan.processId, plan.workingDirectory,
                                                  outside.terminates, outside.cancelled);
      if stopped.None? {
        assert runner.states[|old(runner.states)|..][at - |old(runner.states)|] == runner.states[at];
        return STOP_FAILED;
      }
      outcome := Response(plan.processId, outside, stopped.value, runner.entries[stopped.value].status, false);
      ResponseIsValid(plan.processId, outside, stopped.value, runner.entries[stopped.value].status, false);
      assert StoppedBy(plan, outside, runner.Now(), stopped.value, outcome);
    } else {
      var found := Registered(runner.Now(), plan.sessionId, plan.processId, plan.workingDirectory);
      ghost var s := runner.Now();
      runner.OthersRun(RequestThread);
      if found.None? { return DENIED; }
      LaterLength(s, runner.Now());
      outcome := Response(plan.processId, outside, found.value, runner.entries[found.value].status,
                          plan.operation == Logs);
    }
  }

  lemma ResponseIsValid(processId: string, outside: Outside, id: nat, status: Guarded, includeLogs: bool)
    ensures var outcome := Response(processId, outside, id, status, includeLogs);
            && CommandOutcomeValid(outcome.status, outcome.exitCode) && outcome.artifacts == FailedManifest([])
            && outcome.status != RuntimeFailed
  {
  }

  lemma PerformedIsValid(plan: LaunchPlan, outside: Outside, before: State, during: seq<State>, after: State,
                         outcome: RunOutcome)
    requires Performed(plan, outside, before, during, after, outcome)
    ensures CommandOutcomeValid(outcome.status, outcome.exitCode) && outcome.artifacts == FailedManifest([])
  {
    hide Response;
    forall id: nat, includeLogs
      ensures |after.entries| > id ==>
                var given := Response(plan.processId, outside, id, after.entries[id].status, includeLogs);
                CommandOutcomeValid(given.status, given.exitCode) && given.artifacts == FailedManifest([])
    {
      if |after.entries| > id { ResponseIsValid(plan.processId, outside, id, after.entries[id].status, includeLogs); }
    }
  }

  /** runBackground. A plan that passes preflight is performed exactly once, and its outcome reported unless the
      clock or the length of the answer forbids it. */
  method RunBackground(lib: Library, runner: Runner, plan: LaunchPlan, sha: string,
                       startedAt: int, finishedAt: int, outside: Outside)
    returns (result: RunResult, ghost outcome: RunOutcome)
    requires Lawful(lib) && runner.Valid() && plan.operation != Execute
    modifies runner
    ensures runner.Continues()
    ensures if BackgroundAccepted(lib, plan, sha) then
              Performed(plan, outside, old(runner.Now()), runner.states[|old(runner.states)|..], runner.Now(), outcome)
            else runner.Now() == old(runner.Now()) && result == Refused(InvalidLaunchPlan)
    ensures BackgroundAccepted(lib, plan, sha) ==>
              if Reportable(startedAt, finishedAt, outcome) then result.Produced?
              else
                result == Refused(if finishedAt < startedAt then ClockRegression else InvalidExecutionReport)
    ensures result.Produced? ==>
              && Tells(lib, plan, sha, startedAt, finishedAt, outcome, result.output)
              && OutputValid(lib, result.output) && BindsEveryRequest(lib, plan, result.output.report)
              && result.output.bundle == null
  {
    hide Performed, PlanAccepted, OutputValid, BindsEveryRequest, Tells, FailedManifest, CommandOutcomeValid;
    hide Later, IsRun;
    outcome := DENIED;
    var accepted := ValidateBackgroundPlan(lib, plan, sha);
    LaterSelf(runner.Now());
    if !accepted { return Refused(InvalidLaunchPlan), outcome; }
    var answer := Perform(runner, plan, outside);
    outcome := answer;
    if finishedAt < startedAt { return Refused(ClockRegression), outcome; }
    PerformedIsValid(plan, outside, old(runner.Now()), runner.states[|old(runner.states)|..], runner.Now(), answer);
    var output := BuildBackgroundOutput(lib, plan, sha, answer.status, answer.exitCode, startedAt,
                                        finishedAt, answer.stdout, answer.stderr);
    assert answer == Answered(answer.status, answer.exitCode, answer.stdout, answer.stderr);
    if output.None? { return Refused(InvalidExecutionReport), outcome; }
    result := Produced(output.value);
  }

  /** Every permitted request that is not to be executed passes preflight. */
  lemma AuthorizedIsBackground(lib: Library, at: Installation, envelope: Envelope, plan: LaunchPlan, sha: string)
    requires Lawful(lib) && Permitted(lib, at, envelope) && PlanOf(at, envelope, plan) && LowerHex(sha, 40)
    requires plan.operation != Execute
    ensures BackgroundAccepted(lib, plan, sha)
  {
    hide PlanAccepted;
    AuthorizedIsAccepted(lib, at, envelope, plan, sha, 0);
  }
}
