/** internal/executionpolicy: which requests may run, where, and the plan they run by. */
module ExecutionPolicy {
  import opened PlatformPath
  import opened InstallConfig
  import opened InstallPlan
  import opened Protocol

  /** What the native resolver reports for a requested path. */
  datatype Resolution = Resolution(requestedPath: string, workingDirectory: string, approvedRoot: string)

  ghost predicate ResolutionAccepted(validUtf8: string -> bool, c: Config, requested: string, r: Resolution)
  {
    && r.requestedPath == requested
    && AbsoluteValid(validUtf8, c.platform, r.workingDirectory) && AbsoluteValid(validUtf8, c.platform, r.approvedRoot)
    && (exists i :: 0 <= i < |c.approvedRoots| && Equal(c.platform, c.approvedRoots[i], r.approvedRoot))
    && Contains(c.platform, r.approvedRoot, r.workingDirectory)
  }

  method ValidateResolution(validUtf8: string -> bool, c: Config, requested: string, r: Resolution) returns (ok: bool)
    ensures ok <==> ResolutionAccepted(validUtf8, c, requested, r)
  {
    hide AbsoluteValid, Equal, Contains;
    if r.requestedPath != requested { return false; }
    if !AbsoluteValid(validUtf8, c.platform, r.workingDirectory) { return false; }
    if !AbsoluteValid(validUtf8, c.platform, r.approvedRoot) { return false; }
    var rootConfigured := false;
    for i := 0 to |c.approvedRoots|
      invariant !rootConfigured && forall k :: 0 <= k < i ==> !Equal(c.platform, c.approvedRoots[k], r.approvedRoot)
    {
      if Equal(c.platform, c.approvedRoots[i], r.approvedRoot) {
        rootConfigured := true;
        break;
      }
    }
    if !rootConfigured { return false; }
    ok := Contains(c.platform, r.approvedRoot, r.workingDirectory);
  }

  predicate RequestMatchesPlatform(platform: Platform, requested: string)
  {
    if platform.Windows? then
      && |requested| >= 3 && ('A' <= requested[0] <= 'Z' || 'a' <= requested[0] <= 'z')
      && requested[1] == ':' && requested[2] == '\\'
    else requested != "" && requested[0] == '/'
  }

  function ConfiguredShell(bindings: seq<ShellBinding>, requested: Shell): (executable: Option<string>)
    ensures executable.None? <==> forall k :: 0 <= k < |bindings| ==> bindings[k].shell != requested
    ensures executable.Some? ==>
              exists k :: 0 <= k < |bindings| && bindings[k].shell == requested
                  && bindings[k].executable == executable.value
  {
    if bindings == [] then None
    else if bindings[0].shell == requested then
      assert bindings[0].shell == requested && bindings[0].executable == bindings[0].executable;
      Some(bindings[0].executable)
    else
      var rest := ConfiguredShell(bindings[1..], requested);
      assert forall k :: 0 <= k < |bindings| - 1 ==> bindings[1..][k] == bindings[k + 1];
      rest
  }

  /** An attempt at an accepted request, as the control side sends it. */
  datatype Envelope = Envelope(attemptId: string, accepted: AcceptedRequest)

  ghost predicate EnvelopeValid(lib: Library, envelope: Envelope)
  {
    IsIdentifier(envelope.attemptId) && AcceptedValid(lib, envelope.accepted)
  }

  method ValidateEnvelope(lib: Library, envelope: Envelope) returns (ok: bool)
    ensures ok <==> EnvelopeValid(lib, envelope)
  {
    if !IsIdentifier(envelope.attemptId) { return false; }
    ok := ValidateAcceptedRequest(lib, envelope.accepted);
  }

  datatype LaunchPlan = LaunchPlan(
    requestId: string, requestDigest: string, sessionId: string, attemptId: string,
    operation: Operation, processId: string, shell: Shell, executable: string,
    workingDirectory: string, approvedRoot: string, script: string,
    timeoutSeconds: int, maxOutputBytes: int, artifacts: seq<ArtifactSelection>, environment: seq<string>)

  /** The fields of an accepted request that its plan must carry unchanged. */
  predicate PlanFor(accepted: AcceptedRequest, plan: LaunchPlan)
  {
    && plan.requestId == accepted.request.requestId && plan.requestDigest == accepted.requestDigest
    && plan.sessionId == accepted.request.sessionId
    && plan.operation == accepted.request.operation && plan.processId == accepted.request.processId
    && plan.shell == accepted.request.shell && plan.script == accepted.request.script
    && plan.timeoutSeconds == accepted.request.timeoutSeconds
    && plan.maxOutputBytes == accepted.request.maxOutputBytes
    && plan.artifacts == accepted.request.artifacts
  }

  /** What the broker was installed with: the native resolver and the environment builder are given. */
  datatype Installation = Installation(
    config: Config, resolve: (string, seq<string>) -> Option<Resolution>,
    buildEnvironment: (string, string, string) -> Option<seq<string>>)

  function Resolved(at: Installation, envelope: Envelope): Option<Resolution>
  {
    at.resolve(envelope.accepted.request.workingDirectory, at.config.approvedRoots)
  }

  function Environment(at: Installation, envelope: Envelope): Option<seq<string>>
  {
    at.buildEnvironment(envelope.accepted.request.requestId, envelope.accepted.request.sessionId, envelope.attemptId)
  }

  /** When a request may run. */
  ghost predicate Permitted(lib: Library, at: Installation, envelope: Envelope)
  {
    var request := envelope.accepted.request;
    && ConfigValid(lib.validUtf8, at.config) && EnvelopeValid(lib, envelope)
    && RequestMatchesPlatform(at.config.platform, request.workingDirectory)
    && ConfiguredShell(at.config.shells, request.shell).Some?
    && Resolved(at, envelope).Some?
    && ResolutionAccepted(lib.validUtf8, at.config, request.workingDirectory, Resolved(at, envelope).value)
    && Environment(at, envelope).Some?
  }

  /** The plan of a permitted request: its own fields, and where and with what the installation runs it. */
  ghost predicate PlanOf(at: Installation, envelope: Envelope, plan: LaunchPlan)
  {
    && PlanFor(envelope.accepted, plan) && plan.attemptId == envelope.attemptId
    && Some(plan.executable) == ConfiguredShell(at.config.shells, plan.shell)
    && Resolved(at, envelope).Some? && plan.workingDirectory == Resolved(at, envelope).value.workingDirectory
    && plan.approvedRoot == Resolved(at, envelope).value.approvedRoot
    && Some(plan.environment) == Environment(at, envelope)
  }

  /** Authorize: a plan is made exactly for the permitted requests, and it is that request's plan. */
  method Authorize(lib: Library, at: Installation, envelope: Envelope) returns (plan: Option<LaunchPlan>)
    ensures plan.Some? <==> Permitted(lib, at, envelope)
    ensures plan.Some? ==> PlanOf(at, envelope, plan.value)
  {
    hide ConfigValid, EnvelopeValid, ResolutionAccepted, RequestMatchesPlatform, ConfiguredShell;
    var configOk := InstallConfig.Validate(lib.validUtf8, at.config);
    if !configOk { return None; }
    var envelopeOk := ValidateEnvelope(lib, envelope);
    if !envelopeOk { return None; }
    var request := envelope.accepted.request;
    if !RequestMatchesPlatform(at.config.platform, request.workingDirectory) { return None; }
    var executable := ConfiguredShell(at.config.shells, request.shell);
    if executable.None? { return None; }
    var resolution := at.resolve(request.workingDirectory, at.config.approvedRoots);
    if resolution.None? { return None; }
    var accepted := ValidateResolution(lib.validUtf8, at.config, request.workingDirectory, resolution.value);
    if !accepted { return None; }
    var environment := at.buildEnvironment(request.requestId, request.sessionId, envelope.attemptId);
    if environment.None? { return None; }
    plan := Some(LaunchPlan(
      request.requestId, envelope.accepted.requestDigest, request.sessionId, envelope.attemptId,
      request.operation, request.processId, request.shell, executable.value,
      resolution.value.workingDirectory, resolution.value.approvedRoot, request.script,
      request.timeoutSeconds, request.maxOutputBytes, request.artifacts, environment.value));
  }

  // ----- What authorization guarantees -----

  /** Where a permitted request's plan runs is an accepted resolution of the directory it asked for, and what it
      runs is a configured shell with a script. */
  lemma PlanResolves(lib: Library, at: Installation, envelope: Envelope, plan: LaunchPlan)
    requires Lawful(lib) && Permitted(lib, at, envelope) && PlanOf(at, envelope, plan)
    ensures var requested := envelope.accepted.request.workingDirectory;
            ResolutionAccepted(lib.validUtf8, at.config, requested,
                               Resolution(requested, plan.workingDirectory, plan.approvedRoot))
    ensures plan.executable != "" && plan.script != "" && plan.shell != UnknownShell
    ensures exists k :: 0 <= k < |at.config.shells| && at.config.shells[k].executable == plan.executable
  {
    hide AbsoluteValid, Contains, Overlaps, Equal, IsFilesystemRoot, SelectionsValid;
    var k :| 0 <= k < |at.config.shells| && at.config.shells[k].executable == plan.executable;
    assert ToolPathValid(lib.validUtf8, at.config, at.config.shells[k].executable);
    AbsoluteIsNotEmpty(lib.validUtf8, at.config.platform, plan.executable);
  }

  lemma AbsoluteIsNotEmpty(validUtf8: string -> bool, platform: Platform, value: string)
    requires AbsoluteValid(validUtf8, platform, value)
    ensures value != ""
  {
  }

  /** The working directory lies in exactly one approved root. */
  lemma AuthorizedInOneRoot(validUtf8: string -> bool, c: Config, requested: string, r: Resolution) returns (home: nat)
    requires ConfigValid(validUtf8, c) && ResolutionAccepted(validUtf8, c, requested, r)
    ensures home < |c.approvedRoots| && Equal(c.platform, c.approvedRoots[home], r.approvedRoot)
    ensures forall i :: 0 <= i < |c.approvedRoots| ==>
              (Contains(c.platform, c.approvedRoots[i], r.workingDirectory) <==> i == home)
  {
    hide AbsoluteValid, ShellsValid, PathEntriesValid, Contains, Canonical, IsFilesystemRoot, Rooted;
    home :| 0 <= home < |c.approvedRoots| && Equal(c.platform, c.approvedRoots[home], r.approvedRoot);
    assert RootValid(validUtf8, c, c.approvedRoots[home]);
    ValidIsCanonical(validUtf8, c.platform, c.approvedRoots[home]);
    ValidIsCanonical(validUtf8, c.platform, r.approvedRoot);
    ValidIsCanonical(validUtf8, c.platform, r.workingDirectory);
    ContainsAntisymmetric(c.platform, c.approvedRoots[home], r.approvedRoot);
    ContainsTransitive(c.platform, c.approvedRoots[home], r.approvedRoot, r.workingDirectory);
    forall i | 0 <= i < |c.approvedRoots| && Contains(c.platform, c.approvedRoots[i], r.workingDirectory)
      ensures i == home
    {
      UniqueApprovedRoot(validUtf8, c, i, home, r.workingDirectory);
    }
  }

  /** Whatever is apart from every approved root is apart from every authorized working directory: so are the
      profile and temporary directories, and every path of an accepted installation. */
  lemma AuthorizedApartFrom(validUtf8: string -> bool, c: Config, requested: string, r: Resolution, path: string)
    requires ConfigValid(validUtf8, c) && ResolutionAccepted(validUtf8, c, requested, r) && Canonical(c.platform, path)
    requires forall i :: 0 <= i < |c.approvedRoots| ==> !Overlaps(c.platform, path, c.approvedRoots[i])
    ensures !Overlaps(c.platform, r.workingDirectory, path)
  {
    hide AbsoluteValid, ShellsValid, PathEntriesValid, Contains, Canonical, IsFilesystemRoot;
    var home := AuthorizedInOneRoot(validUtf8, c, requested, r);
    assert RootValid(validUtf8, c, c.approvedRoots[home]);
    ValidIsCanonical(validUtf8, c.platform, c.approvedRoots[home]);
    ValidIsCanonical(validUtf8, c.platform, r.workingDirectory);
    assert !Overlaps(c.platform, c.approvedRoots[home], path);
    OverlapsNothingBelow(c.platform, c.approvedRoots[home], r.workingDirectory, path);
  }

  lemma AuthorizedApartFromState(validUtf8: string -> bool, c: Config, requested: string, r: Resolution)
    requires ConfigValid(validUtf8, c) && ResolutionAccepted(validUtf8, c, requested, r)
    ensures !Overlaps(c.platform, r.workingDirectory, c.profileRoot)
    ensures !Overlaps(c.platform, r.workingDirectory, c.tempRoot)
  {
    hide AbsoluteValid, ShellsValid, PathEntriesValid, Contains, Canonical, IsFilesystemRoot;
    ValidIsCanonical(validUtf8, c.platform, c.profileRoot);
    ValidIsCanonical(validUtf8, c.platform, c.tempRoot);
    forall i | 0 <= i < |c.approvedRoots|
      ensures !Overlaps(c.platform, c.profileRoot, c.approvedRoots[i])
      ensures !Overlaps(c.platform, c.tempRoot, c.approvedRoots[i])
    {
      assert RootValid(validUtf8, c, c.approvedRoots[i]);
    }
    AuthorizedApartFrom(validUtf8, c, requested, r, c.profileRoot);
    AuthorizedApartFrom(validUtf8, c, requested, r, c.tempRoot);
  }

  /** For every accepted installation: a request never runs where a protected path is, above it or below it. */
  lemma AuthorizedApartFromInstallation(validUtf8: string -> bool, spec: Spec, requested: string, r: Resolution,
                                        path: string)
    requires SpecValid(validUtf8, spec) && ResolutionAccepted(validUtf8, spec.config, requested, r)
    requires var layout := LayoutOf(validUtf8, spec.config.platform, spec.installationRoot);
             layout.Some? && IsLayoutPath(layout.value, path)
    ensures !Overlaps(spec.config.platform, r.workingDirectory, path)
  {
    hide Contains, Canonical, LayoutOf, IsLayoutPath, ConfigValid, NonRootValid, ToolsOutside, ResolutionAccepted,
         Overlaps;
    LayoutUnderTwoRoots(validUtf8, spec, path);
    LayoutApartFromWorkload(validUtf8, spec, path);
    AuthorizedApartFrom(validUtf8, spec.config, requested, r, path);
  }

  /** No configured tool lies in the working directory: a workload cannot replace one from where it runs. */
  lemma ToolsOutsideWorkingDirectory(validUtf8: string -> bool, c: Config, requested: string, r: Resolution,
                                     tool: string)
    requires ConfigValid(validUtf8, c) && ResolutionAccepted(validUtf8, c, requested, r)
    requires tool in c.pathEntries || exists k :: 0 <= k < |c.shells| && c.shells[k].executable == tool
    ensures !Contains(c.platform, r.workingDirectory, tool)
  {
    hide AbsoluteValid, Contains, Canonical, IsFilesystemRoot, Overlaps, Equal;
    assert ToolPathValid(validUtf8, c, tool);
    var home := AuthorizedInOneRoot(validUtf8, c, requested, r);
    assert RootValid(validUtf8, c, c.approvedRoots[home]);
    ValidIsCanonical(validUtf8, c.platform, c.approvedRoots[home]);
    ValidIsCanonical(validUtf8, c.platform, r.workingDirectory);
    ValidIsCanonical(validUtf8, c.platform, tool);
    if Contains(c.platform, r.workingDirectory, tool) {
      ContainsTransitive(c.platform, c.approvedRoots[home], r.workingDirectory, tool);
    }
  }
}
