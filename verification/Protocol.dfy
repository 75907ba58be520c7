/** protocol/v1: the records of one execution and the validators every party applies to them.
    Library code (SHA-256, path.Match, UTF-8 checks, RFC 3339 formatting) is an oracle. */
module Protocol {
  import opened Segments
  import opened ArtifactPattern

  newtype byte = x: int | 0 <= x < 256
  type bytes = seq<byte>

  datatype Option<+T> = None | Some(value: T)

  const MAX_IDENTIFIER_BYTES := 64
  const MIN_TIMEOUT_SECONDS := 1
  const MAX_TIMEOUT_SECONDS := 24 * 60 * 60
  const MIN_OUTPUT_BYTES := 1024
  const MAX_OUTPUT_BYTES := 5 * 1024 * 1024
  const MAX_REPORT_BYTES := 256 * 1024
  const MAX_ARTIFACT_GROUPS := 8
  const MAX_ARTIFACT_GROUP_BYTES := 32
  const MAX_ARTIFACT_PATHS := 16
  const MAX_ARTIFACT_PATH_BYTES := 256
  const MAX_TOTAL_ARTIFACT_PATHS := 64
  const MAX_ARTIFACT_FILES := 256
  const MAX_ARTIFACT_OMISSIONS := 128
  const MAX_ARTIFACT_FILE_PATH_BYTES := 1024
  const MAX_ARTIFACT_FILE_BYTES := 512 * 1024 * 1024
  const MAX_TOTAL_ARTIFACT_BYTES := 1024 * 1024 * 1024
  const MAX_EXIT_CODE := 4294967295
  const MAX_INT64 := 0x7FFF_FFFF_FFFF_FFFF

  /** The instants, in nanoseconds of Unix time, whose year has four digits. */
  const FIRST_INSTANT := -62167219200 * 1000000000
  const LAST_INSTANT := 253402300800 * 1000000000 - 1

  predicate Representable(instant: int) { FIRST_INSTANT <= instant <= LAST_INSTANT }

  /** The functions the records depend on. SHA-256 is a streaming hash: a start state, a state update and a
      final sum. The digest of a request's canonical JSON and the syntax of a working directory and of a script
      are given as well. */
  datatype Library = Library(
    pathMatch: SegmentOracle,
    validUtf8: string -> bool,
    hashStart: nat,
    hashAbsorb: (nat, bytes) -> nat,
    hashSum: nat -> string,
    formatTime: int -> string,
    parseTime: string -> Option<int>,
    digestRequest: Request -> Option<string>,
    directoryValid: string -> bool,
    scriptValid: string -> bool,
    hasSpace: string -> bool)

  predicate AbsorbsInParts(lib: Library, state: nat, a: bytes, b: bytes)
  {
    lib.hashAbsorb(lib.hashAbsorb(state, a), b) == lib.hashAbsorb(state, a + b)
  }

  /** Section 5.6 of RFC 3339 has four-digit years; formatting and parsing are inverse exactly there. */
  ghost predicate Lawful(lib: Library)
  {
    && (forall state :: LowerHex(lib.hashSum(state), 64))
    && (forall state :: lib.hashAbsorb(state, []) == state)
    && (forall state, a, b :: AbsorbsInParts(lib, state, a, b))
    && (forall instant :: Representable(instant) ==> lib.parseTime(lib.formatTime(instant)) == Some(instant))
    && (forall instant :: !Representable(instant) ==> lib.parseTime(lib.formatTime(instant)) == None)
    && !lib.scriptValid("")
  }

  /** The digest of a whole content. */
  function Digest(lib: Library, content: bytes): string
  {
    lib.hashSum(lib.hashAbsorb(lib.hashStart, content))
  }

  lemma DigestIsHex(lib: Library, content: bytes)
    requires Lawful(lib)
    ensures LowerHex(Digest(lib, content), 64)
  {
  }

  // ----- Records -----

  datatype Operation = Execute | Start | Status | Stop | Logs

  datatype ArtifactSelection = ArtifactSelection(name: string, paths: seq<string>)

  datatype Shell = Bash | Cmd | GitBash | PowerShell | Pwsh | UnknownShell

  datatype Request = Request(
    version: int, requestId: string, sessionId: string, actor: string, operation: Operation, processId: string,
    shell: Shell, workingDirectory: string, script: string, timeoutSeconds: int, maxOutputBytes: int,
    artifacts: seq<ArtifactSelection>)

  datatype IssueProvenance = IssueProvenance(number: int, nodeId: string, senderId: int, senderLogin: string)

  datatype WorkflowProvenance = WorkflowProvenance(
    repository: string, runId: int, runAttempt: int, eventName: string, eventAction: string, headSha: string)

  datatype AcceptedRequest = AcceptedRequest(
    version: int, requestId: string, requestDigest: string, request: Request, issue: IssueProvenance,
    workflow: WorkflowProvenance, controlSourceSha: string, acceptedAt: string)

  datatype CommandStatus = Cancelled | Completed | Failed | RuntimeFailed | TimedOut | UnknownCommandStatus

  datatype ArtifactStatus = Complete | CompleteWithOmissions | CollectionFailed | NotRequested | UnknownArtifactStatus

  datatype OmissionReason =
    | ByteLimit | CollectionFailure | FileLimit | LinkRejected | NoMatch
    | PolicyRejected | ReadFailed | UnsupportedType
    | UnknownReason | MissingReason  // any other text, and the empty one
  {
    predicate Supported() { !UnknownReason? && !MissingReason? }
  }

  datatype ArtifactFile = ArtifactFile(group: string, path: string, sha256: string, sizeBytes: int)

  datatype ArtifactOmission = ArtifactOmission(group: string, pattern: string, reason: OmissionReason)

  /** A nil array is distinguished from an empty one: the validator refuses it. */
  datatype ArtifactManifest = ArtifactManifest(
    status: ArtifactStatus, fileArray: Option<seq<ArtifactFile>>, omissionArray: Option<seq<ArtifactOmission>>)
  {
    function Files(): seq<ArtifactFile> { if fileArray.Some? then fileArray.value else [] }
    function Omissions(): seq<ArtifactOmission> { if omissionArray.Some? then omissionArray.value else [] }
  }

  datatype OutputMetadata = OutputMetadata(sha256: string, totalBytes: int, retainedBytes: int, truncated: bool)

  datatype ExecutionReport = ExecutionReport(
    protocolVersion: int, requestId: string, requestDigest: string, attemptId: string, gatewaySourceSha: string,
    commandStatus: CommandStatus, exitCode: Option<int>, startedAt: string, finishedAt: string,
    durationMilliseconds: int, stdout: OutputMetadata, stderr: OutputMetadata, artifacts: ArtifactManifest)

  const VERSION := 1

  /** The script of a request that only names a running process. */
  const LIFECYCLE_SCRIPT := "-"

  // ----- Scalars -----

  predicate LowerHex(s: string, length: nat)
  {
    |s| == length && forall k :: 0 <= k < |s| ==> '0' <= s[k] <= '9' || 'a' <= s[k] <= 'f'
  }

  predicate IdentifierChar(c: char) { 'a' <= c <= 'z' || '0' <= c <= '9' || c == '.' || c == '_' || c == '-' }

  predicate IsIdentifier(s: string)
  {
    && 1 <= |s| <= MAX_IDENTIFIER_BYTES
    && ('a' <= s[0] <= 'z' || '0' <= s[0] <= '9')
    && forall k :: 0 <= k < |s| ==> IdentifierChar(s[k])
  }

  predicate IsGroup(s: string) { |s| <= MAX_ARTIFACT_GROUP_BYTES && IsIdentifier(s) }

  function LowerChar(c: char): char { if 'A' <= c <= 'Z' then c - 'A' + 'a' else c }

  function Lower(s: string): (r: string)
    ensures |r| == |s|
  {
    seq(|s|, k requires 0 <= k < |s| => LowerChar(s[k]))
  }

  const FORBIDDEN_SEGMENTS := {".aws", ".azure", ".git", ".gnupg", ".kube", ".runtime", ".ssh"}

  predicate SensitiveSegment(segment: string)
  {
    var lower := Lower(segment);
    lower in FORBIDDEN_SEGMENTS || lower == ".env" || ".env." <= lower
  }

  predicate HasControlCharacter(s: string)
  {
    exists k :: 0 <= k < |s| && (s[k] < ' ' || s[k] == '\U{7f}')
  }

  predicate CanonicalSegment(segment: string)
  {
    && segment != "" && segment != "." && segment != ".."
    && !HasControlCharacter(segment) && !SensitiveSegment(segment)
  }

  predicate RelativePathValid(lib: Library, path: string, maximumBytes: nat, allowGlob: bool)
  {
    && lib.validUtf8(path) && 0 < |path| <= maximumBytes
    && path[0] != '/' && '\\' !in path && ':' !in path && '\0' !in path
    && (if allowGlob then lib.pathMatch(path, "synthetic/path") != Malformed
        else '*' !in path && '?' !in path && '[' !in path)
    && var segments := Split(path, '/');
    forall k :: 0 <= k < |segments| ==> CanonicalSegment(segments[k])
  }

  predicate FilePathValid(lib: Library, path: string)
  {
    RelativePathValid(lib, path, MAX_ARTIFACT_FILE_PATH_BYTES, false)
  }

  predicate PatternValid(lib: Library, pattern: string)
  {
    RelativePathValid(lib, pattern, MAX_ARTIFACT_PATH_BYTES, true)
  }

  /** validateCanonicalUTCTimestamp: parses, and formats back to the same text. */
  function CanonicalTime(lib: Library, text: string): Option<int>
  {
    match lib.parseTime(text)
    case None => None
    case Some(instant) => if lib.formatTime(instant) == text then Some(instant) else None
  }

  /** time.Time.Sub saturates at the bounds of an int64 of nanoseconds. */
  function DurationMilliseconds(startedAt: int, finishedAt: int): int
    requires startedAt <= finishedAt
  {
    (if finishedAt - startedAt > MAX_INT64 then MAX_INT64 else finishedAt - startedAt) / 1000000
  }

  // ----- Keys -----

  /** group + NUL + path: how bundles, walks and validators key a file. */
  function BundleKey(group: string, path: string): string { group + "\0" + path }

  /** The key determines the pair as soon as neither left part holds a NUL. */
  lemma BundleKeyInjective(group1: string, path1: string, group2: string, path2: string)
    requires '\0' !in group1 && '\0' !in group2
    ensures BundleKey(group1, path1) == BundleKey(group2, path2) <==> group1 == group2 && path1 == path2
  {
    var left, right := BundleKey(group1, path1), BundleKey(group2, path2);
    assert left[|group1|] == '\0' && right[|group2|] == '\0';
    assert |group1| < |group2| ==> right[|group1|] == group2[|group1|];
    assert |group2| < |group1| ==> left[|group2|] == group1[|group2|];
    if left == right {
      assert group1 == left[..|group1|] && group2 == right[..|group2|];
      assert path1 == left[|group1| + 1..] && path2 == right[|group2| + 1..];
    }
  }

  lemma IdentifierHasNoNul(s: string)
    requires IsIdentifier(s)
    ensures '\0' !in s
  {
    forall k | 0 <= k < |s| ensures s[k] != '\0' {
      assert IdentifierChar(s[k]);
    }
  }

  // ----- Selections -----

  predicate DistinctStrings(strings: seq<string>)
  {
    forall a, b :: 0 <= a < b < |strings| ==> strings[a] != strings[b]
  }

  predicate SelectionValid(lib: Library, selection: ArtifactSelection)
  {
    && IsGroup(selection.name)
    && 0 < |selection.paths| <= MAX_ARTIFACT_PATHS
    && (forall k :: 0 <= k < |selection.paths| ==> PatternValid(lib, selection.paths[k]))
    && DistinctStrings(selection.paths)
  }

  function TotalPaths(selections: seq<ArtifactSelection>): nat
  {
    if selections == [] then 0 else TotalPaths(selections[..|selections| - 1]) + |selections[|selections| - 1].paths|
  }

  ghost predicate SelectionsValid(lib: Library, selections: seq<ArtifactSelection>)
  {
    && |selections| <= MAX_ARTIFACT_GROUPS
    && (forall k :: 0 <= k < |selections| ==> SelectionValid(lib, selections[k]))
    && (forall a, b :: 0 <= a < b < |selections| ==> selections[a].name != selections[b].name)
    && TotalPaths(selections) <= MAX_TOTAL_ARTIFACT_PATHS
  }

  method ValidateSelection(lib: Library, selection: ArtifactSelection) returns (ok: bool)
    ensures ok <==> SelectionValid(lib, selection)
  {
    hide FilePathValid, PatternValid, IsGroup;
    if !IsGroup(selection.name) { return false; }
    if |selection.paths| == 0 || |selection.paths| > MAX_ARTIFACT_PATHS { return false; }
    var seenPaths: set<string> := {};
    for j := 0 to |selection.paths|
      invariant forall k :: 0 <= k < j ==> PatternValid(lib, selection.paths[k])
      invariant DistinctStrings(selection.paths[..j])
      invariant seenPaths == set k | 0 <= k < j :: selection.paths[k]
    {
      if !PatternValid(lib, selection.paths[j]) { return false; }
      if selection.paths[j] in seenPaths { return false; }
      seenPaths := seenPaths + {selection.paths[j]};
    }
    assert selection.paths[..|selection.paths|] == selection.paths;
    ok := true;
  }

  method ValidateArtifactSelections(lib: Library, selections: seq<ArtifactSelection>) returns (ok: bool)
    ensures ok <==> SelectionsValid(lib, selections)
  {
    if |selections| > MAX_ARTIFACT_GROUPS { return false; }
    var groupNames: set<string> := {};
    var totalPaths := 0;
    for i := 0 to |selections|
      invariant forall k :: 0 <= k < i ==> SelectionValid(lib, selections[k])
      invariant forall a, b :: 0 <= a < b < i ==> selections[a].name != selections[b].name
      invariant groupNames == set k | 0 <= k < i :: selections[k].name
      invariant totalPaths == TotalPaths(selections[..i])
    {
      var selection := selections[i];
      if selection.name in groupNames { return false; }
      groupNames := groupNames + {selection.name};
      var selectionOk := ValidateSelection(lib, selection);
      if !selectionOk { return false; }
      totalPaths := totalPaths + |selection.paths|;
      assert selections[..i + 1][..i] == selections[..i];
    }
    assert selections[..|selections|] == selections;
    ok := totalPaths <= MAX_TOTAL_ARTIFACT_PATHS;
  }

  // ----- Manifests -----

  function TotalBytes(files: seq<ArtifactFile>): int
  {
    if files == [] then 0 else TotalBytes(files[..|files| - 1]) + files[|files| - 1].sizeBytes
  }

  predicate ArtifactFileValid(lib: Library, file: ArtifactFile)
  {
    && IsGroup(file.group) && FilePathValid(lib, file.path) && LowerHex(file.sha256, 64)
    && 0 <= file.sizeBytes <= MAX_ARTIFACT_FILE_BYTES
  }

  predicate OmissionValid(lib: Library, omission: ArtifactOmission)
  {
    IsGroup(omission.group) && PatternValid(lib, omission.pattern) && omission.reason.Supported()
  }

  predicate SameFile(a: ArtifactFile, b: ArtifactFile) { a.group == b.group && a.path == b.path }

  predicate StatusShapeValid(manifest: ArtifactManifest)
  {
    match manifest.status
    case NotRequested => manifest.Files() == [] && manifest.Omissions() == []
    case Complete => manifest.Files() != [] && manifest.Omissions() == []
    case CompleteWithOmissions => manifest.Omissions() != []
    case CollectionFailed => manifest.Omissions() != []
    case UnknownArtifactStatus => false
  }

  ghost predicate FilesValid(lib: Library, files: seq<ArtifactFile>)
  {
    && (forall k :: 0 <= k < |files| ==> ArtifactFileValid(lib, files[k]))
    && (forall a, b :: 0 <= a < b < |files| ==> !SameFile(files[a], files[b]))
    && TotalBytes(files) <= MAX_TOTAL_ARTIFACT_BYTES
  }

  ghost predicate OmissionsValid(lib: Library, omissions: seq<ArtifactOmission>)
  {
    && (forall k :: 0 <= k < |omissions| ==> OmissionValid(lib, omissions[k]))
    && (forall a, b :: 0 <= a < b < |omissions| ==> omissions[a] != omissions[b])
  }

  /** What validateArtifactManifest accepts, without its loops and seen maps. */
  ghost predicate ManifestValid(lib: Library, manifest: ArtifactManifest)
  {
    && manifest.fileArray.Some? && manifest.omissionArray.Some?
    && |manifest.Files()| <= MAX_ARTIFACT_FILES && |manifest.Omissions()| <= MAX_ARTIFACT_OMISSIONS
    && StatusShapeValid(manifest)
    && FilesValid(lib, manifest.Files()) && OmissionsValid(lib, manifest.Omissions())
  }

  lemma {:induction false} TotalBytesMonotone(files: seq<ArtifactFile>, i: nat)
    requires i <= |files|
    requires forall k :: i <= k < |files| ==> 0 <= files[k].sizeBytes
    ensures TotalBytes(files[..i]) <= TotalBytes(files)
    decreases |files|
  {
    if i < |files| {
      var front := files[..|files| - 1];
      TotalBytesMonotone(front, i);
      assert front[..i] == files[..i];
    } else {
      assert files[..i] == files;
    }
  }

  method ValidateArtifactManifest(lib: Library, manifest: ArtifactManifest) returns (ok: bool)
    ensures ok <==> ManifestValid(lib, manifest)
  {
    if manifest.status == UnknownArtifactStatus { return false; }
    if manifest.fileArray.None? || manifest.omissionArray.None? { return false; }
    var files, omissions := manifest.fileArray.value, manifest.omissionArray.value;
    if |files| > MAX_ARTIFACT_FILES { return false; }
    if |omissions| > MAX_ARTIFACT_OMISSIONS { return false; }
    if !StatusShapeValid(manifest) { return false; }
    var filesOk := ValidateFiles(lib, files);
    if !filesOk { return false; }
    ok := ValidateOmissions(lib, omissions);
  }

  /** The seen map answers exactly whether the file was listed before. */
  lemma SeenFile(files: seq<ArtifactFile>, i: nat, file: ArtifactFile)
    requires i <= |files| && IsGroup(file.group)
    requires forall k :: 0 <= k < i ==> IsGroup(files[k].group)
    ensures BundleKey(file.group, file.path) in (set k | 0 <= k < i :: BundleKey(files[k].group, files[k].path)) <==>
            exists k :: 0 <= k < i && SameFile(files[k], file)
  {
    forall k | 0 <= k < i
      ensures BundleKey(files[k].group, files[k].path) == BundleKey(file.group, file.path) <==> SameFile(files[k], file)
    {
      IdentifierHasNoNul(files[k].group);
      IdentifierHasNoNul(file.group);
      BundleKeyInjective(files[k].group, files[k].path, file.group, file.path);
    }
  }

  method ValidateFiles(lib: Library, files: seq<ArtifactFile>) returns (ok: bool)
    ensures ok <==> FilesValid(lib, files)
  {
    hide FilePathValid, PatternValid, IsGroup;
    var seenFiles: set<string> := {};
    var totalBytes := 0;
    for i := 0 to |files|
      invariant forall k :: 0 <= k < i ==> ArtifactFileValid(lib, files[k])
      invariant forall a, b :: 0 <= a < b < i ==> !SameFile(files[a], files[b])
      invariant seenFiles == set k | 0 <= k < i :: BundleKey(files[k].group, files[k].path)
      invariant totalBytes == TotalBytes(files[..i]) <= MAX_TOTAL_ARTIFACT_BYTES
    {
      var file := files[i];
      if !ArtifactFileValid(lib, file) { return false; }
      var identity := BundleKey(file.group, file.path);
      SeenFile(files, i, file);
      if identity in seenFiles { return false; }
      seenFiles := seenFiles + {identity};
      totalBytes := totalBytes + file.sizeBytes;
      assert files[..i + 1][..i] == files[..i];
      if totalBytes > MAX_TOTAL_ARTIFACT_BYTES {
        ExceedsForGood(lib, files, i + 1);
        return false;
      }
    }
    assert files[..|files|] == files;
    ok := true;
  }

  lemma ExceedsForGood(lib: Library, files: seq<ArtifactFile>, i: nat)
    requires i <= |files| && TotalBytes(files[..i]) > MAX_TOTAL_ARTIFACT_BYTES
    ensures !FilesValid(lib, files)
  {
    hide FilePathValid, PatternValid, IsGroup;
    if FilesValid(lib, files) {
      assert forall k :: i <= k < |files| ==> ArtifactFileValid(lib, files[k]);
      TotalBytesMonotone(files, i);
    }
  }

  lemma SeenOmission(omissions: seq<ArtifactOmission>, i: nat, omission: ArtifactOmission)
    requires i <= |omissions| && IsGroup(omission.group)
    requires forall k :: 0 <= k < i ==> IsGroup(omissions[k].group)
    ensures (BundleKey(omission.group, omission.pattern), omission.reason) in
              (set k | 0 <= k < i :: (BundleKey(omissions[k].group, omissions[k].pattern), omissions[k].reason)) <==>
            exists k :: 0 <= k < i && omissions[k] == omission
  {
    forall k | 0 <= k < i
      ensures omissions[k] == omission <==>
              (BundleKey(omissions[k].group, omissions[k].pattern), omissions[k].reason) ==
              (BundleKey(omission.group, omission.pattern), omission.reason)
    {
      IdentifierHasNoNul(omissions[k].group);
      IdentifierHasNoNul(omission.group);
      BundleKeyInjective(omissions[k].group, omissions[k].pattern, omission.group, omission.pattern);
    }
  }

  method ValidateOmissions(lib: Library, omissions: seq<ArtifactOmission>) returns (ok: bool)
    ensures ok <==> OmissionsValid(lib, omissions)
  {
    hide FilePathValid, PatternValid, IsGroup;
    var seenOmissions: set<(string, OmissionReason)> := {};
    for i := 0 to |omissions|
      invariant forall k :: 0 <= k < i ==> OmissionValid(lib, omissions[k])
      invariant forall a, b :: 0 <= a < b < i ==> omissions[a] != omissions[b]
      invariant seenOmissions ==
                set k | 0 <= k < i :: (BundleKey(omissions[k].group, omissions[k].pattern), omissions[k].reason)
    {
      var omission := omissions[i];
      if !OmissionValid(lib, omission) { return false; }
      var identity := (BundleKey(omission.group, omission.pattern), omission.reason);
      SeenOmission(omissions, i, omission);
      if identity in seenOmissions { return false; }
      seenOmissions := seenOmissions + {identity};
    }
    ok := true;
  }

  // ----- Reports -----

  predicate CommandOutcomeValid(status: CommandStatus, exitCode: Option<int>)
  {
    match status
    case Completed => exitCode == Some(0)
    case Failed => exitCode.Some? && 0 < exitCode.value <= MAX_EXIT_CODE
    case Cancelled => exitCode == None
    case RuntimeFailed => exitCode == None
    case TimedOut => exitCode == None
    case UnknownCommandStatus => false
  }

  predicate OutputMetadataValid(output: OutputMetadata)
  {
    && LowerHex(output.sha256, 64)
    && 0 <= output.totalBytes
    && 0 <= output.retainedBytes <= MAX_OUTPUT_BYTES && output.retainedBytes <= output.totalBytes
    && (output.truncated <==> output.retainedBytes < output.totalBytes)
  }

  predicate TimesValid(lib: Library, report: ExecutionReport)
  {
    var startedAt, finishedAt := CanonicalTime(lib, report.startedAt), CanonicalTime(lib, report.finishedAt);
    && startedAt.Some? && finishedAt.Some?
    && startedAt.value <= finishedAt.value
    && report.durationMilliseconds == DurationMilliseconds(startedAt.value, finishedAt.value)
  }

  predicate ReportHeaderValid(lib: Library, report: ExecutionReport)
  {
    && report.protocolVersion == VERSION
    && IsIdentifier(report.requestId) && LowerHex(report.requestDigest, 64)
    && IsIdentifier(report.attemptId) && LowerHex(report.gatewaySourceSha, 40)
    && CommandOutcomeValid(report.commandStatus, report.exitCode)
    && TimesValid(lib, report)
    && OutputMetadataValid(report.stdout) && OutputMetadataValid(report.stderr)
  }

  ghost predicate ReportValid(lib: Library, report: ExecutionReport)
  {
    ReportHeaderValid(lib, report) && ManifestValid(lib, report.artifacts)
  }

  method ValidateExecutionReport(lib: Library, report: ExecutionReport) returns (ok: bool)
    ensures ok <==> ReportValid(lib, report)
  {
    if !ReportHeaderValid(lib, report) { return false; }
    ok := ValidateArtifactManifest(lib, report.artifacts);
  }

  // ----- Requests and binding -----

  /** What ValidateRequest accepts, without its maps and loops. */
  ghost predicate RequestValid(lib: Library, request: Request)
  {
    && request.version == VERSION
    && IsIdentifier(request.requestId) && IsIdentifier(request.sessionId) && IsIdentifier(request.actor)
    && (if request.operation == Execute then request.processId == "" else IsIdentifier(request.processId))
    && request.shell != UnknownShell
    && lib.directoryValid(request.workingDirectory) && lib.scriptValid(request.script)
    && (request.operation in {Status, Stop, Logs} ==> request.script == LIFECYCLE_SCRIPT)
    && MIN_TIMEOUT_SECONDS <= request.timeoutSeconds <= MAX_TIMEOUT_SECONDS
    && MIN_OUTPUT_BYTES <= request.maxOutputBytes <= MAX_OUTPUT_BYTES
    && SelectionsValid(lib, request.artifacts)
    && (request.operation != Execute ==> request.artifacts == [])
  }

  method ValidateRequest(lib: Library, request: Request) returns (ok: bool)
    ensures ok <==> RequestValid(lib, request)
  {
    hide IsIdentifier, SelectionsValid;
    if request.version != VERSION { return false; }
    if !IsIdentifier(request.requestId) || !IsIdentifier(request.sessionId) || !IsIdentifier(request.actor) {
      return false;
    }
    if request.operation == Execute {
      if request.processId != "" { return false; }
    } else if !IsIdentifier(request.processId) {
      return false;
    }
    if request.shell == UnknownShell || !lib.directoryValid(request.workingDirectory) { return false; }
    if !lib.scriptValid(request.script) { return false; }
    if request.operation != Execute && request.operation != Start && request.script != LIFECYCLE_SCRIPT {
      return false;
    }
    if request.timeoutSeconds < MIN_TIMEOUT_SECONDS || request.timeoutSeconds > MAX_TIMEOUT_SECONDS { return false; }
    if request.maxOutputBytes < MIN_OUTPUT_BYTES || request.maxOutputBytes > MAX_OUTPUT_BYTES { return false; }
    ok := ValidateArtifactSelections(lib, request.artifacts);
    if !ok { return; }
    ok := request.operation == Execute || |request.artifacts| == 0;
  }

  predicate NameChar(c: char) { 'a' <= c <= 'z' || 'A' <= c <= 'Z' || '0' <= c <= '9' || c == '-' }

  /** senderLoginPattern: up to 39 letters, digits and hyphens, no hyphen in front. */
  predicate IsLogin(s: string)
  {
    1 <= |s| <= 39 && s[0] != '-' && forall k :: 0 <= k < |s| ==> NameChar(s[k])
  }

  /** repositoryPattern: an owner and a name. */
  predicate IsRepository(s: string)
  {
    var parts := Split(s, '/');
    |parts| == 2 && forall k :: 0 <= k < 2 ==>
      1 <= |parts[k]| <= 100 && forall c :: c in parts[k] ==> NameChar(c) || c == '_' || c == '.'
  }

  predicate IssueValid(lib: Library, issue: IssueProvenance)
  {
    && issue.number > 0 && issue.senderId > 0
    && 0 < |issue.nodeId| <= 128 && !lib.hasSpace(issue.nodeId) && !HasControlCharacter(issue.nodeId)
    && IsLogin(issue.senderLogin)
  }

  predicate WorkflowValid(workflow: WorkflowProvenance)
  {
    && IsRepository(workflow.repository) && workflow.runId > 0 && workflow.runAttempt > 0
    && workflow.eventName == "issues" && workflow.eventAction == "opened" && LowerHex(workflow.headSha, 40)
  }

  /** What ValidateAcceptedRequestRecord accepts: the record of its own valid request, with where it came from. */
  ghost predicate AcceptedValid(lib: Library, accepted: AcceptedRequest)
  {
    && accepted.version == VERSION
    && IsIdentifier(accepted.requestId) && RequestValid(lib, accepted.request)
    && accepted.requestId == accepted.request.requestId && LowerHex(accepted.requestDigest, 64)
    && lib.digestRequest(accepted.request) == Some(accepted.requestDigest)
    && IssueValid(lib, accepted.issue) && WorkflowValid(accepted.workflow)
    && LowerHex(accepted.controlSourceSha, 40) && CanonicalTime(lib, accepted.acceptedAt).Some?
  }

  method ValidateAcceptedRequest(lib: Library, accepted: AcceptedRequest) returns (ok: bool)
    ensures ok <==> AcceptedValid(lib, accepted)
  {
    hide IsIdentifier, RequestValid, LowerHex, IssueValid, WorkflowValid, CanonicalTime;
    if accepted.version != VERSION || !IsIdentifier(accepted.requestId) { return false; }
    ok := ValidateRequest(lib, accepted.request);
    if !ok { return; }
    if accepted.requestId != accepted.request.requestId || !LowerHex(accepted.requestDigest, 64) { return false; }
    if lib.digestRequest(accepted.request) != Some(accepted.requestDigest) { return false; }
    if !IssueValid(lib, accepted.issue) || !WorkflowValid(accepted.workflow) { return false; }
    ok := LowerHex(accepted.controlSourceSha, 40) && CanonicalTime(lib, accepted.acceptedAt).Some?;
  }

  predicate HasGroup(selections: seq<ArtifactSelection>, group: string)
  {
    exists k :: 0 <= k < |selections| && selections[k].name == group
  }

  /** What ValidateExecutionReportBinding accepts beyond the two records' own validity. */
  predicate BindingHolds(accepted: AcceptedRequest, report: ExecutionReport)
  {
    var selections := accepted.request.artifacts;
    && report.requestId == accepted.requestId && report.requestDigest == accepted.requestDigest
    && report.stdout.retainedBytes <= accepted.request.maxOutputBytes
    && report.stderr.retainedBytes <= accepted.request.maxOutputBytes
    && (selections == [] <==> report.artifacts.status == NotRequested)
    && (forall k :: 0 <= k < |report.artifacts.Files()| ==> HasGroup(selections, report.artifacts.Files()[k].group))
    && (forall k :: 0 <= k < |report.artifacts.Omissions()| ==>
        HasGroup(selections, report.artifacts.Omissions()[k].group))
  }

  method GroupNames(selections: seq<ArtifactSelection>) returns (groups: set<string>)
    ensures forall group :: group in groups <==> HasGroup(selections, group)
    ensures groups == {} <==> selections == []
  {
    groups := {};
    for i := 0 to |selections|
      invariant forall group :: group in groups <==> HasGroup(selections[..i], group)
      invariant groups == {} <==> i == 0
    {
      groups := groups + {selections[i].name};
      assert selections[..i + 1][..i] == selections[..i];
      assert selections[..i + 1][i] == selections[i];
      forall group ensures HasGroup(selections[..i + 1], group) <==>
                           HasGroup(selections[..i], group) || group == selections[i].name {
        if k :| 0 <= k < i && selections[..i][k].name == group {
          assert selections[..i + 1][k].name == group;
        }
      }
    }
    assert selections[..|selections|] == selections;
  }

  method ValidateExecutionReportBinding(lib: Library, accepted: AcceptedRequest, report: ExecutionReport)
    returns (ok: bool)
    requires AcceptedValid(lib, accepted)
    ensures ok <==> ReportValid(lib, report) && BindingHolds(accepted, report)
  {
    ok := ValidateExecutionReport(lib, report);
    if !ok { return; }
    ok := CheckBinding(accepted, report);
  }

  method CheckBinding(accepted: AcceptedRequest, report: ExecutionReport) returns (ok: bool)
    ensures ok <==> BindingHolds(accepted, report)
  {
    if report.requestId != accepted.requestId || report.requestDigest != accepted.requestDigest { return false; }
    if report.stdout.retainedBytes > accepted.request.maxOutputBytes { return false; }
    if report.stderr.retainedBytes > accepted.request.maxOutputBytes { return false; }
    var selections := accepted.request.artifacts;
    var groups := GroupNames(selections);
    if groups == {} && report.artifacts.status != NotRequested { return false; }
    if groups != {} && report.artifacts.status == NotRequested { return false; }
    var files := report.artifacts.Files();
    for i := 0 to |files|
      invariant forall k :: 0 <= k < i ==> HasGroup(selections, files[k].group)
    {
      if files[i].group !in groups { return false; }
    }
    var omissions := report.artifacts.Omissions();
    for i := 0 to |omissions|
      invariant forall k :: 0 <= k < i ==> HasGroup(selections, omissions[k].group)
    {
      if omissions[i].group !in groups { return false; }
    }
    ok := true;
  }
}
