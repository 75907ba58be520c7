/** How long the two records of a collection become: no validator bounds their encodings, and a plan that its helper
    can still send may lead to a report that the broker cannot. */
module ReportLength {
  import opened Segments
  import opened ArtifactPattern
  import opened Protocol
  import opened ExecutionPolicy
  import opened ExecutionRun
  import opened LinuxCollector
  import opened HelperProtocol
  import BrokerWire
  import BrokerSession

  // ----- What the encodings spell out -----

  /** The characters of a list of planned files, with the names and the punctuation of each file's three members. */
  function PlanCharacters(files: seq<HelperFile>): nat
  {
    if files == [] then 0
    else
      var last := files[|files| - 1];
      PlanCharacters(files[..|files| - 1]) + |last.group| + |last.path| + 30
  }

  function ReportCharacters(files: seq<ArtifactFile>): nat
  {
    if files == [] then 0
    else
      var last := files[|files| - 1];
      ReportCharacters(files[..|files| - 1]) + |last.group| + |last.path| + |last.sha256|
  }

  predicate Plain(s: string) { forall k :: 0 <= k < |s| ==> 'a' <= s[k] <= 'z' || s[k] == '/' }

  ghost predicate PlainFiles(files: seq<HelperFile>)
  {
    forall k :: 0 <= k < |files| ==> Plain(files[k].group) && Plain(files[k].path) && files[k].size < 1000000000
  }

  /** JSON spells every member out; around letters and slashes it adds no more than quotes, names, commas, braces and up
      to nine digits. */
  ghost predicate SpellsPlans(codec: PlanCodec)
  {
    && (forall plan: HelperPlan :: PlanCharacters(plan.files) <= |codec.encode(plan)|)
    && (forall plan: HelperPlan :: PlainFiles(plan.files) && plan.omissions == [] ==>
          |codec.encode(plan)| <= PlanCharacters(plan.files) + 10 * |plan.files| + 40)
  }

  ghost predicate SpellsReports(codec: BrokerWire.Codec)
  {
    forall report: ExecutionReport :: ReportCharacters(report.artifacts.Files()) <= |codec.encodeReport(report)|
  }

  // ----- 256 files with long paths -----

  /** Two letters for each number below 256. */
  function Tag(i: nat): (tag: string)
    requires i < MAX_ARTIFACT_FILES
    ensures |tag| == 2 && Plain(tag) && '/' !in tag
  {
    ['a' + (i / 16) as char, 'a' + (i % 16) as char]
  }

  function Run(n: nat): (s: string)
    ensures |s| == n && forall k :: 0 <= k < n ==> s[k] == 'a'
  {
    seq(n, _ => 'a')
  }

  /** Three directories and a file, each with a name of that width. */
  function LongPath(width: nat, i: nat): string
    requires i < MAX_ARTIFACT_FILES
  {
    Run(width) + "/" + (Run(width) + "/" + (Run(width) + "/" + (Run(width) + Tag(i))))
  }

  lemma LongPathLetters(width: nat, i: nat)
    requires i < MAX_ARTIFACT_FILES
    ensures var path := LongPath(width, i);
            && |path| == 4 * width + 5 && Plain(path)
            && path[4 * width + 3] == Tag(i)[0] && path[4 * width + 4] == Tag(i)[1]
  {
  }

  lemma LongPathsDiffer(width: nat, i: nat, j: nat)
    requires i < j < MAX_ARTIFACT_FILES
    ensures LongPath(width, i) != LongPath(width, j)
  {
    LongPathLetters(width, i);
    LongPathLetters(width, j);
    hide LongPath;
  }

  lemma LetterSegment(s: string)
    requires s != "" && Plain(s) && '/' !in s
    ensures CanonicalSegment(s)
  {
    assert Lower(s)[0] == s[0];
    hide Lower;
  }

  lemma LongPathValid(lib: Library, width: nat, i: nat)
    requires i < MAX_ARTIFACT_FILES && 0 < width && 4 * width + 5 <= MAX_ARTIFACT_FILE_PATH_BYTES
    requires lib.validUtf8(LongPath(width, i))
    ensures FilePathValid(lib, LongPath(width, i))
  {
    var name, last := Run(width), Run(width) + Tag(i);
    LongPathLetters(width, i);
    LetterSegment(name);
    LetterSegment(last);
    SplitWithoutSeparator(name, '/');
    SplitWithoutSeparator(last, '/');
    SplitAppend(name, last, '/');
    SplitAppend(name, name + "/" + last, '/');
    SplitAppend(name, name + "/" + (name + "/" + last), '/');
    assert LongPath(width, i) == name + ['/'] + (name + "/" + (name + "/" + last));
    assert Split(LongPath(width, i), '/') == [name, name, name, last];
    hide LongPath, Split, CanonicalSegment;
  }

  function LongPlan(width: nat): HelperPlan
  {
    HelperPlan(seq(MAX_ARTIFACT_FILES,
                   i requires 0 <= i < MAX_ARTIFACT_FILES => HelperFile("g", LongPath(width, i), 0)), [])
  }

  /** The manifest that the collector makes of that plan when it is delivered, all files being empty. */
  function LongManifest(lib: Library, width: nat): ArtifactManifest
  {
    ArtifactManifest(
      Complete,
      Some(seq(MAX_ARTIFACT_FILES, i requires 0 <= i < MAX_ARTIFACT_FILES =>
                 ArtifactFile("g", LongPath(width, i), Digest(lib, []), 0))),
      Some([]))
  }

  lemma {:induction false} PlanAdds(files: seq<HelperFile>, each: nat)
    requires forall k :: 0 <= k < |files| ==> |files[k].group| + |files[k].path| + 30 == each && files[k].size == 0
    ensures PlanCharacters(files) == |files| * each && SumSizes(files) == 0
  {
    if files != [] {
      PlanAdds(files[..|files| - 1], each);
    }
  }

  lemma {:induction false} ReportAdds(files: seq<ArtifactFile>, each: nat)
    requires forall k :: 0 <= k < |files| ==>
              |files[k].group| + |files[k].path| + |files[k].sha256| == each && files[k].sizeBytes == 0
    ensures ReportCharacters(files) == |files| * each && TotalBytes(files) == 0
  {
    if files != [] {
      ReportAdds(files[..|files| - 1], each);
    }
  }

  ghost predicate Writable(lib: Library, width: nat)
  {
    forall i :: 0 <= i < MAX_ARTIFACT_FILES ==> lib.validUtf8(LongPath(width, i))
  }

  lemma EverythingAllowed(lib: Library, path: string)
    ensures FileAllowed(lib, EVERYTHING, "g", path)
  {
    DoubleStarSelects(lib, path);
    SelectingHits(lib, "**", path);
    hide MatchOutcome, Selecting;
    assert PatternsOf(EVERYTHING, "g") == Some(["**"]);
    assert ["**"][0] == "**";
  }

  lemma LongPlanValid(lib: Library, width: nat)
    requires Writable(lib, width) && 0 < width && 4 * width + 5 <= MAX_ARTIFACT_FILE_PATH_BYTES
    ensures HelperPlanValid(lib, LongPlan(width), EVERYTHING)
    ensures PlanCharacters(LongPlan(width).files) == MAX_ARTIFACT_FILES * (4 * width + 36)
    ensures PlainFiles(LongPlan(width).files) && SumSizes(LongPlan(width).files) == 0
  {
    hide LongPath, FilePathValid, FileAllowed;
    var files := LongPlan(width).files;
    forall k | 0 <= k < |files|
      ensures HelperFileValid(lib, EVERYTHING, files[k]) && Plain(files[k].path) && |files[k].path| == 4 * width + 5
    {
      LongPathValid(lib, width, k);
      LongPathLetters(width, k);
      EverythingAllowed(lib, files[k].path);
    }
    forall a, b | 0 <= a < b < |files| ensures !SameHelperFile(files[a], files[b]) {
      LongPathsDiffer(width, a, b);
    }
    PlanAdds(files, 4 * width + 36);
  }

  lemma LongManifestValid(lib: Library, width: nat)
    requires Lawful(lib) && Writable(lib, width) && 0 < width && 4 * width + 5 <= MAX_ARTIFACT_FILE_PATH_BYTES
    ensures ManifestValid(lib, LongManifest(lib, width)) && CollectionAllowed(lib, LongManifest(lib, width), EVERYTHING)
    ensures ReportCharacters(LongManifest(lib, width).Files()) == MAX_ARTIFACT_FILES * (4 * width + 70)
  {
    hide LongPath, FilePathValid, FileAllowed, Lawful;
    DigestIsHex(lib, []);
    hide Digest;
    var files := LongManifest(lib, width).Files();
    forall k | 0 <= k < |files|
      ensures ArtifactFileValid(lib, files[k]) && |files[k].path| == 4 * width + 5
      ensures FileAllowed(lib, EVERYTHING, files[k].group, files[k].path)
    {
      LongPathValid(lib, width, k);
      LongPathLetters(width, k);
      EverythingAllowed(lib, files[k].path);
    }
    forall a, b | 0 <= a < b < |files| ensures !SameFile(files[a], files[b]) {
      LongPathsDiffer(width, a, b);
    }
    ReportAdds(files, 4 * width + 70);
  }

  // ----- Too long -----

  const PLAN_WIDTH := 253
  const REPORT_WIDTH := 240

  /** A valid plan that is never sent: 256 files, each with a path of 1017 bytes. */
  lemma LongPlanIsNeverSent(lib: Library, codec: PlanCodec)
    requires SpellsPlans(codec) && Writable(lib, PLAN_WIDTH)
    ensures HelperPlanValid(lib, LongPlan(PLAN_WIDTH), EVERYTHING)
    ensures |codec.encode(LongPlan(PLAN_WIDTH))| > MAX_PLAN_BYTES
  {
    hide LongPlan, HelperPlanValid, Writable;
    LongPlanValid(lib, PLAN_WIDTH);
  }

  /** With paths of 965 bytes the plan is sent and its content accepted, the manifest is valid and allowed, every report
      that carries it is valid as far as its own header is, and yet no such report can be written. */
  lemma LongReportIsNeverWritten(lib: Library, plans: PlanCodec, reports: BrokerWire.Codec, report: ExecutionReport)
    requires Lawful(lib) && SpellsPlans(plans) && SpellsReports(reports) && Writable(lib, REPORT_WIDTH)
    requires report.artifacts == LongManifest(lib, REPORT_WIDTH) && ReportHeaderValid(lib, report)
    ensures |plans.encode(LongPlan(REPORT_WIDTH))| <= MAX_PLAN_BYTES
    ensures Receivable(lib, EVERYTHING, LongPlan(REPORT_WIDTH), [])
    ensures CollectionAllowed(lib, report.artifacts, EVERYTHING) && ReportValid(lib, report)
    ensures |reports.encodeReport(report)| > MAX_REPORT_BYTES
  {
    LongPlanValid(lib, REPORT_WIDTH);
    LongManifestValid(lib, REPORT_WIDTH);
    hide LongManifest, HelperPlanValid, ManifestValid, CollectionAllowed, ReportHeaderValid, Lawful, Writable, LongPath;
  }

  /** So a run that collected those files has no deliverable outcome, whatever else it did. */
  lemma LongReportNeverArrives(d: BrokerSession.Deployment, given: BrokerSession.Conditions, plan: LaunchPlan,
                               outcome: RunOutcome)
    requires Lawful(d.lib) && SpellsReports(d.codec) && Writable(d.lib, REPORT_WIDTH)
    requires outcome.artifacts == LongManifest(d.lib, REPORT_WIDTH) && 0 <= plan.maxOutputBytes
    requires Reportable(given.world.startedAt, given.world.finishedAt, outcome)
    ensures !BrokerSession.ReportFits(d, given, plan, outcome)
  {
    LongManifestValid(d.lib, REPORT_WIDTH);
    hide LongManifest, ManifestValid, CollectionAllowed, Lawful, Writable, Reportable;
    var report := ReportOf(d.lib, plan, d.sha, given.world.startedAt, given.world.finishedAt, outcome);
    assert report.artifacts == outcome.artifacts;
  }
}
