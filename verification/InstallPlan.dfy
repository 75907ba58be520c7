/** internal/installplan: the protected tree an installation derives from one root, kept apart from everything
    the workload may write. */
module InstallPlan {
  import opened Segments
  import opened PlatformPath
  import opened InstallConfig
  import Protocol

  /** `accountsDiffer`: the two account names, compared without regard to case. */
  datatype Spec = Spec(config: Config, installationRoot: string, accountsDiffer: bool)

  datatype Layout = Layout(
    root: string, binDirectory: string, brokerExecutable: string, controlExecutable: string, stateDirectory: string,
    installationConfig: string, installationMetadata: string, executionCredential: string,
    runnerRoot: string, runnerControlExecutable: string, runnerWorkDirectory: string, runnerResponseDirectory: string)

  function RunnerRoot(root: string): string { root + "-runner" }

  function RunnerRootOf(validUtf8: string -> bool, platform: Platform, root: string): Protocol.Option<string>
  {
    if NonRootValid(validUtf8, platform, RunnerRoot(root)) then Protocol.Some(RunnerRoot(root)) else Protocol.None
  }

  /** joinWindows; and path.Join for a root and segments that are already clean. */
  function JoinPath(platform: Platform, root: string, segments: seq<string>): string
    requires segments != []
  {
    root + [Separator(platform)] + Join(segments, Separator(platform))
  }

  function Executable(platform: Platform, name: string): string { if platform.Windows? then name + ".exe" else name }

  /** WindowsLayout and LinuxLayout. */
  function LayoutOf(validUtf8: string -> bool, platform: Platform, root: string): Protocol.Option<Layout>
  {
    if !NonRootValid(validUtf8, platform, root) || !NonRootValid(validUtf8, platform, RunnerRoot(root)) then
      Protocol.None
    else
      Protocol.Some(Layout(
        root, JoinPath(platform, root, ["bin"]),
        JoinPath(platform, root, ["bin", Executable(platform, "awg-broker")]),
        JoinPath(platform, root, ["bin", Executable(platform, "awg")]),
        JoinPath(platform, root, ["state"]),
        JoinPath(platform, root, ["state", "installation.json"]),
        JoinPath(platform, root, ["state", "management.json"]),
        if platform.Windows? then JoinPath(platform, root, ["state", "execution-credential.dpapi"]) else "",
        RunnerRoot(root),
        JoinPath(platform, RunnerRoot(root), ["_awg", Executable(platform, "awg")]),
        JoinPath(platform, RunnerRoot(root), ["_work"]),
        JoinPath(platform, RunnerRoot(root), ["responses"])))
  }

  /** Every path of a layout; there is no execution credential on Linux. */
  predicate IsLayoutPath(layout: Layout, path: string)
  {
    path == layout.root || path == layout.binDirectory || path == layout.brokerExecutable
    || path == layout.controlExecutable || path == layout.stateDirectory || path == layout.installationConfig
    || path == layout.installationMetadata || (path == layout.executionCredential && path != "")
    || path == layout.runnerRoot || path == layout.runnerControlExecutable
    || path == layout.runnerWorkDirectory || path == layout.runnerResponseDirectory
  }

  /** A protected root is apart from everything the workload may write. */
  ghost predicate ApartFromWorkload(c: Config, root: string)
  {
    && (forall i :: 0 <= i < |c.approvedRoots| ==> !Overlaps(c.platform, root, c.approvedRoots[i]))
    && !Overlaps(c.platform, root, c.profileRoot) && !Overlaps(c.platform, root, c.tempRoot)
  }

  ghost predicate ToolsOutside(c: Config, root: string)
  {
    && (forall i :: 0 <= i < |c.shells| ==> !Contains(c.platform, root, c.shells[i].executable))
    && (forall i :: 0 <= i < |c.pathEntries| ==> !Contains(c.platform, root, c.pathEntries[i]))
  }

  ghost predicate SpecValid(validUtf8: string -> bool, spec: Spec)
  {
    && NonRootValid(validUtf8, spec.config.platform, spec.installationRoot)
    && ConfigValid(validUtf8, spec.config) && spec.accountsDiffer
    && ApartFromWorkload(spec.config, spec.installationRoot)
    && NonRootValid(validUtf8, spec.config.platform, RunnerRoot(spec.installationRoot))
    && ApartFromWorkload(spec.config, RunnerRoot(spec.installationRoot))
    && ToolsOutside(spec.config, RunnerRoot(spec.installationRoot))
  }

  method CheckApart(c: Config, root: string) returns (ok: bool)
    ensures ok <==> ApartFromWorkload(c, root)
  {
    hide Overlaps;
    for i := 0 to |c.approvedRoots|
      invariant forall k :: 0 <= k < i ==> !Overlaps(c.platform, root, c.approvedRoots[k])
    {
      if Overlaps(c.platform, root, c.approvedRoots[i]) { return false; }
    }
    if Overlaps(c.platform, root, c.profileRoot) { return false; }
    ok := !Overlaps(c.platform, root, c.tempRoot);
  }

  method CheckTools(c: Config, root: string) returns (ok: bool)
    ensures ok <==> ToolsOutside(c, root)
  {
    hide Contains;
    for i := 0 to |c.shells|
      invariant forall k :: 0 <= k < i ==> !Contains(c.platform, root, c.shells[k].executable)
    {
      if Contains(c.platform, root, c.shells[i].executable) { return false; }
    }
    for i := 0 to |c.pathEntries|
      invariant forall k :: 0 <= k < i ==> !Contains(c.platform, root, c.pathEntries[k])
    {
      if Contains(c.platform, root, c.pathEntries[i]) { return false; }
    }
    ok := true;
  }

  method Validate(validUtf8: string -> bool, spec: Spec) returns (ok: bool)
    ensures ok <==> SpecValid(validUtf8, spec)
  {
    hide NonRootValid, ConfigValid, ApartFromWorkload, ToolsOutside;
    var platform := spec.config.platform;
    if !NonRootValid(validUtf8, platform, spec.installationRoot) { return false; }
    ok := InstallConfig.Validate(validUtf8, spec.config);
    if !ok || !spec.accountsDiffer { return false; }
    ok := CheckApart(spec.config, spec.installationRoot);
    if !ok { return; }
    var runnerRoot := RunnerRootOf(validUtf8, platform, spec.installationRoot);
    if runnerRoot.None? { return false; }
    ok := CheckApart(spec.config, runnerRoot.value);
    if !ok { return; }
    ok := CheckTools(spec.config, runnerRoot.value);
  }

  // ----- What an accepted specification guarantees -----

  predicate Segment(platform: Platform, s: string) { s != "" && Separator(platform) !in s }

  lemma {:induction false} JoinEnds(segments: seq<string>, platform: Platform)
    requires segments != [] && forall k :: 0 <= k < |segments| ==> Segment(platform, segments[k])
    ensures var joined := Join(segments, Separator(platform));
            joined != "" && joined[|joined| - 1] != Separator(platform)
  {
    if |segments| > 1 {
      JoinEnds(segments[1..], platform);
    } else {
      assert Segment(platform, segments[0]);
    }
  }

  /** A join lies below its root. */
  lemma JoinBelow(platform: Platform, root: string, segments: seq<string>)
    requires Canonical(platform, root) && |root| > RootLength(platform)
    requires segments != [] && forall k :: 0 <= k < |segments| ==> Segment(platform, segments[k])
    ensures Canonical(platform, JoinPath(platform, root, segments))
    ensures Contains(platform, root, JoinPath(platform, root, segments))
  {
    JoinEnds(segments, platform);
    var path, sep := JoinPath(platform, root, segments), Separator(platform);
    assert path == (root + [sep]) + Join(segments, sep);
    assert Folded(platform, root + [sep]) <= Folded(platform, path);
  }

  /** The two protected roots are always apart. */
  lemma RootsApart(validUtf8: string -> bool, platform: Platform, root: string)
    requires NonRootValid(validUtf8, platform, root)
    ensures !Overlaps(platform, root, RunnerRoot(root))
  {
    ValidIsCanonical(validUtf8, platform, root);
    var runner, sep := RunnerRoot(root), Separator(platform);
    assert |Folded(platform, root)| == |root| && |Folded(platform, runner)| == |root| + 7;
    assert Folded(platform, root + [sep])[|root|] == sep && Folded(platform, runner)[|root|] == '-';
  }

  /** Every layout path is a canonical path below exactly one of the two protected roots. */
  lemma LayoutUnderTwoRoots(validUtf8: string -> bool, spec: Spec, path: string)
    requires SpecValid(validUtf8, spec)
    ensures var layout := LayoutOf(validUtf8, spec.config.platform, spec.installationRoot);
            layout.Some? &&
            (IsLayoutPath(layout.value, path) ==>
               && Canonical(spec.config.platform, path)
               && (Contains(spec.config.platform, spec.installationRoot, path)
                   <==> !Contains(spec.config.platform, RunnerRoot(spec.installationRoot), path)))
  {
    hide AbsoluteValid, Contains, ConfigValid, ApartFromWorkload, ToolsOutside, Canonical, JoinPath, IsLayoutPath,
         Derived;
    var platform, root := spec.config.platform, spec.installationRoot;
    ValidIsCanonical(validUtf8, platform, root);
    ValidIsCanonical(validUtf8, platform, RunnerRoot(root));
    LongerThanRoot(validUtf8, platform, root);
    LongerThanRoot(validUtf8, platform, RunnerRoot(root));
    RootsApart(validUtf8, platform, root);
    var layout := LayoutOf(validUtf8, platform, root).value;
    if IsLayoutPath(layout, path) {
      LayoutDerived(validUtf8, platform, root, path);
      if Derived(platform, root, path) {
        DerivedBelow(platform, root, path);
      } else {
        DerivedBelow(platform, RunnerRoot(root), path);
      }
      NotUnderBoth(platform, root, path);
    }
  }

  ghost predicate AllSegments(platform: Platform, segments: seq<string>)
  {
    segments != [] && forall k :: 0 <= k < |segments| ==> Segment(platform, segments[k])
  }

  ghost predicate Derived(platform: Platform, base: string, path: string)
  {
    path == base || exists segments :: AllSegments(platform, segments) && path == JoinPath(platform, base, segments)
  }

  lemma DerivedBelow(platform: Platform, base: string, path: string)
    requires Canonical(platform, base) && |base| > RootLength(platform) && Derived(platform, base, path)
    ensures Canonical(platform, path) && Contains(platform, base, path)
  {
    hide Contains, Canonical, JoinPath;
    ContainsReflexive(platform, base);
    if path != base {
      var segments :| AllSegments(platform, segments) && path == JoinPath(platform, base, segments);
      JoinBelow(platform, base, segments);
    }
  }

  lemma OneSegment(platform: Platform, base: string, a: string)
    requires Segment(platform, a)
    ensures Derived(platform, base, JoinPath(platform, base, [a]))
  {
    assert AllSegments(platform, [a]);
  }

  lemma TwoSegments(platform: Platform, base: string, a: string, b: string)
    requires Segment(platform, a) && Segment(platform, b)
    ensures Derived(platform, base, JoinPath(platform, base, [a, b]))
  {
    assert AllSegments(platform, [a, b]);
  }

  lemma LayoutDerived(validUtf8: string -> bool, platform: Platform, root: string, path: string)
    requires LayoutOf(validUtf8, platform, root).Some? && IsLayoutPath(LayoutOf(validUtf8, platform, root).value, path)
    ensures Derived(platform, root, path) || Derived(platform, RunnerRoot(root), path)
  {
    var runner := RunnerRoot(root);
    assert Derived(platform, root, root) && Derived(platform, runner, runner);
    NamesAreSegments(platform);
    hide Derived, JoinPath, RunnerRoot, NonRootValid, Segment, Executable;
    OneSegment(platform, root, "bin");
    TwoSegments(platform, root, "bin", Executable(platform, "awg-broker"));
    TwoSegments(platform, root, "bin", Executable(platform, "awg"));
    OneSegment(platform, root, "state");
    TwoSegments(platform, root, "state", "installation.json");
    TwoSegments(platform, root, "state", "management.json");
    TwoSegments(platform, root, "state", "execution-credential.dpapi");
    TwoSegments(platform, runner, "_awg", Executable(platform, "awg"));
    OneSegment(platform, runner, "_work");
    OneSegment(platform, runner, "responses");
  }

  lemma NamesAreSegments(platform: Platform)
    ensures Segment(platform, "bin") && Segment(platform, "state") && Segment(platform, "_awg")
    ensures Segment(platform, "_work")
    ensures Segment(platform, "responses") && Segment(platform, "installation.json")
    ensures Segment(platform, "management.json")
    ensures Segment(platform, "execution-credential.dpapi")
    ensures Segment(platform, Executable(platform, "awg")) && Segment(platform, Executable(platform, "awg-broker"))
  {
  }

  lemma LongerThanRoot(validUtf8: string -> bool, platform: Platform, root: string)
    requires NonRootValid(validUtf8, platform, root)
    ensures |root| > RootLength(platform)
  {
    ValidIsCanonical(validUtf8, platform, root);
  }

  lemma NotUnderBoth(platform: Platform, root: string, path: string)
    requires Canonical(platform, root) && Canonical(platform, RunnerRoot(root)) && Canonical(platform, path)
    requires !Overlaps(platform, root, RunnerRoot(root))
    ensures !(Contains(platform, root, path) && Contains(platform, RunnerRoot(root), path))
  {
    if Contains(platform, root, path) && Contains(platform, RunnerRoot(root), path) {
      CommonPathOverlaps(platform, root, RunnerRoot(root), path);
    }
  }

  /** No layout path overlaps anything the workload may write. */
  lemma LayoutApartFromWorkload(validUtf8: string -> bool, spec: Spec, path: string)
    requires SpecValid(validUtf8, spec)
    requires var layout := LayoutOf(validUtf8, spec.config.platform, spec.installationRoot);
             layout.Some? && IsLayoutPath(layout.value, path)
    ensures ApartFromWorkload(spec.config, path)
  {
    hide AbsoluteValid, Contains, Overlaps, ShellsValid, PathEntriesValid, ToolsOutside, Canonical, IsLayoutPath,
         JoinPath, IsFilesystemRoot;
    var c, root := spec.config, spec.installationRoot;
    LayoutUnderTwoRoots(validUtf8, spec, path);
    ValidIsCanonical(validUtf8, c.platform, root);
    ValidIsCanonical(validUtf8, c.platform, RunnerRoot(root));
    var above := if Contains(c.platform, root, path) then root else RunnerRoot(root);
    assert Contains(c.platform, above, path) && ApartFromWorkload(c, above);
    forall i | 0 <= i < |c.approvedRoots| ensures !Overlaps(c.platform, path, c.approvedRoots[i]) {
      assert RootValid(validUtf8, c, c.approvedRoots[i]);
      ValidIsCanonical(validUtf8, c.platform, c.approvedRoots[i]);
      OverlapsNothingBelow(c.platform, above, path, c.approvedRoots[i]);
    }
    ValidIsCanonical(validUtf8, c.platform, c.profileRoot);
    OverlapsNothingBelow(c.platform, above, path, c.profileRoot);
    ValidIsCanonical(validUtf8, c.platform, c.tempRoot);
    OverlapsNothingBelow(c.platform, above, path, c.tempRoot);
  }
}
