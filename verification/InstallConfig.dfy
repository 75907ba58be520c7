/** internal/installconfig: the workload's roots and tools. */
module InstallConfig {
  import opened PlatformPath
  import opened Protocol

  const MAX_APPROVED_ROOTS := 16
  const MAX_PATH_ENTRIES := 32
  const MAX_SHELLS := 5

  datatype ShellBinding = ShellBinding(shell: Shell, executable: string)

  /** `otherFieldsValid` stands for the version, the two principals and the capabilities. */
  datatype Config = Config(
    otherFieldsValid: bool, platform: Platform, approvedRoots: seq<string>, shells: seq<ShellBinding>,
    profileRoot: string, tempRoot: string, pathEntries: seq<string>)

  predicate ShellSupported(platform: Platform, shell: Shell)
  {
    if platform.Windows? then shell in {Cmd, GitBash, PowerShell, Pwsh} else shell in {Bash, Pwsh}
  }

  predicate NonRootValid(validUtf8: string -> bool, platform: Platform, value: string)
  {
    AbsoluteValid(validUtf8, platform, value) && !IsFilesystemRoot(platform, value)
  }

  /** The approved roots are pairwise apart, and apart from the profile and the temporary directory. */
  ghost predicate RootsValid(validUtf8: string -> bool, c: Config)
  {
    && 0 < |c.approvedRoots| <= MAX_APPROVED_ROOTS
    && NonRootValid(validUtf8, c.platform, c.profileRoot) && NonRootValid(validUtf8, c.platform, c.tempRoot)
    && !Equal(c.platform, c.profileRoot, c.tempRoot)
    && (forall i :: 0 <= i < |c.approvedRoots| ==> RootValid(validUtf8, c, c.approvedRoots[i]))
    && (forall i, j :: 0 <= j < i < |c.approvedRoots| ==> !Overlaps(c.platform, c.approvedRoots[i], c.approvedRoots[j]))
  }

  predicate RootValid(validUtf8: string -> bool, c: Config, root: string)
  {
    && NonRootValid(validUtf8, c.platform, root)
    && !Overlaps(c.platform, root, c.profileRoot) && !Overlaps(c.platform, root, c.tempRoot)
  }

  /** A tool path lies in no approved root. */
  ghost predicate ToolPathValid(validUtf8: string -> bool, c: Config, value: string)
  {
    && NonRootValid(validUtf8, c.platform, value)
    && forall i :: 0 <= i < |c.approvedRoots| ==> !Contains(c.platform, c.approvedRoots[i], value)
  }

  ghost predicate ShellsValid(validUtf8: string -> bool, c: Config)
  {
    && 0 < |c.shells| <= MAX_SHELLS
    && (forall i :: 0 <= i < |c.shells| ==>
          ShellSupported(c.platform, c.shells[i].shell) && ToolPathValid(validUtf8, c, c.shells[i].executable))
    && (forall i, j :: 0 <= j < i < |c.shells| ==>
          c.shells[j].shell != c.shells[i].shell && !Equal(c.platform, c.shells[j].executable, c.shells[i].executable))
  }

  ghost predicate PathEntriesValid(validUtf8: string -> bool, c: Config)
  {
    && 0 < |c.pathEntries| <= MAX_PATH_ENTRIES
    && (forall i :: 0 <= i < |c.pathEntries| ==> ToolPathValid(validUtf8, c, c.pathEntries[i]))
    && (forall i, j :: 0 <= j < i < |c.pathEntries| ==> !Equal(c.platform, c.pathEntries[i], c.pathEntries[j]))
  }

  ghost predicate ConfigValid(validUtf8: string -> bool, c: Config)
  {
    c.otherFieldsValid && RootsValid(validUtf8, c) && ShellsValid(validUtf8, c) && PathEntriesValid(validUtf8, c)
  }

  method ValidateRoots(validUtf8: string -> bool, c: Config) returns (ok: bool)
    ensures ok <==> RootsValid(validUtf8, c)
  {
    hide NonRootValid, Overlaps, Equal;
    if |c.approvedRoots| == 0 || |c.approvedRoots| > MAX_APPROVED_ROOTS { return false; }
    if !NonRootValid(validUtf8, c.platform, c.profileRoot) || !NonRootValid(validUtf8, c.platform, c.tempRoot) {
      return false;
    }
    if Equal(c.platform, c.profileRoot, c.tempRoot) { return false; }
    for i := 0 to |c.approvedRoots|
      invariant forall k :: 0 <= k < i ==> RootValid(validUtf8, c, c.approvedRoots[k])
      invariant forall k, j :: 0 <= j < k < i ==> !Overlaps(c.platform, c.approvedRoots[k], c.approvedRoots[j])
    {
      if !RootValid(validUtf8, c, c.approvedRoots[i]) { return false; }
      for j := 0 to i
        invariant forall k :: 0 <= k < j ==> !Overlaps(c.platform, c.approvedRoots[i], c.approvedRoots[k])
      {
        if Overlaps(c.platform, c.approvedRoots[i], c.approvedRoots[j]) { return false; }
      }
    }
    ok := true;
  }

  method ValidateToolPath(validUtf8: string -> bool, c: Config, value: string) returns (ok: bool)
    ensures ok <==> ToolPathValid(validUtf8, c, value)
  {
    hide NonRootValid, Contains;
    if !NonRootValid(validUtf8, c.platform, value) { return false; }
    for i := 0 to |c.approvedRoots|
      invariant forall k :: 0 <= k < i ==> !Contains(c.platform, c.approvedRoots[k], value)
    {
      if Contains(c.platform, c.approvedRoots[i], value) { return false; }
    }
    ok := true;
  }

  method ValidateShells(validUtf8: string -> bool, c: Config) returns (ok: bool)
    ensures ok <==> ShellsValid(validUtf8, c)
  {
    hide ToolPathValid, Equal, ShellSupported;
    if |c.shells| == 0 || |c.shells| > MAX_SHELLS { return false; }
    var seenShells: set<Shell> := {};
    var seenExecutables: seq<string> := [];
    for i := 0 to |c.shells|
      invariant seenShells == set k | 0 <= k < i :: c.shells[k].shell
      invariant |seenExecutables| == i && forall k :: 0 <= k < i ==> seenExecutables[k] == c.shells[k].executable
      invariant forall k :: 0 <= k < i ==>
                  ShellSupported(c.platform, c.shells[k].shell) && ToolPathValid(validUtf8, c, c.shells[k].executable)
      invariant forall k, j :: 0 <= j < k < i ==>
                  c.shells[j].shell != c.shells[k].shell
                      && !Equal(c.platform, c.shells[j].executable, c.shells[k].executable)
    {
      var binding := c.shells[i];
      if !ShellSupported(c.platform, binding.shell) || binding.shell in seenShells { return false; }
      seenShells := seenShells + {binding.shell};
      var toolOk := ValidateToolPath(validUtf8, c, binding.executable);
      if !toolOk { return false; }
      for j := 0 to i
        invariant forall k :: 0 <= k < j ==> !Equal(c.platform, c.shells[k].executable, binding.executable)
      {
        if Equal(c.platform, seenExecutables[j], binding.executable) { return false; }
      }
      seenExecutables := seenExecutables + [binding.executable];
    }
    ok := true;
  }

  method ValidatePathEntries(validUtf8: string -> bool, c: Config) returns (ok: bool)
    ensures ok <==> PathEntriesValid(validUtf8, c)
  {
    hide ToolPathValid, Equal;
    if |c.pathEntries| == 0 || |c.pathEntries| > MAX_PATH_ENTRIES { return false; }
    for i := 0 to |c.pathEntries|
      invariant forall k :: 0 <= k < i ==> ToolPathValid(validUtf8, c, c.pathEntries[k])
      invariant forall k, j :: 0 <= j < k < i ==> !Equal(c.platform, c.pathEntries[k], c.pathEntries[j])
    {
      var toolOk := ValidateToolPath(validUtf8, c, c.pathEntries[i]);
      if !toolOk { return false; }
      for j := 0 to i
        invariant forall k :: 0 <= k < j ==> !Equal(c.platform, c.pathEntries[i], c.pathEntries[k])
      {
        if Equal(c.platform, c.pathEntries[i], c.pathEntries[j]) { return false; }
      }
    }
    ok := true;
  }

  method Validate(validUtf8: string -> bool, c: Config) returns (ok: bool)
    ensures ok <==> ConfigValid(validUtf8, c)
  {
    if !c.otherFieldsValid { return false; }
    ok := ValidateRoots(validUtf8, c);
    if !ok { return; }
    ok := ValidateShells(validUtf8, c);
    if !ok { return; }
    ok := ValidatePathEntries(validUtf8, c);
  }

  /** Any path lies in at most one approved root. */
  lemma UniqueApprovedRoot(validUtf8: string -> bool, c: Config, i: nat, j: nat, path: string)
    requires RootsValid(validUtf8, c) && i < |c.approvedRoots| && j < |c.approvedRoots| && Rooted(c.platform, path)
    requires Contains(c.platform, c.approvedRoots[i], path) && Contains(c.platform, c.approvedRoots[j], path)
    ensures i == j
  {
    hide AbsoluteValid, Contains, IsFilesystemRoot, Canonical, Rooted;
    assert RootValid(validUtf8, c, c.approvedRoots[i]) && RootValid(validUtf8, c, c.approvedRoots[j]);
    ValidIsCanonical(validUtf8, c.platform, c.approvedRoots[i]);
    ValidIsCanonical(validUtf8, c.platform, c.approvedRoots[j]);
    CommonPathOverlaps(c.platform, c.approvedRoots[i], c.approvedRoots[j], path);
  }
}
