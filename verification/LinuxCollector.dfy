/** internal/platform/linux/artifact: the pruned directory walk that selects artifacts, and the plan it hands over. */
module LinuxCollector {
  import opened Segments
  import opened ArtifactPattern
  import opened Protocol
  import opened ExecutionRun
  import opened Sorting

  const MAX_ARTIFACT_DEPTH := 32
  const MAX_SCANNED_ENTRIES := 8192

  // ----- The directory tree -----

  datatype Entry = Entry(name: string, node: Node)

  /** An unreadable directory is one whose listing fails: WalkDir reports it and the walk goes on.
      Leaf stands for every entry that is neither a directory nor a symbolic link. */
  datatype Node = Directory(entries: seq<Entry>, readable: bool) | Symlink | Leaf

  function Child(prefix: string, name: string): string
  {
    if prefix == "" then name else prefix + "/" + name
  }

  lemma ChildIsNamed(prefix: string, name: string)
    requires name != ""
    ensures Child(prefix, name) != ""
  {
  }

  /** `path` is a leaf at or below `relative`. */
  ghost predicate IsLeaf(relative: string, node: Node, path: string)
    decreases node
  {
    match node
    case Leaf => path == relative
    case Symlink => false
    case Directory(entries, _) => IsLeafAmong(relative, entries, path)
  }

  ghost predicate IsLeafAmong(prefix: string, entries: seq<Entry>, path: string)
    decreases entries
  {
    exists i :: 0 <= i < |entries| && IsLeaf(Child(prefix, entries[i].name), entries[i].node, path)
  }

  /** `path` is a leaf at or below `relative`, and every directory on the way to it can be listed. */
  ghost predicate IsReadableLeaf(relative: string, node: Node, path: string)
    decreases node
  {
    match node
    case Leaf => path == relative
    case Symlink => false
    case Directory(entries, readable) => readable && IsReadableLeafAmong(relative, entries, path)
  }

  ghost predicate IsReadableLeafAmong(prefix: string, entries: seq<Entry>, path: string)
    decreases entries
  {
    exists i :: 0 <= i < |entries| && IsReadableLeaf(Child(prefix, entries[i].name), entries[i].node, path)
  }

  lemma {:induction false} ReadableIsLeaf(relative: string, node: Node, path: string)
    requires IsReadableLeaf(relative, node, path)
    ensures IsLeaf(relative, node, path)
    decreases node
  {
    if node.Directory? {
      var i :| 0 <= i < |node.entries|
               && IsReadableLeaf(Child(relative, node.entries[i].name), node.entries[i].node, path);
      ReadableIsLeaf(Child(relative, node.entries[i].name), node.entries[i].node, path);
    }
  }

  lemma {:induction false} LeafBelow(relative: string, node: Node, path: string)
    requires node.Directory? && relative != "" && IsLeaf(relative, node, path)
    ensures exists rest :: path == relative + "/" + rest
    decreases node
  {
    var i :| 0 <= i < |node.entries| && IsLeaf(Child(relative, node.entries[i].name), node.entries[i].node, path);
    var name, below := node.entries[i].name, node.entries[i].node;
    var child := relative + "/" + name;
    if below.Directory? {
      LeafBelow(child, below, path);
      var rest :| path == child + "/" + rest;
      SlashAssociates(relative, name, rest);
    }
  }

  lemma SlashAssociates(a: string, b: string, c: string)
    ensures a + "/" + b + "/" + c == a + "/" + (b + "/" + c)
  {
  }

  // ----- Opening one candidate -----

  /** What open, fstat and readlink find out about a candidate. */
  datatype Probe = Unopenable | NotRegular | HardLinked | Displaced | Regular(size: int)
  type ProbeOracle = (string, string) -> Probe

  datatype Stable = Opened(size: int) | Skipped(reason: OmissionReason)

  function OpenStableFile(probe: Probe, remaining: int): Stable
  {
    match probe
    case Unopenable => Skipped(ReadFailed)
    case NotRegular => Skipped(UnsupportedType)
    case HardLinked => Skipped(LinkRejected)
    case Displaced => Skipped(LinkRejected)
    case Regular(size) =>
      if size < 0 || size > MAX_ARTIFACT_FILE_BYTES || size > remaining then Skipped(ByteLimit) else Opened(size)
  }

  // ----- Patterns and plans -----

  datatype PatternState = PatternState(group: string, pattern: string, collected: bool, reason: Option<OmissionReason>)

  datatype HelperFile = HelperFile(group: string, path: string, size: int)

  datatype HelperPlan = HelperPlan(files: seq<HelperFile>, omissions: seq<ArtifactOmission>)

  function SumSizes(files: seq<HelperFile>): int
  {
    if files == [] then 0 else SumSizes(files[..|files| - 1]) + files[|files| - 1].size
  }

  predicate SameHelperFile(a: HelperFile, b: HelperFile) { a.group == b.group && a.path == b.path }

  predicate HelperFileValid(lib: Library, selections: seq<ArtifactSelection>, file: HelperFile)
  {
    && FilePathValid(lib, file.path) && 0 <= file.size <= MAX_ARTIFACT_FILE_BYTES
    && FileAllowed(lib, selections, file.group, file.path)
  }

  /** What validateHelperPlan accepts, without its maps. */
  ghost predicate HelperPlanValid(lib: Library, plan: HelperPlan, selections: seq<ArtifactSelection>)
  {
    && |plan.files| <= MAX_ARTIFACT_FILES && |plan.omissions| <= MAX_ARTIFACT_OMISSIONS
    && (forall k :: 0 <= k < |plan.files| ==> HelperFileValid(lib, selections, plan.files[k]))
    && Apart(SameHelperFile, plan.files)
    && SumSizes(plan.files) <= MAX_TOTAL_ARTIFACT_BYTES
    && (forall k :: 0 <= k < |plan.omissions| ==> PlannedOmissionValid(selections, plan.omissions[k]))
  }

  predicate PlannedOmissionValid(selections: seq<ArtifactSelection>, omission: ArtifactOmission)
  {
    OmissionAllowed(selections, omission.group, omission.pattern) && omission.reason != MissingReason
  }

  /** One state per requested pattern, in request order. */
  function Flatten(selections: seq<ArtifactSelection>): seq<PatternState>
  {
    if selections == [] then []
    else
      var last := selections[|selections| - 1];
      Flatten(selections[..|selections| - 1])
      + seq(|last.paths|, k requires 0 <= k < |last.paths| => PatternState(last.name, last.paths[k], false, None))
  }

  predicate SameRequest(a: PatternState, b: PatternState) { a.group == b.group && a.pattern == b.pattern }

  ghost predicate DistinctNames(selections: seq<ArtifactSelection>)
  {
    forall a, b :: 0 <= a < b < |selections| ==> selections[a].name != selections[b].name
  }

  /** Each flattened state is one listed pattern, untouched so far. */
  ghost predicate FreshRequest(lib: Library, selections: seq<ArtifactSelection>, state: PatternState)
  {
    && !state.collected && state.reason == None && IsGroup(state.group) && PatternValid(lib, state.pattern)
    && OmissionAllowed(selections, state.group, state.pattern)
  }

  lemma {:induction false} FlattenSound(lib: Library, selections: seq<ArtifactSelection>)
    requires DistinctNames(selections)
    requires forall k :: 0 <= k < |selections| ==> SelectionValid(lib, selections[k])
    ensures |Flatten(selections)| == TotalPaths(selections)
    ensures forall p :: 0 <= p < |Flatten(selections)| ==> FreshRequest(lib, selections, Flatten(selections)[p])
  {
    hide PatternValid, IsGroup;
    if selections != [] {
      var n := |selections| - 1;
      var front, last, all := selections[..n], selections[n], Flatten(selections);
      FlattenSound(lib, front);
      var before := Flatten(front);
      assert SelectionValid(lib, last);
      forall p | 0 <= p < |all| ensures FreshRequest(lib, selections, all[p]) {
        if p < |before| {
          assert all[p] == before[p] && FreshRequest(lib, front, before[p]);
          PatternsOfHasGroup(front, before[p].group);
          var k :| 0 <= k < |front| && front[k].name == before[p].group;
          assert selections[k].name == before[p].group;
        } else {
          assert all[p] == PatternState(last.name, last.paths[p - |before|], false, None);
        }
      }
    }
  }

  lemma {:induction false} FlattenDistinct(lib: Library, selections: seq<ArtifactSelection>)
    requires DistinctNames(selections)
    requires forall k :: 0 <= k < |selections| ==> SelectionValid(lib, selections[k])
    ensures Apart(SameRequest, Flatten(selections))
  {
    hide PatternValid, IsGroup;
    if selections != [] {
      var n := |selections| - 1;
      var front, last, all := selections[..n], selections[n], Flatten(selections);
      FlattenDistinct(lib, front);
      FlattenSound(lib, front);
      var before := Flatten(front);
      assert SelectionValid(lib, last);
      forall a, b | 0 <= a < b < |all| ensures !SameRequest(all[a], all[b]) {
        if b < |before| {
          assert all[a] == before[a] && all[b] == before[b];
        } else if a < |before| {
          assert all[a] == before[a] && FreshRequest(lib, front, before[a]);
          PatternsOfHasGroup(front, before[a].group);
          var k :| 0 <= k < |front| && front[k].name == before[a].group;
          assert selections[k].name == before[a].group;
        }
      }
    }
  }

  lemma {:induction false} FlattenComplete(selections: seq<ArtifactSelection>, group: string, pattern: string)
    requires OmissionAllowed(selections, group, pattern)
    ensures exists p :: 0 <= p < |Flatten(selections)|
              && Flatten(selections)[p] == PatternState(group, pattern, false, None)
  {
    var n := |selections| - 1;
    var front, last, all := selections[..n], selections[n], Flatten(selections);
    if group == last.name {
      var k :| 0 <= k < |last.paths| && last.paths[k] == pattern;
      assert all[|Flatten(front)| + k] == PatternState(group, pattern, false, None);
    } else {
      FlattenComplete(front, group, pattern);
      var p :| 0 <= p < |Flatten(front)| && Flatten(front)[p] == PatternState(group, pattern, false, None);
      assert all[p] == Flatten(front)[p];
    }
  }

  predicate HasSensitiveSegment(path: string)
  {
    var segments := Split(path, '/');
    exists k :: 0 <= k < |segments| && SensitiveSegment(segments[k])
  }

  /** The walk refuses to look at this name, or below it. */
  predicate PolicyRejects(lib: Library, relative: string)
  {
    !FilePathValid(lib, relative) || |Split(relative, '/')| > MAX_ARTIFACT_DEPTH || HasSensitiveSegment(relative)
  }

  function WithReason(state: PatternState, reason: OmissionReason): PatternState
  {
    if state.reason == None then state.(reason := Some(reason)) else state
  }

  /** A pruned prefix concerns a pattern that selects it or could select something below it. */
  predicate Concerns(oracle: SegmentOracle, pattern: string, prefix: string)
  {
    match MatchOutcome(oracle, pattern, prefix)
    case Hit => true
    case BadPattern => false
    case Miss => DescendantOutcome(oracle, pattern, prefix) == Hit
  }

  /** Pruning below `relative` is never held against the wrong patterns only: whatever a well-formed
      pattern selects at or below it, the pattern is concerned. */
  lemma PrunedIsConcerned(oracle: SegmentOracle, pattern: string, relative: string, node: Node, path: string)
    requires WellFormed(oracle, pattern) && relative != ""
    requires IsLeaf(relative, node, path) && MatchOutcome(oracle, pattern, path) == Hit
    ensures Concerns(oracle, pattern, relative)
  {
    MatchMeaning(oracle, pattern, relative);
    if MatchOutcome(oracle, pattern, relative) == BadPattern {
      var k, l :| ReachesMalformed(oracle, Split(pattern, '/'), Split(relative, '/'), 0, 0, k, l);
    }
    if node.Directory? {
      LeafBelow(relative, node, path);
      var rest :| path == relative + "/" + rest;
      MatchMeaning(oracle, pattern, path);
      DescendantNeverMissed(oracle, pattern, relative, rest);
      WellFormedNeverBad(oracle, Split(pattern, '/'), Split(relative, '/'), 0, 0);
    }
  }

  // ----- What the walk keeps -----

  /** The walk's variables at one moment. */
  datatype Progress = Progress(patterns: seq<PatternState>, collected: seq<HelperFile>, keys: set<string>, total: int)

  ghost predicate NeverMalformed(lib: Library, patterns: seq<PatternState>, path: string)
  {
    forall p :: 0 <= p < |patterns| ==> MatchOutcome(lib.pathMatch, patterns[p].pattern, path) != BadPattern
  }

  /** No pattern is malformed on the file's path, and one of its group selects it. */
  ghost predicate Chosen(lib: Library, patterns: seq<PatternState>, group: string, path: string)
  {
    && NeverMalformed(lib, patterns, path)
    && exists p :: 0 <= p < |patterns| && patterns[p].group == group
                   && MatchOutcome(lib.pathMatch, patterns[p].pattern, path) == Hit
  }

  ghost predicate StateValid(state: PatternState, anyCollected: bool)
  {
    && IsGroup(state.group) && (state.collected ==> anyCollected)
    && (state.reason.Some? ==> state.reason.value.Supported() && state.reason.value != NoMatch)
  }

  ghost predicate FileKept(lib: Library, patterns: seq<PatternState>, file: HelperFile)
  {
    && FilePathValid(lib, file.path) && 0 <= file.size <= MAX_ARTIFACT_FILE_BYTES
    && IsGroup(file.group) && Chosen(lib, patterns, file.group, file.path)
  }

  ghost predicate ProgressValid(lib: Library, s: Progress)
  {
    && (forall p :: 0 <= p < |s.patterns| ==> StateValid(s.patterns[p], s.collected != []))
    && |s.collected| <= MAX_ARTIFACT_FILES
    && s.total == SumSizes(s.collected) <= MAX_TOTAL_ARTIFACT_BYTES
    && (forall k :: 0 <= k < |s.collected| ==> FileKept(lib, s.patterns, s.collected[k]))
    && Apart(SameHelperFile, s.collected)
    && s.keys == (set k | 0 <= k < |s.collected| :: BundleKey(s.collected[k].group, s.collected[k].path))
  }

  ghost predicate InPlan(files: seq<HelperFile>, group: string, path: string)
  {
    exists k :: 0 <= k < |files| && files[k].group == group && files[k].path == path
  }

  /** Pattern p accounts for `path`: it has a reason, or its group collected the file. */
  ghost predicate Covers(s: Progress, p: nat, path: string)
    requires p < |s.patterns|
  {
    s.patterns[p].reason.Some? || InPlan(s.collected, s.patterns[p].group, path)
  }

  ghost predicate Selecting(lib: Library, pattern: string, path: string)
  {
    WellFormed(lib.pathMatch, pattern) && MatchOutcome(lib.pathMatch, pattern, path) == Hit
  }

  /** Every well-formed pattern that selects `path` accounts for it. */
  ghost predicate Accounted(lib: Library, s: Progress, path: string)
  {
    forall p :: 0 <= p < |s.patterns| && Selecting(lib, s.patterns[p].pattern, path) ==> Covers(s, p, path)
  }

  ghost predicate StateGrown(before: PatternState, after: PatternState)
  {
    SameRequest(before, after) && (before.reason.Some? ==> after.reason == before.reason)
  }

  /** Reasons and collected files are only ever added. */
  ghost predicate Grown(s: Progress, t: Progress)
  {
    && |t.patterns| == |s.patterns|
    && (forall p :: 0 <= p < |s.patterns| ==> StateGrown(s.patterns[p], t.patterns[p]))
    && s.collected <= t.collected
  }

  lemma GrownReflexive(s: Progress)
    ensures Grown(s, s)
  {
  }

  lemma GrownTransitive(s: Progress, t: Progress, u: Progress)
    requires Grown(s, t) && Grown(t, u)
    ensures Grown(s, u)
  {
    forall p | 0 <= p < |s.patterns| ensures StateGrown(s.patterns[p], u.patterns[p]) {
      assert StateGrown(s.patterns[p], t.patterns[p]) && StateGrown(t.patterns[p], u.patterns[p]);
    }
  }

  lemma CoverKept(s: Progress, t: Progress, p: nat, path: string)
    requires Grown(s, t) && p < |s.patterns| && Covers(s, p, path)
    ensures Covers(t, p, path)
  {
    hide MatchOutcome, FilePathValid;
    assert StateGrown(s.patterns[p], t.patterns[p]);
    if s.patterns[p].reason.None? {
      var k :| 0 <= k < |s.collected| && s.collected[k].group == s.patterns[p].group && s.collected[k].path == path;
      assert t.collected[k] == s.collected[k];
    }
  }

  lemma AccountKept(lib: Library, s: Progress, t: Progress, path: string)
    requires Grown(s, t) && Accounted(lib, s, path)
    ensures Accounted(lib, t, path)
  {
    hide MatchOutcome, FilePathValid;
    forall p | 0 <= p < |t.patterns| && Selecting(lib, t.patterns[p].pattern, path) ensures Covers(t, p, path) {
      assert StateGrown(s.patterns[p], t.patterns[p]);
      CoverKept(s, t, p, path);
    }
  }

  lemma ChosenKept(lib: Library, patterns: seq<PatternState>, next: seq<PatternState>, group: string, path: string)
    requires |next| == |patterns| && Chosen(lib, patterns, group, path)
    requires forall p :: 0 <= p < |patterns| ==> SameRequest(patterns[p], next[p])
    ensures Chosen(lib, next, group, path)
  {
    hide MatchOutcome, FilePathValid;
    var p :| 0 <= p < |patterns| && patterns[p].group == group
             && MatchOutcome(lib.pathMatch, patterns[p].pattern, path) == Hit;
    assert SameRequest(patterns[p], next[p]);
    forall q | 0 <= q < |next| ensures MatchOutcome(lib.pathMatch, next[q].pattern, path) != BadPattern {
      assert SameRequest(patterns[q], next[q]);
    }
  }

  /** New pattern states that only gained reasons or collected marks leave everything else in place. */
  lemma PatternsAdvance(lib: Library, s: Progress, next: seq<PatternState>)
    requires ProgressValid(lib, s) && |next| == |s.patterns|
    requires forall p :: 0 <= p < |next| ==> StateGrown(s.patterns[p], next[p])
    requires forall p :: 0 <= p < |next| ==> StateValid(next[p], s.collected != [])
    ensures ProgressValid(lib, s.(patterns := next)) && Grown(s, s.(patterns := next))
  {
    hide MatchOutcome, FilePathValid;
    forall k | 0 <= k < |s.collected| ensures FileKept(lib, next, s.collected[k]) {
      assert FileKept(lib, s.patterns, s.collected[k]);
      ChosenKept(lib, s.patterns, next, s.collected[k].group, s.collected[k].path);
    }
  }

  /** Appending a new file that fits. */
  lemma FileAppended(lib: Library, s: Progress, file: HelperFile)
    requires ProgressValid(lib, s) && |s.collected| < MAX_ARTIFACT_FILES
    requires FileKept(lib, s.patterns, file) && file.size <= MAX_TOTAL_ARTIFACT_BYTES - s.total
    requires BundleKey(file.group, file.path) !in s.keys
    ensures var t := Progress(s.patterns, s.collected + [file], s.keys + {BundleKey(file.group, file.path)},
                              s.total + file.size);
            ProgressValid(lib, t) && Grown(s, t) && InPlan(t.collected, file.group, file.path)
  {
    hide MatchOutcome, FilePathValid;
    forall k | 0 <= k < |s.collected| ensures !SameHelperFile(s.collected[k], file) {
      assert BundleKey(s.collected[k].group, s.collected[k].path) in s.keys;
    }
    var longer := s.collected + [file];
    assert longer[..|longer| - 1] == s.collected;
    assert longer[|s.collected|] == file;
    forall p | 0 <= p < |s.patterns| ensures StateValid(s.patterns[p], longer != []) {
      assert StateValid(s.patterns[p], s.collected != []);
    }
  }

  lemma KeyNamesFile(lib: Library, s: Progress, group: string, path: string)
    requires ProgressValid(lib, s) && IsGroup(group) && BundleKey(group, path) in s.keys
    ensures InPlan(s.collected, group, path)
  {
    hide MatchOutcome, FilePathValid, Chosen;
    var k :| 0 <= k < |s.collected| && BundleKey(s.collected[k].group, s.collected[k].path) == BundleKey(group, path);
    assert FileKept(lib, s.patterns, s.collected[k]);
    IdentifierHasNoNul(group);
    IdentifierHasNoNul(s.collected[k].group);
    BundleKeyInjective(group, path, s.collected[k].group, s.collected[k].path);
  }

  // ----- Recording reasons -----

  method NotePrefix(lib: Library, patterns: seq<PatternState>, prefix: string, reason: OmissionReason)
    returns (next: seq<PatternState>)
    ensures |next| == |patterns|
    ensures forall p :: 0 <= p < |patterns| ==>
              next[p] == if Concerns(lib.pathMatch, patterns[p].pattern, prefix)
                         then WithReason(patterns[p], reason) else patterns[p]
  {
    next := patterns;
    for i := 0 to |patterns|
      invariant |next| == |patterns|
      invariant forall p :: 0 <= p < i ==>
                  next[p] == if Concerns(lib.pathMatch, patterns[p].pattern, prefix)
                             then WithReason(patterns[p], reason) else patterns[p]
      invariant forall p :: i <= p < |patterns| ==> next[p] == patterns[p]
    {
      var matched, _ := Match(lib.pathMatch, patterns[i].pattern, prefix);
      if matched == Miss {
        var below, _ := CouldMatchDescendant(lib.pathMatch, patterns[i].pattern, prefix);
        matched := below;
      }
      if matched == Hit {
        next := next[i := WithReason(patterns[i], reason)];
      }
    }
  }

  method NoteAll(patterns: seq<PatternState>, reason: OmissionReason) returns (next: seq<PatternState>)
    ensures |next| == |patterns|
    ensures forall p :: 0 <= p < |patterns| ==> next[p] == WithReason(patterns[p], reason)
  {
    next := patterns;
    for i := 0 to |patterns|
      invariant |next| == |patterns|
      invariant forall p :: 0 <= p < i ==> next[p] == WithReason(patterns[p], reason)
      invariant forall p :: i <= p < |patterns| ==> next[p] == patterns[p]
    {
      next := next[i := WithReason(patterns[i], reason)];
    }
  }

  ghost predicate Indices(indices: seq<nat>, patterns: seq<PatternState>)
  {
    forall k :: 0 <= k < |indices| ==> indices[k] < |patterns|
  }

  method Note(patterns: seq<PatternState>, indices: seq<nat>, reason: OmissionReason) returns (next: seq<PatternState>)
    requires Indices(indices, patterns)
    ensures |next| == |patterns|
    ensures forall p :: 0 <= p < |patterns| ==>
              next[p] == if p in indices then WithReason(patterns[p], reason) else patterns[p]
  {
    next := patterns;
    for i := 0 to |indices|
      invariant |next| == |patterns|
      invariant forall p :: 0 <= p < |patterns| ==>
                  next[p] == if p in indices[..i] then WithReason(patterns[p], reason) else patterns[p]
    {
      assert indices[..i + 1] == indices[..i] + [indices[i]];
      next := next[indices[i] := WithReason(next[indices[i]], reason)];
    }
    assert indices[..|indices|] == indices;
  }

  method MarkCollected(patterns: seq<PatternState>, indices: seq<nat>) returns (next: seq<PatternState>)
    requires Indices(indices, patterns)
    ensures |next| == |patterns|
    ensures forall p :: 0 <= p < |patterns| ==>
              next[p] == if p in indices then patterns[p].(collected := true) else patterns[p]
  {
    next := patterns;
    for i := 0 to |indices|
      invariant |next| == |patterns|
      invariant forall p :: 0 <= p < |patterns| ==>
                  next[p] == if p in indices[..i] then patterns[p].(collected := true) else patterns[p]
    {
      assert indices[..i + 1] == indices[..i] + [indices[i]];
      next := next[indices[i] := next[indices[i]].(collected := true)];
    }
    assert indices[..|indices|] == indices;
  }

  // ----- Matching one candidate -----

  ghost predicate MatchesOf(lib: Library, patterns: seq<PatternState>, group: string, indices: seq<nat>,
                            relative: string)
  {
    && indices != [] && Indices(indices, patterns)
    && forall k :: 0 <= k < |indices| ==>
         && patterns[indices[k]].group == group
         && MatchOutcome(lib.pathMatch, patterns[indices[k]].pattern, relative) == Hit
  }

  ghost predicate MatchedByGroup(lib: Library, patterns: seq<PatternState>, count: nat, relative: string,
                                 matched: map<string, seq<nat>>)
    requires count <= |patterns|
  {
    && (forall g :: g in matched ==> MatchesOf(lib, patterns, g, matched[g], relative))
    && forall p :: 0 <= p < count && MatchOutcome(lib.pathMatch, patterns[p].pattern, relative) == Hit ==>
         patterns[p].group in matched && p in matched[patterns[p].group]
  }

  lemma OneMoreMatch(lib: Library, patterns: seq<PatternState>, i: nat, relative: string, matched: map<string,
                     seq<nat>>)
    requires i < |patterns| && MatchedByGroup(lib, patterns, i, relative, matched)
    requires MatchOutcome(lib.pathMatch, patterns[i].pattern, relative) == Hit
    ensures var group := patterns[i].group;
            var indices := if group in matched then matched[group] + [i] else [i];
            MatchedByGroup(lib, patterns, i + 1, relative, matched[group := indices])
  {
    hide MatchOutcome;
    var group := patterns[i].group;
    var indices := if group in matched then matched[group] + [i] else [i];
    assert group in matched ==> MatchesOf(lib, patterns, group, matched[group], relative);
    assert MatchesOf(lib, patterns, group, indices, relative);
    assert i in indices by { assert indices[|indices| - 1] == i; }
    forall p | 0 <= p < i && MatchOutcome(lib.pathMatch, patterns[p].pattern, relative) == Hit
        && patterns[p].group == group
      ensures p in indices
    {
      var k :| 0 <= k < |matched[group]| && matched[group][k] == p;
      assert indices[k] == p;
    }
  }

  /** Which patterns select a candidate, by group; a malformed comparison ends the walk. */
  method GroupMatches(lib: Library, patterns: seq<PatternState>, relative: string)
    returns (failed: bool, matched: map<string, seq<nat>>, groups: seq<string>)
    ensures failed <==> !NeverMalformed(lib, patterns, relative)
    ensures !failed ==> MatchedByGroup(lib, patterns, |patterns|, relative, matched)
    ensures !failed ==> forall g :: g in matched <==> g in groups
    ensures |groups| <= |patterns|
  {
    hide MatchOutcome, MatchesOf;
    failed, matched, groups := false, map[], [];
    for i := 0 to |patterns|
      invariant NeverMalformed(lib, patterns[..i], relative)
      invariant |groups| <= i && forall g :: g in matched <==> g in groups
      invariant MatchedByGroup(lib, patterns, i, relative, matched)
    {
      var outcome, _ := Match(lib.pathMatch, patterns[i].pattern, relative);
      if outcome == BadPattern { return true, map[], []; }
      if outcome == Hit {
        OneMoreMatch(lib, patterns, i, relative, matched);
        var group := patterns[i].group;
        if group !in matched {
          groups := groups + [group];
          matched := matched[group := [i]];
        } else {
          matched := matched[group := matched[group] + [i]];
        }
      }
      assert patterns[..i + 1] == patterns[..i] + [patterns[i]];
    }
    assert patterns[..|patterns|] == patterns;
  }

  ghost predicate CoversAll(s: Progress, indices: seq<nat>, path: string)
  {
    forall k :: 0 <= k < |indices| ==> indices[k] < |s.patterns| && Covers(s, indices[k], path)
  }

  lemma GroupIsValid(lib: Library, s: Progress, group: string, indices: seq<nat>, relative: string)
    requires ProgressValid(lib, s) && MatchesOf(lib, s.patterns, group, indices, relative)
    requires NeverMalformed(lib, s.patterns, relative)
    ensures IsGroup(group)
    ensures Chosen(lib, s.patterns, group, relative)
    ensures InPlan(s.collected, group, relative) ==> CoversAll(s, indices, relative)
  {
    hide MatchOutcome, FilePathValid;
    assert StateValid(s.patterns[indices[0]], s.collected != []) && s.patterns[indices[0]].group == group;
  }

  lemma NotedStep(lib: Library, s: Progress, indices: seq<nat>, reason: OmissionReason, next: seq<PatternState>,
                  relative: string)
    requires ProgressValid(lib, s) && Indices(indices, s.patterns) && |next| == |s.patterns|
    requires reason.Supported() && reason != NoMatch
    requires forall p :: 0 <= p < |next| ==>
               next[p] == if p in indices then WithReason(s.patterns[p], reason) else s.patterns[p]
    ensures ProgressValid(lib, s.(patterns := next)) && Grown(s, s.(patterns := next))
    ensures CoversAll(s.(patterns := next), indices, relative)
  {
    hide MatchOutcome, FilePathValid;
    forall p | 0 <= p < |next| ensures StateGrown(s.patterns[p], next[p]) && StateValid(next[p], s.collected != []) {
      assert StateValid(s.patterns[p], s.collected != []);
    }
    PatternsAdvance(lib, s, next);
  }

  lemma CollectedStep(lib: Library, s: Progress, indices: seq<nat>, file: HelperFile, next: seq<PatternState>)
    requires ProgressValid(lib, s) && |s.collected| < MAX_ARTIFACT_FILES
    requires FileKept(lib, s.patterns, file) && file.size <= MAX_TOTAL_ARTIFACT_BYTES - s.total
    requires BundleKey(file.group, file.path) !in s.keys
    requires MatchesOf(lib, s.patterns, file.group, indices, file.path) && |next| == |s.patterns|
    requires forall p :: 0 <= p < |next| ==>
               next[p] == if p in indices then s.patterns[p].(collected := true) else s.patterns[p]
    ensures var t := Progress(next, s.collected + [file], s.keys + {BundleKey(file.group, file.path)},
                              s.total + file.size);
            ProgressValid(lib, t) && Grown(s, t) && CoversAll(t, indices, file.path)
  {
    hide MatchOutcome, FilePathValid, IsGroup, NeverMalformed, Chosen;
    FileAppended(lib, s, file);
    var u := Progress(s.patterns, s.collected + [file], s.keys + {BundleKey(file.group, file.path)},
                      s.total + file.size);
    forall p | 0 <= p < |next| ensures StateGrown(u.patterns[p], next[p]) && StateValid(next[p], u.collected != []) {
      assert StateValid(u.patterns[p], u.collected != []);
    }
    PatternsAdvance(lib, u, next);
    GrownTransitive(s, u, u.(patterns := next));
  }

  lemma MatchesKept(lib: Library, s: Progress, t: Progress, group: string, indices: seq<nat>, relative: string)
    requires Grown(s, t) && MatchesOf(lib, s.patterns, group, indices, relative)
    requires NeverMalformed(lib, s.patterns, relative)
    ensures MatchesOf(lib, t.patterns, group, indices, relative) && NeverMalformed(lib, t.patterns, relative)
    ensures Indices(indices, t.patterns)
  {
    hide MatchOutcome;
    assert forall p :: 0 <= p < |s.patterns| ==> StateGrown(s.patterns[p], t.patterns[p]);
  }

  lemma CoversAllKept(s: Progress, t: Progress, indices: seq<nat>, path: string)
    requires Grown(s, t) && CoversAll(s, indices, path)
    ensures CoversAll(t, indices, path)
  {
    forall k | 0 <= k < |indices| ensures indices[k] < |t.patterns| && Covers(t, indices[k], path) {
      CoverKept(s, t, indices[k], path);
    }
  }

  /** Once every group with a match had its turn, the candidate is accounted for. */
  lemma EveryGroupCovered(lib: Library, s: Progress, t: Progress, matched: map<string, seq<nat>>,
                          ordered: seq<string>, relative: string)
    requires Grown(s, t) && MatchedByGroup(lib, s.patterns, |s.patterns|, relative, matched)
    requires forall g :: g in matched <==> g in ordered
    requires forall i :: 0 <= i < |ordered| ==> CoversAll(t, matched[ordered[i]], relative)
    ensures Accounted(lib, t, relative)
  {
    hide MatchOutcome, WellFormed;
    forall p | 0 <= p < |t.patterns| && Selecting(lib, t.patterns[p].pattern, relative) ensures Covers(t, p, relative) {
      assert StateGrown(s.patterns[p], t.patterns[p]);
      var group := s.patterns[p].group;
      assert group in matched && p in matched[group];
      var i :| 0 <= i < |ordered| && ordered[i] == group;
      var k :| 0 <= k < |matched[group]| && matched[group][k] == p;
      assert CoversAll(t, matched[ordered[i]], relative);
    }
  }

  ghost predicate AllNoted(s: Progress)
  {
    forall p :: 0 <= p < |s.patterns| ==> s.patterns[p].reason.Some?
  }

  /** Setting missing reasons, to a known one, keeps everything. */
  lemma ReasonsStep(lib: Library, s: Progress, next: seq<PatternState>, reason: OmissionReason)
    requires ProgressValid(lib, s) && |next| == |s.patterns| && reason.Supported() && reason != NoMatch
    requires forall p :: 0 <= p < |next| ==> next[p] == s.patterns[p] || next[p] == WithReason(s.patterns[p], reason)
    ensures ProgressValid(lib, s.(patterns := next)) && Grown(s, s.(patterns := next))
  {
    hide MatchOutcome, FilePathValid, IsGroup;
    forall p | 0 <= p < |next| ensures StateGrown(s.patterns[p], next[p]) && StateValid(next[p], s.collected != []) {
      assert StateValid(s.patterns[p], s.collected != []);
    }
    PatternsAdvance(lib, s, next);
  }

  /** After a prefix was noted, everything at or below it is accounted for. */
  lemma PrunedStep(lib: Library, s: Progress, next: seq<PatternState>, relative: string, node: Node)
    requires relative != "" && |next| == |s.patterns|
    requires forall p :: 0 <= p < |next| ==>
               next[p] == if Concerns(lib.pathMatch, s.patterns[p].pattern, relative)
                          then WithReason(s.patterns[p], PolicyRejected) else s.patterns[p]
    ensures forall path :: IsLeaf(relative, node, path) ==> Accounted(lib, s.(patterns := next), path)
  {
    hide MatchOutcome, DescendantOutcome, WellFormed, Concerns;
    var t := s.(patterns := next);
    forall path | IsLeaf(relative, node, path) ensures Accounted(lib, t, path) {
      forall p | 0 <= p < |next| && Selecting(lib, next[p].pattern, path) ensures Covers(t, p, path) {
        PrunedIsConcerned(lib.pathMatch, s.patterns[p].pattern, relative, node, path);
      }
    }
  }

  /** File systems have no empty names. */
  ghost predicate NamesPresent(node: Node)
  {
    node.Directory? ==>
      forall i :: 0 <= i < |node.entries| ==> node.entries[i].name != "" && NamesPresent(node.entries[i].node)
  }

  // ----- What the walk looks at -----

  datatype Signal = Continue | SkipDir | SkipAll | Fail

  /** One call of the walk's callback. */
  datatype Callback = Callback(relative: string, node: Node)

  /** The callbacks for the first n entries of a directory, in order, as long as nothing ends the walk: an
      entry, then what it holds if it is a directory that can be listed and that policy lets through. */
  ghost function Visited(lib: Library, prefix: string, entries: seq<Entry>, n: nat): seq<Callback>
    requires n <= |entries|
    decreases entries, n
  {
    if n == 0 then []
    else
      var entry := entries[n - 1];
      Visited(lib, prefix, entries, n - 1) + VisitedAt(lib, Child(prefix, entry.name), entry.node)
  }

  ghost function VisitedAt(lib: Library, relative: string, node: Node): seq<Callback>
    decreases node, 0
  {
    [Callback(relative, node)]
    + if node.Directory? && node.readable && !PolicyRejects(lib, relative)
      then Visited(lib, relative, node.entries, |node.entries|) else []
  }

  /** The callbacks below a working directory. */
  ghost function VisitedBelow(lib: Library, root: Node): seq<Callback>
    requires root.Directory?
  {
    if root.readable then Visited(lib, "", root.entries, |root.entries|) else []
  }

  /** What one callback tells the walk, when `seen` others were counted before it. */
  ghost function SignalOf(lib: Library, patterns: seq<PatternState>, v: Callback, seen: nat): Signal
  {
    if ".." <= v.relative then Fail
    else if seen >= MAX_SCANNED_ENTRIES then SkipAll
    else if PolicyRejects(lib, v.relative) then (if v.node.Directory? then SkipDir else Continue)
    else if v.node.Leaf? && !NeverMalformed(lib, patterns, v.relative) then Fail
    else Continue
  }

  lemma VisitedOneMore(lib: Library, prefix: string, entries: seq<Entry>, i: nat)
    requires i < |entries|
    ensures Visited(lib, prefix, entries, i + 1)
         == Visited(lib, prefix, entries, i) + VisitedAt(lib, Child(prefix, entries[i].name), entries[i].node)
  {
  }

  ghost function WalkOutcome(lib: Library, patterns: seq<PatternState>, visits: seq<Callback>,
                             seen: nat): (signal: Signal)
    ensures signal != SkipDir
  {
    if visits == [] then Continue
    else
      var signal := SignalOf(lib, patterns, visits[0], seen);
      if signal == Fail || signal == SkipAll then signal else WalkOutcome(lib, patterns, visits[1..], seen + 1)
  }

  lemma {:induction false} OutcomeAppend(lib: Library, patterns: seq<PatternState>, a: seq<Callback>,
                                         b: seq<Callback>, seen: nat)
    ensures WalkOutcome(lib, patterns, a + b, seen)
         == if WalkOutcome(lib, patterns, a, seen) == Continue then WalkOutcome(lib, patterns, b, seen + |a|)
            else WalkOutcome(lib, patterns, a, seen)
    decreases |a|
  {
    hide SignalOf;
    if a == [] {
      assert a + b == b;
    } else {
      assert (a + b)[1..] == a[1..] + b;
      OutcomeAppend(lib, patterns, a[1..], b, seen + 1);
    }
  }

  lemma {:induction false} OutcomeSamePatterns(lib: Library, s: Progress, t: Progress, visits: seq<Callback>, seen: nat)
    requires Grown(s, t)
    ensures WalkOutcome(lib, t.patterns, visits, seen) == WalkOutcome(lib, s.patterns, visits, seen)
    decreases |visits|
  {
    hide MatchOutcome, PolicyRejects;
    if visits != [] {
      assert forall p :: 0 <= p < |s.patterns| ==> StateGrown(s.patterns[p], t.patterns[p]);
      assert NeverMalformed(lib, t.patterns, visits[0].relative) <==>
          NeverMalformed(lib, s.patterns, visits[0].relative);
      OutcomeSamePatterns(lib, s, t, visits[1..], seen + 1);
    }
  }

  /** A callback that ends the walk with an error: a name at the top that starts with two dots, or a file on
      which some pattern is malformed, within the scan limit. */
  ghost predicate Stumbles(lib: Library, patterns: seq<PatternState>, v: Callback, seen: nat)
  {
    || (".." <= v.relative && seen <= MAX_SCANNED_ENTRIES)
    || (&& v.node.Leaf? && !PolicyRejects(lib, v.relative) && !NeverMalformed(lib, patterns, v.relative)
        && seen < MAX_SCANNED_ENTRIES)
  }

  /** A walk fails exactly when one of its callbacks within the scan limit stumbles. */
  lemma {:induction false} FailsExactly(lib: Library, patterns: seq<PatternState>, visits: seq<Callback>, seen: nat)
    requires seen <= MAX_SCANNED_ENTRIES
    ensures WalkOutcome(lib, patterns, visits, seen) == Fail <==>
            exists k :: 0 <= k < |visits| && Stumbles(lib, patterns, visits[k], seen + k)
    decreases |visits|
  {
    hide PolicyRejects, NeverMalformed;
    if visits != [] {
      var signal := SignalOf(lib, patterns, visits[0], seen);
      if signal == Fail {
        assert Stumbles(lib, patterns, visits[0], seen + 0);
      } else if signal == SkipAll {
        assert forall k :: 0 < k < |visits| ==> !Stumbles(lib, patterns, visits[k], seen + k);
      } else {
        FailsExactly(lib, patterns, visits[1..], seen + 1);
        if k :| 0 <= k < |visits[1..]| && Stumbles(lib, patterns, visits[1..][k], seen + 1 + k) {
          assert Stumbles(lib, patterns, visits[k + 1], seen + (k + 1));
        }
        if k :| 0 <= k < |visits| && Stumbles(lib, patterns, visits[k], seen + k) {
          assert k > 0 && visits[1..][k - 1] == visits[k];
        }
      }
    }
  }

  lemma FailsFromStart(lib: Library, patterns: seq<PatternState>, visits: seq<Callback>)
    ensures WalkOutcome(lib, patterns, visits, 0) == Fail <==>
            exists k :: 0 <= k < |visits| && Stumbles(lib, patterns, visits[k], k)
  {
    hide Stumbles;
    FailsExactly(lib, patterns, visits, 0);
    assert forall k :: 0 <= k < |visits| ==>
             (Stumbles(lib, patterns, visits[k], 0 + k) <==> Stumbles(lib, patterns, visits[k], k));
  }

  ghost predicate LeafVisited(visits: seq<Callback>, path: string)
  {
    exists k :: 0 <= k < |visits| && visits[k].relative == path && visits[k].node.Leaf?
  }

  /** Every visited file can be reached through directories that can be listed. */
  lemma {:induction false} VisitedIsReadable(lib: Library, prefix: string, entries: seq<Entry>, n: nat, path: string)
    requires n <= |entries| && LeafVisited(Visited(lib, prefix, entries, n), path)
    ensures IsReadableLeafAmong(prefix, entries, path)
    decreases entries, n
  {
    hide PolicyRejects;
    var front := Visited(lib, prefix, entries, n - 1);
    var k :| 0 <= k < |Visited(lib, prefix, entries, n)| && Visited(lib, prefix, entries, n)[k].relative == path
             && Visited(lib, prefix, entries, n)[k].node.Leaf?;
    if k < |front| {
      assert front[k].node.Leaf?;
      VisitedIsReadable(lib, prefix, entries, n - 1, path);
    } else {
      var relative, node := Child(prefix, entries[n - 1].name), entries[n - 1].node;
      assert VisitedAt(lib, relative, node)[k - |front|].relative == path;
      if node.Directory? {
        var below := Visited(lib, relative, node.entries, |node.entries|);
        assert below[k - |front| - 1].node.Leaf?;
        VisitedIsReadable(lib, relative, node.entries, |node.entries|, path);
      }
      assert IsReadableLeaf(Child(prefix, entries[n - 1].name), entries[n - 1].node, path);
    }
  }

  // ----- Patterns that matched nothing, and trees that hold nothing back -----

  /** A pattern that selects a collected file of its group is marked as collected. */
  ghost predicate Flagged(lib: Library, s: Progress)
  {
    forall k, p :: 0 <= k < |s.collected| && 0 <= p < |s.patterns| ==> FlaggedAt(lib, s.collected[k], s.patterns[p])
  }

  ghost predicate FlaggedAt(lib: Library, file: HelperFile, state: PatternState)
  {
    state.group == file.group && MatchOutcome(lib.pathMatch, state.pattern, file.path) == Hit ==> state.collected
  }

  lemma FlagsKept(lib: Library, s: Progress, next: seq<PatternState>)
    requires Flagged(lib, s) && |next| == |s.patterns|
    requires forall p :: 0 <= p < |next| ==>
               SameRequest(s.patterns[p], next[p]) && (s.patterns[p].collected ==> next[p].collected)
    ensures Flagged(lib, s.(patterns := next))
  {
    hide MatchOutcome;
    forall k, p | 0 <= k < |s.collected| && 0 <= p < |next| ensures FlaggedAt(lib, s.collected[k], next[p]) {
      assert FlaggedAt(lib, s.collected[k], s.patterns[p]);
    }
  }

  /** The indices are all of a group's patterns that select the candidate. */
  ghost predicate AllMatches(lib: Library, patterns: seq<PatternState>, group: string, indices: seq<nat>,
                             relative: string)
  {
    forall p :: 0 <= p < |patterns| && patterns[p].group == group ==>
      MatchOutcome(lib.pathMatch, patterns[p].pattern, relative) == Hit ==> p in indices
  }

  lemma FlagsCollected(lib: Library, s: Progress, indices: seq<nat>, file: HelperFile, next: seq<PatternState>)
    requires Flagged(lib, s) && |next| == |s.patterns| && AllMatches(lib, s.patterns, file.group, indices, file.path)
    requires forall p :: 0 <= p < |next| ==>
               next[p] == if p in indices then s.patterns[p].(collected := true) else s.patterns[p]
    ensures forall keys, total :: Flagged(lib, Progress(next, s.collected + [file], keys, total))
  {
    hide MatchOutcome;
    var longer := s.collected + [file];
    forall k, p | 0 <= k < |longer| && 0 <= p < |next| ensures FlaggedAt(lib, longer[k], next[p]) {
      if k < |s.collected| {
        assert FlaggedAt(lib, s.collected[k], s.patterns[p]);
      }
    }
  }

  /** A file size of which even the greatest number of files stays within the total. */
  const SMALL_FILE_BYTES := MAX_TOTAL_ARTIFACT_BYTES / MAX_ARTIFACT_FILES

  predicate EasilyOpened(probe: ProbeOracle, relative: string, group: string)
  {
    probe(group, relative).Regular? && 0 <= probe(group, relative).size <= SMALL_FILE_BYTES
  }

  /** Nothing about the callback gives the walk a reason to leave something out. */
  ghost predicate Plain(lib: Library, probe: ProbeOracle, v: Callback)
  {
    && !PolicyRejects(lib, v.relative) && !v.node.Symlink?
    && (v.node.Leaf? ==> forall group :: EasilyOpened(probe, v.relative, group))
  }

  ghost predicate AllPlain(lib: Library, probe: ProbeOracle, visits: seq<Callback>)
  {
    forall k :: 0 <= k < |visits| ==> Plain(lib, probe, visits[k])
  }

  /** No pattern has a reason yet, and the collected files are small. */
  ghost predicate Calm(s: Progress)
  {
    (forall p :: 0 <= p < |s.patterns| ==> s.patterns[p].reason == None) && s.total <= |s.collected| * SMALL_FILE_BYTES
  }

  /** What a part of the walk does to its variables: everything is kept, what is new comes from its callbacks,
      and where those are plain no pattern gets a reason. `ordinary` is false once the scan limit was hit. */
  ghost predicate Advanced(lib: Library, probe: ProbeOracle, s: Progress, t: Progress, visits: seq<Callback>,
                           ordinary: bool)
  {
    && ProgressValid(lib, t) && Grown(s, t) && (Flagged(lib, s) ==> Flagged(lib, t))
    && (forall k :: |s.collected| <= k < |t.collected| ==> LeafVisited(visits, t.collected[k].path))
    && |t.collected| <= |s.collected| + |visits| * |s.patterns|
    && (ordinary && AllPlain(lib, probe, visits) && Calm(s) ==>
          |s.collected| + |visits| * |s.patterns| <= MAX_ARTIFACT_FILES ==> Calm(t))
  }

  lemma AdvancedNowhere(lib: Library, probe: ProbeOracle, s: Progress, ordinary: bool)
    requires ProgressValid(lib, s)
    ensures Advanced(lib, probe, s, s, [], ordinary)
  {
    hide ProgressValid;
    GrownReflexive(s);
  }

  lemma Distribute(a: nat, b: nat, n: nat)
    ensures (a + b) * n == a * n + b * n
  {
  }

  lemma AdvancedTwice(lib: Library, probe: ProbeOracle, s: Progress, t: Progress, u: Progress,
                      a: seq<Callback>, b: seq<Callback>, ordinary: bool)
    requires Advanced(lib, probe, s, t, a, true) && Advanced(lib, probe, t, u, b, ordinary)
    ensures Advanced(lib, probe, s, u, a + b, ordinary)
  {
    hide ProgressValid, Flagged, Calm, Plain;
    GrownTransitive(s, t, u);
    Distribute(|a|, |b|, |s.patterns|);
    assert |t.patterns| == |s.patterns| && s.collected <= t.collected && t.collected <= u.collected;
    forall k | |s.collected| <= k < |u.collected| ensures LeafVisited(a + b, u.collected[k].path) {
      if k < |t.collected| {
        var v :| 0 <= v < |a| && a[v].relative == t.collected[k].path && a[v].node.Leaf?;
        assert (a + b)[v] == a[v];
      } else {
        var v :| 0 <= v < |b| && b[v].relative == u.collected[k].path && b[v].node.Leaf?;
        assert (a + b)[|a| + v] == b[v];
      }
    }
    if AllPlain(lib, probe, a + b) {
      assert forall k :: 0 <= k < |a| ==> a[k] == (a + b)[k];
      assert forall k :: 0 <= k < |b| ==> b[k] == (a + b)[|a| + k];
    }
  }

  /** A walk that ended early is also the effect of more callbacks than it made. */
  lemma AdvancedEarly(lib: Library, probe: ProbeOracle, s: Progress, t: Progress, a: seq<Callback>, b: seq<Callback>)
    requires Advanced(lib, probe, s, t, a, false)
    ensures Advanced(lib, probe, s, t, a + b, false)
  {
    hide ProgressValid, Flagged, Calm, Plain, Grown;
    Distribute(|a|, |b|, |s.patterns|);
    forall k | |s.collected| <= k < |t.collected| ensures LeafVisited(a + b, t.collected[k].path) {
      var v :| 0 <= v < |a| && a[v].relative == t.collected[k].path && a[v].node.Leaf?;
      assert (a + b)[v] == a[v];
    }
  }

  /** One callback that only records reasons; a plain one records none. */
  lemma AdvancedByReasons(lib: Library, probe: ProbeOracle, s: Progress, next: seq<PatternState>,
                          reason: OmissionReason,
                          v: Callback, ordinary: bool)
    requires ProgressValid(lib, s) && |next| == |s.patterns| && reason.Supported() && reason != NoMatch
    requires forall p :: 0 <= p < |next| ==> next[p] == s.patterns[p] || next[p] == WithReason(s.patterns[p], reason)
    requires ordinary ==> !Plain(lib, probe, v)
    ensures Advanced(lib, probe, s, s.(patterns := next), [v], ordinary)
  {
    hide ProgressValid, Grown, Plain;
    ReasonsStep(lib, s, next, reason);
    if Flagged(lib, s) { FlagsKept(lib, s, next); }
    assert AllPlain(lib, probe, [v]) ==> Plain(lib, probe, [v][0]);
  }

  // ----- The walk -----

  class Walk {
    const lib: Library
    const probe: ProbeOracle
    var patterns: seq<PatternState>
    var collected: seq<HelperFile>
    var keys: set<string>
    var total: int
    var scanned: nat

    ghost function State(): Progress
      reads this
    {
      Progress(patterns, collected, keys, total)
    }

    constructor (lib: Library, probe: ProbeOracle, selections: seq<ArtifactSelection>)
      requires SelectionsValid(lib, selections)
      ensures this.lib == lib && this.probe == probe && scanned == 0
      ensures State() == Progress(Flatten(selections), [], {}, 0) && ProgressValid(lib, State())
    {
      this.lib, this.probe := lib, probe;
      patterns, collected, keys, total, scanned := Flatten(selections), [], {}, 0, 0;
      FlattenSound(lib, selections);
    }

    /** One group's turn at a candidate: collect it, or record why not. */
    method CollectForGroup(group: string, indices: seq<nat>, relative: string)
      requires ProgressValid(lib, State()) && Indices(indices, patterns)
      requires MatchesOf(lib, patterns, group, indices, relative)
      requires AllMatches(lib, patterns, group, indices, relative)
      requires NeverMalformed(lib, patterns, relative) && FilePathValid(lib, relative)
      modifies this`patterns, this`collected, this`keys, this`total
      ensures GroupTurn(lib, probe, old(State()), State(), relative)
      ensures CoversAll(State(), indices, relative)
    {
      hide MatchOutcome, FilePathValid, IsGroup, ProgressValid, Grown, CoversAll, MatchesOf, NeverMalformed, Chosen;
      hide InPlan, Flagged, AllMatches;
      ghost var before := State();
      GroupIsValid(lib, before, group, indices, relative);
      var key := BundleKey(group, relative);
      if key in keys {
        KeyNamesFile(lib, before, group, relative);
        GrownReflexive(before);
        return;
      }
      var reason := FileLimit;
      if |collected| < MAX_ARTIFACT_FILES {
        TotalFits(lib, before);
        var stable := OpenStableFile(probe(group, relative), MAX_TOTAL_ARTIFACT_BYTES - total);
        assert Calm(before) && EasilyOpened(probe, relative, group) ==> stable == Opened(probe(group, relative).size);
        if stable.Opened? {
          var file := HelperFile(group, relative, stable.size);
          var next := MarkCollected(patterns, indices);
          CollectedStep(lib, before, indices, file, next);
          if Flagged(lib, before) { FlagsCollected(lib, before, indices, file, next); }
          collected := collected + [file];
          keys := keys + {key};
          total := total + stable.size;
          patterns := next;
          return;
        }
        reason := stable.reason;
      }
      var next := Note(patterns, indices, reason);
      NotedStep(lib, before, indices, reason, next, relative);
      if Flagged(lib, before) { FlagsKept(lib, before, next); }
      patterns := next;
    }

    /** The tail of the callback: an ordinary entry that policy lets through. */
    method CollectLeaf(relative: string) returns (signal: Signal)
      requires ProgressValid(lib, State()) && FilePathValid(lib, relative)
      modifies this`patterns, this`collected, this`keys, this`total
      ensures signal == Continue || signal == Fail
      ensures signal == Fail <==> !NeverMalformed(lib, old(patterns), relative)
      ensures signal == Continue ==>
                Advanced(lib, probe, old(State()), State(), [Callback(relative, Leaf)], true)
      ensures signal == Continue ==> Accounted(lib, State(), relative)
    {
      hide MatchOutcome, FilePathValid, ProgressValid, WellFormed, StringLess, Grown, Flagged, Calm, NeverMalformed;
      hide CoversAll, MatchesOf, AllMatches, Advanced, Accounted;
      ghost var before := State();
      var failed, matched, groups := GroupMatches(lib, patterns, relative);
      if failed { return Fail; }
      var ordered := Sort(StringLess, groups);
      SameElements(ordered, groups);
      NoTurns(lib, probe, before, relative);
      for i := 0 to |ordered|
        invariant GroupTurns(lib, probe, before, State(), relative, i)
        invariant forall t :: 0 <= t < i ==> CoversAll(State(), matched[ordered[t]], relative)
      {
        ghost var current := State();
        MatchesKept(lib, before, current, ordered[i], matched[ordered[i]], relative);
        MatchesComplete(lib, before, current, ordered[i], matched, relative);
        CollectForGroup(ordered[i], matched[ordered[i]], relative);
        OneMoreTurn(lib, probe, before, current, State(), relative, i);
        forall t | 0 <= t < i ensures CoversAll(State(), matched[ordered[t]], relative) {
          CoversAllKept(current, State(), matched[ordered[t]], relative);
        }
      }
      EveryGroupCovered(lib, before, State(), matched, ordered, relative);
      TurnsAdvance(lib, probe, before, State(), relative, |ordered|);
      signal := Continue;
    }

    /** The WalkDir callback on one entry below the working directory. */
    method Visit(relative: string, node: Node) returns (signal: Signal)
      requires ProgressValid(lib, State()) && relative != ""
      modifies this
      ensures signal == SignalOf(lib, old(patterns), Callback(relative, node), old(scanned))
      ensures signal != Fail ==>
                Advanced(lib, probe, old(State()), State(), [Callback(relative, node)], signal != SkipAll)
      ensures signal == Continue || signal == SkipDir ==> scanned == old(scanned) + 1
      ensures signal == SkipAll ==> AllNoted(State())
      ensures signal == SkipDir || (signal == Continue && !node.Directory?) ==>
                forall path :: IsLeaf(relative, node, path) ==> Accounted(lib, State(), path)
    {
      hide MatchOutcome, DescendantOutcome, WellFormed, ProgressValid, Grown, Accounted, NeverMalformed, Concerns;
      hide Advanced, Flagged, Calm;
      if ".." <= relative { return Fail; }
      ghost var before, callback := State(), Callback(relative, node);
      scanned := scanned + 1;
      if scanned > MAX_SCANNED_ENTRIES {
        var next := NoteAll(patterns, FileLimit);
        AdvancedByReasons(lib, probe, before, next, FileLimit, callback, false);
        patterns := next;
        return SkipAll;
      }
      if PolicyRejects(lib, relative) {
        var next := NotePrefix(lib, patterns, relative, PolicyRejected);
        AdvancedByReasons(lib, probe, before, next, PolicyRejected, callback, true);
        PrunedStep(lib, before, next, relative, node);
        patterns := next;
        return if node.Directory? then SkipDir else Continue;
      }
      if node.Symlink? {
        var next := NotePrefix(lib, patterns, relative, LinkRejected);
        AdvancedByReasons(lib, probe, before, next, LinkRejected, callback, true);
        patterns := next;
        return Continue;
      }
      if node.Directory? {
        AdvancedByNothing(lib, probe, before, callback);
        return Continue;
      }
      signal := CollectLeaf(relative);
    }

    method WalkEntry(prefix: string, entry: Entry) returns (signal: Signal)
      requires ProgressValid(lib, State()) && entry.name != ""
      requires NamesPresent(entry.node)
      modifies this
      ensures var visits := VisitedAt(lib, Child(prefix, entry.name), entry.node);
              && signal == WalkOutcome(lib, old(patterns), visits, old(scanned))
              && (signal != Fail ==> Advanced(lib, probe, old(State()), State(), visits, signal != SkipAll))
              && (signal == Continue ==> scanned == old(scanned) + |visits|)
      ensures signal == SkipAll ==> AllNoted(State())
      ensures signal == Continue ==>
                forall path :: IsReadableLeaf(Child(prefix, entry.name), entry.node, path) ==>
                    Accounted(lib, State(), path)
      decreases entry, 0
    {
      hide MatchOutcome, ProgressValid, Grown, Accounted, AllNoted, Advanced, Flagged, Calm, PolicyRejects,
           NeverMalformed, Child, SignalOf;
      var relative := Child(prefix, entry.name);
      ghost var before, seen := State(), scanned;
      ghost var below := if entry.node.Directory? && entry.node.readable && !PolicyRejects(lib, relative)
                         then Visited(lib, relative, entry.node.entries, |entry.node.entries|) else [];
      FirstVisit(lib, before.patterns, relative, entry.node, seen);
      ChildIsNamed(prefix, entry.name);
      signal := Visit(relative, entry.node);
      forall path | IsReadableLeaf(relative, entry.node, path) ensures IsLeaf(relative, entry.node, path) {
        ReadableIsLeaf(relative, entry.node, path);
      }
      if signal == Fail { return; }
      ghost var current := State();
      if signal == SkipAll {
        AdvancedEarly(lib, probe, before, current, [Callback(relative, entry.node)], below);
        return;
      }
      assert [Callback(relative, entry.node)] + [] == [Callback(relative, entry.node)];
      if signal == SkipDir { return Continue; }
      if entry.node.Directory? && entry.node.readable {
        AdvancedIsValid(lib, probe, before, current, [Callback(relative, entry.node)], true);
        OutcomeSamePatterns(lib, before, current, below, seen + 1);
        signal := WalkEntries(relative, entry.node.entries);
        if signal != Fail {
          AdvancedTwice(lib, probe, before, current, State(), [Callback(relative, entry.node)], below,
                        signal != SkipAll);
        }
      }
    }

    method WalkEntries(prefix: string, entries: seq<Entry>) returns (signal: Signal)
      requires ProgressValid(lib, State())
      requires forall i :: 0 <= i < |entries| ==> entries[i].name != "" && NamesPresent(entries[i].node)
      modifies this
      ensures var visits := Visited(lib, prefix, entries, |entries|);
              && signal == WalkOutcome(lib, old(patterns), visits, old(scanned))
              && (signal != Fail ==> Advanced(lib, probe, old(State()), State(), visits, signal != SkipAll))
              && (signal == Continue ==> scanned == old(scanned) + |visits|)
      ensures signal == SkipAll ==> AllNoted(State())
      ensures signal == Continue ==>
                forall path :: IsReadableLeafAmong(prefix, entries, path) ==> Accounted(lib, State(), path)
      decreases entries, 1
    {
      hide MatchOutcome, ProgressValid, Grown, Accounted, AllNoted, Advanced, Flagged, Calm, PolicyRejects;
      hide NeverMalformed, VisitedAt, SignalOf;
      ghost var before, seen := State(), scanned;
      assert Visited(lib, prefix, entries, 0) == [] && WalkOutcome(lib, before.patterns, [], seen) == Continue;
      hide Visited, WalkOutcome;
      AdvancedNowhere(lib, probe, before, true);
      for i := 0 to |entries|
        invariant Advanced(lib, probe, before, State(), Visited(lib, prefix, entries, i), true)
        invariant WalkOutcome(lib, before.patterns, Visited(lib, prefix, entries, i), seen) == Continue
        invariant scanned == seen + |Visited(lib, prefix, entries, i)|
        invariant forall k, path :: 0 <= k < i
                                    && IsReadableLeaf(Child(prefix, entries[k].name), entries[k].node, path) ==>
                    Accounted(lib, State(), path)
      {
        ghost var current := State();
        ghost var done := Visited(lib, prefix, entries, i);
        ghost var now := VisitedAt(lib, Child(prefix, entries[i].name), entries[i].node);
        VisitedOneMore(lib, prefix, entries, i);
        AdvancedIsValid(lib, probe, before, current, done, true);
        OutcomeSamePatterns(lib, before, current, now, scanned);
        OutcomeAppend(lib, before.patterns, done, now, seen);
        signal := WalkEntry(prefix, entries[i]);
        if signal != Fail { AdvancedTwice(lib, probe, before, current, State(), done, now, signal != SkipAll); }
        if signal != Continue {
          EndsEarly(lib, probe, prefix, entries, i, before, State(), seen, signal);
          return;
        }
        AdvancedIsValid(lib, probe, current, State(), now, true);
        forall path | Accounted(lib, current, path) ensures Accounted(lib, State(), path) {
          AccountKept(lib, current, State(), path);
        }
      }
      signal := Continue;
    }
  }

  /** The first callback of an entry decides, or the ones below it do. */
  lemma FirstVisit(lib: Library, patterns: seq<PatternState>, relative: string, node: Node, seen: nat)
    ensures var signal := SignalOf(lib, patterns, Callback(relative, node), seen);
            var below := if node.Directory? && node.readable && !PolicyRejects(lib, relative)
                         then Visited(lib, relative, node.entries, |node.entries|) else [];
            && VisitedAt(lib, relative, node) == [Callback(relative, node)] + below
            && WalkOutcome(lib, patterns, VisitedAt(lib, relative, node), seen)
               == (if signal == Fail || signal == SkipAll then signal else WalkOutcome(lib, patterns, below, seen + 1))
            && (signal == SkipDir || (signal == Continue && !(node.Directory? && node.readable)) ==> below == [])
            && (signal == Continue && node.Directory? && node.readable ==>
                  below == Visited(lib, relative, node.entries, |node.entries|))
  {
    hide PolicyRejects, NeverMalformed;
    assert VisitedAt(lib, relative, node)[1..]
        == if node.Directory? && node.readable && !PolicyRejects(lib, relative)
           then Visited(lib, relative, node.entries, |node.entries|) else [];
  }

  /** A walk that an entry ends ends there, whatever the later entries are. */
  lemma EndsEarly(lib: Library, probe: ProbeOracle, prefix: string, entries: seq<Entry>, i: nat, s: Progress,
                  t: Progress, seen: nat, signal: Signal)
    requires i < |entries| && signal != Continue
    requires WalkOutcome(lib, s.patterns, Visited(lib, prefix, entries, i + 1), seen) == signal
    ensures WalkOutcome(lib, s.patterns, Visited(lib, prefix, entries, |entries|), seen) == signal
    ensures signal == SkipAll && Advanced(lib, probe, s, t, Visited(lib, prefix, entries, i + 1), false) ==>
              Advanced(lib, probe, s, t, Visited(lib, prefix, entries, |entries|), false)
  {
    hide Advanced, Visited, WalkOutcome;
    var visits := Visited(lib, prefix, entries, i + 1);
    var rest := RestVisited(lib, prefix, entries, i + 1);
    OutcomeAppend(lib, s.patterns, visits, rest, seen);
    if signal == SkipAll && Advanced(lib, probe, s, t, visits, false) {
      AdvancedEarly(lib, probe, s, t, visits, rest);
    }
  }

  lemma RestVisited(lib: Library, prefix: string, entries: seq<Entry>, n: nat) returns (rest: seq<Callback>)
    requires n <= |entries|
    ensures Visited(lib, prefix, entries, |entries|) == Visited(lib, prefix, entries, n) + rest
    decreases |entries| - n
  {
    hide VisitedAt;
    if n == |entries| {
      rest := [];
    } else {
      var later := RestVisited(lib, prefix, entries, n + 1);
      rest := VisitedAt(lib, Child(prefix, entries[n].name), entries[n].node) + later;
    }
  }

  lemma AdvancedIsValid(lib: Library, probe: ProbeOracle, s: Progress, t: Progress, visits: seq<Callback>,
                        ordinary: bool)
    requires Advanced(lib, probe, s, t, visits, ordinary)
    ensures ProgressValid(lib, t) && Grown(s, t)
  {
  }

  lemma AdvancedByNothing(lib: Library, probe: ProbeOracle, s: Progress, v: Callback)
    requires ProgressValid(lib, s)
    ensures Advanced(lib, probe, s, s, [v], true)
  {
    hide ProgressValid;
    GrownReflexive(s);
  }

  // ----- The turns of one candidate's groups -----

  /** The effect of one group's turn. */
  ghost predicate GroupTurn(lib: Library, probe: ProbeOracle, s: Progress, t: Progress, relative: string)
  {
    && ProgressValid(lib, t) && Grown(s, t) && (Flagged(lib, s) ==> Flagged(lib, t))
    && |t.collected| <= |s.collected| + 1
    && (forall k :: |s.collected| <= k < |t.collected| ==> t.collected[k].path == relative)
    && (Calm(s) && |s.collected| < MAX_ARTIFACT_FILES && (forall group :: EasilyOpened(probe, relative, group)) ==>
          Calm(t))
  }

  ghost predicate GroupTurns(lib: Library, probe: ProbeOracle, s: Progress, t: Progress, relative: string, n: nat)
  {
    && ProgressValid(lib, t) && Grown(s, t) && (Flagged(lib, s) ==> Flagged(lib, t))
    && |t.collected| <= |s.collected| + n
    && (forall k :: |s.collected| <= k < |t.collected| ==> t.collected[k].path == relative)
    && (Calm(s) && |s.collected| + n <= MAX_ARTIFACT_FILES && (forall group :: EasilyOpened(probe, relative, group)) ==>
          Calm(t))
  }

  lemma NoTurns(lib: Library, probe: ProbeOracle, s: Progress, relative: string)
    requires ProgressValid(lib, s)
    ensures GroupTurns(lib, probe, s, s, relative, 0)
  {
    hide ProgressValid;
    GrownReflexive(s);
  }

  lemma OneMoreTurn(lib: Library, probe: ProbeOracle, s: Progress, t: Progress, u: Progress, relative: string, n: nat)
    requires GroupTurns(lib, probe, s, t, relative, n) && GroupTurn(lib, probe, t, u, relative)
    ensures GroupTurns(lib, probe, s, u, relative, n + 1)
  {
    hide ProgressValid, Flagged, Calm;
    GrownTransitive(s, t, u);
    forall k | |s.collected| <= k < |u.collected| ensures u.collected[k].path == relative {
      assert k < |t.collected| ==> u.collected[k] == t.collected[k];
    }
  }

  lemma TurnsAdvance(lib: Library, probe: ProbeOracle, s: Progress, t: Progress, relative: string, n: nat)
    requires GroupTurns(lib, probe, s, t, relative, n) && n <= |s.patterns|
    ensures Advanced(lib, probe, s, t, [Callback(relative, Leaf)], true)
  {
    hide ProgressValid, Flagged, Calm, Grown, PolicyRejects;
    var visits := [Callback(relative, Leaf)];
    assert visits[0].relative == relative && visits[0].node.Leaf?;
    assert AllPlain(lib, probe, visits) ==> Plain(lib, probe, visits[0]);
  }

  lemma MatchesComplete(lib: Library, s: Progress, t: Progress, group: string, matched: map<string, seq<nat>>,
                        relative: string)
    requires Grown(s, t) && MatchedByGroup(lib, s.patterns, |s.patterns|, relative, matched) && group in matched
    ensures AllMatches(lib, t.patterns, group, matched[group], relative)
  {
    hide MatchOutcome;
    assert forall p :: 0 <= p < |s.patterns| ==> StateGrown(s.patterns[p], t.patterns[p]);
  }

  /** While the files are small the total never stands in the way of another small one. */
  lemma TotalFits(lib: Library, s: Progress)
    requires ProgressValid(lib, s) && |s.collected| < MAX_ARTIFACT_FILES
    ensures Calm(s) ==>
              s.total + SMALL_FILE_BYTES <= MAX_TOTAL_ARTIFACT_BYTES && SMALL_FILE_BYTES <= MAX_ARTIFACT_FILE_BYTES
  {
  }

  // ----- The plan -----

  predicate FileLess(a: HelperFile, b: HelperFile)
  {
    if a.group != b.group then StringLess(a.group, b.group) else StringLess(a.path, b.path)
  }

  lemma FileOrder()
    ensures WeakOrder(FileLess)
  {
    forall x, y | FileLess(x, y) ensures !FileLess(y, x) {
      StringLessTotal(x.group, y.group);
      StringLessTotal(x.path, y.path);
    }
    forall x, y, z | !FileLess(y, x) && !FileLess(z, y) ensures !FileLess(z, x) {
      NotLessTransitive(x.group, y.group, z.group);
      NotLessTransitive(x.path, y.path, z.path);
    }
  }

  lemma NotLessTransitive(x: string, y: string, z: string)
    ensures !StringLess(y, x) && !StringLess(z, y) ==> !StringLess(z, x)
    ensures !StringLess(y, x) && !StringLess(z, y) && x == z ==> x == y
  {
    StringOrder();
    StringLessTotal(x, y);
    StringLessTotal(y, z);
  }

  function FinalReason(state: PatternState): Option<OmissionReason>
  {
    if state.reason == None && !state.collected then Some(NoMatch) else state.reason
  }

  /** The omissions of a finished walk, in request order. */
  function OmissionsOf(patterns: seq<PatternState>): seq<ArtifactOmission>
  {
    if patterns == [] then []
    else
      var last := patterns[|patterns| - 1];
      var front := OmissionsOf(patterns[..|patterns| - 1]);
      match FinalReason(last)
      case None => front
      case Some(reason) => front + [ArtifactOmission(last.group, last.pattern, reason)]
  }

  /** Every omission explains a pattern, in the same order, so distinct patterns give distinct omissions. */
  lemma {:induction false} OmissionsSound(patterns: seq<PatternState>)
    requires Apart(SameRequest, patterns)
    ensures |OmissionsOf(patterns)| <= |patterns|
    ensures forall k :: 0 <= k < |OmissionsOf(patterns)| ==>
              exists p :: 0 <= p < |patterns| && Explains(patterns[p], OmissionsOf(patterns)[k])
    ensures forall a, b :: 0 <= a < b < |OmissionsOf(patterns)| ==> OmissionsOf(patterns)[a] != OmissionsOf(patterns)[b]
  {
    if patterns != [] {
      var n := |patterns| - 1;
      var front, all := OmissionsOf(patterns[..n]), OmissionsOf(patterns);
      OmissionsSound(patterns[..n]);
      forall k | 0 <= k < |all| ensures exists p :: 0 <= p < |patterns| && Explains(patterns[p], all[k]) {
        if k < |front| {
          var p :| 0 <= p < n && Explains(patterns[..n][p], front[k]);
          assert Explains(patterns[p], all[k]);
        } else {
          assert Explains(patterns[n], all[k]);
        }
      }
      forall a | 0 <= a < |front| && |all| > |front| ensures all[a] != all[|front|] {
        var p :| 0 <= p < n && Explains(patterns[..n][p], front[a]);
        assert !SameRequest(patterns[p], patterns[n]);
      }
    }
  }

  /** Every pattern with a final reason is listed. */
  lemma {:induction false} OmissionsComplete(patterns: seq<PatternState>, p: nat)
    requires p < |patterns| && FinalReason(patterns[p]).Some?
    ensures exists k :: 0 <= k < |OmissionsOf(patterns)| && Explains(patterns[p], OmissionsOf(patterns)[k])
  {
    var n := |patterns| - 1;
    var front, all := OmissionsOf(patterns[..n]), OmissionsOf(patterns);
    if p < n {
      OmissionsComplete(patterns[..n], p);
      var k :| 0 <= k < |front| && Explains(patterns[p], front[k]);
      assert all[k] == front[k];
    } else {
      assert Explains(patterns[p], all[|all| - 1]);
    }
  }

  predicate Explains(state: PatternState, omission: ArtifactOmission)
  {
    state.group == omission.group && state.pattern == omission.pattern && FinalReason(state) == Some(omission.reason)
  }

  /** What the walk kept is what the plan's validators ask of a file. */
  lemma ChosenIsAllowed(lib: Library, selections: seq<ArtifactSelection>, s: Progress, group: string, path: string)
    requires SelectionsValid(lib, selections) && Chosen(lib, s.patterns, group, path)
    requires Grown(Progress(Flatten(selections), [], {}, 0), s)
    ensures FileAllowed(lib, selections, group, path)
  {
    hide MatchOutcome, PatternValid, IsGroup;
    var requested := Flatten(selections);
    FlattenSound(lib, selections);
    var p :| 0 <= p < |s.patterns| && s.patterns[p].group == group
             && MatchOutcome(lib.pathMatch, s.patterns[p].pattern, path) == Hit;
    assert StateGrown(requested[p], s.patterns[p]) && FreshRequest(lib, selections, requested[p]);
    var patterns := PatternsOf(selections, group).value;
    forall k | 0 <= k < |patterns| ensures MatchOutcome(lib.pathMatch, patterns[k], path) != BadPattern {
      FlattenComplete(selections, group, patterns[k]);
      var q :| 0 <= q < |requested| && requested[q] == PatternState(group, patterns[k], false, None);
      assert StateGrown(requested[q], s.patterns[q]);
    }
    var k :| 0 <= k < |patterns| && patterns[k] == s.patterns[p].pattern;
    assert MatchOutcome(lib.pathMatch, patterns[k], path) == Hit;
  }

  lemma {:induction false} SumAppend(a: seq<HelperFile>, b: seq<HelperFile>)
    ensures SumSizes(a + b) == SumSizes(a) + SumSizes(b)
  {
    if b == [] {
      assert a + b == a;
    } else {
      SumAppend(a, b[..|b| - 1]);
      assert (a + b)[..|a + b| - 1] == a + b[..|b| - 1];
    }
  }

  lemma SumInsert(x: HelperFile, rest: seq<HelperFile>)
    ensures SumSizes(Insert(FileLess, x, rest)) == x.size + SumSizes(rest)
  {
    hide FileLess;
    var k := InsertPosition(FileLess, x, rest);
    SumAppend(rest[..k] + [x], rest[k..]);
    SumAppend(rest[..k], [x]);
    SumAppend(rest[..k], rest[k..]);
    assert rest[..k] + rest[k..] == rest;
    assert SumSizes([x]) == x.size;
  }

  lemma {:induction false} SumSorted(files: seq<HelperFile>)
    ensures SumSizes(Sort(FileLess, files)) == SumSizes(files)
  {
    hide FileLess;
    if files != [] {
      SumSorted(files[1..]);
      SumInsert(files[0], Sort(FileLess, files[1..]));
      SumAppend([files[0]], files[1..]);
      assert [files[0]] + files[1..] == files;
      assert SumSizes([files[0]]) == files[0].size;
    }
  }

  /** A plan as collectFiles builds it. */
  ghost predicate PlanFromWalk(lib: Library, selections: seq<ArtifactSelection>, plan: HelperPlan)
  {
    && HelperPlanValid(lib, plan, selections)
    && OmissionsValid(lib, plan.omissions)
    && (plan.files == [] ==> plan.omissions != [])
    && Sorted(FileLess, plan.files)
  }

  /** The plan answers for a selected file: it has it, or it lists the pattern as omitting something. */
  ghost predicate AnswersFor(plan: HelperPlan, group: string, pattern: string, path: string)
  {
    || InPlan(plan.files, group, path)
    || exists k :: 0 <= k < |plan.omissions| && Blames(plan.omissions[k], group, pattern)
  }

  predicate Blames(omission: ArtifactOmission, group: string, pattern: string)
  {
    omission.group == group && omission.pattern == pattern && omission.reason != NoMatch
  }

  ghost function PlanOf(s: Progress): HelperPlan
  {
    HelperPlan(Sort(FileLess, s.collected), OmissionsOf(s.patterns))
  }

  lemma SortedFiles(lib: Library, s: Progress)
    requires ProgressValid(lib, s)
    ensures var files := Sort(FileLess, s.collected);
            && |files| == |s.collected| && Sorted(FileLess, files) && Apart(SameHelperFile, files)
            && SumSizes(files) == SumSizes(s.collected)
            && (forall file :: file in files <==> file in s.collected)
  {
    hide FileLess, SameHelperFile, FileKept, StateValid;
    FileOrder();
    SortSorts(FileLess, s.collected);
    SumSorted(s.collected);
    SameElements(Sort(FileLess, s.collected), s.collected);
    assert forall x, y :: SameHelperFile(x, y) <==> SameHelperFile(y, x) by { SameFileSymmetric(); }
    SortApart(FileLess, SameHelperFile, s.collected);
  }

  lemma SameFileSymmetric()
    ensures forall x, y :: SameHelperFile(x, y) <==> SameHelperFile(y, x)
  {
  }

  lemma FinishedFiles(lib: Library, selections: seq<ArtifactSelection>, s: Progress)
    requires SelectionsValid(lib, selections) && ProgressValid(lib, s)
    requires Grown(Progress(Flatten(selections), [], {}, 0), s)
    ensures forall k :: 0 <= k < |PlanOf(s).files| ==> HelperFileValid(lib, selections, PlanOf(s).files[k])
  {
    hide MatchOutcome, SelectionValid, IsGroup, FilePathValid, FileAllowed, FileLess, Chosen, Grown;
    SortedFiles(lib, s);
    forall k | 0 <= k < |PlanOf(s).files| ensures HelperFileValid(lib, selections, PlanOf(s).files[k]) {
      var file := PlanOf(s).files[k];
      assert file in s.collected;
      var j :| 0 <= j < |s.collected| && s.collected[j] == file;
      assert FileKept(lib, s.patterns, s.collected[j]);
      ChosenIsAllowed(lib, selections, s, file.group, file.path);
    }
  }

  lemma FinishedOmissions(lib: Library, selections: seq<ArtifactSelection>, s: Progress)
    requires SelectionsValid(lib, selections) && selections != [] && ProgressValid(lib, s)
    requires Grown(Progress(Flatten(selections), [], {}, 0), s)
    ensures |PlanOf(s).omissions| <= MAX_TOTAL_ARTIFACT_PATHS && OmissionsValid(lib, PlanOf(s).omissions)
    ensures forall k :: 0 <= k < |PlanOf(s).omissions| ==> PlannedOmissionValid(selections, PlanOf(s).omissions[k])
    ensures s.collected == [] ==> PlanOf(s).omissions != []
  {
    hide SelectionValid, PatternValid, IsGroup, FileKept, FileLess, Sort;
    var requested, omissions := Flatten(selections), PlanOf(s).omissions;
    FlattenSound(lib, selections);
    FlattenDistinct(lib, selections);
    RequestsKept(requested, s.patterns);
    OmissionsSound(s.patterns);
    forall k | 0 <= k < |omissions|
      ensures PlannedOmissionValid(selections, omissions[k]) && OmissionValid(lib, omissions[k])
    {
      var p :| 0 <= p < |s.patterns| && Explains(s.patterns[p], omissions[k]);
      assert StateGrown(requested[p], s.patterns[p]) && FreshRequest(lib, selections, requested[p]);
      assert StateValid(s.patterns[p], s.collected != []);
    }
    if s.collected == [] {
      SomethingRequested(lib, selections);
      assert StateValid(s.patterns[0], s.collected != []);
      OmissionsComplete(s.patterns, 0);
    }
  }

  /** A finished walk's plan is what its receiver will accept, omissions included. */
  lemma FinishedPlan(lib: Library, selections: seq<ArtifactSelection>, s: Progress)
    requires SelectionsValid(lib, selections) && selections != [] && ProgressValid(lib, s)
    requires Grown(Progress(Flatten(selections), [], {}, 0), s)
    ensures PlanFromWalk(lib, selections, PlanOf(s))
  {
    hide SelectionsValid, HelperFileValid, OmissionsValid, PlannedOmissionValid, FileKept, StateValid, FileLess,
         Grown, SameHelperFile;
    SortedFiles(lib, s);
    FinishedFiles(lib, selections, s);
    FinishedOmissions(lib, selections, s);
  }

  lemma SomethingRequested(lib: Library, selections: seq<ArtifactSelection>)
    requires SelectionsValid(lib, selections) && selections != []
    ensures Flatten(selections) != []
  {
    hide PatternValid, IsGroup;
    var last := selections[|selections| - 1];
    assert SelectionValid(lib, last);
    assert Flatten(selections)[|Flatten(selections)| - 1].group == last.name;
  }

  lemma RequestsKept(requested: seq<PatternState>, patterns: seq<PatternState>)
    requires |patterns| == |requested| && Apart(SameRequest, requested)
    requires forall p :: 0 <= p < |patterns| ==> StateGrown(requested[p], patterns[p])
    ensures Apart(SameRequest, patterns)
  {
    forall a, b | 0 <= a < b < |patterns| ensures !SameRequest(patterns[a], patterns[b]) {
      assert !SameRequest(requested[a], requested[b]);
      assert StateGrown(requested[a], patterns[a]) && StateGrown(requested[b], patterns[b]);
    }
  }

  /** What is noted during the walk is never "no match". */
  lemma ReasonIsReal(lib: Library, s: Progress, p: nat)
    requires ProgressValid(lib, s) && p < |s.patterns| && s.patterns[p].reason.Some?
    ensures FinalReason(s.patterns[p]) == s.patterns[p].reason && s.patterns[p].reason.value != NoMatch
  {
    hide FileKept, IsGroup;
    assert StateValid(s.patterns[p], s.collected != []);
  }

  lemma PlanAnswers(lib: Library, selections: seq<ArtifactSelection>, s: Progress,
                    group: string, pattern: string, path: string)
    requires SelectionsValid(lib, selections) && ProgressValid(lib, s)
    requires Grown(Progress(Flatten(selections), [], {}, 0), s)
    requires OmissionAllowed(selections, group, pattern) && Selecting(lib, pattern, path)
    requires Accounted(lib, s, path) || AllNoted(s)
    ensures AnswersFor(PlanOf(s), group, pattern, path)
  {
    hide SelectionsValid, FileKept, StateValid, FileLess;
    var requested, plan := Flatten(selections), PlanOf(s);
    FlattenComplete(selections, group, pattern);
    var p :| 0 <= p < |requested| && requested[p] == PatternState(group, pattern, false, None);
    assert StateGrown(requested[p], s.patterns[p]);
    assert Covers(s, p, path);
    if s.patterns[p].reason.Some? {
      ReasonIsReal(lib, s, p);
      OmissionsComplete(s.patterns, p);
      var k :| 0 <= k < |plan.omissions| && Explains(s.patterns[p], plan.omissions[k]);
      assert Blames(plan.omissions[k], group, pattern);
    } else {
      SortedFiles(lib, s);
      var j :| 0 <= j < |s.collected| && s.collected[j].group == group && s.collected[j].path == path;
      assert s.collected[j] in plan.files;
      var k :| 0 <= k < |plan.files| && plan.files[k] == s.collected[j];
    }
  }

  /** The walk's omissions: one that claims no match tells the truth, and without reasons no other is listed. */
  lemma OmissionsTruthful(lib: Library, s: Progress, k: nat)
    requires ProgressValid(lib, s) && Flagged(lib, s) && Apart(SameRequest, s.patterns) && k < |OmissionsOf(s.patterns)|
    ensures OmissionsOf(s.patterns)[k].reason == NoMatch ==> Unmatched(lib, s.collected, OmissionsOf(s.patterns)[k])
    ensures Calm(s) ==> OmissionsOf(s.patterns)[k].reason == NoMatch
  {
    hide MatchOutcome, FileKept, IsGroup;
    var omission := OmissionsOf(s.patterns)[k];
    OmissionsSound(s.patterns);
    var p :| 0 <= p < |s.patterns| && Explains(s.patterns[p], omission);
    assert StateValid(s.patterns[p], s.collected != []);
    forall j | omission.reason == NoMatch && 0 <= j < |s.collected| && s.collected[j].group == omission.group
      ensures MatchOutcome(lib.pathMatch, omission.pattern, s.collected[j].path) != Hit
    {
      assert FlaggedAt(lib, s.collected[j], s.patterns[p]);
    }
  }

  /** No planned file of the omission's group is one that its pattern selects. */
  ghost predicate Unmatched(lib: Library, files: seq<HelperFile>, omission: ArtifactOmission)
  {
    forall j :: 0 <= j < |files| && files[j].group == omission.group ==>
      MatchOutcome(lib.pathMatch, omission.pattern, files[j].path) != Hit
  }

  lemma UnmatchedSorted(lib: Library, s: Progress, omission: ArtifactOmission)
    requires ProgressValid(lib, s) && Unmatched(lib, s.collected, omission)
    ensures Unmatched(lib, PlanOf(s).files, omission)
  {
    hide MatchOutcome, FileKept, StateValid, FileLess;
    SortedFiles(lib, s);
    forall j | 0 <= j < |PlanOf(s).files| && PlanOf(s).files[j].group == omission.group
      ensures MatchOutcome(lib.pathMatch, omission.pattern, PlanOf(s).files[j].path) != Hit
    {
      assert PlanOf(s).files[j] in s.collected;
    }
  }

  /** Nothing the walk meets gives it a reason to leave a file out, and there is room for all of them. */
  ghost predicate AllCollectable(lib: Library, probe: ProbeOracle, root: Node, selections: seq<ArtifactSelection>)
    requires root.Directory?
  {
    && AllPlain(lib, probe, VisitedBelow(lib, root))
    && |VisitedBelow(lib, root)| * |Flatten(selections)| <= MAX_ARTIFACT_FILES
  }

  /** collectFiles. It fails exactly when a callback within the scan limit stumbles. Otherwise the plan passes
      every later check and holds visited files only; it answers for every file that a well-formed pattern
      selects and that can be reached through listable directories, whatever was pruned; a pattern listed as
      matching nothing matches no planned file; and where everything can be collected nothing else is listed. */
  method CollectFiles(lib: Library, probe: ProbeOracle, root: Node, selections: seq<ArtifactSelection>)
    returns (plan: Option<HelperPlan>)
    requires SelectionsValid(lib, selections) && selections != []
    requires root.Directory? && NamesPresent(root)
    ensures plan.None? <==>
            exists k :: 0 <= k < |VisitedBelow(lib, root)|
                        && Stumbles(lib, Flatten(selections), VisitedBelow(lib, root)[k], k)
    ensures plan.Some? ==> PlanFromWalk(lib, selections, plan.value)
    ensures plan.Some? ==>
              forall k :: 0 <= k < |plan.value.files| ==> LeafVisited(VisitedBelow(lib, root), plan.value.files[k].path)
    ensures plan.Some? ==>
              forall group, pattern, path ::
                  OmissionAllowed(selections, group, pattern) && Selecting(lib, pattern, path) ==>
                IsReadableLeaf("", root, path) ==> AnswersFor(plan.value, group, pattern, path)
    ensures plan.Some? ==>
              forall k :: 0 <= k < |plan.value.omissions| && plan.value.omissions[k].reason == NoMatch ==>
                Unmatched(lib, plan.value.files, plan.value.omissions[k])
    ensures plan.Some? && AllCollectable(lib, probe, root, selections) ==>
              forall k :: 0 <= k < |plan.value.omissions| ==> plan.value.omissions[k].reason == NoMatch
    ensures plan.Some? && AllCollectable(lib, probe, root, selections) ==>
              forall group, pattern, path ::
                  OmissionAllowed(selections, group, pattern) && Selecting(lib, pattern, path) ==>
                (AnswersFor(plan.value, group, pattern, path) <==> IsReadableLeaf("", root, path))
  {
    hide MatchOutcome, WellFormed, SelectionsValid, FileLess, StringLess, ProgressValid, Grown, Flagged, Calm, Stumbles;
    hide Accounted, AllNoted, AllCollectable, Advanced, PlanFromWalk, Unmatched;
    var walk := new Walk(lib, probe, selections);
    ghost var start, visits := walk.State(), VisitedBelow(lib, root);
    AdvancedNowhere(lib, probe, start, true);
    var signal := Continue;
    if root.readable {
      signal := walk.WalkEntries("", root.entries);
    }
    FailsFromStart(lib, Flatten(selections), visits);
    if signal == Fail { return None; }
    ghost var end := walk.State();
    AdvancedIsValid(lib, probe, start, end, visits, signal != SkipAll);
    var files := Sort(FileLess, walk.collected);
    var omissions := OmissionsOf(walk.patterns);
    FinishedPlan(lib, selections, end);
    plan := Some(HelperPlan(files, omissions));
    FinishedWalk(lib, probe, selections, root, end, signal);
    FinishedAnswers(lib, selections, root, end);
    if AllCollectable(lib, probe, root, selections) { AnsweredIsReadable(lib, root, plan.value); }
  }

  /** Where only "no match" is listed, an answer is a planned file, and planned files can be reached. */
  lemma AnsweredIsReadable(lib: Library, root: Node, plan: HelperPlan)
    requires root.Directory?
    requires forall k :: 0 <= k < |plan.files| ==> LeafVisited(VisitedBelow(lib, root), plan.files[k].path)
    requires forall k :: 0 <= k < |plan.omissions| ==> plan.omissions[k].reason == NoMatch
    ensures forall group, pattern, path :: AnswersFor(plan, group, pattern, path) ==> IsReadableLeaf("", root, path)
  {
    hide LeafVisited, Visited;
    forall group, pattern, path | AnswersFor(plan, group, pattern, path) ensures IsReadableLeaf("", root, path) {
      var k :| 0 <= k < |plan.files| && plan.files[k].group == group && plan.files[k].path == path;
      assert LeafVisited(VisitedBelow(lib, root), path);
      NothingVisited(path);
      VisitedIsReadable(lib, "", root.entries, |root.entries|, path);
    }
  }

  lemma NothingVisited(path: string)
    ensures !LeafVisited([], path)
  {
  }

  // ----- Three trees -----

  /** One file next to a directory that cannot be listed and holds another. */
  const HALF_READABLE := Directory([Entry("a", Leaf), Entry("d", Directory([Entry("b", Leaf)], false))], true)

  const EVERYTHING := [ArtifactSelection("g", ["**"])]

  /** What the two names and the one pattern need of the library, and the one file of the file system. */
  ghost predicate Ordinary(lib: Library, probe: ProbeOracle)
  {
    && lib.validUtf8("a") && lib.validUtf8("d") && lib.validUtf8("**")
    && lib.pathMatch("**", "synthetic/path") != Malformed
    && forall group :: EasilyOpened(probe, "a", group)
  }

  /** The first file is collected under a pattern that selects both, so the pattern is not listed as omitting
      anything, and the second file is passed over in silence. */
  method UnreadableDirectoryIsSilent(lib: Library, probe: ProbeOracle) returns (plan: Option<HelperPlan>)
    requires Ordinary(lib, probe)
    ensures plan.Some? && InPlan(plan.value.files, "g", "a")
    ensures Selecting(lib, "**", "d/b") && IsLeaf("", HALF_READABLE, "d/b") && !InPlan(plan.value.files, "g", "d/b")
    ensures plan.value.omissions == []
  {
    hide SelectionsValid, AllCollectable, Selecting, Ordinary, Stumbles, PlanFromWalk;
    EverythingValid(lib, probe);
    HalfReadableVisits(lib, probe);
    HalfReadableLeaves();
    DoubleStarSelects(lib, "a");
    DoubleStarSelects(lib, "d/b");
    plan := CollectFiles(lib, probe, HALF_READABLE, EVERYTHING);
    assert OmissionAllowed(EVERYTHING, "g", "**");
    assert AnswersFor(plan.value, "g", "**", "a") && !AnswersFor(plan.value, "g", "**", "d/b");
    NothingOmitted(lib, plan.value);
  }

  lemma NothingOmitted(lib: Library, plan: HelperPlan)
    requires PlanFromWalk(lib, EVERYTHING, plan) && InPlan(plan.files, "g", "a")
    requires forall k :: 0 <= k < |plan.omissions| ==> Unmatched(lib, plan.files, plan.omissions[k])
    ensures plan.omissions == []
  {
    hide PlanFromWalk, MatchOutcome;
    DoubleStarSelects(lib, "a");
    SelectingHits(lib, "**", "a");
    var j :| 0 <= j < |plan.files| && plan.files[j].group == "g" && plan.files[j].path == "a";
    if plan.omissions != [] {
      OnlyEverything(lib, plan, 0);
      assert false;
    }
  }

  lemma SelectingHits(lib: Library, pattern: string, path: string)
    requires Selecting(lib, pattern, path)
    ensures MatchOutcome(lib.pathMatch, pattern, path) == Hit
  {
  }

  lemma OnlyEverything(lib: Library, plan: HelperPlan, k: nat)
    requires PlanFromWalk(lib, EVERYTHING, plan) && k < |plan.omissions|
    ensures plan.omissions[k].group == "g" && plan.omissions[k].pattern == "**"
  {
    hide HelperFileValid, OmissionsValid;
    assert PlannedOmissionValid(EVERYTHING, plan.omissions[k]);
    assert PatternsOf(EVERYTHING[..0], plan.omissions[k].group) == None;
  }

  /** `**` selects every path, and is never malformed. */
  lemma DoubleStarSelects(lib: Library, path: string)
    ensures Selecting(lib, "**", path)
  {
    SplitWithoutSeparator("**", '/');
    DoubleStarTakes(lib.pathMatch, Split(path, '/'), 0);
  }

  lemma {:induction false} DoubleStarTakes(oracle: SegmentOracle, candidate: seq<string>, j: nat)
    requires j <= |candidate|
    ensures MatchFrom(oracle, ["**"], candidate, 0, j) == Hit
    decreases |candidate| - j
  {
    if j < |candidate| {
      DoubleStarTakes(oracle, candidate, j + 1);
    }
  }

  lemma EverythingValid(lib: Library, probe: ProbeOracle)
    requires Ordinary(lib, probe)
    ensures SelectionsValid(lib, EVERYTHING)
    ensures Flatten(EVERYTHING) == [PatternState("g", "**", false, None)]
  {
    SplitWithoutSeparator("**", '/');
    assert Lower("**")[0] == '*';
    assert PatternValid(lib, "**");
    assert EVERYTHING[..0] == [] && TotalPaths(EVERYTHING) == TotalPaths(EVERYTHING[..0]) + 1;
  }

  lemma NameAllowed(lib: Library, name: string)
    requires name == "a" || name == "d"
    requires lib.validUtf8(name)
    ensures !PolicyRejects(lib, name) && !(".." <= name)
  {
    SplitWithoutSeparator(name, '/');
    assert |Lower(name)| == 1;
  }

  lemma HalfReadableVisits(lib: Library, probe: ProbeOracle)
    requires Ordinary(lib, probe) && Flatten(EVERYTHING) == [PatternState("g", "**", false, None)]
    ensures HALF_READABLE.Directory? && NamesPresent(HALF_READABLE)
    ensures AllCollectable(lib, probe, HALF_READABLE, EVERYTHING)
    ensures forall k :: 0 <= k < |VisitedBelow(lib, HALF_READABLE)| ==>
              !Stumbles(lib, Flatten(EVERYTHING), VisitedBelow(lib, HALF_READABLE)[k], k)
  {
    hide PolicyRejects, MatchOutcome;
    NameAllowed(lib, "a");
    NameAllowed(lib, "d");
    DoubleStarSelects(lib, "a");
    var entries := HALF_READABLE.entries;
    var first, second := Callback("a", Leaf), Callback("d", entries[1].node);
    assert Visited(lib, "", entries, 1) == [first] by {
      assert Visited(lib, "", entries, 0) == [];
    }
    assert VisitedAt(lib, "d", entries[1].node) == [second];
    assert Visited(lib, "", entries, 2) == [first, second];
    assert VisitedBelow(lib, HALF_READABLE) == [first, second];
  }

  lemma HalfReadableLeaves()
    ensures IsReadableLeaf("", HALF_READABLE, "a") && IsLeaf("", HALF_READABLE, "d/b")
    ensures !IsReadableLeaf("", HALF_READABLE, "d/b")
  {
    var entries := HALF_READABLE.entries;
    assert IsReadableLeaf(Child("", entries[0].name), entries[0].node, "a");
    var below := entries[1].node.entries;
    assert IsLeaf(Child("d", below[0].name), below[0].node, "d/b");
    assert IsLeaf(Child("", entries[1].name), entries[1].node, "d/b");
    assert !IsReadableLeaf(Child("", entries[0].name), entries[0].node, "d/b");
    assert !IsReadableLeaf(Child("", entries[1].name), entries[1].node, "d/b");
  }

  /** Two dots end the walk at the start of a name in the working directory itself, not further down. */
  lemma DottedNames(lib: Library, patterns: seq<PatternState>)
    requires NeverMalformed(lib, patterns, "a") && NeverMalformed(lib, patterns, "a/..b")
    ensures var dotted := Directory([Entry("a", Leaf), Entry("..x", Leaf)], true);
            |VisitedBelow(lib, dotted)| == 2 && Stumbles(lib, patterns, VisitedBelow(lib, dotted)[1], 1)
    ensures var nested := Directory([Entry("a", Directory([Entry("..b", Leaf)], true))], true);
            forall k :: 0 <= k < |VisitedBelow(lib, nested)| ==>
                !Stumbles(lib, patterns, VisitedBelow(lib, nested)[k], k)
  {
    hide PolicyRejects, NeverMalformed;
    var dotted := [Entry("a", Leaf), Entry("..x", Leaf)];
    assert Visited(lib, "", dotted, 0) == [];
    assert Visited(lib, "", dotted, 1) == [Callback("a", Leaf)];
    assert Visited(lib, "", dotted, 2) == [Callback("a", Leaf), Callback("..x", Leaf)];
    var below := [Entry("..b", Leaf)];
    var nested := [Entry("a", Directory(below, true))];
    assert Visited(lib, "", nested, 0) == [] && Visited(lib, "a", below, 0) == [];
    assert Child("a", "..b") == "a/..b";
    assert Visited(lib, "a", below, 1) == [Callback("a/..b", Leaf)];
    assert "a/..b"[0] == 'a' && ".."[0] == '.';
    assert Visited(lib, "", nested, 1) == VisitedAt(lib, "a", Directory(below, true));
  }

  lemma FinishedAnswers(lib: Library, selections: seq<ArtifactSelection>, root: Node, s: Progress)
    requires SelectionsValid(lib, selections) && ProgressValid(lib, s)
    requires Grown(Progress(Flatten(selections), [], {}, 0), s)
    requires AllNoted(s) || forall path :: IsReadableLeaf("", root, path) ==> Accounted(lib, s, path)
    ensures forall group, pattern, path ::
              OmissionAllowed(selections, group, pattern) && Selecting(lib, pattern, path) ==>
              IsReadableLeaf("", root, path) ==> AnswersFor(PlanOf(s), group, pattern, path)
  {
    hide SelectionsValid, ProgressValid, Grown, AllNoted, Accounted, OmissionAllowed, Selecting, IsReadableLeaf,
         AnswersFor;
    forall group, pattern, path |
      OmissionAllowed(selections, group, pattern) && Selecting(lib, pattern, path) && IsReadableLeaf("", root, path)
      ensures AnswersFor(PlanOf(s), group, pattern, path)
    {
      PlanAnswers(lib, selections, s, group, pattern, path);
    }
  }

  /** What a walk that ran to its end, or into the scan limit, says about its plan. */
  lemma FinishedWalk(lib: Library, probe: ProbeOracle, selections: seq<ArtifactSelection>, root: Node, s: Progress,
                     signal: Signal)
    requires SelectionsValid(lib, selections) && selections != [] && root.Directory?
    requires Advanced(lib, probe, Progress(Flatten(selections), [], {}, 0), s, VisitedBelow(lib, root),
                      signal != SkipAll)
    requires signal == WalkOutcome(lib, Flatten(selections), VisitedBelow(lib, root), 0)
    ensures forall k :: 0 <= k < |PlanOf(s).files| ==> LeafVisited(VisitedBelow(lib, root), PlanOf(s).files[k].path)
    ensures forall k :: 0 <= k < |PlanOf(s).omissions| && PlanOf(s).omissions[k].reason == NoMatch ==>
              Unmatched(lib, PlanOf(s).files, PlanOf(s).omissions[k])
    ensures AllCollectable(lib, probe, root, selections) ==>
              forall k :: 0 <= k < |PlanOf(s).omissions| ==> PlanOf(s).omissions[k].reason == NoMatch
  {
    hide MatchOutcome, SelectionValid, FileLess, ProgressValid, Plain, FileKept, StateValid;
    var start, visits := Progress(Flatten(selections), [], {}, 0), VisitedBelow(lib, root);
    FlattenFresh(lib, selections);
    SortedFiles(lib, s);
    forall k | 0 <= k < |PlanOf(s).files| ensures LeafVisited(visits, PlanOf(s).files[k].path) {
      assert PlanOf(s).files[k] in s.collected;
      var j :| 0 <= j < |s.collected| && s.collected[j] == PlanOf(s).files[k];
    }
    FlattenDistinct(lib, selections);
    RequestsKept(start.patterns, s.patterns);
    if AllCollectable(lib, probe, root, selections) {
      SomethingRequested(lib, selections);
      FewEnough(|visits|, |Flatten(selections)|);
      NeverSkipsAll(lib, Flatten(selections), visits, 0);
    }
    forall k | 0 <= k < |PlanOf(s).omissions|
      ensures PlanOf(s).omissions[k].reason == NoMatch ==> Unmatched(lib, PlanOf(s).files, PlanOf(s).omissions[k])
      ensures AllCollectable(lib, probe, root, selections) ==> PlanOf(s).omissions[k].reason == NoMatch
    {
      OmissionsTruthful(lib, s, k);
      if Unmatched(lib, s.collected, PlanOf(s).omissions[k]) { UnmatchedSorted(lib, s, PlanOf(s).omissions[k]); }
    }
  }

  lemma FlattenFresh(lib: Library, selections: seq<ArtifactSelection>)
    requires SelectionsValid(lib, selections)
    ensures Calm(Progress(Flatten(selections), [], {}, 0)) && Flagged(lib, Progress(Flatten(selections), [], {}, 0))
  {
    hide PatternValid, IsGroup, MatchOutcome;
    FlattenSound(lib, selections);
    assert forall p :: 0 <= p < |Flatten(selections)| ==> FreshRequest(lib, selections, Flatten(selections)[p]);
  }

  lemma FewEnough(visits: nat, patterns: nat)
    requires visits * patterns <= MAX_ARTIFACT_FILES && patterns > 0
    ensures visits <= MAX_ARTIFACT_FILES
  {
    assert visits * (patterns - 1) >= 0;
    assert visits * patterns == visits * (patterns - 1) + visits;
  }

  lemma {:induction false} NeverSkipsAll(lib: Library, patterns: seq<PatternState>, visits: seq<Callback>, seen: nat)
    requires seen + |visits| <= MAX_SCANNED_ENTRIES
    ensures WalkOutcome(lib, patterns, visits, seen) != SkipAll
    decreases |visits|
  {
    hide PolicyRejects, NeverMalformed;
    if visits != [] {
      NeverSkipsAll(lib, patterns, visits[1..], seen + 1);
    }
  }
}
