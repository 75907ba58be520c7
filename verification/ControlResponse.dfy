/** internal/platform/linux/controlresponse: a response is staged beside its final path and then either
    renamed into place whole or removed whole. Paths are sequences of segments; `/` is the empty one. */
module ControlResponse {
  import opened Segments
  import opened Protocol
  import opened BrokerWire
  import opened OwnedTree

  // ----- The file system -----

  datatype Lookup = Present(node: Node) | Absent | Unknown

  datatype Removal = Removed | Missing | Refused

  /** All nodes at and below `from`, now at and below `to`. */
  ghost function Moved(tree: Tree, from: Path, to: Path): Tree
  {
    (map p | p in tree && !(from <= p) :: tree[p])
    + (map q | q in (set p | p in tree && from <= p :: to + p[|from|..]) && from + q[|to|..] in tree
         :: tree[from + q[|to|..]])
  }

  lemma MovedAt(tree: Tree, from: Path, to: Path, p: Path)
    requires Closed(tree) && to != [] && to !in tree && !(to <= from) && !(from <= to)
    ensures to <= p ==> (p in Moved(tree, from, to) <==> from + p[|to|..] in tree)
    ensures to <= p && p in Moved(tree, from, to) ==> Moved(tree, from, to)[p] == tree[from + p[|to|..]]
    ensures !(to <= p) ==> (p in Moved(tree, from, to) <==> p in tree && !(from <= p))
    ensures !(to <= p) && p in Moved(tree, from, to) ==> Moved(tree, from, to)[p] == tree[p]
  {
    if to <= p {
      if p in tree { AncestorsPresent(tree, p, to); }
      var origin := from + p[|to|..];
      assert from <= origin && origin[|from|..] == p[|to|..] && to + p[|to|..] == p;
      assert forall o :: from <= o && to + o[|from|..] == p ==> o == origin by {
        forall o | from <= o && to + o[|from|..] == p ensures o == origin {
          assert (to + o[|from|..])[|to|..] == o[|from|..];
          assert o == from + o[|from|..];
        }
      }
    }
  }

  ghost predicate AppendedPart(before: Tree, path: Path, content: bytes, count: nat, after: Tree)
  {
    count <= |content| && after == Appended(before, path, content[..count])
  }

  /** A file system with no other writer. When it is faulty, any operation may also fail on its own. */
  class FileSystem {
    var nodes: Tree
    const faulty: bool

    constructor (nodes: Tree, faulty: bool)
      ensures this.nodes == nodes && this.faulty == faulty
    {
      this.nodes, this.faulty := nodes, faulty;
    }

    /** Whether the operation at hand fails on its own. */
    method Fault() returns (fault: bool)
      ensures !faulty ==> !fault
    {
      fault := *;
      fault := faulty && fault;
    }

    method Lstat(path: Path) returns (found: Lookup)
      ensures found.Present? ==> path in nodes && nodes[path] == found.node
      ensures found.Absent? ==> path !in nodes
      ensures !faulty ==> !found.Unknown?
    {
      var fault := Fault();
      found := if fault then Unknown else if path in nodes then Present(nodes[path]) else Absent;
    }

    method Mkdir(path: Path) returns (ok: bool)
      requires path != []
      modifies this
      ensures ok ==>
                && path !in old(nodes) && IsDirectory(old(nodes), Parent(path))
                && nodes == old(nodes)[path := Directory]
      ensures !ok ==> nodes == old(nodes)
      ensures !faulty && path !in old(nodes) && IsDirectory(old(nodes), Parent(path)) ==> ok
    {
      var fault := Fault();
      if fault || path in nodes || !IsDirectory(nodes, Parent(path)) { return false; }
      nodes := nodes[path := Directory];
      ok := true;
    }

    /** O_CREATE|O_EXCL */
    method CreateExclusive(path: Path) returns (ok: bool)
      requires path != []
      modifies this
      ensures ok ==>
                && path !in old(nodes) && IsDirectory(old(nodes), Parent(path))
                && nodes == old(nodes)[path := File([])]
      ensures !ok ==> nodes == old(nodes)
      ensures !faulty && path !in old(nodes) && IsDirectory(old(nodes), Parent(path)) ==> ok
    {
      var fault := Fault();
      if fault || path in nodes || !IsDirectory(nodes, Parent(path)) { return false; }
      nodes := nodes[path := File([])];
      ok := true;
    }

    /** One write call: it may be short, fail, or report a nonsensical count. */
    method Append(path: Path, content: bytes) returns (count: int, failed: bool)
      modifies this
      ensures 0 <= count <= |content| ==> nodes == Appended(old(nodes), path, content[..count])
      ensures exists k: nat :: AppendedPart(old(nodes), path, content, k, nodes)
      ensures !faulty && content != [] ==> 0 < count <= |content| && !failed
    {
      if faulty || content == [] {
        count, failed := *, *;
      } else {
        var shortBy: nat :| shortBy < |content|;
        count, failed := |content| - shortBy, false;
      }
      var moved := if 0 <= count <= |content| then count else 0;
      assert AppendedPart(nodes, path, content, moved, Appended(nodes, path, content[..moved]));
      nodes := Appended(nodes, path, content[..moved]);
    }

    method Remove(path: Path) returns (removal: Removal)
      modifies this
      ensures removal.Removed? ==> path in old(nodes) && !HasChild(old(nodes), path) && nodes == old(nodes) - {path}
      ensures removal.Missing? ==> path !in old(nodes)
      ensures !removal.Removed? ==> nodes == old(nodes)
      ensures !faulty && path in old(nodes) && !HasChild(old(nodes), path) ==> removal.Removed?
      ensures !faulty && path !in old(nodes) ==> removal.Missing?
    {
      var fault := Fault();
      if fault { return Refused; }
      if path !in nodes { return Missing; }
      if exists p :: p in nodes && p != [] && Parent(p) == path { return Refused; }
      nodes := nodes - {path};
      removal := Removed;
    }

    /** rename(2) of a directory onto a name that is free. */
    method Rename(from: Path, to: Path) returns (ok: bool)
      requires to != [] && to !in nodes
      modifies this
      ensures ok ==> nodes == Moved(old(nodes), from, to)
      ensures ok ==> from in old(nodes) && IsDirectory(old(nodes), Parent(to)) && !(from <= to)
      ensures !ok ==> nodes == old(nodes)
      ensures !faulty && from in old(nodes) && IsDirectory(old(nodes), Parent(to)) && !(from <= to) ==> ok
    {
      var fault := Fault();
      if fault || from !in nodes || !IsDirectory(nodes, Parent(to)) || from <= to { return false; }
      var target := nodes;
      ghost var before := nodes;
      nodes := (map p | p in target && !(from <= p) :: target[p])
               + (map q | q in (set p | p in target && from <= p :: to + p[|from|..]) && from + q[|to|..] in target
                    :: target[from + q[|to|..]]);
      ok := true;
    }
  }

  // ----- Contents -----

  /** A staged file, named relative to the staging root. */
  datatype Entry = Entry(path: Path, content: bytes)

  ghost predicate Matches(nodes: Tree, s: Staging, entries: seq<Entry>)
  {
    && |entries| == |s.files|
    && forall i :: 0 <= i < |entries| ==>
         && s.files[i] == s.root + entries[i].path
         && s.files[i] in nodes && nodes[s.files[i]] == File(entries[i].content)
  }

  /** The files are the entries and nothing else; every directory is the root or holds one of them. */
  ghost predicate PublishedAs(base: Tree, nodes: Tree, final: Path, entries: seq<Entry>)
  {
    && (forall p :: p in base ==> p in nodes && nodes[p] == base[p])
    && (forall p :: p in nodes ==> p in base || final <= p)
    && final !in base && final in nodes && nodes[final].Directory?
    && (forall i :: 0 <= i < |entries| ==>
          final + entries[i].path in nodes && nodes[final + entries[i].path] == File(entries[i].content))
    && (forall q :: final + q in nodes ==>
          IsEntry(entries, q) || (nodes[final + q].Directory? && HoldsEntry(entries, q)))
  }

  ghost predicate IsEntry(entries: seq<Entry>, q: Path)
  {
    exists i :: 0 <= i < |entries| && entries[i].path == q
  }

  ghost predicate HoldsEntry(entries: seq<Entry>, q: Path)
  {
    q == [] || exists i :: 0 <= i < |entries| && q < entries[i].path
  }

  predicate Beside(a: Path, b: Path) { a != [] && b != [] && Parent(a) == Parent(b) }

  predicate Siblings(a: Path, b: Path) { Beside(a, b) && a != b }

  lemma SiblingsApart(a: Path, b: Path)
    requires Siblings(a, b)
    ensures !(a <= b) && !(b <= a)
  {
    assert |a| == |b|;
  }

  lemma ClosedAfterMove(nodes: Tree, root: Path, final: Path)
    requires Closed(nodes) && Siblings(root, final) && final !in nodes && root in nodes
    ensures Closed(Moved(nodes, root, final))
  {
    hide Moved;
    SiblingsApart(root, final);
    var after := Moved(nodes, root, final);
    MovedAt(nodes, root, final, []);
    forall p | p in after ensures p != [] && IsDirectory(after, Parent(p)) {
      MovedAt(nodes, root, final, p);
      assert p != [];
      MovedAt(nodes, root, final, Parent(p));
      if final <= p {
        var origin := root + p[|final|..];
        assert IsDirectory(nodes, Parent(origin));
        if p == final {
          assert origin == root;
          assert Parent(p) == Parent(root);
        } else {
          assert final <= Parent(p);
          assert Parent(origin) == root + Parent(p)[|final|..];
        }
      } else {
        assert IsDirectory(nodes, Parent(p));
        assert root <= Parent(p) ==> root <= p;
      }
    }
  }

  /** Renaming a lean staging tree publishes exactly what was staged. */
  lemma MovedIsPublished(base: Tree, nodes: Tree, s: Staging, final: Path, entries: seq<Entry>)
    requires Closed(nodes) && Outside(base, nodes, s.root) && Owns(nodes, s) && s.directories != []
    requires Lean(s) && Matches(nodes, s, entries)
    requires Siblings(s.root, final) && final !in nodes
    ensures PublishedAs(base, Moved(nodes, s.root, final), final, entries)
  {
    hide Moved, ParentsFirst, Distinct, Lean, Covered, AllFiles, IsEntry, HoldsEntry, Closed;
    SiblingsApart(s.root, final);
    BaseKept(base, nodes, s.root, final);
    var after := Moved(nodes, s.root, final);
    MovedAt(nodes, s.root, final, final);
    RootOwned(nodes, s);
    assert s.root + final[|final|..] == s.root;
    forall i | 0 <= i < |entries|
      ensures final + entries[i].path in after && after[final + entries[i].path] == File(entries[i].content)
    {
      MovedAt(nodes, s.root, final, final + entries[i].path);
      assert (final + entries[i].path)[|final|..] == entries[i].path;
    }
    forall q | final + q in after
      ensures IsEntry(entries, q) || (after[final + q].Directory? && HoldsEntry(entries, q))
    {
      MovedAt(nodes, s.root, final, final + q);
      assert (final + q)[|final|..] == q;
      StagedShape(nodes, s, entries, q);
    }
  }

  lemma BaseKept(base: Tree, nodes: Tree, root: Path, final: Path)
    requires Closed(nodes) && Outside(base, nodes, root) && Siblings(root, final) && final !in nodes
    ensures forall p :: p in base ==> p in Moved(nodes, root, final) && Moved(nodes, root, final)[p] == base[p]
    ensures forall p :: p in Moved(nodes, root, final) ==> p in base || final <= p
    ensures final !in base
  {
    hide Moved;
    SiblingsApart(root, final);
    forall p ensures p in base ==> p in Moved(nodes, root, final) && Moved(nodes, root, final)[p] == base[p] {
      MovedAt(nodes, root, final, p);
      if p in base && final <= p {
        AncestorsPresent(nodes, p, final);
      }
    }
    forall p | p in Moved(nodes, root, final) ensures p in base || final <= p {
      MovedAt(nodes, root, final, p);
    }
  }

  /** What can stand at a place below the staging root. */
  lemma StagedShape(nodes: Tree, s: Staging, entries: seq<Entry>, q: Path)
    requires Covered(nodes, s) && ParentsFirst(s) && AllDirectories(nodes, s.directories)
    requires Lean(s) && Matches(nodes, s, entries) && s.root + q in nodes
    ensures IsEntry(entries, q) || (nodes[s.root + q].Directory? && HoldsEntry(entries, q))
  {
    hide ParentsFirst, Lean;
    var p := s.root + q;
    if p in s.files {
      var i :| 0 <= i < |s.files| && s.files[i] == p;
      SamePlace(s.root, entries[i].path, q);
    } else {
      var i :| 0 <= i < |s.directories| && s.directories[i] == p;
      DirectoryHolds(s, entries, i, q);
    }
  }

  lemma SamePlace(root: Path, a: Path, b: Path)
    ensures root + a == root + b ==> a == b
    ensures root + a < root + b ==> a < b
  {
    assert a == (root + a)[|root|..] && b == (root + b)[|root|..];
  }

  lemma DirectoryHolds(s: Staging, entries: seq<Entry>, i: nat, q: Path)
    requires Lean(s) && ParentsFirst(s) && i < |s.directories| && s.directories[i] == s.root + q
    requires |entries| == |s.files| && forall k :: 0 <= k < |entries| ==> s.files[k] == s.root + entries[k].path
    ensures HoldsEntry(entries, q)
  {
    if i > 0 {
      assert Shelters(s.files, s.directories[i]);
      var j :| 0 <= j < |s.files| && s.directories[i] < s.files[j];
      SamePlace(s.root, q, entries[j].path);
    } else {
      assert s.root + [] == s.root;
      SamePlace(s.root, q, []);
    }
  }

  // ----- What the destination keeps -----

  /** Nothing outside the root has changed; and, while exact, the lists and entries are all there is below it. */
  ghost predicate Tracks(base: Tree, nodes: Tree, s: Staging, entries: seq<Entry>, exact: bool)
  {
    && Closed(nodes) && Outside(base, nodes, s.root) && s.root != [] && Listed(s) && s.directories != []
    && |entries| == |s.files|
    && (exact ==> Owns(nodes, s) && Matches(nodes, s, entries))
  }

  lemma TracksNewDirectory(base: Tree, nodes: Tree, s: Staging, entries: seq<Entry>, exact: bool, path: Path)
    requires Tracks(base, nodes, s, entries, exact) && s.root <= path && path !in nodes
    requires IsDirectory(nodes, Parent(path))
    ensures Tracks(base, nodes[path := Directory], WithDirectory(s, path), entries, exact)
    ensures Tracks(base, nodes[path := Directory], s, entries, false)
  {
    hide Owns, Outside, Closed;
    OutsideAfterWrite(base, nodes, s.root, path, Directory);
    ClosedAfterCreate(nodes, path, Directory);
    if exact {
      RootOwned(nodes, s);
      assert |s.root| == |path| ==> s.root == path;
      OwnsNewDirectory(nodes, s, path);
    }
  }

  lemma RootOwned(nodes: Tree, s: Staging)
    requires Owns(nodes, s) && s.directories != []
    ensures s.root in nodes && nodes[s.root].Directory?
  {
  }

  lemma TracksNewFile(base: Tree, nodes: Tree, s: Staging, entries: seq<Entry>, exact: bool, path: Path)
    requires Tracks(base, nodes, s, entries, exact) && s.root <= path && path !in nodes
    requires IsDirectory(nodes, Parent(path))
    ensures Tracks(base, nodes[path := File([])], WithFile(s, path), entries + [Entry(path[|s.root|..], [])], exact)
  {
    hide Owns, Outside, Closed;
    OutsideAfterWrite(base, nodes, s.root, path, File([]));
    ClosedAfterCreate(nodes, path, File([]));
    assert s.root + path[|s.root|..] == path;
    if exact {
      OwnsNewFile(nodes, s, path);
    }
  }

  lemma TracksAppend(base: Tree, nodes: Tree, s: Staging, entries: seq<Entry>, exact: bool, i: nat, path: Path,
                     part: bytes)
    requires Tracks(base, nodes, s, entries, exact) && s.root <= path
    requires exact ==> i < |s.files| && s.files[i] == path
    ensures Tracks(base, Appended(nodes, path, part), s, WithContent(entries, i, part), exact)
  {
    hide Owns, Closed;
    ClosedAfterAppend(nodes, path, part);
    if exact {
      OwnsAfterAppend(nodes, s, path, part);
      assert Distinct(s.files) by { OwnsDistinct(nodes, s); }
      forall k | 0 <= k < |s.files| && k != i ensures s.files[k] != path {
      }
    }
  }

  lemma OwnsDistinct(nodes: Tree, s: Staging)
    requires Owns(nodes, s)
    ensures Distinct(s.files)
  {
  }

  ghost function WithContent(entries: seq<Entry>, i: nat, part: bytes): seq<Entry>
  {
    if i < |entries| then entries[i := Entry(entries[i].path, entries[i].content + part)] else entries
  }

  // ----- The destination -----

  datatype Response = Response(report: ExecutionReport, stdout: bytes, stderr: bytes)

  const REPORT_NAME := "execution-report.json"
  const STDOUT_NAME := "stdout.bin"
  const STDERR_NAME := "stderr.bin"
  const ARTIFACTS_NAME := "artifacts"

  /** Where an artifact goes, relative to the staging root. */
  function ArtifactPlace(file: ArtifactFile): Path { [ARTIFACTS_NAME, file.group] + Split(file.path, '/') }

  ghost function MetadataEntries(codec: Codec, response: Response): seq<Entry>
  {
    [Entry([REPORT_NAME], codec.encodeReport(response.report)), Entry([STDOUT_NAME], response.stdout),
     Entry([STDERR_NAME], response.stderr)]
  }

  /** A directory is there, or can be made there. */
  predicate Enterable(nodes: Tree, path: Path)
    requires path != []
  {
    IsDirectory(nodes, Parent(path)) && (path in nodes ==> nodes[path].Directory?)
  }

  /** Nothing stands at the path, and nothing but directories on the way to it. */
  ghost predicate Free(nodes: Tree, root: Path, path: Path)
  {
    path !in nodes && forall n :: |root| < n < |path| && path[..n] in nodes ==> nodes[path[..n]].Directory?
  }

  class Destination {
    const fs: FileSystem
    const finalPath: Path
    var stagingPath: Path
    var ownedFiles: seq<Path>
    var ownedDirectories: seq<Path>
    var artifactBegun: bool
    var artifactsCommitted: bool
    var published: bool
    var aborted: bool
    /** The tree before New. */
    ghost const base: Tree
    /** No operation has failed so far. */
    ghost var clean: bool
    /** What is in each of ownedFiles. */
    ghost var staged: seq<Entry>

    ghost function Held(): Staging
      reads this
    {
      Staging(stagingPath, ownedFiles, ownedDirectories)
    }

    ghost predicate Live()
      reads this
    {
      !published && !aborted
    }

    /** Between the steps of an operation. */
    ghost predicate Sound()
      reads this, fs
    {
      && (!published ==> Beside(stagingPath, finalPath) && Outside(base, fs.nodes, stagingPath))
      && (Live() ==> Tracks(base, fs.nodes, Held(), staged, clean || !fs.faulty))
    }

    ghost predicate Valid()
      reads this, fs
    {
      Sound() && (Live() && clean ==> Lean(Held()))
    }

    constructor (fs: FileSystem, finalPath: Path, stagingPath: Path, ghost base: Tree)
      ensures this.fs == fs && this.finalPath == finalPath && this.stagingPath == stagingPath && this.base == base
      ensures ownedFiles == [] && ownedDirectories == [stagingPath] && staged == [] && clean
      ensures !artifactBegun && !artifactsCommitted && !published && !aborted
    {
      this.fs, this.finalPath, this.stagingPath, this.base := fs, finalPath, stagingPath, base;
      ownedFiles, ownedDirectories, staged, clean := [], [stagingPath], [], true;
      artifactBegun, artifactsCommitted, published, aborted := false, false, false, false;
    }

    /** ensureDirectoryLocked: one more owned directory, unless it is there already. */
    method EnsureDirectory(path: Path) returns (ok: bool)
      requires Live() && Sound()
      modifies this`ownedDirectories, this`clean, fs
      ensures Live() && Sound()
      ensures ok ==> clean == old(clean) && stagingPath <= path && path in fs.nodes && fs.nodes[path].Directory?
      ensures ok ==> ownedDirectories == old(ownedDirectories) || ownedDirectories == old(ownedDirectories) + [path]
      ensures !ok ==> !clean
      ensures forall p :: p in old(fs.nodes) ==> p in fs.nodes && fs.nodes[p] == old(fs.nodes)[p]
      ensures forall p :: p in fs.nodes && p != path ==> p in old(fs.nodes)
      ensures !fs.faulty && stagingPath < path && old(Enterable(fs.nodes, path)) ==> ok
    {
      hide Owns, Outside, Closed, Matches, Listed;
      if !(stagingPath <= path) { clean := false; return false; }
      var found := fs.Lstat(path);
      if found.Present? {
        ok := found.node.Directory?;
        clean := clean && ok;
        return;
      }
      ghost var before := fs.nodes;
      var parentOk := ValidateExactDirectory(fs, Parent(path));
      if !parentOk { clean := false; return false; }
      ok := fs.Mkdir(path);
      if !ok { clean := false; return; }
      TracksNewDirectory(base, before, Held(), staged, clean || !fs.faulty, path);
      ok := ValidateExactDirectory(fs, path);
      if !ok { clean := false; return; }
      ownedDirectories := ownedDirectories + [path];
    }

    /** Open's walk down from the staging root: every directory on the way to a file. */
    method EnsureParents(path: Path) returns (ok: bool)
      requires Live() && Valid() && stagingPath < path
      modifies this`ownedDirectories, this`clean, fs
      ensures Live() && Sound()
      ensures ok ==> clean == old(clean)
      ensures ok && clean ==> Lean(WithFile(Held(), path))
      ensures !ok ==> !clean
      ensures forall p :: p in old(fs.nodes) ==> p in fs.nodes && fs.nodes[p] == old(fs.nodes)[p]
      ensures !fs.faulty && Free(old(fs.nodes), stagingPath, path) ==>
                ok && path !in fs.nodes && IsDirectory(fs.nodes, Parent(path))
    {
      hide Tracks, Outside, Lean;
      assert path[..|stagingPath|] == stagingPath;
      TracksRoot(base, fs.nodes, Held(), staged, clean || !fs.faulty);
      LeanWithFile(Held(), path);
      for n := |stagingPath| + 1 to |path|
        invariant Live() && Sound() && clean == old(clean)
        invariant clean ==> Lean(WithFile(Held(), path))
        invariant !fs.faulty && Free(old(fs.nodes), stagingPath, path) ==> IsDirectory(fs.nodes, path[..n - 1])
        invariant forall p :: p in fs.nodes && |p| >= n ==> p in old(fs.nodes)
        invariant forall p :: p in old(fs.nodes) ==> p in fs.nodes && fs.nodes[p] == old(fs.nodes)[p]
      {
        ghost var before := ownedDirectories;
        assert Parent(path[..n]) == path[..n - 1];
        ok := EnsureDirectory(path[..n]);
        if !ok { return; }
        LeanWithParent(stagingPath, ownedFiles, before, ownedDirectories, path[..n], path);
      }
      ok := true;
    }

    /** Open's work on the tree: the artifact's directories, then its file. */
    method CreateArtifact(file: ArtifactFile) returns (path: Path, ok: bool)
      requires Live() && Valid()
      modifies this`ownedFiles, this`ownedDirectories, this`clean, this`staged, fs
      ensures Live() && Valid()
      ensures path == stagingPath + ArtifactPlace(file)
      ensures ok ==> clean == old(clean) && ownedFiles == old(ownedFiles) + [path]
      ensures ok ==> staged == old(staged) + [Entry(ArtifactPlace(file), [])]
      ensures ok ==> path in fs.nodes && fs.nodes[path] == File([])
      ensures !ok ==> !clean
      ensures !fs.faulty && Free(old(fs.nodes), stagingPath, path) ==> ok
      ensures forall p :: p in old(fs.nodes) ==> p in fs.nodes && fs.nodes[p] == old(fs.nodes)[p]
    {
      hide Tracks, Outside, ArtifactPlace, Lean;
      path := stagingPath + ArtifactPlace(file);
      PlaceShape(file);
      ok := EnsureParents(path);
      if !ok { return; }
      assert path[|stagingPath|..] == ArtifactPlace(file);
      ok := CreateFile(path);
    }

    /** A new file, recorded as soon as it exists. */
    method CreateFile(path: Path) returns (ok: bool)
      requires Live() && Sound() && stagingPath <= path
      requires clean ==> Lean(WithFile(Held(), path))
      modifies this`ownedFiles, this`clean, this`staged, fs
      ensures Live() && Valid()
      ensures ok ==> clean == old(clean) && ownedFiles == old(ownedFiles) + [path]
      ensures ok ==> staged == old(staged) + [Entry(path[|stagingPath|..], [])]
      ensures ok ==> path !in old(fs.nodes) && fs.nodes == old(fs.nodes)[path := File([])]
      ensures !ok ==> fs.nodes == old(fs.nodes) && !clean
      ensures !fs.faulty && path !in old(fs.nodes) && IsDirectory(old(fs.nodes), Parent(path)) ==> ok
    {
      hide Tracks, Outside, Lean;
      ghost var nodes := fs.nodes;
      TracksLengths(base, nodes, Held(), staged, clean || !fs.faulty);
      ok := fs.CreateExclusive(path);
      if !ok { GiveUp(); return; }
      TracksNewFile(base, nodes, Held(), staged, clean || !fs.faulty, path);
      ownedFiles := ownedFiles + [path];
      staged := staged + [Entry(path[|stagingPath|..], [])];
      TracksOutside(base, fs.nodes, Held(), staged, clean || !fs.faulty);
    }

    /** The specification's note that an operation failed. */
    ghost method GiveUp()
      requires Live() && Sound()
      modifies this`clean
      ensures Live() && Valid() && !clean
    {
      TracksLess(base, fs.nodes, Held(), staged, clean || !fs.faulty);
      clean := false;
    }

    /** One write to the file listed at `index`. */
    method AppendTo(path: Path, ghost index: nat, content: bytes) returns (count: int, failed: bool)
      requires Sound() && !published && stagingPath <= path
      requires Live() && (clean || !fs.faulty) ==> index < |ownedFiles| && ownedFiles[index] == path
      modifies this`staged, fs
      ensures Sound() && !published
      ensures 0 <= count <= |content| ==> staged == WithContent(old(staged), index, content[..count])
      ensures |staged| == |old(staged)|
      ensures forall i :: 0 <= i < |staged| ==>
                staged[i].path == old(staged)[i].path && (i != index ==> staged[i] == old(staged)[i])
      ensures fs.nodes.Keys == old(fs.nodes).Keys
      ensures forall p :: p in fs.nodes && p != path ==> fs.nodes[p] == old(fs.nodes)[p]
      ensures !fs.faulty && content != [] ==> 0 < count <= |content| && !failed
    {
      hide Tracks, Outside;
      ghost var before := fs.nodes;
      count, failed := fs.Append(path, content);
      ghost var moved: nat;
      if 0 <= count <= |content| {
        moved := count;
      } else {
        moved :| AppendedPart(before, path, content, moved, fs.nodes);
      }
      if Live() {
        TracksAppend(base, before, Held(), staged, clean || !fs.faulty, index, path, content[..moved]);
        TracksOutside(base, fs.nodes, Held(), WithContent(staged, index, content[..moved]), clean || !fs.faulty);
      } else {
        OutsideAfterAppend(base, before, stagingPath, path, content[..moved]);
      }
      staged := WithContent(staged, index, content[..moved]);
    }

    /** writeNewFileLocked */
    method WriteNewFile(name: string, body: bytes) returns (ok: bool)
      requires Live() && Valid()
      modifies this`ownedFiles, this`clean, this`staged, fs
      ensures Live() && Valid()
      ensures ok ==> clean == old(clean) && ownedFiles == old(ownedFiles) + [stagingPath + [name]]
      ensures ok ==> staged == old(staged) + [Entry([name], body)]
      ensures !fs.faulty && stagingPath + [name] !in old(fs.nodes) ==> ok
      ensures ok ==> forall p :: p != stagingPath + [name] ==>
                (p in fs.nodes <==> p in old(fs.nodes)) && (p in fs.nodes ==> fs.nodes[p] == old(fs.nodes)[p])
    {
      hide Tracks, Outside, Lean;
      var path := stagingPath + [name];
      assert path[..|stagingPath|] == stagingPath && path[|stagingPath|..] == [name] && Parent(path) == stagingPath;
      TracksRoot(base, fs.nodes, Held(), staged, clean || !fs.faulty);
      var parentOk := ValidateExactDirectory(fs, stagingPath);
      if !parentOk { GiveUp(); return false; }
      LeanWithFile(Held(), path);
      TracksLengths(base, fs.nodes, Held(), staged, clean || !fs.faulty);
      ghost var index := |ownedFiles|;
      LastContent(staged, [name], body);
      ok := CreateFile(path);
      if !ok { return; }
      ok := WriteBody(path, index, body);
      if !ok { return; }
      var syncFault := fs.Fault();
      var closeFault := fs.Fault();
      ok := !syncFault && !closeFault;
      if !ok { GiveUp(); }
    }

    /** writeAll into the file listed at `index`. */
    method WriteBody(path: Path, ghost index: nat, body: bytes) returns (ok: bool)
      requires Live() && Valid() && stagingPath <= path
      requires index < |ownedFiles| == |staged| && ownedFiles[index] == path
      modifies this`clean, this`staged, fs
      ensures Live() && Valid() && fs.nodes.Keys == old(fs.nodes).Keys
      ensures forall p :: p in fs.nodes && p != path ==> fs.nodes[p] == old(fs.nodes)[p]
      ensures ok ==> clean == old(clean) && staged == WithContent(old(staged), index, body)
      ensures !fs.faulty ==> ok
    {
      hide Tracks, Outside, Lean;
      var remaining := body;
      ghost var done: bytes := [];
      assert WithContent(staged, index, []) == staged by { NoContent(staged, index); }
      while remaining != []
        invariant body == done + remaining
        invariant Live() && Valid() && clean == old(clean)
        invariant staged == WithContent(old(staged), index, done)
        invariant fs.nodes.Keys == old(fs.nodes).Keys
        invariant forall p :: p in fs.nodes && p != path ==> fs.nodes[p] == old(fs.nodes)[p]
      {
        var count, failed := AppendTo(path, index, remaining);
        if count <= 0 || count > |remaining| { GiveUp(); return false; }
        MoreContent(old(staged), index, done, remaining[..count]);
        done, remaining := done + remaining[..count], remaining[count..];
        if failed { GiveUp(); return false; }
      }
      assert done == body;
      ok := true;
    }

    /** Begin: at most one transaction, for a file list that could stand in a manifest. */
    method Begin(lib: Library, files: seq<ArtifactFile>) returns (transaction: ArtifactTransaction?)
      requires Valid()
      modifies this`artifactBegun
      ensures Valid()
      ensures transaction != null <==>
                old(Live() && !artifactBegun) && files != []
                    && ManifestValid(lib, ArtifactManifest(Complete, Some(files), Some([])))
      ensures transaction != null ==>
                && fresh(transaction) && transaction.destination == this && transaction.expected == files
                && transaction.next == 0 && !transaction.open && !transaction.committed && !transaction.aborted
                && artifactBegun
    {
      if files == [] { return null; }
      var manifestOk := ValidateArtifactManifest(lib, ArtifactManifest(Complete, Some(files), Some([])));
      if !manifestOk || published || aborted || artifactBegun { return null; }
      artifactBegun := true;
      transaction := new ArtifactTransaction(this, files);
    }

    ghost predicate Publishable(lib: Library, response: Response)
      reads this
    {
      && Live() && ReportValid(lib, response.report) && (response.report.artifacts.Files() == [] || artifactsCommitted)
      && |response.stdout| == response.report.stdout.retainedBytes
      && |response.stderr| == response.report.stderr.retainedBytes
    }

    /** The metadata names are free in the staging directory. */
    ghost predicate MetadataFree()
      reads this, fs
    {
      && stagingPath + [REPORT_NAME] !in fs.nodes && stagingPath + [STDOUT_NAME] !in fs.nodes
      && stagingPath + [STDERR_NAME] !in fs.nodes
    }

    ghost predicate FinalAvailable()
      reads this, fs
    {
      finalPath != [] && finalPath !in fs.nodes && DirectoryChain(fs.nodes, Parent(finalPath))
    }

    /** Publish: all of it or, as far as the final path goes, nothing. */
    method Publish(lib: Library, codec: Codec, response: Response) returns (ok: bool)
      requires Valid()
      modifies this, fs
      ensures Valid() && aborted == old(aborted)
      ensures ok ==> old(Publishable(lib, response)) && published
      ensures ok && old(clean) ==>
                PublishedAs(base, fs.nodes, finalPath, old(staged) + MetadataEntries(codec, response))
      ensures ok ==> Closed(fs.nodes)
      ensures !ok ==> published == old(published)
      ensures !fs.faulty && old(Publishable(lib, response) && MetadataFree() && FinalAvailable()) ==> ok
    {
      hide Tracks, Outside, Lean, ReportValid, PublishedAs, DirectoryChain, MetadataFree, MetadataEntries;
      var reportOk := ValidateExecutionReport(lib, response.report);
      if !reportOk || |response.stdout| != response.report.stdout.retainedBytes
         || |response.stderr| != response.report.stderr.retainedBytes { return false; }
      if published || aborted || (response.report.artifacts.Files() != [] && !artifactsCommitted) { return false; }
      ok := WriteMetadata(codec, response);
      if !ok { return; }
      ok := MoveIntoPlace();
    }

    /** The rename, once the final path has been found free. */
    method MoveIntoPlace() returns (ok: bool)
      requires Live() && Valid()
      modifies this, fs
      ensures Valid() && published == ok && aborted == old(aborted)
      ensures ok && old(clean) ==> PublishedAs(base, fs.nodes, finalPath, old(staged))
      ensures ok ==> Closed(fs.nodes)
      ensures !fs.faulty && old(FinalAvailable()) ==> ok
    {
      hide Tracks, Outside, Lean, PublishedAs, Moved, Closed, DirectoryChain;
      var chainOk := ValidateDirectoryChain(fs, Parent(finalPath));
      if !chainOk { GiveUp(); return false; }
      var found := fs.Lstat(finalPath);
      if !found.Absent? { GiveUp(); return false; }
      TracksRoot(base, fs.nodes, Held(), staged, clean || !fs.faulty);
      ghost var nodes := fs.nodes;
      RenameReady(nodes, stagingPath, finalPath);
      ok := fs.Rename(stagingPath, finalPath);
      if !ok { GiveUp(); return; }
      ClosedAfterMove(nodes, stagingPath, finalPath);
      if clean {
        TracksPublished(base, nodes, Held(), staged, finalPath);
      }
      published := true;
      stagingPath, ownedFiles, ownedDirectories := [], [], [];
    }

    method WriteMetadata(codec: Codec, response: Response) returns (ok: bool)
      requires Live() && Valid()
      modifies this`ownedFiles, this`clean, this`staged, fs
      ensures Live() && Valid()
      ensures ok ==> clean == old(clean) && staged == old(staged) + MetadataEntries(codec, response)
      ensures !fs.faulty && old(MetadataFree()) ==> ok
      ensures ok && old(FinalAvailable()) ==> FinalAvailable()
    {
      hide Tracks, Outside, Lean, DirectoryChain, Beside;
      ghost var place := stagingPath;
      NamesDiffer(place, REPORT_NAME, STDOUT_NAME);
      NamesDiffer(place, REPORT_NAME, STDERR_NAME);
      NamesDiffer(place, STDOUT_NAME, STDERR_NAME);
      ok := WriteNewFile(REPORT_NAME, codec.encodeReport(response.report));
      if !ok { return; }
      ok := WriteNewFile(STDOUT_NAME, response.stdout);
      if !ok { return; }
      ok := WriteNewFile(STDERR_NAME, response.stderr);
      if !ok { return; }
      if old(FinalAvailable()) {
        FinalStaysAvailable(place, finalPath, old(fs.nodes), fs.nodes);
      }
    }

    /** Abort removes what is owned, last first. Without faults that is everything since New. */
    method Abort() returns (ok: bool)
      requires Valid()
      modifies this`aborted, fs
      ensures Valid() && published == old(published)
      ensures old(Live()) ==> aborted
      ensures !old(Live()) ==> ok && aborted == old(aborted) && fs.nodes == old(fs.nodes)
      ensures !fs.faulty && old(Live()) ==> ok && fs.nodes == base
    {
      hide Owns, Outside, Closed, Lean, Beside;
      if published || aborted { return true; }
      aborted := true;
      var failed := false;
      assert ownedFiles[..|ownedFiles|] == ownedFiles && ownedDirectories[..|ownedDirectories|] == ownedDirectories;
      for i := |ownedFiles| downto 0
        invariant aborted && Outside(base, fs.nodes, stagingPath)
        invariant !fs.faulty ==>
                    && !failed && Closed(fs.nodes)
                    && Owns(fs.nodes, Staging(stagingPath, ownedFiles[..i], ownedDirectories))
      {
        ghost var nodes := fs.nodes;
        var removal := fs.Remove(ownedFiles[i]);
        failed := failed || removal.Refused?;
        OutsideAfterRemove(base, nodes, stagingPath, ownedFiles[i]);
        if !fs.faulty {
          FileComesOff(nodes, Staging(stagingPath, ownedFiles[..i + 1], ownedDirectories));
          assert ownedFiles[..i + 1][..i] == ownedFiles[..i];
        }
      }
      for i := |ownedDirectories| downto 0
        invariant aborted && Outside(base, fs.nodes, stagingPath)
        invariant !fs.faulty ==>
                    && !failed && Closed(fs.nodes)
                    && Owns(fs.nodes, Staging(stagingPath, [], ownedDirectories[..i]))
      {
        ghost var nodes := fs.nodes;
        var removal := fs.Remove(ownedDirectories[i]);
        failed := failed || removal.Refused?;
        OutsideAfterRemove(base, nodes, stagingPath, ownedDirectories[i]);
        if !fs.faulty {
          DirectoryComesOff(nodes, Staging(stagingPath, [], ownedDirectories[..i + 1]));
          assert ownedDirectories[..i + 1][..i] == ownedDirectories[..i];
        }
      }
      if !fs.faulty {
        NothingOwned(base, fs.nodes, stagingPath);
      }
      ok := !failed;
    }
  }

  class ArtifactTransaction {
    const destination: Destination
    const expected: seq<ArtifactFile>
    var next: nat
    var open: bool
    var committed: bool
    var aborted: bool

    constructor (destination: Destination, expected: seq<ArtifactFile>)
      ensures this.destination == destination && this.expected == expected
      ensures next == 0 && !open && !committed && !aborted
    {
      this.destination, this.expected := destination, expected;
      next, open, committed, aborted := 0, false, false, false;
    }

    ghost predicate MayOpen(file: ArtifactFile)
      reads this, destination
    {
      destination.Live() && !committed && !aborted && !open && next < |expected| && expected[next] == file
    }

    /** Open: only the next expected file, and only one at a time. */
    method Open(file: ArtifactFile) returns (writer: ArtifactWriter?)
      requires destination.Valid()
      modifies this`open, destination`ownedFiles, destination`ownedDirectories, destination`clean, destination`staged,
               destination.fs
      ensures destination.Valid() && destination.published == old(destination.published)
      ensures writer != null ==>
                && old(MayOpen(file)) && fresh(writer) && writer.transaction == this && !writer.closed && open
                && destination.clean == old(destination.clean)
                && writer.path == destination.stagingPath + ArtifactPlace(file)
                && writer.index == |old(destination.ownedFiles)|
                && destination.ownedFiles == old(destination.ownedFiles) + [writer.path]
                && destination.staged == old(destination.staged) + [Entry(ArtifactPlace(file), [])]
      ensures writer == null ==> open == old(open)
      ensures !destination.fs.faulty && old(MayOpen(file)) &&
                Free(old(destination.fs.nodes), destination.stagingPath,
                     destination.stagingPath + ArtifactPlace(file)) ==>
                  writer != null
    {
      hide ArtifactPlace, Tracks, Outside, Lean;
      if destination.published || destination.aborted || committed || aborted || open
         || next >= |expected| || expected[next] != file { return null; }
      ghost var index := |destination.ownedFiles|;
      var path, ok := destination.CreateArtifact(file);
      if !ok { return null; }
      open := true;
      writer := new ArtifactWriter(this, path, index);
    }

    method Commit() returns (ok: bool)
      modifies this`committed, destination`artifactsCommitted
      ensures ok <==> old(destination.Live() && !committed && !aborted && !open && next == |expected|)
      ensures ok ==> committed && destination.artifactsCommitted
      ensures !ok ==>
                committed == old(committed) && destination.artifactsCommitted == old(destination.artifactsCommitted)
    {
      if destination.published || destination.aborted || committed || aborted || open || next != |expected| {
        return false;
      }
      committed := true;
      destination.artifactsCommitted := true;
      ok := true;
    }

    method Abort() returns (ok: bool)
      requires destination.Valid()
      modifies this`aborted, destination`aborted, destination.fs
      ensures aborted && destination.Valid() && destination.published == old(destination.published)
      ensures old(destination.Live()) ==> destination.aborted
      ensures !old(destination.Live()) ==>
                destination.aborted == old(destination.aborted) && destination.fs.nodes == old(destination.fs.nodes)
      ensures !destination.fs.faulty && old(destination.Live()) ==> destination.fs.nodes == destination.base
    {
      aborted := true;
      ok := destination.Abort();
    }
  }

  class ArtifactWriter {
    const transaction: ArtifactTransaction
    const path: Path
    ghost const index: nat
    var closed: bool

    constructor (transaction: ArtifactTransaction, path: Path, ghost index: nat)
      ensures this.transaction == transaction && this.path == path && this.index == index && !closed
    {
      this.transaction, this.path, this.index, closed := transaction, path, index, false;
    }

    /** The writer's file is listed where the writer says. */
    ghost predicate Placed()
      reads transaction.destination
    {
      var destination := transaction.destination;
      && destination.stagingPath <= path
      && index < |destination.ownedFiles| == |destination.staged| && destination.ownedFiles[index] == path
    }

    method Write(content: bytes) returns (count: int, failed: bool)
      requires transaction.destination.Valid() && transaction.destination.Live() && Placed()
      modifies transaction.destination`staged, transaction.destination.fs
      ensures transaction.destination.Valid() && Placed()
      ensures !closed && 0 <= count <= |content| ==>
                transaction.destination.staged ==
                    WithContent(old(transaction.destination.staged), index, content[..count])
      ensures !closed && !transaction.destination.fs.faulty && content != [] ==> 0 < count <= |content| && !failed
    {
      hide Tracks, Outside, Lean;
      if closed { return 0, true; }
      count, failed := transaction.destination.AppendTo(path, index, content);
    }

    /** brokerwire's writeAll */
    method WriteAll(content: bytes) returns (ok: bool)
      requires transaction.destination.Valid() && transaction.destination.Live() && Placed() && !closed
      modifies transaction.destination`staged, transaction.destination.fs
      ensures transaction.destination.Valid() && Placed()
      ensures ok ==> transaction.destination.staged == WithContent(old(transaction.destination.staged), index, content)
      ensures !transaction.destination.fs.faulty ==> ok
    {
      hide Tracks, Outside, Lean;
      var remaining := content;
      ghost var done: bytes := [];
      NoContent(transaction.destination.staged, index);
      while remaining != []
        invariant content == done + remaining
        invariant transaction.destination.Valid() && Placed()
        invariant transaction.destination.staged == WithContent(old(transaction.destination.staged), index, done)
      {
        var count, failed := Write(remaining);
        if count < 0 || count > |remaining| { return false; }
        MoreContent(old(transaction.destination.staged), index, done, remaining[..count]);
        done, remaining := done + remaining[..count], remaining[count..];
        if failed || count == 0 { return false; }
      }
      assert done == content;
      ok := true;
    }

    /** Close counts the file as done, unless the destination is aborted or the file cannot be synced. */
    method Close() returns (ok: bool)
      modifies this`closed, transaction`open, transaction`next, transaction.destination`clean
      ensures closed
      ensures old(closed) ==>
                ok && transaction.open == old(transaction.open) && transaction.next == old(transaction.next)
      ensures !old(closed) ==> !transaction.open && transaction.next == old(transaction.next) + if ok then 1 else 0
      ensures ok ==> transaction.destination.clean == old(transaction.destination.clean)
      ensures !ok ==> !transaction.destination.clean
      ensures !transaction.destination.fs.faulty && !transaction.destination.aborted ==> ok
    {
      if closed { return true; }
      closed := true;
      var syncFault := transaction.destination.fs.Fault();
      var closeFault := transaction.destination.fs.Fault();
      transaction.open := false;
      if syncFault || closeFault || transaction.destination.aborted {
        transaction.destination.clean := false;
        return false;
      }
      transaction.next := transaction.next + 1;
      ok := true;
    }
  }

  lemma NamesDiffer(root: Path, a: string, b: string)
    requires a != b
    ensures root + [a] != root + [b]
  {
    assert (root + [a])[|root|] == a && (root + [b])[|root|] == b;
  }

  /** Files made inside the staging directory are not on the way to the final path. */
  lemma FinalStaysAvailable(root: Path, final: Path, before: Tree, after: Tree)
    requires Beside(root, final) && final !in before && DirectoryChain(before, Parent(final))
    requires forall p :: |p| <= |root| ==> (p in after <==> p in before) && (p in after ==> after[p] == before[p])
    ensures final !in after && DirectoryChain(after, Parent(final))
  {
    assert |final| == |Parent(final)| + 1 == |root|;
  }

  lemma RenameReady(nodes: Tree, root: Path, final: Path)
    requires Beside(root, final) && final !in nodes && DirectoryChain(nodes, Parent(final))
    ensures IsDirectory(nodes, Parent(final))
    ensures root in nodes ==> Siblings(root, final) && !(root <= final)
  {
    assert Parent(final)[..|Parent(final)|] == Parent(final);
    if root in nodes {
      SiblingsApart(root, final);
    }
  }

  lemma FileComesOff(nodes: Tree, s: Staging)
    requires Closed(nodes) && Owns(nodes, s) && s.files != []
    ensures var last := s.files[|s.files| - 1];
            && last in nodes && !HasChild(nodes, last) && Closed(nodes - {last})
            && Owns(nodes - {last}, s.(files := s.files[..|s.files| - 1]))
  {
    RemoveLastFile(nodes, s);
    var last := s.files[|s.files| - 1];
    FilesHaveNoChildren(nodes, last);
    ClosedAfterRemove(nodes, last);
  }

  lemma DirectoryComesOff(nodes: Tree, s: Staging)
    requires Closed(nodes) && Owns(nodes, s) && s.files == [] && s.directories != []
    ensures var last := s.directories[|s.directories| - 1];
            && last in nodes && !HasChild(nodes, last) && Closed(nodes - {last})
            && Owns(nodes - {last}, s.(directories := s.directories[..|s.directories| - 1]))
  {
    RemoveLastDirectory(nodes, s);
    LastDirectoryIsEmpty(nodes, s);
    ClosedAfterRemove(nodes, s.directories[|s.directories| - 1]);
  }

  lemma TracksPublished(base: Tree, nodes: Tree, s: Staging, entries: seq<Entry>, final: Path)
    requires Tracks(base, nodes, s, entries, true) && Lean(s) && Siblings(s.root, final) && final !in nodes
    ensures PublishedAs(base, Moved(nodes, s.root, final), final, entries)
  {
    MovedIsPublished(base, nodes, s, final, entries);
  }

  ghost predicate DirectoryChain(nodes: Tree, path: Path)
  {
    forall n :: 0 < n <= |path| ==> IsDirectory(nodes, path[..n])
  }

  method ValidateDirectoryChain(fs: FileSystem, path: Path) returns (ok: bool)
    ensures ok ==> DirectoryChain(fs.nodes, path)
    ensures !fs.faulty && DirectoryChain(fs.nodes, path) ==> ok
  {
    for n := 1 to |path| + 1
      invariant forall k :: 0 < k < n ==> IsDirectory(fs.nodes, path[..k])
    {
      ok := ValidateExactDirectory(fs, path[..n]);
      if !ok { return; }
    }
    ok := true;
  }

  lemma EmptyStaging(base: Tree, staging: Path)
    requires Closed(base) && staging != [] && staging !in base
    ensures !HasChild(base[staging := Directory], staging) && base[staging := Directory] - {staging} == base
  {
    FreshRoot(base, staging);
  }

  lemma NewTracks(base: Tree, staging: Path)
    requires Closed(base) && staging != [] && staging !in base && IsDirectory(base, Parent(staging))
    ensures Outside(base, base[staging := Directory], staging)
    ensures Tracks(base, base[staging := Directory], Staging(staging, [], [staging]), [], true)
    ensures Lean(Staging(staging, [], [staging]))
  {
    FreshRoot(base, staging);
    ClosedAfterCreate(base, staging, Directory);
  }

  /** The final path is free below directories, and so is the staging name beside it. */
  ghost predicate Startable(nodes: Tree, finalPath: Path, stagingName: string)
    requires finalPath != []
  {
    && DirectoryChain(nodes, Parent(finalPath)) && finalPath !in nodes
    && Parent(finalPath) + [stagingName] !in nodes
  }

  /** New: a fresh staging directory beside a final path that is free. `stagingName` is the unused name that
      the temporary-directory call settles on. */
  method New(fs: FileSystem, finalPath: Path, stagingName: string) returns (destination: Destination?)
    requires Closed(fs.nodes)
    modifies fs
    ensures destination == null && !fs.faulty ==> fs.nodes == old(fs.nodes)
    ensures destination != null ==>
              && fresh(destination) && destination.fs == fs && destination.finalPath == finalPath
              && destination.base == old(fs.nodes) && destination.Valid() && destination.Live() && destination.clean
              && destination.staged == [] && !destination.artifactBegun && !destination.artifactsCommitted
              && |finalPath| >= 2 && destination.stagingPath == Parent(finalPath) + [stagingName]
              && finalPath !in old(fs.nodes)
    ensures !fs.faulty && |finalPath| >= 2 && old(Startable(fs.nodes, finalPath, stagingName)) ==> destination != null
  {
    hide Tracks, Outside, Lean, Closed, HasChild;
    if |finalPath| < 2 { return null; }
    var parent := Parent(finalPath);
    var chainOk := ValidateDirectoryChain(fs, parent);
    if !chainOk { return null; }
    var found := fs.Lstat(finalPath);
    if !found.Absent? { return null; }
    var staging := parent + [stagingName];
    assert parent[..|parent|] == parent && Parent(staging) == parent;
    var made := fs.Mkdir(staging);
    if !made { return null; }
    var chmodFault := fs.Fault();
    var shapeOk := false;
    if !chmodFault { shapeOk := ValidateExactDirectory(fs, staging); }
    if !shapeOk {
      EmptyStaging(old(fs.nodes), staging);
      var _ := fs.Remove(staging);
      return null;
    }
    NewTracks(old(fs.nodes), staging);
    destination := new Destination(fs, finalPath, staging, old(fs.nodes));
  }

  lemma NoContent(entries: seq<Entry>, i: nat)
    ensures WithContent(entries, i, []) == entries
  {
    if i < |entries| {
      assert entries[i].content + [] == entries[i].content;
    }
  }

  lemma LastContent(entries: seq<Entry>, path: Path, body: bytes)
    ensures WithContent(entries + [Entry(path, [])], |entries|, body) == entries + [Entry(path, body)]
  {
    assert [] + body == body;
  }

  lemma MoreContent(entries: seq<Entry>, i: nat, a: bytes, b: bytes)
    ensures WithContent(WithContent(entries, i, a), i, b) == WithContent(entries, i, a + b)
  {
    if i < |entries| {
      assert entries[i].content + a + b == entries[i].content + (a + b);
    }
  }

  lemma TracksOutside(base: Tree, nodes: Tree, s: Staging, entries: seq<Entry>, exact: bool)
    requires Tracks(base, nodes, s, entries, exact)
    ensures Outside(base, nodes, s.root)
  {
  }

  lemma OutsideAfterAppend(base: Tree, nodes: Tree, root: Path, path: Path, content: bytes)
    requires Outside(base, nodes, root) && root <= path
    ensures Outside(base, Appended(nodes, path, content), root)
  {
  }

  lemma TracksLengths(base: Tree, nodes: Tree, s: Staging, entries: seq<Entry>, exact: bool)
    requires Tracks(base, nodes, s, entries, exact)
    ensures |entries| == |s.files|
  {
  }

  lemma TracksRoot(base: Tree, nodes: Tree, s: Staging, entries: seq<Entry>, exact: bool)
    requires Tracks(base, nodes, s, entries, exact)
    ensures exact ==> IsDirectory(nodes, s.root)
    ensures Closed(nodes)
  {
  }

  lemma TracksLess(base: Tree, nodes: Tree, s: Staging, entries: seq<Entry>, exact: bool)
    requires Tracks(base, nodes, s, entries, exact)
    ensures Tracks(base, nodes, s, entries, false)
  {
  }

  lemma PlaceShape(file: ArtifactFile)
    ensures |ArtifactPlace(file)| >= 3
  {
  }

  lemma SheltersMore(files: seq<Path>, path: Path, directory: Path)
    requires Shelters(files, directory) || directory < path
    ensures Shelters(files + [path], directory)
  {
    if Shelters(files, directory) {
      var j :| 0 <= j < |files| && directory < files[j];
      assert (files + [path])[j] == files[j];
    } else {
      assert (files + [path])[|files|] == path;
    }
  }

  lemma LeanWithFile(s: Staging, path: Path)
    ensures Lean(s) ==> Lean(WithFile(s, path))
  {
    hide Shelters;
    if Lean(s) {
      forall i | 0 < i < |s.directories| ensures Shelters(s.files + [path], s.directories[i]) {
        SheltersMore(s.files, path, s.directories[i]);
      }
    }
  }

  /** A directory made on the way to a file keeps the tree lean once that file is there. */
  lemma LeanWithParent(root: Path, files: seq<Path>, before: seq<Path>, after: seq<Path>, walk: Path, path: Path)
    requires after == before || after == before + [walk]
    requires walk < path
    ensures Lean(WithFile(Staging(root, files, before), path)) ==> Lean(WithFile(Staging(root, files, after), path))
  {
    hide Shelters;
    SheltersMore(files, path, walk);
  }

  /** validateExactDirectory */
  method ValidateExactDirectory(fs: FileSystem, path: Path) returns (ok: bool)
    ensures ok ==> IsDirectory(fs.nodes, path)
    ensures !fs.faulty ==> (ok <==> IsDirectory(fs.nodes, path))
  {
    if path == [] { return true; }
    var found := fs.Lstat(path);
    ok := found.Present? && found.node.Directory?;
  }

  // ----- Which manifests can be staged -----

  lemma PlaceInjective(a: ArtifactFile, b: ArtifactFile)
    ensures ArtifactPlace(a) == ArtifactPlace(b) <==> SameFile(a, b)
  {
    JoinSplit(a.path, '/');
    JoinSplit(b.path, '/');
    if ArtifactPlace(a) == ArtifactPlace(b) {
      assert ArtifactPlace(a)[1] == a.group && ArtifactPlace(b)[1] == b.group;
      assert ArtifactPlace(a)[2..] == Split(a.path, '/') && ArtifactPlace(b)[2..] == Split(b.path, '/');
    }
  }

  /** No file lies below another one. */
  ghost predicate Compatible(files: seq<ArtifactFile>)
  {
    forall i, j :: 0 <= i < |files| && 0 <= j < |files| ==> !(ArtifactPlace(files[i]) < ArtifactPlace(files[j]))
  }

  ghost predicate StagedFrom(files: seq<ArtifactFile>, entries: seq<Entry>)
  {
    |entries| <= |files| && forall i :: 0 <= i < |entries| ==> entries[i].path == ArtifactPlace(files[i])
  }

  /** In a clean staging tree the next artifact of a compatible manifest always has room. */
  lemma NextPlaceFree(base: Tree, nodes: Tree, s: Staging, entries: seq<Entry>, files: seq<ArtifactFile>)
    requires Tracks(base, nodes, s, entries, true) && Lean(s)
    requires StagedFrom(files, entries) && |entries| < |files| && Compatible(files)
    requires forall a, b :: 0 <= a < b < |files| ==> !SameFile(files[a], files[b])
    ensures Free(nodes, s.root, s.root + ArtifactPlace(files[|entries|]))
  {
    hide ArtifactPlace, Lean, Outside, Closed, ParentsFirst;
    var place := ArtifactPlace(files[|entries|]);
    var path := s.root + place;
    PlaceShape(files[|entries|]);
    forall i | 0 <= i < |entries| ensures entries[i].path != place && !(place < entries[i].path) {
      PlaceInjective(files[i], files[|entries|]);
      assert SameFile(files[i], files[|entries|]) ==> i == |entries|;
    }
    if path in nodes {
      StagedShape(nodes, s, entries, place);
      assert false;
    }
    forall n | |s.root| < n < |path| && path[..n] in nodes ensures nodes[path[..n]].Directory? {
      var q := place[..n - |s.root|];
      assert path[..n] == s.root + q;
      StagedShape(nodes, s, entries, q);
      assert q < place;
      assert forall i :: 0 <= i < |entries| ==> !(entries[i].path < place);
    }
  }

  /** Artifacts never take the metadata names. */
  lemma MetadataNameFree(base: Tree, nodes: Tree, s: Staging, entries: seq<Entry>, files: seq<ArtifactFile>,
                         name: string)
    requires Tracks(base, nodes, s, entries, true) && Lean(s) && StagedFrom(files, entries) && name != ARTIFACTS_NAME
    ensures s.root + [name] !in nodes
  {
    forall i | 0 <= i < |entries| ensures entries[i].path != [name] && !([name] < entries[i].path) {
      assert ArtifactPlace(files[i])[0] == ARTIFACTS_NAME && |ArtifactPlace(files[i])| >= 3;
    }
    if s.root + [name] in nodes {
      StagedShape(nodes, s, entries, [name]);
      assert false;
    }
  }

  /** A file and another one below it. */
  function NestedFiles(lib: Library): seq<ArtifactFile>
  {
    [ArtifactFile("g", "a", Digest(lib, []), 0), ArtifactFile("g", "a/b", Digest(lib, []), 0)]
  }

  /** The manifest validator has nothing against them. */
  lemma NestedFilesPassValidation(lib: Library)
    requires Lawful(lib) && lib.validUtf8("a") && lib.validUtf8("a/b")
    ensures ManifestValid(lib, ArtifactManifest(Complete, Some(NestedFiles(lib)), Some([])))
    ensures !Compatible(NestedFiles(lib))
  {
    hide AbsorbsInParts, Digest, FilePathValid, LowerHex;
    var files := NestedFiles(lib);
    NestedPathsValid(lib);
    DigestIsHex(lib, []);
    assert ArtifactFileValid(lib, files[0]) && ArtifactFileValid(lib, files[1]);
    hide ArtifactFileValid;
    assert files[..1] == [files[0]] && files[..1][..0] == [];
    assert TotalBytes(files) == TotalBytes(files[..1]) == TotalBytes([]) == 0;
    assert FilesValid(lib, files) && OmissionsValid(lib, []);
    hide FilesValid, OmissionsValid;
    assert ArtifactPlace(files[0]) < ArtifactPlace(files[1]);
  }

  lemma NestedPathsValid(lib: Library)
    requires lib.validUtf8("a") && lib.validUtf8("a/b")
    ensures FilePathValid(lib, "a") && FilePathValid(lib, "a/b")
    ensures Split("a", '/') == ["a"] && Split("a/b", '/') == ["a", "b"]
  {
    SplitWithoutSeparator("a", '/');
    SplitWithoutSeparator("b", '/');
    SplitAppend("a", "b", '/');
    assert "a" + ['/'] + "b" == "a/b";
    LetterIsCanonical("a");
    LetterIsCanonical("b");
    hide Split, CanonicalSegment;
  }

  lemma LetterIsCanonical(segment: string)
    requires segment == "a" || segment == "b"
    ensures CanonicalSegment(segment)
  {
    assert |Lower(segment)| == 1;
  }
}
