/** A tree of files and directories, and the part of it that a transaction has created: the lists of what it owns,
    and why removing them last first always works. */
module OwnedTree {
  import opened Protocol

  type Path = seq<string>

  datatype Node = Directory | File(content: bytes) | Special

  type Tree = map<Path, Node>

  function Parent(path: Path): Path
    requires path != []
  {
    path[..|path| - 1]
  }

  predicate IsDirectory(tree: Tree, path: Path) { path == [] || (path in tree && tree[path].Directory?) }

  /** Every node lies in a directory. */
  ghost predicate Closed(tree: Tree)
  {
    [] !in tree && forall p {:trigger Parent(p)} :: p in tree ==> IsDirectory(tree, Parent(p))
  }

  ghost predicate HasChild(tree: Tree, path: Path)
  {
    exists p :: p in tree && p != [] && Parent(p) == path
  }

  lemma {:induction false} AncestorsPresent(tree: Tree, path: Path, root: Path)
    requires Closed(tree) && path in tree && root != [] && root <= path
    ensures root in tree && (root != path ==> tree[root].Directory?)
    decreases |path|
  {
    if root != path {
      assert root <= Parent(path);
      AncestorsPresent(tree, Parent(path), root);
    }
  }

  /** A file gains content through an open handle; a handle whose file is gone changes nothing. */
  function Appended(tree: Tree, path: Path, content: bytes): Tree
  {
    if path in tree && tree[path].File? then tree[path := File(tree[path].content + content)] else tree
  }

  // ----- What is owned -----

  datatype Staging = Staging(root: Path, files: seq<Path>, directories: seq<Path>)

  /** The tree is the base, untouched, plus things at or below the root. */
  ghost predicate Outside(base: Tree, nodes: Tree, root: Path)
  {
    && (forall p :: p in base ==> !(root <= p) && p in nodes && nodes[p] == base[p])
    && (forall p :: p in nodes ==> p in base || root <= p)
  }

  ghost predicate Distinct(paths: seq<Path>)
  {
    forall a, b :: 0 <= a < b < |paths| ==> paths[a] != paths[b]
  }

  predicate Listed(s: Staging)
  {
    && (forall i :: 0 <= i < |s.files| ==> s.root <= s.files[i])
    && (forall i :: 0 <= i < |s.directories| ==> s.root <= s.directories[i])
  }

  /** Directories are listed after the one they lie in, the root first. */
  ghost predicate ParentsFirst(s: Staging)
  {
    && (s.directories != [] ==> s.directories[0] == s.root)
    && forall i :: 0 < i < |s.directories| ==> s.directories[i] != [] && Parent(s.directories[i]) in s.directories[..i]
  }

  /** The lists name exactly the objects at or below the root, each once. */
  ghost predicate Owns(nodes: Tree, s: Staging)
  {
    && Listed(s) && ParentsFirst(s) && Distinct(s.files) && Distinct(s.directories)
    && AllFiles(nodes, s.files) && AllDirectories(nodes, s.directories) && Covered(nodes, s)
  }

  ghost predicate AllFiles(nodes: Tree, paths: seq<Path>)
  {
    forall i :: 0 <= i < |paths| ==> paths[i] in nodes && nodes[paths[i]].File?
  }

  ghost predicate AllDirectories(nodes: Tree, paths: seq<Path>)
  {
    forall i :: 0 <= i < |paths| ==> paths[i] in nodes && nodes[paths[i]].Directory?
  }

  ghost predicate Covered(nodes: Tree, s: Staging)
  {
    forall p :: p in nodes && s.root <= p ==> p in s.files || p in s.directories
  }

  /** Below the root there is no directory without a staged file in it. */
  ghost predicate Lean(s: Staging)
  {
    forall i :: 0 < i < |s.directories| ==> Shelters(s.files, s.directories[i])
  }

  ghost predicate Shelters(files: seq<Path>, directory: Path)
  {
    exists j :: 0 <= j < |files| && directory < files[j]
  }

  function WithFile(s: Staging, path: Path): Staging { s.(files := s.files + [path]) }

  function WithDirectory(s: Staging, path: Path): Staging { s.(directories := s.directories + [path]) }

  lemma OutsideAfterWrite(base: Tree, nodes: Tree, root: Path, path: Path, node: Node)
    requires Outside(base, nodes, root) && root <= path
    ensures Outside(base, nodes[path := node], root)
  {
  }

  lemma OutsideAfterRemove(base: Tree, nodes: Tree, root: Path, path: Path)
    requires Outside(base, nodes, root) && root <= path
    ensures Outside(base, nodes - {path}, root)
  {
  }

  lemma ClosedAfterCreate(nodes: Tree, path: Path, node: Node)
    requires Closed(nodes) && path != [] && path !in nodes && IsDirectory(nodes, Parent(path))
    ensures Closed(nodes[path := node])
  {
  }

  lemma ClosedAfterAppend(nodes: Tree, path: Path, content: bytes)
    requires Closed(nodes)
    ensures Closed(Appended(nodes, path, content))
  {
  }

  lemma ClosedAfterRemove(nodes: Tree, path: Path)
    requires Closed(nodes) && !HasChild(nodes, path)
    ensures Closed(nodes - {path})
  {
  }

  lemma KindsAfterCreate(nodes: Tree, s: Staging, path: Path, node: Node)
    requires AllFiles(nodes, s.files) && AllDirectories(nodes, s.directories) && path !in nodes
    ensures AllFiles(nodes[path := node], s.files) && AllDirectories(nodes[path := node], s.directories)
    ensures path !in s.files && path !in s.directories
  {
  }

  lemma KindsAfterRemove(nodes: Tree, s: Staging, path: Path)
    requires AllFiles(nodes, s.files) && AllDirectories(nodes, s.directories)
    requires path !in s.files && path !in s.directories
    ensures AllFiles(nodes - {path}, s.files) && AllDirectories(nodes - {path}, s.directories)
  {
  }

  lemma DistinctWith(paths: seq<Path>, path: Path)
    requires Distinct(paths) && path !in paths
    ensures Distinct(paths + [path])
  {
  }

  lemma DistinctUpTo(paths: seq<Path>, n: nat)
    requires Distinct(paths) && n < |paths|
    ensures Distinct(paths[..n]) && paths[n] !in paths[..n]
  {
  }

  lemma ParentsFirstWith(s: Staging, path: Path)
    requires ParentsFirst(s) && path != [] && Parent(path) in s.directories
    ensures ParentsFirst(WithDirectory(s, path))
  {
    var t := WithDirectory(s, path);
    forall i | 0 < i < |t.directories|
      ensures t.directories[i] != [] && Parent(t.directories[i]) in t.directories[..i]
    {
      if i < |s.directories| {
        assert t.directories[..i] == s.directories[..i];
      } else {
        assert t.directories[..i] == s.directories;
      }
    }
  }

  lemma ParentsFirstUpTo(s: Staging, n: nat)
    requires ParentsFirst(s) && n <= |s.directories|
    ensures ParentsFirst(s.(directories := s.directories[..n]))
  {
    forall i | 0 < i < n ensures s.directories[..n][..i] == s.directories[..i] {
    }
  }

  /** The list of directories alone matters here, not the files. */
  lemma SameDirectories(s: Staging, t: Staging)
    requires ParentsFirst(s) && t.directories == s.directories && t.root == s.root
    ensures ParentsFirst(t)
  {
  }

  lemma CoveredWith(nodes: Tree, s: Staging, t: Staging, path: Path, node: Node)
    requires Covered(nodes, s) && (t == WithFile(s, path) || t == WithDirectory(s, path))
    ensures Covered(nodes[path := node], t)
  {
    forall p | p in nodes[path := node] && s.root <= p ensures p in t.files || p in t.directories {
      if p == path {
        if t == WithFile(s, path) {
          assert t.files[|s.files|] == path;
        } else {
          assert t.directories[|s.directories|] == path;
        }
      } else {
        assert p in s.files ==> p in t.files;
      }
    }
  }

  lemma CoveredWithout(nodes: Tree, s: Staging, t: Staging, path: Path)
    requires Covered(nodes, s)
    requires s == WithFile(t, path) || s == WithDirectory(t, path)
    ensures Covered(nodes - {path}, t)
  {
  }

  lemma ParentOwned(nodes: Tree, s: Staging, path: Path)
    requires AllFiles(nodes, s.files) && Covered(nodes, s)
    requires s.root < path && s.root != [] && IsDirectory(nodes, Parent(path))
    ensures Parent(path) in s.directories
  {
    assert s.root <= Parent(path);
  }

  lemma OwnsNewDirectory(nodes: Tree, s: Staging, path: Path)
    requires Owns(nodes, s) && path !in nodes && s.root < path && IsDirectory(nodes, Parent(path)) && s.root != []
    ensures Owns(nodes[path := Directory], WithDirectory(s, path))
  {
    hide ParentsFirst, Distinct, Covered;
    ParentOwned(nodes, s, path);
    KindsAfterCreate(nodes, s, path, Directory);
    ParentsFirstWith(s, path);
    DistinctWith(s.directories, path);
    CoveredWith(nodes, s, WithDirectory(s, path), path, Directory);
  }

  lemma OwnsNewFile(nodes: Tree, s: Staging, path: Path)
    requires Owns(nodes, s) && path !in nodes && s.root <= path
    ensures Owns(nodes[path := File([])], WithFile(s, path))
  {
    hide ParentsFirst, Distinct, Covered;
    KindsAfterCreate(nodes, s, path, File([]));
    SameDirectories(s, WithFile(s, path));
    DistinctWith(s.files, path);
    CoveredWith(nodes, s, WithFile(s, path), path, File([]));
  }

  lemma OwnsAfterAppend(nodes: Tree, s: Staging, path: Path, content: bytes)
    requires Owns(nodes, s)
    ensures Owns(Appended(nodes, path, content), s)
  {
    hide ParentsFirst, Distinct;
  }

  lemma FilesHaveNoChildren(nodes: Tree, path: Path)
    requires Closed(nodes) && path in nodes && nodes[path].File?
    ensures !HasChild(nodes, path)
  {
    forall p | p in nodes && p != [] ensures Parent(p) != path {
      assert IsDirectory(nodes, Parent(p));
    }
  }

  lemma RemoveLastFile(nodes: Tree, s: Staging)
    requires Owns(nodes, s) && s.files != []
    ensures Owns(nodes - {s.files[|s.files| - 1]}, s.(files := s.files[..|s.files| - 1]))
  {
    hide ParentsFirst, Distinct, Covered;
    var n := |s.files| - 1;
    var t := s.(files := s.files[..n]);
    DistinctUpTo(s.files, n);
    SameDirectories(s, t);
    assert s.files == t.files + [s.files[n]];
    assert s.files[n] !in s.directories;
    assert AllFiles(nodes, t.files);
    CoveredWithout(nodes, s, t, s.files[n]);
    KindsAfterRemove(nodes, t, s.files[n]);
  }

  /** Reverse order is right: with the files gone, the directory listed last is empty. */
  lemma LastDirectoryIsEmpty(nodes: Tree, s: Staging)
    requires Owns(nodes, s) && s.files == [] && s.directories != []
    ensures !HasChild(nodes, s.directories[|s.directories| - 1])
  {
    OwnsListsAll(nodes, s);
    LastTrackedIsEmpty(nodes, s);
  }

  lemma RemoveLastDirectory(nodes: Tree, s: Staging)
    requires Owns(nodes, s) && s.files == [] && s.directories != []
    ensures Owns(nodes - {s.directories[|s.directories| - 1]}, s.(directories := s.directories[..|s.directories| - 1]))
  {
    hide ParentsFirst, Distinct, Covered, Listed, AllFiles, AllDirectories;
    var n := |s.directories| - 1;
    var t := s.(directories := s.directories[..n]);
    DistinctUpTo(s.directories, n);
    ParentsFirstUpTo(s, n);
    DirectoriesUpTo(nodes, s, n);
    assert s.directories == t.directories + [s.directories[n]];
    CoveredWithout(nodes, s, t, s.directories[n]);
    KindsAfterRemove(nodes, t, s.directories[n]);
  }

  lemma DirectoriesUpTo(nodes: Tree, s: Staging, n: nat)
    requires Listed(s) && AllDirectories(nodes, s.directories) && n <= |s.directories|
    ensures Listed(s.(directories := s.directories[..n])) && AllDirectories(nodes, s.directories[..n])
  {
  }

  lemma NothingOwned(base: Tree, nodes: Tree, root: Path)
    requires Outside(base, nodes, root) && Owns(nodes, Staging(root, [], []))
    ensures nodes == base
  {
    NothingListed(base, nodes, root);
  }

  lemma NothingListed(base: Tree, nodes: Tree, root: Path)
    requires Outside(base, nodes, root) && Covered(nodes, Staging(root, [], []))
    ensures nodes == base
  {
    assert forall p :: p in nodes <==> p in base;
  }

  lemma FreshRoot(base: Tree, root: Path)
    requires Closed(base) && root != [] && root !in base
    ensures forall p :: p in base ==> !(root <= p)
  {
    forall p | p in base ensures !(root <= p) {
      if root <= p {
        AncestorsPresent(base, p, root);
      }
    }
  }

  // ----- Where another process writes too -----

  /** What is listed and still there is of its kind. */
  ghost predicate KindsFit(nodes: Tree, s: Staging)
  {
    && (forall i :: 0 <= i < |s.files| && s.files[i] in nodes ==> nodes[s.files[i]].File?)
    && (forall i :: 0 <= i < |s.directories| && s.directories[i] in nodes ==> nodes[s.directories[i]].Directory?)
  }

  /** The lists name everything that is at or below the root, and perhaps things that are gone; not the root. */
  ghost predicate ListsAll(nodes: Tree, s: Staging)
  {
    && Listed(s) && ParentsFirst(s) && Distinct(s.directories) && KindsFit(nodes, s) && Covered(nodes, s)
    && (s.directories != [] ==> s.root in nodes)
  }

  lemma OwnsListsAll(nodes: Tree, s: Staging)
    requires Owns(nodes, s)
    ensures ListsAll(nodes, s)
  {
  }

  lemma DropLastFile(nodes: Tree, s: Staging)
    requires ListsAll(nodes, s) && s.files != []
    ensures ListsAll(nodes - {s.files[|s.files| - 1]}, s.(files := s.files[..|s.files| - 1]))
  {
    var n := |s.files| - 1;
    var t := s.(files := s.files[..n]);
    assert s.directories != [] ==> s.directories[0] == s.root;
    hide ParentsFirst, Distinct, Covered;
    SameDirectories(s, t);
    assert s.files == t.files + [s.files[n]];
    CoveredWithout(nodes, s, t, s.files[n]);
  }

  /** Whatever is gone already, with the files gone the directory listed last is empty. */
  lemma LastTrackedIsEmpty(nodes: Tree, s: Staging)
    requires ListsAll(nodes, s) && s.files == [] && s.directories != []
    ensures !HasChild(nodes, s.directories[|s.directories| - 1])
  {
    hide KindsFit;
    var n := |s.directories| - 1;
    var last := s.directories[n];
    forall child | child in nodes && child != [] ensures Parent(child) != last {
      if s.root <= child {
        var j :| 0 <= j < |s.directories| && s.directories[j] == child;
        if j > 0 {
          var k :| 0 <= k < j && s.directories[k] == Parent(child);
        }
      }
    }
  }

  lemma RootIsFirst(s: Staging, n: nat)
    requires ParentsFirst(s) && Distinct(s.directories) && n < |s.directories|
    ensures s.directories[0] == s.root && (n > 0 ==> s.directories[n] != s.root)
  {
  }

  lemma FitUpTo(nodes: Tree, s: Staging, n: nat)
    requires Listed(s) && KindsFit(nodes, s) && n < |s.directories|
    ensures var t := s.(directories := s.directories[..n]);
            Listed(t) && KindsFit(nodes - {s.directories[n]}, t)
  {
  }

  lemma DropLastDirectory(nodes: Tree, s: Staging)
    requires ListsAll(nodes, s) && s.files == [] && s.directories != []
    ensures var n := |s.directories| - 1;
            ListsAll(nodes - {s.directories[n]}, s.(directories := s.directories[..n]))
  {
    hide ParentsFirst, Distinct, Covered, Listed, KindsFit;
    var n := |s.directories| - 1;
    var t := s.(directories := s.directories[..n]);
    RootIsFirst(s, n);
    FitUpTo(nodes, s, n);
    DistinctUpTo(s.directories, n);
    ParentsFirstUpTo(s, n);
    assert s.directories == t.directories + [s.directories[n]];
    CoveredWithout(nodes, s, t, s.directories[n]);
  }

  // ----- Everything below a directory -----

  function Below(nodes: Tree, directory: Path): set<Path> { set p | p in nodes && directory < p }

  function Children(nodes: Tree, directory: Path): set<Path>
  {
    set p | p in nodes && |p| == |directory| + 1 && directory < p
  }

  /** What lies at or below some of the paths of length n. */
  ghost function AtOrBelow(nodes: Tree, n: nat, tops: set<Path>): set<Path>
  {
    set p | p in nodes && |p| >= n && p[..n] in tops
  }

  lemma AllBelow(nodes: Tree, directory: Path)
    requires Closed(nodes)
    ensures AtOrBelow(nodes, |directory| + 1, Children(nodes, directory)) == Below(nodes, directory)
  {
    var n := |directory| + 1;
    forall p | p in Below(nodes, directory) ensures p in AtOrBelow(nodes, n, Children(nodes, directory)) {
      assert p[..n][..|directory|] == directory;
      AncestorsPresent(nodes, p, p[..n]);
    }
    forall p | p in AtOrBelow(nodes, n, Children(nodes, directory)) ensures p in Below(nodes, directory) {
      assert p[..n][..|directory|] == p[..|directory|];
    }
  }

  /** One more child: itself, and what is below it. */
  lemma OneMoreChild(nodes: Tree, n: nat, done: set<Path>, child: Path)
    requires child in nodes && |child| == n && child !in done
    ensures AtOrBelow(nodes, n, done + {child}) == AtOrBelow(nodes, n, done) + {child} + Below(nodes, child)
    ensures |AtOrBelow(nodes, n, done + {child})| == |AtOrBelow(nodes, n, done)| + 1 + |Below(nodes, child)|
  {
    assert child[..n] == child;
    forall p | p in nodes && |p| >= n ensures p[..n] == child <==> p == child || p in Below(nodes, child) {
    }
    assert AtOrBelow(nodes, n, done) !! {child} !! Below(nodes, child);
  }

  lemma PartIsNoLarger(part: set<Path>, whole: set<Path>)
    requires part <= whole
    ensures |part| <= |whole|
  {
    if part != {} {
      var p :| p in part;
      PartIsNoLarger(part - {p}, whole - {p});
    }
  }

  lemma SomeChildren(nodes: Tree, directory: Path, some: set<Path>)
    requires Closed(nodes) && some <= Children(nodes, directory)
    ensures AtOrBelow(nodes, |directory| + 1, some) <= Below(nodes, directory)
    ensures |AtOrBelow(nodes, |directory| + 1, some)| <= |Below(nodes, directory)|
  {
    AllBelow(nodes, directory);
    PartIsNoLarger(AtOrBelow(nodes, |directory| + 1, some), Below(nodes, directory));
  }

  /** A directory below another has less below it. */
  lemma FewerBelow(nodes: Tree, directory: Path, child: Path)
    requires child in nodes && directory < child
    ensures |Below(nodes, child)| < |Below(nodes, directory)|
  {
    assert child in Below(nodes, directory) && child !in Below(nodes, child);
    PartIsNoLarger(Below(nodes, child), Below(nodes, directory) - {child});
  }
}
