/** The provisioning leases under the Windows installer: what each has changed or made, and how it takes it back. */
module StageLeases {
  import opened Protocol
  import opened OwnedTree

  /** What an installation changes by name: accounts, directory rights, services, a registration. */
  type Objects = map<string, string>

  /** The machine as far as an installation reaches: those objects, and the tree of files. */
  datatype Machine = Machine(objects: Objects, nodes: Tree)

  /** One change, with what stood there before. */
  datatype Change = Change(name: string, before: Option<string>)

  function Undone(objects: Objects, change: Change): Objects
  {
    if change.before.Some? then objects[change.name := change.before.value] else objects - {change.name}
  }

  /** All changes taken back, the last one first. */
  function UndoneAll(objects: Objects, changes: seq<Change>): Objects
    decreases |changes|
  {
    if changes == [] then objects
    else UndoneAll(Undone(objects, changes[|changes| - 1]), changes[..|changes| - 1])
  }

  lemma {:induction false} UndoneAppend(objects: Objects, a: seq<Change>, b: seq<Change>)
    ensures UndoneAll(objects, a + b) == UndoneAll(UndoneAll(objects, b), a)
    decreases |b|
  {
    if b == [] {
      assert a + b == a;
    } else {
      assert (a + b)[..|a + b| - 1] == a + b[..|b| - 1];
      UndoneAppend(Undone(objects, b[|b| - 1]), a, b[..|b| - 1]);
    }
  }

  function ChangeOf(objects: Objects, name: string): Change
  {
    Change(name, if name in objects then Some(objects[name]) else None)
  }

  /** Recording a change makes it undoable, whatever it overwrote. */
  lemma UndoesWrite(objects: Objects, name: string, content: string, changes: seq<Change>)
    ensures UndoneAll(objects[name := content], changes + [ChangeOf(objects, name)]) == UndoneAll(objects, changes)
  {
    var change := ChangeOf(objects, name);
    assert (changes + [change])[..|changes|] == changes;
    assert Undone(objects[name := content], change) == objects;
  }

  // ----- The host -----

  datatype Kind = Accounts | Filesystem | Root | Service | RunnerStorage | Registration | RunnerService

  datatype Event = Acquired(kind: Kind) | ClosedLease(kind: Kind) | CommittedLease(kind: Kind)

  datatype Target = Target(name: string, content: string)

  /** What the runner's own process does to the tree below the root it is given: when it configures the runner, and
      when it removes it again. */
  datatype Listener = Listener(configure: (Path, Tree) -> Tree, remove: (Path, Tree) -> Tree)

  function Listening(listener: Listener, removing: bool, root: Path, nodes: Tree): Tree
  {
    if root !in nodes || !nodes[root].Directory? then nodes
    else if removing then listener.remove(root, nodes) else listener.configure(root, nodes)
  }

  /** Nothing is changed outside the root, which stays a directory. */
  ghost predicate Confined(before: Tree, after: Tree, root: Path)
  {
    && Closed(after) && root in after && after[root].Directory?
    && forall p :: !(root <= p) ==> (p in before <==> p in after) && (p in before ==> before[p] == after[p])
  }

  const MAX_ENTRIES := 8192
  const MAX_SEALED := MAX_ENTRIES + 1024

  const REGISTRATION_FILES := [".runner", ".credentials", ".credentials_rsaparams"]
  const SERVICE_EXECUTABLE := ["bin", "RunnerService.exe"]

  predicate IsFile(nodes: Tree, path: Path) { path in nodes && nodes[path].File? }

  ghost predicate PlainBelow(nodes: Tree, directory: Path)
  {
    forall p :: p in nodes && directory < p ==> !nodes[p].Special?
  }

  /** What sealing accepts: files and directories only, and not too many. */
  ghost predicate CanSeal(nodes: Tree, root: Path) { PlainBelow(nodes, root) && |Below(nodes, root)| <= MAX_SEALED }

  /** As much as an installation may hold before the listener comes, so that what it adds can be sealed. */
  ghost predicate HasRoom(nodes: Tree, root: Path) { PlainBelow(nodes, root) && |Below(nodes, root)| <= MAX_ENTRIES }

  predicate SameKind(a: Node, b: Node) { a.Directory? == b.Directory? && a.File? == b.File? }

  /** Either run stays below its root and leaves nothing there as something of another kind; configuring leaves
      everything in place. */
  ghost predicate StaysBelow(listener: Listener)
  {
    forall removing, root, nodes: Tree :: Closed(nodes) && root in nodes && nodes[root].Directory? ==>
      var later := Listening(listener, removing, root, nodes);
      && Confined(nodes, later, root)
      && forall p :: p in nodes ==> if p in later then SameKind(nodes[p], later[p]) else removing
  }

  /** Where there is room, what configuring leaves can be sealed; and removing leaves what could be sealed so. */
  ghost predicate Tidy(listener: Listener)
  {
    forall removing, root, nodes: Tree :: Closed(nodes) && root in nodes && nodes[root].Directory? ==>
      (if removing then CanSeal(nodes, root) else HasRoom(nodes, root)) ==>
        CanSeal(Listening(listener, removing, root, nodes), root)
  }

  ghost predicate NamesFree(nodes: Tree, root: Path)
  {
    forall k :: 0 <= k < |REGISTRATION_FILES| ==> root + [REGISTRATION_FILES[k]] !in nodes
  }

  /** Registration left its three files. */
  ghost predicate Registered(nodes: Tree, root: Path)
  {
    forall k :: 0 <= k < |REGISTRATION_FILES| ==> IsFile(nodes, root + [REGISTRATION_FILES[k]])
  }

  /** Where there is room and the names are free, configuring leaves its three files. */
  ghost predicate Registers(listener: Listener)
  {
    forall root, nodes: Tree :: Closed(nodes) && root in nodes && nodes[root].Directory? ==>
      HasRoom(nodes, root) && NamesFree(nodes, root) ==>
        var later := Listening(listener, false, root, nodes);
        CanSeal(later, root) && Registered(later, root)
  }

  /** A listener that writes its three files where it can, and removes nothing. */
  function WithRegistration(root: Path, nodes: Tree): Tree
  {
    if exists k :: 0 <= k < |REGISTRATION_FILES| && root + [REGISTRATION_FILES[k]] in nodes then nodes
    else
      nodes[root + [REGISTRATION_FILES[0]] := File([])][root + [REGISTRATION_FILES[1]] := File([])]
           [root + [REGISTRATION_FILES[2]] := File([])]
  }

  const MODEST := Listener(WithRegistration, (root, nodes) => nodes)

  lemma OneFileMore(root: Path, nodes: Tree, name: string)
    requires Closed(nodes) && root in nodes && nodes[root].Directory? && root + [name] !in nodes
    ensures var after := nodes[root + [name] := File([])];
            && Closed(after) && |Below(after, root)| == |Below(nodes, root)| + 1
            && (PlainBelow(nodes, root) ==> PlainBelow(after, root))
  {
    var path := root + [name];
    assert Parent(path) == root;
    ClosedAfterCreate(nodes, path, File([]));
    assert Below(nodes[path := File([])], root) == Below(nodes, root) + {path};
  }

  /** So there are listeners that do all that is asked of one. */
  lemma ModestIsOrderly()
    ensures StaysBelow(MODEST) && Tidy(MODEST) && Registers(MODEST)
  {
    forall removing, root, nodes: Tree | Closed(nodes) && root in nodes && nodes[root].Directory?
      ensures var later := Listening(MODEST, removing, root, nodes);
              && Confined(nodes, later, root) && (forall p :: p in nodes ==> p in later && later[p] == nodes[p])
              && ((if removing then CanSeal(nodes, root) else HasRoom(nodes, root)) ==> CanSeal(later, root))
              && (!removing && NamesFree(nodes, root) ==> Registered(later, root))
    {
      hide Confined, Closed, Below, PlainBelow, NamesFree, Registered, WithRegistration;
      if removing { SameIsConfined(nodes, root); } else { ModestLeaves(root, nodes); }
    }
    hide Confined, Closed, CanSeal, HasRoom, NamesFree, Registered, Listening;
  }

  lemma SameIsConfined(nodes: Tree, root: Path)
    requires Closed(nodes) && root in nodes && nodes[root].Directory?
    ensures Confined(nodes, nodes, root)
  {
  }

  lemma ModestLeaves(root: Path, nodes: Tree)
    requires Closed(nodes) && root in nodes && nodes[root].Directory?
    ensures var later := WithRegistration(root, nodes);
            && Confined(nodes, later, root) && |Below(later, root)| <= |Below(nodes, root)| + 3
            && (PlainBelow(nodes, root) ==> PlainBelow(later, root))
            && (forall p :: p in nodes ==> p in later && later[p] == nodes[p])
            && (NamesFree(nodes, root) ==> Registered(later, root))
  {
    if NamesFree(nodes, root) {
      var a := nodes[root + [REGISTRATION_FILES[0]] := File([])];
      var b := a[root + [REGISTRATION_FILES[1]] := File([])];
      assert |REGISTRATION_FILES[0]| == 7 && |REGISTRATION_FILES[1]| == 12 && |REGISTRATION_FILES[2]| == 22;
      LastDiffers(root, REGISTRATION_FILES[0], REGISTRATION_FILES[1]);
      LastDiffers(root, REGISTRATION_FILES[0], REGISTRATION_FILES[2]);
      LastDiffers(root, REGISTRATION_FILES[1], REGISTRATION_FILES[2]);
      OneFileMore(root, nodes, REGISTRATION_FILES[0]);
      OneFileMore(root, a, REGISTRATION_FILES[1]);
      OneFileMore(root, b, REGISTRATION_FILES[2]);
    }
  }

  lemma LastDiffers(root: Path, a: string, b: string)
    requires a != b
    ensures root + [a] != root + [b]
  {
    assert (root + [a])[|root|] == a && (root + [b])[|root|] == b;
  }

  /** The machine. On an unwilling host anything new may fail to be made, and any check may fail; on a faulty one taking
      something back, or taking over what the listener wrote, may fail, which `broken` then records. `stuck` are the
      service handles that will not close. */
  class Host {
    var objects: Objects
    var nodes: Tree
    const willing: bool
    const faulty: bool
    const stuck: set<Kind>
    const listener: Listener
    ghost var log: seq<Event>
    ghost var broken: bool

    constructor (objects: Objects, nodes: Tree, willing: bool, faulty: bool, stuck: set<Kind>, listener: Listener)
      ensures this.objects == objects && this.nodes == nodes && this.listener == listener
      ensures this.willing == willing && this.faulty == faulty && this.stuck == stuck
      ensures log == [] && !broken
    {
      this.objects, this.nodes, log, broken := objects, nodes, [], false;
      this.willing, this.faulty, this.stuck, this.listener := willing, faulty, stuck, listener;
    }

    /** The listener writes below its root only; on a host that is not faulty it is tidy, and on a willing one it
        registers. */
    ghost predicate Orderly()
    {
      StaysBelow(listener) && (!faulty ==> Tidy(listener)) && (willing ==> Registers(listener))
    }

    function Now(): Machine
      reads this
    {
      Machine(objects, nodes)
    }

    method Fault() returns (fault: bool)
      ensures !faulty ==> !fault
    {
      fault := *;
      fault := faulty && fault;
    }

    /** A context, argument or state check, or anything else that may keep a step from being taken. */
    method Check() returns (ok: bool)
      ensures willing ==> ok
    {
      ok := *;
      ok := ok || willing;
    }

    /** A native call of sealing fails. */
    method Snag() returns (snag: bool)
      ensures !faulty || willing ==> !snag
    {
      snag := *;
      snag := snag && faulty && !willing;
    }

    /** A run of the listener, if there is a directory to run it in. */
    method RunListener(root: Path, removing: bool)
      modifies this`nodes
      ensures nodes == Listening(listener, removing, root, old(nodes))
    {
      nodes := Listening(listener, removing, root, nodes);
    }

    method Apply(target: Target, changes: seq<Change>) returns (ok: bool, recorded: seq<Change>)
      modifies this`objects
      ensures !ok ==> objects == old(objects) && recorded == changes
      ensures ok ==> objects == old(objects)[target.name := target.content]
      ensures ok ==> recorded == changes + [ChangeOf(old(objects), target.name)]
      ensures UndoneAll(objects, recorded) == UndoneAll(old(objects), changes)
      ensures willing ==> ok
    {
      ok := Check();
      if !ok { return false, changes; }
      UndoesWrite(objects, target.name, target.content, changes);
      recorded := changes + [ChangeOf(objects, target.name)];
      objects := objects[target.name := target.content];
    }

    /** The rollback loop over recorded changes: every step is tried, even after one failed. */
    method RollBack(changes: seq<Change>) returns (ok: bool)
      modifies this`objects, this`broken
      ensures ok ==> objects == UndoneAll(old(objects), changes) && broken == old(broken)
      ensures !ok ==> broken && faulty
    {
      ok := true;
      assert changes[..|changes|] == changes;
      for i := |changes| downto 0
        invariant ok ==> UndoneAll(objects, changes[..i]) == UndoneAll(old(objects), changes) && broken == old(broken)
        invariant !ok ==> broken && faulty
      {
        assert changes[..i + 1][..i] == changes[..i];
        var fault := Fault();
        if fault {
          ok, broken := false, true;
        } else {
          objects := Undone(objects, changes[i]);
        }
      }
    }

    /** A new directory or file: it may come into being and still be reported as failed. */
    method Make(path: Path, node: Node) returns (created: bool, ok: bool)
      requires path != []
      modifies this`nodes
      ensures created ==>
                path !in old(nodes) && IsDirectory(old(nodes), Parent(path)) && nodes == old(nodes)[path := node]
      ensures !created ==> nodes == old(nodes) && !ok
      ensures willing && path !in old(nodes) && IsDirectory(old(nodes), Parent(path)) ==> ok
    {
      created := Check();
      if !created || path in nodes || !IsDirectory(nodes, Parent(path)) { return false, false; }
      ok := Check();
      nodes := nodes[path := node];
    }

    /** Removing an owned object: of a directory, only once it is empty. */
    method Remove(path: Path) returns (ok: bool)
      modifies this`nodes, this`broken
      ensures ok ==>
                && path in old(nodes) && !HasChild(old(nodes), path) && nodes == old(nodes) - {path}
                && broken == old(broken)
      ensures !ok ==> nodes == old(nodes) && broken
      ensures path in old(nodes) && !HasChild(old(nodes), path) && !ok ==> faulty
    {
      var fault := Fault();
      if fault || path !in nodes || (exists p :: p in nodes && p != [] && Parent(p) == path) {
        broken := true;
        return false;
      }
      nodes := nodes - {path};
      ok := true;
    }
  }

  // ----- One stage's lease -----

  /** What a stage has done: recorded changes, or files and directories that it made below its own root. */
  datatype Undo = Changes(changes: seq<Change>) | Created(staging: Staging)

  /** Whether the listener has written below the lease's root: not yet; what configuring left has been sealed; what
      removing left has been. */
  datatype Phase = Making | Sealed | Left

  /** A lease as the rest of the installation sees it; `base` is the tree from before its first directory. */
  datatype Held = Held(undo: Undo, base: Tree, phase: Phase)

  /** The machine after the stage has been taken back. */
  function Back(m: Machine, h: Held): Machine
  {
    match h.undo
    case Changes(changes) => Machine(UndoneAll(m.objects, changes), m.nodes)
    case Created(_) => Machine(m.objects, h.base)
  }

  /** Everything at or below the root is owned, and the rest is as it was. After the listener has removed the runner,
      some of what is owned may be gone. */
  ghost predicate Ours(nodes: Tree, s: Staging, base: Tree, phase: Phase)
  {
    && Closed(nodes) && s.root != [] && Outside(base, nodes, s.root)
    && (if phase.Left? then ListsAll(nodes, s) else Owns(nodes, s)) && (phase.Sealed? ==> CanSeal(nodes, s.root))
  }

  /** Nothing has been made yet, or nothing is left of it. */
  ghost predicate Untouched(nodes: Tree, s: Staging, base: Tree)
  {
    Closed(nodes) && s.root != [] && s.files == [] && s.directories == [] && nodes == base
  }

  ghost predicate Intact(m: Machine, h: Held)
  {
    h.undo.Created? ==> Ours(m.nodes, h.undo.staging, h.base, h.phase) || Untouched(m.nodes, h.undo.staging, h.base)
  }

  predicate Stores(kind: Kind) { kind == Root || kind == RunnerStorage }

  predicate IsService(kind: Kind) { kind == Service || kind == RunnerService }

  datatype Item = DirectoryItem(path: Path) | FileItem(path: Path, content: bytes)

  function Placed(nodes: Tree, item: Item): Tree
  {
    nodes[item.path := if item.DirectoryItem? then Directory else File(item.content)]
  }

  function Noted(s: Staging, item: Item): Staging
  {
    if item.DirectoryItem? then WithDirectory(s, item.path) else WithFile(s, item.path)
  }

  /** The name is free, and lies in a directory that is there and owned; or it is the root, before anything else. */
  predicate MayPlace(s: Staging, nodes: Tree, item: Item)
  {
    && item.path != [] && item.path !in nodes && IsDirectory(nodes, Parent(item.path))
    && s.root <= item.path && item.path !in s.directories
    && if item.DirectoryItem? && item.path == s.root then s.directories == [] else Parent(item.path) in s.directories
  }

  function AllPlaced(nodes: Tree, items: seq<Item>): Tree
  {
    if items == [] then nodes else Placed(AllPlaced(nodes, items[..|items| - 1]), items[|items| - 1])
  }

  function AllNoted(s: Staging, items: seq<Item>): Staging
  {
    if items == [] then s else Noted(AllNoted(s, items[..|items| - 1]), items[|items| - 1])
  }

  /** Each item may be placed once the earlier ones are. */
  ghost predicate AllMayBePlaced(s: Staging, nodes: Tree, items: seq<Item>)
  {
    forall i :: 0 <= i < |items| ==> MayPlace(AllNoted(s, items[..i]), AllPlaced(nodes, items[..i]), items[i])
  }

  /** An item is placed and noted, or nothing happens; only if it was placed can it be reported so. */
  predicate Placing(before: Undo, after: Undo, nodes: Tree, later: Tree, item: Item, ok: bool)
  {
    || (!ok && after == before && later == nodes)
    || (&& before.Created? && MayPlace(before.staging, nodes, item)
        && later == Placed(nodes, item) && after == Created(Noted(before.staging, item)))
  }

  // ----- Sealing what another process wrote -----

  /** The lists name everything strictly below the directory, each under its kind. */
  ghost predicate Catalogued(nodes: Tree, directory: Path, s: Staging)
  {
    forall p :: p in nodes && directory < p ==>
      (nodes[p].File? ==> p in s.files) && (nodes[p].Directory? ==> p in s.directories) && !nodes[p].Special?
  }

  predicate Extends(s: Staging, t: Staging)
  {
    t.root == s.root && s.files <= t.files && s.directories <= t.directories
  }

  /** Nothing is taken off the lists, and what is put on them is there, below the directory, of its kind. */
  ghost predicate Adds(nodes: Tree, directory: Path, s: Staging, t: Staging)
  {
    && Extends(s, t)
    && (forall p :: p in t.files ==> p in s.files || (IsFile(nodes, p) && directory < p))
    && (forall p :: p in t.directories ==> p in s.directories || (p in nodes && nodes[p].Directory? && directory < p))
    && (ParentsFirst(s) ==> ParentsFirst(t)) && (Distinct(s.directories) ==> Distinct(t.directories))
    && (Distinct(s.files) ==> Distinct(t.files))
  }

  /** Everything but that the lists are complete. */
  ghost predicate Loose(nodes: Tree, s: Staging, base: Tree)
  {
    && Closed(nodes) && s.root != [] && Outside(base, nodes, s.root) && s.root in nodes && s.directories != []
    && Listed(s) && ParentsFirst(s) && Distinct(s.directories) && KindsFit(nodes, s)
  }

  lemma AddsNothing(nodes: Tree, directory: Path, s: Staging)
    ensures Adds(nodes, directory, s, s)
  {
  }

  lemma AddsOn(nodes: Tree, directory: Path, child: Path, s: Staging, t: Staging, u: Staging)
    requires Adds(nodes, directory, s, t) && Adds(nodes, child, t, u) && directory <= child
    ensures Adds(nodes, directory, s, u)
  {
    hide ParentsFirst, Distinct;
  }

  lemma AddsFile(nodes: Tree, directory: Path, s: Staging, path: Path)
    requires IsFile(nodes, path) && directory < path && path !in s.files
    ensures Adds(nodes, directory, s, WithFile(s, path))
  {
    if ParentsFirst(s) { SameDirectories(s, WithFile(s, path)); }
    if Distinct(s.files) { DistinctWith(s.files, path); }
    hide ParentsFirst, Distinct;
  }

  lemma AddsDirectory(nodes: Tree, directory: Path, s: Staging, path: Path)
    requires path in nodes && nodes[path].Directory? && directory < path && Parent(path) in s.directories
    requires path !in s.directories
    ensures Adds(nodes, directory, s, WithDirectory(s, path))
  {
    if ParentsFirst(s) { ParentsFirstWith(s, path); }
    if Distinct(s.directories) { DistinctWith(s.directories, path); }
    hide ParentsFirst, Distinct;
  }

  /** With complete lists, everything is tracked. */
  lemma Tightened(nodes: Tree, s: Staging, t: Staging, base: Tree)
    requires Loose(nodes, s, base) && Adds(nodes, s.root, s, t) && Catalogued(nodes, t.root, t)
    ensures Ours(nodes, t, base, Left)
  {
    assert t.directories[0] == s.root;
    FitsAdded(nodes, s, t);
    hide ParentsFirst, Distinct, Outside, KindsFit, Listed;
    forall p | p in nodes && t.root <= p ensures p in t.files || p in t.directories {
      if p == t.root { assert t.directories[0] == p; }
    }
  }

  /** And if nothing that was listed is gone, everything is owned. */
  lemma TightenedOwns(nodes: Tree, s: Staging, t: Staging, base: Tree)
    requires Loose(nodes, s, base) && Adds(nodes, s.root, s, t) && Catalogued(nodes, t.root, t)
    requires AllFiles(nodes, s.files) && AllDirectories(nodes, s.directories) && Distinct(s.files)
    requires CanSeal(nodes, s.root)
    ensures Ours(nodes, t, base, Sealed)
  {
    Tightened(nodes, s, t, base);
    AllAdded(nodes, s, t);
    hide ParentsFirst, Distinct, Outside, Covered, Closed, CanSeal, Catalogued, Adds, Loose, Listed, KindsFit, AllFiles,
         AllDirectories;
  }

  lemma AllAdded(nodes: Tree, s: Staging, t: Staging)
    requires Adds(nodes, s.root, s, t) && AllFiles(nodes, s.files) && AllDirectories(nodes, s.directories)
    ensures AllFiles(nodes, t.files) && AllDirectories(nodes, t.directories)
    ensures t.root == s.root && (Distinct(s.files) ==> Distinct(t.files))
  {
    hide ParentsFirst, Distinct;
    forall i | 0 <= i < |t.files| ensures t.files[i] in nodes && nodes[t.files[i]].File? {
      assert t.files[i] in t.files;
    }
    forall i | 0 <= i < |t.directories| ensures t.directories[i] in nodes && nodes[t.directories[i]].Directory? {
      assert t.directories[i] in t.directories;
    }
  }

  lemma FitsAdded(nodes: Tree, s: Staging, t: Staging)
    requires Listed(s) && KindsFit(nodes, s) && Adds(nodes, s.root, s, t)
    ensures Listed(t) && KindsFit(nodes, t)
  {
    hide ParentsFirst, Distinct;
    forall i | 0 <= i < |t.files| ensures s.root <= t.files[i] && (t.files[i] in nodes ==> nodes[t.files[i]].File?) {
      assert t.files[i] in t.files;
    }
    forall i | 0 <= i < |t.directories|
      ensures s.root <= t.directories[i] && (t.directories[i] in nodes ==> nodes[t.directories[i]].Directory?)
    {
      assert t.directories[i] in t.directories;
    }
  }

  /** What has been taken over of a directory's children so far. */
  ghost predicate Covers(nodes: Tree, n: nat, done: set<Path>, t: Staging)
  {
    forall p :: p in nodes && |p| >= n && p[..n] in done ==>
      (nodes[p].File? ==> p in t.files) && (nodes[p].Directory? ==> p in t.directories) && !nodes[p].Special?
  }

  lemma CoversMore(nodes: Tree, n: nat, done: set<Path>, child: Path, t: Staging, u: Staging)
    requires |child| == n && child in nodes && Covers(nodes, n, done, t) && Extends(t, u)
    requires (nodes[child].File? ==> child in u.files) && (nodes[child].Directory? ==> child in u.directories)
    requires !nodes[child].Special? && Catalogued(nodes, child, u)
    ensures Covers(nodes, n, done + {child}, u)
  {
    forall p | p in nodes && |p| >= n && p[..n] in done + {child}
      ensures (nodes[p].File? ==> p in u.files) && (nodes[p].Directory? ==> p in u.directories) && !nodes[p].Special?
    {
      if p[..n] == child && p != child { assert child < p; }
    }
  }

  lemma AllCovered(nodes: Tree, directory: Path, t: Staging)
    requires Closed(nodes) && Covers(nodes, |directory| + 1, Children(nodes, directory), t)
    ensures Catalogued(nodes, directory, t)
  {
    AllBelow(nodes, directory);
    forall p | p in nodes && directory < p
      ensures (nodes[p].File? ==> p in t.files) && (nodes[p].Directory? ==> p in t.directories) && !nodes[p].Special?
    {
      assert p in Below(nodes, directory);
    }
  }

  lemma NothingBelowFile(nodes: Tree, path: Path, t: Staging)
    requires Closed(nodes) && IsFile(nodes, path) && path != []
    ensures Below(nodes, path) == {} && Catalogued(nodes, path, t)
  {
    forall p | p in nodes && path < p ensures false {
      AncestorsPresent(nodes, p, path);
    }
  }

  /** One entry of a listing: counted, sealed, put on the list of its kind unless it is there already, and, if it is a
      directory, gone into. */
  method SealEntry(host: Host, directory: Path, child: Path, s: Staging, count: nat)
    returns (ok: bool, t: Staging, total: nat)
    requires child in host.nodes && |child| == |directory| + 1 && directory < child && directory in s.directories
    ensures Adds(host.nodes, directory, s, t)
    ensures Catalogued(host.nodes, directory, s) ==> t == s
    ensures ok && Closed(host.nodes) ==>
              && total == count + 1 + |Below(host.nodes, child)| <= MAX_SEALED && !host.nodes[child].Special?
              && (if host.nodes[child].File? then child in t.files else child in t.directories)
              && Catalogued(host.nodes, child, t)
    ensures Closed(host.nodes) && (!host.faulty || host.willing) && !host.nodes[child].Special? ==>
              PlainBelow(host.nodes, child) && count + 1 + |Below(host.nodes, child)| <= MAX_SEALED ==> ok
    decreases |Below(host.nodes, directory)|, 0
  {
    hide ParentsFirst, Distinct, Closed;
    total := count + 1;
    t := s;
    AddsNothing(host.nodes, directory, s);
    var snag := host.Snag();
    if total > MAX_SEALED || snag || host.nodes[child].Special? { return false, t, total; }
    if host.nodes[child].File? {
      if child !in s.files {
        AddsFile(host.nodes, directory, s, child);
        t := WithFile(s, child);
        assert t.files[|s.files|] == child;
      }
      if Closed(host.nodes) { NothingBelowFile(host.nodes, child, t); }
      return true, t, total;
    }
    if child !in s.directories {
      assert Parent(child) == directory;
      AddsDirectory(host.nodes, directory, s, child);
      t := WithDirectory(s, child);
      assert t.directories[|s.directories|] == child;
    }
    FewerBelow(host.nodes, directory, child);
    ghost var u := t;
    ok, t, total := SealDirectory(host, child, t, total);
    AddsOn(host.nodes, directory, child, s, u, t);
    assert child in t.directories by { StillListed(u, t, child); }
  }

  lemma StillListed(s: Staging, t: Staging, path: Path)
    requires Extends(s, t)
    ensures path in s.directories ==> path in t.directories
  {
  }

  /** sealDirectoryLocked */
  method SealDirectory(host: Host, directory: Path, s: Staging, count: nat)
    returns (ok: bool, t: Staging, total: nat)
    requires directory in s.directories
    ensures Adds(host.nodes, directory, s, t)
    ensures Catalogued(host.nodes, directory, s) ==> t == s
    ensures ok && Closed(host.nodes) ==>
              && Catalogued(host.nodes, directory, t) && PlainBelow(host.nodes, directory)
              && total == count + |Below(host.nodes, directory)|
              && (count <= MAX_SEALED ==> total <= MAX_SEALED)
    ensures Closed(host.nodes) && (!host.faulty || host.willing) ==>
              PlainBelow(host.nodes, directory) && count + |Below(host.nodes, directory)| <= MAX_SEALED ==> ok
    decreases |Below(host.nodes, directory)|, 1
  {
    hide ParentsFirst, Distinct, Closed, Catalogued, Adds, PlainBelow, Below, AtOrBelow, Covers;
    ghost var nodes, n := host.nodes, |directory| + 1;
    var children := Children(host.nodes, directory);
    var todo := children;
    ghost var done: set<Path> := {};
    ok, t, total := true, s, count;
    AddsNothing(nodes, directory, s);
    CoversNothing(nodes, n, t);
    while todo != {}
      invariant ok && todo <= children && done == children - todo && directory in t.directories
      invariant Adds(nodes, directory, s, t) && (Catalogued(nodes, directory, s) ==> t == s)
      invariant Closed(nodes) ==> Covers(nodes, n, done, t) && total == count + |AtOrBelow(nodes, n, done)|
      invariant count <= MAX_SEALED ==> Closed(nodes) ==> total <= MAX_SEALED
      decreases |todo|
    {
      var child :| child in todo;
      ghost var before := t;
      if Closed(nodes) {
        OneMoreChild(nodes, n, done, child);
        SomeChildren(nodes, directory, done + {child});
        PlainFurther(nodes, directory, child);
      }
      ok, t, total := SealEntry(host, directory, child, t, total);
      AddsOn(nodes, directory, directory, s, before, t);
      AddsExtends(nodes, directory, before, t, directory);
      if !ok { return; }
      if Closed(nodes) { CoversMore(nodes, n, done, child, before, t); }
      todo, done := todo - {child}, done + {child};
    }
    assert done == children;
    if Closed(nodes) {
      AllBelow(nodes, directory);
      AllCovered(nodes, directory, t);
      CataloguedIsPlain(nodes, directory, t);
    }
  }

  lemma CoversNothing(nodes: Tree, n: nat, t: Staging)
    ensures Covers(nodes, n, {}, t) && AtOrBelow(nodes, n, {}) == {}
  {
  }

  lemma PlainFurther(nodes: Tree, directory: Path, child: Path)
    requires child in nodes && directory < child
    ensures PlainBelow(nodes, directory) ==> PlainBelow(nodes, child) && !nodes[child].Special?
  {
  }

  lemma CataloguedIsPlain(nodes: Tree, directory: Path, t: Staging)
    requires Catalogued(nodes, directory, t)
    ensures PlainBelow(nodes, directory)
  {
  }

  lemma AddsExtends(nodes: Tree, directory: Path, s: Staging, t: Staging, path: Path)
    requires Adds(nodes, directory, s, t)
    ensures Extends(s, t) && (path in s.directories ==> path in t.directories)
  {
    hide ParentsFirst, Distinct;
  }

  /** A failure breaks the host, unless a jammed handle was the reason; nothing else does; and a sound host does not
      break. */
  predicate Breaks(before: bool, ok: bool, after: bool, faulty: bool, jammed: bool)
  {
    (before ==> after) && (after && !before ==> faulty && !ok) && (jammed ==> !ok) && (!ok ==> after || jammed)
  }

  class StageLease {
    const host: Host
    const kind: Kind
    ghost const base: Tree
    var undo: Undo
    var committed: bool
    var closed: bool
    ghost var phase: Phase

    constructor (host: Host, kind: Kind, undo: Undo)
      ensures this.host == host && this.kind == kind && this.undo == undo && !committed && !closed && phase == Making
      ensures base == host.nodes
    {
      this.host, this.kind, this.undo, committed, closed, phase := host, kind, undo, false, false, Making;
      base := host.nodes;
    }

    ghost function View(): Held
      reads this
    {
      Held(undo, base, phase)
    }

    predicate Open() reads this { !committed && !closed }

    predicate Ended() reads this { !committed && closed }

    /** Closing a service's lease closes its handle too, and fails if that does not close. */
    predicate Jammed() { IsService(kind) && kind in host.stuck }

    /** A stage that keeps changes has them undone; one that made objects removes its files, then its directories,
        the last made first. On a sound host each directory is empty when its turn comes, so nothing fails; only a
        service's handle may still fail to close, with everything taken back. */
    method Close() returns (ok: bool)
      requires Open() && !host.broken ==> Intact(host.Now(), View())
      requires phase.Left? ==> kind == RunnerStorage
      modifies this, host
      ensures closed && committed == old(committed)
      ensures old(!Open()) ==> ok && host.Now() == old(host.Now()) && host.broken == old(host.broken)
      ensures old(Open()) ==> Breaks(old(host.broken), ok, host.broken, host.faulty, Jammed())
      ensures old(Open()) && !host.broken ==> host.Now() == Back(old(host.Now()), old(View()))
      ensures host.log == old(host.log) + [ClosedLease(kind)]
    {
      host.log := host.log + [ClosedLease(kind)];
      if closed { return true; }
      closed := true;
      if committed { return true; }
      match undo {
        case Changes(changes) =>
          ok := host.RollBack(changes);
          ok := ok && !Jammed();
          undo := Changes([]);
        case Created(staging) =>
          ok := RemoveAll(staging);
          ok := ok && !Jammed();
          undo := Created(staging.(files := [], directories := []));
      }
    }

    method RemoveAll(staging: Staging) returns (ok: bool)
      requires !host.broken ==> Intact(host.Now(), Held(Created(staging), base, phase))
      requires phase.Left? ==> kind == RunnerStorage
      modifies host`nodes, host`broken
      ensures old(host.broken) ==> host.broken
      ensures !old(host.broken) ==>
                if ok then host.nodes == base && !host.broken else host.broken && host.faulty
      ensures !ok ==> host.broken
    {
      ok := RemoveFiles(staging);
      var emptied := RemoveDirectories(staging);
      ok := ok && emptied;
    }

    method RemoveFiles(staging: Staging) returns (ok: bool)
      requires !host.broken ==> Intact(host.Now(), Held(Created(staging), base, phase))
      requires phase.Left? ==> kind == RunnerStorage
      modifies host`nodes, host`broken
      ensures old(host.broken) ==> host.broken
      ensures !old(host.broken) ==>
                if ok then !host.broken && Intact(host.Now(), Held(Created(staging.(files := [])), base, phase))
                else host.broken && host.faulty
      ensures !ok ==> host.broken
    {
      hide Ours, HasChild;
      ok := true;
      assert staging.(files := staging.files[..|staging.files|]) == staging;
      for i := |staging.files| downto 0
        invariant old(host.broken) ==> host.broken
        invariant !old(host.broken) && ok ==>
                    && !host.broken
                    && Intact(host.Now(), Held(Created(staging.(files := staging.files[..i])), base, phase))
        invariant !old(host.broken) && !ok ==> host.faulty
        invariant !ok ==> host.broken
      {
        ghost var s := staging.(files := staging.files[..i + 1]);
        if !old(host.broken) && ok { FileTakenBack(host.nodes, s, base, phase); }
        assert s.files[..i] == staging.files[..i];
        var removed := TakeAway(staging.files[i]);
        ok := ok && removed;
      }
    }

    method RemoveDirectories(staging: Staging) returns (ok: bool)
      requires !host.broken ==> Intact(host.Now(), Held(Created(staging.(files := [])), base, phase))
      requires phase.Left? ==> kind == RunnerStorage
      modifies host`nodes, host`broken
      ensures old(host.broken) ==> host.broken
      ensures !old(host.broken) ==> if ok then host.nodes == base && !host.broken else host.broken && host.faulty
      ensures !ok ==> host.broken
    {
      hide Ours, HasChild;
      ok := true;
      ghost var bare := staging.(files := []);
      assert bare.(directories := bare.directories[..|bare.directories|]) == bare;
      for i := |staging.directories| downto 0
        invariant old(host.broken) ==> host.broken
        invariant !old(host.broken) && ok ==>
                    && !host.broken
                    && Intact(host.Now(), Held(Created(bare.(directories := staging.directories[..i])), base, phase))
        invariant !old(host.broken) && !ok ==> host.faulty
        invariant !ok ==> host.broken
      {
        ghost var s := bare.(directories := staging.directories[..i + 1]);
        if !old(host.broken) && ok { DirectoryTakenBack(host.nodes, s, base, phase); }
        assert s.directories[..i] == staging.directories[..i];
        var removed := TakeAway(staging.directories[i]);
        ok := ok && removed;
      }
      if !old(host.broken) && ok { NothingLeft(base, host.nodes, staging.root, phase); }
    }

    /** The runner's storage skips what is already gone. */
    method TakeAway(path: Path) returns (ok: bool)
      modifies host`nodes, host`broken
      ensures ok ==> host.nodes == old(host.nodes) - {path} && host.broken == old(host.broken)
      ensures path in old(host.nodes) && ok ==> !HasChild(old(host.nodes), path)
      ensures !ok ==> host.nodes == old(host.nodes) && host.broken
      ensures !HasChild(old(host.nodes), path) && (path in old(host.nodes) || kind == RunnerStorage) && !ok ==>
                host.faulty
    {
      if kind == RunnerStorage && path !in host.nodes { return true; }
      ok := host.Remove(path);
    }

    /** Commit forgets how to go back. Only a service's handle can keep an open lease from it; the leases of
        accounts and of directory rights stay open, to be closed for nothing. */
    method Commit() returns (ok: bool)
      modifies this, host`log
      ensures ok <==> !old(closed) && !(IsService(kind) && kind in host.stuck)
      ensures ok ==> committed && host.log == old(host.log) + [CommittedLease(kind)]
      ensures ok ==> (closed <==> kind != Accounts && kind != Filesystem)
      ensures !ok ==>
                && committed == old(committed) && closed == old(closed) && undo == old(undo) && phase == old(phase)
                && host.log == old(host.log)
    {
      if closed { return false; }
      if IsService(kind) && kind in host.stuck { return false; }
      host.log := host.log + [CommittedLease(kind)];
      committed, closed := true, kind != Accounts && kind != Filesystem;
      undo := if undo.Changes? then Changes([]) else Created(undo.staging.(files := [], directories := []));
      ok := true;
    }

    /** A directory below one that the lease owns, or the lease's root itself. */
    method MakeDirectory(path: Path) returns (ok: bool)
      requires undo.Created? && !host.broken ==> Intact(host.Now(), View())
      requires phase == Making
      modifies this, host`nodes
      ensures committed == old(committed) && closed == old(closed) && phase == Making
      ensures Placing(old(undo), undo, old(host.nodes), host.nodes, DirectoryItem(path), ok)
      ensures host.willing && undo.Created? && !old(closed) ==>
                MayPlace(old(undo).staging, old(host.nodes), DirectoryItem(path)) ==> ok
      ensures undo.Created? && !host.broken ==>
                Intact(host.Now(), View()) && Back(host.Now(), View()) == old(Back(host.Now(), View()))
    {
      hide Ours;
      if closed || undo.Changes? { return false; }
      var s := undo.staging;
      if path in s.directories || path == [] || !(s.root <= path) { return false; }
      if if path == s.root then s.directories != [] else Parent(path) !in s.directories { return false; }
      ghost var before := host.nodes;
      var created;
      created, ok := host.Make(path, Directory);
      if created {
        undo := Created(WithDirectory(s, path));
        if !host.broken {
          if path == s.root { RootMade(before, s, base); } else { DirectoryMade(before, s, base, path); }
        }
      }
    }

    /** A file in a directory that the lease owns. */
    method MakeFile(path: Path, content: bytes) returns (ok: bool)
      requires undo.Created? && !host.broken ==> Intact(host.Now(), View())
      requires phase == Making
      modifies this, host`nodes
      ensures committed == old(committed) && closed == old(closed) && phase == Making
      ensures Placing(old(undo), undo, old(host.nodes), host.nodes, FileItem(path, content), ok)
      ensures host.willing && undo.Created? && !old(closed) ==>
                MayPlace(old(undo).staging, old(host.nodes), FileItem(path, content)) ==> ok
      ensures undo.Created? && !host.broken ==>
                Intact(host.Now(), View()) && Back(host.Now(), View()) == old(Back(host.Now(), View()))
    {
      hide Ours;
      if closed || undo.Changes? { return false; }
      var s := undo.staging;
      if path in s.directories || path == [] || !(s.root <= path) || Parent(path) !in s.directories { return false; }
      ghost var before := host.nodes;
      var created;
      created, ok := host.Make(path, File(content));
      if created {
        undo := Created(WithFile(s, path));
        if !host.broken { FileMade(before, s, base, path, content); }
      }
    }

    method Make(item: Item) returns (ok: bool)
      requires undo.Created? && !host.broken ==> Intact(host.Now(), View())
      requires phase == Making
      modifies this, host`nodes
      ensures committed == old(committed) && closed == old(closed) && phase == Making
      ensures Placing(old(undo), undo, old(host.nodes), host.nodes, item, ok)
      ensures host.willing && undo.Created? && !old(closed) ==>
                MayPlace(old(undo).staging, old(host.nodes), item) ==> ok
      ensures undo.Created? && !host.broken ==>
                Intact(host.Now(), View()) && Back(host.Now(), View()) == old(Back(host.Now(), View()))
    {
      match item {
        case DirectoryItem(path) => ok := MakeDirectory(path);
        case FileItem(path, content) => ok := MakeFile(path, content);
      }
    }

    /** SealGeneratedState: everything below the root is taken over, whoever made it. It succeeds exactly on an open
        lease whose root is there with files and directories only, and not too many of them, unless a native call
        fails; then the lists name all of it, every directory after the one it lies in, and nothing that is not
        there. */
    method Seal() returns (ok: bool)
      requires undo.Created? && undo.staging.root in undo.staging.directories
      modifies this`undo
      ensures undo.Created? && undo.staging.root == old(undo).staging.root
      ensures Adds(host.nodes, undo.staging.root, old(undo).staging, undo.staging)
      ensures ok && Closed(host.nodes) ==>
                && !closed && CanSeal(host.nodes, undo.staging.root)
                && Catalogued(host.nodes, undo.staging.root, undo.staging)
      ensures Closed(host.nodes) && !closed && undo.staging.root in host.nodes ==>
                CanSeal(host.nodes, undo.staging.root) && (!host.faulty || host.willing) ==> ok
      ensures old(Catalogued(host.nodes, undo.staging.root, undo.staging)) ==> undo == old(undo)
    {
      AddsNothing(host.nodes, undo.staging.root, undo.staging);
      if closed || undo.staging.root !in host.nodes { return false; }
      var t, count;
      ok, t, count := SealDirectory(host, undo.staging.root, undo.staging, 0);
      undo := Created(t);
    }

    /** What registration has the storage's lease do: the listener is run, if it can be started, and whatever it left
        is sealed. If that fails, what it left cannot be taken back. */
    method Tend(run: bool, removing: bool) returns (ok: bool)
      requires kind == RunnerStorage && Open() && undo.Created? && undo.staging.root in undo.staging.directories
      requires if removing then run && phase == Sealed else phase == Making
      requires host.Orderly() && (!host.broken ==> Intact(host.Now(), View()))
      modifies this`undo, this`phase, host`nodes, host`broken
      ensures undo.Created? && Extends(old(undo).staging, undo.staging)
      ensures phase == if !run then Making else if removing then Left else Sealed
      ensures host.nodes == if run then Listening(host.listener, removing, undo.staging.root, old(host.nodes))
                            else old(host.nodes)
      ensures host.broken == (old(host.broken) || (run && !ok))
      ensures host.broken && !old(host.broken) ==> host.faulty || !CanSeal(host.nodes, undo.staging.root)
      ensures !host.broken ==>
                && Intact(host.Now(), View()) && Back(host.Now(), View()) == old(Back(host.Now(), View()))
                && (ok ==> Catalogued(host.nodes, undo.staging.root, undo.staging))
      ensures !old(host.broken) && CanSeal(host.nodes, undo.staging.root) && (!host.faulty || host.willing) ==> ok
    {
      hide Owns, ListsAll, Confined, Catalogued, Adds, Loose, CanSeal, Outside, Listening;
      ghost var before, s := host.nodes, undo.staging;
      if !host.broken { OwnedRoot(before, s, base, phase); }
      if run { host.RunListener(undo.staging.root, removing); }
      if !host.broken {
        if run { StillLoose(host.listener, removing, before, s, base, phase); }
      }
      ok := Seal();
      AddsExtends(host.nodes, s.root, s, undo.staging, s.root);
      if run {
        phase := if removing then Left else Sealed;
        if !ok { host.broken := true; }
        if !host.broken {
          if removing { Tightened(host.nodes, s, undo.staging, base); }
          else { TightenedOwns(host.nodes, s, undo.staging, base); }
        }
      }
    }
  }

  /** While it is owned in full, the root is there, and its lists are complete. */
  lemma OwnedRoot(nodes: Tree, s: Staging, base: Tree, phase: Phase)
    requires Ours(nodes, s, base, phase) || Untouched(nodes, s, base)
    requires s.root in s.directories && !phase.Left?
    ensures Ours(nodes, s, base, phase) && s.root in nodes && nodes[s.root].Directory? && Closed(nodes)
    ensures Catalogued(nodes, s.root, s)
  {
    hide ParentsFirst, Distinct, Outside, CanSeal;
  }

  /** A run of the listener leaves everything but the lists in order. */
  lemma StillLoose(listener: Listener, removing: bool, before: Tree, s: Staging, base: Tree, phase: Phase)
    requires StaysBelow(listener) && Ours(before, s, base, phase) && !phase.Left?
    requires s.root in s.directories && s.root in before && before[s.root].Directory?
    ensures var later := Listening(listener, removing, s.root, before);
            && Closed(later) && s.root in later && Loose(later, s, base)
            && (!removing ==> AllFiles(later, s.files) && AllDirectories(later, s.directories) && Distinct(s.files))
  {
    hide CanSeal, ParentsFirst, Distinct, Listening;
    var later := Listening(listener, removing, s.root, before);
    assert Confined(before, later, s.root);
    assert forall p :: p in before ==> if p in later then SameKind(before[p], later[p]) else removing;
    hide StaysBelow;
    assert Outside(base, later, s.root) by { hide Owns, Closed; }
  }

  lemma FileTakenBack(nodes: Tree, s: Staging, base: Tree, phase: Phase)
    requires Ours(nodes, s, base, phase) && s.files != []
    ensures var last := s.files[|s.files| - 1];
            && (phase.Left? || last in nodes) && !HasChild(nodes, last)
            && Ours(nodes - {last}, s.(files := s.files[..|s.files| - 1]), base, phase)
  {
    var last := s.files[|s.files| - 1];
    if last in nodes { FilesHaveNoChildren(nodes, last); } else { MissingHasNoChildren(nodes, last); }
    ClosedAfterRemove(nodes, last);
    OutsideAfterRemove(base, nodes, s.root, last);
    if CanSeal(nodes, s.root) { CanSealLess(nodes, s.root, last); }
    hide CanSeal;
    if phase.Left? { DropLastFile(nodes, s); } else { RemoveLastFile(nodes, s); }
  }

  lemma CanSealLess(nodes: Tree, root: Path, path: Path)
    requires CanSeal(nodes, root)
    ensures CanSeal(nodes - {path}, root)
  {
    PartIsNoLarger(Below(nodes - {path}, root), Below(nodes, root));
  }

  lemma MissingHasNoChildren(nodes: Tree, path: Path)
    requires Closed(nodes) && path !in nodes && path != []
    ensures !HasChild(nodes, path)
  {
    forall p | p in nodes && p != [] ensures Parent(p) != path {
      assert IsDirectory(nodes, Parent(p));
    }
  }

  /** With the files gone, the directory listed last is empty, if it is still there. */
  lemma DirectoryTakenBack(nodes: Tree, s: Staging, base: Tree, phase: Phase)
    requires Ours(nodes, s, base, phase) && s.files == [] && s.directories != []
    ensures var last := s.directories[|s.directories| - 1];
            && (phase.Left? || last in nodes) && !HasChild(nodes, last)
            && Ours(nodes - {last}, s.(directories := s.directories[..|s.directories| - 1]), base, phase)
  {
    var last := s.directories[|s.directories| - 1];
    if CanSeal(nodes, s.root) { CanSealLess(nodes, s.root, last); }
    hide CanSeal;
    if phase.Left? {
      LastTrackedIsEmpty(nodes, s);
      DropLastDirectory(nodes, s);
    } else {
      LastDirectoryIsEmpty(nodes, s);
      RemoveLastDirectory(nodes, s);
    }
    ClosedAfterRemove(nodes, last);
    OutsideAfterRemove(base, nodes, s.root, last);
  }

  lemma NothingLeft(base: Tree, nodes: Tree, root: Path, phase: Phase)
    requires Ours(nodes, Staging(root, [], []), base, phase) || nodes == base
    ensures nodes == base
  {
    if nodes != base { NothingListed(base, nodes, root); }
  }

  lemma RootMade(nodes: Tree, s: Staging, base: Tree)
    requires Ours(nodes, s, base, Making) || Untouched(nodes, s, base)
    requires s.directories == [] && s.root !in nodes && IsDirectory(nodes, Parent(s.root))
    ensures Ours(nodes[s.root := Directory], WithDirectory(s, s.root), base, Making)
  {
    ClosedAfterCreate(nodes, s.root, Directory);
    FreshRoot(nodes, s.root);
    if Ours(nodes, s, base, Making) { OutsideAfterWrite(base, nodes, s.root, s.root, Directory); }
  }

  lemma DirectoryMade(nodes: Tree, s: Staging, base: Tree, path: Path)
    requires Ours(nodes, s, base, Making) && s.root < path
    requires path !in nodes && path != [] && IsDirectory(nodes, Parent(path))
    ensures Ours(nodes[path := Directory], WithDirectory(s, path), base, Making)
  {
    ClosedAfterCreate(nodes, path, Directory);
    OutsideAfterWrite(base, nodes, s.root, path, Directory);
    OwnsNewDirectory(nodes, s, path);
  }

  lemma FileMade(nodes: Tree, s: Staging, base: Tree, path: Path, content: bytes)
    requires Ours(nodes, s, base, Making) && s.root <= path
    requires path !in nodes && path != [] && IsDirectory(nodes, Parent(path))
    ensures Ours(nodes[path := File(content)], WithFile(s, path), base, Making)
  {
    ClosedAfterCreate(nodes, path, File(content));
    OutsideAfterWrite(base, nodes, s.root, path, File(content));
    OwnsNewFile(nodes, s, path);
    OwnsAfterAppend(nodes[path := File([])], WithFile(s, path), path, content);
    assert Appended(nodes[path := File([])], path, content) == nodes[path := File(content)] by {
      assert [] + content == content;
    }
  }

  // ----- Provisioning one stage -----

  function Applied(objects: Objects, targets: seq<Target>): Objects
  {
    if targets == [] then objects
    else
      var last := targets[|targets| - 1];
      Applied(objects, targets[..|targets| - 1])[last.name := last.content]
  }

  /** Provision of a stage that keeps changes: one per target in order; a failure or a cancellation on the way undoes
      the earlier ones. */
  method Provision(host: Host, kind: Kind, targets: seq<Target>) returns (lease: StageLease?)
    requires !Stores(kind)
    modifies host
    ensures lease != null ==>
              && fresh(lease) && lease.host == host && lease.kind == kind && lease.Open() && lease.undo.Changes?
              && lease.phase == Making
              && host.log == old(host.log) + [Acquired(kind)] && host.broken == old(host.broken)
              && Back(host.Now(), lease.View()) == old(host.Now())
              && host.Now() == Machine(Applied(old(host.objects), targets), old(host.nodes))
    ensures host.willing ==> lease != null
    ensures lease == null ==> old(host.broken) ==> host.broken
    ensures lease == null && !host.broken ==> host.Now() == old(host.Now())
    ensures host.broken ==> old(host.broken) || host.faulty
    ensures lease == null ==> host.log == old(host.log) + [ClosedLease(kind)]
  {
    hide Ours, Untouched;
    var attempt := new StageLease(host, kind, Changes([]));
    for i := 0 to |targets|
      invariant attempt.undo.Changes? && UndoneAll(host.objects, attempt.undo.changes) == old(host.objects)
      invariant host.broken == old(host.broken) && host.log == old(host.log) && host.nodes == old(host.nodes)
      invariant attempt.Open() && attempt.phase == Making && host.objects == Applied(old(host.objects), targets[..i])
    {
      var ok := host.Check();
      if ok {
        var recorded: seq<Change>;
        ok, recorded := host.Apply(targets[i], attempt.undo.changes);
        attempt.undo := Changes(recorded);
      }
      if !ok {
        var _ := attempt.Close();
        return null;
      }
      assert targets[..i + 1][..i] == targets[..i];
    }
    assert targets[..|targets|] == targets;
    host.log := host.log + [Acquired(kind)];
    lease := attempt;
  }

  /** Provision of a stage that makes objects: each item below a directory already made, or everything made so far is
      removed again. */
  method ProvisionTree(host: Host, kind: Kind, root: Path, items: seq<Item>) returns (lease: StageLease?)
    requires Stores(kind) && root != [] && (!host.broken ==> Closed(host.nodes))
    modifies host
    ensures lease != null ==>
              && fresh(lease) && lease.host == host && lease.kind == kind && lease.Open() && lease.undo.Created?
              && lease.phase == Making
              && host.log == old(host.log) + [Acquired(kind)] && host.broken == old(host.broken)
              && (!host.broken ==>
                    Intact(host.Now(), lease.View()) && Back(host.Now(), lease.View()) == old(host.Now()))
              && host.Now() == Machine(old(host.objects), AllPlaced(old(host.nodes), items))
              && lease.undo == Created(AllNoted(Staging(root, [], []), items))
    ensures host.willing && AllMayBePlaced(Staging(root, [], []), old(host.nodes), items) ==> lease != null
    ensures lease == null ==> old(host.broken) ==> host.broken
    ensures lease == null && !host.broken ==> host.Now() == old(host.Now())
    ensures host.broken ==> old(host.broken) || host.faulty
    ensures lease == null ==> host.log == old(host.log) + [ClosedLease(kind)]
  {
    hide Ours;
    var attempt := new StageLease(host, kind, Created(Staging(root, [], [])));
    for i := 0 to |items|
      invariant attempt.Open() && attempt.phase == Making
      invariant attempt.undo == Created(AllNoted(Staging(root, [], []), items[..i]))
      invariant host.Now() == Machine(old(host.objects), AllPlaced(old(host.nodes), items[..i]))
      invariant host.broken == old(host.broken) && host.log == old(host.log)
      invariant !host.broken ==>
                  Intact(host.Now(), attempt.View()) && Back(host.Now(), attempt.View()) == old(host.Now())
    {
      var ok := host.Check();
      if ok { ok := attempt.Make(items[i]); }
      if !ok {
        var _ := attempt.Close();
        return null;
      }
      assert items[..i + 1][..i] == items[..i];
    }
    assert items[..|items|] == items;
    host.log := host.log + [Acquired(kind)];
    lease := attempt;
  }
}
