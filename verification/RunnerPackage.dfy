/** internal/runnerpackage: which archives are accepted, and why the accepted ones can be extracted in order. */
module RunnerPackage {
  import opened Protocol
  import opened Segments
  import opened Sorting
  import opened PlatformPath

  const MAX_EXPANDED_BYTES := 1024 * 1024 * 1024
  const MAX_FILE_BYTES := 256 * 1024 * 1024
  const MAX_ENTRIES := 8192
  const MAX_ENTRY_PATH_BYTES := 1024
  const MAX_PATH_DEPTH := 32

  const REQUIRED_FILES := ["bin/Runner.Listener.exe", "bin/RunnerService.exe"]
  const RESERVED_RUNTIME_ROOTS :=
    {".credentials", ".credentials_rsaparams", ".runner", ".service", "_diag", "_work", "responses"}

  /** What of a zip entry's header is looked at; `size` is its uncompressed size. */
  datatype ZipEntry = ZipEntry(name: string, formatOk: bool, isDirectory: bool, isRegular: bool, size: nat)

  datatype Item = Item(name: string, directory: bool, size: nat)

  // ----- Entry names -----

  /** The position of the last slash, or -1. */
  function LastSlash(name: string): (at: int)
    ensures -1 <= at < |name| && (at >= 0 ==> name[at] == '/')
    ensures forall k :: at < k < |name| ==> name[k] != '/'
  {
    if name == "" then -1
    else if name[|name| - 1] == '/' then |name| - 1
    else LastSlash(name[..|name| - 1])
  }

  /** path.Dir of a clean relative name that has a directory. */
  function Parent(name: string): string
    requires LastSlash(name) >= 0
  {
    name[..LastSlash(name)]
  }

  function Ancestors(name: string): set<string>
    decreases |name|
  {
    if LastSlash(name) < 0 then {} else {Parent(name)} + Ancestors(Parent(name))
  }

  function Depth(name: string): nat
  {
    if name == "" then 0 else Depth(name[..|name| - 1]) + if name[|name| - 1] == '/' then 1 else 0
  }

  lemma {:induction false} DepthUpTo(name: string, n: nat)
    requires n <= |name| && forall k :: n <= k < |name| ==> name[k] != '/'
    ensures Depth(name) == Depth(name[..n])
    decreases |name|
  {
    if n < |name| {
      DepthUpTo(name[..|name| - 1], n);
      assert name[..|name| - 1][..n] == name[..n];
    } else {
      assert name[..n] == name;
    }
  }

  lemma ParentDepth(name: string)
    requires LastSlash(name) >= 0
    ensures Depth(name) == Depth(Parent(name)) + 1
  {
    var at := LastSlash(name);
    DepthUpTo(name, at + 1);
    assert name[..at + 1][..at] == name[..at];
  }

  lemma {:induction false} AncestorsShorter(name: string, ancestor: string)
    requires ancestor in Ancestors(name)
    ensures |ancestor| < |name|
    ensures Ancestors(ancestor) <= Ancestors(name)
    ensures LastSlash(ancestor) >= 0 ==> Parent(ancestor) in Ancestors(name)
    decreases |name|
  {
    if ancestor != Parent(name) {
      AncestorsShorter(Parent(name), ancestor);
    }
  }

  predicate CleanSegment(segment: string) { segment != "" && segment != "." && segment != ".." }

  /** validateEntry */
  function ItemOf(validUtf8: string -> bool, entry: ZipEntry): Option<Item>
  {
    var directory := entry.name != "" && entry.name[|entry.name| - 1] == '/';
    var name := if directory then entry.name[..|entry.name| - 1] else entry.name;
    var segments := Split(name, '/');
    if !entry.formatOk || |entry.name| == 0 || |entry.name| > MAX_ENTRY_PATH_BYTES
       || '\\' in entry.name || ':' in entry.name || '\0' in entry.name || entry.name[0] == '/' then None
    else if name == "" || |segments| > MAX_PATH_DEPTH
            || (exists k :: 0 <= k < |segments| && !CleanSegment(segments[k]))
            || Lower(segments[0]) in RESERVED_RUNTIME_ROOTS
            || !AbsoluteValid(validUtf8, Windows, "C:\\runner\\" + Join(segments, '\\')) then None
    else if directory then
      if entry.isDirectory && entry.size == 0 then Some(Item(name, true, 0)) else None
    else if entry.isRegular && entry.size <= MAX_FILE_BYTES then Some(Item(name, false, entry.size))
    else None
  }

  // ----- What the four maps hold -----

  function Files(items: seq<Item>): set<string>
  {
    if items == [] then {}
    else Files(items[..|items| - 1]) + if items[|items| - 1].directory then {} else {items[|items| - 1].name}
  }

  function Explicit(items: seq<Item>): set<string>
  {
    if items == [] then {}
    else Explicit(items[..|items| - 1]) + if items[|items| - 1].directory then {items[|items| - 1].name} else {}
  }

  function FileAncestors(items: seq<Item>): set<string>
  {
    if items == [] then {}
    else
      FileAncestors(items[..|items| - 1])
      + if items[|items| - 1].directory then {} else Ancestors(items[|items| - 1].name)
  }

  function Directories(items: seq<Item>): set<string> { Explicit(items) + FileAncestors(items) }

  function Names(items: seq<Item>): set<string> { Files(items) + Directories(items) }

  function ExpandedSize(items: seq<Item>): nat
  {
    if items == [] then 0 else ExpandedSize(items[..|items| - 1]) + items[|items| - 1].size
  }

  predicate DistinctNames(items: seq<Item>)
  {
    forall i, j :: 0 <= i < j < |items| ==> items[i].name != items[j].name
  }

  ghost predicate CaseUnique(names: set<string>)
  {
    forall x, y :: x in names && y in names && Lower(x) == Lower(y) ==> x == y
  }

  /** What the entry loop accepts, without its maps: no name twice, no two names that differ in case only, no file
      that is also a directory, and a bounded total. */
  ghost predicate Acceptable(items: seq<Item>)
  {
    && DistinctNames(items) && CaseUnique(Names(items)) && Files(items) !! Directories(items)
    && ExpandedSize(items) <= MAX_EXPANDED_BYTES
  }

  /** caseNames maps each folded name to the one name it stands for. */
  ghost predicate CaseMap(caseNames: map<string, string>, names: set<string>)
  {
    && (forall n :: n in names ==> Lower(n) in caseNames && caseNames[Lower(n)] == n)
    && (forall k :: k in caseNames ==> caseNames[k] in names && Lower(caseNames[k]) == k)
  }

  lemma CaseMapUnique(caseNames: map<string, string>, names: set<string>)
    requires CaseMap(caseNames, names)
    ensures CaseUnique(names)
  {
  }

  lemma CaseMapWith(caseNames: map<string, string>, names: set<string>, name: string)
    requires CaseMap(caseNames, names) && (Lower(name) in caseNames ==> caseNames[Lower(name)] == name)
    ensures CaseMap(caseNames[Lower(name) := name], names + {name})
  {
  }

  /** A clash the map reports is a clash among the names. */
  lemma CaseClash(caseNames: map<string, string>, names: set<string>, name: string, all: set<string>)
    requires CaseMap(caseNames, names) && Lower(name) in caseNames && caseNames[Lower(name)] != name
    requires names <= all && name in all
    ensures !CaseUnique(all)
  {
    assert caseNames[Lower(name)] in all;
  }

  lemma {:induction false} SetsGrow(items: seq<Item>, i: nat)
    requires i <= |items|
    ensures Files(items[..i]) <= Files(items) && Explicit(items[..i]) <= Explicit(items)
    ensures FileAncestors(items[..i]) <= FileAncestors(items) && ExpandedSize(items[..i]) <= ExpandedSize(items)
    decreases |items|
  {
    if i < |items| {
      assert items[..|items| - 1][..i] == items[..i];
      SetsGrow(items[..|items| - 1], i);
    } else {
      assert items[..i] == items;
    }
  }

  lemma {:induction false} NamesListed(items: seq<Item>, name: string)
    ensures name in Files(items) <==> exists k :: 0 <= k < |items| && items[k].name == name && !items[k].directory
    ensures name in Explicit(items) <==> exists k :: 0 <= k < |items| && items[k].name == name && items[k].directory
    ensures name in FileAncestors(items) <==>
              exists k :: 0 <= k < |items| && !items[k].directory && name in Ancestors(items[k].name)
  {
    if items != [] {
      var front := items[..|items| - 1];
      NamesListed(front, name);
      assert forall k :: 0 <= k < |front| ==> front[k] == items[k];
    }
  }

  // ----- Inspection -----

  datatype Maps = Maps(
    directorySet: set<string>, explicitDirectorySet: set<string>, fileSet: set<string>,
    caseNames: map<string, string>, expanded: nat)

  /** The maps after the entry loop has accepted these items. */
  ghost predicate MapsHold(maps: Maps, items: seq<Item>)
  {
    && maps.directorySet == Directories(items) && maps.explicitDirectorySet == Explicit(items)
    && maps.fileSet == Files(items) && CaseMap(maps.caseNames, Names(items)) && maps.expanded == ExpandedSize(items)
  }

  /** The loop over a file's ancestors. */
  method AddAncestors(name: string, fileSet: set<string>, caseNames: map<string, string>, directorySet: set<string>,
                      ghost names: set<string>)
    returns (ok: bool, newCaseNames: map<string, string>, newDirectorySet: set<string>)
    requires CaseMap(caseNames, names)
    ensures ok ==> CaseMap(newCaseNames, names + Ancestors(name)) && newDirectorySet == directorySet + Ancestors(name)
    ensures ok ==> Ancestors(name) !! fileSet
    ensures !ok ==> !(Ancestors(name) !! fileSet) || !CaseUnique(names + Ancestors(name))
  {
    hide CaseMap;
    newCaseNames, newDirectorySet := caseNames, directorySet;
    var child := name;
    ghost var seen: set<string> := {};
    assert names + {} == names;
    while LastSlash(child) >= 0
      invariant seen + Ancestors(child) == Ancestors(name) && seen !! fileSet
      invariant CaseMap(newCaseNames, names + seen) && newDirectorySet == directorySet + seen
      decreases |child|
    {
      var parent := Parent(child);
      assert parent in Ancestors(name);
      if parent in fileSet { return false, newCaseNames, newDirectorySet; }
      if Lower(parent) in newCaseNames && newCaseNames[Lower(parent)] != parent {
        CaseClash(newCaseNames, names + seen, parent, names + Ancestors(name));
        return false, newCaseNames, newDirectorySet;
      }
      CaseMapWith(newCaseNames, names + seen, parent);
      newCaseNames := newCaseNames[Lower(parent) := parent];
      newDirectorySet := newDirectorySet + {parent};
      assert names + seen + {parent} == names + (seen + {parent});
      seen := seen + {parent};
      child := parent;
    }
    ok := true;
  }

  /** One more item's effect on the sets. */
  lemma SetsWith(items: seq<Item>, item: Item)
    ensures var all := items + [item];
            && Files(all) == Files(items) + (if item.directory then {} else {item.name})
            && Explicit(all) == Explicit(items) + (if item.directory then {item.name} else {})
            && FileAncestors(all) == FileAncestors(items) + (if item.directory then {} else Ancestors(item.name))
            && ExpandedSize(all) == ExpandedSize(items) + item.size
  {
    assert (items + [item])[..|items|] == items;
  }

  lemma DistinctWith(items: seq<Item>, item: Item)
    ensures DistinctNames(items + [item]) <==>
              DistinctNames(items) && item.name !in Files(items) && item.name !in Explicit(items)
  {
    NamesListed(items, item.name);
    var all := items + [item];
    assert forall k :: 0 <= k < |items| ==> all[k] == items[k];
    if DistinctNames(all) {
      forall k | 0 <= k < |items| ensures items[k].name != item.name {
        assert all[k].name != all[|items|].name;
      }
    }
  }

  /** The body of the entry loop: it goes on exactly as long as the items so far are acceptable. */
  method AddItem(maps: Maps, item: Item, ghost items: seq<Item>) returns (ok: bool, after: Maps)
    requires Acceptable(items) && MapsHold(maps, items) && (item.directory ==> item.size == 0)
    ensures ok <==> Acceptable(items + [item])
    ensures ok ==> MapsHold(after, items + [item])
  {
    hide CaseMap, CaseUnique, Files, Explicit, FileAncestors, ExpandedSize, DistinctNames, Ancestors, Lower;
    SetsWith(items, item);
    DistinctWith(items, item);
    after := maps;
    ghost var all := Names(items + [item]);
    if Lower(item.name) in maps.caseNames && maps.caseNames[Lower(item.name)] != item.name {
      CaseClash(maps.caseNames, Names(items), item.name, all);
      return false, after;
    }
    CaseMapWith(maps.caseNames, Names(items), item.name);
    var caseNames := maps.caseNames[Lower(item.name) := item.name];
    if item.directory {
      if item.name in maps.explicitDirectorySet || item.name in maps.fileSet { return false, after; }
      assert Names(items) + {item.name} == all;
      CaseMapUnique(caseNames, all);
      after := Maps(maps.directorySet + {item.name}, maps.explicitDirectorySet + {item.name}, maps.fileSet, caseNames,
                    maps.expanded);
      assert after.directorySet == Directories(items + [item]);
      return true, after;
    }
    ok, after := AddFile(maps, item, caseNames, items);
  }

  method AddFile(maps: Maps, item: Item, caseNames: map<string, string>, ghost items: seq<Item>)
    returns (ok: bool, after: Maps)
    requires Acceptable(items) && MapsHold(maps, items) && !item.directory
    requires CaseMap(caseNames, Names(items) + {item.name})
    ensures ok <==> Acceptable(items + [item])
    ensures ok ==> MapsHold(after, items + [item])
  {
    hide CaseMap, CaseUnique, Files, Explicit, FileAncestors, ExpandedSize, DistinctNames, Ancestors, Lower;
    SetsWith(items, item);
    DistinctWith(items, item);
    after := maps;
    ghost var names, ancestors := Names(items) + {item.name}, Ancestors(item.name);
    assert names + ancestors == Names(items + [item]);
    if item.name in maps.fileSet { return false, after; }
    var fileSet := maps.fileSet + {item.name};
    if item.name in maps.directorySet { return false, after; }
    if maps.expanded + item.size > MAX_EXPANDED_BYTES { return false, after; }
    var newCaseNames, newDirectorySet;
    ok, newCaseNames, newDirectorySet := AddAncestors(item.name, fileSet, caseNames, maps.directorySet, names);
    if !ok { return; }
    CaseMapUnique(newCaseNames, names + ancestors);
    after := Maps(newDirectorySet, maps.explicitDirectorySet, fileSet, newCaseNames, maps.expanded + item.size);
    assert newDirectorySet == Directories(items + [item]);
  }

  datatype ImageFile = ImageFile(path: string, index: nat, size: nat)

  datatype Image = Image(directories: seq<string>, files: seq<ImageFile>)

  /** The items of an archive all of whose entries are valid. */
  function Items(validUtf8: string -> bool, entries: seq<ZipEntry>): (items: seq<Item>)
    requires forall k :: 0 <= k < |entries| ==> ItemOf(validUtf8, entries[k]).Some?
    ensures |items| == |entries|
  {
    seq(|entries|, k requires 0 <= k < |entries| => ItemOf(validUtf8, entries[k]).value)
  }

  ghost predicate ArchiveAcceptable(validUtf8: string -> bool, entries: seq<ZipEntry>)
  {
    && 0 < |entries| <= MAX_ENTRIES && (forall k :: 0 <= k < |entries| ==> ItemOf(validUtf8, entries[k]).Some?)
    && Acceptable(Items(validUtf8, entries))
    && forall k :: 0 <= k < |REQUIRED_FILES| ==> REQUIRED_FILES[k] in Files(Items(validUtf8, entries))
  }

  function FileList(items: seq<Item>): (files: seq<ImageFile>)
  {
    if items == [] then []
    else
      var last := items[|items| - 1];
      FileList(items[..|items| - 1]) + if last.directory then [] else [ImageFile(last.name, |items| - 1, last.size)]
  }

  predicate DirectoryLess(a: string, b: string)
  {
    Depth(a) < Depth(b) || (Depth(a) == Depth(b) && StringLess(a, b))
  }

  predicate FileLess(a: ImageFile, b: ImageFile) { StringLess(a.path, b.path) }

  lemma DirectoryOrder()
    ensures WeakOrder(DirectoryLess)
  {
    hide StringLess, Depth;
    StringOrder();
    forall x, y | DirectoryLess(x, y) ensures !DirectoryLess(y, x) {
    }
    forall x, y, z | !DirectoryLess(y, x) && !DirectoryLess(z, y) ensures !DirectoryLess(z, x) {
    }
  }

  lemma FileOrder()
    ensures WeakOrder(FileLess)
  {
    hide StringLess;
    StringOrder();
    forall x, y, z | !FileLess(y, x) && !FileLess(z, y) ensures !FileLess(z, x) {
      assert !StringLess(y.path, x.path) && !StringLess(z.path, y.path);
    }
  }

  /** The keys of a set, in the order an iteration happens to take. */
  method Collected(names: set<string>) returns (list: seq<string>)
    ensures forall n :: n in list <==> n in names
    ensures DistinctStrings(list)
  {
    list := [];
    var remaining := names;
    while remaining != {}
      invariant remaining <= names && DistinctStrings(list)
      invariant forall n :: n in list <==> n in names && n !in remaining
      decreases |remaining|
    {
      var n :| n in remaining;
      list, remaining := list + [n], remaining - {n};
    }
  }

  /** What an accepted image lists. */
  ghost predicate Lists(image: Image, items: seq<Item>)
  {
    && (forall d :: d in image.directories <==> d in Directories(items))
    && DistinctStrings(image.directories) && Sorted(DirectoryLess, image.directories)
    && multiset(image.files) == multiset(FileList(items)) && Sorted(FileLess, image.files)
  }

  /** inspect, from the entry loop on: an archive is accepted exactly when it is acceptable. */
  method Inspect(validUtf8: string -> bool, entries: seq<ZipEntry>) returns (image: Option<Image>)
    ensures image.Some? <==> ArchiveAcceptable(validUtf8, entries)
    ensures image.Some? ==> Lists(image.value, Items(validUtf8, entries))
  {
    hide Acceptable, MapsHold, ItemOf, Lists;
    if |entries| == 0 || |entries| > MAX_ENTRIES { return None; }
    var maps := Maps({}, {}, {}, map[], 0);
    NothingYet(maps);
    var files: seq<ImageFile> := [];
    ghost var items: seq<Item> := [];
    for i := 0 to |entries|
      invariant |items| == i && forall k :: 0 <= k < i ==> ItemOf(validUtf8, entries[k]) == Some(items[k])
      invariant Acceptable(items) && MapsHold(maps, items) && files == FileList(items)
    {
      var item := ItemOf(validUtf8, entries[i]);
      if item.None? { return None; }
      EmptyDirectories(validUtf8, entries[i]);
      var ok: bool;
      ghost var all := items + [item.value];
      ok, maps := AddItem(maps, item.value, items);
      if !ok {
        StillUnacceptable(validUtf8, entries, all);
        return None;
      }
      assert all[..i] == items;
      if !item.value.directory { files := files + [ImageFile(item.value.name, i, item.value.size)]; }
      items := all;
    }
    assert items == Items(validUtf8, entries);
    assert maps.fileSet == Files(items) && maps.directorySet == Directories(items) by { MapsSets(maps, items); }
    for k := 0 to |REQUIRED_FILES|
      invariant forall j :: 0 <= j < k ==> REQUIRED_FILES[j] in Files(items)
    {
      if REQUIRED_FILES[k] !in maps.fileSet { return None; }
    }
    var directories := Collected(maps.directorySet);
    image := Some(Image(Sort(DirectoryLess, directories), Sort(FileLess, files)));
    SortedImage(directories, items);
  }

  lemma MapsSets(maps: Maps, items: seq<Item>)
    requires MapsHold(maps, items)
    ensures maps.fileSet == Files(items) && maps.directorySet == Directories(items)
  {
  }

  lemma NothingYet(maps: Maps)
    requires maps == Maps({}, {}, {}, map[], 0)
    ensures Acceptable([]) && MapsHold(maps, [])
  {
    assert Names([]) == {};
  }

  lemma EmptyDirectories(validUtf8: string -> bool, entry: ZipEntry)
    requires ItemOf(validUtf8, entry).Some?
    ensures ItemOf(validUtf8, entry).value.directory ==> ItemOf(validUtf8, entry).value.size == 0
  {
  }

  /** A rejected beginning is never made good by later entries. */
  lemma StillUnacceptable(validUtf8: string -> bool, entries: seq<ZipEntry>, items: seq<Item>)
    requires |items| <= |entries| && !Acceptable(items)
    requires forall k :: 0 <= k < |items| ==> ItemOf(validUtf8, entries[k]) == Some(items[k])
    ensures !ArchiveAcceptable(validUtf8, entries)
  {
    hide ItemOf, CaseUnique, Lower;
    if forall k :: 0 <= k < |entries| ==> ItemOf(validUtf8, entries[k]).Some? {
      var all := Items(validUtf8, entries);
      assert all[..|items|] == items;
      SetsGrow(all, |items|);
      FewerNames(Names(items), Names(all));
      assert forall k :: 0 <= k < |items| ==> items[k] == all[k];
      assert DistinctNames(all) ==> DistinctNames(items);
    }
  }

  lemma FewerNames(some: set<string>, all: set<string>)
    requires some <= all
    ensures CaseUnique(all) ==> CaseUnique(some)
  {
  }

  lemma SortedImage(directories: seq<string>, items: seq<Item>)
    requires DistinctStrings(directories) && forall d :: d in directories <==> d in Directories(items)
    ensures Lists(Image(Sort(DirectoryLess, directories), Sort(FileLess, FileList(items))), items)
  {
    hide StringLess, Depth, DirectoryLess, FileLess, Directories, WeakOrder;
    DirectoryOrder();
    FileOrder();
    SortSorts(DirectoryLess, directories);
    SortSorts(FileLess, FileList(items));
    SameElements(Sort(DirectoryLess, directories), directories);
    SortKeepsDistinct(directories);
  }

  lemma SortKeepsDistinct(list: seq<string>)
    requires DistinctStrings(list)
    ensures DistinctStrings(Sort(DirectoryLess, list))
  {
    hide StringLess, Depth, DirectoryLess;
    var same := (x: string, y: string) => x == y;
    assert Apart(same, list);
    SortApart(DirectoryLess, same, list);
    var sorted := Sort(DirectoryLess, list);
    forall a, b | 0 <= a < b < |sorted| ensures sorted[a] != sorted[b] {
      assert !same(sorted[a], sorted[b]);
    }
  }

  // ----- What acceptance guarantees -----

  /** A listed directory whose parent is listed too comes after it. */
  lemma ParentListedFirst(image: Image, items: seq<Item>, d: nat)
    requires Lists(image, items) && d < |image.directories|
    requires LastSlash(image.directories[d]) >= 0 && Parent(image.directories[d]) in Directories(items)
    ensures exists p :: 0 <= p < d && image.directories[p] == Parent(image.directories[d])
  {
    hide Directories, StringLess, Files, FileList;
    var parent := Parent(image.directories[d]);
    var p :| 0 <= p < |image.directories| && image.directories[p] == parent;
    ParentDepth(image.directories[d]);
    assert DirectoryLess(parent, image.directories[d]);
  }

  /** Every ancestor of every file is listed, after its own parent. */
  lemma AncestorsListedInOrder(image: Image, items: seq<Item>, file: ImageFile, ancestor: string)
    requires Lists(image, items) && file in image.files && ancestor in Ancestors(file.path)
    ensures exists d :: 0 <= d < |image.directories| && image.directories[d] == ancestor &&
              (LastSlash(ancestor) >= 0 ==> exists p :: 0 <= p < d && image.directories[p] == Parent(ancestor))
  {
    SameElements(image.files, FileList(items));
    FileListed(items, file);
    NamesListed(items, ancestor);
    hide Directories, FileList, DirectoryLess;
    assert ancestor in Directories(items) by { InDirectories(items, ancestor); }
    var d :| 0 <= d < |image.directories| && image.directories[d] == ancestor;
    if LastSlash(ancestor) >= 0 {
      AncestorsShorter(file.path, ancestor);
      NamesListed(items, Parent(ancestor));
      InDirectories(items, Parent(ancestor));
      ParentListedFirst(image, items, d);
    }
  }

  lemma InDirectories(items: seq<Item>, name: string)
    requires name in FileAncestors(items) || name in Explicit(items)
    ensures name in Directories(items)
  {
  }

  lemma {:induction false} FileListed(items: seq<Item>, file: ImageFile)
    ensures file in FileList(items) <==>
              file.index < |items| && !items[file.index].directory
              && file.path == items[file.index].name && file.size == items[file.index].size
  {
    if items != [] {
      var front := items[..|items| - 1];
      FileListed(front, file);
      assert file.index < |front| ==> front[file.index] == items[file.index];
    }
  }

  /** Accepted archives: files and directories are disjoint, and names and file ancestors differ by more than case. */
  lemma AcceptedNamesApart(items: seq<Item>, i: nat, j: nat)
    requires Acceptable(items) && i < |items| && j < |items| && !items[i].directory
    ensures items[i].name !in Ancestors(items[j].name) || items[j].directory
    ensures Lower(items[i].name) == Lower(items[j].name) ==> i == j
    ensures !items[j].directory ==> forall a :: a in Ancestors(items[j].name) ==> Lower(a) != Lower(items[i].name)
  {
    NamesListed(items, items[i].name);
    NamesListed(items, items[j].name);
    assert items[i].name in Files(items);
    if !items[j].directory {
      forall a | a in Ancestors(items[j].name) ensures Lower(a) != Lower(items[i].name) {
        NamesListed(items, a);
        assert a in FileAncestors(items);
      }
    }
  }

  // ----- Extraction -----

  /** The path of that name under a root of so many bytes is not too long. */
  predicate Fits(rootBytes: nat, name: string) { rootBytes + 1 + |name| <= MAX_PATH_BYTES }

  /** A case-insensitive store under a root: whatever is created needs a path that is not too long, and a free name in
      a directory that is already there. */
  class Store {
    var directories: set<string>
    var files: map<string, nat>
    const rootBytes: nat
    const faulty: bool

    constructor (rootBytes: nat, faulty: bool)
      ensures directories == {} && files == map[] && this.rootBytes == rootBytes && this.faulty == faulty
    {
      directories, files, this.rootBytes, this.faulty := {}, map[], rootBytes, faulty;
    }

    predicate Room(name: string)
      reads this
    {
      && Fits(rootBytes, name) && Lower(name) !in directories && Lower(name) !in files
      && (LastSlash(name) >= 0 ==> Lower(Parent(name)) in directories)
    }

    method CreateDirectory(name: string) returns (ok: bool)
      modifies this`directories
      ensures ok ==> old(Room(name)) && directories == old(directories) + {Lower(name)}
      ensures !ok ==> directories == old(directories)
      ensures !faulty && old(Room(name)) ==> ok
    {
      var fault := *;
      if !Room(name) || (faulty && fault) { return false; }
      directories := directories + {Lower(name)};
      ok := true;
    }

    /** CreateFile and copyExact. */
    method CreateFile(name: string, size: nat) returns (ok: bool)
      modifies this`files
      ensures ok ==> old(Room(name)) && files == old(files)[Lower(name) := size]
      ensures !faulty && old(Room(name)) ==> ok
    {
      var fault := *;
      if !Room(name) || (faulty && fault) { return false; }
      files := files[Lower(name) := size];
      ok := true;
    }
  }

  /** Every listed directory lies in the root or, up to case, in a listed one. The entry loop sees to this for
      the ancestors of files, but not for directories that the archive names itself. */
  ghost predicate DirectoriesRooted(items: seq<Item>)
  {
    forall d :: d in Directories(items) && LastSlash(d) >= 0 ==> HasFold(Directories(items), Parent(d))
  }

  /** Every listed name has a path that is not too long. Inspection measures it under its own short root. */
  ghost predicate AllFit(items: seq<Item>, rootBytes: nat)
  {
    forall name :: name in Names(items) ==> Fits(rootBytes, name)
  }

  ghost predicate HasFold(names: set<string>, name: string)
  {
    exists n :: n in names && Lower(n) == Lower(name)
  }

  lemma {:induction false} LowerDepth(name: string)
    ensures Depth(Lower(name)) == Depth(name)
  {
    if name != "" {
      LowerDepth(name[..|name| - 1]);
      assert Lower(name)[..|name| - 1] == Lower(name[..|name| - 1]);
    }
  }

  ghost function Folds(names: seq<string>): set<string> { set n | n in names :: Lower(n) }

  lemma FoldsWith(names: seq<string>, i: nat)
    requires i < |names|
    ensures Folds(names[..i + 1]) == Folds(names[..i]) + {Lower(names[i])}
  {
    assert names[..i + 1] == names[..i] + [names[i]];
  }

  /** The next directory's name is free, and its parent is there exactly when the archive lists it. */
  lemma NextDirectory(image: Image, items: seq<Item>, i: nat)
    requires Lists(image, items) && Acceptable(items) && i < |image.directories|
    ensures var d := image.directories[i];
            && Lower(d) !in Folds(image.directories[..i])
            && (LastSlash(d) >= 0 ==>
                  (Lower(Parent(d)) in Folds(image.directories[..i]) <==> HasFold(Directories(items), Parent(d))))
  {
    var d := image.directories[i];
    forall j | 0 <= j < i ensures Lower(image.directories[j]) != Lower(d) {
      assert image.directories[j] in Directories(items) && d in Directories(items);
    }
    if LastSlash(d) >= 0 {
      ParentDepth(d);
      LowerDepth(Parent(d));
      forall n | n in Directories(items) && Lower(n) == Lower(Parent(d)) ensures n in image.directories[..i] {
        LowerDepth(n);
        var p :| 0 <= p < |image.directories| && image.directories[p] == n;
        assert DirectoryLess(n, d);
        assert p < i;
      }
    }
  }

  /** A file always finds its name free and its directory there. */
  lemma FileHasRoom(items: seq<Item>, file: ImageFile)
    requires Acceptable(items) && file in FileList(items)
    ensures forall d :: d in Directories(items) ==> Lower(d) != Lower(file.path)
    ensures LastSlash(file.path) >= 0 ==> Parent(file.path) in Directories(items)
    ensures forall other :: other in FileList(items) && Lower(other.path) == Lower(file.path) ==> other == file
  {
    FileListed(items, file);
    NamesListed(items, file.path);
    assert file.path in Names(items);
    if LastSlash(file.path) >= 0 {
      assert Parent(file.path) in Ancestors(file.path);
      NamesListed(items, Parent(file.path));
    }
    forall other | other in FileList(items) && Lower(other.path) == Lower(file.path) ensures other == file {
      FileListed(items, other);
      AcceptedNamesApart(items, file.index, other.index);
    }
  }

  /** Extract: directories in their order, then files. On a store without faults it succeeds exactly for archives
      whose directories are rooted and whose paths are not too long under the store's root, and then the store holds
      exactly what the archive lists. */
  method Extract(image: Image, store: Store, ghost items: seq<Item>) returns (ok: bool)
    requires Acceptable(items) && Lists(image, items) && store.directories == {} && store.files == map[]
    modifies store
    ensures ok ==> DirectoriesRooted(items) && AllFit(items, store.rootBytes)
    ensures !store.faulty && DirectoriesRooted(items) && AllFit(items, store.rootBytes) ==> ok
    ensures ok ==> forall name :: name in store.directories <==> exists d :: d in Directories(items) && Lower(d) == name
    ensures ok ==> store.files == FileMap(image.files)
  {
    hide Acceptable, Lists, Directories, FileList, Lower, Parent, DirectoriesRooted, LastSlash, AllFit, Fits;
    ghost var directories := image.directories;
    assert directories[..0] == [];
    for i := 0 to |image.directories|
      invariant store.directories == Folds(directories[..i]) && store.files == map[]
      invariant forall k :: 0 <= k < i ==> RootedAt(items, directories[k]) && Fits(store.rootBytes, directories[k])
    {
      NextDirectory(image, items, i);
      FoldsWith(directories, i);
      Rootedness(items, image, directories[i]);
      ListedFits(items, image, store.rootBytes);
      ok := store.CreateDirectory(image.directories[i]);
      if !ok { return; }
    }
    assert directories[..|directories|] == directories;
    AllRooted(items, image);
    ListedFits(items, image, store.rootBytes);
    ok := ExtractFiles(image, store, items);
  }

  ghost predicate RootedAt(items: seq<Item>, d: string)
  {
    LastSlash(d) >= 0 ==> HasFold(Directories(items), Parent(d))
  }

  lemma Rootedness(items: seq<Item>, image: Image, d: string)
    requires Lists(image, items) && d in image.directories
    ensures DirectoriesRooted(items) ==> RootedAt(items, d)
  {
  }

  lemma AllRooted(items: seq<Item>, image: Image)
    requires Lists(image, items)
    ensures (forall k :: 0 <= k < |image.directories| ==> RootedAt(items, image.directories[k])) <==>
              DirectoriesRooted(items)
    ensures forall name :: name in Folds(image.directories) <==> exists d :: d in Directories(items) && Lower(d) == name
  {
  }

  lemma ListedFits(items: seq<Item>, image: Image, rootBytes: nat)
    requires Acceptable(items) && Lists(image, items)
    ensures AllFit(items, rootBytes) <==>
              && (forall k :: 0 <= k < |image.directories| ==> Fits(rootBytes, image.directories[k]))
              && (forall k :: 0 <= k < |image.files| ==> Fits(rootBytes, image.files[k].path))
  {
    ListsFiles(image, items);
    hide Acceptable, Fits, Directories, Files, FileList;
    forall k | 0 <= k < |image.files| ensures image.files[k].path in Files(items) {
      FileListed(items, image.files[k]);
      FileInFiles(items, image.files[k].index);
    }
    forall name | name in Files(items) ensures exists k :: 0 <= k < |image.files| && image.files[k].path == name {
      var file := FileOf(items, name);
      var k :| 0 <= k < |image.files| && image.files[k] == file;
    }
  }

  lemma {:induction false} FileInFiles(items: seq<Item>, i: nat)
    requires i < |items| && !items[i].directory
    ensures items[i].name in Files(items)
  {
    if i < |items| - 1 { FileInFiles(items[..|items| - 1], i); }
  }

  lemma {:induction false} FileOf(items: seq<Item>, name: string) returns (file: ImageFile)
    requires name in Files(items)
    ensures file in FileList(items) && file.path == name
  {
    var last := items[|items| - 1];
    if !last.directory && last.name == name {
      file := ImageFile(last.name, |items| - 1, last.size);
    } else {
      file := FileOf(items[..|items| - 1], name);
    }
  }

  method ExtractFiles(image: Image, store: Store, ghost items: seq<Item>) returns (ok: bool)
    requires Acceptable(items) && Lists(image, items) && store.files == map[]
    requires forall name :: name in store.directories <==> exists d :: d in Directories(items) && Lower(d) == name
    modifies store`files
    ensures !store.faulty && (forall k :: 0 <= k < |image.files| ==> Fits(store.rootBytes, image.files[k].path)) ==> ok
    ensures ok ==> forall k :: 0 <= k < |image.files| ==> Fits(store.rootBytes, image.files[k].path)
    ensures ok ==> store.files == FileMap(image.files)
  {
    ListsFiles(image, items);
    hide Acceptable, Lists, Directories, FileList, Lower, Parent, LastSlash, FileMap, Fits;
    FileMapWith(image.files, 0);
    for i := 0 to |image.files|
      invariant store.files == FileMap(image.files[..i])
      invariant forall k :: 0 <= k < i ==> Fits(store.rootBytes, image.files[k].path)
    {
      FileMapWith(image.files, i);
      NextFile(image, items, i);
      ok := store.CreateFile(image.files[i].path, image.files[i].size);
      if !ok { return; }
    }
    assert image.files[..|image.files|] == image.files;
    ok := true;
  }

  function FileMap(files: seq<ImageFile>): map<string, nat>
  {
    if files == [] then map[]
    else
      var last := files[|files| - 1];
      FileMap(files[..|files| - 1])[Lower(last.path) := last.size]
  }

  lemma FileMapWith(files: seq<ImageFile>, i: nat)
    requires i <= |files|
    ensures FileMap(files[..0]) == map[]
    ensures i < |files| ==> FileMap(files[..i + 1]) == FileMap(files[..i])[Lower(files[i].path) := files[i].size]
  {
    if i < |files| {
      assert files[..i + 1][..i] == files[..i];
    }
  }

  lemma {:induction false} FileMapHas(files: seq<ImageFile>, name: string)
    ensures name in FileMap(files) <==> exists k :: 0 <= k < |files| && Lower(files[k].path) == name
    ensures (forall a, b :: 0 <= a < b < |files| ==> Lower(files[a].path) != Lower(files[b].path)) ==>
              forall k :: 0 <= k < |files| && Lower(files[k].path) == name ==>
                name in FileMap(files) && FileMap(files)[name] == files[k].size
    decreases |files|
  {
    if files != [] {
      var front := files[..|files| - 1];
      FileMapHas(front, name);
      assert forall k :: 0 <= k < |front| ==> front[k] == files[k];
    }
  }

  /** The next file's name is free, and its directory is there. */
  lemma NextFile(image: Image, items: seq<Item>, i: nat)
    requires Acceptable(items) && Lists(image, items) && i < |image.files|
    ensures var path := image.files[i].path;
            && Lower(path) !in FileMap(image.files[..i])
            && (forall d :: d in Directories(items) ==> Lower(d) != Lower(path))
            && (LastSlash(path) >= 0 ==> Parent(path) in Directories(items))
  {
    ListsFiles(image, items);
    hide Acceptable, Lists, Directories, FileList, Lower, Parent, LastSlash, FileMap;
    FileHasRoom(items, image.files[i]);
    FileMapHas(image.files[..i], Lower(image.files[i].path));
    forall k | 0 <= k < i ensures Lower(image.files[..i][k].path) != Lower(image.files[i].path) {
      assert image.files[k] != image.files[i];
    }
  }

  /** The file map of an accepted image is the archive's files, each with its own size. */
  lemma FileMapIsArchive(image: Image, items: seq<Item>, name: string)
    requires Acceptable(items) && Lists(image, items)
    ensures name in FileMap(image.files) <==> exists file :: file in FileList(items) && Lower(file.path) == name
    ensures forall file :: file in FileList(items) && Lower(file.path) == name ==>
              name in FileMap(image.files) && FileMap(image.files)[name] == file.size
  {
    ListsFiles(image, items);
    hide Acceptable, Lists, Directories, FileList, Lower, FileMap;
    forall a, b | 0 <= a < b < |image.files| ensures Lower(image.files[a].path) != Lower(image.files[b].path) {
      FileHasRoom(items, image.files[a]);
      assert image.files[a] != image.files[b];
    }
    FileMapHas(image.files, name);
    forall file | file in FileList(items) && Lower(file.path) == name
      ensures name in FileMap(image.files) && FileMap(image.files)[name] == file.size
    {
      var k :| 0 <= k < |image.files| && image.files[k] == file;
    }
  }

  /** An image lists each file of its archive once. */
  lemma ListsFiles(image: Image, items: seq<Item>)
    requires Lists(image, items)
    ensures forall file :: file in image.files <==> file in FileList(items)
    ensures forall i, k :: 0 <= k < i < |image.files| ==> image.files[k] != image.files[i]
  {
    SameElements(image.files, FileList(items));
    FileListDistinct(items);
    OnceEach(image.files);
  }

  lemma {:induction false} FileListDistinct(items: seq<Item>)
    ensures forall file: ImageFile :: multiset(FileList(items))[file] <= 1
  {
    if items != [] {
      var front := items[..|items| - 1];
      FileListDistinct(front);
      forall file: ImageFile ensures multiset(FileList(items))[file] <= 1 {
        FileListed(front, file);
        assert file !in FileList(front) ==> multiset(FileList(front))[file] == 0;
      }
    }
  }

  lemma OnceEach(files: seq<ImageFile>)
    requires forall file: ImageFile :: multiset(files)[file] <= 1
    ensures forall i, k :: 0 <= k < i < |files| ==> files[k] != files[i]
  {
    forall i, k | 0 <= k < i < |files| ensures files[k] != files[i] {
      var file := files[i];
      assert files == files[..i] + [file] + files[i + 1..];
      assert multiset(files)[file] == multiset(files[..i])[file] + 1 + multiset(files[i + 1..])[file];
      assert multiset(files[..i])[file] == 0;
      assert files[..i][k] == files[k] && files[..i][k] in multiset(files[..i]);
    }
  }

  // ----- An accepted archive that cannot be extracted -----

  const LISTENER := ["bin", "Runner.Listener.exe"]
  const SERVICE := ["bin", "RunnerService.exe"]
  const INSIDE_SERVICE := ["bin", "RunnerService.exe", "d"]

  function InArchive(segments: seq<string>): string
    requires segments != []
  {
    Join(segments, '/')
  }

  function OnWindows(segments: seq<string>): string
    requires segments != []
  {
    "C:\\runner\\" + Join(segments, '\\')
  }

  /** The two required files, and a directory that the archive puts inside the second one. */
  function DirectoryInFile(): seq<ZipEntry>
  {
    [ZipEntry(InArchive(LISTENER), true, false, true, 1), ZipEntry(InArchive(SERVICE), true, false, true, 1),
     ZipEntry(InArchive(INSIDE_SERVICE) + "/", true, true, false, 0)]
  }

  predicate Letters(s: string)
  {
    forall k :: 0 <= k < |s| ==> 'a' <= s[k] <= 'z' || 'A' <= s[k] <= 'Z' || s[k] == '.'
  }

  /** Letters and dots, neither dotted at an end nor a device name nor a reserved root. */
  predicate Ordinary(segment: string)
  {
    && segment != "" && Letters(segment) && segment[0] != '.' && segment[|segment| - 1] != '.'
    && !ReservedWindowsName(segment)
  }

  lemma OrdinaryIsValid(segment: string)
    requires Ordinary(segment)
    ensures SegmentValid(Windows, segment) && CleanSegment(segment)
    ensures '/' !in segment && '\\' !in segment && ':' !in segment && '\0' !in segment
  {
    hide ReservedWindowsName;
  }

  lemma PlainName(segment: string)
    requires segment == "bin" || segment == "runner" || segment == "d"
    ensures Ordinary(segment)
  {
    SplitWithoutSeparator(segment, '.');
    assert |Lower(segment)| == |segment| && Lower(segment)[0] == segment[0];
    hide Split, Lower;
  }

  lemma DottedName(segment: string, base: string, rest: string)
    requires segment == base + ['.'] + rest && '.' !in base && |base| > 4
    requires Letters(segment) && rest != "" && rest[|rest| - 1] != '.'
    ensures Ordinary(segment)
  {
    SplitAppend(base, rest, '.');
    SplitWithoutSeparator(base, '.');
    assert |Lower(base)| == |base|;
    hide Split, Lower;
  }

  lemma ServiceName()
    ensures Ordinary("RunnerService.exe")
  {
    DottedName("RunnerService.exe", "RunnerService", "exe");
  }

  lemma ListenerName()
    ensures Ordinary("Runner.Listener.exe")
  {
    DottedName("Runner.Listener.exe", "Runner", "Listener.exe");
  }

  ghost predicate AllOrdinary(segments: seq<string>)
  {
    segments != [] && forall k :: 0 <= k < |segments| ==> Ordinary(segments[k])
  }

  lemma {:induction false} JoinedCharacters(segments: seq<string>, sep: char, c: char)
    requires segments != [] && c != sep && forall k :: 0 <= k < |segments| ==> c !in segments[k]
    ensures c !in Join(segments, sep)
  {
    if |segments| > 1 {
      JoinedCharacters(segments[1..], sep, c);
    }
  }

  lemma {:induction false} JoinedEnds(segments: seq<string>, sep: char)
    requires AllOrdinary(segments)
    ensures var joined := Join(segments, sep);
            joined != "" && joined[0] == segments[0][0]
                && joined[|joined| - 1] == segments[|segments| - 1][|segments[|segments| - 1]| - 1]
  {
    hide Ordinary;
    OrdinaryIsValid(segments[0]);
    if |segments| > 1 {
      JoinedEnds(segments[1..], sep);
    }
  }

  lemma OrdinaryOnWindows(validUtf8: string -> bool, segments: seq<string>)
    requires AllOrdinary(segments) && validUtf8(OnWindows(segments)) && |OnWindows(segments)| <= MAX_PATH_BYTES
    ensures AbsoluteValid(validUtf8, Windows, OnWindows(segments))
  {
    hide Ordinary, SegmentValid, Split;
    var value, all := OnWindows(segments), ["runner"] + segments;
    PlainName("runner");
    assert AllOrdinary(all);
    forall k | 0 <= k < |all|
      ensures SegmentValid(Windows, all[k]) && '/' !in all[k] && '\\' !in all[k] && '\0' !in all[k]
    {
      OrdinaryIsValid(all[k]);
    }
    assert all[1..] == segments;
    assert Join(all, '\\') == "runner" + ['\\'] + Join(segments, '\\');
    assert value == "C:\\" + Join(all, '\\');
    SplitJoin(all, '\\');
    JoinedCharacters(all, '\\', '/');
    JoinedCharacters(all, '\\', '\0');
    assert Body(Windows, value) == Join(all, '\\');
  }

  /** Such a path is accepted as a file, and as a directory with its slash. */
  lemma OrdinaryItem(validUtf8: string -> bool, segments: seq<string>, size: nat)
    requires AllOrdinary(segments) && |segments| <= 3 && Lower(segments[0]) !in RESERVED_RUNTIME_ROOTS
    requires validUtf8(OnWindows(segments)) && |OnWindows(segments)| <= MAX_PATH_BYTES && size <= MAX_FILE_BYTES
    requires |InArchive(segments)| < MAX_ENTRY_PATH_BYTES
    ensures ItemOf(validUtf8, ZipEntry(InArchive(segments), true, false, true, size))
         == Some(Item(InArchive(segments), false, size))
    ensures ItemOf(validUtf8, ZipEntry(InArchive(segments) + "/", true, true, false, 0))
         == Some(Item(InArchive(segments), true, 0))
  {
    hide Ordinary, Split, AbsoluteValid, Lower, SegmentValid;
    var name := InArchive(segments);
    OrdinaryOnWindows(validUtf8, segments);
    forall k | 0 <= k < |segments|
      ensures CleanSegment(segments[k]) && '/' !in segments[k] && '\\' !in segments[k] && ':' !in segments[k]
              && '\0' !in segments[k]
    {
      OrdinaryIsValid(segments[k]);
    }
    SplitJoin(segments, '/');
    JoinedEnds(segments, '/');
    JoinedCharacters(segments, '/', '\\');
    JoinedCharacters(segments, '/', ':');
    JoinedCharacters(segments, '/', '\0');
    assert (name + "/")[..|name|] == name;
  }

  lemma ThreeEntries(validUtf8: string -> bool)
    requires validUtf8(OnWindows(LISTENER)) && validUtf8(OnWindows(SERVICE)) && validUtf8(OnWindows(INSIDE_SERVICE))
    ensures |DirectoryInFile()| == 3 && forall k :: 0 <= k < 3 ==> ItemOf(validUtf8, DirectoryInFile()[k]).Some?
    ensures Items(validUtf8, DirectoryInFile())
         == [Item("bin/Runner.Listener.exe", false, 1), Item("bin/RunnerService.exe", false, 1),
             Item("bin/RunnerService.exe/d", true, 0)]
  {
    hide Ordinary, ItemOf;
    PlainName("bin");
    PlainName("d");
    ServiceName();
    ListenerName();
    assert |Lower("bin")| == 3;
    ThreeNames();
    OrdinaryItem(validUtf8, LISTENER, 1);
    OrdinaryItem(validUtf8, SERVICE, 1);
    OrdinaryItem(validUtf8, INSIDE_SERVICE, 1);
  }

  lemma ThreeNames()
    ensures InArchive(LISTENER) == "bin/Runner.Listener.exe" && InArchive(SERVICE) == "bin/RunnerService.exe"
    ensures InArchive(INSIDE_SERVICE) == "bin/RunnerService.exe/d"
    ensures |OnWindows(LISTENER)| <= MAX_PATH_BYTES && |OnWindows(SERVICE)| <= MAX_PATH_BYTES
    ensures |OnWindows(INSIDE_SERVICE)| <= MAX_PATH_BYTES
  {
    assert LISTENER[1..] == ["Runner.Listener.exe"] && SERVICE[1..] == ["RunnerService.exe"];
    assert INSIDE_SERVICE[1..] == ["RunnerService.exe", "d"] && INSIDE_SERVICE[1..][1..] == ["d"];
  }

  /** Acceptance does not root directories: this archive is accepted and cannot be extracted. */
  lemma DirectoryInsideFileAccepted(validUtf8: string -> bool)
    requires validUtf8(OnWindows(LISTENER)) && validUtf8(OnWindows(SERVICE)) && validUtf8(OnWindows(INSIDE_SERVICE))
    ensures ArchiveAcceptable(validUtf8, DirectoryInFile())
    ensures !DirectoriesRooted(Items(validUtf8, DirectoryInFile()))
  {
    hide ItemOf, Items, Acceptable, DirectoriesRooted, OnWindows, ArchiveAcceptable, DirectoryInFile;
    ThreeEntries(validUtf8);
    NamesInside();
    NamesInsideDiffer();
    var items := Items(validUtf8, DirectoryInFile());
    SetsInside(items);
    InsideIsAcceptable(items, "bin/Runner.Listener.exe", "bin/RunnerService.exe", "bin", "bin/RunnerService.exe/d");
    RequiredSuffice(validUtf8, DirectoryInFile());
  }

  lemma RequiredSuffice(validUtf8: string -> bool, entries: seq<ZipEntry>)
    requires 0 < |entries| <= MAX_ENTRIES && forall k :: 0 <= k < |entries| ==> ItemOf(validUtf8, entries[k]).Some?
    requires Acceptable(Items(validUtf8, entries))
    requires {"bin/Runner.Listener.exe", "bin/RunnerService.exe"} <= Files(Items(validUtf8, entries))
    ensures ArchiveAcceptable(validUtf8, entries)
  {
    hide ItemOf, Acceptable, Files, Items;
  }

  lemma InsideIsAcceptable(items: seq<Item>, listener: string, service: string, bin: string, inside: string)
    requires DistinctNames(items) && Files(items) == {listener, service} && Explicit(items) == {inside}
    requires FileAncestors(items) == {bin} && ExpandedSize(items) == 2 && CaseUnique({listener, service, bin, inside})
    requires LastSlash(inside) >= 0 && Parent(inside) == service
    requires Lower(bin) != Lower(service) && Lower(inside) != Lower(service) && Lower(inside) != Lower(listener)
    requires Lower(bin) != Lower(listener)
    ensures Acceptable(items) && !DirectoriesRooted(items)
  {
    hide Files, Explicit, FileAncestors, ExpandedSize, Lower, LastSlash, Parent, DistinctNames;
    assert Directories(items) == {bin, inside} && Names(items) == {listener, service, bin, inside};
    assert !HasFold(Directories(items), service);
    assert inside in Directories(items);
  }

  lemma LastSlashAt(name: string, at: nat)
    requires at < |name| && name[at] == '/' && forall k :: at < k < |name| ==> name[k] != '/'
    ensures LastSlash(name) == at && Parent(name) == name[..at]
  {
  }

  lemma NamesInside()
    ensures Ancestors("bin/Runner.Listener.exe") == Ancestors("bin/RunnerService.exe") == {"bin"}
    ensures LastSlash("bin/RunnerService.exe/d") >= 0 && Parent("bin/RunnerService.exe/d") == "bin/RunnerService.exe"
  {
    ListenerParent();
    ServiceParent();
    InsideParent();
    BinHasNoParent();
    hide LastSlash, Parent;
    AncestorsStep("bin/Runner.Listener.exe");
    AncestorsStep("bin/RunnerService.exe");
    hide Ancestors;
  }

  lemma BinHasNoParent()
    ensures Ancestors("bin") == {} && LastSlash("bin") < 0
  {
  }

  lemma ListenerParent()
    ensures LastSlash("bin/Runner.Listener.exe") == 3 && Parent("bin/Runner.Listener.exe") == "bin"
  {
    LastSlashAt("bin/Runner.Listener.exe", 3);
    hide LastSlash, Parent;
    assert "bin/Runner.Listener.exe" == "bin" + "/Runner.Listener.exe";
  }

  lemma ServiceParent()
    ensures LastSlash("bin/RunnerService.exe") == 3 && Parent("bin/RunnerService.exe") == "bin"
  {
    LastSlashAt("bin/RunnerService.exe", 3);
    hide LastSlash, Parent;
    assert "bin/RunnerService.exe" == "bin" + "/RunnerService.exe";
  }

  lemma InsideParent()
    ensures LastSlash("bin/RunnerService.exe/d") == 21 && Parent("bin/RunnerService.exe/d") == "bin/RunnerService.exe"
  {
    LastSlashAt("bin/RunnerService.exe/d", 21);
    hide LastSlash, Parent;
    assert "bin/RunnerService.exe/d" == "bin/RunnerService.exe" + "/d";
  }

  lemma AncestorsStep(name: string)
    requires LastSlash(name) >= 0
    ensures Ancestors(name) == {Parent(name)} + Ancestors(Parent(name))
  {
  }

  /** The four names differ by more than case. */
  lemma NamesInsideDiffer()
    ensures CaseUnique({"bin/Runner.Listener.exe", "bin/RunnerService.exe", "bin", "bin/RunnerService.exe/d"})
    ensures Lower("bin") != Lower("bin/RunnerService.exe")
    ensures Lower("bin/RunnerService.exe/d") != Lower("bin/RunnerService.exe")
    ensures Lower("bin/RunnerService.exe/d") != Lower("bin/Runner.Listener.exe")
    ensures Lower("bin") != Lower("bin/Runner.Listener.exe")
  {
    assert |Lower("bin")| == 3 && |Lower("bin/RunnerService.exe")| == 21;
    assert |Lower("bin/Runner.Listener.exe")| == |Lower("bin/RunnerService.exe/d")| == 23;
    assert Lower("bin/Runner.Listener.exe")[10] == '.' && Lower("bin/RunnerService.exe/d")[10] == 's';
    hide Lower;
  }

  lemma SetsInside(items: seq<Item>)
    requires items == [Item("bin/Runner.Listener.exe", false, 1), Item("bin/RunnerService.exe", false, 1),
                       Item("bin/RunnerService.exe/d", true, 0)]
    requires Ancestors("bin/Runner.Listener.exe") == Ancestors("bin/RunnerService.exe") == {"bin"}
    ensures Files(items) == {"bin/Runner.Listener.exe", "bin/RunnerService.exe"}
    ensures Explicit(items) == {"bin/RunnerService.exe/d"} && FileAncestors(items) == {"bin"}
    ensures ExpandedSize(items) == 2
    ensures DistinctNames(items)
  {
    hide Ancestors;
    SetsWith([], items[0]);
    SetsWith([items[0]], items[1]);
    SetsWith([items[0], items[1]], items[2]);
    assert items == [items[0], items[1]] + [items[2]] && [items[0], items[1]] == [items[0]] + [items[1]];
    assert [] + [items[0]] == [items[0]];
    assert Files([]) == {} && Explicit([]) == {} && FileAncestors([]) == {} && ExpandedSize([]) == 0;
    assert |items[0].name| == 23 && |items[1].name| == 21 && |items[2].name| == 23;
    assert items[0].name[10] != items[2].name[10];
  }

  // ----- An accepted archive that fits under a short root only -----

  lemma {:induction false} JoinLength(segments: seq<string>, a: char, b: char)
    requires segments != []
    ensures |Join(segments, a)| == |Join(segments, b)|
  {
    if |segments| > 1 {
      JoinLength(segments[1..], a, b);
    }
  }

  lemma ItemFits(validUtf8: string -> bool, entry: ZipEntry, rootBytes: nat)
    requires ItemOf(validUtf8, entry).Some? && rootBytes <= |"C:\\runner"|
    ensures Fits(rootBytes, ItemOf(validUtf8, entry).value.name)
  {
    hide Lower, Split, Join, AbsoluteValid;
    var name := ItemOf(validUtf8, entry).value.name;
    var value := "C:\\runner\\" + Join(Split(name, '/'), '\\');
    assert AbsoluteValid(validUtf8, Windows, value);
    ValidIsShort(validUtf8, value);
    JoinSplit(name, '/');
    JoinLength(Split(name, '/'), '/', '\\');
  }

  lemma ValidIsShort(validUtf8: string -> bool, value: string)
    requires AbsoluteValid(validUtf8, Windows, value)
    ensures |value| <= MAX_PATH_BYTES
  {
  }

  lemma {:induction false} NamesFit(items: seq<Item>, rootBytes: nat)
    requires forall k :: 0 <= k < |items| ==> Fits(rootBytes, items[k].name)
    ensures forall name :: name in Files(items) + Explicit(items) + FileAncestors(items) ==> Fits(rootBytes, name)
  {
    if items != [] {
      var front, last := items[..|items| - 1], items[|items| - 1];
      NamesFit(front, rootBytes);
      forall ancestor | ancestor in Ancestors(last.name) ensures Fits(rootBytes, ancestor) {
        AncestorsShorter(last.name, ancestor);
      }
    }
  }

  /** Inspection measures paths under `C:\runner`: what it accepts fits under every root that is no longer. */
  lemma AcceptedFitsShortRoots(validUtf8: string -> bool, entries: seq<ZipEntry>, rootBytes: nat)
    requires ArchiveAcceptable(validUtf8, entries) && rootBytes <= |"C:\\runner"|
    ensures AllFit(Items(validUtf8, entries), rootBytes)
  {
    hide ItemOf, Acceptable, Fits;
    var items := Items(validUtf8, entries);
    forall k | 0 <= k < |items| ensures Fits(rootBytes, items[k].name) {
      ItemFits(validUtf8, entries[k], rootBytes);
    }
    NamesFit(items, rootBytes);
  }

  const LONGEST := MAX_PATH_BYTES - |"C:\\runner\\"|

  function LongName(): (name: string)
    ensures |name| == LONGEST && forall k :: 0 <= k < LONGEST ==> name[k] == 'x'
  {
    seq(LONGEST, _ => 'x')
  }

  /** The two required files, and one beside them with as long a name as inspection lets through. */
  function LongNamed(): seq<ZipEntry>
  {
    [ZipEntry(InArchive(LISTENER), true, false, true, 1), ZipEntry(InArchive(SERVICE), true, false, true, 1),
     ZipEntry(LongName(), true, false, true, 1)]
  }

  lemma LongIsOrdinary(name: string)
    requires |name| > 40 && forall k :: 0 <= k < |name| ==> name[k] == 'x'
    ensures Ordinary(name) && Lower(name) !in RESERVED_RUNTIME_ROOTS && LastSlash(name) < 0
  {
    hide Split, Lower, LastSlash, ReservedWindowsName;
    LongIsNotReserved(name);
  }

  lemma LongIsNotReserved(name: string)
    requires |name| > 40 && '.' !in name
    ensures !ReservedWindowsName(name) && Lower(name) !in RESERVED_RUNTIME_ROOTS
  {
    hide Split, Lower;
    SplitWithoutSeparator(name, '.');
    assert |Lower(name)| == |name|;
  }

  lemma LongNamedItems(validUtf8: string -> bool)
    requires validUtf8(OnWindows(LISTENER)) && validUtf8(OnWindows(SERVICE)) && validUtf8(OnWindows([LongName()]))
    ensures |LongNamed()| == 3 && forall k :: 0 <= k < 3 ==> ItemOf(validUtf8, LongNamed()[k]).Some?
    ensures Items(validUtf8, LongNamed())
         == [Item("bin/Runner.Listener.exe", false, 1), Item("bin/RunnerService.exe", false, 1),
             Item(LongName(), false, 1)]
  {
    hide Ordinary, ItemOf, LongName, LastSlash, Lower, Join;
    PlainName("bin");
    ServiceName();
    ListenerName();
    LongIsOrdinary(LongName());
    assert |Lower("bin")| == 3;
    ThreeNames();
    OneSegment(LongName());
    OrdinaryItem(validUtf8, LISTENER, 1);
    OrdinaryItem(validUtf8, SERVICE, 1);
    OrdinaryItem(validUtf8, [LongName()], 1);
  }

  lemma OneSegment(name: string)
    requires |name| == LONGEST
    ensures InArchive([name]) == name && |OnWindows([name])| == MAX_PATH_BYTES
  {
  }

  lemma LongNamedSets(items: seq<Item>, listener: string, service: string, bin: string, long: string)
    requires |listener| == 23 && |service| == 21 && |long| == LONGEST && LastSlash(long) < 0
    requires Ancestors(listener) == Ancestors(service) == {bin}
    requires items == [Item(listener, false, 1), Item(service, false, 1), Item(long, false, 1)]
    ensures Files(items) == {listener, service, long}
    ensures Explicit(items) == {} && FileAncestors(items) == {bin} && ExpandedSize(items) == 3
    ensures DistinctNames(items)
  {
    assert Ancestors(long) == {};
    hide Ancestors, LastSlash;
    SetsWith([], items[0]);
    SetsWith([items[0]], items[1]);
    SetsWith([items[0], items[1]], items[2]);
    assert items == [items[0], items[1]] + [items[2]] && [items[0], items[1]] == [items[0]] + [items[1]];
    assert [] + [items[0]] == [items[0]];
    assert Files([]) == {} && Explicit([]) == {} && FileAncestors([]) == {} && ExpandedSize([]) == 0;
  }

  lemma LongNamedAcceptable(items: seq<Item>, listener: string, service: string, bin: string, long: string)
    requires DistinctNames(items) && Files(items) == {listener, service, long} && Explicit(items) == {}
    requires FileAncestors(items) == {bin} && ExpandedSize(items) == 3
    requires |listener| == 23 && |service| == 21 && |bin| == 3 && |long| == LONGEST && LastSlash(bin) < 0
    ensures Acceptable(items) && DirectoriesRooted(items)
  {
    hide Files, Explicit, FileAncestors, ExpandedSize, LastSlash, DistinctNames;
    assert |Lower(listener)| == 23 && |Lower(service)| == 21 && |Lower(bin)| == 3 && |Lower(long)| == LONGEST;
    hide Lower;
    assert Directories(items) == {bin} && Names(items) == {listener, service, long, bin};
  }

  /** Under every longer root there is an accepted archive, with its directories rooted, that cannot be extracted. */
  lemma LongNameAccepted(validUtf8: string -> bool, rootBytes: nat)
    requires validUtf8(OnWindows(LISTENER)) && validUtf8(OnWindows(SERVICE)) && validUtf8(OnWindows([LongName()]))
    requires rootBytes > |"C:\\runner"|
    ensures ArchiveAcceptable(validUtf8, LongNamed()) && DirectoriesRooted(Items(validUtf8, LongNamed()))
    ensures !AllFit(Items(validUtf8, LongNamed()), rootBytes)
  {
    hide ItemOf, Items, Acceptable, DirectoriesRooted, OnWindows, ArchiveAcceptable, LongNamed, LongName, Lower,
         LastSlash, Ordinary;
    LongNamedItems(validUtf8);
    var items := Items(validUtf8, LongNamed());
    LongIsOrdinary(LongName());
    NamesInside();
    BinHasNoParent();
    hide Ancestors;
    LongNamedSets(items, "bin/Runner.Listener.exe", "bin/RunnerService.exe", "bin", LongName());
    LongNamedAcceptable(items, "bin/Runner.Listener.exe", "bin/RunnerService.exe", "bin", LongName());
    RequiredSuffice(validUtf8, LongNamed());
    assert LongName() in Names(items) && !Fits(rootBytes, LongName());
  }
}
