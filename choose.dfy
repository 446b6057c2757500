/** cmd/choose.go, the part behind the interactive selection: the files of
    the remote manifest grouped by directory ("systems"), the inclusion
    flags read from sync_dirs and sync_exclude, the toggle of a whole
    system, and the encoding of the selection back into sync_dirs and
    sync_exclude. */
module Choose {
  import opened Strings
  import opened Sorting
  import Manifest

  type Files = map<string, Manifest.FileEntry>

  datatype FileInfo = FileInfo(key: string, name: string, size: int, excluded: bool)

  /** A system: the files of one directory, their total size, and whether
      the whole directory is in sync_dirs. */
  datatype Group = Group(dir: string, files: seq<FileInfo>, totalSize: int, included: bool)

  function NameOf(f: FileInfo): string { f.name }
  function KeyOf(f: FileInfo): string { f.key }
  function DirOf(g: Group): string { g.dir }

  function SumSizes(fs: seq<FileInfo>): int {
    if fs == [] then 0 else SumSizes(fs[..|fs| - 1]) + fs[|fs| - 1].size
  }

  ghost function Keys(fs: seq<FileInfo>): set<string> {
    set f | f in fs :: f.key
  }

  ghost function DirSet(groups: seq<Group>): set<string> {
    set g | g in groups :: g.dir
  }

  ghost function DirsOf(files: Files): set<string> {
    set k | k in files :: Dir(k)
  }

  // ---- what buildGroups produces ----

  /** `g` lists, once each, the keys among `keys` whose directory is g.dir,
      each under its base name and manifest size, and g.totalSize is their
      sum. */
  ghost predicate Covers(g: Group, files: Files, keys: set<string>) {
    && Keys(g.files) == (set k | k in keys && Dir(k) == g.dir)
    && DistinctBy(g.files, KeyOf)
    && (forall f :: f in g.files ==> f.key in files && f.name == Base(f.key) && f.size == files[f.key].size)
    && g.totalSize == SumSizes(g.files)
  }

  ghost predicate GroupOk(g: Group, files: Files) {
    Covers(g, files, files.Keys) && SortedBy(g.files, NameOf)
  }

  /** One group per directory of the manifest, in directory order. */
  ghost predicate Grouped(groups: seq<Group>, files: Files) {
    && (forall g :: g in groups ==> GroupOk(g, files))
    && DirSet(groups) == DirsOf(files)
    && (forall i, j :: 0 <= i < j < |groups| ==> LexLess(groups[i].dir, groups[j].dir))
  }

  /** A sync_dirs entry that is not a manifest key names a directory; a
      group is included when its directory is one of those or lies below. */
  ghost predicate IncludedDir(dir: string, syncDirs: seq<string>, files: Files) {
    exists e :: e in syncDirs && e !in files && InTree(e, dir)
  }

  /** In an included group a file is excluded when sync_exclude lists it;
      elsewhere unless sync_dirs lists it by key. */
  ghost predicate ExcludedFile(key: string, dir: string, syncDirs: seq<string>, syncExclude: seq<string>, files: Files) {
    if IncludedDir(dir, syncDirs, files) then key in syncExclude else !(key in syncDirs && key in files)
  }

  ghost predicate FlaggedGroup(g: Group, files: Files, syncDirs: seq<string>, syncExclude: seq<string>) {
    && g.included == IncludedDir(g.dir, syncDirs, files)
    && forall f :: f in g.files ==> f.excluded == ExcludedFile(f.key, g.dir, syncDirs, syncExclude, files)
  }

  ghost predicate Flagged(groups: seq<Group>, files: Files, syncDirs: seq<string>, syncExclude: seq<string>) {
    forall g :: g in groups ==> FlaggedGroup(g, files, syncDirs, syncExclude)
  }

  // ---- buildGroups ----

  /** buildGroups: the groups of the manifest's files, with the flags the
      current sync_dirs and sync_exclude give them. */
  method BuildGroups(files: Files, syncDirs: seq<string>, syncExclude: seq<string>) returns (groups: seq<Group>)
    ensures Grouped(groups, files)
    ensures Flagged(groups, files, syncDirs, syncExclude)
  {
    var dirMap := Collect(files);
    var excludeSet, fileIncludes, dirIncludes := Lookups(files, syncDirs, syncExclude);
    var unsorted := Gather(dirMap, files, syncDirs, syncExclude, excludeSet, fileIncludes, dirIncludes);
    groups := SortBy(unsorted, DirOf);
    SortedGroups(unsorted, files, syncDirs, syncExclude);
  }

  /** Go lines 211-239: every group finished and collected, in map order. */
  method Gather(dirMap: map<string, Group>, files: Files, syncDirs: seq<string>, syncExclude: seq<string>,
                excludeSet: set<string>, fileIncludes: set<string>, dirIncludes: set<string>)
    returns (unsorted: seq<Group>)
    requires Collected(dirMap, files)
    requires LookupSets(files, syncDirs, syncExclude, excludeSet, fileIncludes, dirIncludes)
    ensures BuildInv(unsorted, dirMap.Keys, files, syncDirs, syncExclude)
  {
    unsorted := [];
    var todo := dirMap.Keys;
    ghost var done: set<string> := {};
    while todo != {}
      invariant GatherInv(dirMap, unsorted, todo, done, files, syncDirs, syncExclude)
      decreases |todo|
    {
      unsorted, todo, done := GatherOne(dirMap, unsorted, todo, done, files, syncDirs, syncExclude,
                                        excludeSet, fileIncludes, dirIncludes);
    }
  }

  ghost predicate GatherInv(dirMap: map<string, Group>, unsorted: seq<Group>, todo: set<string>, done: set<string>,
                            files: Files, syncDirs: seq<string>, syncExclude: seq<string>) {
    todo !! done && todo + done == dirMap.Keys && BuildInv(unsorted, done, files, syncDirs, syncExclude)
  }

  /** One turn of the loop over the groups. */
  method GatherOne(dirMap: map<string, Group>, unsorted: seq<Group>, todo: set<string>, ghost done: set<string>,
                   files: Files, syncDirs: seq<string>, syncExclude: seq<string>,
                   excludeSet: set<string>, fileIncludes: set<string>, dirIncludes: set<string>)
    returns (unsorted': seq<Group>, todo': set<string>, ghost done': set<string>)
    requires Collected(dirMap, files)
    requires LookupSets(files, syncDirs, syncExclude, excludeSet, fileIncludes, dirIncludes)
    requires GatherInv(dirMap, unsorted, todo, done, files, syncDirs, syncExclude) && todo != {}
    ensures GatherInv(dirMap, unsorted', todo', done', files, syncDirs, syncExclude) && |todo'| < |todo|
  {
    var dir :| dir in todo;
    var h := Finish(dirMap, dir, files, syncDirs, syncExclude, excludeSet, fileIncludes, dirIncludes);
    BuildStep(unsorted, done, h, files, syncDirs, syncExclude);
    unsorted', todo', done' := unsorted + [h], todo - {dir}, done + {dir};
  }

  /** Go lines 186-190 and 211-233 for one group: its files sorted by name,
      then its Included and Excluded flags set. */
  method Finish(dirMap: map<string, Group>, dir: string, files: Files, syncDirs: seq<string>, syncExclude: seq<string>,
                excludeSet: set<string>, fileIncludes: set<string>, dirIncludes: set<string>) returns (h: Group)
    requires Collected(dirMap, files) && dir in dirMap
    requires LookupSets(files, syncDirs, syncExclude, excludeSet, fileIncludes, dirIncludes)
    ensures h.dir == dir && GroupOk(h, files) && FlaggedGroup(h, files, syncDirs, syncExclude)
  {
    var g := dirMap[dir];
    var sorted := SortBy(g.files, NameOf);
    SortedKeepsCover(g, files);
    var included := IsIncluded(g.dir, dirIncludes);
    var marked := MarkFiles(sorted, included, excludeSet, fileIncludes);
    h := Group(g.dir, marked, g.totalSize, included);
    RelabelKeepsGroup(g.(files := sorted), files, h);
    MarkedFlags(h, files, syncDirs, syncExclude, excludeSet, fileIncludes, dirIncludes);
  }

  /** What the first pass leaves: a group for every directory, listing the
      keys in it. */
  ghost predicate Collected(dirMap: map<string, Group>, files: Files) {
    forall d :: d in dirMap ==> dirMap[d].dir == d && Covers(dirMap[d], files, files.Keys)
  }

  /** The lookup sets buildGroups derives from the configuration. */
  ghost predicate LookupSets(files: Files, syncDirs: seq<string>, syncExclude: seq<string>,
                             excludeSet: set<string>, fileIncludes: set<string>, dirIncludes: set<string>) {
    && excludeSet == (set e | e in syncExclude)
    && fileIncludes == (set e | e in syncDirs && e in files)
    && dirIncludes == (set e | e in syncDirs && e !in files)
  }

  /** The groups built so far: one for each directory in `done`. */
  ghost predicate BuildInv(unsorted: seq<Group>, done: set<string>, files: Files,
                           syncDirs: seq<string>, syncExclude: seq<string>) {
    && DirSet(unsorted) == done
    && DistinctBy(unsorted, DirOf)
    && forall g :: g in unsorted ==> GroupOk(g, files) && FlaggedGroup(g, files, syncDirs, syncExclude)
  }

  lemma BuildStep(unsorted: seq<Group>, done: set<string>, h: Group, files: Files,
                  syncDirs: seq<string>, syncExclude: seq<string>)
    requires BuildInv(unsorted, done, files, syncDirs, syncExclude)
    requires h.dir !in done && GroupOk(h, files) && FlaggedGroup(h, files, syncDirs, syncExclude)
    ensures BuildInv(unsorted + [h], done + {h.dir}, files, syncDirs, syncExclude)
  {
    var t := unsorted + [h];
    assert forall g :: g in t <==> g in unsorted || g == h;
    assert DirSet(t) == DirSet(unsorted) + {h.dir};
    forall i, j | 0 <= i < j < |t| ensures DirOf(t[i]) != DirOf(t[j]) {
      if j == |unsorted| {
        assert t[i] in unsorted;
      }
    }
  }

  lemma MarkedFlags(h: Group, files: Files, syncDirs: seq<string>, syncExclude: seq<string>,
                    excludeSet: set<string>, fileIncludes: set<string>, dirIncludes: set<string>)
    requires LookupSets(files, syncDirs, syncExclude, excludeSet, fileIncludes, dirIncludes)
    requires h.included <==> exists e :: e in dirIncludes && InTree(e, h.dir)
    requires forall f :: f in h.files ==>
               f.excluded == if h.included then f.key in excludeSet else f.key !in fileIncludes
    ensures FlaggedGroup(h, files, syncDirs, syncExclude)
  {
    assert h.included == IncludedDir(h.dir, syncDirs, files);
  }

  /** Sorting the finished groups by directory gives the groups of the
      manifest in directory order. */
  lemma SortedGroups(unsorted: seq<Group>, files: Files, syncDirs: seq<string>, syncExclude: seq<string>)
    requires BuildInv(unsorted, DirsOf(files), files, syncDirs, syncExclude)
    ensures Grouped(SortBy(unsorted, DirOf), files)
    ensures Flagged(SortBy(unsorted, DirOf), files, syncDirs, syncExclude)
  {
    var groups := SortBy(unsorted, DirOf);
    SortSorted(unsorted, DirOf);
    SortDistinct(unsorted, DirOf, DirOf);
    assert forall g :: g in groups <==> g in unsorted by {
      forall g ensures g in groups <==> g in unsorted {
        assert g in groups <==> g in multiset(groups);
      }
    }
    assert DirSet(groups) == DirSet(unsorted);
    forall i, j | 0 <= i < j < |groups| ensures LexLess(groups[i].dir, groups[j].dir) {
      assert LexLeq(DirOf(groups[i]), DirOf(groups[j]));
      assert DirOf(groups[i]) != DirOf(groups[j]);
    }
  }

  /** Go lines 170-183: every key appended to the group of its directory,
      adding its size to the group's total. */
  method Collect(files: Files) returns (dirMap: map<string, Group>)
    ensures dirMap.Keys == DirsOf(files)
    ensures Collected(dirMap, files)
  {
    dirMap := map[];
    var todo := files.Keys;
    ghost var done: set<string> := {};
    while todo != {}
      invariant todo !! done && todo + done == files.Keys
      invariant CollectInv(dirMap, files, done)
      decreases |todo|
    {
      var key :| key in todo;
      CollectStep(dirMap, files, done, key);
      dirMap := AddKey(dirMap, files, key);
      todo, done := todo - {key}, done + {key};
    }
  }

  /** The groups of the keys in `done`, each under its own directory. */
  ghost predicate CollectInv(dirMap: map<string, Group>, files: Files, done: set<string>) {
    && dirMap.Keys == (set k | k in done :: Dir(k))
    && forall d :: d in dirMap ==> dirMap[d].dir == d && Covers(dirMap[d], files, done)
  }

  /** Go lines 171-182: one more key appended to the group of its
      directory (a new group when the directory is new), its size added to
      the group's total. */
  function AddKey(dirMap: map<string, Group>, files: Files, key: string): map<string, Group>
    requires key in files
  {
    var dir := Dir(key);
    var g := if dir in dirMap then dirMap[dir] else Group(dir, [], 0, false);
    dirMap[dir := g.(files := g.files + [FileInfo(key, Base(key), files[key].size, false)],
                     totalSize := g.totalSize + files[key].size)]
  }

  lemma CollectStep(dirMap: map<string, Group>, files: Files, done: set<string>, key: string)
    requires CollectInv(dirMap, files, done) && key in files && key !in done
    ensures CollectInv(AddKey(dirMap, files, key), files, done + {key})
  {
    var dir := Dir(key);
    var g := if dir in dirMap then dirMap[dir] else Group(dir, [], 0, false);
    if dir !in dirMap {
      assert Keys(g.files) == {};
      assert (set k | k in done && Dir(k) == dir) == {};
    }
    CoversAdd(g, files, done, key);
    var m := AddKey(dirMap, files, key);
    forall d | d in m ensures m[d].dir == d && Covers(m[d], files, done + {key}) {
      if d != dir {
        CoversOther(dirMap[d], files, done, key);
      }
    }
    assert m.Keys == (set k | k in done + {key} :: Dir(k));
  }

  lemma CoversAdd(g: Group, files: Files, done: set<string>, key: string)
    requires Covers(g, files, done) && key in files && key !in done && Dir(key) == g.dir
    ensures var fs := g.files + [FileInfo(key, Base(key), files[key].size, false)];
            Covers(g.(files := fs, totalSize := g.totalSize + files[key].size), files, done + {key})
  {
    var r := FileInfo(key, Base(key), files[key].size, false);
    var fs := g.files + [r];
    var h := g.(files := fs, totalSize := g.totalSize + files[key].size);
    assert Keys(h.files) == (set k | k in done + {key} && Dir(k) == h.dir) by {
      KeysSnoc(g.files, r);
      assert (set k | k in done + {key} && Dir(k) == g.dir) == (set k | k in done && Dir(k) == g.dir) + {key};
    }
    assert DistinctBy(h.files, KeyOf) by {
      DistinctSnoc(g.files, r);
    }
    assert forall f :: f in h.files ==> f.key in files && f.name == Base(f.key) && f.size == files[f.key].size by {
      KeysSnoc(g.files, r);
    }
    assert h.totalSize == SumSizes(h.files) by {
      assert fs[..|fs| - 1] == g.files;
    }
  }

  lemma KeysSnoc(fs: seq<FileInfo>, r: FileInfo)
    ensures Keys(fs + [r]) == Keys(fs) + {r.key}
    ensures forall f :: f in fs + [r] <==> f in fs || f == r
  {
    assert forall f :: f in fs + [r] <==> f in fs || f == r;
  }

  lemma DistinctSnoc(fs: seq<FileInfo>, r: FileInfo)
    requires DistinctBy(fs, KeyOf) && r.key !in Keys(fs)
    ensures DistinctBy(fs + [r], KeyOf)
  {
    var t := fs + [r];
    forall i, j | 0 <= i < j < |t| ensures KeyOf(t[i]) != KeyOf(t[j]) {
      if j == |fs| {
        assert t[i] in fs;
      }
    }
  }

  lemma CoversOther(g: Group, files: Files, done: set<string>, key: string)
    requires Covers(g, files, done) && Dir(key) != g.dir
    ensures Covers(g, files, done + {key})
  {
    assert (set k | k in done + {key} && Dir(k) == g.dir) == (set k | k in done && Dir(k) == g.dir);
  }

  /** Go lines 194-209: the set of sync_exclude, and sync_dirs split into
      entries that are manifest keys and the rest. */
  method Lookups(files: Files, syncDirs: seq<string>, syncExclude: seq<string>)
    returns (excludeSet: set<string>, fileIncludes: set<string>, dirIncludes: set<string>)
    ensures LookupSets(files, syncDirs, syncExclude, excludeSet, fileIncludes, dirIncludes)
  {
    excludeSet := {};
    for i := 0 to |syncExclude|
      invariant excludeSet == set e | e in syncExclude[..i]
    {
      assert syncExclude[..i + 1] == syncExclude[..i] + [syncExclude[i]];
      excludeSet := excludeSet + {syncExclude[i]};
    }
    assert syncExclude[..|syncExclude|] == syncExclude;
    fileIncludes, dirIncludes := {}, {};
    for i := 0 to |syncDirs|
      invariant fileIncludes == set e | e in syncDirs[..i] && e in files
      invariant dirIncludes == set e | e in syncDirs[..i] && e !in files
    {
      assert syncDirs[..i + 1] == syncDirs[..i] + [syncDirs[i]];
      if syncDirs[i] in files {
        fileIncludes := fileIncludes + {syncDirs[i]};
      } else {
        dirIncludes := dirIncludes + {syncDirs[i]};
      }
    }
    assert syncDirs[..|syncDirs|] == syncDirs;
  }

  /** Go lines 213-219: the directory is a directory include or below one. */
  method IsIncluded(dir: string, dirIncludes: set<string>) returns (b: bool)
    ensures b <==> exists e :: e in dirIncludes && InTree(e, dir)
  {
    var todo := dirIncludes;
    while todo != {}
      invariant todo <= dirIncludes
      invariant forall e :: e in dirIncludes - todo ==> !InTree(e, dir)
      decreases |todo|
    {
      var e :| e in todo;
      if dir == e || HasPrefix(dir, e + "/") {
        return true;
      }
      todo := todo - {e};
    }
    return false;
  }

  /** Only the flags differ. */
  ghost predicate SameFiles(a: seq<FileInfo>, b: seq<FileInfo>) {
    |a| == |b| && forall j :: 0 <= j < |a| ==> a[j].key == b[j].key && a[j].name == b[j].name && a[j].size == b[j].size
  }

  /** Go lines 221-232: the files' Excluded flags from the group's state. */
  method MarkFiles(fs: seq<FileInfo>, included: bool, excludeSet: set<string>, fileIncludes: set<string>)
    returns (r: seq<FileInfo>)
    ensures SameFiles(fs, r)
    ensures forall f :: f in r ==> f.excluded == if included then f.key in excludeSet else f.key !in fileIncludes
  {
    r := fs;
    if included {
      for i := 0 to |r|
        invariant SameFiles(fs, r)
        invariant forall j :: 0 <= j < i ==> r[j].excluded == (r[j].key in excludeSet)
      {
        r := r[i := r[i].(excluded := r[i].key in excludeSet)];
      }
    } else {
      for i := 0 to |r|
        invariant SameFiles(fs, r)
        invariant forall j :: 0 <= j < i ==> r[j].excluded == (r[j].key !in fileIncludes)
      {
        r := r[i := r[i].(excluded := r[i].key !in fileIncludes)];
      }
    }
  }

  lemma SortedKeepsCover(g: Group, files: Files)
    requires Covers(g, files, files.Keys)
    ensures GroupOk(g.(files := SortBy(g.files, NameOf)), files)
  {
    var s := SortBy(g.files, NameOf);
    var h := g.(files := s);
    SortSorted(g.files, NameOf);
    SortDistinct(g.files, NameOf, KeyOf);
    SortKeepsSum(g.files);
    SameElements(g.files, s);
    assert Keys(s) == Keys(g.files);
    assert Covers(h, files, files.Keys);
  }

  lemma SameElements(a: seq<FileInfo>, b: seq<FileInfo>)
    requires multiset(a) == multiset(b)
    ensures forall f :: f in a <==> f in b
  {
    forall f ensures f in a <==> f in b {
      assert f in a <==> f in multiset(a);
      assert f in b <==> f in multiset(b);
    }
  }

  lemma RelabelKeepsGroup(g: Group, files: Files, h: Group)
    requires GroupOk(g, files) && SameFiles(g.files, h.files) && h.dir == g.dir && h.totalSize == g.totalSize
    ensures GroupOk(h, files)
  {
    SameSum(g.files, h.files);
    SameKeys(g.files, h.files);
    SameRecords(g.files, h.files, files);
    SameOrder(g.files, h.files);
  }

  lemma SameKeys(a: seq<FileInfo>, b: seq<FileInfo>)
    requires SameFiles(a, b)
    ensures Keys(a) == Keys(b)
  {
    forall k | k in Keys(a) ensures k in Keys(b) {
      var f :| f in a && f.key == k;
      var j :| 0 <= j < |a| && a[j] == f;
      assert b[j] in b;
    }
    forall k | k in Keys(b) ensures k in Keys(a) {
      var f :| f in b && f.key == k;
      var j :| 0 <= j < |b| && b[j] == f;
      assert a[j] in a;
    }
  }

  lemma SameRecords(a: seq<FileInfo>, b: seq<FileInfo>, files: Files)
    requires SameFiles(a, b)
    requires forall f :: f in a ==> f.key in files && f.name == Base(f.key) && f.size == files[f.key].size
    ensures forall f :: f in b ==> f.key in files && f.name == Base(f.key) && f.size == files[f.key].size
  {
    forall f | f in b ensures f.key in files && f.name == Base(f.key) && f.size == files[f.key].size {
      var j :| 0 <= j < |b| && b[j] == f;
      assert a[j] in a;
    }
  }

  lemma SameOrder(a: seq<FileInfo>, b: seq<FileInfo>)
    requires SameFiles(a, b)
    ensures DistinctBy(a, KeyOf) ==> DistinctBy(b, KeyOf)
    ensures SortedBy(a, NameOf) ==> SortedBy(b, NameOf)
  {
    assert forall i :: 0 <= i < |b| ==> KeyOf(b[i]) == KeyOf(a[i]) && NameOf(b[i]) == NameOf(a[i]);
  }

  lemma {:induction false} SameSum(a: seq<FileInfo>, b: seq<FileInfo>)
    requires SameFiles(a, b)
    ensures SumSizes(a) == SumSizes(b)
  {
    if a != [] {
      SameSum(a[..|a| - 1], b[..|b| - 1]);
    }
  }

  lemma {:induction false} SumFront(x: FileInfo, xs: seq<FileInfo>)
    ensures SumSizes([x] + xs) == x.size + SumSizes(xs)
    decreases |xs|
  {
    if xs != [] {
      var init := xs[..|xs| - 1];
      SumFront(x, init);
      assert ([x] + xs)[..|xs|] == [x] + init;
    }
  }

  lemma {:induction false} InsertKeepsSum(x: FileInfo, xs: seq<FileInfo>)
    ensures SumSizes(InsertBy(x, xs, NameOf)) == x.size + SumSizes(xs)
  {
    if xs == [] || LexLeq(NameOf(x), NameOf(xs[0])) {
      SumFront(x, xs);
    } else {
      InsertKeepsSum(x, xs[1..]);
      SumFront(xs[0], InsertBy(x, xs[1..], NameOf));
      SumFront(xs[0], xs[1..]);
      assert xs == [xs[0]] + xs[1..];
    }
  }

  /** Sorting a group's files keeps its total. */
  lemma {:induction false} SortKeepsSum(xs: seq<FileInfo>)
    ensures SumSizes(SortBy(xs, NameOf)) == SumSizes(xs)
  {
    if xs != [] {
      SortKeepsSum(xs[1..]);
      InsertKeepsSum(xs[0], SortBy(xs[1..], NameOf));
      SumFront(xs[0], xs[1..]);
      assert xs == [xs[0]] + xs[1..];
    }
  }

  /** Every manifest key is in exactly one group, the one of its directory,
      under its base name. */
  lemma KeyInOneGroup(groups: seq<Group>, files: Files, k: string)
    requires Grouped(groups, files) && k in files
    ensures exists i :: 0 <= i < |groups| && groups[i].dir == Dir(k) && k in Keys(groups[i].files)
    ensures forall i :: 0 <= i < |groups| && k in Keys(groups[i].files) ==> groups[i].dir == Dir(k)
    ensures forall i, j ::
              (0 <= i < |groups| && 0 <= j < |groups| && k in Keys(groups[i].files) && k in Keys(groups[j].files)) ==> i == j
    ensures forall g, f :: g in groups && f in g.files && f.key == k ==> f.name == Base(k)
  {
    assert Dir(k) in DirsOf(files);
    var g :| g in groups && g.dir == Dir(k);
    var i :| 0 <= i < |groups| && groups[i] == g;
    assert GroupOk(g, files);
    assert k in Keys(groups[i].files);
    forall i | 0 <= i < |groups| && k in Keys(groups[i].files) ensures groups[i].dir == Dir(k) {
      assert GroupOk(groups[i], files);
    }
    forall i, j | 0 <= i < |groups| && 0 <= j < |groups| && k in Keys(groups[i].files) && k in Keys(groups[j].files)
      ensures i == j
    {
      assert GroupOk(groups[i], files) && GroupOk(groups[j], files);
      SameDirSameGroup(groups, files, i, j);
    }
  }

  lemma SameDirSameGroup(groups: seq<Group>, files: Files, i: nat, j: nat)
    requires Grouped(groups, files) && i < |groups| && j < |groups| && groups[i].dir == groups[j].dir
    ensures i == j
  {
    LexLessIrreflexive(groups[i].dir);
  }

  // ---- the toggle ----

  /** The group after the user toggles it: Included flipped, and every
      file's Excluded set to the opposite of the new Included. */
  function Toggled(g: Group): Group {
    var on := !g.included;
    g.(included := on, files := seq(|g.files|, j requires 0 <= j < |g.files| => g.files[j].(excluded := !on)))
  }

  /** Go lines 101-113, on the group at `idx`. */
  method Toggle(groups: array<Group>, idx: nat)
    requires idx < groups.Length
    modifies groups
    ensures groups[..] == old(groups[..])[idx := Toggled(old(groups[idx]))]
  {
    var g := groups[idx];
    g := g.(included := !g.included);
    var fs := g.files;
    if g.included {
      for i := 0 to |fs|
        invariant |fs| == |g.files|
        invariant forall j :: 0 <= j < |fs| ==> fs[j] == if j < i then g.files[j].(excluded := false) else g.files[j]
      {
        fs := fs[i := fs[i].(excluded := false)];
      }
    } else {
      for i := 0 to |fs|
        invariant |fs| == |g.files|
        invariant forall j :: 0 <= j < |fs| ==> fs[j] == if j < i then g.files[j].(excluded := true) else g.files[j]
      {
        fs := fs[i := fs[i].(excluded := true)];
      }
    }
    assert fs == Toggled(groups[idx]).files;
    groups[idx] := g.(files := fs);
  }

  /** Toggling changes only the flags, so the groups still describe the
      manifest. */
  lemma ToggleKeepsGroups(groups: seq<Group>, files: Files, idx: nat)
    requires Grouped(groups, files) && idx < |groups|
    ensures Grouped(groups[idx := Toggled(groups[idx])], files)
  {
    var t := groups[idx := Toggled(groups[idx])];
    RelabelKeepsGroup(groups[idx], files, Toggled(groups[idx]));
    forall g | g in t ensures GroupOk(g, files) {
      var i :| 0 <= i < |t| && t[i] == g;
      if i != idx {
        assert groups[i] in groups;
      }
    }
    assert DirSet(t) == DirSet(groups) by {
      forall d | d in DirSet(groups) ensures d in DirSet(t) {
        var g :| g in groups && g.dir == d;
        var i :| 0 <= i < |groups| && groups[i] == g;
        assert t[i] in t;
      }
    }
  }

  // ---- the selection written back (Go lines 119-147) ----

  /** The keys of the selected files, in order. */
  function SelectedKeys(fs: seq<FileInfo>): (ks: seq<string>)
    ensures |ks| <= |fs|
    ensures forall k :: k in ks <==> exists f :: f in fs && f.key == k && !f.excluded
    ensures |ks| == |fs| <==> forall f :: f in fs ==> !f.excluded
    ensures ks == [] <==> forall f :: f in fs ==> f.excluded
  {
    if fs == [] then []
    else
      var init := fs[..|fs| - 1];
      var last := fs[|fs| - 1];
      assert forall f :: f in fs <==> f in init || f == last;
      SelectedKeys(init) + (if last.excluded then [] else [last.key])
  }

  /** The keys of the excluded files, in order. */
  function ExcludedKeys(fs: seq<FileInfo>): (ks: seq<string>)
    ensures forall k :: k in ks <==> exists f :: f in fs && f.key == k && f.excluded
    ensures ks == [] <==> forall f :: f in fs ==> !f.excluded
  {
    if fs == [] then []
    else
      var init := fs[..|fs| - 1];
      var last := fs[|fs| - 1];
      assert forall f :: f in fs <==> f in init || f == last;
      ExcludedKeys(init) + (if last.excluded then [last.key] else [])
  }

  /** What one group adds to sync_dirs. */
  function DirsPart(g: Group): seq<string> {
    if g.included then [g.dir]
    else
      var individual := SelectedKeys(g.files);
      if |individual| == |g.files| then [g.dir]
      else if |individual| > 0 then individual
      else []
  }

  /** What one group adds to sync_exclude. */
  function ExcludePart(g: Group): seq<string> {
    if g.included then ExcludedKeys(g.files) else []
  }

  /** sync_dirs and sync_exclude for the groups, group by group. */
  function Encoded(groups: seq<Group>): (r: (seq<string>, seq<string>))
    ensures forall x :: x in r.0 <==> exists g :: g in groups && x in DirsPart(g)
    ensures forall x :: x in r.1 <==> exists g :: g in groups && x in ExcludePart(g)
  {
    if groups == [] then ([], [])
    else
      var init := groups[..|groups| - 1];
      var last := groups[|groups| - 1];
      assert forall g :: g in groups <==> g in init || g == last;
      var r := Encoded(init);
      (r.0 + DirsPart(last), r.1 + ExcludePart(last))
  }

  method EncodeSelections(groups: seq<Group>) returns (syncDirs: seq<string>, syncExclude: seq<string>)
    ensures (syncDirs, syncExclude) == Encoded(groups)
  {
    syncDirs, syncExclude := [], [];
    for i := 0 to |groups|
      invariant (syncDirs, syncExclude) == Encoded(groups[..i])
    {
      syncDirs, syncExclude := EncodeGroup(groups[i], syncDirs, syncExclude);
      assert groups[..i + 1][..i] == groups[..i];
    }
    assert groups[..|groups|] == groups;
  }

  /** Go lines 123-146 for one group. */
  method EncodeGroup(g: Group, syncDirs: seq<string>, syncExclude: seq<string>)
    returns (syncDirs': seq<string>, syncExclude': seq<string>)
    ensures syncDirs' == syncDirs + DirsPart(g) && syncExclude' == syncExclude + ExcludePart(g)
  {
    syncDirs', syncExclude' := syncDirs, syncExclude;
    if !g.included {
      var individual := Individual(g.files);
      if |individual| == |g.files| {
        syncDirs' := syncDirs' + [g.dir];
      } else if |individual| > 0 {
        syncDirs' := syncDirs' + individual;
      } else {
        assert syncDirs' == syncDirs + [];
      }
      assert syncExclude' == syncExclude + [];
      return;
    }
    syncDirs' := syncDirs' + [g.dir];
    syncExclude' := AppendExcluded(syncExclude', g.files);
  }

  /** Go lines 125-130: the keys of a group's selected files. */
  method Individual(fs: seq<FileInfo>) returns (individual: seq<string>)
    ensures individual == SelectedKeys(fs)
  {
    individual := [];
    for j := 0 to |fs|
      invariant individual == SelectedKeys(fs[..j])
    {
      assert fs[..j + 1][..j] == fs[..j];
      if !fs[j].excluded {
        individual := individual + [fs[j].key];
      }
    }
    assert fs[..|fs|] == fs;
  }

  /** Go lines 142-146: the keys of a group's excluded files appended. */
  method AppendExcluded(syncExclude: seq<string>, fs: seq<FileInfo>) returns (r: seq<string>)
    ensures r == syncExclude + ExcludedKeys(fs)
  {
    r := syncExclude;
    for j := 0 to |fs|
      invariant r == syncExclude + ExcludedKeys(fs[..j])
    {
      assert fs[..j + 1][..j] == fs[..j];
      if fs[j].excluded {
        r := r + [fs[j].key];
      }
    }
    assert fs[..|fs|] == fs;
  }

  /** A toggled-on group is saved as its directory alone; a toggled-off one
      (with files) leaves nothing behind. */
  lemma ToggledContribution(g: Group)
    ensures Toggled(g).included ==> DirsPart(Toggled(g)) == [g.dir] && ExcludePart(Toggled(g)) == []
    ensures !Toggled(g).included && g.files != [] ==> DirsPart(Toggled(g)) == [] && ExcludePart(Toggled(g)) == []
  {
    var t := Toggled(g);
    if t.included {
      assert forall f :: f in t.files ==> !f.excluded;
    } else if g.files != [] {
      assert t.files[0] in t.files;
      assert forall f :: f in t.files ==> f.excluded;
    }
  }

  // ---- saving and reloading the selection ----

  /** No group's directory lies below another's. */
  ghost predicate Flat(groups: seq<Group>) {
    forall a, b :: 0 <= a < |groups| && 0 <= b < |groups| && InTree(groups[a].dir, groups[b].dir) ==> a == b
  }

  /** No group's directory is itself a manifest key. */
  ghost predicate DirsNotKeys(groups: seq<Group>, files: Files) {
    forall g :: g in groups ==> g.dir !in files
  }

  lemma MemberDir(groups: seq<Group>, files: Files, a: nat, f: FileInfo)
    requires Grouped(groups, files) && a < |groups| && f in groups[a].files
    ensures f.key in files && Dir(f.key) == groups[a].dir
  {
    assert groups[a] in groups;
    assert f.key in Keys(groups[a].files);
  }

  /** The only file of a group with a given key. */
  lemma SameKeySameFile(g: Group, files: Files, f: FileInfo, f2: FileInfo)
    requires GroupOk(g, files) && f in g.files && f2 in g.files && f.key == f2.key
    ensures f == f2
  {
    var i :| 0 <= i < |g.files| && g.files[i] == f;
    var j :| 0 <= j < |g.files| && g.files[j] == f2;
    assert KeyOf(g.files[i]) == KeyOf(g.files[j]);
  }

  /** An entry a group adds to sync_dirs is its directory or the key of
      one of its selected files. */
  lemma DirsPartMember(h: Group, x: string)
    requires x in DirsPart(h)
    ensures x == h.dir || exists f :: f in h.files && f.key == x && !f.excluded
  {
  }

  /** The encoded sync_dirs names a directory that covers group `i` exactly
      when the group adds its own directory. */
  lemma EncodedDirIncluded(groups: seq<Group>, files: Files, i: nat)
    requires Grouped(groups, files) && Flat(groups) && DirsNotKeys(groups, files) && i < |groups|
    ensures IncludedDir(groups[i].dir, Encoded(groups).0, files) <==> groups[i].dir in DirsPart(groups[i])
  {
    var g := groups[i];
    var enc := Encoded(groups);
    if IncludedDir(g.dir, enc.0, files) {
      var e :| e in enc.0 && e !in files && InTree(e, g.dir);
      var h :| h in groups && e in DirsPart(h);
      var a :| 0 <= a < |groups| && groups[a] == h;
      DirsPartMember(h, e);
      assert h in groups;
    }
    if g.dir in DirsPart(g) {
      assert g in groups;
      assert InTree(g.dir, g.dir);
    }
  }

  /** A file's key is in the encoded sync_exclude exactly when its group is
      included and the file is excluded. */
  lemma EncodedExclude(groups: seq<Group>, files: Files, i: nat, f: FileInfo)
    requires Grouped(groups, files) && i < |groups| && f in groups[i].files
    ensures f.key in Encoded(groups).1 <==> groups[i].included && f.excluded
  {
    var g := groups[i];
    if f.key in Encoded(groups).1 {
      var h :| h in groups && f.key in ExcludePart(h);
      var a :| 0 <= a < |groups| && groups[a] == h;
      var f2 :| f2 in h.files && f2.key == f.key && f2.excluded;
      MemberDir(groups, files, a, f2);
      MemberDir(groups, files, i, f);
      SameDirSameGroup(groups, files, a, i);
      assert g in groups;
      SameKeySameFile(g, files, f, f2);
    }
    if g.included && f.excluded {
      assert f.key in ExcludedKeys(g.files);
      assert g in groups;
    }
  }

  /** A file's key is in the encoded sync_dirs exactly when its own group
      added it. */
  lemma EncodedKey(groups: seq<Group>, files: Files, i: nat, f: FileInfo)
    requires Grouped(groups, files) && DirsNotKeys(groups, files) && i < |groups| && f in groups[i].files
    ensures f.key in Encoded(groups).0 <==> f.key in DirsPart(groups[i])
  {
    MemberDir(groups, files, i, f);
    if f.key in Encoded(groups).0 {
      var h :| h in groups && f.key in DirsPart(h);
      var a :| 0 <= a < |groups| && groups[a] == h;
      DirsPartMember(h, f.key);
      if f.key != h.dir {
        var f2 :| f2 in h.files && f2.key == f.key && !f2.excluded;
        MemberDir(groups, files, a, f2);
        SameDirSameGroup(groups, files, a, i);
      }
    }
    assert groups[i] in groups;
  }

  /** Saving the selection and reading it back gives every file the flag
      it had, as long as no group's directory is below another's and no
      directory is itself a manifest key. */
  lemma SelectionRoundTrip(groups: seq<Group>, files: Files, g: Group, f: FileInfo)
    requires Grouped(groups, files) && Flat(groups) && DirsNotKeys(groups, files)
    requires g in groups && f in g.files
    ensures ExcludedFile(f.key, g.dir, Encoded(groups).0, Encoded(groups).1, files) == f.excluded
  {
    var i :| 0 <= i < |groups| && groups[i] == g;
    EncodedDirIncluded(groups, files, i);
    EncodedExclude(groups, files, i, f);
    EncodedKey(groups, files, i, f);
    MemberDir(groups, files, i, f);
    assert GroupOk(g, files);
    if !g.included {
      var individual := SelectedKeys(g.files);
      if |individual| != |g.files| {
        assert g.dir !in individual;
      }
      if !f.excluded {
        assert f.key in individual;
      } else if f.key in individual {
        var f2 :| f2 in g.files && f2.key == f.key && !f2.excluded;
        SameKeySameFile(g, files, f, f2);
      }
    }
  }

  /** The groups built from the saved configuration select the same files
      as the groups that were saved. */
  lemma ReloadKeepsSelection(groups: seq<Group>, reloaded: seq<Group>, files: Files,
                             g: Group, f: FileInfo, g2: Group, f2: FileInfo)
    requires Grouped(groups, files) && Flat(groups) && DirsNotKeys(groups, files)
    requires Grouped(reloaded, files) && Flagged(reloaded, files, Encoded(groups).0, Encoded(groups).1)
    requires g in groups && f in g.files && g2 in reloaded && f2 in g2.files && f2.key == f.key
    ensures f2.excluded == f.excluded
  {
    var i :| 0 <= i < |groups| && groups[i] == g;
    var i2 :| 0 <= i2 < |reloaded| && reloaded[i2] == g2;
    MemberDir(groups, files, i, f);
    MemberDir(reloaded, files, i2, f2);
    SelectionRoundTrip(groups, files, g, f);
  }
}
