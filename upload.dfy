/** internal/upload/upload.go: scan the source tree into a manifest (reusing
    cached hashes), diff it against the published manifest, upload what is
    new or changed, delete what is gone, then publish the new manifest and
    save the pruned hash cache. Only the sequential transfer path is
    modelled. */
module Upload {
  import opened Wrappers
  import opened Bytes
  import opened Json
  import opened Strings
  import opened FileSystem
  import opened Manifest
  import opened Cache
  import Mock
  import Storage
  import Retry

  // ---- the walk ----

  predicate StartsWithDot(name: string) {
    |name| > 0 && name[0] == '.'
  }

  /** Some slash-separated component of `rel` starts with a dot. */
  predicate HasDotComponent(rel: string) {
    StartsWithDot(rel) || exists i :: 0 < i < |rel| && rel[i] == '.' && rel[i - 1] == '/'
  }

  /** filepath.Join(sourcePath, dir). */
  function DirPath(sourcePath: string, dir: string): string {
    Join([sourcePath, dir])
  }

  /** The path lies inside the source tree, so filepath.Rel gives it a key. */
  predicate Under(sourcePath: string, p: string) {
    sourcePath == "" || HasPrefix(p, sourcePath + "/")
  }

  /** The manifest key of a path: relative to the source, slash-separated. */
  function KeyFor(sourcePath: string, p: string): string
    requires Under(sourcePath, p)
  {
    if sourcePath == "" then p else p[|sourcePath| + 1..]
  }

  /** filepath.Join(sourcePath, key): where a key's file lives. */
  function PathFor(sourcePath: string, key: string): string {
    if sourcePath == "" then key else sourcePath + "/" + key
  }

  lemma PathForKeyFor(sourcePath: string, p: string)
    requires Under(sourcePath, p)
    ensures PathFor(sourcePath, KeyFor(sourcePath, p)) == p
  {
    if sourcePath != "" {
      assert p == (sourcePath + "/") + p[|sourcePath| + 1..];
    }
  }

  /** uploadSequential opens filepath.Join(sourcePath, key): for every
      non-empty key that is the path the scan recorded the key from. */
  lemma {:induction false} JoinIsPathFor(sourcePath: string, key: string)
    requires key != ""
    ensures Join([sourcePath, key]) == PathFor(sourcePath, key)
  {
    assert [sourcePath][..0] == [];
    assert Join([sourcePath]) == sourcePath;
    assert [sourcePath, key][..1] == [sourcePath];
    assert Join([sourcePath, key]) == (if sourcePath == "" then key else sourcePath + "/" + key);
  }

  /** With SkipDotfiles, WalkDir skips a file whose own name, or the name of
      any directory from the walk root down to it, starts with a dot. */
  predicate Hidden(root: string, p: string)
    requires InTree(root, p)
  {
    StartsWithDot(Base(root)) || (p != root && HasDotComponent(p[|root| + 1..]))
  }

  /** The walk of sync dir `dir` hands the callback the regular file `p`:
      the walk root exists (os.Stat neither reports it missing nor fails),
      `p` is the root itself or below it, and it is not skipped as hidden. */
  predicate Walked(disk: Disk, sourcePath: string, dir: string, skipDotfiles: bool, p: string)
    reads disk
  {
    var root := DirPath(sourcePath, dir);
    (disk.Stat(root).IsFile? || disk.Stat(root).IsDir?)
    && p in disk.files && InTree(root, p) && Under(sourcePath, p)
    && !(skipDotfiles && Hidden(root, p))
  }

  predicate WalkedAny(disk: Disk, sourcePath: string, syncDirs: seq<string>, skipDotfiles: bool, p: string)
    reads disk
  {
    exists i :: 0 <= i < |syncDirs| && Walked(disk, sourcePath, syncDirs[i], skipDotfiles, p)
  }

  /** The entry the scan records for a file: its size, and the cached hash
      when the cache holds a non-empty one for this size and mtime, else the
      file's MD5. */
  function EntryFor(lib: Lib, cache0: map<string, CacheEntry>, key: string, f: DiskFile): FileEntry {
    var hit := LookupIn(cache0, key, |f.data|, f.mtime);
    FileEntry(|f.data|, if hit.Some? && hit.value != "" then hit.value else lib.md5(f.data))
  }

  /** All files the walks of the sync dirs hand to the callback. */
  ghost function WalkedSet(disk: Disk, sourcePath: string, syncDirs: seq<string>, skipDotfiles: bool): set<string>
    reads disk
  {
    set p | p in disk.files && WalkedAny(disk, sourcePath, syncDirs, skipDotfiles, p)
  }

  /** Every scanned key comes from a walked file and records that file's
      entry (`fs` is the file tree, `walked` the walked paths). */
  ghost predicate ScanSound(lib: Lib, fs: map<string, DiskFile>, walked: set<string>,
                            cache0: map<string, CacheEntry>, sourcePath: string, files: map<string, FileEntry>)
  {
    forall k :: k in files ==>
      var p := PathFor(sourcePath, k);
      p in walked && p in fs && Under(sourcePath, p) && KeyFor(sourcePath, p) == k
      && files[k] == EntryFor(lib, cache0, k, fs[p])
  }

  /** Every walked file was scanned. */
  ghost predicate ScanComplete(walked: set<string>, sourcePath: string, files: map<string, FileEntry>)
  {
    forall p :: p in walked && Under(sourcePath, p) ==> KeyFor(sourcePath, p) in files
  }

  /** The cache after a scan, pointwise: each scanned key holds the size,
      mtime and hash just recorded; every other entry is as it was. */
  ghost predicate ScanCache(fs: map<string, DiskFile>, sourcePath: string, cache0: map<string, CacheEntry>,
                            files: map<string, FileEntry>, cacheNow: map<string, CacheEntry>)
  {
    && (forall k :: k in cacheNow <==> k in cache0 || k in files)
    && (forall k :: k in cacheNow && k !in files ==> cacheNow[k] == cache0[k])
    && (forall k :: k in files && PathFor(sourcePath, k) in fs ==>
          k in cacheNow && cacheNow[k] == CacheEntry(files[k].size, fs[PathFor(sourcePath, k)].mtime, files[k].md5))
  }

  /** Every scanned key whose file looked up as a hit in the starting cache
      was counted. */
  ghost predicate HitsCounted(fs: map<string, DiskFile>, sourcePath: string, cache0: map<string, CacheEntry>,
                              files: map<string, FileEntry>, hits: seq<string>)
  {
    forall k :: k in files && PathFor(sourcePath, k) in fs
      && LookupIn(cache0, k, files[k].size, fs[PathFor(sourcePath, k)].mtime).Some?
      ==> k in hits
  }

  /** What holds of the scan at every step of the walk. */
  ghost predicate ScanState(lib: Lib, fs: map<string, DiskFile>, walked: set<string>,
                            cache0: map<string, CacheEntry>, sourcePath: string, files: map<string, FileEntry>,
                            cacheNow: map<string, CacheEntry>, hits: seq<string>)
  {
    ScanSound(lib, fs, walked, cache0, sourcePath, files)
    && ScanCache(fs, sourcePath, cache0, files, cacheNow)
    && HitsCounted(fs, sourcePath, cache0, files, hits)
  }

  /** The callback's cache.lookup(key, size, mtime) hits for the walked
      file `p` in `cache`. */
  ghost predicate HitIn(cache: map<string, CacheEntry>, fs: map<string, DiskFile>, sourcePath: string, p: string) {
    p in fs && Under(sourcePath, p) && LookupIn(cache, KeyFor(sourcePath, p), |fs[p].data|, fs[p].mtime).Some?
  }

  /** The cache hit counter after the callback has visited the files
      `visits` in order: a visit counts when the starting cache hits, or
      when an earlier visit of the same file could read it and so recorded
      its entry (a file lying under two sync dirs is visited twice). */
  ghost function CountHits(cache0: map<string, CacheEntry>, fs: map<string, DiskFile>, sourcePath: string,
                           readFails: set<string>, visits: seq<string>): nat
  {
    if visits == [] then 0
    else
      var init := visits[..|visits| - 1];
      var p := visits[|visits| - 1];
      CountHits(cache0, fs, sourcePath, readFails, init)
      + (if HitIn(cache0, fs, sourcePath, p) || (p in init && p !in readFails) then 1 else 0)
  }

  /** The live cache answers every walked file's lookup as CountHits
      assumes after `visits`. */
  ghost predicate CacheReflects(cache0: map<string, CacheEntry>, cacheNow: map<string, CacheEntry>,
                                fs: map<string, DiskFile>, sourcePath: string, readFails: set<string>,
                                walked: set<string>, visits: seq<string>)
  {
    forall q :: q in walked && q in fs && Under(sourcePath, q) ==>
      (HitIn(cacheNow, fs, sourcePath, q) <==> HitIn(cache0, fs, sourcePath, q) || (q in visits && q !in readFails))
  }

  /** Visiting `p` counts one more hit exactly when its lookup in the live
      cache hits, and the cache it leaves (unchanged, or `p`'s entry
      recorded after reading it) still answers as CountHits assumes. */
  lemma ReflectsAfterVisit(cache0: map<string, CacheEntry>, before: map<string, CacheEntry>,
                           after: map<string, CacheEntry>, fs: map<string, DiskFile>, sourcePath: string,
                           readFails: set<string>, walked: set<string>, visits: seq<string>, p: string, h: string)
    requires CacheReflects(cache0, before, fs, sourcePath, readFails, walked, visits)
    requires p in walked && p in fs && Under(sourcePath, p)
    requires (after == before && (HitIn(before, fs, sourcePath, p) || p in readFails))
             || (after == before[KeyFor(sourcePath, p) := CacheEntry(|fs[p].data|, fs[p].mtime, h)]
                 && p !in readFails)
    ensures CacheReflects(cache0, after, fs, sourcePath, readFails, walked, visits + [p])
    ensures CountHits(cache0, fs, sourcePath, readFails, visits + [p])
            == CountHits(cache0, fs, sourcePath, readFails, visits) + (if HitIn(before, fs, sourcePath, p) then 1 else 0)
  {
    assert (visits + [p])[..|visits|] == visits;
    forall q | q in walked && q in fs && Under(sourcePath, q)
      ensures HitIn(after, fs, sourcePath, q)
              <==> HitIn(cache0, fs, sourcePath, q) || (q in visits + [p] && q !in readFails)
    {
      if q != p {
        PathForKeyFor(sourcePath, p);
        PathForKeyFor(sourcePath, q);
        assert KeyFor(sourcePath, q) != KeyFor(sourcePath, p);
        assert HitIn(after, fs, sourcePath, q) == HitIn(before, fs, sourcePath, q);
      }
    }
  }

  /** When no file is visited twice, the counter is the number of visited
      files whose lookup in the starting cache hits. */
  lemma {:induction false} CountHitsDistinct(cache0: map<string, CacheEntry>, fs: map<string, DiskFile>,
                                             sourcePath: string, readFails: set<string>, visits: seq<string>)
    requires NoDuplicates(visits)
    ensures CountHits(cache0, fs, sourcePath, readFails, visits)
            == |set p | p in visits && HitIn(cache0, fs, sourcePath, p)|
  {
    if visits != [] {
      var init := visits[..|visits| - 1];
      var p := visits[|visits| - 1];
      assert NoDuplicates(init);
      CountHitsDistinct(cache0, fs, sourcePath, readFails, init);
      assert p !in init by {
        forall i | 0 <= i < |init| ensures init[i] != p {
          assert visits[i] != visits[|visits| - 1];
        }
      }
      var before := set q | q in init && HitIn(cache0, fs, sourcePath, q);
      var now := set q | q in visits && HitIn(cache0, fs, sourcePath, q);
      assert visits == init + [p];
      if HitIn(cache0, fs, sourcePath, p) {
        assert now == before + {p};
      } else {
        assert now == before;
      }
    }
  }

  /** The cached hash the callback would use, when usable, is the one
      EntryFor promises, and the cache entry already says so. */
  lemma CachedHashAgrees(lib: Lib, fs: map<string, DiskFile>, walked: set<string>,
                         cache0: map<string, CacheEntry>, sourcePath: string, files: map<string, FileEntry>,
                         cacheNow: map<string, CacheEntry>, p: string)
    requires ScanSound(lib, fs, walked, cache0, sourcePath, files)
    requires ScanCache(fs, sourcePath, cache0, files, cacheNow)
    requires p in fs && Under(sourcePath, p)
    ensures var key := KeyFor(sourcePath, p);
      var f := fs[p];
      var e := EntryFor(lib, cache0, key, f);
      var cached := LookupIn(cacheNow, key, |f.data|, f.mtime);
      && (cached.Some? && cached.value != "" ==>
            cached.value == e.md5 && cacheNow[key] == CacheEntry(|f.data|, f.mtime, e.md5))
      && (!(cached.Some? && cached.value != "") ==> e.md5 == lib.md5(f.data))
      && (LookupIn(cache0, key, |f.data|, f.mtime).Some? ==> cached.Some?)
  {
    var key := KeyFor(sourcePath, p);
    PathForKeyFor(sourcePath, p);
    if key in files {
      assert files[key] == EntryFor(lib, cache0, key, fs[p]);
    }
  }

  /** Recording an entry together with its cache entry keeps the cache in
      step with the scan. */
  lemma CacheAfterRecord(fs: map<string, DiskFile>, sourcePath: string, cache0: map<string, CacheEntry>,
                         files: map<string, FileEntry>, cacheNow: map<string, CacheEntry>,
                         key: string, e: FileEntry)
    requires ScanCache(fs, sourcePath, cache0, files, cacheNow)
    requires PathFor(sourcePath, key) in fs
    ensures ScanCache(fs, sourcePath, cache0, files[key := e],
                      cacheNow[key := CacheEntry(e.size, fs[PathFor(sourcePath, key)].mtime, e.md5)])
  {
  }

  /** Counting one more hit, or recording a key whose lookup in the
      starting cache hit and was counted, keeps every hit counted. */
  lemma HitsAfterRecord(fs: map<string, DiskFile>, sourcePath: string, cache0: map<string, CacheEntry>,
                        files: map<string, FileEntry>, hits: seq<string>, extra: seq<string>,
                        key: string, e: FileEntry)
    requires HitsCounted(fs, sourcePath, cache0, files, hits)
    requires (PathFor(sourcePath, key) in fs
              && LookupIn(cache0, key, e.size, fs[PathFor(sourcePath, key)].mtime).Some?) ==> key in extra
    ensures HitsCounted(fs, sourcePath, cache0, files, hits + extra)
    ensures HitsCounted(fs, sourcePath, cache0, files[key := e], hits + extra)
  {
    forall k | k in files[key := e] && PathFor(sourcePath, k) in fs
      && LookupIn(cache0, k, files[key := e][k].size, fs[PathFor(sourcePath, k)].mtime).Some?
      ensures k in hits + extra
    {
      if k != key {
        assert k in hits;
      }
    }
  }

  /** Recording a walked file's entry keeps the scan sound. */
  lemma SoundAfterRecord(lib: Lib, fs: map<string, DiskFile>, walked: set<string>,
                         cache0: map<string, CacheEntry>, sourcePath: string, files: map<string, FileEntry>,
                         p: string)
    requires ScanSound(lib, fs, walked, cache0, sourcePath, files)
    requires p in walked && p in fs && Under(sourcePath, p)
    ensures var key := KeyFor(sourcePath, p);
      ScanSound(lib, fs, walked, cache0, sourcePath, files[key := EntryFor(lib, cache0, key, fs[p])])
  {
    PathForKeyFor(sourcePath, p);
  }

  /** The hash decision of the WalkDir callback: the cached hash when the
      lookup hits with a non-empty one, otherwise the file's MD5, which is
      then stored in the cache. `hash` is None when hashing failed;
      `counted` says that the lookup hit. */
  method ResolveHash(lib: Lib, disk: Disk, cache: HashCache, key: string, p: string)
    returns (hash: Option<string>, counted: bool)
    requires p in disk.files
    modifies cache
    ensures var f := disk.files[p];
      counted <==> old(LookupIn(cache.files, key, |f.data|, f.mtime)).Some?
    ensures var f := disk.files[p];
      var cached := old(LookupIn(cache.files, key, |f.data|, f.mtime));
      if cached.Some? && cached.value != "" then
        hash == cached && cache.files == old(cache.files)
      else if p in disk.readFails then
        hash == None && cache.files == old(cache.files)
      else
        hash == Some(lib.md5(f.data))
        && cache.files == old(cache.files)[key := CacheEntry(|f.data|, f.mtime, lib.md5(f.data))]
  {
    var f := disk.files[p];
    var size := |f.data|;
    var h := "";
    var cached := cache.Lookup(key, size, f.mtime);
    counted := cached.Some?;
    if cached.Some? {
      h := cached.value;
    }
    if h == "" {
      var r := HashFile(lib, disk, p);
      if r.Err? {
        return None, counted;
      }
      h := r.value;
      cache.Update(key, size, f.mtime, h);
    }
    hash := Some(h);
  }

  /** The callback of WalkDir for one walked file: resolve its hash,
      record its entry. `ok` is false when hashing failed, which ends the
      walk of this sync dir. */
  method ScanFile(lib: Lib, disk: Disk, sourcePath: string, cache: HashCache,
                  ghost walked: set<string>, ghost cache0: map<string, CacheEntry>,
                  p: string, files: map<string, FileEntry>, cacheHits: nat, ghost hits: seq<string>)
    returns (files': map<string, FileEntry>, cacheHits': nat, ghost hits': seq<string>, ok: bool)
    requires p in walked && p in disk.files && Under(sourcePath, p)
    requires ScanState(lib, disk.files, walked, cache0, sourcePath, files, cache.files, hits)
    requires |hits| == cacheHits
    modifies cache
    ensures ScanState(lib, disk.files, walked, cache0, sourcePath, files', cache.files, hits')
    ensures |hits'| == cacheHits'
    // One more hit exactly when the lookup hits.
    ensures cacheHits' == cacheHits + (if old(HitIn(cache.files, disk.files, sourcePath, p)) then 1 else 0)
    // The cache is left as it was (a usable hit, or an unreadable file), or
    // records the file's size, mtime and MD5.
    ensures (cache.files == old(cache.files) && (old(HitIn(cache.files, disk.files, sourcePath, p)) || p in disk.readFails))
            || (cache.files == old(cache.files)[KeyFor(sourcePath, p) :=
                                 CacheEntry(|disk.files[p].data|, disk.files[p].mtime, lib.md5(disk.files[p].data))]
                && p !in disk.readFails)
    ensures ok ==> files'.Keys == files.Keys + {KeyFor(sourcePath, p)}
    ensures !ok ==> files' == files && p in disk.readFails
  {
    ghost var fs := disk.files;
    var key := KeyFor(sourcePath, p);
    var f := disk.files[p];
    PathForKeyFor(sourcePath, p);
    CachedHashAgrees(lib, fs, walked, cache0, sourcePath, files, cache.files, p);
    ghost var e := EntryFor(lib, cache0, key, f);
    ghost var hit := HitIn(cache.files, disk.files, sourcePath, p);
    var hash, counted := ResolveHash(lib, disk, cache, key, p);
    assert counted == hit;
    ghost var extra: seq<string> := if counted then [key] else [];
    cacheHits' := if counted then cacheHits + 1 else cacheHits;
    hits' := hits + extra;
    HitsAfterRecord(fs, sourcePath, cache0, files, hits, extra, key, e);
    if hash.None? {
      return files, cacheHits', hits', false;
    }
    if cache.files == old(cache.files) {
      assert cache.files == cache.files[key := CacheEntry(|f.data|, f.mtime, e.md5)];
    }
    CacheAfterRecord(fs, sourcePath, cache0, files, old(cache.files), key, e);
    files' := files[key := FileEntry(|f.data|, hash.value)];
    ok := true;
    SoundAfterRecord(lib, fs, walked, cache0, sourcePath, files, p);
  }

  /** ScanFile for the next file of a walk, as the hit counter sees it:
      the count after `visits` becomes the count after `visits + [p]`. */
  method VisitFile(lib: Lib, disk: Disk, sourcePath: string, cache: HashCache,
                   ghost walked: set<string>, ghost cache0: map<string, CacheEntry>, ghost visits: seq<string>,
                   p: string, files: map<string, FileEntry>, cacheHits: nat, ghost hits: seq<string>)
    returns (files': map<string, FileEntry>, cacheHits': nat, ghost hits': seq<string>, ok: bool)
    requires p in walked && p in disk.files && Under(sourcePath, p)
    requires ScanState(lib, disk.files, walked, cache0, sourcePath, files, cache.files, hits)
    requires |hits| == cacheHits
    requires CacheReflects(cache0, cache.files, disk.files, sourcePath, disk.readFails, walked, visits)
    requires cacheHits == CountHits(cache0, disk.files, sourcePath, disk.readFails, visits)
    modifies cache
    ensures ScanState(lib, disk.files, walked, cache0, sourcePath, files', cache.files, hits')
    ensures |hits'| == cacheHits'
    ensures cacheHits' == CountHits(cache0, disk.files, sourcePath, disk.readFails, visits + [p])
    ensures CacheReflects(cache0, cache.files, disk.files, sourcePath, disk.readFails, walked, visits + [p])
    ensures ok ==> files'.Keys == files.Keys + {KeyFor(sourcePath, p)}
    ensures !ok ==> files' == files && p in disk.readFails
  {
    ghost var before := cache.files;
    files', cacheHits', hits', ok := ScanFile(lib, disk, sourcePath, cache, walked, cache0, p, files, cacheHits, hits);
    ReflectsAfterVisit(cache0, before, cache.files, disk.files, sourcePath, disk.readFails, walked, visits, p,
                       lib.md5(disk.files[p].data));
  }

  /** filepath.WalkDir over one sync dir: the walked files, in an order the
      model leaves open, until the first hashing failure. */
  method WalkSyncDir(lib: Lib, disk: Disk, sourcePath: string, syncDirs: seq<string>, skipDotfiles: bool,
                     cache: HashCache, ghost cache0: map<string, CacheEntry>, ghost visits: seq<string>, i: nat,
                     files: map<string, FileEntry>, cacheHits: nat, ghost hits: seq<string>)
    returns (files': map<string, FileEntry>, cacheHits': nat, ghost hits': seq<string>, ok: bool,
             ghost seen: seq<string>)
    requires i < |syncDirs|
    requires ScanState(lib, disk.files, WalkedSet(disk, sourcePath, syncDirs, skipDotfiles), cache0,
                       sourcePath, files, cache.files, hits)
    requires |hits| == cacheHits
    requires CacheReflects(cache0, cache.files, disk.files, sourcePath, disk.readFails,
                           WalkedSet(disk, sourcePath, syncDirs, skipDotfiles), visits)
    requires cacheHits == CountHits(cache0, disk.files, sourcePath, disk.readFails, visits)
    modifies cache
    ensures ScanState(lib, disk.files, WalkedSet(disk, sourcePath, syncDirs, skipDotfiles), cache0,
                      sourcePath, files', cache.files, hits')
    ensures |hits'| == cacheHits'
    // `seen` is the order in which this walk visited its files.
    ensures cacheHits' == CountHits(cache0, disk.files, sourcePath, disk.readFails, visits + seen)
    ensures CacheReflects(cache0, cache.files, disk.files, sourcePath, disk.readFails,
                          WalkedSet(disk, sourcePath, syncDirs, skipDotfiles), visits + seen)
    ensures NoDuplicates(seen)
    ensures forall p :: p in seen ==> Walked(disk, sourcePath, syncDirs[i], skipDotfiles, p)
    ensures ok ==> forall p :: Walked(disk, sourcePath, syncDirs[i], skipDotfiles, p) ==> p in seen
    ensures files.Keys <= files'.Keys
    ensures ok ==> forall p :: Walked(disk, sourcePath, syncDirs[i], skipDotfiles, p) ==> KeyFor(sourcePath, p) in files'
    ensures !ok ==> exists p :: p in WalkedSet(disk, sourcePath, syncDirs, skipDotfiles) && p in disk.readFails
  {
    ghost var walked := WalkedSet(disk, sourcePath, syncDirs, skipDotfiles);
    files', cacheHits', hits' := files, cacheHits, hits;
    ok, seen := true, [];
    assert visits + seen == visits;
    var root := DirPath(sourcePath, syncDirs[i]);
    var st := disk.Stat(root);
    if st == Missing || st == StatError {
      return;
    }
    var todo := set p | p in disk.files.Keys && Walked(disk, sourcePath, syncDirs[i], skipDotfiles, p);
    forall p | p in todo ensures p in walked {
      assert WalkedAny(disk, sourcePath, syncDirs, skipDotfiles, p);
    }
    files', cacheHits', hits', ok, seen := ScanFiles(lib, disk, sourcePath, cache, walked, cache0, visits, todo,
                                                     files, cacheHits, hits);
  }

  /** The callback over the files of one walk, in an order the model leaves
      open, until the first hashing failure. */
  /** One more visited file keeps `seen` free of repeats and equal to the
      files of `todo` no longer `left`. */
  lemma SeenStep(visits: seq<string>, seen: seq<string>, todo: set<string>, left: set<string>, p: string)
    requires NoDuplicates(seen)
    requires forall q :: q in seen <==> q in todo && q !in left
    requires p in left && left <= todo
    ensures NoDuplicates(seen + [p])
    ensures forall q :: q in seen + [p] <==> q in todo && q !in left - {p}
    ensures (visits + seen) + [p] == visits + (seen + [p])
  {
  }

  method ScanFiles(lib: Lib, disk: Disk, sourcePath: string, cache: HashCache,
                   ghost walked: set<string>, ghost cache0: map<string, CacheEntry>, ghost visits: seq<string>,
                   todo: set<string>, files: map<string, FileEntry>, cacheHits: nat, ghost hits: seq<string>)
    returns (files': map<string, FileEntry>, cacheHits': nat, ghost hits': seq<string>, ok: bool,
             ghost seen: seq<string>)
    requires forall p :: p in todo ==> p in walked && p in disk.files && Under(sourcePath, p)
    requires ScanState(lib, disk.files, walked, cache0, sourcePath, files, cache.files, hits)
    requires |hits| == cacheHits
    requires CacheReflects(cache0, cache.files, disk.files, sourcePath, disk.readFails, walked, visits)
    requires cacheHits == CountHits(cache0, disk.files, sourcePath, disk.readFails, visits)
    modifies cache
    ensures ScanState(lib, disk.files, walked, cache0, sourcePath, files', cache.files, hits')
    ensures |hits'| == cacheHits'
    // `seen` is the order in which the files were visited.
    ensures cacheHits' == CountHits(cache0, disk.files, sourcePath, disk.readFails, visits + seen)
    ensures CacheReflects(cache0, cache.files, disk.files, sourcePath, disk.readFails, walked, visits + seen)
    ensures NoDuplicates(seen) && (forall p :: p in seen ==> p in todo)
    ensures ok ==> forall p :: p in todo ==> p in seen
    ensures files.Keys <= files'.Keys
    ensures ok ==> forall p :: p in todo ==> KeyFor(sourcePath, p) in files'
    ensures !ok ==> exists p :: p in todo && p in disk.readFails
  {
    files', cacheHits', hits' := files, cacheHits, hits;
    ok, seen := true, [];
    assert visits + seen == visits;
    var left := todo;
    while left != {}
      invariant left <= todo
      invariant ScanState(lib, disk.files, walked, cache0, sourcePath, files', cache.files, hits')
      invariant |hits'| == cacheHits'
      invariant files.Keys <= files'.Keys
      invariant forall p :: p in todo && p !in left ==> KeyFor(sourcePath, p) in files'
      invariant cacheHits' == CountHits(cache0, disk.files, sourcePath, disk.readFails, visits + seen)
      invariant CacheReflects(cache0, cache.files, disk.files, sourcePath, disk.readFails, walked, visits + seen)
      invariant NoDuplicates(seen)
      invariant forall p :: p in seen <==> p in todo && p !in left
      decreases left
    {
      var p :| p in left;
      var more;
      files', cacheHits', hits', more := VisitFile(lib, disk, sourcePath, cache, walked, cache0, visits + seen, p,
                                                   files', cacheHits', hits');
      SeenStep(visits, seen, todo, left, p);
      seen := seen + [p];
      if !more {
        return files', cacheHits', hits', false, seen;
      }
      left := left - {p};
    }
  }

  /** buildManifest. The walk order is left open (WalkDir's lexical order is
      one of those allowed). `hits` lists the keys counted as cache hits
      and `visits` the walked files in the order the callback saw them. */
  method BuildManifest(lib: Lib, disk: Disk, sourcePath: string, syncDirs: seq<string>, skipDotfiles: bool,
                       cache: HashCache, now: int)
    returns (m: Manifest, cacheHits: nat, ghost hits: seq<string>, ghost visits: seq<string>)
    modifies cache
    ensures m.version == 1 && m.generatedAt == now
    ensures ScanState(lib, disk.files, WalkedSet(disk, sourcePath, syncDirs, skipDotfiles), old(cache.files),
                      sourcePath, m.files, cache.files, hits)
    ensures (forall p :: p in WalkedSet(disk, sourcePath, syncDirs, skipDotfiles) ==> p !in disk.readFails) ==>
              ScanComplete(WalkedSet(disk, sourcePath, syncDirs, skipDotfiles), sourcePath, m.files)
    ensures |hits| == cacheHits
    ensures cacheHits == CountHits(old(cache.files), disk.files, sourcePath, disk.readFails, visits)
    ensures forall p :: p in visits ==> p in WalkedSet(disk, sourcePath, syncDirs, skipDotfiles)
    ensures (forall p :: p in WalkedSet(disk, sourcePath, syncDirs, skipDotfiles) ==> p !in disk.readFails) ==>
              forall p :: p in WalkedSet(disk, sourcePath, syncDirs, skipDotfiles) ==> p in visits
  {
    ghost var cache0 := cache.files;
    ghost var walked := WalkedSet(disk, sourcePath, syncDirs, skipDotfiles);
    m := New(now);
    cacheHits, hits, visits := 0, [], [];
    ghost var failed := false;
    for i := 0 to |syncDirs|
      invariant ScanState(lib, disk.files, walked, cache0, sourcePath, m.files, cache.files, hits)
      invariant |hits| == cacheHits
      invariant cacheHits == CountHits(cache0, disk.files, sourcePath, disk.readFails, visits)
      invariant CacheReflects(cache0, cache.files, disk.files, sourcePath, disk.readFails, walked, visits)
      invariant forall p :: p in visits ==> p in walked
      invariant m.version == 1 && m.generatedAt == now
      invariant failed ==> exists p :: p in walked && p in disk.readFails
      invariant !failed ==> Covered(disk, sourcePath, syncDirs, skipDotfiles, i, visits, m.files)
    {
      var files, ok;
      ghost var seen;
      files, cacheHits, hits, ok, seen := WalkSyncDir(lib, disk, sourcePath, syncDirs, skipDotfiles, cache,
                                                      cache0, visits, i, m.files, cacheHits, hits);
      WalkedInSet(disk, sourcePath, syncDirs, skipDotfiles, i, visits, seen);
      if ok && !failed {
        CoveredStep(disk, sourcePath, syncDirs, skipDotfiles, i, visits, seen, m.files, files);
      }
      visits := visits + seen;
      m := m.(files := files);
      if !ok {
        failed := true;
      }
    }
    if !failed {
      CoveredAll(disk, sourcePath, syncDirs, skipDotfiles, visits, m.files);
    }
  }

  /** Every file of the first `n` sync directories was visited and has
      its key recorded. */
  ghost predicate Covered(disk: Disk, sourcePath: string, syncDirs: seq<string>, skipDotfiles: bool, n: nat,
                          visits: seq<string>, files: map<string, FileEntry>)
    reads disk
  {
    forall j, p :: 0 <= j < n && j < |syncDirs| && Walked(disk, sourcePath, syncDirs[j], skipDotfiles, p) ==>
      p in visits && KeyFor(sourcePath, p) in files
  }

  lemma WalkedInSet(disk: Disk, sourcePath: string, syncDirs: seq<string>, skipDotfiles: bool, i: nat,
                    visits: seq<string>, seen: seq<string>)
    requires i < |syncDirs|
    requires forall p :: p in visits ==> p in WalkedSet(disk, sourcePath, syncDirs, skipDotfiles)
    requires forall p :: p in seen ==> Walked(disk, sourcePath, syncDirs[i], skipDotfiles, p)
    ensures forall p :: p in visits + seen ==> p in WalkedSet(disk, sourcePath, syncDirs, skipDotfiles)
  {
    forall p | p in visits + seen ensures p in WalkedSet(disk, sourcePath, syncDirs, skipDotfiles) {
      if p in seen {
        assert WalkedAny(disk, sourcePath, syncDirs, skipDotfiles, p);
      }
    }
  }

  lemma CoveredStep(disk: Disk, sourcePath: string, syncDirs: seq<string>, skipDotfiles: bool, i: nat,
                    visits: seq<string>, seen: seq<string>, files: map<string, FileEntry>,
                    files': map<string, FileEntry>)
    requires i < |syncDirs|
    requires Covered(disk, sourcePath, syncDirs, skipDotfiles, i, visits, files)
    requires forall p :: Walked(disk, sourcePath, syncDirs[i], skipDotfiles, p) ==> p in seen
    requires forall p :: Walked(disk, sourcePath, syncDirs[i], skipDotfiles, p) ==> KeyFor(sourcePath, p) in files'
    requires files.Keys <= files'.Keys
    ensures Covered(disk, sourcePath, syncDirs, skipDotfiles, i + 1, visits + seen, files')
  {
  }

  lemma CoveredAll(disk: Disk, sourcePath: string, syncDirs: seq<string>, skipDotfiles: bool,
                   visits: seq<string>, files: map<string, FileEntry>)
    requires Covered(disk, sourcePath, syncDirs, skipDotfiles, |syncDirs|, visits, files)
    ensures ScanComplete(WalkedSet(disk, sourcePath, syncDirs, skipDotfiles), sourcePath, files)
    ensures forall p :: p in WalkedSet(disk, sourcePath, syncDirs, skipDotfiles) ==> p in visits
  {
  }

  // ---- transfers ----

  datatype Options = Options(
    sourcePath: string, syncDirs: seq<string>, dryRun: bool, verbose: bool, manifestOnly: bool,
    workers: int, maxRetries: int, skipDotfiles: bool, cachePath: string)

  datatype UploadResult = UploadResult(
    uploaded: seq<string>, skipped: int, deleted: seq<string>, errors: seq<string>, cacheHits: nat)

  /** What one UploadFile call for `key` returns: the injected error, the
      local read error, or success. The mock's outcome does not depend on
      the objects it holds, so every retry of a key gets the same answer. */
  function UploadOutcome(uploadErrors: map<string, string>, disk: Disk, sourcePath: string, key: string)
    : Option<string>
    reads disk
  {
    if key in uploadErrors then Some(uploadErrors[key])
    else match disk.ReadFile(Join([sourcePath, key]))
      case Err(e) => Some(e)
      case Ok(_) => None
  }

  function Repeat(x: string, n: nat): (r: seq<string>)
    ensures |r| == n && forall i :: 0 <= i < n ==> r[i] == x
  {
    if n == 0 then [] else Repeat(x, n - 1) + [x]
  }

  /** retry.WithBackoff around UploadFile for one key (the context is never
      cancelled here, so the delays only pass time). With a negative
      maxRetries no attempt runs: nil is returned and the bucket is not
      touched. */
  method UploadWithRetry(backend: Mock.MockBackend, disk: Disk, sourcePath: string, key: string, maxRetries: int)
    returns (err: Option<string>)
    modifies backend`objects, backend`calls
    ensures err == Retry.ConstantResult(maxRetries, UploadOutcome(backend.uploadErrors, disk, sourcePath, key))
    ensures var t := Retry.Run(maxRetries, _ => err, _ => false, _ => 0, "", 0);
      t.err == err && backend.calls == old(backend.calls) + Repeat("UploadFile:" + key, t.calls)
    ensures maxRetries >= 0 && err.None? ==>
      backend.objects == old(backend.objects)[key := disk.files[Join([sourcePath, key])].data]
    ensures maxRetries < 0 || err.Some? ==> backend.objects == old(backend.objects)
  {
    if maxRetries < 0 {
      // The attempt loop's condition fails at once.
      Retry.ConstantOutcome(maxRetries, None, _ => false, _ => 0, "", 0);
      assert backend.calls + Repeat("UploadFile:" + key, 0) == backend.calls;
      return None;
    }
    var localPath := Join([sourcePath, key]);
    ghost var outcome := UploadOutcome(backend.uploadErrors, disk, sourcePath, key);
    var attempt := 0;
    err := backend.UploadFile(key, localPath, disk);
    while err.Some? && attempt < maxRetries
      invariant 0 <= attempt <= maxRetries
      invariant err == outcome
      invariant backend.calls == old(backend.calls) + Repeat("UploadFile:" + key, attempt + 1)
      invariant err.Some? ==> backend.objects == old(backend.objects)
      invariant err.None? ==>
                  attempt == 0 && backend.objects == old(backend.objects)[key := disk.files[localPath].data]
      decreases maxRetries - attempt
    {
      attempt := attempt + 1;
      err := backend.UploadFile(key, localPath, disk);
    }
    Retry.ConstantOutcome(maxRetries, err, _ => false, _ => 0, "", 0);
  }

  /** What UploadWithRetry reports for `key`. */
  function RetriedOutcome(uploadErrors: map<string, string>, disk: Disk, sourcePath: string, maxRetries: int,
                          key: string): Option<string>
    reads disk
  {
    Retry.ConstantResult(maxRetries, UploadOutcome(uploadErrors, disk, sourcePath, key))
  }

  function Uploaded(uploadErrors: map<string, string>, disk: Disk, sourcePath: string, maxRetries: int,
                    keys: seq<string>)
    : seq<string>
    reads disk
  {
    if keys == [] then []
    else
      var k := keys[|keys| - 1];
      Uploaded(uploadErrors, disk, sourcePath, maxRetries, keys[..|keys| - 1])
      + (if RetriedOutcome(uploadErrors, disk, sourcePath, maxRetries, k).None? then [k] else [])
  }

  function UploadErrors(uploadErrors: map<string, string>, disk: Disk, sourcePath: string, maxRetries: int,
                        keys: seq<string>)
    : seq<string>
    reads disk
  {
    if keys == [] then []
    else
      var k := keys[|keys| - 1];
      UploadErrors(uploadErrors, disk, sourcePath, maxRetries, keys[..|keys| - 1])
      + match RetriedOutcome(uploadErrors, disk, sourcePath, maxRetries, k)
        case Some(e) => ["upload " + k + ": " + e]
        case None => []
  }

  /** The bucket after uploading `keys` in order. */
  function AfterUploads(objects: map<string, Bytes>, uploadErrors: map<string, string>, disk: Disk,
                        sourcePath: string, maxRetries: int, keys: seq<string>): map<string, Bytes>
    reads disk
  {
    if keys == [] then objects
    else
      var k := keys[|keys| - 1];
      var before := AfterUploads(objects, uploadErrors, disk, sourcePath, maxRetries, keys[..|keys| - 1]);
      if maxRetries >= 0 && UploadOutcome(uploadErrors, disk, sourcePath, k).None?
      then before[k := disk.files[Join([sourcePath, k])].data] else before
  }

  /** Each key that uploads adds itself to Uploaded and each that fails adds
      one error; none is lost. */
  lemma {:induction false} UploadPartition(uploadErrors: map<string, string>, disk: Disk, sourcePath: string,
                                           maxRetries: int, keys: seq<string>)
    ensures |Uploaded(uploadErrors, disk, sourcePath, maxRetries, keys)|
            + |UploadErrors(uploadErrors, disk, sourcePath, maxRetries, keys)| == |keys|
    ensures forall k :: k in Uploaded(uploadErrors, disk, sourcePath, maxRetries, keys) <==>
              k in keys && RetriedOutcome(uploadErrors, disk, sourcePath, maxRetries, k).None?
  {
    if keys != [] {
      var init := keys[..|keys| - 1];
      UploadPartition(uploadErrors, disk, sourcePath, maxRetries, init);
      assert keys == init + [keys[|keys| - 1]];
    }
  }

  /** As written, a negative maxRetries lists every key as uploaded with no
      error while the bucket is left as it was. */
  lemma {:induction false} NegativeRetriesUploadNothing(objects: map<string, Bytes>, uploadErrors: map<string, string>,
                                                        disk: Disk, sourcePath: string, maxRetries: int,
                                                        keys: seq<string>)
    requires maxRetries < 0
    ensures Uploaded(uploadErrors, disk, sourcePath, maxRetries, keys) == keys
    ensures UploadErrors(uploadErrors, disk, sourcePath, maxRetries, keys) == []
    ensures AfterUploads(objects, uploadErrors, disk, sourcePath, maxRetries, keys) == objects
  {
    if keys != [] {
      NegativeRetriesUploadNothing(objects, uploadErrors, disk, sourcePath, maxRetries, keys[..|keys| - 1]);
      assert keys == keys[..|keys| - 1] + [keys[|keys| - 1]];
    }
  }

  /** uploadSequential: every key is tried (with retries), whatever happened
      to the ones before it. */
  method UploadSequential(backend: Mock.MockBackend, disk: Disk, sourcePath: string, maxRetries: int,
                          keys: seq<string>)
    returns (uploaded: seq<string>, errors: seq<string>)
    modifies backend`objects, backend`calls
    ensures uploaded == Uploaded(backend.uploadErrors, disk, sourcePath, maxRetries, keys)
    ensures errors == UploadErrors(backend.uploadErrors, disk, sourcePath, maxRetries, keys)
    ensures backend.objects
            == AfterUploads(old(backend.objects), backend.uploadErrors, disk, sourcePath, maxRetries, keys)
  {
    uploaded, errors := [], [];
    for i := 0 to |keys|
      invariant uploaded == Uploaded(backend.uploadErrors, disk, sourcePath, maxRetries, keys[..i])
      invariant errors == UploadErrors(backend.uploadErrors, disk, sourcePath, maxRetries, keys[..i])
      invariant backend.objects
                == AfterUploads(old(backend.objects), backend.uploadErrors, disk, sourcePath, maxRetries, keys[..i])
    {
      var key := keys[i];
      assert keys[..i + 1][..i] == keys[..i];
      var err := UploadWithRetry(backend, disk, sourcePath, key, maxRetries);
      if err.Some? {
        errors := errors + ["upload " + key + ": " + err.value];
        continue;
      }
      uploaded := uploaded + [key];
    }
    assert keys[..|keys|] == keys;
  }

  function Deletable(deleteErrors: map<string, string>, keys: seq<string>): (r: seq<string>)
    ensures forall k :: k in r <==> k in keys && k !in deleteErrors
  {
    if keys == [] then []
    else Deletable(deleteErrors, keys[..|keys| - 1])
         + (if keys[|keys| - 1] !in deleteErrors then [keys[|keys| - 1]] else [])
  }

  function DeleteErrors(deleteErrors: map<string, string>, keys: seq<string>): (r: seq<string>)
    ensures |r| + |Deletable(deleteErrors, keys)| == |keys|
  {
    if keys == [] then []
    else DeleteErrors(deleteErrors, keys[..|keys| - 1])
         + (if keys[|keys| - 1] in deleteErrors
            then ["delete " + keys[|keys| - 1] + ": " + deleteErrors[keys[|keys| - 1]]] else [])
  }

  /** The bucket after deleting `keys` in order: each key without an
      injected error is gone, every other object stays. */
  function AfterDeletes(objects: map<string, Bytes>, deleteErrors: map<string, string>, keys: seq<string>)
    : (r: map<string, Bytes>)
    ensures forall k :: k in r <==> k in objects && !(k in keys && k !in deleteErrors)
    ensures forall k :: k in r ==> r[k] == objects[k]
  {
    if keys == [] then objects
    else
      var k := keys[|keys| - 1];
      var before := AfterDeletes(objects, deleteErrors, keys[..|keys| - 1]);
      if k !in deleteErrors then before - {k} else before
  }

  /** The loop over diff.Deleted: a dry run lists every key; otherwise each
      key is deleted from the bucket and listed only if that succeeded. */
  method DeleteRemoved(backend: Mock.MockBackend, dryRun: bool, keys: seq<string>)
    returns (deleted: seq<string>, errors: seq<string>)
    modifies backend`objects, backend`calls
    ensures dryRun ==> deleted == keys && errors == []
                       && backend.objects == old(backend.objects) && backend.calls == old(backend.calls)
    ensures !dryRun ==> deleted == Deletable(backend.deleteErrors, keys)
                        && errors == DeleteErrors(backend.deleteErrors, keys)
    ensures !dryRun ==> backend.objects == AfterDeletes(old(backend.objects), backend.deleteErrors, keys)
  {
    if dryRun {
      return keys, [];
    }
    deleted, errors := [], [];
    for i := 0 to |keys|
      invariant deleted == Deletable(backend.deleteErrors, keys[..i])
      invariant errors == DeleteErrors(backend.deleteErrors, keys[..i])
      invariant backend.objects == AfterDeletes(old(backend.objects), backend.deleteErrors, keys[..i])
    {
      var key := keys[i];
      assert keys[..i + 1][..i] == keys[..i];
      var err := backend.DeleteObject(key);
      if err.Some? {
        errors := errors + ["delete " + key + ": " + err.value];
        continue;
      }
      deleted := deleted + [key];
    }
    assert keys[..|keys|] == keys;
  }

  // ---- the run ----

  /** The cache file the run leaves: one entry per scanned key, with the
      size, mtime and hash just recorded. */
  ghost function SavedCache(fs: map<string, DiskFile>, sourcePath: string, files: map<string, FileEntry>)
    : map<string, CacheEntry>
  {
    map k | k in files ::
      CacheEntry(files[k].size, if PathFor(sourcePath, k) in fs then fs[PathFor(sourcePath, k)].mtime else 0,
                 files[k].md5)
  }

  /** saveCache: prune the cache to the manifest's keys and write it; a
      write failure is only logged. */
  method SaveCache(lib: Lib, disk: Disk, cache: HashCache, path: string, m: Manifest)
    modifies cache, disk`files, disk`dirs
    ensures cache.files == map k | k in old(cache.files) && k in m.files :: old(cache.files)[k]
    ensures disk.dirs == old(disk.dirs) + (if Strings.Dir(path) in disk.mkdirFails then {} else {Strings.Dir(path)})
    ensures !Cache.SaveSucceeds(disk, path) ==> disk.files == old(disk.files)
    ensures Cache.SaveSucceeds(disk, path) ==>
      disk.files == old(disk.files)[path := DiskFile(lib.marshal(Cache.ToJsonValue(lib, cache.files)), disk.now)]
  {
    cache.Prune(m.files.Keys);
    var _ := cache.Save(lib, disk, path);
  }

  /** After a scan, pruning the cache to the scanned keys leaves exactly
      SavedCache. */
  lemma PrunedIsSaved(fs: map<string, DiskFile>, sourcePath: string, cache0: map<string, CacheEntry>,
                      files: map<string, FileEntry>, cacheNow: map<string, CacheEntry>)
    requires ScanCache(fs, sourcePath, cache0, files, cacheNow)
    requires forall k :: k in files ==> PathFor(sourcePath, k) in fs
    ensures (map k | k in cacheNow && k in files :: cacheNow[k]) == SavedCache(fs, sourcePath, files)
  {
  }

  /** The manifest the run diffs against: a failed download counts as a
      first upload (a fresh empty manifest); an unparseable one is an error. */
  function PriorManifest(lib: Lib, downloadErrors: map<string, string>, objects: map<string, Bytes>, now: int)
    : (r: Result<Manifest>)
    ensures (Storage.ManifestKey in downloadErrors || Storage.ManifestKey !in objects) ==> r == Ok(New(now))
  {
    if Storage.ManifestKey in downloadErrors || Storage.ManifestKey !in objects then Ok(New(now))
    else match ParseJSON(lib, objects[Storage.ManifestKey])
      case Err(e) => Err("parsing remote manifest: " + e)
      case Ok(m) => Ok(m)
  }

  function CachePathOf(opts: Options, defaultCachePath: string): string {
    if opts.cachePath == "" then defaultCachePath else opts.cachePath
  }

  /** Every key that uploads lands in the bucket with its file's bytes. */
  lemma {:induction false} UploadsLand(objects: map<string, Bytes>, uploadErrors: map<string, string>, disk: Disk,
                                       sourcePath: string, maxRetries: int, keys: seq<string>)
    ensures forall k :: k in keys && maxRetries >= 0 && UploadOutcome(uploadErrors, disk, sourcePath, k).None? ==>
              var after := AfterUploads(objects, uploadErrors, disk, sourcePath, maxRetries, keys);
              k in after && after[k] == disk.files[Join([sourcePath, k])].data
  {
    if keys != [] {
      UploadsLand(objects, uploadErrors, disk, sourcePath, maxRetries, keys[..|keys| - 1]);
      assert forall k :: k in keys ==> k in keys[..|keys| - 1] || k == keys[|keys| - 1];
    }
  }

  /** Fetch the remote manifest (Run's first remote step). */
  method FetchPrior(lib: Lib, backend: Mock.MockBackend, now: int) returns (r: Result<Manifest>)
    modifies backend`calls
    ensures r == PriorManifest(lib, backend.downloadErrors, backend.objects, now)
  {
    var remoteData := backend.DownloadManifest();
    if remoteData.Err? {
      return Ok(New(now));
    }
    var parsed := ParseJSON(lib, remoteData.value);
    if parsed.Err? {
      return Err("parsing remote manifest: " + parsed.msg);
    }
    r := Ok(parsed.value);
  }

  /** Diff the scan against the remote manifest, upload what is new or
      changed and delete what is gone (or only list both on a dry run).
      `toUpload` and `toDelete` are the diff's lists in the order Go's map
      iteration happened to produce. */
  method TransferChanges(backend: Mock.MockBackend, disk: Disk, opts: Options, m: Manifest, remote: Manifest)
    returns (result: UploadResult, toUpload: seq<string>, toDelete: seq<string>)
    modifies backend`objects, backend`calls
    ensures Elems(toUpload) == AddedKeys(m, remote) + ModifiedKeys(m, remote) && NoDuplicates(toUpload)
    ensures Elems(toDelete) == DeletedKeys(m, remote) && NoDuplicates(toDelete)
    ensures result.skipped == |m.files| - |toUpload| && result.cacheHits == 0
    ensures opts.dryRun ==>
      result.uploaded == toUpload && result.deleted == toDelete && result.errors == []
      && backend.objects == old(backend.objects)
    ensures !opts.dryRun ==>
      && result.uploaded == Uploaded(backend.uploadErrors, disk, opts.sourcePath, opts.maxRetries, toUpload)
      && result.deleted == Deletable(backend.deleteErrors, toDelete)
      && result.errors == UploadErrors(backend.uploadErrors, disk, opts.sourcePath, opts.maxRetries, toUpload)
                          + DeleteErrors(backend.deleteErrors, toDelete)
      && backend.objects == AfterDeletes(AfterUploads(old(backend.objects), backend.uploadErrors, disk,
                                                      opts.sourcePath, opts.maxRetries, toUpload),
                                         backend.deleteErrors, toDelete)
  {
    var diff := Diff(m, remote);
    DiffDisjoint(m, remote);
    ElemsConcat(diff.added, diff.modified);
    toUpload, toDelete := diff.added + diff.modified, diff.deleted;
    result := UploadResult([], |m.files| - |toUpload|, [], [], 0);
    if opts.dryRun {
      var deleted, _ := DeleteRemoved(backend, true, toDelete);
      return result.(uploaded := toUpload, deleted := deleted), toUpload, toDelete;
    }
    var uploaded, errors := UploadSequential(backend, disk, opts.sourcePath, opts.maxRetries, toUpload);
    var deleted, delErrors := DeleteRemoved(backend, false, toDelete);
    result := result.(uploaded := uploaded, deleted := deleted, errors := errors + delErrors);
  }

  /** |Deletable| counts the distinct deletable keys. */
  lemma {:induction false} DeletableCount(deleteErrors: map<string, string>, keys: seq<string>)
    requires NoDuplicates(keys)
    ensures NoDuplicates(Deletable(deleteErrors, keys))
  {
    if keys != [] {
      var init := keys[..|keys| - 1];
      assert NoDuplicates(init);
      DeletableCount(deleteErrors, init);
    }
  }

  /** Save the pruned cache and publish the manifest (the last steps of
      both paths of Run). */
  method Publish(lib: Lib, disk: Disk, backend: Mock.MockBackend, cache: HashCache, cachePath: string, m: Manifest)
    returns (err: Option<string>)
    modifies cache, disk`files, disk`dirs, backend`objects, backend`calls
    ensures cache.files == map k | k in old(cache.files) && k in m.files :: old(cache.files)[k]
    ensures disk.dirs == old(disk.dirs)
                         + (if Strings.Dir(cachePath) in disk.mkdirFails then {} else {Strings.Dir(cachePath)})
    ensures !Cache.SaveSucceeds(disk, cachePath) ==> disk.files == old(disk.files)
    ensures Cache.SaveSucceeds(disk, cachePath) ==>
      disk.files == old(disk.files)[cachePath := DiskFile(lib.marshal(Cache.ToJsonValue(lib, cache.files)), disk.now)]
    ensures err.Some? <==> Storage.ManifestKey in backend.uploadErrors
    ensures err.Some? ==> err.value == "uploading manifest: " + backend.uploadErrors[Storage.ManifestKey]
                          && backend.objects == old(backend.objects)
    ensures err.None? ==> backend.objects == old(backend.objects)[Storage.ManifestKey := ToJSON(lib, m)]
  {
    SaveCache(lib, disk, cache, cachePath, m);
    err := backend.UploadManifest(ToJSON(lib, m));
    if err.Some? {
      err := Some("uploading manifest: " + err.value);
    }
  }

  /** Load the hash cache and scan the sync directories (the part of Run
      before anything remote happens). */
  method Scan(lib: Lib, disk: Disk, opts: Options, cachePath: string, now: int)
    returns (cache: HashCache, m: Manifest, cacheHits: nat, ghost visits: seq<string>)
    ensures fresh(cache)
    ensures m.version == 1 && m.generatedAt == now
    ensures ScanSound(lib, disk.files, WalkedSet(disk, opts.sourcePath, opts.syncDirs, opts.skipDotfiles),
                      LoadFiles(lib, disk, cachePath), opts.sourcePath, m.files)
    ensures (forall p :: p in WalkedSet(disk, opts.sourcePath, opts.syncDirs, opts.skipDotfiles) ==> p !in disk.readFails)
            ==> ScanComplete(WalkedSet(disk, opts.sourcePath, opts.syncDirs, opts.skipDotfiles), opts.sourcePath, m.files)
    ensures (map k | k in cache.files && k in m.files :: cache.files[k]) == SavedCache(disk.files, opts.sourcePath, m.files)
    // The hit counter, against the visit order of the walks.
    ensures cacheHits == CountHits(LoadFiles(lib, disk, cachePath), disk.files, opts.sourcePath, disk.readFails, visits)
    ensures forall p :: p in visits ==> p in WalkedSet(disk, opts.sourcePath, opts.syncDirs, opts.skipDotfiles)
    ensures (forall p :: p in WalkedSet(disk, opts.sourcePath, opts.syncDirs, opts.skipDotfiles) ==> p !in disk.readFails)
            ==> forall p :: p in WalkedSet(disk, opts.sourcePath, opts.syncDirs, opts.skipDotfiles) ==> p in visits
  {
    cache := new HashCache.Load(lib, disk, cachePath);
    ghost var hits;
    m, cacheHits, hits, visits := BuildManifest(lib, disk, opts.sourcePath, opts.syncDirs, opts.skipDotfiles, cache, now);
    PrunedIsSaved(disk.files, opts.sourcePath, LoadFiles(lib, disk, cachePath), m.files, cache.files);
  }

  /** The part of Run after the scan: publish the manifest (manifestOnly),
      or fetch the remote manifest, transfer the changes and publish. */
  method RunScanned(lib: Lib, disk: Disk, backend: Mock.MockBackend, opts: Options, cache: HashCache,
                    cachePath: string, m: Manifest, cacheHits: nat, now: int)
    returns (r: Result<UploadResult>, ghost toUpload: seq<string>, ghost toDelete: seq<string>)
    modifies cache, backend`objects, backend`calls, disk`files, disk`dirs
    ensures r.Ok? ==> r.value.cacheHits == cacheHits
    ensures opts.dryRun ==>
      backend.objects == old(backend.objects) && disk.files == old(disk.files) && disk.dirs == old(disk.dirs)
    ensures opts.manifestOnly ==>
      && toUpload == [] && toDelete == []
      && (r.Ok? <==> opts.dryRun || Storage.ManifestKey !in backend.uploadErrors)
      && (r.Ok? ==> r.value.uploaded == [] && r.value.deleted == [] && r.value.errors == []
                    && r.value.skipped == |m.files|)
      && (r.Ok? && !opts.dryRun ==>
            backend.objects == old(backend.objects)[Storage.ManifestKey := ToJSON(lib, m)])
    ensures !opts.manifestOnly && PriorManifest(lib, backend.downloadErrors, old(backend.objects), now).Err? ==>
      r == Err(PriorManifest(lib, backend.downloadErrors, old(backend.objects), now).msg)
      && backend.objects == old(backend.objects) && disk.files == old(disk.files)
    ensures !opts.manifestOnly && PriorManifest(lib, backend.downloadErrors, old(backend.objects), now).Ok? ==>
      var remote := PriorManifest(lib, backend.downloadErrors, old(backend.objects), now).value;
      && Elems(toUpload) == AddedKeys(m, remote) + ModifiedKeys(m, remote) && NoDuplicates(toUpload)
      && Elems(toDelete) == DeletedKeys(m, remote) && NoDuplicates(toDelete)
      && (r.Ok? <==> opts.dryRun || Storage.ManifestKey !in backend.uploadErrors)
      && (r.Ok? ==> r.value.skipped == |m.files| - |toUpload|)
      && (r.Ok? && opts.dryRun ==>
            r.value.uploaded == toUpload && r.value.deleted == toDelete && r.value.errors == [])
      && (r.Ok? && !opts.dryRun ==>
            && r.value.uploaded == old(Uploaded(backend.uploadErrors, disk, opts.sourcePath, opts.maxRetries, toUpload))
            && r.value.deleted == Deletable(backend.deleteErrors, toDelete)
            && r.value.errors == old(UploadErrors(backend.uploadErrors, disk, opts.sourcePath, opts.maxRetries, toUpload))
                                 + DeleteErrors(backend.deleteErrors, toDelete))
      && (!opts.dryRun ==>
            var after := AfterDeletes(old(AfterUploads(backend.objects, backend.uploadErrors, disk, opts.sourcePath,
                                                       opts.maxRetries, toUpload)),
                                      backend.deleteErrors, toDelete);
            backend.objects == if r.Ok? then after[Storage.ManifestKey := ToJSON(lib, m)] else after)
    ensures !opts.dryRun && !(!opts.manifestOnly && PriorManifest(lib, backend.downloadErrors, old(backend.objects), now).Err?)
            && Cache.SaveSucceeds(disk, cachePath) ==>
      disk.files == old(disk.files)[cachePath :=
        DiskFile(lib.marshal(Cache.ToJsonValue(lib, map k | k in old(cache.files) && k in m.files :: old(cache.files)[k])),
                 disk.now)]
  {
    if opts.manifestOnly {
      r := PublishOnly(lib, disk, backend, opts, cache, cachePath, m, cacheHits);
      toUpload, toDelete := [], [];
    } else {
      r, toUpload, toDelete := TransferAndPublish(lib, disk, backend, opts, cache, cachePath, m, cacheHits, now);
    }
  }

  /** The manifestOnly branch of Run: publish the manifest unless dry. */
  method PublishOnly(lib: Lib, disk: Disk, backend: Mock.MockBackend, opts: Options, cache: HashCache,
                     cachePath: string, m: Manifest, cacheHits: nat)
    returns (r: Result<UploadResult>)
    modifies cache, backend`objects, backend`calls, disk`files, disk`dirs
    ensures r.Ok? <==> opts.dryRun || Storage.ManifestKey !in backend.uploadErrors
    ensures r.Ok? ==> r.value == UploadResult([], |m.files|, [], [], cacheHits)
    ensures opts.dryRun ==>
      backend.objects == old(backend.objects) && disk.files == old(disk.files) && disk.dirs == old(disk.dirs)
    ensures r.Ok? && !opts.dryRun ==> backend.objects == old(backend.objects)[Storage.ManifestKey := ToJSON(lib, m)]
    ensures !opts.dryRun && Cache.SaveSucceeds(disk, cachePath) ==>
      disk.files == old(disk.files)[cachePath :=
        DiskFile(lib.marshal(Cache.ToJsonValue(lib, map k | k in old(cache.files) && k in m.files :: old(cache.files)[k])),
                 disk.now)]
  {
    if !opts.dryRun {
      var err := Publish(lib, disk, backend, cache, cachePath, m);
      if err.Some? {
        return Err(err.value);
      }
    }
    r := Ok(UploadResult([], |m.files|, [], [], cacheHits));
  }

  /** The rest of Run: fetch the remote manifest, transfer the diff, then
      publish unless dry. */
  method TransferAndPublish(lib: Lib, disk: Disk, backend: Mock.MockBackend, opts: Options, cache: HashCache,
                            cachePath: string, m: Manifest, cacheHits: nat, now: int)
    returns (r: Result<UploadResult>, ghost toUpload: seq<string>, ghost toDelete: seq<string>)
    modifies cache, backend`objects, backend`calls, disk`files, disk`dirs
    ensures r.Ok? ==> r.value.cacheHits == cacheHits
    ensures opts.dryRun ==>
      backend.objects == old(backend.objects) && disk.files == old(disk.files) && disk.dirs == old(disk.dirs)
    ensures PriorManifest(lib, backend.downloadErrors, old(backend.objects), now).Err? ==>
      r == Err(PriorManifest(lib, backend.downloadErrors, old(backend.objects), now).msg)
      && backend.objects == old(backend.objects) && disk.files == old(disk.files)
    ensures PriorManifest(lib, backend.downloadErrors, old(backend.objects), now).Ok? ==>
      var remote := PriorManifest(lib, backend.downloadErrors, old(backend.objects), now).value;
      && Elems(toUpload) == AddedKeys(m, remote) + ModifiedKeys(m, remote) && NoDuplicates(toUpload)
      && Elems(toDelete) == DeletedKeys(m, remote) && NoDuplicates(toDelete)
      && (r.Ok? <==> opts.dryRun || Storage.ManifestKey !in backend.uploadErrors)
      && (r.Ok? ==> r.value.skipped == |m.files| - |toUpload|)
      && (r.Ok? && opts.dryRun ==>
            r.value.uploaded == toUpload && r.value.deleted == toDelete && r.value.errors == [])
      && (r.Ok? && !opts.dryRun ==>
            && r.value.uploaded == old(Uploaded(backend.uploadErrors, disk, opts.sourcePath, opts.maxRetries, toUpload))
            && r.value.deleted == Deletable(backend.deleteErrors, toDelete)
            && r.value.errors == old(UploadErrors(backend.uploadErrors, disk, opts.sourcePath, opts.maxRetries, toUpload))
                                 + DeleteErrors(backend.deleteErrors, toDelete))
      && (!opts.dryRun ==>
            var after := AfterDeletes(old(AfterUploads(backend.objects, backend.uploadErrors, disk, opts.sourcePath,
                                                       opts.maxRetries, toUpload)),
                                      backend.deleteErrors, toDelete);
            backend.objects == if r.Ok? then after[Storage.ManifestKey := ToJSON(lib, m)] else after)
    ensures !opts.dryRun && PriorManifest(lib, backend.downloadErrors, old(backend.objects), now).Ok?
            && Cache.SaveSucceeds(disk, cachePath) ==>
      disk.files == old(disk.files)[cachePath :=
        DiskFile(lib.marshal(Cache.ToJsonValue(lib, map k | k in old(cache.files) && k in m.files :: old(cache.files)[k])),
                 disk.now)]
  {
    toUpload, toDelete := [], [];
    var prior := FetchPrior(lib, backend, now);
    if prior.Err? {
      return Err(prior.msg), toUpload, toDelete;
    }
    r, toUpload, toDelete := TransferDiff(lib, disk, backend, opts, cache, cachePath, m, cacheHits, prior.value);
  }

  /** Given the remote manifest: transfer the diff, then publish unless dry. */
  method TransferDiff(lib: Lib, disk: Disk, backend: Mock.MockBackend, opts: Options, cache: HashCache,
                      cachePath: string, m: Manifest, cacheHits: nat, remote: Manifest)
    returns (r: Result<UploadResult>, ghost toUpload: seq<string>, ghost toDelete: seq<string>)
    modifies cache, backend`objects, backend`calls, disk`files, disk`dirs
    ensures r.Ok? ==> r.value.cacheHits == cacheHits
    ensures opts.dryRun ==>
      backend.objects == old(backend.objects) && disk.files == old(disk.files) && disk.dirs == old(disk.dirs)
    ensures Elems(toUpload) == AddedKeys(m, remote) + ModifiedKeys(m, remote) && NoDuplicates(toUpload)
    ensures Elems(toDelete) == DeletedKeys(m, remote) && NoDuplicates(toDelete)
    ensures r.Ok? <==> opts.dryRun || Storage.ManifestKey !in backend.uploadErrors
    ensures r.Ok? ==> r.value.skipped == |m.files| - |toUpload|
    ensures r.Ok? && opts.dryRun ==>
      r.value.uploaded == toUpload && r.value.deleted == toDelete && r.value.errors == []
    ensures r.Ok? && !opts.dryRun ==>
      && r.value.uploaded == old(Uploaded(backend.uploadErrors, disk, opts.sourcePath, opts.maxRetries, toUpload))
      && r.value.deleted == Deletable(backend.deleteErrors, toDelete)
      && r.value.errors == old(UploadErrors(backend.uploadErrors, disk, opts.sourcePath, opts.maxRetries, toUpload))
                           + DeleteErrors(backend.deleteErrors, toDelete)
    ensures !opts.dryRun ==>
      var after := AfterDeletes(old(AfterUploads(backend.objects, backend.uploadErrors, disk, opts.sourcePath,
                                                 opts.maxRetries, toUpload)),
                                backend.deleteErrors, toDelete);
      backend.objects == if r.Ok? then after[Storage.ManifestKey := ToJSON(lib, m)] else after
    ensures !opts.dryRun && Cache.SaveSucceeds(disk, cachePath) ==>
      disk.files == old(disk.files)[cachePath :=
        DiskFile(lib.marshal(Cache.ToJsonValue(lib, map k | k in old(cache.files) && k in m.files :: old(cache.files)[k])),
                 disk.now)]
  {
    var result;
    result, toUpload, toDelete := TransferChanges(backend, disk, opts, m, remote);
    result := result.(cacheHits := cacheHits);
    if !opts.dryRun {
      var err := Publish(lib, disk, backend, cache, cachePath, m);
      if err.Some? {
        return Err(err.value), toUpload, toDelete;
      }
    }
    r := Ok(result);
  }

  /** Run. `defaultCachePath` stands for config.DefaultUploadCachePath()
      and `now` for the clock; `built` is the scanned manifest and
      `toUpload`/`toDelete` the diff's lists as TransferChanges ran them;
      `visits` is the order in which the scan's walks visited the files. */
  method Run(lib: Lib, disk: Disk, backend: Mock.MockBackend, opts: Options, defaultCachePath: string, now: int)
    returns (r: Result<UploadResult>, ghost built: Manifest, ghost toUpload: seq<string>, ghost toDelete: seq<string>,
             ghost visits: seq<string>)
    modifies backend`objects, backend`calls, disk`files, disk`dirs
    ensures built.version == 1 && built.generatedAt == now
    // The reported cache hits are those the scan counted.
    ensures r.Ok? ==>
      r.value.cacheHits
      == CountHits(old(LoadFiles(lib, disk, CachePathOf(opts, defaultCachePath))), old(disk.files), opts.sourcePath,
                   disk.readFails, visits)
    ensures forall p :: p in visits ==> p in old(WalkedSet(disk, opts.sourcePath, opts.syncDirs, opts.skipDotfiles))
    ensures ScanSound(lib, old(disk.files), old(WalkedSet(disk, opts.sourcePath, opts.syncDirs, opts.skipDotfiles)),
                      old(LoadFiles(lib, disk, CachePathOf(opts, defaultCachePath))), opts.sourcePath, built.files)
    ensures old(forall p :: p in WalkedSet(disk, opts.sourcePath, opts.syncDirs, opts.skipDotfiles) ==> p !in disk.readFails)
            ==> ScanComplete(old(WalkedSet(disk, opts.sourcePath, opts.syncDirs, opts.skipDotfiles)), opts.sourcePath,
                             built.files)
    // A dry run changes neither the bucket nor the disk.
    ensures opts.dryRun ==>
      backend.objects == old(backend.objects) && disk.files == old(disk.files) && disk.dirs == old(disk.dirs)
    // ManifestOnly: nothing is transferred; the manifest is published unless dry.
    ensures opts.manifestOnly ==>
      && toUpload == [] && toDelete == []
      && (r.Ok? <==> opts.dryRun || Storage.ManifestKey !in backend.uploadErrors)
      && (r.Ok? ==> r.value.uploaded == [] && r.value.deleted == [] && r.value.errors == []
                    && r.value.skipped == |built.files|)
      && (r.Ok? && !opts.dryRun ==>
            backend.objects == old(backend.objects)[Storage.ManifestKey := ToJSON(lib, built)])
    // An unparseable remote manifest aborts before any transfer.
    ensures !opts.manifestOnly && PriorManifest(lib, backend.downloadErrors, old(backend.objects), now).Err? ==>
      r == Err(PriorManifest(lib, backend.downloadErrors, old(backend.objects), now).msg)
      && backend.objects == old(backend.objects) && disk.files == old(disk.files)
    ensures !opts.manifestOnly && PriorManifest(lib, backend.downloadErrors, old(backend.objects), now).Ok? ==>
      var remote := PriorManifest(lib, backend.downloadErrors, old(backend.objects), now).value;
      && Elems(toUpload) == AddedKeys(built, remote) + ModifiedKeys(built, remote) && NoDuplicates(toUpload)
      && Elems(toDelete) == DeletedKeys(built, remote) && NoDuplicates(toDelete)
      && (r.Ok? <==> opts.dryRun || Storage.ManifestKey !in backend.uploadErrors)
      && (r.Ok? ==> r.value.skipped == |built.files| - |toUpload|)
      && (r.Ok? && opts.dryRun ==>
            r.value.uploaded == toUpload && r.value.deleted == toDelete && r.value.errors == [])
      && (r.Ok? && !opts.dryRun ==>
            && r.value.uploaded == old(Uploaded(backend.uploadErrors, disk, opts.sourcePath, opts.maxRetries, toUpload))
            && r.value.deleted == Deletable(backend.deleteErrors, toDelete)
            && r.value.errors == old(UploadErrors(backend.uploadErrors, disk, opts.sourcePath, opts.maxRetries, toUpload))
                                 + DeleteErrors(backend.deleteErrors, toDelete))
      && (!opts.dryRun ==>
            var after := AfterDeletes(old(AfterUploads(backend.objects, backend.uploadErrors, disk, opts.sourcePath,
                                                       opts.maxRetries, toUpload)),
                                      backend.deleteErrors, toDelete);
            backend.objects == if r.Ok? then after[Storage.ManifestKey := ToJSON(lib, built)] else after)
    // Unless dry or aborted, the pruned cache is written.
    ensures !opts.dryRun && !(!opts.manifestOnly && PriorManifest(lib, backend.downloadErrors, old(backend.objects), now).Err?)
            && Cache.SaveSucceeds(disk, CachePathOf(opts, defaultCachePath)) ==>
      disk.files == old(disk.files)[CachePathOf(opts, defaultCachePath) :=
        DiskFile(lib.marshal(Cache.ToJsonValue(lib, SavedCache(old(disk.files), opts.sourcePath, built.files))), disk.now)]
  {
    var cachePath := CachePathOf(opts, defaultCachePath);
    var cache, m, cacheHits;
    cache, m, cacheHits, visits := Scan(lib, disk, opts, cachePath, now);
    built := m;
    r, toUpload, toDelete := RunScanned(lib, disk, backend, opts, cache, cachePath, m, cacheHits, now);
  }

  // ---- re-running ----

  /** Scanning an unchanged tree again, with the cache the first scan left,
      records exactly the same entries. */
  lemma RescanIsStable(lib: Lib, fs1: map<string, DiskFile>, fs2: map<string, DiskFile>, walked: set<string>,
                       sourcePath: string, cache0: map<string, CacheEntry>,
                       files1: map<string, FileEntry>, files2: map<string, FileEntry>)
    requires forall p :: p in walked ==> (p in fs1 <==> p in fs2) && (p in fs1 ==> fs1[p] == fs2[p])
    requires ScanSound(lib, fs1, walked, cache0, sourcePath, files1) && ScanComplete(walked, sourcePath, files1)
    requires ScanSound(lib, fs2, walked, SavedCache(fs1, sourcePath, files1), sourcePath, files2)
    requires ScanComplete(walked, sourcePath, files2)
    ensures files2 == files1
  {
    forall k | k in files2 ensures k in files1 && files2[k] == files1[k] {
      var p := PathFor(sourcePath, k);
      assert p in walked && Under(sourcePath, p) && KeyFor(sourcePath, p) == k;
      assert k in files1;
      var f := fs1[p];
      assert files1[k].size == |f.data|;
      var saved := SavedCache(fs1, sourcePath, files1);
      assert saved[k] == CacheEntry(|f.data|, f.mtime, files1[k].md5);
      assert LookupIn(saved, k, |f.data|, f.mtime) == Some(files1[k].md5);
    }
    forall k | k in files1 ensures k in files2 {
      var p := PathFor(sourcePath, k);
      assert p in walked && Under(sourcePath, p) && KeyFor(sourcePath, p) == k;
    }
  }

  /** The property the hash cache exists for: once a run has published its
      manifest and saved its cache, a second run over the unchanged tree
      finds the remote manifest equal to its scan and plans no upload and
      no delete. `fs1` is the tree the first run scanned, `disk` the one
      the second run sees (the first run's cache file written). */
  lemma SecondRunPlansNothing(lib: Lib, disk: Disk, fs1: map<string, DiskFile>, walked: set<string>,
                              cachePath: string, sourcePath: string, cache0: map<string, CacheEntry>,
                              m1: Manifest, m2: Manifest)
    requires lib.RoundTrips()
    requires forall p :: p in walked ==> (p in fs1 <==> p in disk.files) && (p in fs1 ==> fs1[p] == disk.files[p])
    requires ScanSound(lib, fs1, walked, cache0, sourcePath, m1.files) && ScanComplete(walked, sourcePath, m1.files)
    requires cachePath in disk.files && cachePath !in disk.readFails
    requires disk.files[cachePath].data == lib.marshal(Cache.ToJsonValue(lib, SavedCache(fs1, sourcePath, m1.files)))
    requires ScanSound(lib, disk.files, walked, LoadFiles(lib, disk, cachePath), sourcePath, m2.files)
    requires ScanComplete(walked, sourcePath, m2.files)
    ensures ParseJSON(lib, ToJSON(lib, m1)) == Ok(m1)
    ensures AddedKeys(m2, m1) == {} && ModifiedKeys(m2, m1) == {} && DeletedKeys(m2, m1) == {}
  {
    ToJsonParseRoundTrip(lib, m1);
    Cache.SaveLoadRoundTrip(lib, disk, cachePath, SavedCache(fs1, sourcePath, m1.files));
    RescanIsStable(lib, fs1, disk.files, walked, sourcePath, cache0, m1.files, m2.files);
    DiffEmptyIffSameFiles(m2, m1);
  }

  // ---- summary ----

  /** The lines of Result.Summary, without their newlines. */
  function SummaryLines(r: UploadResult): (lines: seq<string>)
    ensures |lines| == 4 + (if r.cacheHits > 0 then 1 else 0) + (if |r.errors| > 0 then 1 + |r.errors| else 0)
    ensures lines[0] == "Uploaded: " + FormatInt(|r.uploaded|) + " files"
    ensures lines[|lines| - 1] == "Total: " + FormatInt(|r.uploaded| + r.skipped) + " files"
    ensures |r.errors| > 0 ==> forall i :: 0 <= i < |r.errors| ==> "  - " + r.errors[i] in lines
  {
    var head := ["Uploaded: " + FormatInt(|r.uploaded|) + " files",
                 "Skipped (unchanged): " + FormatInt(r.skipped) + " files",
                 "Deleted from bucket: " + FormatInt(|r.deleted|) + " files"];
    var hits := if r.cacheHits > 0 then ["Hash cache hits: " + FormatInt(r.cacheHits) + " files"] else [];
    var errs := Section("Errors: " + FormatInt(|r.errors|), "  - ", r.errors);
    head + hits + errs + ["Total: " + FormatInt(|r.uploaded| + r.skipped) + " files"]
  }

  /** Result.Summary: each line ends in a newline. */
  function Summary(r: UploadResult): string {
    Lines(SummaryLines(r))
  }
}
