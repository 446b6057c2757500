/** internal/sync/sync.go: fetch the published manifest, keep the keys the
    configuration selects, diff them against the local manifest, queue
    files that vanished from disk for re-download, download each file
    atomically (through a temporary file), apply the delete-or-retain
    policy and save the local manifest. Only the sequential download path
    is modelled. */
module Sync {
  import opened Wrappers
  import opened Bytes
  import opened Json
  import opened Strings
  import opened FileSystem
  import opened Manifest
  import Mock
  import Storage
  import Retry
  import Config

  /** Suffix of the file a download is written to before the rename. */
  const TmpSuffix := ".emu-sync-tmp"

  /** The mid-sync save threshold used when the option is not positive. */
  const DefaultSaveThreshold := 50 * 1024 * 1024

  datatype Options = Options(
    dryRun: bool, noDelete: bool, verbose: bool, workers: int, maxRetries: int,
    saveThreshold: int, localManifestPath: string)

  datatype SyncResult = SyncResult(
    downloaded: seq<string>, deleted: seq<string>, retained: seq<string>, skipped: int, errors: seq<string>)

  // ---- the lock ----

  /** The sync lock file, as a flag: `held` when another sync holds the
      exclusive lock, `openError` when the lock file cannot be opened. */
  class SyncLock {
    var held: bool
    var openError: Option<string>

    constructor (openError0: Option<string>)
      ensures !held && openError == openError0
    {
      held, openError := false, openError0;
    }

    /** acquireLock: a non-blocking exclusive lock. */
    method Acquire() returns (err: Option<string>)
      modifies this`held
      ensures openError.Some? ==> err == Some("opening lock file: " + openError.value) && held == old(held)
      ensures openError.None? && old(held) ==> err == Some("another sync is already running") && held
      ensures openError.None? && !old(held) ==> err.None? && held
    {
      if openError.Some? {
        return Some("opening lock file: " + openError.value);
      }
      if held {
        return Some("another sync is already running");
      }
      held := true;
      err := None;
    }

    /** releaseLock. */
    method Release()
      modifies this`held
      ensures !held
    {
      held := false;
    }
  }

  // ---- filtering ----

  /** The remote manifest cut down to the keys cfg.ShouldSync accepts, keeping
      the remote timestamp (ShouldSync itself is a parameter). */
  method FilterRemote(remote: Manifest, shouldSync: string -> bool, now: int) returns (filtered: Manifest)
    ensures filtered.version == 1 && filtered.generatedAt == remote.generatedAt
    ensures forall k :: k in filtered.files <==> k in remote.files && shouldSync(k)
    ensures forall k :: k in filtered.files ==> filtered.files[k] == remote.files[k]
  {
    filtered := New(now);
    filtered := filtered.(generatedAt := remote.generatedAt);
    var todo := remote.files.Keys;
    while todo != {}
      invariant todo <= remote.files.Keys
      invariant filtered.version == 1 && filtered.generatedAt == remote.generatedAt
      invariant forall k :: k in filtered.files <==> k in remote.files && k !in todo && shouldSync(k)
      invariant forall k :: k in filtered.files ==> filtered.files[k] == remote.files[k]
      decreases |todo|
    {
      var key :| key in todo;
      if shouldSync(key) {
        filtered := filtered.(files := filtered.files[key := remote.files[key]]);
      }
      todo := todo - {key};
    }
  }

  // ---- drift healing ----

  function LocalPath(emuPath: string, key: string): string {
    Join([emuPath, key])
  }

  function TmpPath(emuPath: string, key: string): string {
    LocalPath(emuPath, key) + TmpSuffix
  }

  /** os.Stat reports not-exist for the path (`fs`, `dirs`, `statFails` are
      the disk's state). */
  predicate MissingOn(fs: map<string, DiskFile>, dirs: set<string>, statFails: set<string>, path: string) {
    path !in statFails && path !in fs && path !in dirs
  }

  /** The drift test for one selected key: listed locally, not queued by
      the diff, and gone from disk. */
  ghost predicate DriftedKey(local: Manifest, queued: set<string>, fs: map<string, DiskFile>, dirs: set<string>,
                             statFails: set<string>, emuPath: string, k: string)
  {
    k !in queued && k in local.files && MissingOn(fs, dirs, statFails, LocalPath(emuPath, k))
  }

  /** The selected keys the local manifest lists, that the diff has not
      queued, and whose file is gone from disk. */
  ghost function Drifted(filtered: Manifest, local: Manifest, queued: set<string>,
                         fs: map<string, DiskFile>, dirs: set<string>, statFails: set<string>,
                         emuPath: string): set<string>
  {
    set k | k in filtered.files && DriftedKey(local, queued, fs, dirs, statFails, emuPath, k)
  }

  /** What the drift loop keeps: the keys already checked (those not in
      `todo`) that drifted are exactly `healed`, appended in `extra` after
      the diff's additions and dropped from the local `files`. */
  ghost predicate HealInv(filtered: Manifest, local: Manifest, added: seq<string>, drifted: set<string>,
                          todo: set<string>, healed: set<string>, extra: seq<string>,
                          queue: seq<string>, files: map<string, FileEntry>)
  {
    && todo <= filtered.files.Keys
    && healed <= drifted && healed !! todo
    && (forall k :: k in drifted && k !in todo ==> k in healed)
    && queue == added + extra && Elems(extra) == healed && NoDuplicates(extra)
    && (forall k :: k in files <==> k in local.files && k !in healed)
    && (forall k :: k in files ==> files[k] == local.files[k])
  }

  /** One turn of the drift loop, for `key`. */
  method CheckDrift(disk: Disk, emuPath: string, filtered: Manifest, local: Manifest,
                    added: seq<string>, modified: seq<string>, key: string,
                    ghost todo: set<string>, ghost healed: set<string>, ghost extra: seq<string>,
                    queue: seq<string>, files: map<string, FileEntry>)
    returns (ghost healed': set<string>, ghost extra': seq<string>,
             queue': seq<string>, files': map<string, FileEntry>)
    requires key in todo
    requires HealInv(filtered, local, added,
                     Drifted(filtered, local, Elems(added) + Elems(modified), disk.files, disk.dirs,
                             disk.statFails, emuPath),
                     todo, healed, extra, queue, files)
    ensures HealInv(filtered, local, added,
                    Drifted(filtered, local, Elems(added) + Elems(modified), disk.files, disk.dirs,
                            disk.statFails, emuPath),
                    todo - {key}, healed', extra', queue', files')
  {
    ghost var drifted := Drifted(filtered, local, Elems(added) + Elems(modified), disk.files, disk.dirs,
                                 disk.statFails, emuPath);
    healed', extra', queue', files' := healed, extra, queue, files;
    if key in added {
      assert added[IndexOf(added, key)] == key;
      assert key !in drifted;
      return;
    }
    if key in modified {
      assert modified[IndexOf(modified, key)] == key;
      assert key !in drifted;
      return;
    }
    if key in files && disk.Stat(LocalPath(emuPath, key)) == Missing {
      assert key in drifted && key !in Elems(extra);
      AppendFresh(extra, key);
      healed', extra' := healed + {key}, extra + [key];
      queue', files' := queue + [key], files - {key};
    } else {
      assert key !in drifted;
    }
  }

  function IndexOf(s: seq<string>, x: string): (i: nat)
    requires x in s
    ensures i < |s| && s[i] == x
  {
    if s[0] == x then 0 else 1 + IndexOf(s[1..], x)
  }

  /** The drift check: each drifted key is appended to `added` once and its
      local entry dropped. */
  method HealDrift(disk: Disk, emuPath: string, filtered: Manifest, local: Manifest,
                   added: seq<string>, modified: seq<string>)
    returns (added': seq<string>, local': Manifest)
    ensures |added| <= |added'| && added'[..|added|] == added
    ensures Elems(added') == Elems(added)
              + Drifted(filtered, local, Elems(added) + Elems(modified), disk.files, disk.dirs, disk.statFails, emuPath)
    ensures NoDuplicates(added) ==> NoDuplicates(added')
    ensures local'.version == local.version && local'.generatedAt == local.generatedAt
    ensures forall k :: k in local'.files <==>
              k in local.files
              && k !in Drifted(filtered, local, Elems(added) + Elems(modified), disk.files, disk.dirs,
                               disk.statFails, emuPath)
    ensures forall k :: k in local'.files ==> local'.files[k] == local.files[k]
  {
    ghost var drifted := Drifted(filtered, local, Elems(added) + Elems(modified), disk.files, disk.dirs,
                                 disk.statFails, emuPath);
    ghost var healed: set<string> := {};
    ghost var extra: seq<string> := [];
    var queue, files := added, local.files;
    var todo := filtered.files.Keys;
    while todo != {}
      invariant HealInv(filtered, local, added, drifted, todo, healed, extra, queue, files)
      decreases |todo|
    {
      var key :| key in todo;
      healed, extra, queue, files :=
        CheckDrift(disk, emuPath, filtered, local, added, modified, key, todo, healed, extra, queue, files);
      todo := todo - {key};
    }
    assert healed == drifted;
    assert queue[..|added|] == added;
    assert Elems(added) !! Elems(extra) by {
      forall k | k in Elems(extra) ensures k !in Elems(added) {
        assert k in drifted;
      }
    }
    if NoDuplicates(added) {
      ElemsConcat(added, extra);
    } else {
      ElemsConcatSet(added, extra);
    }
    added' := queue;
    local' := local.(files := files);
  }

  // ---- temporary files ----

  /** A leftover download: a file under the base path ending in TmpSuffix. */
  predicate IsTemp(basePath: string, p: string) {
    InTree(basePath, p) && HasSuffix(p, TmpSuffix)
  }

  /** cleanTempFiles: every leftover temporary file under the base path is
      removed; removal failures are ignored; nothing else changes. */
  method CleanTempFiles(disk: Disk, basePath: string)
    modifies disk`files
    ensures forall p :: p in disk.files <==> p in old(disk.files) && !(IsTemp(basePath, p) && p !in disk.removeFails)
    ensures forall p :: p in disk.files ==> disk.files[p] == old(disk.files)[p]
  {
    var todo := set p | p in disk.files && IsTemp(basePath, p);
    while todo != {}
      invariant todo <= old(disk.files).Keys
      invariant forall p :: p in disk.files <==>
                  p in old(disk.files) && !(IsTemp(basePath, p) && p !in disk.removeFails && p !in todo)
      invariant forall p :: p in disk.files ==> disk.files[p] == old(disk.files)[p]
      invariant forall p :: p in todo ==> IsTemp(basePath, p)
      decreases |todo|
    {
      var p :| p in todo;
      var _ := disk.Remove(p);
      todo := todo - {p};
    }
  }

  // ---- one download ----

  /** The fault injection a download depends on: the bucket's injected
      errors and objects, and the disk's failing paths. None of it changes
      while files are downloaded. */
  datatype Faults = Faults(
    downloadErrors: map<string, string>, objects: map<string, Bytes>,
    mkdirFails: set<string>, writeFails: set<string>, renameFails: set<string>)

  function FaultsOf(backend: Mock.MockBackend, disk: Disk): Faults
    reads backend, disk
  {
    Faults(backend.downloadErrors, backend.objects, disk.mkdirFails, disk.writeFails, disk.renameFails)
  }

  /** What downloadOne returns for `key`: a mkdir error, a download error
      (injected, not found, or the temporary file unwritable), a rename
      error, or success. */
  function DownloadOutcome(f: Faults, emuPath: string, key: string): Option<string> {
    var localPath := LocalPath(emuPath, key);
    var tmpPath := TmpPath(emuPath, key);
    if Dir(localPath) in f.mkdirFails then
      Some("mkdir for " + key + ": " + ("mkdir " + Dir(localPath) + ": not a directory"))
    else if key in f.downloadErrors then Some("download " + key + ": " + f.downloadErrors[key])
    else if key !in f.objects then Some("download " + key + ": " + ("object not found: " + key))
    else if tmpPath in f.writeFails then Some("download " + key + ": " + ("write " + tmpPath + ": permission denied"))
    else if tmpPath in f.renameFails then
      Some("rename " + key + ": " + ("rename " + tmpPath + " " + localPath + ": permission denied"))
    else None
  }

  /** downloadOne: the object is written to the temporary path and renamed
      over the final path only once complete. On failure the final path is
      untouched and the temporary file is removed (unless creating the
      directory already failed, or the removal fails). */
  method DownloadOne(backend: Mock.MockBackend, disk: Disk, emuPath: string, key: string)
    returns (err: Option<string>)
    modifies backend`calls, disk`files, disk`dirs
    ensures err == DownloadOutcome(FaultsOf(backend, disk), emuPath, key)
    ensures disk.dirs == old(disk.dirs) + (if Dir(LocalPath(emuPath, key)) in disk.mkdirFails then {}
                                           else {Dir(LocalPath(emuPath, key))})
    ensures err.None? ==>
      disk.files == (old(disk.files) - {TmpPath(emuPath, key)})
                    [LocalPath(emuPath, key) := DiskFile(backend.objects[key], disk.now)]
    ensures err.Some? ==> disk.files - {TmpPath(emuPath, key)} == old(disk.files) - {TmpPath(emuPath, key)}
    ensures err.Some? && Dir(LocalPath(emuPath, key)) in disk.mkdirFails ==> disk.files == old(disk.files)
    ensures err.Some? && Dir(LocalPath(emuPath, key)) !in disk.mkdirFails && TmpPath(emuPath, key) !in disk.removeFails
            ==> TmpPath(emuPath, key) !in disk.files
    ensures old(backend.calls) <= backend.calls
  {
    var localPath := LocalPath(emuPath, key);
    var tmpPath := localPath + TmpSuffix;
    var merr := disk.MkdirAll(Dir(localPath));
    if merr.Some? {
      return Some("mkdir for " + key + ": " + merr.value);
    }
    var derr := backend.DownloadFile(key, tmpPath, disk);
    if derr.Some? {
      var _ := disk.Remove(tmpPath);
      return Some("download " + key + ": " + derr.value);
    }
    var rerr := disk.Rename(tmpPath, localPath);
    if rerr.Some? {
      var _ := disk.Remove(tmpPath);
      return Some("rename " + key + ": " + rerr.value);
    }
    err := None;
  }

  /** retry.WithBackoff around downloadOne (the context is never cancelled,
      so the delays only pass time). The outcome depends only on the
      faults, so every retry of a key gets the same answer. With a
      negative maxRetries no attempt runs: nil is returned and nothing is
      downloaded. */
  method DownloadWithRetry(backend: Mock.MockBackend, disk: Disk, emuPath: string, key: string, maxRetries: int)
    returns (err: Option<string>)
    modifies backend`calls, disk`files, disk`dirs
    ensures err == Retry.ConstantResult(maxRetries, DownloadOutcome(FaultsOf(backend, disk), emuPath, key))
    ensures Retry.Run(maxRetries, _ => err, _ => false, _ => 0, "", 0).err == err
    ensures maxRetries < 0 ==> disk.files == old(disk.files) && disk.dirs == old(disk.dirs)
                               && backend.calls == old(backend.calls)
    ensures maxRetries >= 0 ==>
      disk.dirs == old(disk.dirs) + (if Dir(LocalPath(emuPath, key)) in disk.mkdirFails then {}
                                     else {Dir(LocalPath(emuPath, key))})
    ensures maxRetries >= 0 && err.None? ==>
      disk.files == (old(disk.files) - {TmpPath(emuPath, key)})
                    [LocalPath(emuPath, key) := DiskFile(backend.objects[key], disk.now)]
    ensures err.Some? ==> disk.files - {TmpPath(emuPath, key)} == old(disk.files) - {TmpPath(emuPath, key)}
    ensures err.Some? && Dir(LocalPath(emuPath, key)) !in disk.mkdirFails && TmpPath(emuPath, key) !in disk.removeFails
            ==> TmpPath(emuPath, key) !in disk.files
  {
    if maxRetries < 0 {
      // The attempt loop's condition fails at once.
      Retry.ConstantOutcome(maxRetries, None, _ => false, _ => 0, "", 0);
      return None;
    }
    ghost var outcome := DownloadOutcome(FaultsOf(backend, disk), emuPath, key);
    var attempt := 0;
    err := DownloadOne(backend, disk, emuPath, key);
    while err.Some? && attempt < maxRetries
      invariant 0 <= attempt <= maxRetries
      invariant err == outcome
      invariant disk.dirs == old(disk.dirs) + (if Dir(LocalPath(emuPath, key)) in disk.mkdirFails then {}
                                               else {Dir(LocalPath(emuPath, key))})
      invariant err.None? ==>
        attempt == 0 && disk.files == (old(disk.files) - {TmpPath(emuPath, key)})
                                      [LocalPath(emuPath, key) := DiskFile(backend.objects[key], disk.now)]
      invariant err.Some? ==> disk.files - {TmpPath(emuPath, key)} == old(disk.files) - {TmpPath(emuPath, key)}
      invariant (err.Some? && Dir(LocalPath(emuPath, key)) !in disk.mkdirFails
                 && TmpPath(emuPath, key) !in disk.removeFails) ==> TmpPath(emuPath, key) !in disk.files
      decreases maxRetries - attempt
    {
      attempt := attempt + 1;
      err := DownloadOne(backend, disk, emuPath, key);
    }
    Retry.ConstantOutcome(maxRetries, err, _ => false, _ => 0, "", 0);
  }

  // ---- the download loop ----

  /** What downloadSequential has done so far: the local manifest, the
      keys downloaded, the errors, the bytes downloaded since the last
      save, and every manifest saved mid-sync. */
  datatype Batch = Batch(local: Manifest, downloaded: seq<string>, errors: seq<string>, unsaved: int,
                         saves: seq<Manifest>)

  /** filteredRemote.Files[key] (the zero entry for a missing key). */
  function EntryOf(filtered: Manifest, key: string): FileEntry {
    if key in filtered.files then filtered.files[key] else FileEntry(0, "")
  }

  /** downloadSequential over `keys` in order: a failed key adds its error;
      a downloaded one commits its remote entry, and once the unsaved bytes
      reach the threshold the local manifest is saved and the count reset. */
  function DownloadBatch(f: Faults, emuPath: string, filtered: Manifest, local0: Manifest, keys: seq<string>,
                         maxRetries: int, threshold: int): Batch
  {
    if keys == [] then Batch(local0, [], [], 0, [])
    else
      var b := DownloadBatch(f, emuPath, filtered, local0, keys[..|keys| - 1], maxRetries, threshold);
      var key := keys[|keys| - 1];
      match Retry.ConstantResult(maxRetries, DownloadOutcome(f, emuPath, key))
      case Some(e) => b.(errors := b.errors + [e])
      case None =>
        var entry := EntryOf(filtered, key);
        var local := b.local.(files := b.local.files[key := entry]);
        if b.unsaved + entry.size >= threshold
        then Batch(local, b.downloaded + [key], b.errors, 0, b.saves + [local])
        else Batch(local, b.downloaded + [key], b.errors, b.unsaved + entry.size, b.saves)
  }

  /** downloadSequential. The file tree it leaves is DownloadOne's effect
      key after key, with the manifest written at each threshold save. */
  method DownloadSequential(lib: Lib, disk: Disk, backend: Mock.MockBackend, emuPath: string, filtered: Manifest,
                            keys: seq<string>, maxRetries: int, local: Manifest, manifestPath: string,
                            threshold: int)
    returns (local': Manifest, downloaded: seq<string>, errors: seq<string>, ghost unsaved: int,
             ghost saves: seq<Manifest>)
    modifies backend`calls, disk`files, disk`dirs
    ensures Batch(local', downloaded, errors, unsaved, saves)
            == DownloadBatch(FaultsOf(backend, disk), emuPath, filtered, local, keys, maxRetries, threshold)
  {
    local', downloaded, errors, unsaved, saves := local, [], [], 0, [];
    var unsavedBytes := 0;
    for i := 0 to |keys|
      invariant unsaved == unsavedBytes
      invariant Batch(local', downloaded, errors, unsaved, saves)
                == DownloadBatch(FaultsOf(backend, disk), emuPath, filtered, local, keys[..i], maxRetries, threshold)
    {
      var key := keys[i];
      assert keys[..i + 1][..i] == keys[..i];
      var entry := EntryOf(filtered, key);
      var err := DownloadWithRetry(backend, disk, emuPath, key, maxRetries);
      if err.Some? {
        errors := errors + [err.value];
        continue;
      }
      local' := local'.(files := local'.files[key := entry]);
      downloaded := downloaded + [key];
      unsavedBytes := unsavedBytes + entry.size;
      if unsavedBytes >= threshold {
        var _ := SaveJSON(lib, disk, local', manifestPath);
        saves := saves + [local'];
        unsavedBytes := 0;
      }
      unsaved := unsavedBytes;
    }
    assert keys[..|keys|] == keys;
  }

  /** Every key is either downloaded or adds one error; a key is downloaded
      exactly when its download succeeds. */
  lemma {:induction false} BatchPartition(f: Faults, emuPath: string, filtered: Manifest, local0: Manifest,
                                          keys: seq<string>, maxRetries: int, threshold: int)
    ensures var b := DownloadBatch(f, emuPath, filtered, local0, keys, maxRetries, threshold);
      && |b.downloaded| + |b.errors| == |keys|
      && (forall k :: k in b.downloaded <==> k in keys && Retry.ConstantResult(maxRetries, DownloadOutcome(f, emuPath, k)).None?)
  {
    if keys != [] {
      var init, key := keys[..|keys| - 1], keys[|keys| - 1];
      BatchPartition(f, emuPath, filtered, local0, init, maxRetries, threshold);
      var b0 := DownloadBatch(f, emuPath, filtered, local0, init, maxRetries, threshold);
      var b := DownloadBatch(f, emuPath, filtered, local0, keys, maxRetries, threshold);
      if Retry.ConstantResult(maxRetries, DownloadOutcome(f, emuPath, key)).Some? {
        assert b.downloaded == b0.downloaded && |b.errors| == |b0.errors| + 1;
      } else {
        assert b.downloaded == b0.downloaded + [key] && b.errors == b0.errors;
      }
      assert keys == init + [key];
    }
  }

  /** A download commits the remote entry for its key; a failed key leaves
      the local entry as it was. */
  lemma {:induction false} BatchCommits(f: Faults, emuPath: string, filtered: Manifest, local0: Manifest,
                                        keys: seq<string>, maxRetries: int, threshold: int)
    ensures var b := DownloadBatch(f, emuPath, filtered, local0, keys, maxRetries, threshold);
      && b.local.version == local0.version && b.local.generatedAt == local0.generatedAt
      && (forall k :: k in b.local.files <==> k in local0.files || k in b.downloaded)
      && (forall k :: k in b.downloaded ==> b.local.files[k] == EntryOf(filtered, k))
      && (forall k :: k in local0.files && k !in b.downloaded ==> b.local.files[k] == local0.files[k])
  {
    if keys != [] {
      BatchCommits(f, emuPath, filtered, local0, keys[..|keys| - 1], maxRetries, threshold);
    }
  }

  /** Total size of the remote entries of `keys`. */
  function SizeSum(filtered: Manifest, keys: seq<string>): int {
    if keys == [] then 0 else SizeSum(filtered, keys[..|keys| - 1]) + EntryOf(filtered, keys[|keys| - 1]).size
  }

  predicate SizesNonNegative(filtered: Manifest) {
    forall k :: k in filtered.files ==> filtered.files[k].size >= 0
  }

  /** With a positive threshold and sizes that are not negative, fewer
      than `threshold` downloaded bytes are ever left unsaved. */
  lemma {:induction false} BatchUnsavedBelow(f: Faults, emuPath: string, filtered: Manifest, local0: Manifest,
                                             keys: seq<string>, maxRetries: int, threshold: int)
    requires threshold > 0 && SizesNonNegative(filtered)
    ensures var b := DownloadBatch(f, emuPath, filtered, local0, keys, maxRetries, threshold);
      0 <= b.unsaved < threshold
  {
    if keys != [] {
      BatchUnsavedBelow(f, emuPath, filtered, local0, keys[..|keys| - 1], maxRetries, threshold);
    }
  }

  /** Saves are not more frequent than the threshold allows: every save
      accounts for at least `threshold` downloaded bytes, and the unsaved
      remainder for the rest. */
  lemma {:induction false} BatchSavesBounded(f: Faults, emuPath: string, filtered: Manifest, local0: Manifest,
                                             keys: seq<string>, maxRetries: int, threshold: int)
    ensures var b := DownloadBatch(f, emuPath, filtered, local0, keys, maxRetries, threshold);
      |b.saves| * threshold + b.unsaved <= SizeSum(filtered, b.downloaded)
      && |b.saves| <= |b.downloaded|
  {
    if keys != [] {
      var init := keys[..|keys| - 1];
      BatchSavesBounded(f, emuPath, filtered, local0, init, maxRetries, threshold);
      var b := DownloadBatch(f, emuPath, filtered, local0, init, maxRetries, threshold);
      var key := keys[|keys| - 1];
      if Retry.ConstantResult(maxRetries, DownloadOutcome(f, emuPath, key)).None? {
        var size := EntryOf(filtered, key).size;
        assert (b.downloaded + [key])[..|b.downloaded|] == b.downloaded;
        assert SizeSum(filtered, b.downloaded + [key]) == SizeSum(filtered, b.downloaded) + size;
        assert (|b.saves| + 1) * threshold == |b.saves| * threshold + threshold;
      }
    }
  }

  /** A mid-sync save never records a key the final manifest lacks. */
  lemma {:induction false} BatchSavesSubsumed(f: Faults, emuPath: string, filtered: Manifest, local0: Manifest,
                                              keys: seq<string>, maxRetries: int, threshold: int)
    ensures var b := DownloadBatch(f, emuPath, filtered, local0, keys, maxRetries, threshold);
      forall s, k :: s in b.saves && k in s.files ==> k in b.local.files
  {
    if keys != [] {
      var init := keys[..|keys| - 1];
      BatchSavesSubsumed(f, emuPath, filtered, local0, init, maxRetries, threshold);
      assert var bb := DownloadBatch(f, emuPath, filtered, local0, init, maxRetries, threshold);
        forall s, k :: s in bb.saves && k in s.files ==> k in bb.local.files;
      var b := DownloadBatch(f, emuPath, filtered, local0, init, maxRetries, threshold);
      var key := keys[|keys| - 1];
      var b' := DownloadBatch(f, emuPath, filtered, local0, keys, maxRetries, threshold);
      if Retry.ConstantResult(maxRetries, DownloadOutcome(f, emuPath, key)).None? {
        var local := b.local.(files := b.local.files[key := EntryOf(filtered, key)]);
        assert b'.local == local;
        assert b'.saves == b.saves || b'.saves == b.saves + [local];
        forall s, k | s in b'.saves && k in s.files ensures k in b'.local.files {
          if s in b.saves {
            assert k in b.local.files;
          }
        }
      } else {
        assert b'.local == b.local && b'.saves == b.saves;
      }
    }
  }

  /** As written, a negative maxRetries makes every queued key count as
      downloaded with no error, and BatchCommits then records its remote
      entry locally, although DownloadWithRetry fetched nothing. */
  lemma {:induction false} NegativeRetriesCommitAll(f: Faults, emuPath: string, filtered: Manifest, local0: Manifest,
                                                    keys: seq<string>, maxRetries: int, threshold: int)
    requires maxRetries < 0
    ensures var b := DownloadBatch(f, emuPath, filtered, local0, keys, maxRetries, threshold);
      b.downloaded == keys && b.errors == []
  {
    if keys != [] {
      NegativeRetriesCommitAll(f, emuPath, filtered, local0, keys[..|keys| - 1], maxRetries, threshold);
      assert keys == keys[..|keys| - 1] + [keys[|keys| - 1]];
    }
  }

  // ---- deletes ----

  /** os.Remove of the key's file fails with an error other than
      not-exist: the file is there and cannot be removed. */
  predicate RemoveFails(fs: map<string, DiskFile>, removeFails: set<string>, emuPath: string, key: string) {
    LocalPath(emuPath, key) in fs && LocalPath(emuPath, key) in removeFails
  }

  /** The keys whose delete succeeds (an absent file counts as removed). */
  function Removed(fs: map<string, DiskFile>, removeFails: set<string>, emuPath: string, keys: seq<string>)
    : seq<string>
  {
    if keys == [] then []
    else
      var k := keys[|keys| - 1];
      Removed(fs, removeFails, emuPath, keys[..|keys| - 1])
      + (if RemoveFails(fs, removeFails, emuPath, k) then [] else [k])
  }

  function RemoveErrors(fs: map<string, DiskFile>, removeFails: set<string>, emuPath: string, keys: seq<string>)
    : seq<string>
  {
    if keys == [] then []
    else
      var k := keys[|keys| - 1];
      RemoveErrors(fs, removeFails, emuPath, keys[..|keys| - 1])
      + (if RemoveFails(fs, removeFails, emuPath, k)
         then ["delete " + k + ": " + ("remove " + LocalPath(emuPath, k) + ": permission denied")] else [])
  }

  /** Each key is either removed or adds one error, and it is removed
      exactly when its file is absent or removable. */
  lemma {:induction false} RemovePartition(fs: map<string, DiskFile>, removeFails: set<string>, emuPath: string,
                                           keys: seq<string>)
    ensures |Removed(fs, removeFails, emuPath, keys)| + |RemoveErrors(fs, removeFails, emuPath, keys)| == |keys|
    ensures forall k :: k in Removed(fs, removeFails, emuPath, keys) <==>
              k in keys && !RemoveFails(fs, removeFails, emuPath, k)
  {
    if keys != [] {
      var init := keys[..|keys| - 1];
      RemovePartition(fs, removeFails, emuPath, init);
      assert keys == init + [keys[|keys| - 1]];
    }
  }

  /** The file tree after removing the files of `keys`. */
  function AfterRemoves(fs: map<string, DiskFile>, removeFails: set<string>, emuPath: string, keys: seq<string>)
    : map<string, DiskFile>
  {
    if keys == [] then fs
    else
      var p := LocalPath(emuPath, keys[|keys| - 1]);
      var before := AfterRemoves(fs, removeFails, emuPath, keys[..|keys| - 1]);
      if p in removeFails then before else before - {p}
  }

  /** Removing only drops files: what stays is unchanged, a file that
      cannot be removed stays, and a key's file is gone exactly when it
      was removable. */
  lemma {:induction false} AfterRemovesShape(fs: map<string, DiskFile>, removeFails: set<string>, emuPath: string,
                                             keys: seq<string>)
    ensures var r := AfterRemoves(fs, removeFails, emuPath, keys);
      && (forall p :: p in r ==> p in fs && r[p] == fs[p])
      && (forall p :: p in fs && p in removeFails ==> p in r)
      && (forall k :: k in keys ==> (LocalPath(emuPath, k) in r <==> RemoveFails(fs, removeFails, emuPath, k)))
  {
    if keys != [] {
      AfterRemovesShape(fs, removeFails, emuPath, keys[..|keys| - 1]);
      assert forall k :: k in keys ==> k in keys[..|keys| - 1] || k == keys[|keys| - 1];
    }
  }

  /** The delete loop over diff.Deleted: a dry run lists every key as
      deleted; with deletes disabled every key is retained; otherwise each
      file is removed and its entry dropped, or an error recorded. */
  method ApplyDeletes(disk: Disk, emuPath: string, deleteAllowed: bool, dryRun: bool, keys: seq<string>,
                      local: Manifest)
    returns (deleted: seq<string>, retained: seq<string>, errors: seq<string>, local': Manifest)
    modifies disk`files
    ensures dryRun ==>
      deleted == keys && retained == [] && errors == [] && local' == local && disk.files == old(disk.files)
    ensures !dryRun && !deleteAllowed ==>
      deleted == [] && retained == keys && errors == [] && local' == local && disk.files == old(disk.files)
    ensures !dryRun && deleteAllowed ==>
      && deleted == Removed(old(disk.files), disk.removeFails, emuPath, keys)
      && errors == RemoveErrors(old(disk.files), disk.removeFails, emuPath, keys)
      && retained == []
      && local' == local.(files := local.files - Elems(deleted))
      && disk.files == AfterRemoves(old(disk.files), disk.removeFails, emuPath, keys)
  {
    deleted, retained, errors, local' := [], [], [], local;
    if dryRun {
      return keys, [], [], local;
    }
    if !deleteAllowed {
      return [], keys, [], local;
    }
    for i := 0 to |keys|
      invariant deleted == Removed(old(disk.files), disk.removeFails, emuPath, keys[..i])
      invariant errors == RemoveErrors(old(disk.files), disk.removeFails, emuPath, keys[..i])
      invariant local' == local.(files := local.files - Elems(deleted))
      invariant disk.files == AfterRemoves(old(disk.files), disk.removeFails, emuPath, keys[..i])
    {
      var key := keys[i];
      assert keys[..i + 1][..i] == keys[..i];
      var path := LocalPath(emuPath, key);
      AfterRemovesShape(old(disk.files), disk.removeFails, emuPath, keys[..i]);
      assert path in disk.files && path in disk.removeFails <==> RemoveFails(old(disk.files), disk.removeFails, emuPath, key);
      var err := disk.Remove(path);
      if err.Some? && err.value.Failed? {
        errors := errors + ["delete " + key + ": " + err.value.msg];
        continue;
      }
      ElemsSnoc(deleted, key);
      local' := local'.(files := local'.files - {key});
      deleted := deleted + [key];
    }
    assert keys[..|keys|] == keys;
  }

  // ---- planning ----

  /** The published manifest as Run sees it: a failed download or an
      unparseable manifest ends the run. */
  function RemoteManifest(lib: Lib, downloadErrors: map<string, string>, objects: map<string, Bytes>)
    : Result<Manifest>
  {
    if Storage.ManifestKey in downloadErrors then
      Err("downloading remote manifest: " + downloadErrors[Storage.ManifestKey])
    else if Storage.ManifestKey !in objects then
      Err("downloading remote manifest: " + ("object not found: " + Storage.ManifestKey))
    else match ParseJSON(lib, objects[Storage.ManifestKey])
      case Err(e) => Err("parsing remote manifest: " + e)
      case Ok(m) => Ok(m)
  }

  /** The local manifest, or a fresh one when it cannot be loaded. */
  function LocalOrNew(lib: Lib, disk: Disk, path: string, now: int): Manifest
    reads disk
  {
    match LoadJSON(lib, disk, path)
    case Ok(m) => m
    case Err(_) => New(now)
  }

  /** What Run decided before transferring anything. */
  datatype Plan = Plan(filtered: Manifest, local: Manifest, toDownload: seq<string>, toDelete: seq<string>)

  /** The plan for `remote` against `local0`: the selected remote files;
      the diff's additions and changes plus the drifted keys, each queued
      once; the diff's deletions; and the local manifest without the
      drifted entries. */
  ghost predicate Planned(p: Plan, remote: Manifest, local0: Manifest, shouldSync: string -> bool,
                          fs: map<string, DiskFile>, dirs: set<string>, statFails: set<string>, emuPath: string)
  {
    var queued := AddedKeys(p.filtered, local0) + ModifiedKeys(p.filtered, local0);
    var drifted := Drifted(p.filtered, local0, queued, fs, dirs, statFails, emuPath);
    && Selected(p.filtered, remote, shouldSync)
    && Elems(p.toDownload) == queued + drifted && NoDuplicates(p.toDownload)
    && Elems(p.toDelete) == DeletedKeys(p.filtered, local0) && NoDuplicates(p.toDelete)
    && Without(p.local, local0, drifted)
  }

  /** `filtered` holds the files of `remote` that `shouldSync` accepts. */
  ghost predicate Selected(filtered: Manifest, remote: Manifest, shouldSync: string -> bool) {
    && filtered.version == 1 && filtered.generatedAt == remote.generatedAt
    && (forall k :: k in filtered.files <==> k in remote.files && shouldSync(k))
    && (forall k :: k in filtered.files ==> filtered.files[k] == remote.files[k])
  }

  /** `m` is `m0` without the entries for `gone`. */
  ghost predicate Without(m: Manifest, m0: Manifest, gone: set<string>) {
    && m.version == m0.version && m.generatedAt == m0.generatedAt
    && (forall k :: k in m.files <==> k in m0.files && k !in gone)
    && (forall k :: k in m.files ==> m.files[k] == m0.files[k])
  }

  /** Run up to the transfers: fetch and parse the remote manifest, load
      the local one, filter, diff and heal drift. */
  method PlanSync(lib: Lib, disk: Disk, backend: Mock.MockBackend, shouldSync: string -> bool, emuPath: string,
                  manifestPath: string, now: int)
    returns (r: Result<Plan>)
    modifies backend`calls
    ensures r.Err? <==> RemoteManifest(lib, backend.downloadErrors, backend.objects).Err?
    ensures r.Err? ==> r.msg == RemoteManifest(lib, backend.downloadErrors, backend.objects).msg
    ensures r.Ok? ==>
      Planned(r.value, RemoteManifest(lib, backend.downloadErrors, backend.objects).value,
              LocalOrNew(lib, disk, manifestPath, now), shouldSync, disk.files, disk.dirs, disk.statFails, emuPath)
  {
    var remoteData := backend.DownloadManifest();
    if remoteData.Err? {
      return Err("downloading remote manifest: " + remoteData.msg);
    }
    var parsed := ParseJSON(lib, remoteData.value);
    if parsed.Err? {
      return Err("parsing remote manifest: " + parsed.msg);
    }
    var local := LocalOrNew(lib, disk, manifestPath, now);
    var plan := MakePlan(disk, parsed.value, local, shouldSync, emuPath, now);
    r := Ok(plan);
  }

  /** Filter, diff and heal drift against the disk as it is. */
  method MakePlan(disk: Disk, remote: Manifest, local: Manifest, shouldSync: string -> bool, emuPath: string,
                  now: int)
    returns (p: Plan)
    ensures Planned(p, remote, local, shouldSync, disk.files, disk.dirs, disk.statFails, emuPath)
  {
    var filtered := FilterRemote(remote, shouldSync, now);
    var diff := Diff(filtered, local);
    var added, local' := HealDrift(disk, emuPath, filtered, local, diff.added, diff.modified);
    assert Selected(filtered, remote, shouldSync);
    assert Without(local', local, Drifted(filtered, local, Elems(diff.added) + Elems(diff.modified), disk.files,
                                          disk.dirs, disk.statFails, emuPath));
    p := Plan(filtered, local', added + diff.modified, diff.deleted);
    PlannedFrom(p, remote, local, shouldSync, disk.files, disk.dirs, disk.statFails, emuPath, diff, added);
  }

  /** The facts FilterRemote, Diff and HealDrift establish add up to a plan. */
  lemma PlannedFrom(p: Plan, remote: Manifest, local0: Manifest, shouldSync: string -> bool,
                    fs: map<string, DiskFile>, dirs: set<string>, statFails: set<string>, emuPath: string,
                    diff: DiffResult, added: seq<string>)
    requires Selected(p.filtered, remote, shouldSync)
    requires Elems(diff.added) == AddedKeys(p.filtered, local0) && NoDuplicates(diff.added)
    requires Elems(diff.modified) == ModifiedKeys(p.filtered, local0) && NoDuplicates(diff.modified)
    requires Elems(diff.deleted) == DeletedKeys(p.filtered, local0) && NoDuplicates(diff.deleted)
    requires p.toDownload == added + diff.modified && p.toDelete == diff.deleted
    requires Elems(added) == Elems(diff.added)
               + Drifted(p.filtered, local0, Elems(diff.added) + Elems(diff.modified), fs, dirs, statFails, emuPath)
    requires NoDuplicates(diff.added) ==> NoDuplicates(added)
    requires Without(p.local, local0,
                     Drifted(p.filtered, local0, Elems(diff.added) + Elems(diff.modified), fs, dirs, statFails, emuPath))
    ensures Planned(p, remote, local0, shouldSync, fs, dirs, statFails, emuPath)
  {
    var queued := AddedKeys(p.filtered, local0) + ModifiedKeys(p.filtered, local0);
    var drifted := Drifted(p.filtered, local0, queued, fs, dirs, statFails, emuPath);
    assert Elems(diff.added) + Elems(diff.modified) == queued;
    assert drifted !! queued by {
      forall k | k in drifted ensures k !in queued {
        assert DriftedKey(local0, queued, fs, dirs, statFails, emuPath, k);
      }
    }
    DiffDisjoint(p.filtered, local0);
    QueueConcat(diff.added, diff.modified, added, drifted);
  }

  /** Appending the modified keys to the healed additions queues each key
      of the diff and of the drift once. */
  lemma QueueConcat(added: seq<string>, modified: seq<string>, added': seq<string>, drifted: set<string>)
    requires NoDuplicates(added) && NoDuplicates(modified) && NoDuplicates(added')
    requires Elems(added) !! Elems(modified)
    requires Elems(added') == Elems(added) + drifted
    requires drifted !! Elems(added) + Elems(modified)
    ensures Elems(added' + modified) == Elems(added) + Elems(modified) + drifted
    ensures NoDuplicates(added' + modified)
  {
    ElemsConcat(added', modified);
  }

  /** Only keys ShouldSync accepts are downloaded, and no more of them than
      the selection holds, so the skipped count is never negative. */
  lemma PlanOnlySelected(p: Plan, remote: Manifest, local0: Manifest, shouldSync: string -> bool,
                         fs: map<string, DiskFile>, dirs: set<string>, statFails: set<string>, emuPath: string)
    requires Planned(p, remote, local0, shouldSync, fs, dirs, statFails, emuPath)
    ensures forall k :: k in p.toDownload ==> k in remote.files && shouldSync(k)
    ensures |p.toDownload| <= |p.filtered.files|
  {
    forall k | k in p.toDownload ensures k in p.filtered.files {
      var i :| 0 <= i < |p.toDownload| && p.toDownload[i] == k;
      assert k in Elems(p.toDownload);
    }
    DistinctCard(p.toDownload);
    assert Elems(p.toDownload) <= p.filtered.files.Keys;
    SubsetCard(Elems(p.toDownload), p.filtered.files.Keys);
  }

  lemma SubsetCard(a: set<string>, b: set<string>)
    requires a <= b
    ensures |a| <= |b|
  {
    assert b == a + (b - a);
  }

  // ---- executing ----

  /** What the transfers leave, given the plan: the batch of downloads, the
      delete policy applied to the tree the downloads left (`fsAtDelete`),
      and the local manifest that is saved (`finalLocal`). */
  ghost predicate Executed(result: SyncResult, p: Plan, b: Batch, fsAtDelete: map<string, DiskFile>,
                           finalLocal: Manifest, removeFails: set<string>, deleteAllowed: bool, emuPath: string)
  {
    && result.downloaded == b.downloaded
    && result.skipped == |p.filtered.files| - |p.toDownload|
    && (deleteAllowed ==>
          && result.deleted == Removed(fsAtDelete, removeFails, emuPath, p.toDelete)
          && result.retained == []
          && result.errors == b.errors + RemoveErrors(fsAtDelete, removeFails, emuPath, p.toDelete)
          && finalLocal == b.local.(files := b.local.files - Elems(result.deleted)))
    && (!deleteAllowed ==>
          && result.deleted == [] && result.retained == p.toDelete && result.errors == b.errors
          && finalLocal == b.local)
  }

  /** Run after planning: clean leftover temporary files, download, apply
      the delete policy, count the skipped files and save the manifest. */
  method ExecuteSync(lib: Lib, disk: Disk, backend: Mock.MockBackend, emuPath: string, deleteAllowed: bool,
                     opts: Options, p: Plan, manifestPath: string, threshold: int)
    returns (result: SyncResult, err: Option<string>, ghost b: Batch, ghost fsAtDelete: map<string, DiskFile>,
             ghost finalLocal: Manifest)
    modifies backend`calls, disk`files, disk`dirs
    ensures opts.dryRun ==>
      result == SyncResult(p.toDownload, p.toDelete, [], |p.filtered.files| - |p.toDownload|, [])
      && err.None? && disk.files == old(disk.files) && disk.dirs == old(disk.dirs)
    ensures !opts.dryRun ==>
      && b == DownloadBatch(FaultsOf(backend, disk), emuPath, p.filtered, p.local, p.toDownload, opts.maxRetries, threshold)
      && Executed(result, p, b, fsAtDelete, finalLocal, disk.removeFails, deleteAllowed, emuPath)
      && (err.None? <==> SaveSucceeds(disk, manifestPath))
      && (err.Some? ==> HasPrefix(err.value, "saving local manifest: "))
      && (err.None? ==> manifestPath in disk.files
                        && disk.files[manifestPath] == DiskFile(ToJSON(lib, finalLocal), disk.now))
  {
    var skipped := |p.filtered.files| - |p.toDownload|;
    b, fsAtDelete, finalLocal := Batch(p.local, [], [], 0, []), disk.files, p.local;
    if opts.dryRun {
      var deleted, _, _, _ := ApplyDeletes(disk, emuPath, deleteAllowed, true, p.toDelete, p.local);
      result, err := SyncResult(p.toDownload, deleted, [], skipped, []), None;
      return;
    }
    CleanTempFiles(disk, emuPath);
    var local, downloaded, errors, unsaved, saves :=
      DownloadSequential(lib, disk, backend, emuPath, p.filtered, p.toDownload, opts.maxRetries, p.local,
                         manifestPath, threshold);
    b := Batch(local, downloaded, errors, unsaved, saves);
    fsAtDelete := disk.files;
    var deleted, retained, delErrors, local' := ApplyDeletes(disk, emuPath, deleteAllowed, false, p.toDelete, local);
    finalLocal := local';
    result := SyncResult(downloaded, deleted, retained, skipped, errors + delErrors);
    var serr := SaveJSON(lib, disk, local', manifestPath);
    if serr.Some? {
      err := Some("saving local manifest: " + serr.value);
      return;
    }
    err := None;
  }

  /** The save threshold: 50 MiB unless the option is positive. */
  function Threshold(opts: Options): (t: int)
    ensures t > 0
    ensures opts.saveThreshold > 0 ==> t == opts.saveThreshold
  {
    if opts.saveThreshold <= 0 then DefaultSaveThreshold else opts.saveThreshold
  }

  function ManifestPathOf(opts: Options, defaultManifestPath: string): string {
    if opts.localManifestPath == "" then defaultManifestPath else opts.localManifestPath
  }

  /** Run. `defaultManifestPath` stands for config.DefaultLocalManifestPath(),
      `shouldSync` for cfg.ShouldSync and `now` for the clock; the ghost
      outputs name the plan and the transfers Run went through. */
  method Run(lib: Lib, disk: Disk, backend: Mock.MockBackend, lock: SyncLock, cfg: Config.Config,
             shouldSync: string -> bool, opts: Options, defaultManifestPath: string, now: int)
    returns (res: Option<SyncResult>, err: Option<string>, ghost p: Plan, ghost b: Batch,
             ghost fsAtDelete: map<string, DiskFile>, ghost finalLocal: Manifest)
    modifies lock`held, backend`calls, disk`files, disk`dirs
    // The lock is released on every path; a dry run never takes it.
    ensures lock.held == old(lock.held)
    ensures !opts.dryRun && lock.openError.Some? ==>
      res.None? && err == Some("opening lock file: " + lock.openError.value)
      && disk.files == old(disk.files) && backend.calls == old(backend.calls)
    ensures !opts.dryRun && lock.openError.None? && old(lock.held) ==>
      res.None? && err == Some("another sync is already running")
      && disk.files == old(disk.files) && backend.calls == old(backend.calls)
    ensures (opts.dryRun || (lock.openError.None? && !old(lock.held))) ==>
      var remote := RemoteManifest(lib, backend.downloadErrors, backend.objects);
      var manifestPath := ManifestPathOf(opts, defaultManifestPath);
      && (remote.Err? ==> res.None? && err == Some(remote.msg) && disk.files == old(disk.files))
      && (remote.Ok? ==>
            && res.Some?
            && Planned(p, remote.value, old(LocalOrNew(lib, disk, manifestPath, now)), shouldSync,
                       old(disk.files), old(disk.dirs), disk.statFails, cfg.sync.emulationPath)
            && (opts.dryRun ==>
                  res.value == SyncResult(p.toDownload, p.toDelete, [], |p.filtered.files| - |p.toDownload|, [])
                  && err.None? && disk.files == old(disk.files))
            && (!opts.dryRun ==>
                  && b == DownloadBatch(FaultsOf(backend, disk), cfg.sync.emulationPath, p.filtered, p.local,
                                        p.toDownload, opts.maxRetries, Threshold(opts))
                  && Executed(res.value, p, b, fsAtDelete, finalLocal, disk.removeFails,
                              cfg.sync.delete && !opts.noDelete, cfg.sync.emulationPath)
                  && (err.None? <==> SaveSucceeds(disk, manifestPath))
                  && (err.Some? ==> HasPrefix(err.value, "saving local manifest: "))
                  && (err.None? ==> manifestPath in disk.files
                                    && disk.files[manifestPath] == DiskFile(ToJSON(lib, finalLocal), disk.now))))
  {
    p, b, fsAtDelete, finalLocal := Plan(New(now), New(now), [], []), Batch(New(now), [], [], 0, []), map[], New(now);
    if !opts.dryRun {
      var lerr := lock.Acquire();
      if lerr.Some? {
        res, err := None, lerr;
        return;
      }
    }
    var manifestPath := ManifestPathOf(opts, defaultManifestPath);
    var planned := PlanSync(lib, disk, backend, shouldSync, cfg.sync.emulationPath, manifestPath, now);
    if planned.Err? {
      if !opts.dryRun {
        lock.Release();
      }
      res, err := None, Some(planned.msg);
      return;
    }
    var plan := planned.value;
    p := plan;
    var result;
    result, err, b, fsAtDelete, finalLocal :=
      ExecuteSync(lib, disk, backend, cfg.sync.emulationPath, cfg.sync.delete && !opts.noDelete, opts, plan,
                  manifestPath, Threshold(opts));
    if !opts.dryRun {
      lock.Release();
    }
    res := Some(result);
  }

  // ---- summary ----

  /** The lines of Result.Summary, without their newlines. */
  function SummaryLines(r: SyncResult): (lines: seq<string>)
    ensures |lines| == 4 + (if |r.retained| > 0 then 1 else 0) + (if |r.errors| > 0 then 1 + |r.errors| else 0)
    ensures lines[0] == "Downloaded: " + FormatInt(|r.downloaded|) + " files"
    ensures lines[|lines| - 1] == "Total: " + FormatInt(|r.downloaded| + r.skipped) + " files"
    ensures forall i :: 0 <= i < |r.errors| ==> "  - " + r.errors[i] in lines
  {
    var head := ["Downloaded: " + FormatInt(|r.downloaded|) + " files",
                 "Deleted: " + FormatInt(|r.deleted|) + " files"];
    var kept := if |r.retained| > 0
                then ["Retained: " + FormatInt(|r.retained|) + " files (deselected, delete disabled)"] else [];
    var errs := Section("Errors: " + FormatInt(|r.errors|), "  - ", r.errors);
    head + kept + ["Unchanged: " + FormatInt(r.skipped) + " files"] + errs
    + ["Total: " + FormatInt(|r.downloaded| + r.skipped) + " files"]
  }

  /** Result.Summary: each line ends in a newline. */
  function Summary(r: SyncResult): string {
    Lines(SummaryLines(r))
  }
}
