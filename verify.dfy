/** internal/sync/verify.go: re-hash the files the local manifest lists,
    classify each one, drop the entries of missing and mismatched files so
    the next sync fetches them again, and save the manifest when it shrank. */
module Verification {
  import opened Wrappers
  import opened Json
  import opened Strings
  import opened FileSystem
  import opened Manifest
  import Sync

  datatype VerifyResult = VerifyResult(ok: seq<string>, mismatch: seq<string>, missing: seq<string>, errors: seq<string>)

  /** How one manifest entry compares with the disk. */
  datatype Verdict = Matches | Mismatched | Gone | Errored(msg: string)

  /** The verdict on `key`: missing when stat reports not-exist, an error
      when stat fails, a mismatch on a size difference (without hashing;
      a directory at the path has a size too), then an error when hashing
      fails (reading a directory fails), a mismatch on a different MD5, and
      otherwise a match. */
  function Check(lib: Lib, disk: Disk, emuPath: string, key: string, entry: FileEntry): (v: Verdict)
    reads disk
    ensures var path := Sync.LocalPath(emuPath, key);
      var st := disk.Stat(path);
      && (v == Gone <==> st == Missing)
      && (v == Matches <==>
            st.IsFile? && st.size == entry.size && path !in disk.readFails
            && lib.md5(disk.files[path].data) == entry.md5)
      && (v == Mismatched <==>
            (st.IsFile? || st.IsDir?)
            && (st.size != entry.size
                || (st.IsFile? && path !in disk.readFails && lib.md5(disk.files[path].data) != entry.md5)))
      && (v.Errored? <==>
            st == StatError
            || (st.IsDir? && st.size == entry.size)
            || (st.IsFile? && st.size == entry.size && path in disk.readFails))
  {
    var path := Sync.LocalPath(emuPath, key);
    match disk.Stat(path)
    case Missing => Gone
    case StatError => Errored("stat " + key + ": " + ("stat " + path + ": permission denied"))
    case IsDir(size) => if size != entry.size then Mismatched else HashVerdict(lib, disk, path, key, entry)
    case IsFile(size, _) => if size != entry.size then Mismatched else HashVerdict(lib, disk, path, key, entry)
  }

  /** The hash comparison, once the size is not known to differ. */
  function HashVerdict(lib: Lib, disk: Disk, path: string, key: string, entry: FileEntry): (v: Verdict)
    reads disk
    ensures v.Errored? <==> disk.ReadFile(path).Err?
    ensures v == Matches <==> disk.ReadFile(path).Ok? && lib.md5(disk.files[path].data) == entry.md5
    ensures v != Gone
  {
    match HashFile(lib, disk, path)
    case Err(e) => Errored("hashing " + key + ": " + e)
    case Ok(h) => if h != entry.md5 then Mismatched else Matches
  }

  /** The keys among `keys` whose entry gets verdict `v`. */
  ghost function KeysWith(lib: Lib, disk: Disk, emuPath: string, files: map<string, FileEntry>, keys: set<string>,
                          v: Verdict): set<string>
    reads disk
  {
    set k | k in keys && k in files && Check(lib, disk, emuPath, k, files[k]) == v
  }

  ghost function FailedKeys(lib: Lib, disk: Disk, emuPath: string, files: map<string, FileEntry>,
                            keys: set<string>): set<string>
    reads disk
  {
    set k | k in keys && k in files && Check(lib, disk, emuPath, k, files[k]).Errored?
  }

  /** The entries Verify removes: the missing and the mismatched ones. */
  ghost function Stale(lib: Lib, disk: Disk, emuPath: string, files: map<string, FileEntry>): set<string>
    reads disk
  {
    KeysWith(lib, disk, emuPath, files, files.Keys, Mismatched) + KeysWith(lib, disk, emuPath, files, files.Keys, Gone)
  }

  /** `r` reports each of `keys` under its verdict, each key once; `failed`
      lists the keys behind `r.errors`, in the same order. */
  ghost predicate Reports(r: VerifyResult, failed: seq<string>, lib: Lib, disk: Disk, emuPath: string,
                          files: map<string, FileEntry>, keys: set<string>)
    reads disk
  {
    && Elems(r.ok) == KeysWith(lib, disk, emuPath, files, keys, Matches) && NoDuplicates(r.ok)
    && Elems(r.mismatch) == KeysWith(lib, disk, emuPath, files, keys, Mismatched) && NoDuplicates(r.mismatch)
    && Elems(r.missing) == KeysWith(lib, disk, emuPath, files, keys, Gone) && NoDuplicates(r.missing)
    && Elems(failed) == FailedKeys(lib, disk, emuPath, files, keys) && NoDuplicates(failed)
    && |r.errors| == |failed|
    && (forall i :: 0 <= i < |failed| ==>
          && failed[i] in files
          && Check(lib, disk, emuPath, failed[i], files[failed[i]]).Errored?
          && r.errors[i] == Check(lib, disk, emuPath, failed[i], files[failed[i]]).msg)
  }

  /** What the classification loop keeps: the keys checked so far are
      reported, and `toRemove` lists the stale ones among them. */
  ghost predicate ClassifyInv(r: VerifyResult, failed: seq<string>, toRemove: seq<string>, lib: Lib, disk: Disk,
                              emuPath: string, files: map<string, FileEntry>, done: set<string>)
    reads disk
  {
    && Reports(r, failed, lib, disk, emuPath, files, done)
    && Elems(toRemove) == KeysWith(lib, disk, emuPath, files, done, Mismatched)
                          + KeysWith(lib, disk, emuPath, files, done, Gone)
    && NoDuplicates(toRemove)
  }

  /** The classification loop over local.Files (in an unspecified order). */
  method Classify(lib: Lib, disk: Disk, emuPath: string, local: Manifest)
    returns (r: VerifyResult, toRemove: seq<string>, ghost failed: seq<string>)
    ensures Reports(r, failed, lib, disk, emuPath, local.files, local.files.Keys)
    ensures Elems(toRemove) == Stale(lib, disk, emuPath, local.files) && NoDuplicates(toRemove)
  {
    r, toRemove, failed := VerifyResult([], [], [], []), [], [];
    var todo := local.files.Keys;
    while todo != {}
      invariant todo <= local.files.Keys
      invariant ClassifyInv(r, failed, toRemove, lib, disk, emuPath, local.files, local.files.Keys - todo)
      decreases todo
    {
      var key :| key in todo;
      r, toRemove, failed := Record(lib, disk, emuPath, local.files, local.files.Keys - todo, key, r, toRemove, failed);
      assert local.files.Keys - todo + {key} == local.files.Keys - (todo - {key});
      todo := todo - {key};
    }
  }

  /** One turn of the loop: file `key` under its verdict. */
  method Record(lib: Lib, disk: Disk, emuPath: string, files: map<string, FileEntry>, done: set<string>,
                key: string, r: VerifyResult, toRemove: seq<string>, ghost failed: seq<string>)
    returns (r': VerifyResult, toRemove': seq<string>, ghost failed': seq<string>)
    requires key in files && key !in done
    requires ClassifyInv(r, failed, toRemove, lib, disk, emuPath, files, done)
    ensures ClassifyInv(r', failed', toRemove', lib, disk, emuPath, files, done + {key})
  {
    r', toRemove', failed' := r, toRemove, failed;
    var v := Check(lib, disk, emuPath, key, files[key]);
    match v {
      case Gone =>
        AppendFresh(r.missing, key);
        AppendFresh(toRemove, key);
        r', toRemove' := r.(missing := r.missing + [key]), toRemove + [key];
      case Errored(msg) =>
        AppendFresh(failed, key);
        r', failed' := r.(errors := r.errors + [msg]), failed + [key];
      case Mismatched =>
        AppendFresh(r.mismatch, key);
        AppendFresh(toRemove, key);
        r', toRemove' := r.(mismatch := r.mismatch + [key]), toRemove + [key];
      case Matches =>
        AppendFresh(r.ok, key);
        r' := r.(ok := r.ok + [key]);
    }
  }

  /** Every entry lands in exactly one of OK, Mismatch, Missing and Errors. */
  lemma VerdictsPartition(lib: Lib, disk: Disk, emuPath: string, files: map<string, FileEntry>)
    ensures var ok := KeysWith(lib, disk, emuPath, files, files.Keys, Matches);
            var mismatch := KeysWith(lib, disk, emuPath, files, files.Keys, Mismatched);
            var missing := KeysWith(lib, disk, emuPath, files, files.Keys, Gone);
            var failed := FailedKeys(lib, disk, emuPath, files, files.Keys);
            && ok + mismatch + missing + failed == files.Keys
            && ok !! mismatch && ok !! missing && ok !! failed
            && mismatch !! missing && mismatch !! failed && missing !! failed
  {
  }

  /** The four lists together are as long as the manifest. */
  lemma ReportCounts(r: VerifyResult, failed: seq<string>, lib: Lib, disk: Disk, emuPath: string,
                     files: map<string, FileEntry>)
    requires Reports(r, failed, lib, disk, emuPath, files, files.Keys)
    ensures |r.ok| + |r.mismatch| + |r.missing| + |r.errors| == |files|
  {
    VerdictsPartition(lib, disk, emuPath, files);
    DistinctCard(r.ok);
    DistinctCard(r.mismatch);
    DistinctCard(r.missing);
    DistinctCard(failed);
    var ok, mismatch := Elems(r.ok), Elems(r.mismatch);
    var missing, bad := Elems(r.missing), Elems(failed);
    assert |ok + mismatch| == |ok| + |mismatch|;
    assert |ok + mismatch + missing| == |ok + mismatch| + |missing|;
    assert |ok + mismatch + missing + bad| == |ok + mismatch + missing| + |bad|;
  }

  /** The manifest Verify keeps: the original without its stale entries. */
  function Pruned(local: Manifest, stale: set<string>): (m: Manifest)
    ensures m.version == local.version && m.generatedAt == local.generatedAt
    ensures forall k :: k in m.files <==> k in local.files && k !in stale
    ensures forall k :: k in m.files ==> m.files[k] == local.files[k]
  {
    local.(files := local.files - stale)
  }

  /** What stays in the manifest is exactly what matched or could not be
      checked. */
  lemma PrunedKeepsCheckedAndFailed(lib: Lib, disk: Disk, emuPath: string, local: Manifest)
    ensures Pruned(local, Stale(lib, disk, emuPath, local.files)).files.Keys
            == KeysWith(lib, disk, emuPath, local.files, local.files.Keys, Matches)
               + FailedKeys(lib, disk, emuPath, local.files, local.files.Keys)
  {
    VerdictsPartition(lib, disk, emuPath, local.files);
  }

  /** Verify. `manifestPath` is the resolved local manifest path (the
      option, or config.DefaultLocalManifestPath() when it is empty). A
      load failure returns no result. The manifest is rewritten only when
      some entry was removed; a failed save still returns the result. */
  method Verify(lib: Lib, disk: Disk, emuPath: string, manifestPath: string)
    returns (res: Option<VerifyResult>, err: Option<string>, ghost failed: seq<string>)
    modifies disk`files, disk`dirs
    ensures old(LoadJSON(lib, disk, manifestPath)).Err? ==>
      res.None? && err == Some("loading local manifest: " + old(LoadJSON(lib, disk, manifestPath)).msg)
      && disk.files == old(disk.files) && disk.dirs == old(disk.dirs)
    ensures old(LoadJSON(lib, disk, manifestPath)).Ok? ==>
      var local := old(LoadJSON(lib, disk, manifestPath)).value;
      var stale := old(Stale(lib, disk, emuPath, local.files));
      && res.Some?
      && old(Reports(res.value, failed, lib, disk, emuPath, local.files, local.files.Keys))
      && (stale == {} ==> err.None? && disk.files == old(disk.files) && disk.dirs == old(disk.dirs))
      && (stale != {} ==>
            && (err.None? <==> SaveSucceeds(disk, manifestPath))
            && (err.Some? ==> HasPrefix(err.value, "saving updated manifest: "))
            && (err.None? ==>
                  disk.files == (old(disk.files) - {TempPath(manifestPath)})
                                [manifestPath := DiskFile(ToJSON(lib, Pruned(local, stale)), disk.now)]))
  {
    var loaded := LoadJSON(lib, disk, manifestPath);
    if loaded.Err? {
      return None, Some("loading local manifest: " + loaded.msg), [];
    }
    var local := loaded.value;
    var r, toRemove;
    r, toRemove, failed := Classify(lib, disk, emuPath, local);
    res, err := Some(r), None;
    if |toRemove| > 0 {
      assert toRemove[0] in Elems(toRemove);
      var files := RemoveEntries(local.files, toRemove);
      var serr := SaveJSON(lib, disk, local.(files := files), manifestPath);
      if serr.Some? {
        err := Some("saving updated manifest: " + serr.value);
      }
    } else {
      assert Elems(toRemove) == {};
    }
  }

  /** The loop deleting each stale entry from the manifest's files. */
  method RemoveEntries(files: map<string, FileEntry>, toRemove: seq<string>) returns (left: map<string, FileEntry>)
    ensures left == files - Elems(toRemove)
  {
    left := files;
    for i := 0 to |toRemove|
      invariant left == files - Elems(toRemove[..i])
    {
      assert Elems(toRemove[..i + 1]) == Elems(toRemove[..i]) + {toRemove[i]};
      left := left - {toRemove[i]};
    }
    assert toRemove[..|toRemove|] == toRemove;
  }

  // ---- summary ----

  /** The lines of VerifyResult.Summary, without their newlines. */
  function SummaryLines(r: VerifyResult): (lines: seq<string>)
    ensures |lines| == 1 + (if |r.mismatch| > 0 then 1 + |r.mismatch| else 0)
                     + (if |r.missing| > 0 then 1 + |r.missing| else 0)
                     + (if |r.errors| > 0 then 1 + |r.errors| else 0)
                     + (if AllMatch(r) then 1 else 0)
    ensures lines[0] == "Verified: " + FormatInt(|r.ok|) + " files OK"
  {
    [OkLine(r)] + Listed(r) + (if AllMatch(r) then [AllMatchLine] else [])
  }

  const AllMatchLine := "All files match the manifest."

  predicate AllMatch(r: VerifyResult) {
    r.mismatch == r.missing == r.errors == []
  }

  function OkLine(r: VerifyResult): string {
    "Verified: " + FormatInt(|r.ok|) + " files OK"
  }

  /** The three titled lists of the summary, each absent when empty. */
  function Listed(r: VerifyResult): seq<string> {
    Section("Mismatched: " + FormatInt(|r.mismatch|) + " files (will re-download on next sync)", "  ~ ", r.mismatch)
    + Section("Missing: " + FormatInt(|r.missing|) + " files (will re-download on next sync)", "  - ", r.missing)
    + Section("Errors: " + FormatInt(|r.errors|), "  ! ", r.errors)
  }

  /** Every mismatched, missing and failed file has a line under its mark. */
  lemma SummaryListsAll(r: VerifyResult)
    ensures forall i :: 0 <= i < |r.mismatch| ==> "  ~ " + r.mismatch[i] in SummaryLines(r)
    ensures forall i :: 0 <= i < |r.missing| ==> "  - " + r.missing[i] in SummaryLines(r)
    ensures forall i :: 0 <= i < |r.errors| ==> "  ! " + r.errors[i] in SummaryLines(r)
  {
    var lines := SummaryLines(r);
    assert forall x :: x in Listed(r) ==> x in lines;
  }

  /** The summary ends with "All files match the manifest." exactly when no
      file is mismatched, missing or failed. */
  lemma SummaryEndsAllMatch(r: VerifyResult)
    ensures AllMatch(r) <==> SummaryLines(r)[|SummaryLines(r)| - 1] == AllMatchLine
  {
    var lines := SummaryLines(r);
    if !AllMatch(r) {
      var listed := Listed(r);
      assert lines == [OkLine(r)] + listed;
      assert listed != [] && lines[|lines| - 1] == listed[|listed| - 1];
      assert listed[|listed| - 1][0] == ' ' by {
        var mism := Section("Mismatched: " + FormatInt(|r.mismatch|) + " files (will re-download on next sync)", "  ~ ",
                            r.mismatch);
        var miss := Section("Missing: " + FormatInt(|r.missing|) + " files (will re-download on next sync)", "  - ",
                            r.missing);
        var errs := Section("Errors: " + FormatInt(|r.errors|), "  ! ", r.errors);
        assert listed == mism + miss + errs;
        if errs != [] {
          assert listed[|listed| - 1] == "  ! " + r.errors[|r.errors| - 1];
        } else if miss != [] {
          assert listed[|listed| - 1] == "  - " + r.missing[|r.missing| - 1];
        } else {
          assert listed[|listed| - 1] == "  ~ " + r.mismatch[|r.mismatch| - 1];
        }
      }
    }
  }

  /** VerifyResult.Summary: each line ends in a newline. */
  function Summary(r: VerifyResult): string {
    Lines(SummaryLines(r))
  }
}
