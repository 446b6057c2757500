/** internal/manifest/manifest.go: the manifest (path -> size and MD5), its
    JSON form, atomic persistence, and the three-way diff. */
module Manifest {
  import opened Wrappers
  import opened Bytes
  import opened Json
  import opened FileSystem
  import Strings

  datatype FileEntry = FileEntry(size: int, md5: string)

  /** `generatedAt` is an instant as an integer; the zero time is 0. In
      JSON it is RFC 3339 text, as time.Time marshals itself. */
  datatype Manifest = Manifest(version: int, generatedAt: int, files: map<string, FileEntry>)

  datatype DiffResult = DiffResult(added: seq<string>, modified: seq<string>, deleted: seq<string>)

  /** New: version 1, stamped `now`, no files. */
  function New(now: int): (m: Manifest)
    ensures m.version == 1 && m.generatedAt == now && IsEmpty(m)
  {
    Manifest(1, now, map[])
  }

  /** IsEmpty: true exactly when the manifest lists no file. */
  predicate IsEmpty(m: Manifest)
  {
    |m.files| == 0
  }

  lemma IsEmptyMeansNoKeys(m: Manifest)
    ensures IsEmpty(m) <==> forall k :: k !in m.files
  {
    if !IsEmpty(m) {
      var k :| k in m.files;
    }
  }

  // ---- JSON form: {"version", "generated_at", "files": {path: {"size", "md5"}}} ----

  function EntryToJson(e: FileEntry): JsonValue {
    JObj(map["size" := JNum(e.size), "md5" := JStr(e.md5)])
  }

  function FilesToJson(files: map<string, FileEntry>): JsonValue {
    JObj(map k | k in files :: EntryToJson(files[k]))
  }

  function ToJsonValue(lib: Lib, m: Manifest): JsonValue {
    JObj(map["version" := JNum(m.version), "generated_at" := JStr(lib.formatTime(m.generatedAt)),
             "files" := FilesToJson(m.files)])
  }

  /** One FileEntry as json.Unmarshal fills it. */
  function DecodeEntry(v: JsonValue): (r: Option<FileEntry>)
    ensures v.JNull? ==> r == Some(FileEntry(0, ""))
  {
    match v
    case JNull => Some(FileEntry(0, ""))
    case JObj(f) =>
      var size := DecodeInt(Field(f, "size"));
      var md5 := DecodeString(Field(f, "md5"));
      if size.Some? && md5.Some? then Some(FileEntry(size.value, md5.value)) else None
    case _ => None
  }

  /** The `files` member: null or absent leaves a nil map, which ParseJSON and
      LoadJSON replace by an empty one; an object decodes entry by entry. */
  function DecodeFiles(v: JsonValue): (r: Option<map<string, FileEntry>>)
    ensures v.JNull? ==> r == Some(map[])
    ensures r.Some? && v.JObj? ==> r.value.Keys == v.fields.Keys
  {
    match v
    case JNull => Some(map[])
    case JObj(f) =>
      if forall k :: k in f ==> DecodeEntry(f[k]).Some?
      then Some(map k | k in f :: DecodeEntry(f[k]).value)
      else None
    case _ => None
  }

  /** json.Unmarshal into a Manifest followed by the nil-files defaulting;
      a top-level null leaves the zero Manifest. */
  function FromJsonValue(lib: Lib, v: JsonValue): (r: Option<Manifest>)
    ensures v.JObj? && "files" !in v.fields && r.Some? ==> r.value.files == map[]
    ensures v.JObj? && "generated_at" in v.fields && v.fields["generated_at"].JStr? && r.Some? ==>
      lib.parseTime(v.fields["generated_at"].s) == Some(r.value.generatedAt)
    ensures (v.JObj? && "generated_at" in v.fields
             && !v.fields["generated_at"].JStr? && !v.fields["generated_at"].JNull?) ==> r.None?
  {
    match v
    case JNull => Some(Manifest(0, 0, map[]))
    case JObj(f) =>
      var version := DecodeInt(Field(f, "version"));
      var at := DecodeTime(lib, Field(f, "generated_at"));
      var files := DecodeFiles(Field(f, "files"));
      if version.Some? && at.Some? && files.Some?
      then Some(Manifest(version.value, at.value, files.value))
      else None
    case _ => None
  }

  /** ParseJSON: a parse error, or the manifest with a non-nil file map. */
  function ParseJSON(lib: Lib, data: Bytes): (r: Result<Manifest>)
    ensures r.Ok? <==> lib.unmarshal(data).Some? && FromJsonValue(lib, lib.unmarshal(data).value).Some?
  {
    match lib.unmarshal(data)
    case None => Err("parsing manifest: invalid JSON")
    case Some(v) =>
      match FromJsonValue(lib, v)
      case None => Err("parsing manifest: type mismatch")
      case Some(m) => Ok(m)
  }

  /** ToJSON: the manifest's JSON text (json.MarshalIndent cannot fail on
      this struct, so no error is modelled). */
  function ToJSON(lib: Lib, m: Manifest): Bytes {
    lib.marshal(ToJsonValue(lib, m))
  }

  /** A document without a `files` member parses to an empty file map: the
      "first ever manifest" case. */
  lemma ParseWithoutFilesIsEmpty(lib: Lib, data: Bytes, version: int, stamp: string, at: int)
    requires lib.unmarshal(data) == Some(JObj(map["version" := JNum(version), "generated_at" := JStr(stamp)]))
    requires lib.parseTime(stamp) == Some(at)
    ensures ParseJSON(lib, data) == Ok(Manifest(version, at, map[]))
  {
  }

  lemma DecodeEntryInverts(e: FileEntry)
    ensures DecodeEntry(EntryToJson(e)) == Some(e)
  {
    var f := map["size" := JNum(e.size), "md5" := JStr(e.md5)];
    assert Field(f, "size") == JNum(e.size) && Field(f, "md5") == JStr(e.md5);
  }

  lemma {:induction false} DecodeFilesInverts(files: map<string, FileEntry>)
    ensures DecodeFiles(FilesToJson(files)) == Some(files)
  {
    var f := map k | k in files :: EntryToJson(files[k]);
    forall k | k in f ensures DecodeEntry(f[k]) == Some(files[k]) {
      DecodeEntryInverts(files[k]);
    }
    var decoded := map k | k in f :: DecodeEntry(f[k]).value;
    assert decoded == files;
  }

  /** ToJSON followed by ParseJSON gives back the same manifest, files included. */
  lemma {:induction false} ToJsonParseRoundTrip(lib: Lib, m: Manifest)
    requires lib.RoundTrips()
    ensures ParseJSON(lib, ToJSON(lib, m)) == Ok(m)
  {
    var v := ToJsonValue(lib, m);
    assert lib.unmarshal(lib.marshal(v)) == Some(v);
    assert lib.parseTime(lib.formatTime(m.generatedAt)) == Some(m.generatedAt);
    DecodeFilesInverts(m.files);
    assert Field(v.fields, "files") == FilesToJson(m.files);
    assert Field(v.fields, "version") == JNum(m.version);
    assert Field(v.fields, "generated_at") == JStr(lib.formatTime(m.generatedAt));
  }

  // ---- Disk persistence ----

  /** LoadJSON: read then parse; either step's failure is an error. */
  function LoadJSON(lib: Lib, disk: Disk, path: string): (r: Result<Manifest>)
    reads disk
    ensures r.Ok? ==> disk.ReadFile(path).Ok? && r == ParseJSON(lib, disk.ReadFile(path).value)
    ensures disk.ReadFile(path).Ok? ==> r == ParseJSON(lib, disk.ReadFile(path).value)
    ensures disk.ReadFile(path).Err? ==> r.Err?
  {
    match disk.ReadFile(path)
    case Err(e) => Err("reading manifest: " + e)
    case Ok(data) => ParseJSON(lib, data)
  }

  function TempPath(path: string): string { path + ".tmp" }

  /** The faults SaveJSON can meet: creating the parent directory, writing
      the temp file, renaming it. It succeeds exactly when none occurs. */
  predicate SaveSucceeds(disk: Disk, path: string)
    reads disk
  {
    Strings.Dir(path) !in disk.mkdirFails && TempPath(path) !in disk.writeFails && TempPath(path) !in disk.renameFails
  }

  /** SaveJSON: creates the parent directory, writes `path.tmp`, then
      renames it over `path`; a failed rename removes the temp file. The
      file at `path` is either the whole new document or left exactly as
      it was. */
  method SaveJSON(lib: Lib, disk: Disk, m: Manifest, path: string) returns (err: Option<string>)
    modifies disk`files, disk`dirs
    ensures err.None? <==> SaveSucceeds(disk, path)
    ensures disk.dirs == old(disk.dirs) + (if Strings.Dir(path) in disk.mkdirFails then {} else {Strings.Dir(path)})
    ensures Strings.Dir(path) in disk.mkdirFails ==>
      err == Some("creating manifest directory: " + ("mkdir " + Strings.Dir(path) + ": not a directory"))
      && disk.files == old(disk.files)
    ensures err.None? ==>
      disk.files == (old(disk.files) - {TempPath(path)})[path := DiskFile(ToJSON(lib, m), disk.now)]
    ensures err.Some? ==> disk.files - {TempPath(path)} == old(disk.files) - {TempPath(path)}
    ensures err.Some? && TempPath(path) !in disk.removeFails ==>
      disk.files == old(disk.files) || disk.files == old(disk.files) - {TempPath(path)}
  {
    var merr := disk.MkdirAll(Strings.Dir(path));
    if merr.Some? {
      return Some("creating manifest directory: " + merr.value);
    }
    var data := ToJSON(lib, m);
    var tmp := TempPath(path);
    var werr := disk.WriteFile(tmp, data);
    if werr.Some? {
      return Some("writing manifest: " + werr.value);
    }
    var rerr := disk.Rename(tmp, path);
    if rerr.Some? {
      var _ := disk.Remove(tmp);
      return Some("renaming manifest: " + rerr.value);
    }
    err := None;
  }

  /** HashFile: the MD5 of the file's bytes, or the open/read error. */
  function HashFile(lib: Lib, disk: Disk, path: string): (r: Result<string>)
    reads disk
    ensures r.Ok? <==> disk.ReadFile(path).Ok?
    ensures r.Ok? ==> r.value == lib.md5(disk.files[path].data)
  {
    match disk.ReadFile(path)
    case Err(e) => Err("opening file for hashing: " + e)
    case Ok(data) => Ok(lib.md5(data))
  }

  // ---- Diff ----

  /** The entries differ in MD5 or in size. */
  predicate Changed(a: FileEntry, b: FileEntry) {
    a.md5 != b.md5 || a.size != b.size
  }

  lemma ChangedIsInequality(a: FileEntry, b: FileEntry)
    ensures Changed(a, b) <==> a != b
  {
  }

  ghost function Elems(s: seq<string>): set<string> {
    set i | 0 <= i < |s| :: s[i]
  }

  ghost predicate NoDuplicates(s: seq<string>) {
    forall i, j :: 0 <= i < j < |s| ==> s[i] != s[j]
  }

  lemma ElemsConcat(a: seq<string>, b: seq<string>)
    requires NoDuplicates(a) && NoDuplicates(b) && Elems(a) !! Elems(b)
    ensures Elems(a + b) == Elems(a) + Elems(b) && NoDuplicates(a + b)
    ensures |a + b| == |Elems(a) + Elems(b)|
  {
    var c := a + b;
    forall x | x in Elems(a) + Elems(b) ensures x in Elems(c) {
      if x in Elems(a) {
        var i :| 0 <= i < |a| && a[i] == x;
        assert c[i] == x;
      } else {
        var i :| 0 <= i < |b| && b[i] == x;
        assert c[|a| + i] == x;
      }
    }
    forall i, j | 0 <= i < j < |c| ensures c[i] != c[j] {
      if i < |a| && j >= |a| {
        assert c[i] in Elems(a) && c[j] == b[j - |a|] && c[j] in Elems(b);
      }
    }
    DistinctCard(c);
  }

  /** A duplicate-free list has as many elements as its set. */
  lemma {:induction false} DistinctCard(s: seq<string>)
    requires NoDuplicates(s)
    ensures |Elems(s)| == |s|
  {
    if s != [] {
      var init := s[..|s| - 1];
      DistinctCard(init);
      assert Elems(s) == Elems(init) + {s[|s| - 1]};
      assert s[|s| - 1] !in Elems(init);
    }
  }

  lemma ElemsConcatSet(a: seq<string>, b: seq<string>)
    ensures Elems(a + b) == Elems(a) + Elems(b)
  {
    var c := a + b;
    forall x | x in Elems(a) + Elems(b) ensures x in Elems(c) {
      if x in Elems(a) {
        var i :| 0 <= i < |a| && a[i] == x;
        assert c[i] == x;
      } else {
        var i :| 0 <= i < |b| && b[i] == x;
        assert c[|a| + i] == x;
      }
    }
  }

  lemma ElemsSnoc(s: seq<string>, x: string)
    ensures Elems(s + [x]) == Elems(s) + {x}
  {
    var t := s + [x];
    assert forall i :: 0 <= i < |s| ==> t[i] == s[i];
    assert t[|s|] == x;
  }

  /** Appending a key not yet listed keeps the list duplicate-free and adds
      exactly that key. */
  lemma AppendFresh(s: seq<string>, x: string)
    requires NoDuplicates(s) && x !in Elems(s)
    ensures Elems(s + [x]) == Elems(s) + {x}
    ensures NoDuplicates(s + [x])
  {
    var t := s + [x];
    assert forall i :: 0 <= i < |s| ==> t[i] == s[i];
    forall y | y in Elems(s) + {x} ensures y in Elems(t) {
      if y == x { assert t[|s|] == x; } else { var i :| 0 <= i < |s| && s[i] == y; assert t[i] == y; }
    }
    forall i, j | 0 <= i < j < |t| ensures t[i] != t[j] {
      if j == |s| { assert t[i] == s[i] && s[i] in Elems(s); }
    }
  }

  /** What remote has that local lacks. */
  ghost function AddedKeys(remote: Manifest, local: Manifest): set<string> {
    remote.files.Keys - local.files.Keys
  }

  /** What both have, with different content. */
  ghost function ModifiedKeys(remote: Manifest, local: Manifest): set<string> {
    set k | k in remote.files && k in local.files && Changed(local.files[k], remote.files[k])
  }

  /** What local has that remote lacks. */
  ghost function DeletedKeys(remote: Manifest, local: Manifest): set<string> {
    local.files.Keys - remote.files.Keys
  }

  /** Diff(remote, local): the keys local must add, re-fetch and drop to
      become remote, each list without duplicates. Go's map iteration order
      is unspecified, so only the sets of keys are promised. */
  method Diff(remote: Manifest, local: Manifest) returns (d: DiffResult)
    ensures Elems(d.added) == AddedKeys(remote, local) && NoDuplicates(d.added)
    ensures Elems(d.modified) == ModifiedKeys(remote, local) && NoDuplicates(d.modified)
    ensures Elems(d.deleted) == DeletedKeys(remote, local) && NoDuplicates(d.deleted)
  {
    var added, modified, deleted := [], [], [];
    var todo := remote.files.Keys;
    while todo != {}
      invariant todo <= remote.files.Keys
      invariant Elems(added) == (remote.files.Keys - todo) - local.files.Keys
      invariant Elems(modified) == set k | k in remote.files.Keys - todo && k in local.files
                                         && Changed(local.files[k], remote.files[k])
      invariant NoDuplicates(added) && NoDuplicates(modified)
      decreases todo
    {
      var path :| path in todo;
      if path !in local.files {
        AppendFresh(added, path);
        added := added + [path];
      } else if local.files[path].md5 != remote.files[path].md5 || local.files[path].size != remote.files[path].size {
        AppendFresh(modified, path);
        modified := modified + [path];
      }
      todo := todo - {path};
    }
    todo := local.files.Keys;
    while todo != {}
      invariant todo <= local.files.Keys
      invariant Elems(deleted) == (local.files.Keys - todo) - remote.files.Keys
      invariant NoDuplicates(deleted)
      decreases todo
    {
      var path :| path in todo;
      if path !in remote.files {
        AppendFresh(deleted, path);
        deleted := deleted + [path];
      }
      todo := todo - {path};
    }
    d := DiffResult(added, modified, deleted);
  }

  /** The three lists are pairwise disjoint. */
  lemma DiffDisjoint(remote: Manifest, local: Manifest)
    ensures AddedKeys(remote, local) !! ModifiedKeys(remote, local)
    ensures AddedKeys(remote, local) !! DeletedKeys(remote, local)
    ensures ModifiedKeys(remote, local) !! DeletedKeys(remote, local)
  {
  }

  /** Added of Diff(a, b) is Deleted of Diff(b, a), and the other way round. */
  lemma DiffInverse(a: Manifest, b: Manifest)
    ensures AddedKeys(a, b) == DeletedKeys(b, a)
    ensures DeletedKeys(a, b) == AddedKeys(b, a)
    ensures ModifiedKeys(a, b) == ModifiedKeys(b, a)
  {
  }

  /** A manifest differs from itself in nothing. */
  lemma DiffSelfEmpty(a: Manifest)
    ensures AddedKeys(a, a) == {} && ModifiedKeys(a, a) == {} && DeletedKeys(a, a) == {}
  {
  }

  /** The diff is empty exactly when the file maps are equal. */
  lemma DiffEmptyIffSameFiles(remote: Manifest, local: Manifest)
    ensures AddedKeys(remote, local) == {} && ModifiedKeys(remote, local) == {}
            && DeletedKeys(remote, local) == {}
            <==> remote.files == local.files
  {
    if AddedKeys(remote, local) == {} && ModifiedKeys(remote, local) == {}
       && DeletedKeys(remote, local) == {} {
      assert remote.files.Keys == local.files.Keys;
      forall k | k in remote.files ensures remote.files[k] == local.files[k] {
        assert k !in ModifiedKeys(remote, local);
      }
    }
  }
}
