/** internal/upload/cache.go: the upload hash cache, which remembers each
    file's MD5 together with the size and modification time it was computed
    for, so that unchanged files need not be read again. */
module Cache {
  import opened Wrappers
  import opened Bytes
  import opened Json
  import opened FileSystem
  import Strings

  /** mtime is an instant as an integer; time.Time.Equal is integer
      equality. In JSON it is RFC 3339 text, as time.Time marshals itself. */
  datatype CacheEntry = CacheEntry(size: int, mtime: int, md5: string)

  /** lookup on a file map: it hits exactly when an entry for the key
      records the same size and mtime, and then gives the stored MD5. */
  function LookupIn(files: map<string, CacheEntry>, key: string, size: int, mtime: int): (r: Option<string>)
    ensures r.Some? <==> key in files && files[key].size == size && files[key].mtime == mtime
    ensures r.Some? ==> r.value == files[key].md5
  {
    if key !in files then None
    else if files[key].size != size || files[key].mtime != mtime then None
    else Some(files[key].md5)
  }

  /** Right after update(k, s, m, h), lookup(k, s, m) hits with h, and every
      other key looks up as before. */
  lemma LookupAfterUpdate(files: map<string, CacheEntry>, key: string, size: int, mtime: int, md5: string,
                          other: string, s: int, m: int)
    ensures LookupIn(files[key := CacheEntry(size, mtime, md5)], key, size, mtime) == Some(md5)
    ensures other != key ==>
      LookupIn(files[key := CacheEntry(size, mtime, md5)], other, s, m) == LookupIn(files, other, s, m)
  {
  }

  // ---- JSON form: {"files": {path: {"size", "mtime", "md5"}}} ----

  function EntryToJson(lib: Lib, e: CacheEntry): JsonValue {
    JObj(map["size" := JNum(e.size), "mtime" := JStr(lib.formatTime(e.mtime)), "md5" := JStr(e.md5)])
  }

  function FilesToJson(lib: Lib, files: map<string, CacheEntry>): JsonValue {
    JObj(map k | k in files :: EntryToJson(lib, files[k]))
  }

  function ToJsonValue(lib: Lib, files: map<string, CacheEntry>): JsonValue {
    JObj(map["files" := FilesToJson(lib, files)])
  }

  /** One cacheEntry as json.Unmarshal fills it: the mtime must be RFC 3339
      text (or null); a number there is a decoding error. */
  function DecodeEntry(lib: Lib, v: JsonValue): (r: Option<CacheEntry>)
    ensures v.JNull? ==> r == Some(CacheEntry(0, 0, ""))
    ensures v.JObj? && "mtime" in v.fields && !v.fields["mtime"].JStr? && !v.fields["mtime"].JNull? ==> r.None?
    ensures v.JObj? && "mtime" in v.fields && v.fields["mtime"].JStr? && r.Some? ==>
      lib.parseTime(v.fields["mtime"].s) == Some(r.value.mtime)
  {
    match v
    case JNull => Some(CacheEntry(0, 0, ""))
    case JObj(f) =>
      var size := DecodeInt(Field(f, "size"));
      var mtime := DecodeTime(lib, Field(f, "mtime"));
      var md5 := DecodeString(Field(f, "md5"));
      if size.Some? && mtime.Some? && md5.Some? then Some(CacheEntry(size.value, mtime.value, md5.value))
      else None
    case _ => None
  }

  /** json.Unmarshal into a hashCache followed by the nil-map defaulting;
      None is a decoding error. */
  function FromJsonValue(lib: Lib, v: JsonValue): (r: Option<map<string, CacheEntry>>)
    ensures v.JObj? && "files" !in v.fields ==> r == Some(map[])
  {
    match v
    case JNull => Some(map[])
    case JObj(f) => DecodeFiles(lib, Field(f, "files"))
    case _ => None
  }

  /** The `files` member: null or absent gives an empty map; an object
      decodes entry by entry. */
  function DecodeFiles(lib: Lib, v: JsonValue): (r: Option<map<string, CacheEntry>>)
    ensures v.JNull? ==> r == Some(map[])
    ensures r.Some? && v.JObj? ==> r.value.Keys == v.fields.Keys
  {
    match v
    case JNull => Some(map[])
    case JObj(g) =>
      if forall k :: k in g ==> DecodeEntry(lib, g[k]).Some?
      then Some(map k | k in g :: DecodeEntry(lib, g[k]).value)
      else None
    case _ => None
  }

  /** loadHashCache's outcome: the stored entries, or an empty map when the
      file cannot be read, is not JSON, or does not decode. */
  function LoadFiles(lib: Lib, disk: Disk, path: string): (r: map<string, CacheEntry>)
    reads disk
    ensures disk.ReadFile(path).Err? ==> r == map[]
    ensures disk.ReadFile(path).Ok? && lib.unmarshal(disk.ReadFile(path).value).None? ==> r == map[]
    ensures (disk.ReadFile(path).Ok? && lib.unmarshal(disk.ReadFile(path).value).Some?
             && FromJsonValue(lib, lib.unmarshal(disk.ReadFile(path).value).value).None?) ==> r == map[]
  {
    match disk.ReadFile(path)
    case Err(_) => map[]
    case Ok(data) =>
      match lib.unmarshal(data)
      case None => map[]
      case Some(v) =>
        match FromJsonValue(lib, v)
        case None => map[]
        case Some(files) => files
  }

  /** Decoding inverts encoding for every file map. */
  lemma {:induction false} FromToJson(lib: Lib, files: map<string, CacheEntry>)
    requires lib.TimeRoundTrips()
    ensures FromJsonValue(lib, ToJsonValue(lib, files)) == Some(files)
  {
    DecodeFilesInverts(lib, files);
    assert Field(ToJsonValue(lib, files).fields, "files") == FilesToJson(lib, files);
  }

  lemma {:induction false} DecodeFilesInverts(lib: Lib, files: map<string, CacheEntry>)
    requires lib.TimeRoundTrips()
    ensures DecodeFiles(lib, FilesToJson(lib, files)) == Some(files)
  {
    var g := map k | k in files :: EntryToJson(lib, files[k]);
    forall k | k in g ensures DecodeEntry(lib, g[k]) == Some(files[k]) {
      EntryRoundTrip(lib, files[k]);
    }
    DecodeObject(lib, g, files);
  }

  /** An object whose every member decodes to the entry under the same key
      decodes to that map of entries. */
  lemma DecodeObject(lib: Lib, g: map<string, JsonValue>, files: map<string, CacheEntry>)
    requires g.Keys == files.Keys
    requires forall k | k in g :: DecodeEntry(lib, g[k]) == Some(files[k])
    ensures DecodeFiles(lib, JObj(g)) == Some(files)
  {
    var decoded := map k | k in g :: DecodeEntry(lib, g[k]).value;
    assert decoded == files;
  }

  /** One entry reads back as itself, its mtime through RFC 3339 text. */
  lemma EntryRoundTrip(lib: Lib, e: CacheEntry)
    requires lib.TimeRoundTrips()
    ensures DecodeEntry(lib, EntryToJson(lib, e)) == Some(e)
  {
    var f := map["size" := JNum(e.size), "mtime" := JStr(lib.formatTime(e.mtime)), "md5" := JStr(e.md5)];
    assert Field(f, "size") == JNum(e.size) && Field(f, "mtime") == JStr(lib.formatTime(e.mtime));
    assert Field(f, "md5") == JStr(e.md5);
    assert lib.parseTime(lib.formatTime(e.mtime)) == Some(e.mtime);
  }

  /** The cache file written by save loads back with every entry. */
  lemma SaveLoadRoundTrip(lib: Lib, disk: Disk, path: string, files: map<string, CacheEntry>)
    requires lib.RoundTrips()
    requires path in disk.files && path !in disk.readFails
    requires disk.files[path].data == lib.marshal(ToJsonValue(lib, files))
    ensures LoadFiles(lib, disk, path) == files
  {
    assert lib.unmarshal(lib.marshal(ToJsonValue(lib, files))) == Some(ToJsonValue(lib, files));
    FromToJson(lib, files);
  }

  /** The faults save can meet: creating the parent directory, writing the
      file. */
  predicate SaveSucceeds(disk: Disk, path: string)
    reads disk
  {
    Strings.Dir(path) !in disk.mkdirFails && path !in disk.writeFails
  }

  class HashCache {
    var files: map<string, CacheEntry>

    /** newHashCache. */
    constructor ()
      ensures files == map[]
    {
      files := map[];
    }

    /** loadHashCache: never fails. */
    constructor Load(lib: Lib, disk: Disk, path: string)
      ensures files == LoadFiles(lib, disk, path)
    {
      files := LoadFiles(lib, disk, path);
    }

    /** lookup. */
    function Lookup(key: string, size: int, mtime: int): (r: Option<string>)
      reads this
      ensures r == LookupIn(files, key, size, mtime)
    {
      LookupIn(files, key, size, mtime)
    }

    /** update: upserts the entry for `key`; nothing else changes. */
    method Update(key: string, size: int, mtime: int, md5: string)
      modifies this
      ensures files == old(files)[key := CacheEntry(size, mtime, md5)]
      ensures Lookup(key, size, mtime) == Some(md5)
    {
      files := files[key := CacheEntry(size, mtime, md5)];
    }

    /** prune: deletes, while iterating, every entry whose key is not valid;
        survivors keep their entries. */
    method Prune(valid: set<string>)
      modifies this
      ensures files == map k | k in old(files) && k in valid :: old(files)[k]
    {
      var todo := files.Keys;
      while todo != {}
        invariant todo <= old(files).Keys
        invariant files == map k | k in old(files) && (k in todo || k in valid) :: old(files)[k]
        decreases todo
      {
        var key :| key in todo;
        if key !in valid {
          files := files - {key};
        }
        todo := todo - {key};
      }
    }

    /** save: creates the parent directory, then writes the JSON form;
        either failure is returned and leaves the files as they were. */
    method Save(lib: Lib, disk: Disk, path: string) returns (err: Option<string>)
      modifies disk`files, disk`dirs
      ensures err.Some? <==> !SaveSucceeds(disk, path)
      ensures disk.dirs == old(disk.dirs) + (if Strings.Dir(path) in disk.mkdirFails then {} else {Strings.Dir(path)})
      ensures err.None? ==>
        disk.files == old(disk.files)[path := DiskFile(lib.marshal(ToJsonValue(lib, files)), disk.now)]
      ensures err.Some? ==> disk.files == old(disk.files)
    {
      err := disk.MkdirAll(Strings.Dir(path));
      if err.Some? {
        return;
      }
      err := disk.WriteFile(path, lib.marshal(ToJsonValue(lib, files)));
    }
  }
}
