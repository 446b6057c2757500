/** internal/config/config.go: the configuration record, its validation with
    the sync-dirs default, the error paths of Load, and the platform default
    for the local manifest path. */
module Config {
  import opened Wrappers
  import opened Bytes
  import opened Strings
  import opened FileSystem

  /** `prefix` is read by the storage client and the setup token although the
      struct shown in config.go does not declare it; it is carried here so
      those readers can be modelled. */
  datatype StorageConfig = StorageConfig(
    endpointURL: string, bucket: string, keyID: string, secretKey: string,
    region: string, prefix: string)

  /** `syncExclude` is read by the selection encoding although the struct
      shown in config.go does not declare it. */
  datatype SyncConfig = SyncConfig(
    emulationPath: string, syncDirs: seq<string>, syncExclude: seq<string>,
    delete: bool, workers: int)

  datatype Config = Config(storage: StorageConfig, sync: SyncConfig)

  const DefaultSyncDirs: seq<string> := ["roms", "bios"]

  /** The first required field that is empty, in the order validate checks
      them, as its error message. */
  function FirstMissing(c: Config): Option<string>
  {
    if c.storage.bucket == "" then Some("config: storage.bucket is required")
    else if c.storage.keyID == "" then Some("config: storage.key_id is required")
    else if c.storage.secretKey == "" then Some("config: storage.secret_key is required")
    else if c.sync.emulationPath == "" then Some("config: sync.emulation_path is required")
    else None
  }

  predicate RequiredPresent(c: Config) {
    c.storage.bucket != "" && c.storage.keyID != "" && c.storage.secretKey != ""
    && c.sync.emulationPath != ""
  }

  /** validate: rejects a config missing a required field, reporting the first
      in the order bucket, key_id, secret_key, emulation_path; otherwise
      fills the default sync dirs when none are given and changes nothing else. */
  function Validate(c: Config): (r: Result<Config>)
    ensures r.Ok? <==> RequiredPresent(c)
    ensures c.storage.bucket == "" ==> r == Err("config: storage.bucket is required")
    ensures c.storage.bucket != "" && c.storage.keyID == "" ==>
      r == Err("config: storage.key_id is required")
    ensures c.storage.bucket != "" && c.storage.keyID != "" && c.storage.secretKey == "" ==>
      r == Err("config: storage.secret_key is required")
    ensures (c.storage.bucket != "" && c.storage.keyID != "" && c.storage.secretKey != ""
             && c.sync.emulationPath == "") ==> r == Err("config: sync.emulation_path is required")
    ensures r.Ok? ==> r.value.storage == c.storage
    ensures r.Ok? ==> r.value.sync.(syncDirs := c.sync.syncDirs) == c.sync
    ensures r.Ok? && |c.sync.syncDirs| > 0 ==> r.value == c
    ensures r.Ok? && |c.sync.syncDirs| == 0 ==> r.value.sync.syncDirs == DefaultSyncDirs
  {
    match FirstMissing(c)
    case Some(msg) => Err(msg)
    case None =>
      if |c.sync.syncDirs| == 0 then Ok(c.(sync := c.sync.(syncDirs := DefaultSyncDirs)))
      else Ok(c)
  }

  /** Validating an already validated config changes nothing. */
  lemma ValidateIdempotent(c: Config)
    requires Validate(c).Ok?
    ensures Validate(Validate(c).value) == Validate(c)
  {
  }

  /** Load: read the file, parse it (`parse` stands for the TOML decoder),
      validate; each failure is an error and yields no config. */
  function Load(disk: Disk, parse: Bytes -> Result<Config>, path: string): (r: Result<Config>)
    reads disk
    ensures disk.ReadFile(path).Err? ==> r.Err? && HasPrefix(r.msg, "reading config file: ")
    ensures disk.ReadFile(path).Ok? && parse(disk.ReadFile(path).value).Err? ==>
      r.Err? && HasPrefix(r.msg, "parsing config file: ")
    ensures r.Ok? <==> disk.ReadFile(path).Ok? && parse(disk.ReadFile(path).value).Ok?
                       && RequiredPresent(parse(disk.ReadFile(path).value).value)
    ensures r.Ok? ==> r == Validate(parse(disk.ReadFile(path).value).value)
  {
    match disk.ReadFile(path)
    case Err(e) => Err("reading config file: " + e)
    case Ok(data) =>
      match parse(data)
      case Err(e) => Err("parsing config file: " + e)
      case Ok(cfg) => Validate(cfg)
  }

  /** DefaultLocalManifestPath, with the operating system, the home
      directory and $XDG_DATA_HOME as inputs. */
  function DefaultLocalManifestPath(goos: string, home: string, xdgDataHome: string): string
  {
    if goos == "darwin" then
      Join([home, "Library", "Application Support", "emu-sync", "local-manifest.json"])
    else if xdgDataHome != "" then
      Join([xdgDataHome, "emu-sync", "local-manifest.json"])
    else
      Join([home, ".local", "share", "emu-sync", "local-manifest.json"])
  }

  /** On darwin: under the home directory's Library/Application Support. */
  lemma DarwinManifestPath(home: string, xdgDataHome: string)
    requires home != ""
    ensures DefaultLocalManifestPath("darwin", home, xdgDataHome)
            == home + "/" + "Library" + "/" + "Application Support" + "/" + "emu-sync" + "/" + "local-manifest.json"
  {
    Join5(home, "Library", "Application Support", "emu-sync", "local-manifest.json");
  }

  /** Elsewhere, with $XDG_DATA_HOME set: under it. */
  lemma XdgManifestPath(goos: string, home: string, xdgDataHome: string)
    requires goos != "darwin" && xdgDataHome != ""
    ensures DefaultLocalManifestPath(goos, home, xdgDataHome)
            == xdgDataHome + "/" + "emu-sync" + "/" + "local-manifest.json"
  {
    Join3(xdgDataHome, "emu-sync", "local-manifest.json");
  }

  /** Elsewhere, without $XDG_DATA_HOME: under the home directory's .local/share. */
  lemma HomeManifestPath(goos: string, home: string)
    requires goos != "darwin" && home != ""
    ensures DefaultLocalManifestPath(goos, home, "")
            == home + "/" + ".local" + "/" + "share" + "/" + "emu-sync" + "/" + "local-manifest.json"
  {
    Join5(home, ".local", "share", "emu-sync", "local-manifest.json");
  }

  lemma Join3(a: string, b: string, c: string)
    requires a != "" && b != "" && c != ""
    ensures Join([a, b, c]) == a + "/" + b + "/" + c
  {
    JoinSnoc([], a);
    assert [] + [a] == [a];
    JoinSnoc([a], b);
    assert [a] + [b] == [a, b];
    JoinSnoc([a, b], c);
    assert [a, b] + [c] == [a, b, c];
  }

  lemma Join5(a: string, b: string, c: string, d: string, e: string)
    requires a != "" && b != "" && c != "" && d != "" && e != ""
    ensures Join([a, b, c, d, e]) == a + "/" + b + "/" + c + "/" + d + "/" + e
  {
    Join3(a, b, c);
    JoinSnoc([a, b, c], d);
    assert [a, b, c] + [d] == [a, b, c, d];
    JoinSnoc([a, b, c, d], e);
    assert [a, b, c, d] + [e] == [a, b, c, d, e];
  }

  lemma JoinSnoc(parts: seq<string>, last: string)
    ensures Join(parts + [last]) == if last == "" then Join(parts)
                                    else if Join(parts) == "" then last
                                    else Join(parts) + "/" + last
  {
    assert (parts + [last])[..|parts|] == parts;
  }
}
