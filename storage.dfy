/** internal/storage/storage.go, the part that is not a wrapper over the S3
    SDK: where the manifest lives and how the configured prefix is applied
    to every object key. */
module Storage {
  import opened Strings
  import Config

  /** The object key of the published manifest. */
  const ManifestKey: string := "emu-sync-manifest.json"

  /** What a Client keeps from the configuration besides the SDK handle. */
  datatype Client = Client(bucket: string, prefix: string)

  /** NewClient: keeps the bucket and the configured prefix without one
      trailing slash. */
  function NewClient(cfg: Config.StorageConfig): (c: Client)
    ensures c.bucket == cfg.bucket
    ensures HasSuffix(cfg.prefix, "/") ==> c.prefix + "/" == cfg.prefix
    ensures !HasSuffix(cfg.prefix, "/") ==> c.prefix == cfg.prefix
  {
    Client(cfg.bucket, TrimSuffix(cfg.prefix, "/"))
  }

  /** Only one slash is removed: "a//" becomes "a/". */
  lemma NewClientTrimsOneSlash()
    ensures NewClient(Config.StorageConfig("", "b", "", "", "", "a//")).prefix == "a/"
  {
    assert HasSuffix("a//", "/");
  }

  /** prefixedKey. */
  function PrefixedKey(c: Client, key: string): (r: string)
  {
    if c.prefix == "" then key else c.prefix + "/" + key
  }

  /** Without a prefix the key is used as is; with one, the object sits
      under prefix + "/" and the key is recovered by dropping that. */
  lemma PrefixedKeyShape(c: Client, key: string)
    ensures c.prefix == "" ==> PrefixedKey(c, key) == key
    ensures c.prefix != "" ==>
              HasPrefix(PrefixedKey(c, key), c.prefix + "/") && PrefixedKey(c, key)[|c.prefix| + 1..] == key
  {
    if c.prefix != "" {
      assert PrefixedKey(c, key) == (c.prefix + "/") + key;
    }
  }

  /** Distinct keys never share an object. */
  lemma PrefixedKeyInjective(c: Client, k1: string, k2: string)
    requires PrefixedKey(c, k1) == PrefixedKey(c, k2)
    ensures k1 == k2
  {
    PrefixedKeyShape(c, k1);
    PrefixedKeyShape(c, k2);
  }

  /** DownloadManifest and UploadManifest address the manifest key, under
      the prefix like any other object. */
  function ManifestObjectKey(c: Client): (r: string)
    ensures c.prefix == "" ==> r == ManifestKey
    ensures c.prefix != "" ==> r == c.prefix + "/" + ManifestKey
  {
    PrefixedKey(c, ManifestKey)
  }
}
