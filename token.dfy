/** internal/token/token.go: a setup token is the JSON of the storage
    settings and the emulation path, in standard padded base64. Decode
    rejects bad base64, bad JSON and a token missing bucket, key_id or
    secret_key; the token converts to and from a configuration. */
module Token {
  import opened Wrappers
  import opened Bytes
  import opened Json
  import opened Strings
  import Base64
  import Config

  datatype Data = Data(
    endpointURL: string, bucket: string, keyID: string, secretKey: string,
    region: string, prefix: string, emulationPath: string)

  const MissingFields := "invalid token: missing required fields (bucket, key_id, secret_key)"

  predicate HasRequired(d: Data) {
    d.bucket != "" && d.keyID != "" && d.secretKey != ""
  }

  /** The JSON object json.Marshal writes: every field under its tag, with
      "prefix" omitted when empty (omitempty). */
  function ToJsonValue(d: Data): JsonValue {
    JObj(map["endpoint_url" := JStr(d.endpointURL), "bucket" := JStr(d.bucket), "key_id" := JStr(d.keyID),
             "secret_key" := JStr(d.secretKey), "region" := JStr(d.region),
             "emulation_path" := JStr(d.emulationPath)]
         + (if d.prefix == "" then map[] else map["prefix" := JStr(d.prefix)]))
  }

  /** json.Unmarshal into Data: null leaves every field empty, an object
      fills the fields it has (others ignored), anything else or a field of
      the wrong type is an error. */
  function FromJsonValue(v: JsonValue): (r: Option<Data>)
    ensures v.JNull? ==> r == Some(Data("", "", "", "", "", "", ""))
    ensures !v.JNull? && !v.JObj? ==> r.None?
  {
    match v
    case JNull => Some(Data("", "", "", "", "", "", ""))
    case JObj(f) =>
      (match (DecodeString(Field(f, "endpoint_url")), DecodeString(Field(f, "bucket")),
              DecodeString(Field(f, "key_id")), DecodeString(Field(f, "secret_key")),
              DecodeString(Field(f, "region")), DecodeString(Field(f, "prefix")),
              DecodeString(Field(f, "emulation_path")))
       case (Some(e), Some(b), Some(k), Some(s), Some(r), Some(p), Some(m)) => Some(Data(e, b, k, s, r, p, m))
       case _ => None)
    case _ => None
  }

  lemma FromToJsonValue(d: Data)
    ensures FromJsonValue(ToJsonValue(d)) == Some(d)
  {
    var f := ToJsonValue(d).fields;
    assert Field(f, "prefix") == if d.prefix == "" then JNull else JStr(d.prefix);
  }

  /** Encode (json.Marshal cannot fail on a struct of strings, so the error
      return is never taken). */
  function Encode(lib: Lib, d: Data): string {
    Base64.Encode(lib.marshal(ToJsonValue(d)))
  }

  /** Decode: base64, then JSON, then the required fields, each failure
      with its own message. */
  function Decode(lib: Lib, token: string): (r: Result<Data>)
    ensures Base64.Decode(token).None? ==> r.Err? && HasPrefix(r.msg, "invalid token (not valid base64): ")
    ensures Base64.Decode(token).Some? && lib.unmarshal(Base64.Decode(token).value).None? ==>
      r.Err? && HasPrefix(r.msg, "invalid token (not valid JSON): ")
    ensures r.Ok? ==> HasRequired(r.value)
    ensures r.Ok? <==>
      && Base64.Decode(token).Some?
      && lib.unmarshal(Base64.Decode(token).value).Some?
      && FromJsonValue(lib.unmarshal(Base64.Decode(token).value).value).Some?
      && HasRequired(FromJsonValue(lib.unmarshal(Base64.Decode(token).value).value).value)
  {
    match Base64.Decode(token)
    case None => Err("invalid token (not valid base64): " + "illegal base64 data")
    case Some(bytes) =>
      match lib.unmarshal(bytes)
      case None => Err("invalid token (not valid JSON): " + "invalid character")
      case Some(v) =>
        match FromJsonValue(v)
        case None => Err("invalid token (not valid JSON): " + "cannot unmarshal into token data")
        case Some(d) => if HasRequired(d) then Ok(d) else Err(MissingFields)
  }

  /** A token made from data with bucket, key_id and secret_key decodes to
      the same data. */
  lemma DecodeEncode(lib: Lib, d: Data)
    requires lib.RoundTrips()
    requires HasRequired(d)
    ensures Decode(lib, Encode(lib, d)) == Ok(d)
  {
    Base64.DecodeEncode(lib.marshal(ToJsonValue(d)));
    FromToJsonValue(d);
  }

  /** A token missing one of them is refused, even though it encodes. */
  lemma EncodeWithoutRequiredIsRefused(lib: Lib, d: Data)
    requires lib.RoundTrips()
    requires !HasRequired(d)
    ensures Decode(lib, Encode(lib, d)) == Err(MissingFields)
  {
    Base64.DecodeEncode(lib.marshal(ToJsonValue(d)));
    FromToJsonValue(d);
  }

  /** ToConfig: the storage fields and emulation path copied, the default
      sync dirs, deletion on, and everything else at its zero value. */
  function ToConfig(d: Data): (c: Config.Config)
    ensures c.storage == Config.StorageConfig(d.endpointURL, d.bucket, d.keyID, d.secretKey, d.region, d.prefix)
    ensures c.sync.emulationPath == d.emulationPath
    ensures c.sync.syncDirs == ["roms", "bios"] && c.sync.delete
    ensures c.sync.syncExclude == [] && c.sync.workers == 0
  {
    Config.Config(
      Config.StorageConfig(d.endpointURL, d.bucket, d.keyID, d.secretKey, d.region, d.prefix),
      Config.SyncConfig(d.emulationPath, ["roms", "bios"], [], true, 0))
  }

  /** FromConfig: the storage fields and the emulation path. */
  function FromConfig(c: Config.Config): (d: Data)
    ensures d.bucket == c.storage.bucket && d.keyID == c.storage.keyID && d.secretKey == c.storage.secretKey
    ensures d.endpointURL == c.storage.endpointURL && d.region == c.storage.region
    ensures d.prefix == c.storage.prefix && d.emulationPath == c.sync.emulationPath
  {
    Data(c.storage.endpointURL, c.storage.bucket, c.storage.keyID, c.storage.secretKey, c.storage.region,
         c.storage.prefix, c.sync.emulationPath)
  }

  /** Sharing a configuration as a token keeps its storage settings and its
      emulation path. */
  lemma ToConfigFromConfig(c: Config.Config)
    ensures ToConfig(FromConfig(c)).storage == c.storage
    ensures ToConfig(FromConfig(c)).sync.emulationPath == c.sync.emulationPath
  {
  }

  /** And a token survives the trip through a configuration unchanged. */
  lemma FromConfigToConfig(d: Data)
    ensures FromConfig(ToConfig(d)) == d
  {
  }

  /** The configuration of a decoded token passes validation exactly when
      the token names an emulation path, and validation then leaves it as
      it is. */
  lemma DecodedTokenValidates(lib: Lib, token: string)
    requires Decode(lib, token).Ok?
    ensures var c := ToConfig(Decode(lib, token).value);
            Config.Validate(c).Ok? <==> c.sync.emulationPath != ""
    ensures var c := ToConfig(Decode(lib, token).value);
            Config.Validate(c).Ok? ==> Config.Validate(c).value == c
  {
  }
}
