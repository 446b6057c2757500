/** The JSON layer the system relies on (encoding/json and crypto/md5).

    A JSON document is modelled as its value tree. The text syntax and the
    MD5 digest are library internals, so they enter the model as the
    function-valued fields of `Lib`: every operation that reads or writes
    JSON text or hashes bytes takes the `Lib` it runs with. The decoding of a
    value tree into the system's own structs (zero values for absent or null
    fields, an error for a field of the wrong JSON type) is modelled
    explicitly, module by module. */
module Json {
  import opened Wrappers
  import opened Bytes

  datatype JsonValue =
    | JNull
    | JBool(b: bool)
    | JNum(n: int)
    | JStr(s: string)
    | JArr(items: seq<JsonValue>)
    | JObj(fields: map<string, JsonValue>)

  /** The library functions the program calls but the model does not open:
      MD5 hex digest of a byte string, json.Marshal(Indent) of a value tree to
      text, json.Unmarshal's syntax check and parse (None: not JSON), and
      time.Time's JSON form: an instant as RFC 3339 text (`formatTime`) and
      the parse of such text (`parseTime`, None: not RFC 3339). */
  datatype Lib = Lib(
    md5: Bytes -> string,
    marshal: JsonValue -> Bytes,
    unmarshal: Bytes -> Option<JsonValue>,
    formatTime: int -> string,
    parseTime: string -> Option<int>)
  {
    /** encoding/json's and time's promise: text they produce parses back
        to the value, and an instant written as RFC 3339 text reads back as
        the same instant. */
    ghost predicate RoundTrips() {
      && (forall v :: unmarshal(marshal(v)) == Some(v))
      && TimeRoundTrips()
    }

    /** An instant written as RFC 3339 text reads back as the same instant. */
    ghost predicate TimeRoundTrips() {
      forall t :: parseTime(formatTime(t)) == Some(t)
    }
  }

  /** A struct field as json.Unmarshal sees it: an absent member behaves
      like `null` (the field keeps its zero value). */
  function Field(fields: map<string, JsonValue>, name: string): (v: JsonValue)
    ensures name !in fields ==> v == JNull
  {
    if name in fields then fields[name] else JNull
  }

  /** Decoding into an integer field: null leaves 0, a number is taken, any
      other JSON type is an UnmarshalTypeError. */
  function DecodeInt(v: JsonValue): (r: Option<int>)
    ensures v.JNum? ==> r == Some(v.n)
    ensures r.Some? <==> v.JNum? || v.JNull?
  {
    match v
    case JNull => Some(0)
    case JNum(n) => Some(n)
    case _ => None
  }

  /** Decoding into a string field: null leaves "", a string is taken. */
  function DecodeString(v: JsonValue): (r: Option<string>)
    ensures v.JStr? ==> r == Some(v.s)
    ensures r.Some? <==> v.JStr? || v.JNull?
  {
    match v
    case JNull => Some("")
    case JStr(s) => Some(s)
    case _ => None
  }

  /** Decoding into a time.Time field: null leaves the zero time (0), a
      string is parsed as RFC 3339 text, and any other JSON type (a number,
      say) is an error. */
  function DecodeTime(lib: Lib, v: JsonValue): (r: Option<int>)
    ensures v.JStr? ==> r == lib.parseTime(v.s)
    ensures v.JNull? ==> r == Some(0)
    ensures !v.JStr? && !v.JNull? ==> r.None?
  {
    match v
    case JNull => Some(0)
    case JStr(s) => lib.parseTime(s)
    case _ => None
  }

  /** Decoding into a bool field: null leaves false. */
  function DecodeBool(v: JsonValue): (r: Option<bool>)
    ensures v.JBool? ==> r == Some(v.b)
    ensures r.Some? <==> v.JBool? || v.JNull?
  {
    match v
    case JNull => Some(false)
    case JBool(b) => Some(b)
    case _ => None
  }
}
