/** internal/progress/progress.go: machine-readable progress, one JSON
    object per output line. The writer is modelled as the sequence of lines
    written to it; json.Marshal is the `Lib` the reporter runs with. */
module Progress {
  import opened Wrappers
  import opened Bytes
  import opened Json

  const EventStart := "start"
  const EventComplete := "complete"
  const EventError := "error"
  const EventDelete := "delete"
  const EventSkip := "skip"
  const EventDone := "done"

  datatype Event = Event(
    typ: string, file: string, size: int, error: string,
    downloaded: int, deleted: int, errors: int, skipped: int)

  /** `m` with `key` set to `v`, unless the field is omitted. */
  function With(m: map<string, JsonValue>, key: string, v: JsonValue, omit: bool): (r: map<string, JsonValue>)
    ensures forall k :: Field(r, k) == if k == key && !omit then v else Field(m, k)
  {
    if omit then m else m[key := v]
  }

  /** The JSON object of an event: "event" always, every other field only
      when it is not its zero value (omitempty). */
  function EventJson(e: Event): JsonValue {
    var m := map["event" := JStr(e.typ)];
    var m := With(m, "file", JStr(e.file), e.file == "");
    var m := With(m, "size", JNum(e.size), e.size == 0);
    var m := With(m, "error", JStr(e.error), e.error == "");
    var m := With(m, "downloaded", JNum(e.downloaded), e.downloaded == 0);
    var m := With(m, "deleted", JNum(e.deleted), e.deleted == 0);
    var m := With(m, "errors", JNum(e.errors), e.errors == 0);
    JObj(With(m, "skipped", JNum(e.skipped), e.skipped == 0))
  }

  /** json.Unmarshal of an event line into Event. */
  function EventFromJson(v: JsonValue): (r: Option<Event>)
    ensures !v.JObj? && !v.JNull? ==> r.None?
  {
    match v
    case JNull => Some(Event("", "", 0, "", 0, 0, 0, 0))
    case JObj(f) =>
      (match (DecodeString(Field(f, "event")), DecodeString(Field(f, "file")), DecodeInt(Field(f, "size")),
              DecodeString(Field(f, "error")), DecodeInt(Field(f, "downloaded")), DecodeInt(Field(f, "deleted")),
              DecodeInt(Field(f, "errors")), DecodeInt(Field(f, "skipped")))
       case (Some(t), Some(file), Some(size), Some(err), Some(dl), Some(del), Some(errs), Some(sk)) =>
         Some(Event(t, file, size, err, dl, del, errs, sk))
       case _ => None)
    case _ => None
  }

  /** Reading an event line back gives the event that was emitted. */
  lemma EventRoundTrip(e: Event)
    ensures EventFromJson(EventJson(e)) == Some(e)
  {
    var f := EventJson(e).fields;
    StringFieldRoundTrip(f, e);
    IntFieldRoundTrip(f, e);
  }

  lemma StringFieldRoundTrip(f: map<string, JsonValue>, e: Event)
    requires f == EventJson(e).fields
    ensures DecodeString(Field(f, "event")) == Some(e.typ)
    ensures DecodeString(Field(f, "file")) == Some(e.file)
    ensures DecodeString(Field(f, "error")) == Some(e.error)
  {
  }

  lemma IntFieldRoundTrip(f: map<string, JsonValue>, e: Event)
    requires f == EventJson(e).fields
    ensures DecodeInt(Field(f, "size")) == Some(e.size)
    ensures DecodeInt(Field(f, "downloaded")) == Some(e.downloaded)
    ensures DecodeInt(Field(f, "deleted")) == Some(e.deleted)
    ensures DecodeInt(Field(f, "errors")) == Some(e.errors)
    ensures DecodeInt(Field(f, "skipped")) == Some(e.skipped)
  {
  }

  /** Reporter: when enabled, each call writes one line, the JSON of its
      event. `events` is the record of what was emitted, in order. */
  class Reporter {
    const lib: Lib
    const enabled: bool
    var lines: seq<Bytes>
    ghost var events: seq<Event>

    /** Every line written is the JSON of the event emitted at that point. */
    ghost predicate Valid()
      reads this
    {
      |lines| == |events| && forall i :: 0 <= i < |lines| ==> lines[i] == lib.marshal(EventJson(events[i]))
    }

    /** NewReporter, writing to an empty output. */
    constructor (lib0: Lib, enabled0: bool)
      ensures lib == lib0 && enabled == enabled0
      ensures lines == [] && events == [] && Valid()
    {
      lib, enabled := lib0, enabled0;
      lines, events := [], [];
    }

    /** Emit: nothing when disabled; otherwise one line, the marshalled
        event (json.Marshal of this struct cannot fail). */
    method Emit(e: Event)
      requires Valid()
      modifies this`lines, this`events
      ensures Valid()
      ensures enabled ==> events == old(events) + [e] && lines == old(lines) + [lib.marshal(EventJson(e))]
      ensures !enabled ==> events == old(events) && lines == old(lines)
    {
      if !enabled {
        return;
      }
      lines := lines + [lib.marshal(EventJson(e))];
      events := events + [e];
    }

    method Start(file: string, size: int)
      requires Valid()
      modifies this`lines, this`events
      ensures Valid()
      ensures events == old(events) + (if enabled then [Event(EventStart, file, size, "", 0, 0, 0, 0)] else [])
    {
      Emit(Event(EventStart, file, size, "", 0, 0, 0, 0));
    }

    method Complete(file: string)
      requires Valid()
      modifies this`lines, this`events
      ensures Valid()
      ensures events == old(events) + (if enabled then [Event(EventComplete, file, 0, "", 0, 0, 0, 0)] else [])
    {
      Emit(Event(EventComplete, file, 0, "", 0, 0, 0, 0));
    }

    /** FileError: `err` is the error's text. */
    method FileError(file: string, err: string)
      requires Valid()
      modifies this`lines, this`events
      ensures Valid()
      ensures events == old(events) + (if enabled then [Event(EventError, file, 0, err, 0, 0, 0, 0)] else [])
    {
      Emit(Event(EventError, file, 0, err, 0, 0, 0, 0));
    }

    method Delete(file: string)
      requires Valid()
      modifies this`lines, this`events
      ensures Valid()
      ensures events == old(events) + (if enabled then [Event(EventDelete, file, 0, "", 0, 0, 0, 0)] else [])
    {
      Emit(Event(EventDelete, file, 0, "", 0, 0, 0, 0));
    }

    method Skip(file: string)
      requires Valid()
      modifies this`lines, this`events
      ensures Valid()
      ensures events == old(events) + (if enabled then [Event(EventSkip, file, 0, "", 0, 0, 0, 0)] else [])
    {
      Emit(Event(EventSkip, file, 0, "", 0, 0, 0, 0));
    }

    method Done(downloaded: int, deleted: int, errors: int, skipped: int)
      requires Valid()
      modifies this`lines, this`events
      ensures Valid()
      ensures events == old(events)
                        + (if enabled then [Event(EventDone, "", 0, "", downloaded, deleted, errors, skipped)] else [])
    {
      Emit(Event(EventDone, "", 0, "", downloaded, deleted, errors, skipped));
    }
  }

  /** Each line of the output parses back to the event emitted at that
      point, so a reader sees the events in call order. */
  lemma LinesReadBack(lib: Lib, lines: seq<Bytes>, events: seq<Event>)
    requires lib.RoundTrips()
    requires |lines| == |events| && forall i :: 0 <= i < |lines| ==> lines[i] == lib.marshal(EventJson(events[i]))
    ensures forall i :: 0 <= i < |lines| ==>
      lib.unmarshal(lines[i]).Some? && EventFromJson(lib.unmarshal(lines[i]).value) == Some(events[i])
  {
    forall i | 0 <= i < |lines|
      ensures lib.unmarshal(lines[i]).Some? && EventFromJson(lib.unmarshal(lines[i]).value) == Some(events[i])
    {
      EventRoundTrip(events[i]);
    }
  }
}
