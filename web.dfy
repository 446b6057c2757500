/** cmd/web.go: the sync endpoints of the browser UI. The event log collects
    the sync's progress lines and serves them to server-sent-event clients;
    the status endpoint classifies the sync; one sync runs at a time. HTTP,
    the goroutine, the mutexes and the notify channel are not modelled: a
    handler is a method call, and the background sync finishing is a call
    to RunSync. */
module Web {
  import opened Wrappers
  import opened Strings
  import Sync

  // ---- the event log ----

  class EventLog {
    var lines: seq<string>
    var done: bool

    /** newEventLog: no lines, not finished. */
    constructor ()
      ensures lines == [] && !done
    {
      lines, done := [], false;
    }

    /** Write: the input, without its trailing newlines, becomes one more
        line, and the whole input counts as written. */
    method Write(p: string) returns (n: int)
      modifies this`lines
      ensures n == |p|
      ensures lines == old(lines) + [TrimTrailingNewlines(p)]
    {
      lines := lines + [TrimTrailingNewlines(p)];
      n := |p|;
    }

    /** finish: marks the log done; the lines stay as they are. */
    method Finish()
      modifies this`done
      ensures done
    {
      done := true;
    }

    /** read(from): the lines from index `from` on, with the done flag.
        None stands for the slice-bounds panic of a negative `from`. */
    function Read(from: int): (r: Option<(seq<string>, bool)>)
      reads this
      ensures r.None? <==> from < 0
      ensures r.Some? ==> r.value.1 == done
      ensures r.Some? ==> r.value.0 == if from < |lines| then lines[from..] else []
    {
      if from >= |lines| then Some(([], done))
      else if from < 0 then None
      else Some((lines[from..], done))
    }
  }

  // ---- the event stream ----

  /** One server-sent event: the text Fprintf writes as
      "id: <id>\ndata: <data>\n\n". */
  datatype SseEvent = SseEvent(id: int, data: string)

  /** What one pass of the stream loop sends for `lines` from `cursor`:
      each line from the cursor on, with its index as its id. */
  function Pending(lines: seq<string>, cursor: nat): (es: seq<SseEvent>)
    ensures |es| == if cursor < |lines| then |lines| - cursor else 0
    ensures forall i :: 0 <= i < |es| ==> es[i] == SseEvent(cursor + i, lines[cursor + i])
    decreases |lines| - cursor
  {
    if cursor >= |lines| then []
    else [SseEvent(cursor, lines[cursor])] + Pending(lines, cursor + 1)
  }

  /** The cursor after that pass. */
  function Advance(lines: seq<string>, cursor: nat): nat {
    if cursor < |lines| then |lines| else cursor
  }

  /** One pass of handleSyncEvents' loop: read from the cursor, send every
      line with id cursor+i, move the cursor past what was sent. */
  method Poll(log: EventLog, cursor: nat) returns (events: seq<SseEvent>, next: nat, done: bool)
    ensures events == Pending(log.lines, cursor)
    ensures next == Advance(log.lines, cursor) && done == log.done
  {
    var r := log.Read(cursor);
    var lines := r.value.0;
    done := r.value.1;
    events := [];
    for i := 0 to |lines|
      invariant |events| == i
      invariant forall k :: 0 <= k < i ==> events[k] == SseEvent(cursor + k, lines[k])
    {
      events := events + [SseEvent(cursor + i, lines[i])];
    }
    next := cursor + |lines|;
  }

  /** Each snapshot of the log's lines extends the ones before it. */
  ghost predicate Growing(snaps: seq<seq<string>>) {
    forall i, j :: 0 <= i < j < |snaps| ==> snaps[i] <= snaps[j]
  }

  /** What a client receives over passes that see the snapshots in turn. */
  function Replay(snaps: seq<seq<string>>, cursor: nat): seq<SseEvent>
    decreases |snaps|
  {
    if snaps == [] then []
    else Pending(snaps[0], cursor) + Replay(snaps[1..], Advance(snaps[0], cursor))
  }

  lemma {:induction false} PendingPrefix(a: seq<string>, b: seq<string>, cursor: nat)
    requires a <= b
    ensures Pending(a, cursor) + Pending(b, Advance(a, cursor)) == Pending(b, cursor)
  {
    var x, y, z := Pending(a, cursor), Pending(b, Advance(a, cursor)), Pending(b, cursor);
    assert |x + y| == |z|;
    forall i | 0 <= i < |z| ensures (x + y)[i] == z[i] {
      if i < |x| {
        assert a[cursor + i] == b[cursor + i];
      }
    }
  }

  /** A client that keeps polling a growing log receives every line from
      its starting cursor exactly once, in order, with its index as id:
      what the latest snapshot holds from that cursor on. */
  lemma {:induction false} StreamDeliversEachLineOnce(snaps: seq<seq<string>>, cursor: nat)
    requires |snaps| > 0 && Growing(snaps)
    ensures Replay(snaps, cursor) == Pending(snaps[|snaps| - 1], cursor)
  {
    if |snaps| > 1 {
      var rest := snaps[1..];
      assert Growing(rest) by {
        forall i, j | 0 <= i < j < |rest| ensures rest[i] <= rest[j] {
          assert rest[i] == snaps[i + 1] && rest[j] == snaps[j + 1];
        }
      }
      StreamDeliversEachLineOnce(rest, Advance(snaps[0], cursor));
      PendingPrefix(snaps[0], snaps[|snaps| - 1], cursor);
    }
  }

  /** handleSyncEvents' starting cursor as written: Last-Event-ID + 1 when
      the header is a number, 0 when it is absent or not a number. */
  function CursorAsWritten(lastEventID: string): (c: int)
    ensures Atoi(lastEventID).Some? ==> c == Atoi(lastEventID).value + 1
    ensures Atoi(lastEventID).None? ==> c == 0
  {
    if lastEventID == "" then 0
    else match Atoi(lastEventID)
      case Some(n) => n + 1
      case None => 0
  }

  /** A Last-Event-ID of -2 or below gives a negative cursor, and the first
      read with it panics on the slice bounds, whatever the log holds. */
  lemma NegativeIdPanics(log: EventLog)
    ensures CursorAsWritten("-2") == -1
    ensures log.Read(CursorAsWritten("-2")).None?
  {
    assert AllDigits("2") && DigitsValue("2") == 2;
  }

  /** The cursor with the header's id resumed only when it is an id the
      stream could have sent (ids are indices, so never negative). */
  function Cursor(lastEventID: string): (c: nat)
    ensures Atoi(lastEventID).Some? && Atoi(lastEventID).value >= 0 ==> c == Atoi(lastEventID).value + 1
    ensures Atoi(lastEventID).None? || Atoi(lastEventID).value < 0 ==> c == 0
  {
    match Atoi(lastEventID)
    case Some(n) => if n >= 0 then n + 1 else 0
    case None => 0
  }

  /** The corrected cursor always reads, and it is the written one wherever
      that one does not panic. */
  lemma CursorReads(log: EventLog, lastEventID: string)
    ensures log.Read(Cursor(lastEventID)).Some?
    ensures CursorAsWritten(lastEventID) >= 0 ==> Cursor(lastEventID) == CursorAsWritten(lastEventID)
  {
  }

  /** A client that saw the j-th event of a pass and reconnects with its id
      as Last-Event-ID receives exactly the events after it. */
  lemma {:induction false} ResumeAfter(lines: seq<string>, cursor: nat, j: nat)
    requires j < |Pending(lines, cursor)|
    ensures Pending(lines, cursor)
            == Pending(lines, cursor)[..j + 1] + Pending(lines, Cursor(FormatInt(Pending(lines, cursor)[j].id)))
  {
    var es := Pending(lines, cursor);
    var k := cursor + j;
    assert es[j].id == k;
    assert Cursor(FormatInt(k)) == k + 1;
    var rest := Pending(lines, k + 1);
    assert |es| == |es[..j + 1] + rest|;
    forall i | 0 <= i < |es| ensures es[i] == (es[..j + 1] + rest)[i] {
      if i > j {
        assert rest[i - j - 1] == SseEvent(k + 1 + (i - j - 1), lines[k + 1 + (i - j - 1)]);
      }
    }
  }

  // ---- sync status ----

  datatype State = Idle | Running | Failed | Complete

  function StateName(s: State): string {
    match s
    case Idle => "idle"
    case Running => "running"
    case Failed => "failed"
    case Complete => "complete"
  }

  /** The counts a finished sync reports with its state. */
  datatype Counts = Counts(downloaded: int, deleted: int, retained: int, skipped: int, errors: int, summary: string)

  datatype StatusResponse = StatusResponse(state: string, counts: Option<Counts>)

  /** handleSyncStatus: idle with no log, running with no result, and a
      finished sync's state and counts otherwise. */
  function StatusOf(hasLog: bool, result: Option<Sync.SyncResult>): (r: StatusResponse)
    ensures r.state == "idle" <==> !hasLog
    ensures r.state == "running" <==> hasLog && result.None?
    ensures r.state == "failed" <==> hasLog && result.Some? && |result.value.errors| > 0
    ensures r.state == "complete" <==> hasLog && result.Some? && result.value.errors == []
    ensures r.counts.Some? <==> hasLog && result.Some?
    ensures r.counts.Some? ==>
      r.counts.value == Counts(|result.value.downloaded|, |result.value.deleted|, |result.value.retained|,
                               result.value.skipped, |result.value.errors|, Sync.Summary(result.value))
  {
    if !hasLog then StatusResponse(StateName(Idle), None)
    else match result
      case None => StatusResponse(StateName(Running), None)
      case Some(res) =>
        var s := if |res.errors| > 0 then Failed else Complete;
        StatusResponse(StateName(s), Some(Counts(|res.downloaded|, |res.deleted|, |res.retained|, res.skipped,
                                                 |res.errors|, Sync.Summary(res))))
  }

  /** runSync's options: 0 workers means 1, 0 retries means 3, any other
      setting is kept. */
  function RunSettings(workers: int, maxRetries: int): (r: (int, int))
    ensures r.0 == (if workers == 0 then 1 else workers)
    ensures r.1 == (if maxRetries == 0 then 3 else maxRetries)
    ensures workers >= 0 && maxRetries >= 0 ==> r.0 >= 1 && r.1 >= 1
  {
    var w := if workers == 0 then 1 else workers;
    var m := if maxRetries == 0 then 3 else maxRetries;
    (w, m)
  }

  /** The result recorded when sync.Run returns no result but an error. */
  function Recorded(outcome: Option<Sync.SyncResult>, err: string): (r: Sync.SyncResult)
    ensures outcome.Some? ==> r == outcome.value
    ensures outcome.None? ==> r.errors == [err] && r.downloaded == [] && r.skipped == 0
  {
    match outcome
    case Some(res) => res
    case None => Sync.SyncResult([], [], [], 0, [err])
  }

  // ---- the server's sync state ----

  class Server {
    /** The configured workers and max_retries. */
    const workers: int
    const maxRetries: int
    /** nil when no sync was started. */
    var syncLog: EventLog?
    /** The syncDone channel has been closed. */
    var syncDone: bool
    var syncResult: Option<Sync.SyncResult>

    /** A started sync has a result exactly when it has finished, and its
        log is done then too; before any sync there is no result. */
    ghost predicate Valid()
      reads this, syncLog
    {
      && (syncLog == null ==> syncResult.None?)
      && (syncLog != null ==> (syncDone <==> syncResult.Some?) && (syncDone <==> syncLog.done))
    }

    constructor (workers0: int, maxRetries0: int)
      ensures workers == workers0 && maxRetries == maxRetries0
      ensures syncLog == null && syncResult.None? && Valid()
    {
      workers, maxRetries := workers0, maxRetries0;
      syncLog, syncDone, syncResult := null, false, None;
    }

    /** handleSyncStatus. */
    method SyncStatus() returns (r: StatusResponse)
      requires Valid()
      ensures r == StatusOf(syncLog != null, syncResult)
      ensures r.state == "running" <==> syncLog != null && !syncDone
    {
      r := StatusOf(syncLog != null, syncResult);
    }

    /** handleSync on a POST: 409 while a started sync has not finished,
        400 when the body does not decode, 500 when the configuration
        cannot be written, and otherwise 200 with a new empty log, no
        result, and the sync started. */
    method StartSync(bodyOk: bool, writeOk: bool) returns (code: int)
      requires Valid()
      modifies this`syncLog, this`syncDone, this`syncResult
      ensures Valid()
      ensures code == 409 <==> old(StatusOf(syncLog != null, syncResult)).state == "running"
      ensures code != 409 ==> code == (if !bodyOk then 400 else if !writeOk then 500 else 200)
      ensures code != 200 ==> unchanged(this)
      ensures code == 200 ==> fresh(syncLog) && syncLog.lines == [] && !syncLog.done && !syncDone
      ensures code == 200 ==> StatusOf(syncLog != null, syncResult).state == "running"
    {
      if syncLog != null && !syncDone {
        return 409;
      }
      if !bodyOk {
        return 400;
      }
      if !writeOk {
        return 500;
      }
      syncLog := new EventLog();
      syncDone := false;
      syncResult := None;
      code := 200;
    }

    /** runSync once sync.Run returns `outcome` (or fails with `err`): the
        settings it ran with, then the result recorded, the log finished
        and the sync marked done. */
    method RunSync(outcome: Option<Sync.SyncResult>, err: string) returns (settings: (int, int))
      requires Valid() && syncLog != null && !syncDone
      modifies this`syncDone, this`syncResult, syncLog`done
      ensures Valid()
      ensures settings == RunSettings(workers, maxRetries)
      ensures syncResult == Some(Recorded(outcome, err)) && syncDone && syncLog.done
      ensures syncLog.lines == old(syncLog.lines)
      ensures StatusOf(true, syncResult).state == (if outcome.None? || outcome.value.errors != [] then "failed" else "complete")
    {
      var w := workers;
      if w == 0 {
        w := 1;
      }
      var m := maxRetries;
      if m == 0 {
        m := 3;
      }
      settings := (w, m);
      if outcome.Some? {
        syncResult := outcome;
      } else {
        syncResult := Some(Sync.SyncResult([], [], [], 0, [err]));
      }
      syncLog.Finish();
      syncDone := true;
    }
  }
}
