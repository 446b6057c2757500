/** internal/retry/retry.go: retry with exponential backoff and jitter.
    The operation's results, the random jitter and whether the context is
    cancelled while a delay is pending are oracles indexed by attempt. */
module Retry {
  import opened Wrappers

  /** One second in nanoseconds, the unit of time.Duration. */
  const Second: int := 1_000_000_000

  function Pow2(k: nat): (r: nat)
    ensures r >= 1
  {
    if k == 0 then 1 else 2 * Pow2(k - 1)
  }

  /** The delay after failed attempt k: 2^k seconds plus the jitter. */
  function Delay(k: nat, jitter: int): int {
    Pow2(k) * Second + jitter
  }

  /** What a run observably did: the returned error, how often the operation
      was called, and the delays started between attempts. */
  datatype Trace = Trace(err: Option<string>, calls: nat, delays: seq<int>)

  /** The attempt loop from attempt `k` on, as a function. Past maxRetries
      the loop condition fails at once: nothing is called and the still
      nil error is returned (the whole run, when maxRetries is negative). */
  function Run(maxRetries: int, fn: nat -> Option<string>, cancelled: nat -> bool,
               jitter: nat -> int, ctxErr: string, k: nat): Trace
    decreases maxRetries - k
  {
    if k > maxRetries then Trace(None, 0, [])
    else if fn(k).None? then Trace(None, 1, [])
    else if k == maxRetries then Trace(fn(k), 1, [])
    else if cancelled(k) then Trace(Some(ctxErr), 1, [Delay(k, jitter(k))])
    else
      var rest := Run(maxRetries, fn, cancelled, jitter, ctxErr, k + 1);
      Trace(rest.err, rest.calls + 1, [Delay(k, jitter(k))] + rest.delays)
  }

  /** WithBackoff. `fn(k)` is the k-th call's result (None for success),
      `cancelled(k)` says that the context is done before the delay after
      attempt k elapses, `jitter(k)` is that delay's random part and
      `ctxErr` is ctx.Err(). */
  method WithBackoff(maxRetries: int, fn: nat -> Option<string>, cancelled: nat -> bool,
                     jitter: nat -> int, ctxErr: string)
    returns (err: Option<string>, calls: nat, delays: seq<int>)
    ensures Trace(err, calls, delays) == Run(maxRetries, fn, cancelled, jitter, ctxErr, 0)
  {
    calls, delays := 0, [];
    var attempt := 0;
    err := None;
    ghost var whole := Run(maxRetries, fn, cancelled, jitter, ctxErr, 0);
    if maxRetries < 0 {
      assert whole == Trace(None, 0, []);
    }
    while attempt <= maxRetries
      invariant 0 <= attempt && (attempt <= maxRetries || (maxRetries < 0 && attempt == 0))
      invariant attempt > maxRetries ==> err.None?
      invariant calls == attempt && |delays| == attempt
      invariant Tail(whole, calls, delays, Run(maxRetries, fn, cancelled, jitter, ctxErr, attempt))
      decreases maxRetries - attempt
    {
      ghost var rest := Run(maxRetries, fn, cancelled, jitter, ctxErr, attempt);
      err := fn(attempt);
      calls := calls + 1;
      if err == None {
        assert rest == Trace(None, 1, []);
        assert delays + [] == delays;
        return;
      }
      if attempt == maxRetries {
        assert rest == Trace(err, 1, []);
        assert delays + [] == delays;
        return;
      }
      var delay := Delay(attempt, jitter(attempt));
      if cancelled(attempt) {
        assert rest == Trace(Some(ctxErr), 1, [delay]);
        return Some(ctxErr), calls, delays + [delay];
      }
      ghost var next := Run(maxRetries, fn, cancelled, jitter, ctxErr, attempt + 1);
      assert rest == Trace(next.err, next.calls + 1, [delay] + next.delays);
      TailStep(whole, calls - 1, delays, delay, rest, next);
      delays := delays + [delay];
      attempt := attempt + 1;
    }
  }

  /** `whole` is what has happened so far (`calls`, `delays`) followed by
      `rest`. */
  ghost predicate Tail(whole: Trace, calls: nat, delays: seq<int>, rest: Trace) {
    whole == Trace(rest.err, calls + rest.calls, delays + rest.delays)
  }

  /** One more failed, uncancelled attempt moves a delay from the rest of
      the run into what has happened. */
  lemma TailStep(whole: Trace, calls: nat, delays: seq<int>, delay: int, rest: Trace, next: Trace)
    requires Tail(whole, calls, delays, rest)
    requires rest == Trace(next.err, next.calls + 1, [delay] + next.delays)
    ensures Tail(whole, calls + 1, delays + [delay], next)
  {
    assert (delays + [delay]) + next.delays == delays + ([delay] + next.delays);
  }

  // ---- what the loop promises ----

  /** The operation runs at most maxRetries + 1 times in all, and at least
      once exactly when maxRetries is not negative; no delay follows the
      final attempt. */
  lemma {:induction false} CallsBounded(maxRetries: int, fn: nat -> Option<string>, cancelled: nat -> bool,
                                        jitter: nat -> int, ctxErr: string, k: nat)
    ensures var t := Run(maxRetries, fn, cancelled, jitter, ctxErr, k);
      && (t.calls >= 1 <==> k <= maxRetries)
      && (k <= maxRetries ==> t.calls <= maxRetries - k + 1 && |t.delays| <= maxRetries - k)
      && (k > maxRetries ==> t.err.None? && t.delays == [])
    decreases maxRetries - k
  {
    if k <= maxRetries && fn(k).Some? && k < maxRetries && !cancelled(k) {
      CallsBounded(maxRetries, fn, cancelled, jitter, ctxErr, k + 1);
    }
  }

  /** The first successful call ends the run with no error: if attempts
      k..s-1 fail without cancellation and attempt s succeeds, exactly
      s - k + 1 calls are made. */
  lemma {:induction false} FirstSuccessStops(maxRetries: int, fn: nat -> Option<string>, cancelled: nat -> bool,
                                             jitter: nat -> int, ctxErr: string, k: nat, s: nat)
    requires k <= s <= maxRetries
    requires forall j :: k <= j < s ==> fn(j).Some? && !cancelled(j)
    requires fn(s).None?
    ensures var t := Run(maxRetries, fn, cancelled, jitter, ctxErr, k);
      t.err.None? && t.calls == s - k + 1
    decreases s - k
  {
    if k < s {
      FirstSuccessStops(maxRetries, fn, cancelled, jitter, ctxErr, k + 1, s);
    }
  }

  /** With maxRetries == 0 the operation is called exactly once and its
      error, if any, is returned, with no delay. */
  lemma NoRetriesCallsOnce(fn: nat -> Option<string>, cancelled: nat -> bool, jitter: nat -> int, ctxErr: string)
    ensures Run(0, fn, cancelled, jitter, ctxErr, 0) == Trace(fn(0), 1, [])
  {
  }

  /** When every attempt fails and nothing is cancelled, the last attempt's
      error is returned after maxRetries + 1 calls. */
  lemma {:induction false} ExhaustionReturnsLastError(maxRetries: int, fn: nat -> Option<string>, cancelled: nat -> bool,
                                                      jitter: nat -> int, ctxErr: string, k: nat)
    requires k <= maxRetries
    requires forall j :: k <= j <= maxRetries ==> fn(j).Some?
    requires forall j :: k <= j < maxRetries ==> !cancelled(j)
    ensures var t := Run(maxRetries, fn, cancelled, jitter, ctxErr, k);
      t.err == fn(maxRetries) && t.calls == maxRetries - k + 1
    decreases maxRetries - k
  {
    if k < maxRetries {
      ExhaustionReturnsLastError(maxRetries, fn, cancelled, jitter, ctxErr, k + 1);
    }
  }

  /** Cancellation during the delay after failed attempt c returns ctx.Err()
      and the operation is not called again. */
  lemma {:induction false} CancellationStops(maxRetries: int, fn: nat -> Option<string>, cancelled: nat -> bool,
                                             jitter: nat -> int, ctxErr: string, k: nat, c: nat)
    requires k <= c < maxRetries
    requires forall j :: k <= j <= c ==> fn(j).Some?
    requires forall j :: k <= j < c ==> !cancelled(j)
    requires cancelled(c)
    ensures var t := Run(maxRetries, fn, cancelled, jitter, ctxErr, k);
      t.err == Some(ctxErr) && t.calls == c - k + 1
    decreases c - k
  {
    if k < c {
      CancellationStops(maxRetries, fn, cancelled, jitter, ctxErr, k + 1, c);
    }
  }

  /** The i-th delay (counting from attempt k) is 2^(k+i) seconds plus that
      attempt's jitter, so with jitter in [0, 1 s) it lies in
      [2^(k+i) s, 2^(k+i) s + 1 s). One delay separates consecutive calls;
      a cancelled run also counts the delay it was cut short in. */
  lemma {:induction false} DelaysDoubling(maxRetries: int, fn: nat -> Option<string>, cancelled: nat -> bool,
                                          jitter: nat -> int, ctxErr: string, k: nat)
    requires k <= maxRetries
    requires forall j :: 0 <= jitter(j) < Second
    ensures var t := Run(maxRetries, fn, cancelled, jitter, ctxErr, k);
      (forall i :: 0 <= i < |t.delays| ==>
         t.delays[i] == Delay(k + i, jitter(k + i))
         && Pow2(k + i) * Second <= t.delays[i] < Pow2(k + i) * Second + Second)
      && (|t.delays| == t.calls - 1 || (t.err == Some(ctxErr) && |t.delays| == t.calls))
    decreases maxRetries - k
  {
    if fn(k).Some? && k < maxRetries && !cancelled(k) {
      DelaysDoubling(maxRetries, fn, cancelled, jitter, ctxErr, k + 1);
      var rest := Run(maxRetries, fn, cancelled, jitter, ctxErr, k + 1);
      var t := Run(maxRetries, fn, cancelled, jitter, ctxErr, k);
      forall i | 0 < i < |t.delays|
        ensures t.delays[i] == Delay(k + i, jitter(k + i))
      {
        assert t.delays[i] == rest.delays[i - 1];
        assert k + 1 + (i - 1) == k + i;
      }
    }
  }

  /** What WithBackoff returns for an operation whose every call gives `e`
      when the context is never cancelled: `e`, except that a negative
      maxRetries runs no attempt and returns nil. */
  function ConstantResult(maxRetries: int, e: Option<string>): Option<string> {
    if maxRetries < 0 then None else e
  }

  /** A deterministic operation (every call gives `e`) is tried once if it
      succeeds and maxRetries + 1 times if it fails, and `e` is returned;
      with a negative maxRetries it is never tried and nil is returned.
      This is the form in which the transfer engines use WithBackoff. */
  lemma {:induction false} ConstantOutcome(maxRetries: int, e: Option<string>, cancelled: nat -> bool,
                                           jitter: nat -> int, ctxErr: string, k: nat)
    requires k == 0 || k <= maxRetries
    requires forall j :: !cancelled(j)
    ensures var t := Run(maxRetries, _ => e, cancelled, jitter, ctxErr, k);
      && t.err == ConstantResult(maxRetries, e)
      && t.calls == (if maxRetries < 0 then 0 else if e.None? then 1 else maxRetries - k + 1)
    decreases maxRetries - k
  {
    if e.Some? && k < maxRetries {
      ConstantOutcome(maxRetries, e, cancelled, jitter, ctxErr, k + 1);
    }
  }

  // ---- a negative maxRetries ----

  /** As written, a negative maxRetries skips the loop: the operation is
      never called and nil (success) is returned, whatever it would have
      answered. */
  lemma NegativeRetriesNeverCall(maxRetries: int, fn: nat -> Option<string>, cancelled: nat -> bool,
                                 jitter: nat -> int, ctxErr: string)
    requires maxRetries < 0
    ensures Run(maxRetries, fn, cancelled, jitter, ctxErr, 0) == Trace(None, 0, [])
  {
  }

  /** A failing operation under retry.WithBackoff(ctx, -1, fn): reported as
      a success without a single call. */
  lemma FailureReportedAsSuccess()
    ensures var t := Run(-1, _ => Some("connection refused"), _ => false, _ => 0, "", 0);
      t.err.None? && t.calls == 0
  {
  }

  /** maxRetries as the doc comment reads it: the number of retries after
      the first call, so a negative count means no retries. */
  function Retries(maxRetries: int): nat {
    if maxRetries < 0 then 0 else maxRetries
  }

  /** The loop with maxRetries clamped at zero: the operation is always
      tried at least once. */
  function RunClamped(maxRetries: int, fn: nat -> Option<string>, cancelled: nat -> bool,
                      jitter: nat -> int, ctxErr: string): (t: Trace)
    ensures 1 <= t.calls <= Retries(maxRetries) + 1
    ensures fn(0).Some? && t.err.None? ==> t.calls >= 2
  {
    CallsBounded(Retries(maxRetries), fn, cancelled, jitter, ctxErr, 0);
    Run(Retries(maxRetries), fn, cancelled, jitter, ctxErr, 0)
  }

  /** The clamp changes nothing for a count that is not negative, and for a
      negative one it runs the operation exactly once, returning its error. */
  lemma ClampedAgrees(maxRetries: int, fn: nat -> Option<string>, cancelled: nat -> bool,
                      jitter: nat -> int, ctxErr: string)
    ensures maxRetries >= 0 ==>
      RunClamped(maxRetries, fn, cancelled, jitter, ctxErr) == Run(maxRetries, fn, cancelled, jitter, ctxErr, 0)
    ensures maxRetries < 0 ==> RunClamped(maxRetries, fn, cancelled, jitter, ctxErr) == Trace(fn(0), 1, [])
  {
  }
}
