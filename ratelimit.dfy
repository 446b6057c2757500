/** internal/ratelimit/ratelimit.go: a token bucket shared by readers. The
    clock, the tokens credited for the elapsed time (computed in floating
    point by the source) and the clock after a sleep are inputs. */
module RateLimit {
  import opened Wrappers
  import opened Bytes

  /** The largest read Reader.Read passes on: 64 KiB. */
  const MaxChunk := 64 * 1024

  /** The bucket after one wait: `available` tokens and the `deficit` the
      caller sleeps for (rate tokens per second), 0 when it does not sleep. */
  datatype Debit = Debit(available: int, deficit: int)

  /** The balance after the refill, capped at one second's worth. */
  function Refilled(available: int, rate: int, refill: int): (b: int)
    ensures b <= rate
    ensures available + refill <= rate ==> b == available + refill
  {
    if available + refill > rate then rate else available + refill
  }

  /** wait(n)'s accounting: refill and cap, debit n; a negative balance is
      a deficit to sleep off, after which the bucket is empty. */
  function Take(available: int, rate: int, refill: int, n: int): (d: Debit)
    ensures d.available >= 0 && d.deficit >= 0
    ensures d.deficit == 0 <==> Refilled(available, rate, refill) >= n
    // what a wait spends beyond the balance is exactly the deficit slept off
    ensures d.available - d.deficit == Refilled(available, rate, refill) - n
    // the bucket never holds more than one second of tokens
    ensures n >= 0 && rate >= 0 ==> d.available <= rate
  {
    var left := Refilled(available, rate, refill) - n;
    if left >= 0 then Debit(left, 0) else Debit(0, -left)
  }

  class Limiter {
    var rate: int
    var available: int
    var last: int

    /** NewLimiter: a full bucket. */
    constructor (bytesPerSec: int, now: int)
      ensures rate == bytesPerSec && available == bytesPerSec && last == now
    {
      rate, available, last := bytesPerSec, bytesPerSec, now;
    }

    /** wait(n): `refill` stands for int64(elapsed.Seconds() * rate) at
        `now`, and `wokeAt` for the clock after the sleep. The deficit is
        returned; the source sleeps deficit/rate seconds. */
    method Wait(n: int, now: int, refill: int, wokeAt: int) returns (deficit: int)
      modifies this`available, this`last
      ensures Debit(available, deficit) == Take(old(available), rate, refill, n)
      ensures last == if deficit == 0 then now else wokeAt
    {
      last := now;
      available := available + refill;
      if available > rate {
        available := rate;
      }
      available := available - n;
      if available >= 0 {
        return 0;
      }
      deficit := -available;
      last := wokeAt;
      available := 0;
    }
  }

  /** The wrapped reader, as a bytes.Reader over `data`; `requests` records
      the buffer length of each call it receives. */
  class Source {
    var data: Bytes
    ghost var requests: seq<nat>

    constructor (data0: Bytes)
      ensures data == data0 && requests == []
    {
      data, requests := data0, [];
    }

    /** Up to `len` bytes from the front; io.EOF once nothing is left. */
    method Read(len: nat) returns (chunk: Bytes, eof: bool)
      modifies this`data, this`requests
      ensures requests == old(requests) + [len]
      ensures eof <==> old(data) == []
      ensures chunk + data == old(data)
      ensures |chunk| == if len < |old(data)| then len else |old(data)|
    {
      requests := requests + [len];
      if data == [] {
        return [], true;
      }
      var k := if len < |data| then len else |data|;
      chunk, eof := data[..k], false;
      data := data[k..];
    }
  }

  class Reader {
    const src: Source
    const limiter: Limiter

    constructor (src0: Source, limiter0: Limiter)
      ensures src == src0 && limiter == limiter0
    {
      src, limiter := src0, limiter0;
    }

    /** Read into a buffer of `len` bytes: the inner read gets at most
        MaxChunk of it, its bytes and EOF pass through unchanged, and tokens
        are taken only for a read that returned bytes. */
    method Read(len: nat, now: int, refill: int, wokeAt: int) returns (chunk: Bytes, eof: bool)
      requires src != limiter as object
      modifies src`data, src`requests, limiter`available, limiter`last
      ensures src.requests == old(src.requests) + [if len > MaxChunk then MaxChunk else len]
      ensures chunk + src.data == old(src.data) && (eof <==> old(src.data) == [])
      ensures |chunk| <= MaxChunk
      ensures chunk != [] ==>
        limiter.available == Take(old(limiter.available), limiter.rate, refill, |chunk|).available
      ensures chunk == [] ==> limiter.available == old(limiter.available) && limiter.last == old(limiter.last)
    {
      var p := len;
      if p > MaxChunk {
        p := MaxChunk;
      }
      chunk, eof := src.Read(p);
      if |chunk| > 0 {
        var _ := limiter.Wait(|chunk|, now, refill, wokeAt);
      }
    }
  }
}
