/** The environment of the remote refresh: the monotonic clock that
    `time.Now`, `time.Since`, `time.Until` and `time.Sleep` read and advance,
    and the cloud metadata service behind `getAwsTags`, reduced to the answer
    and the duration of each call. */
module Remote {
  import opened Types

  /** One second, in the nanoseconds that Go's time.Duration counts. */
  const Second: int := 1_000_000_000

  /** A call always takes some time: the clock has moved on when it returns. */
  type Span = n: int | n > 0 witness 1

  /** What one metadata call returns and how long it takes. */
  datatype Response = Response(result: Result<Tags>, took: Span)

  class Clock {
    /** Monotonic time in nanoseconds. */
    var now: int

    constructor (start: int)
      ensures now == start
    {
      now := start;
    }

    /** time.Sleep(d): a non-positive duration returns at once. */
    method Sleep(d: int)
      modifies this
      ensures now == old(now) + (if d > 0 then d else 0)
    {
      if d > 0 {
        now := now + d;
      }
    }
  }

  /** The metadata service: `answer(n, timeout)` is what the n-th call made
      with that timeout returns; `calls` counts the calls made so far. */
  class MetadataService {
    const answer: (nat, int) -> Response
    var calls: nat

    constructor (answer: (nat, int) -> Response)
      ensures this.answer == answer && calls == 0
    {
      this.answer := answer;
      calls := 0;
    }

    /** getAwsTags(timeout): one call, which advances the clock by its duration. */
    method Fetch(timeout: int, clock: Clock) returns (r: Result<Tags>)
      modifies this, clock
      ensures calls == old(calls) + 1
      ensures r == answer(old(calls), timeout).result
      ensures clock.now == old(clock.now) + answer(old(calls), timeout).took
    {
      var response := answer(calls, timeout);
      calls := calls + 1;
      clock.now := clock.now + response.took;
      r := response.result;
    }
  }
}
