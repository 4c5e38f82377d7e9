/**
 One token bucket: how much it allows in a span, how much it must have allowed before it
 refuses, and what its waiting time and the Retry-After header promise.
 Time and tokens are reals; the clock never goes back.
 */
module TokenBuckets {
  import opened Prelude

  datatype Rate = Rate(capacity: nat, refill: real)

  datatype Bucket = Bucket(tokens: real, updated: real)

  function Full(rate: Rate, now: real): Bucket {
    Bucket(rate.capacity as real, now)
  }

  /** Tokens that flow in from a to b. */
  function Gain(rate: Rate, a: real, b: real): real {
    (b - a) * rate.refill
  }

  /** Tokens at time now, before the call takes one. */
  function Refilled(b: Bucket, rate: Rate, now: real): real {
    Min(rate.capacity as real, b.tokens + Gain(rate, b.updated, now))
  }

  function Try(b: Bucket, rate: Rate, now: real): (Bucket, bool) {
    var tokens := Refilled(b, rate, now);
    if tokens >= 1.0 then (Bucket(tokens - 1.0, now), true) else (Bucket(tokens, now), false)
  }

  function SecondsUntilToken(b: Bucket, rate: Rate): real {
    if b.tokens >= 1.0 || rate.refill <= 0.0 then 0.0 else (1.0 - b.tokens) / rate.refill
  }

  class TokenBucket {
    const rate: Rate
    var tokens: real
    var updated: real

    ghost function View(): Bucket
      reads this
    {
      Bucket(tokens, updated)
    }

    constructor (rate: Rate, now: real)
      ensures this.rate == rate && View() == Full(rate, now)
    {
      this.rate := rate;
      tokens := rate.capacity as real;
      updated := now;
    }

    method TryAcquire(now: real) returns (allowed: bool)
      modifies this
      ensures (View(), allowed) == Try(old(View()), rate, now)
    {
      var refilled := tokens + Gain(rate, updated, now);
      tokens := if refilled <= rate.capacity as real then refilled else rate.capacity as real;
      updated := now;
      if tokens >= 1.0 {
        tokens := tokens - 1.0;
        return true;
      }
      return false;
    }

    method Wait() returns (seconds: real)
      ensures seconds == SecondsUntilToken(View(), rate)
    {
      if tokens >= 1.0 || rate.refill <= 0.0 { return 0.0; }
      return (1.0 - tokens) / rate.refill;
    }
  }

  // ----- runs of calls -----

  datatype Tally = Tally(bucket: Bucket, allowed: nat)

  function Calls(b: Bucket, rate: Rate, times: seq<real>): Tally {
    if times == [] then Tally(b, 0)
    else
      var before := Calls(b, rate, times[..|times| - 1]);
      var (after, ok) := Try(before.bucket, rate, times[|times| - 1]);
      Tally(after, before.allowed + (if ok then 1 else 0))
  }

  predicate Ascending(from: real, times: seq<real>) {
    && (forall i :: 0 <= i < |times| ==> from <= times[i])
    && (forall i, j :: 0 <= i < j < |times| ==> times[i] <= times[j])
  }

  predicate InRange(b: Bucket, rate: Rate) {
    0.0 <= b.tokens <= rate.capacity as real
  }

  lemma GainNonNegative(rate: Rate, a: real, b: real)
    requires rate.refill >= 0.0 && a <= b
    ensures Gain(rate, a, b) >= 0.0
  {
  }

  lemma GainAdds(rate: Rate, a: real, b: real, c: real)
    ensures Gain(rate, a, b) + Gain(rate, b, c) == Gain(rate, a, c)
  {
  }

  lemma NoGain(rate: Rate, a: real)
    ensures Gain(rate, a, a) == 0.0
  {
  }

  lemma TryInRange(b: Bucket, rate: Rate, now: real)
    requires rate.refill >= 0.0 && InRange(b, rate) && b.updated <= now
    ensures InRange(Try(b, rate, now).0, rate)
  {
    GainNonNegative(rate, b.updated, now);
  }

  lemma AscendingFront(from: real, times: seq<real>)
    requires Ascending(from, times) && times != []
    ensures Ascending(from, times[..|times| - 1])
    ensures from <= times[|times| - 1]
  {
  }

  lemma {:induction false} UpdatedLast(b: Bucket, rate: Rate, times: seq<real>)
    ensures Calls(b, rate, times).bucket.updated == if times == [] then b.updated else times[|times| - 1]
  {
  }

  /** Tokens stay between zero and the capacity. */
  lemma {:induction false} TokensInRange(b: Bucket, rate: Rate, times: seq<real>)
    requires rate.refill >= 0.0 && InRange(b, rate) && Ascending(b.updated, times)
    ensures InRange(Calls(b, rate, times).bucket, rate)
    ensures Calls(b, rate, times).bucket.updated == if times == [] then b.updated else times[|times| - 1]
  {
    if times != [] {
      var n := |times| - 1;
      AscendingFront(b.updated, times);
      TokensInRange(b, rate, times[..n]);
      TryInRange(Calls(b, rate, times[..n]).bucket, rate, times[n]);
    }
  }

  /** What a run allowed plus what is left never exceeds a full bucket and the refill since its first call. */
  lemma {:induction false} AllowedSinceFirst(b: Bucket, rate: Rate, times: seq<real>)
    requires times != []
    ensures var t := Calls(b, rate, times);
            t.bucket.tokens + t.allowed as real
              <= rate.capacity as real + Gain(rate, times[0], times[|times| - 1])
  {
    var n := |times| - 1;
    if n == 0 {
      assert times[..0] == [];
      NoGain(rate, times[0]);
    } else {
      var front := times[..n];
      AllowedSinceFirst(b, rate, front);
      UpdatedLast(b, rate, front);
      GainAdds(rate, times[0], times[n - 1], times[n]);
    }
  }

  /** Over any span from s to t a bucket allows at most its capacity plus the refill of the span. */
  lemma AllowedInSpan(b: Bucket, rate: Rate, times: seq<real>, s: real, t: real)
    requires rate.refill >= 0.0 && InRange(b, rate) && b.updated <= s <= t
    requires Ascending(s, times) && forall i :: 0 <= i < |times| ==> times[i] <= t
    ensures Calls(b, rate, times).allowed as real <= rate.capacity as real + Gain(rate, s, t)
  {
    GainNonNegative(rate, s, t);
    if times != [] {
      var n := |times| - 1;
      AllowedSinceFirst(b, rate, times);
      TokensInRange(b, rate, times);
      GainNonNegative(rate, s, times[0]);
      GainNonNegative(rate, times[n], t);
      GainAdds(rate, s, times[0], times[n]);
      GainAdds(rate, s, times[n], t);
    }
  }

  // ----- since the bucket was last full -----

  /** When the bucket was last full at a call, and the calls allowed from then on. */
  datatype Since = Since(full: real, allowed: nat)

  function SinceFull(rate: Rate, start: real, times: seq<real>): Since {
    if times == [] then Since(start, 0)
    else
      var n := |times| - 1;
      var before, b := SinceFull(rate, start, times[..n]), Calls(Full(rate, start), rate, times[..n]).bucket;
      var one := if Try(b, rate, times[n]).1 then 1 else 0;
      if Refilled(b, rate, times[n]) == rate.capacity as real then Since(times[n], one)
      else Since(before.full, before.allowed + one)
  }

  /** Since it was last full the bucket has lost exactly what it allowed and gained every refill. */
  lemma {:induction false} ExactSinceFull(rate: Rate, start: real, times: seq<real>)
    ensures var b, since := Calls(Full(rate, start), rate, times).bucket, SinceFull(rate, start, times);
            b.tokens == rate.capacity as real + Gain(rate, since.full, b.updated) - since.allowed as real
  {
    if times == [] {
      NoGain(rate, start);
    } else {
      var n := |times| - 1;
      ExactSinceFull(rate, start, times[..n]);
      var b, since := Calls(Full(rate, start), rate, times[..n]).bucket, SinceFull(rate, start, times[..n]);
      GainAdds(rate, since.full, b.updated, times[n]);
      NoGain(rate, times[n]);
    }
  }

  /** A refusal is earned: more than capacity - 1 plus the refill since the bucket was last full
      were allowed since then. */
  lemma RefusalIsEarned(rate: Rate, start: real, times: seq<real>, now: real)
    requires !Try(Calls(Full(rate, start), rate, times).bucket, rate, now).1
    ensures var since := SinceFull(rate, start, times + [now]);
            since.allowed as real > rate.capacity as real - 1.0 + Gain(rate, since.full, now)
  {
    assert (times + [now])[..|times|] == times;
    ExactSinceFull(rate, start, times + [now]);
  }

  // ----- waiting -----

  lemma DivisionBound(x: real, y: real, d: real)
    requires y > 0.0
    ensures d >= x / y <==> d * y >= x
  {
    var q := x / y;
    assert q * y == x;
    if d >= q {
      NonNegative(y, d - q);
      assert (d - q) * y == d * y - q * y;
    } else {
      Positive(y, q - d);
      assert (q - d) * y == q * y - d * y;
    }
  }

  lemma NonNegative(a: real, b: real)
    requires a >= 0.0 && b >= 0.0
    ensures b * a >= 0.0
  {
  }

  lemma Positive(a: real, b: real)
    requires a > 0.0 && b > 0.0
    ensures b * a > 0.0
  {
  }

  /** After a refusal the next call d later succeeds exactly when d reaches the waiting time. */
  lemma WaitIsExact(b: Bucket, rate: Rate, d: real)
    requires rate.refill > 0.0 && rate.capacity >= 1 && b.tokens < 1.0 && d >= 0.0
    ensures Try(b, rate, b.updated + d).1 <==> d >= SecondsUntilToken(b, rate)
  {
    DivisionBound(1.0 - b.tokens, rate.refill, d);
    assert Gain(rate, b.updated, b.updated + d) == d * rate.refill by {
      assert b.updated + d - b.updated == d;
    }
  }

  /** The same from the refused call on. */
  lemma RetryIsExact(b: Bucket, rate: Rate, now: real, d: real)
    requires rate.refill > 0.0 && rate.capacity >= 1 && d >= 0.0 && !Try(b, rate, now).1
    ensures var refused := Try(b, rate, now).0;
            Try(refused, rate, now + d).1 <==> d >= SecondsUntilToken(refused, rate)
  {
    WaitIsExact(Try(b, rate, now).0, rate, d);
  }

  /** The moment the next token is due. */
  function Due(b: Bucket, rate: Rate): real {
    b.updated + SecondsUntilToken(b, rate)
  }

  /** A refused call leaves the moment where it was. */
  lemma RefusalKeepsDue(b: Bucket, rate: Rate, now: real)
    requires rate.refill > 0.0 && rate.capacity >= 1 && b.tokens < 1.0 && b.updated <= now < Due(b, rate)
    ensures var (after, ok) := Try(b, rate, now);
            !ok && after.tokens < 1.0 && Due(after, rate) == Due(b, rate)
  {
    WaitIsExact(b, rate, now - b.updated);
    var r, x, d := rate.refill, 1.0 - b.tokens, now - b.updated;
    assert Try(b, rate, now).0 == Bucket(b.tokens + d * r, now);
    assert (x - d * r) / r == x / r - d by {
      var q := x / r;
      assert q * r == x;
      assert (q - d) * r == x - d * r;
    }
  }

  /** However often a refused client asks again before the moment, it is refused each time and
      the moment stays; the first call at or after it is allowed. */
  lemma {:induction false} PollingDoesNotDelay(b: Bucket, rate: Rate, polls: seq<real>, now: real)
    requires rate.refill > 0.0 && rate.capacity >= 1 && b.tokens < 1.0
    requires Ascending(b.updated, polls) && forall i :: 0 <= i < |polls| ==> polls[i] < Due(b, rate)
    requires now >= Due(b, rate)
    ensures Calls(b, rate, polls).allowed == 0
    ensures Calls(b, rate, polls).bucket.tokens < 1.0 && Due(Calls(b, rate, polls).bucket, rate) == Due(b, rate)
    ensures Try(Calls(b, rate, polls).bucket, rate, now).1
  {
    if polls == [] {
    } else {
      var n := |polls| - 1;
      AscendingFront(b.updated, polls);
      PollingDoesNotDelay(b, rate, polls[..n], now);
      UpdatedLast(b, rate, polls[..n]);
      RefusalKeepsDue(Calls(b, rate, polls[..n]).bucket, rate, polls[n]);
    }
    var last := Calls(b, rate, polls).bucket;
    WaitNonNegative(last, rate);
    WaitIsExact(last, rate, now - last.updated);
  }

  lemma WaitNonNegative(b: Bucket, rate: Rate)
    requires rate.refill > 0.0 && b.tokens < 1.0
    ensures SecondsUntilToken(b, rate) >= 0.0
  {
    DivisionBound(1.0 - b.tokens, rate.refill, 0.0);
    assert 0.0 * rate.refill == 0.0;
  }

  /** There is no wait exactly if there is a token, or if none will ever come. */
  lemma NoWaitExactly(b: Bucket, rate: Rate)
    ensures SecondsUntilToken(b, rate) >= 0.0
    ensures SecondsUntilToken(b, rate) == 0.0 <==> b.tokens >= 1.0 || rate.refill <= 0.0
  {
    if b.tokens < 1.0 && rate.refill > 0.0 {
      WaitNonNegative(b, rate);
      assert SecondsUntilToken(b, rate) * rate.refill == 1.0 - b.tokens;
    }
  }

  // ----- the Retry-After header -----

  function RetryAfter(seconds: real): int {
    var rounded := (seconds + 0.999).Floor;
    if rounded > 1 then rounded else 1
  }

  /** The header is at least one, short of the wait by less than a millisecond, and the smallest such
      number of seconds. */
  lemma RetryAfterExactly(seconds: real, header: int)
    ensures header == RetryAfter(seconds)
       <==> header >= 1 && header as real > seconds - 0.001
            && (header == 1 || (header - 1) as real <= seconds - 0.001)
  {
    var rounded := (seconds + 0.999).Floor;
    assert rounded as real <= seconds + 0.999 < (rounded + 1) as real;
  }

  /** The header falls short by less than a millisecond and is over by less than a second. */
  lemma RetryAfterIsClose(seconds: real)
    requires seconds >= 0.0
    ensures seconds - RetryAfter(seconds) as real < 0.001
    ensures seconds >= 1.0 ==> RetryAfter(seconds) as real - seconds < 1.0
  {
  }

  lemma RetryAfterReaches(seconds: real)
    requires seconds >= 0.0
    ensures RetryAfter(seconds) as real >= seconds
       <==> seconds <= 1.0 || seconds == seconds.Floor as real || seconds - seconds.Floor as real >= 0.001
  {
    var n := seconds.Floor;
    if seconds - n as real >= 0.001 {
      assert (seconds + 0.999).Floor == n + 1;
    } else {
      assert (seconds + 0.999).Floor == n;
    }
  }

  /** A client that waits as long as the header says is served exactly when the wait is at most
      a second, a whole number, or at least a millisecond past one. */
  lemma RetryAfterSufficesExactly(b: Bucket, rate: Rate)
    requires rate.refill > 0.0 && rate.capacity >= 1 && b.tokens < 1.0
    ensures var wait := SecondsUntilToken(b, rate);
            Try(b, rate, b.updated + RetryAfter(wait) as real).1
            <==> wait <= 1.0 || wait == wait.Floor as real || wait - wait.Floor as real >= 0.001
  {
    var wait := SecondsUntilToken(b, rate);
    var header := RetryAfter(wait) as real;
    WaitNonNegative(b, rate);
    RetryAfterReaches(wait);
    WaitIsExact(b, rate, header);
  }

  /** The shortfall is real: half a millisecond past two seconds. */
  lemma RetryAfterCanFallShort()
    ensures RetryAfter(2.0005) == 2
  {
    assert (2.0005 + 0.999).Floor == 2;
  }
}
