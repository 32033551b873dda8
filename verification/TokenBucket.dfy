/**
 The arithmetic shared by both rate limiters: a bucket of at most `capacity` tokens, refilled at
 `rate` tokens per second and capped, from which a request takes one token when there is one.
 */
module TokenBucket {

  datatype Config = Config(capacity: nat, rate: real)

  /** The tokens in a bucket that held `tokens` tokens `elapsed` seconds ago. */
  function Refill(c: Config, tokens: real, elapsed: real): (r: real)
    ensures r <= c.capacity as real
    ensures r <= tokens + elapsed * c.rate
    ensures r == c.capacity as real || r == tokens + elapsed * c.rate
  {
    var filled := tokens + elapsed * c.rate;
    if filled > c.capacity as real then c.capacity as real else filled
  }

  predicate CanSpend(tokens: real) {
    tokens >= 1.0
  }

  /** What a request leaves in a bucket that holds `tokens` tokens. */
  function Spend(tokens: real): real {
    if CanSpend(tokens) then tokens - 1.0 else tokens
  }

  lemma ProductMonotone(x: real, y: real, rate: real)
    requires x <= y && rate >= 0.0
    ensures x * rate <= y * rate
  {
    assert y * rate - x * rate == (y - x) * rate;
  }

  lemma RefillNonNegative(c: Config, tokens: real, elapsed: real)
    requires c.rate >= 0.0 && tokens >= 0.0 && elapsed >= 0.0
    ensures Refill(c, tokens, elapsed) >= 0.0
  {
    ProductMonotone(0.0, elapsed, c.rate);
    assert 0.0 * c.rate == 0.0;
  }

  /** A bucket that has had time to fill up is indistinguishable from a new one. */
  lemma RefillSaturates(c: Config, tokens: real, elapsed: real, longer: real)
    requires c.rate >= 0.0 && elapsed <= longer
    requires tokens + elapsed * c.rate >= c.capacity as real
    ensures Refill(c, tokens, longer) == c.capacity as real
  {
    ProductMonotone(elapsed, longer, c.rate);
  }
}
