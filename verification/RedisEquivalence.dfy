/**
 The Redis script against the ideal limiter that never forgets a key, on a shared clock. The script expires keys
 after the whole seconds of the TTL, and at the earliest a millisecond later: expiry cannot be observed exactly
 when a full refill takes no longer than that. Under both conditions the two limiters decide every request alike.
 */
module RedisEquivalence {
  import opened Wrappers
  import opened TokenBucket
  import opened LimiterEquivalence
  import M = MemoryLimiter
  import R = RedisLimiter

  ghost predicate SharedClock(trace: seq<R.Event>) {
    && (forall i :: 0 <= i < |trace| ==> trace[i].serverMs == trace[i].nowMs)
    && (forall i, j :: 0 <= i < j < |trace| ==> trace[i].nowMs <= trace[j].nowMs)
  }

  ghost function RedisRequests(trace: seq<R.Event>): seq<Request> {
    seq(|trace|, i requires 0 <= i < |trace| => Request(trace[i].key, R.Seconds(trace[i].nowMs)))
  }

  /** The first millisecond at which a key written at millisecond 0 has expired. */
  function FirstExpired(ttlSeconds: int): int {
    1000 * ttlSeconds + 1
  }

  /** A bucket emptied as its key is written is full again when the key expires. */
  ghost predicate ExpiryCoversRefill(c: Config, ttlSeconds: int) {
    FirstExpired(ttlSeconds) as real * c.rate >= 1000.0 * c.capacity as real
  }

  /** No trace of the script shows that keys expire. */
  ghost predicate ExpiryUnobservable(c: Config, ttlSeconds: int) {
    forall states: seq<R.Cells>, trace: seq<R.Event>, i: nat ::
      R.IsRun(c, ttlSeconds, states, trace) && SharedClock(trace) && states[0] == map[] && i < |trace| ==>
        trace[i].admitted == IdealDecision(c, RedisRequests(trace), i)
  }

  // ----- The condition is enough -----

  /** The store holds the ideal levels, some of them past their expiry. */
  ghost predicate HoldsLevels(ttlSeconds: int, ideal: Levels, m: R.Cells, nowMs: int) {
    && m.Keys == ideal.Keys
    && forall k :: k in m ==>
         && ideal[k] == Level(m[k].tokens, R.Seconds(m[k].lastRefillMs))
         && m[k].tokens >= 0.0 && m[k].lastRefillMs <= nowMs
         && m[k].expiresAt == m[k].lastRefillMs + ttlSeconds * 1000
  }

  lemma RedisStepHoldsLevels(c: Config, ttlSeconds: int, ideal: Levels, m: R.Cells, beforeMs: int, e: R.Event,
    m': R.Cells)
    requires c.rate >= 0.0 && ttlSeconds > 0 && ExpiryCoversRefill(c, ttlSeconds)
    requires R.Step(c, ttlSeconds, m, e, m') && e.serverMs == e.nowMs && beforeMs <= e.nowMs
    requires HoldsLevels(ttlSeconds, ideal, m, beforeMs)
    ensures var available := IdealAvailable(c, ideal, Request(e.key, R.Seconds(e.nowMs)));
      && e.admitted == CanSpend(available)
      && HoldsLevels(ttlSeconds, ideal[e.key := Level(Spend(available), R.Seconds(e.nowMs))], m', e.nowMs)
  {
    assert IdealAvailable(c, ideal, Request(e.key, R.Seconds(e.nowMs)))
        == R.Available(c, R.Live(R.Lookup(m, e.key), e.serverMs), e.nowMs) >= 0.0 by {
      if e.key in m {
        CellAvailable(c, ttlSeconds, m[e.key], e.nowMs);
      }
    }
    hide IdealAvailable, R.Available, R.Live, R.Seconds;
  }

  /** An expired cell would have been full: the script sees what the ideal limiter sees. */
  lemma CellAvailable(c: Config, ttlSeconds: int, cell: R.Cell, nowMs: int)
    requires c.rate >= 0.0 && ttlSeconds > 0 && ExpiryCoversRefill(c, ttlSeconds)
    requires cell.tokens >= 0.0 && cell.lastRefillMs <= nowMs
    requires cell.expiresAt == cell.lastRefillMs + ttlSeconds * 1000
    ensures R.Available(c, R.Live(Some(cell), nowMs), nowMs)
            == Refill(c, cell.tokens, R.Seconds(nowMs) - R.Seconds(cell.lastRefillMs)) >= 0.0
  {
    var elapsedMs := nowMs - cell.lastRefillMs;
    var elapsed := R.Seconds(elapsedMs);
    assert R.Seconds(nowMs) - R.Seconds(cell.lastRefillMs) == elapsed;
    RefillNonNegative(c, cell.tokens, elapsed);
    if cell.expiresAt < nowMs {
      ExpiredIsFull(c, ttlSeconds, cell.tokens, elapsedMs);
    }
  }

  lemma ExpiredIsFull(c: Config, ttlSeconds: int, tokens: real, elapsedMs: int)
    requires c.rate >= 0.0 && tokens >= 0.0 && ExpiryCoversRefill(c, ttlSeconds)
    requires elapsedMs >= FirstExpired(ttlSeconds)
    ensures Refill(c, tokens, R.Seconds(elapsedMs)) == c.capacity as real
  {
    var first := R.Seconds(FirstExpired(ttlSeconds));
    InSeconds(c.rate, FirstExpired(ttlSeconds));
    assert first * c.rate >= c.capacity as real;
    RefillSaturates(c, tokens, first, R.Seconds(elapsedMs));
  }

  lemma InSeconds(rate: real, ms: int)
    ensures 1000.0 * (R.Seconds(ms) * rate) == ms as real * rate
  {
    assert 1000.0 * R.Seconds(ms) == ms as real;
  }

  lemma {:induction false} RedisHoldsLevels(c: Config, ttlSeconds: int, states: seq<R.Cells>, trace: seq<R.Event>,
    n: nat)
    requires c.rate >= 0.0 && ttlSeconds > 0 && ExpiryCoversRefill(c, ttlSeconds)
    requires R.IsRun(c, ttlSeconds, states, trace) && SharedClock(trace) && states[0] == map[] && 0 < n <= |trace|
    ensures HoldsLevels(ttlSeconds, IdealAfter(c, RedisRequests(trace), n), states[n], trace[n - 1].nowMs)
    ensures trace[n - 1].admitted == IdealDecision(c, RedisRequests(trace), n - 1)
  {
    hide R.Step, ExpiryCoversRefill;
    assert R.StepAt(c, ttlSeconds, states, trace, n - 1);
    var beforeMs := if n > 1 then trace[n - 2].nowMs else trace[0].nowMs;
    if n > 1 {
      RedisHoldsLevels(c, ttlSeconds, states, trace, n - 1);
    }
    RedisStepHoldsLevels(c, ttlSeconds, IdealAfter(c, RedisRequests(trace), n - 1), states[n - 1], beforeMs,
      trace[n - 1], states[n]);
  }

  lemma CoveredExpiryUnobservable(c: Config, ttlSeconds: int)
    requires c.rate >= 0.0 && ttlSeconds > 0 && ExpiryCoversRefill(c, ttlSeconds)
    ensures ExpiryUnobservable(c, ttlSeconds)
  {
    forall states: seq<R.Cells>, trace: seq<R.Event>, i: nat
      | R.IsRun(c, ttlSeconds, states, trace) && SharedClock(trace) && states[0] == map[] && i < |trace|
      ensures trace[i].admitted == IdealDecision(c, RedisRequests(trace), i)
    {
      RedisHoldsLevels(c, ttlSeconds, states, trace, i + 1);
    }
  }

  // ----- The condition is necessary -----

  /** A run so far, the cells it has led to, and the ideal levels after the same requests. */
  ghost predicate RunSoFar(
    c: Config, ttlSeconds: int, states: seq<R.Cells>, trace: seq<R.Event>, m: R.Cells, ideal: Levels, nowMs: int)
  {
    && R.IsRun(c, ttlSeconds, states, trace) && SharedClock(trace) && states[0] == map[]
    && states[|trace|] == m && IdealAfter(c, RedisRequests(trace), |trace|) == ideal
    && (trace != [] ==> trace[|trace| - 1].nowMs <= nowMs)
  }

  /** The tokens the script sees for a key. */
  ghost function Seen(c: Config, m: R.Cells, key: string, nowMs: int): real {
    R.Available(c, R.Live(R.Lookup(m, key), nowMs), nowMs)
  }

  ghost function Written(c: Config, ttlSeconds: int, m: R.Cells, key: string, nowMs: int): R.Cells {
    m[key := R.Cell(Spend(Seen(c, m, key, nowMs)), nowMs, nowMs + ttlSeconds * 1000)]
  }

  ghost function NextIdeal(c: Config, ideal: Levels, key: string, nowMs: int): Levels {
    ideal[key := Level(Spend(IdealAvailable(c, ideal, Request(key, R.Seconds(nowMs)))), R.Seconds(nowMs))]
  }

  /** One more request extends a run; what the script and the ideal limiter decide depends on what they see. */
  lemma Ask(c: Config, ttlSeconds: int, states: seq<R.Cells>, trace: seq<R.Event>, m: R.Cells, ideal: Levels,
            beforeMs: int, key: string, nowMs: int)
    returns (states': seq<R.Cells>, trace': seq<R.Event>)
    requires RunSoFar(c, ttlSeconds, states, trace, m, ideal, beforeMs) && beforeMs <= nowMs
    ensures trace' == trace + [R.Event(key, nowMs, nowMs, CanSpend(Seen(c, m, key, nowMs)))]
    ensures RunSoFar(c, ttlSeconds, states', trace', Written(c, ttlSeconds, m, key, nowMs),
      NextIdeal(c, ideal, key, nowMs), nowMs)
    ensures IdealDecision(c, RedisRequests(trace'), |trace|)
            == CanSpend(IdealAvailable(c, ideal, Request(key, R.Seconds(nowMs))))
  {
    var m' := Written(c, ttlSeconds, m, key, nowMs);
    var e := R.Event(key, nowMs, nowMs, CanSpend(Seen(c, m, key, nowMs)));
    assert R.Step(c, ttlSeconds, m, e, m');
    states', trace' := states + [m'], trace + [e];
    RedisRunAppend(c, ttlSeconds, states, trace, e, m');
    hide R.Step, R.IsRun, R.StepAt, IdealAvailable, Seen, Written;
    var r := Request(key, R.Seconds(nowMs));
    assert RedisRequests(trace') == RedisRequests(trace) + [r];
    IdealAfterPrefix(c, RedisRequests(trace), r, |trace|);
  }

  lemma RedisRunAppend(c: Config, ttlSeconds: int, states: seq<R.Cells>, trace: seq<R.Event>, e: R.Event, m': R.Cells)
    requires R.IsRun(c, ttlSeconds, states, trace) && R.Step(c, ttlSeconds, states[|trace|], e, m')
    ensures R.IsRun(c, ttlSeconds, states + [m'], trace + [e])
  {
    hide R.Step;
    var states', trace' := states + [m'], trace + [e];
    forall i: nat | i < |trace'|
      ensures R.StepAt(c, ttlSeconds, states', trace', i)
    {
      assert i < |trace| ==> R.StepAt(c, ttlSeconds, states, trace, i);
    }
  }

  /** When expiry cannot be observed, the ideal limiter decides as the script does. */
  lemma AskAlike(c: Config, ttlSeconds: int, states: seq<R.Cells>, trace: seq<R.Event>, m: R.Cells, ideal: Levels,
                 beforeMs: int, key: string, nowMs: int)
    returns (states': seq<R.Cells>, trace': seq<R.Event>)
    requires ExpiryUnobservable(c, ttlSeconds)
    requires RunSoFar(c, ttlSeconds, states, trace, m, ideal, beforeMs) && beforeMs <= nowMs
    ensures RunSoFar(c, ttlSeconds, states', trace', Written(c, ttlSeconds, m, key, nowMs),
      NextIdeal(c, ideal, key, nowMs), nowMs)
    ensures CanSpend(Seen(c, m, key, nowMs)) == CanSpend(IdealAvailable(c, ideal, Request(key, R.Seconds(nowMs))))
  {
    states', trace' := Ask(c, ttlSeconds, states, trace, m, ideal, beforeMs, key, nowMs);
    assert trace'[|trace|].admitted == IdealDecision(c, RedisRequests(trace'), |trace|);
  }

  ghost function CellsOf(ttlSeconds: int, key: string, tokens: real, nowMs: int): R.Cells {
    map[key := R.Cell(tokens, nowMs, nowMs + ttlSeconds * 1000)]
  }

  ghost function LevelsOf(key: string, level: real, nowMs: int): Levels {
    map[key := Level(level, R.Seconds(nowMs))]
  }

  /** A request at the instant of the last refill. */
  lemma AtOnce(c: Config, ttlSeconds: int, key: string, held: real, level: real, nowMs: int)
    requires ttlSeconds > 0 && held <= c.capacity as real && level <= c.capacity as real
    ensures Seen(c, CellsOf(ttlSeconds, key, held, nowMs), key, nowMs) == held
    ensures IdealAvailable(c, LevelsOf(key, level, nowMs), Request(key, R.Seconds(nowMs))) == level
    ensures Written(c, ttlSeconds, CellsOf(ttlSeconds, key, held, nowMs), key, nowMs)
            == CellsOf(ttlSeconds, key, Spend(held), nowMs)
    ensures NextIdeal(c, LevelsOf(key, level, nowMs), key, nowMs) == LevelsOf(key, Spend(level), nowMs)
  {
    RefillAtOnce(c, held, R.Seconds(nowMs));
    RefillAtOnce(c, level, R.Seconds(nowMs));
    assert R.Seconds(nowMs - nowMs) == R.Seconds(nowMs) - R.Seconds(nowMs);
  }

  /** A burst of `n` requests at one instant, all admitted by the script and then by the ideal limiter. */
  lemma {:induction false} Drained(c: Config, ttlSeconds: int, states: seq<R.Cells>, trace: seq<R.Event>,
                                   key: string, nowMs: int, n: nat, held: real, level: real)
    returns (states': seq<R.Cells>, trace': seq<R.Event>)
    requires ttlSeconds > 0 && ExpiryUnobservable(c, ttlSeconds)
    requires RunSoFar(c, ttlSeconds, states, trace, CellsOf(ttlSeconds, key, held, nowMs), LevelsOf(key, level, nowMs),
      nowMs)
    requires n as real <= held <= c.capacity as real && level <= c.capacity as real
    ensures RunSoFar(c, ttlSeconds, states', trace', CellsOf(ttlSeconds, key, held - n as real, nowMs),
                     LevelsOf(key, level - n as real, nowMs), nowMs)
    ensures n > 0 ==> level >= n as real
    decreases n
  {
    hide ExpiryUnobservable, RunSoFar;
    if n == 0 {
      return states, trace;
    }
    AtOnce(c, ttlSeconds, key, held, level, nowMs);
    states', trace' := AskAlike(c, ttlSeconds, states, trace, CellsOf(ttlSeconds, key, held, nowMs),
                                LevelsOf(key, level, nowMs), nowMs, key, nowMs);
    hide CellsOf, LevelsOf, Seen, IdealAvailable, Written, NextIdeal;
    states', trace' := Drained(c, ttlSeconds, states', trace', key, nowMs, n - 1, held - 1.0, level - 1.0);
  }

  /** The first request for a key, before and after its expiry. */
  lemma FirstRequest(c: Config, ttlSeconds: int, key: string, nowMs: int)
    ensures Seen(c, map[], key, nowMs) == IdealAvailable(c, map[], Request(key, R.Seconds(nowMs))) == c.capacity as real
    ensures Written(c, ttlSeconds, map[], key, nowMs) == CellsOf(ttlSeconds, key, Spend(c.capacity as real), nowMs)
    ensures NextIdeal(c, map[], key, nowMs) == LevelsOf(key, Spend(c.capacity as real), nowMs)
  {
  }

  lemma ExpiredRequest(c: Config, ttlSeconds: int, key: string)
    requires ttlSeconds > 0
    ensures var at, level := FirstExpired(ttlSeconds), Refill(c, 0.0, R.Seconds(FirstExpired(ttlSeconds)));
      && Seen(c, CellsOf(ttlSeconds, key, 0.0, 0), key, at) == c.capacity as real
      && IdealAvailable(c, LevelsOf(key, 0.0, 0), Request(key, R.Seconds(at))) == level
      && Written(c, ttlSeconds, CellsOf(ttlSeconds, key, 0.0, 0), key, at)
           == CellsOf(ttlSeconds, key, Spend(c.capacity as real), at)
      && NextIdeal(c, LevelsOf(key, 0.0, 0), key, at) == LevelsOf(key, Spend(level), at)
  {
    assert R.Seconds(FirstExpired(ttlSeconds)) - R.Seconds(0) == R.Seconds(FirstExpired(ttlSeconds));
  }

  /** A new bucket, drained at millisecond 0. */
  lemma DrainNew(c: Config, ttlSeconds: int) returns (states: seq<R.Cells>, trace: seq<R.Event>)
    requires ttlSeconds > 0 && c.capacity >= 1 && ExpiryUnobservable(c, ttlSeconds)
    ensures RunSoFar(c, ttlSeconds, states, trace, CellsOf(ttlSeconds, "k", 0.0, 0), LevelsOf("k", 0.0, 0), 0)
  {
    var n := c.capacity;
    assert RunSoFar(c, ttlSeconds, [map[]], [], map[], map[], 0);
    hide RunSoFar, ExpiryUnobservable, R.Seconds;
    FirstRequest(c, ttlSeconds, "k", 0);
    states, trace := AskAlike(c, ttlSeconds, [map[]], [], map[], map[], 0, "k", 0);
    hide Seen, Written, NextIdeal, IdealAvailable, CellsOf, LevelsOf;
    states, trace := Drained(c, ttlSeconds, states, trace, "k", 0, n - 1, n as real - 1.0, n as real - 1.0);
  }

  /** The first request for the drained key once it has expired: a new bucket again. */
  lemma AskExpired(c: Config, ttlSeconds: int, at: int, level: real) returns (states: seq<R.Cells>, trace: seq<R.Event>)
    requires ttlSeconds > 0 && c.capacity >= 1 && ExpiryUnobservable(c, ttlSeconds)
    requires at == FirstExpired(ttlSeconds) && level == Refill(c, 0.0, R.Seconds(at))
    ensures CanSpend(level)
    ensures RunSoFar(c, ttlSeconds, states, trace, CellsOf(ttlSeconds, "k", Spend(c.capacity as real), at),
      LevelsOf("k", Spend(level), at), at)
  {
    states, trace := DrainNew(c, ttlSeconds);
    ExpiredRequest(c, ttlSeconds, "k");
    assert at > 0 && CanSpend(c.capacity as real);
    hide *;
    states, trace :=
      AskAlike(c, ttlSeconds, states, trace, CellsOf(ttlSeconds, "k", 0.0, 0), LevelsOf("k", 0.0, 0), 0, "k", at);
  }

  /**
   Drain a key at millisecond 0 and again as soon as it has expired: the script admits both bursts, so the ideal
   level must have refilled in between.
   */
  lemma DrainTwiceInRedis(c: Config, ttlSeconds: int)
    requires ttlSeconds > 0 && c.capacity >= 1 && ExpiryUnobservable(c, ttlSeconds)
    ensures Refill(c, 0.0, R.Seconds(FirstExpired(ttlSeconds))) >= c.capacity as real
  {
    var at, n := FirstExpired(ttlSeconds), c.capacity;
    var level := Refill(c, 0.0, R.Seconds(at));
    assert level <= n as real;
    var states, trace := AskExpired(c, ttlSeconds, at, level);
    assert Spend(n as real) == n as real - 1.0 && Spend(level) == level - 1.0;
    hide *;
    states, trace := Drained(c, ttlSeconds, states, trace, "k", at, n - 1, n as real - 1.0, level - 1.0);
  }

  /**
   Expiry is unobservable exactly when a full refill takes no longer than the whole seconds of the TTL and a
   millisecond.
   */
  lemma ExpiryUnobservableIff(c: Config, ttlSeconds: int)
    requires c.rate >= 0.0 && ttlSeconds > 0
    ensures ExpiryUnobservable(c, ttlSeconds)
      <==> (1000 * ttlSeconds + 1) as real * c.rate >= 1000.0 * c.capacity as real
  {
    if ExpiryCoversRefill(c, ttlSeconds) {
      CoveredExpiryUnobservable(c, ttlSeconds);
    } else if ExpiryUnobservable(c, ttlSeconds) {
      var first := FirstExpired(ttlSeconds);
      if c.capacity >= 1 {
        DrainTwiceInRedis(c, ttlSeconds);
        InSeconds(c.rate, first);
      } else {
        ProductMonotone(0.0, first as real, c.rate);
      }
    }
  }

  /** Two requests at the instant of the last refill. */
  lemma AskTwice(c: Config, ttlSeconds: int, states: seq<R.Cells>, trace: seq<R.Event>, key: string, nowMs: int,
    held: real, level: real)
    returns (states': seq<R.Cells>, trace': seq<R.Event>)
    requires ttlSeconds > 0 && 2.0 <= held <= c.capacity as real && 1.0 <= level <= c.capacity as real
    requires RunSoFar(c, ttlSeconds, states, trace, CellsOf(ttlSeconds, key, held, nowMs), LevelsOf(key, level, nowMs),
      nowMs)
    ensures RunSoFar(c, ttlSeconds, states', trace', CellsOf(ttlSeconds, key, held - 2.0, nowMs),
                     LevelsOf(key, Spend(level - 1.0), nowMs), nowMs)
    ensures |trace'| == |trace| + 2 && trace'[|trace| + 1].admitted
    ensures IdealDecision(c, RedisRequests(trace'), |trace| + 1) == CanSpend(level - 1.0)
  {
    hide RunSoFar;
    AtOnce(c, ttlSeconds, key, held, level, nowMs);
    AtOnce(c, ttlSeconds, key, held - 1.0, level - 1.0, nowMs);
    hide CellsOf, LevelsOf, Seen, IdealAvailable, Written, NextIdeal, IdealDecision;
    states', trace' := Ask(c, ttlSeconds, states, trace, CellsOf(ttlSeconds, key, held, nowMs),
                           LevelsOf(key, level, nowMs), nowMs, key, nowMs);
    states', trace' := Ask(c, ttlSeconds, states', trace', CellsOf(ttlSeconds, key, held - 1.0, nowMs),
                           LevelsOf(key, level - 1.0, nowMs), nowMs, key, nowMs);
  }

  /**
   Three tokens, two a second, a TTL of one and a half seconds: drained at once and asked again after 1001
   milliseconds, the script admits three more requests where 2.002 tokens have come back.
   */
  lemma ScriptRefillsEarly() returns (states: seq<R.Cells>, trace: seq<R.Event>)
    ensures var c := Config(3, 2.0);
      && R.IsRun(c, 1, states, trace) && SharedClock(trace) && states[0] == map[] && |trace| == 6
      && trace[5].admitted && !IdealDecision(c, RedisRequests(trace), 5)
  {
    var c := Config(3, 2.0);
    assert RunSoFar(c, 1, [map[]], [], map[], map[], 0);
    FirstRequest(c, 1, "k", 0);
    ExpiredRequest(c, 1, "k");
    assert Refill(c, 0.0, R.Seconds(1001)) == 2.002;
    hide RunSoFar, Seen, IdealAvailable, Written, NextIdeal, CellsOf, LevelsOf, IdealDecision;
    states, trace := Ask(c, 1, [map[]], [], map[], map[], 0, "k", 0);
    states, trace := AskTwice(c, 1, states, trace, "k", 0, 2.0, 2.0);
    states, trace := Ask(c, 1, states, trace, CellsOf(1, "k", 0.0, 0), LevelsOf("k", 0.0, 0), 0, "k", 1001);
    states, trace := AskTwice(c, 1, states, trace, "k", 1001, 2.0, 1.002);
    RunIsRun(c, 1, states, trace, CellsOf(1, "k", 0.0, 1001), LevelsOf("k", Spend(0.002), 1001), 1001);
  }

  lemma RunIsRun(c: Config, ttlSeconds: int, states: seq<R.Cells>, trace: seq<R.Event>, m: R.Cells, ideal: Levels,
    nowMs: int)
    requires RunSoFar(c, ttlSeconds, states, trace, m, ideal, nowMs)
    ensures R.IsRun(c, ttlSeconds, states, trace) && SharedClock(trace) && states[0] == map[]
  {
  }

  /**
   Covering a refill by the TTL itself is neither enough, since the script keeps whole seconds only, nor necessary,
   since a key outlives them by a millisecond.
   */
  lemma TtlItselfDecidesNothing()
    ensures var s := M.Settings(Config(3, 2.0), 1.5, 0);
      CleanupUnobservable(s) && !ExpiryUnobservable(s.config, s.ttl.Floor)
    ensures var s := M.Settings(Config(1001, 1000.0), 1.0, 0);
      !CleanupUnobservable(s) && ExpiryUnobservable(s.config, s.ttl.Floor)
  {
    CleanupUnobservableIff(M.Settings(Config(3, 2.0), 1.5, 0));
    ExpiryUnobservableIff(Config(3, 2.0), 1);
    CleanupUnobservableIff(M.Settings(Config(1001, 1000.0), 1.0, 0));
    ExpiryUnobservableIff(Config(1001, 1000.0), 1);
  }

  // ----- All three decide alike -----

  /**
   Under the two exact conditions, the same requests put to the in-memory limiter, to the Redis script and to the
   limiter that never forgets get the same decisions.
   */
  lemma LimitersAgree(s: M.Settings, states: seq<M.Table>, trace: seq<M.Event>,
                      cells: seq<R.Cells>, redisTrace: seq<R.Event>, i: nat)
    requires s.config.rate >= 0.0 && s.maxBuckets <= 0 && s.ttl.Floor > 0
    requires s.ttl * s.config.rate >= s.config.capacity as real
    requires (1000 * s.ttl.Floor + 1) as real * s.config.rate >= 1000.0 * s.config.capacity as real
    requires M.IsRun(s, states, trace) && M.ClockMonotone(trace) && states[0] == map[]
    requires R.IsRun(s.config, s.ttl.Floor, cells, redisTrace) && SharedClock(redisTrace) && cells[0] == map[]
    requires Requests(trace) == RedisRequests(redisTrace) && i < |trace|
    ensures |redisTrace| == |trace|
    ensures trace[i].admitted == redisTrace[i].admitted == IdealDecision(s.config, Requests(trace), i)
  {
    assert |Requests(trace)| == |trace| && |RedisRequests(redisTrace)| == |redisTrace|;
    ForgettingFull(s, states, trace, i + 1);
    RedisHoldsLevels(s.config, s.ttl.Floor, cells, redisTrace, i + 1);
  }
}
