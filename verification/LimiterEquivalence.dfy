/**
 The in-memory limiter against an ideal one that never forgets a key. That it forgets cannot be observed, in any run,
 exactly when the table is not bounded and a full refill takes no longer than the TTL, or nothing is admitted anyway.
 */
module LimiterEquivalence {
  import opened TokenBucket
  import M = MemoryLimiter

  datatype Request = Request(key: string, now: real)

  // ----- The limiter that never forgets -----

  datatype Level = Level(tokens: real, at: real)

  type Levels = map<string, Level>

  ghost function IdealAvailable(c: Config, m: Levels, r: Request): real {
    if r.key in m then Refill(c, m[r.key].tokens, r.now - m[r.key].at) else c.capacity as real
  }

  ghost function IdealAfter(c: Config, requests: seq<Request>, n: nat): Levels
    requires n <= |requests|
  {
    if n == 0 then map[]
    else
      var m := IdealAfter(c, requests, n - 1);
      var r := requests[n - 1];
      m[r.key := Level(Spend(IdealAvailable(c, m, r)), r.now)]
  }

  ghost predicate IdealDecision(c: Config, requests: seq<Request>, i: nat)
    requires i < |requests|
  {
    CanSpend(IdealAvailable(c, IdealAfter(c, requests, i), requests[i]))
  }

  // ----- The in-memory limiter -----

  ghost function Requests(trace: seq<M.Event>): seq<Request> {
    seq(|trace|, i requires 0 <= i < |trace| => Request(trace[i].key, trace[i].now))
  }

  /** For one key: the limiter holds the ideal level, or has forgotten one that is full again by `now`. */
  ghost predicate Agrees(c: Config, ideal: Levels, m: M.Table, now: real, k: string) {
    if k in m then
      k in ideal && m[k] == M.Bucket(ideal[k].tokens, ideal[k].at, ideal[k].at) && ideal[k].at <= now
        && ideal[k].tokens >= 0.0
    else
      k in ideal ==> ideal[k].at <= now && ideal[k].tokens >= 0.0 && Full(c, ideal[k], now)
  }

  ghost predicate Full(c: Config, level: Level, now: real) {
    level.tokens + (now - level.at) * c.rate >= c.capacity as real
  }

  ghost predicate ForgotOnlyFull(c: Config, ideal: Levels, m: M.Table, now: real) {
    forall k: string :: Agrees(c, ideal, m, now, k)
  }

  ghost predicate TtlCoversRefill(s: M.Settings) {
    s.ttl <= 0.0 || s.ttl * s.config.rate >= s.config.capacity as real
  }

  lemma FullStays(c: Config, level: Level, before: real, now: real)
    requires c.rate >= 0.0 && Full(c, level, before) && before <= now
    ensures Full(c, level, now)
  {
    ProductMonotone(before - level.at, now - level.at, c.rate);
  }

  lemma SameAvailable(s: M.Settings, ideal: Levels, m: M.Table, before: real, key: string, now: real)
    requires s.config.rate >= 0.0 && before <= now && Agrees(s.config, ideal, m, before, key)
    ensures M.Available(s, m, key, now) == IdealAvailable(s.config, ideal, Request(key, now))
    ensures M.Available(s, m, key, now) >= 0.0
  {
    if key in ideal {
      var elapsed := now - ideal[key].at;
      ProductMonotone(0.0, elapsed, s.config.rate);
      assert Refill(s.config, ideal[key].tokens, elapsed) >= 0.0;
      if key !in m {
        FullStays(s.config, ideal[key], before, now);
      }
    }
  }

  lemma EvictedIsFull(s: M.Settings, ideal: Levels, m: M.Table, before: real, now: real, evicted: set<string>,
    k: string)
    requires s.config.rate >= 0.0 && s.maxBuckets <= 0 && TtlCoversRefill(s) && before <= now
    requires M.Evicts(s, m, now, evicted) && k in evicted && Agrees(s.config, ideal, m, before, k)
    ensures k in ideal && Full(s.config, ideal[k], now)
  {
    assert k !in evicted - M.Stale(s, m, now);
    assert k in M.Stale(s, m, now);
    LongIdleIsFull(s.config, ideal[k], s.ttl, now);
  }

  lemma LongIdleIsFull(c: Config, level: Level, ttl: real, now: real)
    requires c.rate >= 0.0 && level.tokens >= 0.0 && now - level.at >= ttl && ttl * c.rate >= c.capacity as real
    ensures Full(c, level, now)
  {
    LongIdle(c, level.tokens, ttl, now - level.at);
  }

  lemma LongIdle(c: Config, tokens: real, ttl: real, idle: real)
    requires c.rate >= 0.0 && tokens >= 0.0 && idle >= ttl && ttl * c.rate >= c.capacity as real
    ensures tokens + idle * c.rate >= c.capacity as real
  {
    ProductMonotone(ttl, idle, c.rate);
  }

  lemma ForgettingFullStep(s: M.Settings, ideal: Levels, m: M.Table, before: real, e: M.Event, m': M.Table)
    requires s.config.rate >= 0.0 && s.maxBuckets <= 0 && TtlCoversRefill(s)
    requires M.Step(s, m, e, m') && before <= e.now
    requires ForgotOnlyFull(s.config, ideal, m, before)
    ensures var available := IdealAvailable(s.config, ideal, Request(e.key, e.now));
      && e.admitted == CanSpend(available)
      && ForgotOnlyFull(s.config, ideal[e.key := Level(Spend(available), e.now)], m', e.now)
  {
    hide M.Evicts, M.Available, IdealAvailable, Full;
    assert Agrees(s.config, ideal, m, before, e.key);
    SameAvailable(s, ideal, m, before, e.key, e.now);
    var available := IdealAvailable(s.config, ideal, Request(e.key, e.now));
    var ideal' := ideal[e.key := Level(Spend(available), e.now)];
    forall k: string
      ensures Agrees(s.config, ideal', m', e.now, k)
    {
      assert Agrees(s.config, ideal, m, before, k);
      M.StepOnKey(s, m, e, m', k);
      assert k in m' <==> M.Lookup(m', k).Some?;
      if k != e.key {
        if k in e.evicted {
          EvictedIsFull(s, ideal, m, before, e.now, e.evicted, k);
        } else if k !in m && k in ideal {
          FullStays(s.config, ideal[k], before, e.now);
        }
      }
    }
  }

  lemma NothingForgotten(c: Config, now: real)
    ensures ForgotOnlyFull(c, map[], map[], now)
  {
  }

  lemma {:induction false} ForgettingFull(s: M.Settings, states: seq<M.Table>, trace: seq<M.Event>, n: nat)
    requires s.config.rate >= 0.0 && s.maxBuckets <= 0 && TtlCoversRefill(s)
    requires M.IsRun(s, states, trace) && M.ClockMonotone(trace) && states[0] == map[] && 0 < n <= |trace|
    ensures ForgotOnlyFull(s.config, IdealAfter(s.config, Requests(trace), n), states[n], trace[n - 1].now)
    ensures trace[n - 1].admitted == IdealDecision(s.config, Requests(trace), n - 1)
  {
    hide M.Step, ForgotOnlyFull;
    assert M.StepAt(s, states, trace, n - 1);
    var before := if n > 1 then trace[n - 2].now else trace[0].now;
    if n > 1 {
      ForgettingFull(s, states, trace, n - 1);
    } else {
      NothingForgotten(s.config, before);
    }
    ForgettingFullStep(s, IdealAfter(s.config, Requests(trace), n - 1), states[n - 1], before, trace[n - 1], states[n]);
  }

  /** No trace of the in-memory limiter shows that it forgets keys. */
  ghost predicate CleanupUnobservable(s: M.Settings) {
    forall states: seq<M.Table>, trace: seq<M.Event>, i: nat ::
      M.IsRun(s, states, trace) && M.ClockMonotone(trace) && states[0] == map[] && i < |trace| ==>
        trace[i].admitted == IdealDecision(s.config, Requests(trace), i)
  }

  /** The condition is enough. */
  lemma CoveredTtlUnobservable(s: M.Settings)
    requires s.config.rate >= 0.0 && s.maxBuckets <= 0 && TtlCoversRefill(s)
    ensures CleanupUnobservable(s)
  {
    forall states: seq<M.Table>, trace: seq<M.Event>, i: nat |
      M.IsRun(s, states, trace) && M.ClockMonotone(trace) && states[0] == map[] && i < |trace|
      ensures trace[i].admitted == IdealDecision(s.config, Requests(trace), i)
    {
      ForgettingFull(s, states, trace, i + 1);
    }
  }

  // ----- The condition is also necessary -----

  /** A run that ends in `m`, on which the limiter has so far decided as the ideal one, which is at `ideal`. */
  ghost predicate Undetected(
    s: M.Settings, states: seq<M.Table>, trace: seq<M.Event>, m: M.Table, ideal: Levels, now: real)
  {
    && M.IsRun(s, states, trace) && M.ClockMonotone(trace) && states[0] == map[]
    && states[|trace|] == m && IdealAfter(s.config, Requests(trace), |trace|) == ideal
    && (trace != [] ==> trace[|trace| - 1].now <= now)
  }

  lemma IdealAfterPrefix(c: Config, requests: seq<Request>, r: Request, n: nat)
    requires n <= |requests|
    ensures IdealAfter(c, requests + [r], n) == IdealAfter(c, requests, n)
  {
    if n > 0 {
      IdealAfterPrefix(c, requests, r, n - 1);
      assert (requests + [r])[n - 1] == requests[n - 1];
    }
  }

  lemma RunAppend(s: M.Settings, states: seq<M.Table>, trace: seq<M.Event>, e: M.Event, m': M.Table)
    requires M.IsRun(s, states, trace) && M.Step(s, states[|trace|], e, m')
    ensures M.IsRun(s, states + [m'], trace + [e])
  {
    hide M.Step;
    var states', trace' := states + [m'], trace + [e];
    forall i: nat | i < |trace'|
      ensures M.StepAt(s, states', trace', i)
    {
      assert i < |trace| ==> M.StepAt(s, states, trace, i);
    }
  }

  lemma TraceAppend(trace: seq<M.Event>, e: M.Event)
    requires M.ClockMonotone(trace) && (trace != [] ==> trace[|trace| - 1].now <= e.now)
    ensures Requests(trace + [e]) == Requests(trace) + [Request(e.key, e.now)] && M.ClockMonotone(trace + [e])
  {
  }

  /** One more event extends an undetected run, as long as the decision is the ideal one. */
  lemma Extend(s: M.Settings, states: seq<M.Table>, trace: seq<M.Event>, m: M.Table, ideal: Levels, before: real,
               e: M.Event, m': M.Table)
    returns (states': seq<M.Table>, trace': seq<M.Event>)
    requires CleanupUnobservable(s) && Undetected(s, states, trace, m, ideal, before)
    requires M.Step(s, m, e, m') && before <= e.now
    ensures var available := IdealAvailable(s.config, ideal, Request(e.key, e.now));
      && e.admitted == CanSpend(available)
      && Undetected(s, states', trace', m', ideal[e.key := Level(Spend(available), e.now)], e.now)
  {
    hide M.Step, IdealAvailable;
    states', trace' := states + [m'], trace + [e];
    var n := |trace|;
    var r := Request(e.key, e.now);
    RunAppend(s, states, trace, e, m');
    hide M.StepAt, M.IsRun;
    TraceAppend(trace, e);
    hide Requests, M.ClockMonotone;
    IdealAfterPrefix(s.config, Requests(trace), r, n);
    assert M.IsRun(s, states', trace') && M.ClockMonotone(trace') && states'[0] == map[];
    assert trace'[n].admitted == IdealDecision(s.config, Requests(trace'), n);
  }

  /** The step of a request for a key that has a bucket. */
  lemma TouchStep(s: M.Settings, m: M.Table, key: string, now: real) returns (e: M.Event, m': M.Table)
    requires key in m
    ensures e.key == key && e.now == now && M.Step(s, m, e, m')
    ensures var available := Refill(s.config, m[key].tokens, now - m[key].lastFill);
      e.admitted == CanSpend(available) && m' == m[key := M.Bucket(Spend(available), now, now)]
  {
    e := M.Event(key, now, {}, CanSpend(M.Available(s, m, key, now)));
    m' := m[key := M.Bucket(Spend(M.Available(s, m, key, now)), now, now)];
    assert m - {} == m;
  }

  /** The step of a request for a key that has none. */
  lemma CreateStep(s: M.Settings, m: M.Table, key: string, now: real, evicted: set<string>)
    returns (e: M.Event, m': M.Table)
    requires key !in m && M.Evicts(s, m, now, evicted)
    ensures e.key == key && e.now == now && M.Step(s, m, e, m')
    ensures e.admitted == CanSpend(s.config.capacity as real)
    ensures m' == (m - evicted)[key := M.Bucket(Spend(s.config.capacity as real), now, now)]
  {
    e := M.Event(key, now, evicted, CanSpend(s.config.capacity as real));
    m' := (m - evicted)[key := M.Bucket(Spend(s.config.capacity as real), now, now)];
  }

  lemma UnboundedEvictsStale(s: M.Settings, m: M.Table, now: real)
    requires s.maxBuckets <= 0
    ensures M.Evicts(s, m, now, M.Stale(s, m, now))
  {
    var stale := M.Stale(s, m, now);
    assert stale - stale == {};
  }

  lemma RefillAtOnce(c: Config, tokens: real, now: real)
    requires tokens <= c.capacity as real
    ensures Refill(c, tokens, now - now) == tokens
  {
  }

  /** The limiter spends a token at the instant of its last refill, and then so must the ideal one. */
  lemma SpendOne(s: M.Settings, states: seq<M.Table>, trace: seq<M.Event>, m: M.Table, ideal: Levels,
                 key: string, now: real, held: real, level: real)
    returns (states': seq<M.Table>, trace': seq<M.Event>)
    requires CleanupUnobservable(s) && Undetected(s, states, trace, m, ideal, now)
    requires key in m && m[key] == M.Bucket(held, now, now) && 1.0 <= held <= s.config.capacity as real
    requires key in ideal && ideal[key] == Level(level, now) && level <= s.config.capacity as real
    ensures level >= 1.0
    ensures Undetected(s, states', trace', m[key := M.Bucket(held - 1.0, now, now)],
      ideal[key := Level(level - 1.0, now)], now)
  {
    hide Undetected, CleanupUnobservable;
    RefillAtOnce(s.config, held, now);
    RefillAtOnce(s.config, level, now);
    hide Refill;
    var e, m' := TouchStep(s, m, key, now);
    hide M.Step;
    states', trace' := Extend(s, states, trace, m, ideal, now, e, m');
  }

  /** A burst of `n` requests at one instant. */
  lemma {:induction false} Burst(s: M.Settings, states: seq<M.Table>, trace: seq<M.Event>, m: M.Table, ideal: Levels,
                                 key: string, now: real, n: nat, held: real, level: real)
    returns (states': seq<M.Table>, trace': seq<M.Event>)
    requires CleanupUnobservable(s) && Undetected(s, states, trace, m, ideal, now)
    requires key in m && m[key] == M.Bucket(held, now, now) && n as real <= held <= s.config.capacity as real
    requires key in ideal && ideal[key] == Level(level, now) && level <= s.config.capacity as real
    ensures Undetected(s, states', trace', m[key := M.Bucket(held - n as real, now, now)],
                       ideal[key := Level(level - n as real, now)], now)
    ensures n > 0 ==> level >= n as real
    decreases n
  {
    hide Undetected, CleanupUnobservable;
    if n == 0 {
      assert m == m[key := m[key]] && ideal == ideal[key := ideal[key]];
      return states, trace;
    }
    states', trace' := SpendOne(s, states, trace, m, ideal, key, now, held, level);
    var m1 := m[key := M.Bucket(held - 1.0, now, now)];
    var ideal1 := ideal[key := Level(level - 1.0, now)];
    states', trace' := Burst(s, states', trace', m1, ideal1, key, now, n - 1, held - 1.0, level - 1.0);
    assert m1[key := M.Bucket(held - n as real, now, now)] == m[key := M.Bucket(held - n as real, now, now)];
    assert ideal1[key := Level(level - n as real, now)] == ideal[key := Level(level - n as real, now)];
  }

  /** An instant after which a bucket drained at time 0 is forgotten without being full again. */
  lemma TooEarly(s: M.Settings) returns (at: real)
    requires s.config.rate >= 0.0 && !TtlCoversRefill(s)
    ensures s.ttl < at && at * s.config.rate < s.config.capacity as real
  {
    if s.config.rate == 0.0 {
      at := s.ttl + 1.0;
    } else {
      var slack := s.config.capacity as real - s.ttl * s.config.rate;
      at := s.ttl + slack / (2.0 * s.config.rate);
      assert slack / (2.0 * s.config.rate) > 0.0;
      assert slack / (2.0 * s.config.rate) * s.config.rate == slack / 2.0;
    }
  }

  /** A first request for a key, then requests at the same instant until its new bucket is empty. */
  lemma Drain(s: M.Settings, states: seq<M.Table>, trace: seq<M.Event>, m: M.Table, ideal: Levels, before: real,
              key: string, now: real, evicted: set<string>)
    returns (states': seq<M.Table>, trace': seq<M.Event>, level: real)
    requires CleanupUnobservable(s) && Undetected(s, states, trace, m, ideal, before) && before <= now
    requires s.config.capacity >= 1 && key !in m && M.Evicts(s, m, now, evicted)
    ensures level == IdealAvailable(s.config, ideal, Request(key, now)) && level >= s.config.capacity as real
    ensures Undetected(s, states', trace', (m - evicted)[key := M.Bucket(0.0, now, now)],
                       ideal[key := Level(level - s.config.capacity as real, now)], now)
  {
    hide Undetected, CleanupUnobservable;
    var n := s.config.capacity;
    level := IdealAvailable(s.config, ideal, Request(key, now));
    var e, m1 := CreateStep(s, m, key, now, evicted);
    hide M.Step, M.Evicts;
    states', trace' := Extend(s, states, trace, m, ideal, before, e, m1);
    assert level <= n as real;
    hide IdealAvailable, Refill;
    var ideal1 := ideal[key := Level(level - 1.0, now)];
    states', trace' := Burst(s, states', trace', m1, ideal1, key, now, n - 1, n as real - 1.0, level - 1.0);
    var kept := m - evicted;
    assert m1[key := M.Bucket(0.0, now, now)] == kept[key := M.Bucket(0.0, now, now)];
    assert ideal1[key := Level(level - n as real, now)] == ideal[key := Level(level - n as real, now)];
  }

  lemma EmptyEvictsNothing(s: M.Settings)
    ensures M.Evicts(s, map[], 0.0, {})
  {
    var m: M.Table, none: set<string> := map[], {};
    assert M.Stale(s, m, 0.0) == none && m - none == m && none - none == none;
  }

  /** The first thing to happen: "k" is drained at time 0. */
  lemma DrainFirst(s: M.Settings) returns (states: seq<M.Table>, trace: seq<M.Event>)
    requires s.config.capacity >= 1 && CleanupUnobservable(s)
    ensures Undetected(s, states, trace, map["k" := M.Bucket(0.0, 0.0, 0.0)], map["k" := Level(0.0, 0.0)], 0.0)
  {
    var m: M.Table, ideal: Levels, none: set<string> := map[], map[], {};
    assert Undetected(s, [m], [], m, ideal, 0.0);
    EmptyEvictsNothing(s);
    hide Undetected, CleanupUnobservable, M.Evicts, Refill;
    var level;
    states, trace, level := Drain(s, [m], [], m, ideal, 0.0, "k", 0.0, none);
    assert (m - none)["k" := M.Bucket(0.0, 0.0, 0.0)] == map["k" := M.Bucket(0.0, 0.0, 0.0)];
    assert level == s.config.capacity as real;
    assert ideal["k" := Level(0.0, 0.0)] == map["k" := Level(0.0, 0.0)];
  }

  lemma OnlyStaleGoes(s: M.Settings, at: real, key: string, other: string)
    requires 0.0 < s.ttl < at && key != other
    ensures var m: M.Table := map[key := M.Bucket(0.0, 0.0, 0.0)];
      (m - M.Stale(s, m, at))[other := M.Bucket(0.0, at, at)] == map[other := M.Bucket(0.0, at, at)]
  {
    var m: M.Table := map[key := M.Bucket(0.0, 0.0, 0.0)];
    assert key in M.Stale(s, m, at);
  }

  /** Let another key trigger the cleanup when "k" is stale. */
  lemma ForgetFirst(s: M.Settings, at: real) returns (states: seq<M.Table>, trace: seq<M.Event>)
    requires s.maxBuckets <= 0 && s.config.capacity >= 1 && 0.0 < s.ttl < at && CleanupUnobservable(s)
    ensures Undetected(s, states, trace, map["other" := M.Bucket(0.0, at, at)],
                       map["k" := Level(0.0, 0.0), "other" := Level(0.0, at)], at)
  {
    states, trace := DrainFirst(s);
    var drained: M.Table, ideal: Levels := map["k" := M.Bucket(0.0, 0.0, 0.0)], map["k" := Level(0.0, 0.0)];
    UnboundedEvictsStale(s, drained, at);
    OnlyStaleGoes(s, at, "k", "other");
    hide Undetected, CleanupUnobservable, Refill, M.Evicts, M.Stale;
    var level;
    states, trace, level := Drain(s, states, trace, drained, ideal, 0.0, "other", at, M.Stale(s, drained, at));
    assert level == s.config.capacity as real;
    assert ideal["other" := Level(0.0, at)] == map["k" := Level(0.0, 0.0), "other" := Level(0.0, at)];
  }

  /** Drain "k" a second time: the limiter admits the whole burst, so the ideal level must have refilled by then. */
  lemma DrainTwice(s: M.Settings, at: real)
    requires s.maxBuckets <= 0 && s.config.capacity >= 1 && 0.0 < s.ttl < at
    requires CleanupUnobservable(s)
    ensures Refill(s.config, 0.0, at - 0.0) >= s.config.capacity as real
  {
    var states, trace := ForgetFirst(s, at);
    var onlyOther: M.Table := map["other" := M.Bucket(0.0, at, at)];
    var ideal: Levels := map["k" := Level(0.0, 0.0), "other" := Level(0.0, at)];
    UnboundedEvictsStale(s, onlyOther, at);
    hide Undetected, CleanupUnobservable, Refill, M.Evicts, M.Stale;
    var level;
    states, trace, level := Drain(s, states, trace, onlyOther, ideal, at, "k", at, M.Stale(s, onlyOther, at));
    assert level == Refill(s.config, 0.0, at - 0.0);
  }

  /** The condition is also necessary. */
  lemma UncoveredTtlObservable(s: M.Settings)
    requires s.config.rate >= 0.0 && s.maxBuckets <= 0 && !TtlCoversRefill(s)
    ensures !CleanupUnobservable(s)
  {
    if CleanupUnobservable(s) {
      ProductMonotone(0.0, s.ttl, s.config.rate);
      var at := TooEarly(s);
      hide CleanupUnobservable;
      DrainTwice(s, at);
    }
  }

  // ----- A bound on the table is observable -----

  /** All buckets are of this instant, and there is room for names. */
  ghost predicate AtOnce(m: M.Table) {
    forall key :: key in m ==> m[key].lastSeen == 0.0 && |key| <= |m|
  }

  /** At that instant nothing is stale, and a full table may lose any of its buckets. */
  lemma EvictsAny(s: M.Settings, m: M.Table, victim: string)
    requires s.maxBuckets > 0 && AtOnce(m)
    ensures |m| < s.maxBuckets ==> M.Evicts(s, m, 0.0, {})
    ensures |m| >= s.maxBuckets && victim in m ==> M.Evicts(s, m, 0.0, {victim})
  {
    var none: set<string> := {};
    assert M.Stale(s, m, 0.0) == none && m - none == m && none - none == none && {victim} - none == {victim};
    assert victim in m ==> M.LeastRecentlySeen(m, victim);
  }

  lemma OneMore(m: M.Table, key: string, b: M.Bucket)
    requires AtOnce(m) && |key| == |m| + 1 && b.lastSeen == 0.0
    ensures key !in m && |m[key := b]| == |m| + 1 && AtOnce(m[key := b])
  {
    assert key !in m;
    assert m[key := b].Keys == m.Keys + {key};
    assert |m[key := b]| == |m[key := b].Keys| && |m| == |m.Keys|;
  }

  /** New keys are requested until the table is full, and one more, which drives out "k". */
  lemma {:induction false} Fill(s: M.Settings, states: seq<M.Table>, trace: seq<M.Event>, m: M.Table, ideal: Levels)
    returns (states': seq<M.Table>, trace': seq<M.Event>, m': M.Table, ideal': Levels, next: set<string>)
    requires CleanupUnobservable(s) && Undetected(s, states, trace, m, ideal, 0.0) && s.maxBuckets > 0
    requires AtOnce(m) && |m| <= s.maxBuckets && "k" in m && "k" in ideal && ideal["k"] == Level(0.0, 0.0)
    ensures Undetected(s, states', trace', m', ideal', 0.0) && "k" !in m' && "k" in ideal'
      && ideal'["k"] == Level(0.0, 0.0)
    ensures M.Evicts(s, m', 0.0, next)
    decreases s.maxBuckets - |m|
  {
    hide Undetected, CleanupUnobservable;
    var key := seq(|m| + 1, _ => 'o');
    var b := M.Bucket(Spend(s.config.capacity as real), 0.0, 0.0);
    OneMore(m, key, b);
    assert |"k"| == 1 && key != "k" by { assert "k" in m ==> |m| >= 1; }
    EvictsAny(s, m, "k");
    var evicted := if |m| < s.maxBuckets then {} else {"k"};
    var e, m1 := CreateStep(s, m, key, 0.0, evicted);
    hide M.Step;
    states', trace' := Extend(s, states, trace, m, ideal, 0.0, e, m1);
    ideal' := ideal[key := Level(Spend(IdealAvailable(s.config, ideal, Request(key, 0.0))), 0.0)];
    hide M.Evicts, IdealAvailable;
    if |m| < s.maxBuckets {
      assert m1 == m[key := b];
      states', trace', m', ideal', next := Fill(s, states', trace', m1, ideal');
    } else {
      m' := m1;
      next := AfterForced(s, m, "k", key, b);
    }
  }

  /** The table is as full as before, so the next new key drives out another one. */
  lemma AfterForced(s: M.Settings, m: M.Table, victim: string, key: string, b: M.Bucket) returns (next: set<string>)
    requires s.maxBuckets > 0 && AtOnce(m) && |m| == s.maxBuckets && victim in m && |key| == |m| + 1
      && b.lastSeen == 0.0
    ensures M.Evicts(s, (m - {victim})[key := b], 0.0, next)
  {
    var m' := (m - {victim})[key := b];
    var none: set<string> := {};
    assert M.Stale(s, m', 0.0) == none && m' - none == m' && none - none == none && {key} - none == {key};
    assert M.LeastRecentlySeen(m', key);
    next := if |m'| < s.maxBuckets then none else {key};
  }

  /** Drain "k" and have it driven out: the limiter admits the next request, so the ideal one would have to. */
  lemma DrivenOut(s: M.Settings)
    requires s.maxBuckets > 0 && s.config.capacity >= 1 && CleanupUnobservable(s)
    ensures CanSpend(Refill(s.config, 0.0, 0.0 - 0.0))
  {
    var states, trace := DrainFirst(s);
    var m: M.Table, ideal: Levels := map["k" := M.Bucket(0.0, 0.0, 0.0)], map["k" := Level(0.0, 0.0)];
    assert AtOnce(m) && |m| == 1 && "k" in m && "k" in ideal;
    assert CanSpend(s.config.capacity as real);
    hide *;
    var evicted;
    states, trace, m, ideal, evicted := Fill(s, states, trace, m, ideal);
    AvailableAtOnce(s.config, ideal);
    var e, m' := CreateStep(s, m, "k", 0.0, evicted);
    states, trace := Extend(s, states, trace, m, ideal, 0.0, e, m');
  }

  lemma AvailableAtOnce(c: Config, ideal: Levels)
    requires "k" in ideal && ideal["k"] == Level(0.0, 0.0)
    ensures IdealAvailable(c, ideal, Request("k", 0.0)) == Refill(c, 0.0, 0.0 - 0.0)
  {
  }

  lemma BoundObservable(s: M.Settings)
    requires s.maxBuckets > 0 && s.config.capacity >= 1
    ensures !CleanupUnobservable(s)
  {
    if CleanupUnobservable(s) {
      DrivenOut(s);
    }
  }

  /** With no capacity neither limiter ever admits a request. */
  lemma NothingAdmitted(s: M.Settings)
    requires s.config.capacity == 0
    ensures CleanupUnobservable(s)
  {
    forall states: seq<M.Table>, trace: seq<M.Event>, i: nat |
      M.IsRun(s, states, trace) && M.ClockMonotone(trace) && states[0] == map[] && i < |trace|
      ensures trace[i].admitted == IdealDecision(s.config, Requests(trace), i)
    {
      assert M.StepAt(s, states, trace, i);
      assert M.Available(s, states[i], trace[i].key, trace[i].now) <= 0.0;
      assert IdealAvailable(s.config, IdealAfter(s.config, Requests(trace), i), Requests(trace)[i]) <= 0.0;
    }
  }

  /**
   For all settings: forgetting keys is unobservable exactly when no bucket is ever forced out and a full refill takes
   no longer than the TTL, or when there is nothing to admit.
   */
  lemma CleanupUnobservableIff(s: M.Settings)
    requires s.config.rate >= 0.0
    ensures CleanupUnobservable(s) <==>
      s.config.capacity == 0
        || (s.maxBuckets <= 0 && (s.ttl <= 0.0 || s.ttl * s.config.rate >= s.config.capacity as real))
  {
    if s.config.capacity == 0 {
      NothingAdmitted(s);
    } else if s.maxBuckets > 0 {
      BoundObservable(s);
    } else if TtlCoversRefill(s) {
      CoveredTtlUnobservable(s);
    } else {
      UncoveredTtlObservable(s);
    }
  }
}
