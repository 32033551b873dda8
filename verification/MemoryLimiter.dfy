/**
 The in-memory rate limiter: a table of token buckets with TTL cleanup and a bound on the number
 of buckets. `Allow` is proved against the relation `Step`; the theorems are about every trace of
 steps.
 */
module MemoryLimiter {
  import opened TokenBucket
  import opened Wrappers

  /** `ttl <= 0.0` switches cleanup off and `maxBuckets <= 0` switches the bound off. */
  datatype Settings = Settings(config: Config, ttl: real, maxBuckets: int)

  datatype Bucket = Bucket(tokens: real, lastFill: real, lastSeen: real)

  type Table = map<string, Bucket>

  /** One call of `Allow`: the key, the clock, the keys evicted on the way and the decision. */
  datatype Event = Event(key: string, now: real, evicted: set<string>, admitted: bool)

  // ----- One step -----

  /** The keys that have not been seen for longer than the TTL. */
  ghost function Stale(s: Settings, m: Table, now: real): (r: set<string>)
    ensures r <= m.Keys
  {
    if s.ttl <= 0.0 then {} else set k | k in m && now - m[k].lastSeen > s.ttl
  }

  /** No bucket was seen before `victim`. */
  ghost predicate LeastRecentlySeen(m: Table, victim: string) {
    victim in m && forall k :: k in m ==> m[victim].lastSeen <= m[k].lastSeen
  }

  /** A table that is full loses one least recently seen bucket, any other loses nothing. */
  ghost predicate Forced(s: Settings, m: Table, forced: set<string>) {
    if s.maxBuckets <= 0 || |m| < s.maxBuckets then
      forced == {}
    else
      exists victim :: LeastRecentlySeen(m, victim) && forced == {victim}
  }

  /** What inserting a key evicts: the stale buckets, then what is forced out of the rest. */
  ghost predicate Evicts(s: Settings, m: Table, now: real, evicted: set<string>) {
    var stale := Stale(s, m, now);
    stale <= evicted <= m.Keys && Forced(s, m - stale, evicted - stale)
  }

  /** The tokens available to a request for `key` at `now`. */
  ghost function Available(s: Settings, m: Table, key: string, now: real): real {
    if key in m then Refill(s.config, m[key].tokens, now - m[key].lastFill)
    else s.config.capacity as real
  }

  ghost predicate Step(s: Settings, m: Table, e: Event, m': Table) {
    var available := Available(s, m, e.key, e.now);
    && (if e.key in m then e.evicted == {} else Evicts(s, m, e.now, e.evicted))
    && e.admitted == CanSpend(available)
    && m' == (m - e.evicted)[e.key := Bucket(Spend(available), e.now, e.now)]
  }

  /** What is left after a cleanup is not stale. */
  lemma StaleOnce(s: Settings, m: Table, now: real)
    ensures var kept := m - Stale(s, m, now); Stale(s, kept, now) == {} && kept - Stale(s, kept, now) == kept
    ensures |m - Stale(s, m, now)| < s.maxBuckets || s.maxBuckets <= 0 ==> Forced(s, m - Stale(s, m, now), {})
    ensures m - Stale(s, m, now) - {} == m - Stale(s, m, now)
  {
  }

  lemma MinusInTwo(m: Table, a: set<string>, b: set<string>)
    requires a <= b
    ensures m - a - (b - a) == m - b
  {
  }

  lemma EvictsInTwo(s: Settings, m: Table, now: real, stale: set<string>, forced: set<string>)
    requires stale == Stale(s, m, now) && Forced(s, m - stale, forced)
    ensures Evicts(s, m, now, stale + forced)
    ensures m - stale - forced == m - (stale + forced)
  {
    hide Stale;
    assert forced <= (m - stale).Keys;
    assert stale + forced - stale == forced;
  }

  ghost function Lookup(m: Table, key: string): Option<Bucket> {
    if key in m then Some(m[key]) else None
  }

  /** What a step does to the bucket of one key. */
  lemma StepOnKey(s: Settings, m: Table, e: Event, m': Table, key: string)
    requires Step(s, m, e, m')
    ensures key == e.key ==> key !in e.evicted
    ensures key == e.key ==>
      Lookup(m', key) == Some(Bucket(Spend(Available(s, m, key, e.now)), e.now, e.now))
    ensures key != e.key ==> Lookup(m', key) == if key in e.evicted then None else Lookup(m, key)
    ensures e.evicted <= m.Keys && e.admitted == CanSpend(Available(s, m, e.key, e.now))
  {
  }

  class RateLimiter {
    const settings: Settings
    var buckets: Table

    /** The empty string is the marker for "no victim yet"; real keys hold a ':'. */
    ghost predicate Valid()
      reads this
    {
      "" !in buckets
    }

    constructor (settings: Settings)
      ensures Valid() && this.settings == settings && buckets == map[]
    {
      this.settings := settings;
      buckets := map[];
    }

    method CleanupLocked(now: real)
      requires Valid()
      modifies this`buckets
      ensures Valid()
      ensures buckets == old(buckets) - Stale(settings, old(buckets), now)
      ensures forall k :: k in buckets <==>
        k in old(buckets) && (settings.ttl <= 0.0 || now - old(buckets)[k].lastSeen <= settings.ttl)
    {
      if settings.ttl <= 0.0 { return; }
      var todo := buckets.Keys;
      while todo != {}
        invariant todo <= buckets.Keys <= old(buckets).Keys
        invariant forall k :: k in buckets ==> buckets[k] == old(buckets)[k]
        invariant forall k :: k in old(buckets) && k !in todo ==>
          (k in buckets <==> now - old(buckets)[k].lastSeen <= settings.ttl)
        decreases todo
      {
        var key :| key in todo;
        todo := todo - {key};
        if now - buckets[key].lastSeen > settings.ttl {
          buckets := buckets - {key};
        }
      }
    }

    method EnforceMaxBuckets(now: real) returns (ghost forced: set<string>)
      requires Valid()
      modifies this`buckets
      ensures Valid()
      ensures settings.maxBuckets <= 0 || |old(buckets)| < settings.maxBuckets ==>
        forced == {} && buckets == old(buckets)
      ensures settings.maxBuckets > 0 && |old(buckets)| >= settings.maxBuckets ==>
        var kept := old(buckets) - Stale(settings, old(buckets), now);
        Forced(settings, kept, forced) && buckets == kept - forced
    {
      forced := {};
      if settings.maxBuckets <= 0 || |buckets| < settings.maxBuckets { return; }
      CleanupLocked(now);
      assert buckets - {} == buckets;
      if |buckets| < settings.maxBuckets { return; }
      var oldestKey := "";
      var oldestTime := 0.0;
      var todo := buckets.Keys;
      while todo != {}
        invariant todo <= buckets.Keys
        invariant oldestKey == "" ==> todo == buckets.Keys
        invariant oldestKey != "" ==> oldestKey in buckets && oldestTime == buckets[oldestKey].lastSeen
        invariant oldestKey != "" ==>
          forall k :: k in buckets && k !in todo ==> oldestTime <= buckets[k].lastSeen
        decreases todo
      {
        var key :| key in todo;
        todo := todo - {key};
        if oldestKey == "" || buckets[key].lastSeen < oldestTime {
          oldestKey, oldestTime := key, buckets[key].lastSeen;
        }
      }
      assert buckets.Keys != {};
      assert LeastRecentlySeen(buckets, oldestKey);
      forced := {oldestKey};
      if oldestKey != "" {
        buckets := buckets - {oldestKey};
      }
    }

    /** Evicts what must go before a new bucket is inserted. */
    method MakeRoom(now: real) returns (ghost evicted: set<string>)
      requires Valid()
      modifies this`buckets
      ensures Valid()
      ensures Evicts(settings, old(buckets), now, evicted) && buckets == old(buckets) - evicted
    {
      CleanupLocked(now);
      ghost var stale := Stale(settings, old(buckets), now);
      ghost var kept := buckets;
      StaleOnce(settings, old(buckets), now);
      ghost var forced := EnforceMaxBuckets(now);
      evicted := stale + forced;
      hide Stale, Forced, Evicts;
      EvictsInTwo(settings, old(buckets), now, stale, forced);
    }

    /** `evicted` is bookkeeping for the trace: the decision is all a caller sees. */
    method Allow(key: string, now: real) returns (ok: bool, ghost evicted: set<string>)
      requires Valid() && key != ""
      modifies this`buckets
      ensures Valid()
      ensures Step(settings, old(buckets), Event(key, now, evicted, ok), buckets)
    {
      var bucket: Bucket;
      evicted := {};
      if key !in buckets {
        evicted := MakeRoom(now);
        bucket := Bucket(settings.config.capacity as real, now, now);
      } else {
        var was := buckets[key];
        bucket := Bucket(Refill(settings.config, was.tokens, now - was.lastFill), now, now);
        assert buckets - {} == buckets;
      }
      ok := CanSpend(bucket.tokens);
      if ok {
        bucket := bucket.(tokens := bucket.tokens - 1.0);
      }
      buckets := buckets[key := bucket];
    }
  }

  // ----- Every trace of steps -----

  ghost predicate StepAt(s: Settings, states: seq<Table>, trace: seq<Event>, i: nat)
    requires |states| == |trace| + 1 && i < |trace|
  {
    Step(s, states[i], trace[i], states[i + 1])
  }

  ghost predicate IsRun(s: Settings, states: seq<Table>, trace: seq<Event>) {
    && |states| == |trace| + 1
    && forall i :: 0 <= i < |trace| ==> StepAt(s, states, trace, i)
  }

  ghost predicate ClockMonotone(trace: seq<Event>) {
    forall i, j :: 0 <= i < j < |trace| ==> trace[i].now <= trace[j].now
  }

  /** Every bucket holds between nothing and its capacity. */
  ghost predicate InRange(s: Settings, m: Table) {
    forall k :: k in m ==> 0.0 <= m[k].tokens <= s.config.capacity as real
  }

  /** No bucket was filled or seen after `now`. */
  ghost predicate NotAfter(m: Table, now: real) {
    forall k :: k in m ==> m[k].lastFill <= now && m[k].lastSeen <= now
  }

  lemma AvailableInRange(s: Settings, m: Table, key: string, now: real)
    requires s.config.rate >= 0.0 && InRange(s, m) && NotAfter(m, now)
    ensures 0.0 <= Available(s, m, key, now) <= s.config.capacity as real
  {
    if key in m {
      RefillNonNegative(s.config, m[key].tokens, now - m[key].lastFill);
    }
  }

  lemma StepKeepsRange(s: Settings, m: Table, e: Event, m': Table)
    requires s.config.rate >= 0.0
    requires Step(s, m, e, m') && InRange(s, m) && NotAfter(m, e.now)
    ensures InRange(s, m') && NotAfter(m', e.now)
    ensures 0.0 <= Available(s, m, e.key, e.now) <= s.config.capacity as real
  {
    AvailableInRange(s, m, e.key, e.now);
    hide Available;
    forall k | k in m'
      ensures 0.0 <= m'[k].tokens <= s.config.capacity as real && m'[k].lastFill <= e.now && m'[k].lastSeen <= e.now
    {
      StepOnKey(s, m, e, m', k);
      hide Step;
      assert Lookup(m', k) == Some(m'[k]);
      if k != e.key {
        assert k in m && m[k] == m'[k];
      }
    }
  }

  lemma {:induction false} RunKeepsRange(s: Settings, states: seq<Table>, trace: seq<Event>, n: nat)
    requires s.config.rate >= 0.0
    requires IsRun(s, states, trace) && ClockMonotone(trace) && n <= |trace|
    requires InRange(s, states[0]) && (trace != [] ==> NotAfter(states[0], trace[0].now))
    ensures InRange(s, states[n])
    ensures n < |trace| ==> NotAfter(states[n], trace[n].now)
    ensures n > 0 ==> NotAfter(states[n], trace[n - 1].now)
  {
    if n > 0 {
      hide Step, Available, InRange;
      RunKeepsRange(s, states, trace, n - 1);
      assert InRange(s, states[n]) && NotAfter(states[n], trace[n - 1].now) by {
        hide NotAfter;
        assert StepAt(s, states, trace, n - 1);
        StepKeepsRange(s, states[n - 1], trace[n - 1], states[n]);
      }
      if n < |trace| {
        assert trace[n - 1].now <= trace[n].now;
      }
    }
  }

  // ----- The table stays within its bound -----

  lemma SizeAfterInsert(m: Table, k: string, b: Bucket)
    ensures |m[k := b]| == if k in m then |m| else |m| + 1
  {
    assert m[k := b].Keys == m.Keys + {k};
  }

  lemma SizeAfterRemove(m: Table, k: string)
    requires k in m
    ensures |m - {k}| == |m| - 1
  {
    assert (m - {k}).Keys == m.Keys - {k};
  }

  lemma ForcedMakesRoom(s: Settings, m: Table, forced: set<string>)
    requires Forced(s, m, forced) && s.maxBuckets > 0 && |m| <= s.maxBuckets
    ensures |m - forced| < s.maxBuckets
  {
    if |m| >= s.maxBuckets {
      var victim :| LeastRecentlySeen(m, victim) && forced == {victim};
      SizeAfterRemove(m, victim);
    } else {
      assert m - forced == m;
    }
  }

  lemma EvictionMakesRoom(s: Settings, m: Table, now: real, evicted: set<string>)
    requires Evicts(s, m, now, evicted) && s.maxBuckets > 0 && |m| <= s.maxBuckets
    ensures |m - evicted| < s.maxBuckets
  {
    var stale := Stale(s, m, now);
    SubsetSize((m - stale).Keys, m.Keys);
    MinusInTwo(m, stale, evicted);
    hide Stale, Forced;
    ForcedMakesRoom(s, m - stale, evicted - stale);
  }

  /** The number of buckets never exceeds the bound, once it does not. */
  lemma StepKeepsBound(s: Settings, m: Table, e: Event, m': Table)
    requires Step(s, m, e, m') && s.maxBuckets > 0 && |m| <= s.maxBuckets
    ensures |m'| <= s.maxBuckets
  {
    SizeAfterInsert(m - e.evicted, e.key, m'[e.key]);
    if e.key in m {
      assert m - e.evicted == m;
    } else {
      EvictionMakesRoom(s, m, e.now, e.evicted);
    }
  }

  lemma {:induction false} TableBounded(s: Settings, states: seq<Table>, trace: seq<Event>, n: nat)
    requires IsRun(s, states, trace) && n <= |trace|
    requires s.maxBuckets > 0 && |states[0]| <= s.maxBuckets
    ensures |states[n]| <= s.maxBuckets
  {
    if n > 0 {
      TableBounded(s, states, trace, n - 1);
      assert StepAt(s, states, trace, n - 1);
      StepKeepsBound(s, states[n - 1], trace[n - 1], states[n]);
    }
  }

  /** A bucket that was seen recently enough is evicted only as the least recently seen of a full table. */
  lemma ForcedVictimIsOldest(s: Settings, m: Table, e: Event, m': Table, k: string)
    requires Step(s, m, e, m') && k in e.evicted && k !in Stale(s, m, e.now)
    ensures s.maxBuckets > 0 && |m - Stale(s, m, e.now)| >= s.maxBuckets
    ensures forall other :: other in m && other !in e.evicted ==> m[k].lastSeen <= m[other].lastSeen
  {
    var stale := Stale(s, m, e.now);
    var victim :| LeastRecentlySeen(m - stale, victim) && e.evicted - stale == {victim};
    assert k in e.evicted - stale;
    forall other | other in m && other !in e.evicted
      ensures m[k].lastSeen <= m[other].lastSeen
    {
      assert other in m - stale;
    }
  }

  // ----- How much a key can be admitted -----

  /** The number of requests for `key` admitted among `trace[lo..hi]`. */
  ghost function Admitted(trace: seq<Event>, key: string, lo: nat, hi: nat): nat
    requires lo <= hi <= |trace|
  {
    if lo == hi then 0
    else Admitted(trace, key, lo, hi - 1)
         + if trace[hi - 1].key == key && trace[hi - 1].admitted then 1 else 0
  }

  /** The number of times the bucket of `key` was evicted in `trace[lo..hi]`. */
  ghost function Evictions(trace: seq<Event>, key: string, lo: nat, hi: nat): nat
    requires lo <= hi <= |trace|
  {
    if lo == hi then 0
    else Evictions(trace, key, lo, hi - 1) + if key in trace[hi - 1].evicted then 1 else 0
  }

  /** The requests for `key` that were admitted in that window. */
  ghost function AdmittedIn(trace: seq<Event>, key: string, lo: nat, hi: nat): set<nat>
    requires lo <= hi <= |trace|
  {
    set i: nat | lo <= i < hi && trace[i].key == key && trace[i].admitted
  }

  /** The requests that evicted the bucket of `key` in that window. */
  ghost function EvictedIn(trace: seq<Event>, key: string, lo: nat, hi: nat): set<nat>
    requires lo <= hi <= |trace|
  {
    set i: nat | lo <= i < hi && key in trace[i].evicted
  }

  lemma {:induction false} AdmittedAre(trace: seq<Event>, key: string, lo: nat, hi: nat)
    requires lo <= hi <= |trace|
    ensures Admitted(trace, key, lo, hi) == |AdmittedIn(trace, key, lo, hi)|
    decreases hi
  {
    if lo < hi {
      AdmittedAre(trace, key, lo, hi - 1);
      var before := AdmittedIn(trace, key, lo, hi - 1);
      assert AdmittedIn(trace, key, lo, hi) ==
        if trace[hi - 1].key == key && trace[hi - 1].admitted then before + {hi - 1} else before;
      assert hi - 1 !in before;
      hide AdmittedIn;
    } else {
      assert AdmittedIn(trace, key, lo, hi) == {};
    }
  }

  lemma {:induction false} EvictionsAre(trace: seq<Event>, key: string, lo: nat, hi: nat)
    requires lo <= hi <= |trace|
    ensures Evictions(trace, key, lo, hi) == |EvictedIn(trace, key, lo, hi)|
    decreases hi
  {
    if lo < hi {
      EvictionsAre(trace, key, lo, hi - 1);
      var before := EvictedIn(trace, key, lo, hi - 1);
      assert EvictedIn(trace, key, lo, hi) == if key in trace[hi - 1].evicted then before + {hi - 1} else before;
      assert hi - 1 !in before;
      hide EvictedIn;
    } else {
      assert EvictedIn(trace, key, lo, hi) == {};
    }
  }

  ghost predicate Requested(trace: seq<Event>, key: string, lo: nat, hi: nat)
    requires lo <= hi <= |trace|
  {
    exists i :: lo <= i < hi && trace[i].key == key
  }

  /** What a key may have been admitted by `evictions` full buckets and `elapsed` seconds of refill. */
  ghost function Allowance(c: Config, buckets: int, elapsed: real): real {
    c.capacity as real * buckets as real + elapsed * c.rate
  }

  lemma AllowanceGrows(c: Config, n: int, elapsed: real, longer: real)
    requires c.rate >= 0.0 && elapsed <= longer
    ensures Allowance(c, n, longer) == Allowance(c, n, elapsed) + (longer - elapsed) * c.rate
    ensures Allowance(c, n, elapsed) <= Allowance(c, n, longer)
  {
    ProductMonotone(elapsed, longer, c.rate);
    assert (longer - elapsed) * c.rate == longer * c.rate - elapsed * c.rate;
  }

  lemma AllowanceOfBucket(c: Config, n: int, elapsed: real)
    ensures Allowance(c, n + 1, elapsed) == Allowance(c, n, elapsed) + c.capacity as real
  {
    assert c.capacity as real * (n + 1) as real == c.capacity as real * n as real + c.capacity as real;
  }

  lemma AllowanceNonNegative(c: Config, n: nat, elapsed: real)
    requires c.rate >= 0.0 && elapsed >= 0.0
    ensures 0.0 <= Allowance(c, n, elapsed)
  {
    ProductMonotone(0.0, elapsed, c.rate);
    ProductMonotone(0.0, n as real, c.capacity as real);
  }

  /**
   The invariant behind `WindowBound`, for one key of a window that opened at `start` and whose
   last event was at `now`.
   */
  ghost predicate Within(c: Config, requested: bool, admitted: nat, evictions: nat, bucket: Option<Bucket>,
                         start: real, now: real)
  {
    if !requested then
      admitted == 0
    else if bucket.Some? then
      && start <= bucket.value.lastFill
      && admitted as real + bucket.value.tokens <= Allowance(c, evictions + 1, bucket.value.lastFill - start)
    else
      && evictions >= 1
      && admitted as real <= Allowance(c, evictions, now - start)
  }

  lemma WithinAfterRefill(c: Config, requested: bool, admitted: nat, evictions: nat, was: Bucket,
                          start: real, before: real, now: real)
    requires c.rate >= 0.0 && start <= before <= now && was.lastFill <= now
    requires Within(c, requested, admitted, evictions, Some(was), start, before)
    ensures var available := Refill(c, was.tokens, now - was.lastFill);
      Within(c, true, admitted + (if CanSpend(available) then 1 else 0), evictions,
             Some(Bucket(Spend(available), now, now)), start, now)
  {
    if requested {
      AllowanceGrows(c, evictions + 1, was.lastFill - start, now - start);
    } else {
      AllowanceOfBucket(c, evictions, now - start);
      AllowanceNonNegative(c, evictions, now - start);
    }
  }

  lemma WithinAfterCreation(c: Config, requested: bool, admitted: nat, evictions: nat,
                            start: real, before: real, now: real)
    requires c.rate >= 0.0 && start <= before <= now
    requires Within(c, requested, admitted, evictions, None, start, before)
    ensures var available := c.capacity as real;
      Within(c, true, admitted + (if CanSpend(available) then 1 else 0), evictions,
             Some(Bucket(Spend(available), now, now)), start, now)
  {
    AllowanceOfBucket(c, evictions, now - start);
    AllowanceNonNegative(c, evictions, now - start);
    AllowanceGrows(c, evictions, before - start, now - start);
  }

  lemma WithinAfterEviction(c: Config, requested: bool, admitted: nat, evictions: nat, was: Bucket,
                            start: real, before: real, now: real)
    requires c.rate >= 0.0 && start <= before <= now && was.lastFill <= now && was.tokens >= 0.0
    requires Within(c, requested, admitted, evictions, Some(was), start, before)
    ensures Within(c, requested, admitted, evictions + 1, None, start, now)
  {
    AllowanceGrows(c, evictions + 1, was.lastFill - start, if was.lastFill <= now then now - start else 0.0);
  }

  ghost predicate WithinAt(s: Settings, states: seq<Table>, trace: seq<Event>, key: string, lo: nat, hi: nat)
    requires lo < hi <= |trace| && |states| == |trace| + 1
  {
    Within(s.config, Requested(trace, key, lo, hi), Admitted(trace, key, lo, hi), Evictions(trace, key, lo, hi),
           Lookup(states[hi], key), trace[lo].now, trace[hi - 1].now)
  }

  lemma WindowStep(s: Settings, states: seq<Table>, trace: seq<Event>, key: string, lo: nat, hi: nat,
                   requested: bool, admitted: nat, evictions: nat, before: real)
    requires s.config.rate >= 0.0 && lo <= hi < |trace| && |states| == |trace| + 1
    requires Step(s, states[hi], trace[hi], states[hi + 1])
    requires InRange(s, states[hi]) && NotAfter(states[hi], trace[hi].now)
    requires trace[lo].now <= before <= trace[hi].now
    requires requested == Requested(trace, key, lo, hi)
    requires admitted == Admitted(trace, key, lo, hi) && evictions == Evictions(trace, key, lo, hi)
    requires Within(s.config, requested, admitted, evictions, Lookup(states[hi], key), trace[lo].now, before)
    ensures WithinAt(s, states, trace, key, lo, hi + 1)
  {
    var m, e := states[hi], trace[hi];
    var start := trace[lo].now;
    var after := Lookup(states[hi + 1], key);
    StepOnKey(s, m, e, states[hi + 1], key);
    RequestedStep(trace, key, lo, hi);
    if e.key == key {
      if key in m {
        WithinAfterRefill(s.config, requested, admitted, evictions, m[key], start, before, e.now);
      } else {
        WithinAfterCreation(s.config, requested, admitted, evictions, start, before, e.now);
      }
      assert e.admitted == CanSpend(Available(s, m, key, e.now));
      var now := if e.admitted then admitted + 1 else admitted;
      assert Within(s.config, true, now, evictions, after, start, e.now);
    } else if key in e.evicted {
      WithinAfterEviction(s.config, requested, admitted, evictions, m[key], start, before, e.now);
    } else {
      AllowanceGrows(s.config, evictions, before - start, e.now - start);
    }
  }

  lemma RequestedStep(trace: seq<Event>, key: string, lo: nat, hi: nat)
    requires lo <= hi < |trace|
    ensures Requested(trace, key, lo, hi + 1) == (Requested(trace, key, lo, hi) || trace[hi].key == key)
  {
    if Requested(trace, key, lo, hi) {
      var i :| lo <= i < hi && trace[i].key == key;
      assert lo <= i < hi + 1 && trace[i].key == key;
    }
  }

  lemma {:induction false} WindowInvariant(s: Settings, states: seq<Table>, trace: seq<Event>, key: string, lo: nat,
    hi: nat)
    requires s.config.rate >= 0.0 && lo < hi <= |trace|
    requires IsRun(s, states, trace) && ClockMonotone(trace)
    requires InRange(s, states[0]) && NotAfter(states[0], trace[0].now)
    ensures WithinAt(s, states, trace, key, lo, hi)
  {
    RunKeepsRange(s, states, trace, hi - 1);
    assert StepAt(s, states, trace, hi - 1);
    var admitted := Admitted(trace, key, lo, hi - 1);
    var evictions := Evictions(trace, key, lo, hi - 1);
    if lo < hi - 1 {
      WindowInvariant(s, states, trace, key, lo, hi - 1);
      WindowStep(s, states, trace, key, lo, hi - 1, Requested(trace, key, lo, hi - 1), admitted, evictions,
        trace[hi - 2].now);
    } else {
      WindowStep(s, states, trace, key, lo, hi - 1, false, admitted, evictions, trace[lo].now);
    }
  }

  lemma WithinImpliesBound(c: Config, requested: bool, admitted: nat, evictions: nat, bucket: Option<Bucket>,
                           start: real, now: real)
    requires c.rate >= 0.0 && start <= now
    requires Within(c, requested, admitted, evictions, bucket, start, now)
    requires bucket.Some? ==> bucket.value.tokens >= 0.0 && bucket.value.lastFill <= now
    ensures admitted as real <= Allowance(c, 1 + evictions, now - start)
  {
    AllowanceNonNegative(c, 1 + evictions, now - start);
    AllowanceOfBucket(c, evictions, now - start);
    if requested && bucket.Some? {
      AllowanceGrows(c, evictions + 1, bucket.value.lastFill - start, now - start);
    }
  }

  lemma WindowAllowance(s: Settings, states: seq<Table>, trace: seq<Event>, key: string, lo: nat, hi: nat)
    requires s.config.rate >= 0.0 && lo < hi <= |trace|
    requires IsRun(s, states, trace) && ClockMonotone(trace) && states[0] == map[]
    ensures Admitted(trace, key, lo, hi) as real
         <= Allowance(s.config, 1 + Evictions(trace, key, lo, hi), trace[hi - 1].now - trace[lo].now)
  {
    WindowInvariant(s, states, trace, key, lo, hi);
    RunKeepsRange(s, states, trace, hi);
    WithinImpliesBound(s.config, Requested(trace, key, lo, hi), Admitted(trace, key, lo, hi),
                       Evictions(trace, key, lo, hi), Lookup(states[hi], key), trace[lo].now, trace[hi - 1].now);
  }

  lemma AllowanceIs(c: Config, n: int, elapsed: real)
    ensures Allowance(c, n, elapsed) == c.capacity as real * n as real + elapsed * c.rate
  {
  }

  /**
   In every window of every trace, the requests admitted for a key number at most
   capacity * (1 + evictions of its bucket in the window) + rate * length of the window.
   */
  lemma WindowBound(s: Settings, states: seq<Table>, trace: seq<Event>, key: string, lo: nat, hi: nat)
    requires s.config.rate >= 0.0 && lo < hi <= |trace|
    requires IsRun(s, states, trace) && ClockMonotone(trace) && states[0] == map[]
    ensures |AdmittedIn(trace, key, lo, hi)| as real
         <= s.config.capacity as real * (1 + |EvictedIn(trace, key, lo, hi)|) as real
            + (trace[hi - 1].now - trace[lo].now) * s.config.rate
  {
    hide *;
    WindowAllowance(s, states, trace, key, lo, hi);
    AdmittedAre(trace, key, lo, hi);
    EvictionsAre(trace, key, lo, hi);
    AllowanceIs(s.config, 1 + |EvictedIn(trace, key, lo, hi)|, trace[hi - 1].now - trace[lo].now);
  }

  // ----- The exact ledger -----

  /** Credit granted to a key and where it went. */
  datatype Ledger = Ledger(granted: real, spent: nat, overflow: real, forfeited: real)

  ghost function Held(m: Table, key: string): real {
    if key in m then m[key].tokens else 0.0
  }

  /** The credit a request for a key earns it: a new bucket, or the refill since the last request. */
  ghost function Credit(c: Config, bucket: Option<Bucket>, now: real): real {
    match bucket
    case None => c.capacity as real
    case Some(b) => (now - b.lastFill) * c.rate
  }

  /** What is cut off above the capacity when `credit` is added to what was held. */
  ghost function CutOff(c: Config, held: real, credit: real): real {
    if held + credit > c.capacity as real then held + credit - c.capacity as real else 0.0
  }

  /** What one step adds to the ledger of `key`. */
  ghost function Post(s: Settings, m: Table, e: Event, key: string, l: Ledger): Ledger {
    if e.key == key then
      var credit := Credit(s.config, Lookup(m, key), e.now);
      Ledger(l.granted + credit,
             l.spent + (if e.admitted then 1 else 0),
             l.overflow + CutOff(s.config, Held(m, key), credit),
             l.forfeited)
    else if key in e.evicted then
      l.(forfeited := l.forfeited + Held(m, key))
    else
      l
  }

  ghost function LedgerOf(s: Settings, states: seq<Table>, trace: seq<Event>, key: string, n: nat): Ledger
    requires |states| == |trace| + 1 && n <= |trace|
  {
    if n == 0 then Ledger(0.0, 0, 0.0, 0.0)
    else Post(s, states[n - 1], trace[n - 1], key, LedgerOf(s, states, trace, key, n - 1))
  }

  ghost predicate Balanced(m: Table, key: string, l: Ledger) {
    && Held(m, key) + l.spent as real + l.overflow + l.forfeited == l.granted
    && l.overflow >= 0.0 && l.forfeited >= 0.0
  }

  /** The available tokens are what was held and what was earned, but for what is cut off. */
  lemma AvailableAndCutOff(s: Settings, m: Table, key: string, now: real)
    ensures var credit := Credit(s.config, Lookup(m, key), now);
      Available(s, m, key, now) + CutOff(s.config, Held(m, key), credit) == Held(m, key) + credit
  {
    if key in m {
      RefillAndCutOff(s.config, m[key].tokens, now - m[key].lastFill);
    }
  }

  lemma RefillAndCutOff(c: Config, tokens: real, elapsed: real)
    ensures Refill(c, tokens, elapsed) + CutOff(c, tokens, elapsed * c.rate) == tokens + elapsed * c.rate
  {
  }

  lemma PostBalances(s: Settings, m: Table, e: Event, m': Table, key: string, l: Ledger)
    requires Step(s, m, e, m') && InRange(s, m) && Balanced(m, key, l)
    ensures Balanced(m', key, Post(s, m, e, key, l))
  {
    StepOnKey(s, m, e, m', key);
    hide Step;
    assert Held(m', key) == if Lookup(m', key).Some? then Lookup(m', key).value.tokens else 0.0;
    if key in m {
      assert m[key].tokens >= 0.0;
    }
    if e.key == key {
      AvailableAndCutOff(s, m, key, e.now);
      assert CutOff(s.config, Held(m, key), Credit(s.config, Lookup(m, key), e.now)) >= 0.0;
      hide Available, CutOff, Credit;
      assert Held(m', key) == Spend(Available(s, m, key, e.now));
    }
  }

  /**
   Conservation: the tokens held plus the requests admitted plus the tokens cut off above the capacity plus
   those thrown away with evicted buckets are exactly the credit granted, and neither loss is negative.
   */
  lemma {:induction false} LedgerBalances(s: Settings, states: seq<Table>, trace: seq<Event>, key: string, n: nat)
    requires s.config.rate >= 0.0 && n <= |trace|
    requires IsRun(s, states, trace) && ClockMonotone(trace) && states[0] == map[]
    ensures var l := LedgerOf(s, states, trace, key, n);
      var held := if key in states[n] then states[n][key].tokens else 0.0;
      held + l.spent as real + l.overflow + l.forfeited == l.granted && l.overflow >= 0.0 && l.forfeited >= 0.0
    ensures Balanced(states[n], key, LedgerOf(s, states, trace, key, n))
    ensures LedgerOf(s, states, trace, key, n).spent == Admitted(trace, key, 0, n) == |AdmittedIn(trace, key, 0, n)|
  {
    AdmittedAre(trace, key, 0, n);
    hide AdmittedIn;
    if n > 0 {
      hide Step, InRange, NotAfter, Balanced;
      LedgerBalances(s, states, trace, key, n - 1);
      RunKeepsRange(s, states, trace, n - 1);
      assert StepAt(s, states, trace, n - 1);
      PostBalances(s, states[n - 1], trace[n - 1], states[n], key, LedgerOf(s, states, trace, key, n - 1));
    }
    BalanceIs(states[n], key, LedgerOf(s, states, trace, key, n));
  }

  lemma BalanceIs(m: Table, key: string, l: Ledger)
    requires Balanced(m, key, l)
    ensures var held := if key in m then m[key].tokens else 0.0;
      held + l.spent as real + l.overflow + l.forfeited == l.granted && l.overflow >= 0.0 && l.forfeited >= 0.0
  {
  }
}
