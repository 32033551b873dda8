/**
 The Redis rate limiter: an atomic script over two expiring keys per bucket. `Eval` runs the script
 against a store of expiring entries; the specification sees one cell per bucket.
 */
module RedisLimiter {
  import opened TokenBucket
  import opened Wrappers

  /** A stored number; Redis forgets it once its clock has passed `expiresAt` milliseconds. */
  datatype Entry = Entry(value: real, expiresAt: int)

  type Store = map<string, Entry>

  /** What the two keys of a bucket hold together. */
  datatype Cell = Cell(tokens: real, lastRefillMs: int, expiresAt: int)

  /** Reply of the script: the decision and the whole tokens left. */
  datatype Reply = Reply(allowed: bool, remaining: int)

  const TOKENS := ":tokens"
  const LAST_REFILL := ":last_refill"

  function Get(store: Store, key: string, serverMs: int): Option<real> {
    if key in store && serverMs <= store[key].expiresAt then Some(store[key].value) else None
  }

  // ----- The two keys of a bucket -----

  /** The two keys of a bucket were written by the same script run, so they live and die together. */
  ghost predicate Paired(store: Store, key: string) {
    && (key + TOKENS in store <==> key + LAST_REFILL in store)
    && (key + TOKENS in store ==>
          && store[key + TOKENS].expiresAt == store[key + LAST_REFILL].expiresAt
          && store[key + LAST_REFILL].value == store[key + LAST_REFILL].value.Floor as real)
  }

  ghost predicate WellPaired(store: Store) {
    forall key: string :: Paired(store, key)
  }

  ghost function CellOf(store: Store, key: string): Option<Cell>
    requires Paired(store, key)
  {
    if key + TOKENS in store then
      Some(Cell(store[key + TOKENS].value, store[key + LAST_REFILL].value.Floor, store[key + TOKENS].expiresAt))
    else
      None
  }

  lemma SuffixInjective(a: string, b: string, suffix: string)
    requires a + suffix == b + suffix
    ensures a == b
  {
    assert |a| == |b|;
    assert a == (a + suffix)[..|a|] == (b + suffix)[..|b|] == b;
  }

  /** No bucket's token key is any bucket's refill key. */
  lemma SuffixesDiffer(a: string, b: string)
    ensures a + TOKENS != b + LAST_REFILL
  {
    var x, y := a + TOKENS, b + LAST_REFILL;
    assert x[|x| - 1] == 's' && y[|y| - 1] == 'l';
  }

  ghost function Written(store: Store, key: string, c: Cell): Store {
    store[key + TOKENS := Entry(c.tokens, c.expiresAt)]
         [key + LAST_REFILL := Entry(c.lastRefillMs as real, c.expiresAt)]
  }

  /** Writing the two keys of one bucket changes that cell and no other. */
  lemma WriteFrame(store: Store, key: string, c: Cell)
    requires WellPaired(store)
    ensures WellPaired(Written(store, key, c))
    ensures CellOf(Written(store, key, c), key) == Some(c)
    ensures forall other :: other != key ==> CellOf(Written(store, key, c), other) == CellOf(store, other)
  {
    var store' := Written(store, key, c);
    SuffixesDiffer(key, key);
    forall other: string
      ensures Paired(store', other)
      ensures other == key ==> CellOf(store', other) == Some(c)
      ensures other != key ==> CellOf(store', other) == CellOf(store, other)
    {
      assert Paired(store, other);
      SuffixesDiffer(key, other);
      SuffixesDiffer(other, key);
      if other != key {
        if other + TOKENS == key + TOKENS { SuffixInjective(other, key, TOKENS); }
        if other + LAST_REFILL == key + LAST_REFILL { SuffixInjective(other, key, LAST_REFILL); }
      }
    }
  }

  // ----- The script -----

  /** The cell the script sees: none when the keys are missing or have expired. */
  ghost function Live(cell: Option<Cell>, serverMs: int): Option<Cell> {
    if cell.Some? && serverMs <= cell.value.expiresAt then cell else None
  }

  /** The tokens available to a request at `nowMs`. */
  ghost function Available(c: Config, live: Option<Cell>, nowMs: int): real {
    match live
    case None => c.capacity as real
    case Some(cell) => Refill(c, cell.tokens, Seconds(nowMs - cell.lastRefillMs))
  }

  function Seconds(ms: int): real {
    ms as real / 1000.0
  }

  ghost function Script(c: Config, ttlSeconds: int, live: Option<Cell>, nowMs: int, serverMs: int): Cell {
    Cell(Spend(Available(c, live, nowMs)), nowMs, serverMs + ttlSeconds * 1000)
  }

  datatype Event = Event(key: string, nowMs: int, serverMs: int, admitted: bool)

  type Cells = map<string, Cell>

  ghost function Lookup(m: Cells, key: string): Option<Cell> {
    if key in m then Some(m[key]) else None
  }

  ghost predicate Step(c: Config, ttlSeconds: int, m: Cells, e: Event, m': Cells) {
    var live := Live(Lookup(m, e.key), e.serverMs);
    && e.admitted == CanSpend(Available(c, live, e.nowMs))
    && m' == m[e.key := Script(c, ttlSeconds, live, e.nowMs, e.serverMs)]
  }

  class RateLimiter {
    const config: Config
    const ttlSeconds: int
    var store: Store
    ghost var cells: Cells

    /** `cells` is what the flat key space of the store holds, bucket by bucket. */
    ghost predicate Valid()
      reads this
    {
      && WellPaired(store)
      && forall key: string :: CellOf(store, key) == Lookup(cells, key)
    }

    constructor (config: Config, ttlSeconds: int)
      ensures Valid() && this.config == config && this.ttlSeconds == ttlSeconds && cells == map[]
    {
      this.config := config;
      this.ttlSeconds := ttlSeconds;
      store := map[];
      cells := map[];
    }

    /**
     One atomic run of the script. `nowMs` is the clock of the calling server and `serverMs` the
     clock Redis expires keys by. Redis refuses an expiry of zero seconds or less before anything is
     written; the caller then fails closed.
     */
    method Eval(key: string, nowMs: int, serverMs: int) returns (reply: Result<Reply, string>)
      requires Valid()
      modifies this`store, this`cells
      ensures Valid()
      ensures reply.Err? <==> ttlSeconds <= 0
      ensures reply.Err? ==> store == old(store) && cells == old(cells)
      ensures reply.Ok? ==>
        && Step(config, ttlSeconds, old(cells), Event(key, nowMs, serverMs, reply.value.allowed), cells)
        && reply.value.remaining == cells[key].tokens.Floor
        && store.Keys == old(store).Keys + {key + ":tokens", key + ":last_refill"}
    {
      assert Paired(store, key) && CellOf(store, key) == Lookup(cells, key);
      ghost var live := Live(CellOf(store, key), serverMs);
      var stored := Get(store, key + TOKENS, serverMs);
      var storedRefill := Get(store, key + LAST_REFILL, serverMs);
      var tokens, lastRefill: real;
      if stored == None {
        tokens := config.capacity as real;
        lastRefill := nowMs as real;
      } else {
        tokens, lastRefill := stored.value, storedRefill.value;
      }
      var elapsedMs := nowMs as real - lastRefill;
      var refillTokens := elapsedMs * config.rate / 1000.0;
      ScriptArithmetic(config, live, nowMs, tokens, elapsedMs, refillTokens);
      hide Available, Live, Refill, Seconds;
      tokens := if config.capacity as real <= tokens + refillTokens then config.capacity as real
        else tokens + refillTokens;
      assert tokens == Available(config, live, nowMs);
      var allowed := false;
      if tokens >= 1.0 {
        tokens := tokens - 1.0;
        allowed := true;
      }
      if ttlSeconds <= 0 {
        return Err("ERR invalid expire time in 'set' command");
      }
      var expiresAt := serverMs + ttlSeconds * 1000;
      WriteFrame(store, key, Cell(tokens, nowMs, expiresAt));
      store := store[key + TOKENS := Entry(tokens, expiresAt)];
      store := store[key + LAST_REFILL := Entry(nowMs as real, expiresAt)];
      cells := cells[key := Cell(tokens, nowMs, expiresAt)];
      return Ok(Reply(allowed, tokens.Floor));
    }
  }

  lemma ScriptArithmetic(c: Config, live: Option<Cell>, nowMs: int, tokens: real, elapsedMs: real, refillTokens: real)
    requires live.Some? ==> tokens == live.value.tokens && elapsedMs == nowMs as real - live.value.lastRefillMs as real
    requires live.None? ==> tokens == c.capacity as real && elapsedMs == 0.0
    requires refillTokens == elapsedMs * c.rate / 1000.0
    ensures Available(c, live, nowMs)
      == if c.capacity as real <= tokens + refillTokens then c.capacity as real else tokens + refillTokens
  {
    PerMillisecond(elapsedMs, c.rate);
  }

  lemma PerMillisecond(elapsedMs: real, rate: real)
    ensures elapsedMs * rate / 1000.0 == elapsedMs / 1000.0 * rate
  {
  }

  // ----- Every trace of script runs -----

  ghost predicate StepAt(c: Config, ttlSeconds: int, states: seq<Cells>, trace: seq<Event>, i: nat)
    requires |states| == |trace| + 1 && i < |trace|
  {
    Step(c, ttlSeconds, states[i], trace[i], states[i + 1])
  }

  ghost predicate IsRun(c: Config, ttlSeconds: int, states: seq<Cells>, trace: seq<Event>) {
    && |states| == |trace| + 1
    && forall i :: 0 <= i < |trace| ==> StepAt(c, ttlSeconds, states, trace, i)
  }

  // ----- The bound under clock skew -----

  /** No request finds its bucket expired. */
  ghost predicate NothingExpires(states: seq<Cells>, trace: seq<Event>)
    requires |states| == |trace| + 1
  {
    forall i :: 0 <= i < |trace| && trace[i].key in states[i] ==>
      trace[i].serverMs <= states[i][trace[i].key].expiresAt
  }

  ghost function Admitted(trace: seq<Event>, key: string, n: nat): nat
    requires n <= |trace|
  {
    if n == 0 then 0
    else Admitted(trace, key, n - 1) + if trace[n - 1].key == key && trace[n - 1].admitted then 1 else 0
  }

  /** The admitted requests for a key among the first `n`. */
  ghost function AdmittedUpTo(trace: seq<Event>, key: string, n: nat): set<nat>
    requires n <= |trace|
  {
    set i: nat | i < n && trace[i].key == key && trace[i].admitted
  }

  lemma {:induction false} AdmittedCounts(trace: seq<Event>, key: string, n: nat)
    requires n <= |trace|
    ensures Admitted(trace, key, n) == |AdmittedUpTo(trace, key, n)|
  {
    if n > 0 {
      AdmittedCounts(trace, key, n - 1);
      var before := AdmittedUpTo(trace, key, n - 1);
      assert AdmittedUpTo(trace, key, n) ==
        if trace[n - 1].key == key && trace[n - 1].admitted then before + {n - 1} else before;
    } else {
      assert AdmittedUpTo(trace, key, 0) == {};
    }
  }

  ghost predicate FirstRequest(trace: seq<Event>, key: string, first: nat) {
    && first < |trace| && trace[first].key == key
    && forall i :: 0 <= i < first ==> trace[i].key != key
  }

  /** Tokens held plus requests admitted never exceed the capacity plus the (signed) refill so far. */
  ghost predicate SkewInvariant(c: Config, startMs: int, admitted: nat, cell: Option<Cell>) {
    match cell
    case None => admitted == 0
    case Some(b) => admitted as real + b.tokens <= c.capacity as real + Seconds(b.lastRefillMs - startMs) * c.rate
  }

  lemma SkewStep(c: Config, ttlSeconds: int, startMs: int, admitted: nat, cell: Option<Cell>, nowMs: int, serverMs: int)
    requires SkewInvariant(c, startMs, admitted, cell)
    requires cell.None? ==> nowMs == startMs
    ensures var available := Available(c, cell, nowMs);
      SkewInvariant(c, startMs, admitted + (if CanSpend(available) then 1 else 0),
                    Some(Script(c, ttlSeconds, cell, nowMs, serverMs)))
  {
    if cell.Some? {
      var was := cell.value.lastRefillMs;
      assert Seconds(nowMs - startMs) == Seconds(was - startMs) + Seconds(nowMs - was);
      SecondsDistribute(was - startMs, nowMs - was, c.rate);
    }
  }

  lemma SecondsDistribute(a: int, b: int, rate: real)
    ensures Seconds(a + b) * rate == Seconds(a) * rate + Seconds(b) * rate
  {
    assert Seconds(a + b) == Seconds(a) + Seconds(b);
  }

  lemma {:induction false} SkewInvariantHolds(c: Config, ttlSeconds: int, states: seq<Cells>, trace: seq<Event>,
                                              key: string, first: nat, n: nat)
    requires IsRun(c, ttlSeconds, states, trace) && NothingExpires(states, trace) && states[0] == map[]
    requires FirstRequest(trace, key, first) && n <= |trace|
    ensures SkewInvariant(c, trace[first].nowMs, Admitted(trace, key, n), Lookup(states[n], key))
    ensures key in states[n] <==> first < n
  {
    if n > 0 {
      SkewInvariantHolds(c, ttlSeconds, states, trace, key, first, n - 1);
      assert StepAt(c, ttlSeconds, states, trace, n - 1);
      var m, e := states[n - 1], trace[n - 1];
      if e.key == key {
        assert Live(Lookup(m, key), e.serverMs) == Lookup(m, key);
        hide SkewInvariant;
        SkewStep(c, ttlSeconds, trace[first].nowMs, Admitted(trace, key, n - 1), Lookup(m, key), e.nowMs, e.serverMs);
      }
    }
  }

  /**
   Whatever the clocks of the calling servers say, even when they run backwards between requests, the
   requests admitted for a key up to and including an admitted one number at most
   capacity + rate * (its clock reading - the first clock reading for that key).
   */
  lemma SkewBound(c: Config, ttlSeconds: int, states: seq<Cells>, trace: seq<Event>, key: string, first: nat, last: nat)
    requires IsRun(c, ttlSeconds, states, trace) && NothingExpires(states, trace) && states[0] == map[]
    requires FirstRequest(trace, key, first)
    requires last < |trace| && trace[last].key == key && trace[last].admitted
    ensures |AdmittedUpTo(trace, key, last + 1)| as real
         <= c.capacity as real + (trace[last].nowMs - trace[first].nowMs) as real / 1000.0 * c.rate
  {
    AdmittedCounts(trace, key, last + 1);
    SkewInvariantHolds(c, ttlSeconds, states, trace, key, first, last + 1);
    assert StepAt(c, ttlSeconds, states, trace, last);
    var cell := Lookup(states[last + 1], key);
    AdmittedLeaves(c, ttlSeconds, states[last], trace[last], states[last + 1]);
    assert SkewInvariant(c, trace[first].nowMs, Admitted(trace, key, last + 1), cell);
    hide IsRun, NothingExpires, StepAt, Step, Lookup, Admitted, AdmittedUpTo, FirstRequest;
  }

  /** A request that was admitted leaves a cell of its time, not below zero. */
  lemma AdmittedLeaves(c: Config, ttlSeconds: int, m: Cells, e: Event, m': Cells)
    requires Step(c, ttlSeconds, m, e, m') && e.admitted
    ensures var cell := Lookup(m', e.key); cell.Some? && cell.value.tokens >= 0.0 && cell.value.lastRefillMs == e.nowMs
  {
    hide Available, Live;
  }
}
