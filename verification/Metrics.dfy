/** The request metrics: two tables of bounded size, each with a first-in first-out eviction queue. */
module Metrics {
  import opened Wrappers

  const MAX_KEYS := 5000

  // ----- Keys and labels -----

  function Decimal(n: nat): string {
    if n < 10 then [('0' as int + n) as char] else Decimal(n / 10) + [('0' as int + n % 10) as char]
  }

  function Shown(n: int): string {
    if n < 0 then "-" + Decimal(-n) else Decimal(n)
  }

  function CountKey(verb: string, path: string, code: int): string {
    verb + ":" + path + ":" + Shown(code)
  }

  function DurationKey(verb: string, path: string): string {
    verb + ":" + path
  }

  datatype Labels = Labels(verb: string, path: string, code: string)

  /** The text before the first colon and the text after it. */
  function Cut(s: string): (string, string) {
    if s == "" then ("", "")
    else if s[0] == ':' then ("", s[1..])
    else
      var (first, rest) := Cut(s[1..]);
      ([s[0]] + first, rest)
  }

  method SplitKey(s: string) returns (first: string, rest: string)
    ensures (first, rest) == Cut(s)
  {
    for i := 0 to |s|
      invariant ':' !in s[..i]
    {
      if s[i] == ':' {
        CutAt(s[..i], s[i + 1..]);
        assert s == s[..i] + ":" + s[i + 1..];
        return s[..i], s[i + 1..];
      }
    }
    assert s[..|s|] == s;
    CutNowhere(s);
    return s, "";
  }

  method LabelsFromKey(key: string) returns (labels: Labels)
    ensures var (verb, rest) := Cut(key); labels == Labels(verb, Cut(rest).0, Cut(rest).1)
  {
    var verb, path, code := "", "", "";
    var remainder := key;
    for i := 0 to 3
      invariant i == 0 ==> remainder == key
      invariant i == 1 ==> (verb, remainder) == Cut(key)
      invariant i >= 2 ==> verb == Cut(key).0 && (path, remainder) == Cut(Cut(key).1)
      invariant i == 3 ==> code == remainder
    {
      if i == 0 {
        verb, remainder := SplitKey(remainder);
      } else if i == 1 {
        path, remainder := SplitKey(remainder);
      } else {
        code := remainder;
      }
    }
    labels := Labels(verb, path, code);
  }

  lemma {:induction false} CutAt(first: string, rest: string)
    requires ':' !in first
    ensures Cut(first + ":" + rest) == (first, rest)
    decreases |first|
  {
    var s := first + ":" + rest;
    if first == "" {
      assert s[1..] == rest;
    } else {
      assert s[1..] == first[1..] + ":" + rest;
      CutAt(first[1..], rest);
      assert [first[0]] + first[1..] == first;
    }
  }

  lemma {:induction false} CutNowhere(s: string)
    requires ':' !in s
    ensures Cut(s) == (s, "")
    decreases |s|
  {
    if s != "" {
      CutNowhere(s[1..]);
      assert [s[0]] + s[1..] == s;
    }
  }

  lemma {:induction false} NoColonBefore(s: string)
    ensures ':' !in Cut(s).0
    decreases |s|
  {
    if s != "" && s[0] != ':' {
      NoColonBefore(s[1..]);
    }
  }

  /** The labels shown are those recorded, for exactly the requests without a colon in method or path. */
  lemma LabelsRoundTrip(verb: string, path: string, code: int)
    ensures var (v, rest) := Cut(CountKey(verb, path, code));
      v == verb && Cut(rest) == (path, Shown(code)) <==> ':' !in verb && ':' !in path
  {
    var key := CountKey(verb, path, code);
    NoColonBefore(key);
    NoColonBefore(Cut(key).1);
    if ':' !in verb {
      assert key == verb + ":" + (path + ":" + Shown(code));
      CutAt(verb, path + ":" + Shown(code));
      if ':' !in path {
        CutAt(path, Shown(code));
      }
    }
  }

  /** Without colons, requests of different method, path or code have different keys. */
  lemma KeysDiffer(verb: string, path: string, code: int, verb': string, path': string, code': int)
    requires ':' !in verb && ':' !in path && ':' !in verb' && ':' !in path'
    requires CountKey(verb, path, code) == CountKey(verb', path', code')
    ensures verb == verb' && path == path' && code == code'
  {
    LabelsRoundTrip(verb, path, code);
    LabelsRoundTrip(verb', path', code');
    ShownOnce(code, code');
  }

  lemma {:induction false} DecimalOnce(m: nat, n: nat)
    requires Decimal(m) == Decimal(n)
    ensures m == n
  {
    DecimalDigits(m);
    DecimalDigits(n);
    if m >= 10 && n >= 10 {
      var a, b := Decimal(m), Decimal(n);
      assert a[..|a| - 1] == Decimal(m / 10) && b[..|b| - 1] == Decimal(n / 10);
      assert a[|a| - 1] == b[|b| - 1];
      DecimalOnce(m / 10, n / 10);
    } else if m >= 10 {
      DecimalDigits(m / 10);
    } else if n >= 10 {
      DecimalDigits(n / 10);
    }
  }

  lemma {:induction false} DecimalDigits(n: nat)
    ensures Decimal(n) != "" && '0' <= Decimal(n)[0] <= '9'
  {
    if n >= 10 {
      DecimalDigits(n / 10);
    }
  }

  lemma ShownOnce(m: int, n: int)
    requires Shown(m) == Shown(n)
    ensures m == n
  {
    DecimalDigits(if m < 0 then -m else m);
    DecimalDigits(if n < 0 then -n else n);
    if m < 0 && n < 0 {
      assert Shown(m)[1..] == Decimal(-m) && Shown(n)[1..] == Decimal(-n);
      DecimalOnce(-m, -n);
    } else if m >= 0 && n >= 0 {
      DecimalOnce(m, n);
    }
  }

  /** The number a text of digits stands for. */
  function Reading(digits: string): int {
    if digits == "" then 0
    else
      var last := digits[|digits| - 1];
      10 * Reading(digits[..|digits| - 1]) + (last as int - '0' as int)
  }

  /** A code is shown by its decimal digits. */
  lemma {:induction false} DecimalReads(n: nat)
    ensures forall c :: c in Decimal(n) ==> '0' <= c <= '9'
    ensures Reading(Decimal(n)) == n
  {
    if n >= 10 {
      DecimalReads(n / 10);
      var front := Decimal(n / 10);
      assert Decimal(n)[..|front|] == front;
    } else {
      assert Decimal(n)[..0] == "";
    }
  }

  lemma KeysRead(verb: string, path: string, code: nat)
    ensures CountKey(verb, path, code) == verb + ":" + path + ":" + Decimal(code)
    ensures DurationKey(verb, path) == verb + ":" + path
  {
  }

  // ----- The tables -----

  datatype Table<V> = Table(cells: map<string, V>, queue: seq<string>)

  /** The queue lists exactly the keys of the table, each once. */
  ghost predicate Listed<V>(t: Table<V>) {
    && (forall i, j :: 0 <= i < j < |t.queue| ==> t.queue[i] != t.queue[j])
    && (forall k :: k in t.queue <==> k in t.cells)
  }

  ghost predicate Bounded<V>(t: Table<V>) {
    Listed(t) && |t.cells| <= MAX_KEYS
  }

  /** The key written, and appended to the queue when it is new. */
  function Written<V>(t: Table<V>, key: string, v: V): Table<V> {
    Table(t.cells[key := v], if key in t.cells then t.queue else t.queue + [key])
  }

  function Dropped<V>(t: Table<V>): Table<V>
    requires t.queue != []
  {
    Table(t.cells - {t.queue[0]}, t.queue[1..])
  }

  /** Whether recording `key` pushes out the oldest key. */
  predicate Overflows<V>(t: Table<V>, key: string) {
    key !in t.cells && |t.cells| >= MAX_KEYS
  }

  function Record<V>(t: Table<V>, key: string, v: V): Table<V> {
    if Overflows(t, key) then Dropped(Written(t, key, v)) else Written(t, key, v)
  }

  function Count(t: Table<nat>, key: string): nat {
    if key in t.cells then t.cells[key] else 0
  }

  function Sum(t: Table<real>, key: string): real {
    if key in t.cells then t.cells[key] else 0.0
  }

  datatype Sample = Sample(key: string, seconds: real)

  function Total(t: Table<real>, sample: Sample): real {
    Sum(t, sample.key) + sample.seconds
  }

  /** The duration table after one more sample. */
  function Added(t: Table<real>, sample: Sample): Table<real> {
    Record(t, sample.key, Total(t, sample))
  }

  class MetricsRegistry {
    var requestCount: map<string, nat>
    var requestDurSum: map<string, real>
    var countEvictOrder: seq<string>
    var durEvictOrder: seq<string>

    function Counts(): Table<nat>
      reads this
    {
      Table(requestCount, countEvictOrder)
    }

    function Durations(): Table<real>
      reads this
    {
      Table(requestDurSum, durEvictOrder)
    }

    ghost predicate Valid()
      reads this
    {
      Bounded(Counts()) && Bounded(Durations())
    }

    constructor ()
      ensures Valid()
      ensures Counts() == Table(map[], []) && Durations() == Table(map[], [])
    {
      requestCount, requestDurSum, countEvictOrder, durEvictOrder := map[], map[], [], [];
    }

    method RecordRequest(verb: string, path: string, statusCode: int, seconds: real)
      requires Valid()
      modifies this
      ensures Valid()
      ensures |requestCount| <= 5000 && |requestDurSum| <= 5000
      ensures var key := CountKey(verb, path, statusCode);
        key in requestCount && Counts() == Record(old(Counts()), key, Count(old(Counts()), key) + 1)
      ensures var key := DurationKey(verb, path);
        key in requestDurSum && Durations() == Added(old(Durations()), Sample(key, seconds))
    {
      hide Listed, Bounded, CountKey, DurationKey, Total;
      ghost var counts, durations := Counts(), Durations();
      var key := CountKey(verb, path, statusCode);
      var durKey := DurationKey(verb, path);
      if key !in requestCount {
        countEvictOrder := countEvictOrder + [key];
      }
      if durKey !in requestDurSum {
        durEvictOrder := durEvictOrder + [durKey];
      }
      requestCount := requestCount[key := (if key in requestCount then requestCount[key] else 0) + 1];
      var total := (if durKey in requestDurSum then requestDurSum[durKey] else 0.0) + seconds;
      requestDurSum := requestDurSum[durKey := total];
      assert Counts() == Written(counts, key, Count(counts, key) + 1);
      assert Durations() == Written(durations, durKey, total);
      TotalIs(durations, durKey, seconds, total);
      hide Written, Record, Dropped, Overflows, Count, Sum;
      WrittenOverflows(counts, key, Count(counts, key) + 1);
      WrittenOverflows(durations, durKey, total);
      EvictCounts();
      EvictDurations();
    }

    /** The first eviction loop; its guard against an empty queue never fires. */
    method EvictCounts()
      requires Listed(Counts()) && |requestCount| <= MAX_KEYS + 1
      modifies this`requestCount, this`countEvictOrder
      ensures old(|requestCount|) > MAX_KEYS ==> old(countEvictOrder) != [] && Counts() == Dropped(old(Counts()))
      ensures old(|requestCount|) <= MAX_KEYS ==> Counts() == old(Counts())
      ensures |requestCount| <= 5000
    {
      ghost var was := Counts();
      OneDrop(was);
      hide Listed;
      while |requestCount| > MAX_KEYS
        invariant Counts() == was || (|was.cells| > MAX_KEYS && Counts() == Dropped(was))
        decreases Counts() == was
      {
        assert Counts() == was;
        assert |countEvictOrder| != 0;
        if |countEvictOrder| == 0 {
          break;
        }
        var oldest := countEvictOrder[0];
        countEvictOrder := countEvictOrder[1..];
        requestCount := requestCount - {oldest};
      }
    }

    method EvictDurations()
      requires Listed(Durations()) && |requestDurSum| <= MAX_KEYS + 1
      modifies this`requestDurSum, this`durEvictOrder
      ensures old(|requestDurSum|) > MAX_KEYS ==> old(durEvictOrder) != [] && Durations() == Dropped(old(Durations()))
      ensures old(|requestDurSum|) <= MAX_KEYS ==> Durations() == old(Durations())
      ensures |requestDurSum| <= 5000
    {
      ghost var was := Durations();
      OneDrop(was);
      hide Listed;
      while |requestDurSum| > MAX_KEYS
        invariant Durations() == was || (|was.cells| > MAX_KEYS && Durations() == Dropped(was))
        decreases Durations() == was
      {
        assert Durations() == was;
        assert |durEvictOrder| != 0;
        if |durEvictOrder| == 0 {
          break;
        }
        var oldest := durEvictOrder[0];
        durEvictOrder := durEvictOrder[1..];
        requestDurSum := requestDurSum - {oldest};
      }
    }
  }

  lemma TotalIs(t: Table<real>, key: string, seconds: real, total: real)
    requires total == (if key in t.cells then t.cells[key] else 0.0) + seconds
    ensures Total(t, Sample(key, seconds)) == total
  {
  }

  lemma NotEmpty<V>(t: Table<V>)
    requires Listed(t)
    ensures |t.cells| > 0 ==> t.queue != []
  {
    if t.queue == [] {
      assert t.cells.Keys == {};
    }
  }

  /** A table that is one too large has an oldest key, and dropping it is enough. */
  lemma OneDrop<V>(t: Table<V>)
    requires Listed(t) && |t.cells| <= MAX_KEYS + 1
    ensures |t.cells| > MAX_KEYS ==> t.queue != [] && |Dropped(t).cells| <= MAX_KEYS
  {
    NotEmpty(t);
    if t.queue != [] {
      DroppedListed(t);
    }
  }

  lemma WrittenListed<V>(t: Table<V>, key: string, v: V)
    requires Listed(t)
    ensures Listed(Written(t, key, v)) && Written(t, key, v).queue != []
    ensures |Written(t, key, v).cells| == if key in t.cells then |t.cells| else |t.cells| + 1
  {
    WrittenKeys(t, key, v);
    var q := Written(t, key, v).queue;
    assert forall k :: k in q <==> k in t.queue || k == key;
  }

  lemma WrittenKeys<V>(t: Table<V>, key: string, v: V)
    ensures Written(t, key, v).cells.Keys == t.cells.Keys + {key}
    ensures |Written(t, key, v).cells| == if key in t.cells then |t.cells| else |t.cells| + 1
  {
    var w := Written(t, key, v);
    assert w.cells.Keys == t.cells.Keys + {key};
    if key in t.cells {
      assert w.cells.Keys == t.cells.Keys;
    }
  }

  lemma DroppedListed<V>(t: Table<V>)
    requires Listed(t) && t.queue != []
    ensures Listed(Dropped(t)) && |Dropped(t).cells| == |t.cells| - 1
  {
    var oldest := t.queue[0];
    assert oldest in t.queue;
    assert Dropped(t).cells.Keys == t.cells.Keys - {oldest};
    forall k
      ensures k in t.queue[1..] <==> k in t.cells && k != oldest
    {
      if k in t.queue && k != oldest {
        var i :| 0 <= i < |t.queue| && t.queue[i] == k;
        assert t.queue[1..][i - 1] == k;
      }
    }
  }

  /** A write makes the table one key too large exactly when it overflows; one drop then suffices. */
  lemma WrittenOverflows<V>(t: Table<V>, key: string, v: V)
    requires Bounded(t)
    ensures Listed(Written(t, key, v)) && Written(t, key, v).queue != []
    ensures |Written(t, key, v).cells| > MAX_KEYS <==> Overflows(t, key)
    ensures |Written(t, key, v).cells| <= MAX_KEYS + 1
    ensures var w := Written(t, key, v); Record(t, key, v) == if |w.cells| > MAX_KEYS then Dropped(w) else w
    ensures Bounded(Record(t, key, v)) && key in Record(t, key, v).cells
  {
    WrittenListed(t, key, v);
    RecordBounded(t, key, v);
    hide Listed, Written, Dropped;
  }

  lemma RecordBounded<V>(t: Table<V>, key: string, v: V)
    requires Bounded(t)
    ensures Bounded(Record(t, key, v)) && key in Record(t, key, v).cells
  {
    hide Listed;
    WrittenListed(t, key, v);
    if Overflows(t, key) {
      WrittenSurvives(t, key);
      DroppedListed(Written(t, key, v));
    }
  }

  lemma WrittenSurvives<V>(t: Table<V>, key: string)
    requires Bounded(t) && Overflows(t, key)
    ensures t.queue != [] && t.queue[0] != key
  {
    NotEmpty(t);
    assert t.queue[0] in t.queue;
  }

  lemma RecordQueue<V>(t: Table<V>, key: string, v: V)
    requires Bounded(t)
    ensures Record(t, key, v).queue == NextQueue(t.queue, key)
  {
    KeysListed(t, key);
    QueueSize(t);
    hide Listed;
    if Overflows(t, key) {
      assert (t.queue + [key])[1..] == t.queue[1..] + [key];
    }
  }

  lemma KeysListed<V>(t: Table<V>, key: string)
    requires Listed(t)
    ensures key in t.queue <==> key in t.cells
  {
  }

  /** The queue after recording `key`. */
  function NextQueue(queue: seq<string>, key: string): seq<string> {
    if key in queue then queue
    else if |queue| < MAX_KEYS then queue + [key]
    else queue[1..] + [key]
  }

  // ----- Whole runs of the count table -----

  /** The table after the requests with these keys. */
  function Counted(keys: seq<string>): Table<nat> {
    if keys == [] then Table(map[], [])
    else
      var before, key := Counted(keys[..|keys| - 1]), keys[|keys| - 1];
      Record(before, key, Count(before, key) + 1)
  }

  lemma {:induction false} CountedBounded(keys: seq<string>)
    ensures Bounded(Counted(keys))
    decreases |keys|
  {
    if keys != [] {
      CountedBounded(keys[..|keys| - 1]);
      var before, key := Counted(keys[..|keys| - 1]), keys[|keys| - 1];
      RecordBounded(before, key, Count(before, key) + 1);
      assert Counted(keys) == Record(before, key, Count(before, key) + 1);
      hide *;
    }
  }

  /** What has been counted for `k` and then evicted. */
  function Evicted(keys: seq<string>, k: string): nat {
    if keys == [] then 0
    else
      var before, key := Counted(keys[..|keys| - 1]), keys[|keys| - 1];
      Evicted(keys[..|keys| - 1], k) +
      if Overflows(before, key) && before.queue != [] && before.queue[0] == k then Count(before, k) else 0
  }

  /** Recording sets one count and evicts at most one. */
  lemma RecordCount(t: Table<nat>, key: string, v: nat, k: string)
    requires Bounded(t)
    ensures Count(Record(t, key, v), k)
      + (if Overflows(t, key) && t.queue != [] && t.queue[0] == k then Count(t, k) else 0)
      == if k == key then v else Count(t, k)
  {
    if Overflows(t, key) {
      WrittenSurvives(t, key);
    }
    hide Listed;
  }

  /** For every key, its live count and its evicted counts add up to its requests. */
  lemma {:induction false} CountsConserved(keys: seq<string>, k: string)
    ensures Count(Counted(keys), k) + Evicted(keys, k) == multiset(keys)[k]
    decreases |keys|
  {
    if keys != [] {
      var front, key := keys[..|keys| - 1], keys[|keys| - 1];
      assert keys == front + [key];
      CountsConserved(front, k);
      CountedBounded(front);
      RecordCount(Counted(front), key, Count(Counted(front), key) + 1, k);
      hide Bounded, Record, Count, Overflows;
    }
  }

  // ----- Whole runs of the duration table -----

  /** The duration table after these samples. */
  function Summed(samples: seq<Sample>): Table<real> {
    if samples == [] then Table(map[], []) else Added(Summed(samples[..|samples| - 1]), samples[|samples| - 1])
  }

  lemma AddedBounded(t: Table<real>, sample: Sample)
    requires Bounded(t)
    ensures Bounded(Added(t, sample))
  {
    hide Bounded, Record, Total;
    RecordBounded(t, sample.key, Total(t, sample));
  }

  lemma {:induction false} SummedBounded(samples: seq<Sample>)
    ensures Bounded(Summed(samples))
    decreases |samples|
  {
    if samples != [] {
      var front, last := samples[..|samples| - 1], samples[|samples| - 1];
      SummedBounded(front);
      AddedBounded(Summed(front), last);
      hide Bounded, Added;
    }
  }

  /** The seconds recorded for `k`. */
  function Recorded(samples: seq<Sample>, k: string): real {
    if samples == [] then 0.0
    else
      var last := samples[|samples| - 1];
      Recorded(samples[..|samples| - 1], k) + if last.key == k then last.seconds else 0.0
  }

  /** The seconds summed for `k` and then evicted. */
  function EvictedSum(samples: seq<Sample>, k: string): real {
    if samples == [] then 0.0
    else
      var before, last := Summed(samples[..|samples| - 1]), samples[|samples| - 1];
      EvictedSum(samples[..|samples| - 1], k) +
      if Overflows(before, last.key) && before.queue != [] && before.queue[0] == k then Sum(before, k) else 0.0
  }

  lemma AddedSum(t: Table<real>, sample: Sample, k: string)
    requires Bounded(t)
    ensures Sum(Added(t, sample), k)
      + (if Overflows(t, sample.key) && t.queue != [] && t.queue[0] == k then Sum(t, k) else 0.0)
      == Sum(t, k) + if k == sample.key then sample.seconds else 0.0
  {
    if Overflows(t, sample.key) {
      WrittenSurvives(t, sample.key);
    }
    hide Listed;
  }

  /** For every key, its live sum and its evicted sums add up to the seconds recorded. */
  lemma {:induction false} SumsConserved(samples: seq<Sample>, k: string)
    ensures Sum(Summed(samples), k) + EvictedSum(samples, k) == Recorded(samples, k)
    decreases |samples|
  {
    if samples != [] {
      var front, last := samples[..|samples| - 1], samples[|samples| - 1];
      SumsConserved(front, k);
      SummedBounded(front);
      AddedSum(Summed(front), last, k);
      hide Bounded, Added, Sum, Overflows;
    }
  }

  // ----- First in, first out -----

  /** The queue after these keys: both tables' queues depend on the keys alone. */
  function QueueAfter(keys: seq<string>): seq<string> {
    if keys == [] then [] else NextQueue(QueueAfter(keys[..|keys| - 1]), keys[|keys| - 1])
  }

  lemma {:induction false} CountedQueue(keys: seq<string>)
    ensures Counted(keys).queue == QueueAfter(keys)
    decreases |keys|
  {
    if keys != [] {
      var front, key := keys[..|keys| - 1], keys[|keys| - 1];
      CountedQueue(front);
      CountedBounded(front);
      RecordQueue(Counted(front), key, Count(Counted(front), key) + 1);
      hide Record, Bounded, NextQueue, Count;
    }
  }

  function KeysOf(samples: seq<Sample>): (keys: seq<string>)
    ensures |keys| == |samples|
  {
    seq(|samples|, i requires 0 <= i < |samples| => samples[i].key)
  }

  lemma KeysOfFront(samples: seq<Sample>)
    requires samples != []
    ensures KeysOf(samples)[..|samples| - 1] == KeysOf(samples[..|samples| - 1])
    ensures KeysOf(samples)[|samples| - 1] == samples[|samples| - 1].key
  {
  }

  lemma {:induction false} SummedQueue(samples: seq<Sample>)
    ensures Summed(samples).queue == QueueAfter(KeysOf(samples))
    decreases |samples|
  {
    if samples != [] {
      var front, last := samples[..|samples| - 1], samples[|samples| - 1];
      SummedQueue(front);
      SummedBounded(front);
      hide Record, Bounded, NextQueue, Total, KeysOf;
      RecordQueue(Summed(front), last.key, Total(Summed(front), last));
      KeysOfFront(samples);
    }
  }

  /** The keys inserted, in order; a key is inserted again after its eviction. */
  function Insertions(keys: seq<string>): seq<string> {
    if keys == [] then []
    else
      var front, key := keys[..|keys| - 1], keys[|keys| - 1];
      if key in QueueAfter(front) then Insertions(front) else Insertions(front) + [key]
  }

  /** The last elements, as many as fit. */
  function Latest(all: seq<string>): seq<string> {
    if |all| <= MAX_KEYS then all else all[|all| - MAX_KEYS..]
  }

  lemma LatestAppend(all: seq<string>, key: string)
    requires key !in Latest(all)
    ensures Latest(all + [key]) == NextQueue(Latest(all), key)
  {
  }

  lemma {:induction false} QueueIsLatest(keys: seq<string>)
    ensures QueueAfter(keys) == Latest(Insertions(keys))
    decreases |keys|
  {
    if keys != [] {
      var front, key := keys[..|keys| - 1], keys[|keys| - 1];
      QueueIsLatest(front);
      if key !in QueueAfter(front) {
        LatestAppend(Insertions(front), key);
      }
    }
  }

  /** First in, first out: the live keys of either table are the latest insertions, as many as fit. */
  lemma LiveAreLatest(keys: seq<string>, samples: seq<Sample>)
    ensures Counted(keys).queue == Latest(Insertions(keys))
    ensures Summed(samples).queue == Latest(Insertions(KeysOf(samples)))
  {
    CountedQueue(keys);
    SummedQueue(samples);
    QueueIsLatest(keys);
    QueueIsLatest(KeysOf(samples));
  }

  lemma QueueSize<V>(t: Table<V>)
    requires Listed(t)
    ensures |t.queue| == |t.cells|
  {
    DistinctSize(t.queue);
    assert (set k | k in t.queue) == t.cells.Keys;
  }

  lemma {:induction false} DistinctSize(s: seq<string>)
    requires forall i, j :: 0 <= i < j < |s| ==> s[i] != s[j]
    ensures |set k | k in s| == |s|
    decreases |s|
  {
    if s != [] {
      var front, last := s[..|s| - 1], s[|s| - 1];
      DistinctSize(front);
      assert s == front + [last];
      assert (set k | k in s) == (set k | k in front) + {last};
    }
  }

  /** While no more than 5000 different keys occur, nothing is evicted and every count is exact. */
  lemma {:induction false} ExactWithinCap(keys: seq<string>, seen: set<string>, k: string)
    requires |seen| <= 5000 && forall i :: 0 <= i < |keys| ==> keys[i] in seen
    ensures Counted(keys).cells.Keys <= seen
    ensures Evicted(keys, k) == 0 && Count(Counted(keys), k) == multiset(keys)[k]
    decreases |keys|
  {
    CountsConserved(keys, k);
    if keys != [] {
      var front, key := keys[..|keys| - 1], keys[|keys| - 1];
      ExactWithinCap(front, seen, k);
      var before := Counted(front);
      if key !in before.cells {
        SubsetSize(before.cells.Keys + {key}, seen);
      }
    }
  }
}
