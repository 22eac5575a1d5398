/**
 Routing of records to pipelines by their keys, and batching on the way: orchestrate/obykeyset and
 util/localcachedmap, on values.
 */
module RoutingSpec {
  import opened Bytes

  type Key = seq<byte>

  datatype Record = Record(fields: seq<seq<byte>>, rawLength: nat)

  const MAX_NUM_LOGS := 500
  const MAX_TOTAL_BYTES := 4 * 1024 * 1024
  const FLUSH_INTERVAL := 1_000_000_000 // nanoseconds

  // Keys

  /** The merged key: all keys with nothing between them. */
  function Merge(keys: seq<seq<byte>>): Key {
    if keys == [] then [] else Merge(keys[..|keys| - 1]) + keys[|keys| - 1]
  }

  predicate Located(locators: seq<nat>, r: Record) {
    forall i | 0 <= i < |locators| :: locators[i] < |r.fields|
  }

  predicate AllLocated(locators: seq<nat>, records: seq<Record>) {
    forall i | 0 <= i < |records| :: Located(locators, records[i])
  }

  function Extract(locators: seq<nat>, r: Record): (keys: seq<seq<byte>>)
    requires Located(locators, r)
    ensures |keys| == |locators|
  {
    seq(|locators|, i requires 0 <= i < |locators| => r.fields[locators[i]])
  }

  function KeyOf(locators: seq<nat>, r: Record): Key
    requires Located(locators, r)
  {
    Merge(Extract(locators, r))
  }

  lemma {:induction false} MergeAppends(a: seq<seq<byte>>, b: seq<seq<byte>>)
    ensures Merge(a + b) == Merge(a) + Merge(b)
  {
    if b == [] {
      assert a + b == a;
    } else {
      var n := |b| - 1;
      assert (a + b)[..|a| + n] == a + b[..n];
      MergeAppends(a, b[..n]);
    }
  }

  lemma MergeOfTwo(x: seq<byte>, y: seq<byte>)
    ensures Merge([x, y]) == x + y
  {
    assert [x, y][..1] == [x] && [x][..0] == [];
    assert Merge([x]) == [] + x == x;
  }

  /**
   Different key tuples can share a pipeline: any two neighbouring keys of any tuple may be cut at any other place.
   */
  lemma MergedKeysCollide(before: seq<seq<byte>>, x: seq<byte>, moved: seq<byte>, y: seq<byte>, after: seq<seq<byte>>)
    ensures Merge(before + [x, moved + y] + after) == Merge(before + [x + moved, y] + after)
    ensures moved != [] ==> before + [x, moved + y] + after != before + [x + moved, y] + after
  {
    var k, l := [x, moved + y], [x + moved, y];
    MergeAppends(before + k, after);
    MergeAppends(before + l, after);
    MergeAppends(before, k);
    MergeAppends(before, l);
    MergeOfTwo(x, moved + y);
    MergeOfTwo(x + moved, y);
    Regroup(x, moved, y);
    if moved != [] {
      assert (before + k + after)[|before|] == x && (before + l + after)[|before|] == x + moved;
      assert |x| != |x + moved|;
    }
  }

  /** Tuples of the same lengths do not. */
  lemma {:induction false} MergedKeysDiffer(k: seq<seq<byte>>, l: seq<seq<byte>>)
    requires |k| == |l| && forall i | 0 <= i < |k| :: |k[i]| == |l[i]|
    ensures Merge(k) == Merge(l) <==> k == l
  {
    if k != [] {
      var n := |k| - 1;
      var x, y := Merge(k[..n]), Merge(l[..n]);
      if Merge(k) == Merge(l) {
        MergedLength(k[..n], l[..n]);
        assert x == Merge(k)[..|x|] && y == Merge(l)[..|y|];
        assert k[n] == Merge(k)[|x|..] && l[n] == Merge(l)[|y|..];
        MergedKeysDiffer(k[..n], l[..n]);
        assert k == k[..n] + [k[n]] && l == l[..n] + [l[n]];
      }
    }
  }

  lemma {:induction false} MergedLength(k: seq<seq<byte>>, l: seq<seq<byte>>)
    requires |k| == |l| && forall i | 0 <= i < |k| :: |k[i]| == |l[i]|
    ensures |Merge(k)| == |Merge(l)|
  {
    if k != [] {
      MergedLength(k[..|k| - 1], l[..|l| - 1]);
    }
  }

  // One buffer

  /** What a sink keeps for one pipeline: batches sent so far and the pending one. */
  datatype Cache = Cache(sent: seq<seq<Record>>, pending: seq<Record>, bytes: nat, lastFlush: int)

  function NewCache(now: int): Cache {
    Cache([], [], 0, now)
  }

  function Append(c: Cache, r: Record): Cache {
    c.(pending := c.pending + [r], bytes := c.bytes + r.rawLength)
  }

  predicate Full(c: Cache) {
    c.bytes >= MAX_TOTAL_BYTES || |c.pending| >= MAX_NUM_LOGS
  }

  function Flush(c: Cache, now: int): Cache {
    Cache(c.sent + [c.pending], [], 0, now)
  }

  function Put(c: Cache, r: Record, now: int): Cache {
    if Full(Append(c, r)) then Flush(Append(c, r), now) else Append(c, r)
  }

  // One sink

  type Caches = map<Key, Cache>

  /** When the cache of a key is created, if that is necessary. */
  type Clock = Key -> int

  function AcceptOne(m: Caches, key: Key, r: Record, now: int, created: Clock): Caches {
    m[key := Put(if key in m then m[key] else NewCache(created(key)), r, now)]
  }

  /** First the cache is found or created, then the record is put into it. */
  lemma AcceptOneInTwo(m: Caches, key: Key, r: Record, now: int, created: Clock)
    ensures var found := m[key := if key in m then m[key] else NewCache(created(key))];
            found[key := Put(found[key], r, now)] == AcceptOne(m, key, r, now, created)
  {
  }

  function AcceptAll(m: Caches, locators: seq<nat>, records: seq<Record>, now: int, created: Clock): Caches
    requires AllLocated(locators, records)
    decreases |records|
  {
    if records == [] then m
    else
      var last := records[|records| - 1];
      AcceptOne(AcceptAll(m, locators, records[..|records| - 1], now, created), KeyOf(locators, last), last, now, created)
  }

  predicate Due(c: Cache, now: int, force: bool) {
    c.pending != [] && (force || now - c.lastFlush >= FLUSH_INTERVAL)
  }

  function FlushIfDue(c: Cache, now: int, force: bool): Cache {
    if Due(c, now, force) then Flush(c, now) else c
  }

  function FlushAll(m: Caches, now: int, force: bool): Caches {
    map key | key in m :: FlushIfDue(m[key], now, force)
  }

  /** In the middle of a walk, with these keys still to come. */
  ghost predicate Walked(before: Caches, m: Caches, rest: set<Key>, now: int, force: bool) {
    && m.Keys == before.Keys
    && forall key | key in m :: m[key] == if key in rest then before[key] else FlushIfDue(before[key], now, force)
  }

  lemma WalkOne(before: Caches, m: Caches, rest: set<Key>, key: Key, now: int, force: bool)
    requires Walked(before, m, rest, now, force) && key in rest && key in m
    ensures Walked(before, m[key := FlushIfDue(m[key], now, force)], rest - {key}, now, force)
  {
  }

  lemma WalkDone(before: Caches, m: Caches, now: int, force: bool)
    requires Walked(before, m, {}, now, force)
    ensures m == FlushAll(before, now, force)
  {
  }

  /** The calls of a sink's owner. */
  datatype Call = Accept(records: seq<Record>, created: Clock) | Tick | Close

  predicate Callable(locators: seq<nat>, call: Call) {
    call.Accept? ==> AllLocated(locators, call.records)
  }

  function Apply(m: Caches, locators: seq<nat>, call: Call, now: int): Caches
    requires Callable(locators, call)
  {
    match call
    case Accept(records, created) => AcceptAll(m, locators, records, now, created)
    case Tick => FlushAll(m, now, false)
    case Close => FlushAll(m, now, true)
  }

  /** The caches after some calls, each at its time. */
  function Run(locators: seq<nat>, calls: seq<(Call, int)>): Caches
    requires forall i | 0 <= i < |calls| :: Callable(locators, calls[i].0)
    decreases |calls|
  {
    if calls == [] then map[]
    else
      var (call, now) := calls[|calls| - 1];
      Apply(Run(locators, calls[..|calls| - 1]), locators, call, now)
  }

  // What is promised

  function Concat(batches: seq<seq<Record>>): seq<Record> {
    if batches == [] then [] else Concat(batches[..|batches| - 1]) + batches[|batches| - 1]
  }

  /** The records of one key, in order. */
  function Routed(locators: seq<nat>, records: seq<Record>, key: Key): seq<Record>
    requires AllLocated(locators, records)
    decreases |records|
  {
    if records == [] then []
    else
      var last := records[|records| - 1];
      Routed(locators, records[..|records| - 1], key) + if KeyOf(locators, last) == key then [last] else []
  }

  /** All records a sink was given. */
  function Accepted(calls: seq<(Call, int)>): seq<Record> {
    if calls == [] then []
    else
      var call := calls[|calls| - 1].0;
      Accepted(calls[..|calls| - 1]) + if call.Accept? then call.records else []
  }

  function TotalBytes(records: seq<Record>): nat {
    if records == [] then 0 else TotalBytes(records[..|records| - 1]) + records[|records| - 1].rawLength
  }

  /** All records of the key: those sent in batches, then the pending ones. */
  function Through(m: Caches, key: Key): seq<Record> {
    if key in m then Concat(m[key].sent) + m[key].pending else []
  }

  /** Not empty, within the limit of records, and over the limit of bytes by its last record at most. */
  ghost predicate GoodBatch(batch: seq<Record>) {
    0 < |batch| <= MAX_NUM_LOGS && TotalBytes(batch[..|batch| - 1]) < MAX_TOTAL_BYTES
  }

  ghost predicate GoodCache(c: Cache) {
    && c.bytes == TotalBytes(c.pending) < MAX_TOTAL_BYTES && |c.pending| < MAX_NUM_LOGS
    && forall i | 0 <= i < |c.sent| :: GoodBatch(c.sent[i])
  }

  ghost predicate Good(m: Caches) {
    forall key | key in m :: GoodCache(m[key])
  }

  lemma FlushGoesThrough(c: Cache, now: int)
    ensures Concat(Flush(c, now).sent) + Flush(c, now).pending == Concat(c.sent) + c.pending
  {
    assert Flush(c, now).sent[..|c.sent|] == c.sent;
  }

  lemma PutGoesThrough(c: Cache, r: Record, now: int)
    ensures Concat(Put(c, r, now).sent) + Put(c, r, now).pending == Concat(c.sent) + c.pending + [r]
  {
    Regroup(Concat(c.sent), c.pending, [r]);
    FlushGoesThrough(Append(c, r), now);
  }

  lemma PutKeepsGood(c: Cache, r: Record, now: int)
    requires GoodCache(c)
    ensures GoodCache(Put(c, r, now))
  {
  }

  lemma {:induction false} AcceptAllRoutes(m: Caches, locators: seq<nat>, records: seq<Record>, now: int,
                                           created: Clock, key: Key)
    requires AllLocated(locators, records)
    ensures Through(AcceptAll(m, locators, records, now, created), key) ==
            Through(m, key) + Routed(locators, records, key)
    decreases |records|
  {
    if records == [] {
      assert Through(m, key) + [] == Through(m, key);
    } else {
      var before, last := records[..|records| - 1], records[|records| - 1];
      AcceptAllRoutes(m, locators, before, now, created, key);
      var m' := AcceptAll(m, locators, before, now, created);
      var k := KeyOf(locators, last);
      PutGoesThrough(if k in m' then m'[k] else NewCache(created(k)), last, now);
      if k == key {
        Regroup(Through(m, key), Routed(locators, before, key), [last]);
      } else {
        Regroup(Through(m, key), Routed(locators, before, key), []);
      }
    }
  }

  lemma {:induction false} AcceptAllKeepsGood(m: Caches, locators: seq<nat>, records: seq<Record>, now: int,
                                              created: Clock)
    requires Good(m) && AllLocated(locators, records)
    ensures Good(AcceptAll(m, locators, records, now, created))
    decreases |records|
  {
    if records != [] {
      var before, last := records[..|records| - 1], records[|records| - 1];
      AcceptAllKeepsGood(m, locators, before, now, created);
      var m' := AcceptAll(m, locators, before, now, created);
      var k := KeyOf(locators, last);
      PutKeepsGood(if k in m' then m'[k] else NewCache(created(k)), last, now);
    }
  }

  lemma {:induction false} RoutedAppends(locators: seq<nat>, a: seq<Record>, b: seq<Record>, key: Key)
    requires AllLocated(locators, a + b)
    requires AllLocated(locators, a)
    requires AllLocated(locators, b)
    ensures Routed(locators, a + b, key) == Routed(locators, a, key) + Routed(locators, b, key)
    decreases |b|
  {
    if b == [] {
      assert a + b == a;
    } else {
      var n := |b| - 1;
      assert (a + b)[..|a| + n] == a + b[..n];
      RoutedAppends(locators, a, b[..n], key);
      Regroup(Routed(locators, a, key), Routed(locators, b[..n], key), if KeyOf(locators, b[n]) == key then [b[n]] else []);
    }
  }

  lemma {:induction false} AcceptedLocated(locators: seq<nat>, calls: seq<(Call, int)>)
    requires forall i | 0 <= i < |calls| :: Callable(locators, calls[i].0)
    ensures AllLocated(locators, Accepted(calls))
  {
    if calls != [] {
      var before := calls[..|calls| - 1];
      AcceptedLocated(locators, before);
      assert Callable(locators, calls[|calls| - 1].0);
    }
  }

  /** Whatever a sink is told to do, the batches of a key and the pending records are the records of the key in order. */
  lemma {:induction false} EveryRecordGoesThrough(locators: seq<nat>, calls: seq<(Call, int)>, key: Key)
    requires forall i | 0 <= i < |calls| :: Callable(locators, calls[i].0)
    requires AllLocated(locators, Accepted(calls))
    ensures Through(Run(locators, calls), key) == Routed(locators, Accepted(calls), key)
    decreases |calls|
  {
    if calls == [] {
    } else {
      var before := calls[..|calls| - 1];
      var (call, now) := calls[|calls| - 1];
      AcceptedLocated(locators, before);
      EveryRecordGoesThrough(locators, before, key);
      assert Accepted(before) + [] == Accepted(before);
      var m := Run(locators, before);
      match call
      case Accept(records, created) =>
        AcceptAllRoutes(m, locators, records, now, created, key);
        RoutedAppends(locators, Accepted(before), records, key);
      case Tick => FlushAllGoesThrough(m, now, false, key);
      case Close => FlushAllGoesThrough(m, now, true, key);
    }
  }

  lemma FlushAllGoesThrough(m: Caches, now: int, force: bool, key: Key)
    ensures Through(FlushAll(m, now, force), key) == Through(m, key)
  {
    if key in m {
      FlushGoesThrough(m[key], now);
    }
  }

  lemma FlushAllKeepsGood(m: Caches, now: int, force: bool)
    requires Good(m)
    ensures Good(FlushAll(m, now, force))
  {
  }

  /** All batches ever sent are good, and what is pending is below both limits. */
  lemma {:induction false} BatchesAreGood(locators: seq<nat>, calls: seq<(Call, int)>)
    requires forall i | 0 <= i < |calls| :: Callable(locators, calls[i].0)
    ensures Good(Run(locators, calls))
    decreases |calls|
  {
    if calls == [] {
    } else {
      var before := calls[..|calls| - 1];
      var (call, now) := calls[|calls| - 1];
      BatchesAreGood(locators, before);
      var m := Run(locators, before);
      match call
      case Accept(records, created) => AcceptAllKeepsGood(m, locators, records, now, created);
      case Tick => FlushAllKeepsGood(m, now, false);
      case Close => FlushAllKeepsGood(m, now, true);
    }
  }

  /** After Close everything accepted has been sent. */
  lemma CloseSendsAll(locators: seq<nat>, calls: seq<(Call, int)>, key: Key)
    requires |calls| > 0 && calls[|calls| - 1].0.Close?
    requires forall i | 0 <= i < |calls| :: Callable(locators, calls[i].0)
    requires AllLocated(locators, Accepted(calls))
    ensures var m := Run(locators, calls);
            && (key in m ==> m[key].pending == [] && Concat(m[key].sent) == Routed(locators, Accepted(calls), key))
            && (key !in m ==> Routed(locators, Accepted(calls), key) == [])
  {
    EveryRecordGoesThrough(locators, calls, key);
  }

  /** After Tick nothing has been waiting for the flush interval or longer. */
  lemma TickSendsDue(locators: seq<nat>, calls: seq<(Call, int)>, key: Key)
    requires |calls| > 0 && calls[|calls| - 1].0.Tick?
    requires forall i | 0 <= i < |calls| :: Callable(locators, calls[i].0)
    ensures var m, now := Run(locators, calls), calls[|calls| - 1].1;
            key in m && m[key].pending != [] ==> now - m[key].lastFlush < FLUSH_INTERVAL
  {
  }
}
