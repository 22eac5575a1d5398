/** The objects of orchestrate/obykeyset and util/localcachedmap that do what RoutingSpec says. */
module KeyRouting {
  import opened Bytes
  import opened RoutingSpec

  /** What goes through a channel; the program does not keep who has sent it. */
  datatype Message = Message(logs: array<Record>, ghost sender: ChannelInputBuffer)

  /** The channel to the workers of one pipeline, with everything that was ever sent; sending never times out. */
  class Pipeline {
    ghost const key: Key
    var batches: seq<Message>

    constructor (ghost key: Key)
      ensures batches == [] && this.key == key
    {
      this.key := key;
      batches := [];
    }
  }

  /** The batches that one of the senders has sent. */
  ghost function SentBy(batches: seq<Message>, who: ChannelInputBuffer): seq<array<Record>> {
    if batches == [] then []
    else
      var n := |batches| - 1;
      SentBy(batches[..n], who) + if batches[n].sender == who then [batches[n].logs] else []
  }

  /** Sending adds to what the sender has sent, and to that of no other. */
  lemma SentByOne(batches: seq<Message>, message: Message, who: ChannelInputBuffer)
    ensures SentBy(batches + [message], who)
            == SentBy(batches, who) + if message.sender == who then [message.logs] else []
  {
    assert (batches + [message])[..|batches|] == batches;
  }

  /** Read in order, the arrays contain these batches. */
  ghost predicate Contain(arrays: seq<array<Record>>, batches: seq<seq<Record>>)
    reads arrays
  {
    |arrays| == |batches| && forall i | 0 <= i < |arrays| :: arrays[i][..] == batches[i]
  }

  /** Go's way of duplicating a slice. */
  method CopyLogBuffer(slice: array<Record>, n: nat) returns (copy: array<Record>)
    requires n <= slice.Length
    ensures fresh(copy) && copy[..] == slice[..n]
  {
    copy := new Record[n](i requires 0 <= i < n reads slice => slice[i]);
  }

  class ChannelInputBuffer {
    ghost const key: Key
    const channel: Pipeline
    const pendingLogs: array<Record> // used again after every flush
    var numLogs: nat
    var pendingBytes: nat
    var lastFlushTime: int
    ghost var sent: seq<seq<Record>>
    ghost var mine: seq<array<Record>>

    constructor (channel: Pipeline, now: int, ghost key: Key)
      ensures Valid() && Value() == NewCache(now) && this.channel == channel && this.key == key && mine == []
      ensures fresh(pendingLogs)
    {
      this.channel := channel;
      this.key := key;
      pendingLogs := new Record[MAX_NUM_LOGS](_ => Record([], 0));
      numLogs, pendingBytes, lastFlushTime, sent, mine := 0, 0, now, [], [];
      new;
      NewSender(channel.batches);
    }

    /** A new object has sent nothing. */
    lemma {:induction false} NewSender(batches: seq<Message>)
      requires forall i | 0 <= i < |batches| :: batches[i].sender != this
      ensures SentBy(batches, this) == []
    {
      if batches != [] {
        NewSender(batches[..|batches| - 1]);
      }
    }

    /** What this buffer has put into the channel is what it has sent, in order, in other arrays than the pending one. */
    ghost predicate Valid()
      reads this, channel, pendingLogs, mine
    {
      && numLogs <= pendingLogs.Length == MAX_NUM_LOGS
      && SentBy(channel.batches, this) == mine
      && Contain(mine, sent) && pendingLogs !in mine
    }

    ghost function Value(): Cache
      requires numLogs <= pendingLogs.Length
      reads this, pendingLogs
    {
      Cache(sent, pendingLogs[..numLogs], pendingBytes, lastFlushTime)
    }

    predicate Due(now: int, force: bool)
      reads this
    {
      numLogs != 0 && (force || now - lastFlushTime >= FLUSH_INTERVAL)
    }

    /** Between calls of the sink: the buffer has this value and is not full. */
    ghost predicate Holding(value: Cache)
      reads this, channel, pendingLogs, mine
    {
      Valid() && Value() == value && numLogs < MAX_NUM_LOGS
    }

    /** Nothing else that happens changes that. */
    twostate lemma StillHolding(value: Cache)
      requires old(Holding(value)) && unchanged(this, channel, pendingLogs)
      requires forall a | a in mine :: a[..] == old(a[..])
      ensures Holding(value)
    {
    }

    method Append(record: Record) returns (full: bool)
      requires Valid() && numLogs < MAX_NUM_LOGS
      modifies this`numLogs, this`pendingBytes, pendingLogs
      ensures Valid() && Value() == RoutingSpec.Append(old(Value()), record) && full == Full(Value())
    {
      pendingLogs[numLogs] := record;
      numLogs := numLogs + 1;
      pendingBytes := pendingBytes + record.rawLength;
      full := pendingBytes >= MAX_TOTAL_BYTES || numLogs >= MAX_NUM_LOGS;
    }

    /** What is sent is an array of its own: the pending one is used for the next batch. */
    method Flush(now: int) returns (ghost batch: array<Record>)
      requires Valid()
      modifies this, channel
      ensures Valid() && Value() == RoutingSpec.Flush(old(Value()), now) && numLogs == 0
      ensures mine == old(mine) + [batch] && fresh(batch)
      ensures channel.batches == old(channel.batches) + [Message(batch, this)]
    {
      var reusableLogBuffer := CopyLogBuffer(pendingLogs, numLogs);
      batch := reusableLogBuffer;
      sent := sent + [pendingLogs[..numLogs]];
      numLogs := 0;
      pendingBytes := 0;
      lastFlushTime := now;
      SentByOne(channel.batches, Message(reusableLogBuffer, this), this);
      channel.batches := channel.batches + [Message(reusableLogBuffer, this)];
      mine := mine + [reusableLogBuffer];
    }
  }

  /** The map shared by all sinks; the mutex makes each call one step. */
  class GlobalCachedMap {
    var globalMap: map<Key, Pipeline>
    var objectCounter: nat
    ghost var pipelines: set<Pipeline>

    constructor ()
      ensures Valid() && globalMap == map[] && pipelines == {}
    {
      globalMap, objectCounter, pipelines := map[], 0, {};
    }

    /** One object for each key. */
    ghost predicate Valid()
      reads this
    {
      && objectCounter == |globalMap|
      && forall k | k in globalMap :: globalMap[k] in pipelines && globalMap[k].key == k
    }

    method GetOrCreate(mergedKey: Key) returns (obj: Pipeline)
      requires Valid()
      modifies this
      ensures Valid() && fresh(pipelines - old(pipelines)) && old(pipelines) <= pipelines && obj in pipelines
      ensures mergedKey in globalMap && obj == globalMap[mergedKey]
      ensures globalMap == old(globalMap)[mergedKey := obj]
      ensures mergedKey in old(globalMap) ==> obj == old(globalMap)[mergedKey]
      ensures mergedKey !in old(globalMap) ==> fresh(obj) && obj.batches == []
    {
      if mergedKey in globalMap {
        obj := globalMap[mergedKey];
        assert globalMap[mergedKey := obj] == globalMap;
      } else {
        objectCounter := objectCounter + 1;
        obj := new Pipeline(mergedKey);
        globalMap := globalMap[mergedKey := obj];
        pipelines := pipelines + {obj};
      }
    }
  }

  /** Different keys have different pipelines. */
  lemma OnePipelinePerKey(m: GlobalCachedMap, k: Key, l: Key)
    requires m.Valid() && k in m.globalMap && l in m.globalMap
    ensures m.globalMap[k] == m.globalMap[l] <==> k == l
  {
  }

  /** Every cache wraps the single global object of its key and puts records into an array of its own. */
  ghost predicate Links(localMap: map<Key, ChannelInputBuffer>, buffers: set<ChannelInputBuffer>,
                        globalMap: map<Key, Pipeline>, pipelines: set<Pipeline>, slots: map<array<Record>, Key>)
  {
    && (forall key | key in localMap :: localMap[key] in buffers && localMap[key].key == key)
    && (forall b | b in buffers ::
          && b.key in localMap && localMap[b.key] == b
          && b.key in globalMap && b.channel == globalMap[b.key] && b.channel in pipelines && b.channel.key == b.key
          && b.pendingLogs in slots && slots[b.pendingLogs] == b.key)
  }

  lemma CacheAgain(m: Caches, key: Key)
    ensures key in m ==> m[key := m[key]] == m
  {
  }

  /** A sink with its local cache of the global map. */
  class Sink {
    const locators: seq<nat>
    const source: GlobalCachedMap
    var localMap: map<Key, ChannelInputBuffer>
    ghost var caches: Caches                    // the values of the buffers
    ghost var buffers: set<ChannelInputBuffer>
    ghost var slots: map<array<Record>, Key>    // the arrays of pending records,
    ghost var shipped: set<array<Record>>       //   and those that were sent

    constructor (locators: seq<nat>, source: GlobalCachedMap)
      requires source.Valid()
      ensures Valid() && caches == map[] && buffers == {} && slots == map[] && shipped == {}
      ensures this.locators == locators && this.source == source
    {
      this.locators, this.source, localMap, caches, buffers, slots, shipped := locators, source, map[], map[], {}, map[], {};
    }

    ghost predicate Linked()
      reads this, source
    {
      source.Valid() && caches.Keys == localMap.Keys && Links(localMap, buffers, source.globalMap, source.pipelines, slots)
    }

    /** The arrays that were sent are none of those that records are put into. */
    ghost predicate Recorded()
      reads this, buffers
    {
      (forall a | a in shipped :: a !in slots) && forall b | b in buffers :: (forall a | a in b.mine :: a in shipped)
    }

    /** All caches but these are as `caches` says. */
    ghost predicate HoldBut(except: set<ChannelInputBuffer>)
      requires Linked() && Recorded()
      reads this, source, buffers, source.pipelines, slots.Keys, shipped
    {
      forall b | b in buffers && b !in except :: b.Holding(caches[b.key])
    }

    ghost predicate Valid()
      reads this, source, buffers, source.pipelines, slots.Keys, shipped
    {
      Linked() && Recorded() && HoldBut({})
    }

    twostate lemma StillHolding(new except: set<ChannelInputBuffer>)
      requires old(Recorded()) && Linked() && Recorded()
      requires forall b | b in buffers && b !in except ::
                 && b in old(buffers) && b.key in old(caches) && b.key in caches && old(b.Holding(caches[b.key])) && caches[b.key] == old(caches[b.key])
                 && unchanged(b, b.channel, b.pendingLogs)
      requires forall a | a in old(shipped) :: a[..] == old(a[..])
      ensures HoldBut(except)
    {
      forall b | b in buffers && b !in except ensures b.Holding(caches[b.key]) {
        b.StillHolding(caches[b.key]);
      }
    }

    /** The one cache set apart holds what it should, like all others. */
    lemma Together(cache: ChannelInputBuffer)
      requires Linked() && Recorded() && HoldBut({cache}) && cache in buffers && cache.Holding(caches[cache.key])
      ensures Valid()
    {
    }

    method MergeKeys(tempKeys: seq<seq<byte>>) returns (tempMergedKey: Key)
      ensures tempMergedKey == Merge(tempKeys)
    {
      tempMergedKey := [];
      for i := 0 to |tempKeys|
        invariant tempMergedKey == Merge(tempKeys[..i])
      {
        assert tempKeys[..i + 1][..i] == tempKeys[..i];
        tempMergedKey := tempMergedKey + tempKeys[i];
      }
      assert tempKeys[..|tempKeys|] == tempKeys;
    }

    /** Makes a cache for the global object of the key. */
    method Wrap(mergedKey: Key, now: int) returns (cache: ChannelInputBuffer)
      requires source.Valid()
      modifies source
      ensures source.Valid() && old(source.pipelines) <= source.pipelines && fresh(source.pipelines - old(source.pipelines))
      ensures mergedKey in source.globalMap && cache.channel == source.globalMap[mergedKey]
      ensures source.globalMap == old(source.globalMap)[mergedKey := cache.channel]
      ensures mergedKey in old(source.globalMap) ==> cache.channel == old(source.globalMap)[mergedKey]
      ensures cache.channel in source.pipelines && cache.channel.key == mergedKey
      ensures fresh(cache) && fresh(cache.pendingLogs) && cache.key == mergedKey && cache.mine == []
      ensures cache.Holding(NewCache(now))
    {
      var newGlobalObject := source.GetOrCreate(mergedKey);
      cache := new ChannelInputBuffer(newGlobalObject, now, mergedKey);
    }

    lemma OneMoreLink(cache: ChannelInputBuffer, key: Key, before: map<Key, Pipeline>, pipelines: set<Pipeline>)
      requires Links(localMap, buffers, before, pipelines, slots) && key !in localMap && cache.key == key
      requires source.globalMap == before[key := cache.channel] && pipelines <= source.pipelines
      requires key in before ==> before[key] == cache.channel
      requires cache.channel in source.pipelines && cache.channel.key == key && cache.pendingLogs !in slots
      ensures Links(localMap[key := cache], buffers + {cache}, source.globalMap, source.pipelines,
                    slots[cache.pendingLogs := key])
    {
    }

    /** The cache is new, and can be taken in under the key. */
    ghost predicate New(mergedKey: Key, cache: ChannelInputBuffer)
      reads this, source, buffers, cache
    {
      && cache.key == mergedKey && mergedKey !in localMap && cache !in buffers && cache.mine == []
      && cache.pendingLogs !in slots && cache.pendingLogs !in shipped
      && source.Valid() && caches.Keys == localMap.Keys && Recorded()
      && Links(localMap[mergedKey := cache], buffers + {cache}, source.globalMap, source.pipelines,
               slots[cache.pendingLogs := mergedKey])
    }

    /** What is in the sink's sets now and was not before is new. */
    twostate predicate Grown()
      reads this
    {
      && (forall b | b in buffers :: b in old(buffers) || fresh(b))
      && (forall a | a in slots :: a in old(slots) || fresh(a))
    }

    twostate predicate GrownSource()
      reads source
    {
      forall p | p in source.pipelines :: p in old(source.pipelines) || fresh(p)
    }

    /** Where no cache is touched, all still hold what they did. */
    twostate lemma Untouched()
      requires old(Valid()) && unchanged(this)
      requires forall b | b in buffers :: unchanged(b, b.channel, b.pendingLogs)
      requires forall a | a in shipped :: a[..] == old(a[..])
      ensures Recorded() && forall b | b in buffers :: b.key in caches && b.Holding(caches[b.key])
    {
      forall b | b in buffers ensures b.key in caches && b.Holding(caches[b.key]) {
        assert b.key in localMap && old(b.Holding(caches[b.key]));
        b.StillHolding(caches[b.key]);
      }
    }

    method Prepare(mergedKey: Key, now: int) returns (cache: ChannelInputBuffer)
      requires Valid() && mergedKey !in localMap
      modifies source
      ensures New(mergedKey, cache) && fresh(cache) && fresh(cache.pendingLogs) && cache.Holding(NewCache(now))
      ensures forall b | b in buffers :: b.key in caches && b.Holding(caches[b.key])
      ensures GrownSource()
    {
      cache := Wrap(mergedKey, now);
      OneMoreLink(cache, mergedKey, old(source.globalMap), old(source.pipelines));
      Untouched();
    }

    lemma OneMoreRecorded(cache: ChannelInputBuffer, key: Key)
      requires Recorded() && cache.mine == [] && cache.pendingLogs !in shipped
      ensures forall a | a in shipped :: a !in slots[cache.pendingLogs := key]
      ensures forall b | b in buffers + {cache} :: (forall a | a in b.mine :: a in shipped)
    {
    }

    /** Takes a new cache in. */
    method Register(mergedKey: Key, cache: ChannelInputBuffer, ghost now: int)
      requires New(mergedKey, cache) && cache.Holding(NewCache(now))
      requires forall b | b in buffers :: b.key in caches && b.Holding(caches[b.key])
      modifies this`localMap, this`caches, this`buffers, this`slots
      ensures Valid() && buffers == old(buffers) + {cache} && slots == old(slots)[cache.pendingLogs := mergedKey]
      ensures localMap == old(localMap)[mergedKey := cache] && caches == old(caches)[mergedKey := NewCache(now)]
    {
      OneMoreRecorded(cache, mergedKey);
      localMap := localMap[mergedKey := cache];
      caches := caches[mergedKey := NewCache(now)];
      buffers := buffers + {cache};
      slots := slots[cache.pendingLogs := mergedKey];
      assert caches.Keys == localMap.Keys;
      StillHolding({cache});
      Together(cache);
    }

    method Create(mergedKey: Key, now: int) returns (cache: ChannelInputBuffer)
      requires Valid() && mergedKey !in localMap
      modifies this, source
      ensures Valid() && Grown() && shipped == old(shipped)
      ensures GrownSource()
      ensures mergedKey in localMap && localMap[mergedKey] == cache
      ensures caches == old(caches)[mergedKey := NewCache(now)]
    {
      cache := Prepare(mergedKey, now);
      Register(mergedKey, cache, now);
    }

    method FindOrCreate(mergedKey: Key, now: int) returns (cache: ChannelInputBuffer)
      requires Valid()
      modifies this, source
      ensures Valid() && Grown() && shipped == old(shipped)
      ensures GrownSource()
      ensures mergedKey in localMap && localMap[mergedKey] == cache
      ensures mergedKey in old(caches) ==> caches == old(caches)
      ensures mergedKey !in old(caches) ==> caches == old(caches)[mergedKey := NewCache(now)]
    {
      if mergedKey in localMap {
        return localMap[mergedKey];
      }
      cache := Create(mergedKey, now);
    }

    method GetOrCreate(tempKeys: seq<seq<byte>>, created: Clock) returns (cache: ChannelInputBuffer)
      requires Valid()
      modifies this, source
      ensures Valid() && Grown() && shipped == old(shipped)
      ensures GrownSource()
      ensures var key := Merge(tempKeys);
              && key in localMap && localMap[key] == cache
              && caches == old(caches)[key := if key in old(caches) then old(caches)[key] else NewCache(created(key))]
    {
      var mergedKey := MergeKeys(tempKeys);
      CacheAgain(caches, mergedKey);
      cache := FindOrCreate(mergedKey, created(mergedKey));
    }

    twostate lemma OneMoreShipped(cache: ChannelInputBuffer, new batch: array<Record>)
      requires old(Recorded()) && buffers == old(buffers) && slots == old(slots) && batch !in slots
      requires shipped == old(shipped) + {batch} && cache in buffers && cache.mine == old(cache.mine) + [batch]
      requires forall b | b in buffers && b != cache :: b.mine == old(b.mine)
      ensures Recorded()
    {
      forall b, a | b in buffers && a in b.mine ensures a in shipped {
        assert b != cache ==> a in old(b.mine);
      }
    }

    method Send(cache: ChannelInputBuffer, now: int)
      requires Linked() && Recorded() && HoldBut({cache}) && cache in buffers && cache.Valid()
      modifies this`shipped, cache, cache.channel
      ensures Linked() && Recorded() && HoldBut({cache}) && cache.Valid() && old(shipped) <= shipped
      ensures cache.Value() == RoutingSpec.Flush(old(cache.Value()), now) && cache.numLogs == 0
    {
      ghost var batch := cache.Flush(now);
      shipped := shipped + {batch};
      OneMoreShipped(cache, batch);
      StillHolding({cache});
    }

    /** Takes note of what the cache holds. */
    ghost method Keep(cache: ChannelInputBuffer)
      requires Linked() && Recorded() && HoldBut({cache}) && cache in buffers && cache.Valid() && cache.Holding(cache.Value())
      modifies this`caches
      ensures Valid() && caches == old(caches)[cache.key := cache.Value()]
    {
      caches := caches[cache.key := cache.Value()];
      StillHolding({cache});
      Together(cache);
    }

    /** Sends what the cache holds, be it full or not. */
    method FlushCache(cache: ChannelInputBuffer, now: int)
      requires Linked() && Recorded() && HoldBut({cache}) && cache in buffers && cache.Valid()
      modifies this`caches, this`shipped, cache, cache.channel
      ensures Valid() && caches == old(caches)[cache.key := RoutingSpec.Flush(old(cache.Value()), now)]
      ensures old(shipped) <= shipped
    {
      Send(cache, now);
      Keep(cache);
    }

    lemma SetApart(cache: ChannelInputBuffer)
      requires Valid() && cache in buffers
      ensures HoldBut({cache}) && cache.Holding(caches[cache.key]) && caches[cache.key].pending == cache.pendingLogs[..cache.numLogs]
    {
    }

    method AppendTo(cache: ChannelInputBuffer, record: Record) returns (full: bool)
      requires Valid() && cache in buffers
      modifies cache, cache.pendingLogs
      ensures Linked() && Recorded() && HoldBut({cache}) && cache.Valid()
      ensures cache.Value() == Append(caches[cache.key], record) && full == Full(cache.Value())
    {
      SetApart(cache);
      full := cache.Append(record);
      StillHolding({cache});
    }

    /** Puts a record into the cache, and sends all it holds if it is full. */
    method Put(cache: ChannelInputBuffer, record: Record, now: int)
      requires Valid() && cache in buffers
      modifies this`caches, this`shipped, cache, cache.channel, cache.pendingLogs
      ensures Valid() && caches == old(caches)[cache.key := RoutingSpec.Put(old(caches)[cache.key], record, now)]
      ensures old(shipped) <= shipped
    {
      var full := AppendTo(cache, record);
      if full {
        FlushCache(cache, now);
      } else {
        Keep(cache);
      }
    }

    method AcceptOne(record: Record, now: int, created: Clock)
      requires Valid() && Located(locators, record)
      modifies this, source, buffers, source.pipelines, slots.Keys
      ensures Valid() && caches == RoutingSpec.AcceptOne(old(caches), KeyOf(locators, record), record, now, created)
      ensures Grown() && GrownSource() && old(shipped) <= shipped
    {
      AcceptOneInTwo(caches, KeyOf(locators, record), record, now, created);
      var tempKeySet := Extract(locators, record);
      var cache := GetOrCreate(tempKeySet, created);
      Put(cache, record, now);
    }

    /** Every record goes to its cache; the pipelines hold what the caches have sent, and that stays as it is. */
    method Accept(buffer: seq<Record>, now: int, created: Clock)
      requires Valid() && AllLocated(locators, buffer)
      modifies this, source, buffers, source.pipelines, slots.Keys
      ensures Valid() && caches == AcceptAll(old(caches), locators, buffer, now, created)
      ensures Grown() && GrownSource() && old(shipped) <= shipped
      ensures forall a | a in old(shipped) :: a[..] == old(a[..])
    {
      for i := 0 to |buffer|
        invariant Valid() && caches == AcceptAll(old(caches), locators, buffer[..i], now, created)
        invariant Grown() && GrownSource() && old(shipped) <= shipped
      {
        assert buffer[..i + 1][..i] == buffer[..i];
        AcceptOne(buffer[i], now, created);
      }
      assert buffer[..|buffer|] == buffer;
    }

    lemma DueIff(cache: ChannelInputBuffer, now: int, force: bool)
      requires Valid() && cache in buffers
      ensures cache.Due(now, force) <==> RoutingSpec.Due(caches[cache.key], now, force)
      ensures HoldBut({cache}) && cache.Holding(caches[cache.key])
    {
    }

    method FlushIfDue(key: Key, now: int, force: bool)
      requires Valid() && key in localMap
      modifies this`caches, this`shipped, localMap[key], localMap[key].channel
      ensures Valid() && old(shipped) <= shipped
      ensures caches == old(caches)[key := RoutingSpec.FlushIfDue(old(caches)[key], now, force)]
    {
      var cache := localMap[key];
      CacheAgain(caches, key);
      DueIff(cache, now, force);
      if !cache.Due(now, force) {
        return;
      }
      FlushCache(cache, now);
    }

    /** The walk over the local map takes its entries in any order. */
    method FlushAllLocalBuffers(now: int, forceAll: bool)
      requires Valid()
      modifies this`caches, this`shipped, buffers, source.pipelines
      ensures Valid() && caches == FlushAll(old(caches), now, forceAll) && old(shipped) <= shipped
      ensures forall a | a in old(shipped) :: a[..] == old(a[..])
    {
      var keys := localMap.Keys;
      ghost var before := caches;
      while keys != {}
        invariant Valid() && keys <= localMap.Keys && Walked(before, caches, keys, now, forceAll)
        invariant old(shipped) <= shipped
        decreases keys
      {
        var key :| key in keys;
        WalkOne(before, caches, keys, key, now, forceAll);
        FlushIfDue(key, now, forceAll);
        keys := keys - {key};
      }
      WalkDone(before, caches, now, forceAll);
    }
  }

  /**
   What a sink has put into the pipeline of a key, read in order, is what its cache has sent; and it is in arrays that
   no sink puts records into, so that it stays what it was.
   */
  lemma PipelineHoldsSent(s: Sink, key: Key)
    requires s.Valid() && key in s.localMap
    ensures key in s.source.globalMap && key in s.caches
    ensures var mine := SentBy(s.source.globalMap[key].batches, s.localMap[key]);
            && Contain(mine, s.caches[key].sent)
            && forall a | a in mine :: a in s.shipped && a !in s.slots
  {
    s.SetApart(s.localMap[key]);
  }
}
