/**
 The objects that do what PackingSpec says: chunks over a shared buffer, the packer that replaces them, and the worker
 that feeds records to all outputs (base/bsupport/logprocessingworker.go).
 */
module Packing {
  import opened Bytes
  import opened Options
  import opened PackingSpec

  /** The buffer chunks are made in, one after the other. */
  class ByteBuffer {
    var bytes: seq<byte>

    constructor ()
      ensures bytes == []
    {
      bytes := [];
    }
  }

  /** A compressor writes to the buffer when it is closed at the latest; here it does so only then. */
  class Compressor {
    const buffer: ByteBuffer
    const zip: seq<byte> -> seq<byte>
    var pending: seq<byte>

    constructor (buffer: ByteBuffer, zip: seq<byte> -> seq<byte>)
      ensures this.buffer == buffer && this.zip == zip && pending == []
    {
      this.buffer, this.zip, pending := buffer, zip, [];
    }

    method Write(data: seq<byte>)
      modifies this
      ensures pending == old(pending) + data
    {
      pending := pending + data;
    }

    method Close()
      modifies buffer
      ensures buffer.bytes == old(buffer.bytes) + zip(pending)
    {
      buffer.bytes := buffer.bytes + zip(pending);
    }
  }

  /** How the bytes of a finished chunk come about; what is not used is the identity. */
  datatype Finish = Finish(zip: Option<seq<byte> -> seq<byte>>, encode: (Packed, nat, seq<byte>) -> seq<byte>)

  function FinalData(cfg: Config, finish: Finish, c: Chunk): seq<byte> {
    var packed := Finalize(cfg, c);
    var body := if finish.zip.Some? then finish.zip.value(packed.payload) else packed.payload;
    finish.encode(packed, c.numBytes + (if cfg.format.Datadog? then 1 else 0), body)
  }

  class IntermediateChunk {
    const cfg: Config
    const finish: Finish
    const number: nat
    const compressor: Compressor?
    const writeBuffer: ByteBuffer
    var numRecords: nat
    var numBytes: nat

    constructor (cfg: Config, finish: Finish, number: nat, writeBuffer: ByteBuffer)
      requires writeBuffer.bytes == []
      modifies writeBuffer
      ensures Valid() && Value() == NewChunk(cfg, number) && fresh(this) && (compressor != null ==> fresh(compressor))
      ensures this.cfg == cfg && this.finish == finish && this.writeBuffer == writeBuffer
    {
      this.cfg, this.finish, this.number, this.writeBuffer := cfg, finish, number, writeBuffer;
      numRecords, numBytes := 0, 0;
      var comp: Compressor? := null;
      if finish.zip.Some? {
        comp := new Compressor(writeBuffer, finish.zip.value);
      }
      compressor := comp;
      new;
      if cfg.format.Datadog? {
        Emit([OPEN_BRACKET]);
        numBytes := numBytes + 1;
      }
    }

    ghost predicate Valid()
      reads this, writeBuffer
    {
      && (compressor != null <==> finish.zip.Some?)
      && (compressor != null ==>
            compressor.buffer == writeBuffer && compressor.zip == finish.zip.value && writeBuffer.bytes == [])
    }

    ghost function Value(): Chunk
      reads this, writeBuffer, compressor
    {
      Chunk(number, if compressor != null then compressor.pending else writeBuffer.bytes, numRecords, numBytes)
    }

    method Emit(data: seq<byte>)
      requires Valid()
      modifies writeBuffer, compressor
      ensures Valid() && Value() == old(Value()).(payload := old(Value()).payload + data)
    {
      if compressor != null {
        compressor.Write(data);
      } else {
        writeBuffer.bytes := writeBuffer.bytes + data;
      }
    }

    method Write(data: Stream)
      requires Valid()
      modifies this, writeBuffer, compressor
      ensures Valid() && Value() == WriteRecord(cfg, old(Value()), data)
    {
      if cfg.format.Datadog? && numRecords != 0 {
        Emit([COMMA]);
      }
      ghost var before := Value().payload;
      Emit(data);
      assert before + [] == before;
      numRecords := numRecords + 1;
      numBytes := numBytes + |data| + if cfg.format.Datadog? then 1 else 0;
    }

    method CanAppendData(dataLength: nat) returns (can: bool)
      ensures can == PackingSpec.CanAppendData(cfg, Value(), dataLength)
    {
      if cfg.maxRecords > 0 && numRecords >= cfg.maxRecords {
        return false;
      }
      var closing := if cfg.format.Datadog? then 1 else 0;
      if cfg.maxBytes > 0 && numBytes + dataLength + closing > cfg.maxBytes {
        return false;
      }
      return true;
    }

    /** The data is a copy; the buffer is empty for the next chunk. */
    method FinalizeChunk() returns (packed: Packed, data: seq<byte>)
      requires Valid()
      modifies this, writeBuffer, compressor
      ensures packed == Finalize(cfg, old(Value())) && data == FinalData(cfg, finish, old(Value()))
      ensures writeBuffer.bytes == []
    {
      ghost var before := Value();
      if cfg.format.Datadog? {
        Emit([CLOSE_BRACKET]);
        numBytes := numBytes + 1;
      }
      assert before.payload + [] == before.payload;
      packed := Packed(number, if compressor != null then compressor.pending else writeBuffer.bytes, numRecords);
      if compressor != null {
        compressor.Close();
        assert [] + compressor.zip(compressor.pending) == compressor.zip(compressor.pending);
      }
      data := finish.encode(packed, numBytes, writeBuffer.bytes);
      writeBuffer.bytes := [];
    }
  }

  class MessagePacker {
    const cfg: Config
    const finish: Finish
    const buffer: ByteBuffer
    var currentChunk: IntermediateChunk?
    var made: nat

    constructor (cfg: Config, finish: Finish)
      ensures Valid() && Value([]) == NEW_PACKER && this.cfg == cfg && this.finish == finish
    {
      this.cfg, this.finish := cfg, finish;
      buffer := new ByteBuffer();
      currentChunk, made := null, 0;
    }

    ghost predicate Valid()
      reads this, currentChunk, buffer
    {
      if currentChunk == null then buffer.bytes == []
      else
        && currentChunk.writeBuffer == buffer && currentChunk.cfg == cfg && currentChunk.finish == finish
        && currentChunk.Valid()
    }

    /** The state of the packer when these chunks have been accepted. */
    ghost function Value(accepted: seq<Packed>): Packer
      requires Valid()
      reads this, currentChunk, buffer, if currentChunk != null then {currentChunk.compressor} else {}
    {
      Packer(if currentChunk != null then Some(currentChunk.Value()) else None, made, accepted)
    }

    method FlushBuffer() returns (result: seq<Packed>, data: seq<seq<byte>>)
      requires Valid()
      modifies this, currentChunk, buffer, if currentChunk != null then {currentChunk.compressor} else {}
      ensures Valid() && currentChunk == null && Value(result) == Flush(cfg, old(Value([])))
      ensures data == if old(currentChunk) == null then [] else [FinalData(cfg, finish, old(currentChunk.Value()))]
    {
      if currentChunk == null {
        return [], [];
      }
      var packed, bytes := currentChunk.FinalizeChunk();
      currentChunk := null;
      return [packed], [bytes];
    }

    method WriteStream(stream: Stream) returns (previous: seq<Packed>, data: seq<seq<byte>>)
      requires Valid()
      modifies this, currentChunk, buffer, if currentChunk != null then {currentChunk.compressor} else {}
      ensures Valid() && Value(previous) == PackingSpec.WriteStream(cfg, old(Value([])), stream)
      ensures |data| == |previous| <= 1
      ensures data != [] ==>
                old(currentChunk) != null && data == [FinalData(cfg, finish, old(currentChunk.Value()))]
    {
      previous, data := [], [];
      if currentChunk != null {
        var can := currentChunk.CanAppendData(|stream|);
        if !can {
          previous, data := FlushBuffer();
        }
      }
      if currentChunk == null {
        currentChunk := new IntermediateChunk(cfg, finish, made, buffer);
        made := made + 1;
      }
      currentChunk.Write(stream);
    }
  }

  // The worker

  /** How often a worker looks whether to flush, in nanoseconds: defs/params.go:64. */
  const INTERVAL := 1_000_000_000

  /** What a record becomes, if it is not dropped; transforms keep state of their own between records. */
  type Transform<!S, !R> = (S, R) -> (S, Option<R>)

  /** The bytes of a record, and the record as the serializer leaves it to the outputs after it. */
  type Serializer<!R> = R -> (Stream, R)

  /** What a worker is made with. */
  datatype Setup<!S, !R> = Setup(transform: Transform<S, R>, initial: S, serializers: seq<Serializer<R>>, startTime: int)

  /** The record as the first `j` outputs leave it. */
  function Seen<R>(serializers: seq<Serializer<R>>, j: nat, record: R): R
    requires j <= |serializers|
  {
    if j == 0 then record else serializers[j - 1](Seen(serializers, j - 1, record)).1
  }

  /** What output `j` gets to write for a record that has passed. */
  function StreamOf<R>(serializers: seq<Serializer<R>>, j: nat, record: R): Stream
    requires j < |serializers|
  {
    serializers[j](Seen(serializers, j, record)).0
  }

  function StreamsOf<R>(serializers: seq<Serializer<R>>, j: nat, records: seq<R>): seq<Stream>
    requires j < |serializers|
  {
    seq(|records|, i requires 0 <= i < |records| => StreamOf(serializers, j, records[i]))
  }

  /** The state of the transforms after some records, and those that passed. */
  function Passing<S, R>(transform: Transform<S, R>, state: S, records: seq<R>): (S, seq<R>) {
    if records == [] then (state, [])
    else
      var (before, passed) := Passing(transform, state, records[..|records| - 1]);
      var (after, last) := transform(before, records[|records| - 1]);
      (after, passed + if last.Some? then [last.value] else [])
  }

  function Writes(streams: seq<Stream>): (ops: seq<Op>)
    ensures |ops| == |streams|
  {
    seq(|streams|, i requires 0 <= i < |streams| => Write(streams[i]))
  }

  /** The owner's calls; a tick happens at a time. */
  datatype Call<R> = Input(records: seq<R>) | Tick(now: int) | Stop

  function NewRecords<R>(call: Call<R>): seq<R> {
    if call.Input? then call.records else []
  }

  function Records<R>(calls: seq<Call<R>>): seq<R> {
    if calls == [] then [] else Records(calls[..|calls| - 1]) + NewRecords(calls[|calls| - 1])
  }

  /** The state of the transforms after some calls. */
  function StateAfter<S, R>(w: Setup<S, R>, calls: seq<Call<R>>): S {
    Passing(w.transform, w.initial, Records(calls)).0
  }

  /** The records that have passed in some calls. */
  function Passed<S, R>(w: Setup<S, R>, calls: seq<Call<R>>): seq<R> {
    Passing(w.transform, w.initial, Records(calls)).1
  }

  /** The time since the start decides, not the time since the last flush. */
  predicate Flushes<S, R>(w: Setup<S, R>, call: Call<R>) {
    call.Stop? || (call.Tick? && call.now - w.startTime >= INTERVAL)
  }

  /** What a call has output `j` do, with the transforms in some state before it. */
  function OpsOf<S, R>(w: Setup<S, R>, j: nat, state: S, call: Call<R>): seq<Op>
    requires j < |w.serializers|
  {
    if call.Input? then Writes(StreamsOf(w.serializers, j, Passing(w.transform, state, call.records).1))
    else if Flushes(w, call) then [FlushBuffer]
    else []
  }

  function AllOps<S, R>(w: Setup<S, R>, j: nat, calls: seq<Call<R>>): seq<Op>
    requires j < |w.serializers|
  {
    if calls == [] then []
    else
      var before := calls[..|calls| - 1];
      AllOps(w, j, before) + OpsOf(w, j, StateAfter(w, before), calls[|calls| - 1])
  }

  lemma {:induction false} PassingAppends<S, R>(transform: Transform<S, R>, state: S, a: seq<R>, b: seq<R>)
    ensures var (middle, first) := Passing(transform, state, a);
            var (end, second) := Passing(transform, middle, b);
            Passing(transform, state, a + b) == (end, first + second)
  {
    if b == [] {
      assert a + b == a;
      assert Passing(transform, state, a).1 + [] == Passing(transform, state, a).1;
    } else {
      var n := |b| - 1;
      assert (a + b)[..|a| + n] == a + b[..n];
      PassingAppends(transform, state, a, b[..n]);
      var (middle, first) := Passing(transform, state, a);
      var (before, second) := Passing(transform, middle, b[..n]);
      var last := transform(before, b[n]).1;
      Regroup(first, second, if last.Some? then [last.value] else []);
    }
  }

  lemma {:induction false} WrittenAppends(a: seq<Op>, b: seq<Op>)
    ensures Written(a + b) == Written(a) + Written(b)
  {
    if b == [] {
      assert a + b == a;
    } else {
      var n := |b| - 1;
      assert (a + b)[..|a| + n] == a + b[..n];
      WrittenAppends(a, b[..n]);
    }
  }

  lemma {:induction false} WritesWritten(streams: seq<Stream>)
    ensures Written(Writes(streams)) == streams
  {
    if streams != [] {
      var n := |streams| - 1;
      assert Writes(streams)[..n] == Writes(streams[..n]);
      WritesWritten(streams[..n]);
    }
  }

  lemma StreamsAppend<R>(serializers: seq<Serializer<R>>, j: nat, a: seq<R>, b: seq<R>)
    requires j < |serializers|
    ensures StreamsOf(serializers, j, a + b) == StreamsOf(serializers, j, a) + StreamsOf(serializers, j, b)
  {
  }

  /** What one call has an output write. */
  lemma CallWritten<S, R>(w: Setup<S, R>, j: nat, state: S, call: Call<R>)
    requires j < |w.serializers|
    ensures Written(OpsOf(w, j, state, call))
            == StreamsOf(w.serializers, j, Passing(w.transform, state, NewRecords(call)).1)
  {
    if call.Input? {
      WritesWritten(StreamsOf(w.serializers, j, Passing(w.transform, state, call.records).1));
    } else if Flushes(w, call) {
      assert Written([FlushBuffer]) == [] by {
        assert [FlushBuffer][..0] == [];
      }
    }
  }

  /**
   An output is told to write, for the passing records of all calls in order, its streams: each made from the record as
   the transforms and then the outputs before it have left it.
   */
  lemma {:induction false} AllPassingWritten<S, R>(w: Setup<S, R>, j: nat, calls: seq<Call<R>>)
    requires j < |w.serializers|
    ensures Written(AllOps(w, j, calls)) == StreamsOf(w.serializers, j, Passed(w, calls))
  {
    if calls == [] {
    } else {
      var before, last := calls[..|calls| - 1], calls[|calls| - 1];
      AllPassingWritten(w, j, before);
      CallWritten(w, j, StateAfter(w, before), last);
      WrittenAppends(AllOps(w, j, before), OpsOf(w, j, StateAfter(w, before), last));
      PassingAppends(w.transform, w.initial, Records(before), NewRecords(last));
      StreamsAppend(w.serializers, j, Passed(w, before), Passing(w.transform, StateAfter(w, before), NewRecords(last)).1);
    }
  }

  /**
   For each output: after the worker has stopped, the accepted chunks hold exactly the passing records, in order and
   within the limits, as this output serializes what the transforms and the outputs before it leave of them.
   */
  lemma WorkerDelivers<S, R>(cfg: Config, w: Setup<S, R>, j: nat, calls: seq<Call<R>>) returns (batches: seq<seq<Stream>>)
    requires j < |w.serializers|
    ensures var p := Run(cfg, AllOps(w, j, calls + [Stop]));
            && p.current.None? && |p.accepted| == |batches|
            && Concat(batches) == StreamsOf(w.serializers, j, Passed(w, calls))
            && forall i | 0 <= i < |batches| ::
                 && p.accepted[i].payload == Payload(cfg.format, batches[i])
                 && p.accepted[i].number == i && WithinLimits(cfg, batches[i])
  {
    var ops := AllOps(w, j, calls);
    assert (calls + [Stop])[..|calls|] == calls;
    assert AllOps(w, j, calls + [Stop]) == ops + [FlushBuffer];
    batches := ChunksHoldAllRecords(cfg, ops);
    AllPassingWritten(w, j, calls);
  }

  // Ticks

  /** The ticks among the calls come in the order of their times, none before the start. */
  ghost predicate ClockAscends<S, R>(w: Setup<S, R>, calls: seq<Call<R>>) {
    && (forall k | 0 <= k < |calls| && calls[k].Tick? :: calls[k].now >= w.startTime)
    && (forall i, k | 0 <= i < k < |calls| && calls[i].Tick? && calls[k].Tick? :: calls[i].now <= calls[k].now)
  }

  /** When a tick last flushed; the time of the start if none has. */
  function LastFlush<S, R>(w: Setup<S, R>, calls: seq<Call<R>>): int {
    if calls == [] then w.startTime
    else
      var last := calls[|calls| - 1];
      if last.Tick? && Flushes(w, last) then last.now else LastFlush(w, calls[..|calls| - 1])
  }

  lemma {:induction false} LastFlushFound<S, R>(w: Setup<S, R>, calls: seq<Call<R>>) returns (k: int)
    ensures -1 <= k < |calls|
    ensures if k == -1 then LastFlush(w, calls) == w.startTime
            else calls[k].Tick? && Flushes(w, calls[k]) && LastFlush(w, calls) == calls[k].now
    ensures forall i | k < i < |calls| && calls[i].Tick? :: !Flushes(w, calls[i])
  {
    if calls == [] {
      k := -1;
    } else {
      var n := |calls| - 1;
      if calls[n].Tick? && Flushes(w, calls[n]) {
        k := n;
      } else {
        k := LastFlushFound(w, calls[..n]);
      }
    }
  }

  /** From the first tick that flushes on, every tick does, even one that follows a flush at once. */
  lemma LateTicksAllFlush<S, R>(w: Setup<S, R>, calls: seq<Call<R>>, i: nat, k: nat)
    requires ClockAscends(w, calls) && i <= k < |calls| && calls[i].Tick? && calls[k].Tick?
    requires Flushes(w, calls[i])
    ensures Flushes(w, calls[k])
  {
  }

  /**
   A tick flushes less than an interval after the last flush exactly if any tick has flushed, less than an interval
   ago; so the flushes keep the interval they should keep only until the first of them.
   */
  lemma FlushesTooEarlyIff<S, R>(w: Setup<S, R>, calls: seq<Call<R>>, now: int)
    requires ClockAscends(w, calls + [Tick(now)])
    ensures Flushes(w, Tick(now)) && now - LastFlush(w, calls) < INTERVAL
            <==> exists k :: 0 <= k < |calls| && calls[k].Tick? && Flushes(w, calls[k]) && now - calls[k].now < INTERVAL
  {
    var all := calls + [Tick(now)];
    var last := LastFlushFound(w, calls);
    forall k | 0 <= k < |calls| && calls[k].Tick? && Flushes(w, calls[k])
      ensures calls[k].now <= LastFlush(w, calls) && calls[k].now <= now
    {
      assert k <= last && all[k] == calls[k] && all[last] == calls[last] && all[|calls|] == Tick(now);
    }
  }

  /** Two ticks at the same time, one interval after the start: both flush. */
  lemma TwoTicksFlush<S, R>(w: Setup<S, R>)
    ensures var t := w.startTime + INTERVAL;
            && ClockAscends(w, [Tick(t), Tick(t)]) && Flushes(w, Tick(t))
            && LastFlush(w, [Tick(t)]) == t && t - LastFlush(w, [Tick(t)]) < INTERVAL
  {
  }

  /** Whatever came before, a flushing tick leaves no open chunk. */
  lemma TickClosesChunk<S, R>(cfg: Config, w: Setup<S, R>, j: nat, calls: seq<Call<R>>, now: int)
    requires j < |w.serializers| && Flushes(w, Tick(now))
    ensures Run(cfg, AllOps(w, j, calls + [Tick(now)])) == Flush(cfg, Run(cfg, AllOps(w, j, calls)))
    ensures Run(cfg, AllOps(w, j, calls + [Tick(now)])).current.None?
  {
    assert (calls + [Tick(now)])[..|calls|] == calls;
    RunFlush(cfg, AllOps(w, j, calls));
  }

  lemma SingleRecordPasses<S, R>(w: Setup<S, R>, state: S, record: R)
    requires w.transform(state, record).1.Some?
    ensures Passing(w.transform, state, [record]).1 == [w.transform(state, record).1.value]
  {
    assert [record][..0] == [] && Passing(w.transform, state, [record][..0]) == (state, []);
  }

  lemma SingleRecordWritten<S, R>(cfg: Config, w: Setup<S, R>, j: nat, calls: seq<Call<R>>, record: R)
    requires j < |w.serializers| && w.transform(StateAfter(w, calls), record).1.Some?
    ensures var stream := StreamOf(w.serializers, j, w.transform(StateAfter(w, calls), record).1.value);
            Run(cfg, AllOps(w, j, calls + [Input([record])]))
            == PackingSpec.WriteStream(cfg, Run(cfg, AllOps(w, j, calls)), stream)
  {
    var passed := w.transform(StateAfter(w, calls), record).1.value;
    var stream, ops := StreamOf(w.serializers, j, passed), AllOps(w, j, calls);
    assert (calls + [Input([record])])[..|calls|] == calls;
    SingleRecordPasses(w, StateAfter(w, calls), record);
    assert StreamsOf(w.serializers, j, [passed]) == [] + [stream];
    assert Writes([]) == [] && ops + [] == ops;
    RunWrite(cfg, ops, [], stream);
  }

  /** A stream written to a packer without an open chunk and flushed is a chunk of its own. */
  lemma WrittenAlone(cfg: Config, p: Packer, stream: Stream)
    requires p.current.None?
    ensures Flush(cfg, PackingSpec.WriteStream(cfg, p, stream)).accepted
            == p.accepted + [Packed(p.made, Payload(cfg.format, [stream]), 1)]
  {
    NewContains(cfg, p.made);
    WriteContains(cfg, NewChunk(cfg, p.made), [], stream);
    assert [] + [stream] == [stream];
  }

  /** A record that comes between two late ticks gets a chunk of its own, however short the time between them. */
  lemma LateRecordChunkedAlone<S, R>(cfg: Config, w: Setup<S, R>, j: nat, calls: seq<Call<R>>, late: int, record: R)
    requires j < |w.serializers| && late - w.startTime >= INTERVAL
    requires w.transform(StateAfter(w, calls), record).1.Some?
    ensures var stream := StreamOf(w.serializers, j, w.transform(StateAfter(w, calls), record).1.value);
            var p := Run(cfg, AllOps(w, j, calls + [Tick(late)]));
            var q := Run(cfg, AllOps(w, j, calls + [Tick(late), Input([record]), Tick(late)]));
            q.accepted == p.accepted + [Packed(p.made, Payload(cfg.format, [stream]), 1)]
  {
    var first := calls + [Tick(late)];
    var second := first + [Input([record])];
    assert calls + [Tick(late), Input([record]), Tick(late)] == second + [Tick(late)];
    TickClosesChunk(cfg, w, j, calls, late);
    TickClosesChunk(cfg, w, j, second, late);
    StateNext(w, calls, Tick(late));
    SingleRecordWritten(cfg, w, j, first, record);
    WrittenAlone(cfg, Run(cfg, AllOps(w, j, first)), StreamOf(w.serializers, j, w.transform(StateAfter(w, calls), record).1.value));
  }

  // One call after the other

  lemma RunWrite(cfg: Config, ops: seq<Op>, streams: seq<Stream>, stream: Stream)
    ensures Run(cfg, ops + Writes(streams + [stream])) ==
            PackingSpec.WriteStream(cfg, Run(cfg, ops + Writes(streams)), stream)
  {
    var all := ops + Writes(streams + [stream]);
    assert all[..|all| - 1] == ops + Writes(streams);
    assert all[|all| - 1] == Write(stream);
  }

  lemma RunFlush(cfg: Config, ops: seq<Op>)
    ensures Run(cfg, ops + [FlushBuffer]) == Flush(cfg, Run(cfg, ops))
  {
    assert (ops + [FlushBuffer])[..|ops|] == ops;
  }

  /** What becomes of output `j` when it has done all of the calls and then this. */
  function Expected<S, R>(cfg: Config, w: Setup<S, R>, j: nat, calls: seq<Call<R>>, ops: seq<Op>): Packer
    requires j < |w.serializers|
  {
    Run(cfg, AllOps(w, j, calls) + ops)
  }

  /** What an output does for the next call. */
  function NextOps<S, R>(w: Setup<S, R>, j: nat, calls: seq<Call<R>>, call: Call<R>): seq<Op>
    requires j < |w.serializers|
  {
    OpsOf(w, j, StateAfter(w, calls), call)
  }

  lemma ExpectedWrite<S, R>(cfg: Config, w: Setup<S, R>, j: nat, calls: seq<Call<R>>, before: seq<R>, original: R)
    requires j < |w.serializers|
    ensures Expected(cfg, w, j, calls, NextOps(w, j, calls, Input(before + [original]))) ==
            var passed := w.transform(Passing(w.transform, StateAfter(w, calls), before).0, original).1;
            var p := Expected(cfg, w, j, calls, NextOps(w, j, calls, Input(before)));
            if passed.None? then p else PackingSpec.WriteStream(cfg, p, StreamOf(w.serializers, j, passed.value))
  {
    assert (before + [original])[..|before|] == before;
    var (state, passing) := Passing(w.transform, StateAfter(w, calls), before);
    var passed := w.transform(state, original).1;
    if passed.Some? {
      var streams, stream := StreamsOf(w.serializers, j, passing), StreamOf(w.serializers, j, passed.value);
      assert StreamsOf(w.serializers, j, passing + [passed.value]) == streams + [stream];
      RunWrite(cfg, AllOps(w, j, calls), streams, stream);
    } else {
      assert passing + [] == passing;
    }
  }

  /** A call without records flushes an output or leaves it as it is. */
  lemma ExpectedQuiet<S, R>(cfg: Config, w: Setup<S, R>, j: nat, calls: seq<Call<R>>, call: Call<R>)
    requires j < |w.serializers| && !call.Input?
    ensures Expected(cfg, w, j, calls, NextOps(w, j, calls, call)) ==
            var p := Expected(cfg, w, j, calls, []);
            if Flushes(w, call) then Flush(cfg, p) else p
    ensures StateAfter(w, calls + [call]) == StateAfter(w, calls)
  {
    var ops := AllOps(w, j, calls);
    assert ops + [] == ops;
    RunFlush(cfg, ops);
    StateNext(w, calls, call);
  }

  lemma ExpectedNext<S, R>(cfg: Config, w: Setup<S, R>, j: nat, calls: seq<Call<R>>, call: Call<R>)
    requires j < |w.serializers|
    ensures Expected(cfg, w, j, calls + [call], []) == Expected(cfg, w, j, calls, NextOps(w, j, calls, call))
  {
    assert (calls + [call])[..|calls|] == calls;
    var ops := AllOps(w, j, calls + [call]);
    assert ops + [] == ops;
  }

  lemma StateNext<S, R>(w: Setup<S, R>, calls: seq<Call<R>>, call: Call<R>)
    ensures StateAfter(w, calls + [call]) == Passing(w.transform, StateAfter(w, calls), NewRecords(call)).0
  {
    assert (calls + [call])[..|calls|] == calls;
    PassingAppends(w.transform, w.initial, Records(calls), NewRecords(call));
  }

  lemma TransformNext<S, R>(transform: Transform<S, R>, state: S, records: seq<R>, k: nat)
    requires k < |records|
    ensures records[..k + 1] == records[..k] + [records[k]]
    ensures Passing(transform, state, records[..k + 1]).0
            == transform(Passing(transform, state, records[..k]).0, records[k]).0
  {
    assert records[..k + 1][..k] == records[..k];
  }

  /** The outputs are kept as values of PackingSpec, which is what their packers do. */
  class LogProcessingWorker<S, R> {
    const setup: Setup<S, R>
    const outputCount: nat
    const configs: seq<Config>
    var state: S
    var packers: seq<Packer>
    var lastChunkTime: int
    ghost var calls: seq<Call<R>>

    constructor (setup: Setup<S, R>, configs: seq<Config>)
      requires |configs| == |setup.serializers|
      ensures Valid() && calls == [] && this.setup == setup && this.configs == configs
    {
      this.setup, this.configs := setup, configs;
      outputCount := |configs|;
      state := setup.initial;
      packers := seq(|configs|, _ => NEW_PACKER);
      lastChunkTime := setup.startTime;
      calls := [];
    }

    /** Output `i` when it has done all of the calls and then this. */
    ghost function After(i: nat, calls: seq<Call<R>>, ops: seq<Op>): Packer
      requires i < |configs| == |setup.serializers|
    {
      Expected(configs[i], setup, i, calls, ops)
    }

    /** Output `i` when it has done all of the calls and then the records of one more. */
    ghost function AfterRecords(i: nat, calls: seq<Call<R>>, records: seq<R>): Packer
      requires i < |configs| == |setup.serializers|
    {
      After(i, calls, NextOps(setup, i, calls, Input(records)))
    }

    ghost predicate Shaped()
      reads this
    {
      outputCount == |configs| == |setup.serializers| == |packers| && lastChunkTime == setup.startTime
    }

    ghost predicate Valid()
      reads this
    {
      Shaped() && state == StateAfter(setup, calls) && forall i | 0 <= i < outputCount :: packers[i] == After(i, calls, [])
    }

    /** Gives one passing record to the outputs in turn, to each as the one before has left it. */
    method WriteToAll(record: R)
      requires Shaped()
      modifies this`packers
      ensures Shaped()
      ensures forall i | 0 <= i < outputCount ::
                packers[i] == PackingSpec.WriteStream(configs[i], old(packers[i]), StreamOf(setup.serializers, i, record))
    {
      var current := record;
      for j := 0 to outputCount
        invariant Shaped() && current == Seen(setup.serializers, j, record)
        invariant forall i | 0 <= i < j ::
                    packers[i] == PackingSpec.WriteStream(configs[i], old(packers[i]), StreamOf(setup.serializers, i, record))
        invariant forall i | j <= i < outputCount :: packers[i] == old(packers[i])
      {
        var (stream, left) := setup.serializers[j](current);
        packers := packers[j := PackingSpec.WriteStream(configs[j], packers[j], stream)];
        current := left;
      }
    }

    /** Transforms one record and gives it to the outputs unless it is dropped. */
    method OnRecord(record: R)
      requires Shaped()
      modifies this`packers, this`state
      ensures Shaped() && state == setup.transform(old(state), record).0
      ensures var passed := setup.transform(old(state), record).1;
              forall i | 0 <= i < outputCount ::
                packers[i] == if passed.None? then old(packers[i])
                              else PackingSpec.WriteStream(configs[i], old(packers[i]),
                                                           StreamOf(setup.serializers, i, passed.value))
    {
      var (next, result) := setup.transform(state, record);
      state := next;
      if result.None? {
        return;
      }
      WriteToAll(result.value);
    }

    method OnInput(buffer: seq<R>)
      requires Valid()
      modifies this
      ensures Valid() && calls == old(calls) + [Input(buffer)]
    {
      assert buffer[..0] == [];
      for k := 0 to |buffer|
        invariant Shaped() && calls == old(calls) && |packers| == |old(packers)|
        invariant state == Passing(setup.transform, StateAfter(setup, calls), buffer[..k]).0
        invariant forall i | 0 <= i < outputCount :: packers[i] == AfterRecords(i, calls, buffer[..k])
      {
        TransformNext(setup.transform, StateAfter(setup, calls), buffer, k);
        forall i | 0 <= i < outputCount {
          ExpectedWrite(configs[i], setup, i, calls, buffer[..k], buffer[k]);
        }
        OnRecord(buffer[k]);
      }
      assert buffer[..|buffer|] == buffer;
      StateNext(setup, calls, Input(buffer));
      Record(Input(buffer));
    }

    ghost method Record(call: Call<R>)
      requires Shaped() && state == StateAfter(setup, calls + [call])
      requires forall i | 0 <= i < outputCount :: packers[i] == After(i, calls, NextOps(setup, i, calls, call))
      modifies this`calls
      ensures Valid() && calls == old(calls) + [call]
    {
      forall i | 0 <= i < outputCount ensures packers[i] == After(i, calls + [call], []) {
        ExpectedNext(configs[i], setup, i, calls, call);
      }
      calls := calls + [call];
    }

    method FlushChunk()
      requires Shaped()
      modifies this`packers
      ensures Shaped() && forall i | 0 <= i < outputCount :: packers[i] == Flush(configs[i], old(packers[i]))
    {
      for j := 0 to outputCount
        invariant Shaped()
        invariant forall i | 0 <= i < j :: packers[i] == Flush(configs[i], old(packers[i]))
        invariant forall i | j <= i < outputCount :: packers[i] == old(packers[i])
      {
        packers := packers[j := Flush(configs[j], packers[j])];
      }
    }

    /** Flushes if the interval is over; the time it counts from is set by the constructor and never again. */
    method OnTick(now: int)
      requires Valid()
      modifies this
      ensures Valid() && calls == old(calls) + [Tick(now)] && lastChunkTime == old(lastChunkTime)
      ensures forall i | 0 <= i < outputCount ::
                packers[i] == if now - lastChunkTime >= INTERVAL then Flush(configs[i], old(packers[i])) else old(packers[i])
    {
      StateNext(setup, calls, Tick(now));
      forall i | 0 <= i < outputCount {
        ExpectedQuiet(configs[i], setup, i, calls, Tick(now));
      }
      if now - lastChunkTime >= INTERVAL {
        FlushChunk();
      }
      Record(Tick(now));
    }

    method OnStop()
      requires Valid()
      modifies this
      ensures Valid() && calls == old(calls) + [Stop]
    {
      StateNext(setup, calls, Stop);
      forall i | 0 <= i < outputCount {
        ExpectedQuiet(configs[i], setup, i, calls, Stop);
      }
      FlushChunk();
      Record(Stop);
    }
  }
}
