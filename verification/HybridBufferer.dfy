/**
 The loops and branches of buffer/hybridbuffer's bufferer and outputFeeder on their channels, each shown to be a run of
 steps of the buffer. What the file system answers depends on the file.
 */
module HybridBufferer {
  import opened Bytes
  import opened Options
  import opened ChunkStore
  import opened HybridBuffer
  import opened HybridSafety
  import opened HybridTheorems

  type Writes = ID -> Write

  // Runs of steps

  /** A whole call of Accept. */
  function AcceptAll(s: State, c: LogChunk, write: Write): State
    requires s.unloading == [] && s.pushing == []
  {
    var begun := BeginAccept(s, c);
    var ready := if begun.unloading != [] then UnloadAccepted(begun, 0, write) else begun;
    if ready.pushing != [] then PushAccepted(ready, 0) else ready
  }

  /** The rest of recoverExistingChunks. */
  function RecoverAll(s: State, statFails: ID -> bool): State
    requires s.feeder.Recovering?
    decreases |s.feeder.names|
  {
    if s.feeder.names == [] || |s.input| >= MAX_NUM_CHUNKS_IN_QUEUE then s.(feeder := Waiting)
    else RecoverAll(RecoverOne(s, statFails(s.feeder.names[0])), statFails)
  }

  /** A whole call of loadToOutput, and its result. */
  function Loaded(s: State, readFails: bool, unlinkFails: bool, preferStop: bool): (State, bool)
    requires s.feeder.Loading?
  {
    var l := Load(s.store.disk, s.feeder.chunk, readFails);
    if l.None? then (DropLoading(s), true)
    else if Size(l.value) == 0 then
      (s.(feeder := Waiting, store := Discard(s.store, l.value, unlinkFails),
          past := s.past.(dropped := s.past.dropped + multiset{s.feeder.chunk.id})), true)
    else if |s.output| < MAX_NUM_CHUNKS_IN_MEMORY && !(s.stopSignal && preferStop) then
      (s.(feeder := Waiting, output := s.output + [l.value]), true)
    else (s.(feeder := SavingInput(Some(s.feeder.chunk))), false)
  }

  /** The rest of saveEverything. */
  function SaveInputs(s: State, writes: Writes): State
    decreases |s.input|
  {
    if s.input == [] then s else SaveInputs(Save(s.(input := s.input[1..]), s.input[0], writes(s.input[0].id)), writes)
  }

  function SaveOutputs(s: State, writes: Writes): State
    decreases |s.output|
  {
    if s.output == [] then s
    else SaveOutputs(Save(s.(output := s.output[1..]), s.output[0], writes(s.output[0].id)), writes)
  }

  function SaveAll(s: State, last: LogChunk, writes: Writes): State {
    var s1 := SaveInputs(s, writes);
    var s2 := if last.id != [] then Save(s1.(feeder := SavingOutput), last, writes(last.id))
              else s1.(feeder := SavingOutput);
    SaveOutputs(s2, writes).(feeder := Joining)
  }

  class Bufferer {
    const chunkMan: ChunkManager
    var inputChannel: seq<LogChunk>
    var inputClosed: bool
    var stopSignal: bool
    var outputChannel: seq<LogChunk>
    ghost var feeder: Feeder
    ghost var consumers: seq<LogChunk>
    ghost var past: History

    constructor (chunkMan: ChunkManager, names: seq<ID>)
      ensures this.chunkMan == chunkMan
      ensures View() == HybridBuffer.State(
                          chunkMan.Value(), [], [], [], false, false, Recovering(names), [], [],
                          History(chunkMan.Value().disk.files, multiset{}, [], [], multiset{}, multiset{}, multiset{},
                                  [], [], 0, 0))
    {
      this.chunkMan := chunkMan;
      inputChannel, inputClosed, stopSignal, outputChannel := [], false, false, [];
      feeder, consumers := Recovering(names), [];
      past := History(chunkMan.Value().disk.files, multiset{}, [], [], multiset{}, multiset{}, multiset{},
                      [], [], 0, 0);
    }

    /** The state between two calls. */
    ghost function View(): State
      reads this, chunkMan, chunkMan.operator
    {
      HybridBuffer.State(
        chunkMan.Value(), [], [], inputChannel, inputClosed, stopSignal, feeder, outputChannel, consumers, past)
    }

    method Accept(chunk: LogChunk, write: Write)
      requires AcceptEnabled(View(), HybridBuffer.Accept(chunk))
      modifies this, chunkMan, chunkMan.operator
      ensures View() == AcceptAll(old(View()), chunk, write)
    {
      ghost var data := if chunk.data.Some? then chunk.data.value else [];
      past := past.(contents := past.contents[chunk.id := data], begun := past.begun + multiset{chunk.id});
      var ref := new ChunkRef(chunk);
      chunkMan.OnChunkInput();
      if |outputChannel| >= MAX_NUM_CHUNKS_IN_MEMORY / 2 {
        var ok := chunkMan.UnloadOrDropChunk(ref, write);
        if !ok {
          past := past.(dropped := past.dropped + multiset{chunk.id});
          return;
        }
      }
      past := past.(arrived := past.arrived + [chunk.id]);
      if |inputChannel| < MAX_NUM_CHUNKS_IN_QUEUE {
        inputChannel := inputChannel + [ref.Value()];
      } else {
        chunkMan.OnChunkDropped(ref.Value());
        past := past.(dropped := past.dropped + multiset{chunk.id});
      }
    }

    /** One round of the recovery loop. */
    method RecoverChunk(chunk: LogChunk, statFails: bool)
      requires feeder.Recovering? && feeder.names != [] && chunk == LogChunk(feeder.names[0], None, true)
      modifies this, chunkMan, chunkMan.operator
      ensures View() == RecoverOne(old(View()), statFails)
    {
      ghost var files := chunkMan.operator.files;
      ghost var size := if chunk.id in files then |files[chunk.id]| else 0;
      inputChannel := inputChannel + [chunk];
      chunkMan.OnChunkInputRecovered(chunk, statFails);
      feeder := Recovering(feeder.names[1..]);
      past := past.(begun := past.begun + multiset{chunk.id}, arrived := past.arrived + [chunk.id],
                    recoveredBytes := past.recoveredBytes + if statFails then 0 else size,
                    unstattedBytes := past.unstattedBytes + if statFails then size else 0);
    }

    method RecoverExistingChunks(names: seq<ID>, statFails: ID -> bool)
      requires feeder == Recovering(names)
      modifies this, chunkMan, chunkMan.operator
      ensures View() == RecoverAll(old(View()), statFails)
    {
      var i := 0;
      while i < |names| && |inputChannel| < MAX_NUM_CHUNKS_IN_QUEUE
        invariant i <= |names| && feeder == Recovering(names[i..])
        invariant RecoverAll(View(), statFails) == old(RecoverAll(View(), statFails))
      {
        RecoverChunk(LogChunk(names[i], None, true), statFails(names[i]));
        i := i + 1;
      }
      feeder := Waiting;
    }

    /**
     The result is false where the feeder has to give up. With both cases of the last `select` ready, either may be taken; the
     source waits there until one is.
     */
    method LoadToOutput(chunk: LogChunk, readFails: bool, unlinkFails: bool, preferStop: bool) returns (ok: bool)
      requires feeder == Loading(chunk)
      requires |outputChannel| < MAX_NUM_CHUNKS_IN_MEMORY || stopSignal
      modifies this, chunkMan, chunkMan.operator
      ensures (View(), ok) == Loaded(old(View()), readFails, unlinkFails, preferStop)
    {
      var ref := new ChunkRef(chunk);
      var loaded := chunkMan.LoadOrDropChunk(ref, readFails);
      if !loaded {
        past := past.(dropped := past.dropped + multiset{chunk.id});
        feeder := Waiting;
        return true;
      }
      if Size(ref.Value()) == 0 {
        chunkMan.OnChunkCorrupted(ref.Value(), unlinkFails);
        past := past.(dropped := past.dropped + multiset{chunk.id});
        feeder := Waiting;
        return true;
      }
      if |outputChannel| < MAX_NUM_CHUNKS_IN_MEMORY && !(stopSignal && preferStop) {
        outputChannel := outputChannel + [ref.Value()];
        feeder := Waiting;
        return true;
      } else {
        feeder := SavingInput(Some(chunk));
        return false;
      }
    }

    /** The body of the loops of saveEverything. */
    method SaveChunk(chunk: LogChunk, write: Write)
      modifies this`past, chunkMan, chunkMan.operator
      ensures View() == Save(old(View()), chunk, write)
    {
      var ref := new ChunkRef(chunk);
      var ok := chunkMan.UnloadOrDropChunk(ref, write);
      if ok {
        past := past.(kept := past.kept + [ref.Value()]);
      } else {
        past := past.(dropped := past.dropped + multiset{chunk.id});
      }
    }

    method SaveInputChannel(writes: Writes)
      requires inputClosed // or the range over the channel would not end
      modifies this, chunkMan, chunkMan.operator
      ensures View() == SaveInputs(old(View()), writes) && inputChannel == []
    {
      while inputChannel != []
        invariant SaveInputs(View(), writes) == old(SaveInputs(View(), writes))
        decreases |inputChannel|
      {
        var chunk := inputChannel[0];
        inputChannel := inputChannel[1..];
        SaveChunk(chunk, writes(chunk.id));
      }
    }

    method SaveOutputChannel(writes: Writes)
      modifies this, chunkMan, chunkMan.operator
      ensures View() == SaveOutputs(old(View()), writes) && outputChannel == []
    {
      while outputChannel != []
        invariant SaveOutputs(View(), writes) == old(SaveOutputs(View(), writes))
        decreases |outputChannel|
      {
        var chunk := outputChannel[0];
        outputChannel := outputChannel[1..];
        SaveChunk(chunk, writes(chunk.id));
      }
    }

    method SaveEverything(lastInputChunk: LogChunk, writes: Writes)
      requires inputClosed
      modifies this, chunkMan, chunkMan.operator
      ensures View() == SaveAll(old(View()), lastInputChunk, writes)
    {
      SaveInputChannel(writes);
      feeder := SavingOutput;
      if lastInputChunk.id != [] {
        SaveChunk(lastInputChunk, writes(lastInputChunk.id));
      }
      SaveOutputChannel(writes);
      feeder := Joining;
    }
  }

  // The loops keep what the steps keep

  lemma AcceptAllKeeps(s: State, c: LogChunk, write: Write)
    requires Inv(s) && s.unloading == [] && s.pushing == [] && AcceptEnabled(s, HybridBuffer.Accept(c))
    ensures Inv(AcceptAll(s, c, write))
  {
    AcceptKeeps(s, HybridBuffer.Accept(c));
    var begun := BeginAccept(s, c);
    if begun.unloading != [] {
      AcceptKeeps(begun, AcceptUnload(0, write));
      var ready := UnloadAccepted(begun, 0, write);
      if ready.pushing != [] {
        AcceptKeeps(ready, AcceptPush(0));
      }
    } else {
      AcceptKeeps(begun, AcceptPush(0));
    }
  }

  lemma {:induction false} RecoverAllKeeps(s: State, statFails: ID -> bool)
    requires Inv(s) && s.feeder.Recovering?
    ensures Inv(RecoverAll(s, statFails))
    decreases |s.feeder.names|
  {
    if s.feeder.names == [] || |s.input| >= MAX_NUM_CHUNKS_IN_QUEUE {
      FeedKeeps(s, RecoverEnd);
    } else {
      var fails := statFails(s.feeder.names[0]);
      FeedKeeps(s, RecoverNext(fails));
      RecoverAllKeeps(RecoverOne(s, fails), statFails);
    }
  }

  lemma LoadedKeeps(s: State, readFails: bool, unlinkFails: bool, preferStop: bool)
    requires Inv(s) && s.feeder.Loading? && (|s.output| < MAX_NUM_CHUNKS_IN_MEMORY || s.stopSignal)
    ensures Inv(Loaded(s, readFails, unlinkFails, preferStop).0)
  {
    var l := Load(s.store.disk, s.feeder.chunk, readFails);
    if l.None? {
      FeedKeeps(s, LoadFails(readFails));
    } else if Size(l.value) == 0 {
      FeedKeeps(s, LoadEmpty(unlinkFails));
    } else {
      FeedKeeps(s, LoadSucceeds);
      var pushing := ApplyFeed(s, LoadSucceeds);
      if |s.output| < MAX_NUM_CHUNKS_IN_MEMORY && !(s.stopSignal && preferStop) {
        FeedKeeps(pushing, Push);
      } else {
        FeedKeeps(pushing, PushStops);
      }
    }
  }

  lemma {:induction false} SaveInputsKeeps(s: State, writes: Writes)
    requires Inv(s) && s.feeder.SavingInput?
    ensures var s' := SaveInputs(s, writes);
            Inv(s') && s'.input == [] && s'.feeder == s.feeder
    decreases |s.input|
  {
    if s.input != [] {
      var write := writes(s.input[0].id);
      FeedKeeps(s, SaveInput(write));
      SaveInputsKeeps(ApplyFeed(s, SaveInput(write)), writes);
    }
  }

  lemma {:induction false} SaveOutputsKeeps(s: State, writes: Writes)
    requires Inv(s) && s.feeder.SavingOutput?
    ensures var s' := SaveOutputs(s, writes);
            Inv(s') && s'.output == [] && s'.feeder == s.feeder
    decreases |s.output|
  {
    if s.output != [] {
      var write := writes(s.output[0].id);
      FeedKeeps(s, SaveOutput(write));
      SaveOutputsKeeps(ApplyFeed(s, SaveOutput(write)), writes);
    }
  }

  /** `last` is the zero chunk when the main loop ended because the input channel was closed. */
  lemma SaveAllKeeps(s: State, last: LogChunk, writes: Writes)
    requires Inv(s) && s.feeder.SavingInput?
    requires s.feeder.last == if last.id != [] then Some(last) else None
    ensures Inv(SaveAll(s, last, writes))
  {
    SaveInputsKeeps(s, writes);
    var s1 := SaveInputs(s, writes);
    FeedKeeps(s1, SaveInputEnds);
    var s2 := ApplyFeed(s1, SaveInputEnds);
    FeedKeeps(s2, SaveLast(writes(last.id)));
    var s3 := ApplyFeed(s2, SaveLast(writes(last.id)));
    SaveOutputsKeeps(s3, writes);
    FeedKeeps(SaveOutputs(s3, writes), SaveOutputEnds);
  }

  // Saving succeeds if there is room

  function UnsavedBytes(q: seq<LogChunk>): nat {
    if q == [] then 0 else (if q[0].saved then 0 else Size(q[0])) + UnsavedBytes(q[1..])
  }

  predicate Savable(q: seq<LogChunk>) {
    forall i | 0 <= i < |q| :: q[i].saved || q[i].data.Some?
  }

  ghost predicate AllWritten(s: State, writes: Writes) {
    s.store.disk.hasDir && forall id: ID :: writes(id).Writes?
  }

  lemma {:induction false} SaveInputsSaves(s: State, writes: Writes)
    requires AllWritten(s, writes) && Savable(s.input)
    requires s.store.disk.bytes + UnsavedBytes(s.input) <= s.store.disk.maxTotalBytes
    ensures var s' := SaveInputs(s, writes);
            && |s'.past.kept| == |s.past.kept| + |s.input| && s'.past.dropped == s.past.dropped
            && s'.store.disk.bytes == s.store.disk.bytes + UnsavedBytes(s.input)
            && s'.store.disk.maxTotalBytes == s.store.disk.maxTotalBytes && s'.store.disk.hasDir
            && s'.output == s.output
    decreases |s.input|
  {
    if s.input != [] {
      SaveInputsSaves(Save(s.(input := s.input[1..]), s.input[0], writes(s.input[0].id)), writes);
    }
  }

  lemma {:induction false} SaveOutputsSaves(s: State, writes: Writes)
    requires AllWritten(s, writes) && Savable(s.output)
    requires s.store.disk.bytes + UnsavedBytes(s.output) <= s.store.disk.maxTotalBytes
    ensures var s' := SaveOutputs(s, writes);
            |s'.past.kept| == |s.past.kept| + |s.output| && s'.past.dropped == s.past.dropped
    decreases |s.output|
  {
    if s.output != [] {
      SaveOutputsSaves(Save(s.(output := s.output[1..]), s.output[0], writes(s.output[0].id)), writes);
    }
  }

  /** The chunk that could not be put out, if there is one. */
  function LastOnes(last: LogChunk): seq<LogChunk> {
    if last.id != [] then [last] else []
  }

  /**
   With a working directory and room for what is not saved yet, shutdown drops nothing and keeps every chunk, with or
   without one in the feeder's hand.
   */
  lemma ShutdownSavesEverything(s: State, last: LogChunk, writes: Writes)
    requires AllWritten(s, writes) && Savable(s.input) && Savable(LastOnes(last)) && Savable(s.output)
    requires s.store.disk.bytes + UnsavedBytes(s.input) + UnsavedBytes(LastOnes(last)) + UnsavedBytes(s.output)
             <= s.store.disk.maxTotalBytes
    ensures var s' := SaveAll(s, last, writes);
            && |s'.past.kept| == |s.past.kept| + |s.input| + |LastOnes(last)| + |s.output|
            && s'.past.dropped == s.past.dropped
  {
    SaveInputsSaves(s, writes);
    var s1 := SaveInputs(s, writes);
    if last.id != [] {
      assert LastOnes(last)[0] == last;
      SaveOutputsSaves(Save(s1.(feeder := SavingOutput), last, writes(last.id)), writes);
    } else {
      SaveOutputsSaves(s1.(feeder := SavingOutput), writes);
    }
  }
}
