/**
 The hybrid buffer of buffer/hybridbuffer as a transition system: callers of Accept, the feeder and the consumers take
 their steps in any order.
 */
module HybridBuffer {
  import opened Bytes
  import opened ChunkIds
  import opened Options
  import opened ChunkStore

  const MAX_NUM_CHUNKS_IN_QUEUE := 500000
  const MAX_NUM_CHUNKS_IN_MEMORY := 500

  datatype Feeder =
    | Recovering(names: seq<ID>)                       // before the feeder runs: files still to be queued
    | Waiting                                          // receiving from the input channel
    | Loading(chunk: LogChunk)                         // loadToOutput is called
    | Pushing(received: LogChunk, loaded: LogChunk)    // select on the output channel and the stop signal
    | SavingInput(last: Option<LogChunk>)              // saveEverything: the input channel,
    | SavingLast(last: Option<LogChunk>)               //   the chunk that could not be put out,
    | SavingOutput                                     //   the output channel
    | Joining                                          // waiting for consumers
    | Stopped

  datatype State = State(
    store: Store,
    unloading: seq<LogChunk>,      // calls of Accept that found the output too long and have to unload
    pushing: seq<LogChunk>,        // calls of Accept about to push into the input channel
    input: seq<LogChunk>,          // the input channel
    inputClosed: bool,
    stopSignal: bool,              // inputClosed.Signal, after the channel is closed
    feeder: Feeder,
    output: seq<LogChunk>,         // the output channel
    consumers: seq<LogChunk>,      // in the hands of consumers
    past: History)

  /** What happened so far; the program does not keep this. */
  datatype History = History(
    contents: map<ID, seq<byte>>,  // of all files at start and all chunks accepted
    begun: multiset<ID>,           // recovered and accepted chunks
    arrived: seq<ID>,              // those that reached the queue or overflowed, in that order
    delivered: seq<LogChunk>,      // received by consumers, in order
    consumed: multiset<ID>,
    dropped: multiset<ID>,
    lost: multiset<ID>,            // left by a consumer but not on disk
    returned: seq<LogChunk>,       // left by a consumer and on disk
    kept: seq<LogChunk>,           // saved by saveEverything
    recoveredBytes: nat,
    unstattedBytes: nat)           // of recovered files whose size could not be found out

  datatype Step = Accepting(accept: AcceptStep) | Feeding(feed: FeedStep) | Consuming(consume: ConsumeStep)

  datatype AcceptStep =
    | Accept(chunk: LogChunk)
    | AcceptUnload(i: nat, write: Write)
    | AcceptPush(i: nat)
    | CloseInput
    | SignalStop

  datatype FeedStep =
    | RecoverNext(statFails: bool)
    | RecoverEnd
    | Receive
    | InputEnds
    | LoadFails(readFails: bool)
    | LoadEmpty(unlinkFails: bool)
    | LoadSucceeds
    | Push
    | PushStops
    | SaveInput(write: Write)
    | SaveInputEnds
    | SaveLast(write: Write)
    | SaveOutput(write: Write)
    | SaveOutputEnds
    | Join

  datatype ConsumeStep =
    | Take
    | Confirm(i: nat, unlinkFails: bool)
    | GiveBack(i: nat, write: Write)

  /** At start: the matching files, in the order of their names, are queued. */
  ghost predicate Initial(s: State) {
    && s.store.ledger == Ledger(0, 0, 0, 0, 0)
    && s.store.disk.chunks == 0 && s.store.disk.bytes == 0
    && s.unloading == [] && s.pushing == [] && s.input == [] && !s.inputClosed && !s.stopSignal && s.output == [] && s.consumers == []
    && s.feeder.Recovering? && Ascending(s.feeder.names)
    && (!s.store.disk.hasDir ==> s.feeder.names == [])
    && (forall i | 0 <= i < |s.feeder.names| :: s.feeder.names[i] in s.store.disk.files && s.feeder.names[i] != [])
    && s.past == History(s.store.disk.files, multiset{}, [], [], multiset{}, multiset{}, multiset{}, [], [], 0, 0)
  }

  function Without<T>(q: seq<T>, i: nat): (r: seq<T>)
    requires i < |q|
    ensures |r| == |q| - 1
  {
    q[..i] + q[i + 1..]
  }

  // Accept and Destroy

  predicate AcceptEnabled(s: State, step: AcceptStep) {
    match step
    case Accept(c) =>
      !s.inputClosed && !s.feeder.Recovering? && c.id != [] && c.id !in s.past.contents && !c.saved
    case AcceptUnload(i, _) => i < |s.unloading|
    case AcceptPush(i) => i < |s.pushing|
    case CloseInput => !s.inputClosed && !s.feeder.Recovering? && s.unloading == [] && s.pushing == []
    case SignalStop => s.inputClosed
  }

  function ApplyAccept(s: State, step: AcceptStep): State
    requires AcceptEnabled(s, step)
  {
    match step
    case Accept(c) => BeginAccept(s, c)
    case AcceptUnload(i, write) => UnloadAccepted(s, i, write)
    case AcceptPush(i) => PushAccepted(s, i)
    case CloseInput => s.(inputClosed := true)
    case SignalStop => s.(stopSignal := true)
  }

  function BeginAccept(s: State, c: LogChunk): State {
    // the length read may be behind the one there is, hence half of the limit
    var mustUnload := |s.output| >= MAX_NUM_CHUNKS_IN_MEMORY / 2;
    s.(store := s.store.(ledger := Begin(s.store.ledger)),
       unloading := if mustUnload then s.unloading + [c] else s.unloading,
       pushing := if mustUnload then s.pushing else s.pushing + [c],
       past := s.past.(contents := s.past.contents[c.id := if c.data.Some? then c.data.value else []],
                       begun := s.past.begun + multiset{c.id}))
  }

  function UnloadAccepted(s: State, i: nat, write: Write): State
    requires i < |s.unloading|
  {
    var c := s.unloading[i];
    var (store, unloaded) := UnloadOrDrop(s.store, c, write);
    var s' := s.(store := store, unloading := Without(s.unloading, i));
    if unloaded.Some? then s'.(pushing := s.pushing + [unloaded.value])
    else s'.(past := s.past.(dropped := s.past.dropped + multiset{c.id}))
  }

  function PushAccepted(s: State, i: nat): State
    requires i < |s.pushing|
  {
    var c := s.pushing[i];
    var s' := s.(pushing := Without(s.pushing, i), past := s.past.(arrived := s.past.arrived + [c.id]));
    if |s.input| < MAX_NUM_CHUNKS_IN_QUEUE then s'.(input := s.input + [c])
    else s'.(store := Drop(s.store, c), past := s'.past.(dropped := s.past.dropped + multiset{c.id}))
  }

  // The feeder

  predicate FeedEnabled(s: State, step: FeedStep) {
    match step
    case RecoverNext(_) =>
      s.feeder.Recovering? && s.feeder.names != [] && |s.input| < MAX_NUM_CHUNKS_IN_QUEUE
    case RecoverEnd => s.feeder.Recovering? && (s.feeder.names == [] || |s.input| >= MAX_NUM_CHUNKS_IN_QUEUE)
    case Receive => s.feeder.Waiting? && s.input != []
    case InputEnds => s.feeder.Waiting? && s.input == [] && s.inputClosed
    case LoadFails(readFails) => s.feeder.Loading? && Load(s.store.disk, s.feeder.chunk, readFails).None?
    case LoadEmpty(_) =>
      s.feeder.Loading? && var l := Load(s.store.disk, s.feeder.chunk, false); l.Some? && Size(l.value) == 0
    case LoadSucceeds =>
      s.feeder.Loading? && var l := Load(s.store.disk, s.feeder.chunk, false); l.Some? && Size(l.value) > 0
    case Push => s.feeder.Pushing? && |s.output| < MAX_NUM_CHUNKS_IN_MEMORY
    case PushStops => s.feeder.Pushing? && s.stopSignal
    case SaveInput(_) => s.feeder.SavingInput? && s.input != []
    case SaveInputEnds => s.feeder.SavingInput? && s.input == [] && s.inputClosed
    case SaveLast(_) => s.feeder.SavingLast?
    case SaveOutput(_) => s.feeder.SavingOutput? && s.output != []
    case SaveOutputEnds => s.feeder.SavingOutput? && s.output == []
    case Join => s.feeder.Joining? && s.consumers == []
  }

  function ApplyFeed(s: State, step: FeedStep): State
    requires FeedEnabled(s, step)
  {
    match step
    case RecoverNext(statFails) => RecoverOne(s, statFails)
    case RecoverEnd => s.(feeder := Waiting)
    case Receive => s.(feeder := Loading(s.input[0]), input := s.input[1..])
    case InputEnds => s.(feeder := SavingInput(None))
    case LoadFails(_) => DropLoading(s)
    case LoadEmpty(unlinkFails) => DiscardLoading(s, unlinkFails)
    case LoadSucceeds =>
      s.(feeder := Pushing(s.feeder.chunk, Load(s.store.disk, s.feeder.chunk, false).value))
    case Push => s.(feeder := Waiting, output := s.output + [s.feeder.loaded])
    case PushStops => s.(feeder := SavingInput(Some(s.feeder.received)))
    case SaveInput(write) => Save(s.(input := s.input[1..]), s.input[0], write)
    case SaveInputEnds => s.(feeder := SavingLast(s.feeder.last))
    case SaveLast(write) =>
      var s' := s.(feeder := SavingOutput);
      if s.feeder.last.Some? && s.feeder.last.value.id != [] then Save(s', s.feeder.last.value, write) else s'
    case SaveOutput(write) => Save(s.(output := s.output[1..]), s.output[0], write)
    case SaveOutputEnds => s.(feeder := Joining)
    case Join => s.(feeder := Stopped)
  }

  function RecoverOne(s: State, statFails: bool): State
    requires s.feeder.Recovering? && s.feeder.names != []
  {
    var c := LogChunk(s.feeder.names[0], None, true);
    var size := if c.id in s.store.disk.files then |s.store.disk.files[c.id]| else 0;
    s.(store := Store(Recover(s.store.disk, c, statFails), Begin(s.store.ledger)),
       feeder := Recovering(s.feeder.names[1..]),
       input := s.input + [c],
       past := s.past.(begun := s.past.begun + multiset{c.id}, arrived := s.past.arrived + [c.id],
                       recoveredBytes := s.past.recoveredBytes + if statFails then 0 else size,
                       unstattedBytes := s.past.unstattedBytes + if statFails then size else 0))
  }

  function DropLoading(s: State): State
    requires s.feeder.Loading?
  {
    s.(feeder := Waiting, store := Drop(s.store, s.feeder.chunk),
       past := s.past.(dropped := s.past.dropped + multiset{s.feeder.chunk.id}))
  }

  function DiscardLoading(s: State, unlinkFails: bool): State
    requires FeedEnabled(s, LoadEmpty(unlinkFails))
  {
    s.(feeder := Waiting,
       store := Discard(s.store, Load(s.store.disk, s.feeder.chunk, false).value, unlinkFails),
       past := s.past.(dropped := s.past.dropped + multiset{s.feeder.chunk.id}))
  }

  /** One round of saveEverything, for a chunk that has been taken out of `s`. */
  function Save(s: State, c: LogChunk, write: Write): State {
    var (store, unloaded) := UnloadOrDrop(s.store, c, write);
    if unloaded.Some? then s.(store := store, past := s.past.(kept := s.past.kept + [unloaded.value]))
    else s.(store := store, past := s.past.(dropped := s.past.dropped + multiset{c.id}))
  }

  // Consumers

  predicate ConsumeEnabled(s: State, step: ConsumeStep) {
    match step
    case Take => s.output != [] && !s.feeder.Stopped?
    case Confirm(i, _) => i < |s.consumers|
    case GiveBack(i, _) => i < |s.consumers|
  }

  function ApplyConsume(s: State, step: ConsumeStep): State
    requires ConsumeEnabled(s, step)
  {
    match step
    case Take =>
      s.(output := s.output[1..], consumers := s.consumers + [s.output[0]],
         past := s.past.(delivered := s.past.delivered + [s.output[0]]))
    case Confirm(i, unlinkFails) =>
      s.(store := Consume(s.store, s.consumers[i], unlinkFails), consumers := Without(s.consumers, i),
         past := s.past.(consumed := s.past.consumed + multiset{s.consumers[i].id}))
    case GiveBack(i, write) => TakeBack(s, i, write)
  }

  function TakeBack(s: State, i: nat, write: Write): State
    requires i < |s.consumers|
  {
    var c := s.consumers[i];
    var unloaded := Unload(s.store.disk, c, write).1;
    s.(store := Leave(s.store, c, write), consumers := Without(s.consumers, i),
       past := if unloaded.Some? then s.past.(returned := s.past.returned + [unloaded.value])
               else s.past.(lost := s.past.lost + multiset{c.id}))
  }

  predicate Enabled(s: State, step: Step) {
    match step
    case Accepting(a) => AcceptEnabled(s, a)
    case Feeding(f) => FeedEnabled(s, f)
    case Consuming(c) => ConsumeEnabled(s, c)
  }

  function Apply(s: State, step: Step): State
    requires Enabled(s, step)
  {
    match step
    case Accepting(a) => ApplyAccept(s, a)
    case Feeding(f) => ApplyFeed(s, f)
    case Consuming(c) => ApplyConsume(s, c)
  }

  /** The state after some steps, if each could be taken. */
  function Run(start: State, steps: seq<Step>): Option<State> {
    if steps == [] then Some(start)
    else
      var before := Run(start, steps[..|steps| - 1]);
      if before.Some? && Enabled(before.value, steps[|steps| - 1])
      then Some(Apply(before.value, steps[|steps| - 1]))
      else None
  }
}
