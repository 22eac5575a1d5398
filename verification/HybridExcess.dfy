/** How far the gauge of persistent bytes is above what is tracked, and which steps take it there. */
module HybridExcess {
  import opened Bytes
  import opened ChunkIds
  import opened Options
  import opened ChunkStore
  import opened HybridBuffer
  import opened HybridSafety
  import opened HybridFiles
  import opened HybridGauge
  import opened HybridTheorems

  /**
   Bytes on the gauge that belong to no saved chunk the buffer knows of or has given back. Recovered files whose size
   could not be found out are not held against it.
   */
  function Excess(s: State): int {
    s.store.disk.bytes + s.past.unstattedBytes - SavedTotal(s, s.past.contents)
  }

  /**
   What a step adds: the size of a saved chunk that overflows the queue, that cannot be loaded, or whose file cannot be
   removed after it was consumed. The first two are dropped without their data, which is what the gauge would go down by.
   */
  function Grown(s: State, step: Step): nat
    requires Enabled(s, step)
  {
    match step
    case Accepting(AcceptPush(i)) =>
      if |s.input| >= MAX_NUM_CHUNKS_IN_QUEUE then SavedSize(s.pushing[i], s.past.contents) else 0
    case Feeding(LoadFails(_)) => SavedSize(s.feeder.chunk, s.past.contents)
    case Consuming(Confirm(i, unlinkFails)) => if unlinkFails then SavedSize(s.consumers[i], s.past.contents) else 0
    case _ => 0
  }

  // What chunks look like on their way

  ghost predicate NoneSaved(q: seq<LogChunk>) {
    forall i | 0 <= i < |q| :: !q[i].saved
  }

  ghost predicate SavedAreUnloaded(q: seq<LogChunk>) {
    forall i | 0 <= i < |q| && q[i].saved :: q[i].data.None?
  }

  /** Without a directory nothing is saved. */
  ghost predicate NoDirNoFiles(s: State) {
    !s.store.disk.hasDir ==>
    && (s.feeder.Recovering? ==> s.feeder.names == [])
    && NoneSaved(s.pushing) && NoneSaved(s.input) && NoneSaved(s.output) && NoneSaved(s.consumers)
    && (Hand(s.feeder).Some? ==> !Hand(s.feeder).value.saved)
    && (s.feeder.Pushing? ==> !s.feeder.received.saved)
  }

  /** Chunks are saved by being unloaded, and loaded for consumers. */
  ghost predicate Carried(s: State) {
    NoneSaved(s.unloading) && SavedAreUnloaded(s.pushing) && AllLoaded(s.consumers, s.past.contents) && NoDirNoFiles(s)
  }

  lemma PushCarries(s: State, i: nat)
    requires Carried(s) && i < |s.pushing|
    ensures Carried(PushAccepted(s, i))
  {
  }

  lemma AcceptCarries(s: State, step: AcceptStep)
    requires Carried(s) && OutputsLoaded(s) && AcceptEnabled(s, step)
    ensures Carried(ApplyAccept(s, step))
  {
    if step.Accept? {
    } else if step.AcceptUnload? {
      UnloadCarries(s, step.i, step.write);
    } else if step.AcceptPush? {
      PushCarries(s, step.i);
    } else {
    }
  }

  lemma UnloadCarries(s: State, i: nat, write: Write)
    requires Carried(s) && i < |s.unloading|
    ensures Carried(UnloadAccepted(s, i, write))
  {
    var c := s.unloading[i];
    assert !c.saved;
    var unloaded := UnloadOrDrop(s.store, c, write).1;
    if unloaded.Some? {
      assert unloaded.value == LogChunk(c.id, None, true) && s.store.disk.hasDir;
    }
  }

  lemma SaveCarries(s: State, c: LogChunk, write: Write)
    requires Carried(s) && !s.feeder.Recovering?
    ensures Carried(Save(s, c, write))
  {
    UnloadKeepsDir(s.store, c, write);
  }

  lemma UnloadKeepsDir(store: Store, c: LogChunk, write: Write)
    ensures UnloadOrDrop(store, c, write).0.disk.hasDir == store.disk.hasDir
  {
  }

  lemma FeedCarries(s: State, step: FeedStep)
    requires Carried(s) && FeedEnabled(s, step)
    ensures Carried(ApplyFeed(s, step))
  {
    if step.SaveInput? {
      SaveCarries(s.(input := s.input[1..]), s.input[0], step.write);
    } else if step.SaveOutput? {
      SaveCarries(s.(output := s.output[1..]), s.output[0], step.write);
    } else if step.SaveLast? {
      if s.feeder.last.Some? {
        SaveCarries(s.(feeder := SavingOutput), s.feeder.last.value, step.write);
      }
    } else if step.RecoverNext? || step.LoadFails? || step.LoadEmpty? {
    } else {
    }
  }

  lemma ConsumeCarries(s: State, step: ConsumeStep)
    requires Carried(s) && OutputsLoaded(s) && ConsumeEnabled(s, step)
    ensures Carried(ApplyConsume(s, step))
  {
    if step.Take? {
    } else if step.Confirm? {
    } else {
    }
  }

  lemma StepCarries(s: State, step: Step)
    requires Carried(s) && OutputsLoaded(s) && Enabled(s, step)
    ensures Carried(Apply(s, step))
  {
    match step
    case Accepting(a) => AcceptCarries(s, a);
    case Feeding(f) => FeedCarries(s, f);
    case Consuming(c) => ConsumeCarries(s, c);
  }

  lemma {:induction false} CarriedAlways(start: State, steps: seq<Step>)
    requires Initial(start) && Run(start, steps).Some?
    ensures Carried(Run(start, steps).value)
    decreases |steps|
  {
    if steps != [] {
      var before := steps[..|steps| - 1];
      CarriedAlways(start, before);
      InvAlways(start, before);
      StepCarries(Run(start, before).value, steps[|steps| - 1]);
    }
  }

  // Step by step

  lemma SaveExcess(s: State, c: LogChunk, write: Write)
    requires Faithful(c, s.past.contents, s.store.disk.files)
    ensures Excess(Save(s, c, write)) == Excess(s) - SavedSize(c, s.past.contents)
  {
    UnloadMeasured(s.store.disk, c, write, s.past.contents);
    var (disk, r) := Unload(s.store.disk, c, write);
    if r.Some? {
      LastMeasured(s.past.kept, r.value, s.past.contents);
    } else {
      assert Save(s, c, write).store.disk.bytes == s.store.disk.bytes;
    }
  }

  lemma BeginAcceptExcess(s: State, c: LogChunk)
    requires PlacesFaithful(s) && c.id !in s.past.contents && !c.saved
    ensures Excess(BeginAccept(s, c)) == Excess(s)
  {
    var contents, files := s.past.contents, s.store.disk.files;
    var data := if c.data.Some? then c.data.value else [];
    StillMeasured(s.unloading, contents, files, c.id, data);
    StillMeasured(s.pushing, contents, files, c.id, data);
    StillMeasured(s.input, contents, files, c.id, data);
    StillMeasured(s.output, contents, files, c.id, data);
    StillMeasured(s.consumers, contents, files, c.id, data);
    StillMeasured(s.past.kept, contents, files, c.id, data);
    StillMeasured(s.past.returned, contents, files, c.id, data);
    LastMeasured(s.unloading, c, contents[c.id := data]);
    LastMeasured(s.pushing, c, contents[c.id := data]);
  }

  lemma UnloadAcceptedExcess(s: State, i: nat, write: Write)
    requires PlacesFaithful(s) && i < |s.unloading|
    ensures Excess(UnloadAccepted(s, i, write)) == Excess(s)
  {
    var contents, c := s.past.contents, s.unloading[i];
    assert Faithful(c, contents, s.store.disk.files);
    SavedBytesWithout(s.unloading, i, contents);
    UnloadMeasured(s.store.disk, c, write, contents);
    var (disk, r) := Unload(s.store.disk, c, write);
    if r.Some? {
      LastMeasured(s.pushing, r.value, contents);
    } else {
      assert UnloadAccepted(s, i, write).store.disk.bytes == s.store.disk.bytes;
    }
  }

  lemma PushAcceptedExcess(s: State, i: nat)
    requires PlacesFaithful(s) && SavedAreUnloaded(s.pushing) && i < |s.pushing|
    ensures Excess(PushAccepted(s, i)) == Excess(s) + Grown(s, Accepting(AcceptPush(i)))
  {
    var contents, c := s.past.contents, s.pushing[i];
    SavedBytesWithout(s.pushing, i, contents);
    if |s.input| < MAX_NUM_CHUNKS_IN_QUEUE {
      LastMeasured(s.input, c, contents);
    }
  }

  lemma AcceptExcess(s: State, step: AcceptStep)
    requires Inv(s) && Carried(s) && AcceptEnabled(s, step)
    ensures Excess(ApplyAccept(s, step)) == Excess(s) + Grown(s, Accepting(step))
  {
    if step.Accept? {
      BeginAcceptExcess(s, step.chunk);
    } else if step.AcceptUnload? {
      UnloadAcceptedExcess(s, step.i, step.write);
    } else if step.AcceptPush? {
      PushAcceptedExcess(s, step.i);
    } else {
    }
  }

  lemma SavesExcess(s: State, step: FeedStep)
    requires PlacesFaithful(s) && FeedEnabled(s, step) && (step.SaveInput? || step.SaveOutput?)
    ensures Excess(ApplyFeed(s, step)) == Excess(s)
  {
    var contents, files := s.past.contents, s.store.disk.files;
    if step.SaveInput? {
      TailFaithful(s.input, contents, files);
      FirstMeasured(s.input, contents);
      SaveExcess(s.(input := s.input[1..]), s.input[0], step.write);
    } else {
      TailFaithful(s.output, contents, files);
      FirstMeasured(s.output, contents);
      SaveExcess(s.(output := s.output[1..]), s.output[0], step.write);
    }
  }

  lemma SaveLastExcess(s: State, write: Write)
    requires PlacesFaithful(s) && s.feeder.SavingLast? && (s.feeder.last.Some? ==> s.feeder.last.value.id != [])
    ensures Excess(ApplyFeed(s, SaveLast(write))) == Excess(s)
  {
    if s.feeder.last.Some? {
      SaveExcess(s.(feeder := SavingOutput), s.feeder.last.value, write);
      assert ApplyFeed(s, SaveLast(write)) == Save(s.(feeder := SavingOutput), s.feeder.last.value, write);
    }
  }

  lemma RecoverOneExcess(s: State, statFails: bool)
    requires NamesFresh(s) && FeedEnabled(s, RecoverNext(statFails))
    ensures Excess(RecoverOne(s, statFails)) == Excess(s)
  {
    var c := LogChunk(s.feeder.names[0], None, true);
    assert s.feeder.names[0] in s.store.disk.files;
    LastMeasured(s.input, c, s.past.contents);
  }

  lemma LoadEmptyExcess(s: State, unlinkFails: bool)
    requires PlacesFaithful(s) && FeedEnabled(s, LoadEmpty(unlinkFails))
    ensures Excess(DiscardLoading(s, unlinkFails)) == Excess(s)
  {
    LoadFaithful(s.store.disk, s.feeder.chunk, false, s.past.contents);
  }

  lemma LoadFailsExcess(s: State, readFails: bool)
    requires FeedEnabled(s, LoadFails(readFails))
    ensures Excess(DropLoading(s)) == Excess(s) + SavedSize(s.feeder.chunk, s.past.contents)
  {
  }

  /** Handing a chunk from one place to the next, or going on to the next part of the loop. */
  lemma HandOverExcess(s: State, step: FeedStep)
    requires PlacesFaithful(s) && FeedEnabled(s, step)
    requires !step.RecoverNext? && !step.LoadFails? && !step.LoadEmpty?
    requires !step.SaveInput? && !step.SaveLast? && !step.SaveOutput?
    ensures Excess(ApplyFeed(s, step)) == Excess(s)
  {
    if step.Receive? {
      FirstMeasured(s.input, s.past.contents);
    } else if step.Push? {
      LastMeasured(s.output, s.feeder.loaded, s.past.contents);
    } else if step.LoadSucceeds? {
      LoadSucceedsExcess(s);
    } else {
    }
  }

  lemma LoadSucceedsExcess(s: State)
    requires PlacesFaithful(s) && FeedEnabled(s, LoadSucceeds)
    ensures Excess(ApplyFeed(s, LoadSucceeds)) == Excess(s)
  {
    LoadFaithful(s.store.disk, s.feeder.chunk, false, s.past.contents);
  }

  lemma FeedExcess(s: State, step: FeedStep)
    requires Inv(s) && FeedEnabled(s, step)
    ensures Excess(ApplyFeed(s, step)) == Excess(s) + Grown(s, Feeding(step))
  {
    if step.SaveInput? || step.SaveOutput? {
      SavesExcess(s, step);
    } else if step.SaveLast? {
      if s.feeder.last.Some? {
        LastHasId(s);
      }
      SaveLastExcess(s, step.write);
    } else if step.RecoverNext? {
      RecoverOneExcess(s, step.statFails);
    } else if step.LoadEmpty? {
      LoadEmptyExcess(s, step.unlinkFails);
    } else if step.LoadFails? {
      LoadFailsExcess(s, step.readFails);
    } else {
      HandOverExcess(s, step);
    }
  }

  lemma ConfirmExcess(s: State, i: nat, unlinkFails: bool)
    requires PlacesFaithful(s) && Carried(s) && i < |s.consumers|
    ensures Excess(ApplyConsume(s, Confirm(i, unlinkFails))) == Excess(s) + Grown(s, Consuming(Confirm(i, unlinkFails)))
  {
    var c := s.consumers[i];
    assert Faithful(c, s.past.contents, s.store.disk.files) && c.data == Some(s.past.contents[c.id]);
    assert c.saved ==> s.store.disk.hasDir;
    SavedBytesWithout(s.consumers, i, s.past.contents);
  }

  lemma TakeBackExcess(s: State, i: nat, write: Write)
    requires PlacesFaithful(s) && i < |s.consumers|
    ensures Excess(TakeBack(s, i, write)) == Excess(s)
  {
    var contents, c := s.past.contents, s.consumers[i];
    assert Faithful(c, contents, s.store.disk.files);
    SavedBytesWithout(s.consumers, i, contents);
    UnloadMeasured(s.store.disk, c, write, contents);
    var r := Unload(s.store.disk, c, write).1;
    if r.Some? {
      LastMeasured(s.past.returned, r.value, contents);
    }
  }

  lemma ConsumeExcess(s: State, step: ConsumeStep)
    requires Inv(s) && Carried(s) && ConsumeEnabled(s, step)
    ensures Excess(ApplyConsume(s, step)) == Excess(s) + Grown(s, Consuming(step))
  {
    if step.Take? {
      FirstMeasured(s.output, s.past.contents);
      LastMeasured(s.consumers, s.output[0], s.past.contents);
    } else if step.Confirm? {
      ConfirmExcess(s, step.i, step.unlinkFails);
    } else {
      TakeBackExcess(s, step.i, step.write);
    }
  }

  /** Each step adds exactly that to the excess: it stays the same exactly for the steps that add nothing. */
  lemma StepExcess(s: State, step: Step)
    requires Reachable(s) && Enabled(s, step)
    ensures Excess(Apply(s, step)) == Excess(s) + Grown(s, step)
  {
    var start, steps :| Initial(start) && Run(start, steps) == Some(s);
    InvAlways(start, steps);
    CarriedAlways(start, steps);
    match step
    case Accepting(a) => AcceptExcess(s, a);
    case Feeding(f) => FeedExcess(s, f);
    case Consuming(c) => ConsumeExcess(s, c);
  }

  /**
   A chunk that overflows the queue after it was unloaded leaves its file behind, and the byte gauge does not follow
   the tracked size: it keeps counting what was saved of the chunk.
   */
  lemma OverflowOvercounts(s: State, i: nat)
    requires Reachable(s) && i < |s.pushing| && |s.input| == MAX_NUM_CHUNKS_IN_QUEUE
    ensures var s', c, sizes := PushAccepted(s, i), s.pushing[i], s.past.contents;
            && s'.store.disk.files == s.store.disk.files && (c.saved ==> c.id in s'.store.disk.files)
            && s'.store.disk.bytes == s.store.disk.bytes
            && SavedTotal(s', sizes) == SavedTotal(s, sizes) - SavedSize(c, sizes)
  {
    var start, steps :| Initial(start) && Run(start, steps) == Some(s);
    InvAlways(start, steps);
    CarriedAlways(start, steps);
    assert Faithful(s.pushing[i], s.past.contents, s.store.disk.files);
    SavedBytesWithout(s.pushing, i, s.past.contents);
  }

  // Over a run

  function GrownBy(start: State, steps: seq<Step>): nat
    requires Run(start, steps).Some?
  {
    if steps == [] then 0
    else
      var before := steps[..|steps| - 1];
      GrownBy(start, before) + Grown(Run(start, before).value, steps[|steps| - 1])
  }

  /** The gauge is above the tracked size by the sum of what the steps have added; it never comes down again. */
  lemma {:induction false} ExcessIsGrown(start: State, steps: seq<Step>)
    requires Initial(start) && Run(start, steps).Some?
    ensures Excess(Run(start, steps).value) == GrownBy(start, steps)
    decreases |steps|
  {
    if steps != [] {
      var before := steps[..|steps| - 1];
      ExcessIsGrown(start, before);
      StepExcess(Run(start, before).value, steps[|steps| - 1]);
    }
  }

  // Runs, for examples

  lemma ReachableNext(s: State, step: Step)
    requires Reachable(s) && Enabled(s, step)
    ensures Reachable(Apply(s, step))
  {
    var start, steps :| Initial(start) && Run(start, steps) == Some(s);
    assert (steps + [step])[..|steps|] == steps;
    assert Run(start, steps + [step]) == Some(Apply(s, step));
  }

  lemma ReachableStart(s: State)
    requires Initial(s)
    ensures Reachable(s)
  {
    assert Run(s, []) == Some(s);
  }

  function StartWith(hasDir: bool, limit: int, names: seq<ID>, files: Files): State {
    HybridBuffer.State(Store(Disk(hasDir, limit, files, 0, 0), Ledger(0, 0, 0, 0, 0)), [], [], [], false, false,
                       Recovering(names), [], [],
                       History(files, multiset{}, [], [], multiset{}, multiset{}, multiset{}, [], [], 0, 0))
  }

  /** A recovered file of three bytes that cannot be read: the gauge keeps the three bytes. */
  lemma UnreadableFileStaysCounted() returns (s: State)
    ensures Reachable(s) && Excess(s) == s.store.disk.bytes == 3 && SavedTotal(s, s.past.contents) == 0
  {
    var id: ID := [65];
    s := StartWith(true, 1000, [id], map[id := [1, 2, 3]]);
    assert Ascending([id]);
    ReachableStart(s);
    ReachableNext(s, Feeding(RecoverNext(false)));
    s := Apply(s, Feeding(RecoverNext(false)));
    assert s.input == [LogChunk(id, None, true)] && s.store.disk.bytes == 3;
    ReachableNext(s, Feeding(RecoverEnd));
    s := Apply(s, Feeding(RecoverEnd));
    ReachableNext(s, Feeding(Receive));
    s := Apply(s, Feeding(Receive));
    ReachableNext(s, Feeding(LoadFails(true)));
    s := Apply(s, Feeding(LoadFails(true)));
    assert s.input == [];
  }

  /** One accepted chunk in the input channel, and no directory. */
  lemma QueuedWithoutDir(c: LogChunk) returns (s: State)
    requires c.id != [] && !c.saved
    ensures Reachable(s) && s.feeder.Waiting? && s.input == [c] && s.output == [] && s.consumers == []
    ensures !s.store.disk.hasDir && s.store.disk.files == map[] && s.store.ledger.leftover == 0 && s.past.lost == multiset{}
  {
    s := StartWith(false, 1000, [], map[]);
    ReachableStart(s);
    ReachableNext(s, Feeding(RecoverEnd));
    s := Apply(s, Feeding(RecoverEnd));
    ReachableNext(s, Accepting(Accept(c)));
    s := Apply(s, Accepting(Accept(c)));
    assert s.pushing == [c];
    ReachableNext(s, Accepting(AcceptPush(0)));
    s := Apply(s, Accepting(AcceptPush(0)));
  }

  /** A chunk given back where there is no directory: it is lost, and counted as left over. */
  lemma GivenBackAndLost() returns (s: State, i: nat, id: ID)
    ensures Reachable(s) && i < |s.consumers| && s.consumers[i].id == id
    ensures var s' := TakeBack(s, i, Writes);
            s'.past.lost == multiset{id} && s'.store.ledger.leftover == 1 && id !in s'.store.disk.files
  {
    i, id := 0, [65];
    var c := LogChunk(id, Some([1]), false);
    s := QueuedWithoutDir(c);
    ReachableNext(s, Feeding(Receive));
    s := Apply(s, Feeding(Receive));
    ReachableNext(s, Feeding(LoadSucceeds));
    s := Apply(s, Feeding(LoadSucceeds));
    ReachableNext(s, Feeding(Push));
    s := Apply(s, Feeding(Push));
    assert s.output == [c];
    ReachableNext(s, Consuming(Take));
    s := Apply(s, Consuming(Take));
    assert s.consumers == [c];
  }
}
