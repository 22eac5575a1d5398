/** What the hybrid buffer promises over every run. */
module HybridTheorems {
  import opened Bytes
  import opened Options
  import opened ChunkIds
  import opened ChunkStore
  import opened HybridBuffer
  import opened HybridSafety
  import opened HybridFiles
  import opened HybridGauge
  import opened HybridOrder

  ghost predicate Inv(s: State) {
    && Phased(s) && BegunOnce(s) && NamesFresh(s)
    && (forall id :: Conserved(s, id))
    && LedgerExact(s)
    && PlacesFaithful(s) && FilesKnown(s) && OutputsLoaded(s)
    && Covers(s, 0) && Limited(s)
    && InOrder(s)
  }

  lemma InvInitially(s: State)
    requires Initial(s)
    ensures Inv(s)
  {
    assert Embeds([], Line(s), s.past.arrived);
  }

  lemma AcceptKeeps(s: State, step: AcceptStep)
    requires Inv(s) && AcceptEnabled(s, step)
    ensures Inv(ApplyAccept(s, step))
  {
    AcceptKeepsPhase(s, step);
    AcceptKeepsIds(s, step);
    forall id ensures Conserved(ApplyAccept(s, step), id) {
      AcceptConserves(s, step, id);
    }
    AcceptKeepsLedger(s, step);
    AcceptKeepsContents(s, step);
    AcceptKeepsFilesKnown(s, step);
    AcceptKeepsLoaded(s, step);
    AcceptKeepsCover(s, step);
    AcceptKeepsLimit(s, step);
    AcceptKeepsOrder(s, step);
  }

  /** The chunk saveEverything gets from the main loop has an ID. */
  lemma LastHasId(s: State)
    requires BegunOnce(s) && (forall id :: Conserved(s, id)) && Hand(s.feeder).Some?
    ensures Hand(s.feeder).value.id != []
  {
    var id := Hand(s.feeder).value.id;
    assert Conserved(s, id);
    assert s.past.begun[id] >= 1;
    assert id in s.past.begun;
  }

  lemma FeedKeeps(s: State, step: FeedStep)
    requires Inv(s) && FeedEnabled(s, step)
    ensures Inv(ApplyFeed(s, step))
  {
    if Hand(s.feeder).Some? {
      LastHasId(s);
    }
    FeedKeepsPhase(s, step);
    FeedKeepsIds(s, step);
    forall id ensures Conserved(ApplyFeed(s, step), id) {
      FeedConserves(s, step, id);
    }
    FeedKeepsLedger(s, step);
    FeedKeepsContents(s, step);
    FeedKeepsFilesKnown(s, step);
    FeedKeepsLoaded(s, step);
    FeedKeepsCover(s, step);
    FeedKeepsLimit(s, step);
    FeedKeepsOrder(s, step);
  }

  lemma ConsumeKeeps(s: State, step: ConsumeStep)
    requires Inv(s) && ConsumeEnabled(s, step)
    ensures Inv(ApplyConsume(s, step))
  {
    ConsumeKeepsPhase(s, step);
    ConsumeKeepsIds(s, step);
    forall id ensures Conserved(ApplyConsume(s, step), id) {
      ConsumeConserves(s, step, id);
    }
    ConsumeKeepsLedger(s, step);
    ConsumeKeepsContents(s, step);
    ConsumeKeepsFilesKnown(s, step);
    ConsumeKeepsLoaded(s, step);
    ConsumeKeepsCover(s, step);
    ConsumeKeepsLimit(s, step);
    ConsumeKeepsOrder(s, step);
  }

  lemma {:induction false} InvAlways(start: State, steps: seq<Step>)
    requires Initial(start) && Run(start, steps).Some?
    ensures Inv(Run(start, steps).value)
    decreases |steps|
  {
    if steps == [] {
      InvInitially(start);
    } else {
      var before := steps[..|steps| - 1];
      InvAlways(start, before);
      match steps[|steps| - 1]
      case Accepting(a) => AcceptKeeps(Run(start, before).value, a);
      case Feeding(f) => FeedKeeps(Run(start, before).value, f);
      case Consuming(c) => ConsumeKeeps(Run(start, before).value, c);
    }
  }

  ghost predicate Reachable(s: State) {
    exists start, steps :: Initial(start) && Run(start, steps) == Some(s)
  }

  lemma InvReachable(s: State)
    requires Reachable(s)
    ensures Inv(s)
  {
    var start, steps :| Initial(start) && Run(start, steps) == Some(s);
    InvAlways(start, steps);
  }

  // Conservation

  /** Inputs are consumed, left over, dropped or pending, and pending chunks are those that can be pointed at. */
  lemma LedgerBalances(s: State)
    requires Reachable(s)
    ensures var l := s.store.ledger;
            l.inputs == l.consumed + l.leftover + l.dropped + l.pending && l.pending == Physical(s)
  {
    InvReachable(s);
  }

  /** After cleanup, and when all consumers have ended, the pending chunks are those saveEverything has saved. */
  lemma PendingAfterCleanup(s: State)
    requires Reachable(s) && s.feeder.Stopped?
    ensures s.store.ledger.pending == |s.past.kept|
  {
    InvReachable(s);
  }

  /** Before shutdown nothing has been set aside. */
  lemma PendingBeforeShutdown(s: State)
    requires Reachable(s) && !s.inputClosed
    ensures s.store.ledger.pending ==
            |s.unloading| + |s.pushing| + |s.input| + HandSize(s.feeder) + |s.output| + |s.consumers|
  {
    InvReachable(s);
  }

  /** Chunk by chunk: each one has a single whereabouts. */
  lemma OneWhereabouts(s: State, id: ID)
    requires Reachable(s) && id in s.past.begun
    ensures Places(s, id) + s.past.consumed[id] + s.past.dropped[id] + s.past.lost[id] == 1
  {
    InvReachable(s);
    assert Conserved(s, id);
    assert s.past.begun[id] <= 1;
  }

  // Order and contents

  /**
   Consumers get a subsequence of what came in, each chunk with the bytes it was accepted with or had on disk at start.
   */
  lemma LossyFifo(s: State)
    requires Reachable(s)
    ensures Subsequence(Ids(s.past.delivered), s.past.arrived)
    ensures forall i | 0 <= i < |s.past.delivered| ::
              var c := s.past.delivered[i];
              c.id in s.past.contents && c.data == Some(s.past.contents[c.id])
  {
    InvReachable(s);
    var at: seq<nat> :| Embeds(at, Line(s), s.past.arrived);
    var n := |s.past.delivered|;
    assert forall i | 0 <= i < n :: Line(s)[i] == Ids(s.past.delivered)[i];
    assert Embeds(at[..n], Ids(s.past.delivered), s.past.arrived);
  }

  /** What was accepted never changes in the records the promises are about. */
  lemma ContentsOnlyGrow(s: State, step: Step, id: ID)
    requires Reachable(s) && Enabled(s, step) && id in s.past.contents
    ensures id in Apply(s, step).past.contents && Apply(s, step).past.contents[id] == s.past.contents[id]
  {
    match step
    case Accepting(a) =>
      if a.Accept? {
      } else if a.AcceptUnload? {
      } else {
      }
    case Feeding(f) =>
      if !f.RecoverNext? {
        FeedKeepsKnown(s, f);
      }
    case Consuming(c) =>
      if c.Take? {
      } else if c.Confirm? {
      } else {
      }
  }

  /** A restart finds every chunk that was saved at the end or given back, with its bytes. */
  lemma RestartFindsAll(s: State, c: LogChunk)
    requires Reachable(s) && (c in s.past.kept || c in s.past.returned)
    ensures c.saved && c.id in s.store.disk.files && c.id in s.past.contents
    ensures s.store.disk.files[c.id] == s.past.contents[c.id]
  {
    InvReachable(s);
  }

  // The byte gauge

  lemma GaugeInBounds(s: State)
    requires Reachable(s)
    ensures SavedTotal(s, s.past.contents) - s.past.unstattedBytes <= s.store.disk.bytes
    ensures s.store.disk.bytes <= Max(s.store.disk.maxTotalBytes, s.past.recoveredBytes)
  {
    InvReachable(s);
  }

  // Shutdown

  /** How many rounds saveEverything has left. */
  function CleanupWork(s: State): nat {
    |s.input| + |s.output| + (match s.feeder
                              case SavingInput(_) => 4
                              case SavingLast(_) => 3
                              case SavingOutput => 2
                              case Joining => 1
                              case _ => 0)
  }

  /** Every step of the feeder in its cleanup brings it closer to the end: the loops over the channels terminate. */
  lemma CleanupEnds(s: State, step: FeedStep)
    requires Reachable(s) && Saving(s.feeder) && FeedEnabled(s, step)
    ensures CleanupWork(ApplyFeed(s, step)) < CleanupWork(s) && Saving(ApplyFeed(s, step).feeder)
  {
    if step.SaveInput? || step.SaveLast? || step.SaveOutput? {
    } else {
    }
  }

  /** Nothing else gives it more to do: the input channel was closed before. */
  lemma NothingAddsToCleanup(s: State, step: Step)
    requires Reachable(s) && Saving(s.feeder) && Enabled(s, step) && !step.Feeding?
    ensures CleanupWork(Apply(s, step)) <= CleanupWork(s) && Apply(s, step).feeder == s.feeder
  {
    InvReachable(s);
    match step
    case Accepting(a) =>
    case Consuming(c) =>
      if c.Take? {
      } else if c.Confirm? {
      } else {
      }
  }

  /** The feeder can always go on with its cleanup until it waits for consumers. */
  function CleanupStep(s: State, write: Write): FeedStep {
    match s.feeder
    case SavingInput(_) => if s.input != [] then SaveInput(write) else SaveInputEnds
    case SavingLast(_) => SaveLast(write)
    case SavingOutput => if s.output != [] then SaveOutput(write) else SaveOutputEnds
    case _ => Join
  }

  lemma CleanupNeverStuck(s: State, write: Write)
    requires Reachable(s) && Saving(s.feeder) && !s.feeder.Stopped? && (s.feeder.Joining? ==> s.consumers == [])
    ensures FeedEnabled(s, CleanupStep(s, write))
  {
    InvReachable(s);
  }

  /** Once stop is signalled, a feeder with a full output does not wait for consumers. */
  lemma FeederNeverStuck(s: State) returns (step: FeedStep)
    requires Reachable(s) && s.stopSignal && !Saving(s.feeder)
    ensures FeedEnabled(s, step)
  {
    InvReachable(s);
    match s.feeder
    case Recovering(names) => step := RecoverEnd;
    case Waiting => step := if s.input != [] then Receive else InputEnds;
    case Loading(c) =>
      var l := Load(s.store.disk, c, false);
      step := if l.None? then LoadFails(false) else if Size(l.value) == 0 then LoadEmpty(false) else LoadSucceeds;
    case Pushing(_, _) => step := PushStops;
  }

  // Recovery

  /** The first `k` arrivals are the first files in the order of their names, all others were accepted later. */
  ghost predicate RecoveredFirst(start: State, s: State, k: nat)
    requires start.feeder.Recovering?
  {
    var names, files := start.feeder.names, start.store.disk.files;
    && k <= |names| && k <= |s.past.arrived| && s.past.arrived[..k] == names[..k]
    && (s.feeder.Recovering? ==> |s.past.arrived| == k && s.feeder.names == names[k..])
    && (forall i | k <= i < |s.past.arrived| :: s.past.arrived[i] !in files)
    && (forall i | 0 <= i < |s.unloading| :: s.unloading[i].id !in files)
    && (forall i | 0 <= i < |s.pushing| :: s.pushing[i].id !in files)
    && (forall id | id in files :: id in s.past.contents)
  }

  lemma AcceptRecoveredFirst(start: State, s: State, step: AcceptStep, k: nat)
    requires start.feeder.Recovering? && RecoveredFirst(start, s, k) && AcceptEnabled(s, step) && Phased(s)
    ensures RecoveredFirst(start, ApplyAccept(s, step), k)
  {
    if step.Accept? {
    } else if step.AcceptUnload? {
      UnloadKeepsId(s.store, s.unloading[step.i], step.write);
    } else if step.AcceptPush? {
      var arrived, id := s.past.arrived, s.pushing[step.i].id;
      assert (arrived + [id])[..k] == arrived[..k];
    } else {
    }
  }

  lemma FeedRecoveredFirst(start: State, s: State, step: FeedStep, k: nat) returns (k': nat)
    requires start.feeder.Recovering? && RecoveredFirst(start, s, k) && FeedEnabled(s, step) && Phased(s)
    ensures RecoveredFirst(start, ApplyFeed(s, step), k')
  {
    k' := k;
    if step.RecoverNext? {
      k' := k + 1;
      var names := start.feeder.names;
      assert names[k..][0] == names[k] && names[k..][1..] == names[k + 1..];
      assert s.past.arrived + [names[k]] == names[..k + 1];
    } else {
      FeedKeepsKnown(s, step);
    }
  }

  lemma ConsumeRecoveredFirst(start: State, s: State, step: ConsumeStep, k: nat)
    requires start.feeder.Recovering? && RecoveredFirst(start, s, k) && ConsumeEnabled(s, step)
    ensures RecoveredFirst(start, ApplyConsume(s, step), k)
  {
  }

  /** Recovered chunks come first, in the order of their IDs; only then those accepted. */
  lemma {:induction false} RecoveredComeFirst(start: State, steps: seq<Step>) returns (k: nat)
    requires Initial(start) && Run(start, steps).Some?
    ensures RecoveredFirst(start, Run(start, steps).value, k)
    decreases |steps|
  {
    if steps == [] {
      k := 0;
    } else {
      var before, last := steps[..|steps| - 1], steps[|steps| - 1];
      InvAlways(start, before);
      k := RecoveredComeFirst(start, before);
      match last
      case Accepting(a) => AcceptRecoveredFirst(start, Run(start, before).value, a, k);
      case Feeding(f) => k := FeedRecoveredFirst(start, Run(start, before).value, f, k);
      case Consuming(c) => ConsumeRecoveredFirst(start, Run(start, before).value, c, k);
    }
  }

  // Known limits of the accounting

  /** The files after a failed attempt to save a chunk. */
  function FilesAfterFailure(disk: Disk, c: LogChunk, write: Write): Files {
    if c.data.Some? && disk.hasDir && disk.bytes + Size(c) <= disk.maxTotalBytes && write.WriteFails? && write.remains.Some?
    then disk.files[c.id := write.remains.value]
    else disk.files
  }

  /**
   What a consumer gives back is on disk afterwards if it was before or could be written. Else it is lost: it has no
   file, or what a failed write has left of one.
   */
  lemma GivenBackOrLost(s: State, i: nat, write: Write)
    requires Reachable(s) && i < |s.consumers|
    ensures var s', c, disk := TakeBack(s, i, write), s.consumers[i], s.store.disk;
            && s'.store.ledger.leftover == s.store.ledger.leftover + 1
            && (s'.past.lost == s.past.lost
                <==> c.saved || (c.data.Some? && disk.hasDir && disk.bytes + Size(c) <= disk.maxTotalBytes && write.Writes?))
            && (s'.past.lost == s.past.lost ==>
                  c.id in s'.store.disk.files && c.id in s.past.contents
                  && s'.store.disk.files[c.id] == s.past.contents[c.id])
            && (s'.past.lost != s.past.lost ==>
                  && s'.past.lost == s.past.lost + multiset{c.id} && c.id !in disk.files
                  && s'.store.disk.files == FilesAfterFailure(disk, c, write))
  {
    InvReachable(s);
    assert Faithful(s.consumers[i], s.past.contents, s.store.disk.files);
    assert s.past.lost + multiset{s.consumers[i].id} != s.past.lost by {
      assert (s.past.lost + multiset{s.consumers[i].id})[s.consumers[i].id] == s.past.lost[s.consumers[i].id] + 1;
    }
  }
}
