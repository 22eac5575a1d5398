/** What every step of the hybrid buffer keeps. */
module HybridSafety {
  import opened Bytes
  import opened ChunkIds
  import opened Options
  import opened ChunkStore
  import opened HybridBuffer

  // Where chunks are

  /** The chunk the feeder has taken out of the input channel. */
  function Hand(f: Feeder): Option<LogChunk> {
    match f
    case Loading(c) => Some(c)
    case Pushing(_, c) => Some(c)
    case SavingInput(last) => last
    case SavingLast(last) => last
    case _ => None
  }

  function One(c: LogChunk, id: ID): nat {
    if c.id == id then 1 else 0
  }

  function InHand(h: Option<LogChunk>, id: ID): nat {
    if h.Some? then One(h.value, id) else 0
  }

  function SavedSize(c: LogChunk, contents: map<ID, seq<byte>>): nat {
    if c.saved && c.id in contents then |contents[c.id]| else 0
  }

  /** How many chunks have the ID. */
  function Count(q: seq<LogChunk>, id: ID): nat {
    if q == [] then 0 else One(q[0], id) + Count(q[1..], id)
  }

  /** The size on disk of saved chunks. */
  function SavedBytes(q: seq<LogChunk>, contents: map<ID, seq<byte>>): nat {
    if q == [] then 0
    else SavedSize(q[0], contents) + SavedBytes(q[1..], contents)
  }

  lemma {:induction false} CountAppends(a: seq<LogChunk>, b: seq<LogChunk>, id: ID)
    ensures Count(a + b, id) == Count(a, id) + Count(b, id)
  {
    if a == [] {
      assert a + b == b;
    } else {
      assert (a + b)[1..] == a[1..] + b;
      CountAppends(a[1..], b, id);
    }
  }

  lemma {:induction false} SavedBytesAppends(a: seq<LogChunk>, b: seq<LogChunk>, contents: map<ID, seq<byte>>)
    ensures SavedBytes(a + b, contents) == SavedBytes(a, contents) + SavedBytes(b, contents)
  {
    if a == [] {
      assert a + b == b;
    } else {
      assert (a + b)[1..] == a[1..] + b;
      SavedBytesAppends(a[1..], b, contents);
    }
  }

  lemma CountWithout(q: seq<LogChunk>, i: nat, id: ID)
    requires i < |q|
    ensures Count(q, id) == Count(Without(q, i), id) + One(q[i], id)
  {
    CountAppends(q[..i], q[i + 1..], id);
    CountAppends([q[i]], q[i + 1..], id);
    CountAppends(q[..i], [q[i]] + q[i + 1..], id);
    assert q == q[..i] + ([q[i]] + q[i + 1..]);
  }

  lemma SavedBytesWithout(q: seq<LogChunk>, i: nat, contents: map<ID, seq<byte>>)
    requires i < |q|
    ensures SavedBytes(q, contents) == SavedBytes(Without(q, i), contents) + SavedSize(q[i], contents)
  {
    SavedBytesAppends(q[..i], q[i + 1..], contents);
    SavedBytesAppends([q[i]], q[i + 1..], contents);
    SavedBytesAppends(q[..i], [q[i]] + q[i + 1..], contents);
    assert q == q[..i] + ([q[i]] + q[i + 1..]);
  }

  /** How many of the places hold the ID. */
  function Places(s: State, id: ID): nat {
    Count(s.unloading, id) + Count(s.pushing, id) + Count(s.input, id) + InHand(Hand(s.feeder), id)
    + Count(s.output, id) + Count(s.consumers, id) + Count(s.past.kept, id) + Count(s.past.returned, id)
  }

  function Gone(p: History, id: ID): nat {
    p.consumed[id] + p.dropped[id] + p.lost[id]
  }

  /** A chunk that was recovered or accepted is in one place, or was consumed, dropped or lost, once. */
  ghost predicate Conserved(s: State, id: ID) {
    Places(s, id) + Gone(s.past, id) == s.past.begun[id]
  }

  // Conservation

  function Total(s: State, id: ID): nat {
    Places(s, id) + Gone(s.past, id)
  }

  lemma UnloadKeepsId(s: Store, c: LogChunk, write: Write)
    ensures var r := UnloadOrDrop(s, c, write).1; r.Some? ==> r.value.id == c.id && r.value.saved
  {
  }

  lemma SaveCounts(s: State, c: LogChunk, write: Write, id: ID)
    ensures Total(Save(s, c, write), id) == Total(s, id) + One(c, id)
  {
    UnloadKeepsId(s.store, c, write);
    var (store, unloaded) := UnloadOrDrop(s.store, c, write);
    if unloaded.Some? {
      CountAppends(s.past.kept, [unloaded.value], id);
    }
  }

  lemma BeginAcceptCounts(s: State, c: LogChunk, id: ID)
    ensures Total(BeginAccept(s, c), id) == Total(s, id) + One(c, id)
  {
    CountAppends(s.unloading, [c], id);
    CountAppends(s.pushing, [c], id);
  }

  lemma UnloadAcceptedCounts(s: State, i: nat, write: Write, id: ID)
    requires i < |s.unloading|
    ensures Total(UnloadAccepted(s, i, write), id) == Total(s, id)
  {
    UnloadKeepsId(s.store, s.unloading[i], write);
    CountWithout(s.unloading, i, id);
    var (store, unloaded) := UnloadOrDrop(s.store, s.unloading[i], write);
    if unloaded.Some? {
      CountAppends(s.pushing, [unloaded.value], id);
    }
  }

  lemma PushAcceptedCounts(s: State, i: nat, id: ID)
    requires i < |s.pushing|
    ensures Total(PushAccepted(s, i), id) == Total(s, id)
  {
    CountWithout(s.pushing, i, id);
    CountAppends(s.input, [s.pushing[i]], id);
  }

  lemma AcceptConserves(s: State, step: AcceptStep, id: ID)
    requires Conserved(s, id) && AcceptEnabled(s, step)
    ensures Conserved(ApplyAccept(s, step), id)
  {
    match step
    case Accept(c) => BeginAcceptCounts(s, c, id);
    case AcceptUnload(i, write) => UnloadAcceptedCounts(s, i, write, id);
    case AcceptPush(i) => PushAcceptedCounts(s, i, id);
    case CloseInput =>
    case SignalStop =>
  }

  lemma FirstCounts(q: seq<LogChunk>, id: ID)
    requires q != []
    ensures Count(q, id) == One(q[0], id) + Count(q[1..], id)
  {
  }

  lemma RecoverOneCounts(s: State, statFails: bool, id: ID)
    requires FeedEnabled(s, RecoverNext(statFails)) && Conserved(s, id)
    ensures Conserved(RecoverOne(s, statFails), id)
  {
    CountAppends(s.input, [LogChunk(s.feeder.names[0], None, true)], id);
  }

  lemma SaveInputCounts(s: State, write: Write, id: ID)
    requires FeedEnabled(s, SaveInput(write)) && Conserved(s, id)
    ensures Conserved(ApplyFeed(s, SaveInput(write)), id)
  {
    FirstCounts(s.input, id);
    SaveCounts(s.(input := s.input[1..]), s.input[0], write, id);
  }

  lemma SaveOutputCounts(s: State, write: Write, id: ID)
    requires FeedEnabled(s, SaveOutput(write)) && Conserved(s, id)
    ensures Conserved(ApplyFeed(s, SaveOutput(write)), id)
  {
    FirstCounts(s.output, id);
    SaveCounts(s.(output := s.output[1..]), s.output[0], write, id);
  }

  lemma SaveLastCounts(s: State, c: LogChunk, write: Write, id: ID)
    requires s.feeder == SavingLast(Some(c))
    ensures Total(Save(s.(feeder := SavingOutput), c, write), id) == Total(s, id)
  {
    SaveCounts(s.(feeder := SavingOutput), c, write, id);
  }

  lemma SaveLastConserves(s: State, write: Write, id: ID)
    requires s.feeder.SavingLast? && Conserved(s, id) && (s.feeder.last.Some? ==> s.feeder.last.value.id != [])
    ensures Conserved(ApplyFeed(s, SaveLast(write)), id)
  {
    if s.feeder.last.Some? {
      SaveLastCounts(s, s.feeder.last.value, write, id);
      assert ApplyFeed(s, SaveLast(write)) == Save(s.(feeder := SavingOutput), s.feeder.last.value, write);
    }
  }

  lemma FeedConserves(s: State, step: FeedStep, id: ID)
    requires Conserved(s, id) && FeedEnabled(s, step)
    requires s.feeder.Pushing? ==> s.feeder.received.id == s.feeder.loaded.id
    requires s.feeder.SavingLast? && s.feeder.last.Some? ==> s.feeder.last.value.id != []
    ensures Conserved(ApplyFeed(s, step), id)
  {
    if step.RecoverNext? {
      RecoverOneCounts(s, step.statFails, id);
    } else if step.SaveInput? {
      SaveInputCounts(s, step.write, id);
    } else if step.SaveOutput? {
      SaveOutputCounts(s, step.write, id);
    } else if step.SaveLast? {
      SaveLastConserves(s, step.write, id);
    } else if step.Receive? {
      FirstCounts(s.input, id);
    } else if step.Push? {
      CountAppends(s.output, [s.feeder.loaded], id);
    } else {
    }
  }

  lemma TakeBackCounts(s: State, i: nat, write: Write, id: ID)
    requires i < |s.consumers|
    ensures Total(TakeBack(s, i, write), id) == Total(s, id)
  {
    CountWithout(s.consumers, i, id);
    var unloaded := Unload(s.store.disk, s.consumers[i], write).1;
    if unloaded.Some? {
      CountAppends(s.past.returned, [unloaded.value], id);
    }
  }

  lemma ConsumeConserves(s: State, step: ConsumeStep, id: ID)
    requires Conserved(s, id) && ConsumeEnabled(s, step)
    ensures Conserved(ApplyConsume(s, step), id)
  {
    match step
    case Take =>
      FirstCounts(s.output, id);
      CountAppends(s.consumers, [s.output[0]], id);
    case Confirm(i, _) => CountWithout(s.consumers, i, id);
    case GiveBack(i, write) => TakeBackCounts(s, i, write, id);
  }

  // Counters

  function HandSize(f: Feeder): nat {
    if Hand(f).Some? then 1 else 0
  }

  /** Chunks in the places, without those that consumers gave back. */
  function Physical(s: State): nat {
    |s.unloading| + |s.pushing| + |s.input| + HandSize(s.feeder) + |s.output| + |s.consumers| + |s.past.kept|
  }

  ghost predicate LedgerFollows(l: Ledger, p: History) {
    && l.inputs == |p.begun| && l.consumed == |p.consumed| && l.dropped == |p.dropped|
    && l.leftover == |p.lost| + |p.returned|
    && l.inputs == l.consumed + l.leftover + l.dropped + l.pending
  }

  /** The ledger agrees with what happened, and pending chunks are those in the places. */
  ghost predicate LedgerExact(s: State) {
    LedgerFollows(s.store.ledger, s.past) && s.store.ledger.pending == Physical(s)
  }

  lemma SaveKeepsLedger(s: State, c: LogChunk, write: Write)
    requires LedgerFollows(s.store.ledger, s.past) && s.store.ledger.pending == Physical(s) + 1
    ensures LedgerExact(Save(s, c, write))
  {
    var unloaded := UnloadOrDrop(s.store, c, write).1;
    if unloaded.Some? {
      assert |s.past.kept + [unloaded.value]| == |s.past.kept| + 1;
    } else {
      assert |s.past.dropped + multiset{c.id}| == |s.past.dropped| + 1;
    }
  }

  lemma UnloadAcceptedKeepsLedger(s: State, i: nat, write: Write)
    requires LedgerExact(s) && i < |s.unloading|
    ensures LedgerExact(UnloadAccepted(s, i, write))
  {
    var c := s.unloading[i];
    var unloaded := UnloadOrDrop(s.store, c, write).1;
    if unloaded.Some? {
      assert |s.pushing + [unloaded.value]| == |s.pushing| + 1;
    } else {
      assert |s.past.dropped + multiset{c.id}| == |s.past.dropped| + 1;
    }
  }

  lemma PushAcceptedKeepsLedger(s: State, i: nat)
    requires LedgerExact(s) && i < |s.pushing|
    ensures LedgerExact(PushAccepted(s, i))
  {
  }

  lemma AcceptKeepsLedger(s: State, step: AcceptStep)
    requires LedgerExact(s) && AcceptEnabled(s, step)
    ensures LedgerExact(ApplyAccept(s, step))
  {
    if step.AcceptUnload? {
      UnloadAcceptedKeepsLedger(s, step.i, step.write);
    } else if step.AcceptPush? {
      PushAcceptedKeepsLedger(s, step.i);
    } else if step.Accept? {
    } else {
    }
  }

  lemma SaveLastKeepsLedger(s: State, write: Write)
    requires LedgerExact(s) && s.feeder.SavingLast? && (s.feeder.last.Some? ==> s.feeder.last.value.id != [])
    ensures LedgerExact(ApplyFeed(s, SaveLast(write)))
  {
    if s.feeder.last.Some? {
      SaveKeepsLedger(s.(feeder := SavingOutput), s.feeder.last.value, write);
    }
  }

  lemma FeedKeepsLedger(s: State, step: FeedStep)
    requires LedgerExact(s) && FeedEnabled(s, step)
    requires s.feeder.SavingLast? && s.feeder.last.Some? ==> s.feeder.last.value.id != []
    ensures LedgerExact(ApplyFeed(s, step))
  {
    if step.SaveInput? {
      SaveKeepsLedger(s.(input := s.input[1..]), s.input[0], step.write);
    } else if step.SaveLast? {
      SaveLastKeepsLedger(s, step.write);
    } else if step.SaveOutput? {
      SaveKeepsLedger(s.(output := s.output[1..]), s.output[0], step.write);
    } else if step.RecoverNext? {
    } else if step.LoadFails? {
    } else if step.LoadEmpty? {
    } else {
    }
  }

  lemma ConsumeKeepsLedger(s: State, step: ConsumeStep)
    requires LedgerExact(s) && ConsumeEnabled(s, step)
    ensures LedgerExact(ApplyConsume(s, step))
  {
    if step.Take? {
    } else if step.Confirm? {
    } else {
    }
  }

  // Phases

  predicate Saving(f: Feeder) {
    f.SavingInput? || f.SavingLast? || f.SavingOutput? || f.Joining? || f.Stopped?
  }

  ghost predicate Phased(s: State) {
    && (s.stopSignal ==> s.inputClosed)
    && (s.inputClosed ==> s.unloading == [] && s.pushing == [])
    && (s.feeder.Recovering? ==>
          !s.inputClosed && s.unloading == [] && s.pushing == [] && s.output == [] && s.consumers == [])
    && (Saving(s.feeder) ==> s.inputClosed)
    && (!Saving(s.feeder) ==> s.past.kept == [])
    && (Saving(s.feeder) && !s.feeder.SavingInput? ==> s.input == [])
    && (s.feeder.Joining? || s.feeder.Stopped? ==> s.output == [])
    && (s.feeder.Stopped? ==> s.consumers == [])
    && |s.input| <= MAX_NUM_CHUNKS_IN_QUEUE && |s.output| <= MAX_NUM_CHUNKS_IN_MEMORY
  }

  lemma AcceptKeepsPhase(s: State, step: AcceptStep)
    requires Phased(s) && AcceptEnabled(s, step)
    ensures Phased(ApplyAccept(s, step))
  {
  }

  lemma FeedKeepsPhase(s: State, step: FeedStep)
    requires Phased(s) && FeedEnabled(s, step)
    ensures Phased(ApplyFeed(s, step))
  {
    if step.SaveInput? || step.SaveLast? || step.SaveOutput? {
    } else if step.RecoverNext? {
    } else if step.LoadFails? || step.LoadEmpty? {
    } else {
    }
  }

  lemma ConsumeKeepsPhase(s: State, step: ConsumeStep)
    requires Phased(s) && ConsumeEnabled(s, step)
    ensures Phased(ApplyConsume(s, step))
  {
  }
}
