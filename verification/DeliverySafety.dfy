/** What every step of the delivery protocol keeps, and what therefore holds over whole runs. */
module DeliverySafety {
  import opened Bytes
  import opened Leftovers
  import opened Options
  import opened Delivery

  // Where chunks are

  function Previous(w: Worker): seq<Chunk> {
    if w.Collecting? || w.Joining? then w.previous else []
  }

  /** The last chunk, unless it has been handed over and only not been reset yet. */
  function Hand(s: State): multiset<Chunk> {
    if s.lastChunk.Some? && !s.worker.HandedOver? then multiset{s.lastChunk.value} else multiset{}
  }

  /** All places where an undelivered chunk can be. */
  function Held(s: State): multiset<Chunk> {
    multiset(s.leftovers) + multiset(Previous(s.worker)) + Hand(s) + multiset(s.ackerChan) + Values(s.pending)
  }

  // The invariant

  /** No two chunks that were or will be received share an ID. */
  ghost predicate FreshIds(all: seq<Chunk>, offered: set<ID>) {
    && UniqueIds(all) && Named(all)
    && forall i | 0 <= i < |all| :: all[i].id in offered
  }

  /** Each received chunk was delivered once or is in exactly one place. */
  ghost predicate Conserved(s: State) {
    multiset(s.taken) == s.acked + s.left + Held(s)
  }

  predicate Busy(w: Worker) {
    w.Sending? || w.HandingOver? || w.HandedOver?
  }

  predicate Leaving(w: Worker) {
    w.Collecting? || w.Joining?
  }

  ghost predicate WorkerConsistent(s: State) {
    && (Busy(s.worker) ==> s.lastChunk == Some(s.worker.chunk))
    && (s.worker.Resending? || s.worker.Listening? || !InSession(s) ==> s.lastChunk == None)
    && (!InSession(s) ==> s.ackerChan == [] && s.pending == map[])
    && (s.worker.Listening? || Leaving(s.worker) || s.worker.Stopped? ==> s.leftovers == [])
    && (Busy(s.worker) && !s.worker.resend ==> s.leftovers == [])
  }

  ghost predicate Keyed(m: map<ID, Chunk>) {
    forall id | id in m :: m[id].id == id
  }

  ghost predicate AckerConsistent(s: State) {
    && (InSession(s) <==> !s.acker.NotStarted?)
    && Keyed(s.pending)
    && (s.acker.Reading? ==> s.acker.next.id in s.pending && s.pending[s.acker.next.id] == s.acker.next)
  }

  /** Between ACKs the map has one entry per ACK with an unknown ID. */
  ghost predicate UnknownCounted(s: State) {
    InSession(s) && !s.acker.Ended? ==> |s.pending| == s.unknownAcks + if s.acker.Reading? then 1 else 0
  }

  /** No channel and no connection is closed twice, and nothing is sent to a closed channel. */
  ghost predicate ClosedOnce(s: State) {
    && s.leftoverCloses <= 1 && s.ackerChanCloses <= 1
    && s.connCloses == (if s.connAborted then 1 else 0)
    && (InSession(s) && !Leaving(s.worker) ==> s.ackerChanCloses == 0)
    && (!Leaving(s.worker) && !s.worker.Draining? && !s.worker.Stopped? ==> s.leftoverCloses == 0)
  }

  ghost predicate GaugesExact(s: State) {
    && s.leftoverGauge == |s.leftovers| + |Previous(s.worker)|
    && s.pendingAckGauge == |s.ackerChan| + |s.pending|
                            + (if s.acker.Acked? then 1 else 0) - (if s.worker.HandedOver? then 1 else 0)
  }

  predicate Final(e: Event) {
    e.Acknowledged? || e.Left?
  }

  /** After its delivery a chunk is never sent or delivered again. */
  ghost predicate Silent(log: seq<Event>) {
    forall i, j | 0 <= i < j < |log| && Final(log[i]) :: log[j].chunk != log[i].chunk
  }

  ghost predicate DeliveriesIn(log: seq<Event>, delivered: multiset<Chunk>) {
    forall i | 0 <= i < |log| && Final(log[i]) :: log[i].chunk in delivered
  }

  ghost predicate LogFaithful(s: State) {
    Silent(s.log) && DeliveriesIn(s.log, s.acked + s.left)
  }

  ghost predicate Consistent(s: State) {
    WorkerConsistent(s) && AckerConsistent(s) && UnknownCounted(s) && ClosedOnce(s) && GaugesExact(s)
  }

  ghost predicate Inv(s: State) {
    && FreshIds(s.taken + s.input, s.offered)
    && Conserved(s)
    && Consistent(s)
    && StrictlyAscending(s.leftovers)
    && LogFaithful(s)
  }

  // Bags of chunks

  lemma HeadAndTail(s: seq<Chunk>)
    requires s != []
    ensures multiset(s) == multiset{s[0]} + multiset(s[1..])
  {
    assert s == [s[0]] + s[1..];
  }

  type Bag = multiset<Chunk>

  lemma TakenUp(a: Bag, b: Bag, d: Bag, e: Bag, c: Bag)
    ensures a + b + c + d + e == a + b + multiset{} + d + e + c
  {
  }

  lemma PutDown(a: Bag, b: Bag, d: Bag, e: Bag, c: Bag)
    ensures a + b + multiset{} + (d + c) + e == a + b + c + d + e
  {
  }

  lemma TakenFirst(a: Bag, b: Bag, d: Bag, e: Bag, c: Bag)
    ensures a + b + c + d + e == (c + a) + b + multiset{} + d + e
  {
  }

  lemma SumsRegroup(a: Bag, b: Bag, held: Bag, c: Bag)
    ensures (a + b + held) + c == a + b + (held + c)
  {
  }

  lemma ValuesGrow(m: map<ID, Chunk>, c: Chunk)
    requires c.id !in m && Keyed(m)
    ensures c !in m.Values && m[c.id := c].Values == m.Values + {c}
  {
    var n := m[c.id := c];
    forall v ensures v in n.Values <==> v in m.Values + {c} {
      if v in m.Values {
        var id :| id in m && m[id] == v;
        assert n[id] == v;
      }
      if v == c {
        assert n[c.id] == c;
      }
    }
  }

  lemma ValueAdded(m: map<ID, Chunk>, c: Chunk)
    requires c.id !in m && Keyed(m)
    ensures Values(m[c.id := c]) == Values(m) + multiset{c}
    ensures |m[c.id := c]| == |m| + 1 && Keyed(m[c.id := c])
  {
    ValuesGrow(m, c);
    BagGrows(m.Values, c);
    assert m[c.id := c].Keys == m.Keys + {c.id};
  }

  lemma BagGrows(chunks: set<Chunk>, c: Chunk)
    requires c !in chunks
    ensures multiset(chunks + {c}) == multiset(chunks) + multiset{c}
  {
  }

  lemma ValueRemoved(m: map<ID, Chunk>, c: Chunk)
    requires c.id in m && m[c.id] == c && Keyed(m)
    ensures Values(m) == Values(m - {c.id}) + multiset{c} && |m - {c.id}| == |m| - 1 && Keyed(m - {c.id})
  {
    var n := m - {c.id};
    assert n[c.id := c] == m;
    ValueAdded(n, c);
  }

  lemma {:induction false} ValuesCounted(m: map<ID, Chunk>)
    requires Keyed(m)
    ensures |Values(m)| == |m|
    decreases |m|
  {
    if m != map[] {
      var id :| id in m;
      ValueRemoved(m, m[id]);
      ValuesCounted(m - {id});
    }
  }

  lemma UniqueIn(all: seq<Chunk>, c: Chunk)
    requires UniqueIds(all) && c in all
    ensures multiset(all)[c] == 1
  {
    var k :| 0 <= k < |all| && all[k] == c;
    OnceIn(all, k);
  }

  /** Some of the chunks, in any order, are no less unique. */
  lemma PartUnique(all: seq<Chunk>, part: seq<Chunk>)
    requires UniqueIds(all) && Named(all) && multiset(part) <= multiset(all)
    ensures UniqueIds(part) && Named(part)
  {
    forall i | 0 <= i < |part| ensures part[i] in all && part[i].id != NO_ID {
      assert part[i] in multiset(part);
      assert part[i] in multiset(all);
    }
    forall i, j | 0 <= i < j < |part| ensures part[i].id != part[j].id {
      if part[i].id == part[j].id {
        SameIdSameChunk(all, part[i], part[j]);
        TwiceIn(part, i, j);
        UniqueIn(all, part[i]);
      }
    }
  }

  lemma SameIdSameChunk(all: seq<Chunk>, c: Chunk, d: Chunk)
    requires UniqueIds(all) && c in all && d in all && c.id == d.id
    ensures c == d
  {
  }

  lemma TakenUnique(taken: seq<Chunk>, input: seq<Chunk>, offered: set<ID>)
    requires FreshIds(taken + input, offered)
    ensures UniqueIds(taken) && Named(taken)
  {
    assert forall i | 0 <= i < |taken| :: (taken + input)[i] == taken[i];
  }

  lemma NothingMoves(s: State, s': State)
    requires Conserved(s) && s'.taken == s.taken && s'.acked == s.acked && s'.left == s.left
    requires s'.leftovers == s.leftovers && Previous(s'.worker) == Previous(s.worker) && Hand(s') == Hand(s)
    requires s'.ackerChan == s.ackerChan && s'.pending == s.pending
    ensures Conserved(s')
  {
  }

  /** A chunk that is still held has not been delivered, and is held once. */
  lemma HeldOnce(s: State, c: Chunk)
    requires Conserved(s) && UniqueIds(s.taken) && c in Held(s)
    ensures c !in s.acked && c !in s.left && Held(s)[c] == 1
  {
    assert c in multiset(s.taken);
    UniqueIn(s.taken, c);
  }

  /** A chunk waiting for the acknowledger cannot have the ID of a pending one. */
  lemma WaitingIsNotPending(s: State, c: Chunk)
    requires Conserved(s) && UniqueIds(s.taken) && Keyed(s.pending) && c in s.ackerChan
    ensures c.id !in s.pending
  {
    assert c in multiset(s.ackerChan);
    HeldOnce(s, c);
    forall id | id in s.pending ensures id != c.id {
      var p := s.pending[id];
      assert p in s.pending.Values;
      assert p in multiset(s.taken) && c in multiset(s.taken);
      if p.id == c.id {
        SameIdSameChunk(s.taken, p, c);
      }
    }
  }

  // The environment and the worker between sessions

  lemma OfferedIsFresh(taken: seq<Chunk>, input: seq<Chunk>, offered: set<ID>, c: Chunk)
    requires FreshIds(taken + input, offered) && c.id != NO_ID && c.id !in offered
    ensures FreshIds(taken + (input + [c]), offered + {c.id})
  {
    assert taken + (input + [c]) == (taken + input) + [c];
  }

  lemma FewerAreFresh(taken: seq<Chunk>, input: seq<Chunk>, offered: set<ID>)
    requires FreshIds(taken + input, offered) && input != []
    ensures FreshIds(taken + input[1..], offered)
  {
    var all, n := taken + input, |taken|;
    assert taken + input[1..] == all[..n] + all[n + 1..];
  }

  lemma OutsideKeeps(s: State, step: Outside)
    requires Inv(s) && OutsideEnabled(s, step)
    ensures Inv(ApplyOutside(s, step))
  {
    match step
    case Offer(c) => OfferedIsFresh(s.taken, s.input, s.offered, c);
    case OthersTake => FewerAreFresh(s.taken, s.input, s.offered);
    case _ =>
  }

  lemma LogExtended(s: State, e: Event)
    requires FreshIds(s.taken + s.input, s.offered) && Conserved(s) && LogFaithful(s) && e.chunk in Held(s)
    ensures Silent(s.log + [e])
    ensures DeliveriesIn(s.log + [e], s.acked + s.left + multiset{e.chunk})
    ensures e.Sent? ==> DeliveriesIn(s.log + [e], s.acked + s.left)
  {
    TakenUnique(s.taken, s.input, s.offered);
    HeldOnce(s, e.chunk);
  }

  lemma LeaveKeepsChunks(s: State)
    requires Conserved(s) && WorkEnabled(s, Leave)
    ensures Conserved(ApplyWork(s, Leave))
  {
    HeadAndTail(s.leftovers);
  }

  lemma OpenKeepsChunks(s: State)
    requires Conserved(s) && WorkerConsistent(s) && WorkEnabled(s, OpenSucceeds)
    ensures Conserved(ApplyWork(s, OpenSucceeds))
  {
  }

  lemma IdleMovesWorker(s: State, step: Work)
    requires WorkEnabled(s, step) && !step.Leave? && !step.OpenSucceeds?
    ensures var s' := ApplyWork(s, step);
            && s' == s.(worker := s'.worker, leftoverCloses := s'.leftoverCloses)
            && !Leaving(s'.worker) && !s'.worker.HandedOver?
  {
    if step.OpenFails? || step.OpenStops? {
    } else if step.EndSession? {
    } else {
    }
  }

  lemma IdleKeepsChunks(s: State, step: Work)
    requires Conserved(s) && WorkEnabled(s, step) && !step.Leave? && !step.OpenSucceeds?
    ensures Conserved(ApplyWork(s, step))
  {
    IdleMovesWorker(s, step);
    var s' := ApplyWork(s, step);
    NothingMoves(s, s.(worker := s'.worker, leftoverCloses := s'.leftoverCloses));
  }

  lemma WorkKeepsChunks(s: State, step: Work)
    requires Conserved(s) && WorkerConsistent(s) && WorkEnabled(s, step)
    ensures Conserved(ApplyWork(s, step))
  {
    if step.Leave? {
      LeaveKeepsChunks(s);
    } else if step.OpenSucceeds? {
      OpenKeepsChunks(s);
    } else {
      IdleKeepsChunks(s, step);
    }
  }

  lemma LeaveKeepsLog(s: State)
    requires FreshIds(s.taken + s.input, s.offered) && Conserved(s) && LogFaithful(s) && WorkEnabled(s, Leave)
    ensures LogFaithful(ApplyWork(s, Leave))
  {
    var c := s.leftovers[0];
    HeadAndTail(s.leftovers);
    LogExtended(s, Left(c));
    assert s.acked + s.left + multiset{c} == s.acked + (s.left + multiset{c});
  }

  lemma WorkKeepsLog(s: State, step: Work)
    requires FreshIds(s.taken + s.input, s.offered) && Conserved(s) && LogFaithful(s) && WorkEnabled(s, step)
    ensures LogFaithful(ApplyWork(s, step))
  {
    if step.Leave? {
      LeaveKeepsLog(s);
    } else if !step.OpenSucceeds? {
      IdleMovesWorker(s, step);
    }
  }

  lemma WorkKeepsWorker(s: State, step: Work)
    requires WorkerConsistent(s) && WorkEnabled(s, step)
    ensures WorkerConsistent(ApplyWork(s, step))
  {
  }

  lemma WorkKeepsAcker(s: State, step: Work)
    requires AckerConsistent(s) && WorkEnabled(s, step)
    ensures AckerConsistent(ApplyWork(s, step)) && UnknownCounted(ApplyWork(s, step))
  {
    if step.Leave? {
    } else if !step.OpenSucceeds? {
      IdleMovesWorker(s, step);
    }
  }

  lemma WorkKeepsCloses(s: State, step: Work)
    requires ClosedOnce(s) && WorkEnabled(s, step)
    ensures ClosedOnce(ApplyWork(s, step))
  {
  }

  lemma WorkKeepsCounts(s: State, step: Work)
    requires WorkerConsistent(s) && AckerConsistent(s) && GaugesExact(s) && WorkEnabled(s, step)
    ensures GaugesExact(ApplyWork(s, step))
  {
    if !step.Leave? && !step.OpenSucceeds? {
      IdleMovesWorker(s, step);
    }
  }

  lemma WorkKeepsOrder(s: State, step: Work)
    requires StrictlyAscending(s.leftovers) && WorkEnabled(s, step)
    ensures StrictlyAscending(ApplyWork(s, step).leftovers)
  {
    if !step.Leave? && !step.OpenSucceeds? {
      IdleMovesWorker(s, step);
    }
  }

  lemma WorkKeepsFresh(s: State, step: Work)
    requires FreshIds(s.taken + s.input, s.offered) && WorkEnabled(s, step)
    ensures var s' := ApplyWork(s, step); FreshIds(s'.taken + s'.input, s'.offered)
  {
    if !step.Leave? && !step.OpenSucceeds? {
      IdleMovesWorker(s, step);
    }
  }

  lemma WorkKeeps(s: State, step: Work)
    requires Inv(s) && WorkEnabled(s, step)
    ensures Inv(ApplyWork(s, step))
  {
    WorkKeepsWorker(s, step);
    WorkKeepsAcker(s, step);
    WorkKeepsCloses(s, step);
    WorkKeepsCounts(s, step);
    WorkKeepsChunks(s, step);
    WorkKeepsLog(s, step);
    WorkKeepsOrder(s, step);
    WorkKeepsFresh(s, step);
  }

  // A session

  lemma ForwardKeepsFresh(s: State, step: Forward)
    requires FreshIds(s.taken + s.input, s.offered) && ForwardEnabled(s, step)
    ensures var s' := ApplyForward(s, step); FreshIds(s'.taken + s'.input, s'.offered)
  {
    if step.Receive? {
      assert (s.taken + [s.input[0]]) + s.input[1..] == s.taken + s.input;
    }
  }

  lemma CollectKeepsWorker(s: State, fromResend: bool, ending: Ending, retry: Retry)
    requires WorkerConsistent(s) && InSession(s) && (!fromResend ==> s.leftovers == [])
    ensures WorkerConsistent(Collect(s, fromResend, ending, retry))
  {
  }

  /** Steps with which a session comes to its end. */
  predicate Ends(step: Forward) {
    || step.ResendStops? || step.InputEnds? || step.SessionExpires? || step.PingFails? || step.SendFails?
    || step.HandOverStops? || step.HandOverMeetsEnd?
  }

  lemma EndKeepsWorker(s: State, step: Forward)
    requires WorkerConsistent(s) && ForwardEnabled(s, step) && Ends(step)
    ensures WorkerConsistent(ApplyForward(s, step))
  {
    match step
    case ResendStops => CollectKeepsWorker(s, true, EndImmediately, NoReconnect);
    case InputEnds => CollectKeepsWorker(s, false, EndImmediately, NoReconnect);
    case SessionExpires => CollectKeepsWorker(s, false, WaitPendingChunks, Reconnect);
    case PingFails => CollectKeepsWorker(AbortConn(s), false, EndImmediately, ReconnectWithDelay);
    case SendFails =>
    case HandOverStops => CollectKeepsWorker(s, s.worker.resend, EndImmediately, NoReconnect);
    case HandOverMeetsEnd => CollectKeepsWorker(s, s.worker.resend, EndImmediately, ReconnectWithDelay);
  }

  lemma ForwardKeepsWorker(s: State, step: Forward)
    requires WorkerConsistent(s) && ForwardEnabled(s, step)
    ensures WorkerConsistent(ApplyForward(s, step))
  {
    if Ends(step) {
      EndKeepsWorker(s, step);
    } else if step.ResendPops? || step.Receive? || step.HandOver? {
    } else if step.MergeLeftovers? {
    } else {
    }
  }

  lemma ForwardKeepsAcker(s: State, step: Forward)
    requires AckerConsistent(s) && ForwardEnabled(s, step)
    ensures AckerConsistent(ApplyForward(s, step))
  {
  }

  lemma ForwardKeepsCloses(s: State, step: Forward)
    requires ClosedOnce(s) && ForwardEnabled(s, step)
    ensures ClosedOnce(ApplyForward(s, step))
  {
  }

  /** The merged list in Merge. */
  function Merged(s: State, order: seq<Chunk>): seq<Chunk> {
    Previous(s.worker) + s.ackerChan + order + (if s.lastChunk.Some? then [s.lastChunk.value] else [])
  }

  lemma MergedUnique(s: State, order: seq<Chunk>)
    requires FreshIds(s.taken + s.input, s.offered) && Conserved(s) && WorkerConsistent(s) && AckerConsistent(s)
    requires ForwardEnabled(s, MergeLeftovers(order))
    ensures multiset(LeftoverQueue(Merged(s, order))) == Held(s)
    ensures StrictlyAscending(LeftoverQueue(Merged(s, order)))
    ensures |LeftoverQueue(Merged(s, order))| == |Merged(s, order)| && |order| == |s.pending|
  {
    TakenUnique(s.taken, s.input, s.offered);
    assert multiset(Merged(s, order)) == Held(s);
    PartUnique(s.taken, Merged(s, order));
    LeftoverQueueKeepsAll(Merged(s, order));
    LeftoverQueueAscends(Merged(s, order));
    ValuesCounted(s.pending);
    assert |multiset(order)| == |order|;
  }

  lemma MergeKeepsConsistent(s: State, order: seq<Chunk>)
    requires Consistent(s) && ForwardEnabled(s, MergeLeftovers(order))
    requires |LeftoverQueue(Merged(s, order))| == |Merged(s, order)| && |order| == |s.pending|
    ensures Consistent(Merge(s, order))
  {
  }

  lemma MergeKeeps(s: State, order: seq<Chunk>)
    requires Inv(s) && ForwardEnabled(s, MergeLeftovers(order))
    ensures Inv(Merge(s, order))
  {
    MergedUnique(s, order);
    MergeKeepsConsistent(s, order);
    assert Merge(s, order).leftovers == LeftoverQueue(Merged(s, order));
    assert Held(Merge(s, order)) == Held(s);
  }

  lemma ForwardKeepsAscent(s: State, step: Forward)
    requires StrictlyAscending(s.leftovers) && ForwardEnabled(s, step) && !step.MergeLeftovers?
    ensures StrictlyAscending(ApplyForward(s, step).leftovers)
  {
  }

  lemma ForwardKeepsUnknown(s: State, step: Forward)
    requires UnknownCounted(s) && ForwardEnabled(s, step) && !step.MergeLeftovers?
    ensures UnknownCounted(ApplyForward(s, step))
  {
  }

  lemma ForwardKeepsGauges(s: State, step: Forward)
    requires WorkerConsistent(s) && GaugesExact(s) && ForwardEnabled(s, step) && !step.MergeLeftovers?
    ensures GaugesExact(ApplyForward(s, step))
  {
  }

  lemma ResendPopsMovesOn(s: State)
    requires WorkerConsistent(s) && ForwardEnabled(s, ResendPops)
    ensures Held(ApplyForward(s, ResendPops)) == Held(s)
  {
    var s', c := ApplyForward(s, ResendPops), multiset{s.leftovers[0]};
    HeadAndTail(s.leftovers);
    assert Hand(s) == multiset{} && Hand(s') == c && Previous(s'.worker) == Previous(s.worker) == [];
    TakenFirst(multiset(s.leftovers[1..]), multiset([]), multiset(s.ackerChan), Values(s.pending), c);
  }

  lemma ReceiveTakesUp(s: State)
    requires WorkerConsistent(s) && ForwardEnabled(s, Receive)
    ensures Held(ApplyForward(s, Receive)) == Held(s) + multiset{s.input[0]}
  {
    var s', c := ApplyForward(s, Receive), multiset{s.input[0]};
    assert Hand(s) == multiset{} && Hand(s') == c && Previous(s'.worker) == Previous(s.worker);
    TakenUp(multiset(s.leftovers), multiset(Previous(s.worker)), multiset(s.ackerChan), Values(s.pending), c);
  }

  lemma ReceiveKeepsChunks(s: State)
    requires WorkerConsistent(s) && Conserved(s) && ForwardEnabled(s, Receive)
    ensures Conserved(ApplyForward(s, Receive))
  {
    ReceiveTakesUp(s);
    SumsRegroup(s.acked, s.left, Held(s), multiset{s.input[0]});
  }

  lemma HandOverMovesOn(s: State)
    requires WorkerConsistent(s) && ForwardEnabled(s, HandOver)
    ensures Held(ApplyForward(s, HandOver)) == Held(s)
  {
    var s', c := ApplyForward(s, HandOver), multiset{s.worker.chunk};
    assert Hand(s) == c && Hand(s') == multiset{} && Previous(s'.worker) == Previous(s.worker);
    PutDown(multiset(s.leftovers), multiset(Previous(s.worker)), multiset(s.ackerChan), Values(s.pending), c);
    assert multiset(s'.ackerChan) == multiset(s.ackerChan) + c;
  }

  lemma CollectKeepsChunks(s: State, fromResend: bool, ending: Ending, retry: Retry)
    requires Conserved(s) && !Leaving(s.worker) && !s.worker.HandedOver?
    ensures Conserved(Collect(s, fromResend, ending, retry))
  {
  }

  lemma EndKeepsChunks(s: State, step: Forward)
    requires Conserved(s) && ForwardEnabled(s, step) && Ends(step)
    ensures Conserved(ApplyForward(s, step))
  {
    match step
    case ResendStops => CollectKeepsChunks(s, true, EndImmediately, NoReconnect);
    case InputEnds => CollectKeepsChunks(s, false, EndImmediately, NoReconnect);
    case SessionExpires => CollectKeepsChunks(s, false, WaitPendingChunks, Reconnect);
    case PingFails => CollectKeepsChunks(AbortConn(s), false, EndImmediately, ReconnectWithDelay);
    case SendFails =>
      var sent := s.(log := s.log + [Sent(s.worker.chunk)]);
      assert Held(sent) == Held(s);
      CollectKeepsChunks(AbortConn(sent), s.worker.resend, EndImmediately, ReconnectWithDelay);
    case HandOverStops => CollectKeepsChunks(s, s.worker.resend, EndImmediately, NoReconnect);
    case HandOverMeetsEnd => CollectKeepsChunks(s, s.worker.resend, EndImmediately, ReconnectWithDelay);
  }

  lemma StayKeepsChunks(s: State, step: Forward)
    requires WorkerConsistent(s) && Conserved(s) && ForwardEnabled(s, step)
    requires step.ResendDone? || step.PingSucceeds? || step.SendSucceeds? || step.CountForwarded? || step.AbortAcknowledger?
    ensures Conserved(ApplyForward(s, step))
  {
    NothingMoves(s, ApplyForward(s, step));
  }

  lemma ForwardKeepsChunks(s: State, step: Forward)
    requires WorkerConsistent(s) && Conserved(s) && ForwardEnabled(s, step) && !step.MergeLeftovers?
    ensures Conserved(ApplyForward(s, step))
  {
    if Ends(step) {
      EndKeepsChunks(s, step);
    } else if step.ResendPops? {
      ResendPopsMovesOn(s);
    } else if step.Receive? {
      ReceiveKeepsChunks(s);
    } else if step.HandOver? {
      HandOverMovesOn(s);
    } else {
      StayKeepsChunks(s, step);
    }
  }

  lemma ForwardKeepsLog(s: State, step: Forward)
    requires FreshIds(s.taken + s.input, s.offered) && Conserved(s) && WorkerConsistent(s) && LogFaithful(s)
    requires ForwardEnabled(s, step) && !step.MergeLeftovers?
    ensures LogFaithful(ApplyForward(s, step))
  {
    if step.SendSucceeds? || step.SendFails? {
      LogExtended(s, Sent(s.worker.chunk));
    }
  }

  lemma ForwardKeeps(s: State, step: Forward)
    requires Inv(s) && ForwardEnabled(s, step)
    ensures Inv(ApplyForward(s, step))
  {
    if step.MergeLeftovers? {
      MergeKeeps(s, step.pendingInAnyOrder);
    } else {
      ForwardKeepsFresh(s, step);
      ForwardKeepsWorker(s, step);
      ForwardKeepsAcker(s, step);
      ForwardKeepsCloses(s, step);
      ForwardKeepsAscent(s, step);
      ForwardKeepsUnknown(s, step);
      ForwardKeepsGauges(s, step);
      ForwardKeepsChunks(s, step);
      ForwardKeepsLog(s, step);
    }
  }

  // The acknowledger

  lemma TakeKeepsConsistent(s: State)
    requires Consistent(s) && AcknowledgeEnabled(s, Take) && s.ackerChan[0].id !in s.pending
    ensures Consistent(ApplyAcknowledge(s, Take))
  {
  }

  lemma TakeKeeps(s: State)
    requires Inv(s) && AcknowledgeEnabled(s, Take)
    ensures Inv(ApplyAcknowledge(s, Take))
  {
    var c := s.ackerChan[0];
    TakenUnique(s.taken, s.input, s.offered);
    WaitingIsNotPending(s, c);
    TakeKeepsConsistent(s);
    ValueAdded(s.pending, c);
    HeadAndTail(s.ackerChan);
    assert Held(ApplyAcknowledge(s, Take)) == Held(s);
  }

  lemma DeliverKeepsConsistent(s: State, c: Chunk)
    requires Consistent(s) && s.acker.Reading? && c.id in s.pending && s.pending[c.id] == c
    ensures Consistent(Deliver(s, c))
  {
  }

  lemma DeliverKeepsChunks(s: State, c: Chunk)
    requires Conserved(s) && Keyed(s.pending) && c.id in s.pending && s.pending[c.id] == c
    ensures Conserved(Deliver(s, c))
  {
    ValueRemoved(s.pending, c);
    assert Held(s) == Held(Deliver(s, c)) + multiset{c};
  }

  lemma DeliverKeepsLog(s: State, c: Chunk)
    requires FreshIds(s.taken + s.input, s.offered) && Conserved(s) && LogFaithful(s)
    requires Keyed(s.pending) && c.id in s.pending && s.pending[c.id] == c
    ensures LogFaithful(Deliver(s, c))
  {
    ValueRemoved(s.pending, c);
    LogExtended(s, Acknowledged(c));
    assert s.acked + s.left + multiset{c} == s.acked + multiset{c} + s.left;
  }

  lemma DeliverKeeps(s: State, c: Chunk)
    requires Inv(s) && s.acker.Reading? && c.id in s.pending && s.pending[c.id] == c
    ensures Inv(Deliver(s, c))
  {
    DeliverKeepsConsistent(s, c);
    DeliverKeepsChunks(s, c);
    DeliverKeepsLog(s, c);
  }

  lemma CountAcknowledgedKeeps(s: State)
    requires Inv(s) && AcknowledgeEnabled(s, CountAcknowledged)
    ensures Inv(ApplyAcknowledge(s, CountAcknowledged))
  {
  }

  lemma AcknowledgeKeeps(s: State, step: Acknowledge)
    requires Inv(s) && AcknowledgeEnabled(s, step)
    ensures Inv(ApplyAcknowledge(s, step))
  {
    match step
    case Take => TakeKeeps(s);
    case AckWithoutId => DeliverKeeps(s, s.acker.next);
    case AckById(id) => DeliverKeeps(s, s.pending[id]);
    case CountAcknowledged => CountAcknowledgedKeeps(s);
    case _ => assert Held(ApplyAcknowledge(s, step)) == Held(s);
  }

  lemma StepKeeps(s: State, step: Step)
    requires Inv(s) && Enabled(s, step)
    ensures Inv(Apply(s, step))
  {
    match step
    case Environment(e) => OutsideKeeps(s, e);
    case Working(w) => WorkKeeps(s, w);
    case Forwarding(f) => ForwardKeeps(s, f);
    case Acknowledging(a) => AcknowledgeKeeps(s, a);
  }
}
