/** What the delivery protocol promises over every interleaving. */
module DeliveryTheorems {
  import opened Bytes
  import opened ChunkIds
  import opened Leftovers
  import opened Options
  import opened Delivery
  import opened DeliverySafety

  // The invariant holds over every run

  lemma {:induction false} InvAlways(steps: seq<Step>)
    requires Run(steps).Some?
    ensures Inv(Run(steps).value)
  {
    if steps == [] {
    } else {
      InvAlways(steps[..|steps| - 1]);
      StepKeeps(Run(steps[..|steps| - 1]).value, steps[|steps| - 1]);
    }
  }

  lemma InvReachable(s: State)
    requires Reachable(s)
    ensures Inv(s)
  {
    var steps :| Run(steps) == Some(s);
    InvAlways(steps);
  }

  // Delivery

  /** When the worker has stopped, each chunk it took was acknowledged or left, and only one of them, once. */
  lemma EachChunkHandedOnce(s: State, c: Chunk)
    requires Reachable(s) && s.worker.Stopped? && c in s.taken
    ensures s.acked[c] + s.left[c] == 1
  {
    InvReachable(s);
    TakenUnique(s.taken, s.input, s.offered);
    UniqueIn(s.taken, c);
    assert Held(s) == multiset{};
  }

  /** Nothing is handed to a callback that has not been taken. */
  lemma OnlyTakenChunksHanded(s: State)
    requires Reachable(s)
    ensures s.acked + s.left <= multiset(s.taken)
  {
    InvReachable(s);
  }

  /** At any time an undelivered chunk is in one of the places only, and an acknowledged or left one in none. */
  lemma HeldInOnePlace(s: State, c: Chunk)
    requires Reachable(s) && c in s.taken
    ensures s.acked[c] + s.left[c] + multiset(s.leftovers)[c] + multiset(Previous(s.worker))[c]
            + Hand(s)[c] + multiset(s.ackerChan)[c] + Values(s.pending)[c] == 1
  {
    InvReachable(s);
    TakenUnique(s.taken, s.input, s.offered);
    UniqueIn(s.taken, c);
  }

  /** When leftovers are collected the four places have no chunk in common. */
  lemma CollectedPlacesDisjoint(s: State, i: nat, j: nat, order: seq<Chunk>)
    requires Reachable(s) && ForwardEnabled(s, MergeLeftovers(order))
    requires i < j < |Merged(s, order)|
    ensures Merged(s, order)[i].id != Merged(s, order)[j].id
  {
    InvReachable(s);
    TakenUnique(s.taken, s.input, s.offered);
    assert multiset(Merged(s, order)) == Held(s);
    PartUnique(s.taken, Merged(s, order));
  }

  /** No chunk is sent or delivered again after it was acknowledged or left. */
  lemma NothingAfterDelivery(s: State, i: nat, j: nat)
    requires Reachable(s) && i < j < |s.log| && Final(s.log[i])
    ensures s.log[j].chunk != s.log[i].chunk
  {
    InvReachable(s);
  }

  /** Neither channels nor the connection are closed twice in their life. */
  lemma NothingClosedTwice(s: State)
    requires Reachable(s)
    ensures s.leftoverCloses <= 1 && s.ackerChanCloses <= 1 && s.connCloses <= 1
    ensures s.worker.HandingOver? ==> s.ackerChanCloses == 0
  {
    InvReachable(s);
  }

  // Gauges and the pending map

  /** Between sessions nothing waits for an ACK, and the leftover gauge is the length of the leftovers channel. */
  lemma GaugesBetweenSessions(s: State)
    requires Reachable(s) && !InSession(s)
    ensures s.pendingAckGauge == 0 && s.leftoverGauge == |s.leftovers|
  {
    InvReachable(s);
  }

  lemma LeftoverGaugeInSession(s: State)
    requires Reachable(s) && !Leaving(s.worker)
    ensures s.leftoverGauge == |s.leftovers|
  {
    InvReachable(s);
  }

  /** At the head of the acknowledger's loop, the map has as many entries as ACKs had an unknown ID so far. */
  lemma PendingIsUnknownAcks(s: State)
    requires Reachable(s) && s.acker.Receiving?
    ensures |s.pending| == s.unknownAcks
  {
    InvReachable(s);
  }

  // Order of resending

  lemma {:induction false} AscendingFromHead(chunks: seq<Chunk>, i: nat)
    requires StrictlyAscending(chunks) && 0 < i < |chunks|
    ensures Less(chunks[0].id, chunks[i].id)
  {
    if i > 1 {
      AscendingFromHead(chunks, i - 1);
      LessTransitive(chunks[0].id, chunks[i - 1].id, chunks[i].id);
    } else {
    }
  }

  /** What is resent next has the smallest ID of all that is still to be resent. */
  lemma ResentInOrder(s: State, i: nat)
    requires Reachable(s) && ForwardEnabled(s, ResendPops) && 0 < i < |s.leftovers|
    ensures Less(ApplyForward(s, ResendPops).worker.chunk.id, s.leftovers[i].id)
  {
    InvReachable(s);
    AscendingFromHead(s.leftovers, i);
  }

  /** The next session inherits every chunk that is still undelivered, whatever order the map gives them in. */
  lemma NextSessionGetsAll(s: State, order: seq<Chunk>)
    requires Reachable(s) && ForwardEnabled(s, MergeLeftovers(order))
    ensures var s' := ApplyForward(s, MergeLeftovers(order));
            multiset(s'.leftovers) == multiset(s.taken) - s.acked - s.left && StrictlyAscending(s'.leftovers)
  {
    InvReachable(s);
    MergedUnique(s, order);
    assert ApplyForward(s, MergeLeftovers(order)).leftovers == LeftoverQueue(Merged(s, order));
  }

  // Progress

  /** Who waits for the end of the acknowledger has told it to end and has closed its connection. */
  ghost predicate AbortedBeforeWaiting(s: State) {
    s.worker.Joining? ==> s.ackerAbort && s.connAborted
  }

  lemma WorkAborts(s: State, step: Work)
    requires AbortedBeforeWaiting(s) && WorkEnabled(s, step)
    ensures AbortedBeforeWaiting(ApplyWork(s, step))
  {
  }

  lemma ForwardAborts(s: State, step: Forward)
    requires AbortedBeforeWaiting(s) && ForwardEnabled(s, step)
    ensures AbortedBeforeWaiting(ApplyForward(s, step))
  {
  }

  lemma StepAborts(s: State, step: Step)
    requires AbortedBeforeWaiting(s) && Enabled(s, step)
    ensures AbortedBeforeWaiting(Apply(s, step))
  {
    match step
    case Environment(e) =>
    case Working(w) => WorkAborts(s, w);
    case Forwarding(f) => ForwardAborts(s, f);
    case Acknowledging(a) =>
  }

  lemma {:induction false} AlwaysAborted(steps: seq<Step>)
    requires Run(steps).Some?
    ensures AbortedBeforeWaiting(Run(steps).value)
  {
    if steps == [] {
    } else {
      AlwaysAborted(steps[..|steps| - 1]);
      StepAborts(Run(steps[..|steps| - 1]).value, steps[|steps| - 1]);
    }
  }

  lemma {:induction false} InSomeOrder(chunks: set<Chunk>) returns (order: seq<Chunk>)
    ensures multiset(order) == multiset(chunks)
    decreases |chunks|
  {
    if chunks == {} {
      order := [];
    } else {
      var c :| c in chunks;
      order := InSomeOrder(chunks - {c});
      order := order + [c];
      assert chunks == (chunks - {c}) + {c};
    }
  }

  /** The step the acknowledger can always take unless it has ended or has nothing to wait for. */
  function AcknowledgerStep(s: State): Acknowledge {
    if s.acker.Reading? then AckFails
    else if s.acker.Acked? then CountAcknowledged
    else if s.ackerChan != [] then Take
    else SeeAbort
  }

  lemma HandOverNeverStuck(s: State)
    requires Inv(s) && s.worker.HandingOver?
    ensures ForwardEnabled(s, HandOver) || ForwardEnabled(s, HandOverMeetsEnd)
            || AcknowledgeEnabled(s, AcknowledgerStep(s))
  {
  }

  /** The protocol never deadlocks: until it has stopped, the worker or the acknowledger can go on by itself. */
  lemma NeverStuck(s: State) returns (step: Step)
    requires Reachable(s) && !s.worker.Stopped?
    ensures Enabled(s, step) && !step.Environment?
  {
    InvReachable(s);
    var steps :| Run(steps) == Some(s);
    AlwaysAborted(steps);
    match s.worker
    case Opening => step := Working(OpenFails);
    case Resending =>
      step := Forwarding(if s.leftovers != [] then ResendPops else if s.stopSignal then ResendStops else ResendDone);
    case Listening => step := Forwarding(PingSucceeds);
    case Sending(_, _) => step := Forwarding(SendSucceeds);
    case HandingOver(_, _) =>
      HandOverNeverStuck(s);
      step := if ForwardEnabled(s, HandOver) then Forwarding(HandOver)
              else if ForwardEnabled(s, HandOverMeetsEnd) then Forwarding(HandOverMeetsEnd)
              else Acknowledging(AcknowledgerStep(s));
    case HandedOver(_, _) => step := Forwarding(CountForwarded);
    case Collecting(_, _, _) => step := Forwarding(AbortAcknowledger);
    case Joining(_, _) =>
      if s.acker.Ended? {
        var order := InSomeOrder(s.pending.Values);
        step := Forwarding(MergeLeftovers(order));
      } else {
        step := Acknowledging(AcknowledgerStep(s));
      }
    case SessionOver(_) => step := Working(EndSession);
    case Delaying => step := Working(if s.stopSignal then DelayStops else DelayOver);
    case Draining => step := Working(if s.leftovers != [] then Leave else Finish);
  }

  /** How many steps the acknowledger may still take if it is given no more chunks. */
  function AcknowledgerWork(s: State): nat {
    3 * |s.ackerChan| + (match s.acker
                         case NotStarted => 0
                         case Ended => 0
                         case Receiving => 1
                         case Acked(_) => 2
                         case Reading(_) => 3)
  }

  /** The wait for the acknowledger's end is over after boundedly many of its steps. */
  lemma AcknowledgerGetsDone(s: State, step: Acknowledge)
    requires AcknowledgeEnabled(s, step)
    ensures AcknowledgerWork(ApplyAcknowledge(s, step)) < AcknowledgerWork(s)
  {
  }

  /** While the worker waits, its own and outside steps give the acknowledger no more work. */
  lemma WaitingAddsNoWork(s: State, step: Step)
    requires s.worker.Joining? && Enabled(s, step) && !step.Acknowledging?
    ensures AcknowledgerWork(Apply(s, step)) <= AcknowledgerWork(s)
    ensures Apply(s, step).worker == s.worker || s.acker.Ended?
  {
    match step
    case Environment(e) => OutsideLeavesAlone(s, e);
    case Working(w) =>
    case Forwarding(f) =>
  }

  // The log tells the truth

  function AckedIn(log: seq<Event>): multiset<Chunk> {
    if log == [] then multiset{}
    else
      var last := log[|log| - 1];
      AckedIn(log[..|log| - 1]) + if last.Acknowledged? then multiset{last.chunk} else multiset{}
  }

  function LeftIn(log: seq<Event>): multiset<Chunk> {
    if log == [] then multiset{}
    else
      var last := log[|log| - 1];
      LeftIn(log[..|log| - 1]) + if last.Left? then multiset{last.chunk} else multiset{}
  }

  ghost predicate LogComplete(s: State) {
    s.acked == AckedIn(s.log) && s.left == LeftIn(s.log)
  }

  lemma LoggedOnce(log: seq<Event>, e: Event)
    ensures AckedIn(log + [e]) == AckedIn(log) + if e.Acknowledged? then multiset{e.chunk} else multiset{}
    ensures LeftIn(log + [e]) == LeftIn(log) + if e.Left? then multiset{e.chunk} else multiset{}
  {
  }

  lemma WorkLogs(s: State, step: Work)
    requires LogComplete(s) && WorkEnabled(s, step)
    ensures LogComplete(ApplyWork(s, step))
  {
    if step.Leave? {
      LoggedOnce(s.log, Left(s.leftovers[0]));
    } else if !step.OpenSucceeds? {
      IdleMovesWorker(s, step);
    }
  }

  lemma ForwardLogs(s: State, step: Forward)
    requires ForwardEnabled(s, step)
    ensures ApplyForward(s, step).acked == s.acked && ApplyForward(s, step).left == s.left
    ensures ApplyForward(s, step).log ==
            if step.SendSucceeds? || step.SendFails? then s.log + [Sent(s.worker.chunk)] else s.log
  {
    if step.SendSucceeds? || step.SendFails? {
    } else {
    }
  }

  lemma AcknowledgeLogs(s: State, step: Acknowledge)
    requires LogComplete(s) && AcknowledgeEnabled(s, step)
    ensures LogComplete(ApplyAcknowledge(s, step))
  {
  }

  lemma ForwardLogsComplete(s: State, step: Forward)
    requires LogComplete(s) && ForwardEnabled(s, step)
    ensures LogComplete(ApplyForward(s, step))
  {
    ForwardLogs(s, step);
    if step.SendSucceeds? || step.SendFails? {
      LoggedOnce(s.log, Sent(s.worker.chunk));
    }
  }

  /** Nothing outside the protocol takes part in deliveries. */
  lemma OutsideLeavesAlone(s: State, step: Outside)
    requires OutsideEnabled(s, step)
    ensures var s' := ApplyOutside(s, step);
            && s'.log == s.log && s'.acked == s.acked && s'.left == s.left
            && s'.worker == s.worker && s'.acker == s.acker && s'.ackerChan == s.ackerChan && s'.pending == s.pending
  {
  }

  lemma StepLogs(s: State, step: Step)
    requires Enabled(s, step) && LogComplete(s)
    ensures LogComplete(Apply(s, step))
  {
    match step
    case Environment(e) => OutsideLeavesAlone(s, e);
    case Working(w) => WorkLogs(s, w);
    case Forwarding(f) => ForwardLogsComplete(s, f);
    case Acknowledging(a) => AcknowledgeLogs(s, a);
  }

  /** The callbacks were called exactly for the deliveries in the log. */
  lemma {:induction false} LogTellsDeliveries(steps: seq<Step>)
    requires Run(steps).Some?
    ensures LogComplete(Run(steps).value)
  {
    if steps == [] {
    } else {
      LogTellsDeliveries(steps[..|steps| - 1]);
      StepLogs(Run(steps[..|steps| - 1]).value, steps[|steps| - 1]);
    }
  }

  /** What waits for an ACK, and what was acknowledged, has been sent before. */
  ghost predicate SentFirst(s: State) {
    && (s.worker.HandingOver? || s.worker.HandedOver? ==> Sent(s.worker.chunk) in s.log)
    && (forall c | c in s.ackerChan :: Sent(c) in s.log)
    && (forall id | id in s.pending :: Sent(s.pending[id]) in s.log)
    && (s.acker.Reading? ==> Sent(s.acker.next) in s.log)
    && AckedAfterSent(s.log)
  }

  ghost predicate AckedAfterSent(log: seq<Event>) {
    forall i | 0 <= i < |log| && log[i].Acknowledged? :: Sent(log[i].chunk) in log[..i]
  }

  lemma AckedAfterSentGrows(log: seq<Event>, e: Event)
    requires AckedAfterSent(log) && (e.Acknowledged? ==> Sent(e.chunk) in log)
    ensures AckedAfterSent(log + [e])
  {
    forall i | 0 <= i < |log + [e]| && (log + [e])[i].Acknowledged? ensures Sent((log + [e])[i].chunk) in (log + [e])[..i] {
      assert (log + [e])[..i] == log[..i];
    }
  }

  lemma WorkSentFirst(s: State, step: Work)
    requires SentFirst(s) && WorkEnabled(s, step)
    ensures SentFirst(ApplyWork(s, step))
  {
    if step.Leave? {
      AckedAfterSentGrows(s.log, Left(s.leftovers[0]));
    } else if !step.OpenSucceeds? {
      IdleMovesWorker(s, step);
    }
  }

  lemma SendSentFirst(s: State, step: Forward)
    requires SentFirst(s) && ForwardEnabled(s, step) && (step.SendSucceeds? || step.SendFails?)
    ensures SentFirst(ApplyForward(s, step))
  {
    var e := Sent(s.worker.chunk);
    AckedAfterSentGrows(s.log, e);
    assert (s.log + [e])[|s.log|] == e;
  }

  lemma ForwardSentFirst(s: State, step: Forward)
    requires SentFirst(s) && ForwardEnabled(s, step)
    ensures SentFirst(ApplyForward(s, step))
  {
    if step.SendSucceeds? || step.SendFails? {
      SendSentFirst(s, step);
    } else {
      ForwardLogs(s, step);
    }
  }

  lemma AcknowledgeSentFirst(s: State, step: Acknowledge)
    requires SentFirst(s) && AcknowledgeEnabled(s, step)
    ensures SentFirst(ApplyAcknowledge(s, step))
  {
    if step.AckWithoutId? {
      AckedAfterSentGrows(s.log, Acknowledged(s.acker.next));
    } else if step.AckById? {
      AckedAfterSentGrows(s.log, Acknowledged(s.pending[step.id]));
    }
  }

  lemma StepSentFirst(s: State, step: Step)
    requires Enabled(s, step) && SentFirst(s)
    ensures SentFirst(Apply(s, step))
  {
    match step
    case Environment(e) => OutsideLeavesAlone(s, e);
    case Working(w) => WorkSentFirst(s, w);
    case Forwarding(f) => ForwardSentFirst(s, f);
    case Acknowledging(a) => AcknowledgeSentFirst(s, a);
  }

  /** Only chunks that were sent before are taken for acknowledged. */
  lemma {:induction false} AcknowledgedWasSent(steps: seq<Step>)
    requires Run(steps).Some?
    ensures SentFirst(Run(steps).value)
  {
    if steps == [] {
    } else {
      AcknowledgedWasSent(steps[..|steps| - 1]);
      StepSentFirst(Run(steps[..|steps| - 1]).value, steps[|steps| - 1]);
    }
  }

  // Stopping

  /** How far the worker is from its end once stop is signalled; a session that has expired is followed by another. */
  function Phase(w: Worker): nat {
    match w
    case Collecting(_, _, retry) => if retry.Reconnect? then 11 else 6
    case Joining(_, retry) => if retry.Reconnect? then 10 else 5
    case SessionOver(retry) => if retry.Reconnect? then 9 else 4
    case Opening => 8
    case Resending => 7
    case Listening => 7
    case Sending(_, _) => 7
    case HandingOver(_, _) => 7
    case HandedOver(_, _) => 7
    case Delaying => 3
    case Draining => 2
    case Stopped => 0
  }

  predicate ResendingStill(w: Worker) {
    match w
    case Resending => true
    case Sending(_, resend) => resend
    case HandingOver(_, resend) => resend
    case HandedOver(_, resend) => resend
    case _ => false
  }

  /** Chunks that the session may still send if nothing more is offered. */
  function ToSend(s: State): nat {
    |s.input| + if ResendingStill(s.worker) then |s.leftovers| else 0
  }

  /** How far the chunk in hand has got. */
  function Stage(w: Worker): nat {
    match w
    case Resending => 1
    case Sending(_, _) => 14
    case HandingOver(_, _) => 12
    case HandedOver(_, _) => 4
    case _ => 0
  }

  /** What is left to do in a phase. */
  function Remainder(s: State): nat {
    if Phase(s.worker) == 7 then 20 * ToSend(s) + Stage(s.worker) + AcknowledgerWork(s)
    else if s.worker.Collecting? || s.worker.Joining? then AcknowledgerWork(s)
    else if s.worker.Draining? then |s.leftovers|
    else 0
  }

  ghost predicate Approaches(s: State, s': State) {
    && s'.stopSignal == s.stopSignal
    && (Phase(s'.worker) < Phase(s.worker) || (Phase(s'.worker) == Phase(s.worker) && Remainder(s') < Remainder(s)))
  }

  /** The timers of the normal loop: a ping that goes well, and the end of a session that is to be followed by another. */
  predicate OnTimer(step: Step) {
    step == Forwarding(PingSucceeds) || step == Forwarding(SessionExpires)
  }

  lemma WorkApproaches(s: State, step: Work)
    requires s.stopSignal && WorkEnabled(s, step)
    ensures Approaches(s, ApplyWork(s, step))
  {
    if step.Leave? {
      assert |s.leftovers[1..]| < |s.leftovers|;
    } else if step.EndSession? {
    } else {
    }
  }

  lemma CollectApproaches(s: State, step: Forward)
    requires s.stopSignal && ForwardEnabled(s, step)
    requires step.ResendStops? || step.InputEnds? || step.PingFails? || step.SendFails? || step.HandOverStops?
             || step.HandOverMeetsEnd? || step.AbortAcknowledger? || step.MergeLeftovers?
    ensures Approaches(s, ApplyForward(s, step))
  {
    if step.ResendStops? || step.InputEnds? || step.PingFails? {
    } else if step.SendFails? || step.HandOverStops? || step.HandOverMeetsEnd? {
    } else {
    }
  }

  lemma ForwardApproaches(s: State, step: Forward)
    requires s.stopSignal && ForwardEnabled(s, step) && !step.PingSucceeds? && !step.SessionExpires?
    ensures Approaches(s, ApplyForward(s, step))
  {
    if step.ResendPops? {
      assert |s.leftovers[1..]| == |s.leftovers| - 1;
    } else if step.Receive? {
      assert |s.input[1..]| == |s.input| - 1;
    } else if step.SendSucceeds? {
    } else if step.HandOver? {
    } else if step.CountForwarded? {
    } else if !step.ResendDone? {
      CollectApproaches(s, step);
    }
  }

  lemma AcknowledgeKeepsWorker(s: State, step: Acknowledge)
    requires AcknowledgeEnabled(s, step)
    ensures var s' := ApplyAcknowledge(s, step);
            && s'.worker == s.worker && s'.stopSignal == s.stopSignal
            && s'.input == s.input && s'.leftovers == s.leftovers
  {
  }

  /**
   Once stop is signalled, every step of the worker and the acknowledger but the two timers lowers a measure: a shutdown
   ends unless sessions expire again and again, and it waits for nothing but answers.
   */
  lemma StoppingApproaches(s: State, step: Step)
    requires Reachable(s) && s.stopSignal && Enabled(s, step) && !step.Environment? && !OnTimer(step)
    ensures Approaches(s, Apply(s, step))
  {
    match step
    case Working(w) => WorkApproaches(s, w);
    case Forwarding(f) => ForwardApproaches(s, f);
    case Acknowledging(a) =>
      InvReachable(s);
      AcknowledgerGetsDone(s, a);
      AcknowledgeKeepsWorker(s, a);
  }

  /** Nor do steps from outside raise it: the input channel was closed before. */
  lemma OutsideAddsNothing(s: State, step: Outside)
    requires Reachable(s) && s.stopSignal && OutsideEnabled(s, step)
    ensures var s' := ApplyOutside(s, step);
            s'.stopSignal && Phase(s'.worker) == Phase(s.worker) && Remainder(s') <= Remainder(s)
  {
    var steps :| Run(steps) == Some(s);
    ClosedBeforeStop(steps);
    OutsideLeavesAlone(s, step);
    if step.OthersTake? {
      assert |s.input[1..]| < |s.input|;
    }
  }

  lemma {:induction false} ClosedBeforeStop(steps: seq<Step>)
    requires Run(steps).Some?
    ensures Run(steps).value.stopSignal ==> Run(steps).value.inputClosed
  {
    if steps != [] {
      var before, step := Run(steps[..|steps| - 1]).value, steps[|steps| - 1];
      ClosedBeforeStop(steps[..|steps| - 1]);
      StepKeepsClosed(before, step);
    }
  }

  lemma StepKeepsClosed(s: State, step: Step)
    requires Enabled(s, step) && (s.stopSignal ==> s.inputClosed)
    ensures Apply(s, step).stopSignal ==> Apply(s, step).inputClosed
  {
    match step
    case Environment(_) =>
    case Working(_) =>
    case Forwarding(_) =>
    case Acknowledging(a) =>
  }

  /** A step other than the timers that can be taken. */
  lemma StoppingStep(s: State) returns (step: Step)
    requires Reachable(s) && s.stopSignal && !s.worker.Stopped?
    ensures Enabled(s, step) && !step.Environment? && !OnTimer(step)
  {
    if s.worker.Listening? {
      var steps :| Run(steps) == Some(s);
      ClosedBeforeStop(steps);
      step := Forwarding(if s.input != [] then Receive else InputEnds);
    } else {
      step := NeverStuck(s);
      assert step != Forwarding(PingSucceeds) && step != Forwarding(SessionExpires);
    }
  }

  lemma RunMore(steps: seq<Step>, s: State, step: Step)
    requires Run(steps) == Some(s) && Enabled(s, step)
    ensures Run(steps + [step]) == Some(Apply(s, step))
  {
    assert (steps + [step])[..|steps|] == steps;
  }

  /** So the protocol gets to its end from wherever it is, with no help from outside and no expired session. */
  lemma {:induction false} StopReachesEnd(steps: seq<Step>, s: State) returns (more: seq<Step>, end: State)
    requires Run(steps) == Some(s) && s.stopSignal
    ensures Run(steps + more) == Some(end) && end.worker.Stopped?
    ensures forall i | 0 <= i < |more| :: !more[i].Environment? && !OnTimer(more[i])
    decreases Phase(s.worker), Remainder(s)
  {
    if s.worker.Stopped? {
      assert steps + [] == steps;
      return [], s;
    }
    var step := StoppingStep(s);
    StoppingApproaches(s, step);
    RunMore(steps, s, step);
    more, end := StopReachesEnd(steps + [step], Apply(s, step));
    Regroup(steps, [step], more);
    more := [step] + more;
  }

  /** The timers do not lower it: a ping changes nothing, and a session that expires is followed by another one. */
  lemma TimersDoNotApproach(s: State)
    requires s.worker.Listening?
    ensures Apply(s, Forwarding(PingSucceeds)) == s
    ensures Phase(Apply(s, Forwarding(SessionExpires)).worker) > Phase(s.worker)
  {
  }
}
