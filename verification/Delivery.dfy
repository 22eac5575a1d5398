/**
 The delivery protocol between a client worker and its acknowledger (output/baseoutput), as a transition system:
 every channel operation, send result, ACK, timer and stop signal is one step, in any order the program allows.
 */
module Delivery {
  import opened Bytes
  import opened Leftovers
  import opened Options

  const MAX_PENDING_CHUNKS_FOR_ACK := 10

  datatype Ending = WaitPendingChunks | EndImmediately

  datatype Retry = ReconnectWithDelay | Reconnect | NoReconnect

  /** Where the worker goroutine is: `run`, `runSession`, `Run` and what it calls. */
  datatype Worker =
    | Opening                                           // select on the stop signal and the new connection
    | Resending                                         // head of the recovery loop
    | Listening                                         // head of the normal loop
    | Sending(chunk: Chunk, resend: bool)               // conn.SendChunk
    | HandingOver(chunk: Chunk, resend: bool)           // select on the acknowledger channel, stop, acknowledger end
    | HandedOver(chunk: Chunk, resend: bool)            // in the channel; gauge and last chunk not updated yet
    | Collecting(previous: seq<Chunk>, ending: Ending, retry: Retry) // acknowledger channel closed
    | Joining(previous: seq<Chunk>, retry: Retry)       // acknowledger and connection aborted, waiting for the end
    | SessionOver(retry: Retry)
    | Delaying                                          // waiting for the retry interval or stop
    | Draining                                          // leftovers channel closed, handing out what is left
    | Stopped

  /** Where the acknowledger goroutine is. */
  datatype Acknowledger =
    | NotStarted
    | Receiving                 // select on its channel and the abort signal
    | Reading(next: Chunk)      // conn.ReadChunkAck
    | Acked(chunk: Chunk)       // callback done, gauge not updated yet
    | Ended                     // pending chunks stored, end signalled

  datatype Event = Sent(chunk: Chunk) | Acknowledged(chunk: Chunk) | Left(chunk: Chunk)

  datatype State = State(
    worker: Worker,
    acker: Acknowledger,
    input: seq<Chunk>,            // the input channel
    inputClosed: bool,
    stopSignal: bool,             // signalled after the channel is closed
    leftovers: seq<Chunk>,        // the leftovers channel
    lastChunk: Option<Chunk>,
    ackerChan: seq<Chunk>,
    ackerAbort: bool,
    connAborted: bool,
    pending: map<ID, Chunk>,      // the acknowledger's map
    unknownAcks: nat,             // ACKs of the session with an unknown ID
    leftoverCloses: nat,          // how often the current leftovers channel has been closed
    ackerChanCloses: nat,
    connCloses: nat,
    pendingAckGauge: int,
    leftoverGauge: int,
    offered: set<ID>,             // IDs of all chunks ever put into the input channel
    taken: seq<Chunk>,            // chunks the worker received from it
    acked: multiset<Chunk>,       // onChunkAcked calls
    left: multiset<Chunk>,        // onChunkLeft calls
    log: seq<Event>)

  const INITIAL := State(
    Opening, NotStarted, [], false, false, [], None, [], false, false, map[], 0, 0, 0, 0, 0, 0,
    {}, [], multiset{}, multiset{}, [])

  datatype Step =
    | Environment(outside: Outside)
    | Working(work: Work)
    | Forwarding(forward: Forward)
    | Acknowledging(ack: Acknowledge)

  /** The buffer feeding the input channel, other consumers of it, and the reaction to the stop signal. */
  datatype Outside =
    | Offer(chunk: Chunk)
    | OthersTake
    | CloseInput
    | SignalStop
    | StopAbortsConnection

  /** ClientWorker.run and runSession, between sessions. */
  datatype Work =
    | OpenFails
    | OpenStops
    | OpenSucceeds
    | EndSession
    | DelayOver
    | DelayStops
    | Leave
    | Finish

  /** clientSession.Run and what it calls. */
  datatype Forward =
    | ResendStops
    | ResendPops
    | ResendDone
    | Receive
    | InputEnds
    | SessionExpires
    | PingSucceeds
    | PingFails
    | SendSucceeds
    | SendFails
    | HandOver
    | HandOverStops
    | HandOverMeetsEnd
    | CountForwarded
    | AbortAcknowledger
    | MergeLeftovers(pendingInAnyOrder: seq<Chunk>)

  /** clientSession.runAcknowledger. */
  datatype Acknowledge =
    | Take
    | SeeClose
    | SeeAbort
    | AckFails
    | AckWithoutId
    | AckById(id: ID)
    | AckUnknown(id: ID)
    | CountAcknowledged

  /** A session exists from the opened connection to the collected leftovers. */
  predicate InSession(s: State) {
    !s.worker.Opening? && !s.worker.SessionOver? && !s.worker.Delaying? && !s.worker.Draining? && !s.worker.Stopped?
  }

  predicate Enabled(s: State, step: Step) {
    match step
    case Environment(e) => OutsideEnabled(s, e)
    case Working(w) => WorkEnabled(s, w)
    case Forwarding(f) => ForwardEnabled(s, f)
    case Acknowledging(a) => AcknowledgeEnabled(s, a)
  }

  predicate OutsideEnabled(s: State, step: Outside) {
    match step
    case Offer(c) => !s.inputClosed && c.id != NO_ID && c.id !in s.offered
    case OthersTake => s.input != []
    case CloseInput => !s.inputClosed
    case SignalStop => s.inputClosed
    case StopAbortsConnection => s.stopSignal && InSession(s)
  }

  predicate WorkEnabled(s: State, step: Work) {
    match step
    case OpenFails => s.worker.Opening?
    case OpenStops => s.worker.Opening? && s.stopSignal
    case OpenSucceeds => s.worker.Opening?
    case EndSession => s.worker.SessionOver?
    case DelayOver => s.worker.Delaying? && !s.stopSignal // a signal given before is seen at once
    case DelayStops => s.worker.Delaying? && s.stopSignal
    case Leave => s.worker.Draining? && s.leftovers != []
    case Finish => s.worker.Draining? && s.leftovers == []
  }

  predicate ForwardEnabled(s: State, step: Forward) {
    match step
    case ResendStops => s.worker.Resending? && s.stopSignal
    case ResendPops => s.worker.Resending? && s.leftovers != []
    case ResendDone => s.worker.Resending? && s.leftovers == [] && !s.stopSignal
    case Receive => s.worker.Listening? && s.input != []
    case InputEnds => s.worker.Listening? && s.input == [] && s.inputClosed
    case SessionExpires => s.worker.Listening?
    case PingSucceeds => s.worker.Listening?
    case PingFails => s.worker.Listening?
    case SendSucceeds => s.worker.Sending?
    case SendFails => s.worker.Sending?
    case HandOver => s.worker.HandingOver? && |s.ackerChan| < MAX_PENDING_CHUNKS_FOR_ACK
    case HandOverStops => s.worker.HandingOver? && s.stopSignal
    case HandOverMeetsEnd => s.worker.HandingOver? && s.acker.Ended?
    case CountForwarded => s.worker.HandedOver?
    case AbortAcknowledger => s.worker.Collecting?
    case MergeLeftovers(order) => s.worker.Joining? && s.acker.Ended? && multiset(order) == Values(s.pending)
  }

  predicate AcknowledgeEnabled(s: State, step: Acknowledge) {
    match step
    case Take => s.acker.Receiving? && s.ackerChan != []
    case SeeClose => s.acker.Receiving? && s.ackerChan == [] && s.ackerChanCloses > 0
    case SeeAbort => s.acker.Receiving? && s.ackerAbort
    case AckFails => s.acker.Reading?
    case AckWithoutId => s.acker.Reading?
    case AckById(id) => s.acker.Reading? && id != NO_ID && id in s.pending
    case AckUnknown(id) => s.acker.Reading? && id != NO_ID && id !in s.pending
    case CountAcknowledged => s.acker.Acked?
  }

  function Values(m: map<ID, Chunk>): multiset<Chunk> {
    multiset(m.Values)
  }

  /** abortConn closes the connection the first time it is called. */
  function AbortConn(s: State): State {
    if s.connAborted then s else s.(connAborted := true, connCloses := s.connCloses + 1)
  }

  /** The first part of collectLeftovers: drain what the recovery loop has not resent, close the channels. */
  function Collect(s: State, fromResend: bool, ending: Ending, retry: Retry): State {
    var previous := if fromResend then s.leftovers else [];
    s.(worker := Collecting(previous, ending, retry),
       leftovers := if fromResend then [] else s.leftovers,
       leftoverCloses := if fromResend then s.leftoverCloses + 1 else s.leftoverCloses,
       ackerChanCloses := s.ackerChanCloses + 1)
  }

  /** The last part of collectLeftovers, when the acknowledger has ended. */
  function Merge(s: State, order: seq<Chunk>): State
    requires s.worker.Joining?
  {
    var last := if s.lastChunk.Some? then [s.lastChunk.value] else [];
    var newLeftovers := s.worker.previous + s.ackerChan + order + last;
    s.(worker := SessionOver(s.worker.retry),
       acker := NotStarted,
       leftovers := LeftoverQueue(newLeftovers),
       leftoverCloses := 0,
       lastChunk := None,
       ackerChan := [],
       pending := map[],
       pendingAckGauge := s.pendingAckGauge - (|s.ackerChan| + |order|),
       leftoverGauge := s.leftoverGauge + (|newLeftovers| - |s.worker.previous|))
  }

  function LoopHead(resend: bool): Worker {
    if resend then Resending else Listening
  }

  function Deliver(s: State, c: Chunk): State {
    s.(acker := Acked(c), pending := s.pending - {c.id}, acked := s.acked + multiset{c}, log := s.log + [Acknowledged(c)])
  }

  function Apply(s: State, step: Step): State
    requires Enabled(s, step)
  {
    match step
    case Environment(e) => ApplyOutside(s, e)
    case Working(w) => ApplyWork(s, w)
    case Forwarding(f) => ApplyForward(s, f)
    case Acknowledging(a) => ApplyAcknowledge(s, a)
  }

  function ApplyOutside(s: State, step: Outside): State
    requires OutsideEnabled(s, step)
  {
    match step
    case Offer(c) => s.(input := s.input + [c], offered := s.offered + {c.id})
    case OthersTake => s.(input := s.input[1..])
    case CloseInput => s.(inputClosed := true)
    case SignalStop => s.(stopSignal := true)
    case StopAbortsConnection => AbortConn(s)
  }

  function ApplyWork(s: State, step: Work): State
    requires WorkEnabled(s, step)
  {
    match step
    case OpenFails => s.(worker := SessionOver(ReconnectWithDelay))
    case OpenStops => s.(worker := SessionOver(NoReconnect))
    case OpenSucceeds =>
      s.(worker := Resending, acker := Receiving, lastChunk := None, ackerChan := [], ackerAbort := false,
         connAborted := false, pending := map[], unknownAcks := 0, ackerChanCloses := 0, connCloses := 0)
    case EndSession =>
      (match s.worker.retry
       case NoReconnect => s.(worker := Draining, leftoverCloses := s.leftoverCloses + 1)
       case ReconnectWithDelay => s.(worker := Delaying)
       case Reconnect => s.(worker := Opening))
    case DelayOver => s.(worker := Opening)
    case DelayStops => s.(worker := Draining, leftoverCloses := s.leftoverCloses + 1)
    case Leave =>
      var c := s.leftovers[0];
      s.(leftovers := s.leftovers[1..], leftoverGauge := s.leftoverGauge - 1,
         left := s.left + multiset{c}, log := s.log + [Left(c)])
    case Finish => s.(worker := Stopped)
  }

  function ApplyForward(s: State, step: Forward): State
    requires ForwardEnabled(s, step)
  {
    match step
    case ResendStops => Collect(s, true, EndImmediately, NoReconnect)
    case ResendPops =>
      var c := s.leftovers[0];
      s.(worker := Sending(c, true), leftovers := s.leftovers[1..], lastChunk := Some(c),
         leftoverGauge := s.leftoverGauge - 1)
    case ResendDone => s.(worker := Listening)
    case Receive =>
      var c := s.input[0];
      s.(worker := Sending(c, false), input := s.input[1..], lastChunk := Some(c), taken := s.taken + [c])
    case InputEnds => Collect(s, false, EndImmediately, NoReconnect)
    case SessionExpires => Collect(s, false, WaitPendingChunks, Reconnect)
    case PingSucceeds => s
    case PingFails => Collect(AbortConn(s), false, EndImmediately, ReconnectWithDelay)
    case SendSucceeds =>
      s.(worker := HandingOver(s.worker.chunk, s.worker.resend), log := s.log + [Sent(s.worker.chunk)])
    case SendFails =>
      // a failed send may still have reached the other side
      Collect(AbortConn(s.(log := s.log + [Sent(s.worker.chunk)])), s.worker.resend, EndImmediately, ReconnectWithDelay)
    case HandOver =>
      s.(worker := HandedOver(s.worker.chunk, s.worker.resend), ackerChan := s.ackerChan + [s.worker.chunk])
    case HandOverStops => Collect(s, s.worker.resend, EndImmediately, NoReconnect)
    case HandOverMeetsEnd => Collect(s, s.worker.resend, EndImmediately, ReconnectWithDelay)
    case CountForwarded =>
      s.(worker := LoopHead(s.worker.resend), lastChunk := None, pendingAckGauge := s.pendingAckGauge + 1)
    case AbortAcknowledger =>
      // with WaitPendingChunks this may come after the acknowledger has ended or after the wait timed out
      AbortConn(s.(worker := Joining(s.worker.previous, s.worker.retry), ackerAbort := true))
    case MergeLeftovers(order) => Merge(s, order)
  }

  function ApplyAcknowledge(s: State, step: Acknowledge): State
    requires AcknowledgeEnabled(s, step)
  {
    match step
    case Take =>
      var c := s.ackerChan[0];
      s.(acker := Reading(c), ackerChan := s.ackerChan[1..], pending := s.pending[c.id := c])
    case SeeClose => s.(acker := Ended)
    case SeeAbort => s.(acker := Ended)
    case AckFails => AbortConn(s).(acker := Ended)
    case AckWithoutId => Deliver(s, s.acker.next)
    case AckById(id) => Deliver(s, s.pending[id])
    case AckUnknown(id) => s.(acker := Receiving, unknownAcks := s.unknownAcks + 1)
    case CountAcknowledged => s.(acker := Receiving, pendingAckGauge := s.pendingAckGauge - 1)
  }

  /** The states a worker can get into. */
  function Run(steps: seq<Step>): Option<State> {
    if steps == [] then Some(INITIAL)
    else
      var before := Run(steps[..|steps| - 1]);
      if before.Some? && Enabled(before.value, steps[|steps| - 1])
      then Some(Apply(before.value, steps[|steps| - 1]))
      else None
  }

  ghost predicate Reachable(s: State) {
    exists steps :: Run(steps) == Some(s)
  }
}
