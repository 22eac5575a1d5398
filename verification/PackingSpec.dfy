/**
 Packing of serialized records into chunks: output/shared/messagepacker.go with the chunks of output/datadog/chunk.go
 and output/fluentdforward/chunk.go, before compression.
 */
module PackingSpec {
  import opened Bytes
  import opened Options

  type Stream = seq<byte>

  datatype Format = Datadog | Fluentd

  /** Limits that are not positive are none. */
  datatype Config = Config(format: Format, maxRecords: int, maxBytes: int)

  const OPEN_BRACKET: byte := 91
  const CLOSE_BRACKET: byte := 93
  const COMMA: byte := 44

  // What the program does

  /** The chunk being filled: its number in the order of creation, what was written and the two counters. */
  datatype Chunk = Chunk(number: nat, payload: seq<byte>, numRecords: nat, numBytes: nat)

  /** A finished chunk. */
  datatype Packed = Packed(number: nat, payload: seq<byte>, numRecords: nat)

  datatype Packer = Packer(current: Option<Chunk>, made: nat, accepted: seq<Packed>)

  const NEW_PACKER := Packer(None, 0, [])

  function NewChunk(cfg: Config, number: nat): Chunk {
    match cfg.format
    case Datadog => Chunk(number, [OPEN_BRACKET], 0, 1)
    case Fluentd => Chunk(number, [], 0, 0)
  }

  predicate CanAppendData(cfg: Config, c: Chunk, length: nat) {
    && !(cfg.maxRecords > 0 && c.numRecords >= cfg.maxRecords)
    && !(cfg.maxBytes > 0 && c.numBytes + length + (if cfg.format.Datadog? then 1 else 0) > cfg.maxBytes)
  }

  function WriteRecord(cfg: Config, c: Chunk, data: Stream): Chunk {
    match cfg.format
    case Datadog =>
      Chunk(c.number, c.payload + (if c.numRecords != 0 then [COMMA] else []) + data, c.numRecords + 1,
            c.numBytes + 1 + |data|)
    case Fluentd => Chunk(c.number, c.payload + data, c.numRecords + 1, c.numBytes + |data|)
  }

  function Finalize(cfg: Config, c: Chunk): Packed {
    Packed(c.number, c.payload + (if cfg.format.Datadog? then [CLOSE_BRACKET] else []), c.numRecords)
  }

  /** FlushBuffer, with the result accepted. */
  function Flush(cfg: Config, p: Packer): Packer {
    if p.current.None? then p
    else p.(current := None, accepted := p.accepted + [Finalize(cfg, p.current.value)])
  }

  /** WriteStream, with the result accepted. */
  function WriteStream(cfg: Config, p: Packer, data: Stream): Packer {
    var q := if p.current.Some? && !CanAppendData(cfg, p.current.value, |data|) then Flush(cfg, p) else p;
    if q.current.Some? then q.(current := Some(WriteRecord(cfg, q.current.value, data)))
    else q.(current := Some(WriteRecord(cfg, NewChunk(cfg, q.made), data)), made := q.made + 1)
  }

  datatype Op = Write(data: Stream) | FlushBuffer

  function Apply(cfg: Config, p: Packer, op: Op): Packer {
    match op
    case Write(data) => WriteStream(cfg, p, data)
    case FlushBuffer => Flush(cfg, p)
  }

  function Run(cfg: Config, ops: seq<Op>): Packer {
    if ops == [] then NEW_PACKER else Apply(cfg, Run(cfg, ops[..|ops| - 1]), ops[|ops| - 1])
  }

  // What it should do

  function Flatten(batch: seq<Stream>): seq<byte> {
    if batch == [] then [] else Flatten(batch[..|batch| - 1]) + batch[|batch| - 1]
  }

  /** The elements of a JSON array with their commas. */
  function Join(batch: seq<Stream>): seq<byte> {
    if batch == [] then []
    else if |batch| == 1 then batch[0]
    else Join(batch[..|batch| - 1]) + [COMMA] + batch[|batch| - 1]
  }

  /** The full payload for some records. */
  function Payload(format: Format, batch: seq<Stream>): seq<byte> {
    match format
    case Datadog => [OPEN_BRACKET] + Join(batch) + [CLOSE_BRACKET]
    case Fluentd => Flatten(batch)
  }

  /** Whether the chunk could take one more, by the length it would really have. */
  predicate Fits(cfg: Config, batch: seq<Stream>, data: Stream) {
    && (cfg.maxRecords > 0 ==> |batch| + 1 <= cfg.maxRecords)
    && (cfg.maxBytes > 0 ==> |Payload(cfg.format, batch + [data])| <= cfg.maxBytes)
  }

  /** Records grouped greedily: a record goes into the open batch if that is not empty and it fits. */
  datatype Groups = Groups(done: seq<seq<Stream>>, open: seq<Stream>)

  function Close(g: Groups): Groups {
    if g.open == [] then g else Groups(g.done + [g.open], [])
  }

  function Group(cfg: Config, ops: seq<Op>): Groups {
    if ops == [] then Groups([], [])
    else
      var g := Group(cfg, ops[..|ops| - 1]);
      match ops[|ops| - 1]
      case Write(data) =>
        if g.open != [] && !Fits(cfg, g.open, data) then Groups(Close(g).done, [data]) else g.(open := g.open + [data])
      case FlushBuffer => Close(g)
  }

  function Written(ops: seq<Op>): seq<Stream> {
    if ops == [] then []
    else
      var op := ops[|ops| - 1];
      Written(ops[..|ops| - 1]) + if op.Write? then [op.data] else []
  }

  function Concat(batches: seq<seq<Stream>>): seq<Stream> {
    if batches == [] then [] else Concat(batches[..|batches| - 1]) + batches[|batches| - 1]
  }

  // The counters are exact

  function Sum(batch: seq<Stream>): nat {
    if batch == [] then 0 else Sum(batch[..|batch| - 1]) + |batch[|batch| - 1]|
  }

  lemma {:induction false} FlattenLength(batch: seq<Stream>)
    ensures |Flatten(batch)| == Sum(batch)
  {
    if batch != [] {
      FlattenLength(batch[..|batch| - 1]);
    }
  }

  lemma {:induction false} JoinLength(batch: seq<Stream>)
    ensures |Join(batch)| == Sum(batch) + if batch == [] then 0 else |batch| - 1
  {
    if |batch| == 1 {
      assert batch[..0] == [];
    } else if batch != [] {
      JoinLength(batch[..|batch| - 1]);
    }
  }

  /** The open chunk contains the batch; for an array that is its text up to the closing bracket, counted exactly. */
  ghost predicate Contains(cfg: Config, c: Chunk, batch: seq<Stream>) {
    && c.numRecords == |batch| && Finalize(cfg, c).payload == Payload(cfg.format, batch)
    && c.numBytes == match cfg.format
                     case Datadog => 1 + Sum(batch) + |batch|
                     case Fluentd => Sum(batch)
  }

  /** The program's arithmetic decides by the true length. */
  lemma CanAppendIffFits(cfg: Config, c: Chunk, batch: seq<Stream>, data: Stream)
    requires Contains(cfg, c, batch) && batch != []
    ensures CanAppendData(cfg, c, |data|) <==> Fits(cfg, batch, data)
  {
    assert (batch + [data])[..|batch|] == batch;
    FlattenLength(batch + [data]);
    JoinLength(batch + [data]);
  }

  lemma WriteContains(cfg: Config, c: Chunk, batch: seq<Stream>, data: Stream)
    requires Contains(cfg, c, batch)
    ensures Contains(cfg, WriteRecord(cfg, c, data), batch + [data])
  {
    var more := batch + [data];
    assert more[..|batch|] == batch;
    if cfg.format.Datadog? {
      var body := [OPEN_BRACKET] + Join(batch);
      assert c.payload + [CLOSE_BRACKET] == body + [CLOSE_BRACKET];
      assert c.payload == (c.payload + [CLOSE_BRACKET])[..|c.payload|];
      assert c.payload == body;
      if batch == [] {
        assert more == [data] && c.payload + [] + data == [OPEN_BRACKET] + Join(more);
      } else {
        assert c.payload + [COMMA] + data == [OPEN_BRACKET] + Join(more);
      }
    } else {
      assert c.payload + [] == c.payload;
    }
  }

  lemma NewContains(cfg: Config, number: nat)
    ensures Contains(cfg, NewChunk(cfg, number), [])
  {
  }

  // Refinement

  ghost predicate Matches(cfg: Config, p: Packer, g: Groups) {
    && |p.accepted| == |g.done|
    && (forall i | 0 <= i < |g.done| ::
          && p.accepted[i].payload == Payload(cfg.format, g.done[i]) && p.accepted[i].numRecords == |g.done[i]|
          && p.accepted[i].number == i)
    && (if p.current.None? then g.open == [] else g.open != [] && Contains(cfg, p.current.value, g.open))
    && p.made == |g.done| + (if p.current.None? then 0 else 1)
    && (p.current.Some? ==> p.current.value.number == |g.done|)
  }

  lemma FlushMatches(cfg: Config, p: Packer, g: Groups)
    requires Matches(cfg, p, g)
    ensures Matches(cfg, Flush(cfg, p), Close(g))
  {
  }

  lemma WriteMatches(cfg: Config, p: Packer, g: Groups, data: Stream)
    requires Matches(cfg, p, g)
    ensures Matches(cfg, WriteStream(cfg, p, data),
                    if g.open != [] && !Fits(cfg, g.open, data) then Groups(Close(g).done, [data])
                    else g.(open := g.open + [data]))
  {
    if p.current.Some? {
      CanAppendIffFits(cfg, p.current.value, g.open, data);
      WriteContains(cfg, p.current.value, g.open, data);
    }
    FlushMatches(cfg, p, g);
    NewContains(cfg, |Close(g).done|);
    WriteContains(cfg, NewChunk(cfg, |Close(g).done|), [], data);
    assert [] + [data] == [data];
  }

  /** The chunks are the greedy groups of the records, each with its full payload, numbered in order. */
  lemma {:induction false} PacksGreedily(cfg: Config, ops: seq<Op>)
    ensures Matches(cfg, Run(cfg, ops), Group(cfg, ops))
  {
    if ops == [] {
    } else {
      var before, op := ops[..|ops| - 1], ops[|ops| - 1];
      PacksGreedily(cfg, before);
      match op
      case Write(data) => WriteMatches(cfg, Run(cfg, before), Group(cfg, before), data);
      case FlushBuffer => FlushMatches(cfg, Run(cfg, before), Group(cfg, before));
    }
  }

  // Properties of greedy groups

  /** Nothing is lost, doubled or reordered. */
  lemma {:induction false} GroupsKeepAll(cfg: Config, ops: seq<Op>)
    ensures Concat(Group(cfg, ops).done) + Group(cfg, ops).open == Written(ops)
  {
    if ops == [] {
    } else {
      var before, op := ops[..|ops| - 1], ops[|ops| - 1];
      var g := Group(cfg, before);
      GroupsKeepAll(cfg, before);
      assert Written(before) + [] == Written(before);
      assert (g.done + [g.open])[..|g.done|] == g.done;
      if op.Write? {
        Regroup(Concat(g.done), g.open, [op.data]);
      }
    }
  }

  /** No batch is empty, none has too many records, and only a single record can make it too long. */
  ghost predicate WithinLimits(cfg: Config, batch: seq<Stream>) {
    && batch != []
    && (cfg.maxRecords > 0 ==> |batch| <= cfg.maxRecords)
    && (cfg.maxBytes > 0 && |batch| >= 2 ==> |Payload(cfg.format, batch)| <= cfg.maxBytes)
  }

  lemma {:induction false} GroupsWithinLimits(cfg: Config, ops: seq<Op>)
    ensures forall i | 0 <= i < |Group(cfg, ops).done| :: WithinLimits(cfg, Group(cfg, ops).done[i])
    ensures Group(cfg, ops).open != [] ==> WithinLimits(cfg, Group(cfg, ops).open)
  {
    if ops == [] {
    } else {
      GroupsWithinLimits(cfg, ops[..|ops| - 1]);
    }
  }

  /** The chunks of a packer that has been flushed at the end hold exactly the records, in order and within limits. */
  lemma ChunksHoldAllRecords(cfg: Config, ops: seq<Op>) returns (batches: seq<seq<Stream>>)
    ensures var p := Run(cfg, ops + [FlushBuffer]);
            && p.current.None? && |p.accepted| == |batches| && Concat(batches) == Written(ops)
            && forall i | 0 <= i < |batches| ::
                 && p.accepted[i].payload == Payload(cfg.format, batches[i])
                 && p.accepted[i].numRecords == |batches[i]| && p.accepted[i].number == i
                 && WithinLimits(cfg, batches[i])
  {
    var all := ops + [FlushBuffer];
    assert all[..|ops|] == ops;
    PacksGreedily(cfg, all);
    GroupsKeepAll(cfg, all);
    GroupsWithinLimits(cfg, all);
    batches := Group(cfg, all).done;
    assert Written(ops) + [] == Written(ops);
    assert Concat(batches) + [] == Concat(batches);
  }
}
