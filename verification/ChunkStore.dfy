/**
 Chunks in memory and on disk: buffer/hybridbuffer/chunkoperator.go and chunkmanager.go. The queue directory is a map
 from file names to contents; what the file system answers is a parameter of each operation.
 */
module ChunkStore {
  import opened Bytes
  import opened Options

  type ID = seq<byte>

  /** No data means unloaded; it can be empty when loaded. */
  datatype LogChunk = LogChunk(id: ID, data: Option<seq<byte>>, saved: bool)

  function Size(c: LogChunk): nat {
    if c.data.Some? then |c.data.value| else 0
  }

  /** A failed write may leave the file as it was or anything in its place. */
  datatype Write = Writes | WriteFails(remains: Option<seq<byte>>)

  /** The directory with the two gauges of persistent chunks. */
  datatype Disk = Disk(hasDir: bool, maxTotalBytes: int, files: map<ID, seq<byte>>, chunks: int, bytes: int)

  /** The counters of chunkManager. */
  datatype Ledger = Ledger(inputs: nat, consumed: nat, leftover: nat, dropped: nat, pending: int)

  datatype Store = Store(disk: Disk, ledger: Ledger)

  // One chunk and the directory

  function Load(d: Disk, c: LogChunk, readFails: bool): Option<LogChunk> {
    if c.data.Some? then Some(c)
    else if !c.saved || !d.hasDir || readFails || c.id !in d.files then None
    else Some(c.(data := Some(d.files[c.id])))
  }

  function Unload(d: Disk, c: LogChunk, write: Write): (Disk, Option<LogChunk>) {
    if c.saved then (d, Some(c))
    else if c.data.None? || !d.hasDir || d.bytes + Size(c) > d.maxTotalBytes then (d, None)
    else
      match write
      case WriteFails(None) => (d, None)
      case WriteFails(Some(b)) => (d.(files := d.files[c.id := b]), None)
      case Writes =>
        (d.(files := d.files[c.id := c.data.value], chunks := d.chunks + 1, bytes := d.bytes + Size(c)),
         Some(LogChunk(c.id, None, true)))
  }

  function Remove(d: Disk, c: LogChunk, unlinkFails: bool): Disk {
    if !c.saved || !d.hasDir || unlinkFails || c.id !in d.files then d
    else d.(files := d.files - {c.id}, chunks := d.chunks - 1, bytes := d.bytes - Size(c))
  }

  function Forget(d: Disk, c: LogChunk): Disk {
    if c.saved then d.(chunks := d.chunks - 1, bytes := d.bytes - Size(c)) else d
  }

  function Recover(d: Disk, c: LogChunk, statFails: bool): Disk {
    if !d.hasDir || statFails || c.id !in d.files then d.(chunks := d.chunks + 1)
    else d.(chunks := d.chunks + 1, bytes := d.bytes + |d.files[c.id]|)
  }

  // The ledger

  function Begin(l: Ledger): Ledger {
    l.(inputs := l.inputs + 1, pending := l.pending + 1)
  }

  function Consume(s: Store, c: LogChunk, unlinkFails: bool): Store {
    Store(Remove(s.disk, c, unlinkFails), s.ledger.(consumed := s.ledger.consumed + 1, pending := s.ledger.pending - 1))
  }

  function Drop(s: Store, c: LogChunk): Store {
    Store(Forget(s.disk, c), s.ledger.(dropped := s.ledger.dropped + 1, pending := s.ledger.pending - 1))
  }

  function Discard(s: Store, c: LogChunk, unlinkFails: bool): Store {
    Store(Remove(s.disk, c, unlinkFails), s.ledger.(dropped := s.ledger.dropped + 1, pending := s.ledger.pending - 1))
  }

  /** Whether a chunk left by a consumer could be saved is not looked at. */
  function Leave(s: Store, c: LogChunk, write: Write): Store {
    Store(Unload(s.disk, c, write).0, s.ledger.(leftover := s.ledger.leftover + 1, pending := s.ledger.pending - 1))
  }

  function LoadOrDrop(s: Store, c: LogChunk, readFails: bool): (Store, Option<LogChunk>) {
    var loaded := Load(s.disk, c, readFails);
    if loaded.None? then (Drop(s, c), None) else (s, loaded)
  }

  function UnloadOrDrop(s: Store, c: LogChunk, write: Write): (Store, Option<LogChunk>) {
    var (disk, unloaded) := Unload(s.disk, c, write);
    if unloaded.None? then (Drop(s.(disk := disk), c), None) else (s.(disk := disk), unloaded)
  }

  // The objects

  /** A variable of the caller holding a chunk. */
  class ChunkRef {
    var id: ID
    var data: Option<seq<byte>>
    var saved: bool

    constructor (c: LogChunk)
      ensures Value() == c
    {
      id, data, saved := c.id, c.data, c.saved;
    }

    function Value(): LogChunk
      reads this
    {
      LogChunk(id, data, saved)
    }
  }

  class ChunkOperator {
    const hasDir: bool
    const maxTotalBytes: int
    var files: map<ID, seq<byte>>
    var persistentChunks: int
    var persistentChunkBytes: int

    constructor (hasDir: bool, maxTotalBytes: int, files: map<ID, seq<byte>>)
      ensures Value() == Disk(hasDir, maxTotalBytes, files, 0, 0)
    {
      this.hasDir, this.maxTotalBytes, this.files := hasDir, maxTotalBytes, files;
      persistentChunks, persistentChunkBytes := 0, 0;
    }

    function Value(): Disk
      reads this
    {
      Disk(hasDir, maxTotalBytes, files, persistentChunks, persistentChunkBytes)
    }

    method LoadChunk(chunkRef: ChunkRef, readFails: bool) returns (ok: bool)
      modifies chunkRef
      ensures ok == Load(Value(), old(chunkRef.Value()), readFails).Some?
      ensures chunkRef.Value() ==
              if ok then Load(Value(), old(chunkRef.Value()), readFails).value else old(chunkRef.Value())
    {
      if chunkRef.data.Some? {
        return true;
      }
      if !chunkRef.saved {
        return false;
      }
      if !hasDir {
        return false;
      }
      if readFails || chunkRef.id !in files {
        return false;
      }
      chunkRef.data := Some(files[chunkRef.id]);
      return true;
    }

    method UnloadChunk(chunkRef: ChunkRef, write: Write) returns (ok: bool)
      modifies this, chunkRef
      ensures Value() == Unload(old(Value()), old(chunkRef.Value()), write).0
      ensures ok == Unload(old(Value()), old(chunkRef.Value()), write).1.Some?
      ensures chunkRef.Value() ==
              if ok then Unload(old(Value()), old(chunkRef.Value()), write).1.value else old(chunkRef.Value())
    {
      if chunkRef.saved {
        return true;
      }
      if chunkRef.data.None? {
        return false;
      }
      if !hasDir {
        return false;
      }
      if persistentChunkBytes + |chunkRef.data.value| > maxTotalBytes {
        return false;
      }
      if write.WriteFails? {
        if write.remains.Some? {
          files := files[chunkRef.id := write.remains.value];
        }
        return false;
      }
      files := files[chunkRef.id := chunkRef.data.value];
      persistentChunks := persistentChunks + 1;
      persistentChunkBytes := persistentChunkBytes + |chunkRef.data.value|;
      chunkRef.data := None;
      chunkRef.saved := true;
      return true;
    }

    method RemoveChunk(chunk: LogChunk, unlinkFails: bool)
      modifies this
      ensures Value() == Remove(old(Value()), chunk, unlinkFails)
    {
      if !chunk.saved {
        return;
      }
      if !hasDir {
        return;
      }
      if unlinkFails || chunk.id !in files {
        return;
      }
      files := files - {chunk.id};
      persistentChunks := persistentChunks - 1;
      persistentChunkBytes := persistentChunkBytes - Size(chunk);
    }

    method OnChunkDropped(chunk: LogChunk)
      modifies this
      ensures Value() == Forget(old(Value()), chunk)
    {
      if !chunk.saved {
        return;
      }
      persistentChunks := persistentChunks - 1;
      persistentChunkBytes := persistentChunkBytes - Size(chunk);
    }

    method OnChunkRecovered(chunk: LogChunk, statFails: bool)
      modifies this
      ensures Value() == Recover(old(Value()), chunk, statFails)
    {
      persistentChunks := persistentChunks + 1;
      if !hasDir {
        return;
      }
      if statFails || chunk.id !in files {
        return;
      }
      persistentChunkBytes := persistentChunkBytes + |files[chunk.id]|;
    }
  }

  class ChunkManager {
    const operator: ChunkOperator
    var pendingChunks: int
    var inputChunksTotal: nat
    var consumedChunksTotal: nat
    var leftoverChunksTotal: nat
    var droppedChunksTotal: nat

    constructor (operator: ChunkOperator)
      ensures Value() == Store(operator.Value(), Ledger(0, 0, 0, 0, 0)) && this.operator == operator
    {
      this.operator := operator;
      pendingChunks, inputChunksTotal, consumedChunksTotal, leftoverChunksTotal, droppedChunksTotal := 0, 0, 0, 0, 0;
    }

    function Value(): Store
      reads this, operator
    {
      Store(operator.Value(),
            Ledger(inputChunksTotal, consumedChunksTotal, leftoverChunksTotal, droppedChunksTotal, pendingChunks))
    }

    method LoadOrDropChunk(chunkRef: ChunkRef, readFails: bool) returns (ok: bool)
      modifies this, operator, chunkRef
      ensures Value() == LoadOrDrop(old(Value()), old(chunkRef.Value()), readFails).0
      ensures ok == LoadOrDrop(old(Value()), old(chunkRef.Value()), readFails).1.Some?
      ensures ok ==> chunkRef.Value() == LoadOrDrop(old(Value()), old(chunkRef.Value()), readFails).1.value
    {
      ok := operator.LoadChunk(chunkRef, readFails);
      if !ok {
        OnChunkDropped(chunkRef.Value());
      }
    }

    method UnloadOrDropChunk(chunkRef: ChunkRef, write: Write) returns (ok: bool)
      modifies this, operator, chunkRef
      ensures Value() == UnloadOrDrop(old(Value()), old(chunkRef.Value()), write).0
      ensures ok == UnloadOrDrop(old(Value()), old(chunkRef.Value()), write).1.Some?
      ensures ok ==> chunkRef.Value() == UnloadOrDrop(old(Value()), old(chunkRef.Value()), write).1.value
    {
      ok := operator.UnloadChunk(chunkRef, write);
      if !ok {
        OnChunkDropped(chunkRef.Value());
      }
    }

    method OnChunkInput()
      modifies this
      ensures Value() == old(Value()).(ledger := Begin(old(Value()).ledger))
    {
      pendingChunks := pendingChunks + 1;
      inputChunksTotal := inputChunksTotal + 1;
    }

    method OnChunkInputRecovered(chunk: LogChunk, statFails: bool)
      modifies this, operator
      ensures Value() == Store(Recover(old(Value()).disk, chunk, statFails), Begin(old(Value()).ledger))
    {
      pendingChunks := pendingChunks + 1;
      inputChunksTotal := inputChunksTotal + 1;
      operator.OnChunkRecovered(chunk, statFails);
    }

    method OnChunkConsumed(chunk: LogChunk, unlinkFails: bool)
      modifies this, operator
      ensures Value() == Consume(old(Value()), chunk, unlinkFails)
    {
      operator.RemoveChunk(chunk, unlinkFails);
      pendingChunks := pendingChunks - 1;
      consumedChunksTotal := consumedChunksTotal + 1;
    }

    method OnChunkLeftover(chunk: LogChunk, write: Write)
      modifies this, operator
      ensures Value() == Leave(old(Value()), chunk, write)
    {
      var chunkRef := new ChunkRef(chunk);
      var _ := operator.UnloadChunk(chunkRef, write);
      pendingChunks := pendingChunks - 1;
      leftoverChunksTotal := leftoverChunksTotal + 1;
    }

    method OnChunkCorrupted(chunk: LogChunk, unlinkFails: bool)
      modifies this, operator
      ensures Value() == Discard(old(Value()), chunk, unlinkFails)
    {
      operator.RemoveChunk(chunk, unlinkFails);
      pendingChunks := pendingChunks - 1;
      droppedChunksTotal := droppedChunksTotal + 1;
    }

    method OnChunkDropped(chunk: LogChunk)
      modifies this, operator
      ensures Value() == Drop(old(Value()), chunk)
    {
      operator.OnChunkDropped(chunk);
      pendingChunks := pendingChunks - 1;
      droppedChunksTotal := droppedChunksTotal + 1;
    }
  }
}
