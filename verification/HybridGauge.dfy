/** The gauge of persistent bytes: never below what is tracked on disk, never above its limit. */
module HybridGauge {
  import opened Bytes
  import opened ChunkIds
  import opened Options
  import opened ChunkStore
  import opened HybridBuffer
  import opened HybridSafety
  import opened HybridFiles

  function SavedInHand(h: Option<LogChunk>, contents: Files): nat {
    if h.Some? then SavedSize(h.value, contents) else 0
  }

  /** The size of all saved chunks the buffer still knows of or has given back to disk. */
  function SavedTotal(s: State, contents: Files): nat {
    SavedBytes(s.unloading, contents) + SavedBytes(s.pushing, contents) + SavedBytes(s.input, contents)
    + SavedInHand(Hand(s.feeder), contents) + SavedBytes(s.output, contents) + SavedBytes(s.consumers, contents)
    + SavedBytes(s.past.kept, contents) + SavedBytes(s.past.returned, contents)
  }

  /** `more` bytes are in a chunk that is in none of the places at the moment. */
  ghost predicate Covers(s: State, more: nat) {
    s.store.disk.bytes + s.past.unstattedBytes >= SavedTotal(s, s.past.contents) + more
  }

  function Max(a: int, b: int): int {
    if a < b then b else a
  }

  ghost predicate Limited(s: State) {
    && s.store.disk.bytes <= Max(s.store.disk.maxTotalBytes, s.past.recoveredBytes)
    && (s.feeder.Recovering? ==> s.store.disk.bytes == s.past.recoveredBytes)
  }

  // One operation

  lemma UnloadMeasured(d: Disk, c: LogChunk, write: Write, contents: Files)
    requires Faithful(c, contents, d.files)
    ensures var (d', r) := Unload(d, c, write);
            && d'.maxTotalBytes == d.maxTotalBytes && d.bytes <= d'.bytes <= Max(d.bytes, d.maxTotalBytes)
            && (r.Some? ==> d'.bytes - d.bytes == SavedSize(r.value, contents) - SavedSize(c, contents))
            && (r.None? ==> d'.bytes == d.bytes && !c.saved)
  {
  }

  lemma RemoveMeasured(d: Disk, c: LogChunk, unlinkFails: bool, contents: Files)
    requires Faithful(c, contents, d.files)
    ensures var d' := Remove(d, c, unlinkFails);
            d'.maxTotalBytes == d.maxTotalBytes && d.bytes - SavedSize(c, contents) <= d'.bytes <= d.bytes
  {
  }

  lemma ForgetMeasured(d: Disk, c: LogChunk, contents: Files)
    requires Faithful(c, contents, d.files)
    ensures var d' := Forget(d, c);
            d'.maxTotalBytes == d.maxTotalBytes && d.bytes - SavedSize(c, contents) <= d'.bytes <= d.bytes
  {
  }

  lemma FirstMeasured(q: seq<LogChunk>, contents: Files)
    requires q != []
    ensures SavedBytes(q, contents) == SavedSize(q[0], contents) + SavedBytes(q[1..], contents)
  {
  }

  lemma LastMeasured(q: seq<LogChunk>, c: LogChunk, contents: Files)
    ensures SavedBytes(q + [c], contents) == SavedBytes(q, contents) + SavedSize(c, contents)
  {
    SavedBytesAppends(q, [c], contents);
  }

  lemma {:induction false} StillMeasured(q: seq<LogChunk>, contents: Files, files: Files, id: ID, data: seq<byte>)
    requires AllFaithful(q, contents, files) && id !in contents
    ensures SavedBytes(q, contents[id := data]) == SavedBytes(q, contents)
  {
    if q != [] {
      TailFaithful(q, contents, files);
      StillMeasured(q[1..], contents, files, id, data);
    }
  }

  // Steps

  lemma SaveCovers(s: State, c: LogChunk, write: Write)
    requires Faithful(c, s.past.contents, s.store.disk.files) && Covers(s, SavedSize(c, s.past.contents))
    ensures Covers(Save(s, c, write), 0)
  {
    UnloadMeasured(s.store.disk, c, write, s.past.contents);
    var (disk, r) := Unload(s.store.disk, c, write);
    if r.Some? {
      LastMeasured(s.past.kept, r.value, s.past.contents);
    } else {
      assert Save(s, c, write).store.disk.bytes == s.store.disk.bytes;
    }
  }

  lemma SaveLimited(s: State, c: LogChunk, write: Write)
    requires Limited(s) && Faithful(c, s.past.contents, s.store.disk.files) && !s.feeder.Recovering?
    ensures Limited(Save(s, c, write))
  {
  }

  lemma BeginAcceptCovers(s: State, c: LogChunk)
    requires Covers(s, 0) && PlacesFaithful(s) && c.id !in s.past.contents && !c.saved
    ensures Covers(BeginAccept(s, c), 0)
  {
    var contents, files := s.past.contents, s.store.disk.files;
    var data := if c.data.Some? then c.data.value else [];
    StillMeasured(s.unloading, contents, files, c.id, data);
    StillMeasured(s.pushing, contents, files, c.id, data);
    StillMeasured(s.input, contents, files, c.id, data);
    StillMeasured(s.output, contents, files, c.id, data);
    StillMeasured(s.consumers, contents, files, c.id, data);
    StillMeasured(s.past.kept, contents, files, c.id, data);
    StillMeasured(s.past.returned, contents, files, c.id, data);
    LastMeasured(s.unloading, c, contents[c.id := data]);
    LastMeasured(s.pushing, c, contents[c.id := data]);
  }

  lemma UnloadAcceptedCovers(s: State, i: nat, write: Write)
    requires Covers(s, 0) && PlacesFaithful(s) && i < |s.unloading|
    ensures Covers(UnloadAccepted(s, i, write), 0)
  {
    var contents, c := s.past.contents, s.unloading[i];
    assert Faithful(c, contents, s.store.disk.files);
    SavedBytesWithout(s.unloading, i, contents);
    UnloadMeasured(s.store.disk, c, write, contents);
    var (disk, r) := Unload(s.store.disk, c, write);
    if r.Some? {
      LastMeasured(s.pushing, r.value, contents);
    } else {
      assert UnloadAccepted(s, i, write).store.disk.bytes == s.store.disk.bytes;
    }
  }

  lemma PushAcceptedCovers(s: State, i: nat)
    requires Covers(s, 0) && PlacesFaithful(s) && i < |s.pushing|
    ensures Covers(PushAccepted(s, i), 0)
  {
    var contents, c := s.past.contents, s.pushing[i];
    assert Faithful(c, contents, s.store.disk.files);
    SavedBytesWithout(s.pushing, i, contents);
    if |s.input| < MAX_NUM_CHUNKS_IN_QUEUE {
      LastMeasured(s.input, c, contents);
    } else {
      ForgetMeasured(s.store.disk, c, contents);
    }
  }

  lemma AcceptKeepsCover(s: State, step: AcceptStep)
    requires Covers(s, 0) && PlacesFaithful(s) && AcceptEnabled(s, step)
    ensures Covers(ApplyAccept(s, step), 0)
  {
    if step.Accept? {
      BeginAcceptCovers(s, step.chunk);
    } else if step.AcceptUnload? {
      UnloadAcceptedCovers(s, step.i, step.write);
    } else if step.AcceptPush? {
      PushAcceptedCovers(s, step.i);
    } else {
    }
  }

  lemma AcceptKeepsLimit(s: State, step: AcceptStep)
    requires Limited(s) && PlacesFaithful(s) && Phased(s) && AcceptEnabled(s, step)
    ensures Limited(ApplyAccept(s, step))
  {
  }

  lemma SavesCover(s: State, step: FeedStep)
    requires Covers(s, 0) && PlacesFaithful(s) && FeedEnabled(s, step)
    requires step.SaveInput? || step.SaveOutput? || (step.SaveLast? && s.feeder.last.Some?)
    ensures Covers(ApplyFeed(s, step), 0)
  {
    var contents, files := s.past.contents, s.store.disk.files;
    if step.SaveInput? {
      TailFaithful(s.input, contents, files);
      FirstMeasured(s.input, contents);
      SaveCovers(s.(input := s.input[1..]), s.input[0], step.write);
    } else if step.SaveOutput? {
      TailFaithful(s.output, contents, files);
      FirstMeasured(s.output, contents);
      SaveCovers(s.(output := s.output[1..]), s.output[0], step.write);
    } else {
      SaveCovers(s.(feeder := SavingOutput), s.feeder.last.value, step.write);
    }
  }

  lemma RecoverOneMeasured(s: State, statFails: bool)
    requires Covers(s, 0) && Limited(s) && NamesFresh(s) && FeedEnabled(s, RecoverNext(statFails))
    ensures Covers(RecoverOne(s, statFails), 0) && Limited(RecoverOne(s, statFails))
  {
    var c := LogChunk(s.feeder.names[0], None, true);
    assert s.feeder.names[0] in s.store.disk.files;
    LastMeasured(s.input, c, s.past.contents);
  }

  lemma LoadingCovers(s: State, step: FeedStep)
    requires Covers(s, 0) && PlacesFaithful(s) && FeedEnabled(s, step) && (step.LoadFails? || step.LoadEmpty?)
    ensures Covers(ApplyFeed(s, step), 0)
  {
  }

  lemma FeedKeepsCover(s: State, step: FeedStep)
    requires Covers(s, 0) && Limited(s) && PlacesFaithful(s) && NamesFresh(s) && FeedEnabled(s, step)
    ensures Covers(ApplyFeed(s, step), 0)
  {
    if step.SaveInput? || step.SaveOutput? {
      SavesCover(s, step);
    } else if step.SaveLast? {
      if s.feeder.last.Some? {
        SavesCover(s, step);
      }
    } else if step.RecoverNext? {
      RecoverOneMeasured(s, step.statFails);
    } else if step.LoadFails? || step.LoadEmpty? {
      LoadingCovers(s, step);
    } else if step.Receive? {
      FirstMeasured(s.input, s.past.contents);
    } else if step.Push? {
      LastMeasured(s.output, s.feeder.loaded, s.past.contents);
    } else if step.LoadSucceeds? {
      LoadFaithful(s.store.disk, s.feeder.chunk, false, s.past.contents);
    } else {
    }
  }

  lemma SavesLimited(s: State, step: FeedStep)
    requires Limited(s) && PlacesFaithful(s) && FeedEnabled(s, step)
    requires step.SaveInput? || step.SaveOutput? || step.SaveLast?
    ensures Limited(ApplyFeed(s, step))
  {
    var contents, files := s.past.contents, s.store.disk.files;
    if step.SaveInput? {
      TailFaithful(s.input, contents, files);
      SaveLimited(s.(input := s.input[1..]), s.input[0], step.write);
    } else if step.SaveOutput? {
      TailFaithful(s.output, contents, files);
      SaveLimited(s.(output := s.output[1..]), s.output[0], step.write);
    } else if s.feeder.last.Some? {
      SaveLimited(s.(feeder := SavingOutput), s.feeder.last.value, step.write);
    }
  }

  lemma FeedKeepsLimit(s: State, step: FeedStep)
    requires Covers(s, 0) && Limited(s) && PlacesFaithful(s) && NamesFresh(s) && FeedEnabled(s, step)
    ensures Limited(ApplyFeed(s, step))
  {
    if step.SaveInput? || step.SaveOutput? || step.SaveLast? {
      SavesLimited(s, step);
    } else if step.RecoverNext? {
      RecoverOneMeasured(s, step.statFails);
    } else if step.LoadFails? {
      ForgetMeasured(s.store.disk, s.feeder.chunk, s.past.contents);
    } else if step.LoadEmpty? {
      LoadFaithful(s.store.disk, s.feeder.chunk, false, s.past.contents);
      RemoveMeasured(s.store.disk, Load(s.store.disk, s.feeder.chunk, false).value, step.unlinkFails, s.past.contents);
    } else {
    }
  }

  lemma TakeBackCovers(s: State, i: nat, write: Write)
    requires Covers(s, 0) && PlacesFaithful(s) && i < |s.consumers|
    ensures Covers(TakeBack(s, i, write), 0)
  {
    var contents, c := s.past.contents, s.consumers[i];
    assert Faithful(c, contents, s.store.disk.files);
    SavedBytesWithout(s.consumers, i, contents);
    UnloadMeasured(s.store.disk, c, write, contents);
    var r := Unload(s.store.disk, c, write).1;
    if r.Some? {
      LastMeasured(s.past.returned, r.value, contents);
    }
  }

  lemma ConsumeKeepsCover(s: State, step: ConsumeStep)
    requires Covers(s, 0) && PlacesFaithful(s) && ConsumeEnabled(s, step)
    ensures Covers(ApplyConsume(s, step), 0)
  {
    var contents := s.past.contents;
    if step.Take? {
      FirstMeasured(s.output, contents);
      LastMeasured(s.consumers, s.output[0], contents);
    } else if step.Confirm? {
      assert Faithful(s.consumers[step.i], contents, s.store.disk.files);
      SavedBytesWithout(s.consumers, step.i, contents);
      RemoveMeasured(s.store.disk, s.consumers[step.i], step.unlinkFails, contents);
    } else {
      TakeBackCovers(s, step.i, step.write);
    }
  }

  lemma ConsumeKeepsLimit(s: State, step: ConsumeStep)
    requires Limited(s) && PlacesFaithful(s) && Phased(s) && ConsumeEnabled(s, step)
    ensures Limited(ApplyConsume(s, step))
  {
  }
}
