/** Chunks keep their bytes however often they are unloaded and loaded, and the byte gauge stays in its bounds. */
module HybridFiles {
  import opened Bytes
  import opened ChunkIds
  import opened Options
  import opened ChunkStore
  import opened HybridBuffer
  import opened HybridSafety

  type Files = map<ID, seq<byte>>

  // IDs

  /** IDs are not used twice. */
  ghost predicate BegunOnce(s: State) {
    forall id: ID :: s.past.begun[id] <= 1 && (id in s.past.begun ==> id in s.past.contents && id != [])
  }

  /** Files not queued yet are as they were at start. */
  ghost predicate NamesFresh(s: State) {
    s.feeder.Recovering? ==>
      && Ascending(s.feeder.names)
      && (s.feeder.names != [] ==> s.store.disk.hasDir)
      && forall i | 0 <= i < |s.feeder.names| ::
           var name := s.feeder.names[i];
           && name in s.past.contents && name != [] && name !in s.past.begun
           && name in s.store.disk.files && s.store.disk.files[name] == s.past.contents[name]
  }

  lemma TailAscends(names: seq<ID>)
    requires Ascending(names) && names != []
    ensures Ascending(names[1..])
    ensures forall i | 0 <= i < |names[1..]| :: names[1..][i] != names[0] && names[1..][i] == names[i + 1]
  {
    forall i | 0 <= i < |names[1..]| ensures names[1..][i] != names[0] {
      AscendingPairs(names, 0, i + 1);
      LessIrreflexive(names[0]);
    }
  }

  lemma RecoverOneKeepsIds(s: State, statFails: bool)
    requires BegunOnce(s) && NamesFresh(s) && FeedEnabled(s, RecoverNext(statFails))
    ensures BegunOnce(RecoverOne(s, statFails)) && NamesFresh(RecoverOne(s, statFails))
  {
    TailAscends(s.feeder.names);
    assert s.feeder.names[0] !in s.past.begun;
  }

  lemma AcceptKeepsIds(s: State, step: AcceptStep)
    requires BegunOnce(s) && NamesFresh(s) && Phased(s) && AcceptEnabled(s, step)
    ensures BegunOnce(ApplyAccept(s, step)) && NamesFresh(ApplyAccept(s, step))
  {
  }

  /** What chunks there are, and what they contain, is settled before the feeder sees them. */
  lemma SaveKeepsKnown(s: State, c: LogChunk, write: Write)
    ensures var s' := Save(s, c, write);
            && s'.past.begun == s.past.begun && s'.past.contents == s.past.contents
            && s'.past.arrived == s.past.arrived
            && s'.unloading == s.unloading && s'.pushing == s.pushing && s'.feeder == s.feeder
  {
  }

  lemma FeedKeepsKnown(s: State, step: FeedStep)
    requires FeedEnabled(s, step) && !step.RecoverNext?
    ensures var s' := ApplyFeed(s, step);
            && s'.past.begun == s.past.begun && s'.past.contents == s.past.contents
            && s'.past.arrived == s.past.arrived
            && s'.unloading == s.unloading && s'.pushing == s.pushing && !s'.feeder.Recovering?
  {
    if step.SaveInput? {
      SaveKeepsKnown(s.(input := s.input[1..]), s.input[0], step.write);
    } else if step.SaveOutput? {
      SaveKeepsKnown(s.(output := s.output[1..]), s.output[0], step.write);
    } else if step.SaveLast? {
      if s.feeder.last.Some? {
        SaveKeepsKnown(s.(feeder := SavingOutput), s.feeder.last.value, step.write);
      }
    } else if step.LoadFails? || step.LoadEmpty? {
    } else {
    }
  }

  lemma FeedKeepsIds(s: State, step: FeedStep)
    requires BegunOnce(s) && NamesFresh(s) && FeedEnabled(s, step)
    ensures BegunOnce(ApplyFeed(s, step)) && NamesFresh(ApplyFeed(s, step))
  {
    if step.RecoverNext? {
      RecoverOneKeepsIds(s, step.statFails);
    } else {
      FeedKeepsKnown(s, step);
    }
  }

  lemma ConsumeKeepsIds(s: State, step: ConsumeStep)
    requires BegunOnce(s) && Phased(s) && ConsumeEnabled(s, step)
    ensures BegunOnce(ApplyConsume(s, step)) && NamesFresh(ApplyConsume(s, step))
  {
  }

  // Contents

  /** The chunk carries what was accepted under its ID, in memory or in its file; it has a file only if it is saved. */
  ghost predicate Faithful(c: LogChunk, contents: Files, files: Files) {
    && c.id in contents
    && (c.data.Some? ==> c.data.value == contents[c.id])
    && (if c.saved then c.id in files && files[c.id] == contents[c.id] else c.id !in files)
  }

  ghost predicate AllFaithful(q: seq<LogChunk>, contents: Files, files: Files) {
    forall i | 0 <= i < |q| :: Faithful(q[i], contents, files)
  }

  /** Only chunks that were recovered or accepted have files. */
  ghost predicate FilesKnown(s: State) {
    forall id | id in s.store.disk.files :: id in s.past.contents
  }

  lemma SaveKeepsFilesKnown(s: State, c: LogChunk, write: Write)
    requires FilesKnown(s) && c.id in s.past.contents
    ensures FilesKnown(Save(s, c, write))
  {
  }

  lemma AcceptKeepsFilesKnown(s: State, step: AcceptStep)
    requires FilesKnown(s) && PlacesFaithful(s) && AcceptEnabled(s, step)
    ensures FilesKnown(ApplyAccept(s, step))
  {
    if step.AcceptUnload? {
      assert Faithful(s.unloading[step.i], s.past.contents, s.store.disk.files);
    }
  }

  lemma FeedKeepsFilesKnown(s: State, step: FeedStep)
    requires FilesKnown(s) && PlacesFaithful(s) && FeedEnabled(s, step)
    ensures FilesKnown(ApplyFeed(s, step))
  {
    if step.SaveInput? {
      assert Faithful(s.input[0], s.past.contents, s.store.disk.files);
      SaveKeepsFilesKnown(s.(input := s.input[1..]), s.input[0], step.write);
    } else if step.SaveOutput? {
      assert Faithful(s.output[0], s.past.contents, s.store.disk.files);
      SaveKeepsFilesKnown(s.(output := s.output[1..]), s.output[0], step.write);
    } else if step.SaveLast? {
      if s.feeder.last.Some? {
        SaveKeepsFilesKnown(s.(feeder := SavingOutput), s.feeder.last.value, step.write);
      }
    } else if step.RecoverNext? || step.LoadFails? || step.LoadEmpty? {
    } else {
    }
  }

  lemma ConsumeKeepsFilesKnown(s: State, step: ConsumeStep)
    requires FilesKnown(s) && PlacesFaithful(s) && ConsumeEnabled(s, step)
    ensures FilesKnown(ApplyConsume(s, step))
  {
    if step.Take? {
    } else {
      assert Faithful(s.consumers[step.i], s.past.contents, s.store.disk.files);
    }
  }

  /** Chunks ready to be sent are loaded and not empty. */
  ghost predicate AllLoaded(q: seq<LogChunk>, contents: Files) {
    forall i | 0 <= i < |q| ::
      q[i].id in contents && q[i].data == Some(contents[q[i].id]) && |contents[q[i].id]| > 0
  }

  ghost predicate HandFaithful(f: Feeder, contents: Files, files: Files) {
    && (Hand(f).Some? ==> Faithful(Hand(f).value, contents, files))
    && (f.Pushing? ==>
          && f.received.id == f.loaded.id && Faithful(f.received, contents, files)
          && f.loaded.data.Some? && |f.loaded.data.value| > 0
          && f.received.saved == f.loaded.saved)
  }

  ghost predicate FaithfulIn(s: State, contents: Files, files: Files) {
    && AllFaithful(s.unloading, contents, files) && AllFaithful(s.pushing, contents, files)
    && AllFaithful(s.input, contents, files) && HandFaithful(s.feeder, contents, files)
    && AllFaithful(s.output, contents, files) && AllFaithful(s.consumers, contents, files)
    && AllFaithful(s.past.kept, contents, files) && AllFaithful(s.past.returned, contents, files)
  }

  ghost predicate PlacesFaithful(s: State) {
    FaithfulIn(s, s.past.contents, s.store.disk.files)
  }

  ghost predicate OutputsLoaded(s: State) {
    && AllLoaded(s.output, s.past.contents) && AllLoaded(s.past.delivered, s.past.contents)
    && (forall i | 0 <= i < |s.past.kept| :: s.past.kept[i].saved)
    && (forall i | 0 <= i < |s.past.returned| :: s.past.returned[i].saved)
  }

  /** The same files except for one name. */
  ghost predicate SameElsewhere(files: Files, files': Files, id: ID) {
    forall other: ID | other != id ::
      (other in files <==> other in files') && (other in files ==> files[other] == files'[other])
  }

  lemma FaithfulElsewhere(q: seq<LogChunk>, contents: Files, files: Files, files': Files, id: ID)
    requires AllFaithful(q, contents, files) && SameElsewhere(files, files', id) && Count(q, id) == 0
    ensures AllFaithful(q, contents, files')
  {
  }

  /** Changing a file of a chunk that is in none of the places harms no other chunk. */
  lemma PlacesElsewhere(s: State, contents: Files, files: Files, files': Files, id: ID)
    requires FaithfulIn(s, contents, files) && SameElsewhere(files, files', id) && Places(s, id) == 0
    ensures FaithfulIn(s, contents, files')
  {
    FaithfulElsewhere(s.unloading, contents, files, files', id);
    FaithfulElsewhere(s.pushing, contents, files, files', id);
    FaithfulElsewhere(s.input, contents, files, files', id);
    FaithfulElsewhere(s.output, contents, files, files', id);
    FaithfulElsewhere(s.consumers, contents, files, files', id);
    FaithfulElsewhere(s.past.kept, contents, files, files', id);
    FaithfulElsewhere(s.past.returned, contents, files, files', id);
  }

  lemma UnloadFaithful(d: Disk, c: LogChunk, write: Write, contents: Files)
    requires Faithful(c, contents, d.files)
    ensures var (d', r) := Unload(d, c, write);
            SameElsewhere(d.files, d'.files, c.id) && (r.Some? ==> Faithful(r.value, contents, d'.files) && r.value.saved)
  {
  }

  lemma LoadFaithful(d: Disk, c: LogChunk, readFails: bool, contents: Files)
    requires Faithful(c, contents, d.files)
    ensures var r := Load(d, c, readFails);
            r.Some? ==> Faithful(r.value, contents, d.files) && r.value.id == c.id && r.value.data.Some?
                        && r.value.saved == c.saved
  {
  }

  // Contents are kept

  lemma TailFaithful(q: seq<LogChunk>, contents: Files, files: Files)
    requires AllFaithful(q, contents, files) && q != []
    ensures AllFaithful(q[1..], contents, files) && Faithful(q[0], contents, files)
  {
  }

  lemma WithoutFaithful(q: seq<LogChunk>, i: nat, contents: Files, files: Files)
    requires AllFaithful(q, contents, files) && i < |q|
    ensures AllFaithful(Without(q, i), contents, files) && Faithful(q[i], contents, files)
  {
  }

  lemma AlsoFaithful(q: seq<LogChunk>, c: LogChunk, contents: Files, files: Files)
    requires AllFaithful(q, contents, files) && Faithful(c, contents, files)
    ensures AllFaithful(q + [c], contents, files)
  {
  }

  /** The invariant about IDs gives: a chunk that has just been taken out of its place is in no other. */
  ghost predicate Alone(s: State, c: LogChunk) {
    Places(s, c.id) == 0
  }

  lemma BeginAcceptFaithful(s: State, c: LogChunk)
    requires PlacesFaithful(s) && FilesKnown(s) && c.id !in s.past.contents && !c.saved
    ensures PlacesFaithful(BeginAccept(s, c))
  {
  }

  lemma SaveFaithful(s: State, c: LogChunk, write: Write)
    requires PlacesFaithful(s) && Faithful(c, s.past.contents, s.store.disk.files) && Alone(s, c)
    ensures PlacesFaithful(Save(s, c, write))
  {
    var contents, disk := s.past.contents, s.store.disk;
    var (disk', r) := Unload(disk, c, write);
    UnloadFaithful(disk, c, write, contents);
    PlacesElsewhere(s, contents, disk.files, disk'.files, c.id);
    assert Save(s, c, write).store.disk.files == disk'.files;
    if r.Some? {
      AlsoFaithful(s.past.kept, r.value, contents, disk'.files);
    }
  }

  lemma UnloadAcceptedFaithful(s: State, i: nat, write: Write)
    requires PlacesFaithful(s) && i < |s.unloading|
    requires Alone(s.(unloading := Without(s.unloading, i)), s.unloading[i])
    ensures PlacesFaithful(UnloadAccepted(s, i, write))
  {
    var contents, disk, c := s.past.contents, s.store.disk, s.unloading[i];
    var s0 := s.(unloading := Without(s.unloading, i));
    var (disk', r) := Unload(disk, c, write);
    WithoutFaithful(s.unloading, i, contents, disk.files);
    UnloadFaithful(disk, c, write, contents);
    PlacesElsewhere(s0, contents, disk.files, disk'.files, c.id);
    assert UnloadAccepted(s, i, write).store.disk.files == disk'.files;
    if r.Some? {
      AlsoFaithful(s.pushing, r.value, contents, disk'.files);
    }
  }

  lemma PushAcceptedFaithful(s: State, i: nat)
    requires PlacesFaithful(s) && i < |s.pushing|
    ensures PlacesFaithful(PushAccepted(s, i))
  {
    var contents, files := s.past.contents, s.store.disk.files;
    WithoutFaithful(s.pushing, i, contents, files);
    AlsoFaithful(s.input, s.pushing[i], contents, files);
  }

  lemma TakeBackFaithful(s: State, i: nat, write: Write)
    requires PlacesFaithful(s) && i < |s.consumers|
    requires Alone(s.(consumers := Without(s.consumers, i)), s.consumers[i])
    ensures PlacesFaithful(TakeBack(s, i, write))
  {
    var contents, disk, c := s.past.contents, s.store.disk, s.consumers[i];
    var s0 := s.(consumers := Without(s.consumers, i));
    var (disk', r) := Unload(disk, c, write);
    WithoutFaithful(s.consumers, i, contents, disk.files);
    UnloadFaithful(disk, c, write, contents);
    PlacesElsewhere(s0, contents, disk.files, disk'.files, c.id);
    assert TakeBack(s, i, write).store.disk.files == disk'.files;
    if r.Some? {
      AlsoFaithful(s.past.returned, r.value, contents, disk'.files);
    }
  }

  lemma ConfirmFaithful(s: State, i: nat, unlinkFails: bool)
    requires PlacesFaithful(s) && i < |s.consumers|
    requires Alone(s.(consumers := Without(s.consumers, i)), s.consumers[i])
    ensures PlacesFaithful(ApplyConsume(s, Confirm(i, unlinkFails)))
  {
    var contents, disk, c := s.past.contents, s.store.disk, s.consumers[i];
    var s0 := s.(consumers := Without(s.consumers, i));
    WithoutFaithful(s.consumers, i, contents, disk.files);
    PlacesElsewhere(s0, contents, disk.files, Remove(disk, c, unlinkFails).files, c.id);
  }

  lemma DiscardLoadingFaithful(s: State, unlinkFails: bool)
    requires PlacesFaithful(s) && FeedEnabled(s, LoadEmpty(unlinkFails))
    requires Alone(s.(feeder := Waiting), s.feeder.chunk)
    ensures PlacesFaithful(DiscardLoading(s, unlinkFails))
  {
    var contents, disk := s.past.contents, s.store.disk;
    var c := Load(disk, s.feeder.chunk, false).value;
    LoadFaithful(disk, s.feeder.chunk, false, contents);
    PlacesElsewhere(s.(feeder := Waiting), contents, disk.files, Remove(disk, c, unlinkFails).files, c.id);
  }

  lemma RecoverOneFaithful(s: State, statFails: bool)
    requires PlacesFaithful(s) && NamesFresh(s) && FeedEnabled(s, RecoverNext(statFails))
    ensures PlacesFaithful(RecoverOne(s, statFails))
  {
  }

  lemma UnloadingAlone(s: State, i: nat)
    requires i < |s.unloading| && BegunOnce(s) && Conserved(s, s.unloading[i].id)
    ensures Alone(s.(unloading := Without(s.unloading, i)), s.unloading[i])
  {
    CountWithout(s.unloading, i, s.unloading[i].id);
    assert s.past.begun[s.unloading[i].id] <= 1;
  }

  lemma ConsumerAlone(s: State, i: nat)
    requires i < |s.consumers| && BegunOnce(s) && Conserved(s, s.consumers[i].id)
    ensures Alone(s.(consumers := Without(s.consumers, i)), s.consumers[i])
  {
    CountWithout(s.consumers, i, s.consumers[i].id);
    assert s.past.begun[s.consumers[i].id] <= 1;
  }

  lemma InputAlone(s: State)
    requires s.input != [] && BegunOnce(s) && Conserved(s, s.input[0].id)
    ensures Alone(s.(input := s.input[1..]), s.input[0])
  {
  }

  lemma OutputAlone(s: State)
    requires s.output != [] && BegunOnce(s) && Conserved(s, s.output[0].id)
    ensures Alone(s.(output := s.output[1..]), s.output[0])
  {
  }

  lemma HandAlone(s: State, f: Feeder)
    requires Hand(s.feeder).Some? && Hand(f).None? && BegunOnce(s) && Conserved(s, Hand(s.feeder).value.id)
    ensures Alone(s.(feeder := f), Hand(s.feeder).value)
  {
  }

  lemma AcceptKeepsContents(s: State, step: AcceptStep)
    requires PlacesFaithful(s) && FilesKnown(s) && BegunOnce(s) && (forall id :: Conserved(s, id)) && AcceptEnabled(s, step)
    ensures PlacesFaithful(ApplyAccept(s, step))
  {
    if step.Accept? {
      BeginAcceptFaithful(s, step.chunk);
    } else if step.AcceptUnload? {
      UnloadingAlone(s, step.i);
      UnloadAcceptedFaithful(s, step.i, step.write);
    } else if step.AcceptPush? {
      PushAcceptedFaithful(s, step.i);
    } else {
    }
  }

  lemma SavesFaithful(s: State, step: FeedStep)
    requires PlacesFaithful(s) && BegunOnce(s) && (forall id :: Conserved(s, id)) && FeedEnabled(s, step)
    requires step.SaveInput? || step.SaveOutput? || step.SaveLast?
    ensures PlacesFaithful(ApplyFeed(s, step))
  {
    var contents, files := s.past.contents, s.store.disk.files;
    if step.SaveInput? {
      InputAlone(s);
      TailFaithful(s.input, contents, files);
      SaveFaithful(s.(input := s.input[1..]), s.input[0], step.write);
    } else if step.SaveOutput? {
      OutputAlone(s);
      TailFaithful(s.output, contents, files);
      SaveFaithful(s.(output := s.output[1..]), s.output[0], step.write);
    } else if s.feeder.last.Some? {
      HandAlone(s, SavingOutput);
      SaveFaithful(s.(feeder := SavingOutput), s.feeder.last.value, step.write);
    }
  }

  lemma FeedKeepsContents(s: State, step: FeedStep)
    requires PlacesFaithful(s) && BegunOnce(s) && NamesFresh(s) && (forall id :: Conserved(s, id))
    requires FeedEnabled(s, step)
    ensures PlacesFaithful(ApplyFeed(s, step))
  {
    var contents, files := s.past.contents, s.store.disk.files;
    if step.SaveInput? || step.SaveOutput? || step.SaveLast? {
      SavesFaithful(s, step);
    } else if step.RecoverNext? {
      RecoverOneFaithful(s, step.statFails);
    } else if step.LoadEmpty? {
      HandAlone(s, Waiting);
      DiscardLoadingFaithful(s, step.unlinkFails);
    } else if step.Receive? {
      TailFaithful(s.input, contents, files);
    } else if step.LoadSucceeds? {
      LoadFaithful(s.store.disk, s.feeder.chunk, false, contents);
    } else if step.Push? {
      AlsoFaithful(s.output, s.feeder.loaded, contents, files);
    } else {
    }
  }

  lemma ConsumeKeepsContents(s: State, step: ConsumeStep)
    requires PlacesFaithful(s) && BegunOnce(s) && (forall id :: Conserved(s, id)) && ConsumeEnabled(s, step)
    ensures PlacesFaithful(ApplyConsume(s, step))
  {
    var contents, files := s.past.contents, s.store.disk.files;
    if step.Take? {
      TailFaithful(s.output, contents, files);
      AlsoFaithful(s.consumers, s.output[0], contents, files);
    } else if step.Confirm? {
      ConsumerAlone(s, step.i);
      ConfirmFaithful(s, step.i, step.unlinkFails);
    } else {
      ConsumerAlone(s, step.i);
      TakeBackFaithful(s, step.i, step.write);
    }
  }

  // What is put out is loaded

  lemma AcceptKeepsLoaded(s: State, step: AcceptStep)
    requires OutputsLoaded(s) && AcceptEnabled(s, step)
    ensures OutputsLoaded(ApplyAccept(s, step))
  {
  }

  lemma SaveKeepsLoaded(s: State, c: LogChunk, write: Write)
    requires OutputsLoaded(s)
    ensures OutputsLoaded(Save(s, c, write))
  {
  }

  lemma FeedKeepsLoaded(s: State, step: FeedStep)
    requires OutputsLoaded(s) && PlacesFaithful(s) && FeedEnabled(s, step)
    ensures OutputsLoaded(ApplyFeed(s, step))
  {
    if step.SaveInput? {
      SaveKeepsLoaded(s.(input := s.input[1..]), s.input[0], step.write);
    } else if step.SaveOutput? {
      SaveKeepsLoaded(s.(output := s.output[1..]), s.output[0], step.write);
    } else if step.SaveLast? {
      if s.feeder.last.Some? {
        SaveKeepsLoaded(s.(feeder := SavingOutput), s.feeder.last.value, step.write);
      }
    } else if step.Push? {
    } else if step.RecoverNext? || step.LoadFails? || step.LoadEmpty? {
    } else {
    }
  }

  lemma ConsumeKeepsLoaded(s: State, step: ConsumeStep)
    requires OutputsLoaded(s) && ConsumeEnabled(s, step)
    ensures OutputsLoaded(ApplyConsume(s, step))
  {
  }
}
