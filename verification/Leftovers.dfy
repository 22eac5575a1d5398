/** The queue of unacknowledged chunks a session leaves behind: output/baseoutput/clientsession.go:365-378. */
module Leftovers {
  import opened Bytes
  import opened ChunkIds

  type ID = seq<byte>

  const NO_ID: ID := []

  datatype Chunk = Chunk(id: ID, data: seq<byte>)

  /** No chunk has a smaller ID than one before it. */
  ghost predicate Sorted(chunks: seq<Chunk>) {
    forall i | 0 < i < |chunks| :: !Less(chunks[i].id, chunks[i - 1].id)
  }

  ghost predicate StrictlyAscending(chunks: seq<Chunk>) {
    forall i | 0 < i < |chunks| :: Less(chunks[i - 1].id, chunks[i].id)
  }

  ghost predicate UniqueIds(chunks: seq<Chunk>) {
    forall i, j | 0 <= i < j < |chunks| :: chunks[i].id != chunks[j].id
  }

  function Insert(c: Chunk, sorted: seq<Chunk>): seq<Chunk> {
    if sorted == [] || !Less(sorted[0].id, c.id) then [c] + sorted else [sorted[0]] + Insert(c, sorted[1..])
  }

  /** Go's `sort.Slice` by ID. */
  function SortById(chunks: seq<Chunk>): seq<Chunk> {
    if chunks == [] then [] else Insert(chunks[0], SortById(chunks[1..]))
  }

  lemma {:induction false} InsertSorts(c: Chunk, sorted: seq<Chunk>)
    requires Sorted(sorted)
    ensures Sorted(Insert(c, sorted)) && multiset(Insert(c, sorted)) == multiset(sorted) + multiset{c}
    ensures Insert(c, sorted)[0] == c || (sorted != [] && Insert(c, sorted)[0] == sorted[0])
  {
    if sorted != [] && Less(sorted[0].id, c.id) {
      var tail := Insert(c, sorted[1..]);
      assert forall i | 0 < i < |sorted[1..]| :: sorted[1..][i] == sorted[i + 1] && sorted[1..][i - 1] == sorted[i];
      InsertSorts(c, sorted[1..]);
      assert sorted == [sorted[0]] + sorted[1..];
      NotLessBack(sorted[0].id, c.id);
      if |sorted| > 1 {
        assert !Less(sorted[1].id, sorted[1 - 1].id);
      }
    }
  }

  lemma NotLessBack(a: ID, b: ID)
    requires Less(a, b)
    ensures !Less(b, a)
  {
  }

  lemma {:induction false} SortSorts(chunks: seq<Chunk>)
    ensures Sorted(SortById(chunks)) && multiset(SortById(chunks)) == multiset(chunks)
  {
    if chunks != [] {
      SortSorts(chunks[1..]);
      InsertSorts(chunks[0], SortById(chunks[1..]));
      assert chunks == [chunks[0]] + chunks[1..];
    }
  }

  /** Skips chunks with the ID of the one before; the first is compared with no ID. */
  function Deduplicated(chunks: seq<Chunk>): seq<Chunk> {
    if chunks == [] then []
    else
      var before, c := chunks[..|chunks| - 1], chunks[|chunks| - 1];
      if c.id == LastId(before) then Deduplicated(before) else Deduplicated(before) + [c]
  }

  /** The last ID that was let through; after sorting it is simply the last ID. */
  function LastId(chunks: seq<Chunk>): ID {
    if chunks == [] then NO_ID else chunks[|chunks| - 1].id
  }

  /** Sorted and deduplicated, as the next session will resend them. */
  function LeftoverQueue(chunks: seq<Chunk>): seq<Chunk> {
    Deduplicated(SortById(chunks))
  }

  ghost predicate Named(chunks: seq<Chunk>) {
    forall i | 0 <= i < |chunks| :: chunks[i].id != NO_ID
  }

  /** The loop that fills the new channel; it never has to wait because the channel is as long as the input. */
  method NewLeftoverChannel(chunks: seq<Chunk>) returns (channel: seq<Chunk>)
    ensures channel == LeftoverQueue(chunks)
    ensures |channel| <= |chunks|
  {
    var sorted := SortById(chunks);
    SortSorts(chunks);
    assert |multiset(sorted)| == |multiset(chunks)|;
    channel := [];
    var lastChunkID := NO_ID; // to skip duplications
    for i := 0 to |sorted|
      invariant channel == Deduplicated(sorted[..i]) && lastChunkID == LastId(sorted[..i])
      invariant |channel| <= i
    {
      assert sorted[..i + 1][..i] == sorted[..i];
      var c := sorted[i];
      if c.id == lastChunkID {
        continue;
      }
      assert |channel| < |chunks|; // room left in the channel
      channel := channel + [c];
      lastChunkID := c.id;
    }
    assert sorted[..|sorted|] == sorted;
  }

  function Ids(chunks: seq<Chunk>): set<ID> {
    if chunks == [] then {} else Ids(chunks[..|chunks| - 1]) + {chunks[|chunks| - 1].id}
  }

  lemma {:induction false} InIds(chunks: seq<Chunk>, id: ID)
    ensures id in Ids(chunks) <==> exists c :: c in chunks && c.id == id
  {
    if chunks != [] {
      var before, c := chunks[..|chunks| - 1], chunks[|chunks| - 1];
      InIds(before, id);
      assert chunks == before + [c];
    }
  }

  /** Deduplication of a sorted list leaves a strictly ascending list with the same IDs. */
  lemma {:induction false} DeduplicatedAscends(chunks: seq<Chunk>)
    requires Sorted(chunks) && Named(chunks)
    ensures var r := Deduplicated(chunks);
            StrictlyAscending(r) && LastId(r) == LastId(chunks) && Ids(r) == Ids(chunks)
  {
    if chunks != [] {
      var n := |chunks| - 1;
      var before, c := chunks[..n], chunks[n];
      var r := Deduplicated(before);
      DeduplicatedAscends(before);
      if before == [] {
        assert Deduplicated(chunks) == [c] && Ids(chunks) == {c.id};
      } else if c.id == LastId(before) {
        assert before[n - 1].id == c.id;
        assert c.id in Ids(before);
      } else {
        assert !Less(chunks[n].id, chunks[n - 1].id);
        LessTotal(LastId(before), c.id);
        assert (r + [c])[..|r|] == r;
      }
    }
  }

  lemma {:induction false} DeduplicatedKeepsUnique(chunks: seq<Chunk>)
    requires UniqueIds(chunks) && Named(chunks)
    ensures Deduplicated(chunks) == chunks
  {
    if chunks != [] {
      var n := |chunks| - 1;
      var before := chunks[..n];
      DeduplicatedKeepsUnique(before);
      if n > 0 {
        assert before[n - 1] == chunks[n - 1];
        assert LastId(before) != chunks[n].id;
      }
      assert chunks == before + [chunks[n]];
    }
  }

  /** Equal IDs at two positions show up as two members of the bag. */
  lemma UniqueIdsInAnyOrder(a: seq<Chunk>, b: seq<Chunk>)
    requires multiset(a) == multiset(b) && UniqueIds(a)
    ensures UniqueIds(b)
  {
    forall i, j | 0 <= i < j < |b| ensures b[i].id != b[j].id {
      if b[i].id == b[j].id {
        assert b[i] in multiset(b) && b[j] in multiset(b);
        var k :| 0 <= k < |a| && a[k] == b[i];
        var l :| 0 <= l < |a| && a[l] == b[j];
        assert k == l;
        TwiceIn(b, i, j);
        OnceIn(a, k);
      }
    }
  }

  lemma TwiceIn(s: seq<Chunk>, i: nat, j: nat)
    requires i < j < |s| && s[i] == s[j]
    ensures multiset(s)[s[i]] >= 2
  {
    assert s == s[..i] + [s[i]] + s[i + 1..j] + [s[j]] + s[j + 1..];
  }

  lemma OnceIn(s: seq<Chunk>, k: nat)
    requires k < |s| && UniqueIds(s)
    ensures multiset(s)[s[k]] == 1
  {
    assert s == s[..k] + [s[k]] + s[k + 1..];
    assert s[k] !in s[..k];
    assert s[k] !in s[k + 1..];
  }

  lemma NamedInAnyOrder(a: seq<Chunk>, b: seq<Chunk>)
    requires multiset(a) == multiset(b) && Named(a)
    ensures Named(b)
  {
    forall i | 0 <= i < |b| ensures b[i].id != NO_ID {
      assert b[i] in multiset(a);
      assert b[i] in a;
    }
  }

  lemma IdsInAnyOrder(a: seq<Chunk>, b: seq<Chunk>)
    requires multiset(a) == multiset(b)
    ensures Ids(a) == Ids(b)
  {
    forall id: ID ensures id in Ids(a) <==> id in Ids(b) {
      InIds(a, id);
      InIds(b, id);
      assert forall c :: c in a <==> c in multiset(a);
      assert forall c :: c in b <==> c in multiset(b);
    }
  }

  /** What is left behind is resent in the order of IDs, and no ID is lost or added. */
  lemma LeftoverQueueAscends(chunks: seq<Chunk>)
    requires Named(chunks)
    ensures StrictlyAscending(LeftoverQueue(chunks)) && Ids(LeftoverQueue(chunks)) == Ids(chunks)
  {
    SortSorts(chunks);
    NamedInAnyOrder(chunks, SortById(chunks));
    IdsInAnyOrder(chunks, SortById(chunks));
    DeduplicatedAscends(SortById(chunks));
  }

  /** Without duplicates nothing is skipped. */
  lemma LeftoverQueueKeepsAll(chunks: seq<Chunk>)
    requires Named(chunks) && UniqueIds(chunks)
    ensures multiset(LeftoverQueue(chunks)) == multiset(chunks) && |LeftoverQueue(chunks)| == |chunks|
  {
    SortSorts(chunks);
    NamedInAnyOrder(chunks, SortById(chunks));
    UniqueIdsInAnyOrder(chunks, SortById(chunks));
    DeduplicatedKeepsUnique(SortById(chunks));
    assert |multiset(SortById(chunks))| == |multiset(chunks)|;
  }
}
