/** What multi-line framing means, independent of buffers: the records in a stream of lines. */
module MultiLineSpec {
  import opened Bytes

  type HeadTest = seq<byte> -> bool

  /**
   `complete` holds the finished lines of the current record, each with its newline;
   `tail` is the line still being received.
   */
  datatype Framer = Framer(records: seq<seq<byte>>, complete: seq<byte>, tail: seq<byte>) {
    function Pending(): seq<byte> {
      complete + tail
    }

    ghost predicate WellFormed() {
      && (complete != [] ==> complete[|complete| - 1] == NEWLINE)
      && NEWLINE !in tail
    }

    function Emit(record: seq<byte>): Framer {
      this.(records := records + [record])
    }
  }

  const EMPTY := Framer([], [], [])

  function DropLast(s: seq<byte>): seq<byte>
    requires s != []
  {
    s[..|s| - 1]
  }

  /** A newline arrives: a line that passes the head test ends the record before it. */
  function EndLine(test: HeadTest, f: Framer): Framer {
    if f.complete != [] && f.tail != [] && test(f.tail)
    then Framer(f.records + [DropLast(f.complete)], f.tail + [NEWLINE], [])
    else Framer(f.records, f.complete + f.tail + [NEWLINE], [])
  }

  function FeedByte(test: HeadTest, f: Framer, b: byte): Framer {
    if b == NEWLINE then EndLine(test, f) else f.(tail := f.tail + [b])
  }

  function Feed(test: HeadTest, f: Framer, s: seq<byte>): Framer {
    if s == [] then f else FeedByte(test, Feed(test, f, s[..|s| - 1]), s[|s| - 1])
  }

  /** The buffer has run full: take what can be taken as records and drop the rest. */
  function Overflow(test: HeadTest, f: Framer): Framer {
    var emitted :=
      if f.complete != [] && test(f.tail) then
        (if test(DropLast(f.complete)) then f.Emit(DropLast(f.complete)) else f).Emit(f.tail)
      else if test(f.Pending()) then f.Emit(f.Pending())
      else f;
    Framer(emitted.records, [], [])
  }

  /** After a read, room for one more record of the soft limit must be left. */
  function Settle(test: HeadTest, capacity: int, softLimit: int, f: Framer): Framer {
    if capacity - |f.Pending()| >= softLimit then f else Overflow(test, f)
  }

  /** A pause ends the current record; the unfinished line stays. */
  function EndRecord(test: HeadTest, f: Framer): Framer {
    if f.complete == [] then f
    else
      var record := DropLast(f.complete);
      Framer(if record != [] && test(record) then f.records + [record] else f.records, [], f.tail)
  }

  /** The end of the stream ends everything. */
  function EndStream(test: HeadTest, f: Framer): Framer {
    var pending := f.Pending();
    if pending == [] then f
    else
      var record := if pending[|pending| - 1] == NEWLINE then DropLast(pending) else pending;
      Framer(if test(record) then f.records + [record] else f.records, [], [])
  }

  datatype Op = Read(data: seq<byte>) | Flush | FlushAll

  function Apply(test: HeadTest, capacity: int, softLimit: int, f: Framer, op: Op): Framer {
    match op
    case Read(data) => if data == [] then f else Settle(test, capacity, softLimit, Feed(test, f, data))
    case Flush => EndRecord(test, f)
    case FlushAll => EndStream(test, f)
  }

  function Run(test: HeadTest, capacity: int, softLimit: int, ops: seq<Op>): Framer {
    if ops == [] then EMPTY
    else Apply(test, capacity, softLimit, Run(test, capacity, softLimit, ops[..|ops| - 1]), ops[|ops| - 1])
  }

  // Feeding

  lemma {:induction false} FeedConcat(test: HeadTest, f: Framer, a: seq<byte>, b: seq<byte>)
    ensures Feed(test, f, a + b) == Feed(test, Feed(test, f, a), b)
  {
    if b == [] {
      assert a + b == a;
    } else {
      var b' := b[..|b| - 1];
      assert (a + b)[..|a + b| - 1] == a + b';
      FeedConcat(test, f, a, b');
    }
  }

  lemma {:induction false} FeedPlain(test: HeadTest, f: Framer, s: seq<byte>)
    requires Free(s, NEWLINE, 0, |s|)
    ensures Feed(test, f, s) == f.(tail := f.tail + s)
  {
    if s == [] {
      assert f.tail + s == f.tail;
    } else {
      FeedPlain(test, f, s[..|s| - 1]);
      assert s == s[..|s| - 1] + [s[|s| - 1]];
    }
  }

  lemma FeedFirst(test: HeadTest, f: Framer, b: byte, s: seq<byte>)
    ensures Feed(test, f, [b] + s) == Feed(test, FeedByte(test, f, b), s)
  {
    FeedConcat(test, f, [b], s);
    assert [b][..0] == [];
  }

  /**
   The framer at the end of a buffer, from the point where a scan has reached `at`,
   the current record starts at `recordStart` and the current line at `searchStart`.
   */
  function Scan(test: HeadTest, buf: seq<byte>, records: seq<seq<byte>>,
                recordStart: nat, searchStart: nat, at: nat): Framer
    requires recordStart <= searchStart <= at <= |buf|
    decreases |buf| - at
  {
    if at == |buf| then Framer(records, buf[recordStart..searchStart], buf[searchStart..])
    else if buf[at] != NEWLINE then Scan(test, buf, records, recordStart, searchStart, at + 1)
    else if recordStart < searchStart < at && test(buf[searchStart..at]) then
      Scan(test, buf, records + [buf[recordStart..searchStart - 1]], searchStart, at + 1, at + 1)
    else Scan(test, buf, records, recordStart, at + 1, at + 1)
  }

  lemma {:induction false} ScanSkips(test: HeadTest, buf: seq<byte>, records: seq<seq<byte>>,
                                     recordStart: nat, searchStart: nat, at: nat, end: nat)
    requires recordStart <= searchStart <= at <= end <= |buf| && Free(buf, NEWLINE, at, end)
    ensures Scan(test, buf, records, recordStart, searchStart, at)
            == Scan(test, buf, records, recordStart, searchStart, end)
    decreases end - at
  {
    if at < end {
      ScanSkips(test, buf, records, recordStart, searchStart, at + 1, end);
    }
  }

  lemma CutByte(buf: seq<byte>, recordStart: nat, searchStart: nat, at: nat)
    requires recordStart <= searchStart <= at < |buf|
    ensures buf[at..] == [buf[at]] + buf[at + 1..] && buf[at + 1..at + 1] == []
    ensures buf[searchStart..at + 1] == buf[searchStart..at] + [buf[at]]
    ensures buf[recordStart..at + 1] == buf[recordStart..searchStart] + buf[searchStart..at] + [buf[at]]
  {
  }

  /** Scanning by positions is feeding the rest of the buffer. */
  lemma {:induction false} ScanFeeds(test: HeadTest, buf: seq<byte>, records: seq<seq<byte>>,
                                     recordStart: nat, searchStart: nat, at: nat)
    requires recordStart <= searchStart <= at <= |buf|
    ensures Scan(test, buf, records, recordStart, searchStart, at)
            == Feed(test, Framer(records, buf[recordStart..searchStart], buf[searchStart..at]), buf[at..])
    decreases |buf| - at
  {
    if at < |buf| {
      var f := Framer(records, buf[recordStart..searchStart], buf[searchStart..at]);
      CutByte(buf, recordStart, searchStart, at);
      FeedFirst(test, f, buf[at], buf[at + 1..]);
      if buf[at] != NEWLINE {
        ScanFeeds(test, buf, records, recordStart, searchStart, at + 1);
      } else if recordStart < searchStart < at && test(buf[searchStart..at]) {
        var record := buf[recordStart..searchStart - 1];
        assert DropLast(f.complete) == record;
        ScanFeeds(test, buf, records + [record], searchStart, at + 1, at + 1);
      } else {
        ScanFeeds(test, buf, records, recordStart, at + 1, at + 1);
      }
    }
  }

  lemma {:induction false} FeedWellFormed(test: HeadTest, f: Framer, s: seq<byte>)
    requires f.WellFormed()
    ensures Feed(test, f, s).WellFormed()
  {
    if s != [] {
      FeedWellFormed(test, f, s[..|s| - 1]);
    }
  }

  lemma ApplyWellFormed(test: HeadTest, capacity: int, softLimit: int, f: Framer, op: Op)
    requires f.WellFormed()
    ensures Apply(test, capacity, softLimit, f, op).WellFormed()
  {
    if op.Read? {
      FeedWellFormed(test, f, op.data);
    }
  }

  // Framing by lines

  /** Every record of a stream with its newline, and what is still pending: the stream itself. */
  function Unframe(records: seq<seq<byte>>): seq<byte> {
    if records == [] then [] else Unframe(records[..|records| - 1]) + records[|records| - 1] + [NEWLINE]
  }

  ghost predicate Keeps(f: Framer, s: seq<byte>) {
    f.WellFormed() && Unframe(f.records) + f.Pending() == s
  }

  lemma KeepsByte(test: HeadTest, f: Framer, s: seq<byte>, b: byte)
    requires Keeps(f, s)
    ensures Keeps(FeedByte(test, f, b), s + [b])
  {
  }

  /** Nothing is lost, added or reordered by framing. */
  lemma {:induction false} FeedKeepsTheStream(test: HeadTest, s: seq<byte>)
    ensures Keeps(Feed(test, EMPTY, s), s)
  {
    if s == [] {
      assert Unframe([]) + EMPTY.Pending() == [];
    } else {
      var s', b := s[..|s| - 1], s[|s| - 1];
      FeedKeepsTheStream(test, s');
      KeepsByte(test, Feed(test, EMPTY, s'), s', b);
      assert s == s' + [b];
    }
  }

  /** The lines that ended in a stream, and the one that did not. */
  function Lines(s: seq<byte>): (seq<seq<byte>>, seq<byte>) {
    if s == [] then ([], [])
    else
      var (lines, rest) := Lines(s[..|s| - 1]);
      if s[|s| - 1] == NEWLINE then (lines + [rest], []) else (lines, rest + [s[|s| - 1]])
  }

  /** Lines joined by newlines. */
  function Join(lines: seq<seq<byte>>): seq<byte>
    requires lines != []
  {
    if |lines| == 1 then lines[0] else Join(lines[..|lines| - 1]) + [NEWLINE] + lines[|lines| - 1]
  }

  predicate NoneEmpty(groups: seq<seq<seq<byte>>>) {
    forall i | 0 <= i < |groups| :: groups[i] != []
  }

  /** Groups lines to records: a non-empty line that passes the head test opens the next record. */
  function Group(test: HeadTest, lines: seq<seq<byte>>): (r: (seq<seq<seq<byte>>>, seq<seq<byte>>))
    ensures lines != [] ==> r.1 != []
    ensures NoneEmpty(r.0)
  {
    if lines == [] then ([], [])
    else
      var line := lines[|lines| - 1];
      var (done, current) := Group(test, lines[..|lines| - 1]);
      if current != [] && line != [] && test(line) then (done + [current], [line])
      else (done, current + [line])
  }

  predicate OpensRecord(test: HeadTest, lines: seq<seq<byte>>) {
    lines != [] && lines[0] != [] && test(lines[0])
  }

  /** Every record but the first opens with a line that passes the head test. */
  lemma {:induction false} GroupsOpenWithHeads(test: HeadTest, lines: seq<seq<byte>>)
    ensures var (done, current) := Group(test, lines);
            && (forall i | 0 < i < |done| :: OpensRecord(test, done[i]))
            && (done != [] ==> OpensRecord(test, current))
  {
    if lines != [] {
      GroupsOpenWithHeads(test, lines[..|lines| - 1]);
    }
  }

  function Joined(groups: seq<seq<seq<byte>>>): (r: seq<seq<byte>>)
    requires NoneEmpty(groups)
    ensures |r| == |groups|
  {
    seq(|groups|, i requires 0 <= i < |groups| => Join(groups[i]))
  }

  lemma JoinedMore(groups: seq<seq<seq<byte>>>, g: seq<seq<byte>>)
    requires g != [] && NoneEmpty(groups)
    ensures NoneEmpty(groups + [g]) && Joined(groups + [g]) == Joined(groups) + [Join(g)]
  {
  }

  /** The framer after a stream, said by lines. */
  function Grouped(test: HeadTest, s: seq<byte>): Framer {
    var (lines, rest) := Lines(s);
    var (done, current) := Group(test, lines);
    Framer(Joined(done), if current == [] then [] else Join(current) + [NEWLINE], rest)
  }

  /** Feeding byte by byte groups the lines of the stream. */
  lemma {:induction false} FeedGroupsLines(test: HeadTest, s: seq<byte>)
    ensures Feed(test, EMPTY, s) == Grouped(test, s)
  {
    if s != [] {
      var s' := s[..|s| - 1];
      FeedGroupsLines(test, s');
      if s[|s| - 1] == NEWLINE {
        var (lines, rest) := Lines(s');
        var (done, current) := Group(test, lines);
        assert (lines + [rest])[..|lines|] == lines;
        if current != [] {
          JoinedMore(done, current);
          assert (current + [rest])[..|current|] == current;
        }
      }
    }
  }

  function Stream(ops: seq<Op>): seq<byte> {
    if ops == [] then []
    else Stream(ops[..|ops| - 1]) + (if ops[|ops| - 1].Read? then ops[|ops| - 1].data else [])
  }

  /** No flush happens and no read leaves too little room. */
  ghost predicate Undisturbed(test: HeadTest, capacity: int, softLimit: int, ops: seq<Op>) {
    ops != [] ==>
      && ops[|ops| - 1].Read?
      && capacity - |Feed(test, EMPTY, Stream(ops)).Pending()| >= softLimit
      && Undisturbed(test, capacity, softLimit, ops[..|ops| - 1])
  }

  /** However the reads cut the stream, the framer ends up where the whole stream takes it. */
  lemma {:induction false} FramingIgnoresReadBoundaries(test: HeadTest, capacity: int, softLimit: int, ops: seq<Op>)
    requires Undisturbed(test, capacity, softLimit, ops)
    ensures Run(test, capacity, softLimit, ops) == Grouped(test, Stream(ops))
  {
    FeedGroupsLines(test, Stream(ops));
    if ops != [] {
      var before, data := ops[..|ops| - 1], ops[|ops| - 1].data;
      FramingIgnoresReadBoundaries(test, capacity, softLimit, before);
      FeedGroupsLines(test, Stream(before));
      FeedConcat(test, EMPTY, Stream(before), data);
      if data == [] {
        assert Stream(ops) == Stream(before);
      }
    }
  }

  /** Without flush or overflow the stream is every record with its newline, then the bytes still buffered. */
  lemma RecordsAreTheStream(test: HeadTest, capacity: int, softLimit: int, ops: seq<Op>)
    requires Undisturbed(test, capacity, softLimit, ops)
    ensures var f := Run(test, capacity, softLimit, ops);
            Unframe(f.records) + f.Pending() == Stream(ops)
  {
    FramingIgnoresReadBoundaries(test, capacity, softLimit, ops);
    FeedGroupsLines(test, Stream(ops));
    FeedKeepsTheStream(test, Stream(ops));
  }

  // Slices of the stream, through flushes and overflows

  /** The records are slices of `s`, in order and without overlap. */
  ghost predicate InOrderSlices(records: seq<seq<byte>>, s: seq<byte>)
    decreases |records|, 1
  {
    records == [] || exists i: nat, j: nat :: LastSlice(records, s, i, j)
  }

  ghost predicate LastSlice(records: seq<seq<byte>>, s: seq<byte>, i: nat, j: nat)
    requires records != []
    decreases |records|, 0
  {
    && i <= j <= |s|
    && s[i..j] == records[|records| - 1]
    && InOrderSlices(records[..|records| - 1], s[..i])
  }

  lemma SlicesOfLonger(records: seq<seq<byte>>, s: seq<byte>, more: seq<byte>)
    requires InOrderSlices(records, s)
    ensures InOrderSlices(records, s + more)
  {
    if records != [] {
      var i: nat, j: nat :| LastSlice(records, s, i, j);
      assert (s + more)[..i] == s[..i];
      assert LastSlice(records, s + more, i, j);
    }
  }

  lemma SlicesMore(records: seq<seq<byte>>, s: seq<byte>, record: seq<byte>, more: seq<byte>)
    requires InOrderSlices(records, s)
    ensures InOrderSlices(records + [record], s + record + more)
  {
    var all := s + record + more;
    assert all == s + (record + more);
    assert all[..|s|] == s;
    assert all[|s|..|s| + |record|] == record;
    assert (records + [record])[..|records|] == records;
    assert LastSlice(records + [record], all, |s|, |s| + |record|);
  }

  /** The pending bytes are the end of the stream and the records are slices of what is before them. */
  ghost predicate Traced(f: Framer, stream: seq<byte>) {
    exists before: seq<byte> :: stream == before + f.Pending() && InOrderSlices(f.records, before)
  }

  /** A record may be taken from the front of what is pending, dropping what follows it up to the new pending bytes. */
  lemma TracedEmit(f: Framer, stream: seq<byte>, record: seq<byte>, dropped: seq<byte>, g: Framer)
    requires Traced(f, stream) && f.Pending() == record + dropped + g.Pending()
    requires g.records == f.records + [record]
    ensures Traced(g, stream)
  {
    var before: seq<byte> :| stream == before + f.Pending() && InOrderSlices(f.records, before);
    SlicesMore(f.records, before, record, dropped);
    Regroup(before, record, dropped);
    Regroup(before, record + dropped, g.Pending());
    assert stream == (before + record + dropped) + g.Pending();
  }

  lemma TracedDrop(f: Framer, stream: seq<byte>, dropped: seq<byte>, g: Framer)
    requires Traced(f, stream) && f.Pending() == dropped + g.Pending() && g.records == f.records
    ensures Traced(g, stream)
  {
    var before: seq<byte> :| stream == before + f.Pending() && InOrderSlices(f.records, before);
    SlicesOfLonger(f.records, before, dropped);
    Regroup(before, dropped, g.Pending());
  }

  lemma FeedByteTraced(test: HeadTest, f: Framer, stream: seq<byte>, b: byte)
    requires f.WellFormed() && Traced(f, stream)
    ensures Traced(FeedByte(test, f, b), stream + [b])
  {
    var before: seq<byte> :| stream == before + f.Pending() && InOrderSlices(f.records, before);
    var longer := f.(tail := f.tail + [b]);
    Regroup(f.complete, f.tail, [b]);
    Regroup(before, f.Pending(), [b]);
    assert stream + [b] == before + longer.Pending();
    assert Traced(longer, stream + [b]);
    var g := FeedByte(test, f, b);
    if g.records != f.records {
      var record := DropLast(f.complete);
      assert f.complete == record + [NEWLINE];
      assert g.Pending() == f.tail + [b];
      Regroup(f.complete, f.tail, [b]);
      TracedEmit(longer, stream + [b], record, [NEWLINE], g);
    } else {
      assert g.Pending() == longer.Pending();
    }
  }

  lemma {:induction false} FeedTraced(test: HeadTest, f: Framer, stream: seq<byte>, s: seq<byte>)
    requires f.WellFormed() && Traced(f, stream)
    ensures Traced(Feed(test, f, s), stream + s)
  {
    if s == [] {
      assert stream + s == stream;
    } else {
      var s' := s[..|s| - 1];
      FeedTraced(test, f, stream, s');
      FeedWellFormed(test, f, s');
      FeedByteTraced(test, Feed(test, f, s'), stream + s', s[|s| - 1]);
      assert stream + s' + [s[|s| - 1]] == stream + s;
    }
  }

  lemma OverflowTraced(test: HeadTest, f: Framer, stream: seq<byte>)
    requires f.WellFormed() && Traced(f, stream)
    ensures Traced(Overflow(test, f), stream)
  {
    var g := Overflow(test, f);
    assert g.Pending() == [];
    if f.complete != [] && test(f.tail) {
      var prev := DropLast(f.complete);
      assert f.complete == prev + [NEWLINE];
      var mid := Framer(if test(prev) then f.records + [prev] else f.records, [], f.tail);
      assert mid.Pending() == f.tail;
      if test(prev) {
        TracedEmit(f, stream, prev, [NEWLINE], mid);
      } else {
        TracedDrop(f, stream, f.complete, mid);
      }
      assert f.tail == f.tail + [] + [];
      TracedEmit(mid, stream, f.tail, [], g);
    } else if test(f.Pending()) {
      assert f.Pending() == f.Pending() + [] + [];
      TracedEmit(f, stream, f.Pending(), [], g);
    } else {
      assert f.Pending() == f.Pending() + [];
      TracedDrop(f, stream, f.Pending(), g);
    }
  }

  lemma FlushTraced(test: HeadTest, f: Framer, stream: seq<byte>)
    requires f.WellFormed() && Traced(f, stream)
    ensures Traced(EndRecord(test, f), stream)
  {
    var g := EndRecord(test, f);
    if f.complete != [] {
      var record := DropLast(f.complete);
      assert f.complete == record + [NEWLINE] && g.Pending() == f.tail;
      if g.records != f.records {
        TracedEmit(f, stream, record, [NEWLINE], g);
      } else {
        TracedDrop(f, stream, f.complete, g);
      }
    }
  }

  lemma FlushAllTraced(test: HeadTest, f: Framer, stream: seq<byte>)
    requires Traced(f, stream)
    ensures Traced(EndStream(test, f), stream)
  {
    var g, pending := EndStream(test, f), f.Pending();
    if pending != [] {
      var record := if pending[|pending| - 1] == NEWLINE then DropLast(pending) else pending;
      var cut := if pending[|pending| - 1] == NEWLINE then [NEWLINE] else [];
      assert g.Pending() == [];
      assert pending == record + cut + [];
      if test(record) {
        TracedEmit(f, stream, record, cut, g);
      } else {
        assert pending == pending + [];
        TracedDrop(f, stream, pending, g);
      }
    }
  }

  /** Whatever is read, flushed or dropped on overflow, in any order: records never overlap or swap. */
  lemma {:induction false} RunTraced(test: HeadTest, capacity: int, softLimit: int, ops: seq<Op>)
    ensures var f := Run(test, capacity, softLimit, ops);
            f.WellFormed() && Traced(f, Stream(ops))
  {
    if ops == [] {
      assert [] == [] + EMPTY.Pending();
      assert InOrderSlices(EMPTY.records, []);
    } else {
      var op := ops[|ops| - 1];
      var f, stream := Run(test, capacity, softLimit, ops[..|ops| - 1]), Stream(ops[..|ops| - 1]);
      RunTraced(test, capacity, softLimit, ops[..|ops| - 1]);
      ApplyWellFormed(test, capacity, softLimit, f, op);
      assert stream + [] == stream;
      match op
      case Read(data) =>
        if data != [] {
          FeedTraced(test, f, stream, data);
          FeedWellFormed(test, f, data);
          OverflowTraced(test, Feed(test, f, data), stream + data);
        }
      case Flush => FlushTraced(test, f, stream);
      case FlushAll => FlushAllTraced(test, f, stream);
    }
  }
}
