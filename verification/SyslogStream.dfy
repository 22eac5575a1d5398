/**
 Which streams make the parser panic: the listener (input/tcplistener/tcplinelistener.go:141-195) gives what the framer
 takes for records to the parser, and the framer tests every line but the first.
 */
module SyslogStream {
  import opened Bytes
  import opened MultiLineSpec
  import opened SyslogSpec

  /** The head test the listener is made with. */
  const HEADS: HeadTest := s => RecordStart(s)

  /** What the parser panics on. */
  predicate Bad(record: seq<byte>) {
    |record| >= MIN_LENGTH && record[0] == LESS_THAN && record[1] == SPACE
  }

  /** Some record of the list makes the parser panic. */
  ghost predicate SomeCrash(records: seq<seq<byte>>, levels: seq<string>, clean: seq<byte> -> seq<byte>)
    requires |levels| == 8
  {
    exists i :: 0 <= i < |records| && ParseRecord(records[i], levels, clean).Crash?
  }

  lemma {:induction false} JoinBegins(lines: seq<seq<byte>>)
    requires lines != []
    ensures lines[0] <= Join(lines)
  {
    if |lines| > 1 {
      JoinBegins(lines[..|lines| - 1]);
    }
  }

  /** What passes the head test, alone or with more lines behind it, does not. */
  lemma HeadIsGood(lines: seq<seq<byte>>)
    requires OpensRecord(HEADS, lines)
    ensures !Bad(Join(lines))
  {
    JoinBegins(lines);
    var head := lines[0];
    var n :| 1 <= n <= 3 && PriEnds(head, n);
    assert head[1..1 + n][0] == head[1];
  }

  /** Grouping lines, only the first record can be bad. */
  lemma OnlyFirstBad(lines: seq<seq<byte>>, i: nat)
    requires 0 < i < |Group(HEADS, lines).0|
    ensures !Bad(Joined(Group(HEADS, lines).0)[i])
  {
    GroupsOpenWithHeads(HEADS, lines);
    HeadIsGood(Group(HEADS, lines).0[i]);
  }

  lemma CrashIffFirstBad(records: seq<seq<byte>>, levels: seq<string>, clean: seq<byte> -> seq<byte>)
    requires |levels| == 8 && forall i | 0 < i < |records| :: !Bad(records[i])
    ensures SomeCrash(records, levels, clean) <==> records != [] && Bad(records[0])
  {
    forall i | 0 <= i < |records| ensures ParseRecord(records[i], levels, clean).Crash? <==> Bad(records[i]) {
      CrashesIff(records[i], levels, clean);
    }
  }

  lemma {:induction false} FedRecords(s: seq<byte>)
    ensures forall i | 0 < i < |Feed(HEADS, EMPTY, s).records| :: !Bad(Feed(HEADS, EMPTY, s).records[i])
  {
    FeedGroupsLines(HEADS, s);
    var lines := Lines(s).0;
    forall i | 0 < i < |Grouped(HEADS, s).records| ensures !Bad(Grouped(HEADS, s).records[i]) {
      OnlyFirstBad(lines, i);
    }
  }

  lemma {:induction false} RecordsBegin(records: seq<seq<byte>>)
    requires records != []
    ensures records[0] <= Unframe(records)
  {
    if |records| > 1 {
      RecordsBegin(records[..|records| - 1]);
    } else {
      assert Unframe(records[..0]) == [];
    }
  }

  /** Without flush and overflow the first record is how the stream begins, and the others are good. */
  lemma UndisturbedRecords(capacity: int, softLimit: int, ops: seq<Op>)
    requires Undisturbed(HEADS, capacity, softLimit, ops)
    ensures var records := Run(HEADS, capacity, softLimit, ops).records;
            && (records != [] ==> records[0] <= Stream(ops))
            && forall i | 0 < i < |records| :: !Bad(records[i])
  {
    FramingIgnoresReadBoundaries(HEADS, capacity, softLimit, ops);
    FeedGroupsLines(HEADS, Stream(ops));
    FedRecords(Stream(ops));
    RecordsAreTheStream(HEADS, capacity, softLimit, ops);
    var records := Run(HEADS, capacity, softLimit, ops).records;
    if records != [] {
      RecordsBegin(records);
      assert Unframe(records) <= Stream(ops);
    }
  }

  lemma BadByPrefix(record: seq<byte>, stream: seq<byte>)
    requires record <= stream
    ensures Bad(record) <==> |record| >= MIN_LENGTH && [LESS_THAN, SPACE] <= stream
  {
    if |record| >= MIN_LENGTH {
      assert record[0] == stream[0] && record[1] == stream[1];
      assert [LESS_THAN, SPACE] <= stream <==> stream[0] == LESS_THAN && stream[1] == SPACE;
    }
  }

  /**
   Without flush and overflow, a stream makes the parser panic exactly if it begins with "< " and its first record has
   been emitted and has 32 bytes or more.
   */
  lemma StreamCrashesIff(capacity: int, softLimit: int, ops: seq<Op>, levels: seq<string>, clean: seq<byte> -> seq<byte>)
    requires |levels| == 8 && Undisturbed(HEADS, capacity, softLimit, ops)
    ensures var records, stream := Run(HEADS, capacity, softLimit, ops).records, Stream(ops);
            SomeCrash(records, levels, clean)
            <==> records != [] && |records[0]| >= MIN_LENGTH && [LESS_THAN, SPACE] <= stream
  {
    UndisturbedRecords(capacity, softLimit, ops);
    var records := Run(HEADS, capacity, softLimit, ops).records;
    CrashIffFirstBad(records, levels, clean);
    if records != [] {
      BadByPrefix(records[0], Stream(ops));
    }
  }

  // After a flush or an overflow

  lemma {:induction false} FeedAfter(test: HeadTest, records: seq<seq<byte>>, f: Framer, s: seq<byte>)
    ensures var g := Feed(test, f, s);
            Feed(test, f.(records := records + f.records), s) == g.(records := records + g.records)
  {
    if s != [] {
      FeedAfter(test, records, f, s[..|s| - 1]);
      var g := Feed(test, f, s[..|s| - 1]);
      if s[|s| - 1] == NEWLINE && g.complete != [] {
        Regroup(records, g.records, [DropLast(g.complete)]);
      }
    }
  }

  /** Where no finished line is pending, feeding goes on as if the stream began with the unfinished line. */
  lemma FeedFromReset(test: HeadTest, f: Framer, s: seq<byte>)
    requires f.WellFormed() && f.complete == []
    ensures var g := Feed(test, EMPTY, f.tail + s);
            Feed(test, f, s) == g.(records := f.records + g.records)
  {
    FeedConcat(test, EMPTY, f.tail, s);
    FeedPlain(test, EMPTY, f.tail);
    assert [] + f.tail == f.tail && f.records + [] == f.records;
    FeedAfter(test, f.records, Framer([], [], f.tail), s);
  }

  /** After a flush or an overflow the next record is the one not tested, and the only one that can be bad. */
  lemma CrashesIffAfterReset(f: Framer, s: seq<byte>, levels: seq<string>, clean: seq<byte> -> seq<byte>)
    requires |levels| == 8 && f.WellFormed() && f.complete == []
    ensures var records, n := Feed(HEADS, f, s).records, |f.records|;
            && n <= |records| && records[..n] == f.records
            && (SomeCrash(records[n..], levels, clean) <==> n < |records| && Bad(records[n]))
  {
    FeedFromReset(HEADS, f, s);
    var fed := Feed(HEADS, EMPTY, f.tail + s).records;
    FedRecords(f.tail + s);
    CrashIffFirstBad(fed, levels, clean);
    assert (f.records + fed)[|f.records|..] == fed;
  }

  /** A flush or an overflow itself only emits what passes the head test, and leaves no finished line. */
  lemma ResetsEmitHeads(f: Framer)
    ensures var after := [EndRecord(HEADS, f), EndStream(HEADS, f), Overflow(HEADS, f)];
            forall k | 0 <= k < 3 ::
              && after[k].complete == [] && |f.records| <= |after[k].records| && f.records <= after[k].records
              && forall i | |f.records| <= i < |after[k].records| :: !Bad(after[k].records[i])
  {
    forall s: seq<byte> | RecordStart(s) ensures !Bad(s) {
      assert [s][0] == s && OpensRecord(HEADS, [s]);
      HeadIsGood([s]);
    }
  }

  // A stream that does it

  lemma FeedLine(test: HeadTest, f: Framer, line: seq<byte>)
    requires NEWLINE !in line
    ensures Feed(test, f, line + [NEWLINE]) == EndLine(test, f.(tail := f.tail + line))
  {
    FeedPlain(test, f, line);
    assert (line + [NEWLINE])[..|line|] == line;
  }

  lemma TwoLines(test: HeadTest, a: seq<byte>, b: seq<byte>)
    requires a != [] && b != [] && NEWLINE !in a && NEWLINE !in b && test(b)
    ensures Feed(test, EMPTY, (a + [NEWLINE]) + (b + [NEWLINE])) == Framer([a], b + [NEWLINE], [])
  {
    FeedConcat(test, EMPTY, a + [NEWLINE], b + [NEWLINE]);
    FeedLine(test, EMPTY, a);
    assert [] + a == a && [] + b == b;
    FeedLine(test, Framer([], a + [NEWLINE], []), b);
    assert DropLast(a + [NEWLINE]) == a;
  }

  lemma ReadOnce(test: HeadTest, capacity: int, softLimit: int, data: seq<byte>)
    requires data != [] && capacity - |Feed(test, EMPTY, data).Pending()| >= softLimit
    ensures Undisturbed(test, capacity, softLimit, [Read(data)])
    ensures Run(test, capacity, softLimit, [Read(data)]) == Feed(test, EMPTY, data)
  {
    var ops := [Read(data)];
    assert ops[..0] == [] && Stream(ops[..0]) == [] && [] + data == data;
    assert Run(test, capacity, softLimit, ops[..0]) == EMPTY;
  }

  /** "< " and thirty letters. */
  const BAD_LINE: seq<byte> := [LESS_THAN, SPACE] + seq(30, _ => 97)
  /** "<13>1 " and letters. */
  const GOOD_LINE: seq<byte> := [LESS_THAN, 49, 51, GREATER_THAN, ONE, SPACE] + seq(26, _ => 98)

  lemma BadAndGood()
    ensures Bad(BAD_LINE) && NEWLINE !in BAD_LINE && |BAD_LINE| == 32
    ensures RecordStart(GOOD_LINE) && NEWLINE !in GOOD_LINE && |GOOD_LINE| == 32
  {
    assert GOOD_LINE[1..3] == [49, 51] && GOOD_LINE[3..6] == [GREATER_THAN, ONE, SPACE];
    assert PriEnds(GOOD_LINE, 2);
  }

  /** The bad line and then a line that passes the head test, read at once. */
  lemma TwoLinesCrash(capacity: int, softLimit: int, levels: seq<string>, clean: seq<byte> -> seq<byte>)
    requires |levels| == 8 && capacity - softLimit >= 33
    ensures var ops := [Read(BAD_LINE + [NEWLINE] + (GOOD_LINE + [NEWLINE]))];
            && Undisturbed(HEADS, capacity, softLimit, ops)
            && Run(HEADS, capacity, softLimit, ops).records == [BAD_LINE]
            && SomeCrash(Run(HEADS, capacity, softLimit, ops).records, levels, clean)
  {
    BadAndGood();
    TwoLines(HEADS, BAD_LINE, GOOD_LINE);
    ReadOnce(HEADS, capacity, softLimit, BAD_LINE + [NEWLINE] + (GOOD_LINE + [NEWLINE]));
    CrashIffFirstBad([BAD_LINE], levels, clean);
  }
}
