/** The multi-line record reader over a preallocated buffer: input/tcplistener/multilinereader.go. */
module MultiLineReader {
  import opened Bytes
  import Spec = MultiLineSpec

  class MultiLineReader {
    const test: Spec.HeadTest
    const softRecordLimit: int
    const buffer: array<byte>
    var offsetSearch: nat
    var offsetAppend: nat
    var consumed: seq<seq<byte>>  // what the consumer callback has received

    constructor (test: Spec.HeadTest, minBufferSize: int, softRecordLimit: int)
      requires minBufferSize >= 0 || softRecordLimit >= 0
      ensures Valid() && View() == Spec.EMPTY && fresh(buffer)
      ensures this.test == test && this.softRecordLimit == softRecordLimit
      ensures buffer.Length == if minBufferSize > softRecordLimit * 3 then minBufferSize else softRecordLimit * 3
    {
      this.test := test;
      this.softRecordLimit := softRecordLimit;
      var size := if minBufferSize > softRecordLimit * 3 then minBufferSize else softRecordLimit * 3;
      buffer := new byte[size];
      offsetSearch, offsetAppend, consumed := 0, 0, [];
    }

    /** The search offset is one past the last newline of the pending bytes, or 0. */
    ghost predicate Consistent()
      reads this, buffer
    {
      && offsetSearch <= offsetAppend <= buffer.Length
      && (offsetSearch > 0 ==> buffer[offsetSearch - 1] == NEWLINE)
      && (forall k | offsetSearch <= k < offsetAppend :: buffer[k] != NEWLINE)
    }

    /** Between calls there is room for one more record of the soft limit. */
    ghost predicate Valid()
      reads this, buffer
    {
      && Consistent()
      && buffer.Length >= softRecordLimit
      && buffer.Length - offsetAppend >= softRecordLimit
    }

    ghost function View(): Spec.Framer
      requires offsetSearch <= offsetAppend <= buffer.Length
      reads this, buffer
    {
      Spec.Framer(consumed, buffer[..offsetSearch], buffer[offsetSearch..offsetAppend])
    }

    /** Takes in one block; `data` is what the underlying reader delivered. */
    method Read(data: seq<byte>)
      requires Valid() && offsetAppend + |data| <= buffer.Length
      modifies this, buffer
      ensures Valid()
      ensures View() == Spec.Apply(test, buffer.Length, softRecordLimit, old(View()), Spec.Read(data))
    {
      ghost var pending := buffer[..offsetAppend];
      CopyInto(buffer, offsetAppend, data);
      assert buffer[..offsetAppend + |data|] == pending + data;
      assert forall k | 0 <= k < offsetAppend :: buffer[k] == pending[k];
      assert buffer[..offsetSearch] == pending[..offsetSearch];
      assert buffer[offsetSearch..offsetAppend] == pending[offsetSearch..];
      assert View() == old(View());
      if |data| > 0 {
        ProcessBuffer(offsetAppend + |data|, data);
      }
    }

    method Flush()
      requires Valid()
      modifies this, buffer
      ensures Valid()
      ensures View() == Spec.EndRecord(test, old(View()))
    {
      var pending := buffer[..offsetAppend];
      var n := LastIndexByte(pending, NEWLINE);
      if n == -1 {
        return;
      }
      assert n + 1 == offsetSearch;
      var record := pending[..n];
      assert record == Spec.DropLast(View().complete) && pending[n + 1..] == View().tail;
      if |record| > 0 && test(record) {
        consumed := consumed + [record];
      }
      CopyInto(buffer, 0, pending[n + 1..]);
      offsetAppend := |pending| - n - 1;
      offsetSearch := 0;
      assert buffer[..offsetAppend] == pending[n + 1..];
      assert forall k | 0 <= k < offsetAppend :: buffer[k] == pending[n + 1 + k];
    }

    method FlushAll()
      requires Valid()
      modifies this
      ensures Valid()
      ensures View() == Spec.EndStream(test, old(View()))
    {
      var record := buffer[..offsetAppend];
      assert record == View().Pending();
      if |record| > 0 {
        if record[|record| - 1] == NEWLINE {
          record := record[..|record| - 1];
        }
        if test(record) {
          consumed := consumed + [record];
        }
      }
      offsetAppend := 0;
      offsetSearch := 0;
    }

    /** Consumes every record that a later line has ended; the bytes from the append offset on are new. */
    method ProcessBuffer(bufferEnd: nat, ghost data: seq<byte>)
      requires Consistent() && buffer.Length >= softRecordLimit
      requires offsetAppend <= bufferEnd <= buffer.Length && data == buffer[offsetAppend..bufferEnd]
      modifies this, buffer
      ensures Valid()
      ensures View() == Spec.Settle(test, buffer.Length, softRecordLimit, Spec.Feed(test, old(View()), data))
    {
      var buf := buffer[..bufferEnd];
      Spec.ScanFeeds(test, buf, consumed, 0, offsetSearch, offsetAppend);
      assert View() == Spec.Framer(consumed, buf[0..offsetSearch], buf[offsetSearch..offsetAppend]);
      assert buf[offsetAppend..] == data;
      var recordStart, searchStart := ConsumeEnded(buf);
      Relocate(buf, recordStart, searchStart);
      CheckOverflow();
    }

    /** The scan loop: each line that passes the head test ends the record before it. */
    method ConsumeEnded(buf: seq<byte>) returns (recordStart: nat, searchStart: nat)
      requires offsetSearch <= offsetAppend <= |buf| && (offsetSearch > 0 ==> buf[offsetSearch - 1] == NEWLINE)
      requires Free(buf, NEWLINE, offsetSearch, offsetAppend)
      modifies this`consumed
      ensures recordStart <= searchStart <= |buf| && Free(buf, NEWLINE, searchStart, |buf|)
      ensures recordStart == searchStart ==> searchStart == 0
      ensures searchStart > 0 ==> buf[searchStart - 1] == NEWLINE
      ensures Spec.Framer(consumed, buf[recordStart..searchStart], buf[searchStart..])
              == Spec.Scan(test, buf, old(consumed), 0, offsetSearch, offsetAppend)
    {
      recordStart, searchStart := 0, offsetSearch;
      Spec.ScanSkips(test, buf, consumed, 0, offsetSearch, offsetSearch, offsetAppend);
      while true
        invariant recordStart <= searchStart <= |buf|
        invariant recordStart == searchStart ==> searchStart == 0
        invariant searchStart > 0 ==> buf[searchStart - 1] == NEWLINE
        invariant Spec.Scan(test, buf, consumed, recordStart, searchStart, searchStart)
                  == Spec.Scan(test, buf, old(consumed), 0, offsetSearch, offsetAppend)
        decreases |buf| - searchStart
      {
        var nextEnd := IndexByte(buf, NEWLINE, searchStart);
        if nextEnd == -1 {
          break;
        }
        Spec.ScanSkips(test, buf, consumed, recordStart, searchStart, searchStart, nextEnd);
        // the first line opens the record whatever it is
        if searchStart > 0 && searchStart < nextEnd {
          if test(buf[searchStart..nextEnd]) {
            consumed := consumed + [buf[recordStart..searchStart - 1]];
            recordStart := searchStart;
          }
        }
        searchStart := nextEnd + 1;
      }
      Spec.ScanSkips(test, buf, consumed, recordStart, searchStart, searchStart, |buf|);
    }

    /** Moves the unfinished record to the beginning of the buffer. */
    method Relocate(buf: seq<byte>, recordStart: nat, searchStart: nat)
      requires |buf| <= buffer.Length && buf == buffer[..|buf|]
      requires recordStart <= searchStart <= |buf| && Free(buf, NEWLINE, searchStart, |buf|)
      requires recordStart == searchStart ==> searchStart == 0
      requires searchStart > 0 ==> buf[searchStart - 1] == NEWLINE
      modifies this`offsetAppend, this`offsetSearch, buffer
      ensures Consistent()
      ensures View() == Spec.Framer(consumed, buf[recordStart..searchStart], buf[searchStart..])
    {
      var kept := buf[recordStart..];
      CutKept(buf, recordStart, searchStart);
      if recordStart > 0 {
        CopyInto(buffer, 0, kept);
        assert buffer[..|kept|] == kept;
      }
      offsetAppend := |buf| - recordStart;
      offsetSearch := searchStart - recordStart;
      assert buffer[..offsetAppend] == kept;
      KeptView(kept);
    }

    /** What the buffer holds is what was kept. */
    lemma KeptView(kept: seq<byte>)
      requires offsetSearch <= offsetAppend == |kept| <= buffer.Length && buffer[..offsetAppend] == kept
      requires (offsetSearch > 0 ==> kept[offsetSearch - 1] == NEWLINE) && Free(kept, NEWLINE, offsetSearch, |kept|)
      ensures Consistent() && View() == Spec.Framer(consumed, kept[..offsetSearch], kept[offsetSearch..])
    {
    }

    method CheckOverflow()
      requires Consistent() && buffer.Length >= softRecordLimit
      modifies this
      ensures Valid()
      ensures View() == Spec.Settle(test, buffer.Length, softRecordLimit, old(View()))
    {
      var pending := buffer[..offsetAppend];
      ghost var f := View();
      assert pending == f.Pending() && pending[offsetSearch..] == f.tail;
      assert offsetSearch > 0 ==> pending[..offsetSearch - 1] == Spec.DropLast(f.complete);
      if buffer.Length - offsetAppend >= softRecordLimit {
        return;
      }
      if offsetSearch > 0 && test(pending[offsetSearch..]) {
        if test(pending[..offsetSearch - 1]) {
          consumed := consumed + [pending[..offsetSearch - 1]];
        }
        consumed := consumed + [pending[offsetSearch..]];
      } else if test(pending) {
        consumed := consumed + [pending];
      }
      offsetAppend := 0;
      offsetSearch := 0;
    }
  }

  lemma CutKept(buf: seq<byte>, recordStart: nat, searchStart: nat)
    requires recordStart <= searchStart <= |buf|
    ensures buf[recordStart..][..searchStart - recordStart] == buf[recordStart..searchStart]
    ensures buf[recordStart..][searchStart - recordStart..] == buf[searchStart..]
    ensures Free(buf, NEWLINE, searchStart, |buf|) ==> Free(buf[recordStart..], NEWLINE, searchStart - recordStart, |buf| - recordStart)
  {
  }
}
