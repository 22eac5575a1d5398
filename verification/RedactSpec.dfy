/** Which parts of a text are taken for email addresses, and what replacing them makes of it: transform/tredactemail. */
module RedactSpec {
  import opened Bytes
  import opened Options

  const AT: byte := 64
  const DOT: byte := 46
  const DASH: byte := 45
  const UNDERSCORE: byte := 95
  const SLASH: byte := 47

  /** The table validWordChars. */
  predicate Word(c: byte) {
    65 <= c <= 90 || 97 <= c <= 122 || Digit(c)
  }

  /** The table validAddressChars. */
  predicate Address(c: byte) {
    Word(c) || c == DOT || c == DASH || c == UNDERSCORE
  }

  /** "REDACTED" */
  const REDACTED: seq<byte> := [82, 69, 68, 65, 67, 84, 69, 68]

  // Addresses

  /** An '@' between two word characters. */
  predicate Candidate(src: seq<byte>, at: nat) {
    0 < at < |src| - 1 && src[at] == AT && Word(src[at - 1]) && Word(src[at + 1])
  }

  /** Where the address characters before `end` begin, not looking before `limit`. */
  function SpanStart(src: seq<byte>, limit: nat, end: nat): (start: nat)
    requires limit <= end <= |src|
    ensures limit <= start <= end && forall i | start <= i < end :: Address(src[i])
    ensures start == limit || !Address(src[start - 1])
    decreases end
  {
    if end > limit && Address(src[end - 1]) then SpanStart(src, limit, end - 1) else end
  }

  /** Where the address characters from `start` on end. */
  function SpanEnd(src: seq<byte>, start: nat): (end: nat)
    requires start <= |src|
    ensures start <= end <= |src| && forall i | start <= i < end :: Address(src[i])
    ensures end == |src| || !Address(src[end])
    decreases |src| - start
  {
    if start < |src| && Address(src[start]) then SpanEnd(src, start + 1) else start
  }

  /** The first dot, or the end. */
  function FirstDot(src: seq<byte>, start: nat, end: nat): (dot: nat)
    requires start <= end <= |src|
    ensures start <= dot <= end && (dot < end ==> src[dot] == DOT) && forall i | start <= i < dot :: src[i] != DOT
    decreases end - start
  {
    if start < end && src[start] != DOT then FirstDot(src, start + 1, end) else start
  }

  /** Two characters or more, beginning and ending with a digit. */
  predicate NumberLike(s: seq<byte>) {
    |s| >= 2 && Digit(s[0]) && Digit(s[|s| - 1])
  }

  /** No '/' goes before the user name. */
  predicate GoodUser(src: seq<byte>, start: nat)
    requires start <= |src|
  {
    start == 0 || src[start - 1] != SLASH
  }

  /** The domain is cut off by the end of the text or has a dot with a word after it, and is no number. */
  predicate GoodDomain(src: seq<byte>, at: nat)
    requires at < |src|
  {
    var end := SpanEnd(src, at + 1);
    var dot := FirstDot(src, at + 1, end);
    && (dot == end ==> end == |src|)
    && (dot < end && dot + 1 < |src| ==> Word(src[dot + 1]))
    && !NumberLike(src[at + 1..end])
  }

  predicate Accepted(src: seq<byte>, at: nat, limit: nat) {
    Candidate(src, at) && limit <= at && GoodUser(src, SpanStart(src, limit, at)) && GoodDomain(src, at)
  }

  // Redaction

  /** An address is all address characters around its '@'. */
  datatype Interval = Interval(start: nat, at: nat, end: nat)

  function IntervalAt(src: seq<byte>, at: nat, limit: nat): Interval
    requires limit <= at < |src|
  {
    Interval(SpanStart(src, limit, at), at, SpanEnd(src, at + 1))
  }

  /** The addresses from `i` on; what is before `limit` belongs to the one before. */
  function Addresses(src: seq<byte>, i: nat, limit: nat): seq<Interval>
    requires limit <= i
    decreases |src| - i
  {
    if i >= |src| then []
    else if Accepted(src, i, limit) then
      var a := IntervalAt(src, i, limit);
      [a] + Addresses(src, a.end, a.end)
    else Addresses(src, i + 1, limit)
  }

  predicate InOrder(src: seq<byte>, intervals: seq<Interval>, from: nat)
    decreases intervals
  {
    if intervals == [] then from <= |src|
    else
      var a := intervals[0];
      from <= a.start <= a.at < a.end <= |src| && InOrder(src, intervals[1..], a.end)
  }

  function Replace(src: seq<byte>, intervals: seq<Interval>, from: nat): seq<byte>
    requires InOrder(src, intervals, from)
    decreases intervals
  {
    if intervals == [] then src[from..]
    else src[from..intervals[0].start] + REDACTED + Replace(src, intervals[1..], intervals[0].end)
  }

  lemma {:induction false} AddressesInOrder(src: seq<byte>, i: nat, limit: nat)
    requires limit <= i && limit <= |src|
    ensures InOrder(src, Addresses(src, i, limit), limit)
    decreases |src| - i
  {
    if i >= |src| {
    } else if Accepted(src, i, limit) {
      var a := IntervalAt(src, i, limit);
      AddressesInOrder(src, a.end, a.end);
      assert ([a] + Addresses(src, a.end, a.end))[1..] == Addresses(src, a.end, a.end);
    } else {
      AddressesInOrder(src, i + 1, limit);
    }
  }

  /** The redacted text from `limit` on, with addresses searched from `i` on. */
  function RedactFrom(src: seq<byte>, i: nat, limit: nat): seq<byte>
    requires limit <= i && limit <= |src|
  {
    AddressesInOrder(src, i, limit);
    Replace(src, Addresses(src, i, limit), limit)
  }

  /** An interval holds one '@' between word characters; all else in it are address characters. */
  ghost predicate WellFormed(src: seq<byte>, a: Interval) {
    && a.start <= a.at < a.end <= |src| && Candidate(src, a.at)
    && forall k | a.start <= k < a.end && k != a.at :: Address(src[k]) && src[k] != AT
  }

  lemma {:induction false} AddressesWellFormed(src: seq<byte>, i: nat, limit: nat)
    requires limit <= i
    ensures forall k | 0 <= k < |Addresses(src, i, limit)| :: WellFormed(src, Addresses(src, i, limit)[k])
    decreases |src| - i
  {
    if i >= |src| {
    } else if Accepted(src, i, limit) {
      var a := IntervalAt(src, i, limit);
      AddressesWellFormed(src, a.end, a.end);
    } else {
      AddressesWellFormed(src, i + 1, limit);
    }
  }

  /** Intervals do not overlap and come in the order of the text. */
  lemma {:induction false} OrderedPairs(src: seq<byte>, intervals: seq<Interval>, from: nat, k: nat)
    requires InOrder(src, intervals, from) && k < |intervals|
    ensures from <= intervals[k].start && (k > 0 ==> intervals[k - 1].end <= intervals[k].start)
    decreases k
  {
    if k > 0 {
      OrderedPairs(src, intervals[1..], intervals[0].end, k - 1);
      if k == 1 {
        assert intervals[1] == intervals[1..][0];
      }
    }
  }

  // No '@' is forgotten

  /** The end of the last interval that ends at or before `i`. */
  function LimitAt(intervals: seq<Interval>, from: nat, i: nat): nat
    decreases intervals
  {
    if intervals == [] || intervals[0].end > i then from else LimitAt(intervals[1..], intervals[0].end, i)
  }

  predicate Redacts(intervals: seq<Interval>, at: nat) {
    exists k :: 0 <= k < |intervals| && intervals[k].at == at
  }

  /** From `i` on, an '@' is redacted if and only if it is accepted where its turn comes. */
  lemma {:induction false} RedactedIffAccepted(src: seq<byte>, i: nat, limit: nat, at: nat)
    requires limit <= i <= at < |src| && src[at] == AT
    ensures var intervals := Addresses(src, i, limit);
            Redacts(intervals, at) <==> Accepted(src, at, LimitAt(intervals, limit, at))
    decreases |src| - i
  {
    var intervals := Addresses(src, i, limit);
    if Accepted(src, i, limit) {
      var a := IntervalAt(src, i, limit);
      var more := Addresses(src, a.end, a.end);
      assert intervals[1..] == more;
      if at == i {
        assert intervals[0].at == at;
        assert LimitAt(intervals, limit, at) == limit;
      } else {
        assert forall k | i < k < a.end :: src[k] != AT;
        RedactedIffAccepted(src, a.end, a.end, at);
        assert LimitAt(intervals, limit, at) == LimitAt(more, a.end, at);
        if Redacts(more, at) {
          var k :| 0 <= k < |more| && more[k].at == at;
          assert intervals[k + 1].at == at;
        }
        if Redacts(intervals, at) {
          var k :| 0 <= k < |intervals| && intervals[k].at == at;
          assert k > 0 && more[k - 1].at == at;
        }
      }
    } else if at == i {
      NothingBefore(src, i + 1, limit, i);
      LimitBefore(src, i + 1, limit, i);
    } else {
      RedactedIffAccepted(src, i + 1, limit, at);
    }
  }

  lemma {:induction false} NothingBefore(src: seq<byte>, i: nat, limit: nat, at: nat)
    requires limit <= i && at < i
    ensures !Redacts(Addresses(src, i, limit), at)
    decreases |src| - i
  {
    if i >= |src| {
    } else if Accepted(src, i, limit) {
      var a := IntervalAt(src, i, limit);
      NothingBefore(src, a.end, a.end, at);
      var intervals, more := Addresses(src, i, limit), Addresses(src, a.end, a.end);
      forall k | 0 <= k < |intervals| ensures intervals[k].at != at {
        if k > 0 {
          assert intervals[k] == more[k - 1];
        }
      }
    } else {
      NothingBefore(src, i + 1, limit, at);
    }
  }

  lemma {:induction false} LimitBefore(src: seq<byte>, i: nat, limit: nat, at: nat)
    requires limit <= at < i
    ensures LimitAt(Addresses(src, i, limit), limit, at) == limit
    decreases |src| - i
  {
    if i >= |src| {
    } else if Accepted(src, i, limit) {
    } else {
      LimitBefore(src, i + 1, limit, at);
    }
  }

  /** Every '@' of the text is either redacted or rejected for a reason; there is no third way. */
  lemma EveryAtDecided(src: seq<byte>, at: nat)
    requires at < |src| && src[at] == AT
    ensures var intervals := Addresses(src, 0, 0);
            Redacts(intervals, at) <==> Accepted(src, at, LimitAt(intervals, 0, at))
  {
    RedactedIffAccepted(src, 0, 0, at);
  }

  lemma RedactFromFound(src: seq<byte>, i: nat, limit: nat)
    requires limit <= i < |src| && Accepted(src, i, limit)
    ensures var a := IntervalAt(src, i, limit);
            && RedactFrom(src, i, limit) == src[limit..a.start] + REDACTED + RedactFrom(src, a.end, a.end)
            && |Addresses(src, i, limit)| == 1 + |Addresses(src, a.end, a.end)|
  {
  }

  lemma RedactFromSkip(src: seq<byte>, i: nat, j: nat, limit: nat)
    requires limit <= i <= j <= |src| && forall k | i <= k < j :: !Accepted(src, k, limit)
    ensures Addresses(src, i, limit) == Addresses(src, j, limit) && RedactFrom(src, i, limit) == RedactFrom(src, j, limit)
    decreases j - i
  {
    if i < j {
      RedactFromSkip(src, i + 1, j, limit);
    }
  }

  // Twice

  function Ats(s: seq<byte>): nat {
    if s == [] then 0 else (if s[0] == AT then 1 else 0) + Ats(s[1..])
  }

  lemma {:induction false} AtsAppend(a: seq<byte>, b: seq<byte>)
    ensures Ats(a + b) == Ats(a) + Ats(b)
  {
    if a == [] {
      assert a + b == b;
    } else {
      assert (a + b)[1..] == a[1..] + b;
      AtsAppend(a[1..], b);
    }
  }

  lemma {:induction false} NoAts(s: seq<byte>)
    requires forall i | 0 <= i < |s| :: s[i] != AT
    ensures Ats(s) == 0
  {
    if s != [] {
      NoAts(s[1..]);
    }
  }

  lemma OneAt(src: seq<byte>, a: Interval)
    requires WellFormed(src, a)
    ensures Ats(src[a.start..a.end]) == 1
  {
    var before, after := src[a.start..a.at], src[a.at + 1..a.end];
    NoAts(before);
    NoAts(after);
    assert src[a.start..a.end] == before + ([AT] + after);
    AtsAppend(before, [AT] + after);
    AtsAppend([AT], after);
    assert Ats([AT]) == 1 + Ats([]) by {
      assert [AT][1..] == [];
    }
  }

  lemma {:induction false} ReplaceAts(src: seq<byte>, intervals: seq<Interval>, from: nat)
    requires InOrder(src, intervals, from) && forall k | 0 <= k < |intervals| :: WellFormed(src, intervals[k])
    ensures Ats(Replace(src, intervals, from)) + |intervals| == Ats(src[from..])
    decreases |intervals|
  {
    if intervals != [] {
      var a := intervals[0];
      ReplaceAts(src, intervals[1..], a.end);
      OneAt(src, a);
      NoAts(REDACTED);
      var rest := Replace(src, intervals[1..], a.end);
      AtsAppend(src[from..a.start] + REDACTED, rest);
      AtsAppend(src[from..a.start], REDACTED);
      SplitAts(src, from, a.start, a.end);
    }
  }

  lemma SplitAts(src: seq<byte>, i: nat, j: nat, k: nat)
    requires i <= j <= k <= |src|
    ensures Ats(src[i..]) == Ats(src[i..j]) + Ats(src[j..k]) + Ats(src[k..])
  {
    assert src[i..] == src[i..j] + (src[j..k] + src[k..]);
    AtsAppend(src[i..j], src[j..k] + src[k..]);
    AtsAppend(src[j..k], src[k..]);
  }

  /** Redaction takes away exactly one '@' for each address, so it changes a text if and only if there is one. */
  lemma RedactionCountsAts(src: seq<byte>)
    ensures Ats(RedactFrom(src, 0, 0)) + |Addresses(src, 0, 0)| == Ats(src)
    ensures RedactFrom(src, 0, 0) == src <==> Addresses(src, 0, 0) == []
  {
    AddressesInOrder(src, 0, 0);
    AddressesWellFormed(src, 0, 0);
    ReplaceAts(src, Addresses(src, 0, 0), 0);
    assert src[0..] == src;
  }

  /** Redacting twice is redacting once if and only if the first pass left no address to be found. */
  lemma IdempotentIff(src: seq<byte>)
    ensures var once := RedactFrom(src, 0, 0);
            RedactFrom(once, 0, 0) == once <==> forall at | 0 <= at < |once| :: !Accepted(once, at, 0)
  {
    var once := RedactFrom(src, 0, 0);
    RedactionCountsAts(once);
    NoneFoundIff(once, 0);
  }

  lemma {:induction false} NoneFoundIff(src: seq<byte>, i: nat)
    ensures Addresses(src, i, 0) == [] <==> forall at | i <= at < |src| :: !Accepted(src, at, 0)
    decreases |src| - i
  {
    if i < |src| && !Accepted(src, i, 0) {
      NoneFoundIff(src, i + 1);
    }
  }

  /** A rejected '@' can come to follow the replacement, as in "a@b.c.@d.e". */
  lemma NotIdempotent()
    ensures var src: seq<byte> := [97, AT, 98, DOT, 99, DOT, AT, 100, DOT, 101];
            RedactFrom(src, 0, 0) == REDACTED + [AT, 100, DOT, 101]
            && RedactFrom(RedactFrom(src, 0, 0), 0, 0) == REDACTED != RedactFrom(src, 0, 0)
  {
    FirstPass([97, AT, 98, DOT, 99, DOT, AT, 100, DOT, 101]);
    SecondPass(REDACTED + [AT, 100, DOT, 101]);
  }

  lemma FirstPass(src: seq<byte>)
    requires src == [97, AT, 98, DOT, 99, DOT, AT, 100, DOT, 101]
    ensures RedactFrom(src, 0, 0) == REDACTED + [AT, 100, DOT, 101]
  {
    SpanIs(src, 2, 6);
    assert FirstDot(src, 2, 6) == 3;
    assert Accepted(src, 1, 0) && IntervalAt(src, 1, 0) == Interval(0, 1, 6);
    RedactFromSkip(src, 0, 1, 0);
    RedactFromFound(src, 1, 0);
    RedactFromSkip(src, 6, 10, 6);
    assert src[0..0] == [] && src[6..] == [AT, 100, DOT, 101];
  }

  lemma SecondPass(src: seq<byte>)
    requires src == REDACTED + [AT, 100, DOT, 101]
    ensures RedactFrom(src, 0, 0) == REDACTED
  {
    assert |REDACTED| == 8;
    SpanIs(src, 9, 12);
    StartIs(src, 0, 8);
    assert FirstDot(src, 9, 12) == 10;
    assert Accepted(src, 8, 0) && IntervalAt(src, 8, 0) == Interval(0, 8, 12);
    RedactFromSkip(src, 0, 8, 0);
    RedactFromFound(src, 8, 0);
    RedactFromSkip(src, 12, 12, 12);
    assert src[0..0] == [] && src[12..] == [] && REDACTED + [] == REDACTED;
  }

  lemma {:induction false} SpanIs(src: seq<byte>, start: nat, end: nat)
    requires start <= end <= |src| && (forall i | start <= i < end :: Address(src[i]))
    requires end == |src| || !Address(src[end])
    ensures SpanEnd(src, start) == end
    decreases end - start
  {
  }

  lemma {:induction false} StartIs(src: seq<byte>, start: nat, end: nat)
    requires start <= end <= |src| && (forall i | start <= i < end :: Address(src[i]))
    ensures SpanStart(src, start, end) == start
    decreases end - start
  {
  }
}
