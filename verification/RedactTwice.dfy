/** When redacting a second time finds more, told by the text and the addresses of the first pass: transform/tredactemail. */
module RedactTwice {
  import opened Bytes
  import opened RedactSpec

  // The spans, pinned down

  lemma {:induction false} SpanStartIs(src: seq<byte>, limit: nat, end: nat, start: nat)
    requires limit <= start <= end <= |src| && (forall i | start <= i < end :: Address(src[i]))
    requires start == limit || !Address(src[start - 1])
    ensures SpanStart(src, limit, end) == start
    decreases end - start
  {
    if start < end {
      SpanStartIs(src, limit, end - 1, start);
    }
  }

  lemma {:induction false} FirstDotIs(src: seq<byte>, start: nat, end: nat, dot: nat)
    requires start <= dot <= end <= |src| && (dot < end ==> src[dot] == DOT)
    requires forall i | start <= i < dot :: src[i] != DOT
    ensures FirstDot(src, start, end) == dot
    decreases dot - start
  {
    if start < dot {
      FirstDotIs(src, start + 1, end, dot);
    }
  }

  /** The user name at the end of a text that an '@' is to follow has no '/' before it. */
  predicate UserOk(text: seq<byte>) {
    GoodUser(text, SpanStart(text, 0, |text|))
  }

  /** The domain at the beginning of a text that follows an '@' is good. */
  predicate DomainOk(text: seq<byte>) {
    var end := SpanEnd(text, 0);
    var dot := FirstDot(text, 0, end);
    && (dot == end ==> end == |text|)
    && (dot < end && dot + 1 < |text| ==> Word(text[dot + 1]))
    && !NumberLike(text[..end])
  }

  lemma UserShift(before: seq<byte>, text: seq<byte>, limit: nat)
    requires limit <= |before| && before <= text
    ensures SpanStart(text, limit, |before|) == SpanStart(before, limit, |before|)
    ensures GoodUser(text, SpanStart(text, limit, |before|)) <==> GoodUser(before, SpanStart(before, limit, |before|))
  {
    var start := SpanStart(before, limit, |before|);
    assert forall i | 0 <= i < |before| :: text[i] == before[i];
    SpanStartIs(text, limit, |before|, start);
  }

  lemma DomainShift(text: seq<byte>, at: nat)
    requires at < |text|
    ensures GoodDomain(text, at) <==> DomainOk(text[at + 1..])
  {
    var after := text[at + 1..];
    var end := SpanEnd(after, 0);
    var dot := FirstDot(after, 0, end);
    forall i | at + 1 <= i < at + 1 + end ensures Address(text[i]) && (i < at + 1 + dot ==> text[i] != DOT) {
      assert text[i] == after[i - at - 1];
    }
    SpanIs(text, at + 1, at + 1 + end);
    FirstDotIs(text, at + 1, at + 1 + end, at + 1 + dot);
    assert text[at + 1..at + 1 + end] == after[..end];
  }

  /** Only what goes up to the first character that is in no address matters. */
  lemma DomainByPrefix(a: seq<byte>, b: seq<byte>, stop: nat)
    requires stop < |a| && stop < |b| && a[..stop + 1] == b[..stop + 1] && !Address(a[stop])
    ensures DomainOk(a) <==> DomainOk(b)
  {
    var end := SpanEnd(a, 0);
    assert forall i | 0 <= i <= stop :: a[i] == a[..stop + 1][i] == b[..stop + 1][i] == b[i];
    assert end <= stop;
    SpanIs(b, 0, end);
    FirstDotIs(b, 0, end, FirstDot(a, 0, end));
    assert a[..end] == b[..end];
  }

  lemma DomainOfPrefix(first: seq<byte>, a: seq<byte>, b: seq<byte>)
    requires first != [] && !Address(first[|first| - 1])
    ensures DomainOk(first + a) <==> DomainOk(first + b)
  {
    assert (first + a)[..|first|] == first == (first + b)[..|first|];
    DomainByPrefix(first + a, first + b, |first| - 1);
  }

  lemma AcceptedByParts(text: seq<byte>, at: nat)
    requires at < |text| && text[at] == AT
    ensures Accepted(text, at, 0)
            <==> 0 < at < |text| - 1 && Word(text[at - 1]) && Word(text[at + 1]) && UserOk(text[..at]) && DomainOk(text[at + 1..])
  {
    UserShift(text[..at], text, 0);
    DomainShift(text, at);
  }

  predicate AddressBetween(before: seq<byte>, after: seq<byte>) {
    && before != [] && Word(before[|before| - 1]) && UserOk(before)
    && after != [] && Word(after[0]) && DomainOk(after)
  }

  lemma AcceptedBetween(before: seq<byte>, after: seq<byte>)
    ensures Accepted(before + ([AT] + after), |before|, 0) <==> AddressBetween(before, after)
  {
    var all := before + ([AT] + after);
    assert all[..|before|] == before && all[|before| + 1..] == after;
    assert before != [] ==> all[|before| - 1] == before[|before| - 1];
    assert after != [] ==> all[|before| + 1] == after[0];
    AcceptedByParts(all, |before|);
  }

  // What is next to the intervals

  /** No address character touches an interval from outside, and no '/' goes before it. */
  predicate Bounded(src: seq<byte>, intervals: seq<Interval>, from: nat)
    requires InOrder(src, intervals, from)
    decreases intervals
  {
    intervals == [] ||
    var a := intervals[0];
    && (a.start == from || (!Address(src[a.start - 1]) && src[a.start - 1] != SLASH))
    && (a.end == |src| || !Address(src[a.end])) && src[a.end - 1] != SLASH
    && Bounded(src, intervals[1..], a.end)
  }

  lemma {:induction false} AddressesBounded(src: seq<byte>, i: nat, limit: nat)
    requires limit <= i && limit <= |src|
    ensures InOrder(src, Addresses(src, i, limit), limit) && Bounded(src, Addresses(src, i, limit), limit)
    decreases |src| - i
  {
    AddressesInOrder(src, i, limit);
    if i >= |src| {
    } else if Accepted(src, i, limit) {
      var a := IntervalAt(src, i, limit);
      AddressesBounded(src, a.end, a.end);
      assert ([a] + Addresses(src, a.end, a.end))[1..] == Addresses(src, a.end, a.end);
    } else {
      AddressesBounded(src, i + 1, limit);
    }
  }

  // Cutting the text at an '@' that is in no interval

  /** The first `k` intervals end at or before `p`, the others start behind it. */
  predicate Cuts(intervals: seq<Interval>, k: nat, p: nat)
    decreases k
  {
    if k == 0 then intervals == [] || p < intervals[0].start
    else intervals != [] && intervals[0].end <= p && Cuts(intervals[1..], k - 1, p)
  }

  lemma {:induction false} CutSlices(intervals: seq<Interval>, k: nat, p: nat)
    requires Cuts(intervals, k, p)
    ensures k <= |intervals|
    ensures k > 0 ==> intervals[..k][1..] == intervals[1..][..k - 1] && intervals[1..][k - 1..] == intervals[k..]
    ensures k > 0 ==> intervals[..k] != [] && intervals[..k][0] == intervals[0]
    ensures k == 0 ==> intervals[..k] == [] && intervals[k..] == intervals
    decreases k
  {
    if k > 0 {
      CutSlices(intervals[1..], k - 1, p);
    }
  }

  lemma {:induction false} CutInOrder(src: seq<byte>, intervals: seq<Interval>, from: nat, p: nat, k: nat)
    requires InOrder(src, intervals, from) && from <= p < |src| && Cuts(intervals, k, p)
    ensures k <= |intervals| && InOrder(src[..p], intervals[..k], from) && InOrder(src, intervals[k..], p + 1)
    decreases k
  {
    CutSlices(intervals, k, p);
    if k > 0 {
      CutInOrder(src, intervals[1..], intervals[0].end, p, k - 1);
    }
  }

  lemma {:induction false} BoundedBefore(src: seq<byte>, intervals: seq<Interval>, from: nat, p: nat, k: nat)
    requires InOrder(src, intervals, from) && Bounded(src, intervals, from) && from <= p < |src| && Cuts(intervals, k, p)
    requires k <= |intervals| && InOrder(src[..p], intervals[..k], from)
    ensures Bounded(src[..p], intervals[..k], from)
    decreases k
  {
    CutSlices(intervals, k, p);
    if k > 0 {
      BoundedBefore(src, intervals[1..], intervals[0].end, p, k - 1);
    }
  }

  lemma BoundedFrom(src: seq<byte>, intervals: seq<Interval>, from: nat, later: nat)
    requires InOrder(src, intervals, from) && Bounded(src, intervals, from) && InOrder(src, intervals, later)
    requires from < later
    ensures Bounded(src, intervals, later)
  {
  }

  lemma {:induction false} BoundedBehind(src: seq<byte>, intervals: seq<Interval>, from: nat, p: nat, k: nat)
    requires InOrder(src, intervals, from) && Bounded(src, intervals, from) && from <= p < |src| && Cuts(intervals, k, p)
    requires k <= |intervals| && InOrder(src, intervals[k..], p + 1)
    ensures Bounded(src, intervals[k..], p + 1)
    decreases k
  {
    CutSlices(intervals, k, p);
    if k == 0 {
      BoundedFrom(src, intervals, from, p + 1);
    } else {
      BoundedBehind(src, intervals[1..], intervals[0].end, p, k - 1);
    }
  }

  lemma ReplaceFirst(src: seq<byte>, p: nat, intervals: seq<Interval>, from: nat)
    requires p <= |src| && InOrder(src[..p], intervals, from) && intervals != []
    ensures Replace(src[..p], intervals, from)
            == (src[from..intervals[0].start] + REDACTED) + Replace(src[..p], intervals[1..], intervals[0].end)
  {
    assert src[..p][from..intervals[0].start] == src[from..intervals[0].start];
  }

  lemma CutAround(src: seq<byte>, from: nat, p: nat, end: nat)
    requires from <= p < end <= |src|
    ensures src[from..end] == src[..p][from..] + ([src[p]] + src[p + 1..end])
  {
  }

  /** The text from `from` on, cut at `p`, with nothing replaced before the cut. */
  lemma CutUnreplaced(src: seq<byte>, intervals: seq<Interval>, from: nat, p: nat)
    requires InOrder(src, intervals, from) && from <= p < |src| && InOrder(src, intervals, p + 1)
    ensures Replace(src, intervals, from) == src[..p][from..] + ([src[p]] + Replace(src, intervals, p + 1))
  {
    if intervals != [] {
      var start := intervals[0].start;
      var rest := REDACTED + Replace(src, intervals[1..], intervals[0].end);
      CutAround(src, from, p, start);
      Regroup(src[from..start], REDACTED, Replace(src, intervals[1..], intervals[0].end));
      Regroup(src[p + 1..start], REDACTED, Replace(src, intervals[1..], intervals[0].end));
      Regroup([src[p]], src[p + 1..start], rest);
      Regroup(src[..p][from..], [src[p]] + src[p + 1..start], rest);
    } else {
      CutAround(src, from, p, |src|);
      assert src[from..] == src[from..|src|] && src[p + 1..] == src[p + 1..|src|];
    }
  }

  /** The redacted text is the redacted text before, the '@', and the redacted text behind. */
  lemma {:induction false} CutReplaced(src: seq<byte>, intervals: seq<Interval>, from: nat, p: nat, k: nat)
    requires InOrder(src, intervals, from) && from <= p < |src| && Cuts(intervals, k, p)
    requires k <= |intervals| && InOrder(src[..p], intervals[..k], from) && InOrder(src, intervals[k..], p + 1)
    ensures Replace(src, intervals, from)
            == Replace(src[..p], intervals[..k], from) + ([src[p]] + Replace(src, intervals[k..], p + 1))
    decreases k
  {
    CutSlices(intervals, k, p);
    if k == 0 {
      CutUnreplaced(src, intervals, from, p);
    } else {
      var a, rest := intervals[0], intervals[1..];
      CutReplaced(src, rest, a.end, p, k - 1);
      ReplaceFirst(src, p, intervals[..k], from);
      Regroup(src[from..a.start] + REDACTED, Replace(src[..p], rest[..k - 1], a.end),
              [src[p]] + Replace(src, rest[k - 1..], p + 1));
    }
  }

  /** Every '@' of the redacted text comes from an '@' that is in no interval. */
  lemma {:induction false} Origin(src: seq<byte>, intervals: seq<Interval>, from: nat, q: nat) returns (p: nat, k: nat)
    requires InOrder(src, intervals, from)
    requires q < |Replace(src, intervals, from)| && Replace(src, intervals, from)[q] == AT
    ensures from <= p < |src| && src[p] == AT && Cuts(intervals, k, p)
    ensures k <= |intervals| && InOrder(src[..p], intervals[..k], from)
    ensures q == |Replace(src[..p], intervals[..k], from)|
    decreases intervals
  {
    if intervals == [] || q < intervals[0].start - from {
      p, k := from + q, 0;
      assert intervals[..0] == [];
    } else {
      var a, rest := intervals[0], intervals[1..];
      var n := |src[from..a.start] + REDACTED|;
      NoAtInside(src[from..a.start], Replace(src, rest, a.end), q);
      p, k := Origin(src, rest, a.end, q - n);
      k := k + 1;
      CutSlices(intervals, k, p);
      CutInOrder(src, intervals, from, p, k);
      ReplaceFirst(src, p, intervals[..k], from);
    }
  }

  lemma NoAtInside(before: seq<byte>, after: seq<byte>, q: nat)
    requires |before| <= q < |before + REDACTED + after| && (before + REDACTED + after)[q] == AT
    ensures |before + REDACTED| <= q && after[q - |before + REDACTED|] == AT
  {
    assert forall i | 0 <= i < |REDACTED| :: (before + REDACTED + after)[|before| + i] == REDACTED[i] != AT;
  }

  lemma {:induction false} StartsAscend(src: seq<byte>, intervals: seq<Interval>, from: nat, m: nat)
    requires InOrder(src, intervals, from) && m < |intervals|
    ensures intervals[0].start <= intervals[m].start
    decreases m
  {
    if m > 0 {
      OrderedPairs(src, intervals[1..], intervals[0].end, m - 1);
    }
  }

  // What goes before it

  function LastEnd(intervals: seq<Interval>, from: nat): nat {
    if intervals == [] then from else LastEnd(intervals[1..], intervals[0].end)
  }

  lemma {:induction false} LastEndBounds(src: seq<byte>, intervals: seq<Interval>, from: nat)
    requires InOrder(src, intervals, from)
    ensures from <= LastEnd(intervals, from) <= |src|
    ensures LastEnd(intervals, from) == if intervals == [] then from else intervals[|intervals| - 1].end
    decreases intervals
  {
    if intervals != [] {
      LastEndBounds(src, intervals[1..], intervals[0].end);
    }
  }

  lemma {:induction false} LimitIsLastEnd(intervals: seq<Interval>, from: nat, p: nat, k: nat, src: seq<byte>)
    requires InOrder(src, intervals, from) && Cuts(intervals, k, p) && k <= |intervals|
    ensures LimitAt(intervals, from, p) == LastEnd(intervals[..k], from)
    decreases k
  {
    CutSlices(intervals, k, p);
    if k > 0 {
      LimitIsLastEnd(intervals[1..], intervals[0].end, p, k - 1, src);
    }
  }

  lemma UserWithin(text: seq<byte>, n: nat)
    requires n <= |text| && SpanStart(text[n..], 0, |text| - n) > 0
    ensures UserOk(text) <==> UserOk(text[n..])
  {
    var rest := text[n..];
    assert forall i | n <= i < |text| :: text[i] == rest[i - n];
    SpanStartIs(text, 0, |text|, n + SpanStart(rest, 0, |rest|));
  }

  lemma UserFromThere(text: seq<byte>, n: nat)
    requires n <= |text| && forall i | n <= i < |text| :: Address(text[i])
    requires n > 0 ==> !Address(text[n - 1]) && text[n - 1] != SLASH
    ensures UserOk(text)
  {
    SpanStartIs(text, 0, |text|, n);
  }

  lemma UserAfter(text: seq<byte>, from: nat)
    requires from <= |text| && (from == 0 || text[from - 1] != SLASH)
    ensures UserOk(text[from..]) <==> GoodUser(text, SpanStart(text, from, |text|))
  {
    var rest := text[from..];
    var start := SpanStart(text, from, |text|) - from;
    forall i | start <= i < |rest| ensures Address(rest[i]) {
      assert rest[i] == text[from + i];
    }
    assert start > 0 ==> rest[start - 1] == text[from + start - 1];
    SpanStartIs(rest, 0, |rest|, start);
  }

  lemma UserAcross(first: seq<byte>, rest: seq<byte>)
    requires first != [] ==> !Address(first[|first| - 1]) && first[|first| - 1] != SLASH
    ensures UserOk(first + REDACTED + rest) <==> UserOk(rest)
  {
    var all, n := first + REDACTED + rest, |first| + |REDACTED|;
    assert all[n..] == rest && all[..n] == first + REDACTED;
    if SpanStart(rest, 0, |rest|) > 0 {
      UserWithin(all, n);
    } else {
      forall i | |first| <= i < |all| ensures Address(all[i]) {
        if i < n {
          assert all[i] == REDACTED[i - |first|];
        } else {
          assert all[i] == rest[i - n];
        }
      }
      assert first != [] ==> all[|first| - 1] == first[|first| - 1];
      UserFromThere(all, |first|);
    }
  }

  /** The user name may reach over replaced addresses, but it does not get a '/' before it by that, nor lose one. */
  lemma {:induction false} UserUnchanged(text: seq<byte>, intervals: seq<Interval>, from: nat)
    requires InOrder(text, intervals, from) && Bounded(text, intervals, from)
    requires from == 0 || text[from - 1] != SLASH
    ensures LastEnd(intervals, from) <= |text|
    ensures UserOk(Replace(text, intervals, from))
            <==> GoodUser(text, SpanStart(text, LastEnd(intervals, from), |text|))
    decreases intervals
  {
    LastEndBounds(text, intervals, from);
    if intervals == [] {
      UserAfter(text, from);
    } else {
      var a := intervals[0];
      var first := text[from..a.start];
      UserUnchanged(text, intervals[1..], a.end);
      assert first != [] ==> first[|first| - 1] == text[a.start - 1];
      UserAcross(first, Replace(text, intervals[1..], a.end));
    }
  }

  // What comes behind it

  /** The intervals follow each other without a gap, from `from` to the end of the text. */
  predicate Tiles(intervals: seq<Interval>, from: nat, end: nat) {
    if intervals == [] then from == end
    else intervals[0].start == from && Tiles(intervals[1..], intervals[0].end, end)
  }

  lemma RowStep(rest: seq<byte>)
    requires forall i | 0 <= i < SpanEnd(rest, 0) :: rest[i] != DOT
    ensures SpanEnd(REDACTED + rest, 0) == |REDACTED| + SpanEnd(rest, 0)
    ensures forall i | 0 <= i < SpanEnd(REDACTED + rest, 0) :: (REDACTED + rest)[i] != DOT
  {
    var all, end := REDACTED + rest, |REDACTED| + SpanEnd(rest, 0);
    forall i | 0 <= i < end ensures Address(all[i]) && all[i] != DOT {
      if i >= |REDACTED| {
        assert all[i] == rest[i - |REDACTED|];
      }
    }
    assert end < |all| ==> all[end] == rest[end - |REDACTED|];
    SpanIs(all, 0, end);
  }

  /** Behind an address, all that is not in a gapless row of addresses ends a domain. */
  lemma {:induction false} RowOfAddresses(src: seq<byte>, intervals: seq<Interval>, from: nat)
    requires InOrder(src, intervals, from) && Bounded(src, intervals, from)
    requires from == |src| || !Address(src[from]) || (intervals != [] && intervals[0].start == from)
    ensures var text := Replace(src, intervals, from);
            && (forall i | 0 <= i < SpanEnd(text, 0) :: text[i] != DOT)
            && (SpanEnd(text, 0) == |text| <==> Tiles(intervals, from, |src|))
    decreases intervals
  {
    if intervals != [] && intervals[0].start == from {
      RowOfAddresses(src, intervals[1..], intervals[0].end);
      RowStep(Replace(src, intervals[1..], intervals[0].end));
      ReplaceAdjacent(src, intervals, from);
    } else {
      FirstOf(src, intervals, from);
      SpanIs(Replace(src, intervals, from), 0, 0);
    }
  }

  lemma ReplaceAdjacent(src: seq<byte>, intervals: seq<Interval>, from: nat)
    requires InOrder(src, intervals, from) && intervals != [] && intervals[0].start == from
    ensures Replace(src, intervals, from) == REDACTED + Replace(src, intervals[1..], intervals[0].end)
  {
    assert src[from..from] == [];
  }

  /** A domain that a replaced address begins is good exactly if only addresses follow, up to the end of the text. */
  lemma DomainOfAddresses(src: seq<byte>, intervals: seq<Interval>, from: nat)
    requires InOrder(src, intervals, from) && Bounded(src, intervals, from) && intervals != [] && intervals[0].start == from
    ensures DomainOk(Replace(src, intervals, from)) <==> Tiles(intervals, from, |src|)
  {
    RowOfAddresses(src, intervals, from);
    var text := Replace(src, intervals, from);
    ReplaceAdjacent(src, intervals, from);
    assert text[0] == REDACTED[0];
    FirstDotIs(text, 0, SpanEnd(text, 0), SpanEnd(text, 0));
  }

  /** Any other domain is as good as it was. */
  lemma DomainUnchanged(src: seq<byte>, intervals: seq<Interval>, from: nat)
    requires InOrder(src, intervals, from) && Bounded(src, intervals, from)
    requires intervals != [] ==> intervals[0].start != from
    ensures DomainOk(Replace(src, intervals, from)) <==> DomainOk(src[from..])
  {
    if intervals != [] {
      var first := src[from..intervals[0].start];
      var more := REDACTED + Replace(src, intervals[1..], intervals[0].end);
      Regroup(first, REDACTED, Replace(src, intervals[1..], intervals[0].end));
      assert src[from..] == first + src[intervals[0].start..];
      assert first[|first| - 1] == src[intervals[0].start - 1];
      DomainOfPrefix(first, src[intervals[0].start..], more);
    }
  }

  // When there is something left

  predicate EndsAt(intervals: seq<Interval>, p: nat) {
    exists m :: 0 <= m < |intervals| && intervals[m].end == p
  }

  /** The intervals from the one that starts at `from` on follow each other without a gap to the end. */
  predicate RowFrom(intervals: seq<Interval>, from: nat, end: nat) {
    exists m :: 0 <= m < |intervals| && intervals[m].start == from && Tiles(intervals[m..], from, end)
  }

  predicate StartsAt(intervals: seq<Interval>, p: nat) {
    exists m :: 0 <= m < |intervals| && intervals[m].start == p
  }

  /** The first pass ended an address right before this '@', in a character that is no word. */
  predicate LeftBehind(src: seq<byte>, p: nat)
    requires p < |src|
  {
    var intervals := Addresses(src, 0, 0);
    && src[p] == AT && EndsAt(intervals, p) && !StartsAt(intervals, p + 1)
    && p > 0 && !Word(src[p - 1]) && p + 1 < |src| && Word(src[p + 1]) && GoodDomain(src, p)
  }

  /** The first pass replaced all of the text behind this '@', and there is a user name before it. */
  predicate LeftBefore(src: seq<byte>, p: nat)
    requires p < |src|
  {
    var intervals := Addresses(src, 0, 0);
    && src[p] == AT && RowFrom(intervals, p + 1, |src|)
    && (EndsAt(intervals, p) || (p > 0 && Word(src[p - 1])))
    && LimitAt(intervals, 0, p) <= p && GoodUser(src, SpanStart(src, LimitAt(intervals, 0, p), p))
  }

  lemma {:induction false} IntervalsApart(src: seq<byte>, intervals: seq<Interval>, from: nat, i: nat, j: nat)
    requires InOrder(src, intervals, from) && i < j < |intervals|
    ensures intervals[i].start < intervals[i].end <= intervals[j].start < intervals[j].end
    decreases j
  {
    if i > 0 {
      IntervalsApart(src, intervals[1..], intervals[0].end, i - 1, j - 1);
    } else {
      OrderedPairs(src, intervals[1..], intervals[0].end, j - 1);
      if j > 1 {
        IntervalsApart(src, intervals[1..], intervals[0].end, 0, j - 1);
      } else {
        assert InOrder(src, intervals[1..], intervals[0].end) && intervals[1..][0] == intervals[1];
      }
    }
  }

  /** At a cut, only the intervals on either side of it can touch the '@'. */
  lemma Neighbours(src: seq<byte>, intervals: seq<Interval>, p: nat, k: nat)
    requires InOrder(src, intervals, 0) && Cuts(intervals, k, p) && k <= |intervals|
    ensures EndsAt(intervals, p) <==> k > 0 && intervals[k - 1].end == p
    ensures StartsAt(intervals, p + 1) <==> k < |intervals| && intervals[k].start == p + 1
    ensures RowFrom(intervals, p + 1, |src|) <==> StartsAt(intervals, p + 1) && Tiles(intervals[k..], p + 1, |src|)
  {
    forall m | 0 <= m < |intervals| && intervals[m].end == p ensures m == k - 1 {
      IntervalNotEmpty(src, intervals, 0, m);
      CutSides(src, intervals, 0, p, k, m);
      if m < k - 1 {
        CutSides(src, intervals, 0, p, k, k - 1);
        IntervalsApart(src, intervals, 0, m, k - 1);
      }
    }
    forall m | 0 <= m < |intervals| && intervals[m].start == p + 1 ensures m == k {
      IntervalNotEmpty(src, intervals, 0, m);
      CutSides(src, intervals, 0, p, k, m);
      if m > k {
        CutSides(src, intervals, 0, p, k, k);
        IntervalsApart(src, intervals, 0, k, m);
      }
    }
  }

  lemma {:induction false} IntervalNotEmpty(src: seq<byte>, intervals: seq<Interval>, from: nat, m: nat)
    requires InOrder(src, intervals, from) && m < |intervals|
    ensures intervals[m].start < intervals[m].end
    decreases m
  {
    if m > 0 {
      IntervalNotEmpty(src, intervals[1..], intervals[0].end, m - 1);
    }
  }

  /** How redacted text ends: in what the last interval became, or as the text itself does. */
  lemma {:induction false} LastOf(text: seq<byte>, intervals: seq<Interval>, from: nat)
    requires InOrder(text, intervals, from) && Bounded(text, intervals, from)
    ensures var r, last := Replace(text, intervals, from), LastEnd(intervals, from);
            && from <= last <= |text| && (r == [] <==> intervals == [] && from == |text|)
            && (r != [] ==> r[|r| - 1] == if last == |text| then REDACTED[7] else text[|text| - 1])
            && (intervals != [] ==> last > 0 && text[last - 1] != SLASH)
    decreases intervals
  {
    if intervals != [] {
      LastOf(text, intervals[1..], intervals[0].end);
      var first, rest := text[from..intervals[0].start] + REDACTED, Replace(text, intervals[1..], intervals[0].end);
      assert rest == [] ==> first + rest == first && first[|first| - 1] == REDACTED[7];
      assert rest != [] ==> (first + rest)[|first + rest| - 1] == rest[|rest| - 1];
    }
  }

  /** How it begins. */
  lemma FirstOf(src: seq<byte>, intervals: seq<Interval>, from: nat)
    requires InOrder(src, intervals, from)
    ensures var r := Replace(src, intervals, from);
            && (r == [] <==> intervals == [] && from == |src|)
            && (r != [] ==> r[0] == if intervals != [] && intervals[0].start == from then REDACTED[0] else src[from])
  {
    if intervals != [] && intervals[0].start == from {
      ReplaceAdjacent(src, intervals, from);
    }
  }

  /** The user name before an '@' at a cut. */
  lemma UserBefore(src: seq<byte>, intervals: seq<Interval>, p: nat, k: nat)
    requires InOrder(src, intervals, 0) && Bounded(src, intervals, 0) && p < |src| && Cuts(intervals, k, p)
    requires k <= |intervals| && InOrder(src[..p], intervals[..k], 0)
    ensures var limit := LimitAt(intervals, 0, p);
            limit <= p && (UserOk(Replace(src[..p], intervals[..k], 0)) <==> GoodUser(src, SpanStart(src, limit, p)))
  {
    BoundedBefore(src, intervals, 0, p, k);
    LimitIsLastEnd(intervals, 0, p, k, src);
    UserUnchanged(src[..p], intervals[..k], 0);
    UserShift(src[..p], src, LimitAt(intervals, 0, p));
  }

  /** Right behind an address there is none to go wrong. */
  lemma NoUserBefore(src: seq<byte>, intervals: seq<Interval>, p: nat, k: nat)
    requires InOrder(src, intervals, 0) && Bounded(src, intervals, 0) && p < |src| && Cuts(intervals, k, p)
    requires k <= |intervals| && InOrder(src[..p], intervals[..k], 0) && EndsAt(intervals, p)
    ensures p > 0 && LimitAt(intervals, 0, p) == p && GoodUser(src, SpanStart(src, p, p))
  {
    BoundedBefore(src, intervals, 0, p, k);
    LimitIsLastEnd(intervals, 0, p, k, src);
    LastEndBounds(src[..p], intervals[..k], 0);
    Neighbours(src, intervals, p, k);
    LastOf(src[..p], intervals[..k], 0);
  }

  /** The character before it. */
  lemma CharBefore(src: seq<byte>, intervals: seq<Interval>, p: nat, k: nat)
    requires InOrder(src, intervals, 0) && Bounded(src, intervals, 0) && p < |src| && Cuts(intervals, k, p)
    requires k <= |intervals| && InOrder(src[..p], intervals[..k], 0)
    ensures var before := Replace(src[..p], intervals[..k], 0);
            before != [] && Word(before[|before| - 1]) <==> EndsAt(intervals, p) || (p > 0 && Word(src[p - 1]))
  {
    BoundedBefore(src, intervals, 0, p, k);
    LastOf(src[..p], intervals[..k], 0);
    LastEndBounds(src[..p], intervals[..k], 0);
    Neighbours(src, intervals, p, k);
  }

  /** The domain behind it, where that begins with an address. */
  lemma AddressBehind(src: seq<byte>, intervals: seq<Interval>, p: nat, k: nat)
    requires InOrder(src, intervals, 0) && Bounded(src, intervals, 0) && p < |src| && Cuts(intervals, k, p)
    requires k <= |intervals| && InOrder(src, intervals[k..], p + 1) && StartsAt(intervals, p + 1)
    ensures var after := Replace(src, intervals[k..], p + 1);
            after != [] && Word(after[0]) && (DomainOk(after) <==> RowFrom(intervals, p + 1, |src|))
  {
    Neighbours(src, intervals, p, k);
    BoundedBehind(src, intervals, 0, p, k);
    FirstOf(src, intervals[k..], p + 1);
    DomainOfAddresses(src, intervals[k..], p + 1);
  }

  /** And where it does not. */
  lemma NoAddressBehind(src: seq<byte>, intervals: seq<Interval>, p: nat, k: nat)
    requires InOrder(src, intervals, 0) && Bounded(src, intervals, 0) && p < |src| && Cuts(intervals, k, p)
    requires k <= |intervals| && InOrder(src, intervals[k..], p + 1) && !StartsAt(intervals, p + 1)
    ensures !RowFrom(intervals, p + 1, |src|)
    ensures DomainOk(Replace(src, intervals[k..], p + 1)) <==> GoodDomain(src, p)
  {
    Neighbours(src, intervals, p, k);
    BoundedBehind(src, intervals, 0, p, k);
    DomainBehind(src, intervals[k..], p);
  }

  lemma DomainBehind(src: seq<byte>, rest: seq<Interval>, p: nat)
    requires p < |src| && InOrder(src, rest, p + 1) && Bounded(src, rest, p + 1)
    requires rest != [] ==> rest[0].start != p + 1
    ensures DomainOk(Replace(src, rest, p + 1)) <==> GoodDomain(src, p)
  {
    DomainUnchanged(src, rest, p + 1);
    DomainShift(src, p);
  }

  lemma CharBehind(src: seq<byte>, intervals: seq<Interval>, p: nat, k: nat)
    requires InOrder(src, intervals, 0) && p < |src| && Cuts(intervals, k, p)
    requires k <= |intervals| && InOrder(src, intervals[k..], p + 1) && !StartsAt(intervals, p + 1)
    ensures var after := Replace(src, intervals[k..], p + 1);
            after != [] && Word(after[0]) <==> p + 1 < |src| && Word(src[p + 1])
  {
    Neighbours(src, intervals, p, k);
    var rest := intervals[k..];
    assert rest != [] ==> p + 1 < rest[0].start;
    FirstOf(src, rest, p + 1);
  }

  /** An '@' outside all intervals was not accepted in its turn. */
  lemma SurvivorRejected(src: seq<byte>, p: nat, k: nat)
    requires p < |src| && src[p] == AT && Cuts(Addresses(src, 0, 0), k, p)
    ensures !Accepted(src, p, LimitAt(Addresses(src, 0, 0), 0, p))
  {
    var intervals := Addresses(src, 0, 0);
    EveryAtDecided(src, p);
    AddressesWellFormed(src, 0, 0);
    AddressesInOrder(src, 0, 0);
    forall m | 0 <= m < |intervals| ensures intervals[m].at != p {
      assert WellFormed(src, intervals[m]);
      CutSides(src, intervals, 0, p, k, m);
    }
  }

  /** Redacted once: the text before a cut, the '@' and the text behind. */
  lemma OnceByParts(src: seq<byte>, p: nat, k: nat)
    requires p < |src| && src[p] == AT && Cuts(Addresses(src, 0, 0), k, p)
    ensures var intervals := Addresses(src, 0, 0);
            && k <= |intervals| && InOrder(src[..p], intervals[..k], 0) && InOrder(src, intervals[k..], p + 1)
            && RedactFrom(src, 0, 0) == Replace(src[..p], intervals[..k], 0) + ([AT] + Replace(src, intervals[k..], p + 1))
  {
    var intervals := Addresses(src, 0, 0);
    AddressesInOrder(src, 0, 0);
    CutInOrder(src, intervals, 0, p, k);
    CutReplaced(src, intervals, 0, p, k);
  }

  /** What the second pass asks at an '@' the first has left, in terms of the text and its intervals. */
  lemma AcceptedAtCut(src: seq<byte>, intervals: seq<Interval>, p: nat, k: nat)
    requires InOrder(src, intervals, 0) && Bounded(src, intervals, 0) && p < |src| && Cuts(intervals, k, p)
    requires k <= |intervals| && InOrder(src[..p], intervals[..k], 0) && InOrder(src, intervals[k..], p + 1)
    ensures var before, after := Replace(src[..p], intervals[..k], 0), Replace(src, intervals[k..], p + 1);
            && LimitAt(intervals, 0, p) <= p
            && (AddressBetween(before, after) <==>
                  && (EndsAt(intervals, p) || (p > 0 && Word(src[p - 1])))
                  && GoodUser(src, SpanStart(src, LimitAt(intervals, 0, p), p))
                  && if StartsAt(intervals, p + 1) then RowFrom(intervals, p + 1, |src|)
                     else p + 1 < |src| && Word(src[p + 1]) && GoodDomain(src, p))
  {
    UserBefore(src, intervals, p, k);
    CharBefore(src, intervals, p, k);
    if StartsAt(intervals, p + 1) {
      AddressBehind(src, intervals, p, k);
    } else {
      NoAddressBehind(src, intervals, p, k);
      CharBehind(src, intervals, p, k);
    }
  }

  /** With no address right behind it, an '@' that was rejected and would be accepted now is of the one kind. */
  lemma KindBehind(src: seq<byte>, p: nat, k: nat)
    requires p < |src| && src[p] == AT && Cuts(Addresses(src, 0, 0), k, p) && !StartsAt(Addresses(src, 0, 0), p + 1)
    requires LimitAt(Addresses(src, 0, 0), 0, p) <= p
    ensures var intervals := Addresses(src, 0, 0);
            LeftBehind(src, p)
            <==> && (EndsAt(intervals, p) || (p > 0 && Word(src[p - 1])))
                 && GoodUser(src, SpanStart(src, LimitAt(intervals, 0, p), p))
                 && p + 1 < |src| && Word(src[p + 1]) && GoodDomain(src, p)
  {
    var intervals := Addresses(src, 0, 0);
    SurvivorRejected(src, p, k);
    if EndsAt(intervals, p) {
      AddressesBounded(src, 0, 0);
      CutInOrder(src, intervals, 0, p, k);
      NoUserBefore(src, intervals, p, k);
    }
  }

  /** A second pass would redact a surviving '@' exactly if it was left at one of the two kinds of places. */
  lemma AcceptedNextIff(src: seq<byte>, p: nat, k: nat)
    requires p < |src| && src[p] == AT && Cuts(Addresses(src, 0, 0), k, p)
    ensures var intervals := Addresses(src, 0, 0);
            && k <= |intervals| && InOrder(src[..p], intervals[..k], 0)
            && var at := |Replace(src[..p], intervals[..k], 0)|;
               && at < |RedactFrom(src, 0, 0)|
               && (Accepted(RedactFrom(src, 0, 0), at, 0) <==> LeftBehind(src, p) || LeftBefore(src, p))
  {
    var intervals := Addresses(src, 0, 0);
    AddressesBounded(src, 0, 0);
    OnceByParts(src, p, k);
    AcceptedBetween(Replace(src[..p], intervals[..k], 0), Replace(src, intervals[k..], p + 1));
    AcceptedAtCut(src, intervals, p, k);
    Neighbours(src, intervals, p, k);
    if !StartsAt(intervals, p + 1) {
      KindBehind(src, p, k);
    }
  }

  predicate Outside(intervals: seq<Interval>, p: nat) {
    forall m | 0 <= m < |intervals| :: intervals[m].end <= p || p < intervals[m].start
  }

  lemma {:induction false} DomainsNotEmpty(src: seq<byte>, i: nat, limit: nat)
    requires limit <= i
    ensures forall k | 0 <= k < |Addresses(src, i, limit)| ::
              Addresses(src, i, limit)[k].at + 1 < Addresses(src, i, limit)[k].end
    decreases |src| - i
  {
    if i >= |src| {
    } else if Accepted(src, i, limit) {
      var a := IntervalAt(src, i, limit);
      DomainsNotEmpty(src, a.end, a.end);
    } else {
      DomainsNotEmpty(src, i + 1, limit);
    }
  }

  lemma {:induction false} CutExists(src: seq<byte>, intervals: seq<Interval>, from: nat, p: nat) returns (k: nat)
    requires InOrder(src, intervals, from) && Outside(intervals, p)
    ensures Cuts(intervals, k, p)
    decreases intervals
  {
    if intervals == [] || p < intervals[0].start {
      k := 0;
    } else {
      var rest := intervals[1..];
      assert forall m | 0 <= m < |rest| :: rest[m] == intervals[m + 1];
      k := CutExists(src, rest, intervals[0].end, p);
      k := k + 1;
    }
  }

  /** On either side of a cut are all of the intervals. */
  lemma {:induction false} CutSides(src: seq<byte>, intervals: seq<Interval>, from: nat, p: nat, k: nat, m: nat)
    requires InOrder(src, intervals, from) && Cuts(intervals, k, p) && m < |intervals|
    ensures if m < k then intervals[m].end <= p else p < intervals[m].start
    decreases k
  {
    if k == 0 {
      StartsAscend(src, intervals, from, m);
    } else if m > 0 {
      CutSides(src, intervals[1..], intervals[0].end, p, k - 1, m - 1);
    }
  }

  lemma InsideIsAt(src: seq<byte>, m: nat, p: nat)
    requires p < |src| && src[p] == AT && m < |Addresses(src, 0, 0)|
    requires Addresses(src, 0, 0)[m].start <= p < Addresses(src, 0, 0)[m].end
    ensures Addresses(src, 0, 0)[m].end > p + 1 && p > 0 && Word(src[p - 1])
  {
    AddressesWellFormed(src, 0, 0);
    DomainsNotEmpty(src, 0, 0);
    assert WellFormed(src, Addresses(src, 0, 0)[m]);
  }

  /** What the first pass leaves at such places, it leaves outside all intervals. */
  lemma LeftSurvives(src: seq<byte>, p: nat)
    requires p < |src| && (LeftBehind(src, p) || LeftBefore(src, p))
    ensures Outside(Addresses(src, 0, 0), p)
  {
    var intervals := Addresses(src, 0, 0);
    AddressesInOrder(src, 0, 0);
    forall m | 0 <= m < |intervals| ensures intervals[m].end <= p || p < intervals[m].start {
      if intervals[m].start <= p < intervals[m].end {
        InsideIsAt(src, m, p);
        assert LeftBefore(src, p);
        var n :| 0 <= n < |intervals| && intervals[n].start == p + 1;
        if m < n {
          IntervalsApart(src, intervals, 0, m, n);
        } else if n < m {
          IntervalsApart(src, intervals, 0, n, m);
        }
      }
    }
  }

  /**
   Redacting a second time changes the text exactly if, by the first pass over the text itself, some '@' stands right
   behind an address that ended in no word, before a good domain of its own; or right before a gapless row of addresses
   up to the end of the text, behind a good user name.
   */
  lemma ChangesAgainIff(src: seq<byte>)
    ensures var once := RedactFrom(src, 0, 0);
            RedactFrom(once, 0, 0) != once
            <==> exists p :: 0 <= p < |src| && (LeftBehind(src, p) || LeftBefore(src, p))
  {
    var once, intervals := RedactFrom(src, 0, 0), Addresses(src, 0, 0);
    IdempotentIff(src);
    AddressesBounded(src, 0, 0);
    if q: nat :| q < |once| && Accepted(once, q, 0) {
      var p, k := Origin(src, intervals, 0, q);
      AcceptedNextIff(src, p, k);
    }
    if p: nat :| p < |src| && (LeftBehind(src, p) || LeftBefore(src, p)) {
      LeftSurvives(src, p);
      var k := CutExists(src, intervals, 0, p);
      AcceptedNextIff(src, p, k);
    }
  }

  // The two kinds of places

  /** "x@a@b.c" becomes "x@REDACTED", and that is an address. */
  lemma ReplacedDomain()
    ensures var src: seq<byte> := [120, AT, 97, AT, 98, DOT, 99];
            && RedactFrom(src, 0, 0) == [120, AT] + REDACTED
            && RedactFrom(RedactFrom(src, 0, 0), 0, 0) == REDACTED
            && LeftBefore(src, 1)
  {
    var src: seq<byte> := [120, AT, 97, AT, 98, DOT, 99];
    FirstOfTwo(src);
    WholeRedacted([120, AT] + REDACTED);
  }

  lemma FirstOfTwo(src: seq<byte>)
    requires src == [120, AT, 97, AT, 98, DOT, 99]
    ensures RedactFrom(src, 0, 0) == [120, AT] + REDACTED && LeftBefore(src, 1)
  {
    SpanIs(src, 2, 3);
    FirstDotIs(src, 2, 3, 3);
    assert !Accepted(src, 1, 0);
    SpanIs(src, 4, 7);
    FirstDotIs(src, 4, 7, 5);
    SpanStartIs(src, 0, 3, 2);
    assert Accepted(src, 3, 0) && IntervalAt(src, 3, 0) == Interval(2, 3, 7);
    RedactFromSkip(src, 0, 3, 0);
    RedactFromFound(src, 3, 0);
    RedactFromSkip(src, 7, 7, 7);
    assert src[0..2] == [120, AT] && src[7..] == [] && [120, AT] + REDACTED + [] == [120, AT] + REDACTED;
    var intervals := Addresses(src, 0, 0);
    assert intervals == [Interval(2, 3, 7)] && intervals[0..] == intervals && intervals[1..] == [];
    assert Tiles(intervals[0..], 2, |src|) && RowFrom(intervals, 2, |src|);
    SpanStartIs(src, 0, 1, 0);
  }

  lemma WholeRedacted(src: seq<byte>)
    requires src == [120, AT] + REDACTED
    ensures RedactFrom(src, 0, 0) == REDACTED
  {
    assert |src| == 10 && forall i | 2 <= i < 10 :: src[i] == REDACTED[i - 2];
    SpanIs(src, 2, 10);
    FirstDotIs(src, 2, 10, 10);
    SpanStartIs(src, 0, 1, 0);
    assert Accepted(src, 1, 0) && IntervalAt(src, 1, 0) == Interval(0, 1, 10);
    RedactFromSkip(src, 0, 1, 0);
    RedactFromFound(src, 1, 0);
    RedactFromSkip(src, 10, 10, 10);
    assert src[0..0] == [] && src[10..] == [] && REDACTED + [] == REDACTED;
  }

  /** The '@' that is left in "a@b.c.@d.e" stands behind an address that ended in a dot. */
  lemma LeftBehindADot()
    ensures LeftBehind([97, AT, 98, DOT, 99, DOT, AT, 100, DOT, 101], 6)
  {
    var src: seq<byte> := [97, AT, 98, DOT, 99, DOT, AT, 100, DOT, 101];
    SpanIs(src, 2, 6);
    FirstDotIs(src, 2, 6, 3);
    SpanStartIs(src, 0, 1, 0);
    assert Accepted(src, 1, 0) && IntervalAt(src, 1, 0) == Interval(0, 1, 6);
    RedactFromSkip(src, 0, 1, 0);
    RedactFromFound(src, 1, 0);
    RedactFromSkip(src, 6, 10, 6);
    var intervals := Addresses(src, 0, 0);
    assert Addresses(src, 1, 0) == [Interval(0, 1, 6)] + Addresses(src, 6, 6) && Addresses(src, 10, 6) == [];
    assert intervals[0].end == 6 && |intervals| == 1;
    SpanIs(src, 7, 10);
    FirstDotIs(src, 7, 10, 8);
  }
}
