/** The scan loops of transform/tredactemail/redactemail.go. */
module Redact {
  import opened Bytes
  import opened Options
  import opened RedactSpec

  /** Searches backward for the beginning of the user name; None if it comes after a slash. */
  method FindEmailStart(src: seq<byte>, atIndex: nat, limitStart: nat) returns (start: Option<nat>)
    requires limitStart <= atIndex < |src|
    ensures var s := SpanStart(src, limitStart, atIndex);
            start == if GoodUser(src, s) then Some(s) else None
  {
    var i := atIndex - 1;
    while i >= limitStart
      invariant limitStart - 1 <= i < atIndex
      invariant SpanStart(src, limitStart, i + 1) == SpanStart(src, limitStart, atIndex)
    {
      if !Address(src[i]) {
        break;
      }
      i := i - 1;
    }
    if i >= 0 && src[i] == SLASH {
      return None;
    }
    return Some(i + 1);
  }

  predicate CheckNumber(s: seq<byte>) {
    if |s| < 2 then false
    else if !Digit(s[0]) then false
    else Digit(s[|s| - 1])
  }

  /** From `from` on up to the first dot: -1 for no dot, None for another character that is in no address. */
  method FindDot(src: seq<byte>, from: nat) returns (dotIndex: Option<int>)
    requires from <= |src|
    ensures var end := SpanEnd(src, from);
            var dot := FirstDot(src, from, end);
            dotIndex == if dot < end then Some(dot as int) else if end == |src| then Some(-1) else None
  {
    var i := from;
    while i < |src|
      invariant from <= i <= |src|
      invariant SpanEnd(src, i) == SpanEnd(src, from) >= i
      invariant FirstDot(src, i, SpanEnd(src, from)) == FirstDot(src, from, SpanEnd(src, from))
    {
      if !Address(src[i]) {
        return None;
      }
      if src[i] == DOT {
        return Some(i);
      }
      i := i + 1;
    }
    return Some(-1);
  }

  method SkipAddress(src: seq<byte>, start: nat) returns (endIndex: nat)
    requires start <= |src|
    ensures endIndex == SpanEnd(src, start)
  {
    endIndex := start;
    while endIndex < |src|
      invariant start <= endIndex <= |src|
      invariant SpanEnd(src, endIndex) == SpanEnd(src, start)
    {
      if !Address(src[endIndex]) {
        break;
      }
      endIndex := endIndex + 1;
    }
  }

  /** Where the address around the character ends, if its domain is acceptable. */
  method FindEmailEnd(src: seq<byte>, atIndex: nat) returns (end: Option<nat>)
    requires atIndex < |src|
    ensures end == if GoodDomain(src, atIndex) then Some(SpanEnd(src, atIndex + 1)) else None
  {
    var maybeDot := FindDot(src, atIndex + 1);
    if maybeDot.None? {
      return None;
    }
    var dotIndex := maybeDot.value;
    if dotIndex == -1 {
      // truncated domain
      if CheckNumber(src[atIndex + 1..]) {
        return None;
      }
      return Some(|src|);
    }
    if dotIndex == |src| - 1 {
      // truncated domain with the dot
      return Some(|src|);
    }
    if !Word(src[dotIndex + 1]) {
      return None;
    }
    SpanGoesOn(src, atIndex + 1, dotIndex + 2);
    var endIndex := SkipAddress(src, dotIndex + 2);
    if CheckNumber(src[atIndex + 1..endIndex]) {
      return None;
    }
    return Some(endIndex);
  }

  lemma {:induction false} SpanGoesOn(src: seq<byte>, start: nat, mid: nat)
    requires start <= mid <= |src| && forall i | start <= i < mid :: Address(src[i])
    ensures SpanEnd(src, start) == SpanEnd(src, mid)
    decreases mid - start
  {
  }

  method FindEmailBoundary(src: seq<byte>, atIndex: nat, limitStart: nat) returns (start: Option<nat>, end: Option<nat>)
    requires limitStart <= atIndex < |src| && Candidate(src, atIndex)
    ensures start.Some? && end.Some? <==> Accepted(src, atIndex, limitStart)
    ensures start.Some? && end.Some? ==>
              Interval(start.value, atIndex, end.value) == IntervalAt(src, atIndex, limitStart)
  {
    start := FindEmailStart(src, atIndex, limitStart);
    if start.None? {
      return None, None;
    }
    end := FindEmailEnd(src, atIndex);
  }

  /** The first '@' between two word characters, or -1. */
  method FindFirst(src: seq<byte>) returns (first: int)
    ensures first == -1 ==> forall i | 0 <= i < |src| :: !Candidate(src, i)
    ensures first != -1 ==> 0 <= first < |src| && Candidate(src, first) && forall i | 0 <= i < first :: !Candidate(src, i)
  {
    var sEnd := |src| - 1;
    var sAt := IndexByte(src, AT, 0);
    while sAt < sEnd
      invariant -1 <= sAt < |src|
      invariant if sAt == -1 then Free(src, AT, 0, |src|) else src[sAt] == AT
      invariant forall i | 0 <= i < sAt :: !Candidate(src, i)
      decreases sEnd - sAt
    {
      if sAt > 0 && Word(src[sAt - 1]) && Word(src[sAt + 1]) {
        return sAt;
      }
      sAt := sAt + 1;
      var nextAt := IndexByte(src, AT, sAt);
      if nextAt == -1 {
        break;
      }
      sAt := nextAt;
    }
    return -1;
  }

  /** What has been written and what is still to be scanned make up the result. */
  ghost predicate Remaining(src: seq<byte>, start: nat, sAt: nat, sCopied: nat, dst: seq<byte>, numRedacted: nat) {
    && sCopied <= sAt <= |src|
    && dst + RedactFrom(src, sAt, sCopied) == RedactFrom(src, start, 0)
    && numRedacted + |Addresses(src, sAt, sCopied)| == |Addresses(src, start, 0)|
  }

  lemma RemainingFound(src: seq<byte>, start: nat, sAt: nat, sCopied: nat, dst: seq<byte>, numRedacted: nat)
    requires Remaining(src, start, sAt, sCopied, dst, numRedacted) && sAt < |src| && Accepted(src, sAt, sCopied)
    ensures var a := IntervalAt(src, sAt, sCopied);
            Remaining(src, start, a.end, a.end, dst + src[sCopied..a.start] + REDACTED, numRedacted + 1)
  {
  }

  lemma RemainingSkip(src: seq<byte>, start: nat, sAt: nat, sCopied: nat, dst: seq<byte>, numRedacted: nat, next: nat)
    requires Remaining(src, start, sAt, sCopied, dst, numRedacted) && sAt <= next <= |src|
    requires forall k | sAt <= k < next :: !Accepted(src, k, sCopied)
    ensures Remaining(src, start, next, sCopied, dst, numRedacted)
  {
    RedactFromSkip(src, sAt, next, sCopied);
  }

  /** The part of the loop for one candidate: returns where to go on, and what has been copied and written. */
  method RedactOne(src: seq<byte>, start: nat, at: nat, copied: nat, dst: seq<byte>, num: nat)
    returns (sAt: nat, sCopied: nat, dest: seq<byte>, numRedacted: nat)
    requires Remaining(src, start, at, copied, dst, num) && at < |src| && Candidate(src, at)
    ensures Remaining(src, start, sAt, sCopied, dest, numRedacted) && at < sAt
  {
    sAt, sCopied, dest, numRedacted := at, copied, dst, num;
    var emailStart, emailEnd := FindEmailBoundary(src, sAt, sCopied);
    if emailStart.Some? && emailEnd.Some? {
      RemainingFound(src, start, sAt, sCopied, dest, numRedacted);
      dest := dest + src[sCopied..emailStart.value];
      dest := dest + REDACTED;
      sCopied := emailEnd.value;
      sAt := emailEnd.value;
      numRedacted := numRedacted + 1;
    } else {
      RemainingSkip(src, start, sAt, sCopied, dest, numRedacted, sAt + 1);
      sAt := sAt + 1;
    }
  }

  /** Replaces all addresses from `start` on, which is an '@'. */
  method RedactEmail1(src: seq<byte>, start: nat) returns (dest: seq<byte>, numRedacted: nat)
    requires start < |src| && src[start] == AT
    ensures dest == RedactFrom(src, start, 0) && numRedacted == |Addresses(src, start, 0)|
  {
    numRedacted := 0;
    dest := [];
    var sEnd := |src| - 1;
    var sAt: nat := start;
    var sCopied: nat := 0;
    assert [] + RedactFrom(src, start, 0) == RedactFrom(src, start, 0);
    while sAt < sEnd
      invariant Remaining(src, start, sAt, sCopied, dest, numRedacted) && (sAt < |src| ==> src[sAt] == AT)
      decreases |src| - sAt
    {
      if sAt > 0 && Word(src[sAt - 1]) && Word(src[sAt + 1]) {
        sAt, sCopied, dest, numRedacted := RedactOne(src, start, sAt, sCopied, dest, numRedacted);
        if sAt > sEnd {
          break;
        }
      } else {
        RemainingSkip(src, start, sAt, sCopied, dest, numRedacted, sAt + 1);
        sAt := sAt + 1;
      }
      var nextAt := IndexByte(src, AT, sAt);
      if nextAt == -1 {
        break;
      }
      RemainingSkip(src, start, sAt, sCopied, dest, numRedacted, nextAt);
      sAt := nextAt;
    }
    RemainingSkip(src, start, sAt, sCopied, dest, numRedacted, |src|);
    dest := dest + src[sCopied..];
  }

  method RedactEmail(src: seq<byte>) returns (dest: seq<byte>)
    ensures dest == RedactFrom(src, 0, 0)
  {
    var first := FindFirst(src);
    if first == -1 {
      RedactFromSkip(src, 0, |src|, 0);
      return src;
    }
    RedactFromSkip(src, 0, first, 0);
    var n;
    dest, n := RedactEmail1(src, first);
  }
}
