/** Byte strings and the search functions of Go's `bytes` and `strings` packages that the agent relies on. */
module Bytes {

  type byte = b: int | 0 <= b < 256

  const NEWLINE: byte := 10
  const SPACE: byte := 32

  /** The bytes of an ASCII literal. */
  function Ascii(s: string): (r: seq<byte>)
    requires forall i | 0 <= i < |s| :: s[i] < 128 as char
    ensures |r| == |s|
    ensures forall i | 0 <= i < |s| :: r[i] == s[i] as int
  {
    seq(|s|, i requires 0 <= i < |s| => s[i] as int)
  }

  predicate Digit(c: byte) {
    48 <= c <= 57
  }

  /** No `c` in `s[from..to]`. */
  predicate Free(s: seq<byte>, c: byte, from: int, to: int)
    requires 0 <= from && to <= |s|
  {
    forall k | from <= k < to :: s[k] != c
  }

  /** Index of the first `c` in `s` at or after `from`, or -1. */
  method IndexByte(s: seq<byte>, c: byte, from: nat) returns (r: int)
    requires from <= |s|
    ensures r == -1 ==> Free(s, c, from, |s|)
    ensures r != -1 ==> from <= r < |s| && s[r] == c && Free(s, c, from, r)
  {
    r := from;
    while r < |s|
      invariant from <= r <= |s|
      invariant Free(s, c, from, r)
    {
      if s[r] == c {
        return;
      }
      r := r + 1;
    }
    r := -1;
  }

  /** Index of the last `c` in `s`, or -1. */
  method LastIndexByte(s: seq<byte>, c: byte) returns (r: int)
    ensures r == -1 ==> Free(s, c, 0, |s|)
    ensures r != -1 ==> 0 <= r < |s| && s[r] == c && Free(s, c, r + 1, |s|)
  {
    r := |s| - 1;
    while r >= 0
      invariant -1 <= r < |s|
      invariant Free(s, c, r + 1, |s|)
    {
      if s[r] == c {
        return;
      }
      r := r - 1;
    }
  }

  lemma Regroup<T>(a: seq<T>, b: seq<T>, c: seq<T>)
    ensures a + (b + c) == (a + b) + c
  {
  }

  /** Go's `copy` of a string that fits. */
  method CopyInto(dst: array<byte>, at: nat, s: seq<byte>)
    requires at + |s| <= dst.Length
    modifies dst
    ensures dst[..at + |s|] == old(dst[..at]) + s
    ensures forall k | at + |s| <= k < dst.Length :: dst[k] == old(dst[k])
  {
    forall i | 0 <= i < |s| {
      dst[at + i] := s[i];
    }
  }
}
