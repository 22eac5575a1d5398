/** Unescaping of byte strings: util/stringunescape/unescape.go. */
module Unescape {
  import opened Bytes

  /** Lookup table of escapable bytes; a zero entry means "not escapable". */
  datatype Unescaper = Unescaper(escapeChar: byte, table: seq<byte>) {
    ghost predicate Valid() {
      |table| == 256 && table[escapeChar] == escapeChar
    }
  }

  function NewUnescaper(escapeChar: byte, mapping: map<byte, byte>): (u: Unescaper)
    ensures u.Valid() && u.escapeChar == escapeChar
    ensures forall c: byte :: c != escapeChar ==> u.table[c] == if c in mapping then mapping[c] else 0
  {
    var cmap := seq(256, i requires 0 <= i < 256 => if i in mapping then mapping[i] else 0);
    Unescaper(escapeChar, cmap[escapeChar := escapeChar])
  }

  /** What one escape sequence stands for; an unknown sequence stands for itself. */
  function Expand(u: Unescaper, val: byte): (r: seq<byte>)
    requires u.Valid()
  {
    if u.table[val] != 0 then [u.table[val]] else [u.escapeChar, val]
  }

  /** The meaning of an escaped string, read left to right; a lone escape byte at the end is kept. */
  function Unescaped(u: Unescaper, s: seq<byte>): (r: seq<byte>)
    requires u.Valid()
    ensures |r| <= |s|
  {
    if s == [] then []
    else if s[0] != u.escapeChar then [s[0]] + Unescaped(u, s[1..])
    else if |s| == 1 then s
    else Expand(u, s[1]) + Unescaped(u, s[2..])
  }

  /** Position `i` does not fall inside an escape sequence. */
  ghost predicate TokenStart(u: Unescaper, s: seq<byte>, i: nat)
  {
    if i == 0 then true
    else if s == [] then false
    else if s[0] != u.escapeChar then TokenStart(u, s[1..], i - 1)
    else i >= 2 && |s| >= 2 && TokenStart(u, s[2..], i - 2)
  }

  /** Unescaping distributes over a cut that does not break an escape sequence. */
  lemma {:induction false} UnescapedSplit(u: Unescaper, s: seq<byte>, i: nat)
    requires u.Valid() && i <= |s| && TokenStart(u, s, i)
    ensures Unescaped(u, s) == Unescaped(u, s[..i]) + Unescaped(u, s[i..])
  {
    if i == 0 {
      assert s[..0] == [] && s[0..] == s;
    } else if s[0] != u.escapeChar {
      assert s[1..][i - 1..] == s[i..] && s[1..][..i - 1] == s[..i][1..];
      UnescapedSplit(u, s[1..], i - 1);
    } else {
      assert s[2..][i - 2..] == s[i..] && s[2..][..i - 2] == s[..i][2..];
      UnescapedSplit(u, s[2..], i - 2);
    }
  }

  lemma {:induction false} TokenStartExtend(u: Unescaper, s: seq<byte>, i: nat, d: nat)
    requires i <= |s| && TokenStart(u, s, i) && TokenStart(u, s[i..], d)
    ensures TokenStart(u, s, i + d)
  {
    if i == 0 {
      assert s[0..] == s;
    } else if s[0] != u.escapeChar {
      assert s[1..][i - 1..] == s[i..];
      TokenStartExtend(u, s[1..], i - 1, d);
    } else {
      assert s[2..][i - 2..] == s[i..];
      TokenStartExtend(u, s[2..], i - 2, d);
    }
  }

  /** Between a token start and the next one there is no token start. */
  lemma {:induction false} TokenStartSkips(u: Unescaper, s: seq<byte>, i: nat, k: nat)
    requires i <= k <= |s| && TokenStart(u, s, i)
    ensures TokenStart(u, s, k) <==> TokenStart(u, s[i..], k - i)
  {
    if i == 0 {
      assert s[0..] == s;
    } else if s[0] != u.escapeChar {
      assert s[1..][i - 1..] == s[i..];
      TokenStartSkips(u, s[1..], i - 1, k - 1);
    } else {
      assert s[2..][i - 2..] == s[i..];
      TokenStartSkips(u, s[2..], i - 2, k - 2);
    }
  }

  /** Where `target` first stands outside any escape sequence; -1 for nowhere. */
  method FindFirstUnescaped(u: Unescaper, str: seq<byte>, target: byte) returns (index: int)
    requires u.Valid() && u.table[target] != 0
    ensures index == -1 || (0 <= index < |str| && target != u.escapeChar && str[index] == target && TokenStart(u, str, index))
    ensures forall k: nat ::
              k < (if index == -1 then |str| else index) && TokenStart(u, str, k)
              ==> str[k] != target || target == u.escapeChar
  {
    var pos := 0;
    while pos < |str|
      invariant 0 <= pos
      invariant pos <= |str| ==> TokenStart(u, str, pos)
      invariant forall k: nat :: k < pos && k < |str| && TokenStart(u, str, k) ==> str[k] != target || target == u.escapeChar
    {
      var c := str[pos];
      ghost var next := if c == u.escapeChar then pos + 2 else pos + 1;
      if next <= |str| {
        TokenStartExtend(u, str, pos, next - pos);
      }
      forall k: nat | pos < k < next && k < |str| ensures !TokenStart(u, str, k) {
        TokenStartSkips(u, str, pos, k);
      }
      if c == u.escapeChar {
        pos := pos + 2;
      } else if c == target {
        return pos;
      } else {
        pos := pos + 1;
      }
    }
    return -1;
  }

  /**
   At an unescaped target the string splits into two halves that may be unescaped on their own,
   which is what pattern splitting relies on.
   */
  lemma UnescapedAtTarget(u: Unescaper, s: seq<byte>, i: nat)
    requires u.Valid() && i < |s| && TokenStart(u, s, i) && s[i] != u.escapeChar
    ensures Unescaped(u, s) == Unescaped(u, s[..i]) + [s[i]] + Unescaped(u, s[i + 1..])
  {
    UnescapedSplit(u, s, i);
    assert s[i..][1..] == s[i + 1..];
  }

  /** `Unescaped(u, src[si..])`, by position. */
  function UnescapedFrom(u: Unescaper, src: seq<byte>, si: nat): (r: seq<byte>)
    requires u.Valid() && si <= |src|
    decreases |src| - si
  {
    if si == |src| then []
    else if src[si] != u.escapeChar then [src[si]] + UnescapedFrom(u, src, si + 1)
    else if si + 1 == |src| then [src[si]]
    else Expand(u, src[si + 1]) + UnescapedFrom(u, src, si + 2)
  }

  lemma {:induction false} UnescapedFromMeaning(u: Unescaper, src: seq<byte>, si: nat)
    requires u.Valid() && si <= |src|
    ensures UnescapedFrom(u, src, si) == Unescaped(u, src[si..])
    decreases |src| - si
  {
    if si == |src| {
    } else if src[si] != u.escapeChar {
      assert src[si..][1..] == src[si + 1..];
      UnescapedFromMeaning(u, src, si + 1);
    } else if si + 1 < |src| {
      assert src[si..][2..] == src[si + 2..];
      UnescapedFromMeaning(u, src, si + 2);
    }
  }

  lemma {:induction false} UnescapedFromPlain(u: Unescaper, src: seq<byte>, si: nat, end: nat)
    requires u.Valid() && si <= end <= |src| && Free(src, u.escapeChar, si, end)
    ensures UnescapedFrom(u, src, si) == src[si..end] + UnescapedFrom(u, src, end)
    decreases end - si
  {
    if si < end {
      assert src[si..end] == [src[si]] + src[si + 1..end];
      UnescapedFromPlain(u, src, si + 1, end);
      Regroup([src[si]], src[si + 1..end], UnescapedFrom(u, src, end));
    }
  }

  lemma UnescapedFromFirst(u: Unescaper, src: seq<byte>, first: nat)
    requires u.Valid() && first <= |src| && Free(src, u.escapeChar, 0, first)
    ensures Unescaped(u, src) == src[..first] + UnescapedFrom(u, src, first)
  {
    UnescapedFromMeaning(u, src, 0);
    assert src[0..] == src && src[0..first] == src[..first];
    UnescapedFromPlain(u, src, 0, first);
  }

  /** What one round of the unescaping loop writes: an escape sequence and the plain bytes after it. */
  function RoundOutput(u: Unescaper, src: seq<byte>, si: nat, next: nat): (r: seq<byte>)
    requires u.Valid() && si + 2 <= next <= |src|
  {
    Expand(u, src[si + 1]) + src[si + 2..next]
  }

  lemma UnescapedFromRound(u: Unescaper, src: seq<byte>, si: nat, next: nat, out: seq<byte>)
    requires u.Valid() && si + 2 <= next <= |src| && src[si] == u.escapeChar
    requires Free(src, u.escapeChar, si + 2, next)
    ensures (out + RoundOutput(u, src, si, next)) + UnescapedFrom(u, src, next) == out + UnescapedFrom(u, src, si)
  {
    UnescapedFromPlain(u, src, si + 2, next);
    var rest := UnescapedFrom(u, src, next);
    Regroup(Expand(u, src[si + 1]), src[si + 2..next], rest);
    Regroup(out, RoundOutput(u, src, si, next), rest);
  }

  /** At most a lone escape byte is left when the loop stops. */
  lemma UnescapedFromTail(u: Unescaper, src: seq<byte>, si: nat)
    requires u.Valid() && |src| - 1 <= si <= |src| && (si < |src| ==> src[si] == u.escapeChar)
    ensures UnescapedFrom(u, src, si) == src[si..]
  {
  }

  /** Writes the meaning of one escape sequence. */
  method WriteExpanded(u: Unescaper, val: byte, dst: array<byte>, at: nat) returns (next: nat)
    requires u.Valid() && at + |Expand(u, val)| <= dst.Length
    modifies dst
    ensures next == at + |Expand(u, val)|
    ensures dst[..next] == old(dst[..at]) + Expand(u, val)
    ensures forall k | next <= k < dst.Length :: dst[k] == old(dst[k])
  {
    if u.table[val] != 0 {
      dst[at] := u.table[val];
      next := at + 1;
    } else {
      dst[at] := u.escapeChar;
      dst[at + 1] := val;
      next := at + 2;
    }
  }

  method WriteRound(u: Unescaper, src: seq<byte>, si: nat, next: nat, dst: array<byte>, at: nat) returns (end: nat)
    requires u.Valid() && si + 2 <= next <= |src|
    requires at + |RoundOutput(u, src, si, next)| <= dst.Length
    modifies dst
    ensures end == at + |RoundOutput(u, src, si, next)|
    ensures dst[..end] == old(dst[..at]) + RoundOutput(u, src, si, next)
    ensures forall k | end <= k < dst.Length :: dst[k] == old(dst[k])
  {
    Regroup(dst[..at], Expand(u, src[si + 1]), src[si + 2..next]);
    end := WriteExpanded(u, src[si + 1], dst, at);
    CopyInto(dst, end, src[si + 2..next]);
    end := end + (next - si - 2);
  }

  /** The unescaping loop, from an escape byte or the end of the source. */
  method RunRounds(u: Unescaper, src: seq<byte>, first: nat, dst: array<byte>, at: nat) returns (end: nat)
    requires u.Valid() && first <= |src| && (first < |src| ==> src[first] == u.escapeChar)
    requires at + |UnescapedFrom(u, src, first)| <= dst.Length
    modifies dst
    ensures end == at + |UnescapedFrom(u, src, first)|
    ensures dst[..end] == old(dst[..at]) + UnescapedFrom(u, src, first)
    ensures forall k | end <= k < dst.Length :: dst[k] == old(dst[k])
  {
    ghost var prefix, out, total := dst[..at], [], UnescapedFrom(u, src, first);
    var si, di := first, at;
    while si < |src| - 1
      invariant si <= |src| && (si < |src| ==> src[si] == u.escapeChar)
      invariant out + UnescapedFrom(u, src, si) == total
      invariant di == at + |out| && dst[..di] == prefix + out
      invariant forall k | at + |total| <= k < dst.Length :: dst[k] == old(dst[k])
    {
      var next := IndexByte(src, u.escapeChar, si + 2);
      if next == -1 {
        next := |src|;
      }
      UnescapedFromRound(u, src, si, next, out);
      Regroup(prefix, out, RoundOutput(u, src, si, next));
      out := out + RoundOutput(u, src, si, next);
      assert |out| <= |total|;
      di := WriteRound(u, src, si, next, dst, di);
      si := next;
    }
    UnescapedFromTail(u, src, si);
    Regroup(prefix, out, src[si..]);
    end := di;
    if si < |src| {
      CopyInto(dst, di, src[si..]);
      end := di + |src[si..]|;
    }
  }

  /**
   Unescapes `src` into `dst` from `off`, given the position of the first escape byte.
   The result never takes more room than the source.
   */
  method RunToBuffer(u: Unescaper, src: seq<byte>, first: nat, dst: array<byte>, off: nat) returns (n: nat)
    requires u.Valid() && first < |src| && src[first] == u.escapeChar && Free(src, u.escapeChar, 0, first)
    requires off + |Unescaped(u, src)| <= dst.Length
    modifies dst
    ensures n == |Unescaped(u, src)| <= |src|
    ensures dst[..off + n] == old(dst[..off]) + Unescaped(u, src)
    ensures forall k | off + n <= k < dst.Length :: dst[k] == old(dst[k])
  {
    UnescapedFromFirst(u, src, first);
    Regroup(dst[..off], src[..first], UnescapedFrom(u, src, first));
    CopyInto(dst, off, src[..first]);
    var end := RunRounds(u, src, first, dst, off + first);
    n := end - off;
  }

  /** Unescapes into a new string of at most the same length. */
  method RunFromFirst(u: Unescaper, src: seq<byte>, first: nat) returns (r: seq<byte>)
    requires u.Valid() && first < |src| && src[first] == u.escapeChar && Free(src, u.escapeChar, 0, first)
    ensures r == Unescaped(u, src)
  {
    var dst := new byte[|src|];
    var n := RunToBuffer(u, src, first, dst, 0);
    r := dst[..n];
  }

  /** Without an escape byte there is nothing to do. */
  lemma UnescapedUnchanged(u: Unescaper, src: seq<byte>)
    requires u.Valid() && Free(src, u.escapeChar, 0, |src|)
    ensures Unescaped(u, src) == src
  {
  }

  /** Unescaping changes a string exactly if it makes it shorter, and leaves nothing empty that was not. */
  lemma {:induction false} UnescapedShrinks(u: Unescaper, s: seq<byte>)
    requires u.Valid()
    ensures Unescaped(u, s) == s || |Unescaped(u, s)| < |s|
    ensures s != [] ==> Unescaped(u, s) != []
  {
    if s == [] || |s| == 1 {
    } else if s[0] != u.escapeChar {
      UnescapedShrinks(u, s[1..]);
      assert [s[0]] + s[1..] == s;
    } else {
      UnescapedShrinks(u, s[2..]);
      assert [s[0], s[1]] + s[2..] == s;
    }
  }

  method Run(u: Unescaper, src: seq<byte>) returns (r: seq<byte>)
    requires u.Valid()
    ensures r == Unescaped(u, src)
  {
    var first := IndexByte(src, u.escapeChar, 0);
    if first == -1 {
      UnescapedUnchanged(u, src);
      return src;
    }
    r := RunFromFirst(u, src, first);
  }
}
