/**
 The MessagePack subset the agent writes (output/fastmsgpack, output/fluentdforward/eventtime.go), and a decoder
 for the str, array and map families of the MessagePack "Formats" section and for EventTime.
 */
module Msgpack {
  import opened Bytes

  // Big-endian numbers

  /** Go's `byte(n)`. */
  function ToByte(n: int): byte {
    var low: int := n % 0x100;
    low
  }

  function BE2(n: int): (r: seq<byte>)
    ensures |r| == 2
  {
    [ToByte(n / 0x100), ToByte(n)]
  }

  function BE4(n: int): (r: seq<byte>)
    ensures |r| == 4
  {
    [ToByte(n / 0x100_0000), ToByte(n / 0x1_0000), ToByte(n / 0x100), ToByte(n)]
  }

  function Value2(b: seq<byte>): (n: nat)
    requires |b| == 2
    ensures n < 0x1_0000
  {
    var high: int, low: int := b[0], b[1];
    high * 0x100 + low
  }

  function Value4(b: seq<byte>): (n: nat)
    requires |b| == 4
    ensures n < 0x1_0000_0000
  {
    Value2(b[..2]) * 0x1_0000 + Value2(b[2..])
  }

  /** Two bytes hold a number modulo 2^16. */
  lemma Value2Of(n: int)
    ensures Value2(BE2(n)) == n % 0x1_0000
  {
  }

  lemma Value4Of(n: int)
    ensures Value4(BE4(n)) == n % 0x1_0000_0000
  {
    var high := n / 0x1_0000;
    assert n / 0x100_0000 == high / 0x100;
    assert BE4(n) == BE2(high) + BE2(n);
    assert BE4(n)[..2] == BE2(high) && BE4(n)[2..] == BE2(n);
    Value2Of(high);
    Value2Of(n);
    JoinHalves(n);
  }

  lemma JoinHalves(n: int)
    ensures n / 0x1_0000 % 0x1_0000 * 0x1_0000 + n % 0x1_0000 == n % 0x1_0000_0000
  {
  }

  // Encoders, as text

  function Str4Header(n: nat): (r: seq<byte>)
    requires n < 16
  {
    [0xa0 + n]
  }

  function Str16Header(n: nat): (r: seq<byte>)
    ensures |r| == 3
  {
    [0xda] + BE2(n)
  }

  function Str32Header(n: nat): (r: seq<byte>)
    ensures |r| == 5
  {
    [0xdb] + BE4(n)
  }

  /** The header whose width was chosen before the length was known. */
  function StrHeader(wide: bool, n: nat): (r: seq<byte>)
    ensures |r| == if wide then 5 else 3
  {
    if wide then Str32Header(n) else Str16Header(n)
  }

  /** A string in the narrowest of the three widths in use. */
  function StrBytes(s: seq<byte>): seq<byte> {
    (if |s| < 16 then Str4Header(|s|) else if |s| < 0x1_0000 then Str16Header(|s|) else Str32Header(|s|)) + s
  }

  /** A map header whose width is chosen by `reserved`, the largest size it may have to hold. */
  function MapHeader(reserved: nat, n: nat): (r: seq<byte>)
    requires n <= reserved
  {
    if reserved < 16 then [0x80 + n] else [0xde] + BE2(n)
  }

  function TimeBytes(seconds: int, nanos: nat): (r: seq<byte>)
    ensures |r| == 10
  {
    [0xd7, 0] + BE4(seconds) + BE4(nanos)
  }

  // Decoder

  datatype Value =
    | Str(s: seq<byte>)
    | Arr(items: seq<Value>)
    | Map(pairs: seq<(Value, Value)>)
    | EventTime(seconds: nat, nanos: nat)

  datatype Decoded<T> = Malformed | Decoded(value: T, rest: seq<byte>)

  function TakeStr(n: nat, b: seq<byte>): Decoded<Value> {
    if n <= |b| then Decoded(Str(b[..n]), b[n..]) else Malformed
  }

  /** Decodes the first value of `b`. */
  function Decode(b: seq<byte>): (r: Decoded<Value>)
    ensures r.Decoded? ==> |r.rest| < |b|
    decreases |b|, 0, 0
  {
    if b == [] then Malformed
    else
      var h, t := b[0], b[1..];
      if 0xa0 <= h <= 0xbf then TakeStr(h - 0xa0, t)
      else if h == 0xd9 && |t| >= 1 then TakeStr(t[0], t[1..])
      else if h == 0xda && |t| >= 2 then TakeStr(Value2(t[..2]), t[2..])
      else if h == 0xdb && |t| >= 4 then TakeStr(Value4(t[..4]), t[4..])
      else if 0x90 <= h <= 0x9f then AsArr(DecodeItems(h - 0x90, t))
      else if h == 0xdc && |t| >= 2 then AsArr(DecodeItems(Value2(t[..2]), t[2..]))
      else if h == 0xdd && |t| >= 4 then AsArr(DecodeItems(Value4(t[..4]), t[4..]))
      else if 0x80 <= h <= 0x8f then AsMap(DecodePairs(h - 0x80, t))
      else if h == 0xde && |t| >= 2 then AsMap(DecodePairs(Value2(t[..2]), t[2..]))
      else if h == 0xdf && |t| >= 4 then AsMap(DecodePairs(Value4(t[..4]), t[4..]))
      else if h == 0xd7 && |t| >= 9 && t[0] == 0 then
        Decoded(EventTime(Value4(t[1..5]), Value4(t[5..9])), t[9..])
      else Malformed
  }

  function AsArr(r: Decoded<seq<Value>>): Decoded<Value> {
    if r.Malformed? then Malformed else Decoded(Arr(r.value), r.rest)
  }

  function AsMap(r: Decoded<seq<(Value, Value)>>): Decoded<Value> {
    if r.Malformed? then Malformed else Decoded(Map(r.value), r.rest)
  }

  /** Decodes `n` values. */
  function DecodeItems(n: nat, b: seq<byte>): (r: Decoded<seq<Value>>)
    ensures r.Decoded? ==> |r.rest| <= |b|
    decreases |b|, 1, n
  {
    if n == 0 then Decoded([], b)
    else
      var first := Decode(b);
      if first.Malformed? then Malformed
      else
        var more := DecodeItems(n - 1, first.rest);
        if more.Malformed? then Malformed else Decoded([first.value] + more.value, more.rest)
  }

  /** Decodes `n` keys, each with its value. */
  function DecodePairs(n: nat, b: seq<byte>): (r: Decoded<seq<(Value, Value)>>)
    ensures r.Decoded? ==> |r.rest| <= |b|
    decreases |b|, 1, n
  {
    if n == 0 then Decoded([], b)
    else
      var k := Decode(b);
      if k.Malformed? then Malformed
      else
        var v := Decode(k.rest);
        if v.Malformed? then Malformed
        else
          var more := DecodePairs(n - 1, v.rest);
          if more.Malformed? then Malformed else Decoded([(k.value, v.value)] + more.value, more.rest)
  }

  // What decodes to what

  /** `b` is one encoded value: it decodes to `v` in front of anything. */
  ghost predicate Encodes(b: seq<byte>, v: Value) {
    forall rest: seq<byte> {:trigger b + rest} :: Decode(b + rest) == Decoded(v, rest)
  }

  ghost predicate EncodesItems(b: seq<byte>, items: seq<Value>) {
    forall rest: seq<byte> {:trigger b + rest} :: DecodeItems(|items|, b + rest) == Decoded(items, rest)
  }

  ghost predicate EncodesPairs(b: seq<byte>, pairs: seq<(Value, Value)>) {
    forall rest: seq<byte> {:trigger b + rest} :: DecodePairs(|pairs|, b + rest) == Decoded(pairs, rest)
  }

  /** The parts of an encoded value: its first byte, a fixed-width length and the rest. */
  lemma Cut(h: byte, width: seq<byte>, body: seq<byte>, rest: seq<byte>)
    ensures var b := [h] + width + body + rest;
            && b[0] == h && b[1..] == width + (body + rest)
            && b[1..][..|width|] == width && b[1..][|width|..] == body + rest
            && (body + rest)[..|body|] == body && (body + rest)[|body|..] == rest
  {
    var b := [h] + width + body + rest;
    assert b[1..] == width + (body + rest);
  }

  lemma Str4Encodes(s: seq<byte>)
    requires |s| < 16
    ensures Encodes(Str4Header(|s|) + s, Str(s))
  {
    forall rest: seq<byte> ensures Decode(Str4Header(|s|) + s + rest) == Decoded(Str(s), rest) {
      var b := Str4Header(|s|) + s + rest;
      assert b[1..] == s + rest && (s + rest)[..|s|] == s && (s + rest)[|s|..] == rest;
    }
  }

  /** The 16-bit form may hold any length that fits, also a short one. */
  lemma Str16Encodes(s: seq<byte>)
    requires |s| < 0x1_0000
    ensures Encodes(Str16Header(|s|) + s, Str(s))
  {
    Value2Of(|s|);
    forall rest: seq<byte> ensures Decode(Str16Header(|s|) + s + rest) == Decoded(Str(s), rest) {
      Cut(0xda, BE2(|s|), s, rest);
    }
  }

  lemma Str32Encodes(s: seq<byte>)
    requires |s| < 0x1_0000_0000
    ensures Encodes(Str32Header(|s|) + s, Str(s))
  {
    Value4Of(|s|);
    forall rest: seq<byte> ensures Decode(Str32Header(|s|) + s + rest) == Decoded(Str(s), rest) {
      Cut(0xdb, BE4(|s|), s, rest);
    }
  }

  lemma StrEncodes(s: seq<byte>)
    requires |s| < 0x1_0000_0000
    ensures Encodes(StrBytes(s), Str(s))
  {
    if |s| < 16 {
      Str4Encodes(s);
    } else if |s| < 0x1_0000 {
      Str16Encodes(s);
    } else {
      Str32Encodes(s);
    }
  }

  lemma TimeEncodes(seconds: int, nanos: nat)
    ensures Encodes(TimeBytes(seconds, nanos), EventTime(seconds % 0x1_0000_0000, nanos % 0x1_0000_0000))
  {
    Value4Of(seconds);
    Value4Of(nanos);
    forall rest: seq<byte> ensures Decode(TimeBytes(seconds, nanos) + rest)
        == Decoded(EventTime(seconds % 0x1_0000_0000, nanos % 0x1_0000_0000), rest) {
      CutTime(BE4(seconds), BE4(nanos), rest);
    }
  }

  lemma CutTime(x: seq<byte>, y: seq<byte>, rest: seq<byte>)
    requires |x| == |y| == 4
    ensures var b := [0xd7, 0] + x + y + rest;
            b[0] == 0xd7 && b[1] == 0 && b[1..][1..5] == x && b[1..][5..9] == y && b[1..][9..] == rest
  {
    var b := [0xd7, 0] + x + y + rest;
    assert b[1..] == [0] + x + y + rest;
  }

  lemma NoPairsEncode()
    ensures EncodesPairs([], [])
  {
    forall rest: seq<byte> ensures DecodePairs(0, [] + rest) == Decoded([], rest) {
      assert [] + rest == rest;
    }
  }

  lemma PairsEncode(kb: seq<byte>, k: Value, vb: seq<byte>, v: Value, b: seq<byte>, pairs: seq<(Value, Value)>)
    requires Encodes(kb, k) && Encodes(vb, v) && EncodesPairs(b, pairs)
    ensures EncodesPairs(kb + vb + b, [(k, v)] + pairs)
  {
    forall rest: seq<byte> ensures DecodePairs(1 + |pairs|, kb + vb + b + rest) == Decoded([(k, v)] + pairs, rest) {
      Regroup(vb, b, rest);
      Regroup(kb, vb, b + rest);
      Regroup(kb + vb, b, rest);
      assert kb + vb + b + rest == kb + (vb + (b + rest));
    }
  }

  lemma MapEncodes(reserved: nat, b: seq<byte>, pairs: seq<(Value, Value)>)
    requires |pairs| <= reserved < 0x1_0000 && EncodesPairs(b, pairs)
    ensures Encodes(MapHeader(reserved, |pairs|) + b, Map(pairs))
  {
    Value2Of(|pairs|);
    forall rest: seq<byte> ensures Decode(MapHeader(reserved, |pairs|) + b + rest) == Decoded(Map(pairs), rest) {
      if reserved < 16 {
        assert ([0x80 + |pairs|] + b + rest)[1..] == b + rest;
      } else {
        Cut(0xde, BE2(|pairs|), b, rest);
      }
    }
  }

  lemma NoItemsEncode()
    ensures EncodesItems([], [])
  {
    forall rest: seq<byte> ensures DecodeItems(0, [] + rest) == Decoded([], rest) {
      assert [] + rest == rest;
    }
  }

  lemma ItemsEncode(xb: seq<byte>, x: Value, b: seq<byte>, items: seq<Value>)
    requires Encodes(xb, x) && EncodesItems(b, items)
    ensures EncodesItems(xb + b, [x] + items)
  {
    forall rest: seq<byte> ensures DecodeItems(1 + |items|, xb + b + rest) == Decoded([x] + items, rest) {
      Regroup(xb, b, rest);
      assert Decode(xb + (b + rest)) == Decoded(x, b + rest);
      assert DecodeItems(|items|, b + rest) == Decoded(items, rest);
    }
  }

  lemma ArrayEncodes(b: seq<byte>, items: seq<Value>)
    requires |items| < 16 && EncodesItems(b, items)
    ensures Encodes([0x90 + |items|] + b, Arr(items))
  {
    forall rest: seq<byte> ensures Decode([0x90 + |items|] + b + rest) == Decoded(Arr(items), rest) {
      assert ([0x90 + |items|] + b + rest)[1..] == b + rest;
    }
  }

  lemma TwoItemsEncode(xb: seq<byte>, x: Value, yb: seq<byte>, y: Value)
    requires Encodes(xb, x) && Encodes(yb, y)
    ensures Encodes([0x92] + (xb + yb), Arr([x, y]))
  {
    NoItemsEncode();
    ItemsEncode(yb, y, [], []);
    ItemsEncode(xb, x, yb + [], [y] + []);
    assert xb + (yb + []) == xb + yb && [x] + ([y] + []) == [x, y];
    ArrayEncodes(xb + yb, [x, y]);
  }

  // A stream of values

  /** Decodes all values of a stream. */
  function DecodeStream(b: seq<byte>): Decoded<seq<Value>>
    decreases |b|
  {
    if b == [] then Decoded([], [])
    else
      var first := Decode(b);
      if first.Malformed? then Malformed
      else
        var more := DecodeStream(first.rest);
        if more.Malformed? then Malformed else Decoded([first.value] + more.value, [])
  }

  // Writers

  method Write2(buffer: array<byte>, start: nat, n: int) returns (next: nat)
    requires start + 2 <= buffer.Length
    modifies buffer
    ensures next == start + 2 && buffer[..next] == old(buffer[..start]) + BE2(n)
    ensures forall k | next <= k < buffer.Length :: buffer[k] == old(buffer[k])
  {
    buffer[start] := ToByte(n / 0x100);
    buffer[start + 1] := ToByte(n);
    next := start + 2;
  }

  method Write4(buffer: array<byte>, start: nat, n: int) returns (next: nat)
    requires start + 4 <= buffer.Length
    modifies buffer
    ensures next == start + 4 && buffer[..next] == old(buffer[..start]) + BE4(n)
    ensures forall k | next <= k < buffer.Length :: buffer[k] == old(buffer[k])
  {
    buffer[start] := ToByte(n / 0x100_0000);
    buffer[start + 1] := ToByte(n / 0x1_0000);
    buffer[start + 2] := ToByte(n / 0x100);
    buffer[start + 3] := ToByte(n);
    next := start + 4;
  }

  method EncodeArrayLen4(buffer: array<byte>, start: nat, arrayLen: nat) returns (next: nat)
    requires start < buffer.Length && arrayLen < 16
    modifies buffer
    ensures next == start + 1 && buffer[..next] == old(buffer[..start]) + [0x90 + arrayLen]
    ensures forall k | next <= k < buffer.Length :: buffer[k] == old(buffer[k])
  {
    buffer[start] := 0x90 + arrayLen;
    next := start + 1;
  }

  method EncodeMapLen4(buffer: array<byte>, start: nat, mapLen: nat) returns (next: nat)
    requires start < buffer.Length && mapLen < 16
    modifies buffer
    ensures next == start + 1 && buffer[..next] == old(buffer[..start]) + [0x80 + mapLen]
    ensures forall k | next <= k < buffer.Length :: buffer[k] == old(buffer[k])
  {
    buffer[start] := 0x80 + mapLen;
    next := start + 1;
  }

  method EncodeMapLen16(buffer: array<byte>, start: nat, mapLen: nat) returns (next: nat)
    requires start + 3 <= buffer.Length
    modifies buffer
    ensures next == start + 3 && buffer[..next] == old(buffer[..start]) + ([0xde] + BE2(mapLen))
    ensures forall k | next <= k < buffer.Length :: buffer[k] == old(buffer[k])
  {
    Regroup(buffer[..start], [0xde], BE2(mapLen));
    buffer[start] := 0xde;
    next := Write2(buffer, start + 1, mapLen);
  }

  method EncodeStringLen4(buffer: array<byte>, start: nat, strLen: nat) returns (next: nat)
    requires start < buffer.Length && strLen < 16
    modifies buffer
    ensures next == start + 1 && buffer[..next] == old(buffer[..start]) + Str4Header(strLen)
    ensures forall k | next <= k < buffer.Length :: buffer[k] == old(buffer[k])
  {
    buffer[start] := 0xa0 + strLen;
    next := start + 1;
  }

  method EncodeStringLen16(buffer: array<byte>, start: nat, strLen: nat) returns (next: nat)
    requires start + 3 <= buffer.Length
    modifies buffer
    ensures next == start + 3 && buffer[..next] == old(buffer[..start]) + Str16Header(strLen)
    ensures forall k | next <= k < buffer.Length :: buffer[k] == old(buffer[k])
  {
    Regroup(buffer[..start], [0xda], BE2(strLen));
    buffer[start] := 0xda;
    next := Write2(buffer, start + 1, strLen);
  }

  method EncodeStringLen32(buffer: array<byte>, start: nat, strLen: nat) returns (next: nat)
    requires start + 5 <= buffer.Length
    modifies buffer
    ensures next == start + 5 && buffer[..next] == old(buffer[..start]) + Str32Header(strLen)
    ensures forall k | next <= k < buffer.Length :: buffer[k] == old(buffer[k])
  {
    Regroup(buffer[..start], [0xdb], BE4(strLen));
    buffer[start] := 0xdb;
    next := Write4(buffer, start + 1, strLen);
  }

  method EncodeStringLen(buffer: array<byte>, start: nat, wide: bool, strLen: nat) returns (next: nat)
    requires start + |StrHeader(wide, strLen)| <= buffer.Length
    modifies buffer
    ensures next == start + |StrHeader(wide, strLen)|
    ensures buffer[..next] == old(buffer[..start]) + StrHeader(wide, strLen)
    ensures forall k | next <= k < buffer.Length :: buffer[k] == old(buffer[k])
  {
    if wide {
      next := EncodeStringLen32(buffer, start, strLen);
    } else {
      next := EncodeStringLen16(buffer, start, strLen);
    }
  }

  /** A string in the narrowest of the three widths, as the serializer picks them. */
  method EncodeString(buffer: array<byte>, start: nat, s: seq<byte>) returns (next: nat)
    requires start + |StrBytes(s)| <= buffer.Length
    modifies buffer
    ensures next == start + |StrBytes(s)| && buffer[..next] == old(buffer[..start]) + StrBytes(s)
    ensures forall k | next <= k < buffer.Length :: buffer[k] == old(buffer[k])
  {
    ghost var prefix := buffer[..start];
    if |s| < 16 {
      Regroup(prefix, Str4Header(|s|), s);
      next := EncodeStringLen4(buffer, start, |s|);
    } else if |s| < 0x1_0000 {
      Regroup(prefix, Str16Header(|s|), s);
      next := EncodeStringLen16(buffer, start, |s|);
    } else {
      Regroup(prefix, Str32Header(|s|), s);
      next := EncodeStringLen32(buffer, start, |s|);
    }
    CopyInto(buffer, next, s);
    next := next + |s|;
  }

  /** Fluentd's EventTime: an 8-byte extension of type 0; the seconds are cut to 32 bits. */
  method EncodeEventTime(buffer: array<byte>, start: nat, seconds: int, nanos: nat) returns (next: nat)
    requires start + 10 <= buffer.Length
    modifies buffer
    ensures next == start + 10 && buffer[..next] == old(buffer[..start]) + TimeBytes(seconds, nanos)
    ensures forall k | next <= k < buffer.Length :: buffer[k] == old(buffer[k])
  {
    ghost var prefix := buffer[..start];
    buffer[start] := 0xd7;
    buffer[start + 1] := 0;
    assert buffer[..start + 2] == prefix + [0xd7, 0];
    next := Write4(buffer, start + 2, seconds);
    next := Write4(buffer, next, nanos);
    Regroup(prefix, [0xd7, 0], BE4(seconds));
    Regroup(prefix, [0xd7, 0] + BE4(seconds), BE4(nanos));
  }
}
