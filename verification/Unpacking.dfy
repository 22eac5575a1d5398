/** Chunk payloads give the records back: concatenated MessagePack values, or the elements of a JSON array. */
module Unpacking {
  import opened Bytes
  import opened Msgpack
  import opened PackingSpec

  // MessagePack streams

  lemma {:induction false} FlattenFirst(batch: seq<Stream>)
    requires batch != []
    ensures Flatten(batch) == batch[0] + Flatten(batch[1..])
  {
    var n := |batch| - 1;
    if n == 0 {
      assert batch == [batch[0]];
    } else {
      FlattenFirst(batch[..n]);
      assert batch[1..][..n - 1] == batch[..n][1..];
      Regroup(batch[0], Flatten(batch[1..n]), batch[n]);
      assert batch[..n][1..] == batch[1..n];
    }
  }

  /** The payload of a Fluentd chunk decodes to the values of its records, in order. */
  lemma {:induction false} PayloadDecodes(batch: seq<Stream>, values: seq<Value>)
    requires |batch| == |values| && forall i | 0 <= i < |batch| :: Encodes(batch[i], values[i])
    ensures DecodeStream(Payload(Fluentd, batch)) == Decoded(values, [])
  {
    if batch != [] {
      FlattenFirst(batch);
      PayloadDecodes(batch[1..], values[1..]);
      var rest := Flatten(batch[1..]);
      assert Decode(batch[0] + rest) == Decoded(values[0], rest);
      NotEmpty(batch[0], values[0]);
      assert values == [values[0]] + values[1..];
    }
  }

  lemma NotEmpty(b: seq<byte>, v: Value)
    requires Encodes(b, v)
    ensures b != []
  {
    assert Decode(b + []) == Decoded(v, []);
    assert b + [] == b;
  }

  /** The streams that are not empty: a record that is too long for the serializer gives an empty one. */
  function Present(batch: seq<Stream>): seq<Stream> {
    if batch == [] then [] else Present(batch[..|batch| - 1]) + if batch[|batch| - 1] == [] then [] else [batch[|batch| - 1]]
  }

  lemma {:induction false} PresentPayload(batch: seq<Stream>)
    ensures Flatten(Present(batch)) == Flatten(batch)
    ensures |Present(batch)| <= |batch| && (|Present(batch)| == |batch| <==> [] !in batch)
  {
    if batch != [] {
      var before, last := batch[..|batch| - 1], batch[|batch| - 1];
      PresentPayload(before);
      assert batch == before + [last];
      if last != [] {
        assert (Present(before) + [last])[..|Present(before)|] == Present(before);
      } else {
        assert Present(before) + [] == Present(before) && Flatten(before) + [] == Flatten(before);
      }
    }
  }

  /**
   A chunk counts the records that were too long, though they have no event in it: the number announced for a batch is
   the number of events in its payload exactly if it has no such record.
   */
  lemma CountedIsContainedIff(cfg: Config, c: Chunk, batch: seq<Stream>, values: seq<Value>)
    requires cfg.format.Fluentd? && Contains(cfg, c, batch) && |values| == |Present(batch)|
    requires forall i | 0 <= i < |values| :: Encodes(Present(batch)[i], values[i])
    ensures DecodeStream(Finalize(cfg, c).payload) == Decoded(values, [])
    ensures Finalize(cfg, c).numRecords == |values| <==> [] !in batch
  {
    PresentPayload(batch);
    PayloadDecodes(Present(batch), values);
  }

  // JSON arrays

  const QUOTE: byte := 34
  const BACKSLASH: byte := 92
  const OPEN_BRACE: byte := 123
  const CLOSE_BRACE: byte := 125

  /** Where a scan of JSON text is. */
  datatype Scan = Scan(depth: int, inString: bool, escaped: bool)

  const TOP := Scan(0, false, false)

  function Step(s: Scan, b: byte): Scan {
    if s.inString then
      if s.escaped then s.(escaped := false)
      else if b == BACKSLASH then s.(escaped := true)
      else s.(inString := b != QUOTE)
    else if b == QUOTE then s.(inString := true)
    else if b == OPEN_BRACE || b == OPEN_BRACKET then s.(depth := s.depth + 1)
    else if b == CLOSE_BRACE || b == CLOSE_BRACKET then s.(depth := s.depth - 1)
    else s
  }

  /** The pieces between commas that are in no string and no nested object or array. */
  function Elements(text: seq<byte>, s: Scan, piece: seq<byte>): seq<Stream>
    decreases |text|
  {
    if text == [] then [piece]
    else if s == TOP && text[0] == COMMA then [piece] + Elements(text[1..], TOP, [])
    else Elements(text[1..], Step(s, text[0]), piece + [text[0]])
  }

  function UnpackArray(payload: seq<byte>): seq<Stream>
    requires |payload| >= 2
  {
    var text := payload[1..|payload| - 1];
    if text == [] then [] else Elements(text, TOP, [])
  }

  /** Text that closes all it opens, with no comma outside, like a JSON object. */
  predicate Closed(text: seq<byte>, s: Scan)
    decreases |text|
  {
    if text == [] then s == TOP
    else !(s == TOP && text[0] == COMMA) && Closed(text[1..], Step(s, text[0]))
  }

  lemma {:induction false} ElementsPast(text: seq<byte>, s: Scan, rest: seq<byte>, piece: seq<byte>)
    requires Closed(text, s)
    ensures Elements(text + rest, s, piece) == Elements(rest, TOP, piece + text)
    decreases |text|
  {
    if text == [] {
      assert text + rest == rest && piece + text == piece;
    } else {
      assert (text + rest)[1..] == text[1..] + rest;
      ElementsPast(text[1..], Step(s, text[0]), rest, piece + [text[0]]);
      assert piece + [text[0]] + text[1..] == piece + text;
    }
  }

  lemma ElementsOfFirst(text: seq<byte>, rest: seq<byte>)
    requires Closed(text, TOP)
    ensures Elements(text + [COMMA] + rest, TOP, []) == [text] + Elements(rest, TOP, [])
  {
    Regroup(text, [COMMA], rest);
    ElementsPast(text, TOP, [COMMA] + rest, []);
    assert ([COMMA] + rest)[1..] == rest && [] + text == text;
  }

  lemma {:induction false} ElementsOfMore(batch: seq<Stream>, rest: seq<byte>)
    requires batch != [] && forall i | 0 <= i < |batch| :: Closed(batch[i], TOP)
    ensures Elements(Join(batch) + [COMMA] + rest, TOP, []) == batch + Elements(rest, TOP, [])
    decreases |batch|
  {
    var n := |batch| - 1;
    ElementsOfFirst(batch[n], rest);
    if n == 0 {
      assert batch == [batch[0]];
    } else {
      var before := Join(batch[..n]);
      assert before + [COMMA] + batch[n] + [COMMA] + rest == before + [COMMA] + (batch[n] + [COMMA] + rest);
      ElementsOfMore(batch[..n], batch[n] + [COMMA] + rest);
      Regroup(batch[..n], [batch[n]], Elements(rest, TOP, []));
      assert batch == batch[..n] + [batch[n]];
    }
  }

  /** The payload of a Datadog chunk is an array of exactly its records, in order. */
  lemma PayloadSplits(batch: seq<Stream>)
    requires forall i | 0 <= i < |batch| :: Closed(batch[i], TOP) && batch[i] != []
    ensures |Payload(Datadog, batch)| >= 2 && UnpackArray(Payload(Datadog, batch)) == batch
  {
    var payload := Payload(Datadog, batch);
    assert payload[1..|payload| - 1] == Join(batch);
    if batch != [] {
      var n := |batch| - 1;
      ElementsPast(batch[n], TOP, [], []);
      assert batch[n] + [] == batch[n] && [] + batch[n] == batch[n];
      if n > 0 {
        ElementsOfMore(batch[..n], batch[n]);
        assert batch == batch[..n] + [batch[n]];
      } else {
        assert batch == [batch[0]];
      }
    }
  }
}
