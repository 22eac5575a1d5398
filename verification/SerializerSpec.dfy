/** What the event serializer writes for a record, and that a MessagePack decoder reads it back. */
module SerializerSpec {
  import opened Options
  import opened Bytes
  import opened Msgpack
  import opened Rewriters
  import opened Unescape

  /** The tables the serializer is built from: which fields go where, and through which rewriters. */
  datatype Layout = Layout(
    fieldNames: seq<seq<byte>>,
    fieldMasks: seq<bool>,
    fieldRewriters: seq<Option<Rewriter>>,
    envNames: seq<seq<byte>>,
    envLocators: seq<nat>)
  {
    ghost predicate Valid() {
      && |fieldNames| == |fieldMasks| == |fieldRewriters| && |envNames| == |envLocators|
      && (forall j | 0 <= j < |envLocators| :: envLocators[j] < |fieldNames|)
      && (forall i | 0 <= i < |fieldRewriters| && fieldRewriters[i].Some? ::
            fieldRewriters[i].value.Located(|fieldNames|))
      && |fieldNames| < 0xffff && |envNames| < 0x1_0000
    }

    /** Field `i` is written to the root map. */
    predicate Written(fields: Fields, i: nat)
      requires i < |fieldMasks| && i < |fields|
    {
      !fieldMasks[i] && |fields[i]| > 0
    }

    /** The value written for field `i`, after its rewriters. */
    function FinalValue(fields: Fields, i: nat, unescaped: bool): seq<byte>
      requires Valid() && i < |fieldNames| <= |fields|
    {
      if fieldRewriters[i].None? then fields[i]
      else LocatedInMore(fieldRewriters[i].value, |fieldNames|, |fields|);
           fieldRewriters[i].value.Rewritten(fields[i], fields, unescaped)
    }

    function FlagAfter(i: nat, unescaped: bool): bool
      requires i < |fieldRewriters|
    {
      if fieldRewriters[i].None? then unescaped else fieldRewriters[i].value.UnescapedAfter(unescaped)
    }

    /** Field `i` is written through a chain that unescapes it. */
    predicate Unescapes(fields: Fields, i: nat)
      requires i < |fieldMasks| == |fieldRewriters| <= |fields|
    {
      Written(fields, i) && fieldRewriters[i].Some? && fieldRewriters[i].value.EndsInUnescape()
    }

    /** The first such field from `i` on; the number of fields if there is none. */
    function FirstUnescaping(fields: Fields, i: nat): (k: nat)
      requires Valid() && i <= |fieldNames| <= |fields|
      ensures i <= k <= |fieldNames| && (k < |fieldNames| ==> Unescapes(fields, k))
      ensures forall m | i <= m < k :: !Unescapes(fields, m)
      decreases |fieldNames| - i
    {
      if i == |fieldNames| || Unescapes(fields, i) then i else FirstUnescaping(fields, i + 1)
    }

    /** The flag of the record when the fields from `i` on have been written. */
    function FlagAfterFields(fields: Fields, i: nat, unescaped: bool): bool
      requires Valid() && i <= |fieldNames| <= |fields|
      decreases |fieldNames| - i
    {
      if i == |fieldNames| then unescaped
      else FlagAfterFields(fields, i + 1, if Written(fields, i) then FlagAfter(i, unescaped) else unescaped)
    }

    /** Writing a record marks it as unescaped exactly if some chain it goes through unescapes. */
    lemma {:induction false} FlagAfterFieldsIff(fields: Fields, i: nat, unescaped: bool)
      requires Valid() && i <= |fieldNames| <= |fields|
      ensures FlagAfterFields(fields, i, unescaped) <==> unescaped || FirstUnescaping(fields, i) < |fieldNames|
      decreases |fieldNames| - i
    {
      if i < |fieldNames| {
        if fieldRewriters[i].Some? {
          UnescapedAfterIff(fieldRewriters[i].value, unescaped);
        }
        FlagAfterFieldsIff(fields, i + 1, if Written(fields, i) then FlagAfter(i, unescaped) else unescaped);
      }
    }

    /** It makes no difference to what is written whether the record has been unescaped. */
    predicate FlagIrrelevant(fields: Fields, i: nat)
      requires Valid() && i <= |fieldNames| <= |fields|
    {
      var k := FirstUnescaping(fields, i);
      k == |fieldNames| || Unescaped(SYSLOG_UNESCAPER, fields[k]) == fields[k]
    }

    // Meaning

    function EnvPairs(fields: Fields, j: nat): seq<(Value, Value)>
      requires Valid() && |fieldNames| <= |fields| && j <= |envNames|
      decreases |envNames| - j
    {
      if j == |envNames| then []
      else [(Str(envNames[j]), Str(fields[envLocators[j]]))] + EnvPairs(fields, j + 1)
    }

    /** Entries of the root map from field `i` on; the nested environment map is the last. */
    function RootPairs(fields: Fields, i: nat, unescaped: bool): (r: seq<(Value, Value)>)
      requires Valid() && i <= |fieldNames| <= |fields|
      ensures 1 <= |r| <= |fieldNames| - i + 1
      decreases |fieldNames| - i
    {
      if i == |fieldNames| then [(Str(ENVIRONMENT), Map(EnvPairs(fields, 0)))]
      else if !Written(fields, i) then RootPairs(fields, i + 1, unescaped)
      else [(Str(fieldNames[i]), Str(FinalValue(fields, i, unescaped)))] + RootPairs(fields, i + 1, FlagAfter(i, unescaped))
    }

    /** One event: its time and its fields. */
    function Event(fields: Fields, seconds: int, nanos: nat, unescaped: bool): Value
      requires Valid() && |fieldNames| <= |fields|
    {
      Arr([EventTime(seconds % 0x1_0000_0000, nanos % 0x1_0000_0000), Map(RootPairs(fields, 0, unescaped))])
    }

    // Bytes

    function ValueBytes(fields: Fields, i: nat, unescaped: bool): seq<byte>
      requires Valid() && i < |fieldNames| <= |fields|
    {
      if fieldRewriters[i].None? then StrBytes(fields[i])
      else LocatedInMore(fieldRewriters[i].value, |fieldNames|, |fields|);
           ChainBytes(fieldRewriters[i].value, fields[i], fields, unescaped)
    }

    function EnvBytes(fields: Fields, j: nat): seq<byte>
      requires Valid() && |fieldNames| <= |fields| && j <= |envNames|
      decreases |envNames| - j
    {
      if j == |envNames| then []
      else StrBytes(envNames[j]) + StrBytes(fields[envLocators[j]]) + EnvBytes(fields, j + 1)
    }

    function EnvironmentBytes(fields: Fields): seq<byte>
      requires Valid() && |fieldNames| <= |fields|
    {
      StrBytes(ENVIRONMENT) + MapHeader(|envNames|, |envNames|) + EnvBytes(fields, 0)
    }

    function FieldBytes(fields: Fields, i: nat, unescaped: bool): seq<byte>
      requires Valid() && i < |fieldNames| <= |fields|
    {
      StrBytes(fieldNames[i]) + ValueBytes(fields, i, unescaped)
    }

    function RootBytes(fields: Fields, i: nat, unescaped: bool): seq<byte>
      requires Valid() && i <= |fieldNames| <= |fields|
      decreases |fieldNames| - i
    {
      if i == |fieldNames| then EnvironmentBytes(fields)
      else if !Written(fields, i) then RootBytes(fields, i + 1, unescaped)
      else FieldBytes(fields, i, unescaped) + RootBytes(fields, i + 1, FlagAfter(i, unescaped))
    }

    function EventBytes(fields: Fields, seconds: int, nanos: nat, unescaped: bool): seq<byte>
      requires Valid() && |fieldNames| <= |fields|
    {
      [0x92] + (TimeBytes(seconds, nanos) + RootMapBytes(fields, unescaped))
    }

    function RootMapBytes(fields: Fields, unescaped: bool): seq<byte>
      requires Valid() && |fieldNames| <= |fields|
    {
      MapHeader(|fieldNames| + 1, |RootPairs(fields, 0, unescaped)|) + RootBytes(fields, 0, unescaped)
    }

    // How much of it depends on the flag

    lemma {:induction false} PairCountIgnoresFlag(fields: Fields, i: nat, a: bool, b: bool)
      requires Valid() && i <= |fieldNames| <= |fields|
      ensures |RootPairs(fields, i, a)| == |RootPairs(fields, i, b)|
      decreases |fieldNames| - i
    {
      if i < |fieldNames| {
        if Written(fields, i) {
          PairCountIgnoresFlag(fields, i + 1, FlagAfter(i, a), FlagAfter(i, b));
        } else {
          PairCountIgnoresFlag(fields, i + 1, a, b);
        }
      }
    }

    /** The value of one field: its header has the same width either way. */
    lemma ValueBytesByFlag(fields: Fields, i: nat)
      requires Valid() && i < |fieldNames| <= |fields| && Written(fields, i)
      ensures !Unescapes(fields, i) || Unescaped(SYSLOG_UNESCAPER, fields[i]) == fields[i] ==>
                ValueBytes(fields, i, false) == ValueBytes(fields, i, true)
      ensures Unescapes(fields, i) && Unescaped(SYSLOG_UNESCAPER, fields[i]) != fields[i] ==>
                |ValueBytes(fields, i, false)| < |ValueBytes(fields, i, true)|
      ensures FlagAfter(i, true)
      ensures FlagAfter(i, false) <==> Unescapes(fields, i)
    {
      if fieldRewriters[i].Some? {
        var rw := fieldRewriters[i].value;
        LocatedInMore(rw, |fieldNames|, |fields|);
        RewrittenByFlag(rw, fields[i], fields);
        UnescapedAfterIff(rw, false);
        UnescapedAfterIff(rw, true);
      }
    }

    /** Only the first field that is unescaped can tell: the record counts as unescaped after it. */
    lemma {:induction false} RootBytesByFlag(fields: Fields, i: nat)
      requires Valid() && i <= |fieldNames| <= |fields|
      ensures FlagIrrelevant(fields, i) ==> RootBytes(fields, i, false) == RootBytes(fields, i, true)
      ensures !FlagIrrelevant(fields, i) ==> |RootBytes(fields, i, false)| < |RootBytes(fields, i, true)|
      decreases |fieldNames| - i
    {
      if i < |fieldNames| {
        RootBytesByFlag(fields, i + 1);
        if Written(fields, i) {
          ValueBytesByFlag(fields, i);
        }
      }
    }

    /** Whether a record counts as unescaped shows in its event exactly if there is a field to tell it by. */
    lemma EventBytesByFlag(fields: Fields, seconds: int, nanos: nat)
      requires Valid() && |fieldNames| <= |fields|
      ensures EventBytes(fields, seconds, nanos, false) == EventBytes(fields, seconds, nanos, true)
              <==> FlagIrrelevant(fields, 0)
    {
      PairCountIgnoresFlag(fields, 0, false, true);
      RootBytesByFlag(fields, 0);
      assert |EventBytes(fields, seconds, nanos, false)| - |RootBytes(fields, 0, false)|
          == |EventBytes(fields, seconds, nanos, true)| - |RootBytes(fields, 0, true)|;
    }

    // The bytes decode to the meaning

    lemma ValueEncodes(fields: Fields, i: nat, unescaped: bool)
      requires Valid() && i < |fieldNames| <= |fields|
      requires |ValueBytes(fields, i, unescaped)| < 0x1_0000_0000
      ensures Encodes(ValueBytes(fields, i, unescaped), Str(FinalValue(fields, i, unescaped)))
    {
      var v := FinalValue(fields, i, unescaped);
      if fieldRewriters[i].None? {
        StrEncodes(v);
      } else {
        var rw := fieldRewriters[i].value;
        LocatedInMore(rw, |fieldNames|, |fields|);
        rw.RewrittenFits(fields[i], fields, unescaped);
        if rw.MaxFieldLength(fields[i], fields) < 0x1_0000 {
          Str16Encodes(v);
        } else {
          Str32Encodes(v);
        }
      }
    }

    lemma {:induction false} EnvEncodes(fields: Fields, j: nat)
      requires Valid() && |fieldNames| <= |fields| && j <= |envNames|
      requires |EnvBytes(fields, j)| < 0x1_0000_0000
      ensures EncodesPairs(EnvBytes(fields, j), EnvPairs(fields, j)) && |EnvPairs(fields, j)| == |envNames| - j
      decreases |envNames| - j
    {
      if j == |envNames| {
        NoPairsEncode();
      } else {
        EnvEncodes(fields, j + 1);
        var k, v := envNames[j], fields[envLocators[j]];
        StrEncodes(k);
        StrEncodes(v);
        PairsEncode(StrBytes(k), Str(k), StrBytes(v), Str(v), EnvBytes(fields, j + 1), EnvPairs(fields, j + 1));
      }
    }

    lemma {:induction false} RootEncodes(fields: Fields, i: nat, unescaped: bool)
      requires Valid() && i <= |fieldNames| <= |fields|
      requires |RootBytes(fields, i, unescaped)| < 0x1_0000_0000
      ensures EncodesPairs(RootBytes(fields, i, unescaped), RootPairs(fields, i, unescaped))
      decreases |fieldNames| - i
    {
      if i == |fieldNames| {
        EnvEncodes(fields, 0);
        StrEncodes(ENVIRONMENT);
        MapEncodes(|envNames|, EnvBytes(fields, 0), EnvPairs(fields, 0));
        NoPairsEncode();
        var entries := MapHeader(|envNames|, |envNames|) + EnvBytes(fields, 0);
        PairsEncode(StrBytes(ENVIRONMENT), Str(ENVIRONMENT), entries, Map(EnvPairs(fields, 0)), [], []);
        Regroup(StrBytes(ENVIRONMENT), MapHeader(|envNames|, |envNames|), EnvBytes(fields, 0));
        assert StrBytes(ENVIRONMENT) + entries + [] == EnvironmentBytes(fields);
        assert [(Str(ENVIRONMENT), Map(EnvPairs(fields, 0)))] + [] == RootPairs(fields, i, unescaped);
      } else if !Written(fields, i) {
        RootEncodes(fields, i + 1, unescaped);
      } else {
        var flag := FlagAfter(i, unescaped);
        RootEncodes(fields, i + 1, flag);
        StrEncodes(fieldNames[i]);
        ValueEncodes(fields, i, unescaped);
        PairsEncode(StrBytes(fieldNames[i]), Str(fieldNames[i]),
                    ValueBytes(fields, i, unescaped), Str(FinalValue(fields, i, unescaped)),
                    RootBytes(fields, i + 1, flag), RootPairs(fields, i + 1, flag));
      }
    }

    /** Decoding what the serializer writes gives exactly the event, with no bytes left over. */
    lemma EventEncodes(fields: Fields, seconds: int, nanos: nat, unescaped: bool)
      requires Valid() && |fieldNames| <= |fields|
      requires |EventBytes(fields, seconds, nanos, unescaped)| < 0x1_0000_0000
      ensures Encodes(EventBytes(fields, seconds, nanos, unescaped), Event(fields, seconds, nanos, unescaped))
    {
      var pairs, root := RootPairs(fields, 0, unescaped), RootBytes(fields, 0, unescaped);
      RootEncodes(fields, 0, unescaped);
      MapEncodes(|fieldNames| + 1, root, pairs);
      TimeEncodes(seconds, nanos);
      TwoItemsEncode(TimeBytes(seconds, nanos), EventTime(seconds % 0x1_0000_0000, nanos % 0x1_0000_0000),
                     MapHeader(|fieldNames| + 1, |pairs|) + root, Map(pairs));
    }
  }

  const ENVIRONMENT: seq<byte> := Ascii("environment")

  /** A chain built for a schema works on records with more fields. */
  lemma {:induction false} LocatedInMore(rw: Rewriter, n: nat, m: nat)
    requires rw.Located(n) && n <= m
    ensures rw.Located(m)
  {
    if rw.Inline? {
      LocatedInMore(rw.next, n, m);
    }
  }

  lemma {:induction false} UnescapedAfterIff(rw: Rewriter, unescaped: bool)
    ensures rw.UnescapedAfter(unescaped) <==> unescaped || rw.EndsInUnescape()
  {
    if rw.Inline? {
      UnescapedAfterIff(rw.next, unescaped);
    }
  }

  lemma {:induction false} RewrittenByFlag(rw: Rewriter, value: seq<byte>, fields: Fields)
    requires rw.Located(|fields|)
    ensures !rw.EndsInUnescape() || Unescaped(SYSLOG_UNESCAPER, value) == value ==>
              rw.Rewritten(value, fields, false) == rw.Rewritten(value, fields, true)
    ensures rw.EndsInUnescape() && Unescaped(SYSLOG_UNESCAPER, value) != value ==>
              |rw.Rewritten(value, fields, false)| < |rw.Rewritten(value, fields, true)|
  {
    if rw.Inline? {
      RewrittenByFlag(rw.next, value, fields);
    } else {
      UnescapedShrinks(SYSLOG_UNESCAPER, value);
    }
  }

  /** A rewritten value with a header of the width that its longest form needs. */
  function ChainBytes(rw: Rewriter, value: seq<byte>, fields: Fields, unescaped: bool): seq<byte>
    requires rw.Located(|fields|)
  {
    var body := rw.Rewritten(value, fields, unescaped);
    StrHeader(rw.MaxFieldLength(value, fields) >= 0x1_0000, |body|) + body
  }
}
