/** The event serializer over its fixed buffer: output/fluentdforward/eventserializer.go. */
module EventSerializer {
  import opened Options
  import opened Bytes
  import opened Msgpack
  import opened Rewriters
  import opened SerializerSpec

  // Rewriter chains: base/bsupport/logrewrites.go

  datatype RewriterConfig = CopyConfig | UnescapeConfig | InlineConfig(field: seq<byte>)

  /** What config verification demands: only the last rewriter ends a chain, and inlined fields exist. */
  predicate Verified(configs: seq<RewriterConfig>, fieldNames: seq<seq<byte>>) {
    forall i | 0 <= i < |configs| ::
      if i + 1 < |configs| then configs[i].InlineConfig? && configs[i].field in fieldNames
      else !configs[i].InlineConfig?
  }

  /** Index of a field of the schema. */
  function Locate(fieldNames: seq<seq<byte>>, name: seq<byte>): (i: nat)
    requires name in fieldNames
    ensures i < |fieldNames| && fieldNames[i] == name
  {
    if fieldNames[0] == name then 0 else 1 + Locate(fieldNames[1..], name)
  }

  /** The chain from the `i`th config on: each inlined field as "name=value ", then the end of the chain. */
  function Chain(configs: seq<RewriterConfig>, fieldNames: seq<seq<byte>>, i: nat): (r: Rewriter)
    requires i < |configs| && Verified(configs, fieldNames)
    ensures r.Located(|fieldNames|)
    decreases |configs| - i
  {
    match configs[i]
    case CopyConfig => Copy
    case UnescapeConfig => Unescape
    case InlineConfig(field) =>
      Inline(field + Ascii("="), Ascii(" "), Locate(fieldNames, field), Chain(configs, fieldNames, i + 1))
  }

  /** Builds a chain from its last rewriter to the first. */
  method NewRewriters(configs: seq<RewriterConfig>, fieldNames: seq<seq<byte>>) returns (head: Option<Rewriter>)
    requires Verified(configs, fieldNames)
    ensures head == if configs == [] then None else Some(Chain(configs, fieldNames, 0))
  {
    head := None;
    var i := |configs|;
    while i > 0
      invariant 0 <= i <= |configs|
      invariant head == if i == |configs| then None else Some(Chain(configs, fieldNames, i))
    {
      i := i - 1;
      head := match configs[i]
        case CopyConfig => Some(Copy)
        case UnescapeConfig => Some(Unescape)
        case InlineConfig(field) =>
          Some(Inline(field + Ascii("="), Ascii(" "), Locate(fieldNames, field), head.value));
    }
  }

  datatype SerializationConfig = SerializationConfig(
    environmentFields: seq<seq<byte>>,
    hiddenFields: seq<seq<byte>>,
    rewriteFields: map<seq<byte>, seq<RewriterConfig>>)

  /** Pre-serialized keys. */
  method SerializeStrings(values: seq<seq<byte>>) returns (results: seq<seq<byte>>)
    ensures |results| == |values|
    ensures forall i | 0 <= i < |values| :: results[i] == StrBytes(values[i])
  {
    results := [];
    for i := 0 to |values|
      invariant |results| == i
      invariant forall k | 0 <= k < i :: results[k] == StrBytes(values[k])
    {
      var key := values[i];
      var buf := new byte[5 + |key|];
      var end := EncodeString(buf, 0, key);
      assert buf[..0] == [];
      results := results + [buf[..end]];
    }
  }

  /** The parts of what has been written. */
  lemma Parts(written: seq<byte>, prefix: seq<byte>, header: seq<byte>, body: seq<byte>)
    requires written == prefix + header + body
    ensures written[..|prefix|] == prefix && written[|prefix| + |header|..] == body
  {
  }

  /** Overwrites a string header by one of the same width; what follows it stays. */
  method PatchStringLen(buffer: array<byte>, at: nat, wide: bool, n: nat, end: nat)
    requires at + |StrHeader(wide, n)| <= end <= buffer.Length
    modifies buffer
    ensures var was := old(buffer[..end]);
            buffer[..end] == was[..at] + StrHeader(wide, n) + was[at + |StrHeader(wide, n)|..]
  {
    ghost var mid := at + |StrHeader(wide, n)|;
    ghost var was := buffer[..end];
    var next := EncodeStringLen(buffer, at, wide, n);
    assert buffer[mid..end] == was[mid..] && was[..at] == old(buffer[..at]);
    assert buffer[..end] == buffer[..mid] + buffer[mid..end];
  }

  /** Writes a rewritten value: a header for the longest form, the body, and the header again if the body is shorter. */
  method WriteChain(rw: Rewriter, value: seq<byte>, record: LogRecord, buffer: array<byte>, start: nat) returns (next: nat)
    requires rw.Located(|record.fields|)
    requires start + |ChainBytes(rw, value, record.fields, record.unescaped)| <= buffer.Length
    modifies record`unescaped, buffer
    ensures next == start + |ChainBytes(rw, value, record.fields, old(record.unescaped))|
    ensures buffer[..next] == old(buffer[..start]) + ChainBytes(rw, value, record.fields, old(record.unescaped))
    ensures record.unescaped == rw.UnescapedAfter(old(record.unescaped))
  {
    ghost var prefix, body := buffer[..start], rw.Rewritten(value, record.fields, record.unescaped);
    var maxLength := rw.MaxFieldLength(value, record.fields);
    var wide := maxLength >= 0x1_0000;
    var position := EncodeStringLen(buffer, start, wide, maxLength);
    next := rw.WriteFieldBody(value, record, buffer, position);
    Parts(buffer[..next], prefix, StrHeader(wide, maxLength), body);
    Regroup(prefix, StrHeader(wide, |body|), body);
    if next - position != maxLength {
      // the width reserved stays, even where the shorter body would do with less
      PatchStringLen(buffer, start, wide, next - position, next);
    }
  }

  /** Writes the root map header into the room reserved for it; what follows it stays. */
  method PatchMapLen(buffer: array<byte>, at: nat, reserved: nat, n: nat, end: nat)
    requires n <= reserved && at + |MapHeader(reserved, n)| <= end <= buffer.Length
    modifies buffer
    ensures var was := old(buffer[..end]);
            buffer[..end] == was[..at] + MapHeader(reserved, n) + was[at + |MapHeader(reserved, n)|..]
  {
    ghost var mid := at + |MapHeader(reserved, n)|;
    ghost var was := buffer[..end];
    if reserved < 16 {
      var next := EncodeMapLen4(buffer, at, n);
    } else {
      var next := EncodeMapLen16(buffer, at, n);
    }
    assert buffer[mid..end] == was[mid..] && was[..at] == old(buffer[..at]);
    assert buffer[..end] == buffer[..mid] + buffer[mid..end];
  }

  /** The same, where the parts before, in and behind the room are known. */
  method PatchReserved(buffer: array<byte>, at: nat, reserved: nat, n: nat, end: nat,
                       ghost before: seq<byte>, ghost room: seq<byte>, ghost after: seq<byte>)
    requires n <= reserved && end <= buffer.Length && |before| == at && |room| == |MapHeader(reserved, n)|
    requires buffer[..end] == before + room + after
    modifies buffer
    ensures buffer[..end] == before + MapHeader(reserved, n) + after
  {
    Parts(buffer[..end], before, room, after);
    PatchMapLen(buffer, at, reserved, n, end);
  }

  class EventSerializer {
    const layout: Layout
    const serializedFieldKeys: seq<seq<byte>>
    const serializedEnvFieldKeys: seq<seq<byte>>
    const buffer: array<byte>

    ghost predicate Valid() {
      && layout.Valid()
      && |serializedFieldKeys| == |layout.fieldNames| && |serializedEnvFieldKeys| == |layout.envNames|
      && (forall i | 0 <= i < |layout.fieldNames| :: serializedFieldKeys[i] == StrBytes(layout.fieldNames[i]))
      && (forall j | 0 <= j < |layout.envNames| :: serializedEnvFieldKeys[j] == StrBytes(layout.envNames[j]))
    }

    /** Builds the tables; an unknown environment field is an error before this point. */
    constructor (fieldNames: seq<seq<byte>>, config: SerializationConfig, bufferSize: nat)
      requires |fieldNames| < 0xffff && |config.environmentFields| < 0x1_0000
      requires forall name | name in config.environmentFields :: name in fieldNames
      requires forall name | name in config.rewriteFields :: Verified(config.rewriteFields[name], fieldNames)
      ensures Valid() && fresh(buffer) && buffer.Length == bufferSize
      ensures layout.fieldNames == fieldNames && layout.envNames == config.environmentFields
      ensures forall j | 0 <= j < |layout.envNames| :: fieldNames[layout.envLocators[j]] == layout.envNames[j]
      ensures forall i | 0 <= i < |fieldNames| ::
                layout.fieldMasks[i] <==> fieldNames[i] in config.environmentFields || fieldNames[i] in config.hiddenFields
      ensures forall i | 0 <= i < |fieldNames| ::
                layout.fieldRewriters[i] == RewriterFor(config, fieldNames, i)
    {
      var envLocators := seq(|config.environmentFields|, j requires 0 <= j < |config.environmentFields| =>
        assert config.environmentFields[j] in config.environmentFields;
        Locate(fieldNames, config.environmentFields[j]));
      var rewriters: seq<Option<Rewriter>>, masks: seq<bool> := [], [];
      for i := 0 to |fieldNames|
        invariant |rewriters| == |masks| == i
        invariant forall k | 0 <= k < i :: rewriters[k] == RewriterFor(config, fieldNames, k)
        invariant forall k | 0 <= k < i ::
                    masks[k] <==> fieldNames[k] in config.environmentFields || fieldNames[k] in config.hiddenFields
      {
        var rewriter := None;
        if fieldNames[i] in config.rewriteFields {
          rewriter := NewRewriters(config.rewriteFields[fieldNames[i]], fieldNames);
        }
        rewriters := rewriters + [rewriter];
        masks := masks + [fieldNames[i] in config.environmentFields || fieldNames[i] in config.hiddenFields];
      }
      var keys := SerializeStrings(fieldNames);
      var envKeys := SerializeStrings(config.environmentFields);
      layout := Layout(fieldNames, masks, rewriters, config.environmentFields, envLocators);
      serializedFieldKeys, serializedEnvFieldKeys := keys, envKeys;
      buffer := new byte[bufferSize];
    }

    /** Writes one field: its pre-serialized key and its value. */
    method WriteField(i: nat, record: LogRecord, start: nat) returns (next: nat)
      requires Valid() && i < |layout.fieldNames| <= |record.fields|
      requires start + |layout.FieldBytes(record.fields, i, record.unescaped)| <= buffer.Length
      modifies record`unescaped, buffer
      ensures next == start + |layout.FieldBytes(record.fields, i, old(record.unescaped))|
      ensures buffer[..next] == old(buffer[..start]) + layout.FieldBytes(record.fields, i, old(record.unescaped))
      ensures record.unescaped == layout.FlagAfter(i, old(record.unescaped))
    {
      Regroup(buffer[..start], serializedFieldKeys[i], layout.ValueBytes(record.fields, i, record.unescaped));
      CopyInto(buffer, start, serializedFieldKeys[i]);
      next := WriteValue(i, record, start + |serializedFieldKeys[i]|);
    }

    method WriteValue(i: nat, record: LogRecord, start: nat) returns (next: nat)
      requires Valid() && i < |layout.fieldNames| <= |record.fields|
      requires start + |layout.ValueBytes(record.fields, i, record.unescaped)| <= buffer.Length
      modifies record`unescaped, buffer
      ensures next == start + |layout.ValueBytes(record.fields, i, old(record.unescaped))|
      ensures buffer[..next] == old(buffer[..start]) + layout.ValueBytes(record.fields, i, old(record.unescaped))
      ensures record.unescaped == layout.FlagAfter(i, old(record.unescaped))
    {
      match layout.fieldRewriters[i] {
        case None =>
          next := EncodeString(buffer, start, record.fields[i]);
        case Some(headRewriter) =>
          LocatedInMore(headRewriter, |layout.fieldNames|, |record.fields|);
          next := WriteChain(headRewriter, record.fields[i], record, buffer, start);
      }
    }

    /** Writes the pairs of all fields that are neither masked nor empty. */
    method WriteFields(record: LogRecord, start: nat) returns (next: nat, written: nat, ghost out: seq<byte>)
      requires Valid() && |layout.fieldNames| <= |record.fields|
      requires start + |layout.RootBytes(record.fields, 0, record.unescaped)| <= buffer.Length
      modifies record`unescaped, buffer
      ensures next == start + |out| <= buffer.Length && buffer[..next] == old(buffer[..start]) + out
      ensures out + layout.EnvironmentBytes(record.fields) == layout.RootBytes(record.fields, 0, old(record.unescaped))
      ensures written + 1 == |layout.RootPairs(record.fields, 0, old(record.unescaped))|
      ensures record.unescaped == layout.FlagAfterFields(record.fields, 0, old(record.unescaped))
    {
      ghost var flag := layout.FlagAfterFields(record.fields, 0, record.unescaped);
      var fields := record.fields;
      ghost var prefix := buffer[..start];
      out := [];
      ghost var root, pairs := layout.RootBytes(fields, 0, record.unescaped), layout.RootPairs(fields, 0, record.unescaped);
      next, written := start, 0;
      for i := 0 to |layout.fieldNames|
        invariant next == start + |out| && next + |layout.RootBytes(fields, i, record.unescaped)| == start + |root|
        invariant buffer[..next] == prefix + out
        invariant out + layout.RootBytes(fields, i, record.unescaped) == root
        invariant written + |layout.RootPairs(fields, i, record.unescaped)| == |pairs|
        invariant layout.FlagAfterFields(fields, i, record.unescaped) == flag
      {
        if layout.fieldMasks[i] || |fields[i]| == 0 {
          continue;
        }
        ghost var field := layout.FieldBytes(fields, i, record.unescaped);
        Regroup(out, field, layout.RootBytes(fields, i + 1, layout.FlagAfter(i, record.unescaped)));
        Regroup(prefix, out, field);
        next := WriteField(i, record, next);
        out := out + field;
        written := written + 1;
      }
    }

    /** Writes the nested environment map under its name. */
    method WriteEnvironment(fields: Fields, start: nat) returns (next: nat)
      requires Valid() && |layout.fieldNames| <= |fields|
      requires start + |layout.EnvironmentBytes(fields)| <= buffer.Length
      modifies buffer
      ensures next == start + |layout.EnvironmentBytes(fields)|
      ensures buffer[..next] == old(buffer[..start]) + layout.EnvironmentBytes(fields)
    {
      ghost var n := |layout.envNames|;
      Regroup(buffer[..start], StrBytes(ENVIRONMENT), MapHeader(n, n));
      Regroup(buffer[..start], StrBytes(ENVIRONMENT) + MapHeader(n, n), layout.EnvBytes(fields, 0));
      next := EncodeString(buffer, start, ENVIRONMENT);
      if |layout.envLocators| < 16 {
        next := EncodeMapLen4(buffer, next, |layout.envLocators|);
      } else {
        next := EncodeMapLen16(buffer, next, |layout.envLocators|);
      }
      next := WriteEnvPairs(fields, next);
    }

    method WriteEnvPairs(fields: Fields, start: nat) returns (next: nat)
      requires Valid() && |layout.fieldNames| <= |fields|
      requires start + |layout.EnvBytes(fields, 0)| <= buffer.Length
      modifies buffer
      ensures next == start + |layout.EnvBytes(fields, 0)|
      ensures buffer[..next] == old(buffer[..start]) + layout.EnvBytes(fields, 0)
    {
      ghost var base, out, body := buffer[..start], [], layout.EnvBytes(fields, 0);
      next := start;
      for j := 0 to |layout.envLocators|
        invariant next == start + |out| && next + |layout.EnvBytes(fields, j)| == start + |body|
        invariant buffer[..next] == base + out
        invariant out + layout.EnvBytes(fields, j) == body
      {
        ghost var pair := StrBytes(layout.envNames[j]) + StrBytes(fields[layout.envLocators[j]]);
        Regroup(out, pair, layout.EnvBytes(fields, j + 1));
        Regroup(base, out, pair);
        next := WriteEnvPair(j, fields, next);
        out := out + pair;
      }
    }

    method WriteEnvPair(j: nat, fields: Fields, start: nat) returns (next: nat)
      requires Valid() && |layout.fieldNames| <= |fields| && j < |layout.envNames|
      requires start + |StrBytes(layout.envNames[j])| + |StrBytes(fields[layout.envLocators[j]])| <= buffer.Length
      modifies buffer
      ensures next == start + |StrBytes(layout.envNames[j])| + |StrBytes(fields[layout.envLocators[j]])|
      ensures buffer[..next]
              == old(buffer[..start]) + (StrBytes(layout.envNames[j]) + StrBytes(fields[layout.envLocators[j]]))
    {
      var value := fields[layout.envLocators[j]];
      Regroup(buffer[..start], StrBytes(layout.envNames[j]), StrBytes(value));
      CopyInto(buffer, start, serializedEnvFieldKeys[j]);
      next := EncodeString(buffer, start + |serializedEnvFieldKeys[j]|, value);
    }

    method WriteHead(record: LogRecord) returns (position: nat)
      requires 11 <= buffer.Length
      modifies buffer
      ensures position == 11 && buffer[..position] == [0x92] + TimeBytes(record.seconds, record.nanos)
    {
      assert buffer[..0] == [];
      position := EncodeArrayLen4(buffer, 0, 2);
      position := EncodeEventTime(buffer, position, record.seconds, record.nanos);
    }

    method WriteEvent(record: LogRecord) returns (position: nat)
      requires Valid() && |layout.fieldNames| <= |record.fields|
      requires |EventOf(record)| <= buffer.Length
      modifies record`unescaped, buffer
      ensures position <= buffer.Length && buffer[..position] == old(EventOf(record))
      ensures record.unescaped == layout.FlagAfterFields(record.fields, 0, old(record.unescaped))
    {
      Regroup([0x92], TimeBytes(record.seconds, record.nanos), layout.RootMapBytes(record.fields, record.unescaped));
      position := WriteHead(record);
      position := WriteRootEntries(record, position);
      position := WriteEnvironment(record.fields, position);
    }

    /**
     Writes one record as [time, fields]. A record that fills the buffer to its last byte is reported as too long.
     */
    method EncodeRecord(record: LogRecord) returns (position: nat)
      requires Valid() && |layout.fieldNames| <= |record.fields|
      requires |EventOf(record)| <= buffer.Length
      modifies record`unescaped, buffer
      ensures position == if |old(EventOf(record))| == buffer.Length then 0 else |old(EventOf(record))|
      ensures buffer[..position] == if position == 0 then [] else old(EventOf(record))
      ensures record.unescaped == layout.FlagAfterFields(record.fields, 0, old(record.unescaped))
    {
      position := WriteEvent(record);
      if position == buffer.Length {
        return 0;
      }
    }

    /** Writes the fields behind room for the map header, and the header when their number is known. */
    method WriteCounted(record: LogRecord, reserved: nat) returns (next: nat, ghost written: nat, ghost out: seq<byte>)
      requires Valid() && |layout.fieldNames| <= |record.fields|
      requires reserved + |layout.RootMapBytes(record.fields, record.unescaped)| <= buffer.Length
      modifies record`unescaped, buffer
      ensures reserved <= next <= buffer.Length && written <= |layout.fieldNames|
      ensures buffer[..next] == old(buffer[..reserved]) + MapHeader(|layout.fieldNames| + 1, written + 1) + out
      ensures out + layout.EnvironmentBytes(record.fields) == layout.RootBytes(record.fields, 0, old(record.unescaped))
      ensures written + 1 == |layout.RootPairs(record.fields, 0, old(record.unescaped))|
      ensures record.unescaped == layout.FlagAfterFields(record.fields, 0, old(record.unescaped))
    {
      ghost var before := buffer[..reserved];
      var start := reserved + (if |layout.fieldNames| + 1 < 16 then 1 else 3); // the header comes when the entries are counted
      ghost var room := buffer[reserved..start];
      assert buffer[..start] == before + room;
      var rootMapSize;
      next, rootMapSize, out := WriteFields(record, start);
      written := rootMapSize;
      PatchReserved(buffer, reserved, |layout.fieldNames| + 1, rootMapSize + 1, next, before, room, out); // +1 for "environment"
    }

    /** With the environment map behind it, this is the root map. */
    method WriteRootEntries(record: LogRecord, reserved: nat) returns (next: nat)
      requires Valid() && |layout.fieldNames| <= |record.fields|
      requires reserved + |layout.RootMapBytes(record.fields, record.unescaped)| <= buffer.Length
      modifies record`unescaped, buffer
      ensures reserved <= next <= buffer.Length
      ensures buffer[..next] + layout.EnvironmentBytes(record.fields)
              == old(buffer[..reserved]) + layout.RootMapBytes(record.fields, old(record.unescaped))
      ensures record.unescaped == layout.FlagAfterFields(record.fields, 0, old(record.unescaped))
    {
      ghost var before, written, out := buffer[..reserved], 0, [];
      next, written, out := WriteCounted(record, reserved);
      Assemble(before, MapHeader(|layout.fieldNames| + 1, written + 1), out, layout.EnvironmentBytes(record.fields));
    }

    lemma Assemble(prefix: seq<byte>, header: seq<byte>, written: seq<byte>, env: seq<byte>)
      ensures prefix + header + written + env == prefix + (header + (written + env))
    {
    }

    ghost function EventOf(record: LogRecord): seq<byte>
      requires Valid() && |layout.fieldNames| <= |record.fields|
      reads record
    {
      layout.EventBytes(record.fields, record.seconds, record.nanos, record.unescaped)
    }

    /** A record that leaves a byte of the buffer free serializes to exactly one event, which decodes to its fields. */
    method SerializeRecord(record: LogRecord) returns (stream: seq<byte>)
      requires Valid() && |layout.fieldNames| <= |record.fields| && buffer.Length <= 0x1_0000_0000
      requires |EventOf(record)| <= buffer.Length
      modifies record`unescaped, buffer
      ensures |old(EventOf(record))| == buffer.Length ==> stream == []
      ensures |old(EventOf(record))| < buffer.Length ==>
                stream == old(EventOf(record))
                && Encodes(stream, layout.Event(record.fields, record.seconds, record.nanos, old(record.unescaped)))
      ensures record.unescaped == layout.FlagAfterFields(record.fields, 0, old(record.unescaped))
    {
      ghost var flag := record.unescaped;
      var length := EncodeRecord(record);
      stream := buffer[..length];
      if length > 0 {
        layout.EventEncodes(record.fields, record.seconds, record.nanos, flag);
      }
    }
  }

  function RewriterFor(config: SerializationConfig, fieldNames: seq<seq<byte>>, i: nat): Option<Rewriter>
    requires i < |fieldNames|
    requires forall name | name in config.rewriteFields :: Verified(config.rewriteFields[name], fieldNames)
  {
    if fieldNames[i] !in config.rewriteFields || config.rewriteFields[fieldNames[i]] == [] then None
    else Some(Chain(config.rewriteFields[fieldNames[i]], fieldNames, 0))
  }
}
