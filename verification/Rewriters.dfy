/**
 Field rewriters and the transform one of them replaces: rewrite/rinline, rewrite/rcopy, rewrite/runescape,
 transform/tunescape.
 */
module Rewriters {
  import opened Bytes
  import opened Unescape

  /** The unescaper for syslog inputs: base/bsupport/unescape.go. */
  const SYSLOG_UNESCAPER: Unescaper :=
    NewUnescaper(92, map[98 := 8, 102 := 12, 110 := 10, 114 := 13, 116 := 9])

  type Fields = seq<seq<byte>>

  /** A record while it is processed; the flag says whether its message has been unescaped. */
  class LogRecord {
    var fields: Fields
    var seconds: int
    var nanos: nat
    var unescaped: bool

    constructor (fields: Fields, seconds: int, nanos: nat, unescaped: bool)
      ensures this.fields == fields && this.seconds == seconds && this.nanos == nanos && this.unescaped == unescaped
    {
      this.fields, this.seconds, this.nanos, this.unescaped := fields, seconds, nanos, unescaped;
    }
  }

  /** The body of the 'unescape' rewriter. */
  method WriteUnescaped(value: seq<byte>, record: LogRecord, buffer: array<byte>, start: nat) returns (end: nat)
    requires start + |Rewriter.Unescape.Rewritten(value, record.fields, record.unescaped)| <= buffer.Length
    modifies record`unescaped, buffer
    ensures record.unescaped
    ensures end == start + |Rewriter.Unescape.Rewritten(value, record.fields, old(record.unescaped))| <= start + |value|
    ensures buffer[..end] == old(buffer[..start]) + Rewriter.Unescape.Rewritten(value, record.fields, old(record.unescaped))
    ensures forall k | end <= k < buffer.Length :: buffer[k] == old(buffer[k])
  {
    if record.unescaped {
      CopyInto(buffer, start, value);
      return start + |value|;
    }
    record.unescaped := true;
    var first := IndexByte(value, SYSLOG_UNESCAPER.escapeChar, 0);
    if first == -1 {
      UnescapedUnchanged(SYSLOG_UNESCAPER, value);
      CopyInto(buffer, start, value);
      return start + |value|;
    }
    var n := RunToBuffer(SYSLOG_UNESCAPER, value, first, buffer, start);
    end := start + n;
  }

  /** The part of the 'inline' rewriter before the next one takes over. */
  method WriteInlined(header: seq<byte>, fieldValue: seq<byte>, separator: seq<byte>, buffer: array<byte>, start: nat)
    returns (end: nat)
    requires start + |header| + |fieldValue| + |separator| <= buffer.Length
    modifies buffer
    ensures end == start + |header| + |fieldValue| + |separator|
    ensures buffer[..end] == old(buffer[..start]) + header + fieldValue + separator
    ensures forall k | end <= k < buffer.Length :: buffer[k] == old(buffer[k])
  {
    CopyInto(buffer, start, header);
    end := start + |header|;
    CopyInto(buffer, end, fieldValue);
    end := end + |fieldValue|;
    CopyInto(buffer, end, separator);
    end := end + |separator|;
  }

  lemma Regroup4(a: seq<byte>, b: seq<byte>, c: seq<byte>, d: seq<byte>, e: seq<byte>)
    ensures a + (b + (c + (d + e))) == a + b + c + d + e
  {
  }

  /** A chain of rewriters; `Copy` and `Unescape` end a chain. */
  datatype Rewriter =
    | Copy
    | Unescape
    | Inline(header: seq<byte>, separator: seq<byte>, locator: nat, next: Rewriter)
  {
    /** Every field named in the chain exists. */
    predicate Located(numFields: nat) {
      Inline? ==> locator < numFields && next.Located(numFields)
    }

    /** The room reserved for the rewritten value. */
    function MaxFieldLength(value: seq<byte>, fields: Fields): nat
      requires Located(|fields|)
    {
      match this
      case Copy => |value|
      case Unescape => |value|
      case Inline(header, separator, locator, next) =>
        if |fields[locator]| > 0
        then |header| + |fields[locator]| + |separator| + next.MaxFieldLength(value, fields)
        else next.MaxFieldLength(value, fields)
    }

    /** What the chain makes of a value, given whether the record was unescaped before. */
    function Rewritten(value: seq<byte>, fields: Fields, unescaped: bool): seq<byte>
      requires Located(|fields|)
    {
      match this
      case Copy => value
      case Unescape => if unescaped then value else Unescaped(SYSLOG_UNESCAPER, value)
      case Inline(header, separator, locator, next) =>
        if |fields[locator]| > 0
        then header + (fields[locator] + (separator + next.Rewritten(value, fields, unescaped)))
        else next.Rewritten(value, fields, unescaped)
    }

    /** Whether the record counts as unescaped after the chain has run. */
    function UnescapedAfter(unescaped: bool): bool {
      match this
      case Copy => unescaped
      case Unescape => true
      case Inline(_, _, _, next) => next.UnescapedAfter(unescaped)
    }

    lemma {:induction false} RewrittenFits(value: seq<byte>, fields: Fields, unescaped: bool)
      requires Located(|fields|)
      ensures |Rewritten(value, fields, unescaped)| <= MaxFieldLength(value, fields)
    {
      if Inline? {
        next.RewrittenFits(value, fields, unescaped);
      }
    }

    /** Writes the rewritten value to the buffer and returns where it ends. */
    method WriteFieldBody(value: seq<byte>, record: LogRecord, buffer: array<byte>, start: nat) returns (end: nat)
      requires Located(|record.fields|)
      requires start + |Rewritten(value, record.fields, record.unescaped)| <= buffer.Length
      modifies record`unescaped, buffer
      ensures end == start + |Rewritten(value, record.fields, old(record.unescaped))|
      ensures end - start <= MaxFieldLength(value, record.fields)
      ensures buffer[..end] == old(buffer[..start]) + Rewritten(value, record.fields, old(record.unescaped))
      ensures forall k | end <= k < buffer.Length :: buffer[k] == old(buffer[k])
      ensures record.unescaped == UnescapedAfter(old(record.unescaped))
      decreases this
    {
      match this {
        case Copy =>
          CopyInto(buffer, start, value);
          end := start + |value|;
        case Unescape =>
          end := WriteUnescaped(value, record, buffer, start);
        case Inline(header, separator, locator, next) =>
          var fieldValue := record.fields[locator];
          if |fieldValue| > 0 {
            Regroup4(buffer[..start], header, fieldValue, separator, next.Rewritten(value, record.fields, record.unescaped));
            var at := WriteInlined(header, fieldValue, separator, buffer, start);
            end := next.WriteFieldBody(value, record, buffer, at);
          } else {
            end := next.WriteFieldBody(value, record, buffer, start);
          }
      }
    }

    /** The same chain with the unescaping taken out. */
    function WithoutUnescape(): Rewriter {
      match this
      case Copy => Copy
      case Unescape => Copy
      case Inline(header, separator, locator, next) => Inline(header, separator, locator, next.WithoutUnescape())
    }

    predicate EndsInUnescape() {
      match this
      case Copy => false
      case Unescape => true
      case Inline(_, _, _, next) => next.EndsInUnescape()
    }

    predicate Inlines(field: nat) {
      Inline? && (locator == field || next.Inlines(field))
    }
  }

  /** Fields and flag after the 'unescape' transform on field `key`. */
  function Transformed(key: nat, fields: Fields, unescaped: bool): (Fields, bool)
    requires key < |fields|
  {
    (if unescaped then fields else fields[key := Unescaped(SYSLOG_UNESCAPER, fields[key])], true)
  }

  /** The 'unescape' transform. */
  method UnescapeTransform(key: nat, record: LogRecord)
    requires key < |record.fields|
    modifies record`fields, record`unescaped
    ensures (record.fields, record.unescaped) == Transformed(key, old(record.fields), old(record.unescaped))
  {
    if record.unescaped {
      return;
    }
    record.unescaped := true;
    var value := record.fields[key];
    assert record.fields[key := value] == record.fields;
    if |value| == 0 {
      return;
    }
    var first := IndexByte(value, SYSLOG_UNESCAPER.escapeChar, 0);
    if first == -1 {
      UnescapedUnchanged(SYSLOG_UNESCAPER, value);
      return;
    }
    var result := RunFromFirst(SYSLOG_UNESCAPER, value, first);
    record.fields := record.fields[key := result];
  }

  /** What the chain makes of field `key` if it unescapes by itself. */
  function RewrittenInChain(rw: Rewriter, key: nat, fields: Fields, unescaped: bool): (seq<byte>, bool)
    requires rw.Located(|fields|) && key < |fields|
  {
    (rw.Rewritten(fields[key], fields, unescaped), rw.UnescapedAfter(unescaped))
  }

  /** What it makes of the field if the transform has unescaped it before. */
  function TransformedBefore(rw: Rewriter, key: nat, fields: Fields, unescaped: bool): (seq<byte>, bool)
    requires rw.WithoutUnescape().Located(|fields|) && key < |fields|
  {
    var (after, flag) := Transformed(key, fields, unescaped);
    (rw.WithoutUnescape().Rewritten(after[key], after, flag), rw.WithoutUnescape().UnescapedAfter(flag))
  }

  lemma {:induction false} LocatedWithoutUnescape(rw: Rewriter, n: nat)
    requires rw.Located(n)
    ensures rw.WithoutUnescape().Located(n)
  {
    if rw.Inline? {
      LocatedWithoutUnescape(rw.next, n);
    }
  }

  /** Where the chain does not inline the field, or unescaping changes nothing, the two agree. */
  lemma {:induction false} AgreesIfHarmless(rw: Rewriter, key: nat, fields: Fields, unescaped: bool)
    requires rw.EndsInUnescape() && rw.Located(|fields|) && rw.WithoutUnescape().Located(|fields|) && key < |fields|
    requires !rw.Inlines(key) || unescaped || Unescaped(SYSLOG_UNESCAPER, fields[key]) == fields[key]
    ensures RewrittenInChain(rw, key, fields, unescaped) == TransformedBefore(rw, key, fields, unescaped)
  {
    if rw.Inline? {
      AgreesIfHarmless(rw.next, key, fields, unescaped);
    }
  }

  /** Otherwise the transform shortens the inlined copies of the field too. */
  lemma {:induction false} TransformShortensMore(rw: Rewriter, key: nat, fields: Fields)
    requires rw.EndsInUnescape() && rw.Located(|fields|) && rw.WithoutUnescape().Located(|fields|) && key < |fields|
    requires Unescaped(SYSLOG_UNESCAPER, fields[key]) != fields[key]
    ensures |TransformedBefore(rw, key, fields, false).0| <= |RewrittenInChain(rw, key, fields, false).0|
    ensures rw.Inlines(key) ==>
              |TransformedBefore(rw, key, fields, false).0| < |RewrittenInChain(rw, key, fields, false).0|
  {
    if rw.Inline? {
      UnescapedShrinks(SYSLOG_UNESCAPER, fields[key]);
      TransformShortensMore(rw.next, key, fields);
    }
  }

  /**
   Unescaping while serializing gives the same output and flag as the transform before it, unless the chain inlines the
   very field it unescapes, and that has something to unescape.
   */
  lemma RewriterAgreesWithTransform(rw: Rewriter, key: nat, fields: Fields, unescaped: bool)
    requires rw.EndsInUnescape() && rw.Located(|fields|) && key < |fields|
    ensures rw.WithoutUnescape().Located(|fields|)
    ensures RewrittenInChain(rw, key, fields, unescaped) == TransformedBefore(rw, key, fields, unescaped)
            <==> !rw.Inlines(key) || unescaped || Unescaped(SYSLOG_UNESCAPER, fields[key]) == fields[key]
  {
    LocatedWithoutUnescape(rw, |fields|);
    if !rw.Inlines(key) || unescaped || Unescaped(SYSLOG_UNESCAPER, fields[key]) == fields[key] {
      AgreesIfHarmless(rw, key, fields, unescaped);
    } else {
      TransformShortensMore(rw, key, fields);
    }
  }

  /** A chain that inlines its own field, and a backslash with an 'n' in it: the configuration accepts such a chain. */
  lemma RewriterDisagrees()
    ensures var rw, fields := Inline([], [], 0, Unescape), [[92, 110]];
            && rw.Located(|fields|) && rw.WithoutUnescape().Located(|fields|)
            && RewrittenInChain(rw, 0, fields, false) == ([92, 110, 10], true)
            && TransformedBefore(rw, 0, fields, false) == ([10, 10], true)
  {
    var value: seq<byte> := [92, 110];
    assert value[2..] == [];
    assert Unescaped(SYSLOG_UNESCAPER, value) == [10];
    var rw, fields := Inline([], [], 0, Unescape), [value];
    assert fields[0 := [10]] == [[10]];
    assert rw.Rewritten(value, fields, false) == [] + (value + ([] + [10])) == [92, 110, 10];
    assert rw.WithoutUnescape() == Inline([], [], 0, Copy);
    assert rw.WithoutUnescape().Rewritten([10], [[10]], true) == [] + ([10] + ([] + [10])) == [10, 10];
  }
}
