/**
 What becomes of a record whose event does not fit into the serializer's buffer
 (output/fluentdforward/eventserializer.go:91-203): headers are written byte by byte and panic at the end of the buffer,
 strings are copied as far as there is room.
 */
module Overlong {
  import opened Options
  import opened Bytes
  import opened Msgpack
  import opened Rewriters
  import opened SerializerSpec
  import opened Unescape

  /** One write, by its length: room reserved counts like bytes written, since what comes next cannot start behind the end. */
  datatype Item = Put(n: nat) | CopyIn(n: nat)

  datatype Fate = At(position: nat) | Panic

  function Place(f: Fate, item: Item, limit: nat): Fate {
    if f.Panic? then Panic
    else if item.Put? then (if f.position + item.n > limit then Panic else At(f.position + item.n))
    else At(if f.position + item.n > limit then limit else f.position + item.n)
  }

  function Placed(items: seq<Item>, limit: nat): Fate {
    if items == [] then At(0) else Place(Placed(items[..|items| - 1], limit), items[|items| - 1], limit)
  }

  function Total(items: seq<Item>): nat {
    if items == [] then 0 else Total(items[..|items| - 1]) + items[|items| - 1].n
  }

  lemma {:induction false} TotalAppends(a: seq<Item>, b: seq<Item>)
    ensures Total(a + b) == Total(a) + Total(b)
  {
    if b == [] {
      assert a + b == a;
    } else {
      var n := |b| - 1;
      assert (a + b)[..|a| + n] == a + b[..n];
      TotalAppends(a, b[..n]);
    }
  }

  /** What fits is written where it belongs; else the writing has ended in a panic or at the end of the buffer. */
  lemma {:induction false} PlacedByTotal(items: seq<Item>, limit: nat)
    ensures Total(items) <= limit ==> Placed(items, limit) == At(Total(items))
    ensures Total(items) > limit ==> Placed(items, limit) == Panic || Placed(items, limit) == At(limit)
  {
    if items != [] {
      PlacedByTotal(items[..|items| - 1], limit);
    }
  }

  /** A header and a string at the end: the header decides whether it panics. */
  lemma HeaderDecides(items: seq<Item>, n: nat, m: nat, limit: nat)
    requires n > 0
    ensures var total := Total(items) + n;
            Placed(items + [Put(n)] + [CopyIn(m)], limit)
            == if total > limit then Panic else At(if total + m > limit then limit else total + m)
    ensures Placed(items + [Put(n)], limit) == if Total(items) + n > limit then Panic else At(Total(items) + n)
  {
    PlacedByTotal(items, limit);
    var first := items + [Put(n)];
    assert first[..|items|] == items && (first + [CopyIn(m)])[..|first|] == first;
  }

  // The writes of an event

  function StrItems(s: seq<byte>): seq<Item> {
    [Put(|StrBytes(s)| - |s|), CopyIn(|s|)]
  }

  /** Unescaping into the buffer. */
  function UnescapeItems(s: seq<byte>): seq<Item> {
    if s == [] then []
    else if s[0] != SYSLOG_UNESCAPER.escapeChar || |s| == 1 then [CopyIn(1)] + UnescapeItems(s[1..])
    else [Put(|Expand(SYSLOG_UNESCAPER, s[1])|)] + UnescapeItems(s[2..])
  }

  function ChainItems(rw: Rewriter, value: seq<byte>, fields: Fields, unescaped: bool): seq<Item>
    requires rw.Located(|fields|)
  {
    match rw
    case Copy => [CopyIn(|value|)]
    case Unescape => if unescaped then [CopyIn(|value|)] else UnescapeItems(value)
    case Inline(header, separator, locator, next) =>
      if |fields[locator]| > 0 then
        [CopyIn(|header|), CopyIn(|fields[locator]|), CopyIn(|separator|)]
        + ChainItems(next, value, fields, unescaped)
      else ChainItems(next, value, fields, unescaped)
  }

  function ValueItems(l: Layout, fields: Fields, i: nat, unescaped: bool): seq<Item>
    requires l.Valid() && i < |l.fieldNames| <= |fields|
  {
    if l.fieldRewriters[i].None? then StrItems(fields[i])
    else
      var rw := l.fieldRewriters[i].value;
      LocatedInMore(rw, |l.fieldNames|, |fields|);
      [Put(if rw.MaxFieldLength(fields[i], fields) >= 0x1_0000 then 5 else 3)] + ChainItems(rw, fields[i], fields, unescaped)
  }

  function FieldItems(l: Layout, fields: Fields, i: nat, unescaped: bool): seq<Item>
    requires l.Valid() && i <= |l.fieldNames| <= |fields|
    decreases |l.fieldNames| - i
  {
    if i == |l.fieldNames| then []
    else if !l.Written(fields, i) then FieldItems(l, fields, i + 1, unescaped)
    else
      [CopyIn(|StrBytes(l.fieldNames[i])|)] + ValueItems(l, fields, i, unescaped)
      + FieldItems(l, fields, i + 1, l.FlagAfter(i, unescaped))
  }

  /** Of the environment fields from `j` up to `n`. */
  function EnvItems(l: Layout, fields: Fields, n: nat): seq<Item>
    requires l.Valid() && |l.fieldNames| <= |fields| && n <= |l.envNames|
  {
    if n == 0 then []
    else
      EnvItems(l, fields, n - 1) + [CopyIn(|StrBytes(l.envNames[n - 1])|)] + StrItems(fields[l.envLocators[n - 1]])
  }

  function HeaderLength(n: nat): nat {
    if n < 16 then 1 else 3
  }

  /** Everything up to the environment fields; the name of their map is shorter than 16 bytes. */
  function ItemsBefore(l: Layout, fields: Fields, unescaped: bool): seq<Item>
    requires l.Valid() && |l.fieldNames| <= |fields|
  {
    [Put(1), Put(10), Put(HeaderLength(|l.fieldNames| + 1))] + FieldItems(l, fields, 0, unescaped) + StrItems(ENVIRONMENT)
  }

  function EventItems(l: Layout, fields: Fields, unescaped: bool): seq<Item>
    requires l.Valid() && |l.fieldNames| <= |fields|
  {
    ItemsBefore(l, fields, unescaped) + [Put(HeaderLength(|l.envNames|))] + EnvItems(l, fields, |l.envNames|)
  }

  // They add up to the event

  lemma TotalOne(item: Item)
    ensures Total([item]) == item.n
  {
    assert [item][..0] == [];
  }

  lemma TotalStr(s: seq<byte>)
    ensures Total(StrItems(s)) == |StrBytes(s)|
  {
    var header, body := Put(|StrBytes(s)| - |s|), CopyIn(|s|);
    assert StrItems(s) == [header] + [body];
    TotalAppends([header], [body]);
    TotalOne(header);
    TotalOne(body);
  }

  lemma {:induction false} TotalUnescaped(s: seq<byte>)
    ensures Total(UnescapeItems(s)) == |Unescaped(SYSLOG_UNESCAPER, s)|
  {
    if s == [] {
    } else if s[0] != SYSLOG_UNESCAPER.escapeChar || |s| == 1 {
      TotalUnescaped(s[1..]);
      TotalAppends([CopyIn(1)], UnescapeItems(s[1..]));
      TotalOne(CopyIn(1));
    } else {
      var first := Put(|Expand(SYSLOG_UNESCAPER, s[1])|);
      TotalUnescaped(s[2..]);
      TotalAppends([first], UnescapeItems(s[2..]));
      TotalOne(first);
    }
  }

  lemma TotalThree(a: Item, b: Item, c: Item)
    ensures Total([a, b, c]) == a.n + b.n + c.n
  {
    assert [a, b, c] == [a] + [b] + [c];
    TotalAppends([a] + [b], [c]);
    TotalAppends([a], [b]);
    TotalOne(a);
    TotalOne(b);
    TotalOne(c);
  }

  lemma {:induction false} TotalChain(rw: Rewriter, value: seq<byte>, fields: Fields, unescaped: bool)
    requires rw.Located(|fields|)
    ensures Total(ChainItems(rw, value, fields, unescaped)) == |rw.Rewritten(value, fields, unescaped)|
  {
    match rw
    case Copy => TotalOne(CopyIn(|value|));
    case Unescape =>
      if unescaped {
        TotalOne(CopyIn(|value|));
      } else {
        TotalUnescaped(value);
      }
    case Inline(header, separator, locator, next) =>
      TotalChain(next, value, fields, unescaped);
      if |fields[locator]| > 0 {
        var a, b, c := CopyIn(|header|), CopyIn(|fields[locator]|), CopyIn(|separator|);
        TotalThree(a, b, c);
        TotalAppends([a, b, c], ChainItems(next, value, fields, unescaped));
      }
  }

  lemma TotalValue(l: Layout, fields: Fields, i: nat, unescaped: bool)
    requires l.Valid() && i < |l.fieldNames| <= |fields|
    ensures Total(ValueItems(l, fields, i, unescaped)) == |l.ValueBytes(fields, i, unescaped)|
  {
    if l.fieldRewriters[i].None? {
      TotalStr(fields[i]);
    } else {
      var rw := l.fieldRewriters[i].value;
      LocatedInMore(rw, |l.fieldNames|, |fields|);
      var header := Put(if rw.MaxFieldLength(fields[i], fields) >= 0x1_0000 then 5 else 3);
      TotalChain(rw, fields[i], fields, unescaped);
      TotalAppends([header], ChainItems(rw, fields[i], fields, unescaped));
      TotalOne(header);
    }
  }

  lemma FieldStep(l: Layout, fields: Fields, i: nat, unescaped: bool, rest: seq<Item>)
    requires l.Valid() && i < |l.fieldNames| <= |fields|
    ensures Total([CopyIn(|StrBytes(l.fieldNames[i])|)] + ValueItems(l, fields, i, unescaped) + rest)
            == |l.FieldBytes(fields, i, unescaped)| + Total(rest)
  {
    var key := CopyIn(|StrBytes(l.fieldNames[i])|);
    TotalValue(l, fields, i, unescaped);
    TotalOne(key);
    TotalAppends([key], ValueItems(l, fields, i, unescaped));
    TotalAppends([key] + ValueItems(l, fields, i, unescaped), rest);
  }

  lemma {:induction false} TotalFields(l: Layout, fields: Fields, i: nat, unescaped: bool)
    requires l.Valid() && i <= |l.fieldNames| <= |fields|
    ensures Total(FieldItems(l, fields, i, unescaped)) + |l.EnvironmentBytes(fields)| == |l.RootBytes(fields, i, unescaped)|
    decreases |l.fieldNames| - i
  {
    if i < |l.fieldNames| {
      if l.Written(fields, i) {
        TotalFields(l, fields, i + 1, l.FlagAfter(i, unescaped));
        FieldStep(l, fields, i, unescaped, FieldItems(l, fields, i + 1, l.FlagAfter(i, unescaped)));
      } else {
        TotalFields(l, fields, i + 1, unescaped);
      }
    }
  }

  lemma TotalPair(items: seq<Item>, name: Item, value: seq<byte>)
    ensures Total(items + [name] + StrItems(value)) == Total(items) + name.n + |StrBytes(value)|
  {
    TotalStr(value);
    TotalOne(name);
    TotalAppends(items, [name]);
    TotalAppends(items + [name], StrItems(value));
  }

  /** What is written and what is still to be written of the environment, after `j` fields. */
  function Whole(l: Layout, fields: Fields, j: nat): nat
    requires l.Valid() && |l.fieldNames| <= |fields| && j <= |l.envNames|
  {
    Total(EnvItems(l, fields, j)) + |l.EnvBytes(fields, j)|
  }

  lemma EnvStep(l: Layout, fields: Fields, j: nat)
    requires l.Valid() && |l.fieldNames| <= |fields| && j < |l.envNames|
    ensures Whole(l, fields, j + 1) == Whole(l, fields, j)
  {
    TotalPair(EnvItems(l, fields, j), CopyIn(|StrBytes(l.envNames[j])|), fields[l.envLocators[j]]);
  }

  lemma {:induction false} TotalEnv(l: Layout, fields: Fields, n: nat)
    requires l.Valid() && |l.fieldNames| <= |fields| && n <= |l.envNames|
    ensures Whole(l, fields, n) == Whole(l, fields, 0)
  {
    if n == 0 {
    } else {
      EnvStep(l, fields, n - 1);
      TotalEnv(l, fields, n - 1);
    }
  }

  /** Without the environment fields, the writes are as long as the rest of the event. */
  lemma TotalBefore(l: Layout, fields: Fields, seconds: int, nanos: nat, unescaped: bool)
    requires l.Valid() && |l.fieldNames| <= |fields|
    ensures Total(ItemsBefore(l, fields, unescaped)) + HeaderLength(|l.envNames|) + |l.EnvBytes(fields, 0)|
            == |l.EventBytes(fields, seconds, nanos, unescaped)|
  {
    var a, b, c := Put(1), Put(10), Put(HeaderLength(|l.fieldNames| + 1));
    TotalThree(a, b, c);
    TotalFields(l, fields, 0, unescaped);
    TotalStr(ENVIRONMENT);
    TotalAppends([a, b, c], FieldItems(l, fields, 0, unescaped));
    TotalAppends([a, b, c] + FieldItems(l, fields, 0, unescaped), StrItems(ENVIRONMENT));
  }

  // Outcomes

  /** The last string that is written: the value of the last environment field. */
  function LastString(l: Layout, fields: Fields): seq<byte>
    requires l.Valid() && |l.fieldNames| <= |fields|
  {
    var n := |l.envNames|;
    if n == 0 then [] else fields[l.envLocators[n - 1]]
  }

  /** All but the header and the bytes of the last string. */
  function ItemsButLast(l: Layout, fields: Fields, unescaped: bool): seq<Item>
    requires l.Valid() && |l.fieldNames| <= |fields| && l.envNames != []
  {
    var n := |l.envNames|;
    ItemsBefore(l, fields, unescaped) + [Put(HeaderLength(n))]
    + (EnvItems(l, fields, n - 1) + [CopyIn(|StrBytes(l.envNames[n - 1])|)])
  }

  lemma Rearrange(a: seq<Item>, b: seq<Item>, c: seq<Item>, d: Item, e: Item)
    ensures a + b + (c + [d, e]) == (a + b + c) + [d] + [e]
  {
  }

  lemma LastItems(l: Layout, fields: Fields, unescaped: bool)
    requires l.Valid() && |l.fieldNames| <= |fields| && l.envNames != []
    ensures var value := LastString(l, fields);
            EventItems(l, fields, unescaped)
            == ItemsButLast(l, fields, unescaped) + [Put(|StrBytes(value)| - |value|)] + [CopyIn(|value|)]
  {
    var n, value := |l.envNames|, LastString(l, fields);
    Rearrange(ItemsBefore(l, fields, unescaped), [Put(HeaderLength(n))],
              EnvItems(l, fields, n - 1) + [CopyIn(|StrBytes(l.envNames[n - 1])|)],
              Put(|StrBytes(value)| - |value|), CopyIn(|value|));
  }

  lemma TotalButLast(l: Layout, fields: Fields, seconds: int, nanos: nat, unescaped: bool)
    requires l.Valid() && |l.fieldNames| <= |fields| && l.envNames != []
    ensures Total(ItemsButLast(l, fields, unescaped)) + |StrBytes(LastString(l, fields))|
            == |l.EventBytes(fields, seconds, nanos, unescaped)|
  {
    var n := |l.envNames|;
    var before, env := ItemsBefore(l, fields, unescaped), EnvItems(l, fields, n - 1);
    var name, header := CopyIn(|StrBytes(l.envNames[n - 1])|), Put(HeaderLength(n));
    TotalBefore(l, fields, seconds, nanos, unescaped);
    TotalEnv(l, fields, n);
    TotalStr(LastString(l, fields));
    TotalOne(name);
    TotalOne(header);
    TotalAppends(before, [header]);
    TotalAppends(before + [header], env + [name]);
    TotalAppends(env, [name]);
    TotalAppends(env + [name], StrItems(LastString(l, fields)));
  }

  /**
   The serializer panics exactly if the event would not fit even without the last string. Otherwise it ends at the end
   of the event, or where the buffer does; there the record counts as too long and gives no bytes.
   */
  lemma OverlongFate(l: Layout, fields: Fields, seconds: int, nanos: nat, unescaped: bool, limit: nat)
    requires l.Valid() && |l.fieldNames| <= |fields|
    ensures var event := |l.EventBytes(fields, seconds, nanos, unescaped)|;
            Placed(EventItems(l, fields, unescaped), limit)
            == if event - |LastString(l, fields)| > limit then Panic
               else At(if event > limit then limit else event)
  {
    if l.envNames == [] {
      var before := ItemsBefore(l, fields, unescaped);
      TotalBefore(l, fields, seconds, nanos, unescaped);
      HeaderDecides(before, HeaderLength(0), 0, limit);
      assert EventItems(l, fields, unescaped) == before + [Put(HeaderLength(0))];
    } else {
      var value := LastString(l, fields);
      LastItems(l, fields, unescaped);
      TotalButLast(l, fields, seconds, nanos, unescaped);
      HeaderDecides(ItemsButLast(l, fields, unescaped), |StrBytes(value)| - |value|, |value|, limit);
    }
  }
}
