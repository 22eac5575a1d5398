/**
 What several outputs of one worker make of the same record (base/bsupport/logprocessingworker.go:49-81): a Fluentd
 serializer marks the record as unescaped, and the outputs after it see the mark.
 */
module Outputs {
  import opened Options
  import opened Bytes
  import opened Msgpack
  import opened Packing
  import opened PackingSpec
  import opened Rewriters
  import opened SerializerSpec
  import opened Unescape

  /** A record that has passed the transforms. */
  datatype Logged = Logged(fields: Fields, seconds: int, nanos: nat, unescaped: bool)

  /** An output either has the event serializer of Fluentd, or one that only reads the fields, like that of Datadog. */
  datatype Output = Fluentd(layout: Layout) | Reading(write: (Fields, int, nat) -> Stream)

  /** The layouts are those of the schema of the record. */
  ghost predicate Suits(outputs: seq<Output>, record: Logged) {
    forall i | 0 <= i < |outputs| && outputs[i].Fluentd? ::
      outputs[i].layout.Valid() && |outputs[i].layout.fieldNames| <= |record.fields|
  }

  /** The bytes an output makes of a record, and the mark it leaves. */
  ghost function Serialize(output: Output, record: Logged): (Stream, Logged) {
    match output
    case Reading(write) => (write(record.fields, record.seconds, record.nanos), record)
    case Fluentd(layout) =>
      if layout.Valid() && |layout.fieldNames| <= |record.fields| then
        (layout.EventBytes(record.fields, record.seconds, record.nanos, record.unescaped),
         record.(unescaped := layout.FlagAfterFields(record.fields, 0, record.unescaped)))
      else ([], record)
  }

  ghost function Serializers(outputs: seq<Output>): (r: seq<Serializer<Logged>>)
    ensures |r| == |outputs|
  {
    seq(|outputs|, i requires 0 <= i < |outputs| => (record: Logged) => Serialize(outputs[i], record))
  }

  /** One of the first `j` outputs writes a field of the record through a chain that unescapes. */
  ghost predicate UnescapedBefore(outputs: seq<Output>, j: nat, record: Logged)
    requires j <= |outputs| && Suits(outputs, record)
  {
    exists i :: 0 <= i < j && outputs[i].Fluentd?
                && outputs[i].layout.FirstUnescaping(record.fields, 0) < |outputs[i].layout.fieldNames|
  }

  /** The record reaches output `j` with nothing but its mark changed. */
  lemma {:induction false} SeenRecord(outputs: seq<Output>, j: nat, record: Logged)
    requires j <= |outputs| && Suits(outputs, record)
    ensures Seen(Serializers(outputs), j, record)
            == record.(unescaped := record.unescaped || UnescapedBefore(outputs, j, record))
  {
    if j > 0 {
      SeenRecord(outputs, j - 1, record);
      if outputs[j - 1].Fluentd? {
        outputs[j - 1].layout.FlagAfterFieldsIff(record.fields, 0, record.unescaped || UnescapedBefore(outputs, j - 1, record));
      }
    }
  }

  /** The event of the record as marked by the first `j` outputs. */
  ghost function EventAt(outputs: seq<Output>, j: nat, record: Logged): Value
    requires j < |outputs| && Suits(outputs, record) && outputs[j].Fluentd?
  {
    outputs[j].layout.Event(record.fields, record.seconds, record.nanos,
                            record.unescaped || UnescapedBefore(outputs, j, record))
  }

  /** Output `j` writes the event of the record as marked by the outputs before it, and that decodes to its fields. */
  lemma StreamDecodes(outputs: seq<Output>, j: nat, record: Logged)
    requires j < |outputs| && Suits(outputs, record) && outputs[j].Fluentd?
    requires |StreamOf(Serializers(outputs), j, record)| < 0x1_0000_0000
    ensures Encodes(StreamOf(Serializers(outputs), j, record), EventAt(outputs, j, record))
  {
    SeenRecord(outputs, j, record);
    outputs[j].layout.EventEncodes(record.fields, record.seconds, record.nanos,
                                   record.unescaped || UnescapedBefore(outputs, j, record));
  }

  /** The output cannot tell whether the record has been unescaped. */
  ghost predicate Indifferent(output: Output, record: Logged)
    requires output.Fluentd? ==> output.layout.Valid() && |output.layout.fieldNames| <= |record.fields|
  {
    output.Reading? || output.layout.FlagIrrelevant(record.fields, 0)
  }

  /**
   An output gets what it would get on its own exactly if the record was marked before all outputs, or no output before
   it unescapes a field, or the first field it would unescape itself has nothing to unescape.
   */
  lemma OwnStreamIff(outputs: seq<Output>, j: nat, record: Logged)
    requires j < |outputs| && Suits(outputs, record)
    ensures StreamOf(Serializers(outputs), j, record) == StreamOf(Serializers([outputs[j]]), 0, record)
            <==> record.unescaped || !UnescapedBefore(outputs, j, record) || Indifferent(outputs[j], record)
  {
    SeenRecord(outputs, j, record);
    assert StreamOf(Serializers([outputs[j]]), 0, record) == Serialize(outputs[j], record).0;
    if outputs[j].Fluentd? {
      outputs[j].layout.EventBytesByFlag(record.fields, record.seconds, record.nanos);
    }
  }

  /**
   The chunks of a worker with these outputs, one of them Fluentd, decode to the events of the passing records in order,
   each marked as the outputs before have left it.
   */
  lemma WorkerDeliversEvents<S>(cfg: Config, w: Setup<S, Logged>, outputs: seq<Output>, j: nat, calls: seq<Call<Logged>>)
      returns (batches: seq<seq<Stream>>)
    requires w.serializers == Serializers(outputs) && j < |outputs| && outputs[j].Fluentd?
    requires var passed := Passed(w, calls);
             forall i | 0 <= i < |passed| ::
               Suits(outputs, passed[i]) && |StreamOf(w.serializers, j, passed[i])| < 0x1_0000_0000
    ensures var p, passed := PackingSpec.Run(cfg, AllOps(w, j, calls + [Stop])), Passed(w, calls);
            && |p.accepted| == |batches| && |Concat(batches)| == |passed|
            && (forall i | 0 <= i < |batches| :: p.accepted[i].payload == Payload(cfg.format, batches[i]))
            && forall i | 0 <= i < |passed| :: Encodes(Concat(batches)[i], EventAt(outputs, j, passed[i]))
  {
    batches := WorkerDelivers(cfg, w, j, calls);
    var passed := Passed(w, calls);
    forall i | 0 <= i < |passed| ensures Encodes(Concat(batches)[i], EventAt(outputs, j, passed[i])) {
      StreamDecodes(outputs, j, passed[i]);
    }
  }

  /** One field, written through 'unescape' alone. */
  const ONE_FIELD := Layout([Ascii("a")], [false], [Some(Rewriter.Unescape)], [], [])

  /** Two outputs of the same configuration get different streams for a record with a backslash and an 'n'. */
  lemma TwinOutputsDiffer()
    ensures var outputs, record := [Output.Fluentd(ONE_FIELD), Output.Fluentd(ONE_FIELD)], Logged([[92, 110]], 0, 0, false);
            && Suits(outputs, record)
            && StreamOf(Serializers(outputs), 0, record) != StreamOf(Serializers(outputs), 1, record)
            && StreamOf(Serializers(outputs), 1, record) != StreamOf(Serializers([outputs[1]]), 0, record)
  {
    var outputs, record := [Output.Fluentd(ONE_FIELD), Output.Fluentd(ONE_FIELD)], Logged([[92, 110]], 0, 0, false);
    assert record.fields[0][2..] == [];
    assert Unescaped(SYSLOG_UNESCAPER, record.fields[0]) == [10];
    assert ONE_FIELD.Unescapes(record.fields, 0) && ONE_FIELD.FirstUnescaping(record.fields, 0) == 0;
    assert outputs[0].layout == ONE_FIELD && UnescapedBefore(outputs, 1, record);
    OwnStreamIff(outputs, 0, record);
    OwnStreamIff(outputs, 1, record);
    assert [outputs[0]] == [outputs[1]];
  }
}
