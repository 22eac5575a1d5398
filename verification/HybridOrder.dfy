/** The buffer is a first-in first-out queue that may lose chunks. */
module HybridOrder {
  import opened Bytes
  import opened Options
  import opened ChunkStore
  import opened HybridBuffer
  import opened HybridSafety

  // Subsequences

  /** `at[i]` is where the i-th element of `part` is in `all`. */
  ghost predicate Embeds(at: seq<nat>, part: seq<ID>, all: seq<ID>) {
    && |at| == |part|
    && (forall i | 0 <= i < |at| :: at[i] < |all| && all[at[i]] == part[i])
    && (forall i | 0 < i < |at| :: at[i - 1] < at[i])
  }

  ghost predicate Subsequence(part: seq<ID>, all: seq<ID>) {
    exists at :: Embeds(at, part, all)
  }

  lemma {:induction false} EmbedsAscends(at: seq<nat>, part: seq<ID>, all: seq<ID>, i: nat, j: nat)
    requires Embeds(at, part, all) && i < j < |at|
    ensures at[i] < at[j]
    decreases j
  {
    if i + 1 < j {
      EmbedsAscends(at, part, all, i, j - 1);
    }
  }

  lemma OneFewer(before: seq<ID>, x: ID, after: seq<ID>, all: seq<ID>)
    requires Subsequence(before + [x] + after, all)
    ensures Subsequence(before + after, all)
  {
    var k, part := |before|, before + [x] + after;
    var at: seq<nat> :| Embeds(at, part, all);
    var at': seq<nat> := at[..k] + at[k + 1..];
    forall i | 0 <= i < |at'| ensures at'[i] < |all| && all[at'[i]] == (before + after)[i] {
      if i < k {
        assert at'[i] == at[i] && (before + after)[i] == part[i];
      } else {
        assert at'[i] == at[i + 1] && (before + after)[i] == part[i + 1];
      }
    }
    forall i | 0 < i < |at'| ensures at'[i - 1] < at'[i] {
      if i == k {
        EmbedsAscends(at, part, all, k - 1, k + 1);
      }
    }
    assert Embeds(at', before + after, all);
  }

  lemma OneMore(part: seq<ID>, all: seq<ID>, x: ID)
    requires Subsequence(part, all)
    ensures Subsequence(part + [x], all + [x]) && Subsequence(part, all + [x])
  {
    var at: seq<nat> :| Embeds(at, part, all);
    assert Embeds(at, part, all + [x]);
    assert Embeds(at + [|all|], part + [x], all + [x]);
  }

  // The queue

  function Ids(q: seq<LogChunk>): (r: seq<ID>)
    ensures |r| == |q|
  {
    seq(|q|, i requires 0 <= i < |q| => q[i].id)
  }

  function HandIds(f: Feeder): seq<ID> {
    if Hand(f).Some? then [Hand(f).value.id] else []
  }

  /** From what was received first to what is received last. */
  function Queue(delivered: seq<LogChunk>, output: seq<LogChunk>, hand: seq<ID>, input: seq<LogChunk>): seq<ID> {
    Ids(delivered) + Ids(output) + hand + Ids(input)
  }

  function Line(s: State): seq<ID> {
    Queue(s.past.delivered, s.output, HandIds(s.feeder), s.input)
  }

  ghost predicate InOrder(s: State) {
    Subsequence(Line(s), s.past.arrived)
  }

  lemma IdsFirst(q: seq<LogChunk>)
    requires q != []
    ensures Ids(q) == [q[0].id] + Ids(q[1..])
  {
  }

  lemma QueueEnd(delivered: seq<LogChunk>, output: seq<LogChunk>, hand: seq<ID>, input: seq<LogChunk>, c: LogChunk)
    ensures Queue(delivered, output, hand, input + [c]) == Queue(delivered, output, hand, input) + [c.id]
  {
  }

  lemma QueueInput(delivered: seq<LogChunk>, output: seq<LogChunk>, input: seq<LogChunk>)
    requires input != []
    ensures Queue(delivered, output, [input[0].id], input[1..]) == Queue(delivered, output, [], input)
  {
  }

  lemma QueueHand(delivered: seq<LogChunk>, output: seq<LogChunk>, c: LogChunk, input: seq<LogChunk>)
    ensures Queue(delivered, output + [c], [], input) == Queue(delivered, output, [c.id], input)
  {
  }

  lemma QueueOutput(delivered: seq<LogChunk>, output: seq<LogChunk>, hand: seq<ID>, input: seq<LogChunk>)
    requires output != []
    ensures Queue(delivered + [output[0]], output[1..], hand, input) == Queue(delivered, output, hand, input)
  {
  }

  lemma QueueWithoutHand(delivered: seq<LogChunk>, output: seq<LogChunk>, id: ID, input: seq<LogChunk>, all: seq<ID>)
    requires Subsequence(Queue(delivered, output, [id], input), all)
    ensures Subsequence(Queue(delivered, output, [], input), all)
  {
    var before := Ids(delivered) + Ids(output);
    assert before + [] == before;
    OneFewer(before, id, Ids(input), all);
  }

  lemma QueueWithoutInput(delivered: seq<LogChunk>, output: seq<LogChunk>, hand: seq<ID>, input: seq<LogChunk>,
                          all: seq<ID>)
    requires input != [] && Subsequence(Queue(delivered, output, hand, input), all)
    ensures Subsequence(Queue(delivered, output, hand, input[1..]), all)
  {
    var before, after := Ids(delivered) + Ids(output) + hand, Ids(input[1..]);
    IdsFirst(input);
    Regroup(before, [input[0].id], after);
    OneFewer(before, input[0].id, after, all);
  }

  lemma QueueWithoutOutput(delivered: seq<LogChunk>, output: seq<LogChunk>, hand: seq<ID>, input: seq<LogChunk>,
                           all: seq<ID>)
    requires output != [] && Subsequence(Queue(delivered, output, hand, input), all)
    ensures Subsequence(Queue(delivered, output[1..], hand, input), all)
  {
    var before, rest, after := Ids(delivered), Ids(output[1..]), hand + Ids(input);
    IdsFirst(output);
    assert Queue(delivered, output, hand, input) == before + [output[0].id] + (rest + after);
    assert Queue(delivered, output[1..], hand, input) == before + (rest + after);
    OneFewer(before, output[0].id, rest + after, all);
  }

  // Steps

  lemma AcceptKeepsOrder(s: State, step: AcceptStep)
    requires InOrder(s) && AcceptEnabled(s, step)
    ensures InOrder(ApplyAccept(s, step))
  {
    if step.AcceptPush? {
      var c := s.pushing[step.i];
      OneMore(Line(s), s.past.arrived, c.id);
      QueueEnd(s.past.delivered, s.output, HandIds(s.feeder), s.input, c);
    } else if step.AcceptUnload? {
    } else {
    }
  }

  lemma SaveMovesNothing(s: State, c: LogChunk, write: Write)
    ensures var s' := Save(s, c, write); Line(s') == Line(s) && s'.past.arrived == s.past.arrived
  {
  }

  lemma SavesKeepOrder(s: State, step: FeedStep)
    requires InOrder(s) && FeedEnabled(s, step) && (step.SaveInput? || step.SaveOutput? || step.SaveLast?)
    ensures InOrder(ApplyFeed(s, step))
  {
    if step.SaveInput? {
      QueueWithoutInput(s.past.delivered, s.output, HandIds(s.feeder), s.input, s.past.arrived);
      SaveMovesNothing(s.(input := s.input[1..]), s.input[0], step.write);
    } else if step.SaveOutput? {
      QueueWithoutOutput(s.past.delivered, s.output, HandIds(s.feeder), s.input, s.past.arrived);
      SaveMovesNothing(s.(output := s.output[1..]), s.output[0], step.write);
    } else if s.feeder.last.Some? {
      QueueWithoutHand(s.past.delivered, s.output, s.feeder.last.value.id, s.input, s.past.arrived);
      SaveMovesNothing(s.(feeder := SavingOutput), s.feeder.last.value, step.write);
    }
  }

  lemma RecoverOneKeepsOrder(s: State, statFails: bool)
    requires InOrder(s) && FeedEnabled(s, RecoverNext(statFails))
    ensures InOrder(RecoverOne(s, statFails))
  {
    var c := LogChunk(s.feeder.names[0], None, true);
    OneMore(Line(s), s.past.arrived, c.id);
    QueueEnd(s.past.delivered, s.output, [], s.input, c);
  }

  lemma FeedKeepsOrder(s: State, step: FeedStep)
    requires InOrder(s) && FeedEnabled(s, step)
    requires s.feeder.Pushing? ==> s.feeder.received.id == s.feeder.loaded.id
    ensures InOrder(ApplyFeed(s, step))
  {
    if step.SaveInput? || step.SaveOutput? || step.SaveLast? {
      SavesKeepOrder(s, step);
    } else if step.RecoverNext? {
      RecoverOneKeepsOrder(s, step.statFails);
    } else if step.Receive? {
      QueueInput(s.past.delivered, s.output, s.input);
    } else if step.LoadFails? || step.LoadEmpty? {
      QueueWithoutHand(s.past.delivered, s.output, s.feeder.chunk.id, s.input, s.past.arrived);
    } else if step.Push? {
      QueueHand(s.past.delivered, s.output, s.feeder.loaded, s.input);
    } else {
      assert Line(ApplyFeed(s, step)) == Line(s);
    }
  }

  lemma ConsumeKeepsOrder(s: State, step: ConsumeStep)
    requires InOrder(s) && ConsumeEnabled(s, step)
    ensures InOrder(ApplyConsume(s, step))
  {
    if step.Take? {
      QueueOutput(s.past.delivered, s.output, HandIds(s.feeder), s.input);
    } else if step.Confirm? {
    } else {
    }
  }
}
