/** Chunk IDs and their order: output/shared/chunkidgen.go. */
module ChunkIds {
  import opened Bytes

  // Order of byte strings

  /** Go's `<` on strings. */
  predicate Less(a: seq<byte>, b: seq<byte>) {
    if b == [] then false
    else if a == [] then true
    else a[0] < b[0] || (a[0] == b[0] && Less(a[1..], b[1..]))
  }

  lemma {:induction false} LessTransitive(a: seq<byte>, b: seq<byte>, c: seq<byte>)
    requires Less(a, b) && Less(b, c)
    ensures Less(a, c)
  {
    if a != [] && a[0] == b[0] == c[0] {
      LessTransitive(a[1..], b[1..], c[1..]);
    }
  }

  lemma {:induction false} LessIrreflexive(a: seq<byte>)
    ensures !Less(a, a)
  {
    if a != [] {
      LessIrreflexive(a[1..]);
    }
  }

  lemma {:induction false} LessTotal(a: seq<byte>, b: seq<byte>)
    ensures Less(a, b) || a == b || Less(b, a)
  {
    if a != [] && b != [] && a[0] == b[0] {
      LessTotal(a[1..], b[1..]);
      if a[1..] == b[1..] {
        assert a == [a[0]] + a[1..] && b == [b[0]] + b[1..];
      }
    }
  }

  lemma {:induction false} LessAfterPrefix(p: seq<byte>, a: seq<byte>, b: seq<byte>)
    ensures Less(p + a, p + b) <==> Less(a, b)
  {
    if p == [] {
      assert p + a == a && p + b == b;
    } else {
      assert (p + a)[1..] == p[1..] + a && (p + b)[1..] == p[1..] + b;
      LessAfterPrefix(p[1..], a, b);
    }
  }

  // Decimal numbers of fixed width

  function Pow10(w: nat): (r: nat)
    ensures r > 0
  {
    if w == 0 then 1 else 10 * Pow10(w - 1)
  }

  /** Decimal digits, without leading zeros. */
  function Decimal(n: nat): (r: seq<byte>)
    ensures |r| >= 1
    ensures forall i | 0 <= i < |r| :: 48 <= r[i] <= 57
    ensures n > 0 ==> r[0] != 48
  {
    if n < 10 then [48 + n] else Decimal(n / 10) + [48 + n % 10]
  }

  /** The verb `%0wd` of Go's `fmt`: at least `w` characters including a sign. */
  function Padded(w: nat, n: int): seq<byte> {
    var digits := Decimal(if n < 0 then -n else n);
    var sign := if n < 0 then [45] else [];
    var missing := w - |sign| - |digits|;
    sign + (if missing > 0 then seq(missing, i => 48) else []) + digits
  }

  /** Exactly `w` digits. */
  function Fixed(w: nat, n: nat): (r: seq<byte>)
    ensures |r| == w
  {
    if w == 0 then [] else Fixed(w - 1, n / 10) + [48 + n % 10]
  }

  lemma {:induction false} FixedZero(w: nat)
    ensures Fixed(w, 0) == seq(w, i => 48)
  {
    if w > 0 {
      FixedZero(w - 1);
    }
  }

  lemma {:induction false} DecimalIsFixed(w: nat, n: nat)
    requires n < Pow10(w) && w >= 1
    ensures |Decimal(n)| <= w && Fixed(w, n) == seq(w - |Decimal(n)|, i => 48) + Decimal(n)
  {
    if n < 10 {
      FixedZero(w - 1);
    } else {
      assert Pow10(w) == 10 * Pow10(w - 1);
      DecimalIsFixed(w - 1, n / 10);
      Regroup(seq(w - |Decimal(n)|, i => 48), Decimal(n / 10), [48 + n % 10]);
    }
  }

  lemma PaddedIsFixed(w: nat, n: nat)
    requires n < Pow10(w) && w >= 1
    ensures Padded(w, n) == Fixed(w, n)
  {
  }

  /** Numbers of the same width compare like their values, whatever follows them. */
  lemma {:induction false} FixedLess(w: nat, x: nat, y: nat, s: seq<byte>, t: seq<byte>)
    requires x < y < Pow10(w)
    ensures Less(Fixed(w, x) + s, Fixed(w, y) + t)
  {
    var dx, dy := [48 + x % 10], [48 + y % 10];
    Regroup(Fixed(w - 1, x / 10), dx, s);
    Regroup(Fixed(w - 1, y / 10), dy, t);
    if x / 10 < y / 10 {
      FixedLess(w - 1, x / 10, y / 10, dx + s, dy + t);
    } else {
      LessAfterPrefix(Fixed(w - 1, x / 10), dx + s, dy + t);
    }
  }

  // The generator

  const MAX_INT32 := 0x7fff_ffff
  const TIMESTAMP_WIDTH := 19
  const SEQUENCE_WIDTH := 8
  const MAX_PER_TICK := 100_000_000
  const MAX_TIMESTAMP := 0x7fff_ffff_ffff_ffff

  datatype GeneratorState = GeneratorState(epochNano: int, sequence: int)

  const NEW_GENERATOR := GeneratorState(0, 0)

  /** The lock-protected part of one call at clock reading `now`; the sequence number wraps like an int32. */
  function Advance(g: GeneratorState, now: int): GeneratorState {
    if now > g.epochNano then GeneratorState(now, 0)
    else g.(sequence := if g.sequence == MAX_INT32 then -MAX_INT32 - 1 else g.sequence + 1)
  }

  /** The text of an ID: the clock reading itself is printed, not the epoch kept. */
  function Format(now: int, sequence: int, suffix: seq<byte>): seq<byte> {
    Padded(TIMESTAMP_WIDTH, now) + ([45] + (Padded(SEQUENCE_WIDTH, sequence) + suffix))
  }

  class ChunkIDGenerator {
    var epochNano: int
    var sequence: int
    const suffix: seq<byte>

    constructor (suffix: seq<byte>)
      ensures State() == NEW_GENERATOR && this.suffix == suffix
    {
      epochNano, sequence := 0, 0;
      this.suffix := suffix;
    }

    function State(): GeneratorState
      reads this
    {
      GeneratorState(epochNano, sequence)
    }

    method Generate(now: int) returns (id: seq<byte>)
      modifies this
      ensures State() == Advance(old(State()), now)
      ensures id == Format(now, sequence, suffix)
    {
      if now > epochNano {
        epochNano := now;
        sequence := 0;
      } else if sequence == MAX_INT32 {
        sequence := -MAX_INT32 - 1;
      } else {
        sequence := sequence + 1;
      }
      id := Format(now, sequence, suffix);
    }
  }

  /** All IDs generated for a list of clock readings. */
  function Generated(g: GeneratorState, clock: seq<int>, suffix: seq<byte>): (ids: seq<seq<byte>>)
    ensures |ids| == |clock|
    decreases clock
  {
    if clock == [] then []
    else
      var g' := Advance(g, clock[0]);
      [Format(clock[0], g'.sequence, suffix)] + Generated(g', clock[1..], suffix)
  }

  /** Clock readings fit in an int64 and fewer than 10^8 IDs fall within one reading of the clock. */
  ghost predicate Supported(g: GeneratorState, clock: seq<int>)
    decreases clock
  {
    clock == [] || (
      var g' := Advance(g, clock[0]);
      0 <= clock[0] <= MAX_TIMESTAMP && 0 <= g'.sequence < MAX_PER_TICK && Supported(g', clock[1..]))
  }

  ghost predicate NonDecreasing(clock: seq<int>) {
    forall i | 0 < i < |clock| :: clock[i - 1] <= clock[i]
  }

  ghost predicate Ascending(ids: seq<seq<byte>>) {
    forall i | 0 < i < |ids| :: Less(ids[i - 1], ids[i])
  }

  lemma Widths()
    ensures MAX_TIMESTAMP < Pow10(TIMESTAMP_WIDTH) && MAX_PER_TICK == Pow10(SEQUENCE_WIDTH)
  {
  }

  /** IDs of one suffix compare like their clock readings, then like their sequence numbers. */
  lemma FormatOrder(now: nat, q: nat, now': nat, q': nat, suffix: seq<byte>)
    requires now <= MAX_TIMESTAMP && now' <= MAX_TIMESTAMP && q < MAX_PER_TICK && q' < MAX_PER_TICK
    ensures now < now' || (now == now' && q < q') ==> Less(Format(now, q, suffix), Format(now', q', suffix))
  {
    Widths();
    PaddedIsFixed(TIMESTAMP_WIDTH, now);
    PaddedIsFixed(TIMESTAMP_WIDTH, now');
    PaddedIsFixed(SEQUENCE_WIDTH, q);
    PaddedIsFixed(SEQUENCE_WIDTH, q');
    var a, b := Fixed(SEQUENCE_WIDTH, q) + suffix, Fixed(SEQUENCE_WIDTH, q') + suffix;
    if now < now' {
      FixedLess(TIMESTAMP_WIDTH, now, now', [45] + a, [45] + b);
    } else if now == now' && q < q' {
      FixedLess(SEQUENCE_WIDTH, q, q', suffix, suffix);
      LessAfterPrefix([45], a, b);
      LessAfterPrefix(Fixed(TIMESTAMP_WIDTH, now), [45] + a, [45] + b);
    }
  }

  /** Against the ID last made, at reading `last`, a new ID is greater exactly if the clock has not gone back. */
  lemma NextIdGreater(g: GeneratorState, last: int, q: int, now: int, suffix: seq<byte>)
    requires 0 <= last <= g.epochNano && (last == g.epochNano ==> q == g.sequence)
    requires last <= MAX_TIMESTAMP && 0 <= q < MAX_PER_TICK && q <= g.sequence
    requires Supported(g, [now])
    ensures Less(Format(last, q, suffix), Format(now, Advance(g, now).sequence, suffix)) <==> last <= now
  {
    var q' := Advance(g, now).sequence;
    FormatOrder(last, q, now, q', suffix);
    FormatOrder(now, q', last, q, suffix);
    if now < last && Less(Format(last, q, suffix), Format(now, q', suffix)) {
      LessTransitive(Format(last, q, suffix), Format(now, q', suffix), Format(last, q, suffix));
      LessIrreflexive(Format(last, q, suffix));
    }
  }

  /** Successive IDs ascend exactly if successive clock readings do not go back. */
  lemma {:induction false} IdsAscendIffClockDoes(g: GeneratorState, clock: seq<int>, suffix: seq<byte>)
    requires Supported(g, clock)
    ensures Ascending(Generated(g, clock, suffix)) <==> NonDecreasing(clock)
    decreases clock
  {
    if |clock| >= 2 {
      var g', rest := Advance(g, clock[0]), clock[1..];
      var ids, later := Generated(g, clock, suffix), Generated(g', rest, suffix);
      IdsAscendIffClockDoes(g', rest, suffix);
      NextIdGreater(g', clock[0], g'.sequence, clock[1], suffix);
      assert ids == [ids[0]] + later;
      assert later[0] == Format(clock[1], Advance(g', clock[1]).sequence, suffix);
      if Ascending(ids) {
        forall i | 0 < i < |later| ensures Less(later[i - 1], later[i]) {
          assert ids[i] == later[i - 1] && ids[i + 1] == later[i];
        }
        assert Less(ids[1 - 1], ids[1]);
      }
      if NonDecreasing(clock) {
        forall i | 0 < i < |rest| ensures rest[i - 1] <= rest[i] {
          assert clock[i] == rest[i - 1] && clock[i + 1] == rest[i];
        }
        assert clock[1 - 1] <= clock[1];
      }
    }
  }

  /** In an ascending list every later ID is greater, so all are distinct. */
  lemma {:induction false} AscendingPairs(ids: seq<seq<byte>>, i: nat, j: nat)
    requires Ascending(ids) && i < j < |ids|
    ensures Less(ids[i], ids[j]) && ids[i] != ids[j]
  {
    if i + 1 < j {
      AscendingPairs(ids, i, j - 1);
      LessTransitive(ids[i], ids[j - 1], ids[j]);
    }
    LessIrreflexive(ids[i]);
  }

  /** With a clock that never goes back, all IDs of a generator are unique and sort in the order of creation. */
  lemma IdsSortByCreation(clock: seq<int>, suffix: seq<byte>, i: nat, j: nat)
    requires Supported(NEW_GENERATOR, clock) && NonDecreasing(clock) && i < j < |clock|
    ensures var ids := Generated(NEW_GENERATOR, clock, suffix);
            Less(ids[i], ids[j]) && ids[i] != ids[j]
  {
    IdsAscendIffClockDoes(NEW_GENERATOR, clock, suffix);
    AscendingPairs(Generated(NEW_GENERATOR, clock, suffix), i, j);
  }

  /** A clock that goes back twice can even repeat an ID. */
  lemma ClockGoingBackRepeatsAnId(suffix: seq<byte>)
    ensures var ids := Generated(NEW_GENERATOR, [5, 3, 6, 3], suffix); ids[1] == ids[3]
  {
  }

  // When IDs are repeated

  function StateAfter(g: GeneratorState, clock: seq<int>): GeneratorState {
    if clock == [] then g else Advance(StateAfter(g, clock[..|clock| - 1]), clock[|clock| - 1])
  }

  lemma {:induction false} StateAfterFirst(g: GeneratorState, clock: seq<int>)
    requires clock != []
    ensures StateAfter(g, clock) == StateAfter(Advance(g, clock[0]), clock[1..])
  {
    var n := |clock| - 1;
    if n == 0 {
      assert clock[..0] == [] && clock[1..] == [];
    } else {
      StateAfterFirst(g, clock[..n]);
      assert clock[..n][1..] == clock[1..][..n - 1];
    }
  }

  lemma {:induction false} GeneratedAt(g: GeneratorState, clock: seq<int>, k: nat)
    requires Supported(g, clock) && k < |clock|
    ensures forall suffix ::
              Generated(g, clock, suffix)[k] == Format(clock[k], StateAfter(g, clock[..k + 1]).sequence, suffix)
    ensures 0 <= clock[k] <= MAX_TIMESTAMP && 0 <= StateAfter(g, clock[..k + 1]).sequence < MAX_PER_TICK
    decreases k
  {
    StateAfterFirst(g, clock[..k + 1]);
    if k == 0 {
      assert clock[..1][1..] == [];
    } else {
      GeneratedAt(Advance(g, clock[0]), clock[1..], k - 1);
      assert clock[..k + 1][1..] == clock[1..][..k];
    }
  }

  /** The highest of the first `n` readings; 0 before any. */
  function Highest(clock: seq<int>, n: nat): int
    requires n <= |clock|
  {
    if n == 0 then 0
    else if clock[n - 1] > Highest(clock, n - 1) then clock[n - 1]
    else Highest(clock, n - 1)
  }

  /** The last of the first `n` readings that was above all before it; -1 if none was. */
  function LastRecord(clock: seq<int>, n: nat): int
    requires n <= |clock|
  {
    if n == 0 then -1
    else if clock[n - 1] > Highest(clock, n - 1) then n - 1
    else LastRecord(clock, n - 1)
  }

  /** The sequence number counts the readings since the last record. */
  lemma {:induction false} SequenceCounts(clock: seq<int>, n: nat)
    requires Supported(NEW_GENERATOR, clock) && 0 < n <= |clock|
    ensures var g := StateAfter(NEW_GENERATOR, clock[..n]);
            g.epochNano == Highest(clock, n) && g.sequence == n - 1 - LastRecord(clock, n)
    decreases n
  {
    assert clock[..n][..n - 1] == clock[..n - 1];
    if n > 1 {
      SequenceCounts(clock, n - 1);
      GeneratedAt(NEW_GENERATOR, clock, n - 2);
    } else {
      assert clock[..0] == [];
    }
  }

  /** Two IDs are the same exactly if their readings are, and come equally long after the last record before each. */
  lemma IdsRepeatIff(clock: seq<int>, suffix: seq<byte>, i: nat, j: nat)
    requires Supported(NEW_GENERATOR, clock) && i < j < |clock|
    ensures var ids := Generated(NEW_GENERATOR, clock, suffix);
            ids[i] == ids[j]
            <==> clock[i] == clock[j] && i - LastRecord(clock, i + 1) == j - LastRecord(clock, j + 1)
  {
    GeneratedAt(NEW_GENERATOR, clock, i);
    GeneratedAt(NEW_GENERATOR, clock, j);
    SequenceCounts(clock, i + 1);
    SequenceCounts(clock, j + 1);
    var q, q' := i - LastRecord(clock, i + 1), j - LastRecord(clock, j + 1);
    FormatOrder(clock[i], q, clock[j], q', suffix);
    FormatOrder(clock[j], q', clock[i], q, suffix);
    LessIrreflexive(Format(clock[i], q, suffix));
  }

  /** So going back does not have to repeat an ID. */
  lemma ClockGoingBackMayNotRepeat(suffix: seq<byte>)
    ensures var ids := Generated(NEW_GENERATOR, [5, 3], suffix); ids[0] != ids[1] && !Ascending(ids)
  {
    IdsAscendIffClockDoes(NEW_GENERATOR, [5, 3], suffix);
    IdsRepeatIff([5, 3], suffix, 0, 1);
    assert !([5, 3][1 - 1] <= [5, 3][1]);
  }
}
