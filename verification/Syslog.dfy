/** The loops of input/syslogprotocol/recordtest.go and input/syslogparser/syslogparser.go. */
module Syslog {
  import opened Bytes
  import opened Options
  import opened SyslogSpec

  /** Checks whether the bytes are possibly the start of a record. */
  method TestRecordStart(s: seq<byte>) returns (r: bool)
    ensures r <==> RecordStart(s)
  {
    if |s| < MIN_LENGTH {
      return false;
    }
    if s[0] != LESS_THAN {
      return false;
    }
    if s[1] < 48 || s[1] > 57 {
      assert s[1..2][0] == s[1..3][0] == s[1..4][0] == s[1];
      return false;
    }
    var i := 2;
    while i < 4
      invariant 2 <= i <= 4 && Digits(s[1..i])
      invariant forall k | 2 <= k < i :: Digit(s[k])
    {
      var c := s[i];
      if c == GREATER_THAN {
        EndsAt(s, i);
        return s[i + 1] == ONE && s[i + 2] == SPACE;
      }
      if c < 48 || c > 57 {
        EndsAt(s, i);
        return false;
      }
      assert s[1..i + 1] == s[1..i] + [c];
      i := i + 1;
    }
    EndsAt(s, i);
    return s[i] == GREATER_THAN && s[i + 1] == ONE && s[i + 2] == SPACE;
  }

  /** After digits up to `i` and something else, or three digits, the PRI can only end at `i`. */
  lemma EndsAt(s: seq<byte>, i: nat)
    requires |s| >= MIN_LENGTH && s[0] == LESS_THAN && 2 <= i <= 4 && Digits(s[1..i])
    requires i == 4 || !Digit(s[i])
    ensures RecordStart(s) <==> s[i] == GREATER_THAN && s[i + 1] == ONE && s[i + 2] == SPACE
  {
    assert forall k | 1 <= k < i :: s[1..i][k - 1] == s[k];
    forall n | 1 <= n <= 3 ensures PriEnds(s, n) <==> n == i - 1 && s[i] == GREATER_THAN && s[i + 1] == ONE && s[i + 2] == SPACE {
      assert s[1 + n..4 + n][0] == s[1 + n];
      if n == i - 1 {
        assert s[i..i + 3] == [s[i], s[i + 1], s[i + 2]];
        assert 1 + n == i && 4 + n == i + 3;
      }
      if n >= i {
        assert s[1..1 + n][i - 1] == s[i];
      }
    }
    assert PriEnds(s, i - 1) <==> s[i] == GREATER_THAN && s[i + 1] == ONE && s[i + 2] == SPACE;
  }

  /** Fills the fields that are delimited by spaces. */
  method FillRest(start: seq<byte>) returns (r: Option<(seq<seq<byte>>, seq<byte>)>)
    ensures r == RestFields(start, NUM_REST)
  {
    var rest := [];
    var remaining := start;
    ghost var all := RestFields(start, NUM_REST);
    assert all.Some? ==> [] + all.value.0 == all.value.0;
    for i := 0 to NUM_REST
      invariant |rest| == i
      invariant var more := RestFields(remaining, NUM_REST - i);
                RestFields(start, NUM_REST) == if more.None? then None else Some((rest + more.value.0, more.value.1))
    {
      var field := NextFieldBySpace(remaining);
      if field.None? {
        return None;
      }
      var more := RestFields(field.value.1, NUM_REST - i - 1);
      if more.Some? {
        Regroup(rest, [field.value.0], more.value.0);
      }
      rest := rest + [field.value.0];
      remaining := field.value.1;
    }
    assert rest + [] == rest;
    return Some((rest, remaining));
  }

  class SyslogParser {
    const levelMapping: seq<string>
    const cleanUTF8: seq<byte> -> seq<byte>
    var passed: nat      // CountRecordPass
    var dropped: nat     // CountRecordDrop
    var overflows: nat

    constructor (levelMapping: seq<string>, cleanUTF8: seq<byte> -> seq<byte>)
      requires |levelMapping| == 8
      ensures this.levelMapping == levelMapping && this.cleanUTF8 == cleanUTF8
      ensures passed == 0 && dropped == 0 && overflows == 0
    {
      this.levelMapping, this.cleanUTF8 := levelMapping, cleanUTF8;
      passed, dropped, overflows := 0, 0, 0;
    }

    method OnMalformed() returns (outcome: Outcome)
      modifies this`dropped
      ensures dropped == old(dropped) + 1 && outcome == Malformed
    {
      dropped := dropped + 1;
      return Malformed;
    }

    /** The PRI checks: the number, or why there is none. */
    method ParsePri(val: seq<byte>) returns (pri: Option<int>)
      requires |val| >= 2
      ensures pri == PriOf(val)
    {
      if val[|val| - 2..] != [GREATER_THAN, ONE] {
        return None;
      }
      if |val| == 2 {
        return None; // ">1" alone; not possible after '<'
      }
      return Atoi(val[1..|val| - 2]);
    }

    method Parse(input: seq<byte>) returns (outcome: Outcome)
      requires |levelMapping| == 8
      modifies this
      ensures outcome == ParseRecord(input, levelMapping, cleanUTF8)
      ensures passed == old(passed) + if outcome.Parsed? then 1 else 0
      ensures dropped == old(dropped) + if outcome.Malformed? then 1 else 0
    {
      if |input| < MIN_LENGTH || input[0] != LESS_THAN {
        outcome := OnMalformed();
        return;
      }
      var first := NextFieldBySpace(input);
      if first.None? {
        outcome := OnMalformed();
        return;
      }
      var (val, next) := first.value;
      if |val| < 2 {
        return Crash; // slice bounds out of range
      }
      var priVal := ParsePri(val);
      if priVal.None? {
        outcome := OnMalformed();
        return;
      }
      var facility := priVal.value / 8;
      if facility < 0 || facility >= 24 {
        outcome := OnMalformed();
        return;
      }
      var severity := priVal.value % 8;
      var rest := FillRest(next);
      if rest.None? {
        outcome := OnMalformed();
        return;
      }
      var remaining := rest.value.1;
      if |remaining| > MAX_MESSAGE_BYTES {
        overflows := overflows + 1;
        remaining := remaining[..MAX_MESSAGE_BYTES];
      }
      if |input| >= MAX_RECORD_BYTES {
        remaining := cleanUTF8(remaining);
      }
      passed := passed + 1;
      return Parsed(LogRecord(FacilityName(facility), levelMapping[severity], rest.value.0, remaining, |input|,
                              NEWLINE in remaining));
    }
  }
}
