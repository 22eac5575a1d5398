/** Syslog records, RFC 5424 sections 6 and 6.2.1, as input/syslogparser/syslogparser.go reads them. */
module SyslogSpec {
  import opened Bytes
  import opened Options
  import opened ChunkIds

  const LESS_THAN: byte := 60
  const GREATER_THAN: byte := 62
  const ONE: byte := 49
  const PLUS: byte := 43
  const MINUS: byte := 45

  const MAX_MESSAGE_BYTES := 1 * 1024 * 1024
  const MAX_RECORD_BYTES := MAX_MESSAGE_BYTES + 256

  const MIN_LENGTH := 32
  const NUM_REST := 6 // the fields of LogRecord.rest

  // Numbers

  predicate Digits(s: seq<byte>) {
    forall i | 0 <= i < |s| :: Digit(s[i])
  }

  function Value(s: seq<byte>): nat
    requires Digits(s)
  {
    if s == [] then 0
    else
      assert Digit(s[|s| - 1]);
      var last: int := s[|s| - 1];
      10 * Value(s[..|s| - 1]) + (last - 48)
  }

  /** `strconv.Atoi` on a 64-bit machine. */
  function Atoi(s: seq<byte>): Option<int> {
    var signed := s != [] && (s[0] == PLUS || s[0] == MINUS);
    var digits := if signed then s[1..] else s;
    if digits == [] || !Digits(digits) then None
    else
      var n: int := Value(digits);
      var v := if signed && s[0] == MINUS then -n else n;
      if -0x8000_0000_0000_0000 <= v < 0x8000_0000_0000_0000 then Some(v) else None
  }

  lemma {:induction false} DecimalDigits(n: nat)
    ensures Digits(Decimal(n)) && Value(Decimal(n)) == n
  {
    var s := Decimal(n);
    if n < 10 {
      assert s[..0] == [];
    } else {
      DecimalDigits(n / 10);
      assert s[..|s| - 1] == Decimal(n / 10);
    }
  }

  /** Printed numbers are read back. */
  lemma AtoiOfDecimal(n: nat)
    requires n < 0x8000_0000_0000_0000
    ensures Atoi(Decimal(n)) == Some(n as int)
  {
    DecimalDigits(n);
    assert Digit(Decimal(n)[0]);
  }

  // Names

  function FacilityName(facility: nat): string
    requires facility < 24
  {
    match facility
    case 0 => "kern"
    case 1 => "user"
    case 2 => "mail"
    case 3 => "daemon"
    case 4 => "auth"
    case 5 => "syslog"
    case 6 => "lpr"
    case 7 => "news"
    case 8 => "uucp"
    case 9 => "cron"
    case 10 => "authpriv"
    case 11 => "ftp"
    case 12 => "ntp"
    case 13 => "audit"
    case 14 => "alert"
    case 15 => "clock"
    case 16 => "local0"
    case 17 => "local1"
    case 18 => "local2"
    case 19 => "local3"
    case 20 => "local4"
    case 21 => "local5"
    case 22 => "local6"
    case _ => "local7"
  }

  /** The number of the facility with the name. */
  function FacilityNumber(name: string, from: nat): nat
    requires from <= 24
    decreases 24 - from
  {
    if from == 24 || FacilityName(from) == name then from else FacilityNumber(name, from + 1)
  }

  predicate Distinct(names: seq<string>) {
    forall i, j | 0 <= i < j < |names| :: names[i] != names[j]
  }

  function IndexOfName(names: seq<string>, name: string, from: nat): nat
    requires from <= |names|
    decreases |names| - from
  {
    if from == |names| || names[from] == name then from else IndexOfName(names, name, from + 1)
  }

  lemma {:induction false} IndexOfDistinct(names: seq<string>, i: nat, from: nat)
    requires Distinct(names) && from <= i < |names|
    ensures IndexOfName(names, names[i], from) == i
    decreases i - from
  {
    if from < i {
      IndexOfDistinct(names, i, from + 1);
    }
  }

  lemma FacilityNamesDiffer(i: nat, j: nat)
    requires i < j < 24
    ensures FacilityName(i) != FacilityName(j)
  {
  }

  lemma {:induction false} FacilityNumberOf(i: nat, from: nat)
    requires from <= i < 24
    ensures FacilityNumber(FacilityName(i), from) == i
    decreases i - from
  {
    if from < i {
      FacilityNamesDiffer(from, i);
      FacilityNumberOf(i, from + 1);
    }
  }

  // Parsing

  /** The part before the first space, and the part after it. */
  function NextFieldBySpace(s: seq<byte>): (r: Option<(seq<byte>, seq<byte>)>)
    ensures r.Some? ==> s == r.value.0 + [SPACE] + r.value.1 && SPACE !in r.value.0
    ensures r.None? ==> SPACE !in s
  {
    FieldFrom(s, 0)
  }

  function FieldFrom(s: seq<byte>, i: nat): (r: Option<(seq<byte>, seq<byte>)>)
    requires i <= |s| && SPACE !in s[..i]
    ensures r.Some? ==> s == r.value.0 + [SPACE] + r.value.1 && SPACE !in r.value.0
    ensures r.None? ==> SPACE !in s
    decreases |s| - i
  {
    if i == |s| then
      assert s[..i] == s;
      None
    else if s[i] == SPACE then
      assert s == s[..i] + [SPACE] + s[i + 1..];
      Some((s[..i], s[i + 1..]))
    else
      assert s[..i + 1] == s[..i] + [s[i]];
      FieldFrom(s, i + 1)
  }

  /** There is only one way to cut at the first space. */
  lemma NextFieldIs(a: seq<byte>, b: seq<byte>)
    requires SPACE !in a
    ensures NextFieldBySpace(a + [SPACE] + b) == Some((a, b))
  {
    var s := a + [SPACE] + b;
    assert s[|a|] == SPACE && forall i | 0 <= i < |a| :: s[i] == a[i];
    var r := NextFieldBySpace(s).value;
    assert s[|r.0|] == SPACE && forall i | 0 <= i < |r.0| :: s[i] == r.0[i];
    assert |r.0| == |a|;
    assert r.0 == s[..|a|] == a;
    assert r.1 == s[|a| + 1..] == b;
  }

  datatype LogRecord = LogRecord(
    facility: string,
    level: string,
    rest: seq<seq<byte>>,    // time, host, app, pid, source and extradata
    log: seq<byte>,
    rawLength: nat,
    unescaped: bool)

  /** The source drops malformed input, and panics where a slice has a negative bound. */
  datatype Outcome = Parsed(record: LogRecord) | Malformed | Crash

  /** The number in "<number>1"; None if there is none, or the field is not like that. */
  function PriOf(field: seq<byte>): Option<int>
    requires |field| >= 2
  {
    var n := |field|;
    if field[n - 2..] != [GREATER_THAN, ONE] || n < 3 then None else Atoi(field[1..n - 2])
  }

  function RestFields(s: seq<byte>, n: nat): Option<(seq<seq<byte>>, seq<byte>)>
    decreases n
  {
    if n == 0 then Some(([], s))
    else
      var first := NextFieldBySpace(s);
      if first.None? then None
      else
        var more := RestFields(first.value.1, n - 1);
        if more.None? then None else Some(([first.value.0] + more.value.0, more.value.1))
  }

  function Message(remaining: seq<byte>, rawLength: nat, clean: seq<byte> -> seq<byte>): seq<byte> {
    var kept := if |remaining| > MAX_MESSAGE_BYTES then remaining[..MAX_MESSAGE_BYTES] else remaining;
    if rawLength >= MAX_RECORD_BYTES then clean(kept) else kept
  }

  function ParseRecord(input: seq<byte>, levels: seq<string>, clean: seq<byte> -> seq<byte>): Outcome
    requires |levels| == 8
  {
    if |input| < MIN_LENGTH || input[0] != LESS_THAN then Malformed
    else
      var first := NextFieldBySpace(input);
      if first.None? then Malformed
      else if |first.value.0| < 2 then Crash
      else
        var pri := PriOf(first.value.0);
        if pri.None? || pri.value / 8 < 0 || pri.value / 8 >= 24 then Malformed
        else
          var rest := RestFields(first.value.1, NUM_REST);
          if rest.None? then Malformed
          else
            var message := Message(rest.value.1, |input|, clean);
            Parsed(LogRecord(FacilityName(pri.value / 8), levels[pri.value % 8], rest.value.0, message, |input|,
                             NEWLINE in message))
  }

  /** The parser panics exactly on input of sufficient length that begins with "< ". */
  lemma CrashesIff(input: seq<byte>, levels: seq<string>, clean: seq<byte> -> seq<byte>)
    requires |levels| == 8
    ensures ParseRecord(input, levels, clean).Crash? <==>
            |input| >= MIN_LENGTH && input[0] == LESS_THAN && input[1] == SPACE
  {
  }

  // The test for the start of a record

  /** "<", one to three digits, ">1 ", and long enough. */
  predicate RecordStart(s: seq<byte>) {
    |s| >= MIN_LENGTH && s[0] == LESS_THAN && exists n | 1 <= n <= 3 :: PriEnds(s, n)
  }

  predicate PriEnds(s: seq<byte>, n: nat)
    requires n + 4 <= |s|
  {
    Digits(s[1..1 + n]) && s[1 + n..4 + n] == [GREATER_THAN, ONE, SPACE]
  }

  lemma {:induction false} ValueBounded(s: seq<byte>)
    requires Digits(s) && |s| <= 3
    ensures Value(s) < if |s| == 0 then 1 else if |s| == 1 then 10 else if |s| == 2 then 100 else 1000
  {
    if s != [] {
      ValueBounded(s[..|s| - 1]);
    }
  }

  lemma StartCut(input: seq<byte>, n: nat)
    requires |input| >= MIN_LENGTH && input[0] == LESS_THAN && 1 <= n <= 3 && PriEnds(input, n)
    ensures input == [LESS_THAN] + input[1..1 + n] + [GREATER_THAN, ONE] + [SPACE] + input[4 + n..]
  {
  }

  /** What the test accepts gets past all checks of the PRI before the one of the facility. */
  lemma StartPassesPri(input: seq<byte>)
    requires RecordStart(input)
    ensures var first := NextFieldBySpace(input);
            && first.Some? && |first.value.0| >= 3
            && PriOf(first.value.0).Some? && 0 <= PriOf(first.value.0).value < 1000
  {
    var n :| 1 <= n <= 3 && PriEnds(input, n);
    StartCut(input, n);
    var digits := input[1..1 + n];
    var field := [LESS_THAN] + digits + [GREATER_THAN, ONE];
    NextFieldIs(field, input[4 + n..]);
    PriOfDigits(digits);
  }

  lemma PriOfDigits(digits: seq<byte>)
    requires Digits(digits) && 1 <= |digits| <= 3
    ensures var field := [LESS_THAN] + digits + [GREATER_THAN, ONE];
            PriOf(field) == Some(Value(digits) as int) && Value(digits) < 1000 && SPACE !in field
  {
    var field := [LESS_THAN] + digits + [GREATER_THAN, ONE];
    assert field[|field| - 2..] == [GREATER_THAN, ONE] && field[1..|field| - 2] == digits;
    assert Digit(digits[0]);
    ValueBounded(digits);
  }

  /** So such input is dropped only for its facility or for missing fields, and never makes the parser panic. */
  lemma StartNeverCrashes(input: seq<byte>, levels: seq<string>, clean: seq<byte> -> seq<byte>)
    requires RecordStart(input) && |levels| == 8
    ensures !ParseRecord(input, levels, clean).Crash?
    ensures var first := NextFieldBySpace(input);
            && first.Some? && |first.value.0| >= 2 && PriOf(first.value.0).Some?
            && (ParseRecord(input, levels, clean).Malformed? <==>
                PriOf(first.value.0).value >= 192 || RestFields(first.value.1, NUM_REST).None?)
  {
    StartPassesPri(input);
  }

  // Printing

  function PrintRest(rest: seq<seq<byte>>, log: seq<byte>): seq<byte> {
    if rest == [] then log else rest[0] + [SPACE] + PrintRest(rest[1..], log)
  }

  function Pri(r: LogRecord, levels: seq<string>): nat {
    8 * FacilityNumber(r.facility, 0) + IndexOfName(levels, r.level, 0)
  }

  function Print(r: LogRecord, levels: seq<string>): seq<byte> {
    [LESS_THAN] + Decimal(Pri(r, levels)) + [GREATER_THAN, ONE] + [SPACE] + PrintRest(r.rest, r.log)
  }

  lemma {:induction false} RestPrinted(s: seq<byte>, n: nat)
    ensures var r := RestFields(s, n);
            r.Some? ==> PrintRest(r.value.0, r.value.1) == s && |r.value.0| == n
                        && forall i | 0 <= i < n :: SPACE !in r.value.0[i]
    decreases n
  {
    if n > 0 && NextFieldBySpace(s).Some? {
      var first := NextFieldBySpace(s).value;
      RestPrinted(first.1, n - 1);
      var more := RestFields(first.1, n - 1);
      if more.Some? {
        var all := [first.0] + more.value.0;
        assert all[1..] == more.value.0;
      }
    }
  }

  lemma {:induction false} PrintedRest(rest: seq<seq<byte>>, log: seq<byte>)
    requires forall i | 0 <= i < |rest| :: SPACE !in rest[i]
    ensures RestFields(PrintRest(rest, log), |rest|) == Some((rest, log))
    decreases |rest|
  {
    if rest != [] {
      assert SPACE !in rest[0];
      NextFieldIs(rest[0], PrintRest(rest[1..], log));
      PrintedRest(rest[1..], log);
      assert [rest[0]] + rest[1..] == rest;
    }
  }

  /** The first field of an input whose PRI is written as numbers are printed. */
  ghost predicate CanonicalPri(input: seq<byte>) {
    var first := NextFieldBySpace(input);
    && first.Some?
    && exists v: nat :: first.value.0 == [LESS_THAN] + Decimal(v) + [GREATER_THAN, ONE]
  }

  lemma PriOfPrinted(v: nat)
    requires v < 0x8000_0000_0000_0000
    ensures var field := [LESS_THAN] + Decimal(v) + [GREATER_THAN, ONE];
            |field| >= 3 && PriOf(field) == Some(v as int) && SPACE !in field
  {
    var field := [LESS_THAN] + Decimal(v) + [GREATER_THAN, ONE];
    assert field[|field| - 2..] == [GREATER_THAN, ONE] && field[1..|field| - 2] == Decimal(v);
    AtoiOfDecimal(v);
    DecimalDigits(v);
  }

  lemma LevelRange(v: nat)
    requires v < 192
    ensures 8 * (v / 8) + v % 8 == v && v / 8 < 24 && v % 8 < 8
  {
  }

  /** PRI = 8 * facility + severity. */
  lemma PriIsBack(v: nat, levels: seq<string>, r: LogRecord)
    requires v < 192 && |levels| == 8 && Distinct(levels)
    requires r.facility == FacilityName(v / 8) && r.level == levels[v % 8]
    ensures Pri(r, levels) == v
  {
    LevelRange(v);
    FacilityNumberOf(v / 8, 0);
    IndexOfDistinct(levels, v % 8, 0);
  }

  /** The message part of an input that can be parsed. */
  function MessageOf(input: seq<byte>): seq<byte> {
    var first := NextFieldBySpace(input);
    if first.None? then []
    else
      var rest := RestFields(first.value.1, NUM_REST);
      if rest.None? then [] else rest.value.1
  }

  /** Printing a parsed record gives the input back if its PRI is canonical and nothing was cut off or cleaned up. */
  lemma PrintedBack(input: seq<byte>, levels: seq<string>, clean: seq<byte> -> seq<byte>)
    requires |levels| == 8 && Distinct(levels) && CanonicalPri(input)
    requires |input| < MAX_RECORD_BYTES && |MessageOf(input)| <= MAX_MESSAGE_BYTES
    requires ParseRecord(input, levels, clean).Parsed?
    ensures Print(ParseRecord(input, levels, clean).record, levels) == input
  {
    PrintedBackIff(input, levels, clean);
  }

  /** And only then. */
  lemma PrintedBackIff(input: seq<byte>, levels: seq<string>, clean: seq<byte> -> seq<byte>)
    requires |levels| == 8 && Distinct(levels) && ParseRecord(input, levels, clean).Parsed?
    ensures var r := ParseRecord(input, levels, clean).record;
            Print(r, levels) == input <==> CanonicalPri(input) && r.log == MessageOf(input)
  {
    var r := ParseRecord(input, levels, clean).record;
    var first := NextFieldBySpace(input).value;
    RestPrinted(first.1, NUM_REST);
    if CanonicalPri(input) && r.log == MessageOf(input) {
      var v: nat :| first.0 == [LESS_THAN] + Decimal(v) + [GREATER_THAN, ONE];
      CanonicalPriIs(first.0, v);
      PriIsBack(v, levels, r);
    }
    if Print(r, levels) == input {
      PrintedIsCanonical(r, levels);
      PrintedRest(r.rest, r.log);
    }
  }

  lemma PrintedIsCanonical(r: LogRecord, levels: seq<string>)
    ensures CanonicalPri(Print(r, levels))
    ensures NextFieldBySpace(Print(r, levels)).value.1 == PrintRest(r.rest, r.log)
  {
    var v := Pri(r, levels);
    var field := [LESS_THAN] + Decimal(v) + [GREATER_THAN, ONE];
    DecimalDigits(v);
    assert SPACE !in field;
    NextFieldIs(field, PrintRest(r.rest, r.log));
  }

  /** A number too large for an integer is refused like one that is too large for a facility. */
  lemma CanonicalPriIs(field: seq<byte>, v: nat)
    requires field == [LESS_THAN] + Decimal(v) + [GREATER_THAN, ONE]
    ensures |field| >= 3 && PriOf(field) == if v < 0x8000_0000_0000_0000 then Some(v as int) else None
  {
    assert field[|field| - 2..] == [GREATER_THAN, ONE] && field[1..|field| - 2] == Decimal(v);
    DecimalDigits(v);
    assert Digit(Decimal(v)[0]);
  }

  /** And parsing a printed record gives the record back. */
  lemma ParsedBack(r: LogRecord, facility: nat, severity: nat, levels: seq<string>, clean: seq<byte> -> seq<byte>)
    requires |levels| == 8 && Distinct(levels) && facility < 24 && severity < 8
    requires r.facility == FacilityName(facility) && r.level == levels[severity]
    requires |r.rest| == NUM_REST && forall i | 0 <= i < |r.rest| :: SPACE !in r.rest[i]
    requires var text := Print(r, levels);
             MIN_LENGTH <= |text| == r.rawLength < MAX_RECORD_BYTES && |r.log| <= MAX_MESSAGE_BYTES
             && r.unescaped == (NEWLINE in r.log)
    ensures ParseRecord(Print(r, levels), levels, clean) == Parsed(r)
  {
    var v := 8 * facility + severity;
    PriParts(facility, severity);
    PriIsBack(v, levels, r);
    PrintedParts(r, levels);
    PrintedRest(r.rest, r.log);
  }

  lemma PriParts(facility: nat, severity: nat)
    requires facility < 24 && severity < 8
    ensures var v := 8 * facility + severity; v < 192 && v / 8 == facility && v % 8 == severity
  {
  }

  lemma PrintedParts(r: LogRecord, levels: seq<string>)
    requires Pri(r, levels) < 192
    ensures var text := Print(r, levels);
            var first := NextFieldBySpace(text);
            && text[0] == LESS_THAN && first.Some? && first.value.1 == PrintRest(r.rest, r.log)
            && |first.value.0| >= 3 && PriOf(first.value.0) == Some(Pri(r, levels) as int)
  {
    var v := Pri(r, levels);
    PriOfPrinted(v);
    NextFieldIs([LESS_THAN] + Decimal(v) + [GREATER_THAN, ONE], PrintRest(r.rest, r.log));
  }
}
