/** What a label at the start or the end of a text is: transform/textractspecial/stringextractor.go. */
module ExtractSpec {
  import opened Bytes
  import opened Options

  /** A table of valid bytes. */
  type Table = seq<bool>

  predicate Proper(table: Option<Table>) {
    table.Some? ==> |table.value| == 256
  }

  predicate Valid(table: Option<Table>, c: byte)
    requires Proper(table)
  {
    table.None? || table.value[c]
  }

  predicate AllValid(table: Option<Table>, s: seq<byte>)
    requires Proper(table)
  {
    forall i | 0 <= i < |s| :: Valid(table, s[i])
  }

  // Searching

  predicate OccursAt(s: seq<byte>, p: seq<byte>, i: nat) {
    i + |p| <= |s| && s[i..i + |p|] == p
  }

  /** `strings.Index`, from a position on. */
  function Index(s: seq<byte>, p: seq<byte>, from: nat): (r: Option<nat>)
    ensures r.Some? ==> from <= r.value && OccursAt(s, p, r.value) && forall k | from <= k < r.value :: !OccursAt(s, p, k)
    ensures r.None? ==> forall k | from <= k :: !OccursAt(s, p, k)
    decreases |s| - from
  {
    if from + |p| > |s| then None
    else if OccursAt(s, p, from) then Some(from)
    else Index(s, p, from + 1)
  }

  /** `strings.LastIndex`, up to a position. */
  function LastIndex(s: seq<byte>, p: seq<byte>, last: int): (r: Option<nat>)
    requires last <= |s|
    ensures r.Some? ==> r.value <= last && OccursAt(s, p, r.value) && (forall k: nat | r.value < k <= last :: !OccursAt(s, p, k))
    ensures r.None? ==> forall k: nat | k <= last :: !OccursAt(s, p, k)
    decreases last + 1
  {
    if last < 0 then None
    else if OccursAt(s, p, last) then Some(last)
    else LastIndex(s, p, last - 1)
  }

  /** The end of the valid bytes at the start. */
  function ValidEnd(table: Option<Table>, s: seq<byte>, i: nat): (end: nat)
    requires Proper(table) && i <= |s|
    ensures i <= end <= |s| && (end < |s| ==> !Valid(table, s[end])) && forall k | i <= k < end :: Valid(table, s[k])
    decreases |s| - i
  {
    if i < |s| && Valid(table, s[i]) then ValidEnd(table, s, i + 1) else i
  }

  /** The beginning of the valid bytes at the end. */
  function ValidStart(table: Option<Table>, s: seq<byte>, i: nat): (start: nat)
    requires Proper(table) && i <= |s|
    ensures start <= i && (start > 0 ==> !Valid(table, s[start - 1])) && forall k | start <= k < i :: Valid(table, s[k])
  {
    if i > 0 && Valid(table, s[i - 1]) then ValidStart(table, s, i - 1) else i
  }

  // Trimming

  function TrimStart(s: seq<byte>): seq<byte> {
    if s != [] && s[0] <= SPACE then TrimStart(s[1..]) else s
  }

  function TrimEnd(s: seq<byte>): seq<byte> {
    if s != [] && s[|s| - 1] <= SPACE then TrimEnd(s[..|s| - 1]) else s
  }

  /** Without control characters and spaces around. */
  function Trim(s: seq<byte>): seq<byte> {
    TrimEnd(TrimStart(s))
  }

  // Labels

  function Min(a: nat, b: nat): nat {
    if a < b then a else b
  }

  /** A label and the rest of the text; or the panic of looking up a byte in a table that is not there. */
  datatype Outcome = Extracted(tag: seq<byte>, rest: seq<byte>) | Crash

  /**
   Without a boundary on the far side the program takes what the table allows, and without a table it panics on the
   first byte it looks up; with nothing to look up, it finds no label.
   */
  predicate LooksUpNothing(s: seq<byte>, far: seq<byte>, maxRange: nat, table: Option<Table>) {
    far == [] && table.None? && maxRange > 0 && s != []
  }

  /** The raw label at the start of the part that is searched; None if matching fails. */
  function RawInFront(t: seq<byte>, right: seq<byte>, table: Option<Table>): Option<seq<byte>>
    requires Proper(table)
  {
    if right != [] then
      var end := Index(t, right, 0);
      if end.None? || !AllValid(table, t[..end.value]) then None else Some(t[..end.value])
    else
      var end := ValidEnd(table, t, 0);
      if end == 0 then None else Some(t[..end])
  }

  /** The same for a text without the left boundary. */
  function RawAtStart(s: seq<byte>, right: seq<byte>, maxRange: nat, table: Option<Table>): Option<seq<byte>>
    requires Proper(table)
  {
    if s != [] && !Valid(table, s[0]) then None else RawInFront(s[..Min(maxRange, |s|)], right, table)
  }

  /** What becomes of the text. */
  function ExtractAtStart(text: seq<byte>, left: seq<byte>, right: seq<byte>, maxRange: nat, table: Option<Table>): Outcome
    requires Proper(table)
  {
    if !(left <= text) then Extracted([], text)
    else
      var s := text[|left|..];
      if LooksUpNothing(s, right, maxRange, table) then Crash
      else
        var raw := RawAtStart(s, right, maxRange, table);
        if raw.None? then Extracted([], text) else Extracted(Trim(raw.value), s[Min(|raw.value| + |right|, |s|)..])
  }

  function RawInBack(t: seq<byte>, left: seq<byte>, table: Option<Table>): Option<seq<byte>>
    requires Proper(table)
  {
    if left != [] then
      var begin := LastIndex(t, left, |t|);
      if begin.None? || !AllValid(table, t[begin.value + |left|..]) then None else Some(t[begin.value + |left|..])
    else
      var begin := ValidStart(table, t, |t|);
      if begin == |t| then None else Some(t[begin..])
  }

  function RawAtEnd(s: seq<byte>, left: seq<byte>, maxRange: nat, table: Option<Table>): Option<seq<byte>>
    requires Proper(table)
  {
    if s != [] && !Valid(table, s[|s| - 1]) then None
    else RawInBack(s[|s| - Min(maxRange, |s|)..], left, table)
  }

  predicate HasSuffix(text: seq<byte>, right: seq<byte>) {
    |right| <= |text| && text[|text| - |right|..] == right
  }

  function ExtractAtEnd(text: seq<byte>, left: seq<byte>, right: seq<byte>, maxRange: nat, table: Option<Table>): Outcome
    requires Proper(table)
  {
    if !HasSuffix(text, right) then Extracted([], text)
    else
      var s := text[..|text| - |right|];
      if LooksUpNothing(s, left, maxRange, table) then Crash
      else
        var raw := RawAtEnd(s, left, maxRange, table);
        if raw.None? then Extracted([], text)
        else Extracted(Trim(raw.value), s[..|s| - Min(|raw.value| + |left|, |s|)])
  }

  lemma ExtractAtEndFrom(text: seq<byte>, left: seq<byte>, right: seq<byte>, maxRange: nat, table: Option<Table>,
                         s: seq<byte>, raw: Option<seq<byte>>)
    requires Proper(table) && HasSuffix(text, right) && s == text[..|text| - |right|]
    requires !LooksUpNothing(s, left, maxRange, table)
    requires raw == RawAtEnd(s, left, maxRange, table) && (raw.Some? ==> |raw.value| + |left| <= |s|)
    ensures ExtractAtEnd(text, left, right, maxRange, table) ==
            if raw.None? then Extracted([], text) else Extracted(Trim(raw.value), s[..|s| - |raw.value| - |left|])
  {
  }

  // What a label is

  /** The text begins with left + raw + right, and raw is what a reader would take for the label. */
  ghost predicate Labels(text: seq<byte>, left: seq<byte>, raw: seq<byte>, right: seq<byte>, rest: seq<byte>,
                         maxRange: nat, table: Option<Table>)
    requires Proper(table)
  {
    var s := raw + right + rest;
    && text == left + s
    && AllValid(table, raw)
    && |raw| + |right| <= maxRange
    && (if right != [] then
          // the first right boundary; an empty label has to begin with a valid byte all the same
          && (forall k | 0 <= k < |raw| :: !OccursAt(s, right, k))
          && (raw == [] ==> Valid(table, right[0]))
        else
          // as long as the table allows, and not empty
          table.Some? && raw != [] && (rest != [] && |raw| < maxRange ==> !Valid(table, rest[0])))
  }

  lemma PrefixOccurs(s: seq<byte>, p: seq<byte>, n: nat, k: nat)
    requires n <= |s|
    ensures OccursAt(s[..n], p, k) <==> OccursAt(s, p, k) && k + |p| <= n
  {
  }

  /** Success is an honest label... */
  lemma RawIsLabel(left: seq<byte>, s: seq<byte>, right: seq<byte>, maxRange: nat, table: Option<Table>)
    requires Proper(table) && !LooksUpNothing(s, right, maxRange, table)
    ensures var raw := RawAtStart(s, right, maxRange, table);
            raw.Some? ==>
              |raw.value| + |right| <= |s|
              && Labels(left + s, left, raw.value, right, s[|raw.value| + |right|..], maxRange, table)
  {
    var raw := RawAtStart(s, right, maxRange, table);
    if raw.Some? {
      var n := Min(maxRange, |s|);
      var end := |raw.value|;
      assert raw.value == s[..n][..end] == s[..end];
      if right != [] {
        PrefixOccurs(s, right, n, end);
        assert OccursAt(s[..n], right, end);
        assert s == raw.value + right + s[end + |right|..];
        forall k | 0 <= k < end ensures !OccursAt(s, right, k) {
          PrefixOccurs(s, right, n, k);
        }
        if raw.value == [] {
          assert s[0] == right[0];
        }
      } else {
        assert s == raw.value + right + s[end + |right|..];
        assert forall k | 0 <= k < end :: s[..n][k] == s[k];
      }
    }
  }

  /** ...and an honest label is found. */
  lemma LabelIsRaw(text: seq<byte>, left: seq<byte>, raw: seq<byte>, right: seq<byte>, rest: seq<byte>,
                   maxRange: nat, table: Option<Table>)
    requires Proper(table) && Labels(text, left, raw, right, rest, maxRange, table)
    ensures RawAtStart(text[|left|..], right, maxRange, table) == Some(raw)
    ensures ExtractAtStart(text, left, right, maxRange, table) == Extracted(Trim(raw), rest)
  {
    var s := raw + right + rest;
    assert text[|left|..] == s;
    var n := Min(maxRange, |s|);
    assert s[..|raw|] == raw;
    assert |raw| <= n ==> s[..n][..|raw|] == raw;
    if right != [] {
      assert s[|raw|..|raw| + |right|] == right;
      PrefixOccurs(s, right, n, |raw|);
      forall k | 0 <= k < |raw| ensures !OccursAt(s[..n], right, k) {
        PrefixOccurs(s, right, n, k);
      }
      assert s[0] == if raw == [] then right[0] else raw[0];
      assert Index(s[..n], right, 0) == Some(|raw|);
    } else {
      assert s[0] == raw[0];
      assert forall k | 0 <= k < |raw| :: s[..n][k] == raw[k];
      assert |raw| < n ==> s[..n][|raw|] == rest[0];
      assert ValidEnd(table, s[..n], 0) == |raw|;
    }
    assert s[|raw| + |right|..] == rest;
  }

  /** No label, whatever is taken for it and for the rest. */
  ghost predicate NoLabel(text: seq<byte>, left: seq<byte>, right: seq<byte>, maxRange: nat, table: Option<Table>)
    requires Proper(table)
  {
    forall raw, rest :: !Labels(text, left, raw, right, rest, maxRange, table)
  }

  /** The program finds one. */
  predicate Found(text: seq<byte>, left: seq<byte>, right: seq<byte>, maxRange: nat, table: Option<Table>)
    requires Proper(table)
  {
    && left <= text && !LooksUpNothing(text[|left|..], right, maxRange, table)
    && RawAtStart(text[|left|..], right, maxRange, table).Some?
  }

  lemma FoundLabel(text: seq<byte>, left: seq<byte>, right: seq<byte>, maxRange: nat, table: Option<Table>)
      returns (raw: seq<byte>)
    requires Proper(table) && Found(text, left, right, maxRange, table)
    ensures var outcome := ExtractAtStart(text, left, right, maxRange, table);
            && outcome.Extracted? && outcome.tag == Trim(raw) && |outcome.rest| < |text|
            && Labels(text, left, raw, right, outcome.rest, maxRange, table)
  {
    var s := text[|left|..];
    assert text == left + s;
    RawIsLabel(left, s, right, maxRange, table);
    raw := RawAtStart(s, right, maxRange, table).value;
  }

  lemma FoundIff(text: seq<byte>, left: seq<byte>, right: seq<byte>, maxRange: nat, table: Option<Table>)
    requires Proper(table)
    ensures Found(text, left, right, maxRange, table) <==> !NoLabel(text, left, right, maxRange, table)
  {
    if !NoLabel(text, left, right, maxRange, table) {
      var raw, rest :| Labels(text, left, raw, right, rest, maxRange, table);
      LabelIsRaw(text, left, raw, right, rest, maxRange, table);
    }
    if Found(text, left, right, maxRange, table) {
      var raw := FoundLabel(text, left, right, maxRange, table);
    }
  }

  /**
   Extraction panics exactly if it has neither a far boundary nor a table, the near boundary is there, and so is a byte
   behind it to look at. Else it succeeds exactly if there is a label, and gives its trimmed text and what follows.
   */
  lemma ExtractsExactlyLabels(text: seq<byte>, left: seq<byte>, right: seq<byte>, maxRange: nat, table: Option<Table>)
    requires Proper(table)
    ensures var outcome := ExtractAtStart(text, left, right, maxRange, table);
            && (outcome.Crash? <==> right == [] && table.None? && maxRange > 0 && left < text)
            && (outcome.Extracted? ==>
                  || (exists raw :: Labels(text, left, raw, right, outcome.rest, maxRange, table) && outcome.tag == Trim(raw))
                  || (outcome == Extracted([], text) && NoLabel(text, left, right, maxRange, table)))
  {
    FoundIff(text, left, right, maxRange, table);
    if Found(text, left, right, maxRange, table) {
      var raw := FoundLabel(text, left, right, maxRange, table);
    }
  }

  /** The transform's test: the text got shorter if and only if there was a label. */
  lemma ShorterIffLabel(text: seq<byte>, left: seq<byte>, right: seq<byte>, maxRange: nat, table: Option<Table>)
    requires Proper(table)
    ensures var outcome := ExtractAtStart(text, left, right, maxRange, table);
            outcome.Extracted? ==> (|outcome.rest| != |text| <==> !NoLabel(text, left, right, maxRange, table))
    ensures ExtractAtStart(text, left, right, maxRange, table).Crash? ==> NoLabel(text, left, right, maxRange, table)
  {
    FoundIff(text, left, right, maxRange, table);
    if Found(text, left, right, maxRange, table) {
      var raw := FoundLabel(text, left, right, maxRange, table);
    }
  }
}
