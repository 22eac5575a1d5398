/** Extraction at the end is extraction at the start of the reversed text. */
module ExtractMirror {
  import opened Bytes
  import opened Options
  import opened ExtractSpec

  function Rev(s: seq<byte>): (r: seq<byte>)
    ensures |r| == |s|
  {
    seq(|s|, i requires 0 <= i < |s| => s[|s| - 1 - i])
  }

  lemma RevAt(s: seq<byte>, i: nat)
    requires i < |s|
    ensures Rev(s)[i] == s[|s| - 1 - i]
  {
  }

  lemma RevTwice(s: seq<byte>)
    ensures Rev(Rev(s)) == s
  {
  }

  lemma RevEqual(a: seq<byte>, b: seq<byte>)
    ensures Rev(a) == Rev(b) <==> a == b
  {
    RevTwice(a);
    RevTwice(b);
  }

  lemma TailMirrored(s: seq<byte>, i: nat)
    requires i <= |s|
    ensures Rev(s[i..]) == Rev(s)[..|s| - i] && Rev(Rev(s)[..|s| - i]) == s[i..]
  {
  }

  lemma HeadMirrored(s: seq<byte>, i: nat)
    requires i <= |s|
    ensures Rev(s[..i]) == Rev(s)[|s| - i..] && Rev(Rev(s)[|s| - i..]) == s[..i]
  {
  }

  lemma RevSlice(s: seq<byte>, i: nat, j: nat)
    requires i <= j <= |s|
    ensures Rev(s[i..j]) == Rev(s)[|s| - j..|s| - i]
  {
  }

  function RevOption(o: Option<seq<byte>>): Option<seq<byte>> {
    if o.Some? then Some(Rev(o.value)) else None
  }

  // Searching

  lemma OccursMirrored(s: seq<byte>, p: seq<byte>, i: nat)
    requires i + |p| <= |s|
    ensures OccursAt(s, p, i) <==> OccursAt(Rev(s), Rev(p), |s| - |p| - i)
  {
    RevSlice(s, i, i + |p|);
    RevEqual(s[i..i + |p|], p);
    assert |s| - (i + |p|) + |Rev(p)| == |s| - i;
  }

  lemma {:induction false} LastIndexFrom(s: seq<byte>, p: seq<byte>, last: int)
    requires -1 <= last <= |s| - |p|
    ensures var l, f := LastIndex(s, p, last), Index(Rev(s), Rev(p), |s| - |p| - last);
            if l.None? then f.None? else f == Some((|s| - |p|) - l.value)
    decreases last + 1
  {
    if last >= 0 {
      OccursMirrored(s, p, last);
      LastIndexFrom(s, p, last - 1);
    }
  }

  lemma {:induction false} LastIndexSkips(s: seq<byte>, p: seq<byte>, last: int)
    requires |s| - |p| <= last <= |s| && -1 <= last
    ensures LastIndex(s, p, last) == LastIndex(s, p, if |p| <= |s| then |s| - |p| else -1)
    decreases last
  {
  }

  /** The last occurrence is the first one from behind. */
  lemma LastIndexMirrored(s: seq<byte>, p: seq<byte>)
    ensures var l, f := LastIndex(s, p, |s|), Index(Rev(s), Rev(p), 0);
            if l.None? then f.None? else |p| <= |s| && f == Some(|s| - |p| - l.value)
  {
    LastIndexSkips(s, p, |s|);
    if |p| <= |s| {
      LastIndexFrom(s, p, |s| - |p|);
    }
  }

  lemma {:induction false} ValidStartFrom(table: Option<Table>, s: seq<byte>, i: nat)
    requires Proper(table) && i <= |s|
    ensures ValidStart(table, s, i) == |s| - ValidEnd(table, Rev(s), |s| - i)
  {
    if i > 0 {
      RevAt(s, |s| - i);
      ValidStartFrom(table, s, i - 1);
    }
  }

  lemma AllValidMirrored(table: Option<Table>, s: seq<byte>)
    requires Proper(table)
    ensures AllValid(table, Rev(s)) <==> AllValid(table, s)
  {
    var t := Rev(s);
    if AllValid(table, t) {
      forall i | 0 <= i < |s| ensures Valid(table, s[i]) {
        assert t[|s| - 1 - i] == s[i];
      }
    }
  }

  // Trimming

  lemma {:induction false} TrimStartMirrored(s: seq<byte>)
    ensures TrimEnd(Rev(s)) == Rev(TrimStart(s))
  {
    if s != [] {
      RevAt(s, |s| - 1);
    }
    if s != [] && s[0] <= SPACE {
      TailMirrored(s, 1);
      TrimStartMirrored(s[1..]);
    }
  }

  lemma {:induction false} TrimEndMirrored(s: seq<byte>)
    ensures TrimStart(Rev(s)) == Rev(TrimEnd(s))
  {
    if s != [] {
      RevAt(s, 0);
    }
    if s != [] && s[|s| - 1] <= SPACE {
      HeadMirrored(s, |s| - 1);
      TrimEndMirrored(s[..|s| - 1]);
    }
  }

  /** Which side is trimmed first does not matter. */
  lemma {:induction false} TrimCommutes(s: seq<byte>)
    ensures TrimStart(TrimEnd(s)) == TrimEnd(TrimStart(s))
  {
    if s != [] {
      var n := |s| - 1;
      if s[n] <= SPACE {
        TrimCommutes(s[..n]);
        TrimStartKeepsEnd(s);
      } else {
        TrimStartKeepsEnd(s);
      }
    }
  }

  /** Trimming the start does not see the last byte unless nothing else is left. */
  lemma {:induction false} TrimStartKeepsEnd(s: seq<byte>)
    requires s != []
    ensures var n := |s| - 1;
            if TrimStart(s[..n]) == [] then TrimStart(s) == if s[n] <= SPACE then [] else [s[n]]
            else TrimStart(s) == TrimStart(s[..n]) + [s[n]]
  {
    var n := |s| - 1;
    if n == 0 {
      assert s[1..] == [];
    } else if s[0] <= SPACE {
      assert s[1..][..n - 1] == s[..n][1..];
      TrimStartKeepsEnd(s[1..]);
    } else {
      assert s == s[..n] + [s[n]];
    }
  }

  lemma TrimMirrored(s: seq<byte>)
    ensures Trim(Rev(s)) == Rev(Trim(s))
  {
    TrimEndMirrored(s);
    TrimStartMirrored(TrimEnd(s));
    TrimCommutes(s);
  }

  // Labels

  lemma BoundedMirrored(t: seq<byte>, left: seq<byte>, table: Option<Table>)
    requires Proper(table) && left != []
    ensures RawInBack(t, left, table) == RevOption(RawInFront(Rev(t), Rev(left), table))
  {
    LastIndexMirrored(t, left);
    var begin := LastIndex(t, left, |t|);
    if begin.Some? {
      TailMirrored(t, begin.value + |left|);
      AllValidMirrored(table, t[begin.value + |left|..]);
    }
  }

  lemma UnboundedMirrored(t: seq<byte>, table: Option<Table>)
    requires Proper(table)
    ensures RawInBack(t, [], table) == RevOption(RawInFront(Rev(t), [], table))
  {
    ValidStartFrom(table, t, |t|);
    TailMirrored(t, ValidStart(table, t, |t|));
  }

  lemma InBackMirrored(t: seq<byte>, left: seq<byte>, table: Option<Table>)
    requires Proper(table)
    ensures RawInBack(t, left, table) == RevOption(RawInFront(Rev(t), Rev(left), table))
  {
    if left != [] {
      BoundedMirrored(t, left, table);
    } else {
      assert Rev(left) == [];
      UnboundedMirrored(t, table);
    }
  }

  lemma WindowMirrored(s: seq<byte>, n: nat)
    requires n <= |s|
    ensures Rev(s[|s| - n..]) == Rev(s)[..n]
  {
  }

  lemma LastValidMirrored(s: seq<byte>, table: Option<Table>)
    requires Proper(table) && s != []
    ensures Valid(table, Rev(s)[0]) <==> Valid(table, s[|s| - 1])
  {
  }

  lemma RawMirrored(s: seq<byte>, left: seq<byte>, maxRange: nat, table: Option<Table>)
    requires Proper(table)
    ensures RawAtEnd(s, left, maxRange, table) == RevOption(RawAtStart(Rev(s), Rev(left), maxRange, table))
  {
    var n := Min(maxRange, |s|);
    WindowMirrored(s, n);
    InBackMirrored(s[|s| - n..], left, table);
    if s != [] {
      LastValidMirrored(s, table);
    }
  }

  lemma SuffixMirrored(text: seq<byte>, right: seq<byte>)
    ensures HasSuffix(text, right) <==> Rev(right) <= Rev(text)
    ensures HasSuffix(text, right) ==> Rev(text[..|text| - |right|]) == Rev(text)[|right|..]
  {
    if |right| <= |text| {
      TailMirrored(text, |text| - |right|);
      RevEqual(text[|text| - |right|..], right);
      HeadMirrored(text, |text| - |right|);
    }
  }

  lemma FoundMirrored(s: seq<byte>, left: seq<byte>, raw: seq<byte>)
    ensures Trim(Rev(raw)) == Rev(Trim(raw))
    ensures s[..|s| - Min(|raw| + |left|, |s|)] == Rev(Rev(s)[Min(|raw| + |left|, |s|)..])
  {
    TrimMirrored(raw);
    HeadMirrored(s, |s| - Min(|raw| + |left|, |s|));
  }

  lemma WithSuffixMirrored(s: seq<byte>, left: seq<byte>, maxRange: nat, table: Option<Table>)
    requires Proper(table)
    ensures var found, raw := RawAtEnd(s, left, maxRange, table), RawAtStart(Rev(s), Rev(left), maxRange, table);
            && found.Some? == raw.Some?
            && (found.Some? ==>
                  && Trim(found.value) == Rev(Trim(raw.value))
                  && s[..|s| - Min(|found.value| + |left|, |s|)] == Rev(Rev(s)[Min(|raw.value| + |left|, |s|)..]))
  {
    RawMirrored(s, left, maxRange, table);
    var raw := RawAtStart(Rev(s), Rev(left), maxRange, table);
    if raw.Some? {
      FoundMirrored(s, left, raw.value);
    }
  }

  function RevOutcome(o: Outcome): Outcome {
    if o.Crash? then Crash else Extracted(Rev(o.tag), Rev(o.rest))
  }

  /** Both ends are treated alike. */
  lemma ExtractMirrored(text: seq<byte>, left: seq<byte>, right: seq<byte>, maxRange: nat, table: Option<Table>)
    requires Proper(table)
    ensures ExtractAtEnd(text, left, right, maxRange, table)
            == RevOutcome(ExtractAtStart(Rev(text), Rev(right), Rev(left), maxRange, table))
  {
    SuffixMirrored(text, right);
    RevTwice(text);
    assert Rev([]) == [];
    if HasSuffix(text, right) {
      WithSuffixMirrored(text[..|text| - |right|], left, maxRange, table);
    }
  }

  // Labels at the end

  /** The text ends with left + raw + right, and raw is what a reader would take for the label. */
  ghost predicate LabelsAtEnd(text: seq<byte>, rest: seq<byte>, left: seq<byte>, raw: seq<byte>, right: seq<byte>,
                              maxRange: nat, table: Option<Table>)
    requires Proper(table)
  {
    var s := rest + left + raw;
    && text == s + right
    && AllValid(table, raw)
    && |raw| + |left| <= maxRange
    && (if left != [] then
          // the last left boundary; an empty label has to end with a valid byte all the same
          && (forall k: nat | |rest| < k :: !OccursAt(s, left, k))
          && (raw == [] ==> Valid(table, left[|left| - 1]))
        else
          // as long as the table allows, and not empty
          table.Some? && raw != [] && (rest != [] && |raw| < maxRange ==> !Valid(table, rest[|rest| - 1])))
  }

  lemma RevAppend(a: seq<byte>, b: seq<byte>)
    ensures Rev(a + b) == Rev(b) + Rev(a)
  {
  }

  lemma RevThree(a: seq<byte>, b: seq<byte>, c: seq<byte>)
    ensures Rev(a + b + c) == Rev(c) + Rev(b) + Rev(a)
  {
    RevAppend(a + b, c);
    RevAppend(a, b);
    Regroup(Rev(c), Rev(b), Rev(a));
  }

  lemma WholeMirrored(text: seq<byte>, rest: seq<byte>, left: seq<byte>, raw: seq<byte>, right: seq<byte>)
    ensures text == rest + left + raw + right <==> Rev(text) == Rev(right) + (Rev(raw) + Rev(left) + Rev(rest))
  {
    RevAppend(rest + left + raw, right);
    RevThree(rest, left, raw);
    RevEqual(text, rest + left + raw + right);
  }

  /** The last occurrence of the left boundary is the first of its reverse. */
  lemma LastIsFirst(rest: seq<byte>, left: seq<byte>, raw: seq<byte>)
    ensures (forall k: nat | |rest| < k :: !OccursAt(rest + left + raw, left, k))
            <==> forall k | 0 <= k < |raw| :: !OccursAt(Rev(raw) + Rev(left) + Rev(rest), Rev(left), k)
  {
    var s := rest + left + raw;
    RevThree(rest, left, raw);
    forall k: nat | |rest| < k && k + |left| <= |s|
      ensures OccursAt(s, left, k) <==> OccursAt(Rev(s), Rev(left), |s| - |left| - k)
    {
      OccursMirrored(s, left, k);
    }
    forall k | 0 <= k < |raw|
      ensures OccursAt(Rev(s), Rev(left), k) <==> OccursAt(s, left, |s| - |left| - k)
    {
      OccursMirrored(s, left, |s| - |left| - k);
    }
  }

  lemma LabelsMirrored(text: seq<byte>, rest: seq<byte>, left: seq<byte>, raw: seq<byte>, right: seq<byte>,
                       maxRange: nat, table: Option<Table>)
    requires Proper(table)
    ensures LabelsAtEnd(text, rest, left, raw, right, maxRange, table)
            <==> Labels(Rev(text), Rev(right), Rev(raw), Rev(left), Rev(rest), maxRange, table)
  {
    WholeMirrored(text, rest, left, raw, right);
    AllValidMirrored(table, raw);
    if left != [] {
      LastIsFirst(rest, left, raw);
      LastValidMirrored(left, table);
    } else if rest != [] {
      LastValidMirrored(rest, table);
    }
  }

  ghost predicate NoLabelAtEnd(text: seq<byte>, left: seq<byte>, right: seq<byte>, maxRange: nat, table: Option<Table>)
    requires Proper(table)
  {
    forall raw, rest :: !LabelsAtEnd(text, rest, left, raw, right, maxRange, table)
  }

  lemma NoLabelMirrored(text: seq<byte>, left: seq<byte>, right: seq<byte>, maxRange: nat, table: Option<Table>)
    requires Proper(table)
    ensures NoLabelAtEnd(text, left, right, maxRange, table)
            <==> NoLabel(Rev(text), Rev(right), Rev(left), maxRange, table)
  {
    if !NoLabelAtEnd(text, left, right, maxRange, table) {
      var raw, rest :| LabelsAtEnd(text, rest, left, raw, right, maxRange, table);
      LabelsMirrored(text, rest, left, raw, right, maxRange, table);
    }
    if !NoLabel(Rev(text), Rev(right), Rev(left), maxRange, table) {
      var raw, rest :| Labels(Rev(text), Rev(right), raw, Rev(left), rest, maxRange, table);
      RevTwice(raw);
      RevTwice(rest);
      LabelsMirrored(text, Rev(rest), left, Rev(raw), right, maxRange, table);
    }
  }

  /**
   At the end too: a panic exactly if there is neither a far boundary nor a table, but the near boundary and a byte
   before it; else success exactly if there is a label.
   */
  lemma ExtractsLabelsAtEnd(text: seq<byte>, left: seq<byte>, right: seq<byte>, maxRange: nat, table: Option<Table>)
    requires Proper(table)
    ensures var outcome := ExtractAtEnd(text, left, right, maxRange, table);
            && (outcome.Crash? <==>
                  left == [] && table.None? && maxRange > 0 && HasSuffix(text, right) && |right| < |text|)
            && (outcome.Extracted? ==>
                  || (exists raw :: LabelsAtEnd(text, outcome.rest, left, raw, right, maxRange, table)
                                    && outcome.tag == Trim(raw))
                  || (outcome == Extracted([], text) && NoLabelAtEnd(text, left, right, maxRange, table)))
  {
    var mirrored := ExtractAtStart(Rev(text), Rev(right), Rev(left), maxRange, table);
    ExtractMirrored(text, left, right, maxRange, table);
    ExtractsExactlyLabels(Rev(text), Rev(right), Rev(left), maxRange, table);
    NoLabelMirrored(text, left, right, maxRange, table);
    SuffixMirrored(text, right);
    RevTwice(text);
    FoundIff(Rev(text), Rev(right), Rev(left), maxRange, table);
    if Found(Rev(text), Rev(right), Rev(left), maxRange, table) {
      var raw := FoundLabel(Rev(text), Rev(right), Rev(left), maxRange, table);
      RevTwice(raw);
      RevTwice(mirrored.rest);
      LabelsMirrored(text, Rev(mirrored.rest), left, Rev(raw), right, maxRange, table);
      TrimMirrored(raw);
    }
    assert Rev([]) == [];
  }

  /** Every label at the end is the one found. */
  lemma LabelAtEndIsRaw(text: seq<byte>, rest: seq<byte>, left: seq<byte>, raw: seq<byte>, right: seq<byte>,
                        maxRange: nat, table: Option<Table>)
    requires Proper(table) && LabelsAtEnd(text, rest, left, raw, right, maxRange, table)
    ensures ExtractAtEnd(text, left, right, maxRange, table) == Extracted(Trim(raw), rest)
  {
    LabelsMirrored(text, rest, left, raw, right, maxRange, table);
    LabelIsRaw(Rev(text), Rev(right), Rev(raw), Rev(left), Rev(rest), maxRange, table);
    ExtractMirrored(text, left, right, maxRange, table);
    TrimMirrored(raw);
    RevTwice(Trim(raw));
    RevTwice(rest);
  }

  /** And the transform's test is right there. */
  lemma ShorterIffLabelAtEnd(text: seq<byte>, left: seq<byte>, right: seq<byte>, maxRange: nat, table: Option<Table>)
    requires Proper(table)
    ensures var outcome := ExtractAtEnd(text, left, right, maxRange, table);
            outcome.Extracted? ==> (|outcome.rest| != |text| <==> !NoLabelAtEnd(text, left, right, maxRange, table))
    ensures ExtractAtEnd(text, left, right, maxRange, table).Crash? ==> NoLabelAtEnd(text, left, right, maxRange, table)
  {
    ExtractMirrored(text, left, right, maxRange, table);
    NoLabelMirrored(text, left, right, maxRange, table);
    ShorterIffLabel(Rev(text), Rev(right), Rev(left), maxRange, table);
  }
}
