/** The loops of transform/textractspecial/stringextractor.go and the transform around them. */
module Extract {
  import opened Bytes
  import opened Options
  import opened ExtractMirror
  import opened ExtractSpec

  /** The end of the part from the start that is all valid; None is the panic of a lookup in no table. */
  method MatchValidCharsFromStart(s: seq<byte>, validChars: Option<Table>) returns (end: Option<nat>)
    requires Proper(validChars)
    ensures end == if validChars.None? && s != [] then None else Some(ValidEnd(validChars, s, 0))
  {
    for i := 0 to |s|
      invariant i > 0 ==> validChars.Some?
      invariant ValidEnd(validChars, s, i) == ValidEnd(validChars, s, 0)
    {
      var c := s[i];
      if validChars.None? {
        return None;
      }
      if !validChars.value[c] {
        return Some(i);
      }
    }
    return Some(|s|);
  }

  /** The beginning of the part at the end that is all valid; None is the same panic. */
  method MatchValidCharsFromEnd(s: seq<byte>, validChars: Option<Table>) returns (begin: Option<nat>)
    requires Proper(validChars)
    ensures begin == if validChars.None? && s != [] then None else Some(ValidStart(validChars, s, |s|))
  {
    for i := |s| downto 0
      invariant i < |s| ==> validChars.Some?
      invariant ValidStart(validChars, s, i) == ValidStart(validChars, s, |s|)
    {
      var c := s[i];
      if validChars.None? {
        return None;
      }
      if !validChars.value[c] {
        return Some(i + 1);
      }
    }
    return Some(0);
  }

  method TrimControlCharsAndSpaces(s: seq<byte>) returns (r: seq<byte>)
    ensures r == Trim(s)
  {
    var istart := 0;
    assert s[0..] == s;
    while istart < |s|
      invariant istart <= |s| && TrimStart(s[istart..]) == TrimStart(s)
    {
      if s[istart] > SPACE {
        break;
      }
      assert s[istart..][1..] == s[istart + 1..];
      istart := istart + 1;
    }
    assert TrimStart(s) == s[istart..];
    var iend := |s| - 1;
    assert s[istart..|s|] == s[istart..];
    while iend >= istart
      invariant istart - 1 <= iend < |s| && TrimEnd(s[istart..iend + 1]) == Trim(s)
    {
      if s[iend] > SPACE {
        break;
      }
      var t := s[istart..iend + 1];
      assert t[|t| - 1] == s[iend] && t[..|t| - 1] == s[istart..iend];
      iend := iend - 1;
    }
    return s[istart..iend + 1];
  }

  /** The raw tag in front of the first right boundary. */
  method TagBefore(maxS: seq<byte>, rightBoundary: seq<byte>, validChars: Option<Table>) returns (raw: Option<seq<byte>>)
    requires Proper(validChars) && rightBoundary != []
    ensures raw == RawInFront(maxS, rightBoundary, validChars)
    ensures raw.Some? ==> |raw.value| + |rightBoundary| <= |maxS|
  {
    var iend := Index(maxS, rightBoundary, 0);
    if iend.None? {
      return None;
    }
    var tag := maxS[..iend.value];
    if validChars.Some? {
      var end := MatchValidCharsFromStart(tag, validChars);
      if end != Some(|tag|) {
        return None;
      }
    }
    return Some(tag);
  }

  /** The raw tag after the last left boundary. */
  method TagAfter(maxS: seq<byte>, leftBoundary: seq<byte>, validChars: Option<Table>) returns (raw: Option<seq<byte>>)
    requires Proper(validChars) && leftBoundary != []
    ensures raw == RawInBack(maxS, leftBoundary, validChars)
    ensures raw.Some? ==> |raw.value| + |leftBoundary| <= |maxS|
  {
    var iend := LastIndex(maxS, leftBoundary, |maxS|);
    if iend.None? {
      return None;
    }
    var tag := maxS[iend.value + |leftBoundary|..];
    if validChars.Some? {
      var begin := MatchValidCharsFromEnd(tag, validChars);
      if begin != Some(0) {
        return None;
      }
    }
    return Some(tag);
  }

  /** Without a right boundary the label is what the table allows. */
  method ExtractLabelAtStart(text: seq<byte>, leftBoundary: seq<byte>, rightBoundary: seq<byte>, maxRange: nat,
                             validChars: Option<Table>) returns (outcome: Outcome)
    requires Proper(validChars)
    ensures outcome == ExtractAtStart(text, leftBoundary, rightBoundary, maxRange, validChars)
  {
    if !(leftBoundary <= text) {
      return Extracted([], text);
    }
    var s := text[|leftBoundary|..];
    // no label begins with a byte that the table rules out
    if |s| > 0 && validChars.Some? && !validChars.value[s[0]] {
      return Extracted([], text);
    }
    var maxS := s[..Min(maxRange, |s|)];
    if |rightBoundary| > 0 {
      var raw := TagBefore(maxS, rightBoundary, validChars);
      if raw.None? {
        return Extracted([], text);
      }
      var tag := TrimControlCharsAndSpaces(raw.value);
      return Extracted(tag, s[|raw.value| + |rightBoundary|..]);
    } else {
      var tagEnd := MatchValidCharsFromStart(maxS, validChars);
      if tagEnd.None? {
        return Crash;
      }
      if tagEnd.value == 0 {
        return Extracted([], text);
      }
      var tag := TrimControlCharsAndSpaces(maxS[..tagEnd.value]);
      return Extracted(tag, s[tagEnd.value..]);
    }
  }

  datatype Tail = Tail(raw: seq<byte>) | NoTail | Panic

  /** The raw tag of a text without the right boundary; without a left boundary, what the table allows. */
  method RawTagAtEnd(s: seq<byte>, leftBoundary: seq<byte>, maxRange: nat, validChars: Option<Table>) returns (tail: Tail)
    requires Proper(validChars)
    ensures tail.Panic? <==> LooksUpNothing(s, leftBoundary, maxRange, validChars)
    ensures !tail.Panic? ==>
              RawAtEnd(s, leftBoundary, maxRange, validChars) == if tail.Tail? then Some(tail.raw) else None
    ensures tail.Tail? ==> |tail.raw| + |leftBoundary| <= |s|
  {
    // no label ends with a byte that the table rules out
    if |s| > 0 && validChars.Some? && !validChars.value[s[|s| - 1]] {
      return NoTail;
    }
    var maxS := s[|s| - Min(maxRange, |s|)..];
    if |leftBoundary| > 0 {
      var raw := TagAfter(maxS, leftBoundary, validChars);
      return if raw.Some? then Tail(raw.value) else NoTail;
    } else {
      var tagBeg := MatchValidCharsFromEnd(maxS, validChars);
      if tagBeg.None? {
        return Panic;
      }
      return if tagBeg.value == |maxS| then NoTail else Tail(maxS[tagBeg.value..]);
    }
  }

  /** The same from the other end. */
  method ExtractLabelAtEnd(text: seq<byte>, leftBoundary: seq<byte>, rightBoundary: seq<byte>, maxRange: nat,
                           validChars: Option<Table>) returns (outcome: Outcome)
    requires Proper(validChars)
    ensures outcome == ExtractAtEnd(text, leftBoundary, rightBoundary, maxRange, validChars)
  {
    if !HasSuffix(text, rightBoundary) {
      return Extracted([], text);
    }
    var s := text[..|text| - |rightBoundary|];
    var tail := RawTagAtEnd(s, leftBoundary, maxRange, validChars);
    if tail.Panic? {
      return Crash;
    }
    ExtractAtEndFrom(text, leftBoundary, rightBoundary, maxRange, validChars, s,
                     if tail.Tail? then Some(tail.raw) else None);
    if tail.NoTail? {
      return Extracted([], text);
    }
    var tag := TrimControlCharsAndSpaces(tail.raw);
    return Extracted(tag, s[..|s| - |tail.raw| - |leftBoundary|]);
  }

  datatype Position = FromStart | FromEnd

  datatype StringExtractor =
    StringExtractor(position: Position, leftBound: seq<byte>, rightBound: seq<byte>, maxRange: nat,
                    validChars: Option<Table>)
  {
    /** It can be used on every text if the boundary on the far side or the table is there. */
    predicate Usable() {
      validChars.Some? || (if position.FromStart? then rightBound != [] else leftBound != [])
    }

    /** The boundary on the near side is there, and a byte of the text besides. */
    predicate NearAndMore(text: seq<byte>) {
      if position.FromStart? then leftBound < text else HasSuffix(text, rightBound) && |rightBound| < |text|
    }

    function Outcome(text: seq<byte>): ExtractSpec.Outcome
      requires Proper(validChars)
    {
      if position.FromStart? then ExtractAtStart(text, leftBound, rightBound, maxRange, validChars)
      else ExtractAtEnd(text, leftBound, rightBound, maxRange, validChars)
    }

    /** The text has a label, which leaves the rest. */
    ghost predicate HasLabel(text: seq<byte>, raw: seq<byte>, rest: seq<byte>)
      requires Proper(validChars)
    {
      if position.FromStart? then Labels(text, leftBound, raw, rightBound, rest, maxRange, validChars)
      else LabelsAtEnd(text, rest, leftBound, raw, rightBound, maxRange, validChars)
    }

    /** What extraction does, by the labels of the text. */
    lemma OutcomeByLabels(text: seq<byte>)
      requires Proper(validChars)
      ensures Outcome(text).Crash? <==> !Usable() && maxRange > 0 && NearAndMore(text)
      ensures Outcome(text).Extracted? ==>
                (|Outcome(text).rest| != |text| <==> exists raw, rest :: HasLabel(text, raw, rest))
      ensures Outcome(text).Extracted? && |Outcome(text).rest| != |text| ==>
                exists raw :: HasLabel(text, raw, Outcome(text).rest) && Outcome(text).tag == Trim(raw)
      ensures Outcome(text).Crash? ==> forall raw, rest :: !HasLabel(text, raw, rest)
    {
      if position.FromStart? {
        ExtractsExactlyLabels(text, leftBound, rightBound, maxRange, validChars);
        ShorterIffLabel(text, leftBound, rightBound, maxRange, validChars);
        if !NoLabel(text, leftBound, rightBound, maxRange, validChars) {
          var raw, rest :| Labels(text, leftBound, raw, rightBound, rest, maxRange, validChars);
          assert HasLabel(text, raw, rest);
        }
      } else {
        ExtractsLabelsAtEnd(text, leftBound, rightBound, maxRange, validChars);
        ShorterIffLabelAtEnd(text, leftBound, rightBound, maxRange, validChars);
        if !NoLabelAtEnd(text, leftBound, rightBound, maxRange, validChars) {
          var raw, rest :| LabelsAtEnd(text, rest, leftBound, raw, rightBound, maxRange, validChars);
          assert HasLabel(text, raw, rest);
        }
      }
    }

    /** A text has one label at most. */
    lemma OneLabel(text: seq<byte>, raw: seq<byte>, rest: seq<byte>)
      requires Proper(validChars) && HasLabel(text, raw, rest)
      ensures Outcome(text) == Extracted(Trim(raw), rest)
    {
      if position.FromStart? {
        LabelIsRaw(text, leftBound, raw, rightBound, rest, maxRange, validChars);
      } else {
        LabelAtEndIsRaw(text, rest, leftBound, raw, rightBound, maxRange, validChars);
      }
    }

    method Extract(text: seq<byte>) returns (outcome: ExtractSpec.Outcome)
      requires Proper(validChars)
      ensures outcome == Outcome(text)
    {
      match position
      case FromStart => outcome := ExtractLabelAtStart(text, leftBound, rightBound, maxRange, validChars);
      case FromEnd => outcome := ExtractLabelAtEnd(text, leftBound, rightBound, maxRange, validChars);
    }
  }

  /** The fields of a record that the transform uses. */
  class Transform {
    const extractor: StringExtractor
    var source: seq<byte>
    var dest: seq<byte>

    constructor (extractor: StringExtractor, source: seq<byte>, dest: seq<byte>)
      ensures this.extractor == extractor && this.source == source && this.dest == dest
    {
      this.extractor, this.source, this.dest := extractor, source, dest;
    }

    /** Takes the label out of the source, if it has one; panics for an extractor that cannot be used. */
    method Apply() returns (panicked: bool)
      requires Proper(extractor.validChars)
      modifies this
      ensures panicked <==> !extractor.Usable() && extractor.maxRange > 0 && extractor.NearAndMore(old(source))
      ensures forall raw, rest :: extractor.HasLabel(old(source), raw, rest) ==> source == rest && dest == Trim(raw)
      ensures (forall raw, rest :: !extractor.HasLabel(old(source), raw, rest)) ==> source == old(source) && dest == old(dest)
    {
      extractor.OutcomeByLabels(source);
      forall raw, rest | extractor.HasLabel(source, raw, rest)
        ensures extractor.Outcome(source) == Extracted(Trim(raw), rest)
      {
        extractor.OneLabel(source, raw, rest);
      }
      if |source| == 0 {
        return false;
      }
      var outcome := extractor.Extract(source);
      if outcome.Crash? {
        return true;
      }
      if |outcome.rest| != |source| {
        source := outcome.rest;
        dest := outcome.tag;
      }
      return false;
    }
  }
}
