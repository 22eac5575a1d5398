/** Patterns of the label extractor, and the tables their brackets stand for. */
module ExtractPattern {
  import opened Bytes
  import opened Options
  import opened ExtractSpec
  import opened Unescape
  import opened Extract

  const BACKSLASH: byte := 92
  const OPEN: byte := 91
  const CLOSE: byte := 93
  const STAR: byte := 42
  const HYPHEN: byte := 45
  const CARET: byte := 94

  const PATTERN_UNESCAPER := NewUnescaper(BACKSLASH, map[OPEN := OPEN, CLOSE := CLOSE, STAR := STAR])

  // Splitting

  /** The first occurrence that is in no escape sequence. */
  ghost predicate FirstAt(s: seq<byte>, c: byte, i: nat) {
    i < |s| && s[i] == c && TokenStart(PATTERN_UNESCAPER, s, i) && NoneBefore(s, c, i)
  }

  ghost predicate NoneBefore(s: seq<byte>, c: byte, end: nat)
    requires end <= |s|
  {
    forall k: nat | k < end && TokenStart(PATTERN_UNESCAPER, s, k) :: s[k] != c
  }

  method FindFirst(s: seq<byte>, target: byte) returns (index: Option<nat>)
    requires target == OPEN || target == CLOSE || target == STAR
    ensures index.Some? ==> FirstAt(s, target, index.value)
    ensures index.None? ==> NoneBefore(s, target, |s|)
  {
    var i := FindFirstUnescaped(PATTERN_UNESCAPER, s, target);
    index := if i == -1 then None else Some(i);
  }

  datatype Parts = Parts(left: seq<byte>, wildcard: seq<byte>, right: seq<byte>)

  datatype Split = Split(parts: Parts) | BracketNotClosed | NoWildcard

  /** The pattern is cut at its first bare star; else at its first bare bracket, whose inside stays escaped. */
  ghost predicate SplitsInto(pattern: seq<byte>, r: Split) {
    match r
    case NoWildcard => NoneBefore(pattern, STAR, |pattern|) && NoneBefore(pattern, OPEN, |pattern|)
    case BracketNotClosed =>
      && NoneBefore(pattern, STAR, |pattern|)
      && exists i: nat :: Unclosed(pattern, i)
    case Split(parts) =>
      || (parts.wildcard == [STAR] && StarCuts(pattern, parts))
      || (NoneBefore(pattern, STAR, |pattern|) && BracketCuts(pattern, parts))
  }

  ghost predicate Unclosed(pattern: seq<byte>, i: nat) {
    FirstAt(pattern, OPEN, i) && NoneBefore(pattern[i + 1..], CLOSE, |pattern| - i - 1)
  }

  /** Nothing but escapes is lost: unescaped as a whole, the pattern is left + star + right. */
  ghost predicate StarCuts(pattern: seq<byte>, parts: Parts) {
    && Unescaped(PATTERN_UNESCAPER, pattern) == parts.left + [STAR] + parts.right
    && exists i: nat :: FirstAt(pattern, STAR, i) && parts.left == Unescaped(PATTERN_UNESCAPER, pattern[..i])
  }

  ghost predicate BracketCuts(pattern: seq<byte>, parts: Parts) {
    exists i: nat, j: nat :: BracketAt(pattern, parts, i, j)
  }

  ghost predicate BracketAt(pattern: seq<byte>, parts: Parts, i: nat, j: nat) {
    && FirstAt(pattern, OPEN, i) && FirstAt(pattern[i + 1..], CLOSE, j)
    && parts.left == Unescaped(PATTERN_UNESCAPER, pattern[..i])
    && parts.wildcard == pattern[i..i + 1 + j + 1]
    && parts.right == Unescaped(PATTERN_UNESCAPER, pattern[i + 1 + j + 1..])
  }

  method SplitPattern(pattern: seq<byte>) returns (r: Split)
    ensures SplitsInto(pattern, r)
  {
    var star := FindFirst(pattern, STAR);
    if star.Some? {
      var left := Run(PATTERN_UNESCAPER, pattern[..star.value]);
      var right := Run(PATTERN_UNESCAPER, pattern[star.value + 1..]);
      UnescapedAtTarget(PATTERN_UNESCAPER, pattern, star.value);
      return Split(Parts(left, [STAR], right));
    }
    var bstart := FindFirst(pattern, OPEN);
    if bstart.Some? {
      var left := Run(PATTERN_UNESCAPER, pattern[..bstart.value]);
      var bend := FindFirst(pattern[bstart.value + 1..], CLOSE);
      if bend.None? {
        assert Unclosed(pattern, bstart.value);
        return BracketNotClosed;
      }
      var end := bend.value + bstart.value + 1;
      var bracket := pattern[bstart.value..end + 1]; // its escapes stay for the table
      var right := Run(PATTERN_UNESCAPER, pattern[end + 1..]);
      assert BracketAt(pattern, Parts(left, bracket, right), bstart.value, bend.value);
      return Split(Parts(left, bracket, right));
    }
    return NoWildcard;
  }

  // Tables

  /** A hyphen between two others. */
  predicate Range(expr: seq<byte>, j: nat) {
    0 < j < |expr| - 1 && expr[j] == HYPHEN
  }

  /** The byte is listed by itself or in a range. */
  ghost predicate Listed(expr: seq<byte>, n: nat, b: byte)
    requires n <= |expr|
  {
    exists i :: 0 <= i < n && ListedAt(expr, i, b)
  }

  /** What the byte at `i` adds to the list: itself, nothing for a range's hyphen, or the range it ends. */
  predicate ListedAt(expr: seq<byte>, i: nat, b: byte)
    requires i < |expr|
  {
    if Range(expr, i) then false
    else if i > 0 && Range(expr, i - 1) then expr[i - 2] <= b <= expr[i]
    else expr[i] == b
  }

  /** Go's loop over the range would not end: its byte variable cannot get past 255. */
  predicate Endless(expr: seq<byte>, i: nat)
    requires i < |expr|
  {
    i > 0 && Range(expr, i - 1) && expr[i] == 255
  }

  predicate DoubleHyphen(expr: seq<byte>, i: nat)
    requires i < |expr|
  {
    i > 0 && Range(expr, i - 1) && expr[i] == HYPHEN
  }

  predicate Bad(expr: seq<byte>, i: nat)
    requires i < |expr|
  {
    Endless(expr, i) || DoubleHyphen(expr, i)
  }

  /** The first byte of the expression that the loop does not get over. */
  ghost predicate FirstBad(expr: seq<byte>, i: nat) {
    i < |expr| && Bad(expr, i) && forall k | 0 <= k < i :: !Bad(expr, k)
  }

  /** How the loop ends, or that it does not. */
  ghost predicate FillsAs(expr: seq<byte>, r: Fill) {
    && (r == Filled <==> forall i | 0 <= i < |expr| :: !Bad(expr, i))
    && (forall i: nat :: r == DoubleHyphenAt(i) <==> FirstBad(expr, i) && DoubleHyphen(expr, i))
    && (r == Hangs <==> exists i: nat :: FirstBad(expr, i) && Endless(expr, i))
    && r != EmptyExpression
  }

  lemma BadFound(expr: seq<byte>, i: nat, r: Fill)
    requires FirstBad(expr, i)
    requires r == if Endless(expr, i) then Hangs else DoubleHyphenAt(i)
    ensures FillsAs(expr, r)
  {
  }

  datatype Fill = Filled | EmptyExpression | DoubleHyphenAt(index: nat) | Hangs

  /** The loop, for the expression without brackets and caret. */
  method FillListed(table: array<bool>, expr: seq<byte>, listedValue: bool) returns (r: Fill)
    requires table.Length == 256 && forall b: byte :: table[b] == !listedValue
    modifies table
    ensures r == Filled ==> forall b: byte :: table[b] == (if Listed(expr, |expr|, b) then listedValue else !listedValue)
    ensures FillsAs(expr, r)
  {
    var rangeStarted := false;
    for i := 0 to |expr|
      invariant rangeStarted == (i > 0 && Range(expr, i - 1))
      invariant forall k | 0 <= k < i :: !Bad(expr, k)
      invariant forall b: byte :: table[b] == (if Listed(expr, i, b) then listedValue else !listedValue)
    {
      var c := expr[i];
      ghost var before := table[..];
      if c == HYPHEN {
        if rangeStarted {
          BadFound(expr, i, DoubleHyphenAt(i));
          return DoubleHyphenAt(i);
        }
        if i > 0 && i < |expr| - 1 {
          rangeStarted := true;
        } else {
          table[HYPHEN] := listedValue;
        }
      } else {
        if rangeStarted {
          if c == 255 {
            BadFound(expr, i, Hangs);
            return Hangs;
          }
          FillRange(table, expr[i - 2], c, listedValue);
          rangeStarted := false;
        } else {
          table[c] := listedValue;
        }
      }
      forall b: byte
        ensures table[b] == (if Listed(expr, i + 1, b) then listedValue else !listedValue)
      {
        assert table[b] == if ListedAt(expr, i, b) then listedValue else before[b];
        ListedNext(expr, i, b);
      }
    }
    return Filled;
  }

  lemma ListedNext(expr: seq<byte>, i: nat, b: byte)
    requires i < |expr|
    ensures Listed(expr, i + 1, b) <==> Listed(expr, i, b) || ListedAt(expr, i, b)
  {
  }

  method FillRange(table: array<bool>, first: byte, last: byte, value: bool)
    requires table.Length == 256 && last < 255
    modifies table
    ensures forall b: byte :: table[b] == if first <= b <= last then value else old(table[b])
  {
    var rc: int := first;
    while rc <= last
      invariant first <= rc && (rc > first ==> rc <= last + 1)
      invariant forall b: byte :: table[b] == if first <= b < rc then value else old(table[b])
    {
      table[rc] := value;
      rc := rc + 1;
    }
  }

  /** The expression between the brackets, and whether a caret negates it. */
  function Inside(expression: seq<byte>): seq<byte>
    requires |expression| >= 2
  {
    Unescaped(PATTERN_UNESCAPER, expression[1..|expression| - 1])
  }

  function WithoutCaret(inside: seq<byte>): seq<byte> {
    if inside != [] && inside[0] == CARET then inside[1..] else inside
  }

  /** The outcome for a bracket expression and the table after it. */
  ghost predicate BracketFills(expression: seq<byte>, r: Fill, table: Table)
    requires |expression| >= 2 && |table| == 256
  {
    var inside := Inside(expression);
    var expr := WithoutCaret(inside);
    && (r == EmptyExpression <==> inside == [])
    && (inside != [] ==> FillsAs(expr, r))
    && (r == Filled && inside != [] ==>
          forall b: byte :: table[b] == (Listed(expr, |expr|, b) != (inside[0] == CARET)))
  }

  /** [a-\xff], for which the loop does not end. */
  lemma HangsOnLastByte(table: Table, r: Fill)
    requires |table| == 256 && BracketFills([OPEN, 97, HYPHEN, 255, CLOSE], r, table)
    ensures r == Hangs
  {
    var inside: seq<byte> := [97, HYPHEN, 255];
    assert [OPEN, 97, HYPHEN, 255, CLOSE][1..4] == inside;
    UnescapedUnchanged(PATTERN_UNESCAPER, inside);
    assert FirstBad(inside, 2) && Endless(inside, 2);
  }

  /** Fills the table by a bracket expression such as [a-z0-9-] or [^ ]. */
  method FillValidChars(table: array<bool>, expression: seq<byte>) returns (r: Fill)
    requires table.Length == 256 && |expression| >= 2
    modifies table
    ensures BracketFills(expression, r, table[..])
  {
    var expr := Run(PATTERN_UNESCAPER, expression[1..|expression| - 1]);
    if |expr| == 0 {
      return EmptyExpression;
    }
    var listedValue;
    if expr[0] == CARET {
      forall i | 0 <= i < 256 {
        table[i] := true;
      }
      listedValue := false;
      expr := expr[1..];
    } else {
      forall i | 0 <= i < 256 {
        table[i] := false;
      }
      listedValue := true;
    }
    r := FillListed(table, expr, listedValue);
  }

  // Making an extractor

  datatype Made = Made(extractor: StringExtractor) | BadPattern(split: Split) | BadWildcard | BadExpression(fill: Fill)

  /** The pattern is cut at a bare star that has nothing on the far side. */
  ghost predicate StarAtFarEnd(position: Position, pattern: seq<byte>) {
    exists i: nat :: FirstAt(pattern, STAR, i) && if position.FromStart? then i + 1 == |pattern| else i == 0
  }

  /** What comes of a pattern that is cut into these parts. */
  ghost predicate MadeOf(position: Position, parts: Parts, maxRange: nat, r: Made) {
    if parts.wildcard == [STAR] then r == Made(StringExtractor(position, parts.left, parts.right, maxRange, None))
    else
      && |parts.wildcard| >= 2
      && match r
         case Made(ex) =>
           && ex.validChars.Some? && Proper(ex.validChars) && BracketFills(parts.wildcard, Filled, ex.validChars.value)
           && ex == StringExtractor(position, parts.left, parts.right, maxRange, ex.validChars)
         case BadExpression(fill) => fill != Filled && exists t: Table :: |t| == 256 && BracketFills(parts.wildcard, fill, t)
         case _ => false
  }

  /** newStringExtractorSimple: the wildcard is a star or in brackets whenever the pattern could be split. */
  method NewStringExtractorSimple(position: Position, pattern: seq<byte>, maxRange: nat) returns (r: Made)
    ensures r.BadPattern? ==> !r.split.Split? && SplitsInto(pattern, r.split)
    ensures !r.BadPattern? ==> exists parts :: SplitsInto(pattern, Split(parts)) && MadeOf(position, parts, maxRange, r)
    ensures r.Made? ==> (r.extractor.Usable() <==> !StarAtFarEnd(position, pattern))
  {
    var split := SplitPattern(pattern);
    if !split.Split? {
      return BadPattern(split);
    }
    var parts := split.parts;
    BracketsAreBrackets(pattern, parts);
    if parts.wildcard == [STAR] {
      r := Made(StringExtractor(position, parts.left, parts.right, maxRange, None));
      assert MadeOf(position, parts, maxRange, r);
      UsableIff(position, pattern, parts, maxRange);
      return r;
    }
    BracketHasNoStar(position, pattern, parts);
    if |parts.wildcard| < 2 || parts.wildcard[0] != OPEN || parts.wildcard[|parts.wildcard| - 1] != CLOSE {
      return BadWildcard;
    }
    var table := new bool[256];
    var fill := FillValidChars(table, parts.wildcard);
    if fill != Filled {
      r := BadExpression(fill);
    } else {
      r := Made(StringExtractor(position, parts.left, parts.right, maxRange, Some(table[..])));
    }
    assert |table[..]| == 256 && MadeOf(position, parts, maxRange, r);
  }

  lemma BracketsAreBrackets(pattern: seq<byte>, parts: Parts)
    ensures BracketCuts(pattern, parts) ==>
              |parts.wildcard| >= 2 && parts.wildcard[0] == OPEN && parts.wildcard[|parts.wildcard| - 1] == CLOSE
  {
  }

  /** A pattern cut at a bracket has no bare star. */
  lemma BracketHasNoStar(position: Position, pattern: seq<byte>, parts: Parts)
    requires SplitsInto(pattern, Split(parts)) && parts.wildcard != [STAR]
    ensures !StarAtFarEnd(position, pattern)
  {
  }

  lemma FirstUnique(s: seq<byte>, c: byte, i: nat, j: nat)
    requires FirstAt(s, c, i) && FirstAt(s, c, j)
    ensures i == j
  {
  }

  /** Unescaped, a part of the pattern is empty only if there is nothing of it. */
  lemma UsableIff(position: Position, pattern: seq<byte>, parts: Parts, maxRange: nat)
    requires parts.wildcard == [STAR] && SplitsInto(pattern, Split(parts))
    ensures StringExtractor(position, parts.left, parts.right, maxRange, None).Usable() <==> !StarAtFarEnd(position, pattern)
  {
    BracketsAreBrackets(pattern, parts);
    var i: nat :| FirstAt(pattern, STAR, i) && parts.left == Unescaped(PATTERN_UNESCAPER, pattern[..i]);
    UnescapedAtTarget(PATTERN_UNESCAPER, pattern, i);
    assert parts.right == Unescaped(PATTERN_UNESCAPER, pattern[i + 1..]) by {
      var whole := Unescaped(PATTERN_UNESCAPER, pattern);
      assert whole[|parts.left| + 1..] == parts.right;
    }
    UnescapedShrinks(PATTERN_UNESCAPER, pattern[..i]);
    UnescapedShrinks(PATTERN_UNESCAPER, pattern[i + 1..]);
    forall j: nat | FirstAt(pattern, STAR, j) ensures j == i {
      FirstUnique(pattern, STAR, i, j);
    }
  }

  /** "F*" for the head of a text, and the text "FB": the pattern is accepted, the text makes the agent panic. */
  lemma OpenEndedPanics(r: Made)
    requires MadeOf(FromStart, Parts([70], [STAR], []), 10, r)
    ensures StarAtFarEnd(FromStart, [70, STAR]) && SplitsInto([70, STAR], Split(Parts([70], [STAR], [])))
    ensures r.Made? && r.extractor.Outcome([70, 66]) == Crash
  {
    var pattern: seq<byte> := [70, STAR];
    assert TokenStart(PATTERN_UNESCAPER, pattern, 1) by {
      assert pattern[1..] == [STAR];
    }
    assert FirstAt(pattern, STAR, 1);
    assert pattern[..1] == [70] && pattern[2..] == [];
    UnescapedUnchanged(PATTERN_UNESCAPER, [70]);
    UnescapedAtTarget(PATTERN_UNESCAPER, pattern, 1);
    r.extractor.OutcomeByLabels([70, 66]);
  }
}
