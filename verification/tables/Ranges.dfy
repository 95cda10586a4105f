/** Properties of characters as ranges of code points. */
module CaseRanges {
  import opened ImageBytes
  import opened Varints
  import opened CaseRuns
  import opened Wrappers

  predicate Inside(property: nat -> bool, code: nat) {
    IsChar(code) && property(code)
  }

  /** The ranges the encoder still writes at `code`, inside a range from `start` or in none. */
  ghost function RangesFrom(property: nat -> bool, code: nat, start: Option<nat>, previous: nat): seq<byte>
    decreases LAST_CODE + 2 - code
  {
    if code > LAST_CODE + 1 then []
    else if Inside(property, code) then
      RangesFrom(property, code + 1, if start.None? then Some(code) else start, previous)
    else if start.Some? then
      RangeOf(start.value, code, previous) + RangesFrom(property, code + 1, None, code)
    else RangesFrom(property, code + 1, None, previous)
  }

  ghost function RangeOf(first: nat, end: nat, previous: nat): seq<byte> {
    VarintOf(if previous <= first then first - previous else 0) + VarintOf(if first <= end then end - first else 0)
  }

  /** The end of a range: a start plus a length, at most the largest word. */
  function RangeEnd(start: nat, length: nat): nat {
    if length >= WORD || start + length >= WORD then WORD - 1 else start + length
  }

  /** Whether a range holds the code: the decoder's walk. */
  ghost predicate FindRange(bytes: seq<byte>, previous: nat, code: nat)
    decreases |bytes|
  {
    var gap := VarintAt(bytes);
    var length := VarintAt(gap.1);
    if gap.0.None? || length.0.None? || previous + gap.0.value >= WORD then false
    else
      var start := previous + gap.0.value;
      if code < start then false
      else if code < RangeEnd(start, length.0.value) then true
      else FindRange(length.1, RangeEnd(start, length.0.value), code)
  }

  lemma RangeReads(first: nat, end: nat, previous: nat, rest: seq<byte>, code: nat)
    requires previous <= first <= end <= LAST_CODE + 1
    ensures FindRange(RangeOf(first, end, previous) + rest, previous, code) <==>
      first <= code < end || (end <= code && FindRange(rest, end, code))
  {
    hide VarintOf, VarintAt;
    assert RangeOf(first, end, previous) + rest == VarintOf(first - previous) + (VarintOf(end - first) + rest);
    VarintReadsBack(first - previous, VarintOf(end - first) + rest);
    VarintReadsBack(end - first, rest);
  }

  lemma NextRange(property: nat -> bool, code: nat, start: Option<nat>, previous: nat)
    ensures code > LAST_CODE + 1 ==> RangesFrom(property, code, start, previous) == []
    ensures code <= LAST_CODE + 1 ==> (RangesFrom(property, code, start, previous) ==
      if Inside(property, code) then RangesFrom(property, code + 1, if start.None? then Some(code) else start, previous)
      else if start.Some? then RangeOf(start.value, code, previous) + RangesFrom(property, code + 1, None, code)
      else RangesFrom(property, code + 1, None, previous))
  {
    hide RangeOf, Inside;
  }

  lemma NoRanges(previous: nat, code: nat)
    ensures !FindRange([], previous, code)
  {
    assert VarintAt([]).0.None?;
  }

  /** The encoder's ranges hold exactly the characters with the property. */
  lemma {:induction false} FindsRange(property: nat -> bool, from: nat, start: Option<nat>, previous: nat, code: nat)
    requires from <= LAST_CODE + 2 && (from == LAST_CODE + 2 ==> start.None?)
    requires previous <= (if start.Some? then start.value else from) <= from
    ensures FindRange(RangesFrom(property, from, start, previous), previous, code) <==>
      (start.Some? && start.value <= code < from) || (from <= code && Inside(property, code))
    decreases LAST_CODE + 2 - from
  {
    hide *;
    NextRange(property, from, start, previous);
    NoneAfter(property, from);
    if from > LAST_CODE + 1 {
      NoRanges(previous, code);
      NoneAfter(property, code);
    } else if Inside(property, from) {
      FindsRange(property, from + 1, if start.None? then Some(from) else start, previous, code);
    } else if start.Some? {
      RangeReads(start.value, from, previous, RangesFrom(property, from + 1, None, from), code);
      FindsRange(property, from + 1, None, from, code);
    } else {
      FindsRange(property, from + 1, None, previous, code);
    }
  }

  lemma {:induction false} RangesLength(property: nat -> bool, from: nat, start: Option<nat>, previous: nat)
    requires from <= LAST_CODE + 2 && previous <= (if start.Some? then start.value else from) <= from
    ensures |RangesFrom(property, from, start, previous)| <= 20 * (LAST_CODE + 2 - from)
    decreases LAST_CODE + 2 - from
  {
    hide RangesFrom, RangeOf, VarintOf, Inside;
    NextRange(property, from, start, previous);
    if from > LAST_CODE + 1 {
    } else if Inside(property, from) {
      RangesLength(property, from + 1, if start.None? then Some(from) else start, previous);
    } else if start.Some? {
      RangeWritten(start.value, from, previous);
      AtMostTen(start.value - previous);
      AtMostTen(from - start.value);
      RangesLength(property, from + 1, None, from);
    } else {
      RangesLength(property, from + 1, None, previous);
    }
  }

  lemma NoneAfter(property: nat -> bool, code: nat)
    ensures code > LAST_CODE ==> !Inside(property, code)
  {}

  /** Encodes a property: decoding gives it back at every code point. */
  method EncodeRanges(property: nat -> bool) returns (out: seq<byte>)
    ensures forall code :: FindRange(out, 0, code) <==> Inside(property, code)
    ensures |out| <= 20 * (LAST_CODE + 2)
  {
    hide *;
    out := [];
    var previous: nat, code: nat := 0, 0;
    var start: Option<nat> := None;
    while code <= LAST_CODE + 1
      invariant code <= LAST_CODE + 2 && (code == LAST_CODE + 2 ==> start.None?)
      invariant previous <= (if start.Some? then start.value else code) <= code
      invariant out + RangesFrom(property, code, start, previous) == RangesFrom(property, 0, None, 0)
    {
      NextRange(property, code, start, previous);
      NoneAfter(property, code);
      if Inside(property, code) {
        if start.None? {
          start := Some(code);
        }
      } else if start.Some? {
        ghost var before, was := out, previous;
        out := WriteVarint(out, start.value - previous);
        out := WriteVarint(out, code - start.value);
        assert out == before + RangeOf(start.value, code, was) by { RangeWritten(start.value, code, was); }
        previous := code;
        start := None;
      }
      code := code + 1;
    }
    NextRange(property, code, start, previous);
    assert out + [] == out;
    RangesLength(property, 0, None, 0);
    forall other ensures FindRange(out, 0, other) <==> Inside(property, other) {
      FindsRange(property, 0, None, 0, other);
    }
  }

  lemma RangeWritten(first: nat, end: nat, previous: nat)
    requires previous <= first <= end
    ensures RangeOf(first, end, previous) == VarintOf(first - previous) + VarintOf(end - first)
  {}
}
