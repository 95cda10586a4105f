/** Interpolations of formatted strings: where they end, what they decode to, and where each character came from. */
module Interpolations {
  import opened Utf8
  import opened Wrappers

  /** In code, or in a nested String literal written with plain or with escaped quotes, after a backslash or not. */
  datatype Mode = Code | Plain(after: bool) | Escaped(after: bool)

  const WORD: nat := 0x1_0000_0000
  const QUOTE := '\"'
  const SLASH := '\\'

  /** Whether two characters of source are read as one. */
  predicate Merges(text: string, i: nat, mode: Mode) {
    i + 1 < |text| && text[i] == SLASH
    && ((text[i + 1] == QUOTE && !mode.Plain?) || (text[i + 1] == SLASH && mode.Escaped?))
  }

  function Width(text: string, i: nat, mode: Mode): nat {
    if Merges(text, i, mode) then 2 else 1
  }

  function Read(text: string, i: nat, mode: Mode): char
    requires i < |text|
  {
    if Merges(text, i, mode) then text[i + 1] else text[i]
  }

  /** The mode after a character. */
  function Next(mode: Mode, c: char, merged: bool): Mode {
    match mode
    case Code => if c == QUOTE then (if merged then Escaped(false) else Plain(false)) else Code
    case Plain(after) =>
      if after then Plain(false) else if c == SLASH then Plain(true) else if c == QUOTE then Code else mode
    case Escaped(after) =>
      if after then Escaped(false) else if c == SLASH then Escaped(true) else if c == QUOTE then Code else mode
  }

  function Deeper(mode: Mode, c: char, depth: nat): nat {
    if mode != Code then depth else if c == '{' then depth + 1 else if c == '}' && depth > 0 then depth - 1 else depth
  }

  /** The rest of an interpolation: its characters, and where each one's spelling begins, up to the closing brace. */
  datatype Found = Found(expression: string, starts: seq<nat>)

  ghost function Scan(text: string, i: nat, mode: Mode, depth: nat): Option<Found>
    decreases |text| - i
  {
    if i >= |text| then None
    else
      var c := Read(text, i, mode);
      if mode == Code && c == '}' && depth == 0 then Some(Found([], [i]))
      else if mode == Code && (c == '\n' || c == '\r') then None
      else
        var rest := Scan(text, i + Width(text, i, mode), Next(mode, c, Merges(text, i, mode)), Deeper(mode, c, depth));
        if rest.None? then None else Some(Found([c] + rest.value.expression, [i] + rest.value.starts))
  }

  /** Character `k` is spelled at `starts[k]`: as itself, or as an escaped quote or backslash. */
  ghost predicate SpelledAt(text: string, found: Found, k: nat)
    requires k < |found.expression| && |found.starts| == |found.expression| + 1
  {
    var from, next := found.starts[k], found.starts[k + 1];
    && from < next <= |text|
    && ((next == from + 1 && text[from] == found.expression[k])
        || (next == from + 2 && text[from] == SLASH && text[from + 1] == found.expression[k]
            && (found.expression[k] == QUOTE || found.expression[k] == SLASH)))
  }

  ghost predicate Spells(text: string, i: nat, found: Found) {
    && |found.starts| == |found.expression| + 1 && found.starts[0] == i
    && (forall k {:trigger found.starts[k]} :: 0 <= k < |found.starts| ==> found.starts[k] < |text|)
    && (forall k {:trigger SpelledAt(text, found, k)} :: 0 <= k < |found.expression| ==> SpelledAt(text, found, k))
    && text[found.starts[|found.expression|]] == '}'
  }

  /** What is found spells the source between the opening and the closing brace. */
  lemma {:induction false} ScanSpells(text: string, i: nat, mode: Mode, depth: nat)
    ensures Scan(text, i, mode, depth).Some? ==> Spells(text, i, Scan(text, i, mode, depth).value)
    decreases |text| - i
  {
    hide Merges, Next, Deeper, Scan, SpelledAt;
    var found := Scan(text, i, mode, depth);
    ScanStep(text, i, mode, depth);
    if found.Some? && found.value.expression != [] {
      var c, width := Read(text, i, mode), Width(text, i, mode);
      var next, deeper := Next(mode, c, Merges(text, i, mode)), Deeper(mode, c, depth);
      ScanSpells(text, i + width, next, deeper);
      var rest := Scan(text, i + width, next, deeper).value;
      forall k | 0 <= k < |found.value.expression| ensures SpelledAt(text, found.value, k) {
        if k == 0 {
          FirstSpelled(text, i, mode, found.value);
        } else {
          LaterSpelled(text, found.value, rest, k);
        }
      }
    }
  }

  lemma ScanStep(text: string, i: nat, mode: Mode, depth: nat)
    ensures var found := Scan(text, i, mode, depth); found.Some? ==>
      i < |text| && |found.value.starts| == |found.value.expression| + 1
      && if found.value.expression == [] then found.value.starts == [i] && text[i] == '}'
         else
           var c, width := Read(text, i, mode), Width(text, i, mode);
           var rest := Scan(text, i + width, Next(mode, c, Merges(text, i, mode)), Deeper(mode, c, depth));
           rest.Some? && found.value.expression == [c] + rest.value.expression
             && found.value.starts == [i] + rest.value.starts
           && |rest.value.starts| == |rest.value.expression| + 1
    decreases |text| - i
  {
    if i < |text| {
      hide Next, Deeper;
      var c := Read(text, i, mode);
      ScanStep(text, i + Width(text, i, mode), Next(mode, c, Merges(text, i, mode)), Deeper(mode, c, depth));
    }
  }

  lemma FirstSpelled(text: string, i: nat, mode: Mode, found: Found)
    requires i < |text| && |found.starts| == |found.expression| + 1 > 1
    requires found.expression[0] == Read(text, i, mode) && found.starts[0] == i
    requires found.starts[1] == i + Width(text, i, mode)
    ensures SpelledAt(text, found, 0)
  {}

  lemma LaterSpelled(text: string, found: Found, rest: Found, k: nat)
    requires |rest.starts| == |rest.expression| + 1 && |found.starts| == |found.expression| + 1
    requires found.expression != [] && found.expression[1..] == rest.expression && found.starts[1..] == rest.starts
    requires 0 < k < |found.expression| && SpelledAt(text, rest, k - 1)
    ensures SpelledAt(text, found, k)
  {
    assert found.expression[k] == rest.expression[k - 1];
    assert found.starts[k] == rest.starts[k - 1] && found.starts[k + 1] == rest.starts[k];
  }

  // ---- The position map ----

  function SatAdd(left: nat, right: nat): nat {
    if left + right < WORD then left + right else WORD - 1
  }

  function Before(merged: seq<nat>, position: nat): nat {
    if merged == [] then 0
    else Before(merged[..|merged| - 1], position) + (if merged[|merged| - 1] < position then 1 else 0)
  }

  /** Where a position in a decoded interpolation lies in the source. */
  function Position(merged: seq<nat>, offset: nat, position: nat): nat {
    SatAdd(SatAdd(position, Before(merged, position)), offset)
  }

  /** The positions of the characters decoded from two bytes, among the first `count`. */
  ghost function MergedOf(found: Found, count: nat): seq<nat>
    requires count <= |found.expression| && |found.starts| == |found.expression| + 1
  {
    if count == 0 then [] else MergedOf(found, count - 1) + MergedAt(found, count - 1)
  }

  ghost function MergedAt(found: Found, k: nat): seq<nat>
    requires k < |found.expression| && |found.starts| == |found.expression| + 1
  {
    if found.starts[k + 1] == found.starts[k] + 2 then [ByteLen(found.expression[..k])] else []
  }

  lemma PrefixLen(text: string, from: nat, end: nat)
    requires from <= end <= |text|
    ensures ByteLen(text[..end]) == ByteLen(text[..from]) + ByteLen(text[from..end])
  {
    assert text[..end] == text[..from] + text[from..end];
    ByteLenJoins(text[..from], text[from..end]);
  }

  /** One more character of source and of the expression. */
  lemma StepLens(text: string, found: Found, k: nat)
    requires |found.starts| == |found.expression| + 1 && k < |found.expression| && SpelledAt(text, found, k)
    ensures ByteLen(found.expression[..k + 1]) == ByteLen(found.expression[..k]) + CharLen(found.expression[k])
    ensures ByteLen(text[..found.starts[k + 1]]) == ByteLen(text[..found.starts[k]]) + CharLen(found.expression[k])
      + (if found.starts[k + 1] == found.starts[k] + 2 then 1 else 0)
  {
    var e := found.expression;
    assert e[..k + 1][..k] == e[..k];
    var from, next := found.starts[k], found.starts[k + 1];
    PrefixLen(text, from, next);
    if next == from + 1 {
      assert text[from..next] == [e[k]];
      assert ByteLen([e[k]]) == ByteLen([e[k]][..0]) + CharLen(e[k]);
    } else {
      assert text[from..next] == [SLASH, e[k]];
      assert [SLASH, e[k]][..1] == [SLASH];
      assert ByteLen([SLASH]) == ByteLen([SLASH][..0]) + 1;
    }
  }

  /** Counting the merged characters before a position at or behind all of them counts them all. */
  lemma {:induction false} AllBefore(merged: seq<nat>, position: nat)
    requires forall i :: 0 <= i < |merged| ==> merged[i] < position
    ensures Before(merged, position) == |merged|
  {
    if merged != [] {
      AllBefore(merged[..|merged| - 1], position);
    }
  }

  /** Merged characters at or behind a position do not count. */
  lemma {:induction false} NoneBefore(merged: seq<nat>, more: seq<nat>, position: nat)
    requires forall i :: 0 <= i < |more| ==> position <= more[i]
    ensures Before(merged + more, position) == Before(merged, position)
    decreases |more|
  {
    if more == [] {
      assert merged + more == merged;
    } else {
      NoneBefore(merged, more[..|more| - 1], position);
      assert (merged + more)[..|merged + more| - 1] == merged + more[..|more| - 1];
    }
  }

  /** The source before character `k` has the bytes of the expression and one more for each merged character. */
  lemma {:induction false} SourceLength(text: string, i: nat, found: Found, k: nat)
    requires Spells(text, i, found) && k <= |found.expression|
    ensures ByteLen(text[..found.starts[k]])
        == ByteLen(text[..i]) + ByteLen(found.expression[..k]) + |MergedOf(found, k)|
    ensures forall j :: 0 <= j < |MergedOf(found, k)| ==> MergedOf(found, k)[j] < ByteLen(found.expression[..k])
  {
    hide SpelledAt, ByteLen;
    if k > 0 {
      assert SpelledAt(text, found, k - 1);
      SourceLength(text, i, found, k - 1);
      StepLens(text, found, k - 1);
    } else {
      assert ByteLen(found.expression[..0]) == 0 by { NothingLong(found.expression[..0]); }
    }
  }

  lemma NothingLong(text: string)
    requires text == []
    ensures ByteLen(text) == 0
  {}

  lemma {:induction false} MergedSplits(text: string, i: nat, found: Found, k: nat, count: nat)
    requires Spells(text, i, found) && k <= count <= |found.expression|
    ensures |MergedOf(found, k)| <= |MergedOf(found, count)|
    ensures MergedOf(found, count)[..|MergedOf(found, k)|] == MergedOf(found, k)
    ensures forall j :: |MergedOf(found, k)| <= j < |MergedOf(found, count)| ==>
      ByteLen(found.expression[..k]) <= MergedOf(found, count)[j]
    decreases count
  {
    hide ByteLen, SpelledAt;
    if k < count {
      MergedSplits(text, i, found, k, count - 1);
      PrefixLen(found.expression, k, count - 1);
    }
  }

  /** The position map is exact: the position of every character of the expression, and of its end, goes to the byte
      of the source where that character's spelling begins, or to the closing brace. */
  lemma PositionsAreExact(text: string, i: nat, found: Found, k: nat)
    requires Spells(text, i, found) && k <= |found.expression| && ByteLen(text) < WORD
    ensures Position(MergedOf(found, |found.expression|), ByteLen(text[..i]), ByteLen(found.expression[..k])) ==
      ByteLen(text[..found.starts[k]])
  {
    hide ByteLen, Before;
    var position, all, some := ByteLen(found.expression[..k]), MergedOf(found, |found.expression|), MergedOf(found, k);
    SourceLength(text, i, found, k);
    MergedSplits(text, i, found, k, |found.expression|);
    AllBefore(some, position);
    NoneBefore(some, all[|some|..], position);
    assert all == some + all[|some|..];
    PrefixLen(text, found.starts[k], |text|);
    assert text[..|text|] == text;
  }

  /** Positions inside a character of several bytes go to the same byte of its spelling. */
  lemma InsideCharacters(text: string, i: nat, found: Found, k: nat, byte: nat)
    requires Spells(text, i, found) && k < |found.expression| && 0 < byte < CharLen(found.expression[k])
    requires ByteLen(text) < WORD
    ensures Position(MergedOf(found, |found.expression|), ByteLen(text[..i]), ByteLen(found.expression[..k]) + byte) ==
      ByteLen(text[..found.starts[k]]) + byte
  {
    hide ByteLen, Before;
    var position, all, some :=
      ByteLen(found.expression[..k]) + byte, MergedOf(found, |found.expression|), MergedOf(found, k + 1);
    assert SpelledAt(text, found, k);
    StepLens(text, found, k);
    SourceLength(text, i, found, k);
    SourceLength(text, i, found, k + 1);
    MergedSplits(text, i, found, k + 1, |found.expression|);
    assert some == MergedOf(found, k);
    AllBefore(some, position);
    NoneBefore(some, all[|some|..], position);
    assert all == some + all[|some|..];
    PrefixLen(text, found.starts[k + 1], |text|);
    assert text[..|text|] == text;
  }

  lemma SomeBytes(c: char)
    ensures CharLen(c) > 0
  {}

  /** Later characters of the expression come from later bytes of the source. */
  lemma PositionsIncrease(text: string, i: nat, found: Found, k: nat)
    requires Spells(text, i, found) && k < |found.expression| && ByteLen(text) < WORD
    ensures var merged := MergedOf(found, |found.expression|);
      Position(merged, ByteLen(text[..i]), ByteLen(found.expression[..k]))
        < Position(merged, ByteLen(text[..i]), ByteLen(found.expression[..k + 1]))
  {
    assert SpelledAt(text, found, k);
    StepLens(text, found, k);
    hide *;
    SomeBytes(found.expression[k]);
    PositionsAreExact(text, i, found, k);
    PositionsAreExact(text, i, found, k + 1);
  }

  // ---- The scanner ----

  ghost function Prepended(expression: string, starts: seq<nat>, rest: Option<Found>): Option<Found> {
    if rest.None? then None else Some(Found(expression + rest.value.expression, starts + rest.value.starts))
  }

  /** One more character is read. */
  lemma ReadOne(text: string, i: nat, mode: Mode, depth: nat, expression: string, starts: seq<nat>)
    requires i < |text|
    requires var c := Read(text, i, mode);
      !(mode == Code && (c == '\n' || c == '\r' || (c == '}' && depth == 0)))
    ensures var c := Read(text, i, mode);
      Prepended(expression, starts, Scan(text, i, mode, depth)) ==
        Prepended(expression + [c], starts + [i],
          Scan(text, i + Width(text, i, mode), Next(mode, c, Merges(text, i, mode)), Deeper(mode, c, depth)))
  {
    hide Read, Next, Deeper, Merges;
    var c := Read(text, i, mode);
    var rest := Scan(text, i + Width(text, i, mode), Next(mode, c, Merges(text, i, mode)), Deeper(mode, c, depth));
    if rest.Some? {
      assert expression + ([c] + rest.value.expression) == expression + [c] + rest.value.expression;
      assert starts + ([i] + rest.value.starts) == starts + [i] + rest.value.starts;
    }
  }

  /** The merged positions of a growing expression. */
  lemma {:induction false} MergedSame(one: Found, other: Found, count: nat)
    requires |one.starts| == |one.expression| + 1 && |other.starts| == |other.expression| + 1
    requires count <= |one.expression| && count <= |other.expression|
    requires one.expression[..count] == other.expression[..count]
    requires one.starts[..count + 1] == other.starts[..count + 1]
    ensures MergedOf(one, count) == MergedOf(other, count)
  {
    if count > 0 {
      assert one.expression[..count - 1] == one.expression[..count][..count - 1];
      assert other.expression[..count - 1] == other.expression[..count][..count - 1];
      assert one.starts[..count] == one.starts[..count + 1][..count]
        && other.starts[..count] == other.starts[..count + 1][..count];
      assert one.starts[count - 1] == one.starts[..count + 1][count - 1]
        && one.starts[count] == one.starts[..count + 1][count];
      assert other.starts[count - 1] == other.starts[..count + 1][count - 1]
        && other.starts[count] == other.starts[..count + 1][count];
      MergedSame(one, other, count - 1);
    }
  }

  lemma MergedGrows(expression: string, starts: seq<nat>, i: nat, c: char, width: nat)
    requires |starts| == |expression|
    ensures MergedOf(Found(expression + [c], starts + [i, i + width]), |expression| + 1) ==
      MergedOf(Found(expression, starts + [i]), |expression|) + (if width == 2 then [ByteLen(expression)] else [])
  {
    var longer := Found(expression + [c], starts + [i, i + width]);
    assert longer.starts[..|expression| + 1] == (starts + [i])[..|expression| + 1];
    assert longer.expression[..|expression|] == expression == expression[..|expression|];
    MergedSame(longer, Found(expression, starts + [i]), |expression|);
  }

  /** The bytes of one more spelling. */
  lemma WidthBytes(text: string, i: nat, mode: Mode, expression: string)
    requires i < |text|
    ensures var c, end := Read(text, i, mode), i + Width(text, i, mode);
      && end <= |text| && ByteLen(expression + [c]) == ByteLen(expression) + CharLen(c)
      && ByteLen(text[..end]) == ByteLen(text[..i]) + (if Merges(text, i, mode) then 2 else CharLen(c))
      && (Merges(text, i, mode) ==> CharLen(c) == 1)
  {
    var c, end := Read(text, i, mode), i + Width(text, i, mode);
    assert (expression + [c])[..|expression|] == expression;
    assert text[..i + 1][..i] == text[..i];
    if Merges(text, i, mode) {
      assert text[..i + 2][..i + 1] == text[..i + 1];
    }
  }

  /** Finds the closing brace of the interpolation that begins at character `from`. */
  method EscapedExpressionEnd(text: string, from: nat) returns (r: Option<(nat, string, seq<nat>)>)
    requires from <= |text| && ByteLen(text) < WORD
    ensures r.None? <==> Scan(text, from, Code, 0).None?
    ensures r.Some? ==> Answers(text, from, r.value)
  {
    hide *;
    var i, depth: nat, mode := from, 0, Code;
    var index, _ := Utf8.TextSize(text[..from]);
    var expression, length: nat, merged := "", 0, [];
    ghost var starts: seq<nat> := [];
    Begin(text, from);
    while i < |text|
      invariant from <= i <= |text| && |starts| == |expression|
      invariant Scan(text, from, Code, 0) == Prepended(expression, starts, Scan(text, i, mode, depth))
      invariant merged == MergedOf(Found(expression, starts + [i]), |expression|)
      invariant length == ByteLen(expression) <= index == ByteLen(text[..i])
      decreases |text| - i
    {
      var merges := Merges(text, i, mode);
      var c, width := Read(text, i, mode), Width(text, i, mode);
      if mode == Code && c == '}' && depth == 0 {
        Ends(text, i, mode, depth, expression, starts, from);
        return Some((index, expression, merged));
      }
      if mode == Code && (c == '\n' || c == '\r') {
        Broken(text, i, depth, expression, starts);
        return None;
      }
      ReadOne(text, i, mode, depth, expression, starts);
      MergedGrows(expression, starts, i, c, width);
      WidthBytes(text, i, mode, expression);
      WidthIs(text, i, mode);
      PrefixLen(text, i, |text|);
      assert text[..|text|] == text;
      assert starts + [i] + [i + width] == starts + [i, i + width];
      if merges {
        merged := merged + [if length < WORD then length else WORD - 1];
      }
      expression := expression + [c];
      length := length + CharLen(c);
      index := index + (if merges then 2 else CharLen(c));
      depth := Deeper(mode, c, depth);
      mode := Next(mode, c, merges);
      starts := starts + [i];
      i := i + width;
    }
    Nowhere(text, i, mode, depth, expression, starts);
    r := None;
  }

  /** The end of an interpolation in bytes, its expression, and the merged positions. */
  ghost predicate Answers(text: string, from: nat, answer: (nat, string, seq<nat>)) {
    var scan := Scan(text, from, Code, 0);
    scan.Some? && Spells(text, from, scan.value) && answer.1 == scan.value.expression
    && answer.0 == ByteLen(text[..scan.value.starts[|scan.value.expression|]])
    && answer.2 == MergedOf(scan.value, |scan.value.expression|)
  }

  lemma Begin(text: string, from: nat)
    ensures Scan(text, from, Code, 0) == Prepended("", [], Scan(text, from, Code, 0))
    ensures MergedOf(Found("", [] + [from]), 0) == [] && ByteLen("") == 0
  {
    var found := Scan(text, from, Code, 0);
    if found.Some? {
      assert "" + found.value.expression == found.value.expression;
      assert [] + found.value.starts == found.value.starts;
    }
  }

  lemma WidthIs(text: string, i: nat, mode: Mode)
    ensures Width(text, i, mode) == if Merges(text, i, mode) then 2 else 1
  {}

  lemma Ends(text: string, i: nat, mode: Mode, depth: nat, expression: string, starts: seq<nat>, from: nat)
    requires i < |text| && mode == Code && Read(text, i, mode) == '}' && depth == 0 && |starts| == |expression|
    requires Scan(text, from, Code, 0) == Prepended(expression, starts, Scan(text, i, mode, depth))
    ensures Scan(text, from, Code, 0).Some?
    ensures Answers(text, from,
        (ByteLen(text[..i]), expression, MergedOf(Found(expression, starts + [i]), |expression|)))
  {
    ScanSpells(text, from, Code, 0);
    hide Spells, MergedOf;
    assert Scan(text, i, mode, depth) == Some(Found([], [i]));
    assert expression + [] == expression;
  }

  lemma Broken(text: string, i: nat, depth: nat, expression: string, starts: seq<nat>)
    requires i < |text| && (Read(text, i, Code) == '\n' || Read(text, i, Code) == '\r')
    ensures Prepended(expression, starts, Scan(text, i, Code, depth)) == None
  {}

  lemma Nowhere(text: string, i: nat, mode: Mode, depth: nat, expression: string, starts: seq<nat>)
    requires i >= |text|
    ensures Prepended(expression, starts, Scan(text, i, mode, depth)) == None
  {}
}
