/** Every spelling of an expression inside a formatted string is read as that expression. */
module InterpolationSpellings {
  import opened Interpolations
  import opened Wrappers

  /** A character of a String literal, or a backslash and the character it escapes. */
  datatype Unit = One(c: char) | Pair(c: char)

  /** A character of code, or a String literal written with plain or with escaped quotes. */
  datatype Piece = Bare(c: char) | Literal(units: seq<Unit>, escaped: bool)

  predicate ValidUnit(u: Unit) {
    u.One? ==> u.c != QUOTE && u.c != SLASH
  }

  ghost predicate ValidUnits(units: seq<Unit>) {
    forall k :: 0 <= k < |units| ==> ValidUnit(units[k])
  }

  /** Code has no stray quotes, backslashes or line ends, and its braces close what they open. */
  ghost predicate ValidPieces(pieces: seq<Piece>, depth: nat) {
    if pieces == [] then depth == 0
    else
      match pieces[0]
      case Literal(units, _) => ValidUnits(units) && ValidPieces(pieces[1..], depth)
      case Bare(c) =>
        && c != QUOTE && c != SLASH && c != '\n' && c != '\r' && (c == '}' ==> depth > 0)
        && ValidPieces(pieces[1..], Deeper(Code, c, depth))
  }

  // ---- What the pieces say, and how they are spelled ----

  ghost function UnitText(u: Unit): string {
    if u.One? then [u.c] else [SLASH, u.c]
  }

  ghost function UnitsText(units: seq<Unit>): string {
    if units == [] then [] else UnitText(units[0]) + UnitsText(units[1..])
  }

  ghost function PieceText(piece: Piece): string {
    match piece
    case Bare(c) => [c]
    case Literal(units, _) => [QUOTE] + UnitsText(units) + [QUOTE]
  }

  ghost function Expression(pieces: seq<Piece>): string {
    if pieces == [] then [] else PieceText(pieces[0]) + Expression(pieces[1..])
  }

  /** A character behind an escaped backslash: quotes and backslashes are escaped again. */
  ghost function EscapedChar(c: char): string {
    if c == QUOTE || c == SLASH then [SLASH, c] else [c]
  }

  ghost function UnitSpelling(u: Unit, escaped: bool): string {
    if !escaped || u.One? then UnitText(u) else [SLASH, SLASH] + EscapedChar(u.c)
  }

  ghost function UnitsSpelling(units: seq<Unit>, escaped: bool): string {
    if units == [] then [] else UnitSpelling(units[0], escaped) + UnitsSpelling(units[1..], escaped)
  }

  ghost function QuoteSpelling(escaped: bool): string {
    if escaped then [SLASH, QUOTE] else [QUOTE]
  }

  ghost function PieceSpelling(piece: Piece): string {
    match piece
    case Bare(c) => [c]
    case Literal(units, escaped) => QuoteSpelling(escaped) + UnitsSpelling(units, escaped) + QuoteSpelling(escaped)
  }

  ghost function Spelling(pieces: seq<Piece>): string {
    if pieces == [] then [] else PieceSpelling(pieces[0]) + Spelling(pieces[1..])
  }

  // ---- Scanning the spellings ----

  ghost predicate Here(text: string, i: nat, part: string) {
    i + |part| <= |text| && text[i..i + |part|] == part
  }

  lemma HereSplits(text: string, i: nat, left: string, right: string)
    requires Here(text, i, left + right)
    ensures Here(text, i, left) && Here(text, i + |left|, right)
  {
    assert text[i..i + |left|] == (left + right)[..|left|];
    assert text[i + |left|..i + |left| + |right|] == (left + right)[|left|..];
  }

  /** The expression of an interpolation and its end. */
  ghost function Outcome(text: string, i: nat, mode: Mode, depth: nat): Option<(string, nat)> {
    var found := Scan(text, i, mode, depth);
    if found.Some? && |found.value.starts| > 0 then
      Some((found.value.expression, found.value.starts[|found.value.starts| - 1]))
    else None
  }

  ghost function Behind(read: string, rest: Option<(string, nat)>): Option<(string, nat)> {
    if rest.None? then None else Some((read + rest.value.0, rest.value.1))
  }

  lemma BehindBoth(first: string, second: string, rest: Option<(string, nat)>)
    ensures Behind(first, Behind(second, rest)) == Behind(first + second, rest)
  {
    if rest.Some? {
      assert first + (second + rest.value.0) == first + second + rest.value.0;
    }
  }

  /** One character is read, from one or two of source. */
  lemma Reads(text: string, i: nat, mode: Mode, depth: nat, c: char, merged: bool)
    requires Here(text, i, if merged then [SLASH, c] else [c])
    requires Merges(text, i, mode) == merged
    requires mode == Code ==> c != '\n' && c != '\r' && (c == '}' ==> depth > 0)
    ensures Outcome(text, i, mode, depth) ==
      Behind([c], Outcome(text, i + (if merged then 2 else 1), Next(mode, c, merged), Deeper(mode, c, depth)))
  {
    var part := if merged then [SLASH, c] else [c];
    assert text[i] == text[i..i + |part|][0];
    assert merged ==> text[i + 1] == text[i..i + |part|][1];
    hide Merges, Next, Deeper;
    ScanStep(text, i + (if merged then 2 else 1), Next(mode, c, merged), Deeper(mode, c, depth));
  }

  /** The mode between the quotes of a literal. */
  ghost function Inside(escaped: bool): Mode {
    if escaped then Escaped(false) else Plain(false)
  }

  lemma EscapedPairScans(text: string, i: nat, c: char, depth: nat)
    requires Here(text, i, [SLASH, SLASH] + EscapedChar(c))
    ensures Outcome(text, i, Escaped(false), depth)
         == Behind([SLASH, c], Outcome(text, i + 2 + |EscapedChar(c)|, Escaped(false), depth))
  {
    hide Outcome, Behind;
    HereSplits(text, i, [SLASH, SLASH], EscapedChar(c));
    assert text[i] == text[i..i + 2][0] && text[i + 1] == text[i..i + 2][1];
    Reads(text, i, Escaped(false), depth, SLASH, true);
    var merged := c == QUOTE || c == SLASH;
    assert text[i + 2] == text[i + 2..i + 2 + |EscapedChar(c)|][0];
    assert merged ==> text[i + 3] == text[i + 2..i + 4][1];
    Reads(text, i + 2, Escaped(true), depth, c, merged);
    assert [SLASH] + [c] == [SLASH, c];
    BehindBoth([SLASH], [c], Outcome(text, i + 2 + |EscapedChar(c)|, Escaped(false), depth));
  }

  lemma PlainPairScans(text: string, i: nat, c: char, depth: nat)
    requires Here(text, i, [SLASH, c])
    ensures Outcome(text, i, Plain(false), depth) == Behind([SLASH, c], Outcome(text, i + 2, Plain(false), depth))
  {
    hide Outcome, Behind;
    assert [SLASH] + [c] == [SLASH, c];
    HereSplits(text, i, [SLASH], [c]);
    Reads(text, i, Plain(false), depth, SLASH, false);
    Reads(text, i + 1, Plain(true), depth, c, false);
    BehindBoth([SLASH], [c], Outcome(text, i + 2, Plain(false), depth));
  }

  lemma UnitScans(text: string, i: nat, u: Unit, escaped: bool, depth: nat)
    requires ValidUnit(u) && Here(text, i, UnitSpelling(u, escaped))
    ensures Outcome(text, i, Inside(escaped), depth) ==
      Behind(UnitText(u), Outcome(text, i + |UnitSpelling(u, escaped)|, Inside(escaped), depth))
  {
    hide Outcome, Behind;
    if u.One? {
      assert Here(text, i, [u.c]);
      assert text[i] == text[i..i + 1][0];
      Reads(text, i, Inside(escaped), depth, u.c, false);
    } else if escaped {
      EscapedPairScans(text, i, u.c, depth);
    } else {
      PlainPairScans(text, i, u.c, depth);
    }
  }

  lemma {:induction false} UnitsScan(text: string, i: nat, units: seq<Unit>, escaped: bool, depth: nat)
    requires ValidUnits(units) && Here(text, i, UnitsSpelling(units, escaped))
    ensures Outcome(text, i, Inside(escaped), depth) ==
      Behind(UnitsText(units), Outcome(text, i + |UnitsSpelling(units, escaped)|, Inside(escaped), depth))
    decreases |units|
  {
    hide Outcome, UnitSpelling, UnitText, ValidUnit, Here;
    var mode := Inside(escaped);
    var end := i + |UnitsSpelling(units, escaped)|;
    if units == [] {
      assert Outcome(text, end, mode, depth).Some? ==>
        [] + Outcome(text, end, mode, depth).value.0 == Outcome(text, end, mode, depth).value.0;
    } else {
      var first := UnitSpelling(units[0], escaped);
      HereSplits(text, i, first, UnitsSpelling(units[1..], escaped));
      UnitScans(text, i, units[0], escaped, depth);
      UnitsScan(text, i + |first|, units[1..], escaped, depth);
      BehindBoth(UnitText(units[0]), UnitsText(units[1..]), Outcome(text, end, mode, depth));
    }
  }

  /** A quote opens a literal of its spelling, or closes one. */
  lemma QuoteScans(text: string, i: nat, escaped: bool, opens: bool, depth: nat)
    requires Here(text, i, QuoteSpelling(escaped))
    ensures Outcome(text, i, if opens then Code else Inside(escaped), depth) ==
      Behind([QUOTE], Outcome(text, i + |QuoteSpelling(escaped)|, if opens then Inside(escaped) else Code, depth))
  {
    hide Outcome, Behind;
    assert text[i] == text[i..i + |QuoteSpelling(escaped)|][0];
    assert escaped ==> text[i + 1] == text[i..i + |QuoteSpelling(escaped)|][1];
    Reads(text, i, if opens then Code else Inside(escaped), depth, QUOTE, escaped);
  }

  /** The three parts of a literal. */
  lemma LiteralHere(text: string, i: nat, quote: string, body: string)
    requires Here(text, i, quote + body + quote)
    ensures Here(text, i, quote) && Here(text, i + |quote|, body) && Here(text, i + |quote| + |body|, quote)
  {
    hide Here;
    HereSplits(text, i, quote + body, quote);
    HereSplits(text, i, quote, body);
  }

  lemma LiteralScans(text: string, i: nat, units: seq<Unit>, escaped: bool, depth: nat)
    requires ValidUnits(units) && Here(text, i, PieceSpelling(Literal(units, escaped)))
    ensures Outcome(text, i, Code, depth) ==
      Behind(PieceText(Literal(units, escaped)),
        Outcome(text, i + |PieceSpelling(Literal(units, escaped))|, Code, depth))
  {
    hide Outcome, Behind, Here, QuoteSpelling, UnitsSpelling, UnitsText, ValidUnits;
    var quote, body := QuoteSpelling(escaped), UnitsSpelling(units, escaped);
    LiteralHere(text, i, quote, body);
    QuoteScans(text, i, escaped, true, depth);
    UnitsScan(text, i + |quote|, units, escaped, depth);
    QuoteScans(text, i + |quote| + |body|, escaped, false, depth);
    var rest := Outcome(text, i + |quote| + |body| + |quote|, Code, depth);
    BehindBoth(UnitsText(units), [QUOTE], rest);
    BehindBoth([QUOTE], UnitsText(units) + [QUOTE], rest);
    assert [QUOTE] + (UnitsText(units) + [QUOTE]) == [QUOTE] + UnitsText(units) + [QUOTE];
  }

  lemma BareScans(text: string, i: nat, c: char, depth: nat)
    requires Here(text, i, [c]) && c != QUOTE && c != SLASH && c != '\n' && c != '\r' && (c == '}' ==> depth > 0)
    ensures Outcome(text, i, Code, depth) == Behind([c], Outcome(text, i + 1, Code, Deeper(Code, c, depth)))
  {
    hide Outcome, Behind;
    assert text[i] == text[i..i + 1][0];
    Reads(text, i, Code, depth, c, false);
  }

  lemma {:induction false} PiecesScan(text: string, i: nat, pieces: seq<Piece>, depth: nat)
    requires ValidPieces(pieces, depth) && Here(text, i, Spelling(pieces) + "}")
    ensures Outcome(text, i, Code, depth) == Some((Expression(pieces), i + |Spelling(pieces)|))
    decreases |pieces|
  {
    hide Outcome, PieceSpelling, PieceText, Here, ValidUnits, Deeper;
    if pieces == [] {
      assert Spelling(pieces) + "}" == "}";
      ClosesHere(text, i);
    } else {
      var first, rest := PieceSpelling(pieces[0]), Spelling(pieces[1..]) + "}";
      assert Spelling(pieces) + "}" == first + rest;
      HereSplits(text, i, first, rest);
      match pieces[0] {
        case Bare(c) =>
          assert first == [c] == PieceText(pieces[0]) by { BareSpelled(c); }
          BareScans(text, i, c, depth);
          PiecesScan(text, i + 1, pieces[1..], Deeper(Code, c, depth));
        case Literal(units, escaped) =>
          LiteralScans(text, i, units, escaped, depth);
          PiecesScan(text, i + |first|, pieces[1..], depth);
      }
    }
  }

  lemma ClosesHere(text: string, i: nat)
    requires Here(text, i, "}")
    ensures Outcome(text, i, Code, 0) == Some(([], i))
  {
    assert text[i] == text[i..i + 1][0];
  }

  lemma BareSpelled(c: char)
    ensures PieceSpelling(Bare(c)) == [c] == PieceText(Bare(c))
  {}

  /** An interpolation ends at its closing brace and reads as its expression, however each nested literal is spelled. */
  lemma SpellingsRead(before: string, pieces: seq<Piece>, after: string)
    requires ValidPieces(pieces, 0)
    ensures var text := before + Spelling(pieces) + "}" + after;
      Outcome(text, |before|, Code, 0) == Some((Expression(pieces), |before| + |Spelling(pieces)|))
  {
    hide Outcome, Spelling, Expression, ValidPieces;
    var text := before + Spelling(pieces) + "}" + after;
    assert text[|before|..|before| + |Spelling(pieces) + "}"|] == Spelling(pieces) + "}";
    PiecesScan(text, |before|, pieces, 0);
  }
}
