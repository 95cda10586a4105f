/** String literals of source text, and the texts they decode to. */
module StringLiterals {
  import opened Escapes
  import LiteralText
  import opened Wrappers

  const INVALID_ESCAPE := "E0006"
  const UNTERMINATED := "E0007"

  predicate IsHex(c: char) {
    '0' <= c <= '9' || 'a' <= c <= 'f' || 'A' <= c <= 'F'
  }

  function HexOf(c: char): nat
    requires IsHex(c)
  {
    if c <= '9' then (c as int - '0' as int) as nat
    else if c <= 'F' then (c as int - 'A' as int + 10) as nat
    else (c as int - 'a' as int + 10) as nat
  }

  /** The leading hexadecimal digits of a text. */
  ghost function HexPrefix(text: string): (digits: string)
    ensures digits <= text && forall i :: 0 <= i < |digits| ==> IsHex(digits[i])
  {
    if text != [] && IsHex(text[0]) then [text[0]] + HexPrefix(text[1..]) else []
  }

  function HexValue(digits: string): nat
    requires forall i :: 0 <= i < |digits| ==> IsHex(digits[i])
  {
    if digits == [] then 0 else 16 * HexValue(digits[..|digits| - 1]) + HexOf(digits[|digits| - 1])
  }

  predicate IsScalar(code: nat) {
    code < 0xD800 || 0xE000 <= code < 0x11_0000
  }

  /** The character behind `\u` and the text behind its braces. */
  ghost function Unicode(text: string): Result<(char, string), string> {
    if text == [] || text[0] != '{' then Err(INVALID_ESCAPE)
    else
      var digits := HexPrefix(text[1..]);
      var rest := text[1 + |digits|..];
      if digits == [] || rest == [] || rest[0] != '}' || !IsScalar(HexValue(digits)) then Err(INVALID_ESCAPE)
      else Ok((HexValue(digits) as char, rest[1..]))
  }

  /** The character a simple escape stands for. */
  function Simple(escape: char): string {
    if escape == '\"' then "\""
    else if escape == '\\' then "\\"
    else if escape == 'n' then "\n"
    else if escape == 'r' then "\r"
    else if escape == 't' then "\t"
    else if escape == '0' then "\0"
    else ""
  }

  /** One element of a literal: its characters, none at the closing quote, and the text behind it. */
  ghost function Element(text: string): Result<(string, string), string>
    requires text != []
  {
    if text[0] == '\"' then Ok(("", text[1..]))
    else if text[0] == '\\' then
      if |text| == 1 then Err(UNTERMINATED)
      else if Simple(text[1]) != "" then Ok((Simple(text[1]), text[2..]))
      else if text[1] == 'u' then
        var scalar := Unicode(text[2..]);
        if scalar.Err? then Err(scalar.error) else Ok(([scalar.value.0], scalar.value.1))
      else Err(INVALID_ESCAPE)
    else if text[0] == '\n' || text[0] == '\r' then Err(UNTERMINATED)
    else Ok(([text[0]], text[1..]))
  }

  lemma ElementShrinks(text: string)
    requires text != []
    ensures Element(text).Ok? ==> |Element(text).value.1| < |text|
  {}

  /** The text of a literal up to its closing quote, and the text behind it. */
  ghost function Literal(text: string): Result<(string, string), string>
    decreases |text|
  {
    if text == [] then Err(UNTERMINATED)
    else
      ElementShrinks(text);
      var element := Element(text);
      if element.Err? then element
      else if text[0] == '\"' then element
      else
        var rest := Literal(element.value.1);
        if rest.Err? then rest else Ok((element.value.0 + rest.value.0, rest.value.1))
  }

  // ---- What escapes stand for ----

  /** The digits 0 to 15, in lower and in upper case. */
  lemma HexDigitsMean(c: char)
    ensures var lower, upper := "0123456789abcdef", "0123456789ABCDEF";
      && (IsHex(c) <==> c in lower || c in upper)
      && (IsHex(c) ==> HexOf(c) < 16 && (lower[HexOf(c)] == c || upper[HexOf(c)] == c))
  {
    if 'a' <= c <= 'f' {
      assert "0123456789abcdef"[c as int - 'a' as int + 10] == c;
    } else if 'A' <= c <= 'F' {
      assert "0123456789ABCDEF"[c as int - 'A' as int + 10] == c;
    } else if '0' <= c <= '9' {
      assert "0123456789abcdef"[c as int - '0' as int] == c;
    }
  }

  /** The characters of the six simple escapes, each by its code; no other has one. */
  lemma SimpleMeans(escape: char)
    ensures var escapes, codes := ['\"', '\\', 'n', 'r', 't', '0'], [0x22, 0x5C, 0x0A, 0x0D, 0x09, 0];
      && (Simple(escape) != "" <==> escape in escapes)
      && forall i {:trigger escapes[i]} :: 0 <= i < 6 && escapes[i] == escape ==> Simple(escape) == [codes[i] as char]
  {}

  // ---- Escaped texts read back ----

  lemma HexReads(value: nat)
    requires value < 16
    ensures IsHex(HexDigit(value)) && HexOf(HexDigit(value)) == value
  {}

  lemma TwoHexRead(c: char, rest: string)
    requires c as int < 256
    ensures Unicode(['{', HexDigit(c as int / 16), HexDigit(c as int % 16), '}'] + rest) == Ok((c, rest))
  {
    var first, second := HexDigit(c as int / 16), HexDigit(c as int % 16);
    HexReads(c as int / 16);
    HexReads(c as int % 16);
    var text := ['{', first, second, '}'] + rest;
    assert text[1..][1..][1..] == ['}'] + rest;
    assert text[1..] == [first, second] + (['}'] + rest) && text[1..][1..] == [second] + (['}'] + rest);
    assert HexPrefix(['}'] + rest) == [];
    assert HexPrefix(text[1..][1..]) == [second] + [];
    assert HexPrefix(text[1..]) == [first, second];
    assert [first, second][..1] == [first] && [first][..0] == [];
    assert HexValue([first]) == HexOf(first) && HexValue([first, second]) == 16 * HexValue([first]) + HexOf(second);
    assert HexValue([first, second]) == c as int;
    assert text[3..] == ['}'] + rest && (['}'] + rest)[1..] == rest;
  }

  lemma NextHex(text: string, from: nat, end: nat)
    requires from <= end <= |text|
    ensures end < |text| && IsHex(text[end]) ==>
      text[from..end] + HexPrefix(text[end..]) == text[from..end + 1] + HexPrefix(text[end + 1..])
    ensures end == |text| || !IsHex(text[end]) ==> HexPrefix(text[end..]) == []
  {
    if end < |text| && IsHex(text[end]) {
      assert text[end..][1..] == text[end + 1..];
      assert text[from..end + 1] == text[from..end] + [text[end]];
    }
  }

  lemma CharReads(c: char, rest: string)
    ensures EscapedChar(c)[0] != '\"'
    ensures Element(EscapedChar(c) + rest) == Ok(([c], rest))
  {
    hide Unicode, Control, HexDigit;
    var text := EscapedChar(c) + rest;
    if Named(c) != "" {
      assert text[0] == '\\' && text[1] == Named(c)[1] && text[2..] == rest;
    } else if Control(c) {
      TwoHexRead(c, rest);
      assert text[2..] == ['{', HexDigit(c as int / 16), HexDigit(c as int % 16), '}'] + rest;
    } else {
      assert text[0] == c && text[1..] == rest;
    }
  }

  /** The quoted escaped form of every text is read as that text, and nothing behind its closing quote is consumed. */
  lemma {:induction false} EscapedReadsBack(text: string, rest: string)
    ensures Literal(Escaped(text) + "\"" + rest) == Ok((text, rest))
    decreases |text|
  {
    hide EscapedChar, Element;
    if text == [] {
      var source := Escaped(text) + "\"" + rest;
      assert source[0] == '\"' && source[1..] == rest;
      assert Element(source) == Ok(("", rest)) by { QuoteCloses(source); }
    } else {
      var later := Escaped(text[1..]) + "\"" + rest;
      assert Escaped(text) + "\"" + rest == EscapedChar(text[0]) + later;
      CharReads(text[0], later);
      EscapedReadsBack(text[1..], rest);
      assert [text[0]] + text[1..] == text;
    }
  }

  lemma QuoteCloses(source: string)
    requires source != [] && source[0] == '\"'
    ensures Element(source) == Ok(("", source[1..]))
  {}

  /** The literal spelling of a String is a String literal that reads back as it. */
  lemma SpelledReadsBack(show: nat -> string, text: string, depth: nat, rest: string)
    requires depth <= LiteralText.NATIVE_DEPTH
    ensures var spelled := LiteralText.Spelled(show, LiteralText.Text(text), depth);
      spelled.Some? && spelled.value != []
        && spelled.value[0] == '\"' && Literal(spelled.value[1..] + rest) == Ok((text, rest))
  {
    hide Literal;
    var quoted := LiteralText.Quoted(text);
    assert quoted[1..] == Escaped(text) + "\"";
    assert quoted[1..] + rest == Escaped(text) + "\"" + rest;
    EscapedReadsBack(text, rest);
  }

  // ---- The decoder ----

  /** The end of the hexadecimal digits from `from` on. */
  method HexEnd(text: string, from: nat) returns (end: nat)
    requires from <= |text|
    ensures from <= end <= |text| && text[from..end] == HexPrefix(text[from..])
  {
    hide IsHex, HexPrefix;
    end := from;
    ghost var prefix := HexPrefix(text[from..]);
    assert text[from..end] == [] && [] + prefix == prefix;
    while end < |text| && IsHex(text[end])
      invariant from <= end <= |text| && prefix == text[from..end] + HexPrefix(text[end..])
    {
      NextHex(text, from, end);
      end := end + 1;
    }
    NextHex(text, from, end);
    assert text[from..end] + [] == text[from..end];
  }

  /** An escape whose digits end at `end`. */
  lemma UnicodeAt(text: string, index: nat, end: nat)
    requires index < |text| && text[index] == '{' && index + 1 <= end <= |text|
    requires text[index + 1..end] == HexPrefix(text[index + 1..])
    ensures var digits := text[index + 1..end];
      (forall i :: 0 <= i < |digits| ==> IsHex(digits[i]))
      && Unicode(text[index..]) ==
        (if digits == [] || end == |text| || text[end] != '}' || !IsScalar(HexValue(digits)) then Err(INVALID_ESCAPE)
         else Ok((HexValue(digits) as char, text[end + 1..])))
  {
    hide IsHex, HexPrefix, HexValue;
    assert text[index..][1..] == text[index + 1..];
    assert text[index..][end - index..] == text[end..];
    if end < |text| {
      assert text[end..][1..] == text[end + 1..];
    }
  }

  /** Decodes the digits of a `\u` escape from `index` on. */
  method DecodeUnicodeEscape(text: string, index: nat) returns (r: Result<(char, nat), string>)
    requires index <= |text|
    ensures r.Err? <==> Unicode(text[index..]).Err?
    ensures r.Err? ==> r.error == Unicode(text[index..]).error
    ensures r.Ok? ==> index < r.value.1 <= |text| && Unicode(text[index..]) == Ok((r.value.0, text[r.value.1..]))
  {
    if index >= |text| || text[index] != '{' {
      return Err(INVALID_ESCAPE);
    }
    hide Unicode, HexPrefix, HexValue, IsHex;
    var from: nat := index + 1;
    var end := HexEnd(text, from);
    UnicodeAt(text, index, end);
    if from == end || end >= |text| || text[end] != '}' {
      return Err(INVALID_ESCAPE);
    }
    var scalar := HexValue(text[from..end]);
    if scalar >= 0x1_0000_0000 || !IsScalar(scalar) {
      return Err(INVALID_ESCAPE);
    }
    r := Ok((scalar as char, end + 1));
  }

  ghost function Prepended(read: string, rest: Result<(string, string), string>): Result<(string, string), string> {
    if rest.Err? then rest else Ok((read + rest.value.0, rest.value.1))
  }

  lemma OneElement(read: string, text: string)
    requires text != [] && text[0] != '\"'
    ensures Element(text).Err? ==> Prepended(read, Literal(text)) == Element(text)
    ensures Element(text).Ok? ==>
      Prepended(read, Literal(text)) == Prepended(read + Element(text).value.0, Literal(Element(text).value.1))
  {
    hide Element;
    ElementShrinks(text);
    if Element(text).Ok? && Literal(Element(text).value.1).Ok? {
      var one, rest := Element(text).value.0, Literal(Element(text).value.1).value.0;
      assert read + (one + rest) == read + one + rest;
    }
  }

  lemma Closes(read: string, text: string)
    requires text != [] && text[0] == '\"'
    ensures Prepended(read, Literal(text)) == Ok((read, text[1..]))
  {
    assert read + "" == read;
  }

  /** Reads the literal that begins with the quote at `start`: its text and the position behind it. */
  method StringLiteral(text: string, start: nat) returns (r: Result<(string, nat), string>)
    requires start < |text| && text[start] == '\"'
    ensures var spec := Literal(text[start + 1..]);
      if spec.Err? then r == Err(spec.error)
      else r.Ok? && r.value.0 == spec.value.0 && start < r.value.1 <= |text| && text[r.value.1..] == spec.value.1
  {
    hide Literal, Prepended, Unicode;
    var index: nat, value := start + 1, "";
    ghost var spec := Literal(text[start + 1..]);
    NothingRead(spec);
    while index < |text|
      invariant start < index <= |text| && spec == Prepended(value, Literal(text[index..]))
      decreases |text| - index
    {
      ghost var here := text[index..];
      assert here[0] == text[index] && (index + 1 < |text| ==> here[1] == text[index + 1]);
      assert here[1..] == text[index + 1..] && (index + 2 <= |text| ==> here[2..] == text[index + 2..]);
      if text[index] == '\"' {
        Closes(value, here);
        return Ok((value, index + 1));
      }
      OneElement(value, here);
      if text[index] == '\\' {
        if index + 1 >= |text| {
          return Err(UNTERMINATED);
        }
        var escape := text[index + 1];
        index := index + 2;
        if Simple(escape) != "" {
          value := value + Simple(escape);
        } else if escape == 'u' {
          var scalar := DecodeUnicodeEscape(text, index);
          if scalar.Err? {
            return Err(scalar.error);
          }
          value := value + [scalar.value.0];
          index := scalar.value.1;
        } else {
          return Err(INVALID_ESCAPE);
        }
      } else if text[index] == '\n' || text[index] == '\r' {
        return Err(UNTERMINATED);
      } else {
        value := value + [text[index]];
        index := index + 1;
      }
    }
    Unended(value, text[index..]);
    r := Err(UNTERMINATED);
  }

  lemma NothingRead(spec: Result<(string, string), string>)
    ensures Prepended("", spec) == spec
  {
    if spec.Ok? {
      assert "" + spec.value.0 == spec.value.0;
    }
  }

  lemma Unended(read: string, text: string)
    requires text == []
    ensures Prepended(read, Literal(text)) == Err(UNTERMINATED)
  {}
}
