/** Texts with the escapes of quoted literals. */
module Escapes {
  import opened Utf8

  function HexDigit(value: nat): char
    requires value < 16
  {
    "0123456789abcdef"[value]
  }

  /** The escape of a character inside a quoted literal, if it has one of its own. */
  function Named(c: char): string {
    if c == '\"' then "\\\""
    else if c == '\\' then "\\\\"
    else if c == '\n' then "\\n"
    else if c == '\r' then "\\r"
    else if c == '\t' then "\\t"
    else if c == '\0' then "\\0"
    else ""
  }

  predicate Control(c: char)
    ensures Control(c) ==> c as int < 0x80
  {
    (c as int) < 0x20 || c as int == 0x7f
  }

  function EscapedChar(c: char): (text: string)
    ensures text != []
  {
    if Named(c) != "" then Named(c)
    else if Control(c) then ['\\', 'u', '{', HexDigit(c as int / 16), HexDigit(c as int % 16), '}']
    else [c]
  }

  /** Controls, quotes and backslashes never stand for themselves, and everything else does. */
  lemma EscapedCharIsPlain(c: char)
    ensures EscapedChar(c) == [c] <==> 0x20 <= c as int && c as int != 0x7F && c != '\"' && c != '\\'
    ensures EscapedChar(c) != [c] ==> |EscapedChar(c)| in {2, 6} && EscapedChar(c)[0] == '\\'
    ensures forall i :: 0 <= i < |EscapedChar(c)| ==>
        0x20 <= EscapedChar(c)[i] as int && EscapedChar(c)[i] as int != 0x7F
  {
    if Control(c) {
      var high, low := HexDigit(c as int / 16), HexDigit(c as int % 16);
      assert 0x20 <= high as int < 0x7F && 0x20 <= low as int < 0x7F;
    }
  }

  ghost function Escaped(text: string): string {
    if text == [] then [] else EscapedChar(text[0]) + Escaped(text[1..])
  }

  lemma {:induction false} EscapedGrows(text: string, c: char)
    ensures Escaped(text + [c]) == Escaped(text) + EscapedChar(c)
  {
    hide EscapedChar;
    if text == [] {
      assert (text + [c])[1..] == [];
    } else {
      EscapedGrows(text[1..], c);
      assert (text + [c])[1..] == text[1..] + [c];
    }
  }

  /** One more character of a text. */
  lemma EscapedStep(text: string, index: nat)
    requires index < |text|
    ensures Escaped(text[..index + 1]) == Escaped(text[..index]) + EscapedChar(text[index])
    ensures ByteLen(Escaped(text[..index + 1])) - ByteLen(text[..index + 1]) ==
      ByteLen(Escaped(text[..index])) - ByteLen(text[..index]) + |EscapedChar(text[index])| - 1
  {
    var c := text[index];
    assert text[..index + 1] == text[..index] + [c];
    EscapedGrows(text[..index], c);
    ByteLenJoins(Escaped(text[..index]), EscapedChar(c));
    ExtraAlike(c);
    hide EscapedChar, CharLen;
    assert text[..index + 1][..index] == text[..index];
  }

  /** What escaping a character adds, in bytes and in characters alike. */
  lemma ExtraAlike(c: char)
    ensures ByteLen(EscapedChar(c)) == CharLen(c) + |EscapedChar(c)| - 1
  {
    var text := EscapedChar(c);
    if text == [c] {
      assert ByteLen(text) == ByteLen(text[..0]) + CharLen(c);
    } else {
      AsciiLen(text);
    }
  }

  /** Escaping adds as many bytes as characters. */
  lemma {:induction false} AddsAlike(text: string)
    ensures |text| <= |Escaped(text)| && ByteLen(Escaped(text)) - ByteLen(text) == |Escaped(text)| - |text|
    decreases |text|
  {
    if text == [] {
      EscapedNothing();
    } else {
      var last := |text| - 1;
      AddsAlike(text[..last]);
      EscapedStep(text, last);
      assert text[..last + 1] == text;
    }
  }

  /** What escaping adds to a text, in bytes and in characters alike, counted in 32 bits. */
  method EscapedExtra(text: string) returns (extra: nat)
    ensures |text| <= |Escaped(text)| && extra == Wrap(|Escaped(text)| - |text|)
  {
    hide Named, Control, Escaped, ByteLen, Wrap;
    extra := 0;
    var index: nat := 0;
    EscapedNothing();
    Small(0);
    assert text[..0] == [];
    while index < |text|
      invariant index <= |text| && index <= |Escaped(text[..index])|
      invariant extra == Wrap(|Escaped(text[..index])| - index)
    {
      EscapedStep(text, index);
      WrapsThrough(|Escaped(text[..index])| - index, |EscapedChar(text[index])| - 1);
      if Named(text[index]) != "" {
        extra := Wrap(extra + (|Named(text[index])| - 1));
      } else if Control(text[index]) {
        extra := Wrap(extra + 5);
      } else {
        WrapsThrough(|Escaped(text[..index])| - index, 0);
      }
      index := index + 1;
    }
    assert text[..index] == text;
  }

  lemma Small(count: nat)
    ensures count < 0x1_0000_0000 ==> Wrap(count) == count
  {}

  lemma EscapedNothing()
    ensures Escaped([]) == [] && ByteLen([]) == 0
  {}

  method WriteEscaped(target: string, text: string) returns (r: string)
    ensures r == target + Escaped(text)
  {
    hide Named, Control, Escaped, HexDigit;
    r := target;
    var index: nat := 0;
    EscapedNothing();
    assert text[..0] == [];
    while index < |text|
      invariant index <= |text| && r == target + Escaped(text[..index])
    {
      EscapedStep(text, index);
      var c := text[index];
      var part: string;
      if Named(c) != "" {
        part := Named(c);
      } else if Control(c) {
        part := ['\\', 'u', '{', HexDigit(c as int / 16), HexDigit(c as int % 16), '}'];
      } else {
        part := [c];
      }
      assert part == EscapedChar(c);
      r := r + part;
      index := index + 1;
    }
    assert text[..index] == text;
  }
}
