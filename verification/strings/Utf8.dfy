/** Lengths of texts in UTF-8. */
module Utf8 {
  /** The bytes of a character in UTF-8. */
  function CharLen(c: char): nat {
    var code := c as int;
    if code < 0x80 then 1 else if code < 0x800 then 2 else if code < 0x1_0000 then 3 else 4
  }

  // ---- The encoding (section 3 of RFC 3629) ----

  /** The bytes a first byte announces, 0 for one that begins no character. */
  ghost function Announced(first: nat): nat {
    if first < 0x80 then 1
    else if 0xC0 <= first < 0xE0 then 2
    else if 0xE0 <= first < 0xF0 then 3
    else if 0xF0 <= first < 0xF8 then 4
    else 0
  }

  /** A first byte and the bytes behind it that it announces. */
  ghost predicate IsEncoding(bytes: seq<nat>) {
    bytes != [] && |bytes| == Announced(bytes[0]) && forall i :: 1 <= i < |bytes| ==> 0x80 <= bytes[i] < 0xC0
  }

  /** The code that the free bits of an encoding hold. */
  ghost function CodeOf(bytes: seq<nat>): int
    requires IsEncoding(bytes)
  {
    if |bytes| == 1 then bytes[0]
    else if |bytes| == 2 then (bytes[0] - 0xC0) * 0x40 + (bytes[1] - 0x80)
    else if |bytes| == 3 then (bytes[0] - 0xE0) * 0x1000 + (bytes[1] - 0x80) * 0x40 + (bytes[2] - 0x80)
    else
      (bytes[0] - 0xF0) * 0x4_0000 + (bytes[1] - 0x80) * 0x1000 + (bytes[2] - 0x80) * 0x40 + (bytes[3] - 0x80)
  }

  /** The bytes of a code in `len` bytes. */
  ghost function Encode(code: nat, len: nat): seq<nat>
    requires 1 <= len <= 4
  {
    if len == 1 then [code]
    else if len == 2 then [0xC0 + code / 0x40, 0x80 + code % 0x40]
    else if len == 3 then [0xE0 + code / 0x1000, 0x80 + code / 0x40 % 0x40, 0x80 + code % 0x40]
    else [0xF0 + code / 0x4_0000, 0x80 + code / 0x1000 % 0x40, 0x80 + code / 0x40 % 0x40, 0x80 + code % 0x40]
  }

  /** A character has an encoding of that length, and none that is shorter. */
  lemma CharLenIsShortest(c: char, bytes: seq<nat>)
    ensures var encoding := Encode(c as nat, CharLen(c));
      IsEncoding(encoding) && CodeOf(encoding) == c as int && |encoding| == CharLen(c)
    ensures IsEncoding(bytes) && CodeOf(bytes) == c as int ==> CharLen(c) <= |bytes|
  {
    hide Encode, IsEncoding, CodeOf;
    EncodesBack(c as nat, CharLen(c));
    if IsEncoding(bytes) {
      CodeBounded(bytes);
    }
  }

  lemma EncodesBack(code: nat, len: nat)
    requires 1 <= len <= 4 && code < (if len == 1 then 0x80 else if len == 2 then 0x800 else if len == 3 then 0x1_0000
        else 0x20_0000)
    ensures IsEncoding(Encode(code, len)) && CodeOf(Encode(code, len)) == code && |Encode(code, len)| == len
  {
    Digits(code);
    if len == 2 {
      assert code / 0x40 < 0x20;
    } else if len == 3 {
      assert code / 0x1000 < 0x10;
    } else if len == 4 {
      assert code / 0x4_0000 < 8;
    }
  }

  /** Six bits at a time. */
  lemma Digits(code: nat)
    ensures code == code / 0x40 * 0x40 + code % 0x40
    ensures code / 0x40 == code / 0x1000 * 0x40 + code / 0x40 % 0x40
    ensures code / 0x1000 == code / 0x4_0000 * 0x40 + code / 0x1000 % 0x40
  {}

  /** What fewer bytes can hold. */
  lemma CodeBounded(bytes: seq<nat>)
    requires IsEncoding(bytes)
    ensures 1 <= |bytes| <= 4
    ensures |bytes| == 1 ==> CodeOf(bytes) < 0x80
    ensures |bytes| == 2 ==> CodeOf(bytes) < 0x800
    ensures |bytes| == 3 ==> CodeOf(bytes) < 0x1_0000
  {}

  // ---- Texts ----

  ghost function ByteLen(text: string): (len: nat)
    ensures |text| <= len
  {
    if text == [] then 0 else ByteLen(text[..|text| - 1]) + CharLen(text[|text| - 1])
  }

  lemma {:induction false} ByteLenJoins(left: string, right: string)
    ensures ByteLen(left + right) == ByteLen(left) + ByteLen(right)
    decreases |right|
  {
    if right == [] {
      assert left + right == left;
    } else {
      ByteLenJoins(left, right[..|right| - 1]);
      assert (left + right)[..|left + right| - 1] == left + right[..|right| - 1];
    }
  }

  lemma {:induction false} AsciiLen(text: string)
    requires forall i :: 0 <= i < |text| ==> text[i] as int < 0x80
    ensures ByteLen(text) == |text|
  {
    if text != [] {
      AsciiLen(text[..|text| - 1]);
    }
  }

  /** The byte and character length of a text. */
  method TextSize(text: string) returns (len: nat, chars: nat)
    ensures len == ByteLen(text) && chars == |text|
  {
    len, chars := 0, 0;
    while chars < |text|
      invariant chars <= |text| && len == ByteLen(text[..chars])
    {
      assert text[..chars + 1][..chars] == text[..chars];
      len, chars := len + CharLen(text[chars]), chars + 1;
    }
    assert text[..chars] == text;
  }

  function Letters(count: nat): string {
    seq(count, _ => 'a')
  }

  lemma LettersLen(count: nat)
    ensures ByteLen(Letters(count)) == count
  {
    AsciiLen(Letters(count));
  }

  // ---- Counting in 32 bits ----

  function Wrap(count: nat): nat {
    count % 0x1_0000_0000
  }

  lemma WrapsThrough(first: nat, second: nat)
    ensures Wrap(Wrap(first) + second) == Wrap(first + second) == Wrap(first + Wrap(second))
  {}
}
