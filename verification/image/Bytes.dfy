/** Little-endian words in byte sequences. */
module ImageBytes {
  type byte = n: nat | n < 256

  const WORD: nat := 0x1_0000_0000

  function Load32(image: seq<byte>, at: nat): (word: nat)
    ensures word < WORD
  {
    if at + 4 <= |image| then
      image[at] as nat + 0x100 * image[at + 1] as nat + 0x1_0000 * image[at + 2] as nat
        + 0x100_0000 * image[at + 3] as nat
    else 0
  }

  function Load64(image: seq<byte>, at: nat): (word: nat)
    ensures word < WORD * WORD
  {
    Load32(image, at) + WORD * Load32(image, at + 4)
  }

  function Store32(image: seq<byte>, at: nat, word: nat): (stored: seq<byte>)
    requires at + 4 <= |image|
    ensures |stored| == |image|
  {
    image[at := word % 256][at + 1 := word / 256 % 256][at + 2 := word / 65536 % 256][at + 3 := word / 16777216 % 256]
  }

  function Store64(image: seq<byte>, at: nat, word: nat): (stored: seq<byte>)
    requires at + 8 <= |image|
    ensures |stored| == |image|
  {
    Store32(Store32(image, at, word % WORD), at + 4, word / WORD)
  }

  lemma WordParts(word: nat)
    requires word < WORD
    ensures word == word % 256 + 0x100 * (word / 256 % 256) + 0x1_0000 * (word / 65536 % 256)
      + 0x100_0000 * (word / 16777216 % 256)
  {
    var second := word / 256;
    var third := second / 256;
    var fourth := third / 256;
    assert word == word % 256 + 256 * (second % 256 + 256 * (third % 256 + 256 * fourth));
    assert third == word / 65536 && fourth == word / 16777216;
  }

  lemma LoadStored(image: seq<byte>, at: nat, word: nat)
    requires at + 4 <= |image| && word < WORD
    ensures Load32(Store32(image, at, word), at) == word
  {
    var stored := Store32(image, at, word);
    assert stored[at] == word % 256 && stored[at + 1] == word / 256 % 256;
    assert stored[at + 2] == word / 65536 % 256 && stored[at + 3] == word / 16777216 % 256;
    WordParts(word);
  }

  lemma StoreElsewhere(image: seq<byte>, at: nat, word: nat)
    requires at + 4 <= |image|
    ensures forall i {:trigger Store32(image, at, word)[i]} :: 0 <= i < |image| && !(at <= i < at + 4) ==>
      Store32(image, at, word)[i] == image[i]
  {}

  lemma LoadAgrees(image: seq<byte>, other: seq<byte>, at: nat)
    requires at + 4 <= |image| && at + 4 <= |other|
    requires image[at..at + 4] == other[at..at + 4]
    ensures Load32(image, at) == Load32(other, at)
  {
    var left, right := image[at..at + 4], other[at..at + 4];
    assert image[at] == left[0] && image[at + 1] == left[1] && image[at + 2] == left[2] && image[at + 3] == left[3];
    assert other[at] == right[0] && other[at + 1] == right[1] && other[at + 2] == right[2] && other[at + 3] == right[3];
  }

  /** `other` holds the same bytes as `image` from `low` on, and maybe more after them. */
  ghost predicate Keeps(image: seq<byte>, other: seq<byte>, low: nat) {
    |image| <= |other| && forall i {:trigger image[i]} {:trigger other[i]} :: low <= i < |image| ==>
      other[i] == image[i]
  }

  lemma KeepsLoad(image: seq<byte>, other: seq<byte>, low: nat, at: nat)
    requires Keeps(image, other, low) && low <= at && at + 4 <= |image|
    ensures Load32(other, at) == Load32(image, at)
  {}

  lemma KeepsSlice(image: seq<byte>, other: seq<byte>, low: nat, from: nat, to: nat)
    requires Keeps(image, other, low) && low <= from <= to <= |image|
    ensures other[from..to] == image[from..to]
  {}
}
