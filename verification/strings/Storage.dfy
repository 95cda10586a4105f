/** The storage a String gets for a text of some length. */
module TextStorage {
  import opened HeapLayout

  const WORD: nat := U32_MAX + 1
  /** The bytes of a String before its text. */
  const TEXT_START: nat := 16

  /** All of the text has storage, none is given, or less than the text takes. */
  datatype Storage = Whole | Refused | Short

  /** What an allocation comes to for a text of so many bytes, when memory does not run out. */
  function StorageFor(length: nat): Storage {
    if TEXT_START + length >= WORD then Refused
    else if RoundedSize(TEXT_START + length) < TEXT_START + length then Short
    else if NeverFits(RoundedSize(TEXT_START + length)) then Refused
    else Whole
  }

  predicate Stored(length: nat) {
    StorageFor(length).Whole?
  }

  /**
    * Texts are stored up to 0xFFFD_FFE0 bytes. Storage falls short for exactly the seven lengths 0xFFFF_FFE9 to
    * 0xFFFF_FFEF, and is refused for every other length.
    */
  lemma StorageBands(length: nat)
    ensures StorageFor(length)
         == if length <= 0xFFFD_FFE0 then Whole else if 0xFFFF_FFE9 <= length <= 0xFFFF_FFEF then Short else Refused
  {
    if TEXT_START + length < WORD {
      RoundedHolds(TEXT_START + length);
      assert PageAddress(PAGE_LIMIT - 2) == 0xFFFE_0000;
    }
  }

  lemma StoredShrinks(low: nat, high: nat)
    requires low <= high
    ensures Stored(high) ==> Stored(low)
  {
    StorageBands(low);
    StorageBands(high);
  }

  lemma StoredCounts(length: nat)
    ensures Stored(length) ==> TEXT_START + length < WORD
  {}
}
