/** What a growing image keeps while its records are filled in. */
module ImageWriting {
  import opened ImageBytes
  import opened BoundaryValues
  import opened ImageLayout

  /** `after` goes on where `before` ends, and differs from it in the `size` bytes at `at` at most. */
  ghost predicate Wrote(before: seq<byte>, after: seq<byte>, at: nat, size: nat) {
    |before| <= |after|
    && forall i {:trigger before[i]} {:trigger after[i]} :: 0 <= i < |before| && !(at <= i < at + size) ==>
      after[i] == before[i]
  }

  lemma WroteNothing(image: seq<byte>, at: nat)
    ensures Wrote(image, image, at, 0)
  {}

  /** Writing in turn, at places of one range. */
  lemma WroteInTurn(first: seq<byte>, second: seq<byte>, third: seq<byte>, at: nat, size: nat, next: nat, more: nat,
                    low: nat, all: nat)
    requires Wrote(first, second, at, size) && Wrote(second, third, next, more)
    requires size == 0 || (low <= at && at + size <= low + all)
    requires more == 0 || (low <= next && next + more <= low + all)
    ensures Wrote(first, third, low, all)
  {}

  lemma WroteKeeps(before: seq<byte>, after: seq<byte>, at: nat, size: nat, low: nat)
    requires Wrote(before, after, at, size) && (size == 0 || at + size <= low)
    ensures Keeps(before, after, low)
  {}

  lemma WroteLoad(before: seq<byte>, after: seq<byte>, at: nat, size: nat, word: nat)
    requires Wrote(before, after, at, size) && word + 4 <= |before|
    requires (size == 0 || word + 4 <= at || at + size <= word)
    ensures Load32(after, word) == Load32(before, word)
  {}

  lemma StoreWrites(image: seq<byte>, at: nat, word: nat)
    requires at + 4 <= |image| && word < WORD
    ensures Wrote(image, Store32(image, at, word), at, 4) && Load32(Store32(image, at, word), at) == word
  {
    StoreElsewhere(image, at, word);
    LoadStored(image, at, word);
  }

  lemma WroteHead(before: seq<byte>, after: seq<byte>, at: nat, size: nat, low: nat, offset: nat, kind: nat,
                  argument: nat, payload: nat)
    requires Head(before, low, offset, kind, argument, payload) && Wrote(before, after, at, size)
    requires size == 0 || offset + 8 <= at
    ensures Head(after, low, offset, kind, argument, payload)
  {
    WroteLoad(before, after, at, size, offset);
    WroteLoad(before, after, at, size, offset + 4);
  }

  /** One more item: its value is written, its offset stored at `at`, and then the items after it. */
  lemma ItemWritten(types: Types, i0: seq<byte>, i1: seq<byte>, i2: seq<byte>, i3: seq<byte>, low: nat, at: nat,
                    part: nat, parts: Parts)
    requires parts.Part? && at + 4 * Count(parts) <= |i0| && low <= |i0| && part < WORD
    requires Wrote(i0, i1, 0, 0) && Holds(types, i1, |i0|, part, parts.value)
    requires i2 == Store32(i1, at, part)
    requires Wrote(i2, i3, at + 4, 4 * Count(parts.rest)) && HoldsItems(types, i3, low, at + 4, parts.rest)
    ensures HoldsItems(types, i3, low, at, parts) && Wrote(i0, i3, at, 4 * Count(parts))
  {
    hide Holds, Load32, Store32;
    StoreWrites(i1, at, part);
    WroteLoad(i2, i3, at + 4, 4 * Count(parts.rest), at);
    WroteKeeps(i1, i2, at, 4, |i0|);
    HoldsKept(types, i1, i2, |i0|, |i0|, part, parts.value);
    WroteKeeps(i2, i3, at + 4, 4 * Count(parts.rest), |i0|);
    HoldsKept(types, i2, i3, |i0|, low, part, parts.value);
    WroteInTurn(i0, i1, i2, 0, 0, at, 4, at, 4 * Count(parts));
    WroteInTurn(i0, i2, i3, at, 4 * Count(parts), at + 4, 4 * Count(parts.rest), at, 4 * Count(parts));
  }

  /** One text that a record refers to by the word at `at`. */
  lemma TextWritten(i0: seq<byte>, i1: seq<byte>, i2: seq<byte>, low: nat, at: nat, part: nat, text: Str)
    requires low <= at && at + 4 <= |i0| && part < WORD
    requires Wrote(i0, i1, 0, 0) && HoldsText(i1, |i0|, part, text) && i2 == Store32(i1, at, part)
    ensures Wrote(i0, i2, at, 4) && Load32(i2, at) == part && HoldsText(i2, |i0|, part, text)
    ensures HoldsText(i2, low, part, text)
  {
    hide Load32, Store32;
    StoreWrites(i1, at, part);
    WroteKeeps(i1, i2, at, 4, |i0|);
    TextKept(i1, i2, |i0|, |i0|, part, text);
    TextKept(i1, i2, |i0|, low, part, text);
    WroteInTurn(i0, i1, i2, 0, 0, at, 4, at, 4);
  }

  /** One value that a record refers to by the word at `at`. */
  lemma ValueWritten(types: Types, i0: seq<byte>, i1: seq<byte>, i2: seq<byte>, low: nat, at: nat, part: nat,
                     value: Value)
    requires low <= at && at + 4 <= |i0| && part < WORD
    requires Wrote(i0, i1, 0, 0) && Holds(types, i1, |i0|, part, value) && i2 == Store32(i1, at, part)
    ensures Wrote(i0, i2, at, 4) && Load32(i2, at) == part
    ensures Holds(types, i2, |i0|, part, value) && Holds(types, i2, low, part, value)
  {
    hide Load32, Store32, Holds;
    StoreWrites(i1, at, part);
    WroteKeeps(i1, i2, at, 4, |i0|);
    HoldsKept(types, i1, i2, |i0|, |i0|, part, value);
    HoldsKept(types, i1, i2, |i0|, low, part, value);
    WroteInTurn(i0, i1, i2, 0, 0, at, 4, at, 4);
  }

  /** What a word refers to is still there after more writing elsewhere. */
  lemma TextStays(before: seq<byte>, after: seq<byte>, at: nat, size: nat, low: nat, from: nat, offset: nat, text: Str)
    requires HoldsText(before, from, offset, text) && Wrote(before, after, at, size)
    requires (size == 0 || at + size <= from) && low <= from
    ensures HoldsText(after, low, offset, text)
  {
    WroteKeeps(before, after, at, size, from);
    TextKept(before, after, from, low, offset, text);
  }

  lemma ValueStays(types: Types, before: seq<byte>, after: seq<byte>, at: nat, size: nat, low: nat, from: nat,
                   offset: nat, value: Value)
    requires Holds(types, before, from, offset, value) && Wrote(before, after, at, size)
    requires (size == 0 || at + size <= from) && low <= from
    ensures Holds(types, after, low, offset, value)
  {
    hide Holds;
    WroteKeeps(before, after, at, size, from);
    HoldsKept(types, before, after, from, low, offset, value);
  }

  /** One more entry: its name and its value, their offsets at `at`, and then the entries after it. */
  lemma EntryWritten(types: Types, i0: seq<byte>, i2: seq<byte>, i4: seq<byte>, i5: seq<byte>, low: nat, at: nat,
                     entry: nat, name: nat, part: nat, parts: Parts)
    requires parts.Part? && at + 8 * Count(parts) <= |i0| && low <= |i0| && TextOf(types, entry, parts.key).Some?
    requires Wrote(i0, i2, at, 4) && Load32(i2, at) == name
    requires HoldsText(i2, |i0|, name, TextOf(types, entry, parts.key).value)
    requires Wrote(i2, i4, at + 4, 4) && Load32(i4, at + 4) == part && Holds(types, i4, |i2|, part, parts.value)
    requires Wrote(i4, i5, at + 8, 8 * Count(parts.rest)) && HoldsEntries(types, i5, low, at + 8, entry, parts.rest)
    ensures HoldsEntries(types, i5, low, at, entry, parts) && Wrote(i0, i5, at, 8 * Count(parts))
  {
    hide Holds, Load32, HoldsText;
    var n, m := 8 * Count(parts), 8 * Count(parts.rest);
    WroteLoad(i2, i4, at + 4, 4, at);
    WroteLoad(i4, i5, at + 8, m, at);
    WroteLoad(i4, i5, at + 8, m, at + 4);
    TextStays(i2, i4, at + 4, 4, |i0|, |i0|, name, TextOf(types, entry, parts.key).value);
    TextStays(i4, i5, at + 8, m, low, |i0|, name, TextOf(types, entry, parts.key).value);
    ValueStays(types, i4, i5, at + 8, m, low, |i2|, part, parts.value);
    WroteInTurn(i0, i2, i4, at, 4, at + 4, 4, at, n);
    WroteInTurn(i0, i4, i5, at, n, at + 8, m, at, n);
  }

  /** Entries stay when something is written beside their words and before what they refer to. */
  lemma {:induction false} EntriesStay(types: Types, before: seq<byte>, after: seq<byte>, at: nat, size: nat, low: nat,
                                       lower: nat, word: nat, entry: nat, parts: Parts)
    requires HoldsEntries(types, before, low, word, entry, parts) && Wrote(before, after, at, size)
    requires word + 8 * Count(parts) <= at && at + size <= low && lower <= low
    ensures HoldsEntries(types, after, lower, word, entry, parts)
    decreases parts
  {
    hide Holds, HoldsText, Load32;
    if parts.Part? {
      WroteLoad(before, after, at, size, word);
      WroteLoad(before, after, at, size, word + 4);
      TextStays(before, after, at, size, lower, low, Load32(before, word), TextOf(types, entry, parts.key).value);
      ValueStays(types, before, after, at, size, lower, low, Load32(before, word + 4), parts.value);
      EntriesStay(types, before, after, at, size, low, lower, word + 8, entry, parts.rest);
    }
  }
}
