/** The table blob: its sections, its lookups and its builder. */
module CaseTables {
  import opened ImageBytes
  import opened Varints
  import opened CaseRuns
  import opened CaseMappings
  import opened CaseRanges

  /** Bytes `from..to` when they exist, and nothing otherwise. */
  function Slice(bytes: seq<byte>, from: nat, to: nat): seq<byte> {
    if from <= to <= |bytes| then bytes[from..to] else []
  }

  datatype CaseTables = CaseTables(bytes: seq<byte>) {
    /** Section `index`: the bytes between two consecutive offsets. */
    function Section(index: nat): seq<byte> {
      if index * 4 + 8 > |bytes| then [] else Slice(bytes, Load32(bytes, index * 4), Load32(bytes, index * 4 + 4))
    }

    /** The characters of `c` by two sections. */
    method Map(runs: nat, multi: nat, c: nat) returns (out: seq<nat>)
      ensures out == Mapped(Section(runs), Section(multi), c)
    {
      hide VarintAt, SignedAt, Contains, OffsetChar, Section;
      var reader := new Reader(Section(multi));
      var previous: nat := 0;
      while true
        invariant FindMulti(reader.bytes, previous, c) == FindMulti(Section(multi), 0, c)
        decreases |reader.bytes|
      {
        var gap := reader.Varint();
        if gap.None? || previous + gap.value >= WORD {
          break;
        }
        var entry := previous + gap.value;
        var count := reader.Byte();
        var taken := AtMostThree(if count.None? then 0 else count.value);
        var mapped := ReadTargets(reader, entry, taken, c);
        if entry == c {
          return mapped;
        }
        if entry > c {
          break;
        }
        previous := entry;
      }
      reader := new Reader(Section(runs));
      out := ReadRuns(reader, c);
    }

    method ReadTargets(reader: Reader, entry: nat, taken: nat, c: nat) returns (mapped: seq<nat>)
      modifies reader
      ensures (mapped, reader.bytes) == TargetsAt(old(reader.bytes), entry, taken, c)
    {
      hide *;
      mapped := [];
      ghost var begin := TargetsAt(reader.bytes, entry, taken, c);
      assert [] + begin.0 == begin.0;
      var slot: nat := 0;
      while slot < taken
        invariant slot <= taken && |mapped| == slot
        invariant begin.0 == mapped + TargetsAt(reader.bytes, entry, taken - slot, c).0
        invariant begin.1 == TargetsAt(reader.bytes, entry, taken - slot, c).1
      {
        NextTarget(reader.bytes, entry, taken - slot, c);
        var delta := reader.Signed();
        var target := if delta.None? then c else OffsetChar(entry, delta.value, c);
        ghost var later := TargetsAt(reader.bytes, entry, taken - slot - 1, c).0;
        assert mapped + ([target] + later) == mapped + [target] + later;
        mapped := mapped + [target];
        slot := slot + 1;
      }
      NoTarget(reader.bytes, entry, c);
      assert mapped + [] == mapped;
    }

    method ReadRuns(reader: Reader, c: nat) returns (out: seq<nat>)
      modifies reader
      ensures var delta := FindRun(old(reader.bytes), 0, c);
        out == [if delta.Some? then OffsetChar(c, delta.value, c) else c]
    {
      hide VarintAt, SignedAt, OffsetChar;
      var previous: nat := 0;
      while true
        invariant FindRun(reader.bytes, previous, c) == FindRun(old(reader.bytes), 0, c)
        decreases |reader.bytes|
      {
        var gap := reader.Varint();
        var shape := reader.Varint();
        var delta := reader.Signed();
        if gap.None? || shape.None? || delta.None? || previous + gap.value >= WORD {
          break;
        }
        var start := previous + gap.value;
        if c < start {
          break;
        }
        var count := shape.value / 2 % WORD;
        var stride := shape.value % 2 + 1;
        var last := (start + (if count == 0 then 0 else count - 1) * stride) % WORD;
        if c <= last && (c - start) % stride == 0 {
          return [OffsetChar(c, delta.value, c)];
        }
        previous := (last + 1) % WORD;
      }
      out := [c];
    }

    /** The walk of `FindRange` over a section. */
    method InRanges(index: nat, c: nat) returns (inside: bool)
      ensures inside <==> FindRange(Section(index), 0, c)
    {
      hide VarintAt, Section;
      var reader := new Reader(Section(index));
      var previous: nat := 0;
      while true
        invariant FindRange(reader.bytes, previous, c) <==> FindRange(Section(index), 0, c)
        decreases |reader.bytes|
      {
        var gap := reader.Varint();
        var length := reader.Varint();
        if gap.None? || length.None? || previous + gap.value >= WORD {
          return false;
        }
        var start := previous + gap.value;
        if c < start {
          return false;
        }
        var end := RangeEnd(start, length.value);
        if c < end {
          return true;
        }
        previous := end;
      }
    }
  }

  lemma NoTarget(bytes: seq<byte>, entry: nat, fallback: nat)
    ensures TargetsAt(bytes, entry, 0, fallback) == ([], bytes)
  {}

  lemma NextTarget(bytes: seq<byte>, entry: nat, count: nat, fallback: nat)
    requires count > 0
    ensures var delta := SignedAt(bytes);
      var target := if delta.0.None? then fallback else OffsetChar(entry, delta.0.value, fallback);
      var later := TargetsAt(delta.1, entry, count - 1, fallback);
      TargetsAt(bytes, entry, count, fallback) == ([target] + later.0, later.1)
  {
    hide SignedAt, OffsetChar;
  }

  // ---- Building the blob ----

  ghost function Total(sections: seq<seq<byte>>): nat {
    if sections == [] then 0 else Total(sections[..|sections| - 1]) + |sections[|sections| - 1]|
  }

  ghost function Joined(sections: seq<seq<byte>>): (bytes: seq<byte>)
    ensures |bytes| == Total(sections)
  {
    if sections == [] then [] else Joined(sections[..|sections| - 1]) + sections[|sections| - 1]
  }

  function WordBytes(word: nat): seq<byte> {
    [word % 256, word / 256 % 256, word / 65536 % 256, word / 16777216 % 256]
  }

  /** Word `i` of a header is the offset of section `i`. */
  ghost predicate HeaderHolds(header: seq<byte>, sections: seq<seq<byte>>, base: nat, upto: nat) {
    |header| == 4 * upto <= 4 * (|sections| + 1)
    && forall i {:trigger sections[..i]} :: 0 <= i < upto ==> Load32(header, 4 * i) == base + Total(sections[..i])
  }

  lemma WordReads(header: seq<byte>, word: nat)
    requires word < WORD
    ensures Load32(header + WordBytes(word), |header|) == word
  {
    var image := header + WordBytes(word);
    assert image[|header|] == word % 256 && image[|header| + 1] == word / 256 % 256;
    assert image[|header| + 2] == word / 65536 % 256 && image[|header| + 3] == word / 16777216 % 256;
    WordParts(word);
  }

  lemma HeaderGrows(header: seq<byte>, sections: seq<seq<byte>>, base: nat, upto: nat)
    requires HeaderHolds(header, sections, base, upto) && upto <= |sections|
    requires base + Total(sections[..upto]) < WORD
    ensures HeaderHolds(header + WordBytes(base + Total(sections[..upto])), sections, base, upto + 1)
  {
    hide Load32, WordBytes;
    var word := base + Total(sections[..upto]);
    assert |WordBytes(word)| == 4 by { WordLength(word); }
    var longer := header + WordBytes(word);
    WordReads(header, word);
    forall i | 0 <= i < upto ensures Load32(longer, 4 * i) == base + Total(sections[..i]) {
      LoadAgrees(header, longer, 4 * i);
    }
  }

  lemma WordLength(word: nat)
    ensures |WordBytes(word)| == 4
  {}

  lemma {:induction false} TotalGrows(sections: seq<seq<byte>>, low: nat, high: nat)
    requires low <= high <= |sections|
    ensures Total(sections[..low]) <= Total(sections[..high])
    decreases high - low
  {
    if low < high {
      TotalGrows(sections, low, high - 1);
      assert sections[..high][..high - 1] == sections[..high - 1];
    }
  }

  lemma {:induction false} JoinedSlice(sections: seq<seq<byte>>, index: nat)
    requires index < |sections|
    ensures Total(sections[..index + 1]) == Total(sections[..index]) + |sections[index]| <= Total(sections)
    ensures Joined(sections)[Total(sections[..index])..Total(sections[..index + 1])] == sections[index]
    decreases |sections|
  {
    var last := |sections| - 1;
    assert sections[..index + 1][..index] == sections[..index];
    if index == last {
      assert sections[..index + 1] == sections;
    } else {
      JoinedSlice(sections[..last], index);
      assert sections[..last][..index + 1] == sections[..index + 1];
      assert sections[..last][..index] == sections[..index];
    }
  }

  lemma OffsetReads(header: seq<byte>, sections: seq<seq<byte>>, after: seq<byte>, index: nat)
    requires HeaderHolds(header, sections, |header|, |sections| + 1) && index <= |sections|
    ensures 4 * index + 4 <= |header| && Load32(header + after, 4 * index) == |header| + Total(sections[..index])
  {
    hide Load32, Total;
    LoadAgrees(header, header + after, 4 * index);
  }

  lemma BehindHeader(header: seq<byte>, after: seq<byte>, from: nat, to: nat)
    requires from <= to <= |after|
    ensures Slice(header + after, |header| + from, |header| + to) == after[from..to]
  {}

  /** Every section of a blob reads back. */
  lemma SectionReads(header: seq<byte>, sections: seq<seq<byte>>, index: nat)
    requires HeaderHolds(header, sections, |header|, |sections| + 1) && index < |sections|
    ensures CaseTables(header + Joined(sections)).Section(index) == sections[index]
  {
    hide Load32, Joined, Total, Slice, HeaderHolds;
    OffsetReads(header, sections, Joined(sections), index);
    OffsetReads(header, sections, Joined(sections), index + 1);
    JoinedSlice(sections, index);
    BehindHeader(header, Joined(sections), Total(sections[..index]), Total(sections[..index + 1]));
  }

  /** Joins sections behind a header of offsets. */
  method JoinSections(sections: seq<seq<byte>>) returns (blob: seq<byte>)
    requires (|sections| + 1) * 4 + Total(sections) < WORD
    ensures forall index :: 0 <= index < |sections| ==> CaseTables(blob).Section(index) == sections[index]
  {
    hide *;
    var base := (|sections| + 1) * 4;
    var offset: nat := base;
    blob := [];
    NoTotal(sections);
    var i: nat := 0;
    while i < |sections|
      invariant i <= |sections| && offset == base + Total(sections[..i])
      invariant HeaderHolds(blob, sections, base, i)
    {
      TotalGrows(sections, i, |sections|);
      JoinedSlice(sections, i);
      assert sections[..|sections|] == sections;
      HeaderGrows(blob, sections, base, i);
      blob := blob + WordBytes(offset);
      offset := offset + |sections[i]|;
      i := i + 1;
    }
    assert sections[..|sections|] == sections;
    HeaderGrows(blob, sections, base, i);
    blob := blob + WordBytes(offset);
    ghost var header := blob;
    assert |header| == base by { HeaderLength(header, sections, base); }
    i := 0;
    while i < |sections|
      invariant i <= |sections| && blob == header + Joined(sections[..i])
    {
      JoinStep(sections, i);
      blob := blob + sections[i];
      i := i + 1;
    }
    assert sections[..|sections|] == sections;
    forall index | 0 <= index < |sections| ensures CaseTables(blob).Section(index) == sections[index] {
      SectionReads(header, sections, index);
    }
  }

  lemma NoTotal(sections: seq<seq<byte>>)
    ensures Total(sections[..0]) == 0 && Joined(sections[..0]) == []
    ensures forall base :: HeaderHolds([], sections, base, 0)
  {}

  lemma HeaderLength(header: seq<byte>, sections: seq<seq<byte>>, base: nat)
    requires HeaderHolds(header, sections, base, |sections| + 1)
    ensures |header| == (|sections| + 1) * 4
  {}

  lemma JoinStep(sections: seq<seq<byte>>, i: nat)
    requires i < |sections|
    ensures Joined(sections[..i + 1]) == Joined(sections[..i]) + sections[i]
  {
    assert sections[..i + 1][..i] == sections[..i];
  }

  /** The lookups of a blob give two mappings and two properties back at every character. */
  ghost predicate Agrees(tables: CaseTables, lower: nat -> seq<nat>, upper: nat -> seq<nat>,
    ignorable: nat -> bool, cased: nat -> bool)
  {
    forall code :: IsChar(code) ==>
      && Mapped(tables.Section(0), tables.Section(1), code) == lower(code)
      && Mapped(tables.Section(2), tables.Section(3), code) == upper(code)
      && (FindRange(tables.Section(4), 0, code) <==> ignorable(code))
      && (FindRange(tables.Section(5), 0, code) <==> cased(code))
  }

  lemma SixSections(sections: seq<seq<byte>>)
    requires |sections| == 6
    ensures Total(sections) == |sections[0]| + |sections[1]| + |sections[2]| + |sections[3]| + |sections[4]|
        + |sections[5]|
  {
    assert sections[..5][..4] == sections[..4] && sections[..4][..3] == sections[..3];
    assert sections[..3][..2] == sections[..2] && sections[..2][..1] == sections[..1];
    assert Total(sections[..1]) == Total(sections[..1][..0]) + |sections[0]|;
    assert Total(sections[..3]) == Total(sections[..2]) + |sections[2]|;
    assert Total(sections[..5]) == Total(sections[..4]) + |sections[4]|;
  }

  /** Builds the table blob of two case mappings and two properties. */
  method Build(lower: nat -> seq<nat>, upper: nat -> seq<nat>, ignorable: nat -> bool, cased: nat -> bool)
    returns (tables: CaseTables)
    requires Mapping(lower) && Mapping(upper)
    ensures Agrees(tables, lower, upper, ignorable, cased)
  {
    hide Mapping, Mapped, FindRange, Total, CaseTables.Section;
    var lowerRuns, lowerMulti := EncodeMapping(lower);
    var upperRuns, upperMulti := EncodeMapping(upper);
    var ignorables := EncodeRanges(ignorable);
    var caseds := EncodeRanges(cased);
    var sections := [lowerRuns, lowerMulti, upperRuns, upperMulti, ignorables, caseds];
    SixSections(sections);
    var blob := JoinSections(sections);
    tables := CaseTables(blob);
    assert tables.Section(0) == sections[0] && tables.Section(1) == sections[1] && tables.Section(2) == sections[2];
    assert tables.Section(3) == sections[3] && tables.Section(4) == sections[4] && tables.Section(5) == sections[5];
  }
}
