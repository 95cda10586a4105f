/** Writing the image of a value into an output buffer that grows as it fills. */
module ImageWriter {
  import opened ImageBytes
  import opened BoundaryValues
  import opened ImageLayout
  import opened ImageSizes
  import opened ImageAdoption
  import opened ImageWriting
  import opened ImageRoundTrip
  import opened Wrappers

  datatype WriteError = NotSupported | OutOfMemory

  datatype Written = At(offset: nat) | Failed(error: WriteError)

  /** New storage for `capacity` bytes that begins with the first `used` bytes of the old. */
  method Moved(storage: array<byte>, used: nat, capacity: nat) returns (moved: array<byte>)
    requires used <= storage.Length && used <= capacity
    ensures fresh(moved) && moved.Length == capacity && moved[..used] == storage[..used]
  {
    moved := new byte[capacity](i => 0);
    var i := 0;
    while i < used
      invariant i <= used && storage[..] == old(storage[..]) && moved[..i] == storage[..i]
    {
      moved[i] := storage[i];
      i := i + 1;
    }
  }

  class Writer {
    const types: Types
    /** Whether memory, with a collection before it at need, has a run of the pages each request is for. */
    const memory: (nat, nat) -> bool
    /** The requests for pages so far. */
    var asked: nat
    /** The end of the last record that found no room. */
    ghost var wanted: nat
    /** The output buffer. */
    var buffer: array<byte>
    /** How much of the buffer `Image()` takes. */
    var length: nat

    ghost predicate Valid()
      reads this
    {
      length <= buffer.Length && length % 8 == 0 && length < WORD
    }

    ghost function Image(): (image: seq<byte>)
      requires Valid()
      reads this, buffer
      ensures |image| == length
    {
      buffer[..length]
    }

    /** Writing `size` bytes from `start` on, after `first` requests for pages, ended for want of room. */
    ghost predicate Starved(first: nat, start: nat, size: nat)
      reads this`asked, this`wanted
    {
      start <= wanted <= start + size && NoRoom(memory, first, asked, wanted)
    }

    constructor (types: Types, memory: (nat, nat) -> bool, output: array<byte>)
      ensures Valid() && this.types == types && this.memory == memory && buffer == output && length == 0 && asked == 0
    {
      this.types := types;
      this.memory := memory;
      asked := 0;
      buffer := output;
      length := 0;
    }

    method TakePages(pages: nat) returns (taken: bool)
      modifies this`asked
      ensures asked == old(asked) + 1 && (taken <==> pages < PAGE_LIMIT && memory(old(asked), pages))
    {
      asked := asked + 1;
      taken := pages < PAGE_LIMIT && memory(asked - 1, pages);
    }

    /** A larger buffer with the same first `used` bytes, or the old one when even the least of it has no pages. */
    method GrowOutput(used: nat, needed: nat) returns (grown: bool)
      requires used <= buffer.Length && used <= needed
      modifies this`buffer, this`asked
      ensures grown ==> needed <= buffer.Length && fresh(buffer) && buffer[..used] == old(buffer[..used])
      ensures !grown ==> buffer == old(buffer) && NoRoom(memory, old(asked), asked, needed)
      ensures asked >= old(asked)
    {
      var minimum := PagesFor(needed);
      if minimum.None? {
        return false;
      }
      var twice := if 2 * buffer.Length < WORD then 2 * buffer.Length else WORD - 1;
      var doubled := PagesFor(twice);
      var count := if doubled.Some? && doubled.value > minimum.value then doubled.value else minimum.value;
      var taken := TakePages(count);
      if !taken {
        // The collector may free pages for the least that is needed.
        count := minimum.value;
        taken := TakePages(count);
      }
      if !taken {
        return false;
      }
      var capacity := count * PAGE_SIZE - PAGE_HEADER_SIZE;
      buffer := Moved(buffer, used, capacity);
      return true;
    }

    /** Room at the end of the image, aligned, with everything before it kept. */
    method Reserve(size: nat) returns (r: Written)
      requires Valid()
      modifies this
      ensures Valid() && (buffer == old(buffer) || fresh(buffer))
      ensures r.At? ==> r.offset == old(length) && length == r.offset + Aligned(size)
      ensures r.At? ==> Wrote(old(Image()), Image(), 0, 0)
      ensures r.Failed? ==> r.error.OutOfMemory?
      ensures asked >= old(asked) && (r.Failed? ==> Starved(old(asked), old(length), Aligned(size)))
      ensures r.Failed? ==> old(length) + Aligned(size) > buffer.Length || old(length) + Aligned(size) >= WORD
    {
      var offset := length;
      var end := offset + Aligned(size);
      wanted := end;
      if end >= WORD {
        return Failed(OutOfMemory);
      }
      if end > buffer.Length {
        var grown := GrowOutput(offset, end);
        if !grown {
          return Failed(OutOfMemory);
        }
      }
      length := end;
      assert buffer[..offset] == old(buffer[..length]);
      assert forall i {:trigger buffer[i]} :: 0 <= i < offset ==> buffer[i] == buffer[..offset][i];
      return At(offset);
    }

    method StoreU32(at: nat, word: nat)
      requires Valid() && at + 4 <= length && word < WORD
      modifies buffer
      ensures Valid() && Image() == Store32(old(Image()), at, word)
    {
      buffer[at], buffer[at + 1], buffer[at + 2], buffer[at + 3] :=
        word % 256, word / 256 % 256, word / 65536 % 256, word / 16777216 % 256;
    }

    /** Copies bytes into the image. */
    method Copy(at: nat, bytes: seq<byte>)
      requires Valid() && at + |bytes| <= length
      modifies buffer
      ensures Valid() && Wrote(old(Image()), Image(), at, |bytes|)
      ensures Image()[at..at + |bytes|] == bytes
    {
      var i: nat := 0;
      while i < |bytes|
        invariant i <= |bytes|
        invariant buffer[at..at + i] == bytes[..i]
        invariant forall j {:trigger buffer[j]} :: 0 <= j < buffer.Length && !(at <= j < at + i) ==>
            buffer[j] == old(buffer[j])
      {
        buffer[at + i] := bytes[i];
        assert buffer[at..at + i + 1] == buffer[at..at + i] + [bytes[i]];
        i := i + 1;
      }
      assert Image()[at..at + |bytes|] == buffer[at..at + i] && bytes[..i] == bytes;
    }

    /** Room for a record at the end of the image, its two header words written. */
    method Record(kind: nat, argument: nat, payload: nat) returns (r: Written)
      requires Valid() && IMAGE_HEADER_SIZE <= length && kind < WORD && (argument < WORD || argument <= payload)
      modifies this, buffer
      ensures Valid() && (buffer == old(buffer) || fresh(buffer))
      ensures r.At? ==> r.offset == old(length) && r.offset + 8 + payload <= length
      ensures r.At? ==> Wrote(old(Image()), Image(), 0, 0) && Head(Image(), r.offset, r.offset, kind, argument, payload)
      ensures r.Failed? ==> r.error.OutOfMemory?
      ensures r.At? ==> length == old(length) + RecordSize(payload)
      ensures asked >= old(asked) && (r.Failed? ==> Starved(old(asked), old(length), RecordSize(payload)))
    {
      ghost var i0 := Image();
      r := Reserve(payload + RECORD_HEADER_SIZE);
      if r.At? {
        ghost var i1 := Image();
        StoreU32(r.offset, kind);
        ghost var i2 := Image();
        StoreU32(r.offset + 4, argument);
        HeadWritten(i0, i1, i2, Image(), r.offset, kind, argument, payload);
      }
    }

    /** Patches one word behind the header of a record. */
    method SetWord(record: nat, index: nat, word: nat)
      requires Valid() && record + 8 + 4 * index + 4 <= length && word < WORD
      modifies buffer
      ensures Valid() && Image() == Store32(old(Image()), record + 8 + 4 * index, word)
    {
      StoreU32(record + RECORD_HEADER_SIZE + index * 4, word);
    }

    method Text(text: Str) returns (r: Written)
      requires Valid() && IMAGE_HEADER_SIZE <= length && Sized(text)
      modifies this, buffer
      ensures Valid() && (buffer == old(buffer) || fresh(buffer))
      ensures r.At? ==> r.offset == old(length) < length && Wrote(old(Image()), Image(), 0, 0)
      ensures r.At? ==> HoldsText(Image(), r.offset, r.offset, text)
      ensures r.Failed? ==> r.error.OutOfMemory?
      ensures r.At? ==> length == old(length) + TextSize(text)
      ensures asked >= old(asked) && (r.Failed? ==> Starved(old(asked), old(length), TextSize(text)))
    {
      hide Load32, Store32, Wrote, Head, HoldsText;
      ghost var i0 := Image();
      r := Record(RECORD_STRING, |text.bytes|, |text.bytes| + 8);
      if r.At? {
        ghost var i1 := Image();
        SetWord(r.offset, 0, text.chars);
        ghost var i2 := Image();
        SetWord(r.offset, 1, 0);
        ghost var i3 := Image();
        Copy(r.offset + 16, text.bytes);
        TextRecord(i0, i1, i2, i3, Image(), r.offset, text);
      }
    }

    /** Writes a record without payload. */
    method Plain(kind: nat, argument: nat) returns (r: Written)
      requires Valid() && IMAGE_HEADER_SIZE <= length && kind < WORD && argument < WORD
      modifies this, buffer
      ensures Valid() && (buffer == old(buffer) || fresh(buffer))
      ensures r.At? ==> r.offset == old(length) < length && Wrote(old(Image()), Image(), 0, 0)
      ensures r.At? ==> Head(Image(), r.offset, r.offset, kind, argument, 0)
      ensures r.Failed? ==> r.error.OutOfMemory?
      ensures r.At? ==> length == old(length) + RecordSize(0)
      ensures asked >= old(asked) && (r.Failed? ==> Starved(old(asked), old(length), RecordSize(0)))
    {
      r := Record(kind, argument, 0);
    }

    /** Writes a number record. */
    method Number(kind: nat, bits: nat) returns (r: Written)
      requires Valid() && IMAGE_HEADER_SIZE <= length && kind < WORD && bits < WORD * WORD
      modifies this, buffer
      ensures Valid() && (buffer == old(buffer) || fresh(buffer))
      ensures r.At? ==> r.offset == old(length) < length && Wrote(old(Image()), Image(), 0, 0)
      ensures r.At? ==> Head(Image(), r.offset, r.offset, kind, 0, 8) && Load64(Image(), r.offset + 8) == bits
      ensures r.Failed? ==> r.error.OutOfMemory?
      ensures r.At? ==> length == old(length) + RecordSize(8)
      ensures asked >= old(asked) && (r.Failed? ==> Starved(old(asked), old(length), RecordSize(8)))
    {
      hide Load32, Load64, Store32, Store64, Wrote, Head;
      ghost var i0 := Image();
      r := Record(kind, 0, 8);
      if r.At? {
        ghost var i1 := Image();
        StoreU32(r.offset + 8, bits % WORD);
        ghost var i2 := Image();
        StoreU32(r.offset + 12, bits / WORD);
        NumberRecord(i0, i1, i2, Image(), r.offset, kind, bits);
      }
    }

    method Octets(bytes: seq<byte>) returns (r: Written)
      requires Valid() && IMAGE_HEADER_SIZE <= length
      modifies this, buffer
      ensures Valid() && (buffer == old(buffer) || fresh(buffer))
      ensures r.At? ==> r.offset == old(length) < length && Wrote(old(Image()), Image(), 0, 0)
      ensures r.At? ==> Head(Image(), r.offset, r.offset, RECORD_BYTES, |bytes|, |bytes|)
      ensures r.At? ==> Image()[r.offset + 8..r.offset + 8 + |bytes|] == bytes
      ensures r.Failed? ==> r.error.OutOfMemory?
      ensures r.At? ==> length == old(length) + RecordSize(|bytes|)
      ensures asked >= old(asked) && (r.Failed? ==> Starved(old(asked), old(length), RecordSize(|bytes|)))
    {
      ghost var i0 := Image();
      r := Record(RECORD_BYTES, |bytes|, |bytes|);
      if r.At? {
        ghost var i1 := Image();
        Copy(r.offset + 8, bytes);
        WroteHead(i1, Image(), r.offset + 8, |bytes|, r.offset, r.offset, RECORD_BYTES, |bytes|, |bytes|);
      }
    }

    /** Writes a value without parts. */
    method Leaf(value: Value) returns (r: Written)
      requires Valid() && IMAGE_HEADER_SIZE <= length && WellFormed(types, value) && IsLeaf(value)
      modifies this, buffer
      ensures Valid() && (buffer == old(buffer) || fresh(buffer))
      ensures r.At? ==> r.offset == old(length) < length && Wrote(old(Image()), Image(), 0, 0)
      ensures r.At? ==> Holds(types, Image(), r.offset, r.offset, value)
      ensures r.Failed? ==> r.error.OutOfMemory?
      ensures r.At? ==> length == old(length) + Size(types, value)
      ensures asked >= old(asked) && (r.Failed? ==> Starved(old(asked), old(length), Size(types, value)))
    {
      hide Load32, Load64, Store32, Store64, Wrote, Head, HoldsText, Aligned, Refused, RecordSize, TextSize;
      match value {
        case NoneValue => r := Plain(RECORD_NONE, 0);
        case UnitValue => r := Plain(RECORD_UNIT, 0);
        case BoolValue(flag) => r := Plain(RECORD_BOOL, if flag then 1 else 0);
        case IntValue(bits) => r := Number(RECORD_INT, bits);
        case FloatValue(bits) => r := Number(RECORD_FLOAT, bits);
        case TextValue(text) => r := Text(text);
        case BytesValue(bytes) => r := Octets(bytes);
      }
    }

    /** Writes a value at a nesting depth. */
    method Value(value: Value, depth: nat) returns (r: Written)
      requires Valid() && IMAGE_HEADER_SIZE <= length && WellFormed(types, value)
      modifies this, buffer
      ensures Valid() && (buffer == old(buffer) || fresh(buffer))
      ensures r.At? ==> r.offset == old(length) < length && Wrote(old(Image()), Image(), 0, 0)
      ensures r.At? ==> Holds(types, Image(), r.offset, r.offset, value) && Supported(types, value, depth)
      ensures r.Failed? && r.error.NotSupported? ==> !Supported(types, value, depth)
      ensures r.At? ==> length == old(length) + Size(types, value)
      ensures asked >= old(asked)
      ensures r.Failed? && r.error.OutOfMemory? ==> Starved(old(asked), old(length), Size(types, value))
      decreases value, 2
    {
      hide Load32, Load64, Store32, Store64, Wrote, Head, HoldsText, HoldsItems, HoldsEntries, Holds, Supported, Size;
      hide Aligned, Refused, RecordSize, TextSize, PartsSize, EnumSize, WellFormed, SupportedParts;
      if IsLeaf(value) {
        LeafSupported(types, value, depth);
        r := Leaf(value);
        return;
      }
      match value {
        case ListValue(_) => r := ListRecord(value, depth);
        case ObjectValue(_, _) => r := ObjectRecord(value, depth);
        case TypedValue(_, _, _) => r := TypedRecord(value, depth);
        case EnumValue(_, _, _) => r := EnumOf(value, depth);
        case HostEnum(_, _, _) => r := EnumOf(value, depth);
        case ErrorValue(_, _, _, _, _, _, _) => r := ErrorRecord(value, depth);
      }
    }

    /** Writes an enum, of a declared type by its identity and the name of its variant. */
    method EnumOf(value: Value, depth: nat) returns (r: Written)
      requires value.EnumValue? || value.HostEnum?
      requires Valid() && IMAGE_HEADER_SIZE <= length && WellFormed(types, value)
      modifies this, buffer
      ensures Valid() && (buffer == old(buffer) || fresh(buffer))
      ensures r.At? ==> r.offset == old(length) < length && Wrote(old(Image()), Image(), 0, 0)
      ensures r.At? ==> Holds(types, Image(), r.offset, r.offset, value) && Supported(types, value, depth)
      ensures r.Failed? && r.error.NotSupported? ==> !Supported(types, value, depth)
      ensures r.At? ==> length == old(length) + Size(types, value)
      ensures asked >= old(asked)
      ensures r.Failed? && r.error.OutOfMemory? ==> Starved(old(asked), old(length), Size(types, value))
      decreases value, 1
    {
      hide Load32, Load64, Store32, Store64, Wrote, Head, HoldsText, HoldsItems, HoldsEntries;
      hide Aligned, Refused, RecordSize, TextSize, PartsSize, EnumSize;
      match value {
        case EnumValue(entry, variant, payload) =>
          if depth >= MAX_DEPTH || entry >= |types| || variant >= |types[entry].names| {
            return Failed(NotSupported);
          }
          r := EnumRecord(types[entry].identity, types[entry].names[variant], payload, depth);
        case HostEnum(identity, name, payload) =>
          if depth >= MAX_DEPTH {
            return Failed(NotSupported);
          }
          r := EnumRecord(identity, name, payload, depth);
      }
    }

    method ListRecord(value: Value, depth: nat) returns (r: Written)
      requires value.ListValue?
      requires Valid() && IMAGE_HEADER_SIZE <= length && WellFormed(types, value)
      modifies this, buffer
      ensures Valid() && (buffer == old(buffer) || fresh(buffer))
      ensures r.At? ==> r.offset == old(length) < length && Wrote(old(Image()), Image(), 0, 0)
      ensures r.At? ==> Holds(types, Image(), r.offset, r.offset, value) && Supported(types, value, depth)
      ensures r.Failed? && r.error.NotSupported? ==> !Supported(types, value, depth)
      ensures r.At? ==> length == old(length) + Size(types, value)
      ensures asked >= old(asked)
      ensures r.Failed? && r.error.OutOfMemory? ==> Starved(old(asked), old(length), Size(types, value))
      decreases value, 1
    {
      hide Aligned, Refused, RecordSize, TextSize, PartsSize;
      hide Load32, Load64, Store32, Store64, Wrote, Head, HoldsText, HoldsItems, HoldsEntries;
      if depth >= MAX_DEPTH {
        return Failed(NotSupported);
      }
      ghost var i0 := Image();
      var count := Count(value.items);
      r := Record(RECORD_LIST, count, 4 * count);
      if r.At? {
        ghost var i1 := Image();
        var filled := Items(r.offset, 0, value.items, depth);
        if filled.Failed? {
          return filled;
        }
        RecordFilled(i0, i1, Image(), r.offset, RECORD_LIST, count, 4 * count, r.offset + 8, 4 * count);
      }
    }

    /** Writes items or payload fields and stores their offsets from word `index` of the record on. */
    method Items(record: nat, index: nat, parts: Parts, depth: nat) returns (r: Written)
      requires Valid() && IMAGE_HEADER_SIZE <= length && WellFormedItems(types, parts)
      requires record + 8 + 4 * (index + Count(parts)) <= length
      modifies this, buffer
      ensures Valid() && (buffer == old(buffer) || fresh(buffer))
      ensures r.At? ==> length >= old(length) && Wrote(old(Image()), Image(), record + 8 + 4 * index, 4 * Count(parts))
      ensures r.At? ==> HoldsItems(types, Image(), record, record + 8 + 4 * index, parts)
      ensures r.At? ==> SupportedParts(types, 0, parts, depth)
      ensures r.Failed? && r.error.NotSupported? ==> !SupportedParts(types, 0, parts, depth)
      ensures r.At? ==> length == old(length) + PartsSize(types, 0, parts)
      ensures asked >= old(asked)
      ensures r.Failed? && r.error.OutOfMemory? ==> Starved(old(asked), old(length), PartsSize(types, 0, parts))
      decreases parts, 0
    {
      hide Aligned, Refused, RecordSize, TextSize, Size;
      hide Load32, Load64, Store32, Store64, Head, HoldsText, Holds, WellFormed, Supported;
      r := At(record);
      if parts.Part? {
        ghost var i0 := Image();
        var part := Value(parts.value, depth + 1);
        if part.Failed? {
          return part;
        }
        ghost var i1 := Image();
        SetWord(record, index, part.offset);
        ghost var i2 := Image();
        r := Items(record, index + 1, parts.rest, depth);
        if r.At? {
          ItemWritten(types, i0, i1, i2, Image(), record, record + 8 + 4 * index, part.offset, parts);
        }
      }
    }

    /** Writes a text and stores its offset in a word of the record. */
    method TextWord(record: nat, index: nat, text: Str) returns (r: Written)
      requires Valid() && IMAGE_HEADER_SIZE <= length && Sized(text) && record + 8 + 4 * index + 4 <= length
      modifies this, buffer
      ensures Valid() && (buffer == old(buffer) || fresh(buffer))
      ensures r.At? ==> length >= old(length) && Wrote(old(Image()), Image(), record + 8 + 4 * index, 4)
      ensures r.At? ==> Load32(Image(), record + 8 + 4 * index) == r.offset
      ensures r.At? ==> HoldsText(Image(), old(length), r.offset, text)
      ensures r.Failed? ==> r.error.OutOfMemory?
      ensures r.At? ==> length == old(length) + TextSize(text)
      ensures asked >= old(asked) && (r.Failed? ==> Starved(old(asked), old(length), TextSize(text)))
    {
      hide Load32, Store32, Wrote, HoldsText;
      ghost var i0 := Image();
      r := Text(text);
      if r.At? {
        ghost var i1 := Image();
        SetWord(record, index, r.offset);
        TextWritten(i0, i1, Image(), record, record + 8 + 4 * index, r.offset, text);
      }
    }

    /** Writes a value and stores its offset in a word of the record. */
    method ValueWord(record: nat, index: nat, value: Value, depth: nat) returns (r: Written)
      requires Valid() && IMAGE_HEADER_SIZE <= length && WellFormed(types, value)
      requires record + 8 + 4 * index + 4 <= length
      modifies this, buffer
      ensures Valid() && (buffer == old(buffer) || fresh(buffer))
      ensures r.At? ==> length >= old(length) && Wrote(old(Image()), Image(), record + 8 + 4 * index, 4)
      ensures r.At? ==> Load32(Image(), record + 8 + 4 * index) == r.offset
      ensures r.At? ==> Holds(types, Image(), old(length), r.offset, value) && Supported(types, value, depth)
      ensures r.Failed? && r.error.NotSupported? ==> !Supported(types, value, depth)
      ensures r.At? ==> length == old(length) + Size(types, value)
      ensures asked >= old(asked)
      ensures r.Failed? && r.error.OutOfMemory? ==> Starved(old(asked), old(length), Size(types, value))
      decreases value, 3
    {
      hide Load32, Store32, Wrote, Holds, WellFormed, Supported;
      ghost var i0 := Image();
      r := Value(value, depth);
      if r.At? {
        ghost var i1 := Image();
        SetWord(record, index, r.offset);
        ValueWritten(types, i0, i1, Image(), record, record + 8 + 4 * index, r.offset, value);
      }
    }

    /** Writes named values and stores the offsets of their names and values from word `index` of the record on. */
    method Entries(record: nat, index: nat, entry: nat, parts: Parts, ghost before: seq<seq<byte>>, depth: nat,
                   ghost low: nat)
      returns (r: Written)
      requires Valid() && IMAGE_HEADER_SIZE <= length && WellFormedEntries(types, entry, parts, before)
      requires record + 8 + 4 * index + 8 * Count(parts) <= length && low <= length
      modifies this, buffer
      ensures Valid() && (buffer == old(buffer) || fresh(buffer))
      ensures r.At? ==> length >= old(length) && Wrote(old(Image()), Image(), record + 8 + 4 * index, 8 * Count(parts))
      ensures r.At? ==> HoldsEntries(types, Image(), low, record + 8 + 4 * index, entry, parts)
      ensures r.At? ==> SupportedParts(types, entry, parts, depth)
      ensures r.Failed? && r.error.NotSupported? ==> !SupportedParts(types, entry, parts, depth)
      ensures r.At? ==> length == old(length) + PartsSize(types, entry, parts)
      ensures asked >= old(asked)
      ensures r.Failed? && r.error.OutOfMemory? ==> Starved(old(asked), old(length), PartsSize(types, entry, parts))
      decreases parts, 0
    {
      hide Aligned, Refused, RecordSize, TextSize, Size;
      hide Load32, Load64, Store32, Store64, Wrote, Head, HoldsText, Holds, WellFormed, Supported;
      ghost var i0 := Image();
      r := At(record);
      if parts.End? {
        WroteNothing(i0, record + 8 + 4 * index);
        return;
      }
      var text := TextOf(types, entry, parts.key);
      if text.None? {
        return Failed(NotSupported);
      }
      var name := TextWord(record, index, text.value);
      if name.Failed? {
        return name;
      }
      ghost var i2 := Image();
      var part := ValueWord(record, index + 1, parts.value, depth + 1);
      if part.Failed? {
        return part;
      }
      ghost var i4 := Image();
      r := Entries(record, index + 2, entry, parts.rest, before + [text.value.bytes], depth, low);
      if r.At? {
        EntryWritten(types, i0, i2, i4, Image(), low, record + 8 + 4 * index, entry, name.offset, part.offset, parts);
      }
    }

    method ObjectRecord(value: Value, depth: nat) returns (r: Written)
      requires value.ObjectValue?
      requires Valid() && IMAGE_HEADER_SIZE <= length && WellFormed(types, value)
      modifies this, buffer
      ensures Valid() && (buffer == old(buffer) || fresh(buffer))
      ensures r.At? ==> r.offset == old(length) < length && Wrote(old(Image()), Image(), 0, 0)
      ensures r.At? ==> Holds(types, Image(), r.offset, r.offset, value) && Supported(types, value, depth)
      ensures r.Failed? && r.error.NotSupported? ==> !Supported(types, value, depth)
      ensures r.At? ==> length == old(length) + Size(types, value)
      ensures asked >= old(asked)
      ensures r.Failed? && r.error.OutOfMemory? ==> Starved(old(asked), old(length), Size(types, value))
      decreases value, 1
    {
      hide Aligned, Refused, RecordSize, TextSize, PartsSize;
      hide Load32, Load64, Store32, Store64, Wrote, Head, HoldsText, HoldsItems, HoldsEntries, WellFormedEntries, Holds;
      hide Size, WellFormed, Supported;
      ObjectParts(types, value, depth);
      if depth >= MAX_DEPTH {
        return Failed(NotSupported);
      }
      ghost var i0 := Image();
      var count := Count(value.entries);
      if value.identity.None? {
        r := Record(RECORD_OBJECT, count, 8 * count);
        if r.At? {
          ghost var i1 := Image();
          var filled := Entries(r.offset, 0, 0, value.entries, [], depth, r.offset);
          if filled.Failed? {
            return filled;
          }
          ObjectRecordFilled(types, i0, i1, Image(), r.offset, value);
        }
      } else {
        r := Record(RECORD_TYPED, count, 4 + 8 * count);
        if r.At? {
          ghost var i1 := Image();
          var name := TextWord(r.offset, 0, value.identity.value);
          if name.Failed? {
            return name;
          }
          ghost var i2 := Image();
          var filled := Entries(r.offset, 1, 0, value.entries, [], depth, r.offset);
          if filled.Failed? {
            return filled;
          }
          IdentityRecordFilled(types, i0, i1, i2, Image(), r.offset, name.offset, value);
        }
      }
    }

    method TypedRecord(value: Value, depth: nat) returns (r: Written)
      requires value.TypedValue?
      requires Valid() && IMAGE_HEADER_SIZE <= length && WellFormed(types, value)
      modifies this, buffer
      ensures Valid() && (buffer == old(buffer) || fresh(buffer))
      ensures r.At? ==> r.offset == old(length) < length && Wrote(old(Image()), Image(), 0, 0)
      ensures r.At? ==> Holds(types, Image(), r.offset, r.offset, value) && Supported(types, value, depth)
      ensures r.Failed? && r.error.NotSupported? ==> !Supported(types, value, depth)
      ensures r.At? ==> length == old(length) + Size(types, value)
      ensures asked >= old(asked)
      ensures r.Failed? && r.error.OutOfMemory? ==> Starved(old(asked), old(length), Size(types, value))
      decreases value, 1
    {
      hide Aligned, Refused, RecordSize, TextSize, PartsSize;
      hide Load32, Load64, Store32, Store64, Wrote, Head, HoldsText, HoldsItems, HoldsEntries, WellFormedEntries, Holds;
      hide Size, WellFormed, Supported;
      TypedParts(types, value, depth);
      if depth >= MAX_DEPTH || value.entry >= |types| {
        return Failed(NotSupported);
      }
      ghost var i0 := Image();
      var fields, extra := Count(value.fields), Count(value.extra);
      r := Record(RECORD_TYPED, fields + extra, 4 + 8 * (fields + extra));
      if r.At? {
        ghost var i1 := Image();
        var name := TextWord(r.offset, 0, types[value.entry].boundary);
        if name.Failed? {
          return name;
        }
        ghost var i2 := Image();
        var filled := TypedEntries(r.offset, value, depth);
        if filled.Failed? {
          return filled;
        }
        TypedRecordFilled(types, i0, i1, i2, Image(), r.offset, name.offset, value);
      }
    }

    /** Writes the declared fields of a typed Object that are present, and then its extra keys. */
    method TypedEntries(record: nat, value: Value, depth: nat) returns (r: Written)
      requires Valid() && IMAGE_HEADER_SIZE <= length && value.TypedValue?
      requires WellFormedEntries(types, value.entry, value.fields, [])
      requires WellFormedEntries(types, value.entry, value.extra, [])
      requires record + 12 + 8 * (Count(value.fields) + Count(value.extra)) <= length
      modifies this, buffer
      ensures Valid() && (buffer == old(buffer) || fresh(buffer))
      ensures r.At? ==> Wrote(old(Image()), Image(), record + 12, 8 * (Count(value.fields) + Count(value.extra)))
      ensures r.At? ==> HoldsEntries(types, Image(), record, record + 12, value.entry, value.fields)
      ensures r.At? ==>
        HoldsEntries(types, Image(), record, record + 12 + 8 * Count(value.fields), value.entry, value.extra)
      ensures r.At? ==> SupportedParts(types, value.entry, value.fields, depth)
      ensures r.At? ==> SupportedParts(types, value.entry, value.extra, depth)
      ensures r.Failed? && r.error.NotSupported? ==>
        !SupportedParts(types, value.entry, value.fields, depth)
        || !SupportedParts(types, value.entry, value.extra, depth)
      ensures r.At? ==>
        length == old(length)
          + (PartsSize(types, value.entry, value.fields) + PartsSize(types, value.entry, value.extra))
      ensures asked >= old(asked)
      ensures r.Failed? && r.error.OutOfMemory? ==> Starved(old(asked), old(length),
        PartsSize(types, value.entry, value.fields) + PartsSize(types, value.entry, value.extra))
      decreases value, 0
    {
      hide Aligned, Refused, PartsSize, SupportedParts, WellFormedEntries, HoldsEntries, Wrote;
      ghost var i0 := Image();
      r := Entries(record, 1, value.entry, value.fields, [], depth, length);
      if r.At? {
        ghost var i1 := Image();
        r := Entries(record, 1 + 2 * Count(value.fields), value.entry, value.extra, [], depth, record);
        if r.At? {
          TypedEntriesFilled(types, i0, i1, Image(), record, value.entry, value.fields, value.extra);
        }
      }
    }

    method EnumRecord(identity: Str, name: Str, payload: Parts, depth: nat) returns (r: Written)
      requires Valid() && IMAGE_HEADER_SIZE <= length && Sized(identity) && Sized(name)
      requires WellFormedItems(types, payload) && depth < MAX_DEPTH
      modifies this, buffer
      ensures Valid() && (buffer == old(buffer) || fresh(buffer))
      ensures r.At? ==> r.offset == old(length) < length && Wrote(old(Image()), Image(), 0, 0)
      ensures r.At? ==> Holds(types, Image(), r.offset, r.offset, HostEnum(identity, name, payload))
      ensures r.At? ==> SupportedParts(types, 0, payload, depth)
      ensures r.Failed? && r.error.NotSupported? ==> !SupportedParts(types, 0, payload, depth)
      ensures r.At? ==> length == old(length) + EnumSize(types, identity, name, payload)
      ensures asked >= old(asked)
      ensures r.Failed? && r.error.OutOfMemory? ==>
        Starved(old(asked), old(length), EnumSize(types, identity, name, payload))
      decreases payload, 1
    {
      hide Aligned, Refused, RecordSize, TextSize, PartsSize;
      hide Load32, Load64, Store32, Store64, Wrote, Head, HoldsText, HoldsItems, Holds, WellFormedItems, SupportedParts;
      ghost var i0 := Image();
      var count := Count(payload);
      r := Record(RECORD_ENUM, count, 8 + 4 * count);
      if r.At? {
        ghost var i1 := Image();
        var first := TextWord(r.offset, 0, identity);
        if first.Failed? {
          return first;
        }
        ghost var i2 := Image();
        var second := TextWord(r.offset, 1, name);
        if second.Failed? {
          return second;
        }
        ghost var i3 := Image();
        var filled := Items(r.offset, 2, payload, depth);
        if filled.Failed? {
          return filled;
        }
        EnumRecordFilled(types, i0, i1, i2, i3, Image(), r.offset, first.offset, second.offset, identity, name,
          payload);
      }
    }

    method ErrorRecord(value: Value, depth: nat) returns (r: Written)
      requires value.ErrorValue?
      requires Valid() && IMAGE_HEADER_SIZE <= length && WellFormed(types, value)
      modifies this, buffer
      ensures Valid() && (buffer == old(buffer) || fresh(buffer))
      ensures r.At? ==> r.offset == old(length) < length && Wrote(old(Image()), Image(), 0, 0)
      ensures r.At? ==> Holds(types, Image(), r.offset, r.offset, value) && Supported(types, value, depth)
      ensures r.Failed? && r.error.NotSupported? ==> !Supported(types, value, depth)
      ensures r.At? ==> length == old(length) + Size(types, value)
      ensures asked >= old(asked)
      ensures r.Failed? && r.error.OutOfMemory? ==> Starved(old(asked), old(length), Size(types, value))
      decreases value, 1
    {
      hide Aligned, Refused, RecordSize, TextSize, PartsSize;
      hide Load32, Load64, Store32, Store64, Wrote, Head, HoldsText, HoldsItems, HoldsEntries, Holds;
      hide WellFormed, Supported, SupportedParts, Count, Size, CauseSize;
      ErrorParts(types, value, depth);
      if depth >= MAX_DEPTH {
        return Failed(NotSupported);
      }
      ghost var i0 := Image();
      r := ErrorStart(value);
      if r.Failed? {
        return r;
      }
      ghost var i1 := Image();
      var texts, kind, message := ErrorTexts(r.offset, value.kind, value.message);
      if texts.Failed? {
        return texts;
      }
      ghost var i2 := Image();
      var links, data, cause := ErrorLinks(r.offset, value, depth);
      if links.Failed? {
        return links;
      }
      ghost var i3 := Image();
      SetWord(r.offset, 5, |value.trace| / 8);
      ErrorRecordFilled(types, i0, i1, i2, i3, Image(), r.offset, kind, message, data, cause, value);
    }

    /** Writes the kind and the message of an Error. */
    method ErrorTexts(record: nat, kind: Str, message: Str) returns (r: Written, ghost first: nat, ghost second: nat)
      requires Valid() && IMAGE_HEADER_SIZE <= length && Sized(kind) && Sized(message) && record + 32 <= length
      modifies this, buffer
      ensures Valid() && (buffer == old(buffer) || fresh(buffer))
      ensures r.At? ==> length >= old(length) && Wrote(old(Image()), Image(), record + 8, 8)
      ensures r.At? ==> Load32(Image(), record + 8) == first && HoldsText(Image(), old(length), first, kind)
      ensures r.At? ==> Load32(Image(), record + 12) == second && HoldsText(Image(), old(length), second, message)
      ensures r.Failed? ==> r.error.OutOfMemory?
      ensures r.At? ==> length == old(length) + TextSize(kind) + TextSize(message)
      ensures asked >= old(asked)
      ensures r.Failed? ==> Starved(old(asked), old(length), TextSize(kind) + TextSize(message))
    {
      hide Load32, Store32, Wrote, HoldsText;
      first, second := 0, 0;
      ghost var i0 := Image();
      r := TextWord(record, 0, kind);
      if r.At? {
        first := r.offset;
        ghost var i1 := Image();
        r := TextWord(record, 1, message);
        if r.At? {
          second := r.offset;
          WroteLoad(i1, Image(), record + 12, 4, record + 8);
          TextStays(i1, Image(), record + 12, 4, |i0|, |i0|, first, kind);
          TextStays(Image(), Image(), 0, 0, |i0|, |i1|, second, message) by { WroteNothing(Image(), 0); }
          WroteInTurn(i0, i1, Image(), record + 8, 4, record + 12, 4, record + 8, 8);
        }
      }
    }

    /** Writes the data, the origin and the cause of an Error. */
    method ErrorLinks(record: nat, value: Value, depth: nat) returns (r: Written, ghost data: nat, ghost cause: nat)
      requires Valid() && IMAGE_HEADER_SIZE <= length && value.ErrorValue? && WellFormed(types, value)
      requires record + 32 <= length && depth < MAX_DEPTH
      modifies this, buffer
      ensures Valid() && (buffer == old(buffer) || fresh(buffer))
      ensures r.At? ==> length >= old(length) && Wrote(old(Image()), Image(), record + 16, 12)
      ensures r.At? ==> Load32(Image(), record + 16) == data && Holds(types, Image(), old(length), data, value.data)
      ensures r.At? ==> Load32(Image(), record + 20) == if value.origin == 0 then 0 else value.origin + 1
      ensures r.At? ==> Load32(Image(), record + 24) == cause
      ensures r.At? ==> if value.cause.NoneValue? then cause == 0
          else Holds(types, Image(), old(length), cause, value.cause)
      ensures r.At? ==> Supported(types, value, depth)
      ensures r.Failed? && r.error.NotSupported? ==> !Supported(types, value, depth)
      ensures r.At? ==> length == old(length) + Size(types, value.data) + CauseSize(types, value.cause)
      ensures asked >= old(asked)
      ensures r.Failed? && r.error.OutOfMemory? ==>
        Starved(old(asked), old(length), Size(types, value.data) + CauseSize(types, value.cause))
      decreases value, 0
    {
      hide Load32, Store32, Wrote, Holds;
      data, cause := 0, 0;
      ghost var i0 := Image();
      r := ValueWord(record, 2, value.data, depth + 1);
      if r.Failed? {
        return;
      }
      data := r.offset;
      ghost var i1 := Image();
      if value.origin + 1 >= WORD {
        r := Failed(NotSupported);
        return;
      }
      SetWord(record, 3, if value.origin == 0 then 0 else value.origin + 1);
      ghost var i2 := Image();
      r := Cause(record, value.cause, depth + 1);
      if r.At? {
        cause := r.offset;
        LinksFilled(types, i0, i1, i2, Image(), record, data, cause, value);
      }
    }

    /** Starts an Error record and copies its trace. */
    method ErrorStart(value: Value) returns (r: Written)
      requires Valid() && IMAGE_HEADER_SIZE <= length && value.ErrorValue?
      modifies this, buffer
      ensures Valid() && (buffer == old(buffer) || fresh(buffer))
      ensures r.At? ==> r.offset == old(length) && r.offset + 32 + |value.trace| <= length
      ensures r.At? ==> Wrote(old(Image()), Image(), 0, 0) && |value.trace| < WORD
      ensures r.At? ==>
        Head(Image(), r.offset, r.offset, RECORD_ERROR, if value.fatal then 1 else 0, 24 + |value.trace|)
      ensures r.At? ==> Image()[r.offset + 32..r.offset + 32 + |value.trace|] == value.trace
      ensures r.Failed? ==> r.error.OutOfMemory?
      ensures r.At? ==> length == old(length) + RecordSize(24 + |value.trace|)
      ensures asked >= old(asked) && (r.Failed? ==> Starved(old(asked), old(length), RecordSize(24 + |value.trace|)))
    {
      hide Load32, Head, Wrote;
      ghost var i0 := Image();
      var size := |value.trace|;
      r := Record(RECORD_ERROR, if value.fatal then 1 else 0, 24 + size);
      if r.At? {
        ghost var i1 := Image();
        Copy(r.offset + 32, value.trace);
        RecordFilled(i0, i1, Image(), r.offset, RECORD_ERROR,
          if value.fatal then 1 else 0, 24 + size, r.offset + 32, size);
      }
    }

    /** Writes the cause of an Error; the offset 0 means that there is none. */
    method Cause(record: nat, cause: Value, depth: nat) returns (r: Written)
      requires Valid() && IMAGE_HEADER_SIZE <= length && WellFormed(types, cause) && record + 32 <= length
      modifies this, buffer
      ensures Valid() && (buffer == old(buffer) || fresh(buffer))
      ensures r.At? ==> length >= old(length) && Wrote(old(Image()), Image(), record + 24, 4)
      ensures r.At? ==> Load32(Image(), record + 24) == r.offset && Supported(types, cause, depth)
      ensures r.At? ==> if cause.NoneValue? then r.offset == 0 else Holds(types, Image(), old(length), r.offset, cause)
      ensures r.Failed? && r.error.NotSupported? ==> !Supported(types, cause, depth)
      ensures r.At? ==> length == old(length) + CauseSize(types, cause)
      ensures asked >= old(asked)
      ensures r.Failed? && r.error.OutOfMemory? ==> Starved(old(asked), old(length), CauseSize(types, cause))
      decreases cause, 4
    {
      hide Load32, Store32, Wrote, Holds;
      if cause.NoneValue? {
        ghost var i0 := Image();
        SetWord(record, 4, 0);
        StoreWrites(i0, record + 24, 0);
        return At(0);
      }
      r := ValueWord(record, 4, cause, depth);
    }
  }

  predicate IsLeaf(value: Value) {
    !value.ListValue? && !value.ObjectValue? && !value.TypedValue? && !value.EnumValue? && !value.HostEnum?
    && !value.ErrorValue?
  }

  lemma LeafSupported(types: Types, value: Value, depth: nat)
    requires IsLeaf(value)
    ensures Supported(types, value, depth)
  {}

  /** What a typed Object is made of. */
  lemma TypedParts(types: Types, value: Value, depth: nat)
    requires value.TypedValue? && WellFormed(types, value)
    ensures value.entry < |types| ==> Sized(types[value.entry].boundary)
    ensures WellFormedEntries(types, value.entry, value.fields, [])
    ensures WellFormedEntries(types, value.entry, value.extra, [])
    ensures Supported(types, value, depth) <==>
      depth < MAX_DEPTH && value.entry < |types| && SupportedParts(types, value.entry, value.fields, depth)
        && SupportedParts(types, value.entry, value.extra, depth)
    ensures value.entry < |types| ==>
      Size(types, value) == RecordSize(4 + 8 * (Count(value.fields) + Count(value.extra)))
        + TextSize(types[value.entry].boundary)
        + (PartsSize(types, value.entry, value.fields) + PartsSize(types, value.entry, value.extra))
  {
    hide PartsSize, RecordSize, TextSize, Aligned, Count, WellFormedEntries, SupportedParts, OnlyNames, OnlyFields;
  }

  /** What an Error is made of. */
  lemma ErrorParts(types: Types, value: Value, depth: nat)
    requires value.ErrorValue? && WellFormed(types, value)
    ensures Sized(value.kind) && Sized(value.message) && |value.trace| % 8 == 0
    ensures depth >= MAX_DEPTH ==> !Supported(types, value, depth)
    ensures Size(types, value) == RecordSize(24 + |value.trace|) + (TextSize(value.kind) + TextSize(value.message))
        + (Size(types, value.data) + CauseSize(types, value.cause))
  {
    hide RecordSize, TextSize, CauseSize, Aligned;
  }

  /** What an untyped Object is made of. */
  lemma ObjectParts(types: Types, value: Value, depth: nat)
    requires value.ObjectValue? && WellFormed(types, value)
    ensures value.identity.Some? ==> Sized(value.identity.value)
    ensures WellFormedEntries(types, 0, value.entries, [])
    ensures Supported(types, value, depth) <==> depth < MAX_DEPTH && SupportedParts(types, 0, value.entries, depth)
    ensures value.identity.None? ==>
      Size(types, value) == RecordSize(8 * Count(value.entries)) + PartsSize(types, 0, value.entries)
    ensures value.identity.Some? ==>
      Size(types, value) == RecordSize(4 + 8 * Count(value.entries)) + TextSize(value.identity.value)
        + PartsSize(types, 0, value.entries)
  {
    hide PartsSize, RecordSize, TextSize, Aligned, Count, WellFormedEntries, SupportedParts, OnlyNames;
  }

  lemma HeadWritten(i0: seq<byte>, i1: seq<byte>, i2: seq<byte>, i3: seq<byte>, offset: nat, kind: nat, argument: nat,
                    payload: nat)
    requires Wrote(i0, i1, 0, 0) && |i0| == offset && offset + 8 + payload <= |i1| && offset % 8 == 0 && 8 <= offset
    requires kind < WORD && argument < WORD && i2 == Store32(i1, offset, kind)
    requires i3 == Store32(i2, offset + 4, argument)
    ensures Wrote(i0, i3, 0, 0) && Head(i3, offset, offset, kind, argument, payload)
  {
    hide Load32, Store32;
    StoreWrites(i1, offset, kind);
    StoreWrites(i2, offset + 4, argument);
    WroteLoad(i2, i3, offset + 4, 4, offset);
  }

  lemma TextRecord(i0: seq<byte>, i1: seq<byte>, i2: seq<byte>, i3: seq<byte>, i4: seq<byte>, offset: nat, text: Str)
    requires Wrote(i0, i1, 0, 0) && |i0| == offset && text.chars < WORD
    requires Head(i1, offset, offset, RECORD_STRING, |text.bytes|, |text.bytes| + 8)
    requires i2 == Store32(i1, offset + 8, text.chars) && i3 == Store32(i2, offset + 12, 0)
    requires Wrote(i3, i4, offset + 16, |text.bytes|) && i4[offset + 16..offset + 16 + |text.bytes|] == text.bytes
    ensures Wrote(i0, i4, 0, 0) && HoldsText(i4, offset, offset, text)
  {
    hide Load32, Store32;
    StoreWrites(i1, offset + 8, text.chars);
    StoreWrites(i2, offset + 12, 0);
    WroteHead(i1, i2, offset + 8, 4, offset, offset, RECORD_STRING, |text.bytes|, |text.bytes| + 8);
    WroteHead(i2, i3, offset + 12, 4, offset, offset, RECORD_STRING, |text.bytes|, |text.bytes| + 8);
    WroteHead(i3, i4, offset + 16, |text.bytes|, offset, offset, RECORD_STRING, |text.bytes|, |text.bytes| + 8);
    WroteLoad(i2, i3, offset + 12, 4, offset + 8);
    WroteLoad(i3, i4, offset + 16, |text.bytes|, offset + 8);
  }

  lemma NumberRecord(i0: seq<byte>, i1: seq<byte>, i2: seq<byte>, i3: seq<byte>, offset: nat, kind: nat, bits: nat)
    requires Wrote(i0, i1, 0, 0) && |i0| == offset && bits < WORD * WORD && Head(i1, offset, offset, kind, 0, 8)
    requires i2 == Store32(i1, offset + 8, bits % WORD) && i3 == Store32(i2, offset + 12, bits / WORD)
    ensures Wrote(i0, i3, 0, 0) && Head(i3, offset, offset, kind, 0, 8) && Load64(i3, offset + 8) == bits
  {
    hide Load32, Store32;
    StoreWrites(i1, offset + 8, bits % WORD);
    StoreWrites(i2, offset + 12, bits / WORD);
    WroteHead(i1, i2, offset + 8, 4, offset, offset, kind, 0, 8);
    WroteHead(i2, i3, offset + 12, 4, offset, offset, kind, 0, 8);
    WroteLoad(i2, i3, offset + 12, 4, offset + 8);
  }

  /** A record keeps its head, and everything before it, while its payload is filled. */
  lemma RecordFilled(i0: seq<byte>, i1: seq<byte>, i2: seq<byte>, offset: nat, kind: nat, argument: nat, payload: nat,
                     at: nat, size: nat)
    requires Wrote(i0, i1, 0, 0) && |i0| == offset && Head(i1, offset, offset, kind, argument, payload)
    requires Wrote(i1, i2, at, size) && offset + 8 <= at
    ensures Wrote(i0, i2, 0, 0) && Head(i2, offset, offset, kind, argument, payload)
  {
    WroteHead(i1, i2, at, size, offset, offset, kind, argument, payload);
  }

  /** A record whose first word refers to a text and whose other words are filled after it. */
  lemma NamedRecord(i0: seq<byte>, i1: seq<byte>, i2: seq<byte>, i3: seq<byte>, offset: nat, kind: nat, argument: nat,
                    payload: nat, name: nat, text: Str, size: nat)
    requires Wrote(i0, i1, 0, 0) && |i0| == offset && Head(i1, offset, offset, kind, argument, payload)
    requires Wrote(i1, i2, offset + 8, 4) && Load32(i2, offset + 8) == name && HoldsText(i2, |i1|, name, text)
    requires Wrote(i2, i3, offset + 12, size) && 4 + size <= payload
    ensures Wrote(i0, i3, 0, 0) && Head(i3, offset, offset, kind, argument, payload)
    ensures Load32(i3, offset + 8) == name && HoldsText(i3, offset, name, text)
  {
    hide Load32, HoldsText;
    RecordFilled(i0, i1, i2, offset, kind, argument, payload, offset + 8, 4);
    WroteHead(i2, i3, offset + 12, size, offset, offset, kind, argument, payload);
    WroteLoad(i2, i3, offset + 12, size, offset + 8);
    TextStays(i2, i3, offset + 12, size, offset, |i1|, name, text);
  }

  lemma ObjectRecordFilled(types: Types, i0: seq<byte>, i1: seq<byte>, i2: seq<byte>, offset: nat, value: Value)
    requires value.ObjectValue? && value.identity.None?
    requires var count := Count(value.entries);
      Wrote(i0, i1, 0, 0) && |i0| == offset && Head(i1, offset, offset, RECORD_OBJECT, count, 8 * count)
    requires Wrote(i1, i2, offset + 8, 8 * Count(value.entries))
    requires HoldsEntries(types, i2, offset, offset + 8, 0, value.entries)
    ensures Wrote(i0, i2, 0, 0) && Holds(types, i2, offset, offset, value)
  {
    hide Head, Wrote, HoldsEntries;
    var size := 8 * Count(value.entries);
    RecordFilled(i0, i1, i2, offset, RECORD_OBJECT, Count(value.entries), size, offset + 8, size);
  }

  lemma IdentityRecordFilled(types: Types, i0: seq<byte>, i1: seq<byte>, i2: seq<byte>, i3: seq<byte>, offset: nat,
                             name: nat, value: Value)
    requires value.ObjectValue? && value.identity.Some?
    requires var count := Count(value.entries);
      Wrote(i0, i1, 0, 0) && |i0| == offset && Head(i1, offset, offset, RECORD_TYPED, count, 4 + 8 * count)
    requires Wrote(i1, i2, offset + 8, 4) && Load32(i2, offset + 8) == name
    requires HoldsText(i2, |i1|, name, value.identity.value)
    requires Wrote(i2, i3, offset + 12, 8 * Count(value.entries))
    requires HoldsEntries(types, i3, offset, offset + 12, 0, value.entries)
    ensures Wrote(i0, i3, 0, 0) && Holds(types, i3, offset, offset, value)
  {
    hide Head, Wrote, Load32, HoldsText, HoldsEntries;
    var size := 8 * Count(value.entries);
    NamedRecord(i0, i1, i2, i3, offset, RECORD_TYPED, Count(value.entries), 4 + size, name, value.identity.value, size);
  }

  lemma TypedEntriesFilled(types: Types, i0: seq<byte>, i1: seq<byte>, i2: seq<byte>, record: nat, entry: nat,
                           fields: Parts, extra: Parts)
    requires Wrote(i0, i1, record + 12, 8 * Count(fields))
    requires HoldsEntries(types, i1, |i0|, record + 12, entry, fields)
    requires record + 12 + 8 * (Count(fields) + Count(extra)) <= |i0|
    requires Wrote(i1, i2, record + 12 + 8 * Count(fields), 8 * Count(extra))
    ensures Wrote(i0, i2, record + 12, 8 * (Count(fields) + Count(extra)))
    ensures HoldsEntries(types, i2, record, record + 12, entry, fields)
  {
    hide HoldsEntries;
    var first, second := 8 * Count(fields), 8 * Count(extra);
    WroteInTurn(i0, i1, i2, record + 12, first, record + 12 + first, second, record + 12, first + second);
    EntriesStay(types, i1, i2, record + 12 + first, second, |i0|, record, record + 12, entry, fields);
  }

  lemma TypedRecordFilled(types: Types, i0: seq<byte>, i1: seq<byte>, i2: seq<byte>, i3: seq<byte>, offset: nat,
                          name: nat, value: Value)
    requires value.TypedValue? && value.entry < |types|
    requires var count := Count(value.fields) + Count(value.extra);
      && Wrote(i0, i1, 0, 0) && |i0| == offset && Head(i1, offset, offset, RECORD_TYPED, count, 4 + 8 * count)
      && Wrote(i2, i3, offset + 12, 8 * count)
    requires Wrote(i1, i2, offset + 8, 4) && Load32(i2, offset + 8) == name
    requires HoldsText(i2, |i1|, name, types[value.entry].boundary)
    requires HoldsEntries(types, i3, offset, offset + 12, value.entry, value.fields)
    requires HoldsEntries(types, i3, offset, offset + 12 + 8 * Count(value.fields), value.entry, value.extra)
    ensures Wrote(i0, i3, 0, 0) && Holds(types, i3, offset, offset, value)
  {
    hide Load32, HoldsText, HoldsEntries;
    var count := Count(value.fields) + Count(value.extra);
    NamedRecord(i0, i1, i2, i3, offset, RECORD_TYPED, count, 4 + 8 * count, name, types[value.entry].boundary,
      8 * count);
  }

  lemma EnumRecordFilled(types: Types, i0: seq<byte>, i1: seq<byte>, i2: seq<byte>, i3: seq<byte>, i4: seq<byte>,
                         offset: nat, first: nat, second: nat, identity: Str, name: Str, parts: Parts)
    requires var count := Count(parts);
      Wrote(i0, i1, 0, 0) && |i0| == offset && Head(i1, offset, offset, RECORD_ENUM, count, 8 + 4 * count)
    requires Wrote(i1, i2, offset + 8, 4) && Load32(i2, offset + 8) == first && HoldsText(i2, |i1|, first, identity)
    requires Wrote(i2, i3, offset + 12, 4) && Load32(i3, offset + 12) == second && HoldsText(i3, |i2|, second, name)
    requires Wrote(i3, i4, offset + 16, 4 * Count(parts)) && HoldsItems(types, i4, offset, offset + 16, parts)
    ensures Wrote(i0, i4, 0, 0) && Holds(types, i4, offset, offset, HostEnum(identity, name, parts))
  {
    hide Load32, HoldsText, HoldsItems;
    var count := Count(parts);
    var payload := 8 + 4 * count;
    RecordFilled(i0, i1, i2, offset, RECORD_ENUM, count, payload, offset + 8, 4);
    WroteHead(i2, i3, offset + 12, 4, offset, offset, RECORD_ENUM, count, payload);
    WroteHead(i3, i4, offset + 16, 4 * count, offset, offset, RECORD_ENUM, count, payload);
    WroteLoad(i2, i3, offset + 12, 4, offset + 8);
    WroteLoad(i3, i4, offset + 16, 4 * count, offset + 8);
    WroteLoad(i3, i4, offset + 16, 4 * count, offset + 12);
    TextStays(i2, i3, offset + 12, 4, |i1|, |i1|, first, identity);
    TextStays(i3, i4, offset + 16, 4 * count, offset, |i1|, first, identity);
    TextStays(i3, i4, offset + 16, 4 * count, offset, |i2|, second, name);
  }

  lemma LinksFilled(types: Types, i0: seq<byte>, i1: seq<byte>, i2: seq<byte>, i3: seq<byte>, record: nat, data: nat,
                    cause: nat, value: Value)
    requires value.ErrorValue? && record + 32 <= |i0| && value.origin + 1 < WORD
    requires Wrote(i0, i1, record + 16, 4) && Load32(i1, record + 16) == data
    requires Holds(types, i1, |i0|, data, value.data)
    requires record + 32 <= |i1| && i2 == Store32(i1, record + 20, if value.origin == 0 then 0 else value.origin + 1)
    requires Wrote(i2, i3, record + 24, 4) && |i0| <= |i2|
    requires if value.cause.NoneValue? then true else Holds(types, i3, |i2|, cause, value.cause)
    ensures Wrote(i0, i3, record + 16, 12)
    ensures Load32(i3, record + 16) == data && Holds(types, i3, |i0|, data, value.data)
    ensures Load32(i3, record + 20) == if value.origin == 0 then 0 else value.origin + 1
    ensures if value.cause.NoneValue? then true else Holds(types, i3, |i0|, cause, value.cause)
  {
    hide Load32, Store32, Wrote, Holds;
    StoreWrites(i1, record + 20, if value.origin == 0 then 0 else value.origin + 1);
    WroteLoad(i1, i2, record + 20, 4, record + 16);
    WroteLoad(i2, i3, record + 24, 4, record + 16);
    WroteLoad(i2, i3, record + 24, 4, record + 20);
    ValueStays(types, i1, i2, record + 20, 4, |i0|, |i0|, data, value.data);
    ValueStays(types, i2, i3, record + 24, 4, |i0|, |i0|, data, value.data);
    WroteInTurn(i0, i1, i2, record + 16, 4, record + 20, 4, record + 16, 12);
    WroteInTurn(i0, i2, i3, record + 16, 12, record + 24, 4, record + 16, 12);
    if !value.cause.NoneValue? {
      WroteNothing(i3, 0);
      ValueStays(types, i3, i3, 0, 0, |i0|, |i2|, cause, value.cause);
    }
  }

  lemma ErrorRecordFilled(types: Types, i0: seq<byte>, i1: seq<byte>, i2: seq<byte>, i3: seq<byte>, i4: seq<byte>,
                          offset: nat, kind: nat, message: nat, data: nat, cause: nat, value: Value)
    requires value.ErrorValue? && |value.trace| < WORD
    requires Wrote(i0, i1, 0, 0) && |i0| == offset && offset + 32 + |value.trace| <= |i1| <= |i2| <= |i3|
    requires Head(i1, offset, offset, RECORD_ERROR, if value.fatal then 1 else 0, 24 + |value.trace|)
    requires i1[offset + 32..offset + 32 + |value.trace|] == value.trace
    requires Wrote(i1, i2, offset + 8, 8)
    requires Load32(i2, offset + 8) == kind && HoldsText(i2, |i1|, kind, value.kind)
    requires Load32(i2, offset + 12) == message && HoldsText(i2, |i1|, message, value.message)
    requires Wrote(i2, i3, offset + 16, 12)
    requires Load32(i3, offset + 16) == data && Holds(types, i3, |i2|, data, value.data)
    requires Load32(i3, offset + 20) == if value.origin == 0 then 0 else value.origin + 1
    requires Load32(i3, offset + 24) == cause
    requires if value.cause.NoneValue? then cause == 0 else Holds(types, i3, |i2|, cause, value.cause)
    requires i4 == Store32(i3, offset + 28, |value.trace| / 8)
    ensures Wrote(i0, i4, 0, 0) && Holds(types, i4, offset, offset, value)
  {
    hide *;
    StoreWrites(i3, offset + 28, |value.trace| / 8);
    ErrorFrame(i0, i1, i2, i3, i4, offset, if value.fatal then 1 else 0, |value.trace|);
    TextStays(i2, i4, offset + 8, 24, offset, |i1|, kind, value.kind);
    TextStays(i2, i4, offset + 8, 24, offset, |i1|, message, value.message);
    ValueStays(types, i3, i4, offset + 28, 4, offset, |i2|, data, value.data);
    if !value.cause.NoneValue? {
      ValueStays(types, i3, i4, offset + 28, 4, offset, |i2|, cause, value.cause);
    }
    ErrorHolds(types, i4, offset, kind, message, data, cause, value);
  }

  lemma ErrorFrame(i0: seq<byte>, i1: seq<byte>, i2: seq<byte>, i3: seq<byte>, i4: seq<byte>, offset: nat,
                   argument: nat, size: nat)
    requires Wrote(i0, i1, 0, 0) && |i0| == offset && offset + 32 + size <= |i1| <= |i2| <= |i3|
    requires Head(i1, offset, offset, RECORD_ERROR, argument, 24 + size)
    requires Wrote(i1, i2, offset + 8, 8) && Wrote(i2, i3, offset + 16, 12) && Wrote(i3, i4, offset + 28, 4)
    ensures Wrote(i0, i4, 0, 0) && Head(i4, offset, offset, RECORD_ERROR, argument, 24 + size)
    ensures Wrote(i2, i4, offset + 8, 24) && offset + 32 + size <= |i4|
    ensures Load32(i4, offset + 8) == Load32(i2, offset + 8) && Load32(i4, offset + 12) == Load32(i2, offset + 12)
    ensures Load32(i4, offset + 16) == Load32(i3, offset + 16) && Load32(i4, offset + 20) == Load32(i3, offset + 20)
    ensures Load32(i4, offset + 24) == Load32(i3, offset + 24)
    ensures i4[offset + 32..offset + 32 + size] == i1[offset + 32..offset + 32 + size]
  {
    hide Load32, Head;
    WroteLoad(i2, i3, offset + 16, 12, offset + 8);
    WroteLoad(i2, i3, offset + 16, 12, offset + 12);
    LastWord(i3, i4, offset);
    WroteInTurn(i2, i3, i4, offset + 16, 12, offset + 28, 4, offset + 8, 24);
    WroteInTurn(i1, i2, i4, offset + 8, 8, offset + 8, 24, offset + 8, 24);
    RecordFilled(i0, i1, i4, offset, RECORD_ERROR, argument, 24 + size, offset + 8, 24);
    SliceStays(i1, i4, offset + 8, 24, offset + 32, offset + 32 + size);
  }

  lemma LastWord(before: seq<byte>, after: seq<byte>, offset: nat)
    requires Wrote(before, after, offset + 28, 4) && offset + 32 <= |before|
    ensures Load32(after, offset + 8) == Load32(before, offset + 8)
    ensures Load32(after, offset + 12) == Load32(before, offset + 12)
    ensures Load32(after, offset + 16) == Load32(before, offset + 16)
    ensures Load32(after, offset + 20) == Load32(before, offset + 20)
    ensures Load32(after, offset + 24) == Load32(before, offset + 24)
  {
    hide Load32;
    WroteLoad(before, after, offset + 28, 4, offset + 8);
    WroteLoad(before, after, offset + 28, 4, offset + 12);
    WroteLoad(before, after, offset + 28, 4, offset + 16);
    WroteLoad(before, after, offset + 28, 4, offset + 20);
    WroteLoad(before, after, offset + 28, 4, offset + 24);
  }

  lemma SliceStays(before: seq<byte>, after: seq<byte>, at: nat, size: nat, from: nat, to: nat)
    requires Wrote(before, after, at, size) && at + size <= from <= to <= |before|
    ensures after[from..to] == before[from..to]
  {}

  lemma ErrorHolds(types: Types, image: seq<byte>, offset: nat, kind: nat, message: nat, data: nat, cause: nat,
                   value: Value)
    requires value.ErrorValue? && offset + 32 + |value.trace| <= |image|
    requires Head(image, offset, offset, RECORD_ERROR, if value.fatal then 1 else 0, 24 + |value.trace|)
    requires Load32(image, offset + 8) == kind && HoldsText(image, offset, kind, value.kind)
    requires Load32(image, offset + 12) == message && HoldsText(image, offset, message, value.message)
    requires Load32(image, offset + 16) == data && Holds(types, image, offset, data, value.data)
    requires Load32(image, offset + 20) == if value.origin == 0 then 0 else value.origin + 1
    requires Load32(image, offset + 24) == cause
    requires if value.cause.NoneValue? then cause == 0 else Holds(types, image, offset, cause, value.cause)
    requires Load32(image, offset + 28) == |value.trace| / 8
    requires image[offset + 32..offset + 32 + |value.trace|] == value.trace
    ensures Holds(types, image, offset, offset, value)
  {
    hide Load32, Head, HoldsText;
  }

  // ---- Whole images ----

  datatype Image = Image(bytes: seq<byte>) | Unwritten(error: WriteError)

  /**
    * Writes the image of a value into an output buffer. Adopting it gives the value as it crosses the boundary, and
    * only values that cannot cross are refused while memory lasts.
    */
  method WriteImage(types: Types, memory: (nat, nat) -> bool, output: array<byte>, value: Value)
    returns (r: Image, asked: nat, ghost wanted: nat)
    requires WellFormed(types, value)
    modifies output
    ensures r.Image? ==> Supported(types, value, 0) && AdoptAt(types, r.bytes) == Ok(Crossed(types, value))
    ensures r.Image? ==> |r.bytes| == IMAGE_HEADER_SIZE + Size(types, value)
    ensures r.Unwritten? && r.error.NotSupported? ==> !Supported(types, value, 0)
    ensures r.Unwritten? && r.error.OutOfMemory? ==>
      wanted <= IMAGE_HEADER_SIZE + Size(types, value) && NoRoom(memory, 0, asked, wanted)
  {
    hide Load32, Store32, Wrote, Holds, WellFormed, Supported, Crossed, Adopt;
    var writer := new Writer(types, memory, output);
    var header := writer.Reserve(IMAGE_HEADER_SIZE);
    if header.Failed? {
      return Unwritten(header.error), writer.asked, writer.wanted;
    }
    var root := writer.Value(value, 0);
    if root.Failed? {
      return Unwritten(root.error), writer.asked, writer.wanted;
    }
    ghost var i1 := writer.Image();
    writer.StoreU32(0, IMAGE_MAGIC);
    ghost var i2 := writer.Image();
    writer.StoreU32(4, root.offset);
    HeaderWritten(types, i1, i2, writer.Image(), root.offset, value);
    r, asked, wanted := Image(writer.buffer[..writer.length]), writer.asked, writer.wanted;
  }

  lemma HeaderWritten(types: Types, i1: seq<byte>, i2: seq<byte>, i3: seq<byte>, root: nat, value: Value)
    requires Holds(types, i1, root, root, value) && WellFormed(types, value) && Supported(types, value, 0)
    requires 8 <= |i1| && i2 == Store32(i1, 0, IMAGE_MAGIC) && i3 == Store32(i2, 4, root) && 8 <= root < WORD
    ensures AdoptAt(types, i3) == Ok(Crossed(types, value))
  {
    hide Load32, Store32, Wrote, Holds, WellFormed, Supported, Crossed, Adopt;
    StoreWrites(i1, 0, IMAGE_MAGIC);
    StoreWrites(i2, 4, root);
    WroteLoad(i2, i3, 4, 4, 0);
    ValueStays(types, i1, i2, 0, 4, root, root, root, value);
    ValueStays(types, i2, i3, 4, 4, root, root, root, value);
    ValueReads(types, i3, root, root, value, 0);
  }
}
