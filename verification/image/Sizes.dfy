/** How many bytes values take in an image, and when memory has no room for more of them. */
module ImageSizes {
  import opened ImageBytes
  import opened BoundaryValues
  import opened ImageLayout
  import opened Wrappers

  const PAGE_SIZE: nat := 65536
  const PAGE_HEADER_SIZE: nat := 16
  /** The pages of the whole address space. */
  const PAGE_LIMIT: nat := 65536
  /** The bytes behind the header of the longest run that leaves a page for anything else. */
  const ROOM: nat := 0xFFFE_FFF0

  function Aligned(size: nat): (aligned: nat)
    ensures size <= aligned < size + 8 && aligned % 8 == 0
  {
    (size + 7) / 8 * 8
  }

  // ---- Sizes ----

  function RecordSize(payload: nat): nat {
    Aligned(RECORD_HEADER_SIZE + payload)
  }

  function TextSize(text: Str): nat {
    RecordSize(8 + |text.bytes|)
  }

  /** The bytes a value takes with everything it refers to. */
  function Size(types: Types, value: Value): nat
    decreases value, 0
  {
    match value
    case NoneValue | UnitValue | BoolValue(_) => RecordSize(0)
    case IntValue(_) | FloatValue(_) => RecordSize(8)
    case TextValue(text) => TextSize(text)
    case BytesValue(bytes) => RecordSize(|bytes|)
    case ListValue(items) => RecordSize(4 * Count(items)) + PartsSize(types, 0, items)
    case ObjectValue(identity, entries) =>
      (match identity
       case None => RecordSize(8 * Count(entries))
       case Some(name) => RecordSize(4 + 8 * Count(entries)) + TextSize(name)) + PartsSize(types, 0, entries)
    case TypedValue(entry, fields, extra) =>
      RecordSize(4 + 8 * (Count(fields) + Count(extra)))
      + (if entry < |types| then TextSize(types[entry].boundary) else 0)
      + PartsSize(types, entry, fields) + PartsSize(types, entry, extra)
    case EnumValue(entry, variant, payload) =>
      if entry < |types| && variant < |types[entry].names| then
        EnumSize(types, types[entry].identity, types[entry].names[variant], payload)
      else 0
    case HostEnum(identity, name, payload) => EnumSize(types, identity, name, payload)
    case ErrorValue(_, kind, message, data, _, trace, cause) =>
      RecordSize(24 + |trace|) + TextSize(kind) + TextSize(message) + Size(types, data) + CauseSize(types, cause)
  }

  function EnumSize(types: Types, identity: Str, name: Str, payload: Parts): nat
    decreases payload, 1
  {
    RecordSize(8 + 4 * Count(payload)) + TextSize(identity) + TextSize(name) + PartsSize(types, 0, payload)
  }

  /** An Error without a cause has no record for it. */
  function CauseSize(types: Types, cause: Value): nat
    decreases cause, 1
  {
    if cause.NoneValue? then 0 else Size(types, cause)
  }

  /** The bytes of parts and of the texts that name them. */
  function PartsSize(types: Types, entry: nat, parts: Parts): nat
    decreases parts, 0
  {
    if parts.End? then 0
    else
      var text := TextOf(types, entry, parts.key);
      (if text.Some? then TextSize(text.value) else 0)
      + Size(types, parts.value) + PartsSize(types, entry, parts.rest)
  }

  // ---- Pages ----

  /** The least system pages for a buffer of `length` bytes. */
  function PagesFor(length: nat): (pages: Option<nat>)
    ensures pages.Some? <==> length + PAGE_HEADER_SIZE < WORD
    ensures pages.Some? ==> pages.value > 0
    ensures pages.Some? ==> (pages.value - 1) * PAGE_SIZE < length + PAGE_HEADER_SIZE <= pages.value * PAGE_SIZE
  {
    if length + PAGE_HEADER_SIZE >= WORD then None
    else Some((length + PAGE_HEADER_SIZE + PAGE_SIZE - 1) / PAGE_SIZE)
  }

  /** A request for the pages of `end` bytes found none. */
  ghost predicate Refused(memory: (nat, nat) -> bool, request: nat, end: nat) {
    PagesFor(end).Some? && !memory(request, PagesFor(end).value)
  }

  /** Nothing holds `end` bytes, or the last request, with `first` before it or more, was for so many and refused. */
  ghost predicate NoRoom(memory: (nat, nat) -> bool, first: nat, asked: nat, end: nat) {
    end > ROOM || (first < asked && Refused(memory, asked - 1, end))
  }
}
