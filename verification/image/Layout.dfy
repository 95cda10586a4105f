/** How values lie in an image, and which values an image can hold. */
module ImageLayout {
  import opened ImageBytes
  import opened BoundaryValues
  import opened Wrappers

  const IMAGE_MAGIC: nat := 0x4953_5845
  const IMAGE_HEADER_SIZE: nat := 8
  const RECORD_HEADER_SIZE: nat := 8

  const RECORD_NONE: nat := 0
  const RECORD_BOOL: nat := 1
  const RECORD_INT: nat := 2
  const RECORD_FLOAT: nat := 3
  const RECORD_STRING: nat := 4
  const RECORD_BYTES: nat := 5
  const RECORD_LIST: nat := 6
  const RECORD_OBJECT: nat := 7
  const RECORD_ENUM: nat := 8
  const RECORD_ERROR: nat := 9
  const RECORD_TYPED: nat := 10
  const RECORD_UNIT: nat := 11

  const MAX_DEPTH: nat := 128
  /** The text that names a part: its own, or the declared name of a field of type-table entry `entry`. */
  function TextOf(types: Types, entry: nat, key: Key): Option<Str> {
    match key
    case Item => None
    case Name(text) => Some(text)
    case Field(index) => if entry < |types| && index < |types[entry].names| then Some(types[entry].names[index])
      else None
  }

  // ---- Values that can cross ----

  ghost predicate Sized(text: Str) {
    text.chars < WORD
  }

  /** What the representation of values guarantees. */
  ghost predicate WellFormed(types: Types, value: Value)
    decreases value
  {
    match value
    case IntValue(bits) => bits < WORD * WORD
    case FloatValue(bits) => bits < WORD * WORD
    case TextValue(text) => Sized(text)
    case ListValue(items) => WellFormedItems(types, items)
    case ObjectValue(identity, entries) =>
      (identity.Some? ==> Sized(identity.value)) && WellFormedEntries(types, 0, entries, []) && OnlyNames(entries)
    case TypedValue(entry, fields, extra) =>
      && (entry < |types| ==> !types[entry].isEnum && forall i :: 0 <= i < |types[entry].names| ==>
        Sized(types[entry].names[i]))
      && (entry < |types| ==> Sized(types[entry].boundary))
      && WellFormedEntries(types, entry, fields, []) && OnlyFields(fields)
      && WellFormedEntries(types, entry, extra, []) && OnlyNames(extra)
    case EnumValue(entry, _, payload) =>
      && (entry < |types| ==> types[entry].isEnum && forall i :: 0 <= i < |types[entry].names| ==>
        Sized(types[entry].names[i]))
      && (entry < |types| ==> Sized(types[entry].identity))
      && WellFormedItems(types, payload)
    case HostEnum(identity, name, payload) => Sized(identity) && Sized(name) && WellFormedItems(types, payload)
    case ErrorValue(_, kind, message, data, origin, trace, cause) =>
      Sized(kind) && Sized(message) && origin < WORD && |trace| % 8 == 0 && WellFormed(types, data)
        && WellFormed(types, cause)
    case _ => true
  }

  ghost predicate WellFormedItems(types: Types, parts: Parts)
    decreases parts
  {
    parts.Part? ==> parts.key.Item? && WellFormed(types, parts.value) && WellFormedItems(types, parts.rest)
  }

  /** Named parts with texts that differ from each other and from those before. */
  ghost predicate WellFormedEntries(types: Types, entry: nat, parts: Parts, before: seq<seq<byte>>)
    decreases parts
  {
    parts.Part? ==>
      && !parts.key.Item? && WellFormed(types, parts.value)
      && (TextOf(types, entry, parts.key).Some? ==>
           && Sized(TextOf(types, entry, parts.key).value)
           && TextOf(types, entry, parts.key).value.bytes !in before
           && WellFormedEntries(types, entry, parts.rest, before + [TextOf(types, entry, parts.key).value.bytes]))
  }

  ghost predicate OnlyNames(parts: Parts) {
    parts.Part? ==> parts.key.Name? && OnlyNames(parts.rest)
  }

  ghost predicate OnlyFields(parts: Parts) {
    parts.Part? ==> parts.key.Field? && OnlyFields(parts.rest)
  }

  /** Values the writer supports: nominal values of known types, Error origins with a successor, and bounded nesting. */
  predicate Supported(types: Types, value: Value, depth: nat)
    decreases value
  {
    match value
    case ListValue(items) => depth < MAX_DEPTH && SupportedParts(types, 0, items, depth)
    case ObjectValue(_, entries) => depth < MAX_DEPTH && SupportedParts(types, 0, entries, depth)
    case TypedValue(entry, fields, extra) =>
      depth < MAX_DEPTH && entry < |types| && SupportedParts(types, entry, fields, depth)
        && SupportedParts(types, entry, extra, depth)
    case EnumValue(entry, variant, payload) =>
      depth < MAX_DEPTH && entry < |types| && variant < |types[entry].names| && SupportedParts(types, 0, payload, depth)
    case HostEnum(_, _, payload) => depth < MAX_DEPTH && SupportedParts(types, 0, payload, depth)
    case ErrorValue(_, _, _, data, origin, _, cause) =>
      depth < MAX_DEPTH && Supported(types, data, depth + 1) && origin + 1 < WORD && Supported(types, cause, depth + 1)
    case _ => true
  }

  predicate SupportedParts(types: Types, entry: nat, parts: Parts, depth: nat)
    decreases parts
  {
    parts.Part? ==>
      && (parts.key.Item? || TextOf(types, entry, parts.key).Some?)
      && Supported(types, parts.value, depth + 1) && SupportedParts(types, entry, parts.rest, depth)
  }

  function Larger(one: nat, other: nat): nat {
    if one < other then other else one
  }

  /** How many composite values lie in each other at most. */
  function Nesting(value: Value): nat
    decreases value
  {
    match value
    case ListValue(items) => 1 + Deepest(items)
    case ObjectValue(_, entries) => 1 + Deepest(entries)
    case TypedValue(_, fields, extra) => 1 + Larger(Deepest(fields), Deepest(extra))
    case EnumValue(_, _, payload) => 1 + Deepest(payload)
    case HostEnum(_, _, payload) => 1 + Deepest(payload)
    case ErrorValue(_, _, _, data, _, _, cause) => 1 + Larger(Nesting(data), Nesting(cause))
    case _ => 0
  }

  function Deepest(parts: Parts): nat
    decreases parts
  {
    if parts.End? then 0 else Larger(Nesting(parts.value), Deepest(parts.rest))
  }

  /** The type table has every type, variant and field the value refers to, and origins have a successor. */
  predicate Known(types: Types, value: Value)
    decreases value
  {
    match value
    case ListValue(items) => KnownParts(types, 0, items)
    case ObjectValue(_, entries) => KnownParts(types, 0, entries)
    case TypedValue(entry, fields, extra) =>
      entry < |types| && KnownParts(types, entry, fields) && KnownParts(types, entry, extra)
    case EnumValue(entry, variant, payload) =>
      entry < |types| && variant < |types[entry].names| && KnownParts(types, 0, payload)
    case HostEnum(_, _, payload) => KnownParts(types, 0, payload)
    case ErrorValue(_, _, _, data, origin, _, cause) => Known(types, data) && origin + 1 < WORD && Known(types, cause)
    case _ => true
  }

  predicate KnownParts(types: Types, entry: nat, parts: Parts)
    decreases parts
  {
    parts.Part? ==>
      && (parts.key.Field? ==> entry < |types| && parts.key.index < |types[entry].names|)
      && Known(types, parts.value) && KnownParts(types, entry, parts.rest)
  }

  /** A value is supported exactly when everything it refers to is known and it nests no deeper than the limit. */
  lemma {:induction false} SupportedWhen(types: Types, value: Value, depth: nat)
    ensures Supported(types, value, depth) <==>
            Known(types, value) && (Nesting(value) == 0 || depth + Nesting(value) <= MAX_DEPTH)
    decreases value
  {
    match value {
      case ListValue(items) => PartsSupported(types, 0, items, depth);
      case ObjectValue(_, entries) => PartsSupported(types, 0, entries, depth);
      case TypedValue(entry, fields, extra) =>
        PartsSupported(types, entry, fields, depth);
        PartsSupported(types, entry, extra, depth);
      case EnumValue(_, _, payload) => PartsSupported(types, 0, payload, depth);
      case HostEnum(_, _, payload) => PartsSupported(types, 0, payload, depth);
      case ErrorValue(_, _, _, data, _, _, cause) =>
        SupportedWhen(types, data, depth + 1);
        SupportedWhen(types, cause, depth + 1);
      case _ =>
    }
  }

  lemma {:induction false} PartsSupported(types: Types, entry: nat, parts: Parts, depth: nat)
    ensures SupportedParts(types, entry, parts, depth) <==>
            KnownParts(types, entry, parts) && (Deepest(parts) == 0 || depth + 1 + Deepest(parts) <= MAX_DEPTH)
    decreases parts
  {
    hide Supported, Known, Nesting;
    if parts.Part? {
      SupportedWhen(types, parts.value, depth + 1);
      PartsSupported(types, entry, parts.rest, depth);
    }
  }

  // ---- Records ----

  /** An aligned record of `size` payload bytes at `offset`, at or after `low`. */
  ghost predicate Head(image: seq<byte>, low: nat, offset: nat, kind: nat, argument: nat, size: nat) {
    && low <= offset && IMAGE_HEADER_SIZE <= offset && offset % 8 == 0
    && offset + RECORD_HEADER_SIZE + size <= |image|
    && Load32(image, offset) == kind && Load32(image, offset + 4) == argument
  }

  ghost predicate HoldsText(image: seq<byte>, low: nat, offset: nat, text: Str) {
    && Head(image, low, offset, RECORD_STRING, |text.bytes|, 8 + |text.bytes|)
    && Load32(image, offset + 8) == text.chars
    && image[offset + 16..offset + 16 + |text.bytes|] == text.bytes
  }

  /** The record at `offset`, and what it refers to, is the value, all of it at or after `low`. */
  ghost predicate Holds(types: Types, image: seq<byte>, low: nat, offset: nat, value: Value)
    decreases value
  {
    match value
    case NoneValue => Head(image, low, offset, RECORD_NONE, 0, 0)
    case UnitValue => Head(image, low, offset, RECORD_UNIT, 0, 0)
    case BoolValue(flag) => Head(image, low, offset, RECORD_BOOL, if flag then 1 else 0, 0)
    case IntValue(bits) => Head(image, low, offset, RECORD_INT, 0, 8) && Load64(image, offset + 8) == bits
    case FloatValue(bits) => Head(image, low, offset, RECORD_FLOAT, 0, 8) && Load64(image, offset + 8) == bits
    case TextValue(text) => HoldsText(image, low, offset, text)
    case BytesValue(bytes) =>
      Head(image, low, offset, RECORD_BYTES, |bytes|, |bytes|) && image[offset + 8..offset + 8 + |bytes|] == bytes
    case ListValue(items) =>
      && Head(image, low, offset, RECORD_LIST, Count(items), 4 * Count(items))
      && HoldsItems(types, image, low, offset + 8, items)
    case ObjectValue(None, entries) =>
      && Head(image, low, offset, RECORD_OBJECT, Count(entries), 8 * Count(entries))
      && HoldsEntries(types, image, low, offset + 8, 0, entries)
    case ObjectValue(Some(identity), entries) =>
      && Head(image, low, offset, RECORD_TYPED, Count(entries), 4 + 8 * Count(entries))
      && HoldsText(image, low, Load32(image, offset + 8), identity)
      && HoldsEntries(types, image, low, offset + 12, 0, entries)
    case TypedValue(entry, fields, extra) =>
      && entry < |types|
      && Head(image, low, offset, RECORD_TYPED, Count(fields) + Count(extra), 4 + 8 * (Count(fields) + Count(extra)))
      && HoldsText(image, low, Load32(image, offset + 8), types[entry].boundary)
      && HoldsEntries(types, image, low, offset + 12, entry, fields)
      && HoldsEntries(types, image, low, offset + 12 + 8 * Count(fields), entry, extra)
    case EnumValue(entry, variant, payload) =>
      && entry < |types| && variant < |types[entry].names|
      && Head(image, low, offset, RECORD_ENUM, Count(payload), 8 + 4 * Count(payload))
      && HoldsText(image, low, Load32(image, offset + 8), types[entry].identity)
      && HoldsText(image, low, Load32(image, offset + 12), types[entry].names[variant])
      && HoldsItems(types, image, low, offset + 16, payload)
    case HostEnum(identity, name, payload) =>
      && Head(image, low, offset, RECORD_ENUM, Count(payload), 8 + 4 * Count(payload))
      && HoldsText(image, low, Load32(image, offset + 8), identity)
      && HoldsText(image, low, Load32(image, offset + 12), name)
      && HoldsItems(types, image, low, offset + 16, payload)
    case ErrorValue(fatal, kind, message, data, origin, trace, cause) =>
      && Head(image, low, offset, RECORD_ERROR, if fatal then 1 else 0, 24 + |trace|)
      && HoldsText(image, low, Load32(image, offset + 8), kind)
      && HoldsText(image, low, Load32(image, offset + 12), message)
      && Holds(types, image, low, Load32(image, offset + 16), data)
      // Origins count from one here: 0 is for an Error without one.
      && Load32(image, offset + 20) == (if origin == 0 then 0 else origin + 1)
      && (if cause.NoneValue? then Load32(image, offset + 24) == 0
          else Holds(types, image, low, Load32(image, offset + 24), cause))
      && Load32(image, offset + 28) == |trace| / 8
      && image[offset + 32..offset + 32 + |trace|] == trace
  }

  /** The words from `at` on are the offsets of the parts. */
  ghost predicate HoldsItems(types: Types, image: seq<byte>, low: nat, at: nat, parts: Parts)
    decreases parts
  {
    parts.Part? ==>
      && at + 4 <= |image|
      && Holds(types, image, low, Load32(image, at), parts.value)
      && HoldsItems(types, image, low, at + 4, parts.rest)
  }

  /** The words from `at` on are the offsets of the names and the values of the parts. */
  ghost predicate HoldsEntries(types: Types, image: seq<byte>, low: nat, at: nat, entry: nat, parts: Parts)
    decreases parts
  {
    parts.Part? ==>
      && at + 8 <= |image|
      && TextOf(types, entry, parts.key).Some?
      && HoldsText(image, low, Load32(image, at), TextOf(types, entry, parts.key).value)
      && Holds(types, image, low, Load32(image, at + 4), parts.value)
      && HoldsEntries(types, image, low, at + 8, entry, parts.rest)
  }

  // ---- An image that keeps its bytes keeps its values ----

  lemma HeadKept(image: seq<byte>, other: seq<byte>, low: nat, lower: nat, offset: nat, kind: nat, argument: nat,
                 size: nat)
    requires Head(image, low, offset, kind, argument, size) && Keeps(image, other, low) && lower <= low
    ensures Head(other, lower, offset, kind, argument, size)
  {
    KeepsLoad(image, other, low, offset);
    KeepsLoad(image, other, low, offset + 4);
  }

  lemma TextKept(image: seq<byte>, other: seq<byte>, low: nat, lower: nat, offset: nat, text: Str)
    requires HoldsText(image, low, offset, text) && Keeps(image, other, low) && lower <= low
    ensures HoldsText(other, lower, offset, text)
  {
    HeadKept(image, other, low, lower, offset, RECORD_STRING, |text.bytes|, 8 + |text.bytes|);
    KeepsLoad(image, other, low, offset + 8);
    KeepsSlice(image, other, low, offset + 16, offset + 16 + |text.bytes|);
  }

  /** Words of a record are kept, and so is what they refer to. */
  lemma WordKept(image: seq<byte>, other: seq<byte>, low: nat, at: nat)
    requires Keeps(image, other, low) && low <= at && at + 4 <= |image|
    ensures Load32(other, at) == Load32(image, at)
  {
    KeepsLoad(image, other, low, at);
  }

  lemma {:induction false} HoldsKept(types: Types, image: seq<byte>, other: seq<byte>, low: nat, lower: nat,
                                     offset: nat, value: Value)
    requires Holds(types, image, low, offset, value) && Keeps(image, other, low) && lower <= low
    ensures Holds(types, other, lower, offset, value)
    decreases value
  {
    hide Load32, Keeps;
    match value {
      case NoneValue => HeadKept(image, other, low, lower, offset, RECORD_NONE, 0, 0);
      case UnitValue => HeadKept(image, other, low, lower, offset, RECORD_UNIT, 0, 0);
      case BoolValue(flag) => HeadKept(image, other, low, lower, offset, RECORD_BOOL, if flag then 1 else 0, 0);
      case IntValue(_) =>
        HeadKept(image, other, low, lower, offset, RECORD_INT, 0, 8);
        WordKept(image, other, low, offset + 8);
        WordKept(image, other, low, offset + 12);
      case FloatValue(_) =>
        HeadKept(image, other, low, lower, offset, RECORD_FLOAT, 0, 8);
        WordKept(image, other, low, offset + 8);
        WordKept(image, other, low, offset + 12);
      case TextValue(text) => TextKept(image, other, low, lower, offset, text);
      case BytesValue(bytes) =>
        HeadKept(image, other, low, lower, offset, RECORD_BYTES, |bytes|, |bytes|);
        KeepsSlice(image, other, low, offset + 8, offset + 8 + |bytes|);
      case ListValue(items) =>
        HeadKept(image, other, low, lower, offset, RECORD_LIST, Count(items), 4 * Count(items));
        ItemsKept(types, image, other, low, lower, offset + 8, items);
      case ObjectValue(_, _) => ObjectKept(types, image, other, low, lower, offset, value);
      case TypedValue(_, _, _) => TypedKept(types, image, other, low, lower, offset, value);
      case EnumValue(entry, variant, payload) =>
        EnumKept(types, image, other, low, lower, offset, types[entry].identity, types[entry].names[variant], payload);
      case HostEnum(identity, name, payload) =>
        EnumKept(types, image, other, low, lower, offset, identity, name, payload);
      case ErrorValue(_, _, _, _, _, _, _) => ErrorKept(types, image, other, low, lower, offset, value);
    }
  }

  lemma {:induction false} ItemsKept(types: Types, image: seq<byte>, other: seq<byte>, low: nat, lower: nat, at: nat,
                                     parts: Parts)
    requires HoldsItems(types, image, low, at, parts) && Keeps(image, other, low) && lower <= low <= at
    ensures HoldsItems(types, other, lower, at, parts)
    decreases parts, 0
  {
    hide Load32, Holds;
    if parts.Part? {
      WordKept(image, other, low, at);
      HoldsKept(types, image, other, low, lower, Load32(image, at), parts.value);
      ItemsKept(types, image, other, low, lower, at + 4, parts.rest);
    }
  }

  lemma {:induction false} EntriesKept(types: Types, image: seq<byte>, other: seq<byte>, low: nat, lower: nat, at: nat,
                                       entry: nat, parts: Parts)
    requires HoldsEntries(types, image, low, at, entry, parts) && Keeps(image, other, low) && lower <= low <= at
    ensures HoldsEntries(types, other, lower, at, entry, parts)
    decreases parts, 0
  {
    hide Load32, Holds, HoldsText;
    if parts.Part? {
      WordKept(image, other, low, at);
      WordKept(image, other, low, at + 4);
      TextKept(image, other, low, lower, Load32(image, at), TextOf(types, entry, parts.key).value);
      HoldsKept(types, image, other, low, lower, Load32(image, at + 4), parts.value);
      EntriesKept(types, image, other, low, lower, at + 8, entry, parts.rest);
    }
  }

  lemma {:induction false} ObjectKept(types: Types, image: seq<byte>, other: seq<byte>, low: nat, lower: nat,
                                      offset: nat, value: Value)
    requires value.ObjectValue? && Holds(types, image, low, offset, value) && Keeps(image, other, low) && lower <= low
    ensures Holds(types, other, lower, offset, value)
    decreases value, 0
  {
    hide Load32, Keeps, HoldsText, HoldsEntries;
    var count := Count(value.entries);
    if value.identity.None? {
      HeadKept(image, other, low, lower, offset, RECORD_OBJECT, count, 8 * count);
      EntriesKept(types, image, other, low, lower, offset + 8, 0, value.entries);
    } else {
      HeadKept(image, other, low, lower, offset, RECORD_TYPED, count, 4 + 8 * count);
      WordKept(image, other, low, offset + 8);
      TextKept(image, other, low, lower, Load32(image, offset + 8), value.identity.value);
      EntriesKept(types, image, other, low, lower, offset + 12, 0, value.entries);
    }
  }

  lemma {:induction false} TypedKept(types: Types, image: seq<byte>, other: seq<byte>, low: nat, lower: nat,
                                     offset: nat, value: Value)
    requires value.TypedValue? && Holds(types, image, low, offset, value) && Keeps(image, other, low) && lower <= low
    ensures Holds(types, other, lower, offset, value)
    decreases value, 0
  {
    hide Load32, Keeps, HoldsText, HoldsEntries;
    var count := Count(value.fields) + Count(value.extra);
    HeadKept(image, other, low, lower, offset, RECORD_TYPED, count, 4 + 8 * count);
    WordKept(image, other, low, offset + 8);
    TextKept(image, other, low, lower, Load32(image, offset + 8), types[value.entry].boundary);
    EntriesKept(types, image, other, low, lower, offset + 12, value.entry, value.fields);
    EntriesKept(types, image, other, low, lower, offset + 12 + 8 * Count(value.fields), value.entry, value.extra);
  }

  lemma {:induction false} EnumKept(types: Types, image: seq<byte>, other: seq<byte>, low: nat, lower: nat, offset: nat,
                                    identity: Str, name: Str, payload: Parts)
    requires Holds(types, image, low, offset, HostEnum(identity, name, payload)) && Keeps(image, other, low)
    requires lower <= low
    ensures Holds(types, other, lower, offset, HostEnum(identity, name, payload))
    decreases payload, 1
  {
    hide Load32, Keeps, HoldsText, HoldsItems;
    HeadKept(image, other, low, lower, offset, RECORD_ENUM, Count(payload), 8 + 4 * Count(payload));
    WordKept(image, other, low, offset + 8);
    WordKept(image, other, low, offset + 12);
    TextKept(image, other, low, lower, Load32(image, offset + 8), identity);
    TextKept(image, other, low, lower, Load32(image, offset + 12), name);
    ItemsKept(types, image, other, low, lower, offset + 16, payload);
  }

  lemma {:induction false} ErrorKept(types: Types, image: seq<byte>, other: seq<byte>, low: nat, lower: nat,
                                     offset: nat, value: Value)
    requires value.ErrorValue? && Holds(types, image, low, offset, value) && Keeps(image, other, low) && lower <= low
    ensures Holds(types, other, lower, offset, value)
    decreases value, 0
  {
    hide Load32, Keeps, HoldsText;
    HeadKept(image, other, low, lower, offset, RECORD_ERROR, if value.fatal then 1 else 0, 24 + |value.trace|);
    WordKept(image, other, low, offset + 8);
    WordKept(image, other, low, offset + 12);
    WordKept(image, other, low, offset + 16);
    WordKept(image, other, low, offset + 20);
    WordKept(image, other, low, offset + 24);
    WordKept(image, other, low, offset + 28);
    TextKept(image, other, low, lower, Load32(image, offset + 8), value.kind);
    TextKept(image, other, low, lower, Load32(image, offset + 12), value.message);
    HoldsKept(types, image, other, low, lower, Load32(image, offset + 16), value.data);
    if !value.cause.NoneValue? {
      HoldsKept(types, image, other, low, lower, Load32(image, offset + 24), value.cause);
    }
    KeepsSlice(image, other, low, offset + 32, offset + 32 + |value.trace|);
  }
}
