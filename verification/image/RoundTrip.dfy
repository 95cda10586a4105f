/** What the reader makes of what the writer wrote. */
module ImageRoundTrip {
  import opened ImageBytes
  import opened BoundaryValues
  import opened ImageLayout
  import opened ImageAdoption
  import opened Wrappers

  lemma TextReads(image: seq<byte>, low: nat, offset: nat, text: Str)
    requires HoldsText(image, low, offset, text)
    ensures TextAt(image, offset) == Ok(text)
    ensures IsRecord(image, offset) && KindAt(image, offset) == RECORD_STRING
  {
    hide Load32;
  }

  lemma HeadReads(image: seq<byte>, low: nat, offset: nat, kind: nat, argument: nat, size: nat)
    requires Head(image, low, offset, kind, argument, size)
    ensures IsRecord(image, offset) && KindAt(image, offset) == kind && ArgumentAt(image, offset) == argument
    ensures HasPayload(image, offset, size)
  {
    hide Load32;
  }

  /** Adopting the record of a value gives the value as it crosses the boundary. */
  lemma {:induction false} ValueReads(types: Types, image: seq<byte>, low: nat, offset: nat, value: Value, depth: nat)
    requires Holds(types, image, low, offset, value) && WellFormed(types, value) && Supported(types, value, depth)
    ensures Adopt(types, image, offset, depth) == Ok(Crossed(types, value))
    decreases value, 2
  {
    hide Load32, AdoptItems, AdoptObject, AdoptTyped, AdoptEnum, AdoptError, HoldsItems, HoldsEntries, TextAt;
    match value {
      case NoneValue => HeadReads(image, low, offset, RECORD_NONE, 0, 0);
      case UnitValue => HeadReads(image, low, offset, RECORD_UNIT, 0, 0);
      case BoolValue(flag) => HeadReads(image, low, offset, RECORD_BOOL, if flag then 1 else 0, 0);
      case IntValue(_) => HeadReads(image, low, offset, RECORD_INT, 0, 8);
      case FloatValue(_) => HeadReads(image, low, offset, RECORD_FLOAT, 0, 8);
      case TextValue(text) => TextReads(image, low, offset, text);
      case BytesValue(bytes) => HeadReads(image, low, offset, RECORD_BYTES, |bytes|, |bytes|);
      case ListValue(items) =>
        HeadReads(image, low, offset, RECORD_LIST, Count(items), 4 * Count(items));
        ItemsRead(types, image, low, offset + 8, items, depth);
      case ObjectValue(_, _) => ObjectReads(types, image, low, offset, value, depth);
      case TypedValue(_, _, _) => TypedReads(types, image, low, offset, value, depth);
      case EnumValue(entry, variant, payload) =>
        EnumReads(types, image, low, offset, types[entry].identity, types[entry].names[variant], payload, depth);
      case HostEnum(identity, name, payload) => EnumReads(types, image, low, offset, identity, name, payload, depth);
      case ErrorValue(_, _, _, _, _, _, _) => ErrorReads(types, image, low, offset, value, depth);
    }
  }

  lemma {:induction false} ItemsRead(types: Types, image: seq<byte>, low: nat, at: nat, parts: Parts, depth: nat)
    requires HoldsItems(types, image, low, at, parts) && WellFormedItems(types, parts)
    requires SupportedParts(types, 0, parts, depth) && depth < MAX_DEPTH
    ensures AdoptItems(types, image, at, Count(parts), depth) == Ok(CrossedParts(types, 0, parts))
    decreases parts, 0
  {
    hide Load32, Holds, Adopt, WellFormed, Supported;
    if parts.Part? {
      ValueReads(types, image, low, Load32(image, at), parts.value, depth + 1);
      ItemsRead(types, image, low, at + 4, parts.rest, depth);
    }
  }

  lemma {:induction false} EntriesRead(types: Types, image: seq<byte>, low: nat, at: nat, parts: Parts,
                                       before: seq<seq<byte>>, depth: nat)
    requires HoldsEntries(types, image, low, at, 0, parts) && WellFormedEntries(types, 0, parts, before)
    requires OnlyNames(parts)
    requires SupportedParts(types, 0, parts, depth) && depth < MAX_DEPTH
    ensures AdoptEntries(types, image, at, Count(parts), before, depth) == Ok(CrossedParts(types, 0, parts))
    decreases parts, 0
  {
    hide Load32, Holds, Adopt, WellFormed, Supported, HoldsText, TextAt;
    if parts.Part? {
      TextReads(image, low, Load32(image, at), parts.key.text);
      ValueReads(types, image, low, Load32(image, at + 4), parts.value, depth + 1);
      EntriesRead(types, image, low, at + 8, parts.rest, before + [parts.key.text.bytes], depth);
    }
  }

  /** The declared fields among named values end up in their slots. */
  lemma {:induction false} FieldsRead(types: Types, image: seq<byte>, low: nat, at: nat, entry: nat, parts: Parts,
                                      more: nat, names: seq<Str>, slots: seq<Value>, before: seq<seq<byte>>, depth: nat)
    requires HoldsEntries(types, image, low, at, entry, parts) && WellFormedEntries(types, entry, parts, before)
    requires SupportedParts(types, entry, parts, depth) && depth < MAX_DEPTH && |slots| == |names|
    ensures AdoptFields(types, image, at, Count(parts) + more, names, slots, depth)
         == AdoptFields(types, image, at + 8 * Count(parts), more, names, Filled(types, entry, names, slots, parts),
           depth)
    decreases parts, 0
  {
    hide Load32, Holds, Adopt, WellFormed, Supported, HoldsText, TextAt;
    if parts.Part? {
      var text := TextOf(types, entry, parts.key).value;
      TextReads(image, low, Load32(image, at), text);
      ValueReads(types, image, low, Load32(image, at + 4), parts.value, depth + 1);
      var index := FindName(names, text.bytes, 0);
      var after := if index.Some? then slots[index.value := Crossed(types, parts.value)] else slots;
      FieldsRead(types, image, low, at + 8, entry, parts.rest, more, names, after, before + [text.bytes], depth);
    }
  }

  lemma {:induction false} ObjectReads(types: Types, image: seq<byte>, low: nat, offset: nat, value: Value, depth: nat)
    requires value.ObjectValue? && Holds(types, image, low, offset, value) && WellFormed(types, value)
    requires Supported(types, value, depth)
    ensures Adopt(types, image, offset, depth) == Ok(Crossed(types, value))
    decreases value, 1
  {
    hide Load32, AdoptItems, AdoptEnum, AdoptError, HoldsItems, HoldsText, HoldsEntries, TextAt, AdoptEntries;
    hide AdoptFields;
    var count := Count(value.entries);
    if value.identity.None? {
      HeadReads(image, low, offset, RECORD_OBJECT, count, 8 * count);
      EntriesRead(types, image, low, offset + 8, value.entries, [], depth);
    } else {
      HeadReads(image, low, offset, RECORD_TYPED, count, 4 + 8 * count);
      TextReads(image, low, Load32(image, offset + 8), value.identity.value);
      var found := ObjectType(types, value.identity.value.bytes, 0);
      if found.None? {
        EntriesRead(types, image, low, offset + 12, value.entries, [], depth);
        assert AdoptObject(types, image, offset, value.identity, depth) == Ok(Crossed(types, value));
      } else {
        var names := types[found.value].names;
        FieldsRead(types, image, low, offset + 12, 0, value.entries, 0, names, seq(|names|, i => NoneValue), [], depth);
        NoMoreFields(types, image, offset + 12 + 8 * count, names,
          Filled(types, 0, names, seq(|names|, i => NoneValue), value.entries), depth);
      }
    }
  }

  lemma NoMoreFields(types: Types, image: seq<byte>, at: nat, names: seq<Str>, slots: seq<Value>, depth: nat)
    requires depth < MAX_DEPTH && |slots| == |names|
    ensures AdoptFields(types, image, at, 0, names, slots, depth) == Ok(slots)
  {}

  /** The declared fields and the other keys fill the slots in turn. */
  lemma {:induction false} SlotsRead(types: Types, image: seq<byte>, low: nat, at: nat, value: Value, names: seq<Str>,
                                     slots: seq<Value>, depth: nat)
    requires value.TypedValue? && WellFormed(types, value) && Supported(types, value, depth) && depth < MAX_DEPTH
    requires HoldsEntries(types, image, low, at, value.entry, value.fields) && |slots| == |names|
    requires HoldsEntries(types, image, low, at + 8 * Count(value.fields), value.entry, value.extra)
    ensures AdoptFields(types, image, at, Count(value.fields) + Count(value.extra), names, slots, depth)
         == Ok(Filled(types, value.entry, names, Filled(types, value.entry, names, slots, value.fields), value.extra))
    decreases value, 0
  {
    hide HoldsEntries, AdoptFields, Filled, Count;
    var fields, extra := Count(value.fields), Count(value.extra);
    FieldsRead(types, image, low, at, value.entry, value.fields, extra, names, slots, [], depth);
    var filled := Filled(types, value.entry, names, slots, value.fields);
    FieldsRead(types, image, low, at + 8 * fields, value.entry, value.extra, 0, names, filled, [], depth);
    NoMoreFields(types, image, at + 8 * fields + 8 * extra, names,
      Filled(types, value.entry, names, filled, value.extra), depth);
  }

  lemma {:induction false} TypedReads(types: Types, image: seq<byte>, low: nat, offset: nat, value: Value, depth: nat)
    requires value.TypedValue? && Holds(types, image, low, offset, value) && WellFormed(types, value)
    requires Supported(types, value, depth)
    ensures Adopt(types, image, offset, depth) == Ok(Crossed(types, value))
    decreases value, 1
  {
    hide Load32, AdoptItems, AdoptEnum, AdoptError, HoldsItems, HoldsText, HoldsEntries, TextAt, AdoptEntries;
    hide AdoptFields, AdoptObject, Adopt, Filled, FromSlots;
    var count := Count(value.fields) + Count(value.extra);
    HeadReads(image, low, offset, RECORD_TYPED, count, 4 + 8 * count);
    TypedDispatch(types, image, offset, depth);
    TextReads(image, low, Load32(image, offset + 8), types[value.entry].boundary);
    var names := types[ObjectType(types, types[value.entry].boundary.bytes, 0).value].names;
    SlotsRead(types, image, low, offset + 12, value, names, seq(|names|, i => NoneValue), depth);
  }

  lemma TypedDispatch(types: Types, image: seq<byte>, offset: nat, depth: nat)
    requires IsRecord(image, offset) && KindAt(image, offset) == RECORD_TYPED && depth < MAX_DEPTH
    ensures Adopt(types, image, offset, depth) == AdoptTyped(types, image, offset, depth)
  {
    hide AdoptTyped;
  }

  lemma {:induction false} EnumReads(types: Types, image: seq<byte>, low: nat, offset: nat, identity: Str, name: Str,
                                     payload: Parts, depth: nat)
    requires Holds(types, image, low, offset, HostEnum(identity, name, payload)) && WellFormedItems(types, payload)
    requires SupportedParts(types, 0, payload, depth) && depth < MAX_DEPTH
    ensures Adopt(types, image, offset, depth)
        == Ok(CrossedEnum(types, identity, name, CrossedParts(types, 0, payload)))
    decreases payload, 1
  {
    hide Load32, AdoptItems, AdoptError, HoldsItems, HoldsText, TextAt, AdoptEntries, AdoptFields, AdoptObject;
    hide AdoptTyped;
    HeadReads(image, low, offset, RECORD_ENUM, Count(payload), 8 + 4 * Count(payload));
    TextReads(image, low, Load32(image, offset + 8), identity);
    TextReads(image, low, Load32(image, offset + 12), name);
    ItemsRead(types, image, low, offset + 16, payload, depth);
  }

  lemma {:induction false} ErrorReads(types: Types, image: seq<byte>, low: nat, offset: nat, value: Value, depth: nat)
    requires value.ErrorValue? && Holds(types, image, low, offset, value) && WellFormed(types, value)
    requires Supported(types, value, depth)
    ensures Adopt(types, image, offset, depth) == Ok(Crossed(types, value))
    decreases value, 1
  {
    hide Load32, AdoptItems, HoldsItems, HoldsText, TextAt, AdoptEntries, AdoptFields, AdoptObject, AdoptTyped;
    hide AdoptEnum, Adopt;
    HeadReads(image, low, offset, RECORD_ERROR, if value.fatal then 1 else 0, 24 + |value.trace|);
    ErrorDispatch(types, image, offset, depth);
    TextAdopts(types, image, low, Load32(image, offset + 8), value.kind, depth + 1);
    TextAdopts(types, image, low, Load32(image, offset + 12), value.message, depth + 1);
    ValueReads(types, image, low, Load32(image, offset + 16), value.data, depth + 1);
    if !value.cause.NoneValue? {
      ValueReads(types, image, low, Load32(image, offset + 24), value.cause, depth + 1);
      NotAtZero(types, image, low, Load32(image, offset + 24), value.cause);
    }
    assert 8 * (|value.trace| / 8) == |value.trace|;
  }

  lemma ErrorDispatch(types: Types, image: seq<byte>, offset: nat, depth: nat)
    requires IsRecord(image, offset) && KindAt(image, offset) == RECORD_ERROR && depth < MAX_DEPTH
    ensures Adopt(types, image, offset, depth) == AdoptError(types, image, offset, depth)
  {
    hide AdoptError;
  }

  lemma TextAdopts(types: Types, image: seq<byte>, low: nat, offset: nat, text: Str, depth: nat)
    requires HoldsText(image, low, offset, text)
    ensures Adopt(types, image, offset, depth) == Ok(TextValue(text))
  {
    TextReads(image, low, offset, text);
    hide Load32, TextAt, HoldsText;
  }

  /** No record lies at offset zero, which can mean a missing cause. */
  lemma NotAtZero(types: Types, image: seq<byte>, low: nat, offset: nat, value: Value)
    requires Holds(types, image, low, offset, value)
    ensures offset != 0
  {
    hide Load32, HoldsItems, HoldsEntries;
  }
}
