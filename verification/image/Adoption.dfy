/** Adopting an image: what the reader makes of the records. */
module ImageAdoption {
  import opened ImageBytes
  import opened BoundaryValues
  import opened ImageLayout
  import opened Wrappers

  datatype BoundaryError = Malformed | Unsupported

  /** Whether `size` bytes at `offset` lie in the image. */
  predicate InRange(image: seq<byte>, offset: nat, size: nat) {
    offset + size <= |image|
  }

  /** The record at `offset` has a header inside the image. */
  predicate IsRecord(image: seq<byte>, offset: nat) {
    IMAGE_HEADER_SIZE <= offset && offset % 8 == 0 && InRange(image, offset, RECORD_HEADER_SIZE)
  }

  function KindAt(image: seq<byte>, offset: nat): nat {
    Load32(image, offset)
  }

  function ArgumentAt(image: seq<byte>, offset: nat): nat {
    Load32(image, offset + 4)
  }

  /** The payload of the record at `offset` has `size` bytes inside the image. */
  predicate HasPayload(image: seq<byte>, offset: nat, size: nat) {
    InRange(image, offset + RECORD_HEADER_SIZE, size)
  }

  function TextAt(image: seq<byte>, offset: nat): Result<Str, BoundaryError> {
    if !IsRecord(image, offset) || KindAt(image, offset) != RECORD_STRING then Err(Malformed)
    else
      var length := ArgumentAt(image, offset);
      if !HasPayload(image, offset, length + 8) then Err(Malformed)
      else Ok(Str(image[offset + 16..offset + 16 + length], Load32(image, offset + 8)))
  }

  /** The value a record holds, or why there is none; parts of parts may nest up to the limit. */
  function Adopt(types: Types, image: seq<byte>, offset: nat, depth: nat): Result<Value, BoundaryError>
    decreases MAX_DEPTH - depth, 3
  {
    if !IsRecord(image, offset) then Err(Malformed)
    else
      var kind, argument := KindAt(image, offset), ArgumentAt(image, offset);
      if kind == RECORD_NONE then Ok(NoneValue)
      else if kind == RECORD_UNIT then Ok(UnitValue)
      else if kind == RECORD_BOOL then Ok(BoolValue(argument != 0))
      else if kind == RECORD_INT then
        if HasPayload(image, offset, 8) then Ok(IntValue(Load64(image, offset + 8))) else Err(Malformed)
      else if kind == RECORD_FLOAT then
        if HasPayload(image, offset, 8) then Ok(FloatValue(Load64(image, offset + 8))) else Err(Malformed)
      else if kind == RECORD_STRING then
        var text := TextAt(image, offset);
        if text.Ok? then Ok(TextValue(text.value)) else Err(text.error)
      else if kind == RECORD_BYTES then
        if HasPayload(image, offset, argument) then Ok(BytesValue(image[offset + 8..offset + 8 + argument]))
          else Err(Malformed)
      else if depth >= MAX_DEPTH then Err(Unsupported)
      else if kind == RECORD_LIST then
        if !HasPayload(image, offset, 4 * argument) then Err(Malformed)
        else
          var items := AdoptItems(types, image, offset + 8, argument, depth);
          if items.Ok? then Ok(ListValue(items.value)) else Err(items.error)
      else if kind == RECORD_OBJECT then AdoptObject(types, image, offset, None, depth)
      else if kind == RECORD_TYPED then AdoptTyped(types, image, offset, depth)
      else if kind == RECORD_ENUM then AdoptEnum(types, image, offset, depth)
      else if kind == RECORD_ERROR then AdoptError(types, image, offset, depth)
      else Err(Malformed)
  }

  /** Adopts `count` values whose offsets are the words from `at` on. */
  function AdoptItems(types: Types, image: seq<byte>, at: nat, count: nat, depth: nat): Result<Parts, BoundaryError>
    requires depth < MAX_DEPTH
    decreases MAX_DEPTH - depth, 0, count
  {
    if count == 0 then Ok(End)
    else
      var item := Adopt(types, image, Load32(image, at), depth + 1);
      if item.Err? then Err(item.error)
      else
        var rest := AdoptItems(types, image, at + 4, count - 1, depth);
        if rest.Ok? then Ok(Part(Item, item.value, rest.value)) else rest
  }

  /** Adopts an Object record, or the entries of a Typed record after its identity, into an untyped Object. */
  function AdoptObject(types: Types, image: seq<byte>, offset: nat, identity: Option<Str>,
                       depth: nat): Result<Value, BoundaryError>
    requires depth < MAX_DEPTH
    decreases MAX_DEPTH - depth, 1
  {
    var count, first := ArgumentAt(image, offset), if identity.Some? then 1 else 0;
    if !HasPayload(image, offset, 4 * first + 8 * count) then Err(Malformed)
    else
      var entries := AdoptEntries(types, image, offset + 8 + 4 * first, count, [], depth);
      if entries.Ok? then Ok(ObjectValue(identity, entries.value)) else Err(entries.error)
  }

  /** Adopts named values, rejecting keys that were there before. */
  function AdoptEntries(types: Types, image: seq<byte>, at: nat, count: nat, before: seq<seq<byte>>,
                        depth: nat): Result<Parts, BoundaryError>
    requires depth < MAX_DEPTH
    decreases MAX_DEPTH - depth, 0, count
  {
    if count == 0 then Ok(End)
    else
      var name := TextAt(image, Load32(image, at));
      if name.Err? then Err(name.error)
      else
        var value := Adopt(types, image, Load32(image, at + 4), depth + 1);
        if value.Err? then Err(value.error)
        else if name.value.bytes in before then Err(Malformed)
        else
          var rest := AdoptEntries(types, image, at + 8, count - 1, before + [name.value.bytes], depth);
          if rest.Ok? then Ok(Part(Name(name.value), value.value, rest.value)) else rest
  }

  /**
    * Adopts a Typed record as a value of the type it names, with None for missing fields, or as an untyped Object that
    * keeps the identity.
    */
  function AdoptTyped(types: Types, image: seq<byte>, offset: nat, depth: nat): Result<Value, BoundaryError>
    requires depth < MAX_DEPTH
    decreases MAX_DEPTH - depth, 2
  {
    var count := ArgumentAt(image, offset);
    if !HasPayload(image, offset, 4 + 8 * count) then Err(Malformed)
    else
      var identity := TextAt(image, Load32(image, offset + 8));
      if identity.Err? then Err(identity.error)
      else
        var entry := ObjectType(types, identity.value.bytes, 0);
        if entry.None? then AdoptObject(types, image, offset, Some(identity.value), depth)
        else
          var names := types[entry.value].names;
          var slots := AdoptFields(types, image, offset + 12, count, names, seq(|names|, i => NoneValue), depth);
          if slots.Ok? then Ok(TypedValue(entry.value, FromSlots(slots.value, 0), End)) else Err(slots.error)
  }

  /** Adopts the declared fields among the named values into their slots; the others are skipped. */
  function AdoptFields(types: Types, image: seq<byte>, at: nat, count: nat, names: seq<Str>, slots: seq<Value>,
                       depth: nat)
    : Result<seq<Value>, BoundaryError>
    requires depth < MAX_DEPTH && |slots| == |names|
    decreases MAX_DEPTH - depth, 0, count
  {
    if count == 0 then Ok(slots)
    else
      var name := TextAt(image, Load32(image, at));
      if name.Err? then Err(name.error)
      else
        var index := FindName(names, name.value.bytes, 0);
        if index.None? then AdoptFields(types, image, at + 8, count - 1, names, slots, depth)
        else
          var value := Adopt(types, image, Load32(image, at + 4), depth + 1);
          if value.Err? then Err(value.error)
          else AdoptFields(types, image, at + 8, count - 1, names, slots[index.value := value.value], depth)
  }

  function FromSlots(slots: seq<Value>, from: nat): Parts
    decreases |slots| - from
  {
    if from >= |slots| then End else Part(Field(from), slots[from], FromSlots(slots, from + 1))
  }

  /** Adopts an enum of a type the program declares, or one that keeps its identity and variant name. */
  function AdoptEnum(types: Types, image: seq<byte>, offset: nat, depth: nat): Result<Value, BoundaryError>
    requires depth < MAX_DEPTH
    decreases MAX_DEPTH - depth, 1
  {
    var count := ArgumentAt(image, offset);
    if !HasPayload(image, offset, 8 + 4 * count) then Err(Malformed)
    else
      var identity, variant := TextAt(image, Load32(image, offset + 8)), TextAt(image, Load32(image, offset + 12));
      if identity.Err? then Err(identity.error)
      else if variant.Err? then Err(variant.error)
      else
        var resolved := ResolveEnum(types, identity.value.bytes, variant.value.bytes, 0);
        var payload := AdoptItems(types, image, offset + 16, count, depth);
        if payload.Err? then Err(payload.error)
        else if resolved.Some? then Ok(EnumValue(resolved.value.0, resolved.value.1, payload.value))
        else Ok(HostEnum(identity.value, variant.value, payload.value))
  }

  function AdoptError(types: Types, image: seq<byte>, offset: nat, depth: nat): Result<Value, BoundaryError>
    requires depth < MAX_DEPTH
    decreases MAX_DEPTH - depth, 1
  {
    if !HasPayload(image, offset, 24) then Err(Malformed)
    else
      var count := Load32(image, offset + 28);
      if !HasPayload(image, offset, 24 + 8 * count) then Err(Malformed)
      else
        var kind := Adopt(types, image, Load32(image, offset + 8), depth + 1);
        if kind.Err? then kind
        else if !kind.value.TextValue? then Err(Malformed)
        else
          var message := Adopt(types, image, Load32(image, offset + 12), depth + 1);
          if message.Err? then message
          else if !message.value.TextValue? then Err(Malformed)
          else
            var data := Adopt(types, image, Load32(image, offset + 16), depth + 1);
            if data.Err? then data
            else
              var origin := Load32(image, offset + 20);
              var cause :=
                if Load32(image, offset + 24) == 0 then Ok(NoneValue)
                else Adopt(types, image, Load32(image, offset + 24), depth + 1);
              if cause.Err? then cause
              else
                Ok(ErrorValue(ArgumentAt(image, offset) != 0, kind.value.text, message.value.text, data.value,
                  if origin == 0 then 0 else origin - 1, image[offset + 32..offset + 32 + 8 * count], cause.value))
  }

  /** Adopts a whole image from its root. */
  function AdoptAt(types: Types, image: seq<byte>): Result<Value, BoundaryError> {
    if |image| < IMAGE_HEADER_SIZE || Load32(image, 0) != IMAGE_MAGIC then Err(Malformed)
    else Adopt(types, image, Load32(image, 4), 0)
  }

  // ---- What crossing the boundary makes of a value ----

  /**
    * Named values of a type of the program go to the slots of the fields they name; a typed Object is in declaration
    * order afterwards, None stands for a missing field, and undeclared keys are gone. Identities find the first type
    * or enum of the table that has them.
    */
  function Crossed(types: Types, value: Value): Value
    decreases value
  {
    match value
    case ListValue(items) => ListValue(CrossedParts(types, 0, items))
    case ObjectValue(None, entries) => ObjectValue(None, CrossedParts(types, 0, entries))
    case ObjectValue(Some(identity), entries) =>
      var found := ObjectType(types, identity.bytes, 0);
      if found.None? then ObjectValue(Some(identity), CrossedParts(types, 0, entries))
      else
        var names := types[found.value].names;
        TypedValue(found.value, FromSlots(Filled(types, 0, names, seq(|names|, i => NoneValue), entries), 0), End)
    case TypedValue(entry, fields, extra) =>
      var identity := if entry < |types| then types[entry].boundary else Str([], 0);
      var found := ObjectType(types, identity.bytes, 0);
      if found.None? then
        ObjectValue(Some(identity), Append(CrossedParts(types, entry, fields), CrossedParts(types, entry, extra)))
      else
        var names := types[found.value].names;
        var slots := Filled(types, entry, names, seq(|names|, i => NoneValue), fields);
        TypedValue(found.value, FromSlots(Filled(types, entry, names, slots, extra), 0), End)
    case EnumValue(entry, variant, payload) =>
      if entry < |types| && variant < |types[entry].names| then
        CrossedEnum(types, types[entry].identity, types[entry].names[variant], CrossedParts(types, 0, payload))
      else value
    case HostEnum(identity, name, payload) => CrossedEnum(types, identity, name, CrossedParts(types, 0, payload))
    case ErrorValue(fatal, kind, message, data, origin, trace, cause) =>
      ErrorValue(fatal, kind, message, Crossed(types, data), origin, trace, Crossed(types, cause))
    case _ => value
  }

  function CrossedEnum(types: Types, identity: Str, name: Str, payload: Parts): Value {
    var resolved := ResolveEnum(types, identity.bytes, name.bytes, 0);
    if resolved.Some? then EnumValue(resolved.value.0, resolved.value.1, payload) else HostEnum(identity, name, payload)
  }

  /** The parts with their values crossed, under the names that cross with them. */
  function CrossedParts(types: Types, entry: nat, parts: Parts): Parts
    decreases parts
  {
    if parts.End? then End
    else
      var text := TextOf(types, entry, parts.key);
      Part(if text.Some? then Name(text.value) else Item,
           Crossed(types, parts.value), CrossedParts(types, entry, parts.rest))
  }

  function Filled(types: Types, entry: nat, names: seq<Str>, slots: seq<Value>, parts: Parts): (filled: seq<Value>)
    requires |slots| == |names|
    ensures |filled| == |slots|
    decreases parts
  {
    if parts.End? then slots
    else
      var text := TextOf(types, entry, parts.key);
      var index := if text.Some? then FindName(names, text.value.bytes, 0) else None;
      Filled(types, entry, names,
             if index.Some? then slots[index.value := Crossed(types, parts.value)] else slots, parts.rest)
  }
}
