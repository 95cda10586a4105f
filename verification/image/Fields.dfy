/** Where the named values of a type of the program arrive when they cross the boundary. */
module CrossedFields {
  import opened ImageBytes
  import opened BoundaryValues
  import opened ImageLayout
  import opened ImageAdoption
  import opened Wrappers

  /** The boundary identity a value with named parts carries, if any. */
  function IdentityOf(types: Types, value: Value): Option<seq<byte>> {
    match value
    case ObjectValue(Some(identity), _) => Some(identity.bytes)
    case TypedValue(entry, _, _) => if entry < |types| then Some(types[entry].boundary.bytes) else None
    case _ => None
  }

  /** The first Object type with this boundary identity. */
  predicate IsFirstType(types: Types, entry: nat, identity: seq<byte>) {
    && entry < |types| && !types[entry].isEnum && types[entry].boundary.bytes == identity
    && forall other :: 0 <= other < entry ==> types[other].isEnum || types[other].boundary.bytes != identity
  }

  /** The value under a name; under the last of them, were there more. */
  ghost function Named(types: Types, entry: nat, parts: Parts, name: seq<byte>): Option<Value>
    decreases parts
  {
    if parts.End? then None
    else
      var behind := Named(types, entry, parts.rest, name);
      if behind.Some? then behind
      else
        var text := TextOf(types, entry, parts.key);
        if text.Some? && text.value.bytes == name then Some(parts.value) else None
  }

  /** The value under a name in an Object, an undeclared key of a typed one or a declared one. */
  ghost function NamedIn(types: Types, value: Value, name: seq<byte>): Option<Value> {
    match value
    case ObjectValue(_, entries) => Named(types, 0, entries, name)
    case TypedValue(entry, fields, extra) =>
      var undeclared := Named(types, entry, extra, name);
      if undeclared.Some? then undeclared else Named(types, entry, fields, name)
    case _ => None
  }

  /** The value of declared field `index`. */
  ghost function FieldOf(parts: Parts, index: nat): Option<Value> {
    if parts.End? then None
    else if parts.key == Field(index) then Some(parts.value)
    else FieldOf(parts.rest, index)
  }

  /** A slot gets the last value under its name, or keeps what it has. */
  lemma {:induction false} FilledAt(types: Types, entry: nat, known: TypeEntry, slots: seq<Value>, parts: Parts,
                                    index: nat)
    requires |slots| == |known.names| && index < |slots| && FirstOfName(known, index)
    ensures var named := Named(types, entry, parts, known.names[index].bytes);
      Filled(types, entry, known.names, slots, parts)[index] ==
        if named.Some? then Crossed(types, named.value) else slots[index]
    decreases parts
  {
    hide Crossed, TextOf;
    if parts.Part? {
      var text := TextOf(types, entry, parts.key);
      var found := if text.Some? then FindName(known.names, text.value.bytes, 0) else None;
      var next := if found.Some? then slots[found.value := Crossed(types, parts.value)] else slots;
      FilledAt(types, entry, known, next, parts.rest, index);
    }
  }

  lemma {:induction false} SlotOf(slots: seq<Value>, from: nat, index: nat)
    requires from <= index < |slots|
    ensures FieldOf(FromSlots(slots, from), index) == Some(slots[index])
    decreases |slots| - from
  {
    if from < index {
      SlotOf(slots, from + 1, index);
    }
  }

  lemma {:induction false} SlotCount(slots: seq<Value>, from: nat)
    requires from <= |slots|
    ensures Count(FromSlots(slots, from)) == |slots| - from
    decreases |slots| - from
  {
    if from < |slots| {
      SlotCount(slots, from + 1);
    }
  }

  /**
    * A value that names an Object type of the program arrives as one of that type, with exactly its declared fields:
    * each is what the value under its name becomes, and None when there is none.
    */
  lemma FieldsCross(types: Types, value: Value, entry: nat, index: nat)
    requires IdentityOf(types, value).Some? && IsFirstType(types, entry, IdentityOf(types, value).value)
    requires index < |types[entry].names| && FirstOfName(types[entry], index)
    ensures var crossed := Crossed(types, value);
      && crossed.TypedValue? && crossed.entry == entry && crossed.extra.End?
      && Count(crossed.fields) == |types[entry].names|
      && var named := NamedIn(types, value, types[entry].names[index].bytes);
         FieldOf(crossed.fields, index) == Some(if named.Some? then Crossed(types, named.value) else NoneValue)
  {
    hide Filled, FromSlots, FieldOf, Named, TextOf;
    var known := types[entry];
    var empty := seq(|known.names|, i => NoneValue);
    assert ObjectType(types, IdentityOf(types, value).value, 0) == Some(entry);
    if value.ObjectValue? {
      var slots := Filled(types, 0, known.names, empty, value.entries);
      FilledAt(types, 0, known, empty, value.entries, index);
      SlotOf(slots, 0, index);
      SlotCount(slots, 0);
    } else {
      var declared := Filled(types, value.entry, known.names, empty, value.fields);
      var slots := Filled(types, value.entry, known.names, declared, value.extra);
      FilledAt(types, value.entry, known, empty, value.fields, index);
      FilledAt(types, value.entry, known, declared, value.extra, index);
      SlotOf(slots, 0, index);
      SlotCount(slots, 0);
    }
  }
}
