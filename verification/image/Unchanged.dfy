/** Which values cross the boundary unchanged. */
module UnchangedValues {
  import opened ImageBytes
  import opened BoundaryValues
  import opened ImageLayout
  import opened ImageAdoption
  import opened Wrappers

  /**
    * Typed Objects have all their fields, in declaration order, and no other keys; identities name the very type or
    * variant the value has, and the program uses no type a kept identity names.
    */
  predicate Stays(types: Types, value: Value)
    decreases value
  {
    match value
    case ListValue(items) => PartsStay(types, items)
    case ObjectValue(None, entries) => PartsStay(types, entries)
    case ObjectValue(Some(identity), entries) => ObjectType(types, identity.bytes, 0).None? && PartsStay(types, entries)
    case TypedValue(entry, fields, extra) =>
      && entry < |types| && ObjectType(types, types[entry].boundary.bytes, 0) == Some(entry)
      && InOrder(fields, 0, |types[entry].names|) && extra.End? && PartsStay(types, fields)
    case EnumValue(entry, variant, payload) =>
      && entry < |types| && variant < |types[entry].names| && types[entry].isEnum && PartsStay(types, payload)
      && FirstOfName(types[entry], variant)
      && Undeclared(types, types[entry].identity.bytes, types[entry].names[variant].bytes, entry)
    case HostEnum(identity, name, payload) =>
      Undeclared(types, identity.bytes, name.bytes, |types|) && PartsStay(types, payload)
    case ErrorValue(_, _, _, data, _, _, cause) => Stays(types, data) && Stays(types, cause)
    case _ => true
  }

  /** No enum among the first `count` types has this identity and a variant of this name. */
  predicate Undeclared(types: Types, identity: seq<byte>, name: seq<byte>, count: nat)
    requires count <= |types|
  {
    forall entry :: 0 <= entry < count ==> !HasVariant(types[entry], identity, name)
  }

  predicate PartsStay(types: Types, parts: Parts)
    decreases parts
  {
    parts.Part? ==> Stays(types, parts.value) && PartsStay(types, parts.rest)
  }

  /** The declared fields from `from` up to `count`, in declaration order. */
  predicate InOrder(parts: Parts, from: nat, count: nat)
    decreases parts
  {
    if parts.End? then from == count
      else parts.key == Field(from) && from < count && InOrder(parts.rest, from + 1, count)
  }

  /** The parts under their keys, with their values crossed. */
  function SameKeys(types: Types, parts: Parts): Parts
    decreases parts
  {
    if parts.End? then End else Part(parts.key, Crossed(types, parts.value), SameKeys(types, parts.rest))
  }

  lemma {:induction false} ItemsKeepKeys(types: Types, parts: Parts)
    requires WellFormedItems(types, parts)
    ensures CrossedParts(types, 0, parts) == SameKeys(types, parts)
    decreases parts
  {
    hide WellFormed, Crossed;
    if parts.Part? {
      ItemsKeepKeys(types, parts.rest);
    }
  }

  lemma {:induction false} NamesKeepKeys(types: Types, parts: Parts)
    requires OnlyNames(parts)
    ensures CrossedParts(types, 0, parts) == SameKeys(types, parts)
    decreases parts
  {
    hide Crossed;
    if parts.Part? {
      NamesKeepKeys(types, parts.rest);
    }
  }

  lemma {:induction false} SlotsInOrder(slots: seq<Value>, from: nat)
    requires from <= |slots|
    ensures InOrder(FromSlots(slots, from), from, |slots|)
    decreases |slots| - from
  {
    if from < |slots| {
      SlotsInOrder(slots, from + 1);
    }
  }

  ghost predicate FirstNames(names: seq<Str>, count: nat, texts: seq<seq<byte>>) {
    count <= |names| && |texts| == count && forall i :: 0 <= i < count ==> texts[i] == names[i].bytes
  }

  /** Fields in order fill their own slots, one after the other. */
  lemma {:induction false} OrderFills(types: Types, entry: nat, slots: seq<Value>, parts: Parts, from: nat,
                                      before: seq<seq<byte>>)
    requires entry < |types| && |slots| == |types[entry].names| && InOrder(parts, from, |slots|)
    requires WellFormedEntries(types, entry, parts, before) && FirstNames(types[entry].names, from, before)
    ensures FromSlots(Filled(types, entry, types[entry].names, slots, parts), from) == SameKeys(types, parts)
    ensures Filled(types, entry, types[entry].names, slots, parts)[..from] == slots[..from]
    decreases parts
  {
    hide WellFormed, Crossed;
    if parts.Part? {
      var names := types[entry].names;
      var text := names[from];
      assert TextOf(types, entry, parts.key) == Some(text);
      FindsItself(names, from, before);
      var next := slots[from := Crossed(types, parts.value)];
      OrderFills(types, entry, next, parts.rest, from + 1, before + [text.bytes]);
      var filled := Filled(types, entry, names, slots, parts);
      assert filled == Filled(types, entry, names, next, parts.rest);
      assert filled[from] == filled[..from + 1][from] == next[..from + 1][from];
      assert filled[..from] == filled[..from + 1][..from] == next[..from + 1][..from] == slots[..from];
    }
  }

  lemma FindsItself(names: seq<Str>, at: nat, before: seq<seq<byte>>)
    requires FirstNames(names, at, before) && at < |names| && names[at].bytes !in before
    ensures FindName(names, names[at].bytes, 0) == Some(at)
  {
    var found := FindName(names, names[at].bytes, 0);
    assert forall i :: 0 <= i < at ==> names[i].bytes == before[i];
  }

  ghost predicate WellParts(types: Types, parts: Parts)
    decreases parts
  {
    parts.Part? ==> WellFormed(types, parts.value) && WellParts(types, parts.rest)
  }

  lemma {:induction false} ItemsWell(types: Types, parts: Parts)
    requires WellFormedItems(types, parts)
    ensures WellParts(types, parts)
  {
    hide WellFormed;
    if parts.Part? {
      ItemsWell(types, parts.rest);
    }
  }

  lemma {:induction false} EntriesWell(types: Types, entry: nat, parts: Parts, before: seq<seq<byte>>, depth: nat)
    requires WellFormedEntries(types, entry, parts, before) && SupportedParts(types, entry, parts, depth)
    ensures WellParts(types, parts)
    decreases parts
  {
    hide WellFormed, Supported;
    if parts.Part? {
      EntriesWell(types, entry, parts.rest, before + [TextOf(types, entry, parts.key).value.bytes], depth);
    }
  }

  lemma {:induction false} PartsUnchanged(types: Types, entry: nat, parts: Parts, depth: nat)
    requires WellParts(types, parts) && SupportedParts(types, entry, parts, depth)
    ensures SameKeys(types, parts) == parts <==> PartsStay(types, parts)
    decreases parts, 0
  {
    hide WellFormed, Supported, Crossed, Stays, TextOf;
    if parts.Part? {
      CrossesUnchanged(types, parts.value, depth + 1);
      PartsUnchanged(types, entry, parts.rest, depth);
    }
  }

  lemma {:induction false} TypedUnchanged(types: Types, value: Value, depth: nat)
    requires value.TypedValue? && WellFormed(types, value) && Supported(types, value, depth)
    ensures Crossed(types, value) == value <==> Stays(types, value)
    decreases value, 0
  {
    hide ObjectType, PartsStay, WellFormedEntries, SupportedParts, Filled, FromSlots, SameKeys, InOrder, CrossedParts;
    var entry, fields := value.entry, value.fields;
    EntriesWell(types, entry, fields, [], depth);
    PartsUnchanged(types, entry, fields, depth);
    var found := ObjectType(types, types[entry].boundary.bytes, 0);
    var names := types[entry].names;
    var empty := seq(|names|, i => NoneValue);
    if found == Some(entry) && value.extra.End? {
      NothingMore(types, entry, names, Filled(types, entry, names, empty, fields));
      SlotsInOrder(Filled(types, entry, names, empty, fields), 0);
      if InOrder(fields, 0, |names|) {
        OrderFills(types, entry, empty, fields, 0, []);
      }
    }
  }

  lemma NothingMore(types: Types, entry: nat, names: seq<Str>, slots: seq<Value>)
    requires |slots| == |names|
    ensures Filled(types, entry, names, slots, End) == slots
  {}

  /** What names the very variant is found as it. */
  lemma ResolvesItself(types: Types, entry: nat, variant: nat)
    requires entry < |types| && variant < |types[entry].names| && types[entry].isEnum
    ensures var identity, name := types[entry].identity.bytes, types[entry].names[variant].bytes;
      ResolveEnum(types, identity, name, 0) == Some((entry, variant)) <==>
        FirstOfName(types[entry], variant) && Undeclared(types, identity, name, entry)
  {
    var identity, name := types[entry].identity.bytes, types[entry].names[variant].bytes;
    assert HasVariant(types[entry], identity, name);
    var (e, v) := ResolveEnum(types, identity, name, 0).value;
    assert HasVariant(types[e], identity, name);
  }

  lemma ResolvesNothing(types: Types, identity: seq<byte>, name: seq<byte>)
    ensures ResolveEnum(types, identity, name, 0).None? <==> Undeclared(types, identity, name, |types|)
  {
    var found := ResolveEnum(types, identity, name, 0);
    assert found.Some? ==> HasVariant(types[found.value.0], identity, name);
  }

  /** Enums have identities of their own, and their variants names of their own. */
  predicate DistinctEnums(types: Types) {
    && (forall one, other :: 0 <= one < other < |types| && types[one].isEnum && types[other].isEnum ==>
         types[one].identity.bytes != types[other].identity.bytes)
    && forall entry, v, u :: 0 <= entry < |types| && types[entry].isEnum && 0 <= v < u < |types[entry].names| ==>
         types[entry].names[v].bytes != types[entry].names[u].bytes
  }

  /** With such types every value of a declared enum comes back as it was, when its payload does. */
  lemma DeclaredEnumsStay(types: Types, value: Value, depth: nat)
    requires value.EnumValue? && DistinctEnums(types) && PartsStay(types, value.payload)
    requires WellFormed(types, value) && Supported(types, value, depth)
    ensures Crossed(types, value) == value
  {
    assert Stays(types, value);
    CrossesUnchanged(types, value, depth);
  }

  /** And an enum whose identity no declared one has keeps it and its variant's name. */
  lemma ForeignEnumsStay(types: Types, value: Value, depth: nat)
    requires value.HostEnum? && PartsStay(types, value.payload)
    requires forall entry :: 0 <= entry < |types| && types[entry].isEnum ==>
      types[entry].identity.bytes != value.enumIdentity.bytes
    requires WellFormed(types, value) && Supported(types, value, depth)
    ensures Crossed(types, value) == value
  {
    CrossesUnchanged(types, value, depth);
  }

  /** An enum of the host becomes one of the first declared enum with its identity and a variant of its name. */
  lemma HostEnumsArrive(types: Types, value: Value, entry: nat, variant: nat)
    requires value.HostEnum? && entry < |types| && types[entry].isEnum && variant < |types[entry].names|
    requires types[entry].identity.bytes == value.enumIdentity.bytes
    requires types[entry].names[variant].bytes == value.name.bytes && FirstOfName(types[entry], variant)
    requires Undeclared(types, value.enumIdentity.bytes, value.name.bytes, entry)
    ensures Crossed(types, value) == EnumValue(entry, variant, CrossedParts(types, 0, value.payload))
  {
    ResolvesItself(types, entry, variant);
  }

  /** A value crosses unchanged exactly when it stays as it is in every part. */
  lemma {:induction false} CrossesUnchanged(types: Types, value: Value, depth: nat)
    requires WellFormed(types, value) && Supported(types, value, depth)
    ensures Crossed(types, value) == value <==> Stays(types, value)
    decreases value, 1
  {
    hide CrossedParts, Filled, ObjectType, ResolveEnum, PartsStay, WellFormedItems, WellFormedEntries, SupportedParts;
    hide FromSlots;
    match value {
      case ListValue(items) =>
        ItemsKeepKeys(types, items);
        ItemsWell(types, items);
        PartsUnchanged(types, 0, items, depth);
      case ObjectValue(identity, entries) =>
        NamesKeepKeys(types, entries);
        EntriesWell(types, 0, entries, [], depth);
        PartsUnchanged(types, 0, entries, depth);
      case TypedValue(_, _, _) => TypedUnchanged(types, value, depth);
      case EnumValue(entry, variant, payload) =>
        ResolvesItself(types, entry, variant);
        ItemsKeepKeys(types, payload);
        ItemsWell(types, payload);
        PartsUnchanged(types, 0, payload, depth);
      case HostEnum(identity, name, payload) =>
        ResolvesNothing(types, identity.bytes, name.bytes);
        ItemsKeepKeys(types, payload);
        ItemsWell(types, payload);
        PartsUnchanged(types, 0, payload, depth);
      case ErrorValue(_, _, _, data, _, _, cause) =>
        CrossesUnchanged(types, data, depth + 1);
        CrossesUnchanged(types, cause, depth + 1);
      case _ =>
    }
  }
}
