/** The values that cross the boundary, and the types a program names. */
module BoundaryValues {
  import opened ImageBytes
  import opened Wrappers

  /** A String: its bytes and its number of characters. */
  datatype Str = Str(bytes: seq<byte>, chars: nat)

  /** What a part of a value is: an item or a payload field, a named value, or a declared field. */
  datatype Key = Item | Name(text: Str) | Field(index: nat)

  datatype Parts = End | Part(key: Key, value: Value, rest: Parts)

  /**
    * A value without sharing. A typed Object lists its present declared fields in entry order and its undeclared keys;
    * an untyped one may keep the identity of a type the program does not use. An Error without a cause has NoneValue.
    */
  datatype Value =
    | NoneValue
    | UnitValue
    | BoolValue(flag: bool)
    | IntValue(bits: nat)
    | FloatValue(bits: nat)
    | TextValue(text: Str)
    | BytesValue(bytes: seq<byte>)
    | ListValue(items: Parts)
    | ObjectValue(identity: Option<Str>, entries: Parts)
    | TypedValue(entry: nat, fields: Parts, extra: Parts)
    | EnumValue(entry: nat, variant: nat, payload: Parts)
    | HostEnum(enumIdentity: Str, name: Str, payload: Parts)
    | ErrorValue(fatal: bool, kind: Str, message: Str, data: Value, origin: nat, trace: seq<byte>, cause: Value)

  /** An entry of the program's type table: the fields of an Object type, or the variants of an enum. */
  datatype TypeEntry = TypeEntry(isEnum: bool, identity: Str, boundary: Str, names: seq<Str>)

  type Types = seq<TypeEntry>

  function Count(parts: Parts): nat {
    if parts.End? then 0 else 1 + Count(parts.rest)
  }

  function Append(first: Parts, second: Parts): Parts {
    if first.End? then second else Part(first.key, first.value, Append(first.rest, second))
  }

  // ---- Names in the type table ----

  /** The first of the names with these bytes, from `from` on. */
  function FindName(names: seq<Str>, bytes: seq<byte>, from: nat): (found: Option<nat>)
    ensures found.Some? ==> from <= found.value < |names| && names[found.value].bytes == bytes
    ensures found.Some? ==> forall i :: from <= i < found.value ==> names[i].bytes != bytes
    ensures found.None? ==> forall i :: from <= i < |names| ==> names[i].bytes != bytes
    decreases |names| - from
  {
    if from >= |names| then None
    else if names[from].bytes == bytes then Some(from)
    else FindName(names, bytes, from + 1)
  }

  /** The first Object type with this boundary identity, from entry `from` on. */
  function ObjectType(types: Types, identity: seq<byte>, from: nat): (found: Option<nat>)
    ensures found.Some? ==> from <= found.value < |types| && !types[found.value].isEnum
    ensures found.Some? ==> types[found.value].boundary.bytes == identity
    ensures found.Some? ==> forall i :: from <= i < found.value ==>
        types[i].isEnum || types[i].boundary.bytes != identity
    ensures found.None? ==> forall i :: from <= i < |types| ==> types[i].isEnum || types[i].boundary.bytes != identity
    decreases |types| - from
  {
    if from >= |types| then None
    else if !types[from].isEnum && types[from].boundary.bytes == identity then Some(from)
    else ObjectType(types, identity, from + 1)
  }

  /** An enum with this identity that has a variant of this name. */
  predicate HasVariant(entry: TypeEntry, identity: seq<byte>, name: seq<byte>) {
    entry.isEnum && entry.identity.bytes == identity
    && exists v :: 0 <= v < |entry.names| && entry.names[v].bytes == name
  }

  /** No variant before `variant` has its name. */
  predicate FirstOfName(entry: TypeEntry, variant: nat)
    requires variant < |entry.names|
  {
    forall v :: 0 <= v < variant ==> entry.names[v].bytes != entry.names[variant].bytes
  }

  /** The first enum type with this identity that has a variant of this name, and its first variant of the name. */
  function ResolveEnum(types: Types, identity: seq<byte>, variant: seq<byte>, from: nat): (found: Option<(nat, nat)>)
    ensures found.Some? ==>
      && var (e, v) := found.value;
      && from <= e < |types| && types[e].isEnum && types[e].identity.bytes == identity
      && v < |types[e].names| && types[e].names[v].bytes == variant && FirstOfName(types[e], v)
      && forall other :: from <= other < e ==> !HasVariant(types[other], identity, variant)
    ensures found.None? ==> forall other :: from <= other < |types| ==> !HasVariant(types[other], identity, variant)
    decreases |types| - from
  {
    if from >= |types| then None
    else if types[from].isEnum && types[from].identity.bytes == identity
         && FindName(types[from].names, variant, 0).Some? then
      Some((from, FindName(types[from].names, variant, 0).value))
    else ResolveEnum(types, identity, variant, from + 1)
  }
}
