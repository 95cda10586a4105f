/** What literal spellings look like, kind by kind, and which values have one. */
module LiteralForms {
  import opened Decimals
  import opened Escapes
  import opened LiteralText
  import opened Wrappers

  // ---- Rows ----

  /** Texts with a comma and a space between each and the next. */
  ghost function Between(texts: seq<string>): string {
    if texts == [] then ""
    else if |texts| == 1 then texts[0]
    else texts[0] + ", " + Between(texts[1..])
  }

  lemma {:induction false} BetweenGrows(texts: seq<string>, last: string)
    ensures Between(texts + [last]) == if texts == [] then last else Between(texts) + ", " + last
  {
    if texts != [] {
      BetweenGrows(texts[1..], last);
      assert (texts + [last])[1..] == texts[1..] + [last];
      if |texts| == 1 {
        assert texts[1..] == [];
      }
    }
  }

  /** The spelling of a part behind its label. */
  ghost predicate SpellsPart(show: nat -> string, part: (Option<string>, Value), depth: nat, text: string) {
    && part.0.Some? && Spelled(show, part.1, depth + 1).Some?
    && text == part.0.value + Spelled(show, part.1, depth + 1).value
  }

  /** `texts` are the parts of a row, each behind its label. */
  ghost predicate Spell(show: nat -> string, parts: seq<(Option<string>, Value)>, depth: nat, texts: seq<string>) {
    |texts| == |parts|
    && forall i {:trigger texts[i]} :: 0 <= i < |parts| ==> SpellsPart(show, parts[i], depth, texts[i])
  }

  lemma {:induction false} JoinedBetween(show: nat -> string, parts: seq<(Option<string>, Value)>, depth: nat,
                                         texts: seq<string>, count: nat)
    requires depth <= NATIVE_DEPTH && count <= |parts| && Spell(show, parts, depth, texts)
    ensures Joined(show, parts, depth, count) == Some(Between(texts[..count]))
  {
    hide Joined, Spelled, Between;
    NoParts(show, parts, depth);
    if count == 0 {
      NothingBetween();
      assert texts[..0] == [];
    } else {
      var before := texts[..count - 1];
      JoinedBetween(show, parts, depth, texts, count - 1);
      JoinedNext(show, parts, depth, count - 1);
      BetweenGrows(before, texts[count - 1]);
      assert texts[..count] == before + [texts[count - 1]];
      OneMore(before, parts[count - 1].0.value, Spelled(show, parts[count - 1].1, depth + 1).value);
      if count == 1 {
        assert before == [];
      }
    }
  }

  lemma NothingBetween()
    ensures Between([]) == ""
  {}

  lemma OneMore(before: seq<string>, tag: string, part: string)
    ensures Between(before) + ", " + tag + part == Between(before) + ", " + (tag + part)
    ensures before == [] ==> Between(before) + "" + tag + part == tag + part
  {
    Appended(Between(before) + ", ", tag, part);
    if before == [] {
      NothingBetween();
      Appended("", tag, part);
      assert "" + "" + tag + part == tag + part;
    }
  }

  // ---- Kinds ----

  ghost predicate SpellEach(show: nat -> string, values: seq<Value>, depth: nat, texts: seq<string>) {
    |texts| == |values| && forall i {:trigger texts[i]} :: 0 <= i < |values| ==>
      Spelled(show, values[i], depth + 1) == Some(texts[i])
  }

  /** A part behind its name, a colon and a space. */
  ghost predicate NamedText(show: nat -> string, name: string, value: Value, depth: nat, text: string) {
    Spelled(show, value, depth + 1).Some? && text == name + ": " + Spelled(show, value, depth + 1).value
  }

  ghost function Key(name: string): string {
    if IsIdentifier(name) then name else "\"" + Escaped(name) + "\""
  }

  /** The parts of a value are written as `texts`. */
  ghost predicate Inside(show: nat -> string, value: Value, depth: nat, texts: seq<string>) {
    match value
    case List(items) => SpellEach(show, items, depth, texts)
    case Error(kind, message, data) => SpellEach(show, [kind, message, data], depth, texts)
    case Nominal(_, fields) =>
      |texts| == |fields| && forall i {:trigger texts[i]} :: 0 <= i < |fields| ==>
        fields[i].0.Some? && NamedText(show, fields[i].0.value, fields[i].1, depth, texts[i])
    case Enum(_, payload) => SpellEach(show, payload, depth, texts)
    case Object(entries) =>
      |texts| == |entries| && forall i {:trigger texts[i]} :: 0 <= i < |entries| ==>
        NamedText(show, Key(entries[i].0), entries[i].1, depth, texts[i])
    case _ => texts == []
  }

  lemma PlainPart(show: nat -> string, value: Value, depth: nat, text: string)
    requires Spelled(show, value, depth + 1) == Some(text)
    ensures SpellsPart(show, (Some(""), value), depth, text)
  {
    hide Spelled;
    assert "" + text == text;
  }

  lemma PlainRow(show: nat -> string, values: seq<Value>, depth: nat, texts: seq<string>)
    requires SpellEach(show, values, depth, texts)
    ensures Spell(show, Plain(values), depth, texts)
  {
    hide Spelled, SpellsPart;
    var parts := Plain(values);
    forall i {:trigger texts[i]} | 0 <= i < |parts| ensures SpellsPart(show, parts[i], depth, texts[i]) {
      var text := texts[i];
      assert parts[i] == (Some(""), values[i]);
      PlainPart(show, values[i], depth, text);
    }
  }

  /** A text of a named part is its label and its spelling. */
  lemma NamedPart(show: nat -> string, name: string, value: Value, depth: nat, text: string)
    requires NamedText(show, name, value, depth, text)
    ensures SpellsPart(show, (Some(name + ": "), value), depth, text)
  {
    hide Spelled;
  }

  lemma FieldRow(show: nat -> string, value: Value, depth: nat, texts: seq<string>)
    requires value.Nominal? && Inside(show, value, depth, texts)
    ensures Spell(show, FieldParts(value.fields), depth, texts)
  {
    hide Spelled, NamedText, SpellsPart, FieldLabel;
    var parts := FieldParts(value.fields);
    forall i {:trigger texts[i]} | 0 <= i < |parts| ensures SpellsPart(show, parts[i], depth, texts[i]) {
      var text, field := texts[i], value.fields[i];
      LabelOf(field);
      assert parts[i] == FieldLabel(field) == (Some(field.0.value + ": "), field.1);
      NamedPart(show, field.0.value, field.1, depth, text);
    }
  }

  lemma KeyRow(show: nat -> string, value: Value, depth: nat, texts: seq<string>)
    requires value.Object? && Inside(show, value, depth, texts)
    ensures Spell(show, KeyParts(value.entries), depth, texts)
  {
    hide Spelled, NamedText, SpellsPart, KeyLabel, Escaped, IsIdentifier;
    var parts := KeyParts(value.entries);
    forall i {:trigger texts[i]} | 0 <= i < |parts| ensures SpellsPart(show, parts[i], depth, texts[i]) {
      var text, entry := texts[i], value.entries[i];
      KeyOf(entry);
      assert parts[i] == KeyLabel(entry) == (Some(Key(entry.0) + ": "), entry.1);
      NamedPart(show, Key(entry.0), entry.1, depth, text);
    }
  }

  lemma FrameRow(show: nat -> string, value: Value, depth: nat, texts: seq<string>)
    requires Inside(show, value, depth, texts) && FrameOf(value).Some?
    ensures |FrameOf(value).value.parts| == |texts| && Spell(show, FrameOf(value).value.parts, depth, texts)
  {
    hide Spelled, NamedText, Spell, SpellsPart, TypePart, IsIdentifier, Escaped;
    match value {
      case List(items) => PlainRow(show, items, depth, texts);
      case Error(kind, message, data) =>
        PlainRow(show, [kind, message, data], depth, texts);
        assert |Plain([kind, message, data])| == |texts|;
      case Nominal(_, fields) => FieldRow(show, value, depth, texts);
      case Enum(_, payload) => PlainRow(show, payload, depth, texts);
      case Object(entries) => KeyRow(show, value, depth, texts);
    }
  }

  lemma RowOf(show: nat -> string, parts: seq<(Option<string>, Value)>, depth: nat, texts: seq<string>)
    requires depth <= NATIVE_DEPTH && Spell(show, parts, depth, texts)
    ensures |texts| == |parts| && Joined(show, parts, depth, |parts|) == Some(Between(texts))
  {
    JoinedBetween(show, parts, depth, texts, |parts|);
    assert texts[..|parts|] == texts;
  }

  /** A composite value is its frame around the row of its parts. */
  lemma CompositeForm(show: nat -> string, value: Value, depth: nat, texts: seq<string>)
    requires depth <= NATIVE_DEPTH && Inside(show, value, depth, texts) && FrameOf(value).Some?
    ensures Spelled(show, value, depth)
         == Some(FrameOf(value).value.open + Between(texts) + FrameOf(value).value.close)
    ensures |FrameOf(value).value.parts| == |texts|
  {
    Framed(show, value, depth);
    FrameRow(show, value, depth, texts);
    hide Spelled, Joined, Spell, Between;
    RowOf(show, FrameOf(value).value.parts, depth, texts);
  }

  lemma LeafForms(show: nat -> string, value: Value, depth: nat)
    requires depth <= NATIVE_DEPTH && FrameOf(value).None?
    ensures Spelled(show, value, depth) == Leaf(show, value)
    ensures value.Int? ==> Leaf(show, value).Some? && ReadInt(Leaf(show, value).value) == value.number
  {
    Framed(show, value, depth);
    if value.Int? {
      IntReads(value.number);
    }
  }

  /** The spelling of every kind of value, from those of its parts. */
  lemma FormsByKind(show: nat -> string, value: Value, depth: nat, texts: seq<string>)
    requires depth <= NATIVE_DEPTH && Inside(show, value, depth, texts)
    ensures var spelled := Spelled(show, value, depth);
      match value
      case NoneValue => spelled == Some("None")
      case UnitValue => spelled == Some("Unit")
      case Bool(flag) => spelled == Some(if flag then "true" else "false")
      case Int(number) => spelled.Some? && ReadInt(spelled.value) == number
      case Float(bits) => spelled == Some(show(bits))
      case Text(text) => spelled == Some("\"" + Escaped(text) + "\"")
      case TextBytes(text) => spelled == Some("b" + ("\"" + Escaped(text) + "\""))
      case OtherBytes(octets) => spelled == Some("Bytes::from_hex(\"" + HexText(octets) + "\")")
      case List(_) => spelled == Some("[" + Between(texts) + "]")
      case Error(_, _, _) => spelled == Some("Error(" + Between(texts) + ")")
      case Nominal(None, _) => spelled == None
      case Nominal(Some(name), _) =>
        spelled == Some(if texts == [] then name + " {}" else name + " { " + Between(texts) + " }")
      case Enum(None, _) => spelled == None
      case Enum(Some((identity, name)), _) =>
        var path := TypePart(identity) + "::" + name;
        spelled == Some(if texts == [] then path else path + "(" + Between(texts) + ")")
      case Object(_) => spelled == Some(if texts == [] then "{}" else "{ " + Between(texts) + " }")
      case Function => spelled == Some("Fn")
      case Cell => spelled == Some("Cell")
      case Custom | Other => spelled == None
  {
    hide Spelled, Joined, Spell, Between, Escaped, HexText, TypePart, IntText, ReadInt;
    Frames(value);
    if FrameOf(value).Some? {
      CompositeForm(show, value, depth, texts);
      RowForms(FrameOf(value).value.open, texts, FrameOf(value).value.close);
    } else {
      LeafForms(show, value, depth);
    }
  }

  lemma RowForms(open: string, texts: seq<string>, close: string)
    ensures texts == [] ==> open + Between(texts) + close == open + close && open + "" == open
  {
    if texts == [] {
      NothingBetween();
      assert open + "" == open;
    }
  }

  // ---- Names of types and octets ----

  /** What is behind the last pair of colons, or all of an identity without one. */
  lemma {:induction false} TypePartIsLast(identity: string, end: nat)
    requires end <= |identity| && forall i :: end <= i ==> !Separates(identity, i)
    ensures var part := BehindLast(identity, end);
      (part == identity && forall i :: !Separates(identity, i))
      || exists i {:trigger Separates(identity, i)} ::
           Separates(identity, i) && part == identity[i + 2..] && forall j :: i < j ==> !Separates(identity, j)
  {
    if end > 0 && !Separates(identity, end - 1) {
      TypePartIsLast(identity, end - 1);
    }
  }

  /** Octet `i` is written as digits `2 * i` and `2 * i + 1`. */
  lemma {:induction false} HexPairsAt(octets: seq<nat>, i: nat)
    requires i < |octets| && octets[i] < 256
    ensures |HexText(octets)| == 2 * |octets|
    ensures [HexText(octets)[2 * i], HexText(octets)[2 * i + 1]] == [HexDigit(octets[i] / 16), HexDigit(octets[i] % 16)]
  {
    hide HexDigit;
    var before := octets[..|octets| - 1];
    HexLen(octets);
    HexLen(before);
    var last := octets[|octets| - 1];
    assert HexText(octets) == HexText(before) + [HexDigit(last / 16 % 16), HexDigit(last % 16)];
    if i < |octets| - 1 {
      HexPairsAt(before, i);
    }
  }

  lemma {:induction false} HexLen(octets: seq<nat>)
    ensures |HexText(octets)| == 2 * |octets|
  {
    if octets != [] {
      HexLen(octets[..|octets| - 1]);
    }
  }

  // ---- Which values have a spelling ----

  /** The values directly inside a value. */
  ghost function Parts(value: Value): seq<Value> {
    match value
    case List(items) => items
    case Error(kind, message, data) => [kind, message, data]
    case Nominal(_, fields) => seq(|fields|, i requires 0 <= i < |fields| => fields[i].1)
    case Enum(_, payload) => payload
    case Object(entries) => seq(|entries|, i requires 0 <= i < |entries| => entries[i].1)
    case _ => []
  }

  /** A kind that literals have, with all its names. */
  ghost predicate Nameable(value: Value) {
    match value
    case Custom | Other => false
    case Nominal(name, fields) => name.Some? && forall i :: 0 <= i < |fields| ==> fields[i].0.Some?
    case Enum(names, _) => names.Some?
    case _ => true
  }

  /** A value with a literal, and with no more than `levels` values around the innermost inside it. */
  ghost predicate Writable(value: Value, levels: nat) {
    Nameable(value) && (Parts(value) != [] ==> levels > 0)
    && forall i {:trigger Parts(value)[i]} :: 0 <= i < |Parts(value)| ==>
         levels > 0 && Writable(Parts(value)[i], levels - 1)
  }

  lemma FrameParts(value: Value)
    ensures FrameOf(value).None? ==> Parts(value) == [] || !Nameable(value)
    ensures FrameOf(value).Some? ==>
      var parts := FrameOf(value).value.parts;
      && |parts| == |Parts(value)| && (forall i :: 0 <= i < |parts| ==> parts[i].1 == Parts(value)[i])
      && (Nameable(value) <==> forall i :: 0 <= i < |parts| ==> parts[i].0.Some?)
  {
    hide TypePart, IsIdentifier, Quoted;
    if value.Nominal? {
      forall i | 0 <= i < |value.fields|
        ensures FieldParts(value.fields)[i].0.Some? <==> value.fields[i].0.Some?
      {
        LabelOf(value.fields[i]);
      }
      assert |FieldParts(value.fields)| == |value.fields|;
    }
  }

  lemma LeafWhen(show: nat -> string, value: Value, depth: nat)
    requires FrameOf(value).None? && depth <= NATIVE_DEPTH
    ensures Spelled(show, value, depth).Some? <==> Writable(value, NATIVE_DEPTH - depth)
  {
    hide Quoted, HexText, IntText, Spelled;
    Framed(show, value, depth);
    FrameParts(value);
    assert Leaf(show, value).Some? <==> Nameable(value);
  }

  /** The parts of a row up to `count` are labelled and have spellings. */
  ghost predicate Ready(show: nat -> string, parts: seq<(Option<string>, Value)>, depth: nat, count: nat)
    requires count <= |parts|
  {
    forall i {:trigger parts[i]} :: 0 <= i < count ==>
      parts[i].0.Some? && Spelled(show, parts[i].1, depth + 1).Some?
  }

  lemma {:induction false} JoinedWhen(show: nat -> string, parts: seq<(Option<string>, Value)>, depth: nat, count: nat)
    requires depth <= NATIVE_DEPTH && count <= |parts|
    ensures Joined(show, parts, depth, count).Some? <==> Ready(show, parts, depth, count)
  {
    hide Spelled;
    if count > 0 {
      JoinedWhen(show, parts, depth, count - 1);
    }
  }

  /** Part `i` of a value has a spelling exactly when it may lie so deep. */
  ghost predicate PartAgrees(show: nat -> string, value: Value, depth: nat, i: nat)
    requires depth <= NATIVE_DEPTH && i < |Parts(value)|
  {
    Spelled(show, Parts(value)[i], depth + 1).Some? <==>
      depth < NATIVE_DEPTH && Writable(Parts(value)[i], NATIVE_DEPTH - depth - 1)
  }

  lemma RowWhen(show: nat -> string, value: Value, depth: nat)
    requires depth <= NATIVE_DEPTH && FrameOf(value).Some?
    requires forall i {:trigger PartAgrees(show, value, depth, i)} :: 0 <= i < |Parts(value)| ==>
        PartAgrees(show, value, depth, i)
    ensures var parts := FrameOf(value).value.parts;
      Ready(show, parts, depth, |parts|) <==> Writable(value, NATIVE_DEPTH - depth)
  {
    hide Spelled, FrameOf, Nameable, Parts;
    FrameParts(value);
    var parts := FrameOf(value).value.parts;
    forall i | 0 <= i < |parts|
      ensures Spelled(show, parts[i].1, depth + 1).Some? <==>
          depth < NATIVE_DEPTH && Writable(Parts(value)[i], NATIVE_DEPTH - depth - 1)
    {
      assert PartAgrees(show, value, depth, i);
    }
    if Ready(show, parts, depth, |parts|) {
      forall i | 0 <= i < |Parts(value)|
        ensures depth < NATIVE_DEPTH && Writable(Parts(value)[i], NATIVE_DEPTH - depth - 1)
      {
        assert parts[i].0.Some?;
      }
      if Parts(value) != [] {
        assert parts[0].0.Some?;
      }
    } else {
      var i :| 0 <= i < |parts| && !(parts[i].0.Some? && Spelled(show, parts[i].1, depth + 1).Some?);
    }
  }

  lemma TooDeep(show: nat -> string, value: Value, depth: nat)
    requires depth > NATIVE_DEPTH
    ensures Spelled(show, value, depth).None?
  {}

  lemma CompositeWhen(show: nat -> string, value: Value, depth: nat)
    requires depth <= NATIVE_DEPTH && FrameOf(value).Some?
    requires forall i {:trigger PartAgrees(show, value, depth, i)} :: 0 <= i < |Parts(value)| ==>
        PartAgrees(show, value, depth, i)
    ensures Spelled(show, value, depth).Some? <==> Writable(value, NATIVE_DEPTH - depth)
  {
    hide *;
    var parts := FrameOf(value).value.parts;
    Framed(show, value, depth);
    JoinedWhen(show, parts, depth, |parts|);
    RowWhen(show, value, depth);
  }

  /** A value has a spelling exactly when all inside it do, and none lies too deep. */
  lemma {:induction false} SpelledWhen(show: nat -> string, value: Value, depth: nat)
    ensures Spelled(show, value, depth).Some? <==> depth <= NATIVE_DEPTH && Writable(value, NATIVE_DEPTH - depth)
    decreases NATIVE_DEPTH + 1 - depth
  {
    if depth > NATIVE_DEPTH {
      TooDeep(show, value, depth);
    } else if FrameOf(value).None? {
      LeafWhen(show, value, depth);
    } else {
      hide Spelled, Writable, Parts, FrameOf;
      forall i: nat | i < |Parts(value)| ensures PartAgrees(show, value, depth, i) {
        SpelledWhen(show, Parts(value)[i], depth + 1);
      }
      CompositeWhen(show, value, depth);
    }
  }
}
