/** The ExS literal spelling of values: one walk that measures or writes. */
module LiteralText {
  import opened Decimals
  import opened Escapes
  import opened HeapLayout
  import opened TextStorage
  import opened Utf8
  import opened Wrappers

  /** A value as far as the walk looks into it; a name that is no String is none. */
  datatype Value =
    | NoneValue
    | UnitValue
    | Bool(flag: bool)
    | Int(number: Int64)
    | Float(bits: nat)
    | Text(text: string)
    | TextBytes(text: string)
    | OtherBytes(octets: seq<nat>)
    | List(items: seq<Value>)
    | Error(kind: Value, message: Value, data: Value)
    | Custom
    | Nominal(name: Option<string>, fields: seq<(Option<string>, Value)>)
    | Enum(names: Option<(string, string)>, payload: seq<Value>)
    | Object(entries: seq<(string, Value)>)
    | Function
    | Cell
    | Other

  /** Values nested deeper have no spelling. */
  const NATIVE_DEPTH: nat := 32

  // ---- The spelling ----

  ghost function Quoted(text: string): string {
    "\"" + Escaped(text) + "\""
  }

  predicate IsWord(c: char, first: bool) {
    'a' <= c <= 'z' || 'A' <= c <= 'Z' || c == '_' || (!first && '0' <= c <= '9')
  }

  predicate IsIdentifier(text: string) {
    text != [] && IsWord(text[0], true) && forall i :: 0 <= i < |text| ==> IsWord(text[i], false)
  }

  ghost function HexText(octets: seq<nat>): string {
    if octets == [] then []
    else
      var last := octets[|octets| - 1];
      HexText(octets[..|octets| - 1]) + [HexDigit(last / 16 % 16), HexDigit(last % 16)]
  }

  /** The last part of an identity, behind its last `::`. */
  ghost function TypePart(identity: string): string {
    BehindLast(identity, |identity|)
  }

  ghost function BehindLast(identity: string, end: nat): string
    requires end <= |identity|
  {
    if end == 0 then identity
    else if Separates(identity, end - 1) then identity[end + 1..]
    else BehindLast(identity, end - 1)
  }

  ghost predicate Separates(identity: string, i: int) {
    0 <= i && i + 1 < |identity| && identity[i] == ':' && identity[i + 1] == ':'
  }

  /** A composite value: what opens it, its parts behind their labels, and what closes it. */
  datatype Frame = Frame(open: string, parts: seq<(Option<string>, Value)>, close: string)

  ghost function Plain(values: seq<Value>): (parts: seq<(Option<string>, Value)>)
    ensures |parts| == |values| && forall i :: 0 <= i < |parts| ==> parts[i] == (Some(""), values[i])
  {
    seq(|values|, i requires 0 <= i < |values| => (Some(""), values[i]))
  }

  ghost function FieldLabel(field: (Option<string>, Value)): (Option<string>, Value) {
    (if field.0.Some? then Some(field.0.value + ": ") else None, field.1)
  }

  ghost function KeyLabel(entry: (string, Value)): (Option<string>, Value) {
    (Some((if IsIdentifier(entry.0) then entry.0 else Quoted(entry.0)) + ": "), entry.1)
  }

  ghost function FieldParts(fields: seq<(Option<string>, Value)>): (parts: seq<(Option<string>, Value)>)
    ensures |parts| == |fields| && forall i {:trigger parts[i]} :: 0 <= i < |parts| ==>
        parts[i] == FieldLabel(fields[i])
  {
    seq(|fields|, i requires 0 <= i < |fields| => FieldLabel(fields[i]))
  }

  ghost function KeyParts(entries: seq<(string, Value)>): (parts: seq<(Option<string>, Value)>)
    ensures |parts| == |entries| && forall i {:trigger parts[i]} :: 0 <= i < |parts| ==>
        parts[i] == KeyLabel(entries[i])
  {
    seq(|entries|, i requires 0 <= i < |entries| => KeyLabel(entries[i]))
  }

  ghost function FrameOf(value: Value): Option<Frame> {
    match value
    case List(items) => Some(Frame("[", Plain(items), "]"))
    case Error(kind, message, data) => Some(Frame("Error(", Plain([kind, message, data]), ")"))
    case Nominal(Some(name), fields) =>
      if fields == [] then Some(Frame(name + " {}", [], ""))
      else Some(Frame(name + " { ", FieldParts(fields), " }"))
    case Enum(Some((identity, name)), payload) =>
      var path := TypePart(identity) + "::" + name;
      if payload == [] then Some(Frame(path, [], "")) else Some(Frame(path + "(", Plain(payload), ")"))
    case Object(entries) =>
      if entries == [] then Some(Frame("{}", [], ""))
      else Some(Frame("{ ", KeyParts(entries), " }"))
    case _ => None
  }

  ghost function Leaf(show: nat -> string, value: Value): Option<string> {
    match value
    case NoneValue => Some("None")
    case UnitValue => Some("Unit")
    case Bool(flag) => Some(if flag then "true" else "false")
    case Int(number) => Some(IntText(number))
    case Float(bits) => Some(show(bits))
    case Text(text) => Some(Quoted(text))
    case TextBytes(text) => Some("b" + Quoted(text))
    case OtherBytes(octets) => Some("Bytes::from_hex(\"" + HexText(octets) + "\")")
    case Function => Some("Fn")
    case Cell => Some("Cell")
    case _ => None
  }

  /** The literal spelling of a value, none where the walk gives up. */
  ghost function Spelled(show: nat -> string, value: Value, depth: nat): Option<string>
    decreases NATIVE_DEPTH + 1 - depth, 1, 0
  {
    if depth > NATIVE_DEPTH then None
    else
      var frame := FrameOf(value);
      if frame.None? then Leaf(show, value)
      else
        var inside := Joined(show, frame.value.parts, depth, |frame.value.parts|);
        if inside.None? then None else Some(frame.value.open + inside.value + frame.value.close)
  }

  ghost function Joined(show: nat -> string, parts: seq<(Option<string>, Value)>, depth: nat,
                        count: nat): Option<string>
    requires depth <= NATIVE_DEPTH && count <= |parts|
    decreases NATIVE_DEPTH + 1 - depth, 0, count
  {
    if count == 0 then Some("")
    else
      var before, tag := Joined(show, parts, depth, count - 1), parts[count - 1].0;
      if before.None? || tag.None? then None
      else
        var part := Spelled(show, parts[count - 1].1, depth + 1);
        if part.None? then None
        else Some(before.value + (if count > 1 then ", " else "") + tag.value + part.value)
  }

  // ---- The walk ----

  ghost predicate Ascii(text: string) {
    forall i :: 0 <= i < |text| ==> text[i] as int < 0x80
  }

  lemma Counted(before: nat, part: nat, len: nat)
    requires Wrap(len) == Wrap(part)
    ensures Wrap(Wrap(before) + len) == Wrap(before + part)
  {
    WrapsThrough(before, len);
    WrapsThrough(before, part);
  }

  /** The text of a walk, with its counts in 32 bits; a writing one stores it from `start` on. */
  class Out {
    const start: nat
    const write: bool
    var position: nat
    var bytes: nat
    var chars: nat
    /** The text written. */
    var written: string
    /** The text so far, whether or not it is written. */
    ghost var text: string

    ghost predicate Valid()
      reads this
    {
      && bytes == Wrap(ByteLen(text)) && chars == Wrap(|text|)
      && (if write then position == Wrap(start + ByteLen(text)) && written == text
        else position == start && written == "")
    }

    constructor (start: nat, write: bool)
      requires start < WORD
      ensures Valid() && text == "" && this.start == start && this.write == write
    {
      this.start := start;
      this.write := write;
      position, bytes, chars := start, 0, 0;
      written, text := "", "";
    }

    /** Appends a text of known lengths. */
    method Copy(part: string, len: nat, count: nat)
      requires Valid() && len == ByteLen(part) && count == |part|
      modifies this
      ensures Valid() && text == old(text) + part
    {
      Add(part, len, count);
      if write {
        written := written + part;
      }
    }

    /** Counts the lengths of a part, and moves on behind it when writing. */
    method Add(ghost part: string, len: nat, count: nat)
      requires Valid() && Wrap(len) == Wrap(ByteLen(part)) && Wrap(count) == Wrap(|part|)
      modifies this`position, this`bytes, this`chars, this`text
      ensures text == old(text) + part && bytes == Wrap(ByteLen(text)) && chars == Wrap(|text|)
      ensures position == if write then Wrap(start + ByteLen(text)) else start
    {
      hide Wrap, ByteLen;
      ByteLenJoins(text, part);
      Counted(ByteLen(text), ByteLen(part), len);
      Counted(|text|, |part|, count);
      Counted(start + ByteLen(text), ByteLen(part), len);
      if write {
        position := Wrap(position + len);
      }
      bytes := Wrap(bytes + len);
      chars := Wrap(chars + count);
      text := text + part;
    }

    method AsciiText(part: string)
      requires Valid() && Ascii(part)
      modifies this
      ensures Valid() && text == old(text) + part
    {
      AsciiLen(part);
      Copy(part, |part|, |part|);
    }

    /** Appends a text with escapes. */
    method EscapedText(part: string)
      requires Valid()
      modifies this
      ensures Valid() && text == old(text) + Escaped(part)
    {
      hide Escaped, Wrap;
      var len, count := TextSize(part);
      var extra := EscapedExtra(part);
      AddsAlike(part);
      WrapsThrough(len, |Escaped(part)| - |part|);
      WrapsThrough(count, |Escaped(part)| - |part|);
      Add(Escaped(part), len + extra, count + extra);
      if write {
        written := WriteEscaped(written, part);
      }
    }

    method QuotedText(part: string)
      requires Valid()
      modifies this
      ensures Valid() && text == old(text) + Quoted(part)
    {
      hide Escaped;
      AsciiText("\"");
      EscapedText(part);
      AsciiText("\"");
      assert text == old(text) + Quoted(part);
    }

    method Name(part: string)
      requires Valid()
      modifies this
      ensures Valid() && text == old(text) + part
    {
      var len, count := TextSize(part);
      Copy(part, len, count);
    }
  }

  ghost predicate Shows(show: nat -> string) {
    forall bits :: Ascii(show(bits))
  }

  lemma IntAscii(value: int)
    ensures Ascii(IntText(value))
  {
    DigitsRead(if value < 0 then -value else value);
  }

  /** Renders a value with no parts. */
  method LeafText(show: nat -> string, value: Value, out: Out) returns (ok: bool)
    requires out.Valid() && Shows(show) && FrameOf(value).None?
    modifies out
    ensures ok <==> Leaf(show, value).Some?
    ensures ok ==> out.Valid() && out.text == old(out.text) + Leaf(show, value).value
  {
    hide Quoted, HexText, IntText;
    ok := true;
    match value {
      case NoneValue => out.AsciiText("None");
      case UnitValue => out.AsciiText("Unit");
      case Bool(flag) => out.AsciiText(if flag then "true" else "false");
      case Int(number) =>
        IntAscii(number);
        var digits := new char[20];
        var from := WriteInt(number, digits);
        out.AsciiText(digits[from..]);
      case Float(bits) => out.AsciiText(show(bits));
      case Text(text) => out.QuotedText(text);
      case TextBytes(text) => TextBytesText(text, out);
      case OtherBytes(octets) => HexBytes(octets, out);
      case Function => out.AsciiText("Fn");
      case Cell => out.AsciiText("Cell");
      case _ => ok := false;
    }
  }

  method TextBytesText(text: string, out: Out)
    requires out.Valid()
    modifies out
    ensures out.Valid() && out.text == old(out.text) + ("b" + Quoted(text))
  {
    hide Quoted;
    out.AsciiText("b");
    out.QuotedText(text);
    Appended(old(out.text), "b", Quoted(text));
  }

  lemma Appended(before: string, first: string, second: string)
    ensures before + first + second == before + (first + second)
  {}

  method HexBytes(octets: seq<nat>, out: Out)
    requires out.Valid()
    modifies out
    ensures out.Valid() && out.text == old(out.text) + ("Bytes::from_hex(\"" + HexText(octets) + "\")")
  {
    hide HexText;
    out.AsciiText("Bytes::from_hex(\"");
    HexPairs(octets, out);
    Appended(old(out.text), "Bytes::from_hex(\"", HexText(octets));
    out.AsciiText("\")");
    Appended(old(out.text), "Bytes::from_hex(\"" + HexText(octets), "\")");
  }

  method HexPairs(octets: seq<nat>, out: Out)
    requires out.Valid()
    modifies out
    ensures out.Valid() && out.text == old(out.text) + HexText(octets)
  {
    hide HexDigit;
    var index: nat := 0;
    while index < |octets|
      invariant index <= |octets| && out.Valid() && out.text == old(out.text) + HexText(octets[..index])
    {
      var octet := octets[index];
      assert octets[..index + 1][..index] == octets[..index];
      HexAscii(octet / 16 % 16);
      HexAscii(octet % 16);
      out.AsciiText([HexDigit(octet / 16 % 16), HexDigit(octet % 16)]);
      index := index + 1;
    }
    assert octets[..index] == octets;
  }

  lemma HexAscii(value: nat)
    requires value < 16
    ensures HexDigit(value) as int < 0x80
  {}

  // ---- Composite values ----

  /** One more part behind its label. */
  lemma JoinedNext(show: nat -> string, parts: seq<(Option<string>, Value)>, depth: nat, index: nat)
    requires depth <= NATIVE_DEPTH && index < |parts|
    ensures var tag, part := parts[index].0, Spelled(show, parts[index].1, depth + 1);
      var before := Joined(show, parts, depth, index);
      Joined(show, parts, depth, index + 1) ==
        if before.None? || tag.None? || part.None? then None
        else Some(before.value + (if index > 0 then ", " else "") + tag.value + part.value)
  {
    hide Spelled;
  }

  /** A part that does not render makes the whole row not render. */
  lemma {:induction false} JoinedFails(show: nat -> string, parts: seq<(Option<string>, Value)>, depth: nat,
                                       index: nat, count: nat)
    requires depth <= NATIVE_DEPTH && index <= count <= |parts| && Joined(show, parts, depth, index).None?
    ensures Joined(show, parts, depth, count).None?
    decreases count
  {
    hide Spelled;
    if index < count {
      JoinedFails(show, parts, depth, index, count - 1);
    }
  }

  lemma NoParts(show: nat -> string, parts: seq<(Option<string>, Value)>, depth: nat)
    requires depth <= NATIVE_DEPTH
    ensures Joined(show, parts, depth, 0) == Some("")
  {}

  /** The fixed texts of composite values. */
  lemma FixedTexts()
    ensures Ascii(", ") && Ascii(": ") && Ascii("[") && Ascii("]") && Ascii("Error(") && Ascii("(") && Ascii(")")
    ensures Ascii(" {}") && Ascii("{}") && Ascii(" { ") && Ascii("{ ") && Ascii(" }") && Ascii("::")
  {}

  method Separator(index: nat, out: Out)
    requires out.Valid()
    modifies out
    ensures out.Valid() && out.text == old(out.text) + (if index > 0 then ", " else "")
  {
    if index > 0 {
      out.AsciiText(", ");
    }
  }

  /** Renders values one after the other. */
  method Items(show: nat -> string, values: seq<Value>, depth: nat, out: Out) returns (ok: bool)
    requires out.Valid() && Shows(show) && depth <= NATIVE_DEPTH
    modifies out
    ensures ok <==> Joined(show, Plain(values), depth, |values|).Some?
    ensures ok ==> out.Valid() && out.text == old(out.text) + Joined(show, Plain(values), depth, |values|).value
    decreases NATIVE_DEPTH + 1 - depth, 0
  {
    hide *;
    FixedTexts();
    ghost var parts, before := Plain(values), out.text;
    var index: nat := 0;
    NoParts(show, parts, depth);
    while index < |values|
      invariant index <= |values| && out.Valid() && Joined(show, parts, depth, index).Some?
      invariant out.text == before + Joined(show, parts, depth, index).value
    {
      JoinedNext(show, parts, depth, index);
      Separator(index, out);
      ok := Walk(show, values[index], depth + 1, out);
      if !ok {
        JoinedFails(show, parts, depth, index + 1, |values|);
        return false;
      }
      index := index + 1;
    }
    ok := true;
  }

  lemma LabelOf(field: (Option<string>, Value))
    ensures FieldLabel(field).1 == field.1 && (FieldLabel(field).0.Some? <==> field.0.Some?)
    ensures field.0.Some? ==> FieldLabel(field).0.value == field.0.value + ": "
  {}

  lemma KeyOf(entry: (string, Value))
    ensures KeyLabel(entry).0.Some?
    ensures KeyLabel(entry) == (Some((if IsIdentifier(entry.0) then entry.0 else Quoted(entry.0)) + ": "), entry.1)
  {}

  /** Renders the fields of a nominal value. */
  method Fields(show: nat -> string, fields: seq<(Option<string>, Value)>, depth: nat, out: Out) returns (ok: bool)
    requires out.Valid() && Shows(show) && depth <= NATIVE_DEPTH
    modifies out
    ensures var parts := FieldParts(fields);
      && (ok <==> Joined(show, parts, depth, |fields|).Some?)
      && (ok ==> out.Valid() && out.text == old(out.text) + Joined(show, parts, depth, |fields|).value)
    decreases NATIVE_DEPTH + 1 - depth, 0
  {
    hide *;
    FixedTexts();
    ghost var parts, before := FieldParts(fields), out.text;
    var index: nat := 0;
    NoParts(show, parts, depth);
    while index < |fields|
      invariant index <= |fields| && out.Valid() && Joined(show, parts, depth, index).Some?
      invariant out.text == before + Joined(show, parts, depth, index).value
    {
      JoinedNext(show, parts, depth, index);
      assert parts[index] == FieldLabel(fields[index]);
      LabelOf(fields[index]);
      Separator(index, out);
      if fields[index].0.None? {
        JoinedFails(show, parts, depth, index + 1, |fields|);
        return false;
      }
      out.Name(fields[index].0.value);
      out.AsciiText(": ");
      assert out.text == before + Joined(show, parts, depth, index).value + (if index > 0 then ", " else "")
        + parts[index].0.value;
      ok := Walk(show, fields[index].1, depth + 1, out);
      if !ok {
        JoinedFails(show, parts, depth, index + 1, |fields|);
        return false;
      }
      index := index + 1;
    }
    ok := true;
  }

  /** A key with its colon: an identifier as it is, any other key quoted. */
  method KeyText(entry: (string, Value), out: Out)
    requires out.Valid()
    modifies out
    ensures out.Valid() && KeyLabel(entry).0.Some? && out.text == old(out.text) + KeyLabel(entry).0.value
  {
    KeyOf(entry);
    FixedTexts();
    hide *;
    ghost var before := out.text;
    if IsIdentifier(entry.0) {
      out.Name(entry.0);
      Around(before, entry.0, ": ", "");
    } else {
      out.QuotedText(entry.0);
      Around(before, Quoted(entry.0), ": ", "");
    }
    out.AsciiText(": ");
  }

  /** Renders the entries of an untyped Object, quoting keys that are no identifiers. */
  method Entries(show: nat -> string, entries: seq<(string, Value)>, depth: nat, out: Out) returns (ok: bool)
    requires out.Valid() && Shows(show) && depth <= NATIVE_DEPTH
    modifies out
    ensures var parts := KeyParts(entries);
      && (ok <==> Joined(show, parts, depth, |entries|).Some?)
      && (ok ==> out.Valid() && out.text == old(out.text) + Joined(show, parts, depth, |entries|).value)
    decreases NATIVE_DEPTH + 1 - depth, 0
  {
    hide *;
    FixedTexts();
    ghost var parts, before := KeyParts(entries), out.text;
    var index: nat := 0;
    NoParts(show, parts, depth);
    while index < |entries|
      invariant index <= |entries| && out.Valid() && Joined(show, parts, depth, index).Some?
      invariant out.text == before + Joined(show, parts, depth, index).value
    {
      JoinedNext(show, parts, depth, index);
      assert parts[index] == KeyLabel(entries[index]);
      KeyOf(entries[index]);
      Separator(index, out);
      KeyText(entries[index], out);
      assert out.text == before + Joined(show, parts, depth, index).value + (if index > 0 then ", " else "")
        + parts[index].0.value;
      ok := Walk(show, entries[index].1, depth + 1, out);
      if !ok {
        JoinedFails(show, parts, depth, index + 1, |entries|);
        return false;
      }
      index := index + 1;
    }
    ok := true;
  }

  /** The type's own name at the end of an identity. */
  method TypeName(identity: string) returns (part: string)
    ensures part == TypePart(identity)
  {
    var end: nat := |identity|;
    while end > 0
      invariant end <= |identity| && TypePart(identity) == BehindLast(identity, end)
    {
      if end < |identity| && identity[end - 1] == ':' && identity[end] == ':' {
        return identity[end + 1..];
      }
      end := end - 1;
    }
    part := identity;
  }

  /** What a row between an opening and a closing text adds. */
  lemma Framed(show: nat -> string, value: Value, depth: nat)
    requires depth <= NATIVE_DEPTH
    ensures var frame := FrameOf(value);
      if frame.None? then Spelled(show, value, depth) == Leaf(show, value)
      else
        var inside := Joined(show, frame.value.parts, depth, |frame.value.parts|);
        Spelled(show, value, depth) ==
          if inside.None? then None else Some(frame.value.open + inside.value + frame.value.close)
  {
    hide Joined, Leaf, FrameOf;
  }

  lemma Around(before: string, open: string, inside: string, close: string)
    ensures before + open + inside + close == before + (open + inside + close)
    ensures before + open + inside == before + (open + inside) && open + inside + "" == open + inside
    ensures open + "" == open && inside + "" == inside
  {}

  /** The frames of composite values. */
  lemma Frames(value: Value)
    ensures value.List? ==> FrameOf(value) == Some(Frame("[", Plain(value.items), "]"))
    ensures value.Error? ==>
      FrameOf(value) == Some(Frame("Error(", Plain([value.kind, value.message, value.data]), ")"))
    ensures value.Nominal? && value.name.Some? ==> FrameOf(value) == Some(
      if value.fields == [] then Frame(value.name.value + " {}", [], "")
      else Frame(value.name.value + " { ", FieldParts(value.fields), " }"))
    ensures value.Enum? && value.names.Some? ==>
      (var path := TypePart(value.names.value.0) + "::" + value.names.value.1;
       FrameOf(value) == Some(if value.payload == [] then Frame(path, [], "")
         else Frame(path + "(", Plain(value.payload), ")")))
    ensures value.Object? ==> FrameOf(value) == Some(
      if value.entries == [] then Frame("{}", [], "")
      else Frame("{ ", KeyParts(value.entries), " }"))
    ensures FrameOf(value).Some? <==>
      value.List? || value.Error? || (value.Nominal? && value.name.Some?) || (value.Enum? && value.names.Some?)
        || value.Object?
  {
    hide TypePart, Plain, FieldParts, KeyParts;
  }

  /** Renders a List. */
  method ListText(show: nat -> string, value: Value, depth: nat, out: Out) returns (ok: bool)
    requires out.Valid() && Shows(show) && depth <= NATIVE_DEPTH
    requires value.List?
    modifies out
    ensures ok <==> Spelled(show, value, depth).Some?
    ensures ok ==> out.Valid() && out.text == old(out.text) + Spelled(show, value, depth).value
    decreases NATIVE_DEPTH + 1 - depth, 1
  {
    Frames(value);
    ghost var frame := FrameOf(value).value;
    Framed(show, value, depth);
    FixedTexts();
    NoParts(show, [], depth);
    hide *;
    ghost var before := out.text;
    out.AsciiText("[");
    ok := Items(show, value.items, depth, out);
    if ok {
      out.AsciiText("]");
      Around(before, frame.open, Joined(show, frame.parts, depth, |frame.parts|).value, frame.close);
    }
  }

  /** Renders an Error. */
  method ErrorText(show: nat -> string, value: Value, depth: nat, out: Out) returns (ok: bool)
    requires out.Valid() && Shows(show) && depth <= NATIVE_DEPTH
    requires value.Error?
    modifies out
    ensures ok <==> Spelled(show, value, depth).Some?
    ensures ok ==> out.Valid() && out.text == old(out.text) + Spelled(show, value, depth).value
    decreases NATIVE_DEPTH + 1 - depth, 1
  {
    Frames(value);
    ghost var frame := FrameOf(value).value;
    Framed(show, value, depth);
    FixedTexts();
    NoParts(show, [], depth);
    hide *;
    ghost var before := out.text;
    out.AsciiText("Error(");
    ok := Items(show, [value.kind, value.message, value.data], depth, out);
    if ok {
      out.AsciiText(")");
      Around(before, frame.open, Joined(show, frame.parts, depth, |frame.parts|).value, frame.close);
    }
  }

  /** Renders a nominal value with its type's name. */
  method NominalText(show: nat -> string, value: Value, depth: nat, out: Out) returns (ok: bool)
    requires out.Valid() && Shows(show) && depth <= NATIVE_DEPTH
    requires value.Nominal? && value.name.Some?
    modifies out
    ensures ok <==> Spelled(show, value, depth).Some?
    ensures ok ==> out.Valid() && out.text == old(out.text) + Spelled(show, value, depth).value
    decreases NATIVE_DEPTH + 1 - depth, 1
  {
    Frames(value);
    ghost var frame := FrameOf(value).value;
    Framed(show, value, depth);
    FixedTexts();
    NoParts(show, [], depth);
    hide *;
    ghost var before := out.text;
    out.Name(value.name.value);
    if value.fields == [] {
      out.AsciiText(" {}");
      Around(before, value.name.value, " {}", "");
      ok := true;
    } else {
      out.AsciiText(" { ");
      Around(before, value.name.value, " { ", "");
      ok := Fields(show, value.fields, depth, out);
      if ok {
        out.AsciiText(" }");
        Around(before, frame.open, Joined(show, frame.parts, depth, |frame.parts|).value, frame.close);
      }
    }
  }

  /** Renders an enum with its type's own name. */
  method EnumText(show: nat -> string, value: Value, depth: nat, out: Out) returns (ok: bool)
    requires out.Valid() && Shows(show) && depth <= NATIVE_DEPTH
    requires value.Enum? && value.names.Some?
    modifies out
    ensures ok <==> Spelled(show, value, depth).Some?
    ensures ok ==> out.Valid() && out.text == old(out.text) + Spelled(show, value, depth).value
    decreases NATIVE_DEPTH + 1 - depth, 1
  {
    Frames(value);
    ghost var frame := FrameOf(value).value;
    Framed(show, value, depth);
    FixedTexts();
    NoParts(show, [], depth);
    hide *;
    ghost var before := out.text;
    var part := TypeName(value.names.value.0);
    out.Name(part);
    out.AsciiText("::");
    out.Name(value.names.value.1);
    ghost var path := part + "::" + value.names.value.1;
    Around(before, part, "::", value.names.value.1);
    assert out.text == before + path;
    ok := true;
    if value.payload == [] {
      Around(before, path, "", "");
    } else {
      out.AsciiText("(");
      Around(before, path, "(", "");
      ok := Items(show, value.payload, depth, out);
      if ok {
        out.AsciiText(")");
        Around(before, frame.open, Joined(show, frame.parts, depth, |frame.parts|).value, frame.close);
      }
    }
  }

  /** The spelling of an untyped Object behind what was there. */
  method ObjectText(show: nat -> string, value: Value, depth: nat, out: Out) returns (ok: bool)
    requires out.Valid() && Shows(show) && depth <= NATIVE_DEPTH
    requires value.Object?
    modifies out
    ensures ok <==> Spelled(show, value, depth).Some?
    ensures ok ==> out.Valid() && out.text == old(out.text) + Spelled(show, value, depth).value
    decreases NATIVE_DEPTH + 1 - depth, 1
  {
    Frames(value);
    ghost var frame := FrameOf(value).value;
    Framed(show, value, depth);
    FixedTexts();
    NoParts(show, [], depth);
    hide *;
    ghost var before := out.text;
    if value.entries == [] {
      out.AsciiText("{}");
      Around(before, "{}", "", "");
      ok := true;
    } else {
      out.AsciiText("{ ");
      ok := Entries(show, value.entries, depth, out);
      if ok {
        out.AsciiText(" }");
        Around(before, frame.open, Joined(show, frame.parts, depth, |frame.parts|).value, frame.close);
      }
    }
  }

  /** Renders a value at a nesting depth. */
  method Walk(show: nat -> string, value: Value, depth: nat, out: Out) returns (ok: bool)
    requires out.Valid() && Shows(show)
    modifies out
    ensures ok <==> Spelled(show, value, depth).Some?
    ensures ok ==> out.Valid() && out.text == old(out.text) + Spelled(show, value, depth).value
    decreases NATIVE_DEPTH + 1 - depth, 2
  {
    if depth > NATIVE_DEPTH {
      return false;
    }
    Framed(show, value, depth);
    Frames(value);
    hide *;
    match value {
      case List(_) => ok := ListText(show, value, depth, out);
      case Error(_, _, _) => ok := ErrorText(show, value, depth, out);
      case Nominal(Some(_), _) => ok := NominalText(show, value, depth, out);
      case Enum(Some(_), _) => ok := EnumText(show, value, depth, out);
      case Object(_) => ok := ObjectText(show, value, depth, out);
      case _ => ok := LeafText(show, value, out);
    }
  }

  /** The walk gives up, memory for the String is refused, or `text` was written into a String of `size` bytes. */
  datatype Spelling = GivesUp | Exhausted | Written(text: string, size: nat, count: nat)

  /**
    * The spelling of a value as a String: what the second walk writes is what the first one measured, exactly when the
    * spelling takes less than 4 GiB.
    */
  method Literal(show: nat -> string, value: Value, target: nat) returns (r: Spelling)
    requires Shows(show) && target < WORD
    ensures r.GivesUp? <==> Spelled(show, value, 0).None?
    ensures Spelled(show, value, 0).Some? ==>
      var text := Spelled(show, value, 0).value;
      r == if StorageFor(Wrap(ByteLen(text))).Refused? then Exhausted
        else Written(text, Wrap(ByteLen(text)), Wrap(|text|))
    ensures r.Written? ==> (r.size == ByteLen(r.text) <==> ByteLen(r.text) < WORD)
  {
    hide Spelled, ByteLen, Wrap, StorageFor;
    var measure := new Out(0, false);
    var ok := Walk(show, value, 0, measure);
    if !ok {
      return GivesUp;
    }
    assert measure.text == Spelled(show, value, 0).value;
    if StorageFor(measure.bytes).Refused? {
      return Exhausted;
    }
    var out := new Out(target, true);
    var again := Walk(show, value, 0, out);
    assert measure.text == out.text == Spelled(show, value, 0).value;
    assert again && out.bytes == measure.bytes && out.chars == measure.chars;
    WrapsPast(ByteLen(out.written));
    r := Written(out.written, measure.bytes, measure.chars);
  }

  lemma WrapsPast(count: nat)
    ensures Wrap(count) == count <==> count < WORD
  {}

  /** The storage given for the measured size holds all of the text written into it exactly up to 0xFFFD_FFE0 bytes. */
  lemma SpellingFits(length: nat)
    requires !StorageFor(Wrap(length)).Refused?
    ensures TEXT_START + length <= RoundedSize(TEXT_START + Wrap(length)) <==> length <= 0xFFFD_FFE0
  {
    RoundedHolds(TEXT_START + Wrap(length));
    StorageBands(Wrap(length));
  }

  // ---- A spelling of more than 4 GiB ----

  lemma {:induction false} LettersStay(count: nat)
    ensures Escaped(Letters(count)) == Letters(count)
  {
    if count > 0 {
      LettersStay(count - 1);
      assert Letters(count)[1..] == Letters(count - 1);
      assert Letters(count) == ['a'] + Letters(count - 1);
    }
  }

  function Copies(value: Value, count: nat): seq<Value> {
    seq(count, _ => value)
  }

  lemma {:induction false} CopiesLen(show: nat -> string, value: Value, spelled: string, depth: nat, total: nat,
                                     count: nat)
    requires depth <= NATIVE_DEPTH && count <= total && Spelled(show, value, depth + 1) == Some(spelled)
    ensures var joined := Joined(show, Plain(Copies(value, total)), depth, count);
      joined.Some? && ByteLen(joined.value) == count * ByteLen(spelled) + (if count > 0 then 2 * (count - 1) else 0)
  {
    var parts := Plain(Copies(value, total));
    if count == 0 {
      NoParts(show, parts, depth);
      EscapedNothing();
    } else {
      CopiesLen(show, value, spelled, depth, total, count - 1);
      JoinedNext(show, parts, depth, count - 1);
      var before := Joined(show, parts, depth, count - 1).value;
      var comma := if count > 1 then ", " else "";
      FixedTexts();
      AsciiLen(comma);
      hide Spelled, Joined, ByteLen;
      ByteLenJoins(before, comma);
      ByteLenJoins(before + comma, "");
      ByteLenJoins(before + comma + "", spelled);
      assert before + comma + "" == before + comma;
      assert count * ByteLen(spelled) == (count - 1) * ByteLen(spelled) + ByteLen(spelled);
    }
  }

  /** A List of 256 references to one String of 16 MiB spells as more than 4 GiB. */
  lemma LargeSpelling(show: nat -> string)
    ensures var spelled := Spelled(show, List(Copies(Text(Letters(0x100_0000)), 256)), 0);
      spelled.Some? && ByteLen(spelled.value) > WORD
  {
    var text := Text(Letters(0x100_0000));
    var list := List(Copies(text, 256));
    var inside := Joined(show, Plain(Copies(text, 256)), 0, 256);
    LettersStay(0x100_0000);
    LettersLen(0x100_0000);
    var quoted := Quoted(Letters(0x100_0000));
    QuotedLen(Letters(0x100_0000));
    assert Spelled(show, text, 1) == Some(quoted);
    CopiesLen(show, text, quoted, 0, 256, 256);
    Framed(show, list, 0);
    Frames(list);
    hide Spelled, Joined, ByteLen, Quoted, Letters;
    ByteLenJoins("[", inside.value);
    ByteLenJoins("[" + inside.value, "]");
  }

  lemma QuotedLen(text: string)
    ensures ByteLen(Quoted(text)) == ByteLen(Escaped(text)) + 2
  {
    FixedTexts();
    AsciiLen("\"");
    ByteLenJoins("\"", Escaped(text));
    ByteLenJoins("\"" + Escaped(text), "\"");
  }
}
