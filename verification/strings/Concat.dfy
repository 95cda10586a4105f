/** The language's `+`, one step at a time and batched over a row of operands. */
module Concatenation {
  import opened Decimals
  import opened HeapLayout
  import opened TextStorage
  import opened Utf8
  import opened Wrappers

  datatype Value =
    | Text(text: string)
    | Bool(flag: bool)
    | Int(number: int)
    | Float(bits: nat)
    | List(items: seq<Value>)
    | Error(kind: string, message: string, data: Value, origin: nat)
    | Other(identity: nat)

  /** Float arithmetic and the text of Floats. */
  datatype Floats = Floats(add: (nat, nat) -> nat, of: int -> nat, show: nat -> string)

  const NOT_RENDERABLE := "String addition requires a String, Bool, Int, or Float right operand"
  const NOT_NUMERIC := "numeric operations require an Int or Float value"
  const OVERFLOW := "integer arithmetic overflowed the ExS signed 64-bit range"

  // ---- One step ----

  /** The text of a right operand of String `+`, none for values it cannot render. */
  ghost function Rendered(floats: Floats, value: Value): Option<string> {
    match value
    case Text(text) => Some(text)
    case Bool(flag) => Some(if flag then "true" else "false")
    case Int(number) => Some(IntText(number))
    case Float(bits) => Some(floats.show(bits))
    case _ => None
  }

  /** What adding leads to: a value, exhausted memory, or text written past the end of its storage. */
  datatype Sum = Finished(value: Value) | Exhausted | Overrun

  /** What becomes of a text that is not stored whole. */
  function Unstored(storage: Storage): Sum {
    if storage.Short? then Overrun else Exhausted
  }

  ghost function TextOf(text: string): Sum {
    if Stored(ByteLen(text)) then Finished(Text(text)) else Unstored(StorageFor(ByteLen(text)))
  }

  predicate IsNumber(value: Value) {
    value.Int? || value.Float?
  }

  function AsFloat(floats: Floats, value: Value): nat
    requires IsNumber(value)
  {
    if value.Int? then floats.of(value.number) else value.bits
  }

  /** Numeric `+`. */
  function Add(floats: Floats, left: Value, right: Value, origin: nat): (sum: Value)
    ensures !sum.Text? && (sum.Int? ==> IsInt(sum.number))
  {
    if !IsNumber(left) then Error("TypeError", NOT_NUMERIC, left, origin)
    else if !IsNumber(right) then Error("TypeError", NOT_NUMERIC, right, origin)
    else if left.Int? && right.Int? then
      if IsInt(left.number + right.number) then Int(left.number + right.number)
        else Error("IntOverflowError", OVERFLOW, left, origin)
    else Float(floats.add(AsFloat(floats, left), AsFloat(floats, right)))
  }

  /** List `+`: the elements of a List on the right, or the value itself. */
  function ListAdd(items: seq<Value>, right: Value): (sum: Sum)
    ensures sum.Exhausted? || (sum.Finished? && sum.value.List?)
  {
    var more := if right.List? then right.items else [right];
    if |items| + |more| < WORD then Finished(List(items + more)) else Exhausted
  }

  /** `left + right`. */
  ghost function Plus(floats: Floats, left: Value, right: Value, origin: nat): Sum {
    match left
    case Text(text) =>
      var part := Rendered(floats, right);
      if part.None? then Finished(Error("TypeError", NOT_RENDERABLE, right, origin)) else TextOf(text + part.value)
    case List(items) => ListAdd(items, right)
    case _ => Finished(Add(floats, left, right, origin))
  }

  /** The origin of an Error that a step creates: its own position, or the current one. */
  function Origin(positions: Option<seq<nat>>, current: nat, step: nat): nat
    requires step > 0 && (positions.Some? ==> step <= |positions.value|)
  {
    if positions.Some? then positions.value[step - 1] else current
  }

  ghost predicate Positioned(positions: Option<seq<nat>>, operands: seq<Value>) {
    positions.Some? ==> |operands| <= |positions.value| + 1
  }

  /** The operands from `index` on added one at a time, from the left. */
  ghost function Fold(floats: Floats, left: Sum, operands: seq<Value>, index: nat,
    positions: Option<seq<nat>>, current: nat): Sum
    requires 1 <= index && Positioned(positions, operands)
    decreases |operands| - index
  {
    if !left.Finished? || index >= |operands| then left
    else
      var sum := Plus(floats, left.value, operands[index], Origin(positions, current, index));
      Fold(floats, sum, operands, index + 1, positions, current)
  }

  // ---- Runs of renderable operands ----

  ghost predicate AllRender(floats: Floats, operands: seq<Value>, from: nat, end: nat)
    requires from <= end <= |operands|
  {
    forall i :: from <= i < end ==> Rendered(floats, operands[i]).Some?
  }

  /** The operands from `from` to `end` written after each other. */
  ghost function Joined(floats: Floats, operands: seq<Value>, from: nat, end: nat): string
    requires from <= end <= |operands| && AllRender(floats, operands, from, end)
  {
    if from == end then [] else Joined(floats, operands, from, end - 1) + Rendered(floats, operands[end - 1]).value
  }

  lemma {:induction false} JoinedFirst(floats: Floats, operands: seq<Value>, from: nat, end: nat)
    requires from < end <= |operands| && AllRender(floats, operands, from, end)
    ensures Joined(floats, operands, from, end) ==
      Rendered(floats, operands[from]).value + Joined(floats, operands, from + 1, end)
    decreases end
  {
    hide Rendered;
    if from + 1 < end {
      JoinedFirst(floats, operands, from, end - 1);
      var first, last := Rendered(floats, operands[from]).value, Rendered(floats, operands[end - 1]).value;
      var middle := Joined(floats, operands, from + 1, end - 1);
      assert Joined(floats, operands, from + 1, end) == middle + last;
      assert (first + middle) + last == first + (middle + last);
    } else {
      assert Joined(floats, operands, from, from) == [] == Joined(floats, operands, end, end);
      assert [] + Rendered(floats, operands[from]).value == Rendered(floats, operands[from]).value + [];
    }
  }

  /** The end of the run of renderable operands that begins at `index`. */
  ghost function RunEnd(floats: Floats, operands: seq<Value>, index: nat): (end: nat)
    requires index <= |operands|
    ensures index <= end <= |operands| && AllRender(floats, operands, index, end)
    ensures end < |operands| ==> Rendered(floats, operands[end]).None?
    decreases |operands| - index
  {
    if index == |operands| || Rendered(floats, operands[index]).None? then index
      else RunEnd(floats, operands, index + 1)
  }

  /** The bytes of that run. */
  ghost function RunLen(floats: Floats, operands: seq<Value>, index: nat): nat
    decreases |operands| - index
  {
    if index >= |operands| || Rendered(floats, operands[index]).None? then 0
    else ByteLen(Rendered(floats, operands[index]).value) + RunLen(floats, operands, index + 1)
  }

  /** The first length that is not stored when the run is added operand by operand to `length` bytes, or the last. */
  ghost function FirstUnstored(floats: Floats, operands: seq<Value>, length: nat, index: nat): nat
    decreases |operands| - index
  {
    if index >= |operands| || Rendered(floats, operands[index]).None? then length
    else
      var longer := length + ByteLen(Rendered(floats, operands[index]).value);
      if Stored(longer) then FirstUnstored(floats, operands, longer, index + 1) else longer
  }

  lemma {:induction false} RunLenIs(floats: Floats, operands: seq<Value>, index: nat)
    requires index <= |operands|
    ensures RunLen(floats, operands, index) == ByteLen(Joined(floats, operands, index, RunEnd(floats, operands, index)))
    decreases |operands| - index
  {
    hide Rendered;
    if index < |operands| && Rendered(floats, operands[index]).Some? {
      var end := RunEnd(floats, operands, index);
      RunLenIs(floats, operands, index + 1);
      JoinedFirst(floats, operands, index, end);
      ByteLenJoins(Rendered(floats, operands[index]).value, Joined(floats, operands, index + 1, end));
    }
  }

  /** What adding a run of renderable operands one at a time comes to. */
  lemma {:induction false} RunFolds(floats: Floats, text: string, operands: seq<Value>, index: nat,
    positions: Option<seq<nat>>, current: nat)
    requires 1 <= index <= |operands| && Positioned(positions, operands) && Stored(ByteLen(text))
    ensures var end := RunEnd(floats, operands, index);
      Fold(floats, Finished(Text(text)), operands, index, positions, current) ==
        if Stored(ByteLen(text) + RunLen(floats, operands, index)) then
          Fold(floats, Finished(Text(text + Joined(floats, operands, index, end))), operands, end, positions, current)
        else Unstored(StorageFor(FirstUnstored(floats, operands, ByteLen(text), index)))
    decreases |operands| - index
  {
    hide Rendered, Stored, ByteLen;
    var end := RunEnd(floats, operands, index);
    if index == |operands| || Rendered(floats, operands[index]).None? {
      assert text + [] == text;
    } else {
      JoinedFirst(floats, operands, index, end);
      var part := Rendered(floats, operands[index]).value;
      var later := Joined(floats, operands, index + 1, end);
      assert text + (part + later) == (text + part) + later;
      ByteLenJoins(text, part);
      StoredShrinks(ByteLen(text + part), ByteLen(text + part) + RunLen(floats, operands, index + 1));
      if Stored(ByteLen(text + part)) {
        StoredCounts(ByteLen(text + part));
        RunFolds(floats, text + part, operands, index + 1, positions, current);
      }
    }
  }

  /** A row of operands adds up to a String only when it begins with one and every other operand renders. */
  lemma {:induction false} TextComesFromText(floats: Floats, left: Value, operands: seq<Value>, index: nat,
    positions: Option<seq<nat>>, current: nat, text: string)
    requires 1 <= index <= |operands| && Positioned(positions, operands)
    requires Fold(floats, Finished(left), operands, index, positions, current) == Finished(Text(text))
    ensures left.Text? && AllRender(floats, operands, index, |operands|)
    ensures text == left.text + Joined(floats, operands, index, |operands|)
    decreases |operands| - index
  {
    hide Rendered, Joined, AllRender, Fold, Plus;
    if index < |operands| {
      var origin := Origin(positions, current, index);
      var sum := Plus(floats, left, operands[index], origin);
      NextStep(floats, left, operands, index, positions, current);
      if !sum.Finished? {
        TooLong(floats, sum, operands, index + 1, positions, current);
      }
      TextComesFromText(floats, sum.value, operands, index + 1, positions, current, text);
      PlusText(floats, left, operands[index], origin);
      RendersFrom(floats, operands, index);
      JoinedFirst(floats, operands, index, |operands|);
      var part, later := Rendered(floats, operands[index]).value, Joined(floats, operands, index + 1, |operands|);
      assert left.text + (part + later) == (left.text + part) + later;
    } else {
      TooLong(floats, Finished(left), operands, index, positions, current);
      MeasureStart(floats, operands, text, index);
    }
  }

  lemma RendersFrom(floats: Floats, operands: seq<Value>, index: nat)
    requires index < |operands| && Rendered(floats, operands[index]).Some?
    requires AllRender(floats, operands, index + 1, |operands|)
    ensures AllRender(floats, operands, index, |operands|)
  {
    hide Rendered;
  }

  /** One step makes a String of a String and a renderable operand only. */
  lemma PlusText(floats: Floats, left: Value, right: Value, origin: nat)
    requires var sum := Plus(floats, left, right, origin); sum.Finished? && sum.value.Text?
    ensures left.Text? && Rendered(floats, right).Some?
    ensures Plus(floats, left, right, origin).value.text == left.text + Rendered(floats, right).value
  {
    hide Rendered, Stored, ByteLen;
  }

  // ---- The batched form ----

  /** How long an operand renders. */
  method PartSize(floats: Floats, value: Value) returns (len: nat, chars: nat)
    requires Rendered(floats, value).Some?
    ensures len == ByteLen(Rendered(floats, value).value) && chars == |Rendered(floats, value).value|
  {
    match value {
      case Text(text) => len, chars := TextSize(text);
      case Bool(flag) =>
        len := if flag then 4 else 5;
        chars := len;
        AsciiLen(if flag then "true" else "false");
      case Int(number) =>
        len := IntLen(number);
        chars := len;
        IntAscii(number);
      case Float(bits) => len, chars := TextSize(floats.show(bits));
    }
  }

  lemma IntAscii(value: int)
    ensures ByteLen(IntText(value)) == |IntText(value)|
  {
    DigitsRead(if value < 0 then -value else value);
    AsciiLen(IntText(value));
  }

  ghost predicate Ints(operands: seq<Value>) {
    forall i :: 0 <= i < |operands| && operands[i].Int? ==> IsInt(operands[i].number)
  }

  lemma IntsKept(operands: seq<Value>, first: Value)
    requires Ints(operands) && operands != [] && (first.Int? ==> IsInt(first.number))
    ensures Ints(operands[0 := first])
  {}

  /** Writes the parts of a run, measured before, into one String. */
  method Join(floats: Floats, slots: array<Value>, end: nat, len: nat, chars: nat) returns (r: Sum)
    requires end <= slots.Length && AllRender(floats, slots[..], 0, end) && Ints(slots[..])
    requires var text := Joined(floats, slots[..], 0, end); ByteLen(text) == len && |text| == chars
    ensures r == TextOf(Joined(floats, slots[..], 0, end))
  {
    hide Rendered;
    if TEXT_START + len >= WORD {
      return Exhausted;
    }
    if RoundedSize(TEXT_START + len) < TEXT_START + len {
      return Overrun;
    }
    if NeverFits(RoundedSize(TEXT_START + len)) {
      return Exhausted;
    }
    var text: string, position: nat, index: nat := [], 0, 0;
    while index < end
      invariant index <= end && text == Joined(floats, slots[..], 0, index)
      invariant position == ByteLen(text) <= len
    {
      var part := RenderPart(floats, slots[index]);
      var partLen, _ := TextSize(part);
      ByteLenJoins(text, part);
      PartsFit(floats, slots[..], index + 1, end);
      text := text + part;
      position := position + partLen;
      index := index + 1;
    }
    // The text fills exactly the bytes and characters measured.
    assert position == len && |text| == chars;
    r := Finished(Text(text));
  }

  lemma {:induction false} PartsFit(floats: Floats, operands: seq<Value>, index: nat, end: nat)
    requires index <= end <= |operands| && AllRender(floats, operands, 0, end)
    ensures ByteLen(Joined(floats, operands, 0, index)) <= ByteLen(Joined(floats, operands, 0, end))
    decreases end
  {
    hide Rendered;
    if index < end {
      PartsFit(floats, operands, index, end - 1);
      ByteLenJoins(Joined(floats, operands, 0, end - 1), Rendered(floats, operands[end - 1]).value);
    }
  }

  method RenderPart(floats: Floats, value: Value) returns (part: string)
    requires Rendered(floats, value).Some? && (value.Int? ==> IsInt(value.number))
    ensures part == Rendered(floats, value).value
  {
    match value {
      case Text(text) => part := text;
      case Bool(flag) => part := if flag then "true" else "false";
      case Int(number) =>
        var digits := new char[20];
        var from := WriteInt(number, digits);
        part := digits[from..];
      case Float(bits) => part := floats.show(bits);
    }
  }

  method Renders(floats: Floats, value: Value) returns (renders: bool)
    ensures renders <==> Rendered(floats, value).Some?
  {
    renders := value.Text? || value.Bool? || value.Int? || value.Float?;
  }

  /** One more operand of a run. */
  lemma MeasureNext(floats: Floats, row: seq<Value>, text: string, index: nat, end: nat)
    requires index <= end < |row| && AllRender(floats, row, index, end) && Rendered(floats, row[end]).Some?
    ensures AllRender(floats, row, index, end + 1)
    ensures var part, whole := Rendered(floats, row[end]).value, text + Joined(floats, row, index, end + 1);
      && ByteLen(whole) == ByteLen(text + Joined(floats, row, index, end)) + ByteLen(part)
      && |whole| == |text + Joined(floats, row, index, end)| + |part|
      && RunEnd(floats, row, end) == RunEnd(floats, row, end + 1)
      && RunLen(floats, row, end) == ByteLen(part) + RunLen(floats, row, end + 1)
  {
    hide Rendered, ByteLen;
    var part, before := Rendered(floats, row[end]).value, Joined(floats, row, index, end);
    assert AllRender(floats, row, index, end + 1);
    assert text + (before + part) == (text + before) + part;
    ByteLenJoins(text + before, part);
  }

  lemma MeasureDone(floats: Floats, row: seq<Value>, end: nat)
    requires end <= |row| && (end < |row| ==> Rendered(floats, row[end]).None?)
    ensures RunEnd(floats, row, end) == end && RunLen(floats, row, end) == 0
  {
    hide Rendered;
  }

  /** Measures the run of renderable operands after a String; nothing when 32 bits cannot count its bytes. */
  method Measure(floats: Floats, slots: array<Value>, text: string, index: nat) returns (r: Option<(nat, nat, nat)>)
    requires index <= slots.Length && TEXT_START + ByteLen(text) < WORD
    ensures r.None? <==> ByteLen(text) + RunLen(floats, slots[..], index) >= WORD
    ensures r.Some? ==> r.value.0 == RunEnd(floats, slots[..], index)
    ensures r.Some? ==> var whole := text + Joined(floats, slots[..], index, r.value.0);
      r.value.1 == ByteLen(whole) && r.value.2 == |whole|
  {
    hide *;
    var end, count: nat := index, slots.Length;
    var len, chars := TextSize(text);
    ghost var row := slots[..];
    MeasureStart(floats, row, text, index);
    while end < count
      invariant index <= end <= count && AllRender(floats, row, index, end) && slots[..] == row
      invariant len == ByteLen(text + Joined(floats, row, index, end)) < WORD
      invariant chars == |text + Joined(floats, row, index, end)|
      invariant RunEnd(floats, row, end) == RunEnd(floats, row, index)
      invariant len + RunLen(floats, row, end) == ByteLen(text) + RunLen(floats, row, index)
    {
      var renders := Renders(floats, slots[end]);
      if !renders {
        break;
      }
      var partLen, partChars := PartSize(floats, slots[end]);
      MeasureNext(floats, row, text, index, end);
      if len + partLen >= WORD || chars + partChars >= WORD {
        return None;
      }
      len := len + partLen;
      chars := chars + partChars;
      end := end + 1;
    }
    MeasureDone(floats, row, end);
    r := Some((end, len, chars));
  }

  lemma MeasureStart(floats: Floats, row: seq<Value>, text: string, index: nat)
    requires index <= |row|
    ensures AllRender(floats, row, index, index) && text + Joined(floats, row, index, index) == text
  {}

  /** The bytes of a row's first run, the String before it included. */
  ghost function WholeLen(floats: Floats, operands: seq<Value>): nat
    requires operands != [] && operands[0].Text?
  {
    ByteLen(operands[0].text) + RunLen(floats, operands, 1)
  }

  /** The storage for the first text that is not stored when the operands are added one at a time. */
  ghost function FirstStorage(floats: Floats, operands: seq<Value>): Storage
    requires operands != [] && operands[0].Text?
  {
    StorageFor(FirstUnstored(floats, operands, ByteLen(operands[0].text), 1))
  }

  /**
    * The one way a batch differs: the whole run is not stored, and just one of it and the first sum that is not stored
    * falls short of its storage, while the other is refused.
    */
  ghost predicate Slips(floats: Floats, operands: seq<Value>)
    requires operands != []
  {
    && operands[0].Text? && !Stored(WholeLen(floats, operands))
    && StorageFor(WholeLen(floats, operands)).Short? != FirstStorage(floats, operands).Short?
  }

  /**
    * Evaluates a row of operands: the same value, Errors and positions included, as adding them one at a time, exactly
    * when the row does not slip. A row that slips overruns at once or one at a time, and is refused the other way.
    */
  method Concat(floats: Floats, slots: array<Value>, positions: Option<seq<nat>>, current: nat) returns (r: Sum)
    requires slots.Length > 0 && Positioned(positions, slots[..]) && Ints(slots[..])
    requires slots[0].Text? ==> Stored(ByteLen(slots[0].text))
    modifies slots
    ensures r == Fold(floats, Finished(old(slots[0])), old(slots[..]), 1, positions, current)
      <==> !Slips(floats, old(slots[..]))
    ensures Slips(floats, old(slots[..])) ==>
      var single := Fold(floats, Finished(old(slots[0])), old(slots[..]), 1, positions, current);
      if StorageFor(WholeLen(floats, old(slots[..]))).Short? then r == Overrun && single == Exhausted
      else r == Exhausted && single == Overrun
    ensures slots[1..] == old(slots[1..])
  {
    hide Rendered, Ints, Fold, Add, ListAdd, Slips, FirstUnstored, FirstStorage, WholeLen, Stored, StorageFor;
    hide RunEnd, RunLen, Joined, AllRender, ByteLen, TextOf;
    ghost var operands := slots[..];
    var count, index := slots.Length, 1;
    if operands[0].Text? {
      FirstLength(floats, operands);
      FirstRun(floats, operands, positions, current);
      StoredRuns(floats, operands);
    } else {
      NoTextNoSlip(floats, operands);
    }
    while index < count
      invariant 1 <= index <= count && slots[1..] == operands[1..] && Ints(slots[..])
      // A String is joined only while no operand has been consumed: a joined run restarts at slot 0.
      invariant index == 1 ==> slots[..] == operands
      invariant slots[0].Text? ==> (index == 1 || index == count || Rendered(floats, operands[index]).None?)
      invariant Fold(floats, Finished(slots[0]), operands, index, positions, current) ==
        Fold(floats, Finished(operands[0]), operands, 1, positions, current)
      invariant slots[0].Text? ==> Stored(ByteLen(slots[0].text))
      invariant index > 1 ==> !Slips(floats, operands)
    {
      ghost var row := slots[..];
      var left, right := slots[0], slots[index];
      assert right == operands[index];
      NextStep(floats, left, operands, index, positions, current);
      var result: Value;
      if left.Text? {
        var sum, next := AddToText(floats, slots, index, positions, current, operands);
        if !sum.Finished? {
          RunStops(floats, operands, positions, current);
          return sum;
        }
        result, index := sum.value, next;
      } else if left.List? {
        var sum := ListAdd(left.items, right);
        if sum.Exhausted? {
          TooLong(floats, Exhausted, operands, index + 1, positions, current);
          return Exhausted;
        }
        result := sum.value;
        index := index + 1;
      } else {
        result := Add(floats, left, right, Origin(positions, current, index));
        index := index + 1;
      }
      IntsKept(slots[..], result);
      slots[0] := result;
      assert slots[..] == row[0 := result];
    }
    TooLong(floats, Finished(slots[0]), operands, index, positions, current);
    r := Finished(slots[0]);
  }

  /** Adds the run that follows a String in slot 0, or reports the operand that does not render. */
  method AddToText(floats: Floats, slots: array<Value>, index: nat, positions: Option<seq<nat>>, current: nat,
                   ghost operands: seq<Value>)
    returns (sum: Sum, next: nat)
    requires 1 <= index < slots.Length == |operands| && slots[1..] == operands[1..] && Ints(slots[..])
    requires Positioned(positions, operands) && (index == 1 ==> slots[..] == operands)
    requires slots[0].Text? && Stored(ByteLen(slots[0].text))
    requires index > 1 ==> Rendered(floats, operands[index]).None?
    ensures !sum.Finished? ==>
      && index == 1 && !Stored(WholeLen(floats, operands))
      && sum == Unstored(StorageFor(WholeLen(floats, operands)))
    ensures sum.Finished? ==>
      && index < next <= slots.Length && (sum.value.Text? || sum.value.Error?)
      && (sum.value.Text? ==> Stored(ByteLen(sum.value.text)))
      && (sum.value.Text? ==> next == slots.Length || Rendered(floats, operands[next]).None?)
      && (index == 1 ==> !Slips(floats, operands))
      && Fold(floats, sum, operands, next, positions, current)
        == Fold(floats, Finished(slots[0]), operands, index, positions, current)
  {
    hide Rendered, Ints, Fold, Slips, FirstUnstored, FirstStorage, WholeLen, StorageFor, RunEnd, RunLen;
    hide Joined, AllRender, ByteLen, TextOf;
    ghost var text := slots[0].text;
    StoredCounts(ByteLen(text));
    SameRun(floats, slots[..], operands, index);
    NoRun(floats, operands, index);
    if index == 1 {
      FirstLength(floats, operands);
      FirstRun(floats, operands, positions, current);
      StoredRuns(floats, operands);
    }
    var run := Measure(floats, slots, slots[0].text, index);
    if run.None? {
      WholeLenIs(floats, operands);
      return Exhausted, index;
    }
    var (end, len, chars) := run.value;
    if end == index {
      NextStep(floats, slots[0], operands, index, positions, current);
      TypeErrorStep(floats, text, operands, index, Origin(positions, current, index));
      return Finished(Error("TypeError", NOT_RENDERABLE, slots[index], Origin(positions, current, index))), index + 1;
    }
    WholeRun(floats, operands, end);
    sum := Join(floats, slots, end, len, chars);
    next := end;
  }

  lemma NoRun(floats: Floats, operands: seq<Value>, index: nat)
    requires index < |operands|
    ensures Rendered(floats, operands[index]).None? <==> RunEnd(floats, operands, index) == index
    ensures Rendered(floats, operands[index]).None? ==> RunLen(floats, operands, index) == 0
  {
    hide Rendered;
  }

  lemma WholeLenIs(floats: Floats, operands: seq<Value>)
    requires operands != []
    ensures operands[0].Text? ==>
      WholeLen(floats, operands) == ByteLen(operands[0].text) + RunLen(floats, operands, 1)
  {}

  lemma TypeErrorStep(floats: Floats, text: string, operands: seq<Value>, index: nat, origin: nat)
    requires index < |operands| && Rendered(floats, operands[index]).None?
    ensures Plus(floats, Text(text), operands[index], origin)
         == Finished(Error("TypeError", NOT_RENDERABLE, operands[index], origin))
  {
    hide Rendered;
  }

  /** What a row that begins with a String adds up to as far as its first run goes. */
  ghost function AfterRun(floats: Floats, operands: seq<Value>, positions: Option<seq<nat>>, current: nat): Sum
    requires operands != [] && operands[0].Text? && Positioned(positions, operands)
  {
    var end := RunEnd(floats, operands, 1);
    var whole := TextOf(operands[0].text + Joined(floats, operands, 1, end));
    if whole.Finished? then Fold(floats, whole, operands, end, positions, current)
    else Unstored(FirstStorage(floats, operands))
  }

  /** The length of the first run. */
  lemma FirstLength(floats: Floats, operands: seq<Value>)
    requires operands != [] && operands[0].Text?
    ensures var whole := operands[0].text + Joined(floats, operands, 1, RunEnd(floats, operands, 1));
      && ByteLen(whole) == WholeLen(floats, operands)
      && (TextOf(whole).Finished? <==> Stored(WholeLen(floats, operands)))
      && (TextOf(whole).Finished? ==> TextOf(whole).value == Text(whole))
      && (!TextOf(whole).Finished? ==> TextOf(whole) == Unstored(StorageFor(WholeLen(floats, operands))))
    ensures TEXT_START + WholeLen(floats, operands) >= WORD ==> StorageFor(WholeLen(floats, operands)).Refused?
  {
    RunLenIs(floats, operands, 1);
    assert TEXT_START + WholeLen(floats, operands) >= WORD ==> StorageFor(WholeLen(floats, operands)).Refused?;
    ByteLenJoins(operands[0].text, Joined(floats, operands, 1, RunEnd(floats, operands, 1)));
    hide Rendered, RunEnd, RunLen, Joined, AllRender, ByteLen, StorageFor;
  }

  /** Adding the first run one at a time, and at once. */
  lemma FirstRun(floats: Floats, operands: seq<Value>, positions: Option<seq<nat>>, current: nat)
    requires operands != [] && Positioned(positions, operands)
    requires operands[0].Text? && Stored(ByteLen(operands[0].text))
    ensures Fold(floats, Finished(operands[0]), operands, 1, positions, current)
        == AfterRun(floats, operands, positions, current)
  {
    hide Rendered, Fold, ByteLen, FirstUnstored, Stored, StorageFor, RunLen, RunEnd, Joined, AllRender, TextOf;
    FirstLength(floats, operands);
    RunFolds(floats, operands[0].text, operands, 1, positions, current);
  }

  /** A row whose first run is stored, or empty, does not slip. */
  lemma StoredRuns(floats: Floats, operands: seq<Value>)
    requires operands != [] && operands[0].Text? && Stored(ByteLen(operands[0].text))
    ensures Stored(WholeLen(floats, operands)) ==> !Slips(floats, operands)
    ensures RunEnd(floats, operands, 1) == 1 ==> !Slips(floats, operands)
  {
    hide Rendered, ByteLen, StorageFor;
  }

  lemma NoTextNoSlip(floats: Floats, operands: seq<Value>)
    requires operands != [] && !operands[0].Text?
    ensures !Slips(floats, operands)
  {}

  /** What the batch makes of a first run that is not stored. */
  ghost predicate BatchStops(floats: Floats, operands: seq<Value>, positions: Option<seq<nat>>, current: nat, r: Sum)
    requires operands != [] && Positioned(positions, operands)
  {
    var single := Fold(floats, Finished(operands[0]), operands, 1, positions, current);
    && (r == single <==> !Slips(floats, operands))
    && (Slips(floats, operands) ==>
         if StorageFor(WholeLen(floats, operands)).Short? then r == Overrun && single == Exhausted
         else r == Exhausted && single == Overrun)
  }

  lemma RunStops(floats: Floats, operands: seq<Value>, positions: Option<seq<nat>>, current: nat)
    requires operands != [] && Positioned(positions, operands) && operands[0].Text?
    requires Stored(ByteLen(operands[0].text)) && !Stored(WholeLen(floats, operands))
    ensures BatchStops(floats, operands, positions, current, Unstored(StorageFor(WholeLen(floats, operands))))
  {
    FirstLength(floats, operands);
    FirstRun(floats, operands, positions, current);
    hide Fold, StorageFor, WholeLen, FirstStorage, RunEnd, Joined, AllRender, TextOf;
  }

  lemma OneText(floats: Floats, operands: seq<Value>, length: nat, index: nat)
    requires index < |operands| && operands[index].Text?
    ensures RunLen(floats, operands, index) == ByteLen(operands[index].text) + RunLen(floats, operands, index + 1)
    ensures !Stored(length + ByteLen(operands[index].text)) ==>
      FirstUnstored(floats, operands, length, index) == length + ByteLen(operands[index].text)
  {
    assert Rendered(floats, operands[index]) == Some(operands[index].text);
    hide Rendered, ByteLen, StorageFor;
  }

  lemma NothingLeft(floats: Floats, operands: seq<Value>)
    ensures RunLen(floats, operands, |operands|) == 0
  {}

  /** The first run of three Strings. */
  lemma ThreeTexts(floats: Floats, row: seq<Value>)
    requires |row| == 3 && row[0].Text? && row[1].Text? && row[2].Text?
    ensures var two := ByteLen(row[0].text) + ByteLen(row[1].text);
      && WholeLen(floats, row) == two + ByteLen(row[2].text)
      && (!Stored(two) ==> FirstStorage(floats, row) == StorageFor(two))
  {
    hide ByteLen, StorageFor, RunLen, FirstUnstored, Rendered;
    OneText(floats, row, ByteLen(row[0].text), 1);
    OneText(floats, row, 0, 2);
    NothingLeft(floats, row);
  }

  /**
    * A String of 0x7FFF_FFF5 letters twice and then 16 letters: one at a time the first two overrun their storage,
    * while the whole run is refused.
    */
  lemma SingleOverruns(floats: Floats)
    ensures var text := Letters(0x7FFF_FFF5);
      var row := [Text(text), Text(text), Text(Letters(16))];
      Stored(ByteLen(text)) && Slips(floats, row) && StorageFor(WholeLen(floats, row)).Refused?
  {
    SlipsAt(floats, 0x7FFF_FFF5, 16);
  }

  /**
    * A String of 0x7FFF_FFF0 letters twice and then nine letters: one at a time the first two are refused, while the
    * whole run overruns its storage.
    */
  lemma BatchOverruns(floats: Floats)
    ensures var text := Letters(0x7FFF_FFF0);
      var row := [Text(text), Text(text), Text(Letters(9))];
      Stored(ByteLen(text)) && Slips(floats, row) && StorageFor(WholeLen(floats, row)).Short?
  {
    SlipsAt(floats, 0x7FFF_FFF0, 9);
  }

  lemma SlipsAt(floats: Floats, length: nat, more: nat)
    ensures var text := Letters(length);
      var row := [Text(text), Text(text), Text(Letters(more))];
      var two, whole := StorageFor(2 * length), StorageFor(2 * length + more);
      && ByteLen(text) == length && WholeLen(floats, row) == 2 * length + more
      && (!two.Whole? && !whole.Whole? && two.Short? != whole.Short? ==> Slips(floats, row))
  {
    hide Letters, ByteLen, StorageFor, WholeLen, FirstStorage;
    LettersLen(length);
    LettersLen(more);
    ThreeTexts(floats, [Text(Letters(length)), Text(Letters(length)), Text(Letters(more))]);
  }

  lemma NextStep(floats: Floats, left: Value, operands: seq<Value>, index: nat, positions: Option<seq<nat>>,
                 current: nat)
    requires 1 <= index < |operands| && Positioned(positions, operands)
    ensures Fold(floats, Finished(left), operands, index, positions, current) ==
      Fold(floats, Plus(floats, left, operands[index], Origin(positions, current, index)), operands, index + 1,
        positions, current)
  {
    hide Plus;
  }

  lemma TooLong(floats: Floats, left: Sum, operands: seq<Value>, index: nat, positions: Option<seq<nat>>, current: nat)
    requires 1 <= index && Positioned(positions, operands) && (left.Finished? ==> |operands| <= index)
    ensures Fold(floats, left, operands, index, positions, current) == left
  {}

  /** A run behind slot 0 reads the operands, whatever slot 0 holds by now. */
  lemma SameRun(floats: Floats, slots: seq<Value>, operands: seq<Value>, index: nat)
    requires 1 <= index <= |slots| == |operands| && slots[1..] == operands[1..]
    ensures RunEnd(floats, slots, index) == RunEnd(floats, operands, index)
    ensures RunLen(floats, slots, index) == RunLen(floats, operands, index)
    ensures Joined(floats, slots, index, RunEnd(floats, slots, index)) ==
      Joined(floats, operands, index, RunEnd(floats, operands, index))
    decreases |slots| - index
  {
    hide Rendered;
    if index < |slots| {
      assert slots[index] == slots[1..][index - 1] == operands[1..][index - 1] == operands[index];
      SameRun(floats, slots, operands, index + 1);
      if Rendered(floats, operands[index]).Some? {
        JoinedFirst(floats, slots, index, RunEnd(floats, slots, index));
        JoinedFirst(floats, operands, index, RunEnd(floats, operands, index));
      }
    }
  }

  lemma WholeRun(floats: Floats, operands: seq<Value>, end: nat)
    requires 1 <= end <= |operands| && operands[0].Text? && AllRender(floats, operands, 1, end)
    ensures AllRender(floats, operands, 0, end)
    ensures Joined(floats, operands, 0, end) == operands[0].text + Joined(floats, operands, 1, end)
  {
    hide IntText;
    assert Rendered(floats, operands[0]) == Some(operands[0].text);
    JoinedFirst(floats, operands, 0, end);
  }
}
