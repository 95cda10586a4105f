/** What rows of operands add up to, by sums of their own. */
module RowSums {
  import opened Concatenation
  import opened Decimals
  import opened TextStorage
  import opened Utf8
  import opened Wrappers

  /** The first `count` operands are Ints. */
  ghost predicate AllInts(operands: seq<Value>, count: nat)
    requires count <= |operands|
  {
    forall i :: 0 <= i < count ==> operands[i].Int?
  }

  /** The sum of the Ints among the first `count` operands. */
  ghost function SumOf(operands: seq<Value>, count: nat): int
    requires count <= |operands|
  {
    if count == 0 then 0
    else SumOf(operands, count - 1) + if operands[count - 1].Int? then operands[count - 1].number else 0
  }

  /** The sums of up to `count` operands fit an Int. */
  ghost predicate SumsFit(operands: seq<Value>, count: nat)
    requires count <= |operands|
  {
    forall k {:trigger SumOf(operands, k)} :: 1 <= k <= count ==> IsInt(SumOf(operands, k))
  }

  /** Adding up Ints whose partial sums fit gives their sum, on which the rest of the row goes on. */
  lemma {:induction false} IntsAdd(floats: Floats, operands: seq<Value>, count: nat, positions: Option<seq<nat>>,
                                   current: nat)
    requires 1 <= count <= |operands| && Positioned(positions, operands)
    requires AllInts(operands, count) && SumsFit(operands, count)
    ensures Fold(floats, Finished(operands[0]), operands, 1, positions, current)
         == Fold(floats, Finished(Int(SumOf(operands, count))), operands, count, positions, current)
  {
    if count == 1 {
      assert SumOf(operands, 0) == 0;
    } else {
      assert IsInt(SumOf(operands, count));
      IntsAdd(floats, operands, count - 1, positions, current);
      NextStep(floats, Int(SumOf(operands, count - 1)), operands, count - 1, positions, current);
    }
  }

  /** A row of Ints whose partial sums all fit gives the Int of their sum. */
  lemma IntRow(floats: Floats, operands: seq<Value>, positions: Option<seq<nat>>, current: nat)
    requires operands != [] && Positioned(positions, operands)
    requires AllInts(operands, |operands|) && SumsFit(operands, |operands|)
    ensures Fold(floats, Finished(operands[0]), operands, 1, positions, current)
         == Finished(Int(SumOf(operands, |operands|)))
  {
    IntsAdd(floats, operands, |operands|, positions, current);
  }

  /** The first sum that does not fit is an Error, with the sum before it and the position of that step. */
  lemma OverflowRow(floats: Floats, operands: seq<Value>, count: nat, positions: Option<seq<nat>>, current: nat)
    requires 1 <= count < |operands| && Positioned(positions, operands) && AllInts(operands, count + 1)
    requires SumsFit(operands, count) && !IsInt(SumOf(operands, count + 1))
    ensures Fold(floats, Finished(operands[0]), operands, 1, positions, current)
         == Fold(floats, Finished(Error("IntOverflowError", OVERFLOW, Int(SumOf(operands, count)),
              Origin(positions, current, count))), operands, count + 1, positions, current)
  {
    IntsAdd(floats, operands, count, positions, current);
    NextStep(floats, Int(SumOf(operands, count)), operands, count, positions, current);
  }

  // ---- Rows with a Float ----

  ghost predicate AllNumbers(operands: seq<Value>) {
    forall i :: 0 <= i < |operands| ==> operands[i].Int? || operands[i].Float?
  }

  /** The numbers from `index` on added to a Float, each Int converted. */
  ghost function FloatSum(floats: Floats, bits: nat, operands: seq<Value>, index: nat): nat
    requires AllNumbers(operands)
    decreases |operands| - index
  {
    if index >= |operands| then bits
    else
      var right := if operands[index].Int? then floats.of(operands[index].number) else operands[index].bits;
      FloatSum(floats, floats.add(bits, right), operands, index + 1)
  }

  /** From a Float on, numbers add up as Floats, from left to right. */
  lemma {:induction false} FloatsAdd(floats: Floats, bits: nat, operands: seq<Value>, index: nat,
                                     positions: Option<seq<nat>>, current: nat)
    requires 1 <= index <= |operands| && Positioned(positions, operands) && AllNumbers(operands)
    ensures Fold(floats, Finished(Float(bits)), operands, index, positions, current)
         == Finished(Float(FloatSum(floats, bits, operands, index)))
    decreases |operands| - index
  {
    if index < |operands| {
      var right := if operands[index].Int? then floats.of(operands[index].number) else operands[index].bits;
      NextStep(floats, Float(bits), operands, index, positions, current);
      FloatsAdd(floats, floats.add(bits, right), operands, index + 1, positions, current);
    }
  }

  /** A row that begins with `count` Ints, whose partial sums fit, and goes on with a Float. */
  lemma FloatRow(floats: Floats, operands: seq<Value>, count: nat, positions: Option<seq<nat>>, current: nat)
    requires count < |operands| && Positioned(positions, operands) && AllNumbers(operands)
    requires AllInts(operands, count) && SumsFit(operands, count) && operands[count].Float?
    ensures Fold(floats, Finished(operands[0]), operands, 1, positions, current)
         == Finished(Float(FloatSum(floats,
              if count == 0 then operands[0].bits
              else floats.add(floats.of(SumOf(operands, count)), operands[count].bits), operands, count + 1)))
  {
    if count == 0 {
      FloatsAdd(floats, operands[0].bits, operands, 1, positions, current);
    } else {
      IntsAdd(floats, operands, count, positions, current);
      NextStep(floats, Int(SumOf(operands, count)), operands, count, positions, current);
      FloatsAdd(floats, floats.add(floats.of(SumOf(operands, count)), operands[count].bits), operands, count + 1,
        positions, current);
    }
  }

  // ---- Rows that begin with a List ----

  /** The items of Lists, and other values themselves, from `index` on. */
  ghost function ItemsOf(operands: seq<Value>, index: nat): seq<Value>
    decreases |operands| - index
  {
    if index >= |operands| then []
    else (if operands[index].List? then operands[index].items else [operands[index]]) + ItemsOf(operands, index + 1)
  }

  /** A row that begins with a List gives the items of all of it, in order, unless they are too many to count. */
  lemma {:induction false} ListRow(floats: Floats, items: seq<Value>, operands: seq<Value>, index: nat,
                                   positions: Option<seq<nat>>, current: nat)
    requires 1 <= index <= |operands| && Positioned(positions, operands) && |items| < WORD
    ensures Fold(floats, Finished(List(items)), operands, index, positions, current)
         == if |items| + |ItemsOf(operands, index)| < WORD then Finished(List(items + ItemsOf(operands, index)))
            else Exhausted
    decreases |operands| - index
  {
    if index < |operands| {
      var more := if operands[index].List? then operands[index].items else [operands[index]];
      var rest := ItemsOf(operands, index + 1);
      NextStep(floats, List(items), operands, index, positions, current);
      assert items + (more + rest) == items + more + rest;
      if |items| + |more| < WORD {
        ListRow(floats, items + more, operands, index + 1, positions, current);
      } else {
        TooLong(floats, Exhausted, operands, index + 1, positions, current);
      }
    } else {
      assert items + [] == items;
    }
  }

  // ---- Rows that cannot be added ----

  /** The first operand that is no number, behind a number, is the data of a TypeError at its position. */
  lemma NoNumberRight(floats: Floats, left: Value, operands: seq<Value>, index: nat, positions: Option<seq<nat>>,
                      current: nat)
    requires 1 <= index < |operands| && Positioned(positions, operands)
    requires (left.Int? || left.Float?) && !operands[index].Int? && !operands[index].Float?
    ensures Fold(floats, Finished(left), operands, index, positions, current)
         == Fold(floats, Finished(Error("TypeError", NOT_NUMERIC, operands[index], Origin(positions, current, index))),
              operands, index + 1, positions, current)
  {
    NextStep(floats, left, operands, index, positions, current);
  }

  /** A Bool, an Error or another value that `+` knows nothing about is the data of a TypeError at each next step. */
  lemma NoNumberLeft(floats: Floats, left: Value, operands: seq<Value>, index: nat, positions: Option<seq<nat>>,
                     current: nat)
    requires 1 <= index < |operands| && Positioned(positions, operands)
    requires left.Bool? || left.Error? || left.Other?
    ensures Fold(floats, Finished(left), operands, index, positions, current)
         == Fold(floats, Finished(Error("TypeError", NOT_NUMERIC, left, Origin(positions, current, index))), operands,
              index + 1, positions, current)
  {
    NextStep(floats, left, operands, index, positions, current);
  }

  // ---- Rows that begin with a String ----

  /** How the operands behind a String are written. */
  lemma WrittenAs(floats: Floats, value: Value)
    ensures value.Text? ==> Rendered(floats, value) == Some(value.text)
    ensures value.Bool? ==> Rendered(floats, value) == Some(if value.flag then "true" else "false")
    ensures value.Int? ==> Rendered(floats, value).Some? && ReadInt(Rendered(floats, value).value) == value.number
    ensures value.Float? ==> Rendered(floats, value) == Some(floats.show(value.bits))
    ensures value.List? || value.Error? || value.Other? ==> Rendered(floats, value).None?
  {
    if value.Int? {
      IntReads(value.number);
    }
  }

  ghost predicate AllWritten(operands: seq<Value>) {
    forall i :: 0 <= i < |operands| ==>
      operands[i].Text? || operands[i].Bool? || operands[i].Int? || operands[i].Float?
  }

  /** The texts of the operands from `index` on, one behind the other. */
  ghost function WrittenFrom(floats: Floats, operands: seq<Value>, index: nat): string
    requires AllWritten(operands)
    decreases |operands| - index
  {
    if index >= |operands| then ""
    else
      (match operands[index]
       case Text(text) => text
       case Bool(flag) => if flag then "true" else "false"
       case Int(number) => IntText(number)
       case Float(bits) => floats.show(bits)
       case _ => "") + WrittenFrom(floats, operands, index + 1)
  }

  /** A row behind a String gives all of it written, in order, if that is no longer than a String may be. */
  lemma {:induction false} TextRow(floats: Floats, text: string, operands: seq<Value>, index: nat,
                                   positions: Option<seq<nat>>, current: nat)
    requires 1 <= index <= |operands| && Positioned(positions, operands) && AllWritten(operands)
    requires ByteLen(text + WrittenFrom(floats, operands, index)) <= 0xFFFD_FFE0
    ensures Fold(floats, Finished(Text(text)), operands, index, positions, current)
         == Finished(Text(text + WrittenFrom(floats, operands, index)))
    decreases |operands| - index
  {
    hide ByteLen, StorageFor, IntText;
    if index < |operands| {
      var part, rest := Rendered(floats, operands[index]).value, WrittenFrom(floats, operands, index + 1);
      assert text + (part + rest) == text + part + rest;
      ByteLenJoins(text + part, rest);
      StorageBands(ByteLen(text + part));
      NextStep(floats, Text(text), operands, index, positions, current);
      TextRow(floats, text + part, operands, index + 1, positions, current);
    } else {
      assert text + "" == text;
    }
  }

  /** The first operand behind a String that has no text is the data of a TypeError at its position. */
  lemma NoTextRight(floats: Floats, text: string, operands: seq<Value>, index: nat, positions: Option<seq<nat>>,
                    current: nat)
    requires 1 <= index < |operands| && Positioned(positions, operands)
    requires operands[index].List? || operands[index].Error? || operands[index].Other?
    ensures Fold(floats, Finished(Text(text)), operands, index, positions, current)
         == Fold(floats, Finished(Error("TypeError", NOT_RENDERABLE, operands[index],
              Origin(positions, current, index))), operands, index + 1, positions, current)
  {
    NextStep(floats, Text(text), operands, index, positions, current);
  }
}
