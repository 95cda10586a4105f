/** Native steps of Ranges, and loops that count a Range without stepping it. */
module Ranges {
  const I32: int := 0x8000_0000
  const I64: int := 0x8000_0000_0000_0000
  /** What beginning a Range gives when it is iterated as an object. */
  const FALLBACK_CODE: nat := 0x8000_0000

  type Int32 = n: int | -I32 <= n < I32

  /** A field of a Range: an immediate Int, a Bool, or any other value. */
  datatype Slot = SmallInt(number: Int32) | Flag(flag: bool) | OtherSlot(identity: nat)

  datatype Fields = Fields(current: Slot, end: Slot, step: Slot, inclusive: Slot, done: Slot)

  predicate Fits(value: int) {
    -I32 <= value < I32
  }

  /** Ints and Bools in their places. */
  predicate Native(r: Fields) {
    r.current.SmallInt? && r.end.SmallInt? && r.step.SmallInt? && r.inclusive.Flag? && r.done.Flag?
  }

  predicate Exhausted(current: int, end: int, step: int, inclusive: bool) {
    if step > 0 then (if inclusive then current > end else current >= end)
    else (if inclusive then current < end else current <= end)
  }

  datatype Outcome = Item(item: int) | Done | Fallback

  /** One native step. */
  function Step(r: Fields): (Fields, Outcome) {
    if !Native(r) then (r, Fallback)
    else if r.done.flag then (r, Done)
    else if Exhausted(r.current.number, r.end.number, r.step.number, r.inclusive.flag) then
      (r.(done := Flag(true)), Done)
    else if r.current.number == r.end.number then (r.(done := Flag(true)), Item(r.current.number))
    else if !Fits(r.current.number + r.step.number) then (r, Fallback)
    else (r.(current := SmallInt(r.current.number + r.step.number)), Item(r.current.number))
  }

  // ---- Whole iterations ----

  function After(r: Fields, k: nat): Fields {
    if k == 0 then r else Step(After(r, k - 1)).0
  }

  /** What request `k` for an item gives. */
  function Request(r: Fields, k: nat): Outcome {
    Step(After(r, k)).1
  }

  /** Item `k` of the arithmetic progression of a Range. */
  function Term(r: Fields, k: nat): int
    requires Native(r)
  {
    r.current.number + k * r.step.number
  }

  predicate Inside(r: Fields, value: int)
    requires Native(r)
  {
    !Exhausted(value, r.end.number, r.step.number, r.inclusive.flag)
  }

  lemma {:induction false} AfterFirst(r: Fields, k: nat)
    ensures After(r, k + 1) == After(Step(r).0, k)
  {
    hide Step;
    if k > 0 {
      AfterFirst(r, k - 1);
    }
  }

  /** A step that changes nothing is the last one that does. */
  lemma {:induction false} StaysPut(r: Fields, k: nat)
    requires Step(r).0 == r
    ensures After(r, k) == r
  {
    hide Step;
    if k > 0 {
      StaysPut(r, k - 1);
    }
  }

  /** `later` is the same Range, at another value. */
  predicate Moved(r: Fields, later: Fields, value: int) {
    later == r.(current := later.current) && later.current.SmallInt? && later.current.number == value
  }

  lemma NextTerm(r: Fields, k: nat)
    requires Native(r) && Fits(r.current.number + r.step.number)
    ensures Term(r.(current := SmallInt(r.current.number + r.step.number)), k) == Term(r, k + 1)
  {}

  /** The items of a Range with a nonzero step are its progression up to its end, and then every later request ends
      the loop; or the next item would leave the immediate Ints, and all later requests fall back and change nothing. */
  lemma {:induction false} Progression(r: Fields) returns (n: nat)
    requires Native(r) && !r.done.flag && r.step.number != 0
    ensures forall k: nat :: k < n ==> Request(r, k) == Item(Term(r, k)) && Inside(r, Term(r, k))
    ensures forall k: nat :: k >= n ==> Request(r, k) == if Inside(r, Term(r, n)) then Fallback else Done
    ensures Inside(r, Term(r, n)) ==> Term(r, n) != r.end.number && !Fits(Term(r, n) + r.step.number)
    ensures Inside(r, Term(r, n)) ==> forall k: nat :: k >= n ==> Moved(r, After(r, k), Term(r, n))
    decreases if r.step.number > 0 then r.end.number - r.current.number + 2 * I32
        else r.current.number - r.end.number + 2 * I32
  {
    var current: int, end: int, step: int := r.current.number, r.end.number, r.step.number;
    if Inside(r, current) && current != end && Fits(current + step) {
      var next := Step(r).0;
      Narrows(r);
      var m := Progression(next);
      n := m + 1;
      hide Request, After, Step, Exhausted, Term, Fits;
      forall k: nat ensures Later(r, next, k) {
        OneLater(r, k);
      }
      Shifted(r, next, n);
      Unshifted(r, next, m);
    } else {
      n := if Inside(r, current) && current == end then 1 else 0;
      StopsHere(r, n);
    }
  }

  /** Request `k` of the rest of an iteration is request `k + 1` of the whole. */
  ghost predicate Later(r: Fields, next: Fields, k: nat)
    requires Native(r) && Native(next)
  {
    Request(r, k + 1) == Request(next, k) && After(r, k + 1) == After(next, k) && Term(next, k) == Term(r, k + 1)
  }

  lemma OneLater(r: Fields, k: nat)
    requires Native(r) && !r.done.flag && Inside(r, r.current.number) && r.current.number != r.end.number
    requires Fits(r.current.number + r.step.number)
    ensures Native(Step(r).0) && Later(r, Step(r).0, k)
  {
    AfterFirst(r, k);
    NextTerm(r, k);
  }

  lemma Narrows(r: Fields)
    requires Native(r) && !r.done.flag && Inside(r, r.current.number) && r.current.number != r.end.number
    requires Fits(r.current.number + r.step.number) && r.step.number != 0
    ensures Native(Step(r).0) && Step(r).0 == r.(current := Step(r).0.current) && !Step(r).0.done.flag
    ensures Step(r).0.current.number == r.current.number + r.step.number && Step(r).1 == Item(r.current.number)
  {}

  lemma Unshifted(r: Fields, next: Fields, m: nat)
    requires Native(r) && Native(next) && next == r.(current := next.current) && Later(r, next, m)
    requires Inside(next, Term(next, m)) ==> Term(next, m) != next.end.number && !Fits(Term(next, m) + next.step.number)
    ensures Inside(r, Term(r, m + 1)) ==> Term(r, m + 1) != r.end.number && !Fits(Term(r, m + 1) + r.step.number)
  {
    hide Term, Fits, After, Request;
  }

  /** An iteration that ends or falls back within one request. */
  lemma StopsHere(r: Fields, n: nat)
    requires Native(r) && !r.done.flag && r.step.number != 0
    requires var current: int := r.current.number;
      !(Inside(r, current) && current != r.end.number && Fits(current + r.step.number))
      && n == if Inside(r, current) && current == r.end.number then 1 else 0
    ensures forall k: nat :: k < n ==> Request(r, k) == Item(Term(r, k)) && Inside(r, Term(r, k))
    ensures forall k: nat :: k >= n ==> Request(r, k) == if Inside(r, Term(r, n)) then Fallback else Done
    ensures Inside(r, Term(r, n)) ==> Term(r, n) != r.end.number && !Fits(Term(r, n) + r.step.number)
    ensures Inside(r, Term(r, n)) ==> forall k: nat :: k >= n ==> Moved(r, After(r, k), Term(r, n))
  {
    var next := Step(r).0;
    var current: int, step: int := r.current.number, r.step.number;
    assert Term(r, 0) == current && Term(r, 1) == current + step;
    assert Step(next).0 == next;
    forall k: nat | k >= 1 ensures After(r, k) == next {
      AfterFirst(r, k - 1);
      StaysPut(next, k - 1);
    }
    assert After(r, 0) == r;
  }

  /** What holds of the rest of an iteration holds of the whole, one request later. */
  lemma Shifted(r: Fields, next: Fields, n: nat)
    requires Native(r) && Native(next) && next == r.(current := next.current) && n >= 1
    requires Step(r) == (next, Item(r.current.number)) && Inside(r, r.current.number)
    requires forall k: nat :: Later(r, next, k)
    requires forall k: nat :: k < n - 1 ==> Request(next, k) == Item(Term(next, k)) && Inside(next, Term(next, k))
    requires forall k: nat :: k >= n - 1 ==> Request(next, k) == if Inside(next, Term(next, n - 1)) then Fallback
        else Done
    requires Inside(next, Term(next, n - 1)) ==> forall k: nat :: k >= n - 1 ==>
        Moved(next, After(next, k), Term(next, n - 1))
    ensures forall k: nat :: k < n ==> Request(r, k) == Item(Term(r, k)) && Inside(r, Term(r, k))
    ensures forall k: nat :: k >= n ==> Request(r, k) == if Inside(r, Term(r, n)) then Fallback else Done
    ensures Inside(r, Term(r, n)) ==> forall k: nat :: k >= n ==> Moved(r, After(r, k), Term(r, n))
  {
    hide Request, After, Step, Exhausted, Term, Fits;
    assert Later(r, next, n - 1);
    assert Request(r, 0) == Item(Term(r, 0)) by { FirstRequest(r, next); }
    forall k: nat | k < n ensures Request(r, k) == Item(Term(r, k)) && Inside(r, Term(r, k)) {
      if k > 0 {
        assert Later(r, next, k - 1);
      } else {
        FirstRequest(r, next);
      }
    }
    forall k: nat | k >= n
      ensures Request(r, k) == (if Inside(r, Term(r, n)) then Fallback else Done)
      ensures Inside(r, Term(r, n)) ==> Moved(r, After(r, k), Term(r, n))
    {
      assert Later(r, next, k - 1);
    }
  }

  lemma FirstRequest(r: Fields, next: Fields)
    requires Native(r) && Step(r) == (next, Item(r.current.number))
    ensures Request(r, 0) == Item(Term(r, 0)) && Term(r, 0) == r.current.number
  {}

  // ---- The prelude's own step ----

  datatype IteratorStep = NextItem(value: int) | Finished | Overflow

  /** `Range::next` on a Range of Ints: the Range it leaves, and what it returns. */
  function Next(current: int, end: int, step: int, inclusive: bool, done: bool): (int, bool, IteratorStep) {
    if done then (current, done, Finished)
    else if (step > 0 && (if inclusive then current > end else current >= end))
      || (step <= 0 && (if inclusive then current < end else current <= end)) then (current, true, Finished)
    else if current == end then (current, true, NextItem(current))
    else if -I64 <= current + step < I64 then (current + step, false, NextItem(current))
    else (current, false, Overflow)
  }

  /** A native step does what `Range::next` does, unless it falls back; then it changes nothing. */
  lemma StepIsNext(r: Fields)
    requires Native(r)
    ensures var next := Next(r.current.number, r.end.number, r.step.number, r.inclusive.flag, r.done.flag);
      match Step(r).1
      case Item(item) => next.2 == NextItem(item) && Step(r).0.current.number == next.0 && Step(r).0.done.flag == next.1
      case Done => next.2 == Finished && Step(r).0.current.number == next.0 && Step(r).0.done.flag == next.1
      case Fallback => Step(r).0 == r && next.2.NextItem? && !Fits(next.0)
  {}

  /** A native step falls back, without a change, exactly when a field is of another kind or the item after one that
      is not the last leaves the immediate Ints. */
  lemma FallsBackWhen(r: Fields)
    ensures Step(r).1.Fallback? <==>
        !r.current.SmallInt? || !r.end.SmallInt? || !r.step.SmallInt? || !r.inclusive.Flag? || !r.done.Flag?
        || (!r.done.flag && Inside(r, r.current.number) && r.current.number != r.end.number
            && !(-0x8000_0000 <= r.current.number + r.step.number <= 0x7FFF_FFFF))
    ensures Step(r).1.Fallback? ==> Step(r).0 == r
  {}

  // ---- Counting ----

  function AsU32(value: Int32): nat {
    if value < 0 then value + 2 * I32 else value
  }

  function AsI32(word: nat): Int32
    requires word < 2 * I32
  {
    if word >= I32 then word - 2 * I32 else word
  }

  /** The bounds of a counting loop, the current value in the low and the last item in the high half of a word. */
  function Begin(r: Fields): nat {
    if !Native(r) || r.done.flag || (r.step.number != 1 && r.step.number != -1) || r.current.number == -I32
      || Exhausted(r.current.number, r.end.number, r.step.number, r.inclusive.flag)
    then FALLBACK_CODE
    else
      var last: int := if r.inclusive.flag then r.end.number else r.end.number - r.step.number;
      AsU32(r.current.number) + 2 * I32 * AsU32(last)
  }

  predicate Countable(r: Fields) {
    Native(r) && !r.done.flag && (r.step.number == 1 || r.step.number == -1) && r.current.number != -I32
    && !Exhausted(r.current.number, r.end.number, r.step.number, r.inclusive.flag)
  }

  function LastItem(r: Fields): Int32
    requires Countable(r)
  {
    if r.inclusive.flag then r.end.number else r.end.number - r.step.number
  }

  /** The packed bounds are never the fallback code, and unpack to the current value and the last item. */
  lemma BoundsUnpack(r: Fields)
    ensures Begin(r) != FALLBACK_CODE <==> Countable(r)
    ensures Countable(r) ==> Begin(r) < 4 * I32 * I32
    ensures Countable(r) ==> AsI32(Begin(r) % (2 * I32)) == r.current.number
    ensures Countable(r) ==> AsI32(Begin(r) / (2 * I32)) == LastItem(r)
  {
    if Countable(r) {
      var low, high: nat := AsU32(r.current.number), AsU32(LastItem(r));
      assert Begin(r) == low + 2 * I32 * high;
      assert Begin(r) % (2 * I32) == low && Begin(r) / (2 * I32) == high;
    }
  }

  /** A counting loop: `progress` becomes LAST with the last item and FINISHED with the request after it. */
  datatype Counter = Counter(cursor: int, last: int, step: int, progress: nat)

  const LAST: nat := 1
  const FINISHED: nat := 2

  function StartCounting(packed: nat): Counter
    requires packed < 4 * I32 * I32
  {
    var cursor, last := AsI32(packed % (2 * I32)), AsI32(packed / (2 * I32));
    Counter(cursor, last, if cursor > last then -1 else 1, 0)
  }

  /** One request of a counting loop. */
  function Count(c: Counter): (Counter, Outcome) {
    if c.progress != 0 then (c.(progress := FINISHED), Done)
    else if c.cursor == c.last then (c.(progress := LAST), Item(c.cursor))
    else (c.(cursor := c.cursor + c.step), Item(c.cursor))
  }

  function CountAfter(c: Counter, k: nat): Counter {
    if k == 0 then c else Count(CountAfter(c, k - 1)).0
  }

  /** The Range as a counting loop leaves it behind. */
  function Finish(r: Fields, cursor: int, progress: nat): Fields {
    if !r.inclusive.Flag? || !r.end.SmallInt? || !r.step.SmallInt? then r
    else
      var moved :=
        if (progress == LAST || progress == FINISHED) && r.inclusive.flag then (cursor, true)
        else if progress == LAST then (cursor + r.step.number, false)
        else if progress == FINISHED then (r.end.number, true)
        else (cursor, false);
      var placed := if Fits(moved.0) then r.(current := SmallInt(moved.0)) else r;
      if moved.1 then placed.(done := Flag(true)) else placed
  }

  /** Where a counting loop over `r` can be. */
  ghost predicate Counting(r: Fields, c: Counter) {
    && Countable(r) && c.last == LastItem(r) && c.progress <= FINISHED
    && (if r.step.number > 0 then r.current.number <= c.cursor <= c.last else c.last <= c.cursor <= r.current.number)
    && (c.progress != 0 ==> c.cursor == c.last)
    && (c.cursor != c.last ==> c.step == r.step.number)
  }

  lemma CountsOneMore(r: Fields, c: Counter)
    requires Counting(r, c)
    ensures var (next, outcome) := Count(c);
      && Counting(r, next)
      && Step(Finish(r, c.cursor, c.progress)) == (Finish(r, next.cursor, next.progress), outcome)
  {}

  lemma CountsFromHere(r: Fields)
    requires Countable(r)
    ensures Begin(r) < 4 * I32 * I32 && Counting(r, StartCounting(Begin(r)))
    ensures Finish(r, r.current.number, 0) == r && StartCounting(Begin(r)).cursor == r.current.number
    ensures StartCounting(Begin(r)).progress == 0
  {
    BoundsUnpack(r);
    hide Begin, AsI32;
  }

  /** At every exit of a counting loop, after any number of requests, finishing leaves the Range exactly as as many
      steps would have, and every request gave the same item or end. */
  lemma {:induction false} CountingIsStepping(r: Fields, k: nat)
    requires Countable(r)
    ensures Begin(r) < 4 * I32 * I32
    ensures var c := CountAfter(StartCounting(Begin(r)), k);
      && Counting(r, c) && Finish(r, c.cursor, c.progress) == After(r, k)
      && Count(c).1 == Request(r, k)
  {
    CountsFromHere(r);
    hide Begin, StartCounting, Finish, Step, Count, Counting, Countable;
    if k > 0 {
      CountingIsStepping(r, k - 1);
      CountsOneMore(r, CountAfter(StartCounting(Begin(r)), k - 1));
    }
    CountsOneMore(r, CountAfter(StartCounting(Begin(r)), k));
  }

  // ---- Objects ----

  class RangeObject {
    var current: Slot
    var end: Slot
    var step: Slot
    var inclusive: Slot
    var done: Slot

    function Slots(): Fields
      reads this
    {
      Fields(current, end, step, inclusive, done)
    }

    /** Advances the Range by one native step. */
    method RangeStep() returns (outcome: Outcome)
      modifies this`current, this`done
      ensures (Slots(), outcome) == Step(old(Slots()))
    {
      if !current.SmallInt? || !end.SmallInt? || !step.SmallInt? || !inclusive.Flag? || !done.Flag? {
        return Fallback;
      }
      if done.flag {
        return Done;
      }
      var item: int := current.number;
      var exhausted := Exhausted(item, end.number, step.number, inclusive.flag);
      if exhausted || item == end.number {
        done := Flag(true);
        return if exhausted then Done else Item(item);
      }
      if !Fits(item + step.number) {
        return Fallback;
      }
      current := SmallInt(item + step.number);
      outcome := Item(item);
    }

    /** Writes the state of a counting loop back. */
    method RangeFinish(cursor: int, progress: nat)
      modifies this`current, this`done
      ensures Slots() == Finish(old(Slots()), cursor, progress)
    {
      if !inclusive.Flag? || !end.SmallInt? || !step.SmallInt? {
        return;
      }
      var at: int, finished := cursor, false;
      if (progress == LAST || progress == FINISHED) && inclusive.flag {
        finished := true;
      } else if progress == LAST {
        at := cursor + step.number;
      } else if progress == FINISHED {
        at, finished := end.number, true;
      }
      if Fits(at) {
        current := SmallInt(at);
      }
      if finished {
        done := Flag(true);
      }
    }
  }
}
