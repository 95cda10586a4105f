/** Case mappings as runs of single-character mappings and a list of multi-character ones. */
module CaseRuns {
  import opened ImageBytes
  import opened Varints
  import opened Wrappers

  const LAST_CODE: nat := 0x10_FFFF

  /** The code points that are characters. */
  predicate IsChar(code: nat) {
    code <= LAST_CODE && !(0xD800 <= code <= 0xDFFF)
  }

  /** A case mapping: every character has one to three characters, and itself when it has no case. */
  ghost predicate Mapping(f: nat -> seq<nat>) {
    forall code {:trigger f(code)} :: IsChar(code) ==> 1 <= |f(code)| <= 3 && forall i :: 0 <= i < |f(code)| ==>
      IsChar(f(code)[i])
  }

  /** The shift of a character that maps to one other character. */
  function Shift(f: nat -> seq<nat>, code: nat): Option<int> {
    if IsChar(code) && |f(code)| == 1 && f(code)[0] != code then Some(f(code)[0] - code) else None
  }

  /** Every `stride`-th code from `start` on, `count` of them, shifted by `delta`. */
  datatype Run = Run(start: nat, count: nat, stride: nat, delta: int)

  function Last(run: Run): nat {
    if run.count == 0 then run.start else run.start + (run.count - 1) * run.stride
  }

  predicate Contains(run: Run, code: nat) {
    run.stride > 0 && run.start <= code <= Last(run) && (code - run.start) % run.stride == 0
  }

  ghost predicate ValidRun(run: Run) {
    run.count > 0 && 1 <= run.stride <= 2 && Last(run) <= LAST_CODE && run.start <= Last(run)
    && -0x11_0000 < run.delta < 0x11_0000
  }

  /** Runs one after the other, from `previous` on. */
  ghost predicate Ordered(runs: seq<Run>, previous: nat) {
    runs != [] ==> ValidRun(runs[0]) && previous <= runs[0].start && Ordered(runs[1..], Last(runs[0]) + 1)
  }

  // ---- Collecting runs ----

  /** The runs hold exactly the codes below `upto` that shift, each with its shift. */
  ghost predicate Collected(f: nat -> seq<nat>, runs: seq<Run>, upto: nat) {
    && Ordered(runs, 0)
    && (forall i {:trigger runs[i]} :: 0 <= i < |runs| ==> Last(runs[i]) < upto)
    && (forall i, code {:trigger Contains(runs[i], code)} :: 0 <= i < |runs| && Contains(runs[i], code) ==>
         Shift(f, code) == Some(runs[i].delta))
    && (forall code {:trigger Shift(f, code)} :: 0 <= code < upto && Shift(f, code).Some? ==> Holds(runs, code))
  }

  ghost predicate Holds(runs: seq<Run>, code: nat) {
    exists i :: 0 <= i < |runs| && Contains(runs[i], code)
  }

  lemma {:induction false} LastsGrow(runs: seq<Run>, previous: nat)
    requires Ordered(runs, previous) && runs != []
    ensures previous <= Last(runs[|runs| - 1])
  {
    hide Last;
    if |runs| > 1 {
      LastsGrow(runs[1..], Last(runs[0]) + 1);
    }
  }

  lemma {:induction false} OrderedAppends(runs: seq<Run>, previous: nat, run: Run)
    requires Ordered(runs, previous) && ValidRun(run) && previous <= run.start
    requires runs != [] ==> Last(runs[|runs| - 1]) < run.start
    ensures Ordered(runs + [run], previous)
  {
    if runs == [] {
      assert (runs + [run])[1..] == [];
    } else {
      assert (runs + [run])[1..] == runs[1..] + [run];
      if |runs| > 1 {
        LastsGrow(runs[1..], Last(runs[0]) + 1);
      }
      OrderedAppends(runs[1..], Last(runs[0]) + 1, run);
    }
  }

  lemma {:induction false} OrderedDrops(runs: seq<Run>, previous: nat)
    requires Ordered(runs, previous) && runs != []
    ensures Ordered(runs[..|runs| - 1], previous) && ValidRun(runs[|runs| - 1])
    ensures previous <= runs[|runs| - 1].start
    ensures |runs| > 1 ==> Last(runs[|runs| - 2]) < runs[|runs| - 1].start
  {
    if |runs| > 1 {
      OrderedDrops(runs[1..], Last(runs[0]) + 1);
      assert runs[..|runs| - 1][1..] == runs[1..][..|runs| - 2];
    }
  }

  /** The run that `code` continues. */
  function Longer(run: Run, code: nat): Run
    requires run.start <= code
  {
    Run(run.start, run.count + 1, if run.count == 1 then code - run.start else run.stride, run.delta)
  }

  predicate Continues(run: Run, code: nat, delta: int) {
    run.delta == delta && run.start < code
    && (code == run.start + run.count * run.stride || (run.count == 1 && code - run.start <= 2))
  }

  lemma LongerHolds(run: Run, code: nat)
    requires ValidRun(run) && Last(run) < code <= LAST_CODE && Continues(run, code, run.delta)
    ensures ValidRun(Longer(run, code)) && Last(Longer(run, code)) == code
    ensures forall other {:trigger Contains(Longer(run, code), other)} {:trigger Contains(run, other)} ::
      Contains(Longer(run, code), other) <==> Contains(run, other) || other == code
  {
    var longer := Longer(run, code);
    if run.stride == 1 {
      assert Last(run) == run.start + run.count - 1;
    } else {
      assert Last(run) == run.start + 2 * (run.count - 1);
    }
    assert Last(longer) == run.start + run.count * longer.stride;
  }

  /** A character without a shift changes nothing. */
  lemma SkipCode(f: nat -> seq<nat>, runs: seq<Run>, code: nat)
    requires Collected(f, runs, code) && Shift(f, code).None?
    ensures Collected(f, runs, code + 1)
  {
    hide Ordered, Contains, Holds;
  }

  lemma StartRun(f: nat -> seq<nat>, runs: seq<Run>, code: nat)
    requires Mapping(f) && Collected(f, runs, code) && Shift(f, code).Some?
    ensures Collected(f, runs + [Run(code, 1, 1, Shift(f, code).value)], code + 1)
  {
    var run := Run(code, 1, 1, Shift(f, code).value);
    var more := runs + [run];
    OrderedAppends(runs, 0, run);
    assert forall other :: Contains(run, other) <==> other == code;
    hide Ordered, Contains;
    forall other | 0 <= other < code + 1 && Shift(f, other).Some? ensures Holds(more, other) {
      if other < code {
        assert Holds(runs, other);
        var i :| 0 <= i < |runs| && Contains(runs[i], other);
        assert Contains(more[i], other);
      } else {
        assert Contains(more[|runs|], other);
      }
    }
    forall i, other | 0 <= i < |more| && Contains(more[i], other) ensures Shift(f, other) == Some(more[i].delta) {
      if i < |runs| {
        assert Contains(runs[i], other);
      }
    }
  }

  lemma ContinueRun(f: nat -> seq<nat>, runs: seq<Run>, code: nat)
    requires Collected(f, runs, code) && runs != [] && Shift(f, code).Some?
    requires Continues(runs[|runs| - 1], code, Shift(f, code).value)
    ensures Collected(f, runs[..|runs| - 1] + [Longer(runs[|runs| - 1], code)], code + 1)
  {
    var last := |runs| - 1;
    var longer := Longer(runs[last], code);
    var more := runs[..last] + [longer];
    OrderedDrops(runs, 0);
    LongerHolds(runs[last], code);
    OrderedAppends(runs[..last], 0, longer);
    hide Ordered, Contains, Longer, Continues;
    forall other | 0 <= other < code + 1 && Shift(f, other).Some? ensures Holds(more, other) {
      if other < code {
        assert Holds(runs, other);
        var i :| 0 <= i < |runs| && Contains(runs[i], other);
        assert i < last ==> Contains(more[i], other);
        assert i == last ==> Contains(more[last], other);
      } else {
        assert Contains(more[last], other);
      }
    }
    forall i, other | 0 <= i < |more| && Contains(more[i], other) ensures Shift(f, other) == Some(more[i].delta) {
      assert i < last ==> Contains(runs[i], other);
      assert i == last ==> Contains(runs[last], other) || other == code;
    }
  }

  // ---- Encoding runs ----

  function Shape(run: Run): nat {
    2 * run.count + (if run.stride == 2 then 1 else 0)
  }

  /** The record of one run: the gap before it, its count and stride, and its shift. */
  ghost function RunBytes(run: Run, previous: nat): seq<byte> {
    VarintOf(if previous <= run.start then run.start - previous else 0)
    + VarintOf(Shape(run))
    + SignedOf(run.delta)
  }

  ghost function RunsOf(runs: seq<Run>, previous: nat): seq<byte> {
    if runs == [] then [] else RunBytes(runs[0], previous) + RunsOf(runs[1..], Last(runs[0]) + 1)
  }

  /** What one record says: its gap, shape and shift. */
  datatype Record = Record(gap: nat, shape: nat, delta: int, rest: seq<byte>)

  ghost function RecordAt(bytes: seq<byte>): (record: Option<Record>)
    ensures record.Some? ==> |record.value.rest| < |bytes|
  {
    var gap := VarintAt(bytes);
    var shape := VarintAt(gap.1);
    var delta := SignedAt(shape.1);
    if gap.0.None? || shape.0.None? || delta.0.None? then None
    else Some(Record(gap.0.value, shape.0.value, delta.0.value, delta.1))
  }

  function RunIn(record: Record, start: nat): Run {
    Run(start, record.shape / 2 % WORD, record.shape % 2 + 1, record.delta)
  }

  /** The end of a run, in 32 bits: records no encoder writes may lead past them. */
  function WrappedLast(run: Run): nat {
    Last(run) % WORD
  }

  predicate Hits(run: Run, code: nat) {
    run.stride > 0 && run.start <= code <= WrappedLast(run) && (code - run.start) % run.stride == 0
  }

  /** The shift the run records give a code: the decoder's walk. */
  ghost function FindRun(bytes: seq<byte>, previous: nat, code: nat): Option<int>
    decreases |bytes|
  {
    var record := RecordAt(bytes);
    if record.None? then None else
    var start := previous + record.value.gap;
    if start >= WORD || code < start then None
    else
      var run := RunIn(record.value, start);
      if Hits(run, code) then Some(run.delta) else FindRun(record.value.rest, (WrappedLast(run) + 1) % WORD, code)
  }

  lemma RecordReads(gap: nat, shape: nat, delta: int, rest: seq<byte>)
    requires gap < U64 && shape < U64 && -I64 <= delta < I64
    ensures RecordAt(VarintOf(gap) + VarintOf(shape) + SignedOf(delta) + rest) == Some(Record(gap, shape, delta, rest))
  {
    hide VarintOf, SignedOf, VarintAt, SignedAt;
    assert VarintOf(gap) + VarintOf(shape) + SignedOf(delta) + rest
      == VarintOf(gap) + (VarintOf(shape) + (SignedOf(delta) + rest));
    VarintReadsBack(gap, VarintOf(shape) + (SignedOf(delta) + rest));
    VarintReadsBack(shape, SignedOf(delta) + rest);
    SignedReadsBack(delta, rest);
  }

  lemma RunShape(run: Run)
    requires ValidRun(run)
    ensures Shape(run) / 2 % WORD == run.count && Shape(run) % 2 + 1 == run.stride && Shape(run) < U64
  {
    assert run.count <= LAST_CODE + 1 by { assert run.stride == 1 || run.stride == 2; }
  }

  lemma NothingWraps(run: Run, code: nat)
    requires ValidRun(run)
    ensures (WrappedLast(run) + 1) % WORD == Last(run) + 1
    ensures Hits(run, code) <==> Contains(run, code)
  {
    assert Last(run) < WORD - 1;
    hide Last;
  }

  lemma RunReads(run: Run, previous: nat, rest: seq<byte>, code: nat)
    requires ValidRun(run) && previous <= run.start
    ensures FindRun(RunBytes(run, previous) + rest, previous, code) ==
      if code < run.start then None
      else if Contains(run, code) then Some(run.delta)
      else FindRun(rest, Last(run) + 1, code)
  {
    hide *;
    var bytes, record := RunBytes(run, previous) + rest, Record(run.start - previous, Shape(run), run.delta, rest);
    NothingWraps(run, code);
    RunInShape(run, record);
    RunBytesRead(run, previous, rest);
    RunFollows(bytes, previous, code, record);
    assert previous + record.gap == run.start;
  }

  lemma RunInShape(run: Run, record: Record)
    requires ValidRun(run) && record.shape == Shape(run) && record.delta == run.delta
    ensures RunIn(record, run.start) == run && run.start < WORD
  {
    RunShape(run);
    hide Shape;
  }

  lemma RunBytesRead(run: Run, previous: nat, rest: seq<byte>)
    requires ValidRun(run) && previous <= run.start
    ensures RecordAt(RunBytes(run, previous) + rest) == Some(Record(run.start - previous, Shape(run), run.delta, rest))
  {
    RunShape(run);
    hide VarintOf, SignedOf, RecordAt, Shape;
    RecordReads(run.start - previous, Shape(run), run.delta, rest);
  }

  /** One round of the decoder's walk. */
  lemma RunFollows(bytes: seq<byte>, previous: nat, code: nat, record: Record)
    requires RecordAt(bytes) == Some(record)
    ensures var run := RunIn(record, previous + record.gap);
      FindRun(bytes, previous, code) ==
      if previous + record.gap >= WORD || code < previous + record.gap then None
      else if Hits(run, code) then Some(run.delta)
      else FindRun(record.rest, (WrappedLast(run) + 1) % WORD, code)
  {
    hide RecordAt, Hits, RunIn, WrappedLast;
  }

  lemma HoldsSplits(runs: seq<Run>, code: nat)
    requires runs != []
    ensures Holds(runs, code) <==> Contains(runs[0], code) || Holds(runs[1..], code)
  {
    hide Contains;
    if Holds(runs[1..], code) {
      var i :| 0 <= i < |runs[1..]| && Contains(runs[1..][i], code);
      assert Contains(runs[i + 1], code);
    }
    if Holds(runs, code) && !Contains(runs[0], code) {
      var i :| 0 <= i < |runs| && Contains(runs[i], code);
      assert Contains(runs[1..][i - 1], code);
    }
  }

  lemma {:induction false} FindsRun(runs: seq<Run>, previous: nat, code: nat)
    requires Ordered(runs, previous)
    ensures FindRun(RunsOf(runs, previous), previous, code).Some? <==> Holds(runs, code)
    ensures forall i :: 0 <= i < |runs| && Contains(runs[i], code) ==>
      FindRun(RunsOf(runs, previous), previous, code) == Some(runs[i].delta)
    decreases runs
  {
    if runs == [] {
      assert RecordAt([]).None?;
    } else {
      hide FindRun, Contains, Holds, RunBytes;
      var run, later := runs[0], runs[1..];
      var bytes, rest := RunsOf(runs, previous), RunsOf(later, Last(run) + 1);
      assert bytes == RunBytes(run, previous) + rest;
      RunReads(run, previous, rest, code);
      RunsSeparate(runs, previous, code);
      FindsRun(later, Last(run) + 1, code);
      HoldsSplits(runs, code);
      assert forall i :: 0 < i < |runs| ==> runs[i] == later[i - 1];
    }
  }

  /** At most one run holds a code, and none holds one before the runs. */
  lemma RunsSeparate(runs: seq<Run>, previous: nat, code: nat)
    requires Ordered(runs, previous) && runs != []
    ensures code < runs[0].start ==> !Holds(runs, code)
    ensures Contains(runs[0], code) ==> forall i :: 0 < i < |runs| ==> !Contains(runs[i], code)
  {
    LaterRuns(runs[1..], Last(runs[0]) + 1, code);
    HoldsSplits(runs, code);
    forall i | 0 < i < |runs| && Contains(runs[i], code) ensures Holds(runs[1..], code) {
      assert runs[1..][i - 1] == runs[i];
    }
  }

  lemma {:induction false} LaterRuns(runs: seq<Run>, previous: nat, code: nat)
    requires Ordered(runs, previous)
    ensures code < previous ==> !Holds(runs, code)
    decreases runs
  {
    if runs != [] && code < previous {
      LaterRuns(runs[1..], Last(runs[0]) + 1, code);
      assert forall i :: 0 < i < |runs| ==> runs[i] == runs[1..][i - 1];
      assert forall i :: 0 < i < |runs| && Contains(runs[i], code) ==> Holds(runs[1..], code);
    }
  }
}
