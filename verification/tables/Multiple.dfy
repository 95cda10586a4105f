/** Characters that map to several characters, and the lookup of any character. */
module CaseMappings {
  import opened ImageBytes
  import opened Varints
  import opened CaseRuns
  import opened Wrappers

  predicate IsMulti(f: nat -> seq<nat>, code: nat) {
    IsChar(code) && |f(code)| > 1
  }

  ghost function DeltasOf(targets: seq<nat>, code: nat): seq<byte> {
    if targets == [] then [] else SignedOf(targets[0] - code) + DeltasOf(targets[1..], code)
  }

  /** The entry of one character: the gap before it, the number of characters and their shifts. */
  ghost function EntryOf(f: nat -> seq<nat>, code: nat, previous: nat): seq<byte> {
    VarintOf(if previous <= code then code - previous else 0) + [|f(code)| % 256] + DeltasOf(f(code), code)
  }

  /** The entries of the characters from `from` on. */
  ghost function MultiFrom(f: nat -> seq<nat>, from: nat, previous: nat): seq<byte>
    decreases LAST_CODE + 1 - from
  {
    if from > LAST_CODE then []
    else if IsMulti(f, from) then EntryOf(f, from, previous) + MultiFrom(f, from + 1, from)
    else MultiFrom(f, from + 1, previous)
  }

  /** The character `code + delta`, or `fallback` when it is none. */
  function OffsetChar(code: nat, delta: int, fallback: nat): nat {
    if 0 <= code + delta && IsChar(code + delta) then code + delta else fallback
  }

  /** The next `count` characters of an entry, and the bytes after them. */
  ghost function TargetsAt(bytes: seq<byte>, entry: nat, count: nat, fallback: nat): (r: (seq<nat>, seq<byte>))
    ensures |r.0| == count && |r.1| <= |bytes|
    decreases count
  {
    if count == 0 then ([], bytes)
    else
      var delta := SignedAt(bytes);
      var target := if delta.0.None? then fallback else OffsetChar(entry, delta.0.value, fallback);
      var later := TargetsAt(delta.1, entry, count - 1, fallback);
      ([target] + later.0, later.1)
  }

  function AtMostThree(count: nat): nat {
    if count < 3 then count else 3
  }

  /** The count byte of an entry, none reads as 0. */
  ghost function CountAt(bytes: seq<byte>): (r: (nat, seq<byte>))
    ensures |r.1| <= |bytes|
  {
    if bytes == [] then (0, []) else (bytes[0], bytes[1..])
  }

  /** The characters the entries give a code: the decoder's walk. */
  ghost function FindMulti(bytes: seq<byte>, previous: nat, code: nat): Option<seq<nat>>
    decreases |bytes|
  {
    var gap := VarintAt(bytes);
    if gap.0.None? || previous + gap.0.value >= WORD then None
    else
      var entry := previous + gap.0.value;
      var count := CountAt(gap.1);
      var targets := TargetsAt(count.1, entry, AtMostThree(count.0), code);
      if entry == code then Some(targets.0)
      else if entry > code then None
      else FindMulti(targets.1, entry, code)
  }

  lemma {:induction false} TargetsRead(targets: seq<nat>, code: nat, fallback: nat, rest: seq<byte>)
    requires IsChar(code) && forall i :: 0 <= i < |targets| ==> IsChar(targets[i])
    ensures TargetsAt(DeltasOf(targets, code) + rest, code, |targets|, fallback) == (targets, rest)
    decreases targets
  {
    if targets == [] {
      assert DeltasOf(targets, code) + rest == rest;
    } else {
      hide SignedOf, SignedAt;
      var delta := targets[0] - code;
      var later := DeltasOf(targets[1..], code) + rest;
      assert DeltasOf(targets, code) + rest == SignedOf(delta) + later;
      SignedReadsBack(delta, later);
      TargetsRead(targets[1..], code, fallback, rest);
      assert targets == [targets[0]] + targets[1..];
    }
  }

  lemma EntryReads(f: nat -> seq<nat>, entry: nat, previous: nat, rest: seq<byte>, code: nat)
    requires Mapping(f) && IsMulti(f, entry) && previous <= entry
    ensures FindMulti(EntryOf(f, entry, previous) + rest, previous, code) ==
      if entry == code then Some(f(code)) else if entry > code then None else FindMulti(rest, entry, code)
  {
    hide VarintOf, SignedOf, VarintAt, SignedAt, TargetsAt, DeltasOf;
    var gap, targets := entry - previous, f(entry);
    var deltas := DeltasOf(targets, entry) + rest;
    assert EntryOf(f, entry, previous) + rest == VarintOf(gap) + ([|targets|] + deltas);
    VarintReadsBack(gap, [|targets|] + deltas);
    assert CountAt([|targets|] + deltas) == (|targets|, deltas);
    TargetsRead(targets, entry, code, rest);
  }

  /** The entries give every character with several characters all of them, and no other character any. */
  lemma {:induction false} FindsMulti(f: nat -> seq<nat>, from: nat, previous: nat, code: nat)
    requires Mapping(f) && previous <= from && code <= LAST_CODE
    ensures FindMulti(MultiFrom(f, from, previous), previous, code) ==
      if from <= code && IsMulti(f, code) then Some(f(code)) else None
    decreases LAST_CODE + 1 - from
  {
    hide *;
    if from > LAST_CODE {
      NoEntries(f, from, previous, code);
    } else {
      NextEntry(f, from, previous);
      if IsMulti(f, from) {
        EntryReads(f, from, previous, MultiFrom(f, from + 1, from), code);
        FindsMulti(f, from + 1, from, code);
      } else {
        FindsMulti(f, from + 1, previous, code);
      }
    }
  }

  lemma NoEntries(f: nat -> seq<nat>, from: nat, previous: nat, code: nat)
    requires from > LAST_CODE
    ensures FindMulti(MultiFrom(f, from, previous), previous, code).None?
  {
    assert VarintAt([]).0.None?;
  }

  lemma NextEntry(f: nat -> seq<nat>, from: nat, previous: nat)
    requires from <= LAST_CODE
    ensures MultiFrom(f, from, previous) ==
      if IsMulti(f, from) then EntryOf(f, from, previous) + MultiFrom(f, from + 1, from)
        else MultiFrom(f, from + 1, previous)
  {
    hide EntryOf, IsMulti;
  }

  // ---- The whole mapping ----

  /** The characters of a character by the run records and the entries. */
  ghost function Mapped(runs: seq<byte>, multi: seq<byte>, code: nat): seq<nat> {
    var several := FindMulti(multi, 0, code);
    if several.Some? then several.value
    else
      var delta := FindRun(runs, 0, code);
      [if delta.Some? then OffsetChar(code, delta.value, code) else code]
  }

  /** The records of one mapping: decoding them gives the mapping back at every character. */
  lemma MappingReadsBack(f: nat -> seq<nat>, runs: seq<Run>, code: nat)
    requires Mapping(f) && Collected(f, runs, LAST_CODE + 1) && IsChar(code)
    ensures Mapped(RunsOf(runs, 0), MultiFrom(f, 0, 0), code) == f(code)
  {
    hide FindMulti, FindRun, RunsOf, MultiFrom, Ordered, Contains;
    FindsMulti(f, 0, 0, code);
    FindsRun(runs, 0, code);
    if |f(code)| == 1 {
      assert f(code) == [f(code)[0]];
      if Holds(runs, code) {
        var i :| 0 <= i < |runs| && Contains(runs[i], code);
        assert Shift(f, code) == Some(runs[i].delta);
      } else {
        assert Shift(f, code).None?;
      }
    }
  }

  // ---- The size of the streams ----

  lemma {:induction false} RunsLength(runs: seq<Run>, previous: nat)
    requires Ordered(runs, previous) && previous <= LAST_CODE + 1
    ensures |RunsOf(runs, previous)| <= 30 * (LAST_CODE + 1 - previous)
  {
    if runs != [] {
      hide VarintOf, Shape;
      var run := runs[0];
      RunShape(run);
      AtMostTen(run.start - previous);
      AtMostTen(Shape(run));
      AtMostTen(ZigZag(run.delta));
      RunsLength(runs[1..], Last(run) + 1);
    }
  }

  lemma {:induction false} DeltasLength(targets: seq<nat>, code: nat)
    requires IsChar(code) && forall i :: 0 <= i < |targets| ==> IsChar(targets[i])
    ensures |DeltasOf(targets, code)| <= 10 * |targets|
  {
    if targets != [] {
      hide VarintOf;
      AtMostTen(ZigZag(targets[0] - code));
      DeltasLength(targets[1..], code);
    }
  }

  lemma {:induction false} MultiLength(f: nat -> seq<nat>, from: nat, previous: nat)
    requires Mapping(f) && previous <= from <= LAST_CODE + 1
    ensures |MultiFrom(f, from, previous)| <= 41 * (LAST_CODE + 1 - from)
    decreases LAST_CODE + 1 - from
  {
    if from <= LAST_CODE {
      hide MultiFrom, VarintOf, DeltasOf;
      NextEntry(f, from, previous);
      if IsMulti(f, from) {
        AtMostTen(from - previous);
        DeltasLength(f(from), from);
        MultiLength(f, from + 1, from);
      } else {
        MultiLength(f, from + 1, previous);
      }
    }
  }

  // ---- Encoding ----

  method EncodeTargets(out: seq<byte>, targets: seq<nat>, code: nat) returns (r: seq<byte>)
    ensures r == out + DeltasOf(targets, code)
  {
    hide SignedOf;
    r := out;
    var i := 0;
    while i < |targets|
      invariant 0 <= i <= |targets|
      invariant r + DeltasOf(targets[i..], code) == out + DeltasOf(targets, code)
    {
      assert targets[i..][1..] == targets[i + 1..];
      var more := WriteSigned(r, targets[i] - code);
      assert r + DeltasOf(targets[i..], code) == more + DeltasOf(targets[i + 1..], code);
      r := more;
      i := i + 1;
    }
    assert r + [] == r;
  }

  lemma NextRun(runs: seq<Run>, i: nat, previous: nat)
    requires i < |runs| && Ordered(runs[i..], previous)
    ensures ValidRun(runs[i]) && previous <= runs[i].start && Ordered(runs[i + 1..], Last(runs[i]) + 1)
    ensures RunsOf(runs[i..], previous) == RunBytes(runs[i], previous) + RunsOf(runs[i + 1..], Last(runs[i]) + 1)
  {
    hide RunBytes;
    assert runs[i..][1..] == runs[i + 1..];
  }

  method EncodeRun(out: seq<byte>, run: Run, previous: nat) returns (more: seq<byte>)
    requires ValidRun(run) && previous <= run.start
    ensures more == out + RunBytes(run, previous)
  {
    hide VarintOf, SignedOf;
    more := WriteVarint(out, run.start - previous);
    more := WriteVarint(more, run.count * 2 + (run.stride - 1));
    more := WriteSigned(more, run.delta);
  }

  method EncodeRuns(runs: seq<Run>) returns (out: seq<byte>)
    requires Ordered(runs, 0)
    ensures out == RunsOf(runs, 0)
  {
    hide RunBytes;
    out := [];
    var previous: nat, i: nat := 0, 0;
    while i < |runs|
      invariant 0 <= i <= |runs|
      invariant Ordered(runs[i..], previous)
      invariant out + RunsOf(runs[i..], previous) == RunsOf(runs, 0)
    {
      hide RunsOf, Ordered;
      NextRun(runs, i, previous);
      ghost var rest := RunsOf(runs[i + 1..], Last(runs[i]) + 1);
      var more := EncodeRun(out, runs[i], previous);
      assert more + rest == out + (RunBytes(runs[i], previous) + rest);
      out := more;
      previous := runs[i].start + (runs[i].count - 1) * runs[i].stride + 1;
      i := i + 1;
    }
    assert out + [] == out;
  }

  /** Encodes a mapping: decoding the two streams gives it back at every character. */
  method EncodeMapping(f: nat -> seq<nat>) returns (runs: seq<byte>, multi: seq<byte>)
    requires Mapping(f)
    ensures forall code :: IsChar(code) ==> Mapped(runs, multi, code) == f(code)
    ensures |runs| <= 30 * (LAST_CODE + 1) && |multi| <= 41 * (LAST_CODE + 1)
  {
    hide *;
    var collected: seq<Run> := [];
    var current: Option<Run> := None;
    var previous: nat, code: nat := 0, 0;
    multi := [];
    Nothing(f);
    while code <= LAST_CODE
      invariant previous <= code <= LAST_CODE + 1
      invariant Collected(f, WithCurrent(collected, current), code)
      invariant multi + MultiFrom(f, code, previous) == MultiFrom(f, 0, 0)
    {
      NextEntry(f, code, previous);
      Cases(f, code);
      if IsMulti(f, code) {
        SkipCode(f, WithCurrent(collected, current), code);
        var entry := WriteVarint(multi, code - previous);
        entry := EncodeTargets(entry + [|f(code)|], f(code), code);
        EntryWritten(f, code, previous, multi, entry);
        multi := entry;
        previous := code;
      } else if !IsChar(code) || f(code)[0] == code {
        SkipCode(f, WithCurrent(collected, current), code);
      } else {
        collected, current := Extend(f, collected, current, code, f(code)[0] - code);
      }
      code := code + 1;
    }
    assert MultiFrom(f, code, previous) == [] by { NoMore(f, code, previous); }
    assert multi + [] == multi;
    CollectedOrdered(f, WithCurrent(collected, current), code);
    runs := EncodeRuns(WithCurrent(collected, current));
    RunsLength(WithCurrent(collected, current), 0);
    MultiLength(f, 0, 0);
    forall other | IsChar(other) ensures Mapped(runs, multi, other) == f(other) {
      MappingReadsBack(f, WithCurrent(collected, current), other);
    }
  }

  /** Grows the current run by a code, or begins the next one with it. */
  method Extend(ghost f: nat -> seq<nat>, collected: seq<Run>, current: Option<Run>, code: nat, delta: int)
    returns (done: seq<Run>, next: Option<Run>)
    requires Mapping(f) && code <= LAST_CODE && Shift(f, code) == Some(delta)
    requires Collected(f, WithCurrent(collected, current), code)
    ensures Collected(f, WithCurrent(done, next), code + 1)
  {
    hide Collected, Shift, Mapping;
    ghost var all := WithCurrent(collected, current);
    if current.Some? && current.value.delta == delta
      && (code == current.value.start + current.value.count * current.value.stride
          || (current.value.count == 1 && code - current.value.start <= 2)) {
      StartsBefore(f, collected, current.value, code);
      ContinueRun(f, all, code);
      LastReplaced(collected, current.value, Longer(current.value, code));
      done := collected;
      next := Some(Run(current.value.start, current.value.count + 1,
        if current.value.count == 1 then code - current.value.start else current.value.stride, delta));
    } else {
      StartRun(f, all, code);
      done := if current.Some? then collected + [current.value] else collected;
      next := Some(Run(code, 1, 1, delta));
    }
  }

  /** The cases of the encoder. */
  lemma Cases(f: nat -> seq<nat>, code: nat)
    requires Mapping(f)
    ensures IsMulti(f, code) ==> |f(code)| < 256 && Shift(f, code).None?
    ensures IsChar(code) ==> |f(code)| > 0
    ensures !IsChar(code) ==> Shift(f, code).None? && !IsMulti(f, code)
    ensures IsChar(code) && !IsMulti(f, code) ==> Shift(f, code) == if f(code)[0] == code then None
        else Some(f(code)[0] - code)
  {}

  lemma NoMore(f: nat -> seq<nat>, from: nat, previous: nat)
    requires from > LAST_CODE
    ensures MultiFrom(f, from, previous) == []
  {}

  /** The collected runs and the one still growing. */
  function WithCurrent(runs: seq<Run>, current: Option<Run>): seq<Run> {
    if current.Some? then runs + [current.value] else runs
  }

  lemma Nothing(f: nat -> seq<nat>)
    ensures Collected(f, WithCurrent([], None), 0)
  {}

  lemma CollectedOrdered(f: nat -> seq<nat>, runs: seq<Run>, upto: nat)
    requires Collected(f, runs, upto)
    ensures Ordered(runs, 0)
  {}

  lemma StartsBefore(f: nat -> seq<nat>, runs: seq<Run>, run: Run, upto: nat)
    requires Collected(f, runs + [run], upto)
    ensures run.start < upto
  {
    var all := runs + [run];
    OrderedDrops(all, 0);
    assert Last(all[|all| - 1]) < upto;
  }

  lemma LastReplaced(runs: seq<Run>, run: Run, longer: Run)
    ensures (runs + [run])[..|runs|] + [longer] == runs + [longer]
  {}

  lemma EntryWritten(f: nat -> seq<nat>, code: nat, previous: nat, before: seq<byte>, after: seq<byte>)
    requires IsMulti(f, code) && previous <= code && |f(code)| < 256 && code <= LAST_CODE
    requires after == before + VarintOf(code - previous) + [|f(code)|] + DeltasOf(f(code), code)
    ensures after + MultiFrom(f, code + 1, code) == before + MultiFrom(f, code, previous)
  {
    hide VarintOf, DeltasOf;
    assert after == before + EntryOf(f, code, previous);
  }
}
