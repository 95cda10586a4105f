/** Taking and giving back runs of pages; the runs always tile the heap and the list holds exactly the free ones. */
module Pages {
  import opened Wrappers
  import opened HeapLayout
  import opened HeapState

  function SystemRun(pages: nat): Run {
    Run(System, pages, 0)
  }

  /** `headers` with the link to free run `list[i]`, if a run holds it, replaced by `target`. */
  ghost function Relink(headers: map<nat, Run>, list: seq<nat>, i: nat, target: nat): map<nat, Run>
    requires i <= |list| && (i > 0 ==> list[i - 1] in headers)
  {
    if i == 0 then headers else headers[list[i - 1] := headers[list[i - 1]].(detail := target)]
  }

  /** A run may change its kind, in place, without touching the tiling. */
  lemma RetypeTiles(runs: map<nat, Run>, low: nat, high: nat, page: nat, run: Run)
    requires Tiles(runs, low, high)
    requires page in runs && run.pages == runs[page].pages
    requires run.kind.Class? ==> run.pages == 1 && run.detail < CLASS_COUNT
    ensures Tiles(runs[page := run], low, high)
  {
    var retyped := runs[page := run];
    assert AllFit(retyped, low, high) by {
      forall other | other in retyped ensures RunFits(retyped, low, high, other) {
        assert RunFits(runs, low, high, other);
      }
    }
    assert AllFollowed(retyped, high) by {
      forall other {:trigger Followed(retyped, high, other)} | other in retyped ensures Followed(retyped, high, other) {
        assert Followed(runs, high, other);
      }
    }
    assert Apart(retyped);
  }

  /** A run at `page` becomes a system run of `count` pages and a free run behind it. */
  ghost function Split(runs: map<nat, Run>, page: nat, count: nat, rest: Run): map<nat, Run> {
    runs[page + count := rest][page := SystemRun(count)]
  }

  lemma SplitFits(runs: map<nat, Run>, low: nat, high: nat, page: nat, count: nat, rest: Run)
    requires AllFit(runs, low, high) && page in runs && 0 < count < runs[page].pages
    requires rest == Run(Free, runs[page].pages - count, 0)
    ensures AllFit(Split(runs, page, count, rest), low, high)
  {
    var split := Split(runs, page, count, rest);
    assert RunFits(runs, low, high, page);
    forall other | other in split ensures RunFits(split, low, high, other) {
      assert other in runs ==> RunFits(runs, low, high, other);
    }
  }

  lemma SplitFollowed(runs: map<nat, Run>, high: nat, page: nat, count: nat, rest: Run)
    requires AllFollowed(runs, high) && Apart(runs) && page in runs && 0 < count < runs[page].pages
    requires rest == Run(Free, runs[page].pages - count, 0)
    ensures AllFollowed(Split(runs, page, count, rest), high)
  {
    var split := Split(runs, page, count, rest);
    SplitEnds(runs, page, count, rest);
    assert Followed(runs, high, page);
    hide Apart, RunEnd;
    forall other {:trigger Followed(split, high, other)} | other in split ensures Followed(split, high, other) {
      assert other in runs ==> Followed(runs, high, other);
    }
  }

  /** Cutting a run in two. */
  lemma SplitTiles(runs: map<nat, Run>, low: nat, high: nat, page: nat, count: nat, rest: Run)
    requires Tiles(runs, low, high)
    requires page in runs && 0 < count < runs[page].pages && rest == Run(Free, runs[page].pages - count, 0)
    ensures page + count !in runs
    ensures Tiles(runs[page + count := rest][page := SystemRun(count)], low, high)
  {
    hide AllFit, AllFollowed, Apart;
    SplitEnds(runs, page, count, rest);
    SplitFits(runs, low, high, page, count, rest);
    SplitFollowed(runs, high, page, count, rest);
  }

  lemma SplitEnds(runs: map<nat, Run>, page: nat, count: nat, rest: Run)
    requires Apart(runs) && page in runs && 0 < count < runs[page].pages
    requires rest == Run(Free, runs[page].pages - count, 0)
    ensures
      var tail := page + count;
      var split := Split(runs, page, count, rest);
      && RunEnd(split, tail) == RunEnd(runs, page) && RunEnd(split, page) == tail && tail !in runs
      && (forall other | other in runs && other != page :: RunEnd(split, other) == RunEnd(runs, other))
      && Apart(split)
  {}

  /** Appending one run at the end of a tiling. */
  lemma AppendTiles(runs: map<nat, Run>, low: nat, page: nat, run: Run)
    requires Tiles(runs, low, page)
    requires run.pages > 0 && (run.kind.Class? ==> run.pages == 1 && run.detail < CLASS_COUNT)
    ensures page !in runs
    ensures Tiles(runs[page := run], low, page + run.pages)
  {
    assert page in runs ==> RunFits(runs, low, page, page);
    var appended := runs[page := run];
    var high := page + run.pages;
    assert AllFit(appended, low, high) by {
      forall other | other in appended ensures RunFits(appended, low, high, other) {
        if other != page { assert RunFits(runs, low, page, other); }
      }
    }
    assert AllFollowed(appended, high) by {
      forall other {:trigger Followed(appended, high, other)} | other in appended
        ensures Followed(appended, high, other)
      {
        if other != page { assert Followed(runs, page, other); }
      }
    }
    assert Apart(appended) by {
      forall other | other in runs ensures RunEnd(appended, other) <= page {
        assert RunFits(runs, low, page, other);
      }
    }
  }

  /** Taking the whole of free run `list[i]` for the system. */
  lemma WholeRunTaken(headers: map<nat, Run>, runs: map<nat, Run>, low: nat, high: nat, head: nat, list: seq<nat>,
                      i: nat)
    requires RunsValid(headers, runs, low, high, head, list) && i < |list|
    requires list[i] in headers && (i > 0 ==> list[i - 1] in headers)
    ensures
      var page: nat := list[i];
      var run := headers[page];
      RunsValid(Relink(headers, list, i, run.detail)[page := SystemRun(run.pages)], runs[page := SystemRun(run.pages)],
                low, high, if i == 0 then run.detail else head, list[..i] + list[i + 1..])
  {
    var page: nat := list[i];
    assert page in list;
    var run := headers[page];
    RetypeTiles(runs, low, high, page, SystemRun(run.pages));
    WholeRunUnlinked(headers, runs, head, list, i);
  }

  lemma WholeRunUnlinked(headers: map<nat, Run>, runs: map<nat, Run>, head: nat, list: seq<nat>, i: nat)
    requires Stored(headers, runs) && FreeRuns(headers, runs, head, list) && i < |list|
    requires list[i] in headers && (i > 0 ==> list[i - 1] in headers)
    ensures
      var page: nat := list[i];
      var run := headers[page];
      var taken := Relink(headers, list, i, run.detail)[page := SystemRun(run.pages)];
      && Stored(taken, runs[page := SystemRun(run.pages)])
      && FreeRuns(taken, runs[page := SystemRun(run.pages)],
                  if i == 0 then run.detail else head, list[..i] + list[i + 1..])
  {
    var page: nat := list[i];
    var run := headers[page];
    var rest := list[..i] + list[i + 1..];
    var taken := Relink(headers, list, i, run.detail)[page := SystemRun(run.pages)];
    assert RunLinked(headers, list, i);
    if i > 0 { assert list[i - 1] in list; }
    forall j {:trigger RunLinked(taken, rest, j)} | 0 <= j < |rest|
      ensures RunLinked(taken, rest, j)
    {
      assert RunLinked(headers, list, if j < i then j else j + 1);
    }
    forall other
      ensures other in rest <==> other in list && other != page
    {
      if other in list && other != page {
        var j :| 0 <= j < |list| && list[j] == other;
        assert rest[if j < i then j else j - 1] == other;
      }
    }
  }

  /** Splitting free run `list[i]`: its first `count` pages go to the system, the rest stays listed in its place. */
  lemma RunSplit(headers: map<nat, Run>, runs: map<nat, Run>, low: nat, high: nat, head: nat, list: seq<nat>, i: nat,
                 count: nat)
    requires RunsValid(headers, runs, low, high, head, list) && i < |list|
    requires list[i] in runs && 0 < count < runs[list[i]].pages
    requires list[i] in headers && (i > 0 ==> list[i - 1] in headers)
    ensures
      var page: nat := list[i];
      var tail := page + count;
      var rest := runs[page].pages - count;
      && tail !in runs
      && RunsValid(Relink(headers[tail := Run(Free, rest, headers[page].detail)], list, i, tail)[page :=
        SystemRun(count)], runs[tail := Run(Free, rest, 0)][page := SystemRun(count)],
                   low, high, if i == 0 then tail else head, list[i := tail])
  {
    hide AllFit, AllFollowed, Apart, RunLinked, Distinct;
    var page: nat := list[i];
    assert page in list;
    SplitTiles(runs, low, high, page, count, Run(Free, runs[page].pages - count, 0));
    SplitLinked(headers, runs, head, list, i, count, page + count);
  }

  lemma SplitLinked(headers: map<nat, Run>, runs: map<nat, Run>, head: nat, list: seq<nat>, i: nat, count: nat,
                    tail: nat)
    requires Stored(headers, runs) && FreeRuns(headers, runs, head, list) && i < |list|
    requires list[i] in runs && count < runs[list[i]].pages && tail !in runs
    requires list[i] in headers && (i > 0 ==> list[i - 1] in headers)
    ensures
      var page: nat := list[i];
      var rest := runs[page].pages - count;
      var taken := Relink(headers[tail := Run(Free, rest, headers[page].detail)], list, i, tail)[page :=
        SystemRun(count)];
      var split := runs[tail := Run(Free, rest, 0)][page := SystemRun(count)];
      && Stored(taken, split)
      && FreeRuns(taken, split, if i == 0 then tail else head, list[i := tail])
  {
    var page: nat := list[i];
    var rest := runs[page].pages - count;
    var next := list[i := tail];
    assert forall j | 0 <= j < |list| :: list[j] in list;
    assert RunLinked(headers, list, i);
    var taken := Relink(headers[tail := Run(Free, rest, headers[page].detail)], list, i, tail)[page :=
      SystemRun(count)];
    forall j {:trigger RunLinked(taken, next, j)} | 0 <= j < |next|
      ensures RunLinked(taken, next, j)
    {
      assert RunLinked(headers, list, j);
    }
    forall other
      ensures other in next <==> other == tail || (other in list && other != page)
    {
      if other in list && other != page {
        var j :| 0 <= j < |list| && list[j] == other;
        assert next[j] == other;
      }
      assert next[i] == tail;
    }
  }

  /** Asks the host to grow linear memory by `pages` pages. */
  method Grow(vm: Vm, pages: nat) returns (grown: bool)
    modifies vm`size, vm`growths
    ensures grown == vm.host(old(vm.growths), pages) && vm.growths == old(vm.growths) + 1
    ensures vm.size == if grown then old(vm.size) + PageAddress(pages) else old(vm.size)
  {
    grown := vm.host(vm.growths, pages);
    vm.growths := vm.growths + 1;
    if grown {
      vm.size := vm.size + PageAddress(pages);
    }
  }

  /** The pages that memory of `size` bytes lacks for a heap that ends at page `end`. */
  function Missing(end: nat, size: nat): (pages: nat)
    ensures pages > 0 <==> PageAddress(end) > size
  {
    if PageAddress(end) > size then (PageAddress(end) - size + 65535) / 65536 else 0
  }

  /** The end of the heap and the count of requests to the host never go back. */
  twostate predicate MovesOn(vm: Vm)
    reads vm
  {
    old(vm.heapEnd) <= vm.heapEnd && old(vm.growths) <= vm.growths
  }

  /** The heap cannot end `count` pages later: no address would be left, or the host has just refused what it lacks. */
  ghost predicate CannotGrow(vm: Vm, count: nat, asked: nat)
    reads vm`heapEnd, vm`size, vm`growths
  {
    || vm.heapEnd + count >= PAGE_LIMIT
    || (asked < vm.growths && PageAddress(vm.heapEnd + count) > vm.size
        && !vm.host(vm.growths - 1, Missing(vm.heapEnd + count, vm.size)))
  }

  /** No free run has `count` pages, and the heap cannot grow by them. */
  ghost predicate NoPages(vm: Vm, count: nat, asked: nat)
    reads vm`runs, vm`heapEnd, vm`size, vm`growths
  {
    && (forall free | free in vm.runs && vm.runs[free].kind.Free? :: vm.runs[free].pages < count)
    && CannotGrow(vm, count, asked)
  }

  /** `page` starts a system run of `count` pages that was not in use before; nothing else in use changed. */
  ghost predicate NewlyUsed(before: map<nat, Run>, after: map<nat, Run>, page: nat, count: nat) {
    && page !in InUse(before)
    && InUse(after) == InUse(before)[page := SystemRun(count)]
  }

  /** What TakePages gives: `page` starts `count` pages that belong to nobody until their header is written. */
  twostate predicate Taken(vm: Vm, page: nat, count: nat)
    reads vm
  {
    && RunsValid(vm.headers[page := SystemRun(count)], vm.runs, vm.heapStart, vm.heapEnd, vm.freeRuns, vm.freeList)
    && NewlyUsed(old(vm.runs), vm.runs, page, count)
  }

  lemma UsedAfterTake(runs: map<nat, Run>, page: nat, count: nat)
    requires page in runs ==> runs[page].kind.Free?
    ensures NewlyUsed(runs, runs[page := SystemRun(count)], page, count)
  {}

  lemma UsedAfterSplit(runs: map<nat, Run>, page: nat, tail: nat, count: nat, rest: Run)
    requires page in runs && runs[page].kind.Free? && tail !in runs && rest.kind.Free? && tail != page
    ensures NewlyUsed(runs, runs[tail := rest][page := SystemRun(count)], page, count)
  {
    var split := runs[tail := rest];
    assert InUse(split) == InUse(runs);
    UsedAfterTake(split, page, count);
  }

  lemma StoredPages(headers: map<nat, Run>, runs: map<nat, Run>, low: nat, high: nat, head: nat, list: seq<nat>,
                    page: nat)
    requires RunsValid(headers, runs, low, high, head, list) && page in runs
    ensures page in headers && headers[page].pages == runs[page].pages > 0
  {
    assert RunFits(runs, low, high, page);
  }

  /** The pages after free run `list[i]` was unlinked, or cut behind its first `count` pages. */
  lemma TakenFrom(headers: map<nat, Run>, runs: map<nat, Run>, low: nat, high: nat, head: nat, list: seq<nat>, i: nat,
                  count: nat, headers': map<nat, Run>, runs': map<nat, Run>, head': nat, list': seq<nat>)
    requires RunsValid(headers, runs, low, high, head, list) && i < |list|
    requires list[i] in runs && runs[list[i]].kind.Free? && list[i] in headers && (i > 0 ==> list[i - 1] in headers)
    requires 0 < count <= runs[list[i]].pages
    requires
      var page: nat := list[i];
      var rest := runs[page].pages - count;
      var tail := page + count;
      if rest == 0 then
        && headers' == Relink(headers, list, i, headers[page].detail) && runs' == runs[page := SystemRun(count)]
        && head' == (if i == 0 then headers[page].detail else head) && list' == list[..i] + list[i + 1..]
      else
        && headers' == Relink(headers[tail := Run(Free, rest, headers[page].detail)], list, i, tail)
        && runs' == runs[tail := Run(Free, rest, 0)][page := SystemRun(count)]
        && head' == (if i == 0 then tail else head) && list' == list[i := tail]
    ensures RunsValid(headers'[list[i] := SystemRun(count)], runs', low, high, head', list')
    ensures NewlyUsed(runs, runs', list[i], count)
  {
    hide RunsValid, NewlyUsed, InUse;
    var page: nat := list[i];
    StoredPages(headers, runs, low, high, head, list, page);
    if count == runs[page].pages {
      WholeRunTaken(headers, runs, low, high, head, list, i);
      UsedAfterTake(runs, page, count);
    } else {
      RunSplit(headers, runs, low, high, head, list, i, count);
      UsedAfterSplit(runs, page, page + count, count, Run(Free, runs[page].pages - count, 0));
    }
  }

  /** Unlinks free run `runPage`, the `i`-th listed and after `previous`, or cuts its first `count` pages off. */
  method TakeFrom(vm: Vm, count: nat, previous: nat, runPage: nat, ghost i: nat)
    requires vm.Paged() && i < |vm.freeList| && vm.freeList[i] == runPage
    requires previous == (if i == 0 then 0 else vm.freeList[i - 1])
    requires (i > 0 ==> previous > 0 && previous in vm.headers)
    requires runPage in vm.runs && vm.runs[runPage].kind.Free? && 0 < count <= vm.runs[runPage].pages
    modifies vm`headers, vm`freeRuns, vm`runs, vm`freeList
    ensures Taken(vm, runPage, count)
  {
    var run := vm.headers[runPage];
    var remainder := run.pages - count;
    var replacement := run.detail;
    ghost var headers, runs, head, list := vm.headers, vm.runs, vm.freeRuns, vm.freeList;
    if remainder == 0 {
      vm.freeList := vm.freeList[..i] + vm.freeList[i + 1..];
    } else {
      var tail := runPage + count;
      vm.headers := vm.headers[tail := Run(Free, remainder, run.detail)];
      replacement := tail;
      vm.runs := vm.runs[tail := Run(Free, remainder, 0)];
      vm.freeList := vm.freeList[i := tail];
    }
    vm.runs := vm.runs[runPage := SystemRun(count)];
    LinkTo(vm, previous, replacement);
    TakenFrom(headers, runs, vm.heapStart, vm.heapEnd, head, list, i, count, vm.headers, vm.runs, vm.freeRuns,
      vm.freeList);
  }

  /** Makes the run listed after `previous`, or the first listed one, `target`. */
  method LinkTo(vm: Vm, previous: nat, target: nat)
    requires previous != 0 ==> previous in vm.headers
    modifies vm`headers, vm`freeRuns
    ensures vm.freeRuns == if previous == 0 then target else old(vm.freeRuns)
    ensures vm.headers == if previous == 0 then old(vm.headers)
                          else old(vm.headers)[previous := old(vm.headers)[previous].(detail := target)]
  {
    if previous == 0 {
      vm.freeRuns := target;
    } else {
      vm.headers := vm.headers[previous := vm.headers[previous].(detail := target)];
    }
  }

  /** The first listed free run of at least `count` pages, or the end of the heap when there is none. */
  ghost function FirstFit(runs: map<nat, Run>, list: seq<nat>, count: nat, end: nat): nat {
    if list == [] then end
    else if list[0] in runs && runs[list[0]].pages >= count then list[0]
    else FirstFit(runs, list[1..], count, end)
  }

  /** What a walk over the free runs reads at entry `i`, and what it means for the search. */
  lemma FreeRunAt(headers: map<nat, Run>, runs: map<nat, Run>, low: nat, high: nat, head: nat, list: seq<nat>, i: nat,
                  count: nat)
    requires RunsValid(headers, runs, low, high, head, list) && i < |list|
    ensures list[i] in headers && list[i] in runs && list[i] > 0 && runs[list[i]].kind.Free?
    ensures headers[list[i]].pages == runs[list[i]].pages
    ensures headers[list[i]].detail == if i + 1 < |list| then list[i + 1] else 0
    ensures FirstFit(runs, list[i..], count, high) ==
      if runs[list[i]].pages >= count then list[i] else FirstFit(runs, list[i + 1..], count, high)
  {
    assert RunLinked(headers, list, i) && list[i] in list;
    assert list[i..][1..] == list[i + 1..];
  }

  /** A finished search found no free run that is large enough. */
  lemma NothingFits(headers: map<nat, Run>, runs: map<nat, Run>, low: nat, high: nat, head: nat, list: seq<nat>,
                    count: nat)
    requires RunsValid(headers, runs, low, high, head, list)
    requires forall j | 0 <= j < |list| :: list[j] in runs && runs[list[j]].pages < count
    ensures forall free | free in runs && runs[free].kind.Free? :: runs[free].pages < count
  {
    forall free | free in runs && runs[free].kind.Free? ensures runs[free].pages < count {
      assert free in list;
    }
  }

  lemma Walked(headers: map<nat, Run>, runs: map<nat, Run>, low: nat, high: nat, head: nat, list: seq<nat>)
    requires RunsValid(headers, runs, low, high, head, list)
    ensures head == if |list| > 0 then list[0] else 0
    ensures list[0..] == list
  {}

  /** `count` pages that belong to nobody: of the first listed run that has them, or at the end of the heap. */
  method TakePages(vm: Vm, count: nat) returns (page: Option<nat>)
    requires vm.Paged() && count > 0
    modifies vm`headers, vm`freeRuns, vm`heapEnd, vm`size, vm`growths, vm`runs, vm`freeList
    ensures page.None? ==>
              && vm.headers == old(vm.headers) && vm.runs == old(vm.runs) && vm.heapEnd == old(vm.heapEnd)
              && vm.freeRuns == old(vm.freeRuns) && vm.freeList == old(vm.freeList)
    ensures page.None? ==> NoPages(vm, count, old(vm.growths))
    ensures page.Some? ==> Taken(vm, page.value, count)
    ensures page.Some? ==> page.value == FirstFit(old(vm.runs), old(vm.freeList), count, old(vm.heapEnd))
    ensures MovesOn(vm) && vm.heapEnd < PAGE_LIMIT && PageAddress(vm.heapEnd) <= vm.size
  {
    hide RunsValid, FirstFit, NewlyUsed, PageAddress;
    var previous := 0;
    var runPage := vm.freeRuns;
    ghost var i: nat := 0;
    ghost var runs, list, end := vm.runs, vm.freeList, vm.heapEnd;
    Walked(vm.headers, runs, vm.heapStart, end, vm.freeRuns, list);
    while runPage != 0
      invariant vm.Paged() && runs == vm.runs && list == vm.freeList && end == vm.heapEnd && i <= |list|
      invariant vm.headers == old(vm.headers) && vm.freeRuns == old(vm.freeRuns) && vm.growths == old(vm.growths)
      invariant runPage == if i < |list| then list[i] else 0
      invariant previous == if i == 0 then 0 else list[i - 1]
      invariant i > 0 ==> previous > 0 && previous in vm.headers
      invariant forall j | 0 <= j < i :: list[j] in runs && runs[list[j]].pages < count
      invariant FirstFit(runs, list, count, end) == FirstFit(runs, list[i..], count, end)
      decreases |list| - i
    {
      FreeRunAt(vm.headers, runs, vm.heapStart, end, vm.freeRuns, list, i, count);
      var run := vm.headers[runPage];
      if run.pages >= count {
        TakeFrom(vm, count, previous, runPage, i);
        return Some(runPage);
      }
      previous := runPage;
      runPage := run.detail;
      i := i + 1;
    }
    if i < |list| {
      FreeRunAt(vm.headers, runs, vm.heapStart, end, vm.freeRuns, list, i, count);
      assert false;
    }
    NothingFits(vm.headers, runs, vm.heapStart, end, vm.freeRuns, list, count);
    NoneFits(runs, list[i..], count, end);
    page := CarvePages(vm, count);
  }

  lemma NoneFits(runs: map<nat, Run>, list: seq<nat>, count: nat, end: nat)
    requires list == []
    ensures FirstFit(runs, list, count, end) == end
  {}

  lemma RunCarved(headers: map<nat, Run>, runs: map<nat, Run>, low: nat, high: nat, head: nat, list: seq<nat>,
                  count: nat)
    requires RunsValid(headers, runs, low, high, head, list) && count > 0
    ensures RunsValid(headers[high := SystemRun(count)], runs[high := SystemRun(count)], low, high + count, head, list)
    ensures NewlyUsed(runs, runs[high := SystemRun(count)], high, count)
  {
    AppendTiles(runs, low, high, SystemRun(count));
    AppendStored(headers, runs, head, list, high, SystemRun(count));
    UsedAfterTake(runs, high, count);
  }

  /** `count` pages right behind the heap, which ends behind them afterwards, or no change. */
  method CarvePages(vm: Vm, count: nat) returns (page: Option<nat>)
    requires vm.Paged() && count > 0
    modifies vm`heapEnd, vm`size, vm`growths, vm`runs
    ensures page.None? ==> vm.runs == old(vm.runs) && vm.heapEnd == old(vm.heapEnd)
    ensures page.None? ==> CannotGrow(vm, count, old(vm.growths)) && vm.size == old(vm.size)
    ensures page.Some? ==> page.value == old(vm.heapEnd) && Taken(vm, page.value, count)
    ensures page.Some? ==>
              var missing := Missing(old(vm.heapEnd) + count, old(vm.size));
              && vm.heapEnd == old(vm.heapEnd) + count && vm.size == old(vm.size) + PageAddress(missing)
              && vm.growths == old(vm.growths) + if missing > 0 then 1 else 0
    ensures MovesOn(vm) && vm.heapEnd < PAGE_LIMIT && PageAddress(vm.heapEnd) <= vm.size
  {
    hide RunsValid, NewlyUsed;
    var start := vm.heapEnd;
    var end := start + count;
    if end >= PAGE_LIMIT {
      return None;
    }
    if PageAddress(end) > vm.size {
      var grown := Grow(vm, Missing(end, vm.size));
      if !grown {
        return None;
      }
    }
    RunCarved(vm.headers, vm.runs, vm.heapStart, start, vm.freeRuns, vm.freeList, count);
    vm.heapEnd := end;
    vm.runs := vm.runs[start := SystemRun(count)];
    return Some(start);
  }

  lemma AppendStored(headers: map<nat, Run>, runs: map<nat, Run>, head: nat, list: seq<nat>, page: nat, run: Run)
    requires Stored(headers, runs) && FreeRuns(headers, runs, head, list) && page !in runs && !run.kind.Free?
    ensures Stored(headers[page := run], runs[page := run])
    ensures FreeRuns(headers[page := run], runs[page := run], head, list)
  {
    var appended := headers[page := run];
    forall i {:trigger RunLinked(appended, list, i)} | 0 <= i < |list|
      ensures RunLinked(appended, list, i)
    {
      assert RunLinked(headers, list, i) && list[i] in list;
    }
  }

  /** Makes the run free and the first of the list. */
  method ReleaseRun(vm: Vm, page: nat, pages: nat)
    modifies vm`headers, vm`freeRuns, vm`freeList, vm`runs
    ensures vm.headers == old(vm.headers)[page := Run(Free, pages, old(vm.freeRuns))]
    ensures vm.freeRuns == page && vm.freeList == [page] + old(vm.freeList)
    ensures vm.runs == old(vm.runs)[page := Run(Free, pages, 0)]
  {
    vm.headers := vm.headers[page := Run(Free, pages, vm.freeRuns)];
    vm.freeRuns := page;
    vm.freeList := [page] + vm.freeList;
    vm.runs := vm.runs[page := Run(Free, pages, 0)];
  }

  /** Listing a page that starts no free run yet. */
  lemma ReleaseListed(headers: map<nat, Run>, runs: map<nat, Run>, head: nat, list: seq<nat>, page: nat, pages: nat)
    requires Stored(headers, runs) && FreeRuns(headers, runs, head, list)
    requires page > 0 && (page in runs ==> !runs[page].kind.Free?)
    ensures Stored(headers[page := Run(Free, pages, head)], runs[page := Run(Free, pages, 0)])
    ensures FreeRuns(headers[page := Run(Free, pages, head)], runs[page := Run(Free, pages, 0)], page, [page] + list)
  {
    var released := headers[page := Run(Free, pages, head)];
    var longer := [page] + list;
    assert forall i | 0 <= i < |list| :: list[i] in list;
    forall i {:trigger RunLinked(released, longer, i)} | 0 <= i < |longer|
      ensures RunLinked(released, longer, i)
    {
      if i > 0 { assert RunLinked(headers, list, i - 1); }
    }
  }

  /** Writes the header of a taken run. */
  method WriteRun(vm: Vm, page: nat, run: Run, live: nat)
    modifies vm`headers, vm`live
    ensures vm.headers == old(vm.headers)[page := run] && vm.live == old(vm.live)[page := live]
  {
    vm.headers := vm.headers[page := run];
    vm.live := vm.live[page := live];
  }

  lemma HoldersAfterTake(before: map<nat, Run>, after: map<nat, Run>, page: nat, count: nat)
    requires NewlyUsed(before, after, page, count)
    ensures Holders(after) == Holders(before)
    ensures KeepsSystem(before, after) && page in after && after[page] == SystemRun(count)
    ensures page in before ==> before[page].kind.Free?
  {
    assert forall other :: other in before && !before[other].kind.Free? <==> other in InUse(before);
    assert forall other :: other in after && !after[other].kind.Free? <==> other in InUse(after);
    assert page in InUse(after) && InUse(after)[page] == SystemRun(count);
    assert forall other | other in InUse(before) :: other != page && InUse(after)[other] == before[other];
    assert forall other | other in InUse(after) && other != page :: InUse(before)[other] == after[other];
  }

  ghost predicate KeepsSystem(before: map<nat, Run>, after: map<nat, Run>) {
    forall page | page in before && before[page].kind.System? :: page in after && after[page] == before[page]
  }

  /** A run of the system: no later collection touches it or looks into it. */
  method TakeSystemPages(vm: Vm, pages: nat) returns (page: Option<nat>)
    requires vm.Paged() && pages > 0
    modifies vm`headers, vm`freeRuns, vm`heapEnd, vm`size, vm`growths, vm`runs, vm`freeList, vm`live
    ensures vm.Paged() && MovesOn(vm)
    ensures Holders(vm.runs) == Holders(old(vm.runs)) && KeepsSystem(old(vm.runs), vm.runs)
    ensures page.None? ==> vm.runs == old(vm.runs) && vm.heapEnd == old(vm.heapEnd)
    ensures page.None? ==> NoPages(vm, pages, old(vm.growths))
    ensures page.Some? ==>
              && page.value > 0 && page.value in vm.runs && vm.runs[page.value] == SystemRun(pages)
              && (page.value in old(vm.runs) ==> old(vm.runs)[page.value].kind.Free?)
  {
    page := TakePages(vm, pages);
    if page.Some? {
      HoldersAfterTake(old(vm.runs), vm.runs, page.value, pages);
      WriteRun(vm, page.value, SystemRun(pages), 0);
      assert RunFits(vm.runs, vm.heapStart, vm.heapEnd, page.value);
    }
  }

  lemma HeaderOfSystem(vm: Vm, page: nat)
    requires vm.Paged() && page in vm.runs && vm.runs[page].kind.System?
    ensures page > 0 && page in vm.headers && vm.headers[page] == vm.runs[page]
  {
    assert RunFits(vm.runs, vm.heapStart, vm.heapEnd, page);
  }

  /** Giving a system run back. */
  lemma SystemReleased(headers: map<nat, Run>, runs: map<nat, Run>, low: nat, high: nat, head: nat, list: seq<nat>,
                       page: nat)
    requires RunsValid(headers, runs, low, high, head, list)
    requires page in runs && runs[page].kind.System?
    ensures
      var freed := Run(Free, runs[page].pages, 0);
      && RunsValid(headers[page := Run(Free, runs[page].pages, head)], runs[page := freed], low, high, page, [page]
        + list)
      && Holders(runs[page := freed]) == Holders(runs)
  {
    assert RunFits(runs, low, high, page);
    RetypeTiles(runs, low, high, page, Run(Free, runs[page].pages, 0));
    ReleaseListed(headers, runs, head, list, page, runs[page].pages);
  }

  /** Gives the system run of `pages` pages at `page` back to the free runs. */
  method ReleaseSystemPages(vm: Vm, page: nat, pages: nat)
    requires vm.Paged() && page in vm.runs && vm.runs[page] == SystemRun(pages)
    modifies vm`headers, vm`freeRuns, vm`freeList, vm`runs
    ensures vm.Paged() && Holders(vm.runs) == Holders(old(vm.runs))
    ensures vm.runs == old(vm.runs)[page := Run(Free, pages, 0)]
  {
    hide RunsValid, Holders;
    SystemReleased(vm.headers, vm.runs, vm.heapStart, vm.heapEnd, vm.freeRuns, vm.freeList, page);
    ReleaseRun(vm, page, pages);
  }

  /** A taken run becomes a run of another kind. */
  lemma RunWritten(headers: map<nat, Run>, runs: map<nat, Run>, low: nat, high: nat, head: nat, list: seq<nat>,
                   page: nat, run: Run)
    requires RunsValid(headers[page := SystemRun(run.pages)], runs, low, high, head, list)
    requires page in runs && runs[page] == SystemRun(run.pages) && !run.kind.Free?
    requires run.kind.Class? ==> run.pages == 1 && run.detail < CLASS_COUNT
    ensures RunsValid(headers[page := run], runs[page := run], low, high, head, list)
  {
    RetypeTiles(runs, low, high, page, run);
    var taken := headers[page := SystemRun(run.pages)];
    forall i {:trigger RunLinked(headers[page := run], list, i)} | 0 <= i < |list|
      ensures RunLinked(headers[page := run], list, i)
    {
      assert RunLinked(taken, list, i) && list[i] in list;
    }
  }

  lemma HoldersAfterWrite(before: map<nat, Run>, runs: map<nat, Run>, page: nat, run: Run)
    requires Holders(runs) == Holders(before) && KeepsSystem(before, runs) && page in runs
    requires page in before ==> before[page].kind.Free?
    requires run.kind.Class? || run.kind.Large?
    ensures Holders(runs[page := run]) == Holders(before)[page := run] && KeepsSystem(before, runs[page := run])
    ensures page !in Holders(before)
  {}

  /** Takes pages for a run of objects and writes its header. */
  method TakeRun(vm: Vm, run: Run) returns (page: Option<nat>)
    requires vm.Paged() && run.pages > 0 && (run.kind.Class? || run.kind.Large?)
    requires run.kind.Class? ==> run.pages == 1 && run.detail < CLASS_COUNT
    modifies vm`headers, vm`freeRuns, vm`heapEnd, vm`size, vm`growths, vm`runs, vm`freeList, vm`live
    ensures vm.Paged() && MovesOn(vm)
    ensures page.None? ==> vm.runs == old(vm.runs) && vm.heapEnd == old(vm.heapEnd)
    ensures page.None? ==> NoPages(vm, run.pages, old(vm.growths))
    ensures page.Some? ==>
              && 0 < page.value < vm.heapEnd && page.value !in Holders(old(vm.runs))
              && Holders(vm.runs) == Holders(old(vm.runs))[page.value := run] && KeepsSystem(old(vm.runs), vm.runs)
  {
    hide RunsValid, Holders, KeepsSystem, NewlyUsed;
    page := TakePages(vm, run.pages);
    if page.Some? {
      HoldersAfterTake(old(vm.runs), vm.runs, page.value, run.pages);
      RunWritten(vm.headers, vm.runs, vm.heapStart, vm.heapEnd, vm.freeRuns, vm.freeList, page.value, run);
      HoldersAfterWrite(old(vm.runs), vm.runs, page.value, run);
      vm.runs := vm.runs[page.value := run];
      WriteRun(vm, page.value, run, 0);
      RunPlace(vm, page.value);
    }
  }

  lemma RunPlace(vm: Vm, page: nat)
    requires vm.Paged() && page in vm.runs
    ensures 0 < page < vm.heapEnd
  {
    assert RunFits(vm.runs, vm.heapStart, vm.heapEnd, page);
  }
}
