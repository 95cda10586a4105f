/** A whole collection: marking what the roots reach, then sweeping the rest. */
module Collecting {
  import opened HeapLayout
  import opened HeapState
  import opened Pages
  import opened Marking
  import opened Sweeping

  /** Traces until nothing is pending, in as many rounds over the heap as mark-stack overflows need. */
  method MarkAll(marker: Marker, vm: Vm, ghost objects: map<nat, Cell>, ghost reach: set<nat>)
    requires vm == marker.vm && marker.Frame(objects, {}, reach) && Closed(objects, vm.Roots(), reach)
    modifies marker`heapEnd, marker`stackPage, marker`capacity, marker`len, marker`overflowed, marker`stack
    modifies vm`headers, vm`freeRuns, vm`heapEnd, vm`size, vm`growths, vm`runs, vm`freeList, vm`live, vm`words, vm`marks
    ensures marker.Frame(objects, {}, reach) && marker.len == 0 && !marker.overflowed
    ensures vm.Pages() == old(vm.Pages()) && MovesOn(vm)
    ensures OthersKept(old(vm.runs), old(marker.stackPage), vm.runs, marker.stackPage)
    ensures forall root | root in vm.Roots() && root in objects :: root in vm.marks
  {
    hide RunsValid, Consistent, Holders, Objects, AllMarked, PointsTo, Closed, RootAddresses, Vm.Stable, Marker.Frame;
    marker.MarkRoots(objects, reach);
    marker.Drain(objects, vm.Roots(), {}, reach);
    ghost var rooted := vm.marks;
    while marker.overflowed
      invariant marker.Frame(objects, {}, reach) && marker.len == 0
      invariant vm.Pages() == old(vm.Pages()) && rooted <= vm.marks && MovesOn(vm)
      invariant OthersKept(old(vm.runs), old(marker.stackPage), vm.runs, marker.stackPage)
      decreases objects.Keys - vm.marks, marker.overflowed
    {
      ghost var marks := vm.marks;
      marker.StartRound(objects, reach);
      marker.Rescan(objects, vm.Roots(), reach);
      marker.Drain(objects, vm.Roots(), {}, reach);
      if vm.marks != marks {
        FewerLeft(objects, marks, vm.marks);
      }
    }
  }

  lemma FewerLeft(objects: map<nat, Cell>, before: set<nat>, after: set<nat>)
    requires before <= after && after != before && after - before <= objects.Keys
    ensures objects.Keys - after < objects.Keys - before
  {
    assert after == before + (after - before);
    var added :| added in after - before;
    assert added in objects.Keys - before && added !in objects.Keys - after;
  }

  lemma RestrictedAlike(objects: map<nat, Cell>, marks: set<nat>, reach: set<nat>)
    requires marks * objects.Keys == reach
    ensures Restrict(objects, marks) == Restrict(objects, reach)
  {}

  /** The mark phase: opens the mark stack, marks what is reachable and records the stack's final storage. */
  method MarkReachable(vm: Vm, ghost objects: map<nat, Cell>)
    requires vm.Valid() && vm.Heap() == objects
    modifies vm`headers, vm`freeRuns, vm`heapEnd, vm`size, vm`growths, vm`runs, vm`freeList, vm`live, vm`words,
             vm`marks, vm`markStack, vm`markStackCapacity
    ensures vm.Stable() && vm.MarkStackValid() && vm.Heap() == objects && MovesOn(vm)
    ensures Closed(objects, vm.Roots(), vm.marks * objects.Keys)
    ensures vm.marks * objects.Keys == ReachableSet(objects, vm.Roots())
    ensures OthersKept(old(vm.runs), old(vm.markStack), vm.runs, vm.markStack)
  {
    hide RunsValid, Consistent, Holders, Objects, Closed, RootAddresses, ReachableSet, AllMarked, Gray, OthersKept;
    hide StackCapacity, Vm.Stable, Marker.Frame;
    ghost var reach := ReachableSet(objects, vm.Roots());
    ReachableSetClosed(objects, vm.Roots());
    var marker := new Marker.Open(vm);
    ghost var runs, from := vm.runs, marker.stackPage;
    marker.FrameFirst(objects, reach);
    MarkAll(marker, vm, objects, reach);
    marker.MarkedExactly(objects, vm.Roots());
    OthersThrough(old(vm.runs), old(vm.markStack), runs, from, vm.runs, marker.stackPage);
    marker.Close();
  }

  /** Collects every heap object unreachable from the roots. */
  method Collect(vm: Vm)
    requires vm.Valid()
    modifies vm`headers, vm`freeRuns, vm`heapEnd, vm`size, vm`growths, vm`runs, vm`freeList, vm`live, vm`words,
             vm`marks, vm`cells, vm`freeHeads, vm`cellLists, vm`classCursors, vm`threshold, vm`allocatedBytes,
             vm`collections, vm`markStack, vm`markStackCapacity
    ensures vm.Valid() && MovesOn(vm)
    ensures vm.Heap() == Restrict(old(vm.Heap()), ReachableSet(old(vm.Heap()), old(vm.Roots())))
    ensures NoAdjacentFree(vm.runs)
    ensures OthersKept(old(vm.runs), old(vm.markStack), vm.runs, vm.markStack)
    ensures vm.allocatedBytes == 0 && vm.collections == (old(vm.collections) + 1) % (U32_MAX + 1)
  {
    hide RunsValid, Consistent, Holders, Objects, Closed, RootAddresses, ReachableSet, Restrict, AllMarked, Gray;
    hide OthersKept, KeepsSystem, Vm.Stable, Marker.Frame, NoAdjacentFree;
    ghost var objects := vm.Heap();
    ghost var reach := ReachableSet(objects, vm.Roots());
    MarkReachable(vm, objects);
    RestrictedAlike(objects, vm.marks, reach);
    ghost var runs := vm.runs;
    Sweep(vm, objects);
    OthersFromTake(runs, vm.markStack, vm.runs, vm.markStack);
    OthersThrough(old(vm.runs), old(vm.markStack), runs, vm.markStack, vm.runs, vm.markStack);
  }
}
