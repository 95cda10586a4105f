/** The mark phase of a collection. */
module Marking {
  import opened HeapLayout
  import opened HeapState
  import opened Pages

  // ---- Where objects lie ----

  lemma UsedCellsBounded(pages: map<nat, Run>, cursors: seq<nat>, page: nat, sizeClass: nat)
    requires CursorsValid(pages, cursors) && sizeClass < CLASS_COUNT
    ensures UsedCells(cursors, page, sizeClass) <= CellsPerPage(sizeClass)
  {
    var cursor := cursors[sizeClass];
    if cursor != 0 && PageOf(cursor) == page && PageAddress(page) + PAGE_HEADER_SIZE <= cursor {
      assert CursorAt(pages, sizeClass, cursor);
      var index :| 0 < index < CellsPerPage(sizeClass) && cursor == CellAt(page, sizeClass, index);
      IndexOfOffset(sizeClass, index);
    }
  }

  /** An object's address is 8-byte aligned and lies past the header of a page that holds objects. */
  lemma CellPlace(pages: map<nat, Run>, cursors: seq<nat>, address: nat)
    requires CursorsValid(pages, cursors) && IsCell(pages, cursors, address)
    ensures address % 8 == 0
    ensures PageOf(address) in pages
    ensures PageAddress(PageOf(address)) + PAGE_HEADER_SIZE <= address < PageAddress(PageOf(address) + 1)
  {
    var page := PageOf(address);
    if !IsLarge(pages, address) {
      var sizeClass := pages[page].detail;
      var index := IndexOfCell(page, sizeClass, UsedCells(cursors, page, sizeClass), address);
      UsedCellsBounded(pages, cursors, page, sizeClass);
      CellInPage(page, sizeClass, index);
    }
  }

  lemma ObjectInHeap(vm: Vm, address: nat)
    requires vm.Stable() && address in vm.Heap()
    ensures PageAddress(vm.heapStart) <= address < PageAddress(vm.heapEnd) && address % 8 == 0
    ensures vm.heapStart <= PageOf(address) < vm.heapEnd
  {
    CellPlace(vm.Pages(), vm.classCursors, address);
    assert RunFits(vm.runs, vm.heapStart, vm.heapEnd, PageOf(address));
  }

  // ---- The marking invariant ----

  ghost predicate AllMarked(objects: map<nat, Cell>, marks: set<nat>, address: nat) {
    forall to | to in objects && PointsTo(objects, address, to) :: to in marks
  }

  /** Unless the stack overflowed, a marked object awaits its trace or refers to marked objects only. */
  ghost predicate Gray(objects: map<nat, Cell>, marks: set<nat>, pending: set<nat>, stack: seq<nat>, overflowed: bool) {
    overflowed ||
    forall address | address in objects && address in marks ::
      address in pending || address in stack || AllMarked(objects, marks, address)
  }

  /** Every marked object is in `reach`, which a collection keeps. */
  ghost predicate Sound(objects: map<nat, Cell>, marks: set<nat>, reach: set<nat>) {
    forall address | address in objects && address in marks :: address in reach
  }

  /** The stack's entries are stored one after the other in the run at `page`. */
  ghost predicate StackStored(words: map<(nat, nat), nat>, page: nat, stack: seq<nat>) {
    forall i | 0 <= i < |stack| :: (page, i) in words && words[(page, i)] == stack[i]
  }

  ghost predicate StackNames(objects: map<nat, Cell>, marks: set<nat>, stack: seq<nat>) {
    forall address | address in stack :: address in objects && address in marks
  }

  /** The stack storage is a system run, or there is none. */
  ghost predicate StorageValid(runs: map<nat, Run>, page: nat, capacity: nat) {
    if page == 0 then capacity == 0 else
      page in runs && runs[page] == SystemRun(runs[page].pages) && capacity == StackCapacity(runs[page].pages)
  }

  /** System runs other than the mark stack's stay, and the mark stack never moves onto one. */
  ghost predicate OthersKept(before: map<nat, Run>, from: nat, after: map<nat, Run>, to: nat) {
    forall page | page in before && before[page].kind.System? && page != from ::
      page in after && after[page] == before[page] && page != to
  }

  lemma OthersThrough(first: map<nat, Run>, from: nat, second: map<nat, Run>, via: nat, third: map<nat, Run>, to: nat)
    requires OthersKept(first, from, second, via) && OthersKept(second, via, third, to)
    ensures OthersKept(first, from, third, to)
  {}

  lemma OthersFromTake(before: map<nat, Run>, from: nat, after: map<nat, Run>, to: nat)
    requires KeepsSystem(before, after) && (to == from || to !in before || before[to].kind.Free?)
    ensures OthersKept(before, from, after, to)
  {}

  lemma OthersSame(runs: map<nat, Run>, page: nat)
    ensures OthersKept(runs, page, runs, page)
  {}

  lemma OthersMoved(before: map<nat, Run>, from: nat, taken: map<nat, Run>, pages: nat, to: nat)
    requires KeepsSystem(before, taken) && (to !in before || before[to].kind.Free?)
    ensures OthersKept(before, from, if from == 0 then taken else taken[from := Run(Free, pages, 0)], to)
  {}

  lemma DoubledCapacity(pages: nat)
    ensures StackCapacity(pages) < StackCapacity((if pages == 0 then 1 else pages) * 2)
  {}

  lemma GrayPush(objects: map<nat, Cell>, marks: set<nat>, pending: set<nat>, stack: seq<nat>, overflowed: bool,
                 address: nat)
    requires Gray(objects, marks, pending, stack, overflowed)
    ensures Gray(objects, marks + {address}, pending, stack + [address], overflowed)
  {
    forall marked | !overflowed && marked in objects && marked in marks + {address}
      ensures marked in pending || marked in stack + [address] || AllMarked(objects, marks + {address}, marked)
    {
      if marked != address { assert marked in pending || marked in stack || AllMarked(objects, marks, marked); }
    }
  }

  /** Moving an object from the stack to the pending set, before its trace. */
  lemma GrayPop(objects: map<nat, Cell>, marks: set<nat>, pending: set<nat>, stack: seq<nat>, overflowed: bool)
    requires stack != [] && Gray(objects, marks, pending, stack, overflowed)
    ensures Gray(objects, marks, pending + {stack[|stack| - 1]}, stack[..|stack| - 1], overflowed)
  {
    var last := |stack| - 1;
    assert forall address | address in stack :: address in stack[..last] || address == stack[last];
  }

  lemma GrayOverflowed(objects: map<nat, Cell>, marks: set<nat>, pending: set<nat>, stack: seq<nat>)
    ensures Gray(objects, marks, pending, stack, true)
  {}

  lemma GrayTraced(objects: map<nat, Cell>, marks: set<nat>, pending: set<nat>, stack: seq<nat>, overflowed: bool,
                   address: nat)
    requires Gray(objects, marks, pending + {address}, stack, overflowed) && AllMarked(objects, marks, address)
    ensures Gray(objects, marks, pending, stack, overflowed)
  {}

  lemma GrayMore(objects: map<nat, Cell>, marks: set<nat>, pending: set<nat>, more: set<nat>, stack: seq<nat>,
                 overflowed: bool)
    requires Gray(objects, marks, pending, stack, overflowed) && pending <= more
    ensures Gray(objects, marks, more, stack, overflowed)
  {}

  ghost predicate SlotMarked(objects: map<nat, Cell>, marks: set<nat>, slot: Slot) {
    slot.Reference? && slot.address in objects ==> slot.address in marks
  }

  ghost predicate SlotsMarked(objects: map<nat, Cell>, marks: set<nat>, slots: seq<Slot>) {
    forall i | 0 <= i < |slots| :: SlotMarked(objects, marks, slots[i])
  }

  lemma SlotsStayMarked(objects: map<nat, Cell>, before: set<nat>, after: set<nat>, slots: seq<Slot>)
    requires SlotsMarked(objects, before, slots) && before <= after
    ensures SlotsMarked(objects, after, slots)
  {}

  lemma NoneMarked(objects: map<nat, Cell>, marks: set<nat>, slots: seq<Slot>)
    ensures SlotsMarked(objects, marks, slots[..0])
  {}

  lemma OneMoreMarked(objects: map<nat, Cell>, before: set<nat>, after: set<nat>, slots: seq<Slot>, i: nat)
    requires i < |slots| && SlotsMarked(objects, before, slots[..i]) && before <= after
    requires SlotMarked(objects, after, slots[i])
    ensures SlotsMarked(objects, after, slots[..i + 1])
  {
    assert slots[..i + 1] == slots[..i] + [slots[i]];
    SlotsStayMarked(objects, before, after, slots[..i]);
  }

  lemma AllSlotsMarked(objects: map<nat, Cell>, marks: set<nat>, source: nat)
    requires source in objects && objects[source].Object? && SlotsMarked(objects, marks, objects[source].slots)
    ensures AllMarked(objects, marks, source)
  {}

  /** The slots a marking step may follow: each refers to static data, or to an object that must be kept. */
  ghost predicate Followable(objects: map<nat, Cell>, low: nat, reach: set<nat>, slots: seq<Slot>) {
    forall i | 0 <= i < |slots| && slots[i].Reference? ::
      slots[i].address < low || (slots[i].address in objects && slots[i].address in reach)
  }

  lemma ObjectFollowable(vm: Vm, roots: set<nat>, reach: set<nat>, source: nat)
    requires vm.Stable() && source in vm.Heap() && source in reach && Closed(vm.Heap(), roots, reach)
    ensures source in vm.cells && vm.cells[source] == vm.Heap()[source] && vm.cells[source].Object?
    ensures Followable(vm.Heap(), PageAddress(vm.heapStart), reach, vm.cells[source].slots)
  {
    var slots := vm.cells[source].slots;
    assert Refers(vm.Heap(), PageAddress(vm.heapStart), slots);
    forall i | 0 <= i < |slots| && slots[i].Reference?
      ensures slots[i].address in vm.Heap() ==> slots[i].address in reach
    {
      assert slots[i] in slots && Reference(slots[i].address) == slots[i];
      assert PointsTo(vm.Heap(), source, slots[i].address);
    }
  }

  lemma RootsFollowable(vm: Vm, reach: set<nat>)
    requires vm.Stable() && Closed(vm.Heap(), vm.Roots(), reach)
    ensures vm.rootShape < PageAddress(vm.heapStart) || (vm.rootShape in vm.Heap() && vm.rootShape in reach)
    ensures 0 !in vm.Heap()
    ensures forall r | 0 <= r < |vm.rootRanges| ::
              Followable(vm.Heap(), PageAddress(vm.heapStart), reach, vm.rootRanges[r])
  {
    if 0 in vm.Heap() { ObjectInHeap(vm, 0); }
    forall r | 0 <= r < |vm.rootRanges|
      ensures Followable(vm.Heap(), PageAddress(vm.heapStart), reach, vm.rootRanges[r])
    {
      assert Refers(vm.Heap(), PageAddress(vm.heapStart), vm.rootRanges[r]);
      assert forall i | 0 <= i < |vm.rootRanges[r]| && vm.rootRanges[r][i].Reference? ::
          vm.rootRanges[r][i].address in vm.Roots();
    }
  }

  lemma RootsMarked(objects: map<nat, Cell>, marks: set<nat>, ranges: seq<seq<Slot>>, rootShape: nat)
    requires rootShape in objects ==> rootShape in marks
    requires forall r | 0 <= r < |ranges| :: SlotsMarked(objects, marks, ranges[r])
    ensures forall root | root in RootAddresses(ranges, rootShape) && root in objects :: root in marks
  {
    forall root | root in RootAddresses(ranges, rootShape) && root in objects
      ensures root in marks
    {
      if root != rootShape {
        var r, i :| 0 <= r < |ranges| && 0 <= i < |ranges[r]| && ranges[r][i].Reference?
          && ranges[r][i].address == root;
        assert SlotMarked(objects, marks, ranges[r][i]);
      }
    }
  }

  // ---- Walking the runs ----

  /** What a walk over the runs reads at `page`, and where it goes on. */
  lemma RunAt(vm: Vm, page: nat)
    requires vm.Stable() && page in vm.runs
    ensures page < vm.heapEnd && page in vm.headers
    ensures vm.headers[page].kind == vm.runs[page].kind && vm.headers[page].pages == vm.runs[page].pages > 0
    ensures !vm.runs[page].kind.Free? ==> vm.headers[page] == vm.runs[page]
    ensures vm.runs[page].kind.Class? ==> vm.runs[page].pages == 1 && vm.runs[page].detail < CLASS_COUNT
    ensures var next := page + vm.runs[page].pages;
            next == vm.heapEnd || (next < vm.heapEnd && next in vm.runs)
    ensures forall address | address in vm.Heap() ::
              PageOf(address) <= page || page + vm.runs[page].pages <= PageOf(address)
    ensures vm.runs[page].kind.Class? || vm.runs[page].kind.Large? <==> page in vm.Pages()
    ensures page in vm.Pages() ==> vm.Pages()[page] == vm.runs[page]
  {
    assert RunFits(vm.runs, vm.heapStart, vm.heapEnd, page) && Followed(vm.runs, vm.heapEnd, page);
    var next := page + vm.runs[page].pages;
    assert next in vm.runs ==> RunFits(vm.runs, vm.heapStart, vm.heapEnd, next);
    forall address | address in vm.Heap()
      ensures PageOf(address) <= page || next <= PageOf(address)
    {
      CellPlace(vm.Pages(), vm.classCursors, address);
    }
  }

  lemma HolderIsRun(vm: Vm, page: nat)
    requires page in vm.Pages()
    ensures page in vm.runs && vm.runs[page] == vm.Pages()[page]
  {}

  lemma HeapBounds(vm: Vm)
    requires vm.Stable()
    ensures vm.heapStart <= vm.heapEnd && (vm.heapStart == vm.heapEnd || vm.heapStart in vm.runs)
    ensures forall address | address in vm.Heap() ::
              vm.heapStart <= PageOf(address) < vm.heapEnd && PageOf(address) in vm.Pages()
  {
    forall address | address in vm.Heap()
      ensures vm.heapStart <= PageOf(address) < vm.heapEnd && PageOf(address) in vm.Pages()
    {
      ObjectInHeap(vm, address);
      CellPlace(vm.Pages(), vm.classCursors, address);
    }
  }

  /** Objects on pages from `page` on. */
  ghost function FromPage(marked: set<nat>, page: nat): set<nat> {
    set address | address in marked && page <= PageOf(address)
  }

  /** Objects on pages after the class page `page`, and on it from cell `index` on. */
  ghost function FromCell(marked: set<nat>, page: nat, sizeClass: nat, index: nat): set<nat>
    requires sizeClass < CLASS_COUNT
  {
    set address | address in marked && page <= PageOf(address) && address !in CellsOf(page, sizeClass, index)
  }

  lemma AllCellsScanned(vm: Vm, marked: set<nat>, page: nat)
    requires vm.Stable() && page in vm.Pages() && vm.Pages()[page].kind.Class?
    requires marked <= vm.Heap().Keys && vm.Pages()[page].detail < CLASS_COUNT
    ensures FromCell(marked, page, vm.Pages()[page].detail,
                     UsedCells(vm.classCursors, page, vm.Pages()[page].detail)) <= FromPage(marked, page + 1)
  {}

  lemma LargeScanned(vm: Vm, marked: set<nat>, page: nat)
    requires vm.Stable() && page in vm.Pages() && vm.Pages()[page].kind.Large?
    requires marked <= vm.Heap().Keys
    ensures FromPage(marked, page) <= FromPage(marked, page + 1) + {PageAddress(page) + PAGE_HEADER_SIZE}
    ensures PageAddress(page) + PAGE_HEADER_SIZE in vm.Heap()
  {
    assert PageOf(PageAddress(page) + PAGE_HEADER_SIZE) == page;
    assert IsLarge(vm.Pages(), PageAddress(page) + PAGE_HEADER_SIZE);
  }

  lemma CellInHeap(vm: Vm, page: nat, index: nat)
    requires vm.Stable() && page in vm.Pages() && vm.Pages()[page].kind.Class? && vm.Pages()[page].detail < CLASS_COUNT
    requires index < UsedCells(vm.classCursors, page, vm.Pages()[page].detail)
    ensures
      var sizeClass := vm.Pages()[page].detail;
      var cell := PageAddress(page) + PAGE_HEADER_SIZE + index * ClassSize(sizeClass);
      && cell == CellAt(page, sizeClass, index) && cell in vm.cells && PageOf(cell) == page
      && (vm.cells[cell].Object? <==> cell in vm.Heap())
  {
    var sizeClass := vm.Pages()[page].detail;
    CellOffsetClosed(sizeClass, index);
    UsedCellsBounded(vm.Pages(), vm.classCursors, page, sizeClass);
    CellInPage(page, sizeClass, index);
    CellInCells(page, sizeClass, UsedCells(vm.classCursors, page, sizeClass), index);
    assert IsCell(vm.Pages(), vm.classCursors, CellAt(page, sizeClass, index));
  }

  /** Creates the VM's mark-stack storage if there is none and memory allows. */
  method EnsureStack(vm: Vm)
    requires vm.Stable() && vm.MarkStackValid()
    modifies vm`headers, vm`freeRuns, vm`heapEnd, vm`size, vm`growths, vm`runs, vm`freeList, vm`live, vm`markStack,
             vm`markStackCapacity
    ensures vm.Stable() && vm.MarkStackValid() && vm.Pages() == old(vm.Pages()) && MovesOn(vm)
    ensures OthersKept(old(vm.runs), old(vm.markStack), vm.runs, vm.markStack)
    ensures vm.markStack == 0 ==> NoPages(vm, 1, old(vm.growths))
  {
    hide RunsValid, Consistent, Holders, KeepsSystem, Objects, OthersKept;
    OthersSame(vm.runs, vm.markStack);
    if vm.markStack == 0 {
      var page := TakeSystemPages(vm, 1);
      if page.Some? {
        OthersFromTake(old(vm.runs), 0, vm.runs, page.value);
        vm.markStack := page.value;
        vm.markStackCapacity := StackCapacity(1);
      }
    }
  }

  class Marker {
    const vm: Vm
    const heapStart: nat
    var heapEnd: nat
    var stackPage: nat
    var capacity: nat
    var len: nat
    var overflowed: bool
    ghost var stack: seq<nat>

    ghost predicate Ready()
      reads this, vm
    {
      && vm.Stable()
      && heapStart == vm.heapStart && heapEnd == vm.heapEnd
      && len == |stack| <= capacity
      && StorageValid(vm.runs, stackPage, capacity) && (stackPage == 0 ==> vm.markStack == 0)
      && StackStored(vm.words, stackPage, stack)
      && StackNames(vm.Heap(), vm.marks, stack)
    }

    /** A marker with an empty stack that owns its storage, if there is any, and leaves every object page alone. */
    constructor Open(vm: Vm)
      requires vm.Stable() && vm.MarkStackValid()
      modifies vm`headers, vm`freeRuns, vm`heapEnd, vm`size, vm`growths, vm`runs, vm`freeList, vm`live, vm`markStack,
               vm`markStackCapacity
      ensures this.vm == vm && Ready() && stack == [] && !overflowed
      ensures vm.Pages() == old(vm.Pages()) && vm.Stable() && MovesOn(vm)
      ensures OthersKept(old(vm.runs), old(vm.markStack), vm.runs, stackPage)
      ensures stackPage == 0 ==> NoPages(vm, 1, old(vm.growths))
    {
      hide RunsValid, Consistent, Holders, KeepsSystem, Objects, OthersKept;
      this.vm := vm;
      heapStart := vm.heapStart;
      heapEnd := vm.heapEnd;
      stackPage, capacity, len, overflowed := 0, 0, 0, false;
      stack := [];
      new;
      EnsureStack(vm);
      heapEnd := vm.heapEnd;
      if vm.markStack != 0 {
        stackPage := vm.markStack;
        capacity := vm.markStackCapacity;
      }
    }

    /** Hands the stack storage back to the VM, for the next collection. */
    method Close()
      modifies vm`markStack, vm`markStackCapacity
      ensures vm.markStack == (if stackPage != 0 then stackPage else old(vm.markStack))
      ensures vm.markStackCapacity == (if stackPage != 0 then capacity else old(vm.markStackCapacity))
    {
      if stackPage != 0 {
        vm.markStack := stackPage;
        vm.markStackCapacity := capacity;
      }
    }

    ghost predicate Frame(objects: map<nat, Cell>, pending: set<nat>, reach: set<nat>)
      reads this, vm
      ensures Frame(objects, pending, reach) ==> vm.Stable() && vm.Heap() == objects
      ensures Frame(objects, pending, reach) ==> heapStart == vm.heapStart && heapEnd == vm.heapEnd
      ensures Frame(objects, pending, reach) ==>
          len == |stack| && (forall address | address in stack :: address in objects)
    {
      && Ready() && vm.Heap() == objects
      && Gray(objects, vm.marks, pending, stack, overflowed)
      && Sound(objects, vm.marks, reach)
    }

    /** What marking keeps: marks are only added, to objects, and no page moves unless one was added. */
    twostate predicate Grew()
      reads this, vm
    {
      && old(vm.marks) <= vm.marks && vm.Pages() == old(vm.Pages()) && MovesOn(vm)
      && OthersKept(old(vm.runs), old(stackPage), vm.runs, stackPage)
      && |vm.classCursors| == CLASS_COUNT && vm.marks - old(vm.marks) <= vm.Heap().Keys
      && (vm.marks == old(vm.marks) ==> heapEnd == old(heapEnd) && overflowed == old(overflowed))
    }

    /** As Grew, for steps that do not take entries off the stack. */
    twostate predicate Progress()
      reads this, vm
    {
      Grew() && (vm.marks == old(vm.marks) ==> len == old(len))
    }

    /** The pages of a stack twice as large as the one at `page`. */
    ghost function DoubledPages(runs: map<nat, Run>, page: nat): nat {
      var pages := if page != 0 && page in runs then runs[page].pages else 0;
      (if pages == 0 then 1 else pages) * 2
    }

    /** Gives the stack twice the room with the same entries, or reports that it stays as it is. */
    method GrowStack() returns (grown: bool)
      requires Ready()
      modifies this`heapEnd, this`stackPage, this`capacity
      modifies vm`headers, vm`freeRuns, vm`heapEnd, vm`size, vm`growths, vm`runs, vm`freeList, vm`live, vm`words
      ensures Ready() && vm.Pages() == old(vm.Pages()) && MovesOn(vm)
      ensures OthersKept(old(vm.runs), old(stackPage), vm.runs, stackPage)
      ensures grown ==> len < capacity
      ensures !grown ==> NoPages(vm, old(DoubledPages(vm.runs, stackPage)), old(vm.growths))
    {
      hide RunsValid, Consistent, Holders, Objects, StackStored, StackNames, KeepsSystem, OthersKept, StackCapacity;
      OthersSame(vm.runs, stackPage);
      var oldPages := StoragePages();
      DoubledCapacity(oldPages);
      var pages := (if oldPages == 0 then 1 else oldPages) * 2;
      var taken := TakeSystemPages(vm, pages);
      if taken.None? {
        return false;
      }
      heapEnd := vm.heapEnd;
      grown := true;
      ghost var from, runs := stackPage, vm.runs;
      MoveStack(taken.value, pages, oldPages);
      OthersMoved(old(vm.runs), from, runs, oldPages, stackPage);
    }

    /** The pages of the stack's storage, 0 when there is none. */
    method StoragePages() returns (pages: nat)
      requires Ready()
      ensures capacity == StackCapacity(pages)
      ensures if stackPage == 0 then pages == 0 else pages == vm.runs[stackPage].pages
    {
      if stackPage == 0 {
        return 0;
      }
      HeaderOfSystem(vm, stackPage);
      return vm.headers[stackPage].pages;
    }

    /** Moves the entries to the larger run at `page` and gives the old one of `oldPages` pages, if any, back. */
    method MoveStack(page: nat, pages: nat, oldPages: nat)
      requires Ready()
      requires page != stackPage && page > 0 && page in vm.runs && vm.runs[page] == SystemRun(pages)
      requires capacity < StackCapacity(pages)
      requires if stackPage == 0 then oldPages == 0 else oldPages == vm.runs[stackPage].pages
      modifies this`stackPage, this`capacity, vm`headers, vm`freeRuns, vm`runs, vm`freeList, vm`words
      ensures Ready() && vm.Pages() == old(vm.Pages()) && len < capacity && stackPage == page
      ensures vm.runs == if old(stackPage) == 0 then old(vm.runs)
          else old(vm.runs)[old(stackPage) := Run(Free, oldPages, 0)]
    {
      hide RunsValid, Consistent, Holders, Objects, StackCapacity;
      CopyWords(vm, page, stackPage, len);
      if stackPage != 0 {
        ReleaseSystemPages(vm, stackPage, oldPages);
      }
      stackPage := page;
      capacity := StackCapacity(pages);
    }

    /** Afterwards the object is marked, and pending on the stack or covered by the overflow. */
    method MarkAddress(address: nat, ghost objects: map<nat, Cell>, ghost pending: set<nat>, ghost reach: set<nat>)
      requires Frame(objects, pending, reach)
      requires address < PageAddress(heapStart) || (address in objects && address in reach)
      modifies this`heapEnd, this`stackPage, this`capacity, this`len, this`overflowed, this`stack
      modifies vm`headers, vm`freeRuns, vm`heapEnd, vm`size, vm`growths, vm`runs, vm`freeList, vm`live, vm`words,
               vm`marks
      ensures Frame(objects, pending, reach) && Progress()
      ensures address in objects ==> address in vm.marks
    {
      if address in objects {
        ObjectInHeap(vm, address);
      }
      hide RunsValid, Consistent, Holders, Gray, StorageValid, StackStored, StackNames, Sound;
      if address < PageAddress(heapStart) || address >= PageAddress(heapEnd) || address % 8 != 0 {
        return;
      }
      if address in vm.marks || vm.cells[address].FreeCell? {
        return;
      }
      MarkAndPush(address, objects, pending, reach);
    }

    method MarkAndPush(address: nat, ghost objects: map<nat, Cell>, ghost pending: set<nat>, ghost reach: set<nat>)
      requires Frame(objects, pending, reach)
      requires address in objects && address in reach && address !in vm.marks
      modifies this`heapEnd, this`stackPage, this`capacity, this`len, this`overflowed, this`stack
      modifies vm`headers, vm`freeRuns, vm`heapEnd, vm`size, vm`growths, vm`runs, vm`freeList, vm`live, vm`words,
               vm`marks
      ensures Frame(objects, pending, reach) && Progress()
      ensures vm.marks == old(vm.marks) + {address}
    {
      hide RunsValid, Consistent, Holders, Gray, StorageValid, Objects, NoPages;
      ghost var marked := vm.marks;
      vm.marks := vm.marks + {address};
      if len == capacity {
        var grown := GrowStack();
        if !grown {
          GrayOverflowed(objects, vm.marks, pending, stack);
          overflowed := true;
          return;
        }
      }
      Push(address);
      GrayPush(objects, marked, pending, old(stack), overflowed, address);
    }

    /** Marks the object behind one slot, ignoring immediates. */
    method MarkValue(slot: Slot, ghost objects: map<nat, Cell>, ghost pending: set<nat>, ghost reach: set<nat>)
      requires Frame(objects, pending, reach)
      requires slot.Reference? ==>
                 slot.address < PageAddress(heapStart) || (slot.address in objects && slot.address in reach)
      modifies this`heapEnd, this`stackPage, this`capacity, this`len, this`overflowed, this`stack
      modifies vm`headers, vm`freeRuns, vm`heapEnd, vm`size, vm`growths, vm`runs, vm`freeList, vm`live, vm`words,
               vm`marks
      ensures Frame(objects, pending, reach) && Progress()
      ensures SlotMarked(objects, vm.marks, slot)
    {
      hide RunsValid, Consistent, Holders, Gray, Sound, Objects, StorageValid, StackStored, StackNames;
      if slot.Reference? {
        MarkAddress(slot.address, objects, pending, reach);
      }
    }

    /** Marks the objects behind a run of slots. */
    method MarkSlots(slots: seq<Slot>, ghost objects: map<nat, Cell>, ghost pending: set<nat>, ghost reach: set<nat>)
      requires Frame(objects, pending, reach) && Followable(objects, PageAddress(heapStart), reach, slots)
      modifies this`heapEnd, this`stackPage, this`capacity, this`len, this`overflowed, this`stack
      modifies vm`headers, vm`freeRuns, vm`heapEnd, vm`size, vm`growths, vm`runs, vm`freeList, vm`live, vm`words,
               vm`marks
      ensures Frame(objects, pending, reach) && Progress()
      ensures SlotsMarked(objects, vm.marks, slots)
    {
      hide RunsValid, Consistent, Holders, Objects, SlotMarked, SlotsMarked, Vm.Stable, Frame;
      var index := 0;
      NoneMarked(objects, vm.marks, slots);
      while index < |slots|
        invariant 0 <= index <= |slots|
        invariant Frame(objects, pending, reach) && Progress()
        invariant SlotsMarked(objects, vm.marks, slots[..index])
      {
        ghost var before := vm.marks;
        MarkValue(slots[index], objects, pending, reach);
        OneMoreMarked(objects, before, vm.marks, slots, index);
        index := index + 1;
      }
      assert slots[..index] == slots;
    }

    /** Afterwards the object is no longer pending: all it refers to is marked. */
    method Trace(source: nat, ghost objects: map<nat, Cell>, ghost roots: set<nat>, ghost pending: set<nat>,
                 ghost reach: set<nat>)
      requires Frame(objects, pending + {source}, reach) && Closed(objects, roots, reach)
      requires source in objects && source in reach
      modifies this`heapEnd, this`stackPage, this`capacity, this`len, this`overflowed, this`stack
      modifies vm`headers, vm`freeRuns, vm`heapEnd, vm`size, vm`growths, vm`runs, vm`freeList, vm`live, vm`words,
               vm`marks
      ensures Frame(objects, pending, reach) && Progress()
    {
      hide RunsValid, Consistent, Holders, Objects, SlotMarked, SlotsMarked, AllMarked, PointsTo, Followable, Closed;
      hide Vm.Stable, Frame;
      ObjectFollowable(vm, roots, reach, source);
      MarkSlots(vm.cells[source].slots, objects, pending + {source}, reach);
      AllSlotsMarked(objects, vm.marks, source);
      FrameTraced(objects, pending, reach, source);
    }

    lemma FrameTraced(objects: map<nat, Cell>, pending: set<nat>, reach: set<nat>, source: nat)
      requires Frame(objects, pending + {source}, reach) && AllMarked(objects, vm.marks, source)
      ensures Frame(objects, pending, reach)
    {
      hide Consistent, Holders, Objects, RunsValid;
      GrayTraced(objects, vm.marks, pending, stack, overflowed, source);
    }

    /** Afterwards every root is marked and nothing is that the roots do not reach. */
    method MarkRoots(ghost objects: map<nat, Cell>, ghost reach: set<nat>)
      requires Frame(objects, {}, reach) && Closed(objects, vm.Roots(), reach)
      modifies this`heapEnd, this`stackPage, this`capacity, this`len, this`overflowed, this`stack
      modifies vm`headers, vm`freeRuns, vm`heapEnd, vm`size, vm`growths, vm`runs, vm`freeList, vm`live, vm`words,
               vm`marks
      ensures Frame(objects, {}, reach) && Progress()
      ensures forall root | root in vm.Roots() && root in objects :: root in vm.marks
    {
      hide RunsValid, Consistent, Holders, Objects, SlotMarked, SlotsMarked, AllMarked, PointsTo, Followable, Closed;
      hide RootAddresses, Vm.Stable, Frame;
      RootsFollowable(vm, reach);
      if vm.rootShape != 0 {
        MarkAddress(vm.rootShape, objects, {}, reach);
      }
      var r := 0;
      while r < |vm.rootRanges|
        invariant 0 <= r <= |vm.rootRanges|
        invariant Frame(objects, {}, reach) && Progress()
        invariant vm.rootShape in objects ==> vm.rootShape in vm.marks
        invariant forall q | 0 <= q < r :: SlotsMarked(objects, vm.marks, vm.rootRanges[q])
      {
        ghost var before := vm.marks;
        MarkSlots(vm.rootRanges[r], objects, {}, reach);
        forall q | 0 <= q < r
          ensures SlotsMarked(objects, vm.marks, vm.rootRanges[q])
        {
          SlotsStayMarked(objects, before, vm.marks, vm.rootRanges[q]);
        }
        r := r + 1;
      }
      RootsMarked(objects, vm.marks, vm.rootRanges, vm.rootShape);
    }

    /** Afterwards nothing is pending but what an overflow left behind. */
    method Drain(ghost objects: map<nat, Cell>, ghost roots: set<nat>, ghost pending: set<nat>, ghost reach: set<nat>)
      requires Frame(objects, pending, reach) && Closed(objects, roots, reach)
      modifies this`heapEnd, this`stackPage, this`capacity, this`len, this`overflowed, this`stack
      modifies vm`headers, vm`freeRuns, vm`heapEnd, vm`size, vm`growths, vm`runs, vm`freeList, vm`live, vm`words,
               vm`marks
      ensures Frame(objects, pending, reach) && Grew() && len == 0
    {
      hide RunsValid, Consistent, Holders, Objects, AllMarked, PointsTo, Closed, Vm.Stable, Frame;
      while len > 0
        invariant Frame(objects, pending, reach) && Grew()
        decreases objects.Keys - vm.marks, len
      {
        var source := Pop(objects, pending, reach);
        ghost var marks := vm.marks;
        Trace(source, objects, roots, pending, reach);
        assert vm.marks != marks ==> objects.Keys - vm.marks < objects.Keys - marks;
      }
    }

    /** Traces the marked objects of one class page again. */
    method RescanClassPage(page: nat, sizeClass: nat, ghost marked: set<nat>,
                           ghost objects: map<nat, Cell>, ghost roots: set<nat>, ghost reach: set<nat>)
      requires sizeClass < CLASS_COUNT && page in vm.Pages() && vm.Pages()[page] == Run(Class, 1, sizeClass)
      requires marked <= objects.Keys
      requires Frame(objects, FromPage(marked, page), reach) && Closed(objects, roots, reach)
      modifies this`heapEnd, this`stackPage, this`capacity, this`len, this`overflowed, this`stack
      modifies vm`headers, vm`freeRuns, vm`heapEnd, vm`size, vm`growths, vm`runs, vm`freeList, vm`live, vm`words,
               vm`marks
      ensures Frame(objects, FromPage(marked, page + 1), reach) && Grew()
    {
      hide RunsValid, Consistent, Holders, Objects, AllMarked, PointsTo, Closed, Vm.Stable, Frame;
      var count := UsedCells(vm.classCursors, page, sizeClass);
      assert FromCell(marked, page, sizeClass, 0) == FromPage(marked, page);
      var index := 0;
      while index < count
        invariant 0 <= index <= count
        invariant Frame(objects, FromCell(marked, page, sizeClass, index), reach) && Grew()
      {
        CellInHeap(vm, page, index);
        var cell := PageAddress(page) + PAGE_HEADER_SIZE + index * ClassSize(sizeClass);
        ghost var rest := FromCell(marked, page, sizeClass, index + 1);
        if vm.cells[cell].Object? && cell in vm.marks {
          FrameMore(objects, FromCell(marked, page, sizeClass, index), rest + {cell}, reach);
          MarkedReached(objects, rest + {cell}, reach, cell);
          Trace(cell, objects, roots, rest, reach);
        } else {
          FrameLess(objects, FromCell(marked, page, sizeClass, index), rest, reach, cell);
        }
        index := index + 1;
      }
      AllCellsScanned(vm, marked, page);
      FrameMore(objects, FromCell(marked, page, sizeClass, index), FromPage(marked, page + 1), reach);
    }

    lemma FrameMore(objects: map<nat, Cell>, pending: set<nat>, more: set<nat>, reach: set<nat>)
      requires Frame(objects, pending, reach) && pending <= more
      ensures Frame(objects, more, reach)
    {
      hide Consistent, Holders, Objects, RunsValid;
      GrayMore(objects, vm.marks, pending, more, stack, overflowed);
    }

    /** An address that is no marked object need not be pending. */
    lemma FrameLess(objects: map<nat, Cell>, pending: set<nat>, less: set<nat>, reach: set<nat>, address: nat)
      requires Frame(objects, pending, reach) && pending <= less + {address}
      requires address !in objects || address !in vm.marks
      ensures Frame(objects, less, reach)
    {
      hide Consistent, Holders, Objects, RunsValid;
    }

    lemma MarkedReached(objects: map<nat, Cell>, pending: set<nat>, reach: set<nat>, address: nat)
      requires Frame(objects, pending, reach) && address in objects && address in vm.marks
      ensures address in reach
    {
      hide Consistent, Holders, Objects, RunsValid;
    }

    /** Nothing is marked yet. */
    lemma FrameFirst(objects: map<nat, Cell>, reach: set<nat>)
      requires Ready() && vm.Heap() == objects && !overflowed
      requires forall address | address in objects :: address !in vm.marks
      ensures Frame(objects, {}, reach)
    {
      hide Consistent, Holders, Objects, RunsValid;
    }

    /** After an overflow every marked object is pending again. */
    method StartRound(ghost objects: map<nat, Cell>, ghost reach: set<nat>)
      requires Frame(objects, {}, reach)
      modifies this`overflowed
      ensures Frame(objects, vm.marks * objects.Keys, reach) && !overflowed
    {
      hide Consistent, Holders, Objects, RunsValid, StackStored, StorageValid, AllMarked;
      overflowed := false;
    }

    /** Once nothing is pending, the marked objects are exactly the reachable ones. */
    lemma MarkedExactly(objects: map<nat, Cell>, roots: set<nat>)
      requires Frame(objects, {}, ReachableSet(objects, roots)) && len == 0 && !overflowed
      requires forall root | root in roots && root in objects :: root in vm.marks
      ensures Closed(objects, roots, vm.marks * objects.Keys)
      ensures vm.marks * objects.Keys == ReachableSet(objects, roots)
      ensures stackPage != 0 ==> StorageValid(vm.runs, stackPage, capacity)
      ensures stackPage == 0 ==> vm.markStack == 0
    {
      hide Consistent, Holders, Objects, RunsValid, ReachableSet;
      var marked := vm.marks * objects.Keys;
      forall from, to | from in marked && to in objects && PointsTo(objects, from, to)
        ensures to in marked
      {
        assert AllMarked(objects, vm.marks, from);
      }
      ReachableSetLeast(objects, roots, marked);
    }

    /** Makes up for an overflow: whatever was marked before is traced once more. */
    method Rescan(ghost objects: map<nat, Cell>, ghost roots: set<nat>, ghost reach: set<nat>)
      requires Frame(objects, vm.marks * objects.Keys, reach) && Closed(objects, roots, reach)
      modifies this`heapEnd, this`stackPage, this`capacity, this`len, this`overflowed, this`stack
      modifies vm`headers, vm`freeRuns, vm`heapEnd, vm`size, vm`growths, vm`runs, vm`freeList, vm`live, vm`words,
               vm`marks
      ensures Frame(objects, {}, reach) && Grew()
    {
      hide RunsValid, Consistent, Holders, Objects, AllMarked, PointsTo, Closed, UsedCells, OthersKept, Vm.Stable;
      hide Frame;
      ghost var marked := vm.marks * objects.Keys;
      OthersSame(vm.runs, stackPage);
      var page := heapStart;
      HeapBounds(vm);
      FrameMore(objects, marked, FromPage(marked, page), reach);
      while page < heapEnd
        invariant heapStart <= page <= heapEnd && (page == heapEnd || page in vm.runs)
        invariant Frame(objects, FromPage(marked, page), reach) && Grew()
        decreases objects.Keys - vm.marks, heapEnd - page
      {
        ghost var runs, from := vm.runs, stackPage;
        page := RescanRun(page, marked, objects, roots, reach);
        OthersThrough(old(vm.runs), old(stackPage), runs, from, vm.runs, stackPage);
      }
      HeapBounds(vm);
      assert FromPage(marked, page) == {};
    }

    /** Traces the marked objects of one run again and returns the run after it. */
    method RescanRun(page: nat, ghost marked: set<nat>, ghost objects: map<nat, Cell>, ghost roots: set<nat>,
                     ghost reach: set<nat>)
      returns (next: nat)
      requires page in vm.runs && marked <= objects.Keys
      requires Frame(objects, FromPage(marked, page), reach) && Closed(objects, roots, reach)
      modifies this`heapEnd, this`stackPage, this`capacity, this`len, this`overflowed, this`stack
      modifies vm`headers, vm`freeRuns, vm`heapEnd, vm`size, vm`growths, vm`runs, vm`freeList, vm`live, vm`words,
               vm`marks
      ensures Frame(objects, FromPage(marked, next), reach) && Grew()
      ensures page < next <= heapEnd && (next == heapEnd || next in vm.runs)
    {
      hide RunsValid, Consistent, Holders, Objects, AllMarked, PointsTo, Closed, UsedCells, OthersKept, Vm.Stable;
      hide Frame;
      OthersSame(vm.runs, stackPage);
      RunAt(vm, page);
      HeapBounds(vm);
      var run := vm.headers[page];
      if run.kind.Class? {
        RescanClassPage(page, run.detail, marked, objects, roots, reach);
        HolderIsRun(vm, page);
      } else if run.kind.Large? {
        RescanLarge(page, marked, objects, roots, reach);
        HolderIsRun(vm, page);
      } else {
        FrameMore(objects, FromPage(marked, page), FromPage(marked, page + 1), reach);
      }
      RunAt(vm, page);
      next := page + (if run.pages == 0 then 1 else run.pages);
      FrameMore(objects, FromPage(marked, page + 1), FromPage(marked, next), reach);
    }

    method RescanLarge(page: nat, ghost marked: set<nat>, ghost objects: map<nat, Cell>, ghost roots: set<nat>,
                       ghost reach: set<nat>)
      requires page in vm.Pages() && vm.Pages()[page].kind.Large?
      requires marked <= objects.Keys
      requires Frame(objects, FromPage(marked, page), reach) && Closed(objects, roots, reach)
      modifies this`heapEnd, this`stackPage, this`capacity, this`len, this`overflowed, this`stack
      modifies vm`headers, vm`freeRuns, vm`heapEnd, vm`size, vm`growths, vm`runs, vm`freeList, vm`live, vm`words,
               vm`marks
      ensures Frame(objects, FromPage(marked, page + 1), reach) && Grew()
    {
      hide RunsValid, Consistent, Holders, Objects, AllMarked, PointsTo, Closed, Vm.Stable, Frame;
      var large := PageAddress(page) + PAGE_HEADER_SIZE;
      LargeScanned(vm, marked, page);
      if large in vm.marks {
        FrameMore(objects, FromPage(marked, page), FromPage(marked, page + 1) + {large}, reach);
        MarkedReached(objects, FromPage(marked, page), reach, large);
        Trace(large, objects, roots, FromPage(marked, page + 1), reach);
      } else {
        FrameLess(objects, FromPage(marked, page), FromPage(marked, page + 1), reach, large);
      }
    }

    /** Takes the last entry off the stack, to trace it. */
    method Pop(ghost objects: map<nat, Cell>, ghost pending: set<nat>, ghost reach: set<nat>) returns (source: nat)
      requires Frame(objects, pending, reach) && len > 0
      modifies this`len, this`stack
      ensures Frame(objects, pending + {source}, reach) && source in objects && source in reach && len == old(len) - 1
    {
      hide RunsValid, Consistent, Holders, Objects, AllMarked, PointsTo, Vm.Stable, Gray;
      GrayPop(objects, vm.marks, pending, stack, overflowed);
      len := len - 1;
      source := vm.words[(stackPage, len)];
      assert source == stack[len] && source in stack;
      stack := stack[..len];
      assert forall address | address in stack :: address in old(stack);
    }

    method Push(address: nat)
      requires Ready() && len < capacity && address in vm.Heap() && address in vm.marks
      modifies this`len, this`stack, vm`words
      ensures Ready() && stack == old(stack) + [address]
    {
      hide RunsValid, Consistent, Holders, StorageValid, Objects;
      vm.words := vm.words[(stackPage, len) := address];
      len := len + 1;
      stack := stack + [address];
    }
  }

  /** Copies the first `count` words of the system run at `source` to the one at `target`. */
  method CopyWords(vm: Vm, target: nat, source: nat, count: nat)
    requires forall i | 0 <= i < count :: (source, i) in vm.words
    modifies vm`words
    ensures forall i | 0 <= i < count :: (target, i) in vm.words && vm.words[(target, i)] == old(vm.words)[(source, i)]
  {
    if count == 0 {
      return;
    }
    vm.words := vm.words + map i | 0 <= i < count :: (target, i) := vm.words[(source, i)];
  }
}
