/** Whole runs of the heap: what a program may do to it, and what holds in every state it reaches. */
module Running {
  import opened Wrappers
  import opened HeapLayout
  import opened HeapState
  import opened Pages
  import opened Marking
  import opened Sweeping
  import opened Collecting
  import opened Allocating

  /** One step of the running program. */
  datatype Step =
    | AllocateObject(size: nat, kind: nat)
    | CollectGarbage
    | StoreSlots(address: nat, slots: seq<Slot>, data: seq<nat>)
    | SetRoots(ranges: seq<seq<Slot>>, rootShape: nat)
    | TakeBuffer(pages: nat)

  /** Every slot holds an immediate, the address of static data, or an object's. */
  ghost predicate Storable(vm: Vm, slots: seq<Slot>)
    requires |vm.classCursors| == CLASS_COUNT
    reads vm
  {
    Refers(vm.Heap(), PageAddress(vm.heapStart), slots)
  }

  /** The object's storage has room for so many slots and other bytes. */
  ghost predicate HasRoom(vm: Vm, address: nat, slots: seq<Slot>, data: seq<nat>)
    requires |vm.classCursors| == CLASS_COUNT
    reads vm
  {
    address in vm.Heap() && vm.Heap()[address].Object? && 8 * |slots| + |data| <= vm.Heap()[address].room
  }

  /** Whether a well-behaved program may take `step`. */
  ghost predicate Permitted(vm: Vm, step: Step)
    requires |vm.classCursors| == CLASS_COUNT
    reads vm
  {
    match step
    case AllocateObject(size, _) => size <= U32_MAX
    case CollectGarbage => true
    case StoreSlots(address, slots, data) => HasRoom(vm, address, slots, data) && Storable(vm, slots)
    case SetRoots(ranges, rootShape) =>
      (forall r | 0 <= r < |ranges| :: Storable(vm, ranges[r]))
        && (rootShape < PageAddress(vm.heapStart) || rootShape in vm.Heap())
    case TakeBuffer(pages) => pages > 0
  }

  /** Replacing what one object holds. */
  lemma ObjectRewritten(pages: map<nat, Run>, cursors: seq<nat>, cells: map<nat, Cell>, low: nat,
                        ranges: seq<seq<Slot>>, rootShape: nat, address: nat, made: Cell)
    requires Consistent(pages, cursors, cells, low, ranges, rootShape)
    requires address in Objects(pages, cursors, cells) && made.Object?
    requires Refers(Objects(pages, cursors, cells), PageAddress(low), made.slots)
    requires made.room == cells[address].room && Footprint(made) <= made.room
    ensures Consistent(pages, cursors, cells[address := made], low, ranges, rootShape)
    ensures Objects(pages, cursors, cells[address := made]) == Objects(pages, cursors, cells)[address := made]
  {
    hide IsCell, IsLarge, CursorAt, PageAddress;
    var before, after := Objects(pages, cursors, cells), Objects(pages, cursors, cells[address := made]);
    assert after == before[address := made];
    forall other | other in after
      ensures Refers(after, PageAddress(low), after[other].slots)
    {
      assert other != address ==> Refers(before, PageAddress(low), before[other].slots);
    }
    forall other | other in after ensures Housed(pages, other, after[other]) {
      assert Housed(pages, other, before[other]);
    }
    forall r | 0 <= r < |ranges|
      ensures Refers(after, PageAddress(low), ranges[r])
    {
      assert Refers(before, PageAddress(low), ranges[r]);
    }
  }

  lemma ListsAfterRewrite(pages: map<nat, Run>, cursors: seq<nat>, cells: map<nat, Cell>, heads: seq<nat>,
                          lists: seq<seq<nat>>, address: nat, made: Cell)
    requires |cursors| == CLASS_COUNT && ListsSwept(pages, cursors, cells, heads, lists)
    requires address in cells && cells[address].Object? && made.Object?
    ensures ListsSwept(pages, cursors, cells[address := made], heads, lists)
  {
    hide CellsOf, UsedCells;
    forall sizeClass | 0 <= sizeClass < CLASS_COUNT
      ensures FreeCells(pages, cursors, cells[address := made], sizeClass, heads[sizeClass], lists[sizeClass])
    {
      var list := lists[sizeClass];
      assert FreeCells(pages, cursors, cells, sizeClass, heads[sizeClass], list);
      forall i {:trigger CellLinked(cells[address := made], list, i)} | 0 <= i < |list|
        ensures CellLinked(cells[address := made], list, i)
      {
        assert CellLinked(cells, list, i) && list[i] in list;
      }
    }
  }

  /** The program overwrites the slots and the other bytes of an object, within its storage. */
  method Store(vm: Vm, address: nat, slots: seq<Slot>, data: seq<nat>)
    requires vm.Valid() && HasRoom(vm, address, slots, data) && Storable(vm, slots)
    modifies vm`cells
    ensures vm.Valid()
    ensures var was := old(vm.Heap())[address];
            vm.Heap() == old(vm.Heap())[address := Object(was.kind, was.sizeClass, was.room, slots, data)]
  {
    KeptAtFirst(vm);
    hide RunsValid, Consistent, ListsSwept, Refers, Holders, FreeCells;
    var cell := vm.cells[address];
    var made := Object(cell.kind, cell.sizeClass, cell.room, slots, data);
    ObjectRewritten(vm.Pages(), vm.classCursors, vm.cells, vm.heapStart, vm.rootRanges, vm.rootShape, address, made);
    ListsAfterRewrite(vm.Pages(), vm.classCursors, vm.cells, vm.freeHeads, vm.cellLists, address, made);
    vm.cells := vm.cells[address := made];
    ListsAreSwept(vm);
  }

  /** The program points the collector to other root slots. */
  method PointRoots(vm: Vm, ranges: seq<seq<Slot>>, rootShape: nat)
    requires vm.Valid() && (forall r | 0 <= r < |ranges| :: Storable(vm, ranges[r]))
    requires rootShape < PageAddress(vm.heapStart) || rootShape in vm.Heap()
    modifies vm`rootRanges, vm`rootShape
    ensures vm.Valid() && vm.Heap() == old(vm.Heap()) && vm.rootRanges == ranges && vm.rootShape == rootShape
  {
    hide Consistent, RunsValid, Refers, Holders, FreeCells, Objects;
    RootsPointed(vm, ranges, rootShape);
    vm.rootRanges := ranges;
    vm.rootShape := rootShape;
  }

  lemma RootsPointed(vm: Vm, ranges: seq<seq<Slot>>, rootShape: nat)
    requires vm.Valid() && (forall r | 0 <= r < |ranges| :: Storable(vm, ranges[r]))
    requires rootShape < PageAddress(vm.heapStart) || rootShape in vm.Heap()
    ensures Consistent(vm.Pages(), vm.classCursors, vm.cells, vm.heapStart, ranges, rootShape)
  {
    hide CursorsValid, CellsValid, Refers;
  }

  /** The runner takes a buffer, as for its input and output: pages the collector keeps but never scans. */
  method TakePagesForRunner(vm: Vm, pages: nat) returns (page: Option<nat>)
    requires vm.Valid() && pages > 0
    modifies vm`headers, vm`freeRuns, vm`heapEnd, vm`size, vm`growths, vm`runs, vm`freeList, vm`live
    ensures vm.Valid() && vm.Heap() == old(vm.Heap()) && KeepsSystem(old(vm.runs), vm.runs) && MovesOn(vm)
    ensures page.None? ==> NoPages(vm, pages, old(vm.growths))
    ensures page.Some? ==> page.value in vm.runs && vm.runs[page.value] == SystemRun(pages)
  {
    hide RunsValid, Consistent, Holders, KeepsSystem, Objects, FreeCells;
    page := TakeSystemPages(vm, pages);
    StackSurvives(old(vm.runs), vm);
  }

  /** Whatever a program does, the heap stays valid, and only a collection's garbage ever disappears. */
  method Perform(vm: Vm, step: Step)
    requires vm.Valid() && Permitted(vm, step)
    modifies vm
    ensures vm.Valid()
    ensures step.AllocateObject? ==>
              forall address | address in ReachableSet(old(vm.Heap()), old(vm.Roots())) ::
                address in vm.Heap() && vm.Heap()[address] == old(vm.Heap())[address]
    ensures step.CollectGarbage? ==>
              && vm.Heap() == Restrict(old(vm.Heap()), ReachableSet(old(vm.Heap()), old(vm.Roots())))
              && NoAdjacentFree(vm.runs)
    ensures step.StoreSlots? || step.SetRoots? || step.TakeBuffer? ==> vm.Heap().Keys == old(vm.Heap()).Keys
  {
    hide Vm.Stable, Vm.ListsValid, Vm.MarkStackValid, Vm.Unmarked, Objects, OthersKept, RootAddresses, IsLarge;
    hide IsClassCell, KeepsSystem, Holders, ReachableSet, Restrict, NoAdjacentFree;
    match step {
      case AllocateObject(size, kind) =>
        var made, _ := Allocate(vm, size, kind);
      case CollectGarbage =>
        Collect(vm);
      case StoreSlots(address, slots, data) =>
        Store(vm, address, slots, data);
      case SetRoots(ranges, rootShape) =>
        PointRoots(vm, ranges, rootShape);
      case TakeBuffer(pages) =>
        var page := TakePagesForRunner(vm, pages);
    }
  }

  // ---- What the invariant means ----

  /** Every page of the heap belongs to exactly one run. */
  lemma PageHasRun(runs: map<nat, Run>, low: nat, high: nat, page: nat) returns (start: nat)
    requires Tiles(runs, low, high) && low <= page < high
    ensures start in runs && start <= page < RunEnd(runs, start)
    ensures forall other | other in runs && other <= page < RunEnd(runs, other) :: other == start
  {
    start := low;
    while RunEnd(runs, start) <= page
      invariant low <= start <= page && start in runs
      decreases page - start
    {
      assert RunFits(runs, low, high, start) && Followed(runs, high, start);
      start := RunEnd(runs, start);
    }
  }

  /** What objects hold lies in the heap, each in its own storage and apart from all others. */
  ghost predicate ContentsApart(vm: Vm)
    requires |vm.classCursors| == CLASS_COUNT
    reads vm
  {
    && (forall address | address in vm.Heap() ::
          && Footprint(vm.Heap()[address]) <= Room(vm, address)
          && Fits(vm, address, Footprint(vm.Heap()[address])))
    && (forall first, second | first in vm.Heap() && second in vm.Heap() && first < second ::
          first + Footprint(vm.Heap()[first]) <= second)
  }

  lemma StayApart(vm: Vm)
    requires vm.Valid()
    ensures ContentsApart(vm)
  {
    forall address | address in vm.Heap()
      ensures Footprint(vm.Heap()[address]) <= Room(vm, address)
      ensures Fits(vm, address, Footprint(vm.Heap()[address]))
    {
      HousedInRoom(vm, address);
      StorageInRun(vm, address);
      StorageFits(vm, address, Footprint(vm.Heap()[address]));
    }
    hide Objects, Housed, Vm.Valid, Footprint, Extent;
    forall first, second | first in vm.Heap() && second in vm.Heap() && first < second
      ensures first + Footprint(vm.Heap()[first]) <= second
    {
      assert Fits(vm, second, Footprint(vm.Heap()[second]));
      ApartInOrder(vm, first, second);
    }
  }

  lemma HousedInRoom(vm: Vm, address: nat)
    requires vm.Valid() && address in vm.Heap()
    ensures IsCell(vm.Pages(), vm.classCursors, address)
    ensures PageOf(address) in vm.Pages() && vm.Pages()[PageOf(address)].pages > 0
    ensures Footprint(vm.Heap()[address]) <= Extent(vm.Pages(), address) == Room(vm, address)
  {
    assert Housed(vm.Pages(), address, vm.Heap()[address]);
  }

  lemma ApartInOrder(vm: Vm, first: nat, second: nat)
    requires vm.Valid() && first in vm.Heap() && second in vm.Heap() && first < second
    ensures first + Footprint(vm.Heap()[first]) <= second
  {
    HousedInRoom(vm, first);
    HousedInRoom(vm, second);
    hide Objects, Vm.ListsValid, Extent, Footprint;
    StorageDisjoint(vm, first, second);
  }

  /** A class's free list never leads back to a cell it passed, and every free cell of the class is on it. */
  lemma FreeListExact(vm: Vm, sizeClass: nat, address: nat)
    requires vm.Valid() && sizeClass < CLASS_COUNT
    ensures
      var list := vm.cellLists[sizeClass];
      && (address in list <==>
            IsClassCell(vm.Pages(), vm.classCursors, sizeClass, address) && address in vm.cells
              && vm.cells[address].FreeCell?)
      && (list != [] ==> vm.freeHeads[sizeClass] == list[0] && vm.cells[list[|list| - 1]].next == 0)
      && (forall i, j | 0 <= i < j < |list| :: list[i] != list[j])
  {
    var list := vm.cellLists[sizeClass];
    assert FreeCells(vm.Pages(), vm.classCursors, vm.cells, sizeClass, vm.freeHeads[sizeClass], list);
    if list != [] {
      assert CellLinked(vm.cells, list, |list| - 1);
    }
  }
}
