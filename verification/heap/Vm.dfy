/** The VM state block, the memory behind it and the invariant that ties them together. */
module HeapState {
  import opened HeapLayout

  // ---- Page runs ----

  ghost function RunEnd(runs: map<nat, Run>, page: nat): nat
    requires page in runs
  {
    page + runs[page].pages
  }

  /** The run at `page` is the last one or another run starts where it ends. */
  ghost predicate Followed(runs: map<nat, Run>, high: nat, page: nat)
    requires page in runs
  {
    RunEnd(runs, page) == high || RunEnd(runs, page) in runs
  }

  ghost predicate RunFits(runs: map<nat, Run>, low: nat, high: nat, page: nat)
    requires page in runs
  {
    && low <= page && 0 < runs[page].pages && RunEnd(runs, page) <= high
    && (runs[page].kind.Class? ==> runs[page].pages == 1 && runs[page].detail < CLASS_COUNT)
  }

  ghost predicate AllFit(runs: map<nat, Run>, low: nat, high: nat) {
    forall page | page in runs :: RunFits(runs, low, high, page)
  }

  ghost predicate AllFollowed(runs: map<nat, Run>, high: nat) {
    forall page {:trigger Followed(runs, high, page)} | page in runs :: Followed(runs, high, page)
  }

  ghost predicate Apart(runs: map<nat, Run>) {
    forall page, other | page in runs && other in runs && page < other :: RunEnd(runs, page) <= other
  }

  /** The runs cover `low..high` without gap or overlap. */
  ghost predicate Tiles(runs: map<nat, Run>, low: nat, high: nat) {
    && 0 < low <= high
    && (low < high ==> low in runs)
    && AllFit(runs, low, high) && AllFollowed(runs, high) && Apart(runs)
  }

  /** The stored headers spell `runs`; only the link of a free run is not part of `runs`. */
  ghost predicate Stored(headers: map<nat, Run>, runs: map<nat, Run>) {
    forall page | page in runs ::
      && page in headers && headers[page].kind == runs[page].kind && headers[page].pages == runs[page].pages
      && (runs[page].kind.Free? || headers[page] == runs[page])
  }

  ghost function HeadOf(list: seq<nat>): nat {
    if list == [] then 0 else list[0]
  }

  ghost predicate Distinct(list: seq<nat>) {
    forall i, j | 0 <= i < j < |list| :: list[i] != list[j]
  }

  ghost predicate RunLinked(headers: map<nat, Run>, list: seq<nat>, i: nat)
    requires i < |list|
  {
    list[i] in headers && headers[list[i]].detail == if i + 1 < |list| then list[i + 1] else 0
  }

  /** The chain of free runs from `head` visits every free run exactly once. */
  ghost predicate FreeRuns(headers: map<nat, Run>, runs: map<nat, Run>, head: nat, list: seq<nat>) {
    && head == HeadOf(list)
    && Distinct(list)
    && (forall page :: page in list <==> page in runs && runs[page].kind.Free?)
    && (forall i {:trigger RunLinked(headers, list, i)} | 0 <= i < |list| :: RunLinked(headers, list, i))
  }

  ghost predicate RunsValid(headers: map<nat, Run>, runs: map<nat, Run>, low: nat, high: nat, head: nat,
                            list: seq<nat>)
  {
    && Tiles(runs, low, high)
    && Stored(headers, runs)
    && FreeRuns(headers, runs, head, list)
  }

  /** The runs that are not free: every class page, large object and system run. */
  ghost function InUse(runs: map<nat, Run>): map<nat, Run> {
    map page | page in runs && !runs[page].kind.Free? :: runs[page]
  }

  // ---- Cells ----

  /** The runs that hold objects. Every predicate below depends on the runs through them alone. */
  ghost function Holders(runs: map<nat, Run>): map<nat, Run> {
    map page | page in runs && (runs[page].kind.Class? || runs[page].kind.Large?) :: runs[page]
  }

  /** How many cells of a class page may hold objects: all, or those below the class's cursor. A cursor
      lies past its page header (CursorsValid), so the last test of the guard never decides. */
  function UsedCells(cursors: seq<nat>, page: nat, sizeClass: nat): nat
    requires sizeClass < CLASS_COUNT == |cursors|
  {
    var cursor := cursors[sizeClass];
    if cursor != 0 && PageOf(cursor) == page && PageAddress(page) + PAGE_HEADER_SIZE <= cursor
    then (cursor - PageAddress(page) - PAGE_HEADER_SIZE) / ClassSize(sizeClass)
    else CellsPerPage(sizeClass)
  }

  ghost predicate CursorAt(pages: map<nat, Run>, sizeClass: nat, cursor: nat)
    requires sizeClass < CLASS_COUNT
  {
    var page := PageOf(cursor);
    && page in pages && pages[page].kind.Class? && pages[page].detail == sizeClass
    && exists index | 0 < index < CellsPerPage(sizeClass) :: cursor == CellAt(page, sizeClass, index)
  }

  ghost predicate CursorsValid(pages: map<nat, Run>, cursors: seq<nat>) {
    && |cursors| == CLASS_COUNT
    && forall sizeClass | 0 <= sizeClass < CLASS_COUNT ::
         cursors[sizeClass] == 0 || CursorAt(pages, sizeClass, cursors[sizeClass])
  }

  /** Whether `address` is the storage of an object or a linked free cell of `sizeClass`. */
  ghost predicate IsClassCell(pages: map<nat, Run>, cursors: seq<nat>, sizeClass: nat, address: nat)
    requires sizeClass < CLASS_COUNT == |cursors|
  {
    var page := PageOf(address);
    && page in pages && pages[page].kind.Class? && pages[page].detail == sizeClass
    && address in CellsOf(page, sizeClass, UsedCells(cursors, page, sizeClass))
  }

  ghost predicate IsLarge(pages: map<nat, Run>, address: nat) {
    var page := PageOf(address);
    page in pages && pages[page].kind.Large? && address == PageAddress(page) + PAGE_HEADER_SIZE
  }

  ghost predicate IsCell(pages: map<nat, Run>, cursors: seq<nat>, address: nat)
    requires |cursors| == CLASS_COUNT
  {
    var page := PageOf(address);
    || IsLarge(pages, address)
    || (page in pages && pages[page].detail < CLASS_COUNT && IsClassCell(pages, cursors, pages[page].detail, address))
  }

  /** The objects the heap holds. */
  ghost function Objects(pages: map<nat, Run>, cursors: seq<nat>, cells: map<nat, Cell>): map<nat, Cell>
    requires |cursors| == CLASS_COUNT
  {
    map address | address in cells && IsCell(pages, cursors, address) && cells[address].Object? :: cells[address]
  }

  ghost predicate CellsValid(pages: map<nat, Run>, cursors: seq<nat>, cells: map<nat, Cell>)
    requires |cursors| == CLASS_COUNT
  {
    && (forall address | IsCell(pages, cursors, address) :: address in cells)
    && (forall address | IsLarge(pages, address) :: cells[address].Object?)
  }

  ghost predicate CellLinked(cells: map<nat, Cell>, list: seq<nat>, i: nat)
    requires i < |list|
  {
    && list[i] in cells && cells[list[i]].FreeCell?
    && cells[list[i]].next == if i + 1 < |list| then list[i + 1] else 0
  }

  /** The free list of `sizeClass` visits exactly its free cells below the cursor, each once. */
  ghost predicate FreeCells(
    pages: map<nat, Run>, cursors: seq<nat>, cells: map<nat, Cell>, sizeClass: nat, head: nat, list: seq<nat>)
    requires sizeClass < CLASS_COUNT == |cursors|
  {
    && head == HeadOf(list)
    && Distinct(list)
    && (forall i {:trigger CellLinked(cells, list, i)} | 0 <= i < |list| :: CellLinked(cells, list, i))
    && (forall address ::
          var free := IsClassCell(pages, cursors, sizeClass, address) && address in cells && cells[address].FreeCell?;
          address in list <==> free)
  }

  // ---- References and reachability ----

  /** The addresses a collection starts from. */
  ghost function RootAddresses(ranges: seq<seq<Slot>>, rootShape: nat): set<nat> {
    {rootShape} + set r, i | 0 <= r < |ranges| && 0 <= i < |ranges[r]| && ranges[r][i].Reference? ::
      ranges[r][i].address
  }

  /** A reference is to static data below the heap or to an object. */
  ghost predicate Refers(objects: map<nat, Cell>, low: nat, slots: seq<Slot>) {
    forall i | 0 <= i < |slots| && slots[i].Reference? :: slots[i].address < low || slots[i].address in objects
  }

  ghost predicate ReferencesValid(objects: map<nat, Cell>, low: nat, ranges: seq<seq<Slot>>, rootShape: nat) {
    && (forall address | address in objects :: objects[address].Object? && Refers(objects, low, objects[address].slots))
    && (forall r | 0 <= r < |ranges| :: Refers(objects, low, ranges[r]))
    && (rootShape < low || rootShape in objects)
  }

  ghost predicate PointsTo(objects: map<nat, Cell>, from: nat, to: nat) {
    from in objects && objects[from].Object? && Reference(to) in objects[from].slots
  }

  ghost predicate IsPath(objects: map<nat, Cell>, roots: set<nat>, path: seq<nat>) {
    && |path| > 0 && path[0] in roots
    && (forall i | 0 <= i < |path| :: path[i] in objects)
    && (forall i | 0 <= i < |path| - 1 :: PointsTo(objects, path[i], path[i + 1]))
  }

  ghost predicate Reachable(objects: map<nat, Cell>, roots: set<nat>, address: nat) {
    exists path :: IsPath(objects, roots, path) && path[|path| - 1] == address
  }

  ghost function ReachableSet(objects: map<nat, Cell>, roots: set<nat>): set<nat> {
    set address | address in objects && Reachable(objects, roots, address)
  }

  /** `objects` cut down to the addresses in `kept`. */
  ghost function Restrict(objects: map<nat, Cell>, kept: set<nat>): map<nat, Cell> {
    map address | address in objects && address in kept :: objects[address]
  }

  /** `closed` holds every object a root or a member refers to. */
  ghost predicate Closed(objects: map<nat, Cell>, roots: set<nat>, closed: set<nat>) {
    && closed <= objects.Keys
    && (forall address | address in roots && address in objects :: address in closed)
    && (forall from, to | from in closed && to in objects && PointsTo(objects, from, to) :: to in closed)
  }

  lemma RootReached(objects: map<nat, Cell>, roots: set<nat>, address: nat)
    requires address in roots && address in objects
    ensures Reachable(objects, roots, address)
  {
    assert IsPath(objects, roots, [address]);
  }

  lemma PathExtends(objects: map<nat, Cell>, roots: set<nat>, path: seq<nat>, to: nat)
    requires IsPath(objects, roots, path)
    requires to in objects && PointsTo(objects, path[|path| - 1], to)
    ensures IsPath(objects, roots, path + [to])
  {}

  lemma EdgeReached(objects: map<nat, Cell>, roots: set<nat>, from: nat, to: nat)
    requires Reachable(objects, roots, from) && to in objects && PointsTo(objects, from, to)
    ensures Reachable(objects, roots, to)
  {
    hide PointsTo;
    var path :| IsPath(objects, roots, path) && path[|path| - 1] == from;
    PathExtends(objects, roots, path, to);
    assert (path + [to])[|path + [to]| - 1] == to;
  }

  lemma ReachableSetClosed(objects: map<nat, Cell>, roots: set<nat>)
    ensures Closed(objects, roots, ReachableSet(objects, roots))
  {
    hide Reachable, PointsTo;
    var reached := ReachableSet(objects, roots);
    forall address | address in roots && address in objects
      ensures address in reached
    {
      RootReached(objects, roots, address);
    }
    forall from, to | from in reached && to in objects && PointsTo(objects, from, to)
      ensures to in reached
    {
      EdgeReached(objects, roots, from, to);
    }
  }

  /** The reachable objects are the least closed set. */
  lemma ReachableSetLeast(objects: map<nat, Cell>, roots: set<nat>, closed: set<nat>)
    requires Closed(objects, roots, closed)
    ensures ReachableSet(objects, roots) <= closed
  {
    forall address | address in ReachableSet(objects, roots)
      ensures address in closed
    {
      var path :| IsPath(objects, roots, path) && path[|path| - 1] == address;
      PathStaysClosed(objects, roots, closed, path, |path| - 1);
    }
  }

  lemma {:induction false} PathStaysClosed(objects: map<nat, Cell>, roots: set<nat>, closed: set<nat>, path: seq<nat>,
                                           i: nat)
    requires Closed(objects, roots, closed) && IsPath(objects, roots, path) && i < |path|
    ensures path[i] in closed
  {
    if i > 0 {
      PathStaysClosed(objects, roots, closed, path, i - 1);
      assert PointsTo(objects, path[i - 1], path[i]);
    }
  }

  /** The bytes of the storage at the address of an object. */
  ghost function Extent(pages: map<nat, Run>, address: nat): nat
    requires PageOf(address) in pages && pages[PageOf(address)].pages > 0
  {
    var run := pages[PageOf(address)];
    if run.kind.Class? && run.detail < CLASS_COUNT then ClassSize(run.detail)
      else PageAddress(run.pages) - PAGE_HEADER_SIZE
  }

  /** The bytes an object's slots and data take. */
  function Footprint(cell: Cell): nat {
    if cell.Object? then 8 * |cell.slots| + |cell.data| else 0
  }

  /** The object at `address` keeps to its storage. */
  ghost predicate Housed(pages: map<nat, Run>, address: nat, cell: Cell) {
    && PageOf(address) in pages && pages[PageOf(address)].pages > 0
    && cell.Object? && cell.room == Extent(pages, address) && Footprint(cell) <= cell.room
  }

  ghost predicate AllHoused(pages: map<nat, Run>, objects: map<nat, Cell>) {
    forall address | address in objects :: Housed(pages, address, objects[address])
  }

  /** Objects stay housed while the runs they are on stay. */
  lemma HousedStill(pages: map<nat, Run>, objects: map<nat, Cell>, pages': map<nat, Run>, objects': map<nat, Cell>)
    requires AllHoused(pages, objects)
    requires forall address | address in objects' ::
               && address in objects && objects'[address] == objects[address]
               && PageOf(address) in pages'
               && (PageOf(address) in pages ==> pages'[PageOf(address)] == pages[PageOf(address)])
    ensures AllHoused(pages', objects')
  {
    forall address | address in objects' ensures Housed(pages', address, objects'[address]) {
      assert Housed(pages, address, objects[address]);
    }
  }

  /** Cursors, cells and references agree with the pages, and objects keep to their storage. */
  ghost predicate Consistent(
    pages: map<nat, Run>, cursors: seq<nat>, cells: map<nat, Cell>, low: nat, ranges: seq<seq<Slot>>, rootShape: nat)
  {
    && CursorsValid(pages, cursors)
    && CellsValid(pages, cursors, cells)
    && ReferencesValid(Objects(pages, cursors, cells), PageAddress(low), ranges, rootShape)
    && AllHoused(pages, Objects(pages, cursors, cells))
  }

  // ---- The state block ----

  /** The threshold of a new heap, and the least of any. */
  const INITIAL_COLLECTION_THRESHOLD: nat := 0x10_0000

  class Vm {
    var heapStart: nat
    var heapEnd: nat
    var freeHeads: seq<nat>
    var classCursors: seq<nat>
    var freeRuns: nat
    var allocatedBytes: nat
    var threshold: nat
    var markStack: nat
    var markStackCapacity: nat
    var collectEveryAllocation: bool
    var collections: nat
    var rootRanges: seq<seq<Slot>>
    var rootShape: nat

    // Linear memory, one map for each kind of thing the collector and the allocator store in it.
    var size: nat
    var headers: map<nat, Run>
    var live: map<nat, nat>
    var cells: map<nat, Cell>
    var marks: set<nat>
    /** Word `i` of the system run at page `p`, after its header, is `words[(p, i)]`. */
    var words: map<(nat, nat), nat>

    /** The host's answer to the n-th request to grow memory, by so many pages. */
    const host: (nat, nat) -> bool
    /** How many requests it has answered. */
    var growths: nat

    ghost var runs: map<nat, Run>
    ghost var freeList: seq<nat>
    ghost var cellLists: seq<seq<nat>>

    /** A valid heap without objects on whole pages, less than a page behind `heapStart`. */
    constructor InitHeap(heapStart: nat, size: nat, host: (nat, nat) -> bool)
      requires 0 < heapStart <= size && heapStart <= PageAddress(PAGE_LIMIT - 1) && size % PAGE_SIZE == 0
      ensures Valid() && Heap() == map[] && runs == map[] && this.size == size && this.host == host && growths == 0
      ensures PageAddress(this.heapStart) - PAGE_SIZE < heapStart <= PageAddress(this.heapStart)
      ensures !collectEveryAllocation && allocatedBytes == 0 && rootRanges == [] && rootShape == 0 && markStack == 0
    {
      var start := (heapStart + PAGE_SIZE - 1) / PAGE_SIZE;
      this.heapStart, heapEnd := start, start;
      freeHeads, classCursors := seq(CLASS_COUNT, _ => 0), seq(CLASS_COUNT, _ => 0);
      freeRuns, allocatedBytes, threshold, markStack, markStackCapacity := 0, 0, INITIAL_COLLECTION_THRESHOLD, 0, 0;
      collectEveryAllocation, collections, rootRanges, rootShape := false, 0, [], 0;
      this.size, this.host, growths := size, host, 0;
      headers, live, cells, marks, words := map[], map[], map[], {}, map[];
      runs, freeList, cellLists := map[], [], seq(CLASS_COUNT, _ => []);
    }

    ghost function Pages(): map<nat, Run>
      reads this`runs
    {
      Holders(runs)
    }

    ghost function Heap(): map<nat, Cell>
      requires |classCursors| == CLASS_COUNT
      reads this`runs, this`classCursors, this`cells
    {
      Objects(Pages(), classCursors, cells)
    }

    ghost function Roots(): set<nat>
      reads this`rootRanges, this`rootShape
    {
      RootAddresses(rootRanges, rootShape)
    }

    /** The page runs and the free-run list. */
    ghost predicate Paged()
      reads this`headers, this`runs, this`heapStart, this`heapEnd, this`freeRuns, this`freeList, this`size
    {
      && RunsValid(headers, runs, heapStart, heapEnd, freeRuns, freeList)
      && PageAddress(heapEnd) <= size && heapEnd < PAGE_LIMIT
    }

    /** What holds throughout marking: everything but the marks, the mark stack and the free cell lists. */
    ghost predicate Stable()
      reads this`headers, this`runs, this`heapStart, this`heapEnd, this`freeRuns, this`freeList, this`size,
            this`classCursors, this`cells, this`rootRanges, this`rootShape
      ensures Stable() ==> |classCursors| == CLASS_COUNT
    {
      Paged() && Consistent(Pages(), classCursors, cells, heapStart, rootRanges, rootShape)
    }

    ghost predicate ListsValid()
      requires |classCursors| == CLASS_COUNT
      reads this`runs, this`classCursors, this`cells, this`freeHeads, this`cellLists
    {
      && |freeHeads| == |cellLists| == CLASS_COUNT
      && forall sizeClass | 0 <= sizeClass < CLASS_COUNT ::
           FreeCells(Pages(), classCursors, cells, sizeClass, freeHeads[sizeClass], cellLists[sizeClass])
    }

    ghost predicate MarkStackValid()
      reads this`runs, this`markStack, this`markStackCapacity
    {
      markStack != 0 ==>
        && markStack in runs && runs[markStack] == Run(System, runs[markStack].pages, 0)
        && markStackCapacity == StackCapacity(runs[markStack].pages)
    }

    ghost predicate Unmarked()
      requires |classCursors| == CLASS_COUNT
      reads this`runs, this`classCursors, this`cells, this`marks
    {
      forall address | address in Heap() :: address !in marks
    }

    ghost predicate Valid()
      reads this`headers, this`runs, this`heapStart, this`heapEnd, this`freeRuns, this`freeList, this`size,
            this`classCursors, this`cells, this`freeHeads, this`cellLists, this`markStack, this`markStackCapacity,
              this`marks, this`rootRanges, this`rootShape
      ensures Valid() ==> |classCursors| == |freeHeads| == |cellLists| == CLASS_COUNT
    {
      Stable() && ListsValid() && MarkStackValid() && Unmarked()
    }
  }

  /** How many four-byte entries a run of pages holds behind its header. */
  function StackCapacity(pages: nat): nat
  {
    if pages == 0 then 0 else (PageAddress(pages) - PAGE_HEADER_SIZE) / 4
  }
}
