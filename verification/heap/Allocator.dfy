/** Allocation: free cells of size classes, runs for large objects, and what an allocation leaves alone. */
module Allocating {
  import opened Wrappers
  import opened HeapLayout
  import opened HeapState
  import opened Pages
  import opened Marking
  import opened Sweeping
  import opened Collecting

  /** A refill links no more cells than this at once. */
  const LINK_CHUNK: nat := 64

  // ---- Linking fresh cells ----

  /** The cells `from..to` of a class page. */
  ghost function CellsBetween(page: nat, sizeClass: nat, from: nat, to: nat): set<nat>
    requires sizeClass < CLASS_COUNT
  {
    CellsOf(page, sizeClass, to) - CellsOf(page, sizeClass, from)
  }

  /** A cursor's page and the index of the cell it points to. */
  lemma CursorPlace(pages: map<nat, Run>, cursors: seq<nat>, sizeClass: nat) returns (index: nat)
    requires CursorsValid(pages, cursors) && sizeClass < CLASS_COUNT && cursors[sizeClass] != 0
    ensures
      var page := PageOf(cursors[sizeClass]);
      && 0 < index < CellsPerPage(sizeClass) && cursors[sizeClass] == CellAt(page, sizeClass, index)
      && page in pages && pages[page].kind.Class? && pages[page].detail == sizeClass
      && UsedCells(cursors, page, sizeClass) == index
  {
    var cursor := cursors[sizeClass];
    assert CursorAt(pages, sizeClass, cursor);
    index :| 0 < index < CellsPerPage(sizeClass) && cursor == CellAt(PageOf(cursor), sizeClass, index);
    IndexOfOffset(sizeClass, index);
    CellInPage(PageOf(cursor), sizeClass, index);
  }

  /** The division with which a refill counts the cells its page has left. */
  lemma CellsLeft(page: nat, sizeClass: nat, index: nat)
    requires sizeClass < CLASS_COUNT && index < CellsPerPage(sizeClass)
    ensures
      var size := ClassSize(sizeClass);
      var end := PageAddress(page) + PAGE_HEADER_SIZE + CellsPerPage(sizeClass) * size;
      && CellAt(page, sizeClass, index) <= end
      && (end - CellAt(page, sizeClass, index)) / size == CellsPerPage(sizeClass) - index
      && PageOf(CellAt(page, sizeClass, index)) == page
      && end == CellAt(page, sizeClass, CellsPerPage(sizeClass))
  {
    hide CellsPerPage, ClassSize, CellOffset;
    CellOffsetClosed(sizeClass, index);
    CellOffsetClosed(sizeClass, CellsPerPage(sizeClass));
    CellInPage(page, sizeClass, index);
    hide PageOf, PageAddress;
    CountLeft(ClassSize(sizeClass), index, CellsPerPage(sizeClass));
  }

  lemma CountLeft(size: nat, index: nat, total: nat)
    requires size > 0 && index <= total
    ensures index * size <= total * size && (total * size - index * size) / size == total - index
  {
    Differs(size, index, total);
    QuotientOfProduct(total - index, size);
  }

  lemma Differs(size: nat, index: nat, total: nat)
    ensures total * size - index * size == (total - index) * size
  {}

  lemma CellsAdvance(page: nat, sizeClass: nat, index: nat, count: nat)
    requires sizeClass < CLASS_COUNT
    ensures CellAt(page, sizeClass, index) + count * ClassSize(sizeClass) == CellAt(page, sizeClass, index + count)
  {
    hide ClassSize, CellOffset, PageAddress;
    CellOffsetClosed(sizeClass, index);
    CellOffsetClosed(sizeClass, index + count);
    Differs(ClassSize(sizeClass), index, index + count);
  }

  lemma CellsBetweenStep(page: nat, sizeClass: nat, from: nat, to: nat)
    requires sizeClass < CLASS_COUNT && from < to
    ensures CellsBetween(page, sizeClass, from, to) ==
            CellsBetween(page, sizeClass, from + 1, to) + {CellAt(page, sizeClass, from)}
    ensures CellAt(page, sizeClass, from) !in CellsBetween(page, sizeClass, from + 1, to)
    ensures CellAt(page, sizeClass, from) !in CellsOf(page, sizeClass, from)
    ensures CellAt(page, sizeClass, from) > 0
  {
    CellInCells(page, sizeClass, to, from);
    CellNotInCells(page, sizeClass, from, from);
    assert CellsOf(page, sizeClass, from + 1) == CellsOf(page, sizeClass, from) + {CellAt(page, sizeClass, from)};
  }

  /** `cells'` are `cells` with the addresses of `added` free, and `list'` is `list` grown by them. */
  ghost predicate Linked(cells: map<nat, Cell>, marks: set<nat>, list: seq<nat>, added: set<nat>,
                         cells': map<nat, Cell>, marks': set<nat>, list': seq<nat>)
  {
    && cells'.Keys == cells.Keys + added && marks' == marks - added
    && (forall address | address in cells' ::
          if address in added then cells'[address].FreeCell? else cells'[address] == cells[address])
    && (forall address :: address in list' <==> address in list || address in added)
  }

  /** Links `count` cells from `cursor` on, in address order, before the class's free list. */
  method LinkCells(vm: Vm, cursor: nat, sizeClass: nat, count: nat, ghost page: nat, ghost index: nat)
    requires sizeClass < CLASS_COUNT == |vm.freeHeads| == |vm.cellLists| && cursor == CellAt(page, sizeClass, index)
    requires Chained(vm.cells, vm.freeHeads[sizeClass], vm.cellLists[sizeClass])
    requires forall address | address in vm.cellLists[sizeClass] ::
        address !in CellsBetween(page, sizeClass, index, index + count)
    modifies vm`cells, vm`marks, vm`freeHeads, vm`cellLists
    ensures |vm.freeHeads| == CLASS_COUNT && vm.freeHeads == old(vm.freeHeads)[sizeClass := vm.freeHeads[sizeClass]]
    ensures |vm.cellLists| == CLASS_COUNT && vm.cellLists == old(vm.cellLists)[sizeClass := vm.cellLists[sizeClass]]
    ensures Chained(vm.cells, vm.freeHeads[sizeClass], vm.cellLists[sizeClass])
    ensures Linked(old(vm.cells), old(vm.marks), old(vm.cellLists)[sizeClass],
        CellsBetween(page, sizeClass, index, index + count), vm.cells, vm.marks, vm.cellLists[sizeClass])
  {
    hide CellAt, CellsOf, Chained, CellsBetween;
    ghost var cells, marks, list := vm.cells, vm.marks, vm.cellLists[sizeClass];
    ghost var grown: seq<nat> := list;
    var next: nat := vm.freeHeads[sizeClass];
    var left := count;
    NoCellsBetween(page, sizeClass, index + count);
    while left > 0
      invariant 0 <= left <= count && Chained(vm.cells, next, grown)
      invariant vm.freeHeads == old(vm.freeHeads) && vm.cellLists == old(vm.cellLists)
      invariant Linked(cells, marks, list, CellsBetween(page, sizeClass, index + left, index + count), vm.cells,
          vm.marks, grown)
    {
      left := left - 1;
      CellsAdvance(page, sizeClass, index, left);
      CellsBetweenStep(page, sizeClass, index + left, index + count);
      BetweenWider(page, sizeClass, index, index + left, index + count);
      var cell := cursor + left * ClassSize(sizeClass);
      ChainPush(vm.cells, next, grown, cell, sizeClass);
      WriteFreeCell(vm, cell, sizeClass, next);
      next := cell;
      grown := [cell] + grown;
    }
    vm.freeHeads := vm.freeHeads[sizeClass := next];
    vm.cellLists := vm.cellLists[sizeClass := grown];
  }

  lemma NoCellsBetween(page: nat, sizeClass: nat, index: nat)
    requires sizeClass < CLASS_COUNT
    ensures CellsBetween(page, sizeClass, index, index) == {}
  {}

  lemma {:induction false} CellsOfMonotone(page: nat, sizeClass: nat, from: nat, to: nat)
    requires sizeClass < CLASS_COUNT && from <= to
    ensures CellsOf(page, sizeClass, from) <= CellsOf(page, sizeClass, to)
  {
    if from < to {
      CellsOfMonotone(page, sizeClass, from, to - 1);
    }
  }

  lemma BetweenWider(page: nat, sizeClass: nat, from: nat, later: nat, to: nat)
    requires sizeClass < CLASS_COUNT && from <= later
    ensures CellsBetween(page, sizeClass, later, to) <= CellsBetween(page, sizeClass, from, to)
  {
    CellsOfMonotone(page, sizeClass, from, later);
  }

  // ---- Refilling a class ----

  /** The state of the cells after a refill linked the cells `index..to` of `page`. */
  ghost predicate Refilled(pages: map<nat, Run>, cursors: seq<nat>, sizeClass: nat, page: nat, index: nat, to: nat,
                           pages': map<nat, Run>, cursors': seq<nat>)
    requires sizeClass < CLASS_COUNT == |cursors| == |cursors'|
  {
    && index < to <= CellsPerPage(sizeClass)
    && cursors' == cursors[sizeClass := if to == CellsPerPage(sizeClass) then 0 else CellAt(page, sizeClass, to)]
    && pages' == pages[page := Run(Class, 1, sizeClass)]
    && (if cursors[sizeClass] == 0 then page !in pages && index == 0 else
          && page in pages && pages[page] == Run(Class, 1, sizeClass) && PageOf(cursors[sizeClass]) == page
          && UsedCells(cursors, page, sizeClass) == index)
  }

  lemma UsedAfterRefill(pages: map<nat, Run>, cursors: seq<nat>, sizeClass: nat, page: nat, index: nat, to: nat,
                        pages': map<nat, Run>, cursors': seq<nat>)
    requires sizeClass < CLASS_COUNT == |cursors| == |cursors'|
    requires CursorsValid(pages, cursors)
    requires Refilled(pages, cursors, sizeClass, page, index, to, pages', cursors')
    ensures CursorsValid(pages', cursors')
    ensures UsedCells(cursors', page, sizeClass) == to
    ensures forall other: nat | other != page ::
        UsedCells(cursors', other, sizeClass) == UsedCells(cursors, other, sizeClass)
    ensures forall other: nat, otherClass | 0 <= otherClass < CLASS_COUNT && otherClass != sizeClass ::
              UsedCells(cursors', other, otherClass) == UsedCells(cursors, other, otherClass)
  {
    if to < CellsPerPage(sizeClass) {
      CellInPage(page, sizeClass, to);
      IndexOfOffset(sizeClass, to);
      assert CursorAt(pages', sizeClass, cursors'[sizeClass]);
    }
    forall otherClass | 0 <= otherClass < CLASS_COUNT && otherClass != sizeClass && cursors'[otherClass] != 0
      ensures CursorAt(pages', otherClass, cursors'[otherClass])
    {
      assert CursorAt(pages, otherClass, cursors[otherClass]);
    }
  }

  lemma CellsAfterRefill(pages: map<nat, Run>, cursors: seq<nat>, sizeClass: nat, page: nat, index: nat, to: nat,
                         pages': map<nat, Run>, cursors': seq<nat>, address: nat)
    requires sizeClass < CLASS_COUNT == |cursors| == |cursors'|
    requires CursorsValid(pages, cursors)
    requires Refilled(pages, cursors, sizeClass, page, index, to, pages', cursors')
    ensures IsClassCell(pages', cursors', sizeClass, address) <==>
            IsClassCell(pages, cursors, sizeClass, address) || address in CellsBetween(page, sizeClass, index, to)
    ensures !(IsClassCell(pages, cursors, sizeClass, address) && address in CellsBetween(page, sizeClass, index, to))
    ensures IsLarge(pages', address) <==> IsLarge(pages, address)
    ensures IsCell(pages', cursors', address) <==>
            IsCell(pages, cursors, address) || address in CellsBetween(page, sizeClass, index, to)
    ensures address in CellsBetween(page, sizeClass, index, to) ==> !IsCell(pages, cursors, address)
    ensures forall otherClass | 0 <= otherClass < CLASS_COUNT && otherClass != sizeClass ::
              (IsClassCell(pages', cursors', otherClass, address) <==> IsClassCell(pages, cursors, otherClass, address))
  {
    UsedAfterRefill(pages, cursors, sizeClass, page, index, to, pages', cursors');
    CellsOfMonotone(page, sizeClass, index, to);
    if address in CellsOf(page, sizeClass, to) {
      CellsOnPage(page, sizeClass, to, address);
    }
    hide CellsOf, UsedCells, CursorsValid;
  }

  lemma ObjectsAfterRefill(pages: map<nat, Run>, cursors: seq<nat>, cells: map<nat, Cell>, marks: set<nat>,
                           list: seq<nat>, sizeClass: nat, page: nat, index: nat, to: nat,
                           pages': map<nat, Run>, cursors': seq<nat>, cells': map<nat, Cell>, marks': set<nat>,
                           list': seq<nat>)
    requires sizeClass < CLASS_COUNT == |cursors| == |cursors'|
    requires CursorsValid(pages, cursors) && CellsValid(pages, cursors, cells)
    requires Refilled(pages, cursors, sizeClass, page, index, to, pages', cursors')
    requires Linked(cells, marks, list, CellsBetween(page, sizeClass, index, to), cells', marks', list')
    ensures CellsValid(pages', cursors', cells')
    ensures Objects(pages', cursors', cells') == Objects(pages, cursors, cells)
  {
    forall address
      ensures IsLarge(pages', address) <==> IsLarge(pages, address)
      ensures IsCell(pages', cursors', address) <==>
              IsCell(pages, cursors, address) || address in CellsBetween(page, sizeClass, index, to)
      ensures address in CellsBetween(page, sizeClass, index, to) ==> !IsCell(pages, cursors, address)
    {
      CellsAfterRefill(pages, cursors, sizeClass, page, index, to, pages', cursors', address);
    }
    hide IsCell, CellsBetween, Refilled;
  }

  lemma ListsAfterRefill(pages: map<nat, Run>, cursors: seq<nat>, cells: map<nat, Cell>, marks: set<nat>,
                         heads: seq<nat>, lists: seq<seq<nat>>, sizeClass: nat, page: nat, index: nat, to: nat,
                         pages': map<nat, Run>, cursors': seq<nat>, cells': map<nat, Cell>, marks': set<nat>,
                         heads': seq<nat>, lists': seq<seq<nat>>)
    requires sizeClass < CLASS_COUNT == |cursors| == |cursors'|
    requires CursorsValid(pages, cursors) && ListsSwept(pages, cursors, cells, heads, lists)
    requires Refilled(pages, cursors, sizeClass, page, index, to, pages', cursors')
    requires |heads'| == |lists'| == CLASS_COUNT
    requires heads' == heads[sizeClass := heads'[sizeClass]] && lists' == lists[sizeClass := lists'[sizeClass]]
    requires Chained(cells', heads'[sizeClass], lists'[sizeClass])
    requires Linked(cells, marks, lists[sizeClass], CellsBetween(page, sizeClass, index, to), cells', marks',
        lists'[sizeClass])
    ensures ListsSwept(pages', cursors', cells', heads', lists')
  {
    hide CellsBetween, Refilled, CursorsValid;
    forall other | 0 <= other < CLASS_COUNT
      ensures FreeCells(pages', cursors', cells', other, heads'[other], lists'[other])
    {
      assert FreeCells(pages, cursors, cells, other, heads[other], lists[other]);
      assert FreeCells(pages, cursors, cells, sizeClass, heads[sizeClass], lists[sizeClass]);
      ListAfterRefill(pages, cursors, cells, marks, heads, lists, sizeClass, page, index, to, pages', cursors', cells',
        marks', heads', lists', other);
    }
  }

  lemma ListAfterRefill(pages: map<nat, Run>, cursors: seq<nat>, cells: map<nat, Cell>, marks: set<nat>,
                        heads: seq<nat>, lists: seq<seq<nat>>, sizeClass: nat, page: nat, index: nat, to: nat,
                        pages': map<nat, Run>, cursors': seq<nat>, cells': map<nat, Cell>, marks': set<nat>,
                        heads': seq<nat>, lists': seq<seq<nat>>, other: nat)
    requires sizeClass < CLASS_COUNT == |cursors| == |cursors'| && other < CLASS_COUNT
    requires CursorsValid(pages, cursors) && |heads| == |lists| == |heads'| == |lists'| == CLASS_COUNT
    requires FreeCells(pages, cursors, cells, other, heads[other], lists[other])
    requires Refilled(pages, cursors, sizeClass, page, index, to, pages', cursors')
    requires other != sizeClass ==> heads'[other] == heads[other] && lists'[other] == lists[other]
    requires other == sizeClass ==> Chained(cells', heads'[sizeClass], lists'[sizeClass])
    requires Linked(cells, marks, lists[sizeClass], CellsBetween(page, sizeClass, index, to), cells', marks',
        lists'[sizeClass])
    ensures FreeCells(pages', cursors', cells', other, heads'[other], lists'[other])
  {
    hide CellsBetween, Refilled, CursorsValid, IsClassCell, UsedCells;
    var added := CellsBetween(page, sizeClass, index, to);
    var list := lists[other];
    forall address
      ensures IsClassCell(pages', cursors', other, address) <==>
              IsClassCell(pages, cursors, other, address) || (other == sizeClass && address in added)
      ensures address in added ==> !IsClassCell(pages, cursors, other, address)
    {
      CellsAfterRefill(pages, cursors, sizeClass, page, index, to, pages', cursors', address);
      if IsClassCell(pages, cursors, other, address) { ClassCellIsCell(pages, cursors, other, address); }
    }
    if other != sizeClass {
      forall i {:trigger CellLinked(cells', list, i)} | 0 <= i < |list|
        ensures CellLinked(cells', list, i)
      {
        assert CellLinked(cells, list, i) && list[i] in list;
      }
    }
  }

  lemma ClassCellIsCell(pages: map<nat, Run>, cursors: seq<nat>, sizeClass: nat, address: nat)
    requires sizeClass < CLASS_COUNT == |cursors| && IsClassCell(pages, cursors, sizeClass, address)
    ensures IsCell(pages, cursors, address)
  {}

  /** What allocation steps keep: the objects, the marks' absence and the system's runs. */
  twostate predicate HeapKept(vm: Vm)
    reads vm
  {
    && |old(vm.classCursors)| == |vm.classCursors| == CLASS_COUNT
    && vm.Heap() == old(vm.Heap()) && vm.marks <= old(vm.marks)
    && KeepsSystem(old(vm.runs), vm.runs)
  }

  /** The heap of the pages `pages`, of which `vm` already has one more. */
  ghost predicate Refillable(vm: Vm, pages: map<nat, Run>, sizeClass: nat, page: nat, index: nat)
    reads vm
  {
    && vm.Paged() && sizeClass < CLASS_COUNT == |vm.classCursors|
    && Consistent(pages, vm.classCursors, vm.cells, vm.heapStart, vm.rootRanges, vm.rootShape)
    && ListsSwept(pages, vm.classCursors, vm.cells, vm.freeHeads, vm.cellLists)
    && vm.Pages() == pages[page := Run(Class, 1, sizeClass)] && index < CellsPerPage(sizeClass)
    && (if vm.classCursors[sizeClass] == 0 then page !in pages && index == 0 else
          && page in pages && pages[page] == Run(Class, 1, sizeClass) && PageOf(vm.classCursors[sizeClass]) == page
          && UsedCells(vm.classCursors, page, sizeClass) == index)
  }

  /** Links up to LINK_CHUNK cells from `cursor` on, which points to cell `index` of `page`. */
  method LinkChunk(vm: Vm, sizeClass: nat, cursor: nat, ghost page: nat, ghost index: nat, ghost pages: map<nat, Run>)
    requires Refillable(vm, pages, sizeClass, page, index) && cursor == CellAt(page, sizeClass, index)
    modifies vm`cells, vm`marks, vm`freeHeads, vm`cellLists, vm`classCursors
    ensures vm.Stable() && vm.ListsValid() && vm.freeHeads[sizeClass] != 0
    ensures |old(vm.classCursors)| == CLASS_COUNT && vm.Heap() == Objects(pages, old(vm.classCursors), old(vm.cells))
    ensures vm.marks <= old(vm.marks)
  {
    hide RunsValid, CursorsValid, CellsValid, ReferencesValid, Holders, Objects, FreeCells, Refilled, CellAt;
    hide CellsBetween, UsedCells, Chained, CellsOf;
    var size := ClassSize(sizeClass);
    CellsLeft(page, sizeClass, index);
    var pageEnd := PageAddress(PageOf(cursor)) + PAGE_HEADER_SIZE + CellsPerPage(sizeClass) * size;
    var left := (pageEnd - cursor) / size;
    var count := if left < LINK_CHUNK then left else LINK_CHUNK;
    var end := cursor + count * size;
    CellsAdvance(page, sizeClass, index, count);
    CursorEnd(page, sizeClass, index + count);
    ghost var cursors, cells, marks, heads, lists := vm.classCursors, vm.cells, vm.marks, vm.freeHeads, vm.cellLists;
    vm.classCursors := vm.classCursors[sizeClass := if end == pageEnd then 0 else end];
    ghost var to := index + count;
    IsRefilled(pages, cursors, sizeClass, page, index, to, vm.Pages(), vm.classCursors);
    ListedElsewhere(pages, cursors, cells, heads, lists, sizeClass, page, index, to, vm.Pages(), vm.classCursors);
    LinkCells(vm, cursor, sizeClass, count, page, index);
    ListsAfterRefill(pages, cursors, cells, marks, heads, lists, sizeClass, page, index, to, vm.Pages(),
      vm.classCursors, vm.cells, vm.marks, vm.freeHeads, vm.cellLists);
    ObjectsAfterRefill(pages, cursors, cells, marks, lists[sizeClass], sizeClass, page, index, to, vm.Pages(),
      vm.classCursors, vm.cells, vm.marks, vm.cellLists[sizeClass]);
    UsedAfterRefill(pages, cursors, sizeClass, page, index, to, vm.Pages(), vm.classCursors);
    HeadLinked(vm.cells, vm.freeHeads[sizeClass], vm.cellLists[sizeClass], marks, cells, lists[sizeClass], vm.marks,
      page, sizeClass, index, to);
    ListsAreSwept(vm);
  }

  lemma CursorEnd(page: nat, sizeClass: nat, to: nat)
    requires sizeClass < CLASS_COUNT && to <= CellsPerPage(sizeClass)
    ensures CellAt(page, sizeClass, to) == CellAt(page, sizeClass, CellsPerPage(sizeClass)) <==>
        to == CellsPerPage(sizeClass)
  {
    if to < CellsPerPage(sizeClass) {
      CellOffsetGap(sizeClass, to, CellsPerPage(sizeClass));
    }
  }

  lemma IsRefilled(pages: map<nat, Run>, cursors: seq<nat>, sizeClass: nat, page: nat, index: nat, to: nat,
                   pages': map<nat, Run>, cursors': seq<nat>)
    requires sizeClass < CLASS_COUNT == |cursors|
    requires index < to <= CellsPerPage(sizeClass)
    requires cursors' == cursors[sizeClass := if to == CellsPerPage(sizeClass) then 0 else CellAt(page, sizeClass, to)]
    requires pages' == pages[page := Run(Class, 1, sizeClass)]
    requires if cursors[sizeClass] == 0 then page !in pages && index == 0 else
               && page in pages && pages[page] == Run(Class, 1, sizeClass) && PageOf(cursors[sizeClass]) == page
               && UsedCells(cursors, page, sizeClass) == index
    ensures Refilled(pages, cursors, sizeClass, page, index, to, pages', cursors')
  {}

  /** The cells a refill links are on no free list yet. */
  lemma ListedElsewhere(pages: map<nat, Run>, cursors: seq<nat>, cells: map<nat, Cell>, heads: seq<nat>,
                        lists: seq<seq<nat>>, sizeClass: nat, page: nat, index: nat, to: nat, pages': map<nat, Run>,
                        cursors': seq<nat>)
    requires sizeClass < CLASS_COUNT == |cursors| == |cursors'|
    requires CursorsValid(pages, cursors) && ListsSwept(pages, cursors, cells, heads, lists)
    requires Refilled(pages, cursors, sizeClass, page, index, to, pages', cursors')
    ensures Chained(cells, heads[sizeClass], lists[sizeClass])
    ensures forall address | address in lists[sizeClass] ::
              address !in CellsBetween(page, sizeClass, index, to) && address > 0
  {
    hide CellsBetween, Refilled, CursorsValid, CellsOf;
    assert FreeCells(pages, cursors, cells, sizeClass, heads[sizeClass], lists[sizeClass]);
    forall address | address in lists[sizeClass]
      ensures address !in CellsBetween(page, sizeClass, index, to) && address > 0
    {
      var other := IndexOfCell(PageOf(address), sizeClass, UsedCells(cursors, PageOf(address), sizeClass), address);
      CellsAfterRefill(pages, cursors, sizeClass, page, index, to, pages', cursors', address);
    }
  }

  lemma HeadLinked(cells': map<nat, Cell>, head': nat, list': seq<nat>, marks: set<nat>, cells: map<nat, Cell>,
                   list: seq<nat>, marks': set<nat>, page: nat, sizeClass: nat, index: nat, to: nat)
    requires sizeClass < CLASS_COUNT && index < to
    requires Linked(cells, marks, list, CellsBetween(page, sizeClass, index, to), cells', marks', list')
    requires Chained(cells', head', list')
    requires forall address | address in list :: address > 0
    ensures head' != 0
  {
    CellsBetweenStep(page, sizeClass, index, to);
    assert CellAt(page, sizeClass, index) in list';
    assert list'[0] in list';
    forall address | address in CellsBetween(page, sizeClass, index, to)
      ensures address > 0
    {
      var other := IndexOfCell(page, sizeClass, to, address);
    }
  }

  /** Links the class's next never-used cells into its free list, from a new page when the current one has none left. */
  method RefillClass(vm: Vm, sizeClass: nat) returns (refilled: bool)
    requires vm.Valid() && sizeClass < CLASS_COUNT
    modifies vm`headers, vm`freeRuns, vm`heapEnd, vm`size, vm`growths, vm`runs, vm`freeList, vm`live, vm`cells,
             vm`marks, vm`freeHeads, vm`cellLists, vm`classCursors
    ensures vm.Valid() && HeapKept(vm) && MovesOn(vm)
    ensures refilled ==> vm.freeHeads[sizeClass] != 0
    ensures !refilled ==>
              && vm.freeHeads == old(vm.freeHeads) && vm.runs == old(vm.runs)
              && vm.classCursors[sizeClass] == old(vm.classCursors)[sizeClass] == 0
              && NoPages(vm, 1, old(vm.growths))
  {
    hide RunsValid, Consistent, CursorsValid, CellsValid, ReferencesValid, Holders, KeepsSystem, Objects, ListsSwept;
    hide FreeCells, CellAt, UsedCells;
    KeptAtFirst(vm);
    ghost var pages := vm.Pages();
    var cursor := vm.classCursors[sizeClass];
    ghost var page: nat, index: nat := PageOf(cursor), 0;
    CellsPerPagePositive(sizeClass);
    if cursor == 0 {
      var taken := TakeRun(vm, Run(Class, 1, sizeClass));
      if taken.None? {
        return false;
      }
      cursor := PageAddress(taken.value) + PAGE_HEADER_SIZE;
      page := taken.value;
      FirstCell(page, sizeClass);
    } else {
      index := CursorPlaced(vm, sizeClass);
    }
    LinkChunk(vm, sizeClass, cursor, page, index, pages);
    StackSurvives(old(vm.runs), vm);
    return true;
  }

  lemma FirstCell(page: nat, sizeClass: nat)
    requires sizeClass < CLASS_COUNT
    ensures CellAt(page, sizeClass, 0) == PageAddress(page) + PAGE_HEADER_SIZE
  {}

  lemma KeptAtFirst(vm: Vm)
    requires vm.Valid()
    ensures ListsSwept(vm.Pages(), vm.classCursors, vm.cells, vm.freeHeads, vm.cellLists)
    ensures KeepsSystem(vm.runs, vm.runs)
  {}

  lemma CursorPlaced(vm: Vm, sizeClass: nat) returns (index: nat)
    requires vm.Valid() && sizeClass < CLASS_COUNT && vm.classCursors[sizeClass] != 0
    ensures
      var cursor := vm.classCursors[sizeClass];
      var page := PageOf(cursor);
      && 0 < index < CellsPerPage(sizeClass) && cursor == CellAt(page, sizeClass, index)
      && page in vm.Pages() && vm.Pages()[page] == Run(Class, 1, sizeClass)
      && UsedCells(vm.classCursors, page, sizeClass) == index
      && vm.Pages()[page := Run(Class, 1, sizeClass)] == vm.Pages()
  {
    index := CursorPlace(vm.Pages(), vm.classCursors, sizeClass);
    assert RunFits(vm.runs, vm.heapStart, vm.heapEnd, PageOf(vm.classCursors[sizeClass]));
  }

  // ---- What survives an allocation ----

  /** `after` holds only objects of `before`, unchanged, and every one that was reachable. */
  ghost predicate Survived(before: map<nat, Cell>, roots: set<nat>, after: map<nat, Cell>) {
    && (forall address | address in after :: address in before && after[address] == before[address])
    && (forall address | address in ReachableSet(before, roots) :: address in after)
  }

  /** What is reachable stays reachable when only unreachable objects disappear. */
  lemma StaysReachable(before: map<nat, Cell>, roots: set<nat>, after: map<nat, Cell>)
    requires Survived(before, roots, after)
    ensures ReachableSet(before, roots) <= ReachableSet(after, roots)
  {
    forall address | address in ReachableSet(before, roots)
      ensures address in ReachableSet(after, roots)
    {
      var path :| IsPath(before, roots, path) && path[|path| - 1] == address;
      forall i | 0 <= i < |path|
        ensures path[i] in after && after[path[i]] == before[path[i]]
      {
        assert IsPath(before, roots, path[..i + 1]) && path[..i + 1][i] == path[i];
        assert Reachable(before, roots, path[i]);
      }
      assert forall i | 0 <= i < |path| - 1 :: PointsTo(before, path[i], path[i + 1]);
      assert IsPath(after, roots, path);
    }
  }

  lemma SurvivedTwice(first: map<nat, Cell>, roots: set<nat>, second: map<nat, Cell>, third: map<nat, Cell>)
    requires Survived(first, roots, second) && Survived(second, roots, third)
    ensures Survived(first, roots, third)
  {
    StaysReachable(first, roots, second);
  }

  lemma SurvivedCollection(objects: map<nat, Cell>, roots: set<nat>)
    ensures Survived(objects, roots, Restrict(objects, ReachableSet(objects, roots)))
    ensures Survived(objects, roots, objects)
  {}

  /** Collecting what survived leaves what collecting at first would have left. */
  lemma CollectedAlike(first: map<nat, Cell>, roots: set<nat>, second: map<nat, Cell>)
    requires Survived(first, roots, second)
    ensures Restrict(second, ReachableSet(second, roots)) == Restrict(first, ReachableSet(first, roots))
  {
    StaysReachable(first, roots, second);
    forall address | address in ReachableSet(second, roots)
      ensures address in ReachableSet(first, roots)
    {
      var path :| IsPath(second, roots, path) && path[|path| - 1] == address;
      assert IsPath(first, roots, path) by {
        assert forall i | 0 <= i < |path| :: path[i] in first && first[path[i]] == second[path[i]];
        assert forall i | 0 <= i < |path| - 1 :: PointsTo(second, path[i], path[i + 1]);
      }
    }
    hide ReachableSet;
  }

  /** How many collections the count of them, which wraps, tells apart. */
  function CollectionsFrom(before: nat, after: nat): nat {
    (after - before) % (U32_MAX + 1)
  }

  lemma CollectionsAdd(first: nat, second: nat, third: nat)
    requires CollectionsFrom(first, second) + CollectionsFrom(second, third) <= U32_MAX
    ensures CollectionsFrom(first, third) == CollectionsFrom(first, second) + CollectionsFrom(second, third)
  {}

  /** Everything unreachable is gone, free runs are merged, and still there are no `count` pages. */
  twostate predicate Spent(vm: Vm, count: nat)
    reads vm
  {
    && |old(vm.classCursors)| == |vm.classCursors| == CLASS_COUNT
    && vm.Heap() == Restrict(old(vm.Heap()), ReachableSet(old(vm.Heap()), old(vm.Roots())))
    && CollectionsFrom(old(vm.collections), vm.collections) > 0 && NoAdjacentFree(vm.runs)
    && NoPages(vm, count, old(vm.growths))
  }

  /** At most two collections ran, and the bytes allocated are counted from the last one on. */
  twostate predicate Counted(vm: Vm)
    reads vm`collections, vm`allocatedBytes
  {
    var collections := CollectionsFrom(old(vm.collections), vm.collections);
    collections <= 2 && vm.allocatedBytes == if collections > 0 then 0 else old(vm.allocatedBytes)
  }

  /** The class has no free cell and none that was never used. */
  ghost predicate NoCells(vm: Vm, sizeClass: nat)
    reads vm`freeHeads, vm`classCursors
  {
    sizeClass < |vm.freeHeads| == |vm.classCursors| && vm.freeHeads[sizeClass] == 0 == vm.classCursors[sizeClass]
  }

  /** A valid heap that lost nothing reachable, and no system run but the collector's own. */
  twostate predicate Safe(vm: Vm)
    reads vm
  {
    && vm.Valid() && old(vm.Valid()) && MovesOn(vm)
    && Survived(old(vm.Heap()), old(vm.Roots()), vm.Heap())
    && OthersKept(old(vm.runs), old(vm.markStack), vm.runs, vm.markStack)
  }

  /** A collection, as an allocation sees it. */
  method CollectSafely(vm: Vm)
    requires vm.Valid()
    modifies vm`headers, vm`freeRuns, vm`heapEnd, vm`size, vm`growths, vm`runs, vm`freeList, vm`live, vm`words,
             vm`marks, vm`cells, vm`freeHeads, vm`cellLists, vm`classCursors, vm`threshold, vm`allocatedBytes,
             vm`collections, vm`markStack, vm`markStackCapacity
    ensures Safe(vm) && NoAdjacentFree(vm.runs)
    ensures vm.Heap() == Restrict(old(vm.Heap()), ReachableSet(old(vm.Heap()), old(vm.Roots())))
    ensures CollectionsFrom(old(vm.collections), vm.collections) == 1 && vm.allocatedBytes == 0
  {
    hide Vm.Stable, Vm.ListsValid, Vm.MarkStackValid, Vm.Unmarked, Objects, Survived, OthersKept, ReachableSet;
    hide Restrict, RootAddresses, Holders, NoAdjacentFree;
    SurvivedCollection(vm.Heap(), vm.Roots());
    Collect(vm);
  }

  /** A collection is due. */
  predicate OverThreshold(vm: Vm)
    reads vm`allocatedBytes, vm`threshold
  {
    vm.allocatedBytes >= vm.threshold
  }

  lemma SafeThrough(first: map<nat, Cell>, second: map<nat, Cell>, third: map<nat, Cell>, roots: set<nat>,
                    runs: map<nat, Run>, stack: nat, runs': map<nat, Run>, stack': nat, runs'': map<nat, Run>,
                    stack'': nat)
    requires Survived(first, roots, second) && Survived(second, roots, third)
    requires OthersKept(runs, stack, runs', stack') && OthersKept(runs', stack', runs'', stack'')
    ensures Survived(first, roots, third) && OthersKept(runs, stack, runs'', stack'')
  {
    SurvivedTwice(first, roots, second, third);
    OthersThrough(runs, stack, runs', stack', runs'', stack'');
  }

  lemma SafeSame(objects: map<nat, Cell>, roots: set<nat>, runs: map<nat, Run>, stack: nat, runs': map<nat, Run>)
    requires KeepsSystem(runs, runs')
    ensures Survived(objects, roots, objects) && OthersKept(runs, stack, runs', stack)
  {}

  lemma SystemSame(runs: map<nat, Run>)
    ensures KeepsSystem(runs, runs)
  {}

  /** A refill, as an allocation sees it. */
  method RefillSafely(vm: Vm, sizeClass: nat) returns (refilled: bool)
    requires vm.Valid() && sizeClass < CLASS_COUNT
    modifies vm`headers, vm`freeRuns, vm`heapEnd, vm`size, vm`growths, vm`runs, vm`freeList, vm`live, vm`cells,
             vm`marks, vm`freeHeads, vm`cellLists, vm`classCursors
    ensures Safe(vm) && vm.Heap() == old(vm.Heap())
    ensures refilled ==> vm.freeHeads[sizeClass] != 0
    ensures !refilled ==> vm.freeHeads == old(vm.freeHeads) && vm.runs == old(vm.runs)
    ensures !refilled ==> vm.classCursors[sizeClass] == old(vm.classCursors)[sizeClass] == 0
    ensures !refilled ==> NoPages(vm, 1, old(vm.growths))
  {
    hide Vm.Stable, Vm.ListsValid, Vm.MarkStackValid, Vm.Unmarked, Objects, Survived, OthersKept, RootAddresses;
    hide KeepsSystem, Holders;
    refilled := RefillClass(vm, sizeClass);
    SafeSame(old(vm.Heap()), old(vm.Roots()), old(vm.runs), old(vm.markStack), vm.runs);
  }

  /** The class has cells that were never used, or there is a free page for more. */
  ghost predicate HasCells(vm: Vm, sizeClass: nat)
    reads vm`classCursors, vm`runs
  {
    || (sizeClass < |vm.classCursors| && vm.classCursors[sizeClass] != 0)
    || exists free :: free in vm.runs && vm.runs[free].kind.Free? && vm.runs[free].pages >= 1
  }

  /** Makes the class's free list nonempty: by a collection when one is due, a refill, or a last-resort collection. */
  method EnsureCell(vm: Vm, sizeClass: nat) returns (found: bool)
    requires vm.Valid() && sizeClass < CLASS_COUNT
    modifies vm`headers, vm`freeRuns, vm`heapEnd, vm`size, vm`growths, vm`runs, vm`freeList, vm`live, vm`words,
             vm`marks, vm`cells, vm`freeHeads, vm`cellLists, vm`classCursors, vm`threshold, vm`allocatedBytes,
             vm`collections, vm`markStack, vm`markStackCapacity
    ensures Safe(vm) && (found ==> vm.freeHeads[sizeClass] != 0)
    ensures old(vm.freeHeads)[sizeClass] != 0 ==> found && CollectionsFrom(old(vm.collections), vm.collections) == 0
    ensures old(vm.freeHeads)[sizeClass] != 0 ==>
              vm.freeHeads == old(vm.freeHeads) && vm.runs == old(vm.runs) && vm.Heap() == old(vm.Heap())
    ensures old(vm.freeHeads)[sizeClass] == 0 && old(OverThreshold(vm)) ==>
              CollectionsFrom(old(vm.collections), vm.collections) > 0
    ensures old(vm.freeHeads)[sizeClass] == 0 && old(!OverThreshold(vm)) && old(HasCells(vm, sizeClass)) ==>
              found && CollectionsFrom(old(vm.collections), vm.collections) == 0
    ensures !found ==> NoCells(vm, sizeClass) && Spent(vm, 1)
    ensures Counted(vm)
  {
    hide Vm.Stable, Vm.ListsValid, Vm.MarkStackValid, Vm.Unmarked, Objects, Survived, OthersKept, RootAddresses;
    hide KeepsSystem, Holders, ReachableSet, Restrict, NoAdjacentFree, CollectionsFrom;
    SystemSame(vm.runs);
    SafeSame(vm.Heap(), vm.Roots(), vm.runs, vm.markStack, vm.runs);
    ghost var first, count := vm.Heap(), vm.collections;
    CollectionsSame(count);
    if vm.freeHeads[sizeClass] == 0 && OverThreshold(vm) {
      CollectSafely(vm);
    }
    ghost var objects, runs, stack, between := vm.Heap(), vm.runs, vm.markStack, vm.collections;
    found := true;
    if vm.freeHeads[sizeClass] == 0 {
      found := RefillSafely(vm, sizeClass);
      SafeThrough(first, objects, vm.Heap(), vm.Roots(), old(vm.runs), old(vm.markStack), runs, stack,
        vm.runs, vm.markStack);
      if !found {
        found := LastResort(vm, sizeClass, first, old(vm.runs), old(vm.markStack));
        CollectionsAdd(count, between, vm.collections);
      }
    }
  }

  lemma CollectionsSame(count: nat)
    ensures CollectionsFrom(count, count) == 0
  {}

  /** Collects and refills once more; whatever was reachable before the allocation began is still there. */
  method LastResort(vm: Vm, sizeClass: nat, ghost first: map<nat, Cell>, ghost firstRuns: map<nat, Run>,
                    ghost firstStack: nat)
    returns (found: bool)
    requires vm.Valid() && sizeClass < CLASS_COUNT
    requires Survived(first, vm.Roots(), vm.Heap()) && OthersKept(firstRuns, firstStack, vm.runs, vm.markStack)
    modifies vm`headers, vm`freeRuns, vm`heapEnd, vm`size, vm`growths, vm`runs, vm`freeList, vm`live, vm`words,
             vm`marks, vm`cells, vm`freeHeads, vm`cellLists, vm`classCursors, vm`threshold, vm`allocatedBytes,
             vm`collections, vm`markStack, vm`markStackCapacity
    ensures vm.Valid() && MovesOn(vm) && (found ==> vm.freeHeads[sizeClass] != 0)
    ensures Survived(first, vm.Roots(), vm.Heap()) && OthersKept(firstRuns, firstStack, vm.runs, vm.markStack)
    ensures CollectionsFrom(old(vm.collections), vm.collections) == 1 && vm.allocatedBytes == 0
    ensures !found ==> NoCells(vm, sizeClass) && NoPages(vm, 1, old(vm.growths)) && NoAdjacentFree(vm.runs)
    ensures !found ==> vm.Heap() == Restrict(first, ReachableSet(first, vm.Roots()))
  {
    hide Vm.Stable, Vm.ListsValid, Vm.MarkStackValid, Vm.Unmarked, Objects, Survived, OthersKept, RootAddresses;
    hide KeepsSystem, Holders, ReachableSet, Restrict, NoAdjacentFree, CollectionsFrom;
    ghost var objects, runs, stack := vm.Heap(), vm.runs, vm.markStack;
    CollectedAlike(first, vm.Roots(), objects);
    CollectSafely(vm);
    SafeThrough(first, objects, vm.Heap(), vm.Roots(), firstRuns, firstStack, runs, stack, vm.runs, vm.markStack);
    found := true;
    if vm.freeHeads[sizeClass] == 0 {
      objects, runs, stack := vm.Heap(), vm.runs, vm.markStack;
      found := RefillSafely(vm, sizeClass);
      SafeThrough(first, objects, vm.Heap(), vm.Roots(), firstRuns, firstStack, runs, stack, vm.runs, vm.markStack);
    }
  }

  // ---- Handing out storage ----

  /** The free lists, of which `cell` was just taken off the head of the class's. */
  ghost predicate ListsWithout(
    pages: map<nat, Run>, cursors: seq<nat>, cells: map<nat, Cell>, heads: seq<nat>, lists: seq<seq<nat>>,
    sizeClass: nat, cell: nat)
    requires |cursors| == CLASS_COUNT && sizeClass < CLASS_COUNT
  {
    && |heads| == |lists| == CLASS_COUNT && heads[sizeClass] == HeadOf(lists[sizeClass])
    && ListsSwept(pages, cursors, cells, heads[sizeClass := cell], lists[sizeClass := [cell] + lists[sizeClass]])
  }

  lemma Popped(pages: map<nat, Run>, cursors: seq<nat>, cells: map<nat, Cell>, heads: seq<nat>, lists: seq<seq<nat>>,
               sizeClass: nat)
    requires |cursors| == CLASS_COUNT && sizeClass < CLASS_COUNT && ListsSwept(pages, cursors, cells, heads, lists)
    requires heads[sizeClass] != 0
    ensures
      var cell := heads[sizeClass];
      && lists[sizeClass] != [] && cell in cells && cells[cell].FreeCell?
        && IsClassCell(pages, cursors, sizeClass, cell)
      && ListsWithout(pages, cursors, cells, heads[sizeClass := cells[cell].next],
        lists[sizeClass := lists[sizeClass][1..]], sizeClass, cell)
  {
    var list := lists[sizeClass];
    var cell := heads[sizeClass];
    assert FreeCells(pages, cursors, cells, sizeClass, cell, list);
    assert CellLinked(cells, list, 0) && list[0] in list;
    assert list == [cell] + list[1..];
    var heads', lists' := heads[sizeClass := cells[cell].next], lists[sizeClass := list[1..]];
    assert heads'[sizeClass := cell] == heads && lists'[sizeClass := [cell] + lists'[sizeClass]] == lists;
  }

  /** Writing an object into a cell taken off its list. */
  lemma CellFilled(pages: map<nat, Run>, cursors: seq<nat>, cells: map<nat, Cell>, heads: seq<nat>,
                   lists: seq<seq<nat>>, sizeClass: nat, cell: nat, made: Cell)
    requires |cursors| == CLASS_COUNT && sizeClass < CLASS_COUNT && made.Object?
    requires ListsWithout(pages, cursors, cells, heads, lists, sizeClass, cell)
    ensures ListsSwept(pages, cursors, cells[cell := made], heads, lists)
  {
    forall other | 0 <= other < CLASS_COUNT
      ensures FreeCells(pages, cursors, cells[cell := made], other, heads[other], lists[other])
    {
      ListFilled(pages, cursors, cells, heads, lists, sizeClass, cell, made, other);
    }
  }

  lemma ListFilled(pages: map<nat, Run>, cursors: seq<nat>, cells: map<nat, Cell>, heads: seq<nat>,
                   lists: seq<seq<nat>>, sizeClass: nat, cell: nat, made: Cell, other: nat)
    requires |cursors| == CLASS_COUNT && sizeClass < CLASS_COUNT && other < CLASS_COUNT && made.Object?
    requires ListsWithout(pages, cursors, cells, heads, lists, sizeClass, cell)
    ensures FreeCells(pages, cursors, cells[cell := made], other, heads[other], lists[other])
  {
    hide CellsOf, UsedCells;
    var filled := cells[cell := made];
    var longer := [cell] + lists[sizeClass];
    var heads', lists' := heads[sizeClass := cell], lists[sizeClass := longer];
    assert FreeCells(pages, cursors, cells, sizeClass, heads'[sizeClass], lists'[sizeClass]);
    assert longer[0] in longer;
    var list := lists[other];
    if other == sizeClass {
      forall i {:trigger CellLinked(filled, list, i)} | 0 <= i < |list|
        ensures CellLinked(filled, list, i)
      {
        assert CellLinked(cells, longer, i + 1);
      }
      assert forall i | 0 <= i < |list| :: list[i] == longer[i + 1];
      forall address
        ensures address in list <==> address in longer && address != cell
      {
        assert address in longer <==> address == cell || address in list;
      }
    } else {
      assert FreeCells(pages, cursors, cells, other, heads'[other], lists'[other]);
      forall i {:trigger CellLinked(filled, list, i)} | 0 <= i < |list|
        ensures CellLinked(filled, list, i)
      {
        assert CellLinked(cells, list, i) && list[i] in list;
      }
    }
  }

  /** A new object without references joins the heap. */
  lemma ObjectAdded(pages: map<nat, Run>, cursors: seq<nat>, cells: map<nat, Cell>, low: nat, ranges: seq<seq<Slot>>,
                    rootShape: nat, cell: nat, made: Cell)
    requires |cursors| == CLASS_COUNT && IsCell(pages, cursors, cell) && made.Object? && made.slots == []
    requires CursorsValid(pages, cursors)
    requires forall address | IsCell(pages, cursors, address) && address != cell :: address in cells
    requires forall address | IsLarge(pages, address) && address != cell :: address in cells && cells[address].Object?
    requires ReferencesValid(Objects(pages, cursors, cells), PageAddress(low), ranges, rootShape)
    requires cell !in Objects(pages, cursors, cells)
    requires AllHoused(pages, Objects(pages, cursors, cells)) && Housed(pages, cell, made)
    ensures Consistent(pages, cursors, cells[cell := made], low, ranges, rootShape)
    ensures Objects(pages, cursors, cells[cell := made]) == Objects(pages, cursors, cells)[cell := made]
  {
    hide IsCell, CursorsValid, PageAddress, Housed;
    var before, after := Objects(pages, cursors, cells), Objects(pages, cursors, cells[cell := made]);
    assert after == before[cell := made];
    forall r | 0 <= r < |ranges|
      ensures Refers(after, PageAddress(low), ranges[r])
    {
      assert Refers(before, PageAddress(low), ranges[r]);
    }
    forall address | address in after
      ensures Refers(after, PageAddress(low), after[address].slots)
    {
      if address != cell { assert Refers(before, PageAddress(low), before[address].slots); }
    }
    LargeStaysCell(pages, cursors);
  }

  lemma LargeStaysCell(pages: map<nat, Run>, cursors: seq<nat>)
    requires |cursors| == CLASS_COUNT
    ensures forall address | IsLarge(pages, address) :: IsCell(pages, cursors, address)
  {}

  /** What the header of a large object says instead of a size class. */
  const LARGE_CLASS: nat := 65535

  /** The pages of a run that holds an object of `size` bytes behind its own header. */
  function PagesFor(size: nat): (pages: nat)
    ensures pages > 0 && PageAddress(pages - 1) < size + PAGE_HEADER_SIZE <= PageAddress(pages)
  {
    (size + PAGE_HEADER_SIZE + PAGE_SIZE - 1) / PAGE_SIZE
  }

  /** The storage an object of `size` bytes gets under `header`. */
  function RoomFor(header: nat, size: nat): nat {
    if header < CLASS_COUNT then ClassSize(header) else PageAddress(PagesFor(size)) - PAGE_HEADER_SIZE
  }

  /** A zeroed object of `size` bytes. */
  function NewObject(kind: nat, header: nat, size: nat): (made: Cell) {
    Object(kind, header, RoomFor(header, size), [], seq(size, _ => 0))
  }

  /** The bytes of the storage at an address. */
  ghost function Room(vm: Vm, address: nat): nat
    reads vm`runs
  {
    if PageOf(address) in vm.Pages() && vm.Pages()[PageOf(address)].pages > 0 then Extent(vm.Pages(), address) else 0
  }

  lemma StorageInRun(vm: Vm, address: nat)
    requires vm.Stable() && IsCell(vm.Pages(), vm.classCursors, address)
    ensures PageOf(address) in vm.runs && PageOf(address) in vm.Pages() && vm.Pages()[PageOf(address)].pages > 0
    ensures address % 8 == 0 && PageAddress(PageOf(address)) <= address
    ensures address + Extent(vm.Pages(), address) <= PageAddress(RunEnd(vm.runs, PageOf(address)))
    ensures RunEnd(vm.runs, PageOf(address)) <= vm.heapEnd && vm.heapStart <= PageOf(address)
  {
    CellPlace(vm.Pages(), vm.classCursors, address);
    var page := PageOf(address);
    assert RunFits(vm.runs, vm.heapStart, vm.heapEnd, page);
    if vm.runs[page].kind.Class? {
      var sizeClass := vm.runs[page].detail;
      var index := IndexOfCell(page, sizeClass, UsedCells(vm.classCursors, page, sizeClass), address);
      UsedCellsBounded(vm.Pages(), vm.classCursors, page, sizeClass);
      CellInPage(page, sizeClass, index);
    }
  }

  /** The storage of two objects or free cells never overlaps. */
  lemma StorageDisjoint(vm: Vm, first: nat, second: nat)
    requires vm.Stable() && first < second
    requires IsCell(vm.Pages(), vm.classCursors, first) && IsCell(vm.Pages(), vm.classCursors, second)
    ensures PageOf(first) in vm.Pages() && vm.Pages()[PageOf(first)].pages > 0
    ensures first + Extent(vm.Pages(), first) <= second
  {
    StorageInRun(vm, first);
    StorageInRun(vm, second);
    var page := PageOf(first);
    if page == PageOf(second) && vm.runs[page].kind.Class? {
      assert RunFits(vm.runs, vm.heapStart, vm.heapEnd, page);
      var sizeClass := vm.runs[page].detail;
      var used := UsedCells(vm.classCursors, page, sizeClass);
      var i := IndexOfCell(page, sizeClass, used, first);
      var j := IndexOfCell(page, sizeClass, used, second);
      if i < j { CellOffsetGap(sizeClass, i, j); } else if j < i { CellOffsetGap(sizeClass, j, i); }
    }
  }

  // ---- Allocation ----

  /** `address` is fresh storage for `made` in a heap that lost nothing reachable. */
  ghost predicate Allocated(before: map<nat, Cell>, roots: set<nat>, after: map<nat, Cell>, address: nat, made: Cell) {
    && address in after && after[address] == made
    && address !in ReachableSet(before, roots)
    && Survived(before, roots, after - {address})
  }

  lemma AllocatedAfter(before: map<nat, Cell>, roots: set<nat>, between: map<nat, Cell>, after: map<nat, Cell>,
                       address: nat, made: Cell)
    requires Survived(before, roots, between) && address !in between && after == between[address := made]
    ensures Allocated(before, roots, after, address, made)
  {
    assert after - {address} == between;
  }

  /** Takes one cell of the class and writes a zeroed object into it. */
  method AllocateCell(vm: Vm, sizeClass: nat, size: nat, kind: nat) returns (cell: Option<nat>)
    requires vm.Valid() && sizeClass < CLASS_COUNT && size <= ClassSize(sizeClass)
    modifies vm`headers, vm`freeRuns, vm`heapEnd, vm`size, vm`growths, vm`runs, vm`freeList, vm`live, vm`words,
             vm`marks, vm`cells, vm`freeHeads, vm`cellLists, vm`classCursors, vm`threshold, vm`allocatedBytes,
             vm`collections, vm`markStack, vm`markStackCapacity
    ensures vm.Valid() && OthersKept(old(vm.runs), old(vm.markStack), vm.runs, vm.markStack)
    ensures cell.None? ==> Survived(old(vm.Heap()), old(vm.Roots()), vm.Heap())
    ensures cell.Some? ==>
              && Allocated(old(vm.Heap()), old(vm.Roots()), vm.Heap(), cell.value, NewObject(kind, sizeClass, size))
              && IsClassCell(vm.Pages(), vm.classCursors, sizeClass, cell.value)
    ensures old(vm.freeHeads)[sizeClass] != 0 ==>
              && cell == Some(old(vm.freeHeads)[sizeClass]) && vm.runs == old(vm.runs)
              && vm.Heap() == old(vm.Heap())[cell.value := NewObject(kind, sizeClass, size)]
    ensures old(vm.freeHeads)[sizeClass] != 0 || (old(!OverThreshold(vm)) && old(HasCells(vm, sizeClass))) ==>
              cell.Some? && CollectionsFrom(old(vm.collections), vm.collections) == 0
    ensures old(vm.freeHeads)[sizeClass] == 0 && old(OverThreshold(vm)) ==>
              CollectionsFrom(old(vm.collections), vm.collections) > 0
    ensures MovesOn(vm) && (cell.None? ==> NoCells(vm, sizeClass) && Spent(vm, 1))
    ensures Counted(vm)
  {
    hide Vm.Stable, Vm.ListsValid, Vm.MarkStackValid, Vm.Unmarked, Objects, Survived, OthersKept, RootAddresses;
    hide Allocated, IsClassCell, Holders, ReachableSet, Restrict, NoAdjacentFree, CollectionsFrom, HasCells, NewObject;
    var found := EnsureCell(vm, sizeClass);
    if !found {
      return None;
    }
    ghost var objects := vm.Heap();
    var taken := PopCell(vm, sizeClass, size, kind);
    AllocatedAfter(old(vm.Heap()), vm.Roots(), objects, vm.Heap(), taken, NewObject(kind, sizeClass, size));
    return Some(taken);
  }

  method PopCell(vm: Vm, sizeClass: nat, size: nat, kind: nat) returns (cell: nat)
    requires vm.Valid() && sizeClass < CLASS_COUNT && vm.freeHeads[sizeClass] != 0 && size <= ClassSize(sizeClass)
    modifies vm`cells, vm`marks, vm`freeHeads, vm`cellLists
    ensures vm.Valid() && cell !in old(vm.Heap()) && cell == old(vm.freeHeads)[sizeClass]
    ensures vm.Heap() == old(vm.Heap())[cell := NewObject(kind, sizeClass, size)]
    ensures IsClassCell(vm.Pages(), vm.classCursors, sizeClass, cell)
  {
    hide CursorsValid, ReferencesValid, RunsValid, IsClassCell, ListsSwept, ListsWithout, Holders, FreeCells;
    hide RootAddresses, ClassSize, PagesFor, Vm.Paged, Vm.MarkStackValid;
    KeptAtFirst(vm);
    Popped(vm.Pages(), vm.classCursors, vm.cells, vm.freeHeads, vm.cellLists, sizeClass);
    cell := vm.freeHeads[sizeClass];
    ClassCellIsCell(vm.Pages(), vm.classCursors, sizeClass, cell);
    CellHouses(vm, sizeClass, cell, kind, size);
    hide Housed, AllHoused;
    vm.freeHeads := vm.freeHeads[sizeClass := vm.cells[cell].next];
    vm.cellLists := vm.cellLists[sizeClass := vm.cellLists[sizeClass][1..]];
    CellFilled(vm.Pages(), vm.classCursors, vm.cells, vm.freeHeads, vm.cellLists, sizeClass, cell,
      NewObject(kind, sizeClass, size));
    ObjectAdded(vm.Pages(), vm.classCursors, vm.cells, vm.heapStart, vm.rootRanges, vm.rootShape, cell,
      NewObject(kind, sizeClass, size));
    ListsAfterFill(vm.Pages(), vm.classCursors, vm.cells, vm.freeHeads, vm.cellLists, sizeClass, cell);
    WriteObject(vm, cell, kind, sizeClass, size);
    ListsAreSwept(vm);
  }

  lemma ListsAfterFill(pages: map<nat, Run>, cursors: seq<nat>, cells: map<nat, Cell>, heads: seq<nat>,
                       lists: seq<seq<nat>>, sizeClass: nat, cell: nat)
    requires |cursors| == CLASS_COUNT && sizeClass < CLASS_COUNT
    requires ListsWithout(pages, cursors, cells, heads, lists, sizeClass, cell)
    ensures |heads| == |lists| == CLASS_COUNT
  {}

  /** Clears `size` bytes at `address` and writes the header of an object of `kind`. */
  method WriteObject(vm: Vm, address: nat, kind: nat, header: nat, size: nat)
    modifies vm`cells, vm`marks
    ensures vm.cells == old(vm.cells)[address := NewObject(kind, header, size)] && vm.marks == old(vm.marks) - {address}
  {
    vm.cells := vm.cells[address := NewObject(kind, header, size)];
    vm.marks := vm.marks - {address};
  }

  /** A large object on a page that held no objects before. */
  lemma LargeAdded(pages: map<nat, Run>, cursors: seq<nat>, cells: map<nat, Cell>, low: nat, ranges: seq<seq<Slot>>,
                   rootShape: nat, page: nat, run: Run, made: Cell)
    requires Consistent(pages, cursors, cells, low, ranges, rootShape) && page !in pages && run.kind.Large?
    requires made.Object? && made.slots == []
    requires Housed(pages[page := run], PageAddress(page) + PAGE_HEADER_SIZE, made)
    ensures
      var large := PageAddress(page) + PAGE_HEADER_SIZE;
      var pages' := pages[page := run];
      && Consistent(pages', cursors, cells[large := made], low, ranges, rootShape)
      && Objects(pages', cursors, cells[large := made]) == Objects(pages, cursors, cells)[large := made]
      && large !in Objects(pages, cursors, cells)
  {
    var large := PageAddress(page) + PAGE_HEADER_SIZE;
    var pages' := pages[page := run];
    assert PageOf(large) == page;
    CellsWithLarge(pages, cursors, page, run, large);
    forall sizeClass | 0 <= sizeClass < CLASS_COUNT && cursors[sizeClass] != 0
      ensures CursorAt(pages', sizeClass, cursors[sizeClass])
    {
      assert CursorAt(pages, sizeClass, cursors[sizeClass]);
    }
    LargeObjects(pages, pages', cursors, cells, low, ranges, rootShape, large, made);
    LargeHoused(pages, Objects(pages, cursors, cells), page, run, large, made);
    hide Objects, CellsValid, ReferencesValid, CursorAt, AllHoused, Housed;
  }

  lemma LargeHoused(pages: map<nat, Run>, objects: map<nat, Cell>, page: nat, run: Run, large: nat, made: Cell)
    requires AllHoused(pages, objects) && page !in pages && Housed(pages[page := run], large, made)
    ensures AllHoused(pages[page := run], objects[large := made])
  {
    forall address | address in objects && address != large
      ensures Housed(pages[page := run], address, objects[address])
    {
      assert Housed(pages, address, objects[address]);
    }
  }

  /** A class cell houses an object of a size the class holds. */
  lemma CellHouses(vm: Vm, sizeClass: nat, address: nat, kind: nat, size: nat)
    requires vm.Paged() && sizeClass < CLASS_COUNT == |vm.classCursors| && size <= ClassSize(sizeClass)
    requires IsClassCell(vm.Pages(), vm.classCursors, sizeClass, address)
    ensures Housed(vm.Pages(), address, NewObject(kind, sizeClass, size))
  {
    assert RunFits(vm.runs, vm.heapStart, vm.heapEnd, PageOf(address));
    hide CellsOf;
  }

  lemma CellsWithLarge(pages: map<nat, Run>, cursors: seq<nat>, page: nat, run: Run, large: nat)
    requires |cursors| == CLASS_COUNT && page !in pages && run.kind.Large?
    requires large == PageAddress(page) + PAGE_HEADER_SIZE
    requires PageOf(large) == page
    ensures forall address ::
              IsCell(pages[page := run], cursors, address) <==> IsCell(pages, cursors, address) || address == large
    ensures forall address :: IsLarge(pages[page := run], address) <==> IsLarge(pages, address) || address == large
    ensures !IsCell(pages, cursors, large)
  {
    hide CellsOf, UsedCells;
    var pages' := pages[page := run];
    forall address
      ensures IsLarge(pages', address) <==> IsLarge(pages, address) || address == large
      ensures IsCell(pages', cursors, address) <==> IsCell(pages, cursors, address) || address == large
    {
      if PageOf(address) == page {
        assert pages'[page] == run && (IsLarge(pages', address) <==> address == large);
      } else {
        assert PageOf(address) in pages' <==> PageOf(address) in pages;
      }
    }
  }

  lemma LargeObjects(pages: map<nat, Run>, pages': map<nat, Run>, cursors: seq<nat>, cells: map<nat, Cell>, low: nat,
                     ranges: seq<seq<Slot>>, rootShape: nat, large: nat, made: Cell)
    requires |cursors| == CLASS_COUNT && CellsValid(pages, cursors, cells)
    requires ReferencesValid(Objects(pages, cursors, cells), PageAddress(low), ranges, rootShape)
    requires forall address :: IsCell(pages', cursors, address) <==> IsCell(pages, cursors, address) || address == large
    requires forall address :: IsLarge(pages', address) <==> IsLarge(pages, address) || address == large
    requires !IsCell(pages, cursors, large) && made.Object? && made.slots == []
    ensures CellsValid(pages', cursors, cells[large := made])
    ensures ReferencesValid(Objects(pages', cursors, cells[large := made]), PageAddress(low), ranges, rootShape)
    ensures Objects(pages', cursors, cells[large := made]) == Objects(pages, cursors, cells)[large := made]
    ensures large !in Objects(pages, cursors, cells)
  {
    hide IsCell, IsLarge;
    var before, after := Objects(pages, cursors, cells), Objects(pages', cursors, cells[large := made]);
    assert after == before[large := made];
    forall r | 0 <= r < |ranges|
      ensures Refers(after, PageAddress(low), ranges[r])
    {
      assert Refers(before, PageAddress(low), ranges[r]);
    }
    forall address | address in after
      ensures Refers(after, PageAddress(low), after[address].slots)
    {
      if address != large { assert Refers(before, PageAddress(low), before[address].slots); }
    }
  }

  /** Takes a run of pages for one large object and writes it. */
  method PlaceLarge(vm: Vm, pages: nat, size: nat, kind: nat) returns (placed: Option<nat>)
    requires vm.Valid() && pages == PagesFor(size)
    modifies vm`headers, vm`freeRuns, vm`heapEnd, vm`size, vm`growths, vm`runs, vm`freeList, vm`live, vm`cells, vm`marks
    ensures vm.Valid() && KeepsSystem(old(vm.runs), vm.runs) && MovesOn(vm)
    ensures placed.None? ==> vm.Heap() == old(vm.Heap())
    ensures placed.None? ==> vm.runs == old(vm.runs) && NoPages(vm, pages, old(vm.growths))
    ensures placed.Some? ==>
              && placed.value !in old(vm.Heap())
              && vm.Heap() == old(vm.Heap())[placed.value := NewObject(kind, LARGE_CLASS, size)]
              && IsLarge(vm.Pages(), placed.value) && vm.Pages()[PageOf(placed.value)].pages == pages
  {
    hide RunsValid, Consistent, Holders, KeepsSystem, Objects, ListsSwept, FreeCells;
    hide PagesFor, RootAddresses, NoPages;
    KeptAtFirst(vm);
    ghost var held, made := vm.Pages(), NewObject(kind, LARGE_CLASS, size);
    var page := TakeRun(vm, Run(Large, pages, 0));
    if page.None? {
      return None;
    }
    var large := PageAddress(page.value) + PAGE_HEADER_SIZE;
    RunHouses(held, page.value, kind, size);
    hide Housed, AllHoused;
    LargeAdded(held, vm.classCursors, vm.cells, vm.heapStart, vm.rootRanges, vm.rootShape, page.value,
      Run(Large, pages, 0), made);
    ListsBesideLarge(held, vm.classCursors, vm.cells, vm.freeHeads, vm.cellLists, page.value, Run(Large, pages, 0),
      made);
    WriteObject(vm, large, kind, LARGE_CLASS, size);
    ListsAreSwept(vm);
    StackSurvives(old(vm.runs), vm);
    return Some(large);
  }

  lemma RunHouses(pages: map<nat, Run>, page: nat, kind: nat, size: nat)
    ensures Housed(pages[page := Run(Large, PagesFor(size), 0)], PageAddress(page) + PAGE_HEADER_SIZE,
                   NewObject(kind, LARGE_CLASS, size))
  {
    assert PageOf(PageAddress(page) + PAGE_HEADER_SIZE) == page;
    hide PagesFor;
  }

  /** Storing at an address that is no class cell does not concern the free lists. */
  lemma ListsIgnore(pages: map<nat, Run>, cursors: seq<nat>, cells: map<nat, Cell>, heads: seq<nat>,
                    lists: seq<seq<nat>>, address: nat, made: Cell)
    requires |cursors| == CLASS_COUNT && ListsSwept(pages, cursors, cells, heads, lists)
    requires IsLarge(pages, address) && made.Object?
    ensures ListsSwept(pages, cursors, cells[address := made], heads, lists)
  {
    hide CellsOf, UsedCells;
    forall sizeClass | 0 <= sizeClass < CLASS_COUNT
      ensures FreeCells(pages, cursors, cells[address := made], sizeClass, heads[sizeClass], lists[sizeClass])
    {
      var list := lists[sizeClass];
      assert FreeCells(pages, cursors, cells, sizeClass, heads[sizeClass], list);
      forall i {:trigger CellLinked(cells[address := made], list, i)} | 0 <= i < |list|
        ensures CellLinked(cells[address := made], list, i)
      {
        assert CellLinked(cells, list, i) && list[i] in list;
      }
    }
  }

  lemma ListsBesideLarge(pages: map<nat, Run>, cursors: seq<nat>, cells: map<nat, Cell>, heads: seq<nat>,
                         lists: seq<seq<nat>>, page: nat, run: Run, made: Cell)
    requires |cursors| == CLASS_COUNT && ListsSwept(pages, cursors, cells, heads, lists)
    requires page !in pages && run.kind.Large? && made.Object?
    ensures ListsSwept(pages[page := run], cursors, cells[PageAddress(page) + PAGE_HEADER_SIZE := made], heads, lists)
  {
    assert PageOf(PageAddress(page) + PAGE_HEADER_SIZE) == page;
    hide ListsSwept, PageAddress;
    ListsKeepLarge(pages, cursors, cells, heads, lists, page, run);
    ListsIgnore(pages[page := run], cursors, cells, heads, lists, PageAddress(page) + PAGE_HEADER_SIZE, made);
  }

  /** A free run has `count` pages. */
  ghost predicate HasFree(vm: Vm, count: nat)
    reads vm`runs
  {
    exists free :: free in vm.runs && vm.runs[free].kind.Free? && vm.runs[free].pages >= count
  }

  /** A large object on a run just long enough, after a collection when one is due or pages ran out. */
  method AllocateLarge(vm: Vm, size: nat, kind: nat) returns (placed: Option<nat>, pages: nat)
    requires vm.Valid()
    modifies vm`headers, vm`freeRuns, vm`heapEnd, vm`size, vm`growths, vm`runs, vm`freeList, vm`live, vm`words,
             vm`marks, vm`cells, vm`freeHeads, vm`cellLists, vm`classCursors, vm`threshold, vm`allocatedBytes,
             vm`collections, vm`markStack, vm`markStackCapacity
    ensures vm.Valid() && OthersKept(old(vm.runs), old(vm.markStack), vm.runs, vm.markStack)
    ensures placed.None? ==> Survived(old(vm.Heap()), old(vm.Roots()), vm.Heap())
    ensures placed.Some? ==>
              && Allocated(old(vm.Heap()), old(vm.Roots()), vm.Heap(), placed.value, NewObject(kind, LARGE_CLASS, size))
              && IsLarge(vm.Pages(), placed.value) && vm.Pages()[PageOf(placed.value)].pages == pages > 0
              && size + PAGE_HEADER_SIZE <= PageAddress(pages) && pages == PagesFor(size)
    ensures size + PAGE_HEADER_SIZE <= U32_MAX && old(!OverThreshold(vm)) && old(HasFree(vm, PagesFor(size))) ==>
              placed.Some? && CollectionsFrom(old(vm.collections), vm.collections) == 0
    ensures old(OverThreshold(vm)) ==> CollectionsFrom(old(vm.collections), vm.collections) > 0
    ensures MovesOn(vm) && (placed.None? && size + PAGE_HEADER_SIZE <= U32_MAX ==> Spent(vm, PagesFor(size)))
    ensures Counted(vm)
  {
    hide Vm.Stable, Vm.ListsValid, Vm.MarkStackValid, Vm.Unmarked, Objects, Survived, OthersKept, RootAddresses;
    hide Allocated, IsLarge, KeepsSystem, Holders, ReachableSet, Restrict, NoAdjacentFree, CollectionsFrom, PagesFor;
    ghost var first, count := vm.Heap(), vm.collections;
    CollectionsSame(count);
    SystemSame(vm.runs);
    SafeSame(first, vm.Roots(), vm.runs, vm.markStack, vm.runs);
    if OverThreshold(vm) {
      CollectSafely(vm);
    }
    if size + PAGE_HEADER_SIZE > U32_MAX {
      return None, 0;
    }
    pages := PagesFor(size);
    placed := PlaceLargeAfter(vm, pages, size, kind, first, old(vm.runs), old(vm.markStack));
    if placed.None? {
      ghost var between := vm.collections;
      placed := PlaceLargeAgain(vm, pages, size, kind, first, old(vm.runs), old(vm.markStack));
      CollectionsAdd(count, between, vm.collections);
    }
  }

  /** A second attempt, with the pages of what is unreachable. */
  method PlaceLargeAgain(vm: Vm, pages: nat, size: nat, kind: nat,
                         ghost first: map<nat, Cell>, ghost firstRuns: map<nat, Run>, ghost firstStack: nat)
    returns (placed: Option<nat>)
    requires vm.Valid() && pages == PagesFor(size)
    requires Survived(first, vm.Roots(), vm.Heap()) && OthersKept(firstRuns, firstStack, vm.runs, vm.markStack)
    modifies vm`headers, vm`freeRuns, vm`heapEnd, vm`size, vm`growths, vm`runs, vm`freeList, vm`live, vm`words,
             vm`marks, vm`cells, vm`freeHeads, vm`cellLists, vm`classCursors, vm`threshold, vm`allocatedBytes,
             vm`collections, vm`markStack, vm`markStackCapacity
    ensures vm.Valid() && OthersKept(firstRuns, firstStack, vm.runs, vm.markStack) && MovesOn(vm)
    ensures CollectionsFrom(old(vm.collections), vm.collections) == 1 && vm.allocatedBytes == 0
    ensures placed.None? ==> Survived(first, vm.Roots(), vm.Heap())
    ensures placed.None? ==> vm.Heap() == Restrict(first, ReachableSet(first, vm.Roots()))
    ensures placed.None? ==> NoAdjacentFree(vm.runs) && NoPages(vm, pages, old(vm.growths))
    ensures placed.Some? ==>
              && Allocated(first, vm.Roots(), vm.Heap(), placed.value, NewObject(kind, LARGE_CLASS, size))
              && IsLarge(vm.Pages(), placed.value) && vm.Pages()[PageOf(placed.value)].pages == pages
  {
    hide Vm.Stable, Vm.ListsValid, Vm.MarkStackValid, Vm.Unmarked, Objects, Survived, OthersKept, RootAddresses;
    hide Allocated, IsLarge, KeepsSystem, Holders, ReachableSet, Restrict, NoAdjacentFree, CollectionsFrom, PagesFor;
    ghost var objects, runs, stack := vm.Heap(), vm.runs, vm.markStack;
    CollectedAlike(first, vm.Roots(), objects);
    CollectSafely(vm);
    SafeThrough(first, objects, vm.Heap(), vm.Roots(), firstRuns, firstStack, runs, stack, vm.runs, vm.markStack);
    placed := PlaceLargeAfter(vm, pages, size, kind, first, firstRuns, firstStack);
  }

  method PlaceLargeAfter(vm: Vm, pages: nat, size: nat, kind: nat,
                         ghost first: map<nat, Cell>, ghost firstRuns: map<nat, Run>, ghost firstStack: nat)
    returns (placed: Option<nat>)
    requires vm.Valid() && pages == PagesFor(size)
    requires Survived(first, vm.Roots(), vm.Heap()) && OthersKept(firstRuns, firstStack, vm.runs, vm.markStack)
    modifies vm`headers, vm`freeRuns, vm`heapEnd, vm`size, vm`growths, vm`runs, vm`freeList, vm`live, vm`cells, vm`marks
    ensures vm.Valid() && OthersKept(firstRuns, firstStack, vm.runs, vm.markStack) && MovesOn(vm)
    ensures placed.None? ==> Survived(first, vm.Roots(), vm.Heap()) && vm.Heap() == old(vm.Heap())
    ensures placed.None? ==> vm.runs == old(vm.runs) && NoPages(vm, pages, old(vm.growths))
    ensures placed.Some? ==>
              && Allocated(first, vm.Roots(), vm.Heap(), placed.value, NewObject(kind, LARGE_CLASS, size))
              && IsLarge(vm.Pages(), placed.value) && vm.Pages()[PageOf(placed.value)].pages == pages
  {
    hide Vm.Stable, Vm.ListsValid, Vm.MarkStackValid, Vm.Unmarked, Objects, Survived, OthersKept, RootAddresses;
    hide Allocated, KeepsSystem, Holders;
    ghost var objects := vm.Heap();
    placed := PlaceLarge(vm, pages, size, kind);
    SafeSame(objects, vm.Roots(), old(vm.runs), vm.markStack, vm.runs);
    OthersThrough(firstRuns, firstStack, old(vm.runs), vm.markStack, vm.runs, vm.markStack);
    if placed.Some? {
      AllocatedAfter(first, vm.Roots(), objects, vm.Heap(), placed.value, NewObject(kind, LARGE_CLASS, size));
    }
  }

  /** `header` names the smallest class whose cells hold `size` bytes, or a run of the object's own. */
  ghost predicate HeaderFor(header: nat, size: nat) {
    if header < CLASS_COUNT
    then size <= ClassSize(header) && forall smaller | 0 <= smaller < header :: ClassSize(smaller) < size
    else header == LARGE_CLASS && size > 2048
  }

  /** The `size` bytes at `address` are aligned, lie in the heap and are disjoint from every other object. */
  ghost predicate Fits(vm: Vm, address: nat, size: nat)
    reads vm`runs, vm`classCursors, vm`cells, vm`heapStart, vm`heapEnd
  {
    && |vm.classCursors| == CLASS_COUNT && address % 8 == 0
    && PageAddress(vm.heapStart) <= address && address + size <= PageAddress(vm.heapEnd)
    && forall other | other in vm.Heap() && other != address ::
         && PageOf(other) in vm.Pages() && vm.Pages()[PageOf(other)].pages > 0
         && (other + Extent(vm.Pages(), other) <= address || address + size <= other)
  }

  lemma StorageFits(vm: Vm, address: nat, size: nat)
    requires vm.Stable() && IsCell(vm.Pages(), vm.classCursors, address)
    requires PageOf(address) in vm.Pages() && vm.Pages()[PageOf(address)].pages > 0
    requires size <= Extent(vm.Pages(), address)
    ensures Fits(vm, address, size)
  {
    StorageInRun(vm, address);
    forall other | other in vm.Heap() && other != address
      ensures PageOf(other) in vm.Pages() && vm.Pages()[PageOf(other)].pages > 0
      ensures other + Extent(vm.Pages(), other) <= address || address + size <= other
    {
      StorageInRun(vm, other);
      if other < address { StorageDisjoint(vm, other, address); } else { StorageDisjoint(vm, address, other); }
    }
  }

  lemma CellFits(vm: Vm, address: nat, sizeClass: nat, size: nat)
    requires vm.Valid() && sizeClass < CLASS_COUNT && IsClassCell(vm.Pages(), vm.classCursors, sizeClass, address)
    requires size <= ClassSize(sizeClass)
    ensures Fits(vm, address, size) && Room(vm, address) == ClassSize(sizeClass)
  {
    ClassCellIsCell(vm.Pages(), vm.classCursors, sizeClass, address);
    StorageInRun(vm, address);
    StorageFits(vm, address, size);
  }

  lemma LargeFits(vm: Vm, address: nat, size: nat)
    requires vm.Valid() && IsLarge(vm.Pages(), address)
    requires size + PAGE_HEADER_SIZE <= PageAddress(vm.Pages()[PageOf(address)].pages)
    ensures Fits(vm, address, size) && size <= Room(vm, address) && !NeverFits(size)
  {
    StorageInRun(vm, address);
    StorageFits(vm, address, size);
  }

  lemma AllocatedThrough(first: map<nat, Cell>, roots: set<nat>, second: map<nat, Cell>, third: map<nat, Cell>,
                         address: nat, made: Cell)
    requires Survived(first, roots, second) && Allocated(second, roots, third, address, made)
    ensures Allocated(first, roots, third, address, made)
  {
    StaysReachable(first, roots, second);
    SurvivedTwice(first, roots, second, third - {address});
  }

  /** The place `header` stands for has room for `size` bytes, and a class cell has no more than its class says. */
  ghost predicate Roomy(vm: Vm, address: nat, header: nat, size: nat)
    reads vm`runs
  {
    size <= Room(vm, address) && (header < CLASS_COUNT ==> Room(vm, address) == ClassSize(header))
  }

  /** The pages that give `size` bytes storage: one for more cells of their class, or an object's own run. */
  function PagesNeeded(size: nat): nat {
    if size <= 2048 then 1 else PagesFor(size)
  }

  lemma WhatIsNeeded(size: nat)
    ensures size <= 2048 ==> PagesNeeded(size) == 1 && !NeverFits(size)
    ensures size > 2048 ==> PagesNeeded(size) == PagesFor(size)
    ensures size > 2048 && size + PAGE_HEADER_SIZE > U32_MAX ==> NeverFits(size)
  {}

  /** A collection ran, and neither a cell of the class nor the pages for `size` bytes can be had. */
  twostate predicate OutOfMemory(vm: Vm, header: nat, size: nat)
    reads vm
  {
    Spent(vm, PagesNeeded(size)) && (header < CLASS_COUNT ==> NoCells(vm, header))
  }

  /** What an object of `size` bytes counts for towards the next collection. */
  function BytesFor(header: nat, size: nat): nat {
    if header < CLASS_COUNT then ClassSize(header) else PageAddress(PagesFor(size))
  }

  /** Takes a cell of the smallest class that holds `size` bytes, or a run of pages, and counts its bytes. */
  method Place(vm: Vm, size: nat, kind: nat) returns (made: Option<nat>, header: nat, bytes: nat)
    requires vm.Valid()
    modifies vm`headers, vm`freeRuns, vm`heapEnd, vm`size, vm`growths, vm`runs, vm`freeList, vm`live, vm`words,
             vm`marks, vm`cells, vm`freeHeads, vm`cellLists, vm`classCursors, vm`threshold, vm`allocatedBytes,
             vm`collections, vm`markStack, vm`markStackCapacity
    ensures vm.Valid() && OthersKept(old(vm.runs), old(vm.markStack), vm.runs, vm.markStack)
    ensures HeaderFor(header, size)
    ensures made.None? ==> Survived(old(vm.Heap()), old(vm.Roots()), vm.Heap())
    ensures made.Some? ==>
              && Allocated(old(vm.Heap()), old(vm.Roots()), vm.Heap(), made.value, NewObject(kind, header, size))
              && Fits(vm, made.value, size) && Roomy(vm, made.value, header, size) && !NeverFits(size)
    ensures MovesOn(vm) && (made.None? && !NeverFits(size) ==> OutOfMemory(vm, header, size))
    ensures Counted(vm) && (made.Some? ==> bytes == BytesFor(header, size))
  {
    hide Vm.Stable, Vm.ListsValid, Vm.MarkStackValid, Vm.Unmarked, Objects, Survived, OthersKept, RootAddresses;
    hide Allocated, IsLarge, IsClassCell, Fits, Holders, Room, NoCells, PagesNeeded, PagesFor, NeverFits;
    hide ReachableSet, Restrict, NoAdjacentFree, CollectionsFrom, NoPages;
    WhatIsNeeded(size);
    var sizeClass := ClassForSize(size);
    if sizeClass.Some? {
      header := sizeClass.value;
      made := AllocateCell(vm, header, size, kind);
      bytes := SIZE_CLASSES[header];
      if made.Some? { CellFits(vm, made.value, header, size); }
    } else {
      var pages;
      header := LARGE_CLASS;
      made, pages := AllocateLarge(vm, size, kind);
      bytes := PageAddress(pages);
      if made.Some? { LargeFits(vm, made.value, size); }
    }
  }

  /** What a place for the rounded size means for the size that was asked for. */
  lemma RoomForRequest(vm: Vm, address: nat, header: nat, size: nat)
    requires size <= U32_MAX && HeaderFor(header, RoundedSize(size)) && Roomy(vm, address, header, RoundedSize(size))
    ensures size <= Room(vm, address) <==> size <= U32_MAX - 7
  {
    hide Room;
    RoundedHolds(size);
    if size > U32_MAX - 7 {
      assert header == 0 by { assert header > 0 && header < CLASS_COUNT ==> ClassSize(0) < 0; }
    }
  }

  lemma EarlierAsked(vm: Vm, count: nat, before: nat, asked: nat)
    requires NoPages(vm, count, asked) && before <= asked
    ensures NoPages(vm, count, before)
  {}

  /** A new object for a request of any 32-bit size, or None; in both cases nothing reachable is disturbed. */
  method Allocate(vm: Vm, size: nat, kind: nat) returns (made: Option<nat>, ghost header: nat)
    requires vm.Valid() && size <= U32_MAX
    modifies vm`headers, vm`freeRuns, vm`heapEnd, vm`size, vm`growths, vm`runs, vm`freeList, vm`live, vm`words,
             vm`marks, vm`cells, vm`freeHeads, vm`cellLists, vm`classCursors, vm`threshold, vm`allocatedBytes,
             vm`collections, vm`markStack, vm`markStackCapacity
    ensures vm.Valid() && OthersKept(old(vm.runs), old(vm.markStack), vm.runs, vm.markStack)
    ensures made.None? ==> Survived(old(vm.Heap()), old(vm.Roots()), vm.Heap())
    ensures made.Some? ==>
              && HeaderFor(header, RoundedSize(size))
              && Allocated(old(vm.Heap()), old(vm.Roots()), vm.Heap(), made.value,
                NewObject(kind, header, RoundedSize(size)))
              && Fits(vm, made.value, RoundedSize(size))
    ensures made.Some? ==> (size <= Room(vm, made.value) <==> size <= U32_MAX - 7)
    ensures NeverFits(RoundedSize(size)) ==> made.None?
    ensures MovesOn(vm) && HeaderFor(header, RoundedSize(size))
    ensures made.None? && !NeverFits(RoundedSize(size)) ==> OutOfMemory(vm, header, RoundedSize(size))
    ensures old(vm.collectEveryAllocation) ==> CollectionsFrom(old(vm.collections), vm.collections) > 0
    ensures made.Some? ==>
              var collected := CollectionsFrom(old(vm.collections), vm.collections) > 0;
              vm.allocatedBytes ==
                SaturatingAdd(if collected then 0 else old(vm.allocatedBytes), BytesFor(header, RoundedSize(size)))
  {
    hide Vm.Stable, Vm.ListsValid, Vm.MarkStackValid, Vm.Unmarked, Objects, Survived, OthersKept, RootAddresses;
    hide Allocated, KeepsSystem, Fits, Holders, Room, Roomy, HeaderFor, NewObject, RoundedSize, ReachableSet, Restrict;
    hide NoAdjacentFree, CollectionsFrom, NoPages, NoCells, PagesNeeded, BytesFor;
    SystemSame(vm.runs);
    SafeSame(vm.Heap(), vm.Roots(), vm.runs, vm.markStack, vm.runs);
    ghost var count := vm.collections;
    CollectionsSame(count);
    if vm.collectEveryAllocation {
      CollectSafely(vm);
    }
    ghost var objects, runs, stack, between, asked := vm.Heap(), vm.runs, vm.markStack, vm.collections, vm.growths;
    CollectedAlike(old(vm.Heap()), vm.Roots(), objects);
    var place, bytes;
    made, place, bytes := Place(vm, RoundedSize(size), kind);
    header := place;
    CollectionsAdd(count, between, vm.collections);
    OthersThrough(old(vm.runs), old(vm.markStack), runs, stack, vm.runs, vm.markStack);
    if made.None? {
      SurvivedTwice(old(vm.Heap()), vm.Roots(), objects, vm.Heap());
      if !NeverFits(RoundedSize(size)) {
        EarlierAsked(vm, PagesNeeded(RoundedSize(size)), old(vm.growths), asked);
      }
      return;
    }
    AllocatedThrough(old(vm.Heap()), vm.Roots(), objects, vm.Heap(), made.value,
      NewObject(kind, header, RoundedSize(size)));
    RoomForRequest(vm, made.value, header, size);
    vm.allocatedBytes := SaturatingAdd(vm.allocatedBytes, bytes);
  }
}
