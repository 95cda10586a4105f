/** The sweep phase of a collection. */
module Sweeping {
  import opened HeapLayout
  import opened HeapState
  import opened Pages
  import opened Marking

  // ---- One class page ----

  ghost predicate Live(cells: map<nat, Cell>, marks: set<nat>, address: nat) {
    address in cells && cells[address].Object? && address in marks
  }

  ghost function LiveCells(cells: map<nat, Cell>, marks: set<nat>, swept: set<nat>): set<nat> {
    set address | address in swept && Live(cells, marks, address)
  }

  /** The cells of `swept` freed unless live, the rest as before; `list` is the free list's growth. */
  ghost predicate CellsSwept(
    cells: map<nat, Cell>, marks: set<nat>, list: seq<nat>, swept: set<nat>,
    cells': map<nat, Cell>, marks': set<nat>, list': seq<nat>)
  {
    && cells'.Keys == cells.Keys && marks' == marks - swept
    && (forall address | address in cells ::
          if address in swept && !Live(cells, marks, address) then cells'[address].FreeCell?
          else cells'[address] == cells[address])
    && (forall address :: address in list' <==>
          address in list || (address in swept && !Live(cells, marks, address)))
  }

  /** `list` from `head` is a chain of free cells that visits none twice. */
  ghost predicate Chained(cells: map<nat, Cell>, head: nat, list: seq<nat>) {
    && head == HeadOf(list) && Distinct(list)
    && forall i {:trigger CellLinked(cells, list, i)} | 0 <= i < |list| :: CellLinked(cells, list, i)
  }

  lemma ChainPush(cells: map<nat, Cell>, head: nat, list: seq<nat>, cell: nat, sizeClass: nat)
    requires Chained(cells, head, list) && cell !in list && cell > 0
    ensures Chained(cells[cell := FreeCell(sizeClass, head)], cell, [cell] + list)
  {
    var pushed := cells[cell := FreeCell(sizeClass, head)];
    var longer := [cell] + list;
    forall i {:trigger CellLinked(pushed, longer, i)} | 0 <= i < |longer|
      ensures CellLinked(pushed, longer, i)
    {
      if i > 0 {
        assert CellLinked(cells, list, i - 1) && list[i - 1] in list;
      }
    }
  }

  lemma SweptFree(
    cells: map<nat, Cell>, marks: set<nat>, list: seq<nat>, swept: set<nat>,
    cells': map<nat, Cell>, marks': set<nat>, list': seq<nat>, cell: nat, free: Cell)
    requires CellsSwept(cells, marks, list, swept, cells', marks', list')
    requires cell in cells && cell !in swept && !Live(cells, marks, cell) && free.FreeCell?
    ensures CellsSwept(cells, marks, list, swept + {cell}, cells'[cell := free], marks' - {cell}, [cell] + list')
  {}

  lemma SweptLive(
    cells: map<nat, Cell>, marks: set<nat>, list: seq<nat>, swept: set<nat>,
    cells': map<nat, Cell>, marks': set<nat>, list': seq<nat>, cell: nat)
    requires CellsSwept(cells, marks, list, swept, cells', marks', list')
    requires cell in cells && cell !in swept && Live(cells, marks, cell)
    ensures CellsSwept(cells, marks, list, swept + {cell}, cells', marks' - {cell}, list')
  {}

  lemma PageCell(vm: Vm, page: nat, sizeClass: nat, count: nat, index: nat)
    requires sizeClass < CLASS_COUNT && count <= CellsPerPage(sizeClass) && index < count
    requires CellsOf(page, sizeClass, count) <= vm.cells.Keys && page > 0
    ensures
      var cell := PageAddress(page) + PAGE_HEADER_SIZE + index * ClassSize(sizeClass);
      && cell == CellAt(page, sizeClass, index) && cell in vm.cells && cell > 0
      && cell in CellsOf(page, sizeClass, count)
      && cell !in CellsOf(page, sizeClass, index)
      && CellsOf(page, sizeClass, index + 1) == CellsOf(page, sizeClass, index) + {cell}
  {
    CellOffsetClosed(sizeClass, index);
    CellInCells(page, sizeClass, count, index);
    CellNotInCells(page, sizeClass, index, index);
  }

  lemma CountOneMore(cells: map<nat, Cell>, marks: set<nat>, swept: set<nat>, cell: nat)
    requires cell !in swept && cell in cells
    ensures |LiveCells(cells, marks, swept + {cell})| ==
            |LiveCells(cells, marks, swept)| + if cells[cell].Object? && cell in marks then 1 else 0
  {
    if Live(cells, marks, cell) {
      assert LiveCells(cells, marks, swept + {cell}) == LiveCells(cells, marks, swept) + {cell};
    } else {
      assert LiveCells(cells, marks, swept + {cell}) == LiveCells(cells, marks, swept);
    }
  }

  /** Counts the marked objects among the first `count` cells of a class page. */
  method CountLive(vm: Vm, page: nat, sizeClass: nat, count: nat) returns (live: nat)
    requires sizeClass < CLASS_COUNT && count <= CellsPerPage(sizeClass) && page > 0
    requires CellsOf(page, sizeClass, count) <= vm.cells.Keys
    ensures live == |LiveCells(vm.cells, vm.marks, CellsOf(page, sizeClass, count))|
  {
    hide CellAt, CellOffset, ClassSize, Live, CellsPerPage;
    live := 0;
    var index := 0;
    while index < count
      invariant 0 <= index <= count
      invariant live == |LiveCells(vm.cells, vm.marks, CellsOf(page, sizeClass, index))|
    {
      PageCell(vm, page, sizeClass, count, index);
      var cell := PageAddress(page) + PAGE_HEADER_SIZE + index * ClassSize(sizeClass);
      CountOneMore(vm.cells, vm.marks, CellsOf(page, sizeClass, index), cell);
      if vm.cells[cell].Object? && cell in vm.marks {
        live := live + 1;
      }
      index := index + 1;
    }
  }

  /** The storage at `cell` becomes a link of a free list. */
  method WriteFreeCell(vm: Vm, cell: nat, sizeClass: nat, next: nat)
    modifies vm`cells, vm`marks
    ensures vm.cells == old(vm.cells)[cell := FreeCell(sizeClass, next)] && vm.marks == old(vm.marks) - {cell}
  {
    vm.cells := vm.cells[cell := FreeCell(sizeClass, next)];
    vm.marks := vm.marks - {cell};
  }

  /** Afterwards no kept cell of the page is marked and the free list has exactly its other cells in front. */
  method LinkDeadCells(vm: Vm, page: nat, sizeClass: nat, count: nat)
    requires sizeClass < CLASS_COUNT == |vm.freeHeads| == |vm.cellLists|
    requires count <= CellsPerPage(sizeClass) && page > 0
    requires CellsOf(page, sizeClass, count) <= vm.cells.Keys
    requires Chained(vm.cells, vm.freeHeads[sizeClass], vm.cellLists[sizeClass])
    requires forall address | address in vm.cellLists[sizeClass] :: address !in CellsOf(page, sizeClass, count)
    modifies vm`cells, vm`marks, vm`freeHeads, vm`cellLists
    ensures |vm.freeHeads| == |vm.cellLists| == CLASS_COUNT
    ensures vm.freeHeads == old(vm.freeHeads)[sizeClass := vm.freeHeads[sizeClass]]
    ensures vm.cellLists == old(vm.cellLists)[sizeClass := vm.cellLists[sizeClass]]
    ensures Chained(vm.cells, vm.freeHeads[sizeClass], vm.cellLists[sizeClass])
    ensures CellsSwept(old(vm.cells), old(vm.marks), old(vm.cellLists)[sizeClass], CellsOf(page, sizeClass, count),
                       vm.cells, vm.marks, vm.cellLists[sizeClass])
  {
    hide CellAt, CellOffset, Chained, Live;
    ghost var cells, marks, list := vm.cells, vm.marks, vm.cellLists[sizeClass];
    ghost var grown: seq<nat> := list;
    var head: nat := vm.freeHeads[sizeClass];
    var index := 0;
    while index < count
      invariant 0 <= index <= count && Chained(vm.cells, head, grown)
      invariant vm.freeHeads == old(vm.freeHeads) && vm.cellLists == old(vm.cellLists)
      invariant CellsSwept(cells, marks, list, CellsOf(page, sizeClass, index), vm.cells, vm.marks, grown)
    {
      PageCell(vm, page, sizeClass, count, index);
      var cell := PageAddress(page) + PAGE_HEADER_SIZE + index * ClassSize(sizeClass);
      ghost var swept := CellsOf(page, sizeClass, index);
      LiveStays(cells, marks, list, swept, vm.cells, vm.marks, grown, cell);
      if vm.cells[cell].Object? && cell in vm.marks {
        SweptLive(cells, marks, list, swept, vm.cells, vm.marks, grown, cell);
        vm.marks := vm.marks - {cell};
      } else {
        SweptFree(cells, marks, list, swept, vm.cells, vm.marks, grown, cell, FreeCell(sizeClass, head));
        ChainPush(vm.cells, head, grown, cell, sizeClass);
        WriteFreeCell(vm, cell, sizeClass, head);
        head := cell;
        grown := [cell] + grown;
      }
      index := index + 1;
    }
    vm.freeHeads := vm.freeHeads[sizeClass := head];
    vm.cellLists := vm.cellLists[sizeClass := grown];
  }

  lemma LiveStays(
    cells: map<nat, Cell>, marks: set<nat>, list: seq<nat>, swept: set<nat>,
    cells': map<nat, Cell>, marks': set<nat>, list': seq<nat>, cell: nat)
    requires CellsSwept(cells, marks, list, swept, cells', marks', list') && cell in cells && cell !in swept
    ensures cell in cells' && (cells'[cell].Object? && cell in marks' <==> Live(cells, marks, cell))
  {}

  // ---- The runs swept so far ----

  /** The heap as marking left it. `kept` are the marked objects. */
  datatype Marked = Marked(runs: map<nat, Run>, cursors: seq<nat>, cells: map<nat, Cell>, marks: set<nat>,
                           kept: set<nat>)
  {
    ghost function Pages(): map<nat, Run> {
      Holders(runs)
    }

    ghost predicate HasKept(page: nat) {
      exists address :: address in kept && PageOf(address) == page
    }

    /** A cursor into a page that is given back ends. */
    ghost function CursorAfter(sizeClass: nat, page: nat): nat
      requires sizeClass < |cursors|
    {
      var cursor := cursors[sizeClass];
      if cursor != 0 && PageOf(cursor) < page && !HasKept(PageOf(cursor)) then 0 else cursor
    }

    ghost predicate Valid(low: nat, high: nat)
      ensures Valid(low, high) ==> |cursors| == CLASS_COUNT
    {
      && Tiles(runs, low, high)
      && CursorsValid(Pages(), cursors) && CellsValid(Pages(), cursors, cells)
      && kept == (set address | address in Objects(Pages(), cursors, cells) && address in marks)
    }

    lemma KeptPlace(low: nat, high: nat, address: nat)
      requires Valid(low, high) && IsCell(Pages(), cursors, address)
      ensures PageOf(address) in Pages() && low <= PageOf(address) < high && address in cells
    {
      CellPlace(Pages(), cursors, address);
      assert RunFits(runs, low, high, PageOf(address));
    }
  }

  /** Of the runs before `page`, those that hold something kept and the system's are still there. */
  ghost predicate PagesSwept(was: Marked, page: nat, runs: map<nat, Run>) {
    && (forall other | other in Holders(runs) ::
          other < page && other in was.Pages() && Holders(runs)[other] == was.Pages()[other] && was.HasKept(other))
    && (forall other | other in was.Pages() && other < page && was.HasKept(other) :: other in Holders(runs))
    && (forall other | other in was.runs && was.runs[other].kind.System? && other < page ::
          other in runs && runs[other] == was.runs[other])
  }

  ghost predicate CursorsSwept(was: Marked, page: nat, cursors: seq<nat>) {
    && |cursors| == |was.cursors| == CLASS_COUNT
    && forall sizeClass | 0 <= sizeClass < CLASS_COUNT :: cursors[sizeClass] == was.CursorAfter(sizeClass, page)
  }

  /** From `page` on cells are as marking left them; before it kept objects are unmarked and other cells free. */
  ghost predicate HeapSwept(was: Marked, page: nat, cells: map<nat, Cell>, marks: set<nat>)
    requires |was.cursors| == CLASS_COUNT
  {
    && cells.Keys == was.cells.Keys
    && (forall address | address in cells && page <= PageOf(address) ::
          cells[address] == was.cells[address] && (address in marks <==> address in was.marks))
    && (forall address | address in was.kept && address in cells && PageOf(address) < page ::
          cells[address] == was.cells[address] && address !in marks)
    && (forall address | address in cells && IsCell(was.Pages(), was.cursors, address) && PageOf(address) < page ::
          address in was.kept || cells[address].FreeCell? || !was.HasKept(PageOf(address)))
  }

  ghost predicate ListsSwept(
    pages: map<nat, Run>, cursors: seq<nat>, cells: map<nat, Cell>, heads: seq<nat>, lists: seq<seq<nat>>)
    requires |cursors| == CLASS_COUNT
  {
    && |heads| == |lists| == CLASS_COUNT
    && forall sizeClass | 0 <= sizeClass < CLASS_COUNT ::
         FreeCells(pages, cursors, cells, sizeClass, heads[sizeClass], lists[sizeClass])
  }

  lemma UsedAsBefore(was: Marked, page: nat, cursors: seq<nat>, other: nat, sizeClass: nat)
    requires CursorsSwept(was, page, cursors) && sizeClass < CLASS_COUNT
    requires was.HasKept(other) || page <= other
    ensures UsedCells(cursors, other, sizeClass) == UsedCells(was.cursors, other, sizeClass)
  {}

  lemma NextCursors(was: Marked, page: nat, next: nat, cursors: seq<nat>, low: nat, high: nat)
    requires was.Valid(low, high) && CursorsSwept(was, page, cursors) && page < next
    requires page in was.runs && RunEnd(was.runs, page) == next
    ensures was.HasKept(page) || page !in was.Pages() ==> CursorsSwept(was, next, cursors)
    ensures !was.HasKept(page) && page in was.Pages() ==>
              forall sizeClass | 0 <= sizeClass < CLASS_COUNT ::
                was.CursorAfter(sizeClass, next) ==
                if cursors[sizeClass] != 0 && PageOf(cursors[sizeClass]) == page then 0 else cursors[sizeClass]
  {
    forall sizeClass | 0 <= sizeClass < CLASS_COUNT
      ensures was.cursors[sizeClass] != 0 ==>
                PageOf(was.cursors[sizeClass]) in was.Pages()
                && (PageOf(was.cursors[sizeClass]) <= page || next <= PageOf(was.cursors[sizeClass]))
    {
      assert was.cursors[sizeClass] != 0 ==> CursorAt(was.Pages(), sizeClass, was.cursors[sizeClass]);
    }
  }

  /** No object lies strictly inside a run. */
  lemma NothingInside(was: Marked, low: nat, high: nat, page: nat, address: nat)
    requires was.Valid(low, high) && page in was.runs && IsCell(was.Pages(), was.cursors, address)
    ensures PageOf(address) <= page || RunEnd(was.runs, page) <= PageOf(address)
    ensures PageOf(address) == page ==> page in was.Pages()
  {
    CellPlace(was.Pages(), was.cursors, address);
  }

  /** Passing over a run that keeps nothing for objects. */
  lemma PassOver(was: Marked, low: nat, high: nat, page: nat, next: nat,
                 runs: map<nat, Run>, runs': map<nat, Run>, cells: map<nat, Cell>, marks: set<nat>)
    requires was.Valid(low, high) && PagesSwept(was, page, runs) && HeapSwept(was, page, cells, marks)
    requires page in was.runs && RunEnd(was.runs, page) == next && page < next
    requires page in was.Pages() ==> !was.HasKept(page)
    requires Holders(runs') == Holders(runs) && KeepsSystem(runs, runs')
    requires was.runs[page].kind.System? ==> page in runs' && runs'[page] == was.runs[page]
    ensures PagesSwept(was, next, runs') && HeapSwept(was, next, cells, marks)
  {
    PassPages(was, low, high, page, next, runs, runs');
    PassCells(was, low, high, page, next, cells, marks);
  }

  lemma PassPages(was: Marked, low: nat, high: nat, page: nat, next: nat, runs: map<nat, Run>, runs': map<nat, Run>)
    requires was.Valid(low, high) && PagesSwept(was, page, runs)
    requires page in was.runs && RunEnd(was.runs, page) == next && page < next
    requires page in was.Pages() ==> !was.HasKept(page)
    requires Holders(runs') == Holders(runs) && KeepsSystem(runs, runs')
    requires was.runs[page].kind.System? ==> page in runs' && runs'[page] == was.runs[page]
    ensures PagesSwept(was, next, runs')
  {
    hide CellsValid, CursorsValid, IsCell, AllFit, AllFollowed;
    forall other | other in was.runs
      ensures other <= page || next <= other
    {}
  }

  lemma PassCells(was: Marked, low: nat, high: nat, page: nat, next: nat, cells: map<nat, Cell>, marks: set<nat>)
    requires was.Valid(low, high) && HeapSwept(was, page, cells, marks)
    requires page in was.runs && RunEnd(was.runs, page) == next && page < next
    requires page in was.Pages() ==> !was.HasKept(page)
    ensures HeapSwept(was, next, cells, marks)
  {
    forall address | IsCell(was.Pages(), was.cursors, address)
      ensures PageOf(address) <= page || next <= PageOf(address)
      ensures PageOf(address) == page ==> page in was.Pages()
    {
      NothingInside(was, low, high, page, address);
    }
    assert forall address | address in was.kept :: IsCell(was.Pages(), was.cursors, address);
    hide Tiles, IsCell, CellsValid, CursorsValid;
  }

  /** Keeping a page or large run that holds kept objects. */
  lemma KeepRun(was: Marked, low: nat, high: nat, page: nat, next: nat, runs: map<nat, Run>)
    requires was.Valid(low, high) && PagesSwept(was, page, runs)
    requires page in was.Pages() && RunEnd(was.runs, page) == next && page < next && was.HasKept(page)
    requires page !in runs
    ensures PagesSwept(was, next, runs[page := was.Pages()[page]])
    ensures Holders(runs[page := was.Pages()[page]]) == Holders(runs)[page := was.Pages()[page]]
  {
    hide CellsValid, CursorsValid, IsCell, AllFit, AllFollowed;
    var kept := runs[page := was.Pages()[page]];
    assert Holders(kept) == Holders(runs)[page := was.Pages()[page]];
    forall other | other in was.runs
      ensures other <= page || next <= other
    {}
  }

  lemma KeepCells(was: Marked, low: nat, high: nat, page: nat, next: nat,
                  cells: map<nat, Cell>, marks: set<nat>, cells': map<nat, Cell>, marks': set<nat>)
    requires was.Valid(low, high) && HeapSwept(was, page, cells, marks)
    requires page in was.runs && RunEnd(was.runs, page) == next && page < next
    requires cells'.Keys == cells.Keys
    requires forall address | address in cells && PageOf(address) != page ::
               cells'[address] == cells[address] && (address in marks' <==> address in marks)
    requires forall address | address in was.kept && address in cells && PageOf(address) == page ::
               cells'[address] == cells[address] && address !in marks'
    requires forall address | address in cells && IsCell(was.Pages(), was.cursors, address)
        && PageOf(address) == page ::
               address in was.kept || cells'[address].FreeCell?
    ensures HeapSwept(was, next, cells', marks')
  {
    forall address | IsCell(was.Pages(), was.cursors, address)
      ensures PageOf(address) <= page || next <= PageOf(address)
    {
      NothingInside(was, low, high, page, address);
    }
    assert forall address | address in was.kept :: IsCell(was.Pages(), was.cursors, address);
    hide Tiles, IsCell, CellsValid, CursorsValid;
  }

  // ---- Free lists across a step ----

  lemma CellsOnPage(page: nat, sizeClass: nat, count: nat, address: nat)
    requires sizeClass < CLASS_COUNT && count <= CellsPerPage(sizeClass) && address in CellsOf(page, sizeClass, count)
    ensures PageOf(address) == page
  {
    var index := IndexOfCell(page, sizeClass, count, address);
    CellInPage(page, sizeClass, index);
  }

  lemma ListsPass(was: Marked, page: nat, next: nat, pages: map<nat, Run>, cursors: seq<nat>, cursors': seq<nat>,
                  cells: map<nat, Cell>, heads: seq<nat>, lists: seq<seq<nat>>)
    requires CursorsSwept(was, page, cursors) && CursorsSwept(was, next, cursors')
    requires ListsSwept(pages, cursors, cells, heads, lists)
    requires forall other | other in pages :: was.HasKept(other)
    ensures ListsSwept(pages, cursors', cells, heads, lists)
  {
    hide CellLinked, CellsOf, Distinct;
    forall sizeClass | 0 <= sizeClass < CLASS_COUNT
      ensures FreeCells(pages, cursors', cells, sizeClass, heads[sizeClass], lists[sizeClass])
    {
      forall address
        ensures IsClassCell(pages, cursors', sizeClass, address) <==> IsClassCell(pages, cursors, sizeClass, address)
      {
        if PageOf(address) in pages {
          UsedAsBefore(was, page, cursors, PageOf(address), sizeClass);
          UsedAsBefore(was, next, cursors', PageOf(address), sizeClass);
        }
      }
    }
  }

  lemma ListsKeepLarge(pages: map<nat, Run>, cursors: seq<nat>, cells: map<nat, Cell>, heads: seq<nat>,
                       lists: seq<seq<nat>>, page: nat, run: Run)
    requires |cursors| == CLASS_COUNT && ListsSwept(pages, cursors, cells, heads, lists)
    requires page !in pages && run.kind.Large?
    ensures ListsSwept(pages[page := run], cursors, cells, heads, lists)
  {
    hide CellLinked, CellsOf, Distinct, UsedCells;
    forall sizeClass | 0 <= sizeClass < CLASS_COUNT
      ensures FreeCells(pages[page := run], cursors, cells, sizeClass, heads[sizeClass], lists[sizeClass])
    {
      assert forall address ::
          IsClassCell(pages[page := run], cursors, sizeClass, address) <==>
            IsClassCell(pages, cursors, sizeClass, address);
    }
  }

  lemma ListsKeepClass(pages: map<nat, Run>, cursors: seq<nat>, cells: map<nat, Cell>, marks: set<nat>,
                       heads: seq<nat>, lists: seq<seq<nat>>, page: nat, sizeClass: nat,
                       cells': map<nat, Cell>, marks': set<nat>, heads': seq<nat>, lists': seq<seq<nat>>)
    requires sizeClass < CLASS_COUNT == |cursors| && ListsSwept(pages, cursors, cells, heads, lists)
    requires page !in pages && UsedCells(cursors, page, sizeClass) <= CellsPerPage(sizeClass)
    requires CellsOf(page, sizeClass, UsedCells(cursors, page, sizeClass)) <= cells.Keys
    requires |heads'| == |lists'| == CLASS_COUNT
    requires heads' == heads[sizeClass := heads'[sizeClass]] && lists' == lists[sizeClass := lists'[sizeClass]]
    requires Chained(cells', heads'[sizeClass], lists'[sizeClass])
    requires CellsSwept(cells, marks, lists[sizeClass], CellsOf(page, sizeClass, UsedCells(cursors, page, sizeClass)),
                        cells', marks', lists'[sizeClass])
    ensures ListsSwept(pages[page := Run(Class, 1, sizeClass)], cursors, cells', heads', lists')
  {
    var pages' := pages[page := Run(Class, 1, sizeClass)];
    var swept := CellsOf(page, sizeClass, UsedCells(cursors, page, sizeClass));
    forall address | address in swept ensures PageOf(address) == page {
      CellsOnPage(page, sizeClass, UsedCells(cursors, page, sizeClass), address);
    }
    forall other | 0 <= other < CLASS_COUNT
      ensures FreeCells(pages', cursors, cells', other, heads'[other], lists'[other])
    {
      if other == sizeClass {
        ListGrown(pages, cursors, cells, marks, heads, lists, page, sizeClass, cells', marks', lists'[sizeClass]);
      } else {
        OtherListKept(pages, cursors, cells, heads[other], lists[other], page, sizeClass, other, cells', swept);
      }
    }
  }

  lemma ListGrown(pages: map<nat, Run>, cursors: seq<nat>, cells: map<nat, Cell>, marks: set<nat>,
                  heads: seq<nat>, lists: seq<seq<nat>>, page: nat, sizeClass: nat,
                  cells': map<nat, Cell>, marks': set<nat>, list': seq<nat>)
    requires sizeClass < CLASS_COUNT == |cursors| && ListsSwept(pages, cursors, cells, heads, lists)
    requires page !in pages
    requires var swept := CellsOf(page, sizeClass, UsedCells(cursors, page, sizeClass));
             && swept <= cells.Keys && (forall address | address in swept :: PageOf(address) == page)
             && CellsSwept(cells, marks, lists[sizeClass], swept, cells', marks', list')
    ensures forall address ::
              address in list' <==>
              IsClassCell(pages[page := Run(Class, 1, sizeClass)], cursors, sizeClass, address) && address in cells'
              && cells'[address].FreeCell?
  {
    hide CellLinked, Distinct, UsedCells;
    assert FreeCells(pages, cursors, cells, sizeClass, heads[sizeClass], lists[sizeClass]);
  }

  lemma OtherListKept(pages: map<nat, Run>, cursors: seq<nat>, cells: map<nat, Cell>, head: nat, list: seq<nat>,
                      page: nat, sizeClass: nat, other: nat, cells': map<nat, Cell>, swept: set<nat>)
    requires sizeClass < CLASS_COUNT == |cursors| && other < CLASS_COUNT && other != sizeClass && page !in pages
    requires FreeCells(pages, cursors, cells, other, head, list)
    requires cells'.Keys == cells.Keys
    requires forall address | address in cells && address !in swept :: cells'[address] == cells[address]
    requires forall address | address in swept :: PageOf(address) == page
    ensures FreeCells(pages[page := Run(Class, 1, sizeClass)], cursors, cells', other, head, list)
  {
    hide UsedCells;
    forall i {:trigger CellLinked(cells', list, i)} | 0 <= i < |list|
      ensures CellLinked(cells', list, i)
    {
      assert CellLinked(cells, list, i) && list[i] in list;
    }
  }

  // ---- One class page, in the heap ----

  /** The live cells of a class page are its kept objects. */
  lemma LiveIsKept(was: Marked, low: nat, high: nat, page: nat, cells: map<nat, Cell>, marks: set<nat>)
    requires was.Valid(low, high) && HeapSwept(was, page, cells, marks)
    requires page in was.Pages() && was.Pages()[page].kind.Class? && was.Pages()[page].detail < CLASS_COUNT
    ensures
      var sizeClass := was.Pages()[page].detail;
      var used := CellsOf(page, sizeClass, UsedCells(was.cursors, page, sizeClass));
      && used <= cells.Keys
      && UsedCells(was.cursors, page, sizeClass) <= CellsPerPage(sizeClass)
      && (forall address | address in used ::
            PageOf(address) == page && (Live(cells, marks, address) <==> address in was.kept))
      && (forall address | IsCell(was.Pages(), was.cursors, address) && PageOf(address) == page :: address in used)
      && LiveCells(cells, marks, used) == (set address | address in was.kept && PageOf(address) == page)
  {
    var sizeClass := was.Pages()[page].detail;
    UsedCellsBounded(was.Pages(), was.cursors, page, sizeClass);
    var used := CellsOf(page, sizeClass, UsedCells(was.cursors, page, sizeClass));
    forall address | address in used
      ensures PageOf(address) == page && IsCell(was.Pages(), was.cursors, address)
    {
      CellsOnPage(page, sizeClass, UsedCells(was.cursors, page, sizeClass), address);
    }
  }

  /** Takes a class page into the swept part. `live` counts what it keeps; when that is nothing, it is given back. */
  method SweepClassPage(vm: Vm, page: nat, sizeClass: nat, ghost was: Marked) returns (live: nat)
    requires was.Valid(vm.heapStart, vm.heapEnd) && page in was.Pages() && was.Pages()[page] == Run(Class, 1, sizeClass)
    requires page !in vm.runs && RunEnd(was.runs, page) == page + 1 && page in was.runs
    requires PagesSwept(was, page, vm.runs) && CursorsSwept(was, page, vm.classCursors)
    requires HeapSwept(was, page, vm.cells, vm.marks)
    requires ListsSwept(Holders(vm.runs), vm.classCursors, vm.cells, vm.freeHeads, vm.cellLists)
    requires sizeClass < CLASS_COUNT && page > 0
    modifies vm`cells, vm`marks, vm`freeHeads, vm`cellLists, vm`classCursors
    ensures live == |set address | address in was.kept && PageOf(address) == page|
    ensures live == 0 <==> !was.HasKept(page)
    ensures CursorsSwept(was, page + 1, vm.classCursors)
    ensures live == 0 ==> HeapSwept(was, page, vm.cells, vm.marks)
    ensures live == 0 ==> ListsSwept(Holders(vm.runs), vm.classCursors, vm.cells, vm.freeHeads, vm.cellLists)
    ensures live != 0 ==> HeapSwept(was, page + 1, vm.cells, vm.marks)
    ensures live != 0 ==>
              ListsSwept(Holders(vm.runs)[page := was.Pages()[page]], vm.classCursors, vm.cells, vm.freeHeads,
                vm.cellLists)
  {
    hide Marked.Valid, CellsOf, UsedCells, LiveCells, PagesSwept, HeapSwept, CursorsSwept, ListsSwept, Holders;
    hide Marked.Pages, Marked.HasKept, RunEnd;
    LiveIsKept(was, vm.heapStart, vm.heapEnd, page, vm.cells, vm.marks);
    CursorsSame(was, page, vm.classCursors, sizeClass);
    NextCursors(was, page, page + 1, vm.classCursors, vm.heapStart, vm.heapEnd);
    var count := UsedCells(vm.classCursors, page, sizeClass);
    live := CountLive(vm, page, sizeClass, count);
    CountsKept(was, page);
    if live == 0 {
      ghost var before := vm.classCursors;
      var cursor := vm.classCursors[sizeClass];
      if cursor != 0 && PageOf(cursor) == page {
        vm.classCursors := vm.classCursors[sizeClass := 0];
      }
      CursorEnds(was, page, before, vm.classCursors, sizeClass, vm.heapStart, vm.heapEnd);
      AllKept(was, page, vm.runs);
      ListsPass(was, page, page + 1, Holders(vm.runs), before, vm.classCursors, vm.cells, vm.freeHeads, vm.cellLists);
    } else {
      KeepClassPage(vm, page, sizeClass, count, was);
    }
  }

  lemma CountsKept(was: Marked, page: nat)
    ensures |set address | address in was.kept && PageOf(address) == page| == 0 <==> !was.HasKept(page)
  {
    var here := set address | address in was.kept && PageOf(address) == page;
    if was.HasKept(page) {
      var address :| address in was.kept && PageOf(address) == page;
      assert address in here;
    } else {
      assert here == {};
    }
  }

  lemma CursorsSame(was: Marked, page: nat, cursors: seq<nat>, sizeClass: nat)
    requires CursorsSwept(was, page, cursors) && sizeClass < CLASS_COUNT
    ensures |cursors| == |was.cursors| == CLASS_COUNT
    ensures UsedCells(cursors, page, sizeClass) == UsedCells(was.cursors, page, sizeClass)
  {}

  lemma AllKept(was: Marked, page: nat, runs: map<nat, Run>)
    requires PagesSwept(was, page, runs)
    ensures forall other | other in Holders(runs) :: was.HasKept(other) && other < page
  {}

  lemma CursorEnds(was: Marked, page: nat, cursors: seq<nat>, cursors': seq<nat>, sizeClass: nat, low: nat, high: nat)
    requires was.Valid(low, high) && CursorsSwept(was, page, cursors) && sizeClass < CLASS_COUNT
    requires page in was.Pages() && was.Pages()[page] == Run(Class, 1, sizeClass) && page in was.runs
    requires !was.HasKept(page)
    requires cursors' == if cursors[sizeClass] != 0 && PageOf(cursors[sizeClass]) == page then cursors[sizeClass := 0]
        else cursors
    ensures CursorsSwept(was, page + 1, cursors')
  {
    NextCursors(was, page, page + 1, cursors, low, high);
    forall other | 0 <= other < CLASS_COUNT && other != sizeClass && cursors[other] != 0
      ensures PageOf(cursors[other]) != page
    {
      assert CursorAt(was.Pages(), other, was.cursors[other]);
    }
  }

  method KeepClassPage(vm: Vm, page: nat, sizeClass: nat, count: nat, ghost was: Marked)
    requires was.Valid(vm.heapStart, vm.heapEnd) && page in was.Pages() && was.Pages()[page] == Run(Class, 1, sizeClass)
    requires page !in vm.runs && RunEnd(was.runs, page) == page + 1 && page in was.runs
    requires PagesSwept(was, page, vm.runs) && CursorsSwept(was, page, vm.classCursors)
    requires HeapSwept(was, page, vm.cells, vm.marks) && was.HasKept(page)
    requires ListsSwept(Holders(vm.runs), vm.classCursors, vm.cells, vm.freeHeads, vm.cellLists)
    requires sizeClass < CLASS_COUNT && page > 0 && count == UsedCells(vm.classCursors, page, sizeClass)
    modifies vm`cells, vm`marks, vm`freeHeads, vm`cellLists
    ensures HeapSwept(was, page + 1, vm.cells, vm.marks)
    ensures ListsSwept(Holders(vm.runs)[page := was.Pages()[page]], vm.classCursors, vm.cells, vm.freeHeads,
        vm.cellLists)
  {
    hide Marked.Valid, CellsOf, UsedCells, LiveCells, PagesSwept, HeapSwept, CursorsSwept, ListsSwept, Holders;
    hide Marked.Pages, Marked.HasKept, RunEnd, CellsSwept, Chained;
    LiveIsKept(was, vm.heapStart, vm.heapEnd, page, vm.cells, vm.marks);
    CursorsSame(was, page, vm.classCursors, sizeClass);
    NotYetListed(Holders(vm.runs), vm.classCursors, vm.cells, vm.freeHeads, vm.cellLists, sizeClass, page, vm.runs);
    ghost var cells, marks, heads, lists := vm.cells, vm.marks, vm.freeHeads, vm.cellLists;
    LinkDeadCells(vm, page, sizeClass, count);
    ListsKeepClass(Holders(vm.runs), vm.classCursors, cells, marks, heads, lists, page, sizeClass,
                   vm.cells, vm.marks, vm.freeHeads, vm.cellLists);
    ClassCellsKept(was, vm.heapStart, vm.heapEnd, page, sizeClass, cells, marks, lists[sizeClass],
                   vm.cells, vm.marks, vm.cellLists[sizeClass]);
  }

  lemma NotYetListed(pages: map<nat, Run>, cursors: seq<nat>, cells: map<nat, Cell>, heads: seq<nat>,
                     lists: seq<seq<nat>>, sizeClass: nat, page: nat, runs: map<nat, Run>)
    requires |cursors| == CLASS_COUNT && sizeClass < CLASS_COUNT && ListsSwept(pages, cursors, cells, heads, lists)
    requires pages == Holders(runs) && page !in runs
    ensures |heads| == |lists| == CLASS_COUNT
    ensures Chained(cells, heads[sizeClass], lists[sizeClass])
    ensures page !in pages
    ensures forall address | address in lists[sizeClass] :: PageOf(address) != page
  {
    hide CellLinked, Distinct;
    assert FreeCells(pages, cursors, cells, sizeClass, heads[sizeClass], lists[sizeClass]);
  }

  lemma ClassCellsKept(was: Marked, low: nat, high: nat, page: nat, sizeClass: nat,
                       cells: map<nat, Cell>, marks: set<nat>, list: seq<nat>,
                       cells': map<nat, Cell>, marks': set<nat>, list': seq<nat>)
    requires was.Valid(low, high) && HeapSwept(was, page, cells, marks) && sizeClass < CLASS_COUNT
    requires page in was.Pages() && was.Pages()[page] == Run(Class, 1, sizeClass)
    requires page in was.runs && RunEnd(was.runs, page) == page + 1
    requires CellsSwept(cells, marks, list, CellsOf(page, sizeClass, UsedCells(was.cursors, page, sizeClass)), cells',
        marks', list')
    ensures HeapSwept(was, page + 1, cells', marks')
  {
    hide Marked.Valid, CellsOf, UsedCells, HeapSwept, Holders, Marked.Pages, IsCell, RunEnd;
    LiveIsKept(was, low, high, page, cells, marks);
    var swept := CellsOf(page, sizeClass, UsedCells(was.cursors, page, sizeClass));
    forall address | address in was.kept && PageOf(address) == page
      ensures address in swept
    {
      KeptIsCell(was, low, high, address);
    }
    KeepCells(was, low, high, page, page + 1, cells, marks, cells', marks');
  }

  lemma KeptIsCell(was: Marked, low: nat, high: nat, address: nat)
    requires was.Valid(low, high) && address in was.kept
    ensures |was.cursors| == CLASS_COUNT && IsCell(was.Pages(), was.cursors, address)
  {}

  // ---- Adjacent free pages ----

  ghost predicate UsedAfter(runs: map<nat, Run>, page: nat)
    requires page in runs
  {
    RunEnd(runs, page) in runs && !runs[RunEnd(runs, page)].kind.Free?
  }

  /** Every free run is followed by a run in use. */
  ghost predicate Separated(runs: map<nat, Run>) {
    forall page {:trigger UsedAfter(runs, page)} | page in runs && runs[page].kind.Free? :: UsedAfter(runs, page)
  }

  /** Every free run ends at `edge` or is followed by a run in use. */
  ghost predicate SeparatedTo(runs: map<nat, Run>, edge: nat) {
    forall page {:trigger UsedAfter(runs, page)} | page in runs && runs[page].kind.Free? ::
      RunEnd(runs, page) == edge || UsedAfter(runs, page)
  }

  /** No free run is followed by another. */
  ghost predicate NoAdjacentFree(runs: map<nat, Run>) {
    forall page, next | page in runs && next in runs && runs[page].kind.Free? && RunEnd(runs, page) == next ::
      !runs[next].kind.Free?
  }

  /** The headers from `page` on are as marking left them. */
  ghost predicate Unswept(was: map<nat, Run>, page: nat, headers: map<nat, Run>) {
    forall other | other in was && page <= other ::
      && other in headers && headers[other].kind == was[other].kind && headers[other].pages == was[other].pages
      && (was[other].kind.Free? || headers[other] == was[other])
  }

  /** The pages swept up to `edge`; what lies between it and `page` is free and not yet listed. */
  ghost predicate Rebuilt(headers: map<nat, Run>, runs: map<nat, Run>, low: nat, edge: nat, head: nat, list: seq<nat>) {
    RunsValid(headers, runs, low, edge, head, list) && Separated(runs)
  }

  /** Listing the pending free pages `start..page`, then a run in use at `page`. */
  lemma AppendUsed(headers: map<nat, Run>, runs: map<nat, Run>, low: nat, page: nat, head: nat, list: seq<nat>,
                   run: Run)
    requires RunsValid(headers, runs, low, page, head, list) && !run.kind.Free? && run.pages > 0
    requires run.kind.Class? ==> run.pages == 1 && run.detail < CLASS_COUNT
    requires page in headers && headers[page] == run
    requires SeparatedTo(runs, page)
    ensures Rebuilt(headers, runs[page := run], low, page + run.pages, head, list)
    ensures page !in runs
  {
    AppendTiles(runs, low, page, run);
    AppendStored(headers, runs, head, list, page, run);
    assert headers[page := run] == headers;
    var appended := runs[page := run];
    forall other {:trigger UsedAfter(appended, other)} | other in appended && appended[other].kind.Free?
      ensures UsedAfter(appended, other)
    {
      assert RunEnd(runs, other) == page || UsedAfter(runs, other);
    }
  }

  lemma AppendFree(headers: map<nat, Run>, runs: map<nat, Run>, low: nat, start: nat, pages: nat, head: nat,
                   list: seq<nat>)
    requires Rebuilt(headers, runs, low, start, head, list) && pages > 0
    ensures start !in runs
    ensures var run := Run(Free, pages, 0);
            var appended := runs[start := run];
            && RunsValid(headers[start := Run(Free, pages, head)], appended, low, start + pages, start, [start] + list)
            && SeparatedTo(appended, start + pages)
            && Holders(appended) == Holders(runs) && KeepsSystem(runs, appended)
  {
    hide AllFit, AllFollowed, Apart, FreeRuns, Stored;
    var run := Run(Free, pages, 0);
    AppendTiles(runs, low, start, run);
    ReleaseListed(headers, runs, head, list, start, pages);
    var appended := runs[start := run];
    forall other {:trigger UsedAfter(appended, other)} | other in appended && appended[other].kind.Free?
      ensures RunEnd(appended, other) == start + pages || UsedAfter(appended, other)
    {
      if other != start { assert UsedAfter(runs, other); }
    }
  }

  lemma RebuiltSeparated(headers: map<nat, Run>, runs: map<nat, Run>, low: nat, edge: nat, head: nat, list: seq<nat>)
    requires Rebuilt(headers, runs, low, edge, head, list)
    ensures RunsValid(headers, runs, low, edge, head, list) && NoAdjacentFree(runs)
    ensures SeparatedTo(runs, edge)
  {
    forall page, next | page in runs && next in runs && runs[page].kind.Free? && RunEnd(runs, page) == next
      ensures !runs[next].kind.Free?
    {
      assert UsedAfter(runs, page);
    }
  }

  lemma AtEndSeparated(runs: map<nat, Run>, low: nat, high: nat)
    requires Tiles(runs, low, high)
    requires SeparatedTo(runs, high)
    ensures NoAdjacentFree(runs)
  {
    forall page, next | page in runs && next in runs && runs[page].kind.Free? && RunEnd(runs, page) == next
      ensures !runs[next].kind.Free?
    {
      assert RunFits(runs, low, high, next);
      assert RunEnd(runs, page) == high || UsedAfter(runs, page);
    }
  }

  /** The free pages right before the current one, which no list holds yet. */
  class FreePages {
    var start: nat
    var pages: nat

    constructor ()
      ensures start == 0 && pages == 0
    {
      start, pages := 0, 0;
    }

    /** Where the listed pages end when the sweep stands at `page`. */
    ghost function Edge(page: nat): nat
      reads this
    {
      if pages > 0 then start else page
    }

    ghost predicate Pending(page: nat)
      reads this
    {
      pages > 0 ==> start + pages == page
    }

    /** Takes a free run into the pending pages, after flushing those it does not adjoin. */
    method Add(vm: Vm, page: nat, count: nat)
      requires Pending(page) && count > 0
      modifies this, vm`headers, vm`freeRuns, vm`freeList, vm`runs
      ensures Pending(page + count) && pages > 0 && Edge(page + count) == old(Edge(page))
      ensures vm.headers == old(vm.headers) && vm.freeRuns == old(vm.freeRuns)
      ensures vm.freeList == old(vm.freeList) && vm.runs == old(vm.runs)
    {
      if pages > 0 && start + pages == page {
        pages := pages + count;
        return;
      }
      Flush(vm);
      start := page;
      pages := count;
    }

    /** Turns the pending pages into one listed free run. */
    method Flush(vm: Vm)
      modifies this, vm`headers, vm`freeRuns, vm`freeList, vm`runs
      ensures pages == 0
      ensures old(pages) == 0 ==>
                && vm.headers == old(vm.headers) && vm.freeRuns == old(vm.freeRuns)
                && vm.freeList == old(vm.freeList) && vm.runs == old(vm.runs)
      ensures old(pages) > 0 ==>
                && vm.headers == old(vm.headers)[old(start) := Run(Free, old(pages), old(vm.freeRuns))]
                && vm.freeRuns == old(start) && vm.freeList == [old(start)] + old(vm.freeList)
                && vm.runs == old(vm.runs)[old(start) := Run(Free, old(pages), 0)]
    {
      if pages > 0 {
        ReleaseRun(vm, start, pages);
        pages := 0;
      }
    }
  }

  /** Lists the pending free pages, if any. */
  method FlushPending(vm: Vm, free: FreePages, page: nat)
    requires free.Pending(page)
    requires Rebuilt(vm.headers, vm.runs, vm.heapStart, free.Edge(page), vm.freeRuns, vm.freeList)
    modifies free, vm`headers, vm`freeRuns, vm`freeList, vm`runs
    ensures free.pages == 0
    ensures RunsValid(vm.headers, vm.runs, vm.heapStart, page, vm.freeRuns, vm.freeList)
    ensures SeparatedTo(vm.runs, page)
    ensures Holders(vm.runs) == Holders(old(vm.runs)) && KeepsSystem(old(vm.runs), vm.runs)
    ensures forall other | other in old(vm.headers) && page <= other ::
              other in vm.headers && vm.headers[other] == old(vm.headers)[other]
  {
    hide RunsValid, Rebuilt, Holders, SeparatedTo;
    if free.pages > 0 {
      AppendFree(vm.headers, vm.runs, vm.heapStart, free.start, free.pages, vm.freeRuns, vm.freeList);
    } else {
      RebuiltSeparated(vm.headers, vm.runs, vm.heapStart, page, vm.freeRuns, vm.freeList);
    }
    free.Flush(vm);
  }

  // ---- The whole sweep ----

  ghost predicate InSweep(vm: Vm, free: FreePages, was: Marked, page: nat)
    reads vm, free
    ensures InSweep(vm, free, was, page) ==> |was.cursors| == CLASS_COUNT
  {
    && was.Valid(vm.heapStart, vm.heapEnd)
    && page <= vm.heapEnd && (page == vm.heapEnd || page in was.runs)
    && free.Pending(page)
    && Rebuilt(vm.headers, vm.runs, vm.heapStart, free.Edge(page), vm.freeRuns, vm.freeList)
    && PagesSwept(was, page, vm.runs) && CursorsSwept(was, page, vm.classCursors)
    && HeapSwept(was, page, vm.cells, vm.marks)
    && ListsSwept(Holders(vm.runs), vm.classCursors, vm.cells, vm.freeHeads, vm.cellLists)
    && Unswept(was.runs, page, vm.headers)
  }

  /** The run the sweep stands at. */
  lemma RunToSweep(vm: Vm, free: FreePages, was: Marked, page: nat)
    requires InSweep(vm, free, was, page) && page < vm.heapEnd
    ensures page > 0 && page in was.runs && page in vm.headers && page !in vm.runs
    ensures vm.headers[page].kind == was.runs[page].kind && vm.headers[page].pages == was.runs[page].pages > 0
    ensures !was.runs[page].kind.Free? ==> vm.headers[page] == was.runs[page]
    ensures was.runs[page].kind.Class? ==>
              vm.headers[page] == Run(Class, 1, vm.headers[page].detail) && vm.headers[page].detail < CLASS_COUNT
    ensures page in was.Pages() <==> was.runs[page].kind.Class? || was.runs[page].kind.Large?
    ensures page in was.Pages() ==> was.Pages()[page] == was.runs[page]
    ensures RunEnd(was.runs, page) == page + was.runs[page].pages
    ensures page + was.runs[page].pages <= vm.heapEnd
    ensures page + was.runs[page].pages == vm.heapEnd || page + was.runs[page].pages in was.runs
  {
    hide CellsValid, CursorsValid, CursorsSwept, HeapSwept, ListsSwept, FreeRuns;
    assert RunFits(was.runs, vm.heapStart, vm.heapEnd, page) && Followed(was.runs, vm.heapEnd, page);
    assert forall other | other in vm.runs :: RunFits(vm.runs, vm.heapStart, free.Edge(page), other);
  }

  lemma UnsweptOn(was: map<nat, Run>, page: nat, next: nat, headers: map<nat, Run>, headers': map<nat, Run>)
    requires Unswept(was, page, headers) && page < next
    requires forall other | other in headers && page < other :: other in headers' && headers'[other] == headers[other]
    ensures Unswept(was, next, headers')
  {}

  /** Free pages at `page` join the pending ones. */
  method SweepFree(vm: Vm, free: FreePages, page: nat, pages: nat, ghost was: Marked)
    requires was.Valid(vm.heapStart, vm.heapEnd) && page < vm.heapEnd && page in was.runs
    requires pages == was.runs[page].pages > 0
    requires free.Pending(page) && RunEnd(was.runs, page) == page + pages
    requires page + pages <= vm.heapEnd && (page + pages == vm.heapEnd || page + pages in was.runs)
    requires Rebuilt(vm.headers, vm.runs, vm.heapStart, free.Edge(page), vm.freeRuns, vm.freeList)
    requires PagesSwept(was, page, vm.runs) && CursorsSwept(was, page + pages, vm.classCursors)
    requires HeapSwept(was, page, vm.cells, vm.marks)
    requires ListsSwept(Holders(vm.runs), vm.classCursors, vm.cells, vm.freeHeads, vm.cellLists)
    requires Unswept(was.runs, page, vm.headers)
    requires was.runs[page].kind.Free? || (page in was.Pages() && !was.HasKept(page))
    modifies free, vm`headers, vm`freeRuns, vm`freeList, vm`runs
    ensures InSweep(vm, free, was, page + pages) && free.pages > 0
    ensures vm.runs == old(vm.runs)
  {
    hide Marked.Valid, Rebuilt, PagesSwept, CursorsSwept, HeapSwept, ListsSwept, Holders, Unswept, KeepsSystem, RunEnd;
    hide Marked.HasKept, Marked.Pages;
    FreeIsNoHolder(was, page, vm.runs);
    PassOver(was, vm.heapStart, vm.heapEnd, page, page + pages, vm.runs, vm.runs, vm.cells, vm.marks);
    UnsweptOn(was.runs, page, page + pages, vm.headers, vm.headers);
    free.Add(vm, page, pages);
  }

  lemma FreeIsNoHolder(was: Marked, page: nat, runs: map<nat, Run>)
    ensures page in was.Pages() ==> page in was.runs && !was.runs[page].kind.Free? && !was.runs[page].kind.System?
    ensures KeepsSystem(runs, runs)
  {}

  /** A run in use at `page` stays, behind the pending free pages. */
  method SweepUsed(vm: Vm, free: FreePages, page: nat, run: Run, ghost was: Marked)
    returns (ghost before: map<nat, Run>)
    requires free.Pending(page) && page in vm.headers && vm.headers[page] == run && !run.kind.Free? && run.pages > 0
    requires run.kind.Class? ==> run.pages == 1 && run.detail < CLASS_COUNT
    requires Rebuilt(vm.headers, vm.runs, vm.heapStart, free.Edge(page), vm.freeRuns, vm.freeList)
    requires Unswept(was.runs, page, vm.headers) && page !in vm.runs
    modifies free, vm`headers, vm`freeRuns, vm`freeList, vm`runs
    ensures free.pages == 0
    ensures Rebuilt(vm.headers, vm.runs, vm.heapStart, page + run.pages, vm.freeRuns, vm.freeList)
    ensures Unswept(was.runs, page + run.pages, vm.headers)
    ensures Holders(before) == Holders(old(vm.runs)) && KeepsSystem(old(vm.runs), before)
    ensures page !in before && vm.runs == before[page := run]
  {
    hide Rebuilt, RunsValid, Holders, Unswept, SeparatedTo, KeepsSystem;
    ghost var headers := vm.headers;
    FlushPending(vm, free, page);
    UnsweptOn(was.runs, page, page + run.pages, headers, vm.headers);
    AppendUsed(vm.headers, vm.runs, vm.heapStart, page, vm.freeRuns, vm.freeList, run);
    before := vm.runs;
    vm.runs := vm.runs[page := run];
  }

  lemma PagesSweptThrough(was: Marked, page: nat, runs: map<nat, Run>, runs': map<nat, Run>)
    requires PagesSwept(was, page, runs) && Holders(runs') == Holders(runs) && KeepsSystem(runs, runs')
    ensures PagesSwept(was, page, runs')
  {}

  /** A system run stays as it is. */
  method SweepSystem(vm: Vm, free: FreePages, page: nat, ghost was: Marked)
    requires InSweep(vm, free, was, page) && page < vm.heapEnd && page in was.runs && was.runs[page].kind.System?
    modifies free, vm`headers, vm`freeRuns, vm`freeList, vm`runs
    ensures InSweep(vm, free, was, page + was.runs[page].pages)
  {
    hide Marked.Valid, Rebuilt, RunsValid, PagesSwept, CursorsSwept, HeapSwept, ListsSwept, Holders, Unswept;
    hide KeepsSystem, RunEnd, Marked.HasKept, Marked.Pages;
    RunToSweep(vm, free, was, page);
    var run := vm.headers[page];
    ghost var runs := vm.runs;
    ghost var before := SweepUsed(vm, free, page, run, was);
    SystemKept(runs, before, page, run);
    PassOver(was, vm.heapStart, vm.heapEnd, page, page + run.pages, runs, vm.runs, vm.cells, vm.marks);
    NextCursors(was, page, page + run.pages, vm.classCursors, vm.heapStart, vm.heapEnd);
  }

  lemma SystemKept(runs: map<nat, Run>, before: map<nat, Run>, page: nat, run: Run)
    requires Holders(before) == Holders(runs) && KeepsSystem(runs, before) && page !in before && run.kind.System?
    requires page !in runs
    ensures Holders(before[page := run]) == Holders(runs) && KeepsSystem(runs, before[page := run])
  {}

  /** A large object that is not marked gives its pages back; one that is loses its mark. Returns its live bytes. */
  method SweepLarge(vm: Vm, free: FreePages, page: nat, ghost was: Marked) returns (bytes: nat)
    requires InSweep(vm, free, was, page) && page < vm.heapEnd && page in was.runs && was.runs[page].kind.Large?
    modifies free, vm`headers, vm`freeRuns, vm`freeList, vm`runs, vm`marks
    ensures InSweep(vm, free, was, page + was.runs[page].pages)
    ensures bytes == if was.HasKept(page) then PageAddress(was.runs[page].pages) else 0
  {
    hide Marked.Valid, Rebuilt, RunsValid, PagesSwept, CursorsSwept, HeapSwept, ListsSwept, Holders, Unswept;
    hide KeepsSystem, RunEnd, Marked.HasKept, Marked.Pages;
    RunToSweep(vm, free, was, page);
    var run := vm.headers[page];
    var large := PageAddress(page) + PAGE_HEADER_SIZE;
    LargeKept(was, vm.heapStart, vm.heapEnd, page, vm.cells, vm.marks);
    NoLargeCursor(was, page, page + run.pages, vm.classCursors, vm.heapStart, vm.heapEnd);
    if large in vm.marks {
      ghost var runs, marks := vm.runs, vm.marks;
      vm.marks := vm.marks - {large};
      ghost var before := SweepUsed(vm, free, page, run, was);
      PagesSweptThrough(was, page, runs, before);
      KeepRun(was, vm.heapStart, vm.heapEnd, page, page + run.pages, before);
      KeepCells(was, vm.heapStart, vm.heapEnd, page, page + run.pages, vm.cells, marks, vm.cells, vm.marks);
      NotHolder(runs, page);
      ListsKeepLarge(Holders(runs), vm.classCursors, vm.cells, vm.freeHeads, vm.cellLists, page, run);
      bytes := PageAddress(run.pages);
    } else {
      SweepFree(vm, free, page, run.pages, was);
      bytes := 0;
    }
  }

  /** Cursors point into class pages only. */
  lemma NoLargeCursor(was: Marked, page: nat, next: nat, cursors: seq<nat>, low: nat, high: nat)
    requires was.Valid(low, high) && CursorsSwept(was, page, cursors) && page < next
    requires page in was.Pages() && was.Pages()[page].kind.Large? && page in was.runs && RunEnd(was.runs, page) == next
    ensures CursorsSwept(was, next, cursors)
  {
    NextCursors(was, page, next, cursors, low, high);
    forall sizeClass | 0 <= sizeClass < CLASS_COUNT && cursors[sizeClass] != 0
      ensures PageOf(cursors[sizeClass]) != page
    {
      assert CursorAt(was.Pages(), sizeClass, was.cursors[sizeClass]);
    }
  }

  lemma NotHolder(runs: map<nat, Run>, page: nat)
    requires page !in runs
    ensures page !in Holders(runs)
  {}

  lemma LargeKept(was: Marked, low: nat, high: nat, page: nat, cells: map<nat, Cell>, marks: set<nat>)
    requires was.Valid(low, high) && HeapSwept(was, page, cells, marks)
    requires page in was.Pages() && was.Pages()[page].kind.Large?
    ensures
      var large := PageAddress(page) + PAGE_HEADER_SIZE;
      && PageOf(large) == page && (large in marks <==> was.HasKept(page))
      && (forall address | IsCell(was.Pages(), was.cursors, address) && PageOf(address) == page :: address == large)
      && (forall address | address in was.kept && PageOf(address) == page :: address == large)
      && (was.HasKept(page) ==> large in was.kept)
  {
    hide CellsOf, UsedCells, Tiles, CursorsValid;
    var large := PageAddress(page) + PAGE_HEADER_SIZE;
    assert PageOf(large) == page;
    assert IsLarge(was.Pages(), large);
    if was.HasKept(page) {
      var address :| address in was.kept && PageOf(address) == page;
      assert IsCell(was.Pages(), was.cursors, address);
    }
  }

  /** Sweeps one class page, keeping it if it holds a live cell. Returns its live bytes. */
  method SweepClass(vm: Vm, free: FreePages, page: nat, ghost was: Marked) returns (bytes: nat)
    requires InSweep(vm, free, was, page) && page < vm.heapEnd && page in was.runs && was.runs[page].kind.Class?
    requires was.runs[page].detail < CLASS_COUNT
    modifies free, vm`headers, vm`freeRuns, vm`freeList, vm`runs, vm`live, vm`marks, vm`cells, vm`freeHeads,
             vm`cellLists, vm`classCursors
    ensures InSweep(vm, free, was, page + was.runs[page].pages)
    ensures bytes == |set address | address in was.kept && PageOf(address) == page| * ClassSize(was.runs[page].detail)
  {
    hide Marked.Valid, Rebuilt, RunsValid, PagesSwept, CursorsSwept, HeapSwept, ListsSwept, Holders, Unswept;
    hide KeepsSystem, RunEnd, Marked.HasKept, Marked.Pages;
    RunToSweep(vm, free, was, page);
    var run := vm.headers[page];
    ghost var runs := vm.runs;
    var live := SweepClassPage(vm, page, run.detail, was);
    bytes := live * ClassSize(run.detail);
    if live == 0 {
      SweepFree(vm, free, page, 1, was);
    } else {
      vm.live := vm.live[page := live];
      ghost var before := SweepUsed(vm, free, page, run, was);
      PagesSweptThrough(was, page, runs, before);
      KeepRun(was, vm.heapStart, vm.heapEnd, page, page + 1, before);
    }
  }

  // ---- The live bytes ----

  function SaturatingAdd(left: nat, right: nat): nat {
    if left + right > U32_MAX then U32_MAX else left + right
  }

  /** The bytes a collection counts as live in the run at `page`: cells of class pages, whole runs of large objects. */
  ghost function RunBytes(was: Marked, page: nat): nat
    requires page in was.runs
  {
    var run := was.runs[page];
    if run.kind.Class? && run.detail < CLASS_COUNT then
      |set address | address in was.kept && PageOf(address) == page| * ClassSize(run.detail)
    else if run.kind.Large? && was.HasKept(page) then PageAddress(run.pages)
    else 0
  }

  /** The live bytes of the runs from `page` on. */
  ghost function LiveBytes(was: Marked, page: nat, high: nat): nat
    decreases high - page
  {
    if page < high && page in was.runs && 0 < was.runs[page].pages
    then RunBytes(was, page) + LiveBytes(was, page + was.runs[page].pages, high)
    else 0
  }

  /** Sweeps one run. Returns its live bytes and the next run. */
  method SweepRun(vm: Vm, free: FreePages, page: nat, ghost was: Marked) returns (next: nat, bytes: nat)
    requires InSweep(vm, free, was, page) && page < vm.heapEnd
    modifies free, vm`headers, vm`freeRuns, vm`freeList, vm`runs, vm`live, vm`marks, vm`cells, vm`freeHeads,
             vm`cellLists, vm`classCursors
    ensures InSweep(vm, free, was, next) && page in was.runs && next == page + was.runs[page].pages && page < next
    ensures bytes == RunBytes(was, page)
  {
    hide InSweep, Marked.HasKept, Marked.Pages, RunEnd;
    RunToSweep(vm, free, was, page);
    var run := vm.headers[page];
    next := page + (if run.pages == 0 then 1 else run.pages);
    bytes := 0;
    match run.kind {
      case Class => bytes := SweepClass(vm, free, page, was);
      case Large => bytes := SweepLarge(vm, free, page, was);
      case Free => SweepFreeRun(vm, free, page, was);
      case System => SweepSystem(vm, free, page, was);
    }
  }

  method SweepFreeRun(vm: Vm, free: FreePages, page: nat, ghost was: Marked)
    requires InSweep(vm, free, was, page) && page < vm.heapEnd && page in was.runs && was.runs[page].kind.Free?
    modifies free, vm`headers, vm`freeRuns, vm`freeList, vm`runs
    ensures InSweep(vm, free, was, page + was.runs[page].pages)
  {
    hide Marked.Valid, Rebuilt, RunsValid, PagesSwept, CursorsSwept, HeapSwept, ListsSwept, Holders, Unswept;
    hide KeepsSystem, RunEnd, Marked.HasKept, Marked.Pages;
    RunToSweep(vm, free, was, page);
    NextCursors(was, page, page + vm.headers[page].pages, vm.classCursors, vm.heapStart, vm.heapEnd);
    SweepFree(vm, free, page, vm.headers[page].pages, was);
  }

  lemma SweepBegins(vm: Vm, was: Marked)
    requires vm.Stable() && was == Marked(vm.runs, vm.classCursors, vm.cells, vm.marks, vm.marks * vm.Heap().Keys)
    ensures was.Valid(vm.heapStart, vm.heapEnd)
    ensures vm.Heap() == Objects(was.Pages(), was.cursors, was.cells)
    ensures ReferencesValid(vm.Heap(), PageAddress(vm.heapStart), vm.rootRanges, vm.rootShape)
    ensures AllHoused(was.Pages(), vm.Heap())
    ensures PageAddress(vm.heapEnd) <= vm.size && vm.heapEnd < PAGE_LIMIT
    ensures vm.heapStart <= vm.heapEnd && (vm.heapStart == vm.heapEnd || vm.heapStart in was.runs)
    ensures CursorsSwept(was, vm.heapStart, vm.classCursors) && HeapSwept(was, vm.heapStart, vm.cells, vm.marks)
    ensures PagesSwept(was, vm.heapStart, map[])
    ensures Unswept(was.runs, vm.heapStart, vm.headers)
    ensures Rebuilt(vm.headers, map[], vm.heapStart, vm.heapStart, 0, [])
  {
    MarkedIsValid(vm, was);
    NothingSwept(was, vm.heapStart, vm.heapEnd, vm.classCursors, vm.cells, vm.marks);
    NothingRebuilt(vm.headers, vm.runs, vm.heapStart, vm.heapEnd, vm.freeRuns, vm.freeList);
    hide Marked.Valid, Objects, ReferencesValid, AllHoused, CursorsSwept, HeapSwept, PagesSwept, Unswept, Rebuilt;
    hide CursorsValid, CellsValid, RunsValid, Holders;
  }

  lemma MarkedIsValid(vm: Vm, was: Marked)
    requires vm.Stable() && was == Marked(vm.runs, vm.classCursors, vm.cells, vm.marks, vm.marks * vm.Heap().Keys)
    ensures was.Valid(vm.heapStart, vm.heapEnd)
    ensures vm.heapStart <= vm.heapEnd && (vm.heapStart == vm.heapEnd || vm.heapStart in was.runs)
  {
    hide CursorsValid, CellsValid, AllFit, AllFollowed, Apart, Stored, FreeRuns, Holders, IsCell, ReferencesValid;
    hide AllHoused;
  }

  lemma NothingSwept(was: Marked, low: nat, high: nat, cursors: seq<nat>, cells: map<nat, Cell>, marks: set<nat>)
    requires was.Valid(low, high) && cursors == was.cursors && cells == was.cells && marks == was.marks
    ensures CursorsSwept(was, low, cursors) && HeapSwept(was, low, cells, marks) && PagesSwept(was, low, map[])
  {
    forall address | IsCell(was.Pages(), was.cursors, address)
      ensures low <= PageOf(address)
    {
      was.KeptPlace(low, high, address);
    }
    forall sizeClass | 0 <= sizeClass < CLASS_COUNT && cursors[sizeClass] != 0
      ensures low <= PageOf(cursors[sizeClass])
    {
      assert CursorAt(was.Pages(), sizeClass, cursors[sizeClass]);
      assert RunFits(was.runs, low, high, PageOf(cursors[sizeClass]));
    }
    assert forall page | page in was.runs :: RunFits(was.runs, low, high, page);
    hide CursorAt, IsCell, CellsValid, RunFits;
  }

  lemma NothingRebuilt(headers: map<nat, Run>, runs: map<nat, Run>, low: nat, high: nat, head: nat, list: seq<nat>)
    requires RunsValid(headers, runs, low, high, head, list)
    ensures Unswept(runs, low, headers) && Rebuilt(headers, map[], low, low, 0, [])
  {}

  /** What a finished sweep leaves behind. */
  lemma SweepEnds(vm: Vm, was: Marked, roots: set<nat>)
    requires was.Valid(vm.heapStart, vm.heapEnd) && |was.cursors| == CLASS_COUNT
    requires PagesSwept(was, vm.heapEnd, vm.runs) && CursorsSwept(was, vm.heapEnd, vm.classCursors)
    requires HeapSwept(was, vm.heapEnd, vm.cells, vm.marks)
    ensures CursorsValid(vm.Pages(), vm.classCursors)
    ensures CellsValid(vm.Pages(), vm.classCursors, vm.cells)
    ensures vm.Heap() == Restrict(Objects(was.Pages(), was.cursors, was.cells), was.kept)
    ensures forall address | address in vm.Heap() :: address !in vm.marks
  {
    forall sizeClass | 0 <= sizeClass < CLASS_COUNT && vm.classCursors[sizeClass] != 0
      ensures CursorAt(vm.Pages(), sizeClass, vm.classCursors[sizeClass])
    {
      assert CursorAt(was.Pages(), sizeClass, was.cursors[sizeClass]);
      assert RunFits(was.runs, vm.heapStart, vm.heapEnd, PageOf(was.cursors[sizeClass]));
    }
    CellsAfterSweep(vm, was);
    ObjectsAfterSweep(vm, was);
  }

  lemma CellsAfterSweep(vm: Vm, was: Marked)
    requires was.Valid(vm.heapStart, vm.heapEnd) && |was.cursors| == CLASS_COUNT == |vm.classCursors|
    requires PagesSwept(was, vm.heapEnd, vm.runs) && CursorsSwept(was, vm.heapEnd, vm.classCursors)
    requires HeapSwept(was, vm.heapEnd, vm.cells, vm.marks)
    ensures forall address :: IsCell(vm.Pages(), vm.classCursors, address) <==>
                              IsCell(was.Pages(), was.cursors, address) && was.HasKept(PageOf(address))
    ensures CellsValid(vm.Pages(), vm.classCursors, vm.cells)
  {
    hide Holders, CellsOf, UsedCells, HeapSwept, Marked.Valid;
    forall address
      ensures IsCell(vm.Pages(), vm.classCursors, address) <==>
              IsCell(was.Pages(), was.cursors, address) && was.HasKept(PageOf(address))
    {
      CellAfterSweep(vm, was, address);
    }
    CellsValidAfterSweep(vm, was);
  }

  lemma CellAfterSweep(vm: Vm, was: Marked, address: nat)
    requires was.Valid(vm.heapStart, vm.heapEnd) && |was.cursors| == CLASS_COUNT == |vm.classCursors|
    requires PagesSwept(was, vm.heapEnd, vm.runs) && CursorsSwept(was, vm.heapEnd, vm.classCursors)
    ensures IsCell(vm.Pages(), vm.classCursors, address) <==>
            IsCell(was.Pages(), was.cursors, address) && was.HasKept(PageOf(address))
  {
    var page := PageOf(address);
    if IsCell(was.Pages(), was.cursors, address) {
      was.KeptPlace(vm.heapStart, vm.heapEnd, address);
    }
    hide Marked.Valid, CursorsSwept, Marked.HasKept, CellsOf, UsedCells, Holders;
    if was.HasKept(page) && page in was.Pages() && was.Pages()[page].detail < CLASS_COUNT {
      UsedAsBefore(was, vm.heapEnd, vm.classCursors, page, was.Pages()[page].detail);
    }
  }

  lemma CellsValidAfterSweep(vm: Vm, was: Marked)
    requires was.Valid(vm.heapStart, vm.heapEnd) && |was.cursors| == CLASS_COUNT == |vm.classCursors|
    requires PagesSwept(was, vm.heapEnd, vm.runs)
    requires HeapSwept(was, vm.heapEnd, vm.cells, vm.marks)
    requires forall address :: IsCell(vm.Pages(), vm.classCursors, address) <==>
                               IsCell(was.Pages(), was.cursors, address) && was.HasKept(PageOf(address))
    ensures CellsValid(vm.Pages(), vm.classCursors, vm.cells)
  {
    forall address | IsLarge(vm.Pages(), address)
      ensures address in vm.cells && vm.cells[address].Object?
    {
      assert IsLarge(was.Pages(), address);
      was.KeptPlace(vm.heapStart, vm.heapEnd, address);
      LargeIsKept(was, vm.heapStart, vm.heapEnd, address);
    }
    forall address | IsCell(vm.Pages(), vm.classCursors, address)
      ensures address in vm.cells
    {
      was.KeptPlace(vm.heapStart, vm.heapEnd, address);
    }
  }

  lemma LargeIsKept(was: Marked, low: nat, high: nat, large: nat)
    requires was.Valid(low, high) && IsLarge(was.Pages(), large) && was.HasKept(PageOf(large))
    ensures large in was.kept && large in was.cells && was.cells[large].Object?
  {
    var address :| address in was.kept && PageOf(address) == PageOf(large);
    assert IsCell(was.Pages(), was.cursors, address);
  }

  lemma KeptAfterSweep(vm: Vm, was: Marked, address: nat)
    requires was.Valid(vm.heapStart, vm.heapEnd) && |was.cursors| == CLASS_COUNT == |vm.classCursors|
    requires HeapSwept(was, vm.heapEnd, vm.cells, vm.marks)
    requires IsCell(vm.Pages(), vm.classCursors, address) <==>
               IsCell(was.Pages(), was.cursors, address) && was.HasKept(PageOf(address))
    ensures address in vm.Heap() <==> address in was.kept
    ensures address in was.kept ==>
              && address in vm.cells && vm.cells[address] == was.cells[address] && address !in vm.marks
  {
    hide CellsValid, CursorsValid, Tiles;
    if IsCell(was.Pages(), was.cursors, address) {
      was.KeptPlace(vm.heapStart, vm.heapEnd, address);
    }
    if address in was.kept {
      assert was.HasKept(PageOf(address));
    }
    hide IsCell;
  }

  lemma ObjectsAfterSweep(vm: Vm, was: Marked)
    requires was.Valid(vm.heapStart, vm.heapEnd) && |was.cursors| == CLASS_COUNT == |vm.classCursors|
    requires HeapSwept(was, vm.heapEnd, vm.cells, vm.marks)
    requires forall address :: IsCell(vm.Pages(), vm.classCursors, address) <==>
                               IsCell(was.Pages(), was.cursors, address) && was.HasKept(PageOf(address))
    ensures vm.Heap() == Restrict(Objects(was.Pages(), was.cursors, was.cells), was.kept)
    ensures forall address | address in vm.Heap() :: address !in vm.marks
  {
    hide HeapSwept, IsCell, CellsValid, CursorsValid, Tiles;
    forall address
      ensures address in vm.Heap() <==> address in was.kept
      ensures address in was.kept ==>
                && address in vm.cells && vm.cells[address] == was.cells[address] && address !in vm.marks
    {
      KeptAfterSweep(vm, was, address);
    }
  }

  /** The references of what is kept point to what is kept. */
  lemma KeptReferences(objects: map<nat, Cell>, low: nat, ranges: seq<seq<Slot>>, rootShape: nat, kept: set<nat>)
    requires ReferencesValid(objects, low, ranges, rootShape)
    requires Closed(objects, RootAddresses(ranges, rootShape), kept)
    ensures ReferencesValid(Restrict(objects, kept), low, ranges, rootShape)
  {
    var rest := Restrict(objects, kept);
    forall address | address in rest
      ensures rest[address].Object? && Refers(rest, low, rest[address].slots)
    {
      var slots := rest[address].slots;
      assert Refers(objects, low, slots);
      forall i | 0 <= i < |slots| && slots[i].Reference?
        ensures slots[i].address < low || slots[i].address in rest
      {
        assert slots[i] in slots && Reference(slots[i].address) == slots[i];
        assert slots[i].address in objects ==> PointsTo(objects, address, slots[i].address);
      }
    }
    forall r | 0 <= r < |ranges|
      ensures Refers(rest, low, ranges[r])
    {
      assert Refers(objects, low, ranges[r]);
      assert forall i | 0 <= i < |ranges[r]| && ranges[r][i].Reference? ::
          ranges[r][i].address in RootAddresses(ranges, rootShape);
    }
  }

  lemma NothingListed(was: Marked, cursors: seq<nat>, cells: map<nat, Cell>)
    requires |cursors| == CLASS_COUNT
    ensures ListsSwept(Holders(map[]), cursors, cells, seq(CLASS_COUNT, _ => 0), seq(CLASS_COUNT, _ => []))
  {}

  /** Sweeps every run in address order. Returns the live bytes, saturated. */
  method SweepRuns(vm: Vm, free: FreePages, ghost was: Marked) returns (liveBytes: nat)
    requires InSweep(vm, free, was, vm.heapStart) && vm.heapStart <= vm.heapEnd
    modifies free, vm`headers, vm`freeRuns, vm`freeList, vm`runs, vm`live, vm`marks, vm`cells, vm`freeHeads,
             vm`cellLists, vm`classCursors
    ensures InSweep(vm, free, was, vm.heapEnd)
    ensures liveBytes == SaturatingAdd(LiveBytes(was, vm.heapStart, vm.heapEnd), 0)
  {
    hide InSweep, LiveBytes, RunBytes;
    liveBytes := 0;
    ghost var total: nat := 0;
    var page: nat := vm.heapStart;
    while page < vm.heapEnd
      invariant InSweep(vm, free, was, page) && page <= vm.heapEnd
      invariant liveBytes == SaturatingAdd(total, 0)
      invariant total + LiveBytes(was, page, vm.heapEnd) == LiveBytes(was, vm.heapStart, vm.heapEnd)
      decreases vm.heapEnd - page
    {
      var next, bytes := SweepRun(vm, free, page, was);
      LiveBytesStep(was, page, vm.heapEnd);
      SweepInBounds(vm, free, was, next);
      liveBytes := SaturatingAdd(liveBytes, bytes);
      total := total + bytes;
      page := next;
    }
    LiveBytesEnd(was, page, vm.heapEnd);
  }

  /** Sets the volume after which the next collection runs. */
  method ResetThreshold(vm: Vm, liveBytes: nat)
    modifies vm`threshold, vm`allocatedBytes, vm`collections
    ensures vm.threshold == ThresholdFor(liveBytes) && vm.allocatedBytes == 0
    ensures vm.collections == (old(vm.collections) + 1) % (U32_MAX + 1)
  {
    var doubled := if 2 * liveBytes > U32_MAX then U32_MAX else 2 * liveBytes;
    vm.threshold := if doubled < INITIAL_COLLECTION_THRESHOLD then INITIAL_COLLECTION_THRESHOLD else doubled;
    vm.allocatedBytes := 0;
    vm.collections := (vm.collections + 1) % (U32_MAX + 1);
  }

  /** Empties the free lists: nothing is swept yet. */
  method BeginSweep(vm: Vm, ghost was: Marked) returns (free: FreePages)
    requires vm.Stable() && was == Marked(vm.runs, vm.classCursors, vm.cells, vm.marks, vm.marks * vm.Heap().Keys)
    modifies vm`freeRuns, vm`freeList, vm`runs, vm`freeHeads, vm`cellLists
    ensures InSweep(vm, free, was, vm.heapStart) && fresh(free)
  {
    hide Vm.Stable, Vm.ListsValid, Vm.Unmarked, StackCapacity, Vm.Valid, Marked.Valid, Marked.Pages, Objects, Restrict;
    hide Closed, InSweep, CursorsSwept, HeapSwept, PagesSwept, ListsSwept, Rebuilt, Unswept, LiveBytes, Holders;
    hide ReferencesValid, KeepsSystem, NoAdjacentFree, SaturatingAdd, RootAddresses, FreeCells, HeadOf, PageAddress;
    SweepBegins(vm, was);
    NothingListed(was, vm.classCursors, vm.cells);
    vm.freeHeads := seq(CLASS_COUNT, _ => 0);
    vm.cellLists := seq(CLASS_COUNT, _ => []);
    vm.freeRuns := 0;
    vm.freeList := [];
    vm.runs := map[];
    free := new FreePages();
    SweepStarts(vm, free, was);
  }

  /** The sweep before its bookkeeping. Returns the live bytes, saturated. */
  method RebuildHeap(vm: Vm, ghost objects: map<nat, Cell>, ghost was: Marked) returns (liveBytes: nat)
    requires vm.Stable() && vm.MarkStackValid() && vm.Heap() == objects
    requires Closed(objects, vm.Roots(), vm.marks * objects.Keys)
    requires was == Marked(vm.runs, vm.classCursors, vm.cells, vm.marks, vm.marks * objects.Keys)
    modifies vm`headers, vm`freeRuns, vm`freeList, vm`runs, vm`live, vm`marks, vm`cells, vm`freeHeads, vm`cellLists,
             vm`classCursors
    ensures vm.Valid() && NoAdjacentFree(vm.runs) && vm.Heap() == Restrict(objects, old(vm.marks))
    ensures KeepsSystem(old(vm.runs), vm.runs)
    ensures liveBytes == SaturatingAdd(LiveBytes(was, vm.heapStart, vm.heapEnd), 0)
  {
    hide Vm.Stable, Vm.ListsValid, Vm.Unmarked, StackCapacity, Vm.Valid, Marked.Valid, Marked.Pages, Objects, Restrict;
    hide Closed, InSweep, CursorsSwept, HeapSwept, PagesSwept, ListsSwept, Rebuilt, Unswept, LiveBytes, Holders;
    hide ReferencesValid, KeepsSystem, NoAdjacentFree, SaturatingAdd, RootAddresses, FreeCells, HeadOf, PageAddress;
    SweepBegins(vm, was);
    var free := BeginSweep(vm, was);
    liveBytes := SweepRuns(vm, free, was);
    FinishSweep(vm, free, was, objects);
    IsWhole(vm, was, objects, old(vm.marks));
    StackSurvives(was.runs, vm);
  }

  /** Restricts a marked heap to its marked objects and leaves it valid, unmarked and without adjacent free runs. */
  method Sweep(vm: Vm, ghost objects: map<nat, Cell>)
    requires vm.Stable() && vm.MarkStackValid() && vm.Heap() == objects
    requires Closed(objects, vm.Roots(), vm.marks * objects.Keys)
    modifies vm`headers, vm`freeRuns, vm`freeList, vm`runs, vm`live, vm`marks, vm`cells, vm`freeHeads, vm`cellLists,
             vm`classCursors, vm`threshold, vm`allocatedBytes, vm`collections
    ensures vm.Valid() && NoAdjacentFree(vm.runs)
    ensures vm.Heap() == Restrict(objects, old(vm.marks))
    ensures KeepsSystem(old(vm.runs), vm.runs)
    ensures vm.allocatedBytes == 0 && vm.collections == (old(vm.collections) + 1) % (U32_MAX + 1)
    ensures vm.threshold == ThresholdFor(LiveBytes(
        Marked(old(vm.runs), old(vm.classCursors), old(vm.cells), old(vm.marks), old(vm.marks) * objects.Keys),
        vm.heapStart, vm.heapEnd))
  {
    hide Vm.Stable, Vm.MarkStackValid, Vm.Valid, Objects, Restrict, Closed, LiveBytes, KeepsSystem, NoAdjacentFree;
    hide SaturatingAdd, ThresholdFor;
    ghost var was := Marked(vm.runs, vm.classCursors, vm.cells, vm.marks, vm.marks * objects.Keys);
    var liveBytes := RebuildHeap(vm, objects, was);
    ThresholdSaturates(LiveBytes(was, vm.heapStart, vm.heapEnd));
    ResetThreshold(vm, liveBytes);
  }

  lemma ThresholdSaturates(bytes: nat)
    ensures ThresholdFor(SaturatingAdd(bytes, 0)) == ThresholdFor(bytes)
  {}

  lemma StackSurvives(runs: map<nat, Run>, vm: Vm)
    requires KeepsSystem(runs, vm.runs)
    requires vm.markStack != 0 ==>
               && vm.markStack in runs && runs[vm.markStack] == Run(System, runs[vm.markStack].pages, 0)
               && vm.markStackCapacity == StackCapacity(runs[vm.markStack].pages)
    requires vm.Stable() && vm.ListsValid() && vm.Unmarked()
    ensures vm.Valid()
  {}

  lemma IsWhole(vm: Vm, was: Marked, objects: map<nat, Cell>, marks: set<nat>)
    requires was.kept == marks * objects.Keys && |vm.classCursors| == CLASS_COUNT
    requires vm.Heap() == Restrict(objects, was.kept)
    ensures vm.Heap() == Restrict(objects, marks)
  {}

  lemma SweepStarts(vm: Vm, free: FreePages, was: Marked)
    requires was.Valid(vm.heapStart, vm.heapEnd)
    requires vm.heapStart <= vm.heapEnd && (vm.heapStart == vm.heapEnd || vm.heapStart in was.runs)
    requires free.pages == 0 && vm.runs == map[] && vm.freeRuns == 0 && vm.freeList == []
    requires CursorsSwept(was, vm.heapStart, vm.classCursors) && HeapSwept(was, vm.heapStart, vm.cells, vm.marks)
    requires PagesSwept(was, vm.heapStart, map[])
    requires Unswept(was.runs, vm.heapStart, vm.headers)
    requires Rebuilt(vm.headers, map[], vm.heapStart, vm.heapStart, 0, [])
    requires ListsSwept(Holders(map[]), vm.classCursors, vm.cells, vm.freeHeads, vm.cellLists)
    ensures InSweep(vm, free, was, vm.heapStart)
  {}

  lemma SweepInBounds(vm: Vm, free: FreePages, was: Marked, page: nat)
    requires InSweep(vm, free, was, page)
    ensures page <= vm.heapEnd
  {}

  lemma LiveBytesStep(was: Marked, page: nat, high: nat)
    requires page < high && page in was.runs && 0 < was.runs[page].pages
    ensures LiveBytes(was, page, high) == RunBytes(was, page) + LiveBytes(was, page + was.runs[page].pages, high)
  {}

  lemma LiveBytesEnd(was: Marked, page: nat, high: nat)
    requires high <= page
    ensures LiveBytes(was, page, high) == 0
  {}

  /** The collection threshold after a sweep that counted `bytes` live bytes. */
  function ThresholdFor(bytes: nat): nat {
    var doubled := if 2 * bytes > U32_MAX then U32_MAX else 2 * bytes;
    if doubled < INITIAL_COLLECTION_THRESHOLD then INITIAL_COLLECTION_THRESHOLD else doubled
  }

  /** Lists the last pending free pages: the heap is whole again. */
  method FinishSweep(vm: Vm, free: FreePages, ghost was: Marked, ghost objects: map<nat, Cell>)
    requires InSweep(vm, free, was, vm.heapEnd)
    requires objects == Objects(was.Pages(), was.cursors, was.cells)
    requires ReferencesValid(objects, PageAddress(vm.heapStart), vm.rootRanges, vm.rootShape)
    requires Closed(objects, vm.Roots(), was.kept) && AllHoused(was.Pages(), objects)
    requires PageAddress(vm.heapEnd) <= vm.size && vm.heapEnd < PAGE_LIMIT
    modifies free, vm`headers, vm`freeRuns, vm`freeList, vm`runs
    ensures vm.Stable() && vm.ListsValid() && vm.Unmarked() && NoAdjacentFree(vm.runs)
    ensures vm.Heap() == Restrict(objects, was.kept) && KeepsSystem(was.runs, vm.runs)
  {
    hide Marked.Valid, Rebuilt, RunsValid, PagesSwept, CursorsSwept, HeapSwept, ListsSwept, Holders, Unswept, RunEnd,
      Marked.HasKept, Marked.Pages, Closed, FreeCells, Objects, Restrict, ReferencesValid, CursorsValid, CellsValid,
        KeepsSystem, SeparatedTo, NoAdjacentFree, AllHoused;
    ghost var runs := vm.runs;
    FlushPending(vm, free, vm.heapEnd);
    PagesSweptThrough(was, vm.heapEnd, runs, vm.runs);
    SweepEnds(vm, was, vm.Roots());
    KeptReferences(objects, PageAddress(vm.heapStart), vm.rootRanges, vm.rootShape, was.kept);
    SweptHoused(vm, was, objects);
    EndTiles(vm);
    SystemSwept(vm, was);
    ListsAreSwept(vm);
  }

  /** What is kept stays on its run. */
  lemma SweptHoused(vm: Vm, was: Marked, objects: map<nat, Cell>)
    requires |vm.classCursors| == CLASS_COUNT && AllHoused(was.Pages(), objects)
    requires PagesSwept(was, vm.heapEnd, vm.runs) && vm.Heap() == Restrict(objects, was.kept)
    ensures AllHoused(vm.Pages(), vm.Heap())
  {
    forall address | address in vm.Heap()
      ensures PageOf(address) in vm.Pages() && vm.Pages()[PageOf(address)] == was.Pages()[PageOf(address)]
    {
      assert IsCell(vm.Pages(), vm.classCursors, address);
    }
    hide Objects, PagesSwept, Holders;
    HousedStill(was.Pages(), objects, vm.Pages(), vm.Heap());
  }

  lemma EndTiles(vm: Vm)
    requires RunsValid(vm.headers, vm.runs, vm.heapStart, vm.heapEnd, vm.freeRuns, vm.freeList)
    requires SeparatedTo(vm.runs, vm.heapEnd)
    ensures NoAdjacentFree(vm.runs)
  {
    AtEndSeparated(vm.runs, vm.heapStart, vm.heapEnd);
  }

  lemma SystemSwept(vm: Vm, was: Marked)
    requires was.Valid(vm.heapStart, vm.heapEnd) && PagesSwept(was, vm.heapEnd, vm.runs)
    ensures KeepsSystem(was.runs, vm.runs)
  {
    assert forall page | page in was.runs :: RunFits(was.runs, vm.heapStart, vm.heapEnd, page);
  }

  lemma ListsAreSwept(vm: Vm)
    requires |vm.classCursors| == CLASS_COUNT
    requires ListsSwept(Holders(vm.runs), vm.classCursors, vm.cells, vm.freeHeads, vm.cellLists)
    ensures vm.ListsValid()
  {}
}
