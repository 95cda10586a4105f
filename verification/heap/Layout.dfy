/** Pages, size classes and the addresses of cells. */
module HeapLayout {
  import opened Wrappers

  const PAGE_SIZE: nat := 65536
  const PAGE_HEADER_SIZE: nat := 16
  const CLASS_COUNT: nat := 15
  const SIZE_CLASSES: seq<nat> := [16, 24, 32, 48, 64, 96, 128, 192, 256, 384, 512, 768, 1024, 1536, 2048]
  const PAGE_LIMIT: nat := 65536
  const U32_MAX: nat := 0xFFFF_FFFF

  datatype PageKind = Free | Class | Large | System

  /** A page-run header: `detail` is the size class of a class page, the next free run of a free run. */
  datatype Run = Run(kind: PageKind, pages: nat, detail: nat)

  /** A traced slot of an object: an immediate (or empty) word, or the address of an object. */
  datatype Slot = Immediate(bits: nat) | Reference(address: nat)

  /**
    * The storage at an object address. `room` is how many bytes that is, and `data` is every byte, the object's header
    * included, that is not in a traced slot.
    */
  datatype Cell =
    | FreeCell(sizeClass: nat, next: nat)
    | Object(kind: nat, sizeClass: nat, room: nat, slots: seq<Slot>, data: seq<nat>)

  function ClassSize(sizeClass: nat): (size: nat)
    requires sizeClass < CLASS_COUNT
    ensures 16 <= size <= 2048 && size % 8 == 0
  {
    SIZE_CLASSES[sizeClass]
  }

  method ClassForSize(size: nat) returns (sizeClass: Option<nat>)
    ensures sizeClass.None? <==> size > 2048
    ensures sizeClass.Some? ==> sizeClass.value < CLASS_COUNT && size <= ClassSize(sizeClass.value)
    ensures sizeClass.Some? ==> forall smaller :: 0 <= smaller < sizeClass.value ==> ClassSize(smaller) < size
  {
    var candidate := 0;
    while candidate < CLASS_COUNT
      invariant candidate <= CLASS_COUNT
      invariant forall smaller :: 0 <= smaller < candidate ==> ClassSize(smaller) < size
    {
      if size <= SIZE_CLASSES[candidate] {
        assert ClassSize(candidate) <= 2048;
        return Some(candidate);
      }
      assert ClassSize(candidate) < size;
      candidate := candidate + 1;
    }
    assert ClassSize(14) < size;
    return None;
  }

  /** The bytes an allocation of `size` bytes asks for: at least a free cell's, in whole words, in 32 bits. */
  function RoundedSize(size: nat): (rounded: nat)
    requires size <= U32_MAX
    ensures rounded % 8 == 0 && rounded <= U32_MAX
  {
    var words := ((if size < 16 then 16 else size) + 7) / 8;
    var whole := 8 * words;
    if whole > U32_MAX then whole - (U32_MAX + 1) else whole
  }

  /** Rounding keeps a size or raises it by less than a word, exactly up to the last seven sizes: those wrap to 0. */
  lemma RoundedHolds(size: nat)
    requires size <= U32_MAX
    ensures size <= RoundedSize(size) <==> size <= U32_MAX - 7
    ensures size <= U32_MAX - 7 ==> 16 <= RoundedSize(size) && (size >= 16 ==> RoundedSize(size) < size + 8)
    ensures size > U32_MAX - 7 ==> RoundedSize(size) == 0
  {
    var least := if size < 16 then 16 else size;
    var words := (least + 7) / 8;
    assert least <= 8 * words < least + 8;
    assert size > U32_MAX - 7 ==> words == 0x2000_0000;
  }

  /** A request of 0xFFFF_FFF9 bytes rounds to nothing and so gets a cell of the smallest class. */
  lemma WrappedRequest()
    ensures RoundedSize(0xFFFF_FFF9) == 0 && ClassSize(0) == 16
  {}

  /** The number of the page holding byte `address`. Page runs are addressed by page number throughout. */
  function PageOf(address: nat): nat {
    address / 65536
  }

  /** The first byte of page `page`. */
  function PageAddress(page: nat): nat {
    page * 65536
  }

  /** No heap has the pages for an object of so many bytes: it begins at page 1 or later and ends before the last. */
  predicate NeverFits(size: nat) {
    size > 2048 && size + PAGE_HEADER_SIZE > PageAddress(PAGE_LIMIT - 2)
  }

  function CellsPerPage(sizeClass: nat): nat
    requires sizeClass < CLASS_COUNT
  {
    (PAGE_SIZE - PAGE_HEADER_SIZE) / ClassSize(sizeClass)
  }

  /** The offset of cell `index` from the start of its page: CellOffsetClosed gives its closed form. */
  ghost function CellOffset(sizeClass: nat, index: nat): (offset: nat)
    requires sizeClass < CLASS_COUNT
    ensures offset >= PAGE_HEADER_SIZE && offset % 8 == 0
  {
    if index == 0 then PAGE_HEADER_SIZE else CellOffset(sizeClass, index - 1) + ClassSize(sizeClass)
  }

  lemma {:induction false} CellOffsetClosed(sizeClass: nat, index: nat)
    requires sizeClass < CLASS_COUNT
    ensures CellOffset(sizeClass, index) == PAGE_HEADER_SIZE + index * ClassSize(sizeClass)
  {
    if index > 0 {
      CellOffsetClosed(sizeClass, index - 1);
      assert index * ClassSize(sizeClass) == (index - 1) * ClassSize(sizeClass) + ClassSize(sizeClass);
    }
  }

  lemma {:induction false} CellOffsetGap(sizeClass: nat, low: nat, high: nat)
    requires sizeClass < CLASS_COUNT && low < high
    ensures CellOffset(sizeClass, low) + ClassSize(sizeClass) <= CellOffset(sizeClass, high)
  {
    if low < high - 1 {
      CellOffsetGap(sizeClass, low, high - 1);
    }
  }

  /** A cell of a page ends inside the page. */
  lemma CellOffsetInPage(sizeClass: nat, index: nat)
    requires sizeClass < CLASS_COUNT && index < CellsPerPage(sizeClass)
    ensures CellOffset(sizeClass, index) + ClassSize(sizeClass) <= PAGE_SIZE
  {
    hide CellOffset, ClassSize;
    CellOffsetClosed(sizeClass, index);
    FitsEvenly(ClassSize(sizeClass), index, PAGE_SIZE - PAGE_HEADER_SIZE);
  }

  lemma FitsEvenly(size: nat, index: nat, whole: nat)
    requires size > 0 && index < whole / size
    ensures index * size + size <= whole
  {
    var count := whole / size;
    assert count * size <= whole;
    TimesGrows(index + 1, count, size);
    assert (index + 1) * size == index * size + size;
  }

  lemma TimesGrows(low: nat, high: nat, size: nat)
    requires low <= high
    ensures low * size <= high * size
  {
    assert (high - low) * size >= 0;
    assert high * size == low * size + (high - low) * size;
  }

  lemma CellsPerPagePositive(sizeClass: nat)
    requires sizeClass < CLASS_COUNT
    ensures CellsPerPage(sizeClass) >= 31
  {
    assert 31 * ClassSize(sizeClass) <= 31 * 2048;
  }

  ghost function CellAt(page: nat, sizeClass: nat, index: nat): nat
    requires sizeClass < CLASS_COUNT
  {
    PageAddress(page) + CellOffset(sizeClass, index)
  }

  /** The addresses of the first `count` cells of a class page. */
  ghost function CellsOf(page: nat, sizeClass: nat, count: nat): set<nat>
    requires sizeClass < CLASS_COUNT
  {
    if count == 0 then {} else CellsOf(page, sizeClass, count - 1) + {CellAt(page, sizeClass, count - 1)}
  }

  lemma {:induction false} CellInCells(page: nat, sizeClass: nat, count: nat, index: nat)
    requires sizeClass < CLASS_COUNT && index < count
    ensures CellAt(page, sizeClass, index) in CellsOf(page, sizeClass, count)
  {
    if index < count - 1 {
      CellInCells(page, sizeClass, count - 1, index);
    }
  }

  lemma {:induction false} CellNotInCells(page: nat, sizeClass: nat, count: nat, index: nat)
    requires sizeClass < CLASS_COUNT && count <= index
    ensures CellAt(page, sizeClass, index) !in CellsOf(page, sizeClass, count)
  {
    if count > 0 {
      CellNotInCells(page, sizeClass, count - 1, index);
      CellOffsetGap(sizeClass, count - 1, index);
    }
  }

  lemma {:induction false} IndexOfCell(page: nat, sizeClass: nat, count: nat, cell: nat) returns (index: nat)
    requires sizeClass < CLASS_COUNT && cell in CellsOf(page, sizeClass, count)
    ensures index < count && cell == CellAt(page, sizeClass, index)
  {
    if cell == CellAt(page, sizeClass, count - 1) {
      index := count - 1;
    } else {
      index := IndexOfCell(page, sizeClass, count - 1, cell);
    }
  }

  /** Cells are 8-byte aligned and lie, with all their bytes, inside their own page. */
  lemma CellInPage(page: nat, sizeClass: nat, index: nat)
    requires sizeClass < CLASS_COUNT && index < CellsPerPage(sizeClass)
    ensures PageOf(CellAt(page, sizeClass, index)) == page
    ensures PageAddress(page) + PAGE_HEADER_SIZE <= CellAt(page, sizeClass, index)
    ensures CellAt(page, sizeClass, index) + ClassSize(sizeClass) <= PageAddress(page + 1)
    ensures CellAt(page, sizeClass, index) % 8 == 0
  {
    CellOffsetInPage(sizeClass, index);
    hide CellOffset, ClassSize;
    InsidePage(page, CellOffset(sizeClass, index));
  }

  lemma InsidePage(page: nat, offset: nat)
    requires offset < PAGE_SIZE && offset % 8 == 0
    ensures PageOf(PageAddress(page) + offset) == page && (PageAddress(page) + offset) % 8 == 0
  {}

  /** The division with which the program recovers a cell's index undoes the address computation. */
  lemma IndexOfOffset(sizeClass: nat, index: nat)
    requires sizeClass < CLASS_COUNT
    ensures (CellOffset(sizeClass, index) - PAGE_HEADER_SIZE) / ClassSize(sizeClass) == index
  {
    CellOffsetClosed(sizeClass, index);
    var size := ClassSize(sizeClass);
    hide CellOffset, ClassSize;
    QuotientOfProduct(index, size);
  }

  lemma QuotientOfProduct(index: nat, size: nat)
    requires size > 0
    ensures index * size / size == index
  {
    var quotient := index * size / size;
    assert quotient * size <= index * size < quotient * size + size;
    assert quotient < index ==> (quotient + 1) * size <= index * size;
    assert quotient > index ==> (index + 1) * size <= quotient * size;
  }
}
