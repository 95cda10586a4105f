/**
  * Whole programs on the heap. A program holds objects by handles, which are its roots. However memory is reused and
  * whenever collections run, it sees what it would see on a heap that never collects and never uses storage again.
  */
module WholeRuns {
  import opened Wrappers
  import opened HeapLayout
  import opened HeapState
  import opened Pages
  import opened Marking
  import opened Sweeping
  import opened Collecting
  import opened Allocating
  import opened Running

  datatype Operand = Word(bits: nat) | Handle(index: nat)

  datatype Instruction =
    | Make(size: nat, kind: nat)
    | Forget(handle: nat)
    | Fetch(handle: nat, index: nat)
    | Fill(handle: nat, operands: seq<Operand>, data: seq<nat>)
    | CollectNow
    | TakePages(pages: nat)

  predicate ValidInstruction(i: Instruction) {
    match i
    case Make(size, _) => size <= U32_MAX
    case TakePages(pages) => pages > 0
    case _ => true
  }

  // ---- The ideal heap: object `n` is the `n`-th ever made, and all stay ----

  datatype Ideal = Ideal(objects: map<nat, Cell>, handles: seq<Slot>, next: nat)

  /** The header of an object of `size` bytes: its size class, when `sizeClass` or a later class holds it. */
  function HeaderOf(size: nat, sizeClass: nat): nat
    requires sizeClass <= CLASS_COUNT
    decreases CLASS_COUNT - sizeClass
  {
    if sizeClass == CLASS_COUNT then LARGE_CLASS
    else if size <= ClassSize(sizeClass) then sizeClass
    else HeaderOf(size, sizeClass + 1)
  }

  lemma {:induction false} OneHeader(header: nat, size: nat, sizeClass: nat)
    requires HeaderFor(header, size) && sizeClass <= CLASS_COUNT && sizeClass <= header
    ensures HeaderOf(size, sizeClass) == header
    decreases CLASS_COUNT - sizeClass
  {
    if sizeClass < CLASS_COUNT && sizeClass < header {
      assert header == LARGE_CLASS ==> ClassSize(sizeClass) <= 2048;
      OneHeader(header, size, sizeClass + 1);
    }
  }

  function Chosen(handles: seq<Slot>, operand: Operand): Slot {
    match operand
    case Word(bits) => Immediate(bits)
    case Handle(index) => if index < |handles| then handles[index] else Immediate(0)
  }

  function AllChosen(handles: seq<Slot>, operands: seq<Operand>): seq<Slot> {
    seq(|operands|, i requires 0 <= i < |operands| => Chosen(handles, operands[i]))
  }

  function Without(handles: seq<Slot>, handle: nat): seq<Slot> {
    if handle < |handles| then handles[..handle] + handles[handle + 1..] else handles
  }

  /** The object's storage has room for so many slots and other bytes. */
  predicate HasRoomFor(cell: Cell, operands: seq<Operand>, data: seq<nat>) {
    cell.Object? && 8 * |operands| + |data| <= cell.room
  }

  /** The object a handle holds. */
  function Held(handles: seq<Slot>, handle: nat): Option<nat> {
    if handle < |handles| && handles[handle].Reference? then Some(handles[handle].address) else None
  }

  /** One instruction; `made` says whether memory sufficed. */
  ghost function IdealStep(s: Ideal, i: Instruction, made: bool): Ideal
    requires ValidInstruction(i)
  {
    match i
    case Make(size, kind) =>
      if made then
        Ideal(s.objects[s.next := NewObject(kind, HeaderOf(RoundedSize(size), 0), RoundedSize(size))],
              s.handles + [Reference(s.next)], s.next + 1)
      else s
    case Forget(handle) => s.(handles := Without(s.handles, handle))
    case Fetch(handle, index) =>
      var held := Held(s.handles, handle);
      if held.Some? && held.value in s.objects && s.objects[held.value].Object? && index < |s.objects[held.value].slots|
      then s.(handles := s.handles + [s.objects[held.value].slots[index]])
      else s
    case Fill(handle, operands, data) =>
      var held := Held(s.handles, handle);
      if held.Some? && held.value in s.objects && HasRoomFor(s.objects[held.value], operands, data) then
        var was, slots := s.objects[held.value], AllChosen(s.handles, operands);
        s.(objects := s.objects[held.value := Object(was.kind, was.sizeClass, was.room, slots, data)])
      else s
    case CollectNow => s
    case TakePages(_) => s
  }

  ghost function IdealRun(program: seq<Instruction>, made: seq<bool>): Ideal
    requires |made| == |program| && forall i :: 0 <= i < |program| ==> ValidInstruction(program[i])
  {
    if program == [] then Ideal(map[], [], 0)
    else
      var last := |program| - 1;
      IdealStep(IdealRun(program[..last], made[..last]), program[last], made[last])
  }

  // ---- The real heap mirrors the ideal one ----

  /** `actual` are the slots of `ideal` with each object at its address. */
  ghost predicate Moved(at: map<nat, nat>, ideal: seq<Slot>, actual: seq<Slot>) {
    && |actual| == |ideal|
    && forall i {:trigger ideal[i]} {:trigger actual[i]} :: 0 <= i < |ideal| ==> SlotMoved(at, ideal[i], actual[i])
  }

  ghost predicate SlotMoved(at: map<nat, nat>, ideal: Slot, actual: Slot) {
    match ideal
    case Immediate(_) => actual == ideal
    case Reference(n) => n in at && actual == Reference(at[n])
  }

  ghost predicate CellMoved(at: map<nat, nat>, ideal: Cell, actual: Cell) {
    && ideal.Object? && actual.Object?
    && actual.kind == ideal.kind && actual.sizeClass == ideal.sizeClass
    && actual.room == ideal.room && actual.data == ideal.data
    && Moved(at, ideal.slots, actual.slots)
  }

  ghost predicate Injective(at: map<nat, nat>) {
    forall n, m {:trigger at[n], at[m]} :: n in at && m in at && at[n] == at[m] ==> n == m
  }

  ghost predicate Mirrors(at: map<nat, nat>, s: Ideal, heap: map<nat, Cell>, handles: seq<Slot>) {
    && Injective(at)
    && Moved(at, s.handles, handles)
    && forall n {:trigger at[n]} :: n in at ==>
         && n < s.next && n in s.objects && at[n] in heap && CellMoved(at, s.objects[n], heap[at[n]])
  }

  // ---- Steps ----

  /** The objects whose addresses are in `kept`. */
  ghost function Kept(at: map<nat, nat>, kept: set<nat>): map<nat, nat> {
    map n | n in at && at[n] in kept :: at[n]
  }

  lemma HandlesReached(at: map<nat, nat>, s: Ideal, heap: map<nat, Cell>, handles: seq<Slot>)
    requires Mirrors(at, s, heap, handles)
    ensures Moved(Kept(at, ReachableSet(heap, RootAddresses([handles], 0))), s.handles, handles)
  {
    hide ReachableSet, CellMoved;
    var roots := RootAddresses([handles], 0);
    ReachableSetClosed(heap, roots);
    forall i | 0 <= i < |handles|
      ensures SlotMoved(Kept(at, ReachableSet(heap, roots)), s.handles[i], handles[i])
    {
      if s.handles[i].Reference? {
        assert [handles][0][i] == Reference(at[s.handles[i].address]);
        assert at[s.handles[i].address] in roots;
      }
    }
  }

  lemma SlotsReached(at: map<nat, nat>, s: Ideal, heap: map<nat, Cell>, handles: seq<Slot>, n: nat)
    requires Mirrors(at, s, heap, handles) && n in at
    requires at[n] in ReachableSet(heap, RootAddresses([handles], 0))
    ensures CellMoved(Kept(at, ReachableSet(heap, RootAddresses([handles], 0))), s.objects[n], heap[at[n]])
  {
    hide ReachableSet, RootAddresses;
    var roots := RootAddresses([handles], 0);
    ReachableSetClosed(heap, roots);
    var ideal, actual := s.objects[n].slots, heap[at[n]].slots;
    forall i | 0 <= i < |ideal|
      ensures SlotMoved(Kept(at, ReachableSet(heap, roots)), ideal[i], actual[i])
    {
      assert SlotMoved(at, ideal[i], actual[i]);
      if ideal[i].Reference? {
        assert actual[i] in actual && PointsTo(heap, at[n], at[ideal[i].address]);
      }
    }
  }

  /** A collection, or an attempt to make room, leaves everything the program can reach as it was. */
  lemma SurvivorsMirror(at: map<nat, nat>, s: Ideal, heap: map<nat, Cell>, handles: seq<Slot>, after: map<nat, Cell>)
    requires Mirrors(at, s, heap, handles) && Survived(heap, RootAddresses([handles], 0), after)
    ensures Mirrors(Kept(at, ReachableSet(heap, RootAddresses([handles], 0))), s, after, handles)
  {
    hide ReachableSet, RootAddresses, CellMoved, Moved;
    var reached := ReachableSet(heap, RootAddresses([handles], 0));
    HandlesReached(at, s, heap, handles);
    forall n | n in Kept(at, reached)
      ensures at[n] in after && CellMoved(Kept(at, reached), s.objects[n], after[at[n]])
    {
      SlotsReached(at, s, heap, handles, n);
    }
  }

  lemma MovedFurther(at: map<nat, nat>, more: map<nat, nat>, ideal: seq<Slot>, actual: seq<Slot>)
    requires Moved(at, ideal, actual) && forall n :: n in at ==> n in more && more[n] == at[n]
    ensures Moved(more, ideal, actual)
  {
    forall i | 0 <= i < |ideal| ensures SlotMoved(more, ideal[i], actual[i]) {
      assert SlotMoved(at, ideal[i], actual[i]);
    }
  }

  /** A new object goes where nothing the program can reach is. */
  lemma MadeMirrors(at: map<nat, nat>, s: Ideal, heap: map<nat, Cell>, handles: seq<Slot>, address: nat, made: Cell)
    requires Mirrors(at, s, heap - {address}, handles)
    requires address in heap && heap[address] == made && made.Object? && made.slots == []
    ensures Mirrors(at[s.next := address],
                    Ideal(s.objects[s.next := made], s.handles + [Reference(s.next)], s.next + 1),
                    heap, handles + [Reference(address)])
  {
    var more := at[s.next := address];
    assert s.next !in at by {
      forall n | n in at ensures n != s.next {
        assert at[n] in heap;
      }
    }
    assert forall n :: n in at ==> n in more && more[n] == at[n];
    MovedFurther(at, more, s.handles, handles);
    forall n | n in more && n != s.next
      ensures more[n] in heap && more[n] != address && n < s.next && n in s.objects
      ensures CellMoved(more, s.objects[n], heap[more[n]])
    {
      assert at[n] in heap - {address};
      MovedFurther(at, more, s.objects[n].slots, heap[at[n]].slots);
    }
    hide CellMoved;
  }

  lemma ForgottenMirror(at: map<nat, nat>, s: Ideal, heap: map<nat, Cell>, handles: seq<Slot>, handle: nat)
    requires Mirrors(at, s, heap, handles)
    ensures Mirrors(at, s.(handles := Without(s.handles, handle)), heap, Without(handles, handle))
  {
    hide CellMoved, SlotMoved;
  }

  lemma FetchedMirror(at: map<nat, nat>, s: Ideal, heap: map<nat, Cell>, handles: seq<Slot>, n: nat, index: nat)
    requires Mirrors(at, s, heap, handles) && n in at && index < |s.objects[n].slots|
    ensures Mirrors(at, s.(handles := s.handles + [s.objects[n].slots[index]]), heap,
                    handles + [heap[at[n]].slots[index]])
  {
    hide SlotMoved;
    assert SlotMoved(at, s.objects[n].slots[index], heap[at[n]].slots[index]);
  }

  lemma ChosenMoved(at: map<nat, nat>, ideal: seq<Slot>, actual: seq<Slot>, operands: seq<Operand>)
    requires Moved(at, ideal, actual)
    ensures Moved(at, AllChosen(ideal, operands), AllChosen(actual, operands))
  {
    forall i | 0 <= i < |operands|
      ensures SlotMoved(at, AllChosen(ideal, operands)[i], AllChosen(actual, operands)[i])
    {
      var operand := operands[i];
      assert operand.Handle? && operand.index < |ideal| ==> SlotMoved(at, ideal[operand.index], actual[operand.index]);
    }
  }

  lemma FilledMirror(at: map<nat, nat>, s: Ideal, heap: map<nat, Cell>, handles: seq<Slot>, n: nat, ideal: Cell,
                     actual: Cell)
    requires Mirrors(at, s, heap, handles) && n in at && CellMoved(at, ideal, actual)
    ensures Mirrors(at, s.(objects := s.objects[n := ideal]), heap[at[n] := actual], handles)
  {
    hide CellMoved, Moved;
    forall m | m in at
      ensures m in s.objects[n := ideal] && at[m] in heap[at[n] := actual]
      ensures CellMoved(at, s.objects[n := ideal][m], heap[at[n] := actual][at[m]])
    {
      assert m == n || at[m] != at[n];
    }
  }

  /** What a program can reach on the real heap are objects it made, at the addresses they mirror. */
  lemma NothingElse(at: map<nat, nat>, s: Ideal, heap: map<nat, Cell>, handles: seq<Slot>)
    requires Mirrors(at, s, heap, handles) && 0 !in heap
    ensures ReachableSet(heap, RootAddresses([handles], 0)) <= at.Values
  {
    var roots := RootAddresses([handles], 0);
    forall address | address in roots && address in heap ensures address in at.Values {
      var r, i :| 0 <= r < |[handles]| && 0 <= i < |[handles][r]| && [handles][r][i] == Reference(address);
      assert SlotMoved(at, s.handles[i], handles[i]);
    }
    forall from, target | from in at.Values && target in heap && PointsTo(heap, from, target)
      ensures target in at.Values
    {
      var n :| n in at && at[n] == from;
      var i :| 0 <= i < |heap[from].slots| && heap[from].slots[i] == Reference(target);
      assert SlotMoved(at, s.objects[n].slots[i], heap[from].slots[i]);
    }
    ReachableSetLeast(heap, roots, at.Values);
  }

  // ---- When an instruction must succeed ----

  /** The pages an instruction may ask for. */
  function PagesAsked(i: Instruction): nat
    requires ValidInstruction(i)
  {
    match i
    case Make(size, _) => PagesNeeded(RoundedSize(size))
    case TakePages(pages) => pages
    case _ => 0
  }

  /** One of the requests from number `from` up to number `to`, for at most `most` pages, was refused. */
  ghost predicate Refused(host: (nat, nat) -> bool, from: nat, to: nat, most: nat) {
    exists n: nat, pages: nat :: from <= n < to && 0 < pages <= most && !host(n, pages)
  }

  /** Why an instruction may fail: its pages are more than addresses are left behind `heapEnd`, or the host refused. */
  ghost predicate Starved(host: (nat, nat) -> bool, i: Instruction, heapEnd: nat, from: nat, to: nat)
    requires ValidInstruction(i)
  {
    (i.Make? || i.TakePages?) && (heapEnd + PagesAsked(i) >= PAGE_LIMIT || Refused(host, from, to, PagesAsked(i)))
  }

  lemma StarvedBy(vm: Vm, i: Instruction, asked: nat)
    requires ValidInstruction(i) && (i.Make? || i.TakePages?) && NoPages(vm, PagesAsked(i), asked)
    requires vm.Valid()
    ensures Starved(vm.host, i, vm.heapEnd, asked, vm.growths)
  {
    hide PagesAsked;
    if vm.heapEnd + PagesAsked(i) < PAGE_LIMIT {
      var missing := Missing(vm.heapEnd + PagesAsked(i), vm.size);
      assert PageAddress(vm.heapEnd + PagesAsked(i)) <= PageAddress(PagesAsked(i)) + vm.size;
      assert 0 < missing <= PagesAsked(i) && !vm.host(vm.growths - 1, missing);
    }
  }

  /** What no heap has the pages for is more than this one can end at. */
  lemma StarvedEver(vm: Vm, size: nat, kind: nat, asked: nat)
    requires vm.Valid() && size <= U32_MAX && NeverFits(RoundedSize(size))
    ensures Starved(vm.host, Make(size, kind), vm.heapEnd, asked, vm.growths)
  {
    assert vm.heapEnd > 0 && PagesFor(RoundedSize(size)) >= PAGE_LIMIT - 1;
  }

  // ---- The program on the real heap ----

  /** The handles are the program's only roots. */
  ghost predicate Rooted(vm: Vm)
    reads vm`rootRanges, vm`rootShape
  {
    |vm.rootRanges| == 1 && vm.rootShape == 0
  }

  /** The state of the heap and the program is that of the ideal run. */
  ghost predicate Holds(vm: Vm, s: Ideal, at: map<nat, nat>)
    reads vm
  {
    vm.Valid() && Rooted(vm) && Mirrors(at, s, vm.Heap(), vm.rootRanges[0])
  }

  lemma HandlesStorable(at: map<nat, nat>, s: Ideal, heap: map<nat, Cell>, handles: seq<Slot>, low: nat)
    requires Mirrors(at, s, heap, handles)
    ensures Refers(heap, low, handles)
  {
    forall i | 0 <= i < |handles| && handles[i].Reference? ensures handles[i].address in heap {
      assert SlotMoved(at, s.handles[i], handles[i]);
    }
  }

  lemma HeapAboveZero(vm: Vm)
    requires vm.Valid()
    ensures 0 !in vm.Heap() && 0 < PageAddress(vm.heapStart)
  {
    if 0 in vm.Heap() {
      StorageInRun(vm, 0);
    }
  }

  /** The object behind a handle, when the handle holds one. */
  lemma HeldMirrors(at: map<nat, nat>, s: Ideal, heap: map<nat, Cell>, handles: seq<Slot>, handle: nat)
    requires Mirrors(at, s, heap, handles)
    ensures Held(s.handles, handle).Some? <==> Held(handles, handle).Some?
    ensures Held(handles, handle).Some? ==>
      && var n := Held(s.handles, handle).value;
      && n in at && Held(handles, handle).value == at[n] && at[n] in heap && n in s.objects
      && CellMoved(at, s.objects[n], heap[at[n]])
  {
    if handle < |handles| {
      assert SlotMoved(at, s.handles[handle], handles[handle]);
    }
    hide CellMoved;
  }

  method PointHandles(vm: Vm, handles: seq<Slot>, ghost s: Ideal, ghost at: map<nat, nat>)
    requires vm.Valid() && Mirrors(at, s, vm.Heap(), handles)
    modifies vm`rootRanges, vm`rootShape
    ensures Holds(vm, s, at)
  {
    hide Vm.Valid, Mirrors;
    HandlesStorable(at, s, vm.Heap(), handles, PageAddress(vm.heapStart));
    HeapAboveZero(vm);
    PointRoots(vm, [handles], 0);
  }

  method MakeObject(vm: Vm, size: nat, kind: nat, ghost s: Ideal, ghost at: map<nat, nat>)
    returns (made: bool, ghost now: map<nat, nat>)
    requires Holds(vm, s, at) && size <= U32_MAX
    modifies vm
    ensures Holds(vm, IdealStep(s, Make(size, kind), made), now) && MovesOn(vm)
    ensures !made ==> Starved(vm.host, Make(size, kind), vm.heapEnd, old(vm.growths), vm.growths)
  {
    hide Vm.Stable, Vm.ListsValid, Vm.MarkStackValid, Vm.Unmarked, Objects, OthersKept, KeepsSystem, Holders;
    hide Mirrors, Survived, HeaderFor, NewObject, ReachableSet, RootAddresses, Fits, Room, HeaderOf, RoundedSize, Kept;
    hide Starved, NoPages, PagesNeeded, NeverFits, Restrict, NoAdjacentFree, NoCells;
    var handles := vm.rootRanges[0];
    assert vm.rootRanges == [handles];
    ghost var heap := vm.Heap();
    var address, header := Allocate(vm, size, kind);
    made := address.Some?;
    now := Kept(at, ReachableSet(heap, RootAddresses([handles], 0)));
    if made {
      ghost var cell := NewObject(kind, header, RoundedSize(size));
      SurvivorsMirror(at, s, heap, handles, vm.Heap() - {address.value});
      OneHeader(header, RoundedSize(size), 0);
      FreshObject(kind, header, RoundedSize(size));
      MadeMirrors(now, s, vm.Heap(), handles, address.value, cell);
      now := now[s.next := address.value];
      PointHandles(vm, handles + [Reference(address.value)], IdealStep(s, Make(size, kind), true), now);
    } else {
      SurvivorsMirror(at, s, heap, handles, vm.Heap());
      if NeverFits(RoundedSize(size)) {
        StarvedEver(vm, size, kind, old(vm.growths));
      } else {
        StarvedBy(vm, Make(size, kind), old(vm.growths));
      }
    }
  }

  lemma FreshObject(kind: nat, header: nat, size: nat)
    ensures NewObject(kind, header, size).Object? && NewObject(kind, header, size).slots == []
  {}

  lemma CollectedSurvive(heap: map<nat, Cell>, roots: set<nat>)
    ensures Survived(heap, roots, Restrict(heap, ReachableSet(heap, roots)))
  {}

  method CollectAll(vm: Vm, ghost s: Ideal, ghost at: map<nat, nat>) returns (ghost now: map<nat, nat>)
    requires Holds(vm, s, at)
    modifies vm
    ensures Holds(vm, s, now) && MovesOn(vm)
  {
    hide Vm.Stable, Vm.ListsValid, Vm.MarkStackValid, Vm.Unmarked, Objects, OthersKept, KeepsSystem, Holders;
    hide Mirrors, Survived, ReachableSet, RootAddresses, Restrict, NoAdjacentFree, Kept;
    var handles := vm.rootRanges[0];
    assert vm.rootRanges == [handles];
    ghost var heap := vm.Heap();
    CollectedSurvive(heap, RootAddresses([handles], 0));
    Collect(vm);
    now := Kept(at, ReachableSet(heap, RootAddresses([handles], 0)));
    SurvivorsMirror(at, s, heap, handles, vm.Heap());
  }

  method FetchSlot(vm: Vm, handle: nat, index: nat, ghost s: Ideal, ghost at: map<nat, nat>)
    requires Holds(vm, s, at)
    modifies vm
    ensures Holds(vm, IdealStep(s, Fetch(handle, index), true), at) && MovesOn(vm)
  {
    hide Mirrors;
    var handles := vm.rootRanges[0];
    var held := Held(handles, handle);
    HeldMirrors(at, s, vm.Heap(), handles, handle);
    if held.Some? && index < |vm.cells[held.value].slots| {
      FetchedMirror(at, s, vm.Heap(), handles, Held(s.handles, handle).value, index);
      PointHandles(vm, handles + [vm.cells[held.value].slots[index]], IdealStep(s, Fetch(handle, index), true), at);
    }
  }

  method FillObject(vm: Vm, handle: nat, operands: seq<Operand>, data: seq<nat>,
                    ghost s: Ideal, ghost at: map<nat, nat>)
    requires Holds(vm, s, at)
    modifies vm
    ensures Holds(vm, IdealStep(s, Fill(handle, operands, data), true), at) && MovesOn(vm)
  {
    hide Mirrors;
    var handles := vm.rootRanges[0];
    var held := Held(handles, handle);
    HeldMirrors(at, s, vm.Heap(), handles, handle);
    if held.Some? && HasRoomFor(vm.cells[held.value], operands, data) {
      ghost var n, was := Held(s.handles, handle).value, vm.Heap()[held.value];
      var slots := AllChosen(handles, operands);
      ChosenStorable(at, s, vm.Heap(), handles, operands, PageAddress(vm.heapStart));
      ChosenMoved(at, s.handles, handles, operands);
      FilledMirror(at, s, vm.Heap(), handles, n,
        Object(s.objects[n].kind, s.objects[n].sizeClass, s.objects[n].room, AllChosen(s.handles, operands), data),
        Object(was.kind, was.sizeClass, was.room, slots, data));
      Store(vm, held.value, slots, data);
    }
  }

  lemma ChosenStorable(at: map<nat, nat>, s: Ideal, heap: map<nat, Cell>, handles: seq<Slot>, operands: seq<Operand>,
                       low: nat)
    requires Mirrors(at, s, heap, handles)
    ensures Refers(heap, low, AllChosen(handles, operands)) && Moved(at, s.handles, handles)
  {
    HandlesStorable(at, s, heap, handles, low);
    hide Mirrors;
  }

  /** Performs one instruction; `made` says whether memory sufficed for it. */
  method Execute(vm: Vm, i: Instruction, ghost s: Ideal, ghost at: map<nat, nat>)
    returns (made: bool, ghost now: map<nat, nat>)
    requires Holds(vm, s, at) && ValidInstruction(i)
    modifies vm
    ensures Holds(vm, IdealStep(s, i, made), now) && MovesOn(vm)
    ensures !made ==> Starved(vm.host, i, vm.heapEnd, old(vm.growths), vm.growths)
  {
    hide Mirrors, Vm.Valid, Starved, NoPages;
    made, now := true, at;
    match i {
      case Make(size, kind) =>
        made, now := MakeObject(vm, size, kind, s, at);
      case Forget(handle) =>
        ForgottenMirror(at, s, vm.Heap(), vm.rootRanges[0], handle);
        PointHandles(vm, Without(vm.rootRanges[0], handle), IdealStep(s, i, true), at);
      case Fetch(handle, index) =>
        FetchSlot(vm, handle, index, s, at);
      case Fill(handle, operands, data) =>
        FillObject(vm, handle, operands, data, s, at);
      case CollectNow =>
        now := CollectAll(vm, s, at);
      case TakePages(pages) =>
        var page := TakePagesForRunner(vm, pages);
        made := page.Some?;
        if !made {
          StarvedBy(vm, i, old(vm.growths));
        }
    }
  }

  method Start(heapStart: nat, size: nat, host: (nat, nat) -> bool, eager: bool) returns (vm: Vm)
    requires 0 < heapStart <= size && heapStart <= PageAddress(PAGE_LIMIT - 1) && size % PAGE_SIZE == 0
    ensures fresh(vm) && Holds(vm, Ideal(map[], [], 0), map[]) && vm.host == host && vm.growths == 0
  {
    vm := new Vm.InitHeap(heapStart, size, host);
    vm.collectEveryAllocation := eager;
    PointHandles(vm, [], Ideal(map[], [], 0), map[]);
  }

  lemma AtTheEnd(vm: Vm, s: Ideal, at: map<nat, nat>)
    requires Holds(vm, s, at)
    ensures vm.Valid() && Rooted(vm) && Mirrors(at, s, vm.Heap(), vm.rootRanges[0])
    ensures ReachableSet(vm.Heap(), vm.Roots()) <= at.Values && ContentsApart(vm)
  {
    StayApart(vm);
    hide Mirrors, Vm.Valid, ReachableSet, RootAddresses, ContentsApart;
    assert vm.rootRanges == [vm.rootRanges[0]];
    HeapAboveZero(vm);
    NothingElse(at, s, vm.Heap(), vm.rootRanges[0]);
  }

  /** The counts of requests to the host before each instruction and at the end. */
  ghost predicate Counts(asked: seq<nat>, instructions: nat, growths: nat) {
    && |asked| == instructions + 1 && asked[0] == 0 && asked[instructions] == growths
    && forall i :: 0 <= i < instructions ==> asked[i] <= asked[i + 1]
  }

  /** Every instruction that failed had to, with a heap that ends at `heapEnd` or earlier. */
  ghost predicate OnlyStarved(host: (nat, nat) -> bool, program: seq<Instruction>, made: seq<bool>, asked: seq<nat>,
                              heapEnd: nat)
    requires |made| <= |program| && |asked| == |made| + 1
    requires forall i :: 0 <= i < |program| ==> ValidInstruction(program[i])
  {
    forall i :: 0 <= i < |made| && !made[i] ==> Starved(host, program[i], heapEnd, asked[i], asked[i + 1])
  }

  lemma StarvedLater(host: (nat, nat) -> bool, program: seq<Instruction>, made: seq<bool>, asked: seq<nat>,
                     heapEnd: nat, more: bool, growths: nat, later: nat)
    requires forall i :: 0 <= i < |program| ==> ValidInstruction(program[i])
    requires |made| < |program| && |asked| == |made| + 1 && OnlyStarved(host, program, made, asked, heapEnd)
    requires heapEnd <= later && (!more ==> Starved(host, program[|made|], later, asked[|made|], growths))
    ensures OnlyStarved(host, program, made + [more], asked + [growths], later)
  {
    hide Refused, PagesAsked;
    forall i | 0 <= i < |made + [more]| && !(made + [more])[i]
      ensures Starved(host, program[i], later, (asked + [growths])[i], (asked + [growths])[i + 1])
    {
      if i < |made| {
        assert Starved(host, program[i], heapEnd, asked[i], asked[i + 1]);
      }
    }
  }

  /**
    * Runs a program on an empty heap, with or without a collection before every allocation; it fills objects within
    * their storage only. In the end, as after every instruction, what the program can reach is what it would have had
    * every object stayed, and what objects hold does not overlap. An instruction fails only for want of addresses or
    * when the host refuses to grow memory while it runs.
    */
  method RunProgram(heapStart: nat, size: nat, host: (nat, nat) -> bool, eager: bool, program: seq<Instruction>)
    returns (vm: Vm, made: seq<bool>, asked: seq<nat>, ghost at: map<nat, nat>)
    requires 0 < heapStart <= size && heapStart <= PageAddress(PAGE_LIMIT - 1) && size % PAGE_SIZE == 0
    requires forall i :: 0 <= i < |program| ==> ValidInstruction(program[i])
    ensures |made| == |program| && vm.Valid() && Rooted(vm)
    ensures Mirrors(at, IdealRun(program, made), vm.Heap(), vm.rootRanges[0])
    ensures ReachableSet(vm.Heap(), vm.Roots()) <= at.Values && ContentsApart(vm)
    ensures Counts(asked, |program|, vm.growths) && OnlyStarved(host, program, made, asked, vm.heapEnd)
  {
    hide Holds, IdealStep, OnlyStarved, Starved;
    made, asked, at := [], [0], map[];
    vm := Start(heapStart, size, host, eager);
    NothingStarved(host, program, vm.heapEnd);
    for count := 0 to |program|
      invariant |made| == count && Holds(vm, IdealRun(program[..count], made), at) && vm.host == host
      invariant Counts(asked, count, vm.growths) && OnlyStarved(host, program, made, asked, vm.heapEnd)
    {
      ghost var s, heapEnd := IdealRun(program[..count], made), vm.heapEnd;
      var fits;
      fits, at := Execute(vm, program[count], s, at);
      StarvedLater(host, program, made, asked, heapEnd, fits, vm.growths, vm.heapEnd);
      made, asked := made + [fits], asked + [vm.growths];
      assert program[..count + 1][..count] == program[..count] && made[..count] == made[..|made| - 1];
    }
    assert program[..|program|] == program;
    AtTheEnd(vm, IdealRun(program, made), at);
  }

  lemma NothingStarved(host: (nat, nat) -> bool, program: seq<Instruction>, heapEnd: nat)
    requires forall i :: 0 <= i < |program| ==> ValidInstruction(program[i])
    ensures OnlyStarved(host, program, [], [0], heapEnd)
  {}
}
