# ExS: a verified model

ExS is a scripting language that compiles to WebAssembly. This project models the hardest logic of its runtime
(`exs-core`), of two crates beside it and of a few compiler passes in Dafny, and proves what that code is for. Code that
changes state step by step is modelled by methods with loops over fields, arrays and buffers, each proved against a
specification on values; code made of expressions is modelled by functions; what the code promises is proved about both.

| folder | what it models | main results |
|---|---|---|
| `heap` | the mark-and-sweep collector over the size-class page allocator: headers of page runs, free runs, lazily linked class pages, intrusive free lists, the growable mark stack | `Collect` keeps exactly the reachable objects, unchanged, even when the mark stack cannot grow; `Allocate` never disturbs a reachable object, and fails only when a collection left no room and the host gives none; every program sees what it would see on a heap that never collects, and what its objects hold never overlaps (`RunProgram`) |
| `float` | shortest printing of binary64 numbers (section 3.4 of IEEE 754-2019) over 170-limb integers | the text reads back as the same float, no decimal with fewer digits does, and no other of that length that does is nearer; at most 17 digits |
| `compiler` | constant resolution and inlining over the modules of a project, closure captures, import cycles, and a small evaluator of the language | a project that inlines without diagnostics keeps its results; a closure runs the same with only its captures; a cycle is found exactly when there is one |
| `image` | the boundary image codec: records with back-patched offsets in a growing buffer | adopting the image written for a value gives back that value, and exactly when it is the same value; the exact size of every image |
| `tables` | the case-mapping tables: varints, runs, multi-character entries, ranges, the blob | the lookups of the tables built from two case mappings and two properties give all four back at every character |
| `objects` | hidden-class shapes and untyped Objects | shapes are canonical and never change; Objects are insertion-ordered maps, also when memory runs out |
| `strings` | Int texts, batched `+`, escapes and the literal spelling of values | batched `+` equals adding one operand at a time, Errors and positions included, and a spelling has exactly the measured bytes, each under its exact condition; what rows add up to and what spellings look like |
| `lexer` | interpolations of formatted strings, String literals | positions in an interpolation map back exactly; every escaped text reads back |
| `values` | native deep equality | definite verdicts are right, cyclic values included, and never contradict each other when swapped |
| `dates`, `ranges` | civil dates; native Range steps and counted loops | day numbers count the days; steps yield the progression; counting equals stepping |
| `common` | `Option` and `Result` | |

## How the model reads the source

**Heap.** Memory is held field by field: run headers, live counts, cells, mark bits and mark-stack words. Pages have
numbers, and run links are page numbers; addresses appear where the source computes them. What the host answers to
each request to grow memory is a parameter, and requests are counted, so that a failure can name the request that was
refused. `runs`, `freeList` and `cellLists` are ghost views that the validity invariant ties to what is stored. The
slots of an object are part of its contents, because the function that lists them is not in `collector.rs`. Stale
cells past a class cursor stay in the cell map, as they stay in memory. A reference is valid when it lies below the
heap or points to an object. An object carries the bytes of the storage it was given (`room`); it is filled only up to
them, as the heap of the source requires, and validity says that its cell or run has them all. In whole runs a program
refers to objects by handles, which are its roots; the heap that never collects numbers its objects in the order in
which they are made.

**Floats.** Numbers are exact: real numbers in the specification, limbs in the code. `Big` computes modulo 2^5440 and
is proved exact whenever the result fits. Two branches of the source turn out never to run: the digit loop always
stops by its own test by digit 17, and the all-nines carry never happens. The interval of `decode` begins half way to
the next float down, except at one float, the smallest normal number, where it begins above half way; `DecodeLow` says
so in both directions. Both ends of a subnormal's interval count as inside, also for odd ones, but no decimal of up to
17 digits reaches such an end (`SubnormalEnds`), so the text still reads back. At the smallest normal number, no
decimal of up to 16 digits reads back at all (`SixteenMiss`), so that the narrower interval costs no digit.

**Compiler.** The evaluator runs on fuel, with a store of locations and closures that keep an environment; it covers
let, assignment, blocks, conditions, loops, closures, calls, match and interpolated parts, over modules that give
canonical names to what they use. What operators do is a parameter: an operator sees literals and the type of
everything else, may be settled by its left operand alone, as `&&` and `||`, may make an Error, and may leave the
function, as `?`; a condition that is no Bool leaves it with a TypeError. Constants are the outermost bindings of
their modules, in locations of their own. Stored closures are rewritten as well, since they hold code; data is the
same.

**Image.** Values are trees. A value is adopted as a value, not as heap objects. `Crossed` says what comes back for
every value, `CrossesUnchanged` exactly which values come back the same: typed Objects with their fields in order, no
other keys, and identities that name the type they have. Whether memory, with a collection at need, has the pages of
each request is a parameter; so is whether a request for the storage of a shape or of an Object's slots finds some.

**Strings and lexer.** Texts are sequences of characters with explicit UTF-8 lengths; scanning by bytes and by
characters agree because every byte that is looked for is ASCII. The comment of `numbers.rs` says that a Bool counts
as an Int; the code does not treat it as a number, and the model follows the code.

**Ranges.** `Next` is the prelude's own `Range::next`; the loop that counts is the one `iteration.rs` generates.

## Findings

What the code promises fails on these inputs; each line names the exact condition under which it holds.

- Allocation (`allocator.rs:54`) rounds sizes up without a check: a request of 0xFFFF_FFF9 to 0xFFFF_FFFF bytes is
  rounded to 0 and gets a 16-byte cell of which nothing is cleared. The heap stays valid as the allocator sees it; the
  storage has room for the request if and only if that is at most 0xFFFF_FFF8 (`Allocate`, `RoundedHolds`,
  `WrappedRequest`).
- A String of 0xFFFF_FFE9 to 0xFFFF_FFEF bytes makes such a request (`strings.rs:389`) and is written past its
  storage. Any other of more than 0xFFFD_FFE0 bytes is refused, since no heap has the pages (`StorageBands`). Batched
  `+` differs from single additions if and only if the whole run has no storage and exactly one of it and of the first
  partial sum without storage has one of those seven lengths (`Concat`). A String of 0x7FFF_FFF5 letters twice and
  then 16 letters is refused at once, but overruns its storage one at a time (`SingleOverruns`); a String of
  0x7FFF_FFF0 letters twice and then 9 letters overruns its storage at once, but is refused one at a time
  (`BatchOverruns`).
- The literal walk (`literal.rs:70-120`) counts bytes in 32 bits without a check. It measures as many bytes as it
  writes if and only if the spelling is shorter than 2^32 bytes (`Literal`). Lists share their elements, so little
  memory is enough to spell more: a List of 256 references to one String of 16 MiB (`LargeSpelling`).
- `decode` begins its interval half way to the next float down if and only if the float is not the smallest normal
  number (`DecodeLow`).

## Model

| member | source | states |
|---|---|---|
| HeapState.Vm.InitHeap | crates/exs-core/src/allocator.rs:35-42 | an empty valid heap begins at the first page boundary at or after the given byte |
| HeapState.ReachableSetClosed | crates/exs-core/src/collector.rs:166-192 | what the roots reach contains every object in the roots and every object its members refer to |
| HeapState.ReachableSetLeast | crates/exs-core/src/collector.rs:166-192 | and is contained in every set that does |
| HeapLayout.ClassForSize | crates/exs-layout/src/size_class.rs:16-25 | the smallest class that holds the size, none exactly above 2048 bytes |
| HeapLayout.CellInPage | crates/exs-core/src/allocator.rs:129-142 | every cell of a class page is aligned to 8 bytes and lies with all its bytes in its own page |
| HeapLayout.IndexOfOffset | crates/exs-core/src/allocator.rs:135-142 | dividing a cell's offset by its class size gives its index back |
| Pages.TakePages | crates/exs-core/src/pages.rs:55-89 | the run taken is the first listed free run that is large enough, unlinked or cut, and otherwise fresh memory; it fails, and changes nothing, only when no free run is large enough and the heap cannot grow: no address would be left, or the host has just refused what it lacks |
| Pages.CarvePages | crates/exs-core/src/pages.rs:92-105 | the new run begins at the old end of the heap and the pages still tile the heap; it fails, and changes nothing, only when no address would be left or the host refuses the missing pages |
| Pages.ReleaseRun | crates/exs-core/src/pages.rs:108-121 | the run is the first free run, in front of all others |
| Marking.Marker.Open | crates/exs-core/src/collector.rs:67-92 | marking starts with an empty stack on storage it owns, reused or new, and without storage only when memory has no pages for it |
| Marking.Marker.MarkAddress | crates/exs-core/src/collector.rs:177-192 | the object is marked and it is on the stack, or the overflow is recorded; the marking invariant holds |
| Marking.Marker.GrowStack | crates/exs-core/src/collector.rs:195-222 | a doubled stack holds the same entries and gives its old storage back; no object page changes; it stays as it is only when memory has no run of twice its pages |
| Marking.Marker.Trace | crates/exs-core/src/collector.rs:225-255 | after tracing, everything the object refers to is marked, so it is no longer pending |
| Marking.Marker.MarkRoots | crates/exs-core/src/collector.rs:104-123 | every object in the root ranges and the root shape is marked, and nothing unreachable |
| Marking.Marker.Drain | crates/exs-core/src/collector.rs:126-132 | the stack ends empty and what it held is traced; marks only grow |
| Marking.Marker.Rescan | crates/exs-core/src/collector.rs:135-163 | every object marked before the scan is traced again, whatever the scan itself marks |
| Marking.Marker.MarkedExactly | crates/exs-core/src/collector.rs:33-45 | an empty stack without overflow means that exactly the reachable objects are marked |
| Collecting.MarkAll | crates/exs-core/src/collector.rs:33-45 | the rounds over the heap end, because each overflow marks an object, also when the stack never grows |
| Collecting.MarkReachable | crates/exs-core/src/collector.rs:33-45 | marks are exactly the reachable objects; no object and no other system run changes |
| Sweeping.SweepClassPage | crates/exs-core/src/collector.rs:352-379 | counts the kept cells, clears their marks, links all others below the cursor exactly once, and drops the cursor of a page without kept cells |
| Sweeping.FlushPending | crates/exs-core/src/collector.rs:398-414 | the pending pages become one free run, next to no other |
| Sweeping.SweepRuns | crates/exs-core/src/collector.rs:297-348 | the walk rebuilds runs and lists for every page before it and counts live bytes, saturating |
| Sweeping.Sweep | crates/exs-core/src/collector.rs:297-348 | exactly the marked objects stay, unchanged; marks are clear; free runs are not adjacent; system runs stay; the threshold is twice the live bytes within its bounds |
| Collecting.Collect | crates/exs-core/src/collector.rs:33-45 | the heap afterwards is the old one restricted to what its roots reach; it is valid, its free runs are not adjacent and every other system run stays |
| Allocating.LinkCells | crates/exs-core/src/allocator.rs:96-126 | the cells are linked in address order before the list, which stays acyclic; all other cells and lists stay |
| Allocating.RefillClass | crates/exs-core/src/allocator.rs:96-126 | the class's free list is nonempty afterwards, or no list changed, because the class has no unlinked cell left and there is no page for another; no object changes |
| Allocating.AllocateCell | crates/exs-core/src/allocator.rs:75-89 | a zeroed object in a cell of the class; every object reachable before is still there, unchanged; a listed cell is taken without anything else, an unlinked cell or a free page is used without a collection, and otherwise it fails only after one |
| Allocating.AllocateLarge | crates/exs-core/src/allocator.rs:145-169 | a zeroed object on a run of its own that holds all its bytes; everything reachable stays; with a free run that is large enough, and no collection due, it succeeds without one, and otherwise it fails only after one that left no such run and no growth |
| Allocating.Allocate | crates/exs-core/src/allocator.rs:49-72 | a new zeroed object at an address no reachable object has; its storage has room for the requested size exactly when that is at most 0xFFFF_FFF8; it fails, and everything reachable stays, for every size that no heap has the pages for, and otherwise only when a collection ran and left no cell of the class, no free run of the pages and no growth by them; what is allocated counts towards the next collection |
| HeapLayout.RoundedHolds | crates/exs-core/src/allocator.rs:54 | rounding a size keeps or raises it exactly up to 0xFFFF_FFF8, and wraps to 0 above |
| HeapLayout.WrappedRequest | crates/exs-core/src/allocator.rs:54-58 | a request of 0xFFFF_FFF9 bytes is rounded to 0 and gets a 16-byte cell |
| Allocating.StorageDisjoint | crates/exs-core/src/allocator.rs:49-72 | the storage of two objects or free cells never overlaps |
| Allocating.StorageInRun | crates/exs-core/src/allocator.rs:49-72 | the storage of an object is aligned and lies inside its run and the heap |
| Running.Perform | crates/exs-core/src/allocator.rs:35-169 | every step a program can take, storing within the storage of its objects, keeps the heap valid; only garbage ever disappears |
| Running.StayApart | crates/exs-core/src/allocator.rs:49-72 | what an object holds lies in its own storage and in the heap, and apart from what every other object holds |
| Running.PageHasRun | crates/exs-core/src/collector.rs:297-348 | every page of the heap belongs to exactly one run |
| Running.FreeListExact | crates/exs-core/src/allocator.rs:96-126 | a class's free list holds exactly the free cells below its cursor, each once, and ends |
| WholeRuns.RunProgram | crates/exs-core/src/allocator.rs:35-72 | whatever a program does from an empty heap on within the storage of its objects, with collections at any time and memory reused, what its handles reach is what it would be on a heap that never collects and never reuses storage, nothing else is reachable, and what objects hold does not overlap; an instruction fails only for want of addresses, or when the host refuses it pages it needs |
| WholeRuns.SurvivorsMirror | crates/exs-core/src/collector.rs:33-45 | a collection, or a failed allocation, leaves the part the program reaches as it was |
| WholeRuns.MadeMirrors | crates/exs-core/src/allocator.rs:49-72 | a new object takes no place of an object the program can reach |
| WholeRuns.NothingElse | crates/exs-core/src/collector.rs:166-192 | everything reachable on the real heap is an object the program made |
| BigIntegers.Big.MulSmall | crates/exs-core/src/big.rs:60-71 | multiplies, modulo the capacity; stays trimmed when the product fits and is not zero |
| BigIntegers.Big.AddSmall | crates/exs-core/src/big.rs:74-85 | adds, modulo the capacity, and trims |
| BigIntegers.Big.ShiftLeft | crates/exs-core/src/big.rs:100-122 | multiplies by the power of two, modulo the capacity |
| BigIntegers.Big.ShiftRight1 | crates/exs-core/src/big.rs:125-131 | halves, rounding down |
| BigIntegers.Big.MulPow5 | crates/exs-core/src/big.rs:88-97 | multiplies by the power of five, thirteen factors at a time |
| BigIntegers.Big.MulPow10 | crates/exs-core/src/big.rs:199-202 | multiplies by the power of ten |
| BigIntegers.Big.Add | crates/exs-core/src/big.rs:178-196 | adds; trimmed sums that fit stay trimmed |
| BigIntegers.Big.Sub | crates/exs-core/src/big.rs:149-162 | subtracts a number that is not larger, exactly |
| BigIntegers.Big.CompareTo | crates/exs-core/src/big.rs:142-146 | orders trimmed numbers as their values are ordered |
| Floats.DecodeHigh | crates/exs-core/src/float_text.rs:32-68 | the interval of a float ends half way to the next float |
| Floats.DecodeLow | crates/exs-core/src/float_text.rs:32-68 | and begins half way to the float before, exactly unless the float is the smallest normal one, never below it |
| Scaling.EstimateFloors | crates/exs-core/src/float_text.rs:71-75 | the multiplied and shifted bit length is the exact decimal logarithm of the power of two, rounded down |
| Scaling.EstimateWithinOne | crates/exs-core/src/float_text.rs:71-75 | 10^(k-1) < high < 10^(k+1), strictly, for every float |
| ShortestDigits.TestsMean | crates/exs-core/src/float_text.rs:140-145 | the loop's two tests say exactly whether the digits, and the digits rounded up, lie in the interval |
| ShortestDigits.NothingAround | crates/exs-core/src/float_text.rs:140-145 | when both tests fail, no decimal that short lies in the interval |
| ShortestDigits.Chosen | crates/exs-core/src/float_text.rs:152-155 | the choice between down and up is the shortest decimal, and the nearer one, with ties up |
| DigitGeneration.SeventeenDigits | crates/exs-core/src/float_text.rs:144-146 | the interval of every float is wider than a unit of the seventeenth digit |
| DigitGeneration.Fixed | crates/exs-core/src/float_text.rs:112-121 | after the fix of the estimate the first digit is next |
| DigitGeneration.ExtractDigit | crates/exs-core/src/float_text.rs:122-139 | subtracting 8, 4, 2 and 1 times the scale divides exactly, with a digit below ten |
| DigitGeneration.Generate | crates/exs-core/src/float_text.rs:128-151 | one to seventeen digits, stopped by one of its tests, with the state that belongs to them |
| FloatText.NoNineRoundsUp | crates/exs-core/src/float_text.rs:152-171 | digits that end in nine are never rounded up |
| FloatText.RoundUp | crates/exs-core/src/float_text.rs:156-171 | rounding up adds one to the digits as a number, with and without all nines |
| FloatText.ShortestOf | crates/exs-core/src/float_text.rs:88-174 | for every positive finite float the digits lie in its interval, no shorter decimal does, and none of that length is nearer |
| FewestDigits.ShortestIsFewest | crates/exs-core/src/float_text.rs:88-174 | such digits round to the float, no decimal with fewer digits does at any power of ten, and of those that end at the same power and do none is nearer |
| FewestDigits.BackIsInside | crates/exs-core/src/float_text.rs:32-68 | a decimal that rounds to a float lies in its interval, unless the float is the smallest normal one |
| ReadBack.IntervalReadsBack | crates/exs-core/src/float_text.rs:32-68 | every decimal of up to 17 digits in the interval rounds to that float, ties to even |
| ReadBack.ReadsBackOnce | crates/exs-core/src/float_text.rs:32-68 | a decimal rounds to one float only |
| ReadBack.SubnormalEnds | crates/exs-core/src/float_text.rs:36-41 | no decimal of up to 17 digits is half way between two subnormals |
| FloatPrinting.LayoutReads | crates/exs-core/src/float_text.rs:204-229 | placing the point and filling zeros keeps the number |
| FloatPrinting.LayoutIsTidy | crates/exs-core/src/float_text.rs:204-229 | digits that neither begin nor end with zero are laid out without a needless zero at either end, with digits on both sides of a point |
| FloatPrinting.FloatTextOf | crates/exs-core/src/float_text.rs:177-229 | every bit pattern has its text, which fits 352 bytes, reads back as the float, and has the fewest digits that do, without a needless zero; NaN, infinities and zeros by name |
| ConstantInlining.InlineModule | crates/exs-compiler/src/constants.rs:186-295 | every function is rewritten by scoped substitution, or the diagnostics are exactly the misuses among the free uses of names, in source order |
| Misuses.ReportsAreMisuses | crates/exs-compiler/src/constants.rs:297-487 | what is reported on a function is one misuse for each free use of a name that may not be used so, in source order, where free uses are read off the tokens of its body and its scopes |
| Misuses.MisusesCount | crates/exs-compiler/src/constants.rs:305-384 | a private constant is reported as often as it is read free, if it is hidden and not visible, and a constant as often as it is assigned free, if it is visible; never otherwise |
| ConstantMeaning.ConstantReads | crates/exs-compiler/src/constants.rs:264-487 | the expression put in place of a constant evaluates to what its binding holds |
| ConstantMeaning.InliningPreserves | crates/exs-compiler/src/constants.rs:264-487 | every run of the rewritten program is the run of the original, whose modules have the constants they may use as outermost bindings, under any shadowing |
| ConstantMeaning.SameResults | crates/exs-compiler/src/constants.rs:264-487 | from a start without closures both programs finish or not alike and return the same data |
| ConstantPass.InlineProject | crates/exs-compiler/src/module_graph.rs:118-147 | resolves all constants and rewrites every module, or gives the first constant that fails or all misuses among the free uses of names in the first module that has one |
| ConstantPass.ResolvingIsEvaluating | crates/exs-compiler/src/constants.rs:48-147 | every location holds what its constant's declaration evaluates to in its module exactly when it holds the literal the constant resolves to |
| ConstantPass.PassKeepsResults | crates/exs-compiler/src/module_graph.rs:118-147 | a project that resolves and inlines without diagnostics gives the same results before and after, across modules that name the same constants differently |
| ConstantResolution.Resolver.Value | crates/exs-compiler/src/constants.rs:81-99 | a value is the literal the chain of references ends in; an error is a cycle, a chain that ends in no constant expression, or an undeclared name |
| ConstantResolution.Resolve | crates/exs-compiler/src/constants.rs:48-64 | every constant gets the only value its chain ends in, exactly when all have one; otherwise the error is that of the first constant in order that has none |
| ConstantResolution.OneEnd | crates/exs-compiler/src/constants.rs:81-147 | ending in a literal, ending badly and being cyclic exclude each other |
| ConstantResolution.OneValue | crates/exs-compiler/src/constants.rs:81-147 | a chain of references ends in one literal only |
| ConstantResolution.ResolvesWhen | crates/exs-compiler/src/constants.rs:81-147 | a constant has a value exactly when its chain is neither cyclic nor ends badly |
| CaptureAnalysis.FunctionLowerer.LowerExpression | crates/exs-compiler/src/hir.rs:400-586 | the captures grow by exactly the enclosing names the expression uses, in order of first use, without repeats |
| CaptureAnalysis.FunctionLowerer.LowerClosure | crates/exs-compiler/src/hir.rs:642-668 | the closure's capture list is that of its uses, and the callable around it captures what passes through it |
| CaptureAnalysis.LowerFunction | crates/exs-compiler/src/hir.rs:117-131 | a declared function captures nothing, whatever names it uses; captures found before are kept |
| CaptureAnalysis.InheritNotes | crates/exs-compiler/src/hir.rs:610-668 | taking over an inner closure's captures is the same as noting its uses oneself |
| Scopes.NoteAllExact | crates/exs-compiler/src/hir.rs:610-639 | the list holds exactly the enclosing bindings used, each once, in order of first use |
| Misuses.UsesAreFree | crates/exs-compiler/src/hir.rs:400-639 | the names an expression uses are those of its free uses, in source order |
| Scopes.CapturesRestrict | crates/exs-compiler/src/hir.rs:595-639 | restricting an environment to the captures is restricting it to the names used |
| CaptureMeaning.CapturesSuffice | crates/exs-compiler/src/hir.rs:642-668 | running a closure's body with only its captures, and everything inside likewise, gives the same outcome as with the whole environment |
| ImportCycles.Search.Visit | crates/exs-compiler/src/loaded_project.rs:471-495 | a returned path is a real cycle; otherwise the module and all it leads to are finished and the stack is as before |
| ImportCycles.FindCycle | crates/exs-compiler/src/loaded_project.rs:470-507 | a path from a module back to itself along edges, exactly when the graph has one |
| ImportCycles.NoCycles | crates/exs-compiler/src/loaded_project.rs:470-507 | a graph whose modules finish in dependency order has no cycle |
| ImageLayout.HoldsKept | crates/exs-core/src/image_writer.rs:144-153 | records stay readable when the buffer grows and words beside them are stored |
| ImageLayout.SupportedWhen | crates/exs-core/src/image_writer.rs:176-394 | a value can be written if and only if all types, variants, fields and origins in it are known and it nests at most 128 levels deep |
| ImageWriter.Writer.GrowOutput | crates/exs-core/src/execution.rs:117-159 | the moved buffer is large enough and keeps every byte written; it fails, and the buffer stays, only when even the least pages for the bytes are refused or would be the whole address space |
| ImageWriter.Writer.Reserve | crates/exs-core/src/image_writer.rs:116-128 | the reserved bytes lie at the old end, aligned, and every byte before stays; it fails only for bytes that neither fit the buffer nor memory |
| ImageWriter.Writer.Value | crates/exs-core/src/image_writer.rs:176-211 | the record at the returned offset holds the value, and everything written before is kept; the image grows by exactly the size of the value |
| ImageWriter.WriteImage | crates/exs-core/src/image_writer.rs:61-80 | adopting the image gives the value as it crosses; it has exactly the size of the value and of its header; NotSupported only for values that nest too deeply or have no such type, and OutOfMemory only when some part of so many bytes has no room |
| ImageRoundTrip.ValueReads | crates/exs-core/src/image.rs:235-590 | adopting the record that holds a value gives the value as it crosses, Error origins, missing causes, host enums and kept identities included |
| UnchangedValues.CrossesUnchanged | crates/exs-core/src/image.rs:319-520 | a value comes back the same if and only if it stays as it is in every part |
| BoundaryValues.ResolveEnum | crates/exs-core/src/enums.rs:202-225 | the first enum type with that identity that has a variant of that name, and its first variant of the name; none exactly when no enum type has both |
| UnchangedValues.DeclaredEnumsStay | crates/exs-core/src/image.rs:468-520 | with identities and variant names that differ, every value of a declared enum comes back as it was when its payload does |
| UnchangedValues.ForeignEnumsStay | crates/exs-core/src/image.rs:468-520 | an enum whose identity no declared one has keeps identity and variant name |
| UnchangedValues.HostEnumsArrive | crates/exs-core/src/image.rs:468-520 | an enum of the host becomes the first variant of its name in the first declared enum with its identity and such a variant |
| CrossedFields.FieldsCross | crates/exs-core/src/image.rs:395-449 | what names an Object type of the program arrives as one, with exactly its declared fields: each the value under its name, or None without one |
| Varints.WriteVarint | crates/exs-layout/src/case_mapping_tests.rs:12-22 | appends the base-128 digits of the number |
| Varints.VarintReadsBack | crates/exs-layout/src/case_mapping.rs:30-45 | every 64-bit number reads back, and nothing behind it is consumed |
| Varints.SignedReadsBack | crates/exs-layout/src/case_mapping.rs:48-51 | so does every signed 64-bit number |
| CaseRuns.ContinueRun | crates/exs-layout/src/case_mapping_tests.rs:54-64 | a code that continues the current run keeps the runs exact: they hold the shifting characters so far, each with its shift, and no other |
| CaseRuns.FindsRun | crates/exs-layout/src/case_mapping.rs:117-143 | the decoder finds a shift exactly for the codes the runs hold, and the right one |
| CaseMappings.FindsMulti | crates/exs-layout/src/case_mapping.rs:90-116 | the decoder finds all characters exactly for the codes that map to several |
| CaseMappings.MappingReadsBack | crates/exs-layout/src/case_mapping.rs:90-143 | runs and entries together give the mapping back at every character, also inside runs of stride two |
| CaseMappings.EncodeMapping | crates/exs-layout/src/case_mapping_tests.rs:31-81 | decoding the two streams gives the mapping back at every character; their sizes are bounded |
| CaseRanges.EncodeRanges | crates/exs-layout/src/case_mapping_tests.rs:84-102 | decoding the ranges gives the property back at every code point |
| CaseTables.JoinSections | crates/exs-layout/src/case_mapping_tests.rs:124-146 | every section reads back from the blob |
| CaseTables.CaseTables.Map | crates/exs-layout/src/case_mapping.rs:90-143 | looks a character up as the decoders of the two sections do, on any bytes, runs whose end wraps past 32 bits included |
| CaseTables.CaseTables.InRanges | crates/exs-layout/src/case_mapping.rs:156-177 | looks a character up as the range decoder does, on any bytes |
| CaseTables.Build | crates/exs-layout/src/case_mapping_tests.rs:124-146 | the four lookups of the blob give both mappings and both properties back at every character |
| Shapes.Canonical | crates/exs-core/src/shapes.rs:90-125 | shapes with equal key sequences are the same shape |
| Shapes.ShapeTree.Transition | crates/exs-core/src/shapes.rs:90-125 | the one shape with the key added, an existing one without any change; no shape ever changes its keys, also when memory runs out half way; it fails only when one of its requests for storage finds none |
| Shapes.ShapeTree.ChildKey | crates/exs-core/src/shapes.rs:71-84 | finds a key exactly when a shape extends this one by it |
| Shapes.ShapeTree.ShapeFor | crates/exs-core/src/shapes.rs:129-135 | the shape with exactly these keys; it fails only when a request for storage finds none |
| Objects.PutLooksUp | crates/exs-core/src/objects.rs:137-150 | setting a name changes what that name has and nothing else |
| Objects.WithoutLooksUp | crates/exs-core/src/objects.rs:199-221 | removing a name changes what that name has and nothing else |
| Objects.UntypedObject.Get | crates/exs-core/src/objects.rs:127-131 | what the map has for the name, or None |
| Objects.UntypedObject.Find | crates/exs-core/src/objects.rs:188-192 | the shape and the position of the name in its keys, when the map has the name |
| Objects.UntypedObject.Set | crates/exs-core/src/objects.rs:137-150 | sets in the map, in place for a present name; unchanged, and only then failing, when a request for storage finds none or all slots are taken and twice as many have no 32-bit size |
| Objects.UntypedObject.Append | crates/exs-core/src/objects.rs:157-181 | appends to the map; unchanged, and only then failing, as for setting |
| Objects.UntypedObject.Remove | crates/exs-core/src/objects.rs:199-221 | removes from the map, keeping the order, and gives the value; unchanged, and only then failing, when a request for storage finds none |
| Objects.UntypedObject.Clear | crates/exs-core/src/objects.rs:224-230 | empties the map and zeroes its slots |
| Objects.CacheHolds | crates/exs-core/src/objects.rs:188-192 | a cached shape and position stay right for every Object of that shape |
| Objects.SameKeysSameShape | crates/exs-core/src/shapes.rs:1-7 | Objects share a shape exactly when they have the same keys in the same order |
| Decimals.IntReads | crates/exs-core/src/strings.rs:189-210 | the text of an Int reads back as that Int |
| Decimals.IntLen | crates/exs-core/src/strings.rs:178-186 | is the length of the text |
| Decimals.WriteInt | crates/exs-core/src/strings.rs:189-210 | the end of the 20-byte buffer holds the text of every 64-bit Int |
| Concatenation.RunFolds | crates/exs-core/src/strings.rs:338-363 | adding a run of renderable operands one at a time joins them at once when the result is stored; otherwise the first sum without storage overruns or is refused, by its length |
| Concatenation.TextComesFromText | crates/exs-core/src/strings.rs:338-363 | a row adds up to a String only if it begins with one and all other operands render |
| Concatenation.Measure | crates/exs-core/src/strings.rs:338-352 | the longest run of renderable operands, and its bytes and characters |
| Concatenation.Join | crates/exs-core/src/strings.rs:380-420 | the text of slots 0 to the end of the run, in exactly the measured bytes; an overrun when storage falls short, and nothing when no heap has it |
| Concatenation.Concat | crates/exs-core/src/strings.rs:323-375 | equals adding the operands from the left, with every Error, its data and its origin, if and only if the row does not slip; when it slips, one way overruns and the other is refused, by the length of the whole run |
| RowSums.IntRow | crates/exs-core/src/numbers.rs:203-209 | a row of Ints whose partial sums all fit 64 bits gives the Int of their sum |
| RowSums.OverflowRow | crates/exs-core/src/numbers.rs:168-209 | the first partial sum that does not fit gives an IntOverflowError with the sum before it and the position of that step |
| RowSums.FloatRow | crates/exs-core/src/numbers.rs:210-213 | from the first Float on, numbers add up as Floats in operand order, behind the sum of the Ints before |
| RowSums.ListRow | crates/exs-core/src/strings.rs:366-373 | a row behind a List gives its items, those of Lists and the other values themselves, in order |
| RowSums.TextRow | crates/exs-core/src/strings.rs:338-363 | a row of Strings, Bools, Ints and Floats behind a String gives all of it written, in order, up to 0xFFFD_FFE0 bytes |
| RowSums.NoTextRight | crates/exs-core/src/strings.rs:338-375 | the first operand behind a String that has no text is the data of a TypeError at its position |
| RowSums.NoNumberRight | crates/exs-core/src/numbers.rs:155-209 | the first operand behind a number that is none is the data of a TypeError at its position |
| RowSums.NoNumberLeft | crates/exs-core/src/numbers.rs:155-209 | behind a Bool, an Error or another value nothing can be added to, each step gives a TypeError with that value as data |
| RowSums.WrittenAs | crates/exs-core/src/strings.rs:338-352 | Strings, Bools, Ints and Floats have texts, an Int one that reads back as it, and other values have none |
| Concatenation.SingleOverruns | crates/exs-core/src/strings.rs:338-363 | a row of three Strings that is refused at once and overruns one at a time |
| Concatenation.BatchOverruns | crates/exs-core/src/strings.rs:338-363 | a row of three Strings that overruns at once and is refused one at a time |
| TextStorage.StorageBands | crates/exs-core/src/strings.rs:389 | a text is stored whole exactly up to 0xFFFD_FFE0 bytes, falls short of its storage exactly at the seven lengths whose request wraps, and is refused at all others |
| Escapes.EscapedExtra | crates/exs-core/src/render.rs:59-71 | is what escaping adds, in bytes and in characters, modulo 2^32 |
| Escapes.WriteEscaped | crates/exs-core/src/render.rs:74-102 | appends the escaped text |
| Escapes.EscapedCharIsPlain | crates/exs-core/src/render.rs:44-102 | exactly control characters, quotes and backslashes are escaped, and no escaped text has a control character |
| Utf8.CharLenIsShortest | crates/exs-compiler/src/lexer.rs:1014 | a character has an encoding of its length by section 3 of RFC 3629, and none that is shorter |
| LiteralText.Walk | crates/exs-core/src/literal.rs:125-201 | measuring and writing are the same walk: both produce the same spelling, counted modulo 2^32, or both give up |
| LiteralText.Literal | crates/exs-core/src/literal.rs:29-55 | the spelling, or nothing when it is too deep or the allocation for its measured bytes is refused; the measured bytes are its bytes if and only if it is shorter than 2^32 bytes |
| LiteralForms.FormsByKind | crates/exs-core/src/literal.rs:125-345 | the spelling of every kind of value from those of its parts: brackets, names, keys and commas |
| LiteralForms.SpelledWhen | crates/exs-core/src/literal.rs:125-345 | a value has a spelling if and only if it and all inside it are of kinds that have one, with their names, and no part lies deeper than 32 levels |
| LiteralText.SpellingFits | crates/exs-core/src/literal.rs:40-52 | a spelling that is written fits the storage measured for it exactly up to 0xFFFD_FFE0 bytes |
| LiteralText.LargeSpelling | crates/exs-core/src/literal.rs:70-120 | a List of 256 references to one String of 16 MiB has a spelling of more than 2^32 bytes |
| StringLiterals.StringLiteral | crates/exs-compiler/src/lexer.rs:594-658 | decodes a literal and ends behind its closing quote, or reports the error of its first bad element |
| StringLiterals.DecodeUnicodeEscape | crates/exs-compiler/src/lexer.rs:1213-1265 | reads one scalar value between braces, or reports an error |
| StringLiterals.HexDigitsMean | crates/exs-compiler/src/lexer.rs:1231-1245 | digits and letters of either case stand for 0 to 15, and no other character does |
| StringLiterals.SimpleMeans | crates/exs-compiler/src/lexer.rs:614-620 | the six simple escapes stand for the characters with their codes, and no other escape does |
| StringLiterals.EscapedReadsBack | crates/exs-compiler/src/lexer.rs:594-658 | the lexer reads every escaped text as that text |
| StringLiterals.SpelledReadsBack | crates/exs-core/src/literal.rs:116-121 | the literal spelling of every String reads back as it |
| Interpolations.ScanSpells | crates/exs-compiler/src/lexer.rs:988-1055 | what is read spells the source up to the closing brace, each character as itself or as an escaped quote or backslash |
| Interpolations.EscapedExpressionEnd | crates/exs-compiler/src/lexer.rs:988-1055 | finds the closing brace, the expression and exactly the positions of characters read from two bytes |
| Interpolations.PositionsAreExact | crates/exs-compiler/src/lexer.rs:563-581 | the position of every character, and of the end, maps to the byte where its spelling begins |
| Interpolations.InsideCharacters | crates/exs-compiler/src/lexer.rs:563-581 | positions inside a longer character map to the same byte of it |
| Interpolations.PositionsIncrease | crates/exs-compiler/src/lexer.rs:563-581 | the map is strictly increasing |
| InterpolationSpellings.SpellingsRead | crates/exs-compiler/src/lexer.rs:985-1055 | an expression with nested literals reads the same and ends at its brace, whichever literals are written with escaped quotes |
| DeepEquality.VerdictsAreSound | crates/exs-core/src/parts.rs:76-180 | "same" means equal and "different" unequal, by structural equality, defined kind by kind apart from the verdicts, on cyclic values too |
| DeepEquality.StepByVerdict | crates/exs-core/src/parts.rs:26-65 | what one comparison says of two values, and the parts it leaves open, decide whether they are equal by kind: numbers by value, texts and octets by bytes, Lists by items, Errors by kind, message, data and cause, enums by variant and payload, Objects by slots or keys, all else by reference |
| DeepEquality.OpenReaches | crates/exs-core/src/parts.rs:76-180 | the verdict is open only if a type with an `Eq` of its own is reached, or the limit of nesting |
| FloatEquality.FloatsEqualByValue | crates/exs-core/src/numbers.rs:283-288 | Floats are equal exactly when they are numbers, or infinities, and the same |
| DeepEquality.SwappedVerdicts | crates/exs-core/src/parts.rs:76-180 | swapping the arguments never gives the opposite definite verdict, whatever `Eq` methods say |
| DeepEquality.EqualSwaps | crates/exs-core/src/parts.rs:26-65 | structural equality is symmetric when `Eq` methods are |
| CivilDates.CountsTheDays | crates/exs-core/src/datetime.rs:154-163 | the day number is the sum of the lengths of all years and months since 1970, or until it, and the days |
| CivilDates.NextDayIsNext | crates/exs-core/src/datetime.rs:139-163 | the next valid date has the next number |
| CivilDates.OrdersDates | crates/exs-core/src/datetime.rs:154-163 | day numbers order valid dates and tell them apart |
| CivilDates.DateOf | crates/exs-core/src/datetime.rs:154-163 | every number is the number of a valid date |
| Ranges.StepIsNext | crates/exs-core/src/ranges.rs:39-62 | a native step does what `Range::next` does, or falls back and changes nothing |
| Ranges.FallsBackWhen | crates/exs-core/src/ranges.rs:39-62 | a native step falls back, without a change, exactly when a field is of another kind or the item after one that is not the last leaves the immediate Ints |
| Ranges.Progression | crates/exs-core/src/ranges.rs:39-62 | the items are the arithmetic progression up to the end and then the loop ends for good, or falls back for good where the next item leaves the immediate Ints |
| Ranges.BoundsUnpack | crates/exs-core/src/ranges.rs:75-92 | a loop's bounds in one word are the fallback code exactly when the Range cannot be counted, and unpack to its value and last item |
| Ranges.CountingIsStepping | crates/exs-core/src/ranges.rs:75-123 | after any number of requests, finishing a counted loop leaves the Range as that many steps do, with the same items |
| Ranges.RangeObject.RangeStep | crates/exs-core/src/ranges.rs:39-62 | takes that step on the object's fields |
| Ranges.RangeObject.RangeFinish | crates/exs-core/src/ranges.rs:99-123 | writes back what finishing says |

## Left out

- The slots of an object: `trace_layout` is not part of this model; an object carries its references.
- Corrupt heap metadata, and objects outside the heap: every header that is read was written by the modelled code.
- The temporary root stack (`push_root`, `pop_roots`): a program sets its root slots in one step.
- Two guards that never decide: the extra bound in `used_cells`, and the all-nines carry of `shortest`, which is modelled and shown not to be reached.
- Bitwise "or" of disjoint halves is modelled as addition, and `leading_zeros` as a function of the value.
- NaN payloads and arithmetic on floats; float sums and texts are parameters of `Concat` and of the literal walk.
- The collection that a growing output buffer runs when memory is short is part of the answer to its request for pages.
- Building adopted values on the heap and keeping them rooted while others are allocated, in particular an Error's cause; running out of memory while adopting; sharing of key strings between adopted Objects.
- Spans of expressions, wording and positions of diagnostics of the compiler passes and of String literals.
- Call edges and suspension flags of the lowered functions, and property targets, which are walked like receivers.
- What a program finds in memory after a text overran its storage: the model ends there.
- Memory that runs out while Strings or Lists are built, below the length that no heap has the pages for.
- Operators that run code of the program, such as implementations of traits, in the evaluator; property access and host calls.
- Which names are private to a library, and the canonical names of functions: parameters of the constants pass.
- Addresses of the literal walk and of joined Strings: a text is appended to, and its length is counted as the source counts it.
- Objects.UntypedObject.Append: shapes are compared by key text, so which of two equal key strings a shape keeps is not modelled.
- The RFC 3339 parser, raw strings, the lexer's main loop and error recovery, the scheduler, code generation, host calls and the command line.
- Cyclic values in the literal walk are taken as their unfolding down to the depth where the walk gives up.
