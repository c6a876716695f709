# AIRL runtime and toolchain: a verified model

This project models the parts of the AIRL toolchain and runtime whose correctness is hardest to see
by reading, and proves what they promise. `dafny verify dfyconfig.toml` checks everything. `Wrappers` and
`Strings` hold what all modules share.

**The value heap** (`RtValues`, `RefCounts`, `Denotation`, `Reachability`, `Comparison`, `RtHeap`,
`Values`, `Lists`, `Maps`, `MapLists`, `Captures`). Runtime values are cells with a reference count in a heap.
`RtHeap.Heap` holds the cells and the pools of immortal cells; a ghost multiset holds the references
that callers own. `Counts` says that every counted cell's count is exactly the number of heap slots
and handles that refer to it. Every operation keeps it, so nothing reachable is ever freed, and in an
acyclic heap the live counted cells are exactly the reachable ones (`LiveExactlyReachable`). A cell
denotes a value (`Meaning`), tail views included. List operations, which write in place when the count
is one and the list is no view, and copy otherwise, are proved against sequences: the result denotes the pure
result and no cell but the passed list changes what it denotes. The one way to make a cycle, consing a
list onto itself in place, is characterised exactly (`Cons`). Garbage that refers to itself survives every
release (`GarbageStays`, `SelfConsLeaks`), and once all handles are given back counted cells are left exactly
in a cyclic heap (`LeaksIffCyclic`). A cell outside the pool is immortal exactly when there were once 0xFFFF_FFFF
references to it (`Marked`, part of every `Valid`), so otherwise only the pool remains (`OnlyPoolIffAcyclic`).

**The allocator** (`Allocator`, `AirlosAllocator`). The first-fit allocator with in-band headers is a class
over a word-addressed memory. Its memory always spells out a list of blocks that tile the heap, followed
by zeros; each call is proved equal to a step on that list, and the steps are proved to keep live blocks
disjoint, aligned, large enough and untouched, and to take the lowest place that fits. Forward-only
coalescing leaves two free neighbours exactly when a block is freed whose predecessor is free
(`FreedCoalesced`). No byte is lost (`Conserved`, `TakenExactly`), and what was freed serves again (`FreedServes`).

**The native lowering** (`RuntimeOps`, `Ast`, `Cfg`, `Lowering`, `LoweringCorrect`, `LoweringExact`, `Operators`,
`LowererObject`). Expressions are lowered to basic blocks with block parameters. Any typed expression lowers,
its code computes what the boxed runtime operations compute, and it traps exactly where they raise an error. What the
operations are is written out name by name, and so is what the code lowered for them leaves (`Operators`).
For conditions and connectives on integers, which are lowered too, the exact cases of agreement are proved.
The stateful `Lowerer` is proved to produce the same blocks as the lowering function.

**The front end** (`IrValues`, `IrOperations`, `Ir`, `Desugaring`, `DesugaringCorrect`, `DesugaringExact`, `Quantifiers`,
`Rewriting`, `RewritingCorrect`, `RewritingExact`, `Resolver`). Evaluation is a lexically scoped model with a
bound on the nested frames: orderings of unordered values are false, and the prelude's `range` recurses while its
`fold` loops. A name that is no local is a function reference if the program's `refs` say so (in native code the
compiled functions), and nil otherwise (in the bytecode machine always); the results hold for all `refs`.
Quantifiers become folds over ranges, and import rewriting renames references, without changing what a program
means; for both it is proved name by name which local names they respect. When a quantifier means what the
documentation says is an exact condition on its bound and the call depth. The import resolver is a correct
topological sort that reports a real cycle exactly when there is one.

**Fast forms** (`Kernels`, `KernelCache`, `InternPool`, `Channels`). The tiled matrix product equals
the plain triple loop for every order in which blocks and threads run; the time-stamped kernel cache
holds the most recently used keys; interning gives one cell per string under any interleaving of
threads; every value sent on a channel is delivered in order, waiting, or released, and over whole runs handles
are never used twice and closed ones stay closed.

**Text tools** (`Brackets`, `Baseline`, `BaselineCorrect`, `BaselineExact`). The bracket checker is exact for the
grammar of balanced words; a printed baseline file is read back, sorted and without duplicates, exactly when its
keys have none of a few forms.

What the code does differently from what it promises:

- `map-from` with a repeated key keeps the reference taken for the overwritten value for ever
  (`Maps.MapFrom`, `Maps.Overwritten`, `Maps.NothingLostIffDistinct`).
- Quantifiers overflow the stack where the documentation (`AIRL-LLM-Guide.md:924`) promises a scan: without a
  clause, since 10000 nested calls of `range` are more than the default depth; for every bound beyond the depth;
  for a negative bound, which should admit nothing; for `(<= i N)` with the largest integer, which wraps around;
  and for every other clause that gives no integer, such as `(> i 5)` (`Quantifiers.QuantifierExact`,
  `DefaultOverflows`, `OtherGuard`, `OtherComparison`).
- Import rewriting and quantifier translation capture names: a local that stands for an import or is called
  `module_symbol` of one, a local called `fold`, `range` or `__quant_acc`, a mention of `__quant_acc` in the body of
  a quantifier, and a function called `fold` or `range` change what a program means, and no other does
  (`RewritingExact.LocalNameIffKept`, `DesugaringExact.FreeIffKept`, `FunctionIffKept`).
- A baseline key with a comma, a `]` or a newline, with a `#` in its path, or with a `#` after an odd number of
  quotes is written but not read back, and no other key is lost (`BaselineExact.ReadBackExact`); with quotes
  around the comma there is not even an error (`SilentSplit`).
- Lowered code takes the integer condition zero for false where the boxed operations take it for true
  (`LoweringExact.ConditionExact`). It runs `and` and `or` on integers where the boxed operations raise an error,
  unless a boolean before has decided: both give the same for `and` of false and anything, and for `or` of true and
  an integer 0 or 1 (`ConnectiveExact`).
- Draining a channel leaves one reference too many to each value: the list retains what the channel had retained
  already (`Channels.Registry.Drain`).
- The REPL's bracket check knows no comments: it waits for a balanced text exactly if more brackets open than close
  inside the comments (`Brackets.BalancedIsAccepted`), and a quote in a comment hides the code behind it
  (`QuoteHides`).
- Small integers and short strings are immortal, so their counts are never one, although some of the repository's
  tests expect it.

## Model

| member | source | states |
|---|---|---|
| RtHeap.Heap.Retain | crates/airl-rt/src/memory.rs:17-33 | one more handle; the count goes up by one while below 0xFFFF_FFFE and is 0xFFFF_FFFF from then on; nothing else changes |
| RtHeap.Heap.Release | crates/airl-rt/src/memory.rs:42-71 | gives back one handle; counts stay exact whatever the recursive frees do, only cells without references go, and any set of cells that refer to one another stays |
| RtHeap.Heap.Borrow | crates/airl-rt/src/memory.rs:17-71 | taking a reference and giving it back restores every cell exactly, unless that reference made the cell immortal |
| RtHeap.Heap.FreeValue | crates/airl-rt/src/memory.rs:79-114 | a dying cell gives back each reference in its payload and leaves the heap; the cascade terminates |
| RtHeap.Heap.Alloc | crates/airl-rt/src/value.rs:180-195 | a new cell takes over the handles in its payload; every other cell keeps its denotation |
| RtHeap.Heap.Pin | crates/airl-rt/src/value.rs:197-262 | an immortal pool cell refers to nothing and never leaves the heap |
| RtHeap.RetainMarked | crates/airl-rt/src/memory.rs:26-32 | over any run: a cell outside the pool is immortal exactly when there were once 0xFFFF_FFFF references to it or more |
| RtHeap.OnlyPoolIffAcyclic | crates/airl-rt/src/memory.rs:42-114 | from a fresh heap, with every handle given back and no cell ever so crowded, the pool is all that is left exactly when the heap is acyclic |
| RefCounts.ReleaseLastStep | crates/airl-rt/src/memory.rs:42-71 | taking the last reference of a cell leaves its slots as handles to give back |
| RefCounts.SoleHandle | crates/airl-rt/src/list.rs:106-129 | a count of one held by a handle means that no heap slot refers to the cell |
| Reachability.ReachableIsLive | crates/airl-rt/src/memory.rs:42-114 | whatever can be reached from a handle is live: no reachable cell is ever freed |
| Reachability.LiveExactlyReachable | crates/airl-rt/src/memory.rs:42-114 | in an acyclic heap with exact counts the live counted cells are exactly the reachable ones |
| Reachability.AllReleased | crates/airl-rt/src/memory.rs:42-114 | with every handle given back, each cell left in an acyclic heap hangs off an immortal cell; a saturated container keeps its contents |
| Reachability.LeaksIffCyclic | crates/airl-rt/src/memory.rs:42-114 | with every handle given back and no container saturated, only immortal cells are left exactly when the heap is acyclic |
| Reachability.GarbageStays | crates/airl-rt/src/memory.rs:42-114 | what nothing reaches is never freed, whatever is released, and there is such garbage only in a cyclic heap |
| Reachability.CycleStays | crates/airl-rt/src/memory.rs:42-114 | every cell on a cycle of references stays, payload and cycle included, whatever is released |
| Reachability.CountsUnique | crates/airl-rt/src/memory.rs:17-71 | the payloads and handles determine every count below the immortal one |
| Denotation.MeaningFrame | crates/airl-rt/src/list.rs:39-54 | a denotation depends only on what can be reached |
| Denotation.MeaningOfList | crates/airl-rt/src/list.rs:39-54 | a list cell, root or view, denotes the sequence of what its items denote |
| Values.MakeFlat | crates/airl-rt/src/value.rs:236-348 | each flat constructor yields the value: the singletons, -256 to 255 and strings of at most 64 bytes from a shared immortal cell, everything else in a fresh cell of count one |
| Strings.EncodedLength | crates/airl-rt/src/value.rs:318-323 | the length that decides is that of the UTF-8 encoding |
| Strings.Utf8Decodes | crates/airl-rt/src/value.rs:318-323 | that encoding is the one of RFC 3629: the bytes give the character back |
| Lists.Head | crates/airl-rt/src/list.rs:62-71 | the first item shared, an error exactly on an empty list or no list |
| Lists.Tail | crates/airl-rt/src/list.rs:74-103 | an O(1) view that denotes the list without its first element |
| Lists.Cons | crates/airl-rt/src/list.rs:106-129 | in place or copied, the result denotes the element in front; the heap turns cyclic exactly when a sole-owned list is consed onto itself, and the list is then its own first item |
| Lists.Append | crates/airl-rt/src/list.rs:197-248 | the same at the end, for lists and byte strings |
| Lists.SetAt | crates/airl-rt/src/list.rs:283-328 | the list with one element replaced; errors on bad index or kind, and the replaced item's reference given back |
| Lists.AtOr | crates/airl-rt/src/list.rs:252-280 | the element at the index or the default, shared |
| Lists.ListNew | crates/airl-rt/src/list.rs:142-155 | a fresh root that denotes the items |
| Lists.Replace | crates/airl-rt/src/list.rs:106-129 | the in-place write: only the list's own denotation changes, and acyclicity is kept unless it becomes its own item |
| Lists.ViewIsDrop | crates/airl-rt/src/list.rs:39-54 | a view denotes its root without the first `offset` elements, and its root is no view |
| Lists.ViewBlocksMutation | crates/airl-rt/src/list.rs:199-209 | while a view lives, a caller with a handle to the root never satisfies the in-place guard |
| Lists.SelfConsLeaks | crates/airl-rt/src/list.rs:106-129 | in any heap, a list that is among its own items stays as it is through every release, and is unreachable once it alone refers to itself |
| Maps.MapNew | crates/airl-rt/src/map.rs:29-33 | a fresh empty map |
| Maps.MapFrom | crates/airl-rt/src/map.rs:40-71 | the map of the pairs, last binding wins; what an overwritten binding took stays taken |
| Maps.BuiltIsLast | crates/airl-rt/src/map.rs:40-71 | each key is bound to the value of its last pair |
| Maps.NothingLostIffDistinct | crates/airl-rt/src/map.rs:40-71 | no reference is lost exactly when the keys are distinct |
| Maps.MapGetOr | crates/airl-rt/src/map.rs:95-122 | the bound value or the default, shared |
| Maps.MapSet | crates/airl-rt/src/map.rs:125-162 | a new map with the binding; the old map keeps its denotation |
| Maps.MapRemove | crates/airl-rt/src/map.rs:181-210 | a new map without the key; the old map keeps its denotation |
| MapLists.MapKeys | crates/airl-rt/src/map.rs:213-223 | a list of strings that denote the keys, each once, each before the next at their first difference; an error exactly on no map |
| MapLists.MapValues | crates/airl-rt/src/map.rs:228-244 | the bound values, retained, in that order of their keys; an error exactly on no map |
| MapLists.SortKeys | crates/airl-rt/src/map.rs:217-218 | the keys, each once, the smaller at the first difference before the larger |
| MapLists.OneOrder | crates/airl-rt/src/map.rs:217-218 | there is only one such order, whatever the sorting algorithm |
| Strings.LexLessIsPrecedes | crates/airl-rt/src/map.rs:217-218 | the comparison of strings is the one at their first difference, a prefix being smaller |
| Captures.MakeVariant | crates/airl-rt/src/variant.rs:16-27 | a fresh variant of the payload's denotation |
| Captures.MatchTag | crates/airl-rt/src/variant.rs:30-45 | the payload shared exactly when the tag is the expected one |
| Captures.MakeClosure | crates/airl-rt/src/closure.rs:14-33 | a fresh closure of the captures' denotations |
| Captures.Clone | crates/airl-rt/src/memory.rs:118-175 | the clone denotes the same value and is never a view |
| Comparison.EqualIffSameMeaning | crates/airl-rt/src/comparison.rs:9-64 | on values without maps, closures and partial applications, equality decides equality of denotations, through views and sharing |
| Comparison.EqualityLaws | crates/airl-rt/src/comparison.rs:9-64 | equality is symmetric and transitive on all values |
| Allocator.AllocatedBlocks | crates/airl-rt/src/lib.rs:90-136 | allocation keeps the tiling and adds one live block, the lowest that fits, aligned, less than 32 bytes too large, disjoint from every other |
| Allocator.FreedBlocks | crates/airl-rt/src/lib.rs:138-157 | freeing keeps the tiling and the frontier and removes exactly the one live block |
| Allocator.FreedCoalesced | crates/airl-rt/src/lib.rs:147-156 | free neighbours appear exactly when the freed block's predecessor is free |
| Allocator.AllocatedCoalesced | crates/airl-rt/src/lib.rs:90-136 | allocation never makes two free neighbours |
| Allocator.TakenExactly | crates/airl-rt/src/lib.rs:107-121 | a free block is split exactly when it has 32 bytes more than asked, and the rest is then a free block of its own; live bytes grow by the block handed out, less than 32 above the request |
| Allocator.Conserved | crates/airl-rt/src/lib.rs:49-62 | live payloads, free payloads and a header of 16 bytes each add up to the used region |
| Allocator.FreedBytes | crates/airl-rt/src/lib.rs:138-157 | a free moves exactly the payload from live to free bytes, and the header of a merged neighbour |
| Allocator.AllServed | crates/airl-rt/src/lib.rs:97-121 | requests that one free block has room for, headers between them counted, all find room, in whatever other blocks they land |
| Allocator.FreedServes | crates/airl-rt/src/lib.rs:90-157 | so what was freed can be had again without the heap growing |
| Allocator.BlocksDisjoint | crates/airl-rt/src/lib.rs:49-62 | two blocks share no byte, headers included |
| AirlosAllocator.AirlosAlloc.Alloc | crates/airl-rt/src/lib.rs:90-136 | the memory spells out the block list after an allocation, every live payload word is as before, the heap grows only if nothing fits, and null means that growing failed |
| AirlosAllocator.AirlosAlloc.Dealloc | crates/airl-rt/src/lib.rs:138-157 | the memory spells out the block list after the free; the other live payloads are untouched |
| AirlosAllocator.AirlosAlloc.Walk | crates/airl-rt/src/lib.rs:97-118 | the loop over the headers stops at the first free block that fits, or at the frontier |
| AirlosAllocator.AirlosAlloc.GrowHeap | crates/airl-rt/src/lib.rs:64-74 | the heap grows by the fewest whole pages of 4096 that suffice, which read as zero, or nothing changes |
| AirlosAllocator.AirlosAlloc.EnsureInit | crates/airl-rt/src/lib.rs:76-87 | the first call makes an empty heap at the program break |
| LoweringCorrect.LoweringCorrect | crates/airl-codegen/src/lower.rs:52-332 | in any code that contains the lowered blocks, running them reaches the value that the boxed operations give, and traps exactly where they fail |
| LoweringCorrect.LoweredFunction | crates/airl-codegen/src/lower.rs:52-332 | every typed expression lowers, computes, has its type, and leaves the variable map as it was |
| LoweringCorrect.DivisionCorrect | crates/airl-codegen/src/lower.rs:113-170 | the guard traps exactly on a zero divisor and on the smallest integer by minus one |
| LoweringCorrect.TypedLowers | crates/airl-codegen/src/lower.rs:52-86 | a typed expression lowers to its type |
| Operators.OnIntegers | crates/airl-rt/src/comparison.rs:71-123 | each comparison by name is that comparison of the two integers |
| Operators.Sums | crates/airl-rt/src/arithmetic.rs:8-42 | `+`, `-` and `*` give the 64-bit number congruent to sum, difference and product |
| Operators.Quotients | crates/airl-rt/src/arithmetic.rs:44-66 | `/` and `%` give quotient and remainder rounded towards zero, and fail exactly on a zero divisor and the smallest number by minus one |
| Operators.QuotientUnique | crates/airl-rt/src/arithmetic.rs:44-66 | there is one such quotient and remainder |
| Operators.CongruentUnique | crates/airl-rt/src/arithmetic.rs:8-42 | there is one 64-bit number congruent to a given one |
| Operators.OnBooleans | crates/airl-rt/src/logic.rs:16-29 | equality, the connectives and `not` on booleans |
| Operators.NoBooleans | crates/airl-rt/src/arithmetic.rs:8-66 | arithmetic and orders fail on a boolean |
| Operators.LoweredOperator | crates/airl-codegen/src/lower.rs:88-216 | the code lowered for an operator on two integer expressions, wherever it is placed, leaves exactly that number, or traps where the division fails |
| Operators.LoweredConnective | crates/airl-codegen/src/lower.rs:172-237 | for two boolean expressions it leaves the bit of equality, conjunction or disjunction |
| Operators.LoweredNot | crates/airl-codegen/src/lower.rs:239-249 | and of negation for one |
| LoweringExact.ConditionExact | crates/airl-codegen/src/lower.rs:251-294 | a conditional is lowered whatever the type of its condition, and computes what evaluation gives exactly unless the condition is the integer zero and the sides differ |
| LoweringExact.ConnectiveExact | crates/airl-codegen/src/lower.rs:218-237 | `and` and `or`, lowered whatever the types of their operands, compute what evaluation gives exactly if an operand fails, both are booleans, it is `and` of false and anything, or it is `or` of true and an integer 0 or 1; for operands of one width, and for a boolean beside an integer with 64-bit instructions that take both |
| Lowering.ScopeRestored | crates/airl-codegen/src/lower.rs:296-319 | lowering leaves the variable map as it was, with repeated and shadowed names |
| Lowering.NamesRestored | crates/airl-codegen/src/lower.rs:310-318 | whatever the body leaves in the variable map, putting back gives each bound name what it had before |
| Ast.TypeSound | crates/airl-rt/src/arithmetic.rs:9-65 | a typed expression evaluates to a value of its type, or fails |
| LowererObject.Lowerer.Lower | crates/airl-codegen/src/lower.rs:52-86 | the stateful lowerer ends in the state and with the result of the lowering function |
| LowererObject.Lowerer.LowerLet | crates/airl-codegen/src/lower.rs:296-319 | the same for bindings saved on the way in and put back in reverse order; also when the body fails, each bound name gets back the variable it had |
| LowererObject.Lowerer.LowerIfExpr | crates/airl-codegen/src/lower.rs:251-294 | the same for the four blocks of a conditional |
| Resolver.Resolution.ResolveRecursive | crates/airl-driver/src/resolver.rs:82-192 | adds the unseen files below this one, imports first, or reports a justified error; the measure is the files not yet seen |
| Resolver.Resolution.ResolveImports | crates/airl-driver/src/resolver.rs:53-80 | the order lists exactly the reachable files, once each, imports before importers, what the first imports lead to before what only later ones lead to, the entry last; a cycle is reported exactly when one is reachable |
| Resolver.OrderIsComplete | crates/airl-driver/src/resolver.rs:53-80 | an order with imports first and the entry last contains every reachable file and proves that there is no reachable cycle |
| Resolver.PathGoesBack | crates/airl-driver/src/resolver.rs:82-192 | along an import path positions in the order only decrease |
| Resolver.ReportedCycle | crates/airl-driver/src/resolver.rs:92-104 | the reported chain is a cycle of real imports |
| Quantifiers.QuantifierExact | crates/airl-driver/src/pipeline.rs:824-923 | with an integer bound or none, and a boolean body, a quantifier is the documented bounded quantifier exactly when its limit is not negative and counting up to it fits in the call depth; otherwise it overflows the stack |
| Quantifiers.OtherGuard | crates/airl-driver/src/pipeline.rs:838-841 | any other clause is itself the bound: an integer is a limit like any other, anything else overflows the stack |
| Quantifiers.OtherComparison | crates/airl-driver/src/pipeline.rs:838-841 | a clause that compares and is no upper bound, such as `(> i 5)`, never gives a value: the stack overflows unless an operand fails before |
| Quantifiers.DefaultOverflows | crates/airl-runtime/src/bytecode_vm.rs:1102-1103 | without a clause the documented 10000 numbers do not fit in the default call depth |
| IrValues.RangeOfInts | stdlib/prelude.airl:77-84 | the prelude's recursive range lists the integers from start to end exactly when they fit in the call depth |
| IrOperations.Comparisons | crates/airl-rt/src/comparison.rs:71-123 | comparisons of integers in the language are those of the numbers |
| IrOperations.OnStrings | crates/airl-rt/src/comparison.rs:71-123 | strings compare at their first difference, and `+` joins them |
| IrOperations.Arithmetic | crates/airl-rt/src/arithmetic.rs:8-66 | arithmetic is that of 64-bit numbers, with division rounded towards zero |
| IrOperations.Unordered | crates/airl-rt/src/comparison.rs:81-123 | what is neither two integers nor two strings: the function fails, the instruction for an order says false |
| IrOperations.Connectives | crates/airl-rt/src/logic.rs:7-29 | a deciding first boolean is the answer, otherwise the second, and anything else is an error |
| IrOperations.OnLists | crates/airl-rt/src/list.rs:62-129 | `head` and `tail` undo `cons`, and fail on the empty list |
| IrOperations.Builtins | crates/airl-runtime/src/bytecode_compiler.rs:399-424 | the functions of the runtime that are modelled, by name |
| IrOperations.SameIsEqual | crates/airl-rt/src/comparison.rs:9-64 | `=` is equality of values without functions in them |
| IrOperations.MatchMeaning | AIRL-LLM-Guide.md:367-375 | a pattern matches exactly the values that it becomes when its holes are filled, and binds the names of its holes to what fills them |
| DesugaringCorrect.EvalCompiled | crates/airl-driver/src/pipeline.rs:752-877 | translation preserves evaluation at every call depth, closures, matches, structs and quantifiers nested at will: translated value, same error, same need for a deeper stack |
| DesugaringCorrect.ScanCompiled | crates/airl-driver/src/pipeline.rs:843-875 | the fold over the range is the scan up to the first value that decides |
| DesugaringExact.FreeIffKept | crates/airl-driver/src/pipeline.rs:824-875 | translation keeps the meaning of every program whose only local name is `b` exactly when `b` is none of `__quant_acc`, `fold` and `range` and no body of a quantifier mentions `__quant_acc`; other mentions do no harm |
| DesugaringExact.AllClear | crates/airl-driver/src/pipeline.rs:752-877 | the condition is one on names only: where every name may be bound and mentioned, every program counts |
| DesugaringExact.ShadowedShows | crates/airl-driver/src/pipeline.rs:871-875 | with a local called `fold` or `range` a quantifier over nothing is true and its translation an error |
| DesugaringExact.OverAccumulatorShows | crates/airl-driver/src/pipeline.rs:836-862 | a quantifier over `__quant_acc` is false and its translation true |
| DesugaringExact.MentionShows | crates/airl-driver/src/pipeline.rs:836-862 | a mention of `__quant_acc` in the body of a quantifier over any name gives nothing in the source and the accumulator in the translation |
| DesugaringExact.FunctionIffKept | crates/airl-driver/src/pipeline.rs:871-875 | the same for functions: a program may define any name but `fold` and `range` |
| Rewriting.RewriteNameMeaning | crates/airl-driver/src/pipeline.rs:1418-1460 | a qualified or selected name becomes `module_symbol`, is refused exactly when the public symbols of the module are known and lack the symbol, and every other name is kept |
| Rewriting.RewriteIsRename | crates/airl-driver/src/pipeline.rs:1331-1413 | rewriting stops at the first refused reference, and otherwise renames every reference to what it stands for |
| Rewriting.RewriteFails | crates/airl-driver/src/pipeline.rs:1331-1460 | it fails exactly when some reference stands for a symbol that is not public, with the error of the first |
| RewritingCorrect.EvalRewritten | crates/airl-driver/src/pipeline.rs:1331-1413 | at every call depth the rewritten code gives the rewritten value, closures and environments included |
| RewritingCorrect.RewritingPreservesEvaluation | crates/airl-driver/src/pipeline.rs:1303-1413 | if no local name is confused with an import, running the rewritten program is running the original with its names looked up through the imports |
| RewritingExact.LocalNameIffKept | crates/airl-driver/src/pipeline.rs:1303-1460 | rewriting keeps the meaning of every program whose only local name is `b` exactly when `b` stands for no import and is `module_symbol` of none |
| RewritingExact.LocalNameIffPlain | crates/airl-driver/src/pipeline.rs:1418-1460 | that condition is decided by looking at the directives only |
| RewritingExact.AllBinders | crates/airl-driver/src/pipeline.rs:1331-1413 | the condition is one on names only: where every name may be bound, every program counts |
| RewritingExact.CaptureShows | crates/airl-driver/src/pipeline.rs:1443-1458 | one use of a captured name, either way round, gives different results before and after |
| Kernels.MatmulLoops | crates/airl-codegen/src/tensor_ops.rs:286-392 | the triple loop writes the dot product of row and column to every cell |
| Kernels.MatmulTiled | crates/airl-mlir/src/gpu.rs:41-71 | for every order of blocks and threads between barriers the tiled kernel writes the same product, all reads in bounds |
| Kernels.ThreadBlock.Run | crates/airl-mlir/src/gpu.rs:44-70 | a block writes the cells that its threads own and no other |
| Kernels.OwnsOneCell | crates/airl-mlir/src/gpu.rs:47-49 | each output cell has exactly one thread |
| Kernels.PaddingIsZero | crates/airl-mlir/src/gpu.rs:52-66 | zero padding adds nothing to the sum of the tiles |
| Kernels.TreeSum | crates/airl-mlir/src/gpu.rs:88-102 | the halving steps add up the whole array |
| Kernels.PowersOfTwo | crates/airl-mlir/src/gpu.rs:88-102 | the block sizes allowed are all powers of two |
| Kernels.FoldedHalf | crates/airl-mlir/src/gpu.rs:97-100 | adding the upper half onto the lower keeps the sum |
| KernelCache.TensorJit.EnsureCompiled | crates/airl-mlir/src/lib.rs:250-295 | a success moves the key to the front of the recency list and drops the oldest when full, the entry is the key's own; a failure in a full cache costs the oldest |
| KernelCache.TensorJit.LeastRecent | crates/airl-mlir/src/lib.rs:259-268 | the smallest time stamp belongs to the last key of the recency list |
| KernelCache.RecencyIsDistinct | crates/airl-mlir/src/lib.rs:238-295 | over any run the list is the 256 most recently used distinct keys |
| KernelCache.HeldIffRecent | crates/airl-mlir/src/lib.rs:238-295 | a key is held exactly when fewer than 256 other keys were used after it |
| KernelCache.Replay | crates/airl-mlir/src/lib.rs:250-295 | running the cache over a history of successful uses holds exactly those keys |
| InternPool.StepKeeps | crates/airl-rt/src/value.rs:318-348 | every step of every thread keeps mutual exclusion and the pool's soundness, and changes no installed cell |
| InternPool.InterningIsUnique | crates/airl-rt/src/value.rs:318-348 | all calls on equal strings of at most 64 UTF-8 bytes return one pointer, whose content never changes |
| InternPool.OneCellPerString | crates/airl-rt/src/value.rs:332-345 | no state of any run has two immortal cells of one string |
| InternPool.CallReturns | crates/airl-rt/src/value.rs:318-348 | with the locks free, a call that is not disturbed comes to its end: the pooled pointer, a new pooled one for a string of at most 64 bytes, a cell of its own for a longer one |
| InternPool.FirstCall | crates/airl-rt/src/value.rs:318-348 | so in a fresh process, whatever its threads, some run makes any string |
| Channels.Registry.New | crates/airl-rt/src/thread.rs:156-163 | both handles are new |
| Channels.Registry.Send | crates/airl-rt/src/thread.rs:167-195 | the value is queued, with one more reference, exactly when both ends are open; otherwise no reference is kept |
| Channels.Registry.Receive | crates/airl-rt/src/thread.rs:199-262 | the oldest waiting value; an error only when none can come |
| Channels.Registry.Drain | crates/airl-rt/src/thread.rs:266-294 | everything that waits, in order, in a list that takes references of its own: what the channel held stays held by no one |
| Channels.Registry.Close | crates/airl-rt/src/thread.rs:298-321 | what waits is released, reference by reference, and the handle stays closed |
| Channels.DeliveredInOrder | crates/airl-rt/src/thread.rs:156-321 | in every state what was delivered is a prefix of what was sent, and every sent value is delivered, waiting or released, once |
| Channels.RunFacts | crates/airl-rt/src/thread.rs:156-321 | over any run: closed stays closed and is never open again, open handles do not vanish, and what was sent and delivered earlier are prefixes of what is later |
| Channels.HandlesAreNew | crates/airl-rt/src/thread.rs:156-163 | over any run: a new channel's handles exceed all handles open or closed before, so none is used twice |
| Brackets.CheckParenBalance | crates/airl-driver/src/main.rs:715-781 | the loop reports what the stack machine does on the brackets outside strings and comments, with their lines and columns |
| Brackets.CheckerIsExact | crates/airl-driver/src/main.rs:715-781 | `Balanced` exactly on balanced words, `Unclosed` with exactly the brackets left open, otherwise the first bracket that no balanced word survives |
| Brackets.StackIffOpen | crates/airl-driver/src/main.rs:744-770 | the stack holds exactly the brackets that the grammar leaves open |
| Brackets.StrayIffInextensible | crates/airl-driver/src/main.rs:747-765 | the checker stops exactly when no balanced word begins with what was read |
| Brackets.LastLineMeaning | crates/airl-driver/src/main.rs:724-730 | the column counts from the last newline |
| Brackets.ParensBalanced | crates/airl-driver/src/repl.rs:115-142 | the REPL accepts when no more brackets open than close outside strings |
| Brackets.BalancedIsAccepted | crates/airl-driver/src/repl.rs:115-142 | what the checker calls balanced the REPL accepts exactly if no more brackets open than close inside its comments, for texts with no quote in a comment |
| Brackets.NoComments | crates/airl-driver/src/repl.rs:115-142 | so it accepts every balanced text without comments, semicolons inside strings allowed |
| Brackets.QuoteHides | crates/airl-driver/src/repl.rs:121-131 | a quote inside a comment hides all the code that follows, whatever that leaves open |
| Brackets.ReplIsWeaker | crates/airl-driver/src/repl.rs:115-142 | it also accepts an unbalanced text, and a comment can make it wait for a balanced one |
| BaselineCorrect.RoundTrip | crates/airl-driver/src/verify_policy.rs:78-143 | reading a printed baseline gives it back with sorted, duplicate-free lists, and printing that gives the same text |
| BaselineCorrect.KeyRead | crates/airl-driver/src/verify_policy.rs:28-46 | a key without `#` in its path is read back from its text |
| BaselineCorrect.SortedFacts | crates/airl-driver/src/verify_policy.rs:126-128 | each printed key comes before the next, and the list has the same members |
| BaselineCorrect.SortedUnique | crates/airl-driver/src/verify_policy.rs:126-128 | order and members determine the list, whatever the sorting algorithm |
| BaselineCorrect.LessComesBefore | crates/airl-driver/src/verify_policy.rs:11-16 | keys are ordered by path at the first difference, a whole file before the names in it |
| BaselineCorrect.Layout | crates/airl-driver/src/verify_policy.rs:118-143 | the printed lines, with the names of both sections, the sorted keys and their quotes |
| BaselineCorrect.ElementsOfBody | crates/airl-driver/src/verify_policy.rs:202-223 | cutting the gathered text at commas gives back exactly the quoted texts |
| BaselineExact.ReadBackExact | crates/airl-driver/src/verify_policy.rs:78-224 | a printed baseline is read back, sorted, exactly when no key has a comma, `]` or newline, a `#` in its path, or a `#` after an odd number of quotes |
| BaselineExact.CommaExact | crates/airl-driver/src/verify_policy.rs:202-223 | among keys without quotes, `]`, newlines and `#` in the path, reading back succeeds exactly without commas and fails as not quoted otherwise |
| BaselineExact.SilentSplit | crates/airl-driver/src/verify_policy.rs:214-222 | a key with `","` in it is read back as two keys without an error |
| BaselineExact.ParsedReadable | crates/airl-driver/src/verify_policy.rs:78-114 | no key read from any text has a comma, a newline or a `#` in its path |
| Baseline.ReadBaseline | crates/airl-driver/src/verify_policy.rs:78-114 | the loop over the lines reads what the step-by-step reader reads, errors included |
| Baseline.ReadArray | crates/airl-driver/src/verify_policy.rs:183-224 | the same for one array, single-line or over several lines |
| Baseline.VersionText | crates/airl-driver/src/verify_policy.rs:78-114 | a version is read exactly from a decimal number of 32 bits, with or without a plus sign |
| Baseline.SpaceCodes | crates/airl-driver/src/verify_policy.rs:78-114 | what is trimmed are the characters with the property White_Space |
| Baseline.WriteBaseline | crates/airl-driver/src/verify_policy.rs:118-143 | the pushed pieces are the lines of the rendered baseline |
| Baseline.FindComment | crates/airl-driver/src/verify_policy.rs:167-181 | the loop cuts the line at the first `#` outside quotes |

## Left out

- Races on the count itself: retain is modelled as one step, as the code's comment assumes; it is an atomic add and a separate store.
- Higher-order list functions (`map`, `filter`, `fold`, `sort`, `any`): they retain each argument twice, so counts are only an over-approximation there; calling a closure is not modelled on the heap.
- Bytecode function values and partial application beyond their payload: their dispatch lies outside the modelled files.
- Channels.Registry.Receive: blocking is a result (`blocks`) and each operation is one atomic step; a close that runs between the steps of a receive is not modelled.
- AirlosAllocator.AirlosAlloc.Alloc: the program break is a parameter and 16-aligned; alignments above 16, the 32-bit system call result and the wrap-around of addresses are not modelled; memory is addressed by words of eight bytes.
- Floating point: the lowering of float and 32-bit operations is kept as uninterpreted instructions; the kernels run over exact numbers.
- Kernels.MatmulLoops: the early return for an empty inner dimension, which leaves the output unwritten, belongs to the caller and is not part of the loop.
- Kernels.MatmulTiled: indices are unbounded; the kernel computes them in 32 bits.
- Kernels.TreeSum: the block size is a power of two, as the launch configures it.
- KernelCache.TensorJit.EnsureCompiled: the generation counter has not wrapped around; whether a key compiles is a parameter.
- Resolver.Resolution.ResolveRecursive: files, their imports and the sandbox verdict are parameters; reading and parsing are not modelled.
- DesugaringCorrect.EvalCompiled: `use` and functions nested in function bodies are not in the source fragment; of the functions of the runtime and the prelude only arithmetic, comparisons, connectives, basic list operations, `range` and `fold` are, all others being errors; partial application and floats are not modelled.
- RewritingCorrect.RewritingPreservesEvaluation: the same functions of the runtime and the prelude; calls of all others are errors on both sides.
- IrOperations.MatchMeaning: patterns match as documented, nested tags and literals included; the bytecode compiler tests the outermost tag only and reads the parts without a test (`crates/airl-runtime/src/bytecode_compiler.rs:200-221`).
- Ir.Eval: scoping is lexical; the bytecode compiler keeps one register per name, so that a local which shadows another removes the outer one when it ends (`crates/airl-runtime/src/bytecode_compiler.rs:392-395`).
- Quantifiers.QuantifierExact: bounds are 64-bit integers and bodies boolean at the numbers scanned; the depth counts nested calls of the bytecode machine (in native code a stack overflow has no fixed depth, and orderings of mixed values are errors).
- LoweringExact.ConditionExact: arithmetic and orderings on booleans, `not` on integers and conditionals with sides of two types are lowered without a type error as well; what their code computes is not compared with evaluation.
- LoweringExact.ConnectiveExact: the model's instructions take operands of every width as 64 bits; for a boolean beside an integer the code generator refuses `band` and `bor`, whose operands have one width, so those cases are about the instructions as modelled.
- Brackets.ParensBalanced: the depth is unbounded; the code counts in 32 bits.
- The rest of the verify policy (the difference and the edits of a baseline, the file system), the MLIR builders, the GPU softmax across calls, the bytecode compiler and VM, the parser, the solver and all input and output.
