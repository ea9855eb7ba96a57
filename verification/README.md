# Lush: verified models of its cores

Lush is a Lisp interpreter written in C. This project models, in Dafny, the parts of it that are
algorithms with invariants, and proves what they promise. Each `.dfy` file holds one module.

* **DZ** (`DzProgram`, `DzAnalysis`, `DzMachine`, `DzNames`, `DzValues`, `DzMeaning`, `DzAcceptance`,
  `DzSoundness`, `DzRuns`, `DzPaths`, `DzVerifier`, `DzLoader`): the bytecode loader with its three-pass static
  analyser, and the stack machine. The analyser is shown sound over every run and complete up to one exact
  condition, and the byte code is shown to compute what the program means. Depth counts the register `x` as a cell, so an empty stack is depth 0. A
  path is a run seen from the code alone: the addresses and depths it may take, whatever the data.
* **Binary files** (`BinaryGraph`, `BinaryReloc`, `BinaryWriter`, `BinaryReader`, `BinaryFates`,
  `BinaryRoundTrip`): the graph serializer, its relocation table, and the reader that patches forward
  references.
* **Memory** (`LispHeap`, `Collector`, `RefCount`, `ListWalks`): the collector that recounts references,
  reference counting with cascading release, and list walks that survive circular lists.
* **Linker** (`ArenaBlocks`, `Arena`, `Linker`): the low-memory allocator and the symbol bookkeeping of the
  dynamic linker.
* **Indexes** (`IndexLoops`, `IndexViews`, `IndexOps`, `IndexObject`, `IndexCopy`): odometer loops, views
  over flat storage, and copying.
* **Hash tables** (`ObjectHash`, `HashTable`): equality, hashing, and tables as finite maps.
* **Compact loops**: `Quickselect`, `Timers`, `Calendar`, `PathNames`, `ArgBinding`, `LineClip`, `LineCover`.
* **Shared definitions**: `Basics`.

Code that changes state in the source is modelled by classes and methods that change state; their
postconditions give the exact new state through specification functions, about which the theorems are.

## What the proofs found

* DZ: the comment at `src/dz.c:553-558` says that an accepted program never reaches an illegal stack
  position. The code accepts depth 0 as the ground level (`src/dz.c:902`), where `x` lies in no cell, and a
  program such as `POP, PUSH# 0` then touches `dz_stack[-1]` (`DzVerifier.GroundIsReached`). The condition on
  paths is exact: that cell can be touched if and only if some path enters or leaves depth 0
  (`DzPaths.GroundIff`), and for programs with arguments if and only if some path reaches depth 0
  (`DzPaths.GroundIffDepth`). No machine run faults when no path does (`DzVerifier.NeverFaults`).
  Symbolic stack operands are not range-checked (`DzVerifier.SymbolicAboveTop`), and
  the jump search also looks at a slot that pass 1 never writes (`DzVerifier.UnwrittenSlotAccepts`);
  `DzPaths.RunsFollowIff` says for every accepted program exactly when its runs follow the map all the same.
  Numeric operands and jumps to addresses of elements are enough (`DzVerifier.NumericFollows`).
  A negative argument count is accepted (`DzVerifier.NegativeArityAccepted`). Such a program either begins
  with a jump onto the unwritten slot, and then any negative count may be accepted
  (`DzVerifier.NegativeArityUnwritten`), or it has the count -1 and begins by writing two cells below the
  stack (`DzVerifier.NegativeArity`).
  The analyser refuses some programs all of whose elements can be reached and can be given depths: pass 2 gives
  the target of a branch the segment of its origin, so a branch back to the start from code that is not yet
  connected with the start takes the start out of segment 0 (`DzAcceptance.ReachableRefused`).
  `DzAcceptance.AnalyseIff` says exactly what is accepted. The
  missing `break` after GAUSS (`src/dz.c:334-337`) is modelled: the case falls through to SPLINE with
  operand 0. The missing `break` in pass 1 (`src/dz.c:801-805`) is harmless.
* Binary files: the reader refuses more than 10,000,000 shared objects, which the writer does not limit.
  From 2^24 shared objects on the 24 bits of the header do not hold their number; the file is unreadable then
  too, because some reference lies outside the reader's table (`BinaryRoundTrip.FileUnreadable`). The reader
  checks the index of a reference and not that of a definition, and its arrays may be longer than the table
  and hold entries of an earlier run behind it. `BinaryFates.CrashIff` gives, for every token list, the exact
  condition for staying inside the arrays and away from pointers left in them, and `BinaryFates.AcceptIff`
  the one for success.
* Reference counts: `RefCount.LeakIff` is exact; circular lists that a handle reaches do not leak.
* Copying: inside one storage `copy_index` gives what a copy from elsewhere would give if and only if every
  element that is not overwritten later comes from the first contents of its source (`IndexCopy.InPlaceIff`);
  where the target shares no place, if and only if no place is changed before it is read
  (`IndexCopy.SharedIff`).
* Arena: when `mmap` fails, `dld_allocate` takes MAP_FAILED for an address and writes a header there.
* Arena: a free header looks like a used one only when the block is 64 bytes long and its right neighbour is
  free (`Arena.MarkTells`); this can only happen between an allocation that maps a new chunk and the next
  deallocation.
* Linker: loading takes the definition of a still unknown name from shared libraries already open, and
  unloading does not take it back. A reference made by `dld_create_reference` is in no refcount, and unloading
  a module can drop it (`Linker.LoadThenUnload`, exact for both).
* Arguments: `pop_args` also walks default values, so a symbol in a default loses a binding
  (`ArgBinding.DefaultSymbolIsPopped`); `ArgBinding.Balanced` is exact.
* Calendar: C's remainder makes the weekday negative before 28 December 1969, except on Sundays
  (`Calendar.WeekdayIff`).
* Clipping: a line whose four coordinates are equal is rejected even inside the rectangle. Division truncates,
  so a line that passes through a corner may be rejected (`LineClip.RejectsCorner`); a rejected line never
  has a point inside by a pixel (`LineClip.RejectedMisses`). What is left of a drawn line is within two pixels
  of the line, and covers what lies inside by a pixel (`LineCover.DrawnFaithful`).
* Timers: dates may hold 1000 milliseconds, so one instant can be written in two ways that compare as
  different (`Timers.CmpSplitsInstants`); against a clock time the comparison is exact.

## Assumptions

* DZ values are opaque and the arithmetic is a parameter; random numbers and the content of the slot that
  pass 1 leaves unwritten are parameters; offsets fit their 16-bit field.
* A file is a token sequence whose indices have 24 bits; symbol names and strings fit the 24-bit lengths and
  the string buffer.
* What `malloc` leaves in new relocation arrays is a parameter; `malloc` and a successful `mmap` give addresses
  that are not in use, and `mmap` gives addresses aligned to pages.
* The clock, `dlsym` and the working directory are parameters.
* Machine integers do not overflow, and the buffers have the sizes the source gives them.
* Hash-table keys do not change while they are keys, hold no NaN and no negative zero, and every class that
  compares contents hashes them, as the classes of the source do.

## Model

| member | source | states |
|---|---|---|
| DzSoundness.PassOneLinks | src/dz.c:755-811 | after pass 1 every entry continues the one before it: same segment and the depth moved by the element in between, or a fresh segment after an element that never falls through |
| DzSoundness.RelabelKeeps | src/dz.c:848-861 | merging one segment into another with an offset keeps every depth relation inside segments, every branch already joined, and segment 0 rooted at the arguments |
| DzSoundness.PassTwoJoins | src/dz.c:812-866 | after pass 2 both ends of every branch are in one segment at matching depths |
| DzSoundness.PassThreeBounds | src/dz.c:895-909 | acceptance by pass 3 means one segment, no depth below the ground, and a stack size that covers every depth |
| DzSoundness.AnalyseAccepts | src/dz.c:868-910 | all that acceptance of the three passes establishes about the final map |
| DzSoundness.AssembleLayout | src/dz.c:701-753 | the cells of each element stand in the byte code at the address its entry gives |
| DzSoundness.LoadGives | src/dz.c:912-955 | an accepted program is laid out on an accepted map within the stack size |
| DzSoundness.SamePcSameDepth | src/dz.c:755-811 | elements that share a code address share a depth |
| DzSoundness.KeepsIffBranch | src/dz.c:641-668 | a branch keeps the machine on the map if and only if its jump search found a real entry |
| DzSoundness.KeepsIffRelative | src/dz.c:606-639 | a stack-relative instruction keeps the map if and only if its operand resolves below the top, and for POP@ to what pass 1 counted |
| DzSoundness.KeepsIff | src/dz.c:225-407 | one element keeps the map in every step if and only if its operand and its target are good |
| DzNames.DesignatesIff | src/dz.c:606-639 | the loader counts an operand down from the last value exactly to the one it designates: the argument it names, the value that was last at its label, or the value so many below the last |
| DzNames.GoesToIff | src/dz.c:641-668 | a branch operand is the distance to the address of its label, or to so many cells behind the next instruction |
| DzNames.ArgDesignates | src/dz.c:619-623 | argN, with N in decimal, designates the N-th argument wherever it is used |
| DzValues.Drops | src/dz.c:267-269 | POP drops the last value, and faults on the cell below the stack when it is the only one |
| DzValues.Pushes | src/dz.c:270-341 | DUP, PUSH#, RAND and GAUSS append one value, with the spline that GAUSS falls into |
| DzValues.Copies | src/dz.c:277-281 | PUSH@ appends a copy of the value its operand counts down to |
| DzValues.CutsDown | src/dz.c:282-284 | POP@ drops that value and all above it but the last |
| DzValues.Sets | src/dz.c:285-288 | SET@ moves the last value to that place |
| DzValues.Applies | src/dz.c:291-327 | a function of one value replaces the last value |
| DzValues.Splines | src/dz.c:337-346 | a spline replaces the last value and skips its data |
| DzValues.WithConstant | src/dz.c:349-362 | a function of two values, of the last and a constant |
| DzValues.WithValue | src/dz.c:349-362 | of the last and the value the operand counts down to |
| DzValues.Combines | src/dz.c:349-362 | of the last two, in the order they were pushed |
| DzValues.Branches | src/dz.c:368-377 | a conditional branch drops the last value and jumps if and only if the condition holds of it |
| DzValues.Loops | src/dz.c:380-398 | a loop jumps if and only if its counter, increased first by ENDFOR, has not passed the limit in the direction of the step; otherwise it drops step, limit and counter |
| DzMeaning.StepMeans | src/dz.c:225-407 | one round from an entry of the map does to the list of values what the element there means |
| DzMeaning.RunMeans | src/dz.c:225-407 | every run does what the program does, from any element |
| DzMeaning.CodeMeansProgram | src/dz.c:701-753 | correctness of the loader: for every accepted program whose runs follow the map, any arguments, arithmetic and random numbers, the byte code goes through the values of the program, ends when it ends, with its result, and touches the cell below the stack if and only if the program asks for a value that is not there |
| DzAcceptance.PassOneIff | src/dz.c:755-811 | pass 1 succeeds if and only if there is a map that agrees with each element, and answers that map |
| DzAcceptance.PassTwoIff | src/dz.c:812-866 | pass 2 succeeds if and only if every branch lands on an element and there are depths that agree with every element and every branch |
| DzAcceptance.FinalIff | src/dz.c:895-909 | what is left for pass 3 to complain about: the end depth, the ground, and what is not connected with the start |
| DzAcceptance.AnalyseIff | src/dz.c:868-910 | completeness of the analyser: a program is accepted if and only if pass 1 has a map of it, every branch lands, good depths exist, every element is connected with the start, and no branch leads into what is connected with the start from what is not yet; the depths it answers are the only ones |
| DzAcceptance.ReserveIs | src/dz.c:895-909 | the reserved stack covers every depth and is no larger than the arguments or some depth and one more |
| DzAcceptance.LoadIff | src/dz.c:912-955 | a program is loaded if and only if it is accepted, its stack fits, its constants are there, and every stack-relative operand designates a value, the last one only for PUSH@ and POP@ |
| DzAcceptance.ReachableRefused | src/dz.c:848-861 | counterexample: a loop with a way back to the start before its test is refused although every other condition holds |
| DzRuns.DepthsAround | src/dz.c:895-909 | around each instruction the map leaves room for what it pops and pushes |
| DzRuns.OperandCells | src/dz.c:691-753 | the immediate and vector operands of an instruction stand behind it in the byte code |
| DzRuns.FaultsIff | src/dz.c:225-407 | from a state on the map one round faults if and only if it needs the cell below dz_stack[0], and never on any other cell |
| DzRuns.StepLands | src/dz.c:225-407 | one round from an entry of the map leads to an entry of the map |
| DzPaths.RunsAreLegal | src/dz.c:553-558 | over every run of a program whose reached elements are good: each reached pc is an instruction boundary, the depth is the one on the map and within the reserved stack, operands lie below the top; a run that leaves the stack does so on the cell just below it, where some path needs that cell |
| DzPaths.FaultsExactlyAtGround | src/dz.c:902 | a run leaves the stack if and only if one of its rounds needs the cell below the first; DzPaths.GroundIff says when that can happen |
| DzPaths.GroundIff | src/dz.c:902 | the exact condition for the failing claim: some path stands where the cell below the stack can be touched if and only if the last step of some path enters or leaves depth 0 |
| DzPaths.GroundIffDepth | src/dz.c:902 | with arguments, if and only if some path reaches depth 0 |
| DzRuns.StepTouches | src/dz.c:225-407 | one round depends on no stack cell but those it touches, and changes no other |
| DzRuns.TouchedReserved | src/dz.c:895-909 | the cells an accepted instruction touches lie within the reserved stack or just below it |
| DzPaths.StaysReserved | src/dz.c:895-909 | a run neither reads nor writes the stack above the size pass 3 reserves: its outcome does not depend on those cells and they keep their contents |
| DzVerifier.MapIsKept | src/dz.c:606-668 | numeric operands and jumps to addresses of elements keep the map everywhere |
| DzVerifier.TargetIff | src/dz.c:824-830 | a jump search finds a real entry if and only if its address is that of an element; for a label it always does |
| DzVerifier.NumericFollows | src/dz.c:606-668 | with numeric operands and jumps to addresses of elements every path follows the map |
| DzVerifier.VerifierSound | src/dz.c:553-558 | soundness of the verifier, for every accepted program whose runs follow the map and any argument count: if it is not negative every state of every run is legal and the only possible fault is the cell just below the stack, and if it is negative every run of one round or more faults two cells below |
| DzVerifier.NeverFaults | src/dz.c:902 | an accepted program whose runs follow the map, and none of whose paths reaches depth 0, never leaves the stack or the code |
| DzVerifier.NeverFaultsOnMap | src/dz.c:902 | in particular one whose map has no depth 0 |
| DzVerifier.MapInvariantIff | src/dz.c:623-634 | with symbolic operands too: the map is an invariant of the machine if and only if every operand and target is good |
| DzPaths.RunsFollowIff | src/dz.c:553-558 | for every accepted program: all paths follow the map if and only if each element that some path reaches has a good operand and a good target |
| DzPaths.RunIsPath | src/dz.c:225-407 | the addresses and depths a machine run goes through form a path, so what no path does no run does |
| DzVerifier.GroundIsReached | src/dz.c:902 | counterexample: popping the last cell is accepted and touches dz_stack[-1] |
| DzVerifier.NegativeArity | src/dz.c:553-558 | every accepted program with a negative argument count: if its first element is not a jump onto the unwritten slot, the count is -1 and the first round writes two cells below the stack, and only then; otherwise the first round jumps to the address in that slot |
| DzVerifier.NegativeArityAccepted | src/dz.c:912-955 | counterexample: a program of arity -1 is accepted and writes two cells below the stack |
| DzVerifier.NegativeArityUnwritten | src/dz.c:825-830 | counterexample: with a jump onto the unwritten slot even the count -5 is accepted |
| DzVerifier.SymbolicAboveTop | src/dz.c:623-626 | counterexample: a symbolic operand may read a cell above the top |
| DzVerifier.UnwrittenSlotAccepts | src/dz.c:825-830 | counterexample: the slot after the last entry, never written, can make a jump out of the code acceptable |
| DzLoader.FindLabel | src/dz.c:594-604 | the label loop finds the first entry with that label, or none has it |
| DzLoader.FindRArg | src/dz.c:606-639 | stack-relative operands, with the error of every illegal form |
| DzLoader.FindLArg | src/dz.c:641-668 | branch operands |
| DzLoader.MakeProgmap1 | src/dz.c:755-811 | writes the next entry of the map and no other |
| DzLoader.FindTarget | src/dz.c:824-830 | the jump search, which also looks at the slot behind the last entry |
| DzLoader.RelabelSegment | src/dz.c:852-860 | the in-place merge of two segments is the relabelling the proofs use |
| DzLoader.MakeProgmap2 | src/dz.c:812-866 | the in-place second pass for one element |
| DzLoader.MakeProgmap | src/dz.c:868-910 | the three passes in place compute what the analysis function says |
| DzLoader.WriteProgram | src/dz.c:701-753 | the byte code written through a moving pointer |
| DzLoader.DzLoad | src/dz.c:912-955 | loading in place; an accepted program is a loaded one |
| DzLoader.Machine.Round | src/dz.c:225-407 | one turn of the switch updates pc, sp, x and the stack as the step relation says |
| DzLoader.Machine.Execute | src/dz.c:225-407 | the execution loop refines the run relation of the soundness theorems |
| BinaryGraph.DfsCloses | src/binary.c:231-263 | everything the sweep marks has its children marked when it ends, whatever cycles there are |
| BinaryGraph.ReachIsLeast | src/binary.c:231-263 | what a sweep marks from a clean graph is the least set holding the root and closed under car and cdr |
| BinaryGraph.DfsCoversReach | src/binary.c:231-263 | a sweep over unmarked objects marks exactly what is reachable |
| BinaryReloc.SortedInsert | src/binary.c:142-161 | inserting in order keeps the table sorted and detects a duplicate |
| BinaryReloc.RelocTable.CheckSize | src/binary.c:91-127 | growing the arrays keeps their contents |
| BinaryReloc.RelocTable.Insert | src/binary.c:142-161 | insertion by shifting: the table stays sorted, gains exactly the new address, and reports a duplicate |
| BinaryReloc.RelocTable.Search | src/binary.c:163-178 | bisection finds the index of an address if and only if the table has it |
| BinaryWriter.Writer.CondSetFlags | src/binary.c:356-370 | marks an object met first, enters one met again in the table, and tells whether to go on |
| BinaryWriter.Writer.SetFlags | src/binary.c:231-263 | the marking sweep: visited objects marked, those met twice entered in the table |
| BinaryWriter.Writer.CondClearFlags | src/binary.c:384-392 | clears the flags of a marked object and tells whether to go on |
| BinaryWriter.Writer.ClearFlags | src/binary.c:231-263 | the clearing sweep clears what it meets |
| BinaryWriter.Writer.WriteMultiple | src/binary.c:796-860 | a shared object is written as a definition the first time and as a reference afterwards |
| BinaryWriter.Writer.LocalWrite | src/binary.c:796-860 | the tokens written for one object, and whether the sweep goes on below it |
| BinaryWriter.Writer.WriteTokens | src/binary.c:231-263 | the writing sweep emits the token sequence of the graph |
| BinaryWriter.Writer.Bwrite | src/binary.c:954-999 | the whole writer: a sorted table of exactly the shared objects, the tokens cut to 24-bit indices, and every flag clear again |
| BinaryReader.Reader.DefineRefd | src/binary.c:182-193 | walks the chain threaded through the unfilled slots and fills each one, with its count |
| BinaryReader.Reader.LocalBread | src/binary.c:1166-1256 | the recursive reader, slot by slot, with its errors, and with the entries behind its table that an unchecked definition can meet |
| BinaryFates.BreadFate | src/binary.c:1166-1256 | on any token list, in any state: a read ends as its uses and definitions of relocations say, in the order they come; when it succeeds it takes exactly the tokens of one object |
| BinaryFates.SlotFilled | src/binary.c:1178-1191 | on any token list: when a definition completes, its slot holds an object and not a link, and other slots without a link get none |
| BinaryFates.ReadInBounds | src/binary.c:1178-1191 | a token list whose definitions all lie in the table never leads the reader outside its arrays |
| BinaryFates.CrashIff | src/binary.c:1178-1191 | for every token list and every earlier state: the reader leaves its arrays, or follows a pointer left in them, if and only if the header is accepted and the first use or definition that does not pass is a definition beyond their capacity or of an entry behind the table that was left marked as waiting |
| BinaryFates.AcceptIff | src/binary.c:1166-1345 | a read succeeds if and only if the header is accepted, every use and definition passes, and every relocation is defined |
| BinaryReader.Reader.ForbidRefd | src/binary.c:196-209 | detects a relocation that was never defined |
| BinaryReader.Reader.BreadFile | src/binary.c:1324-1345 | the whole reader: the answer, a refusal, or the unchecked access |
| BinaryRoundTrip.PatchChain | src/binary.c:182-193 | following a forward-reference chain fills every slot of the chain and nothing else |
| BinaryRoundTrip.CompleteKeeps | src/binary.c:182-193 | completing a definition keeps the correspondence between the memory and the written graph |
| BinaryRoundTrip.ReadBack | src/binary.c:1166-1256 | reading the tokens written for an object rebuilds it in the given slot, in any state of the reader that matches the writer |
| BinaryRoundTrip.AllDefined | src/binary.c:1324-1345 | when the read ends every relocation has been defined and no chain is left |
| BinaryRoundTrip.ReadWritten | src/binary.c:1324-1345 | reading back succeeds and gives an isomorphic graph whose counts are the numbers of slots that hold each object |
| BinaryRoundTrip.CopiesSeparate | src/binary.c:1166-1256 | copies are new objects but for known symbols; what was there before keeps its kind, and its count grows by the new slots that hold it |
| BinaryRoundTrip.FileUnreadable | src/binary.c:488-498 | with 2^24 shared objects or more the header is cut, and no read succeeds, because some reference lies outside the table |
| BinaryRoundTrip.RoundTrip | src/binary.c:954-1345 | for every finite graph with any sharing and cycles: the read succeeds if and only if there are at most 10,000,000 shared objects, and then the result is isomorphic, new, fully patched and exactly counted, with earlier objects left as they were |
| BinaryRoundTrip.WriteThenRead | src/binary.c:954-1345 | the writer and then the reader, on any memory and whatever earlier files left in the relocation arrays: fine if and only if there are at most 10,000,000 shared objects, and then the memory holds an isomorphic copy, exactly counted, apart from what was there |
| LispHeap.InRefsGrow | src/allocate.c:242-258 | references into an object are counted object by object |
| Collector.ReachIsLeast | src/allocate.c:242-258 | the marked set is the least set closed under references that holds the roots, and the only one |
| Collector.MarkExact | src/allocate.c:242-258 | marking from zero makes each count the number of references from the roots and from marked objects |
| Collector.DropRoot | src/allocate.c:306-406 | dropping a root that nothing else refers to keeps counts exact |
| Collector.Heap.Mark | src/allocate.c:242-258 | the recursive marker with its loop on cdr |
| Collector.Heap.Unflag | src/allocate.c:263-276 | the walk that takes the garbage flag off |
| Collector.Heap.PopAll | src/allocate.c:285-303 | forgets all stacked values of the named symbols but the outermost |
| Collector.Heap.FindGarbage | src/allocate.c:306-406 | what keeps its flag is exactly what named symbols and the protected list do not reach |
| Collector.Heap.Recount | src/allocate.c:306-406 | counts rebuilt from the roots are exact |
| Collector.Heap.Sweep | src/allocate.c:306-406 | the free list is rebuilt with every cell of count zero, once |
| Collector.Heap.Garbage | src/allocate.c:306-406 | after a collection a cell has a count if and only if it is reachable, the count is exact, the free list is the rest, reachable objects are unchanged, and the next collection can start; free cells may hold old references |
| Collector.ReadyAgain | src/allocate.c:306-406 | the state a collection leaves is one a collection accepts |
| Collector.Heap.KillNames | src/allocate.c:306-406 | removing the unbound symbols that only the name table holds keeps all of that |
| RefCount.Bury | src/at.c:51-88 | an object whose count is zero can be taken out: what it referred to passes to the code that releases it |
| RefCount.Enter | src/at.c:99-135 | a new cell takes over the handles of its fields |
| RefCount.Replace | src/at.c:372-407 | changing a field trades one reference for another |
| RefCount.Heap.Lock | include/header.h:206 | LOCK adds one handle |
| RefCount.Heap.Unlock | include/header.h:207 | UNLOCK gives one handle back; the cascade terminates, every count is exact again, the free list holds each dead cell once, live cells only refer to live cells, and nothing dies while the count stays positive |
| RefCount.Heap.Purge | src/at.c:51-88 | the release loop on cdr with recursion on car restores the invariant |
| RefCount.Heap.PurgeCar | src/at.c:61-69 | one round of the loop: car given back, cell freed, cdr passed on |
| RefCount.Heap.DisposeKids | src/at.c:77-82 | an external object releases all it refers to |
| RefCount.Heap.Grow | src/allocate.c:52-83 | a new chunk is linked on the empty free list |
| RefCount.Heap.MakeCons | src/at.c:99-114 | takes a cell off the free list or from a new chunk; counts stay exact |
| RefCount.Heap.NewCons | src/at.c:117-135 | the same while the caller keeps its handles |
| RefCount.Heap.Rplaca | src/at.c:372-384 | replaces the car of a cons, or signals an error and changes nothing |
| RefCount.Heap.Rplacd | src/at.c:394-407 | replaces the cdr of a cons, or signals an error and changes nothing |
| RefCount.HeldIsLive | src/at.c:51-88 | whatever a handle reaches is live and not on the free list: nothing dangles |
| RefCount.LeakIff | src/at.c:51-88 | some live object is out of reach of all handles if and only if a cycle of live objects is: exactly that leaks |
| RefCount.CycleIsKept | src/at.c:51-88 | a cons made to refer to itself and then released stays live and out of reach, whatever heap it is made in |
| ListWalks.Revisits | src/at.c:541-556 | in a finite heap a circular walk comes back to a cell it has seen |
| ListWalks.Meeting | src/at.c:541-596 | the slow pointer is caught on every circular list, on either of its two schedules |
| ListWalks.Caught | src/at.c:541-556 | when the pointers meet the list is circular and every one of its cells has been visited |
| ListWalks.Length | src/at.c:541-556 | -1 if and only if the list is circular, otherwise its number of conses |
| ListWalks.LastCdr | src/at.c:599-617 | error if and only if circular, otherwise the last cons |
| ListWalks.Last | src/at.c:566-588 | error if and only if circular, otherwise the dotted tail or the last element |
| ListWalks.Member | src/at.c:627-646 | the first matching cell, NIL only if no cell of the list matches, circular or not |
| ListWalks.Assoc | src/at.c:851-872 | the first pair whose key matches, NIL only if none does, circular or not |
| ListWalks.SpineNth | src/at.c:541-556 | a spine of new cells is what cdr-ing finds |
| ListWalks.Space.Reverse | src/at.c:779-798 | error if and only if circular, otherwise new cells with the elements in reverse order; old cells untouched |
| ListWalks.Space.Append | src/at.c:656-677 | error if and only if the first list is circular, otherwise new cells ending in the second list itself; old cells untouched |
| ArenaBlocks.SplitTiles | src/dldbfd.c:1089-1109 | cutting a block in two keeps the tiling |
| ArenaBlocks.MergeTiles | src/dldbfd.c:1130-1140 | joining neighbours keeps the tiling |
| ArenaBlocks.ChunkTiles | src/dldbfd.c:1071-1086 | a fresh chunk extends the tiling |
| ArenaBlocks.InsertedSorted | src/dldbfd.c:1124-1129 | insertion by address keeps the list in order |
| ArenaBlocks.CompactedApart | src/dldbfd.c:1130-1140 | one compaction pass keeps the order and leaves no two neighbours |
| ArenaBlocks.CompactedTiles | src/dldbfd.c:1130-1140 | compaction neither loses nor gains a byte |
| Arena.CarveSound | src/dldbfd.c:1087-1109 | allocation moves bytes from the free to the used side, from the high end for permanent data, and nothing else |
| Arena.RoundChunk | src/dldbfd.c:1074-1076 | the chunk size is the smallest multiple that holds the request |
| Arena.CarveWhole | src/dldbfd.c:1087-1088 | a remainder too small for a header is no remainder at all: sizes are multiples of 64 |
| Arena.ReleaseSound | src/dldbfd.c:1124-1129 | a used block goes back to the free list |
| Arena.MarkTells | src/dldbfd.c:1121-1122 | the header mark that deallocation looks for is carried by a free block if and only if it is 64 bytes long with a free right neighbour; after a deallocation never |
| Arena.Allocator.Search | src/dldbfd.c:1067-1070 | first fit |
| Arena.Allocator.AddChunk | src/dldbfd.c:1076-1086 | a chunk from mmap is linked in address order |
| Arena.Allocator.Carve | src/dldbfd.c:1087-1112 | the header stores that cut a block and unlink the part handed out |
| Arena.Allocator.Allocate | src/dldbfd.c:1038-1113 | exact new state: which block, which end, exactly the rounded size; no memory if and only if nothing fits and there is no chunk, a store through MAP_FAILED if and only if nothing fits and mmap fails; the invariant holds |
| Arena.Allocator.Insert | src/dldbfd.c:1124-1129 | linking through a pointer to the previous link |
| Arena.Allocator.Compact | src/dldbfd.c:1130-1140 | the in-place pass computes the compacted list |
| Arena.Allocator.Deallocate | src/dldbfd.c:1115-1142 | error if and only if the mark is missing; otherwise the block is freed, neighbours are joined and no two neighbouring free blocks remain |
| Linker.Put | src/dldbfd.c:565-571 | rewriting one entry keeps the invariant when the counter follows the entry |
| Linker.Linker.InsertModule | src/dldbfd.c:1277-1360 | exact entry of every name after loading; the counter is the number of referenced undefined names, refcounts are the loaded undefined occurrences, every definition of a module is that of its first symbol for the name, the assertion holds |
| Linker.Linker.InsertSymbol | src/dldbfd.c:1286-1357 | one symbol of a module being loaded |
| Linker.Linker.RemoveModule | src/dldbfd.c:1366-1421 | exact entry of every name after unloading; the invariant and the final assertion hold |
| Linker.Linker.RemoveSymbol | src/dldbfd.c:1374-1418 | one symbol of a module being unloaded; both inner assertions hold |
| Linker.Linker.CreateReference | src/dldbfd.c:2833-2857 | a reference that no refcount records |
| Linker.Linker.DefineSym | src/dldbfd.c:2862-2892 | defines private memory, or refuses a defined name |
| Linker.Linker.RemoveDefined | src/dldbfd.c:2897-2923 | takes a definition away and restores the counter |
| Linker.Linker.OpenShared | src/dldbfd.c:2405-2450 | a shared library defines the names that have no definition yet |
| Linker.AllResolved | src/dldbfd.c:565-571 | the counter is zero if and only if no referenced name is undefined, and then all wanted names are defined |
| Linker.LoadDefines | src/dldbfd.c:1277-1360 | who defines a name after a load: the open shared libraries, the module by its first symbol for the name, or nobody |
| Linker.DefinedByFirst | src/dldbfd.c:1310-1356 | in every reachable state: a name with a module holds the value of the first symbol of that loaded module that carries the name and has a definition, is a function if and only if that symbol is code, and leads to another entry if and only if it is an alias; other definitions are addresses |
| Linker.SharedDefines | src/dldbfd.c:2405-2450 | a shared library defines a name by the first symbol it finds for it, unless it is defined already |
| Linker.RemoveRestores | src/dldbfd.c:2897-2923 | removing a definition gives back the entry before it if and only if no reference is faked |
| Linker.UnloadCounts | src/dldbfd.c:1366-1421 | unloading takes back exactly the module's own references and definitions |
| Linker.LoadThenUnload | src/dldbfd.c:1277-1421 | loading and unloading a module restores the entry of a name if and only if: for a name without faked references, its definition was not fetched from a shared library on the way; for one with a faked reference, the module does not want it, or does not mention it when it is undefined |
| Linker.StateOutside | src/dldbfd.c:1277-1421 | entries in every reachable state qualify for that, and have a faked reference exactly when they are referenced but no loaded module wants them |
| IndexLoops.CoordInRange | include/header.h:1107-1131 | coordinates visited are in range |
| IndexLoops.CoordRank | include/header.h:1107-1131 | row-major order visits every coordinate |
| IndexLoops.RankCoord | include/header.h:1107-1131 | and visits it once |
| IndexLoops.NextCoord | include/header.h:1117-1131 | the successor of a coordinate raises one digit and rolls the digits after it |
| IndexLoops.Advance | include/header.h:1117-1131 | the end of a loop body: digits rolled back to -1 and swept forward leave the next coordinate and its offset |
| IndexLoops.Loop1 | include/header.h:1107-1131 | exactly as many visits as there are elements; the k-th pointer is the dot product of the k-th row-major coordinate with the strides |
| IndexLoops.Loop2 | include/header.h:1139-1177 | two indexes of different shapes are paired element by element |
| IndexViews.UnfoldIff | src/index.c:2649-2684 | unfolding is accepted if and only if windows of that size and step cover the dimension exactly |
| IndexViews.DiagonalIff | src/index.c:2703-2709 | the diagonal is taken if and only if the last d dimensions, two at least, have one size |
| IndexViews.NarrowIff | src/index.c:2738-2741 | narrowing succeeds if and only if the interval is not empty and lies in the dimension |
| IndexViews.SelectIff | src/index.c:2767-2770 | selecting succeeds if and only if some element has that subscript |
| IndexViews.UnfoldElement | src/index.c:2649-2684 | an element of the unfolded view is the base element at the composed coordinate, and the view has all those whose window lies in the dimension and no other |
| IndexViews.DiagonalElement | src/index.c:2689-2717 | an element of the diagonal is the base element with that coordinate repeated, and the view has all of them and no other |
| IndexViews.NarrowElement | src/index.c:2722-2747 | narrowing shifts one coordinate; the view has exactly the elements of the interval |
| IndexViews.SelectElement | src/index.c:2752-2781 | selecting fixes one coordinate; the view has exactly the elements with that one |
| IndexViews.TransposeElement | src/index.c:2786-2822 | transposing permutes coordinates, both ways |
| IndexViews.Onto | src/index.c:2805-2810 | a list accepted as a permutation reaches every dimension |
| IndexOps.FitsIff | src/index.c:2932-2948 | the size check is exact for strides of either sign |
| IndexOps.ApplyKeeps | src/index.c:2649-3025 | each operation keeps an index inside its storage |
| IndexOps.RunKeeps | src/index.c:2649-3025 | so does every sequence of operations |
| IndexOps.Transpose2Is | src/index.c:2827-2852 | swapping two dimensions is a transposition |
| IndexObject.Index.UnfoldIn | src/index.c:2649-2684 | unfold in place: the new view, or the error and the old view |
| IndexObject.Index.DiagonalIn | src/index.c:2689-2717 | diagonal in place: the new view, or the error and the old view |
| IndexObject.Index.NarrowIn | src/index.c:2722-2747 | narrow in place: the new view, or the error and the old view |
| IndexObject.Index.SelectIn | src/index.c:2752-2781 | select in place: the new view, or the error and the old view |
| IndexObject.Index.TransposeIn | src/index.c:2786-2822 | transpose in place through a copy: the new view, or the error and the old view |
| IndexObject.Index.Transpose2In | src/index.c:2827-2852 | swap two dimensions in place: the new view, or the error and the old view |
| IndexObject.Index.CheckSize | src/index.c:2932-2948 | the loop over the dimensions |
| IndexObject.Index.ChangeDim | src/index.c:2950-2975 | a dimension that no longer fits is put back |
| IndexObject.Index.ChangeMod | src/index.c:2977-3002 | a stride that no longer fits is put back |
| IndexObject.Index.ChangeOffset | src/index.c:3004-3025 | an offset that no longer fits is put back |
| IndexObject.Index.MidxUnfold | include/idxmac.h:158-165 | the compiled twin, which checks nothing, agrees with the interpreter wherever that accepts |
| IndexObject.Index.MidxDiagonal | include/idxmac.h:170-178 | the compiled twin, which checks nothing, agrees with the interpreter wherever that accepts |
| IndexObject.Index.MidxNarrow | include/idxmac.h:183-187 | the compiled twin, which checks nothing, agrees with the interpreter wherever that accepts |
| IndexObject.Index.MidxSelect | include/idxmac.h:193-208 | the compiled twin, into another index or into itself, agrees with the interpreter wherever that accepts |
| IndexObject.Index.MidxTranspose | include/idxmac.h:213-221 | the compiled twin, which checks nothing, agrees with the interpreter wherever that accepts |
| IndexObject.IsPermutation | src/index.c:2803-2810 | the marking loop accepts exactly the permutations |
| IndexCopy.CopiedAt | src/index.c:1661-1748 | after a copy each place holds the element last sent to it, or what it held |
| IndexCopy.CopiedAll | src/index.c:1661-1748 | when the target addresses are distinct the k-th element lands at the k-th place |
| IndexCopy.MovedIsCopied | src/index.c:1661-1748 | copying inside one storage gives the copy in row-major order as long as no place is changed before it is read |
| IndexCopy.ApartUndisturbed | src/index.c:1661-1748 | indexes over disjoint places of one storage are such a case |
| IndexCopy.SharedIff | src/index.c:1661-1748 | for targets that share no place that condition is exact |
| IndexCopy.MovedAt | src/index.c:1661-1748 | after a copy inside one storage each place holds what its source held before, traced back through the steps that changed it |
| IndexCopy.InPlaceIff | src/index.c:1661-1748 | for any two indexes, targets that share places included: copying inside one storage does what copying from another one does if and only if every step that is not overwritten later sends the first contents of its source |
| IndexCopy.CopyIndex | src/index.c:1661-1748 | error if and only if the element counts differ; otherwise the copy in row-major order, between two storages or inside one |
| ObjectHash.EqTest | src/calls.c:104-172 | on objects without cycles eq_test answers whether the structures are equal; its two circularity guards never fire |
| ObjectHash.SameIff | src/calls.c:104-172 | what equality of structures means on the heap, case by case: the same object, equal numbers or pointers, equal contents of one comparing class, or conses with equal cars and cdrs |
| ObjectHash.HashValue | src/htable.c:266-327 | the hash is a function of the structure alone |
| HashTable.SameKeySameHash | src/htable.c:266-327 | keys that the table calls equal have one hash |
| HashTable.Table.constructor | src/htable.c:586-612 | an empty map, with the source's initial size |
| HashTable.Table.Search | src/htable.c:475-484 | the walk along one bucket finds a key if and only if the map has it |
| HashTable.Table.Set | src/htable.c:449-520 | the map with the key bound, or without it when the value is NIL |
| HashTable.Table.Get | src/htable.c:525-563 | the value the map gives, NIL if there is none |
| HashTable.Table.Resize | src/htable.c:329-363 | the same elements, each in the bucket of its hash |
| HashTable.Table.Rehash | src/htable.c:392-441 | stale hash numbers are recomputed; the map stays the same |
| HashTable.Compare | src/htable.c:187-213 | for tables of any two kinds: 0 if and only if they have as many elements and the second answers every key of the first with an equal value; for tables of one kind, if and only if both map equal keys to equal values |
| Quickselect.Pivot | src/classify.c:191-204 | median of three, moved to the front with the least behind it as a sentinel and the greatest at the end |
| Quickselect.Partition | src/classify.c:205-214 | both scans stay inside the range and cross by at most one place |
| Quickselect.RankUnique | src/classify.c:181-225 | a sequence split at k has at k the k-th element of any sorted arrangement |
| Quickselect.KSmallest | src/classify.c:181-225 | a permutation of the input, split at k; the answer is the element of rank k |
| Timers.CmpTotal | src/event.c:244-256 | the comparison never contradicts millisecond order and is exact against a clock time |
| Timers.CmpSplitsInstants | src/event.c:244-256 | counterexample: one instant written in two ways compares as different |
| Timers.EvtimeAdd | src/event.c:258-268 | addition with carry |
| Timers.EvtimeSub | src/event.c:270-280 | subtraction with carry |
| Timers.TimerList.Insert | src/event.c:296-306 | insertion behind every timer that is not later and before the first that is |
| Timers.TimerList.Add | src/event.c:336-357 | errors, the 20 ms minimum period, and the exact date |
| Timers.TimerList.Delete | src/event.c:373-386 | removes that timer and no other |
| Timers.DuePrefix | src/event.c:398-404 | the due timers are a prefix of the list |
| Timers.AdvancedSteps | src/event.c:408-409 | a periodic timer moves a whole number of periods, just past now |
| Timers.RefiredHas | src/event.c:398-417 | one-shot timers are gone, periodic ones wait for their next date, the others are untouched |
| Timers.TimerList.Fire | src/event.c:393-426 | one event per due timer, with its handler and its handle, in order, and no other; the list sorted and past now, and the exact delay up to a day |
| Calendar.LeapCountRight | src/date.c:477-478 | the closed leap-year formula counts right for every year from 1900 on |
| Calendar.LeapRule | src/date.c:543 | leap years are those of the Gregorian calendar |
| Calendar.MonthRule | src/date.c:454-467 | the table of months agrees with the lengths of the months in both kinds of years |
| Calendar.CheckIff | src/date.c:75-99 | the date check rejects exactly the dates, complete or not, that no choice of the missing fields makes valid |
| Calendar.FindYear | src/date.c:540-547 | the year loop stops at the year that holds the day |
| Calendar.FindMonth | src/date.c:551-562 | the month loop stops at the month that holds the day |
| Calendar.ToDate | src/date.c:528-575 | a valid date with the given numbers, or one of three errors, each under its exact condition |
| Calendar.NumberInjective | src/date.c:450-490 | two valid dates with equal numbers are one date |
| Calendar.NumbersThere | src/date.c:528-575 | from numbers to a date and back |
| Calendar.DateThere | src/date.c:450-575 | from a valid date to numbers and back |
| Calendar.YearDay | src/date.c:493-503 | the day of the year |
| Calendar.WeekdayIff | src/date.c:505-511 | the weekday is 0 to 6 if and only if the day number is at least -4 or falls on a Sunday |
| Calendar.Epoch | src/date.c:480-511 | day 0 is 1 January 1970, a Thursday |
| Calendar.WeekdayBefore1970 | src/date.c:505-511 | counterexample: 27 December 1969 has weekday -1 |
| PathNames.WalkNormal | src/fileio.c:496-540 | no empty, dot or dot-dot component survives, and the result fits the limit |
| PathNames.CompsJoined | src/fileio.c:496-540 | splitting a joined stack gives the stack back |
| PathNames.Idempotent | src/fileio.c:496-540 | normalising twice is normalising once |
| PathNames.RelativeToCwd | src/fileio.c:500-505 | an absolute name stands for itself; a relative one for the working directory, a slash and the name |
| PathNames.RelativeToFrom | src/fileio.c:502-503 | with a first name, a relative name stands for what the first stands for, a slash and the name; too long if the first is |
| PathNames.JoinIsText | src/fileio.c:496-540 | joining two names does what writing them one behind the other does |
| PathNames.OneMore | src/fileio.c:513-538 | one more component: dot stays, dot-dot goes up but not above the root, any other is entered or the result is too long |
| PathNames.NoName | src/fileio.c:506-512 | no name or an empty one is the directory itself, slashes alone are the root |
| PathNames.UnderIff | src/fileio.c:563-571 | the string test for "below" says that one component stack is a prefix of the other |
| PathNames.FileNames.DropLast | src/fileio.c:521-529 | dot-dot backs up over one component and never over the root |
| PathNames.FileNames.Append | src/fileio.c:531-538 | a component is appended inside the buffer, or the length error is signalled |
| PathNames.FileNames.Scan | src/fileio.c:507-539 | the in-place scan computes the component-stack semantics |
| PathNames.FileNames.ConcatFname | src/fileio.c:496-540 | the whole function, with the length error under its exact condition |
| PathNames.FileNames.RelativeFname | src/fileio.c:554-575 | succeeds if and only if the name lies below and the base is short enough, with the length error under its exact condition; joining the result again gives the name |
| ArgBinding.Interpreter.PopArgs | src/function.c:123-145 | pops one value for each symbol of the formal tree |
| ArgBinding.Interpreter.PushArgs | src/function.c:147-186 | success exactly when the shapes match, and then one push per binding |
| ArgBinding.Interpreter.ParseOptionalStuff | src/function.c:189-245 | optional and rest parts, with their syntax errors |
| ArgBinding.SymbolsBalance | src/function.c:123-245 | symbols popped are those pushed plus those inside default values |
| ArgBinding.Balanced | src/function.c:123-245 | push then pop restores every stack if and only if no default value mentions a symbol that has a value to lose |
| ArgBinding.DefaultSymbolIsPopped | src/function.c:209-220 | counterexample: a default that is a symbol loses a binding |
| ArgBinding.BoundToPlace | src/function.c:147-186 | each required or rest symbol is bound to the part of the actuals at its own place |
| ArgBinding.BoundOrDefault | src/function.c:189-225 | each optional symbol is bound to the actual at its own place, or to its default when there is none |
| LineClip.ComputeCode | src/comdraw_driver.c:394-408 | no side bit is set if and only if the point is inside |
| LineClip.Cut | src/comdraw_driver.c:447-466 | the truncated intersection stays between the ends |
| LineClip.CutAt | src/comdraw_driver.c:436-466 | one clip never divides by zero and computes the cut point, which lies in the box of the line |
| LineClip.CutPoint | src/comdraw_driver.c:447-466 | the cut point lies between the ends, and what is left is shorter |
| LineClip.ClippedInside | src/comdraw_driver.c:415-480 | what is left lies in the rectangle and in the box of the line, an end that was inside stays, and a line with such an end is not rejected |
| LineClip.RejectedMisses | src/comdraw_driver.c:436-471 | a rejected line has no point that lies inside by a pixel, in spite of the truncated divisions |
| LineClip.RejectsCorner | src/comdraw_driver.c:447-466 | counterexample: a line through a corner is rejected, so the pixel is needed |
| LineCover.DrawnFaithful | src/comdraw_driver.c:436-479 | for a drawn line: every point of it inside the rectangle by a pixel is within two pixels, in each coordinate, of what is left, and every point of what is left is within two pixels of the line |
| LineClip.DoLineClip | src/comdraw_driver.c:415-480 | the clipping loop: what is left or rejected, the ends in the rectangle and in the box of the line, an end that was inside stays, such a line is kept unless its four coordinates are equal, and any other rejected line misses the rectangle up to a pixel |

## Left out

- DZ: the disassembler, the transcendental opcodes beyond their stack effect, `dz-def` and tracing; they add no invariant.
- DzVerifier.VerifierSound: speaks of programs whose reached elements have good operands and targets, because without that the claim is false; `DzPaths.RunsFollowIff` shows this exact.
- DzVerifier.NeverFaults: the same programs.
- DzVerifier.MapIsKept: numeric operands and jumps to addresses of elements; `DzVerifier.MapInvariantIff` is exact.
- DzMeaning.CodeMeansProgram: the same programs, with one argument at least; with none the register holds no argument.
- DzAcceptance.AnalyseIff: leaves out programs with a branch to the address that happens to be in the unwritten slot; `DzVerifier.UnwrittenSlotAccepts` shows what that does.
- DzAcceptance.PassTwoIff: the same.
- DzPaths.FaultsExactlyAtGround: its condition speaks of the run itself; `DzPaths.GroundIff` and `DzPaths.GroundIffDepth` give the one on the code, where branches may go either way.
- Binary files: number formats, byte order, zombies, class instances, arrays, functions and the reserved `::` names.
- BinaryReader.Reader.LocalBread: what the code does after an access outside its arrays or through a pointer left in them; the model stops there.
- Collector: destructors, finalizers, zombies and object classes are taken to leave the graph alone; `valueptr` is the value.
- RefCount: weak links, finalizers and the body of class destructors, except that they release what the object refers to.
- ListWalks: `flatten`, `nfirst`, `nth` and the checks for user interrupts; the test that `member` applies is a parameter there and is the subject of `ObjectHash`.
- ListWalks.Space.NewCons: allocates at the next unused address instead of the free list, whose own proof is in `RefCount`.
- Arena: user writes outside a payload, and what happens after a store through MAP_FAILED.
- Arena.Allocator.Deallocate: requires that an address that carries the mark belongs to a used block, because the code can look no further than the mark.
- Linker: BFD, relocation, resolving and archive scanning, the "Strange error" path, cyclic indirect symbols, and the overflow of the 16-bit refcount.
- IndexLoops: the three-index loop, which repeats the two-index one.
- Indexes: `index_dimension`, `index_from_index`, the element type switch and number conversion; an index starts in bounds.
- IndexCopy.CopyIndex: storages of different types, and the counts of objects in storages of objects.
- ObjectHash.EqTest: circular structures, where its guards cut the walk.
- ObjectHash.HashValue: circular structures, where its guards cut the walk.
- Objects: class comparison methods other than equality of contents, and hashing of tables by tables.
- HashTable.Table.Rehash: the removal of zombies and the switch to finalizers on address keys.
- HashTable: zombies, the finalizers of address-keyed tables, and memory exhaustion; buckets are sequences, so aliasing of bucket cells is not described.
- Timers: `timer_abs`, whose fractional part depends on floating point, and the removal of timers whose handler dies; the list is a sequence, so aliasing of its nodes is not described.
- Calendar: conversion of incomplete dates, strings, and `localtime`.
- PathNames: a name that points into the buffer being written, and `cwd` names that are not normalised or do not fit.
- ArgBinding: what happens to the stacks after an error, and evaluation of the arguments.
- LineClip: rectangles with a negative side, and overflow of the products.
- HashTable.Compare: a table with itself, which eq_test answers before it gets here (`src/calls.c:115`).
- User interface, graphics, pipes, compiled wrappers and floating-point accuracy.
