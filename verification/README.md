# Verified models of the ICS labs

This project models seven programs of the repository in Dafny and proves what they are for.
Usage: `dafny verify dfyconfig.toml`.

**The segregated-fit allocator** (`lab9/ICS-lab9/mm.c` over `memlib.c`; modules `HeapLayout`, `Buckets`,
`FreeLists`, `HeapState`, `Allocator`, `HeapCheck`, `Driver`). The heap is a byte array that is written one
word at a time, as the C code writes it. Beside it stand ghost views: a map of blocks, and the linked free
lists. What every operation keeps (`Valid`) is that headers, footers and epilogue tile the heap as the block
map says, sizes and addresses are multiples of 8, no two neighbours are free, every free block is in the list
of its size, and the link words in memory are those of the lists. The client's view is the map of live
payloads, and every operation states exactly how that map changes. The author's checker `mm_check` and the
driver's replay of a whole trace are modelled on top and shown never to complain. That offset 0 can mean NULL
although it is also the prologue's address is a consequence: the prologue is never listed.

**The pipelined Y86-64 processor** (`pipe-full.c` and `psim.c` against `isa.c`; modules `Y86Words`, `Isa`,
`MemRec`, `IsaSim`, `Pipe`, `PipeHazards`, `PipeSpec`, `PipeRefines`, `PipeRuns`, `PipeExact`, `PipeLimits`,
`PipePrograms`, `PsimSpec`, `Psim`). The control equations are functions, the simulator is a class whose methods
update its registers in the order of the source. The main theorem is a simulation: from reset, after any number of
cycles, the instructions in flight are consecutive instructions of the ISA run, and each cycle stutters or completes
one. From it follow the state a programmer sees, the state after draining, the stop, a bound of five cycles per
instruction, and, for programs the pipeline stops within the simulator's limit, exactly when the simulator's own
check against the ISA succeeds. Jumps, calls and returns are included. The hypotheses (`Program`) are those the
design needs: real registers wherever an instruction names any; an iaddq whose function code makes no difference,
which is always so for 0; instructions whole in memory and at least six bytes from its end; no store into the three
instructions fetched behind it; not the one jump pattern for which the fetch prediction (`pipe-full.c:66-69`) and the
flag recorded at decode (`pipe-full.c:122-124`) disagree; and no memory operand without base register that is
forwarded something else than 0 for it (`pipe-full.c:108-131`). The last two are exact: among the programs that meet
the others, the pipeline follows the ISA on just those that meet these (`FollowsExactly`). `CodeIsProgram` and
`ClosedCodeIsProgram` give criteria that speak of the code and of where it stores; `JumpFollows` and `NoBaseAddress`
show the failing conditions in every state, reachable or not; and sample programs show whole runs going wrong: on the
pattern, on an operand without base register, and on a stack address that faults.

**The cache simulator** (`lab8/csim.c`; `Lru`, `Csim`). Time stamps in unordered lines refine a recency stack,
the stack is characterised by reuse distance, and the stack property relates caches of different sizes.

**The assembler and the loader** (`yas.c`, `load_mem`; `Yas`, `Listing`, `Assembled`). Two passes over token
lines, instruction encoding against the processor's decoder, and the listing that the loader reads back.

**The HCL compiler** (`node.c`; `Hcl`, `HclSets`). The emitted C tokens are parsed with C's precedences by an
independent parser and evaluate to the meaning of the source expression. Case lists as set elements (`HclSets`) are
where that fails, because both kinds of list use the same link field: what is emitted instead is characterised for
every set, and when it is what was written, when it means the same, and when a null pointer is followed.

**The buffered reader** (`lab10/csapp.c`; `Rio`) against the plain byte stream, and **the blocked transposes**
(`lab8/trans.c`; `Transpose`), one of which parks values in its own output.

Where code and description differ, the model follows the code, and where a property then fails the lemma named
gives the exact condition. Cases of this kind: `sim_run_pipe` says that it counts completed
instructions, but a bubble in write-back is reported as a normal status (`pipe-full.c:230-234`), so it counts cycles
and the limit on instructions is a limit on cycles (`RetiredLater`); the fetch stage's guard that a longest
instruction can be read (`psim.c:1402-1406`) tests the sixth byte, not the tenth (`GuardExact`); a call, pushq or
popq that faults has moved the stack pointer in the ISA simulator but not in the pipeline (`StopAgrees`,
`PushFaults`); a label on a .pos or .align does not stand for the address its line is printed at
(`LabelIsPrinted`); the driver's test that a payload overlaps no other looks at the two ends of the new one only
(`ClearGap`); `rio_readnb` and `rio_readlineb` return -1 after an error although they may have taken bytes, which
are then in the caller's buffer (`CountsAreDelivered`); the pipeline's ALU obeys the function code of an iaddq, which
the ISA ignores (`IaddqAgrees`); the comment on the listing format shows a blank behind the colon, which four-digit
addresses do not have; the 61 by 168 transpose stops after 67 rows.

## Model

| member | source | states |
|---|---|---|
| Buckets.BucketClosedForm | lab9/ICS-lab9/mm.c:458-477 | list k holds exactly the sizes 16, 24, then (2^(k+2), 2^(k+3)] for 3 to 14 (only 32 for list 2), and everything above 2^17 for the last |
| Buckets.BucketMonotone | lab9/ICS-lab9/mm.c:458-477 | a larger size never has an earlier list |
| Buckets.GetFreeListIndex | lab9/ICS-lab9/mm.c:458-477 | the division and shifting loop computes the list whose range contains the size |
| FreeLists.PushLinked | lab9/ICS-lab9/mm.c:406-430 | putting a block at the head keeps every list doubly linked, acyclic and disjoint from the others |
| FreeLists.UnlinkLinked | lab9/ICS-lab9/mm.c:432-453 | taking a block out, wherever it stands, keeps the lists so |
| FreeLists.ListComplete | lab9/ICS-lab9/mm.c:482-546 | following the links from a head meets every block of that list exactly once and no other |
| FreeLists.PushOrder | lab9/ICS-lab9/mm.c:406-430 | pushing puts the block in front and leaves the order of all lists |
| FreeLists.UnlinkOrder | lab9/ICS-lab9/mm.c:432-453 | unlinking takes the block out and leaves the order of what remains |
| HeapLayout.TagParts | lab9/ICS-lab9/mm.c:36-44 | a packed header word gives back size and allocated bit |
| HeapState.MergeConsistent | lab9/ICS-lab9/mm.c:294-335 | one header and one footer written over unlisted blocks leave boundary tags, tiling and lists agreeing, and only that stretch changes |
| HeapState.CutConsistent | lab9/ICS-lab9/mm.c:365-401 | the four tags of a split leave them agreeing |
| HeapState.InsertConsistent | lab9/ICS-lab9/mm.c:406-430 | the link words written by an insertion are those of the list with the block at its head, and no payload changes |
| HeapState.RemoveConsistent | lab9/ICS-lab9/mm.c:432-453 | the same for a removal at any place in a list |
| HeapState.NoFitAnywhere | lab9/ICS-lab9/mm.c:340-360 | if all lists from the right one on have nothing large enough, no free block anywhere is large enough |
| HeapState.WriteConsistent | lab9/ICS-lab9/mm.c:124-155 | a client that writes inside its own payload disturbs nothing else |
| HeapState.LiveApart | lab9/ICS-lab9/mdriver.c:352-400 | payloads of two live blocks never overlap |
| Allocator.Heap.Init | lab9/ICS-lab9/mm.c:92-118 | -1 exactly when the first blocks do not fit, else an empty settled heap |
| Allocator.Heap.MemSbrk | lab9/ICS-lab9/memlib.c:58-69 | the break moves by a non-negative amount that fits, and stays otherwise |
| Allocator.SbrkAmount | lab9/ICS-lab9/memlib.c:58-69 | a size reaches the int parameter as a wrong non-negative amount exactly from 2^32 on when its low word is below 2^31 |
| Allocator.HugeRequestWraps | lab9/ICS-lab9/mm.c:139-149 | an input on which the amount wraps: a request of 2^32 bytes would extend the heap by 8 |
| Allocator.HonestSbrk | lab9/ICS-lab9/memlib.c:58-69 | an amount is honest exactly when mem_sbrk, given what is left of it as an int, grants or refuses it as it would the amount |
| Allocator.TopRequestWraps | lab9/ICS-lab9/mm.c:139-140 | for the last fifteen size_t values the block size itself wraps to one that holds no block |
| Allocator.Heap.ExtendHeap | lab9/ICS-lab9/mm.c:274-289 | fails exactly when the space does not fit; else one free block, merged with a free last block, and no live payload changes |
| Allocator.Heap.InsertFreeblk | lab9/ICS-lab9/mm.c:406-430 | the block stands in front of the list of its size; all else in all lists stays as it was, in the same order |
| Allocator.Heap.RemoveFreeblk | lab9/ICS-lab9/mm.c:432-453 | exactly that block leaves its list, and what remains keeps its order |
| Allocator.Heap.Coalesce | lab9/ICS-lab9/mm.c:294-335 | the result is one free block spanning the argument and its free neighbours, listed; this also absorbs an 8-byte remnant that can never be listed |
| Allocator.Heap.FindFit | lab9/ICS-lab9/mm.c:340-360 | NULL exactly when no free block anywhere is large enough; otherwise the first fit of the first list that has one |
| Allocator.Heap.Place | lab9/ICS-lab9/mm.c:365-401 | the allocated part, its size and its side; the remainder stays free and listed |
| Allocator.Heap.Malloc | lab9/ICS-lab9/mm.c:124-155 | NULL exactly for size 0 or when nothing fits and the heap cannot grow; else one new payload of at least the aligned size, every other payload untouched; the heap grows exactly when nothing fits, by the chunk |
| Allocator.Heap.Free | lab9/ICS-lab9/mm.c:160-182 | exactly that payload is gone, all others untouched, the heap settled |
| Allocator.Heap.Realloc | lab9/ICS-lab9/mm.c:187-269 | on every path the common prefix is kept and no other payload changes; the block stays where it is exactly when it shrinks, the free space behind it is enough, or the heap can be extended behind it; NULL for a non-zero size means exhaustion and leaves block and contents; by how much the heap grows |
| Allocator.Heap.ShrinkInPlace | lab9/ICS-lab9/mm.c:217-230 | shrinking keeps the prefix and returns the tail to the free lists, merged |
| Allocator.Heap.GrowInPlace | lab9/ICS-lab9/mm.c:241-259 | growing into the free block behind keeps the whole payload |
| Allocator.Heap.ExtendFor | lab9/ICS-lab9/mm.c:232-239 | extending the heap behind the last block gives room behind it, or changes nothing |
| Allocator.Heap.Move | lab9/ICS-lab9/mm.c:261-269 | malloc, memcpy and free together move a payload, or fail without a trace |
| HeapCheck.WalkMeetsAll | lab9/ICS-lab9/mm.c:482-546 | following the headers meets every block once, in address order |
| HeapCheck.TwoViews | lab9/ICS-lab9/mm.c:482-546 | the header walk and the sixteen list walks agree: every free block is in exactly one list, that of its size, exactly once |
| HeapCheck.MmCheck | lab9/ICS-lab9/mm.c:482-546 | none of the four consistency checks can ever fail on a heap between calls |
| Driver.AddRange | lab9/ICS-lab9/mdriver.c:352-400 | accepts exactly aligned ranges inside the heap neither end of which lies in a recorded range |
| Driver.ClearGap | lab9/ICS-lab9/mdriver.c:373-383 | what these two tests leave open: a range that passes them is apart from all recorded ones exactly when none of those lies strictly inside it |
| Driver.ContainedSlipsThrough | lab9/ICS-lab9/mdriver.c:373-383 | such a range: [0, 23] passes beside [8, 15] |
| Driver.RemoveRange | lab9/ICS-lab9/mdriver.c:405-420 | drops the first range that starts at the address |
| Driver.EvalMmValid | lab9/ICS-lab9/mdriver.c:549-657 | replaying any well-formed trace never finds a misaligned, overlapping or corrupted payload, and the recorded ranges really are pairwise apart, whatever the test of overlap misses; a request fails only for size 0 or exhaustion |
| Y86Words.SubDecidesOrder | lab7/sim/misc/isa.c:482-506 | after a subtraction each condition decides the true order of the operands, wrap-around or not |
| Y86Words.AddOverflow | lab7/sim/misc/isa.c:482-506 | after an addition the overflow flag holds exactly when the true sum is not representable |
| Y86Words.SelfOperands | lab7/sim/misc/isa.c:460-480 | xor of a register with itself clears it; and of a register with itself tests its sign and zero |
| Y86Words.AddsAnywayExact | lab7/sim/misc/isa.c:460-506 | another ALU function gives the sum, with the flags of an addition, exactly for subtracting 0, the conjunction of zeros, an exclusive or without common bits, and, for a code without meaning, opposite numbers |
| Isa.SetGetWord | lab7/sim/misc/isa.c:310-343 | a stored word reads back and words elsewhere are not disturbed |
| MemRec.GetWordVal | lab7/sim/misc/isa.c:310-323 | the byte loop assembles the little-endian word, or fails exactly when it does not fit |
| MemRec.SetWordVal | lab7/sim/misc/isa.c:333-343 | the shifting loop stores the little-endian bytes of either sign, and nothing else |
| MemRec.DiffMem | lab7/sim/misc/isa.c:163-181 | comparing words finds a difference exactly when some word of the common part differs; for lengths that are multiples of 8, when some byte of it does |
| MemRec.SetRegVal | lab7/sim/misc/isa.c:414-424 | exactly that register of the byte-backed register file changes |
| MemRec.RegBytesTell | lab7/sim/misc/isa.c:383-403 | register files differ exactly when some program register does |
| IsaSim.IsaState.StepState | lab7/sim/misc/isa.c:627-943 | the in-place step of every instruction, with all its error returns, is the step function |
| PipeHazards.ForwardingExact | lab7/sim/pipe/pipe-full.c:108-131 | without a load-use hazard both operands are what the registers will hold once all older instructions are done |
| PipeHazards.NoConflict | lab7/sim/pipe/pipe-full.c:236-308 | no pipeline register is ever told to stall and to take a bubble |
| PipeHazards.FaultStops | lab7/sim/pipe/pipe-full.c:162-170 | the cycle that finds a fault in the memory stage changes neither memory nor condition codes |
| PipeHazards.ExceptionSquashes | lab7/sim/pipe/pipe-full.c:286-308 | from that cycle on, for any number of cycles, no younger instruction changes memory, flags or registers |
| PipeHazards.CleanFaultsReachable | lab7/sim/pipe/pipe-full.c:41-45 | in every reachable state an instruction found faulty at fetch neither stores nor sets flags |
| PipeSpec.FetchDecodes | lab7/sim/pipe/psim.c:1387-1437 | fetch finds the fields the ISA decodes |
| PipeSpec.StepAgrees | lab7/sim/pipe/pipe-full.c:73-231 | one instruction carried through the stages alone does what one ISA step does, faults included |
| PipeRefines.NextOperand | lab7/sim/pipe/pipe-full.c:108-131 | in the running pipeline the forwarded operand is the register value of the ISA state just before the instruction |
| PipeRefines.StepMispredicted | lab7/sim/pipe/pipe-full.c:257-285 | a jump found wrong in execute discards exactly the two younger instructions |
| PipeRefines.StepLoadUse | lab7/sim/pipe/pipe-full.c:241-285 | a load-use hazard delays decode by one cycle and loses nothing |
| PipeRefines.FetchAddress | lab7/sim/pipe/pipe-full.c:9-17 | the fetched address is the one the ISA goes to, after jumps, mispredicted jumps and returns |
| PipeRefines.NextPrediction | lab7/sim/pipe/pipe-full.c:64-71 | the predicted address is right for everything but returns and wrong jumps |
| PipeRefines.StepSim | lab7/sim/pipe/psim.c:687-743 | each cycle stutters or completes exactly one instruction of the ISA run |
| PipeRuns.PipelineRefines | lab7/sim/pipe/psim.c:687-743 | after every number of cycles of every run the instructions in flight are consecutive ISA instructions |
| PipeRuns.VisibleState | lab7/sim/pipe/psim.c:597-648 | registers, memory and flags are those of the ISA run at write-back, memory and execute |
| PipeRuns.DrainIsIsa | lab7/sim/pipe/psim.c:687-743 | in every state of a run, completing what is in flight, up to a fault or a jump just found wrong, gives exactly the ISA state after as many steps; all of it completes unless there is such a fault or jump |
| PipeRuns.StopAgrees | lab7/sim/pipe/psim.c:234-269 | both machines stop at the same instruction with the same status, memory and flags; registers agree exactly when it is not a call, pushq or popq |
| PipeRuns.FiveCyclesEach | lab7/sim/pipe/psim.c:181-224 | at least one instruction leaves write-back in every five cycles |
| PipeRuns.StopsInTime | lab7/sim/pipe/psim.c:181-224 | if the ISA stops at its step n, the pipeline stops within 5n+4 further cycles, at the same instruction |
| PipeExact.JumpIsFetched | lab7/sim/pipe/pipe-full.c:64-71 | with the store of the pattern in execute, the jump is fetched in the next cycle and predicted as taken, while decode is about to record it as predicted not taken |
| PipeExact.FollowsExactly | lab7/sim/pipe/psim.c:687-743 | on a program that meets the other hypotheses the pipeline is at its place in the ISA run after every cycle exactly when no jump the ISA gets to shows the pattern, and no operand without base register is given anything but 0 for it, which is told from the ISA run |
| PipeRefines.NowhereForwarded | lab7/sim/pipe/pipe-full.c:108-131 | what such an operand is given is the newest result that goes to no register, as the ISA run says |
| PipeRefines.AheadInExecute | lab7/sim/pipe/pipe-full.c:241-285 | an instruction is held apart from the one before it exactly if that is a return, a jump found wrong, or a load it needs |
| PipeRuns.RetiredLater | lab7/sim/pipe/psim.c:755-773 | after t cycles from reset at most t - 4 instructions have been completed, so a count of cycles is never one of instructions |
| PipePrograms.CodeIsProgram | lab7/sim/pipe/psim.c:1387-1437 | a criterion: code closed under control flow satisfies every hypothesis if no store, push or call of the run writes into its instructions, returns go back into it and no jump shows the excluded pattern |
| PipePrograms.ClosedCodeIsProgram | lab7/sim/pipe/psim.c:1387-1437 | a static one: without stores and returns the closed code alone decides, loops and jumps included |
| PipeLimits.JumpFollows | lab7/sim/pipe/pipe-full.c:64-71 | in every state, reachable or not, in which a jump moves on unhindered, the pipeline goes on where the jump goes, except exactly when it is not taken, not to the next instruction, and two behind a positive store without an ALU instruction between |
| PipeLimits.SampleInPipeline | lab7/sim/pipe/pipe-full.c:120-131 | a program on which the pipeline executes the target of a jump that is not taken |
| PipeLimits.SampleInIsa | lab7/sim/misc/isa.c:627-943 | the same program in the ISA, which does not |
| PipeLimits.SampleExcluded | lab7/sim/pipe/pipe-full.c:120-131 | that program shows the one excluded pattern |
| PipeLimits.NoBaseAddress | lab7/sim/pipe/pipe-full.c:120-131 | a memory operand without base register gets the right address exactly when the newest pending result without a destination is zero |
| PipeLimits.AbsoluteLoadMisses | lab7/sim/pipe/pipe-full.c:120-131 | a program on which it does not: behind a store the pipeline loads from 88 where the ISA loads from 40 |
| PipeLimits.AbsoluteExcluded | lab7/sim/pipe/pipe-full.c:108-131 | that program shows the other thing excluded |
| PipeLimits.IaddqAgrees | lab7/sim/pipe/pipe-full.c:156-160 | result and flags of an iaddq with a function code agree with the ISA, which always adds, exactly where the code makes no difference |
| PipeLimits.IaddqSubtracts | lab7/sim/misc/isa.c:909-935 | an iaddq on which they do not |
| PipeLimits.PushFaults | lab7/sim/misc/isa.c:860-883 | a program on which the registers differ at the stop: pushq with a bad stack pointer moves it in the ISA and not in the pipeline |
| PipeLimits.GuardExact | lab7/sim/pipe/psim.c:1402-1406 | the fetch guard and the decoder of the ISA agree on whether an instruction is whole exactly when the sixth byte is in memory if and only if the last one is |
| PipeLimits.GuardMisses | lab7/sim/pipe/psim.c:1402-1406 | the guard passes an irmovq whose constant is cut off |
| PipeLimits.GuardFalseAlarm | lab7/sim/pipe/psim.c:1402-1406 | the guard stops a nop in the last byte, which the ISA runs |
| PsimSpec.LimitHarmless | lab7/sim/pipe/psim.c:687-704 | holding back updates near the instruction limit never changes a run that ends with an exception |
| Psim.Simulator.UpdateState | lab7/sim/pipe/psim.c:597-648 | pending writes reach registers (the memory result last), memory and flags as enabled |
| Psim.Simulator.UpdatePipes | lab7/sim/pipe/psim.c:1279-1307 | each register loads, stalls or takes its bubble |
| Psim.Simulator.DoIfStage | lab7/sim/pipe/psim.c:1387-1437 | the fetch stage in place computes the fetch equations |
| Psim.Simulator.DoMemStage | lab7/sim/pipe/psim.c:1537-1570 | the memory stage in place |
| Psim.Simulator.DoExStage | lab7/sim/pipe/psim.c:1491-1529 | the execute stage in place, flags pending only when set |
| Psim.Simulator.DoIdWbStages | lab7/sim/pipe/psim.c:1452-1481 | the decode and write-back stages in place |
| Psim.Simulator.DoStallCheck | lab7/sim/pipe/psim.c:1580-1601 | the control operations of all five registers |
| Psim.Simulator.SimStepPipe | lab7/sim/pipe/psim.c:687-743 | one in-place cycle leaves the state the pending values describe, and the new pending values are settled |
| Psim.Simulator.SimRunPipe | lab7/sim/pipe/psim.c:755-773 | a run ends with the first exception in write-back, in the state unlimited cycles reach, or with the limit; what it returns as a count of instructions is the number of cycles, and more than the instructions completed |
| Psim.RunOutcome | lab7/sim/pipe/psim.c:181-269 | for a program the pipeline stops within the limit the run has the ISA status, memory and flags, and its registers but for a stack address that faults |
| Psim.CheckAgainstIsa | lab7/sim/pipe/psim.c:181-269 | the comparison reports whether registers, memory and flags of the two simulators agree, each run as far as the limit lets it; for a program the pipeline stops within the limit, for which five cycles an instruction are enough, they do exactly when the stopping instruction is not a call, pushq or popq with a bad stack address |
| Lru.StackIsLastUses | lab8/csim.c:73-116 | the recency stack of a set lists exactly the last uses of its tags, latest first |
| Lru.StackDistance | lab8/csim.c:73-116 | a position in it is the number of other tags used since |
| Lru.HitMeansRecent | lab8/csim.c:73-89 | an access hits exactly when fewer than E other tags of its set were used since its tag was |
| Lru.HitsMonotone | lab8/csim.c:73-116 | on the same accesses more lines never hit less often |
| Lru.AllCounted | lab8/csim.c:73-91 | hits and misses together are the accesses |
| Lru.MissesFill | lab8/csim.c:91-115 | misses less evictions are the lines in use |
| Lru.TagsDistinct | lab8/csim.c:73-116 | no tag is listed twice |
| Csim.RowHit | lab8/csim.c:79-89 | stamping the matching line is moving its tag to the front of the recency stack |
| Csim.RowFill | lab8/csim.c:91-103 | so is using an invalid line, which exists exactly while the set has seen fewer tags than lines |
| Csim.OldestIsLast | lab8/csim.c:105-115 | in a full set the smallest stamp belongs to the least recently used tag |
| Csim.RowEvict | lab8/csim.c:105-115 | replacing that line drops exactly that tag |
| Csim.Cache.Load | lab8/csim.c:73-116 | one access keeps every set holding exactly its E most recent tags, and the counters those of the specification |
| Csim.Simulate | lab8/csim.c:184-205 | the dispatch on L, S and M counts the hits, misses and evictions of the specification |
| Csim.SecondAccessHits | lab8/csim.c:198-201 | the store of a modify operation always hits |
| Csim.LargerHoldsMore | lab8/csim.c:73-116 | two caches on the same accesses: every tag of the one with fewer lines is in the other, and its hits are no more |
| Csim.LinesAreRecent | lab8/csim.c:73-116 | a stamp is the time of the last use of its tag, and fewer than E other tags came since |
| Csim.StampsDistinct | lab8/csim.c:73-116 | no two lines of the cache share a stamp |
| Csim.CountersAgree | lab8/csim.c:73-116 | the counters of the running cache add up |
| Yas.Assembler.FinishLine | lab7/sim/misc/yas.c:305-443 | in both passes the position after a line depends on its tokens and its position only; pass 1 enters its label, pass 2 prints its bytes or reports an error, and then prints at most one line, at its position and of its length |
| Yas.Assembler.GetMem | lab7/sim/misc/yas.c:255-291 | register nibble and displacement bytes of a memory argument |
| Yas.Assembler.GetNum | lab7/sim/misc/yas.c:227-243 | the low bytes of a number or of the first definition of a label |
| Yas.Assembler.GetReg | lab7/sim/misc/yas.c:205-223 | a register number into one half of a byte, the other half kept |
| Yas.Assembler.FindSymbol | lab7/sim/misc/yas.c:514-522 | the first definition of a label, or an error |
| Yas.Assembler.FirstPass | lab7/sim/misc/yas.c:602-608 | the symbol table holds every label with the position of its line; an error exactly for a malformed line |
| Yas.Assembler.SecondPass | lab7/sim/misc/yas.c:610-624 | every line is printed at the same position; an error exactly for a line some argument of which is bad |
| Yas.Assemble | lab7/sim/misc/yas.c:602-624 | the two passes together |
| Yas.TwoArguments | lab7/sim/misc/yas.c:381-439 | every byte printed for a two-argument instruction is set by the line itself, whatever the code buffer held before |
| Yas.OneArgument | lab7/sim/misc/yas.c:381-439 | the same for the other instructions and for data |
| Assembled.LabelIsAddress | lab7/sim/misc/yas.c:505-522 | a label stands for the position of the first line carrying it, for uses before and after |
| Assembled.LabelIsPrinted | lab7/sim/misc/yas.c:325-367 | a label stands for the address printed for its line, except exactly when that line is a .pos or .align that moves the position |
| Assembled.LabelledDirective | lab7/sim/misc/yas.c:325-367 | such a line: a label on .pos 8 at the head of a source stands for 0 and is printed at 8 |
| Assembled.OperandReads | lab7/sim/misc/yas.c:246-291 | each written operand, in all five forms of a memory reference, is read as what it says |
| Assembled.StatementReads | lab7/sim/misc/yas.c:381-439 | which written operand becomes rA, rB and the constant of a two-operand instruction |
| Assembled.EncodingDecodes | lab7/sim/misc/isa.c:652-674 | decoding undoes encoding: opcode, function, registers, 64-bit constant and length |
| Assembled.QuadReads | lab7/sim/misc/yas.c:227-243 | a .quad reads back as its value |
| Assembled.MnemonicsMean | lab7/sim/misc/isa.c:62-92 | each conditional mnemonic takes effect in just the order its name says |
| Assembled.AssembledDecodes | lab7/sim/misc/isa.c:194-300 | an instruction line, its listing loaded, is decoded at its position as the instruction written, unless a later line overwrites it |
| Assembled.ListingLoads | lab7/sim/misc/isa.c:194-300 | loading the listing stores exactly the emitted bytes at their addresses, whatever the source text |
| Listing.HexStuff | lab7/sim/misc/yas.c:122-131 | the digit loop writes the hexadecimal digits of the value and nothing else |
| Listing.PrintCode | lab7/sim/misc/yas.c:133-190 | the blank forms, filled in or not, are the listing line in both address widths; it gives up exactly on a line with tokens beyond 0xFFFF |
| Listing.RenderReads | lab7/sim/misc/yas.c:133-190 | every listing line reads back as what was emitted; lines without tokens are skipped |
| Listing.LoadLine | lab7/sim/misc/isa.c:212-270 | the scanner accepts a line exactly when the specification does, and stores its bytes, of a line that does not fit those that do |
| Listing.LoadMem | lab7/sim/misc/isa.c:194-300 | all lines stored and counted, or 0 at the first bad line, with everything before it in memory |
| Hcl.ReadBack | lab7/sim/misc/node.c:479-643 | every emitted expression reads back whole under C precedence wherever it stands |
| Hcl.BitwiseIsBoolean | lab7/sim/misc/node.c:522-539 | on 0 and 1 the bitwise operators are the Boolean ones |
| Hcl.TreeMeans | lab7/sim/misc/node.c:479-643 | the tree read back evaluates to the meaning: first true arm else 0, membership as a chain of equalities |
| Hcl.CompilerCorrect | lab7/sim/misc/node.c:238-315 | for every expression built without an error the tokens emitted for its nodes are one C expression with its meaning |
| HclSets.LinksKept | lab7/sim/misc/node.c:187-196 | gen_expr finds the expression that was written exactly when every case list in a set has one arm, and stands last or has the number 1 as its condition |
| HclSets.NullIsFollowed | lab7/sim/misc/node.c:618-637 | reading nodes as arms follows a null pointer exactly when some node lacks an argument and no closing arm stands in front of it |
| HclSets.EmittedMeans | lab7/sim/misc/node.c:187-315 | for every built expression, if no null pointer is followed, the emitted tokens are one C expression with the meaning of what gen_expr finds |
| HclSets.SharedSet | lab7/sim/misc/node.c:187-196 | for every set: a membership test means what was written exactly when its value is a member of the set as emitted if and only if it is one as written; as emitted a case list gives a member for each arm, and its default is what stands behind it |
| HclSets.ListAtTheEnd | lab7/sim/misc/node.c:187-196 | for one case list at the end of a set the members added are the values of its proper remainders |
| HclSets.SharedExample | lab7/sim/misc/node.c:187-196 | an expression and values for which an added member makes the test succeed |
| HclSets.MisreadExample | lab7/sim/misc/node.c:187-196 | one for which the default is lost, a conjunction behind the case list being read as an arm |
| HclSets.NullExample | lab7/sim/misc/node.c:618-637 | one for which a null pointer is followed |
| Rio.Reader.Refill | lab10/csapp.c:809-818 | interruptions are retried; the end of the file or an error is reported and nothing is lost |
| Rio.Reader.RioRead | lab10/csapp.c:805-830 | between one and n of the next bytes, in order |
| Rio.Reader.ReadNb | lab10/csapp.c:849-864 | n bytes, or what there is before the end of the file; what was taken is in the buffer even when an error is returned |
| Rio.Reader.ReadLineB | lab10/csapp.c:871-893 | a line ends at the first newline, the end of the file, or maxlen-1 bytes; what was taken is in the buffer even when an error is returned, with a terminating zero unless nothing or an error came, and the rest of the buffer stays |
| Rio.CallConserves | lab10/csapp.c:849-893 | one call takes what it delivers off the front of the stream, no byte lost, repeated or moved |
| Rio.Make | lab10/csapp.c:849-893 | a call on a reader answers and leaves what the specification says, its bytes in the buffer also after an error |
| Rio.Perform | lab10/csapp.c:849-893 | any calls on a reader, in any order: what their buffers received, put together, is what the specification delivers and a prefix of the byte stream |
| Rio.CountsAreDelivered | lab10/csapp.c:849-893 | the result of a call is the number of bytes it delivers, except exactly when it still wants more and an error comes next: then it is -1 |
| Rio.DeliveredIsPrefix | lab10/csapp.c:849-893 | the bytes any calls in any order deliver are a prefix of the stream |
| Rio.PiecesDoNotMatter | lab10/csapp.c:809-818 | cutting a piece in two with an interruption between changes nothing a caller sees |
| Rio.SameUpToPieces | lab10/csapp.c:809-818 | two scripts of read() give the same events exactly when one can be turned into the other by cutting and joining pieces, inserting and dropping interruptions, and writing the end of the file either way |
| Transpose.Park | lab8/trans.c:66-83 | the upper right quadrant is parked where the lower left one belongs |
| Transpose.Unpark | lab8/trans.c:84-101 | each parked row goes home while the lower left quadrant takes its place |
| Transpose.ScratchBlock | lab8/trans.c:64-108 | after the three phases the block is transposed and nothing outside it changed |
| Transpose.Blocks | lab8/trans.c:36-108 | for all sides that are multiples of 8 |
| Transpose.Ragged | lab8/trans.c:109-137 | the 61-column case with its short last block |
| Transpose.Partial | lab8/trans.c:138-209 | exactly the first 67 rows are transposed and the rest of B is left alone |
| Transpose.TransposeSubmit | lab8/trans.c:32-219 | B becomes the transpose of A for every matrix, except that 61 by 168 stops at 67 rows |
| Transpose.IsTranspose | lab8/trans.c:263-275 | decides exactly that |

## Left out

- Allocator.Heap: the table of list heads, which the source keeps in the first 128 bytes of the heap, is an array of its own; payload and block addresses are the same as in the source.
- Allocator.Heap.Malloc: `mem_sbrk` takes an `int`. Requests of 2^32 - 15 bytes and more are covered where that conversion does not turn a refusal into a grant (`HonestSbrk` says exactly when it does not, `HugeRequestWraps` shows an input where it does); so are reallocations. The last fifteen size_t values, whose block size wraps (`TopRequestWraps`), are not.
- `lab9/mm.c`, `Test.c`, `temp.c`, `saver.c`: other versions or drafts of the allocator.
- Throughput, utilisation and the libc comparison of the driver; reading trace files.
- Isa.GetWord: in the source `pos + 8` overflows for addresses within 8 of the largest word, which C leaves undefined; the model treats them as not in memory.
- Psim.Simulator: the status field of the program counter register, the stage_pc fields, the GUI, the log and the CPI statistics, none of which any control equation reads.
- PipeRuns.PipelineRefines: covers programs as described above. Self-modifying code within three instructions is not covered, and an iaddq whose function code makes a difference only by `IaddqAgrees`.
- Psim.CheckAgainstIsa: of a run that the limit cuts off before the pipeline stops it says what is compared, not when that agrees; the two simulators have then made different numbers of steps.
- The sequential simulator `seq-full.c`, whose executor is not part of this model, and `lab5/y64sim.c`.
- Csim.Cache: parsing of trace lines and the command line; the clock is bounded by the largest `int`, E is at least 1, since the source writes to line 0 of an empty set otherwise, and shift widths are taken to be within C's limits.
- Yas.Assembler: the lexer, the 4096-byte string buffer and the limit of 1000 labels; a line has at most 12 tokens, because the source's own guard (`yas.c:450`) tests the wrong counter; positions are integers that do not overflow; a line the lexer rejects is not modelled.
- Yas.Assembler.FinishLine: for a line with a bad argument the code bytes that pass 2 may still print are left open; they hold what earlier lines left in the buffer, and the assembler then ends with an error.
- Listing.LoadMem: reading the file with `fgets`, whose strings it is given; addresses are not reduced modulo 2^64; Verilog output and the GUI display.
- Listing.PrintCode: negative positions, which a .pos can give.
- Hcl.Gen: error texts, the Verilog and UCLID outputs, line breaking, and numbers written with leading zeros; C text given for a signal is one opaque operand in parentheses.
- HclSets.EmittedMeans: empty case lists, which are null pointers from the start.
- Rio.Reader: `rio_readn` and `rio_writen`; what `read()` does is a finite script after which it reports the end of the file.
- Transpose.TransposeSubmit: the number of cache misses.
- `lab1/bits.c`, `lab4/tsh.c`, `lab6/y64asm.c`, the proxy and its helpers: fixed expressions, processes and signals, a second assembler, sockets and threads.
