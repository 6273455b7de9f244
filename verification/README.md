# Proofs about PICOBIT for the ESP32

A small Scheme system in two halves: a compiler that turns a program into a hex file of byte codes and
constants, and a virtual machine that loads the file and runs it in a heap of 16-bit addressed cells.
This project models the parts of both that are hard to get right and proves what they are for. Every
statement is for all inputs, heaps, programs or runs, and each operation is stated against a definition
that does not mention how it works.

## The machine

- `Cells`, `Marking`, `Machine` (module `Memory`): the heap and its collector. `mm_mark` reverses
  pointers while it walks; `Marking` has its invariant and one lemma per step, `Memory.Machine.Mark` is
  the loop itself. What it has to achieve is stated with `Cells.Reach`, the cells on paths of links through
  unmarked cells. Sweep, allocation, `pop` and the constructors of cells are methods of the same class;
  `Valid` says that the free list is threaded through the heap, ends in NIL, visits no cell twice and
  holds nothing the roots reach. `Kept` and `RegistersHeld` are the rooting rules for code that moves
  addresses about: as long as registers and fields only receive addresses in a set that links do not
  lead out of, memory stays valid. Every operation demands `Valid` and restores it; `Pop` says exactly
  when it does.
- `Mutator`: whole runs against the allocator. `Step` is what a command means in a memory without limits
  in which no cell is ever used twice; `Run` takes the machine, collections and popped stack cells
  included, through any sequence of commands that obeys the rooting rules. At every point the machine is a
  picture of that ideal memory, from which a program cannot tell it (`SameAnswers`), or it has stopped
  because every cell is live. Every sequence includes the ones in which the next command depends on such
  answers. What reads deliver is stated by the history of a run: the value stored last in that global
  (`GlobalRead`) or in that half of that cell (`FieldRead`).
- `Numbers`, `Arithmetic`, `Bignum`, `BignumDivision`, `BignumProduct`, `NumericPrimitives`: integers of
  any length. `Numbers.Rep` says that an address is the canonical form of an integer. The routines run on
  the machine with its collector: each allocation may collect, and the contracts say that the result is
  right all the same, that everything reachable from the caller's roots is untouched (`Bignum.Intact`), and
  that None, the fatal end, only comes when the heap is full of live cells. Division keeps its 16-bit
  lengths: `NumericPrimitives.DivExact` has the condition under which it divides, `DivTooLong` a case in
  which it does not.
- `Environments`, `Calling`, `FreshCons`: the calling convention. Stacks and environments are the same
  lists of pairs, and a call relinks the one into the other. `Environments.Environment` says what a callee
  is to find; `CallClosure` and `Return` are the two ends of a call, and `Found` has the callee's view in terms of
  the entry byte that the assembler emits. `FreshCons` has the simple forms of both
  loops that the source keeps in comments; they leave the same memory, cell for cell. A wrong number of
  arguments is only reported by the source, so no contract excludes it. What can fail says when: without a
  closure, on a stack that is too short, or when every cell is live (`Memory.Machine.Full`).
- `StackOnHeap`: the stack machine for which the compiler is proved correct (`Execution`), on the interpreter's
  heap. `Holds` says when registers and memory have the data of that machine; calls, tail calls, returns and
  pushes of the interpreter keep it.
- `ProcessRing`: the cooperative scheduler's circular list, its refinement of a queue, when a waiting or a
  yielding process has its turn, and that no process is lost or doubled.

## The compiler

- `Source`, `CodeGen`, `CodeShape`, `Execution`, `Correctness`, `Lawfulness`: code generation.
  `Source.Eval` is the meaning of an expression, with closures, globals and calls, within a number of
  nested calls; `CodeGen` is the code generator with its compile-time stack; `Execution` the stack machine
  of basic blocks, which halts at (#%halt). `Correctness.CompRuns` relates them for every expression.
- `Blocks`, `TreeShaker`, `Renumbering`, `Reordering`, `Scheduling`, `Linearizer` (module `Linearizing`),
  `Backend`: basic blocks and linear code. The machines of `Blocks` leave the data open: a `World` is any
  semantics of the instructions, and says which of them end a run. `Backend.EndToEnd` says that shaking,
  reordering and linearizing keep what programs compute.
- `Renaming`, `Pipeline`: the two together. `Renaming.MachineAlike` shows that the stack machine does not
  look at the names of labels, so `Pipeline.SourceToLinear` can follow a program from its expressions through
  all stages to the (#%halt) of its linear code. Primitives are parameters: they have to treat related
  values alike, to make no closures of their own, and not to look at code labels; `Renaming.ListPrimitives`
  has some that do.
- `Relaxation`, `Assembler` (module `Assembling`): branch relaxation. `Relaxation` has the rounds as
  functions, and the interpreter's decoder; `Assembling.Assembler` is the assembler with its label and
  size fields. The assembler can go wrong behind the last label: items there are checked at positions
  that do not count the sizes of other new items. `ReachesIff` has the exact condition, the check of the
  chosen form repeated at its final position; `AllReach` shows that it always holds up to the second
  deferred item behind the last label; `LateCall` is a program that fails.
- `Constants`: constants from the compiler's objects to the ROM cells the machine reads, and the
  instruction that pushes them.
- `HexRecords`, `HexFiles`, `HexVariants`: the hex file, written and read back, the changes the reader
  notices, and files that the writer does not make. Lost records are noticed (`LostRecords`), but a file that
  is cut before the newline of a data record is accepted (`CutAccepted`): the end record is only missed
  when a line is still to be read.
- `Loading`: the way from one half to the other, from constants, globals and code through the hex file to a
  machine that has them.

`Wrappers` has options, bytes and the reversal of sequences.

## Where code and documentation differ

- `prepare_arguments` calls a wrong number of arguments an error; the error is a message of debugging builds,
  and the code goes on. So does the model.
- `build_environment` keeps a simple loop in a comment, which pops values and conses; the code relinks the
  stack's own cells. Both are here, and they agree.
- The compiler lets 257 constants pass, while their number is stored in a byte. `Constants.CodeStartIff`
  has the number of constants for which the machine finds the code, `CodeMissed` programs for which it does not.

## Model

| member | source | states |
|---|---|---|
| Cells.ReachClosed | main/mm.c:75-97 | reachability through unmarked cells contains the roots and is closed under the links that the three cell shapes expose |
| Cells.ReachLeast | main/mm.c:75-97 | and is the least such set, so exact marking has something to be exact about |
| Cells.ReachFrame | main/mm.c:75-97 | changing cells that cannot be reached changes nothing that can be reached |
| Marking.Start | main/mm.c:99-106 | the marker's invariant holds on entry, for any heap with flip bits clear |
| Marking.Push | main/mm.c:108-121 | going down a left link, with the link turned round to the parent, keeps the invariant and marks one more cell |
| Marking.Visit | main/mm.c:108-121 | so does marking a cell without links |
| Marking.Leave | main/mm.c:123-146 | going back up restores the link that was turned, left or right, exactly |
| Marking.Turn | main/mm.c:130-141 | switching a cell from its left to its right link moves the parent over and sets the flip bit |
| Marking.Finish | main/mm.c:99-151 | when the path is empty every car, cdr and type is as on entry, every flip bit clear, and the newly marked cells are exactly those reachable from the root through unmarked cells |
| Marking.MarkMore | main/mm.c:241-262 | marking root after root marks exactly what is reachable from all of them |
| Memory.FreePush | main/mm.c:234-239 | a cell put back becomes the head of the free list, which stays NIL-terminated and without duplicates |
| Memory.FreeTake | main/mm.c:375-393 | a cell taken leaves a list with the same properties |
| Memory.SweepKeeps | main/mm.c:176-220 | sweeping over a marked cell clears its mark and nothing else |
| Memory.SweepFrees | main/mm.c:176-220 | sweeping over an unmarked cell puts it in front of the list, whatever its type |
| Memory.WriteDead | main/mm.c:375-393 | writing to a cell that nothing reaches cannot be noticed |
| Memory.WriteLive | main/include/vm-arch.h:628-641 | a field of a live cell may be given any address of the live set: the free list stays intact and the set closed |
| Memory.PopIff | main/vm-arch.c:13-46 | giving a cell back is safe exactly if nothing leads to it |
| Memory.AfterSweep | main/mm.c:241-286 | marking and sweeping leave on the free list exactly the cells that were not reachable, ascending, and used plus free cells are the heap |
| Memory.Machine.constructor | main/mm.c:395-481 | everything above the globals is free, the globals are NIL, the registers and bignum roots are NIL |
| Memory.Machine.CheckFreeList | main/mm.c:222-232 | the answer is whether the free list has exactly the cells that are not globals |
| Memory.Machine.KeptLive | main/include/vm-arch.h:628-641 | in a valid machine the live cells form a set that links do not lead out of, with no free cell in it and every register pointing into it |
| Memory.Machine.KeptValid | main/include/vm-arch.h:628-641 | conversely any such set keeps the machine valid, whatever registers have been moved: the golden rules for primitives |
| Memory.Machine.KeptMore | main/include/vm-arch.h:628-641 | a newly allocated cell that leads into the set may join it |
| Memory.Machine.SetCar | main/include/vm-arch.h:520-521 | a field write that obeys the rooting rule changes that field only and keeps the set |
| Memory.Machine.SetCdr | main/include/vm-arch.h:520-521 | likewise for the other field |
| Memory.Machine.Mark | main/mm.c:99-151 | for any graph, cycles and sharing included: terminates (lexicographic measure over unmarked cells, path length and unflipped path cells), and ends as Marking.Finish says |
| Memory.Machine.Sweep | main/mm.c:176-220 | the free list is rebuilt from exactly the unmarked cells above the globals; marks are clear; marked cells are untouched |
| Memory.Machine.Gc | main/mm.c:241-286 | the free list is exactly what the roots do not reach, ascending; reachable contents are unchanged; used and free cells add up to the heap; the machine is valid again |
| Memory.Machine.NewRamCell | main/mm.c:375-393 | collects when the list is empty, and otherwise just takes its first cell; the cell is fresh: neither live nor free; None only if every cell is live |
| Memory.Machine.NewPair | main/vm-arch.c:61-70 | every live cell is as it was, and the new one holds the two fields and is neither live nor free; with a free cell at hand it is that cell and nothing else changes |
| Memory.Machine.NewBignum | main/vm-arch.c:107-116 | likewise for a digit cell |
| Memory.Machine.NewClosure | main/vm-arch.c:48-59 | likewise for a closure |
| Memory.Machine.NewCont | main/vm-arch.c:72-84 | likewise for a continuation |
| Memory.Machine.ReturnToFreeList | main/mm.c:234-239 | the cell becomes an empty pair at the head of the free list |
| Memory.Machine.Pop | main/vm-arch.c:13-46 | the value and the rest of the stack, the cell at the head of the free list; memory stays valid if and only if nothing but the stack led to the cell |
| Mutator.SameAnswers | main/include/vm-arch.h:628-641 | eq tests, types, and the values of registers are the same in the machine and in an ideal memory that never reuses a cell |
| Mutator.OnlyOnStack | main/vm-arch.c:13-46 | a stack cell to which only the stack register refers may be popped |
| Mutator.RepresentsValid | main/mm.c:375-393 | the free list is disjoint from everything the program can get at, and so from everything the roots reach |
| Mutator.LiveOnly | main/mm.c:241-286 | the machine needs to keep no more than what its roots reach |
| Mutator.Without | main/vm-arch.c:13-46 | nor a cell that the program has no further way to |
| Mutator.Make | main/vm-arch.c:48-116 | an address that nothing pictured has is as good as a new cell |
| Mutator.Gather | main/mm.c:241-286 | a collection at any point of a run cannot be noticed |
| Mutator.PopStack | main/vm-arch.c:13-46 | popping and giving the cell straight back has the effect of moving the stack register |
| Mutator.Execute | main/mm.c:375-393 | each command does what it does in ideal memory, or stops with the same state when every cell is live |
| Mutator.Run | main/mm.c:234-393 | over every run of allocations, loads, field writes, register moves, pops and collections that obeys the rooting rules: the machine stays valid and goes through exactly the states of ideal memory |
| Mutator.Boot | main/mm.c:395-481 | a machine as initialized is where such runs begin |
| Mutator.GlobalRead | main/include/vm-arch.h:615-616 | after any run that obeys the rules, reading global k delivers the value of the run's last write to global k, NIL if it had none: writes to other globals, in the other half of the same cell included, and to other cells do not disturb it |
| Mutator.GlobalOnMachine | main/interpreter.c:197-203 | and so it does in a machine that represents the end of such a run |
| Mutator.FieldRead | main/include/vm-arch.h:520-521 | reading a field of a cell delivers what the run put there last, when the cell was made or by a write through whichever register |
| Mutator.Delivered | main/include/vm-arch.h:628-641 | a command changes no register but its own, and a pop the stack register; a new cell is one that no register led to |
| Numbers.RepUnique | main/bignum.c:80-109 | an address is the canonical form of one integer only |
| Numbers.RepParts | main/bignum.c:45-78 | low digit and rest of any integer, small or not, and pointer tests against ZERO and NEG1 are value tests |
| Numbers.RepFrame | main/bignum.c:9-43 | a number depends on the cells of its chain only |
| Bignum.PushDigit | main/bignum.c:371-413 | a collection inside the allocation keeps the partial result in bignum_tmp1 and everything else that is reachable |
| Bignum.Norm | main/bignum.c:80-109 | value digits plus 2^(16k) times n; canonical if n was; only prefix cells are written, so shared tails are untouched |
| Bignum.Close | main/bignum.c:403-412 | the common end of the routines: a canonical result, the root cleared, everything reachable as it was |
| Bignum.AddDigits | main/bignum.c:371-413 | wrap-around addition of two digits and a carry, its new carry, and the measure that falls although operands are sign-extended for ever |
| Bignum.Add | main/bignum.c:371-413 | for all signed operands of any length: the canonical exact sum, with a collection possible at every allocation |
| Bignum.SubDigits | main/bignum.c:415-456 | the same for x + ~y + 1 |
| Bignum.Sub | main/bignum.c:415-456 | the canonical exact difference, under collection |
| Bignum.Shr | main/bignum.c:150-181 | floor(x / 2), under collection |
| Bignum.Shl | main/bignum.c:183-224 | 2x, under collection |
| Bignum.ScaleDigit | main/bignum.c:262-318 | the 32-bit intermediate does not overflow and the carry stays below the multiplier |
| Bignum.Scale | main/bignum.c:262-318 | n times x for a digit n and any signed x, under collection; a negative tail lands on one digit above -1 |
| Bignum.NegP | main/bignum.c:111-124 | negative exactly if the value is |
| Bignum.Cmp | main/bignum.c:320-369 | the order of the values |
| Bignum.IntegerLength | main/bignum.c:126-148 | the bit length, modulo 2^16 like the counter |
| BignumDivision.ShiftLeft | main/bignum.c:226-250 | x times 2^n, by whole digits and then by bits, under collection |
| BignumDivision.DivideRound | main/bignum.c:489-524 | one round of shift-subtract on quotient, remainder and divisor, with all three rooted |
| BignumDivision.DivNonNeg | main/bignum.c:489-524 | the result for every pair of non-negative operands, zero divisor and over-long operands included, under collection |
| Arithmetic.DivisionRound | main/bignum.c:489-524 | the shift-subtract invariant with the divisor at any shift |
| Arithmetic.DivisionEnd | main/bignum.c:489-524 | what the loop has computed when it ends, for any starting shift |
| BignumProduct.ListApart | main/bignum.c:458-487 | the digits done so far stay out of reach of everything but bignum_tmp3 |
| BignumProduct.MulNonNeg | main/bignum.c:458-487 | the canonical exact product of x >= 0 and any signed y, under collection |
| NumericPrimitives.DivExact | main/bignum.c:126-148 | the division is floor(x / y) if and only if the bit length of x has no more 65536s in it than that of y |
| NumericPrimitives.DivShort | main/bignum.c:489-524 | so it is exact for all bit lengths below 65536 |
| NumericPrimitives.DivTooLong | main/bignum.c:126-148 | and wrong for 2^65535 divided by one: the 16-bit length wraps to zero |
| NumericPrimitives.DivByZero | main/primitives-numeric.c:77-96 | the value a reported division by zero carries on with |
| NumericPrimitives.RemNonNeg | main/primitives-numeric.c:98-121 | x - y * (x / y), from three bignum operations with everything needed in registers, under collection |
| NumericPrimitives.RemainderExact | main/primitives-numeric.c:98-121 | it is the remainder, in [0, y), exactly under the same condition |
| NumericPrimitives.QuotientTruncates | compiler/library.scm:55-67 | signed quotient leaves a remainder smaller than the divisor and with the dividend's sign (section 6.2.5 of R5RS) |
| Environments.ChainUnique | main/interpreter.c:20-32 | a chain of pairs is determined by its first cell |
| Environments.ChainDistinct | main/interpreter.c:20-32 | no cell is on a stack twice |
| Environments.Relink | main/interpreter.c:117-141 | one cell moved from the stack to the environment, and the rest of both chains as before |
| Environments.BuildsEnvironment | main/interpreter.c:51-141 | prepare_arguments and build_environment together: arguments in order, then the rest list in order, then the closure's environment |
| Environments.EnvironmentKept | main/interpreter.c:110-115 | the environment survives a collection in save_cont |
| Environments.EntryByteLeaves | main/interpreter.c:85-108 | for the byte the assembler emits for f parameters and a rest parameter, -(f + 1) modulo 256, min(n, f) arguments stay outside the rest list; for a byte below 0x80 all do |
| Environments.EntryByteFound | compiler/assembler.rkt:446-447 | so the environment of a call is the one that this byte promises, in terms of f alone |
| Calling.Interpreter.Tos | main/interpreter.c:14-32 | the top cell, taken off; None for the fatal end on an empty stack |
| Calling.Interpreter.BuildEnvironment | main/interpreter.c:117-148 | succeeds exactly if the stack has n cells; they are relinked in reverse in front of reg1, nothing else changes, the stack below is intact, memory stays valid |
| Calling.Interpreter.CollectRest | main/interpreter.c:89-101 | the loop that turns surplus arguments into the rest list, in order |
| Calling.Interpreter.PrepareArguments | main/interpreter.c:51-108 | for every closure and argument count: entry point, closure environment, and with a rest parameter the list of the surplus arguments in the cell that held the closure; what stays on the stack is stated with the entry byte: all n arguments below 0x80, min(n, f) of them for the complement of f |
| Calling.Interpreter.SaveCont | main/interpreter.c:110-115 | a continuation that keeps stack, return address and parent; what the other registers reach is unchanged, under collection; it fails only when memory is full of live cells |
| Calling.Interpreter.CallClosure | main/interpreter.c:211-220 | the whole call: the callee environment that the entry byte promises (Environments.Found: min(n, f) arguments and the list of the others for the complement of f), continuation, the caller's stack below the arguments intact, and everything else that the program still has; it fails only without a closure on top, with too short a stack, or when memory is full of live cells |
| Calling.Interpreter.BuildCall | main/interpreter.c:51-148 | prepare_arguments and build_environment in a row: environment in reg1, and no other cell changed; it succeeds exactly with a closure and n arguments on the stack |
| Calling.Interpreter.JumpClosure | main/interpreter.c:222-230 | a tail call: the same environment, the caller's continuation, and no memory needed |
| Calling.Interpreter.CallToplevel | main/interpreter.c:266-280 | the same for a top-level procedure |
| Calling.Interpreter.PushResult | main/interpreter.c:197-203 | a result is pushed on an otherwise unchanged stack; it fails only when memory is full of live cells |
| Calling.Interpreter.Return | main/primitives-control.c:12-25 | the caller goes on where it was, on its own stack plus the result; it never fails, as it needs one cell and has freed one |
| FreshCons.BuildFresh | main/interpreter.c:134-141 | the commented simple form of build_environment (pop and cons) leaves memory, stack and environment as the relinking form does, and needs no memory |
| FreshCons.CollectFresh | main/interpreter.c:89-101 | the commented form of the loop for surplus arguments has the contract of the relinking one |
| FreshCons.PopAndPair | main/vm-arch.c:13-70 | a pop and a new pair in a row give the popped cell back with a new link, and no collection comes between them |
| FreshCons.BuiltUnique | main/interpreter.c:89-141 | that contract fixes memory cell for cell, so both forms of each loop end in the same memory |
| StackOnHeap.StandsKept | main/mm.c:241-286 | a word stands for the same value as long as the cells it leads to stay |
| StackOnHeap.CalleeListed | main/interpreter.c:51-148 | the callee's environment lists exactly the stack that the stack machine gives the callee: arguments, then closed-over values |
| StackOnHeap.Call | main/interpreter.c:211-220 | the interpreter's call of a closure is the stack machine's: stack, saved stacks, return addresses and globals hold the same data after it, under relinking and collection |
| StackOnHeap.Jump | main/interpreter.c:222-230 | likewise for the tail call |
| StackOnHeap.Return | main/primitives-control.c:12-25 | likewise for the return, which goes on at the return address |
| StackOnHeap.Push | main/interpreter.c:197-203 | likewise for pushing a value |
| ProcessRing.Ring.constructor | compiler/library.scm:198-205 | the first process alone in a ring of one slot |
| ProcessRing.Ring.Spawn | compiler/library.scm:207-214 | the spawning process goes to the front of the queue |
| ProcessRing.Ring.Exit | compiler/library.scm:216-225 | the head of the queue is resumed in the slot of the process that ends, or nothing if the queue is empty |
| ProcessRing.Ring.Yield | compiler/library.scm:227-237 | the head of the queue is resumed and the yielding process goes to its end |
| ProcessRing.Place | compiler/library.scm:195-236 | over every run, a waiting process at position i is found at i plus spawns minus hand-offs |
| ProcessRing.Turn | compiler/library.scm:216-237 | and is resumed by the hand-off that makes the hand-offs equal to i plus the spawns |
| ProcessRing.NotBefore | compiler/library.scm:216-237 | and by none before it |
| ProcessRing.StaysOnce | compiler/library.scm:195-236 | a suspended continuation is in the queue once |
| ProcessRing.Conserved | compiler/library.scm:195-237 | over every run: who waited at the start or was suspended since either waits at the end or has been resumed, as many times |
| ProcessRing.LeavesContinued | compiler/library.scm:216-237 | a process leaves the queue only by being resumed |
| ProcessRing.WaitsOnce | compiler/library.scm:207-237 | a process that has been suspended, by spawn or yield, is in the queue exactly once until it is resumed |
| ProcessRing.YieldTurn | compiler/library.scm:227-237 | with q others waiting, a process that yields is resumed by the hand-off that makes the hand-offs, its own included, q + 1 more than the spawns |
| ProcessRing.YieldNotBefore | compiler/library.scm:227-237 | and by none before it |
| TreeShaker.Visit | compiler/tree-shaker.rkt:11-31 | depth-first counting terminates and explores everything a visited block refers to |
| TreeShaker.RefCounts | compiler/tree-shaker.rkt:11-31 | a count is positive exactly for the blocks that every closed set with the entry block contains |
| TreeShaker.RemoveUselessBlocks | compiler/tree-shaker.rkt:94-103 | exactly those blocks stay, in order, the entry block first |
| Renumbering.RenumberLabels | compiler/back-end.rkt:11-30 | each block goes to the place of its name, with every label in it replaced by the name of the block, later blocks over earlier ones |
| Renumbering.SameStep | compiler/back-end.rkt:11-30 | a step before renumbering is a step after it, on any machine for which labels are only names (Renaming.MachineAlike) |
| Renumbering.SameRun | compiler/back-end.rkt:11-30 | and so are whole runs, to the same end |
| Reordering.ScheduleHere | compiler/scheduling.rkt:25-46 | names a chain of blocks without gaps, each in front of the block it falls into unless that one has a name already, a test in front of its block for true if it can (Reordering.FallsInto); everything a named block refers to is named or on the list |
| Reordering.ScheduleTodo | compiler/scheduling.rkt:48-55 | until the list is empty |
| Reordering.Reorder | compiler/scheduling.rkt:14-61 | for any blocks: which names reached blocks get, the entry block 0, chains of blocks that fall into each other in a row, and which block is at each of their places in the end; the new labels permute the old ones if all blocks are needed |
| Reordering.Displaced | compiler/scheduling.rkt:57-61 | a block that is not reached can take the place of one that is: why shaking comes first |
| Linearizing.Linearizer.Get | compiler/scheduling.rkt:77-100 | the next label to lay out, or none when all needed blocks are out |
| Linearizing.Linearizer.DumpInstr | compiler/scheduling.rkt:126-131 | an instruction is emitted and the labels it needs are listed |
| Linearizing.Linearizer.EmitBranch | compiler/scheduling.rkt:138-151 | a conditional jump becomes the plain, the inverted or the two-jump form |
| Linearizing.Linearizer.DumpJump | compiler/scheduling.rkt:132-159 | a goto is left out only if its target comes next |
| Linearizing.Linearizer.Dump | compiler/scheduling.rkt:113-160 | every listed block is laid out |
| Linearizing.Linearize | compiler/scheduling.rkt:162-168 | every block reachable from block 0, and no other, is laid out at one place, and block 0 first |
| Scheduling.Simulate | compiler/scheduling.rkt:122-160 | one step of the blocks is one to three steps of the linear code |
| Scheduling.SameResult | compiler/scheduling.rkt:122-168 | a program that ends, by #%halt or a return without a caller, ends with the same data in both forms; one that never gets stuck ends in both or in neither |
| Scheduling.EndsOnce | compiler/scheduling.rkt:122-168 | a run that ends is never stuck and has one result |
| Linearizing.Linearized | compiler/scheduling.rkt:162-168 | in particular from the entry block on |
| Backend.RenumberedTwice | compiler/scheduling.rkt:8-9 | shaking and then reordering is one renaming of the needed blocks |
| Backend.Compile | compiler/picobit.rkt:41-41 | shaking, reordering and linearizing fit together, with no precondition but well-formed blocks |
| Backend.EndToEnd | compiler/picobit.rkt:41-41 | for any semantics of the instructions that does not look at labels: blocks before shaking and linear code after it give the same results, and programs that never get stuck end together or not at all |
| Relaxation.Settle | compiler/asm.rkt:233-241 | the first form that passes its check; the ones skipped did not |
| Relaxation.LeftShrinks | compiler/asm.rkt:217-261 | why the rounds come to an end |
| Relaxation.RelaxEnds | compiler/asm.rkt:242-261 | what holds when no label has moved: sizes grew, labels did not |
| Relaxation.CheckedInPlace | compiler/asm.rkt:217-261 | an item before the last label, or first after it, was checked at its final position |
| Relaxation.FormDecodes | main/interpreter.c:232-385 | the interpreter goes where the assembler meant if the form passes its check where it is produced, and only then, short of addresses that wrap |
| Relaxation.ReachesIff | compiler/assembler.rkt:159-208 | for any program: an instruction whose form still fits at its final position reaches its label's final position, and no other does |
| Relaxation.AllReach | compiler/asm.rkt:217-293 | so every instruction up to the second deferred one after the last label's position reaches its label |
| Relaxation.LateCall | compiler/asm.rkt:217-293 | a program of 134 bytes, header included, whose last call goes to 260 instead of 4 |
| Relaxation.RawPlaced | compiler/asm.rkt:263-293 | for every stream: each plain byte is in the program at its item's place; labels take no room, deferred items one to three bytes, and the places cover the program |
| Relaxation.NothingElse | compiler/asm.rkt:263-293 | and every byte of the program is a plain byte of the stream or belongs to a deferred item |
| Assembling.Assembler.Pass1 | compiler/asm.rkt:460-477 | fixups and first label positions, with deferred items of size 0 |
| Assembling.Assembler.ChooseForms | compiler/asm.rkt:221-241 | forms are dropped for good, each checked where its item stood with the old sizes |
| Assembling.Assembler.MoveLabels | compiler/asm.rkt:242-261 | labels move to where the new sizes put them; the answer is whether any did |
| Assembling.Assembler.Emit | compiler/asm.rkt:263-293 | the bytes; the inconsistency error does not occur |
| Assembling.Assembler.Assemble | compiler/asm.rkt:217-293 | terminates; the code is the relaxed program; every label has its place |
| HexRecords.ReadRaw | main/hexfile.c:64-104 | what the reader does with a record, by its bytes: checked, stored byte after byte at 16-bit addresses, skipped or ended |
| HexRecords.RoundTrip | compiler/asm.rkt:376-439 | for every stream shorter than 65536 that fits the buffer: its bytes, max_addr its length, accepted exactly if it starts with D7 FB (data and end-of-file records of the Intel Hexadecimal Object File Format Specification, Rev. A 1988) |
| HexRecords.ChangeRejected | main/hexfile.c:64-104 | a file with any one byte of any record changed, except a count, is rejected |
| HexRecords.CountChange | main/hexfile.c:64-104 | a changed count passes the checks if and only if it is smaller and what it cuts off, with the difference, sums to zero |
| HexRecords.ChunkAt | compiler/asm.rkt:413-439 | data record j has the 16 bytes from 16 j on, only the last one may have fewer, and there is no other |
| HexVariants.LostRecords | main/hexfile.c:46-117 | a written file without its end record, or without any number of records at its end, is refused |
| HexVariants.NewlineEnds | main/hexfile.c:65-69 | but a last line without its newline is read as if an end record followed |
| HexVariants.CutAccepted | main/hexfile.c:65-69 | so a written file that is cut right before the newline of a data record is accepted with the code up to there |
| HexVariants.CaseFree | main/hexfile.c:15-21 | in any file the case of hex digits does not matter |
| HexVariants.Ignored | main/hexfile.c:71-72 | a line that does not start a record is passed over |
| HexFiles.WriteHex | compiler/asm.rkt:376-439 | records of at most 16 bytes split at multiples of 16, the first one empty, and an end record |
| HexFiles.Reader.ReadRecord | main/hexfile.c:59-104 | one line, with its effect on buffer, max_addr and the two flags, a record that does not fit included |
| HexFiles.Reader.ReadHexFile | main/hexfile.c:46-117 | the whole reader, missing end record and unreadable line included |
| Constants.AddedComplete | compiler/assembler.rkt:70-120 | whatever a collected object is made of can be encoded too, and nothing is collected twice |
| Constants.CollectedComplete | compiler/assembler.rkt:396-418 | so everything the code refers to can be encoded |
| Constants.Sorts | compiler/assembler.rkt:130-141 | sorting is by falling count and loses nothing |
| Constants.CountsReferences | compiler/assembler.rkt:76-91 | the count of an object is the number of references to it in the code: references from other constants do not count |
| Constants.ByReferences | compiler/assembler.rkt:130-141 | so constants are encoded by falling number of references in the code |
| Constants.SortStable | compiler/assembler.rkt:130-141 | and those with equal numbers in the order they came in |
| Constants.ConstantAt | compiler/assembler.rkt:303-357 | what the machine finds at the address of constant i |
| Constants.ReadBack | compiler/assembler.rkt:280-356 | reading from an encoded address rebuilds the object, however nested; integers have the form that norm maintains |
| Constants.DenotesOne | main/include/vm-arch.h:480-521 | and an address stands for one object only, up to characters being integers and vectors lists |
| Constants.ConstantsReadBack | compiler/assembler.rkt:396-440 | from the objects in the code to the machine's memory |
| Constants.AssemblesIff | compiler/assembler.rkt:130-141 | assembling succeeds if and only if no object has an empty vector in it and there are at most 257 constants |
| Constants.CodeStartIff | main/interpreter.c:157-157 | the machine finds the code behind the constants if and only if there are at most 255 |
| Constants.CodeMissed | compiler/assembler.rkt:130-141 | programs with 256 and 257 constants that the compiler lets pass, and the wrong address at which the machine starts them |
| Constants.PushedRight | compiler/assembler.rkt:210-217 | the push instruction, one byte or two, makes the machine push the address the image uses |
| Loading.Header | compiler/assembler.rkt:430-433 | the four bytes in front of an image: the mark D7 FB, the number of constants, the number of globals |
| Loading.FileAccepted | main/hexfile.c:46-117 | what the writer makes of any image with code behind it is accepted and read to the start of the buffer |
| Loading.MmInit | main/mm.c:395-481 | a machine exactly if the mark is there and the heap is small enough: half as many reserved cells as byte 3 says, rounded up, all NIL, and every other cell free |
| Loading.Load | main/main.c:28-30 | from the compiler's constants, globals and code through image, hex file and reader to a machine: every constant is what it was, each global is in a reserved cell, and the code is where the interpreter starts |
| CodeGen.PushEffect | compiler/code-gen.rkt:9-15 | an instruction that pushes one value adds one anonymous slot to the compile-time stack |
| CodeGen.PopEffect | compiler/code-gen.rkt:9-15 | one that takes n values and pushes one, or none, undoes n pushes |
| CodeGen.CompPush | compiler/comp.rkt:46-71 | total on scoped expressions; one slot more on the compile-time stack on every path, closed-over variables as before |
| CodeGen.CompNone | compiler/comp.rkt:8-31 | likewise, with the compile-time environment unchanged |
| CodeGen.CompIf | compiler/comp.rkt:73-117 | both arms leave the same compile-time stack, as their use requires |
| CodeGen.CompCall | compiler/comp.rkt:181-232 | likewise for calls in the three positions |
| CodeShape.InstrBack | compiler/ir.rkt:53-65 | code that is in a program stays where it is while more is generated |
| CodeShape.CompStep | compiler/comp.rkt:8-248 | the code of every expression only adds blocks, makes and uses each new label once, and leaves every finished block with exactly one jump, at its end, to labels that exist |
| CodeShape.CompleteCode | compiler/back-end.rkt:34-40 | so the finished code has one block for every label |
| CodeShape.CodeToVector | compiler/back-end.rkt:34-40 | block l of the vector is the block named l, and the program has all the code in it |
| CodeShape.ProgramWellFormed | compiler/parser.rkt:10-10 | the blocks of a program that ends in (#%halt) are well formed, as the back end requires |
| Execution.MatchesPushed | compiler/ir.rkt:67-90 | a pushed value leaves run-time stack and compile-time stack in agreement |
| Execution.VariableAt | compiler/ir.rkt:108-111 | the compile-time position of a variable, local or closed over, is where its value is at run time |
| Correctness.CompRuns | compiler/comp.rkt:8-248 | the main theorem: for every scoped expression, environment and use of the value, if evaluation gives a result then the generated code, wherever it is in a program, computes it: comp-push leaves it on an otherwise unchanged stack, comp-none leaves the stack unchanged, comp-tail returns it to the caller; globals agree |
| Correctness.TestRuns | compiler/comp.rkt:234-248 | a test reaches the block for true or the one for false as the value demands |
| Correctness.IfJoinRuns | compiler/comp.rkt:76-104 | a conditional whose arms come together again |
| Correctness.ArgsRuns | compiler/comp.rkt:183-189 | arguments are evaluated from the left and end up on the stack |
| Correctness.PrcRuns | compiler/comp.rkt:138-173 | a lambda leaves a closure of its entry label and the values of its free variables |
| Correctness.BodyRuns | compiler/comp.rkt:162-179 | a called closure finds its arguments and closed-over values where its code expects them, and returns its value to its caller |
| Correctness.TailCallEnters | compiler/comp.rkt:230-230 | the callee of a tail call starts with the continuations and the saved stacks that its caller started with, so loops of tail calls take no space |
| Correctness.ProgramRuns | compiler/picobit.rkt:36-41 | a whole program gets to its (#%halt), from empty stack to empty stack and without a caller, with globals that hold what it means |
| Lawfulness.MachineLawful | compiler/scheduling.rkt:122-160 | the machine that generated code runs on satisfies what the back end's theorems ask of instructions |
| Renaming.RenamedCodes | compiler/back-end.rkt:11-30 | the labels of a renamed value are the renamed labels, however deep in closures |
| Renaming.RenameExec | compiler/back-end.rkt:11-30 | a renumbered instruction does to renamed data what the instruction does to the data |
| Renaming.MachineAlike | compiler/back-end.rkt:11-30 | so for the machine that generated code runs on, shaking and reordering are only a renaming |
| Renaming.ListPrimitives | compiler/scheduling.rkt:122-160 | the conditions on primitives can be met: cons, car, pair? and eq? of constants meet them |
| Pipeline.Compile | compiler/picobit.rkt:36-41 | code generation, vector, tree shaking, reordering and linearizing fit together on every scoped program |
| Pipeline.SourceToLinear | compiler/picobit.rkt:36-41 | from expressions to linear code: if evaluation gives a result, the linear code gets to its (#%halt) with an empty stack, ends there and nowhere else, and every global has the value of evaluation, labels in closures renamed |
| Pipeline.ProgramEnds | compiler/picobit.rkt:36-41 | such a program never gets stuck as blocks and ends with one result, so Backend.EndToEnd speaks about it |
| Pipeline.HaltReached | compiler/picobit.rkt:41-41 | wherever the blocks get, the linear code gets, through shaking, reordering and linearizing |
| Pipeline.BlocksToLinear | compiler/picobit.rkt:41-41 | for every compiled program, whatever it does: its blocks and its linear code give the same results, and it ends in both forms or in neither if it never gets stuck |

## Left out

- Vectors of bytes: `mm_compact_vector_space` and the vector heap are not modelled; a vector cell is a cell without links.
- Bitwise operations of `main/bignum.c` are not modelled: two terminal branches of inclusive or return the wrong operand, and the others would add easy members.
- `decode_int` and `encode_int` are not modelled; they agree on a small finite range only.
- Bignum.Add: ROM digits of an operand are taken to lead to ROM or small integers only, as `Constants.ConstantAt` shows of assembled ones.
- BignumDivision.DivNonNeg: the report of a division by zero is left out, the value the code goes on with is there.
- Memory.Machine.NewRamCell: the fatal end on exhausted memory is the result None, and so in everything that allocates.
- Memory.Machine.Gc: user flag bits, time and call statistics and the marking of vector storage are not modelled.
- Calling.Interpreter.PrepareArguments: the FATAL exits (empty stack, or no closure in RAM on top of it) are the result None, and code in debugging builds that only prints is left out.
- Mutator.Run: the bignum routines, the calls and the vectors of bytes are not among the commands; the contracts of `Bignum` and `Calling` speak about collections inside them.
- Calling.Interpreter.Return: assumes, like the code, that a continuation is resumed once; `pop` and `tos` reuse stack cells.
- HexFiles.Reader.ReadHexFile: a record that does not fit is stored as far as the buffer goes and then rejected; what the code writes outside of the buffer is not part of the model.
- Loading.Load: the code is any sequence of bytes, and constants and globals are given; the vector heap and the other tables that `mm_init` allocates are not modelled.
- HexFiles.WriteHex: programs start at address 0 (`compiler/gen.config.rkt`), so no extended address record is written.
- Relaxation.ReachesIff: the direction from reaching to fitting is stated for programs of at most 0xff00 bytes; beyond that a 16-bit address can wrap round to its label.
- Constants.ReadBack: symbols, byte vectors and the parser's datum types are not modelled; the descriptors that `add-constant` updates in place are values, so sharing of a descriptor is not captured.
- Assembling.Assembler.Assemble: alignment, origins, listings and floating point output are not modelled; every label used has been set once, which the source enforces with errors.
- Linearizing.Linearizer.Dump: the list of labels to lay out is a sequence, where the source has mutable pairs.
- `tighten-jump-cascades!` is taken to do nothing: its loop ranges over integers instead of blocks (`compiler/tree-shaker.rkt:46`).
- Backend.EndToEnd: first-class continuations are not part of the block machine.
- Correctness.CompRuns: rest parameters, top-level procedures called by label (`needs-closure?`), unneeded globals that are not stored and constant-folded globals are not modelled; an evaluation that gives no result, one that gets to a `#%halt` before the program's own included, is not spoken about.
- StackOnHeap.Call: for procedures without a rest parameter, with the cells of the arguments reached from the stack only, as the code relies on; the other instructions and the primitives are not related to cells.
- CodeGen.CompPush: contexts are values as in the source; the entry label stored in the syntax tree is left out.
- ProcessRing.Ring.Spawn: the continuations themselves are opaque values, and memory exhaustion is not modelled.
- Globals with an index above 15: the assembler emits 0x8e and 0x8f (`compiler/assembler.rkt:230`) where the machine expects 0xbe and 0xbf (`main/include/vm-arch.h:461`).
- The front end (parser, reader, optimizations on the syntax tree), primitives on lists, strings and the computer, the terminal, printing, tracing, command line and start-up of the device are left out.
