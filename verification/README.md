# wasm3: the one-pass compiler and its machine

wasm3 compiles WebAssembly in one pass over the bytes of a function. While it walks the stack code it tracks where each
operand lives: in a local's home slot, in a shared constant slot, in a dynamic slot with a usage count, or in the one
integer register. It emits threaded code for a machine of slots and that register, whose operations call each other by
native tail calls.

This project models that compiler and that machine, for the integer part of WebAssembly 1.0, and proves that compiled
code does what the source program does. Around that theorem it proves what the emitted code relies on: the slot
allocator's accounting, the recursive parallel move, branch patch lists, bridged code pages, the stack check, the LEB128
readers, the byte cursor and the float-to-integer range tests.

The engine is modelled in its configuration with one 64-bit word per slot (`d_m3Use32BitSlots` = 0).

## How the parts fit

- `Words`, `IntegerOps`, `Wasm`: machine words, the integer operators as the specification defines them and as the C
  expressions compute them, and a reference interpreter with validation. `IntegerMeaning` says what the functions used on
  both sides mean: bits, counts, quotients, signs, comparisons.
- `Machine`: the emitted operations and a small-step semantics with explicit native frames.
- `Allocator`, `Compiler`: the compile-time state and every handler as a function on it.
- `Invariant`, `CompilerInvariant`, `BlockInvariant`: what holds in every reachable compile-time state.
- `Relation` to `EndToEnd`: the simulation, operator by operator up to whole programs.
- `Overflow`, `Depth`: when a run ends for lack of stack slots, exactly, and how deep calls must be nested for that.
- `Needs`, `Room`, `Success`, `Weights`: which functions compile. The room a function needs is computed from its syntax
  (`Needs`), free slots are found by counting (`Room`), and within the engine's limits every valid function compiles
  (`Success`), small ones in particular (`Weights`).
- `Compilation`, `Handlers`: the same compiler as the source has it, a class with mutable arrays and methods with loops;
  each method is proved to do what its function says, up to `Handlers.CompileFunction`.
- `ParallelMove`, `StackBound`, `CodeBound`, `StackSafety`, `StackReach`: moves of any number of values, the bound on slot
  accesses, and exactly when call arguments stay inside the memory allocated for the stack. `Accesses`: the accesses
  bounded are all those the machine makes.
- `CodePages`, `PageStack`, `Placement`, `PatchList`: in `Compiler` a page is unbounded and a forward reference is looked
  up in a map. `CodePages` shows that a stream of code on bridged pages reads like one unbounded page from every address
  ever taken; `PageStack` that this stays so while pages are put aside for else arms and br_table targets; `Placement`
  that the words found at the address of a line are those of the operation `Machine` fetches there; `PatchList` that the
  words of branch operands hold what the map says, across pages.
- `Decoding`, `Format`, `Leb128`, `LebFormat`, `Truncation`: the byte cursor and the grammar it follows, the binary format
  as specified and exactly where the two differ, the integer readers likewise, the range tests.

## Model

| member | source | states |
|---|---|---|
| `EndToEnd.SourceToMachine` | Sources/CWasm3/m3_compile.c:2721-2813 | For every valid module, function, argument list and fuel: if the interpreter finishes, the compiled function stops with the same results in its return slots, or the same trap, and has changed nothing below its frame; if the interpreter is still running after that much fuel, so is the machine. The one exception: the run has reached an activation whose place plus maxStackSlots reaches the end of the stack, and then it ends in a stack overflow. |
| `EndToEnd.MachineToSource` | Sources/CWasm3/include/m3_exec.h:772-865 | Every run of compiled code that stops, stops with a result or trap the source program has, or has overflowed because it reached an activation that does not fit: no missing operation, no unresolved branch, and no loop id reaches the host. |
| `EndToEnd.OutcomePreserved` | Sources/CWasm3/include/m3_exec.h:772-865 | If every activation the run reaches fits, each outcome of the source program is the machine's outcome, whatever fuel it takes. |
| `EndToEnd.TerminationPreserved` | Sources/CWasm3/include/m3_exec.h:1185-1208 | If every activation the run reaches fits, the compiled program stops if and only if the source program does. |
| `Overflow.StepOverflows` | Sources/CWasm3/include/m3_exec.h:784 | A step ends in a stack overflow if and only if it enters a function at a place where place plus maxStackSlots is at least the number of stack slots; no other operation does. |
| `Overflow.OverflowExact` | Sources/CWasm3/include/m3_exec.h:772-801 | A run has ended in a stack overflow if and only if it has reached such an activation. |
| `Depth.OverflowNeedsDepth` | Sources/CWasm3/include/m3_exec.h:529-547 | The stack runs out only when calls are nested so deep that the starting place and the largest maxStackSlots (at least 1), once for each call in progress and once more, together reach the number of stack slots. |
| `Correctness.BodySim` | Sources/CWasm3/m3_compile.c:2467-2519 | From any reachable compile-time state and any machine state that matches it, the code of any body does what the interpreter does with that body: falls through, branches to the right scope with the right operands, returns, traps, or keeps running. |
| `Correctness.InstrSim` | Sources/CWasm3/m3_compile.c:2156-2360 | The same for every single instruction of the modelled language. |
| `Correctness.FunctionSim` | Sources/CWasm3/include/m3_exec.h:529-547 | A call reached with its arguments behind the return slots comes back with the callee's results in the return slots and the memory below the callee's frame as it was, recursion included. |
| `Correctness.BlockSim` | Sources/CWasm3/m3_compile.c:2545-2651 | A block or if arm, left by falling through or by a branch from any depth, leaves its result in the landing slot reserved at entry and every outer operand as it was. |
| `Correctness.LoopSim` | Sources/CWasm3/include/m3_exec.h:834-865 | Each `br` to a loop restarts exactly that activation of op_Loop, however many other loops were entered or left in between; the loop ends when its body does not branch to it. |
| `Correctness.IfInstrSim` | Sources/CWasm3/m3_compile.c:1844-1899 | Both arms, the missing else arm included, end in the same state with the result in the same slot. |
| `Correctness.CallInstrSim` | Sources/CWasm3/m3_compile.c:1569-1612 | A call replaces its arguments by the callee's results; all other operands keep their values. |
| `Control.BranchToSim` | Sources/CWasm3/m3_compile.c:1330-1435 | The code of a taken branch goes to the end of a block with the label's operands in the landing slots, restarts a loop, or returns from the function. |
| `BranchSimulation.BrIfSim` | Sources/CWasm3/m3_compile.c:1340-1432 | br_if branches exactly when its operand is non-zero; the copies of its prologue run only then, and the operands below survive either way. |
| `BranchSimulation.BrTableSim` | Sources/CWasm3/m3_compile.c:1438-1518 | br_table goes where its operand says, to the default for every operand beyond the table. |
| `Machine.UnwindLoop` | Sources/CWasm3/include/m3_exec.h:851-864 | A loop id passes untouched through the native frames of other loops and restarts the one it names. |
| `FunctionSimulation.EntrySim` | Sources/CWasm3/include/m3_exec.h:772-801 | op_Entry reports a stack overflow exactly when the place plus maxStackSlots is at least the number of stack slots; otherwise it establishes the state the compiler started from: arguments where the caller put them, zeroed locals, constants in their slots. |
| `FunctionSimulation.EndSim` | Sources/CWasm3/m3_compile.c:1173-1195 | The code of the final `end` puts the results into the return slots and returns to the activation's caller. |
| `CallSimulation.ArgumentsSim` | Sources/CWasm3/m3_compile.c:1521-1547 | The arguments of a call arrive where the callee's slot assignment expects its parameters, above every operand that is still live. |
| `CallSimulation.ReturnedSim` | Sources/CWasm3/include/m3_exec.h:529-547 | After a callee that changed nothing below its frame, the caller's operands hold their values and the results are operands in the slots the callee left them in. |
| `Relation.TeeLocalSim` | Sources/CWasm3/m3_compile.c:1198-1223 | After local.set/tee the home slot holds the new value and every operand pushed earlier from that local still denotes the old one, the assigned top itself included. |
| `Relation.PreserveArgsAndLocalsSim` | Sources/CWasm3/m3_compile.c:1733-1762 | The copies emitted before a block change the value of no operand. |
| `Relation.PreserveRegisterSim` | Sources/CWasm3/m3_compile.c:380-403 | Spilling the register changes the value of no operand. |
| `Relation.PushConstSim` | Sources/CWasm3/m3_compile.c:564-665 | The operand a constant pushes holds exactly that value at its type, whether it is shared, new in the table or inlined, for any mixture of i32 and i64. |
| `Relation.TableConstant` | Sources/CWasm3/m3_compile.c:571-640 | A constant taken from the table is the requested one, and entries never change once written. |
| `OperatorSimulation.UnarySim` | Sources/CWasm3/m3_compile.c:2035-2048 | A unary operator's operand is read from wherever it lives and the result is the new top operand. |
| `OperatorSimulation.BinarySim` | Sources/CWasm3/m3_compile.c:2050-2091 | A binary operator gets its operands in source order in each of the `_rs`, `_sr` and `_ss` forms, also where `_rs` stands in for a missing `_sr`. |
| `OperatorSimulation.SelectSim` | Sources/CWasm3/m3_compile.c:1902-1979 | select yields the right one of its operands whichever of the three lives in the register. |
| `IntegerOps.BinaryAgrees` | Sources/CWasm3/include/m3_exec.h:119-235 | Every binary operation computes the specified result (section 4.3.2 of the WebAssembly Core Specification 1.0), or the specified trap, for all operands. |
| `IntegerOps.UnaryAgrees` | Sources/CWasm3/include/m3_exec.h:249-331 | Every unary operation computes the specified result for all operands. |
| `IntegerOps.RotationsAgree` | Sources/CWasm3/include/m3_math_utils.h:119-147 | The two opposite shifts joined by a bitwise or, the second by `-c & mask`, rotate, for every count, zero and counts above the width included. |
| `IntegerOps.CountsAgree` | Sources/CWasm3/include/m3_exec.h:279-302 | The branchless 64-bit leading and trailing zero counts, which set a guard bit, agree with the specification at every operand and give 64 at zero. |
| `IntegerOps.CommutativeWord` | Sources/CWasm3/m3_compile.c:2152 | Every operation listed without an `_sr` form computes the same with its operands exchanged. |
| `IntegerMeaning.BitwiseInstruction` | Sources/CWasm3/include/m3_exec.h:209-215 | and, or and xor, bit by bit: at every place the result has a one exactly when both operands have one, either has, or exactly one has. |
| `IntegerMeaning.OneBitsCount` | Sources/CWasm3/include/m3_exec.h:309-310 | popcnt is the number of places with a one. |
| `IntegerMeaning.LeadingZerosMeaning` | Sources/CWasm3/include/m3_exec.h:282-304 | clz is the number of zero places above the highest one. |
| `IntegerMeaning.TrailingZerosMeaning` | Sources/CWasm3/include/m3_exec.h:282-307 | ctz: all places below are zero and the next one is not. |
| `IntegerMeaning.TruncDivMeaning` | Sources/CWasm3/include/m3_math_utils.h:156-183 | The remainder of a division is smaller than the divisor and has the sign of the dividend. |
| `IntegerMeaning.SignExtension` | Sources/CWasm3/include/m3_exec.h:327-338 | A sign extension gives the number in the signed range of the lower 8, 16 or 32 bits that has those bits. |
| `Invariant.PushAllocatedOk` | Sources/CWasm3/m3_compile.c:534-562 | Allocating an operand keeps the invariant: each dynamic slot's usage count is the number of live operands naming it, and the register table names the one operand in the register. |
| `Invariant.PopOk` | Sources/CWasm3/m3_compile.c:489-512 | Popping keeps that invariant and releases exactly what the operand held. |
| `Invariant.PreserveRegisterOk` | Sources/CWasm3/m3_compile.c:380-403 | Spilling empties the register table, moves that operand to a free slot and no other, and keeps the invariant. |
| `Invariant.FindReferencedLocalOk` | Sources/CWasm3/m3_compile.c:839-875 | All operands that alias a local move together to one free slot, counted once each, wherever the search starts. |
| `Invariant.PreserveArgsAndLocalsOk` | Sources/CWasm3/m3_compile.c:1733-1762 | Afterwards no operand aliases a local, and the invariant holds. |
| `CompilerInvariant.FrameBaseOk` | Sources/CWasm3/m3_compile.c:357-377 | The frame base of a call lies above every slot in use, and the lowered maximum still does too. |
| `CompilerInvariant.CallOk` | Sources/CWasm3/m3_compile.c:1521-1566 | Compiling a call keeps the invariant; the operands are those below the arguments followed by the results in consecutive slots from the frame base. |
| `BlockInvariant.LeaveScopeOk` | Sources/CWasm3/m3_compile.c:2630-2649 | Leaving a block restores the usage of every dynamic slot, so the slot pushed as result is the very landing slot chosen at entry. |
| `BlockInvariant.BlockOk` | Sources/CWasm3/m3_compile.c:2545-2651 | Compiling a block is neutral for the allocator: the operands afterwards are those before, with the results in the slots that were free at entry. |
| `BlockInvariant.IfOk` | Sources/CWasm3/m3_compile.c:1844-1899 | Compiling an if keeps the invariant, with one arm, two arms or a made-up one. |
| `BlockInvariant.IfArms` | Sources/CWasm3/m3_compile.c:1844-1899 | Both arms start with the same operands, the same usage of every dynamic slot and an empty register, reserve the same landing slot, and the operands afterwards are those the arms started with and the result in that slot. |
| `BlockInvariant.BodyOk` | Sources/CWasm3/m3_compile.c:2467-2519 | Every reachable compile-time state satisfies the allocator invariant, and compiling only appends code and never touches the operands below the current block. |
| `BlockInvariant.InitialOk` | Sources/CWasm3/m3_compile.c:2750-2785 | The state before a function's first opcode satisfies the invariant. |
| `CompilerInvariant.ConstantPlaced` | Sources/CWasm3/m3_compile.c:564-665 | A constant that can be shared takes the slot of its entry in the table; another one takes the next entry while there is one, without code; only a full table makes the compiler emit it inline. |
| `Needs.AfterTypes` | Sources/CWasm3/m3_compile.c:2467-2519 | The operands the syntax of a valid instruction leaves, with which the need is computed, have the types of validation. |
| `Room.FreeNear` | Sources/CWasm3/m3_compile.c:257-284 | With fewer than h operands in dynamic slots one of the first h dynamic slots is free, by counting. |
| `Success.InstrFits` | Sources/CWasm3/m3_compile.c:2156-2360 | Every valid instruction compiles from every reachable state that has the room its syntax asks for, and leaves the operands the syntax says. |
| `Success.BodyFits` | Sources/CWasm3/m3_compile.c:2467-2519 | So does every valid body, and it ends with the expected operands or by a jump. |
| `Success.FunctionCompiles` | Sources/CWasm3/m3_compile.c:2721-2813 | Every valid function compiles if the need computed from its syntax stays within 2000 operands, 4000 slots and 255 references to one local; and maxStackSlots is at most its layout plus that need. |
| `Success.ModuleCompiles` | Sources/CWasm3/m3_compile.c:2721-2813 | A valid module whose functions stay within those limits has compiled code to which the theorems above apply, with that bound on each maxStackSlots. |
| `Weights.SmallFunctionsCompile` | Sources/CWasm3/m3_compile.c:2721-2813 | In particular every valid function whose body has a weight of at most 255, where an instruction weighs one and what it nests or returns, compiles if its signature, locals and constants leave room for it. |
| `ParallelMove.ParallelMoveExact` | Sources/CWasm3/m3_compile.c:897-958 | For any number of values with distinct targets, chains and cycles included, the emitted copies move all of them at once from every machine state if and only if no overwritten source has a second later reader; the compile-time stack is restored exactly. |
| `ParallelMove.ParallelMoveFrame` | Sources/CWasm3/m3_compile.c:897-958 | Slots that are neither targets nor temporaries keep their content. |
| `ParallelMove.ParallelMoveFits` | Sources/CWasm3/m3_compile.c:923-925 | The move cannot fail while there is a slot for one temporary per value. |
| `ParallelMove.CopyIsMove` | Sources/CWasm3/m3_compile.c:897-958 | The recursive procedure, which edits and restores the operand stack as it goes, emits the copies of a list of moves and leaves the stack as it found it. |
| `ParallelMove.ClashExample` | Sources/CWasm3/m3_compile.c:916-942 | Three values, two of them from one slot: CopyStackSlotsR succeeds, and from some machine state its code loses one of them. |
| `StackSafety.MaxStackSlotsBounds` | Sources/CWasm3/m3_compile.c:223-231 | maxStackSlots is above every slot a function's operations read and every slot they write, spills, copy-on-write saves and the temporaries of moves included. The one exception is named exactly: line l of a page may write a later slot only if a call stands j+1 lines further on and that slot is the place of its argument j. |
| `StackBound.MovesBound` | Sources/CWasm3/m3_compile.c:927-932 | A move of any number of values, with its temporaries, stays strictly below the maximum it leaves behind. |
| `StackSafety.SlotAccessesCovered` | Sources/CWasm3/include/m3_exec.h:784 | In every run, calls and recursion included, the one comparison in op_Entry covers every slot an activation reads or writes and everything op_Entry initialises; only the copies of call arguments may write beyond the stack. |
| `Accesses.WritesOnly` | Sources/CWasm3/include/m3_exec.h:529-1076 | Apart from op_Entry every operation leaves all slots as they were but those that the bound lists as written. |
| `Accesses.ReadsOnly` | Sources/CWasm3/include/m3_exec.h:529-1076 | What an operation does next, to the register, to the native frames and to the slots it writes, is the same whatever the slots hold that the bound does not list. |
| `StackReach.SpareSlotsExact` | Sources/CWasm3/m3_env.c:181-185 | A function's code touches only allocated memory in every activation that op_Entry lets through, for every size of the stack, if and only if each of its calls ends its frame, results and parameters included, at most five slots behind the caller's maxStackSlots. |
| `StackReach.RunsStayAllocated` | Sources/CWasm3/m3_env.c:181-185 | If all functions satisfy that condition no run, calls and recursion included, touches a slot that is not allocated. |
| `StackReach.SpareSlotsSuffice` | Sources/CWasm3/m3_env.c:181-185 | That is so when no function takes more than four parameters. |
| `StackReach.CallReach` | Sources/CWasm3/m3_compile.c:1540-1552 | The code of every call with parameters writes the slot of the last parameter in the callee's frame. |
| `StackReach.SixArgumentsLeave` | Sources/CWasm3/m3_compile.c:1540-1552 | Concrete run: a valid module whose function calls another with six arguments; with seven stack slots op_Entry lets it through and its second operation writes slot 11 of the eleven allocated. |
| `Compilation.Compiling.constructor` | Sources/CWasm3/m3_compile.c:2730-2739 | A compilation starts with no operand, no used slot and an empty constant table. |
| `Compilation.Compiling.AllocateSlotsWithinRange` | Sources/CWasm3/m3_compile.c:257-284 | The search finds the lowest free slot of the range, marks it, and fails exactly when there is none. |
| `Compilation.Compiling.GetMaxUsedSlotPlusOne` | Sources/CWasm3/m3_compile.c:357-377 | The loop lowers the maximum to just above the last slot in use and changes nothing else. |
| `Compilation.Compiling.Push` | Sources/CWasm3/m3_compile.c:447-475 | The new operand is on the arrays, the register table and all else agree with the functional step. |
| `Compilation.Compiling.Pop` | Sources/CWasm3/m3_compile.c:489-512 | Likewise for removing the top operand, register or slot. |
| `Compilation.Compiling.UnwindBlockStack` | Sources/CWasm3/m3_compile.c:690-707 | All operands of the block are popped one by one; it cannot fail. |
| `Compilation.Compiling.PreserveRegisterIfOccupied` | Sources/CWasm3/m3_compile.c:380-403 | The operand found through the register table is moved in place; it fails exactly when no slot is free. |
| `Compilation.Compiling.CopyStackSlotsR` | Sources/CWasm3/m3_compile.c:897-958 | The recursive procedure on the mutable stack emits the same copies and restores the array. |
| `Compilation.Compiling.FindReferencedLocalWithinCurrentBlock` | Sources/CWasm3/m3_compile.c:839-875 | The in-place search redirects and counts every reference in one pass, reporting the fresh slot or the local's own. |
| `Compilation.Compiling.CopyStackTopToRegister` | Sources/CWasm3/m3_compile.c:812-836 | Emits a load only when the top is not in the register yet, after spilling another operand from it. |
| `Handlers.PushConst` | Sources/CWasm3/m3_compile.c:564-665 | The table scan, the new entry and the inline fallback, on the mutable table. |
| `Handlers.CompileSetLocal` | Sources/CWasm3/m3_compile.c:1198-1223 | The handler on the arrays reaches the state proved right above, or fails where it does. |
| `Handlers.CompileBinary` | Sources/CWasm3/m3_compile.c:2050-2091 | Likewise for the choice of form and the operands' release. |
| `Handlers.CompileSelect` | Sources/CWasm3/m3_compile.c:1902-1979 | Likewise. |
| `Handlers.ResolveBlockResults` | Sources/CWasm3/m3_compile.c:961-1006 | Likewise for the move of results to landing slots. |
| `Handlers.ReturnValues` | Sources/CWasm3/m3_compile.c:1009-1051 | The downward loop over the results. |
| `Handlers.CompileBrIf` | Sources/CWasm3/m3_compile.c:1330-1435 | Likewise, prologue and pending reference included. |
| `Handlers.CompileBrTable` | Sources/CWasm3/m3_compile.c:1438-1518 | The loop over the targets switches pages and restores the page saved before each. |
| `Handlers.CompileCall` | Sources/CWasm3/m3_compile.c:1569-1612 | Likewise, with the loops over arguments and results. |
| `Handlers.PreserveArgsAndLocals` | Sources/CWasm3/m3_compile.c:1733-1762 | The loop over the home slots. |
| `Handlers.CompileBlock` | Sources/CWasm3/m3_compile.c:2545-2651 | The scope saved on entry is restored on exit whatever the body does in between. |
| `Handlers.CompileIf` | Sources/CWasm3/m3_compile.c:1844-1899 | Likewise, with the stack top reset between the arms. |
| `Handlers.CompileBlockStatements` | Sources/CWasm3/m3_compile.c:2467-2519 | The statements of any body, in order, until its terminator. |
| `Handlers.LayOut` | Sources/CWasm3/m3_compile.c:2750-2785 | The loops that mark return slots and push arguments and locals produce the initial state. |
| `Handlers.CompileFunction` | Sources/CWasm3/m3_compile.c:2721-2813 | The whole imperative compiler computes, on its arrays, exactly the code the theorems above are about, and fails exactly when the functional one does. |
| `CodePages.PageLinesFit` | Sources/CWasm3/m3_code.c:14-50 | A new page has at least the requested lines, fills whole blocks of memory, and wastes less than one. |
| `CodePages.RemoveCodePageOfCapacity` | Sources/CWasm3/m3_env.c:111-134 | The first page with enough free lines is unlinked, wherever it is on the list; the others stay linked in order. |
| `CodePages.Runtime.Conserved` | Sources/CWasm3/m3_env.c:1062 | Open, full and active pages are distinct pages and add up to numCodePages. |
| `CodePages.Runtime.AcquireCodePageWithCapacity` | Sources/CWasm3/m3_env.c:1019-1041 | The first open page with the room asked for is taken, with no change to numCodePages; only if there is none, the first released page with room, counted from now on; only if there is none either, a new page of the lines that PageLines gives. Every page stays in exactly one place. |
| `CodePages.Runtime.ReleaseCodePage` | Sources/CWasm3/m3_env.c:1050-1069 | Releasing puts the page in front of the open or the full list, by the lines left, and keeps the accounts. |
| `CodePages.ReleaseCodePages` | Sources/CWasm3/m3_env.c:143-166 | A whole list, reset, goes in front of the environment's released pages. |
| `CodePages.Runtime.Release` | Sources/CWasm3/m3_env.c:225-235 | When a runtime is freed all its pages are released, empty, each once. |
| `CodePages.Emitter.EnsureCodePageNumLines` | Sources/CWasm3/m3_emit.c:13-39 | Afterwards the page has the lines asked for and two more for a bridge; the stream of code is unchanged. |
| `CodePages.Emitter.EmitOperation` | Sources/CWasm3/m3_emit.c:49-73 | An operation with up to five operands always fits on one page behind the bridge check; pages only grow, and of the active pages only this stream's own is replaced, if any. |
| `CodePages.Emitter.EmitTableHead` | Sources/CWasm3/m3_compile.c:1454-1459 | A br_table makes room on one page for its head and all its targets at once. |
| `CodePages.BridgingTransparent` | Sources/CWasm3/m3_emit.c:28-33 | A reader that follows the bridges sees the emitted words as if on one unbounded page. |
| `CodePages.AddressReads` | Sources/CWasm3/m3_code.c:126-132 | An address taken with GetPagePC at any moment, even just before a bridge, reads on to exactly what was emitted on that stream since. The stream of a page put aside and taken up again is one stream: see the rows of PageStack. |
| `PageStack.CompilationPages.EmitOperation` | Sources/CWasm3/m3_emit.c:49-73 | Emitting while other pages are put aside, to any depth: the code of the current page grows by the operation, every page put aside stays active and untouched, every finished stream stays bridged, and the active pages stay accounted for. |
| `PageStack.CompilationPages.StartArm` | Sources/CWasm3/m3_compile.c:1822-1828 | Putting the page aside and acquiring another one, whichever list it comes from, disturbs no stream. |
| `PageStack.CompilationPages.CloseArm` | Sources/CWasm3/m3_compile.c:1507-1508 | Releasing the arm's page and restoring the saved one: the page put aside goes on where it was, and the arm's code stays readable. |
| `PageStack.CompilationPages.FinishElse` | Sources/CWasm3/m3_compile.c:1832-1837 | The finished else arm ends with the address where the page put aside goes on. |
| `PageStack.CompilationPages.EmitTarget` | Sources/CWasm3/m3_compile.c:1477-1508 | The code of a br_table target of any length is a stream of its own, and the address returned is where it starts. |
| `PageStack.CompilationPages.EmitBranchTable` | Sources/CWasm3/m3_compile.c:1438-1511 | The words of a br_table stay together although the code of its targets is emitted in between; the i-th one is the start of the i-th target's code. |
| `PageStack.CompilationPages.Finish` | Sources/CWasm3/m3_compile.c:2808-2812 | When a compilation ends exactly its own pages have stopped being active, and all its streams are readable. |
| `PageStack.CompilationPages.Abandon` | Sources/CWasm3/m3_compile.c:2808-2812 | After an error the pages put aside stay active for good: nothing is lost if and only if there are none. |
| `PageStack.LostPage` | Sources/CWasm3/m3_compile.c:1507 | Concrete case: an error in an else arm loses the page put aside. |
| `PageStack.ArmReturns` | Sources/CWasm3/m3_compile.c:1832-1837 | Whoever runs an else arm meets its code and then, at the address it ends with, whatever was emitted on the page put aside afterwards, with bridges on either side. |
| `Placement.FetchReads` | Sources/CWasm3/include/m3_exec.h:38-52 | What is read at the address of a line, following bridges, are the words of the operation the machine fetches there, and then what is read at the address of the next line. |
| `Placement.OperandsTaken` | Sources/CWasm3/include/m3_exec.h:914-1076 | Each operation, taking its operand words in the order in which it is written, finds the slots it was emitted with. |
| `Placement.TargetPlaced` | Sources/CWasm3/include/m3_exec.h:1131-1182 | The word of a branch target is the address of the line the machine goes to. |
| `Placement.EmitLaid` | Sources/CWasm3/m3_emit.c:49-73 | Emitting an operation keeps every line of the function where it was, on this page and all others, and puts the next one behind it. |
| `Placement.NewPageLaid` | Sources/CWasm3/m3_compile.c:1822-1828 | So does a new page. |
| `Placement.DefinedHere` | Sources/CWasm3/m3_compile.c:723-736 | A reference resolved at the current pc stands for the address of whatever is emitted next on the current page. |
| `PatchList.ListsPatched` | Sources/CWasm3/m3_compile.c:723-736 | Patching the innermost list resolves its reference and leaves the lists of all outer scopes intact, on every page. |
| `PatchList.Patcher.EmitPatchingBranchPointer` | Sources/CWasm3/m3_compile.c:1312-1327 | The operand, on whatever page is current, joins the list of the scope `depth` blocks out; no other word changes. |
| `PatchList.Patcher.SwitchPage` | Sources/CWasm3/m3_compile.c:1469-1508 | Going to another page and back disturbs no list. |
| `PatchList.Patcher.AcquireNewPage` | Sources/CWasm3/m3_compile.c:1822-1828 | A new page disturbs no list. |
| `PatchList.Patcher.ResolvePointer` | Sources/CWasm3/m3_compile.c:1895 | A pointer that is filled in directly resolves its reference and touches no list. |
| `PatchList.Patcher.PatchBranches` | Sources/CWasm3/m3_compile.c:723-736 | Every word that waits for the scope's end, at any depth and on any page, becomes the current address, and no other word changes. |
| `PatchList.Patcher.EnterBlock` | Sources/CWasm3/m3_compile.c:2549-2557 | A saved scope goes on collecting through `outer`. |
| `PatchList.Patcher.OperandsResolved` | Sources/CWasm3/m3_compile.c:2646-2648 | The word of every resolved branch operand holds the address that the compiler model's map of references says. |
| `Decoding.FakeElse` | Sources/CWasm3/m3_compile.c:1886-1893 | The byte before the cursor is `end`, so compiling the made-up else arm from it brings the cursor back to where it was. |
| `Decoding.StopsAtEnd` | Sources/CWasm3/m3_compile.c:2502-2514 | A sequence stops right behind the `end` or `else` byte that closes it. |
| `Decoding.Cursor.CompileBlockStatements` | Sources/CWasm3/m3_compile.c:2467-2519 | Terminates on every byte string. On success the cursor is right behind one instruction sequence of the grammar the compiler follows, never past the end; it fails only where that grammar has no sequence or a handler gives up on the way for a reason beyond the bytes. `Format.SequenceExact` compares that grammar with the binary format. |
| `Decoding.Cursor.CompileIf` | Sources/CWasm3/m3_compile.c:1844-1899 | The same for an if, with or without else, despite the one-byte rewind. |
| `Decoding.Cursor.CompileOpcode` | Sources/CWasm3/m3_compile.c:2156-2434 | Each handler that succeeds has consumed exactly its opcode's immediates, and none fails on well-formed ones unless it gives up for another reason. |
| `Decoding.Cursor.CompileBranchTable` | Sources/CWasm3/m3_compile.c:1443-1477 | The target loop reads as many labels as the u32 count says, and fails only when they cannot be read or one is given up on. |
| `Decoding.Cursor.CompileFunction` | Sources/CWasm3/m3_compile.c:2741-2796 | A function compiles, unless a handler gives up on the way, if and only if it is one code entry of that grammar; `Format.FunctionExact` says when it is one of the binary format. |
| `Format.SequenceExact` | Sources/CWasm3/m3_compile.c:2467-2519 | For all bytes of a module: the cursor takes an instruction sequence for the one the binary format (section 5.4 of the WebAssembly Core Specification 1.0 and the proposals the compiler knows) has there, if and only if every instruction read, at any depth, has integers without excess bits, zero reserved bytes, a standard block type and a table count other than 2^32-1; second opcodes of more than one byte are the only ones it misses. |
| `Format.FunctionExact` | Sources/CWasm3/m3_compile.c:2741-2796 | The same for a whole code entry: beyond that, the size must be that of the function, the types of its locals value types, and the locals fewer than 2^32. |
| `Format.TableExact` | Sources/CWasm3/m3_compile.c:1443-1477 | A br_table is read as the format has it exactly when its count and labels have no excess bits and the count is not 2^32-1. |
| `Format.BlockTypeExact` | Sources/CWasm3/m3_compile.c:1711-1730 | A block type is read as the format has it exactly when it is the byte 0x40, a value type byte, or a type index without excess bits. |
| `Format.TableCountWraps` | Sources/CWasm3/m3_compile.c:1463 | Concrete input: a constant and a br_table of 2^32-1 targets, for which no label is read. |
| `Format.ReservedByteIgnored` | Sources/CWasm3/m3_compile.c:1653-1681 | Concrete input: memory.size with a reserved byte of one is read. |
| `Format.LooseEntries` | Sources/CWasm3/m3_compile.c:2741-2743 | Concrete inputs: a local of the empty type, and a code entry with a byte left over, are read. |
| `Format.LongOpcodeRefused` | Sources/CWasm3/m3_compile.c:1113-1121 | Concrete input: a second opcode in two bytes is refused. |
| `Leb128.ReadLebUnsigned` | Sources/CWasm3/m3_core.c:342-375 | Where the reader stops, why, and the number the bytes it read encode, modulo 2^64. |
| `Leb128.ReadLebSigned` | Sources/CWasm3/m3_core.c:378-418 | The same with sign extension. |
| `Leb128.UnsignedRoundTrip` | Sources/CWasm3/m3_core.c:342-375 | Every encoding of at most ceil(N/7) bytes, padded or not, preceded and followed by anything, reads back as its number and uses exactly its own bytes. |
| `Leb128.SignedRoundTrip` | Sources/CWasm3/m3_core.c:378-418 | The same for two's complement. |
| `Leb128.AcceptedIff` | Sources/CWasm3/m3_core.c:351-370 | An encoding is accepted exactly when it ends within ceil(N/7) bytes and within the input. |
| `LebFormat.UnsignedExact` | Sources/CWasm3/m3_core.c:342-375 | The integers uN of the format, defined by recursion on the width as section 5.2.2 of the WebAssembly Core Specification 1.0 does, are those the reader accepts whose last byte, at full length, has no bits beyond the width. |
| `LebFormat.SignedExact` | Sources/CWasm3/m3_core.c:378-418 | The same for sN: the bits beyond the width are copies of the sign. |
| `LebFormat.U32Exact` | Sources/CWasm3/m3_core.c:421-428 | ReadLEB_u32 returns the number the bytes encode if and only if there are fewer than five of them or the fifth is below 16. |
| `LebFormat.I32Exact` | Sources/CWasm3/m3_core.c:451-458 | ReadLEB_i32: fewer than five, or the fifth is below 8 or at least 120. |
| `LebFormat.I64Exact` | Sources/CWasm3/m3_core.c:461-468 | ReadLEB_i64: fewer than ten, or the tenth is 0 or 127. |
| `LebFormat.OutOfRangeAccepted` | Sources/CWasm3/m3_core.c:421-428 | Concrete input: five bytes that encode 2^32, accepted and read as 0. |
| `Truncation.TruncExact` | Sources/CWasm3/include/m3_math_utils.h:190-211 | OP_TRUNC converts exactly the representable numbers whose value truncated toward zero fits the target type, to that value, and traps on the others and on NaN. |
| `Truncation.TruncSatExact` | Sources/CWasm3/include/m3_math_utils.h:213-239 | OP_TRUNC_SAT gives the truncated value clamped to the type, 0 for NaN. |
| `Truncation.ValueMeaning` | Sources/CWasm3/include/m3_math_utils.h:190-239 | The value of a number with exponent 0 is its mantissa, and one more in the exponent doubles it, on both sides of zero. |
| `Truncation.TruncIntegers` | Sources/CWasm3/include/m3_math_utils.h:190-211 | In integers: a converted n of a number with mantissa m and exponent -k satisfies abs(n) * 2^k <= abs(m) < (abs(n) + 1) * 2^k and has the sign of m; with exponent k at least 0 it is m * 2^k. |
| `Truncation.NothingBetween` | Sources/CWasm3/include/m3_math_utils.h:200-210 | No representable number lies strictly between a range constant and the bound it stands for. |
| `Truncation.BoundsRepresentable` | Sources/CWasm3/include/m3_math_utils.h:200-210 | The range constants are themselves exact in their format. |
| `Truncation.GapIsNeeded` | Sources/CWasm3/include/m3_math_utils.h:200 | Without representability the test would be wrong: a 25-bit mantissa below -2^31 passes it. |

## Findings

Properties that do not hold of the code as it stands, each with an input that shows it and the exact condition under
which it does hold.

- CopyStackSlotsR (Sources/CWasm3/m3_compile.c:916-942) saves only the first later value that still lives in a slot it
  overwrites. Input: `ParallelMove.ClashExample`. Condition, if and only if: `ParallelMove.ParallelMoveExact`, no
  overwritten source with two later readers. Blocks with at most one result, the only ones in WebAssembly 1.0, never
  meet the failing case.
- br_table (Sources/CWasm3/m3_compile.c:1463) adds one to the target count in a u32. Input: `Format.TableCountWraps`.
  Condition, if and only if: `Format.TableExact`, the count is not 2^32-1 (and its integers have no excess bits).
- ReadLEB_u32, ReadLEB_i32 and ReadLEB_i64 (Sources/CWasm3/m3_core.c:421-468) accept numbers beyond the width, which
  section 5.2.2 of the WebAssembly Core Specification 1.0 forbids, and truncate them. Input:
  `LebFormat.OutOfRangeAccepted`. Condition, if and only if, on the last byte: `LebFormat.U32Exact`, `LebFormat.I32Exact`,
  `LebFormat.I64Exact`.
- Code of a function as a whole (Sources/CWasm3/m3_compile.c:2467-2519, 2741-2796): beyond those two, reserved bytes,
  nonstandard block types, locals of the empty type and bytes behind the final `end` are let through, and second opcodes
  in more than one byte are refused. Inputs: `Format.ReservedByteIgnored`, `Format.LooseEntries`,
  `Format.LongOpcodeRefused`. Condition, if and only if: `Format.SequenceExact`, `Format.FunctionExact`.
- Call arguments are not covered by maxStackSlots (Sources/CWasm3/m3_compile.c:1540-1552). Input:
  `StackReach.SixArgumentsLeave`, a run whose second operation writes behind the allocation. Condition, if and only if:
  `StackReach.SpareSlotsExact`, each call's frame with its results and parameters ends at most five slots behind
  maxStackSlots (four spare ones, and one because op_Entry's comparison is strict).
- Code pages put aside are lost after an error (Sources/CWasm3/m3_compile.c:1507, 2808-2812), and stay active for good.
  Input: `PageStack.LostPage`. Condition, if and only if: `PageStack.CompilationPages.Abandon`, the error is not inside an
  else arm or a br_table target.

## Left out

- Two-slot 64-bit values: `d_m3Use32BitSlots` = 1, where a 64-bit operand takes two slots, is not modelled.
- Floats: arithmetic, conversions other than the truncation bounds, and the floating-point register.
- Memory, globals, tables: loads, stores, memory.size and memory.grow, memory.copy and memory.fill, global.get and
  global.set, call_indirect and imported functions; `Decoding` does read their immediates.
- Block types: parameters of blocks and blocks with more than one result; `ParallelMove` and `StackBound.MovesBound` do
  cover moves of any number of results.
- Dead code: instructions after an unconditional branch, return or unreachable are excluded by the syntax of bodies.
- Lazy compilation: op_Compile, which compiles a callee at its first call; all functions are taken to be compiled.
- Bytes to syntax: `Compiler` starts from syntax trees and `Decoding` shows which bytes are consumed; that the handlers
  see the operators and constants those bytes encode is not stated.
- Compiler.PushResultsAt: fails when a result slot lies beyond the last one, a case the source does not test for
  (Sources/CWasm3/m3_compile.c:1554-1564).
- Compiler.ReserveLanding: fails when a landing slot cannot be reserved; the source ignores that result
  (Sources/CWasm3/m3_compile.c:2602-2610).
- Compiler.ReturnValues: in a block marked polymorphic no return copies are modelled, the source validates there.
- IntegerOps.COperator: signed addition, subtraction and multiplication are taken to wrap on overflow, which C leaves
  undefined.
- IntegerOps.CountLeading: the form for x86-64 without the newer bit instructions is modelled; the compiler's builtins
  are taken to count as documented.
- CodePages.Page: a page's buffer is a growing sequence with a fixed capacity, and allocation never fails; the u32
  arithmetic of page sizes does not wrap.
- PageStack.CompilationPages: the saved pages are an explicit stack, in the source local variables of a recursion; the
  u32 number of lines a br_table asks for does not wrap.
- Placement.Laid: takes the words of forward references as they are after patching; that patching leaves them so is
  `PatchList.Patcher.OperandsResolved`, on pages of its own.
- PatchList.Patcher: a page may grow without bound, since capacity is the subject of `CodePages`.
- Format.SequenceFormat: instructions the compiler has no handler for (vectors, references, further bulk operations) are
  not in the format modelled, and validation is not part of it.
- Leb128.Accumulate: the bitwise or of disjoint digits is modelled as a sum.
- Decoding.Cursor: whatever else than the bytes makes a handler give up is a parameter, a predicate on positions of the
  cursor.
- ReserveConstants: the number of reserved constant slots is a parameter; every theorem holds for any number.
- Error texts, backtraces, tracing, profiling, and errors of memory allocation.
- The Swift layer, WASI bindings and the module parser.
