# Verification of the compiler, the processors, the CoreMark kernels and the load path

This project models four parts of the repository in Dafny and proves what they are for.

**The MyLanguage compiler** (`AntlrTestProj`), starting from its syntax tree. `MyVisitor`,
`CodeGenerator`, `VariableAllocator` and `LabelGenerator` are classes whose fields and methods
follow the source; each method is proved to change its object as a function on values says
(`Compiler`, `CodeGen`, `Allocator`), and the theorems are about those functions. `Semantics`
gives the language a meaning with a bound on the call depth and with fuel, one unit for every
statement and every turn of a loop, so that a run can be looked at before each statement it
executes. `Machine` is the target, instruction by instruction, as `Calc2/src` implements it: the operand stack lies in data memory
from cell 0, globals from cell 200, frames above cell 1024, and writing to an address with bit
30 set is output. The main theorems:

- `Simulation`, `Correctness`: the linked program does what the source program does. Branches,
  loops, nested scopes whose slots are used again, forward references patched late, and calls
  to any depth are all covered, and so are programs that never end: a run that has not finished
  is matched by a machine run that is at least as long, has printed the same, and is before the
  code of the very statement the source would start next, inside the same calls.
- `Correctness.StackAndFrames`: there the operand stack is exactly the return addresses, each
  behind the call statement at which its caller waits, and every frame holds its function's
  variables in the slots that the compiler chose at that statement. `Semantics` names a place in
  the program's text step by step, and `Activations` computes from it, with the compiler's own
  functions, the compiler's state there. `Correctness.NeverOverflows`: the stack never reaches the
  globals.
- `Correctness.HaltsIff`: the compiled program halts if and only if the source program terminates.
- `AllocatorRuns.HighWaterMarkIsPeak`: frames are as small as they can be.
- `Acceptance.CompilesIff`, `Acceptance.AcceptedIff`: exactly which programs the compiler accepts,
  from their text alone (`WellFormed`); also from the text, how long the code is
  (`Acceptance.LengthOfCode`) and whether it fits the chip (`Acceptance.FitsIff`).
- `LabelDiscipline.LinksIffNamed`, `LabelDiscipline.NeverClashes`: exactly when a program links, and
  exactly when labels clash.
- `Arithmetic.AluMeans`, `Arithmetic.OperatorMeans`: what the processor's operations and the
  language's operators compute, by relations that determine the result.

**The processors.** `Hardware` is `Calc2/src` as registers and one step per clock, with its memory
handshakes and its halt and resume requests; `HardwareRefinement` proves that it implements
`Machine` for whatever the debugger requests, and `EndToEnd` joins that to the compiler: on every
clock the processor has output a prefix of what the source program prints. `CalcClock` is the
older processor (`Calc`), with its four small state machines; `CalcDesign` has its modules as
objects; `CalcRefinement` proves that it implements one line of semantics per instruction, and
`CalcAssembly` what the words of its assembler do.

**The CoreMark kernels** (`rv32itest/coremark`). The in-place merge sort with comparators that
rewrite what they compare, and the whole list benchmark around it, on heap nodes; the token
recogniser against forms of text stated without an automaton; the checksum against division of
polynomials; the matrix kernels against sums of products, with wrap-around.

**The load path.** The hex exporter, the dump tool's writer and reader, chunked upload and download
against a device that is a memory, and the byte-to-word loader.

Conventions: a machine word is an integer below 2^32 and every wrap-around is written out;
exceptions are `Err` results; ghost parameters of a method name the sequence of nodes a list
consists of.

## What the proofs found

- `|` and `^` are compiled to AND (`AntlrTestProj/MyVisitor.h:314`, `:332`). The theorems read them
  as AND; `Dialects` proves when that is what was written: for `|` on equal operands, for `^` on
  two zeros, and so in every run that evaluates them only on such (`Dialects.SameRun`).
- A call of an undefined function links if the name is that of a label made up for the program:
  `L0` is the end loop, and higher numbers are places inside other functions
  (`LabelDiscipline.LinksIffNamed`, with two programs that show it).
- `core_bench_list` does not restore every list, as its comment says: nodes with equal indices
  may come back exchanged, and are then lost from the list (`Restoring.NotRestored`). It restores
  a list for all its parameters if and only if the indices increase strictly
  (`Restoring.AlwaysRestoredIff`). Its checksum takes in the head's datum over and over, not the
  visited nodes'.
- `core_bench_state` restores its buffer if and only if no byte is turned into a comma (or the
  seed is 0), and `-87e+832`, one of its scientific patterns, is invalid to its recogniser.
- The instruction that Calc's assembler calls LE compares strictly, and unsigned
  (`CalcAssembly.UnitMeans`).
- `write_hex_file` writes no data for a negative line width, and `write_prog` admits 255 bytes in
  its check but only 251 fit a packet.

## Model

| member | source | states |
|---|---|---|
| Words.OrMeetsAnd | AntlrTestProj/MyVisitor.h:304-320 | the AND emitted for or gives the same number as or exactly when the two operands are equal |
| Words.XorMeetsAnd | AntlrTestProj/MyVisitor.h:322-338 | the AND emitted for xor gives the same number as xor exactly when both operands are zero |
| Arithmetic.SignedIff | Calc2/src/ALU.sv:1-260 | the signed reading of a word is the one number from -2^31 up to 2^31 that is congruent to it |
| Arithmetic.DivisionLaw | Calc2/src/ALU.sv:1-260 | a is b times the quotient plus the remainder, which is less than b |
| Arithmetic.ShiftLeftLaw | Calc2/src/ALU.sv:1-260 | shifting left by any amount is multiplying by that power of two, modulo 2^32 |
| Arithmetic.ShiftRightLaw | Calc2/src/ALU.sv:1-260 | shifting right by any amount is the whole quotient by that power of two |
| Arithmetic.BitsLaw | Calc2/src/ALU.sv:1-260 | bit k of a bitwise operation is the gate of the operands' bits k |
| Arithmetic.AluMeans | Calc2/src/ALU.sv:1-260 | for each of the 21 operations a word is the unit's result if and only if it stands in the operation's relation to the operands: congruence, bounds of a quotient, bit by bit, or comparison |
| Arithmetic.OperatorMeans | AntlrTestProj/MyVisitor.h:299-591 | the same for every binary operator of the language, as written and as compiled |
| Arithmetic.PortIff | Calc2/src/mmio.sv:21-36 | the addresses with bit 30 set select the output |
| Assembler.DecodePack | AntlrTestProj/Assembler.h:299-323 | the fetch stage decodes every packed word to the immediate (sign included), sources, destination and operation its addressing mode stands for |
| Assembler.PackFields | AntlrTestProj/Assembler.h:316-322 | the fields of a packed word never overlap and can be read back separately |
| Assembler.ListedWords | AntlrTestProj/output.mif:8-270 | the instruction words are those of the compiled program in the repository |
| Allocator.DeclareValid | AntlrTestProj/VariableAllocator.cpp:30-45 | a declaration takes a slot no live variable has, and keeps conservation: live and free slots are disjoint, duplicate-free, and together all slots handed out |
| Allocator.EndBlockValid | AntlrTestProj/VariableAllocator.cpp:13-28 | closing a block keeps conservation for every iteration order of the block's hash map |
| Allocator.SlotsDistinct | AntlrTestProj/VariableAllocator.cpp:62-74 | no two bindings, in one block or in different open ones, ever share a slot |
| AllocatorRuns.RunAllValid | AntlrTestProj/VariableAllocator.cpp:8-79 | conservation holds after every sequence of opening, closing and declaring |
| AllocatorRuns.SlotsAddUp | AntlrTestProj/VariableAllocator.cpp:62-79 | live variables plus free slots equal the number of slots ever handed out |
| AllocatorRuns.HighWaterMarkIsPeak | AntlrTestProj/VariableAllocator.h:38-41 | getMaxAlloc after any history is the largest number of variables that were alive at once: no frame is larger than needed |
| AllocatorRuns.FreshHighWaterMark | AntlrTestProj/VariableAllocator.h:38-41 | for a new allocator that peak is exactly getMaxAlloc |
| AllocatorRuns.ScopesRestored | AntlrTestProj/VariableAllocator.cpp:8-60 | across any well-nested history every name resolves as it did before |
| AllocatorRuns.DeclareShadows | AntlrTestProj/VariableAllocator.cpp:30-60 | a declaration shadows every outer variable of its name and no other name |
| AllocatorRuns.ReusedFirst | AntlrTestProj/VariableAllocator.cpp:29-74 | the slot of a variable whose block has just been closed is the next to be used |
| VariableAllocators.VariableAllocator.StartBlock | AntlrTestProj/VariableAllocator.cpp:8-11 | the object's new state is that of the value model with one more empty block |
| VariableAllocators.VariableAllocator.EndBlock | AntlrTestProj/VariableAllocator.cpp:13-28 | throws exactly when no inner block is open, otherwise frees the block's slots in the hash map's order |
| VariableAllocators.VariableAllocator.Alloc | AntlrTestProj/VariableAllocator.cpp:30-45 | throws exactly on a second declaration in one block, otherwise binds the slot allocAddr gives |
| VariableAllocators.VariableAllocator.GetAddr | AntlrTestProj/VariableAllocator.cpp:47-60 | the innermost binding's address, base offset included, or nothing |
| VariableAllocators.VariableAllocator.AllocAddr | AntlrTestProj/VariableAllocator.cpp:62-74 | the slot freed last, or a new one |
| CodeGen.ResolvedUnique | AntlrTestProj/CodeGenerator.cpp:174-189 | linking has one possible result, whatever the order in which the label map is visited |
| CodeGenerators.CodeGenerator.ResolveRefs | AntlrTestProj/CodeGenerator.cpp:174-189 | succeeds exactly when every referenced label is declared below 2^31; then each reference slot holds its label's address and no other word has changed |
| CodeGenerators.CodeGenerator.Patch | AntlrTestProj/CodeGenerator.cpp:184-187 | one label's slots and no others are overwritten |
| CodeGenerators.CodeGenerator.DeclareLabel | AntlrTestProj/CodeGenerator.cpp:158-166 | throws exactly on a repeated label, otherwise binds it to the current position |
| CodeGenerators.CodeGenerator.CompileEpilogue | AntlrTestProj/CodeGenerator.cpp:149-156 | the frame allocation reserved last is patched, the frame released and the return emitted |
| Linking.ExprExtends | AntlrTestProj/MyVisitor.h:299-591 | an expression's code only appends: every settled word, label and reference before it stays |
| Linking.StmtsExtends | AntlrTestProj/MyVisitor.h:138-148 | statements only append; the one reserved word and the references are all that linking may still change |
| Linking.RefWord | AntlrTestProj/CodeGenerator.cpp:168-189 | in the linked program a reference's slot holds its label's final address |
| Functions.EpilogueWords | AntlrTestProj/CodeGenerator.cpp:142-156 | the patched frame allocation and the release have opposite sizes and are followed by the return jump |
| Functions.FuncExtends | AntlrTestProj/MyVisitor.h:108-124 | compiling a function appends to the program and gives the global allocator back unchanged |
| Functions.AllCode | AntlrTestProj/MyVisitor.h:83-124 | every function of a program has its whole code, linkage included, in the linked program |
| Frames.StmtsEvolve | AntlrTestProj/MyVisitor.h:138-148 | statements keep the allocator valid, leave outer blocks alone and never shrink the frame |
| Frames.ScopedKeeps | AntlrTestProj/MyVisitor.h:150-236 | a branch or loop body leaves every binding as it was |
| LabelGenerators.NamesDistinct | AntlrTestProj/LabelGenerator.h:12-15 | generated labels never repeat |
| LabelGenerators.LabelGenerator.Next | AntlrTestProj/LabelGenerator.h:12-15 | each call names the current counter and advances it |
| LabelDiscipline.StmtNames | AntlrTestProj/MyVisitor.h:138-297 | a statement declares exactly as many labels as its ifs, elses and whiles call for, each the next number, and refers otherwise only to the functions it calls; if a label stops it, one of those was declared before |
| LabelDiscipline.NeverClashes | AntlrTestProj/MyVisitor.h:67-124 | a program is never rejected because of a label if its functions have different names, none of them a label made up for it, and is always rejected otherwise |
| LabelDiscipline.LinksIff | AntlrTestProj/CodeGenerator.cpp:174-189 | a compiled program links if and only if main and every called name are functions or labels made up for the program, and all referenced labels lie below 2^31 |
| LabelDiscipline.LinksIffNamed | AntlrTestProj/CodeGenerator.cpp:174-189 | a compiled program of fewer than 2^31 words links if and only if main and every called name are functions or labels made up for the program |
| LabelDiscipline.EndLoopCallable | AntlrTestProj/MyVisitor.h:83-100 | func main { call L0; } compiles and links, with the call at the end loop's address, though it defines no L0 |
| LabelDiscipline.LoopEndCallable | AntlrTestProj/MyVisitor.h:201-236 | func main { call L2; } func f { while (0) { } } links as well, with the call at an address in the middle of f |
| Acceptance.ExprJudged | AntlrTestProj/MyVisitor.h:299-591 | an expression is compiled only if all its numbers are below 2^31 and all its names are visible, and then always if their addresses fit the instructions; its code has the length read off the text |
| Acceptance.StmtJudged | AntlrTestProj/MyVisitor.h:138-297 | the same for statements: names declared before their use and once in a block, frames that fit an immediate; the frame grows to the largest number of variables in scope at once |
| Acceptance.CompilesIff | AntlrTestProj/MyVisitor.h:53-124 | the compiler accepts a program if and only if its text is well formed: names, numbers, frames, number of globals, and labels as in NeverClashes |
| Acceptance.LengthOfCode | AntlrTestProj/MyVisitor.h:53-124 | the code has exactly as many words as the text says |
| Acceptance.AcceptedIff | AntlrTestProj/CodeGenerator.cpp:174-189 | if that is less than 2^31, a program compiles and links if and only if it is well formed and calls only what exists |
| Acceptance.FitsIff | AntlrTestProj/MyVisitor.h:104-124 | whether a compiled program fits the chip, as the correctness theorems assume, can be read from its text; every frame has as many cells as its function has variables in scope at once |
| Visitors.MyVisitor.GetDeclaration | AntlrTestProj/MyVisitor.h:31-43 | the innermost allocator that knows the name decides address and scope |
| Visitors.MyVisitor.VisitExpr | AntlrTestProj/MyVisitor.h:299-591 | emits exactly the code of the compile function that the correctness theorems are about, or fails as it does; which expressions fail is in `Acceptance.ExprJudged` |
| Visitors.MyVisitor.VisitVarDecl | AntlrTestProj/MyVisitor.h:238-259 | the name is bound before its initial value is compiled; state and error as in the compile function |
| Visitors.MyVisitor.VisitAssign | AntlrTestProj/MyVisitor.h:261-285 | state and error as in the compile function |
| Visitors.MyVisitor.VisitPrint | AntlrTestProj/MyVisitor.h:287-297 | state and error as in the compile function |
| Visitors.MyVisitor.VisitIf | AntlrTestProj/MyVisitor.h:150-199 | labels, blocks and jumps exactly as in the compile function, with and without else |
| Visitors.MyVisitor.VisitWhile | AntlrTestProj/MyVisitor.h:201-236 | labels, blocks and jumps exactly as in the compile function |
| Visitors.MyVisitor.VisitStmts | AntlrTestProj/MyVisitor.h:138-148 | statements in order; a bare block opens no scope |
| Visitors.MyVisitor.VisitFuncDecl | AntlrTestProj/MyVisitor.h:108-124 | label, prologue, body in an allocator of its own, epilogue with that allocator's peak |
| Visitors.MyVisitor.VisitProg | AntlrTestProj/MyVisitor.h:67-101 | preamble, globals, call of main, end loop, functions |
| Visitors.VisitAll | AntlrTestProj/MyVisitor.h:58-65 | succeeds exactly when compilation and linking do, and for code shorter than 2^31 words exactly for the programs whose text is well formed and calls only what exists; its result is a linked program in the sense of the correctness theorems, as long as the text says |
| Agreement.LocalLookup | AntlrTestProj/VariableAllocator.cpp:47-60 | where memory represents the scopes, a name's innermost slot holds the value of its innermost source variable |
| Agreement.LocalUpdate | AntlrTestProj/VariableAllocator.cpp:62-74 | writing that slot represents the assignment and disturbs no other variable |
| Expressions.AluMatches | AntlrTestProj/MyVisitor.h:304-591 | the operation emitted for every binary operator computes it, with or and xor read as the AND they compile to; what each computes is in `Arithmetic.AluMeans` and `Arithmetic.OperatorMeans` |
| Expressions.SimExpr | AntlrTestProj/MyVisitor.h:299-591 | the code of every expression pushes exactly its value and leaves memory below the stack pointer, variables, fp and output alone |
| Statements.SimTest | AntlrTestProj/MyVisitor.h:152-170 | a test jumps to its label exactly when the condition is zero |
| Statements.StoreAgrees | AntlrTestProj/MyVisitor.h:261-285 | storing to the address the compiler resolved represents the source assignment, for locals and globals |
| Statements.SimDeclare | AntlrTestProj/MyVisitor.h:238-259 | a declaration's code, run where a slot may hold a dead variable's value, arrives at the declared and initialised store |
| Statements.SimAssign | AntlrTestProj/MyVisitor.h:261-285 | an assignment's code arrives at the updated store with the stack as it was |
| Statements.SimPrint | AntlrTestProj/MyVisitor.h:287-297 | print's code outputs exactly the value, once |
| Simulation.SimIf | AntlrTestProj/MyVisitor.h:150-199 | the linked code of any if does what the source does, arbitrarily nested |
| Simulation.SimWhile | AntlrTestProj/MyVisitor.h:201-236 | the linked code of any loop does what the source does for every number of turns; with exhausted fuel it has run at least that long with the same output and is before the code of the very statement at which the source has stopped, with every variable in the slot the compiler gave it there |
| Simulation.SimCall | AntlrTestProj/MyVisitor.h:126-136 | a call runs the body in a frame above the caller's and returns behind the call with fp, stack and all caller memory as they were, to any depth; while it is still running, the address behind this very call is on the stack, its frame lies above the caller's, and the caller's variables are in the slots they had at the call |
| Simulation.SimFunction | AntlrTestProj/CodeGenerator.cpp:142-156 | entering through the linkage saves ppc and allocates the frame; leaving releases it and returns to the saved address |
| Activations.CallActive | AntlrTestProj/MyVisitor.h:126-136 | while a call runs, the address behind it and the variables of its caller, in their slots at that call, stay in place under the frames of all calls above it |
| Activations.PointStatement | AntlrTestProj/MyVisitor.h:138-236 | the compiler reaches at a place in a statement, through its branches, bodies and lists, exactly the statement that stands there in the program's text |
| Activations.FrameHeld | AntlrTestProj/CodeGenerator.cpp:142-156 | of any number of active calls, each has its frame right above its caller's, and waits or stands at its own place |
| Simulation.SimStmts | AntlrTestProj/MyVisitor.h:138-148 | statement preservation: the machine goes from the first address of the code to one past the last with the same globals, locals and output and an unchanged stack; an unfinished run stands before the code of the statement at the source's place, with the compiler's slots there, under the calls the source is in |
| Simulation.EnterFunction | AntlrTestProj/CodeGenerator.cpp:142-147 | two instructions push the return address and move fp by the frame size |
| Simulation.LeaveFunction | AntlrTestProj/CodeGenerator.cpp:149-156 | two instructions move fp back and jump to the popped address |
| Correctness.SimGlobals | AntlrTestProj/MyVisitor.h:67-81 | the code of the global declarations arrives at the source's initial globals |
| Correctness.ReachMain | AntlrTestProj/MyVisitor.h:67-101 | from reset the machine reaches main's first instruction with the end loop as return address and the globals set |
| Correctness.ProgramOutcome | AntlrTestProj/MyVisitor.h:58-101 | compiler correctness: a source run that finishes is matched by a halt with the same output and globals; one that does not by a machine run at least as long, with the same output so far, that is before the very statement the source would start next, inside the same calls made at the same places; no state of either run lets the stack or the frames leave their place |
| Correctness.StackAndFrames | AntlrTestProj/CodeGenerator.cpp:142-156 | at such a point the stack has one word per active call, the address behind the very call statement at which that caller waits; fp is 1024 plus the active frames; every caller's frame holds its variables in the slots the compiler chose at that call, and the innermost frame in those at the next statement |
| Correctness.NeverOverflows | AntlrTestProj/MyVisitor.h:53-101 | in no state of any run of a well-defined program that fits does the stack reach the globals at 200 or a frame leave the memory |
| Correctness.StaysHalted | AntlrTestProj/MyVisitor.h:83-100 | a finished machine never leaves the end loop, prints nothing more, and changes no cell but the lowest of the stack |
| Correctness.FinishedShows | AntlrTestProj/MyVisitor.h:83-100 | so the source program's output and globals can be read from it for ever |
| Correctness.HaltsIff | AntlrTestProj/MyVisitor.h:58-101 | the compiled program halts if and only if the source program terminates |
| Correctness.HaltedOutput | AntlrTestProj/MyVisitor.h:58-101 | whenever it is halted it has printed exactly what the source program prints |
| Dialects.PlainRun | AntlrTestProj/MyVisitor.h:299-591 | a program without or and xor means the same as written and as compiled, so the theorems hold of the written meaning |
| Dialects.SameRun | AntlrTestProj/MyVisitor.h:299-591 | a run in which every or that is evaluated has equal operands and every xor two zeros has the same outcome as written and as compiled |
| Dialects.OrExact | AntlrTestProj/MyVisitor.h:304-320 | the code of or is right exactly when both operands are equal |
| Dialects.XorExact | AntlrTestProj/MyVisitor.h:322-338 | the code of xor is right exactly when both operands are zero |
| Dialects.OthersExact | AntlrTestProj/MyVisitor.h:340-591 | the code of every other operator is right on all operands, right being what `Arithmetic.OperatorMeans` says |
| Dialects.PrintOrExact | AntlrTestProj/MyVisitor.h:304-320 | the two readings of a whole program that prints an or differ exactly when its operands do |
| Dialects.PrintOrCompiles | AntlrTestProj/Assembler.h:325-334 | that program compiles if and only if both operands are below 2^31; it then links and fits |
| Dialects.PrintOrRuns | AntlrTestProj/MyVisitor.h:304-320 | compiled and run, it halts, having printed what is written if and only if its operands are equal |
| Instructions.StepBinary | Calc2/src/FetchStage.sv:24-151 | the word emitted for a binary operation pops B, then A, and pushes A op B |
| Instructions.StepJumpZero | Calc2/src/BranchConditioner.sv:1-20 | the conditional jump goes to B exactly when A is zero and records the address behind it |
| HardwareRefinement.OneClock | Calc2/src/Processor.sv:258-340 | every clock stays within the current instruction or completes exactly one, whatever the debugger requests |
| HardwareRefinement.EveryClock | Calc2/src/Processor.sv:258-340 | after any clocks with any halt and resume requests the design is inside the instruction that follows the completed ones |
| HardwareRefinement.EveryEightClocks | Calc2/src/RomPort.sv:20-43 | an undisturbed run completes one instruction every eight clocks, memory handshakes included |
| HardwareRefinement.Refinement | Calc2/src/Processor.sv:89-340 | 1 + 8n clocks after reset the registers, memory and output of the clocked design are those of n instructions |
| HardwareRefinement.LogOf | Calc2/src/mmio.sv:14-43 | what has been output never runs ahead of the current instruction |
| EndToEnd.OutputIsPrefix | Calc2/src/Processor.sv:89-340 | on every clock, for any debugger requests, the processor running a compiled program has output a prefix of what the source program prints |
| EndToEnd.ProcessorComputes | Calc2/src/Processor.sv:89-340 | whatever the debugger requests, once a certain number of instructions is completed the processor has output exactly what a terminating source program prints, for ever, and between any two instructions its globals are in memory |
| EndToEnd.ProcessorComputesInTime | Calc2/src/Processor.sv:89-340 | left alone after its start, the processor has done so within eight clocks per instruction |
| EndToEnd.ProcessorHaltsIff | Calc2/src/Processor.sv:89-340 | under any debugger that lets it go on again and again, the processor ends up in the end loop if and only if the source program terminates; if it does so under any other, the program terminates |
| CalcRefinement.OneInstruction | Calc/Processor.sv:141-213 | eight clocks of the fetch, load, load and store machines are exactly one instruction, decoded as `CalcAssembly.DecodeOp` says |
| CalcRefinement.Refinement | Calc/Processor.sv:145-213 | for every program, initial memory and n, pc, sp, memory and output after 1 + 8n clocks are those of n instructions |
| CalcRefinement.EveryClock | Calc/Processor.sv:145-202 | in every reachable clock state at most one stage is busy and it is the one the main state names, sp is never moved both ways, memory and jumps are written only while storing |
| CalcRefinement.LoadBPhase | Calc/LoadStage.sv:28-77 | operand B: the value, the pop and the next memory read |
| CalcRefinement.LoadAPhase | Calc/LoadStage.sv:28-77 | operand A, possibly addressed by B |
| CalcRefinement.StorePhase | Calc/SaveStage.sv:26-78 | the result is pushed, written to address B, or decides the jump |
| CalcRefinement.FetchPhase | Calc/FetchStage.sv:42-101 | the word at pc is decoded, to the fields the assembler packed, and pc advanced once |
| CalcAssembly.DecodeOp | Calc/assembly/assembly.py:33-54 | the fetch stage takes every word apart into the sources, operation and destination the assembler packed |
| CalcAssembly.UnitMeans | Calc/ALU.sv:1-215 | each of the sixteen operations computes what its relation says, LE being the unsigned strict comparison |
| CalcAssembly.ListedWords | Calc/rom.mif:8-33 | the assembler's example program consists of the words of the memory image in the repository |
| CalcAssembly.StepConst | Calc/assembly/assembly.py:49-53 | a constant is pushed |
| CalcAssembly.StepBinary | Calc/assembly/assembly.py:60-73 | B is popped, then A, and exactly the result of A op B is pushed |
| CalcAssembly.StepLoad | Calc/assembly/assembly.py:57-57 | LMEM replaces the address on the stack by the cell or the output it selects |
| CalcAssembly.StepStore | Calc/assembly/assembly.py:58-58 | STMEM pops the address, then the value, and stores it there or to the output |
| CalcAssembly.StepJump | Calc/assembly/assembly.py:74-74 | CJMP pops the target, then the condition, and jumps if its lowest bit is set |
| CalcDesign.StackPointer.Tick | Calc/StackPointer.sv:11-23 | the pointer moves up or down by one, with wrap-around, and stays put on both requests or none |
| CalcDesign.ProgramCounter.Tick | Calc/ProgramCounter.sv:11-24 | a jump takes precedence over the increment |
| CalcDesign.Mmio.Tick | Calc/mmio.sv:13-35 | address bit 30 separates the output register from memory; a read in the clock of a write sees the new data |
| CalcDesign.Processor.Tick | Calc/Processor.sv:141-213 | one clock edge on the wired objects is one step of the clocked model |
| CalcDesign.Processor.Run | Calc/Processor.sv:141-213 | any number of edges is the clocked model's run, to which the refinement applies |
| StableSorting.StableSortUnique | rv32itest/coremark/core_list_join.c:499-595 | stably sorted by the same keys, a list has one possible order |
| StableSorting.SortRestores | rv32itest/coremark/core_list_join.c:158-235 | sorting by strictly increasing keys undoes any rearrangement |
| StableSorting.ReversalUndoneIffIncreasing | rv32itest/coremark/core_list_join.c:158-235 | sorting a reversed list restores it if and only if its keys were strictly increasing; used below for a search that misses |
| CoreLists.ListFind | rv32itest/coremark/core_list_join.c:434-449 | the first matching node, by index or by low byte, or null if none matches |
| CoreLists.ListReverse | rv32itest/coremark/core_list_join.c:464-476 | in place, the same nodes in reverse order, terminated |
| CoreLists.ListRemove | rv32itest/coremark/core_list_join.c:376-390 | the next node is unlinked after exchanging data with this one |
| CoreLists.ListUndoRemove | rv32itest/coremark/core_list_join.c:407-419 | the exact inverse of the removal, links and data |
| CoreLists.CacheNext | rv32itest/coremark/core_list_join.c:188-195 | the node behind the one found moves to second place, if there is one, and no other node is lost or reordered |
| Comparators.CalcFunc | rv32itest/coremark/core_list_join.c:69-114 | a cached result is returned without effect; otherwise the kernel chosen by bits 0 to 2 is called with its parameter, the checksums are updated, and the result is cached under the same upper byte |
| Comparators.DatumParts | rv32itest/coremark/core_list_join.c:69-90 | the parts of every datum: bits 8 to 15 are the backup, bit 7 the flag, bits 3 to 6 the parameter that the kernels get twice over, bits 0 to 2 the kind |
| Comparators.Compare | rv32itest/coremark/core_list_join.c:120-142 | the difference of the lasting keys, and what the comparison writes into both data |
| Mergesort.Next | rv32itest/coremark/core_list_join.c:533-566 | the merge takes the smaller head, on a tie that of the first run, and keeps what is merged sorted and stable |
| Mergesort.MergeRuns | rv32itest/coremark/core_list_join.c:530-577 | two runs are merged onto the list's end in place |
| Mergesort.Pass | rv32itest/coremark/core_list_join.c:507-590 | a pass over runs of a width leaves runs of twice that width, and counts at most one merge exactly when one run remains |
| Mergesort.ListMergesort | rv32itest/coremark/core_list_join.c:499-595 | the sort terminates on every non-empty list with exactly the same nodes, stably sorted by keys fixed at each node's first comparison, null-terminated; with two nodes or more every node is compared |
| Runs.TakeSmaller | rv32itest/coremark/core_list_join.c:555-563 | taking the smaller head, or the first run's on a tie, keeps the merge stable |
| Runs.MergedRuns | rv32itest/coremark/core_list_join.c:533-580 | finished merges of neighbouring runs make up runs of double width |
| ListBench.SearchOnce | rv32itest/coremark/core_list_join.c:175-196 | which node is found, the new order of the list, and the score, exactly |
| ListBench.Search | rv32itest/coremark/core_list_join.c:170-203 | the order and the last key after all searches, as computed on the list's contents alone, and the sum of the searches' contributions, modulo 2^16 |
| Searches.ResultIsSum | rv32itest/coremark/core_list_join.c:170-203 | score, hits and misses together are the sum over the searches: 4 for a hit and one more if bits 0 and 9 of the datum are set, -1 for a miss and one more if bit 8 of the second datum is |
| ListBench.ChecksumFrom | rv32itest/coremark/core_list_join.c:208-217 | the head's datum, not the visited node's, is added once per remaining node |
| ListBench.SortByResult | rv32itest/coremark/core_list_join.c:204-206 | for a positive index a stable sort by 7-bit results, all cached afterwards, upper bytes kept; otherwise nothing |
| ListBench.RemoveAndUndo | rv32itest/coremark/core_list_join.c:207-221 | the checksum of the list without its second datum, and links and data back as they were |
| Searches.CountedNodes | rv32itest/coremark/core_list_join.c:207-222 | the first checksum counts the nodes from the first that fits on, or all but the head if none does, of the list without its second datum |
| ListBench.SortByIndex | rv32itest/coremark/core_list_join.c:222-223 | a stable sort by index that recovers every lower byte from the upper one |
| ListBench.BenchList | rv32itest/coremark/core_list_join.c:158-235 | the whole benchmark exactly: final order, data and result, which starts from the sum of the searches' contributions; the chain from res->list is the old one if and only if the old order is the stable sort by index of the disturbed list, which strictly increasing indices guarantee; every pointer to data and index is as before |
| Restoring.MissRestoresIff | rv32itest/coremark/core_list_join.c:158-235 | one search that misses is undone if and only if the indices increase strictly |
| Restoring.OneSearchRestoresIff | rv32itest/coremark/core_list_join.c:158-235 | so is one search for index 0 on every list, whether it misses or not |
| Restoring.AlwaysRestoredIff | rv32itest/coremark/core_list_join.c:158-235 | every number of searches from every index up to 0 is undone if and only if the indices increase strictly |
| Restoring.BenchOnce | rv32itest/coremark/core_list_join.c:158-235 | the benchmark itself, with seed3 = 1 and finder_idx = 0, restores a list if and only if its indices increase strictly |
| Restoring.NotRestored | rv32itest/coremark/core_list_join.c:158-235 | nodes with indices 5, 5, 6 run through the benchmark: the chain from res->list has lost the second one |
| Searches.IndexGrows | rv32itest/coremark/core_list_join.c:196-197 | the closed form of the index sought after n searches obeys the code's increment, its stop after wrap-around included |
| Crc.CrcU8 | rv32itest/coremark/core_util.c:142-165 | the bit loop folds the byte's bits, lowest first |
| Crc.CrcU16 | rv32itest/coremark/core_util.c:166-170 | low byte then high byte is the fold over all sixteen bits |
| Crc.CrcU32 | rv32itest/coremark/core_util.c:171-175 | low half then high half is the fold over all thirty-two bits |
| Crc.FoldLinear | rv32itest/coremark/core_util.c:142-178 | the checksum of a bitwise difference, message and register, is the difference of the checksums |
| Crc.Remainder | rv32itest/coremark/core_util.c:142-165 | the register after any message is the remainder of dividing it, with the initial register on top, by x^16 + x^15 + x^2 + 1 |
| Crc.BurstDetected | rv32itest/coremark/core_util.c:142-165 | messages that differ within sixteen adjacent bits never share a checksum |
| TokenForms.StatesAreForms | rv32itest/coremark/core_state.c:184-277 | each state is reached by exactly the texts of its form: optional sign and digits, float, exponent prefixes, scientific |
| TokenForms.InvalidIsUnviable | rv32itest/coremark/core_state.c:184-277 | a text is invalid exactly when it is neither a number nor the beginning of one |
| TokenForms.InvalidStays | rv32itest/coremark/core_state.c:191-191 | nothing appended makes an invalid text valid |
| CoreState.Transition | rv32itest/coremark/core_state.c:197-273 | the next state and the counters for every state and character |
| CoreState.CountedPlaces | rv32itest/coremark/core_state.c:197-273 | a call adds to a state's counter the number of places where it is left for another; for invalid, where it is entered from the start or from scientific; for scientific, nothing |
| CoreState.CoreStateTransition | rv32itest/coremark/core_state.c:184-277 | returns the class of the token up to its comma, or stops behind the shortest unviable prefix; always advances; counts exactly what it looked at |
| CoreState.Scan | rv32itest/coremark/core_state.c:59-69 | repeated calls terminate and partition the whole buffer; every call is counted under its state, and the transition counters are exact |
| CoreState.TrackedPlaces | rv32itest/coremark/core_state.c:59-69 | the transition counters of a scan are the numbers of those places in all its calls |
| CoreState.CountsAddUp | rv32itest/coremark/core_state.c:59-69 | the final counters of a scan add up to the number of calls |
| CoreState.PiecesMakeText | rv32itest/coremark/core_state.c:59-69 | the pieces of a scan put together are the scanned text |
| CoreState.UndoneIff | rv32itest/coremark/core_state.c:70-92 | corrupting twice with one seed restores the buffer if and only if the seed is 0 or no byte at a corrupted place turns into a comma |
| CoreState.NotUndone | rv32itest/coremark/core_state.c:70-92 | for a step that calc_func passes, a buffer on which both scans end and which is not restored: a minus sign becomes a comma |
| CoreState.PatternRejected | rv32itest/coremark/core_state.c:104-104 | the pattern -87e+832, listed as scientific, is invalid to the recogniser, whatever follows |
| CoreState.CoreBenchState | rv32itest/coremark/core_state.c:43-99 | both scans, both corruptions and the checksum over all counters, exactly |
| Matrix.ElementAt | rv32itest/coremark/core_matrix.c:279-308 | element (i, j) of a kernel's result stands at index i * N + j |
| Matrix.ProductExact | rv32itest/coremark/core_matrix.c:279-290 | each element of the product is the mathematical one whenever that fits 32 bits |
| Matrix.ProductComposes | rv32itest/coremark/core_matrix.c:265-290 | the product of two matrices, times a vector, is the first times the product of the second with the vector |
| Matrix.ColumnOf | rv32itest/coremark/core_matrix.c:265-273 | the product with a unit vector is a column of the matrix |
| Matrix.BitsExtracted | rv32itest/coremark/core_matrix.c:47-47 | what is summed of a product is its bits 2 to 5 times its bits 5 to 11, whatever the others are |
| Matrix.MulConst | rv32itest/coremark/core_matrix.c:240-247 | the result holds every element times the constant, wrapped; nothing else changes |
| Matrix.MulMatrix | rv32itest/coremark/core_matrix.c:279-308 | the result holds the product, or the sum of products' extracted bits, wrapped; nothing else changes |
| Matrix.MulVect | rv32itest/coremark/core_matrix.c:265-273 | the result's first N elements are the product with a vector; nothing else changes |
| Matrix.AddConst | rv32itest/coremark/core_matrix.c:252-259 | every element of the matrix has the constant added, wrapped to 16 bits |
| Matrix.AddedAt | rv32itest/coremark/core_matrix.c:252-259 | every element of the matrix is congruent to the old one plus the constant, and the others are kept |
| Matrix.AddedBack | rv32itest/coremark/core_matrix.c:117-148 | adding a value and then its negation restores the matrix for every 16-bit value, wrap-around included |
| Matrix.MatrixSum | rv32itest/coremark/core_matrix.c:216-234 | the result is 10 for each clip and 1 for each rise that is no clip, modulo 2^16, the clips being the places where the elements since the last clip add up to more than the clip value |
| Matrix.SumCounts | rv32itest/coremark/core_matrix.c:216-234 | for any such set of clips the recursive sum is that count |
| Matrix.BigBits | rv32itest/coremark/core_matrix.c:46-46 | the clip value has the datum's lower twelve bits and the upper four set |
| Matrix.MatrixTest | rv32itest/coremark/core_matrix.c:117-148 | operands afterwards as before for every value; the checksum is that of the four results in turn |
| Matrix.Side | rv32itest/coremark/core_matrix.c:174-178 | N is one less than the first i for which 8 i^2, computed in 32 bits, reaches the block size |
| Matrix.SideIff | rv32itest/coremark/core_matrix.c:174-178 | that N is the largest with 8 N^2 below the block size if and only if the block size is at most 0xFFFD5020, where the multiplication begins to wrap |
| Matrix.SideEndsIff | rv32itest/coremark/core_matrix.c:174-178 | the search ends at all if and only if the block size is at most 0xFFFFFFC8 |
| Matrix.Layout | rv32itest/coremark/core_matrix.c:179-197 | in an aligned block the three matrices do not overlap and stay in bounds |
| Bytes.WordsOfProgram | AntlrTestProj/HexExport.cpp:20-32 | the words assembled from a program's little-endian bytes are the program |
| UartLoader.UartRamLoader.Tick | Calc/UartRamLoader.sv:23-51 | for bytes with any idle clocks between them, the writes are the little-endian words at consecutive addresses modulo the memory's size, and no others |
| UartLoader.LoadsProgram | Calc/UartRamLoader.sv:23-51 | a program's bytes, sent to a memory large enough, put every word in its place |
| HexText.ProgramRead | AntlrTestProj/HexExport.cpp:18-34 | parsing the exported text of any program gives its little-endian bytes |
| HexTokens.HexIntIff | Calc2/tools/uart_debug.py:349-352 | a word is a number exactly if it is a sign, a prefix and hexadecimal digits with single underscores between them, and has their value |
| HexTokens.SpaceSeparates | Calc2/tools/uart_debug.py:344-344 | blanks, tabs and line ends separate words and do nothing else |
| HexTokens.ForeignSkipped | Calc2/tools/uart_debug.py:344-358 | a word that is no number and no comment has no effect, wherever it stands in a line |
| HexTokens.NumberFirst | Calc2/tools/uart_debug.py:349-356 | a number below 256 is a byte of the line, any other number an error |
| HexTokens.ForeignBetween | Calc2/tools/uart_debug.py:325-362 | a line with two bytes and a foreign word between them reads as the two bytes |
| HexText.DumpRead | Calc2/tools/uart_debug.py:367-382 | parsing a dump's text gives its data for every positive line width, and nothing for a negative one |
| HexText.DumpRoundTrip | Calc2/tools/uart_debug.py:325-382 | writing then parsing is the identity if and only if the line width is positive or there is no data |
| HexFiles.SaveHex | AntlrTestProj/HexExport.cpp:10-34 | rejects exactly the programs larger than the depth; otherwise writes the exported text |
| HexFiles.WriteHexFile | Calc2/tools/uart_debug.py:367-382 | fails exactly on width zero; otherwise writes header, lines and trailer |
| HexFiles.ParseHexFile | Calc2/tools/uart_debug.py:325-365 | the loop gives what the reading functions on text define: comments end a line, what is no number is skipped, a number that is no byte is an error |
| UartDebug.UARTDebugger.ExecuteCommand | Calc2/tools/uart_debug.py:94-165 | a payload over 255 bytes is rejected without effect on the device, yet the packet number is spent |
| UartDebug.UARTDebugger.ReadProg | Calc2/tools/uart_debug.py:195-206 | error cases and, otherwise, the memory range |
| UartDebug.UARTDebugger.WriteProg | Calc2/tools/uart_debug.py:208-221 | error cases, the undocumented limit of 251 bytes included, and the exact memory change |
| UartDebug.UARTDebugger.UploadFirmware | Calc2/tools/uart_debug.py:387-423 | writes exactly the parsed bytes from the start address; it fails exactly when a chunk starts outside 32 bits, having written the chunks before it |
| UartDebug.UARTDebugger.DumpFirmware | Calc2/tools/uart_debug.py:425-465 | the text of exactly the requested range; memory is unchanged, and so is the core after success |
| UartDebug.Uploaded | Calc2/tools/uart_debug.py:387-423 | after an upload the range holds the data and the rest of memory is as it was |
| UartDebug.UploadDump | Calc2/tools/uart_debug.py:387-465 | the text dumped from the uploaded range parses to the uploaded bytes |
| UartDebug.UploadThenDump | Calc2/tools/uart_debug.py:387-465 | the tool's upload, dump and parse in turn return the file's data, or fail exactly when the file is invalid or a chunk starts outside 32 bits |
| UartDebug.ProgramUploaded | AntlrTestProj/HexExport.cpp:18-34 | the compiler's exported file, uploaded to address 0, puts the program's words into program memory |
| UartDebug.Install | AntlrTestProj/HexExport.cpp:10-34 | exporting and uploading a program puts its words into program memory, and succeeds exactly when the program is within the depth and its chunks fit |

## Left out

- Correctness.ProgramOutcome: assumes that the program, its data and its stack fit the chip: code within 8192 words, globals below cell 1024, the largest frame times the call depth below cell 32768, and return addresses plus the deepest expression within the 200 stack cells (`MyVisitor` checks none of these); says nothing of a source run that reads an unset or unknown variable, calls an unknown function, or exceeds the assumed call depth.
- Correctness.HaltsIff: requires that no run does one of those.
- Restoring.AlwaysRestoredIff: for positive indices the sort by result comes in between, whose keys the kernels may choose; there `ListBench.BenchList` gives the condition in terms of the sorted order.
- Comparators.CalcFunc: the state and matrix kernels return an arbitrary checksum and do not touch the list; their calls are recorded with parameter and checksum.
- Mergesort.ListMergesort: for lists of fewer than 2^31 nodes, and not for the empty list, on which the source dereferences a null tail.
- Matrix.ProductExact: where the exact product does not fit 32 bits, wrap-around is assumed, though C leaves it undefined.
- CoreState.CoreBenchState: requires that the corrupted buffer still ends with a NUL; otherwise the source reads past it. The checksum register is a sequence of bits.
- The lexer and the parser: the model starts from the syntax tree. Numbers are natural numbers; what `stoul` does with ones beyond the width of `unsigned long` is not modelled.
- Overflow of `size_t` counters and addresses in the compiler.
- Division and remainder by zero are whatever a function given to machine and source says.
- The iteration order of `unordered_map` is an arbitrary permutation, the same function throughout a run.
- The operand sources STACK_IMM and ADDR_IMM of the Calc2 decoder: no addressing mode selects them.
- Memory access by the debugger while Calc2 is halted, and its clock enable, taken as always on.
- Calc2's bus, peripherals, arbiter and initialisation over the serial line (`Calc2/src/top.sv`, `MemoryInterconnect.sv`, `UartMemInit.sv`): the wiring is that of `ProcessorTb.sv`.
- Altera memories: one-cycle synchronous reads that see a write of the same cycle.
- Console tracing, file opening, MIF export, the disassembler's names.
- `core_list_init`, `core_init_state`, and the element values `core_init_matrix` computes.
- `core_bench_matrix` beyond `matrix_test`, `core_main.c`, the `core_portme` files, printing and floating point support, Dhrystone.
- The serial port, time-outs, unmatched packet numbers and retries: the line delivers every packet.
- In `uart_debug.py`, reset, the commands on data memory, argument parsing, and digits outside ASCII in hex files.
- Seven-segment display, adder, clock and timer modules, testbenches and board files.
