# MSL tool chain, back end and run-time structures

A Dafny model of the MSL tool chain: the compiler from the tokens of an expression down to byte commands (MSLC), the object files
between compiler and linker, the linker that turns the byte commands of all modules into flat code of the virtual machine (MSLL), and the
free lists and the linked list of the virtual machine's heap (MSLVM). Verify with `dafny verify dfyconfig.toml`.

The parts meet twice. In `SourceToMachine` and `Literals` the tokens of an expression or an assignment are built into postfix form and a
tree, translated to pseudo operations, compiled to byte commands with lazily loaded operands, linked, and run on the virtual machine; the
register or the memory then holds what the tree means. In `WholeProgram` whole structured programs of such trees are written down,
lowered to labels and jumps, compiled, linked, loaded and started: the machine halts, faults or runs for ever exactly as the program does.

- Front end: `Tokens`, `PostfixSpec`, `Postfix`, `PrintedTrees`, `PostfixRoundTrip`, `CallRoundTrip`, `SuffixChains`,
  `RawTokens` (shunting yard), `SyntaxTrees` (trees from postfix
  form), `ConstantsTable`, `ExpressionsTranslator`, `SourceExpressions`, `Translatable` (pseudo operations of
  expressions), `OperatorOrder`, `WordOperators`, `OperatorMeaning` (which operator
  binds first, and what each symbol means).
- Control flow: `Syntax`, `LoweringSpec`, `BreakScoping`, `Lowering`, `StructuredMeaning`, `FirstBranch`, `LoweringCorrect`,
  `LoweringIntended`, `OwnLines` (statements on the line of an if, else or while), `BudgetedRuns`.
- Code generation: `Pseudo`, `Registers`, `CodegenSpec`, `Codegen`, `RegisterBalance`, `StackEvaluator`, `CodegenCorrect`,
  `CodegenStatic`, `CodegenRun`, `Expressions`, `CompiledCode`, `StackHeight`, `RegisterPressure`, `AssignmentPressure`, `Frames`.
- Linker and machine: `Words`, `ByteCode`, `Machine`, `MachineLaws` (arithmetic on integers and bits), `MemoryLaws`, `ByteMachine`, `VM`,
  `LinkSpec`, `LinkOrder`, `Buffers`, `ReadOnlyData`,
  `Translator`, `Simulation`, `LinkedRun`, `LinkedModules`, `ModuleVariables`, `UnperformedOperations`.
- Whole programs: `Startup` (loaded and started), `LevelCode`, `FlatCodegen`, `CompiledProgram`, `ProgramToMachine`, `ProgramStart`,
  `CodeSize`, `SourceProgram` (from structured programs in tokens to the machine), `SourceTrees`, `TreePrograms`, `ProgramTable`,
  `ProgramPressure`, `WholeProgram` (from structured programs of trees), `LoopProgram` (one of them), `StrayJumps`, `SourceToMachine`,
  `Literals`.
- Files: `ObjectFormat`, `ObjectRoundTrip`, `CodeFormat`, `Packer`, `ObjectsReader`, `ConstantIdentity`, `ExecutableImage`.
- Structures: `LinkedList`, `Intervals`, `FreeLists`, `HeapRuns`, `HeapExact`, `HeapFreeIntervals`, `ChunkArrays`.

Where the original changes state, the model does too: `Translator`, `ByteTranslationState`, `RegistersTable`, `BasicSyntaxTranslator`,
`PseudoTranslationState`, `ImmediateConstantsTable`, `FrameStack`, `ObjectsReader`, `LinkedList`, `HeapFreeIntervals` and `ChunkArray` are
classes whose methods are proved against functions, and the lemmas are about these functions. An error report of the original is a failed
result here. The meaning of byte commands and of VM operations follows MSLVM/source/execution/vm_execution.cpp and
MSLVM/source/memory/vm_memory.cpp; the functions of the heap's free lists are in that file too, and those of the tree builder in
MSLC/source/IR/PseudoTranslation/Postfix/APSTBuilder.cpp, while the table below names their declarations. Integers are 64-bit words with wrap-around, -2^63 divided by -1
included, and shift counts are taken modulo 64.

Functions that several parts share have statements of their own, which do not name them: `MachineLaws` and `MemoryLaws` for what both machines
and the reference meanings compute and store, `OperatorMeaning` and `OperatorOrder` for the operator table, `OwnLines` for which tokens are a
statement on its own line.

Where the code departs from what it evidently means to do, the model follows the code, shows an input, and says when the two agree:

- A variable declared in a block can lie outside the stack size written for its module, and then in the next module's range; inside exactly
  when enough is declared after it (`Frames.InsideModule`, `ModuleVariables.ResolvedInRange`).
- A free list that reaches both ends of the address space is merged across its gap (`Intervals.CoalescingIsExact`).
- Rounding a size up may wrap, and allocation then takes nothing (`HeapRuns.AllocateIsExact`). Aligned allocation does not round a size that
  freeing rounds; the block comes back exactly when there is nothing to round (`HeapExact.AlignedComesBack`).
- The initial heap offers the address behind its last one (`Startup.HeapOffersItsEnd`), and setting it up again adds it a second time
  (`HeapRuns.SetTwiceOverlaps`, `FreeLists.AddIsExact`).
- A symbol that is neither variable nor function is written ten bytes short (`ObjectRoundTrip.MoRoundTrip`).
- A symbol of a module linked later has no base yet (`LinkedModules.SymbolAddress`).
- An assignment that leaves its value and a conditional jump each keep a register (`RegisterBalance.TranslationKeepsCount`).
- A cycle without a block is dropped; the translation is the intended one exactly when no translated cycle lacks a block
  (`LoweringIntended.LoweringIsIntended`, `LoweringCorrect.CycleWithoutBlockIsDropped`). A break or continue outside every cycle stays
  unresolved, a jump to label 0; the program links all the same exactly when label 0 is one of its own, and then goes there
  (`BreakScoping.ClosedIffScoped`, `StrayJumps.StrayProgramLinks`, `StrayJumps.StrayBreakRepeats`).
- An else behind an else passes the check that means to refuse it, and both run; only the first branch whose condition holds runs exactly when
  nothing that does anything is reached behind the first else, as when the else is last. A block behind the own line of an else that is not
  last is dropped (`LoweringCorrect.BothElsesRun`, `FirstBranch.AcceptedGroup`, `FirstBranch.BlockIsDropped`).
- The compound operator ~= leaves its target on the operand stack; a statement leaves the stack as it was exactly when it has none
  (`StackHeight.ComplementExample`, `StackHeight.ComplementKeepsTarget`).
- A chain of suffix operators comes out backwards, rightly exactly when it is its own reverse (`SuffixChains.ChainIsExact`).
- A call keeps the tokens of a single-token argument for the next one and splits arguments at commas inside brackets; it is built rightly
  exactly when neither can happen (`CallRoundTrip.CallIsExact`).
- An assignment is no operand of an operator, parentheses or not; an expression is translated exactly when none is one and the registers
  suffice (`Translatable.OperatorTranslates`, `Translatable.AssignmentTranslates`).

## Model

| member | source | states |
|---|---|---|
| WholeProgram.WholeProgramRuns | MSLC/source/IR/PseudoTranslation/PseudoTranslator.cpp:13-60 | A program of assignments, ifs, cycles, breaks and continues over expression trees, branches and cycles with blocks or with a statement on their own line, written in tokens, its literals interned as they are met, lowered, translated, linked, loaded and started: the VM halts with a memory if and only if the program, run tree by tree with one branch of each if, ends with it, and faults if and only if it divides by zero |
| ProgramPressure.ProgramTranslates | MSLC/source/IR/ByteTranslation/ByteCommandsHandler.cpp:11-55 | Code generation accepts a whole program if and only if its expressions are well typed and at each statement and condition as many registers are free as it needs, one having been kept for every conditional jump and nested assignment before it |
| ProgramTable.AllTurn | MSLC/source/IR/PseudoTranslation/ExpressionsTranslator.cpp:336-346 | Translating a program from front to back, the constants interned as they are met, gives every statement and condition the code that the finished table gives it, and puts every literal in that table |
| TreePrograms.AllRun | MSLC/source/IR/PseudoTranslation/BasicSyntaxTranslator.cpp:8-325 | Executing a written program statement by statement goes as running its trees does, for every memory and every number of rounds |
| SourceTrees.HeaderSplits | MSLC/source/IR/PseudoTranslation/BasicSyntaxTranslator.cpp:73-102 | A header written from a condition tree and the tokens behind it is split back into exactly the tokens of that tree and those |
| TreePrograms.BranchLowers | MSLC/source/IR/PseudoTranslation/BasicSyntaxTranslator.cpp:117-127 | A branch is translated the same whether its one statement stands on the line of its if, elif or else or alone in a block |
| TreePrograms.BranchExecutes | MSLC/source/IR/PseudoTranslation/BasicSyntaxTranslator.cpp:117-127 | And is executed the same |
| CodeSize.LinkedSize | MSLL/source/Translators/MSLVM_1/MSLVM_1Translator.cpp:10-97 | The addresses of a program's operations are words whenever 24 times the length of its flat code is below 2^64 |
| LoopProgram.LoopRuns | MSLVM/source/api/virtual_machine.cpp:60-81 | while (x) (x = x - y) meets all that is asked of programs, for every memory, so it is linked, loaded and run as it says |
| SourceProgram.SourceProgramRuns | MSLC/source/IR/PseudoTranslation/PseudoTranslator.cpp:13-60 | A structured program of if, while, break, continue and blocks over tokens of assignments and conditions, lowered, compiled, linked against the constants read back from the object file, loaded and started: the VM halts with a memory if and only if the program, executed statement by statement, finishes with it; it faults if and only if the program divides by zero, and in no other way; so it runs for ever exactly when the program does; with every group settled only the first branch whose condition holds runs |
| SourceProgram.StatementMeaning | MSLC/source/IR/PseudoTranslation/ExpressionsTranslator.cpp:86-103 | A statement of that execution, an assignment in tokens, leaves the operand stack empty and makes of memory what its tree says, each literal standing for its text, or divides by zero where the tree does |
| SourceProgram.ConditionMeaning | MSLC/source/IR/PseudoTranslation/ExpressionsTranslator.cpp:71-85 | A condition leaves one operand and memory as it was, and holds exactly when the value of its tree is not zero |
| SourceProgram.CodeInTurn | MSLC/source/IR/PseudoTranslation/ExpressionsTranslator.cpp:336-346 | Translating statements one after the other, the constants interned as they are met, gives each the code it gets when all constants are known from the start |
| ProgramStart.ProgramRunsFromStart | MSLVM/source/api/virtual_machine.cpp:60-81 | The same for any translation of statements that leaves no operand and of conditions that leaves one: the module always links, and its start state matches |
| ProgramStart.ProgramIsSupported | MSLC/source/IR/ByteTranslation/BCH/BCHControlFlow.cpp:12-58 | Whatever lowering and code generation emit for an accepted program is a program the byte machine runs: every jump finds its label, no label is declared twice, all operands exist |
| ProgramStart.NodeDeclared | MSLC/source/IR/PseudoTranslation/BasicSyntaxTranslator.cpp:8-325 | Every jump of a statement's code goes to a label that the code declares or to the targets of the cycle around it |
| ProgramToMachine.StructuredProgramRuns | MSLC/source/IR/ByteTranslation/ByteCommandsHandler.cpp:11-55 | From any related states at the first operation, the linked code halts with exactly the memory the structured program finishes with and faults exactly when it divides by zero |
| ProgramToMachine.LoweredIsCompiled | MSLC/source/IR/PseudoTranslation/BasicSyntaxTranslator.cpp:8-325 | The lowered code has distinct labels, no unresolved jump, ids that are words, and an empty operand stack at every label |
| CompiledProgram.FlatStep | MSLC/source/IR/ByteTranslation/BCH/BCHControlFlow.cpp:12-58 | Every operation of the flat code, label, jump and conditional jump included, is matched by byte steps between refined states or by the same fault, and each jump and label takes at least one |
| CompiledProgram.JumpArrives | MSLC/source/IR/ByteTranslation/BCH/BCHControlFlow.cpp:25-54 | A jump command finds its label, and there the generator's operand stack is empty, so the state that jumps refines it too |
| CompiledProgram.EndGivesHalt | MSLC/source/IR/ByteTranslation/ByteTranslator.cpp:9-28 | A byte run that ends comes from a flat run that halts, with the same memory and nothing on the operand stack |
| CompiledProgram.FaultGivesFlatFault | MSLC/source/IR/ByteTranslation/ByteTranslator.cpp:9-28 | A byte run that faults comes from a flat run that divides by zero |
| BudgetedRuns.FailedHalts | MSLC/source/IR/PseudoTranslation/BasicSyntaxTranslator.cpp:198-325 | Once a state fails every condition for good, the flat code of any accepted program comes to its end |
| LevelCode.NodeLevel | MSLC/source/IR/PseudoTranslation/BasicSyntaxTranslator.cpp:8-325 | The code of a statement whose expressions leave nothing and whose conditions leave one value has an empty operand stack at every label and jump and one operand at every conditional jump |
| FlatCodegen.LevelAt | MSLC/source/IR/ByteTranslation/ByteTranslator.cpp:9-28 | The generator's operand stack has that height at every operation |
| FlatCodegen.LabelComesFrom | MSLC/source/IR/ByteTranslation/BCH/BCHControlFlow.cpp:25-34 | A label command stands exactly where a label of the flat code was translated |
| SourceToMachine.SourceExpressionRuns | MSLC/source/IR/PseudoTranslation/ExpressionsTranslator.cpp:336-348 | The printed raw tokens of an operator expression, built into postfix form and tree, translated, compiled and linked: for every program that holds the code, the VM leaves the value of the expression over the context's constants in the operand's register with memory unchanged, or faults on division by zero, as the expression's meaning says |
| SourceToMachine.SourceAssignmentRuns | MSLC/source/IR/PseudoTranslation/ExpressionsTranslator.cpp:86-103 | The same for assignments to variables, plain, compound or nested: the VM's memory becomes what the assignment means, or the code faults where it does |
| Literals.SourceLiteralsRun | MSLC/source/IR/PseudoTranslation/ExpressionsTranslator.cpp:174-179 | The same when the constants are those of the interned literals, written to the object file, read back, laid out and loaded: the value left is that of the tree, in which each literal is what its text decodes to, and the bytes of each text stand in the running machine's memory at its address |
| Literals.SourceAssignmentLiteralsRun | MSLC/source/IR/PseudoTranslation/ExpressionsTranslator.cpp:86-103 | The same for assignments: memory becomes what the tree says, literals read from their texts |
| Literals.TextsAreLoaded | MSLC/source/Packing/Packer.cpp:75-82 | Interned texts, through object file, reading and layout, fill the tables of the code generator and of the linked program, and their bytes are in the loaded memory at the addresses recorded |
| Literals.DenotedValue | MSLC/include/CompilationInfo/CommonInfo.hpp:96-106 | The value of a compiled expression over numbered constants is that of its tree over texts, whatever is interned before and after |
| SourceToMachine.PlacedRuns | MSLL/source/Translators/MSLVM_1/MSLVM_1Translator.cpp:10-97 | Straight-line commands anywhere in a linked program are executed by some number of VM turns, with a related state or the same fault |
| SourceToMachine.FreshStartRefines | MSLC/source/IR/ByteTranslation/ByteTranslator.cpp:9-28 | With no operands and no registers taken, translation agrees with every configuration of the byte machine, so the theorems on expressions and assignments apply at any point of any run |
| SourceExpressions.ExpressionTranslated | MSLC/source/IR/PseudoTranslation/ExpressionsTranslator.cpp:336-346 | Translating the tokens of a printed expression yields the post-order code of what its tree says, with constants interned from left to right |
| SourceExpressions.AssignmentTranslated | MSLC/source/IR/PseudoTranslation/ExpressionsTranslator.cpp:86-103 | Translating the tokens of a printed assignment yields target, source and assignment code, an inner assignment turned into the form that leaves its value |
| OperatorMeaning.InfixMeaning | MSLC/include/IR/PseudoTranslation/PseudoTranslationsInfo.hpp:208-231 | The value of l op r for every symbol with a meaning, on the operands' values: + - * / % are the integer operations modulo 2^64, signed exactly when neither operand is unsigned, < <= > >= == != are 1 or 0 by that order, && || by being nonzero, & | << >> bit by bit; / and % by 0 divide by zero; every other symbol has no value |
| OperatorMeaning.PrefixMeaning | MSLC/include/IR/PseudoTranslation/PseudoTranslationsInfo.hpp:199-199 | The value of -a is the negative modulo 2^64, of ~a every bit inverted, of the operand's type; the negative of an unsigned value has no type |
| OperatorMeaning.OperandMeaning | MSLC/source/IR/PseudoTranslation/ExpressionsTranslator.cpp:161-187 | A variable's value is the number in its bytes, a literal's the number its text decodes to, or its address when it is long or a string |
| OperatorMeaning.AssignmentMeaning | MSLC/include/IR/PseudoTranslation/PseudoTranslationsInfo.hpp:234-246 | The effect of l op= r for = and the eleven compound operators with a meaning, r an expression or another assignment: afterwards the variable holds the value, or what the operator gives for its old number and the value, cut to its size, and every variable that does not overlap it and every other byte is unchanged; nothing else is such an assignment |
| OperatorMeaning.StoredTakes | MSLC/source/IR/ByteTranslation/BCH/BCHDataFlow.cpp:118-150 | A variable lies at its module's base plus its offset; a number stored in it is read back cut to its size, and other variables keep theirs |
| OperatorMeaning.IndexEmitted | MSLC/source/IR/PseudoTranslation/ExpressionsTranslator.cpp:51-60 | For x[i] the translator emits the use of x, the use of i, and the access by argument |
| OperatorMeaning.UnvaluedEmitted | MSLC/include/IR/PseudoTranslation/PseudoTranslationsInfo.hpp:199-205 | For ! * & ++ and -- before or behind a name, whose results have no meaning here, the translator emits the use of the name and then the operation listed |
| OperatorMeaning.UnvaluedBetween | MSLC/include/IR/PseudoTranslation/PseudoTranslationsInfo.hpp:208-246 | For x ^ y, x ^= y and x ~= y it emits both uses and then the exponentiation, or the assignment that carries exponentiation or complement |
| SourceExpressions.NodeEmits | MSLC/source/IR/PseudoTranslation/ExpressionsTranslator.cpp:71-85 | The code of an operator node is that of its operands in order and then its operation, from whatever code went before |
| SourceExpressions.AssignmentEmits | MSLC/source/IR/PseudoTranslation/ExpressionsTranslator.cpp:86-103 | The right side is analysed first, into code of its own, the left side is emitted first, and both are merged behind what went before |
| SourceExpressions.InnerLeavesValue | MSLC/source/IR/PseudoTranslation/ExpressionsTranslator.cpp:101 | Rewriting the last operation of an assignment's code gives exactly the code of the assignment that leaves its value |
| Translatable.OperatorTranslates | MSLC/source/IR/PseudoTranslation/ExpressionsTranslator.cpp:71-103 | From an empty operand stack the code of an operator expression is accepted if and only if no operand of it is an assignment, what it says is well typed, and as many registers are free as it needs |
| Translatable.AssignmentTranslates | MSLC/source/IR/PseudoTranslation/ExpressionsTranslator.cpp:86-103 | The same for assignments: no operand is an assignment, every target is a variable, and types and registers suffice |
| Translatable.MixedHeight | MSLC/source/IR/PseudoTranslation/ExpressionsTranslator.cpp:71-103 | The code of a tree leaves one operand, none if it is an assignment, less one for each assignment that is an operand |
| Translatable.AssignmentAsOperandIsRefused | MSLC/source/IR/PseudoTranslation/ExpressionsTranslator.cpp:71-103 | (x = 1) + y is built and translated to pseudo operations, and refused by the code generator whatever registers are free |
| AssignmentPressure.AssignmentPressureIsExact | MSLC/source/IR/ByteTranslation/BCH/BCHDataFlow.cpp:94-168 | An assignment, compound and nested, is translated if and only if it is well typed and as many registers are free as its need; it leaves the operand stack as stated and one register taken for each value used |
| StackHeight.TranslationHeight | MSLC/source/IR/ByteTranslation/ByteTranslator.cpp:9-28 | Any translation that succeeds changes the number of operands by the sum of what its operations stand for, each of which found the operands it takes |
| StackHeight.ComplementKeepsTarget | MSLC/source/IR/ByteTranslation/BCH/BCHDataFlow.cpp:94-168 | A translated assignment statement leaves one operand on the stack for each ~= in it, so it leaves the stack as it was if and only if there is none |
| StackHeight.ComplementExample | MSLC/source/IR/ByteTranslation/BCH/BCHDataFlow.cpp:94-168 | The failing input: x ~= y is translated, and its target is still on the operand stack |
| Startup.ProgramRuns | MSLVM/source/api/virtual_machine.cpp:60-81 | A program of modules in dependency order that the byte machine runs always links, and the linked code, loaded with its read-only data and started, halts, faults and leaves memory and output exactly as the byte program does, in both directions |
| Startup.StartRelated | MSLVM/source/api/virtual_machine.cpp:78-81 | A loaded machine and the byte program start in related states: every constant is where the linker recorded it |
| Startup.LoopIsProgram | MSLL/source/Translators/MSLVM_1/MSLVM_1Translator.cpp:274-307 | A label with a jump back to it, in one module, meets what the theorem on whole programs asks for, for every stack size and start |
| Startup.HeapOffersItsEnd | MSLVM/include/mslvm/vm_memory.hpp:187-192 | Of the addresses free at the start, exactly the last one lies behind the memory, because the end passed is exclusive and blocks include theirs; the model refuses to write there |
| LinkedRun.LinkedCodeIsEquivalent | MSLL/source/Translators/MSLVM_1/MSLVM_1Translator.cpp:10-462 | From related states the byte program halts if and only if the linked code halts, the final states are related, and each fault occurs on one side exactly when it occurs on the other |
| LinkedRun.RunSimulated | MSLL/source/Translators/MSLVM_1/MSLVM_1Translator.cpp:10-462 | Every run of the byte program, of any length, is matched by a run of the linked code to a related state or the same fault; stretches without VM operations cannot go on for ever |
| LinkedRun.StepSimulated | MSLL/source/Translators/MSLVM_1/MSLVM_1Translator.cpp:56-97 | One byte step equals the turns of the zero to three operations emitted for its command, starting at the command's position |
| LinkedRun.CodeHaltGivesByteHalt | MSLL/source/Translators/MSLVM_1/MSLVM_1Translator.cpp:10-462 | A halt of the linked code comes from a halt of the byte program in a related state |
| LinkedRun.CodeFaultGivesByteFault | MSLL/source/Translators/MSLVM_1/MSLVM_1Translator.cpp:10-462 | A fault of the linked code comes from the same fault of the byte program |
| LinkedRun.CodeIsLowering | MSLL/source/Translators/MSLVM_1/MSLVM_1Translator.cpp:269-341 | The code at a command's position decodes to the lowering of the command, jumps aimed at the position of their label's command |
| Simulation.ExpansionIsLowering | MSLL/source/Translators/MSLVM_1/MSLVM_1Translator.cpp:99-532 | Relocating, expanding and decoding any supported command gives the lowering of the decoded command |
| Simulation.FlagsTellTruth | MSLL/source/Translators/MSLVM_1/MSLVM_1Translator.cpp:114-267 | For all twelve integer and unsigned comparisons the flags asked for, negated where a negation follows, tell the truth of the relation on every pair of words |
| Simulation.TableKeepsMeaning | MSLL/source/Translators/MSLVM_1/MSLVM_1Translator.cpp:99-112 | The operation table keeps the meaning of every integer arithmetic and logic operation |
| MachineLaws.BinaryIsExact | MSLVM/include/mslvm/vm_execution.hpp:13-13 | Every binary operation gives a word exactly when that is, modulo 2^64, the integer sum, difference, product, quotient rounded toward zero or remainder of the signed or unsigned operands, the truth value of both or either being nonzero, or the word whose bits are those of both or either operand or of the left one moved by the right one modulo 64; it gives none exactly when it divides by zero (vm_execution.cpp:58-152) |
| MachineLaws.UnaryIsExact | MSLVM/include/mslvm/vm_execution.hpp:13-13 | Negation, logical not and complement give exactly the negative modulo 2^64, the truth value of being zero, and every bit inverted (vm_execution.cpp:100-142) |
| MachineLaws.OrderIsExact | MSLVM/include/mslvm/vm_execution.hpp:13-13 | Equality is that of words; unsigned order that of words, signed order puts words from 2^63 on first; exactly one of less, equal and greater holds, the other relations are negations; -1 < 1 signed and 2^64 - 1 > 1 unsigned (vm_execution.cpp:156-186) |
| MachineLaws.SignedIsExact | MSLVM/include/mslvm/vm_execution.hpp:13-13 | A signed word is the one integer from -2^63 to 2^63 - 1 that agrees with it modulo 2^64 (vm_execution.cpp:60-61) |
| MachineLaws.SumsUndone | MSLVM/include/mslvm/vm_execution.hpp:13-13 | Sums and differences undo one another, and signed and unsigned ones of the same words agree (vm_execution.cpp:56-68) |
| MachineLaws.NegationsUndone | MSLVM/include/mslvm/vm_execution.hpp:13-13 | Negation is subtraction from zero and undoes itself; the complement undoes itself and is one less (vm_execution.cpp:100-142) |
| MachineLaws.InRangeIsInteger | MSLVM/include/mslvm/vm_execution.hpp:13-13 | Signed sums, differences and products that lie in range are the integer ones (vm_execution.cpp:60-75) |
| MachineLaws.SignedDivisionUndone | MSLVM/include/mslvm/vm_execution.hpp:13-13 | Quotient times divisor plus remainder is the dividend, as words always, as integers exactly unless -2^63 is divided by -1; the remainder is smaller than the divisor and has the sign of the dividend or is 0 (vm_execution.cpp:91-112) |
| MachineLaws.UnsignedDivisionUndone | MSLVM/include/mslvm/vm_execution.hpp:13-13 | Unsigned quotient times divisor plus remainder is the dividend, and the remainder is smaller than the divisor (vm_execution.cpp:84-107) |
| MachineLaws.ShiftsScale | MSLVM/include/mslvm/vm_execution.hpp:13-13 | Shifting by n below 64 multiplies modulo 2^64 and divides by 2^n (vm_execution.cpp:144-152) |
| Simulation.StackTurns | MSLL/source/Translators/MSLVM_1/MSLVM_1Translator.cpp:343-462 | Growing and shrinking the stack goes through a scratch register and has the effect of the one byte command |
| Simulation.CodeAt | MSLL/source/Translators/MSLVM_1/MSLVM_1Translator.cpp:269-341 | The final code of command i stands at the number of operations emitted before it, with jump targets filled in |
| Simulation.JumpTarget | MSLL/source/Translators/MSLVM_1/MSLVM_1Translator.cpp:274-326 | With unique labels a jump's target is the position of its label's command, earlier or later, in whatever module |
| Simulation.ConstantLoad | MSLL/source/Translators/MSLVM_1/MSLVM_1Translator.cpp:47-51 | Loading a relocated constant reads the bytes that the constants table holds for it |
| MemoryLaws.WriteIsExact | MSLVM/include/mslvm/vm_memory.hpp:60-60 | A write puts the low bytes of the value at the address, lowest first, at most eight of them, and leaves every other byte as it was (vm_memory.cpp:87-90) |
| MemoryLaws.ReadIsExact | MSLVM/include/mslvm/vm_memory.hpp:58-58 | A read gives the one number whose bytes, lowest first, are those at the address (vm_memory.cpp:63-72) |
| MemoryLaws.ReadBack | MSLVM/include/mslvm/vm_memory.hpp:58-60 | What was written is read back, cut to the bytes written, and what lies elsewhere is read as before (vm_memory.cpp:63-91) |
| MemoryLaws.StoreIsExact | MSLVM/include/mslvm/vm_memory.hpp:60-60 | A store succeeds exactly when all its bytes lie between the start of the stack and the end of memory, writes exactly its value, and else gives the fault for the side it misses (vm_memory.cpp:78-91) |
| MemoryLaws.StoreLocalIsExact | MSLVM/include/mslvm/vm_execution.hpp:13-13 | A store of a local variable succeeds exactly inside the stack (vm_execution.cpp:312-328) |
| MemoryLaws.StoreThenLoad | MSLVM/include/mslvm/vm_execution.hpp:13-13 | After any of the three kinds of store a load at the address gives the value cut to its size, and a load elsewhere what it gave before (vm_execution.cpp:275-361) |
| MemoryLaws.CopyIsExact | MSLVM/include/mslvm/vm_memory.hpp:62-62 | A copy puts the old bytes of its source at the destination, overlapping or not, and changes no other byte (vm_memory.cpp:93-104) |
| UnperformedOperations.RealOperatorLinked | MSLC/source/IR/ByteTranslation/BCH/BCHUtils.cpp:90-104 | With a real operand, + - * / and the comparisons convert the operand that is not real and are linked to the VM's real operation, or comparison and flags, on the registers in their order; % & | << >> are refused |
| UnperformedOperations.StoreConverts | MSLC/source/IR/ByteTranslation/BCH/BCHDataFlow.cpp:118-150 | A value is converted to the type of its target by the VM operation for the two types before it is stored |
| UnperformedOperations.RealNegationLinked | MSLC/source/IR/ByteTranslation/BCH/BCHAL.cpp:191-206 | The negation of a real is linked to the VM's real negation of its register |
| UnperformedOperations.HeapAndCallsLinked | MSLL/source/Translators/MSLVM_1/MSLVM_1Translator.cpp:325-445 | Heap commands are linked to the VM's with their arguments, calls and returns to empty operations, pushes and pops to nothing; dynamic addresses and exponentiation are refused |
| Translator.Translator.Translate | MSLL/source/Translators/MSLVM_1/MSLVM_1Translator.cpp:543-610 | Linking succeeds exactly when every command is accepted and every label is declared somewhere, and then the single pass with back-patching gives the code of two passes and the modules the bases of the layout |
| Translator.NothingPending | MSLL/source/Translators/MSLVM_1/MSLVM_1Translator.cpp:601-606 | At any point of the single pass nothing is pending exactly when every jump's label has been declared, and then the code is the two-pass code |
| Translator.Translator.HandleLabel | MSLL/source/Translators/MSLVM_1/MSLVM_1Translator.cpp:274-291 | A label patches exactly the jumps waiting for it; the pass invariant (each jump resolved or pending) holds again |
| Translator.Translator.HandleJump | MSLL/source/Translators/MSLVM_1/MSLVM_1Translator.cpp:293-326 | A jump is resolved by the latest declaration so far or recorded as pending; the pass invariant holds again |
| Translator.Translator.HandleCommand | MSLL/source/Translators/MSLVM_1/MSLVM_1Translator.cpp:10-97 | A command is accepted exactly when its operands relocate, function symbols apart, and its operation is supported; the pass invariant covers one more relocated command |
| Translator.Translator.HandleModule | MSLL/source/Translators/MSLVM_1/MSLVM_1Translator.cpp:611-631 | All commands of a module in order, then the module's stack bytes are reserved; refused exactly when a file is missing or a command is |
| Translator.Translator.Patch | MSLL/source/Translators/MSLVM_1/MSLVM_1Translator.cpp:282-285 | Exactly the listed operations get the position as their target |
| Translator.Translator.HandleCOMP | MSLL/source/Translators/MSLVM_1/MSLVM_1Translator.cpp:114-267 | A comparison becomes a compare, a flag query and, for inequality, a negation; other codes are refused and emit nothing |
| Translator.Translator.HandleMR | MSLL/source/Translators/MSLVM_1/MSLVM_1Translator.cpp:343-462 | Memory and register commands become zero to two operations with their arguments in the VM's order |
| Translator.Translator.HandleAL | MSLL/source/Translators/MSLVM_1/MSLVM_1Translator.cpp:99-112 | Arithmetic and logic go through the operation table; what it lacks is refused |
| Translator.Translator.HandleSP | MSLL/source/Translators/MSLVM_1/MSLVM_1Translator.cpp:464-532 | Conversions and system calls keep their arguments; other codes are refused |
| LinkSpec.TargetIsLatest | MSLL/source/Translators/MSLVM_1/MSLVM_1Translator.cpp:288-306 | When all declarations lie before a jump, the latest one is its target |
| LinkedModules.ProgramLinks | MSLL/source/Translators/MSLVM_1/MSLVM_1Translator.cpp:543-610 | A program the byte machine runs, in dependency order and with unique labels, always links, and the result is one to which the simulation applies |
| LinkedModules.ModulesSeparate | MSLL/source/Translators/MSLVM_1/MSLVM_1Translator.cpp:577-595 | The read-only data and the ranges of all modules follow one another without gap or overlap |
| LinkedModules.ModuleBase | MSLL/source/Translators/MSLVM_1/MSLVM_1Translator.cpp:584-629 | A module's base is the read-only data's end plus the stack sizes of the modules linked before it |
| LinkedModules.SymbolAddress | MSLL/source/Translators/MSLVM_1/MSLVM_1Translator.cpp:24-36 | A variable symbol resolves to its owner's final base plus offset exactly when the owner is linked no later than its user, or lies at address 0 |
| ModuleVariables.ResolvedInRange | MSLL/source/Translators/MSLVM_1/MSLVM_1Translator.cpp:24-36 | From its resolved address all bytes of a module's variable lie in the module's own range, base to base plus stack size, if and only if the module declares enough bytes after it; the range lies within the whole stack |
| ModuleVariables.VariablesApart | MSLL/source/Translators/MSLVM_1/MSLVM_1Translator.cpp:577-595 | Variables of two modules that meet this never overlap, and lie behind the read-only data |
| ModuleVariables.BlockVariableOverlaps | MSLL/source/Translators/MSLVM_1/MSLVM_1Translator.cpp:577-595 | Without it they do: a module whose only variable is in a block has it at the base of the next module |
| ModuleVariables.WithinStack | MSLC/source/Packing/Packer.cpp:135 | For the frame steps of a whole module, a variable is inside the stack size that is written exactly under that condition |
| LinkedModules.RelocateIsExact | MSLL/source/Translators/MSLVM_1/MSLVM_1Translator.cpp:22-55 | An argument is refused exactly when it names a symbol or constant that is not there, or a function; a place in the module becomes its address, a constant its recorded one; registers, numbers and other symbols stay |
| LinkedModules.RelocatedFinally | MSLL/source/Translators/MSLVM_1/MSLVM_1Translator.cpp:22-55 | When the owners a command needs are placed, relocating it now is relocating it with the final bases |
| ReadOnlyData.LayOut | MSLL/source/Translators/MSLVM_1/MSLVM_1Translator.cpp:550-581 | With the size counted while reading, the size check never fires and the buffer holds every constant followed by its padding |
| ReadOnlyData.ConstantAtAddress | MSLL/source/Translators/MSLVM_1/MSLVM_1Translator.cpp:556-573 | The read-only data holds exactly the bytes of constant k at the address recorded for it |
| ReadOnlyData.ConstantsDisjoint | MSLL/source/Translators/MSLVM_1/MSLVM_1Translator.cpp:556-573 | No two constants overlap |
| ReadOnlyData.ConstantsAligned | MSLL/source/Translators/MSLVM_1/MSLVM_1Translator.cpp:556-579 | With alignment on, every constant starts at a multiple of eight |
| CompiledCode.CompiledExpression | MSLC/source/IR/ByteTranslation/BCH/BCHAL.cpp:11-251 | The code of any expression over integers, and of the load that consumes it, leaves its value in one register, changes no memory and no reserved register, or faults where the meaning divides by zero |
| CompiledCode.CompiledAssignment | MSLC/source/IR/ByteTranslation/BCH/BCHDataFlow.cpp:94-168 | The code of an assignment, nested ones included, changes exactly the memory its meaning says; one register stays reserved for each nested assignment and no other |
| CompiledCode.StatementGivesRegistersBack | MSLC/source/IR/ByteTranslation/BCH/BCHDataFlow.cpp:160-165 | Any assignment statement that is translated from an empty operand stack leaves it empty and keeps one register for each nested assignment; without any, exactly the used set it started with |
| CompiledCode.CodeRuns | MSLC/source/IR/ByteTranslation/ByteTranslator.cpp:9-28 | Running a program through straight-line code is executing that code |
| CodegenRun.TranslationRefines | MSLC/source/IR/ByteTranslation/ByteCommandsHandler.cpp:11-55 | Whatever a translation of straight-line operations emits runs as the reference stack machine does on the same operations, from any related state |
| CodegenRun.OperationRefines | MSLC/source/IR/ByteTranslation/ByteCommandsHandler.cpp:35-54 | Each operation's commands take related states to related states or to the machine's fault |
| CodegenCorrect.LoadRefines | MSLC/source/IR/ByteTranslation/BCH/BCHUtils.cpp:233-320 | Loading an operand when it is consumed puts its value into a register that was free and disturbs nothing in use |
| CodegenCorrect.CombineMeans | MSLC/source/IR/ByteTranslation/BCH/BCHAL.cpp:15-134 | Conversion and command of a binary operator compute it on the two registers, the result typed by the common type |
| CodegenCorrect.CodeMeansOperator | MSLC/source/IR/ByteTranslation/BCH/BCHUtils.cpp:11-175 | The operation code chosen for operator and type has the operator's meaning on the machine |
| CodegenStatic.TranslationSound | MSLC/source/IR/ByteTranslation/ByteTranslator.cpp:9-28 | All commands of a translation are supported, with operands that relocate: they can be linked and run |
| Expressions.LazyIsEager | MSLC/source/IR/ByteTranslation/BCH/BCHUtils.cpp:233-320 | Reading operands late, when an operator consumes them and the right one first, gives the values they had when they were met |
| Expressions.AssignmentMeaning | MSLC/source/IR/ByteTranslation/BCH/BCHDataFlow.cpp:94-168 | The stack machine performs assignments, compound and nested, as their meaning on memory says |
| RegisterBalance.EmitAgrees | MSLC/source/IR/ByteTranslation/BCH/BCHDataFlow.cpp:12-259 | After every operation the operands in registers have distinct registers, all marked used, and exactly the known registers stay reserved |
| RegisterBalance.TranslationKeepsCount | MSLC/source/IR/ByteTranslation/BCH/BCHControlFlow.cpp:43-54 | Over a whole translation the register table grows by exactly one for every assignment that leaves its value and every conditional jump |
| RegisterBalance.StatementRestoresRegisters | MSLC/source/IR/ByteTranslation/BCH/BCHDataFlow.cpp:160-165 | A statement that starts and ends with an empty operand stack and has none of these restores the used set it started with |
| RegisterPressure.PressureIsExact | MSLC/source/IR/ByteTranslation/BCH/BCHUtils.cpp:266-291 | An expression is translated if and only if it is well typed and as many general registers are free as its need, a measure in which a leaf costs nothing until it is consumed; afterwards it holds one register |
| RegisterPressure.RightLeaningNeedsTwo | MSLC/source/IR/ByteTranslation/BCH/BCHUtils.cpp:243-315 | Right-leaning chains of any length need two registers |
| RegisterPressure.NeedAtMostDepth | MSLC/source/IR/ByteTranslation/BCH/BCHUtils.cpp:233-320 | No expression needs more registers than its depth plus one |
| RegisterPressure.AllocationFails | MSLC/source/IR/ByteTranslation/BCH/BCHUtils.cpp:266-268 | Allocation fails exactly when every general register is used |
| Registers.RegistersTable.AllocateFreeGeneral | MSLC/source/IR/ByteTranslation/BCH/BCHUtils.cpp:266-268 | Takes the lowest free general register and marks it, in the bit map; without one nothing changes |
| Codegen.ByteTranslationState.GenerateLoadCommand | MSLC/source/IR/ByteTranslation/BCH/BCHUtils.cpp:233-320 | Pops an operand and emits at most one load, as the specification of lazy loading says, with the register table changed accordingly |
| Codegen.ByteTranslationState.HandleArithmeticLogic | MSLC/source/IR/ByteTranslation/BCH/BCHAL.cpp:11-251 | Dispatches every operator; state and emitted commands become those of the specification, or an error is reported |
| Codegen.ByteTranslationState.HandleAssignment | MSLC/source/IR/ByteTranslation/BCH/BCHDataFlow.cpp:94-168 | Plain and compound assignment, with the target kept or dropped as the code does |
| Codegen.ByteTranslationState.HandleUsing | MSLC/source/IR/ByteTranslation/BCH/BCHDataFlow.cpp:222-259 | Pushes a lazy operand for a variable or a constant and emits nothing |
| Codegen.ByteTranslationState.HandleControlFlow | MSLC/source/IR/ByteTranslation/BCH/BCHControlFlow.cpp:12-58 | Labels and jumps; a conditional jump loads its condition and keeps the register |
| Codegen.ByteTranslationState.Translate | MSLC/source/IR/ByteTranslation/ByteTranslator.cpp:9-28 | The loop over all operations, up to the first reported error, does what the specification does on the whole list |
| Frames.LiveApart | MSLC/source/IR/ByteTranslation/BCH/BCHDataFlow.cpp:267-279 | Of two variables that are live together, the one declared first ends before the other begins |
| Frames.RunTiles | MSLC/source/IR/ByteTranslation/ByteCommandsHandler.cpp:15-27 | Over every run of declarations and scopes the open frames follow one another from address 0 and their variables fill them without gap |
| Frames.InsideModule | MSLC/source/Packing/Packer.cpp:135 | The stack size written for a module covers a variable exactly when the module itself declares, after it, at least as many bytes as the blocks open at the variable then hold |
| Frames.NestedVariableOutside | MSLC/source/Packing/Packer.cpp:135 | A variable in a block is outside the stated stack size when nothing is declared after the block |
| Frames.FrameStack.DeclareVariable | MSLC/source/IR/ByteTranslation/BCH/BCHDataFlow.cpp:267-279 | A variable gets the next free address of the innermost frame, which grows by its size |
| LoweringCorrect.ProgramMeaning | MSLC/source/IR/PseudoTranslation/BasicSyntaxTranslator.cpp:8-325 | For every accepted program in which each translated cycle has a block and each break and continue is inside a cycle, the flat label and jump code halts in a state if and only if the structured execution finishes in it; one side diverges exactly when the other does; when every group is settled, the structured execution is the one in which only the first branch whose condition holds runs |
| FirstBranch.AcceptedGroup | MSLC/source/IR/PseudoTranslation/BasicSyntaxTranslator.cpp:26-41 | Of a group that passes the check, exactly one branch, the first whose condition holds or else the else, runs in all executions if and only if the group is settled: no clause that does anything is reached behind its first else; no block is dropped if and only if no else before the last clause has both a line and a block; an else at the end gives both |
| FirstBranch.OneBranchRuns | MSLC/source/IR/PseudoTranslation/BasicSyntaxTranslator.cpp:45-180 | In a settled group the branch chosen is the only one that runs, whatever operations and conditions mean |
| FirstBranch.OneBranchIsExact | MSLC/source/IR/PseudoTranslation/BasicSyntaxTranslator.cpp:45-180 | In every other group some outcome of the conditions makes another branch run behind the else |
| FirstBranch.ElseLastSettles | MSLC/source/IR/PseudoTranslation/BasicSyntaxTranslator.cpp:26-41 | On the kinds of clauses: an else at the end settles a group, and a settled group whose branches have code and do not leave it has its else at the end |
| FirstBranch.BlockIsDropped | MSLC/source/IR/PseudoTranslation/BasicSyntaxTranslator.cpp:146-190 | The block of an else that has a line of its own and is not last is ignored: any other block in its place gives the same code |
| LoweringCorrect.BothElsesRun | MSLC/source/IR/PseudoTranslation/BasicSyntaxTranslator.cpp:26-41 | The failing input: if (c) (a) else (b) else (d) is accepted, and when c fails the code halts with the effect of b followed by that of d, where b alone was meant |
| LoweringIntended.LoweringIsIntended | MSLC/source/IR/PseudoTranslation/PseudoTranslator.cpp:33-45 | The translation of an accepted program is the one that drops no cycle if and only if every cycle that is translated has a block |
| LoweringIntended.IntendedMeaning | MSLC/source/IR/PseudoTranslation/BasicSyntaxTranslator.cpp:8-325 | The translation that drops no cycle means what the program means, for every accepted program whose breaks are inside cycles |
| LoweringIntended.NodeLonger | MSLC/source/IR/PseudoTranslation/BasicSyntaxTranslator.cpp:8-325 | A statement's translation is shorter than the intended one exactly when a cycle in what is translated has no block |
| LoweringCorrect.NodeMatches | MSLC/source/IR/PseudoTranslation/BasicSyntaxTranslator.cpp:8-325 | Wherever a statement's code stands in a program, running it is executing the statement, with break and continue leaving to the targets of the innermost cycle |
| LoweringCorrect.NodeNumbered | MSLC/source/IR/PseudoTranslation/BasicSyntaxTranslator.cpp:111 | The labels a statement declares are distinct and are exactly taken from its own range of numbers |
| LoweringCorrect.FinishIsUnique | MSLC/source/IR/PseudoTranslation/BasicSyntaxTranslator.cpp:8-325 | A program finishes in at most one state |
| LoweringCorrect.CycleWithoutBlockIsDropped | MSLC/source/IR/PseudoTranslation/PseudoTranslator.cpp:33-45 | A cycle whose statement stands on its own line, with no block after it, emits nothing, and its code and its meaning then differ |
| BreakScoping.NodeClaimed | MSLC/source/IR/PseudoTranslation/BasicSyntaxTranslator.cpp:292-313 | Patching a body's break and continue jumps after translating it gives what translating it with the targets known would have given; all other operations stay |
| BreakScoping.AllClosed | MSLC/source/IR/PseudoTranslation/BasicSyntaxTranslator.cpp:292-313 | After a cycle has claimed its body, no operation of it is unresolved |
| BreakScoping.ClosedIffScoped | MSLC/source/IR/PseudoTranslation/ExpressionsTranslator.cpp:142-153 | A statement's code has no unresolved jump exactly when each of its breaks and continues is inside a cycle |
| StrayJumps.StrayProgramLinks | MSLC/source/IR/PseudoTranslation/ExpressionsTranslator.cpp:142-153 | An accepted program has all its jumps' labels, and so can be linked, if and only if each break and continue is inside a cycle or label 0, the first number handed out, is one of its own; a stray jump then goes to that label |
| StrayJumps.StrayBreakRepeats | MSLC/source/IR/PseudoTranslation/ExpressionsTranslator.cpp:142-147 | The failing input, for every program with a label: a break behind its last statement leads back to the first label, and the program never ends |
| Lowering.BasicSyntaxTranslator.HandleIfCondition | MSLC/source/IR/PseudoTranslation/BasicSyntaxTranslator.cpp:8-196 | A group of clauses emits conditions, jumps, branches and labels as specified, or is refused |
| OwnLines.ElseClause | MSLC/source/IR/PseudoTranslation/BasicSyntaxTranslator.cpp:146-166 | else followed by tokens is translated to the code of exactly those tokens, a jump when they are the one word break or continue; else alone to its block |
| OwnLines.ConditionalClause | MSLC/source/IR/PseudoTranslation/BasicSyntaxTranslator.cpp:77-140 | if or elif ( condition ) line is translated to the condition, a jump behind the clause when it fails, the code of exactly the line, the jump out of a group of several, and a label; without a line to its block; a line and a block in a group of several are refused |
| OwnLines.IfLine | MSLC/source/IR/PseudoTranslation/BasicSyntaxTranslator.cpp:183-196 | The block behind the line of a single if is translated behind it, outside the condition |
| OwnLines.IfLineElseLine | MSLC/source/IR/PseudoTranslation/BasicSyntaxTranslator.cpp:44-182 | if ( condition ) line else other, written out: condition, jumps, labels and the two lines in their places |
| OwnLines.WhileLine | MSLC/source/IR/PseudoTranslation/BasicSyntaxTranslator.cpp:282-325 | while ( condition ) line repeats exactly the line, its break and continue going to the cycle's own labels, and the block behind it follows the cycle |
| OwnLines.WhileBlock | MSLC/source/IR/PseudoTranslation/BasicSyntaxTranslator.cpp:274-320 | while ( condition ) with a block repeats exactly the block |
| Lowering.BasicSyntaxTranslator.HandleWhile | MSLC/source/IR/PseudoTranslation/BasicSyntaxTranslator.cpp:198-325 | A cycle emits check label, condition, leaving jump, claimed body, jump back and end label, or is refused |
| Lowering.BasicSyntaxTranslator.ClaimFrom | MSLC/source/IR/PseudoTranslation/BasicSyntaxTranslator.cpp:294-313 | In place, exactly the unresolved break and continue jumps behind the index get the cycle's labels |
| Lowering.BasicSyntaxTranslator.Split | MSLC/source/IR/PseudoTranslation/BasicSyntaxTranslator.cpp:73-102 | The header's tokens are split into condition and statement by counting parentheses |
| Syntax.HeaderRoundTrip | MSLC/source/IR/PseudoTranslation/BasicSyntaxTranslator.cpp:73-102 | A header written as keyword, parenthesised condition and statement is split back into them, for conditions with any nested parentheses |
| Lowering.BasicSyntaxTranslator.CheckStructure | MSLC/source/IR/PseudoTranslation/BasicSyntaxTranslator.cpp:20-40 | A group is accepted exactly when it starts with an if and no elif follows an else; a second else passes (FirstBranch says what that does) |
| PostfixRoundTrip.BuildTree | MSLC/source/IR/PseudoTranslation/Postfix/PostfixBuilder.cpp:219-348 | For every expression tree over the table's infix, prefix, suffix, assignment and declaration operators, with index lists and array literals, printing it with the parentheses priority and associativity require, and any more, and building the postfix form yields exactly its post-order |
| PostfixRoundTrip.CollectsArgs | MSLC/source/IR/PseudoTranslation/Postfix/PostfixBuilder.cpp:126-177 | The bracket collector returns the arguments of the tree, each built recursively, and stops at the closing bracket |
| OperatorOrder.InfixOrder | MSLC/source/IR/PseudoTranslation/Postfix/PostfixBuilder.cpp:277-292 | Of a op1 b op2 c, for every two operators listed by class (member access; power; * / %; + -; shifts; < <= > >=; == !=; & |; && ||; assignments), op1 comes out first exactly when it is in a tighter class, or in the same and does not assign |
| OperatorOrder.BeforeThenInfix | MSLC/include/IR/PseudoTranslation/PseudoTranslationsInfo.hpp:199-205 | In u a op b the operator before a binds it, unless op is member access, which binds first |
| OperatorOrder.InfixThenBefore | MSLC/include/IR/PseudoTranslation/PseudoTranslationsInfo.hpp:199-205 | In a op u b the operator before b binds it |
| OperatorOrder.InfixAndBehind | MSLC/include/IR/PseudoTranslation/PseudoTranslationsInfo.hpp:204-205 | In a op b u and a u op b the operator behind an operand binds it, unless op is member access |
| OperatorOrder.UnaryInARow | MSLC/source/IR/PseudoTranslation/Postfix/PostfixBuilder.cpp:277-292 | Of two operators before an operand the nearer comes out first, and one behind it comes out before one before it |
| SuffixChains.ChainReverses | MSLC/source/IR/PseudoTranslation/Postfix/PostfixBuilder.cpp:282-285 | For every operand tree and every chain of suffix operators printed without parentheses, the operand's post-order is followed by the chain backwards |
| SuffixChains.ChainIsExact | MSLC/source/IR/PseudoTranslation/Postfix/PostfixBuilder.cpp:282-285 | So a chain of suffixes is built in post-order if and only if it reads the same backwards |
| CallRoundTrip.CallIsExact | MSLC/source/IR/PseudoTranslation/Postfix/PostfixBuilder.cpp:51-124 | For every name and all argument trees, the printed call is built as the name and exactly the built arguments if and only if every argument but the last has more than one token and no argument has a comma outside parentheses |
| CallRoundTrip.SingleArgumentRepeats | MSLC/source/IR/PseudoTranslation/Postfix/PostfixBuilder.cpp:73-88 | f(a, e) is built wrongly, whatever e is |
| CallRoundTrip.IndicesSplit | MSLC/source/IR/PseudoTranslation/Postfix/PostfixBuilder.cpp:65-67 | f(a[i, j]) is split at the inner comma |
| CallRoundTrip.CallCounts | MSLC/source/IR/PseudoTranslation/Postfix/PostfixBuilder.cpp:51-124 | The collector makes one argument for each comma outside parentheses and one for the end, on any tokens balanced in parentheses |
| PrintedTrees.PendingLeaves | MSLC/source/IR/PseudoTranslation/Postfix/PostfixBuilder.cpp:277-292 | On a stack that withstands an arriving operator, exactly the operators pending above it are moved out, top first |
| PrintedTrees.CollectsBalanced | MSLC/source/IR/PseudoTranslation/Postfix/PostfixBuilder.cpp:126-177 | The collector takes tokens with balanced brackets as they are |
| OperatorOrder.ParenthesesByClass | MSLC/include/IR/PseudoTranslation/PseudoTranslationsInfo.hpp:179-246 | For every tree, parentheses are printed around a left operand exactly when it is in a looser class than its operator, around a right one exactly when it is in no tighter class, assignments the other way round, and around the operand of a unary operator when it is looser |
| WordOperators.ToBuilt | MSLC/include/IR/PseudoTranslation/Postfix/APSTBuilder.hpp:14-14 | The tokens a to b give the type cast of a, with the word between what is cast and its type |
| WordOperators.NewBuilt | MSLC/include/IR/PseudoTranslation/Postfix/APSTBuilder.hpp:15-15 | The tokens new b give the creation of a b, with the word in front |
| WordOperators.ToThenInfix | MSLC/include/IR/PseudoTranslation/PseudoTranslationsInfo.hpp:188-190 | In a to b op c and a op b to c the word to binds first, unless op is member access |
| WordOperators.BracketBuilds | MSLC/source/IR/PseudoTranslation/Postfix/PostfixBuilder.cpp:25-45 | A bracket behind an operand or a closing bracket, parenthesis or brace indexes it; behind an operator, a comma or an opening parenthesis it opens an array |
| Postfix.BuildPostfix | MSLC/source/IR/PseudoTranslation/Postfix/PostfixBuilder.cpp:219-348 | The imperative builder terminates on every token list, balanced or not, and computes the specified form |
| Postfix.PopWaiting | MSLC/source/IR/PseudoTranslation/Postfix/PostfixBuilder.cpp:277-292 | Pops operators while they give way; what stays is a prefix of the stack |
| Postfix.HandleDataAccessOrArrayLiteral | MSLC/source/IR/PseudoTranslation/Postfix/PostfixBuilder.cpp:126-177 | Collects bracket arguments; the index never moves back and ends on the closing bracket or the last token |
| Postfix.HandleFuncCall | MSLC/source/IR/PseudoTranslation/Postfix/PostfixBuilder.cpp:51-124 | Collects call arguments as the specified function does, single-token arguments kept for the next one; what that makes of printed calls is CallRoundTrip.CallIsExact and CallCounts |
| RawTokens.RawTreeBuilds | MSLC/source/IR/PseudoTranslation/Postfix/PostfixBuilder.cpp:16-22 | The postfix form of the raw tokens of a printed tree, qualified names written with their scope operators, is the tree's post-order |
| RawTokens.FoldWritten | MSLC/source/IR/PseudoTranslation/Postfix/PostfixBuilder.cpp:179-217 | Writing groups down in tokens and joining identifiers around scope operators gives the groups back |
| RawTokens.NamesFold | MSLC/source/IR/PseudoTranslation/Postfix/PostfixBuilder.cpp:179-217 | Names n0::n1::...::nk are joined to one qualified name with exactly those parts |
| RawTokens.PlainFolds | MSLC/source/IR/PseudoTranslation/Postfix/PostfixBuilder.cpp:179-217 | A list without scope operators becomes one group for each token |
| RawTokens.FoldAppend | MSLC/source/IR/PseudoTranslation/Postfix/PostfixBuilder.cpp:179-217 | Two lists are joined one by one when no scope operator stands at their boundary |
| Postfix.BuildFromTokens | MSLC/source/IR/PseudoTranslation/Postfix/PostfixBuilder.cpp:16-22 | The builder for raw tokens computes the form that RawTokens.RawTreeBuilds is about |
| SyntaxTrees.PostOrderBuilds | MSLC/include/IR/PseudoTranslation/Postfix/APSTBuilder.hpp:10-18 | From the post-order of any expression exactly its node is built on top of the stack, and an error is found exactly where an index list is empty or something other than an identifier is declared |
| SyntaxTrees.BuildAPST | MSLC/include/IR/PseudoTranslation/Postfix/APSTBuilder.hpp:10-18 | The imperative builder, with its stack and recursion into groups, computes the specified tree |
| ExpressionsTranslator.AnalyzeAPST | MSLC/source/IR/PseudoTranslation/ExpressionsTranslator.cpp:27-132 | The recursive walk appends exactly the specified operations and interns exactly the specified constants |
| ExpressionsTranslator.MergeAssignment | MSLC/source/IR/PseudoTranslation/ExpressionsTranslator.cpp:93-103 | A declared variable is used at once, the right side is merged behind the left, and an assignment at its end is rewritten to leave its value |
| ConstantsTable.IdsAreUnique | MSLC/include/CompilationInfo/CommonInfo.hpp:96-106 | A value and its id determine one another, and ids given out stay valid when later values are interned |
| ConstantsTable.ImmediateConstantsTable.GetOrAdd | MSLC/include/CompilationInfo/CommonInfo.hpp:96-106 | The table holds each value once; the id is the value's index; both directions of the table agree |
| ConstantsTable.ImmediateConstantsTable.TryGetID | MSLC/include/CompilationInfo/CommonInfo.hpp:116-122 | An id is found exactly for values in the table, and it is theirs |
| ObjectRoundTrip.MoRoundTrip | MSLC/source/Packing/Packer.cpp:8-109 | Reading a written main object file gives back flags, names, linking order, constants and symbols, every section loop stopping at its end, if and only if each symbol is a variable or a function, but for an undefined last one |
| ObjectRoundTrip.OrderRead | MSLL/source/ObjectsReading/ObjectsReader.cpp:7-19 | The linking order comes back and the loop stops exactly at the section's end |
| ObjectRoundTrip.ConstantsRead | MSLL/source/ObjectsReading/ObjectsReader.cpp:20-45 | Constants of any sizes come back with id and bytes, and the loop stops exactly at the section's end |
| ObjectRoundTrip.SymbolsRead | MSLL/source/ObjectsReading/ObjectsReader.cpp:46-66 | The symbols of a section come back if and only if they are readable |
| ObjectRoundTrip.ShortSymbolRead | MSLC/source/Packing/Packer.cpp:99-102 | A symbol written short is read as itself only when it is undefined and the last one |
| CodeFormat.CoRoundTrip | MSLL/source/ObjectsReading/ObjectsReader.cpp:153-219 | A written code file gives back every operation code, argument source and datum, flag word and line, and the sizes |
| CodeFormat.OpRoundTrip | MSLC/source/Packing/Packer.cpp:143 | Every operation code is recovered from its number |
| Packer.ByterizeCompilationState | MSLC/source/Packing/Packer.cpp:8-109 | The buffer written through the advancing offset has exactly the size counted before and the bytes of the layout |
| Packer.ByterizeCommands | MSLC/source/Packing/Packer.cpp:110-156 | The buffer holds header and one 36-byte record for each command |
| Packer.WriteSymbol | MSLC/source/Packing/Packer.cpp:86-103 | A variable or function is written with offset and module, any other kind without |
| ObjectsReader.ObjectsReader.DeserializeMO | MSLL/source/ObjectsReading/ObjectsReader.cpp:68-151 | Accepts exactly the files the specification accepts and fills the linking state with what it reads |
| ObjectsReader.ObjectsReader.DeserializeCO | MSLL/source/ObjectsReading/ObjectsReader.cpp:153-219 | Reads header and records until the bytes of the stated code size are used up |
| ObjectsReader.ObjectsReader.HandleConstantsSection | MSLL/source/ObjectsReading/ObjectsReader.cpp:20-45 | Appends the constants read, with the sizes their padding makes, and counts them into the size of the read-only data |
| ConstantIdentity.ConstantReachesImage | MSLL/source/Translators/MSLVM_1/MSLVM_1Translator.cpp:556-573 | The constant interned as k, written, read back and laid out, has id k and lies at an address where the read-only data holds exactly its bytes, 8-aligned when alignment is on and before all later constants; the counted size is the size laid out |
| ExecutableImage.ImageRoundTrip | MSLDescriptor/source/Descriptor.cpp:30-86 | The interpreter gets the version, the code and the padded read-only data that the linker saved |
| ExecutableImage.SaveImage | MSLL/source/ECWriting/ExecutableCodeWriter.cpp:7-46 | The image is written at the offsets its header states |
| LinkedList.LinkedList.InsertBefore | MSLVM/include/mslvm/vm_linked_list.hpp:43-61 | Inserts exactly one node in front of the given one; links stay mutually inverse, ends and size right, all other data unchanged |
| LinkedList.LinkedList.InsertAfter | MSLVM/include/mslvm/vm_linked_list.hpp:64-82 | The same behind the given node; without one, at the front |
| LinkedList.LinkedList.PushFront | MSLVM/include/mslvm/vm_linked_list.hpp:85-102 | A new first node |
| LinkedList.LinkedList.PushBack | MSLVM/include/mslvm/vm_linked_list.hpp:105-122 | A new last node |
| LinkedList.LinkedList.Remove | MSLVM/include/mslvm/vm_linked_list.hpp:125-150 | Takes exactly the given node off; links, ends and size stay right and the cursor stays on the list |
| LinkedList.LinkedList.InsertSorted | MSLVM/include/mslvm/vm_linked_list.hpp:167-183 | The contents become those with the element at its sorted place |
| LinkedList.LinkedList.Coalesce | MSLVM/include/mslvm/vm_linked_list.hpp:186-201 | Merging in place gives the contents of merging from the front, and ends because each round removes a node or moves on |
| LinkedList.LinkedList.FindIf | MSLVM/include/mslvm/vm_linked_list.hpp:154-164 | The first node that satisfies the predicate, none exactly when no node does |
| LinkedList.InsertKeepsSorted | MSLVM/include/mslvm/vm_linked_list.hpp:167-183 | For every strict weak order a sorted insertion keeps a sorted list sorted and adds exactly the element |
| LinkedList.LinkInserted | MSLVM/include/mslvm/vm_linked_list.hpp:51-59 | Relinking the two neighbours of a gap around a new node links the longer list in both directions |
| LinkedList.LinkRemoved | MSLVM/include/mslvm/vm_linked_list.hpp:129-142 | Linking the neighbours of a node to one another links the list without it |
| Intervals.CoalescingIsExact | MSLVM/include/mslvm/vm_memory.hpp:145-154 | Coalescing an ordered disjoint free list keeps the set of free addresses if and only if the list does not reach both ends of the address space with its one gap before the last block |
| Intervals.MergedKeeps | MSLVM/include/mslvm/vm_memory.hpp:211-226 | It keeps the free addresses, order and disjointness and leaves no two neighbours touching, unless the list wraps round |
| Intervals.WrapsRoundMerged | MSLVM/include/mslvm/vm_memory.hpp:145-147 | A list that wraps round is merged into the block of all addresses although its gap was not free |
| Intervals.SplitShares | MSLVM/include/mslvm/vm_memory.hpp:123-142 | Splitting a block that is large enough shares its addresses out between the taken part and the remainder |
| FreeLists.AddKeeps | MSLVM/include/mslvm/vm_memory.hpp:194-195 | Adding a block of addresses that are not free keeps the two indices in step and frees exactly them |
| FreeLists.RemoveKeeps | MSLVM/include/mslvm/vm_memory.hpp:196-197 | Removing a block keeps the two indices in step and takes exactly its addresses |
| FreeLists.FitIsBest | MSLVM/include/mslvm/vm_memory.hpp:198-200 | The search by size finds a block of the smallest sufficient size, and none exactly when every block is too small |
| FreeLists.CoalesceKeeps | MSLVM/include/mslvm/vm_memory.hpp:211-228 | After coalescing the rebuilt index by size agrees with the list by address and the free addresses are the same |
| HeapRuns.AllocateTakes | MSLVM/include/mslvm/vm_memory.hpp:202-204 | Allocation takes exactly the rounded size from the front of the best fitting block, and fails only when no block is large enough |
| HeapRuns.AllocateIsExact | MSLVM/include/mslvm/vm_memory.hpp:202-204 | The addresses answered for were free and no longer are, if and only if rounding the size up stays a machine word |
| HeapRuns.AllocateTakesNothing | MSLVM/include/mslvm/vm_memory.hpp:202-204 | When the rounding wraps, an address is given and nothing is taken |
| HeapRuns.AlignedTakes | MSLVM/include/mslvm/vm_memory.hpp:205-206 | Aligned allocation takes exactly the addresses it answers for, aligned, and fails only when no block has room from an aligned address on |
| HeapRuns.FreeGives | MSLVM/include/mslvm/vm_memory.hpp:207-208 | Freeing gives back exactly the rounded addresses and merges neighbours; it fails only for no size or past the last address |
| HeapRuns.ServedShared | MSLVM/include/mslvm/vm_memory.hpp:202-225 | Every legal request keeps each address of the heap either free or in exactly one block in use |
| HeapRuns.RunsShareOut | MSLVM/include/mslvm/vm_memory.hpp:165-231 | The same over every run of requests |
| HeapRuns.EverythingComesBack | MSLVM/include/mslvm/vm_memory.hpp:165-231 | From the initial heap, after any run, once nothing is in use the free list is the one initial block again |
| FreeLists.AddIsExact | MSLVM/include/mslvm/vm_memory.hpp:194-195 | Adding a block keeps the lists ordered, disjoint and in step if and only if none of its addresses is free already |
| HeapRuns.SetTwiceOverlaps | MSLVM/include/mslvm/vm_memory.hpp:187-192 | Setting up an untouched heap a second time makes its addresses free twice |
| HeapFreeIntervals.HeapFreeIntervals.Set | MSLVM/include/mslvm/vm_memory.hpp:187-192 | Adds the whole heap as one block; blocks that were there stay |
| HeapExact.AlignedComesBack | MSLVM/include/mslvm/vm_memory.hpp:205-208 | For every free list in order and every aligned request that is served, giving the block back with the size asked for restores the free lists and addresses if and only if the size is a multiple of the alignment |
| HeapExact.OddDoesNotComeBack | MSLVM/include/mslvm/vm_memory.hpp:205-208 | Otherwise either the rounded tail was free, and the lists overlap and never recover, or it was in use, and bytes of another block become free |
| HeapExact.FreeIsExact | MSLVM/include/mslvm/vm_memory.hpp:207-208 | Freeing leaves the lists in order if and only if none of the rounded addresses was free |
| HeapExact.LegalSizesNeeded | MSLVM/include/mslvm/vm_memory.hpp:205-208 | So the condition on aligned sizes in legal requests is needed: without it the addresses are no longer shared out rightly |
| HeapFreeIntervals.HeapFreeIntervals.Allocate | MSLVM/include/mslvm/vm_memory.hpp:202-204 | On the linked list and the index by size: the lists and the answer are those of the specification, unless the search would run past the largest word |
| HeapFreeIntervals.HeapFreeIntervals.AllocateAligned | MSLVM/include/mslvm/vm_memory.hpp:205-206 | The walk over the nodes finds the first block that fits; the lists and the answer are those of the specification |
| HeapFreeIntervals.HeapFreeIntervals.Free | MSLVM/include/mslvm/vm_memory.hpp:207-208 | The lists and the answer are those of the specification |
| HeapFreeIntervals.HeapFreeIntervals.FindFitBlock | MSLVM/include/mslvm/vm_memory.hpp:198-200 | The loop over sizes finds the specified block, unless it would run past the largest word |
| HeapFreeIntervals.HeapFreeIntervals.AddInterval | MSLVM/include/mslvm/vm_memory.hpp:194-195 | Sorted insertion into the linked list and appending in the index by size |
| HeapFreeIntervals.HeapFreeIntervals.RemoveInterval | MSLVM/include/mslvm/vm_memory.hpp:196-197 | Removal of the first equal node from the linked list and of the block from its size's list |
| HeapFreeIntervals.HeapFreeIntervals.RebuildSizeIndex | MSLVM/include/mslvm/vm_memory.hpp:227-228 | The walk over the list rebuilds the index of its contents |
| ChunkArrays.ChunkArray.Get | MSLC/include/Definitions/ChunkArray.hpp:153-162 | Reads the element of the sequence, or reports an index out of range |
| ChunkArrays.ChunkArray.Set | MSLC/include/Definitions/ChunkArray.hpp:211-220 | Replaces one element of the sequence, or reports an index out of range and changes nothing |
| ChunkArrays.ChunkArray.Pushback | MSLC/include/Definitions/ChunkArray.hpp:331-341 | Appends one element, with a new chunk exactly when the capacity is used up |
| ChunkArrays.ChunkArray.Popback | MSLC/include/Definitions/ChunkArray.hpp:355-368 | Drops the last element; the capacity still covers the size when the chunk dropped is a reserved one |
| ChunkArrays.ChunkArray.Overwrite | MSLC/include/Definitions/ChunkArray.hpp:222-242 | Replaces a part from an index on and grows at the end; refused past the size |
| ChunkArrays.ChunkArray.OverwriteBack | MSLC/include/Definitions/ChunkArray.hpp:267-285 | A part that fits replaces the tail, a longer one is appended |
| ChunkArrays.ChunkArray.PushbackAll | MSLC/include/Definitions/ChunkArray.hpp:305-317 | Appends all elements when the capacity is there |
| ChunkArrays.ChunkArray.Reserve | MSLC/include/Definitions/ChunkArray.hpp:420-425 | Adds chunks up to the capacity asked for and keeps every element |
| ChunkArrays.ChunkArray.Copy | MSLC/include/Definitions/ChunkArray.hpp:89-97 | A copy has equal elements in chunks of its own |
| ChunkArrays.ChunkArray.Assign | MSLC/include/Definitions/ChunkArray.hpp:99-113 | Assignment copies the elements and leaves the source alone |
| ChunkArrays.OverwrittenAt | MSLC/include/Definitions/ChunkArray.hpp:232-241 | What stands at each index after a part is written |

## Left out

- Floating point: real operations are translated and linked like the others, but have no meaning in the two machines; which VM operations they become is in UnperformedOperations.
- Pointers in code generation: taking addresses, dereferencing, indexing and pointer variables; array literals and object creation.
- Functions: calls, returns, external calls, symbols of functions; the linker's empty operations for them are refused here.
- PUSH, POP, LEA_DYNAMIC, exponentiation and heap commands have no meaning in the byte machine; programs that use them are outside the simulation.
- Logical Not, increments and decrements emit nothing and are refused in expressions with a meaning.
- Declarations in expressions: their type analysis and registration of variables; frames and addresses of declared variables are in Frames.
- Qualified names in expressions: they are folded and printed, but not looked up in namespaces.
- Whole programs from source to machine are one module without declarations; several modules are joined at the level of byte programs. Frames opened and closed by blocks emit no command; a frame closed too often is only reported, in Frames.
- Values of literals: decoding a text is a parameter, and literals are told apart by their text, where the code tells them apart by their value.
- Logical Not, indexing and the other operators without a meaning here are outside the theorems on which expressions are translated.
- Assignments with the operator ~= are outside the meaning of statements.
- Calls are read on their own: a call as an operand or as an argument of another call is in neither theorem on reading tokens.
- The bracket collector ignores parentheses and compares strings only; literals spelled like a bracket or a comma are excluded inside brackets.
- The words new and to are built into trees but excluded from printed expressions.
- Source lines and debug fields of emitted commands; the debug section of object files is 100 zero bytes.
- Reading past the end of a buffer and unknown numbers in files are failures here and undefined in the original.
- Startup.HeapOffersItsEnd: writing behind the end of memory is a fault of the model's own; the original guards writes from below only, so that such a write is undefined there.
- The executable image's header flags stay zero; the loader checks the range of the code only.
- VM.Turn: a write or a copy into read-only data by a program's last operation is a fault here; the original notices it only before the next operation and then ends without reporting it.
- MemoryLaws.CopyIsExact: overlapping ranges are copied as if apart; the original's memcpy is undefined there.
- VM.Run: registers after a fault and the instruction pointer of a faulting operation are not modelled.
- Operands of loads and stores have at most 8 bytes.
- FreeLists.Allocate: an alignment of 0 is excluded.
- HeapFreeIntervals.HeapFreeIntervals.Allocate: a search that finds no block while the largest size ever recorded is 2^64 - 1 is excluded: the code's counter then wraps round to smaller sizes or never ends.
- HeapFreeIntervals.HeapFreeIntervals.FindFitBlock: the same search is excluded; it returns the block, not the node of the size list that holds it, and the lists by size are sequences here.
- HeapRuns.RunsShareOut: requests give blocks back with the size asked for, and aligned sizes are multiples of the alignment, which HeapExact.LegalSizesNeeded shows to be needed.
- ChunkArrays.ChunkArray.PushbackAll: needs the capacity, because the original adds no chunk and would index past its chunks; the code lists of the translator are sequences and so never run out.
- ChunkArrays.ChunkArray.Overwrite: an array is not written over itself, where the original reads a size that grows; moving versions are left out.
- Object lifetimes, reference counts and allocation failure.
- File access, paths, console output and error texts; the lexer, the preprocessor and the tree of statements; low-level blocks, for cycles, namespaces and attributes.
- Translator.Translator.HandleCommand: symbols of functions, which the original relocates to an offset in native code, are refused.
- Codegen.ByteTranslationState.GenerateLoadCommand: operands at dynamic addresses and behind pointers are not modelled.
- Codegen.ByteTranslationState.HandleArithmeticLogic: arithmetic on pointers is not modelled.
- Codegen.ByteTranslationState.HandleAssignment: targets at dynamic addresses are not modelled.
- Codegen.ByteTranslationState.HandleUsing: pointer variables are not modelled.
- Codegen.ByteTranslationState.Translate: declarations and pointer operations are not modelled and emit nothing.
- ExpressionsTranslator.AnalyzeAPST: declarations, qualified names and array literals come back as outside the model.
- ConstantIdentity.ConstantReachesImage: starts from the state's constants; the interning before it is in Literals.TextsAreLoaded.
- SourceProgram.SourceProgramRuns: that code generation accepts the program, and the table of its constants, are given; WholeProgram.WholeProgramRuns has neither as a hypothesis, for programs of trees.
- SourceToMachine.SourceExpressionRuns: values of literals are those of the context; Literals.SourceLiteralsRun ties them to their texts.
- SourceToMachine.SourceAssignmentRuns: likewise, with Literals.SourceAssignmentLiteralsRun.
