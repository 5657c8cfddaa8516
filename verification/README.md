# NANDy, modelled and verified

NANDy is an 8-bit processor built from NAND gates, with a toolchain around it: an assembler, an
emulator, a reference heap allocator for its programs, and Verilog for parts of the hardware. This
project models six parts of it and proves properties of the models.

* **The heap** (`HeapBlocks`, `HeapMemory`, `HeapRuns`, `NMalloc`). `NMalloc` is the allocator on an
  array of bytes. It is proved against functions on byte sequences (`HeapMemory`), those against a
  first-fit allocator on lists of blocks (`HeapBlocks`), and `HeapRuns` is about all sequences of
  mallocs, frees and writes by the user.
* **Expressions** (`Operators`, `Lexer`, `ShuntingYard`, `Grammar`, `ParserCorrectness`, `Levels`,
  `Statuses`, `AdjacentUnary`, `Words`, `Names`, `Printer`, `Comparisons`, `ParseExp`). `ParseExp` holds the loops and
  stacks of the two-stack evaluator. They are proved against functions, and those against a grammar and a
  recursive evaluator of trees; `Levels` names its precedences. `Statuses` says which error comes back when, `Words` when an expression
  has a value and which, by its names. A unary operator directly behind another unary operator is where
  evaluator and grammar part; `AdjacentUnary` says exactly when.
* **The assembler** (`SymTab`, `LabelParser`, `Assembler`, `AssemblerState`, `Encoding`, `Image`,
  `AssemblerRun`, `AssemblerTheorems`, `SymbolsGrow`, `Definitions`, `Files`, `FirstPhase`, `RestOfFile`,
  `RestExamples`, `StaticMemory`, `Locations`, `EarlyLate`). `AssemblerState` is the assembler that writes
  its ROM in place, `Assembler` the functions it computes, `Encoding` the bytes each line stands for. The main results are that the ROM
  is the encoding of every line under the final symbol table, that it does not depend on which operands
  are filled in at once, and exactly which programs get through each of the two phases.
* **The emulator, and programs on it** (`Isa`, `MachineCode`, `Alu`, `Processor`, `BitLaws`, `Emulator`,
  `SourceMachine`, `Stacks`, `Execution`, `Simulation`, `DeviceMoves`, `ProgramRun`, `LoopExample`,
  `Interrupts`, `InterruptLaws`, `InterruptedPrograms`, `FileRuns`). `Emulator` is `emu_step` on mutable
  state, `Processor` the function it computes. `SourceMachine` executes the lines of a program as they are
  written, with macros as single steps and jumps to lines. The main results are that the assembled ROM
  follows the source machine on every run, that interrupt handlers which restore what they use cannot be
  noticed by the program they interrupt, both together, and exactly when a handler is entered.
* **Adders** (`Alu`, `Adder`). Carry chains over bytes compute big integers, and the NAND netlists of
  the ripple adder and the adder/subtractor compute sums and agree with the emulator's functions.
* **Devices** (`Uart`, `CompactFlash`). The serial transmitter, from its registers to the bytes a
  receiver samples from the wire, and the emulated CompactFlash card on a disk image.

`Bytes` holds what all of them share. All quantities are unbounded integers, with wrap-around and
truncation written out.

The first attempt at an operand is given the rest of the file (Toolchain/src/nandy_tools.c:79), the second
one the operand alone. The theorems about the assembler hold for any choice of lines on which an operand, by
itself, is tried at once. `Files.FileIsProgram` carries them over to every file: where the first attempt
succeeds, what it has seen is the operand. `Files` and `FileRuns` state the main results for files, and
`RestOfFile` what it comes to when operands are expressions.

## Where the code differs from what it is meant to do

* The bytes of `adc`, `sbc` and `jcr` decode to `add`, `sub` and `jc`; a byte decodes to the instruction it
  was assembled for if and only if that is none of the three (`Execution.DecodesExactly`). `adc` still does
  what it is for if and only if the carry is clear and the sum is below 256, `sbc` if and only if the carry
  is set and nothing is borrowed, `jcr` if and only if the carry is clear or p already holds the way back
  (`Execution.AdcExactly`, `Execution.SbcExactly`, `Execution.JcrExactly`).
* An operator pushed directly on a unary one evaluates it before its operand is there. In `1 + - - 2`
  the first minus goes to the 1 (`AdjacentUnary.MinusMinus`, `Printer.MinusMinusText`). The evaluator is
  right whatever the operator functions exactly on the expressions in which no unary operator directly
  follows another
  (`AdjacentUnary.RightExactlyWithoutClash`, `ParserCorrectness.ParseCorrect`).
* SHUNT_MISMATCHED_OPEN is never returned; a missing closing parenthesis gives SHUNT_MISSING_VALUE
  (`Statuses.MissingParenthesis`, and `Statuses.TextStatus` for every text).
* Literals are read into 32 bits, so one of 2^31 or more need not have its value (`Printer.PrefixedReads`).
* `<=` is computed as `>=`, so a comparison of two expressions tells the truth if and only if it is not `<=`
  or their values are equal (`Comparisons.ComparisonsExactly`).
* Leftover definitions are evaluated in the order of the lines, and only once. A name that is defined by
  an expression works on an earlier line only if the first phase could evaluate it. Defining a by b, b by
  c and then labelling a line c fails, in the other order it does not (`Definitions.OrderMatters`); the
  exact condition is `Definitions.AssemblesExactly`.
* The first attempt at an operand is given the rest of the file; it succeeds if and only if both together are
  an expression over the names bound by then (`Files.SucceedsExactly`). For operands that are expressions
  that is so on the last line only (`RestOfFile.SeenExactly`). Defining a by b and then b by ISR assembles,
  but not with a comment behind it (`RestExamples.CommentDecides`). An operand that is no expression can be
  completed by the line behind it: `rdi 1 +` in front of a line `nop` assembles if there is a label nop
  (`RestExamples.RunsOn`), and then it is `1 + nop` that is encoded and run (`Files.FileImage`,
  `FileRuns.FileSimulates`).
* Sizes and locations have to be known at once, and definitions are not, as long as something follows them:
  `@define SIZE 16` followed by `@static buf SIZE` fails (`RestExamples.SizeByName`), and in no file can
  @static, @memloc or @loc use a name defined by @define (`RestOfFile.SizesUseNoDefinitions`).
* `@static` stops at 0xFF00, but handlers have their stack from 0xFE00 on, so static memory can lie on it
  (`StaticMemory.StackCollides`, and `StaticMemory.StaticsAndStack` for exactly when).
* The guide (Design/ProgrammersGuide.md:188-202) puts the main stack at 0xFE00 and that of handlers at
  0xFF00, and has both wrap around. In the emulator it is the other way round, sp is signed, so that from
  0x80 on handlers are on the main stack, and nothing wraps around inside a page (`Stacks.StackExactly`,
  `Stacks.GuideExactly`, `Stacks.StacksMeet`).
* A divisor that is a power of two does not fit the divider of the transmitter, and then bits last one
  clock (`Uart.BitLastsDivisorPlusOne`).
* The error bit in the card's status, once set, is never cleared, while the error register is cleared by
  every command (`CompactFlash.CommandReports`, and `CompactFlash.ErrorBitStays` over whole runs).
* A read command for zero sectors leaves the card with a pointer that moves on until it runs over the end
  of the disk. No data is requested all the while, or, if the command came in the middle of a transfer,
  data is requested without end (`CompactFlash.CommandInv`, `CompactFlash.ReadingNothing`).

## Model

| member | source | states |
|---|---|---|
| HeapBlocks.AllocIsFirstFit | ReferenceImplementations/src/n_malloc.c:15-53 | on any tiling, allocation fails if and only if no maximal run of adjacent free blocks is longer than sz + 2, and otherwise returns the payload of the lowest such run, of which it takes sz + 2 bytes if it is longer than sz + 5 and all of it otherwise |
| HeapBlocks.AllocTiles | ReferenceImplementations/src/n_malloc.c:24-39 | splitting and merging keep the blocks a tiling of the same addresses |
| HeapBlocks.AllocKeepsUsed | ReferenceImplementations/src/n_malloc.c:24-47 | allocation adds one block to those in use, disjoint from all of them, with at least the requested size and at most 3 bytes more |
| HeapBlocks.FailureCoalesces | ReferenceImplementations/src/n_malloc.c:42-52 | after a failed allocation no two adjacent blocks are free |
| HeapBlocks.AllocSeesMerged | ReferenceImplementations/src/n_malloc.c:15-53 | allocation has the same result on a list and on the list with all free runs merged |
| HeapBlocks.ReleaseSeesMerged | ReferenceImplementations/src/n_malloc.c:55-58 | so does freeing |
| HeapMemory.HeaderReadsBack | ReferenceImplementations/src/n_malloc.c:29-38 | a header of 15 address bits and a used bit reads back as it was written |
| HeapMemory.MallocRefines | ReferenceImplementations/src/n_malloc.c:15-53 | malloc on the bytes is the allocation on the list of blocks that the bytes describe, and keeps the chain of headers |
| HeapMemory.MallocWritesFreeSpace | ReferenceImplementations/src/n_malloc.c:29-46 | malloc changes no byte of a payload in use |
| HeapMemory.FreeRefines | ReferenceImplementations/src/n_malloc.c:55-58 | clearing the used bit releases exactly that block |
| HeapMemory.WriteKeepsBlocks | ReferenceImplementations/src/n_malloc.c:8-13 | writing inside a payload does not disturb the headers |
| HeapMemory.InitHeap | ReferenceImplementations/src/n_malloc.c:10-13 | over arbitrary memory, initialisation leaves one free block from 0x8000 to 0xFF00 |
| HeapRuns.StepKeepsInv | ReferenceImplementations/src/n_malloc.c:10-58 | every malloc, free of a live pointer and write inside a live payload keeps the heap invariant |
| HeapRuns.AllocatorLeavesPayloads | ReferenceImplementations/src/n_malloc.c:15-58 | no allocator step changes a byte of a payload that stays live |
| HeapRuns.LivePayloadsDisjoint | ReferenceImplementations/src/n_malloc.c:15-53 | live payloads lie in the heap and are disjoint, with a header between them |
| HeapRuns.HeapSafety | ReferenceImplementations/src/n_malloc.c:10-58 | on every reachable heap the headers tile 0x8000 to 0xFF00 in blocks of at least 2 bytes whose sizes sum to 0x7F00, and live payloads have their size and at most 3 bytes more |
| HeapRuns.MallocCriterion | ReferenceImplementations/src/n_malloc.c:15-53 | on every reachable heap malloc returns 0 if and only if no maximal free run is longer than sz + 2, and otherwise the start of the lowest such run, of which it takes exactly so much |
| HeapRuns.FailedMallocCoalesces | ReferenceImplementations/src/n_malloc.c:42-52 | a failed malloc leaves no two adjacent free blocks |
| HeapRuns.EverythingFreed | ReferenceImplementations/src/n_malloc.c:19-53 | once nothing is live a request succeeds exactly when sz <= 0x7EFD, whatever happened before |
| HeapRuns.HistoryInvisible | ReferenceImplementations/src/n_malloc.c:15-58 | heaps with the same live blocks and the same free runs, however split up, give the same results on every sequence of operations |
| NMalloc.Allocator.Init | ReferenceImplementations/src/n_malloc.c:10-13 | the array afterwards, and the one free block it describes |
| NMalloc.Allocator.Coalesce | ReferenceImplementations/src/n_malloc.c:20-23 | the inner loop finds the end of the free run |
| NMalloc.Allocator.ClaimBlock | ReferenceImplementations/src/n_malloc.c:24-39 | the headers written for the block taken and for what is left over |
| NMalloc.Allocator.Malloc | ReferenceImplementations/src/n_malloc.c:15-53 | result and array are those of the specification, the blocks those of first-fit allocation, and 0 is returned exactly when nothing fits |
| NMalloc.Allocator.Free | ReferenceImplementations/src/n_malloc.c:55-58 | exactly the freed block goes out of use |
| Lexer.LongestIsLongest | Toolchain/src/shuntingyard.c:118-130 | the symbol chosen stands at the position, and no symbol that does is longer |
| Lexer.LexMonotone | Toolchain/src/shuntingyard.c:118-217 | text that lexes under a table lexes to the same tokens under every extension of it by new identifiers |
| ShuntingYard.ExecIsRun | Toolchain/src/shuntingyard.c:165-217 | reading and evaluating in one pass is reading first and evaluating then; text that does not lex is never accepted |
| ShuntingYard.ParseExpMonotone | Toolchain/src/shuntingyard.c:159-239 | an expression with a value has the same value under every extension of the symbol table |
| ShuntingYard.PushBalanced | Toolchain/src/shuntingyard.c:178-212 | every token keeps the number of values equal to the number of pending binary operators, plus one behind an operand |
| ShuntingYard.ExecBalanced | Toolchain/src/shuntingyard.c:165-217 | so it does over the whole input, for every input, as long as the status is DONE |
| Statuses.StatusIsVerdict | Toolchain/src/shuntingyard.c:165-235 | the status of every sequence of tokens, read off the sequence: TOO_MANY_POP if and only if two unary operators meet in front of the first operand, otherwise MISMATCHED_CLOSE if and only if a closing parenthesis has no opening one, otherwise NO_VALUES if and only if there is no token, otherwise MISSING_VALUE if and only if a parenthesis is left open or the end is not the end of an operand, otherwise DONE |
| Statuses.TextStatus | Toolchain/src/shuntingyard.c:159-239 | the same for every text, where text that breaks off is UNRECOGNIZED unless the tokens in front of that give TOO_MANY_POP or MISMATCHED_CLOSE; so MISMATCHED_OPEN and TOO_MANY_POP_PAREN never come back |
| Statuses.MissingParenthesis | Toolchain/src/shuntingyard.c:218-235 | an opening parenthesis and a number give MISSING_VALUE |
| ParserCorrectness.ParseCorrect | Toolchain/src/shuntingyard.c:159-239 | the tokens of every tree with the parentheses that priorities and left associativity need evaluate to the tree's recursive value |
| ParserCorrectness.AcceptedHasTree | Toolchain/src/shuntingyard.c:165-235 | every accepted token sequence without adjacent unary operators is the yield of such a tree |
| ParserCorrectness.AcceptanceIsGrammar | Toolchain/src/shuntingyard.c:165-235 | without adjacent unary operators, a sequence evaluates to v if and only if it is the yield of a well-formed tree of value v |
| ParserCorrectness.ParseExpIsGrammar | Toolchain/src/shuntingyard.c:159-239 | the same for text |
| Levels.DerivesExactly | Toolchain/src/shuntingyard_funcs.c:36-66 | the well-formed trees are those of a grammar with one nonterminal for each level of operators, from || up to * / %, each associating to the left, and prefixed operators above them |
| Levels.AcceptedByLevels | Toolchain/src/shuntingyard.c:165-235 | without adjacent unary operators, a sequence evaluates to v if and only if it is the writing of an expression of that grammar with value v |
| Levels.TextByLevels | Toolchain/src/shuntingyard.c:159-239 | the same for text |
| Levels.TwoOperators | Toolchain/src/shuntingyard_funcs.c:36-66 | of any two binary operators around an operand the second takes it if and only if it is of a tighter level |
| AdjacentUnary.RightExactlyWithoutClash | Toolchain/src/shuntingyard.c:196-211 | under operator functions that count what they are applied to, the evaluator gives the value of the tree if and only if no unary operator directly follows another, which is when ParseCorrect applies under all operator functions |
| AdjacentUnary.MinusMinus | Toolchain/src/shuntingyard.c:198-208 | the tokens of 1 + - - 2 evaluate to the sum of the two negations |
| Printer.MinusMinusText | Toolchain/src/shuntingyard.c:198-208 | so does the text |
| Printer.PrefixedReads | Toolchain/src/shuntingyard.c:41-97 | a numeral of any length in either case of letter, behind 0x or 0X, 0b or 0B, 0o or 0O for base 16, 2 or 8 or behind nothing for base 10, and in front of no letter or digit, is read as its number, in 32 bits |
| Printer.BadNumeral | Toolchain/src/shuntingyard.c:66-97 | behind a prefix, a numeral followed by a letter or too large a digit is no number, and neither is no numeral at all |
| Printer.LongestOperator | Toolchain/src/shuntingyard.c:132-141 | where operators stand that may, the one read is a longest one |
| Printer.BlanksSkipped | Toolchain/src/shuntingyard.c:168-169 | exactly the six blanks are skipped, and any other character at which no token stands breaks the text off |
| Printer.CharactersRead | Toolchain/src/charparse.c:3-40 | a character in quotes is its code, and an escaped one what the escape stands for |
| Printer.PrintReads | Toolchain/src/shuntingyard.c:66-141 | printed tokens lex back to themselves under every table of identifiers |
| Printer.PrintedParses | Toolchain/src/shuntingyard.c:159-239 | the printed text of every well-formed tree evaluates to the value of the tree |
| Words.LexIsReading | Toolchain/src/shuntingyard.c:165-217 | text lexes under a table of identifiers if and only if it reads as words and operators and all its names are bound, and then to the same tokens with values for names |
| Words.ValueExactly | Toolchain/src/shuntingyard.c:159-239 | text has a value if and only if it is an expression, which does not depend on the table, and all its names are bound |
| Words.ValueOfTree | Toolchain/src/shuntingyard.c:159-239 | text that reads as the yield of a well-formed tree over names and numbers has the value of the tree with values for names |
| Names.NameIsItsValue | Toolchain/src/shuntingyard.c:118-130 | the name of a symbol, with or without blanks around it, has the value of the symbol, even when other names are prefixes of it |
| Names.UnknownName | Toolchain/src/shuntingyard.c:213-216 | a name that is not bound, with or without blanks around it, is UNRECOGNIZED, even when some symbol is a prefix of it |
| Comparisons.ComparisonsExactly | Toolchain/src/shuntingyard_funcs.c:18-24 | the comparison of any two expressions evaluates to the truth about their values if and only if it is not <= or the values are equal |
| Comparisons.ComparisonTexts | Toolchain/src/shuntingyard_funcs.c:18-24 | so does every text that lexes to such a comparison |
| ParseExp.OpStack.Push | Toolchain/src/shuntingyard.c:23-34 | the growing array holds the old elements and the new one |
| ParseExp.OpStack.Pop | Toolchain/src/shuntingyard.c:36-39 | the last element, and the others remain |
| ParseExp.ParseNumeric | Toolchain/src/shuntingyard.c:66-86 | the loop computes the number of the specification, in 32 bits |
| ParseExp.ParseInt | Toolchain/src/shuntingyard.c:89-97 | the loop over the prefixes finds the number |
| ParseExp.ParseSymbol | Toolchain/src/shuntingyard.c:118-130 | the loop over the table finds the longest symbol |
| ParseExp.ParseOperator | Toolchain/src/shuntingyard.c:132-141 | the loop over the operator table finds the first operator that stands there and may |
| ParseExp.EvalOperator | Toolchain/src/shuntingyard.c:143-155 | fails on parentheses and missing values and changes nothing then; otherwise replaces operands by the result |
| ParseExp.CloseLoop | Toolchain/src/shuntingyard.c:183-195 | the loop of a closing parenthesis does what the specification says |
| ParseExp.PopLoop | Toolchain/src/shuntingyard.c:198-208 | the loop of an incoming operator does |
| ParseExp.FlushLoop | Toolchain/src/shuntingyard.c:218-224 | the loop at the end does |
| ParseExp.ParseExpression | Toolchain/src/shuntingyard.c:159-239 | the whole method returns the value or status that the theorems above are about |
| SymTab.LookupBind | Toolchain/src/symtab.c:16-46 | the last value put under a name is found, and other names keep theirs |
| SymTab.BindKeepsUnique | Toolchain/src/symtab.c:16-33 | names stay unique |
| SymTab.BindExtends | Toolchain/src/symtab.c:16-33 | a new identifier is appended and makes an extension of the table |
| SymTab.Table.Put | Toolchain/src/symtab.c:16-33 | the growing array afterwards holds the old table with the name bound |
| SymTab.Table.Get | Toolchain/src/symtab.c:35-46 | the linear scan finds the value, or nothing |
| LabelParser.ParseLabel | Toolchain/src/nandy_asm_tools.c:14-39 | the scanning loop computes: a word, blanks, a colon |
| LabelParser.LabelsAreIdentifiers | Toolchain/src/nandy_asm_tools.c:10-39 | a label is found if and only if the line starts with an identifier, blanks other than a line end, and a colon |
| Encoding.OrOffset | Toolchain/src/instrs_jump.c:57-58 | or-ing three offset bits into the opcode of a jump adds them |
| Encoding.OrImm4 | Toolchain/src/nandy_parse_tools.c:96-109 | or-ing four offset bits into a byte whose low bits are clear adds them |
| Image.ApplyFills | Toolchain/src/instrs_temp_macros.c:6-55 | a resolver that succeeds turns the blank bytes of its line into the line's encoding and writes no other byte |
| Image.EmitPairHolds | Toolchain/src/instrs_temp_macros.c:22-32 | the macro's own opcodes leave the operand bytes alone |
| Image.PlaceResult | Toolchain/src/nandy_parse_tools.c:141-191 | every line writes its own bytes only: complete if its operand is known and fits, blank with a fixup otherwise |
| AssemblerRun.AddLine | Toolchain/src/nandy_asm_tools.c:54-97 | every line keeps the invariant: lines do not overlap, finished lines are encoded, waiting ones are blank and have their fixup |
| AssemblerRun.ResolveHead | Toolchain/src/nandy_asm_tools.c:103-111 | every fixup keeps the invariant and finishes its line |
| AssemblerTheorems.ScanInv | Toolchain/src/nandy_asm_tools.c:54-97 | the whole first phase establishes the invariant |
| AssemblerTheorems.ImageIsEncoding | Toolchain/src/nandy_asm_tools.c:98-113 | for every program that redefines no name and assembles, whichever lines are tried at once, the ROM holds at each line's address the encoding of the line under the final symbol table, lines do not overlap, and every other byte is zero |
| SymbolsGrow.FinalExtends | Toolchain/src/nandy_asm_tools.c:98-113 | what the first phase binds, and FREE_MEM, is bound to the same values at the end, and all names are identifiers |
| Definitions.KnownIsDomain | Toolchain/src/nandy_asm_tools.c:54-97 | which names the first phase binds, read off the lines |
| Definitions.AssemblesExactly | Toolchain/src/nandy_asm_tools.c:98-113 | a program that gets through the first phase assembles if and only if every operand is an expression over the names of the first phase, FREE_MEM and the definitions on earlier lines, and every value fits |
| Definitions.NamesDecide | Toolchain/src/nandy_asm_tools.c:98-113 | for programs of definitions, immediates and memory accesses the names alone decide |
| Definitions.OrderMatters | Toolchain/src/nandy_asm_tools.c:103-111 | defining a by b, b by c and then labelling a line c fails with names unresolved, whichever lines are tried at once; with the first two lines exchanged it assembles |
| FirstPhase.ScansExactly | Toolchain/src/nandy_asm_tools.c:54-97 | the first phase succeeds if and only if on every line it reaches sizes and locations are expressions over the names bound by then and in range, the line fits the ROM, and the accumulator is not moved to or from itself |
| FirstPhase.FileScansExactly | Toolchain/src/nandy_asm_tools.c:54-97 | the same for every file |
| Files.FileIsProgram | Toolchain/src/nandy_tools.c:74-100 | every file assembles to what the program does whose operands are, where the first attempt succeeds, the operand and the rest of the file, tried by themselves at once on those lines and no others |
| Files.SucceedsExactly | Toolchain/src/nandy_tools.c:74-82 | the first attempt on a line that is reached succeeds if and only if operand and rest of the file together are an expression over the names bound by then, and its value fits |
| Files.FileExactly | Toolchain/src/nandy_asm_tools.c:98-113 | every file that gets through the first phase assembles if and only if each operand whose first attempt failed is by itself an expression over the names of the first phase, FREE_MEM and the definitions on earlier lines, and its value fits |
| Files.FileImage | Toolchain/src/nandy_asm_tools.c:98-113 | the ROM of every file that assembles holds at each line's address its encoding, with the operand as seen, under the final symbol table, and zeros elsewhere |
| FileRuns.FileSimulates | Toolchain/src/nandy_asm_tools.c:54-113 | for every file that assembles, every run of the source machine on the lines with the operands as seen is a run of the processor on the ROM, and the two agree behind every line |
| FileRuns.FileResetTracks | Toolchain/src/nandy_tools.c:9-11 | and at reset the processor is where the source machine starts |
| FileRuns.InterruptedFileFollowsSource | Toolchain/src/nandy_emu_tools.c:37-68 | so it does for every file under any arrival of interrupts with handlers that restore what they found |
| RestOfFile.SeenExactly | Toolchain/src/shuntingyard.c:159-239 | with the rest of the file behind it, an expression has its own value if only blanks follow, and no value otherwise |
| RestOfFile.FileAssembles | Toolchain/src/nandy_tools.c:74-100 | if moreover all operands are expressions, a file assembles to what it does when operands alone are tried at once where nothing but blanks follows, and nowhere else |
| RestOfFile.FileAssemblesExactly | Toolchain/src/nandy_asm_tools.c:98-113 | so a file of such operands that gets through the first phase assembles if and only if its names are available in that order and the values fit |
| RestOfFile.SizesUseNoDefinitions | Toolchain/src/instrs_macros.c:72-150 | in a file of such operands with something behind every operand but the last, the sizes and locations of @static, @memloc and @loc use no name that @define defines |
| RestExamples.CommentDecides | Toolchain/src/nandy_tools.c:74-82 | two definitions that assemble, and fail with a comment behind them |
| RestExamples.RunsOn | Toolchain/src/nandy_tools.c:74-82 | a file that assembles although an operand is no expression, because the first attempt joins it to the next line, and both are its operand as seen; with attempts at operands alone it fails |
| RestExamples.SizeByName | Toolchain/src/instrs_macros.c:134-150 | a definition of SIZE and a static allocation of that size do not assemble |
| EarlyLate.EarlyAgreesWithLate | Toolchain/src/nandy_tools.c:74-100 | if assembly with every fixup and definition deferred succeeds, then so does assembly that tries any lines at once, with the same ROM, the same addresses, and the same symbols |
| StaticMemory.StaticsDoNotOverlap | Toolchain/src/instrs_macros.c:103-157 | in every program that redefines no name and assembles, static allocations lie one behind the other above the ROM and end by 0xFF00, their names stand for where they start in the final symbol table, and FREE_MEM lies behind all of them |
| Locations.LocMoves | Toolchain/src/instrs_macros.c:72-97 | in every program that gets through the first phase the line behind @loc stands at the value of its text |
| Locations.RamFollows | Toolchain/src/instrs_macros.c:103-157 | and the next allocation starts at the value behind @memloc, behind @static as many bytes later as it asks for, with its name bound to the first of them, and behind any other line where it would have |
| Locations.RamEnds | Toolchain/src/nandy_asm_tools.c:98-102 | it starts at 0x8000, and ends up at FREE_MEM |
| Locations.HandlerPlaced | Toolchain/src/instrs_macros.c:72-97 | the line behind @loc ISR has its bytes at 0x7F00, and a label there stands for 0x7F00 |
| Locations.HandlerStarts | Toolchain/src/nandy_emu_tools.c:61-66 | a program with such a line goes on at it when it is interrupted, with everything else as it was |
| StaticMemory.NotReadExactly | Toolchain/src/nandy_parse_tools.c:197-203 | no instruction in stack mode reads a span if and only if it is empty or keeps clear of 0xFE00 to 0xFE8E |
| StaticMemory.NotWrittenExactly | Toolchain/src/nandy_parse_tools.c:197-203 | none writes it if and only if it also keeps clear of the first 15 bytes of the RAM |
| StaticMemory.StaticsAndStack | Toolchain/src/instrs_macros.c:134-150 | in every program that redefines no name and assembles, stack mode never reads static memory if and only if every allocation is empty, ends by 0xFE00 or starts behind 0xFE8E, and never writes it if and only if none lies in the first 15 bytes of the RAM either |
| StaticMemory.StackCollides | Toolchain/src/instrs_macros.c:144-150 | a program that assembles with an allocation at 0xFE00, where a handler with sp 0 has its stack |
| EarlyLate.ConverseFails | Toolchain/src/nandy_asm_tools.c:98-113 | a program of two definitions that assembles if the last line is tried at once, and not if everything is deferred |
| AssemblerState.AsmState.AddLabel | Toolchain/src/nandy_tools.c:65-72 | the symbol table afterwards |
| AssemblerState.AsmState.ResolveFixup | Toolchain/src/instrs_jump.c:48-64 | the resolvers write what the specification says, and nothing if they fail |
| AssemblerState.AsmState.WritePair | Toolchain/src/instrs_temp_macros.c:6-21 | both operand bytes, if the value has 16 bits |
| AssemblerState.AsmState.AddUnresolvedFixup | Toolchain/src/nandy_tools.c:74-100 | resolves the operand with the rest of the file behind it at once, or appends a fixup with the operand alone for the current location |
| AssemblerState.AsmState.EmitPairCode | Toolchain/src/instrs_temp_macros.c:22-32 | the five instructions around the operand bytes |
| AssemblerState.AsmState.MoveLine | Toolchain/src/instrs_temp_macros.c:108-130 | the register instructions of a move, case by case |
| AssemblerState.AsmState.SwapLine | Toolchain/src/instrs_temp_macros.c:136-158 | the register instructions of a swap |
| AssemblerState.AsmState.DirectLine | Toolchain/src/instrs_macros.c:20-157 | labels, definitions, assertions, static allocation and locations, with their error cases |
| AssemblerState.AsmState.AssembleProgram | Toolchain/src/nandy_asm_tools.c:54-113 | both phases: the state of a file that the theorems are about, or the error |
| Isa.LookupIsDecode | Toolchain/src/nandy_emu_tools.c:10-27 | for every byte, searching the instruction list finds what a decoding by ranges says, and never adc, sbc or jcr |
| MachineCode.AluOpcodes | Toolchain/include/nandy_definitions.h:9-55 | the opcodes of the arithmetic unit are made of its operation number and the flags for immediate operands, the carry and the choice between two instructions |
| MachineCode.OtherOpcodes | Toolchain/include/nandy_definitions.h:9-43 | all other opcodes are made of the flags for reading, writing, loading, conditions and returning |
| MachineCode.Numbers | Toolchain/include/nandy_definitions.h:64-81 | registers and memory modes are numbered in this order |
| Alu.AddChainAdds | Toolchain/src/nandy_alufuncs.c:11-17 | chained additions of k bytes give the sum modulo 256^k with the right carry |
| Alu.SubChainSubtracts | Toolchain/src/nandy_alufuncs.c:19-25 | chained subtractions from carry 1 give the difference modulo 256^k, and carry exactly when A >= B |
| Alu.ShiftLeftDoubles | Toolchain/src/nandy_alufuncs.c:27-33 | chained left shifts double the whole number |
| Alu.ShiftRightHalves | Toolchain/src/nandy_alufuncs.c:35-41 | chained right shifts halve it, and the bit shifted out is the carry |
| Alu.ShiftsUndo | Toolchain/src/nandy_alufuncs.c:27-41 | a right shift with the carry of a left shift undoes it |
| Adder.AdderAdds | Simulation/src-old/addern.v:11-19 | for every width from 2 on, whatever the carry wires settle on, q + 2^width * cout = a + b + cin |
| Adder.AdderSettles | Simulation/src-old/addern.v:11-19 | there are such values for all inputs |
| Adder.AddSubIsAlu | Simulation/src-old/addsub.v:18-52 | at width 8 the adder/subtractor gives the result and carry of the emulator's addition or subtraction in every mode |
| Emulator.Decoder.ILookup | Toolchain/src/nandy_emu_tools.c:10-27 | the cache, filled at first use, gives what searching the list gives |
| Emulator.Machine.ExeRMove | Toolchain/src/instrs_register.c:6-37 | the register instructions on mutable state |
| Emulator.Machine.GetMemAddr | Toolchain/src/nandy_parse_tools.c:197-211 | the address of a memory access, and p moved in +p mode |
| Emulator.Machine.ExeRelative | Toolchain/src/instrs_jump.c:85-136 | the relative jumps |
| Emulator.Machine.ExeIndirect | Toolchain/src/instrs_jump.c:6-38 | the jumps through p and out of a handler |
| Emulator.Machine.EmuStep | Toolchain/src/nandy_emu_tools.c:37-68 | one step on mutable state is the step the theorems are about; it stops on invalid bytes and breakpoints |
| SourceMachine.GetSet | Toolchain/src/instrs_register.c:6-37 | the nine registers do not overlap, although four of them are halves of p and q |
| Stacks.StackExactly | Toolchain/src/nandy_parse_tools.c:201-203 | stack mode stays in its page of 256 bytes, wrapping around in it, if and only if sp is below 0x80 in a handler, or the offset does not leave the page elsewhere |
| Stacks.GuideExactly | Design/ProgrammersGuide.md:188-202 | it is where the guide says, with the two pages exchanged, only in handlers with sp from 0x80 on |
| Stacks.StacksMeet | Toolchain/src/nandy_parse_tools.c:201-203 | a handler's stack access meets the other stack if and only if sp is at least 0x80 |
| Execution.OffsetRoundTrip | Toolchain/src/instrs_jump.c:48-83 | an offset split into three and eight bits decodes to itself if and only if it is in -1024..1023, the range the resolver accepts |
| Execution.RelativeRuns | Toolchain/src/instrs_jump.c:48-119 | the bytes of a jump at any address land exactly on the target, or behind the jump when the carry is clear for jc, and jr leaves the way back in p |
| BitLaws.BitwiseAt | Toolchain/src/instrs_regbit.c:19-55 | every bit that and, or and xor compute is the and, or or exclusive or of the two bits |
| BitLaws.BitwiseSums | Toolchain/src/instrs_regbit.c:19-55 | as numbers, and and or add up to the operands, and or is and plus xor |
| BitLaws.AndMasks | Toolchain/src/instrs_immbit.c:30-39 | and with 2^k - 1 is the remainder by 2^k |
| BitLaws.XorUndoes | Toolchain/src/instrs_immbit.c:43-52 | xor with the same byte twice changes nothing |
| Execution.PlainRuns | Toolchain/src/nandy_emu_tools.c:37-68 | the bytes of instructions without operands do what the source machine says |
| Execution.RegisterRuns | Toolchain/src/instrs_register.c:6-37 | so do rd, wr and sw of every register, devices included |
| Execution.ImmediateRuns | Toolchain/src/nandy_parse_tools.c:175-180 | so do instructions with an immediate byte |
| Execution.MemoryRuns | Toolchain/src/nandy_parse_tools.c:182-211 | so do ld and st in all modes |
| Execution.DecodesExactly | Toolchain/src/nandy_emu_tools.c:10-27 | of the instructions a byte matches, the emulator finds m if and only if m is not adc, sbc or jcr |
| Execution.CarryFormsRunAsPlain | Toolchain/src/instrs_regadd.c:20-57 | the bytes of adc and sbc act as add and sub |
| Execution.AdcExactly | Toolchain/src/instrs_regadd.c:20-29 | the byte of adc does what adc means if and only if the carry is clear and the sum is below 256 |
| Execution.SbcExactly | Toolchain/src/instrs_regadd.c:46-57 | the byte of sbc does what sbc means if and only if the carry is set and the accumulator is not the smaller operand |
| Execution.JcrRunsAsJc | Toolchain/src/instrs_jump.c:129-144 | the bytes of jcr act as jc |
| Execution.JcrExactly | Toolchain/src/instrs_jump.c:129-144 | the bytes of jcr do what jcr means if and only if the carry is clear or p already holds the way back |
| Simulation.PairLoads | Toolchain/src/instrs_temp_macros.c:22-82 | the instructions of rdp, rdq and rdja set all 16 bits of the pair and change nothing else, neither accumulator nor carry |
| Simulation.MoveIsSet | Toolchain/src/instrs_temp_macros.c:123-127 | sw, wr, sw copies one register to another and changes nothing else |
| Simulation.SwapIsExchange | Toolchain/src/instrs_temp_macros.c:151-155 | sw, sw, sw exchanges two registers and changes nothing else |
| DeviceMoves.MoveFromDevice | Toolchain/src/instrs_temp_macros.c:119-122 | a move from the device register asks the selected device once and leaves its answer in the register, and changes nothing else |
| DeviceMoves.MoveToDevice | Toolchain/src/instrs_temp_macros.c:123-127 | a move to it tells the device the contents of the register, and changes nothing |
| DeviceMoves.SwapWithDevice | Toolchain/src/instrs_temp_macros.c:147-155 | a swap with it, in either order, does both in one step |
| DeviceMoves.AccumulatorAndDevice | Toolchain/src/instrs_temp_macros.c:115-118 | moves and swaps of the accumulator with it are rd, wr and sw |
| Simulation.PairJumps | Toolchain/src/instrs_temp_macros.c:88-102 | the bytes of goto and call lead to the target, and call leaves the way back in p |
| Simulation.LineRuns | Toolchain/src/nandy_emu_tools.c:37-68 | the bytes of every line, wherever they stand, do in so many steps what the line means |
| ProgramRun.LinesPlaced | Toolchain/src/nandy_asm_tools.c:98-113 | the operand of every line has a value that fits, and the ROM holds the line's code at its address |
| ProgramRun.AddrsFollow | Toolchain/src/nandy_asm_tools.c:54-97 | each line stands where the one before it ends, except behind a jump of the location |
| ProgramRun.Simulates | Toolchain/src/nandy_asm_tools.c:54-113 | for every program that assembles, every run of the source machine is a run of the processor on the ROM, and the two agree behind every line |
| ProgramRun.ResetTracks | Toolchain/src/nandy_tools.c:9-11 | a processor at reset is where the source machine starts |
| ProgramRun.OperandIsExpression | Toolchain/src/nandy_asm_tools.c:98-113 | an operand that reads as the yield of a well-formed tree over labels and numbers has the value of the tree with the addresses of the labels' lines |
| ProgramRun.LabelIsLine | Toolchain/src/nandy_asm_tools.c:74-78 | an operand that is the name of a label, with or without blanks around it, is the address of the label's line, defined before or behind it |
| ProgramRun.ReturnsToNextLine | Toolchain/src/instrs_temp_macros.c:88-92 | after call and jr, a jump through that p leads to the line behind the whole call sequence |
| LoopExample.LoopBuilds | Toolchain/src/nandy_asm_tools.c:98-113 | the program of a label and a jump to it assembles, whichever lines are tried at once |
| LoopExample.LoopsForever | Toolchain/src/instrs_jump.c:66-88 | from reset it is back at the label after any number of steps |
| Interrupts.HandlersDoNotNest | Toolchain/src/nandy_emu_tools.c:61-66 | inside a handler none is entered and the way back is kept until jxi, which leads to exactly the interrupted instruction or straight into the next handler with the same way back |
| InterruptLaws.EntersExactly | Toolchain/src/nandy_emu_tools.c:48-66 | outside handlers one is entered, at 0x7F00, if and only if interrupts are enabled after the instruction and a line is up, and a handler is left by jxi unless that is so; the two lines are bits 0 and 1 |
| InterruptLaws.IpollReads | Toolchain/src/instrs_regbit.c:5-10 | ipoll reads the lines, and in the two highest bits, besides, whether interrupts are enabled and whether a handler is active |
| InterruptLaws.StepTakes | Toolchain/src/nandy_emu_tools.c:37-68 | a step takes two clocks for instructions of two bytes and memory accesses, and one for all others |
| Interrupts.ExecAlike | Toolchain/src/nandy_emu_tools.c:37-46 | an instruction that neither looks at interrupts nor at memory in h keeps states alike that differ only there |
| Interrupts.InterruptsAreTransparent | Toolchain/src/nandy_emu_tools.c:37-68 | under any arrival of interrupts, if every handler activation restores the registers, the carry, the interrupt enable and the memory the program uses, then outside handlers the program is where it would be had it run alone, and inside it waits at exactly the instruction it resumes with |
| InterruptedPrograms.InterruptedProgramFollowsSource | Toolchain/src/nandy_emu_tools.c:37-68 | from reset, an assembled program under any arrival of interrupts with such handlers stands, outside handlers, at the line its source run has come to, with the same registers and, outside the handlers' own, the same memory |
| Uart.Transmitter.Posedge | Simulation/fpga/uart_tx.v:29-59 | one clock edge on the registers, with both outputs |
| Uart.WireIsProtocol | Simulation/fpga/uart_tx.v:29-59 | for every width, divisor and sequence of inputs the wire is high when idle and otherwise carries one frame per accepted byte, and inputs during a frame have no effect |
| Uart.ReceivedAreAccepted | Simulation/fpga/uart_tx.v:29-59 | sampling in the middle of each bit gives exactly the bytes offered while the transmitter was ready |
| Uart.BitLastsDivisorPlusOne | Simulation/fpga/uart_tx.v:25-53 | a bit lasts the divisor plus one clocks if and only if the divisor is one or not a power of two |
| CompactFlash.Device.CfCommand | Toolchain/src/ios_compactflash.c:131-176 | the commands on mutable registers, and when the emulator gives up |
| CompactFlash.Device.IoStep | Toolchain/src/ios_compactflash.c:222-280 | a step in which the card is selected: reading, writing, or both |
| CompactFlash.CommandInv | Toolchain/src/ios_compactflash.c:131-176 | a command keeps the transfer invariant if and only if it is not a read of zero sectors |
| CompactFlash.StepInv | Toolchain/src/ios_compactflash.c:222-280 | so does any access, and no access that starts in the invariant reads outside its buffer |
| CompactFlash.RunInv | Toolchain/src/ios_compactflash.c:222-280 | on every run without such reads, DRQ is set exactly while a transfer is live, and its pointer stays inside its region |
| CompactFlash.RunFromPowerUp | Toolchain/src/ios_compactflash.c:222-280 | so it is on every such run from power-up |
| CompactFlash.Transfer | Toolchain/src/ios_compactflash.c:242-254 | data reads deliver the region in order, whatever other registers are read or written in between |
| CompactFlash.CommandReads | Toolchain/src/ios_compactflash.c:134-154 | a read of sectors that are there starts a transfer of exactly those bytes; otherwise the emulator gives up |
| CompactFlash.ReadSectors | Toolchain/src/ios_compactflash.c:121-257 | over one list of events from power-up, after any history without such reads, writes that make the registers address n sectors and the read command: the program goes on if and only if the sectors are there, and then up to 512 n data reads return their bytes in order, and a read of the status gives 0x40, with 8 until the last of them and 1 if some command was rejected |
| CompactFlash.ReadIdentity | Toolchain/src/ios_compactflash.c:155-157 | the same for the identity and its 512 bytes |
| CompactFlash.CylindersExit | Toolchain/src/ios_compactflash.c:134-138 | a read by cylinder ends the program |
| CompactFlash.RegistersKept | Toolchain/src/ios_compactflash.c:263-280 | a register keeps the last value written to it |
| CompactFlash.RegisterAnswer | Toolchain/src/ios_compactflash.c:255-256 | over any run from power-up registers 2 to 6 read back the last byte written to them |
| CompactFlash.StatusAnswer | Toolchain/src/ios_compactflash.c:255-256 | the status reads as 0x40, with 8 while data is requested and 1 if some command was rejected |
| CompactFlash.ErrorAnswer | Toolchain/src/ios_compactflash.c:239-241 | the error register reads as 5 if the last command was rejected and as 0 otherwise |
| CompactFlash.NoCardAnswers | Toolchain/src/ios_compactflash.c:258-260 | without a disk every register reads as 0xFF |
| CompactFlash.CommandReports | Toolchain/src/ios_compactflash.c:61-64 | after a command the error register tells whether it was rejected; the error bit of the status is set by a rejection and never cleared; only the two known features change the data width |
| CompactFlash.ErrorBitStays | Toolchain/src/ios_compactflash.c:61-64 | after any run the error bit is set if and only if it was before or some command was rejected |
| CompactFlash.ReadingNothing | Toolchain/src/ios_compactflash.c:121-154 | after a read of zero sectors any number of data reads deliver the disk from the addressed sector on, and the program goes on if and only if they stop by the end of the disk; DRQ stays as it was, set exactly if the command came in the middle of a transfer |

## Left out

- NMalloc.Allocator.Malloc: requests are not negative and the C integer does not overflow for huge ones; the array holds unsigned bytes, where a signed char would be sign-extended when headers are read.
- NMalloc.Allocator.Free: only pointers that malloc returned and that are still live are freed.
- ParseExp.ParseExpression: the functions of the operator table are parameters, so division by zero and overflow are not modelled; the scanning of numeric escapes in character literals is a parameter too.
- SymTab.Table.Get: the parent of a table, which is never set, is not modelled.
- RestOfFile.FileAssembles: what the C library reads as a numeric escape in a character literal is a parameter, taken not to depend on text behind the character that follows the escape.
- AssemblerState.AsmState.AssembleProgram: a program that does not fit the ROM fails, where the C code writes behind the array; lines are given parsed, so that mnemonics, comments and register names are not modelled, except for labels.
- ProgramRun.Simulates: not for register adc and sbc and for jcr, whose bytes are those of other instructions; nor for moves and swaps with the device register, whose runs are in DeviceMoves; nor across @loc. No interrupts arrive; they are the subject of InterruptedPrograms.
- Interrupts.InterruptsAreTransparent: what devices put into the accumulator is an input of each step, the same with and without interrupts.
- Uart.WireIsProtocol: a data byte is the sequence of its bits, lowest first.
- The macros isc, isp and pusha and the directives @string and @macro.
- Devices other than the card: their bytes and interrupt lines are inputs.
- The card behind a serial port, the contents of IDENTIFY, and cylinder addressing, which ends the program.
- Gate delays in the Verilog, and the Verilog processor itself.
- The debugger, the disassembler, argument parsing, files, and the failure of memory allocation in the C programs.
- The unused parity function and the timer and 16550 devices.
