# A one-accumulator processor, its assembler and its statistics keeper

This project models, in Dafny, the three logic components of a small
teaching emulator written in Python.

- **Processor** (`processor.py`). A von Neumann machine with one accumulator:
  - state: a 4096-cell memory, `ACC`, `PC`, `IR`, the four flags ZF, SF,
    CF and OF, a `halted` bit and a step counter;
  - instruction word: a 4-bit opcode (HALT, LOAD, STORE, ADD, SUB, CMP,
    JMP, JZ, JNZ = 0..8) above a 12-bit field;
  - operand decoding: for LOAD, ADD, SUB and CMP, a field below 256 is a
    direct address, one below 512 is an indirect address through cell
    `field - 256`, and anything from 512 up is the literal `field - 512`.
- **Assembler** (`assembler.py`). A two-pass assembler:
  - pass one binds labels to addresses;
  - pass two translates each line into a 16-bit word, using the offsets
    512 (immediate `#n`), 256 (indirect `(n)`), 1024 (register `Rk`) and
    0 (direct);
  - the errors of all rejected lines are collected, each tagged with its
    line number;
  - a listing formatter writes the result back as text.
- **Performance monitor** (`PerformanceMonitor` in `enhanced_gui.py`). It
  keeps a count per executed mnemonic and append-only histories of memory
  accesses and register values.

How the project is laid out:

- Module `Machine` gives the processor's meaning on values. A state is a
  `Cpu` value and each operation is a function from the old state to the
  new one.
- Class `Emulator.Processor` does the same work in place, on an
  `array<nat>` of 4096 cells. Each of its methods is proved to leave the
  state that the corresponding `Machine` function computes.
- The assembler follows the same split:
  - module `Assembly` holds the functions;
  - class `AssemblerObject.Assembler` holds the label table, the variable
    table and the address counter, which its methods update;
  - module `AssemblyProofs` proves what the two passes guarantee together.
- Module `Interop` connects the assembler's encoding to the processor's
  decoding, and states what the programs of the repository's own tests
  compute when run to completion.
- Module `Monitor` holds the statistics class.
- Module `Isa` holds the word layout and the opcode table that all three
  components share.
- Module `Text` holds the Python string operations the code relies on
  (`strip`, `split`, `upper`, `int`, `str`, hexadecimal formatting), as
  they behave on ASCII text.

Python's `&` on integers that may be negative is written out in two places:

- `Machine.Mask16` gives `& 0xFFFF` as the non-negative remainder modulo 2^16;
- `Assembly.Low12` gives `& 0xFFF` by adding or removing multiples of 4096,
  and `Assembly.Low12IsRemainder` proves that this is the remainder modulo
  4096.

So a negative operand such as `#-5` gets the field the Python code gives it
(507).

Where the repository's written description and its code differ, the model
follows the code:

- The processor has no register file R0-R15 and no register-indirect
  execution. A register operand `Rk` assembles to field 1024 + k, which the
  processor reads as the literal 512 + k.
- `reset` keeps the memory.
- ADD and SUB compute their flags from the already masked accumulator, so
  they never set CF. Only CMP sees the unmasked difference.

## Model

| member | source | states |
|---|---|---|
| Isa.Opcode | processor.py:220 | the opcode of a word is bits 15..12, a value below 16 |
| Isa.Field | processor.py:221 | the operand field of a word is bits 11..0, a value below 4096 |
| Isa.WordSplits | processor.py:220-221 | every 16-bit word is its opcode times 4096 plus its field |
| Isa.Name | processor.py:27-37 | every defined opcode has a non-empty mnemonic without whitespace |
| Isa.OpcodeOf | assembler.py:11-21 | a mnemonic found in the table maps to a defined opcode whose name is that mnemonic |
| Isa.NoOpcode | assembler.py:115-116 | a text the table does not map is no opcode's mnemonic |
| Isa.NameRoundTrip | processor.py:39-40 | the table is one-to-one: looking up an opcode's mnemonic gives that opcode back |
| Machine.Initial | processor.py:7-24 | a fresh processor has 4096 memory cells |
| Machine.Mask16 | processor.py:144 | `& 0xFFFF` yields a value below 2^16 and keeps any value already below it |
| Machine.MaskedFlags | processor.py:119-131 | flags taken from a masked accumulator: ZF iff zero, SF and OF iff bit 15 is set, CF never |
| Machine.FlagsFor | processor.py:119-131 | ZF exactly when the result is 0, and then no other flag; CF implies OF; a result within [-32768, 32767] sets neither CF nor OF; for a result in 0..65535, SF is bit 15; a negative result down to -32768 sets SF |
| Machine.OperandValue | processor.py:137-143 | field < 256 reads memory[f]; 256..511 reads through the pointer in cell f-256, or 0 when the pointer is beyond memory; from 512 the literal f-512 (< 3584) |
| Machine.Execute | processor.py:133-205 | executing one instruction keeps the 4096-cell memory |
| Machine.AluOps | processor.py:150-174 | LOAD, ADD and SUB leave (v, ACC+v, ACC-v) mod 2^16 in ACC, take their flags from that masked ACC (so CF stays clear), and change nothing else |
| Machine.Compare | processor.py:176-186 | CMP changes only the flags, from the unmasked r = ACC - v: ZF iff r = 0, SF iff bit 15 of r mod 2^16, CF iff r leaves [-65536, 65535], OF iff r leaves [-32768, 32767] |
| Machine.CompareExamples | tests/test_processor.py:116-134 | with ACC = 10, `CMP #15` sets SF and clears ZF; `CMP #10` sets ZF and clears SF |
| Machine.StoreAndJumps | processor.py:147-201 | STORE writes the masked ACC to the raw field address and nothing else; JMP sets PC to the field; JZ and JNZ set it to the field when taken and to PC+1 when not |
| Machine.UndefinedOpcodes | processor.py:133-205 | opcodes outside 0..8 change nothing |
| Machine.Step | processor.py:207-232 | a step keeps the 4096-cell memory |
| Machine.StepWhenHalted | processor.py:209-210 | on a halted processor `step` fails and changes nothing |
| Machine.StepPastMemory | processor.py:213-215 | with PC past memory `step` fails and only sets `halted` |
| Machine.StepFetchesAndAdvances | processor.py:217-231 | a successful step loads IR from memory[PC] and counts one step; PC goes to the field for JMP and taken JZ/JNZ, stays for HALT, else PC+1; it halts exactly on HALT; only STORE changes memory and only LOAD/ADD/SUB change ACC |
| Machine.Run | processor.py:234-241 | a bounded run keeps the 4096-cell memory |
| Machine.RunAccounting | processor.py:234-241 | `run(n)` performs at most n steps (none for n <= 0); step_count rises by exactly the steps performed; a still-running result used the whole budget; a halted processor is left alone |
| Machine.RunSplits | processor.py:237-240 | running with budget a and then b is running with budget a + b |
| Machine.SpinsForever | processor.py:188-189 | a JMP to its own address uses every step of any budget, refetches the same word, counts each step and never halts |
| Machine.Reset | processor.py:42-50 | reset gives the initial registers, cleared flags, running state and zero count, with the memory kept |
| Machine.Poke | processor.py:54-56 | the loaders' loop leaves words[i] in cell start+i where that cell exists, and every other cell unchanged |
| Machine.LoadProgram | processor.py:52-57 | memory keeps its length; cell start+i gets words[i] where that cell exists and every other cell is unchanged; PC becomes `start` and nothing else changes |
| Machine.LoadData | processor.py:59-63 | the same writes to memory, with PC and every other register unchanged |
| Machine.Disassemble | processor.py:254-266 | HALT is shown as "HALT" alone; any other defined opcode starts with its mnemonic; an undefined opcode starts with "UNKNOWN " followed by more text |
| Machine.DisassembleUnknown | processor.py:265-266 | an undefined opcode is shown as "UNKNOWN oooo fff", whose hexadecimal parts read back as the opcode and the field |
| Machine.Dump | processor.py:268-275 | the dump of a range has at most one line per cell |
| Machine.DumpListsNonZero | processor.py:271-274 | every non-zero cell of the range has its line in the dump |
| Machine.NonZeroCells | processor.py:271-272 | the non-zero addresses of a range, strictly increasing, each in range with a non-zero cell |
| Machine.NonZeroCellsComplete | processor.py:271-272 | every non-zero address of the range is among them |
| Machine.DumpOfNonZeroCells | processor.py:268-275 | the dump is exactly one line per non-zero cell, in address order |
| Emulator.Processor.constructor | processor.py:7-40 | a new processor is the initial state: zero registers, cleared flags, all-zero 4096-cell memory, running |
| Emulator.Processor.Reset | processor.py:42-50 | the in-place reset leaves the state `Machine.Reset` gives, memory untouched |
| Emulator.Processor.WriteWords | processor.py:54-56 | the loaders' loop writes the array exactly as `Machine.Poke` says |
| Emulator.Processor.LoadProgram | processor.py:52-57 | writes the program from `start` and sets PC to `start` |
| Emulator.Processor.LoadData | processor.py:59-63 | writes the data from `start` and leaves PC and the other registers alone |
| Emulator.Processor.GetOperandValue | processor.py:65-76 | the integer branch: immediate gives the operand; direct and indirect read memory, with 0 for any address beyond it |
| Emulator.Processor.ReadOperand | processor.py:137-143 | the range test on the field returns `Machine.OperandValue` |
| Emulator.Processor.UpdateFlags | processor.py:119-131 | only the flags change, to those `Machine.FlagsFor(result)` gives |
| Emulator.Processor.ExecuteInstruction | processor.py:133-205 | the new state is `Machine.Execute` of the old one |
| Emulator.Processor.Step | processor.py:207-232 | returns whether the step succeeded; the new state is `Machine.Step` of the old one |
| Emulator.Processor.Run | processor.py:234-241 | the loop leaves the state `Machine.Run` gives and returns `not halted` |
| Emulator.Processor.MemoryDump | processor.py:268-275 | returns `Machine.Dump` of the range from `start`, cut at the end of memory |
| Assembly.ParseOperand | assembler.py:32-70 | an accepted operand never has type none; a register number is in 0..15; an indirect value is non-negative |
| Assembly.Low12 | assembler.py:75 | `& 0xFFF` yields a value below 4096 |
| Assembly.Low12IsRemainder | assembler.py:84 | `& 0xFFF` is the non-negative remainder modulo 4096, negative operands included |
| Assembly.Encode | assembler.py:72-88 | the word lies in its opcode's block: opcode * 4096 <= word < opcode * 4096 + 4096 |
| Assembly.EncodeDecodes | assembler.py:72-88 | an encoded word is below 2^16; its top four bits give back the opcode and its field is (operand + offset) mod 4096 |
| Assembly.EncodeExamples | tests/test_processor.py:311-323 | `LOAD #5` encodes to 0x1205, `STORE 100` to 0x2064 and `HALT` to 0 |
| Assembly.Clean | assembler.py:91-102 | after stripping, comment cutting and label splitting, a line's body does not start with whitespace |
| Assembly.CommentCut | assembler.py:95-96 | a line without ';' is kept as it is; what is left holds no ';', and a stripped line stays stripped |
| Assembly.CommentCutParts | assembler.py:95-96 | a line with a ';' becomes the stripped text before its first ';' |
| Assembly.MakeInstr | assembler.py:120-129 | HALT with operand 0 of type none encodes to the word 0 |
| Assembly.Translate | assembler.py:105-129 | a body yields no instruction exactly when `split()` finds no words in it |
| Assembly.TranslateWords | assembler.py:108-129 | given the words, no instruction comes back exactly when there are none |
| Assembly.TranslateDecodes | assembler.py:112-129 | a translated word is below 2^16, its top four bits are the opcode of its mnemonic, and a HALT word is 0 with operand type none |
| Assembly.ParseLine | assembler.py:90-139 | the counter rises by one exactly when an instruction comes back, and that instruction's address is the old counter; no label is lost, and labels other than the line's own keep their addresses |
| Assembly.ParseCode | assembler.py:98-139 | the line's label is bound to the counter even when the line is rejected; the line yields no instruction exactly when its body has no words; counter and address as above |
| Assembly.Assemble | assembler.py:180-183 | a failure carries at least one error |
| Assembly.FormatRecord | assembler.py:207-216 | a listing line is the four-digit hexadecimal address, ": ", the four-digit hexadecimal word and a space, followed by the label and instruction columns, which end the line |
| Assembly.OperandTextIsWord | assembler.py:196-205 | the listing writes an operand as a single word without whitespace, empty only for type none |
| AssemblerObject.Assembler.constructor | assembler.py:9-25 | a new assembler has no labels, no variables and counter 0 |
| AssemblerObject.Assembler.Reset | assembler.py:27-30 | reset empties both tables and sets the counter to 0 |
| AssemblerObject.Assembler.ParseLine | assembler.py:90-139 | the new label table, counter and result are those of `Assembly.ParseLine`; the variables are never changed |
| AssemblerObject.Assembler.ParseCode | assembler.py:98-139 | the same for a line already cut into label and body |
| AssemblerObject.Assembler.Assemble | assembler.py:141-183 | returns `Assembly.Assemble(source)` (every record, or every numbered error) and leaves the tables of the second pass |
| AssemblerObject.Assembler.FirstPass | assembler.py:148-168 | the first loop leaves the label table and counter of `Assembly.Pass1` |
| AssemblerObject.Assembler.BindLine | assembler.py:151-165 | one line of the first loop: binds the line's label to the counter and counts a line that has text after its label |
| AssemblerObject.Assembler.SecondPass | assembler.py:170-178 | the second loop restarts the counter and collects the records and line-numbered errors of `Assembly.Pass2` |
| AssemblerObject.Assembler.FormatProgram | assembler.py:186-220 | one listing line per record, in order, the k-th being the format of the k-th record |
| AssemblyProofs.ParseLineBinds | assembler.py:99-103 | a line that defines a label binds it to the counter it was read with |
| AssemblyProofs.ParseLineCounts | assembler.py:105-130 | an accepted line advances the counter exactly when it has text after its label, the rule the first pass uses |
| AssemblyProofs.CleanParts | assembler.py:91-102 | a line is skipped exactly when it is blank after stripping or starts with ';'; otherwise its body is stripped and holds no ';', a label holds neither ';' nor ':' and is stripped, and a body without a label holds no ':' |
| AssemblyProofs.CleanSplits | assembler.py:95-102 | with u the stripped line cut at its first ';': a line that is not blank has a label exactly when u holds a ':'; the label is the stripped text before the first ':' and the body the stripped text after it; without a label the body is u |
| AssemblyProofs.Pass1Counts | assembler.py:149-165 | the first pass counts exactly the lines that have text after their label |
| AssemblyProofs.Pass1Binds | assembler.py:158-161 | after the first pass, a label is bound to the number of counted lines before its last definition |
| AssemblyProofs.Pass1Unbound | assembler.py:158-161 | a name that no line defines is not in the label table |
| AssemblyProofs.Pass2Step | assembler.py:172-178 | each line adds at most one record, addressed with the counter that it advances, or at most one error tagged with its line number |
| AssemblyProofs.Pass2Records | assembler.py:129-139 | the records of the second pass have addresses 0, 1, 2, ... and the counter ends at their number |
| AssemblyProofs.Pass2Errors | assembler.py:172-178 | errors carry strictly increasing line numbers between 1 and the number of lines; records plus errors never exceed the lines |
| AssemblyProofs.Pass2Grows | assembler.py:172-178 | records and errors only grow: a prefix of the lines gives a prefix of each |
| AssemblyProofs.LineOutcome | assembler.py:172-178 | line i adds exactly one error, numbered i + 1 with `parse_line`'s reason, when rejected; exactly its record when it gives one; nothing otherwise |
| AssemblyProofs.LaterErrors | assembler.py:172-178 | errors added after the first k lines carry line numbers above k |
| AssemblyProofs.LineReported | assembler.py:172-178 | a rejected line is reported with its number and reason, and every report with its number gives that reason |
| AssemblyProofs.ErrorsExactlyRejected | assembler.py:172-178 | the errors are exactly the rejected lines: each rejected line is reported, and each report names a rejected line and its reason |
| AssemblyProofs.ErrorJustified | assembler.py:177-178 | each report names a rejected line and its reason |
| AssemblyProofs.NoEarlierErrors | assembler.py:172-178 | a pass without errors has none in any prefix of its lines |
| AssemblyProofs.RecordOfLine | assembler.py:172-176 | without errors, a line with text after its label gives the record numbered by the counted lines before it, and any other line gives none |
| AssemblyProofs.KeptBefore | assembler.py:172-178 | before any line defines it, a name keeps the address the first pass gave it |
| AssemblyProofs.KeptAfter | assembler.py:172-178 | after line i defines a name, and until another line does, the binding made on line i stays |
| AssemblyProofs.BoundOnItsLine | assembler.py:99-103 | the line that defines a name binds it to the counter it was read with |
| AssemblyProofs.LineKeeps | assembler.py:99-103 | a line of the second pass that does not define a name keeps its binding |
| AssemblyProofs.LabelKept | assembler.py:99-103 | `parse_line` on a line that does not define a name keeps its binding |
| AssemblyProofs.CountersAgree | assembler.py:148-178 | when no line is rejected, both passes count the same lines |
| AssemblyProofs.LabelStable | assembler.py:170-178 | in an error-free program, a label defined once is in the table before every line of the second pass, with the first pass's address |
| AssemblyProofs.LabelsAgree | assembler.py:148-178 | forward and backward references agree: such a label resolves everywhere to the number of counted lines before its definition |
| AssemblyProofs.AssembleShape | assembler.py:141-183 | `assemble` returns one record per counted line with addresses 0, 1, 2, ..., or a non-empty list of errors with increasing line numbers |
| AssemblyProofs.AssembleReports | assembler.py:141-183 | `assemble` succeeds only when no line is rejected; on failure it reports every rejected line with its number and reason, and nothing else, so it fails exactly when some line is rejected |
| AssemblyProofs.AssembleRecords | assembler.py:141-183 | on success, record j is what `parse_line` gives for the j-th line with text after its label, and every other line gives nothing |
| AssemblyProofs.OperandByClass | assembler.py:32-70 | `parse_operand` on each syntax class ('#', parentheses, "R" and more, anything else), with every branch and its error |
| AssemblyProofs.OperandKinds | assembler.py:32-70 | the type of an accepted operand is fixed by its syntax alone, in both directions |
| AssemblyProofs.OperandValues | assembler.py:32-70 | the value of an accepted operand: `int()` after '#'; the number or label address in parentheses; the register number; for a direct operand the number, label, variable or integer literal, in that order |
| AssemblyProofs.OperandErrors | assembler.py:32-70 | each rejection and exactly when it happens, with the text it names; `parse_operand` never reports a mnemonic error |
| AssemblyProofs.RegisterSyntaxFirst | assembler.py:49-63 | register syntax comes before the label table: a label named "RESULT" is rejected as a bad register |
| AssemblyProofs.TranslateRejects | assembler.py:112-127 | given the words, a line is rejected exactly for an unknown mnemonic, a missing operand after a mnemonic other than HALT, or an operand `parse_operand` rejects, each with its reason |
| AssemblyProofs.TranslateAccepts | assembler.py:112-129 | an accepted instruction has the upper-cased first word as mnemonic and the encoding of its opcode and operand; HALT takes operand 0 of type none; any other mnemonic takes the operand `parse_operand` reads from the second word |
| AssemblyProofs.UpperName | assembler.py:112 | `upper()` keeps every mnemonic |
| AssemblyProofs.OperandRoundTrip | assembler.py:32-70 | the text the listing writes for an operand parses back to the same value and type, under any tables, unless a negative direct operand is also a name |
| AssemblyProofs.ImmediateRoundTrip | assembler.py:34-36 | "#n" parses back as immediate n, negative n included |
| AssemblyProofs.IndirectRoundTrip | assembler.py:39-42 | "(n)" parses back as indirect n |
| AssemblyProofs.RegisterRoundTrip | assembler.py:49-54 | "Rk" parses back as register k for k in 0..15 |
| AssemblyProofs.DirectRoundTrip | assembler.py:60-68 | "n" parses back as direct n, and a negative n does so through `int()` when it is not a name |
| AssemblyProofs.InstructionRoundTrip | assembler.py:108-129 | the line "MNEMONIC operand" translates to the instruction with that opcode, mnemonic, operand, type and encoded word |
| AssemblyProofs.InstructionParts | assembler.py:108-127 | the line "MNEMONIC operand" the listing writes splits into those two words, whose first names the opcode and whose second parses back to the operand |
| AssemblyProofs.ListingReadsBack | assembler.py:207 | a listing line starts with the address and the word as four hexadecimal digits each, which read back as those numbers |
| Interop.ImmediateOperand | processor.py:142-143 | an assembled `#v` with 0 <= v < 3584 reaches LOAD/ADD/SUB/CMP as the value v |
| Interop.NegativeImmediateReadsMemory | assembler.py:75 | `#-5` becomes field 507, which the processor reads indirectly through cell 251 |
| Interop.DirectOperand | processor.py:137-138 | an assembled direct address below 256 reads that cell |
| Interop.IndirectOperand | processor.py:139-141 | an assembled `(a)` with a below 256 reads through the pointer in cell a |
| Interop.RegisterOperand | assembler.py:79-81 | an assembled `Rk` reaches the processor as the literal 512 + k |
| Interop.DisassembleReassembles | processor.py:254-266 | the disassembly of any 16-bit word with a defined opcode other than HALT assembles back to that word |
| Interop.DisassembledText | processor.py:263-264 | such a word is shown as its mnemonic, a space and its field in decimal |
| Interop.ReEncode | assembler.py:87 | encoding a word's opcode with its field as a direct operand gives the word back |
| Interop.HaltReassembles | processor.py:261-262 | HALT is shown without its field, so it assembles back to the word 0 |
| Interop.HaltLine | assembler.py:120-122 | a line whose first word is HALT in any letter case assembles to 0, whatever follows |
| Interop.RunAlongTrace | processor.py:234-241 | a run that follows a sequence of successful steps to a halted state stops there, under any larger budget |
| Interop.Loaded | processor.py:52-57 | `load_program` at 0 on a fresh processor: the program in cells 0.., zeros elsewhere, PC 0 |
| Interop.AddAndStore | tests/test_processor.py:158-174 | LOAD #5, ADD #3, STORE 100, HALT halts after four steps with 8 in ACC and in cell 100 |
| Interop.ProgramExecution | tests/test_processor.py:158-174 | the same program loaded at 0 and run with the default budget of 10000 |
| Interop.StoreAndReload | quick_test.py:19-27 | the seven-line program halts after seven steps with 150 in cell 200 and 125 in cell 201 |
| Interop.FirstQuickTestWords | quick_test.py:20-23 | its first four lines assemble to 0x1264, 0x3232, 0x20C8, 0x10C8 |
| Interop.SecondQuickTestWords | quick_test.py:24-26 | its last three lines assemble to 0x4219, 0x20C9, 0 |
| Interop.QuickTest | quick_test.py:82-93 | loaded at 0 and run for at most 20 steps, the program halts with memory[200] = 150 and memory[201] = 125 |
| Interop.SelfJumpUsesBudget | processor.py:234-241 | `JMP 0` at address 0 is still running after any budget, every step used |
| Monitor.KeyInjective | enhanced_gui.py:23-24 | distinct opcodes are counted under distinct names |
| Monitor.MnemonicKey | enhanced_gui.py:23-24 | a defined opcode is counted under its mnemonic, which the opcode table maps back to it; any other opcode under "UNK(n)", which is no mnemonic |
| Monitor.UnknownIsNoMnemonic | enhanced_gui.py:23-24 | an "UNK(n)" key never equals a mnemonic |
| Monitor.Bump | enhanced_gui.py:26-29 | one more under the key (from absent to 1); every other count unchanged; no key lost |
| Monitor.TallyCounts | enhanced_gui.py:21-29 | after a series of recordings, a name is counted iff it was recorded, with the number of times it was |
| Monitor.OccurrencesOfOpcode | enhanced_gui.py:21-29 | the count under an opcode's name is the number of times that opcode was recorded |
| Monitor.PerformanceMonitor.constructor | enhanced_gui.py:15-19 | empty counts and histories, with the three register histories present |
| Monitor.PerformanceMonitor.RecordInstruction | enhanced_gui.py:21-29 | counts are bumped under the opcode's name; the histories are untouched |
| Monitor.PerformanceMonitor.RecordMemoryAccess | enhanced_gui.py:31-33 | one entry is appended, stamped with the history's former length, so the stamps run 0, 1, 2, ... |
| Monitor.PerformanceMonitor.RecordRegisterValues | enhanced_gui.py:35-39 | one value is appended to each of the ACC, PC and IR histories, which keep equal lengths |
| Monitor.PerformanceMonitor.Reset | enhanced_gui.py:41-47 | counts and all histories become empty, each register history by the loop over the register names |
| Text.Strip | assembler.py:33 | `strip()` never lengthens the text and leaves no whitespace at either end |
| Text.StripSlice | assembler.py:33 | `strip()` removes only whitespace: the result is a contiguous slice of the text with only whitespace before and after it |
| Text.StripKeepsOut | assembler.py:96 | stripping brings in no character the text lacked |
| Text.StripStripped | assembler.py:96 | stripping twice is stripping once |
| Text.Find | assembler.py:95-96 | `index(c)` finds the first occurrence, or none when c is absent |
| Text.Split | assembler.py:144 | `split('\n')` gives at least one piece, and no piece contains the separator |
| Text.SplitJoin | assembler.py:144 | joining the pieces of `split('\n')` with the separator gives the text back |
| Text.Words | assembler.py:108 | `split()` gives non-empty words without whitespace |
| Text.WordsNone | assembler.py:108-110 | `split()` finds no words exactly when the text is all whitespace |
| Text.WordsSplitAt | assembler.py:108 | at a whitespace character, the words are those of the text before it followed by those of the text after it |
| Text.WordsOfWord | assembler.py:108 | a non-empty text without whitespace is its own single word |
| Text.WordsOfPair | assembler.py:108 | two such texts joined by one space split back into those two words |
| Text.Upper | assembler.py:112 | `upper()` keeps the length and maps each character |
| Text.PadRight | assembler.py:209 | `{label:10s}` keeps the text and pads it with spaces to at least ten columns |
| Text.Hex | assembler.py:207 | `{n:04X}` gives upper-case hexadecimal digits, at least four of them |
| Text.HexRoundTrip | assembler.py:207 | the zero-padded hexadecimal text reads back as the number |
| Text.Decimal | processor.py:264 | `str(n)` of a natural number is a non-empty digit string |
| Text.IntToString | assembler.py:197 | `str(i)` has no whitespace and is a digit string exactly when i >= 0 |
| Text.DecimalValue | assembler.py:41-42 | the digit string `str(n)` reads back as n |
| Text.ParseInt | assembler.py:35 | `int()` accepts only a non-empty stripped text, and a negative result only after '-'; the stripped text is a digit string exactly when the result is non-negative and the text starts with a digit |
| Text.ParseIntDigits | assembler.py:41-42 | `int()` of a digit string is its value |
| Text.ParseIntNegative | assembler.py:35 | `int()` of '-' and a digit string is minus its value |
| Text.ParseIntRoundTrip | assembler.py:35 | `int(str(i))` gives back i, negative i included |
| Text.IntToStringInjective | enhanced_gui.py:24 | distinct integers are written differently |

## Left out

- Presentation. The Tk and matplotlib windows, canvases and timers of
  `enhanced_gui.py`, `gui.py` and `visual_gui.py` are user interface, not
  logic.
- Open, save and export dialogs, and the scripts that read `.asm` files, are
  file I/O.
- `main.py`, `debug_gui_step.py` and the other printing drivers are left
  out; only their program scenarios are stated, as lemmas.
- The string branches of `get_operand_value` (processor.py:78-96) are not
  modelled. Neither `step` nor `execute_instruction` reaches them.
- `set_operand_value` (processor.py:98-117) is not modelled, because
  nothing calls it.
- `get_state` (processor.py:243-252) only copies the registers into a
  dictionary, and is not modelled.
- Python's `int()`, `isdigit()`, `upper()` and `strip()` are modelled on
  ASCII text only:
  - `int()` accepts surrounding whitespace, an optional sign and ASCII
    digits;
  - underscores, inner whitespace and non-ASCII digits or letters are not
    modelled.
- Memory cells, load addresses and step counts are natural numbers. Python
  would also accept negative values and negative (from-the-end) list
  indices, which the model does not cover.
- Machine.Execute: requires a field below 4096, which is all that `step`
  ever passes. A direct call with a larger operand (a Python IndexError for
  STORE) is not modelled.
- Emulator.Processor.ExecuteInstruction: requires the same bound, for the
  same reason.
- Error messages are a datatype of error kinds with their line numbers, not
  the message strings. `assemble`'s single ValueError that joins them is the
  `Failure` carrying all of them, in line order.
- The monitor's `execution_time_history` is only ever cleared in the
  source. It is kept as a field that every method leaves empty or unchanged.
- The assembler's variable table is never filled, so the second pass uses
  an empty one.
- Machine.Execute: its own ensures states only that memory keeps its 4096
  cells. Machine.AluOps, Machine.Compare, Machine.StoreAndJumps and
  Machine.UndefinedOpcodes state its behaviour.
- Machine.Step: its own ensures states only that memory keeps its 4096 cells.
  Machine.StepWhenHalted, Machine.StepPastMemory and
  Machine.StepFetchesAndAdvances state its behaviour.
- Machine.Run: its own ensures states only that memory keeps its 4096 cells.
  Machine.RunAccounting and Machine.RunSplits state its behaviour.
- Assembly.Clean: its own ensures states only that the body does not start
  with whitespace. AssemblyProofs.CleanParts and AssemblyProofs.CleanSplits
  determine its result on every line: when it is blank, and which label and
  body it takes from the text.
- Assembly.Translate: its own ensures states only when no instruction comes
  back. AssemblyProofs.TranslateRejects and AssemblyProofs.TranslateAccepts
  state every rejection and every accepted instruction, on the words of the
  body.
- Assembly.Pass1 and Assembly.Pass2 carry no ensures of their own.
  AssemblyProofs.Pass1Counts, Pass1Binds, Pass2Records, Pass2Errors and
  LineOutcome state what they compute.
- Interop.ImmediateOperand: stated for 0 <= v < 3584 only. Larger or
  negative immediates wrap modulo 4096 into the direct or indirect range, as
  Interop.NegativeImmediateReadsMemory shows for `#-5`.
