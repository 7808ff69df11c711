# Bijou, modelled and verified in Dafny

Bijou is a register virtual machine modelled on Lua. Assembly text becomes a tree of blocks, the tree
is written to a bytecode file, the file is read back into a tree of blocks, and an interpreter runs it.
This project models those four pieces and proves what each keeps and what the chain as a whole keeps.

`dafny verify dfyconfig.toml` checks everything.

## How the model is built

| file | what it holds |
|---|---|
| Words.dfy, Opcodes.dfy | the 32-bit instruction word, the instruction set and its tables |
| Values.dfy, Blocks.dfy | tagged values and their equality; blocks, their tree, the constant pool, the class `BijouBlock` |
| Machine.dfy | the meaning of a program: one instruction, the recursive interpreter (`Exec`), the machine with an explicit stack (`Steps`) |
| Instructions.dfy | what each instruction does, said of registers, constants, children and arguments themselves |
| Interpreter.dfy | the interpreter as it runs: the class `BijouVM`, registers and globals in arrays, arguments by reference |
| Safety.dfy, Globals.dfy, Termination.dfy, Simulation.dfy | what holds of every run |
| Strings.dfy, Bytecode.dfy, RoundTrip.dfy, Format.dfy | escapes, the file format as functions, reading undoes writing, the format byte by byte |
| Writer.dfy, Reader.dfy, Trees.dfy | the writer, the reader, and the conversions between blocks and prototypes, as they run |
| SaveLoad.dfy, Program.dfy | the whole chain |
| Samples.dfy, EndToEnd.dfy | whole runs of small programs, samples of the repository among them |
| Text.dfy, Assembly.dfy, Compiler.dfy, Reassembly.dfy, Syntax.dfy | decimal numbers; the code section as functions; its readers and printer as they run; reassembly; text that no printer wrote |

Code that updates state is a method over a class or an array, proved equal to a function on values; the
theorems are about the functions.

- **Function values** name a built-in by its index, or the code of a block by the child indices that lead
  to it from the outermost block. This stands for the pointer, so values of two versions of one program
  can be compared.
- **Numbers** are the 16-byte images of `long double` on x86-64. Arithmetic, comparison and the conversion
  to `int` are a parameter, `Arith`; built-in functions other than `print` and `println` are parameters too.
- **Undefined behaviour** is the outcome `Stuck`, with its reason. Memory that was never written holds
  `Junk`, and inspecting it is `Stuck`. A `Stuck` run promises nothing about the world it leaves.
- **Fuel** is the number of instructions a run may execute; a run reports what it did not use.
- **Output** is the trace of printed values and newlines, and of the message about an unknown opcode.
- Where `exit` ends the process the outcome is `Exited`, or an error value in the writer, the reader and
  the assembler. A loop that the end of the file cannot end is the error `Endless`.

## What the code does that its documentation does not say

- `spec/bytecode.md` gives strings a 4-byte size and numbers 8 bytes; the code writes 8 and 16.
- A function constant is written without payload and comes back as null, and repeated nulls are merged, so
  later constants can move (`MergedFunctionsShift`). `ConstantsKeptExactly` says exactly which constants
  keep their index and value.
- An empty string comes back as a null pointer, which `eq` must not compare (`EmptyStringFaults`).
- `nop` takes the next word of the file for an operand, so a section holding one cannot be reassembled
  (`ReassemblesExactly` is an equivalence).
- The signed field holds -131071 to 131072, exactly (`SignedRoundTrip`).
- A loaded integer with the sign bit set is rejected; `linedefined` is never initialised by the assembler,
  so a file may be unreadable. The reader returns its count as an `int`, so a string whose written size is
  2^32 - 1, modulo 2^32, reads as the end of the file. `DumpThenLoad` says exactly which files load.
- The check of a `closure` operand against the number of children, or of built-ins, lets the number itself
  through; the model gets stuck there (`ClosureFaultsExactly` is an equivalence, `ClosureOfCountFaults` an
  example), and well-formed programs do not use that operand.
- The number of children of a block is one byte, and `to_proto` copies as many as it says
  (`ShapeKeptExactly` is an equivalence).
- sample/function.s declares one register and uses two (`FunctionRuns`); a comment in sample/test.s takes the
  third constant for the second (`TestRuns`).

## Model

| member | source | states |
|---|---|---|
| Words.GetAfterCreate | src/bopcodes.h:43-68 | CREATE_ABC of in-range fields can be taken apart again: it is injective |
| Words.CreateAfterGet | src/bopcodes.h:59-73 | every word is CREATE_ABC of its own fields, and Bx is B times 512 plus C |
| Words.Setters | src/bopcodes.h:44-61 | each setter changes its own field, to the value cut to the field's width, and no other |
| Words.GetAfterSet | src/bopcodes.h:43-57 | what every getter reads after every setter, for any stored number, negative or too wide |
| Words.GetAfterSetBx | src/bopcodes.h:59-61 | storing Bx is storing its halves into B and C |
| Words.SetAfterSet | src/bopcodes.h:44-61 | a second store into a field overwrites the first |
| Words.SignedRoundTrip | src/bopcodes.h:63-64 | the signed field gives back what was stored if and only if it lies in -131071 to 131072 |
| Words.ConstantBit | src/bopcodes.h:81-95 | the constant mark can be tested and undone, and fits a 9-bit field below 256 |
| Opcodes.TablesAgree | src/bopcodes.h:104-242 | the interpreter's switch, the opcode names and the operand table describe one instruction set |
| Opcodes.NamesMean | src/bopcodes.h:104-242 | the instruction behind each name of the assembly language, and which field each of its operands is |
| Opcodes.DecodeReadsListed | src/bopcodes.h:185-213 | an instruction means the same whatever its unlisted operand fields hold |
| Opcodes.CanonicalAgrees | src/compiler.c:160-184 | the form an instruction takes when written with its listed operands only keeps those, and is stable |
| Opcodes.CanonicalUnique | src/compiler.c:160-184 | words that agree on the listed operands have one canonical form |
| Values.EqualLaws | src/value.c:100-107 | equality is symmetric and transitive when that of numbers is, and functions and pointers equal nothing |
| Values.EqualIsIdentity | src/value.c:100-107 | a number equals exactly the numbers that compare equal; apart from numbers equality decides identity, and is reflexive exactly on nulls, booleans and strings |
| Blocks.LookupChild | src/vm.c:524-532 | the block behind a closure operand is that child of the block that runs |
| Blocks.PoolInvariant | src/block.c:56-65 | over any pushes old constant indices never move and entries stay pairwise unequal |
| Blocks.RebuildKeepsFirsts | src/load.c:209-211 | pushing a loaded pool keeps exactly the first occurrence of each value, in order |
| Blocks.RebuildPreservesIndices | src/load.c:209-211 | a prefix of the pool keeps its indices if and only if it is pairwise distinct |
| Blocks.NumbersInPool | src/block.c:56-65 | number constants pushed in a row get indices of their own, in order, if and only if no two of them are equal |
| Blocks.FindAgreesWithPush | src/block.c:56-92 | push_const refuses a constant exactly when find_const would find it; a function is always appended |
| Blocks.BijouBlock.constructor | src/block.c:18-32 | which fields of a new block are set, and to what |
| Blocks.BijouBlock.FindConst | src/block.c:84-92 | the least index of an equal constant, or -1 exactly when there is none |
| Blocks.BijouBlock.PushConst | src/block.c:56-65 | the pool grows by the constant, at the returned index, unless an equal one was there and -1 is returned |
| Blocks.BijouBlock.PushInstruction | src/block.c:142-146 | the instruction is appended and its index returned |
| Blocks.BijouBlock.PushChild | src/block.c:172-181 | the child is appended and its index returned, as long as the byte that counts the children does not wrap |
| Machine.ExecRunsMachine | src/func.c:28-42 | a complete call of the recursive interpreter is a run of the explicit-stack machine that leaves all waiting frames alone and delivers its result to them |
| Machine.InterpreterAgreesWithMachine | src/vm.c:502-512 | recursive interpreter and explicit-stack machine have the same outcome, globals and output, in both directions |
| Machine.MoreFuel | src/vm.c:157-159 | fuel added to a run that ended changes nothing and is left over |
| Instructions.Moves | src/vm.c:164-167 | move copies one register to another |
| Instructions.LoadsConstant | src/vm.c:168-171 | loadk copies the constant of that index |
| Instructions.LoadsLiteral | src/vm.c:172-179 | loadbool and loadnull store their literal |
| Instructions.ReadsArgument | src/vm.c:301-312 | getarg reads the argument of that number, and returns none beyond the last |
| Instructions.Computes | src/vm.c:394-443 | arithmetic takes its left operand from B and its right one from C, register or constant |
| Instructions.ComputesNothing | src/vm.c:395-401 | an operand that is no number leaves all registers alone |
| Instructions.Negates | src/vm.c:444-451 | unm stores the negated operand |
| Instructions.Inverts | src/vm.c:453-456 | not stores whether the integer member of its operand is zero, for a number the four low bytes of its image |
| Instructions.TestSkips | src/vm.c:465-491 | lt, gt, le and ge skip the next instruction if and only if the comparison of A with B holds |
| Instructions.EqualSkips | src/vm.c:458-463 | eq skips if and only if two numbers compare equal or two other values are the same; a function equals nothing |
| Instructions.Jumps | src/vm.c:493-496 | a jump counts from the instruction after it |
| Instructions.Returns | src/vm.c:498-500 | return gives the register A |
| Instructions.ReturnsToCaller | src/vm.c:502-512 | the frame that waits gets the result in the register its call names and goes on after the call |
| Instructions.OtherInstructions | src/vm.c:537-540 | nop, the instructions on locals, unknown opcodes and getexternal |
| Instructions.SelectsChild | src/vm.c:524-532 | closure gives the child of that number |
| Instructions.SelectsBuiltin | src/vm.c:516-522 | closure with the constant bit gives the built-in of that number |
| Instructions.CallEnters | src/func.c:28-42 | a called block starts at its first instruction with fresh registers and the registers after the function as arguments; a wrong number of them ends the process with status 0 |
| Instructions.CallPrints | src/lib.c:47-71 | print and println take any number of arguments, print them in order, println then a newline, and give null |
| Instructions.CallsNative | src/func.c:30-35 | another built-in gets its arguments, as many as it declares, and gives its result |
| Interpreter.CallUnfolds | src/vm.c:502-512 | a call instruction stores the function's result in R[A] and changes no other register |
| Interpreter.CallRefused | src/vm.c:502-506 | a call of something that is no function ends the process with status 1 |
| Interpreter.BijouVM.constructor | src/vm.c:14-27 | a new machine has its globals allocated and not written, and no output |
| Interpreter.BijouVM.Store | src/vm.c:164-167 | R[A] takes the value and the next instruction follows |
| Interpreter.BijouVM.Operand | src/vm.c:140-140 | RK gives a constant or a register by the constant bit |
| Interpreter.BijouVM.ComputeInPlace | src/vm.c:394-491 | arithmetic, `not` and the tests do in place what they mean; a non-number leaves the destination alone |
| Interpreter.BijouVM.ClosureInPlace | src/vm.c:514-535 | closure takes a built-in or a child, with the bounds checks as written |
| Interpreter.BijouVM.ExecuteInPlace | src/vm.c:161-541 | every instruction but call, executed on the register and global arrays, does what it means; an unknown opcode is reported on the output |
| Interpreter.BijouVM.PrintArguments | src/lib.c:47-63 | print writes its arguments in order |
| Interpreter.BijouVM.CallBuiltin | src/lib.c:47-71 | print and println append to the output and return null; other built-ins return what they compute |
| Interpreter.BijouVM.FunctionCall | src/func.c:28-42 | the arguments, left in place in the caller's registers, are not changed, and the call behaves as if given a copy of them |
| Interpreter.BijouVM.CallInPlace | src/vm.c:502-512 | however the call goes, no register of the caller but R[A] changes |
| Interpreter.BijouVM.Interpret | src/vm.c:146-544 | the dispatch loop with arrays and recursion has the outcome, globals, output and unused fuel that the program means |
| Simulation.ExecuteAlike | src/vm.c:161-541 | an instruction depends only on the constants it names, the children count and the callees' headers |
| Simulation.RunsAlike | src/vm.c:146-544 | programs alike in what is read run alike: whole runs, nested calls included |
| Simulation.UnlistedFieldsAreNotRead | src/bopcodes.h:185-213 | code arrays equal up to unlisted operand fields, nested blocks too, give equal whole runs |
| Safety.RegisterOperand | src/vm.c:498-500 | A has 8 bits, so RK(A) is a register |
| Safety.ClosureFaultsExactly | src/vm.c:514-535 | closure reads past the end if and only if its operand equals the count of built-ins or of children, and exits if and only if it exceeds it |
| Safety.ClosureOfCountFaults | src/vm.c:524-530 | in a block without children the check stops `closure 0 1` and lets `closure 0 0` read past the end |
| Safety.StepOk | src/vm.c:159-542 | one instruction of a well-formed program keeps the frame invariant, or faults on a value only |
| Safety.CallOk | src/vm.c:502-512 | so does a call, whose new frame has all its arguments |
| Safety.MachineStepOk | src/vm.c:159-542 | the invariant holds of every frame at every depth after every step |
| Safety.StepsOk | src/vm.c:159-542 | and over any number of steps |
| Safety.RunsAreSafe | src/vm.c:146-544 | a run of a well-formed program gets stuck only on uninitialised values, wrong union members, traps and null strings, never on memory |
| Safety.MainIsSafe | src/bijou.c:20-26 | the same for the run that the main program starts |
| Globals.FindGlobalExactly | src/vm.c:180-203 | the operand selects a cell if and only if it is in range and names a number whose conversion is that cell |
| Globals.GetGlobalReads | src/vm.c:205-206 | getglobal copies the selected cell to its register |
| Globals.SetGlobalStores | src/vm.c:236-237 | setglobal copies its register to the selected cell and changes nothing else |
| Globals.RefusedReturnsNone | src/vm.c:182-203 | a refused index makes the function return none and changes nothing |
| Globals.RefusedExactly | src/vm.c:180-203 | exactly when an index is refused: operand too large, no number, negative, or too large |
| Globals.StepGlobals | src/vm.c:180-238 | one step changes a cell if and only if it is a setglobal whose constant converts to that cell, and then to the value of its register |
| Globals.RunGlobals | src/vm.c:180-238 | over any run each cell holds what the last accepted setglobal stored there, and the number of globals stays |
| Globals.CallGlobals | src/vm.c:180-238 | a cell that differs after a complete call was written by some accepted setglobal |
| Termination.StepDescends | src/vm.c:493-535 | without backward jumps, getglobal and getarg every step goes forward in the code or down in the tree |
| Termination.RunEnds | src/vm.c:493-535 | such a run ends from any frame, and a function it returns is a strict descendant of its block |
| Termination.ProgramsHalt | src/vm.c:146-544 | every activation of such a program ends, whatever globals and arguments hold |
| Termination.BackwardJumpLoops | sample/loop.s:15-16 | `jmp -1` runs for ever: no amount of fuel is enough |
| Strings.UnescapeFailsExactly | src/dump.c:59-91 | unescaping fails if and only if some escape is unfinished or unknown |
| Strings.EscapesExactly | src/dump.c:71-91 | the escapes are n, r, t, a and the backslash, each for its character, and no other |
| Strings.UnescapeErrors | src/dump.c:65-91 | a lone backslash is reported as unfinished, one before another character as unknown, whatever follows |
| Strings.UnescapeEscaped | src/dump.c:71-97 | every text has a spelling that unescapes to it; a produced backslash is not rescanned |
| Strings.UnescapeFixpoint | src/dump.c:59-99 | a string survives a second unescaping if and only if no backslash is left in it |
| Strings.StrChr | src/dump.c:59-59 | the first occurrence at or after a position, or -1 when there is none |
| Strings.ShiftLeft | src/dump.c:95-95 | the overlapping copy moves the rest of the string, and its NUL, one place left |
| Strings.UnescapeInPlace | src/dump.c:56-99 | the loop on the buffer refines the one-pass function: text, NUL and size on success, the same error on failure |
| Bytecode.FixedConsumes | src/bijou.c:57-65 | at the end of the file a prototype cannot be read, otherwise at least eight bytes are consumed |
| RoundTrip.LoadableExactly | src/load.c:25-45 | the reader accepts a written tree if and only if no integer of it is negative and no string has a size that reads as EOF |
| RoundTrip.StringOfEofSize | src/load.c:28-29 | a string of 2^32 - 2 characters has a size that reads as EOF |
| RoundTrip.DumpSucceedsExactly | src/dump.c:50-177 | writing a tree succeeds if and only if every string in it, at any depth, unescapes |
| RoundTrip.HeaderExactly | src/load.c:160-169 | a file is refused if and only if it does not begin with the header |
| RoundTrip.UpToNulExactly | src/load.c:107-108 | a loaded string ends at its first NUL; without one the reader runs past it |
| Format.LittleEndianDigits | src/dump.c:24-32 | the bytes of a number are its digits to the base 256, the lowest first |
| Format.ConstantLayout | src/dump.c:121-149 | tags 0 to 4 for null, number, boolean, string and function, and the payload of each |
| Format.TextLayout | src/dump.c:100-101 | a string is its size with the NUL, its characters and the NUL |
| Format.TagsRead | src/load.c:91-118 | what the reader makes of each tag; one above 4 is refused |
| Format.SampleIsWritten | src/dump.c:161-234 | the whole file of a block whose fields all differ, byte by byte |
| RoundTrip.IntRoundTrip | src/load.c:39-45 | an integer comes back exactly when its sign bit is clear; otherwise it is rejected |
| RoundTrip.StringRoundTrip | src/load.c:55-66 | a written string comes back unescaped, an empty one as the null pointer; a size that reads as EOF ends the process |
| RoundTrip.CodeRoundTrip | src/load.c:68-76 | code comes back word for word |
| RoundTrip.ConstsRoundTrip | src/load.c:79-119 | a pool comes back entry by entry in normal form, or fails at its first string whose size reads as EOF |
| RoundTrip.ProtoRoundTrip | src/load.c:135-157 | loading a written tree followed by anything gives its normal form and leaves what followed, or fails with the error of the first integer or string that the reader rejects |
| RoundTrip.DumpThenLoad | src/load.c:171-182 | the same for a whole file with its header, which loads if and only if the reader accepts every integer and string |
| RoundTrip.UniqueDecoding | src/dump.c:179-189 | no file is a proper prefix of another, and equal files come from trees with one normal form |
| Writer.DumpState.DumpString | src/dump.c:50-103 | the escapes are undone in the buffer and the result written with its size, or the process ends |
| Writer.DumpState.DumpConst | src/dump.c:121-149 | tag and payload of one constant |
| Writer.DumpState.DumpPool | src/dump.c:114-150 | the loop over the pool writes all constants in order, or stops at the first bad string |
| Writer.DumpState.DumpNested | src/dump.c:152-157 | the loop over the nested prototypes writes them in order |
| Writer.DumpState.DumpFunction | src/dump.c:161-177 | a prototype is written field by field as the format says |
| Writer.DumpState.BijouDump | src/dump.c:179-189 | header and prototype |
| Reader.LoadState.Fill | src/bijou.c:57-65 | the reader fills the buffer, with 0xFF past the end of the file, and returns its count as an int |
| Reader.LoadState.LoadBlock | src/load.c:25-30 | the block that was read, unless the count reads as EOF |
| Reader.LoadState.LoadInt | src/load.c:39-45 | four bytes, rejected when negative |
| Reader.LoadState.LoadString | src/load.c:55-66 | size, characters up to the NUL, or the null pointer |
| Reader.LoadState.LoadCode | src/load.c:68-76 | count and words |
| Reader.LoadState.LoadConst | src/load.c:90-118 | tag and payload; an unknown tag is an error |
| Reader.LoadState.LoadPool | src/load.c:79-119 | the loop over the constants |
| Reader.LoadState.LoadConstants | src/load.c:79-133 | pool and nested prototypes |
| Reader.LoadState.LoadFunction | src/load.c:135-157 | a prototype is read field by field as the format says |
| Reader.LoadState.BijouLoad | src/load.c:160-182 | a wrong header is an error; otherwise the prototype after it is read |
| Trees.CopyPool | src/dump.c:210-216 | the allocated array ends up with the pool in order |
| Trees.CopyCode | src/dump.c:218-223 | the allocated array ends up with the code in order |
| Trees.BuildProto | src/dump.c:192-234 | the prototype holds code, pool and as many children as the byte that counts them says |
| Trees.BuildBlock | src/load.c:186-225 | the loops push pool, code and children; the rest is copied, lastlinedefined from linedefined |
| SaveLoad.TreePreserved | src/load.c:186-225 | to_proto then proto_to_block keeps the tree: at every path the same code, registers, parameters, names and line |
| SaveLoad.ShapeKeptExactly | src/dump.c:225-230 | the shape of the tree survives if and only if no node has more children than one byte counts |
| SaveLoad.ConstantsKeptExactly | src/load.c:79-119 | the first n constants survive saving and loading if and only if they are plain and pairwise distinct once written |
| SaveLoad.NamedConstantKept | src/load.c:209-211 | a constant that is plain and distinct from all before it keeps index and value |
| SaveLoad.ConstantKeptExactly | src/block.c:56-65 | a constant that is no NaN keeps index and value if and only if it is plain and distinct from all before it |
| SaveLoad.SavableExactly | src/load.c:186-225 | without NaN constants, a program and its reloaded form agree in all that the interpreter reads if and only if every constant named by code survives and no child is lost |
| SaveLoad.ReloadedIsSimilar | src/load.c:186-231 | a savable tree and its reloaded form are alike in all that the interpreter reads |
| SaveLoad.SaveLoadPreservesMeaning | src/load.c:135-225 | a savable program can be written if and only if its strings unescape; then its bytes, whatever follows them, load to trees that run from every frame, world and fuel exactly as the original with its strings unescaped, if and only if the reader accepts every integer and string |
| SaveLoad.ReloadedRunsTheSame | src/vm.c:146-544 | the step of that theorem that is about runs: a tree rebuilt from the normal form and the unescaped original end every run alike |
| SaveLoad.WrittenPoolsDefined | src/block.c:56-65 | a pool built by push_const can be pushed again after it was written and read |
| SaveLoad.SaveAndLoad | src/load.c:186-231 | to_proto, bijou_dump, bijou_load and proto_to_block, run one after the other, fail exactly on a string that does not unescape or on what the reader rejects, and otherwise give a tree like the original and the number of globals in the file |
| SaveLoad.MergedFunctionsShift | src/compiler.c:248-264 | two functions before another constant: the reloaded program reads past its pool |
| SaveLoad.EmptyStringFaults | src/load.c:55-66 | a compared empty string: the reloaded program hands a null pointer to strcmp |
| EndToEnd.FunctionRuns | sample/function.s:11-39 | the sample returns the string of its nested function if and only if it has a second register; as written it stores outside its registers |
| EndToEnd.FunctionIsWellFormed | sample/function.s:11-39 | with that register it is well formed, without backward jumps and without nop, so it is safe, halts and can be reassembled |
| EndToEnd.FunctionTexts | src/block.c:326-343 | its code is printed as it is written |
| EndToEnd.FunctionAssembles | src/compiler.c:129-195 | its code section, with any comments, compiles to its words |
| EndToEnd.FunctionCanBeSaved | src/dump.c:192-234 | it meets every condition of saving and loading |
| EndToEnd.FunctionSurvives | src/load.c:171-231 | saved, followed by anything, loaded and run, it returns its string with the escapes undone |
| Samples.ParamRuns | sample/param.s:12-45 | the sample returns what subtracting its constant from zero gives, in eight instructions |
| Samples.TestRuns | sample/test.s:12-32 | the sample stores a sum in a global, prints its string on a line, and returns null |
| Samples.CountRuns | src/vm.c:146-544 | a program that counts to n prints the numbers below n, one a line, and returns n, after 6 n + 4 instructions, for every n |
| Program.SaveLoadAndRun | src/bijou.c:134-162 | assembler's block to file, file to tree and number of globals, tree to interpreter: how the run ends, its output and its globals are what the source means |
| Text.AtoiOfText | src/compiler.c:411-416 | atoi reads back every printed integer, whatever non-digit follows |
| Reassembly.ParseNumber | src/compiler.c:398-416 | the decimal text of any integer is read as that integer |
| Reassembly.ParseConstant | src/compiler.c:404-413 | an index followed by K is read with the constant bit set |
| Syntax.ParseArgExactly | src/compiler.c:398-416 | what follows the leading digits decides: a minus sign is malformed, a K marks a constant, anything else ends the number |
| Syntax.CommentDropsOperand | src/compiler.c:430-435 | a semicolon drops the operand it stands in and the rest of the line |
| Syntax.QuotationKept | src/compiler.c:302-326 | a quotation in a word keeps its blanks, and the word all of it but the closing quote |
| Syntax.EndlessExactly | src/compiler.c:282-285 | a comment without a newline and a quotation without its end are endless loops, and only these |
| Syntax.UnknownNameFails | src/compiler.c:149-158 | a name that is no opcode ends the process |
| Syntax.SectionOpensExactly | src/compiler.c:451-472 | a code section opens if and only if its mark stands there |
| Reassembly.OperandFields | src/bopcodes.h:81-95 | ISK and the mask recover an index below 256 from a B or C field |
| Reassembly.BuildOfPrinted | src/compiler.c:160-184 | the operands print_op prints rebuild the instruction in canonical form |
| Reassembly.LineReads | src/block.c:326-343 | a printed line gives back its name and operands and leaves the rest of the file |
| Reassembly.NopReads | src/compiler.c:391-396 | a nop reads the next name as the operand 0 and does not come back |
| Reassembly.ReassemblesExactly | src/compiler.c:129-195 | assembling a disassembled section gives the canonical instructions and stops behind it, if and only if it holds no nop |
| Reassembly.CodeReassemblesExactly | src/block.c:225-315 | the code section printed for some code compiles to its instructions, in their order and in canonical form, if and only if none is nop |
| Reassembly.SecondPass | src/compiler.c:129-195 | disassembling and assembling once more, at any level and with any comments, gives the same instructions |
| Reassembly.ReassembledRunsAlike | src/vm.c:159-542 | a reassembled program runs as the original, nested blocks included |
| Compiler.SourceFile.SkipToNewline | src/compiler.c:282-285 | the comment loop ends behind the newline; without one it is endless |
| Compiler.SourceFile.ReadChar | src/compiler.c:272-288 | the next character outside whitespace and comments |
| Compiler.SourceFile.ReadQuotation | src/compiler.c:313-324 | characters up to the closing quote, which is dropped |
| Compiler.SourceFile.ReadNext | src/compiler.c:290-330 | the next word and the whitespace character behind it |
| Compiler.SourceFile.ConvertArg | src/compiler.c:394-416 | an operand is converted, marked by K, or malformed |
| Compiler.SourceFile.ReadOperand | src/compiler.c:430-441 | an operand and its whitespace; a comment drops it and ends the line |
| Compiler.SourceFile.SkipBlanksToNewline | src/compiler.c:423-428 | blanks are skipped and the first other character put back, unless it is the newline |
| Compiler.SourceFile.ReadArg | src/compiler.c:394-441 | one operand is converted and the next one read, unless the line ends or a comment cuts it off |
| Compiler.SourceFile.ReadArgs | src/compiler.c:382-449 | up to three operands, -1 where none was written |
| Compiler.SourceFile.ExpectCode | src/compiler.c:451-472 | the section must open with its word |
| Compiler.SourceFile.BuildInst | src/compiler.c:160-184 | the fields set one after the other from a zero word |
| Compiler.SourceFile.CompileCode | src/compiler.c:129-195 | the instructions of the section, in order, are pushed to the block; an unknown name is an error |
| Compiler.Printer.PrintOp | src/block.c:326-343 | the name and then the listed operands |
| Compiler.Printer.DumpCode | src/block.c:225-315 | one line for every instruction: indentation, instruction, tab, comment, newline |
| Reassembly.DumpThenCompile | src/compiler.c:129-195 | the printer and then the compiler, as they run: the block gets the canonical instructions |

## Left out

- Dynamically loaded libraries and everything under `lib/`: no library is linked, so `getexternal` always ends the process.
- Floating-point details: arithmetic on numbers and the mathematical built-ins are parameters; a remainder may trap.
- Standard error: messages are not part of the output; the instruction counter that only messages use is dropped.
- Option parsing, usage text, what the main program prints about the result, threads, the header and constant sections of assembly text, and the comments of the disassembly, which are any comment.
- Allocation, freeing and the growth of buffers; allocations of 2^63 bytes or more fail, others succeed. The one-byte overruns at the end of the assembler's word buffers are not modelled.
- Writer.DumpState.DumpString: works on a fresh copy of the string, so the model does not show that the block's own string changes with it; a prototype is written once.
- Writer.DumpState.DumpFunction: the writer never fails, so the status it returns is not modelled; counts are below 2^31, beyond which the code hands a negative `int` to its loops and sizes.
- Blocks.BijouBlock.PushChild: the children of a block are finished trees, not pointers to blocks under construction, and the array that holds them is as large as it has to be, where the code asks for one byte per child.
- Values.EqualLaws: two booleans are compared by their value, where the code compares the number member of the union.
- Interpreter.BijouVM.FunctionCall: a function value carries no name; making a closure also sets two fields of the block to the values they have, which is not shown.
- Interpreter.BijouVM.Interpret: starts at the first instruction, as every call in the repository does.
- Trees.BuildBlock: nothing is said about the number of globals of the block, which the code leaves unset; that of the machine is set from what SaveLoad.SaveAndLoad returns.
- Compiler.SourceFile.ReadNext: characters are ASCII, so no character is mistaken for the end of the file.
- Text.AtoiOfText: numbers in the text are unbounded, where `atoi` is undefined beyond an `int`.
