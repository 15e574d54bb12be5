# Verified model of the `svc` compiler, its virtual machine, the page-table inspector and three graph searches

The project models the algorithmic parts of a systems-programming course repository and proves what they promise.

**The compiler and its machine** (`COMPILER_HW`). The chain is modelled from characters to the behaviour of the
compiled file, each stage in the form the C code has, next to the functions that specify it:

| stage | specification | as it runs |
|---|---|---|
| text to tokens | `Lexer.LexAll` | `Lexer.TokenSource`, `Interner` |
| function headers | `Prescan.Scan` | `Frontend.PrescanSigs` |
| tokens to source tree | `Syntax` | `Frontend.Parser` (one pass, with the next two stages) |
| names to slots, conversions | `Elab` | `Frontend.Parser`, `Symtab.Table` |
| tree to instruction list | `Compile` | `Codegen` (append, then patch jumps) |
| list to file | `Encode`, `ModuleFile` | `Emit` |
| file to module | `ModuleFile.LoadBytes` | `Emit.LoadProg` |
| execution | `Machine` (list), `Encode.StepB` (bytes), `Driver` | `Svm.Interpreter` |

Meaning is given twice, independently of the compiler: `Surface` evaluates source programs with nested named scopes
and converts by static type, `Source` evaluates the resolved tree on a flat frame. Both are evaluators with fuel,
where a loop round and a call each take one unit; a result other than `Timeout` is final, and a program that never
ends is one that times out for every fuel. `Toolchain.CompilerCorrect` is the theorem over the whole chain;
`Toolchain.WithMainItIsTheSame` and `Toolchain.WithoutMainItDiffers` are programs on its two sides. Floating point,
and the addresses a reference has when its bits are read as a number, are a record of operations (`Values.Float`) over
which everything is quantified; integers are unbounded, and `/` truncates as in C. Undefined behaviour of the C
machine (a slot outside the frame, an argument array over its end, a missing callee) is the outcome `Wrong`, which
`Toolchain.UnmixedFileIsSafe` excludes for programs that do not mix arrays and scalars.

What both sides of a theorem share is pinned by laws that do not use it: `ValueLaws` (arrays, arithmetic, conversions),
`MachineLaws` (single instructions, bad code), `FileLaws` (bytes, opcodes, rejected files), `Precedence` (which operator
is the root), `Render` and `Layouts` (which characters make which token). `AliasProgram` and `Layouts.CompileOrdinary`
are whole programs.

**The page-table inspector** (`PAGE_HW`). `PageTable` has the entry layout, the listing and the decoding; `PageAccount`
says what the listing amounts to, entry by entry, on the words of memory; `Inspector` has the visitor, the decoder and
the count of incoherent buffer entries with their loops, arrays and counters. The small helpers of `pte.c` are
placeholders in the repository, so they follow the layout that `PAGE_HW/include/pte.h` documents.

**Graph and grid searches.** `Grid` and `Search` have the bot's line-of-fire set, the client library's line test and
the breadth-first first-step search (`GAME_HW/clients`); `Cycle` has the call-graph cycle detector
(`CACHE_HW/test/check-trans.py`).

## Where the code and its promises part

- `scope_pop` compares with `>` (`COMPILER_HW/src/symtab.c:105`): it keeps the declarations of the scope being left and
  retires those of the scopes inside it, one level late. The table model carries what is left over in a ghost field, so
  any run of the shipped code can be stated. `StaleScopes.HeldIff` says how long a declaration stays,
  `Symtab.RightIffNotStale` exactly when a lookup is right all the same, and `StaleScopes.DepthDecides` says it of the
  run: wrong if a declaration left over is deeper than the innermost open one, right if all are less deep, and at equal
  depth the first on the probe sequence answers. `StaleScopes.DeadNameIsFound`, `StaleScopes.ShadowedNameIsWrong` and
  `StaleScopes.TiedNameIsWrong` are runs that go wrong: an undeclared name is accepted, a name declared again in an
  inner block keeps meaning the inner variable behind it, and in two blocks that each declare `x` the second `x` means
  the variable of the first. `Symtab.Table.ScopePop` is the documented comparison, which the parser model uses.
- The parser keeps raw pointers into the token array, which may move when it grows (`COMPILER_HW/src/parser.c:28-31`,
  `COMPILER_HW/src/lexer.c:61-68`). The model keeps indices, and the array that the current token was taken from as a
  ghost. When growing moves the array, the pointer to the current token dangles after an advance exactly if the array
  was full, at 256, 512, 1024, ... tokens: `Frontend.Parser.Advance`, `Lexer.FullIff`. On the way to an accepted program
  that happens exactly from 255 tokens on (`Frontend.ParseText`); `LongTexts.ParseLong` has texts of every length.
- A declaration or parameter without a name is reported, and its missing name is then entered in the symbol table as a
  null pointer, which the hash reads through (`COMPILER_HW/src/parser.c:257-277`, `400-416`,
  `COMPILER_HW/src/symtab.c:21-25`). `Recovery.NullReadIff` says when the walk after a diagnostic gets there,
  `Recovery.SameVerdict` that nothing the grammar accepts does and that every other walk comes to the right verdict;
  `NullReads.NoNameHasNoVerdict` and `NullReads.NoParameterHasNoVerdict` are the texts `int main() { int ; }` and
  `int f(int) { return 1; }`.
- A module without `main` has entry -1, which is written as 0, so the machine runs the first function instead of
  reporting the missing `main`. `Backend.CompiledFileBehaves` and `ModuleFile.EntrySurvivesIff` are exact conditions.
- Zeroed cells of type double are the integer 0, and arithmetic is chosen by tag (`COMPILER_HW/vm/svm.c:120-140` and
  `176-178`). `TypedMachine` is the machine that chooses by static type. `ZeroPrograms.RunIsTypedIff` (and
  `ZeroRuns.InStepIffCalm`, from any state): the two stay in step exactly as long as no zeroed double is negated and
  none is divided by another. `ZeroPrograms.NegatedZeroPrintsZero` and `ZeroPrograms.ZeroQuotientStops` are accepted
  programs for the two ways out of step: `print(-a[0])` prints `0` instead of `-0`, and `a[0] / a[0]` stops the program.
- A declaration may be the bare branch of an `if` or the bare body of a loop (`COMPILER_HW/src/parser.c:319-359`), and
  its name is then in scope behind the statement whether or not it was executed. `BareBranches.IfPartsWaysIff`,
  `BareBranches.BareIfIff` and `BareLoops.LoopPartsWaysIff` are the exact conditions: resolved and named scopes part
  ways when a declaration is skipped and the program goes on. They ask that the `else` branch, or the loop itself, does
  not use the name declared, and that the functions called from the statement have their own declarations in blocks;
  `ShadowedLoop` has programs that show why the name matters. `BarePrograms` has the conditions at an `if` and a loop
  inside their programs, and `BareDecl.BareDeclarationLeaks` is a program whose result differs. The theorems on whole
  programs require declarations to stand in blocks.
- A stray character is reported on standard error and then read as the end of the input, so the compiler succeeds
  without what follows it. `StrayText.ParsesAsCut`: a text means what it means when cut at its first stray character,
  and nothing is dropped exactly when there is none. `StrayText.SecondFunctionDropped` is a text that loses a function.

## Running the proofs

`dafny verify dfyconfig.toml` checks all files.

## Model

| member | source | states |
|---|---|---|
| `Toolchain.CompilerCorrect` | COMPILER_HW/src/parser.c:431-457 | End to end: for every accepted program with its declarations in blocks that fits the stack and the file fields, running the written file and running the source program with its named scopes are the same (output, result, run-time error, non-termination, both ways) if and only if there is a `main` or no function at all |
| `Toolchain.CompileText` | COMPILER_HW/src/codegen.c:155-179 | The imperative compiler from characters to bytes: nothing when the parser reports an error, otherwise the file of the elaborated program, which then behaves as the source program means |
| `Toolchain.WithMainItIsTheSame` | COMPILER_HW/src/emit.c:125 | `int main() { return 1; }` meets every condition of the end-to-end theorem, and its file behaves as it means |
| `Toolchain.WithoutMainItDiffers` | COMPILER_HW/src/emit.c:125 | `int f() { return 1; }` meets every condition but the one on `main`, and its file behaves differently: it runs `f` |
| `Toolchain.RunBytes` | COMPILER_HW/vm/svm.c:239-245 | The imperative loader and interpreter together compute the run of a file for any number of instructions |
| `Toolchain.UnmixedFileIsSafe` | COMPILER_HW/vm/svm.c:144-237 | The file of a program that does not mix arrays and scalars never touches memory outside an array or the stack, and fails only with the four run-time errors of the language |
| `Toolchain.ElaborationKeepsMeaning` | COMPILER_HW/src/parser.c:257-317 | Calling `main` has the same result on named scopes and on the resolved tree, for every fuel |
| `Preservation.SimE` | COMPILER_HW/src/codegen.c:55-83 | Code of an expression, placed anywhere in a function, leaves exactly the evaluated value on the stack, or fails as evaluation does, or runs at least as long |
| `Preservation.SimArgs` | COMPILER_HW/src/codegen.c:55-83 | Arguments are pushed left to right, each with the value evaluation gives it |
| `Preservation.SimS` | COMPILER_HW/src/codegen.c:85-153 | Code of a statement carries the locals, heap and output to what executing the statement gives, including returns out of loops |
| `Preservation.SimIfThen` | COMPILER_HW/src/codegen.c:116-129 | The patched conditional jump takes a false condition to the instruction behind the branch |
| `Preservation.SimIfElse` | COMPILER_HW/src/codegen.c:116-129 | The two patched jumps take each outcome of the condition through exactly one branch |
| `Preservation.SimWhile` | COMPILER_HW/src/codegen.c:130-138 | The back jump and the patched exit run the body as often as the loop does, or for ever |
| `Preservation.SimCall` | COMPILER_HW/vm/svm.c:144-237 | Running a generated function from its frame returns, fails or keeps running as the function does in the source |
| `Preservation.InternDenotes` | COMPILER_HW/src/emit.c:17-41 | A pool index denotes the interned literal when IEEE 754 comparison identifies only equal literals |
| `Driver.ExecMonotone` | COMPILER_HW/vm/svm.c:144-237 | More steps never change an outcome |
| `Driver.CallStep` | COMPILER_HW/vm/svm.c:187-194 | What the callee does from its frame decides what the caller does next |
| `Pools.PoolHasNoRepeats` | COMPILER_HW/src/emit.c:17-41 | Pool indices handed out for one function stay right in the whole module, and no constant is stored twice |
| `Codegen.ModuleBuf.ConstIntern` | COMPILER_HW/src/emit.c:17-41 | The search loop returns the first equal entry or appends |
| `Codegen.GenExpr` | COMPILER_HW/src/codegen.c:55-83 | Emission appends exactly the expression code the preservation theorem speaks of |
| `Codegen.GenStmt` | COMPILER_HW/src/codegen.c:85-153 | Emission with placeholders and back-patching ends in the code with resolved targets |
| `Codegen.GenIfElse` | COMPILER_HW/src/codegen.c:116-128 | Both placeholders end up with the addresses behind the branches |
| `Codegen.GenWhile` | COMPILER_HW/src/codegen.c:130-138 | The exit placeholder ends up behind the back jump, which goes to the condition |
| `Codegen.GenModule` | COMPILER_HW/src/codegen.c:155-179 | The function loop builds the module: constants, functions with names cut to 63 characters, and the last `main` as entry |
| `Encode.OffMonotone` | COMPILER_HW/src/emit.c:74-77 | Byte offsets grow with the instruction index by at least one byte an instruction |
| `Encode.FetchDecodes` | COMPILER_HW/src/emit.c:83-100 | Reading at the offset of an instruction gives that instruction back, with jumps measured from the next instruction |
| `Encode.StepSimulates` | COMPILER_HW/vm/svm.c:154-186 | One step on bytes does what one step on the list does; the cursor stays on an instruction boundary and jumps land exactly on their target |
| `Encode.BytesRunLikeList` | COMPILER_HW/vm/svm.c:154-237 | Whole runs on bytes and on the instruction list agree, step for step |
| `Backend.JumpsStayInside` | COMPILER_HW/src/codegen.c:116-138 | A statement jumps only inside itself or to the instruction behind it |
| `Backend.GeneratedCodeIsClosed` | COMPILER_HW/src/codegen.c:171-173 | Every jump of a module names an instruction of its function, because two more always follow the body |
| `Backend.CompiledFileBehaves` | COMPILER_HW/src/emit.c:125 | Writing, loading and running a resolved program is evaluating it, exactly when it has a `main` or no function: a missing entry is written as 0 and runs the first function |
| `Backend.RunNeverReportsNoMain` | COMPILER_HW/vm/svm.c:144-237 | No run reports the missing `main`; only the check before the run does |
| `Fits.SmallIsCompilable` | COMPILER_HW/src/emit.c:83-104 | The end-to-end condition on numbers, checked on the tree before compiling: with 64-bit literals, 16-bit slots and function numbers, fewer than 256 arguments and code of fewer than 2^31 bytes, every operand fits its field, because wider literals go to the pool |
| `Emit.EncodeFunc` | COMPILER_HW/src/emit.c:74-104 | Two passes, offsets and then bytes, produce the encoding |
| `Emit.EmitModule` | COMPILER_HW/src/emit.c:106-141 | The writing loops produce the file |
| `Emit.LoadProg` | COMPILER_HW/vm/svm.c:69-112 | The reading loops accept and reject as the format says, and build its module |
| `ModuleFile.LoadEmit` | COMPILER_HW/vm/svm.c:69-112 | Round trip: loading a written module gives back constants, function names, parameter and local counts and code bytes |
| `ModuleFile.EntrySurvivesIff` | COMPILER_HW/src/emit.c:125 | The entry index survives the round trip if and only if there is one |
| `ModuleFile.ReadPutFunc` | COMPILER_HW/src/emit.c:127-138 | One function record is read back, and nothing behind it is touched |
| `ModuleFile.ReadPutConst` | COMPILER_HW/src/emit.c:113-120 | Signed 64-bit integers and double bit patterns are read back |
| `Bytes.GetPut` | COMPILER_HW/src/emit.c:45-58 | Little-endian fields of any width are read back |
| `FileLaws.OneFile` | COMPILER_HW/src/emit.c:106-141 | The file of `int main() { return 1; }`, byte for byte |
| `FileLaws.LowHalfFirst` | COMPILER_HW/vm/svm.c:52-67 | Fields are read with the low byte, and the low half, first |
| `FileLaws.ConstBytes` | COMPILER_HW/include/opcodes.h:8-9 | A constant is its tag, seven zeroes, and its 64 bits |
| `FileLaws.OpcodesInOrder` | COMPILER_HW/include/opcodes.h:23-42 | The number of every instruction is its place in the enumeration |
| `FileLaws.JumpBytes` | COMPILER_HW/src/emit.c:91-96 | The operand of a jump is the signed way from the byte behind it to its target |
| `FileLaws.MagicNeeded` | COMPILER_HW/vm/svm.c:80-83 | A file is reported as no module exactly when it does not begin with `BVM1` |
| `FileLaws.CutFileIsRejected` | COMPILER_HW/vm/svm.c:69-112 | No proper prefix of a written file is accepted |
| `FileLaws.MoreIsIgnored` | COMPILER_HW/vm/svm.c:69-112 | Bytes behind a file that loads change nothing |
| `Svm.Interpreter.RunFunc` | COMPILER_HW/vm/svm.c:144-237 | The interpreter with its operand array, stack pointer, locals array and byte cursor computes the run of the step function, recursively and within its fuel; `MachineLaws` and `ValueLaws` say what the steps leave |
| `Svm.Interpreter.DoCall` | COMPILER_HW/vm/svm.c:187-194 | Arguments are popped into a frame and the result is pushed |
| `Svm.Interpreter.NewFrame` | COMPILER_HW/vm/svm.c:145-147 | A frame is zeroed and takes the arguments that fit |
| `ValueLaws.LoadAfterSave` | COMPILER_HW/vm/svm.c:215-222 | What was stored in an array cell is what is read there |
| `ValueLaws.SaveKeepsTheRest` | COMPILER_HW/vm/svm.c:215-222 | A store leaves every other cell of every array, the number and lengths of the arrays, and the output as they were |
| `ValueLaws.OtherCellsReadAsBefore` | COMPILER_HW/vm/svm.c:207-222 | After a store every other address reads as before, errors included |
| `ValueLaws.SaveSucceedsLikeLoad` | COMPILER_HW/vm/svm.c:207-222 | A store fails exactly where a read would, with the same error |
| `ValueLaws.LoadReadsTheCell` | COMPILER_HW/vm/svm.c:207-214 | A read gives the cell at the index, and fails exactly where there is none |
| `ValueLaws.NewArrayIsFresh` | COMPILER_HW/vm/svm.c:196-206 | A new array has a reference no array had, the asked number of zero cells, and leaves the old arrays alone |
| `AliasProgram.StoreIsSeenThroughAlias` | COMPILER_HW/vm/svm.c:207-222 | An accepted program that stores through one name and reads through another name of the same array: it means 5, and its file returns 5 |
| `ValueLaws.QuotientTruncates` | COMPILER_HW/vm/svm.c:126-132 | Integer division leaves a remainder smaller than the divisor and with the sign of the dividend |
| `ValueLaws.CompareOrders` | COMPILER_HW/vm/svm.c:132-137 | The six comparisons follow the sign of the difference, each the right combination of the others |
| `ValueLaws.ArithmeticCounts` | COMPILER_HW/vm/svm.c:123-132 | Sum, difference, product and quotient of integers by the laws that determine them |
| `ValueLaws.IntegerOperations` | COMPILER_HW/vm/svm.c:120-140 | Two integers are computed with as integers; a comparison gives 1 or 0, and only a division by 0 fails |
| `ValueLaws.DoubleOperations` | COMPILER_HW/vm/svm.c:120-140 | One double operand makes it the operation on doubles, on the two values in their order |
| `ValueLaws.UnionReads` | COMPILER_HW/vm/svm.c:176-185 | A conversion of a value of the wrong tag reads the other member of the union |
| `ValueLaws.TaggedValues` | COMPILER_HW/vm/svm.c:176-228 | Values of the right tag are negated, converted, tested and printed as what they are |
| `ValueLaws.CommonType` | COMPILER_HW/src/parser.c:210-221 | One double operand makes the common type double; a value of the type asked for is left alone |
| `ValueLaws.FrameLayout` | COMPILER_HW/vm/svm.c:145-147 | A frame has its arguments first, in order, and zeroes behind them |
| `ValueLaws.ElementTypes` | COMPILER_HW/src/parser.c:257-277 | Element and array types undo each other |
| `ValueLaws.PatternsAreSigned` | COMPILER_HW/src/emit.c:55-58 | 64-bit patterns are those of two's complement |
| `MachineLaws.Operations` | COMPILER_HW/vm/svm.c:169-175 | The operand pushed last is on the right, and the result replaces both |
| `MachineLaws.OneOperand` | COMPILER_HW/vm/svm.c:168-230 | Storing to a slot, negating, converting, popping, printing and returning, said of the operand on top and what lies below it |
| `MachineLaws.Stores` | COMPILER_HW/vm/svm.c:215-222 | Of three operands the value was pushed last, the array first |
| `MachineLaws.EndsWithZero` | COMPILER_HW/vm/svm.c:155-236 | Returning without a value, halting and running off the end of the code all give the integer 0 |
| `MachineLaws.Calls` | COMPILER_HW/vm/svm.c:186-193 | Arguments reach the callee in the order they were pushed |
| `MachineLaws.Pushes` | COMPILER_HW/vm/svm.c:149-152 | 4096 operands fit on the stack and one more does not |
| `MachineLaws.TooFewOperands` | COMPILER_HW/vm/svm.c:149-152 | Every instruction with too few operands stops with a stack underflow |
| `MachineLaws.BadCode` | COMPILER_HW/vm/svm.c:157-232 | Every way bytes can fail to be an instruction, and which error each gives |
| `MachineLaws.FileStarts` | COMPILER_HW/vm/svm.c:239-245 | What running a file means: the loader's error, the missing `main`, or the run from the entry on an empty heap |
| `StackTypes.StackDiscipline` | COMPILER_HW/vm/svm.c:149-152 | In every program whose operands fit, well typed or not, every state of every run has the one stack height of its instruction: no overflow, no underflow |
| `StackTypes.GeneratedIsChecked` | COMPILER_HW/src/codegen.c:55-153 | Generated code agrees, instruction by instruction, with the static stacks computed from the tree; they are empty at every statement boundary |
| `StackTypes.BelowPeakS` | COMPILER_HW/src/codegen.c:85-153 | No static stack is higher than the peak computed from the shape of the statement |
| `StackTypes.PeakReached` | COMPILER_HW/src/codegen.c:55-83 | The peak is reached, so it is the exact need of an expression |
| `StackTypes.TypesHold` | COMPILER_HW/vm/svm.c:120-237 | In a well-formed program operands, locals and heap cells have their static types in every state of every run |
| `TypeSafety.RunGood` | COMPILER_HW/vm/svm.c:144-237 | Checked code keeps the static stacks through whole runs, calls included, and ends only in allowed ways |
| `TypeSafety.ThroughoutIff` | COMPILER_HW/vm/svm.c:144-237 | Holding in every state of a run, those of the functions called included, is holding at the end of every trace of single steps, calls and returns |
| `TypeSafety.ConversionsReadTheirType` | COMPILER_HW/vm/svm.c:181-182 | A conversion reads the union member that was written, or the zero bits of a zeroed cell |
| `TypeSafety.HeightIsStatic` | COMPILER_HW/vm/svm.c:149-152 | Every visit of an instruction finds its operands and room for its result |
| `ElabTypes.ElaboratedIsOk` | COMPILER_HW/src/parser.c:67-76 | The inserted conversions make every accepted program well formed, unless it mixes arrays and scalars or calls with the wrong number of arguments, which the parser does not check |
| `ElabTypes.ElabOkArgs` | COMPILER_HW/src/parser.c:154-173 | Array parameters are recorded by their element type, and that is harmless because conversion leaves arrays alone |
| `ElabTypes.ConversionsAreSound` | COMPILER_HW/src/parser.c:210-221 | Tag soundness for source programs: in every state of every run each conversion reads a value of the type it converts from |
| `ZeroCells.TagArithmeticIsTypeArithmetic` | COMPILER_HW/vm/svm.c:120-140 | One binary operation: choosing the arithmetic by tag is choosing it by type if and only if a zeroed double is not divided by a zeroed double; that division stops the program |
| `ZeroCells.TagNegationIsTypeNegation` | COMPILER_HW/vm/svm.c:176-178 | One negation: by tag and by type are the same if and only if the operand is not a zeroed double |
| `ZeroRuns.InStepIffCalm` | COMPILER_HW/vm/svm.c:144-237 | Whole runs, calls included, from any state of a checked module: the machine as written and the machine that chooses by type stay in step if and only if no zeroed double is negated or divided by another; in step, they print and return the same and stop with the same error |
| `ZeroPrograms.RunIsTypedIff` | COMPILER_HW/vm/svm.c:120-237 | The same for every accepted program that does not mix arrays and scalars, from the call of a function without arguments, for every number of instructions |
| `ZeroPrograms.NegatedZeroPrintsZero` | COMPILER_HW/vm/svm.c:176-178 | An accepted program that negates a fresh array element and prints `0`, where the typed machine prints the negative of the double 0 |
| `ZeroPrograms.ZeroQuotientStops` | COMPILER_HW/vm/svm.c:120-140 | An accepted program that divides a fresh double by itself and stops with a division by zero, where the typed machine prints a quotient |
| `Resolve.ResolveInvoke` | COMPILER_HW/src/parser.c:384-427 | Evaluating with nested named scopes and shadowing equals evaluating the slot-resolved tree, for every fuel and every call into a set of functions that call only each other and have their declarations in blocks |
| `Resolve.LinkedEverywhere` | COMPILER_HW/src/parser.c:384-427 | When the declarations of all functions stand in blocks, the set of all functions is such a set |
| `Resolve.ResolveS` | COMPILER_HW/src/parser.c:319-370 | The same for statements: the flat frame keeps agreeing with the scopes |
| `Resolve.ResolveE` | COMPILER_HW/src/parser.c:135-249 | The same for expressions, with the static type of each value |
| `Resolve.SlotsDistinct` | COMPILER_HW/src/parser.c:276-277 | Live declarations have distinct slots, below the number handed out |
| `Resolve.ParamsAgree` | COMPILER_HW/src/parser.c:400-416 | Parameters occupy slots 0, 1, 2, ... in order |
| `Resolve.ScopesRestored` | COMPILER_HW/src/parser.c:361-370 | After a statement that is no declaration the scopes are what they were before |
| `BareDecl.BareDeclarationLeaks` | COMPILER_HW/src/parser.c:326-333 | A declaration as the bare branch of an `if` stays in scope when the branch is not taken: an accepted program whose compiled code returns 0 where no declaration was executed |
| `BareBranches.IfPartsWaysIff` | COMPILER_HW/src/parser.c:323-331 | An `if` or `if`/`else` with declarations as branches, in any function of an accepted program, in scopes that agree: resolved and named scopes part ways behind it if and only if the skipped branch is a declaration and the program goes on; the `else` branch may not use the name the first branch declares |
| `BareBranches.BareIfIff` | COMPILER_HW/src/parser.c:323-331 | For a bare declaration without `else`, with or without initialiser, scalar or array: they part ways if and only if the condition evaluates to zero |
| `BareBranches.ElabStmtWith` | COMPILER_HW/src/symtab.c:85-100 | A binding of a name that does not occur in a statement changes neither its code nor its verdict |
| `BareLoops.LoopPartsWaysIff` | COMPILER_HW/src/parser.c:332-339 | A loop whose body is a bare declaration of a name it does not itself use: resolved and named scopes part ways if and only if the condition is zero the first time; otherwise they agree through every round and in every outcome |
| `BareLoops.SkippedLoop` | COMPILER_HW/src/parser.c:332-339 | Whatever names the loop uses, skipping it leaves the declaration in scope |
| `BarePrograms.LeakyPartsWays` | COMPILER_HW/src/parser.c:323-331 | The condition at `if (0) int x = 1;` inside its own program: entered in scopes that agree, and they part ways |
| `BarePrograms.LoopingPartsWaysIff` | COMPILER_HW/src/parser.c:332-339 | The condition at `while (n) int x = 1;` inside its own function, for every argument: they part ways if and only if it is 0 |
| `ShadowedLoop.LoopReadsTheOuterName` | COMPILER_HW/src/parser.c:332-339 | An accepted program whose loop uses an outer variable of the name its body declares: it returns when run with named scopes, and runs for ever when compiled |
| `ShadowedLoop.ElseReadsSkippedDeclaration` | COMPILER_HW/src/parser.c:323-331 | An accepted `else` branch that reads the slot of the declaration in the branch that was skipped |
| `Frontend.ParseText` | COMPILER_HW/src/parser.c:431-457 | The one-pass parser, with lookahead indices, symbol table and slot counter, accepts and produces exactly what the grammar followed by elaboration does; on the way to an accepted program a pointer to the current token has dangled if and only if there are 255 tokens or more before the first end of input |
| `Frontend.Parser.Advance` | COMPILER_HW/src/parser.c:28-31 | However often the token array has moved, the two indices name the next two tokens; a pointer to the current one dangles if and only if the array was full |
| `LongTexts.ParseLong` | COMPILER_HW/src/parser.c:28-31 | For every number of lines `print(1);` in a `main`, the text is accepted, and the pointer dangles on the way if and only if there are 50 or more |
| `Frontend.Parser.ParseBinary` | COMPILER_HW/src/parser.c:223-249 | The loop of each binary level folds to the left, converting as it goes; which operators a level takes is pinned by `Precedence.ChainsParse` |
| `Precedence.ChainsParse` | COMPILER_HW/src/parser.c:199-249 | Every chain of operands and operators, with minuses and parenthesised chains inside, is parsed as the tree whose root is the last operator of the loosest group present; the groups are comparisons, sums and products |
| `Precedence.TwoOperators` | COMPILER_HW/src/parser.c:223-249 | `a o b p c` is `a o (b p c)` exactly when `p` is a product and `o` is not, or `p` is a sum and `o` a comparison; otherwise it is `(a o b) p c` |
| `Precedence.MinusIsTightest` | COMPILER_HW/src/parser.c:199-208 | A leading minus belongs to its operand alone, on either side of every operator |
| `Frontend.Parser.ParsePrim` | COMPILER_HW/src/parser.c:135-197 | Literals, parentheses, calls and indexed variables |
| `Frontend.Parser.ParseDeclaration` | COMPILER_HW/src/parser.c:257-280 | The initialiser is resolved before the name is declared, and the name gets the next slot |
| `Frontend.Parser.ParseBlock` | COMPILER_HW/src/parser.c:361-370 | A block opens a scope and closes it again |
| `Frontend.Parser.ParseFn` | COMPILER_HW/src/parser.c:384-427 | Header, parameters, body, and returned values converted at the end |
| `Frontend.PrescanSigs` | COMPILER_HW/src/parser.c:90-129 | The loops over raw tokens collect the headers the pure pass collects |
| `ParseFacts.ReturnsCoercedAfterwards` | COMPILER_HW/src/parser.c:373-382 | Converting returned values after the body equals converting them on the way |
| `Prescan.ScanFindsFunctions` | COMPILER_HW/src/parser.c:90-129 | For every accepted token sequence the k-th recorded header is that of the k-th parsed function, so a call index denotes the named function |
| `ValueLaws.HeaderKeeps` | COMPILER_HW/src/parser.c:104-117 | A recorded header has the first 32 parameters, an array by the type of its elements |
| `Recovery.SameVerdict` | COMPILER_HW/src/parser.c:431-457 | Going on after a diagnostic, with the headers of the first pass and the names of the open scopes: no input the grammar accepts reads through a null pointer; the verdict on it is to reject if and only if elaboration rejects, whenever no scope declares a name twice; and nothing the grammar rejects is accepted |
| `Recovery.NullReadIff` | COMPILER_HW/src/parser.c:257-277 | The walk reads through a null pointer if and only if it reads a declarator or parameter name where no identifier stands; that is then the last name it reads |
| `Recovery.SameProgram` | COMPILER_HW/src/parser.c:384-457 | For any headers, redeclarations included: no error if and only if the grammar accepts, to the same place, and every name is declared where it is used; and what the grammar accepts never reads through a null pointer |
| `Declared.ElabFuncsIff` | COMPILER_HW/src/parser.c:135-370 | Elaboration accepts only programs whose names are all declared where they are used, and rejects only programs with one that is not |
| `Recovery.SameStmt` | COMPILER_HW/src/parser.c:319-359 | One statement, whether or not there has been an error before it: the same, with the names in scope behind it; and what the grammar accepts is read to the same place, or the walk has stopped in a block at the beginning of a statement |
| `NullReads.NamelessDeclaration` | COMPILER_HW/src/parser.c:257-277 | A type that no name follows, wherever a statement is due, leads to the null pointer being read |
| `NullReads.NoNameHasNoVerdict` | COMPILER_HW/src/parser.c:257-277 | The text `int main ( ) { int ; }` is such an input |
| `NullReads.NoParameterHasNoVerdict` | COMPILER_HW/src/parser.c:400-416 | The text `int f ( int ) { return 1 ; }` is such an input |
| `Prescan.SkipStmt` | COMPILER_HW/src/parser.c:93-127 | Nothing inside a statement looks like a function header to that pass |
| `Unparse.ParseExprPrinted` | COMPILER_HW/src/parser.c:135-249 | Printing an expression with the fewest parentheses and parsing it gives it back and stops right behind it |
| `Unparse.ParseStmtPrinted` | COMPILER_HW/src/parser.c:319-359 | The same for statements, dangling `else` included |
| `Unparse.ParseProgramPrinted` | COMPILER_HW/src/parser.c:431-457 | The same for whole programs |
| `Unparse.TrailingCommaInCall` | COMPILER_HW/src/parser.c:163-171 | A comma may stand behind the last argument of a call |
| `Unparse.TrailingCommaInHeader` | COMPILER_HW/src/parser.c:400-416 | A comma may stand behind the last parameter of a function |
| `Unparse.ProgramEndsAtEof` | COMPILER_HW/src/lexer.c:170-182 | A printed program is parsed back up to the first end-of-input token behind it |
| `EndOfInput.StopsAtFirstEof` | COMPILER_HW/src/parser.c:431-457 | Every token sequence is accepted exactly when the tokens before its first end of input are, as the same program, and everything from there on is left over |
| `EndOfInput.NothingDroppedIff` | COMPILER_HW/src/parser.c:446-457 | Nothing of an accepted token sequence is dropped if and only if it holds no end-of-input token |
| `StrayText.EofIsStray` | COMPILER_HW/src/lexer.c:148-182 | The lexer hands out an end-of-input token before the end exactly at a character that begins no token; a `!` without `=` is one |
| `StrayText.LexCutText` | COMPILER_HW/src/lexer.c:85-185 | A text cut at its first stray character, comments skipped, has exactly the tokens before it |
| `StrayText.ParsesAsCut` | COMPILER_HW/src/lexer.c:170-182 | Every text is accepted exactly when the text cut at its first stray character is, as the same program, and nothing is dropped if and only if there is no stray character |
| `StrayText.DroppedBehindStray` | COMPILER_HW/src/lexer.c:170-182 | Behind any printed program, whatever a stray character introduces is dropped |
| `StrayText.SecondFunctionDropped` | COMPILER_HW/src/lexer.c:170-182 | The text of two functions with `@` between them is accepted as the first function alone |
| `Render.TextRoundTrip` | COMPILER_HW/src/lexer.c:85-185 | Printing a program, writing it as text, lexing and parsing gives the program back |
| `Render.LexText` | COMPILER_HW/src/lexer.c:85-185 | Tokens written with single spaces between them are lexed back |
| `Render.LexToken` | COMPILER_HW/src/lexer.c:85-185 | Every token is lexed back from its text, and the position is right behind it |
| `Render.LexLaid` | COMPILER_HW/src/lexer.c:85-185 | Token texts with any white space and comments between them, or nothing where the next character cannot continue the token, are lexed back |
| `Render.GapSkipped` | COMPILER_HW/src/lexer.c:87-98 | Spaces, tabs, newlines and comments, in any order and number, change nothing for what stands behind them |
| `Layouts.LaidRoundTrip` | COMPILER_HW/src/lexer.c:85-185 | Every such layout of a program, from its first blank to a last comment without newline, is parsed as the program |
| `Layouts.TightRoundTrip` | COMPILER_HW/src/lexer.c:85-185 | A program written with a space only where the next character would continue the token is parsed as the program |
| `Layouts.NumberLexed` | COMPILER_HW/src/lexer.c:127-146 | Digits stand for the positional value of their first 63, or for 9223372036854775807 if that is more |
| `Layouts.PointLexed` | COMPILER_HW/src/lexer.c:127-146 | Digits, a point and digits are converted from their first 63 characters |
| `Layouts.OrdinaryTexts` | COMPILER_HW/src/lexer.c:85-185 | The text `int main() { return 1; }`, and the same on five lines with tabs and comments, are both that program |
| `Layouts.CompileOrdinary` | COMPILER_HW/src/codegen.c:155-179 | The compiler accepts that text, and the file behaves as the program means |
| `Lexer.TokenSource.Next` | COMPILER_HW/src/lexer.c:85-185 | The k-th call appends the k-th token of the pure token sequence, whose tokens `Render.LexLaid` gives from the characters |
| `Lexer.TokenSource.Push` | COMPILER_HW/src/lexer.c:61-68 | Earlier tokens keep their index and value; an array that is full is replaced by one twice as long, any other is kept |
| `Lexer.FullIff` | COMPILER_HW/src/lexer.c:61-68 | The array is full after 256, 512, 1024, ... tokens, and at no other number |
| `Interner.InternTable.Intern` | COMPILER_HW/src/lexer.c:22-35 | An equal text gets its old handle, a new one a new handle; handles never change their text |
| `Interner.InternAll` | COMPILER_HW/src/lexer.c:22-35 | Over any list of names, handles are equal exactly when the names are |
| `Interner.HandlesAnswerAsNames` | COMPILER_HW/src/symtab.c:85-100 | Looking a handle up by pointer in a table of handles finds the entry that looking its text up in the table of names finds |
| `Interner.WritesAgree` | COMPILER_HW/src/symtab.c:66-83 | Writing an entry by handle writes it by name, and interning more names changes no name in the table |
| `Symtab.Table.Insert` | COMPILER_HW/src/symtab.c:66-83 | Declares in the innermost scope of the scope stack the table represents, rehashing when half full |
| `Symtab.Table.Find` | COMPILER_HW/src/symtab.c:85-100 | The probe loop answers with the first deepest entry on the probe sequence, and that is the innermost declaration of the scopes if and only if it is not a left-over entry |
| `Symtab.Table.Rehash` | COMPILER_HW/src/symtab.c:43-64 | Moves every live entry with its depth, never rehashing again, and drops tombstones |
| `Symtab.Table.ScopePush` | COMPILER_HW/src/symtab.c:39-41 | Opens an empty scope |
| `Symtab.Table.ScopePop` | COMPILER_HW/src/symtab.c:102-110 | With the documented comparison, closing a scope leaves exactly the outer scopes |
| `Symtab.Table.ScopePopAsWritten` | COMPILER_HW/src/symtab.c:102-110 | The comparison as written, after any history: the table goes on indexing the outer scopes together with the declarations of the scope just left, and the left-overs of the scopes inside that one go |
| `Symtab.RightIffNotStale` | COMPILER_HW/src/symtab.c:85-110 | After any history a lookup is right if and only if the first deepest entry of the name on its probe sequence is not left over from a closed scope |
| `Symtab.StaleScopeInvisibleIff` | COMPILER_HW/src/symtab.c:105 | For the first scope a run leaves: keeping its declarations is invisible to every name if and only if it declared nothing |
| `StaleScopes.Replay` | COMPILER_HW/src/symtab.c:39-110 | Any well-nested run of declarations, pushes and shipped pops leaves the table indexing the open scopes and the predicted left-overs |
| `StaleScopes.HeldIff` | COMPILER_HW/src/symtab.c:102-110 | In every run a declaration is still held if and only if the depth has not since fallen below that of the scope around its own: one level late |
| `StaleScopes.DepthDecides` | COMPILER_HW/src/symtab.c:85-110 | After any run a lookup is wrong if a left-over declaration of the name is deeper than its innermost open one, and right if all are less deep |
| `StaleScopes.DeadNameIsFound` | COMPILER_HW/src/symtab.c:102-110 | A run, behind an inner scope that declared nothing, in which an undeclared name is answered with a dead variable |
| `StaleScopes.ShadowedNameIsWrong` | COMPILER_HW/src/symtab.c:102-110 | A run in which a name declared again in a closed inner scope is answered with the inner variable instead of the outer |
| `StaleScopes.TiedNameIsWrong` | COMPILER_HW/src/symtab.c:66-110 | In `{ int x; } { int x; ..x.. }` both declarations are equally deep, the older comes first on the probe sequence, and the name is answered with the dead variable, whatever the hash |
| `Symtab.AnswerIsDeepest` | COMPILER_HW/src/symtab.c:93-96 | The answer is a deepest entry of the whole table, and there is one whenever the name has any entry |
| `Symtab.AllProbed` | COMPILER_HW/src/symtab.c:91-92 | Every entry of a name lies before the first empty slot of its probe sequence |
| `PageTable.TraversalsAgree` | PAGE_HW/src/pt_inspect.c:59-121 | For every memory image, allocator state and root, an address decodes to a leaf exactly when the visitor lists that leaf for its page |
| `PageTable.ListedAscending` | PAGE_HW/src/pt_inspect.c:59-107 | Mappings are listed in strictly ascending order of address |
| `PageTable.CoherentIffListed` | PAGE_HW/include/tlb.h:12-20 | A buffer entry is coherent exactly when it is invalid or sits in its own place and equals a listed mapping |
| `PageTable.SamePage` | PAGE_HW/src/pt_inspect.c:186-214 | All addresses of a page decode alike |
| `PageAccount.ReportIsAccount` | PAGE_HW/src/pt_inspect.c:59-107 | With a good root the report is the account of the present entries of the visited tables: the well-formed leaves are the mappings, the root and then the frames of the well-formed references are the tables, each in this order, and all others are malformed |
| `PageAccount.AllCounted` | PAGE_HW/src/pt_inspect.c:64-84 | The entries of that account are exactly the present entries of the tables reached over well-formed references, each once, depth first by index |
| `PageAccount.EntriesAddUp` | PAGE_HW/include/pt_inspect.h:10-28 | Present entries are mappings, further tables or malformed, and none is malformed exactly when every present entry of every visited table is well formed as `pte.h` says |
| `PageAccount.TablesAddUp` | PAGE_HW/include/pt_inspect.h:24-28 | The listed tables, with repetition, hold as many present entries as there are mappings, further tables and malformed entries |
| `PageAccount.ReportWithoutRoot` | PAGE_HW/src/pt_inspect.c:109-121 | Without a good root nothing is visited; a missing root is no fault, any other is one |
| `PageAccount.WordParts` | PAGE_HW/include/pte.h:26-36 | A word built from frame and flags gives back frame, flags, presence and permissions |
| `Inspector.Visitor.VisitTable` | PAGE_HW/src/pt_inspect.c:59-107 | The recursive visitor with its path array, counters and bounded output arrays reports exactly the listing, which `PageAccount.ReportIsAccount` gives entry by entry |
| `Inspector.ValidFrameReference` | PAGE_HW/src/pt_inspect.c:42-56 | The ancestor loop rejects exactly the frames on the current path |
| `Inspector.ListMappings` | PAGE_HW/src/pt_inspect.c:130-137 | The output array holds the first mappings, each of which decodes, in ascending order; the count is the whole number |
| `Inspector.Summarize` | PAGE_HW/src/pt_inspect.c:123-128 | The three counts, and that with a good root none is malformed exactly when every present entry of every visited table is well formed |
| `Inspector.ListTables` | PAGE_HW/src/pt_inspect.c:139-145 | The output array holds the first tables: the root, then the frames of the well-formed references, depth first |
| `Inspector.DecodeLeaf` | PAGE_HW/src/pt_inspect.c:186-214 | The loop down the levels computes the decoding |
| `Inspector.IncoherentEntries` | PAGE_HW/src/pt_inspect.c:217-236 | Counts the incoherent entries; 0 exactly when every valid one is in its place and listed |
| `Search.FirstStep` | GAME_HW/clients/bot_client.py:55-76 | A returned direction begins a shortest walk to a goal; none, when not at a goal, means none is reachable, on every legal map; a step is to an unblocked floor cell at distance one, and its direction is the compass direction of that cell |
| `Search.StepsAreTried` | GAME_HW/clients/bot_client.py:63-66 | The cells tried are exactly the unblocked floor cells one row or one column away, each in its compass direction |
| `Search.Expand` | GAME_HW/clients/bot_client.py:63-75 | Expanding a cell keeps depths exact, the queue ordered, and a goal met is a nearest one |
| `Search.WalkBack` | GAME_HW/clients/bot_client.py:70-74 | Following the parents back gives the first step of that walk |
| `Search.SeenAlong` | GAME_HW/clients/bot_client.py:61-75 | Every cell some steps along any walk has been seen at that depth or less |
| `Grid.LineOfFireCells` | GAME_HW/clients/bot_client.py:43-52 | The set is exactly the floor cells, other than the target, from which the line test to the target succeeds |
| `Grid.ClearLine` | GAME_HW/clients/tankclient.py:120-131 | The stepping loop decides whether everything strictly between two aligned cells is floor |
| `Grid.MetIffClear` | GAME_HW/clients/bot_client.py:46-51 | Being met from the target in some direction is having a clear line from the other end |
| `Cycle.HasCycle` | CACHE_HW/test/check-trans.py:263-289 | A returned list is a cycle; none is returned only if the graph has no cycle |
| `Cycle.Finder.Dfs` | CACHE_HW/test/check-trans.py:268-282 | A cycle, or everything reachable is finished; ends because unfinished nodes get fewer |
| `Cycle.FinishedMeansAcyclic` | CACHE_HW/test/check-trans.py:268-289 | Finished nodes lie on no cycle |

## Left out

- Toolchain.CompileText: promises nothing when one scope declares a name twice, because the compiler accepts that and which declaration it then finds depends on where the two land in the hash table and moves when the table grows.
- Symtab.Table.Find: after such a redeclaration the first of the deepest entries on the probe sequence answers; which declaration that is depends on the hashes of the names in the table, and is not said.
- Toolchain.CompilerCorrect: requires operands to fit the machine's stack and numbers to fit the file's fields (`Compilable`, which `Fits.SmallIsCompilable` gives from conditions on the tree); beyond that the file is cut off or the machine overflows its stack.
- Toolchain.UnmixedFileIsSafe: its condition on arrays and scalars, `ElabTypes.Unmixed`, is stated on the resolved tree, where the parser could check it.
- Resolve.ResolveInvoke: requires declarations to stand in blocks; for bare ones the exact conditions are stated for one statement (`BareBranches`, `BareLoops`), not for whole programs.
- BareLoops.LoopPartsWaysIff: not for loops that use an outer variable of the name they declare; `BareLoops.SkippedLoop` is the half that holds for them.
- BareBranches.IfPartsWaysIff: not for a statement that calls, directly or not, a function with a bare declaration of its own, such as the one it stands in: what such a call means is itself in question.
- Search.FirstStep: no row of the map is shorter than announced. The client reads the rows without looking at their width (`GAME_HW/clients/tankclient.py:303-310`), and a shorter row ends in an exception where it is indexed; longer rows are covered.
- 64-bit integer overflow, IEEE 754 rounding and the conversion of out-of-range doubles: integers are unbounded and the double operations are parameters.
- `strtod` is a parameter that gives a non-negative double; `strtol` saturates; number text is cut at 63 characters as in the code.
- Frontend.ParseText: rejects at the first diagnostic, where the parser goes on and then rejects or reads through a null pointer; `Recovery` has that walk, for cursor, names in scope and error flag. It closes scopes with the documented comparison; what the shipped one changes is stated for the table (`StaleScopes`), not for whole programs. What a read through a dangling pointer gives is not modelled, nor are the texts of diagnostics.
- Lexer.TokenSource.Push: growing always moves the array; `realloc` may also extend it in place, and then pointers stay valid.
- Files, pipes and the short read of the source loader (`COMPILER_HW/src/main.c`); allocation failure; the depth of the C call stack; freeing of memory.
- The contents of the C name buffers behind their 63 characters, and names with characters above 255 in a module file.
- The order in which the cycle detector takes the keys of its dictionary: any order is allowed.
- Dumps of page tables and of the translation buffer, and the count of allocated frames.
- Bot strategies, the network protocol, the shell, the heap allocator, the cache simulator, the audio code: placeholders, I/O, or single look-ups with no property beyond their own definition.
