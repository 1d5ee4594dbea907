# zyde core in Dafny

This project models two pieces of zyde, a small toy virtual machine written in Rust.

**The register machine of `src/vm.rs`.**
- Its state is a program counter, a fixed number of registers, a call stack of return addresses and a table of named variables.
- `run` fetches the instruction at `pc`, advances `pc`, executes the instruction, and stops at the first error.
- The model has two layers:
  - `VmSemantics` describes the machine as functions on a `State` value (`Exec`, `Step`, `RunFrom`), with lemmas about them;
  - `Vm.VM` is a class with the same fields as the Rust struct. Its methods update them in place and are proved to agree with those functions.

**The assembler of `src/ir.rs`.**
- `parse_ir` turns line-oriented text into the symbolic `IR`. `Ir.ParseIr` models it, with `Ir.Parsed` as its specification.
  - Blank lines and whole-line `;` comments are skipped.
  - Mnemonics are case-insensitive.
  - An operand mnemonic needs exactly one operand.
  - A refused line aborts the parse and reports its 1-based number.
- `assemble` (`Assembler.Assemble`, specified by `Assembler.Assembled`) works in two passes:
  - pass 1 maps each label to the number of non-label instructions before it;
  - pass 2 rewrites named jumps, calls and conditional jumps into the absolute indices of the label-free `Bytecode.Instruction` of `src/instruction.rs`, and drops the labels.

**The Rust standard-library text operations `parse_ir` relies on.**
- These are `lines`, `trim`, `split_whitespace`, `to_uppercase` and `i32::from_str_radix`.
- Module `Text` models them, with their own round-trip and characterisation lemmas.

Files:
- `wrappers.dfy`: `Option` and `Result`.
- `text.dfy`: the string operations.
- `bytecode.dfy`: `src/instruction.rs`.
- `ir.dfy`: `IR` and `parse_ir`.
- `assembler.dfy`: `assemble`.
- `vm_semantics.dfy`: the machine as functions.
- `vm.dfy`: the `VM` class.

Where the sources do not agree with each other, the model follows the code:
- `vm.rs` dispatches on register instructions, such as `LoadImm { dest, value }` and `Add { dest, src1, src2 }`, that `src/instruction.rs` does not declare. `VmSemantics.Instruction` is read off the match arms of `execute_instruction`. `Bytecode.Instruction` is the stack instruction set declared in `src/instruction.rs`, which is what `assemble` produces. Nothing in the code connects the two, and the model does not either.
- A comment after an instruction on the same line is not stripped. `ADD ; note` is accepted as `ADD`, because extra tokens are ignored. `JUMP x ; note` is refused for having more than one operand.

## Model

| member | source | states |
|---|---|---|
| VmSemantics.InitIsSafe | src/vm.rs:51-61 | the initial state has `pc` 0, exactly `n` registers all 0, no frames and no variables, and satisfies the run invariant |
| Vm.VM.constructor | src/vm.rs:51-61 | a new machine is in the state `Init(numRegisters)`: `pc` 0, every register 0, empty call stack and variable table |
| VmSemantics.ReadRegister | src/vm.rs:176-180 | reading succeeds exactly when the index is below the register count, yields that register, and otherwise fails with `RegisterOutOfBounds` naming the index |
| VmSemantics.WriteRegister | src/vm.rs:182-193 | writing succeeds exactly when the index is in range; it then changes that one register only, keeps the register count and leaves `pc`, frames and variables alone; otherwise it fails with `RegisterOutOfBounds` |
| Vm.VM.GetRegister | src/vm.rs:176-180 | the method returns what `ReadRegister` specifies for the current registers |
| Vm.VM.SetRegister | src/vm.rs:182-193 | the method leaves the state `WriteRegister` specifies, and on failure changes nothing |
| Vm.VM.Jump | src/vm.rs:195-203 | the method performs `JumpTo`: a target at or past the program's end fails with `ProgramCounterOutOfBounds` and changes nothing |
| Vm.VM.Call | src/vm.rs:205-214 | the method performs `CallTo`: pushes a frame holding the current `pc` and jumps, or fails and changes nothing |
| Vm.VM.Ret | src/vm.rs:216-221 | the method performs `ReturnFrom`: pops the newest frame and resumes at its address, or fails with `CallStackEmpty` and changes nothing |
| VmSemantics.JumpSemantics | src/vm.rs:195-203 | `Jump(addr)` fails iff `addr >= size`, always with `ProgramCounterOutOfBounds`, and otherwise only sets `pc` to `addr` |
| VmSemantics.CallSemantics | src/vm.rs:205-214 | `Call(addr)` fails iff `addr >= size`; otherwise it pushes `Frame(pc)` (the address after the call) and sets `pc` to `addr` |
| VmSemantics.ReturnSemantics | src/vm.rs:216-221 | `Return` fails iff the call stack is empty, with `CallStackEmpty`; otherwise it pops exactly the top frame and resumes at its return address |
| VmSemantics.CallThenReturn | src/vm.rs:205-221 | a call to a `Return` deepens the stack by one, and the return comes back to the instruction after the call with the stack as before |
| VmSemantics.StepCallStack | src/vm.rs:74-173 | a successful turn pushes the frame of the address after a `Call`, pops the newest frame for a `Return`, and leaves the call stack unchanged for every other instruction |
| VmSemantics.RunFromSteps | src/vm.rs:63-71 | `n` successful turns followed by the rest of the run are the run: the loop has no other effect |
| VmSemantics.StepsKeepFramesBelow | src/vm.rs:205-221 | code that never drops below a given depth leaves the frames under that depth as they were |
| VmSemantics.CallThenReturnAfter | src/vm.rs:205-221 | a call whose callee, of any length, never returns below its own frame and then reaches a `Return` at that frame resumes just after the call with the caller's call stack restored |
| VmSemantics.ConditionalJumpSemantics | src/vm.rs:112-118 | with a readable condition register, the instruction behaves as `Jump(target)` when the register is 0 and falls through unchanged otherwise |
| VmSemantics.ConditionalJumpBadRegister | src/vm.rs:112-113 | an out-of-range condition register fails with `RegisterOutOfBounds` naming it, before the target is checked |
| VmSemantics.TruncDivRoundsTowardZero | src/vm.rs:101 | the quotient that Rust's `/` gives rounds toward zero: the remainder is smaller than the divisor in magnitude and has the dividend's sign |
| VmSemantics.ArithmeticSemantics | src/vm.rs:76-102 | `Add`/`Sub`/`Mul`/`Div` read `src1` then `src2` (the first bad index is the error), fail on a zero divisor, and otherwise write `src1 op src2` into `dest` alone, or fail if `dest` is out of range |
| VmSemantics.ComparisonSemantics | src/vm.rs:135-157 | `Equal`/`LessThan`/`GreaterThan` read `src1`, then `src2`, then write `dest`; the first of them out of range fails with `RegisterOutOfBounds` naming that index; otherwise 1 is written into `dest` iff the relation holds between the two values, 0 otherwise, and no other register, the register count or anything else changes |
| VmSemantics.NotSemantics | src/vm.rs:159-168 | `Not` reads `src`, then writes `dest`; an out-of-range `src`, then `dest`, fails with `RegisterOutOfBounds` naming it; otherwise the new state is the old one with only `dest` replaced, by 1 iff `src` holds 0 and by 0 otherwise |
| VmSemantics.StoreSemantics | src/vm.rs:121-125 | `Store` with an out-of-range `src` fails with `RegisterOutOfBounds` naming it; otherwise the new state is the old one with only the name bound to the register's value |
| VmSemantics.LoadSemantics | src/vm.rs:127-133 | `Load` of a bound name fails with `RegisterOutOfBounds` naming `dest` when that is out of range; otherwise the new state is the old one with only `dest` replaced by the name's value |
| VmSemantics.StoreThenLoad | src/vm.rs:121-133 | `Store` changes only the variables, binding the name to the register's value, and a later `Load` of that name writes that value into `dest` |
| VmSemantics.LoadOfUnboundName | src/vm.rs:127-130 | `Load` of an unbound name fails, reported as `RegisterOutOfBounds` with the variable's name |
| Vm.VM.ExecuteInstruction | src/vm.rs:73-174 | the method leaves exactly the state `Exec` specifies; a failing instruction changes nothing |
| Vm.VM.ExecuteArithmetic | src/vm.rs:76-102 | the `Add`/`Sub`/`Mul`/`Div` arms leave exactly the state `Exec` specifies, and a failing one changes nothing |
| Vm.VM.ExecuteComparison | src/vm.rs:135-157 | the `Equal`/`LessThan`/`GreaterThan` arms leave exactly the state `Exec` specifies, and a failing one changes nothing |
| VmSemantics.StepPreservesSafety | src/vm.rs:63-221 | one successful step keeps `pc` and every return address between 0 and the program length and keeps the register count |
| VmSemantics.HaltStopsTheRun | src/vm.rs:170 | reaching `Halt` finishes the run at once with `pc` at the program length |
| Vm.VM.FetchExecute | src/vm.rs:65-67 | one turn of the loop is `Step`: fetch `program[pc]`, advance `pc`, execute; on failure only `pc` has advanced; a state that satisfies `Valid` still does |
| Vm.VM.Run | src/vm.rs:63-71 | the run ends with the outcome and state that `RunFrom` specifies for the given fuel, and a machine that satisfied `Valid` still does |
| VmSemantics.RunPreservesSafety | src/vm.rs:63-221 | across any run, `pc` and every return address stay between 0 and the program length and the register count never changes |
| VmSemantics.FinishedRunEndsAtProgramEnd | src/vm.rs:63-71 | a run from a safe state that finishes normally has `pc` at the program length |
| VmSemantics.FailedRunStopsAtFailingInstruction | src/vm.rs:63-71 | a failed run stops right after the instruction whose step produced exactly the reported error |
| VmSemantics.RunFuelIsOnlyABound | src/vm.rs:63-71 | more fuel does not change a run that did not run out of fuel |
| Text.LinesRoundTrip | src/ir.rs:26 | joining the lines with '\n' gives back the input: splitting loses or adds no character |
| Text.LinesOfJoin | src/ir.rs:26 | lines without '\n', joined and split again, come back unchanged |
| Text.Trim | src/ir.rs:27 | the trimmed text is empty iff the line is all whitespace, and otherwise begins and ends with non-whitespace |
| Text.TrimDropsOnlyTheEnds | src/ir.rs:27 | trimming removes only a whitespace prefix and a whitespace suffix |
| Text.SplitWhitespace | src/ir.rs:32 | every token is non-empty and whitespace-free, and there are none iff the text is all whitespace |
| Text.SplitWhitespaceKeepsText | src/ir.rs:32 | the tokens, concatenated, are exactly the text's non-whitespace characters in order |
| Text.SplitWhitespaceOfTwoWords | src/ir.rs:32 | two words separated by one space split into exactly those two tokens |
| Text.SplitWhitespaceOfSpaced | src/ir.rs:32 | any words laid out with whitespace-only gaps, non-empty between two words, split into exactly those words: the tokens are the maximal whitespace-free runs |
| Text.GapsAreWellSpaced | src/ir.rs:32 | the tokens of any text, with the whitespace between them, form such a layout |
| Text.SpacedOfSplitWhitespace | src/ir.rs:32 | the tokens of any text, put back between its whitespace gaps, give the text back |
| Text.UpperIgnoresAsciiCase | src/ir.rs:37 | upper-casing gives the same result whatever the case of the ASCII letters |
| Text.I32RoundTrip | src/ir.rs:43-44 | every 32-bit value written in decimal parses back to itself |
| Text.WideValuesDoNotParse | src/ir.rs:43-44 | a decimal value outside the 32-bit range is refused |
| Ir.ClassifyLine | src/ir.rs:27-93 | what one line contributes (skip, one instruction, or a defect) is `ParseLine` of it |
| Ir.TakeLine | src/ir.rs:27-93 | one turn of the loop extends the instructions of the lines so far by what the next line contributes, or returns the error with which the whole parse ends |
| Ir.ParseLines | src/ir.rs:26-97 | the loop over the lines yields their parse: the emitted instructions, or the first refused line's 1-based number and defect |
| Ir.ParseIr | src/ir.rs:23-98 | `parse_ir` of the input is `Parsed(input)` |
| Ir.ParseLineSkipsIff | src/ir.rs:27-35 | a line is skipped iff, once trimmed, it is empty or starts with ';' |
| Ir.MnemonicIgnoresCase | src/ir.rs:37 | lower-casing the ASCII letters of the first token does not change the line's outcome |
| Ir.OperandArity | src/ir.rs:38-89 | an operand mnemonic is refused with `RequiresOneOperand` iff the line does not have exactly two tokens; with two, a name operand is taken verbatim |
| Ir.NoOperandIgnoresExtra | src/ir.rs:51-82 | a zero-operand mnemonic always emits, and extra tokens make no difference |
| Ir.PushOperand | src/ir.rs:38-48 | `PUSH v` emits `Push(v)` iff the operand parses as the 32-bit decimal `v`, and is refused with `InvalidNumber` iff it does not parse |
| Ir.UnknownMnemonic | src/ir.rs:91-93 | a line is refused as unknown iff its upper-cased first token is no mnemonic, and the defect carries that upper-cased token |
| Ir.ParseTokensNeverSkips | src/ir.rs:37-93 | a line with tokens always emits one instruction or is refused, never silently dropped |
| Ir.CollectErrorSticks | src/ir.rs:26-93 | once a line is refused, later lines cannot change the result |
| Ir.CollectSucceedsIff | src/ir.rs:26-97 | the collected parse succeeds iff no line is refused |
| Ir.CollectFailsAtFirstReject | src/ir.rs:26-97 | the error reported is the first refused line, numbered from 1 |
| Ir.CollectKeepsLineOrder | src/ir.rs:26-97 | a successful parse is exactly the emitted instructions in line order |
| Ir.ParsedSucceedsIff | src/ir.rs:23-98 | `parse_ir` succeeds iff no line of the input is refused |
| Ir.ParsedKeepsLineOrder | src/ir.rs:23-98 | a successful parse is exactly the per-line instructions in source order, one per non-skipped line |
| Ir.ParsedFailsAtFirstBadLine | src/ir.rs:23-98 | a failing parse reports the first bad line's 1-based number and its defect |
| Ir.Mnemonic | src/ir.rs:37-93 | each instruction's mnemonic is a single non-comment word |
| Ir.RenderParses | src/ir.rs:27-93 | the canonical line for every printable instruction parses back to that instruction |
| Ir.ParsedRoundTrip | src/ir.rs:23-98 | a program of printable instructions, written one per line, parses back to itself |
| Assembler.NonLabels | src/ir.rs:114-152 | the non-label instructions are no more than the input and contain no label |
| Assembler.AssignAddresses | src/ir.rs:103-112 | pass 1 computes `LabelMap`: each label's address is the count of non-labels before it, later declarations overriding |
| Assembler.ResolveReferences | src/ir.rs:114-152 | pass 2 computes `Rewrite`: the translated non-labels, or the first undefined name |
| Assembler.Assemble | src/ir.rs:100-155 | `assemble` of the input is `Assembled(input)`: the parse error, or the two passes over the parsed IR |
| Assembler.RewriteErrorSticks | src/ir.rs:124-146 | once a reference is undefined, the rest of the program does not change the result |
| Assembler.NonLabelsSplit | src/ir.rs:114-152 | the non-labels of a program are those of a prefix followed by those of the rest |
| Assembler.RewriteSucceedsIff | src/ir.rs:124-146 | pass 2 succeeds iff every referenced name is in the label map |
| Assembler.RewriteCorresponds | src/ir.rs:114-152 | the output has one instruction per non-label, in order, each its translation (values kept, names replaced by their addresses) |
| Assembler.RewriteFailsAtFirstUndefined | src/ir.rs:124-146 | the error names the first reference whose label is undefined |
| Assembler.LabelMapDomain | src/ir.rs:103-112 | a name has an address iff some `Label` declares it |
| Assembler.LabelAddressIsLastDeclaration | src/ir.rs:103-112 | a label's address is the number of non-labels before its last declaration |
| Assembler.LabelAddressesInRange | src/ir.rs:103-112 | every label address is at most the number of non-labels |
| Assembler.AssembledTargetsInRange | src/ir.rs:103-146 | every jump, call and conditional-jump target of the output is at most the output's length |
| Assembler.AssemblerEmitsOnlyIrForms | src/ir.rs:114-152 | the output never contains `Store`, `Load`, `Equal`, `LessThan`, `GreaterThan`, `Dup`, `Swap` or `Pop` |
| Assembler.AssembledIrSucceedsIff | src/ir.rs:103-146 | assembling parsed IR succeeds iff every referenced name is declared by some `Label`, before or after the reference |
| Assembler.NonLabelsCountIff | src/ir.rs:104-111 | the count of non-labels grows with the prefix, and stays the same over a stretch iff that stretch is all labels |
| Assembler.EmittedAtItsPosition | src/ir.rs:114-152 | the instruction at IR position `k` is emitted at the number of non-labels before it, and a reference there targets its label's address |
| Assembler.LabelAddressIsEnd | src/ir.rs:103-146 | a label's address is the output's length iff only labels follow its last declaration |
| Assembler.LabelLandsAfterDeclaration | src/ir.rs:103-146 | otherwise a label's address is where the first non-label after its last declaration is emitted, translated |

## Left out

- `println!` in `Print` (src/vm.rs:107): console output is not modelled. `Print` reads its register and changes nothing.
- `visualize_callstack` (src/vm.rs:223-239): a debug-only string rendering of the call stack.
- `src/main.rs` is not part of this model. It is a demo entry point with console I/O.
- `src/number.rs` is not part of this model. Values are unbounded integers. On i32 overflow of `+`, `-` and `*`, Rust panics in a debug build and wraps in a release build; `i32::MIN / -1` panics in both. None of this is modelled.
- VmSemantics.Exec: division by zero panics in the source. The model returns the extra error `DivisionByZero` instead.
- Vm.VM.Run: the source loops until `pc` leaves the program, so a jump to itself never returns. The model takes a fuel bound and reports `OutOfFuel` when it runs out. `RunFuelIsOnlyABound` shows that the bound does not affect a run that ends.
- Ir.ParseIr and Assembler.Assemble: the source panics on a bad line or an undefined label. The model returns `Err` with the line number and defect kind, or with the undefined name. The text of the messages is not modelled.
- Text.Lines: `str::lines` also drops a `\r` before each `\n` and yields no empty line after a final `\n`. The model splits at every `\n`. For `parse_ir` the two agree: `trim` removes the `\r`, and the extra last line is blank, so it is skipped. Likewise `Lines("")` is `[""]` where `str::lines` yields no line at all; that one line is blank, so it is skipped too.
- Text.Upper: `to_uppercase` is exact for characters whose upper-case form is plain ASCII, which covers every mnemonic. Other characters are kept as they are, so only the text of an `UnknownInstruction` defect can differ.
- Text.ParseI32 follows `i32::from_str_radix(_, 10)`: an optional sign and ASCII digits. It is not tied to `T::from`, which is in `src/number.rs`.
- The `HashMap` of labels and variables is a Dafny `map`.
- Instructions that appear only in tests/assembler_tests.rs have no source and are not modelled. These are control-flow lowering, a stack machine and further mnemonics.
