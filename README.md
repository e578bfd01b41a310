# IntCode interpreter of day 2, in Dafny

A model of the `IntCodeParser` in src/day_2.rs. It is a toy IntCode machine with three pieces of state:
- a loaded ROM;
- a working copy of it, called memory;
- an instruction pointer.

The machine knows three opcodes: 1 adds, 2 multiplies and 99 halts. The model also covers the parameter search of `main`, which tries every noun and verb in 0..100 until cell 0 ends as 19690720.

The project has three modules.

- `IntCode` (intcode.dfy) holds the values and what a run means, written as pure functions of a memory image and an instruction pointer:
  - machine words (`u32`), `OpCode`, `Operation` and the decode table `OpCodeFrom`;
  - `Write`, the effect of `write_pos`, and `Patch`, the effect of `set_program_code`;
  - `Decode`, what `next` returns, and `Execute`, one Add or Mul step;
  - `Execution`, a whole run, whose outcome is either the final memory or a Rust panic.
- `Parser` (parser.dfy) is the class `IntCodeParser`. Its fields are `rom`, `memory` and `ip`, and its methods update them in place. Each method is proved against the functions of `IntCode`. The class invariant `Valid()` says memory is exactly as long as the ROM; the constructor, `LoadProgram` and `ClearMemory` establish it, and every other method that touches memory or ip requires and keeps it. `Run` is the `while let` loop, with the invariant that the rest of the run has the outcome the whole run has.
- `Driver` (driver.dfy) is the search loop of `main`:
  - `SearchFrom` specifies the search from a given pair on;
  - three lemmas say what each of its outcomes means: the first hit, every pair missing, or a panic;
  - `Search` runs the nested loops on a real `IntCodeParser`.

The model follows the code as written. Where the code does something surprising, the model does it too:
- `next` adds 4 to `ip` BEFORE it reads the opcode, so decoding starts at cell 4. The sample program `1,9,10,3,2,3,11,0,99,30,40,50` ends with 150 in cell 0, not 3500 (`SampleProgram`). A program whose only instruction is at cell 0 never executes it (`FirstInstructionSkipped`).
- `load_program` appends to the ROM (`self.rom.push`). It does not replace the ROM.
- `clear_memory` copies the ROM back into memory and does not reset `ip`. Only a run that stops normally resets it to 0.
- Terminate and an unknown opcode both make `next` return `None`. The `Terminate` and `Invalid` arms of `run` can never be reached. A caller cannot tell which of the two ended a run: `Execution` records it as `stop`, but `Run` keeps only the memory.
- `set_program_code` and `run` drop the result of `write_pos`. A write past the end of memory changes nothing and reports nothing.
- Rust panics are not an error the code returns. They are the `Panic` outcome of `Execution`, which covers:
  - indexing past the end of memory in `next`;
  - `unwrap` of a `read_pos` that found no cell;
  - u32 overflow of `+` or `*`, taken with debug-build semantics.

  The methods require `Execution(..).Halted?`, which holds exactly when the Rust code would not panic.

## Model

| member | source | states |
|---|---|---|
| IntCode.OpCodeFrom | src/day_2.rs:139-148 | 1 decodes to Add, 2 to Mul and 99 to Term, each in both directions; every other word is Invalid |
| IntCode.DecodeCode | src/day_2.rs:139-148 | encoding a recognised opcode and decoding it again gives the same opcode |
| IntCode.CodeDecode | src/day_2.rs:139-148 | a word that decodes to a recognised opcode is that opcode's own code |
| IntCode.Write | src/day_2.rs:89-99 | an in-range position takes the value and every other cell and the length are kept; an out-of-range position changes nothing |
| IntCode.Patch | src/day_2.rs:29-34 | cell pos + i holds vals[i] wherever that cell exists, every other cell keeps its value, and the length is unchanged, so writes past the end are silently skipped |
| IntCode.CanDecode | src/day_2.rs:105-115 | `next` does not index past the end exactly when the opcode cell at ip + 4 exists and, when that word is 1 or 2, so do the three operand cells after it |
| IntCode.Decode | src/day_2.rs:104-120 | the opcode is read at ip + 4; Add and Mul carry the next three cells as op1, op2 and dst; None comes back exactly when the word is neither 1 nor 2 |
| IntCode.CanExecute | src/day_2.rs:49-53 | an Add or Mul step does not panic exactly when both operand addresses are in range (so the `unwrap`s succeed) and the u32 sum or product of the two operand cells stays below 2^32 |
| IntCode.Execute | src/day_2.rs:44-65 | Add stores the sum and Mul the product of the two operand cells at dst; no other cell changes; a dst past the end leaves memory unchanged |
| IntCode.Execution | src/day_2.rs:41-78 | a run that halts keeps the memory length, its first opcode cell (at ip + 4) exists, and it stops only on Term or Invalid |
| IntCode.HaltLeavesMemory | src/day_2.rs:117-118 | 99 and an unknown opcode both end the run with memory untouched, and differ only in the stop code |
| IntCode.ExecutionStep | src/day_2.rs:42-65 | a clean Add or Mul step hands the rest of the run to the updated memory at ip + 4 |
| IntCode.SampleProgram | src/day_2.rs:105-116 | 1,9,10,3,2,3,11,0,99,30,40,50 from ip 0 halts on Term with 150 in cell 0, because the Add at cell 0 is skipped |
| IntCode.FirstInstructionSkipped | src/day_2.rs:105-106 | programs 1,0,0,0,99 and 2,3,0,3,99 halt with memory unchanged |
| Parser.IntCodeParser.constructor | src/day_2.rs:12-18 | ROM and memory are empty and ip is 0 |
| Parser.IntCodeParser.LoadProgram | src/day_2.rs:19-27 | the values are appended to the ROM and memory becomes a copy of the whole ROM; ip is untouched |
| Parser.IntCodeParser.WritePos | src/day_2.rs:89-99 | Ok exactly when pos is in range, otherwise the out-of-range error message; memory becomes `Write` of the old memory; ROM and ip are untouched |
| Parser.IntCodeParser.SetProgramCode | src/day_2.rs:29-34 | memory becomes `Patch` of the old memory; ROM and ip are untouched |
| Parser.IntCodeParser.ClearMemory | src/day_2.rs:36-39 | memory equals the ROM again; ROM and ip are untouched |
| Parser.IntCodeParser.ReadPos | src/day_2.rs:82-88 | the cell at pos exactly when pos is in range, None otherwise; reads no cell past the end and changes nothing |
| Parser.IntCodeParser.Next | src/day_2.rs:104-120 | ip grows by exactly 4 and the result is `Decode` at the old ip; memory and ROM are untouched |
| Parser.IntCodeParser.Run | src/day_2.rs:41-78 | on a run that does not panic, memory becomes the final memory of `Execution`, memory stays as long as the ROM, ip ends as 0, and the ROM is untouched |
| Driver.Trial | src/day_2.rs:161-163 | one trial (a fresh copy of the ROM, noun and verb at cells 1 and 2, a run from ip 0) that halts keeps the ROM's length, and the ROM then has more than four cells |
| Driver.SearchFrom | src/day_2.rs:158-172 | the search from (i, j) on in row-major order; a pair it finds is in range, not before (i, j), and its trial halts with 19690720 in cell 0; Exhausted when the range runs out; Fails at the first trial that panics before a hit |
| Driver.FoundIsFirst | src/day_2.rs:158-172 | a pair the search finds is in range and hits the target, and every pair the loops visit before it runs cleanly and misses |
| Driver.ExhaustedMissesAll | src/day_2.rs:158-172 | a search that runs out of pairs has seen every pair in 0..100 x 0..100 run cleanly and miss |
| Driver.FailsOnPanic | src/day_2.rs:158-172 | a search that fails has met a pair in range whose trial panics, and every pair the loops visit before that one runs cleanly and misses, so the search stops at the first panic |
| Driver.SearchAdvance | src/day_2.rs:159-170 | a hit ends the search at the current pair; a miss moves it to the next verb |
| Driver.SearchNextRow | src/day_2.rs:158-159 | running out of verbs moves the search to verb 0 of the next noun |
| Driver.RunTrial | src/day_2.rs:160-166 | clear, patch, run and read cell 0 on the parser leaves the trial's final memory in the parser and gives its cell 0; ROM and ip are kept |
| Driver.SearchLoop | src/day_2.rs:158-172 | the nested loops return 100 * noun + verb of the pair `SearchFrom` finds, and nothing when the range is exhausted; the ROM and ip 0 are kept |
| Driver.WarmUp | src/day_2.rs:155-157 | the warm-up leaves in memory the final memory of the patched run, keeps the ROM and resets ip to 0 |
| Driver.Search | src/day_2.rs:154-172 | starting from a fresh parser loaded with the program, the answer is 100 * noun + verb of the first pair that hits, and there is no answer exactly when no pair hits |

## Left out

- Reading and parsing the ROM in `load_program` (src/day_2.rs:19-24) is I/O. `LoadProgram` takes the already-parsed values, so a malformed number and its `unwrap` panic are not modelled.
- The argument and file handling of `main` (src/day_2.rs:150-153) and the `println!` of the answer (src/day_2.rs:168) are I/O. `Search` returns the answer instead of printing it.
- The `println!` tracing in `run` (src/day_2.rs:47-52, 58-63, 67, 71) is output only and does not affect the state.
- The `Terminate` and `Invalid` arms of `run` (src/day_2.rs:66-73) are unreachable, because `next` never yields those values. The match in `Run` leaves them out.
- The `Iterator` trait machinery is not modelled: `next` is an ordinary method, `Next`.
- The `&mut Self` returned by each builder method is not modelled, since it carries no data. The call chains of `main` become statements in sequence.
- Parser.IntCodeParser.Run: u32 `+` and `*` are modelled with debug-build semantics, where overflow panics. In a release build they wrap modulo 2^32, and that is not modelled.
- Driver.SearchLoop: the parser's memory after the loops (that of the last trial run) is not stated, because `main` returns right after the loops (src/day_2.rs:169, 174) and never reads it.
- Parser.IntCodeParser.SetProgramCode: the `usize` addition `pos + i` (src/day_2.rs:31) would panic on overflow in a debug build. Positions are unbounded `nat`s in the model, so that panic is not modelled; `main` only patches at position 1, where it cannot happen.
- Parser.IntCodeParser.Next: the `usize` overflow of `ip += 4` is not modelled. It would need memory of nearly 2^64 cells.
- Parser.IntCodeParser.ClearMemory: idempotence has no lemma of its own. It follows from the contract `memory == rom`, because `ClearMemory` does not change `rom`.
- src/day_1.rs and src/main.rs are not part of this model. They are file I/O and floating-point fuel arithmetic, unrelated to the interpreter.
