# CHIP-8 interpreter core, modelled in Dafny

This project models the CHIP-8 interpreter in `src/main.rs`.

- **Machine state.** The `CPU` record: sixteen byte registers, 4096 bytes of memory, a sixteen-slot stack of 16-bit return addresses, a stack pointer and a program counter.
- **Machine cycle.** Each cycle reads a big-endian opcode, advances the counter by two, splits the opcode into its nibble fields and dispatches to one handler.
- **Handlers.** Clear-screen, return, jump, call, the two skips, load, add-immediate, OR, AND, XOR and register add.
- **Demo program.** The program that `main` loads.

The model is purely functional:

- `Machine.State` is an immutable datatype.
- `Machine.Cpu` is the subtype of states whose arrays have their fixed lengths and whose stack pointer is within bounds.
- Every handler is a function from state to state.
- A handler that can abort returns a `Result` whose error side names the fault.

The files are:

| file | module | contents |
|---|---|---|
| `machine.dfy` | `Machine` | state, faults, byte operations, a freshly built CPU |
| `opcode.dfy` | `Opcode` | fetch, field decoding, the dispatch table |
| `handlers.dfy` | `Handlers` | one function per opcode handler except `jmp` and `cls`, which are one-line cases of `Interpreter.Execute` |
| `interpreter.dfy` | `Interpreter` | the machine cycle `Step` and the fuel-bounded `Run` |
| `properties.dfy` | `Properties` | lemmas about fetch, dispatch, handlers and cycles |
| `programs.dfy` | `Programs` | the demo program of `main`, and a chain of seventeen nested calls |

Modelling choices:

- **Skips compare raw nibbles.** The dispatch passes the raw nibble `x` to the skip handlers, not the register `Vx`. For `5xy_` it also passes the raw nibble `y`. This contradicts the doc comment of `se`, and the model follows the code.
  - `Properties.SkipStep` states the skip behaviour for a whole cycle.
  - `Properties.SkipRegistersIgnoresLastNibble` shows that `5xy_` matches whatever its last nibble is.
- **Call on a full stack.** `call` tests `sp > 16`, one too late. With sixteen slots in use it then fails on the array index instead. Both are aborts, so `Handlers.Call` fails exactly when `sp >= 16`.
- **Return address width.** The saved return address is `pc as u16`, which the model writes as `pc % 0x10000`.
- **`7xkk` wraps.** `+=` on a `u8` is modelled with the wrap-around of a release build.
- **`8xy4` aborts on overflow.** It writes the wrapped sum and then aborts with `todo!` on overflow. VF is never written.
- **The demo ends with V0 = 45.** The program calls the subroutine twice, and each visit adds V1 = 10 twice, so V0 = 5 + 4·10 = 45, which is what `main` asserts.
- **Clear-screen.** `00E0` only prints. It is modelled as a `ClearScreen` event of the cycle, and `Run` counts these events.
- **Run is fuel-bounded.** `run` loops until the halt word. `Run` stops after a given number of cycles and then reports `OutOfFuel`.

## Model

| member | source | states |
|---|---|---|
| Machine.Boot | src/main.rs:167-173 | A freshly built CPU has zeroed registers and stack, the given memory, and pc and sp at 0 |
| Opcode.Fetch | src/main.rs:16-21 | Fetch succeeds iff pc + 1 < 4096. Then the high byte of the word is mem[pc] and the low byte is mem[pc+1]. Otherwise it fails with a memory bound error at an index at or past 4096 |
| Opcode.Decode | src/main.rs:29-35 | The opcode equals c·4096 + x·256 + y·16 + d with every field a nibble, kk = y·16 + d, and addr = x·256 + kk |
| Properties.DecodeWord | src/main.rs:29-35 | Decoding the word built from four nibbles gives back those nibbles and the kk and addr they form |
| Properties.WordDecode | src/main.rs:29-35 | Rebuilding the word from the decoded nibbles gives back the opcode |
| Properties.FetchWord | src/main.rs:16-21 | Two bytes c·16+x and y·16+d at pc fetch as the word with nibbles c, x, y, d |
| Properties.DispatchUnknownIffUnhandled | src/main.rs:38-57 | The dispatch table falls through to `todo!` exactly for opcodes outside 0000, 00E0, 00EE, 1000-7FFF and 8xy0-8xy4, and reports the opcode |
| Opcode.Dispatch | src/main.rs:38-57 | The halt, clear-screen and return arms match exactly the words 0000, 00E0 and 00EE. Jump and call are chosen exactly for 1000-1FFF and 2000-2FFF, with the low twelve bits as address. An unimplemented opcode is reported as itself |
| Interpreter.Execute | src/main.rs:38-57 | Only the halt instruction stops, keeping the state, and only clear-screen signals. A cycle aborts with underflow exactly on a return at sp = 0, with overflow exactly on a call at sp >= 16, with an add overflow exactly on an 8xy4 whose sum exceeds 255, and as unimplemented exactly on an unknown opcode. No instruction writes memory |
| Interpreter.Step | src/main.rs:16-58 | A cycle fails on the memory bound exactly when pc + 1 >= 4096. It stops only on the halt word, with pc two past it and nothing else changed. It signals clear-screen exactly on 00E0, and it never writes memory |
| Interpreter.RunWith | src/main.rs:24-25 | A run of any cycle function counts at most one clear-screen signal per cycle, and it runs out of fuel only after a continuing cycle |
| Interpreter.Cycle | src/main.rs:25-57 | One loop iteration and the rest of the run: at most one signal more than the remaining fuel, and fuel runs out only if this cycle continued |
| Interpreter.Run | src/main.rs:16-39 | The interpreter's run counts at most one signal per cycle. It halts at once on the halt word, with pc two past it, and aborts at once on a fetch past the end of memory |
| Properties.SkipRegistersIgnoresLastNibble | src/main.rs:46 | `5xyd` dispatches to the equal-skip on the nibbles x and y for every d |
| Handlers.Ret | src/main.rs:68-76 | Return fails iff sp = 0. Otherwise sp drops by one and pc becomes the slot at the new sp, with registers, memory and stack unchanged |
| Handlers.Call | src/main.rs:84-95 | Call fails iff sp >= 16. Otherwise it stores the advanced pc (as u16) in slot sp, increments sp and jumps to addr, with the other slots, registers and memory unchanged |
| Handlers.Se | src/main.rs:99-103 | The counter moves by 2 iff the two arguments are equal, and stays iff they differ. Nothing else changes |
| Handlers.Sne | src/main.rs:107-111 | The counter moves by 2 iff the two arguments differ, and stays iff they are equal. Nothing else changes |
| Handlers.Ld | src/main.rs:114-116 | Register x becomes kk and no other register or field changes |
| Handlers.Add | src/main.rs:119-121 | Register x becomes Vx + kk when that is below 256, else Vx + kk - 256. No other register or field changes |
| Handlers.OrXY | src/main.rs:124-129 | Register x becomes Vx OR Vy. No other register or field changes |
| Handlers.AndXY | src/main.rs:132-137 | Register x becomes Vx AND Vy. No other register or field changes |
| Handlers.XorXY | src/main.rs:140-145 | Register x becomes Vx XOR Vy. No other register or field changes |
| Handlers.AddXY | src/main.rs:148-161 | Fails with an overflow iff Vx + Vy > 255. Otherwise register x becomes the exact sum and no other register (VF included) or field changes |
| Properties.SkipSymmetry | src/main.rs:99-111 | For the same arguments exactly one of the two skips moves the counter. Their counters differ and sum to 2·pc + 2 |
| Properties.CallThenRet | src/main.rs:68-95 | A return right after a successful call restores pc and sp. The only trace left is the saved address in the slot above sp |
| Properties.FetchPastEndAborts | src/main.rs:16-21 | A cycle with pc + 1 >= 4096 aborts on the memory bound before anything is decoded |
| Properties.StraightLineAdvancesByTwo | src/main.rs:26-27 | For 6xkk, 7xkk, 8xy0-8xy3, a non-overflowing 8xy4 and 00E0, the cycle continues with pc + 2 and leaves stack, sp and memory unchanged |
| Properties.RegisterOnlyUpdates | src/main.rs:47-54 | A register-writing cycle sets register x to kk, the wrapped Vx + kk, Vy, OR, AND, XOR or the exact sum, according to the opcode. It advances pc by 2 and changes no other register, memory cell or stack slot |
| Properties.SkipStep | src/main.rs:44-46 | A 3xkk, 4xkk or 5xy_ cycle moves pc by 4 when the raw operands compare as the opcode asks, else by 2, with nothing else changed |
| Properties.ClearStep | src/main.rs:62-65 | A 00E0 cycle leaves the state unchanged apart from pc + 2 and signals the display to clear |
| Properties.JumpStep | src/main.rs:42 | A 1nnn cycle sets pc to nnn and changes nothing else |
| Properties.CallReturnCycles | src/main.rs:41-43 | A 2nnn cycle followed by a 00EE cycle at nnn returns to the instruction after the call. The stack pointer is restored and the return address is left in its slot |
| Properties.CallOnFullStackFails | src/main.rs:88-92 | A 2nnn cycle with sixteen slots in use aborts with a stack overflow |
| Properties.ReturnOnEmptyStackFails | src/main.rs:69-71 | A 00EE cycle with sp = 0 aborts with a stack underflow |
| Properties.AddOverflowFails | src/main.rs:152-157 | An 8xy4 cycle whose sum exceeds 255 aborts |
| Properties.HaltStops | src/main.rs:39 | The word 0000 halts with pc already two past it and nothing else changed, and a run stops there |
| Properties.UnimplementedIffUnhandled | src/main.rs:55-57 | A cycle aborts as unimplemented exactly when the fetched word is outside the handled ranges, and it reports that word |
| Properties.RunMonotone | src/main.rs:24-25 | Once a run halts or aborts within some fuel, any larger fuel gives the same result, for every cycle function |
| Properties.RunMonotoneCpu | src/main.rs:24-25 | The same for the interpreter's own cycle |
| Properties.RunKeepsMemory | src/main.rs:24-25 | A run that halts or runs out of fuel ends with the memory it started with |
| Properties.QuietCycle | src/main.rs:25-27 | A cycle that continues without a signal costs exactly one unit of fuel |
| Programs.MainStartReady | src/main.rs:165-186 | The CPU that `main` builds holds the six code words, V0 = 5, V1 = 10, pc 0 and an empty stack |
| Programs.CallCycle | src/main.rs:181-182 | The `2100` at 0 and at 2 calls the subroutine, pushing return address 2 or 4 |
| Programs.AddCycle | src/main.rs:184-185 | Each `8014` in the subroutine adds V1 = 10 to V0 without overflow |
| Programs.ReturnCycle | src/main.rs:186 | The `00EE` at 0x104 returns to the address that the visit's call pushed |
| Programs.Visit | src/main.rs:181-186 | One visit (call, two adds, return) takes four cycles and adds 20 to V0 |
| Programs.HaltAfterVisits | src/main.rs:183 | After both visits the halt word at 4 stops the run with pc 6 |
| Programs.MainRunHalts | src/main.rs:176-189 | From a ready state, any fuel of at least nine cycles ends in the final state of the program with no signals |
| Programs.MainProgramComputes45 | src/main.rs:176-192 | The program of `main` halts with V0 = 45, V1 = 10, an empty stack, pc 6, every other register and all memory unchanged, and no signals |
| Programs.MainComputes45 | src/main.rs:165-192 | The CPU that `main` builds halts with V0 = 45, as `main` asserts |
| Programs.LadderCycle | src/main.rs:84-95 | In a chain of nested calls, each call below the stack bound pushes its return address and lands on the next call |
| Programs.LadderOverflows | src/main.rs:88-92 | The call made with all sixteen slots in use aborts with a stack overflow |
| Programs.LadderRun | src/main.rs:84-95 | From k calls deep, the remaining 16 - k calls succeed and fill the stack, and one more cycle aborts |
| Programs.LadderFull | src/main.rs:84-95 | Sixteen cycles of nested calls from a ready state end with no signals, sp = 16, and slot j holding that call's return address 2j + 2 |
| Programs.SeventeenthCallOverflows | src/main.rs:84-95 | Seventeen nested calls with no return: after sixteen cycles the stack is full, and the seventeenth call aborts with a stack overflow |

## Left out

- Console output: the `println!` in `cls` and in `main` is not modelled. Clear-screen appears only as an event, and `main`'s final message is not produced.
- Panic messages: only the kind of fault is kept. For `todo!` the model also keeps the opcode, and for an out-of-range fetch the index. The misnamed message in `ret` ("Stack overflow!" on an empty stack) becomes a `StackUnderflow` fault.
- Handlers.Add: models only the release-build wrap-around of `+=` on `u8`. A debug build would panic on overflow, and that path is not modelled.
- Interpreter.Run: `run` is an unbounded loop, so `Run` is cut off by a fuel count. A run that has not halted or aborted by then ends as `OutOfFuel`, which `run` has no counterpart for.
- Program counter width: `position_in_memory` is a `usize`, modelled as an unbounded natural number. Its `+= 2` overflow cannot be reached, because a fetch fails first at 4096.
- Programs.MainComputes45: it states only halting and V0 = 45 for the CPU that `main` builds. The complete final state is stated by `Programs.MainProgramComputes45` for every ready CPU, and `Programs.MainStartReady` shows that the built CPU is one of them.
- Display, keypad, timers, sound and ROM loading: `src/main.rs` has none of these, so none are modelled.
- Carry and borrow for `8xy5` and above: `src/main.rs` does not implement them, and they stay unimplemented opcodes here.
