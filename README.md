# CHIP-8 interpreter core in Dafny

This project models the virtual machine in `src/chip8.rs` of a small CHIP-8
interpreter written in Rust, and proves properties of it. The machine has:

- sixteen 8-bit registers V0..VF;
- a 16-bit index register I;
- a program counter;
- 4 KiB of RAM;
- a delay timer and a sound timer;
- a 32 x 64 framebuffer of 0/1 cells, plus a redraw flag;
- an unbounded stack of return addresses;
- a pending "skip the next instruction" flag.

The machine executes the instruction set of the closed `Instruction` enum.
The model follows the Rust code as written, including these points where it
departs from the usual CHIP-8 description:

- A skip instruction only sets a flag. The next `start_cycle` fetches the
  following opcode, advances `pc` past it, clears the flag and does nothing
  else.
- 8XY4 masks the sum with `0xFF` before testing for a carry, so its VF ends 0.
  If X is F, VF ends as the sum instead.
- The sound timer counts down only while it is above 1.
- Sprites are clipped at the right and bottom edges, not wrapped.
- There is no font in RAM.
- 8XY6 and 8XYE are `todo!()` and panic.

The project has five files:

- `bytes.dfy` (module `Bytes`): the fixed-width integers (`U8`, `U16`,
  `Nibble` as integer subranges) and the byte operations OR, AND and XOR.
  It also holds the sprite bit and two facts about XOR on single bits.
- `instruction.dfy` (module `Instructions`): the `Instruction` datatype, the
  opcode encoding `Encode`, and the decoder `Decode` that `start_cycle`
  applies to a fetched opcode. Decoding and encoding are proved to be
  inverse on every executed opcode.
- `machine.dfy` (module `Machine`): the reference semantics as pure
  functions on a value `State`.
  - `Boot` is `new` once the ROM is read.
  - `Tick`, `Exec` and `Cycle` are `tick`, `exec` and `start_cycle`.
  - `Dispatch` is the decode half of `start_cycle`.
  - `Registers` is the register-only instructions.
  - `Draw` and `DrawSpriteOn` are DXYN.
  - A Rust panic is the result `Panic(fault)`, with the reason: a fetch past
    RAM, a sprite row past RAM, a return on an empty stack, or an
    unimplemented shift.
  - What `start_cycle` prints is part of its `Report`.
- `machine_properties.dfy` (module `MachineProperties`): lemmas about the
  reference semantics. They cover flags and wrap-around, clipping and
  collision, drawing twice, the call/return protocol, skipping, no-op
  opcodes, timers and the boot image.
- `chip8.dfy` (module `Interpreter`): the `Chip8` struct as a class whose
  methods change their fields in place.
  - The registers, RAM and framebuffer are arrays.
  - The ROM copy, the screen clear and the sprite drawing are the nested
    loops of the source, with their invariants.
  - The constructor, `Tick`, `Exec` with its per-arm methods, and
    `StartCycle` (the methods that stand for functions of the source) are
    proved to move the machine exactly as the matching `Machine` function
    says, through the abstraction `Abs()`.
  - The drawing and register helpers (`DrawSpriteCells`, `XorSprite`,
    `DrawSpriteRow`, `DrawPixel`, `ExecRegister`) are stated on the row view
    `Rows()`, on `v[..]` and on loop-step predicates; their callers lift
    those statements to `Abs()`.

## Model

| member | source | states |
|---|---|---|
| Bytes.Or8 | src/chip8.rs:158-160 | Definition of bitwise OR on `u8` (8XY1); its use is stated in `MachineProperties.RegisterLoads` |
| Bytes.And8 | src/chip8.rs:162-164 | Definition of bitwise AND on `u8` (8XY2); its use is stated in `MachineProperties.RegisterLoads` |
| Bytes.Xor8 | src/chip8.rs:166-168 | Definition of bitwise XOR on `u8` (8XY3 and the sprite XOR); its properties on 0/1 cells are `Bytes.XorBit` and `Bytes.XorBitTwice` |
| Instructions.Encode | src/chip8.rs:4-26 | Definition of the opcode of each instruction, after the table of the enum; `Instructions.DecodeEncode` and `Instructions.EncodeDecode` prove it inverse to `Decode` |
| Instructions.Decode | src/chip8.rs:284-406 | Definition of the decoder; its properties are in `Instructions.DecodeEncode`, `Instructions.EncodeDecode`, `Instructions.DecodeExecutesExactlyEncodings` and `MachineProperties.CycleNoOps` |
| Instructions.DecodeArithmetic | src/chip8.rs:338-382 | Definition of the inner match of the 8XY_ family; its properties are in `Instructions.DecodeEncodeArithmetic` and `MachineProperties.CycleNoOps` |
| Machine.LoadImage | src/chip8.rs:64-67 | Definition of the RAM image after the ROM copy; its properties are in `MachineProperties.BootImage` |
| Machine.Boot | src/chip8.rs:64-80 | Definition of the state `new` builds; its properties are in `MachineProperties.BootImage` |
| Machine.Tick | src/chip8.rs:83-91 | Definition of `tick`; its properties are in `MachineProperties.TicksCountDown` |
| Machine.DrawnCell | src/chip8.rs:230-253 | Definition of one framebuffer cell after DXYN; its properties are in `MachineProperties.DrawSpriteEffect` and `MachineProperties.DrawCollision` |
| Machine.Draw | src/chip8.rs:230-253 | Definition of the framebuffer after DXYN; its properties are in `MachineProperties.DrawIsScreen`, `MachineProperties.DrawTwice` and `MachineProperties.DrawCollision` |
| Machine.DrawSpriteOn | src/chip8.rs:224-255 | Definition of DXYN on the whole state; its properties are in `MachineProperties.DrawSpriteEffect` and `MachineProperties.DrawSpriteTwice` |
| Machine.Registers | src/chip8.rs:130-222 | Definition of the register-only arms of `exec`; its properties are in `MachineProperties.RegisterLoads`, `MachineProperties.AddYtoXFlag` and `MachineProperties.SubtractFlag` |
| Machine.Exec | src/chip8.rs:120-273 | Definition of `exec`; its properties are in `MachineProperties.ExecPanics`, `MachineProperties.ExecWellFormed` and the per-instruction lemmas below |
| Machine.Fetch | src/chip8.rs:276 | Definition of the big-endian fetch; its properties are in `MachineProperties.CycleFetch` |
| Machine.Dispatch | src/chip8.rs:284-407 | Definition of the decode half of `start_cycle`; its properties are in `MachineProperties.SkipSkipsNext` and `MachineProperties.CycleNoOps` |
| Machine.Cycle | src/chip8.rs:275-408 | Definition of `start_cycle`; its properties are in `MachineProperties.CycleFetch`, `MachineProperties.CycleWellFormed` and `MachineProperties.CycleIndexBelowRam` |
| Bytes.SpriteBit | src/chip8.rs:237-241 | The pixel read from a sprite row is 0 or 1 |
| Bytes.SpriteBitBigEndian | src/chip8.rs:237-241 | Pixel `col` of a sprite row is binary digit `7 - col` of the byte, that is `(row / 2^(7 - col)) % 2` (big-endian); pixel 0 is lit exactly when the byte is at least 0x80, and pixel 7 is the low bit |
| Bytes.XorBit | src/chip8.rs:243-251 | XOR with a 0/1 sprite bit keeps a cell 0/1, flips it on 1 and keeps it on 0; the cell goes from 1 to 0 exactly when the cell and the sprite bit are both 1 |
| Bytes.XorBitTwice | src/chip8.rs:245 | XORing a cell with the same bit twice gives the cell back |
| Instructions.DecodeEncode | src/chip8.rs:284-404 | Every instruction with 12-bit operands has an opcode that the decoder executes as exactly that instruction |
| Instructions.DecodeEncodeSystem | src/chip8.rs:285-293 | 00E0 decodes to `Clear` and 00EE to `Return` |
| Instructions.DecodeEncodeAddress | src/chip8.rs:295-396 | 1NNN, 2NNN and ANNN decode to their instruction with the 12-bit operand NNN |
| Instructions.DecodeEncodeByte | src/chip8.rs:305-336 | 3XNN, 4XNN, 6XNN and 7XNN decode to their instruction with register X and byte NN |
| Instructions.DecodeEncodeRegisters | src/chip8.rs:317-404 | 5XY0, 9XY0 and DXYN decode to their instruction with registers X, Y (and N rows) |
| Instructions.DecodeEncodeArithmetic | src/chip8.rs:338-382 | An 8XYN opcode decodes through the inner match on N to the arithmetic instruction listed for N |
| Instructions.EncodeDecode | src/chip8.rs:284-404 | An executed opcode is the encoding of the instruction it decodes to, so no operand bits are lost and no two opcodes decode to the same instruction |
| Instructions.DecodeExecutesExactlyEncodings | src/chip8.rs:284-406 | An opcode is executed if and only if it is the encoding of some instruction; every other opcode is ignored, reported unsupported, or dropped |
| MachineProperties.ScreenExt | src/chip8.rs:49 | Two 32 x 64 framebuffers with the same cells are equal |
| MachineProperties.DrawIsScreen | src/chip8.rs:224-253 | Drawing a sprite keeps every framebuffer cell 0 or 1 |
| MachineProperties.DrawTwice | src/chip8.rs:230-253 | Drawing the same sprite twice at the same origin restores the framebuffer |
| MachineProperties.DrawCollision | src/chip8.rs:243-251 | Some cell goes from 1 to 0 if and only if a lit sprite pixel lands on a lit, on-screen cell; clipped pixels never collide |
| MachineProperties.ExecWellFormed | src/chip8.rs:120-273 | `exec` keeps 16 registers, 4096 bytes of RAM and a 32 x 64 framebuffer of 0/1 cells |
| MachineProperties.CycleWellFormed | src/chip8.rs:275-408 | `start_cycle` keeps the same invariant |
| MachineProperties.BootImage | src/chip8.rs:64-80 | `new` puts the ROM at 0x200, zeros in the rest of RAM, `pc` at 0x200, zero registers, I = 0, a blank screen, zero delay and sound timers, no redraw pending, an empty stack and no pending skip |
| MachineProperties.ExecPanics | src/chip8.rs:197-266 | `exec` panics if and only if the instruction is a shift (`todo!()`), a return on an empty stack (the `assert!` at :264), or a sprite whose rows run past RAM (:231); it never reports a fetch fault |
| MachineProperties.ClearBlanks | src/chip8.rs:122-128 | 00E0 sets all 32 x 64 cells to 0 and changes nothing else |
| MachineProperties.SkipComparisons | src/chip8.rs:138-152 | 3XNN, 4XNN, 5XY0 and 9XY0 set the pending skip to Vx == NN, Vx != NN, Vx == Vy and Vx != Vy, and change nothing else |
| MachineProperties.RegisterLoads | src/chip8.rs:130-222 | 6XNN, 7XNN, 8XY0, 8XY1, 8XY2 and 8XY3 change only Vx (so 7XNN leaves VF alone unless X is F); they load NN, add NN modulo 256, copy Vy, or OR, AND or XOR in Vy |
| MachineProperties.LoadIndex | src/chip8.rs:134-136 | ANNN sets I := NNN and changes nothing else |
| MachineProperties.CycleIndexBelowRam | src/chip8.rs:393-396 | An ANNN that a cycle fetches and executes leaves I below 0x1000, since its operand is the 12-bit field `opcode & 0x0FFF` |
| MachineProperties.JumpSetsPc | src/chip8.rs:259-261 | 1NNN sets `pc := NNN` and leaves the stack and every other field alone |
| MachineProperties.AddYtoXFlag | src/chip8.rs:170-183 | 8XY4 stores (Vx + Vy) mod 256 in Vx; VF ends 0 (the carry test at :177 can never succeed), or ends as the sum when X is F; nothing else changes |
| MachineProperties.SubtractFlag | src/chip8.rs:185-211 | 8XY5 and 8XY7 store the wrapped difference in Vx; VF is 0 exactly when the minuend is smaller, else 1, unless X is F; nothing else changes |
| MachineProperties.DrawSpriteEffect | src/chip8.rs:224-255 | DXYN draws at (Vx mod 64, Vy mod 32), read before VF is cleared. Each cell of the rectangle, cut at the screen edges, is XORed with its sprite bit, and every other cell is kept. VF is 1 exactly when a lit pixel hit a lit cell, else 0. Only the screen, VF and the redraw flag change |
| MachineProperties.DrawSpriteTwice | src/chip8.rs:224-255 | Executing the same DXYN twice restores the screen when neither coordinate register is VF |
| MachineProperties.CallThenReturn | src/chip8.rs:263-271 | 2NNN followed by 00EE gives back the state before the call |
| MachineProperties.Calls | src/chip8.rs:268-271 | Each 2NNN keeps the invariant and pushes exactly one return address |
| MachineProperties.Returns | src/chip8.rs:263-266 | Each 00EE on a non-empty stack keeps the invariant and pops exactly one return address |
| MachineProperties.CallsUnwind | src/chip8.rs:259-271 | After any number of calls, `j` returns restore the machine to where it was before the last `j` calls, in reverse order |
| MachineProperties.CycleFetch | src/chip8.rs:275-282 | The fetch panics exactly when `pc + 1` is past RAM. The opcode is `ram[pc] * 256 + ram[pc + 1]`. A pending skip is cleared and `pc` moves by 2, with nothing else changed. `pc` ends at `pc + 2` unless a jump, call or return sets it; an executed call pushes `pc + 2` and sets `pc` to its address |
| MachineProperties.SkipSkipsNext | src/chip8.rs:138-282 | A skip instruction only advances `pc` and sets the skip to its comparison; when that holds, the next cycle steps over the following opcode, so two cycles reach `pc + 4` with nothing else changed |
| MachineProperties.CycleNoOps | src/chip8.rs:284-406 | 0NNN other than 00E0/00EE, 5XY? and 9XY? with a nonzero last nibble, 8XY? with an unlisted sub-operation, and families B, C, E and F only move `pc` past the opcode |
| MachineProperties.TicksCountDown | src/chip8.rs:83-91 | `k` ticks take the delay timer down by `k` but not below 0 and the sound timer down by `k` but not below 1 (0 and 1 stay put); nothing else changes |
| Interpreter.Chip8.RowsAre | src/chip8.rs:49 | The framebuffer array read as rows equals any 32 x 64 grid that agrees with it cell by cell |
| Interpreter.Chip8.constructor | src/chip8.rs:64-80 | The ROM-copy loop and the field initialisation build exactly `Boot(rom)` |
| Interpreter.Chip8.Tick | src/chip8.rs:83-91 | `tick` changes the timers in place exactly as `Machine.Tick` |
| Interpreter.Chip8.ClearScreen | src/chip8.rs:122-128 | The nested loops zero every cell and change nothing else |
| Interpreter.Chip8.DrawSpriteRows | src/chip8.rs:224-255 | DXYN on a sprite inside RAM moves the machine exactly as `Machine.DrawSpriteOn` |
| Interpreter.Chip8.DrawSpriteCells | src/chip8.rs:225-253 | VF is cleared, the framebuffer becomes `Draw` of the old one, and VF ends as the collision verdict; all other registers keep their values |
| Interpreter.Chip8.XorSprite | src/chip8.rs:230-253 | The row loop draws all rows 0..N and keeps the collision flag |
| Interpreter.Chip8.DrawSpriteRow | src/chip8.rs:231-252 | One iteration of the row loop draws row `y` and keeps VF equal to "some cell went from 1 to 0" |
| Interpreter.Chip8.DrawPixel | src/chip8.rs:233-251 | One iteration of the column loop XORs one on-screen cell with its sprite bit, or skips a clipped one, and sets VF on a 1-to-0 change |
| Interpreter.Chip8.DrawnAll | src/chip8.rs:230-253 | Once all rows are drawn, the framebuffer is `Draw` of the old one |
| Interpreter.Chip8.FlagIsCollision | src/chip8.rs:247-251 | The tracked VF is 1 exactly when the drawing `Collided`, else 0 |
| Interpreter.Chip8.Exec | src/chip8.rs:120-273 | `exec` panics exactly when `Machine.Exec` does, with the same fault; otherwise it moves the machine exactly as `Machine.Exec` |
| Interpreter.Chip8.ExecOther | src/chip8.rs:120-273 | 00E0, ANNN, DXYN and the shifts behave as `Machine.Exec`, including the sprite and `todo!()` panics |
| Interpreter.Chip8.ExecRegisterArm | src/chip8.rs:130-222 | The register arms behave as `Machine.Exec` |
| Interpreter.Chip8.ExecRegister | src/chip8.rs:154-222 | The in-place register writes produce `Machine.Registers` of the old registers |
| Interpreter.Chip8.ExecSkip | src/chip8.rs:138-152 | The skip arms behave as `Machine.Exec` |
| Interpreter.Chip8.ExecFlow | src/chip8.rs:259-271 | The jump, call and return arms behave as `Machine.Exec`, including the empty-stack panic |
| Interpreter.Chip8.StartCycle | src/chip8.rs:275-408 | `start_cycle` panics exactly when `Machine.Cycle` does; otherwise it moves the machine exactly as `Machine.Cycle` and returns its report |
| Interpreter.Chip8.DecodeAndExec | src/chip8.rs:284-407 | The decode half of `start_cycle` behaves as `Machine.Dispatch` |

## Left out

- `update_screen` (src/chip8.rs:93-118) and its call at the end of DXYN
  draw on the host window with floating-point geometry. They change no
  state of the machine.
- Interpreter.Chip8.constructor: takes the ROM bytes instead of a file path,
  because the file read at src/chip8.rs:63 is host I/O. It requires the ROM
  to fit in the 3584 bytes from 0x200 on; a longer ROM makes the copy loop
  panic. The font load is only a TODO in the source, so no font is placed in
  RAM.
- Interpreter.Chip8.Exec: when the source panics, the model returns the
  fault with no later state. A Rust panic aborts the program, so the fields
  it has already changed are never observed.
- Interpreter.Chip8.StartCycle: `println!("Ignored")` and the `eprintln!`
  for an unsupported opcode become the returned `Report`, because standard
  output and standard error are not part of the machine.
- 8XY6 and 8XYE: the source has only `todo!()` for them, so no shift
  semantics is modelled; they panic.
- BNNN, CXNN, EX9E/EXA1 and the FX__ family are not implemented by the
  source. They decode to `Unsupported`. There is no keypad, no random number
  source and no bound on the stack, because the source has none (its stack
  is an unbounded `Vec`).
- The `Instruction` fields of the source are `u8`, `usize` and `u16`. The
  model narrows registers to 4 bits and sprite heights to 4 bits, because the
  decoder only ever produces such values. The `assert!(num_bytes <= 0xF)` at
  src/chip8.rs:229 therefore always holds.
- The bit masks of the decoder are written as division and remainder by
  powers of two. For a 16-bit unsigned opcode they give the same fields.
- `main.rs`: the ROM picker, the 60 Hz pacing and the window loop are host
  plumbing and are not part of this model.
- `usize` and `u8` overflow on `pc += 2`, `y + y_start` and `x + x_start` is
  not modelled. None of them can overflow for values the machine holds.
