/// Reference semantics of the `Chip8` machine of src/chip8.rs as pure
/// functions on a value `State`: what `new` builds, what `tick`, `exec` and
/// `start_cycle` turn one state into. The imperative class in chip8.dfy is
/// proved to implement exactly these functions.
module Machine {
  import opened Bytes
  import opened Instructions

  const RamSize := 0x1000
  const RomStart := 0x200
  const Width := 64
  const Height := 32

  /** The fields of `struct Chip8`. Rust's `deelay`/`sound_deelay` are
      `delay`/`sound` here. */
  datatype State = State(
    v: seq<U8>,                 // V0..VF
    i: U16,                     // index register
    pc: nat,
    ram: seq<U8>,
    delay: U8,
    sound: U8,
    screen: seq<seq<U8>>,       // 32 rows of 64 cells
    screenUpdate: bool,
    stack: seq<nat>,            // return addresses, most recent last
    skip: bool                  // skip the next fetched instruction
  )

  /** A framebuffer of 32 rows by 64 columns whose cells are 0 or 1. */
  predicate IsScreen(screen: seq<seq<U8>>) {
    |screen| == Height
    && (forall r :: 0 <= r < Height ==> |screen[r]| == Width)
    && (forall r, c :: 0 <= r < Height && 0 <= c < Width ==> IsBit(screen[r][c]))
  }

  /** The shape the Rust types give every `Chip8`, plus the 0/1 screen
      cells that every operation keeps. */
  predicate WellFormed(s: State) {
    |s.v| == 16 && |s.ram| == RamSize && IsScreen(s.screen)
  }

  /** Why the Rust program panics. */
  datatype Fault =
    | FetchOutOfRange       // `ram[pc]` or `ram[pc + 1]` beyond the 4096 bytes
    | SpriteOutOfRange      // `ram[i + y]` beyond the 4096 bytes in DXYN
    | ReturnOnEmptyStack    // `assert!(self.stack.len() != 0)` in 00EE
    | Unimplemented         // `todo!()` of 8XY6 and 8XYE

  /** A computation that either yields a value or makes the program panic. */
  datatype Result<T> = Ok(value: T) | Panic(fault: Fault)

  /** What one call of `start_cycle` did, with the diagnostics it prints. */
  datatype Report =
    | Skipped                       // the pending skip consumed this opcode
    | Executed(ins: Instruction)
    | PrintedIgnored                // `println!("Ignored")` for 0NNN
    | PrintedUnsupported(op: U16)   // `eprintln!` for families B, C, E, F
    | Dropped                       // 5XY?, 9XY?, 8XY? not decoded, silently

  /** The all-zero framebuffer. */
  function Blank(): seq<seq<U8>> {
    seq(Height, _ => seq(Width, _ => 0))
  }

  /** The RAM image of `new`: the ROM copied from 0x200 on, zero elsewhere. */
  function LoadImage(rom: seq<U8>): seq<U8>
    requires |rom| <= RamSize - RomStart
  {
    seq(RamSize, a requires 0 <= a < RamSize =>
      if RomStart <= a < RomStart + |rom| then rom[a - RomStart] else 0)
  }

  /** `Chip8::new`, once the ROM file has been read into `rom`. */
  function Boot(rom: seq<U8>): State
    requires |rom| <= RamSize - RomStart
  {
    State(seq(16, _ => 0), 0, RomStart, LoadImage(rom), 0, 0, Blank(), false, [], false)
  }

  /** `tick`: the delay timer counts down to 0, the sound timer to 1. */
  function Tick(s: State): State {
    s.(delay := if s.delay > 0 then s.delay - 1 else s.delay,
       sound := if s.sound > 1 then s.sound - 1 else s.sound)
  }

  /** Every sprite row address `i + row`, `row < n`, lies in RAM; a sprite
      of no rows reads nothing. */
  predicate SpriteInRam(i: nat, n: nat) {
    n == 0 || i + n <= RamSize
  }

  /** The cell at row `r`, column `c` after drawing the `n`-row sprite at
      `ram[i..i+n]` with its top-left corner at column `ox`, row `oy`.
      Cells outside the sprite's rectangle keep their value; the rectangle is
      cut at the screen's edges, never wrapped. */
  function DrawnCell(screen: seq<seq<U8>>, ram: seq<U8>, i: nat, ox: nat, oy: nat, n: nat, r: nat, c: nat): U8
    requires IsScreen(screen) && |ram| == RamSize && SpriteInRam(i, n)
    requires r < Height && c < Width
  {
    if oy <= r < oy + n && ox <= c < ox + 8
    then Xor8(screen[r][c], SpriteBit(ram[i + (r - oy)], c - ox))
    else screen[r][c]
  }

  /** The framebuffer after drawing a sprite, cell by cell. */
  function Draw(screen: seq<seq<U8>>, ram: seq<U8>, i: nat, ox: nat, oy: nat, n: nat): seq<seq<U8>>
    requires IsScreen(screen) && |ram| == RamSize && SpriteInRam(i, n)
  {
    seq(Height, r requires 0 <= r < Height =>
      seq(Width, c requires 0 <= c < Width => DrawnCell(screen, ram, i, ox, oy, n, r, c)))
  }

  /** Some cell went from 1 to 0. */
  predicate Collided(before: seq<seq<U8>>, after: seq<seq<U8>>)
    requires IsScreen(before) && IsScreen(after)
  {
    exists r, c :: 0 <= r < Height && 0 <= c < Width && before[r][c] == 1 && after[r][c] == 0
  }

  /** The flag value the 8XY4 test at src/chip8.rs:177 stores for a masked
      sum; the sum it is given is already below 0x100. */
  function CarryFlag(sum: int): U8 {
    if sum > 0xFF then 1 else 0
  }

  /** The flag value 8XY5 and 8XY7 store: 0 on a borrow, else 1. */
  function NoBorrowFlag(minuend: U8, subtrahend: U8): U8 {
    if minuend < subtrahend then 0 else 1
  }

  /** DXYN: the origin is read before VF is cleared; VF ends 1 exactly when
      some cell went from 1 to 0. Reads `ram[i + y]` for every sprite row,
      also rows that are cut off, so the rows must lie in RAM. */
  function DrawSpriteOn(s: State, x: Reg, y: Reg, n: Nibble): State
    requires WellFormed(s) && SpriteInRam(s.i, n)
  {
    var screen := Draw(s.screen, s.ram, s.i, s.v[x] % Width, s.v[y] % Height, n);
    s.(screen := screen,
       v := s.v[VF := if Collided(s.screen, screen) then 1 else 0],
       screenUpdate := true)
  }

  /** The instructions that only write registers. */
  predicate IsRegisterOp(ins: Instruction) {
    ins.LoadNormalRegister? || ins.AddToNormalRegister? || ins.SetXtoY?
    || ins.SetXtoXorY? || ins.SetXtoXandY? || ins.SetXtoXxorY?
    || ins.AddYtoX? || ins.SubYfromX? || ins.SetXtoYMinusX?
  }

  /** The registers after a register instruction. */
  function Registers(v: seq<U8>, ins: Instruction): seq<U8>
    requires |v| == 16 && IsRegisterOp(ins)
  {
    match ins
    case LoadNormalRegister(x, nn) => v[x := nn]
    case AddToNormalRegister(x, nn) => v[x := (v[x] as int + nn as int) % 0x100]
    case SetXtoY(x, y) => v[x := v[y]]
    case SetXtoXorY(x, y) => v[x := Or8(v[x], v[y])]
    case SetXtoXandY(x, y) => v[x := And8(v[x], v[y])]
    case SetXtoXxorY(x, y) => v[x := Xor8(v[x], v[y])]
    case AddYtoX(x, y) =>
      // `(vx as u16 + vy as u16) & 0x00FF`, then VF, then Vx.
      var value := (v[x] as int + v[y] as int) % 0x100;
      v[VF := CarryFlag(value)][x := value]
    case SubYfromX(x, y) =>
      // `overflowing_sub`: the wrapped difference and the borrow.
      var value := (v[x] as int - v[y] as int) % 0x100;
      v[VF := NoBorrowFlag(v[x], v[y])][x := value]
    case SetXtoYMinusX(x, y) =>
      var value := (v[y] as int - v[x] as int) % 0x100;
      v[VF := NoBorrowFlag(v[y], v[x])][x := value]
  }

  /** The instructions that only set the pending skip. */
  predicate IsSkip(ins: Instruction) {
    ins.SkipOnXeqV? || ins.SkipOnXneqV? || ins.SkipOnXeqY? || ins.SkipOnXneqY?
  }

  /** Whether a skip instruction skips, given the registers. */
  predicate SkipTaken(v: seq<U8>, ins: Instruction)
    requires |v| == 16 && IsSkip(ins)
  {
    match ins
    case SkipOnXeqV(x, nn) => v[x] == nn
    case SkipOnXneqV(x, nn) => v[x] != nn
    case SkipOnXeqY(x, y) => v[x] == v[y]
    case SkipOnXneqY(x, y) => v[x] != v[y]
  }

  /** `exec`: one decoded instruction applied to the state. */
  function Exec(s: State, ins: Instruction): Result<State>
    requires WellFormed(s)
  {
    match ins
    case Clear => Ok(s.(screen := Blank()))
    case LoadIndexRegister(nnn) => Ok(s.(i := nnn))
    case SetXtoYshiftRightOnce(_, _) => Panic(Unimplemented)
    case SetXtoYshiftLeftOnce(_, _) => Panic(Unimplemented)
    case DrawSprite(x, y, n) =>
      if SpriteInRam(s.i, n) then Ok(DrawSpriteOn(s, x, y, n)) else Panic(SpriteOutOfRange)
    case Jump(a) => Ok(s.(pc := a))
    case Return =>
      if |s.stack| == 0 then Panic(ReturnOnEmptyStack)
      else Ok(s.(pc := s.stack[|s.stack| - 1], stack := s.stack[..|s.stack| - 1]))
    case SubRoutine(a) => Ok(s.(stack := s.stack + [s.pc], pc := a))
    case SkipOnXeqV(_, _) => Ok(s.(skip := SkipTaken(s.v, ins)))
    case SkipOnXneqV(_, _) => Ok(s.(skip := SkipTaken(s.v, ins)))
    case SkipOnXeqY(_, _) => Ok(s.(skip := SkipTaken(s.v, ins)))
    case SkipOnXneqY(_, _) => Ok(s.(skip := SkipTaken(s.v, ins)))
    case _ => Ok(s.(v := Registers(s.v, ins)))
  }

  /** The big-endian opcode at `pc`. */
  function Fetch(s: State): U16
    requires WellFormed(s) && s.pc + 1 < RamSize
  {
    s.ram[s.pc] as int * 0x100 + s.ram[s.pc + 1] as int
  }

  /** `start_cycle`: fetch, advance `pc` by 2, consume a pending skip or
      decode and execute. */
  function Cycle(s: State): Result<(State, Report)>
    requires WellFormed(s)
  {
    if s.pc + 1 >= RamSize then Panic(FetchOutOfRange)
    else
      var op := Fetch(s);
      var fetched := s.(pc := s.pc + 2);
      if s.skip then Ok((fetched.(skip := false), Skipped))
      else Dispatch(fetched, op)
  }

  /** The decode half of `start_cycle`, on the state whose `pc` has already
      moved past `op`: execute what decodes, report the rest. */
  function Dispatch(s: State, op: U16): Result<(State, Report)>
    requires WellFormed(s)
  {
    match Decode(op)
    case Execute(ins) =>
      (match Exec(s, ins)
       case Ok(t) => Ok((t, Executed(ins)))
       case Panic(f) => Panic(f))
    case Ignored => Ok((s, PrintedIgnored))
    case Unsupported => Ok((s, PrintedUnsupported(op)))
    case Dropped => Ok((s, Report.Dropped))
  }
}
