/// The `Chip8` struct of src/chip8.rs as a class whose methods change its
/// fields in place, as `new`, `tick`, `exec` and `start_cycle` do. Each
/// method is proved to move the machine exactly as the matching function of
/// module Machine says, read through `Abs()`.
module Interpreter {
  import opened Bytes
  import opened Instructions
  import opened Machine
  import MachineProperties

  class Chip8 {
    const v: array<U8>          // V0..VF, VF often used as a flag
    var i: U16                  // index register
    var pc: nat
    const ram: array<U8>        // 4 KiB
    var delay: U8               // counts down at 60 Hz
    var sound: U8               // counts down only while above 1
    const screen: array2<U8>    // 32 rows of 64 cells, 0 = black, 1 = white
    var screenUpdate: bool
    var stack: seq<nat>         // return addresses, most recent last
    var skipInstruction: bool   // skip the next fetched instruction

    /** The framebuffer as rows of cells. */
    ghost function Rows(): seq<seq<U8>>
      reads screen
    {
      seq(screen.Length0, r requires 0 <= r < screen.Length0 reads screen =>
        seq(screen.Length1, c requires 0 <= c < screen.Length1 reads screen => screen[r, c]))
    }

    /** The RAM contents. */
    ghost function Memory(): seq<U8>
      reads ram
    {
      ram[..]
    }

    /** The machine state the fields hold. */
    ghost function Abs(): State
      reads this, v, ram, screen
    {
      State(v[..], i, pc, Memory(), delay, sound, Rows(), screenUpdate, stack, skipInstruction)
    }

    ghost predicate Valid()
      reads this, v, ram, screen
    {
      v != ram && v.Length == 16 && ram.Length == RamSize
      && screen.Length0 == Height && screen.Length1 == Width
      && WellFormed(Abs())
    }

    /** `Rows()` is `f` when every cell agrees: a helper relating the array
        to its row view, the counterpart of `MachineProperties.ScreenExt`
        for a grid whose cells need not be 0 or 1. */
    lemma RowsAre(f: seq<seq<U8>>)
      requires screen.Length0 == Height && screen.Length1 == Width
      requires |f| == Height && forall r :: 0 <= r < Height ==> |f[r]| == Width
      requires forall r, c :: 0 <= r < Height && 0 <= c < Width ==> screen[r, c] == f[r][c]
      ensures Rows() == f
    {
      forall r | 0 <= r < Height ensures Rows()[r] == f[r] {
        assert forall c :: 0 <= c < Width ==> Rows()[r][c] == f[r][c];
      }
    }

    /** `Chip8::new` once the ROM file has been read: the ROM is copied into
        RAM from 0x200 on. */
    constructor (rom: seq<U8>)
      requires |rom| <= RamSize - RomStart
      ensures Valid() && Abs() == Boot(rom)
      ensures fresh(v) && fresh(ram) && fresh(screen)
    {
      var image := new U8[RamSize](_ => 0);
      for k := 0 to |rom|
        invariant forall a :: 0 <= a < RamSize ==>
          image[a] == if RomStart <= a < RomStart + k then rom[a - RomStart] else 0
      {
        image[RomStart + k] := rom[k];
      }
      v := new U8[16](_ => 0);
      i := 0;
      pc := RomStart;
      ram := image;
      delay := 0;
      sound := 0;
      screen := new U8[Height, Width]((_, _) => 0);
      screenUpdate := false;
      stack := [];
      skipInstruction := false;
      new;
      assert ram[..] == LoadImage(rom);
      assert v[..] == seq(16, _ => 0);
      RowsAre(Blank());
      MachineProperties.BootImage(rom);
    }

    /** `tick`: the delay timer counts down to 0, the sound timer to 1. */
    method Tick()
      requires Valid()
      modifies this
      ensures Valid() && Abs() == Machine.Tick(old(Abs()))
    {
      if delay > 0 {
        delay := delay - 1;
      }
      if sound > 1 {
        sound := sound - 1;
      }
    }

    /** 00E0: every cell to 0. */
    method ClearScreen()
      requires Valid()
      modifies screen
      ensures Valid() && Abs() == old(Abs()).(screen := Blank())
    {
      for row := 0 to Height
        invariant forall r, c :: 0 <= r < Height && 0 <= c < Width ==>
          screen[r, c] == if r < row then 0 else old(screen[r, c])
      {
        for col := 0 to Width
          invariant forall r, c :: 0 <= r < Height && 0 <= c < Width ==>
            screen[r, c] == if r < row || (r == row && c < col) then 0 else old(screen[r, c])
        {
          screen[row, col] := 0;
        }
      }
      RowsAre(Blank());
      assert IsScreen(Blank());
    }

    /** The sprite cells before row `row`, column `col` of the sprite are
        drawn onto `before`; every other cell still holds `before`. */
    ghost predicate DrawnUpTo(before: seq<seq<U8>>, mem: seq<U8>, base: nat, n: nat,
                              ox: nat, oy: nat, row: nat, col: nat)
      reads screen
      requires screen.Length0 == Height && screen.Length1 == Width
      requires IsScreen(before) && |mem| == RamSize && SpriteInRam(base, n)
    {
      forall r, c :: 0 <= r < Height && 0 <= c < Width ==>
        screen[r, c] == if r < oy + row || (r == oy + row && c < ox + col)
                        then DrawnCell(before, mem, base, ox, oy, n, r, c)
                        else before[r][c]
    }

    /** VF is 1 exactly when some cell has gone from 1 to 0 since `before`. */
    ghost predicate CollisionFlag(before: seq<seq<U8>>)
      reads v, screen
      requires v.Length == 16 && screen.Length0 == Height && screen.Length1 == Width
      requires IsScreen(before)
    {
      IsBit(v[VF])
      && (v[VF] == 1 <==>
          exists r, c :: 0 <= r < Height && 0 <= c < Width && before[r][c] == 1 && screen[r, c] == 0)
    }

    /** DXYN once the sprite rows are known to lie in RAM: draw the
        sprite, then flag the new frame. */
    method DrawSpriteRows(x: Reg, y: Reg, n: Nibble)
      requires Valid() && SpriteInRam(i, n)
      modifies this, v, screen
      ensures Valid() && Abs() == DrawSpriteOn(old(Abs()), x, y, n)
    {
      DrawSpriteCells(x, y, n);
      screenUpdate := true;
    }

    /** The framebuffer and VF part of DXYN: VF cleared, the sprite XORed
        into the screen, and VF set when a lit cell was switched off. */
    method DrawSpriteCells(x: Reg, y: Reg, n: Nibble)
      requires v.Length == 16 && ram.Length == RamSize && v != ram
      requires screen.Length0 == Height && screen.Length1 == Width
      requires IsScreen(Rows()) && SpriteInRam(i, n)
      modifies v, screen
      ensures IsScreen(Rows())
      ensures Rows() == Draw(old(Rows()), Memory(), i, old(v[x]) % Width, old(v[y]) % Height, n)
      ensures v[..] == old(v[..])[VF := if Collided(old(Rows()), Rows()) then 1 else 0]
    {
      ghost var before := Rows();
      var xStart := v[x] % Width;
      var yStart := v[y] % Height;
      v[VF] := 0;
      assert forall r, c :: 0 <= r < Height && 0 <= c < Width ==> screen[r, c] == Rows()[r][c];
      XorSprite(before, xStart, yStart, n);
      DrawnAll(before, ram[..], i, n, xStart, yStart);
      MachineProperties.DrawIsScreen(before, ram[..], i, xStart, yStart, n);
      FlagIsCollision(before);
    }

    /** The sprite loop of DXYN: rows `0..n` of the sprite at `i`, each
        drawn by `DrawSpriteRow`. */
    method XorSprite(ghost before: seq<seq<U8>>, ox: nat, oy: nat, n: nat)
      requires v.Length == 16 && ram.Length == RamSize && v != ram
      requires screen.Length0 == Height && screen.Length1 == Width
      requires IsScreen(before) && SpriteInRam(i, n)
      requires DrawnUpTo(before, ram[..], i, n, ox, oy, 0, 0)
      requires CollisionFlag(before)
      modifies v, screen
      ensures v[..] == old(v[..])[VF := v[VF]]
      ensures DrawnUpTo(before, ram[..], i, n, ox, oy, n, 0)
      ensures CollisionFlag(before)
    {
      for row := 0 to n
        invariant v[..] == old(v[..])[VF := v[VF]]
        invariant DrawnUpTo(before, ram[..], i, n, ox, oy, row, 0)
        invariant CollisionFlag(before)
      {
        DrawSpriteRow(before, n, ox, oy, row);
      }
    }

    /** Once all `n` rows are drawn the framebuffer is `Draw` of the old one. */
    lemma DrawnAll(before: seq<seq<U8>>, mem: seq<U8>, base: nat, n: nat, ox: nat, oy: nat)
      requires screen.Length0 == Height && screen.Length1 == Width
      requires IsScreen(before) && |mem| == RamSize && SpriteInRam(base, n)
      requires DrawnUpTo(before, mem, base, n, ox, oy, n, 0)
      ensures Rows() == Draw(before, mem, base, ox, oy, n)
    {
      RowsAre(Draw(before, mem, base, ox, oy, n));
    }

    /** The tracked flag is the `Collided` verdict on the whole screen. */
    lemma FlagIsCollision(before: seq<seq<U8>>)
      requires v.Length == 16 && screen.Length0 == Height && screen.Length1 == Width
      requires IsScreen(before) && IsScreen(Rows()) && CollisionFlag(before)
      ensures v[VF] == if Collided(before, Rows()) then 1 else 0
    {
      assert forall r, c :: 0 <= r < Height && 0 <= c < Width ==> screen[r, c] == Rows()[r][c];
    }

    /** One row of DXYN: XOR the eight bits of `ram[i + row]` into screen row
        `oy + row` from column `ox` on, skipping cells past the right or
        bottom edge, and set VF when a lit cell is switched off. */
    method DrawSpriteRow(ghost before: seq<seq<U8>>, ghost n: nat, ox: nat, oy: nat, row: nat)
      requires v.Length == 16 && ram.Length == RamSize && v != ram
      requires screen.Length0 == Height && screen.Length1 == Width
      requires IsScreen(before) && row < n && SpriteInRam(i, n)
      requires DrawnUpTo(before, ram[..], i, n, ox, oy, row, 0)
      requires CollisionFlag(before)
      modifies v, screen
      ensures v[..] == old(v[..])[VF := v[VF]]
      ensures DrawnUpTo(before, ram[..], i, n, ox, oy, row + 1, 0)
      ensures CollisionFlag(before)
    {
      var sprite := ram[i + row];
      for col := 0 to 8
        invariant v[..] == old(v[..])[VF := v[VF]]
        invariant DrawnUpTo(before, ram[..], i, n, ox, oy, row, col)
        invariant CollisionFlag(before)
      {
        DrawPixel(before, n, ox, oy, row, col, sprite);
      }
    }

    /** One pixel of DXYN: XOR sprite bit `col` of `sprite` into the cell at
        (`ox + col`, `oy + row`) when that cell is on the screen. */
    method DrawPixel(ghost before: seq<seq<U8>>, ghost n: nat, ox: nat, oy: nat, row: nat, col: nat, sprite: U8)
      requires v.Length == 16 && ram.Length == RamSize && v != ram
      requires screen.Length0 == Height && screen.Length1 == Width
      requires IsScreen(before) && row < n && SpriteInRam(i, n) && col < 8 && sprite == ram[i + row]
      requires DrawnUpTo(before, ram[..], i, n, ox, oy, row, col)
      requires CollisionFlag(before)
      modifies v, screen
      ensures v[..] == old(v[..])[VF := v[VF]]
      ensures DrawnUpTo(before, ram[..], i, n, ox, oy, row, col + 1)
      ensures CollisionFlag(before)
    {
      if oy + row < Height && ox + col < Width {
        var bit := SpriteBit(sprite, col);
        var prev := screen[oy + row, ox + col];
        screen[oy + row, ox + col] := Xor8(prev, bit);
        if prev == 1 && screen[oy + row, ox + col] == 0 {
          v[VF] := 1;
        }
      }
    }

    /** `exec`: apply one decoded instruction. The arms that only touch
        registers, the skip flag or the control flow are the methods below. */
    method Exec(ins: Instruction) returns (r: Result<()>)
      requires Valid()
      modifies this, v, screen
      ensures var e := Machine.Exec(old(Abs()), ins);
        (e.Panic? ==> r == Panic(e.fault))
        && (e.Ok? ==> r == Ok(()) && Valid() && Abs() == e.value)
    {
      if IsRegisterOp(ins) {
        ExecRegisterArm(ins);
        r := Ok(());
      } else if IsSkip(ins) {
        ExecSkip(ins);
        r := Ok(());
      } else if ins.Jump? || ins.SubRoutine? || ins.Return? {
        r := ExecFlow(ins);
      } else {
        r := ExecOther(ins);
      }
    }

    /** The arms of `exec` for 00E0, ANNN, DXYN and the two shifts, whose
        `todo!()` panics. */
    method ExecOther(ins: Instruction) returns (r: Result<()>)
      requires Valid()
      requires ins.Clear? || ins.LoadIndexRegister? || ins.DrawSprite?
        || ins.SetXtoYshiftRightOnce? || ins.SetXtoYshiftLeftOnce?
      modifies this, v, screen
      ensures var e := Machine.Exec(old(Abs()), ins);
        (e.Panic? ==> r == Panic(e.fault))
        && (e.Ok? ==> r == Ok(()) && Valid() && Abs() == e.value)
    {
      ghost var s := Abs();
      r := Ok(());
      match ins
      case Clear =>
        ClearScreen();
      case LoadIndexRegister(nnn) =>
        i := nnn;
        MachineProperties.ExecWellFormed(s, ins);
      case SetXtoYshiftRightOnce(_, _) =>
        r := Panic(Unimplemented);
      case SetXtoYshiftLeftOnce(_, _) =>
        r := Panic(Unimplemented);
      case DrawSprite(x, y, n) =>
        if SpriteInRam(i, n) {
          DrawSpriteRows(x, y, n);
        } else {
          r := Panic(SpriteOutOfRange);
        }
    }

    /** The register arms of `exec` as a change of machine state. */
    method ExecRegisterArm(ins: Instruction)
      requires Valid() && IsRegisterOp(ins)
      modifies v
      ensures Machine.Exec(old(Abs()), ins).Ok?
      ensures Valid() && Abs() == Machine.Exec(old(Abs()), ins).value
    {
      ghost var s := Abs();
      ExecRegister(ins);
      assert Abs() == s.(v := v[..]);
      MachineProperties.ExecWellFormed(s, ins);
    }

    /** The arms of `exec` that write registers: 6XNN, 7XNN and 8XY_ other
        than the shifts. */
    method ExecRegister(ins: Instruction)
      requires v.Length == 16 && IsRegisterOp(ins)
      modifies v
      ensures v[..] == Registers(old(v[..]), ins)
    {
      match ins
      case LoadNormalRegister(x, nn) =>
        v[x] := nn;
      case AddToNormalRegister(x, nn) =>
        v[x] := (v[x] as int + nn as int) % 0x100;
      case SetXtoY(x, y) =>
        v[x] := v[y];
      case SetXtoXorY(x, y) =>
        v[x] := Or8(v[x], v[y]);
      case SetXtoXandY(x, y) =>
        v[x] := And8(v[x], v[y]);
      case SetXtoXxorY(x, y) =>
        v[x] := Xor8(v[x], v[y]);
      case AddYtoX(x, y) =>
        var value := (v[x] as int + v[y] as int) % 0x100;
        // The carry test of the source, made on the already masked sum.
        v[VF] := CarryFlag(value);
        v[x] := value;
      case SubYfromX(x, y) =>
        var value := (v[x] as int - v[y] as int) % 0x100;
        var overflowed := v[x] < v[y];
        v[VF] := 1;
        if overflowed {
          v[VF] := 0;
        }
        v[x] := value;
      case SetXtoYMinusX(x, y) =>
        var value := (v[y] as int - v[x] as int) % 0x100;
        var overflowed := v[y] < v[x];
        v[VF] := 1;
        if overflowed {
          v[VF] := 0;
        }
        v[x] := value;
    }

    /** The arms of `exec` for 3XNN, 4XNN, 5XY0 and 9XY0: set the pending
        skip to the outcome of the comparison. */
    method ExecSkip(ins: Instruction)
      requires Valid()
      requires ins.SkipOnXeqV? || ins.SkipOnXneqV? || ins.SkipOnXeqY? || ins.SkipOnXneqY?
      modifies this
      ensures Machine.Exec(old(Abs()), ins).Ok?
      ensures Valid() && Abs() == Machine.Exec(old(Abs()), ins).value
    {
      match ins
      case SkipOnXeqV(x, nn) =>
        skipInstruction := v[x] == nn;
      case SkipOnXneqV(x, nn) =>
        skipInstruction := v[x] != nn;
      case SkipOnXeqY(x, y) =>
        skipInstruction := v[x] == v[y];
      case SkipOnXneqY(x, y) =>
        skipInstruction := v[x] != v[y];
    }

    /** The arms of `exec` for 1NNN, 2NNN and 00EE; a return on an empty
        stack fails the assertion of the source. */
    method ExecFlow(ins: Instruction) returns (r: Result<()>)
      requires Valid()
      requires ins.Jump? || ins.SubRoutine? || ins.Return?
      modifies this
      ensures var e := Machine.Exec(old(Abs()), ins);
        (e.Panic? ==> r == Panic(e.fault))
        && (e.Ok? ==> r == Ok(()) && Valid() && Abs() == e.value)
    {
      r := Ok(());
      match ins
      case Jump(a) =>
        pc := a;
      case Return =>
        if |stack| == 0 {
          r := Panic(ReturnOnEmptyStack);
        } else {
          pc := stack[|stack| - 1];
          stack := stack[..|stack| - 1];
        }
      case SubRoutine(a) =>
        stack := stack + [pc];
        pc := a;
    }

    /** `start_cycle`: fetch the big-endian opcode at `pc`, advance `pc` by
        2, then either consume a pending skip or decode and execute. */
    method StartCycle() returns (r: Result<Report>)
      requires Valid()
      modifies this, v, screen
      ensures var e := Cycle(old(Abs()));
        (e.Panic? ==> r == Panic(e.fault))
        && (e.Ok? ==> r == Ok(e.value.1) && Valid() && Abs() == e.value.0)
    {
      if pc + 1 >= RamSize {
        return Panic(FetchOutOfRange);
      }
      var opcode := ram[pc] as int * 0x100 + ram[pc + 1] as int;
      pc := pc + 2;
      if skipInstruction {
        skipInstruction := false;
        return Ok(Skipped);
      }
      r := DecodeAndExec(opcode);
    }

    /** The decode half of `start_cycle`: execute the instruction `opcode`
        decodes to, or print that it is ignored or unsupported. */
    method DecodeAndExec(opcode: U16) returns (r: Result<Report>)
      requires Valid()
      modifies this, v, screen
      ensures var e := Dispatch(old(Abs()), opcode);
        (e.Panic? ==> r == Panic(e.fault))
        && (e.Ok? ==> r == Ok(e.value.1) && Valid() && Abs() == e.value.0)
    {
      match Decode(opcode)
      case Execute(ins) =>
        var e := Exec(ins);
        r := if e.Ok? then Ok(Executed(ins)) else Panic(e.fault);
      case Ignored =>
        r := Ok(PrintedIgnored);
      case Unsupported =>
        r := Ok(PrintedUnsupported(opcode));
      case Dropped =>
        r := Ok(Report.Dropped);
    }
  }
}
