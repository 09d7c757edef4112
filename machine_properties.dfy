/// Properties of the reference semantics in machine.dfy: the invariant every
/// operation keeps, the arithmetic and flag conventions of each instruction
/// family, sprite drawing, the call/return protocol, skipping, timers and
/// the boot image.
module MachineProperties {
  import opened Bytes
  import opened Instructions
  import opened Machine

  // ---------------------------------------------------------------------
  // Framebuffer

  /** Two framebuffers with the same cells are equal (a helper; the class
      in chip8.dfy has the array-to-rows counterpart `RowsAre`). */
  lemma ScreenExt(a: seq<seq<U8>>, b: seq<seq<U8>>)
    requires IsScreen(a) && IsScreen(b)
    requires forall r, c :: 0 <= r < Height && 0 <= c < Width ==> a[r][c] == b[r][c]
    ensures a == b
  {
    forall r | 0 <= r < Height ensures a[r] == b[r] {
      assert forall c :: 0 <= c < Width ==> a[r][c] == b[r][c];
    }
  }

  /** Drawing keeps every cell 0 or 1. */
  lemma DrawIsScreen(screen: seq<seq<U8>>, ram: seq<U8>, i: nat, ox: nat, oy: nat, n: nat)
    requires IsScreen(screen) && |ram| == RamSize && SpriteInRam(i, n)
    ensures IsScreen(Draw(screen, ram, i, ox, oy, n))
  {
    var d := Draw(screen, ram, i, ox, oy, n);
    forall r, c | 0 <= r < Height && 0 <= c < Width ensures IsBit(d[r][c]) {
      if oy <= r < oy + n && ox <= c < ox + 8 {
        XorBit(screen[r][c], SpriteBit(ram[i + (r - oy)], c - ox));
      }
    }
  }

  /** Drawing the same sprite twice at the same origin restores the screen. */
  lemma DrawTwice(screen: seq<seq<U8>>, ram: seq<U8>, i: nat, ox: nat, oy: nat, n: nat)
    requires IsScreen(screen) && |ram| == RamSize && SpriteInRam(i, n)
    ensures IsScreen(Draw(screen, ram, i, ox, oy, n))
    ensures Draw(Draw(screen, ram, i, ox, oy, n), ram, i, ox, oy, n) == screen
  {
    DrawIsScreen(screen, ram, i, ox, oy, n);
    var d := Draw(screen, ram, i, ox, oy, n);
    DrawIsScreen(d, ram, i, ox, oy, n);
    var dd := Draw(d, ram, i, ox, oy, n);
    forall r, c | 0 <= r < Height && 0 <= c < Width ensures dd[r][c] == screen[r][c] {
      if oy <= r < oy + n && ox <= c < ox + 8 {
        XorBitTwice(screen[r][c], SpriteBit(ram[i + (r - oy)], c - ox));
      }
    }
    ScreenExt(dd, screen);
  }

  /** A lit sprite pixel lands on a lit cell that is on the screen. Sprite
      pixels cut off at the right or bottom edge are not on the screen. */
  predicate Overlaps(screen: seq<seq<U8>>, ram: seq<U8>, i: nat, ox: nat, oy: nat, n: nat)
    requires IsScreen(screen) && |ram| == RamSize && SpriteInRam(i, n)
  {
    exists r, c :: 0 <= r < Height && 0 <= c < Width && oy <= r < oy + n && ox <= c < ox + 8
      && screen[r][c] == 1 && SpriteBit(ram[i + (r - oy)], c - ox) == 1
  }

  /** A cell goes from 1 to 0 exactly when a lit sprite pixel lands on it. */
  lemma DrawCollision(screen: seq<seq<U8>>, ram: seq<U8>, i: nat, ox: nat, oy: nat, n: nat)
    requires IsScreen(screen) && |ram| == RamSize && SpriteInRam(i, n)
    ensures IsScreen(Draw(screen, ram, i, ox, oy, n))
    ensures Collided(screen, Draw(screen, ram, i, ox, oy, n)) <==> Overlaps(screen, ram, i, ox, oy, n)
  {
    DrawIsScreen(screen, ram, i, ox, oy, n);
    var d := Draw(screen, ram, i, ox, oy, n);
    if Collided(screen, d) {
      var r, c :| 0 <= r < Height && 0 <= c < Width && screen[r][c] == 1 && d[r][c] == 0;
      if oy <= r < oy + n && ox <= c < ox + 8 {
        XorBit(screen[r][c], SpriteBit(ram[i + (r - oy)], c - ox));
      }
    }
    if Overlaps(screen, ram, i, ox, oy, n) {
      var r, c :| 0 <= r < Height && 0 <= c < Width && oy <= r < oy + n && ox <= c < ox + 8
        && screen[r][c] == 1 && SpriteBit(ram[i + (r - oy)], c - ox) == 1;
      XorBit(screen[r][c], SpriteBit(ram[i + (r - oy)], c - ox));
      assert screen[r][c] == 1 && d[r][c] == 0;
    }
  }

  // ---------------------------------------------------------------------
  // The machine invariant

  /** `exec` keeps the shape of the state and the 0/1 screen cells. */
  lemma ExecWellFormed(s: State, ins: Instruction)
    requires WellFormed(s)
    ensures Exec(s, ins).Ok? ==> WellFormed(Exec(s, ins).value)
  {
    match ins
    case Clear =>
      assert IsScreen(Blank());
    case DrawSprite(x, y, n) =>
      if SpriteInRam(s.i, n) {
        DrawIsScreen(s.screen, s.ram, s.i, s.v[x] % Width, s.v[y] % Height, n);
      }
    case _ =>
  }

  /** `start_cycle` keeps the shape of the state and the 0/1 screen cells. */
  lemma CycleWellFormed(s: State)
    requires WellFormed(s)
    ensures Cycle(s).Ok? ==> WellFormed(Cycle(s).value.0)
  {
    if s.pc + 1 < RamSize && !s.skip {
      var op := Fetch(s);
      if Decode(op).Execute? {
        ExecWellFormed(s.(pc := s.pc + 2), Decode(op).ins);
      }
    }
  }

  /** The state `new` builds has the ROM at 0x200, zeros elsewhere in RAM,
      `pc` at 0x200, zero registers, index and timers, a blank screen with no
      redraw pending, an empty stack and no pending skip. */
  lemma BootImage(rom: seq<U8>)
    requires |rom| <= RamSize - RomStart
    ensures WellFormed(Boot(rom))
    ensures Boot(rom).ram[RomStart..RomStart + |rom|] == rom
    ensures forall a :: 0 <= a < RomStart || RomStart + |rom| <= a < RamSize ==> Boot(rom).ram[a] == 0
    ensures Boot(rom).pc == RomStart && Boot(rom).i == 0 && Boot(rom).stack == [] && !Boot(rom).skip
    ensures forall k :: 0 <= k < 16 ==> Boot(rom).v[k] == 0
    ensures Boot(rom).screen == Blank()
    ensures Boot(rom).delay == 0 && Boot(rom).sound == 0 && !Boot(rom).screenUpdate
  {
    assert IsScreen(Blank());
  }

  // ---------------------------------------------------------------------
  // Panics

  /** The only ways `exec` panics: a shift (`todo!()`), a return on an empty
      stack, or a sprite whose rows run past the end of RAM. */
  lemma ExecPanics(s: State, ins: Instruction)
    requires WellFormed(s)
    ensures Exec(s, ins).Panic? <==>
      ins.SetXtoYshiftRightOnce? || ins.SetXtoYshiftLeftOnce?
      || (ins.Return? && s.stack == [])
      || (ins.DrawSprite? && !SpriteInRam(s.i, ins.rows))
    ensures Exec(s, ins).Panic? ==> Exec(s, ins).fault != FetchOutOfRange
  {
  }

  // ---------------------------------------------------------------------
  // Register operations

  /** The state is `s` except at register `x`. */
  predicate OnlyRegisterChanged(s: State, t: State, x: Reg)
    requires WellFormed(s) && |t.v| == 16
  {
    t.(v := s.v) == s && forall k :: 0 <= k < 16 && k != x ==> t.v[k] == s.v[k]
  }

  /** 6XNN, 7XNN, 8XY0, 8XY1, 8XY2 and 8XY3 write register X and nothing
      else; in particular 7XNN leaves VF alone (unless X is F). 7XNN adds
      modulo 256. */
  lemma RegisterLoads(s: State, ins: Instruction)
    requires WellFormed(s)
    requires ins.LoadNormalRegister? || ins.AddToNormalRegister? || ins.SetXtoY?
      || ins.SetXtoXorY? || ins.SetXtoXandY? || ins.SetXtoXxorY?
    ensures Exec(s, ins).Ok? && |Exec(s, ins).value.v| == 16
    ensures OnlyRegisterChanged(s, Exec(s, ins).value, ins.x)
    ensures var vx := Exec(s, ins).value.v[ins.x];
      match ins
      case LoadNormalRegister(_, nn) => vx == nn
      case AddToNormalRegister(x, nn) =>
        vx == if s.v[x] as int + nn < 0x100 then s.v[x] as int + nn else s.v[x] as int + nn - 0x100
      case SetXtoY(_, y) => vx == s.v[y]
      case SetXtoXorY(x, y) => vx == Or8(s.v[x], s.v[y])
      case SetXtoXandY(x, y) => vx == And8(s.v[x], s.v[y])
      case SetXtoXxorY(x, y) => vx == Xor8(s.v[x], s.v[y])
      case _ => false
  {
  }

  /** 00E0 sets every one of the 32 x 64 cells to 0 and changes nothing
      else. */
  lemma ClearBlanks(s: State)
    requires WellFormed(s)
    ensures Exec(s, Clear).Ok?
    ensures var t := Exec(s, Clear).value;
      IsScreen(t.screen)
      && (forall r, c :: 0 <= r < Height && 0 <= c < Width ==> t.screen[r][c] == 0)
      && t.(screen := s.screen) == s
  {
  }

  /** 3XNN, 4XNN, 5XY0 and 9XY0 set the pending skip to Vx == NN, Vx != NN,
      Vx == Vy and Vx != Vy, and change nothing else. */
  lemma SkipComparisons(s: State, x: Reg, y: Reg, nn: U8)
    requires WellFormed(s)
    ensures Exec(s, SkipOnXeqV(x, nn)) == Ok(s.(skip := s.v[x] == nn))
    ensures Exec(s, SkipOnXneqV(x, nn)) == Ok(s.(skip := s.v[x] != nn))
    ensures Exec(s, SkipOnXeqY(x, y)) == Ok(s.(skip := s.v[x] == s.v[y]))
    ensures Exec(s, SkipOnXneqY(x, y)) == Ok(s.(skip := s.v[x] != s.v[y]))
  {
  }

  /** ANNN writes the index register and nothing else. */
  lemma LoadIndex(s: State, nnn: U16)
    requires WellFormed(s)
    ensures Exec(s, LoadIndexRegister(nnn)) == Ok(s.(i := nnn))
  {
  }

  /** An ANNN fetched and executed by the cycle leaves the index register
      below 0x1000: its operand is the 12-bit field of the opcode. */
  lemma CycleIndexBelowRam(s: State)
    requires WellFormed(s)
    ensures Cycle(s).Ok? && Cycle(s).value.1.Executed? && Cycle(s).value.1.ins.LoadIndexRegister?
            ==> Cycle(s).value.0.i < 0x1000
  {
    if s.pc + 1 < RamSize && !s.skip {
      EncodeDecode(Fetch(s));
    }
  }

  /** 8XY4 stores the sum modulo 256. Because the sum is masked with 0xFF
      before the carry test, VF never becomes 1 on a carry: it ends 0, or
      the stored sum itself when X is F (Vx is written after VF). */
  lemma AddYtoXFlag(s: State, x: Reg, y: Reg)
    requires WellFormed(s)
    ensures Exec(s, AddYtoX(x, y)).Ok?
    ensures var t := Exec(s, AddYtoX(x, y)).value;
      var sum := s.v[x] as int + s.v[y] as int;
      |t.v| == 16
      && t.v[x] == (if sum < 0x100 then sum else sum - 0x100)
      && t.v[VF] == (if x == VF then t.v[x] else 0)
      && t.(v := s.v) == s
      && forall k :: 0 <= k < 16 && k != x && k != VF ==> t.v[k] == s.v[k]
  {
  }

  /** 8XY5 and 8XY7 store the wrapped difference; VF is 0 exactly when the
      subtraction borrows, else 1, unless X is F and the difference
      overwrites it. */
  lemma SubtractFlag(s: State, ins: Instruction)
    requires WellFormed(s)
    requires ins.SubYfromX? || ins.SetXtoYMinusX?
    ensures Exec(s, ins).Ok?
    ensures var t := Exec(s, ins).value;
      var (a, b) := if ins.SubYfromX? then (s.v[ins.x] as int, s.v[ins.y] as int) else (s.v[ins.y] as int, s.v[ins.x] as int);
      |t.v| == 16
      && t.v[ins.x] == (if a >= b then a - b else a - b + 0x100)
      && (ins.x != VF ==> (t.v[VF] == 0 <==> a < b) && (t.v[VF] == 1 <==> a >= b))
      && t.(v := s.v) == s
      && forall k :: 0 <= k < 16 && k != ins.x && k != VF ==> t.v[k] == s.v[k]
  {
  }

  // ---------------------------------------------------------------------
  // Sprites

  /** DXYN draws at (Vx mod 64, Vy mod 32), read before VF is cleared;
      every cell of the cut-off rectangle is XORed with its sprite bit, all
      other cells are kept; VF is 1 exactly when a lit sprite pixel hit a lit
      cell; nothing but the screen, VF and the redraw flag changes. */
  lemma DrawSpriteEffect(s: State, x: Reg, y: Reg, n: Nibble)
    requires WellFormed(s) && SpriteInRam(s.i, n)
    ensures Exec(s, DrawSprite(x, y, n)).Ok?
    ensures var t := Exec(s, DrawSprite(x, y, n)).value;
      var ox, oy := s.v[x] % Width, s.v[y] % Height;
      WellFormed(t)
      && (forall r, c :: 0 <= r < Height && 0 <= c < Width ==>
            t.screen[r][c] == if oy <= r < oy + n && ox <= c < ox + 8
                              then Xor8(s.screen[r][c], SpriteBit(s.ram[s.i + (r - oy)], c - ox))
                              else s.screen[r][c])
      && (t.v[VF] == 1 <==> Overlaps(s.screen, s.ram, s.i, ox, oy, n))
      && (t.v[VF] == 0 <==> !Overlaps(s.screen, s.ram, s.i, ox, oy, n))
      && t.(screen := s.screen, v := s.v, screenUpdate := s.screenUpdate) == s
      && forall k :: 0 <= k < 16 && k != VF ==> t.v[k] == s.v[k]
  {
    DrawCollision(s.screen, s.ram, s.i, s.v[x] % Width, s.v[y] % Height, n);
  }

  /** Executing the same DXYN twice restores the screen, provided neither
      coordinate register is VF (which the first draw overwrites). */
  lemma DrawSpriteTwice(s: State, x: Reg, y: Reg, n: Nibble)
    requires WellFormed(s) && SpriteInRam(s.i, n) && x != VF && y != VF
    ensures Exec(s, DrawSprite(x, y, n)).Ok?
    ensures var t := Exec(s, DrawSprite(x, y, n)).value;
      WellFormed(t) && Exec(t, DrawSprite(x, y, n)).Ok?
      && Exec(t, DrawSprite(x, y, n)).value.screen == s.screen
  {
    DrawTwice(s.screen, s.ram, s.i, s.v[x] % Width, s.v[y] % Height, n);
  }

  // ---------------------------------------------------------------------
  // Calls and returns

  /** 1NNN sets `pc` to NNN and leaves the stack and everything else alone. */
  lemma JumpSetsPc(s: State, a: nat)
    requires WellFormed(s)
    ensures Exec(s, Jump(a)) == Ok(s.(pc := a))
  {
  }

  /** A 2NNN followed by a 00EE gives back the state before the call. */
  lemma CallThenReturn(s: State, a: nat)
    requires WellFormed(s)
    ensures Exec(s, SubRoutine(a)).Ok?
    ensures Exec(Exec(s, SubRoutine(a)).value, Return) == Ok(s)
  {
    assert (s.stack + [s.pc])[..|s.stack|] == s.stack;
  }

  /** The state after executing 2NNN for each address of `targets` in turn. */
  function Calls(s: State, targets: seq<nat>): (t: State)
    requires WellFormed(s)
    ensures WellFormed(t) && |t.stack| == |s.stack| + |targets|
    decreases |targets|
  {
    if targets == [] then s
    else
      var before := Calls(s, targets[..|targets| - 1]);
      Exec(before, SubRoutine(targets[|targets| - 1])).value
  }

  /** The state after executing `k` returns. */
  function Returns(s: State, k: nat): (t: State)
    requires WellFormed(s) && k <= |s.stack|
    ensures WellFormed(t) && |t.stack| == |s.stack| - k
    decreases k
  {
    if k == 0 then s else Returns(Exec(s, Return).value, k - 1)
  }

  /** N nested calls followed by returns unwind in reverse order: after `j`
      of the returns the machine is exactly where it was before the last `j`
      calls were made, so `pc` is back at the value it had then. */
  lemma {:induction false} CallsUnwind(s: State, targets: seq<nat>, j: nat)
    requires WellFormed(s) && j <= |targets|
    ensures Returns(Calls(s, targets), j) == Calls(s, targets[..|targets| - j])
    decreases j
  {
    if j == 0 {
      assert targets[..|targets|] == targets;
    } else {
      var front := targets[..|targets| - 1];
      var a := targets[|targets| - 1];
      CallThenReturn(Calls(s, front), a);
      CallsUnwind(s, front, j - 1);
      assert front[..|front| - (j - 1)] == targets[..|targets| - j];
    }
  }

  // ---------------------------------------------------------------------
  // The cycle

  /** The fetch reads the two bytes at `pc` big-endian and panics when the
      second lies past the end of RAM. When a skip is pending the cycle only
      clears it and moves past the opcode. Otherwise `pc` has moved past the
      opcode unless a jump, call or return set it; a call pushes the address
      of the instruction after it. */
  lemma CycleFetch(s: State)
    requires WellFormed(s)
    ensures Cycle(s) == Panic(FetchOutOfRange) <==> s.pc + 1 >= RamSize
    ensures s.pc + 1 < RamSize ==> Fetch(s) == s.ram[s.pc] as int * 0x100 + s.ram[s.pc + 1] as int
    ensures s.pc + 1 < RamSize && s.skip ==> Cycle(s) == Ok((s.(pc := s.pc + 2, skip := false), Skipped))
    ensures Cycle(s).Ok? && !(Cycle(s).value.1.Executed? && Cycle(s).value.1.ins.Jump?)
            && !(Cycle(s).value.1.Executed? && Cycle(s).value.1.ins.SubRoutine?)
            && !(Cycle(s).value.1.Executed? && Cycle(s).value.1.ins.Return?)
            ==> Cycle(s).value.0.pc == s.pc + 2
    ensures Cycle(s).Ok? && Cycle(s).value.1.Executed? && Cycle(s).value.1.ins.SubRoutine?
            ==> Cycle(s).value.0.stack == s.stack + [s.pc + 2]
                && Cycle(s).value.0.pc == Cycle(s).value.1.ins.address
  {
    if s.pc + 1 < RamSize && !s.skip && Decode(Fetch(s)).Execute? {
      ExecPanics(s.(pc := s.pc + 2), Decode(Fetch(s)).ins);
    }
  }

  /** 3XNN, 4XNN, 5XY0 and 9XY0 only set the pending skip, to whether their
      comparison holds. When it holds, the next cycle steps over the
      following opcode without executing it: two cycles take the machine to
      `pc + 4` with nothing else changed. */
  lemma SkipSkipsNext(s: State)
    requires WellFormed(s) && !s.skip && s.pc + 3 < RamSize
    requires Decode(Fetch(s)).Execute? && IsSkip(Decode(Fetch(s)).ins)
    ensures var ins := Decode(Fetch(s)).ins;
      Cycle(s) == Ok((s.(pc := s.pc + 2, skip := SkipTaken(s.v, ins)), Executed(ins)))
    ensures var ins := Decode(Fetch(s)).ins;
      var t := s.(pc := s.pc + 2, skip := SkipTaken(s.v, ins));
      SkipTaken(s.v, ins) ==> WellFormed(t) && Cycle(t) == Ok((s.(pc := s.pc + 4), Skipped))
  {
  }

  /** Opcodes the decoder does not execute move `pc` past the opcode and
      change nothing else: 0NNN other than 00E0 and 00EE, 5XY? and 9XY?
      with a nonzero last nibble, 8XY? with a sub-operation not listed, and
      the families B, C, E and F. */
  lemma CycleNoOps(s: State)
    requires WellFormed(s) && !s.skip && s.pc + 1 < RamSize
    requires var op := Fetch(s);
      var f := op / 0x1000;
      (f == 0x0 && FieldNNN(op) != 0x0E0 && FieldNNN(op) != 0x0EE)
      || ((f == 0x5 || f == 0x9) && FieldN(op) != 0)
      || (f == 0x8 && 0x8 <= FieldN(op) <= 0xD)
      || (f == 0x8 && FieldN(op) == 0xF)
      || f == 0xB || f == 0xC || f == 0xE || f == 0xF
    ensures Cycle(s).Ok? && Cycle(s).value.0 == s.(pc := s.pc + 2)
    ensures !Cycle(s).value.1.Executed? && !Cycle(s).value.1.Skipped?
  {
  }

  // ---------------------------------------------------------------------
  // Timers

  /** The state after `k` calls of `tick`. */
  function Ticks(s: State, k: nat): State
    decreases k
  {
    if k == 0 then s else Ticks(Tick(s), k - 1)
  }

  /** `k` ticks take the delay timer down by `k` but not below 0 and the
      sound timer down by `k` but not below 1 (a sound timer at 0 or 1 stays
      where it is); nothing else changes. */
  lemma {:induction false} TicksCountDown(s: State, k: nat)
    ensures Ticks(s, k) == s.(
      delay := if s.delay >= k then s.delay - k else 0,
      sound := if s.sound <= 1 then s.sound else if s.sound - k >= 1 then s.sound - k else 1)
    decreases k
  {
    if k > 0 {
      TicksCountDown(Tick(s), k - 1);
    }
  }
}
