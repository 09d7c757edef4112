/// The closed instruction set of the interpreter (`enum Instruction` in
/// src/chip8.rs) and the decoder that `start_cycle` applies to a fetched
/// 16-bit opcode. Decoding is pure bit-masking; the masks of the source are
/// written as division and remainder by powers of two, which give the same
/// fields for a 16-bit unsigned opcode:
///   `op & 0xF000` selects the family `op / 0x1000`,
///   `(op & 0x0F00) >> 8` is `(op / 0x100) % 0x10`,
///   `(op & 0x00F0) >> 4` is `(op / 0x10) % 0x10`,
///   `op & 0x000F`, `op & 0x00FF`, `op & 0x0FFF` are `op % 0x10`, `op % 0x100`, `op % 0x1000`.
module Instructions {
  import opened Bytes

  /** A register index V0..VF. */
  type Reg = Nibble

  /** The flags register VF. */
  const VF: Reg := 0xF

  datatype Instruction =
    | Clear                               // 00E0
    | Return                              // 00EE
    | Jump(address: nat)                  // 1NNN
    | SubRoutine(address: nat)            // 2NNN
    | SkipOnXeqV(x: Reg, value: U8)       // 3XNN
    | SkipOnXneqV(x: Reg, value: U8)      // 4XNN
    | SkipOnXeqY(x: Reg, y: Reg)          // 5XY0
    | LoadNormalRegister(x: Reg, value: U8)   // 6XNN
    | AddToNormalRegister(x: Reg, value: U8)  // 7XNN
    | SetXtoY(x: Reg, y: Reg)             // 8XY0
    | SetXtoXorY(x: Reg, y: Reg)          // 8XY1
    | SetXtoXandY(x: Reg, y: Reg)         // 8XY2
    | SetXtoXxorY(x: Reg, y: Reg)         // 8XY3
    | AddYtoX(x: Reg, y: Reg)             // 8XY4
    | SubYfromX(x: Reg, y: Reg)           // 8XY5
    | SetXtoYshiftRightOnce(x: Reg, y: Reg)   // 8XY6
    | SetXtoYMinusX(x: Reg, y: Reg)       // 8XY7
    | SetXtoYshiftLeftOnce(x: Reg, y: Reg)    // 8XYE
    | SkipOnXneqY(x: Reg, y: Reg)         // 9XY0
    | LoadIndexRegister(index: U16)       // ANNN
    | DrawSprite(x: Reg, y: Reg, rows: Nibble)  // DXYN

  /** What the decoder makes of an opcode. Besides an instruction to execute
      it tells apart the three ways an opcode is dropped: a 0NNN other than
      00E0/00EE (reported as "Ignored" on standard output), an unsupported
      family B, C, E or F (reported with the opcode on standard error), and an
      opcode of family 5, 8 or 9 whose low nibble is not one the decoder
      lists (dropped without a report). */
  datatype Decoded =
    | Execute(ins: Instruction)
    | Ignored
    | Unsupported
    | Dropped

  /** The instructions that have an opcode: the 12-bit operands fit. */
  predicate Encodable(ins: Instruction) {
    match ins
    case Jump(a) => a < 0x1000
    case SubRoutine(a) => a < 0x1000
    case LoadIndexRegister(a) => a < 0x1000
    case _ => true
  }

  /** The opcode of an instruction, after the table of `enum Instruction`. */
  function Encode(ins: Instruction): U16
    requires Encodable(ins)
  {
    match ins
    case Clear => 0x00E0
    case Return => 0x00EE
    case Jump(a) => 0x1000 + a
    case SubRoutine(a) => 0x2000 + a
    case SkipOnXeqV(x, nn) => 0x3000 + x * 0x100 + nn
    case SkipOnXneqV(x, nn) => 0x4000 + x * 0x100 + nn
    case SkipOnXeqY(x, y) => 0x5000 + x * 0x100 + y * 0x10
    case LoadNormalRegister(x, nn) => 0x6000 + x * 0x100 + nn
    case AddToNormalRegister(x, nn) => 0x7000 + x * 0x100 + nn
    case SetXtoY(x, y) => 0x8000 + x * 0x100 + y * 0x10
    case SetXtoXorY(x, y) => 0x8000 + x * 0x100 + y * 0x10 + 0x1
    case SetXtoXandY(x, y) => 0x8000 + x * 0x100 + y * 0x10 + 0x2
    case SetXtoXxorY(x, y) => 0x8000 + x * 0x100 + y * 0x10 + 0x3
    case AddYtoX(x, y) => 0x8000 + x * 0x100 + y * 0x10 + 0x4
    case SubYfromX(x, y) => 0x8000 + x * 0x100 + y * 0x10 + 0x5
    case SetXtoYshiftRightOnce(x, y) => 0x8000 + x * 0x100 + y * 0x10 + 0x6
    case SetXtoYMinusX(x, y) => 0x8000 + x * 0x100 + y * 0x10 + 0x7
    case SetXtoYshiftLeftOnce(x, y) => 0x8000 + x * 0x100 + y * 0x10 + 0xE
    case SkipOnXneqY(x, y) => 0x9000 + x * 0x100 + y * 0x10
    case LoadIndexRegister(a) => 0xA000 + a
    case DrawSprite(x, y, n) => 0xD000 + x * 0x100 + y * 0x10 + n
  }

  /** The X register field, `(op & 0x0F00) >> 8`. */
  function FieldX(op: U16): Reg { (op / 0x100) % 0x10 }

  /** The Y register field, `(op & 0x00F0) >> 4`. */
  function FieldY(op: U16): Reg { (op / 0x10) % 0x10 }

  /** The low nibble, `op & 0x000F`. */
  function FieldN(op: U16): Nibble { op % 0x10 }

  /** The low byte, `op & 0x00FF`. */
  function FieldNN(op: U16): U8 { op % 0x100 }

  /** The low 12 bits, `op & 0x0FFF`. */
  function FieldNNN(op: U16): U16 { op % 0x1000 }

  /** The decoding half of `start_cycle`. */
  function Decode(op: U16): Decoded
  {
    var x, y, n := FieldX(op), FieldY(op), FieldN(op);
    match op / 0x1000
    case 0x0 =>
      if FieldNNN(op) == 0x0E0 then Execute(Clear)
      else if FieldNNN(op) == 0x0EE then Execute(Return)
      else Ignored
    case 0x1 => Execute(Jump(FieldNNN(op)))
    case 0x2 => Execute(SubRoutine(FieldNNN(op)))
    case 0x3 => Execute(SkipOnXeqV(x, FieldNN(op)))
    case 0x4 => Execute(SkipOnXneqV(x, FieldNN(op)))
    case 0x5 => if n == 0 then Execute(SkipOnXeqY(x, y)) else Dropped
    case 0x6 => Execute(LoadNormalRegister(x, FieldNN(op)))
    case 0x7 => Execute(AddToNormalRegister(x, FieldNN(op)))
    case 0x8 => DecodeArithmetic(x, y, n)
    case 0x9 => if n == 0 then Execute(SkipOnXneqY(x, y)) else Dropped
    case 0xA => Execute(LoadIndexRegister(FieldNNN(op)))
    case 0xD => Execute(DrawSprite(x, y, n))
    case _ => Unsupported
  }

  /** The inner match of the 8XY_ family on the low nibble. */
  function DecodeArithmetic(x: Reg, y: Reg, n: Nibble): Decoded
  {
    match n
    case 0x0 => Execute(SetXtoY(x, y))
    case 0x1 => Execute(SetXtoXorY(x, y))
    case 0x2 => Execute(SetXtoXandY(x, y))
    case 0x3 => Execute(SetXtoXxorY(x, y))
    case 0x4 => Execute(AddYtoX(x, y))
    case 0x5 => Execute(SubYfromX(x, y))
    case 0x6 => Execute(SetXtoYshiftRightOnce(x, y))
    case 0x7 => Execute(SetXtoYMinusX(x, y))
    case 0xE => Execute(SetXtoYshiftLeftOnce(x, y))
    case _ => Dropped
  }

  /** Encoding then decoding gives the instruction back: every instruction
      with 12-bit operands has an opcode the decoder executes as it. */
  lemma {:induction false} DecodeEncode(ins: Instruction)
    requires Encodable(ins)
    ensures Decode(Encode(ins)) == Execute(ins)
  {
    match ins
    case Clear => DecodeEncodeSystem(ins);
    case Return => DecodeEncodeSystem(ins);
    case Jump(a) => DecodeEncodeAddress(ins);
    case SubRoutine(a) => DecodeEncodeAddress(ins);
    case LoadIndexRegister(a) => DecodeEncodeAddress(ins);
    case SkipOnXeqV(x, nn) => DecodeEncodeByte(ins);
    case SkipOnXneqV(x, nn) => DecodeEncodeByte(ins);
    case LoadNormalRegister(x, nn) => DecodeEncodeByte(ins);
    case AddToNormalRegister(x, nn) => DecodeEncodeByte(ins);
    case SkipOnXeqY(x, y) => DecodeEncodeRegisters(ins);
    case SkipOnXneqY(x, y) => DecodeEncodeRegisters(ins);
    case DrawSprite(x, y, n) => DecodeEncodeRegisters(ins);
    case SetXtoY(x, y) => DecodeEncodeArithmetic(ins, 0);
    case SetXtoXorY(x, y) => DecodeEncodeArithmetic(ins, 1);
    case SetXtoXandY(x, y) => DecodeEncodeArithmetic(ins, 2);
    case SetXtoXxorY(x, y) => DecodeEncodeArithmetic(ins, 3);
    case AddYtoX(x, y) => DecodeEncodeArithmetic(ins, 4);
    case SubYfromX(x, y) => DecodeEncodeArithmetic(ins, 5);
    case SetXtoYshiftRightOnce(x, y) => DecodeEncodeArithmetic(ins, 6);
    case SetXtoYMinusX(x, y) => DecodeEncodeArithmetic(ins, 7);
    case SetXtoYshiftLeftOnce(x, y) => DecodeEncodeArithmetic(ins, 0xE);
  }

  /** The 00E0 and 00EE cases of `DecodeEncode`. */
  lemma DecodeEncodeSystem(ins: Instruction)
    requires ins.Clear? || ins.Return?
    ensures Decode(Encode(ins)) == Execute(ins)
  {
    if ins.Clear? { Compose(0, 0, 0xE, 0); } else { Compose(0, 0, 0xE, 0xE); }
  }

  /** The 1NNN, 2NNN and ANNN cases of `DecodeEncode`. */
  lemma DecodeEncodeAddress(ins: Instruction)
    requires ins.Jump? || ins.SubRoutine? || ins.LoadIndexRegister?
    requires Encodable(ins)
    ensures Decode(Encode(ins)) == Execute(ins)
  {
    match ins
    case Jump(a) => SplitAddress(1, a);
    case SubRoutine(a) => SplitAddress(2, a);
    case LoadIndexRegister(a) => SplitAddress(0xA, a);
  }

  /** The 3XNN, 4XNN, 6XNN and 7XNN cases of `DecodeEncode`. */
  lemma DecodeEncodeByte(ins: Instruction)
    requires ins.SkipOnXeqV? || ins.SkipOnXneqV? || ins.LoadNormalRegister? || ins.AddToNormalRegister?
    ensures Decode(Encode(ins)) == Execute(ins)
  {
    match ins
    case SkipOnXeqV(x, nn) => SplitByte(3, x, nn);
    case SkipOnXneqV(x, nn) => SplitByte(4, x, nn);
    case LoadNormalRegister(x, nn) => SplitByte(6, x, nn);
    case AddToNormalRegister(x, nn) => SplitByte(7, x, nn);
  }

  /** The 5XY0, 9XY0 and DXYN cases of `DecodeEncode`. */
  lemma DecodeEncodeRegisters(ins: Instruction)
    requires ins.SkipOnXeqY? || ins.SkipOnXneqY? || ins.DrawSprite?
    ensures Decode(Encode(ins)) == Execute(ins)
  {
    match ins
    case SkipOnXeqY(x, y) => Compose(5, x, y, 0);
    case SkipOnXneqY(x, y) => Compose(9, x, y, 0);
    case DrawSprite(x, y, n) => Compose(0xD, x, y, n);
  }

  /** The 8XY_ cases of `DecodeEncode`: an instruction whose opcode is
      8XYN and which the inner match gives back for N. */
  lemma DecodeEncodeArithmetic(ins: Instruction, n: Nibble)
    requires ins.SetXtoY? || ins.SetXtoXorY? || ins.SetXtoXandY? || ins.SetXtoXxorY?
      || ins.AddYtoX? || ins.SubYfromX? || ins.SetXtoYshiftRightOnce?
      || ins.SetXtoYMinusX? || ins.SetXtoYshiftLeftOnce?
    requires Encode(ins) == 0x8000 + ins.x * 0x100 + ins.y * 0x10 + n
    requires DecodeArithmetic(ins.x, ins.y, n) == Execute(ins)
    ensures Decode(Encode(ins)) == Execute(ins)
  {
    Compose(8, ins.x, ins.y, n);
  }

  /** Decoding then encoding gives the opcode back: an executed opcode is the
      encoding of the instruction it decodes to, so no two opcodes decode to
      the same instruction and no operand bit is lost. */
  lemma {:induction false} EncodeDecode(op: U16)
    ensures Decode(op).Execute? ==> Encodable(Decode(op).ins) && Encode(Decode(op).ins) == op
  {
    Split(op);
  }

  /** An opcode is executed exactly when it is the encoding of some
      instruction; every other opcode is ignored, unsupported or dropped. */
  lemma DecodeExecutesExactlyEncodings(op: U16)
    ensures Decode(op).Execute? <==> exists ins :: Encodable(ins) && Encode(ins) == op
  {
    EncodeDecode(op);
    if exists ins :: Encodable(ins) && Encode(ins) == op {
      var ins :| Encodable(ins) && Encode(ins) == op;
      DecodeEncode(ins);
    }
  }

  // Arithmetic on opcode fields.

  lemma MulAtLeast(k: int, d: int)
    requires 1 <= k && 0 < d
    ensures k * d >= d
  {
    var m := k - 1;
    assert k * d == m * d + d;
    assert m * d >= 0;
  }

  /** Quotient and remainder are determined by `a == q * d + r, 0 <= r < d`. */
  lemma DivMod(a: int, d: int, q: int, r: int)
    requires 0 < d && a == q * d + r && 0 <= r < d
    ensures a / d == q && a % d == r
  {
    var q', r' := a / d, a % d;
    assert a == q' * d + r';
    assert (q - q') * d == r' - r;
    if q > q' { MulAtLeast(q - q', d); }
    if q < q' { MulAtLeast(q' - q, d); }
  }

  /** The fields of an opcode assembled from four nibbles. */
  lemma Compose(f: Nibble, x: Nibble, y: Nibble, n: Nibble)
    ensures var op := f * 0x1000 + x * 0x100 + y * 0x10 + n;
      op / 0x1000 == f && FieldX(op) == x && FieldY(op) == y && FieldN(op) == n
      && FieldNN(op) == y * 0x10 + n && FieldNNN(op) == x * 0x100 + y * 0x10 + n
  {
    var op := f * 0x1000 + x * 0x100 + y * 0x10 + n;
    DivMod(op, 0x1000, f, x * 0x100 + y * 0x10 + n);
    DivMod(op, 0x100, f * 0x10 + x, y * 0x10 + n);
    DivMod(f * 0x10 + x, 0x10, f, x);
    DivMod(op, 0x10, f * 0x100 + x * 0x10 + y, n);
    DivMod(f * 0x100 + x * 0x10 + y, 0x10, f * 0x10 + x, y);
  }

  lemma SplitByte(f: Nibble, x: Nibble, nn: U8)
    ensures var op := f * 0x1000 + x * 0x100 + nn;
      op / 0x1000 == f && FieldX(op) == x && FieldNN(op) == nn
  {
    DivMod(nn, 0x10, nn / 0x10, nn % 0x10);
    Compose(f, x, nn / 0x10, nn % 0x10);
  }

  lemma SplitAddress(f: Nibble, a: int)
    requires 0 <= a < 0x1000
    ensures (f * 0x1000 + a) / 0x1000 == f && FieldNNN(f * 0x1000 + a) == a
  {
    DivMod(f * 0x1000 + a, 0x1000, f, a);
  }

  /** An opcode is the sum of its fields. */
  lemma Split(op: U16)
    ensures op == (op / 0x1000) * 0x1000 + FieldX(op) * 0x100 + FieldY(op) * 0x10 + FieldN(op)
    ensures FieldNN(op) == FieldY(op) * 0x10 + FieldN(op)
    ensures FieldNNN(op) == FieldX(op) * 0x100 + FieldNN(op)
  {
    var n, a := op % 0x10, op / 0x10;
    var y, b := a % 0x10, a / 0x10;
    var x, f := b % 0x10, b / 0x10;
    assert op == b * 0x100 + y * 0x10 + n;
    DivMod(op, 0x100, b, y * 0x10 + n);
    DivMod(op, 0x1000, f, x * 0x100 + y * 0x10 + n);
  }
}
