/** The instruction word: a 64-bit signed value whose low byte is the opcode (unsigned) and whose
    remaining 56 bits, recovered by an arithmetic shift right by 8, are the sign-extended operand.
    Sys/SysS, IncrR, IncrS and StoreSB nest two more fields inside the operand: its low byte and
    the rest (`operand >> 8`), which the assembler writes with the 48-bit setter at bit 16. */
module Codec {
  import opened Base
  import opened Int64

  const OPERAND_MIN: int := -0x80_0000_0000_0000
  const OPERAND_MAX: int := 0x80_0000_0000_0000 - 1
  const OPERAND48_MIN: int := -0x8000_0000_0000
  const OPERAND48_MAX: int := 0x8000_0000_0000 - 1

  /** The panics of the Go setters. */
  datatype CodecError = OperandOutOfRange(v: int) | Operand48OutOfRange(v: int)

  predicate Fits56(v: int) { OPERAND_MIN <= v <= OPERAND_MAX }

  predicate Fits48(v: int) { OPERAND48_MIN <= v <= OPERAND48_MAX }

  /** `op & 0xFF`: the opcode byte. */
  function Opcode(op: i64): Byte
  {
    LowByte(op)
  }

  /** `op >> 8`: the operand, sign-extended from 56 bits. */
  function Operand(op: i64): (v: int)
    ensures Fits56(v)
  {
    High(op)
  }

  /** `op >> 16`: the operand of the 48-bit layout. */
  function Operand48(op: i64): (v: int)
    ensures Fits48(v)
  {
    op / 0x1_0000
  }

  /** `(op &^ 0xFF) | opcode`. */
  function SetOpcode(op: i64, opcode: Byte): (r: i64)
    ensures Opcode(r) == opcode
    ensures Operand(r) == Operand(op)
  {
    SplitHighLow(op);
    DivUnique(256 * High(op) + opcode, 256, High(op), opcode);
    op - LowByte(op) + opcode
  }

  /** `(op & 0xFF) | (operand << 8)`, which panics unless the operand fits in 56 signed bits. */
  function SetOperand(op: i64, operand: int): (r: Result<i64, CodecError>)
    ensures r.Ok? <==> Fits56(operand)
    ensures r.Ok? ==> Operand(r.value) == operand && Opcode(r.value) == Opcode(op)
    ensures r.Err? ==> r.error == OperandOutOfRange(operand)
  {
    if operand > OPERAND_MAX || operand < OPERAND_MIN then Err(OperandOutOfRange(operand))
    else Ok(LowByte(op) + operand * 0x100)
  }

  /** `(op & 0xFFFF) | (operand << 16)`, which panics unless the operand fits in 48 signed bits. */
  function Set48BitsOperand(op: i64, operand: int): (r: Result<i64, CodecError>)
    ensures r.Ok? <==> Fits48(operand)
    ensures r.Ok? ==> Operand48(r.value) == operand && r.value % 0x1_0000 == op % 0x1_0000
    ensures r.Ok? ==> Opcode(r.value) == Opcode(op)
    ensures r.Err? ==> r.error == Operand48OutOfRange(operand)
  {
    if operand > OPERAND48_MAX || operand < OPERAND48_MIN then Err(Operand48OutOfRange(operand))
    else Ok(op % 0x1_0000 + operand * 0x1_0000)
  }

  /** The word `(operand << 8) | opcode` the assembler emits for a plain instruction. */
  function Encode(opcode: Byte, operand: int): i64
    requires Fits56(operand)
  {
    SetOperand(SetOpcode(0, opcode), operand).value
  }

  /** Decoding is total and lossless: every word is the encoding of its own two fields. */
  lemma EncodeDecode(op: i64)
    ensures Encode(Opcode(op), Operand(op)) == op
  {
    SplitHighLow(op);
  }

  /** Decoding `(operand << 8) | opcode` gives back exactly that opcode and that (sign-extended)
      operand, for every opcode byte and every 56-bit signed operand. */
  lemma DecodeEncode(opcode: Byte, operand: int)
    requires Fits56(operand)
    ensures Opcode(Encode(opcode, operand)) == opcode
    ensures Operand(Encode(opcode, operand)) == operand
  {}

  /** The two fields nested inside an operand: `operand & 0xFF` and `operand >> 8`. */
  function LowField(operand: int): Byte { LowByte(operand) }

  function HighField(operand: int): int { High(operand) }

  /** The 48-bit layout sits exactly on the high nested field: `(op >> 8) >> 8 == op >> 16`. */
  lemma HighFieldIsOperand48(op: i64)
    ensures HighField(Operand(op)) == Operand48(op)
    ensures LowField(Operand(op)) == (op / 0x100) % 0x100
  {
    var q := op / 0x1_0000;
    var m := op % 0x1_0000;
    assert op == 0x1_0000 * q + m;
    assert op / 0x100 == 0x100 * q + m / 0x100;
  }

  /** Setting the 48-bit field leaves the opcode and the low operand byte alone. */
  lemma Set48Fields(op: i64, high: int)
    requires Fits48(high)
    ensures var w := Set48BitsOperand(op, high).value;
            && Opcode(w) == Opcode(op)
            && LowField(Operand(w)) == LowField(Operand(op))
            && HighField(Operand(w)) == high
  {
    var w := Set48BitsOperand(op, high).value;
    HighFieldIsOperand48(w);
    HighFieldIsOperand48(op);
    assert w % 0x1_0000 == op % 0x1_0000;
    assert (w / 0x100) % 0x100 == (op / 0x100) % 0x100 by {
      var q := w / 0x1_0000;
      var q1 := op / 0x1_0000;
      var m := w % 0x1_0000;
      assert w == 0x1_0000 * q + m;
      assert op == 0x1_0000 * q1 + m;
      assert w / 0x100 == 0x100 * q + m / 0x100;
      assert op / 0x100 == 0x100 * q1 + m / 0x100;
    }
  }

  /** What the assembler does for IncrS, StoreSB and IncrR: set the operand to a small value `low`
      (its low byte is the first nested field) and then put `high` at bit 16. The VM's nested
      decoding returns the opcode, `low`'s byte and `high`. */
  lemma NestedFields(op: i64, low: int, high: int)
    requires Fits56(low) && Fits48(high)
    ensures var w := Set48BitsOperand(SetOperand(op, low).value, high).value;
            && Opcode(w) == Opcode(op)
            && LowField(Operand(w)) == LowByte(low)
            && HighField(Operand(w)) == high
  {
    Set48Fields(SetOperand(op, low).value, high);
  }
}
