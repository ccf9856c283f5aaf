/** The instruction set of the register machine: the opcode tags, the
    word length each tag implies, and the bit fields the interpreter's four
    handlers extract (mirea_homework_4/interpret/interpret.py). Bit offsets
    count from the least significant bit of the little-endian word. */
module Isa {
  import opened Results
  import opened Bits

  /** One instruction; its fields are named after their role and listed in
      the order the source calls them B, C, D. */
  datatype Instruction =
    | LoadConstant(value: int, reg: int)
    | MemoryRead(reg: int, address: int)
    | MemoryWrite(src: int, base: int, offset: int)
    | BitwiseOr(offset: int, dst: int, base: int)

  /** The 3-bit opcode tag of each instruction. */
  function Tag(i: Instruction): nat
  {
    match i
    case LoadConstant(_, _) => 0
    case MemoryWrite(_, _, _) => 1
    case BitwiseOr(_, _, _) => 3
    case MemoryRead(_, _) => 7
  }

  /** Bits the executor reads for a word with this tag: tags 0 and 7 carry
      fields up to bit 34 or 35 (a 40-bit word), tags 1 and 3 up to bit 31
      (a 32-bit word); any other tag is not an instruction. */
  function WordBits(tag: nat): Option<nat>
  {
    if tag == 0 || tag == 7 then Some(40)
    else if tag == 1 || tag == 3 then Some(32)
    else None
  }

  /** Bytes needed to hold `bitCount` bits, `(bit_count + 7) // 8`. */
  function ByteCount(bitCount: nat): nat
  {
    (bitCount + 7) / 8
  }

  /** Every field is below 2 to the power of its width. */
  predicate Fits(i: Instruction)
  {
    match i
    case LoadConstant(value, reg) =>
      0 <= value < Pow2(24) && 0 <= reg < Pow2(7)
    case MemoryRead(reg, address) =>
      0 <= reg < Pow2(7) && 0 <= address < Pow2(25)
    case MemoryWrite(src, base, offset) =>
      0 <= src < Pow2(7) && 0 <= base < Pow2(7) && 0 <= offset < Pow2(14)
    case BitwiseOr(offset, dst, base) =>
      0 <= offset < Pow2(14) && 0 <= dst < Pow2(7) && 0 <= base < Pow2(7)
  }

  /** LOAD_CONSTANT: value at [3, 27), register at [27, 34). */
  function DecodeLoadConstant(code: nat): (i: Instruction)
    ensures i.LoadConstant? && Fits(i)
  {
    LoadConstant(Field(code, 3, 24), Field(code, 27, 7))
  }

  /** MEMORY_READ: register at [3, 10), address at [10, 35). */
  function DecodeMemoryRead(code: nat): (i: Instruction)
    ensures i.MemoryRead? && Fits(i)
  {
    MemoryRead(Field(code, 3, 7), Field(code, 10, 25))
  }

  /** MEMORY_WRITE: source register at [3, 10), base register at [10, 17),
      offset at [17, 31). */
  function DecodeMemoryWrite(code: nat): (i: Instruction)
    ensures i.MemoryWrite? && Fits(i)
  {
    MemoryWrite(Field(code, 3, 7), Field(code, 10, 7), Field(code, 17, 14))
  }

  /** OR: offset at [3, 17), destination register at [17, 24), base
      register at [24, 31). */
  function DecodeBitwiseOr(code: nat): (i: Instruction)
    ensures i.BitwiseOr? && Fits(i)
  {
    BitwiseOr(Field(code, 3, 14), Field(code, 17, 7), Field(code, 24, 7))
  }

  /** The handler the tag selects, applied to the whole word. */
  function Decode(tag: nat, code: nat): (i: Instruction)
    requires WordBits(tag).Some?
    ensures Fits(i) && Tag(i) == tag
  {
    if tag == 0 then DecodeLoadConstant(code)
    else if tag == 7 then DecodeMemoryRead(code)
    else if tag == 1 then DecodeMemoryWrite(code)
    else DecodeBitwiseOr(code)
  }
}
