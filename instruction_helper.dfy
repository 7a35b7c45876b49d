/** Decode tables of the MSP430/MSP430X instruction set: major opcode
    extraction, operand sizes, addressing modes, instruction formats and the
    constant generator registers R2/R3. */
module InstructionHelper {
  import opened Types

  // Major opcodes: the first byte of an instruction word, low bits cleared.
  const Major00: bv8 := 0x00
  const Major10: bv8 := 0x10
  const Major14: bv8 := 0x14
  const Major18: bv8 := 0x18
  const Major1C: bv8 := 0x1C

  // Format III (jump) and format I (two-operand) opcodes, used as minor opcodes.
  const OpJnz: bv16 := 0x20
  const OpJz: bv16 := 0x24
  const OpJnc: bv16 := 0x28
  const OpJc: bv16 := 0x2C
  const OpJn: bv16 := 0x30
  const OpJge: bv16 := 0x34
  const OpJl: bv16 := 0x38
  const OpJmp: bv16 := 0x3C
  const OpMov: bv16 := 0x40
  const OpAdd: bv16 := 0x50
  const OpAddc: bv16 := 0x60
  const OpSubc: bv16 := 0x70
  const OpSub: bv16 := 0x80
  const OpCmp: bv16 := 0x90
  const OpDadd: bv16 := 0xA0
  const OpBit: bv16 := 0xB0
  const OpBic: bv16 := 0xC0
  const OpBis: bv16 := 0xD0
  const OpXor: bv16 := 0xE0
  const OpAnd: bv16 := 0xF0

  // Minor opcodes of the extended 0x00 group (bits 7..4 of the word).
  const MovaIndirectRegister: bv16 := 0x0
  const MovaIndirectAutoincrement: bv16 := 0x1
  const MovaAbsoluteSource: bv16 := 0x2
  const MovaIndexedSource: bv16 := 0x3
  const RrRlAddress: bv16 := 0x4
  const RrRlWord: bv16 := 0x5
  const MovaAbsoluteDestination: bv16 := 0x6
  const MovaIndexedDestination: bv16 := 0x7
  const MovaImmediate: bv16 := 0x8
  const CmpaImmediate: bv16 := 0x9
  const AddaImmediate: bv16 := 0xA
  const SubaImmediate: bv16 := 0xB
  const MovaRegister: bv16 := 0xC
  const CmpaRegister: bv16 := 0xD
  const AddaRegister: bv16 := 0xE
  const SubaRegister: bv16 := 0xF

  // Minor opcodes of the extended 0x10 group (bits 15..4 of the word).
  const Reti: bv16 := 0x130
  const CallaRegister: bv16 := 0x134
  const CallaIndexed: bv16 := 0x135
  const CallaIndirectRegister: bv16 := 0x136
  const CallaIndirectAutoincrement: bv16 := 0x137
  const CallaAbsolute: bv16 := 0x138
  const CallaSymbolic: bv16 := 0x139
  const CallaImmediate: bv16 := 0x13B

  /** The values decodeMajorOpcode can produce. */
  predicate IsMajorOpcode(m: bv8)
  {
    m == Major00 || m == Major10 || m == Major14 || m == Major18 || m == Major1C
    || (0x20 <= m <= 0x3C && m & 0x03 == 0)
    || (m >= 0x40 && m & 0x0F == 0)
  }

  /** Major opcode of an instruction word: the high byte with its two low
      bits cleared, and with the whole low nibble cleared for format I words
      (high nibble 0 or at least 4). */
  function DecodeMajorOpcode(raw: bv16): (r: bv8)
    ensures IsMajorOpcode(r)
    ensures (raw >> 12 == 0 || raw >> 12 >= 4) ==> r as bv16 == (raw >> 8) & 0xF0
    ensures 1 <= raw >> 12 <= 3 ==> r as bv16 == (raw >> 8) & 0xFC
  {
    var m := ((raw >> 8) & 0xFC) as bv8;
    if (m & 0xF0) >= 0x40 || (m & 0xF0) == 0x00 then m & 0xF0 else m
  }

  /** Width in bits of an operand of the given size. */
  function WordSizeInBits(ws: WordSize): (b: nat)
    ensures b == 8 || b == 16 || b == 20
    ensures (b == 8 <==> ws == Byte) && (b == 16 <==> ws == Word)
  {
    match ws
    case Byte => 8
    case Word => 16
    case Bits20 => 20
  }

  /** Bytes an operand of the given size occupies on the bus: the smallest
      power of two bytes that holds all its bits. */
  function WordSizeToBytes(ws: WordSize): (n: nat)
    ensures n == 1 || n == 2 || n == 4
    ensures 8 * n >= WordSizeInBits(ws)
    ensures n == 1 || 4 * n < WordSizeInBits(ws)
  {
    match ws
    case Byte => 1
    case Word => 2
    case Bits20 => 4
  }

  /** Operand size of an extended address instruction operand: only the
      modes that carry a memory operand or an immediate keep the size given,
      register and indirect modes are taken as a word. */
  function AddrModeToWordSize(mode: AddrMode, ws: WordSize): (r: WordSize)
    ensures r == ws || r == Word
    ensures r == ws <==>
      ws == Word || mode == Absolute || mode == Indexed || mode == Immediate
      || mode == IndirectAutoincrement
  {
    if mode == Absolute || mode == Indexed || mode == Immediate || mode == IndirectAutoincrement
    then ws
    else Word
  }

  /** Operand size from the B/W bit and, for an instruction with an extension
      word, its A/L bit.  The extended combination A/L = 0, B/W = 0 is
      reserved. */
  function BwAlFlagToWordSize(bw: bv8, al: bv8, extended: bool): (r: Result<WordSize>)
    ensures r.Err? <==> extended && (al > 1 || bw > 1 || (al == 0 && bw == 0))
    ensures r == Ok(Byte) <==> bw != 0 && (!extended || (al == 1 && bw == 1))
    ensures r == Ok(Bits20) <==> extended && al == 0 && bw == 1
    ensures r.Err? ==> r.error == ReservedOpcode
  {
    if !extended then Ok(if bw == 0 then Word else Byte)
    else if al == 0 && bw == 1 then Ok(Bits20)
    else if al == 1 && bw == 0 then Ok(Word)
    else if al == 1 && bw == 1 then Ok(Byte)
    else Err(ReservedOpcode)
  }

  /** Addressing mode from a 2-bit As/Ad field and the register it applies
      to: mode 1 on PC is symbolic and on SR absolute, mode 3 on PC is
      immediate.  Mode 3 on any other register is decoded as indirect, never
      as indirect autoincrement. */
  function AxFlagToAddrMode(ax: bv8, reg: RegIdx): (r: Result<AddrMode>)
    ensures r.Err? <==> ax > 3
    ensures r.Ok? ==> r.value != Invalid && r.value != IndirectAutoincrement
    ensures r == Ok(Register) <==> ax == 0
    ensures r == Ok(Symbolic) <==> ax == 1 && reg == PC
    ensures r == Ok(Absolute) <==> ax == 1 && reg == SR
    ensures r == Ok(Indexed) <==> ax == 1 && reg != PC && reg != SR
    ensures r == Ok(IndirectRegister) <==> ax == 2 || (ax == 3 && reg != PC)
    ensures r == Ok(Immediate) <==> ax == 3 && reg == PC
    ensures r.Err? ==> r.error == ReservedOpcode
  {
    if ax == 0 then Ok(Register)
    else if ax == 1 then
      if reg == 0 then Ok(Symbolic) else if reg == 2 then Ok(Absolute) else Ok(Indexed)
    else if ax == 2 then Ok(IndirectRegister)
    else if ax == 3 then
      if reg == 0 then Ok(Immediate) else Ok(IndirectRegister)
    else Err(ReservedOpcode)
  }

  /** Destination addressing mode.  A format I destination has a one-bit Ad
      field, so it is one of the four register or memory-word modes. */
  function AdFlagToAddrMode(format: bv2, dst: Operand): (r: Result<AddrMode>)
    requires format == 1 ==> dst.axFlag <= 1
    ensures r == AxFlagToAddrMode(dst.axFlag, dst.reg)
    ensures format == 1 ==>
      r.Ok? && (r.value == Register || r.value == Indexed || r.value == Symbolic || r.value == Absolute)
  {
    AxFlagToAddrMode(dst.axFlag, dst.reg)
  }

  /** Source addressing mode from the As field. */
  function AsFlagToAddrMode(src: Operand): (r: Result<AddrMode>)
    ensures r.Ok? <==> src.axFlag <= 3
    ensures r == AxFlagToAddrMode(src.axFlag, src.reg)
  {
    AxFlagToAddrMode(src.axFlag, src.reg)
  }

  /** Instruction format of a major opcode: I (two operands, or the 0x00
      group), II (the 0x10 and 0x14 groups) or III (jumps).  The extension
      word prefixes 0x18 and 0x1C have no format. */
  function OpcodeToFormat(op: bv8): (r: Result<bv2>)
    ensures r.Ok? ==> 1 <= r.value <= 3
    ensures r == Ok(3) <==> 0x20 <= op <= 0x3C
    ensures r == Ok(2) <==> op == Major10 || op == Major14
    ensures r.Err? <==> 0 < op < 0x40 && op != Major10 && op != Major14 && !(0x20 <= op <= 0x3C)
    ensures r.Err? ==> r.error == ReservedOpcode
  {
    if op == 0x00 || op >= 0x40 then Ok(1)
    else if op == 0x10 || op == 0x14 then Ok(2)
    else if 0x20 <= op <= 0x3C then Ok(3)
    else Err(ReservedOpcode)
  }

  /** The constant generator: R3 in modes 0..3 yields 0, 1, 2 and -1 (as a
      16-bit word), R2 in modes 2 and 3 yields 4 and 8. */
  function ConstantGenerator(reg: RegIdx, asFlag: bv8): (r: Result<bv32>)
    ensures r.Ok? <==> (reg == CG2 && asFlag <= 3) || (reg == SR && (asFlag == 2 || asFlag == 3))
    ensures reg == CG2 && asFlag < 3 ==> r == Ok(asFlag as bv32)
    ensures reg == CG2 && asFlag == 3 ==> r.Ok? && r.value >> 16 == 0 && r.value as bv16 == 0 - 1
    ensures reg == SR && (asFlag == 2 || asFlag == 3) ==> r == Ok((1 as bv32) << asFlag)
    ensures r.Err? ==> r.error == ReservedOpcode
  {
    if reg == 3 then
      if asFlag == 0 then Ok(0)
      else if asFlag == 1 then Ok(1)
      else if asFlag == 2 then Ok(2)
      else if asFlag == 3 then Ok(0xFFFF)
      else Err(ReservedOpcode)
    else if reg == 2 then
      if asFlag == 2 then Ok(4)
      else if asFlag == 3 then Ok(8)
      else Err(ReservedOpcode)
    else Err(ReservedOpcode)
  }

  /** Only the extension-word prefixes lack a format: every other word's major
      opcode has one. */
  lemma FormatOfEveryMajorOpcode(raw: bv16)
    ensures OpcodeToFormat(DecodeMajorOpcode(raw)).Err? <==> raw >> 10 == 6 || raw >> 10 == 7
    ensures OpcodeToFormat(DecodeMajorOpcode(raw)) == Ok(3) <==> raw >> 13 == 1
    ensures OpcodeToFormat(DecodeMajorOpcode(raw)) == Ok(2) <==> raw >> 10 == 4 || raw >> 10 == 5
  {
  }
}
