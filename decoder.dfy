/** Instruction decoding (MSP430.cpp, decodeInstruction and its helpers):
    the instruction word is fetched at PC, split into fields by the group
    decoders, and its operands are resolved against the registers and the
    bus.  Decoding reads the bus but never writes it; it changes the
    registers only by moving PC past extension words and by the
    autoincrement of `@Rn+` sources. */
module Decoder {
  import opened Types
  import IH = InstructionHelper
  import opened Alu
  import BA = BusAccess

  /** A decoded instruction and the registers after decoding it. */
  datatype Decoded = Decoded(instr: Instruction, regs: Regs)

  /** An operand after resolution, and the registers after resolving it. */
  datatype Resolved = Resolved(opd: Operand, regs: Regs)

  /** fetch: the word at PC. */
  function Fetch(regs: Regs, bus: BA.BusState): Result<bv16>
  {
    BA.ReadWord(bus, regs[PC] as int)
  }

  /** A register number held in four bits of an instruction word. */
  function RegField(raw: bv16, shift: nat): (r: RegIdx)
    requires shift <= 12
  {
    ((raw >> shift) & 0xF) as int
  }

  /** The same four bits as an operand value. */
  function RegValue(raw: bv16, shift: nat): (v: bv32)
    requires shift <= 12
    ensures v <= 0xF
  {
    ((raw >> shift) & 0xF) as bv32
  }

  /** Bytes an operand of the given size occupies, as an address increment. */
  function ByteCount(ws: WordSize): (n: bv32)
    ensures n == 1 || n == 2 || n == 4
  {
    match ws
    case Byte => 1
    case Word => 2
    case Bits20 => 4
  }

  /** An operand as the zero-filled instruction record holds it.  The record's
      reserved word size is never observed: every decoder sets both sizes
      before the operands are resolved, so Word stands in for it. */
  const ClearedOperand: Operand := Operand(0, 0, 0, 0, Word, Invalid, false, false)

  /** The instruction record after memset and the first fetch. */
  function Cleared(raw0: bv16): Instruction
  {
    Instruction(false, false, 0, IH.DecodeMajorOpcode(raw0), 0, ClearedOperand, ClearedOperand, 0, raw0, 0)
  }

  /** The destination modes updateInstructionDestination accepts. */
  predicate DestinationMode(mode: AddrMode)
  {
    mode == Invalid || mode == Register || mode == Indexed || mode == Symbolic || mode == Absolute
  }

  /** The minor opcode of the 0x00 group: bits 7..4. */
  function Minor00(raw0: bv16): (m: bv16)
    ensures m <= 0xF
  {
    (raw0 >> 4) & 0xF
  }

  /** RRCM, RRAM, RLAM and RRUM: the two minor opcodes whose source is the
      shift count held in bits 11..10. */
  predicate IsRotate(minor: bv16)
  {
    minor == IH.RrRlAddress || minor == IH.RrRlWord
  }

  /** The source mode of each 0x00-group minor opcode. */
  function SourceMode00(minor: bv16): AddrMode
  {
    if minor == IH.MovaIndirectRegister then IndirectRegister
    else if minor == IH.MovaIndirectAutoincrement then IndirectAutoincrement
    else if minor == IH.MovaAbsoluteSource then Absolute
    else if minor == IH.MovaIndexedSource then Indexed
    else if IsRotate(minor) then Immediate
    else if 0x8 <= minor <= 0xB then Immediate
    else Register
  }

  /** The destination mode of each 0x00-group minor opcode. */
  function DestinationMode00(minor: bv16): (mode: AddrMode)
    ensures mode == Register || mode == Absolute || mode == Indexed
  {
    if minor == IH.MovaAbsoluteDestination then Absolute
    else if minor == IH.MovaIndexedDestination then Indexed
    else Register
  }

  /** decodeInstructionMajorOpcode00: MOVA, CMPA, ADDA, SUBA and RRxM, told
      apart by bits 7..4.  Every one of the sixteen minor opcodes decodes. */
  function Decode00(instr: Instruction): (r: Instruction)
    ensures r == instr.(extended := true, format := 1, minorOpcode := Minor00(instr.raw0),
      source := r.source, destination := r.destination)
    ensures r.source.reg == RegField(instr.raw0, 8) && r.destination.reg == RegField(instr.raw0, 0)
    ensures r.destination.addrMode == DestinationMode00(r.minorOpcode)
    ensures r.destination.wordSize == (if r.destination.addrMode == Register then Word else Bits20)
    ensures IsRotate(r.minorOpcode) <==> !r.source.needUpdateValue
    ensures IsRotate(r.minorOpcode) ==> r.source.addrMode == Immediate && r.source.value == RegValue(instr.raw0, 8) >> 2
  {
    var raw := instr.raw0;
    var minor := Minor00(raw);
    var srcMode := SourceMode00(minor);
    var dstMode := DestinationMode00(minor);
    var rotate := IsRotate(minor);
    var srcWs := if minor == IH.RrRlWord then Word else IH.AddrModeToWordSize(srcMode, Bits20);
    var src := Operand(
      if rotate then RegValue(raw, 8) >> 2 else RegValue(raw, 8), 0, RegField(raw, 8),
      if minor == IH.AddaRegister || minor == IH.SubaRegister then 2 else 0,
      srcWs, srcMode, !rotate, false);
    var dst := Operand(RegValue(raw, 0), 0, RegField(raw, 0), 0, IH.AddrModeToWordSize(dstMode, Bits20), dstMode, true, false);
    instr.(format := 1, minorOpcode := minor, extended := true, source := src, destination := dst)
  }

  /** The source mode of each CALLA form of the 0x10 group. */
  function CallaMode(minor: bv16): Option<AddrMode>
  {
    if minor == IH.Reti then Some(Invalid)
    else if minor == IH.CallaRegister then Some(Register)
    else if minor == IH.CallaIndexed then Some(Indexed)
    else if minor == IH.CallaIndirectRegister then Some(IndirectRegister)
    else if minor == IH.CallaIndirectAutoincrement then Some(IndirectAutoincrement)
    else if minor == IH.CallaAbsolute then Some(Absolute)
    else if minor == IH.CallaSymbolic then Some(Symbolic)
    else if minor == IH.CallaImmediate then Some(Immediate)
    else None
  }

  /** The minor opcode of the 0x10 group: bits 15..4. */
  function Minor10(raw0: bv16): bv16
  {
    (raw0 >> 4) & 0xFFF
  }

  /** decodeInstructionMajorOpcode10: RETI and CALLA, told apart by bits
      15..4; any other minor opcode is fatal. */
  function Decode10(instr: Instruction): (r: Result<Instruction>)
    ensures r.Ok? <==> Minor10(instr.raw0) in {0x130, 0x134, 0x135, 0x136, 0x137, 0x138, 0x139, 0x13B}
    ensures r.Err? ==> r.error == UnimplementedInstruction
    ensures r.Ok? ==> (r.value.extended && r.value.format == 2 && r.value.destination.addrMode == Invalid
      && r.value.source.reg == RegField(instr.raw0, 0) && r.value.source.wordSize == Bits20)
  {
    var raw := instr.raw0;
    var minor := Minor10(raw);
    var sreg := RegField(raw, 0);
    match CallaMode(minor)
    case None => Err(UnimplementedInstruction)
    case Some(mode) =>
      var src := Operand(RegValue(raw, 0), 0, sreg, 0xFF, Bits20, mode, true, false);
      var dst := Operand(0, 0, 0, 0xFF, Word, Invalid, true, false);
      Ok(instr.(format := 2, extended := true, minorOpcode := minor, source := src, destination := dst))
  }

  /** decodeInstructionMajorOpcode14: PUSHM and POPM.  The count less one is
      the source value (bits 7..4), the register the destination value
      (bits 3..0); neither is resolved further. */
  function Decode14(instr: Instruction): (r: Result<Instruction>)
    ensures r.Ok? <==> 0x14 <= (instr.raw0 >> 8) & 0xFF <= 0x17
    ensures r.Err? ==> r.error == ReservedOpcode
    ensures r.Ok? ==>
      && r.value.extended && r.value.format == 2
      && r.value.minorOpcode == (instr.raw0 >> 8) & 0xFF
      && r.value.source.value == ((instr.raw0 >> 4) & 0xF) as bv32
      && r.value.destination.value == (instr.raw0 & 0xF) as bv32
      && !r.value.source.needUpdateValue && !r.value.destination.needUpdateValue
      && r.value.source.addrMode == Immediate && r.value.source.axFlag == 0xFF
      && r.value.destination.addrMode == Register
  {
    var raw := instr.raw0;
    var minor := (raw >> 8) & 0xFF;
    var sreg := RegField(raw, 4);
    var dreg := RegField(raw, 0);
    if 0x14 <= minor <= 0x17 then
      var src := Operand(RegValue(raw, 4), 0, sreg, 0xFF, Word, Immediate, false, false);
      var dst := Operand(RegValue(raw, 0), 0, dreg, 0xFF, Word, Register, false, false);
      Ok(instr.(extended := true, format := 2, minorOpcode := minor, source := src, destination := dst))
    else
      Err(ReservedOpcode)
  }

  /** The word decodeCoreInstruction works on: the second word when an
      extension word precedes it. */
  function CoreWord(instr: Instruction, isExtended: bool): bv16
  {
    if isExtended then instr.raw1 else instr.raw0
  }

  /** The B/W bit of a core word. */
  function BwFlag(raw: bv16): (b: bv8)
    ensures b <= 1
  {
    ((raw & 0x40) >> 6) as bv8
  }

  /** The A/L bit of the extension word, 0 without one. */
  function AlFlag(instr: Instruction, isExtended: bool): (b: bv8)
    ensures b <= 1
  {
    if isExtended then ((instr.raw0 & 0x40) >> 6) as bv8 else 0
  }

  /** The As field of a core word. */
  function AsField(raw: bv16): (f: bv8)
    ensures f <= 3
  {
    ((raw >> 4) & 0x3) as bv8
  }

  /** The Ad bit of a core word. */
  function AdField(raw: bv16): (f: bv8)
    ensures f <= 1
  {
    ((raw >> 7) & 0x1) as bv8
  }

  /** The jump offset field a format III word keeps in its destination value. */
  function JumpField(raw0: bv16): (v: bv32)
    ensures v <= 0x1FF
  {
    (raw0 & 0x1FF) as bv32
  }

  /** The format III part of decodeCoreInstruction: no operand is resolved,
      and the destination value holds the offset field. */
  function JumpOperands(instr: Instruction, raw: bv16, ws: WordSize): (r: Instruction)
    ensures r == instr.(source := r.source, destination := r.destination)
    ensures r.destination.value == JumpField(instr.raw0) && r.destination.addrMode == Invalid
    ensures r.source.addrMode == Indexed && !r.source.needUpdateValue && !r.destination.needUpdateValue
  {
    var src := Operand(0, 0, RegField(raw, 8), AsField(raw), ws, Indexed, false, false);
    var dst := Operand(JumpField(instr.raw0), 0, RegField(raw, 0), AdField(raw), ws, Invalid, false, false);
    instr.(source := src, destination := dst)
  }

  /** The initial source value: without an extension word the register
      number, 0 for the indexed and absolute modes; with one, bits 10..7 of
      the extension word for the modes that take an address or immediate. */
  function SourceValue(mode: AddrMode, raw: bv16, raw0: bv16, isExtended: bool): (v: bv32)
    ensures v <= 0xF
  {
    if !isExtended then
      (if mode == Indexed || mode == Absolute then 0 else RegValue(raw, 8))
    else if mode == Indexed || mode == Absolute || mode == Immediate then RegValue(raw0, 7)
    else 0
  }

  /** The initial destination value: without an extension word the register
      number, 0 for the indexed and absolute modes; with one, bits 3..0 of
      the extension word. */
  function DestinationValue(mode: AddrMode, raw: bv16, raw0: bv16, isExtended: bool): (v: bv32)
    ensures v <= 0xF
  {
    if !isExtended then
      (if mode == Indexed || mode == Absolute then 0 else RegValue(raw, 0))
    else RegValue(raw0, 0)
  }

  /** The format I and II part of decodeCoreInstruction: the modes from the
      As and Ad fields, and the initial values, which without an extension
      word are the register numbers (0 for the indexed and absolute modes)
      and with one are the extension word's address bits. */
  function TwoOperands(instr: Instruction, raw: bv16, ws: WordSize, format: bv2, isExtended: bool): (r: Instruction)
    ensures r == instr.(source := r.source, destination := r.destination)
    ensures DestinationMode(r.destination.addrMode)
    ensures r.source.needUpdateValue && r.destination.needUpdateValue
    ensures r.source.reg == RegField(raw, 8) && r.destination.reg == RegField(raw, 0)
  {
    var src0 := Operand(0, 0, RegField(raw, 8), AsField(raw), ws, Invalid, true, false);
    var dst0 := Operand(0, 0, RegField(raw, 0), AdField(raw), ws, Invalid, true, false);
    var srcMode := IH.AsFlagToAddrMode(src0).value;
    var dstMode := IH.AdFlagToAddrMode(format, dst0).value;
    instr.(source := src0.(addrMode := srcMode, value := SourceValue(srcMode, raw, instr.raw0, isExtended)),
              destination := dst0.(addrMode := dstMode, value := DestinationValue(dstMode, raw, instr.raw0, isExtended)))
  }

  /** decodeCoreInstruction: a format I, II or III word.  The fields are the
      opcode, the As and Ad bits, the two registers, and the B/W bit with the
      extension word's A/L bit; a jump carries its offset field in the
      destination value. */
  function DecodeCore(instr: Instruction, isExtended: bool): (r: Result<Instruction>)
    ensures r.Ok? ==> r.value == instr.(extended := isExtended, format := r.value.format,
      minorOpcode := IH.DecodeMajorOpcode(CoreWord(instr, isExtended)) as bv16,
      source := r.value.source, destination := r.value.destination)
    ensures r.Ok? ==> DestinationMode(r.value.destination.addrMode)
    ensures r.Ok? && r.value.format == 3 ==>
      && r.value.destination.value == JumpField(instr.raw0)
      && r.value.destination.addrMode == Invalid && !r.value.source.needUpdateValue
  {
    var raw := CoreWord(instr, isExtended);
    var minor := IH.DecodeMajorOpcode(raw);
    var format :- IH.OpcodeToFormat(minor);
    var ws :- IH.BwAlFlagToWordSize(BwFlag(raw), AlFlag(instr, isExtended), isExtended);
    var base := instr.(extended := isExtended, minorOpcode := minor as bv16, format := format);
    if format == 3 then Ok(JumpOperands(base, raw, ws))
    else Ok(TwoOperands(base, raw, ws, format, isExtended))
  }

  /** Whether resolving an operand first extends its value with the next
      instruction word. */
  predicate FetchesExtraWord(opd: Operand)
  {
    match opd.addrMode
    case Register => false
    case IndirectAutoincrement => false
    case Immediate => true
    case Indexed => true
    case Absolute => true
    case _ => opd.wordSize != Byte
  }

  /** The first step of updateInstructionValue: when an extension word is
      due, PC moves on by 2 and the value becomes the old value shifted up 16
      bits with the word at the new PC below it. */
  function ExtendValue(opd: Operand, regs: Regs, bus: BA.BusState): (r: Result<Resolved>)
    ensures r.Ok? && !(FetchesExtraWord(opd) && opd.needUpdateValue) ==> r.value == Resolved(opd, regs)
    ensures r.Ok? && FetchesExtraWord(opd) && opd.needUpdateValue ==>
      && r.value.regs == IncPc(regs)
      && Fetch(IncPc(regs), bus).Ok?
      && r.value.opd == opd.(value := (opd.value << 16) | Fetch(IncPc(regs), bus).value as bv32)
    ensures r.Err? ==> FetchesExtraWord(opd) && opd.needUpdateValue && Fetch(IncPc(regs), bus).Err?
  {
    if FetchesExtraWord(opd) && opd.needUpdateValue then
      var regs' := IncPc(regs);
      var w :- Fetch(regs', bus);
      Ok(Resolved(opd.(value := (opd.value << 16) | w as bv32), regs'))
    else
      Ok(Resolved(opd, regs))
  }

  /** A bus read of an operand's width, masked to that width. */
  function ReadOperand(bus: BA.BusState, address: bv32, ws: WordSize): (r: Result<bv32>)
    ensures r.Ok? ==> Fits(r.value, ws)
  {
    var v :- BA.Read(bus, address as int, IH.WordSizeToBytes(ws));
    Ok(Truncated(v, ws))
  }

  /** Resolving `opd` took `regs` to `regs'` changing no register but PC
      and, for an `@Rn+` operand, Rn. */
  predicate KeepsRegisters(regs: Regs, regs': Regs, opd: Operand)
  {
    forall i: RegIdx | i != PC && !(opd.addrMode == IndirectAutoincrement && i == opd.reg) :: regs'[i] == regs[i]
  }

  /** An operand read from memory at `a`: its address becomes `a` and its
      value the masked bus read. */
  function ReadAt(o: Operand, a: bv32, regs: Regs, bus: BA.BusState): (r: Result<Resolved>)
    ensures r.Ok? ==> r.value.regs == regs && r.value.opd == o.(address := a, value := r.value.opd.value)
    ensures r.Ok? ==> Fits(r.value.opd.value, o.wordSize)
  {
    var v :- ReadOperand(bus, a, o.wordSize);
    Ok(Resolved(o.(address := a, value := v), regs))
  }

  /** `@Rn+`: the value read at the address in the register, which then
      moves on by the operand's size; the operand's address is not set. */
  function ReadIncrement(o: Operand, regs: Regs, bus: BA.BusState): (r: Result<Resolved>)
    ensures r.Ok? ==> r.value.regs == regs[o.reg := Plus(regs[o.reg], ByteCount(o.wordSize))]
    ensures r.Ok? ==> r.value.opd == o.(value := r.value.opd.value) && Fits(r.value.opd.value, o.wordSize)
  {
    var v :- ReadOperand(bus, regs[o.reg], o.wordSize);
    Ok(Resolved(o.(value := v), regs[o.reg := Plus(regs[o.reg], ByteCount(o.wordSize))]))
  }

  /** The mode-by-mode part of updateInstructionValue. */
  function ResolveMode(o: Operand, regs: Regs, bus: BA.BusState): (r: Result<Resolved>)
    ensures r.Ok? ==> r.value.opd == o.(address := r.value.opd.address, value := r.value.opd.value)
    ensures r.Ok? && o.addrMode != Immediate && o.addrMode != Invalid ==> Fits(r.value.opd.value, o.wordSize)
    ensures r.Ok? && o.addrMode != IndirectAutoincrement ==> r.value.regs == regs
    ensures r.Ok? && o.addrMode == IndirectAutoincrement ==>
      r.value.regs == regs[o.reg := Plus(regs[o.reg], ByteCount(o.wordSize))]
    ensures o.addrMode == Immediate || o.addrMode == Invalid ==> r == Ok(Resolved(o, regs))
    ensures o.addrMode == Register ==> r == Ok(Resolved(o.(value := Truncated(regs[o.reg], o.wordSize)), regs))
  {
    match o.addrMode
    case Register => Ok(Resolved(o.(value := Truncated(regs[o.reg], o.wordSize)), regs))
    case Indexed => ReadAt(o, Plus(regs[o.reg], o.value), regs, bus)
    case Symbolic => ReadAt(o, Plus(regs[PC], o.value), regs, bus)
    case Absolute => ReadAt(o, o.value, regs, bus)
    case IndirectRegister => ReadAt(o, regs[o.reg], regs, bus)
    case IndirectAutoincrement => ReadIncrement(o, regs, bus)
    case Immediate => Ok(Resolved(o, regs))
    case Invalid => Ok(Resolved(o, regs))
  }

  /** updateInstructionValue: the operand's value (when `needUpdateValue`)
      and address resolved according to its mode. */
  function UpdateValue(opd: Operand, regs: Regs, bus: BA.BusState): (r: Result<Resolved>)
    ensures r.Ok? ==> r.value.opd == opd.(address := r.value.opd.address, value := r.value.opd.value)
    ensures r.Ok? && opd.needUpdateValue && opd.addrMode != Immediate && opd.addrMode != Invalid ==>
      Fits(r.value.opd.value, opd.wordSize)
    ensures r.Ok? && !opd.needUpdateValue ==> r.value.opd.value == opd.value
    ensures r.Ok? ==> KeepsRegisters(regs, r.value.regs, opd)
  {
    var ext :- ExtendValue(opd, regs, bus);
    var resolved :- ResolveMode(ext.opd, ext.regs, bus);
    Ok(if opd.needUpdateValue then resolved else resolved.(opd := resolved.opd.(value := opd.value)))
  }

  /** Whether a source operand is served by the constant generator: R3 with
      As 0..3, or R2 with As 2 or 3. */
  predicate UsesConstantGenerator(src: Operand)
  {
    (src.reg == SR && 1 < src.axFlag <= 3) || (src.reg == CG2 && src.axFlag <= 3)
  }

  /** updateInstructionSource: a constant-generator source becomes an
      immediate with the generated value; an unused source is left alone;
      any other is resolved. */
  function UpdateSource(src: Operand, regs: Regs, bus: BA.BusState): (r: Result<Resolved>)
    ensures UsesConstantGenerator(src) ==>
      var cg := IH.ConstantGenerator(src.reg, src.axFlag);
      && cg.Ok?
      && r == Ok(Resolved(src.(value := cg.value, addrMode := Immediate, usedConstantGenerator := true), regs))
    ensures !UsesConstantGenerator(src) && src.addrMode == Invalid ==> r == Ok(Resolved(src, regs))
    ensures r.Ok? ==> KeepsRegisters(regs, r.value.regs, src)
  {
    if UsesConstantGenerator(src) then
      var cg := IH.ConstantGenerator(src.reg, src.axFlag);
      Ok(Resolved(src.(value := cg.value, addrMode := Immediate, usedConstantGenerator := true), regs))
    else if src.addrMode == Invalid then
      Ok(Resolved(src, regs))
    else
      UpdateValue(src, regs, bus)
  }

  /** updateInstructionDestination: an unused destination is left alone; the
      others are resolved.  The source asserts that a destination is in a
      register or memory-word mode. */
  function UpdateDestination(dst: Operand, regs: Regs, bus: BA.BusState): (r: Result<Resolved>)
    requires DestinationMode(dst.addrMode)
    ensures dst.addrMode == Invalid ==> r == Ok(Resolved(dst, regs))
    ensures r.Ok? ==> r.value.opd.addrMode == dst.addrMode && KeepsRegisters(regs, r.value.regs, dst)
  {
    if dst.addrMode == Invalid then Ok(Resolved(dst, regs))
    else UpdateValue(dst, regs, bus)
  }

  /** The repetition count of an extension word: with bit 7 set, the low
      four bits of the register named in bits 3..0; otherwise 0. */
  function Repetition(raw0: bv16, regs: Regs): bv4
  {
    if raw0 & 0x80 != 0 then (regs[RegField(raw0, 0)] & 0xF) as bv4 else 0
  }

  /** The ZC bit of an extension word. */
  function ZcFlag(raw0: bv16): bool
  {
    raw0 & 0x100 != 0
  }

  /** The fields of an instruction with an extension word: the repetition
      count and the ZC bit, then the second word, fetched after PC moves on
      past the extension word. */
  function DecodeExtended(instr: Instruction, regs: Regs, bus: BA.BusState): (r: Result<Decoded>)
    ensures r.Ok? ==> r.value.regs == IncPc(regs) && r.value.instr.extended
    ensures r.Ok? ==> Fetch(IncPc(regs), bus) == Ok(r.value.instr.raw1)
    ensures r.Ok? ==> r.value.instr.zc == ZcFlag(instr.raw0) && r.value.instr.repetition == Repetition(instr.raw0, regs)
    ensures r.Ok? ==> DestinationMode(r.value.instr.destination.addrMode)
  {
    var regs' := IncPc(regs);
    var raw1 :- Fetch(regs', bus);
    var core :- DecodeCore(instr.(repetition := Repetition(instr.raw0, regs), zc := ZcFlag(instr.raw0), raw1 := raw1), true);
    Ok(Decoded(core, regs'))
  }

  /** decodeInstruction before the operands are resolved: the group
      decoders by major opcode. */
  function DecodeFields(raw0: bv16, regs: Regs, bus: BA.BusState): (r: Result<Decoded>)
    ensures r.Ok? ==> DestinationMode(r.value.instr.destination.addrMode)
    ensures r.Ok? && IH.DecodeMajorOpcode(raw0) != IH.Major18 && IH.DecodeMajorOpcode(raw0) != IH.Major1C ==>
      r.value.regs == regs
  {
    var instr := Cleared(raw0);
    var major := instr.majorOpcode;
    if major == IH.Major00 then Ok(Decoded(Decode00(instr), regs))
    else if major == IH.Major10 then
      var i :- Decode10(instr);
      Ok(Decoded(i, regs))
    else if major == IH.Major14 then
      var i :- Decode14(instr);
      Ok(Decoded(i, regs))
    else if major == IH.Major18 || major == IH.Major1C then DecodeExtended(instr, regs, bus)
    else
      var i :- DecodeCore(instr, false);
      Ok(Decoded(i, regs))
  }

  /** decodeInstruction: fetch, refuse a zero word, decode the fields, then
      resolve the source and then the destination. */
  function Decode(regs: Regs, bus: BA.BusState): (r: Result<Decoded>)
    ensures Fetch(regs, bus) == Ok(0) ==> r == Err(ZeroInstruction)
    ensures Fetch(regs, bus).Err? ==> r == Err(Fetch(regs, bus).error)
  {
    var raw0 :- Fetch(regs, bus);
    if raw0 == 0 then Err(ZeroInstruction)
    else
      var fields :- DecodeFields(raw0, regs, bus);
      var src :- UpdateSource(fields.instr.source, fields.regs, bus);
      var dst :- UpdateDestination(fields.instr.destination, src.regs, bus);
      Ok(Decoded(fields.instr.(source := src.opd, destination := dst.opd), dst.regs))
  }

  /** Decoding changes no register but PC and, for an `@Rn+` source, Rn. */
  lemma DecodeFrame(regs: Regs, bus: BA.BusState)
    requires Decode(regs, bus).Ok?
    ensures var d := Decode(regs, bus).value;
      KeepsRegisters(regs, d.regs, d.instr.source)
  {
    var raw0 := Fetch(regs, bus).value;
    var fields := DecodeFields(raw0, regs, bus).value;
    var src := UpdateSource(fields.instr.source, fields.regs, bus).value;
    var dst := UpdateDestination(fields.instr.destination, src.regs, bus).value;
  }

  /** Only an extension word brings a repetition count: every other
      instruction decodes with a count of 0. */
  lemma RepetitionOnlyExtended(regs: Regs, bus: BA.BusState)
    requires Decode(regs, bus).Ok?
    requires IH.DecodeMajorOpcode(Fetch(regs, bus).value) != IH.Major18
    requires IH.DecodeMajorOpcode(Fetch(regs, bus).value) != IH.Major1C
    ensures Decode(regs, bus).value.instr.repetition == 0
  {
    var raw0 := Fetch(regs, bus).value;
    var fields := DecodeFields(raw0, regs, bus).value;
    assert fields.instr.repetition == 0;
  }

  /** A jump word decodes without fetching: PC stays put, and the destination
      value carries the offset field. */
  lemma JumpDecodes(regs: Regs, bus: BA.BusState, w: bv16)
    requires Fetch(regs, bus) == Ok(w) && w >> 13 == 1
    requires Decode(regs, bus).Ok?
    ensures var d := Decode(regs, bus).value;
      && d.regs == regs && d.instr.format == 3 && !d.instr.extended
      && d.instr.minorOpcode == IH.DecodeMajorOpcode(w) as bv16
      && d.instr.destination.value == JumpField(w)
  {
    IH.FormatOfEveryMajorOpcode(w);
  }

  /** A PUSHM or POPM word always decodes, without fetching or reading:
      the count less one and the register come from the word itself. */
  lemma PushPopDecodes(regs: Regs, bus: BA.BusState, w: bv16)
    requires Fetch(regs, bus) == Ok(w) && IH.DecodeMajorOpcode(w) == IH.Major14
    ensures Decode(regs, bus).Ok?
    ensures var d := Decode(regs, bus).value;
      && d.regs == regs && d.instr.extended
      && d.instr.minorOpcode == (w >> 8) & 0xFF
      && d.instr.source.value == ((w >> 4) & 0xF) as bv32
      && d.instr.destination.value == (w & 0xF) as bv32
  {
    var instr := Decode14(Cleared(w)).value;
    assert DecodeFields(w, regs, bus) == Ok(Decoded(instr, regs));
    assert UpdateSource(instr.source, regs, bus) == Ok(Resolved(instr.source, regs));
    assert UpdateDestination(instr.destination, regs, bus) == Ok(Resolved(instr.destination, regs));
  }

  /** The fields of `MOV #0, SR` (0x4302): a word-sized format I MOV from
      R3 with As 0 to SR in register mode. */
  lemma MovZeroToStatusFields()
    ensures var r := DecodeCore(Cleared(0x4302), false);
      && r.Ok? && !r.value.extended && r.value.minorOpcode == IH.OpMov
      && r.value.source.reg == CG2 && r.value.source.axFlag == 0
      && r.value.destination.reg == SR && r.value.destination.addrMode == Register
  {
    assert IH.DecodeMajorOpcode(0x4302) == 0x40;
    assert AsField(0x4302) == 0 && AdField(0x4302) == 0;
    assert IH.AxFlagToAddrMode(0, SR) == Ok(Register);
  }

  /** `MOV #0, SR` (0x4302, the source from the constant generator) decodes
      without fetching: PC stays put, the source is the immediate 0 and the
      destination is SR in register mode. */
  lemma MovZeroToStatusDecodes(regs: Regs, bus: BA.BusState)
    requires Fetch(regs, bus) == Ok(0x4302)
    ensures Decode(regs, bus).Ok?
    ensures var d := Decode(regs, bus).value;
      && d.regs == regs && !d.instr.extended && d.instr.minorOpcode == IH.OpMov
      && d.instr.source.value == 0 && d.instr.source.addrMode == Immediate
      && d.instr.destination.reg == SR && d.instr.destination.addrMode == Register
  {
    MovZeroToStatusFields();
    var instr := DecodeCore(Cleared(0x4302), false).value;
    var fields := DecodeFields(0x4302, regs, bus);
    assert fields == Ok(Decoded(instr, regs));
    var src := UpdateSource(instr.source, regs, bus);
    assert src == Ok(Resolved(instr.source.(value := 0, addrMode := Immediate, usedConstantGenerator := true), regs));
    var dst := UpdateDestination(instr.destination, regs, bus);
    assert dst.Ok? && dst.value.regs == regs && dst.value.opd.reg == SR && dst.value.opd.addrMode == Register;
  }
}
