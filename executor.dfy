/** Instruction execution (MSP430.cpp, runOneInstruction and the handlers
    it dispatches to), as functions from the machine state before an
    instruction to the state after it.  The CPU class in cpu.dfy performs
    the same steps in place and is proved against these functions. */
module Executor {
  import opened Types
  import IH = InstructionHelper
  import opened Alu
  import BA = BusAccess
  import Bus
  import D = Decoder

  /** The state an instruction works on: the sixteen registers and the
      devices behind the bus. */
  datatype Machine = Machine(regs: Regs, bus: BA.BusState)

  /** setRegister. */
  function SetRegister(m: Machine, r: RegIdx, v: bv32): (m': Machine)
    ensures m'.bus == m.bus && m'.regs == m.regs[r := v]
  {
    m.(regs := m.regs[r := v])
  }

  /** regIncPc. */
  function NextPc(m: Machine): (m': Machine)
    ensures m'.bus == m.bus && m'.regs == IncPc(m.regs)
  {
    m.(regs := IncPc(m.regs))
  }

  /** The status register `sr` with the four arithmetic flags replaced,
      written back to SR. */
  function SetStatus(m: Machine, sr: bv32, f: Flags): (m': Machine)
    ensures m'.bus == m.bus && FlagsOf(m'.regs[SR]) == f
    ensures m'.regs == m.regs[SR := WithFlags(sr, f)]
  {
    FlagsRoundTrip(sr, f);
    SetRegister(m, SR, WithFlags(sr, f))
  }

  /** instructionWrite to a register: the register takes the whole 32-bit
      value, then PC moves on by 2, except when `alwaysIncPc` is false and
      the register is PC itself. */
  function RegisterWrite(m: Machine, reg: RegIdx, value: bv32, alwaysIncPc: bool): (m': Machine)
    ensures m'.bus == m.bus
    ensures reg != PC ==> m'.regs == IncPc(m.regs)[reg := value]
    ensures reg == PC ==> m'.regs == m.regs[PC := if alwaysIncPc then value + 2 else value]
  {
    var m1 := SetRegister(m, reg, value);
    if alwaysIncPc || reg != PC then NextPc(m1) else m1
  }

  /** instructionWrite to memory: the value is written on the bus at the
      operand's address and width, then PC moves on by 2. */
  function BusWrite(m: Machine, dst: Operand, value: bv32): (r: Result<Machine>)
    ensures var w := BA.Write(m.bus, AddrOf(dst.address), value, IH.WordSizeToBytes(dst.wordSize));
      && (r.Ok? <==> w.Ok?)
      && (r.Ok? ==> r.value == Machine(IncPc(m.regs), w.value))
  {
    var bus :- BA.Write(m.bus, AddrOf(dst.address), value, IH.WordSizeToBytes(dst.wordSize));
    Ok(NextPc(m.(bus := bus)))
  }

  /** instructionWrite: a register destination or a bus destination. */
  function InstructionWrite(m: Machine, dst: Operand, value: bv32, alwaysIncPc: bool): (r: Result<Machine>)
    ensures dst.addrMode == Register ==> r == Ok(RegisterWrite(m, dst.reg, value, alwaysIncPc))
    ensures dst.addrMode != Register ==> r == BusWrite(m, dst, value)
  {
    if dst.addrMode == Register then Ok(RegisterWrite(m, dst.reg, value, alwaysIncPc))
    else BusWrite(m, dst, value)
  }

  /** runJumpInstruction: when the condition holds on the status flags, PC
      moves by twice the signed 10-bit offset plus 2; otherwise by 2. */
  function RunJump(m: Machine, instr: Instruction): (m': Machine)
    ensures m'.bus == m.bus
    ensures forall i :: 0 <= i < 16 && i != PC ==> m'.regs[i] == m.regs[i]
    ensures m'.regs[PC] ==
      if CheckCondition(instr.minorOpcode, m.regs[SR]) then JumpTarget(m.regs[PC], instr.raw0)
      else m.regs[PC] + 2
  {
    if CheckCondition(instr.minorOpcode, m.regs[SR]) then SetRegister(m, PC, JumpTarget(m.regs[PC], instr.raw0))
    else NextPc(m)
  }

  /** The MOV form runMovInstruction treats as NOP: immediate 0 into SR. */
  predicate IsNop(instr: Instruction)
  {
    && instr.source.value == 0 && instr.destination.reg == SR
    && instr.source.addrMode == Immediate && instr.destination.addrMode == Register
  }

  /** runMovInstruction as written: the NOP form returns without touching
      anything, PC included. */
  function RunMovAsWritten(m: Machine, instr: Instruction): (r: Result<Machine>)
    ensures IsNop(instr) ==> r == Ok(m)
    ensures !IsNop(instr) ==> r == InstructionWrite(m, instr.destination, instr.source.value, false)
  {
    if IsNop(instr) then Ok(m)
    else InstructionWrite(m, instr.destination, instr.source.value, false)
  }

  /** runMovInstruction as intended: every MOV, `MOV #0, SR` (CLR SR)
      included, writes the source value to the destination; the NOP of the
      instruction set is `MOV #0, R3`, whose write the constant generator
      register ignores. */
  function RunMov(m: Machine, instr: Instruction): (r: Result<Machine>)
    ensures !IsNop(instr) ==> r == RunMovAsWritten(m, instr)
    ensures instr.destination.addrMode == Register && instr.destination.reg != PC ==>
      r == Ok(Machine(IncPc(m.regs)[instr.destination.reg := instr.source.value], m.bus))
  {
    InstructionWrite(m, instr.destination, instr.source.value, false)
  }

  /** The carry bit of a status register as an addend. */
  function CarryIn(sr: bv32): (c: bv32)
    ensures c <= 1 && (c == 1 <==> FlagsOf(sr).c)
  {
    if FlagsOf(sr).c then 1 else 0
  }

  /** runAddInstruction: the unmasked sum (plus the carry for ADDC) goes to
      the destination, then the flags computed at the destination's width
      replace those of the status register read before the write. */
  function RunAdd(m: Machine, instr: Instruction, isAddc: bool): (r: Result<Machine>)
    ensures instr.destination.addrMode == Register ==> r.Ok?
    ensures r.Ok? ==>
      (FlagsOf(r.value.regs[SR]) ==
       AddFlags(instr.destination.value, instr.source.value,
                AddSum(instr.destination.value, instr.source.value, m.regs[SR], isAddc),
                Mask(instr.destination.wordSize)))
  {
    RunAddWith(m, instr, AddSum(instr.destination.value, instr.source.value, m.regs[SR], isAddc))
  }

  /** ADD's sum: the operands' values, plus the carry for ADDC. */
  function AddSum(dst: bv32, src: bv32, sr: bv32, isAddc: bool): bv32
  {
    dst + src + CarryAddend(sr, isAddc)
  }

  /** What ADDC adds to the operands: the carry bit; ADD adds nothing. */
  function CarryAddend(sr: bv32, isAddc: bool): (c: bv32)
    ensures c <= 1
  {
    if isAddc then CarryIn(sr) else 0
  }

  /** The rest of runAddInstruction once the sum `value` is known. */
  function RunAddWith(m: Machine, instr: Instruction, value: bv32): (r: Result<Machine>)
  {
    var sr := m.regs[SR];
    var m1 :- InstructionWrite(m, instr.destination, value, true);
    Ok(SetStatus(m1, sr, AddFlags(instr.destination.value, instr.source.value, value, Mask(instr.destination.wordSize))))
  }

  /** runSubInstruction: the difference masked to the destination's width
      (less the borrow for SUBC) goes to the destination, then the flags. */
  function RunSub(m: Machine, instr: Instruction, isSubc: bool): (r: Result<Machine>)
    ensures instr.destination.addrMode == Register ==> r.Ok?
    ensures r.Ok? ==>
      (FlagsOf(r.value.regs[SR]) ==
       SubFlags(instr.destination.value, instr.source.value,
                Difference(instr.destination.value, instr.source.value, Mask(instr.destination.wordSize), m.regs[SR], isSubc),
                Mask(instr.destination.wordSize)))
  {
    var sr := m.regs[SR];
    var mask := Mask(instr.destination.wordSize);
    var dst, src := instr.destination.value, instr.source.value;
    var value := Difference(dst, src, mask, sr, isSubc);
    var m1 :- InstructionWrite(m, instr.destination, value, true);
    Ok(SetStatus(m1, sr, SubFlags(dst, src, value, mask)))
  }

  /** SUB's difference masked to the width, less the borrow for SUBC. */
  function Difference(dst: bv32, src: bv32, mask: bv32, sr: bv32, isSubc: bool): bv32
  {
    ((dst - src) & mask) - Borrow(sr, isSubc)
  }

  /** What SUBC takes off the masked difference: one less the carry bit;
      SUB takes nothing. */
  function Borrow(sr: bv32, isSubc: bool): (b: bv32)
    ensures b <= 1 && (!isSubc ==> b == 0)
  { if isSubc then 1 - CarryIn(sr) else 0 }

  /** runCmpInstruction: the flags of the difference, with nothing written;
      PC moves on after SR is set. */
  function RunCmp(m: Machine, instr: Instruction): (m': Machine)
    ensures m'.bus == m.bus
    ensures FlagsOf(m'.regs[SR]) == CmpFlags(instr.destination.value, instr.source.value, instr.destination.wordSize)
  {
    NextPc(SetStatus(m, m.regs[SR], CmpFlags(instr.destination.value, instr.source.value, instr.destination.wordSize)))
  }

  /** runDaddInstruction: addBCD of the source and destination values, which
      must have the same size, then the flags with V left as it was. */
  function RunDadd(m: Machine, instr: Instruction): (r: Result<Machine>)
    ensures instr.source.wordSize != instr.destination.wordSize ==> r == Err(OperandSizeMismatch)
    ensures instr.source.wordSize == instr.destination.wordSize && instr.destination.addrMode == Register ==> r.Ok?
    ensures r.Ok? ==>
      (FlagsOf(r.value.regs[SR]) ==
       DaddFlags(m.regs[SR], AddBcd(instr.source.value, instr.destination.value, instr.source.wordSize),
                 Mask(instr.destination.wordSize)))
  {
    if instr.source.wordSize != instr.destination.wordSize then Err(OperandSizeMismatch)
    else
      var sr := m.regs[SR];
      var value := AddBcd(instr.source.value, instr.destination.value, instr.source.wordSize);
      var m1 :- InstructionWrite(m, instr.destination, value, true);
      Ok(SetStatus(m1, sr, DaddFlags(sr, value, Mask(instr.destination.wordSize))))
  }

  /** The five logical instructions. */
  datatype LogicOp = Bit | Bic | Bis | Xor | And

  /** The operation each one applies to the destination and source values. */
  function Apply(op: LogicOp, dst: bv32, src: bv32): bv32
  {
    match op
    case Bit => dst & src
    case Bic => dst & !src
    case Bis => dst | src
    case Xor => dst ^ src
    case And => dst & src
  }

  /** BIT, XOR and AND update the flags; BIC and BIS do not. */
  predicate UpdatesStatus(op: LogicOp)
  {
    op != Bic && op != Bis
  }

  /** executeLogicalOp: the result is written to the destination (BIT
      included), then regUpdateStatusForLogicalOp reads SR again, after the
      write, and sets the flags; only XOR passes its operands for V. */
  function RunLogical(m: Machine, instr: Instruction, op: LogicOp): (r: Result<Machine>)
    ensures instr.destination.addrMode == Register ==> r.Ok?
    ensures r.Ok? && UpdatesStatus(op) ==>
      (FlagsOf(r.value.regs[SR]) ==
       LogicFlags(Apply(op, instr.destination.value, instr.source.value), SignMask(instr.source.wordSize),
                  if op == Xor then instr.destination.value else 0,
                  if op == Xor then instr.source.value else 0, op == Xor))
  {
    var dst, src := instr.destination.value, instr.source.value;
    var result := Apply(op, dst, src);
    var m1 :- InstructionWrite(m, instr.destination, result, true);
    if UpdatesStatus(op) then
      var isXor := op == Xor;
      var f := LogicFlags(result, SignMask(instr.source.wordSize),
                          if isXor then dst else 0, if isXor then src else 0, isXor);
      Ok(SetStatus(m1, m1.regs[SR], f))
    else
      Ok(m1)
  }

  /** The shift count of RRCM, RRAM, RLAM and RRUM: the source value plus
      one, cut to 8 bits. */
  function ShiftCount(src: bv32): (n: nat)
    ensures n < 256
  {
    ((src + 1) & 0xFF) as int
  }

  /** RRCM as written: a plain right shift, with the whole mask or-ed in
      when C is set. */
  function Rrcm(d: bv32, mask: bv32, carry: bool, n: nat): (r: bv32)
    requires IsMask(mask) && Within(d, mask) && n <= 20
    ensures Within(r, mask)
    ensures carry ==> r == mask
  {
    var shifted := d >> n;
    ShiftRightStays(d, mask, n);
    if carry then
      OrMaskIsMask(shifted, mask);
      shifted | mask
    else shifted
  }

  /** RRUM: a logical right shift. */
  function Rrum(d: bv32, mask: bv32, n: nat): (r: bv32)
    requires IsMask(mask) && Within(d, mask) && n <= 20
    ensures Within(r, mask)
  {
    ShiftRightStays(d, mask, n);
    d >> n
  }

  /** RLAM as written, which is a left shift within the width. */
  function RlamWithin(d: bv32, mask: bv32, n: nat): (r: bv32)
    requires IsMask(mask) && Within(d, mask)
    ensures Within(r, mask) && r == ShiftLeftWithin(d, mask, n)
  {
    RlamIsShift(d, mask, n);
    ShiftLeftWithinStays(d, mask, n);
    Rlam(d, mask, n)
  }

  /** RRAM as written: every round ors the value back in, so the result
      stays within the width and keeps every bit of the operand (see Rra
      for the arithmetic shift the comments in the source intend). */
  function RramWithin(d: bv32, mask: bv32, n: nat): (r: bv32)
    requires IsMask(mask) && Within(d, mask)
    ensures Within(r, mask) && KeepsBits(r, d)
    ensures r == Rram(d, mask, n)
  {
    RramKeepsBits(d, mask, n);
    Rram(d, mask, n)
  }

  /** The destination value after one of the four RRxM operations, chosen
      by bits 9..8 of the first word: RRCM, RRAM, RLAM and RRUM, each as
      written.  It stays within the width. */
  function RotateResult(id: bv16, d: bv32, mask: bv32, carry: bool, n: nat): (r: bv32)
    requires IsMask(mask) && Within(d, mask) && n <= 20
    ensures Within(r, mask)
  {
    if id == 0 then Rrcm(d, mask, carry, n)
    else if id == 1 then RramWithin(d, mask, n)
    else if id == 2 then RlamWithin(d, mask, n)
    else Rrum(d, mask, n)
  }

  /** The flags after RRxM: N from the source's sign bit, Z, C from the bit
      at the width less the count, and V cleared. */
  function RotateFlags(value: bv32, srcWs: WordSize, bits: nat, n: nat): Flags
    requires n <= bits <= 20
  {
    Flags(value & ((1 as bv32) << (bits - n)) != 0, value == 0, value & SignMask(srcWs) != 0, false)
  }

  /** The value RRxM leaves in its destination register: the register,
      masked to the destination's width, put through the operation that
      bits 9..8 of the first word select. */
  function Rotated(m: Machine, instr: Instruction): (v: bv32)
    requires ShiftCount(instr.source.value) <= IH.WordSizeInBits(instr.destination.wordSize)
    ensures Within(v, Mask(instr.destination.wordSize))
  {
    var d := Truncated(m.regs[instr.destination.reg], instr.destination.wordSize);
    RotateResult((instr.raw0 >> 8) & 0x3, d, Mask(instr.destination.wordSize), FlagsOf(m.regs[SR]).c,
                 ShiftCount(instr.source.value))
  }

  /** runRrRlInstruction: the register operand, masked to the destination's
      width, is rotated or shifted and written back; PC moves on; then the
      flags replace those of the status register read first.  A count above
      the width makes the carry shift undefined. */
  function RunRrRl(m: Machine, instr: Instruction): (r: Result<Machine>)
    ensures r.Err? <==> ShiftCount(instr.source.value) > IH.WordSizeInBits(instr.destination.wordSize)
    ensures r.Err? ==> r.error == ShiftOutOfRange
  {
    var sr := m.regs[SR];
    var n := ShiftCount(instr.source.value);
    var bits := IH.WordSizeInBits(instr.destination.wordSize);
    if n > bits then Err(ShiftOutOfRange)
    else
      var value := Rotated(m, instr);
      var m1 := NextPc(SetRegister(m, instr.destination.reg, value));
      Ok(SetStatus(m1, sr, RotateFlags(value, instr.source.wordSize, bits, n)))
  }

  /** The stack slot size of PUSHM and POPM: four bytes for the .A forms. */
  function StackWidth(minor: bv16): (w: nat)
    ensures w == 2 || w == 4
  {
    if minor == 0x14 || minor == 0x16 then 4 else 2
  }

  /** The slot size as a 32-bit register increment. */
  function SlotSize(width: nat): (k: bv32)
    requires width == 2 || width == 4
    ensures k == 2 || k == 4
  {
    if width == 2 then 2 else 4
  }

  /** One PUSHM round: SP moves down a slot, then the register (read after
      the move, so SP pushes its new value) is written there. */
  function PushSlot(m: Machine, reg: RegIdx, width: nat): (r: Result<Machine>)
    requires width == 2 || width == 4
    ensures var sp := Minus(m.regs[SP], SlotSize(width));
      var w := BA.Write(m.bus, AddrOf(sp), m.regs[SP := sp][reg], width);
      && (r.Ok? <==> w.Ok?)
      && (r.Ok? ==> r.value == Machine(m.regs[SP := sp], w.value))
  {
    var sp := Minus(m.regs[SP], SlotSize(width));
    var regs := m.regs[SP := sp];
    var w := BA.Write(m.bus, AddrOf(sp), regs[reg], width);
    if w.Ok? then Ok(Machine(regs, w.value)) else Err(w.error)
  }

  /** PUSHM's loop from round `i`: register `top - i` is pushed; an index
      outside R0..R15 fails the source's assertion. */
  function PushFrom(m: Machine, top: int, count: int, i: int, width: nat): (r: Result<Machine>)
    requires width == 2 || width == 4
    ensures i >= count ==> r == Ok(m)
    ensures r.Ok? && i < count ==> 0 <= top - (count - 1) && top - i <= 15
    decreases count - i
  {
    if i >= count then Ok(m)
    else if !(0 <= top - i <= 15) then Err(RegisterOutOfRange)
    else
      var m1 :- PushSlot(m, top - i, width);
      PushFrom(m1, top, count, i + 1, width)
  }

  /** One POPM round: the slot at SP is read into the register, then SP
      moves up a slot; the bus is only read. */
  function PopSlot(m: Machine, reg: RegIdx, width: nat): (r: Result<Machine>)
    requires width == 2 || width == 4
    ensures r.Ok? ==> r.value.bus == m.bus
  {
    var v := BA.Read(m.bus, AddrOf(m.regs[SP]), width);
    if v.Ok? then
      var regs := m.regs[reg := v.value];
      Ok(Machine(regs[SP := Plus(regs[SP], SlotSize(width))], m.bus))
    else Err(v.error)
  }

  /** A POPM round reads the slot at SP into the register and moves SP up
      a slot, unless SP is the register; no other register changes. */
  lemma PopSlotEffect(m: Machine, reg: RegIdx, width: nat)
    requires width == 2 || width == 4
    ensures var r, v := PopSlot(m, reg, width), BA.Read(m.bus, AddrOf(m.regs[SP]), width);
      && (r.Ok? <==> v.Ok?)
      && (r.Ok? ==> r.value.regs[reg] == (if reg == SP then Plus(v.value, SlotSize(width)) else v.value))
      && (r.Ok? && reg != SP ==> r.value.regs[SP] == Plus(m.regs[SP], SlotSize(width)))
      && (r.Ok? ==> forall j :: 0 <= j < 16 && j != reg && j != SP ==> r.value.regs[j] == m.regs[j])
  {
  }

  /** POPM's loop from round `i`: the slot is read into register
      `first + i`, taken modulo 256 as the uint8_t parameter of setRegister
      does; a register index beyond R15 is fatal. */
  function PopFrom(m: Machine, first: int, count: int, i: int, width: nat): (r: Result<Machine>)
    requires width == 2 || width == 4
    requires first >= 0 && i >= 0
    ensures i >= count ==> r == Ok(m)
    ensures r.Ok? && i < count && first + count <= 256 ==> first + count <= 16
    decreases count - i
  {
    if i >= count then Ok(m)
    else
      var reg := (first + i) % 256;
      if reg > 15 then
        var v :- BA.Read(m.bus, AddrOf(m.regs[SP]), width);
        Err(RegisterOutOfRange)
      else
        var m1 :- PopSlot(m, reg, width);
        PopFrom(m1, first, count, i + 1, width)
  }

  /** runPushPopInstruction: `n - 1` is the source value and the register
      the destination value; PC moves on after the last round. */
  function RunPushPop(m: Machine, instr: Instruction): (r: Result<Machine>)
    ensures !(0x14 <= instr.minorOpcode <= 0x17) ==> r == Err(UnimplementedInstruction)
  {
    var minor := instr.minorOpcode;
    var width := StackWidth(minor);
    var count := instr.source.value as int + 1;
    var reg := instr.destination.value as int;
    if minor == 0x14 || minor == 0x15 then MovedOn(PushFrom(m, reg, count, 0, width))
    else if minor == 0x16 || minor == 0x17 then MovedOn(PopFrom(m, reg, count, 0, width))
    else Err(UnimplementedInstruction)
  }

  /** PC moved on after a sequence of rounds that succeeded. */
  function MovedOn(r: Result<Machine>): (r': Result<Machine>)
    ensures r'.Ok? <==> r.Ok?
    ensures r.Err? ==> r' == r
    ensures r.Ok? ==> r'.value.bus == r.value.bus && r'.value.regs == IncPc(r.value.regs)
  {
    var m1 :- r;
    Ok(NextPc(m1))
  }

  /** The CALLA forms of the 0x10 group. */
  predicate IsCalla(minor: bv16)
  {
    minor in {IH.CallaRegister, IH.CallaIndexed, IH.CallaIndirectRegister, IH.CallaIndirectAutoincrement,
              IH.CallaAbsolute, IH.CallaSymbolic, IH.CallaImmediate}
  }

  /** The bus address a register value names. */
  function AddrOf(x: bv32): (a: Addr)
    ensures a == x as int
  {
    x as int
  }

  /** regInc(SP, -2) followed by writeWord at the new SP. */
  function PushWord(m: Machine, v: bv16): (r: Result<Machine>)
    ensures var sp := Minus(m.regs[SP], 2);
      var w := BA.WriteWord(m.bus, AddrOf(sp), v);
      && (r.Ok? <==> w.Ok?)
      && (r.Ok? ==> r.value == Machine(m.regs[SP := sp], w.value))
  {
    var sp := Minus(m.regs[SP], 2);
    var w := BA.WriteWord(m.bus, AddrOf(sp), v);
    if w.Ok? then Ok(Machine(m.regs[SP := sp], w.value)) else Err(w.error)
  }

  /** The high half of a 32-bit register as the uint16_t value writeWord
      receives; the low half is BusAccess.LowWord. */
  function HighHalf(v: bv32): (h: bv16)
    ensures h as bv32 == v >> 16
  {
    (v >> 16) as bv16
  }

  /** CALLA's pushes: the high and then the low half of PC, each a word
      pushed below SP.  Only SP moves among the registers. */
  function PushReturn(m: Machine): (r: Result<Machine>)
    ensures r.Ok? ==> r.value.regs == m.regs[SP := Minus(Minus(m.regs[SP], 2), 2)]
    ensures var pc, sp := m.regs[PC], m.regs[SP];
      var high := BA.WriteWord(m.bus, AddrOf(Minus(sp, 2)), HighHalf(pc));
      && (r.Ok? <==> high.Ok? && BA.WriteWord(high.value, AddrOf(Minus(Minus(sp, 2), 2)), BA.LowWord(pc)).Ok?)
      && (r.Ok? ==> r.value.bus == BA.WriteWord(high.value, AddrOf(Minus(Minus(sp, 2), 2)), BA.LowWord(pc)).value)
  {
    var m1 :- PushWord(m, HighHalf(m.regs[PC]));
    PushWord(m1, BA.LowWord(m.regs[PC]))
  }

  /** CALLA in handleTypeExt10: PC moves on, its high and then its low half
      are pushed as words, and PC takes the source value.  RETI and any
      other minor opcode are fatal. */
  function RunCalla(m: Machine, instr: Instruction): (r: Result<Machine>)
    ensures !IsCalla(instr.minorOpcode) ==> r == Err(UnimplementedInstruction)
  {
    if !IsCalla(instr.minorOpcode) then Err(UnimplementedInstruction)
    else
      var m1 :- PushReturn(NextPc(m));
      Ok(SetRegister(m1, PC, instr.source.value))
  }

  /** The minor opcodes of the MOVA forms. */
  predicate IsMova(minor: bv16)
  {
    minor in {0x0, 0x1, 0x2, 0x3, 0x6, 0x7, 0x8, 0xC}
  }

  /** handleTypeExt00: MOVA, CMPA, ADDA, SUBA and RRxM by minor opcode. */
  function RunExt00(m: Machine, instr: Instruction): (r: Result<Machine>)
    ensures IsMova(instr.minorOpcode) && IsNop(instr) ==> r == Ok(m)
    ensures instr.minorOpcode > 0xF ==> r == Err(UnimplementedInstruction)
  {
    var minor := instr.minorOpcode;
    if IsMova(minor) then RunMovAsWritten(m, instr)
    else if minor == 0x9 || minor == 0xD then Ok(RunCmp(m, instr))
    else if minor == 0xA || minor == 0xE then RunAdd(m, instr, false)
    else if minor == 0xB || minor == 0xF then RunSub(m, instr, false)
    else if minor == 0x4 || minor == 0x5 then RunRrRl(m, instr)
    else Err(UnimplementedInstruction)
  }

  /** Whether a minor opcode is one of the eight jumps. */
  predicate IsJump(minor: bv16)
  {
    0x20 <= minor <= 0x3C && minor & 0x3 == 0
  }

  /** runCoreMSP430Instruction: dispatch on the minor opcode, which for a
      core instruction is its major opcode.  The 0x00 and 0x10 groups and
      anything unlisted are fatal. */
  function RunCore(m: Machine, instr: Instruction): (r: Result<Machine>)
    ensures instr.minorOpcode < 0x20 ==> r == Err(UnimplementedInstruction)
    ensures IsJump(instr.minorOpcode) ==> r.Ok? && r.value.bus == m.bus
    ensures instr.minorOpcode == IH.OpMov && IsNop(instr) ==> r == Ok(m)
  {
    var minor := instr.minorOpcode;
    if IsJump(minor) then Ok(RunJump(m, instr))
    else if minor == IH.OpMov then RunMovAsWritten(m, instr)
    else if minor == IH.OpAdd then RunAdd(m, instr, false)
    else if minor == IH.OpAddc then RunAdd(m, instr, true)
    else if minor == IH.OpSubc then RunSub(m, instr, true)
    else if minor == IH.OpSub then RunSub(m, instr, false)
    else if minor == IH.OpCmp then Ok(RunCmp(m, instr))
    else if minor == IH.OpDadd then RunDadd(m, instr)
    else if minor == IH.OpBit then RunLogical(m, instr, Bit)
    else if minor == IH.OpBic then RunLogical(m, instr, Bic)
    else if minor == IH.OpBis then RunLogical(m, instr, Bis)
    else if minor == IH.OpXor then RunLogical(m, instr, Xor)
    else if minor == IH.OpAnd then RunLogical(m, instr, And)
    else Err(UnimplementedInstruction)
  }

  /** runExtendedMSP430Instruction: dispatch on the major opcode of the first
      word.  A 0x1C extension word is not handled and is fatal. */
  function RunExtended(m: Machine, instr: Instruction): (r: Result<Machine>)
    ensures instr.majorOpcode !in {IH.Major00, IH.Major10, IH.Major14, IH.Major18} ==>
      r == Err(UnimplementedInstruction)
  {
    var major := instr.majorOpcode;
    if major == IH.Major00 then RunExt00(m, instr)
    else if major == IH.Major10 then RunCalla(m, instr)
    else if major == IH.Major14 then RunPushPop(m, instr)
    else if major == IH.Major18 then RunCore(m, instr)
    else Err(UnimplementedInstruction)
  }

  /** runOneInstruction. */
  function RunOne(m: Machine, instr: Instruction): (r: Result<Machine>)
    ensures IsNop(instr) && instr.minorOpcode == IH.OpMov && (!instr.extended || instr.majorOpcode == IH.Major18) ==>
      r == Ok(m)
  {
    if instr.extended then RunExtended(m, instr) else RunCore(m, instr)
  }

  /** One instruction: decodeInstruction, then runOneInstruction on the
      registers as decoding left them. */
  function Step(m: Machine): (r: Result<Machine>)
    ensures D.Fetch(m.regs, m.bus) == Ok(0) ==> r == Err(ZeroInstruction)
  {
    var d :- D.Decode(m.regs, m.bus);
    RunOne(Machine(d.regs, m.bus), d.instr)
  }

  /** The inner loop of run: the instruction at `initialPc` is decoded and
      run again, with PC put back before each further round, until the
      count is reached; the count is read afresh from each decode. */
  function Repeat(m: Machine, initialPc: bv32, k: nat): (r: Result<Machine>)
    requires k <= 15
    decreases 16 - k
  {
    var d :- D.Decode(m.regs, m.bus);
    var m1 :- RunOne(Machine(d.regs, m.bus), d.instr);
    if k < d.instr.repetition as int then Repeat(SetRegister(m1, PC, initialPc), initialPc, k + 1)
    else Ok(m1)
  }

  /** One pass of run's outer loop: an instruction with its repetitions. */
  function RunRound(m: Machine): (r: Result<Machine>)
  {
    Repeat(m, m.regs[PC], 0)
  }

  /** Once the count read from the decode is reached, the loop ends with
      one more step; a failed decode ends it with an error. */
  lemma RepeatLastRound(m: Machine, initialPc: bv32, k: nat)
    requires k <= 15
    ensures D.Decode(m.regs, m.bus).Err? ==> Repeat(m, initialPc, k).Err?
    ensures D.Decode(m.regs, m.bus).Ok? && D.Decode(m.regs, m.bus).value.instr.repetition as int <= k ==>
      Repeat(m, initialPc, k) == Step(m)
  {
  }

  /** A round whose first step fails fails. */
  lemma RoundStopsOnFault(m: Machine)
    ensures Step(m).Err? ==> RunRound(m).Err?
  {
  }

  // Properties of the handlers.

  /** `JMP $` (offset field -1) leaves the machine exactly as it was. */
  lemma JumpToSelf(m: Machine, instr: Instruction)
    requires instr.minorOpcode == IH.OpJmp && instr.raw0 & 0x3FF == 0x3FF
    ensures RunJump(m, instr) == m
  {
    ConditionPairs(IH.OpJmp, m.regs[SR], FlagsOf(m.regs[SR]));
    JumpTargets(m.regs[PC], instr.raw0);
    assert RunJump(m, instr).regs == m.regs;
  }

  /** The flags CMP computes: those of destination minus source on the
      destination's width, with Z set exactly when the two agree there. */
  function CmpFlags(dst: bv32, src: bv32, ws: WordSize): (f: Flags)
    ensures f.z <==> AgreeOn(dst, src, Mask(ws))
  {
    SubZeroIsEquality(dst, src, Mask(ws));
    SubFlags(dst, src, dst - src, Mask(ws))
  }

  /** CMP changes nothing but SR and PC: SR takes CMP's flags and keeps its
      other bits, and PC moves past the instruction. */
  lemma CmpOnlySetsFlags(m: Machine, instr: Instruction)
    ensures var m' := RunCmp(m, instr);
      && m'.bus == m.bus
      && m'.regs == IncPc(m.regs[SR := WithFlags(m.regs[SR], CmpFlags(instr.destination.value, instr.source.value, instr.destination.wordSize))])
      && FlagsOf(m'.regs[SR]) == CmpFlags(instr.destination.value, instr.source.value, instr.destination.wordSize)
      && m'.regs[SR] & 0xFFFF_FEF8 == m.regs[SR] & 0xFFFF_FEF8
  {
    var m1 := SetStatus(m, m.regs[SR], CmpFlags(instr.destination.value, instr.source.value, instr.destination.wordSize));
    assert RunCmp(m, instr) == NextPc(m1);
    assert RunCmp(m, instr).regs[SR] == m1.regs[SR];
  }

  /** ADD and ADDC into a register other than PC and SR: the register takes
      the 32-bit sum, SR takes the flags of that sum at the destination's
      width (see AddSumCarriesOut for their C), and no other register but PC
      (moved on) changes. */
  lemma AddIntoRegister(m: Machine, instr: Instruction, isAddc: bool)
    requires instr.destination.addrMode == Register
    requires instr.destination.reg != PC && instr.destination.reg != SR
    ensures RunAdd(m, instr, isAddc).Ok?
    ensures var ws, dst, src := instr.destination.wordSize, instr.destination.value, instr.source.value;
      var sum := AddSum(dst, src, m.regs[SR], isAddc);
      var m' := RunAdd(m, instr, isAddc).value;
      && m'.bus == m.bus
      && m'.regs[instr.destination.reg] == sum
      && m'.regs[PC] == m.regs[PC] + 2
      && FlagsOf(m'.regs[SR]) == AddFlags(dst, src, sum, Mask(ws))
      && forall i :: 0 <= i < 16 && i != PC && i != SR && i != instr.destination.reg ==> m'.regs[i] == m.regs[i]
  {
    var ws, dst, src := instr.destination.wordSize, instr.destination.value, instr.source.value;
    var sum := AddSum(dst, src, m.regs[SR], isAddc);
    var m1 := RegisterWrite(m, instr.destination.reg, sum, true);
    var f := AddFlags(dst, src, sum, Mask(ws));
    assert RunAdd(m, instr, isAddc) == Ok(SetStatus(m1, m.regs[SR], f));
  }

  /** ADD's and ADDC's carry on operands of the width is the carry out of
      the width. */
  lemma AddSumCarriesOut(dst: bv32, src: bv32, sr: bv32, isAddc: bool, ws: WordSize)
    requires dst <= Mask(ws) && src <= Mask(ws)
    ensures var sum := AddSum(dst, src, sr, isAddc);
      AddFlags(dst, src, sum, Mask(ws)).c <==> sum & (Mask(ws) + 1) != 0
  {
    AddCarryIsCarryOut(dst, src, CarryAddend(sr, isAddc), AddSum(dst, src, sr, isAddc), ws);
  }

  /** SUB into a register other than PC and SR: the register takes the
      difference and SR the subtraction flags of it, PC moves on and no
      other register changes; SubWithoutBorrow says what that difference
      and its Z and C flags are. */
  lemma SubIntoRegister(m: Machine, instr: Instruction)
    requires instr.destination.addrMode == Register
    requires instr.destination.reg != PC && instr.destination.reg != SR
    ensures RunSub(m, instr, false).Ok?
    ensures var mask, dst, src := Mask(instr.destination.wordSize), instr.destination.value, instr.source.value;
      var m' := RunSub(m, instr, false).value;
      var value := Difference(dst, src, mask, m.regs[SR], false);
      && m'.bus == m.bus
      && m'.regs[instr.destination.reg] == value
      && m'.regs[PC] == m.regs[PC] + 2
      && FlagsOf(m'.regs[SR]) == SubFlags(dst, src, value, mask)
      && forall i :: 0 <= i < 16 && i != PC && i != SR && i != instr.destination.reg ==> m'.regs[i] == m.regs[i]
  {
    var mask, dst, src, reg := Mask(instr.destination.wordSize), instr.destination.value, instr.source.value, instr.destination.reg;
    var value := Difference(dst, src, mask, m.regs[SR], false);
    var m1 := RegisterWrite(m, reg, value, true);
    var f := SubFlags(dst, src, value, mask);
    assert RunSub(m, instr, false) == Ok(SetStatus(m1, m.regs[SR], f));
  }

  /** SUB's difference is the destination less the source cut to the
      width; Z is set exactly when the operands agree on that width and C
      exactly when the destination is not below the source. */
  lemma SubWithoutBorrow(dst: bv32, src: bv32, sr: bv32, ws: WordSize)
    ensures Difference(dst, src, Mask(ws), sr, false) == (dst - src) & Mask(ws)
    ensures SubFlags(dst, src, Difference(dst, src, Mask(ws), sr, false), Mask(ws)).z <==> AgreeOn(dst, src, Mask(ws))
    ensures SubFlags(dst, src, Difference(dst, src, Mask(ws), sr, false), Mask(ws)).c <==> dst >= src
  {
    SubZeroIsEquality(dst, src, Mask(ws));
  }

  /** The groups runOneInstruction cannot run: a core instruction of the 0x00
      or 0x10 group, and anything behind a 0x1C extension word. */
  lemma UnhandledGroupsFault(m: Machine, instr: Instruction)
    ensures !instr.extended && (instr.minorOpcode == 0x00 || instr.minorOpcode == 0x10) ==>
      RunOne(m, instr) == Err(UnimplementedInstruction)
    ensures instr.extended && instr.majorOpcode == IH.Major1C ==>
      RunOne(m, instr) == Err(UnimplementedInstruction)
  {
  }

  /** An instruction without an extension word is run once per round of
      run's loop. */
  lemma RunRoundOnce(m: Machine)
    requires D.Fetch(m.regs, m.bus).Ok?
    requires IH.DecodeMajorOpcode(D.Fetch(m.regs, m.bus).value) != IH.Major18
    requires IH.DecodeMajorOpcode(D.Fetch(m.regs, m.bus).value) != IH.Major1C
    ensures RunRound(m) == Step(m)
  {
    if D.Decode(m.regs, m.bus).Ok? {
      D.RepetitionOnlyExtended(m.regs, m.bus);
    }
  }

  /** CMP sets Z exactly when the operands agree on the destination's
      width. */
  lemma CmpZeroIsEquality(m: Machine, instr: Instruction)
    ensures FlagsOf(RunCmp(m, instr).regs[SR]).z
      <==> AgreeOn(instr.destination.value, instr.source.value, Mask(instr.destination.wordSize))
  {
    CmpOnlySetsFlags(m, instr);
  }

  /** DADD into a register other than PC and SR: the register takes addBCD
      of the operands, which stays within the width, SR the DADD flags of
      that value, PC moves on and nothing else changes.  Alu.DaddFlagsOfValue
      says what those flags are, and Alu.AddBcdAsWrittenDiffers what addBCD
      gives on sample operands. */
  lemma DaddIntoRegister(m: Machine, instr: Instruction)
    requires instr.source.wordSize == instr.destination.wordSize
    requires instr.destination.addrMode == Register
    requires instr.destination.reg != PC && instr.destination.reg != SR
    ensures RunDadd(m, instr).Ok?
    ensures var ws := instr.destination.wordSize;
      var value := AddBcd(instr.source.value, instr.destination.value, ws);
      var m' := RunDadd(m, instr).value;
      && m'.bus == m.bus
      && m'.regs[instr.destination.reg] == value && value <= Mask(ws)
      && m'.regs[PC] == m.regs[PC] + 2
      && FlagsOf(m'.regs[SR]) == DaddFlags(m.regs[SR], value, Mask(ws))
      && forall i :: 0 <= i < 16 && i != PC && i != SR && i != instr.destination.reg ==> m'.regs[i] == m.regs[i]
  {
    var ws := instr.destination.wordSize;
    var sr := m.regs[SR];
    var value := AddBcd(instr.source.value, instr.destination.value, ws);
    var m1 := RegisterWrite(m, instr.destination.reg, value, true);
    assert RunDadd(m, instr) == Ok(SetStatus(m1, sr, DaddFlags(sr, value, Mask(ws))));
  }

  /** DADD never sets C and keeps V, whatever it writes and wherever. */
  lemma DaddClearsCarry(m: Machine, instr: Instruction)
    requires RunDadd(m, instr).Ok?
    ensures var sr' := RunDadd(m, instr).value.regs[SR];
      !FlagsOf(sr').c && FlagsOf(sr').v == FlagsOf(m.regs[SR]).v
  {
    DaddNeverCarries(m.regs[SR], instr.source.value, instr.destination.value, instr.source.wordSize);
  }

  /** BIC and BIS leave SR alone unless SR is their destination register. */
  lemma BicBisKeepStatus(m: Machine, instr: Instruction, op: LogicOp)
    requires op == Bic || op == Bis
    requires RunLogical(m, instr, op).Ok?
    requires !(instr.destination.addrMode == Register && instr.destination.reg == SR)
    ensures RunLogical(m, instr, op).value.regs[SR] == m.regs[SR]
  {
  }

  /** After BIT, XOR and AND, C is the complement of Z, and Z is set exactly
      when the whole result is zero. */
  lemma LogicalCarryIsNotZero(m: Machine, instr: Instruction, op: LogicOp)
    requires UpdatesStatus(op)
    requires RunLogical(m, instr, op).Ok?
    ensures var f := FlagsOf(RunLogical(m, instr, op).value.regs[SR]);
      && f.c == !f.z
      && (f.z <==> Apply(op, instr.destination.value, instr.source.value) == 0)
  {
  }

  /** RRCM, RRAM, RLAM and RRUM leave a value of the destination's width in
      the destination register, and change no other register but PC and SR
      and nothing on the bus. */
  lemma RrRlKeepsWidth(m: Machine, instr: Instruction)
    requires RunRrRl(m, instr).Ok?
    requires instr.destination.reg != PC && instr.destination.reg != SR
    ensures var m' := RunRrRl(m, instr).value;
      && m'.bus == m.bus
      && m'.regs[instr.destination.reg] == Rotated(m, instr)
      && Within(m'.regs[instr.destination.reg], Mask(instr.destination.wordSize))
      && forall i :: 0 <= i < 16 && i != PC && i != SR && i != instr.destination.reg ==> m'.regs[i] == m.regs[i]
  {
    var value := Rotated(m, instr);
    var m1 := NextPc(SetRegister(m, instr.destination.reg, value));
    assert m1.regs[instr.destination.reg] == value;
  }

  /** A stack pointer moved down `k` slots of `width` bytes, one at a
      time with 32-bit wrap-around. */
  function Lowered(sp: bv32, k: nat, width: nat): bv32
    requires width == 2 || width == 4
    decreases k
  {
    if k == 0 then sp else Lowered(Minus(sp, SlotSize(width)), k - 1, width)
  }

  /** A stack pointer moved up `k` slots of `width` bytes. */
  function Raised(sp: bv32, k: nat, width: nat): bv32
    requires width == 2 || width == 4
    decreases k
  {
    if k == 0 then sp else Raised(Plus(sp, SlotSize(width)), k - 1, width)
  }

  /** One successful PUSHM round, unfolded: it is a PushSlot of register
      `top - i` followed by the remaining rounds. */
  lemma PushFromStep(m: Machine, top: int, count: int, i: int, width: nat)
    requires width == 2 || width == 4
    requires i < count && PushFrom(m, top, count, i, width).Ok?
    ensures 0 <= top - i <= 15 && PushSlot(m, top - i, width).Ok?
    ensures var m1 := PushSlot(m, top - i, width).value;
      && m1.regs == m.regs[SP := Minus(m.regs[SP], SlotSize(width))]
      && PushFrom(m, top, count, i, width) == PushFrom(m1, top, count, i + 1, width)
  {
  }

  /** PUSHM rounds move SP down one slot each and change no other register. */
  lemma {:induction false} PushFromMovesStack(m: Machine, top: int, count: int, i: int, width: nat)
    requires width == 2 || width == 4
    requires PushFrom(m, top, count, i, width).Ok?
    ensures PushFrom(m, top, count, i, width).value.regs
      == m.regs[SP := Lowered(m.regs[SP], if i < count then count - i else 0, width)]
    decreases count - i
  {
    if i < count {
      PushFromStep(m, top, count, i, width);
      var m1 := PushSlot(m, top - i, width).value;
      PushFromMovesStack(m1, top, count, i + 1, width);
      assert Lowered(m.regs[SP], count - i, width) == Lowered(Minus(m.regs[SP], SlotSize(width)), count - (i + 1), width);
    } else {
      assert m.regs[SP := m.regs[SP]] == m.regs;
    }
  }

  /** The rounds of a POPM whose registers do not wrap past index 255. */
  predicate PopRounds(first: int, count: int, i: int, width: nat)
  {
    (width == 2 || width == 4) && first >= 0 && i >= 0 && first + count <= 256
  }

  /** One successful POPM round, unfolded: it is a PopSlot into register
      `first + i` followed by the remaining rounds. */
  lemma PopFromStep(m: Machine, first: int, count: int, i: int, width: nat)
    requires PopRounds(first, count, i, width) && i < count && PopFrom(m, first, count, i, width).Ok?
    ensures 0 <= first + i <= 15 && PopSlot(m, first + i, width).Ok?
    ensures PopFrom(m, first, count, i, width) == PopFrom(PopSlot(m, first + i, width).value, first, count, i + 1, width)
  {
    assert (first + i) % 256 == first + i;
  }

  /** POPM rounds read the bus without changing it. */
  lemma {:induction false} PopFromKeepsBus(m: Machine, first: int, count: int, i: int, width: nat)
    requires PopRounds(first, count, i, width) && PopFrom(m, first, count, i, width).Ok?
    ensures PopFrom(m, first, count, i, width).value.bus == m.bus
    decreases count - i
  {
    if i < count {
      PopFromStep(m, first, count, i, width);
      var m1 := PopSlot(m, first + i, width).value;
      PopFromKeepsBus(m1, first, count, i + 1, width);
    }
  }

  /** POPM rounds leave register `j` alone when it is neither popped nor
      SP. */
  lemma {:induction false} PopFromKeeps(m: Machine, first: int, count: int, i: int, width: nat, j: RegIdx)
    requires PopRounds(first, count, i, width) && PopFrom(m, first, count, i, width).Ok?
    requires j != SP && !(first + i <= j < first + count)
    ensures PopFrom(m, first, count, i, width).value.regs[j] == m.regs[j]
    decreases count - i
  {
    if i < count {
      PopFromStep(m, first, count, i, width);
      var m1 := PopSlot(m, first + i, width).value;
      assert m1.regs[j] == m.regs[j];
      PopFromKeeps(m1, first, count, i + 1, width, j);
    }
  }

  /** Unless SP is itself popped, POPM rounds move SP up one slot each. */
  lemma {:induction false} PopFromRaisesStack(m: Machine, first: int, count: int, i: int, width: nat)
    requires PopRounds(first, count, i, width) && PopFrom(m, first, count, i, width).Ok?
    requires !(first + i <= SP < first + count)
    ensures PopFrom(m, first, count, i, width).value.regs[SP] == Raised(m.regs[SP], if i < count then count - i else 0, width)
    decreases count - i
  {
    if i < count {
      PopFromStep(m, first, count, i, width);
      PopSlotEffect(m, first + i, width);
      var m1 := PopSlot(m, first + i, width).value;
      assert m1.regs[SP] == Plus(m.regs[SP], SlotSize(width));
      PopFromRaisesStack(m1, first, count, i + 1, width);
      assert Raised(m.regs[SP], count - i, width) == Raised(m1.regs[SP], count - (i + 1), width);
    }
  }

  /** PUSHM moves SP down by the pushed slots and PC past the instruction,
      and changes no other register. */
  lemma PushmMovesStack(m: Machine, instr: Instruction)
    requires instr.minorOpcode == 0x14 || instr.minorOpcode == 0x15
    requires RunPushPop(m, instr).Ok?
    ensures RunPushPop(m, instr).value.regs
      == IncPc(m.regs[SP := Lowered(m.regs[SP], instr.source.value as int + 1, StackWidth(instr.minorOpcode))])
  {
    PushFromMovesStack(m, instr.destination.value as int, instr.source.value as int + 1, 0,
                       StackWidth(instr.minorOpcode));
  }

  /** A POPM whose count and register fields fit their four bits is the
      loop of POPM rounds from R`first`, then PC moving on. */
  lemma PopmRounds(m: Machine, instr: Instruction)
    requires instr.minorOpcode == 0x16 || instr.minorOpcode == 0x17
    requires instr.destination.value <= 15 && instr.source.value <= 15
    ensures var first, count := instr.destination.value as int, instr.source.value as int + 1;
      && PopRounds(first, count, 0, StackWidth(instr.minorOpcode))
      && RunPushPop(m, instr) == MovedOn(PopFrom(m, first, count, 0, StackWidth(instr.minorOpcode)))
  {
  }

  /** POPM leaves the bus alone, and register `j` too when it is neither
      popped, SP nor PC. */
  lemma PopmFrame(m: Machine, instr: Instruction, j: RegIdx)
    requires instr.minorOpcode == 0x16 || instr.minorOpcode == 0x17
    requires instr.destination.value <= 15 && instr.source.value <= 15
    requires RunPushPop(m, instr).Ok?
    ensures RunPushPop(m, instr).value.bus == m.bus
    ensures j != SP && j != PC && !(instr.destination.value as int <= j <= (instr.destination.value + instr.source.value) as int) ==>
      RunPushPop(m, instr).value.regs[j] == m.regs[j]
  {
    var first, count, width := instr.destination.value as int, instr.source.value as int + 1, StackWidth(instr.minorOpcode);
    PopmRounds(m, instr);
    PopFromKeepsBus(m, first, count, 0, width);
    if j != SP && j != PC && !(first <= j < first + count) {
      PopFromKeeps(m, first, count, 0, width, j);
    }
  }

  /** Moving PC on is forgotten once PC is set. */
  lemma IncPcOverwritten(regs: Regs, sp: bv32, pc: bv32)
    ensures IncPc(regs)[SP := sp][PC := pc] == regs[SP := sp][PC := pc]
  {
  }

  /** CALLA moves SP down two words and PC to the target, and changes no
      other register. */
  lemma CallaSetsPcAndStack(m: Machine, instr: Instruction)
    requires RunCalla(m, instr).Ok?
    ensures RunCalla(m, instr).value.regs == m.regs[SP := Minus(Minus(m.regs[SP], 2), 2)][PC := instr.source.value]
  {
    var m1 := PushReturn(NextPc(m)).value;
    assert RunCalla(m, instr).value.regs == IncPc(m.regs)[SP := Minus(Minus(m.regs[SP], 2), 2)][PC := instr.source.value];
    IncPcOverwritten(m.regs, Minus(Minus(m.regs[SP], 2), 2), instr.source.value);
  }

  /** What CALLA leaves on a stack in memory: PC past the instruction, its
      low half at the new SP and its high half in the word above. */
  lemma CallaPushesReturn(m: Machine, instr: Instruction)
    requires RunCalla(m, instr).Ok?
    requires var high, low := AddrOf(Minus(m.regs[SP], 2)), AddrOf(Minus(Minus(m.regs[SP], 2), 2));
      && Bus.Owner(high) == Bus.MemoryId && Bus.Owner(low) == Bus.MemoryId && high == low + 2
    ensures var pc, sp := m.regs[PC] + 2, RunCalla(m, instr).value.regs[SP];
      var bus := RunCalla(m, instr).value.bus;
      && sp == Minus(Minus(m.regs[SP], 2), 2)
      && BA.ReadWord(bus, AddrOf(sp)) == Ok(BA.LowWord(pc))
      && BA.ReadWord(bus, AddrOf(sp) + 2) == Ok(HighHalf(pc))
  {
    var pc, sp := m.regs[PC] + 2, m.regs[SP];
    var high, low := AddrOf(Minus(sp, 2)), AddrOf(Minus(Minus(sp, 2), 2));
    var m0 := NextPc(m);
    assert m0.regs[PC] == pc && m0.regs[SP] == sp && m0.bus == m.bus;
    var bus1 := BA.WriteWord(m.bus, high, HighHalf(pc)).value;
    var bus2 := BA.WriteWord(bus1, low, BA.LowWord(pc)).value;
    assert RunCalla(m, instr).value.bus == bus2;
    BA.MemoryWordRoundTrip(m.bus, high, HighHalf(pc));
    BA.MemoryWordRoundTrip(bus1, low, BA.LowWord(pc));
    BA.MemoryWordWriteKeepsOthers(bus1, low, high, BA.LowWord(pc));
  }

  /** `MOV #0, SR` as written returns from the NOP branch without moving PC:
      the machine after the step is the machine before it, so the same word
      is fetched and run again for ever. */
  lemma StatusClearHangsAsWritten(m: Machine)
    requires D.Fetch(m.regs, m.bus) == Ok(0x4302)
    ensures Step(m) == Ok(m)
  {
    D.MovZeroToStatusDecodes(m.regs, m.bus);
    var d := D.Decode(m.regs, m.bus).value;
    assert IsNop(d.instr) && d.regs == m.regs;
    assert RunCore(Machine(d.regs, m.bus), d.instr) == RunMovAsWritten(Machine(d.regs, m.bus), d.instr);
  }

  /** With the NOP branch removed, `MOV #0, SR` as decoded clears SR, moves
      PC past it and changes nothing else. */
  lemma StatusClearMovesOn(m: Machine)
    requires D.Fetch(m.regs, m.bus) == Ok(0x4302)
    ensures D.Decode(m.regs, m.bus).Ok?
    ensures var d := D.Decode(m.regs, m.bus).value;
      RunMov(Machine(d.regs, m.bus), d.instr) == Ok(Machine(IncPc(m.regs)[SR := 0], m.bus))
  {
    D.MovZeroToStatusDecodes(m.regs, m.bus);
  }
}
