/** The CPU object (class MSP430): sixteen 32-bit registers updated in place
    and the devices manager behind the bus.  Every method performs the steps
    of its namesake in MSP430.cpp on the register array and the devices, and
    is proved to leave them as the functions of the Decoder and Executor
    modules say.  After a fault the source stops on a failed assertion, so
    the state a method leaves behind when it returns an error is not
    specified. */
module Cpu {
  import opened Types
  import IH = InstructionHelper
  import opened Alu
  import BA = BusAccess
  import D = Decoder
  import E = Executor
  import DMC = DevicesManagerClass
  import W = WatchdogDevice

  /** addBCD's nibble mask moves up by one digit per round. */
  lemma NextNibble(i: nat, currentMask: bv32)
    requires i < 5 && currentMask == NibbleMask(i)
    ensures currentMask << 4 == NibbleMask(i + 1)
  {
  }

  /** addBCD's loop stops exactly after the rounds of the width. */
  lemma NibbleRoundsEnd(i: nat, ws: WordSize, currentMask: bv32, mask: bv32)
    requires i <= BcdRounds(ws) && currentMask == NibbleMask(i) && mask == Mask(ws)
    ensures currentMask <= mask <==> i < BcdRounds(ws)
  {
  }

  /** One round of PUSHM's loop, unfolded. */
  lemma PushFromUnfolds(m: E.Machine, top: int, count: int, i: int, width: nat)
    requires (width == 2 || width == 4) && i < count
    ensures !(0 <= top - i <= 15) ==> E.PushFrom(m, top, count, i, width) == Err(RegisterOutOfRange)
    ensures 0 <= top - i <= 15 ==>
      var s := E.PushSlot(m, top - i, width);
      E.PushFrom(m, top, count, i, width) == (if s.Ok? then E.PushFrom(s.value, top, count, i + 1, width) else Err(s.error))
  {
  }

  class Msp430 {
    const registers: array<bv32>
    const devices: DMC.DevicesManager

    ghost predicate Valid()
      reads this, devices, devices.memory
    {
      registers.Length == 16 && devices.Valid()
    }

    /** The machine state the Executor functions work on. */
    ghost function State(): E.Machine
      reads this, registers, devices, devices.memory, devices.memory.cells, devices.watchdog, devices.ports
      requires Valid()
    {
      E.Machine(registers[..], devices.Snapshot())
    }

    /** An operand resolved in place agrees with the resolution `s` the
        Decoder computes: same outcome, same operand, same registers. */
    ghost predicate Resolves(r: Result<Operand>, s: Result<D.Resolved>)
      reads this, registers, devices, devices.memory
      requires Valid()
    {
      && (r.Ok? <==> s.Ok?)
      && (r.Err? ==> r.error == s.error)
      && (s.Ok? ==> r.value == s.value.opd && registers[..] == s.value.regs)
    }

    /** An instruction decoded in place agrees with the Decoder's `s`. */
    ghost predicate Decodes(r: Result<Instruction>, s: Result<D.Decoded>)
      reads this, registers, devices, devices.memory
      requires Valid()
    {
      && (r.Ok? <==> s.Ok?)
      && (r.Err? ==> r.error == s.error)
      && (s.Ok? ==> r.value == s.value.instr && registers[..] == s.value.regs)
    }

    /** A handler run in place agrees with the Executor's outcome `s`. */
    ghost predicate Follows(r: Result<()>, s: Result<E.Machine>)
      reads this, registers, devices, devices.memory, devices.memory.cells, devices.watchdog, devices.ports
      requires Valid()
    {
      && (r.Ok? <==> s.Ok?)
      && (r.Err? ==> r.error == s.error)
      && (s.Ok? ==> State() == s.value)
    }

    /** The constructor: the devices manager is built, then resetRegisters
        clears every register and sets SP and PC. */
    constructor (initialOuts: seq<bv8>)
      requires |initialOuts| == 8
      ensures Valid() && fresh(registers)
      ensures State().regs == ResetRegs()
      ensures State().bus.wdtctl == W.WdtctlReset
    {
      devices := new DMC.DevicesManager(initialOuts);
      registers := new bv32[16];
      new;
      ResetRegisters();
    }

    /** resetRegisters: every register cleared, then SP and PC set. */
    method ResetRegisters()
      requires Valid()
      modifies registers
      ensures Valid()
      ensures devices.Snapshot() == old(devices.Snapshot())
      ensures State() == E.Machine(ResetRegs(), old(State().bus))
    {
      forall i | 0 <= i < 16 {
        registers[i] := 0;
      }
      SetRegister(SP, 0x2de0);
      SetRegister(PC, 0x471c);
    }

    /** setRegister. */
    method SetRegister(r: RegIdx, v: bv32)
      requires Valid()
      modifies registers
      ensures Valid()
      ensures devices.Snapshot() == old(devices.Snapshot())
      ensures registers[..] == old(registers[..])[r := v]
    {
      registers[r] := v;
    }

    /** regInc: the register moves by `v`, modulo 2^32. */
    method RegInc(r: RegIdx, v: bv32)
      requires Valid()
      modifies registers
      ensures Valid()
      ensures devices.Snapshot() == old(devices.Snapshot())
      ensures registers[..] == old(registers[..])[r := Plus(old(registers[r]), v)]
    {
      registers[r] := registers[r] + v;
    }

    /** regIncPc. */
    method RegIncPc()
      requires Valid()
      modifies registers
      ensures Valid()
      ensures devices.Snapshot() == old(devices.Snapshot())
      ensures registers[..] == IncPc(old(registers[..]))
    {
      RegInc(PC, 2);
    }

    /** fetch: the word at PC. */
    method Fetch() returns (r: Result<bv16>)
      requires Valid()
      ensures r == D.Fetch(State().regs, State().bus)
    {
      r := devices.ReadWord(registers[PC] as int);
    }

    /** A bus read of an operand's width, masked to that width. */
    method ReadOperand(a: bv32, ws: WordSize) returns (r: Result<bv32>)
      requires Valid()
      ensures r == D.ReadOperand(State().bus, a, ws)
    {
      var v := devices.Read(a as int, IH.WordSizeToBytes(ws));
      if v.Err? {
        return Err(v.error);
      }
      r := Ok(Truncated(v.value, ws));
    }

    /** The first step of updateInstructionValue: when the mode and the
        operand call for an extension word, PC moves on and the value is
        extended with the word fetched there. */
    method ExtendOperand(opd: Operand) returns (r: Result<Operand>)
      requires Valid()
      modifies registers
      ensures Valid()
      ensures devices.Snapshot() == old(devices.Snapshot())
      ensures Resolves(r, D.ExtendValue(opd, old(State().regs), State().bus))
    {
      if D.FetchesExtraWord(opd) && opd.needUpdateValue {
        RegIncPc();
        var w := Fetch();
        if w.Err? {
          return Err(w.error);
        }
        return Ok(opd.(value := (opd.value << 16) | w.value as bv32));
      }
      r := Ok(opd);
    }

    /** An operand read from memory at `a`. */
    method ReadAt(o: Operand, a: bv32) returns (r: Result<Operand>)
      requires Valid()
      ensures Resolves(r, D.ReadAt(o, a, State().regs, State().bus))
    {
      var v := ReadOperand(a, o.wordSize);
      if v.Err? {
        return Err(v.error);
      }
      r := Ok(o.(address := a, value := v.value));
    }

    /** `@Rn+`: the value read at the address in Rn, then Rn moves on. */
    method ReadIncrement(o: Operand) returns (r: Result<Operand>)
      requires Valid()
      modifies registers
      ensures Valid()
      ensures devices.Snapshot() == old(devices.Snapshot())
      ensures Resolves(r, D.ReadIncrement(o, old(State().regs), State().bus))
    {
      ghost var regs, bus := registers[..], devices.Snapshot();
      var v := ReadOperand(registers[o.reg], o.wordSize);
      if v.Err? {
        return Err(v.error);
      }
      RegInc(o.reg, D.ByteCount(o.wordSize));
      r := Ok(o.(value := v.value));
      assert registers[..] == regs[o.reg := Plus(regs[o.reg], D.ByteCount(o.wordSize))];
      assert D.ReadIncrement(o, regs, bus) == Ok(D.Resolved(r.value, registers[..]));
    }

    /** The mode-by-mode part of updateInstructionValue. */
    method ResolveMode(o: Operand) returns (r: Result<Operand>)
      requires Valid()
      modifies registers
      ensures Valid()
      ensures devices.Snapshot() == old(devices.Snapshot())
      ensures Resolves(r, D.ResolveMode(o, old(State().regs), State().bus))
    {
      match o.addrMode {
        case Register =>
          r := Ok(o.(value := Truncated(registers[o.reg], o.wordSize)));
        case Indexed =>
          r := ReadAt(o, Plus(registers[o.reg], o.value));
        case Symbolic =>
          r := ReadAt(o, Plus(registers[PC], o.value));
        case Absolute =>
          r := ReadAt(o, o.value);
        case IndirectRegister =>
          r := ReadAt(o, registers[o.reg]);
        case IndirectAutoincrement =>
          r := ReadIncrement(o);
        case Immediate =>
          r := Ok(o);
        case Invalid =>
          r := Ok(o);
      }
    }

    /** updateInstructionValue: the operand extended when due, then resolved
        by mode; its value is kept only when `needUpdateValue` is set. */
    method UpdateInstructionValue(opd: Operand) returns (r: Result<Operand>)
      requires Valid()
      modifies registers
      ensures Valid()
      ensures devices.Snapshot() == old(devices.Snapshot())
      ensures Resolves(r, D.UpdateValue(opd, old(State().regs), State().bus))
    {
      var ext := ExtendOperand(opd);
      if ext.Err? {
        return Err(ext.error);
      }
      var resolved := ResolveMode(ext.value);
      if resolved.Err? {
        return Err(resolved.error);
      }
      if opd.needUpdateValue {
        r := resolved;
      } else {
        r := Ok(resolved.value.(value := opd.value));
      }
    }

    /** updateInstructionSource: a constant-generator source becomes an
        immediate; an unused source is left alone; any other is resolved. */
    method UpdateInstructionSource(src: Operand) returns (r: Result<Operand>)
      requires Valid()
      modifies registers
      ensures Valid()
      ensures devices.Snapshot() == old(devices.Snapshot())
      ensures Resolves(r, D.UpdateSource(src, old(State().regs), State().bus))
    {
      ghost var s := D.UpdateSource(src, registers[..], devices.Snapshot());
      if D.UsesConstantGenerator(src) {
        var cg := IH.ConstantGenerator(src.reg, src.axFlag);
        return Ok(src.(value := cg.value, addrMode := Immediate, usedConstantGenerator := true));
      }
      if src.addrMode == Invalid {
        return Ok(src);
      }
      r := UpdateInstructionValue(src);
    }

    /** updateInstructionDestination: an unused destination is left alone;
        the others are resolved. */
    method UpdateInstructionDestination(dst: Operand) returns (r: Result<Operand>)
      requires Valid() && D.DestinationMode(dst.addrMode)
      modifies registers
      ensures Valid()
      ensures devices.Snapshot() == old(devices.Snapshot())
      ensures Resolves(r, D.UpdateDestination(dst, old(State().regs), State().bus))
    {
      if dst.addrMode == Invalid {
        return Ok(dst);
      }
      r := UpdateInstructionValue(dst);
    }

    /** The group decoders of decodeInstruction by major opcode.  Only an
        extension word changes a register: PC moves on to the second word. */
    method DecodeFields(raw0: bv16) returns (r: Result<Instruction>)
      requires Valid()
      modifies registers
      ensures Valid()
      ensures devices.Snapshot() == old(devices.Snapshot())
      ensures Decodes(r, D.DecodeFields(raw0, old(State().regs), State().bus))
      ensures r.Ok? ==> D.DestinationMode(r.value.destination.addrMode)
    {
      var instr := D.Cleared(raw0);
      var major := instr.majorOpcode;
      if major == IH.Major00 {
        r := Ok(D.Decode00(instr));
      } else if major == IH.Major10 {
        r := D.Decode10(instr);
      } else if major == IH.Major14 {
        r := D.Decode14(instr);
      } else if major == IH.Major18 || major == IH.Major1C {
        var repetition: bv4 := 0;
        if raw0 & 0x80 != 0 {
          var count := registers[D.RegField(raw0, 0)];
          repetition := (count & 0xF) as bv4;
        }
        var zc := raw0 & 0x100 != 0;
        RegIncPc();
        var raw1 := Fetch();
        if raw1.Err? {
          return Err(raw1.error);
        }
        r := D.DecodeCore(instr.(repetition := repetition, zc := zc, raw1 := raw1.value), true);
      } else {
        r := D.DecodeCore(instr, false);
      }
    }

    /** decodeInstruction: fetch at PC, refuse a zero word, decode the
        fields, then resolve the source and then the destination. */
    method DecodeInstruction() returns (r: Result<Instruction>)
      requires Valid()
      modifies registers
      ensures Valid()
      ensures devices.Snapshot() == old(devices.Snapshot())
      ensures Decodes(r, D.Decode(old(State().regs), State().bus))
    {
      ghost var regs0, bus := registers[..], devices.Snapshot();
      var raw0 := Fetch();
      if raw0.Err? {
        return Err(raw0.error);
      }
      if raw0.value == 0 {
        return Err(ZeroInstruction);
      }
      var fields := DecodeFields(raw0.value);
      if fields.Err? {
        return Err(fields.error);
      }
      ghost var f := D.Decoded(fields.value, registers[..]);
      assert D.DecodeFields(raw0.value, regs0, bus) == Ok(f);
      var src := UpdateInstructionSource(fields.value.source);
      if src.Err? {
        return Err(src.error);
      }
      ghost var s := D.Resolved(src.value, registers[..]);
      assert D.UpdateSource(f.instr.source, f.regs, bus) == Ok(s);
      var dst := UpdateInstructionDestination(fields.value.destination);
      if dst.Err? {
        return Err(dst.error);
      }
      assert D.UpdateDestination(f.instr.destination, s.regs, bus) == Ok(D.Resolved(dst.value, registers[..]));
      r := Ok(fields.value.(source := src.value, destination := dst.value));
    }

    /** The status register `sr` with the four arithmetic flags replaced,
        written back to SR. */
    method SetStatus(sr: bv32, f: Flags)
      requires Valid()
      modifies registers
      ensures Valid()
      ensures devices.Snapshot() == old(devices.Snapshot())
      ensures State() == E.SetStatus(old(State()), sr, f)
    {
      SetRegister(SR, WithFlags(sr, f));
    }

    /** instructionWrite: a register destination takes the value, a memory
        destination is written on the bus at its width; then PC moves on,
        except after a write to PC when `alwaysIncPc` is false. */
    method InstructionWrite(dst: Operand, value: bv32, alwaysIncPc: bool) returns (r: Result<()>)
      requires Valid()
      modifies registers, devices.memory.cells, devices.watchdog, devices.ports
      ensures Valid()
      ensures Follows(r, E.InstructionWrite(old(State()), dst, value, alwaysIncPc))
    {
      if dst.addrMode == Register {
        SetRegister(dst.reg, value);
        if alwaysIncPc || dst.reg != PC {
          RegIncPc();
        }
        return Ok(());
      }
      r := devices.Write(E.AddrOf(dst.address), value, IH.WordSizeToBytes(dst.wordSize));
      if r.Err? {
        return;
      }
      RegIncPc();
    }

    /** runJumpInstruction. */
    method RunJump(instr: Instruction)
      requires Valid()
      modifies registers
      ensures Valid()
      ensures State() == E.RunJump(old(State()), instr)
    {
      var sr := registers[SR];
      if CheckCondition(instr.minorOpcode, sr) {
        var pc := registers[PC];
        SetRegister(PC, JumpTarget(pc, instr.raw0));
      } else {
        RegIncPc();
      }
    }

    /** runMovInstruction as written: the NOP form returns at once and
        leaves everything, PC included, as it was. */
    method RunMovAsWritten(instr: Instruction) returns (r: Result<()>)
      requires Valid()
      modifies registers, devices.memory.cells, devices.watchdog, devices.ports
      ensures Valid()
      ensures Follows(r, E.RunMovAsWritten(old(State()), instr))
    {
      if E.IsNop(instr) {
        return Ok(());
      }
      r := InstructionWrite(instr.destination, instr.source.value, false);
    }

    /** runMovInstruction without the NOP branch: the corrected MOV of the
        README's findings. */
    method RunMov(instr: Instruction) returns (r: Result<()>)
      requires Valid()
      modifies registers, devices.memory.cells, devices.watchdog, devices.ports
      ensures Valid()
      ensures Follows(r, E.RunMov(old(State()), instr))
    {
      r := InstructionWrite(instr.destination, instr.source.value, false);
    }

    /** runAddInstruction. */
    method RunAdd(instr: Instruction, isAddc: bool) returns (r: Result<()>)
      requires Valid()
      modifies registers, devices.memory.cells, devices.watchdog, devices.ports
      ensures Valid()
      ensures Follows(r, E.RunAdd(old(State()), instr, isAddc))
    {
      ghost var m := State();
      var sr := registers[SR];
      var dst, src := instr.destination.value, instr.source.value;
      var value := E.AddSum(dst, src, sr, isAddc);
      r := InstructionWrite(instr.destination, value, true);
      if r.Err? {
        return;
      }
      ghost var m1 := State();
      assert E.InstructionWrite(m, instr.destination, value, true) == Ok(m1);
      SetStatus(sr, AddFlags(dst, src, value, Mask(instr.destination.wordSize)));
      assert State() == E.SetStatus(m1, sr, AddFlags(dst, src, value, Mask(instr.destination.wordSize)));
    }

    /** runSubInstruction. */
    method RunSub(instr: Instruction, isSubc: bool) returns (r: Result<()>)
      requires Valid()
      modifies registers, devices.memory.cells, devices.watchdog, devices.ports
      ensures Valid()
      ensures Follows(r, E.RunSub(old(State()), instr, isSubc))
    {
      ghost var m := State();
      var mask := Mask(instr.destination.wordSize);
      var sr := registers[SR];
      var dst, src := instr.destination.value, instr.source.value;
      var value := E.Difference(dst, src, mask, sr, isSubc);
      r := InstructionWrite(instr.destination, value, true);
      if r.Err? {
        return;
      }
      ghost var m1 := State();
      assert E.InstructionWrite(m, instr.destination, value, true) == Ok(m1);
      SetStatus(sr, SubFlags(dst, src, value, mask));
      assert State() == E.SetStatus(m1, sr, SubFlags(dst, src, value, mask));
    }

    /** runCmpInstruction: only the flags change, then PC moves on. */
    method RunCmp(instr: Instruction)
      requires Valid()
      modifies registers
      ensures Valid()
      ensures State() == E.RunCmp(old(State()), instr)
    {
      var sr := registers[SR];
      SetStatus(sr, E.CmpFlags(instr.destination.value, instr.source.value, instr.destination.wordSize));
      RegIncPc();
    }

    /** addBCD: nibble masks move up four bits at a time while they stay
        within the width; each round adds the two digits and what earlier
        rounds left under the mask, corrects sums above 9 by 6 and ors the
        sum in. */
    method AddBcd(value1: bv32, value2: bv32, ws: WordSize) returns (r: bv32)
      ensures r == Alu.AddBcd(value1, value2, ws)
    {
      var mask := Mask(ws);
      var result: bv32 := 0;
      var currentMask: bv32 := 0x0F;
      ghost var i := 0;
      ghost var n := BcdRounds(ws);
      while currentMask <= mask
        invariant i <= n && currentMask == NibbleMask(i)
        invariant BcdRoundsFrom(value1, value2, result, i, n) == BcdRoundsFrom(value1, value2, 0, 0, n)
        decreases n - i
      {
        NibbleRoundsEnd(i, ws, currentMask, mask);
        result := BcdRound(value1, value2, result, currentMask);
        NextNibble(i, currentMask);
        currentMask := currentMask << 4;
        i := i + 1;
      }
      NibbleRoundsEnd(i, ws, currentMask, mask);
      r := Truncated(result, ws);
    }

    /** runDaddInstruction. */
    method RunDadd(instr: Instruction) returns (r: Result<()>)
      requires Valid()
      modifies registers, devices.memory.cells, devices.watchdog, devices.ports
      ensures Valid()
      ensures Follows(r, E.RunDadd(old(State()), instr))
    {
      ghost var m := State();
      if instr.source.wordSize != instr.destination.wordSize {
        return Err(OperandSizeMismatch);
      }
      var sr := registers[SR];
      var value := AddBcd(instr.source.value, instr.destination.value, instr.source.wordSize);
      r := InstructionWrite(instr.destination, value, true);
      if r.Err? {
        return;
      }
      ghost var m1 := State();
      assert E.InstructionWrite(m, instr.destination, value, true) == Ok(m1);
      SetStatus(sr, DaddFlags(sr, value, Mask(instr.destination.wordSize)));
      assert State() == E.SetStatus(m1, sr, DaddFlags(sr, value, Mask(instr.destination.wordSize)));
    }

    /** executeLogicalOp. */
    method RunLogical(instr: Instruction, op: E.LogicOp) returns (r: Result<()>)
      requires Valid()
      modifies registers, devices.memory.cells, devices.watchdog, devices.ports
      ensures Valid()
      ensures Follows(r, E.RunLogical(old(State()), instr, op))
    {
      var dst, src := instr.destination.value, instr.source.value;
      var result := E.Apply(op, dst, src);
      r := InstructionWrite(instr.destination, result, true);
      if r.Err? || !E.UpdatesStatus(op) {
        return;
      }
      var isXor := op == E.Xor;
      var sr := registers[SR];
      SetStatus(sr, LogicFlags(result, SignMask(instr.source.wordSize),
                               if isXor then dst else 0, if isXor then src else 0, isXor));
    }

    /** The RRAM loop as written: each round shifts right by one and ors
        the value under the mask back in. */
    method ShiftRightSmearing(d: bv32, mask: bv32, n: nat) returns (r: bv32)
      ensures r == Rram(d, mask, n)
    {
      r := d;
      var i := 0;
      while i < n
        invariant i <= n
        invariant Rram(r, mask, n - i) == Rram(d, mask, n)
      {
        r := (r >> 1) | (r & mask);
        i := i + 1;
      }
    }

    /** The RRAM loop with each round keeping the sign bit: the corrected
        loop of the README's findings. */
    method ShiftRightArithmetic(d: bv32, mask: bv32, n: nat) returns (r: bv32)
      requires IsMask(mask) && Within(d, mask)
      ensures r == Rra(d, mask, n)
    {
      r := d;
      var i := 0;
      while i < n
        invariant i <= n && Within(r, mask)
        invariant Rra(r, mask, n - i) == Rra(d, mask, n)
      {
        r := RraStep(r, mask);
        i := i + 1;
      }
    }

    /** The RLAM loop: each round shifts left within the mask and sets bit 0
        when the bit above the mask is set. */
    method ShiftLeftRounds(d: bv32, mask: bv32, n: nat) returns (r: bv32)
      ensures r == Rlam(d, mask, n)
    {
      r := d;
      var i := 0;
      while i < n
        invariant i <= n
        invariant Rlam(r, mask, n - i) == Rlam(d, mask, n)
      {
        r := RlamStep(r, mask);
        i := i + 1;
      }
    }

    /** The switch on the operation in runRrRlInstruction. */
    method Rotate(id: bv16, d: bv32, mask: bv32, carry: bool, n: nat) returns (value: bv32)
      requires IsMask(mask) && Within(d, mask) && n <= 20
      ensures value == E.RotateResult(id, d, mask, carry, n)
    {
      if id == 0 {
        value := E.Rrcm(d, mask, carry, n);
      } else if id == 1 {
        value := ShiftRightSmearing(d, mask, n);
      } else if id == 2 {
        value := ShiftLeftRounds(d, mask, n);
        RlamIsShift(d, mask, n);
      } else {
        value := E.Rrum(d, mask, n);
      }
    }

    /** The value runRrRlInstruction computes for the destination register. */
    method RotateRegister(instr: Instruction) returns (value: bv32)
      requires Valid()
      requires E.ShiftCount(instr.source.value) <= IH.WordSizeInBits(instr.destination.wordSize)
      ensures value == E.Rotated(State(), instr)
    {
      var d := Truncated(registers[instr.destination.reg], instr.destination.wordSize);
      value := Rotate((instr.raw0 >> 8) & 0x3, d, Mask(instr.destination.wordSize), FlagsOf(registers[SR]).c,
                      E.ShiftCount(instr.source.value));
    }

    /** runRrRlInstruction. */
    method RunRrRl(instr: Instruction) returns (r: Result<()>)
      requires Valid()
      modifies registers
      ensures Valid()
      ensures Follows(r, E.RunRrRl(old(State()), instr))
    {
      var sr := registers[SR];
      var n := E.ShiftCount(instr.source.value);
      var bits := IH.WordSizeInBits(instr.destination.wordSize);
      if n > bits {
        return Err(ShiftOutOfRange);
      }
      ghost var m := State();
      var value := RotateRegister(instr);
      SetRegister(instr.destination.reg, value);
      RegIncPc();
      assert State() == E.NextPc(E.SetRegister(m, instr.destination.reg, value));
      SetStatus(sr, E.RotateFlags(value, instr.source.wordSize, bits, n));
      r := Ok(());
    }

    /** One PUSHM round: SP moves down a slot and the register, read after
        the move, is written there. */
    method PushSlot(reg: RegIdx, width: nat) returns (r: Result<()>)
      requires Valid() && (width == 2 || width == 4)
      modifies registers, devices.memory.cells, devices.watchdog, devices.ports
      ensures Valid()
      ensures Follows(r, E.PushSlot(old(State()), reg, width))
    {
      var sp := Minus(registers[SP], E.SlotSize(width));
      SetRegister(SP, sp);
      var value := registers[reg];
      r := devices.Write(E.AddrOf(sp), value, width);
    }

    /** Round `i` of PUSHM's loop, for a register index in range: on
        success what remains of the loop is unchanged. */
    method PushRound(top: int, count: int, i: int, width: nat) returns (r: Result<()>)
      requires Valid() && (width == 2 || width == 4) && i < count && 0 <= top - i <= 15
      modifies registers, devices.memory.cells, devices.watchdog, devices.ports
      ensures Valid()
      ensures r.Ok? ==> E.PushFrom(State(), top, count, i + 1, width) == E.PushFrom(old(State()), top, count, i, width)
      ensures r.Err? ==> E.PushFrom(old(State()), top, count, i, width) == Err(r.error)
    {
      PushFromUnfolds(State(), top, count, i, width);
      r := PushSlot(top - i, width);
    }

    /** PUSHM's loop: round by round SP moves down a slot and register
        `top - i` is written there; an index outside R0..R15 is fatal. */
    method PushRegisters(top: int, count: int, width: nat) returns (r: Result<()>)
      requires Valid() && (width == 2 || width == 4)
      modifies registers, devices.memory.cells, devices.watchdog, devices.ports
      ensures Valid()
      ensures Follows(r, E.PushFrom(old(State()), top, count, 0, width))
    {
      var i := 0;
      while i < count
        invariant Valid() && i >= 0
        invariant E.PushFrom(State(), top, count, i, width) == E.PushFrom(old(State()), top, count, 0, width)
        decreases count - i
      {
        if !(0 <= top - i <= 15) {
          return Err(RegisterOutOfRange);
        }
        r := PushRound(top, count, i, width);
        if r.Err? {
          return;
        }
        i := i + 1;
      }
      r := Ok(());
    }

    /** POPM's loop: round by round the slot at SP is read into register
        `first + i` (an index beyond R15 is fatal), then SP moves up. */
    method PopRegisters(first: int, count: int, width: nat) returns (r: Result<()>)
      requires Valid() && (width == 2 || width == 4) && first >= 0
      modifies registers
      ensures Valid()
      ensures Follows(r, E.PopFrom(old(State()), first, count, 0, width))
    {
      var i := 0;
      while i < count
        invariant Valid() && i >= 0
        invariant E.PopFrom(State(), first, count, i, width) == E.PopFrom(old(State()), first, count, 0, width)
        decreases count - i
      {
        ghost var m := State();
        var v := devices.Read(E.AddrOf(registers[SP]), width);
        var reg := (first + i) % 256;
        if v.Err? {
          return Err(v.error);
        }
        if reg > 15 {
          return Err(RegisterOutOfRange);
        }
        SetRegister(reg, v.value);
        RegInc(SP, E.SlotSize(width));
        assert E.PopSlot(m, reg, width) == Ok(State());
        i := i + 1;
      }
      r := Ok(());
    }

    /** runPushPopInstruction: `n - 1` is the source value and the register
        the destination value; PC moves on after the last round. */
    method RunPushPop(instr: Instruction) returns (r: Result<()>)
      requires Valid()
      modifies registers, devices.memory.cells, devices.watchdog, devices.ports
      ensures Valid()
      ensures Follows(r, E.RunPushPop(old(State()), instr))
    {
      var minor := instr.minorOpcode;
      var width := E.StackWidth(minor);
      var count := instr.source.value as int + 1;
      var reg := instr.destination.value as int;
      if minor == 0x14 || minor == 0x15 {
        r := PushThenMoveOn(reg, count, width);
      } else if minor == 0x16 || minor == 0x17 {
        r := PopThenMoveOn(reg, count, width);
      } else {
        r := Err(UnimplementedInstruction);
      }
    }

    /** The push branch of runPushPopInstruction: the rounds, then PC moves on. */
    method PushThenMoveOn(top: int, count: int, width: nat) returns (r: Result<()>)
      requires Valid() && (width == 2 || width == 4)
      modifies registers, devices.memory.cells, devices.watchdog, devices.ports
      ensures Valid()
      ensures Follows(r, E.MovedOn(E.PushFrom(old(State()), top, count, 0, width)))
    {
      r := PushRegisters(top, count, width);
      if r.Ok? {
        RegIncPc();
      }
    }

    /** The pop branch of runPushPopInstruction: the rounds, then PC moves on. */
    method PopThenMoveOn(first: int, count: int, width: nat) returns (r: Result<()>)
      requires Valid() && (width == 2 || width == 4) && first >= 0
      modifies registers
      ensures Valid()
      ensures Follows(r, E.MovedOn(E.PopFrom(old(State()), first, count, 0, width)))
    {
      r := PopRegisters(first, count, width);
      if r.Ok? {
        RegIncPc();
      }
    }

    /** regInc(SP, -2) and writeWord at the new SP. */
    method PushWord(v: bv16) returns (r: Result<()>)
      requires Valid()
      modifies registers, devices.memory.cells, devices.watchdog, devices.ports
      ensures Valid()
      ensures Follows(r, E.PushWord(old(State()), v))
    {
      var sp := Minus(registers[SP], 2);
      SetRegister(SP, sp);
      r := devices.WriteWord(E.AddrOf(sp), v);
    }

    /** CALLA in handleTypeExt10: PC moves on, its high and then its low half
        are pushed, and PC takes the source value. */
    method RunCalla(instr: Instruction) returns (r: Result<()>)
      requires Valid()
      modifies registers, devices.memory.cells, devices.watchdog, devices.ports
      ensures Valid()
      ensures Follows(r, E.RunCalla(old(State()), instr))
    {
      if !E.IsCalla(instr.minorOpcode) {
        return Err(UnimplementedInstruction);
      }
      RegIncPc();
      ghost var m := State();
      var pc := registers[PC];
      r := PushWord(E.HighHalf(pc));
      if r.Err? {
        return;
      }
      r := PushWord(BA.LowWord(pc));
      if r.Err? {
        return;
      }
      assert E.PushReturn(m) == Ok(State());
      SetRegister(PC, instr.source.value);
    }

    /** handleTypeExt00: MOVA, CMPA, ADDA, SUBA and RRxM by minor opcode. */
    method RunExt00(instr: Instruction) returns (r: Result<()>)
      requires Valid()
      modifies registers, devices.memory.cells, devices.watchdog, devices.ports
      ensures Valid()
      ensures Follows(r, E.RunExt00(old(State()), instr))
    {
      var minor := instr.minorOpcode;
      if E.IsMova(minor) {
        r := RunMovAsWritten(instr);
      } else if minor == 0x9 || minor == 0xD {
        RunCmp(instr);
        r := Ok(());
      } else if minor == 0xA || minor == 0xE {
        r := RunAdd(instr, false);
      } else if minor == 0xB || minor == 0xF {
        r := RunSub(instr, false);
      } else if minor == 0x4 || minor == 0x5 {
        r := RunRrRl(instr);
      } else {
        r := Err(UnimplementedInstruction);
      }
    }

    /** runCoreMSP430Instruction: dispatch on the minor opcode. */
    method RunCore(instr: Instruction) returns (r: Result<()>)
      requires Valid()
      modifies registers, devices.memory.cells, devices.watchdog, devices.ports
      ensures Valid()
      ensures Follows(r, E.RunCore(old(State()), instr))
    {
      var minor := instr.minorOpcode;
      if E.IsJump(minor) {
        RunJump(instr);
        r := Ok(());
      } else if minor == IH.OpMov {
        r := RunMovAsWritten(instr);
      } else if minor == IH.OpAdd {
        r := RunAdd(instr, false);
      } else if minor == IH.OpAddc {
        r := RunAdd(instr, true);
      } else if minor == IH.OpSubc {
        r := RunSub(instr, true);
      } else if minor == IH.OpSub {
        r := RunSub(instr, false);
      } else if minor == IH.OpCmp {
        RunCmp(instr);
        r := Ok(());
      } else if minor == IH.OpDadd {
        r := RunDadd(instr);
      } else if minor == IH.OpBit {
        r := RunLogical(instr, E.Bit);
      } else if minor == IH.OpBic {
        r := RunLogical(instr, E.Bic);
      } else if minor == IH.OpBis {
        r := RunLogical(instr, E.Bis);
      } else if minor == IH.OpXor {
        r := RunLogical(instr, E.Xor);
      } else if minor == IH.OpAnd {
        r := RunLogical(instr, E.And);
      } else {
        r := Err(UnimplementedInstruction);
      }
    }

    /** runExtendedMSP430Instruction: dispatch on the major opcode. */
    method RunExtended(instr: Instruction) returns (r: Result<()>)
      requires Valid()
      modifies registers, devices.memory.cells, devices.watchdog, devices.ports
      ensures Valid()
      ensures Follows(r, E.RunExtended(old(State()), instr))
    {
      var major := instr.majorOpcode;
      if major == IH.Major00 {
        r := RunExt00(instr);
      } else if major == IH.Major10 {
        r := RunCalla(instr);
      } else if major == IH.Major14 {
        r := RunPushPop(instr);
      } else if major == IH.Major18 {
        r := RunCore(instr);
      } else {
        r := Err(UnimplementedInstruction);
      }
    }

    /** runOneInstruction. */
    method RunOneInstruction(instr: Instruction) returns (r: Result<()>)
      requires Valid()
      modifies registers, devices.memory.cells, devices.watchdog, devices.ports
      ensures Valid()
      ensures Follows(r, E.RunOne(old(State()), instr))
    {
      if instr.extended {
        r := RunExtended(instr);
      } else {
        r := RunCore(instr);
      }
    }

    /** One instruction: decodeInstruction, then runOneInstruction. */
    method Step() returns (r: Result<()>)
      requires Valid()
      modifies registers, devices.memory.cells, devices.watchdog, devices.ports
      ensures Valid()
      ensures Follows(r, E.Step(old(State())))
    {
      var d := DecodeInstruction();
      if d.Err? {
        return Err(d.error);
      }
      r := RunOneInstruction(d.value);
    }

    /** One pass of run's outer loop: the do-while that decodes and runs the
        instruction at the initial PC, putting PC back while repetitions
        remain. */
    method RunRound() returns (r: Result<()>)
      requires Valid()
      modifies registers, devices.memory.cells, devices.watchdog, devices.ports
      ensures Valid()
      ensures Follows(r, E.RunRound(old(State())))
    {
      var initialPc := registers[PC];
      var k := 0;
      while true
        invariant Valid() && k <= 15
        invariant E.Repeat(State(), initialPc, k) == E.Repeat(old(State()), initialPc, 0)
        decreases 16 - k
      {
        ghost var m := State();
        var d := DecodeInstruction();
        if d.Err? {
          return Err(d.error);
        }
        r := RunOneInstruction(d.value);
        if r.Err? {
          return;
        }
        if k < d.value.repetition as int {
          SetRegister(PC, initialPc);
          k := k + 1;
        } else {
          return;
        }
      }
    }
  }
}
