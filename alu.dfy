/** The value-level parts of instruction execution (MSP430.cpp, MSP430.h):
    the register file, the status bits of R2, operand masks, jump conditions
    and offsets, the flag formulas of the arithmetic and logical handlers,
    the decimal addition of DADD and the multi-bit shifts of RRxM. */
module Alu {
  import opened Types

  /** The sixteen 32-bit registers (registers_). */
  type Regs = r: seq<bv32> | |r| == 16 witness seq(16, _ => 0)

  /** 32-bit addition, wrapping as uint32_t does.  Register updates are
      stated through it, which keeps the solver from comparing sums bit by
      bit when it compares register files. */
  function Plus(a: bv32, b: bv32): bv32
  {
    a + b
  }

  /** 32-bit subtraction, wrapping as uint32_t does. */
  function Minus(a: bv32, b: bv32): bv32
  {
    a - b
  }

  /** The registers after resetRegisters: all zero but SP and PC. */
  function ResetRegs(): (r: Regs)
    ensures r[PC] == 0x471c && r[SP] == 0x2de0
    ensures forall i :: 2 <= i < 16 ==> r[i] == 0
  {
    seq(16, i => if i == 0 then 0x471c else if i == 1 then 0x2de0 else 0)
  }

  /** regIncPc: the program counter moves on by one word; no other register
      changes. */
  function IncPc(regs: Regs): (r: Regs)
    ensures r[PC] == regs[PC] + 2
    ensures forall i :: 0 <= i < 16 && i != PC ==> r[i] == regs[i]
  {
    regs[PC := regs[PC] + 2]
  }

  /** The four arithmetic status bits of R2 (MSP430::regStatus): C is bit 0,
      Z bit 1, N bit 2 and V bit 8. */
  datatype Flags = Flags(c: bool, z: bool, n: bool, v: bool)

  /** The arithmetic status bits of a status register value. */
  function FlagsOf(sr: bv32): Flags
  {
    Flags(sr & 1 != 0, sr & 2 != 0, sr & 4 != 0, sr & 0x100 != 0)
  }

  /** The status register with C, Z, N and V replaced and every other bit
      (GIE, CPUOFF, OSCOFF, SCG0, SCG1 and the unused bits) kept. */
  function WithFlags(sr: bv32, f: Flags): (r: bv32)
    ensures r & 1 != 0 <==> f.c
    ensures r & 2 != 0 <==> f.z
    ensures r & 4 != 0 <==> f.n
    ensures r & 0x100 != 0 <==> f.v
    ensures r & 0xFFFF_FEF8 == sr & 0xFFFF_FEF8
  {
    var c, z, n, v := f.c, f.z, f.n, f.v;
    (sr & 0xFFFF_FEF8) | ((if c then 1 else 0) | (if z then 2 else 0)
                          | (if n then 4 else 0) | (if v then 0x100 else 0))
  }

  /** Writing the flags back and reading them are inverse: the flags read
      are the flags written, and writing the flags just read changes
      nothing. */
  lemma FlagsRoundTrip(sr: bv32, f: Flags)
    ensures FlagsOf(WithFlags(sr, f)) == f
    ensures WithFlags(sr, FlagsOf(sr)) == sr
  {
    var r := WithFlags(sr, f);
    assert FlagsOf(r).c == f.c && FlagsOf(r).z == f.z;
    assert FlagsOf(r).n == f.n && FlagsOf(r).v == f.v;
  }

  /** getInstructionMaskValue: the bits of an operand of the given size. */
  function Mask(ws: WordSize): (m: bv32)
    ensures m == 0xFF || m == 0xFFFF || m == 0xFFFFF
    ensures (m == 0xFF <==> ws == Byte) && (m == 0xFFFF <==> ws == Word)
  {
    match ws
    case Byte => 0xFF
    case Word => 0xFFFF
    case Bits20 => 0xFFFFF
  }

  /** `v` has no bit above an operand of the given size. */
  predicate Fits(v: bv32, ws: WordSize)
  {
    v <= Mask(ws)
  }

  /** A value cut down to an operand of the given size. */
  function Truncated(v: bv32, ws: WordSize): (r: bv32)
    ensures Fits(r, ws)
  {
    v & Mask(ws)
  }

  /** getInstructionSignMask: the top bit of an operand of the given size. */
  function SignMask(ws: WordSize): (s: bv32)
    ensures s & Mask(ws) == s && s << 1 == Mask(ws) + 1
  {
    (Mask(ws) + 1) >> 1
  }

  /** checkCondition: whether a jump with this opcode is taken; any other
      opcode is not. */
  predicate CheckCondition(op: bv16, sr: bv32)
  {
    var f := FlagsOf(sr);
    if op == 0x20 then !f.z        // JNZ
    else if op == 0x24 then f.z    // JZ
    else if op == 0x28 then !f.c   // JNC
    else if op == 0x2C then f.c    // JC
    else if op == 0x30 then f.n    // JN
    else if op == 0x34 then f.n == f.v  // JGE
    else if op == 0x38 then f.n != f.v  // JL
    else op == 0x3C                // JMP
  }

  /** The paired conditions are complements of each other, JMP is always
      taken, and a condition reads only C, Z, N and V. */
  lemma ConditionPairs(op: bv16, sr: bv32, f: Flags)
    ensures CheckCondition(0x24, sr) <==> !CheckCondition(0x20, sr)
    ensures CheckCondition(0x2C, sr) <==> !CheckCondition(0x28, sr)
    ensures CheckCondition(0x34, sr) <==> !CheckCondition(0x38, sr)
    ensures CheckCondition(0x3C, sr)
    ensures CheckCondition(op, WithFlags(sr, f)) <==> CheckCondition(op, WithFlags(0, f))
  {
    FlagsRoundTrip(sr, f);
    FlagsRoundTrip(0, f);
  }

  /** The ten-bit offset field of a jump word, sign-extended: the field
      itself when bit 9 is clear, the field less 1024 when it is set. */
  function JumpOffset(raw: bv16): (k: bv32)
    ensures raw & 0x200 == 0 ==> k == (raw & 0x3FF) as bv32
    ensures raw & 0x200 != 0 ==> k == (raw & 0x3FF) as bv32 - 0x400
  {
    var field := (raw & 0x3FF) as bv32;
    if field & 0x200 != 0 then field | 0xFFFF_FC00 else field
  }

  /** The program counter after a taken jump: twice the offset plus 2 bytes,
      added in 32-bit unsigned arithmetic. */
  function JumpTarget(pc: bv32, raw: bv16): bv32
  {
    pc + (JumpOffset(raw) << 1) + 2
  }

  /** Offset -1 is a jump to the jump itself; offset 0 goes on to the next
      word, as an untaken jump does. */
  lemma JumpTargets(pc: bv32, raw: bv16)
    ensures raw & 0x3FF == 0x3FF ==> JumpTarget(pc, raw) == pc
    ensures raw & 0x3FF == 0 ==> JumpTarget(pc, raw) == pc + 2
  {
  }

  /** The flags ADD and ADDC set for the 32-bit sum `value` of `dst` and
      `src` (and the carry) at the width whose bits are `mask`. */
  function AddFlags(dst: bv32, src: bv32, value: bv32, mask: bv32): Flags
  {
    var sign := (mask + 1) >> 1;
    var dSign := dst & sign != 0;
    var sSign := src & sign != 0;
    var rSign := value & sign != 0;
    Flags(value > mask, value & mask == 0, rSign, dSign == sSign && dSign != rSign)
  }

  /** The flags SUB, SUBC and CMP set for the difference `value` of `dst`
      and `src`. */
  function SubFlags(dst: bv32, src: bv32, value: bv32, mask: bv32): Flags
  {
    var sign := (mask + 1) >> 1;
    var dSign := dst & sign != 0;
    var sSign := src & sign != 0;
    var rSign := value & sign != 0;
    Flags(dst >= src, value & mask == 0, rSign, dSign != sSign && dSign != rSign)
  }

  /** regUpdateStatusForLogicalOp: Z when the whole 32-bit result is zero, C
      exactly when Z is not, and V only for XOR with both operands' bit 15
      set. */
  function LogicFlags(result: bv32, signMask: bv32, op1: bv32, op2: bv32, isXor: bool): (f: Flags)
    ensures f.c == !f.z && (f.z <==> result == 0)
    ensures f.n ==> !f.z
    ensures f.v ==> isXor
  {
    Flags(result != 0, result == 0, result & signMask != 0,
          isXor && op1 & 0x8000 != 0 && op2 & 0x8000 != 0)
  }

  /** On operands of the instruction's width, ADD's and ADDC's carry is the
      bit the sum carries out of that width. */
  lemma AddCarryIsCarryOut(dst: bv32, src: bv32, cin: bv32, sum: bv32, ws: WordSize)
    requires dst <= Mask(ws) && src <= Mask(ws) && cin <= 1 && sum == dst + src + cin
    ensures AddFlags(dst, src, sum, Mask(ws)).c <==> sum & (Mask(ws) + 1) != 0
  {
    match ws
    case Byte =>
    case Word =>
    case Bits20 =>
  }

  /** SUB's and CMP's Z is set exactly when the operands agree on the bits
      of the width. */
  lemma SubZeroIsEquality(dst: bv32, src: bv32, m: bv32)
    requires IsMask(m)
    ensures SubFlags(dst, src, dst - src, m).z <==> AgreeOn(dst, src, m)
    ensures SubFlags(dst, src, (dst - src) & m, m).z <==> AgreeOn(dst, src, m)
  {
    WidthDifference(dst, src, m);
  }

  /** A width's mask: eight, sixteen or twenty low bits. */
  predicate IsMask(m: bv32)
  {
    m == 0xFF || m == 0xFFFF || m == 0xFFFFF
  }

  /** Two values with the same bits under a mask. */
  predicate AgreeOn(a: bv32, b: bv32, m: bv32)
  {
    a & m == b & m
  }

  lemma WidthDifference(dst: bv32, src: bv32, m: bv32)
    requires IsMask(m)
    ensures (dst - src) & m == 0 <==> AgreeOn(dst, src, m)
    ensures ((dst - src) & m) & m == 0 <==> AgreeOn(dst, src, m)
  {
    if m == 0xFF {
    } else if m == 0xFFFF {
    } else {
    }
  }

  /** The nibble the i-th round of addBCD works on. */
  function NibbleMask(i: nat): (m: bv32)
    requires i <= 5
    ensures m != 0
  {
    if i == 0 then 0x0F
    else if i == 1 then 0xF0
    else if i == 2 then 0xF00
    else if i == 3 then 0xF000
    else if i == 4 then 0xF0000
    else 0xF00000
  }

  /** How many rounds addBCD runs: nibble masks are shifted left while they
      stay at or below the width's mask. */
  function BcdRounds(ws: WordSize): (n: nat)
    ensures n <= 5
    ensures forall i :: 0 <= i <= n ==> (NibbleMask(i) <= Mask(ws) <==> i < n)
  {
    match ws
    case Byte => 2
    case Word => 4
    case Bits20 => 5
  }

  /** One round of addBCD as written: the nibbles of both operands under
      `cm`, plus what earlier rounds left under `cm`, are added; 6 is added
      when the sum under `cm` exceeds 9, and the sum is or-ed in. */
  function BcdRound(v1: bv32, v2: bv32, result: bv32, cm: bv32): bv32
  {
    var sum := (v1 & cm) + (v2 & cm) + (result & cm);
    result | (if sum & cm > 9 then sum + 6 else sum)
  }

  /** Rounds i, i + 1, ... n - 1 of addBCD. */
  function BcdRoundsFrom(v1: bv32, v2: bv32, result: bv32, i: nat, n: nat): bv32
    requires n <= 5
    decreases n - i
  {
    if i >= n then result
    else BcdRoundsFrom(v1, v2, BcdRound(v1, v2, result, NibbleMask(i)), i + 1, n)
  }

  /** addBCD: the rounds over the width of the source, masked to it. */
  function AddBcd(v1: bv32, v2: bv32, ws: WordSize): (r: bv32)
    ensures r <= Mask(ws)
  {
    Truncated(BcdRoundsFrom(v1, v2, 0, 0, BcdRounds(ws)), ws)
  }

  /** The flags DADD sets from its result: Z, N, C as `value > mask`, and V
      kept from the status register read before the operation. */
  function DaddFlags(sr: bv32, value: bv32, mask: bv32): Flags
  {
    var sign := (mask + 1) >> 1;
    Flags(value > mask, value & mask == 0, value & sign != 0, FlagsOf(sr).v)
  }

  /** The flags DADD sets from a value within the width: Z exactly when the
      value is zero, N from its top bit, C never, and V as it was. */
  lemma DaddFlagsOfValue(sr: bv32, value: bv32, ws: WordSize)
    requires value <= Mask(ws)
    ensures var f := DaddFlags(sr, value, Mask(ws));
      && (f.z <==> value == 0) && (f.n <==> value & SignMask(ws) != 0)
      && !f.c && f.v == FlagsOf(sr).v
  {
    DaddZeroFlag(sr, value, ws);
    DaddSignFlag(sr, value, ws);
  }

  lemma DaddZeroFlag(sr: bv32, value: bv32, ws: WordSize)
    requires value <= Mask(ws)
    ensures DaddFlags(sr, value, Mask(ws)).z <==> value == 0
  {
    LowBitsKept(value, Mask(ws));
  }

  lemma DaddSignFlag(sr: bv32, value: bv32, ws: WordSize)
    ensures DaddFlags(sr, value, Mask(ws)).n <==> value & SignMask(ws) != 0
  {
  }

  lemma LowBitsKept(v: bv32, m: bv32)
    requires m == 0xFF || m == 0xFFFF || m == 0xFFFFF
    requires v <= m
    ensures v & m == v
  {
  }

  /** DADD's carry test `value > mask` can never succeed, whatever the
      operands. */
  lemma DaddNeverCarries(sr: bv32, v1: bv32, v2: bv32, ws: WordSize)
    ensures !DaddFlags(sr, AddBcd(v1, v2, ws), Mask(ws)).c
  {
  }

  /** Findings row 4: addBCD as written tests the whole masked sum of a
      round, not its digit, against 9, and adds 6 at bit 0 rather than at
      the digit: 10 + 10 gives 26 and 5 + 5 gives 16 in packed decimal,
      where the digit-wise adder below gives 20 and 10. */
  lemma AddBcdAsWrittenDiffers()
    ensures AddBcd(0x10, 0x10, Byte) == 0x26 && AddDecimal(0x10, 0x10, Byte) == 0x20
    ensures AddBcd(0x05, 0x05, Byte) == 0x16 && AddDecimal(0x05, 0x05, Byte) == 0x10
  {
    assert BcdRoundsFrom(0x10, 0x10, 0, 0, 2) == 0x26;
    assert BcdRoundsFrom(0x05, 0x05, 0, 0, 2) == 0x16;
    assert DecimalAddFrom(0x10, 0x10, 0, 2) == 0x20;
    assert DecimalAddFrom(0x05, 0x05, 0, 2) == 0x10;
  }

  function Pow10(n: nat): (p: nat)
    ensures p >= 1
  {
    if n == 0 then 1 else 10 * Pow10(n - 1)
  }

  function Pow16(n: nat): (p: nat)
    ensures p >= 1
  {
    if n == 0 then 1 else 16 * Pow16(n - 1)
  }

  /** Each of the n low nibbles of v is a decimal digit. */
  predicate IsPackedDecimal(v: nat, n: nat)
  {
    n == 0 || (v % 16 <= 9 && IsPackedDecimal(v / 16, n - 1))
  }

  /** The number the n low nibbles of v stand for, read as decimal digits. */
  function DecimalOf(v: nat, n: nat): nat
  {
    if n == 0 then 0 else v % 16 + 10 * DecimalOf(v / 16, n - 1)
  }

  /** Digit-wise packed decimal addition of the n low digits of a and b with
      an incoming carry: a digit sum above 9 is adjusted by 6 within its
      nibble and carries one into the next digit. */
  function DecimalAddFrom(a: nat, b: nat, carry: nat, n: nat): (r: nat)
    ensures r < Pow16(n)
  {
    if n == 0 then 0
    else
      var s := a % 16 + b % 16 + carry;
      var rest := DecimalAddFrom(a / 16, b / 16, if s > 9 then 1 else 0, n - 1);
      assert 16 * rest <= 16 * Pow16(n - 1) - 16;
      (if s > 9 then s + 6 else s) % 16 + 16 * rest
  }

  /** DADD as the source's comments describe it: the operands' digits over
      the width of the source added as packed decimal, the carry out of the
      top digit dropped. */
  function AddDecimal(v1: bv32, v2: bv32, ws: WordSize): (r: nat)
    ensures r < Pow16(BcdRounds(ws)) && r <= Unsigned(Mask(ws))
  {
    DigitsFillWidth(ws);
    DecimalAddFrom(Unsigned(v1), Unsigned(v2), 0, BcdRounds(ws))
  }

  /** The rounds of addBCD cover the width exactly: 16 to the number of
      rounds is one more than the width's mask. */
  lemma DigitsFillWidth(ws: WordSize)
    ensures Pow16(BcdRounds(ws)) == Unsigned(Mask(ws)) + 1
  {
    assert Pow16(2) == 0x100;
    assert Pow16(4) == 0x1_0000 by { assert Pow16(3) == 0x1000; }
    assert Pow16(5) == 0x10_0000 by { assert Pow16(4) == 0x1_0000 by { assert Pow16(3) == 0x1000; } }
  }

  /** A register value read as an unsigned number. */
  function Unsigned(v: bv32): nat
  {
    v as nat
  }

  /** A digit below 10 followed by the digits of x, modulo ten times p,
      is that digit followed by the digits of x modulo p. */
  lemma ModAfterDigit(d: nat, x: nat, p: nat)
    requires d < 10 && p >= 1
    ensures (d + 10 * x) % (10 * p) == d + 10 * (x % p)
  {
    var q, r := x / p, x % p;
    assert x == q * p + r;
    assert d + 10 * x == q * (10 * p) + (d + 10 * r);
    ModUnique(d + 10 * x, 10 * p, q, d + 10 * r);
  }

  /** The remainder is the one value below the divisor that the dividend
      leaves over some multiple of it. */
  lemma ModUnique(a: int, m: int, q: int, r: int)
    requires m > 0 && 0 <= r < m && a == q * m + r
    ensures a % m == r
  {
    var q2, r2 := a / m, a % m;
    assert a == q2 * m + r2;
    if q > q2 {
      MulAtLeast(q - q2, m);
    } else if q < q2 {
      MulAtLeast(q2 - q, m);
    }
  }

  lemma MulAtLeast(k: int, m: int)
    requires k >= 1 && m > 0
    ensures k * m >= m
  {
  }

  lemma NibbleSplit(d: nat, x: nat)
    requires d < 16
    ensures (d + 16 * x) % 16 == d && (d + 16 * x) / 16 == x
  {
  }

  /** The digit-wise adder on packed decimal operands gives packed decimal
      digits, and they stand for the decimal sum modulo 10 to the number of
      digits. */
  lemma {:induction false} DecimalAddIsSum(a: nat, b: nat, carry: nat, n: nat)
    requires IsPackedDecimal(a, n) && IsPackedDecimal(b, n) && carry <= 1
    ensures IsPackedDecimal(DecimalAddFrom(a, b, carry, n), n)
    ensures DecimalOf(DecimalAddFrom(a, b, carry, n), n)
      == (DecimalOf(a, n) + DecimalOf(b, n) + carry) % Pow10(n)
  {
    if n > 0 {
      var s := a % 16 + b % 16 + carry;
      var c := if s > 9 then 1 else 0;
      var d := DigitAdjust(s);
      var rest := DecimalAddFrom(a / 16, b / 16, c, n - 1);
      DecimalAddIsSum(a / 16, b / 16, c, n - 1);
      var x := DecimalOf(a / 16, n - 1) + DecimalOf(b / 16, n - 1) + c;
      DecimalAddDigit(a, b, carry, n, d, rest, x);
      ModAfterDigit(d, x, Pow10(n - 1));
    }
  }

  /** One digit of the adder: the lowest digit of the result is `d`, the
      rest are the digits added with the carry out of `d`, and the
      operands' decimal sum is `d` plus ten times that of the rest. */
  lemma DecimalAddDigit(a: nat, b: nat, carry: nat, n: nat, d: nat, rest: nat, x: nat)
    requires n > 0 && a % 16 <= 9 && b % 16 <= 9 && carry <= 1
    requires var s := a % 16 + b % 16 + carry;
      && d == DigitAdjust(s)
      && rest == DecimalAddFrom(a / 16, b / 16, if s > 9 then 1 else 0, n - 1)
      && x == DecimalOf(a / 16, n - 1) + DecimalOf(b / 16, n - 1) + (if s > 9 then 1 else 0)
    ensures var r := DecimalAddFrom(a, b, carry, n);
      && r % 16 == d && r / 16 == rest
      && DecimalOf(r, n) == d + 10 * DecimalOf(rest, n - 1)
      && DecimalOf(a, n) + DecimalOf(b, n) + carry == d + 10 * x
  {
    NibbleSplit(d, rest);
  }

  /** The digit a digit sum of at most 19 leaves once 6 is added to it when
      it exceeds 9: the sum less ten for each carry. */
  function DigitAdjust(s: nat): (d: nat)
    requires s <= 19
    ensures d <= 9 && s == d + 10 * (if s > 9 then 1 else 0)
  {
    (if s > 9 then s + 6 else s) % 16
  }

  /** DADD as intended, on operands whose digits over the width are all
      decimal: the result's digits are decimal and stand for the sum of the
      operands modulo 10 to the number of digits (100 for a byte, 10000 for
      a word). */
  lemma AddDecimalIsSum(v1: bv32, v2: bv32, ws: WordSize)
    requires IsPackedDecimal(Unsigned(v1), BcdRounds(ws)) && IsPackedDecimal(Unsigned(v2), BcdRounds(ws))
    ensures var n, r := BcdRounds(ws), AddDecimal(v1, v2, ws);
      && IsPackedDecimal(r, n)
      && DecimalOf(r, n) == (DecimalOf(Unsigned(v1), n) + DecimalOf(Unsigned(v2), n)) % Pow10(n)
  {
    var n := BcdRounds(ws);
    DecimalAddIsSum(Unsigned(v1), Unsigned(v2), 0, n);
    assert AddDecimal(v1, v2, ws) == DecimalAddFrom(Unsigned(v1), Unsigned(v2), 0, n);
  }

  /** One round of RRAM as written: the value shifted right by one, or-ed
      with the value under the mask. */
  function SmearStep(d: bv32, mask: bv32): bv32
  {
    (d >> 1) | (d & mask)
  }

  /** RRAM as written: n rounds. */
  function Rram(d: bv32, mask: bv32, n: nat): bv32
    decreases n
  {
    if n == 0 then d else Rram(SmearStep(d, mask), mask, n - 1)
  }

  /** One round of RLAM as written: a left shift by one within the mask,
      with bit 0 set when the bit just above the mask is set. */
  function RlamStep(d: bv32, mask: bv32): bv32
  {
    var s := (d << 1) & mask;
    if s & (mask + 1) != 0 then s | 1 else s
  }

  /** RLAM as written: n rounds. */
  function Rlam(d: bv32, mask: bv32, n: nat): bv32
    decreases n
  {
    if n == 0 then d else Rlam(RlamStep(d, mask), mask, n - 1)
  }

  /** A one-bit left shift within a mask. */
  function ShiftStep(d: bv32, mask: bv32): bv32
  {
    (d << 1) & mask
  }

  /** n one-bit left shifts within a mask. */
  function ShiftLeftWithin(d: bv32, mask: bv32, n: nat): bv32
    decreases n
  {
    if n == 0 then d else ShiftLeftWithin(ShiftStep(d, mask), mask, n - 1)
  }

  /** The bit above the mask is never set after masking, so each RLAM round
      is a plain shift: its carry-in test never fires. */
  lemma RlamStepIsShift(d: bv32, m: bv32)
    requires IsMask(m)
    ensures RlamStep(d, m) == ShiftStep(d, m)
  {
    if m == 0xFF {
    } else if m == 0xFFFF {
    } else {
    }
  }

  /** RLAM as written is a plain left shift within the width. */
  lemma {:induction false} RlamIsShift(d: bv32, m: bv32, n: nat)
    requires IsMask(m)
    ensures Rlam(d, m, n) == ShiftLeftWithin(d, m, n)
    decreases n
  {
    if n > 0 {
      RlamStepIsShift(d, m);
      RlamIsShift(ShiftStep(d, m), m, n - 1);
    }
  }

  /** `x` has no bit outside the mask. */
  predicate Within(x: bv32, m: bv32)
  {
    x <= m
  }

  /** Every bit of `d` is set in `r`. */
  predicate KeepsBits(r: bv32, d: bv32)
  {
    r & d == d
  }

  lemma SmearStepKeepsBits(d: bv32, m: bv32)
    requires IsMask(m) && Within(d, m)
    ensures Within(SmearStep(d, m), m) && KeepsBits(SmearStep(d, m), d)
  {
    if m == 0xFF {
    } else if m == 0xFFFF {
    } else {
    }
  }

  lemma KeepsBitsTransitive(r: bv32, d': bv32, d: bv32)
    requires KeepsBits(r, d') && KeepsBits(d', d)
    ensures KeepsBits(r, d)
  {
  }

  /** RRAM as written keeps every bit of a value of the width and stays
      within the width: it smears bits rightwards instead of shifting. */
  lemma {:induction false} RramKeepsBits(d: bv32, m: bv32, n: nat)
    requires IsMask(m) && Within(d, m)
    ensures Within(Rram(d, m, n), m) && KeepsBits(Rram(d, m, n), d)
    decreases n
  {
    if n > 0 {
      SmearStepKeepsBits(d, m);
      RramKeepsBits(SmearStep(d, m), m, n - 1);
      KeepsBitsTransitive(Rram(SmearStep(d, m), m, n - 1), SmearStep(d, m), d);
    } else {
      assert KeepsBits(d, d);
    }
  }

  /** RRAM as written turns 2 into 3 on a word: the low bit is or-ed back in
      instead of shifted out. */
  lemma RramSmearsLowBits()
    ensures Rram(2, 0xFFFF, 1) == 3
  {
    assert Rram(2, 0xFFFF, 1) == Rram(SmearStep(2, 0xFFFF), 0xFFFF, 0);
  }

  /** A value of the mask's width sign-extended to 32 bits. */
  function SignExtend(d: bv32, mask: bv32): bv32
    requires IsMask(mask)
  {
    if mask == 0xFF then (if d & 0x80 != 0 then d | 0xFFFF_FF00 else d)
    else if mask == 0xFFFF then (if d & 0x8000 != 0 then d | 0xFFFF_0000 else d)
    else (if d & 0x80000 != 0 then d | 0xFFF0_0000 else d)
  }

  /** One round of RRAM as intended: a right shift by one that keeps the
      sign bit of the width. */
  function RraStep(d: bv32, mask: bv32): (r: bv32)
    requires IsMask(mask) && Within(d, mask)
    ensures Within(r, mask)
  {
    if mask == 0xFF then (d >> 1) | (d & 0x80)
    else if mask == 0xFFFF then (d >> 1) | (d & 0x8000)
    else (d >> 1) | (d & 0x80000)
  }

  /** Keeping the sign bit while shifting right by one is shifting the
      sign-extended value, on each width. */
  lemma KeepSignShiftByte(d: bv32)
    requires d <= 0xFF
    ensures d & 0x80 != 0 ==> (d >> 1) | (d & 0x80) == ((d | 0xFFFF_FF00) >> 1) & 0xFF
    ensures d & 0x80 == 0 ==> (d >> 1) | (d & 0x80) == (d >> 1) & 0xFF
  {
  }

  lemma RraStepIsArithmeticByte(d: bv32)
    requires d <= 0xFF
    ensures RraStep(d, 0xFF) == (SignExtend(d, 0xFF) >> 1) & 0xFF
  {
    KeepSignShiftByte(d);
  }

  lemma KeepSignShiftWord(d: bv32)
    requires d <= 0xFFFF
    ensures d & 0x8000 != 0 ==> (d >> 1) | (d & 0x8000) == ((d | 0xFFFF_0000) >> 1) & 0xFFFF
    ensures d & 0x8000 == 0 ==> (d >> 1) | (d & 0x8000) == (d >> 1) & 0xFFFF
  {
  }

  lemma RraStepIsArithmeticWord(d: bv32)
    requires d <= 0xFFFF
    ensures RraStep(d, 0xFFFF) == (SignExtend(d, 0xFFFF) >> 1) & 0xFFFF
  {
    KeepSignShiftWord(d);
  }

  lemma KeepSignShiftAddress(d: bv32)
    requires d <= 0xFFFFF
    ensures d & 0x80000 != 0 ==> (d >> 1) | (d & 0x80000) == ((d | 0xFFF0_0000) >> 1) & 0xFFFFF
    ensures d & 0x80000 == 0 ==> (d >> 1) | (d & 0x80000) == (d >> 1) & 0xFFFFF
  {
  }

  lemma RraStepIsArithmeticAddress(d: bv32)
    requires d <= 0xFFFFF
    ensures RraStep(d, 0xFFFFF) == (SignExtend(d, 0xFFFFF) >> 1) & 0xFFFFF
  {
    KeepSignShiftAddress(d);
  }

  /** An intended RRAM round is the value sign-extended to 32 bits, shifted
      right by one and cut back to the width. */
  lemma RraStepIsArithmetic(d: bv32, m: bv32)
    requires IsMask(m) && Within(d, m)
    ensures RraStep(d, m) == (SignExtend(d, m) >> 1) & m
  {
    if m == 0xFF {
      RraStepIsArithmeticByte(d);
    } else if m == 0xFFFF {
      RraStepIsArithmeticWord(d);
    } else {
      RraStepIsArithmeticAddress(d);
    }
  }

  /** RRAM as intended: n arithmetic right shifts by one. */
  function Rra(d: bv32, mask: bv32, n: nat): (r: bv32)
    requires IsMask(mask) && Within(d, mask)
    ensures Within(r, mask)
    decreases n
  {
    if n == 0 then d else Rra(RraStep(d, mask), mask, n - 1)
  }

  /** The same RRAM round on 2: the intended shift gives 1 where the loop
      as written gives 3. */
  lemma RraHalvesTwo()
    ensures Rra(2, 0xFFFF, 1) == 1
  {
    assert Rra(2, 0xFFFF, 1) == Rra(RraStep(2, 0xFFFF), 0xFFFF, 0);
  }

  /** Each intended RRAM round keeps the sign bit, so a negative value stays
      negative and a non-negative one non-negative. */
  lemma {:induction false} RraKeepsSign(d: bv32, m: bv32, n: nat)
    requires IsMask(m) && Within(d, m)
    ensures Rra(d, m, n) & ((m + 1) >> 1) == d & ((m + 1) >> 1)
    decreases n
  {
    if n > 0 {
      var s := RraStep(d, m);
      assert s & ((m + 1) >> 1) == d & ((m + 1) >> 1) by {
        if m == 0xFF {
        } else if m == 0xFFFF {
        } else {
        }
      }
      RraKeepsSign(s, m, n - 1);
    }
  }

  /** A left shift within the mask stays within it. */
  lemma {:induction false} ShiftLeftWithinStays(d: bv32, m: bv32, n: nat)
    requires IsMask(m) && Within(d, m)
    ensures Within(ShiftLeftWithin(d, m, n), m)
    decreases n
  {
    if n > 0 {
      ShiftLeftWithinStays(ShiftStep(d, m), m, n - 1);
    }
  }

  /** A right shift of a value within the mask stays within it. */
  lemma ShiftRightStays(d: bv32, m: bv32, n: nat)
    requires IsMask(m) && Within(d, m) && n <= 20
    ensures Within(d >> n, m)
  {
    if m == 0xFF {
      ShiftRightStaysOn(d, 0xFF, n);
    } else if m == 0xFFFF {
      ShiftRightStaysOn(d, 0xFFFF, n);
    } else {
      ShiftRightStaysOn(d, 0xFFFFF, n);
    }
  }

  lemma ShiftRightStaysOn(d: bv32, m: bv32, n: nat)
    requires (m == 0xFF && d <= 0xFF) || (m == 0xFFFF && d <= 0xFFFF) || (m == 0xFFFFF && d <= 0xFFFFF)
    requires n <= 20
    ensures d >> n <= m
  {
    if m == 0xFF {
      assert d >> n <= 0xFF;
    } else if m == 0xFFFF {
      assert d >> n <= 0xFFFF;
    } else {
      assert d >> n <= 0xFFFFF;
    }
  }

  /** Or-ing the whole mask into a value within it gives the mask. */
  lemma OrMaskIsMask(x: bv32, m: bv32)
    requires IsMask(m) && Within(x, m)
    ensures x | m == m
  {
    if m == 0xFF {
    } else if m == 0xFFFF {
    } else {
    }
  }
}
