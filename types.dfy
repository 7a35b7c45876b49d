/** Shared vocabulary of the emulator core: the fatal conditions the source
    raises with `assert`, the result type that carries them, address ranges
    (Device.h) and the decoded instruction record (MSP430InstructionHelper.h). */
module Types {

  /** Index of one of the sixteen CPU registers.  Every decoder takes register
      numbers from 4-bit instruction fields, so an index is always below 16. */
  type RegIdx = r: int | 0 <= r < 16

  /** A 32-bit bus address (the source passes addresses as uint32_t). */
  type Addr = a: int | 0 <= a < 0x1_0000_0000

  const PC: RegIdx := 0
  const SP: RegIdx := 1
  const SR: RegIdx := 2
  const CG2: RegIdx := 3

  /** The conditions under which the source stops the emulator with a failed
      `assert` (or, where noted in the README, with undefined behaviour). */
  datatype Fault =
    | ReservedOpcode            // a decode table has no entry for the instruction bits
    | UnimplementedInstruction  // dispatch reached a case it does not implement
    | ZeroInstruction           // the first instruction word fetched is 0x0000
    | AddressOutOfRange         // memory bounds check failed
    | UnsupportedAccessWidth    // bus access width other than 1, 2 or 4
    | NotImplemented            // a device does not implement that access width
    | UnknownDeviceRegister     // a device was addressed outside its registers
    | RegisterOutOfRange        // PUSHM/POPM register index beyond R15
    | OperandSizeMismatch       // DADD operands of different sizes
    | ShiftOutOfRange           // rotate count larger than the word

  datatype Result<+T> = Ok(value: T) | Err(error: Fault)
  {
    predicate IsFailure()
    {
      Err?
    }

    function PropagateFailure<U>(): Result<U>
      requires Err?
    {
      Err(error)
    }

    function Extract(): T
      requires Ok?
    {
      value
    }

    /** The same outcome without its value. */
    function Drop(): Result<()>
    {
      if Ok? then Ok(()) else Err(error)
    }
  }

  datatype Option<+T> = None | Some(value: T)

  /** An inclusive address range owned by a device (struct AddressRange). */
  datatype AddressRange = AddressRange(start: int, end: int)

  /** Operand width (enum WORD_SIZE without its reserved zero value). */
  datatype WordSize = Bits20 | Word | Byte

  /** Operand addressing mode (enum ADDRESSING_MODE). */
  datatype AddrMode =
    | Invalid
    | Register
    | Indexed
    | Symbolic
    | Absolute
    | IndirectRegister
    | IndirectAutoincrement
    | Immediate

  /** One operand of a decoded instruction (InstructionOperand). */
  datatype Operand = Operand(
    value: bv32,
    address: bv32,
    reg: RegIdx,
    axFlag: bv8,
    wordSize: WordSize,
    addrMode: AddrMode,
    needUpdateValue: bool,
    usedConstantGenerator: bool)

  /** A decoded instruction (struct InstructionStruct); `raw0` and `raw1` are
      the first two entries of rawInstruction. */
  datatype Instruction = Instruction(
    extended: bool,
    zc: bool,
    repetition: bv4,
    majorOpcode: bv8,
    minorOpcode: bv16,
    source: Operand,
    destination: Operand,
    format: bv2,
    raw0: bv16,
    raw1: bv16)
}
