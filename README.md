# MSP430/MSP430X emulator core in Dafny

A model of the core of an MSP430/MSP430X instruction-set emulator: the
decode tables, the CPU's decode-and-execute step with every handler it
dispatches to, the devices manager that routes each bus access to a device,
and the three internal devices (memory, the eight digital I/O ports and
the watchdog).  The MSP430X extensions it covers are the extension word
with its repetition count, MOVA/CMPA/ADDA/SUBA, CALLA, PUSHM/POPM and
RRCM/RRAM/RLAM/RRUM.

The model follows the code, not the MSP430 family user's guide, wherever
the two differ.  For example, BIT writes its result, ADD writes the
unmasked sum, DADD never sets C, and a read of a port's input register
uses a logical rather than a bitwise negation of the direction register.
This holds for the defects listed under "Findings" too.  For the MOV
NOP, the RRAM loop and addBCD, the CPU step runs the code as written; the corrected
behaviour is modelled beside it, with its intended property proved, and
nothing else uses it.  For the memory bounds checks, the code as written
goes on to index outside the array, which has no defined outcome; the
model's accesses test the bounds without wrap-around and turn such an access
into a fault.

## Layout

Each file is one module.  A file for an entity the source updates in
place holds both the pure functions that specify it and the class that
performs the same steps in place, proved against those functions.

| file | module | models |
|---|---|---|
| types.dfy | Types | register indices, addresses, the fatal conditions, `Result`, the instruction record |
| instruction_helper.dfy | InstructionHelper | the decode tables of MSP430InstructionHelper.cpp |
| memory.dfy | MemoryDevice | the little-endian byte store with its bounds checks; class `Memory` over an `array<bv8>` |
| port.dfy | PortDevice | the port register file, its output latch and its callbacks; class `Port` |
| watchdog.dfy | WatchdogDevice | the WDTCTL register; class `Watchdog` |
| bus.dfy | Bus | the address-to-device routing table and its first-wins registration |
| bus_access.dfy | BusAccess | byte, word and double-word accesses routed by their first address, as functions on the bus state |
| devices_manager.dfy | DevicesManagerClass | class `DevicesManager`: device creation, registration, routing and every access method |
| alu.dfy | Alu | status flags, width masks, jump conditions and offsets, flag formulas, BCD addition and the RRxM shift loops |
| decoder.dfy | Decoder | decodeInstruction and the group decoders, updateInstructionValue/Source/Destination, as functions of registers and bus |
| executor.dfy | Executor | runOneInstruction and every handler, as functions from machine to machine, with the lemmas about them |
| cpu.dfy | Cpu | class `Msp430`: the register array and the devices manager, with every step performed in place and proved to follow Decoder and Executor |

Every `assert` in the source that can fail on data (instruction bits,
addresses, device registers), and the three places inside the core with
undefined behaviour, become an `Err` carrying a `Fault`.  The three
undefined cases are a POPM register index beyond R15, an RRxM shift count
above the width, and a memory word or double-word access whose 32-bit
bounds check wraps (Memory.cpp), which becomes `AddressOutOfRange` (third
row of "Findings").  The source stops there, so a method that returns an
`Err` promises nothing about the state it leaves behind.  An `assert` on
an internal invariant becomes a `requires`.  A fourth undefined case, a
port index of -1 that registerPeripheral's caller can produce, lies
outside the core and is recorded under "Left out".

## Model

| member | source | states |
|---|---|---|
| InstructionHelper.DecodeMajorOpcode | src/core/MSP430InstructionHelper.cpp:13-23 | the result is always one of the values of `IsMajorOpcode` (0x00, 0x10, 0x14, 0x18, 0x1C, a jump opcode 0x20..0x3C step 4, or a multiple of 0x10 from 0x40); it is the high byte with its low nibble cleared when the top nibble is 0 or at least 4, and with only its two low bits cleared otherwise |
| InstructionHelper.WordSizeToBytes | src/core/MSP430InstructionHelper.cpp:25-39 | a size occupies 1, 2 or 4 bytes: the fewest bytes, among those, that hold all its bits, so the 20-bit size takes 4 |
| InstructionHelper.WordSizeInBits | src/core/MSP430InstructionHelper.cpp:41-55 | the width is 8, 16 or 20 bits, 8 exactly for a byte and 16 exactly for a word |
| InstructionHelper.AddrModeToWordSize | src/core/MSP430InstructionHelper.cpp:115-128 | the given size is kept exactly for the absolute, indexed, immediate and indirect-autoincrement modes (or when it is already a word); every other mode gives a word |
| InstructionHelper.BwAlFlagToWordSize | src/core/MSP430InstructionHelper.cpp:130-154 | fails exactly for an extended instruction with A/L = B/W = 0 (or a flag above 1); gives a byte exactly when B/W is set and, if extended, A/L is set too; gives the 20-bit size exactly for extended A/L = 0, B/W = 1 |
| InstructionHelper.AxFlagToAddrMode | src/core/MSP430InstructionHelper.cpp:156-190 | each mode in both directions: register iff 0; symbolic iff 1 on PC; absolute iff 1 on SR; indexed iff 1 on any other register; indirect iff 2, or 3 on a register other than PC; immediate iff 3 on PC; fails iff the flag exceeds 3; never yields indirect-autoincrement |
| InstructionHelper.AdFlagToAddrMode | src/core/MSP430InstructionHelper.cpp:192-199 | a destination's mode is the As/Ad mapping of its own flag and register; with the assertion on format I met, the mode is register, indexed, symbolic or absolute and never fails |
| InstructionHelper.AsFlagToAddrMode | src/core/MSP430InstructionHelper.cpp:201-204 | a source's mode is the As/Ad mapping of its own flag and register, and succeeds exactly when the flag is at most 3 |
| InstructionHelper.OpcodeToFormat | src/core/MSP430InstructionHelper.cpp:206-225 | format III exactly for 0x20..0x3C, format II exactly for 0x10 and 0x14, a fault exactly for the other opcodes between 1 and 0x3F, format I otherwise |
| InstructionHelper.ConstantGenerator | src/core/MSP430InstructionHelper.cpp:227-266 | succeeds exactly for R3 with As 0..3 and for R2 with As 2 or 3; R3 gives As itself for As < 3 and the 16-bit all-ones word for As = 3; R2 gives 1 << As (4 or 8) |
| InstructionHelper.FormatOfEveryMajorOpcode | src/core/MSP430InstructionHelper.cpp:206-225 | on every instruction word, the format lookup of the major opcode fails exactly for the 0x18/0x1C extension-word prefixes (top six bits 6 or 7), gives format III exactly when the top three bits are 001, and format II exactly for the 0x10 and 0x14 groups |
| MemoryDevice.LoadByte | src/core/Memory.cpp:21-25 | succeeds exactly when the address is inside the array, then gives the byte stored there; otherwise an out-of-range fault |
| MemoryDevice.LoadWord | src/core/Memory.cpp:27-33 | succeeds exactly when both bytes are inside the array; the low byte of the result is the byte at `a` and the high byte the one at `a + 1` |
| MemoryDevice.LoadDWord | src/core/Memory.cpp:35-44 | succeeds exactly when all four bytes are inside the array, and is then the little-endian value of those bytes |
| MemoryDevice.LoadDWordBytes | src/core/Memory.cpp:35-44 | byte k of a double word read is the byte at `a + k` |
| MemoryDevice.ByteOfLittleEndian | src/core/Memory.cpp:38-43 | the read loop that ors byte i in at position 8·i leaves each stored byte at its own position |
| MemoryDevice.StoreByte | src/core/Memory.cpp:46-50 | succeeds exactly inside the array; then `a` holds the byte and every other cell is unchanged |
| MemoryDevice.StoreWord | src/core/Memory.cpp:52-57 | succeeds exactly when both bytes fit; then `a` holds the low byte, `a + 1` the high byte, and every other cell is unchanged |
| MemoryDevice.StoreDWord | src/core/Memory.cpp:59-66 | succeeds exactly when all four bytes fit; then `a + k` holds byte k for k < 4 and every other cell is unchanged |
| MemoryDevice.StoreThenLoad | src/core/Memory.cpp:27-66 | a word written is read back unchanged, and so is a double word |
| MemoryDevice.BytesDetermineDWord | src/core/Memory.cpp:35-66 | two double words with the same four bytes are equal |
| MemoryDevice.StoreDWordFrame | src/core/Memory.cpp:59-66 | a double word write changes no byte outside its four: a byte read elsewhere is the same before and after |
| MemoryDevice.AsWrittenCheckAdmitsWrappedAddresses | src/core/Memory.cpp:27-66 | the bounds checks as written, with a 32-bit sum, accept a word access at 0xFFFFFFFF and a double word access at 0xFFFFFFFD, whose bytes lie outside the array |
| MemoryDevice.AsWrittenCheckAgreesWithoutWrap | src/core/Memory.cpp:21-66 | wherever the 32-bit sum does not wrap, the check as written accepts exactly the accesses whose bytes all lie in the array |
| MemoryDevice.Memory.constructor | src/core/Memory.cpp:7-12 | the device owns a fresh array of 0x1FFFFF bytes (addresses 0..0x1FFFFE); the contents are left unspecified |
| MemoryDevice.Memory.ReadByte | src/core/Memory.cpp:21-25 | the method returns exactly what `LoadByte` says of the array's contents |
| MemoryDevice.Memory.ReadWord | src/core/Memory.cpp:27-33 | the method returns exactly what `LoadWord` says of the array's contents |
| MemoryDevice.Memory.ReadDWord | src/core/Memory.cpp:35-44 | the loop that ors in four bytes returns exactly what `LoadDWord` says |
| MemoryDevice.Memory.WriteByte | src/core/Memory.cpp:46-50 | the new contents are those `StoreByte` gives; on a fault nothing changes |
| MemoryDevice.Memory.WriteWord | src/core/Memory.cpp:52-57 | the new contents are those `StoreWord` gives; on a fault nothing changes |
| MemoryDevice.Memory.WriteDWord | src/core/Memory.cpp:59-66 | the loop leaves exactly the contents `StoreDWord` gives; on a fault nothing changes |
| PortDevice.PortConfigOf | src/core/Port1.cpp:3-13 | the register addresses of port k as its constructor passes them (Port1.cpp .. Port8.cpp); ports 1 and 2, and only they, have nonzero interrupt-flag, edge-select and interrupt-enable addresses |
| PortDevice.InitialState | src/core/Port.h:17-21 | a fresh port holds the given input latch and output byte, every other register zero, and no callbacks or transmit calls |
| PortDevice.NonzeroRanges | src/core/Port.cpp:28-40 | one single-address range per address, never for address 0, and no more ranges than addresses |
| PortDevice.NonzeroRangesCover | src/core/Port.cpp:28-40 | the ranges cover an address exactly when it is nonzero and one of the given addresses |
| PortDevice.OutLatch | src/core/Port.cpp:107-121 | the byte an output write latches, for each output address: port 1 (0x21) ors in 0x90, port 4 (0x1d) 0xE0, port 6 (0x35) 0x80, port 8 (0x3b) always latches 0x10, and every other port (port 2 at 0x29 included) ors in 0x01; every port but port 8 keeps all the bits of the masked byte |
| PortDevice.Broadcast | src/core/Port.cpp:42-48 | one call per transmit callback, in registration order, each with the byte written |
| PortDevice.InputValue | src/core/Port.cpp:56-61 | reading the input register gives at most 1: 0 whenever the direction register is nonzero, otherwise bit 0 of latch & resistor-enable |
| PortDevice.ReadRegister | src/core/Port.cpp:50-98 | a read succeeds exactly at the port's eight register addresses and faults elsewhere; checked in the source's order, the input address gives the masked input, then the output, direction, select, resistor-enable, edge-select, flag and enable addresses give their stored register |
| PortDevice.WriteRegisterFails | src/core/Port.cpp:100-160 | a byte write succeeds exactly at the port's register addresses and faults elsewhere |
| PortDevice.WriteRegister | src/core/Port.cpp:100-160 | no contract of its own: its outcome is stated by WriteRegisterFails, WriteOutputNotifies and WriteOtherIsSilent |
| PortDevice.WriteOutput | src/core/Port.cpp:106-125 | no contract of its own: WriteOutputNotifies states the latched byte, the output register and the transmit log it leaves |
| PortDevice.WriteControl | src/core/Port.cpp:126-159 | no contract of its own: WriteOtherIsSilent states the state it leaves and WriteRegisterFails where it faults |
| PortDevice.WriteOutputNotifies | src/core/Port.cpp:106-125 | a write to the output register latches OutLatch of the byte masked by the resistor-enable and direction registers; it changes only the latch, the output register (to the same byte) and the transmit log, which gains one call of every transmit callback, in order, with that byte |
| PortDevice.WriteOtherIsSilent | src/core/Port.cpp:126-154 | every other accepted write leaves the latch, the output register, the callbacks and the transmit log unchanged; checked in the order ren, dir, sel, a write there replaces that register and nothing else, and a write to an interrupt register or the input register changes nothing at all |
| PortDevice.PortAddressesDistinct | src/core/Port1.cpp:3-10 | the nonzero register addresses of each of the eight ports are pairwise distinct |
| PortDevice.ControlRegisterRoundTrip | src/core/Port.cpp:66-137 | a byte written to the direction, select or resistor-enable register is read back unchanged |
| PortDevice.InterruptRegisterIgnoresWrites | src/core/Port.cpp:138-149 | on a port whose nonzero addresses are distinct, a byte written to the flag, edge-select or enable register is dropped: the register reads back what it held before |
| PortDevice.OutputRoundTrip | src/core/Port.cpp:62-125 | the output register reads back the byte the last output write latched |
| PortDevice.Port.constructor | src/core/Port.h:14-22 | the port keeps its configuration, its ranges are those of setAddresses on the addresses in constructor order, and its state is the initial one with the given latch and output byte |
| PortDevice.Port.SetAddresses | src/core/Port.cpp:28-40 | the loop returns exactly the ranges `NonzeroRanges` gives |
| PortDevice.Port.Init | src/core/Port.cpp:6-10 | only the input latch changes, to 0x90 |
| PortDevice.Port.RegisterPeripheral | src/core/Port.cpp:22-26 | appends exactly one receive and one transmit callback and changes nothing else |
| PortDevice.Port.InvokeTxCbs | src/core/Port.cpp:42-48 | the loop appends one call of every transmit callback, in order, to the log and changes nothing else |
| PortDevice.Port.ReadByte | src/core/Port.cpp:50-98 | the method returns exactly what `ReadRegister` says of the port's state |
| PortDevice.Port.WriteByte | src/core/Port.cpp:100-160 | the new state is the one `WriteRegister` gives; on a fault nothing changes |
| PortDevice.Port.WriteOut | src/core/Port.cpp:106-125 | the output branch leaves exactly the state `WriteOutput` gives |
| PortDevice.Port.ReadWord | src/core/Port.cpp:162-166 | a word read always faults |
| PortDevice.Port.WriteWord | src/core/Port.cpp:168 | a word write always faults |
| WatchdogDevice.ReadWdtctl | src/core/MSP430Watchdog.cpp:29-41 | succeeds exactly at 0x120, with WDTCTL; every other address faults |
| WatchdogDevice.WriteWdtctl | src/core/MSP430Watchdog.cpp:43-57 | succeeds exactly at 0x120, and WDTCTL becomes the word; every other address faults |
| WatchdogDevice.WdtctlRoundTrip | src/core/MSP430Watchdog.cpp:29-57 | a word written to WDTCTL is read back unchanged, and the range's second address 0x121 can be neither read nor written |
| WatchdogDevice.Watchdog.constructor | src/core/MSP430Watchdog.cpp:6-17 | after construction WDTCTL is 0x6900 |
| WatchdogDevice.Watchdog.Init | src/core/MSP430Watchdog.cpp:13-17 | WDTCTL becomes 0x6900 |
| WatchdogDevice.Watchdog.ReadWord | src/core/MSP430Watchdog.cpp:29-41 | the method returns exactly what `ReadWdtctl` says |
| WatchdogDevice.Watchdog.WriteWord | src/core/MSP430Watchdog.cpp:43-57 | the outcome and the new WDTCTL are those `WriteWdtctl` gives; on a fault WDTCTL is unchanged |
| WatchdogDevice.Watchdog.WriteByte | src/core/MSP430Watchdog.h:20 | a byte write is accepted at any address and changes nothing |
| Bus.RegisterRange | src/core/DevicesManager.cpp:107-119 | after registering a range, an address is mapped exactly when it was mapped before or lies in the range; an address mapped before keeps its device, and every newly mapped address gets the registering device |
| Bus.RegisterRangeStep | src/core/DevicesManager.cpp:112-118 | one more turn of the address loop maps the next address to the device unless it is already taken |
| Bus.RegisterEmptyRange | src/core/DevicesManager.cpp:112 | a range whose end lies below its start registers nothing |
| Bus.Route | src/core/DevicesManager.cpp:107-119 | the first registration covering an address exists exactly when some registration covers it |
| Bus.RegisterAllRoute | src/core/DevicesManager.cpp:107-119 | after any sequence of registrations an address is mapped exactly when it was mapped before or some registration covers it, and then to its old device or else to the device of the first covering registration: the first registration wins |
| Bus.RouteAppend | src/core/DevicesManager.cpp:42-52 | routing through two lists of registrations is routing through the first, and through the second only where the first covers nothing |
| Bus.RegisterAllAppend | src/core/DevicesManager.cpp:42-52 | registering two lists in one go is registering the first, then the second |
| Bus.TaggedNonzeroRoute | src/core/Port.cpp:28-40 | the single-address ranges a port registers route an address to that port exactly when it is one of its nonzero register addresses |
| Bus.PortRegistrationsStep | src/core/DevicesManager.cpp:42-52 | a port registered before others takes its own nonzero register addresses and leaves every other address to the later registrations |
| Bus.PortRangesTableUnique | src/core/DevicesManager.cpp:28-40 | the ranges of ports 1 to 8 are fixed by their constructors: any table that lists them is the same table |
| Bus.BootRoutesOfTable | src/core/DevicesManager.cpp:23-66 | the map the constructor builds from the ports' own range lists is the boot map |
| Bus.PortOfRegisterIff | src/core/Port1.cpp:3-10 | the address table of the ports agrees with every port's configuration: an address belongs to port k exactly when it is a nonzero register address of port k |
| Bus.PortAddressesDisjoint | src/core/Port1.cpp:3-10 | no nonzero register address belongs to two ports |
| Bus.Owner | src/core/DevicesManager.cpp:130-139 | a port owner is one of ports 1 to 8 |
| Bus.OwnerCases | src/core/DevicesManager.cpp:23-66 | who answers where, in both directions: the watchdog exactly at 0x120 and 0x121, port k exactly at its nonzero register addresses, the memory exactly at every other address |
| Bus.PortRegistrationsRoute | src/core/DevicesManager.cpp:42-64 | registering ports i+1 to 8 in order routes a register address to its own port when that port is among them, and nowhere otherwise |
| Bus.RegistrationsRoute | src/core/DevicesManager.cpp:27-52 | among the boot registrations the first that covers an address is that of its owner (watchdog or port) although the memory range registered last covers the port registers too; other addresses up to the end of the memory range go to the memory and those above to no registration |
| Bus.LookupRegistered | src/core/DevicesManager.cpp:107-139 | looking an address up after registering a list on an empty map gives the first covering registration's device, or the memory when nothing covers it |
| Bus.RoutesOwner | src/core/DevicesManager.cpp:130-139 | after registering the boot ranges, getDeviceForAddress returns the owner of every address |
| Bus.RegisteredRoutesToOwners | src/core/DevicesManager.cpp:23-66 | the boot map routes every address to its owner |
| Bus.BootRoutesOwner | src/core/DevicesManager.cpp:23-66 | the boot map sends each address to its owner: the watchdog's two addresses to the watchdog, each port register to its port, everything else to the memory |
| Bus.PortTableAgrees | src/core/Port1.cpp:3-10 | for each of the eight ports, an address is a nonzero register of the port exactly when the address table names that port |
| BusAccess.AccessWidths | src/core/DevicesManager.cpp:182-214 | read and write refuse any width other than 1, 2 and 4 bytes, and a narrow read is zero-extended to 32 bits |
| BusAccess.ReadByte | src/core/DevicesManager.cpp:141-147 | no contract of its own: routed by Owner of the address; WatchdogAccesses, PortAccesses and MemoryAccessFits state what each device answers |
| BusAccess.ReadWord | src/core/DevicesManager.cpp:149-155 | no contract of its own: routed by Owner; WatchdogAccesses (WDTCTL), PortAccesses (ports fault) and MemoryAccessFits state the answers |
| BusAccess.ReadDWord | src/core/DevicesManager.cpp:157-162 | no contract of its own: only memory answers, as PortAccesses and MemoryAccessFits state |
| BusAccess.WriteByte | src/core/DevicesManager.cpp:164-168 | no contract of its own: WriteFrame states that only the answering device changes, PortAccesses the port round trip, WatchdogAccesses that the watchdog ignores the byte |
| BusAccess.WriteWord | src/core/DevicesManager.cpp:170-174 | no contract of its own: WatchdogAccesses and MemoryWordWriteThenRead state its effect, StraddlingWriteBypassesWatchdog its routing by the first address |
| BusAccess.WriteDWord | src/core/DevicesManager.cpp:176-180 | no contract of its own: MemoryWriteThenRead and WriteFrame state its effect on memory and on the other devices |
| BusAccess.Read | src/core/DevicesManager.cpp:182-196 | no contract of its own: AccessWidths states the width dispatch and the zero extension |
| BusAccess.Write | src/core/DevicesManager.cpp:198-214 | no contract of its own: AccessWidths, MemoryWriteThenRead and WriteFrame state the width dispatch and the truncated value written |
| BusAccess.MemoryAccessFits | src/core/DevicesManager.cpp:141-180 | at an address the memory answers, a read or write of each width succeeds exactly when all its bytes lie inside the array, and a failed read is an out-of-range fault |
| BusAccess.MemoryWriteThenRead | src/core/DevicesManager.cpp:182-214 | a value written to the memory through the bus is read back through the bus, truncated to the access width |
| BusAccess.MemoryByteWriteThenRead | src/core/DevicesManager.cpp:182-214 | a byte written to the memory is read back as the low byte of the value |
| BusAccess.MemoryWordWriteThenRead | src/core/DevicesManager.cpp:182-214 | a word written to the memory is read back as the low word of the value |
| BusAccess.MemoryWordRoundTrip | src/core/DevicesManager.cpp:182-214 | a word written to the memory with writeWord is read back whole by readWord |
| BusAccess.MemoryWordWriteKeepsOthers | src/core/DevicesManager.cpp:182-214 | a word written to the memory leaves every memory word it does not overlap as it was |
| BusAccess.WriteFrame | src/core/DevicesManager.cpp:164-180 | a successful write changes only the device answering at its address: the memory, WDTCTL and each port keep their state unless they answer there |
| BusAccess.WatchdogAccesses | src/core/MSP430Watchdog.cpp:29-57 | through the bus, a word written to WDTCTL reads back, byte writes to 0x120 and 0x121 are ignored, a byte read at 0x120 faults, and 0x121 can be neither read nor written as a word |
| BusAccess.PortAccesses | src/core/Port.cpp:62-168 | through the bus, a word or double-word access to a port register faults, and a byte written to a port's direction register reads back |
| BusAccess.StraddlingWriteBypassesWatchdog | src/core/DevicesManager.cpp:170-174 | an access goes to the device of its first address: a word written to the memory at 0x11F puts its high byte into the memory array at 0x120, and WDTCTL stays the same |
| BusAccess.LowWord | src/core/DevicesManager.cpp:205-206 | the word passed on by a two-byte write is the value's low 16 bits; CALLA's second push takes PC's low half the same way |
| DevicesManagerClass.PortStatesOf | src/core/DevicesManager.h:50 | the ports' states, one per port, in order |
| DevicesManagerClass.RangesOf | src/core/Device.h:54 | the address ranges of each port, in order |
| DevicesManagerClass.DevicesManager.constructor | src/core/DevicesManager.cpp:21-66 | the manager owns a fresh watchdog, fresh ports 1 to 8 and a fresh memory; the map is built by registering the watchdog, the ports and the memory in that order, and routes every address to its owner; WDTCTL is 0x6900 and each port is in its initial state |
| DevicesManagerClass.DevicesManager.CreatePorts | src/core/DevicesManager.cpp:28-46 | the factory loop creates eight distinct fresh ports, port k with its own configuration, ranges and initial state |
| DevicesManagerClass.DevicesManager.LoadInternalDevices | src/core/DevicesManager.cpp:42-65 | the loop over the devices leaves the map that registering the watchdog, each port's ranges in order and the memory, last, onto an empty map gives |
| DevicesManagerClass.DevicesManager.RegisterRanges | src/core/DevicesManager.cpp:49-52 | the ranges of one device are registered one after the other |
| DevicesManagerClass.DevicesManager.RegisterDeviceRange | src/core/DevicesManager.cpp:107-119 | the address loop leaves exactly the map `RegisterRange` gives |
| DevicesManagerClass.DevicesManager.GetDeviceForAddress | src/core/DevicesManager.cpp:130-139 | the device returned is the owner of the address |
| DevicesManagerClass.DevicesManager.ReadByte | src/core/DevicesManager.cpp:141-147 | the byte read is what `BusAccess.ReadByte` says of the devices' states |
| DevicesManagerClass.DevicesManager.ReadWord | src/core/DevicesManager.cpp:149-155 | the word read is what `BusAccess.ReadWord` says |
| DevicesManagerClass.DevicesManager.ReadDWord | src/core/DevicesManager.cpp:157-162 | the double word read is what `BusAccess.ReadDWord` says |
| DevicesManagerClass.DevicesManager.WriteByte | src/core/DevicesManager.cpp:164-168 | the outcome and the new state of every device are those `BusAccess.WriteByte` gives; on a fault nothing changes |
| DevicesManagerClass.DevicesManager.WritePortByte | src/core/DevicesManager.cpp:164-168 | a byte write routed to port k changes that port alone, as `WriteRegister` says |
| DevicesManagerClass.DevicesManager.WriteWord | src/core/DevicesManager.cpp:170-174 | the outcome and the new state are those `BusAccess.WriteWord` gives |
| DevicesManagerClass.DevicesManager.WriteDWord | src/core/DevicesManager.cpp:176-180 | the outcome and the new state are those `BusAccess.WriteDWord` gives |
| DevicesManagerClass.DevicesManager.Read | src/core/DevicesManager.cpp:182-196 | the value read is what `BusAccess.Read` says for the width |
| DevicesManagerClass.DevicesManager.Write | src/core/DevicesManager.cpp:198-214 | the outcome and the new state are those `BusAccess.Write` gives for the width |
| DevicesManagerClass.DevicesManager.RegisterPeripheral | src/core/DevicesManager.cpp:101-105 | port `port` gains one receive and one transmit callback, and no other device changes |
| DevicesManagerClass.DevicesManager.UpdateAllDevices | src/core/DevicesManager.cpp:216-222 | updateAllDevices calls a device's update once per entry of the address map, not once per device, and changes nothing since every update is empty |
| Alu.ResetRegs | src/core/MSP430.cpp:29-35 | after a reset PC is 0x471c, SP is 0x2de0 and every other register is zero |
| Alu.IncPc | src/core/MSP430.cpp:173-175 | the program counter moves on by 2 and no other register changes |
| Alu.WithFlags | src/core/MSP430.h:22-39 | writing the flags sets bit 0 exactly when C is set, bit 1 for Z, bit 2 for N and bit 8 for V, and keeps every other bit of the status register |
| Alu.FlagsRoundTrip | src/core/MSP430.cpp:188-213 | the flags read back are those written, and writing back the flags just read leaves the status register unchanged |
| Alu.Mask | src/core/MSP430.cpp:889-909 | the mask is 0xFF exactly for a byte, 0xFFFF exactly for a word, and 0xFFFFF otherwise |
| Alu.Truncated | src/core/MSP430.cpp:889-909 | a value cut to an operand size has no bit above that size |
| Alu.SignMask | src/core/MSP430.cpp:911-917 | the sign mask is a single bit under the mask, the top one: doubled it is the mask plus one |
| Alu.ConditionPairs | src/core/MSP430.cpp:1031-1059 | JEQ is the complement of JNE, JC of JNC, JL of JGE; JMP is always taken; and every condition depends on C, Z, N and V alone |
| Alu.CheckCondition | src/core/MSP430.cpp:1031-1059 | no contract of its own: ConditionPairs states the complement pairs, that JMP is always taken and that only C, Z, N and V matter |
| Alu.JumpOffset | src/core/MSP430.cpp:1070-1082 | the ten-bit offset is the field itself when bit 9 is clear and the field less 1024 when it is set |
| Alu.JumpTargets | src/core/MSP430.cpp:1084-1089 | offset -1 jumps to the jump itself and offset 0 goes on to the next word |
| Alu.LogicFlags | src/core/MSP430.cpp:1366-1385 | Z is set exactly when the whole 32-bit result is zero, C exactly when Z is clear, N never together with Z, and V only for XOR |
| Alu.AddCarryIsCarryOut | src/core/MSP430.cpp:1116-1137 | on operands of the instruction's width, the carry ADD and ADDC set is the bit the sum carries out of that width |
| Alu.AddFlags | src/core/MSP430.cpp:1127-1144 | no contract of its own: AddCarryIsCarryOut states what its C means, Executor.AddIntoRegister where it lands |
| Alu.SubZeroIsEquality | src/core/MSP430.cpp:1243-1288 | SUB's and CMP's Z is set exactly when the operands agree on every bit of the width, whether the difference is masked before the test or not |
| Alu.SubFlags | src/core/MSP430.cpp:1256-1272 | no contract of its own: SubZeroIsEquality and Executor.SubWithoutBorrow state what its Z and C mean |
| Alu.WidthDifference | src/core/MSP430.cpp:1243-1288 | the difference is zero under the mask exactly when the operands agree under it |
| Alu.NibbleMask | src/core/MSP430.cpp:1321 | the nibble mask of each round is nonzero |
| Alu.BcdRounds | src/core/MSP430.cpp:1321 | addBCD runs at most five rounds, and round i runs exactly when its nibble mask is at or below the width's mask |
| Alu.AddBcd | src/core/MSP430.cpp:1311-1336 | addBCD's rounds as written, masked, never exceed the mask of the width; the result is not the decimal sum above the lowest digit (AddBcdAsWrittenDiffers, fourth row of "Findings") |
| Alu.AddBcdAsWrittenDiffers | src/core/MSP430.cpp:1321-1333 | on bytes, addBCD as written gives 0x26 for 0x10 + 0x10 and 0x16 for 0x05 + 0x05, where the digit-wise adder gives 0x20 and 0x10 |
| Alu.DecimalAddFrom | src/core/MSP430.cpp:1321-1333 | the corrected digit-wise adder with an incoming carry: its result has no more nibbles than the digits added |
| Alu.AddDecimal | src/core/MSP430.cpp:1311-1336 | the corrected addBCD: its result fits the nibbles of the width, so it never exceeds the width's mask |
| Alu.DigitsFillWidth | src/core/MSP430.cpp:1321 | the rounds of addBCD cover the width exactly: 16 to the number of rounds is the width's mask plus one |
| Alu.DecimalAddIsSum | src/core/MSP430.cpp:1353-1354 | on packed decimal operands and a carry of at most one, the digit-wise adder gives packed decimal digits standing for the decimal sum modulo 10 to the number of digits |
| Alu.AddDecimalIsSum | src/core/MSP430.cpp:1311-1336 | the corrected addBCD on operands whose digits over the width are decimal gives decimal digits standing for the sum modulo 100 (byte), 10000 (word) or 100000 (20 bits) |
| Alu.DaddNeverCarries | src/core/MSP430.cpp:1335-1356 | DADD's carry test `value > mask` never succeeds: addBCD has already masked its result |
| Alu.DaddFlags | src/core/MSP430.cpp:1345-1356 | no contract of its own: DaddFlagsOfValue states what each flag is |
| Alu.DaddFlagsOfValue | src/core/MSP430.cpp:1345-1356 | for a value within the width, DADD sets Z exactly when the value is zero and N exactly when its top bit is set, never sets C, and keeps V |
| Alu.RlamStepIsShift | src/core/MSP430.cpp:1195-1202 | one RLAM round as written is a plain left shift within the width: the test of the bit above the mask, after masking, never fires |
| Alu.RlamIsShift | src/core/MSP430.cpp:1193-1203 | the RLAM loop as written is n plain left shifts within the width |
| Alu.Rlam | src/core/MSP430.cpp:1193-1203 | no contract of its own: RlamIsShift states that the loop as written is n left shifts within the width |
| Alu.SmearStepKeepsBits | src/core/MSP430.cpp:1189 | one RRAM round as written stays within the width and keeps every bit of its input |
| Alu.KeepsBitsTransitive | src/core/MSP430.cpp:1187-1190 | keeping every bit is transitive across rounds |
| Alu.RramKeepsBits | src/core/MSP430.cpp:1185-1191 | the RRAM loop as written stays within the width and keeps every bit of its input: it never clears a bit, so it is no shift |
| Alu.Rram | src/core/MSP430.cpp:1185-1191 | no contract of its own: RramKeepsBits and RramSmearsLowBits state what the loop as written computes |
| Alu.RramSmearsLowBits | src/core/MSP430.cpp:1185-1191 | the RRAM loop as written turns 2 into 3 on a word, where an arithmetic shift gives 1 |
| Alu.RraStep | src/core/MSP430.cpp:1185-1191 | an intended RRAM round stays within the width |
| Alu.RraStepIsArithmeticByte | src/core/MSP430.cpp:1185-1191 | on a byte, an intended RRAM round is the sign-extended value shifted right by one and cut back to 8 bits |
| Alu.RraStepIsArithmeticWord | src/core/MSP430.cpp:1185-1191 | the same on a word |
| Alu.RraStepIsArithmeticAddress | src/core/MSP430.cpp:1185-1191 | the same on a 20-bit value |
| Alu.RraStepIsArithmetic | src/core/MSP430.cpp:1185-1191 | on every width, an intended RRAM round is an arithmetic right shift by one |
| Alu.Rra | src/core/MSP430.cpp:1185-1191 | n intended RRAM rounds stay within the width |
| Alu.RraHalvesTwo | src/core/MSP430.cpp:1185-1191 | one intended RRAM round turns 2 into 1 on a word |
| Alu.RraKeepsSign | src/core/MSP430.cpp:1185-1191 | every intended RRAM round keeps the sign bit of the width |
| Alu.ShiftLeftWithinStays | src/core/MSP430.cpp:1193-1203 | left shifts within the mask stay within it |
| Alu.ShiftRightStays | src/core/MSP430.cpp:1205-1208 | a right shift of a value within the mask stays within it |
| Alu.OrMaskIsMask | src/core/MSP430.cpp:1179-1183 | or-ing the whole mask into a value within the width gives the mask, so RRCM with C set yields the all-ones value of the width |
| Decoder.RegValue | src/core/MSP430.cpp:288-289 | a register number taken from four bits of a word is at most 15 |
| Decoder.ByteCount | src/core/MSP430InstructionHelper.cpp:25-39 | an operand occupies 1, 2 or 4 bytes |
| Decoder.Minor00 | src/core/MSP430.cpp:340-429 | the minor opcode of the 0x00 group is at most 15 |
| Decoder.DestinationMode00 | src/core/MSP430.cpp:340-429 | every 0x00-group instruction has its destination in register, absolute or indexed mode |
| Decoder.Decode00 | src/core/MSP430.cpp:340-429 | MOVA, CMPA, ADDA, SUBA and RRxM decode as extended format-II instructions with the minor opcode from bits 7..4, the source register from bits 11..8 and the destination register from bits 3..0; a register destination is word-sized and every other one 20-bit; the source is resolved exactly when the instruction is no RRxM, whose source is instead the immediate shift count from bits 11..10 |
| Decoder.Decode10 | src/core/MSP430.cpp:431-502 | the 0x10 group decodes exactly for RETI and the seven CALLA forms, and faults as unimplemented otherwise; a decoded one is an extended format-II instruction with no destination and a 20-bit source in the register of bits 3..0 |
| Decoder.Decode14 | src/core/MSP430.cpp:504-538 | PUSHM and POPM decode exactly when the high byte is 0x14..0x17 (otherwise a reserved-opcode fault): the minor opcode is the high byte, the source value the count less one (bits 7..4) and the destination value the register (bits 3..0), neither resolved further |
| Decoder.BwFlag | src/core/MSP430.cpp:281 | the B/W bit is 0 or 1 |
| Decoder.AlFlag | src/core/MSP430.cpp:282-283 | the A/L bit is 0 or 1 |
| Decoder.AsField | src/core/MSP430.cpp:286 | the As field is at most 3 |
| Decoder.AdField | src/core/MSP430.cpp:287 | the Ad bit is 0 or 1 |
| Decoder.JumpField | src/core/MSP430.cpp:299 | the offset field a jump keeps in its destination value is at most 0x1FF |
| Decoder.JumpOperands | src/core/MSP430.cpp:295-302 | a format III word gets an indexed source and no destination, neither resolved, and the offset field as its destination value; nothing else changes |
| Decoder.SourceValue | src/core/MSP430.cpp:311-328 | the initial source value is at most 15 |
| Decoder.DestinationValue | src/core/MSP430.cpp:315-323 | the initial destination value is at most 15 |
| Decoder.TwoOperands | src/core/MSP430.cpp:304-328 | a format I or II word gets both operands resolved later, the registers from bits 11..8 and 3..0, and a destination mode that updateInstructionDestination accepts |
| Decoder.Fetch | src/core/MSP430.cpp:244-250 | no contract of its own: a readWord at PC; Decoder.Decode and Executor.Step state that a failed or zero fetch stops the step |
| Decoder.DecodeCore | src/core/MSP430.cpp:266-329 | a decoded core word keeps the fetched words, records whether it is extended and takes its minor opcode from the major opcode of the core word; its destination mode is one updateInstructionDestination accepts; a jump carries its offset field and has no destination |
| Decoder.ExtendValue | src/core/MSP430.cpp:547-570 | an operand needing an extension word moves PC on by 2 and has its value shifted up 16 bits with the word fetched there below it, and the fetch is the only way this step fails; any other operand is left as it is |
| Decoder.ReadOperand | src/core/MSP430.cpp:580-597 | an operand read from the bus has no bit above its size |
| Decoder.ReadAt | src/core/MSP430.cpp:578-598 | a memory operand's address becomes the computed address, its value the masked read, and no register changes |
| Decoder.ReadIncrement | src/core/MSP430.cpp:600-604 | `@Rn+` reads at the address in Rn and then moves Rn on by the operand's size in bytes; the operand's address is not set |
| Decoder.ResolveMode | src/core/MSP430.cpp:572-616 | an immediate or unused operand is left alone; a register operand takes the register masked to its size; the others read memory and fit their size; only `@Rn+` changes a register, moving Rn on by the operand's size |
| Decoder.UpdateValue | src/core/MSP430.cpp:540-622 | only the operand's value and address change; a value not marked for update stays, a resolved one fits its size, and only PC and Rn of `@Rn+` may change |
| Decoder.FetchesExtraWord | src/core/MSP430.cpp:549-562 | no contract of its own: UpdateValue states that exactly these modes, when marked for update, fetch the next word |
| Decoder.UpdateSource | src/core/MSP430.cpp:624-644 | a constant-generator source (R3 with As 0..3, R2 with As 2 or 3) becomes an immediate with the generated value and no register changes; an unused source is left alone; every source keeps the registers but PC and Rn of `@Rn+` |
| Decoder.UpdateDestination | src/core/MSP430.cpp:646-661 | an unused destination is left alone; a resolved one keeps its mode and the registers but PC |
| Decoder.DecodeExtended | src/core/MSP430.cpp:707-722 | after an extension word PC has moved on by 2, the second word is the word fetched there, the repetition count and ZC bit are those of the extension word, and the instruction is marked extended |
| Decoder.DecodeFields | src/core/MSP430.cpp:673-727 | every group decoder leaves a destination mode updateInstructionDestination accepts, and only an extension word moves PC |
| Decoder.Decode | src/core/MSP430.cpp:673-737 | a word that cannot be fetched is that fault, and a zero word is refused |
| Decoder.DecodeFrame | src/core/MSP430.cpp:673-737 | decoding changes no register but PC and, for an `@Rn+` source, Rn |
| Decoder.RepetitionOnlyExtended | src/core/MSP430.cpp:705-727 | only an extension word brings a repetition count: every other instruction decodes with a count of 0 |
| Decoder.JumpDecodes | src/core/MSP430.cpp:266-302 | a jump word decodes without fetching more: PC stays put, the format is III, and the destination value holds the offset field |
| Decoder.PushPopDecodes | src/core/MSP430.cpp:504-538 | a PUSHM or POPM word always decodes, without further fetches or reads, into its count less one and its register |
| Decoder.MovZeroToStatusFields | src/core/MSP430.cpp:266-320 | 0x4302 is a word-sized MOV from R3 with As 0 to SR in register mode |
| Decoder.MovZeroToStatusDecodes | src/core/MSP430.cpp:624-634 | `MOV #0, SR` decodes without fetching more: PC stays put, the source is the immediate 0 from the constant generator and the destination is SR in register mode |
| Executor.SetRegister | src/core/MSP430.cpp:179-184 | setRegister changes the one register and leaves the bus alone |
| Executor.NextPc | src/core/MSP430.cpp:173-175 | regIncPc moves PC on by 2 and changes nothing else |
| Executor.SetStatus | src/core/MSP430.cpp:188-213 | writing back a status register read earlier installs exactly the four new flags, keeps that earlier copy's other bits and leaves the bus alone |
| Executor.RegisterWrite | src/core/MSP430.cpp:919-946 | a register destination takes the whole value and PC moves on by 2; when the destination is PC it takes the value, plus 2 unless the increment is suppressed |
| Executor.BusWrite | src/core/MSP430.cpp:919-946 | a memory destination is written on the bus at the operand's address and width, and fails exactly when that bus write fails; PC moves on by 2 |
| Executor.InstructionWrite | src/core/MSP430.cpp:919-946 | instructionWrite goes to the register for register mode and to the bus for every other mode |
| Executor.RunJump | src/core/MSP430.cpp:1061-1097 | a taken jump moves PC to the target of the signed 10-bit offset, an untaken one by 2; no other register and nothing on the bus changes |
| Executor.JumpToSelf | src/core/MSP430.cpp:1061-1097 | a JMP whose offset field is all ones leaves the whole machine unchanged |
| Executor.RunMovAsWritten | src/core/MSP430.cpp:1100-1110 | the NOP form (immediate 0 into SR) returns the machine untouched, PC included; every other MOV writes the source value without the forced PC increment |
| Executor.RunMov | src/core/MSP430.cpp:1100-1110 | the corrected half of the first finding, MOV without the NOP branch: it agrees with the MOV as written off the NOP form, and into a register other than PC it sets that register to the source value, moves PC on and changes nothing else; the step does not use it |
| Executor.StatusClearHangsAsWritten | src/core/MSP430.cpp:1100-1110 | as written, a step on the word 0x4302 gives back exactly the machine it started from, PC included, so the same word runs again for ever |
| Executor.StatusClearMovesOn | src/core/MSP430.cpp:1100-1110 | with the corrected RunMov, the word 0x4302 (`MOV #0, SR`, that is CLR SR) as decoded sets SR to 0, moves PC past it and changes nothing else |
| Executor.CarryIn | src/core/MSP430.cpp:1118-1121 | the carry addend of ADDC is 1 exactly when C is set and 0 otherwise |
| Executor.CarryAddend | src/core/MSP430.cpp:1116-1121 | ADD adds at most one beyond the two operands |
| Executor.AddIntoRegister | src/core/MSP430.cpp:1112-1148 | ADD and ADDC into a register other than PC and SR always succeed: the register takes the unmasked sum, SR the addition flags of it at the destination's width, PC moves on by 2, and no other register and nothing on the bus changes |
| Executor.AddSumCarriesOut | src/core/MSP430.cpp:1135-1137 | on operands of the width, the C flag of ADD and ADDC is set exactly when the sum carries out of the width |
| Executor.RunAdd | src/core/MSP430.cpp:1112-1148 | a register destination never faults, and after a successful ADD or ADDC the flags of SR are AddFlags of the operands and their sum (plus the carry for ADDC), whatever the destination |
| Executor.Borrow | src/core/MSP430.cpp:1243-1248 | SUBC takes at most one off the difference and SUB takes nothing |
| Executor.SubIntoRegister | src/core/MSP430.cpp:1237-1276 | SUB into a register other than PC and SR always succeeds: the register takes the difference, SR the subtraction flags of it, PC moves on by 2, and no other register and nothing on the bus changes |
| Executor.SubWithoutBorrow | src/core/MSP430.cpp:1237-1276 | SUB's difference is destination minus source cut to the width; its Z is set exactly when the operands agree on that width and its C exactly when the destination is not below the source |
| Executor.RunSub | src/core/MSP430.cpp:1237-1276 | a register destination never faults, and after a successful SUB or SUBC the flags of SR are SubFlags of the operands and their masked difference (less the borrow for SUBC) |
| Executor.CmpFlags | src/core/MSP430.cpp:1278-1301 | CMP's Z is set exactly when the operands agree on the destination's width |
| Executor.RunCmp | src/core/MSP430.cpp:1278-1309 | CMP leaves the bus alone and sets the flags of SR to CmpFlags of the operands on the destination's width |
| Executor.CmpOnlySetsFlags | src/core/MSP430.cpp:1278-1309 | CMP writes nothing: only SR takes new flags, keeping its other bits, and PC moves on by 2 |
| Executor.CmpZeroIsEquality | src/core/MSP430.cpp:1278-1309 | after CMP, Z is set in the status register exactly when the operands agree on the destination's width |
| Executor.RunDadd | src/core/MSP430.cpp:1338-1364 | DADD of operands of different sizes fails addBCD's assertion; of equal sizes into a register it succeeds; when it succeeds, SR holds the DADD flags of addBCD's result |
| Executor.DaddIntoRegister | src/core/MSP430.cpp:1338-1364 | DADD into a register other than PC and SR succeeds: the register takes addBCD's result, which fits the width, SR the DADD flags of it, PC moves on by 2, and no other register and no device changes |
| Executor.DaddClearsCarry | src/core/MSP430.cpp:1338-1364 | after a DADD, C is clear, because the masked result is never above the mask, and V is what it was |
| Executor.BicBisKeepStatus | src/core/MSP430.cpp:1389-1424 | BIC and BIS leave SR unchanged unless SR is their destination register |
| Executor.LogicalCarryIsNotZero | src/core/MSP430.cpp:1366-1385 | after BIT, XOR and AND, C is the complement of Z, and Z is set exactly when the unmasked result is zero |
| Executor.RunLogical | src/core/MSP430.cpp:1389-1440 | a register destination never faults, and after BIT, XOR and AND the flags of SR are LogicFlags of the result, with V fed by XOR's operands only |
| Executor.Apply | src/core/MSP430.cpp:1405-1440 | no contract of its own: the operation each logical instruction applies; RunLogical, BicBisKeepStatus and LogicalCarryIsNotZero state what follows from it |
| Executor.ShiftCount | src/core/MSP430.cpp:1169 | the RRxM shift count, kept in a uint8_t, is below 256 |
| Executor.Rrcm | src/core/MSP430.cpp:1179-1183 | RRCM stays within the width, and gives the whole mask when C is set |
| Executor.Rrum | src/core/MSP430.cpp:1205-1208 | RRUM stays within the width |
| Executor.RlamWithin | src/core/MSP430.cpp:1193-1203 | RLAM's loop is a left shift by the count within the width: the overflow test after masking never fires |
| Executor.RramWithin | src/core/MSP430.cpp:1185-1191 | RRAM as written leaves a value within the width that keeps every bit of its operand |
| Executor.RotateResult | src/core/MSP430.cpp:1177-1212 | each of the four RRxM operations, RRAM by its loop as written, leaves a value within the width |
| Executor.Rotated | src/core/MSP430.cpp:1166-1212 | the value RRxM computes for its destination, the register masked to the width and put through the selected operation, stays within the width |
| Executor.RunRrRl | src/core/MSP430.cpp:1225-1228 | RRxM fails exactly when the count exceeds the width in bits, where the carry shift is undefined |
| Executor.RrRlKeepsWidth | src/core/MSP430.cpp:1161-1235 | RRxM leaves Rotated, a value of the destination's width, in the destination register, and changes no other register but PC and SR and nothing on the bus |
| Executor.StackWidth | src/core/MSP430.cpp:824-825 | PUSHM and POPM move 2 or 4 bytes per register |
| Executor.SlotSize | src/core/MSP430.cpp:824-825 | the slot size as a register increment is 2 or 4 |
| Executor.PushSlot | src/core/MSP430.cpp:838-847 | one PUSHM round lowers SP by a slot and writes the register, read after the move, at the new SP; it fails exactly when that bus write fails |
| Executor.PushFromStep | src/core/MSP430.cpp:836-850 | a successful PUSHM round pushes register top minus i, which lies in R0..R15, and hands over to the next round |
| Executor.PushFrom | src/core/MSP430.cpp:836-850 | with no rounds left the machine is unchanged, and a successful PUSHM loop pushed only registers top down to top less count plus one, all within R0..R15 |
| Executor.PushFromMovesStack | src/core/MSP430.cpp:836-850 | the PUSHM rounds lower SP one slot each and change no other register |
| Executor.PushmMovesStack | src/core/MSP430.cpp:829-852 | a successful PUSHM lowers SP by count slots, moves PC on by 2 and changes no other register |
| Executor.PopSlot | src/core/MSP430.cpp:860-874 | a POPM round only reads the bus |
| Executor.PopSlotEffect | src/core/MSP430.cpp:860-874 | a POPM round succeeds exactly when the read at SP does; the register takes the value read (plus a slot when it is SP), SP moves up a slot, and no other register changes |
| Executor.PopFromStep | src/core/MSP430.cpp:860-874 | a successful POPM round pops into register first plus i, which lies in R0..R15, and hands over to the next round |
| Executor.PopFrom | src/core/MSP430.cpp:858-874 | with no rounds left the machine is unchanged, and a successful POPM loop whose indices do not pass 255 popped only registers up to R15 |
| Executor.PopFromKeepsBus | src/core/MSP430.cpp:860-874 | the POPM rounds leave the bus as it was |
| Executor.PopFromKeeps | src/core/MSP430.cpp:860-874 | the POPM rounds leave alone every register that is neither popped nor SP |
| Executor.PopFromRaisesStack | src/core/MSP430.cpp:860-874 | unless SP is itself popped, the POPM rounds raise SP one slot each |
| Executor.PopmRounds | src/core/MSP430.cpp:854-876 | POPM is its loop of rounds from the first register, followed by PC moving on |
| Executor.PopmFrame | src/core/MSP430.cpp:854-876 | a successful POPM leaves the bus alone, and every register that is neither popped, SP nor PC |
| Executor.RunPushPop | src/core/MSP430.cpp:878-880 | a minor opcode other than PUSHM or POPM fails the source's assertion |
| Executor.MovedOn | src/core/MSP430.cpp:851 | moving PC on after the rounds keeps their failure, or moves PC by 2 and keeps the bus |
| Executor.AddrOf | src/core/MSP430.cpp:803-807 | a register value is used as a bus address unchanged |
| Executor.PushWord | src/core/MSP430.cpp:802-807 | lowering SP by 2 and writing a word there fails exactly when that word write fails |
| Executor.HighHalf | src/core/MSP430.cpp:803-804 | the high half pushed by CALLA is PC shifted down 16 bits |
| Executor.PushReturn | src/core/MSP430.cpp:800-807 | CALLA's two pushes lower SP by two words and change no other register; they succeed exactly when the high half of PC can be written at SP - 2 and then the low half at SP - 4, and the bus is the result of those two word writes in that order |
| Executor.RunCalla | src/core/MSP430.cpp:783-817 | RETI and the reserved minor opcodes of the 0x10 extended group fail the source's assertion |
| Executor.RunExt00 | src/core/MSP430.cpp:741-779 | a MOVA of immediate 0 into register SR leaves the machine as it was, as runMovInstruction does; a minor opcode beyond four bits is a fault |
| Executor.RunCore | src/core/MSP430.cpp:1442-1511 | minor opcodes below 0x20 (the 0x00 and 0x10 groups) are faults, a jump never faults nor touches the bus, and MOV #0 into SR leaves the machine as it was |
| Executor.RunExtended | src/core/MSP430.cpp:1513-1534 | a major opcode outside 0x00, 0x10, 0x14 and 0x18 (the 0x1C group included) is a fault |
| Executor.RunOne | src/core/MSP430.cpp:1536-1546 | MOV #0 into SR, plain or after a 0x18 extension word, leaves the machine as it was |
| Executor.IncPcOverwritten | src/core/MSP430.cpp:800-808 | moving PC on before PC is set is forgotten |
| Executor.CallaSetsPcAndStack | src/core/MSP430.cpp:783-817 | a successful CALLA lowers SP by two words, sets PC to the source value and changes no other register |
| Executor.CallaPushesReturn | src/core/MSP430.cpp:800-807 | with the stack in memory, a successful CALLA leaves the low half of the return address (PC + 2) at the new SP and its high half in the word above |
| Executor.UnhandledGroupsFault | src/core/MSP430.cpp:1442-1546 | a core instruction of the 0x00 or 0x10 group, and any instruction behind a 0x1C extension word, fails the source's assertion |
| Executor.Step | src/core/MSP430.cpp:680-682 | a zero instruction word fails decodeInstruction's assertion, so the step stops with an error |
| Executor.Repeat | src/core/MSP430.cpp:1568-1591 | no contract of its own: RepeatLastRound states how the loop ends, Cpu.Msp430.RunRound performs it in place |
| Executor.RunRound | src/core/MSP430.cpp:1557-1592 | no contract of its own: RoundStopsOnFault, RepeatLastRound and RunRoundOnce state how a round goes |
| Executor.RepeatLastRound | src/core/MSP430.cpp:1568-1591 | a failed decode fails the round, and once the count read from the decode is reached the round ends with a single Step |
| Executor.RoundStopsOnFault | src/core/MSP430.cpp:1557-1592 | a round whose first step fails fails |
| Executor.RunRoundOnce | src/core/MSP430.cpp:1560-1591 | an instruction without an extension word is decoded and run exactly once per round of run's loop |
| Cpu.NextNibble | src/core/MSP430.cpp:1321 | addBCD's nibble mask moves up one digit per round |
| Cpu.NibbleRoundsEnd | src/core/MSP430.cpp:1321 | addBCD's loop test fails exactly after the rounds of the width |
| Cpu.PushFromUnfolds | src/core/MSP430.cpp:836-850 | one PUSHM round: a register index outside R0..R15 fails the source's assertion; otherwise the round pushes and the loop goes on unless the write failed |
| Cpu.Msp430.constructor | src/core/MSP430.cpp:18-22 | a new CPU has the registers resetRegisters leaves and a devices manager whose watchdog control register holds its reset value |
| Cpu.Msp430.ResetRegisters | src/core/MSP430.cpp:29-35 | resetRegisters clears every register, then sets SP and PC, and leaves the devices alone |
| Cpu.Msp430.SetRegister | src/core/MSP430.cpp:179-184 | setRegister changes the one register in place and leaves the devices alone |
| Cpu.Msp430.RegInc | src/core/MSP430.cpp:173 | regInc adds to the register modulo 2^32 and leaves the devices alone |
| Cpu.Msp430.RegIncPc | src/core/MSP430.cpp:175 | regIncPc moves PC on by 2 and leaves the devices alone |
| Cpu.Msp430.Fetch | src/core/MSP430.cpp:244-250 | fetch reads the word at PC, as the Decoder's Fetch does |
| Cpu.Msp430.ReadOperand | src/core/MSP430.cpp:540-622 | an operand read on the devices gives what the Decoder's read gives |
| Cpu.Msp430.ExtendOperand | src/core/MSP430.cpp:540-560 | the extension-word step in place agrees with the Decoder's ExtendValue, registers included |
| Cpu.Msp430.ReadAt | src/core/MSP430.cpp:540-622 | a memory operand read in place agrees with the Decoder's ReadAt |
| Cpu.Msp430.ReadIncrement | src/core/MSP430.cpp:540-622 | an `@Rn+` operand read in place agrees with the Decoder's ReadIncrement, the register moving on included |
| Cpu.Msp430.ResolveMode | src/core/MSP430.cpp:540-622 | the mode-by-mode resolution in place agrees with the Decoder's ResolveMode |
| Cpu.Msp430.UpdateInstructionValue | src/core/MSP430.cpp:540-622 | updateInstructionValue in place agrees with the Decoder's UpdateValue |
| Cpu.Msp430.UpdateInstructionSource | src/core/MSP430.cpp:624-644 | updateInstructionSource in place agrees with the Decoder's UpdateSource |
| Cpu.Msp430.UpdateInstructionDestination | src/core/MSP430.cpp:646-661 | updateInstructionDestination in place agrees with the Decoder's UpdateDestination |
| Cpu.Msp430.DecodeFields | src/core/MSP430.cpp:679-727 | the group decoders in place agree with the Decoder's DecodeFields and leave a destination in a mode the source accepts |
| Cpu.Msp430.DecodeInstruction | src/core/MSP430.cpp:673-737 | decodeInstruction in place agrees with the Decoder's Decode: same outcome, same instruction, same registers |
| Cpu.Msp430.SetStatus | src/core/MSP430.cpp:188-213 | writing the flags back leaves the machine as the Executor's SetStatus says |
| Cpu.Msp430.InstructionWrite | src/core/MSP430.cpp:919-946 | instructionWrite on the registers and the devices agrees with the Executor's InstructionWrite, failure included |
| Cpu.Msp430.RunJump | src/core/MSP430.cpp:1061-1097 | runJumpInstruction leaves the machine as the Executor's RunJump says |
| Cpu.Msp430.RunMovAsWritten | src/core/MSP430.cpp:1100-1110 | runMovInstruction as written, in place, agrees with the Executor's RunMovAsWritten: the NOP form changes nothing, PC included |
| Cpu.Msp430.RunMov | src/core/MSP430.cpp:1100-1110 | the corrected half of the first finding: MOV without the NOP branch, in place, agrees with the Executor's RunMov; the step does not use it |
| Cpu.Msp430.RunAdd | src/core/MSP430.cpp:1112-1148 | runAddInstruction agrees with the Executor's RunAdd |
| Cpu.Msp430.RunSub | src/core/MSP430.cpp:1237-1276 | runSubInstruction agrees with the Executor's RunSub |
| Cpu.Msp430.RunCmp | src/core/MSP430.cpp:1278-1309 | runCmpInstruction leaves the machine as the Executor's RunCmp says |
| Cpu.Msp430.AddBcd | src/core/MSP430.cpp:1311-1336 | addBCD's loop over nibble masks, as written, computes the value the Alu's AddBcd defines |
| Cpu.Msp430.RunDadd | src/core/MSP430.cpp:1338-1364 | runDaddInstruction agrees with the Executor's RunDadd |
| Cpu.Msp430.RunLogical | src/core/MSP430.cpp:1389-1440 | executeLogicalOp agrees with the Executor's RunLogical for each of the five operations |
| Cpu.Msp430.ShiftRightSmearing | src/core/MSP430.cpp:1185-1191 | the RRAM loop as written computes Rram |
| Cpu.Msp430.ShiftRightArithmetic | src/core/MSP430.cpp:1185-1191 | the corrected half of the second finding: the RRAM loop with each round keeping the sign bit computes the arithmetic right shift Rra; the step does not use it |
| Cpu.Msp430.ShiftLeftRounds | src/core/MSP430.cpp:1193-1203 | the RLAM loop computes the Alu's Rlam |
| Cpu.Msp430.Rotate | src/core/MSP430.cpp:1177-1212 | the switch on the operation, with RRAM and RLAM by their loops as written, computes the Executor's RotateResult |
| Cpu.Msp430.RotateRegister | src/core/MSP430.cpp:1166-1212 | the value computed from the destination register agrees with the Executor's Rotated |
| Cpu.Msp430.RunRrRl | src/core/MSP430.cpp:1161-1235 | runRrRlInstruction agrees with the Executor's RunRrRl |
| Cpu.Msp430.PushSlot | src/core/MSP430.cpp:838-847 | one PUSHM round in place agrees with the Executor's PushSlot |
| Cpu.Msp430.PushRound | src/core/MSP430.cpp:836-850 | a round that succeeds leaves the rest of the loop with the same outcome as the whole loop from this round; a failed round is the loop's failure |
| Cpu.Msp430.PushRegisters | src/core/MSP430.cpp:836-850 | PUSHM's loop agrees with the Executor's PushFrom |
| Cpu.Msp430.PopRegisters | src/core/MSP430.cpp:860-874 | POPM's loop agrees with the Executor's PopFrom |
| Cpu.Msp430.PushThenMoveOn | src/core/MSP430.cpp:829-852 | the PUSHM branch is its loop followed by PC moving on |
| Cpu.Msp430.PopThenMoveOn | src/core/MSP430.cpp:854-876 | the POPM branch is its loop followed by PC moving on |
| Cpu.Msp430.RunPushPop | src/core/MSP430.cpp:819-882 | runPushPopInstruction agrees with the Executor's RunPushPop |
| Cpu.Msp430.PushWord | src/core/MSP430.cpp:802-807 | lowering SP by 2 and writing a word there agrees with the Executor's PushWord |
| Cpu.Msp430.RunCalla | src/core/MSP430.cpp:783-817 | handleTypeExt10 agrees with the Executor's RunCalla |
| Cpu.Msp430.RunExt00 | src/core/MSP430.cpp:741-779 | handleTypeExt00 agrees with the Executor's RunExt00 |
| Cpu.Msp430.RunCore | src/core/MSP430.cpp:1442-1511 | runCoreMSP430Instruction agrees with the Executor's RunCore |
| Cpu.Msp430.RunExtended | src/core/MSP430.cpp:1513-1534 | runExtendedMSP430Instruction agrees with the Executor's RunExtended |
| Cpu.Msp430.RunOneInstruction | src/core/MSP430.cpp:1536-1546 | runOneInstruction agrees with the Executor's RunOne |
| Cpu.Msp430.Step | src/core/MSP430.cpp:1571-1577 | decoding and then running one instruction in place agrees with the Executor's Step |
| Cpu.Msp430.RunRound | src/core/MSP430.cpp:1557-1592 | one pass of run's loop, repetitions included, agrees with the Executor's RunRound |

## Left out

- run's outer `while (true)` loop and its `usleep` pacing: RunRound models one pass, an instruction with its repetitions, and nothing repeats it.
- `updateAllDevices` is modelled only as the count of `update` calls: every device's `update` is empty.
- Logging and dumps: `printf`/`cout` tracing, `regDump`, `displayDebugInformation`, `printInstruction`, the devices manager's and memory's `dump`.
- The HEX loader (`parseHexFile`, `loadROM`, `dumpDataToFile`): file I/O and string-to-number parsing; memory contents are a parameter of the model instead.
- `runRrcInstruction`, `runRraInstruction`, `runSwpbInstruction` and `runSxtInstruction`: no dispatch reaches them (handleType10 is an unconditional fault), so they are not modelled.
- Peripheral callbacks are foreign code: a callback is an identifier, and invoking the transmit callbacks appends one entry per callback to an event log.
- The `out_` field of a port, which its constructor never initialises, is a constructor parameter; `Port::init` is modelled but nothing calls it, as in the source.
- The initial contents of memory are left unspecified (the source allocates the array without clearing it).
- `instantiateAndRegisterDevice` is never called and is not modelled.
- A device range whose end is 0xFFFFFFFF would make registerDeviceRange's uint32 loop wrap; no device has one, and the model's loop runs over unbounded integers.
- Fields that nothing reads are not modelled: an operand's `additionalRawInstruction` and entries 2 and 3 of `rawInstruction`.  The `zc` bit is decoded but never read.
- Executor.PopFromKeeps: like PopFromKeepsBus and PopFromRaisesStack, it is stated only for POPM rounds whose register indices do not pass 255 (`PopRounds`), which every POPM decoded from its four-bit fields satisfies.
- Executor.AddIntoRegister: states the flags as `AddFlags` of the sum; what C means is stated separately by Executor.AddSumCarriesOut, and the V formula is not related to signed overflow.
- Executor.SubIntoRegister: covers SUB only, not SUBC; the difference and its Z and C are described by Executor.SubWithoutBorrow, and the V formula is not related to signed overflow.
- Executor.RrRlKeepsWidth: stated only for destinations other than PC and SR.
- Executor.CallaPushesReturn: requires, besides the stack words lying in memory, that the word at SP - 2 starts two bytes above the word at SP - 4. Every successful CALLA meets this, since a wrapped SP would put a word outside the array, but relating a 32-bit register to the address it stands for is beyond what the solver proves within the resource limit.
- Executor.RunRoundOnce: says nothing about the rounds of an instruction with an extension word, which Repeat and Cpu.Msp430.RunRound describe.
- DevicesManagerClass.DevicesManager.RegisterPeripheral: requires a port number from 1 to 8, because it indexes `ports_[port - 1]`.  The one caller, main.cpp (not part of this model), already passes `port - 1`, so the port is decremented twice: the UART of port 3 is attached to port 2, and a peripheral on port 1 would index `ports_[-1]`, which has no defined outcome.
- Test tooling, the Qt user interface and the thread hosting the emulator are outside the core.

## Findings

| source | as written | input that shows it | evidently intended | confidence | as-written member | corrected member |
|---|---|---|---|---|---|---|
| src/core/MSP430.cpp:1100-1110 | the NOP form of MOV (immediate 0 into register SR) returns before anything, so PC does not move on | the word 0x4302 (`MOV #0, SR`): the machine after it equals the machine before it, so the same word is fetched again for ever | 0x4302 is CLR SR (the instruction set's NOP is `MOV #0, R3`, 0x4303): like every other MOV it writes the source value, so SR becomes 0, PC moves past it and nothing else changes | not executed | Executor.RunMovAsWritten, Executor.StatusClearHangsAsWritten, Cpu.Msp430.RunMovAsWritten | Executor.RunMov, Executor.StatusClearMovesOn, Cpu.Msp430.RunMov |
| src/core/MSP430.cpp:1185-1191 | each RRAM round computes `(v >> 1) \| (v & mask)`, which ors the whole old value back in rather than the sign bit | width 16, value 2, count 1: the loop gives 3 instead of 1 | an arithmetic right shift that keeps the sign bit, as the loop's comment says | not executed | Alu.RramSmearsLowBits, Alu.RramKeepsBits, Executor.RramWithin, Cpu.Msp430.ShiftRightSmearing | Alu.Rra, Alu.RraStepIsArithmetic, Alu.RraHalvesTwo, Alu.RraKeepsSign, Cpu.Msp430.ShiftRightArithmetic |
| src/core/Memory.cpp:27-66 | the word and double-word bounds checks compute `address + 1` and `address + 3` in 32-bit unsigned arithmetic, which wraps | a word access at 0xFFFFFFFF or a double-word access at 0xFFFFFFFD passes the check, although its bytes lie beyond the array | every byte of the access lies in the array | not executed | MemoryDevice.AsWrittenCheckAdmitsWrappedAddresses | MemoryDevice.LoadWord, MemoryDevice.StoreWord, MemoryDevice.AsWrittenCheckAgreesWithoutWrap |
| src/core/MSP430.cpp:1321-1333 | each addBCD round tests the masked sum of the round, not its digit, against 9, adds 6 at bit 0 rather than at the digit, and ors the sum into the result instead of carrying | bytes 0x10 + 0x10 give 0x26 and 0x05 + 0x05 give 0x16 | packed decimal addition, as the carry comment of runDaddInstruction says: digit by digit, 6 added to a digit above 9 and one carried into the next, so 0x20 and 0x10 | not executed | Alu.AddBcd, Alu.AddBcdAsWrittenDiffers, Cpu.Msp430.AddBcd | Alu.AddDecimal, Alu.DecimalAddFrom, Alu.DecimalAddIsSum, Alu.AddDecimalIsSum |
