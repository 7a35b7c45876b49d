/** Bus accesses of the devices manager (DevicesManager.cpp): a read or write
    of one, two or four bytes goes whole to the device that answers at its
    first address, which handles it with its own access of that width. */
module BusAccess {
  import opened Types
  import opened Bus
  import M = MemoryDevice
  import P = PortDevice
  import W = WatchdogDevice

  type PortStates = s: seq<P.PortState> | |s| == 8 witness seq(8, _ => P.InitialState(0, 0))

  /** The state of every internal device: the memory bytes, WDTCTL and the
      eight ports (port k at index k - 1). */
  datatype BusState = BusState(cells: M.Cells, wdtctl: bv16, ports: PortStates)

  /** readByte.  The watchdog has no byte access of its own, so the device
      default faults. */
  function ReadByte(s: BusState, a: Addr): Result<bv8>
  {
    match Owner(a)
    case WatchdogId => Err(NotImplemented)
    case PortId(k) => P.ReadRegister(P.PortConfigOf(k), s.ports[k - 1], a)
    case MemoryId => M.LoadByte(s.cells, a)
  }

  /** readWord.  Ports have no word access. */
  function ReadWord(s: BusState, a: Addr): Result<bv16>
  {
    match Owner(a)
    case WatchdogId => W.ReadWdtctl(s.wdtctl, a)
    case PortId(_) => Err(NotImplemented)
    case MemoryId => M.LoadWord(s.cells, a)
  }

  /** readDWord: only the memory has one. */
  function ReadDWord(s: BusState, a: Addr): Result<bv32>
  {
    match Owner(a)
    case MemoryId => M.LoadDWord(s.cells, a)
    case _ => Err(NotImplemented)
  }

  /** writeByte.  The watchdog accepts and ignores a byte. */
  function WriteByte(s: BusState, a: Addr, v: bv8): Result<BusState>
  {
    match Owner(a)
    case WatchdogId => Ok(s)
    case PortId(k) =>
      var w := P.WriteRegister(P.PortConfigOf(k), s.ports[k - 1], a, v);
      if w.Ok? then Ok(s.(ports := s.ports[k - 1 := w.value])) else Err(w.error)
    case MemoryId =>
      var w := M.StoreByte(s.cells, a, v);
      if w.Ok? then Ok(s.(cells := w.value)) else Err(w.error)
  }

  /** writeWord. */
  function WriteWord(s: BusState, a: Addr, v: bv16): Result<BusState>
  {
    match Owner(a)
    case WatchdogId =>
      var w := W.WriteWdtctl(s.wdtctl, a, v);
      if w.Ok? then Ok(s.(wdtctl := w.value)) else Err(w.error)
    case PortId(_) => Err(NotImplemented)
    case MemoryId =>
      var w := M.StoreWord(s.cells, a, v);
      if w.Ok? then Ok(s.(cells := w.value)) else Err(w.error)
  }

  /** writeDWord: only the memory has one. */
  function WriteDWord(s: BusState, a: Addr, v: bv32): Result<BusState>
  {
    match Owner(a)
    case MemoryId =>
      var w := M.StoreDWord(s.cells, a, v);
      if w.Ok? then Ok(s.(cells := w.value)) else Err(w.error)
    case _ => Err(NotImplemented)
  }

  /** The value of a uint32_t passed on as a narrower access's argument. */
  function Truncate(v: bv32, n: nat): bv32
  {
    if n == 1 then v & 0xFF else if n == 2 then v & 0xFFFF else v
  }

  /** The low half of a double word. */
  function LowWord(v: bv32): (w: bv16)
    ensures w as bv32 == v & 0xFFFF
  {
    (v & 0xFFFF) as bv16
  }

  /** read: dispatch on the width in bytes; any other width is a fault. */
  function Read(s: BusState, a: Addr, n: nat): Result<bv32>
  {
    if n == 1 then
      var r := ReadByte(s, a);
      if r.Ok? then Ok(r.value as bv32) else Err(r.error)
    else if n == 2 then
      var r := ReadWord(s, a);
      if r.Ok? then Ok(r.value as bv32) else Err(r.error)
    else if n == 4 then ReadDWord(s, a)
    else Err(UnsupportedAccessWidth)
  }

  /** write: dispatch on the width in bytes, passing the value on truncated
      to that width; any other width is a fault. */
  function Write(s: BusState, a: Addr, v: bv32, n: nat): Result<BusState>
  {
    if n == 1 then WriteByte(s, a, M.ByteOf(v, 0))
    else if n == 2 then WriteWord(s, a, LowWord(v))
    else if n == 4 then WriteDWord(s, a, v)
    else Err(UnsupportedAccessWidth)
  }

  /** Widths other than 1, 2 and 4 bytes are refused, and a narrow read is
      zero-extended. */
  lemma AccessWidths(s: BusState, a: Addr, v: bv32, n: nat)
    ensures n != 1 && n != 2 && n != 4 ==>
      Read(s, a, n) == Err(UnsupportedAccessWidth) && Write(s, a, v, n) == Err(UnsupportedAccessWidth)
    ensures Read(s, a, n).Ok? ==> Read(s, a, n).value == Truncate(Read(s, a, n).value, n)
  {
  }

  /** On the memory a read of each width succeeds exactly when all its bytes
      lie inside the array, and so does a write. */
  lemma MemoryAccessFits(s: BusState, a: Addr, v: bv32, n: nat)
    requires Owner(a) == MemoryId
    requires n == 1 || n == 2 || n == 4
    ensures Read(s, a, n).Ok? <==> M.AccessFits(a, n)
    ensures Write(s, a, v, n).Ok? <==> M.AccessFits(a, n)
    ensures Read(s, a, n).Err? ==> Read(s, a, n).error == AddressOutOfRange
  {
  }

  /** What is written to the memory is read back, truncated to the width. */
  lemma MemoryWriteThenRead(s: BusState, a: Addr, v: bv32, n: nat)
    requires Owner(a) == MemoryId
    requires n == 1 || n == 2 || n == 4
    requires Write(s, a, v, n).Ok?
    ensures Read(Write(s, a, v, n).value, a, n) == Ok(Truncate(v, n))
  {
    if n == 1 {
      MemoryByteWriteThenRead(s, a, v);
    } else if n == 2 {
      MemoryWordWriteThenRead(s, a, v);
    } else {
      M.StoreThenLoad(s.cells, a, LowWord(v), v);
    }
  }

  lemma MemoryByteWriteThenRead(s: BusState, a: Addr, v: bv32)
    requires Owner(a) == MemoryId && Write(s, a, v, 1).Ok?
    ensures Read(Write(s, a, v, 1).value, a, 1) == Ok(v & 0xFF)
  {
    assert M.ByteOf(v, 0) as bv32 == v & 0xFF;
  }

  lemma MemoryWordWriteThenRead(s: BusState, a: Addr, v: bv32)
    requires Owner(a) == MemoryId && Write(s, a, v, 2).Ok?
    ensures Read(Write(s, a, v, 2).value, a, 2) == Ok(v & 0xFFFF)
  {
    M.StoreThenLoad(s.cells, a, LowWord(v), v);
  }

  /** A word written to the memory is read back whole. */
  lemma MemoryWordRoundTrip(s: BusState, a: Addr, v: bv16)
    requires Owner(a) == MemoryId && WriteWord(s, a, v).Ok?
    ensures ReadWord(WriteWord(s, a, v).value, a) == Ok(v)
  {
    M.StoreThenLoad(s.cells, a, v, 0);
  }

  /** A word written to the memory leaves a memory word that does not
      overlap it as it was. */
  lemma MemoryWordWriteKeepsOthers(s: BusState, a: Addr, b: Addr, v: bv16)
    requires Owner(a) == MemoryId && Owner(b) == MemoryId && WriteWord(s, a, v).Ok?
    requires a + 2 <= b || b + 2 <= a
    ensures ReadWord(WriteWord(s, a, v).value, b) == ReadWord(s, b)
  {
  }

  /** A successful write changes no device but the one answering at its
      address. */
  lemma WriteFrame(s: BusState, a: Addr, v: bv32, n: nat, k: nat)
    requires Write(s, a, v, n).Ok?
    requires 1 <= k <= 8
    ensures Owner(a) != MemoryId ==> Write(s, a, v, n).value.cells == s.cells
    ensures Owner(a) != WatchdogId ==> Write(s, a, v, n).value.wdtctl == s.wdtctl
    ensures Owner(a) != PortId(k) ==> Write(s, a, v, n).value.ports[k - 1] == s.ports[k - 1]
  {
  }

  /** WDTCTL keeps a word written to it; its byte writes are ignored, its byte
      reads fault, and its second address has no register. */
  lemma WatchdogAccesses(s: BusState, v: bv16, b: bv8)
    ensures ReadWord(WriteWord(s, W.WdtctlAddr, v).value, W.WdtctlAddr) == Ok(v)
    ensures WriteByte(s, 0x120, b) == Ok(s) && WriteByte(s, 0x121, b) == Ok(s)
    ensures ReadByte(s, 0x120) == Err(NotImplemented)
    ensures ReadWord(s, 0x121) == Err(UnknownDeviceRegister)
    ensures WriteWord(s, 0x121, v) == Err(UnknownDeviceRegister)
  {
  }

  /** Port registers are byte-wide: a word or double word access to one
      faults, and the direction register of port k keeps a byte written to
      it. */
  lemma PortAccesses(s: BusState, k: nat, v: bv8, w: bv16)
    requires 1 <= k <= 8
    ensures var c := P.PortConfigOf(k);
      && ReadWord(s, c.dir) == Err(NotImplemented)
      && WriteWord(s, c.dir, w) == Err(NotImplemented)
      && ReadDWord(s, c.dir) == Err(NotImplemented)
      && ReadByte(WriteByte(s, c.dir, v).value, c.dir) == Ok(v)
  {
    var c := P.PortConfigOf(k);
    OwnerCases(c.dir, k);
    P.PortAddressesDistinct(k);
    P.ControlRegisterRoundTrip(c, s.ports[k - 1], v);
  }

  /** An access is routed by its first address only: a word written to the
      memory just below WDTCTL puts its high byte into the memory array at
      0x120, which a word read there no longer sees. */
  lemma StraddlingWriteBypassesWatchdog(s: BusState, v: bv16)
    ensures WriteWord(s, 0x11F, v).Ok?
    ensures WriteWord(s, 0x11F, v).value.cells[0x120] == M.ByteOf(v as bv32, 1)
    ensures WriteWord(s, 0x11F, v).value.wdtctl == s.wdtctl
  {
  }
}
