/** The watchdog timer: a single word-wide control register, WDTCTL
    (MSP430Watchdog.h, MSP430Watchdog.cpp). */
module WatchdogDevice {
  import opened Types

  /** Bus address of WDTCTL. */
  const WdtctlAddr: Addr := 0x120

  /** The range the watchdog registers on the bus; only its first address is
      a register. */
  const WatchdogRange: AddressRange := AddressRange(0x120, 0x121)

  /** Value init() gives WDTCTL. */
  const WdtctlReset: bv16 := 0x6900

  /** readWord: WDTCTL at its own address, a fault anywhere else. */
  function ReadWdtctl(wdtctl: bv16, a: Addr): (r: Result<bv16>)
    ensures r.Ok? <==> a == WdtctlAddr
    ensures r.Ok? ==> r.value == wdtctl
    ensures r.Err? ==> r.error == UnknownDeviceRegister
  {
    if a == 0x120 then Ok(wdtctl) else Err(UnknownDeviceRegister)
  }

  /** writeWord: replaces WDTCTL at its own address, a fault anywhere else. */
  function WriteWdtctl(wdtctl: bv16, a: Addr, v: bv16): (r: Result<bv16>)
    ensures r.Ok? <==> a == WdtctlAddr
    ensures r.Ok? ==> r.value == v
    ensures r.Err? ==> r.error == UnknownDeviceRegister
  {
    if a == 0x120 then Ok(v) else Err(UnknownDeviceRegister)
  }

  /** A word written to WDTCTL is read back unchanged; the second address of
      the range can be neither read nor written. */
  lemma WdtctlRoundTrip(wdtctl: bv16, v: bv16)
    ensures ReadWdtctl(WriteWdtctl(wdtctl, WdtctlAddr, v).value, WdtctlAddr) == Ok(v)
    ensures ReadWdtctl(wdtctl, WatchdogRange.end).Err? && WriteWdtctl(wdtctl, WatchdogRange.end, v).Err?
  {
  }

  /** The watchdog device. */
  class Watchdog {
    var wdtctl: bv16

    constructor ()
      ensures wdtctl == WdtctlReset
    {
      wdtctl := 0x6900;
    }

    method Init()
      modifies this
      ensures wdtctl == WdtctlReset
    {
      wdtctl := 0x6900;
    }

    method ReadWord(a: Addr) returns (r: Result<bv16>)
      ensures r == ReadWdtctl(wdtctl, a)
    {
      if a == 0x120 {
        r := Ok(wdtctl);
      } else {
        r := Err(UnknownDeviceRegister);
      }
    }

    method WriteWord(a: Addr, v: bv16) returns (r: Result<()>)
      modifies this
      ensures r == WriteWdtctl(old(wdtctl), a, v).Drop()
      ensures wdtctl == if r.Ok? then WriteWdtctl(old(wdtctl), a, v).value else old(wdtctl)
    {
      if a == 0x120 {
        wdtctl := v;
        r := Ok(());
      } else {
        r := Err(UnknownDeviceRegister);
      }
    }

    /** A byte write is accepted and ignored. */
    method WriteByte(a: Addr, v: bv8) returns (r: Result<()>)
      ensures r == Ok(())
    {
      r := Ok(());
    }
  }
}
