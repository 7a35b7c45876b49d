/** A digital I/O port: eight byte-wide registers at fixed bus addresses,
    an input read that depends on the resistor-enable and direction
    registers, and an output write that notifies every registered peripheral
    (Port.h, Port.cpp, Port1.cpp .. Port8.cpp). */
module PortDevice {
  import opened Types

  /** Bus addresses of a port's registers, in the order the constructor
      passes them on; 0 means the port has no such register. */
  datatype PortConfig = PortConfig(
    ren: Addr, inAddr: Addr, out: Addr, dir: Addr,
    sel: Addr, ifg: Addr, ies: Addr, ie: Addr)

  /** Identity of a callback a peripheral registered with a port. */
  type CallbackId = nat

  /** One call of a transmit callback with the byte it received. */
  datatype TxEvent = TxEvent(callback: CallbackId, value: bv8)

  /** The state a port keeps: its register bytes, the callbacks registered
      with it and every transmit callback call made so far. */
  datatype PortState = PortState(
    value: bv8, ren: bv8, dir: bv8, sel: bv8, out: bv8, ies: bv8, ifg: bv8, ie: bv8,
    rxCbs: seq<CallbackId>, txCbs: seq<CallbackId>, txLog: seq<TxEvent>)

  /** The register addresses of ports 1 to 8 (Port1.cpp .. Port8.cpp), port k
      at index k - 1. */
  const PortConfigs: seq<PortConfig> := [
    PortConfig(0x27, 0x20, 0x21, 0x22, 0x26, 0x23, 0x24, 0x25),
    PortConfig(0x2f, 0x28, 0x29, 0x2a, 0x2e, 0x2b, 0x2c, 0x2d),
    PortConfig(0x10, 0x18, 0x19, 0x1a, 0x1b, 0, 0, 0),
    PortConfig(0x11, 0x1c, 0x1d, 0x1e, 0x1f, 0, 0, 0),
    PortConfig(0x12, 0x30, 0x31, 0x32, 0x33, 0, 0, 0),
    PortConfig(0x13, 0x34, 0x35, 0x36, 0x37, 0, 0, 0),
    PortConfig(0x14, 0x38, 0x3a, 0x3c, 0x3e, 0, 0, 0),
    PortConfig(0x15, 0x39, 0x3b, 0x3d, 0x3f, 0, 0, 0)]

  /** The configuration of port k.  Only ports 1 and 2 have interrupt
      registers. */
  function PortConfigOf(k: nat): (c: PortConfig)
    requires 1 <= k <= 8
    ensures k <= 2 <==> c.ifg != 0 && c.ies != 0 && c.ie != 0
  {
    PortConfigs[k - 1]
  }

  /** The input latch value each port's constructor sets. */
  function InitialValue(k: nat): bv8
    requires 1 <= k <= 8
  {
    if k == 1 then 0x91 else if k == 2 then 0xef else 0
  }

  /** A freshly constructed port: every register zero except the input latch
      and the output register, which the source leaves uninitialised. */
  function InitialState(value: bv8, out: bv8): (s: PortState)
    ensures s.value == value && s.out == out
    ensures s.ren == 0 && s.dir == 0 && s.sel == 0 && s.ies == 0 && s.ifg == 0 && s.ie == 0
    ensures s.rxCbs == [] && s.txCbs == [] && s.txLog == []
  {
    PortState(value, 0, 0, 0, out, 0, 0, 0, [], [], [])
  }

  /** The addresses in constructor order. */
  function Addresses(c: PortConfig): seq<Addr>
  {
    [c.ren, c.inAddr, c.out, c.dir, c.sel, c.ifg, c.ies, c.ie]
  }

  /** setAddresses: one single-address range per nonzero address, in order. */
  function NonzeroRanges(addrs: seq<Addr>): (r: seq<AddressRange>)
    ensures |r| <= |addrs|
    ensures forall i :: 0 <= i < |r| ==> r[i].start == r[i].end && r[i].start != 0
  {
    if addrs == [] then []
    else
      var rest := NonzeroRanges(addrs[1..]);
      if addrs[0] != 0 then [AddressRange(addrs[0], addrs[0])] + rest else rest
  }

  /** Some range of `r` starts at `a`. */
  predicate Covers(r: seq<AddressRange>, a: Addr)
  {
    exists i :: 0 <= i < |r| && r[i].start == a
  }

  /** The ranges cover exactly the nonzero addresses. */
  lemma {:induction false} NonzeroRangesCover(addrs: seq<Addr>, a: Addr)
    ensures Covers(NonzeroRanges(addrs), a) <==> a != 0 && a in addrs
  {
    if addrs != [] {
      NonzeroRangesCover(addrs[1..], a);
      var rest := NonzeroRanges(addrs[1..]);
      var r := NonzeroRanges(addrs);
      assert a in addrs <==> a == addrs[0] || a in addrs[1..] by {
        assert addrs == [addrs[0]] + addrs[1..];
      }
      if addrs[0] != 0 {
        assert r == [AddressRange(addrs[0], addrs[0])] + rest;
        if Covers(rest, a) {
          var i :| 0 <= i < |rest| && rest[i].start == a;
          assert r[i + 1] == rest[i];
        }
        if Covers(r, a) {
          var i :| 0 <= i < |r| && r[i].start == a;
          if i > 0 {
            assert rest[i - 1] == r[i];
          }
        }
        if a == addrs[0] {
          assert r[0].start == a;
        }
      } else {
        assert r == rest;
      }
    }
  }

  /** The bits the source or-s into the output value on a write to the output
      register: ports are told apart by the address of that register. */
  function OutLatch(outAddr: Addr, v: bv8): (r: bv8)
    ensures outAddr == 0x3b ==> r == 0x10
    ensures outAddr != 0x3b ==> r & v == v
    ensures outAddr != 0x3b ==>
      r & 0x01 == (if outAddr == 0x21 || outAddr == 0x1d || outAddr == 0x35 then v & 0x01 else 0x01)
    ensures outAddr == 0x21 ==> r == v | 0x90
    ensures outAddr == 0x1d ==> r == v | 0xe0
    ensures outAddr == 0x35 ==> r == v | 0x80
    ensures outAddr !in {0x21, 0x1d, 0x35, 0x3b} ==> r == v | 0x01
  {
    if outAddr == 0x21 then v | 0x90
    else if outAddr == 0x29 then v | 0x01
    else if outAddr == 0x1d then v | 0xe0
    else if outAddr == 0x35 then v | 0x80
    else if outAddr == 0x3b then 0x10
    else v | 0x01
  }

  /** One call of each transmit callback, in registration order, with `v`. */
  function Broadcast(cbs: seq<CallbackId>, v: bv8): (r: seq<TxEvent>)
    ensures |r| == |cbs|
    ensures forall i :: 0 <= i < |r| ==> r[i] == TxEvent(cbs[i], v)
  {
    seq(|cbs|, i requires 0 <= i < |cbs| => TxEvent(cbs[i], v))
  }

  /** The input register reads the input latch masked by the resistor-enable
      register and by the logical negation of the direction register, so it
      is 0 or 1. */
  function InputValue(s: PortState): (r: bv8)
    ensures r <= 1
    ensures s.dir != 0 ==> r == 0
    ensures s.dir == 0 ==> r == s.value & s.ren & 1
  {
    s.value & s.ren & (if s.dir == 0 then 1 else 0)
  }

  /** readByte: the register at `a`, checked in the order in, out, dir, sel,
      ren, ies, ifg, ie; any other address is a fault. */
  function ReadRegister(c: PortConfig, s: PortState, a: Addr): (r: Result<bv8>)
    ensures r.Ok? <==> a in Addresses(c)
    ensures r.Err? ==> r.error == UnknownDeviceRegister
    ensures a == c.inAddr ==> r == Ok(InputValue(s))
    ensures a != c.inAddr && a == c.out ==> r == Ok(s.out)
    ensures a != c.inAddr && a != c.out && a == c.dir ==> r == Ok(s.dir)
    ensures a !in {c.inAddr, c.out, c.dir} && a == c.sel ==> r == Ok(s.sel)
    ensures a !in {c.inAddr, c.out, c.dir, c.sel} && a == c.ren ==> r == Ok(s.ren)
    ensures a !in {c.inAddr, c.out, c.dir, c.sel, c.ren} && a == c.ies ==> r == Ok(s.ies)
    ensures a !in {c.inAddr, c.out, c.dir, c.sel, c.ren, c.ies} && a == c.ifg ==> r == Ok(s.ifg)
    ensures a !in {c.inAddr, c.out, c.dir, c.sel, c.ren, c.ies, c.ifg} && a == c.ie ==> r == Ok(s.ie)
  {
    if a == c.inAddr then Ok(InputValue(s))
    else if a == c.out then Ok(s.out)
    else if a == c.dir then Ok(s.dir)
    else if a == c.sel then Ok(s.sel)
    else if a == c.ren then Ok(s.ren)
    else if a == c.ies then Ok(s.ies)
    else if a == c.ifg then Ok(s.ifg)
    else if a == c.ie then Ok(s.ie)
    else Err(UnknownDeviceRegister)
  }

  /** writeByte: checked in the order out, ren, dir, sel, ifg, ies, ie, in.
      A write to the output register latches the byte masked by ren and dir
      (with the per-port bits of OutLatch), copies it to the output register
      and hands it to every transmit callback.  ren, dir and sel store the
      byte; the interrupt registers and the input register ignore it; any
      other address is a fault. */
  function WriteRegister(c: PortConfig, s: PortState, a: Addr, v: bv8): Result<PortState>
  {
    if a == c.out then Ok(WriteOutput(c, s, v)) else WriteControl(c, s, a, v)
  }

  /** A write to the output register. */
  function WriteOutput(c: PortConfig, s: PortState, v: bv8): PortState
  {
    var latched := OutLatch(c.out, v & s.ren & s.dir);
    s.(value := latched, out := latched, txLog := s.txLog + Broadcast(s.txCbs, latched))
  }

  /** A write to any other address. */
  function WriteControl(c: PortConfig, s: PortState, a: Addr, v: bv8): Result<PortState>
  {
    if a == c.ren then Ok(s.(ren := v))
    else if a == c.dir then Ok(s.(dir := v))
    else if a == c.sel then Ok(s.(sel := v))
    else if a == c.ifg || a == c.ies || a == c.ie || a == c.inAddr then Ok(s)
    else Err(UnknownDeviceRegister)
  }

  /** A byte write fails exactly on addresses that are not the port's
      registers. */
  lemma WriteRegisterFails(c: PortConfig, s: PortState, a: Addr, v: bv8)
    ensures WriteRegister(c, s, a, v).Ok? <==> a in Addresses(c)
    ensures WriteRegister(c, s, a, v).Err? ==> WriteRegister(c, s, a, v).error == UnknownDeviceRegister
  {
    assert a in Addresses(c) <==>
      a == c.ren || a == c.inAddr || a == c.out || a == c.dir || a == c.sel
      || a == c.ifg || a == c.ies || a == c.ie;
  }

  /** A write to the output register latches the byte masked by the
      resistor-enable and direction registers, with the port's own bits of
      OutLatch; it changes only the latch, the output register (to the same
      byte) and the transmit log, to which it adds one call of every
      transmit callback, in order, with that byte. */
  lemma WriteOutputNotifies(c: PortConfig, s: PortState, v: bv8)
    ensures WriteRegister(c, s, c.out, v).Ok?
    ensures var s' := WriteRegister(c, s, c.out, v).value;
      && s'.value == OutLatch(c.out, v & s.ren & s.dir)
      && s'.out == s'.value
      && s'.txLog == s.txLog + Broadcast(s.txCbs, s'.value)
      && s' == s.(value := s'.value, out := s'.value, txLog := s'.txLog)
  {
  }

  /** Any other successful write leaves the latch, the output register, the
      callbacks and the transmit log alone: a write to ren, dir or sel (in
      that order of checking) changes that register only, and a write to an
      interrupt register or the input register changes nothing. */
  lemma WriteOtherIsSilent(c: PortConfig, s: PortState, a: Addr, v: bv8)
    requires a != c.out && WriteRegister(c, s, a, v).Ok?
    ensures var s' := WriteRegister(c, s, a, v).value;
      && s'.rxCbs == s.rxCbs && s'.txCbs == s.txCbs && s'.txLog == s.txLog
      && s'.value == s.value && s'.out == s.out
    ensures var s' := WriteRegister(c, s, a, v).value;
      && (a == c.ren ==> s' == s.(ren := v))
      && (a != c.ren && a == c.dir ==> s' == s.(dir := v))
      && (a != c.ren && a != c.dir && a == c.sel ==> s' == s.(sel := v))
      && (a !in {c.ren, c.dir, c.sel} ==> s' == s)
  {
    if a == c.ren {
    } else if a == c.dir {
    } else if a == c.sel {
    } else {
      assert WriteRegister(c, s, a, v).value == s;
    }
  }

  /** The nonzero register addresses of every port are pairwise distinct. */
  predicate DistinctNonzero(addrs: seq<Addr>)
  {
    forall i, j :: 0 <= i < j < |addrs| && addrs[i] != 0 ==> addrs[i] != addrs[j]
  }

  lemma PortAddressesDistinct(k: nat)
    requires 1 <= k <= 8
    ensures DistinctNonzero(Addresses(PortConfigOf(k)))
  {
  }

  /** On a port whose nonzero addresses are distinct, a byte written to the
      direction, select or resistor-enable register is read back unchanged. */
  lemma ControlRegisterRoundTrip(c: PortConfig, s: PortState, v: bv8)
    requires DistinctNonzero(Addresses(c))
    requires c.ren != 0 && c.dir != 0 && c.sel != 0
    ensures ReadRegister(c, WriteRegister(c, s, c.dir, v).value, c.dir) == Ok(v)
    ensures ReadRegister(c, WriteRegister(c, s, c.sel, v).value, c.sel) == Ok(v)
    ensures ReadRegister(c, WriteRegister(c, s, c.ren, v).value, c.ren) == Ok(v)
  {
    var addrs := Addresses(c);
    assert addrs[0] == c.ren && addrs[1] == c.inAddr && addrs[2] == c.out;
    assert addrs[3] == c.dir && addrs[4] == c.sel;
  }

  /** A byte written to an interrupt register is dropped: the register reads
      back what it held before. */
  lemma InterruptRegisterIgnoresWrites(c: PortConfig, s: PortState, a: Addr, v: bv8)
    requires DistinctNonzero(Addresses(c))
    requires a != 0 && (a == c.ifg || a == c.ies || a == c.ie)
    ensures ReadRegister(c, WriteRegister(c, s, a, v).value, a) == ReadRegister(c, s, a)
    ensures ReadRegister(c, s, a).Ok?
  {
    var addrs := Addresses(c);
    assert addrs[0] == c.ren && addrs[1] == c.inAddr && addrs[2] == c.out;
    assert addrs[3] == c.dir && addrs[4] == c.sel;
    assert addrs[5] == c.ifg && addrs[6] == c.ies && addrs[7] == c.ie;
  }

  /** The output register reads back what the last output write latched. */
  lemma OutputRoundTrip(c: PortConfig, s: PortState, v: bv8)
    requires c.out != c.inAddr
    ensures ReadRegister(c, WriteRegister(c, s, c.out, v).value, c.out)
            == Ok(WriteRegister(c, s, c.out, v).value.value)
  {
  }

  /** A digital I/O port device. */
  class Port {
    const config: PortConfig
    const ranges: seq<AddressRange>
    var value: bv8
    var ren: bv8
    var dir: bv8
    var sel: bv8
    var out: bv8
    var ies: bv8
    var ifg: bv8
    var ie: bv8
    var rxCbs: seq<CallbackId>
    var txCbs: seq<CallbackId>
    var txLog: seq<TxEvent>

    ghost function State(): PortState
      reads this
    {
      PortState(value, ren, dir, sel, out, ies, ifg, ie, rxCbs, txCbs, txLog)
    }

    /** `initialOut` stands for the output register, which the source leaves
        uninitialised. */
    constructor (config: PortConfig, initialValue: bv8, initialOut: bv8)
      ensures this.config == config
      ensures ranges == NonzeroRanges(Addresses(config))
      ensures State() == InitialState(initialValue, initialOut)
    {
      this.config := config;
      var r := SetAddresses(Addresses(config));
      ranges := r;
      value, ren, dir, sel, out, ies, ifg, ie := initialValue, 0, 0, 0, initialOut, 0, 0, 0;
      rxCbs, txCbs, txLog := [], [], [];
    }

    /** setAddresses: keep the nonzero addresses as single-address ranges. */
    static method SetAddresses(addresses: seq<Addr>) returns (ranges: seq<AddressRange>)
      ensures ranges == NonzeroRanges(addresses)
    {
      ranges := [];
      var i := |addresses|;
      while i > 0
        invariant 0 <= i <= |addresses|
        invariant ranges == NonzeroRanges(addresses[i..])
      {
        i := i - 1;
        assert addresses[i..][1..] == addresses[i + 1..];
        if addresses[i] != 0 {
          ranges := [AddressRange(addresses[i], addresses[i])] + ranges;
        }
      }
      assert addresses[0..] == addresses;
    }

    /** init: sets the input latch to 0x90.  No caller in the source. */
    method Init()
      modifies this
      ensures State() == old(State()).(value := 0x90)
    {
      value := 0x90;
    }

    method RegisterPeripheral(rx: CallbackId, tx: CallbackId)
      modifies this
      ensures State() == old(State()).(rxCbs := old(rxCbs) + [rx], txCbs := old(txCbs) + [tx])
    {
      rxCbs := rxCbs + [rx];
      txCbs := txCbs + [tx];
    }

    /** invokeTxCbs: call every transmit callback, in order, with `v`. */
    method InvokeTxCbs(v: bv8)
      modifies this
      ensures State() == old(State()).(txLog := old(txLog) + Broadcast(txCbs, v))
    {
      var i := 0;
      while i < |txCbs|
        invariant 0 <= i <= |txCbs|
        invariant State() == old(State()).(txLog := old(txLog) + Broadcast(txCbs[..i], v))
      {
        assert Broadcast(txCbs[..i + 1], v) == Broadcast(txCbs[..i], v) + [TxEvent(txCbs[i], v)];
        txLog := txLog + [TxEvent(txCbs[i], v)];
        i := i + 1;
      }
      assert txCbs[..i] == txCbs;
    }

    method ReadByte(a: Addr) returns (r: Result<bv8>)
      ensures r == ReadRegister(config, State(), a)
    {
      if a == config.inAddr {
        r := Ok(value & ren & (if dir == 0 then 1 else 0));
      } else if a == config.out {
        r := Ok(out);
      } else if a == config.dir {
        r := Ok(dir);
      } else if a == config.sel {
        r := Ok(sel);
      } else if a == config.ren {
        r := Ok(ren);
      } else if a == config.ies {
        r := Ok(ies);
      } else if a == config.ifg {
        r := Ok(ifg);
      } else if a == config.ie {
        r := Ok(ie);
      } else {
        r := Err(UnknownDeviceRegister);
      }
    }

    method WriteByte(a: Addr, v: bv8) returns (r: Result<()>)
      modifies this
      ensures r == WriteRegister(config, old(State()), a, v).Drop()
      ensures r.Ok? ==> State() == WriteRegister(config, old(State()), a, v).value
      ensures r.Err? ==> State() == old(State())
    {
      r := Ok(());
      if a == config.out {
        WriteOut(v);
      } else if a == config.ren {
        ren := v;
      } else if a == config.dir {
        dir := v;
      } else if a == config.sel {
        sel := v;
      } else if a == config.ifg || a == config.ies || a == config.ie || a == config.inAddr {
      } else {
        r := Err(UnknownDeviceRegister);
      }
    }

    /** The output-register branch of writeByte. */
    method WriteOut(v: bv8)
      modifies this
      ensures State() == WriteOutput(config, old(State()), v)
    {
      ghost var s := State();
      var latched := OutLatch(config.out, v & ren & dir);
      value := latched;
      out := latched;
      InvokeTxCbs(latched);
      assert State() == s.(value := latched, out := latched, txLog := s.txLog + Broadcast(s.txCbs, latched));
    }

    /** Ports have no word-wide registers. */
    method ReadWord(a: Addr) returns (r: Result<bv16>)
      ensures r == Err(NotImplemented)
    {
      r := Err(NotImplemented);
    }

    method WriteWord(a: Addr, v: bv16) returns (r: Result<()>)
      ensures r == Err(NotImplemented)
    {
      r := Err(NotImplemented);
    }
  }
}
