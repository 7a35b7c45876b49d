/** The devices manager object (DevicesManager.h, DevicesManager.cpp): it
    owns the internal devices, keeps the address-to-device map and forwards
    every bus access to the device answering at its address. */
module DevicesManagerClass {
  import opened Types
  import opened Bus
  import opened BusAccess
  import M = MemoryDevice
  import P = PortDevice
  import W = WatchdogDevice

  /** The states of a sequence of ports, in order. */
  ghost function PortStatesOf(ps: seq<P.Port>): (r: seq<P.PortState>)
    reads ps
    ensures |r| == |ps|
    ensures forall i :: 0 <= i < |ps| ==> r[i] == ps[i].State()
  {
    seq(|ps|, i reads ps requires 0 <= i < |ps| => ps[i].State())
  }

  /** The address ranges of each port, in order (Device::addressRanges_). */
  function RangesOf(ps: seq<P.Port>): (t: seq<seq<AddressRange>>)
    ensures |t| == |ps|
    ensures forall i :: 0 <= i < |ps| ==> t[i] == ps[i].ranges
  {
    seq(|ps|, i requires 0 <= i < |ps| => ps[i].ranges)
  }

  /** A set of addresses is empty or has a member. */
  lemma SomeAddress(s: set<int>)
    ensures s == {} || exists a :: a in s
  {
    if !(exists a :: a in s) {
      assert s == {};
    }
  }

  class DevicesManager {
    const watchdog: W.Watchdog
    const ports: seq<P.Port>
    const memory: M.Memory
    var devicesMap: Routes

    /** Port k sits at index k - 1 with its own configuration, no two ports
        are the same object, and the map sends every address to its owner. */
    ghost predicate Valid()
      reads this, memory
    {
      && memory.Valid()
      && |ports| == 8
      && (forall i :: 0 <= i < 8 ==> ports[i].config == P.PortConfigOf(i + 1))
      && (forall i, j :: 0 <= i < j < 8 ==> ports[i] != ports[j])
      && RoutesToOwners(devicesMap)
    }

    /** The state of every device the manager owns. */
    ghost function Snapshot(): BusState
      reads this, memory, memory.cells, watchdog, ports
      requires Valid()
    {
      BusState(memory.Contents(), watchdog.wdtctl, PortStatesOf(ports))
    }

    /** Creates the watchdog, ports 1 to 8 and the memory, then registers
        their ranges.  `initialOuts` stands for the ports' output registers,
        which the source leaves uninitialised. */
    constructor (initialOuts: seq<bv8>)
      requires |initialOuts| == 8
      ensures Valid()
      ensures IsPortRangesTable(RangesOf(ports))
      ensures devicesMap == RegisterAll(map[], Registrations(RangesOf(ports)))
      ensures Snapshot().wdtctl == W.WdtctlReset
      ensures forall i :: 0 <= i < 8 ==>
        Snapshot().ports[i] == P.InitialState(P.InitialValue(i + 1), initialOuts[i])
      ensures fresh(watchdog) && fresh(memory) && fresh(memory.cells)
      ensures forall i :: 0 <= i < 8 ==> fresh(ports[i])
    {
      watchdog := new W.Watchdog();
      var ps := CreatePorts(initialOuts);
      ports := ps;
      memory := new M.Memory();
      devicesMap := map[];
      new;
      LoadInternalDevices();
      RegisteredRoutesToOwners(RangesOf(ports));
    }

    /** The eight port objects, each with its configuration and ranges. */
    static method CreatePorts(initialOuts: seq<bv8>) returns (ps: seq<P.Port>)
      requires |initialOuts| == 8
      ensures |ps| == 8
      ensures forall i :: 0 <= i < 8 ==>
        && fresh(ps[i])
        && ps[i].config == P.PortConfigOf(i + 1)
        && ps[i].ranges == P.NonzeroRanges(P.Addresses(ps[i].config))
        && ps[i].State() == P.InitialState(P.InitialValue(i + 1), initialOuts[i])
      ensures forall i, j :: 0 <= i < j < 8 ==> ps[i] != ps[j]
    {
      ps := [];
      var k := 0;
      while k < 8
        invariant 0 <= k <= 8 && |ps| == k
        invariant forall i :: 0 <= i < k ==> fresh(ps[i])
        invariant forall i :: 0 <= i < k ==>
          && ps[i].config == P.PortConfigOf(i + 1)
          && ps[i].ranges == P.NonzeroRanges(P.Addresses(ps[i].config))
          && ps[i].State() == P.InitialState(P.InitialValue(i + 1), initialOuts[i])
        invariant forall i, j :: 0 <= i < j < k ==> ps[i] != ps[j]
      {
        var p := new P.Port(P.PortConfigOf(k + 1), P.InitialValue(k + 1), initialOuts[k]);
        assert forall i :: 0 <= i < k ==> ps[i] != p;
        ghost var before := ps;
        ps := ps + [p];
        assert forall i :: 0 <= i < k ==> ps[i] == before[i];
        k := k + 1;
      }
    }

    /** loadInternalDevices: register the ranges of the watchdog, of each
        port in turn and, last, of the memory. */
    method LoadInternalDevices()
      requires devicesMap == map[]
      modifies this
      ensures devicesMap == RegisterAll(map[], Registrations(RangesOf(ports)))
    {
      ghost var table := RangesOf(ports);
      ghost var wd := [Registration(W.WatchdogRange, WatchdogId)];
      ghost var mem := [Registration(M.MemoryRange, MemoryId)];
      RegisterRanges([W.WatchdogRange], WatchdogId);
      assert Tagged([W.WatchdogRange], WatchdogId) == wd;
      assert Registrations(table) == wd + (PortRegistrations(table, 0) + mem);
      RegisterAllAppend(map[], wd, PortRegistrations(table, 0) + mem);
      var k := 0;
      while k < |ports|
        invariant 0 <= k <= |ports|
        invariant RegisterAll(devicesMap, PortRegistrations(table, k) + mem) == RegisterAll(map[], Registrations(table))
      {
        ghost var before := devicesMap;
        ghost var t := Tagged(table[k], PortId(k + 1));
        RegisterRanges(ports[k].ranges, PortId(k + 1));
        assert PortRegistrations(table, k) + mem == t + (PortRegistrations(table, k + 1) + mem);
        RegisterAllAppend(before, t, PortRegistrations(table, k + 1) + mem);
        k := k + 1;
      }
      ghost var before := devicesMap;
      RegisterRanges([M.MemoryRange], MemoryId);
      assert Tagged([M.MemoryRange], MemoryId) == mem;
      assert PortRegistrations(table, k) + mem == mem;
      assert RegisterAll(devicesMap, []) == devicesMap;
    }

    /** Registers every range of one device, in order. */
    method RegisterRanges(rs: seq<AddressRange>, d: DeviceId)
      modifies this
      ensures devicesMap == RegisterAll(old(devicesMap), Tagged(rs, d))
    {
      var i := 0;
      while i < |rs|
        invariant 0 <= i <= |rs|
        invariant RegisterAll(devicesMap, Tagged(rs[i..], d)) == RegisterAll(old(devicesMap), Tagged(rs, d))
      {
        assert Tagged(rs[i..], d)[1..] == Tagged(rs[i + 1..], d);
        RegisterDeviceRange(rs[i].start, rs[i].end, d);
        i := i + 1;
      }
      assert rs[i..] == [];
    }

    /** registerDeviceRange: give `d` every address from `start` to `end`
        that no device has yet. */
    method RegisterDeviceRange(start: int, end: int, d: DeviceId)
      modifies this
      ensures devicesMap == RegisterRange(old(devicesMap), AddressRange(start, end), d)
    {
      var address := start;
      while address <= end
        invariant start <= address
        invariant start <= end ==> address <= end + 1
        invariant start > end ==> address == start
        invariant devicesMap == RegisterRange(old(devicesMap), AddressRange(start, address - 1), d)
        decreases end - address
      {
        RegisterRangeStep(old(devicesMap), start, address, d);
        if address !in devicesMap {
          devicesMap := devicesMap[address := d];
        }
        address := address + 1;
      }
      if start > end {
        RegisterEmptyRange(old(devicesMap), AddressRange(start, address - 1), d);
        RegisterEmptyRange(old(devicesMap), AddressRange(start, end), d);
      }
    }

    /** getDeviceForAddress: the device registered at `a`, or the memory. */
    function GetDeviceForAddress(a: Addr): (d: DeviceId)
      reads this, memory
      requires Valid()
      ensures d == Owner(a)
    {
      if a in devicesMap then devicesMap[a] else MemoryId
    }

    method ReadByte(a: Addr) returns (r: Result<bv8>)
      requires Valid()
      ensures r == BusAccess.ReadByte(Snapshot(), a)
    {
      var d := GetDeviceForAddress(a);
      match d
      case WatchdogId => r := Err(NotImplemented);
      case PortId(k) => r := ports[k - 1].ReadByte(a);
      case MemoryId => r := memory.ReadByte(a);
    }

    method ReadWord(a: Addr) returns (r: Result<bv16>)
      requires Valid()
      ensures r == BusAccess.ReadWord(Snapshot(), a)
    {
      var d := GetDeviceForAddress(a);
      match d
      case WatchdogId => r := watchdog.ReadWord(a);
      case PortId(k) => r := ports[k - 1].ReadWord(a);
      case MemoryId => r := memory.ReadWord(a);
    }

    method ReadDWord(a: Addr) returns (r: Result<bv32>)
      requires Valid()
      ensures r == BusAccess.ReadDWord(Snapshot(), a)
    {
      var d := GetDeviceForAddress(a);
      match d
      case MemoryId => r := memory.ReadDWord(a);
      case _ => r := Err(NotImplemented);
    }

    method WriteByte(a: Addr, v: bv8) returns (r: Result<()>)
      requires Valid()
      modifies memory.cells, watchdog, ports
      ensures Valid()
      ensures r == BusAccess.WriteByte(old(Snapshot()), a, v).Drop()
      ensures Snapshot() == if r.Ok? then BusAccess.WriteByte(old(Snapshot()), a, v).value else old(Snapshot())
    {
      var d := GetDeviceForAddress(a);
      match d
      case WatchdogId =>
        r := watchdog.WriteByte(a, v);
      case PortId(k) =>
        r := WritePortByte(k, a, v);
      case MemoryId =>
        r := memory.WriteByte(a, v);
    }

    /** The port branch of writeByte: port k alone changes. */
    method WritePortByte(k: nat, a: Addr, v: bv8) returns (r: Result<()>)
      requires Valid() && 1 <= k <= 8
      modifies ports[k - 1]
      ensures var w := P.WriteRegister(ports[k - 1].config, old(ports[k - 1].State()), a, v);
        && r == w.Drop()
        && PortStatesOf(ports) == old(PortStatesOf(ports))[k - 1 := if w.Ok? then w.value else old(ports[k - 1].State())]
    {
      r := ports[k - 1].WriteByte(a, v);
    }

    method WriteWord(a: Addr, v: bv16) returns (r: Result<()>)
      requires Valid()
      modifies memory.cells, watchdog, ports
      ensures Valid()
      ensures r == BusAccess.WriteWord(old(Snapshot()), a, v).Drop()
      ensures Snapshot() == if r.Ok? then BusAccess.WriteWord(old(Snapshot()), a, v).value else old(Snapshot())
    {
      var d := GetDeviceForAddress(a);
      match d
      case WatchdogId =>
        r := watchdog.WriteWord(a, v);
      case PortId(k) =>
        r := ports[k - 1].WriteWord(a, v);
      case MemoryId =>
        r := memory.WriteWord(a, v);
    }

    method WriteDWord(a: Addr, v: bv32) returns (r: Result<()>)
      requires Valid()
      modifies memory.cells
      ensures Valid()
      ensures r == BusAccess.WriteDWord(old(Snapshot()), a, v).Drop()
      ensures Snapshot() == if r.Ok? then BusAccess.WriteDWord(old(Snapshot()), a, v).value else old(Snapshot())
    {
      var d := GetDeviceForAddress(a);
      match d
      case MemoryId => r := memory.WriteDWord(a, v);
      case _ => r := Err(NotImplemented);
    }

    /** read: an access of `n` bytes. */
    method Read(a: Addr, n: nat) returns (r: Result<bv32>)
      requires Valid()
      ensures r == BusAccess.Read(Snapshot(), a, n)
    {
      if n == 1 {
        var b := ReadByte(a);
        r := if b.Ok? then Ok(b.value as bv32) else Err(b.error);
      } else if n == 2 {
        var w := ReadWord(a);
        r := if w.Ok? then Ok(w.value as bv32) else Err(w.error);
      } else if n == 4 {
        r := ReadDWord(a);
      } else {
        r := Err(UnsupportedAccessWidth);
      }
    }

    /** write: an access of `n` bytes with `v` truncated to that width. */
    method Write(a: Addr, v: bv32, n: nat) returns (r: Result<()>)
      requires Valid()
      modifies memory.cells, watchdog, ports
      ensures Valid()
      ensures r == BusAccess.Write(old(Snapshot()), a, v, n).Drop()
      ensures Snapshot() == if r.Ok? then BusAccess.Write(old(Snapshot()), a, v, n).value else old(Snapshot())
    {
      if n == 1 {
        r := WriteByte(a, M.ByteOf(v, 0));
      } else if n == 2 {
        r := WriteWord(a, LowWord(v));
      } else if n == 4 {
        r := WriteDWord(a, v);
      } else {
        r := Err(UnsupportedAccessWidth);
      }
    }

    /** registerPeripheral: attach a peripheral's callbacks to port `port`. */
    method RegisterPeripheral(port: nat, rx: P.CallbackId, tx: P.CallbackId)
      requires Valid() && 1 <= port <= 8
      modifies ports[port - 1]
      ensures Valid()
      ensures var old_ := old(Snapshot()).ports[port - 1];
        Snapshot() == old(Snapshot()).(ports := old(Snapshot()).ports[port - 1 :=
          old_.(rxCbs := old_.rxCbs + [rx], txCbs := old_.txCbs + [tx])])
    {
      ports[port - 1].RegisterPeripheral(rx, tx);
    }

    /** updateAllDevices: the update of the device behind every entry of the
        map, which is called once per mapped address rather than once per
        device.  Every device's update is empty, so nothing changes; the
        result is the number of calls made. */
    method UpdateAllDevices() returns (calls: nat)
      ensures calls == |devicesMap|
    {
      var pending: set<int> := devicesMap.Keys;
      calls := 0;
      while pending != {}
        invariant pending <= devicesMap.Keys
        invariant calls + |pending| == |devicesMap|
        decreases |pending|
      {
        SomeAddress(pending);
        var address :| address in pending;
        pending := pending - {address};
        calls := calls + 1;
      }
    }
  }
}
