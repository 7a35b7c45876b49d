/** The address map of the devices manager (DevicesManager.cpp): which
    device answers at which address, and what a bus access of each width does
    to the state of the devices. */
module Bus {
  import opened Types
  import M = MemoryDevice
  import P = PortDevice
  import W = WatchdogDevice

  /** The internal devices, in the order loadInternalDevices creates them;
      ports are numbered 1 to 8. */
  datatype DeviceId = WatchdogId | PortId(n: nat) | MemoryId

  /** One address range handed to registerDeviceRange. */
  datatype Registration = Registration(range: AddressRange, device: DeviceId)

  type Routes = map<int, DeviceId>

  /** registerDeviceRange: every address of the range that has no device yet
      gets `d`; addresses already taken keep their device. */
  function RegisterRange(m: Routes, r: AddressRange, d: DeviceId): (m': Routes)
    ensures forall k :: k in m' <==> k in m || r.start <= k <= r.end
    ensures forall k :: k in m ==> m'[k] == m[k]
    ensures forall k :: k in m' && k !in m ==> m'[k] == d
  {
    map k | k in m.Keys + Interval(r.start, r.end) :: if k in m then m[k] else d
  }

  /** The addresses from `lo` to `hi` inclusive. */
  function Interval(lo: int, hi: int): (s: set<int>)
    ensures forall j :: j in s <==> lo <= j <= hi
    decreases hi - lo
  {
    if lo > hi then {} else {lo} + Interval(lo + 1, hi)
  }

  /** Registering one more address at the top of a range adds it unless it
      is already taken. */
  lemma RegisterRangeStep(m: Routes, start: int, hi: int, d: DeviceId)
    ensures var prev := RegisterRange(m, AddressRange(start, hi - 1), d);
      RegisterRange(m, AddressRange(start, hi), d) ==
        if hi in prev || hi < start then prev else prev[hi := d]
  {
  }

  /** An empty range registers nothing. */
  lemma RegisterEmptyRange(m: Routes, r: AddressRange, d: DeviceId)
    requires r.start > r.end
    ensures RegisterRange(m, r, d) == m
  {
  }

  /** Registering a sequence of ranges, one after the other. */
  function RegisterAll(m: Routes, regs: seq<Registration>): Routes
    decreases |regs|
  {
    if regs == [] then m
    else RegisterAll(RegisterRange(m, regs[0].range, regs[0].device), regs[1..])
  }

  /** The device of the first registration whose range holds `a`. */
  function Route(regs: seq<Registration>, a: int): (r: Option<DeviceId>)
    ensures r.Some? <==> exists i :: 0 <= i < |regs| && regs[i].range.start <= a <= regs[i].range.end
  {
    if regs == [] then None
    else if regs[0].range.start <= a <= regs[0].range.end then Some(regs[0].device)
    else
      var rest := Route(regs[1..], a);
      assert rest.Some? ==> exists i :: 0 <= i < |regs[1..]| && regs[1..][i].range.start <= a <= regs[1..][i].range.end;
      assert forall i :: 1 <= i < |regs| ==> regs[i] == regs[1..][i - 1];
      rest
  }

  /** After any sequence of registrations an address is taken by the device
      it had before or, failing that, by the first registration covering it:
      the first registration wins. */
  lemma {:induction false} RegisterAllRoute(m: Routes, regs: seq<Registration>, a: int)
    ensures a in RegisterAll(m, regs) <==> a in m || Route(regs, a).Some?
    ensures a in RegisterAll(m, regs) ==>
      RegisterAll(m, regs)[a] == if a in m then m[a] else Route(regs, a).value
    decreases |regs|
  {
    if regs != [] {
      RegisterAllRoute(RegisterRange(m, regs[0].range, regs[0].device), regs[1..], a);
    }
  }

  /** Routing through two lists of registrations: the first list wins. */
  lemma {:induction false} RouteAppend(x: seq<Registration>, y: seq<Registration>, a: int)
    ensures Route(x + y, a) == if Route(x, a).Some? then Route(x, a) else Route(y, a)
  {
    if x == [] {
      assert x + y == y;
    } else {
      assert (x + y)[1..] == x[1..] + y;
      RouteAppend(x[1..], y, a);
    }
  }

  /** Registering two lists is registering the first, then the second. */
  lemma {:induction false} RegisterAllAppend(m: Routes, x: seq<Registration>, y: seq<Registration>)
    ensures RegisterAll(m, x + y) == RegisterAll(RegisterAll(m, x), y)
    decreases |x|
  {
    if x == [] {
      assert x + y == y;
    } else {
      assert (x + y)[1..] == x[1..] + y;
      RegisterAllAppend(RegisterRange(m, x[0].range, x[0].device), x[1..], y);
    }
  }

  /** The registrations of a device owning the ranges `rs`. */
  function Tagged(rs: seq<AddressRange>, d: DeviceId): (r: seq<Registration>)
    ensures |r| == |rs|
    ensures forall i :: 0 <= i < |rs| ==> r[i] == Registration(rs[i], d)
  {
    if rs == [] then [] else [Registration(rs[0], d)] + Tagged(rs[1..], d)
  }

  /** A port's single-address ranges route exactly its nonzero register
      addresses to it. */
  lemma {:induction false} TaggedNonzeroRoute(addrs: seq<Addr>, d: DeviceId, a: Addr)
    ensures Route(Tagged(P.NonzeroRanges(addrs), d), a) == if a != 0 && a in addrs then Some(d) else None
  {
    if addrs != [] {
      TaggedNonzeroRoute(addrs[1..], d, a);
      assert a in addrs <==> a == addrs[0] || a in addrs[1..] by {
        assert addrs == [addrs[0]] + addrs[1..];
      }
      var rest := P.NonzeroRanges(addrs[1..]);
      if addrs[0] != 0 {
        var t := Tagged([AddressRange(addrs[0], addrs[0])] + rest, d);
        assert t[1..] == Tagged(rest, d);
      }
    }
  }

  /** The register addresses of ports 1 to 8, in creation order. */
  function PortTable(): (t: seq<seq<Addr>>)
    ensures |t| == 8
    ensures forall i :: 0 <= i < 8 ==> t[i] == P.Addresses(P.PortConfigOf(i + 1))
  {
    [P.Addresses(P.PortConfigOf(1)), P.Addresses(P.PortConfigOf(2)),
     P.Addresses(P.PortConfigOf(3)), P.Addresses(P.PortConfigOf(4)),
     P.Addresses(P.PortConfigOf(5)), P.Addresses(P.PortConfigOf(6)),
     P.Addresses(P.PortConfigOf(7)), P.Addresses(P.PortConfigOf(8))]
  }

  /** The ranges port k registers: one per nonzero register address. */
  function PortRanges(k: nat): seq<AddressRange>
    requires 1 <= k <= 8
  {
    P.NonzeroRanges(P.Addresses(P.PortConfigOf(k)))
  }

  /** `table` holds the ranges of port k at index k - 1. */
  predicate IsPortRangesTable(table: seq<seq<AddressRange>>)
  {
    |table| == 8 && forall j :: 0 <= j < 8 ==> table[j] == PortRanges(j + 1)
  }

  /** The ranges of ports 1 to 8. */
  function PortRangesTable(): (t: seq<seq<AddressRange>>)
    ensures IsPortRangesTable(t)
  {
    seq(8, j requires 0 <= j < 8 => PortRanges(j + 1))
  }

  /** The registrations of the ports whose ranges are `table[i..]`, numbered
      from i + 1. */
  function PortRegistrations(table: seq<seq<AddressRange>>, i: nat): seq<Registration>
    decreases |table| - i
  {
    if i >= |table| then []
    else Tagged(table[i], PortId(i + 1)) + PortRegistrations(table, i + 1)
  }

  /** Every registration loadInternalDevices makes, given the ports' ranges:
      the watchdog, ports 1 to 8, and the memory last. */
  function Registrations(table: seq<seq<AddressRange>>): seq<Registration>
  {
    [Registration(W.WatchdogRange, WatchdogId)] + PortRegistrations(table, 0)
    + [Registration(M.MemoryRange, MemoryId)]
  }

  /** The address map after loadInternalDevices. */
  function BootRoutes(): Routes
  {
    RegisterAll(map[], Registrations(PortRangesTable()))
  }

  /** Registering the ranges of any table of the ports' ranges builds the
      boot map. */
  lemma BootRoutesOfTable(table: seq<seq<AddressRange>>)
    requires IsPortRangesTable(table)
    ensures RegisterAll(map[], Registrations(table)) == BootRoutes()
  {
    PortRangesTableUnique(table);
  }

  /** There is only one table of the ports' ranges. */
  lemma PortRangesTableUnique(table: seq<seq<AddressRange>>)
    requires IsPortRangesTable(table)
    ensures table == PortRangesTable()
  {
    var t := PortRangesTable();
    assert forall j :: 0 <= j < 8 ==> table[j] == t[j];
  }

  /** getDeviceForAddress: the registered device, or the memory for an
      address nobody registered. */
  function Lookup(routes: Routes, a: int): DeviceId
  {
    if a in routes then routes[a] else MemoryId
  }

  /** The port a register address belongs to, read off the address
      itself (0 for an address of no port). */
  function PortOfRegister(a: Addr): nat
  {
    if 0x20 <= a <= 0x27 then 1
    else if 0x28 <= a <= 0x2f then 2
    else if a == 0x10 || 0x18 <= a <= 0x1b then 3
    else if a == 0x11 || 0x1c <= a <= 0x1f then 4
    else if a == 0x12 || 0x30 <= a <= 0x33 then 5
    else if a == 0x13 || 0x34 <= a <= 0x37 then 6
    else if a == 0x14 || a == 0x38 || a == 0x3a || a == 0x3c || a == 0x3e then 7
    else if a == 0x15 || a == 0x39 || a == 0x3b || a == 0x3d || a == 0x3f then 8
    else 0
  }

  /** The address table agrees with the ports' configurations. */
  lemma PortOfRegisterIff(a: Addr, k: nat)
    requires 1 <= k <= 8
    ensures PortOfRegister(a) == k <==> a != 0 && a in P.Addresses(P.PortConfigOf(k))
  {
    var c := P.PortConfigOf(k);
    assert a in P.Addresses(c) <==>
      (a == c.ren || a == c.inAddr || a == c.out || a == c.dir
       || a == c.sel || a == c.ifg || a == c.ies || a == c.ie);
  }

  /** A port register belongs to exactly one port. */
  lemma PortAddressesDisjoint(a: Addr, k: nat, j: nat)
    requires 1 <= k <= 8 && 1 <= j <= 8 && k != j
    requires a != 0 && a in P.Addresses(P.PortConfigOf(k))
    ensures a !in P.Addresses(P.PortConfigOf(j))
  {
    PortOfRegisterIff(a, k);
    PortOfRegisterIff(a, j);
  }

  /** The device answering at `a`, read off the devices' register
      addresses rather than the registration map. */
  function Owner(a: Addr): (d: DeviceId)
    ensures d.PortId? ==> 1 <= d.n <= 8
  {
    if W.WatchdogRange.start <= a <= W.WatchdogRange.end then WatchdogId
    else if PortOfRegister(a) != 0 then PortId(PortOfRegister(a))
    else MemoryId
  }

  /** Port registrations route each register to its port, given ranges
      built from addresses that agree with the address table. */
  lemma {:induction false} PortRegistrationsRoute(
    addrs: seq<seq<Addr>>, table: seq<seq<AddressRange>>, i: nat, a: Addr)
    requires |addrs| == |table| && i <= |table|
    requires forall j :: i <= j < |table| ==> table[j] == P.NonzeroRanges(addrs[j])
    requires forall j :: i <= j < |table| ==> (a != 0 && a in addrs[j] <==> PortOfRegister(a) == j + 1)
    ensures PortOfRegister(a) <= |table| ==>
      Route(PortRegistrations(table, i), a) ==
        if i < PortOfRegister(a) then Some(PortId(PortOfRegister(a))) else None
    decreases |table| - i
  {
    if i < |table| {
      PortRegistrationsStep(addrs[i], PortId(i + 1), PortRegistrations(table, i + 1), a);
      PortRegistrationsRoute(addrs, table, i + 1, a);
    }
  }

  /** Routing through one port's registrations followed by others. */
  lemma PortRegistrationsStep(addrs: seq<Addr>, d: DeviceId, rest: seq<Registration>, a: Addr)
    ensures Route(Tagged(P.NonzeroRanges(addrs), d) + rest, a)
      == if a != 0 && a in addrs then Some(d) else Route(rest, a)
  {
    RouteAppend(Tagged(P.NonzeroRanges(addrs), d), rest, a);
    TaggedNonzeroRoute(addrs, d, a);
  }

  /** The map loadInternalDevices builds sends every address to its owner:
      the watchdog's two addresses to the watchdog, each port register to
      its port although the memory range registered afterwards covers it
      too, and everything else to the memory. */
  lemma BootRoutesOwner(a: Addr)
    ensures Lookup(BootRoutes(), a) == Owner(a)
  {
    RoutesOwner(PortRangesTable(), a);
  }

  /** Every address is routed to its owner by the map built from any table
      of the ports' ranges. */
  lemma RoutesOwner(table: seq<seq<AddressRange>>, a: Addr)
    requires IsPortRangesTable(table)
    ensures Lookup(RegisterAll(map[], Registrations(table)), a) == Owner(a)
  {
    LookupRegistered(Registrations(table), a);
    RegistrationsRoute(table, a);
  }

  /** Looking an address up after registering `regs` on an empty map. */
  lemma LookupRegistered(regs: seq<Registration>, a: int)
    ensures Lookup(RegisterAll(map[], regs), a) ==
      match Route(regs, a) case Some(d) => d case None => MemoryId
  {
    RegisterAllRoute(map[], regs, a);
  }

  /** The first registration covering each address at boot. */
  lemma RegistrationsRoute(table: seq<seq<AddressRange>>, a: Addr)
    requires IsPortRangesTable(table)
    ensures Route(Registrations(table), a) ==
      if Owner(a) != MemoryId then Some(Owner(a))
      else if a <= M.MemoryRange.end then Some(MemoryId)
      else None
  {
    var wd := [Registration(W.WatchdogRange, WatchdogId)];
    var mem := [Registration(M.MemoryRange, MemoryId)];
    var ports := PortRegistrations(table, 0);
    RouteAppend(wd + ports, mem, a);
    RouteAppend(wd, ports, a);
    PortTableAgrees(a);
    PortRegistrationsRoute(PortTable(), table, 0, a);
  }

  /** Every address is routed to its owner. */
  ghost predicate RoutesToOwners(m: Routes)
  {
    forall a: Addr :: Lookup(m, a) == Owner(a)
  }

  lemma RegisteredRoutesToOwners(table: seq<seq<AddressRange>>)
    requires IsPortRangesTable(table)
    ensures RoutesToOwners(RegisterAll(map[], Registrations(table)))
  {
    forall a: Addr
      ensures Lookup(RegisterAll(map[], Registrations(table)), a) == Owner(a)
    {
      RoutesOwner(table, a);
    }
  }

  lemma PortTableAgrees(a: Addr)
    ensures forall j :: 0 <= j < 8 ==> (a != 0 && a in PortTable()[j] <==> PortOfRegister(a) == j + 1)
  {
    forall j | 0 <= j < 8
      ensures a != 0 && a in PortTable()[j] <==> PortOfRegister(a) == j + 1
    {
      PortOfRegisterIff(a, j + 1);
    }
  }

  /** Who answers where: the watchdog at 0x120 and 0x121, port k exactly at
      its nonzero register addresses, and the memory everywhere else. */
  lemma OwnerCases(a: Addr, k: nat)
    requires 1 <= k <= 8
    ensures Owner(a) == WatchdogId <==> 0x120 <= a <= 0x121
    ensures Owner(a) == PortId(k) <==> a != 0 && a in P.Addresses(P.PortConfigOf(k))
    ensures Owner(a) == MemoryId <==>
      && !(0x120 <= a <= 0x121)
      && forall j :: 1 <= j <= 8 ==> a !in P.Addresses(P.PortConfigOf(j)) || a == 0
  {
    PortOfRegisterIff(a, k);
    if Owner(a) != MemoryId {
      if Owner(a).PortId? {
        PortOfRegisterIff(a, Owner(a).n);
      }
    } else {
      forall j | 1 <= j <= 8
        ensures a !in P.Addresses(P.PortConfigOf(j)) || a == 0
      {
        PortOfRegisterIff(a, j);
      }
    }
  }
}
