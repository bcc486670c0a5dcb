/** PCI enumeration: scanning configuration space and keeping the devices found in a linked list. */
module Pci {
  import opened Common

  const NO_DEVICE: word := 0xffff_ffff

  /** Configuration space while it is stable: the data behind each value of CONFIG_ADDRESS, and how many buses,
      devices on a bus and functions of a device are scanned. */
  datatype Config = Config(data: word -> word, buses: nat, devices: nat, functions: nat)

  type ConfigSpace = c: Config | c.buses <= 256 && 1 <= c.devices <= 32 && 1 <= c.functions <= 8
    witness Config(_ => 0, 0, 1, 1)

  /** What the kernel scans. */
  function KernelRanges(data: word -> word): ConfigSpace {
    Config(data, 255, 31, 7)
  }

  /** The value written to CONFIG_ADDRESS: fields side by side, as section 3.2.2.3.2 of the PCI Local Bus
      Specification 3.0 lays them out. */
  function Address(enable: bool, bus: nat, dev: nat, func: nat, reg: nat): word
    requires bus < 256 && dev < 32 && func < 8 && reg < 256
  {
    (if enable then 0x8000_0000 else 0) + bus * 0x1_0000 + dev * 0x800 + func * 0x100 + reg
  }

  /** No two registers share an address, and later functions have larger ones. */
  lemma AddressInjective(bus: nat, dev: nat, func: nat, reg: nat, bus': nat, dev': nat, func': nat, reg': nat)
    requires bus < 256 && dev < 32 && func < 8 && reg < 256 && bus' < 256 && dev' < 32 && func' < 8 && reg' < 256
    ensures Address(true, bus, dev, func, reg) == Address(true, bus', dev', func', reg')
      <==> bus == bus' && dev == dev' && func == func' && reg == reg'
  {
    var f, f' := dev * 8 + func, dev' * 8 + func';
    SameDigits(bus * 0x100 + f, bus' * 0x100 + f', reg, reg');
    SameDigits(bus, bus', f, f');
  }

  lemma SameDigits(a: nat, a': nat, r: nat, r': nat)
    requires r < 0x100 && r' < 0x100
    ensures a * 0x100 + r == a' * 0x100 + r' <==> a == a' && r == r'
  {
  }

  datatype Device = Device(
    bus: nat, devfn: nat, func: nat,
    vender: nat, devid: nat,
    pgIf: nat, subClass: nat, baseClass: nat,
    headerType: nat, multi: bool,
    subVender: nat, subDevid: nat)

  predicate IsMultiFunction(header: word) {
    header / 0x80_0000 % 2 == 1
  }

  /** The record made of the registers of a function. */
  function Describe(bus: nat, dev: nat, func: nat, data: word, cls: word, header: word, subsystem: word): Device {
    Device(bus, dev, func,
           data % 0x1_0000, data / 0x1_0000,
           cls / 0x100 % 0x100, cls / 0x1_0000 % 0x100, cls / 0x100_0000,
           header / 0x1_0000 % 0x80, IsMultiFunction(header),
           subsystem % 0x1_0000, subsystem / 0x1_0000)
  }

  /** The record loses nothing of the identification registers but the revision: they can be put together
      again from its fields, each in its place and within its width. */
  lemma RegistersFromRecord(bus: nat, dev: nat, func: nat, data: word, cls: word, header: word, subsystem: word)
    ensures var d := Describe(bus, dev, func, data, cls, header, subsystem);
      && d.bus == bus && d.devfn == dev && d.func == func
      && d.vender < 0x1_0000 && d.devid < 0x1_0000 && data == d.devid * 0x1_0000 + d.vender
      && d.subVender < 0x1_0000 && d.subDevid < 0x1_0000 && subsystem == d.subDevid * 0x1_0000 + d.subVender
    ensures var d := Describe(bus, dev, func, data, cls, header, subsystem);
      && d.baseClass < 0x100 && d.subClass < 0x100 && d.pgIf < 0x100
      && 0 <= cls - (d.baseClass * 0x100_0000 + d.subClass * 0x1_0000 + d.pgIf * 0x100) < 0x100
    ensures var d := Describe(bus, dev, func, data, cls, header, subsystem);
      d.headerType < 0x80 && header / 0x1_0000 % 0x100 == d.headerType + if d.multi then 0x80 else 0
  {
    Bytes(cls);
    HeaderByte(header);
  }

  /** And nothing else can be put together to the same registers. */
  lemma RecordFromRegisters(d: Device, data: word, cls: word, header: word, subsystem: word)
    requires d.vender < 0x1_0000 && data == d.devid * 0x1_0000 + d.vender
    requires d.subVender < 0x1_0000 && subsystem == d.subDevid * 0x1_0000 + d.subVender
    requires d.subClass < 0x100 && d.pgIf < 0x100 && cls / 0x100 == d.baseClass * 0x1_0000 + d.subClass * 0x100 + d.pgIf
    requires d.headerType < 0x80 && header / 0x1_0000 % 0x100 == d.headerType + if d.multi then 0x80 else 0
    ensures d == Describe(d.bus, d.devfn, d.func, data, cls, header, subsystem)
  {
    Bytes(cls);
    HeaderByte(header);
    ThreeBytes(cls / 0x100, d.baseClass, d.subClass, d.pgIf);
    ThreeBytes(cls / 0x100, cls / 0x100_0000, cls / 0x1_0000 % 0x100, cls / 0x100 % 0x100);
  }

  lemma ThreeBytes(w: nat, a: nat, b: nat, c: nat)
    requires b < 0x100 && c < 0x100 && w == a * 0x1_0000 + b * 0x100 + c
    ensures a == w / 0x1_0000 && b == w / 0x100 % 0x100 && c == w % 0x100
  {
    assert w / 0x100 == a * 0x100 + b;
  }

  lemma Bytes(w: word)
    ensures 0 <= w - (w / 0x100_0000 * 0x100_0000 + w / 0x1_0000 % 0x100 * 0x1_0000 + w / 0x100 % 0x100 * 0x100) < 0x100
    ensures w / 0x100_0000 < 0x100
  {
    assert w / 0x1_0000 == w / 0x100_0000 * 0x100 + w / 0x1_0000 % 0x100;
    assert w / 0x100 == w / 0x1_0000 * 0x100 + w / 0x100 % 0x100;
  }

  lemma HeaderByte(header: word)
    ensures header / 0x1_0000 % 0x100 == header / 0x1_0000 % 0x80 + if IsMultiFunction(header) then 0x80 else 0
  {
    var h := header / 0x1_0000;
    assert header / 0x80_0000 == h / 0x80;
    assert h == h / 0x100 * 0x100 + h % 0x100;
    assert h / 0x80 == h / 0x100 * 2 + h % 0x100 / 0x80;
  }

  /** Every field of an address is in its place: bits 31, 23-16, 15-11, 10-8 and 7-0. */
  lemma AddressFields(enable: bool, bus: nat, dev: nat, func: nat, reg: nat)
    requires bus < 256 && dev < 32 && func < 8 && reg < 256
    ensures var a := Address(enable, bus, dev, func, reg);
      && (a / 0x8000_0000 == 1 <==> enable) && a / 0x100_0000 % 0x80 == 0 && a / 0x1_0000 % 0x100 == bus
      && a / 0x800 % 0x20 == dev && a / 0x100 % 8 == func && a % 0x100 == reg
  {
    var a, e := Address(enable, bus, dev, func, reg), if enable then 1 else 0;
    assert a / 0x100 == e * 0x80_0000 + bus * 0x100 + dev * 8 + func;
    assert a / 0x800 == e * 0x10_0000 + bus * 0x20 + dev;
    assert a / 0x1_0000 == e * 0x8000 + bus;
    assert a / 0x100_0000 == e * 0x80;
  }

  // ---- what there is to find ----

  predicate InRange(cfg: ConfigSpace, bus: nat, dev: nat, func: nat) {
    bus < cfg.buses && dev < cfg.devices && func < cfg.functions
  }

  function Register(cfg: ConfigSpace, bus: nat, dev: nat, func: nat, reg: nat): word
    requires InRange(cfg, bus, dev, func) && reg < 256
  {
    cfg.data(Address(true, bus, dev, func, reg))
  }

  predicate Present(cfg: ConfigSpace, bus: nat, dev: nat, func: nat)
    requires InRange(cfg, bus, dev, func)
  {
    Register(cfg, bus, dev, func, 0) != NO_DEVICE
  }

  function DeviceAt(cfg: ConfigSpace, bus: nat, dev: nat, func: nat): Device
    requires InRange(cfg, bus, dev, func)
  {
    Describe(bus, dev, func, Register(cfg, bus, dev, func, 0), Register(cfg, bus, dev, func, 8),
             Register(cfg, bus, dev, func, 0xc), Register(cfg, bus, dev, func, 0x2c))
  }

  /** A present function 0 without the multi-function bit. */
  predicate SingleFunction(cfg: ConfigSpace, bus: nat, dev: nat)
    requires InRange(cfg, bus, dev, 0)
  {
    Present(cfg, bus, dev, 0) && !IsMultiFunction(Register(cfg, bus, dev, 0, 0xc))
  }

  /** The functions that enumeration has to report. */
  predicate Reported(cfg: ConfigSpace, bus: nat, dev: nat, func: nat) {
    InRange(cfg, bus, dev, func) && Present(cfg, bus, dev, func) && (func > 0 ==> !SingleFunction(cfg, bus, dev))
  }

  // ---- the order in which the loops find it ----

  function FunctionsFrom(cfg: ConfigSpace, bus: nat, dev: nat, func: nat): seq<Device>
    requires InRange(cfg, bus, dev, 0)
    decreases cfg.functions - func
  {
    if func >= cfg.functions then []
    else if !Present(cfg, bus, dev, func) then FunctionsFrom(cfg, bus, dev, func + 1)
    else if func == 0 && SingleFunction(cfg, bus, dev) then [DeviceAt(cfg, bus, dev, 0)]
    else [DeviceAt(cfg, bus, dev, func)] + FunctionsFrom(cfg, bus, dev, func + 1)
  }

  /** The function at one place, if there is one. */
  function Here(cfg: ConfigSpace, bus: nat, dev: nat, func: nat): seq<Device>
    requires InRange(cfg, bus, dev, func)
  {
    if Present(cfg, bus, dev, func) then [DeviceAt(cfg, bus, dev, func)] else []
  }

  lemma NextFunction(cfg: ConfigSpace, bus: nat, dev: nat, func: nat, found: seq<Device>)
    requires InRange(cfg, bus, dev, func)
    ensures var all, here := FunctionsFrom(cfg, bus, dev, func), Here(cfg, bus, dev, func);
      var rest := if func == 0 && SingleFunction(cfg, bus, dev) then [] else FunctionsFrom(cfg, bus, dev, func + 1);
      && all == here + rest && |all| == |here| + |rest| && found + all == found + here + rest
  {
  }

  function DevicesFrom(cfg: ConfigSpace, bus: nat, dev: nat): seq<Device>
    requires bus < cfg.buses
    decreases cfg.devices - dev
  {
    if dev >= cfg.devices then []
    else FunctionsFrom(cfg, bus, dev, 0) + DevicesFrom(cfg, bus, dev + 1)
  }

  function BusesFrom(cfg: ConfigSpace, bus: nat): seq<Device>
    decreases cfg.buses - bus
  {
    if bus >= cfg.buses then []
    else DevicesFrom(cfg, bus, 0) + BusesFrom(cfg, bus + 1)
  }

  lemma NextBus(cfg: ConfigSpace, bus: nat, found: seq<Device>)
    requires bus < cfg.buses
    ensures found + BusesFrom(cfg, bus) == found + DevicesFrom(cfg, bus, 0) + BusesFrom(cfg, bus + 1)
    ensures |BusesFrom(cfg, bus)| == |DevicesFrom(cfg, bus, 0)| + |BusesFrom(cfg, bus + 1)|
  {
  }

  lemma NextDevice(cfg: ConfigSpace, bus: nat, dev: nat, found: seq<Device>)
    requires InRange(cfg, bus, dev, 0)
    ensures var here, rest := FunctionsFrom(cfg, bus, dev, 0), DevicesFrom(cfg, bus, dev + 1);
      var all := DevicesFrom(cfg, bus, dev);
      |all| == |here| + |rest| && found + all == found + here + rest
  {
  }

  /** x is what configuration space says about a function to be reported. */
  ghost predicate Genuine(cfg: ConfigSpace, x: Device) {
    Reported(cfg, x.bus, x.devfn, x.func) && x == DeviceAt(cfg, x.bus, x.devfn, x.func)
  }

  lemma {:induction false} FunctionsPlace(cfg: ConfigSpace, bus: nat, dev: nat, func: nat, x: Device)
    requires InRange(cfg, bus, dev, 0) && x in FunctionsFrom(cfg, bus, dev, func)
    ensures x.bus == bus && x.devfn == dev && func <= x.func < cfg.functions
    decreases cfg.functions - func
  {
    if x != DeviceAt(cfg, bus, dev, func) {
      FunctionsPlace(cfg, bus, dev, func + 1, x);
    }
  }

  lemma {:induction false} DevicesPlace(cfg: ConfigSpace, bus: nat, dev: nat, x: Device)
    requires bus < cfg.buses
    ensures x in DevicesFrom(cfg, bus, dev) <==>
      x.bus == bus && dev <= x.devfn < cfg.devices && x in FunctionsFrom(cfg, bus, x.devfn, 0)
    decreases cfg.devices - dev
  {
    if dev < cfg.devices {
      DevicesPlace(cfg, bus, dev + 1, x);
      if x in FunctionsFrom(cfg, bus, dev, 0) {
        FunctionsPlace(cfg, bus, dev, 0, x);
      }
    }
  }

  lemma {:induction false} BusesPlace(cfg: ConfigSpace, bus: nat, x: Device)
    ensures x in BusesFrom(cfg, bus) <==>
      bus <= x.bus < cfg.buses && x.devfn < cfg.devices && x in FunctionsFrom(cfg, x.bus, x.devfn, 0)
    decreases cfg.buses - bus
  {
    if bus < cfg.buses {
      DevicesPlace(cfg, bus, 0, x);
      BusesPlace(cfg, bus + 1, x);
      if x.bus < cfg.buses && x.devfn < cfg.devices && x in FunctionsFrom(cfg, x.bus, x.devfn, 0) {
        FunctionsPlace(cfg, x.bus, x.devfn, 0, x);
      }
    }
  }

  lemma {:induction false} FunctionsExact(cfg: ConfigSpace, bus: nat, dev: nat, func: nat, x: Device)
    requires InRange(cfg, bus, dev, 0) && (func > 0 ==> !SingleFunction(cfg, bus, dev))
    requires x.bus == bus && x.devfn == dev
    ensures x in FunctionsFrom(cfg, bus, dev, func) <==> Genuine(cfg, x) && x.func >= func
    decreases cfg.functions - func
  {
    if func < cfg.functions {
      if func > 0 || !SingleFunction(cfg, bus, dev) {
        FunctionsExact(cfg, bus, dev, func + 1, x);
      }
    }
  }

  /** Enumeration finds exactly the functions to be reported. */
  lemma EnumerationExact(cfg: ConfigSpace, x: Device)
    ensures x in BusesFrom(cfg, 0) <==> Genuine(cfg, x)
  {
    BusesPlace(cfg, 0, x);
    if InRange(cfg, x.bus, x.devfn, 0) {
      FunctionsExact(cfg, x.bus, x.devfn, 0, x);
    }
  }

  /**
   The same for the kernel's ranges, read off configuration space: the identification, class, header and
   subsystem registers of a function are those at offsets 0, 8, 12 and 0x2c.
   */
  lemma FoundExactly(cfg: ConfigSpace, x: Device)
    requires cfg.buses == 255 && cfg.devices == 31 && cfg.functions == 7
    ensures x in BusesFrom(cfg, 0) <==>
      && x.bus < 255 && x.devfn < 31 && x.func < 7
      && var first: word := 0x8000_0000 + x.bus * 0x1_0000 + x.devfn * 0x800;
        var a: word := first + x.func * 0x100;
      && cfg.data(a) != 0xffff_ffff
      && (x.func > 0 ==> cfg.data(first) == 0xffff_ffff || cfg.data(first + 12) / 0x80_0000 % 2 == 1)
      && x.vender < 0x1_0000 && cfg.data(a) == x.devid * 0x1_0000 + x.vender
      && x.subClass < 0x100 && x.pgIf < 0x100
      && cfg.data(a + 8) / 0x100 == x.baseClass * 0x1_0000 + x.subClass * 0x100 + x.pgIf
      && x.headerType < 0x80
      && cfg.data(a + 12) / 0x1_0000 % 0x100 == x.headerType + (if x.multi then 0x80 else 0)
      && x.subVender < 0x1_0000 && cfg.data(a + 0x2c) == x.subDevid * 0x1_0000 + x.subVender
  {
    EnumerationExact(cfg, x);
    if x.bus < 255 && x.devfn < 31 && x.func < 7 {
      var a: word := 0x8000_0000 + x.bus * 0x1_0000 + x.devfn * 0x800 + x.func * 0x100;
      RecordExactly(x, cfg.data(a), cfg.data(a + 8), cfg.data(a + 12), cfg.data(a + 0x2c));
    }
  }

  lemma RecordExactly(x: Device, data: word, cls: word, header: word, subsystem: word)
    ensures x == Describe(x.bus, x.devfn, x.func, data, cls, header, subsystem) <==>
      && x.vender < 0x1_0000 && data == x.devid * 0x1_0000 + x.vender
      && x.subClass < 0x100 && x.pgIf < 0x100
      && cls / 0x100 == x.baseClass * 0x1_0000 + x.subClass * 0x100 + x.pgIf
      && x.headerType < 0x80 && header / 0x1_0000 % 0x100 == x.headerType + (if x.multi then 0x80 else 0)
      && x.subVender < 0x1_0000 && subsystem == x.subDevid * 0x1_0000 + x.subVender
  {
    RegistersFromRecord(x.bus, x.devfn, x.func, data, cls, header, subsystem);
    ClassBytes(cls);
    if && x.vender < 0x1_0000 && data == x.devid * 0x1_0000 + x.vender
       && x.subClass < 0x100 && x.pgIf < 0x100
       && cls / 0x100 == x.baseClass * 0x1_0000 + x.subClass * 0x100 + x.pgIf
       && x.headerType < 0x80 && header / 0x1_0000 % 0x100 == x.headerType + (if x.multi then 0x80 else 0)
       && x.subVender < 0x1_0000 && subsystem == x.subDevid * 0x1_0000 + x.subVender {
      RecordFromRegisters(x, data, cls, header, subsystem);
    }
  }

  lemma ClassBytes(w: word)
    ensures w / 0x100 == w / 0x100_0000 * 0x1_0000 + w / 0x1_0000 % 0x100 * 0x100 + w / 0x100 % 0x100
  {
    assert w / 0x1_0000 == w / 0x100_0000 * 0x100 + w / 0x1_0000 % 0x100;
    assert w / 0x100 == w / 0x1_0000 * 0x100 + w / 0x100 % 0x100;
  }

  /** The list is sorted by place, so nothing is found twice. */
  function Place(x: Device): nat {
    x.bus * 0x1_0000 + x.devfn * 0x100 + x.func
  }

  ghost predicate Sorted(s: seq<Device>) {
    forall i, j :: 0 <= i < j < |s| ==> Place(s[i]) < Place(s[j])
  }

  lemma SortedConcat(a: seq<Device>, b: seq<Device>, mid: nat)
    requires Sorted(a) && Sorted(b)
    requires forall x :: x in a ==> Place(x) < mid
    requires forall x :: x in b ==> mid <= Place(x)
    ensures Sorted(a + b)
  {
    forall i, j | 0 <= i < j < |a + b| ensures Place((a + b)[i]) < Place((a + b)[j]) {
      assert i < |a| ==> a[i] in a;
      assert j >= |a| ==> b[j - |a|] in b;
    }
  }

  lemma {:induction false} FunctionsSorted(cfg: ConfigSpace, bus: nat, dev: nat, func: nat)
    requires InRange(cfg, bus, dev, 0)
    ensures Sorted(FunctionsFrom(cfg, bus, dev, func))
    decreases cfg.functions - func
  {
    if func < cfg.functions {
      var rest := FunctionsFrom(cfg, bus, dev, func + 1);
      FunctionsSorted(cfg, bus, dev, func + 1);
      forall x | x in rest ensures bus * 0x1_0000 + dev * 0x100 + func + 1 <= Place(x) {
        FunctionsPlace(cfg, bus, dev, func + 1, x);
      }
      SortedConcat([DeviceAt(cfg, bus, dev, func)], rest, bus * 0x1_0000 + dev * 0x100 + func + 1);
    }
  }

  lemma {:induction false} DevicesSorted(cfg: ConfigSpace, bus: nat, dev: nat)
    requires bus < cfg.buses
    ensures Sorted(DevicesFrom(cfg, bus, dev))
    decreases cfg.devices - dev
  {
    if dev < cfg.devices {
      var mid := bus * 0x1_0000 + (dev + 1) * 0x100;
      FunctionsSorted(cfg, bus, dev, 0);
      DevicesSorted(cfg, bus, dev + 1);
      forall x | x in FunctionsFrom(cfg, bus, dev, 0) ensures Place(x) < mid {
        FunctionsPlace(cfg, bus, dev, 0, x);
      }
      forall x | x in DevicesFrom(cfg, bus, dev + 1) ensures mid <= Place(x) {
        DevicesPlace(cfg, bus, dev + 1, x);
      }
      SortedConcat(FunctionsFrom(cfg, bus, dev, 0), DevicesFrom(cfg, bus, dev + 1), mid);
    }
  }

  /** Enumeration reports each function once, in the order of their places. */
  lemma {:induction false} BusesSorted(cfg: ConfigSpace, bus: nat)
    ensures Sorted(BusesFrom(cfg, bus))
    decreases cfg.buses - bus
  {
    if bus < cfg.buses {
      var mid := (bus + 1) * 0x1_0000;
      DevicesSorted(cfg, bus, 0);
      BusesSorted(cfg, bus + 1);
      forall x | x in DevicesFrom(cfg, bus, 0) ensures Place(x) < mid {
        DevicesPlace(cfg, bus, 0, x);
        FunctionsPlace(cfg, bus, x.devfn, 0, x);
      }
      forall x | x in BusesFrom(cfg, bus + 1) ensures mid <= Place(x) {
        BusesPlace(cfg, bus + 1, x);
      }
      SortedConcat(DevicesFrom(cfg, bus, 0), BusesFrom(cfg, bus + 1), mid);
    }
  }

  /** The list is in the order of bus, device and function, and each function is in it once. */
  lemma FoundInOrder(cfg: ConfigSpace, i: nat, j: nat)
    requires i < j < |BusesFrom(cfg, 0)|
    ensures var a, b := BusesFrom(cfg, 0)[i], BusesFrom(cfg, 0)[j];
      a.bus < b.bus || (a.bus == b.bus && (a.devfn < b.devfn || (a.devfn == b.devfn && a.func < b.func)))
  {
    var a, b := BusesFrom(cfg, 0)[i], BusesFrom(cfg, 0)[j];
    BusesSorted(cfg, 0);
    assert a in BusesFrom(cfg, 0) && b in BusesFrom(cfg, 0);
    EnumerationExact(cfg, a);
    EnumerationExact(cfg, b);
  }

  // ---- the driver ----

  class Node {
    var data: Device
    var next: Node

    constructor (data: Device, next: Node)
      ensures this.data == data && this.next == next
    {
      this.data, this.next := data, next;
    }

    /** A sentinel, alone in its list. */
    constructor Sentinel(data: Device)
      ensures next == this
    {
      this.data := data;
      next := this;
    }
  }

  class Bus {
    const cfg: ConfigSpace
    const head: Node
    /** The CONFIG_ADDRESS port. */
    var configAddress: word
    /** How many list nodes kmalloc still has room for. */
    var room: nat
    ghost var nodes: seq<Node>

    /** The list is a ring of nodes, in reverse order of discovery, closed by the sentinel. */
    ghost predicate Valid()
      reads this, head, nodes
    {
      && head !in nodes && Distinct(nodes)
      && head.next == NodeAt(|nodes|)
      && forall k :: 0 <= k < |nodes| ==> Linked(k)
    }

    /** The node found k-th, counted from one; before the first there is the sentinel. */
    ghost function NodeAt(k: nat): Node
      requires k <= |nodes|
      reads this
    {
      if k == 0 then head else nodes[k - 1]
    }

    ghost predicate Linked(k: nat)
      requires k < |nodes|
      reads this, nodes
    {
      nodes[k].next == NodeAt(k)
    }

    /** The records in the list, in the order of discovery. */
    ghost function Found(): (r: seq<Device>)
      reads this, nodes
      ensures |r| == |nodes|
    {
      seq(|nodes|, k requires 0 <= k < |nodes| reads this, nodes => nodes[k].data)
    }

    constructor (data: word -> word, room: nat)
      ensures Valid() && Found() == [] && cfg == Config(data, 255, 31, 7) && this.room == room && fresh(head)
    {
      cfg, this.room, configAddress := KernelRanges(data), room, 0;
      head := new Node.Sentinel(Device(0, 0, 0, 0, 0, 0, 0, 0, 0, false, 0, 0));
      nodes := [];
    }

    /** read_pci_data: open the address, read the data port, close the address. */
    method ReadPciData(bus: nat, dev: nat, func: nat, reg: nat) returns (data: word)
      requires Valid() && InRange(cfg, bus, dev, func) && reg < 256
      modifies this`configAddress
      ensures Valid() && Found() == old(Found()) && data == Register(cfg, bus, dev, func, reg)
      ensures data == cfg.data(0x8000_0000 + bus * 0x1_0000 + dev * 0x800 + func * 0x100 + reg)
      ensures configAddress == bus * 0x1_0000 + dev * 0x800 + func * 0x100 + reg
    {
      configAddress := Address(true, bus, dev, func, reg);
      data := cfg.data(configAddress);
      configAddress := Address(false, bus, dev, func, reg);
      forall k | 0 <= k < |nodes| ensures Linked(k) {
        assert old(Linked(k));
      }
    }

    /** store_pci_device_to_list; false when kmalloc fails. */
    method Store(d: Device) returns (stored: bool)
      requires Valid()
      modifies this`room, this`nodes, head`next
      ensures Valid() && stored == (old(room) > 0)
      ensures Found() == if stored then old(Found()) + [d] else old(Found())
      ensures room == if stored then old(room) - 1 else 0
    {
      if room == 0 {
        return false;
      }
      room := room - 1;
      var p := new Node(d, head.next);
      head.next := p;
      ghost var before := nodes;
      nodes := nodes + [p];
      forall k | 0 <= k < |nodes| ensures Linked(k) {
        if k < |before| {
          assert old(Linked(k));
        }
      }
      return true;
    }

    /** One round of find_pci_data's loop: `last` if the device has no other functions. */
    method Probe(bus: nat, dev: nat, func: nat) returns (ok: bool, last: bool)
      requires Valid() && InRange(cfg, bus, dev, func)
      modifies this`room, this`nodes, this`configAddress, head`next
      ensures Valid()
      ensures var here := Here(cfg, bus, dev, func);
        && ok == (|here| <= old(room))
        && (ok ==> Found() == old(Found()) + here && room == old(room) - |here|)
      ensures ok ==> (last <==> func == 0 && SingleFunction(cfg, bus, dev))
    {
      ok, last := true, false;
      var data := ReadPciData(bus, dev, func, 0);
      if data != NO_DEVICE {
        var cls := ReadPciData(bus, dev, func, 8);
        var header := ReadPciData(bus, dev, func, 0xc);
        var subsystem := ReadPciData(bus, dev, func, 0x2c);
        var status := ReadPciData(bus, dev, func, 4);
        ok := Store(Describe(bus, dev, func, data, cls, header, subsystem));
        last := func == 0 && !IsMultiFunction(header);
      }
    }

    /** find_pci_data: scan the functions of one device; false is KERN_ABORT. */
    method FindPciData(bus: nat, dev: nat) returns (ok: bool)
      requires Valid() && InRange(cfg, bus, dev, 0)
      modifies this`room, this`nodes, this`configAddress, head`next
      ensures Valid()
      ensures var all := FunctionsFrom(cfg, bus, dev, 0);
        if ok then Found() == old(Found()) + all && room == old(room) - |all| else |all| > old(room)
    {
      var i := 0;
      ghost var all := FunctionsFrom(cfg, bus, dev, i);
      while i < cfg.functions
        invariant Valid() && i <= cfg.functions && (i > 0 ==> !SingleFunction(cfg, bus, dev))
        invariant old(Found()) + all == Found() + FunctionsFrom(cfg, bus, dev, i)
        invariant old(room) - |all| == room - |FunctionsFrom(cfg, bus, dev, i)|
        decreases cfg.functions - i
      {
        NextFunction(cfg, bus, dev, i, Found());
        var last;
        ok, last := Probe(bus, dev, i);
        if !ok {
          return;
        }
        if last {
          return true;
        }
        i := i + 1;
      }
      return true;
    }

    /** find_pci_device: scan all buses. */
    method FindPciDevice() returns (ok: bool)
      requires Valid() && Found() == []
      modifies this`room, this`nodes, this`configAddress, head`next
      ensures Valid()
      ensures ok == (|BusesFrom(cfg, 0)| <= old(room))
      ensures ok ==> Found() == BusesFrom(cfg, 0)
    {
      var bus := 0;
      ghost var all := BusesFrom(cfg, bus);
      while bus < cfg.buses
        invariant Valid() && bus <= cfg.buses
        invariant all == Found() + BusesFrom(cfg, bus)
        invariant old(room) - |all| == room - |BusesFrom(cfg, bus)|
      {
        NextBus(cfg, bus, Found());
        ok := ScanBus(bus);
        if !ok {
          return;
        }
        bus := bus + 1;
      }
      return true;
    }

    /** The inner loop of find_pci_device. */
    method ScanBus(bus: nat) returns (ok: bool)
      requires Valid() && bus < cfg.buses
      modifies this`room, this`nodes, this`configAddress, head`next
      ensures Valid()
      ensures var all := DevicesFrom(cfg, bus, 0);
        if ok then Found() == old(Found()) + all && room == old(room) - |all| else |all| > old(room)
    {
      var dev := 0;
      ghost var all := DevicesFrom(cfg, bus, dev);
      while dev < cfg.devices
        invariant Valid() && dev <= cfg.devices
        invariant old(Found()) + all == Found() + DevicesFrom(cfg, bus, dev)
        invariant old(room) - |all| == room - |DevicesFrom(cfg, bus, dev)|
      {
        NextDevice(cfg, bus, dev, Found());
        ok := FindPciData(bus, dev);
        if !ok {
          return;
        }
        dev := dev + 1;
      }
      return true;
    }

    /** get_pci_device: the walk from the sentinel meets the last device discovered first. */
    method GetPciDevice(vender: nat, device: nat, function_: nat) returns (r: Option<Device>)
      requires Valid()
      ensures r.Some? ==> r.value.vender == vender && r.value.devid == device && r.value.func == function_
      ensures r.Some? ==> exists k :: 0 <= k < |Found()| && Found()[k] == r.value && NoneAfter(k + 1, vender, device, function_)
      ensures r.None? ==> NoneAfter(0, vender, device, function_)
    {
      var p := head.next;
      ghost var k: nat := |nodes|;
      while p != head
        invariant k <= |nodes| && p == NodeAt(k)
        invariant NoneAfter(k, vender, device, function_)
        decreases k
      {
        k := k - 1;
        assert Linked(k);
        assert Found()[k] == p.data;
        if p.data.vender == vender && p.data.devid == device && p.data.func == function_ {
          return Some(p.data);
        }
        p := p.next;
      }
      return None;
    }

    /** No device found from place k on has these numbers. */
    ghost predicate NoneAfter(k: nat, vender: nat, device: nat, function_: nat)
      reads this, nodes
    {
      forall j :: k <= j < |Found()| ==>
        Found()[j].vender != vender || Found()[j].devid != device || Found()[j].func != function_
    }
  }
}
