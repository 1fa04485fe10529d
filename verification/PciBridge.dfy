/** Configuration writes as the guest makes them, through the address and data ports of the host bridge. */
module PciBridge {
  import opened PciBar
  import opened Wrappers

  /** What the guest does to the ports. */
  datatype PortWrite = WriteAddr(data: Word32) | WriteData(offset: nat, data: Word32, sizeLog2: nat)

  predicate IsPortWrite(e: PortWrite) {
    e.WriteData? ==> e.offset < 4 && e.sizeLog2 <= 2
  }

  /** Where a write to the data port goes: 32-bit accesses are taken as aligned. */
  function BusAddress(configReg: Word32, offset: nat, sizeLog2: nat): nat {
    if sizeLog2 == 2 then configReg / 4 * 4 else Or(configReg, offset)
  }

  /** The write a device gets, if it is meant. */
  function Routed(configReg: Word32, e: PortWrite, busNum: nat, devfn: nat): seq<Write>
    requires IsPortWrite(e)
  {
    if e.WriteAddr? || configReg < 0x8000_0000 then []
    else
      var addr := BusAddress(configReg, e.offset, e.sizeLog2);
      if addr / 0x1_0000 % 0x100 == busNum && addr / 0x100 % 0x100 == devfn
      then [Write(addr % 0x100, e.data, e.sizeLog2)] else []
  }

  function RegAfter(configReg: Word32, events: seq<PortWrite>): Word32 {
    if events == [] then configReg
    else if events[|events| - 1].WriteAddr? then events[|events| - 1].data
    else RegAfter(configReg, events[..|events| - 1])
  }

  /** The writes a device gets in a run. */
  function Received(configReg: Word32, events: seq<PortWrite>, busNum: nat, devfn: nat): (ws: seq<Write>)
    requires forall e | e in events :: IsPortWrite(e)
  {
    if events == [] then []
    else
      var n := |events| - 1;
      Received(configReg, events[..n], busNum, devfn)
      + Routed(RegAfter(configReg, events[..n]), events[n], busNum, devfn)
  }

  /** No device ever gets a 32-bit write that is not aligned. */
  lemma RoutedAligned(configReg: Word32, e: PortWrite, busNum: nat, devfn: nat)
    requires IsPortWrite(e)
    ensures |Routed(configReg, e, busNum, devfn)| <= 1
    ensures forall w | w in Routed(configReg, e, busNum, devfn) ::
              IsWrite(w) && (w.sizeLog2 == 2 ==> w.addr % 4 == 0)
  {
    hide Or;
    if e.WriteData? {
      var a := configReg / 4;
      assert a * 4 % 0x100 % 4 == 0;
    }
  }

  /** The address register: an enable bit, the number of the bus, that of the device and function, and a register, a
      multiple of four. */
  function ConfigAddress(bus: nat, devfn: nat, reg: nat): nat {
    0x8000_0000 + bus * 0x1_0000 + devfn * 0x100 + reg
  }

  /** A write to the data port reaches the device the address register names, and no other, at that register; smaller
      writes at the byte of it that the port says. */
  lemma Addressed(bus: nat, devfn: nat, reg: nat, e: PortWrite, busNum: nat, other: nat)
    requires bus < 0x100 && devfn < 0x100 && reg < 0x100 && reg % 4 == 0 && IsPortWrite(e) && e.WriteData?
    ensures Routed(ConfigAddress(bus, devfn, reg), e, busNum, other)
            == if busNum == bus && other == devfn
               then [Write(if e.sizeLog2 == 2 then reg else reg + e.offset, e.data, e.sizeLog2)] else []
  {
    hide Or;
    var a := ConfigAddress(bus, devfn, reg);
    var addr := a + if e.sizeLog2 == 2 then 0 else e.offset;
    ByteOffset(a, e.offset);
    assert BusAddress(a, e.offset, e.sizeLog2) == addr;
    hide BusAddress;
    AddressParts(bus, devfn, addr - 0x8000_0000 - bus * 0x1_0000 - devfn * 0x100);
  }

  lemma ByteOffset(a: nat, offset: nat)
    requires a % 4 == 0 && offset < 4
    ensures Or(a, offset) == a + offset && a / 4 * 4 == a
  {
    assert a / 4 * 4 == a;
    hide Or;
    OrBelow(a / 4, offset, 2);
    assert Power2(0) == 1 && Power2(1) == 2 && Power2(2) == 4;
  }

  lemma AddressParts(bus: nat, devfn: nat, low: nat)
    requires bus < 0x100 && devfn < 0x100 && low < 0x100
    ensures var addr := 0x8000_0000 + bus * 0x1_0000 + devfn * 0x100 + low;
            addr / 0x1_0000 % 0x100 == bus && addr / 0x100 % 0x100 == devfn && addr % 0x100 == low
  {
  }

  lemma OneMoreWrite(configReg: Word32, events: seq<PortWrite>, k: nat, busNum: nat, devfn: nat)
    requires k < |events| && forall e | e in events :: IsPortWrite(e)
    ensures Received(configReg, events[..k + 1], busNum, devfn)
            == Received(configReg, events[..k], busNum, devfn)
               + Routed(RegAfter(configReg, events[..k]), events[k], busNum, devfn)
    ensures RegAfter(configReg, events[..k + 1])
            == if events[k].WriteAddr? then events[k].data else RegAfter(configReg, events[..k])
  {
    assert events[..k + 1][..k] == events[..k];
  }

  /** The bridge, with one of the devices behind it. */
  class I440FX {
    var configReg: Word32
    const busNum: nat
    const devfn: nat
    const device: PCIDevice

    constructor (busNum: nat, devfn: nat, device: PCIDevice)
      ensures this.busNum == busNum && this.devfn == devfn && this.device == device && configReg == 0
    {
      this.busNum, this.devfn, this.device, configReg := busNum, devfn, device, 0;
    }

    method WriteAddrPort(data: Word32)
      modifies this`configReg
      ensures configReg == data
    {
      configReg := data;
    }

    method WriteDataPort(offset: nat, data: Word32, sizeLog2: nat)
      requires offset < 4 && sizeLog2 <= 2
      requires device.Valid()
      modifies device`enabled, device`mapped, device.config
      ensures device.config[..] == Configured(device.regions, old(device.config[..]),
                                     Routed(configReg, WriteData(offset, data, sizeLog2), busNum, devfn))
      ensures device.Valid()
    {
      hide Or, ConfigAfter, RegistersOk, DeviceOk, InStep;
      RoutedAligned(configReg, WriteData(offset, data, sizeLog2), busNum, devfn);
      if configReg < 0x8000_0000 {
        return;
      }
      var addr := BusAddress(configReg, offset, sizeLog2);
      if addr / 0x1_0000 % 0x100 != busNum || addr / 0x100 % 0x100 != devfn {
        return;
      }
      device.PciConfigWrite(Write(addr % 0x100, data, sizeLog2));
    }

    /** Whatever the guest writes to the ports, every mapping is what the registers define, and every register holds the
        bits of its region's type. */
    method Run(events: seq<PortWrite>)
      requires forall e | e in events :: IsPortWrite(e)
      requires device.Valid()
      modifies this`configReg, device`enabled, device`mapped, device.config
      ensures configReg == RegAfter(old(configReg), events)
      ensures (forall w | w in Received(old(configReg), events, busNum, devfn) :: IsWrite(w))
              && device.config[..] == AfterWrites(device.regions, old(device.config[..]),
                                                  Received(old(configReg), events, busNum, devfn))
      ensures device.Valid()
    {
      hide Routed, ConfigAfter, PCIDevice.Valid, Received, RegAfter;
      ghost var c := device.config[..];
      device.ConfigSize();
      NothingReceived(configReg, events, busNum, devfn);
      for k := 0 to |events|
        invariant configReg == RegAfter(old(configReg), events[..k])
        invariant forall w | w in Received(old(configReg), events[..k], busNum, devfn) :: IsWrite(w)
        invariant device.config[..]
                  == AfterWrites(device.regions, c, Received(old(configReg), events[..k], busNum, devfn))
        invariant device.Valid()
      {
        OneMoreWrite(old(configReg), events, k, busNum, devfn);
        RoutedAligned(configReg, events[k], busNum, devfn);
        Appended(device.regions, c, Received(old(configReg), events[..k], busNum, devfn),
                 Routed(configReg, events[k], busNum, devfn));
        match events[k] {
          case WriteAddr(data) =>
            NotRouted(configReg, events[k], busNum, devfn);
            WriteAddrPort(data);
          case WriteData(offset, data, sizeLog2) =>
            WriteDataPort(offset, data, sizeLog2);
        }
      }
      assert events[..|events|] == events;
    }
  }

  /** The configuration space after a write, or none. */
  function Configured(regions: seq<Region>, c: seq<Byte>, ws: seq<Write>): (r: seq<Byte>)
    requires |c| == 256 && forall w | w in ws :: IsWrite(w)
    ensures |r| == 256
  {
    if ws == [] then c else ConfigAfter(regions, c, ws[0])
  }

  lemma Appended(regions: seq<Region>, c: seq<Byte>, ws: seq<Write>, more: seq<Write>)
    requires |c| == 256 && (forall w | w in ws :: IsWrite(w)) && (forall w | w in more :: IsWrite(w)) && |more| <= 1
    ensures (forall w | w in ws + more :: IsWrite(w))
            && AfterWrites(regions, c, ws + more) == Configured(regions, AfterWrites(regions, c, ws), more)
  {
    hide ConfigAfter;
    if more == [] {
      assert ws + more == ws;
    } else {
      assert (ws + more)[..|ws|] == ws;
    }
  }

  lemma NotRouted(configReg: Word32, e: PortWrite, busNum: nat, devfn: nat)
    requires e.WriteAddr?
    ensures Routed(configReg, e, busNum, devfn) == []
  {
  }

  lemma NothingReceived(configReg: Word32, events: seq<PortWrite>, busNum: nat, devfn: nat)
    requires forall e | e in events :: IsPortWrite(e)
    ensures Received(configReg, events[..0], busNum, devfn) == [] && RegAfter(configReg, events[..0]) == configReg
  {
  }
}
