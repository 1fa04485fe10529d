/** PCI configuration space: base address registers and the mappings they define. */
module PciBar {
  import opened Wrappers

  type Byte = x: nat | x < 256

  const PCI_COMMAND := 0x04
  const PCI_STATUS := 0x06
  const PCI_ROM_SLOT := 6
  const PCI_NUM_REGIONS := 7

  // ---- Words and bits ---------------------------------------------------------------------------------------

  /** The 32-bit word stored at `off`, least significant byte first. */
  function Word(c: seq<Byte>, off: nat): nat
    requires off + 4 <= |c|
  {
    c[off] as int + 0x100 * c[off + 1] as int + 0x1_0000 * c[off + 2] as int + 0x100_0000 * c[off + 3] as int
  }

  function ByteOf(v: nat, i: nat): Byte
    requires i < 4
  {
    (if i == 0 then v else if i == 1 then v / 0x100 else if i == 2 then v / 0x1_0000 else v / 0x100_0000) % 256
  }

  function PutWord(c: seq<Byte>, off: nat, v: nat): (r: seq<Byte>)
    requires off + 4 <= |c|
    ensures |r| == |c|
  {
    c[off := ByteOf(v, 0)][off + 1 := ByteOf(v, 1)][off + 2 := ByteOf(v, 2)][off + 3 := ByteOf(v, 3)]
  }

  lemma GetPut(c: seq<Byte>, off: nat, v: nat)
    requires off + 4 <= |c| && v < 0x1_0000_0000
    ensures Word(PutWord(c, off, v), off) == v
  {
    Bytes4(v);
  }

  lemma Bytes4(v: nat)
    requires v < 0x1_0000_0000
    ensures ByteOf(v, 0) as int + 0x100 * ByteOf(v, 1) as int + 0x1_0000 * ByteOf(v, 2) as int
            + 0x100_0000 * ByteOf(v, 3) as int == v
  {
    assert v == v / 0x100 * 0x100 + v % 0x100;
    assert v / 0x100 == v / 0x1_0000 * 0x100 + v / 0x100 % 0x100;
    assert v / 0x1_0000 == v / 0x100_0000 * 0x100 + v / 0x1_0000 % 0x100;
  }

  /** A store changes no word it does not overlap. */
  lemma PutElsewhere(c: seq<Byte>, off: nat, v: nat, other: nat)
    requires off + 4 <= |c| && other + 4 <= |c| && (other + 4 <= off || off + 4 <= other)
    ensures Word(PutWord(c, off, v), other) == Word(c, other)
  {
  }

  function Or(a: nat, b: nat): nat
    decreases a + b
  {
    if a == 0 && b == 0 then 0 else 2 * Or(a / 2, b / 2) + (if a % 2 == 1 || b % 2 == 1 then 1 else 0)
  }

  function Power2(k: nat): (p: nat)
    ensures p > 0
  {
    if k == 0 then 1 else 2 * Power2(k - 1)
  }

  lemma {:induction false} Exponent(n: nat) returns (k: nat)
    requires PowerOfTwo(n)
    ensures n == Power2(k)
    decreases n
  {
    if n == 1 {
      k := 0;
    } else {
      k := Exponent(n / 2);
      k := k + 1;
    }
  }

  /** Bits put below an aligned number just add. */
  lemma {:induction false} OrBelow(v: nat, t: nat, k: nat)
    requires t < Power2(k)
    ensures Or(v * Power2(k), t) == v * Power2(k) + t
    decreases k
  {
    if k == 0 {
      OrZero(v);
      assert v * Power2(k) == v;
    } else {
      var p := Power2(k - 1);
      assert v * Power2(k) == 2 * (v * p);
      OrBelow(v, t / 2, k - 1);
      OrStep(v * p, t);
    }
  }

  lemma OrStep(a: nat, t: nat)
    requires Or(a, t / 2) == a + t / 2
    ensures Or(2 * a, t) == 2 * a + t
  {
    assert 2 * a / 2 == a && 2 * a % 2 == 0;
  }

  lemma {:induction false} OrZero(v: nat)
    ensures Or(v, 0) == v
    decreases v
  {
    if v > 0 {
      OrZero(v / 2);
    }
  }

  // ---- What the registers mean ------------------------------------------------------------------------------

  /** A region a device asked for; of size 0 if none. */
  datatype Region = Region(size: nat, typeBits: nat)

  predicate IoSpace(r: Region) {
    r.typeBits % 2 == 1
  }

  predicate RegionOk(r: Region) {
    r.size != 0 ==> PowerOfTwo(r.size) && 4 <= r.size < 0x1_0000_0000 && r.typeBits < 256
  }

  function BarOffset(i: nat): nat {
    if i == PCI_ROM_SLOT then 0x30 else 0x10 + 4 * i
  }

  /** Is the region mapped, by the command byte and its register? */
  function Enabled(r: Region, i: nat, cmd: nat, bar: nat): bool {
    r.size != 0 && ((IoSpace(r) && cmd % 2 == 1) || (cmd / 2 % 2 == 1 && (i != PCI_ROM_SLOT || bar % 2 == 1)))
  }

  function AddressOf(r: Region, bar: nat): nat
    requires r.size != 0
  {
    bar - bar % r.size
  }

  /** Where the region is mapped, if it is. */
  function Decoded(r: Region, i: nat, c: seq<Byte>): Option<nat>
    requires i < PCI_NUM_REGIONS && |c| == 256
  {
    if Enabled(r, i, c[PCI_COMMAND], Word(c, BarOffset(i))) then Some(AddressOf(r, Word(c, BarOffset(i)))) else None
  }

  /** What a register holds after a write: its address bits, and its type, or for the ROM the bit that enables it. */
  function BarValue(r: Region, i: nat, val: nat): nat
    requires r.size != 0
  {
    if i == PCI_ROM_SLOT then val - val % r.size + val % 2 else Or(val - val % r.size, r.typeBits)
  }

  /** Below the size of its region a register holds the bits of its type and no others, and it holds all of them: a
      small region may have a type that reaches above its size. The register of the ROM has just its enable bit. */
  predicate LowBits(r: Region, i: nat, bar: nat)
    requires r.size != 0
  {
    if i == PCI_ROM_SLOT then bar % r.size < 2 else bar % r.size == r.typeBits % r.size && Or(bar, r.typeBits) == bar
  }

  /** The command bits say what the PCI specification means, except for an I/O region enabled by the memory bit
      alone. */
  lemma EnabledAsSpecified(r: Region, i: nat, cmd: nat, bar: nat)
    requires r.size != 0
    ensures (Enabled(r, i, cmd, bar) <==>
               if r.typeBits % 2 == 1 then cmd % 2 == 1 else cmd / 2 % 2 == 1 && (i == PCI_ROM_SLOT ==> bar % 2 == 1))
            <==> !(r.typeBits % 2 == 1 && cmd % 2 == 0 && cmd / 2 % 2 == 1 && (i == PCI_ROM_SLOT ==> bar % 2 == 1))
  {
  }

  lemma PowerDivides(val: nat, k: nat)
    ensures val - val % Power2(k) == val / Power2(k) * Power2(k)
  {
  }

  lemma BarLowBits(r: Region, i: nat, val: nat)
    requires RegionOk(r) && r.size != 0
    ensures LowBits(r, i, BarValue(r, i, val))
  {
    hide Power2, Or;
    var k := Exponent(r.size);
    PowerDivides(val, k);
    var q := val / r.size;
    if i == PCI_ROM_SLOT {
      RomLowBits(q, r.size, val % 2);
    } else {
      TypedLowBits(q, r.typeBits, k);
      OrAbsorbs(val - val % r.size, r.typeBits);
    }
  }

  lemma {:induction false} OrAbsorbs(a: nat, t: nat)
    ensures Or(Or(a, t), t) == Or(a, t)
    decreases a + t
  {
    if a != 0 || t != 0 {
      OrAbsorbs(a / 2, t / 2);
    }
  }

  /** A register whose type lies below the size of its region holds the multiple of that size at or just below the
      address written, and besides it its type, or for the ROM the bit that enables it. */
  predicate Holds(r: Region, i: nat, val: nat, bar: nat)
    requires r.size != 0
  {
    var a := AddressOf(r, bar);
    && a % r.size == 0 && a <= val < a + r.size
    && bar == a + if i == PCI_ROM_SLOT then val % 2 else r.typeBits
  }

  lemma BarHolds(r: Region, i: nat, val: nat)
    requires RegionOk(r) && r.size != 0 && (i == PCI_ROM_SLOT || r.typeBits < r.size)
    ensures Holds(r, i, val, BarValue(r, i, val))
  {
    var x, low := val - val % r.size, if i == PCI_ROM_SLOT then val % 2 else r.typeBits;
    BarSum(r, i, val, x, low);
    hide BarValue, RegionOk;
    FloorMod(val, r.size, low);
  }

  lemma FloorMod(val: nat, size: nat, low: nat)
    requires size > 0 && low < size
    ensures var x := val - val % size; x % size == 0 && (x + low) % size == low && x <= val < x + size
  {
    var q := val / size;
    assert val - val % size == q * size;
    ModOf(q, size, low);
    ModOf(q, size, 0);
  }

  lemma BarSum(r: Region, i: nat, val: nat, x: nat, low: nat)
    requires RegionOk(r) && r.size != 0 && (i == PCI_ROM_SLOT || r.typeBits < r.size)
    requires x == val - val % r.size && low == if i == PCI_ROM_SLOT then val % 2 else r.typeBits
    ensures BarValue(r, i, val) == x + low
  {
    hide Power2, Or;
    var k := Exponent(r.size);
    PowerDivides(val, k);
    if i != PCI_ROM_SLOT {
      OrBelow(val / r.size, r.typeBits, k);
    }
  }

  /** A guest that writes all ones reads back how large the region is, and its type. */
  lemma BarSized(r: Region, i: nat)
    requires RegionOk(r) && r.size != 0 && (i == PCI_ROM_SLOT || r.typeBits < r.size)
    ensures BarValue(r, i, 0xffff_ffff) == 0x1_0000_0000 - r.size + if i == PCI_ROM_SLOT then 1 else r.typeBits
  {
    hide Or;
    BarHolds(r, i, 0xffff_ffff);
    var k := Exponent(r.size);
    var m := DividesWords(r.size, k);
    var a := AddressOf(r, BarValue(r, i, 0xffff_ffff));
    OneMultiple(a, 0xffff_ffff, r.size, m);
  }

  /** A power of two below 2^32 divides 2^32. */
  lemma {:induction false} DividesWords(size: nat, k: nat) returns (m: nat)
    requires size == Power2(k) && size < 0x1_0000_0000
    ensures m * size == 0x1_0000_0000
  {
    if k >= 32 {
      PowerGrows(32, k);
      TwoTo32();
      assert false;
    }
    m := Power2(32 - k);
    PowerSum(32 - k, k);
    TwoTo32();
  }

  lemma {:induction false} PowerGrows(j: nat, k: nat)
    requires j <= k
    ensures Power2(j) <= Power2(k)
  {
    if j < k {
      PowerGrows(j, k - 1);
    }
  }

  lemma {:induction false} PowerSum(j: nat, k: nat)
    ensures Power2(j) * Power2(k) == Power2(j + k)
    decreases j
  {
    if j > 0 {
      PowerSum(j - 1, k);
      assert Power2(j) * Power2(k) == 2 * (Power2(j - 1) * Power2(k));
    } else {
      assert Power2(0) * Power2(k) == Power2(k);
    }
  }

  lemma OneMultiple(a: nat, val: nat, size: nat, m: nat)
    requires size > 0 && a % size == 0 && a <= val < a + size && val + 1 == m * size
    ensures a == val + 1 - size
  {
    var q := a / size;
    assert a == q * size;
    assert (q + 1) * size == q * size + size;
    if q + 1 < m {
      Apart(m, q + 1, size);
    } else if m < q + 1 {
      Apart(q + 1, m, size);
    }
  }

  // ---- Bits -------------------------------------------------------------------------------------------------

  function Bit(n: nat, k: nat): bool {
    n / Power2(k) % 2 == 1
  }

  lemma BitStep(n: nat, k: nat)
    requires k > 0
    ensures Bit(n, k) == Bit(n / 2, k - 1)
  {
    var p := Power2(k - 1);
    var q, r := n / 2 / p, n / 2 % p;
    assert n / 2 == q * p + r;
    assert n == q * (2 * p) + (2 * r + n % 2);
    ModOf(q, 2 * p, 2 * r + n % 2);
    QuotientOf(n, q, 2 * p, 2 * r + n % 2);
  }

  lemma QuotientOf(n: nat, q: nat, m: nat, r: nat)
    requires r < m && n == q * m + r && n % m == r
    ensures n / m == q
  {
    var d := n / m;
    assert n == d * m + r;
    if d > q {
      Apart(d, q, m);
    } else if q > d {
      Apart(q, d, m);
    }
  }

  lemma {:induction false} OrBit(a: nat, b: nat, k: nat)
    ensures Bit(Or(a, b), k) <==> Bit(a, k) || Bit(b, k)
    decreases k
  {
    if k > 0 {
      BitStep(Or(a, b), k);
      BitStep(a, k);
      BitStep(b, k);
      OrBit(a / 2, b / 2, k - 1);
    }
  }

  lemma {:induction false} AndNotBit(a: nat, b: nat, k: nat)
    ensures Bit(AndNot(a, b), k) <==> Bit(a, k) && !Bit(b, k)
    decreases k
  {
    if k > 0 {
      BitStep(AndNot(a, b), k);
      BitStep(a, k);
      BitStep(b, k);
      AndNotBit(a / 2, b / 2, k - 1);
    }
  }

  lemma RomLowBits(q: nat, size: nat, t: nat)
    requires size >= 4 && t < 2
    ensures (q * size + t) % size == t
  {
    ModOf(q, size, t);
  }

  lemma {:induction false} TypedLowBits(q: nat, t: nat, k: nat)
    ensures Or(q * Power2(k), t) % Power2(k) == t % Power2(k)
    decreases k
  {
    if k > 0 {
      var p := Power2(k - 1);
      assert q * Power2(k) == 2 * (q * p);
      TypedLowBits(q, t / 2, k - 1);
      TwiceMod(Or(q * p, t / 2), t % 2, p);
      TwiceMod(t / 2, t % 2, p);
      OrTwice(q * p, t);
    }
  }

  lemma OrTwice(a: nat, t: nat)
    ensures Or(2 * a, t) == 2 * Or(a, t / 2) + t % 2
  {
    assert 2 * a / 2 == a && 2 * a % 2 == 0;
  }

  lemma TwiceMod(x: nat, b: nat, p: nat)
    requires b < 2 && p > 0
    ensures (2 * x + b) % (2 * p) == 2 * (x % p) + b
  {
    var q, r := x / p, x % p;
    assert x == q * p + r;
    assert 2 * x + b == q * (2 * p) + (2 * r + b);
    ModOf(q, 2 * p, 2 * r + b);
  }

  lemma ModOf(q: nat, size: nat, t: nat)
    requires t < size
    ensures (q * size + t) % size == t
  {
    var x := q * size + t;
    var a, b := x / size, x % size;
    assert x == a * size + b;
    if q > a {
      Apart(q, a, size);
    } else if q < a {
      Apart(a, q, size);
    }
  }

  lemma {:induction false} Apart(q: nat, a: nat, size: nat)
    requires q > a
    ensures q * size >= a * size + size
    decreases q
  {
    assert q * size == (q - 1) * size + size;
    if q - 1 > a {
      Apart(q - 1, a, size);
    }
  }

  // ---- A device ---------------------------------------------------------------------------------------------

  /** The mappings in force are those the registers define. */
  ghost predicate InStep(regions: seq<Region>, c: seq<Byte>, enabled: seq<bool>, mapped: seq<Option<nat>>) {
    && |regions| == PCI_NUM_REGIONS == |enabled| == |mapped| && |c| == 256
    && forall i: nat :: i < PCI_NUM_REGIONS ==> RegionInStep(regions[i], i, c, enabled[i], mapped[i])
  }

  ghost predicate RegionInStep(r: Region, i: nat, c: seq<Byte>, enabled: bool, mapped: Option<nat>)
    requires i < PCI_NUM_REGIONS && |c| == 256
  {
    mapped == Decoded(r, i, c) && enabled == mapped.Some?
  }

  /** A device with header type 0 and sensible regions. */
  ghost predicate DeviceOk(regions: seq<Region>, c: seq<Byte>) {
    && |regions| == PCI_NUM_REGIONS && |c| == 256 && c[0x0e] == 0
    && forall i: nat :: i < PCI_NUM_REGIONS ==> RegionOk(regions[i])
  }

  /** Registers hold what their regions allow. */
  ghost predicate RegistersOk(regions: seq<Region>, c: seq<Byte>) {
    && DeviceOk(regions, c)
    && forall i: nat :: i < PCI_NUM_REGIONS && regions[i].size != 0 ==> LowBits(regions[i], i, Word(c, BarOffset(i)))
  }

  /** Bytes the guest may change one at a time, in a device with header type 0. */
  predicate CanWrite(addr: nat) {
    !(addr < 4 || 8 <= addr < 12 || addr == 0x0e || 0x10 <= addr < 0x28 || 0x30 <= addr < 0x34 || addr == 0x3d)
  }

  /** What a byte written does: status bits written as 1 are cleared; read-only bytes stay. */
  function Written(c: seq<Byte>, addr: nat, data: Byte): (r: seq<Byte>)
    requires |c| == 256 && addr < 256
    ensures |r| == 256
  {
    if addr == PCI_STATUS || addr == PCI_STATUS + 1 then c[addr := ClearBits(c[addr], data)]
    else if CanWrite(addr) then c[addr := data] else c
  }

  function ClearBits(a: nat, b: nat): (r: Byte)
    requires a < 256
  {
    AndNot(a, b)
  }

  function AndNot(a: nat, b: nat): (r: nat)
    ensures r <= a
    decreases a
  {
    if a == 0 then 0 else 2 * AndNot(a / 2, b / 2) + (if a % 2 == 1 && b % 2 == 0 then 1 else 0)
  }

  /** Byte writes leave every register, and the header type, alone. */
  lemma WrittenRegisters(c: seq<Byte>, addr: nat, data: Byte, i: nat)
    requires |c| == 256 && addr < 256 && i < PCI_NUM_REGIONS
    ensures var d := Written(c, addr, data);
            Word(d, BarOffset(i)) == Word(c, BarOffset(i)) && d[0x0e] == c[0x0e]
                && (addr != PCI_COMMAND ==> d[PCI_COMMAND] == c[PCI_COMMAND])
  {
  }

  /** Which bytes take what is written to them one at a time. */
  lemma ByteStored(c: seq<Byte>, addr: nat, data: Byte)
    requires |c| == 256 && addr < 256 && addr != 6 && addr != 7
    ensures Written(c, addr, data)[addr] == data <==>
              c[addr] == data || !(IsFixed(addr) || 0x10 <= addr < 0x28 || 0x30 <= addr < 0x34)
  {
  }

  /** Identification, class, header type and interrupt pin. */
  predicate IsFixed(addr: nat) {
    addr < 4 || 8 <= addr < 12 || addr == 0x0e || addr == 0x3d
  }

  /** No guest write changes them. */
  lemma {:induction false} FixedKept(regions: seq<Region>, c: seq<Byte>, ws: seq<Write>, addr: nat)
    requires |c| == 256 && IsFixed(addr) && forall w | w in ws :: IsWrite(w)
    ensures AfterWrites(regions, c, ws)[addr] == c[addr]
    decreases |ws|
  {
    hide Written, BarValue;
    if ws != [] {
      var n := |ws| - 1;
      FixedKept(regions, c, ws[..n], addr);
      var d := AfterWrites(regions, c, ws[..n]);
      if !ToBar(regions, ws[n]) {
        FixedBytes(d, ws[n].addr, ws[n].data, SizeOf(ws[n].sizeLog2), addr);
      }
    }
  }

  lemma {:induction false} FixedBytes(c: seq<Byte>, at: nat, data: nat, n: nat, addr: nat)
    requires |c| == 256 && IsFixed(addr) && n <= 4
    ensures BytesWritten(c, at, data, n)[addr] == c[addr]
  {
    if n > 0 {
      FixedBytes(c, at, data, n - 1, addr);
    }
  }

  /** Where a write of four bytes goes to a register, if the device has a region there. */
  predicate IsBar(addr: nat) {
    0x10 <= addr < 0x28 || addr == 0x30
  }

  /** The first `n` bytes of `data`, written one by one. */
  function BytesWritten(c: seq<Byte>, addr: nat, data: nat, n: nat): (r: seq<Byte>)
    requires |c| == 256 && n <= 4
    ensures |r| == 256
  {
    if n == 0 then c
    else
      var d := BytesWritten(c, addr, data, n - 1);
      if addr + n - 1 < 256 then Written(d, addr + n - 1, ByteOf(data, n - 1)) else d
  }

  /** A guest's write of one, two or four bytes. */
  datatype Write = Write(addr: nat, data: nat, sizeLog2: nat)

  predicate IsWrite(w: Write) {
    w.addr < 256 && w.data < 0x1_0000_0000 && w.sizeLog2 <= 2
  }

  function SizeOf(sizeLog2: nat): (n: nat)
    ensures sizeLog2 <= 2 ==> n == Power2(sizeLog2)
  {
    if sizeLog2 == 0 then 1 else if sizeLog2 == 1 then 2 else 4
  }

  predicate ToBar(regions: seq<Region>, w: Write) {
    w.sizeLog2 == 2 && IsBar(w.addr) && |regions| == PCI_NUM_REGIONS && regions[BarNumber(w.addr)].size != 0
  }

  /** The configuration space after a write. */
  function ConfigAfter(regions: seq<Region>, c: seq<Byte>, w: Write): (r: seq<Byte>)
    requires |c| == 256 && IsWrite(w)
    ensures |r| == 256
  {
    if ToBar(regions, w) then PutWord(c, w.addr, BarValue(regions[BarNumber(w.addr)], BarNumber(w.addr), w.data))
    else BytesWritten(c, w.addr, w.data, SizeOf(w.sizeLog2))
  }

  function AfterWrites(regions: seq<Region>, c: seq<Byte>, ws: seq<Write>): (r: seq<Byte>)
    requires |c| == 256 && forall w | w in ws :: IsWrite(w)
    ensures |r| == 256
  {
    if ws == [] then c
    else ConfigAfter(regions, AfterWrites(regions, c, ws[..|ws| - 1]), ws[|ws| - 1])
  }

  class PCIDevice {
    const config: array<Byte>
    var regions: seq<Region>
    var enabled: seq<bool>
    var mapped: seq<Option<nat>>    // per region, what the last call of its function mapped

    ghost predicate Shape()
      reads this
    {
      config.Length == 256 && |regions| == PCI_NUM_REGIONS == |enabled| == |mapped|
    }

    /** `enabled` says of each region whether it is mapped. */
    ghost predicate Tracked()
      reads this
    {
      Shape() && forall i: nat :: i < PCI_NUM_REGIONS ==> enabled[i] == mapped[i].Some?
    }

    ghost predicate Valid()
      reads this, config
    {
      Mapped() && RegistersOk(regions, config[..])
    }

    /** Whatever the registers hold, the mappings are what they say. */
    ghost predicate Mapped()
      reads this, config
    {
      Shape() && DeviceOk(regions, config[..]) && InStep(regions, config[..], enabled, mapped)
    }

    lemma ConfigSize()
      requires Valid()
      ensures config.Length == 256
    {
    }

    constructor ()
      ensures Valid() && (forall i: nat :: i < PCI_NUM_REGIONS ==> regions[i].size == 0) && fresh(config)
      ensures config[PCI_COMMAND] == 0
    {
      config := new Byte[256](_ => 0);
      regions := seq(PCI_NUM_REGIONS, _ => Region(0, 0));
      enabled := seq(PCI_NUM_REGIONS, _ => false);
      mapped := seq(PCI_NUM_REGIONS, _ => None);
    }

    method PutLe32(off: nat, v: nat)
      requires off + 4 <= config.Length
      modifies config
      ensures config[..] == PutWord(old(config[..]), off, v)
    {
      config[off] := ByteOf(v, 0);
      config[off + 1] := ByteOf(v, 1);
      config[off + 2] := ByteOf(v, 2);
      config[off + 3] := ByteOf(v, 3);
    }

    /** A device asks for a region, before the guest has enabled anything. */
    method PciRegisterBar(i: nat, r: Region)
      requires i < PCI_NUM_REGIONS && RegionOk(r) && r.size != 0
      requires Valid() && regions[i].size == 0 && config[PCI_COMMAND] == 0
      modifies this, config
      ensures regions == old(regions)[i := r] && config[PCI_COMMAND] == 0
      ensures Word(config[..], if i == 6 then 0x30 else 0x10 + 4 * i) == if i == 6 then 0 else r.typeBits
      ensures Valid()
    {
      hide PutWord, LowBits;
      ghost var c := config[..];
      var v := if i == PCI_ROM_SLOT then 0 else r.typeBits;
      regions := regions[i := r];
      enabled := enabled[i := false];
      PutLe32(BarOffset(i), v);
      GetPut(c, BarOffset(i), v);
      Registered(c, old(regions), old(enabled), old(mapped), i, r, v);
    }

    /** Call each region's function with what its register and the command bits say. */
    method PciUpdateMappings()
      requires Tracked()
      modifies this`enabled, this`mapped
      ensures Tracked() && InStep(regions, config[..], enabled, mapped)
    {
      hide Word;
      var cmd := config[PCI_COMMAND];
      for i := 0 to PCI_NUM_REGIONS
        invariant Tracked()
        invariant forall j: nat :: j < i ==> RegionInStep(regions[j], j, config[..], enabled[j], mapped[j])
      {
        var r := regions[i];
        var bar := Word(config[..], BarOffset(i));
        var newEnabled := false;
        if r.size != 0 {
          if IoSpace(r) && cmd % 2 == 1 {
            newEnabled := true;
          } else if cmd / 2 % 2 == 1 {
            newEnabled := if i == PCI_ROM_SLOT then bar % 2 == 1 else true;
          }
        }
        if newEnabled {
          mapped := mapped[i := Some(bar - bar % r.size)];
          enabled := enabled[i := true];
        } else if enabled[i] {
          mapped := mapped[i := None];
          enabled := enabled[i := false];
        }
      }
    }

    /** The type of a region lies below its size. */
    predicate Simple(i: nat)
      requires i < |regions|
      reads this`regions
    {
      i == PCI_ROM_SLOT || regions[i].typeBits < regions[i].size
    }

    /** A 32-bit write to a register. False if no region is there. */
    method PciWriteBar(addr: nat, val: nat) returns (handled: bool)
      requires val < 0x1_0000_0000 && IsBar(addr)
      requires Mapped()
      modifies this`enabled, this`mapped, config
      ensures handled == (regions[BarNumber(addr)].size != 0)
      ensures config[..]
              == if handled then
                  PutWord(old(config[..]), addr, BarValue(regions[BarNumber(addr)], BarNumber(addr), val))
                            else old(config[..])
      ensures handled && Simple(BarNumber(addr)) ==>
                Holds(regions[BarNumber(addr)], BarNumber(addr), val, Word(config[..], addr))
      ensures old(Valid()) && addr % 4 == 0 ==> Valid()
      ensures Mapped()
    {
      hide PutWord, LowBits, BarValue, Word, Decoded, RegionOk, Holds;
      var reg := BarNumber(addr);
      var r := regions[reg];
      if r.size == 0 {
        return false;
      }
      ghost var c := config[..];
      var v := BarValue(r, reg, val);
      StepTracked(regions, c, enabled, mapped);
      PutLe32(addr, v);
      if RegistersOk(regions, c) && addr % 4 == 0 {
        BarStored(c, regions, reg, val);
      }
      HeaderKept(c, addr, v);
      BarFits(r, reg, val);
      GetPut(c, addr, v);
      if Simple(reg) {
        BarHolds(r, reg, val);
      }
      PciUpdateMappings();
      return true;
    }

    method PciConfigWrite8(addr: nat, data: Byte)
      requires addr < 256 && config.Length == 256 && config[0x0e] == 0
      modifies config
      ensures config[..] == Written(old(config[..]), addr, data)
    {
      if addr == PCI_STATUS || addr == PCI_STATUS + 1 {
        config[addr] := ClearBits(config[addr], data);
        return;
      }
      if CanWrite(addr) {
        config[addr] := data;
      }
    }

    /** A write of one, two or four bytes. The mappings follow whatever is written; registers keep the bits of their
        types if a write of four bytes to one is aligned. */
    method PciConfigWrite(w: Write)
      requires IsWrite(w)
      requires Mapped()
      modifies this`enabled, this`mapped, config
      ensures config[..] == ConfigAfter(regions, old(config[..]), w)
      ensures ToBar(regions, w) && Simple(BarNumber(w.addr)) ==>
                Holds(regions[BarNumber(w.addr)], BarNumber(w.addr), w.data, Word(config[..], w.addr))
      ensures old(Valid()) && (ToBar(regions, w) ==> w.addr % 4 == 0) ==> Valid()
      ensures Mapped()
    {
      hide RegistersOk, InStep, PutWord, BarValue, Word, BytesWritten, RegionOk, Holds;
      if w.sizeLog2 == 2 && IsBar(w.addr) {
        var handled := PciWriteBar(w.addr, w.data);
        if handled {
          return;
        }
      }
      var size := SizeOf(w.sizeLog2);
      WriteBytes(w.addr, w.data, size);
      if w.addr <= PCI_COMMAND < w.addr + size {
        PciUpdateMappings();
      }
    }

    /** The bytes of a write that does not go to a register. */
    method WriteBytes(addr: nat, data: nat, size: nat)
      requires addr < 256 && size <= 4
      requires Mapped()
      modifies config
      ensures config[..] == BytesWritten(old(config[..]), addr, data, size)
      ensures Tracked() && DeviceOk(regions, config[..])
      ensures old(RegistersOk(regions, config[..])) ==> RegistersOk(regions, config[..])
      ensures !(addr <= PCI_COMMAND < addr + size) ==> InStep(regions, config[..], enabled, mapped)
    {
      hide Word, Written, LowBits, RegionOk, Decoded;
      StepTracked(regions, config[..], enabled, mapped);
      for k := 0 to size
        invariant config[..] == BytesWritten(old(config[..]), addr, data, k)
        invariant Tracked() && DeviceOk(regions, config[..])
        invariant old(RegistersOk(regions, config[..])) ==> RegistersOk(regions, config[..])
        invariant !(addr <= PCI_COMMAND < addr + k) ==> InStep(regions, config[..], enabled, mapped)
      {
        if addr + k <= 0xff {
          ByteStep(regions, config[..], enabled, mapped, addr + k, ByteOf(data, k));
          PciConfigWrite8(addr + k, ByteOf(data, k));
        }
      }
    }

    /** Any run of guest writes, once the regions are registered: every mapping is what the registers define. */
    method GuestWrites(ws: seq<Write>)
      requires forall w | w in ws :: IsWrite(w)
      requires Mapped()
      modifies this`enabled, this`mapped, config
      ensures config[..] == AfterWrites(regions, old(config[..]), ws)
      ensures Mapped()
      ensures forall i: nat :: i < PCI_NUM_REGIONS ==>
                mapped[i] == Decoded(regions[i], i, config[..]) && enabled[i] == mapped[i].Some?
      ensures old(Valid()) && (forall w | w in ws && ToBar(regions, w) :: w.addr % 4 == 0) ==> Valid()
    {
      hide RegistersOk, ConfigAfter, DeviceOk, InStep, ToBar, Decoded;
      for k := 0 to |ws|
        invariant config[..] == AfterWrites(regions, old(config[..]), ws[..k])
        invariant old(Valid()) && (forall w | w in ws && ToBar(regions, w) :: w.addr % 4 == 0) ==> Valid()
        invariant Mapped()
      {
        assert ws[..k + 1][..k] == ws[..k];
        PciConfigWrite(ws[k]);
      }
      assert ws[..|ws|] == ws;
      StepsDecoded(regions, config[..], enabled, mapped);
    }
  }

  /** The exception on a device: its I/O region is mapped with the I/O bit of the command register clear. */
  method IoByMemoryBit() returns (d: PCIDevice)
    ensures d.Valid() && IoSpace(d.regions[0]) && d.config[PCI_COMMAND] == 2 && d.mapped[0] == Some(0x1000)
  {
    hide RegistersOk, DeviceOk, InStep;
    d := new PCIDevice();
    var r := Region(4, 1);
    assert RegionOk(r) && IoSpace(r);
    d.PciRegisterBar(0, r);
    MapByMemoryBit(d);
  }

  /** A guest puts an address in the register of an I/O region and sets the memory bit. */
  method MapByMemoryBit(d: PCIDevice)
    requires d.Valid() && d.regions[0] == Region(4, 1)
    modifies d`enabled, d`mapped, d.config
    ensures d.Valid() && d.config[PCI_COMMAND] == 2 && d.mapped[0] == Some(0x1000)
  {
    hide RegistersOk, DeviceOk, InStep, AfterWrites, Decoded, ToBar;
    ghost var c := d.config[..];
    var ws := [Write(0x10, 0x1000, 2), Write(PCI_COMMAND, 2, 0)];
    AlignedWrites(d.regions, ws);
    d.GuestWrites(ws);
    IoWrites(d.regions, c, ws);
  }

  lemma AlignedWrites(regions: seq<Region>, ws: seq<Write>)
    requires ws == [Write(0x10, 0x1000, 2), Write(PCI_COMMAND, 2, 0)]
    ensures forall w | w in ws :: IsWrite(w) && w.addr % 4 == 0
  {
  }

  lemma StepsDecoded(regions: seq<Region>, c: seq<Byte>, enabled: seq<bool>, mapped: seq<Option<nat>>)
    requires InStep(regions, c, enabled, mapped)
    ensures forall i: nat :: i < PCI_NUM_REGIONS ==>
              mapped[i] == Decoded(regions[i], i, c) && enabled[i] == mapped[i].Some?
  {
    hide Decoded;
    forall i: nat | i < PCI_NUM_REGIONS
      ensures mapped[i] == Decoded(regions[i], i, c) && enabled[i] == mapped[i].Some?
    {
      assert RegionInStep(regions[i], i, c, enabled[i], mapped[i]);
    }
  }

  lemma IoWrites(regions: seq<Region>, c: seq<Byte>, ws: seq<Write>)
    requires |regions| == PCI_NUM_REGIONS && regions[0] == Region(4, 1) && |c| == 256
    requires ws == [Write(0x10, 0x1000, 2), Write(PCI_COMMAND, 2, 0)]
    ensures var d := AfterWrites(regions, c, ws); d[PCI_COMMAND] == 2 && Decoded(regions[0], 0, d) == Some(0x1000)
  {
    hide Word, PutWord, Or;
    assert ws[..1] == [Write(0x10, 0x1000, 2)] && ws[..1][..0] == [];
    OrBelow(0x1000 / 4, 1, 2);
    assert Or(0x1000, 1) == 0x1001;
    var c1 := PutWord(c, 0x10, 0x1001);
    assert AfterWrites(regions, c, ws[..1]) == c1;
    GetPut(c, 0x10, 0x1001);
    assert ByteOf(2, 0) == 2;
    WrittenRegisters(c1, PCI_COMMAND, 2, 0);
    assert BytesWritten(c1, PCI_COMMAND, 2, 0) == c1;
    assert BytesWritten(c1, PCI_COMMAND, 2, 1) == Written(c1, PCI_COMMAND, 2);
    assert ConfigAfter(regions, c1, Write(PCI_COMMAND, 2, 0)) == Written(c1, PCI_COMMAND, 2);
  }

  lemma HeaderKept(c: seq<Byte>, addr: nat, v: nat)
    requires |c| == 256 && 0x10 <= addr <= 252
    ensures PutWord(c, addr, v)[0x0e] == c[0x0e]
  {
  }

  /** Every guest write keeps the type bits of every register exactly if it is aligned. */
  lemma AlignedExactly(addr: nat)
    requires IsBar(addr)
    ensures (forall regions: seq<Region>, c: seq<Byte>, data: nat | data < 0x1_0000_0000 && RegistersOk(regions, c) ::
               RegistersOk(regions, ConfigAfter(regions, c, Write(addr, data, 2)))) <==> addr % 4 == 0
  {
    if addr % 4 == 0 {
      forall regions: seq<Region>, c: seq<Byte>, data: nat | data < 0x1_0000_0000 && RegistersOk(regions, c)
        ensures RegistersOk(regions, ConfigAfter(regions, c, Write(addr, data, 2)))
      {
        AlignedKeeps(regions, c, Write(addr, data, 2));
      }
    } else {
      var regions, c := UnalignedWrite(addr);
    }
  }

  lemma AlignedKeeps(regions: seq<Region>, c: seq<Byte>, w: Write)
    requires IsWrite(w) && RegistersOk(regions, c) && (ToBar(regions, w) ==> w.addr % 4 == 0)
    ensures RegistersOk(regions, ConfigAfter(regions, c, w))
  {
    hide RegistersOk, BarValue, BytesWritten, PutWord;
    RegistersShape(regions, c);
    if ToBar(regions, w) {
      BarStored(c, regions, BarNumber(w.addr), w.data);
    } else {
      BytesKeep(regions, c, w.addr, w.data, SizeOf(w.sizeLog2));
    }
  }

  lemma RegistersShape(regions: seq<Region>, c: seq<Byte>)
    requires RegistersOk(regions, c)
    ensures |regions| == PCI_NUM_REGIONS && |c| == 256
  {
  }

  lemma {:induction false} BytesKeep(regions: seq<Region>, c: seq<Byte>, addr: nat, data: nat, n: nat)
    requires RegistersOk(regions, c) && n <= 4
    ensures |c| == 256 && RegistersOk(regions, BytesWritten(c, addr, data, n))
    decreases n
  {
    hide RegistersOk, Written;
    RegistersShape(regions, c);
    if n > 0 {
      BytesKeep(regions, c, addr, data, n - 1);
      if addr + n - 1 < 256 {
        RegistersKept(regions, BytesWritten(c, addr, data, n - 1), addr + n - 1, ByteOf(data, n - 1));
      }
    }
  }

  /** A write that breaks one: the type bits of a large region, stored some bytes too far up. */
  lemma UnalignedWrite(addr: nat) returns (regions: seq<Region>, c: seq<Byte>)
    requires IsBar(addr) && addr % 4 != 0
    ensures RegistersOk(regions, c) && !RegistersOk(regions, ConfigAfter(regions, c, Write(addr, 0, 2)))
  {
    hide Word, BytesWritten;
    var i := BarNumber(addr);
    var r := Region(0x8000_0000, 8);
    regions := seq(PCI_NUM_REGIONS, j => if j == i then r else Region(0, 0));
    c := seq(256, j => if j == BarOffset(i) then 8 else 0);
    LargeRegion();
    MisplacedType(c, addr, i);
    hide PutWord;
    assert BarValue(r, i, 0) == 8;
    var d := ConfigAfter(regions, c, Write(addr, 0, 2));
    assert d == PutWord(c, addr, 8);
    assert !LowBits(regions[i], i, Word(d, BarOffset(i)));
  }

  lemma LargeRegion()
    ensures RegionOk(Region(0x8000_0000, 8)) && Or(0, 8) == 8 && Or(8, 8) == 8
  {
    hide PowerOfTwo;
    TwoTo32();
    PowersOfTwo(31);
    OrSame(8);
    OrBelow(0, 8, 4);
  }

  lemma {:induction false} PowersOfTwo(k: nat)
    ensures PowerOfTwo(Power2(k))
  {
    if k > 0 {
      PowersOfTwo(k - 1);
    }
  }

  lemma MisplacedType(c: seq<Byte>, addr: nat, i: nat)
    requires IsBar(addr) && addr % 4 != 0 && i == BarNumber(addr) && |c| == 256
    requires forall j :: 0 <= j < 256 ==> c[j] == if j == BarOffset(i) then 8 else 0
    ensures BarOffset(i) == addr - addr % 4 && i < PCI_ROM_SLOT
    ensures Word(c, BarOffset(i)) == 8
    ensures 8 < Word(PutWord(c, addr, 8), BarOffset(i)) < 0x8000_0000
  {
    assert ByteOf(8, 0) == 8 && ByteOf(8, 1) == 0 && ByteOf(8, 2) == 0 && ByteOf(8, 3) == 0;
  }

  function BarNumber(addr: nat): (i: nat)
    ensures i < PCI_NUM_REGIONS
  {
    if addr == 0x30 || addr < 0x10 || addr >= 0x28 then PCI_ROM_SLOT else (addr - 0x10) / 4
  }

  lemma StepTracked(regions: seq<Region>, c: seq<Byte>, enabled: seq<bool>, mapped: seq<Option<nat>>)
    requires InStep(regions, c, enabled, mapped)
    ensures forall i: nat :: i < PCI_NUM_REGIONS ==> enabled[i] == mapped[i].Some?
  {
    hide Decoded;
    forall i: nat | i < PCI_NUM_REGIONS
      ensures enabled[i] == mapped[i].Some?
    {
      assert RegionInStep(regions[i], i, c, enabled[i], mapped[i]);
    }
  }

  lemma ByteStep(regions: seq<Region>, c: seq<Byte>, enabled: seq<bool>, mapped: seq<Option<nat>>, addr: nat,
      data: Byte)
    requires DeviceOk(regions, c) && addr < 256
    ensures DeviceOk(regions, Written(c, addr, data))
    ensures RegistersOk(regions, c) ==> RegistersOk(regions, Written(c, addr, data))
    ensures addr != PCI_COMMAND && InStep(regions, c, enabled, mapped) ==>
            InStep(regions, Written(c, addr, data), enabled, mapped)
  {
    hide Word, Written, LowBits, RegionOk, Enabled;
    WrittenRegisters(c, addr, data, 0);
    if RegistersOk(regions, c) {
      RegistersKept(regions, c, addr, data);
    }
    if addr != PCI_COMMAND && InStep(regions, c, enabled, mapped) {
      forall i: nat | i < PCI_NUM_REGIONS
        ensures RegionInStep(regions[i], i, Written(c, addr, data), enabled[i], mapped[i])
      {
        WrittenRegisters(c, addr, data, i);
        assert RegionInStep(regions[i], i, c, enabled[i], mapped[i]);
      }
    }
  }

  lemma RegistersKept(regions: seq<Region>, c: seq<Byte>, addr: nat, data: Byte)
    requires RegistersOk(regions, c) && addr < 256
    ensures |c| == 256 && RegistersOk(regions, Written(c, addr, data))
  {
    hide Word, Written, LowBits, RegionOk;
    forall i: nat | i < PCI_NUM_REGIONS
      ensures Word(Written(c, addr, data), BarOffset(i)) == Word(c, BarOffset(i))
              && Written(c, addr, data)[0x0e] == c[0x0e]
    {
      WrittenRegisters(c, addr, data, i);
    }
    WrittenRegisters(c, addr, data, 0);
  }

  lemma OtherBars(c: seq<Byte>, i: nat, v: nat, j: nat)
    requires |c| == 256 && i < PCI_NUM_REGIONS && j < PCI_NUM_REGIONS && v < 0x1_0000_0000
    ensures var d := PutWord(c, BarOffset(i), v);
            && Word(d, BarOffset(j)) == (if i == j then v else Word(c, BarOffset(j)))
            && d[0x0e] == c[0x0e] && d[PCI_COMMAND] == c[PCI_COMMAND]
  {
    if i == j {
      GetPut(c, BarOffset(i), v);
    } else {
      PutElsewhere(c, BarOffset(i), v, BarOffset(j));
    }
  }

  /** A register stored keeps the registers right. */
  lemma BarStored(c: seq<Byte>, regions: seq<Region>, i: nat, val: nat)
    requires RegistersOk(regions, c) && i < PCI_NUM_REGIONS && regions[i].size != 0 && val < 0x1_0000_0000
    ensures RegistersOk(regions, PutWord(c, BarOffset(i), BarValue(regions[i], i, val)))
  {
    hide Word, PutWord, LowBits, RegionOk, BarValue;
    var v := BarValue(regions[i], i, val);
    BarFits(regions[i], i, val);
    BarLowBits(regions[i], i, val);
    forall j: nat | j < PCI_NUM_REGIONS
      ensures var d := PutWord(c, BarOffset(i), v);
              Word(d, BarOffset(j)) == (if i == j then v else Word(c, BarOffset(j))) && d[0x0e] == c[0x0e]
    {
      OtherBars(c, i, v, j);
    }
    OtherBars(c, i, v, i);
  }

  lemma BarFits(r: Region, i: nat, val: nat)
    requires RegionOk(r) && r.size != 0 && val < 0x1_0000_0000
    ensures BarValue(r, i, val) < 0x1_0000_0000
  {
    hide Power2, Or;
    TwoTo32();
    if i == PCI_ROM_SLOT {
      RomFits(r.size, val);
    } else {
      var base: nat := val - val % r.size;
      OrFits(base, r.typeBits, 32);
    }
  }

  lemma TwoTo32()
    ensures Power2(32) == 0x1_0000_0000
  {
    assert Power2(8) == 0x100;
    assert Power2(16) == 0x1_0000;
    assert Power2(24) == 0x100_0000;
  }

  lemma RomFits(size: nat, val: nat)
    requires size >= 4 && val < 0x1_0000_0000 && PowerOfTwo(size)
    ensures val - val % size + val % 2 <= val
  {
    var k := Exponent(size);
    Even(val, k);
  }

  /** Taking the remainder by a power of two of at least 2 keeps the last bit. */
  lemma Even(val: nat, k: nat)
    requires Power2(k) >= 2
    ensures val % Power2(k) >= val % 2
  {
    var p := Power2(k - 1);
    var q, t := val / Power2(k), val % Power2(k);
    assert val == q * Power2(k) + t;
    assert val == 2 * (q * p) + t;
  }

  lemma {:induction false} OrFits(a: nat, b: nat, k: nat)
    requires a < Power2(k) && b < Power2(k)
    ensures Or(a, b) < Power2(k)
    decreases k
  {
    if k > 0 && (a > 0 || b > 0) {
      OrFits(a / 2, b / 2, k - 1);
    }
  }

  /** A region registered is not mapped yet. */
  lemma Registered(c: seq<Byte>, regions: seq<Region>, enabled: seq<bool>, mapped: seq<Option<nat>>, i: nat, r: Region,
      v: nat)
    requires RegistersOk(regions, c) && InStep(regions, c, enabled, mapped) && c[PCI_COMMAND] == 0
    requires i < PCI_NUM_REGIONS && RegionOk(r) && r.size != 0 && v == (if i == PCI_ROM_SLOT then 0 else r.typeBits)
    ensures var d := PutWord(c, BarOffset(i), v);
            && RegistersOk(regions[i := r], d) && InStep(regions[i := r], d, enabled[i := false], mapped)
                && d[PCI_COMMAND] == 0
  {
    hide Word, PutWord, RegionOk;
    assert r.typeBits < 256 by { TypeByte(r); }
    forall j: nat | j < PCI_NUM_REGIONS
      ensures var d := PutWord(c, BarOffset(i), v);
              Word(d, BarOffset(j)) == (if i == j then v else Word(c, BarOffset(j))) && d[0x0e] == c[0x0e]
                  && d[PCI_COMMAND] == 0
    {
      OtherBars(c, i, v, j);
    }
    OtherBars(c, i, v, i);
    FreshBar(r, i, v);
    hide LowBits;
    forall j: nat | j < PCI_NUM_REGIONS
      ensures RegionInStep(regions[i := r][j], j, PutWord(c, BarOffset(i), v), enabled[i := false][j], mapped[j])
    {
      assert RegionInStep(regions[j], j, c, enabled[j], mapped[j]);
    }
  }

  lemma TypeByte(r: Region)
    requires RegionOk(r) && r.size != 0
    ensures r.typeBits < 256 && r.size >= 4
  {
  }

  lemma FreshBar(r: Region, i: nat, v: nat)
    requires RegionOk(r) && r.size != 0 && v == (if i == PCI_ROM_SLOT then 0 else r.typeBits)
    ensures LowBits(r, i, v)
  {
    OrSame(v);
  }

  lemma {:induction false} OrSame(v: nat)
    ensures Or(v, v) == v
    decreases v
  {
    if v > 0 {
      OrSame(v / 2);
    }
  }
}
