/** The IDE disk controller: sector addressing, and commands that move sectors through the data port. */
module Ide {
  import opened Wrappers

  type Byte = x: nat | x < 256

  const HEADS := 16
  const SECTORS := 63
  const MAX_MULT_SECTORS := 128
  const SECTOR_SIZE := 512
  const BUFFER_SIZE := 65540

  // ---- The multiple-sector count ----------------------------------------------------------------------------

  /** `a & b`, `b` being a two's complement number. */
  function And(a: nat, b: int): nat {
    if a == 0 then 0 else 2 * And(a / 2, b / 2) + (if a % 2 == 1 && b % 2 == 1 then 1 else 0)
  }

  lemma {:induction false} AndSelf(a: nat)
    ensures And(a, a) == a
  {
    if a != 0 {
      AndSelf(a / 2);
    }
  }

  /** `n & (n - 1)` is zero for the powers of two, and for zero. */
  lemma {:induction false} BitTest(n: nat)
    ensures And(n, n - 1) == 0 <==> n == 0 || PowerOfTwo(n)
  {
    if n > 0 {
      if n % 2 == 0 {
        BitTest(n / 2);
        assert (n - 1) / 2 == n / 2 - 1;
      } else {
        AndSelf(n / 2);
        assert (n - 1) / 2 == n / 2;
      }
    }
  }

  // ---- Sector addresses -------------------------------------------------------------------------------------

  /** The registers that hold a sector number. */
  datatype Address = Address(select: nat, hcyl: nat, lcyl: nat, sector: nat)

  predicate IsAddress(a: Address) {
    a.select < 256 && a.hcyl < 256 && a.lcyl < 256 && a.sector < 256
  }

  predicate Lba(a: Address) {
    a.select / 64 % 2 == 1
  }

  /** How many sectors the registers can name. */
  function Limit(lba: bool): nat {
    if lba then 0x1000_0000 else 0x1_0000 * HEADS * SECTORS
  }

  function GetSector(a: Address): int {
    if Lba(a) then a.select % 16 * 0x100_0000 + a.hcyl * 0x1_0000 + a.lcyl * 0x100 + a.sector
    else (a.hcyl * 0x100 + a.lcyl) * HEADS * SECTORS + a.select % 16 * SECTORS + (a.sector - 1)
  }

  function SetSector(a: Address, num: nat): (r: Address) {
    var high := a.select / 16 * 16;
    if Lba(a) then Address(high + num / 0x100_0000 % 16, num / 0x1_0000 % 256, num / 0x100 % 256, num % 256)
    else
      var cyl := num / (HEADS * SECTORS);
      var r := num % (HEADS * SECTORS);
      Address(high + r / SECTORS % 16, cyl / 256 % 256, cyl % 256, r % SECTORS + 1)
  }

  lemma SetLba(a: Address, num: nat)
    requires IsAddress(a) && Lba(a) && num < Limit(true)
    ensures var r := SetSector(a, num); IsAddress(r) && Lba(r) && GetSector(r) == num
  {
    var q1, q2, q3 := num / 0x100, num / 0x1_0000, num / 0x100_0000;
    assert q1 / 0x100 == q2 && q2 / 0x100 == q3;
    SameMode(a, num / 0x100_0000 % 16);
  }

  lemma SetChs(a: Address, num: nat)
    requires IsAddress(a) && !Lba(a) && num < Limit(false)
    ensures var r := SetSector(a, num); IsAddress(r) && !Lba(r) && GetSector(r) == num
  {
    var cyl, r := num / 1008, num % 1008;
    assert num == cyl * 1008 + r;
    assert cyl < 65536 && r / 63 < 16;
    assert r == r / 63 * 63 + r % 63;
    SameMode(a, r / 63 % 16);
  }

  /** The low bits of the drive register are not what tells the mode. */
  lemma SameMode(a: Address, low: nat)
    requires IsAddress(a) && low < 16
    ensures var s := a.select / 16 * 16 + low;
            s < 256 && s / 64 % 2 == a.select / 64 % 2 && s % 16 == low && s / 16 == a.select / 16
  {
  }

  /** Within what the registers can name, setting a sector and getting it is the identity, in either mode. */
  lemma GetSet(a: Address, num: nat)
    requires IsAddress(a) && num < Limit(Lba(a))
    ensures var r := SetSector(a, num); Names(r) && r.select / 16 == a.select / 16 && GetSector(r) == num
  {
    SetNames(a, num);
    hide SetSector, GetSector;
    if Lba(a) {
      SetLba(a, num);
    } else {
      SetChs(a, num);
    }
  }

  lemma SetNames(a: Address, num: nat)
    requires IsAddress(a) && num < Limit(Lba(a))
    ensures var r := SetSector(a, num); r.select / 16 == a.select / 16 && (!Lba(r) ==> 1 <= r.sector <= SECTORS)
  {
    SameMode(a, num / 0x100_0000 % 16);
    SameMode(a, num % 1008 / 63 % 16);
  }

  /** Any sector number leaves registers of a byte, in the same mode. */
  lemma SetShape(a: Address, num: nat)
    requires IsAddress(a)
    ensures IsAddress(SetSector(a, num)) && Lba(SetSector(a, num)) == Lba(a)
  {
    SameMode(a, num / 0x100_0000 % 16);
    SameMode(a, num % 1008 / 63 % 16);
  }

  /** One set of registers names an earlier sector than another of the same mode: by cylinder, head and sector, the
      drive register holding the head, or with LBA by the four registers as one number. */
  predicate Earlier(a: Address, b: Address) {
    if a.select / 0x40 % 2 == 1
    then Lexical([a.select % 16, a.hcyl, a.lcyl, a.sector], [b.select % 16, b.hcyl, b.lcyl, b.sector])
    else Lexical([a.hcyl, a.lcyl, a.select % 16, a.sector], [b.hcyl, b.lcyl, b.select % 16, b.sector])
  }

  predicate Lexical(a: seq<nat>, b: seq<nat>)
    requires |a| == |b|
  {
    a != [] && (a[0] < b[0] || (a[0] == b[0] && Lexical(a[1..], b[1..])))
  }

  lemma LexicalFour(a: seq<nat>, b: seq<nat>)
    requires |a| == 4 == |b|
    ensures Lexical(a, b) <==>
              a[0] < b[0] || (a[0] == b[0]
                  && (a[1] < b[1] || (a[1] == b[1] && (a[2] < b[2] || (a[2] == b[2] && a[3] < b[3])))))
  {
    var a1, b1 := a[1..], b[1..];
    var a2, b2 := a1[1..], b1[1..];
    var a3, b3 := a2[1..], b2[1..];
    assert a1[0] == a[1] && b1[0] == b[1] && a2[0] == a[2] && b2[0] == b[2] && a3[0] == a[3] && b3[0] == b[3];
    assert Lexical(a3, b3) <==> a[3] < b[3];
    assert Lexical(a2, b2) <==> a[2] < b[2] || (a[2] == b[2] && Lexical(a3, b3));
    assert Lexical(a1, b1) <==> a[1] < b[1] || (a[1] == b[1] && Lexical(a2, b2));
  }

  /** Registers that name a sector: without LBA sectors are numbered from 1 to 63. */
  predicate Names(a: Address) {
    IsAddress(a) && (!Lba(a) ==> 1 <= a.sector <= SECTORS)
  }

  /** Sectors are numbered in the order of their registers, in either mode. */
  lemma SectorOrder(a: Address, b: Address)
    requires Names(a) && Names(b) && Lba(a) == Lba(b)
    ensures GetSector(a) < GetSector(b) <==> Earlier(a, b)
    ensures 0 <= GetSector(a) < Limit(Lba(a))
  {
    if Lba(a) {
      LexicalFour([a.select % 16, a.hcyl, a.lcyl, a.sector], [b.select % 16, b.hcyl, b.lcyl, b.sector]);
    } else {
      LexicalFour([a.hcyl, a.lcyl, a.select % 16, a.sector], [b.hcyl, b.lcyl, b.select % 16, b.sector]);
    }
  }

  // ---- A command under way ----------------------------------------------------------------------------------

  /** What the count register means: 0 is 256. */
  function Count(nsector: nat): nat {
    if nsector == 0 then 256 else nsector
  }

  function Min(a: nat, b: nat): nat {
    if a < b then a else b
  }

  /** What a disk request does: nothing but fail, complete at once, or complete later. */
  datatype Outcome = Failed | AtOnce | Later

  datatype EndFunc = TransferStop | SectorRead | SectorReadEnd | SectorWriteNext

  datatype Command = NoCommand | Reading | Writing

  datatype Status = Status(busy: bool, drq: bool, err: bool)

  /** `moved` of `total` sectors from `first` are done with; the registers say where to go on and how many are left. */
  ghost predicate Counted(a: Address, nsector: nat, first: nat, total: nat, moved: nat) {
    && IsAddress(a) && 1 <= total <= 256 && moved <= total && first + total <= Limit(Lba(a))
    && nsector == (total - moved) % 256
    && (moved < total ==> GetSector(a) == first + moved)
  }

  /** How many sectors the next transfer takes. */
  lemma NextCount(a: Address, nsector: nat, first: nat, total: nat, moved: nat)
    requires Counted(a, nsector, first, total, moved) && moved < total
    ensures Count(nsector) == total - moved && GetSector(a) == first + moved
  {
  }

  /** A transfer of `n` sectors is accounted for. */
  lemma Advanced(a: Address, nsector: nat, first: nat, total: nat, moved: nat, n: nat)
    requires Counted(a, nsector, first, total, moved) && moved < total && 1 <= n <= total - moved
    ensures GetSector(a) + n >= 0
    ensures Counted(SetSector(a, GetSector(a) + n), (nsector - n) % 256, first, total, moved + n)
    ensures (nsector - n) % 256 == 0 <==> moved + n == total
  {
    hide SetSector, GetSector;
    SetShape(a, first + moved + n);
    if moved + n < total {
      GetSet(a, first + moved + n);
    }
    Wraps(total - moved, n);
  }

  lemma Wraps(left: nat, n: nat)
    requires 1 <= n <= left <= 256
    ensures (left % 256 - n) % 256 == (left - n) % 256
    ensures (left - n) % 256 == 0 <==> left == n
  {
  }

  /** The front of the buffer is the disk from `base` on, and `out` is the disk from `start` to the place in the
      buffer. */
  ghost predicate Showing(disk: seq<Byte>, start: nat, base: nat, buf: seq<Byte>, len: nat, index: nat,
      out: seq<Byte>) {
    && start <= base && base + len <= |disk| && len <= |buf| && index <= len
    && buf[..len] == disk[base..base + len] && out == disk[start..base + index]
  }

  lemma WordRead(disk: seq<Byte>, start: nat, base: nat, buf: seq<Byte>, len: nat, index: nat, out: seq<Byte>)
    requires Showing(disk, start, base, buf, len, index, out) && index + 2 <= len
    ensures Showing(disk, start, base, buf, len, index + 2, out + [buf[index], buf[index + 1]])
  {
    assert buf[index] == buf[..len][index] && buf[index + 1] == buf[..len][index + 1];
  }

  /** Bytes come in at the port, are collected in the buffer, and reach the disk from `start` on. */
  function Overlay(disk: seq<Byte>, start: nat, data: seq<Byte>): seq<Byte>
    requires start + |data| <= |disk|
  {
    disk[..start] + data + disk[start + |data|..]
  }

  ghost predicate Collecting(disk0: seq<Byte>, disk: seq<Byte>, start: nat, done: nat, buf: seq<Byte>, index: nat,
      inp: seq<Byte>) {
    && |inp| == done + index && index <= |buf| && start + done <= |disk0|
    && buf[..index] == inp[done..] && disk == Overlay(disk0, start, inp[..done])
  }

  function Put2(buf: seq<Byte>, p: nat, lo: Byte, hi: Byte): seq<Byte>
    requires p + 2 <= |buf|
  {
    buf[p := lo][p + 1 := hi]
  }

  lemma WordWritten(disk0: seq<Byte>, disk: seq<Byte>, start: nat, done: nat, buf: seq<Byte>, index: nat,
      inp: seq<Byte>, lo: Byte, hi: Byte)
    requires Collecting(disk0, disk, start, done, buf, index, inp) && index + 2 <= |buf|
    ensures Collecting(disk0, disk, start, done, Put2(buf, index, lo, hi), index + 2, inp + [lo, hi])
  {
    var b := Put2(buf, index, lo, hi);
    assert b[..index + 2] == buf[..index] + [lo, hi];
    assert (inp + [lo, hi])[done..] == inp[done..] + [lo, hi];
    assert (inp + [lo, hi])[..done] == inp[..done];
  }

  /** The buffer goes to the disk. */
  lemma BufferStored(disk0: seq<Byte>, disk: seq<Byte>, start: nat, done: nat, buf: seq<Byte>, len: nat, inp: seq<Byte>)
    requires Collecting(disk0, disk, start, done, buf, len, inp) && start + done + len <= |disk0|
    ensures |disk| == |disk0| == |Overlay(disk, start + done, buf[..len])|
    ensures Collecting(disk0, Overlay(disk, start + done, buf[..len]), start, done + len, buf, 0, inp)
  {
    assert inp[..done + len] == inp;
    assert inp == inp[..done] + buf[..len];
    var d := Overlay(disk, start + done, buf[..len]);
    assert d == Overlay(disk0, start, inp);
    assert buf[..0] == [] == inp[done + len..];
  }

  class IDEState {
    var addr: Address
    var nsector: nat
    var multSectors: nat
    var ioNbSectors: nat
    var reqNbSectors: nat
    var endTransferFunc: EndFunc
    var dataIndex: nat
    var dataEnd: nat
    var status: Status
    const ioBuffer: array<Byte>
    var disk: seq<Byte>             // the block device
    var pending: bool               // it has a request to complete
    var command: Command
    ghost var disk0: seq<Byte>      // the disk as the command found it
    ghost var first: nat            // the command's first sector
    ghost var total: nat            // how many sectors it moves
    ghost var moved: nat            // how many of them the disk has given or taken
    ghost var port: seq<Byte>       // what went through the data port

    ghost predicate Shape()
      reads this
    {
      && ioBuffer.Length == BUFFER_SIZE && multSectors <= MAX_MULT_SECTORS && IsAddress(addr) && nsector < 256
      && dataEnd <= MAX_MULT_SECTORS * SECTOR_SIZE
    }

    ghost predicate Moving()
      reads this
    {
      && Shape() && 1 <= reqNbSectors <= MAX_MULT_SECTORS && 1 <= ioNbSectors <= reqNbSectors
      && Counted(addr, nsector, first, total, moved)
      && SECTOR_SIZE * (first + total) <= |disk| == |disk0|
      && status == Status(pending, !pending, false)
    }

    /** The disk has been asked for the next sectors; the host has had those before. */
    ghost predicate ReadBusy()
      reads this
    {
      && Moving() && pending && disk == disk0 && moved + ioNbSectors <= total
      && port == disk[SECTOR_SIZE * first..SECTOR_SIZE * (first + moved)]
    }

    /** The host is reading sectors out of the buffer. */
    ghost predicate ReadData()
      reads this, ioBuffer
    {
      && Moving() && !pending && disk == disk0 && ioNbSectors <= moved
      && dataEnd == SECTOR_SIZE * ioNbSectors && dataIndex < dataEnd && dataIndex % 2 == 0
      && endTransferFunc == (if moved == total then SectorReadEnd else SectorRead)
      && Showing(disk, SECTOR_SIZE * first, SECTOR_SIZE * (first + moved - ioNbSectors), ioBuffer[..], dataEnd,
          dataIndex, port)
    }

    /** The disk has been given the sectors in the buffer. */
    ghost predicate WriteBusy()
      reads this, ioBuffer
    {
      && Moving() && pending && moved + ioNbSectors <= total
      && dataIndex == 0 == dataEnd && endTransferFunc == EndFunc.TransferStop
      && Collecting(disk0, disk, SECTOR_SIZE * first, SECTOR_SIZE * moved, ioBuffer[..], SECTOR_SIZE * ioNbSectors,
          port)
    }

    /** The host is writing sectors into the buffer. */
    ghost predicate WriteData()
      reads this, ioBuffer
    {
      && Moving() && !pending && moved + ioNbSectors <= total
      && dataEnd == SECTOR_SIZE * ioNbSectors && dataIndex < dataEnd && dataIndex % 2 == 0
      && endTransferFunc == SectorWriteNext
      && Collecting(disk0, disk, SECTOR_SIZE * first, SECTOR_SIZE * moved, ioBuffer[..], dataIndex, port)
    }

    ghost predicate Valid()
      reads this, ioBuffer
    {
      match command
      case NoCommand => Shape() && !pending
      case Reading => if pending then ReadBusy() else ReadData()
      case Writing => if pending then WriteBusy() else WriteData()
    }

    /** The command has moved all its sectors; those read, in order and nothing else, are what went through the port. */
    ghost predicate ReadDone()
      reads this
    {
      && SECTOR_SIZE * (first + total) <= |disk| && disk == disk0
      && port == disk[SECTOR_SIZE * first..SECTOR_SIZE * (first + total)]
      && nsector == 0 && dataIndex == 0 == dataEnd && status == Status(false, false, false)
    }

    /** Those written are what came through the port, and no other sector changed. */
    ghost predicate WriteDone()
      reads this
    {
      && SECTOR_SIZE * (first + total) <= |disk0| && |port| == SECTOR_SIZE * total
      && disk == Overlay(disk0, SECTOR_SIZE * first, port)
      && nsector == 0 && dataIndex == 0 == dataEnd && status == Status(false, false, false)
    }

    constructor (disk: seq<Byte>)
      ensures Valid() && command == NoCommand && this.disk == disk && fresh(ioBuffer) && multSectors == MAX_MULT_SECTORS
    {
      addr, nsector, multSectors := Address(0xa0, 0, 0, 0), 0, MAX_MULT_SECTORS;
      ioNbSectors, reqNbSectors, endTransferFunc, dataIndex, dataEnd := 0, 0, EndFunc.TransferStop, 0, 0;
      status := Status(false, false, false);
      ioBuffer := new Byte[BUFFER_SIZE](_ => 0);
      this.disk, pending, command := disk, false, NoCommand;
    }

    method AbortCommand()
      modifies this`status, this`command
      ensures status == Status(false, false, true) && command == NoCommand
    {
      status := Status(false, false, true);
      command := NoCommand;
    }

    method TransferStart(size: nat, func: EndFunc)
      modifies this`endTransferFunc, this`dataIndex, this`dataEnd
      ensures endTransferFunc == func && dataIndex == 0 && dataEnd == size
    {
      endTransferFunc, dataIndex, dataEnd := func, 0, size;
    }

    method TransferStop()
      modifies this`endTransferFunc, this`dataIndex, this`dataEnd
      ensures endTransferFunc == EndFunc.TransferStop && dataIndex == 0 == dataEnd
    {
      endTransferFunc, dataIndex, dataEnd := EndFunc.TransferStop, 0, 0;
    }

    /** The block device fills the buffer. */
    method FillBuffer(num: nat, n: nat)
      requires SECTOR_SIZE * (num + n) <= |disk| && SECTOR_SIZE * n <= ioBuffer.Length
      modifies ioBuffer
      ensures ioBuffer[..SECTOR_SIZE * n] == disk[SECTOR_SIZE * num..SECTOR_SIZE * (num + n)]
    {
      for i := 0 to SECTOR_SIZE * n
        invariant ioBuffer[..i] == disk[SECTOR_SIZE * num..SECTOR_SIZE * num + i]
      {
        ioBuffer[i] := disk[SECTOR_SIZE * num + i];
      }
    }

    // ---- Reading --------------------------------------------------------------------------------------------

    /** Ask the disk for as many sectors as are left and fit a transfer. */
    method ReadSectors(outcome: Outcome)
      requires Moving0() && command == Reading && moved < total && disk == disk0
      requires port == disk[SECTOR_SIZE * first..SECTOR_SIZE * (first + moved)]
      modifies this`ioNbSectors, this`addr, this`nsector, this`endTransferFunc, this`dataIndex, this`dataEnd,
          this`status,
               this`pending, this`command, this`moved, ioBuffer
      ensures command == NoCommand <==> outcome == Failed
      ensures command == NoCommand ==> status.err && !pending && Shape()
      ensures command != NoCommand ==> command == Reading && if pending then ReadBusy() else ReadData()
      ensures pending <==> outcome == Later
      ensures moved == old(moved) + if outcome == AtOnce then ioNbSectors else 0
      ensures ioNbSectors == Min(Count(old(nsector)), reqNbSectors)
    {
      hide Counted, Showing;
      NextCount(addr, nsector, first, total, moved);
      var n := Min(Count(nsector), reqNbSectors);
      ioNbSectors := n;
      if outcome == Failed {
        AbortCommand();
        pending := false;
        return;
      }
      status := Status(true, false, false);
      pending := true;
      if outcome == AtOnce {
        ReadCallback();
      }
    }

    /** What holds between transfers of a read or write. */
    ghost predicate Moving0()
      reads this
    {
      && Shape() && 1 <= reqNbSectors <= MAX_MULT_SECTORS && Counted(addr, nsector, first, total, moved)
      && SECTOR_SIZE * (first + total) <= |disk| == |disk0| && command != NoCommand
    }

    /** The disk has the sectors asked for: they go into the buffer, and the host may read them. */
    method ReadCallback()
      requires ReadBusy() && command == Reading
      modifies this`addr, this`nsector, this`endTransferFunc, this`dataIndex, this`dataEnd, this`status, this`pending,
               this`moved, ioBuffer
      ensures ReadData() && moved == old(moved) + ioNbSectors
    {
      hide Counted, Showing, GetSector, SetSector, Overlay;
      var n := ioNbSectors;
      ghost var was := moved;
      NextCount(addr, nsector, first, total, moved);
      FillBuffer(GetSector(addr), n);
      Shown(disk, SECTOR_SIZE * first, SECTOR_SIZE * (first + was), ioBuffer[..], SECTOR_SIZE * n, port);
      Account(n);
      TransferStart(SECTOR_SIZE * n, if nsector == 0 then EndFunc.SectorReadEnd else EndFunc.SectorRead);
      pending := false;
      status := Status(false, true, false);
    }

    /** `n` sectors are done with. */
    method Account(n: nat)
      requires Counted(addr, nsector, first, total, moved) && moved < total && 1 <= n <= total - moved
      modifies this`addr, this`nsector, this`moved
      ensures Counted(addr, nsector, first, total, moved) && IsAddress(addr) && nsector < 256
      ensures moved == old(moved) + n && (nsector == 0 <==> moved == total)
    {
      hide Counted, GetSector, SetSector;
      Advanced(addr, nsector, first, total, moved, n);
      addr := SetSector(addr, GetSector(addr) + n);
      nsector := (nsector - n) % 256;
      moved := moved + n;
      ShapeOf(addr, nsector, first, total, moved);
    }

    /** The host reads a word from the data port. */
    method DataReadW(outcome: Outcome) returns (lo: Byte, hi: Byte)
      requires command == Reading && !pending
      requires Valid()
      modifies this`ioNbSectors, this`addr, this`nsector, this`endTransferFunc, this`dataIndex, this`dataEnd,
          this`status,
               this`pending, this`command, this`moved, this`port, ioBuffer
      ensures port == old(port) + [lo, hi] && old(dataIndex) + 1 < BUFFER_SIZE
      ensures command == NoCommand ==> status.err || ReadDone()
      ensures command == NoCommand || command == Reading
      ensures outcome != Failed && command == NoCommand ==> ReadDone() && !status.err
      ensures command == NoCommand || moved > old(moved)
              || (moved == old(moved)
                  && (pending || (dataEnd == old(dataEnd) && dataIndex == old(dataIndex) + 2 <= dataEnd)))
      ensures Valid()
    {
      hide Counted, Showing, GetSector, SetSector, Overlay;
      var p := dataIndex;
      ShowingBounds(disk, SECTOR_SIZE * first, SECTOR_SIZE * (first + moved - ioNbSectors), ioBuffer[..], dataEnd, p,
          port);
      lo, hi := ioBuffer[p], ioBuffer[p + 1];
      WordRead(disk, SECTOR_SIZE * first, SECTOR_SIZE * (first + moved - ioNbSectors), ioBuffer[..], dataEnd, p, port);
      p := p + 2;
      dataIndex := p;
      port := port + [lo, hi];
      if p >= dataEnd {
        ShownAll(disk, SECTOR_SIZE * first, SECTOR_SIZE * (first + moved - ioNbSectors), ioBuffer[..], dataEnd, port);
        EndRead(outcome);
      }
    }

    /** The transfer has ended: on to the next, or to the end. */
    method EndRead(outcome: Outcome)
      requires command == Reading && Moving0() && status == Status(false, true, false) && !pending && disk == disk0
      requires port == disk[SECTOR_SIZE * first..SECTOR_SIZE * (first + moved)]
      requires endTransferFunc == if moved == total then SectorReadEnd else SectorRead
      modifies this`ioNbSectors, this`addr, this`nsector, this`endTransferFunc, this`dataIndex, this`dataEnd,
          this`status,
               this`pending, this`command, this`moved, ioBuffer
      ensures command == NoCommand ==> status.err || ReadDone()
      ensures command == NoCommand || command == Reading
      ensures outcome != Failed && command == NoCommand ==> ReadDone() && !status.err
      ensures command == NoCommand || moved > old(moved) || (moved == old(moved) && pending)
      ensures Valid()
    {
      hide Counted, Showing, GetSector, SetSector, Overlay;
      if endTransferFunc == SectorRead {
        MovedLess(addr, nsector, first, total, moved);
        ReadSectors(outcome);
      } else {
        status := Status(false, false, false);
        TransferStop();
        command := NoCommand;
        AllCounted(addr, nsector, first, total);
      }
    }

    // ---- Writing --------------------------------------------------------------------------------------------

    /** Let the host fill the buffer with as many sectors as are left and fit a transfer. */
    method SectorWrite()
      requires Moving0() && command == Writing && moved < total && !pending
      requires Collecting(disk0, disk, SECTOR_SIZE * first, SECTOR_SIZE * moved, [], 0, port)
      modifies this`ioNbSectors, this`endTransferFunc, this`dataIndex, this`dataEnd, this`status
      ensures WriteData() && ioNbSectors == Min(Count(nsector), reqNbSectors)
    {
      hide Counted, Collecting, GetSector, SetSector;
      NextCount(addr, nsector, first, total, moved);
      ioNbSectors := Min(Count(nsector), reqNbSectors);
      TransferStart(SECTOR_SIZE * ioNbSectors, SectorWriteNext);
      status := Status(false, true, false);
      EmptyBuffer(disk0, disk, SECTOR_SIZE * first, SECTOR_SIZE * moved, [], ioBuffer[..], port);
    }

    /** The host writes a word to the data port. */
    method DataWriteW(lo: Byte, hi: Byte, outcome: Outcome)
      requires command == Writing && !pending
      requires Valid()
      modifies this`ioNbSectors, this`addr, this`nsector, this`endTransferFunc, this`dataIndex, this`dataEnd,
          this`status,
               this`pending, this`command, this`moved, this`port, this`disk, ioBuffer
      ensures port == old(port) + [lo, hi] && old(dataIndex) + 1 < BUFFER_SIZE
      ensures command == NoCommand || command == Writing
      ensures command == NoCommand ==> status.err || WriteDone()
      ensures outcome != Failed && command == NoCommand ==> WriteDone() && !status.err
      ensures command == NoCommand || moved > old(moved)
              || (moved == old(moved)
                  && (pending || (dataEnd == old(dataEnd) && dataIndex == old(dataIndex) + 2 <= dataEnd)))
      ensures Valid()
    {
      hide Counted, Collecting, GetSector, SetSector, Overlay;
      var p := dataIndex;
      ghost var buf := ioBuffer[..];
      WordWritten(disk0, disk, SECTOR_SIZE * first, SECTOR_SIZE * moved, buf, p, port, lo, hi);
      ioBuffer[p] := lo;
      ioBuffer[p + 1] := hi;
      assert ioBuffer[..] == Put2(buf, p, lo, hi);
      p := p + 2;
      dataIndex := p;
      port := port + [lo, hi];
      if p >= dataEnd {
        WriteSectors(outcome);
      }
    }

    /** Give the disk the sectors in the buffer. */
    method WriteSectors(outcome: Outcome)
      requires command == Writing && !pending && Moving() && moved + ioNbSectors <= total
      requires Collecting(disk0, disk, SECTOR_SIZE * first, SECTOR_SIZE * moved, ioBuffer[..],
               SECTOR_SIZE * ioNbSectors, port)
      modifies this`ioNbSectors, this`addr, this`nsector, this`endTransferFunc, this`dataIndex, this`dataEnd,
          this`status,
               this`pending, this`command, this`moved, this`disk
      ensures command == NoCommand || command == Writing
      ensures command == NoCommand ==> status.err || WriteDone()
      ensures outcome != Failed && command == NoCommand ==> WriteDone() && !status.err
      ensures command == NoCommand || moved > old(moved) || (moved == old(moved) && pending)
      ensures (pending <==> outcome == Later) && (outcome == Failed ==> command == NoCommand && status.err)
      ensures Valid()
    {
      hide Counted, Collecting, GetSector, SetSector, Overlay;
      TransferStop();
      if outcome == Failed {
        AbortCommand();
        return;
      }
      status := Status(true, false, false);
      pending := true;
      if outcome == AtOnce {
        WriteCallback();
      }
    }

    /** The disk has taken the sectors: on to the next, or to the end. */
    method WriteCallback()
      requires WriteBusy() && command == Writing
      modifies this`ioNbSectors, this`addr, this`nsector, this`endTransferFunc, this`dataIndex, this`dataEnd,
          this`status,
               this`pending, this`command, this`moved, this`disk
      ensures command == NoCommand || command == Writing
      ensures command == NoCommand ==> WriteDone() && !status.err
      ensures command == NoCommand || moved > old(moved)
      ensures !pending
      ensures Valid()
    {
      hide Counted, Collecting, GetSector, SetSector, Overlay;
      var n := ioNbSectors;
      NextCount(addr, nsector, first, total, moved);
      Stored(n);
      Account(n);
      pending := false;
      if nsector == 0 {
        status := Status(false, false, false);
        command := NoCommand;
        AllStored(disk0, disk, SECTOR_SIZE * first, SECTOR_SIZE * total, ioBuffer[..], port);
      } else {
        NotAll(addr, nsector, first, total, moved);
        EmptyBuffer(disk0, disk, SECTOR_SIZE * first, SECTOR_SIZE * moved, ioBuffer[..], [], port);
        SectorWrite();
      }
    }

    /** The block device stores the buffer. */
    method Stored(n: nat)
      requires Shape() && n <= MAX_MULT_SECTORS && SECTOR_SIZE * (first + moved + n) <= |disk0| && moved < total
      requires Counted(addr, nsector, first, total, moved)
      requires Collecting(disk0, disk, SECTOR_SIZE * first, SECTOR_SIZE * moved, ioBuffer[..], SECTOR_SIZE * n, port)
      modifies this`disk
      ensures Collecting(disk0, disk, SECTOR_SIZE * first, SECTOR_SIZE * (moved + n), ioBuffer[..], 0, port)
              && |disk| == |disk0|
    {
      hide Counted, Collecting, GetSector, Overlay;
      NextCount(addr, nsector, first, total, moved);
      BufferStored(disk0, disk, SECTOR_SIZE * first, SECTOR_SIZE * moved, ioBuffer[..], SECTOR_SIZE * n, port);
      assert ioBuffer[..SECTOR_SIZE * n] == ioBuffer[..][..SECTOR_SIZE * n];
      disk := Overlay(disk, SECTOR_SIZE * GetSector(addr), ioBuffer[..SECTOR_SIZE * n]);
    }

    // ---- Commands -------------------------------------------------------------------------------------------

    /** The registers name sectors that the mode can address and the disk has. */
    predicate InRange()
      reads this`addr, this`nsector, this`disk
    {
      && 0 <= GetSector(addr) && GetSector(addr) + Count(nsector) <= Limit(Lba(addr))
      && SECTOR_SIZE * (GetSector(addr) + Count(nsector)) <= |disk|
    }

    /** Start counting a command. */
    method StartCommand(c: Command, req: nat)
      requires Shape() && !pending && InRange() && 1 <= req <= MAX_MULT_SECTORS && c != NoCommand
      modifies this`command, this`reqNbSectors, this`disk0, this`first, this`total, this`moved, this`port
      ensures Moving0() && command == c && moved == 0 < total && port == [] && disk0 == disk && reqNbSectors == req
      ensures first == GetSector(addr) && total == Count(nsector)
    {
      hide GetSector, Limit;
      command := c;
      reqNbSectors := req;
      disk0, first, total, moved, port := disk, GetSector(addr), Count(nsector), 0, [];
    }

    /** READ SECTORS, or READ MULTIPLE. */
    method ExecRead(mult: bool, outcome: Outcome)
      requires command == NoCommand && InRange()
      requires Valid()
      modifies this, ioBuffer
      ensures disk == old(disk) && (command == NoCommand ==> status.err) && (command == NoCommand || command == Reading)
      ensures (mult && old(multSectors) == 0) || outcome == Failed <==> command == NoCommand
      ensures command == Reading ==> reqNbSectors == if mult then old(multSectors) else 1
      ensures command == Reading ==>
                first == GetSector(old(addr)) && total == Count(old(nsector)) && disk0 == old(disk) && port == []
                    && total - moved < 257
      ensures Valid()
    {
      hide GetSector, Limit, Counted, Showing;
      if mult && multSectors == 0 {
        AbortCommand();
        return;
      }
      StartCommand(Reading, if mult then multSectors else 1);
      assert disk[SECTOR_SIZE * first..SECTOR_SIZE * (first + moved)] == [];
      ReadSectors(outcome);
    }

    /** WRITE SECTORS, or WRITE MULTIPLE. */
    method ExecWrite(mult: bool)
      requires command == NoCommand && InRange()
      requires Valid()
      modifies this
      ensures disk == old(disk) && (command == NoCommand ==> status.err) && (command == NoCommand || command == Writing)
      ensures mult && old(multSectors) == 0 <==> command == NoCommand
      ensures command == Writing ==> reqNbSectors == if mult then old(multSectors) else 1
      ensures command == Writing ==>
                first == GetSector(old(addr)) && total == Count(old(nsector)) && disk0 == old(disk) && port == []
      ensures Valid()
    {
      hide GetSector, Limit, Counted, Collecting;
      if mult && multSectors == 0 {
        AbortCommand();
        return;
      }
      StartCommand(Writing, if mult then multSectors else 1);
      NothingStored(disk, SECTOR_SIZE * first);
      SectorWrite();
    }

    /** SET MULTIPLE: a power of two, at most 128; 0 turns multiple transfers off. */
    method ExecSetMult()
      requires command == NoCommand
      requires Valid()
      modifies this`multSectors, this`status, this`command
      ensures multSectors == if nsector <= MAX_MULT_SECTORS && (nsector == 0 || PowerOfTwo(nsector)) then nsector
              else old(multSectors)
      ensures status == Status(false, false, !(nsector <= MAX_MULT_SECTORS && (nsector == 0 || PowerOfTwo(nsector))))
      ensures Valid() && command == NoCommand
    {
      BitTest(nsector);
      if nsector > MAX_MULT_SECTORS || And(nsector, nsector - 1) != 0 {
        AbortCommand();
      } else {
        multSectors := nsector;
        status := Status(false, false, false);
      }
    }

    /** The disk's request completes. */
    method DiskDone()
      requires pending
      requires Valid()
      modifies this`ioNbSectors, this`addr, this`nsector, this`endTransferFunc, this`dataIndex, this`dataEnd,
          this`status,
               this`pending, this`command, this`moved, this`disk, ioBuffer
      ensures command == NoCommand || (command == old(command) && moved > old(moved))
      ensures old(command) == Reading ==> command == Reading && disk == old(disk)
      ensures old(command) == Writing && command == NoCommand ==> WriteDone() && !status.err
      ensures Valid()
    {
      hide Counted, Collecting, Showing;
      if command == Reading {
        ReadCallback();
      } else {
        WriteCallback();
      }
    }

    /** A whole read, the host taking words as they are offered: exactly the sectors asked for, in order. */
    method RunRead(mult: bool, outcomes: nat -> Outcome) returns (ok: bool)
      requires command == NoCommand && InRange()
      requires Valid()
      modifies this, ioBuffer
      ensures ok ==>
                var first := GetSector(old(addr));
                port == old(disk)[SECTOR_SIZE * first..SECTOR_SIZE * (first + Count(old(nsector)))]
      ensures ok ==> nsector == 0 && disk == old(disk)
      ensures !(mult && old(multSectors) == 0) && (forall k :: outcomes(k) != Failed) ==> ok
      ensures command == NoCommand && (ok <==> !status.err) && (ok ==> status == Status(false, false, false))
      ensures Valid()
    {
      hide Counted, Showing, GetSector, Limit, Collecting, ReadData, WriteData, ReadBusy, WriteBusy;
      var step := 0;
      ExecRead(mult, outcomes(0));
      if command == NoCommand {
        return false;
      }
      Within();
      while command != NoCommand
        invariant Valid() && (command == Reading || command == NoCommand) && disk0 == old(disk)
        invariant first == GetSector(old(addr)) && total == Count(old(nsector))
        invariant command != NoCommand ==> moved <= total && (!pending ==> dataIndex <= dataEnd)
        invariant command == NoCommand ==> status.err || ReadDone()
        invariant command == NoCommand && (forall k :: outcomes(k) != Failed) ==> !status.err && ReadDone()
        decreases if command == NoCommand then 0 else 1, total - moved, if pending then 0 else 1 + (dataEnd - dataIndex)
      {
        step := step + 1;
        Within();
        if pending {
          DiskDone();
        } else {
          var lo, hi := DataReadW(outcomes(step));
        }
        Within();
      }
      return !status.err;
    }

    /** A whole write, the host giving words as they are asked for: exactly the sectors asked for, in order, and no
        other. */
    method RunWrite(mult: bool, data: seq<Byte>, outcomes: nat -> Outcome) returns (ok: bool)
      requires command == NoCommand && InRange() && |data| == SECTOR_SIZE * Count(nsector)
      requires Valid()
      modifies this, ioBuffer
      ensures ok ==> nsector == 0 && disk == Overlay(old(disk), SECTOR_SIZE * GetSector(old(addr)), data)
      ensures !(mult && old(multSectors) == 0) && (forall k :: outcomes(k) != Failed) ==> ok
      ensures command == NoCommand && (ok <==> !status.err) && (ok ==> status == Status(false, false, false))
      ensures Valid()
    {
      hide Counted, Showing, GetSector, Limit, Collecting, ReadData, WriteData, ReadBusy, WriteBusy;
      var step, sent := 0, 0;
      ExecWrite(mult);
      if command == NoCommand {
        return false;
      }
      WithinWrite();
      while command != NoCommand
        invariant Valid() && (command == Writing || command == NoCommand) && disk0 == old(disk)
        invariant first == GetSector(old(addr)) && total == Count(old(nsector)) && port <= data && sent == |port|
        invariant command != NoCommand ==> moved <= total && (!pending ==> dataIndex <= dataEnd && |port| + 2 <= |data|)
        invariant command == NoCommand ==> status.err || WriteDone()
        invariant command == NoCommand && (forall k :: outcomes(k) != Failed) ==> !status.err && WriteDone()
        decreases if command == NoCommand then 0 else 1, total - moved, if pending then 0 else 1 + (dataEnd - dataIndex)
      {
        step := step + 1;
        if pending {
          DiskDone();
        } else {
          DataWriteW(data[sent], data[sent + 1], outcomes(step));
          sent := sent + 2;
        }
        WithinWrite();
      }
      return !status.err;
    }

    lemma WithinWrite()
      requires Valid() && (command == Writing || command == NoCommand)
      ensures command != NoCommand ==>
                moved <= total && (!pending ==> dataIndex <= dataEnd && |port| + 2 <= SECTOR_SIZE * total)
    {
    }

    lemma Within()
      requires Valid()
      ensures command != NoCommand ==> moved <= total && (!pending ==> dataIndex <= dataEnd)
    {
    }
  }

  ghost predicate CountedShape(a: Address, nsector: nat) {
    IsAddress(a) && nsector < 256
  }

  lemma ShapeOf(a: Address, nsector: nat, first: nat, total: nat, moved: nat)
    requires Counted(a, nsector, first, total, moved)
    ensures CountedShape(a, nsector)
  {
  }

  lemma Shown(disk: seq<Byte>, start: nat, base: nat, buf: seq<Byte>, len: nat, out: seq<Byte>)
    requires start <= base && base + len <= |disk| && len <= |buf| && buf[..len] == disk[base..base + len]
    requires out == disk[start..base]
    ensures Showing(disk, start, base, buf, len, 0, out)
  {
  }

  lemma AllCounted(a: Address, nsector: nat, first: nat, total: nat)
    requires Counted(a, nsector, first, total, total)
    ensures nsector == 0
  {
  }

  lemma MovedLess(a: Address, nsector: nat, first: nat, total: nat, moved: nat)
    requires Counted(a, nsector, first, total, moved) && moved != total
    ensures moved < total
  {
  }

  lemma ShowingBounds(disk: seq<Byte>, start: nat, base: nat, buf: seq<Byte>, len: nat, index: nat, out: seq<Byte>)
    requires Showing(disk, start, base, buf, len, index, out)
    ensures index <= len <= |buf|
  {
  }

  lemma ShownAll(disk: seq<Byte>, start: nat, base: nat, buf: seq<Byte>, len: nat, out: seq<Byte>)
    requires Showing(disk, start, base, buf, len, len, out)
    ensures start <= base + len <= |disk| && out == disk[start..base + len]
  {
  }

  /** Between transfers the buffer does not matter. */
  lemma EmptyBuffer(disk0: seq<Byte>, disk: seq<Byte>, start: nat, done: nat, a: seq<Byte>, b: seq<Byte>,
      inp: seq<Byte>)
    requires Collecting(disk0, disk, start, done, a, 0, inp)
    ensures Collecting(disk0, disk, start, done, b, 0, inp)
  {
    assert a[..0] == b[..0];
  }

  lemma AllStored(disk0: seq<Byte>, disk: seq<Byte>, start: nat, done: nat, buf: seq<Byte>, inp: seq<Byte>)
    requires Collecting(disk0, disk, start, done, buf, 0, inp)
    ensures |inp| == done && start + done <= |disk0| && disk == Overlay(disk0, start, inp)
  {
    assert inp[..done] == inp;
  }

  lemma NotAll(a: Address, nsector: nat, first: nat, total: nat, moved: nat)
    requires Counted(a, nsector, first, total, moved) && nsector != 0
    ensures moved < total
  {
  }

  lemma NothingStored(disk: seq<Byte>, start: nat)
    requires start <= |disk|
    ensures Collecting(disk, disk, start, 0, [], 0, [])
  {
  }
}
