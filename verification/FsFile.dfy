/** The contents of one regular file: a buffer that grows and shrinks in place. */
module FsFile {
  const FS_BLOCK_SIZE := 4096
  const P9_EIO := 5
  const P9_ENOSPC := 28
  const P9_EPROTO := 71
  const P9_O_RDONLY := 0
  const P9_O_WRONLY := 1
  const P9_O_NOACCESS := 3
  const TWO63 := 0x8000_0000_0000_0000
  const TWO64 := 0x1_0000_0000_0000_0000
  const ALLOC_LIMIT := 0x2000_0000_0000_0000   // no allocation is this large

  datatype RegState = LOCAL | UNLOADED | LOADING | LOADED

  // ---- What a file holds ------------------------------------------------------------------------------------

  function Zeros(n: nat): (z: seq<bv8>)
    ensures |z| == n
  {
    seq(n, _ => 0)
  }

  /** The contents at a new size: cut, or extended with zeros. */
  function Resized(c: seq<bv8>, size: nat): (r: seq<bv8>)
    ensures |r| == size
  {
    if size <= |c| then c[..size] else c + Zeros(size - |c|)
  }

  lemma SameSize(c: seq<bv8>)
    ensures Resized(c, |c|) == c
  {
  }

  lemma CutSize(c: seq<bv8>, size: nat)
    requires size <= |c|
    ensures Resized(c, size) == c[..size]
  {
  }

  function Max(a: nat, b: nat): nat {
    if a < b then b else a
  }

  /** The contents after writing `data` at `offset`. */
  function Written(c: seq<bv8>, offset: nat, data: seq<bv8>): (r: seq<bv8>) {
    var w := Resized(c, Max(|c|, offset + |data|));
    w[..offset] + data + w[offset + |data|..]
  }

  /** What a read of at most `count` bytes at `offset` returns. */
  function Slice(c: seq<bv8>, offset: nat, count: nat): seq<bv8> {
    if offset >= |c| then [] else if offset + count <= |c| then c[offset..offset + count] else c[offset..]
  }

  /** A read returns what was last written there. */
  lemma ReadWritten(c: seq<bv8>, offset: nat, data: seq<bv8>)
    ensures Slice(Written(c, offset, data), offset, |data|) == data
  {
    assert Written(c, offset, data)[offset..offset + |data|] == data;
  }

  /** A write elsewhere does not show; bytes between the old end and the write read as zeros. */
  lemma ReadBeside(c: seq<bv8>, offset: nat, data: seq<bv8>, i: nat)
    requires i < |Written(c, offset, data)| && !(offset <= i < offset + |data|)
    ensures Written(c, offset, data)[i] == if i < |c| then c[i] else 0
  {
  }

  /** What a shrink cuts off is gone: growing again gives zeros. */
  lemma RegrownIsZero(c: seq<bv8>, small: nat, large: nat)
    requires small <= |c| && small <= large
    ensures Resized(Resized(c, small), large) == c[..small] + Zeros(large - small)
  {
    if large == small {
      assert c[..small][..small] == c[..small] + Zeros(0);
    }
  }

  // ---- Machine arithmetic -----------------------------------------------------------------------------------

  /** A difference of two sizes as the signed 64-bit number the code computes. */
  function Diff(size: nat, old_: nat): int {
    var d := (size - old_) % TWO64;
    if d >= TWO63 then d - TWO64 else d
  }

  lemma DiffSign(size: nat, old_: nat)
    requires size < TWO64 && old_ < TWO64
    ensures Diff(size, old_) == 0 <==> size == old_
    ensures Diff(size, old_) > 0 <==> old_ < size < old_ + TWO63 || size < old_ - TWO63
  {
  }

  function ToBlocks(size: nat): nat {
    (size + FS_BLOCK_SIZE - 1) % TWO64 / FS_BLOCK_SIZE
  }

  /** The blocks hold the bytes and one fewer would not, unless the 64-bit sum that rounds them up wraps around. */
  lemma BlocksCover(size: nat)
    requires size < TWO64
    ensures var b := ToBlocks(size);
            (size <= b * FS_BLOCK_SIZE && (b > 0 ==> (b - 1) * FS_BLOCK_SIZE < size)) <==> size + 4095 < TWO64
  {
  }

  class FSAccounts {
    var fsBlocks: int
    var fsMaxBlocks: nat
    var inodeCacheSize: int

    constructor (fsMaxBlocks: nat)
      ensures this.fsMaxBlocks == fsMaxBlocks && fsBlocks == 0 && inodeCacheSize == 0
    {
      this.fsMaxBlocks, fsBlocks, inodeCacheSize := fsMaxBlocks, 0, 0;
    }
  }

  class FileBuffer {
    var data: array<bv8>

    constructor ()
      ensures fresh(data) && data.Length == 0
    {
      data := new bv8[0];
    }

    /** `granted` says whether the allocator delivers, which it need not for no bytes; new bytes are arbitrary. */
    method Resize(newSize: nat, granted: bool) returns (ok: bool)
      modifies this
      ensures ok == (granted || newSize == 0)
      ensures !ok ==> data == old(data)
      ensures ok ==> fresh(data) && data.Length == newSize
      ensures ok ==> forall i :: 0 <= i < newSize && i < old(data.Length) ==> data[i] == old(data[i])
    {
      if !granted && newSize != 0 {
        return false;
      }
      var newData := new bv8[newSize];
      var n := if newSize < data.Length then newSize else data.Length;
      for i := 0 to n
        modifies newData
        invariant forall j :: 0 <= j < i ==> newData[j] == data[j]
      {
        newData[i] := data[i];
      }
      data := newData;
      return true;
    }

    method Write(offset: nat, buf: seq<bv8>)
      requires offset + |buf| <= data.Length
      modifies data
      ensures forall i :: 0 <= i < data.Length ==>
                data[i] == if offset <= i < offset + |buf| then buf[i - offset] else old(data[i])
    {
      for k := 0 to |buf|
        modifies data
        invariant forall i :: 0 <= i < data.Length ==>
                    data[i] == if offset <= i < offset + k then buf[i - offset] else old(data[i])
      {
        data[offset + k] := buf[k];
      }
    }

    method Set(offset: nat, val: bv8, size: nat)
      requires offset + size <= data.Length
      modifies data
      ensures forall i :: 0 <= i < data.Length ==> data[i] == if offset <= i < offset + size then val else old(data[i])
    {
      for k := 0 to size
        modifies data
        invariant forall i :: 0 <= i < data.Length ==> data[i] == if offset <= i < offset + k then val else old(data[i])
      {
        data[offset + k] := val;
      }
    }

    method Read(offset: nat, size: nat) returns (buf: seq<bv8>)
      requires offset + size <= data.Length
      ensures buf == data[offset..offset + size]
    {
      buf := data[offset..offset + size];
    }
  }

  class RegFile {
    const fs: FSAccounts
    const fbuf: FileBuffer
    var state: RegState
    var size: nat

    ghost predicate Shape()
      reads this, fbuf
    {
      size < TWO64 && fbuf.data.Length < ALLOC_LIMIT
    }

    /** The contents are in the buffer. */
    ghost predicate InBuffer()
      reads this`state, this`size, fbuf
    {
      (state == LOCAL || state == LOADED) && size <= fbuf.data.Length
    }

    ghost predicate Valid()
      reads this, fbuf
    {
      Shape() && (state == LOCAL || state == LOADED ==> InBuffer())
    }

    ghost function Contents(): (c: seq<bv8>)
      requires InBuffer()
      reads this`state, this`size, fbuf, fbuf.data
      ensures |c| == size
    {
      fbuf.data[..size]
    }

    /** What this file adds to the accounts. */
    ghost function BlocksElsewhere(): int
      reads this`size, fs`fsBlocks
    {
      fs.fsBlocks - ToBlocks(size)
    }

    ghost function CachedElsewhere(): int
      reads this`state, this`size, fs`inodeCacheSize
    {
      fs.inodeCacheSize - if state == LOADED then size else 0
    }

    constructor (fs: FSAccounts)
      ensures Valid() && state == LOCAL && size == 0 && this.fs == fs && fresh(fbuf) && fresh(fbuf.data)
    {
      this.fs, state, size := fs, LOCAL, 0;
      fbuf := new FileBuffer();
    }

    /** Make room for `newSize` bytes, a quarter more than there is if that suffices, and clear the new ones. */
    method Grow(newSize: nat, granted: bool) returns (ok: bool)
      requires Shape() && InBuffer() && newSize > size
      requires granted ==> Max(newSize, fbuf.data.Length * 5 / 4) < ALLOC_LIMIT
      modifies fbuf, fbuf.data
      ensures ok == (newSize <= old(fbuf.data.Length) || granted)
      ensures !ok ==> fbuf.data == old(fbuf.data) && fbuf.data[..] == old(fbuf.data[..])
      ensures ok ==>
                newSize <= fbuf.data.Length < ALLOC_LIMIT && fbuf.data[..newSize] == Resized(old(Contents()), newSize)
      ensures ok ==>
                fbuf.data.Length == if newSize <= old(fbuf.data.Length) then old(fbuf.data.Length)
                                    else Max(newSize, old(fbuf.data.Length) * 5 / 4)
      ensures fbuf.data != old(fbuf.data) ==> fresh(fbuf.data)
    {
      if newSize > fbuf.data.Length {
        var newAllocatedSize := fbuf.data.Length * 5 / 4;
        if newSize > newAllocatedSize {
          newAllocatedSize := newSize;
        }
        ok := fbuf.Resize(newAllocatedSize, granted);
        if !ok {
          return;
        }
      }
      ok := true;
      fbuf.Set(size, 0, newSize - size);
    }

    /** Give memory back once a fifth of it is unused. */
    method Shrink(newSize: nat, granted: bool) returns (ok: bool)
      requires Shape() && InBuffer() && (newSize < size || newSize >= ALLOC_LIMIT)
      modifies fbuf
      ensures ok == (newSize > old(fbuf.data.Length) * 4 / 5 || granted || old(fbuf.data.Length) * 4 / 5 == 0)
      ensures !ok ==> fbuf.data == old(fbuf.data)
      ensures ok ==> fbuf.data.Length == var less := old(fbuf.data.Length) * 4 / 5;
                                         if newSize <= less then less else old(fbuf.data.Length)
      ensures ok && newSize < size ==> newSize <= fbuf.data.Length && fbuf.data[..newSize] == old(Contents())[..newSize]
      ensures fbuf.data.Length < ALLOC_LIMIT
      ensures fbuf.data != old(fbuf.data) ==> fresh(fbuf.data)
    {
      var newAllocatedSize := fbuf.data.Length * 4 / 5;
      ok := true;
      if newSize <= newAllocatedSize {
        ok := fbuf.Resize(newAllocatedSize, granted);
      }
    }

    /** Nothing about the file or the accounts differs. */
    twostate predicate Unchanged()
      reads this, fbuf, fbuf.data, fs
    {
      state == old(state) && size == old(size) && fbuf.data == old(fbuf.data) && fbuf.data[..] == old(fbuf.data[..])
      && fs.fsBlocks == old(fs.fsBlocks) && fs.inodeCacheSize == old(fs.inodeCacheSize)
    }

    /** Resizing a file in the buffer is refused for the quota, or for want of memory. */
    ghost predicate Refused(newSize: nat, granted: bool)
      reads this`size, fbuf, fs`fsBlocks, fs`fsMaxBlocks
    {
      if newSize > size then
        fs.fsBlocks + ToBlocks(newSize) - ToBlocks(size) > fs.fsMaxBlocks || (newSize > fbuf.data.Length && !granted)
      else
        var less := fbuf.data.Length * 4 / 5;
        newSize < size && newSize <= less && less != 0 && !granted
    }

    /** Set the size. `newSize - size` is computed in 64 bits: from 2^63 on it reads as a shrink, and the contract says
        what then happens. */
    method Truncate(newSize: nat, granted: bool) returns (ret: int)
      requires Valid() && newSize < TWO64 && (granted ==> Max(newSize, fbuf.data.Length * 5 / 4) < ALLOC_LIMIT)
      modifies this, fbuf, fbuf.data, fs`fsBlocks, fs`inodeCacheSize
      ensures ret in {0, -P9_EIO, -P9_ENOSPC} && fs.fsMaxBlocks == old(fs.fsMaxBlocks)
      ensures ret != 0 ==> Unchanged()
      ensures ret == 0 ==> size == newSize
      ensures BlocksElsewhere() == old(BlocksElsewhere()) && CachedElsewhere() == old(CachedElsewhere())
      ensures ret == -P9_EIO <==> old(state) == LOADING && newSize != old(size)
      ensures old(InBuffer()) && newSize < old(size) + TWO63 ==>
                && (ret == -P9_ENOSPC <==> newSize != old(size) && old(Refused(newSize, granted)))
                && (ret == 0 ==> InBuffer() && Contents() == Resized(old(Contents()), newSize))
                && (ret == 0 ==> state == if newSize == old(size) then old(state) else LOCAL)
      ensures old(InBuffer()) && newSize >= old(size) + TWO63 ==>
                ret == 0 && newSize > fbuf.data.Length && state == LOCAL
      ensures old(state) == UNLOADED ==>
                && ret == 0 && state == (if newSize == 0 && old(size) != 0 then LOCAL else UNLOADED)
                && fbuf.data == old(fbuf.data) && fbuf.data[..] == old(fbuf.data[..])
      ensures newSize < old(size) + TWO63 ==> Valid()
      ensures fbuf.data != old(fbuf.data) ==> fresh(fbuf.data)
    {
      hide ToBlocks, Resized, Diff;
      DiffSign(newSize, size);
      var diff := Diff(newSize, size);
      if diff == 0 {
        SameSize(if InBuffer() then fbuf.data[..size] else []);
        return 0;
      }
      var diffBlocks := ToBlocks(newSize) - ToBlocks(size);
      match state {
        case LOADING =>
          return -P9_EIO;
        case UNLOADED =>
          if newSize == 0 {
            state := LOCAL;
          }
        case _ =>
          var ok: bool;
          if newSize < size {
            CutSize(fbuf.data[..size], newSize);
          }
          if diff > 0 {
            if fs.fsBlocks + diffBlocks > fs.fsMaxBlocks {
              return -P9_ENOSPC;
            }
            ok := Grow(newSize, granted);
          } else {
            ok := Shrink(newSize, granted);
          }
          if !ok {
            return -P9_ENOSPC;
          }
          if state == LOADED {
            fs.inodeCacheSize := fs.inodeCacheSize - size;
            state := LOCAL;
          }
      }
      fs.fsBlocks := fs.fsBlocks + diffBlocks;
      size := newSize;
      return 0;
    }

    /** Read through a handle. A handle is only open on a file in the buffer. */
    method Read(isOpened: bool, openFlags: nat, offset: nat, count: nat) returns (ret: int, buf: seq<bv8>)
      requires isOpened ==> InBuffer()
      ensures !isOpened ==> ret == -P9_EPROTO
      ensures isOpened && openFlags % 4 == P9_O_WRONLY ==> ret == -P9_EIO
      ensures isOpened && openFlags % 4 != P9_O_WRONLY ==> buf == Slice(Contents(), offset, count) && ret == |buf|
    {
      if !isOpened {
        return -P9_EPROTO, [];
      }
      if openFlags % (P9_O_NOACCESS + 1) == P9_O_WRONLY {
        return -P9_EIO, [];
      }
      if offset >= size {
        return 0, [];
      }
      var n := if size - offset < count then size - offset else count;
      buf := fbuf.Read(offset, n);
      return n, buf;
    }

    /** Write through a handle: all of `buf` or nothing. But where the end is computed in 64 bits and comes out wrong,
        the bytes go to memory that is not the file's. */
    method Write(isOpened: bool, openFlags: nat, offset: nat, buf: seq<bv8>, granted: bool) returns (ret: int,
        escaped: bool)
      requires Valid() && (isOpened ==> InBuffer())
      requires offset < TWO64 && |buf| < 0x8000_0000
      requires granted ==> Max(EndOf(offset, buf), fbuf.data.Length * 5 / 4) < ALLOC_LIMIT
      modifies this, fbuf, fbuf.data, fs`fsBlocks, fs`inodeCacheSize
      ensures fs.fsMaxBlocks == old(fs.fsMaxBlocks)
      ensures BlocksElsewhere() == old(BlocksElsewhere()) && CachedElsewhere() == old(CachedElsewhere())
      ensures ret == old(WriteResult(isOpened, openFlags, offset, buf, granted))
      ensures ret <= 0 ==> Unchanged()
      ensures (escaped <==> ret > 0 && old(Escapes(offset, buf))) && (escaped ==> state == LOCAL)
      ensures ret > 0 && !escaped ==>
                InBuffer() && Contents() == Written(old(Contents()), offset, buf) && state == LOCAL
      ensures !escaped ==> Valid()
    {
      hide ToBlocks, Resized, Refused, Max;
      escaped := false;
      if !isOpened {
        return -P9_EPROTO, false;
      }
      if openFlags % (P9_O_NOACCESS + 1) == P9_O_RDONLY {
        return -P9_EIO, false;
      }
      if buf == [] {
        return 0, false;
      }
      var end := EndOf(offset, buf);
      ghost var c := Contents();
      EndIs(offset, buf);
      WriteGrows(c, offset, buf);
      if end > size {
        ret := Truncate(end, granted);
        if ret != 0 {
          return;
        }
      }
      if offset + |buf| > fbuf.data.Length {
        Touch();
        return |buf|, true;
      }
      StoreAt(offset, buf, c);
      return |buf|, false;
    }

    /** A modified file is local. */
    method Touch()
      requires state == LOCAL || state == LOADED
      modifies this`state, fs`inodeCacheSize
      ensures state == LOCAL && CachedElsewhere() == old(CachedElsewhere())
    {
      if state == LOADED {
        fs.inodeCacheSize := fs.inodeCacheSize - size;
        state := LOCAL;
      }
    }

    /** A write that is carried out misses the buffer. */
    ghost predicate Escapes(offset: nat, buf: seq<bv8>)
      reads this`size
    {
      offset + |buf| >= TWO64 || offset + |buf| >= size + TWO63
    }

    /** The bytes are in place and the file is local. */
    method StoreAt(offset: nat, buf: seq<bv8>, ghost c: seq<bv8>)
      requires Valid() && InBuffer() && offset + |buf| <= size && Contents() == Resized(c, Max(|c|, offset + |buf|))
      modifies this`state, fbuf.data, fs`inodeCacheSize
      ensures Valid() && InBuffer() && Contents() == Written(c, offset, buf) && state == LOCAL
      ensures CachedElsewhere() == old(CachedElsewhere())
    {
      hide ToBlocks, Resized;
      Touch();
      ghost var w := Contents();
      fbuf.Write(offset, buf);
      assert Contents() == w[..offset] + buf + w[offset + |buf|..];
    }

    /** What a write returns. */
    ghost function WriteResult(isOpened: bool, openFlags: nat, offset: nat, buf: seq<bv8>, granted: bool): int
      reads this`size, fbuf, fs`fsBlocks, fs`fsMaxBlocks
    {
      if !isOpened then -P9_EPROTO
      else if openFlags % 4 == P9_O_RDONLY then -P9_EIO
      else if size < EndOf(offset, buf) < size + TWO63 && buf != []
          && Refused(EndOf(offset, buf), granted) then -P9_ENOSPC
      else |buf|
    }
  }

  /** The end of a write, as the code computes it. */
  function EndOf(offset: nat, buf: seq<bv8>): nat {
    (offset + |buf|) % TWO64
  }

  lemma EndIs(offset: nat, buf: seq<bv8>)
    requires offset < TWO64 && |buf| < 0x8000_0000
    ensures EndOf(offset, buf) == if offset + |buf| < TWO64 then offset + |buf| else offset + |buf| - TWO64
  {
  }

  lemma WriteGrows(c: seq<bv8>, offset: nat, buf: seq<bv8>)
    ensures offset + |buf| > |c| ==> Max(|c|, offset + |buf|) == offset + |buf|
    ensures offset + |buf| <= |c| ==> Resized(c, Max(|c|, offset + |buf|)) == c
  {
  }

  /** The least size that goes wrong: an empty file resized to 2^63 has no buffer to hold it. */
  method HugeResize() returns (f: RegFile, ret: int)
    ensures ret == 0 && f.size == TWO63 && f.fbuf.data.Length < f.size
  {
    var fs := new FSAccounts(0);
    f := new RegFile(fs);
    ret := f.Truncate(TWO63, false);
  }
}
