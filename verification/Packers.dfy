/** How method arguments are packed into 32-bit words and unpacked again. */
module Packers {
  import opened Wrappers

  type Word = Word32
  type Byte = x: nat | x < 256

  // ---- The layout -------------------------------------------------------------------------------------------

  /** Words as one number, the first the most significant. */
  function Value(w: seq<Word>): nat {
    if w == [] then 0 else Value(w[..|w| - 1]) * 0x1_0000_0000 + w[|w| - 1] as int
  }

  /** An argument and how many values its type has. */
  datatype Field = Field(value: nat, values: nat)

  /** Arguments as one number, the first the most significant. */
  function Number(fs: seq<Field>): nat {
    if fs == [] then 0 else Number(fs[..|fs| - 1]) * fs[|fs| - 1].values + fs[|fs| - 1].value
  }

  const U8 := 0x100
  const U16 := 0x1_0000
  const U32 := 0x1_0000_0000
  const U64 := 0x1_0000_0000_0000_0000

  lemma ValueMore(w: seq<Word>, x: Word)
    ensures Value(w + [x]) == Value(w) * 0x1_0000_0000 + x as int
  {
    assert (w + [x])[..|w|] == w;
  }

  lemma NumberMore(fs: seq<Field>, f: Field)
    ensures Number(fs + [f]) == Number(fs) * f.values + f.value
  {
    assert (fs + [f])[..|fs|] == fs;
  }

  lemma Value1(x: Word)
    ensures Value([x]) == x as int
  {
    ValueMore([], x);
    assert [] + [x] == [x];
  }

  lemma Value2(x: Word, y: Word)
    ensures Value([x, y]) == x as int * 0x1_0000_0000 + y as int
  {
    Value1(x);
    ValueMore([x], y);
    assert [x] + [y] == [x, y];
  }

  lemma Value3(x: Word, y: Word, z: Word)
    ensures Value([x, y, z]) == (x as int * 0x1_0000_0000 + y as int) * 0x1_0000_0000 + z as int
  {
    Value2(x, y);
    ValueMore([x, y], z);
    assert [x, y] + [z] == [x, y, z];
  }

  lemma Number1(a: Field)
    ensures Number([a]) == a.value
  {
    NumberMore([], a);
    assert [] + [a] == [a] && Number([]) == 0;
  }

  lemma Number2(a: Field, b: Field)
    ensures Number([a, b]) == a.value * b.values + b.value
  {
    Number1(a);
    NumberMore([a], b);
    assert [a] + [b] == [a, b];
  }

  // ---- Arguments --------------------------------------------------------------------------------------------

  /** Reply to a read: one beat of data. */
  datatype Rdata = Rdata(data: nat, rid: nat, rresp: nat, last: nat)

  predicate RdataOk(a: Rdata) {
    a.data < 0x1_0000_0000_0000_0000 && a.rid < 0x1_0000 && a.rresp < 0x100 && a.last < 2
  }

  /** The low seven bits of the data share the last word with the other arguments. */
  function PackRdata(a: Rdata): (w: seq<Word>)
    requires RdataOk(a)
  {
    [a.data / 0x80_0000_0000,
     a.data / 0x80 % 0x1_0000_0000,
     a.last + a.rresp * 2 + a.rid * 0x200 + a.data % 0x80 * 0x200_0000]
  }

  function UnpackRdata(w: seq<Word>): Rdata
    requires |w| == 3
  {
    Rdata(w[0] % 0x200_0000 * 0x80_0000_0000 + w[1] as int * 0x80 + w[2] / 0x200_0000,
          w[2] / 0x200 % 0x1_0000, w[2] / 2 % 0x100, w[2] % 2)
  }

  lemma RdataData(data: nat, low: nat)
    requires data < 0x1_0000_0000_0000_0000 && low < 0x200_0000
    ensures data / 0x80_0000_0000 % 0x200_0000 * 0x80_0000_0000 + data / 0x80 % 0x1_0000_0000 * 0x80
            + (low + data % 0x80 * 0x200_0000) / 0x200_0000 == data
  {
    assert data == data / 0x80 * 0x80 + data % 0x80;
    assert data / 0x80 == data / 0x80_0000_0000 * 0x1_0000_0000 + data / 0x80 % 0x1_0000_0000;
  }

  lemma RdataFields(last: nat, rresp: nat, rid: nat, high: nat)
    requires last < 2 && rresp < 0x100 && rid < 0x1_0000 && high < 0x80
    ensures var w := last + rresp * 2 + rid * 0x200 + high * 0x200_0000;
            w % 2 == last && w / 2 % 0x100 == rresp && w / 0x200 % 0x1_0000 == rid
                && last + rresp * 2 + rid * 0x200 < 0x200_0000
  {
  }

  lemma RdataRoundTrip(a: Rdata)
    requires RdataOk(a)
    ensures UnpackRdata(PackRdata(a)) == a
  {
    RdataFields(a.last, a.rresp, a.rid, a.data % 0x80);
    RdataData(a.data, a.last + a.rresp * 2 + a.rid * 0x200);
  }

  /** The arguments in their order fill the words from the low end. */
  lemma RdataLayout(a: Rdata)
    requires RdataOk(a)
    ensures Value(PackRdata(a))
            == Number([Field(a.data, U64), Field(a.rid, U16), Field(a.rresp, U8), Field(a.last, 2)])
  {
    var w := PackRdata(a);
    Value3(w[0], w[1], w[2]);
    var d, e, f, g := Field(a.data, U64), Field(a.rid, U16), Field(a.rresp, U8), Field(a.last, 2);
    Number2(d, e);
    NumberMore([d, e], f);
    NumberMore([d, e, f], g);
    assert [d, e] + [f] == [d, e, f] && [d, e, f] + [g] == [d, e, f, g];
    hide Value, Number;
    DataParts(a.data);
    RdataSum(a.data, w[0], w[1], a.data % 0x80, a.rid, a.rresp, a.last);
  }

  lemma DataParts(d: nat)
    ensures d == (d / 0x80_0000_0000 * 0x1_0000_0000 + d / 0x80 % 0x1_0000_0000) * 0x80 + d % 0x80
  {
    assert d == d / 0x80 * 0x80 + d % 0x80;
    assert d / 0x80 == d / 0x80_0000_0000 * 0x1_0000_0000 + d / 0x80 % 0x1_0000_0000;
  }

  lemma RdataSum(d: nat, x: nat, y: nat, z: nat, rid: nat, rresp: nat, last: nat)
    requires d == (x * 0x1_0000_0000 + y) * 0x80 + z
    ensures (x * 0x1_0000_0000 + y) * 0x1_0000_0000 + (last + rresp * 2 + rid * 0x200 + z * 0x200_0000)
            == ((d * U16 + rid) * U8 + rresp) * 2 + last
  {
  }

  /** A write burst is done. */
  datatype Bdone = Bdone(bid: nat, bresp: nat)

  predicate BdoneOk(a: Bdone) {
    a.bid < 0x1_0000 && a.bresp < 0x100
  }

  function PackBdone(a: Bdone): (w: seq<Word>)
    requires BdoneOk(a)
  {
    [a.bresp + a.bid * 0x100]
  }

  function UnpackBdone(w: seq<Word>): Bdone
    requires |w| == 1
  {
    Bdone(w[0] / 0x100 % 0x1_0000, w[0] % 0x100)
  }

  lemma BdoneRoundTrip(a: Bdone)
    requires BdoneOk(a)
    ensures UnpackBdone(PackBdone(a)) == a
  {
  }

  lemma BdoneLayout(a: Bdone)
    requires BdoneOk(a)
    ensures Value(PackBdone(a)) == Number([Field(a.bid, U16), Field(a.bresp, U8)])
  {
    Value1(PackBdone(a)[0]);
    Number2(Field(a.bid, U16), Field(a.bresp, U8));
  }

  /** The address of a burst, read or write: both are packed alike. */
  datatype Burst = Burst(addr: nat, len: nat, id: nat)

  predicate BurstOk(a: Burst) {
    a.addr < 0x1_0000_0000 && a.len < 0x1_0000 && a.id < 0x1_0000
  }

  function PackBurst(a: Burst): (w: seq<Word>)
    requires BurstOk(a)
  {
    [a.addr, a.id + a.len * 0x1_0000]
  }

  function UnpackBurst(w: seq<Word>): Burst
    requires |w| == 2
  {
    Burst(w[0], w[1] / 0x1_0000, w[1] % 0x1_0000)
  }

  lemma BurstRoundTrip(a: Burst)
    requires BurstOk(a)
    ensures UnpackBurst(PackBurst(a)) == a
  {
  }

  lemma BurstLayout(a: Burst)
    requires BurstOk(a)
    ensures Value(PackBurst(a)) == Number([Field(a.addr, U32), Field(a.len, U16), Field(a.id, U16)])
  {
    var w := PackBurst(a);
    Value2(w[0], w[1]);
    var d, e, f := Field(a.addr, U32), Field(a.len, U16), Field(a.id, U16);
    Number2(d, e);
    NumberMore([d, e], f);
    assert [d, e] + [f] == [d, e, f];
  }

  /** A beat of write data. */
  datatype Wdata = Wdata(data: nat, strb: nat)

  predicate WdataOk(a: Wdata) {
    a.data < 0x1_0000_0000_0000_0000 && a.strb < 0x100
  }

  function PackWdata(a: Wdata): (w: seq<Word>)
    requires WdataOk(a)
  {
    [a.data / 0x100_0000_0000_0000, a.data / 0x100_0000 % 0x1_0000_0000, a.strb + a.data % 0x100_0000 * 0x100]
  }

  function UnpackWdata(w: seq<Word>): Wdata
    requires |w| == 3
  {
    Wdata(w[0] % 0x100 * 0x100_0000_0000_0000 + w[1] as int * 0x100_0000 + w[2] / 0x100, w[2] % 0x100)
  }

  lemma WdataRoundTrip(a: Wdata)
    requires WdataOk(a)
    ensures UnpackWdata(PackWdata(a)) == a
  {
    var d := a.data;
    assert d == d / 0x100_0000 * 0x100_0000 + d % 0x100_0000;
    assert d / 0x100_0000 == d / 0x100_0000_0000_0000 * 0x1_0000_0000 + d / 0x100_0000 % 0x1_0000_0000;
    WdataLow(a.strb, d % 0x100_0000);
  }

  lemma WdataLayout(a: Wdata)
    requires WdataOk(a)
    ensures Value(PackWdata(a)) == Number([Field(a.data, U64), Field(a.strb, U8)])
  {
    var w, d := PackWdata(a), a.data;
    Value3(w[0], w[1], w[2]);
    Number2(Field(d, U64), Field(a.strb, U8));
    hide Value, Number;
    BeatParts(d);
    WdataSum(d, w[0], w[1], d % 0x100_0000, a.strb);
  }

  lemma BeatParts(d: nat)
    ensures d == (d / 0x100_0000_0000_0000 * 0x1_0000_0000 + d / 0x100_0000 % 0x1_0000_0000) * 0x100_0000
            + d % 0x100_0000
  {
    assert d == d / 0x100_0000 * 0x100_0000 + d % 0x100_0000;
    assert d / 0x100_0000 == d / 0x100_0000_0000_0000 * 0x1_0000_0000 + d / 0x100_0000 % 0x1_0000_0000;
  }

  lemma WdataSum(d: nat, x: nat, y: nat, z: nat, strb: nat)
    requires d == (x * 0x1_0000_0000 + y) * 0x100_0000 + z
    ensures (x * 0x1_0000_0000 + y) * 0x1_0000_0000 + (strb + z * 0x100) == d * U8 + strb
  {
  }

  lemma WdataLow(strb: nat, low: nat)
    requires strb < 0x100
    ensures (strb + low * 0x100) / 0x100 == low && (strb + low * 0x100) % 0x100 == strb
  {
  }

  // ---- A line of memory -------------------------------------------------------------------------------------

  datatype DdrWrite = DdrWrite(addr: nat, data: seq<Byte>, byteEnable: nat)

  predicate DdrWriteOk(a: DdrWrite) {
    a.addr < 0x1_0000_0000 && |a.data| == 64 && a.byteEnable < 0x1_0000_0000_0000_0000
  }

  /** Four bytes of the line, the first the most significant. */
  function WordAt(data: seq<Byte>, k: nat): Word
    requires 4 * k + 4 <= |data|
  {
    data[4 * k + 3] as int + data[4 * k + 2] as int * 0x100 + data[4 * k + 1] as int * 0x1_0000
    + data[4 * k] as int * 0x100_0000
  }

  function PackDdrWrite(a: DdrWrite): (w: seq<Word>)
    requires DdrWriteOk(a)
    ensures |w| == 19
  {
    [a.addr] + seq(16, k requires 0 <= k < 16 => WordAt(a.data, k))
    + [a.byteEnable / 0x1_0000_0000, a.byteEnable % 0x1_0000_0000]
  }

  function ByteAt(w: nat, i: nat): Byte
    requires i < 4
  {
    (if i == 0 then w / 0x100_0000 else if i == 1 then w / 0x1_0000 else if i == 2 then w / 0x100 else w) % 0x100
  }

  function UnpackDdrWrite(w: seq<Word>): DdrWrite
    requires |w| == 19
  {
    DdrWrite(w[0], seq(64, j requires 0 <= j < 64 => ByteAt(w[1 + j / 4], j % 4)), w[17] as int * 0x1_0000_0000
        + w[18] as int)
  }

  lemma ByteOfWord(data: seq<Byte>, k: nat, i: nat)
    requires 4 * k + 4 <= |data| && i < 4
    ensures ByteAt(WordAt(data, k), i) == data[4 * k + i]
  {
    FourBytes(data[4 * k], data[4 * k + 1], data[4 * k + 2], data[4 * k + 3]);
  }

  lemma FourBytes(a: nat, b: nat, c: nat, d: nat)
    requires a < 0x100 && b < 0x100 && c < 0x100 && d < 0x100
    ensures var w := d + c * 0x100 + b * 0x1_0000 + a * 0x100_0000;
            w / 0x100_0000 % 0x100 == a && w / 0x1_0000 % 0x100 == b && w / 0x100 % 0x100 == c && w % 0x100 == d
  {
    var w := d + c * 0x100 + b * 0x1_0000 + a * 0x100_0000;
    LowByte(c + b * 0x100 + a * 0x1_0000, d);
    LowByte(b + a * 0x100, c);
    LowByte(a, b);
    DivTwice(w);
  }

  lemma LowByte(q: nat, r: nat)
    requires r < 0x100
    ensures (q * 0x100 + r) / 0x100 == q && (q * 0x100 + r) % 0x100 == r
  {
  }

  lemma DivTwice(w: nat)
    ensures w / 0x1_0000 == w / 0x100 / 0x100 && w / 0x100_0000 == w / 0x100 / 0x100 / 0x100
  {
  }

  lemma DdrWriteRoundTrip(a: DdrWrite)
    requires DdrWriteOk(a)
    ensures UnpackDdrWrite(PackDdrWrite(a)) == a
  {
    var w := PackDdrWrite(a);
    var u := UnpackDdrWrite(w);
    forall j | 0 <= j < 64
      ensures u.data[j] == a.data[j]
    {
      LineByte(a, w, j);
    }
    assert u.data == a.data;
  }

  function ByteFields(data: seq<Byte>, n: nat): seq<Field>
    requires n <= |data|
  {
    if n == 0 then [] else ByteFields(data, n - 1) + [Field(data[n - 1], U8)]
  }

  lemma DdrWriteLayout(a: DdrWrite)
    requires DdrWriteOk(a)
    ensures Value(PackDdrWrite(a))
            == Number([Field(a.addr, U32)] + ByteFields(a.data, 64) + [Field(a.byteEnable, U64)])
  {
    hide Value, Number, ByteFields, WordAt;
    var addr, hi, lo := a.addr, a.byteEnable / U32, a.byteEnable % U32;
    var words := [addr] + LineWords(a.data, 16);
    LineValue(addr, a.data, 16);
    assert PackDdrWrite(a) == words + [hi] + [lo];
    ValueMore(words, hi);
    ValueMore(words + [hi], lo);
    NumberMore([Field(addr, U32)] + ByteFields(a.data, 64), Field(a.byteEnable, U64));
  }

  function LineWords(data: seq<Byte>, n: nat): seq<Word>
    requires 4 * n <= |data|
  {
    seq(n, k requires 0 <= k < n => WordAt(data, k))
  }

  lemma {:induction false} LineValue(addr: Word, data: seq<Byte>, n: nat)
    requires 4 * n <= |data|
    ensures Value([addr] + LineWords(data, n)) == Number([Field(addr, U32)] + ByteFields(data, 4 * n))
  {
    hide Value, Number, WordAt;
    var f := [Field(addr, U32)];
    if n == 0 {
      assert [addr] + LineWords(data, 0) == [addr] && f + ByteFields(data, 0) == f;
      Value1(addr);
      Number1(f[0]);
    } else {
      LineValue(addr, data, n - 1);
      var m := 4 * n - 4;
      assert [addr] + LineWords(data, n) == [addr] + LineWords(data, n - 1) + [WordAt(data, n - 1)];
      ValueMore([addr] + LineWords(data, n - 1), WordAt(data, n - 1));
      FourFields(f + ByteFields(data, m), data[m], data[m + 1], data[m + 2], data[m + 3]);
      FourMore(f, data, m);
      WordIs(data, n - 1);
    }
  }

  lemma WordIs(data: seq<Byte>, k: nat)
    requires 4 * k + 4 <= |data|
    ensures WordAt(data, k) == ((data[4 * k] as int * U8 + data[4 * k + 1] as int) * U8 + data[4 * k + 2] as int) * U8
                               + data[4 * k + 3] as int
  {
  }

  lemma FourMore(f: seq<Field>, data: seq<Byte>, m: nat)
    requires m + 4 <= |data|
    ensures f + ByteFields(data, m + 4)
            == f + ByteFields(data, m) + [Field(data[m], U8)] + [Field(data[m + 1], U8)] + [Field(data[m + 2], U8)]
               + [Field(data[m + 3], U8)]
  {
    assert ByteFields(data, m + 2) == ByteFields(data, m) + [Field(data[m], U8)] + [Field(data[m + 1], U8)];
    assert ByteFields(data, m + 4) == ByteFields(data, m + 2) + [Field(data[m + 2], U8)] + [Field(data[m + 3], U8)];
  }

  lemma FourFields(fs: seq<Field>, a: Byte, b: Byte, c: Byte, d: Byte)
    ensures Number(fs + [Field(a, U8)] + [Field(b, U8)] + [Field(c, U8)] + [Field(d, U8)])
            == Number(fs) * U32 + (((a as int * U8 + b as int) * U8 + c as int) * U8 + d as int)
  {
    hide Number;
    var f1 := fs + [Field(a, U8)];
    var f2 := f1 + [Field(b, U8)];
    NumberMore(fs, Field(a, U8));
    NumberMore(f1, Field(b, U8));
    NumberMore(f2, Field(c, U8));
    NumberMore(f2 + [Field(c, U8)], Field(d, U8));
  }

  lemma LineByte(a: DdrWrite, w: seq<Word>, j: nat)
    requires DdrWriteOk(a) && w == PackDdrWrite(a) && j < 64
    ensures ByteAt(w[1 + j / 4], j % 4) == a.data[j]
  {
    hide ByteAt, WordAt;
    ByteOfWord(a.data, j / 4, j % 4);
    assert j == 4 * (j / 4) + j % 4;
  }
}
