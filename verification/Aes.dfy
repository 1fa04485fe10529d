/** Arithmetic in GF(2^8): addition, and multiplication by the constants of the cipher's matrix and its inverse. */
module AesField {

  /** Addition. */
  function Xor(a: bv8, b: bv8): bv8 { a ^ b }

  function Xor4(a: bv8, b: bv8, c: bv8, d: bv8): bv8 { Xor(Xor(Xor(a, b), c), d) }

  lemma XorComm(a: bv8, b: bv8)
    ensures Xor(a, b) == Xor(b, a)
  {
  }

  lemma XorAssoc(a: bv8, b: bv8, c: bv8)
    ensures Xor(Xor(a, b), c) == Xor(a, Xor(b, c))
  {
  }

  lemma XorZero(a: bv8)
    ensures Xor(a, 0) == a
  {
  }

  /** Multiplication by x. */
  function XTime(x: bv8): bv8 {
    Xor(x << 1, if x & 0x80 != 0 then 0x1b else 0)
  }

  lemma ShiftXor(x: bv8, y: bv8)
    ensures (x ^ y) << 1 == (x << 1) ^ (y << 1)
    ensures (x ^ y) & 0x80 != 0 <==> ((x & 0x80 != 0) != (y & 0x80 != 0))
  {
  }

  lemma XTimeLinear(x: bv8, y: bv8)
    ensures XTime(Xor(x, y)) == Xor(XTime(x), XTime(y))
  {
    ShiftXor(x, y);
    if x & 0x80 != 0 {
      if y & 0x80 != 0 {
      } else {
      }
    } else {
      if y & 0x80 != 0 {
      } else {
      }
    }
  }

  function Mul2(x: bv8): bv8 { XTime(x) }

  function Mul3(x: bv8): bv8 { Xor(XTime(x), x) }

  function Mul9(x: bv8): bv8 { Xor(XTime(XTime(XTime(x))), x) }

  function MulB(x: bv8): bv8 { Xor(Xor(XTime(XTime(XTime(x))), XTime(x)), x) }

  function MulD(x: bv8): bv8 { Xor(Xor(XTime(XTime(XTime(x))), XTime(XTime(x))), x) }

  function MulE(x: bv8): bv8 { Xor(Xor(XTime(XTime(XTime(x))), XTime(XTime(x))), XTime(x)) }

  /** A row of the matrix times a column; the other rows are the same row turned. */
  function MixRow(a: bv8, b: bv8, c: bv8, d: bv8): bv8 {
    Xor4(Mul2(a), Mul3(b), c, d)
  }

  /** A row of the inverse matrix times a column. */
  function InvMixRow(a: bv8, b: bv8, c: bv8, d: bv8): bv8 {
    Xor4(MulE(a), MulB(b), MulD(c), Mul9(d))
  }

  lemma Swap(a: bv8, b: bv8, c: bv8, d: bv8)
    ensures Xor(Xor(a, b), Xor(c, d)) == Xor(Xor(a, c), Xor(b, d))
  {
    hide Xor;
    XorAssoc(a, b, Xor(c, d));
    XorAssoc(b, c, d);
    XorComm(b, c);
    XorAssoc(c, b, d);
    XorAssoc(a, c, Xor(b, d));
  }

  lemma Mul9Linear(x: bv8, y: bv8)
    ensures Mul9(Xor(x, y)) == Xor(Mul9(x), Mul9(y))
  {
    hide XTime, Xor;
    var x1, y1 := XTime(x), XTime(y);
    var x2, y2 := XTime(x1), XTime(y1);
    XTimeLinear(x, y);
    XTimeLinear(x1, y1);
    XTimeLinear(x2, y2);
    Swap(XTime(x2), XTime(y2), x, y);
  }

  lemma MulBLinear(x: bv8, y: bv8)
    ensures MulB(Xor(x, y)) == Xor(MulB(x), MulB(y))
  {
    hide XTime, Xor;
    var x1, y1 := XTime(x), XTime(y);
    var x2, y2 := XTime(x1), XTime(y1);
    XTimeLinear(x, y);
    XTimeLinear(x1, y1);
    XTimeLinear(x2, y2);
    Swap(XTime(x2), XTime(y2), x1, y1);
    Swap(Xor(XTime(x2), x1), Xor(XTime(y2), y1), x, y);
  }

  lemma MulDLinear(x: bv8, y: bv8)
    ensures MulD(Xor(x, y)) == Xor(MulD(x), MulD(y))
  {
    hide XTime, Xor;
    var x1, y1 := XTime(x), XTime(y);
    var x2, y2 := XTime(x1), XTime(y1);
    XTimeLinear(x, y);
    XTimeLinear(x1, y1);
    XTimeLinear(x2, y2);
    Swap(XTime(x2), XTime(y2), x2, y2);
    Swap(Xor(XTime(x2), x2), Xor(XTime(y2), y2), x, y);
  }

  lemma MulELinear(x: bv8, y: bv8)
    ensures MulE(Xor(x, y)) == Xor(MulE(x), MulE(y))
  {
    hide XTime, Xor;
    var x1, y1 := XTime(x), XTime(y);
    var x2, y2 := XTime(x1), XTime(y1);
    XTimeLinear(x, y);
    XTimeLinear(x1, y1);
    XTimeLinear(x2, y2);
    Swap(XTime(x2), XTime(y2), x2, y2);
    Swap(Xor(XTime(x2), x2), Xor(XTime(y2), y2), x1, y1);
  }

  lemma Regroup(a: bv8, b: bv8, c: bv8, d: bv8, a': bv8, b': bv8, c': bv8, d': bv8)
    ensures Xor4(Xor(a, a'), Xor(b, b'), Xor(c, c'), Xor(d, d')) == Xor(Xor4(a, b, c, d), Xor4(a', b', c', d'))
  {
    hide Xor;
    Swap(a, a', b, b');
    Swap(Xor(a, b), Xor(a', b'), c, c');
    Swap(Xor(Xor(a, b), c), Xor(Xor(a', b'), c'), d, d');
  }

  lemma InvMixRowLinear(a: bv8, b: bv8, c: bv8, d: bv8, a': bv8, b': bv8, c': bv8, d': bv8)
    ensures InvMixRow(Xor(a, a'), Xor(b, b'), Xor(c, c'), Xor(d, d'))
            == Xor(InvMixRow(a, b, c, d), InvMixRow(a', b', c', d'))
  {
    hide MulE, MulB, MulD, Mul9, Xor4, Xor;
    MulELinear(a, a');
    MulBLinear(b, b');
    MulDLinear(c, c');
    Mul9Linear(d, d');
    Regroup(MulE(a), MulB(b), MulD(c), Mul9(d), MulE(a'), MulB(b'), MulD(c'), Mul9(d'));
  }

  // What each entry of a column contributes to the product of the two matrices.

  lemma OnDiagonal(x: bv8)
    ensures InvMixRow(Mul2(x), x, x, Mul3(x)) == x
  {
  }

  lemma OffDiagonal1(x: bv8)
    ensures InvMixRow(Mul3(x), Mul2(x), x, x) == 0
  {
  }

  lemma OffDiagonal2(x: bv8)
    ensures InvMixRow(x, Mul3(x), Mul2(x), x) == 0
  {
  }

  lemma OffDiagonal3(x: bv8)
    ensures InvMixRow(x, x, Mul3(x), Mul2(x)) == 0
  {
  }

  lemma Turn(a: bv8, b: bv8, c: bv8, d: bv8)
    ensures Xor4(b, c, d, a) == Xor4(a, b, c, d)
  {
    hide Xor;
    XorComm(Xor(Xor(b, c), d), a);
    XorAssoc(b, c, d);
    XorAssoc(a, b, Xor(c, d));
    XorAssoc(Xor(a, b), c, d);
  }

  lemma SumOfFour(a0: bv8, a1: bv8, a2: bv8, a3: bv8, b0: bv8, b1: bv8, b2: bv8, b3: bv8,
                  c0: bv8, c1: bv8, c2: bv8, c3: bv8, d0: bv8, d1: bv8, d2: bv8, d3: bv8)
    ensures InvMixRow(Xor4(a0, b0, c0, d0), Xor4(a1, b1, c1, d1), Xor4(a2, b2, c2, d2), Xor4(a3, b3, c3, d3))
            == Xor4(InvMixRow(a0, a1, a2, a3), InvMixRow(b0, b1, b2, b3), InvMixRow(c0, c1, c2, c3),
                InvMixRow(d0, d1, d2, d3))
  {
    hide InvMixRow, Xor;
    InvMixRowLinear(a0, a1, a2, a3, b0, b1, b2, b3);
    InvMixRowLinear(Xor(a0, b0), Xor(a1, b1), Xor(a2, b2), Xor(a3, b3), c0, c1, c2, c3);
    InvMixRowLinear(Xor(Xor(a0, b0), c0), Xor(Xor(a1, b1), c1), Xor(Xor(a2, b2), c2), Xor(Xor(a3, b3), c3), d0, d1, d2,
        d3);
  }

  /** The inverse row undoes the four rows of the matrix. */
  lemma MixRowInverse(a: bv8, b: bv8, c: bv8, d: bv8)
    ensures InvMixRow(MixRow(a, b, c, d), MixRow(b, c, d, a), MixRow(c, d, a, b), MixRow(d, a, b, c)) == a
  {
    hide InvMixRow, Xor, Mul2, Mul3;
    Turn(a, Mul2(b), Mul3(c), d);
    Turn(b, Mul2(c), Mul3(d), a);
    Turn(a, b, Mul2(c), Mul3(d));
    Turn(c, Mul2(d), Mul3(a), b);
    Turn(b, c, Mul2(d), Mul3(a));
    Turn(Mul3(a), b, c, Mul2(d));
    SumOfFour(Mul2(a), a, a, Mul3(a), Mul3(b), Mul2(b), b, b, c, Mul3(c), Mul2(c), c, d, d, Mul3(d), Mul2(d));
    OnDiagonal(a);
    OffDiagonal1(b);
    OffDiagonal2(c);
    OffDiagonal3(d);
    XorZero(a);
  }
}

/** 32-bit words as four bytes, and the lookup tables built from a substitution table. */
module AesWords {
  import opened AesField

  function B0(w: bv32): bv8 { (w >> 24) as bv8 }

  function B1(w: bv32): bv8 { ((w >> 16) & 0xff) as bv8 }

  function B2(w: bv32): bv8 { ((w >> 8) & 0xff) as bv8 }

  function B3(w: bv32): bv8 { (w & 0xff) as bv8 }

  /** `GETU32` of four bytes. */
  function Word(b0: bv8, b1: bv8, b2: bv8, b3: bv8): bv32 {
    (b0 as bv32 << 24) ^ (b1 as bv32 << 16) ^ (b2 as bv32 << 8) ^ (b3 as bv32)
  }

  function XorW(a: bv32, b: bv32): bv32 { a ^ b }

  lemma WordBytes(b0: bv8, b1: bv8, b2: bv8, b3: bv8)
    ensures B0(Word(b0, b1, b2, b3)) == b0 && B1(Word(b0, b1, b2, b3)) == b1
    ensures B2(Word(b0, b1, b2, b3)) == b2 && B3(Word(b0, b1, b2, b3)) == b3
  {
  }

  lemma BytesWord(w: bv32)
    ensures Word(B0(w), B1(w), B2(w), B3(w)) == w
  {
  }

  lemma XorB0(a: bv32, b: bv32)
    ensures B0(XorW(a, b)) == Xor(B0(a), B0(b))
  {
  }

  lemma XorB1(a: bv32, b: bv32)
    ensures B1(XorW(a, b)) == Xor(B1(a), B1(b))
  {
  }

  lemma XorB2(a: bv32, b: bv32)
    ensures B2(XorW(a, b)) == Xor(B2(a), B2(b))
  {
  }

  lemma XorB3(a: bv32, b: bv32)
    ensures B3(XorW(a, b)) == Xor(B3(a), B3(b))
  {
  }

  lemma WordXor(a: bv32, b: bv32)
    ensures B0(XorW(a, b)) == Xor(B0(a), B0(b)) && B1(XorW(a, b)) == Xor(B1(a), B1(b))
    ensures B2(XorW(a, b)) == Xor(B2(a), B2(b)) && B3(XorW(a, b)) == Xor(B3(a), B3(b))
  {
    hide B0, B1, B2, B3, Xor, XorW;
    XorB0(a, b);
    XorB1(a, b);
    XorB2(a, b);
    XorB3(a, b);
  }

  lemma XorTwice(a: bv32, b: bv32)
    ensures XorW(XorW(a, b), b) == a
  {
  }

  /** The substitution table and its inverse. */
  datatype Sbox = Sbox(fwd: bv8 -> bv8, inv: bv8 -> bv8)

  ghost predicate Bijection(s: Sbox) {
    forall x :: s.inv(s.fwd(x)) == x
  }

  function Te0(s: Sbox, x: bv8): bv32 { Word(Mul2(s.fwd(x)), s.fwd(x), s.fwd(x), Mul3(s.fwd(x))) }

  function Te1(s: Sbox, x: bv8): bv32 { Word(Mul3(s.fwd(x)), Mul2(s.fwd(x)), s.fwd(x), s.fwd(x)) }

  function Te2(s: Sbox, x: bv8): bv32 { Word(s.fwd(x), Mul3(s.fwd(x)), Mul2(s.fwd(x)), s.fwd(x)) }

  function Te3(s: Sbox, x: bv8): bv32 { Word(s.fwd(x), s.fwd(x), Mul3(s.fwd(x)), Mul2(s.fwd(x))) }

  function Te4(s: Sbox, x: bv8): bv32 { Word(s.fwd(x), s.fwd(x), s.fwd(x), s.fwd(x)) }

  function Td0(s: Sbox, x: bv8): bv32 { Word(MulE(s.inv(x)), Mul9(s.inv(x)), MulD(s.inv(x)), MulB(s.inv(x))) }

  function Td1(s: Sbox, x: bv8): bv32 { Word(MulB(s.inv(x)), MulE(s.inv(x)), Mul9(s.inv(x)), MulD(s.inv(x))) }

  function Td2(s: Sbox, x: bv8): bv32 { Word(MulD(s.inv(x)), MulB(s.inv(x)), MulE(s.inv(x)), Mul9(s.inv(x))) }

  function Td3(s: Sbox, x: bv8): bv32 { Word(Mul9(s.inv(x)), MulD(s.inv(x)), MulB(s.inv(x)), MulE(s.inv(x))) }

  function Td4(s: Sbox, x: bv8): bv32 { Word(s.inv(x), s.inv(x), s.inv(x), s.inv(x)) }
}

/** The cipher as FIPS 197 defines it, on a state of four columns, for any substitution table that is a bijection. */
module Fips197 {
  import opened AesField
  import opened AesWords

  datatype State = State(c0: bv32, c1: bv32, c2: bv32, c3: bv32)

  function SubWord(s: Sbox, w: bv32): bv32 {
    Word(s.fwd(B0(w)), s.fwd(B1(w)), s.fwd(B2(w)), s.fwd(B3(w)))
  }

  function InvSubWord(s: Sbox, w: bv32): bv32 {
    Word(s.inv(B0(w)), s.inv(B1(w)), s.inv(B2(w)), s.inv(B3(w)))
  }

  function SubBytes(s: Sbox, x: State): State {
    State(SubWord(s, x.c0), SubWord(s, x.c1), SubWord(s, x.c2), SubWord(s, x.c3))
  }

  function InvSubBytes(s: Sbox, x: State): State {
    State(InvSubWord(s, x.c0), InvSubWord(s, x.c1), InvSubWord(s, x.c2), InvSubWord(s, x.c3))
  }

  /** Row r of the state moves r columns to the left. */
  function ShiftRows(x: State): State {
    State(Diagonal(x.c0, x.c1, x.c2, x.c3), Diagonal(x.c1, x.c2, x.c3, x.c0),
          Diagonal(x.c2, x.c3, x.c0, x.c1), Diagonal(x.c3, x.c0, x.c1, x.c2))
  }

  function InvShiftRows(x: State): State {
    State(Diagonal(x.c0, x.c3, x.c2, x.c1), Diagonal(x.c1, x.c0, x.c3, x.c2),
          Diagonal(x.c2, x.c1, x.c0, x.c3), Diagonal(x.c3, x.c2, x.c1, x.c0))
  }

  /** One byte of each of four columns, top to bottom. */
  function Diagonal(a: bv32, b: bv32, c: bv32, d: bv32): bv32 {
    Word(B0(a), B1(b), B2(c), B3(d))
  }

  function MixColumn(w: bv32): bv32 {
    var b0, b1, b2, b3 := B0(w), B1(w), B2(w), B3(w);
    Word(MixRow(b0, b1, b2, b3), MixRow(b1, b2, b3, b0), MixRow(b2, b3, b0, b1), MixRow(b3, b0, b1, b2))
  }

  function InvMixColumn(w: bv32): bv32 {
    var b0, b1, b2, b3 := B0(w), B1(w), B2(w), B3(w);
    Word(InvMixRow(b0, b1, b2, b3), InvMixRow(b1, b2, b3, b0), InvMixRow(b2, b3, b0, b1), InvMixRow(b3, b0, b1, b2))
  }

  function MixColumns(x: State): State {
    State(MixColumn(x.c0), MixColumn(x.c1), MixColumn(x.c2), MixColumn(x.c3))
  }

  function InvMixColumns(x: State): State {
    State(InvMixColumn(x.c0), InvMixColumn(x.c1), InvMixColumn(x.c2), InvMixColumn(x.c3))
  }

  function AddRoundKey(x: State, k: State): State {
    State(XorW(x.c0, k.c0), XorW(x.c1, k.c1), XorW(x.c2, k.c2), XorW(x.c3, k.c3))
  }

  /** The state after round `r` of the cipher of section 5.1, before the last. */
  function Rounds(s: Sbox, keys: seq<State>, x: State, r: nat): State
    requires r < |keys|
  {
    if r == 0 then AddRoundKey(x, keys[0])
    else AddRoundKey(MixColumns(ShiftRows(SubBytes(s, Rounds(s, keys, x, r - 1)))), keys[r])
  }

  function Cipher(s: Sbox, keys: seq<State>, x: State): State
    requires |keys| >= 2
  {
    AddRoundKey(ShiftRows(SubBytes(s, Rounds(s, keys, x, |keys| - 2))), keys[|keys| - 1])
  }

  /** The state of the straightforward inverse cipher of section 5.3 with rounds |keys| - 2 down to `r` undone. */
  function InvCipherRounds(s: Sbox, keys: seq<State>, y: State, r: nat): State
    requires 1 <= r < |keys|
    decreases |keys| - r
  {
    if r == |keys| - 1 then AddRoundKey(y, keys[r])
    else InvMixColumns(AddRoundKey(InvSubBytes(s, InvShiftRows(InvCipherRounds(s, keys, y, r + 1))), keys[r]))
  }

  function InvCipher(s: Sbox, keys: seq<State>, y: State): State
    requires |keys| >= 2
  {
    AddRoundKey(InvSubBytes(s, InvShiftRows(InvCipherRounds(s, keys, y, 1))), keys[0])
  }

  /** The state after round `r` of the equivalent inverse cipher of section 5.3.5. */
  function InvRounds(s: Sbox, dkeys: seq<State>, y: State, r: nat): State
    requires r < |dkeys|
  {
    if r == 0 then AddRoundKey(y, dkeys[0])
    else AddRoundKey(InvMixColumns(InvShiftRows(InvSubBytes(s, InvRounds(s, dkeys, y, r - 1)))), dkeys[r])
  }

  function EqInvCipher(s: Sbox, dkeys: seq<State>, y: State): State
    requires |dkeys| >= 2
  {
    AddRoundKey(InvShiftRows(InvSubBytes(s, InvRounds(s, dkeys, y, |dkeys| - 2))), dkeys[|dkeys| - 1])
  }

  /** The key schedule of the equivalent inverse cipher: reversed, and transformed except at both ends. */
  function InverseKeys(keys: seq<State>): (d: seq<State>)
    ensures |d| == |keys|
  {
    seq(|keys|, i requires 0 <= i < |keys| =>
      if i == 0 || i == |keys| - 1 then keys[|keys| - 1 - i] else InvMixColumns(keys[|keys| - 1 - i]))
  }

  // ---- Key expansion, section 5.2 ---------------------------------------------------------------------

  function RotWord(w: bv32): bv32 {
    Word(B1(w), B2(w), B3(w), B0(w))
  }

  function RconByte(j: nat): bv8 {
    if j <= 1 then 1 else XTime(RconByte(j - 1))
  }

  /** Word `i` of the schedule expanded from a key of `nk` words. */
  function KeyWord(s: Sbox, key: seq<bv8>, nk: nat, i: nat): bv32
    requires nk >= 4 && |key| == 4 * nk
  {
    if i < nk then Word(key[4 * i], key[4 * i + 1], key[4 * i + 2], key[4 * i + 3])
    else
      var temp := KeyWord(s, key, nk, i - 1);
      var g := if i % nk == 0 then XorW(SubWord(s, RotWord(temp)), Word(RconByte(i / nk), 0, 0, 0))
               else if nk > 6 && i % nk == 4 then SubWord(s, temp)
               else temp;
      XorW(KeyWord(s, key, nk, i - nk), g)
  }

  // ---- The steps undo one another ---------------------------------------------------------------------

  lemma DiagonalBytes(a: bv32, b: bv32, c: bv32, d: bv32)
    ensures B0(Diagonal(a, b, c, d)) == B0(a) && B1(Diagonal(a, b, c, d)) == B1(b)
    ensures B2(Diagonal(a, b, c, d)) == B2(c) && B3(Diagonal(a, b, c, d)) == B3(d)
  {
    hide B0, B1, B2, B3, Word;
    WordBytes(B0(a), B1(b), B2(c), B3(d));
  }

  lemma SubWordBytes(s: Sbox, w: bv32)
    ensures B0(SubWord(s, w)) == s.fwd(B0(w)) && B1(SubWord(s, w)) == s.fwd(B1(w))
    ensures B2(SubWord(s, w)) == s.fwd(B2(w)) && B3(SubWord(s, w)) == s.fwd(B3(w))
  {
    hide Word;
    WordBytes(s.fwd(B0(w)), s.fwd(B1(w)), s.fwd(B2(w)), s.fwd(B3(w)));
  }

  /** A diagonal of substituted columns is substituted back byte by byte. */
  lemma InvSubDiagonal(s: Sbox, a: bv32, b: bv32, c: bv32, d: bv32)
    requires Bijection(s)
    ensures InvSubWord(s, Diagonal(SubWord(s, a), SubWord(s, b), SubWord(s, c), SubWord(s, d))) == Diagonal(a, b, c, d)
  {
    hide B0, B1, B2, B3, Word, SubWord;
    SubWordBytes(s, a);
    SubWordBytes(s, b);
    SubWordBytes(s, c);
    SubWordBytes(s, d);
    DiagonalBytes(SubWord(s, a), SubWord(s, b), SubWord(s, c), SubWord(s, d));
  }

  /** Four diagonals, taken the other way, give a column back. */
  lemma DiagonalBack(a: bv32, b: bv32, c: bv32, d: bv32)
    ensures Diagonal(Diagonal(a, b, c, d), Diagonal(d, a, b, c), Diagonal(c, d, a, b), Diagonal(b, c, d, a)) == a
  {
    hide B0, B1, B2, B3, Word, Diagonal;
    DiagonalBytes(a, b, c, d);
    DiagonalBytes(d, a, b, c);
    DiagonalBytes(c, d, a, b);
    DiagonalBytes(b, c, d, a);
    BytesWord(a);
    DiagonalOf(Diagonal(a, b, c, d), Diagonal(d, a, b, c), Diagonal(c, d, a, b), Diagonal(b, c, d, a));
  }

  lemma DiagonalOf(a: bv32, b: bv32, c: bv32, d: bv32)
    ensures Diagonal(a, b, c, d) == Word(B0(a), B1(b), B2(c), B3(d))
  {
  }

  lemma ShiftInverse(x: State)
    ensures InvShiftRows(ShiftRows(x)) == x
  {
    hide Diagonal;
    DiagonalBack(x.c0, x.c1, x.c2, x.c3);
    DiagonalBack(x.c1, x.c2, x.c3, x.c0);
    DiagonalBack(x.c2, x.c3, x.c0, x.c1);
    DiagonalBack(x.c3, x.c0, x.c1, x.c2);
  }

  /** Substitution works byte by byte, so the equivalent cipher may undo it before the row shift. */
  lemma SubShiftInverse(s: Sbox, x: State)
    requires Bijection(s)
    ensures InvShiftRows(InvSubBytes(s, ShiftRows(SubBytes(s, x)))) == x
  {
    hide SubWord, InvSubWord, Diagonal;
    InvSubDiagonal(s, x.c0, x.c1, x.c2, x.c3);
    InvSubDiagonal(s, x.c1, x.c2, x.c3, x.c0);
    InvSubDiagonal(s, x.c2, x.c3, x.c0, x.c1);
    InvSubDiagonal(s, x.c3, x.c0, x.c1, x.c2);
    ShiftInverse(x);
  }

  lemma InvSubWordBytes(s: Sbox, w: bv32)
    ensures B0(InvSubWord(s, w)) == s.inv(B0(w)) && B1(InvSubWord(s, w)) == s.inv(B1(w))
    ensures B2(InvSubWord(s, w)) == s.inv(B2(w)) && B3(InvSubWord(s, w)) == s.inv(B3(w))
  {
    hide Word;
    WordBytes(s.inv(B0(w)), s.inv(B1(w)), s.inv(B2(w)), s.inv(B3(w)));
  }

  lemma InvSubOfDiagonal(s: Sbox, a: bv32, b: bv32, c: bv32, d: bv32)
    ensures InvSubWord(s, Diagonal(a, b, c, d))
            == Diagonal(InvSubWord(s, a), InvSubWord(s, b), InvSubWord(s, c), InvSubWord(s, d))
  {
    hide B0, B1, B2, B3, Word, Diagonal;
    InvSubWordBytes(s, a);
    InvSubWordBytes(s, b);
    InvSubWordBytes(s, c);
    InvSubWordBytes(s, d);
    DiagonalBytes(a, b, c, d);
    DiagonalOf(InvSubWord(s, a), InvSubWord(s, b), InvSubWord(s, c), InvSubWord(s, d));
  }

  /** Inverse substitution and inverse row shift commute. */
  lemma InvSubShiftCommute(s: Sbox, z: State)
    ensures InvSubBytes(s, InvShiftRows(z)) == InvShiftRows(InvSubBytes(s, z))
  {
    hide InvSubWord, Diagonal;
    InvSubOfDiagonal(s, z.c0, z.c3, z.c2, z.c1);
    InvSubOfDiagonal(s, z.c1, z.c0, z.c3, z.c2);
    InvSubOfDiagonal(s, z.c2, z.c1, z.c0, z.c3);
    InvSubOfDiagonal(s, z.c3, z.c2, z.c1, z.c0);
  }

  lemma InvMixColumnLinear(a: bv32, b: bv32)
    ensures InvMixColumn(XorW(a, b)) == XorW(InvMixColumn(a), InvMixColumn(b))
  {
    hide B0, B1, B2, B3, Word, XorW, Xor, InvMixRow;
    WordXor(a, b);
    InvMixRowLinear(B0(a), B1(a), B2(a), B3(a), B0(b), B1(b), B2(b), B3(b));
    InvMixRowLinear(B1(a), B2(a), B3(a), B0(a), B1(b), B2(b), B3(b), B0(b));
    InvMixRowLinear(B2(a), B3(a), B0(a), B1(a), B2(b), B3(b), B0(b), B1(b));
    InvMixRowLinear(B3(a), B0(a), B1(a), B2(a), B3(b), B0(b), B1(b), B2(b));
    InvMixBytes(a);
    InvMixBytes(b);
    WordXor(InvMixColumn(a), InvMixColumn(b));
    BytesWord(XorW(InvMixColumn(a), InvMixColumn(b)));
  }

  lemma InvMixBytes(w: bv32)
    ensures B0(InvMixColumn(w)) == InvMixRow(B0(w), B1(w), B2(w), B3(w))
    ensures B1(InvMixColumn(w)) == InvMixRow(B1(w), B2(w), B3(w), B0(w))
    ensures B2(InvMixColumn(w)) == InvMixRow(B2(w), B3(w), B0(w), B1(w))
    ensures B3(InvMixColumn(w)) == InvMixRow(B3(w), B0(w), B1(w), B2(w))
  {
    hide Word, InvMixRow;
    WordBytes(InvMixRow(B0(w), B1(w), B2(w), B3(w)), InvMixRow(B1(w), B2(w), B3(w), B0(w)),
              InvMixRow(B2(w), B3(w), B0(w), B1(w)), InvMixRow(B3(w), B0(w), B1(w), B2(w)));
  }

  lemma MixBytes(w: bv32)
    ensures B0(MixColumn(w)) == MixRow(B0(w), B1(w), B2(w), B3(w))
    ensures B1(MixColumn(w)) == MixRow(B1(w), B2(w), B3(w), B0(w))
    ensures B2(MixColumn(w)) == MixRow(B2(w), B3(w), B0(w), B1(w))
    ensures B3(MixColumn(w)) == MixRow(B3(w), B0(w), B1(w), B2(w))
  {
    hide Word, MixRow;
    WordBytes(MixRow(B0(w), B1(w), B2(w), B3(w)), MixRow(B1(w), B2(w), B3(w), B0(w)),
              MixRow(B2(w), B3(w), B0(w), B1(w)), MixRow(B3(w), B0(w), B1(w), B2(w)));
  }

  lemma MixInverse(w: bv32)
    ensures InvMixColumn(MixColumn(w)) == w
  {
    hide B0, B1, B2, B3, Word, MixRow, InvMixRow;
    MixBytes(w);
    MixRowInverse(B0(w), B1(w), B2(w), B3(w));
    MixRowInverse(B1(w), B2(w), B3(w), B0(w));
    MixRowInverse(B2(w), B3(w), B0(w), B1(w));
    MixRowInverse(B3(w), B0(w), B1(w), B2(w));
    BytesWord(w);
  }

  lemma InvMixColumnsLinear(x: State, k: State)
    ensures InvMixColumns(AddRoundKey(x, k)) == AddRoundKey(InvMixColumns(x), InvMixColumns(k))
  {
    hide InvMixColumn, XorW;
    InvMixColumnLinear(x.c0, k.c0);
    InvMixColumnLinear(x.c1, k.c1);
    InvMixColumnLinear(x.c2, k.c2);
    InvMixColumnLinear(x.c3, k.c3);
  }

  lemma MixColumnsInverse(x: State)
    ensures InvMixColumns(MixColumns(x)) == x
  {
    hide InvMixColumn, MixColumn;
    MixInverse(x.c0);
    MixInverse(x.c1);
    MixInverse(x.c2);
    MixInverse(x.c3);
  }

  lemma KeyTwice(x: State, k: State)
    ensures AddRoundKey(AddRoundKey(x, k), k) == x
  {
    hide XorW;
    XorTwice(x.c0, k.c0);
    XorTwice(x.c1, k.c1);
    XorTwice(x.c2, k.c2);
    XorTwice(x.c3, k.c3);
  }

  // ---- Decryption undoes encryption -------------------------------------------------------------------------

  /** Going backwards, the equivalent inverse cipher meets the states of the cipher, substituted and shifted. */
  lemma {:induction false} InvRoundsMeet(s: Sbox, keys: seq<State>, x: State, r: nat)
    requires Bijection(s) && |keys| >= 2 && r <= |keys| - 2
    ensures InvRounds(s, InverseKeys(keys), Cipher(s, keys, x), r)
            == ShiftRows(SubBytes(s, Rounds(s, keys, x, |keys| - 2 - r)))
    decreases r
  {
    hide SubBytes, ShiftRows, MixColumns, InvSubBytes, InvShiftRows, InvMixColumns, AddRoundKey, Bijection;
    var n := |keys| - 1;
    if r == 0 {
      KeyTwice(ShiftRows(SubBytes(s, Rounds(s, keys, x, n - 1))), keys[n]);
    } else {
      InvRoundsMeet(s, keys, x, r - 1);
      SubShiftInverse(s, Rounds(s, keys, x, n - r));
      var z := ShiftRows(SubBytes(s, Rounds(s, keys, x, n - 1 - r)));
      InvMixColumnsLinear(MixColumns(z), keys[n - r]);
      MixColumnsInverse(z);
      KeyTwice(z, InvMixColumns(keys[n - r]));
    }
  }

  /** Decryption with the inverted schedule undoes encryption, whatever the round keys. */
  lemma EqInvCipherInverts(s: Sbox, keys: seq<State>, x: State)
    requires Bijection(s) && |keys| >= 2
    ensures EqInvCipher(s, InverseKeys(keys), Cipher(s, keys, x)) == x
  {
    hide SubBytes, ShiftRows, InvSubBytes, InvShiftRows, AddRoundKey, Bijection;
    InvRoundsMeet(s, keys, x, |keys| - 2);
    SubShiftInverse(s, Rounds(s, keys, x, 0));
    KeyTwice(x, keys[0]);
  }

  /** The equivalent inverse cipher runs through the states of the straightforward one. */
  lemma {:induction false} EqInvRoundsRefine(s: Sbox, keys: seq<State>, y: State, r: nat)
    requires |keys| >= 2 && r <= |keys| - 2
    ensures InvRounds(s, InverseKeys(keys), y, r) == InvCipherRounds(s, keys, y, |keys| - 1 - r)
    decreases r
  {
    hide InvSubBytes, InvShiftRows, InvMixColumns, AddRoundKey;
    if r > 0 {
      EqInvRoundsRefine(s, keys, y, r - 1);
      var z := InvCipherRounds(s, keys, y, |keys| - r);
      InvSubShiftCommute(s, z);
      InvMixColumnsLinear(InvSubBytes(s, InvShiftRows(z)), keys[|keys| - 1 - r]);
    }
  }

  /** Section 5.3.5: with the inverted schedule the equivalent inverse cipher is the inverse cipher of section 5.3. */
  lemma EqInvCipherRefines(s: Sbox, keys: seq<State>, y: State)
    requires |keys| >= 2
    ensures EqInvCipher(s, InverseKeys(keys), y) == InvCipher(s, keys, y)
  {
    hide InvSubBytes, InvShiftRows, AddRoundKey;
    EqInvRoundsRefine(s, keys, y, |keys| - 2);
    InvSubShiftCommute(s, InvCipherRounds(s, keys, y, 1));
  }
}

/** The table-driven implementation: key schedules in one array of words, and one block at a time. */
module Aes {
  import opened AesField
  import opened AesWords
  import opened Fips197

  // ---- Table lookups are the steps of the cipher -----------------------------------------------------------

  /** One byte of each of four words, kept in place by masks. */
  function Select(a: bv32, b: bv32, c: bv32, d: bv32): bv32 {
    (a & 0xff000000) ^ (b & 0x00ff0000) ^ (c & 0x0000ff00) ^ (d & 0x000000ff)
  }

  lemma SelectIsDiagonal(a: bv32, b: bv32, c: bv32, d: bv32)
    ensures Select(a, b, c, d) == Diagonal(a, b, c, d)
  {
  }

  function EncColumn(s: Sbox, a: bv32, b: bv32, c: bv32, d: bv32, k: bv32): bv32 {
    XorW(XorW(XorW(XorW(Te0(s, B0(a)), Te1(s, B1(b))), Te2(s, B2(c))), Te3(s, B3(d))), k)
  }

  function DecColumn(s: Sbox, a: bv32, b: bv32, c: bv32, d: bv32, k: bv32): bv32 {
    XorW(XorW(XorW(XorW(Td0(s, B0(a)), Td1(s, B1(b))), Td2(s, B2(c))), Td3(s, B3(d))), k)
  }

  lemma XorWords(a0: bv8, a1: bv8, a2: bv8, a3: bv8, b0: bv8, b1: bv8, b2: bv8, b3: bv8)
    ensures XorW(Word(a0, a1, a2, a3), Word(b0, b1, b2, b3)) == Word(Xor(a0, b0), Xor(a1, b1), Xor(a2, b2), Xor(a3, b3))
  {
    hide B0, B1, B2, B3, Word, Xor, XorW;
    WordBytes(a0, a1, a2, a3);
    WordBytes(b0, b1, b2, b3);
    WordXor(Word(a0, a1, a2, a3), Word(b0, b1, b2, b3));
    BytesWord(XorW(Word(a0, a1, a2, a3), Word(b0, b1, b2, b3)));
  }

  lemma XorFourWords(a0: bv8, a1: bv8, a2: bv8, a3: bv8, b0: bv8, b1: bv8, b2: bv8, b3: bv8,
                     c0: bv8, c1: bv8, c2: bv8, c3: bv8, d0: bv8, d1: bv8, d2: bv8, d3: bv8)
    ensures XorW(XorW(XorW(Word(a0, a1, a2, a3), Word(b0, b1, b2, b3)), Word(c0, c1, c2, c3)), Word(d0, d1, d2, d3))
            == Word(Xor4(a0, b0, c0, d0), Xor4(a1, b1, c1, d1), Xor4(a2, b2, c2, d2), Xor4(a3, b3, c3, d3))
  {
    hide Word, Xor, XorW;
    XorWords(a0, a1, a2, a3, b0, b1, b2, b3);
    XorWords(Xor(a0, b0), Xor(a1, b1), Xor(a2, b2), Xor(a3, b3), c0, c1, c2, c3);
    XorWords(Xor(Xor(a0, b0), c0), Xor(Xor(a1, b1), c1), Xor(Xor(a2, b2), c2), Xor(Xor(a3, b3), c3), d0, d1, d2, d3);
  }

  /** The four encryption tables hold the columns of the matrix. */
  lemma TablesMix(s: Sbox, p: bv8, q: bv8, r: bv8, t: bv8)
    ensures var a, b, c, d := s.fwd(p), s.fwd(q), s.fwd(r), s.fwd(t);
            XorW(XorW(XorW(Te0(s, p), Te1(s, q)), Te2(s, r)), Te3(s, t))
            == Word(MixRow(a, b, c, d), MixRow(b, c, d, a), MixRow(c, d, a, b), MixRow(d, a, b, c))
  {
    hide Word, Xor4, XorW, Mul2, Mul3;
    var a, b, c, d := s.fwd(p), s.fwd(q), s.fwd(r), s.fwd(t);
    XorFourWords(Mul2(a), a, a, Mul3(a), Mul3(b), Mul2(b), b, b, c, Mul3(c), Mul2(c), c, d, d, Mul3(d), Mul2(d));
    Turn(a, Mul2(b), Mul3(c), d);
    Turn(b, Mul2(c), Mul3(d), a);
    Turn(a, b, Mul2(c), Mul3(d));
    Turn(Mul2(d), Mul3(a), b, c);
  }

  lemma TablesInvMix(s: Sbox, p: bv8, q: bv8, r: bv8, t: bv8)
    ensures var a, b, c, d := s.inv(p), s.inv(q), s.inv(r), s.inv(t);
            XorW(XorW(XorW(Td0(s, p), Td1(s, q)), Td2(s, r)), Td3(s, t))
            == Word(InvMixRow(a, b, c, d), InvMixRow(b, c, d, a), InvMixRow(c, d, a, b), InvMixRow(d, a, b, c))
  {
    hide Word, Xor4, XorW, MulE, MulB, MulD, Mul9;
    var a, b, c, d := s.inv(p), s.inv(q), s.inv(r), s.inv(t);
    XorFourWords(MulE(a), Mul9(a), MulD(a), MulB(a), MulB(b), MulE(b), Mul9(b), MulD(b),
                 MulD(c), MulB(c), MulE(c), Mul9(c), Mul9(d), MulD(d), MulB(d), MulE(d));
    Turn(Mul9(a), MulE(b), MulB(c), MulD(d));
    Turn(Mul9(b), MulE(c), MulB(d), MulD(a));
    Turn(MulD(a), Mul9(b), MulE(c), MulB(d));
    Turn(MulE(d), MulB(a), MulD(b), Mul9(c));
  }

  /** A table round on one column is substitution, row shift, column mixing and key addition. */
  lemma EncColumnMeans(s: Sbox, a: bv32, b: bv32, c: bv32, d: bv32, k: bv32)
    ensures EncColumn(s, a, b, c, d, k)
            == XorW(MixColumn(Diagonal(SubWord(s, a), SubWord(s, b), SubWord(s, c), SubWord(s, d))), k)
  {
    hide B0, B1, B2, B3, Word, XorW, MixRow, Diagonal, SubWord;
    TablesMix(s, B0(a), B1(b), B2(c), B3(d));
    SubWordBytes(s, a);
    SubWordBytes(s, b);
    SubWordBytes(s, c);
    SubWordBytes(s, d);
    DiagonalBytes(SubWord(s, a), SubWord(s, b), SubWord(s, c), SubWord(s, d));
  }

  lemma DecColumnMeans(s: Sbox, a: bv32, b: bv32, c: bv32, d: bv32, k: bv32)
    ensures DecColumn(s, a, b, c, d, k)
            == XorW(InvMixColumn(Diagonal(InvSubWord(s, a), InvSubWord(s, b), InvSubWord(s, c), InvSubWord(s, d))), k)
  {
    hide B0, B1, B2, B3, Word, XorW, InvMixRow, Diagonal, InvSubWord;
    TablesInvMix(s, B0(a), B1(b), B2(c), B3(d));
    InvSubWordBytes(s, a);
    InvSubWordBytes(s, b);
    InvSubWordBytes(s, c);
    InvSubWordBytes(s, d);
    DiagonalBytes(InvSubWord(s, a), InvSubWord(s, b), InvSubWord(s, c), InvSubWord(s, d));
  }

  function EncFinal(s: Sbox, a: bv32, b: bv32, c: bv32, d: bv32, k: bv32): bv32 {
    XorW(Select(Te4(s, B0(a)), Te4(s, B1(b)), Te4(s, B2(c)), Te4(s, B3(d))), k)
  }

  function DecFinal(s: Sbox, a: bv32, b: bv32, c: bv32, d: bv32, k: bv32): bv32 {
    XorW(Select(Td4(s, B0(a)), Td4(s, B1(b)), Td4(s, B2(c)), Td4(s, B3(d))), k)
  }

  /** The same byte in all four places, selected by place. */
  lemma SelectBytes(p: bv8, q: bv8, r: bv8, t: bv8)
    ensures Select(Word(p, p, p, p), Word(q, q, q, q), Word(r, r, r, r), Word(t, t, t, t)) == Word(p, q, r, t)
  {
    hide B0, B1, B2, B3, Word, Select;
    SelectIsDiagonal(Word(p, p, p, p), Word(q, q, q, q), Word(r, r, r, r), Word(t, t, t, t));
    WordBytes(p, p, p, p);
    WordBytes(q, q, q, q);
    WordBytes(r, r, r, r);
    WordBytes(t, t, t, t);
  }

  lemma EncFinalMeans(s: Sbox, a: bv32, b: bv32, c: bv32, d: bv32, k: bv32)
    ensures EncFinal(s, a, b, c, d, k) == XorW(Diagonal(SubWord(s, a), SubWord(s, b), SubWord(s, c), SubWord(s, d)), k)
  {
    hide B0, B1, B2, B3, Word, Select, XorW, SubWord;
    SelectBytes(s.fwd(B0(a)), s.fwd(B1(b)), s.fwd(B2(c)), s.fwd(B3(d)));
    SubWordBytes(s, a);
    SubWordBytes(s, b);
    SubWordBytes(s, c);
    SubWordBytes(s, d);
  }

  lemma DecFinalMeans(s: Sbox, a: bv32, b: bv32, c: bv32, d: bv32, k: bv32)
    ensures DecFinal(s, a, b, c, d, k)
            == XorW(Diagonal(InvSubWord(s, a), InvSubWord(s, b), InvSubWord(s, c), InvSubWord(s, d)), k)
  {
    hide B0, B1, B2, B3, Word, Select, XorW, InvSubWord;
    SelectBytes(s.inv(B0(a)), s.inv(B1(b)), s.inv(B2(c)), s.inv(B3(d)));
    InvSubWordBytes(s, a);
    InvSubWordBytes(s, b);
    InvSubWordBytes(s, c);
    InvSubWordBytes(s, d);
  }

  // ---- Round keys -------------------------------------------------------------------------------------------

  /** The round keys an array of words holds. */
  function RoundKeys(w: seq<bv32>, rounds: nat): (keys: seq<State>)
    requires |w| >= 4 * (rounds + 1)
    ensures |keys| == rounds + 1
  {
    seq(rounds + 1, i requires 0 <= i <= rounds => State(w[4 * i], w[4 * i + 1], w[4 * i + 2], w[4 * i + 3]))
  }

  function EncRound(s: Sbox, x: State, k: State): State {
    State(EncColumn(s, x.c0, x.c1, x.c2, x.c3, k.c0), EncColumn(s, x.c1, x.c2, x.c3, x.c0, k.c1),
          EncColumn(s, x.c2, x.c3, x.c0, x.c1, k.c2), EncColumn(s, x.c3, x.c0, x.c1, x.c2, k.c3))
  }

  function DecRound(s: Sbox, x: State, k: State): State {
    State(DecColumn(s, x.c0, x.c3, x.c2, x.c1, k.c0), DecColumn(s, x.c1, x.c0, x.c3, x.c2, k.c1),
          DecColumn(s, x.c2, x.c1, x.c0, x.c3, k.c2), DecColumn(s, x.c3, x.c2, x.c1, x.c0, k.c3))
  }

  lemma EncRoundMeans(s: Sbox, x: State, k: State)
    ensures EncRound(s, x, k) == AddRoundKey(MixColumns(ShiftRows(SubBytes(s, x))), k)
  {
    hide EncColumn, XorW, MixColumn, Diagonal, SubWord;
    EncColumnMeans(s, x.c0, x.c1, x.c2, x.c3, k.c0);
    EncColumnMeans(s, x.c1, x.c2, x.c3, x.c0, k.c1);
    EncColumnMeans(s, x.c2, x.c3, x.c0, x.c1, k.c2);
    EncColumnMeans(s, x.c3, x.c0, x.c1, x.c2, k.c3);
  }

  lemma DecRoundMeans(s: Sbox, x: State, k: State)
    ensures DecRound(s, x, k) == AddRoundKey(InvMixColumns(InvShiftRows(InvSubBytes(s, x))), k)
  {
    hide DecColumn, XorW, InvMixColumn, Diagonal, InvSubWord;
    DecColumnMeans(s, x.c0, x.c3, x.c2, x.c1, k.c0);
    DecColumnMeans(s, x.c1, x.c0, x.c3, x.c2, k.c1);
    DecColumnMeans(s, x.c2, x.c1, x.c0, x.c3, k.c2);
    DecColumnMeans(s, x.c3, x.c2, x.c1, x.c0, k.c3);
  }

  // ---- One block -------------------------------------------------------------------------------------------

  const AES_BLOCK_SIZE := 16

  class AesKey {
    const rdKey: array<bv32>
    var rounds: int

    constructor ()
      ensures rdKey.Length == 60 && fresh(rdKey)
    {
      rdKey := new bv32[60](_ => 0);
      rounds := 0;
    }

    ghost predicate Ready()
      reads this
    {
      rdKey.Length == 60 && (rounds == 10 || rounds == 12 || rounds == 14)
    }

    ghost function Keys(): (k: seq<State>)
      requires Ready()
      reads this, rdKey
      ensures |k| == rounds + 1
    {
      RoundKeys(rdKey[..], rounds)
    }
  }

  /** Sixteen bytes as four big-endian columns. */
  function Load(b: seq<bv8>): State
    requires |b| == AES_BLOCK_SIZE
  {
    State(Word(b[0], b[1], b[2], b[3]), Word(b[4], b[5], b[6], b[7]),
          Word(b[8], b[9], b[10], b[11]), Word(b[12], b[13], b[14], b[15]))
  }

  function Bytes(w: bv32): (b: seq<bv8>)
    ensures |b| == 4
  {
    [B0(w), B1(w), B2(w), B3(w)]
  }

  function Store(x: State): (b: seq<bv8>)
    ensures |b| == AES_BLOCK_SIZE
  {
    Bytes(x.c0) + Bytes(x.c1) + Bytes(x.c2) + Bytes(x.c3)
  }

  lemma LoadStore(x: State)
    ensures Load(Store(x)) == x
  {
    hide B0, B1, B2, B3, Word;
    BytesWord(x.c0);
    BytesWord(x.c1);
    BytesWord(x.c2);
    BytesWord(x.c3);
  }

  lemma StoreLoad(b: seq<bv8>)
    requires |b| == AES_BLOCK_SIZE
    ensures Store(Load(b)) == b
  {
    hide B0, B1, B2, B3, Word;
    WordBytes(b[0], b[1], b[2], b[3]);
    WordBytes(b[4], b[5], b[6], b[7]);
    WordBytes(b[8], b[9], b[10], b[11]);
    WordBytes(b[12], b[13], b[14], b[15]);
  }

  function EncryptBlock(s: Sbox, keys: seq<State>, b: seq<bv8>): (c: seq<bv8>)
    requires |keys| >= 2 && |b| == AES_BLOCK_SIZE
    ensures |c| == AES_BLOCK_SIZE
  {
    Store(Cipher(s, keys, Load(b)))
  }

  function DecryptBlock(s: Sbox, dkeys: seq<State>, b: seq<bv8>): (c: seq<bv8>)
    requires |dkeys| >= 2 && |b| == AES_BLOCK_SIZE
    ensures |c| == AES_BLOCK_SIZE
  {
    Store(EqInvCipher(s, dkeys, Load(b)))
  }

  /** Decrypting with the inverted schedule what was encrypted gives the block back. */
  lemma DecryptInverts(s: Sbox, keys: seq<State>, b: seq<bv8>)
    requires Bijection(s) && |keys| >= 2 && |b| == AES_BLOCK_SIZE
    ensures DecryptBlock(s, InverseKeys(keys), EncryptBlock(s, keys, b)) == b
  {
    hide Store, Load, Cipher, EqInvCipher, Bijection;
    LoadStore(Cipher(s, keys, Load(b)));
    EqInvCipherInverts(s, keys, Load(b));
    StoreLoad(b);
  }

  /** `b` with the block at `at` replaced. */
  function Put(b: seq<bv8>, at: nat, block: seq<bv8>): (r: seq<bv8>)
    requires at + |block| <= |b|
    ensures |r| == |b|
  {
    b[..at] + block + b[at + |block|..]
  }

  /** `PUTU32` of a state. */
  method PutBlock(out: array<bv8>, at: nat, x: State)
    requires at + AES_BLOCK_SIZE <= out.Length
    modifies out
    ensures out[..] == Put(old(out[..]), at, Store(x))
  {
    hide B0, B1, B2, B3;
    var b := Store(x);
    for i := 0 to AES_BLOCK_SIZE
      invariant forall k :: 0 <= k < out.Length ==> out[k] == if at <= k < at + i then b[k - at] else old(out[k])
    {
      out[at + i] := b[i];
    }
  }

  method LoadBlock(inp: array<bv8>, at: nat) returns (x: State)
    requires at + AES_BLOCK_SIZE <= inp.Length
    ensures x == Load(inp[at..at + AES_BLOCK_SIZE])
  {
    hide Word;
    x := State(Word(inp[at], inp[at + 1], inp[at + 2], inp[at + 3]),
               Word(inp[at + 4], inp[at + 5], inp[at + 6], inp[at + 7]),
               Word(inp[at + 8], inp[at + 9], inp[at + 10], inp[at + 11]),
               Word(inp[at + 12], inp[at + 13], inp[at + 14], inp[at + 15]));
  }

  /** Encrypt one block; `inp` and `out` may be the same array. */
  method AesEncrypt(s: Sbox, inp: array<bv8>, inAt: nat, out: array<bv8>, outAt: nat, key: AesKey)
    requires key.Ready() && inAt + AES_BLOCK_SIZE <= inp.Length && outAt + AES_BLOCK_SIZE <= out.Length
    modifies out
    ensures out[..] == Put(old(out[..]), outAt, EncryptBlock(s, key.Keys(), old(inp[inAt..inAt + AES_BLOCK_SIZE])))
  {
    hide Load, Store, Put;
    var x := LoadBlock(inp, inAt);
    ghost var keys := key.Keys();
    var t := EncryptState(s, x, key);
    PutBlock(out, outAt, t);
  }

  /** The four round-key words at `rk`. */
  function KeyAt(key: AesKey, rk: nat): State
    requires rk + 4 <= key.rdKey.Length
    reads key.rdKey
  {
    State(key.rdKey[rk], key.rdKey[rk + 1], key.rdKey[rk + 2], key.rdKey[rk + 3])
  }

  method EncryptState(s: Sbox, x: State, key: AesKey) returns (y: State)
    requires key.Ready()
    ensures y == Cipher(s, key.Keys(), x)
  {
    hide AddRoundKey, EncRound, ShiftRows, SubBytes, Rounds;
    ghost var keys := key.Keys();
    var rk := 0;
    var st := AddRoundKey(x, KeyAt(key, rk));
    InitialKey(s, keys, x);
    var t;
    var r := key.rounds / 2;
    while true
      invariant 1 <= r <= key.rounds / 2 && rk == 4 * (key.rounds - 2 * r)
      invariant st == Rounds(s, keys, x, key.rounds - 2 * r)
      decreases r
    {
      t := EncRound(s, st, KeyAt(key, rk + 4));
      NextRound(s, keys, x, key.rounds - 2 * r + 1);
      rk := rk + 8;
      r := r - 1;
      if r == 0 {
        break;
      }
      st := EncRound(s, t, KeyAt(key, rk));
      NextRound(s, keys, x, key.rounds - 2 * r);
    }
    LastRound(s, t, KeyAt(key, rk));
    y := EncLast(s, t, KeyAt(key, rk));
  }

  lemma InitialKey(s: Sbox, keys: seq<State>, x: State)
    requires |keys| >= 2
    ensures Rounds(s, keys, x, 0) == AddRoundKey(x, keys[0])
  {
  }

  lemma NextRound(s: Sbox, keys: seq<State>, x: State, r: nat)
    requires 1 <= r < |keys|
    ensures Rounds(s, keys, x, r) == EncRound(s, Rounds(s, keys, x, r - 1), keys[r])
  {
    hide EncRound, AddRoundKey, MixColumns, ShiftRows, SubBytes;
    EncRoundMeans(s, Rounds(s, keys, x, r - 1), keys[r]);
  }

  function EncLast(s: Sbox, t: State, k: State): State {
    State(EncFinal(s, t.c0, t.c1, t.c2, t.c3, k.c0), EncFinal(s, t.c1, t.c2, t.c3, t.c0, k.c1),
          EncFinal(s, t.c2, t.c3, t.c0, t.c1, k.c2), EncFinal(s, t.c3, t.c0, t.c1, t.c2, k.c3))
  }

  lemma LastRound(s: Sbox, t: State, k: State)
    ensures EncLast(s, t, k) == AddRoundKey(ShiftRows(SubBytes(s, t)), k)
  {
    hide EncFinal, XorW, Diagonal, SubWord;
    EncFinalMeans(s, t.c0, t.c1, t.c2, t.c3, k.c0);
    EncFinalMeans(s, t.c1, t.c2, t.c3, t.c0, k.c1);
    EncFinalMeans(s, t.c2, t.c3, t.c0, t.c1, k.c2);
    EncFinalMeans(s, t.c3, t.c0, t.c1, t.c2, k.c3);
  }

  /** Decrypt one block; `inp` and `out` may be the same array. */
  method AesDecrypt(s: Sbox, inp: array<bv8>, inAt: nat, out: array<bv8>, outAt: nat, key: AesKey)
    requires key.Ready() && inAt + AES_BLOCK_SIZE <= inp.Length && outAt + AES_BLOCK_SIZE <= out.Length
    modifies out
    ensures out[..] == Put(old(out[..]), outAt, DecryptBlock(s, key.Keys(), old(inp[inAt..inAt + AES_BLOCK_SIZE])))
  {
    hide Load, Store, Put;
    var x := LoadBlock(inp, inAt);
    var t := DecryptState(s, x, key);
    PutBlock(out, outAt, t);
  }

  method DecryptState(s: Sbox, x: State, key: AesKey) returns (y: State)
    requires key.Ready()
    ensures y == EqInvCipher(s, key.Keys(), x)
  {
    hide AddRoundKey, DecRound, InvShiftRows, InvSubBytes, InvRounds;
    ghost var keys := key.Keys();
    var rk := 0;
    var st := AddRoundKey(x, KeyAt(key, rk));
    InitialInvKey(s, keys, x);
    var t;
    var r := key.rounds / 2;
    while true
      invariant 1 <= r <= key.rounds / 2 && rk == 4 * (key.rounds - 2 * r)
      invariant st == InvRounds(s, keys, x, key.rounds - 2 * r)
      decreases r
    {
      t := DecRound(s, st, KeyAt(key, rk + 4));
      NextInvRound(s, keys, x, key.rounds - 2 * r + 1);
      rk := rk + 8;
      r := r - 1;
      if r == 0 {
        break;
      }
      st := DecRound(s, t, KeyAt(key, rk));
      NextInvRound(s, keys, x, key.rounds - 2 * r);
    }
    LastInvRound(s, t, KeyAt(key, rk));
    y := DecLast(s, t, KeyAt(key, rk));
  }

  lemma InitialInvKey(s: Sbox, keys: seq<State>, x: State)
    requires |keys| >= 2
    ensures InvRounds(s, keys, x, 0) == AddRoundKey(x, keys[0])
  {
  }

  lemma NextInvRound(s: Sbox, keys: seq<State>, x: State, r: nat)
    requires 1 <= r < |keys|
    ensures InvRounds(s, keys, x, r) == DecRound(s, InvRounds(s, keys, x, r - 1), keys[r])
  {
    hide DecRound, AddRoundKey, InvMixColumns, InvShiftRows, InvSubBytes;
    DecRoundMeans(s, InvRounds(s, keys, x, r - 1), keys[r]);
  }

  function DecLast(s: Sbox, t: State, k: State): State {
    State(DecFinal(s, t.c0, t.c3, t.c2, t.c1, k.c0), DecFinal(s, t.c1, t.c0, t.c3, t.c2, k.c1),
          DecFinal(s, t.c2, t.c1, t.c0, t.c3, k.c2), DecFinal(s, t.c3, t.c2, t.c1, t.c0, k.c3))
  }

  lemma LastInvRound(s: Sbox, t: State, k: State)
    ensures DecLast(s, t, k) == AddRoundKey(InvShiftRows(InvSubBytes(s, t)), k)
  {
    hide DecFinal, XorW, Diagonal, InvSubWord;
    DecFinalMeans(s, t.c0, t.c3, t.c2, t.c1, k.c0);
    DecFinalMeans(s, t.c1, t.c0, t.c3, t.c2, k.c1);
    DecFinalMeans(s, t.c2, t.c1, t.c0, t.c3, k.c2);
    DecFinalMeans(s, t.c3, t.c2, t.c1, t.c0, k.c3);
  }

  // ---- Key schedules ---------------------------------------------------------------------------------------

  const RCON: seq<bv32> := [
    0x01000000, 0x02000000, 0x04000000, 0x08000000, 0x10000000,
    0x20000000, 0x40000000, 0x80000000, 0x1B000000, 0x36000000]

  lemma RconTable(i: nat)
    requires i < 10
    ensures RCON[i] == Word(RconByte(i + 1), 0, 0, 0)
  {
    RconBytes(i);
    RconWord([0x01, 0x02, 0x04, 0x08, 0x10, 0x20, 0x40, 0x80, 0x1b, 0x36], i);
  }

  lemma RconBytes(i: nat)
    requires i < 10
    ensures RconByte(i + 1) == [0x01, 0x02, 0x04, 0x08, 0x10, 0x20, 0x40, 0x80, 0x1b, 0x36][i]
  {
    if i > 0 {
      RconBytes(i - 1);
    }
  }

  lemma RconWord(b: seq<bv8>, i: nat)
    requires b == [0x01, 0x02, 0x04, 0x08, 0x10, 0x20, 0x40, 0x80, 0x1b, 0x36] && i < 10
    ensures RCON[i] == Word(b[i], 0, 0, 0)
  {
  }

  /** The word the code mixes in at the start of each group of `nk`. */
  function FirstWord(s: Sbox, first: bv32, temp: bv32, rcon: bv32): bv32 {
    XorW(XorW(first, Select(Te4(s, B1(temp)), Te4(s, B2(temp)), Te4(s, B3(temp)), Te4(s, B0(temp)))), rcon)
  }

  function MiddleWord(s: Sbox, first: bv32, temp: bv32): bv32 {
    XorW(first, Select(Te4(s, B0(temp)), Te4(s, B1(temp)), Te4(s, B2(temp)), Te4(s, B3(temp))))
  }

  lemma XorWAssoc(a: bv32, b: bv32, c: bv32)
    ensures XorW(XorW(a, b), c) == XorW(a, XorW(b, c))
  {
  }

  lemma FirstWordMeans(s: Sbox, first: bv32, temp: bv32, i: nat)
    requires i < 10
    ensures FirstWord(s, first, temp, RCON[i])
            == XorW(first, XorW(SubWord(s, RotWord(temp)), Word(RconByte(i + 1), 0, 0, 0)))
  {
    hide B0, B1, B2, B3, Word, Select, XorW, RconByte;
    RconTable(i);
    SelectBytes(s.fwd(B1(temp)), s.fwd(B2(temp)), s.fwd(B3(temp)), s.fwd(B0(temp)));
    WordBytes(B1(temp), B2(temp), B3(temp), B0(temp));
    XorWAssoc(first, SubWord(s, RotWord(temp)), RCON[i]);
  }

  lemma MiddleWordMeans(s: Sbox, first: bv32, temp: bv32)
    ensures MiddleWord(s, first, temp) == XorW(first, SubWord(s, temp))
  {
    hide B0, B1, B2, B3, Word, Select, XorW;
    SelectBytes(s.fwd(B0(temp)), s.fwd(B1(temp)), s.fwd(B2(temp)), s.fwd(B3(temp)));
  }

  /** The first `n` words are the key expansion. */
  ghost predicate Expanded(w: seq<bv32>, s: Sbox, userKey: seq<bv8>, nk: nat, n: nat) {
    && nk >= 4 && |userKey| == 4 * nk && n <= |w|
    && forall k :: 0 <= k < n ==> w[k] == KeyWord(s, userKey, nk, k)
  }

  lemma GroupWord(s: Sbox, userKey: seq<bv8>, nk: nat, n: nat, i: nat)
    requires nk >= 4 && |userKey| == 4 * nk && n >= nk && n % nk == 0 && n / nk == i + 1 && i < 10
    ensures KeyWord(s, userKey, nk, n)
            == FirstWord(s, KeyWord(s, userKey, nk, n - nk), KeyWord(s, userKey, nk, n - 1), RCON[i])
  {
    hide FirstWord, SubWord, RotWord, RconByte, XorW;
    FirstWordMeans(s, KeyWord(s, userKey, nk, n - nk), KeyWord(s, userKey, nk, n - 1), i);
  }

  lemma PlainWord(s: Sbox, userKey: seq<bv8>, nk: nat, n: nat)
    requires nk >= 4 && |userKey| == 4 * nk && n >= nk && n % nk != 0 && !(nk > 6 && n % nk == 4)
    ensures KeyWord(s, userKey, nk, n) == XorW(KeyWord(s, userKey, nk, n - nk), KeyWord(s, userKey, nk, n - 1))
  {
  }

  lemma HalfWord(s: Sbox, userKey: seq<bv8>, n: nat)
    requires |userKey| == 32 && n >= 8 && n % 8 == 4
    ensures KeyWord(s, userKey, 8, n) == MiddleWord(s, KeyWord(s, userKey, 8, n - 8), KeyWord(s, userKey, 8, n - 1))
  {
    hide SubWord, MiddleWord;
    MiddleWordMeans(s, KeyWord(s, userKey, 8, n - 8), KeyWord(s, userKey, 8, n - 1));
  }

  /** Store the next word of the expansion. */
  method SetWord(key: AesKey, s: Sbox, ghost userKey: seq<bv8>, ghost nk: nat, n: nat, w: bv32)
    requires n < key.rdKey.Length && Expanded(key.rdKey[..], s, userKey, nk, n) && w == KeyWord(s, userKey, nk, n)
    modifies key.rdKey
    ensures Expanded(key.rdKey[..], s, userKey, nk, n + 1)
  {
    hide KeyWord;
    key.rdKey[n] := w;
  }

  /** `rk[n] = rk[n - nk] ^ rk[n - 1]`. */
  method SetPlainWord(key: AesKey, s: Sbox, ghost userKey: seq<bv8>, nk: nat, n: nat)
    requires n < key.rdKey.Length && Expanded(key.rdKey[..], s, userKey, nk, n)
    requires n >= nk && n % nk != 0 && !(nk > 6 && n % nk == 4)
    modifies key.rdKey
    ensures Expanded(key.rdKey[..], s, userKey, nk, n + 1)
  {
    hide KeyWord, XorW;
    PlainWord(s, userKey, nk, n);
    SetWord(key, s, userKey, nk, n, XorW(key.rdKey[n - nk], key.rdKey[n - 1]));
  }

  method SetGroupWord(key: AesKey, s: Sbox, ghost userKey: seq<bv8>, nk: nat, n: nat, i: nat)
    requires n < key.rdKey.Length && Expanded(key.rdKey[..], s, userKey, nk, n)
    requires n >= nk && n % nk == 0 && n / nk == i + 1 && i < 10
    modifies key.rdKey
    ensures Expanded(key.rdKey[..], s, userKey, nk, n + 1)
  {
    hide KeyWord, FirstWord;
    GroupWord(s, userKey, nk, n, i);
    var temp := key.rdKey[n - 1];
    SetWord(key, s, userKey, nk, n, FirstWord(s, key.rdKey[n - nk], temp, RCON[i]));
  }

  method SetHalfWord(key: AesKey, s: Sbox, ghost userKey: seq<bv8>, n: nat)
    requires n < key.rdKey.Length && Expanded(key.rdKey[..], s, userKey, 8, n) && n >= 8 && n % 8 == 4
    modifies key.rdKey
    ensures Expanded(key.rdKey[..], s, userKey, 8, n + 1)
  {
    hide KeyWord, MiddleWord;
    HalfWord(s, userKey, n);
    var temp := key.rdKey[n - 1];
    SetWord(key, s, userKey, 8, n, MiddleWord(s, key.rdKey[n - 8], temp));
  }

  function KeyRounds(bits: int): nat {
    if bits == 128 then 10 else if bits == 192 then 12 else 14
  }

  /** Expand a cipher key; -2 for a key length the cipher does not have. */
  method SetEncryptKey(s: Sbox, userKey: seq<bv8>, bits: int, key: AesKey) returns (status: int)
    requires bits in {128, 192, 256} ==> |userKey| == bits / 8
    requires key.rdKey.Length == 60
    modifies key, key.rdKey
    ensures status == if bits in {128, 192, 256} then 0 else -2
    ensures status == -2 ==> key.rounds == old(key.rounds) && key.rdKey[..] == old(key.rdKey[..])
    ensures status == 0 ==> key.Ready() && key.rounds == KeyRounds(bits)
                            && Expanded(key.rdKey[..], s, userKey, bits / 32, 4 * (key.rounds + 1))
  {
    hide KeyWord;
    if bits != 128 && bits != 192 && bits != 256 {
      return -2;
    }
    key.rounds := if bits == 128 then 10 else if bits == 192 then 12 else 14;
    SetUserWords(key, s, userKey, bits / 32);
    if bits == 128 {
      Expand128(key, s, userKey);
    } else if bits == 192 {
      Expand192(key, s, userKey);
    } else {
      Expand256(key, s, userKey);
    }
    return 0;
  }

  method SetUserWords(key: AesKey, s: Sbox, userKey: seq<bv8>, nk: nat)
    requires 4 <= nk <= 8 && |userKey| == 4 * nk && key.rdKey.Length == 60
    modifies key.rdKey
    ensures Expanded(key.rdKey[..], s, userKey, nk, nk)
  {
    hide Word;
    for n := 0 to nk
      invariant Expanded(key.rdKey[..], s, userKey, nk, n)
    {
      SetWord(key, s, userKey, nk, n, Word(userKey[4 * n], userKey[4 * n + 1], userKey[4 * n + 2], userKey[4 * n + 3]));
    }
  }

  method Expand128(key: AesKey, s: Sbox, ghost userKey: seq<bv8>)
    requires key.rdKey.Length == 60 && Expanded(key.rdKey[..], s, userKey, 4, 4)
    modifies key.rdKey
    ensures Expanded(key.rdKey[..], s, userKey, 4, 44)
  {
    hide Expanded;
    var i, rk := 0, 0;
    while true
      invariant 0 <= i < 10 && rk == 4 * i && Expanded(key.rdKey[..], s, userKey, 4, rk + 4)
      decreases 10 - i
    {
      SetGroupWord(key, s, userKey, 4, rk + 4, i);
      SetPlainWord(key, s, userKey, 4, rk + 5);
      SetPlainWord(key, s, userKey, 4, rk + 6);
      SetPlainWord(key, s, userKey, 4, rk + 7);
      i := i + 1;
      if i == 10 {
        return;
      }
      rk := rk + 4;
    }
  }

  method Expand192(key: AesKey, s: Sbox, ghost userKey: seq<bv8>)
    requires key.rdKey.Length == 60 && Expanded(key.rdKey[..], s, userKey, 6, 6)
    modifies key.rdKey
    ensures Expanded(key.rdKey[..], s, userKey, 6, 52)
  {
    hide Expanded;
    var i, rk := 0, 0;
    while true
      invariant 0 <= i < 8 && rk == 6 * i && Expanded(key.rdKey[..], s, userKey, 6, rk + 6)
      decreases 8 - i
    {
      SetGroupWord(key, s, userKey, 6, rk + 6, i);
      SetPlainWord(key, s, userKey, 6, rk + 7);
      SetPlainWord(key, s, userKey, 6, rk + 8);
      SetPlainWord(key, s, userKey, 6, rk + 9);
      i := i + 1;
      if i == 8 {
        return;
      }
      SetPlainWord(key, s, userKey, 6, rk + 10);
      SetPlainWord(key, s, userKey, 6, rk + 11);
      rk := rk + 6;
    }
  }

  method Expand256(key: AesKey, s: Sbox, ghost userKey: seq<bv8>)
    requires key.rdKey.Length == 60 && Expanded(key.rdKey[..], s, userKey, 8, 8)
    modifies key.rdKey
    ensures Expanded(key.rdKey[..], s, userKey, 8, 60)
  {
    hide Expanded;
    var i, rk := 0, 0;
    while true
      invariant 0 <= i < 7 && rk == 8 * i && Expanded(key.rdKey[..], s, userKey, 8, rk + 8)
      decreases 7 - i
    {
      SetGroupWord(key, s, userKey, 8, rk + 8, i);
      SetPlainWord(key, s, userKey, 8, rk + 9);
      SetPlainWord(key, s, userKey, 8, rk + 10);
      SetPlainWord(key, s, userKey, 8, rk + 11);
      i := i + 1;
      if i == 7 {
        return;
      }
      SetHalfWord(key, s, userKey, rk + 12);
      SetPlainWord(key, s, userKey, 8, rk + 13);
      SetPlainWord(key, s, userKey, 8, rk + 14);
      SetPlainWord(key, s, userKey, 8, rk + 15);
      rk := rk + 8;
    }
  }

  /** The round keys of section 5.2 for a cipher key of `bits` bits. */
  function KeySchedule(s: Sbox, userKey: seq<bv8>, bits: int): (keys: seq<State>)
    requires bits in {128, 192, 256} && |userKey| == bits / 8
    ensures |keys| == KeyRounds(bits) + 1
  {
    seq(KeyRounds(bits) + 1, i requires 0 <= i =>
      State(KeyWord(s, userKey, bits / 32, 4 * i), KeyWord(s, userKey, bits / 32, 4 * i + 1),
            KeyWord(s, userKey, bits / 32, 4 * i + 2), KeyWord(s, userKey, bits / 32, 4 * i + 3)))
  }

  lemma ExpandedKeys(w: seq<bv32>, s: Sbox, userKey: seq<bv8>, bits: int)
    requires bits in {128, 192, 256} && |userKey| == bits / 8
    requires Expanded(w, s, userKey, bits / 32, 4 * (KeyRounds(bits) + 1))
    ensures RoundKeys(w, KeyRounds(bits)) == KeySchedule(s, userKey, bits)
  {
    hide KeyWord;
    assert forall i :: 0 <= i <= KeyRounds(bits) ==>
        RoundKeys(w, KeyRounds(bits))[i] == KeySchedule(s, userKey, bits)[i];
  }

  /** The inverse column mix written with the tables; the substitution cancels. */
  function InvMixByTables(s: Sbox, w: bv32): bv32 {
    XorW(XorW(XorW(Td0(s, B3(Te4(s, B0(w)))), Td1(s, B3(Te4(s, B1(w))))), Td2(s, B3(Te4(s, B2(w))))),
        Td3(s, B3(Te4(s, B3(w)))))
  }

  lemma InvMixByTablesMeans(s: Sbox, w: bv32)
    requires Bijection(s)
    ensures InvMixByTables(s, w) == InvMixColumn(w)
  {
    hide B0, B1, B2, B3, Word, XorW, InvMixRow, Td0, Td1, Td2, Td3;
    var p, q, r, t := s.fwd(B0(w)), s.fwd(B1(w)), s.fwd(B2(w)), s.fwd(B3(w));
    WordBytes(p, p, p, p);
    WordBytes(q, q, q, q);
    WordBytes(r, r, r, r);
    WordBytes(t, t, t, t);
    TablesInvMix(s, p, q, r, t);
  }

  /** Exchange two round keys. */
  method SwapKeys(key: AesKey, a: nat, b: nat)
    requires key.Ready() && a < b <= key.rounds
    modifies key.rdKey
    ensures key.Ready() && key.Keys() == old(key.Keys())[a := old(key.Keys())[b]][b := old(key.Keys())[a]]
  {
    ghost var w := key.rdKey[..];
    for c := 0 to 4
      invariant key.rdKey[..] == Swapped(w, 4 * a, 4 * b, c)
    {
      SwapWords(key.rdKey, 4 * a + c, 4 * b + c);
    }
    SwappedKeys(w, key.rounds, a, b);
  }

  method SwapWords(rk: array<bv32>, i: nat, j: nat)
    requires i < j < rk.Length
    modifies rk
    ensures rk[..] == old(rk[..])[i := old(rk[j])][j := old(rk[i])]
  {
    var temp := rk[i];
    rk[i] := rk[j];
    rk[j] := temp;
  }

  ghost function Swapped(w: seq<bv32>, i: nat, j: nat, c: nat): (r: seq<bv32>)
    requires i + c <= j && j + c <= |w|
    ensures |r| == |w|
  {
    if c == 0 then w else
      var p, q := i + c - 1, j + c - 1;
      var v := Swapped(w, i, j, c - 1);
      v[p := v[q]][q := v[p]]
  }

  lemma {:induction false} SwappedAt(w: seq<bv32>, i: nat, j: nat, c: nat, k: nat)
    requires i + c <= j && j + c <= |w| && k < |w|
    ensures Swapped(w, i, j, c)[k] == if i <= k < i + c then w[k - i + j] else if j <= k < j + c then w[k - j + i]
            else w[k]
  {
    if c > 0 {
      SwappedAt(w, i, j, c - 1, k);
      SwappedAt(w, i, j, c - 1, i + c - 1);
      SwappedAt(w, i, j, c - 1, j + c - 1);
    }
  }

  lemma SwappedKeys(w: seq<bv32>, rounds: nat, a: nat, b: nat)
    requires a < b <= rounds && |w| >= 4 * (rounds + 1)
    ensures RoundKeys(Swapped(w, 4 * a, 4 * b, 4), rounds)
            == RoundKeys(w, rounds)[a := RoundKeys(w, rounds)[b]][b := RoundKeys(w, rounds)[a]]
  {
    hide Swapped;
    var ks := RoundKeys(w, rounds);
    var ks' := RoundKeys(Swapped(w, 4 * a, 4 * b, 4), rounds);
    forall g | 0 <= g <= rounds
      ensures ks'[g] == if g == b then ks[a] else if g == a then ks[b] else ks[g]
    {
      SwappedAt(w, 4 * a, 4 * b, 4, 4 * g);
      SwappedAt(w, 4 * a, 4 * b, 4, 4 * g + 1);
      SwappedAt(w, 4 * a, 4 * b, 4, 4 * g + 2);
      SwappedAt(w, 4 * a, 4 * b, 4, 4 * g + 3);
    }
  }

  /** Transform one round key in place. */
  method TransformKey(key: AesKey, s: Sbox, a: nat)
    requires Bijection(s) && key.Ready() && a <= key.rounds
    modifies key.rdKey
    ensures key.Ready() && key.Keys() == old(key.Keys())[a := InvMixColumns(old(key.Keys())[a])]
  {
    hide InvMixByTables, InvMixColumn, InvMixColumns, RoundKeys;
    var i := 4 * a;
    ghost var w := key.rdKey[..];
    for c := 0 to 4
      invariant forall k :: 0 <= k < 60 ==> key.rdKey[k] == if i <= k < i + c then InvMixColumn(w[k]) else w[k]
    {
      InvMixByTablesMeans(s, key.rdKey[i + c]);
      key.rdKey[i + c] := InvMixByTables(s, key.rdKey[i + c]);
    }
    OneKeyTransformed(w, key.rdKey[..], key.rounds, a);
  }

  lemma OneKeyTransformed(w: seq<bv32>, w': seq<bv32>, rounds: nat, a: nat)
    requires |w| == 60 == |w'| && 4 * rounds + 4 <= 60 && a <= rounds
    requires forall k :: 0 <= k < 60 ==> w'[k] == if 4 * a <= k < 4 * a + 4 then InvMixColumn(w[k]) else w[k]
    ensures RoundKeys(w', rounds) == RoundKeys(w, rounds)[a := InvMixColumns(RoundKeys(w, rounds)[a])]
  {
    hide InvMixColumn;
    var ks := RoundKeys(w, rounds);
    var ks' := ks[a := InvMixColumns(ks[a])];
    assert forall g :: 0 <= g <= rounds ==> RoundKeys(w', rounds)[g] == ks'[g];
  }

  /** `cur` is `ks` turned around outside the positions from `a` to `b`. */
  ghost predicate HalfReversed(cur: seq<State>, ks: seq<State>, a: int, b: int) {
    && 0 <= a <= b + 1 && |cur| == |ks| == a + b + 1
    && forall g {:trigger cur[g]} :: 0 <= g < |ks| ==> cur[g] == if a <= g <= b then ks[g] else ks[|ks| - 1 - g]
  }

  lemma HalfReversedStep(cur: seq<State>, ks: seq<State>, a: int, b: int)
    requires HalfReversed(cur, ks, a, b) && a < b
    ensures HalfReversed(cur[a := cur[b]][b := cur[a]], ks, a + 1, b - 1)
  {
  }

  lemma HalfReversedDone(cur: seq<State>, ks: seq<State>, a: int, b: int)
    requires HalfReversed(cur, ks, a, b) && a >= b
    ensures |cur| == |ks| && forall g :: 0 <= g < |ks| ==> cur[g] == ks[|ks| - 1 - g]
  {
  }

  method ReverseKeys(key: AesKey)
    requires key.Ready()
    modifies key.rdKey
    ensures key.Ready() && forall g :: 0 <= g <= key.rounds ==> key.Keys()[g] == old(key.Keys())[key.rounds - g]
  {
    hide RoundKeys, HalfReversed;
    ghost var ks := key.Keys();
    ghost var cur := ks;
    assert HalfReversed(cur, ks, 0, key.rounds) by { HalfReversedStart(ks); }
    var a, b := 0, key.rounds;
    while a < b
      invariant 0 <= a && b <= key.rounds
      invariant cur == key.Keys() && HalfReversed(cur, ks, a, b)
    {
      HalfReversedStep(cur, ks, a, b);
      SwapKeys(key, a, b);
      cur := cur[a := cur[b]][b := cur[a]];
      a := a + 1;
      b := b - 1;
    }
    HalfReversedDone(cur, ks, a, b);
  }

  lemma HalfReversedStart(ks: seq<State>)
    requires |ks| > 0
    ensures HalfReversed(ks, ks, 0, |ks| - 1)
  {
  }

  method TransformKeys(key: AesKey, s: Sbox)
    requires Bijection(s) && key.Ready()
    modifies key.rdKey
    ensures key.Ready() && forall g :: 0 <= g <= key.rounds ==>
              key.Keys()[g] == if 0 < g < key.rounds then InvMixColumns(old(key.Keys())[g]) else old(key.Keys())[g]
  {
    hide RoundKeys, InvMixColumns;
    ghost var ks := key.Keys();
    for i := 1 to key.rounds
      invariant forall g :: 0 <= g <= key.rounds ==> key.Keys()[g] == if 0 < g < i then InvMixColumns(ks[g]) else ks[g]
    {
      TransformKey(key, s, i);
    }
  }

  /** The schedule of the equivalent inverse cipher. */
  method SetDecryptKey(s: Sbox, userKey: seq<bv8>, bits: int, key: AesKey) returns (status: int)
    requires bits in {128, 192, 256} ==> |userKey| == bits / 8
    requires Bijection(s) && key.rdKey.Length == 60
    modifies key, key.rdKey
    ensures status == if bits in {128, 192, 256} then 0 else -2
    ensures status == -2 ==> key.rounds == old(key.rounds) && key.rdKey[..] == old(key.rdKey[..])
    ensures status == 0 ==> key.Ready() && key.Keys() == InverseKeys(KeySchedule(s, userKey, bits))
  {
    hide RoundKeys, InvMixColumns, KeySchedule, Expanded;
    status := SetEncryptKey(s, userKey, bits, key);
    if status < 0 {
      return;
    }
    ExpandedKeys(key.rdKey[..], s, userKey, bits);
    ReverseKeys(key);
    TransformKeys(key, s);
    ghost var d := InverseKeys(KeySchedule(s, userKey, bits));
    assert forall g :: 0 <= g <= key.rounds ==> key.Keys()[g] == d[g];
  }

  /** From key to block: what is encrypted under a user key is recovered with the decryption schedule of that key. */
  method RoundTrip(s: Sbox, userKey: seq<bv8>, bits: int, block: array<bv8>) returns (cipher: seq<bv8>)
    requires Bijection(s) && bits in {128, 192, 256} && |userKey| == bits / 8 && block.Length == AES_BLOCK_SIZE
    modifies block
    ensures cipher == EncryptBlock(s, KeySchedule(s, userKey, bits), old(block[..])) && block[..] == old(block[..])
  {
    hide RoundKeys, KeySchedule, Expanded, EncryptBlock, DecryptBlock, InverseKeys, Bijection;
    var ek := new AesKey();
    var dk := new AesKey();
    var status := SetEncryptKey(s, userKey, bits, ek);
    ExpandedKeys(ek.rdKey[..], s, userKey, bits);
    status := SetDecryptKey(s, userKey, bits, dk);
    ghost var b := block[..];
    assert block[0..AES_BLOCK_SIZE] == b;
    AesEncrypt(s, block, 0, block, 0, ek);
    cipher := block[..];
    assert cipher == EncryptBlock(s, KeySchedule(s, userKey, bits), b);
    DecryptInverts(s, KeySchedule(s, userKey, bits), b);
    assert block[0..AES_BLOCK_SIZE] == block[..];
    AesDecrypt(s, block, 0, block, 0, dk);
  }
}
