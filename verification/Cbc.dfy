/** Cipher block chaining over the block cipher, for every length, in place or not. */
module Cbc {
  import opened AesField
  import opened AesWords
  import opened Fips197
  import opened Aes

  type Block = b: seq<bv8> | |b| == AES_BLOCK_SIZE witness seq(AES_BLOCK_SIZE, i => 0)

  function XorBlock(a: seq<bv8>, b: seq<bv8>): (r: seq<bv8>)
    requires |a| <= |b|
    ensures |r| == |a|
  {
    seq(|a|, i requires 0 <= i < |a| => Xor(a[i], b[i]))
  }

  /** `b` chained; a partial block is completed with zeros, so there the chaining value shows through. */
  function Chain(b: seq<bv8>, iv: Block): Block
    requires |b| <= AES_BLOCK_SIZE
  {
    XorBlock(b, iv) + iv[|b|..]
  }

  /** The chained encryption of section 6.2 of SP 800-38A over the block function `enc`; the last block may be
      partial. */
  function Encrypted(enc: Block -> Block, iv: Block, pt: seq<bv8>): (ct: seq<bv8>)
    ensures |ct| >= |pt|
    decreases |pt|
  {
    if pt == [] then []
    else if |pt| < AES_BLOCK_SIZE then enc(Chain(pt, iv))
    else
      var c := enc(Chain(pt[..AES_BLOCK_SIZE], iv));
      c + Encrypted(enc, c, pt[AES_BLOCK_SIZE..])
  }

  /** The chained decryption of the whole blocks of `ct`. */
  function Decrypted(dec: Block -> Block, iv: Block, ct: seq<bv8>): (pt: seq<bv8>)
    decreases |ct|
  {
    if |ct| < AES_BLOCK_SIZE then []
    else XorBlock(dec(ct[..AES_BLOCK_SIZE]), iv) + Decrypted(dec, ct[..AES_BLOCK_SIZE], ct[AES_BLOCK_SIZE..])
  }

  /** The chaining value after the blocks of `ct`. */
  function NextIv(iv: Block, ct: seq<bv8>): Block {
    if |ct| < AES_BLOCK_SIZE then iv else ct[|ct| - AES_BLOCK_SIZE..]
  }

  /** The bytes of the blocks that hold `n` bytes. */
  function RoundUp(n: nat): nat {
    (n + AES_BLOCK_SIZE - 1) / AES_BLOCK_SIZE * AES_BLOCK_SIZE
  }

  ghost predicate Inverts(dec: Block -> Block, enc: Block -> Block) {
    forall b :: dec(enc(b)) == b
  }

  lemma XorTwiceByte(a: bv8, b: bv8)
    ensures Xor(Xor(a, b), b) == a
  {
  }

  lemma Unchain(b: seq<bv8>, iv: Block)
    requires |b| <= AES_BLOCK_SIZE
    ensures XorBlock(Chain(b, iv), iv)[..|b|] == b
  {
    forall i | 0 <= i < |b|
      ensures XorBlock(Chain(b, iv), iv)[i] == b[i]
    {
      XorTwiceByte(b[i], iv[i]);
    }
  }

  lemma EncryptedCons(enc: Block -> Block, iv: Block, head: Block, rest: seq<bv8>)
    ensures Encrypted(enc, iv, head + rest) == enc(Chain(head, iv)) + Encrypted(enc, enc(Chain(head, iv)), rest)
  {
    hide Chain;
    assert (head + rest)[..AES_BLOCK_SIZE] == head && (head + rest)[AES_BLOCK_SIZE..] == rest;
  }

  lemma DecryptedCons(dec: Block -> Block, iv: Block, head: Block, rest: seq<bv8>)
    ensures Decrypted(dec, iv, head + rest) == XorBlock(dec(head), iv) + Decrypted(dec, head, rest)
  {
    hide XorBlock;
    assert (head + rest)[..AES_BLOCK_SIZE] == head && (head + rest)[AES_BLOCK_SIZE..] == rest;
  }

  /** Decryption undoes encryption for every length and every chaining value. */
  lemma {:induction false} CbcRoundTrip(enc: Block -> Block, dec: Block -> Block, iv: Block, pt: seq<bv8>)
    requires Inverts(dec, enc)
    ensures |pt| <= |Decrypted(dec, iv, Encrypted(enc, iv, pt))|
    ensures Decrypted(dec, iv, Encrypted(enc, iv, pt))[..|pt|] == pt
    decreases |pt|
  {
    hide XorBlock, Chain;
    if |pt| >= AES_BLOCK_SIZE {
      var head, rest := pt[..AES_BLOCK_SIZE], pt[AES_BLOCK_SIZE..];
      var c := enc(Chain(head, iv));
      Unchain(head, iv);
      CbcRoundTrip(enc, dec, c, rest);
      assert pt == head + rest;
      EncryptedCons(enc, iv, head, rest);
      DecryptedCons(dec, iv, c, Encrypted(enc, c, rest));
    } else if |pt| > 0 {
      var c := enc(Chain(pt, iv));
      assert c + [] == c;
      DecryptedCons(dec, iv, c, []);
      Unchain(pt, iv);
    }
  }

  /** A partial last block is encrypted as if it were filled up with zeros. */
  lemma {:induction false} PartialBlock(enc: Block -> Block, iv: Block, pt: seq<bv8>, zeros: seq<bv8>)
    requires |zeros| < AES_BLOCK_SIZE && (|pt| + |zeros|) % AES_BLOCK_SIZE == 0
             && forall k | 0 <= k < |zeros| :: zeros[k] == 0
    ensures Encrypted(enc, iv, pt) == Encrypted(enc, iv, pt + zeros)
    decreases |pt|
  {
    if |pt| >= AES_BLOCK_SIZE {
      var c := enc(Chain(pt[..AES_BLOCK_SIZE], iv));
      PartialBlock(enc, c, pt[AES_BLOCK_SIZE..], zeros);
      assert (pt + zeros)[..AES_BLOCK_SIZE] == pt[..AES_BLOCK_SIZE];
      assert (pt + zeros)[AES_BLOCK_SIZE..] == pt[AES_BLOCK_SIZE..] + zeros;
    } else if pt != [] {
      var b := pt + zeros;
      ChainZeros(pt, zeros, iv);
      assert b[..AES_BLOCK_SIZE] == b && b[AES_BLOCK_SIZE..] == [];
      var c := enc(Chain(pt, iv));
      assert c + [] == c;
    }
  }

  lemma ChainZeros(pt: seq<bv8>, zeros: seq<bv8>, iv: Block)
    requires |pt| + |zeros| == AES_BLOCK_SIZE && forall k | 0 <= k < |zeros| :: zeros[k] == 0
    ensures Chain(pt + zeros, iv) == Chain(pt, iv)
  {
    var a, b := Chain(pt + zeros, iv), Chain(pt, iv);
    forall k | 0 <= k < AES_BLOCK_SIZE
      ensures a[k] == b[k]
    {
      XorComm(0, iv[k]);
      XorZero(iv[k]);
    }
    assert a == b;
  }

  /** Decrypting in two runs, the second with the chaining value left by the first, is decrypting in one. */
  lemma {:induction false} DecryptedSplit(dec: Block -> Block, iv: Block, a: seq<bv8>, b: seq<bv8>, n: nat)
    requires |a| == AES_BLOCK_SIZE * n
    ensures Decrypted(dec, iv, a + b) == Decrypted(dec, iv, a) + Decrypted(dec, NextIv(iv, a), b)
    ensures |Decrypted(dec, iv, a)| == |a|
    decreases n
  {
    if n == 0 {
      assert a + b == b;
    } else {
      hide XorBlock, Decrypted;
      var c, rest := a[..AES_BLOCK_SIZE], a[AES_BLOCK_SIZE..];
      assert a == c + rest && a + b == c + (rest + b);
      DecryptedSplit(dec, c, rest, b, n - 1);
      DecryptedCons(dec, iv, c, rest);
      DecryptedCons(dec, iv, c, rest + b);
      assert NextIv(iv, a) == NextIv(c, rest);
    }
  }

  lemma {:induction false} EncryptedSplit(enc: Block -> Block, iv: Block, a: seq<bv8>, b: seq<bv8>, n: nat)
    requires |a| == AES_BLOCK_SIZE * n
    ensures Encrypted(enc, iv, a + b) == Encrypted(enc, iv, a) + Encrypted(enc, NextIv(iv, Encrypted(enc, iv, a)), b)
    ensures |Encrypted(enc, iv, a)| == |a|
    decreases n
  {
    if n == 0 {
      assert a + b == b;
    } else {
      hide Chain, Encrypted;
      var head, rest := a[..AES_BLOCK_SIZE], a[AES_BLOCK_SIZE..];
      var c := enc(Chain(head, iv));
      assert a == head + rest && a + b == head + (rest + b);
      EncryptedSplit(enc, c, rest, b, n - 1);
      EncryptedCons(enc, iv, head, rest);
      EncryptedCons(enc, iv, head, rest + b);
      assert NextIv(iv, c + Encrypted(enc, c, rest)) == NextIv(c, Encrypted(enc, c, rest));
    }
  }

  /** Block `j` of the plaintext depends on blocks `j` and `j - 1` of the ciphertext only. */
  lemma DecryptedBlock(dec: Block -> Block, iv: Block, ct: seq<bv8>, j: nat)
    requires (j + 1) * AES_BLOCK_SIZE <= |ct|
    ensures var at := j * AES_BLOCK_SIZE;
            && at + AES_BLOCK_SIZE <= |Decrypted(dec, iv, ct)|
            && Decrypted(dec, iv, ct)[at..at + AES_BLOCK_SIZE]
               == XorBlock(dec(ct[at..at + AES_BLOCK_SIZE]), if j == 0 then iv else ct[at - AES_BLOCK_SIZE..at])
  {
    hide XorBlock;
    var at := j * AES_BLOCK_SIZE;
    var a, b := ct[..at], ct[at..];
    assert ct == a + b;
    DecryptedSplit(dec, iv, a, b, j);
    assert b[..AES_BLOCK_SIZE] == ct[at..at + AES_BLOCK_SIZE];
    assert NextIv(iv, a) == if j == 0 then iv else ct[at - AES_BLOCK_SIZE..at];
  }

  // ---- The block functions of AES ---------------------------------------------------------------------------

  function AesEnc(s: Sbox, keys: seq<State>): Block -> Block
    requires |keys| >= 2
  {
    (b: Block) => EncryptBlock(s, keys, b)
  }

  function AesDec(s: Sbox, dkeys: seq<State>): Block -> Block
    requires |dkeys| >= 2
  {
    (b: Block) => DecryptBlock(s, dkeys, b)
  }

  lemma AesInverts(s: Sbox, keys: seq<State>)
    requires Bijection(s) && |keys| >= 2
    ensures Inverts(AesDec(s, InverseKeys(keys)), AesEnc(s, keys))
  {
    hide Bijection, EncryptBlock, DecryptBlock, InverseKeys;
    forall b: Block
      ensures DecryptBlock(s, InverseKeys(keys), EncryptBlock(s, keys, b)) == b
    {
      DecryptInverts(s, keys, b);
    }
  }

  lemma PutTwice(b: seq<bv8>, at: nat, x: seq<bv8>, y: seq<bv8>)
    requires at + |x| + |y| <= |b|
    ensures Put(Put(b, at, x), at + |x|, y) == Put(b, at, x + y)
  {
  }

  /** Bytes outside the replaced range stay. */
  lemma PutOutside(b: seq<bv8>, at: nat, x: seq<bv8>, lo: nat, hi: nat)
    requires at + |x| <= |b| && lo <= hi <= |b| && (hi <= at || at + |x| <= lo)
    ensures Put(b, at, x)[lo..hi] == b[lo..hi]
  {
  }

  /** The buffers of a chaining call: the output may be the input itself, and nothing else overlaps. */
  ghost predicate Buffers(inp: array<bv8>, inAt: nat, out: array<bv8>, outAt: nat, ivec: array<bv8>) {
    && (inp == out ==> inAt == outAt)
    && ivec != inp && ivec != out && ivec.Length == AES_BLOCK_SIZE
  }

  method CopyIn(dst: array<bv8>, src: array<bv8>, at: nat, n: nat)
    requires dst != src && at + n <= src.Length && n <= dst.Length
    modifies dst
    ensures dst[..] == src[at..at + n] + old(dst[n..])
  {
    for i := 0 to n
      invariant forall k :: 0 <= k < dst.Length ==> dst[k] == if k < i then src[at + k] else old(dst[k])
    {
      dst[i] := src[at + i];
    }
  }

  /** `tmp[n] = in[n] ^ ivec[n]` for the first `n` bytes, the chaining value for the others. */
  method XorIn(tmp: array<bv8>, inp: array<bv8>, at: nat, n: nat, ivec: array<bv8>)
    requires tmp.Length == ivec.Length == AES_BLOCK_SIZE && n <= AES_BLOCK_SIZE && at + n <= inp.Length
    requires tmp != inp && tmp != ivec
    modifies tmp
    ensures tmp[..] == Chain(inp[at..at + n], ivec[..])
  {
    hide Xor;
    for i := 0 to n
      invariant forall k :: 0 <= k < i ==> tmp[k] == Xor(inp[at + k], ivec[k])
    {
      tmp[i] := Xor(inp[at + i], ivec[i]);
    }
    for i := n to AES_BLOCK_SIZE
      invariant forall k :: 0 <= k < n ==> tmp[k] == Xor(inp[at + k], ivec[k])
      invariant forall k :: n <= k < i ==> tmp[k] == ivec[k]
    {
      tmp[i] := ivec[i];
    }
  }

  method EncryptStep(s: Sbox, inp: array<bv8>, i: nat, n: nat, out: array<bv8>, o: nat, key: AesKey, ivec: array<bv8>)
    requires key.Ready() && ivec != inp && ivec != out && ivec.Length == AES_BLOCK_SIZE
    requires n <= AES_BLOCK_SIZE && i + n <= inp.Length && o + AES_BLOCK_SIZE <= out.Length
    modifies out, ivec
    ensures var c := AesEnc(s, key.Keys())(Chain(old(inp[i..i + n]), old(ivec[..])));
            out[..] == Put(old(out[..]), o, c) && ivec[..] == c
  {
    hide EncryptBlock, Put, Chain;
    var tmp := new bv8[AES_BLOCK_SIZE];
    XorIn(tmp, inp, i, n, ivec);
    ghost var block := tmp[..];
    assert tmp[0..AES_BLOCK_SIZE] == block;
    AesEncrypt(s, tmp, 0, out, o, key);
    PutBack(old(out[..]), o, EncryptBlock(s, key.Keys(), block));
    assert out[o..o + AES_BLOCK_SIZE] == out[..][o..o + AES_BLOCK_SIZE];
    CopyIn(ivec, out, o, AES_BLOCK_SIZE);
  }

  lemma PutBack(b: seq<bv8>, at: nat, x: seq<bv8>)
    requires at + |x| <= |b|
    ensures Put(b, at, x)[at..at + |x|] == x
  {
  }

  method DecryptStep(s: Sbox, inp: array<bv8>, i: nat, out: array<bv8>, o: nat, key: AesKey, ivec: array<bv8>)
    requires key.Ready() && ivec != inp && ivec != out && ivec.Length == AES_BLOCK_SIZE
    requires i + AES_BLOCK_SIZE <= inp.Length && o + AES_BLOCK_SIZE <= out.Length
    modifies out, ivec
    ensures ivec[..] == old(inp[i..i + AES_BLOCK_SIZE])
    ensures out[..]
            == Put(old(out[..]), o, XorBlock(AesDec(s, key.Keys())(old(inp[i..i + AES_BLOCK_SIZE])), old(ivec[..])))
  {
    hide DecryptBlock, Put, XorBlock;
    var tmp := new bv8[AES_BLOCK_SIZE];
    CopyIn(tmp, inp, i, AES_BLOCK_SIZE);
    ghost var block := tmp[..];
    assert block == inp[i..i + AES_BLOCK_SIZE];
    AesDecrypt(s, inp, i, out, o, key);
    XorOut(out, o, DecryptBlock(s, key.Keys(), block), old(out[..]), ivec);
    assert tmp[0..AES_BLOCK_SIZE] == block;
    CopyIn(ivec, tmp, 0, AES_BLOCK_SIZE);
  }

  /** `out[n] ^= ivec[n]`. */
  method XorOut(out: array<bv8>, o: nat, ghost block: seq<bv8>, ghost was: seq<bv8>, ivec: array<bv8>)
    requires ivec != out && ivec.Length == AES_BLOCK_SIZE == |block| && o + AES_BLOCK_SIZE <= out.Length == |was|
    requires out[..] == Put(was, o, block)
    modifies out
    ensures out[..] == Put(was, o, XorBlock(block, ivec[..]))
  {
    hide Xor;
    for n := 0 to AES_BLOCK_SIZE
      invariant forall k :: 0 <= k < out.Length ==>
                  out[k] == if o <= k < o + n then Xor(block[k - o], ivec[k - o])
                            else if o + n <= k < o + AES_BLOCK_SIZE then block[k - o] else was[k]
    {
      out[o + n] := Xor(out[o + n], ivec[n]);
    }
  }

  // ---- Whole buffers ----------------------------------------------------------------------------------------

  lemma OneBlock(enc: Block -> Block, iv: Block, b: seq<bv8>)
    requires 0 < |b| <= AES_BLOCK_SIZE
    ensures Encrypted(enc, iv, b) == enc(Chain(b, iv))
  {
    hide Chain;
    if |b| == AES_BLOCK_SIZE {
      assert b + [] == b;
      EncryptedCons(enc, iv, b, []);
    }
  }

  /** The first `n` bytes of `pt` have been encrypted into `out`. */
  ghost predicate EncProgress(enc: Block -> Block, iv0: Block, pt: seq<bv8>, was: seq<bv8>, outAt: nat, n: nat,
                              out: seq<bv8>, iv: seq<bv8>)
  {
    && n <= |pt|
    && var ct := Encrypted(enc, iv0, pt[..n]);
       |ct| == RoundUp(n) && outAt + |ct| <= |was| && out == Put(was, outAt, ct) && iv == NextIv(iv0, ct)
  }

  lemma EncStart(enc: Block -> Block, iv0: Block, pt: seq<bv8>, was: seq<bv8>, outAt: nat)
    requires outAt <= |was|
    ensures EncProgress(enc, iv0, pt, was, outAt, 0, was, iv0)
  {
    assert was == was[..outAt] + [] + was[outAt..];
  }

  lemma EncAdvance(enc: Block -> Block, iv0: Block, pt: seq<bv8>, was: seq<bv8>, outAt: nat, done: nat,
                   out: seq<bv8>, iv: Block, m: nat)
    requires EncProgress(enc, iv0, pt, was, outAt, AES_BLOCK_SIZE * done, out, iv)
    requires 0 < m <= AES_BLOCK_SIZE && AES_BLOCK_SIZE * done + m <= |pt|
             && outAt + AES_BLOCK_SIZE * (done + 1) <= |was|
    ensures var at := AES_BLOCK_SIZE * done;
            var c := enc(Chain(pt[at..at + m], iv));
            |out| == |was| && EncProgress(enc, iv0, pt, was, outAt, at + m, Put(out, outAt + at, c), c)
  {
    hide Chain, Encrypted, Put;
    var at := AES_BLOCK_SIZE * done;
    var a, b := pt[..at], pt[at..at + m];
    assert pt[..at + m] == a + b;
    EncryptedSplit(enc, iv0, a, b, done);
    OneBlock(enc, iv, b);
    PutTwice(was, outAt, Encrypted(enc, iv0, a), enc(Chain(b, iv)));
  }

  lemma UnreadInput(inp: seq<bv8>, inAt: nat, total: nat, at: nat, pt: seq<bv8>, m: nat)
    requires at + m <= total == |pt| && inAt + total <= |inp| && inp[inAt + at..inAt + total] == pt[at..]
    ensures inp[inAt + at..inAt + at + m] == pt[at..at + m]
    ensures inp[inAt + at + m..inAt + total] == pt[at + m..]
  {
    assert pt[at..at + m] == pt[at..][..m] && pt[at + m..] == pt[at..][m..];
    assert inp[inAt + at..inAt + at + m] == inp[inAt + at..inAt + total][..m];
    assert inp[inAt + at + m..inAt + total] == inp[inAt + at..inAt + total][m..];
  }

  /** One block of a run: encrypt `m` bytes after the first `done` blocks. */
  method EncryptNext(s: Sbox, inp: array<bv8>, inAt: nat, out: array<bv8>, outAt: nat, key: AesKey, ivec: array<bv8>,
                     done: nat, m: nat, ghost iv0: Block, ghost pt: seq<bv8>, ghost was: seq<bv8>)
    requires key.Ready() && Buffers(inp, inAt, out, outAt, ivec)
    requires 0 < m <= AES_BLOCK_SIZE && AES_BLOCK_SIZE * done + m <= |pt|
    requires inAt + |pt| <= inp.Length && outAt + AES_BLOCK_SIZE * (done + 1) <= out.Length
    requires EncProgress(AesEnc(s, key.Keys()), iv0, pt, was, outAt, AES_BLOCK_SIZE * done, out[..], ivec[..])
    requires inp[inAt + AES_BLOCK_SIZE * done..inAt + |pt|] == pt[AES_BLOCK_SIZE * done..]
    modifies out, ivec
    ensures EncProgress(AesEnc(s, key.Keys()), iv0, pt, was, outAt, AES_BLOCK_SIZE * done + m, out[..], ivec[..])
    ensures m == AES_BLOCK_SIZE ==>
              inp[inAt + AES_BLOCK_SIZE * (done + 1)..inAt + |pt|] == pt[AES_BLOCK_SIZE * (done + 1)..]
  {
    hide AesEnc, Encrypted, Chain, Put, EncProgress, NextIv;
    ghost var o, iv, before := out[..], ivec[..], inp[..];
    var at := AES_BLOCK_SIZE * done;
    UnreadInput(inp[..], inAt, |pt|, at, pt, m);
    ProgressLength(AesEnc(s, key.Keys()), iv0, pt, was, outAt, at, o, iv);
    EncAdvance(AesEnc(s, key.Keys()), iv0, pt, was, outAt, done, o, iv, m);
    EncryptStep(s, inp, inAt + at, m, out, outAt + at, key, ivec);
    if m == AES_BLOCK_SIZE && inp == out {
      PutOutside(o, outAt + at, ivec[..], inAt + at + m, inAt + |pt|);
    }
  }

  lemma ProgressLength(enc: Block -> Block, iv0: Block, pt: seq<bv8>, was: seq<bv8>, outAt: nat, n: nat,
                       out: seq<bv8>, iv: seq<bv8>)
    requires EncProgress(enc, iv0, pt, was, outAt, n, out, iv)
    ensures |out| == |was|
  {
  }

  method CbcEncrypt(s: Sbox, inp: array<bv8>, inAt: nat, out: array<bv8>, outAt: nat, length: nat, key: AesKey,
      ivec: array<bv8>)
    requires key.Ready() && Buffers(inp, inAt, out, outAt, ivec)
    requires inAt + length <= inp.Length && outAt + RoundUp(length) <= out.Length
    modifies out, ivec
    ensures var ct := Encrypted(AesEnc(s, key.Keys()), old(ivec[..]), old(inp[inAt..inAt + length]));
            && |ct| == RoundUp(length)
            && out[..] == Put(old(out[..]), outAt, ct) && ivec[..] == NextIv(old(ivec[..]), ct)
  {
    hide AesEnc, Encrypted, Chain, Put, EncProgress, NextIv;
    ghost var iv0, pt, was := ivec[..], inp[inAt..inAt + length], out[..];
    var len: nat, done: nat := length, 0;
    EncStart(AesEnc(s, key.Keys()), iv0, pt, was, outAt);
    assert pt == pt[0..];
    while len >= AES_BLOCK_SIZE
      invariant length == len + AES_BLOCK_SIZE * done
      invariant EncProgress(AesEnc(s, key.Keys()), iv0, pt, was, outAt, AES_BLOCK_SIZE * done, out[..], ivec[..])
      invariant inp[inAt + AES_BLOCK_SIZE * done..inAt + length] == pt[AES_BLOCK_SIZE * done..]
    {
      EncryptNext(s, inp, inAt, out, outAt, key, ivec, done, AES_BLOCK_SIZE, iv0, pt, was);
      len := len - AES_BLOCK_SIZE;
      done := done + 1;
    }
    if len > 0 {
      EncryptNext(s, inp, inAt, out, outAt, key, ivec, done, len, iv0, pt, was);
    }
    assert AES_BLOCK_SIZE * done + len == |pt|;
    ProgressDone(AesEnc(s, key.Keys()), iv0, pt, was, outAt, out[..], ivec[..]);
  }

  lemma ProgressDone(enc: Block -> Block, iv0: Block, pt: seq<bv8>, was: seq<bv8>, outAt: nat, out: seq<bv8>,
      iv: seq<bv8>)
    requires EncProgress(enc, iv0, pt, was, outAt, |pt|, out, iv)
    ensures var ct := Encrypted(enc, iv0, pt);
            |ct| == RoundUp(|pt|) && outAt + |ct| <= |was| && out == Put(was, outAt, ct) && iv == NextIv(iv0, ct)
  {
    assert pt[..|pt|] == pt;
  }

  /** The first `n` bytes of `ct` have been decrypted into `out`. */
  ghost predicate DecProgress(dec: Block -> Block, iv0: Block, ct: seq<bv8>, was: seq<bv8>, outAt: nat, n: nat,
                              out: seq<bv8>, iv: seq<bv8>)
  {
    && n <= |ct|
    && var pt := Decrypted(dec, iv0, ct[..n]);
       |pt| == n && outAt + n <= |was| && out == Put(was, outAt, pt) && iv == NextIv(iv0, ct[..n])
  }

  lemma DecStart(dec: Block -> Block, iv0: Block, ct: seq<bv8>, was: seq<bv8>, outAt: nat)
    requires outAt <= |was|
    ensures DecProgress(dec, iv0, ct, was, outAt, 0, was, iv0)
  {
    assert was == was[..outAt] + [] + was[outAt..];
  }

  lemma DecAdvance(dec: Block -> Block, iv0: Block, ct: seq<bv8>, done: nat, iv: Block)
    requires AES_BLOCK_SIZE * (done + 1) <= |ct| && iv == NextIv(iv0, ct[..AES_BLOCK_SIZE * done])
    ensures var at := AES_BLOCK_SIZE * done;
            && |Decrypted(dec, iv0, ct[..at])| == at
            && Decrypted(dec, iv0, ct[..at + AES_BLOCK_SIZE])
               == Decrypted(dec, iv0, ct[..at]) + XorBlock(dec(ct[at..at + AES_BLOCK_SIZE]), iv)
            && NextIv(iv0, ct[..at + AES_BLOCK_SIZE]) == ct[at..at + AES_BLOCK_SIZE]
  {
    hide XorBlock, Decrypted;
    var at := AES_BLOCK_SIZE * done;
    var a, b := ct[..at], ct[at..at + AES_BLOCK_SIZE];
    assert ct[..at + AES_BLOCK_SIZE] == a + b;
    DecryptedSplit(dec, iv0, a, b, done);
    assert b + [] == b;
    DecryptedCons(dec, iv, b, []);
    assert Decrypted(dec, b, []) == [] by { NothingDecrypted(dec, b); }
  }

  lemma NothingDecrypted(dec: Block -> Block, iv: Block)
    ensures Decrypted(dec, iv, []) == []
  {
  }

  method DecryptNext(s: Sbox, inp: array<bv8>, inAt: nat, out: array<bv8>, outAt: nat, key: AesKey, ivec: array<bv8>,
                     done: nat, ghost iv0: Block, ghost ct: seq<bv8>, ghost was: seq<bv8>)
    requires key.Ready() && Buffers(inp, inAt, out, outAt, ivec)
    requires AES_BLOCK_SIZE * (done + 1) <= |ct|
    requires inAt + |ct| <= inp.Length && outAt + AES_BLOCK_SIZE * (done + 1) <= out.Length
    requires DecProgress(AesDec(s, key.Keys()), iv0, ct, was, outAt, AES_BLOCK_SIZE * done, out[..], ivec[..])
    requires inp[inAt + AES_BLOCK_SIZE * done..inAt + |ct|] == ct[AES_BLOCK_SIZE * done..]
    modifies out, ivec
    ensures DecProgress(AesDec(s, key.Keys()), iv0, ct, was, outAt, AES_BLOCK_SIZE * (done + 1), out[..], ivec[..])
    ensures inp[inAt + AES_BLOCK_SIZE * (done + 1)..inAt + |ct|] == ct[AES_BLOCK_SIZE * (done + 1)..]
  {
    hide AesDec, Decrypted, XorBlock, Put, NextIv;
    ghost var o, iv, at: nat := out[..], ivec[..], AES_BLOCK_SIZE * done;
    ghost var x := XorBlock(AesDec(s, key.Keys())(ct[at..at + AES_BLOCK_SIZE]), iv);
    UnreadInput(inp[..], inAt, |ct|, at, ct, AES_BLOCK_SIZE);
    DecAdvance(AesDec(s, key.Keys()), iv0, ct, done, iv);
    DecryptStep(s, inp, inAt + AES_BLOCK_SIZE * done, out, outAt + AES_BLOCK_SIZE * done, key, ivec);
    PutTwice(was, outAt, Decrypted(AesDec(s, key.Keys()), iv0, ct[..at]), x);
    if inp == out {
      PutOutside(o, outAt + at, x, inAt + at + AES_BLOCK_SIZE, inAt + |ct|);
    }
  }

  /** The last, partial block: a whole block is read, `n` bytes are written, and the chaining value becomes the
      decrypted block, not the block read, because the source copies it after decrypting it in place. */
  method DecryptTail(s: Sbox, inp: array<bv8>, i: nat, n: nat, out: array<bv8>, o: nat, key: AesKey, ivec: array<bv8>)
    requires key.Ready() && ivec != inp && ivec != out && ivec.Length == AES_BLOCK_SIZE
    requires i + AES_BLOCK_SIZE <= inp.Length && n <= AES_BLOCK_SIZE && o + n <= out.Length
    modifies out, ivec
    ensures var x := AesDec(s, key.Keys())(old(inp[i..i + AES_BLOCK_SIZE]));
            out[..] == Put(old(out[..]), o, XorBlock(x, old(ivec[..]))[..n]) && ivec[..] == x
  {
    hide DecryptBlock;
    var tmp := new bv8[AES_BLOCK_SIZE];
    CopyIn(tmp, inp, i, AES_BLOCK_SIZE);
    assert tmp[0..AES_BLOCK_SIZE] == inp[i..i + AES_BLOCK_SIZE];
    AesDecrypt(s, tmp, 0, tmp, 0, key);
    ghost var x := tmp[..];
    XorTail(out, o, n, tmp, ivec);
    assert tmp[0..AES_BLOCK_SIZE] == x;
    CopyIn(ivec, tmp, 0, AES_BLOCK_SIZE);
  }

  /** `out[k] = tmp[k] ^ ivec[k]` for the first `n` bytes. */
  method XorTail(out: array<bv8>, o: nat, n: nat, tmp: array<bv8>, ivec: array<bv8>)
    requires tmp != out && ivec != out && ivec.Length == AES_BLOCK_SIZE == tmp.Length && n <= AES_BLOCK_SIZE
             && o + n <= out.Length
    modifies out
    ensures out[..] == Put(old(out[..]), o, XorBlock(tmp[..], ivec[..])[..n])
  {
    hide Xor;
    for k := 0 to n
      invariant forall j :: 0 <= j < out.Length ==>
                  out[j] == if o <= j < o + k then Xor(tmp[j - o], ivec[j - o]) else old(out[j])
    {
      out[o + k] := Xor(tmp[k], ivec[k]);
    }
  }

  /** The chaining value the code leaves after decrypting `length` bytes. */
  function LeftIv(dec: Block -> Block, iv: Block, ct: seq<bv8>, length: nat): Block
    requires length <= |ct|
  {
    if length == |ct| || |ct| < AES_BLOCK_SIZE then NextIv(iv, ct) else dec(ct[|ct| - AES_BLOCK_SIZE..])
  }

  lemma TailOf(dec: Block -> Block, iv0: Block, ct: seq<bv8>, done: nat, length: nat, iv: Block)
    requires AES_BLOCK_SIZE * done <= length <= |ct| == RoundUp(length) && length < AES_BLOCK_SIZE * (done + 1)
    requires iv == NextIv(iv0, ct[..AES_BLOCK_SIZE * done])
    ensures var at := AES_BLOCK_SIZE * done;
            && |Decrypted(dec, iv0, ct)| == |ct| && |Decrypted(dec, iv0, ct[..at])| == at
            && (if length == at then Decrypted(dec, iv0, ct)[..length] == Decrypted(dec, iv0, ct[..at])
                && LeftIv(dec, iv0, ct, length) == iv
                else |ct| == at + AES_BLOCK_SIZE && LeftIv(dec, iv0, ct, length) == dec(ct[at..])
                     && Decrypted(dec, iv0, ct)[..length]
                        == Decrypted(dec, iv0, ct[..at]) + XorBlock(dec(ct[at..]), iv)[..length - at])
  {
    hide XorBlock, Decrypted;
    var at := AES_BLOCK_SIZE * done;
    if length == at {
      assert ct[..at] == ct && ct + [] == ct;
      DecryptedSplit(dec, iv0, ct, [], done);
    } else {
      assert |ct| == at + AES_BLOCK_SIZE;
      DecAdvance(dec, iv0, ct, done, iv);
      assert ct[..at + AES_BLOCK_SIZE] == ct && ct[at..at + AES_BLOCK_SIZE] == ct[at..];
    }
  }

  method CbcDecrypt(s: Sbox, inp: array<bv8>, inAt: nat, out: array<bv8>, outAt: nat, length: nat, key: AesKey,
      ivec: array<bv8>)
    requires key.Ready() && Buffers(inp, inAt, out, outAt, ivec)
    requires inAt + RoundUp(length) <= inp.Length && outAt + length <= out.Length
    modifies out, ivec
    ensures var ct := old(inp[inAt..inAt + RoundUp(length)]);
            var pt := Decrypted(AesDec(s, key.Keys()), old(ivec[..]), ct);
            && |pt| == |ct| && length <= |ct|
            && out[..] == Put(old(out[..]), outAt, pt[..length])
            && ivec[..] == LeftIv(AesDec(s, key.Keys()), old(ivec[..]), ct, length)
  {
    hide AesDec, Decrypted, XorBlock, Put, NextIv, LeftIv;
    ghost var iv0, ct, was := ivec[..], inp[inAt..inAt + RoundUp(length)], out[..];
    ghost var dec := AesDec(s, key.Keys());
    var len: nat, done: nat := length, 0;
    DecStart(dec, iv0, ct, was, outAt);
    assert ct == ct[0..];
    while len >= AES_BLOCK_SIZE
      invariant length == len + AES_BLOCK_SIZE * done
      invariant DecProgress(dec, iv0, ct, was, outAt, AES_BLOCK_SIZE * done, out[..], ivec[..])
      invariant inp[inAt + AES_BLOCK_SIZE * done..inAt + |ct|] == ct[AES_BLOCK_SIZE * done..]
    {
      DecryptNext(s, inp, inAt, out, outAt, key, ivec, done, iv0, ct, was);
      len := len - AES_BLOCK_SIZE;
      done := done + 1;
    }
    TailOf(dec, iv0, ct, done, length, ivec[..]);
    if len > 0 {
      FinishTail(s, inp, inAt, out, outAt, len, key, ivec, done, iv0, ct, was);
    }
  }

  method FinishTail(s: Sbox, inp: array<bv8>, inAt: nat, out: array<bv8>, outAt: nat, len: nat, key: AesKey,
      ivec: array<bv8>,
                    done: nat, ghost iv0: Block, ghost ct: seq<bv8>, ghost was: seq<bv8>)
    requires key.Ready() && Buffers(inp, inAt, out, outAt, ivec)
    requires 0 < len < AES_BLOCK_SIZE && |ct| == AES_BLOCK_SIZE * (done + 1)
    requires inAt + |ct| <= inp.Length && outAt + AES_BLOCK_SIZE * done + len <= out.Length
    requires DecProgress(AesDec(s, key.Keys()), iv0, ct, was, outAt, AES_BLOCK_SIZE * done, out[..], ivec[..])
    requires inp[inAt + AES_BLOCK_SIZE * done..inAt + |ct|] == ct[AES_BLOCK_SIZE * done..]
    modifies out, ivec
    ensures var at := AES_BLOCK_SIZE * done;
            var dec := AesDec(s, key.Keys());
            && outAt + at + len <= |was| && |Decrypted(dec, iv0, ct[..at])| == at
            && ivec[..] == dec(ct[at..])
            && out[..] == Put(was, outAt, Decrypted(dec, iv0, ct[..at])
                + XorBlock(dec(ct[at..]), NextIv(iv0, ct[..at]))[..len])
  {
    hide AesDec, Decrypted, XorBlock, Put, NextIv;
    ghost var at := AES_BLOCK_SIZE * done;
    ghost var dec, iv := AesDec(s, key.Keys()), ivec[..];
    DecryptTail(s, inp, inAt + AES_BLOCK_SIZE * done, len, out, outAt + AES_BLOCK_SIZE * done, key, ivec);
    PutTwice(was, outAt, Decrypted(dec, iv0, ct[..at]), XorBlock(dec(ct[at..]), iv)[..len]);
  }

  /** The chaining entry point: encrypt or decrypt `length` bytes and leave the chaining value for the next call. */
  method AesCbcEncrypt(s: Sbox, inp: array<bv8>, inAt: nat, out: array<bv8>, outAt: nat, length: nat, key: AesKey,
                       ivec: array<bv8>, enc: bool)
    requires key.Ready() && Buffers(inp, inAt, out, outAt, ivec)
    requires inAt + (if enc then length else RoundUp(length)) <= inp.Length
    requires outAt + (if enc then RoundUp(length) else length) <= out.Length
    modifies out, ivec
    ensures enc ==>
              var ct := Encrypted(AesEnc(s, key.Keys()), old(ivec[..]), old(inp[inAt..inAt + length]));
              && |ct| == RoundUp(length)
              && out[..] == Put(old(out[..]), outAt, ct) && ivec[..] == NextIv(old(ivec[..]), ct)
    ensures !enc ==>
              var ct := old(inp[inAt..inAt + RoundUp(length)]);
              var pt := Decrypted(AesDec(s, key.Keys()), old(ivec[..]), ct);
              && |pt| == |ct| && length <= |ct|
              && out[..] == Put(old(out[..]), outAt, pt[..length])
              && ivec[..] == LeftIv(AesDec(s, key.Keys()), old(ivec[..]), ct, length)
  {
    hide AesEnc, AesDec, Encrypted, Decrypted, Put, NextIv, LeftIv;
    if enc {
      CbcEncrypt(s, inp, inAt, out, outAt, length, key, ivec);
    } else {
      CbcDecrypt(s, inp, inAt, out, outAt, length, key, ivec);
    }
  }
}
