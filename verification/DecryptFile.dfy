/** The streaming decryptor of encrypted files: a header, chained blocks, and padding, fed in chunks of any size. */
module DecryptFile {
  import opened Wrappers

  import opened AesWords
  import opened Fips197
  import opened Aes
  import opened Cbc

  const ENCRYPTED_FILE_MAGIC: seq<bv8> := [0xfb, 0xa2, 0xe9, 0x01]
  const ENCRYPTED_FILE_HEADER_SIZE := 20
  const DEC_BUF_SIZE := 4096

  // ---- What a whole stream means ---------------------------------------------------------------------------

  /** The stream is long enough to have a header, and it is not one. */
  predicate BadHeader(stream: seq<bv8>) {
    |stream| >= ENCRYPTED_FILE_HEADER_SIZE && stream[..4] != ENCRYPTED_FILE_MAGIC
  }

  predicate GoodHeader(stream: seq<bv8>) {
    |stream| >= ENCRYPTED_FILE_HEADER_SIZE && stream[..4] == ENCRYPTED_FILE_MAGIC
  }

  function HeaderIv(stream: seq<bv8>): Block
    requires |stream| >= ENCRYPTED_FILE_HEADER_SIZE
  {
    stream[4..ENCRYPTED_FILE_HEADER_SIZE]
  }

  function Body(stream: seq<bv8>): seq<bv8>
    requires |stream| >= ENCRYPTED_FILE_HEADER_SIZE
  {
    stream[ENCRYPTED_FILE_HEADER_SIZE..]
  }

  /** The text without its padding: the last byte says how many bytes, one to sixteen, to drop. */
  function Unpadded(pt: seq<bv8>): Option<seq<bv8>> {
    if pt == [] then None
    else
      var pad := pt[|pt| - 1] as int;
      if pad < 1 || pad > AES_BLOCK_SIZE || pad > |pt| then None else Some(pt[..|pt| - pad])
  }

  /** The file an encrypted stream holds, if it holds one. */
  function FileOf(dec: Block -> Block, stream: seq<bv8>): Option<seq<bv8>> {
    if !GoodHeader(stream) then None
    else
      var body := Body(stream);
      if body == [] || |body| % AES_BLOCK_SIZE != 0 then None
      else Unpadded(Decrypted(dec, HeaderIv(stream), body))
  }

  // ---- The decryptor -----------------------------------------------------------------------------------------

  /** A stream whose header has been read: `flushed` body bytes are out, the others wait in the buffer. */
  ghost predicate InBody(dec: Block -> Block, stream: seq<bv8>, held: seq<bv8>, iv: seq<bv8>, output: seq<bv8>,
      blocks: nat) {
    && GoodHeader(stream)
    && |Body(stream)| == AES_BLOCK_SIZE * blocks + |held|
    && (blocks > 0 ==> |held| >= AES_BLOCK_SIZE)
    && Body(stream)[AES_BLOCK_SIZE * blocks..] == held
    && iv == NextIv(HeaderIv(stream), Body(stream)[..AES_BLOCK_SIZE * blocks])
    && output == Decrypted(dec, HeaderIv(stream), Body(stream)[..AES_BLOCK_SIZE * blocks])
  }

  lemma InBodyGood(dec: Block -> Block, stream: seq<bv8>, held: seq<bv8>, iv: seq<bv8>, output: seq<bv8>, blocks: nat)
    requires InBody(dec, stream, held, iv, output, blocks)
    ensures !BadHeader(stream)
  {
  }

  lemma HeaderRead(dec: Block -> Block, stream: seq<bv8>)
    requires |stream| == ENCRYPTED_FILE_HEADER_SIZE && stream[..4] == ENCRYPTED_FILE_MAGIC
    ensures InBody(dec, stream, [], HeaderIv(stream), [], 0)
  {
  }

  lemma BodyRead(dec: Block -> Block, stream: seq<bv8>, held: seq<bv8>, iv: seq<bv8>, output: seq<bv8>, blocks: nat,
      more: seq<bv8>)
    requires InBody(dec, stream, held, iv, output, blocks)
    ensures InBody(dec, stream + more, held + more, iv, output, blocks)
  {
    hide Decrypted, NextIv;
    var k := AES_BLOCK_SIZE * blocks;
    assert Body(stream + more) == Body(stream) + more;
    assert HeaderIv(stream + more) == HeaderIv(stream) && (stream + more)[..4] == stream[..4];
    assert Body(stream + more)[..k] == Body(stream)[..k];
    assert Body(stream + more)[k..] == Body(stream)[k..] + more;
  }

  /** Writing out the first `n` blocks held. */
  lemma BlocksOut(dec: Block -> Block, stream: seq<bv8>, held: seq<bv8>, iv: Block, output: seq<bv8>, blocks: nat,
      n: nat)
    requires InBody(dec, stream, held, iv, output, blocks) && AES_BLOCK_SIZE * n <= |held|
    ensures var k := AES_BLOCK_SIZE * n;
            && |Decrypted(dec, iv, held[..k])| == k
            && (|held| - k >= AES_BLOCK_SIZE ==>
                  InBody(dec, stream, held[k..], NextIv(iv, held[..k]), output + Decrypted(dec, iv, held[..k]), blocks
                      + n))
            && (k == |held| ==> Decrypted(dec, HeaderIv(stream), Body(stream)) == output + Decrypted(dec, iv, held))
  {
    hide Decrypted, NextIv;
    var b, k := AES_BLOCK_SIZE * blocks, AES_BLOCK_SIZE * n;
    var body := Body(stream);
    Parts(body, b, k, held);
    DecryptedSplit(dec, HeaderIv(stream), body[..b], held[..k], blocks);
    NextIvSplit(HeaderIv(stream), body[..b], held[..k], blocks, n);
    DecryptedLength(dec, iv, held[..k]);
  }

  lemma Parts(body: seq<bv8>, b: nat, k: nat, held: seq<bv8>)
    requires b + k <= |body| && body[b..] == held
    ensures body[..b + k] == body[..b] + held[..k] && body[b + k..] == held[k..]
    ensures k == |held| ==> body[..b + k] == body && held[..k] == held
  {
  }

  lemma NextIvSplit(iv: Block, a: seq<bv8>, c: seq<bv8>, m: nat, n: nat)
    requires |a| == AES_BLOCK_SIZE * m && |c| == AES_BLOCK_SIZE * n
    ensures NextIv(iv, a + c) == NextIv(NextIv(iv, a), c)
  {
    if n == 0 {
      assert a + c == a;
    }
  }

  /** Without a complete, right header there is no file. */
  lemma NoFile(dec: Block -> Block, stream: seq<bv8>, held: seq<bv8>)
    requires |held| <= |stream| && |held| <= ENCRYPTED_FILE_HEADER_SIZE
    requires |held| < ENCRYPTED_FILE_HEADER_SIZE ==> |held| == |stream|
    requires |held| == ENCRYPTED_FILE_HEADER_SIZE ==> BadHeader(stream)
    ensures FileOf(dec, stream) == None
  {
  }

  /** What the end of the stream means for the bytes still held. */
  lemma LastBlocks(dec: Block -> Block, stream: seq<bv8>, held: seq<bv8>, iv: Block, output: seq<bv8>, blocks: nat)
    requires InBody(dec, stream, held, iv, output, blocks)
    ensures held == [] || |held| % AES_BLOCK_SIZE != 0 ==> FileOf(dec, stream) == None
    ensures held != [] && |held| % AES_BLOCK_SIZE == 0 ==>
              && |Decrypted(dec, iv, held)| == |held|
              && FileOf(dec, stream) == Unpadded(output + Decrypted(dec, iv, held))
  {
    hide Decrypted, NextIv, Unpadded;
    if held != [] && |held| % AES_BLOCK_SIZE == 0 {
      var n := |held| / AES_BLOCK_SIZE;
      assert held[..AES_BLOCK_SIZE * n] == held;
      BlocksOut(dec, stream, held, iv, output, blocks, n);
    }
  }

  /** The padding lies within the last block, which is never written early. */
  lemma PaddedTail(output: seq<bv8>, pt: seq<bv8>)
    requires |pt| >= AES_BLOCK_SIZE
    ensures var pad := pt[|pt| - 1] as int;
            Unpadded(output + pt) == if pad < 1 || pad > AES_BLOCK_SIZE then None else Some(output + pt[..|pt| - pad])
  {
    var pad := pt[|pt| - 1] as int;
    if 1 <= pad <= AES_BLOCK_SIZE {
      assert (output + pt)[..|output + pt| - pad] == output + pt[..|pt| - pad];
    }
  }

  class DecryptFileState {
    const sbox: Sbox
    const aesState: AesKey
    const iv: array<bv8>
    const decBuf: array<bv8>
    var decState: int
    var decBufPos: nat
    var output: seq<bv8>           // everything handed to the write callback
    ghost var fed: seq<bv8>        // everything received
    ghost var blocks: nat          // body blocks written out

    ghost predicate Shape()
      reads this
    {
      iv != decBuf && iv.Length == AES_BLOCK_SIZE && decBuf.Length == DEC_BUF_SIZE && decBufPos <= DEC_BUF_SIZE
    }

    ghost function Dec(): Block -> Block
      requires aesState.Ready()
      reads aesState, aesState.rdKey
    {
      AesDec(sbox, aesState.Keys())
    }

    ghost predicate Valid()
      reads this, iv, decBuf, aesState, aesState.rdKey
    {
      && Shape() && aesState.Ready()
      && (decState == 0 || decState == 1)
      && (decState == 0 ==> output == [] && InHeader())
      && (decState == 1 ==> decBufPos < DEC_BUF_SIZE && InBody(Dec(), fed, decBuf[..decBufPos], iv[..], output, blocks))
    }

    /** The header is incomplete, or was complete and wrong. */
    ghost predicate InHeader()
      requires Shape()
      reads this, decBuf
    {
      && decBufPos <= |fed| && decBufPos <= ENCRYPTED_FILE_HEADER_SIZE
      && decBuf[..decBufPos] == fed[..decBufPos]
      && (decBufPos < ENCRYPTED_FILE_HEADER_SIZE ==> decBufPos == |fed|)
      && (decBufPos == ENCRYPTED_FILE_HEADER_SIZE ==> BadHeader(fed))
    }

    constructor (sbox: Sbox, aesState: AesKey)
      requires aesState.Ready()
      ensures Valid() && fed == [] && output == [] && fresh(iv) && fresh(decBuf)
      ensures this.aesState == aesState && this.sbox == sbox
    {
      this.sbox, this.aesState := sbox, aesState;
      iv := new bv8[AES_BLOCK_SIZE](_ => 0);
      decBuf := new bv8[DEC_BUF_SIZE](_ => 0);
      decState, decBufPos, output, fed, blocks := 0, 0, [], [], 0;
    }

    /** Append `l` bytes of `data` to the buffer. */
    method Take(data: seq<bv8>, at: nat, l: nat)
      requires Shape() && at + l <= |data| && decBufPos + l <= DEC_BUF_SIZE
      modifies this`decBufPos, decBuf
      ensures Shape() && decBufPos == old(decBufPos) + l
      ensures decBuf[..decBufPos] == old(decBuf[..decBufPos]) + data[at..at + l]
    {
      for i := 0 to l
        modifies decBuf
        invariant forall k :: 0 <= k < decBufPos ==> decBuf[k] == old(decBuf[k])
        invariant forall k :: decBufPos <= k < decBufPos + i ==> decBuf[k] == data[at + k - decBufPos]
      {
        decBuf[decBufPos + i] := data[at + i];
      }
      decBufPos := decBufPos + l;
    }

    /** Header bytes; `bad` if the header is complete and wrong. */
    method HeaderStep(data: seq<bv8>, at: nat) returns (l: nat, bad: bool)
      requires Valid() && decState == 0 && at < |data|
      modifies this, iv, decBuf
      ensures Valid() && at + l <= |data| && fed == old(fed) + data[at..at + l]
      ensures bad ==> decState == 0 && decBufPos == ENCRYPTED_FILE_HEADER_SIZE
      ensures !bad ==> 0 < l && !BadHeader(fed)
    {
      hide InBody, AesDec, RoundKeys;
      l := if |data| - at < ENCRYPTED_FILE_HEADER_SIZE - decBufPos then |data| - at
          else ENCRYPTED_FILE_HEADER_SIZE - decBufPos;
      Take(data, at, l);
      fed := fed + data[at..at + l];
      if decBufPos >= ENCRYPTED_FILE_HEADER_SIZE {
        assert decBuf[..4] == decBuf[..decBufPos][..4] && fed[..4] == fed[..decBufPos][..4];
        if decBuf[..4] != ENCRYPTED_FILE_MAGIC {
          return l, true;
        }
        StartBody();
      }
      return l, false;
    }

    /** The header is complete and right. */
    method StartBody()
      requires Shape() && aesState.Ready() && decState == 0 && output == []
               && |fed| == ENCRYPTED_FILE_HEADER_SIZE == decBufPos
      requires fed == decBuf[..decBufPos] && fed[..4] == ENCRYPTED_FILE_MAGIC
      modifies this`decState, this`decBufPos, this`blocks, iv
      ensures Valid() && decState == 1
    {
      hide InBody, AesDec, RoundKeys;
      CopyIn(iv, decBuf, 4, AES_BLOCK_SIZE);
      assert iv[..] == HeaderIv(fed);
      decState := 1;
      decBufPos := 0;
      blocks := 0;
      HeaderRead(Dec(), fed);
      assert decBuf[..0] == [];
    }

    /** Body bytes; a full buffer is decrypted and written, except for its last block, which may be the padding. */
    method BodyStep(data: seq<bv8>, at: nat) returns (l: nat)
      requires Valid() && decState == 1 && at < |data|
      modifies this, iv, decBuf
      ensures Valid() && decState == 1 && 0 < l && at + l <= |data| && fed == old(fed) + data[at..at + l]
              && !BadHeader(fed)
    {
      hide InBody, AesDec, RoundKeys;
      l := if |data| - at < DEC_BUF_SIZE - decBufPos then |data| - at else DEC_BUF_SIZE - decBufPos;
      BodyRead(Dec(), fed, decBuf[..decBufPos], iv[..], output, blocks, data[at..at + l]);
      Take(data, at, l);
      fed := fed + data[at..at + l];
      if decBufPos >= DEC_BUF_SIZE {
        FlushBlocks();
      }
      InBodyGood(Dec(), fed, decBuf[..decBufPos], iv[..], output, blocks);
    }

    method FlushBlocks()
      requires Shape() && aesState.Ready() && decState == 1 && decBufPos == DEC_BUF_SIZE
      requires InBody(Dec(), fed, decBuf[..decBufPos], iv[..], output, blocks)
      modifies this`output, this`decBufPos, this`blocks, iv, decBuf
      ensures Valid() && decState == 1
    {
      hide InBody, AesDec, RoundKeys, Decrypted, NextIv;
      var len := decBufPos - AES_BLOCK_SIZE;
      ghost var held, v := decBuf[..], iv[..];
      assert held == decBuf[..decBufPos];
      BlocksOut(Dec(), fed, held, v, output, blocks, 255);
      AesCbcEncrypt(sbox, decBuf, 0, decBuf, 0, len, aesState, iv, false);
      Emptied(Dec(), held, v, len, decBuf[..], iv[..]);
      output := output + decBuf[..len];
      blocks := blocks + 255;
      KeepLast();
    }

    /** The last block of the buffer moves to the front. */
    method KeepLast()
      requires Shape() && decBufPos == DEC_BUF_SIZE
      modifies this`decBufPos, decBuf
      ensures Shape() && decBufPos == AES_BLOCK_SIZE
              && decBuf[..AES_BLOCK_SIZE] == old(decBuf[DEC_BUF_SIZE - AES_BLOCK_SIZE..])
    {
      for i := 0 to AES_BLOCK_SIZE
        modifies decBuf
        invariant forall k :: 0 <= k < DEC_BUF_SIZE ==>
                    decBuf[k] == if k < i then old(decBuf[DEC_BUF_SIZE - AES_BLOCK_SIZE + k]) else old(decBuf[k])
      {
        decBuf[i] := decBuf[decBufPos - AES_BLOCK_SIZE + i];
      }
      decBufPos := AES_BLOCK_SIZE;
    }

    /** Feed a chunk. -1 as soon as a complete header is found wrong, and from then on. */
    method Decrypt(data: seq<bv8>) returns (ret: int)
      requires Valid()
      modifies this, iv, decBuf
      ensures Valid() && fed == old(fed) + data && aesState.Keys() == old(aesState.Keys())
      ensures ret == if data != [] && BadHeader(fed) then -1 else 0
    {
      hide InBody, AesDec, RoundKeys, BadHeader, InHeader, GoodHeader;
      var at := 0;
      ghost var fed0 := fed;
      assert fed == fed0 + data[..0];
      while at != |data|
        invariant 0 <= at <= |data|
        invariant Valid() && fed == fed0 + data[..at]
        invariant at > 0 ==> !BadHeader(fed)
        decreases |data| - at
      {
        var l, bad := Step(data, at);
        Joined(fed0, data, at, l);
        if bad {
          Refused(data[at + l..]);
          Joined(fed0, data, at + l, |data| - at - l);
          assert data[at + l..] == data[at + l..|data|];
          return -1;
        }
        at := at + l;
      }
      assert data[..at] == data;
      return 0;
    }

    method Step(data: seq<bv8>, at: nat) returns (l: nat, bad: bool)
      requires Valid() && at < |data|
      modifies this, iv, decBuf
      ensures Valid() && at + l <= |data| && fed == old(fed) + data[at..at + l]
      ensures bad ==> decState == 0 && decBufPos == ENCRYPTED_FILE_HEADER_SIZE
      ensures !bad ==> 0 < l && !BadHeader(fed)
    {
      hide InBody, AesDec, RoundKeys, BadHeader, InHeader, GoodHeader;
      if decState == 0 {
        l, bad := HeaderStep(data, at);
      } else {
        l := BodyStep(data, at);
        bad := false;
      }
    }

    /** The rest of a chunk whose header is wrong is not looked at. */
    ghost method Refused(rest: seq<bv8>)
      requires Valid() && decState == 0 && decBufPos == ENCRYPTED_FILE_HEADER_SIZE
      modifies this`fed
      ensures Valid() && fed == old(fed) + rest && BadHeader(fed)
    {
      hide InBody, AesDec, RoundKeys;
      assert (fed + rest)[..ENCRYPTED_FILE_HEADER_SIZE] == fed[..ENCRYPTED_FILE_HEADER_SIZE];
      assert (fed + rest)[..4] == fed[..4];
      fed := fed + rest;
    }

    /** The end of the stream: the held blocks are decrypted and written without their padding. */
    method Flush() returns (ret: int)
      requires Valid()
      modifies this`output, iv, decBuf
      ensures ret == if FileOf(Dec(), fed).Some? then 0 else -1
      ensures output == if ret == 0 then FileOf(Dec(), fed).value else old(output)
    {
      hide InBody, AesDec, RoundKeys, FileOf, BadHeader, GoodHeader;
      if decState != 1 {
        NoFile(Dec(), fed, decBuf[..decBufPos]);
        return -1;
      }
      var len := decBufPos;
      LastBlocks(Dec(), fed, decBuf[..len], iv[..], output, blocks);
      if len == 0 || len % AES_BLOCK_SIZE != 0 {
        return -1;
      }
      ghost var held := decBuf[..len];
      DecryptHeld(len);
      ret := WriteLast(Decrypted(Dec(), old(iv[..]), held));
    }

    /** The decrypted blocks `pt` are in the buffer: check the padding and write the rest. */
    method WriteLast(ghost pt: seq<bv8>) returns (ret: int)
      requires Shape() && decBufPos >= AES_BLOCK_SIZE && decBuf[..decBufPos] == pt
      modifies this`output
      ensures ret == if Unpadded(old(output) + pt).Some? then 0 else -1
      ensures output == if ret == 0 then Unpadded(old(output) + pt).value else old(output)
    {
      PaddedTail(output, pt);
      hide Unpadded;
      var padLen := decBuf[decBufPos - 1] as int;
      assert padLen == pt[|pt| - 1] as int;
      if padLen < 1 || padLen > AES_BLOCK_SIZE {
        return -1;
      }
      var len := decBufPos - padLen;
      assert decBuf[..len] == pt[..len];
      if len != 0 {
        output := output + decBuf[..len];
      } else {
        assert output + decBuf[..len] == output;
      }
      return 0;
    }

    method DecryptHeld(len: nat)
      requires Shape() && aesState.Ready() && 0 < len <= DEC_BUF_SIZE && len % AES_BLOCK_SIZE == 0
      modifies iv, decBuf
      ensures decBuf[..len] == Decrypted(Dec(), old(iv[..]), old(decBuf[..len])) && Dec() == old(Dec())
    {
      hide InBody, AesDec, RoundKeys, Decrypted, NextIv, LeftIv, Put;
      ghost var held, v := decBuf[..], iv[..];
      assert held[..len] == decBuf[..len];
      DecryptedLength(Dec(), v, held[..len]);
      AesCbcEncrypt(sbox, decBuf, 0, decBuf, 0, len, aesState, iv, false);
      Emptied(Dec(), held, v, len, decBuf[..], iv[..]);
      assert decBuf[..][..len] == decBuf[..len];
    }
  }

  lemma Joined(fed: seq<bv8>, data: seq<bv8>, at: nat, l: nat)
    requires at + l <= |data|
    ensures fed + data[..at] + data[at..at + l] == fed + data[..at + l]
    ensures at + l == |data| ==> fed + data[..at + l] == fed + data
  {
    assert data[..at] + data[at..at + l] == data[..at + l];
    assert at + l == |data| ==> data[..at + l] == data;
  }

  lemma DecryptedLength(dec: Block -> Block, iv: Block, ct: seq<bv8>)
    requires |ct| % AES_BLOCK_SIZE == 0
    ensures |Decrypted(dec, iv, ct)| == |ct|
  {
    hide Decrypted, NextIv;
    assert ct + [] == ct;
    DecryptedSplit(dec, iv, ct, [], |ct| / AES_BLOCK_SIZE);
  }

  /** What is left in place after decrypting the first `len` bytes of a buffer. */
  lemma Emptied(dec: Block -> Block, held: seq<bv8>, iv: Block, len: nat, buf: seq<bv8>, iv': seq<bv8>)
    requires len % AES_BLOCK_SIZE == 0 && len <= |held|
    requires |Decrypted(dec, iv, held[..len])| == len
    requires buf == Put(held, 0, Decrypted(dec, iv, held[..len])[..len]) && iv' == LeftIv(dec, iv, held[..len], len)
    ensures buf[..len] == Decrypted(dec, iv, held[..len]) && buf[len..] == held[len..]
    ensures iv' == NextIv(iv, held[..len])
  {
    hide Decrypted;
  }

  function Concat(chunks: seq<seq<bv8>>): seq<bv8> {
    if chunks == [] then [] else Concat(chunks[..|chunks| - 1]) + chunks[|chunks| - 1]
  }

  lemma EmptyConcat(chunks: seq<seq<bv8>>)
    ensures Concat(chunks[..0]) == []
  {
  }

  lemma ConcatNext(chunks: seq<seq<bv8>>, i: nat)
    requires i < |chunks|
    ensures Concat(chunks[..i + 1]) == Concat(chunks[..i]) + chunks[i]
  {
    assert chunks[..i + 1][..i] == chunks[..i];
  }

  /** A whole transfer: feed every chunk, stopping at an error, then flush. The outcome depends only on the
      concatenation of the chunks. */
  method DecryptStream(sbox: Sbox, aesState: AesKey, chunks: seq<seq<bv8>>) returns (ok: bool, output: seq<bv8>)
    requires aesState.Ready()
    ensures ok <==> FileOf(AesDec(sbox, aesState.Keys()), Concat(chunks)).Some?
    ensures ok ==> output == FileOf(AesDec(sbox, aesState.Keys()), Concat(chunks)).value
  {
    hide AesDec, RoundKeys, FileOf, GoodHeader, InBody, Concat, DecryptFileState.Valid;
    EmptyConcat(chunks);
    var s := new DecryptFileState(sbox, aesState);
    for i := 0 to |chunks|
      invariant s.Valid() && s.fed == Concat(chunks[..i])
    {
      ConcatNext(chunks, i);
      var ret := s.Decrypt(chunks[i]);
      if ret < 0 {
        StaysBad(AesDec(sbox, aesState.Keys()), chunks, i + 1);
        return false, s.output;
      }
    }
    assert chunks[..|chunks|] == chunks;
    var ret := s.Flush();
    return ret == 0, s.output;
  }

  // ---- Encrypted files are read back ------------------------------------------------------------------------

  /** One to sixteen bytes that fill the last block, the last of them saying how many. */
  predicate IsPadding(text: seq<bv8>, pad: seq<bv8>) {
    && 1 <= |pad| <= AES_BLOCK_SIZE && (|text| + |pad|) % AES_BLOCK_SIZE == 0
    && pad[|pad| - 1] as int == |pad|
  }

  function EncryptedFile(enc: Block -> Block, iv: Block, text: seq<bv8>, pad: seq<bv8>): seq<bv8> {
    ENCRYPTED_FILE_MAGIC + iv + Encrypted(enc, iv, text + pad)
  }

  /** The blocks after the header decrypt to a text and its padding. */
  ghost predicate Holds(dec: Block -> Block, stream: seq<bv8>, text: seq<bv8>) {
    && |stream| >= 20 && stream[..4] == ENCRYPTED_FILE_MAGIC && (|stream| - 20) % AES_BLOCK_SIZE == 0
    && exists pad :: IsPadding(text, pad) && Decrypted(dec, stream[4..20], stream[20..]) == text + pad
  }

  lemma FileHeld(dec: Block -> Block, stream: seq<bv8>, text: seq<bv8>)
    requires FileOf(dec, stream) == Some(text)
    ensures Holds(dec, stream, text)
  {
    hide Decrypted;
    var pt := Decrypted(dec, stream[4..20], stream[20..]);
    DecryptedLength(dec, stream[4..20], stream[20..]);
    var pad := pt[|text|..];
    assert IsPadding(text, pad) && pt == text + pad;
  }

  /** A stream is accepted exactly if it holds a text with its padding, and that text is the file. */
  lemma FileOfExactly(dec: Block -> Block, stream: seq<bv8>, text: seq<bv8>)
    ensures FileOf(dec, stream) == Some(text) <==> Holds(dec, stream, text)
  {
    hide Decrypted;
    if Holds(dec, stream, text) {
      var pt := Decrypted(dec, stream[4..20], stream[20..]);
      DecryptedLength(dec, stream[4..20], stream[20..]);
      var pad :| IsPadding(text, pad) && pt == text + pad;
      assert pt[|pt| - 1] == pad[|pad| - 1] && pt[..|text|] == text;
    } else {
      hide FileOf, Holds;
      if FileOf(dec, stream) == Some(text) {
        FileHeld(dec, stream, text);
      }
    }
  }

  /** An encrypted file holds its text. */
  lemma EncryptedFileRead(enc: Block -> Block, dec: Block -> Block, iv: Block, text: seq<bv8>, pad: seq<bv8>)
    requires Inverts(dec, enc) && IsPadding(text, pad)
    ensures FileOf(dec, EncryptedFile(enc, iv, text, pad)) == Some(text)
  {
    hide Encrypted, Decrypted, Inverts;
    var stream, pt := EncryptedFile(enc, iv, text, pad), text + pad;
    var ct := Encrypted(enc, iv, pt);
    EncryptedWhole(enc, iv, pt);
    CbcRoundTrip(enc, dec, iv, pt);
    DecryptedLength(dec, iv, ct);
    assert Decrypted(dec, iv, ct) == pt;
    assert stream[..4] == ENCRYPTED_FILE_MAGIC && HeaderIv(stream) == iv && Body(stream) == ct;
    assert pt[..|text|] == text && pt[|pt| - 1] == pad[|pad| - 1];
  }

  lemma {:induction false} EncryptedWhole(enc: Block -> Block, iv: Block, pt: seq<bv8>)
    requires |pt| % AES_BLOCK_SIZE == 0
    ensures |Encrypted(enc, iv, pt)| == |pt|
    decreases |pt|
  {
    if pt != [] {
      EncryptedWhole(enc, enc(Chain(pt[..AES_BLOCK_SIZE], iv)), pt[AES_BLOCK_SIZE..]);
    }
  }

  /** A file encrypted with a key comes out as its text under that key, in whatever chunks it comes. */
  method DecryptEncrypted(sbox: Sbox, userKey: seq<bv8>, bits: int, iv: Block, text: seq<bv8>, pad: seq<bv8>,
                          chunks: seq<seq<bv8>>)
      returns (ok: bool, output: seq<bv8>)
    requires Bijection(sbox) && bits in {128, 192, 256} && |userKey| == bits / 8 && IsPadding(text, pad)
    requires Concat(chunks) == EncryptedFile(AesEnc(sbox, KeySchedule(sbox, userKey, bits)), iv, text, pad)
    ensures ok && output == text
  {
    hide AesEnc, AesDec, KeySchedule, FileOf, EncryptedFile, IsPadding, InverseKeys, Bijection, Concat, RoundKeys;
    var key := new AesKey();
    var status := SetDecryptKey(sbox, userKey, bits, key);
    AesInverts(sbox, KeySchedule(sbox, userKey, bits));
    EncryptedFileRead(AesEnc(sbox, KeySchedule(sbox, userKey, bits)),
        AesDec(sbox, InverseKeys(KeySchedule(sbox, userKey, bits))), iv, text, pad);
    ok, output := DecryptStream(sbox, key, chunks);
  }

  lemma {:induction false} StaysBad(dec: Block -> Block, chunks: seq<seq<bv8>>, i: nat)
    requires i <= |chunks| && BadHeader(Concat(chunks[..i]))
    ensures BadHeader(Concat(chunks)) && FileOf(dec, Concat(chunks)) == None
    decreases |chunks|
  {
    if i == |chunks| {
      assert chunks[..i] == chunks;
    } else {
      var front := chunks[..|chunks| - 1];
      assert chunks[..i] == front[..i];
      StaysBad(dec, front, i);
      assert Concat(chunks)[..4] == Concat(front)[..4];
    }
  }
}
