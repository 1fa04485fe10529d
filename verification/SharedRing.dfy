/** The shared-memory portal transport: one array of 32-bit words that a producer and a consumer
    both address, with the two ring indices stored inside the array itself.

    Geometry (the pure part) comes first; class `SharedRing` then gives both sides as machines
    that touch one shared word per step, so a schedule is an arbitrary interleaving of the two. */
module SharedPortal {

  type Word = x: int | 0 <= x < 0x1_0000_0000

  // Indices of the control words and of the first ring word.
  const SHARED_LIMIT := 0
  const SHARED_WRITE := 1
  const SHARED_READ := 2
  const SHARED_START := 4

  const PORTAL_CTRL_SIZE := 32
  const PAD_WORD: Word := 0xffff_0001
  const SKIPPED_NUM := 0xffff

  /** A portal message: a method number and the argument words after the header word. */
  datatype Msg = Msg(num: int, body: seq<Word>)

  predicate WellFormed(m: Msg, reqwords: int) {
    0 <= m.num < 0x1_0000 && |m.body| + 1 < 0xffff && Padded(|m.body| + 1) <= reqwords
  }

  /** `v & 0xfffe` on a non-negative word. */
  function AndFffe(v: nat): nat {
    v % 0x1_0000 / 2 * 2
  }

  /** The length a message of `n` words occupies, header included. */
  function Padded(n: nat): nat {
    n + n % 2
  }

  /** The mask both sides apply rounds up to even as long as the length fits sixteen bits. */
  lemma PaddedIsMask(n: nat)
    requires n < 0xffff
    ensures Padded(n) == AndFffe(n + 1)
  {
  }

  /** The ring's notion of the largest message, from the portal's `reqinfo` word. */
  function Reqwords(reqinfo: nat): (r: nat)
    ensures r % 2 == 0 && 10 <= r < 0x1_0000 && reqinfo % 0x1_0000 / 4 < r
    ensures r <= 10 || r <= reqinfo % 0x1_0000 / 4 + 2
  {
    var bytes := if reqinfo % 0x1_0000 > PORTAL_CTRL_SIZE then reqinfo % 0x1_0000 else PORTAL_CTRL_SIZE;
    AndFffe(bytes / 4 + 1 + 1)
  }

  function Header(m: Msg): Word
    requires 0 <= m.num < 0x1_0000 && |m.body| + 1 < 0x1_0000
  {
    m.num * 0x1_0000 + |m.body| + 1
  }

  /** Both sides recover the two halves of a header word. */
  lemma HeaderParts(m: Msg)
    requires 0 <= m.num < 0x1_0000 && |m.body| + 1 < 0x1_0000
    ensures Header(m) / 0x1_0000 == m.num && Header(m) % 0x1_0000 == |m.body| + 1
  {
  }

  function Increment(newp: int, reqwords: int, limit: int): int {
    if newp + reqwords >= limit then SHARED_START else newp
  }

  function Avail(write: int, read: int, limit: int): int {
    if write >= read then limit - (write - read) - 4 else read - write
  }

  predicate Admits(write: int, read: int, reqwords: int, limit: int) {
    Avail(write, read, limit) > 2 * reqwords
  }

  /** A place where a message may start: the first ring word, or one with room for the largest message. */
  predicate Slot(p: int, reqwords: int, limit: int) {
    SHARED_START <= p < limit && (p == SHARED_START || p + reqwords < limit)
  }

  /** Index `x` lies on the way from `p` to `w`, so the consumer has yet to read it. */
  predicate OnPath(x: int, p: int, w: int, limit: int) {
    if p <= w then p <= x < w else p <= x < limit || SHARED_START <= x < w
  }

  /** Message `m` is stored in `mem` at `p`. */
  predicate StoredAt(mem: seq<Word>, p: int, m: Msg, reqwords: int)
  {
    && WellFormed(m, reqwords)
    && 0 <= p && p + Padded(|m.body| + 1) <= |mem|
    && mem[p] == Header(m)
    && mem[p + 1..p + 1 + |m.body|] == m.body
  }

  /** Reading `mem` from `p` by the consumer's own index rule yields exactly the messages `q` and stops at `w`. */
  ghost predicate Laid(mem: seq<Word>, p: int, w: int, q: seq<Msg>, reqwords: int)
    decreases q
  {
    && Slot(p, reqwords, |mem|)
    && if q == [] then p == w else
         var next := p + Padded(|q[0].body| + 1);
         && p != w
         && StoredAt(mem, p, q[0], reqwords)
         && (p < w ==> next <= w)
         && Laid(mem, Increment(next, reqwords, |mem|), w, q[1..], reqwords)
  }

  /** What the consumer will read is unaffected by stores off its path. */
  lemma {:induction false} LaidFrame(mem: seq<Word>, mem': seq<Word>, p: int, w: int, q: seq<Msg>, reqwords: int)
    requires Laid(mem, p, w, q, reqwords) && Slot(w, reqwords, |mem|) && |mem'| == |mem|
    requires forall x :: 0 <= x < |mem| && OnPath(x, p, w, |mem|) ==> mem'[x] == mem[x]
    ensures Laid(mem', p, w, q, reqwords)
    decreases q
  {
    if q != [] {
      var next := p + Padded(|q[0].body| + 1);
      assert mem'[p + 1..p + 1 + |q[0].body|] == mem[p + 1..p + 1 + |q[0].body|];
      LaidFrame(mem, mem', Increment(next, reqwords, |mem|), w, q[1..], reqwords);
    }
  }

  /** The space check, once passed, stays valid when the consumer moves on. */
  lemma AdmitsAfterRead(mem: seq<Word>, p: int, w: int, q: seq<Msg>, reqwords: int)
    requires Laid(mem, p, w, q, reqwords) && q != [] && Slot(w, reqwords, |mem|)
    requires Admits(w, p, reqwords, |mem|) && 0 <= reqwords
    ensures Admits(w, Increment(p + Padded(|q[0].body| + 1), reqwords, |mem|), reqwords, |mem|)
  {
  }

  /** Where the producer may store while it holds a passed space check: neither on the consumer's path,
      nor beyond the array; and the index it publishes next never reaches the consumer's index. */
  lemma ProducerRoom(p: int, w: int, len: nat, reqwords: int, limit: int)
    requires Slot(p, reqwords, limit) && Slot(w, reqwords, limit)
    requires Admits(w, p, reqwords, limit) && 0 < len <= reqwords
    ensures w + len < limit
    ensures forall x :: w <= x < w + len ==> !OnPath(x, p, w, limit)
    ensures var w' := Increment(w + len, reqwords, limit);
            && Slot(w', reqwords, limit) && w' != p
            && (p <= w ==> w' > p || w' == SHARED_START < p)
            && (w < p ==> w < w' < p)
            && forall x :: w <= x < w + len ==> OnPath(x, p, w', limit)
  {
  }

  /** Where the consumer goes on, seen from the new write index. */
  lemma AppendPlace(p: int, w: int, next: int, len: nat, reqwords: int, limit: int)
    requires Slot(p, reqwords, limit) && Slot(w, reqwords, limit) && Admits(w, p, reqwords, limit)
             && 0 < len <= reqwords
    requires p != w && (p < w ==> next <= w)
    ensures var w' := Increment(w + len, reqwords, limit); p != w' && (p < w' ==> next <= w')
  {
  }

  /** Publishing: after the producer stores a message at `w` and advances, the consumer will read one more
      message, after all the earlier ones. */
  lemma {:induction false} LaidAppend(mem: seq<Word>, p: int, w: int, q: seq<Msg>, m: Msg, reqwords: int)
    requires Laid(mem, p, w, q, reqwords) && Slot(w, reqwords, |mem|)
    requires Admits(w, p, reqwords, |mem|) && StoredAt(mem, w, m, reqwords)
    ensures Laid(mem, p, Increment(w + Padded(|m.body| + 1), reqwords, |mem|), q + [m], reqwords)
    decreases q
  {
    hide Laid, Admits, Header, Slot, Increment, StoredAt, Padded;
    if q == [] {
      LaidEmpty(mem, p, w, q, reqwords);
      LaidFirst(mem, w, m, reqwords);
      assert q + [m] == [m];
    } else {
      LaidHead(mem, p, w, q, reqwords);
      var next := p + Padded(|q[0].body| + 1);
      AdmitsAfterRead(mem, p, w, q, reqwords);
      MessageFits(mem, w, m, reqwords);
      AppendPlace(p, w, next, Padded(|m.body| + 1), reqwords, |mem|);
      LaidAppend(mem, Increment(next, reqwords, |mem|), w, q[1..], m, reqwords);
      var w' := Increment(w + Padded(|m.body| + 1), reqwords, |mem|);
      LaidCons(mem, p, w', q[0], q[1..] + [m], reqwords);
      assert q + [m] == [q[0]] + (q[1..] + [m]);
    }
  }

  lemma LaidEmpty(mem: seq<Word>, p: int, w: int, q: seq<Msg>, reqwords: int)
    requires Laid(mem, p, w, q, reqwords) && q == []
    ensures p == w
  {
  }

  lemma LaidHead(mem: seq<Word>, p: int, w: int, q: seq<Msg>, reqwords: int)
    requires Laid(mem, p, w, q, reqwords) && q != []
    ensures var next := p + Padded(|q[0].body| + 1);
            && Slot(p, reqwords, |mem|) && p != w && StoredAt(mem, p, q[0], reqwords) && (p < w ==> next <= w)
            && Laid(mem, Increment(next, reqwords, |mem|), w, q[1..], reqwords)
            && 0 <= reqwords
  {
  }

  lemma LaidCons(mem: seq<Word>, p: int, w: int, m: Msg, q: seq<Msg>, reqwords: int)
    requires Slot(p, reqwords, |mem|) && p != w && StoredAt(mem, p, m, reqwords)
    requires var next := p + Padded(|m.body| + 1);
             (p < w ==> next <= w) && Laid(mem, Increment(next, reqwords, |mem|), w, q, reqwords)
    ensures Laid(mem, p, w, [m] + q, reqwords)
  {
    assert ([m] + q)[1..] == q;
  }

  lemma MessageFits(mem: seq<Word>, p: int, m: Msg, reqwords: int)
    requires StoredAt(mem, p, m, reqwords)
    ensures 0 < Padded(|m.body| + 1) <= reqwords
  {
  }

  lemma LaidFirst(mem: seq<Word>, w: int, m: Msg, reqwords: int)
    requires Slot(w, reqwords, |mem|) && Admits(w, w, reqwords, |mem|) && StoredAt(mem, w, m, reqwords)
    ensures Laid(mem, w, Increment(w + Padded(|m.body| + 1), reqwords, |mem|), [m], reqwords)
  {
    var w' := Increment(w + Padded(|m.body| + 1), reqwords, |mem|);
    ProducerRoom(w, w, Padded(|m.body| + 1), reqwords, |mem|);
    hide OnPath, Admits, Header;
    assert Laid(mem, w', w', [], reqwords);
    assert [m][1..] == [];
  }

  /** An empty ring admits a message exactly when it is larger than twice the largest message plus the
      control words; a smaller ring never admits one. */
  lemma EmptyRingAdmits(p: int, reqwords: nat, limit: int)
    ensures Admits(p, p, reqwords, limit) <==> limit > 2 * reqwords + 4
  {
  }

  /** The words of the ring that the consumer does not have yet to read. */
  ghost function FreeWords(write: int, read: int, limit: int): set<int> {
    set x | SHARED_START <= x < limit && !OnPath(x, read, write, limit)
  }

  predicate Between(x: int, a: int, b: int) {
    a <= x < b
  }

  ghost function Interval(a: int, b: int): set<int> {
    set x | a <= x < b && Between(x, a, b)
  }

  lemma {:induction false} IntervalSize(a: int, b: int)
    requires a <= b
    ensures |Interval(a, b)| == b - a
    decreases b - a
  {
    if a < b {
      IntervalSize(a, b - 1);
      assert Interval(a, b) == Interval(a, b - 1) + {b - 1} by {
        assert Between(b - 1, a, b);
        assert forall x :: Between(x, a, b - 1) ==> Between(x, a, b);
        assert forall x :: Between(x, a, b) && x != b - 1 ==> Between(x, a, b - 1);
      }
    } else {
      assert Interval(a, b) == {};
    }
  }

  /** The space check passes exactly if more than twice the largest message is free. */
  lemma AdmitsExactly(write: int, read: int, reqwords: int, limit: int)
    requires Slot(write, reqwords, limit) && Slot(read, reqwords, limit)
    ensures Admits(write, read, reqwords, limit) <==> |FreeWords(write, read, limit)| > 2 * reqwords
  {
    var free := FreeWords(write, read, limit);
    if write >= read {
      IntervalSize(SHARED_START, read);
      IntervalSize(write, limit);
      var a, b := Interval(SHARED_START, read), Interval(write, limit);
      forall x
        ensures x in free <==> x in a + b
      {
        assert Between(x, SHARED_START, read) || Between(x, write, limit) || OnPath(x, read, write, limit)
            || !Between(x, SHARED_START, limit);
      }
      assert free == a + b && a !! b;
    } else {
      IntervalSize(write, read);
      forall x
        ensures x in free <==> x in Interval(write, read)
      {
        assert Between(x, write, read) || OnPath(x, read, write, limit) || !Between(x, SHARED_START, limit);
      }
      assert free == Interval(write, read);
    }
  }

  /** The next index goes on where it is exactly if a message may start there. */
  lemma IncrementPlace(newp: int, reqwords: int, limit: int)
    requires SHARED_START <= newp && 0 <= reqwords && SHARED_START + reqwords < limit
    ensures Increment(newp, reqwords, limit) == if Slot(newp, reqwords, limit) then newp else SHARED_START
  {
  }

  /** The messages a handler is called for: number 0xffff marks filler. */
  function Visible(q: seq<Msg>): seq<Msg> {
    if q == [] then [] else
      Visible(q[..|q| - 1]) + (if q[|q| - 1].num != SKIPPED_NUM then [q[|q| - 1]] else [])
  }

  lemma VisibleSnoc(q: seq<Msg>, m: Msg)
    ensures Visible(q + [m]) == Visible(q) + (if m.num != SKIPPED_NUM then [m] else [])
  {
    assert (q + [m])[..|q|] == q;
  }

  lemma {:induction false} VisibleConcat(a: seq<Msg>, b: seq<Msg>)
    ensures Visible(a + b) == Visible(a) + Visible(b)
    decreases b
  {
    if b == [] {
      assert a + b == a;
    } else {
      assert (a + b)[..|a + b| - 1] == a + b[..|b| - 1];
      VisibleConcat(a, b[..|b| - 1]);
    }
  }

  lemma {:induction false} VisibleAll(q: seq<Msg>)
    requires forall m | m in q :: m.num != 0xffff
    ensures Visible(q) == q
  {
    if q == [] {
    } else {
      VisibleAll(q[..|q| - 1]);
      assert q == q[..|q| - 1] + [q[|q| - 1]];
    }
  }

  /** Where the producer stands between two of its stores to shared memory. */
  datatype Producer =
    | Quiet
    | Waiting(msg: Msg, addr: int)         // address taken, space check not yet passed
    | Filling(msg: Msg, addr: int)         // body words go to `addr`, which moves
    | Headed(msg: Msg)                     // header stored
    | PadDone(msg: Msg)                    // padding stored if needed
    | Published                            // new write index stored, terminator not yet

  datatype Consumer =
    | Polling
    | Seen                                  // indices found different
    | Handling(num: int, words: int, args: seq<Word>)

  datatype Event = Send(msg: Msg) | ProducerStep | ConsumerStep

  /** The ring's words describe the unread messages `q`. */
  ghost predicate RingOk(mem: seq<Word>, q: seq<Msg>, reqwords: int) {
    && 5 <= |mem| < 0x1_0000_0000
    && mem[SHARED_LIMIT] == |mem|
    && Slot(mem[SHARED_WRITE], reqwords, |mem|)
    && Laid(mem, mem[SHARED_READ], mem[SHARED_WRITE], q, reqwords)
  }

  /** What the producer may rely on at each point between its stores. */
  ghost predicate ProducerOk(mem: seq<Word>, producer: Producer, reqwords: int)
    requires 5 <= |mem|
  {
    var w := mem[SHARED_WRITE];
    match producer
    case Quiet => true
    case Published => true
    case Waiting(m, addr) => WellFormed(m, reqwords) && addr == w + 1
    case Filling(m, addr) =>
      && WellFormed(m, reqwords) && Admits(w, mem[SHARED_READ], reqwords, |mem|)
      && w + 1 <= addr <= w + 1 + |m.body| && addr <= |mem|
      && mem[w + 1..addr] == m.body[..addr - (w + 1)]
    case Headed(m) => Admits(w, mem[SHARED_READ], reqwords, |mem|) && StoredAt(mem, w, m, reqwords)
    case PadDone(m) => Admits(w, mem[SHARED_READ], reqwords, |mem|) && StoredAt(mem, w, m, reqwords)
  }

  ghost predicate ConsumerOk(consumer: Consumer, q: seq<Msg>) {
    match consumer
    case Polling => true
    case Seen => q != []
    case Handling(num, words, args) =>
      q != [] && num == q[0].num && words == |q[0].body| + 1 && args <= q[0].body
  }

  lemma RingFacts(mem: seq<Word>, q: seq<Msg>, reqwords: int)
    requires RingOk(mem, q, reqwords)
    ensures 5 <= |mem| < 0x1_0000_0000 && mem[SHARED_LIMIT] == |mem|
    ensures Slot(mem[SHARED_WRITE], reqwords, |mem|) && Slot(mem[SHARED_READ], reqwords, |mem|)
    ensures q == [] <==> mem[SHARED_READ] == mem[SHARED_WRITE]
    ensures q != [] ==> StoredAt(mem, mem[SHARED_READ], q[0], reqwords)
  {
  }

  /** A store by the producer off the consumer's path keeps the ring's meaning. */
  lemma StoreOffPath(mem: seq<Word>, x: int, v: Word, q: seq<Msg>, reqwords: int)
    requires RingOk(mem, q, reqwords) && SHARED_START <= x < |mem|
    requires !OnPath(x, mem[SHARED_READ], mem[SHARED_WRITE], |mem|)
    ensures RingOk(mem[x := v], q, reqwords)
  {
    LaidFrame(mem, mem[x := v], mem[SHARED_READ], mem[SHARED_WRITE], q, reqwords);
  }

  lemma StoreBody(mem: seq<Word>, m: Msg, addr: int, q: seq<Msg>, reqwords: int)
    requires RingOk(mem, q, reqwords) && ProducerOk(mem, Filling(m, addr), reqwords)
    requires addr < mem[SHARED_WRITE] + 1 + |m.body|
    ensures addr < |mem| && !OnPath(addr, mem[SHARED_READ], mem[SHARED_WRITE], |mem|)
    ensures var mem' := mem[addr := m.body[addr - (mem[SHARED_WRITE] + 1)]];
            RingOk(mem', q, reqwords) && ProducerOk(mem', Filling(m, addr + 1), reqwords)
  {
    hide OnPath, RingOk;
    RingFacts(mem, q, reqwords);
    var w := mem[SHARED_WRITE];
    ProducerRoom(mem[SHARED_READ], w, Padded(|m.body| + 1), reqwords, |mem|);
    var mem' := mem[addr := m.body[addr - (w + 1)]];
    StoreOffPath(mem, addr, mem'[addr], q, reqwords);
    WordStored(mem, m.body, w + 1, addr);
  }

  lemma WordStored(mem: seq<Word>, body: seq<Word>, from: nat, addr: nat)
    requires from <= addr < |mem| && addr - from < |body| && mem[from..addr] == body[..addr - from]
    ensures mem[addr := body[addr - from]][from..addr + 1] == body[..addr + 1 - from]
  {
    assert mem[addr := body[addr - from]][from..addr + 1] == mem[from..addr] + [body[addr - from]];
  }

  lemma StoreHeader(mem: seq<Word>, m: Msg, addr: int, q: seq<Msg>, reqwords: int)
    requires RingOk(mem, q, reqwords) && ProducerOk(mem, Filling(m, addr), reqwords)
    requires addr == mem[SHARED_WRITE] + 1 + |m.body|
    ensures !OnPath(mem[SHARED_WRITE], mem[SHARED_READ], mem[SHARED_WRITE], |mem|)
    ensures var mem' := mem[mem[SHARED_WRITE] := Header(m)];
            RingOk(mem', q, reqwords) && ProducerOk(mem', Headed(m), reqwords)
  {
    hide OnPath, RingOk, Header;
    RingFacts(mem, q, reqwords);
    var w := mem[SHARED_WRITE];
    ProducerRoom(mem[SHARED_READ], w, Padded(|m.body| + 1), reqwords, |mem|);
    var mem' := mem[w := Header(m)];
    StoreOffPath(mem, w, Header(m), q, reqwords);
    assert mem'[w + 1..addr] == mem[w + 1..addr];
  }

  lemma StorePad(mem: seq<Word>, m: Msg, q: seq<Msg>, reqwords: int)
    requires RingOk(mem, q, reqwords) && ProducerOk(mem, Headed(m), reqwords)
    requires (|m.body| + 1) % 2 == 1
    ensures var x := mem[SHARED_WRITE] + |m.body| + 1;
            && x < |mem| && !OnPath(x, mem[SHARED_READ], mem[SHARED_WRITE], |mem|)
            && RingOk(mem[x := PAD_WORD], q, reqwords) && ProducerOk(mem[x := PAD_WORD], PadDone(m), reqwords)
  {
    var w := mem[SHARED_WRITE];
    var x := w + |m.body| + 1;
    ProducerRoom(mem[SHARED_READ], w, Padded(|m.body| + 1), reqwords, |mem|);
    StoreOffPath(mem, x, PAD_WORD, q, reqwords);
    assert mem[x := PAD_WORD][w + 1..x] == mem[w + 1..x];
  }

  lemma StoreIndex(mem: seq<Word>, m: Msg, q: seq<Msg>, reqwords: int)
    requires RingOk(mem, q, reqwords) && ProducerOk(mem, PadDone(m), reqwords)
    ensures var w' := Increment(mem[SHARED_WRITE] + Padded(|m.body| + 1), reqwords, |mem|);
            && SHARED_START <= w' < |mem| && w' != mem[SHARED_READ]
            && RingOk(mem[SHARED_WRITE := w'], q + [m], reqwords)
  {
    hide Laid, Admits, Header, StoredAt, Padded;
    var w, p := mem[SHARED_WRITE], mem[SHARED_READ];
    MessageFits(mem, w, m, reqwords);
    RingFacts(mem, q, reqwords);
    ProducerRoom(p, w, Padded(|m.body| + 1), reqwords, |mem|);
    LaidAppend(mem, p, w, q, m, reqwords);
    var w' := Increment(w + Padded(|m.body| + 1), reqwords, |mem|);
    LaidFrame(mem, mem[SHARED_WRITE := w'], p, w', q + [m], reqwords);
  }

  lemma ReadDone(mem: seq<Word>, q: seq<Msg>, reqwords: int)
    requires RingOk(mem, q, reqwords) && q != [] && 0 <= reqwords
    ensures var p' := Increment(mem[SHARED_READ] + Padded(|q[0].body| + 1), reqwords, |mem|);
            SHARED_START <= p' < |mem| && RingOk(mem[SHARED_READ := p'], q[1..], reqwords)
  {
    var w, p := mem[SHARED_WRITE], mem[SHARED_READ];
    var p' := Increment(p + Padded(|q[0].body| + 1), reqwords, |mem|);
    LaidFrame(mem, mem[SHARED_READ := p'], p', w, q[1..], reqwords);
  }

  lemma StoredFrame(mem: seq<Word>, w: int, m: Msg, reqwords: int, x: nat, v: Word)
    requires StoredAt(mem, w, m, reqwords) && x < w
    ensures StoredAt(mem[x := v], w, m, reqwords)
  {
    assert mem[x := v][w + 1..w + 1 + |m.body|] == mem[w + 1..w + 1 + |m.body|];
  }

  lemma ReadKeepsProducer(mem: seq<Word>, q: seq<Msg>, producer: Producer, reqwords: int)
    requires RingOk(mem, q, reqwords) && q != [] && 0 <= reqwords && ProducerOk(mem, producer, reqwords)
    ensures var p' := Increment(mem[SHARED_READ] + Padded(|q[0].body| + 1), reqwords, |mem|);
            SHARED_START <= p' < |mem| && ProducerOk(mem[SHARED_READ := p'], producer, reqwords)
  {
    hide StoredAt, Admits;
    var w, p := mem[SHARED_WRITE], mem[SHARED_READ];
    if producer.Filling? || producer.Headed? || producer.PadDone? {
      AdmitsAfterRead(mem, p, w, q, reqwords);
    }
    var p' := Increment(p + Padded(|q[0].body| + 1), reqwords, |mem|);
    var mem' := mem[SHARED_READ := p'];
    match producer
    case Filling(m, addr) => assert mem'[w + 1..addr] == mem[w + 1..addr];
    case Headed(m) => StoredFrame(mem, w, m, reqwords, SHARED_READ, p');
    case PadDone(m) => StoredFrame(mem, w, m, reqwords, SHARED_READ, p');
    case _ =>
  }

  lemma PadDoneFits(mem: seq<Word>, m: Msg, reqwords: int)
    requires 5 <= |mem| && ProducerOk(mem, PadDone(m), reqwords)
    ensures 0 <= m.num < 0x1_0000 && |m.body| + 1 < 0xffff
  {
  }

  lemma PublishedOk(mem: seq<Word>, reqwords: int)
    requires 5 <= |mem|
    ensures ProducerOk(mem, Published, reqwords)
  {
  }

  /** One more message to come does not disturb the consumer. */
  lemma ConsumerKeeps(consumer: Consumer, q: seq<Msg>, m: Msg)
    requires ConsumerOk(consumer, q)
    ensures ConsumerOk(consumer, q + [m])
  {
  }

  /** The messages of the sends for which the producer is free. */
  function Accepted(schedule: seq<Event>, free: seq<bool>): seq<Msg>
    requires |free| == |schedule|
  {
    if schedule == [] then []
    else
      var n := |schedule| - 1;
      Accepted(schedule[..n], free[..n]) + Taken(schedule[n], free[n])
  }

  /** What the producer takes up at an event. */
  function Taken(e: Event, free: bool): seq<Msg> {
    if e.Send? && free then [e.msg] else []
  }

  /** A send that finds the producer free takes it up, and no other event does. */
  predicate TakenAtOnce(schedule: seq<Event>, free: seq<bool>)
    requires |free| <= |schedule|
  {
    forall i | 0 <= i < |free| - 1 && free[i] :: free[i + 1] <==> !schedule[i].Send?
  }

  lemma NoneTaken(schedule: seq<Event>, all: seq<Msg>)
    ensures all == all + Accepted(schedule[..0], []) && TakenAtOnce(schedule, [])
  {
  }

  lemma AcceptedMore(schedule: seq<Event>, free: seq<bool>, i: nat, f: bool, all: seq<Msg>)
    requires i < |schedule| && |free| == i && TakenAtOnce(schedule, free)
    requires i > 0 && free[i - 1] ==> (f <==> !schedule[i - 1].Send?)
    ensures all + Accepted(schedule[..i + 1], free + [f])
            == all + Accepted(schedule[..i], free) + Taken(schedule[i], f)
    ensures TakenAtOnce(schedule, free + [f])
  {
    assert schedule[..i + 1][..i] == schedule[..i] && (free + [f])[..i] == free;
  }

  // ---- How many steps it takes --------------------------------------------------------------------------------

  function Times(schedule: seq<Event>, e: Event): nat {
    if schedule == [] then 0
    else Times(schedule[..|schedule| - 1], e) + if schedule[|schedule| - 1] == e then 1 else 0
  }

  /** The steps of the consumer for messages it has not begun: one to find it, one for the header, one for each word
      of the body and one to be done with it. */
  function Cost(q: seq<Msg>): nat {
    if q == [] then 0 else 3 + |q[0].body| + Cost(q[1..])
  }

  /** The steps left for the message it is at. */
  ghost function WorkOf(c: Consumer, q: seq<Msg>): (n: nat)
    requires ConsumerOk(c, q)
    ensures q != [] ==> n > 0
  {
    if q == [] then 0 else
      match c
      case Polling => 3 + |q[0].body|
      case Seen => 2 + |q[0].body|
      case Handling(_, _, args) => 1 + |q[0].body| - |args|
  }

  ghost function Owed(c: Consumer, q: seq<Msg>, n: nat): nat
    requires ConsumerOk(c, q) && n <= |q|
  {
    if n == 0 then 0 else WorkOf(c, q) + Cost(q[1..n])
  }

  /** Of the published messages the first `t` are consumed, or will be in the steps that are left of `budget`. */
  ghost predicate Due(t: nat, consumed: seq<Msg>, c: Consumer, q: seq<Msg>, steps: nat, budget: nat) {
    |consumed| >= t || (t - |consumed| <= |q| && ConsumerOk(c, q) && steps + Owed(c, q, t - |consumed|) <= budget)
  }

  /** A step of the consumer that had something to do. */
  ghost predicate Further(consumed: seq<Msg>, c: Consumer, q: seq<Msg>, consumed': seq<Msg>, c': Consumer, q': seq<Msg>)
  {
    && ConsumerOk(c, q) && ConsumerOk(c', q') && q != []
    && (|| (consumed' == consumed + [q[0]] && q' == q[1..] && c' == Polling)
        || (consumed' == consumed && q' == q && WorkOf(c', q') < WorkOf(c, q)))
  }

  lemma DueLess(t: nat, consumed: seq<Msg>, c: Consumer, q: seq<Msg>, consumed': seq<Msg>, c': Consumer, q': seq<Msg>,
                steps: nat, budget: nat)
    requires Due(t, consumed, c, q, steps, budget) && Further(consumed, c, q, consumed', c', q')
    ensures Due(t, consumed', c', q', steps + 1, budget)
  {
    if |consumed| < |consumed'| < t {
      CostLess(q, t - |consumed|);
    }
  }

  lemma CostLess(q: seq<Msg>, n: nat)
    requires 2 <= n <= |q|
    ensures Cost(q[1..n]) == 3 + |q[1].body| + Cost(q[1..][1..n - 1])
  {
    var a, b := q[1..n], q[1..];
    forall k | 0 <= k < n - 2
      ensures a[1..][k] == b[1..n - 1][k]
    {
      assert a[1..][k] == q[k + 2] == b[k + 1];
    }
    assert a[1..] == b[1..n - 1];
  }

  lemma DueSame(t: nat, consumed: seq<Msg>, c: Consumer, q: seq<Msg>, q': seq<Msg>, steps: nat, budget: nat)
    requires Due(t, consumed, c, q, steps, budget) && q <= q' && ConsumerOk(c, q')
    ensures Due(t, consumed, c, q', steps, budget)
  {
    if |consumed| < t {
      var n := t - |consumed|;
      assert q'[1..n] == q[1..n];
    }
  }

  lemma DueFirst(consumed: seq<Msg>, c: Consumer, q: seq<Msg>)
    requires ConsumerOk(c, q)
    ensures Due(|consumed + q|, consumed, c, q, 0, Owed(c, q, |q|))
  {
  }

  /** A step of the consumer, with or without something to do. */
  lemma DueOn(t: nat, consumed: seq<Msg>, c: Consumer, q: seq<Msg>, consumed': seq<Msg>, c': Consumer, q': seq<Msg>,
              steps: nat, budget: nat)
    requires Due(t, consumed, c, q, steps, budget) && |consumed| <= |consumed'|
    requires q != [] ==> Further(consumed, c, q, consumed', c', q')
    ensures Due(t, consumed', c', q', steps + 1, budget)
  {
    if q != [] {
      DueLess(t, consumed, c, q, consumed', c', q', steps, budget);
    }
  }

  /** What the two sides have done: messages published, message under way, producer stores left until that one is
      published, messages consumed, and what is left to read. */
  datatype Point =
    Point(sent: seq<Msg>, flying: seq<Msg>, left: nat, consumed: seq<Msg>, consumer: Consumer, unread: seq<Msg>)

  /** Each side gets on with its own steps and is not set back by those of the other. */
  ghost predicate Went(p: Point, e: Event, q: Point) {
    && p.sent <= q.sent && |p.consumed| <= |q.consumed|
    && (if e.ConsumerStep?
        then if p.unread == [] then q.consumed == p.consumed
             else Further(p.consumed, p.consumer, p.unread, q.consumed, q.consumer, q.unread)
        else q.consumed == p.consumed && q.consumer == p.consumer && p.unread <= q.unread
             && (ConsumerOk(p.consumer, p.unread) ==> ConsumerOk(q.consumer, q.unread)))
    && (p.left > 0 ==>
          && q.sent + q.flying == p.sent + p.flying && (q.left == 0 ==> q.flying == [])
          && if e.ProducerStep? then q.left < p.left else q.left == p.left)
  }

  /** What was published or under way at `p` has been dealt with, or will be in as many steps as it takes. */
  ghost predicate OnTime(p: Point, schedule: seq<Event>, q: Point)
    requires ConsumerOk(p.consumer, p.unread)
  {
    && Due(|p.sent|, q.consumed, q.consumer, q.unread, Times(schedule, ConsumerStep),
           Owed(p.consumer, p.unread, |p.unread|))
    && (p.left > 0 ==>
          p.sent + p.flying <= q.sent
          || (q.left > 0 && q.sent + q.flying == p.sent + p.flying && Times(schedule, ProducerStep) + q.left <= p.left))
  }

  lemma OnTimeFirst(p: Point)
    requires ConsumerOk(p.consumer, p.unread) && p.sent == p.consumed + p.unread
    ensures OnTime(p, [], p)
  {
    DueFirst(p.consumed, p.consumer, p.unread);
  }

  lemma OnTimeNext(p: Point, schedule: seq<Event>, i: nat, q: Point, r: Point)
    requires i < |schedule| && ConsumerOk(p.consumer, p.unread) && OnTime(p, schedule[..i], q)
    requires Went(q, schedule[i], r) && ConsumerOk(q.consumer, q.unread)
    ensures OnTime(p, schedule[..i + 1], r)
  {
    hide Due, Times, Owed, Further;
    OneMoreTime(schedule, i);
    var t, steps, owed := |p.sent|, Times(schedule[..i], ConsumerStep), Owed(p.consumer, p.unread, |p.unread|);
    if schedule[i].ConsumerStep? {
      DueOn(t, q.consumed, q.consumer, q.unread, r.consumed, r.consumer, r.unread, steps, owed);
    } else {
      DueSame(t, q.consumed, q.consumer, q.unread, r.unread, steps, owed);
    }
    assert r.sent + [] == r.sent;
  }

  lemma InTime(p: Point, schedule: seq<Event>, q: Point)
    requires ConsumerOk(p.consumer, p.unread) && OnTime(p, schedule, q) && p.sent <= q.sent
    requires q.sent == q.consumed + q.unread
    ensures Times(schedule, ConsumerStep) >= Owed(p.consumer, p.unread, |p.unread|) ==>
              p.sent <= q.consumed && Visible(p.sent) <= Visible(q.consumed)
    ensures p.left > 0 && Times(schedule, ProducerStep) >= p.left ==> p.sent + p.flying <= q.sent
  {
    hide Times, Visible;
    if Times(schedule, ConsumerStep) >= Owed(p.consumer, p.unread, |p.unread|) {
      assert q.sent[..|q.consumed|] == q.consumed;
      VisibleConcat(p.sent, q.consumed[|p.sent|..]);
      assert p.sent + q.consumed[|p.sent|..] == q.consumed;
    }
  }

  lemma OneMoreTime(schedule: seq<Event>, i: nat)
    requires i < |schedule|
    ensures forall e ::
              Times(schedule[..i + 1], e) == Times(schedule[..i], e) + if schedule[i] == e then 1 else 0
  {
    assert schedule[..i + 1][..i] == schedule[..i];
  }

  class SharedRing {
    const reqwords: nat            // from the portal's reqinfo word, the same on every call
    const mapBase: array<Word>
    var producer: Producer
    var consumer: Consumer
    var handled: seq<Msg>          // the handler's calls, in order
    ghost var sent: seq<Msg>       // every message whose write index was published
    ghost var consumed: seq<Msg>
    ghost var unread: seq<Msg>

    ghost predicate Valid()
      reads this, mapBase
    {
      && RingOk(mapBase[..], unread, reqwords)
      && ProducerOk(mapBase[..], producer, reqwords)
      && ConsumerOk(consumer, unread)
      && sent == consumed + unread
      && handled == Visible(consumed)
    }

    /** The message between its address being taken and its index being published. */
    ghost function InFlight(): seq<Msg>
      reads this
    {
      if producer == Quiet || producer == Published then [] else [producer.msg]
    }

    /** A ring as a new transport finds it. */
    constructor (reqinfo: nat, words: nat)
      requires 5 <= words < 0x1_0000_0000
      ensures Valid() && fresh(mapBase)
      ensures reqwords == Reqwords(reqinfo) && mapBase.Length == words
      ensures sent == [] && handled == [] && producer == Quiet && consumer == Polling
    {
      reqwords := Reqwords(reqinfo);
      mapBase := new Word[words](_ => 0);
      producer, consumer := Quiet, Polling;
      handled, sent, consumed, unread := [], [], [], [];
      new;
      mapBase[SHARED_LIMIT] := words;
      mapBase[SHARED_WRITE] := SHARED_START;
      mapBase[SHARED_READ] := SHARED_START;
      mapBase[SHARED_START] := 0;
    }

    /** The caller of a portal method takes the address of the first body word. */
    method MapChannel(msg: Msg)
      requires Valid() && producer == Quiet && WellFormed(msg, reqwords)
      modifies this`producer
      ensures Valid() && InFlight() == [msg] && producer.Waiting?
    {
      producer := Waiting(msg, mapBase[SHARED_WRITE] + 1);
    }

    /** One pass of the producer's busy wait. */
    method BusyWait()
      requires Valid() && producer.Waiting?
      modifies this`producer
      ensures Valid() && InFlight() == old(InFlight())
      ensures producer.Filling? <==>
                |FreeWords(mapBase[SHARED_WRITE], mapBase[SHARED_READ], mapBase.Length)| > 2 * reqwords
      ensures !producer.Filling? ==> producer == old(producer)
    {
      RingFacts(mapBase[..], unread, reqwords);
      AdmitsExactly(mapBase[SHARED_WRITE], mapBase[SHARED_READ], reqwords, mapBase.Length);
      hide FreeWords, Laid, OnPath, InFlight, Visible;
      var write, read := mapBase[SHARED_WRITE], mapBase[SHARED_READ];
      var avail;
      if write >= read {
        avail := mapBase[SHARED_LIMIT] - (write - read) - 4;
      } else {
        avail := read - write;
      }
      if avail > 2 * reqwords {
        producer := Filling(producer.msg, producer.addr);
      }
    }

    /** Producer stores left until its message is out. */
    ghost function Left(): int
      reads this, mapBase
      requires 5 <= mapBase.Length
    {
      match producer
      case Quiet => 0
      case Published => 1
      case PadDone(_) => 2
      case Headed(_) => 3
      case Filling(m, addr) => 4 + mapBase[SHARED_WRITE] + 1 + |m.body| - addr
      case Waiting(m, _) => 5 + |m.body|
    }

    lemma LeftPositive()
      requires Valid() && producer != Quiet && !producer.Waiting?
      ensures 5 <= mapBase.Length && Left() > 0
    {
      hide Laid;
    }

    /** One store to shared memory by the producer. It never stores to a word the consumer has yet to read,
        and the consumer's view changes only at the store that publishes the new index. */
    method Produce()
      requires Valid() && producer != Quiet && !producer.Waiting?
      modifies this`producer, this`sent, this`unread, mapBase
      ensures Valid()
      ensures forall x {:trigger mapBase[x]} :: 0 <= x < mapBase.Length && mapBase[x] != old(mapBase[x]) ==>
                x == SHARED_WRITE || (SHARED_START <= x
                  && !OnPath(x, old(mapBase[SHARED_READ]), old(mapBase[SHARED_WRITE]), mapBase.Length))
      ensures unread == old(unread) + (if old(producer).PadDone? then old(InFlight()) else [])
      ensures sent == old(sent) + (if old(producer).PadDone? then old(InFlight()) else [])
      ensures InFlight() == if old(producer).PadDone? then [] else old(InFlight())
      ensures !producer.Waiting? && 0 <= Left() < old(Left())
    {
      hide Laid, Visible;
      match producer {
        case Filling(m, addr) =>
          if addr < mapBase[SHARED_WRITE] + 1 + |m.body| { ProduceBody(m, addr); } else { ProduceHeader(m, addr); }
        case Headed(m) => ProducePad(m);
        case PadDone(m) => ProduceIndex(m);
        case Published => ProduceEnd();
      }
    }

    method ProduceBody(m: Msg, addr: int)
      requires Valid() && producer == Filling(m, addr) && addr < mapBase[SHARED_WRITE] + 1 + |m.body|
      modifies this`producer, mapBase
      ensures Valid() && producer == Filling(m, addr + 1)
      ensures mapBase[SHARED_WRITE] == old(mapBase[SHARED_WRITE])
      ensures forall x {:trigger mapBase[x]} :: 0 <= x < mapBase.Length && mapBase[x] != old(mapBase[x]) ==>
                SHARED_START <= x && !OnPath(x, old(mapBase[SHARED_READ]), old(mapBase[SHARED_WRITE]), mapBase.Length)
    {
      hide RingOk, OnPath, StoredAt;
      RingFacts(mapBase[..], unread, reqwords);
      ghost var mem := mapBase[..];
      StoreBody(mem, m, addr, unread, reqwords);
      mapBase[addr] := m.body[addr - (mapBase[SHARED_WRITE] + 1)];
      producer := Filling(m, addr + 1);
      assert mapBase[..] == mem[addr := mapBase[addr]];
    }

    method ProduceHeader(m: Msg, addr: int)
      requires Valid() && producer == Filling(m, addr) && addr >= mapBase[SHARED_WRITE] + 1 + |m.body|
      modifies this`producer, mapBase
      ensures Valid() && producer == Headed(m)
      ensures forall x {:trigger mapBase[x]} :: 0 <= x < mapBase.Length && mapBase[x] != old(mapBase[x]) ==>
                SHARED_START <= x && !OnPath(x, old(mapBase[SHARED_READ]), old(mapBase[SHARED_WRITE]), mapBase.Length)
    {
      hide RingOk, OnPath, StoredAt;
      RingFacts(mapBase[..], unread, reqwords);
      ghost var mem := mapBase[..];
      StoreHeader(mem, m, addr, unread, reqwords);
      mapBase[mapBase[SHARED_WRITE]] := Header(m);
      producer := Headed(m);
      assert mapBase[..] == mem[mem[SHARED_WRITE] := Header(m)];
    }

    method ProducePad(m: Msg)
      requires Valid() && producer == Headed(m)
      modifies this`producer, mapBase
      ensures Valid() && producer == PadDone(m)
      ensures mapBase[SHARED_WRITE] == old(mapBase[SHARED_WRITE])
      ensures |m.body| % 2 == 0 ==>
                var pad := mapBase[SHARED_WRITE] + |m.body| + 1;
                0 <= pad < mapBase.Length && mapBase[pad] == 0xffff_0001
      ensures forall x {:trigger mapBase[x]} :: 0 <= x < mapBase.Length && mapBase[x] != old(mapBase[x]) ==>
                SHARED_START <= x && !OnPath(x, old(mapBase[SHARED_READ]), old(mapBase[SHARED_WRITE]), mapBase.Length)
    {
      RingFacts(mapBase[..], unread, reqwords);
      hide Header, RingOk, OnPath, Laid, Visible, FreeWords, ConsumerOk;
      ghost var mem := mapBase[..];
      HeaderParts(m);
      var words := Header(m) % 0x1_0000;
      if words % 2 == 1 {
        StorePad(mem, m, unread, reqwords);
        mapBase[mapBase[SHARED_WRITE] + words] := PAD_WORD;
        assert mapBase[..] == mem[mem[SHARED_WRITE] + words := PAD_WORD];
      }
      producer := PadDone(m);
    }

    /** The words a message takes up, from its header, rounded up to even. */
    method WordsTaken(m: Msg) returns (words: int)
      requires 0 <= m.num < 0x1_0000 && |m.body| + 1 < 0xffff
      ensures words == Padded(|m.body| + 1)
    {
      hide Header, AndFffe;
      HeaderParts(m);
      words := Header(m) % 0x1_0000;
      if words % 2 == 1 {
        PaddedIsMask(words);
        words := AndFffe(words + 1);
      }
    }

    method ProduceIndex(m: Msg)
      requires Valid() && producer == PadDone(m)
      modifies this`producer, this`sent, this`unread, mapBase
      ensures Valid() && producer == Published
      ensures unread == old(unread) + [m] && sent == old(sent) + [m]
      ensures forall x :: 0 <= x < mapBase.Length && x != SHARED_WRITE ==> mapBase[x] == old(mapBase[x])
    {
      hide Header, Laid, AndFffe, RingOk, OnPath, Admits, ProducerOk, Slot, Increment, ConsumerOk;
      RingFacts(mapBase[..], unread, reqwords);
      ghost var mem := mapBase[..];
      PadDoneFits(mem, m, reqwords);
      var words := WordsTaken(m);
      StoreIndex(mem, m, unread, reqwords);
      ConsumerKeeps(consumer, unread, m);
      mapBase[SHARED_WRITE] := Increment(mapBase[SHARED_WRITE] + words, reqwords, mapBase[SHARED_LIMIT]);
      producer := Published;
      sent, unread := sent + [m], unread + [m];
      assert mapBase[..] == mem[SHARED_WRITE := mapBase[SHARED_WRITE]];
      PublishedOk(mapBase[..], reqwords);
    }

    method ProduceEnd()
      requires Valid() && producer == Published
      modifies this`producer, mapBase
      ensures Valid() && producer == Quiet
      ensures forall x {:trigger mapBase[x]} :: 0 <= x < mapBase.Length && mapBase[x] != old(mapBase[x]) ==>
                SHARED_START <= x && !OnPath(x, old(mapBase[SHARED_READ]), old(mapBase[SHARED_WRITE]), mapBase.Length)
    {
      hide RingOk;
      RingFacts(mapBase[..], unread, reqwords);
      ghost var mem := mapBase[..];
      StoreOffPath(mem, mem[SHARED_WRITE], 0, unread, reqwords);
      mapBase[mapBase[SHARED_WRITE]] := 0;
      producer := Quiet;
      assert mapBase[..] == mem[mem[SHARED_WRITE] := 0];
    }

    /** Consumer steps left until the oldest unread message is done. */
    ghost function Work(): nat
      requires ConsumerOk(consumer, unread)
      reads this
    {
      WorkOf(consumer, unread)
    }

    /** The handler returns and the consumer moves past the message. */
    method Finish(num: int, words: int, args: seq<Word>)
      requires Valid() && consumer == Handling(num, words, args)
      requires num == SKIPPED_NUM || |args| == words - 1
      modifies this`consumer, this`handled, this`consumed, this`unread, mapBase
      ensures Valid()
      ensures forall x :: 0 <= x < mapBase.Length && x != SHARED_READ ==> mapBase[x] == old(mapBase[x])
      ensures old(unread) != [] && consumed == old(consumed) + [old(unread)[0]] && unread == old(unread)[1..]
      ensures consumer == Polling
    {
      hide AndFffe, Laid, Visible, RingOk, ProducerOk;
      RingFacts(mapBase[..], unread, reqwords);
      ghost var mem := mapBase[..];
      if num != SKIPPED_NUM {
        handled := handled + [Msg(num, args)];
      }
      ReadDone(mem, unread, reqwords);
      ReadKeepsProducer(mem, unread, producer, reqwords);
      PaddedIsMask(words);
      mapBase[SHARED_READ] := Increment(mapBase[SHARED_READ] + AndFffe(words + 1), reqwords, mapBase[SHARED_LIMIT]);
      VisibleSnoc(consumed, unread[0]);
      assert num != SKIPPED_NUM ==> Msg(num, args) == unread[0];
      consumer, consumed, unread := Polling, consumed + [unread[0]], unread[1..];
      assert mapBase[..] == mem[SHARED_READ := mapBase[SHARED_READ]];
    }

    /** One access to shared memory by the consumer. It stores nothing but its own index, and in at most
        three steps more than the message has arguments it is done with the oldest message. */
    method Consume()
      requires Valid()
      modifies this`consumer, this`handled, this`consumed, this`unread, mapBase
      ensures Valid()
      ensures forall x :: 0 <= x < mapBase.Length && x != SHARED_READ ==> mapBase[x] == old(mapBase[x])
      ensures old(unread) == [] ==> consumed == old(consumed) && unread == []
      ensures old(unread) != [] ==>
                || (consumed == old(consumed) + [old(unread)[0]] && unread == old(unread)[1..] && consumer == Polling)
                || (consumed == old(consumed) && unread == old(unread) && Work() < old(Work()))
    {
      hide RingOk, OnPath, ProducerOk;
      RingFacts(mapBase[..], unread, reqwords);
      ghost var mem := mapBase[..];
      match consumer
      case Polling =>
        if mapBase[SHARED_READ] != mapBase[SHARED_WRITE] {
          consumer := Seen;
        }
      case Seen =>
        var hdr := mapBase[mapBase[SHARED_READ]];
        HeaderParts(unread[0]);
        consumer := Handling(hdr / 0x1_0000, hdr % 0x1_0000, []);
      case Handling(num, words, args) =>
        if num != SKIPPED_NUM && |args| < words - 1 {
          ghost var p := mem[SHARED_READ];
          var arg := mapBase[mapBase[SHARED_READ] + 1 + |args|];
          assert arg == mem[p + 1..p + 1 + |unread[0].body|][|args|];
          consumer := Handling(num, words, args + [arg]);
        } else {
          Finish(num, words, args);
        }
    }

    /** One scheduled event. */
    method Step(e: Event)
      requires Valid() && (e.Send? ==> WellFormed(e.msg, reqwords))
      modifies this`producer, this`consumer, this`handled, this`sent, this`consumed, this`unread, mapBase
      ensures Valid()
      ensures sent + InFlight() == old(sent + InFlight()) + Taken(e, old(producer) == Quiet)
      ensures old(sent) <= sent
      ensures old(producer) == Quiet ==> (producer == Quiet <==> !e.Send?)
      ensures Went(old(Here()), e, Here())
    {
      hide RingOk, ProducerOk, ConsumerOk, Left, Further;
      match e
      case Send(m) =>
        if producer == Quiet { MapChannel(m); } else { assert Here() == old(Here()); }
      case ProducerStep =>
        ProducerTurn();
      case ConsumerStep =>
        ConsumerTurn();
    }

    /** The producer checks for space, stores a word, or has nothing to do. */
    method ProducerTurn()
      requires Valid()
      modifies this`producer, this`sent, this`unread, mapBase
      ensures Valid() && sent + InFlight() == old(sent + InFlight()) && old(sent) <= sent
      ensures old(producer) == Quiet ==> producer == Quiet
      ensures Went(old(Here()), ProducerStep, Here())
    {
      hide RingOk, ProducerOk, ConsumerOk, Further, OnPath, FreeWords;
      if producer.Waiting? {
        BusyWait();
      } else if producer != Quiet {
        LeftPositive();
        Produce();
        if producer != Quiet {
          LeftPositive();
        }
      }
    }

    method ConsumerTurn()
      requires Valid()
      modifies this`consumer, this`handled, this`consumed, this`unread, mapBase
      ensures Valid() && Went(old(Here()), ConsumerStep, Here())
    {
      RingFacts(mapBase[..], unread, reqwords);
      hide RingOk, ProducerOk, WorkOf, Laid, OnPath;
      Consume();
      assert mapBase[SHARED_WRITE] == old(mapBase[SHARED_WRITE]);
    }

    ghost function Here(): Point
      requires Valid()
      reads this, mapBase
    {
      var left := if producer == Quiet || producer.Waiting? then 0 else LeftNow();
      Point(sent, InFlight(), left, consumed, consumer, unread)
    }

    ghost function LeftNow(): nat
      requires Valid() && producer != Quiet && !producer.Waiting?
      reads this, mapBase
    {
      LeftPositive();
      Left()
    }

    /** Any schedule of the two sides, `free` saying before which events the producer was between messages. The sends
        it took up are those it was free for, in order; each is published or still in flight, and the handler has been
        called for a prefix of the published messages, each exactly once, in order and with its own words. However the
        two are interleaved, with so many steps of the consumer it has handled all that was published, and with so many
        of a producer past its space check the message under way is published. */
    method Run(schedule: seq<Event>) returns (free: seq<bool>)
      requires Valid()
      requires forall i :: 0 <= i < |schedule| && schedule[i].Send? ==> WellFormed(schedule[i].msg, reqwords)
      modifies this`producer, this`consumer, this`handled, this`sent, this`consumed, this`unread, mapBase
      ensures Valid() && old(sent) <= sent && handled <= Visible(sent)
      ensures (forall m | m in sent :: m.num != 0xffff) ==> handled <= sent
      ensures Times(schedule, ConsumerStep) >= old(Owed(consumer, unread, |unread|)) ==>
                old(sent) <= consumed && Visible(old(sent)) <= handled
      ensures !old(producer).Waiting? && Times(schedule, ProducerStep) >= old(Here()).left ==>
                old(sent + InFlight()) <= sent
      ensures |free| == |schedule| && sent + InFlight() == old(sent + InFlight()) + Accepted(schedule, free)
      ensures schedule != [] ==> (free[0] <==> old(producer) == Quiet)
      ensures TakenAtOnce(schedule, free)
    {
      assert producer == Quiet ==> sent + InFlight() == sent;
      hide RingOk, ProducerOk, ConsumerOk, Accepted, TakenAtOnce, InFlight, Taken, Visible, Owed, Times, Went, OnTime,
          Left;
      free := [];
      ghost var all, start := sent + InFlight(), Here();
      NoneTaken(schedule, all);
      OnTimeFirst(start);
      for i := 0 to |schedule|
        invariant Valid() && old(sent) <= sent && |free| == i
        invariant sent + InFlight() == all + Accepted(schedule[..i], free)
        invariant if i == 0 then producer == old(producer) else free[0] <==> old(producer) == Quiet
        invariant i > 0 && free[i - 1] ==> (producer == Quiet <==> !schedule[i - 1].Send?)
        invariant TakenAtOnce(schedule, free)
        invariant OnTime(start, schedule[..i], Here())
      {
        ghost var here := Here();
        AcceptedMore(schedule, free, i, producer == Quiet, all);
        free := free + [producer == Quiet];
        Step(schedule[i]);
        OnTimeNext(start, schedule, i, here, Here());
      }
      assert schedule[..|schedule|] == schedule;
      VisibleConcat(consumed, unread);
      if forall m | m in sent :: m.num != 0xffff {
        VisibleAll(sent);
      }
      InTime(start, schedule, Here());
    }

    /** A consumer left alone delivers everything that was published. */
    method Drain()
      requires Valid()
      modifies this`consumer, this`handled, this`consumed, this`unread, mapBase
      ensures Valid() && sent == old(sent)
      ensures unread == [] && handled == Visible(sent) && producer == old(producer)
    {
      while mapBase[SHARED_READ] != mapBase[SHARED_WRITE]
        invariant Valid() && sent == old(sent) && producer == old(producer)
        decreases |unread|, Work()
      {
        Consume();
      }
      RingFacts(mapBase[..], unread, reqwords);
      assert consumed + [] == consumed;
    }

    /** A producer past its space check publishes its message whatever the consumer does. */
    method Flush()
      requires Valid() && !producer.Waiting?
      modifies this`producer, this`sent, this`unread, mapBase
      ensures Valid() && producer == Quiet
      ensures sent == old(sent + InFlight()) && unread == old(unread + InFlight())
    {
      hide Laid, ProducerOk, Visible;
      while producer != Quiet
        invariant Valid() && !producer.Waiting?
        invariant sent + InFlight() == old(sent + InFlight()) && unread + InFlight() == old(unread + InFlight())
        decreases Left()
      {
        Produce();
      }
    }

    /** On a ring larger than twice the largest message a send to an empty ring passes the space check at once,
        and the handler gets the message. */
    method Exchange(m: Msg)
      requires Valid() && producer == Quiet && unread == []
      requires mapBase.Length > 2 * reqwords + 4 && WellFormed(m, reqwords)
      modifies this`producer, this`consumer, this`handled, this`sent, this`consumed, this`unread, mapBase
      ensures Valid() && producer == Quiet && unread == []
      ensures handled == old(handled) + Visible([m]) == old(handled) + if m.num != 0xffff then [m] else []
    {
      RingFacts(mapBase[..], unread, reqwords);
      MapChannel(m);
      EmptyRingAdmits(mapBase[SHARED_WRITE], reqwords, mapBase.Length);
      AdmitsExactly(mapBase[SHARED_WRITE], mapBase[SHARED_READ], reqwords, mapBase.Length);
      BusyWait();
      Flush();
      VisibleConcat(consumed, [m]);
      Drain();
    }
  }
}
