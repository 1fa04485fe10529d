/** Words from a simulator, many portals sharing one channel, put together into messages. */
module Xsim {
  import opened Wrappers

  type Word = Word32

  const NUM_PORTALS := 16
  const MAX_WORDS := 256   // no message has as many

  /** Words in a message, by its header; even a header that says 0 is a word. */
  function LengthOf(hdr: Word): (n: nat)
    ensures 1 <= n < MAX_WORDS
  {
    if hdr % 0x100 == 0 then 1 else hdr % 0x100
  }

  function MethodOf(hdr: Word): nat {
    hdr / 0x1_0000 % 0x100
  }

  // ---- Messages in a stream of words ------------------------------------------------------------------------

  /** A message the packers make: as many words as its header says. */
  predicate WellFormed(m: seq<Word>) {
    m != [] && |m| == LengthOf(m[0])
  }

  function Joined(ms: seq<seq<Word>>): seq<Word> {
    if ms == [] then [] else Joined(ms[..|ms| - 1]) + ms[|ms| - 1]
  }

  /** The messages a stream of words holds, and the words of one that is not complete. */
  function Split(ws: seq<Word>): (r: (seq<seq<Word>>, seq<Word>))
    ensures r.1 != [] ==> |r.1| < LengthOf(r.1[0])
    ensures forall m | m in r.0 :: WellFormed(m)
  {
    if ws == [] then ([], [])
    else
      var (ms, rest) := Split(ws[..|ws| - 1]);
      var more := rest + [ws[|ws| - 1]];
      if |more| == LengthOf(more[0]) then (ms + [more], []) else (ms, more)
  }

  /** No word is lost, repeated or moved. */
  lemma {:induction false} SplitKeeps(ws: seq<Word>)
    ensures Joined(Split(ws).0) + Split(ws).1 == ws
    decreases |ws|
  {
    if ws != [] {
      var n := |ws| - 1;
      SplitKeeps(ws[..n]);
      var (ms, rest) := Split(ws[..n]);
      var more := rest + [ws[n]];
      assert ws == ws[..n] + [ws[n]];
      assert Joined(ms) + more == ws;
      if |more| == LengthOf(more[0]) {
        assert (ms + [more])[..|ms|] == ms;
        assert Joined(ms + [more]) + [] == ws;
      }
    }
  }

  lemma SplitNext(ws: seq<Word>, w: Word)
    ensures var (ms, rest) := Split(ws);
            var more := rest + [w];
            Split(ws + [w]) == if |more| == LengthOf(more[0]) then (ms + [more], []) else (ms, more)
  {
    assert (ws + [w])[..|ws|] == ws;
  }

  /** Part of a message after complete ones. */
  lemma {:induction false} SplitPart(ms: seq<seq<Word>>, m: seq<Word>, k: nat)
    requires Split(Joined(ms)) == (ms, []) && WellFormed(m) && k < |m|
    ensures Split(Joined(ms) + m[..k]) == (ms, m[..k])
    decreases k
  {
    hide Split, Joined, LengthOf;
    if k == 0 {
      assert Joined(ms) + m[..0] == Joined(ms);
    } else {
      SplitPart(ms, m, k - 1);
      SplitNext(Joined(ms) + m[..k - 1], m[k - 1]);
      PartNext(Joined(ms), m, k - 1);
    }
  }

  lemma PartNext(pre: seq<Word>, m: seq<Word>, k: nat)
    requires k < |m|
    ensures m[..k + 1] == m[..k] + [m[k]] && pre + m[..k + 1] == pre + m[..k] + [m[k]]
    ensures m[..k + 1][0] == m[0]
  {
  }

  /** A stream made of well-formed messages splits into exactly those. */
  lemma {:induction false} SplitJoined(ms: seq<seq<Word>>)
    requires forall m | m in ms :: WellFormed(m)
    ensures Split(Joined(ms)) == (ms, [])
    decreases |ms|
  {
    if ms != [] {
      var n := |ms| - 1;
      var front, m := ms[..n], ms[n];
      assert m in ms;
      SplitJoined(front);
      assert Joined(ms) == Joined(front) + m;
      hide Split, Joined;
      LastWord(front, m);
      assert front + [m] == ms;
    }
  }

  lemma LastWord(front: seq<seq<Word>>, m: seq<Word>)
    requires Split(Joined(front)) == (front, []) && WellFormed(m)
    ensures Split(Joined(front) + m) == (front + [m], [])
  {
    hide Split, Joined, LengthOf;
    var k: nat := |m| - 1;
    SplitPart(front, m, k);
    SplitNext(Joined(front) + m[..k], m[k]);
    PartNext(Joined(front), m, k);
    assert m[..k + 1] == m;
  }

  // ---- Many portals -----------------------------------------------------------------------------------------

  /** What a stream of words, each marked with its portal, holds for one of them. */
  function Project(events: seq<(nat, Word)>, p: nat): seq<Word> {
    if events == [] then []
    else
      var front := Project(events[..|events| - 1], p);
      if events[|events| - 1].0 == p then front + [events[|events| - 1].1] else front
  }

  /** The messages of a stream, complete or not, are no longer than a buffer. */
  ghost predicate Fits(ws: seq<Word>, room: nat) {
    && (forall m | m in Split(ws).0 :: |m| <= room)
    && (Split(ws).1 != [] ==> LengthOf(Split(ws).1[0]) <= room)
  }

  lemma FitsFewer(ws: seq<Word>, w: Word, room: nat)
    requires Fits(ws + [w], room)
    ensures Fits(ws, room)
  {
    hide Split;
    SplitNext(ws, w);
    var (ms, rest) := Split(ws);
    var more := rest + [w];
    if |more| == LengthOf(more[0]) {
      assert more in Split(ws + [w]).0;
    }
    forall m | m in ms
      ensures |m| <= room
    {
      assert m in Split(ws + [w]).0;
    }
  }

  lemma {:induction false} FitsSoFar(events: seq<(nat, Word)>, k: nat, p: nat, room: nat)
    requires k <= |events| && Fits(Project(events, p), room)
    ensures Fits(Project(events[..k], p), room)
    decreases |events| - k
  {
    hide Fits, Project;
    if k == |events| {
      assert events[..k] == events;
    } else {
      FitsSoFar(events, k + 1, p, room);
      ProjectNext(events, k, p);
      if events[k].0 == p {
        FitsFewer(Project(events[..k], p), events[k].1, room);
      } else {
        assert Project(events[..k], p) + [] == Project(events[..k], p);
      }
    }
  }

  /** What one portal has received, by its counter, its header, its buffer and the calls of its handler. */
  ghost predicate PortalOk(index: nat, hdr: Word, buf: seq<Word>, calls: seq<(nat, seq<Word>)>, client: bool,
      ws: seq<Word>) {
    var (ms, rest) := Split(ws);
    && index == |rest|
    && (rest != [] ==> hdr == rest[0])
    && (client ==> Fits(ws, |buf|) && index <= |buf| && buf[..index] == rest && Handled(calls, ms))
    && (!client ==> calls == [])
  }

  /** The handler has been called once per message, with its method and its words. */
  ghost predicate Handled(calls: seq<(nat, seq<Word>)>, ms: seq<seq<Word>>) {
    |calls| == |ms| && forall i :: 0 <= i < |ms| ==> ms[i] != [] && calls[i] == (MethodOf(ms[i][0]), ms[i])
  }

  /** The next word of a message that fits has room. */
  lemma RoomForNext(ws: seq<Word>, data: Word, room: nat)
    requires Fits(ws + [data], room)
    ensures |Split(ws).1| < room
  {
    hide Split;
    SplitNext(ws, data);
    var more := Split(ws).1 + [data];
    if |more| == LengthOf(more[0]) {
      assert more in Split(ws + [data]).0;
    }
  }

  function Stored(buf: seq<Word>, index: nat, data: Word): seq<Word> {
    if index < |buf| then buf[index := data] else buf
  }

  lemma WordTaken(index: nat, hdr: Word, buf: seq<Word>, calls: seq<(nat, seq<Word>)>, client: bool, ws: seq<Word>,
      data: Word)
    requires PortalOk(index, hdr, buf, calls, client, ws) && (client ==> Fits(ws + [data], |buf|))
    ensures client ==> index < |buf|
    ensures var hdr' := if index == 0 then data else hdr;
            var buf' := if client then Stored(buf, index, data) else buf;
            var numWords := hdr' % 0x100;
            var calls' := if index + 1 >= numWords && client then calls + [(MethodOf(hdr'), buf'[..index + 1])]
                else calls;
            PortalOk(if index + 1 >= numWords then 0 else index + 1, hdr', buf', calls', client, ws + [data])
  {
    hide Split, MethodOf, Fits;
    var (ms, rest) := Split(ws);
    SplitNext(ws, data);
    var more := rest + [data];
    var hdr' := if index == 0 then data else hdr;
    assert more[0] == hdr';
    LengthReached(rest, hdr', ws);
    if client {
      RoomForNext(ws, data, |buf|);
      assert Stored(buf, index, data)[..index + 1] == buf[..index] + [data];
    }
  }

  lemma LengthReached(rest: seq<Word>, hdr: Word, ws: seq<Word>)
    requires rest == Split(ws).1 && (rest != [] ==> hdr == rest[0])
    ensures |rest| + 1 >= hdr % 0x100 <==> |rest| + 1 == LengthOf(hdr)
  {
  }

  class XsimPortals {
    var indicationIndex: seq<nat>
    var indicationHdr: seq<Word>
    const clients: seq<bool>                       // portals with a handler
    const rooms: seq<nat>                          // words in each client's buffer
    var mapBase: seq<seq<Word>>                    // the buffers
    var calls: seq<seq<(nat, seq<Word>)>>          // handler calls made, with the words then in the buffer
    ghost var received: seq<seq<Word>>

    ghost predicate Valid()
      reads this
    {
      && |indicationIndex| == |indicationHdr| == |clients| == |rooms| == |mapBase| == |calls| == |received|
          == NUM_PORTALS
      && forall p: nat :: p < NUM_PORTALS ==>
           && |mapBase[p]| == rooms[p]
           && PortalOk(indicationIndex[p], indicationHdr[p], mapBase[p], calls[p], clients[p], received[p])
    }

    constructor (clients: seq<bool>, rooms: seq<nat>)
      requires |clients| == NUM_PORTALS == |rooms|
      ensures Valid() && received == seq(NUM_PORTALS, _ => []) && this.clients == clients && this.rooms == rooms
    {
      this.clients, this.rooms := clients, rooms;
      indicationIndex := seq(NUM_PORTALS, _ => 0);
      indicationHdr := seq(NUM_PORTALS, _ => 0);
      mapBase := seq(NUM_PORTALS, p requires 0 <= p < NUM_PORTALS => seq(rooms[p], _ => 0));
      calls := seq(NUM_PORTALS, _ => []);
      received := seq(NUM_PORTALS, _ => []);
    }

    /** A word arrives for a portal. */
    method IndMsgSource(portal: nat, data: Word)
      requires portal < NUM_PORTALS
      requires Valid()
      requires clients[portal] ==> Fits(received[portal] + [data], rooms[portal])
      modifies this
      ensures |received| == |old(received)| == NUM_PORTALS
              && received == old(received)[portal := old(received)[portal] + [data]]
      ensures Valid()
    {
      hide PortalOk, MethodOf, Fits;
      var index := indicationIndex[portal];
      WordTaken(index, indicationHdr[portal], mapBase[portal], calls[portal], clients[portal], received[portal], data);
      indicationIndex := indicationIndex[portal := index + 1];
      if index == 0 {
        indicationHdr := indicationHdr[portal := data];
      }
      var hdr := indicationHdr[portal];
      if clients[portal] {
        mapBase := mapBase[portal := Stored(mapBase[portal], index, data)];
      }
      var numWords := hdr % 0x100;
      if indicationIndex[portal] >= numWords {
        if clients[portal] {
          calls := calls[portal := calls[portal] + [(MethodOf(hdr), mapBase[portal][..index + 1])]];
        }
        indicationIndex := indicationIndex[portal := 0];
      }
      received := received[portal := received[portal] + [data]];
    }
  }

  lemma ProjectNext(events: seq<(nat, Word)>, k: nat, p: nat)
    requires k < |events|
    ensures Project(events[..k + 1], p) == Project(events[..k], p) + if events[k].0 == p then [events[k].1] else []
  {
    assert events[..k + 1][..k] == events[..k];
  }

  /** Words of any portals, in any order: each client's handler is called once per message of its portal, in that
      portal's order, with that message's words. */
  method Run(clients: seq<bool>, rooms: seq<nat>, events: seq<(nat, Word)>) returns (x: XsimPortals)
    requires |clients| == NUM_PORTALS == |rooms| && forall e | e in events :: e.0 < NUM_PORTALS
    requires forall p: nat :: p < NUM_PORTALS && clients[p] ==> Fits(Project(events, p), rooms[p])
    ensures |x.calls| == NUM_PORTALS
    ensures forall p: nat :: p < NUM_PORTALS && clients[p] ==> Handled(x.calls[p], Split(Project(events, p)).0)
    ensures forall p: nat :: p < NUM_PORTALS && !clients[p] ==> x.calls[p] == []
  {
    hide PortalOk, Split, Project, Fits;
    x := new XsimPortals(clients, rooms);
    NothingYet(events);
    for k := 0 to |events|
      invariant x.Valid() && forall p: nat :: p < NUM_PORTALS ==> x.received[p] == Project(events[..k], p)
    {
      forall p: nat | p < NUM_PORTALS
        ensures Project(events[..k + 1], p) == Project(events[..k], p) + if events[k].0 == p then [events[k].1] else []
      {
        ProjectNext(events, k, p);
      }
      if clients[events[k].0] {
        FitsSoFar(events, k + 1, events[k].0, rooms[events[k].0]);
      }
      x.IndMsgSource(events[k].0, events[k].1);
    }
    assert events[..|events|] == events;
    forall p: nat | p < NUM_PORTALS
      ensures clients[p] ==> Handled(x.calls[p], Split(Project(events, p)).0)
      ensures !clients[p] ==> x.calls[p] == []
    {
      CallsMade(x.indicationIndex[p], x.indicationHdr[p], x.mapBase[p], x.calls[p], clients[p], x.received[p]);
    }
  }

  lemma NothingYet(events: seq<(nat, Word)>)
    ensures forall p: nat :: Project(events[..0], p) == []
  {
  }

  lemma CallsMade(index: nat, hdr: Word, buf: seq<Word>, calls: seq<(nat, seq<Word>)>, client: bool, ws: seq<Word>)
    requires PortalOk(index, hdr, buf, calls, client, ws)
    ensures client ==> Handled(calls, Split(ws).0)
    ensures !client ==> calls == []
  {
  }

  // ---- Sending ----------------------------------------------------------------------------------------------

  /** What a sender puts on the channel: the header with method and length, then the words. */
  function Framed(methodId: nat, words: seq<Word>): (m: seq<Word>)
    requires methodId < 0x100 && |words| < 255
    ensures m != [] && WellFormed(m) && MethodOf(m[0]) == methodId && m[1..] == words
    ensures m[0] == methodId * 0x1_0000 + |m|
  {
    [methodId * 0x1_0000 + (|words| + 1)] + words
  }

  /** Well-formed messages fit a buffer exactly if each of them does. */
  lemma WholeMessagesFit(ms: seq<seq<Word>>, room: nat)
    requires forall m | m in ms :: WellFormed(m)
    ensures Fits(Joined(ms), room) <==> forall m | m in ms :: |m| <= room
  {
    SplitJoined(ms);
  }

  /** When a portal's words are those of well-formed messages, the handler gets exactly these. */
  lemma WholeMessages(calls: seq<(nat, seq<Word>)>, ws: seq<Word>, ms: seq<seq<Word>>)
    requires (forall m | m in ms :: WellFormed(m)) && ws == Joined(ms) && Handled(calls, Split(ws).0)
    ensures |calls| == |ms| && forall i :: 0 <= i < |ms| ==> calls[i].1 == ms[i]
  {
    hide MethodOf;
    SplitJoined(ms);
  }
}
