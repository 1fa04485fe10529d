/** The host's side of the bus bursts: write data counted off against queued addresses, and beats answering a read. */
module Axi {
  import opened Wrappers

  datatype WriteState = WriteState(awaddr: nat, wdataCount: nat, wid: nat)

  type Half = x: nat | x < 0x1_0000

  datatype Burst = Burst(awaddr: nat, awlen: Half, awid: nat)

  datatype Rdata = Rdata(data: nat, rid: nat, last: bool)

  // ---- Write bursts -----------------------------------------------------------------------------------------

  /** Beats after which a burst is done. The counter is 16 bits wide and is compared after counting down, so that a
      burst of less than one beat takes a whole turn of it. */
  function Beats(b: Burst): (n: nat)
    ensures n > 0
  {
    if b.awlen / 8 == 0 then 0x1_0000 else b.awlen / 8
  }

  /** The bursts done once `beats` beats have come, in the order of their addresses. */
  function DoneAfter(bursts: seq<Burst>, beats: nat): (ids: seq<nat>)
    ensures |ids| <= |bursts|
    decreases |bursts|
  {
    if bursts == [] || beats < Beats(bursts[0]) then []
    else [bursts[0].awid] + DoneAfter(bursts[1..], beats - Beats(bursts[0]))
  }

  function TotalBeats(bursts: seq<Burst>): nat {
    if bursts == [] then 0 else Beats(bursts[0]) + TotalBeats(bursts[1..])
  }

  /** Just one answer per burst, with its own id, once all its beats and those before have come, and not before. */
  lemma {:induction false} DoneExactly(bursts: seq<Burst>, beats: nat, i: nat)
    requires i < |bursts|
    ensures i < |DoneAfter(bursts, beats)| <==> TotalBeats(bursts[..i + 1]) <= beats
    ensures i < |DoneAfter(bursts, beats)| ==> DoneAfter(bursts, beats)[i] == bursts[i].awid
    decreases |bursts|
  {
    assert bursts[..i + 1][1..] == bursts[1..][..i];
    if i == 0 {
      assert bursts[..1][1..] == [];
    } else if beats >= Beats(bursts[0]) {
      DoneExactly(bursts[1..], beats - Beats(bursts[0]), i - 1);
    } else {
      assert TotalBeats(bursts[..i + 1]) >= Beats(bursts[0]);
    }
  }

  /** A burst takes as many beats as its length says exactly if that is one at least. */
  lemma BeatsAsAsked(b: Burst)
    ensures Beats(b) == b.awlen / 8 <==> b.awlen >= 8
  {
  }

  /** `queue` is what is left of `bursts` once `beats` beats have come: `done` of them are done, and the next has
      `into`. */
  ghost predicate Queued(bursts: seq<Burst>, queue: seq<WriteState>, done: nat, into: nat, beats: nat, ids: seq<nat>) {
    && |bursts| == done + |queue| && (queue == [] ==> into == 0)
    && beats == TotalBeats(bursts[..done]) + into
    && (queue != [] ==> into < Beats(bursts[done]))
    && (forall k :: 0 <= k < |queue| ==>
          queue[k] == WriteState(bursts[done + k].awaddr, Left(bursts[done + k], if k == 0 then into else 0),
              bursts[done + k].awid))
    && |ids| == done && forall k :: 0 <= k < done ==> ids[k] == bursts[k].awid
  }

  /** The counter of a burst of which `into` beats have come. */
  function Left(b: Burst, into: nat): nat {
    (b.awlen / 8 - into) % 0x1_0000
  }

  lemma LeftNext(b: Burst, into: nat)
    requires into < Beats(b)
    ensures (Left(b, into) - 1) % 0x1_0000 == Left(b, into + 1)
    ensures Left(b, into + 1) == 0 <==> into + 1 == Beats(b)
  {
  }

  lemma {:induction false} TotalAppend(a: seq<Burst>, b: Burst)
    ensures TotalBeats(a + [b]) == TotalBeats(a) + Beats(b)
    decreases |a|
  {
    if a != [] {
      assert (a + [b])[1..] == a[1..] + [b];
      TotalAppend(a[1..], b);
    } else {
      assert ([b])[1..] == [];
      assert a + [b] == [b];
    }
  }

  /** What the queue says is done is what the beats say. */
  lemma QueueTells(bursts: seq<Burst>, queue: seq<WriteState>, done: nat, into: nat, beats: nat, ids: seq<nat>)
    requires Queued(bursts, queue, done, into, beats, ids)
    ensures ids == DoneAfter(bursts, beats)
  {
    if done > 0 {
      DoneExactly(bursts, beats, done - 1);
      assert bursts[..done - 1 + 1] == bursts[..done];
    }
    if queue != [] {
      DoneExactly(bursts, beats, done);
      TotalAppend(bursts[..done], bursts[done]);
      assert bursts[..done] + [bursts[done]] == bursts[..done + 1];
    }
    assert |DoneAfter(bursts, beats)| == done;
    forall k | 0 <= k < done
      ensures ids[k] == DoneAfter(bursts, beats)[k]
    {
      DoneExactly(bursts, beats, k);
    }
  }

  lemma AddressQueued(bursts: seq<Burst>, queue: seq<WriteState>, done: nat, into: nat, beats: nat, ids: seq<nat>,
      b: Burst)
    requires Queued(bursts, queue, done, into, beats, ids)
    ensures Queued(bursts + [b], queue + [WriteState(b.awaddr, b.awlen / 8, b.awid)], done, into, beats, ids)
  {
    assert (bursts + [b])[..done] == bursts[..done];
  }

  lemma BeatCounted(bursts: seq<Burst>, queue: seq<WriteState>, done: nat, into: nat, beats: nat, ids: seq<nat>)
    requires Queued(bursts, queue, done, into, beats, ids) && queue != []
    ensures var count := (queue[0].wdataCount - 1) % 0x1_0000;
            if count == 0 then Queued(bursts, queue[1..], done + 1, 0, beats + 1, ids + [queue[0].wid])
            else Queued(bursts, [queue[0].(wdataCount := count)] + queue[1..], done, into + 1, beats + 1, ids)
  {
    hide TotalBeats, Left, Beats;
    var b := bursts[done];
    assert b in bursts;
    LeftNext(b, into);
    TotalAppend(bursts[..done], b);
    assert bursts[..done] + [b] == bursts[..done + 1];
    if queue[1..] != [] {
      Started(bursts[done + 1]);
    }
  }

  lemma Started(b: Burst)
    ensures Beats(b) > 0
  {
  }

  // ---- Read bursts ------------------------------------------------------------------------------------------

  /** The beats of a read, the last one marked. */
  function ReadBeats(count: nat, arid: nat, values: nat -> nat): (beats: seq<Rdata>)
    ensures |beats| == count
  {
    seq(count, i requires 0 <= i < count => Rdata(values(i), arid, i == count - 1))
  }

  /** What the host's input answers: a command for the console's device with the character typed, if there is one. */
  function FromhostValue(input: Option<nat>): (v: nat)
    ensures input.None? ==> v == 0
    ensures input.Some? && input.value < 0x100 ==>
              v / 0x100_0000_0000_0000 == 1 && v % 0x100_0000_0000_0000 == input.value
  {
    match input
    case Some(ch) => 0x100_0000_0000_0000 + ch
    case None => 0
  }

  datatype Event =
    | Awaddr(awaddr: nat, awlen: Half, awid: nat)
    | WriteBeat
    | Araddr(arlen: Half, arid: nat, values: nat -> nat)
    | Fromhost(arid: nat, input: Option<nat>)

  function ReadAnswer(e: Event): seq<Rdata> {
    match e
    case Araddr(arlen, arid, values) => ReadBeats(arlen / 8, arid, values)
    case Fromhost(arid, input) => ReadBeats(1, arid, _ => FromhostValue(input))
    case _ => []
  }

  function ReadAnswers(events: seq<Event>): seq<Rdata> {
    if events == [] then [] else ReadAnswers(events[..|events| - 1]) + ReadAnswer(events[|events| - 1])
  }

  /** The answers one by one, without those of no beats at all. */
  function AnswerList(events: seq<Event>): seq<seq<Rdata>> {
    if events == [] then []
    else
      var answer := ReadAnswer(events[|events| - 1]);
      AnswerList(events[..|events| - 1]) + if answer == [] then [] else [answer]
  }

  /** A receiver's view: the beats up to each marked one, and those after the last. */
  function Cut(beats: seq<Rdata>): (seq<seq<Rdata>>, seq<Rdata>) {
    if beats == [] then ([], [])
    else
      var (answers, rest) := Cut(beats[..|beats| - 1]);
      var more := rest + [beats[|beats| - 1]];
      if beats[|beats| - 1].last then (answers + [more], []) else (answers, more)
  }

  lemma CutNext(beats: seq<Rdata>, b: Rdata)
    ensures var (answers, rest) := Cut(beats);
            Cut(beats + [b]) == if b.last then (answers + [rest + [b]], []) else (answers, rest + [b])
  {
    assert (beats + [b])[..|beats|] == beats;
  }

  lemma {:induction false} CutPart(beats: seq<Rdata>, answer: seq<Rdata>, k: nat)
    requires Cut(beats).1 == [] && k < |answer| && forall i :: 0 <= i < k ==> !answer[i].last
    ensures Cut(beats + answer[..k]) == (Cut(beats).0, answer[..k])
    decreases k
  {
    if k == 0 {
      assert beats + answer[..0] == beats;
    } else {
      CutPart(beats, answer, k - 1);
      CutNext(beats + answer[..k - 1], answer[k - 1]);
      assert answer[..k] == answer[..k - 1] + [answer[k - 1]];
      assert beats + answer[..k] == beats + answer[..k - 1] + [answer[k - 1]];
    }
  }

  /** The marks tell the answers apart: a receiver gets back each one, in the order of the addresses. */
  lemma {:induction false} ReadsTold(events: seq<Event>)
    ensures Cut(ReadAnswers(events)) == (AnswerList(events), [])
    decreases |events|
  {
    if events != [] {
      var n := |events| - 1;
      ReadsTold(events[..n]);
      var beats, answer := ReadAnswers(events[..n]), ReadAnswer(events[n]);
      if answer == [] {
        assert beats + answer == beats && AnswerList(events[..n]) + [] == AnswerList(events[..n]);
      } else {
        AnswerMarked(events[n]);
        CutAnswer(beats, answer);
      }
    }
  }

  lemma CutAnswer(beats: seq<Rdata>, answer: seq<Rdata>)
    requires Cut(beats).1 == [] && answer != [] && forall i :: 0 <= i < |answer| ==>
             (answer[i].last <==> i == |answer| - 1)
    ensures Cut(beats + answer) == (Cut(beats).0 + [answer], [])
  {
    var k: nat := |answer| - 1;
    CutPart(beats, answer, k);
    CutNext(beats + answer[..k], answer[k]);
    assert answer[..k] + [answer[k]] == answer;
    assert beats + answer[..k] + [answer[k]] == beats + answer;
  }

  /** A read is answered by its length in beats of its own id, only the last of them marked; the host's input by one
      beat, whatever the length. */
  lemma AnswerMarked(e: Event)
    ensures forall i :: 0 <= i < |ReadAnswer(e)| ==> (ReadAnswer(e)[i].last <==> i == |ReadAnswer(e)| - 1)
    ensures e.Araddr? ==> |ReadAnswer(e)| == e.arlen / 8
    ensures e.Fromhost? ==> |ReadAnswer(e)| == 1
    ensures e.Araddr? || e.Fromhost? ==> forall b | b in ReadAnswer(e) :: b.rid == e.arid
  {
  }

  // ---- Runs -------------------------------------------------------------------------------------------------

  /** The write addresses, and the number of beats of write data, among some events. */
  function Addresses(events: seq<Event>): seq<Burst> {
    if events == [] then []
    else
      var e := events[|events| - 1];
      Addresses(events[..|events| - 1]) + if e.Awaddr? then [Burst(e.awaddr, e.awlen, e.awid)] else []
  }

  function WriteBeats(events: seq<Event>): nat {
    if events == [] then 0
    else WriteBeats(events[..|events| - 1]) + if events[|events| - 1].WriteBeat? then 1 else 0
  }

  /** After `bursts` and `beats`, no beat of write data comes before its address. */
  ghost predicate InOrder(bursts: seq<Burst>, beats: nat, events: seq<Event>) {
    forall k | 0 <= k < |events| && events[k].WriteBeat? ::
      beats + WriteBeats(events[..k]) < TotalBeats(bursts + Addresses(events[..k]))
  }

  lemma QueueNotEmpty(bursts: seq<Burst>, queue: seq<WriteState>, done: nat, into: nat, beats: nat, ids: seq<nat>)
    requires Queued(bursts, queue, done, into, beats, ids) && beats < TotalBeats(bursts)
    ensures queue != []
  {
    assert bursts[..|bursts|] == bursts;
  }

  lemma OneMoreEvent(events: seq<Event>, k: nat)
    requires k < |events|
    ensures var e := events[k];
            && Addresses(events[..k + 1])
                == Addresses(events[..k]) + (if e.Awaddr? then [Burst(e.awaddr, e.awlen, e.awid)] else [])
            && WriteBeats(events[..k + 1]) == WriteBeats(events[..k]) + (if e.WriteBeat? then 1 else 0)
            && ReadAnswers(events[..k + 1]) == ReadAnswers(events[..k]) + ReadAnswer(e)
  {
    assert events[..k + 1][..k] == events[..k];
  }

  class AWSP2 {
    var ioWriteQueue: seq<WriteState>
    var bdone: seq<nat>              // the ids of the answers sent
    var rdata: seq<Rdata>            // the beats sent
    ghost var bursts: seq<Burst>     // the write addresses received
    ghost var beats: nat             // the beats of write data received
    ghost var into: nat

    ghost predicate Valid()
      reads this
    {
      && Queued(bursts, ioWriteQueue, |bdone|, into, beats, bdone)
    }

    constructor ()
      ensures Valid() && bursts == [] && beats == 0 && bdone == [] && rdata == []
    {
      ioWriteQueue, bdone, rdata, bursts, beats, into := [], [], [], [], 0, 0;
    }

    /** A write address arrives. */
    method IoAwaddr(awaddr: nat, awlen: Half, awid: nat)
      requires Valid()
      modifies this`ioWriteQueue, this`bursts
      ensures bursts == old(bursts) + [Burst(awaddr, awlen, awid)]
      ensures Valid()
    {
      hide Queued;
      AddressQueued(bursts, ioWriteQueue, |bdone|, into, beats, bdone, Burst(awaddr, awlen, awid));
      ioWriteQueue := ioWriteQueue + [WriteState(awaddr, awlen / 8, awid)];
      bursts := bursts + [Burst(awaddr, awlen, awid)];
    }

    /** A beat of write data arrives; it belongs to the burst at the front of the queue. */
    method IoWdata()
      requires ioWriteQueue != []
      requires Valid()
      modifies this`ioWriteQueue, this`bdone, this`beats, this`into
      ensures beats == old(beats) + 1
      ensures bdone == DoneAfter(bursts, beats)
      ensures Valid()
    {
      hide Queued;
      BeatCounted(bursts, ioWriteQueue, |bdone|, into, beats, bdone);
      var ioWrite := ioWriteQueue[0];
      var count := (ioWrite.wdataCount - 1) % 0x1_0000;
      beats := beats + 1;
      if count == 0 {
        bdone := bdone + [ioWrite.wid];
        ioWriteQueue := ioWriteQueue[1..];
        into := 0;
      } else {
        ioWriteQueue := [ioWrite.(wdataCount := count)] + ioWriteQueue[1..];
        into := into + 1;
      }
      QueueTells(bursts, ioWriteQueue, |bdone|, into, beats, bdone);
    }

    /** A read address arrives, for anything but the host's own input: its beats, the last one marked. `values` are what
        the device, the ROM, or nothing at all answers. */
    method IoAraddr(arlen: Half, arid: nat, values: nat -> nat)
      modifies this`rdata
      ensures rdata == old(rdata) + ReadBeats(arlen / 8, arid, values)
    {
      ghost var beats := ReadBeats(arlen / 8, arid, values);
      for i := 0 to arlen / 8
        invariant rdata == old(rdata) + beats[..i]
      {
        var last := i == arlen / 8 - 1;
        rdata := rdata + [Rdata(values(i), arid, last)];
      }
      assert beats[..arlen / 8] == beats;
    }

    /** A read of the host's input. */
    method IoAraddrFromhost(arid: nat, input: Option<nat>)
      modifies this`rdata
      ensures rdata == old(rdata) + ReadAnswer(Fromhost(arid, input))
    {
      rdata := rdata + [Rdata(FromhostValue(input), arid, true)];
    }

    /** Any run in which write data follows its address: each write burst is answered as its beats say, and the beats
        sent for the reads are their answers in order. */
    method Run(events: seq<Event>)
      requires InOrder(bursts, beats, events)
      requires Valid()
      modifies this
      ensures bursts == old(bursts) + Addresses(events) && beats == old(beats) + WriteBeats(events)
      ensures bdone == DoneAfter(old(bursts) + Addresses(events), old(beats) + WriteBeats(events))
      ensures rdata == old(rdata) + ReadAnswers(events)
      ensures Valid()
    {
      hide Queued, Addresses, WriteBeats, ReadAnswers, ReadAnswer, TotalBeats;
      NoEvents(events);
      for k := 0 to |events|
        invariant bursts == old(bursts) + Addresses(events[..k]) && beats == old(beats) + WriteBeats(events[..k])
        invariant rdata == old(rdata) + ReadAnswers(events[..k])
        invariant Valid()
      {
        OneMoreEvent(events, k);
        Handle(events[k]);
      }
      assert events[..|events|] == events;
      QueueTells(bursts, ioWriteQueue, |bdone|, into, beats, bdone);
    }

    method Handle(e: Event)
      requires e.WriteBeat? ==> beats < TotalBeats(bursts)
      requires Valid()
      modifies this
      ensures bursts == old(bursts) + if e.Awaddr? then [Burst(e.awaddr, e.awlen, e.awid)] else []
      ensures beats == old(beats) + if e.WriteBeat? then 1 else 0
      ensures rdata == old(rdata) + ReadAnswer(e)
      ensures Valid()
    {
      hide Queued, TotalBeats, ReadBeats;
      match e {
        case Awaddr(awaddr, awlen, awid) =>
          IoAwaddr(awaddr, awlen, awid);
        case WriteBeat =>
          QueueNotEmpty(bursts, ioWriteQueue, |bdone|, into, beats, bdone);
          IoWdata();
        case Araddr(arlen, arid, values) =>
          IoAraddr(arlen, arid, values);
        case Fromhost(arid, input) =>
          IoAraddrFromhost(arid, input);
      }
    }
  }

  lemma NoEvents(events: seq<Event>)
    ensures Addresses(events[..0]) == [] && WriteBeats(events[..0]) == 0 && ReadAnswers(events[..0]) == []
  {
  }
}
