/** Method calls from packing on one side of the channel to the handler on the other. */
module Messages {
  import opened Wrappers
  import Packers
  import Xsim

  /** The calls of the two interfaces whose arguments are modelled. */
  datatype Message =
    | DdrWrite(ddrWrite: Packers.DdrWrite)
    | IoRdata(rdata: Packers.Rdata)
    | IoBdone(bdone: Packers.Bdone)
    | IoAwaddr(awaddr: Packers.Burst)
    | IoAraddr(araddr: Packers.Burst)
    | IoWdata(wdata: Packers.Wdata)

  datatype Interface = AWSP2_REQUEST | AWSP2_RESPONSE

  function InterfaceOf(m: Message): Interface {
    if m.DdrWrite? || m.IoRdata? || m.IoBdone? then AWSP2_REQUEST else AWSP2_RESPONSE
  }

  /** A call's number within its interface. */
  function MethodId(m: Message): nat {
    match m
    case DdrWrite(_) => 6
    case IoRdata(_) => 11
    case IoBdone(_) => 12
    case IoAwaddr(_) => 3
    case IoAraddr(_) => 4
    case IoWdata(_) => 5
  }

  predicate ArgumentsOk(m: Message) {
    match m
    case DdrWrite(a) => Packers.DdrWriteOk(a)
    case IoRdata(a) => Packers.RdataOk(a)
    case IoBdone(a) => Packers.BdoneOk(a)
    case IoAwaddr(a) => Packers.BurstOk(a)
    case IoAraddr(a) => Packers.BurstOk(a)
    case IoWdata(a) => Packers.WdataOk(a)
  }

  function Pack(m: Message): (w: seq<Word32>)
    requires ArgumentsOk(m)
    ensures |w| <= 19
  {
    match m
    case DdrWrite(a) => Packers.PackDdrWrite(a)
    case IoRdata(a) => Packers.PackRdata(a)
    case IoBdone(a) => Packers.PackBdone(a)
    case IoAwaddr(a) => Packers.PackBurst(a)
    case IoAraddr(a) => Packers.PackBurst(a)
    case IoWdata(a) => Packers.PackWdata(a)
  }

  /** What a handler makes of a call: its method's arguments, unpacked from the words after the header. */
  function HandleMessage(i: Interface, call: (nat, seq<Word32>)): Option<Message>
    requires call.1 != []
  {
    var (id, w) := (call.0, call.1[1..]);
    match i
    case AWSP2_REQUEST =>
      if id == 6 && |w| == 19 then Some(DdrWrite(Packers.UnpackDdrWrite(w)))
      else if id == 11 && |w| == 3 then Some(IoRdata(Packers.UnpackRdata(w)))
      else if id == 12 && |w| == 1 then Some(IoBdone(Packers.UnpackBdone(w)))
      else None
    case AWSP2_RESPONSE =>
      if id == 3 && |w| == 2 then Some(IoAwaddr(Packers.UnpackBurst(w)))
      else if id == 4 && |w| == 2 then Some(IoAraddr(Packers.UnpackBurst(w)))
      else if id == 5 && |w| == 3 then Some(IoWdata(Packers.UnpackWdata(w)))
      else None
  }

  /** A call as it goes over the channel. */
  function Wire(m: Message): (w: seq<Word32>)
    requires ArgumentsOk(m)
    ensures Xsim.WellFormed(w) && Xsim.MethodOf(w[0]) == MethodId(m) && w[1..] == Pack(m)
  {
    Xsim.Framed(MethodId(m), Pack(m))
  }

  lemma WireRead(m: Message)
    requires ArgumentsOk(m)
    ensures HandleMessage(InterfaceOf(m), (MethodId(m), Wire(m))) == Some(m)
  {
    hide Packers.PackDdrWrite, Packers.UnpackDdrWrite, Packers.PackRdata, Packers.UnpackRdata, Packers.PackBdone;
    hide Packers.UnpackBdone, Packers.PackBurst, Packers.UnpackBurst, Packers.PackWdata, Packers.UnpackWdata;
    PackedLength(m);
    match m {
      case DdrWrite(a) => Packers.DdrWriteRoundTrip(a);
      case IoRdata(a) => Packers.RdataRoundTrip(a);
      case IoBdone(a) => Packers.BdoneRoundTrip(a);
      case IoAwaddr(a) => Packers.BurstRoundTrip(a);
      case IoAraddr(a) => Packers.BurstRoundTrip(a);
      case IoWdata(a) => Packers.WdataRoundTrip(a);
    }
  }

  lemma PackedLength(m: Message)
    requires ArgumentsOk(m)
    ensures |Pack(m)| == match m
                         case DdrWrite(_) => 19
                         case IoRdata(_) => 3
                         case IoBdone(_) => 1
                         case IoAwaddr(_) => 2
                         case IoAraddr(_) => 2
                         case IoWdata(_) => 3
  {
  }

  function Wires(ms: seq<Message>): (ws: seq<seq<Word32>>)
    requires forall m | m in ms :: ArgumentsOk(m)
    ensures |ws| == |ms| && forall w | w in ws :: Xsim.WellFormed(w)
  {
    seq(|ms|, i requires 0 <= i < |ms| => Wire(ms[i]))
  }

  /** A portal's stream is that of some calls of its interface, which fit its buffer. */
  ghost predicate Sends(ws: seq<Word32>, ms: seq<Message>, i: Interface, room: nat) {
    && (forall m | m in ms :: ArgumentsOk(m) && InterfaceOf(m) == i && |Wire(m)| <= room)
    && ws == Xsim.Joined(Wires(ms))
  }

  ghost predicate Received(calls: seq<(nat, seq<Word32>)>, ms: seq<Message>, i: Interface) {
    |calls| == |ms| && forall k :: 0 <= k < |ms| ==> calls[k].1 != [] && HandleMessage(i, calls[k]) == Some(ms[k])
  }

  lemma CallsRead(calls: seq<(nat, seq<Word32>)>, ws: seq<Word32>, ms: seq<Message>, i: Interface, room: nat)
    requires Sends(ws, ms, i, room) && Xsim.Handled(calls, Xsim.Split(ws).0)
    ensures Received(calls, ms, i)
  {
    hide Xsim.Split, Xsim.Joined, Xsim.MethodOf, Wire, HandleMessage;
    Xsim.SplitJoined(Wires(ms));
    forall k | 0 <= k < |ms|
      ensures calls[k].1 != [] && HandleMessage(i, calls[k]) == Some(ms[k])
    {
      assert ms[k] in ms && Wires(ms)[k] == Wire(ms[k]);
      WireRead(ms[k]);
    }
  }

  lemma CallsFit(ws: seq<Word32>, ms: seq<Message>, i: Interface, room: nat)
    requires Sends(ws, ms, i, room)
    ensures Xsim.Fits(ws, room)
  {
    hide Xsim.Joined, Xsim.Fits, Wire;
    Xsim.WholeMessagesFit(Wires(ms), room);
    forall w | w in Wires(ms)
      ensures |w| <= room
    {
      var k :| 0 <= k < |ms| && Wires(ms)[k] == w;
      assert ms[k] in ms;
    }
  }

  /** However the portals' words interleave, each handler is called once for each call made on its portal, in their
      order, with the arguments given. */
  method Deliver(interfaces: seq<Interface>, clients: seq<bool>, rooms: seq<nat>, events: seq<(nat, Word32)>,
                 sent: seq<seq<Message>>) returns (x: Xsim.XsimPortals)
    requires |interfaces| == |clients| == |rooms| == |sent| == Xsim.NUM_PORTALS
    requires forall e | e in events :: e.0 < Xsim.NUM_PORTALS
    requires forall p: nat :: p < Xsim.NUM_PORTALS && clients[p] ==>
             Sends(Xsim.Project(events, p), sent[p], interfaces[p], rooms[p])
    ensures |x.calls| == Xsim.NUM_PORTALS
    ensures forall p: nat :: p < Xsim.NUM_PORTALS && clients[p] ==> Received(x.calls[p], sent[p], interfaces[p])
  {
    hide Sends, Received, Xsim.Fits, Xsim.Project;
    forall p: nat | p < Xsim.NUM_PORTALS && clients[p]
      ensures Xsim.Fits(Xsim.Project(events, p), rooms[p])
    {
      CallsFit(Xsim.Project(events, p), sent[p], interfaces[p], rooms[p]);
    }
    x := Xsim.Run(clients, rooms, events);
    forall p: nat | p < Xsim.NUM_PORTALS && clients[p]
      ensures Received(x.calls[p], sent[p], interfaces[p])
    {
      CallsRead(x.calls[p], Xsim.Project(events, p), sent[p], interfaces[p], rooms[p]);
    }
  }
}
