/** PCI interrupts: from device pins over four bus lines to the lines of the interrupt controller. */
module PciIrq {
  /** A machine word, as the set of its one bits. */
  type Bits = set<nat>

  /** A pin of a device, the devices being numbered by slot and function. */
  datatype Pin = Pin(devfn: nat, num: nat)

  predicate IsPin(p: Pin) {
    p.devfn < 256 && p.num < 4
  }

  /** The bus line of a pin: pins rotate from slot to slot. */
  function BusMapIrq(devfn: nat, irqNum: nat): (line: nat)
    ensures line < 4
  {
    (irqNum + (devfn / 8 - 1)) % 4
  }

  /** The pins of slot 1 are the lines of the same number, and from each slot to the next every pin moves on by one
      line. */
  lemma NextSlot(devfn: nat, pin: nat)
    requires pin < 4
    ensures devfn / 8 == 1 ==> BusMapIrq(devfn, pin) == pin
    ensures BusMapIrq(devfn + 8, pin) == (BusMapIrq(devfn, pin) + 1) % 4
    ensures forall e: nat | e / 8 == devfn / 8 :: BusMapIrq(e, pin) == BusMapIrq(devfn, pin)
  {
    assert (devfn + 8) / 8 == devfn / 8 + 1;
  }

  /** Per device the rotation is a permutation of the lines. */
  lemma Rotation(devfn: nat, a: nat, b: nat)
    requires a < 4 && b < 4 && BusMapIrq(devfn, a) == BusMapIrq(devfn, b)
    ensures a == b
  {
    var k := devfn / 8 - 1;
    assert (a + k) % 4 == (b + k) % 4;
  }

  lemma EveryLine(devfn: nat, line: nat) returns (a: nat)
    requires line < 4
    ensures a < 4 && BusMapIrq(devfn, a) == line
  {
    a := (line - (devfn / 8 - 1)) % 4;
  }

  /** The word and bit of a device, in the state of a line. */
  function WordOf(devfn: nat): nat {
    devfn / 32
  }

  function BitOf(devfn: nat): nat {
    devfn % 32
  }

  lemma OwnBit(d: nat, e: nat)
    requires WordOf(d) == WordOf(e) && BitOf(d) == BitOf(e)
    ensures d == e
  {
    assert d == d / 32 * 32 + d % 32;
    assert e == e / 32 * 32 + e % 32;
  }

  /** The controller line a routing register names, or none from 16 on. */
  function Route(routing: seq<nat>, line: nat): nat
    requires |routing| == 4 && line < 4
  {
    routing[line] % 0x80
  }

  // ---- What the state means ---------------------------------------------------------------------------------

  predicate Table(irqState: seq<seq<Bits>>) {
    |irqState| == 4 && forall l :: 0 <= l < 4 ==> |irqState[l]| == 8
  }

  function BitsAt(irqState: seq<seq<Bits>>, l: nat, w: nat): Bits {
    if l < |irqState| && w < |irqState[l]| then irqState[l][w] else {}
  }

  /** The bit of a device on a line is the level of the one pin it has there. */
  ghost predicate BitsOk(irqState: seq<seq<Bits>>, asserted: set<Pin>) {
    && (forall d: nat, a: nat :: d < 256 && a < 4 ==>
          (BitOf(d) in BitsAt(irqState, BusMapIrq(d, a), WordOf(d)) <==> Pin(d, a) in asserted))
    && (forall l: nat, w: nat, b :: b in BitsAt(irqState, l, w) ==> w < 8 && b < 32)
  }

  predicate AnySet(irqState: seq<seq<Bits>>, l: nat, n: nat) {
    exists w: nat :: w < n && BitsAt(irqState, l, w) != {}
  }

  ghost predicate LinesOk(irqState: seq<seq<Bits>>, irqLevel: seq<bool>) {
    |irqLevel| == 4 && forall l: nat :: l < 4 ==> (irqLevel[l] <==> AnySet(irqState, l, 8))
  }

  /** The lines that reach controller line `q`. */
  ghost predicate Feeds(routing: seq<nat>, irqLevel: seq<bool>, l: nat, q: nat) {
    |routing| == 4 == |irqLevel| && l < 4 && Route(routing, l) == q && irqLevel[l]
  }

  ghost predicate PicOk(routing: seq<nat>, irqLevel: seq<bool>, picIrqState: seq<Bits>, picLevel: seq<bool>) {
    && |routing| == 4 == |irqLevel| && |picIrqState| == 16 == |picLevel|
    && (forall q: nat, l :: q < 16 ==> (l in picIrqState[q] <==> Feeds(routing, irqLevel, l, q)))
    && (forall q: nat :: q < 16 ==> (picLevel[q] <==> picIrqState[q] != {}))
  }

  /** Some asserted pin is routed to controller line `q`. */
  ghost predicate Reached(routing: seq<nat>, asserted: set<Pin>, q: nat)
    requires |routing| == 4
  {
    exists p :: p in asserted && Route(routing, BusMapIrq(p.devfn, p.num)) == q
  }

  /** A controller line is high exactly if an asserted pin is routed to it. */
  lemma LineLevel(irqState: seq<seq<Bits>>, irqLevel: seq<bool>, routing: seq<nat>, picIrqState: seq<Bits>,
                  picLevel: seq<bool>, asserted: set<Pin>, q: nat)
    requires BitsOk(irqState, asserted) && LinesOk(irqState, irqLevel)
             && PicOk(routing, irqLevel, picIrqState, picLevel)
    requires (forall p :: p in asserted ==> IsPin(p)) && q < 16
    ensures picLevel[q] <==> Reached(routing, asserted, q)
  {
    if picLevel[q] {
      var l :| l in picIrqState[q];
      assert Feeds(routing, irqLevel, l, q);
      var w: nat :| w < 8 && BitsAt(irqState, l, w) != {};
      var b :| b in BitsAt(irqState, l, w);
      var d := w * 32 + b;
      assert WordOf(d) == w && BitOf(d) == b;
      var a := EveryLine(d, l);
      assert Pin(d, a) in asserted;
    }
    if Reached(routing, asserted, q) {
      var p :| p in asserted && Route(routing, BusMapIrq(p.devfn, p.num)) == q;
      var l := BusMapIrq(p.devfn, p.num);
      assert BitOf(p.devfn) in BitsAt(irqState, l, WordOf(p.devfn));
      assert AnySet(irqState, l, 8);
      assert Feeds(routing, irqLevel, l, q);
    }
  }

  // ---- One pin changes --------------------------------------------------------------------------------------

  function WithPin(asserted: set<Pin>, p: Pin, level: bool): set<Pin> {
    if level then asserted + {p} else asserted - {p}
  }

  /** The pins driven high after some changes; what is not a pin is ignored. */
  function Driven(asserted: set<Pin>, changes: seq<(Pin, bool)>): set<Pin> {
    if changes == [] then asserted
    else
      var (p, level) := changes[|changes| - 1];
      var before := Driven(asserted, changes[..|changes| - 1]);
      if IsPin(p) then WithPin(before, p, level) else before
  }

  /** A pin is high if its last change, the `k`th, was to high, and if it has not changed, if it was high before. */
  lemma {:induction false} LastChange(asserted: set<Pin>, changes: seq<(Pin, bool)>, p: Pin, k: nat)
    requires IsPin(p) && k <= |changes| && (k < |changes| ==> changes[k].0 == p)
    requires forall i :: k < i < |changes| ==> changes[i].0 != p
    requires k == |changes| ==> forall i :: 0 <= i < k ==> changes[i].0 != p
    ensures p in Driven(asserted, changes) <==> if k < |changes| then changes[k].1 else p in asserted
    decreases |changes|
  {
    var n := |changes|;
    if n > 0 && k != n - 1 {
      LastChange(asserted, changes[..n - 1], p, if k < n then k else n - 1);
    }
  }

  function WithBit(word: Bits, b: nat, level: bool): Bits {
    if level then word + {b} else word - {b}
  }

  function Updated(irqState: seq<seq<Bits>>, l: nat, w: nat, word: Bits): seq<seq<Bits>>
    requires Table(irqState) && l < 4 && w < 8
  {
    irqState[l := irqState[l][w := word]]
  }

  lemma UpdatedAt(irqState: seq<seq<Bits>>, l: nat, w: nat, word: Bits)
    requires Table(irqState) && l < 4 && w < 8
    ensures Table(Updated(irqState, l, w, word))
    ensures forall m: nat, v: nat ::
              BitsAt(Updated(irqState, l, w, word), m, v) == if m == l && v == w then word else BitsAt(irqState, m, v)
  {
  }

  lemma BitChanged(irqState: seq<seq<Bits>>, asserted: set<Pin>, devfn: nat, pin: nat, level: bool)
    requires Table(irqState) && BitsOk(irqState, asserted) && devfn < 256 && pin < 4
    ensures var l, w := BusMapIrq(devfn, pin), WordOf(devfn);
            BitsOk(Updated(irqState, l, w, WithBit(irqState[l][w], BitOf(devfn), level)),
                WithPin(asserted, Pin(devfn, pin), level))
  {
    hide BusMapIrq, WordOf, BitOf;
    assert WordOf(devfn) < 8 && BitOf(devfn) < 32 by { Narrow(devfn); }
    var l, w := BusMapIrq(devfn, pin), WordOf(devfn);
    var s := Updated(irqState, l, w, WithBit(irqState[l][w], BitOf(devfn), level));
    UpdatedAt(irqState, l, w, WithBit(irqState[l][w], BitOf(devfn), level));
    forall d: nat, a: nat | d < 256 && a < 4
      ensures BitOf(d) in BitsAt(s, BusMapIrq(d, a), WordOf(d)) <==>
              Pin(d, a) in WithPin(asserted, Pin(devfn, pin), level)
    {
      if BusMapIrq(d, a) == l && WordOf(d) == w && BitOf(d) == BitOf(devfn) {
        OwnBit(d, devfn);
        Rotation(d, a, pin);
      }
    }
  }

  lemma Narrow(devfn: nat)
    requires devfn < 256
    ensures WordOf(devfn) < 8 && BitOf(devfn) < 32
  {
  }

  /** Driving a line changes what it feeds, and the level of the controller line it is routed to. */
  lemma LineDriven(routing: seq<nat>, irqLevel: seq<bool>, picIrqState: seq<Bits>, picLevel: seq<bool>, l: nat,
      level: bool)
    requires PicOk(routing, irqLevel, picIrqState, picLevel) && l < 4
    ensures var routing', q := routing[l := routing[l] % 0x80], routing[l] % 0x80;
            && (forall m: nat :: m < 4 ==> Route(routing', m) == Route(routing, m))
            && var bits := if q < 16 then WithBit(picIrqState[q], l, level) else {};
               PicOk(routing', irqLevel[l := level], if q < 16 then picIrqState[q := bits] else picIrqState,
                     if q < 16 then picLevel[q := bits != {}] else picLevel)
  {
    var routing', q := routing[l := routing[l] % 0x80], routing[l] % 0x80;
    forall m: nat | m < 4
      ensures Route(routing', m) == Route(routing, m)
    {
    }
    hide Route;
    forall m: nat, p: nat | p < 16 && m != l
      ensures Feeds(routing', irqLevel[l := level], m, p) == Feeds(routing, irqLevel, m, p)
    {
    }
    assert Route(routing, l) == q by { RouteIs(routing, l); }
    forall p: nat | p < 16
      ensures Feeds(routing', irqLevel[l := level], l, p) == (p == q && level)
      ensures p != q ==> !Feeds(routing, irqLevel, l, p)
    {
    }
  }

  lemma RouteIs(routing: seq<nat>, l: nat)
    requires |routing| == 4 && l < 4
    ensures Route(routing, l) == routing[l] % 0x80
  {
  }

  class I440FXState {
    var irqState: seq<seq<Bits>>    // per bus line, one bit per device
    var irqLevel: seq<bool>         // the bus lines
    var routing: seq<nat>           // configuration bytes 0x60 to 0x63
    var picIrqState: seq<Bits>      // per controller line, one bit per bus line
    var picLevel: seq<bool>         // the controller lines
    ghost var asserted: set<Pin>    // the pins driven high

    ghost predicate Valid()
      reads this
    {
      && Table(irqState) && BitsOk(irqState, asserted) && LinesOk(irqState, irqLevel)
      && PicOk(routing, irqLevel, picIrqState, picLevel) && forall p :: p in asserted ==> IsPin(p)
    }

    constructor (routing: seq<nat>)
      requires |routing| == 4
      ensures Valid() && asserted == {} && this.routing == routing
    {
      irqState := seq(4, _ => seq(8, _ => {}));
      irqLevel := seq(4, _ => false);
      this.routing := routing;
      picIrqState := seq(16, _ => {});
      picLevel := seq(16, _ => false);
      asserted := {};
    }

    /** A device drives one of its pins. */
    method PciDeviceSetIrq(devfn: nat, pin: nat, level: bool)
      requires devfn < 256 && pin < 4
      requires Valid()
      modifies this
      ensures asserted == WithPin(old(asserted), Pin(devfn, pin), level)
      ensures |routing| == 4 == |old(routing)| && forall l: nat :: l < 4 ==> Route(routing, l) == Route(old(routing), l)
      ensures Valid()
    {
      hide BitsOk, PicOk, BusMapIrq, WordOf, BitOf;
      Narrow(devfn);
      PicShape(routing, irqLevel, picIrqState, picLevel);
      var irqNum := BusMapIrq(devfn, pin);
      BitChanged(irqState, asserted, devfn, pin, level);
      var word := WithBit(irqState[irqNum][WordOf(devfn)], BitOf(devfn), level);
      UpdatedAt(irqState, irqNum, WordOf(devfn), word);
      LinesElsewhere(irqState, irqLevel, irqNum, WordOf(devfn), word);
      irqState := irqState[irqNum := irqState[irqNum][WordOf(devfn) := word]];
      asserted := WithPin(asserted, Pin(devfn, pin), level);
      var mask := AnyDevice(irqNum);
      I440fxSetIrq(irqNum, mask);
    }

    /** Does any device assert the line? */
    method AnyDevice(irqNum: nat) returns (any: bool)
      requires irqNum < 4 && Table(irqState)
      ensures any <==> AnySet(irqState, irqNum, 8)
    {
      var mask: Bits := {};
      for i := 0 to 8
        invariant mask != {} <==> AnySet(irqState, irqNum, i)
      {
        AnyNext(irqState, irqNum, i);
        mask := mask + irqState[irqNum][i];
      }
      any := mask != {};
    }

    /** Drive a line: the controller line it is routed to follows, and no route changes. */
    method I440fxSetIrq(irqNum: nat, level: bool)
      requires irqNum < 4 && PicOk(routing, irqLevel, picIrqState, picLevel)
      modifies this`routing, this`irqLevel, this`picIrqState, this`picLevel
      ensures PicOk(routing, irqLevel, picIrqState, picLevel)
      ensures |irqLevel| == 4 && |old(irqLevel)| == 4 && irqLevel == old(irqLevel)[irqNum := level]
      ensures |routing| == 4 == |old(routing)| && forall l: nat :: l < 4 ==> Route(routing, l) == Route(old(routing), l)
      ensures routing == old(routing)[irqNum := old(routing)[irqNum] % 0x80]
    {
      hide PicOk, Route;
      PicShape(routing, irqLevel, picIrqState, picLevel);
      LineDriven(routing, irqLevel, picIrqState, picLevel, irqNum, level);
      irqLevel := irqLevel[irqNum := level];
      routing := routing[irqNum := routing[irqNum] % 0x80];
      var picIrq := routing[irqNum];
      if picIrq < 16 {
        picIrqState := picIrqState[picIrq := WithBit(picIrqState[picIrq], irqNum, level)];
        picLevel := picLevel[picIrq := picIrqState[picIrq] != {}];
      }
    }

    /** Any run of pin changes: a controller line is high exactly if an asserted pin is routed to it. */
    method Run(changes: seq<(Pin, bool)>)
      requires Valid()
      modifies this
      ensures Valid() && |routing| == 4 == |old(routing)| && |picLevel| == 16
      ensures asserted == Driven(old(asserted), changes)
      ensures forall q: nat :: q < 16 ==> (picLevel[q] <==> Reached(old(routing), Driven(old(asserted), changes), q))
    {
      hide BitsOk, PicOk, LinesOk, Route, BusMapIrq;
      PicShape(routing, irqLevel, picIrqState, picLevel);
      for k := 0 to |changes|
        invariant asserted == Driven(old(asserted), changes[..k])
        invariant Valid() && |routing| == 4 && forall l: nat :: l < 4 ==> Route(routing, l) == Route(old(routing), l)
      {
        var (p, level) := changes[k];
        assert changes[..k + 1][..k] == changes[..k];
        if p.devfn < 256 && p.num < 4 {
          PciDeviceSetIrq(p.devfn, p.num, level);
        }
      }
      assert changes[..|changes|] == changes;
      PicShape(routing, irqLevel, picIrqState, picLevel);
      forall q: nat | q < 16
        ensures picLevel[q] <==> Reached(old(routing), asserted, q)
      {
        LineLevel(irqState, irqLevel, routing, picIrqState, picLevel, asserted, q);
        SameRoutes(old(routing), routing, asserted, q);
      }
    }
  }

  lemma PicShape(routing: seq<nat>, irqLevel: seq<bool>, picIrqState: seq<Bits>, picLevel: seq<bool>)
    requires PicOk(routing, irqLevel, picIrqState, picLevel)
    ensures |routing| == 4 == |irqLevel| && |picIrqState| == 16 == |picLevel|
  {
  }

  lemma AnyNext(irqState: seq<seq<Bits>>, l: nat, i: nat)
    requires Table(irqState) && l < 4 && i < 8
    ensures AnySet(irqState, l, i + 1) <==> AnySet(irqState, l, i) || irqState[l][i] != {}
  {
    if irqState[l][i] != {} {
      assert BitsAt(irqState, l, i) != {};
    }
  }

  /** Only the line changed need be driven. */
  lemma LinesElsewhere(irqState: seq<seq<Bits>>, irqLevel: seq<bool>, l: nat, w: nat, word: Bits)
    requires Table(irqState) && l < 4 && w < 8 && LinesOk(irqState, irqLevel)
    ensures var s := Updated(irqState, l, w, word); LinesOk(s, irqLevel[l := AnySet(s, l, 8)])
  {
    var s := Updated(irqState, l, w, word);
    UpdatedAt(irqState, l, w, word);
    forall m: nat | m < 4 && m != l
      ensures AnySet(s, m, 8) == AnySet(irqState, m, 8)
    {
      if AnySet(irqState, m, 8) {
        var v: nat :| v < 8 && BitsAt(irqState, m, v) != {};
        assert BitsAt(s, m, v) != {};
      }
      if AnySet(s, m, 8) {
        var v: nat :| v < 8 && BitsAt(s, m, v) != {};
        assert BitsAt(irqState, m, v) != {};
      }
    }
  }

  lemma SameRoutes(a: seq<nat>, b: seq<nat>, asserted: set<Pin>, q: nat)
    requires |a| == 4 == |b| && forall l: nat :: l < 4 ==> Route(b, l) == Route(a, l)
    ensures Reached(a, asserted, q) == Reached(b, asserted, q)
  {
    hide Route;
  }
}
