/**
 The serial transmitter of Simulation/fpga/uart_tx.v: what appears on the wire over whole runs, and
 that a receiver sampling in the middle of each bit gets back the bytes that were accepted.
 */
module Uart {
  import opened Bytes

  // ----- the circuit

  /** Its parameters; the divisor is the clock rate divided by the baud rate. */
  datatype Config = Config(dataBits: nat, divisor: nat)

  predicate IsConfig(g: Config) {
    g.dataBits > 0 && g.divisor > 0
  }

  /** The number of bits that count to just below d. */
  function Clog2(d: nat): nat {
    if d <= 1 then 0 else 1 + Clog2((d + 1) / 2)
  }

  /** The divider is declared with the bounds [$clog2(DIVISOR)-1:0], which for a divisor of one is
      [-1:0], a register of two bits. */
  function DividerWidth(g: Config): nat {
    if g.divisor == 1 then 2 else Clog2(g.divisor)
  }

  /** What is left of the divisor in the divider. */
  function Load(g: Config): (v: nat)
    ensures v < Pow2(DividerWidth(g))
  {
    g.divisor % Pow2(DividerWidth(g))
  }

  /** The registers. The bits of the shift register come with the lowest first. */
  datatype Regs = Regs(state: nat, divider: nat, shiftReg: seq<bool>)

  function Idle(g: Config): nat { g.dataBits }

  function StartBit(g: Config): nat { g.dataBits + 1 }

  function StopBit(g: Config): nat { g.dataBits + 2 }

  ghost predicate Valid(g: Config, r: Regs) {
    IsConfig(g) && r.state <= StopBit(g) && r.divider < Pow2(DividerWidth(g)) && |r.shiftReg| == g.dataBits
  }

  /** What is at the inputs in one clock. */
  datatype Offer = Offer(data: seq<bool>, valid: bool)

  ghost predicate AreOffers(g: Config, offers: seq<Offer>) {
    forall i :: 0 <= i < |offers| ==> |offers[i].data| == g.dataBits
  }

  predicate DataReady(g: Config, r: Regs) {
    r.state == Idle(g)
  }

  predicate Txd(g: Config, r: Regs)
    requires Valid(g, r)
  {
    if r.state == Idle(g) then true
    else if r.state == StartBit(g) then false
    else if r.state == StopBit(g) then true
    else r.shiftReg[0]
  }

  function Down(g: Config, divider: nat): nat {
    if divider == 0 then Pow2(DividerWidth(g)) - 1 else divider - 1
  }

  /** One rising edge of the clock. */
  function Clock(g: Config, r: Regs, offer: Offer): (r': Regs)
    requires Valid(g, r) && |offer.data| == g.dataBits
    ensures Valid(g, r')
  {
    var down := r.(divider := Down(g, r.divider));
    if r.state == Idle(g) then
      if offer.valid then Regs(StartBit(g), Load(g), offer.data) else down
    else if r.divider != 0 then down
    else if r.state == StartBit(g) then r.(state := g.dataBits - 1, divider := Load(g))
    else if r.state == StopBit(g) then down.(state := Idle(g))
    else if r.state == 0 then r.(state := StopBit(g), divider := Load(g))
    else Regs(r.state - 1, Load(g), r.shiftReg[1..] + [false])
  }

  /** The level of the wire, clock by clock. */
  function Wire(g: Config, r: Regs, offers: seq<Offer>): seq<bool>
    requires Valid(g, r) && AreOffers(g, offers)
    decreases |offers|
  {
    if offers == [] then [] else [Txd(g, r)] + Wire(g, Clock(g, r, offers[0]), offers[1..])
  }

  class Transmitter {
    const g: Config
    var state: nat
    var divider: nat
    var shiftReg: seq<bool>

    ghost function View(): Regs
      reads this
    {
      Regs(state, divider, shiftReg)
    }

    /** The state register is initialised, the others start with anything. */
    constructor (g: Config, divider: nat, shiftReg: seq<bool>)
      requires IsConfig(g) && divider < Pow2(DividerWidth(g)) && |shiftReg| == g.dataBits
      ensures this.g == g && Valid(g, View()) && View() == Regs(Idle(g), divider, shiftReg)
    {
      this.g := g;
      state := Idle(g);
      this.divider := divider;
      this.shiftReg := shiftReg;
    }

    method Posedge(data: seq<bool>, dataValid: bool) returns (dataReady: bool, txd: bool)
      requires Valid(g, View()) && |data| == g.dataBits
      modifies this
      ensures Valid(g, View()) && View() == Clock(g, old(View()), Offer(data, dataValid))
      ensures dataReady == DataReady(g, old(View())) && txd == Txd(g, old(View()))
    {
      dataReady := state == Idle(g);
      txd := if state == Idle(g) then true else if state == StartBit(g) then false
             else if state == StopBit(g) then true else shiftReg[0];
      var zero := divider == 0;
      divider := Down(g, divider);
      if state == Idle(g) {
        if dataValid {
          state := StartBit(g);
          divider := Load(g);
          shiftReg := data;
        }
      } else if state == StartBit(g) && zero {
        state := g.dataBits - 1;
        divider := Load(g);
      } else if state == StopBit(g) && zero {
        state := Idle(g);
      } else if state == 0 && zero {
        state := StopBit(g);
        divider := Load(g);
      } else if zero {
        state := state - 1;
        divider := Load(g);
        shiftReg := shiftReg[1..] + [false];
      }
    }
  }

  // ----- the protocol

  function Rep(b: bool, n: nat): (s: seq<bool>)
    ensures |s| == n
  {
    seq(n, i => b)
  }

  /** How many clocks a bit lasts. */
  function HoldTime(g: Config): (n: nat)
    ensures n > 0
  {
    Load(g) + 1
  }

  /** Each bit for its time. */
  function Levels(bits: seq<bool>, hold: nat): seq<bool> {
    if bits == [] then [] else Rep(bits[0], hold) + Levels(bits[1..], hold)
  }

  /** A start bit low, the data bits with the lowest first, a stop bit high. */
  function Frame(data: seq<bool>, hold: nat): seq<bool> {
    Levels([false] + data + [true], hold)
  }

  /** A transmitter by its protocol: it has a queue of levels to send. While that is empty the wire is
      high and an offer puts its frame into the queue; otherwise offers are ignored. */
  function Protocol(hold: nat, queue: seq<bool>, offers: seq<Offer>): seq<bool>
    decreases |offers|
  {
    if offers == [] then []
    else if queue != [] then [queue[0]] + Protocol(hold, queue[1..], offers[1..])
    else [true] + Protocol(hold, if offers[0].valid then Frame(offers[0].data, hold) else [], offers[1..])
  }

  /** What the registers stand for. */
  function Queue(g: Config, r: Regs): seq<bool>
    requires Valid(g, r)
  {
    var hold := HoldTime(g);
    if r.state == Idle(g) then []
    else if r.state == StartBit(g) then Rep(false, r.divider + 1) + Levels(r.shiftReg + [true], hold)
    else if r.state == StopBit(g) then Rep(true, r.divider + 1)
    else Rep(r.shiftReg[0], r.divider + 1) + Levels(r.shiftReg[1..r.state + 1] + [true], hold)
  }

  lemma RepTail(b: bool, n: nat, rest: seq<bool>)
    ensures (Rep(b, n + 1) + rest)[0] == b && (Rep(b, n + 1) + rest)[1..] == Rep(b, n) + rest
  {
  }

  lemma LevelsCons(b: bool, bits: seq<bool>, hold: nat)
    ensures Levels([b] + bits, hold) == Rep(b, hold) + Levels(bits, hold)
  {
    assert ([b] + bits)[1..] == bits;
  }

  /** While a bit lasts only the divider moves. */
  lemma HoldClock(g: Config, r: Regs, offer: Offer)
    requires Valid(g, r) && |offer.data| == g.dataBits && r.state != Idle(g) && r.divider > 0
    ensures Queue(g, r) != [] && Queue(g, r)[0] == Txd(g, r)
    ensures Queue(g, Clock(g, r, offer)) == Queue(g, r)[1..]
  {
    hide Levels, Pow2, Load;
    RepTail(Txd(g, r), r.divider, []);
    RepTail(Txd(g, r), r.divider, Levels(r.shiftReg + [true], HoldTime(g)));
    if r.state < g.dataBits {
      RepTail(Txd(g, r), r.divider, Levels(r.shiftReg[1..r.state + 1] + [true], HoldTime(g)));
    }
  }

  lemma ShiftOne(s: seq<bool>, k: nat)
    requires 0 < k < |s|
    ensures (s[1..] + [false])[1..k] + [true] == (s[1..k + 1] + [true])[1..]
    ensures (s[1..] + [false])[0] == s[1] == (s[1..k + 1] + [true])[0]
  {
  }

  lemma NextDataBit(g: Config, r: Regs, offer: Offer)
    requires Valid(g, r) && |offer.data| == g.dataBits && 0 < r.state < Idle(g) && r.divider == 0
    ensures Queue(g, r) != [] && Queue(g, r)[0] == Txd(g, r)
    ensures Queue(g, Clock(g, r, offer)) == Queue(g, r)[1..]
  {
    hide Levels, Pow2, Load, Rep;
    var hold, s, k := HoldTime(g), r.shiftReg, r.state;
    var rest := s[1..k + 1] + [true];
    RepTail(s[0], 0, Levels(rest, hold));
    RepNone(s[0], Levels(rest, hold));
    ShiftOne(s, k);
    LevelsCons(rest[0], rest[1..], hold);
    assert [rest[0]] + rest[1..] == rest;
  }

  lemma RepNone(b: bool, rest: seq<bool>)
    ensures Rep(b, 0) + rest == rest
  {
  }

  /** At the end of a bit comes the next one. */
  lemma NextBit(g: Config, r: Regs, offer: Offer)
    requires Valid(g, r) && |offer.data| == g.dataBits && r.state != Idle(g) && r.divider == 0
    ensures Queue(g, r) != [] && Queue(g, r)[0] == Txd(g, r)
    ensures Queue(g, Clock(g, r, offer)) == Queue(g, r)[1..]
  {
    hide Levels, Pow2, Load;
    var hold := HoldTime(g);
    if r.state == StartBit(g) {
      RepTail(false, 0, Levels(r.shiftReg + [true], hold));
      assert r.shiftReg[1..g.dataBits] == r.shiftReg[1..];
      assert r.shiftReg + [true] == [r.shiftReg[0]] + (r.shiftReg[1..] + [true]);
      LevelsCons(r.shiftReg[0], r.shiftReg[1..] + [true], hold);
    } else if r.state == 0 {
      assert r.shiftReg[1..1] + [true] == [true];
      LevelsCons(true, [], hold);
      assert [true] + [] == [true];
      LevelsNone(hold);
    } else if r.state < Idle(g) {
      NextDataBit(g, r, offer);
    }
  }

  lemma LevelsNone(hold: nat)
    ensures Levels([], hold) == []
  {
  }

  /** The first main result: whatever is offered and whenever, the wire carries the protocol. */
  lemma {:induction false} WireIsProtocol(g: Config, r: Regs, offers: seq<Offer>)
    requires Valid(g, r) && AreOffers(g, offers)
    ensures Wire(g, r, offers) == Protocol(HoldTime(g), Queue(g, r), offers)
    decreases |offers|
  {
    if offers != [] {
      hide Clock, Queue, Txd, Levels;
      WireIsProtocol(g, Clock(g, r, offers[0]), offers[1..]);
      ClockQueue(g, r, offers[0]);
    }
  }

  lemma ClockQueue(g: Config, r: Regs, offer: Offer)
    requires Valid(g, r) && |offer.data| == g.dataBits
    ensures var q, q' := Queue(g, r), Queue(g, Clock(g, r, offer));
            if q != [] then Txd(g, r) == q[0] && q' == q[1..]
            else Txd(g, r) && q' == if offer.valid then Frame(offer.data, HoldTime(g)) else []
  {
    hide Levels, Pow2, Load;
    if r.state != Idle(g) {
      if r.divider > 0 {
        HoldClock(g, r, offer);
      } else {
        NextBit(g, r, offer);
      }
    } else if offer.valid {
      assert [false] + offer.data + [true] == [false] + (offer.data + [true]);
      LevelsCons(false, offer.data + [true], HoldTime(g));
    }
  }

  // ----- receiving

  /** The level in the middle of each of the next n bits. */
  function Sample(wire: seq<bool>, hold: nat, n: nat): seq<bool>
    requires hold > 0
  {
    if n == 0 || |wire| < hold then [] else [wire[hold / 2]] + Sample(wire[hold..], hold, n - 1)
  }

  /** The length of a frame of n data bits. */
  function FrameLength(n: nat, hold: nat): (l: nat)
    ensures l >= hold + hold
  {
    if n == 0 then hold + hold else hold + FrameLength(n - 1, hold)
  }

  /** A receiver: it waits for the wire to go low, then samples the middle of each data bit, and waits
      again from the middle of the stop bit on. A frame cut off by the end of the run gives nothing. */
  function Receive(wire: seq<bool>, hold: nat, n: nat): seq<seq<bool>>
    requires hold > 0
    decreases |wire|
  {
    if wire == [] then []
    else if wire[0] then Receive(wire[1..], hold, n)
    else if |wire| < FrameLength(n, hold) then []
    else [Sample(wire[hold..], hold, n)] + Receive(wire[FrameLength(n, hold) - hold + hold / 2..], hold, n)
  }

  /** The bytes that are accepted, that is offered while the transmitter is ready, and sent in full. The
      transmitter is busy for the next so many clocks. */
  function Accepted(busy: nat, offers: seq<Offer>, hold: nat, n: nat): seq<seq<bool>>
    decreases |offers|
  {
    if offers == [] then []
    else if busy > 0 then Accepted(busy - 1, offers[1..], hold, n)
    else if !offers[0].valid then Accepted(0, offers[1..], hold, n)
    else (if |offers| - 1 >= FrameLength(n, hold) then [offers[0].data] else [])
         + Accepted(FrameLength(n, hold), offers[1..], hold, n)
  }

  lemma {:induction false} LevelsLength(data: seq<bool>, hold: nat)
    ensures |Levels(data + [true], hold)| == FrameLength(|data|, hold) - hold
  {
    if data == [] {
      assert Levels([true], hold) == Rep(true, hold) + Levels([], hold);
    } else {
      LevelsLength(data[1..], hold);
      assert data + [true] == [data[0]] + (data[1..] + [true]);
      LevelsCons(data[0], data[1..] + [true], hold);
    }
  }

  lemma FrameParts(data: seq<bool>, hold: nat)
    ensures Frame(data, hold) == Rep(false, hold) + Levels(data + [true], hold)
    ensures |Frame(data, hold)| == FrameLength(|data|, hold)
  {
    assert [false] + data + [true] == [false] + (data + [true]);
    LevelsCons(false, data + [true], hold);
    LevelsLength(data, hold);
  }

  /** A frame ends with its stop bit. */
  lemma {:induction false} LevelsEnd(data: seq<bool>, hold: nat)
    ensures var f := Levels(data + [true], hold);
            |f| >= hold && f[|f| - hold..] == Rep(true, hold)
  {
    if data == [] {
      assert Levels([true], hold) == Rep(true, hold) + Levels([], hold);
    } else {
      LevelsEnd(data[1..], hold);
      assert data + [true] == [data[0]] + (data[1..] + [true]);
      LevelsCons(data[0], data[1..] + [true], hold);
    }
  }

  lemma {:induction false} SampleFrame(data: seq<bool>, hold: nat, rest: seq<bool>)
    requires hold > 0
    ensures Sample(Levels(data + [true], hold) + rest, hold, |data|) == data
  {
    if data != [] {
      var levels := Levels(data[1..] + [true], hold);
      assert data + [true] == [data[0]] + (data[1..] + [true]);
      LevelsCons(data[0], data[1..] + [true], hold);
      var wire := Rep(data[0], hold) + levels + rest;
      assert wire[hold..] == levels + rest && wire[hold / 2] == data[0];
      SampleFrame(data[1..], hold, rest);
    }
  }

  lemma {:induction false} SkipHighs(k: nat, wire: seq<bool>, hold: nat, n: nat)
    requires hold > 0
    ensures Receive(Rep(true, k) + wire, hold, n) == Receive(wire, hold, n)
  {
    if k == 0 {
      assert Rep(true, 0) + wire == wire;
    } else {
      RepTail(true, k - 1, wire);
      SkipHighs(k - 1, wire, hold, n);
    }
  }

  /** A queue is sent to its end, or to the end of the run. */
  lemma {:induction false} Drain(hold: nat, queue: seq<bool>, offers: seq<Offer>)
    ensures Protocol(hold, queue, offers)
         == if |offers| <= |queue| then queue[..|offers|] else queue + Protocol(hold, [], offers[|queue|..])
    decreases |queue|
  {
    if queue != [] && offers != [] {
      Drain(hold, queue[1..], offers[1..]);
      assert queue == [queue[0]] + queue[1..];
      if |offers| > |queue| {
        assert offers[1..][|queue| - 1..] == offers[|queue|..];
      }
    }
  }

  lemma {:induction false} WaitBusy(busy: nat, offers: seq<Offer>, hold: nat, n: nat)
    ensures Accepted(busy, offers, hold, n)
         == if |offers| <= busy then [] else Accepted(0, offers[busy..], hold, n)
    decreases busy
  {
    if busy > 0 && offers != [] {
      WaitBusy(busy - 1, offers[1..], hold, n);
      if |offers| > busy {
        assert offers[1..][busy - 1..] == offers[busy..];
      }
    }
  }

  /** A whole frame on the wire is received as its data. */
  lemma ReceiveFrame(data: seq<bool>, hold: nat, rest: seq<bool>)
    requires hold > 0
    ensures Receive(Frame(data, hold) + rest, hold, |data|) == [data] + Receive(rest, hold, |data|)
  {
    hide Levels, Frame, FrameLength, Sample;
    var levels := Levels(data + [true], hold);
    var wire := Frame(data, hold) + rest;
    FrameParts(data, hold);
    assert wire == Rep(false, hold) + (levels + rest);
    assert wire[hold..] == levels + rest;
    SampleFrame(data, hold, rest);
    ResumeInStopBit(data, hold, rest);
    SkipHighs(hold - hold / 2, rest, hold, |data|);
  }

  lemma ResumeInStopBit(data: seq<bool>, hold: nat, rest: seq<bool>)
    requires hold > 0
    ensures |Frame(data, hold)| == FrameLength(|data|, hold)
    ensures (Frame(data, hold) + rest)[FrameLength(|data|, hold) - hold + hold / 2..]
         == Rep(true, hold - hold / 2) + rest
  {
    hide Levels, Frame, FrameLength;
    var frame, levels := Frame(data, hold), Levels(data + [true], hold);
    FrameParts(data, hold);
    LevelsEnd(data, hold);
    assert frame[|frame| - hold..] == levels[|levels| - hold..];
    assert frame == frame[..|frame| - hold] + Rep(true, hold);
  }

  /** Sampling what the protocol puts on the wire gives the accepted bytes. */
  lemma {:induction false} ProtocolReceived(hold: nat, offers: seq<Offer>, n: nat)
    requires hold > 0 && forall i :: 0 <= i < |offers| ==> |offers[i].data| == n
    ensures Receive(Protocol(hold, [], offers), hold, n) == Accepted(0, offers, hold, n)
    decreases |offers|
  {
    hide Frame, FrameLength;
    if offers == [] {
    } else if !offers[0].valid {
      ProtocolReceived(hold, offers[1..], n);
    } else {
      var rest, frame := offers[1..], Frame(offers[0].data, hold);
      FrameParts(offers[0].data, hold);
      Drain(hold, frame, rest);
      WaitBusy(|frame|, rest, hold, n);
      if |rest| >= |frame| {
        var later := rest[|frame|..];
        assert Protocol(hold, frame, rest) == frame + Protocol(hold, [], later);
        ReceiveFrame(offers[0].data, hold, Protocol(hold, [], later));
        ProtocolReceived(hold, later, n);
      }
    }
  }

  /** The second main result: a receiver that samples in the middle of each bit gets exactly the bytes
      that the transmitter was ready for. */
  lemma ReceivedAreAccepted(g: Config, r: Regs, offers: seq<Offer>)
    requires Valid(g, r) && AreOffers(g, offers) && DataReady(g, r)
    ensures Receive(Wire(g, r, offers), HoldTime(g), g.dataBits) == Accepted(0, offers, HoldTime(g), g.dataBits)
  {
    WireIsProtocol(g, r, offers);
    ProtocolReceived(HoldTime(g), offers, g.dataBits);
  }

  // ----- how long a bit lasts

  lemma {:induction false} Clog2IsLeast(d: nat)
    requires d > 0
    ensures d <= Pow2(Clog2(d)) && (d > 1 ==> Pow2(Clog2(d)) < d + d)
  {
    if d > 1 {
      Clog2IsLeast((d + 1) / 2);
    }
  }

  lemma {:induction false} Clog2OfPow2(k: nat)
    ensures Clog2(Pow2(k)) == k
  {
    if k > 0 {
      Clog2OfPow2(k - 1);
    }
  }

  ghost predicate IsPowerOf2(d: nat) {
    exists k :: d == Pow2(k)
  }

  /** A bit lasts one clock more than the divisor says, unless the divisor is a power of two from two
      on: that does not fit the divider, which is loaded with zero. */
  lemma BitLastsDivisorPlusOne(g: Config)
    requires IsConfig(g)
    ensures HoldTime(g) == g.divisor + 1 <==> g.divisor == 1 || !IsPowerOf2(g.divisor)
    ensures g.divisor > 1 && IsPowerOf2(g.divisor) ==> HoldTime(g) == 1
  {
    hide Pow2, Clog2, IsPowerOf2;
    var d, m := g.divisor, Pow2(DividerWidth(g));
    if d == 1 {
      assert m == 4 by { PowersOf2(); }
    } else {
      Clog2IsLeast(d);
      WidthIsExact(d);
    }
    ModuloUpTo(d, m);
  }

  lemma PowersOf2()
    ensures Pow2(2) == 4
  {
  }

  lemma ModuloUpTo(d: nat, m: nat)
    requires d <= m && m > 0
    ensures d % m == if d == m then 0 else d
  {
  }

  lemma WidthIsExact(d: nat)
    requires d > 1
    ensures d == Pow2(Clog2(d)) <==> IsPowerOf2(d)
  {
    hide Pow2, Clog2;
    if IsPowerOf2(d) {
      var k :| d == Pow2(k);
      Clog2OfPow2(k);
    }
  }
}
