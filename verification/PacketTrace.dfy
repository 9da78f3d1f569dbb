/**
 build_discrete_packet_trace of cer_intent/tsn_simulation_runner.py.  All times
 are whole microseconds, which is what the rounding to six decimals of a second
 amounts to.
 */
module PacketTrace {
  import S = StableSort

  datatype Perturbation = RainDegradation | WifiInterference | TrafficSurge | Unperturbed

  datatype Config = Config(simTime: int, qos: bool, perturbation: Perturbation)

  datatype Kind = Tx | Forward | Enqueue | Dequeue | Drop | Rx | LinkEvent | AcmShift | QbvGate

  datatype Flow = Tsn | Be | Ctrl

  datatype Event = Event(
    t: int,
    kind: Kind,
    node: string,
    peer: string,
    flow: Flow,
    pktId: int,
    size: int,
    band: int,
    qDepth: int)

  function Min(a: int, b: int): int {
    if a <= b then a else b
  }

  function Max(a: int, b: int): int {
    if a >= b then a else b
  }

  const BUFFER: int := 150
  const TRACE_LIMIT: nat := 900

  // ----- scenario events -----

  function ControlEvents(c: Config): seq<Event> {
    (match c.perturbation
     case RainDegradation => [
       Event(150_000, LinkEvent, "C0", "C1", Ctrl, 9001, 64, 0, 0),
       Event(450_000, AcmShift, "C0", "C1", Ctrl, 9002, 64, 0, if c.qos then 18 else 82)]
     case WifiInterference => [Event(180_000, LinkEvent, "AP0", "C0", Ctrl, 9003, 64, 0, 0)]
     case TrafficSurge => [Event(250_000, LinkEvent, "STA1", "AP1", Ctrl, 9004, 64, 1, if c.qos then 1 else 64)]
     case Unperturbed => []) +
    (if c.qos then [Event(100_000, QbvGate, "C0", "C1", Tsn, 9000, 64, 0, 0)] else [])
  }

  // ----- packets -----

  /** The i-th packet of the TSN flow, or the j-th of the best-effort flow. */
  datatype Packet = TsnPacket(i: nat) | BePacket(j: nat)

  function SendTime(p: Packet): int {
    match p
    case TsnPacket(i) => 180_000 + i * 24_000
    case BePacket(j) => 240_000 + j * 36_000
  }

  function PacketId(p: Packet): int {
    match p
    case TsnPacket(i) => 1000 + i
    case BePacket(j) => 5000 + j
  }

  function FlowOf(p: Packet): Flow {
    if p.TsnPacket? then Tsn else Be
  }

  function TsnQueueDepth(c: Config, i: nat): int {
    if c.qos then 1
    else match c.perturbation
      case TrafficSurge => Min(BUFFER, 48 + i * 42 / 10)
      case RainDegradation => Min(BUFFER, 82 + i * 25 / 10)
      case _ => 18
  }

  /** Time at the head of C0's queue. */
  function TsnWait(c: Config, i: nat): int {
    if c.qos then 15
    else match c.perturbation
      case TrafficSurge => 5_500 + TsnQueueDepth(c, i) * 18
      case RainDegradation => 6_800
      case _ => 1_650
  }

  function TsnHopOne(c: Config): int {
    if c.qos then (if c.perturbation.RainDegradation? then 280 else 150) else 250
  }

  function TsnHops(c: Config, i: nat): seq<Event> {
    var id, q := PacketId(TsnPacket(i)), TsnQueueDepth(c, i);
    var band := if c.qos then 0 else 1;
    var tx := SendTime(TsnPacket(i));
    var ap := tx + 68;
    var enq := ap + 25;
    var deq := enq + TsnWait(c, i);
    var c1 := deq + TsnHopOne(c);
    var c2 := c1 + 80;
    var c3 := c2 + 110;
    var sink := c3 + 40;
    [ Event(tx, Tx, "STA0", "AP0", Tsn, id, 128, 0, 0),
      Event(ap, Forward, "AP0", "C0", Tsn, id, 128, 0, 0),
      Event(enq, Enqueue, "C0", "C1", Tsn, id, 128, band, q),
      Event(deq, Dequeue, "C0", "C1", Tsn, id, 128, band, Max(0, q - 1)),
      Event(c1, Forward, "C1", "C2", Tsn, id, 128, band, 0),
      Event(c2, Forward, "C2", "C3", Tsn, id, 128, band, 0),
      Event(c3, Forward, "C3", "SINK", Tsn, id, 128, band, 0),
      Event(sink, Rx, "SINK", "SINK", Tsn, id, 128, band, 0) ]
  }

  function BeQueueDepth(c: Config, j: nat): int {
    match c.perturbation
    case TrafficSurge => Min(BUFFER, 38 + j * 65 / 10)
    case RainDegradation => Min(BUFFER, 48 + j * 45 / 10)
    case _ => Min(35, 12 + j % 8)
  }

  /** Tail drop at a nearly full buffer, every other packet, without QoS. */
  predicate IsDropped(c: Config, j: nat) {
    BeQueueDepth(c, j) >= 145 && !c.qos && j % 2 == 0
  }

  function BeContention(c: Config): int {
    if c.perturbation.TrafficSurge? || c.perturbation.WifiInterference? then 890 else 412
  }

  function BeHops(c: Config, j: nat): seq<Event> {
    var id, q := PacketId(BePacket(j)), BeQueueDepth(c, j);
    var tx := SendTime(BePacket(j));
    var ap := tx + BeContention(c);
    var enq := ap + 40;
    var ingress := [
      Event(tx, Tx, "STA1", "AP1", Be, id, 1400, 1, 0),
      Event(ap, Forward, "AP1", "C0", Be, id, 1400, 1, 0)];
    if IsDropped(c, j) then ingress + [Event(enq, Drop, "C0", "DROPPED", Be, id, 1400, 1, 150)]
    else
      var deq := enq + 1_800 + q * 15;
      var c1 := deq + 180;
      var c2 := c1 + 90;
      var c3 := c2 + 140;
      var sink := c3 + 50;
      ingress + [
        Event(enq, Enqueue, "C0", "C1", Be, id, 1400, 1, q),
        Event(deq, Dequeue, "C0", "C1", Be, id, 1400, 1, Max(0, q - 1)),
        Event(c1, Forward, "C1", "C2", Be, id, 1400, 1, Max(0, q - 2)),
        Event(c2, Forward, "C2", "C3", Be, id, 1400, 1, 0),
        Event(c3, Forward, "C3", "SINK", Be, id, 1400, 1, 0),
        Event(sink, Rx, "SINK", "SINK", Be, id, 1400, 1, 0)]
  }

  /** Everything that happens to one packet, hop by hop. */
  function Hops(c: Config, p: Packet): seq<Event> {
    match p
    case TsnPacket(i) => TsnHops(c, i)
    case BePacket(j) => BeHops(c, j)
  }

  // ----- which packets are sent -----

  function PlannedTsn(c: Config): nat {
    Max(1, (c.simTime - 250_000) / 24_000)
  }

  function PlannedBe(c: Config): nat {
    Max(1, (c.simTime - 300_000) / 36_000)
  }

  predicate InTime(c: Config, p: Packet) {
    SendTime(p) <= c.simTime - 50_000
  }

  function TsnSent(c: Config, i: nat): seq<Packet>
    decreases PlannedTsn(c) - i
  {
    if i < PlannedTsn(c) && InTime(c, TsnPacket(i)) then [TsnPacket(i)] + TsnSent(c, i + 1) else []
  }

  function BeSent(c: Config, j: nat): seq<Packet>
    decreases PlannedBe(c) - j
  {
    if j < PlannedBe(c) && InTime(c, BePacket(j)) then [BePacket(j)] + BeSent(c, j + 1) else []
  }

  function Sent(c: Config): seq<Packet> {
    TsnSent(c, 0) + BeSent(c, 0)
  }

  function AllHops(c: Config, ps: seq<Packet>): seq<Event> {
    if ps == [] then [] else Hops(c, ps[0]) + AllHops(c, ps[1..])
  }

  function Untruncated(c: Config): seq<Event> {
    ControlEvents(c) + AllHops(c, Sent(c))
  }

  predicate NoLater(a: Event, b: Event) {
    a.t <= b.t
  }

  function Ordered(c: Config): seq<Event> {
    S.Sort(NoLater, Untruncated(c))
  }

  function Trace(c: Config): seq<Event> {
    if |Ordered(c)| <= TRACE_LIMIT then Ordered(c) else Ordered(c)[..TRACE_LIMIT]
  }

  lemma AllHopsCons(c: Config, p: Packet, ps: seq<Packet>)
    ensures AllHops(c, [p] + ps) == Hops(c, p) + AllHops(c, ps)
  {
    assert ([p] + ps)[1..] == ps;
  }

  lemma ConcatAssociates(a: seq<Event>, b: seq<Event>, d: seq<Event>)
    ensures a + (b + d) == (a + b) + d
  {
  }

  lemma {:induction false} AllHopsConcat(c: Config, a: seq<Packet>, b: seq<Packet>)
    ensures AllHops(c, a + b) == AllHops(c, a) + AllHops(c, b)
  {
    if a == [] {
      assert a + b == b;
    } else {
      var p, rest := a[0], a[1..];
      assert a == [p] + rest && a + b == [p] + (rest + b);
      AllHopsConcat(c, rest, b);
      AllHopsCons(c, p, rest + b);
      AllHopsCons(c, p, rest);
      ConcatAssociates(Hops(c, p), AllHops(c, rest), AllHops(c, b));
    }
  }

  method AppendTsn(c: Config, before: seq<Event>) returns (events: seq<Event>)
    ensures events == before + AllHops(c, TsnSent(c, 0))
  {
    events := before;
    var i := 0;
    while i < PlannedTsn(c)
      invariant 0 <= i
      invariant events + AllHops(c, TsnSent(c, i)) == before + AllHops(c, TsnSent(c, 0))
      decreases PlannedTsn(c) - i
    {
      if SendTime(TsnPacket(i)) > c.simTime - 50_000 {
        break;
      }
      AllHopsCons(c, TsnPacket(i), TsnSent(c, i + 1));
      ConcatAssociates(events, TsnHops(c, i), AllHops(c, TsnSent(c, i + 1)));
      events := events + TsnHops(c, i);
      i := i + 1;
    }
    assert TsnSent(c, i) == [] && events + [] == events;
  }

  method AppendBe(c: Config, before: seq<Event>) returns (events: seq<Event>)
    ensures events == before + AllHops(c, BeSent(c, 0))
  {
    events := before;
    var j := 0;
    while j < PlannedBe(c)
      invariant 0 <= j
      invariant events + AllHops(c, BeSent(c, j)) == before + AllHops(c, BeSent(c, 0))
      decreases PlannedBe(c) - j
    {
      if SendTime(BePacket(j)) > c.simTime - 50_000 {
        break;
      }
      AllHopsCons(c, BePacket(j), BeSent(c, j + 1));
      ConcatAssociates(events, BeHops(c, j), AllHops(c, BeSent(c, j + 1)));
      events := events + BeHops(c, j);
      j := j + 1;
    }
    assert BeSent(c, j) == [] && events + [] == events;
  }

  method BuildDiscretePacketTrace(c: Config) returns (trace: seq<Event>)
    ensures trace == Trace(c)
  {
    var events := AppendTsn(c, ControlEvents(c));
    events := AppendBe(c, events);
    AllHopsConcat(c, TsnSent(c, 0), BeSent(c, 0));
    ConcatAssociates(ControlEvents(c), AllHops(c, TsnSent(c, 0)), AllHops(c, BeSent(c, 0)));
    events := S.Sort(NoLater, events);
    trace := if |events| <= TRACE_LIMIT then events else events[..TRACE_LIMIT];
  }
}
