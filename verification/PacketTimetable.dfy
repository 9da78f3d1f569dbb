/** The packet trace in numbers: who is sent, when, how long it takes, who is dropped. */
module PacketTimetable {
  import opened PacketTrace
  import opened PacketProperties
  import S = StableSort

  // ----- who is sent, and when -----

  /**
   The i-th TSN packet is sent exactly if the simulation lasts another 274 ms beyond i periods of 24 ms, and the
   first already at 230 ms; it starts at 180 ms plus i periods.
   */
  lemma TsnTimetable(c: Config, i: nat)
    ensures TsnPacket(i) in Sent(c) <==> 24_000 * i + 274_000 <= c.simTime || (i == 0 && 230_000 <= c.simTime)
    ensures |TsnHops(c, i)| > 0 && TsnHops(c, i)[0].t == 180_000 + 24_000 * i
  {
    SentExactly(c, TsnPacket(i));
    WholePeriods(c.simTime - 250_000, 24_000, i);
  }

  /** The same for best effort: 36 ms periods from 240 ms on, 336 ms, and 290 ms for the first. */
  lemma BeTimetable(c: Config, j: nat)
    ensures BePacket(j) in Sent(c) <==> 36_000 * j + 336_000 <= c.simTime || (j == 0 && 290_000 <= c.simTime)
    ensures |BeHops(c, j)| > 0 && BeHops(c, j)[0].t == 240_000 + 36_000 * j
  {
    SentExactly(c, BePacket(j));
    WholePeriods(c.simTime - 300_000, 36_000, j);
  }

  lemma WholePeriods(time: int, period: int, n: nat)
    requires period == 24_000 || period == 36_000
    ensures n < Max(1, time / period) <==> n == 0 || period * (n + 1) <= time
  {
  }

  // ----- who is dropped, and when the others arrive -----

  /** A packet is lost exactly if it is best effort, QoS is off, its number is even and its queue has filled up. */
  lemma DroppedExactly(c: Config, p: Packet)
    ensures LastHop(c, p).kind.Drop? <==>
            && p.BePacket? && !c.qos && p.j % 2 == 0
            && ((c.perturbation.TrafficSurge? && p.j >= 18) || (c.perturbation.RainDegradation? && p.j >= 22))
    ensures !LastHop(c, p).kind.Drop? ==> LastHop(c, p).kind.Rx?
  {
  }

  /** Packets ahead of the j-th best-effort packet. */
  function BeBacklog(c: Config, j: nat): int {
    match c.perturbation
    case TrafficSurge => if j < 18 then 38 + 13 * j / 2 else 150
    case RainDegradation => if j < 23 then 48 + 9 * j / 2 else 150
    case _ => 12 + j % 8
  }

  /** A best-effort packet waits for contention, then 15 us for each packet ahead of it; losing it is quicker. */
  lemma BeLatency(c: Config, j: nat)
    ensures var access := if c.perturbation.TrafficSurge? || c.perturbation.WifiInterference? then 890 else 412;
            TravelTime(c, BePacket(j)) ==
            if LastHop(c, BePacket(j)).kind.Drop? then access + 40 else access + 2_300 + 15 * BeBacklog(c, j)
  {
    BacklogIsDepth(c, j);
  }

  lemma BacklogIsDepth(c: Config, j: nat)
    ensures BeQueueDepth(c, j) == BeBacklog(c, j)
  {
  }

  /** Packets ahead of the i-th TSN packet when it shares the queue. */
  function TsnBacklog(c: Config, i: nat): int {
    match c.perturbation
    case TrafficSurge => if i < 25 then 48 + 21 * i / 5 else 150
    case RainDegradation => if i < 28 then 82 + 5 * i / 2 else 150
    case _ => 18
  }

  lemma TsnBacklogIsDepth(c: Config, i: nat)
    requires !c.qos
    ensures TsnQueueDepth(c, i) == TsnBacklog(c, i)
  {
  }

  lemma TsnTravelIs(c: Config, i: nat)
    ensures TravelTime(c, TsnPacket(i)) == 323 + TsnWait(c, i) + TsnHopOne(c)
  {
  }

  /** In a surge without QoS a TSN packet waits 18 us for each packet ahead of it. */
  lemma SurgeLatency(c: Config, i: nat)
    requires !c.qos && c.perturbation.TrafficSurge?
    ensures TravelTime(c, TsnPacket(i)) == 6_073 + 18 * TsnBacklog(c, i)
  {
    TsnTravelIs(c, i);
    TsnBacklogIsDepth(c, i);
  }

  // ----- what every hop carries -----

  /** All hops of a packet carry its flow, number and size; QoS puts TSN in band 0, everything else shares band 1. */
  lemma HopsCarry(c: Config, p: Packet, a: nat)
    requires a < |Hops(c, p)|
    ensures var e := Hops(c, p)[a];
            && e.flow == (if p.TsnPacket? then Tsn else Be)
            && e.pktId == (if p.TsnPacket? then 1000 + p.i else 5000 + p.j)
            && e.size == (if p.TsnPacket? then 128 else 1400)
            && (a >= 2 || p.BePacket? ==> e.band == if p.TsnPacket? && c.qos then 0 else 1)
            && (a < 2 && p.TsnPacket? ==> e.band == 0)
  {
  }

  /** The backlog a packet meets in the queue of C0. */
  function Backlog(c: Config, p: Packet): int {
    match p
    case TsnPacket(i) => if c.qos then 1 else TsnBacklog(c, i)
    case BePacket(j) => BeBacklog(c, j)
  }

  /**
   The trace shows the backlog where a packet is queued, one less where it leaves the queue, two less where a
   best-effort packet reaches C1, a full buffer where one is lost, and no backlog anywhere else.
   */
  lemma QueuesShow(c: Config, p: Packet, a: nat)
    requires a < |Hops(c, p)|
    ensures var e := Hops(c, p)[a];
            e.qDepth == match e.kind
                        case Enqueue => Backlog(c, p)
                        case Dequeue => Backlog(c, p) - 1
                        case Drop => 150
                        case _ => if p.BePacket? && e.node == "C1" then Backlog(c, p) - 2 else 0
  {
    if p.BePacket? {
      BacklogIsDepth(c, p.j);
    } else if !c.qos {
      TsnBacklogIsDepth(c, p.i);
    }
  }

  /** A final event says where the packet ended. */
  lemma EndsAre(c: Config, p: Packet)
    ensures LastHop(c, p).peer == if LastHop(c, p).kind.Drop? then "DROPPED" else "SINK"
  {
  }

  // ----- scenario events -----

  /** An event of the uncut trace that belongs to no packet announces QoS or the perturbation of the scenario. */
  lemma ScenarioEventsAre(c: Config, e: Event)
    requires e in Untruncated(c)
    ensures e.kind.QbvGate? ==> c.qos && e == Event(100_000, QbvGate, "C0", "C1", Tsn, 9000, 64, 0, 0)
    ensures e.kind.AcmShift? ==>
              && c.perturbation.RainDegradation? && e.t == 450_000 && e.node == "C0" && e.peer == "C1"
              && e.pktId == 9002 && e.band == 0 && e.qDepth == if c.qos then 18 else 82
    ensures e.kind.LinkEvent? ==>
              match c.perturbation
              case RainDegradation =>
                e.t == 150_000 && e.node == "C0" && e.peer == "C1" && e.pktId == 9001 && e.band == 0 && e.qDepth == 0
              case WifiInterference =>
                e.t == 180_000 && e.node == "AP0" && e.peer == "C0" && e.pktId == 9003 && e.band == 0 && e.qDepth == 0
              case TrafficSurge =>
                && e.t == 250_000 && e.node == "STA1" && e.peer == "AP1" && e.pktId == 9004 && e.band == 1
                && e.qDepth == if c.qos then 1 else 64
              case Unperturbed => false
    ensures e.kind.AcmShift? || e.kind.LinkEvent? ==> e.flow == Ctrl && e.size == 64
  {
    Members(c, e);
    if p :| p in Sent(c) && e in Hops(c, p) {
      HopIsTraffic(c, p, e);
    }
  }

  lemma HopIsTraffic(c: Config, p: Packet, e: Event)
    requires e in Hops(c, p)
    ensures !e.kind.QbvGate? && !e.kind.AcmShift? && !e.kind.LinkEvent?
  {
  }

  /** And each of them is announced. */
  lemma ScenarioIsAnnounced(c: Config)
    ensures c.qos <==> exists e :: e in Untruncated(c) && e.kind.QbvGate?
    ensures c.perturbation.RainDegradation? <==> exists e :: e in Untruncated(c) && e.kind.AcmShift?
    ensures !c.perturbation.Unperturbed? <==> exists e :: e in Untruncated(c) && e.kind.LinkEvent?
  {
    var control := ControlEvents(c);
    forall e | e in Untruncated(c)
      ensures e.kind.QbvGate? ==> c.qos
      ensures e.kind.AcmShift? ==> c.perturbation.RainDegradation?
      ensures e.kind.LinkEvent? ==> !c.perturbation.Unperturbed?
    {
      ScenarioEventsAre(c, e);
    }
    forall e | e in control ensures e in Untruncated(c) {}
    if c.qos { assert control[|control| - 1] in control && control[|control| - 1].kind.QbvGate?; }
    if !c.perturbation.Unperturbed? { assert control[0] in control && control[0].kind.LinkEvent?; }
    if c.perturbation.RainDegradation? { assert control[1] in control && control[1].kind.AcmShift?; }
  }

  /** The trace is the whole sorted list up to 900 events and its first 900 beyond. */
  lemma TraceIsCut(c: Config)
    ensures |Trace(c)| == (if |Untruncated(c)| <= 900 then |Untruncated(c)| else 900)
    ensures Trace(c) <= Ordered(c) && multiset(Ordered(c)) == multiset(Untruncated(c))
    ensures forall a, b :: 0 <= a < b < |Trace(c)| ==> Trace(c)[a].t <= Trace(c)[b].t
  {
    S.SortPermutes(NoLater, Untruncated(c));
    assert |multiset(Ordered(c))| == |multiset(Untruncated(c))|;
    OrderedSorted(c);
  }
}
