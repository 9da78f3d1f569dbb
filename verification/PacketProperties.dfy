/** Causality, conservation and ordering of the packet trace, before and after the cut to 900 events. */
module PacketProperties {
  import opened Common
  import opened PacketTrace
  import S = StableSort

  // ----- one packet -----

  /** The packet an event belongs to; scenario events belong to none. */
  function Owner(e: Event): Option<Packet> {
    if e.flow.Tsn? && !e.kind.QbvGate? && e.pktId >= 1000 then Some(TsnPacket(e.pktId - 1000))
    else if e.flow.Be? && e.pktId >= 5000 then Some(BePacket(e.pktId - 5000))
    else None
  }

  predicate IsFinal(e: Event) {
    e.kind.Rx? || e.kind.Drop?
  }

  lemma QueueDepths(c: Config, p: Packet)
    ensures p.TsnPacket? ==> 1 <= TsnQueueDepth(c, p.i) <= BUFFER
    ensures p.BePacket? ==> 12 <= BeQueueDepth(c, p.j) <= BUFFER
  {
  }

  /** Hop times strictly increase along a packet's way. */
  lemma HopTimesIncrease(c: Config, p: Packet)
    ensures forall a, b :: 0 <= a < b < |Hops(c, p)| ==> Hops(c, p)[a].t < Hops(c, p)[b].t
  {
    QueueDepths(c, p);
  }

  /** A packet is transmitted first, then ends in exactly one RX or DROP, and nowhere before. */
  lemma HopKinds(c: Config, p: Packet)
    ensures var hs := Hops(c, p);
            && |hs| >= 3 && hs[0].kind.Tx? && IsFinal(hs[|hs| - 1])
            && (forall a :: 0 < a < |hs| ==> !hs[a].kind.Tx?)
            && (forall a :: 0 <= a < |hs| - 1 ==> !IsFinal(hs[a]))
  {
  }

  lemma HopsAreOwned(c: Config, p: Packet)
    ensures forall e :: e in Hops(c, p) ==> Owner(e) == Some(p)
  {
    match p
    case TsnPacket(i) =>
      forall a | 0 <= a < |TsnHops(c, i)| ensures Owner(TsnHops(c, i)[a]) == Some(p) {}
    case BePacket(j) =>
      forall a | 0 <= a < |BeHops(c, j)| ensures Owner(BeHops(c, j)[a]) == Some(p) {}
  }

  lemma HopsAreDistinct(c: Config, p: Packet)
    ensures Distinct(Hops(c, p))
  {
    HopTimesIncrease(c, p);
  }

  /** Time from transmission to reception (or loss). */
  function TravelTime(c: Config, p: Packet): int {
    HopKinds(c, p);
    Hops(c, p)[|Hops(c, p)| - 1].t - Hops(c, p)[0].t
  }

  function Period(f: Flow): int {
    if f.Tsn? then 24_000 else 36_000
  }

  /** Each packet is gone before the next one of its flow is sent. */
  lemma TravelFitsPeriod(c: Config, p: Packet)
    ensures 0 < TravelTime(c, p) < Period(FlowOf(p))
  {
    QueueDepths(c, p);
  }

  /** With QoS a TSN packet takes 488 us, or 618 us in rain: the latency does not depend on load. */
  lemma QosLatency(c: Config, i: nat)
    requires c.qos
    ensures TravelTime(c, TsnPacket(i)) == if c.perturbation.RainDegradation? then 618 else 488
  {
  }

  /** Without QoS every TSN packet, under any perturbation, arrives later than it would with QoS. */
  lemma QosIsFaster(c: Config, i: nat)
    ensures TravelTime(c.(qos := true), TsnPacket(i)) < TravelTime(c.(qos := false), TsnPacket(i))
    ensures !c.perturbation.TrafficSurge? ==>
              TravelTime(c.(qos := false), TsnPacket(i)) == if c.perturbation.RainDegradation? then 7_373 else 2_223
    ensures c.perturbation.TrafficSurge? ==> 6_937 <= TravelTime(c.(qos := false), TsnPacket(i)) <= 8_773
  {
    QueueDepths(c.(qos := false), TsnPacket(i));
  }

  lemma DropsNeedOverload(c: Config, p: Packet, e: Event)
    requires e in Hops(c, p) && e.kind.Drop?
    ensures !c.qos && (c.perturbation.TrafficSurge? || c.perturbation.RainDegradation?) && p.BePacket? && p.j % 2 == 0
  {
  }

  lemma HopDepths(c: Config, p: Packet)
    ensures forall e :: e in Hops(c, p) ==> 0 <= e.qDepth <= BUFFER
  {
    QueueDepths(c, p);
  }

  // ----- the whole trace before the cut -----

  lemma {:induction false} TsnSentAre(c: Config, i: nat)
    ensures forall p :: p in TsnSent(c, i) ==> p.TsnPacket? && p.i >= i && InTime(c, p)
    ensures Distinct(TsnSent(c, i))
    decreases PlannedTsn(c) - i
  {
    if i < PlannedTsn(c) && InTime(c, TsnPacket(i)) {
      TsnSentAre(c, i + 1);
    }
  }

  lemma {:induction false} BeSentAre(c: Config, j: nat)
    ensures forall p :: p in BeSent(c, j) ==> p.BePacket? && p.j >= j && InTime(c, p)
    ensures Distinct(BeSent(c, j))
    decreases PlannedBe(c) - j
  {
    if j < PlannedBe(c) && InTime(c, BePacket(j)) {
      BeSentAre(c, j + 1);
    }
  }

  lemma {:induction false} TsnSentExactly(c: Config, i: nat, k: nat)
    requires i <= k
    ensures TsnPacket(k) in TsnSent(c, i) <==> k < PlannedTsn(c) && InTime(c, TsnPacket(k))
    decreases PlannedTsn(c) - i
  {
    if i < PlannedTsn(c) && InTime(c, TsnPacket(i)) {
      if i < k { TsnSentExactly(c, i + 1, k); }
    }
  }

  lemma {:induction false} BeSentExactly(c: Config, j: nat, k: nat)
    requires j <= k
    ensures BePacket(k) in BeSent(c, j) <==> k < PlannedBe(c) && InTime(c, BePacket(k))
    decreases PlannedBe(c) - j
  {
    if j < PlannedBe(c) && InTime(c, BePacket(j)) {
      if j < k { BeSentExactly(c, j + 1, k); }
    }
  }

  /** Leaving a loop at the first late packet loses no packet that would have been in time. */
  lemma SentExactly(c: Config, p: Packet)
    ensures p in Sent(c) <==> InTime(c, p) && Rank(p) < if p.TsnPacket? then PlannedTsn(c) else PlannedBe(c)
  {
    TsnSentAre(c, 0);
    BeSentAre(c, 0);
    match p
    case TsnPacket(k) => TsnSentExactly(c, 0, k);
    case BePacket(k) => BeSentExactly(c, 0, k);
  }

  lemma SentDistinct(c: Config)
    ensures Distinct(Sent(c))
  {
    TsnSentAre(c, 0);
    BeSentAre(c, 0);
    var a, b := TsnSent(c, 0), BeSent(c, 0);
    forall i, j | 0 <= i < |a| && 0 <= j < |b| ensures a[i] != b[j] {
      assert a[i] in a && b[j] in b;
    }
  }

  lemma {:induction false} AllHopsMembers(c: Config, ps: seq<Packet>, e: Event)
    ensures e in AllHops(c, ps) <==> exists p :: p in ps && e in Hops(c, p)
  {
    if ps != [] {
      AllHopsMembers(c, ps[1..], e);
      assert ps == [ps[0]] + ps[1..];
    }
  }

  lemma {:induction false} AllHopsDistinct(c: Config, ps: seq<Packet>)
    requires Distinct(ps)
    ensures Distinct(AllHops(c, ps))
  {
    if ps != [] {
      var p, rest := ps[0], ps[1..];
      AllHopsDistinct(c, rest);
      HopsAreDistinct(c, p);
      forall e | e in Hops(c, p) ensures e !in AllHops(c, rest) {
        AllHopsMembers(c, rest, e);
        HopsAreOwned(c, p);
        if q :| q in rest && e in Hops(c, q) {
          HopsAreOwned(c, q);
        }
      }
      DistinctConcat(Hops(c, p), AllHops(c, rest));
    }
  }

  lemma DistinctConcat(a: seq<Event>, b: seq<Event>)
    requires Distinct(a) && Distinct(b) && forall e :: e in a ==> e !in b
    ensures Distinct(a + b)
  {
    forall i, j | 0 <= i < |a| && 0 <= j < |b| ensures a[i] != b[j] {
      assert a[i] in a && b[j] in b;
    }
  }

  lemma ControlEventsAre(c: Config)
    ensures Distinct(ControlEvents(c))
    ensures forall e :: e in ControlEvents(c) ==>
              Owner(e) == None && !IsFinal(e) && !e.kind.Tx? && 0 <= e.qDepth <= BUFFER
  {
  }

  lemma Members(c: Config, e: Event)
    ensures e in Untruncated(c) <==> e in ControlEvents(c) || exists p :: p in Sent(c) && e in Hops(c, p)
    ensures e in Ordered(c) <==> e in Untruncated(c)
  {
    AllHopsMembers(c, Sent(c), e);
    S.SortKeepsMembers(NoLater, Untruncated(c));
  }

  lemma OwnedMembers(c: Config, e: Event)
    requires e in Ordered(c) && Owner(e).Some?
    ensures Owner(e).value in Sent(c) && e in Hops(c, Owner(e).value)
  {
    Members(c, e);
    ControlEventsAre(c);
    var p :| p in Sent(c) && e in Hops(c, p);
    HopsAreOwned(c, p);
  }

  lemma OrderedDistinct(c: Config)
    ensures Distinct(Untruncated(c)) && Distinct(Ordered(c))
  {
    SentDistinct(c);
    AllHopsDistinct(c, Sent(c));
    ControlEventsAre(c);
    forall e | e in ControlEvents(c) ensures e !in AllHops(c, Sent(c)) {
      AllHopsMembers(c, Sent(c), e);
      if p :| p in Sent(c) && e in Hops(c, p) {
        HopsAreOwned(c, p);
      }
    }
    DistinctConcat(ControlEvents(c), AllHops(c, Sent(c)));
    S.SortKeepsDistinct(NoLater, Untruncated(c));
  }

  lemma OrderedSorted(c: Config)
    ensures S.Sorted(NoLater, Ordered(c))
  {
    S.SortSorts(NoLater, Untruncated(c));
  }

  lemma OnlyLastIsFinal(c: Config, p: Packet, e: Event)
    requires e in Hops(c, p) && IsFinal(e)
    ensures |Hops(c, p)| > 0 && e == Hops(c, p)[|Hops(c, p)| - 1]
  {
    HopKinds(c, p);
    var a :| 0 <= a < |Hops(c, p)| && Hops(c, p)[a] == e;
  }

  function LastHop(c: Config, p: Packet): Event {
    HopKinds(c, p);
    Hops(c, p)[|Hops(c, p)| - 1]
  }

  lemma LastHopIsFinal(c: Config, p: Packet)
    ensures LastHop(c, p) in Hops(c, p) && IsFinal(LastHop(c, p))
  {
    HopKinds(c, p);
  }

  lemma LastHopOccursOnce(c: Config, p: Packet)
    requires p in Sent(c)
    ensures multiset(Untruncated(c))[LastHop(c, p)] == 1
  {
    var e := LastHop(c, p);
    LastHopIsFinal(c, p);
    Members(c, e);
    OrderedDistinct(c);
    S.CountsOfDistinct(Untruncated(c));
    assert e in multiset(Untruncated(c));
  }

  lemma FinalIsLastHop(c: Config, p: Packet, e: Event)
    requires e in Untruncated(c) && IsFinal(e) && Owner(e) == Some(p)
    ensures e == LastHop(c, p)
  {
    Members(c, e);
    OwnedMembers(c, e);
    OnlyLastIsFinal(c, p, e);
  }

  /** Before the cut, every packet sent is received or dropped, once: its last hop is its only final event. */
  lemma EveryPacketEndsOnce(c: Config, p: Packet)
    requires p in Sent(c)
    ensures IsFinal(LastHop(c, p)) && multiset(Untruncated(c))[LastHop(c, p)] == 1
    ensures forall e :: e in Untruncated(c) && IsFinal(e) && Owner(e) == Some(p) ==> e == LastHop(c, p)
  {
    LastHopIsFinal(c, p);
    LastHopOccursOnce(c, p);
    forall e | e in Untruncated(c) && IsFinal(e) && Owner(e) == Some(p) ensures e == LastHop(c, p) {
      FinalIsLastHop(c, p, e);
    }
  }

  // ----- the returned trace -----

  lemma TraceIsPrefix(c: Config)
    ensures |Trace(c)| <= |Ordered(c)| && Trace(c) == Ordered(c)[..|Trace(c)|]
    ensures |Trace(c)| < TRACE_LIMIT ==> Trace(c) == Ordered(c)
  {
  }

  /** Earlier in time is earlier in the list, so a prefix holds everything earlier than its members. */
  lemma EarlierIsBefore(c: Config, n: nat, e: Event) returns (k: nat)
    requires n < |Ordered(c)| && e in Ordered(c) && e.t < Ordered(c)[n].t
    ensures k < n && Ordered(c)[k] == e
  {
    OrderedSorted(c);
    k :| 0 <= k < |Ordered(c)| && Ordered(c)[k] == e;
    assert forall j :: n < j < |Ordered(c)| ==> NoLater(Ordered(c)[n], Ordered(c)[j]);
  }

  /** Causal closure: with a hop of a packet the trace holds all its earlier hops, before it and in order. */
  lemma TraceIsCausal(c: Config, n: nat, p: Packet, b: nat, a: nat) returns (k: nat)
    requires n < |Trace(c)| && p in Sent(c) && a < b < |Hops(c, p)| && Trace(c)[n] == Hops(c, p)[b]
    ensures k < n && Trace(c)[k] == Hops(c, p)[a]
  {
    TraceIsPrefix(c);
    HopTimesIncrease(c, p);
    var e := Hops(c, p)[a];
    assert e in Hops(c, p);
    Members(c, e);
    k := EarlierIsBefore(c, n, e);
  }

  /** Every event of the trace is a scenario event or a hop of a packet that was sent. */
  lemma TraceHasNoStrays(c: Config, n: nat)
    requires n < |Trace(c)|
    ensures S.Sorted(NoLater, Trace(c))
    ensures 0 <= Trace(c)[n].qDepth <= BUFFER
    ensures Trace(c)[n] in ControlEvents(c) || exists p :: p in Sent(c) && Trace(c)[n] in Hops(c, p)
  {
    TraceIsPrefix(c);
    OrderedSorted(c);
    var e := Trace(c)[n];
    assert e in Ordered(c);
    Members(c, e);
    ControlEventsAre(c);
    if p :| p in Sent(c) && e in Hops(c, p) {
      HopDepths(c, p);
    }
  }

  function Rank(p: Packet): nat {
    match p
    case TsnPacket(i) => i
    case BePacket(j) => j
  }

  /** A packet lives within one period of its flow, from its transmission on. */
  lemma HopTimesFitPeriod(c: Config, p: Packet, e: Event)
    requires e in Hops(c, p)
    ensures SendTime(p) <= e.t < SendTime(p) + Period(FlowOf(p))
  {
    HopKinds(c, p);
    HopTimesIncrease(c, p);
    TravelFitsPeriod(c, p);
    FirstHopTime(c, p);
    var a :| 0 <= a < |Hops(c, p)| && Hops(c, p)[a] == e;
  }

  lemma LaterTimeIsAfter(c: Config, n: nat, k: nat)
    requires n < |Trace(c)| && k < |Trace(c)| && Trace(c)[n].t < Trace(c)[k].t
    ensures n < k
  {
    TraceIsPrefix(c);
    OrderedSorted(c);
    assert forall j :: k < j < |Ordered(c)| ==> NoLater(Ordered(c)[k], Ordered(c)[j]);
  }

  /** Packets of one flow do not overtake: all of one packet comes before any of the next. */
  lemma NoOvertaking(c: Config, n: nat, k: nat, p: Packet, q: Packet)
    requires n < |Trace(c)| && k < |Trace(c)|
    requires Trace(c)[n] in Hops(c, p) && Trace(c)[k] in Hops(c, q)
    requires FlowOf(p) == FlowOf(q) && Rank(p) < Rank(q)
    ensures n < k && Trace(c)[n].t < Trace(c)[k].t
  {
    HopTimesFitPeriod(c, p, Trace(c)[n]);
    HopTimesFitPeriod(c, q, Trace(c)[k]);
    SendTimesApart(p, q);
    LaterTimeIsAfter(c, n, k);
  }

  lemma FirstHopTime(c: Config, p: Packet)
    ensures |Hops(c, p)| > 0 && Hops(c, p)[0].t == SendTime(p)
  {
  }

  lemma SendTimesApart(p: Packet, q: Packet)
    requires FlowOf(p) == FlowOf(q) && Rank(p) < Rank(q)
    ensures SendTime(q) - SendTime(p) >= Period(FlowOf(p))
  {
  }

  // ----- counting transmissions and endings -----

  function CountTx(s: seq<Event>): nat {
    if s == [] then 0 else CountTx(s[..|s| - 1]) + if s[|s| - 1].kind.Tx? then 1 else 0
  }

  function CountFinal(s: seq<Event>): nat {
    if s == [] then 0 else CountFinal(s[..|s| - 1]) + if IsFinal(s[|s| - 1]) then 1 else 0
  }

  function TxIn(s: seq<Event>): set<Event> {
    set e | e in s && e.kind.Tx?
  }

  function FinalIn(s: seq<Event>): set<Event> {
    set e | e in s && IsFinal(e)
  }

  lemma OneMoreTx(init: seq<Event>, e: Event)
    requires e !in init
    ensures |TxIn(init + [e])| == |TxIn(init)| + if e.kind.Tx? then 1 else 0
  {
    assert forall x :: x in init + [e] <==> x in init || x == e;
    if e.kind.Tx? {
      assert TxIn(init + [e]) == TxIn(init) + {e};
    } else {
      assert TxIn(init + [e]) == TxIn(init);
    }
  }

  lemma OneMoreFinal(init: seq<Event>, e: Event)
    requires e !in init
    ensures |FinalIn(init + [e])| == |FinalIn(init)| + if IsFinal(e) then 1 else 0
  {
    assert forall x :: x in init + [e] <==> x in init || x == e;
    if IsFinal(e) {
      assert FinalIn(init + [e]) == FinalIn(init) + {e};
    } else {
      assert FinalIn(init + [e]) == FinalIn(init);
    }
  }

  lemma {:induction false} CountsAreSizes(s: seq<Event>)
    requires Distinct(s)
    ensures CountTx(s) == |TxIn(s)| && CountFinal(s) == |FinalIn(s)|
  {
    if s == [] {
      assert TxIn(s) == {} && FinalIn(s) == {};
    } else {
      var init, e := s[..|s| - 1], s[|s| - 1];
      assert s == init + [e];
      CountsAreSizes(init);
      OneMoreTx(init, e);
      OneMoreFinal(init, e);
    }
  }

  /** The transmission a final event answers. */
  function Origin(c: Config, e: Event): Event
    requires Owner(e).Some?
  {
    HopKinds(c, Owner(e).value);
    Hops(c, Owner(e).value)[0]
  }

  ghost predicate EndsKnown(c: Config, finals: set<Event>) {
    forall e :: e in finals ==> e in Ordered(c) && IsFinal(e) && Owner(e).Some?
  }

  lemma FinalsAreOwned(c: Config, e: Event)
    requires e in Ordered(c) && IsFinal(e)
    ensures Owner(e).Some? && e in Hops(c, Owner(e).value) && Owner(e).value in Sent(c)
  {
    Members(c, e);
    ControlEventsAre(c);
    var p :| p in Sent(c) && e in Hops(c, p);
    HopsAreOwned(c, p);
  }

  /** Different final events answer different transmissions. */
  lemma OriginIsInjective(c: Config, d: Event, e: Event)
    requires d in Ordered(c) && e in Ordered(c) && IsFinal(d) && IsFinal(e)
    requires Owner(d).Some? && Owner(e).Some? && Origin(c, d) == Origin(c, e)
    ensures d == e
  {
    FinalsAreOwned(c, d);
    FinalsAreOwned(c, e);
    var p, q := Owner(d).value, Owner(e).value;
    HopKinds(c, p);
    HopKinds(c, q);
    HopsAreOwned(c, p);
    HopsAreOwned(c, q);
    assert Origin(c, d) in Hops(c, p) && Origin(c, e) in Hops(c, q);
  }

  lemma {:induction false} ImageSize(c: Config, finals: set<Event>, txs: set<Event>)
    requires EndsKnown(c, finals)
    requires forall e :: e in finals ==> Origin(c, e) in txs
    ensures |finals| <= |txs|
    decreases |finals|
  {
    if finals != {} {
      var d :| d in finals;
      forall e | e in finals - {d} ensures Origin(c, e) in txs - {Origin(c, d)} {
        if Origin(c, e) == Origin(c, d) { OriginIsInjective(c, d, e); }
      }
      ImageSize(c, finals - {d}, txs - {Origin(c, d)});
    }
  }

  /** Conservation in every prefix: never more packets ended than were transmitted. */
  lemma PrefixConserves(c: Config, n: nat)
    requires n <= |Trace(c)|
    ensures CountFinal(Trace(c)[..n]) <= CountTx(Trace(c)[..n])
  {
    TraceIsPrefix(c);
    OrderedDistinct(c);
    var s := Trace(c)[..n];
    assert s == Ordered(c)[..n];
    CountsAreSizes(s);
    forall e | e in FinalIn(s) ensures e in Ordered(c) && Owner(e).Some? && Origin(c, e) in TxIn(s) {
      OriginIsInPrefix(c, n, e);
    }
    ImageSize(c, FinalIn(s), TxIn(s));
  }

  lemma OriginIsInPrefix(c: Config, n: nat, e: Event)
    requires n <= |Ordered(c)| && e in Ordered(c)[..n] && IsFinal(e)
    ensures e in Ordered(c) && Owner(e).Some? && Origin(c, e) in Ordered(c)[..n] && Origin(c, e).kind.Tx?
  {
    assert e in Ordered(c);
    FinalsAreOwned(c, e);
    var p := Owner(e).value;
    HopKinds(c, p);
    HopTimesIncrease(c, p);
    var i :| 0 <= i < n && Ordered(c)[i] == e;
    assert Origin(c, e) in Hops(c, p);
    Members(c, Origin(c, e));
    var k := EarlierIsBefore(c, i, Origin(c, e));
  }

  // ----- the way through the network -----

  /** Each hop happens where the one before sent the packet, or at the queue it waits in. */
  predicate Follows(d: Event, e: Event) {
    && e.pktId == d.pktId && e.flow == d.flow && e.size == d.size
    && if d.kind.Enqueue? then e.kind.Dequeue? && e.node == d.node && e.peer == d.peer && e.qDepth == d.qDepth - 1
       else e.node == d.peer && !e.kind.Dequeue?
  }

  /** A packet's hops form one connected way, from its station to the sink or to the queue that drops it. */
  lemma PacketsFollowTheirWay(c: Config, p: Packet)
    ensures var hs := Hops(c, p);
            && |hs| > 0
            && hs[0].node == (if p.TsnPacket? then "STA0" else "STA1")
            && (hs[|hs| - 1].kind.Rx? ==> hs[|hs| - 1].node == "SINK")
            && (hs[|hs| - 1].kind.Drop? ==> hs[|hs| - 1].node == "C0")
            && forall a :: 0 <= a < |hs| - 1 ==> Follows(hs[a], hs[a + 1])
  {
    QueueDepths(c, p);
  }
}
