/** What the flow reports of a view say about the routes behind them. */
module TestbedFlows {
  import opened Common
  import opened Links
  import opened Testbed
  import opened TestbedProperties
  import SP = ShortestPath

  /** get_state fails exactly when some flow runs from a node to itself. */
  lemma ViewFailsExactly(s: State)
    requires NonNegative(s.topology)
    ensures ViewOf(s).Ok? <==> forall f :: f in FlowSpecs(s.topology) ==> f.source != f.destination
    ensures ViewOf(s).Err? ==> ViewOf(s).error == EmptyRoute
  {
    ViewLatencies(s);
    ReportsFailExactly(s.phase.NormalDpir?, FlowSpecs(s.topology), ViewLinks(s));
  }

  lemma RouteLinksEmptyExactly(normal: bool, f: FlowSpec, links: seq<Link>)
    requires SP.NonNegativeLatencies(links)
    ensures Report(normal, f, FlowRoute(normal, f, links)) == Err(EmptyRoute) <==> f.source == f.destination
    ensures Report(normal, f, FlowRoute(normal, f, links)).Err? ==> f.source == f.destination
  {
    var m := MetricOf(normal, f);
    SP.ShortestRouteCorrect(links, m, f.source, f.destination);
    if f.source == f.destination {
      SP.RouteToItself(links, m, f.source);
    }
  }

  lemma {:induction false} ReportsFailExactly(normal: bool, flows: seq<FlowSpec>, links: seq<Link>)
    requires SP.NonNegativeLatencies(links)
    ensures FlowReports(normal, flows, links).Ok? <==> forall f :: f in flows ==> f.source != f.destination
    ensures FlowReports(normal, flows, links).Err? ==> FlowReports(normal, flows, links).error == EmptyRoute
  {
    if flows != [] {
      var init, f := flows[..|flows| - 1], flows[|flows| - 1];
      assert flows == init + [f];
      ReportsFailExactly(normal, init, links);
      RouteLinksEmptyExactly(normal, f, links);
    }
  }

  ghost predicate FlowIdsUnique(flows: seq<FlowSpec>) {
    forall i, j :: 0 <= i < j < |flows| ==> flows[i].id != flows[j].id
  }

  lemma LastReport(normal: bool, flows: seq<FlowSpec>, links: seq<Link>, id: string)
    requires SP.NonNegativeLatencies(links) && flows != [] && FlowReports(normal, flows, links).Ok?
    ensures var f, before := flows[|flows| - 1], FlowReports(normal, flows[..|flows| - 1], links);
            && before.Ok?
            && if id == f.id then
                 id in FlowReports(normal, flows, links).value &&
                 Report(normal, f, FlowRoute(normal, f, links)) == Ok(FlowReports(normal, flows, links).value[id])
               else
                 id in before.value ==>
                   id in FlowReports(normal, flows, links).value &&
                   FlowReports(normal, flows, links).value[id] == before.value[id]
  {
  }

  lemma EarlierIdDiffers(flows: seq<FlowSpec>, f: FlowSpec)
    requires FlowIdsUnique(flows) && f in flows && f != flows[|flows| - 1]
    ensures f in flows[..|flows| - 1] && f.id != flows[|flows| - 1].id
  {
  }

  lemma {:induction false} ReportOfFlow(normal: bool, flows: seq<FlowSpec>, links: seq<Link>, f: FlowSpec)
    requires SP.NonNegativeLatencies(links) && FlowIdsUnique(flows) && f in flows
    requires FlowReports(normal, flows, links).Ok?
    ensures f.id in FlowReports(normal, flows, links).value
    ensures Report(normal, f, FlowRoute(normal, f, links)) == Ok(FlowReports(normal, flows, links).value[f.id])
  {
    LastReport(normal, flows, links, f.id);
    if f != flows[|flows| - 1] {
      EarlierIdDiffers(flows, f);
      ReportOfFlow(normal, flows[..|flows| - 1], links, f);
    }
  }

  /** A rate in Mbps, whichever unit the flow was requested in. */
  function InMbps(t: Throughput): real {
    match t
    case Gbps(g) => g * 1000.0
    case Mbps(m) => m as real
  }

  ghost predicate WithinCapacity(t: Throughput, ls: seq<Link>) {
    forall l :: l in ls ==> InMbps(t) <= l.capacityMbps.GetOr(1000) as real
  }

  /** No more than requested, in Gbps or, failing that, in a non-zero number of Mbps. */
  predicate WithinRequest(t: Throughput, f: FlowSpec) {
    && (f.requestedGbps.Some? ==> InMbps(t) <= f.requestedGbps.value * 1000.0)
    && (f.requestedGbps.None? && f.requestedMbps.Some? && f.requestedMbps.value != 0 ==>
          InMbps(t) <= f.requestedMbps.value as real)
  }

  /** The rate is one of its two limits, not just below them. */
  ghost predicate IsTight(t: Throughput, f: FlowSpec, ls: seq<Link>) {
    || (exists l :: l in ls && InMbps(t) == l.capacityMbps.GetOr(1000) as real)
    || (f.requestedGbps.Some? && InMbps(t) == f.requestedGbps.value * 1000.0)
    || (f.requestedGbps.None? && f.requestedMbps.Some? && f.requestedMbps.value != 0 &&
        InMbps(t) == f.requestedMbps.value as real)
  }

  /** The media preference of a flow is in force: in normal operation, if it has one. */
  predicate IsPicky(normal: bool, f: FlowSpec) {
    normal && f.preferredMedia.Some? && f.preferredMedia.value != "any" && f.preferredMedia.value != ""
  }

  /** Latency, and 10 ms for every link off the preferred media while a preference is in force. */
  ghost function Burden(normal: bool, f: FlowSpec, ls: seq<Link>): real {
    SP.Latency(ls) + if IsPicky(normal, f) then 10.0 * SP.Detours(f.preferredMedia.value, ls) as real else 0.0
  }

  lemma BurdenIsCost(normal: bool, f: FlowSpec, ls: seq<Link>)
    ensures SP.RouteCost(MetricOf(normal, f), ls) == Burden(normal, f, ls)
  {
    SP.CostSplits(MetricOf(normal, f), ls);
  }

  ghost predicate IsLightest(links: seq<Link>, normal: bool, f: FlowSpec, r: Route) {
    forall w :: IsWalkFrom(UsableLinks(links), f.source, f.destination, w) ==>
      Burden(normal, f, r.links) <= Burden(normal, f, w.links)
  }

  lemma CheapestIsLightest(links: seq<Link>, normal: bool, f: FlowSpec, r: Route)
    requires SP.IsCheapest(links, MetricOf(normal, f), f.source, f.destination, r)
    ensures IsLightest(links, normal, f, r)
  {
    BurdenIsCost(normal, f, r.links);
    forall w | IsWalkFrom(UsableLinks(links), f.source, f.destination, w)
      ensures Burden(normal, f, r.links) <= Burden(normal, f, w.links)
    {
      BurdenIsCost(normal, f, w.links);
    }
  }

  /** A hop is shown by the caption of its link, or by its id where the caption is missing or empty. */
  ghost predicate AreHops(hops: seq<string>, ls: seq<Link>) {
    && |hops| == |ls|
    && forall i :: 0 <= i < |ls| ==>
         hops[i] == if ls[i].caption.Some? && ls[i].caption.value != "" then ls[i].caption.value else ls[i].id
  }

  /** A routed report describes a cheapest chain of usable links and promises no more than each can carry. */
  ghost predicate Describes(report: FlowReport, normal: bool, f: FlowSpec, links: seq<Link>, r: Route) {
    && report.Routed?
    && IsWalkFrom(UsableLinks(links), f.source, f.destination, r)
    && IsLightest(links, normal, f, r)
    && report.path == r.nodes && AreHops(report.hops, r.links)
    && report.latencyMs == ReportLatency(r.links)
    && WithinCapacity(report.rate, r.links) && WithinRequest(report.rate, f) && IsTight(report.rate, f, r.links)
  }

  lemma RateFits(f: FlowSpec, ls: seq<Link>)
    requires ls != []
    ensures WithinCapacity(RateOf(f, Bottleneck(ls)), ls) && IsTight(RateOf(f, Bottleneck(ls)), f, ls)
    ensures WithinRequest(RateOf(f, Bottleneck(ls)), f)
  {
  }

  /** In every view: a flow is reported routed exactly when its ends are connected, and then truthfully. */
  lemma ReportsAreTruthful(s: State, f: FlowSpec)
    requires NonNegative(s.topology) && ViewOf(s).Ok?
    requires FlowIdsUnique(FlowSpecs(s.topology)) && f in FlowSpecs(s.topology)
    ensures f.id in ViewOf(s).value.flows
    ensures var report, links := ViewOf(s).value.flows[f.id], ViewLinks(s);
            && (report.Routed? <==> Connected(UsableLinks(links), f.source, f.destination))
            && (report.Routed? ==> exists r :: Describes(report, s.phase.NormalDpir?, f, links, r))
  {
    ViewLatencies(s);
    var normal, links := s.phase.NormalDpir?, ViewLinks(s);
    ReportOfFlow(normal, FlowSpecs(s.topology), links, f);
    SP.ShortestRouteCorrect(links, MetricOf(normal, f), f.source, f.destination);
    var found := FlowRoute(normal, f, links);
    if found.Some? {
      RateFits(f, found.value.links);
      CheapestIsLightest(links, normal, f, found.value);
      assert Describes(ViewOf(s).value.flows[f.id], normal, f, links, found.value);
    }
  }

  // ----- two defaults for a missing latency -----

  function Unstated(ls: seq<Link>): nat {
    if ls == [] then 0 else Unstated(ls[..|ls| - 1]) + if ls[|ls| - 1].latencyMs.None? then 1 else 0
  }

  lemma {:induction false} LatencyDefaultsDiffer(ls: seq<Link>)
    ensures ReportLatency(ls) == SP.Latency(ls) - 0.5 * Unstated(ls) as real
  {
    if ls != [] {
      LatencyDefaultsDiffer(ls[..|ls| - 1]);
    }
  }

  lemma {:induction false} LatencyIsCost(m: SP.Metric, ls: seq<Link>)
    requires !SP.HasPreference(m)
    ensures SP.RouteCost(m, ls) == SP.Latency(ls)
  {
    if ls != [] {
      LatencyIsCost(m, ls[..|ls| - 1]);
    }
  }

  lemma RoutedReportIs(s: State, f: FlowSpec)
    requires NonNegative(s.topology) && ViewOf(s).Ok?
    requires FlowIdsUnique(FlowSpecs(s.topology)) && f in FlowSpecs(s.topology)
    ensures f.id in ViewOf(s).value.flows && SP.NonNegativeLatencies(ViewLinks(s))
    ensures var report, found := ViewOf(s).value.flows[f.id], FlowRoute(s.phase.NormalDpir?, f, ViewLinks(s));
            && (report.Routed? <==> found.Some?)
            && (report.Routed? ==>
                  report.path == found.value.nodes && report.latencyMs == ReportLatency(found.value.links))
  {
    ViewLatencies(s);
    ReportOfFlow(s.phase.NormalDpir?, FlowSpecs(s.topology), ViewLinks(s), f);
  }

  /**
   A view reports for a routed flow the latency the search saw less half a millisecond for every link of the route
   that states none; so it is the searched latency exactly when every link of the route states its own.
   */
  lemma ReportedLatencyExactly(s: State, f: FlowSpec)
    requires NonNegative(s.topology) && ViewOf(s).Ok?
    requires FlowIdsUnique(FlowSpecs(s.topology)) && f in FlowSpecs(s.topology)
    ensures f.id in ViewOf(s).value.flows && SP.NonNegativeLatencies(ViewLinks(s))
    ensures var report, found := ViewOf(s).value.flows[f.id], FlowRoute(s.phase.NormalDpir?, f, ViewLinks(s));
            report.Routed? ==>
              && found.Some?
              && report.latencyMs == SP.Latency(found.value.links) - 0.5 * Unstated(found.value.links) as real
              && (report.latencyMs == SP.Latency(found.value.links) <==>
                  forall l :: l in found.value.links ==> l.latencyMs.Some?)
  {
    RoutedReportIs(s, f);
    var found := FlowRoute(s.phase.NormalDpir?, f, ViewLinks(s));
    if found.Some? {
      LatencyDefaultsDiffer(found.value.links);
      NoneUnstated(found.value.links);
    }
  }

  lemma StatedInView(s: State)
    requires forall l :: l in s.topology.links ==> l.latencyMs.Some?
    ensures forall k :: k in ViewLinks(s) ==> k.latencyMs.Some?
  {
    forall k | k in ViewLinks(s) ensures k.latencyMs.Some? {
      if k in MarkLinks(s.topology.links, ActiveCut(s)) {
        var l :| l in s.topology.links && k == MarkLink(l, ActiveCut(s));
      } else {
        var b :| b in s.topology.bridges && IsBridgeLive(s, b) && k == BridgeLink(b);
      }
    }
  }

  /**
   For a flow whose media preference is not in force, so for every flow outside normal operation: if all topology
   links state their latency, no usable walk between its ends is faster than the latency reported.
   */
  lemma ReportedLatencyIsLeast(s: State, f: FlowSpec, w: Route)
    requires NonNegative(s.topology) && ViewOf(s).Ok?
    requires FlowIdsUnique(FlowSpecs(s.topology)) && f in FlowSpecs(s.topology)
    requires forall l :: l in s.topology.links ==> l.latencyMs.Some?
    requires !IsPicky(s.phase.NormalDpir?, f)
    requires IsWalkFrom(UsableLinks(ViewLinks(s)), f.source, f.destination, w)
    ensures f.id in ViewOf(s).value.flows
    ensures var report := ViewOf(s).value.flows[f.id]; report.Routed? && report.latencyMs <= SP.Latency(w.links)
  {
    var m, links := MetricOf(s.phase.NormalDpir?, f), ViewLinks(s);
    RoutedReportIs(s, f);
    SP.ShortestRouteCorrect(links, m, f.source, f.destination);
    assert Connected(UsableLinks(links), f.source, f.destination);
    var r := FlowRoute(s.phase.NormalDpir?, f, links).value;
    StatedInView(s);
    SP.WalkUsesLinks(links, f.source, f.destination, r);
    ReportedLatencyExactly(s, f);
    LatencyIsCost(m, r.links);
    LatencyIsCost(m, w.links);
  }

  lemma {:induction false} NoneUnstated(ls: seq<Link>)
    ensures Unstated(ls) == 0 <==> forall l :: l in ls ==> l.latencyMs.Some?
  {
    if ls != [] {
      NoneUnstated(ls[..|ls| - 1]);
      assert ls == ls[..|ls| - 1] + [ls[|ls| - 1]];
    }
  }

  // ----- statuses and phases -----

  lemma NormalRoutesUseNoBridge(s: State, u: NodeId, v: NodeId, r: Route)
    requires Consistent(s) && s.phase.NormalDpir? && IsWalkFrom(UsableLinks(ViewLinks(s)), u, v, r)
    ensures !UsesBridge(r.links)
  {
    assert forall b :: b in s.topology.bridges ==> !IsBridgeLive(s, b);
    assert forall k :: k in ViewLinks(s) ==> k in MarkLinks(s.topology.links, ActiveCut(s));
    SP.WalkUsesLinks(ViewLinks(s), u, v, r);
  }

  /** In every reachable state the status of a routed flow tells whether the testbed is in normal operation. */
  lemma StatusTellsPhase(t: Topology, cs: seq<Command>, f: FlowSpec)
    requires var s := RunAll(Start(t), cs);
             && NonNegative(s.topology) && ViewOf(s).Ok?
             && FlowIdsUnique(FlowSpecs(s.topology)) && f in FlowSpecs(s.topology)
    ensures var s := RunAll(Start(t), cs);
            && f.id in ViewOf(s).value.flows
            && var report := ViewOf(s).value.flows[f.id];
               report.Routed? ==> (report.status.OptimalDpir? || report.status.ActiveFlow? <==> s.phase.NormalDpir?)
  {
    var s := RunAll(Start(t), cs);
    ReachableIsConsistent(t, cs);
    ViewLatencies(s);
    ReportOfFlow(s.phase.NormalDpir?, FlowSpecs(s.topology), ViewLinks(s), f);
    var found := FlowRoute(s.phase.NormalDpir?, f, ViewLinks(s));
    if found.Some? && s.phase.NormalDpir? {
      SP.ShortestRouteCorrect(ViewLinks(s), MetricOf(true, f), f.source, f.destination);
      NormalRoutesUseNoBridge(s, f.source, f.destination, found.value);
    }
  }

  // ----- the other fields of a report -----

  lemma FlowIsReported(s: State, f: FlowSpec)
    requires NonNegative(s.topology) && ViewOf(s).Ok?
    requires FlowIdsUnique(FlowSpecs(s.topology)) && f in FlowSpecs(s.topology)
    ensures f.id in ViewOf(s).value.flows && SP.NonNegativeLatencies(ViewLinks(s))
    ensures Report(s.phase.NormalDpir?, f, FlowRoute(s.phase.NormalDpir?, f, ViewLinks(s))) ==
            Ok(ViewOf(s).value.flows[f.id])
  {
    ViewLatencies(s);
    ReportOfFlow(s.phase.NormalDpir?, FlowSpecs(s.topology), ViewLinks(s), f);
  }

  /**
   A report names the ends of its flow.  A flow without a route carries nothing, and F1 and F2 blame the hub for it
   if they ask for Gbps; the rate of any other is in Gbps exactly when that is what the flow asks for.
   */
  lemma ReportsNameTheirFlow(s: State, f: FlowSpec)
    requires NonNegative(s.topology) && ViewOf(s).Ok?
    requires FlowIdsUnique(FlowSpecs(s.topology)) && f in FlowSpecs(s.topology)
    ensures f.id in ViewOf(s).value.flows
    ensures var report := ViewOf(s).value.flows[f.id];
            && report.source == f.source && report.destination == f.destination
            && (report.Routed? ==> (report.rate.Gbps? <==> f.requestedGbps.Some?))
            && (report.Unrouted? ==>
                  && (report.status == SeveredCoreHubDown <==>
                      f.requestedGbps.Some? && (f.id == "F1" || f.id == "F2"))
                  && (report.status == SeveredCoreHubDown || report.status == SeveredFlow)
                  && report.throughput == if f.requestedGbps.Some? then Some(Gbps(0.0)) else None)
  {
    FlowIsReported(s, f);
  }

  /**
   In reachable states the status says more: in normal operation whether the flow asks for Gbps, and afterwards
   whether its path is a single hop.  Only the former name a medium: microwave exactly for flows that prefer it.
   */
  lemma StatusTellsKind(s: State, f: FlowSpec)
    requires Consistent(s) && NonNegative(s.topology) && ViewOf(s).Ok?
    requires FlowIdsUnique(FlowSpecs(s.topology)) && f in FlowSpecs(s.topology)
    ensures f.id in ViewOf(s).value.flows
    ensures var report := ViewOf(s).value.flows[f.id];
            report.Routed? ==>
              && report.status == (if s.phase.NormalDpir? then
                                     (if f.requestedGbps.Some? then OptimalDpir else ActiveFlow)
                                   else if |report.path| == 2 then RecoveredMarlDirect
                                   else RecoveredMarlTree)
              && (report.media.Some? <==> s.phase.NormalDpir? && f.requestedGbps.Some?)
              && (report.media.Some? ==>
                    report.media.value ==
                    if f.preferredMedia == Some("microwave") then "microwave_ip50" else "tg_60ghz_hub")
  {
    FlowIsReported(s, f);
    var normal := s.phase.NormalDpir?;
    var found := FlowRoute(normal, f, ViewLinks(s));
    if found.Some? {
      SP.ShortestRouteCorrect(ViewLinks(s), MetricOf(normal, f), f.source, f.destination);
      if normal { NormalRoutesUseNoBridge(s, f.source, f.destination, found.value); }
    }
  }
}
