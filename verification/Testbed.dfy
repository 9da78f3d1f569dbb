/**
 The testbed of cer_intent/architect/dpir_marl_engine.py as values: topology,
 engine state, the commands that change it and the view computed from it.
 */
module Testbed {
  import opened Common
  import opened Links
  import opened IslandSearch
  import SP = ShortestPath

  datatype Phase = NormalDpir | Disaster4Islands | RecoveredMarl3Bridges

  datatype Bridge = Bridge(
    id: string,
    source: NodeId,
    target: NodeId,
    capacityMbps: Option<int>,
    capacityGbps: Option<real>,
    latencyMs: Option<real>,
    snrDb: Option<real>,
    modulation: Option<string>,
    steerAngleDeg: Option<real>)

  datatype FlowSpec = FlowSpec(
    id: string,
    source: NodeId,
    destination: NodeId,
    preferredMedia: Option<string>,
    requestedGbps: Option<real>,
    requestedMbps: Option<int>)

  datatype Topology = Topology(nodes: seq<Node>, links: seq<Link>, bridges: seq<Bridge>, flows: seq<FlowSpec>)

  const DEFAULT_FLOW_SPECS: seq<FlowSpec> := [
    FlowSpec("F1", "W1", "E1", Some("microwave"), Some(2.5), None),
    FlowSpec("F2", "W2", "E2", Some("tg_60ghz"), Some(1.0), None),
    FlowSpec("svc_W1_S", "W1", "S", Some("any"), None, Some(200)),
    FlowSpec("svc_W2_N", "W2", "N", Some("any"), None, Some(500))
  ]

  const DEFAULT_BRIDGE_LATENCY: real := 1.2
  const DEFAULT_REPORT_LATENCY: real := 0.5
  const DEFAULT_CAPACITY_MBPS: int := 1000

  /** The engine's fields but for the event history. */
  datatype State = State(topology: Topology, phase: Phase, cut: set<NodeId>, ignited: set<string>)

  // ----- commands -----

  predicate IsPduControlled(n: Node) {
    n.pduControlled || n.role == "core_hub" || n.role == "tg_ptmp_hub"
  }

  function DefaultCut(t: Topology): set<NodeId> {
    var pdu := set n | n in t.nodes && IsPduControlled(n) :: n.id;
    if pdu == {} then {"CORE", "HUB"} else pdu
  }

  /** Has every key the recovery record reads without a default. */
  predicate IsDescribed(b: Bridge) {
    b.snrDb.Some? && b.modulation.Some? && b.steerAngleDeg.Some?
  }

  function Candidates(t: Topology): set<string> {
    set b | b in t.bridges :: b.id
  }

  /** `cutNodes` is [] when the caller names no nodes. */
  function Disaster(s: State, cutNodes: seq<NodeId>): State {
    State(s.topology, Disaster4Islands, if cutNodes == [] then DefaultCut(s.topology) else Elems(cutNodes), {})
  }

  function Ignite(s: State, bridgeId: string): State {
    var firstSign := s.cut == {} && s.phase.NormalDpir?;
    var cut := if firstSign then DefaultCut(s.topology) else s.cut;
    var phase := if firstSign then Disaster4Islands else s.phase;
    var ignited := s.ignited + {bridgeId};
    var all := Candidates(s.topology);
    State(s.topology, if all != {} && all <= ignited then RecoveredMarl3Bridges else phase, cut, ignited)
  }

  function Recover(s: State): State {
    var cut := if s.cut == {} then DefaultCut(s.topology) else s.cut;
    State(s.topology, RecoveredMarl3Bridges, cut, Candidates(s.topology))
  }

  function Reset(s: State): State {
    State(s.topology, NormalDpir, {}, {})
  }

  datatype Command =
    | TriggerDisaster(cutNodes: seq<NodeId>)
    | IgniteBridge(bridgeId: string)
    | TriggerRecovery
    | ResetToNormal
    | LoadTopology(topology: Topology)

  function Step(s: State, c: Command): State {
    match c
    case TriggerDisaster(cutNodes) => Disaster(s, cutNodes)
    case IgniteBridge(bridgeId) => Ignite(s, bridgeId)
    case TriggerRecovery => Recover(s)
    case ResetToNormal => Reset(s)
    case LoadTopology(t) => Reset(s.(topology := t))
  }

  function Start(t: Topology): State {
    State(t, NormalDpir, {}, {})
  }

  function RunAll(s: State, cs: seq<Command>): State {
    if cs == [] then s else Step(RunAll(s, cs[..|cs| - 1]), cs[|cs| - 1])
  }

  // ----- the view -----

  predicate IsDisaster(s: State) {
    !s.phase.NormalDpir? || s.cut != {}
  }

  function ActiveCut(s: State): set<NodeId> {
    if IsDisaster(s) then s.cut else {}
  }

  function MarkNode(n: Node, cut: set<NodeId>): Node {
    n.(status := if n.id in cut then Destroyed else Alive)
  }

  function MarkLink(l: Link, cut: set<NodeId>): Link {
    l.(status := if l.source in cut || l.target in cut then Severed else Active)
  }

  predicate IsBridgeLive(s: State, b: Bridge) {
    b.id in s.ignited || s.phase.RecoveredMarl3Bridges?
  }

  function Truncate(x: real): int {
    if x >= 0.0 then x.Floor else -((-x).Floor)
  }

  function BridgeLink(b: Bridge): Link {
    Link(b.id, Some(b.id + " (" + b.source + "<->" + b.target + ")"), b.source, b.target, "tg_60ghz_marl_bridge",
         Some(b.latencyMs.GetOr(DEFAULT_BRIDGE_LATENCY)),
         Some(b.capacityMbps.GetOr(Truncate(b.capacityGbps.GetOr(1.0) * 1000.0))), ActiveBridge)
  }

  function MarkNodes(nodes: seq<Node>, cut: set<NodeId>): (r: seq<Node>)
    ensures forall m :: m in r <==> exists n :: n in nodes && m == MarkNode(n, cut)
  {
    if nodes == [] then []
    else
      assert nodes == nodes[..|nodes| - 1] + [nodes[|nodes| - 1]];
      MarkNodes(nodes[..|nodes| - 1], cut) + [MarkNode(nodes[|nodes| - 1], cut)]
  }

  function MarkLinks(links: seq<Link>, cut: set<NodeId>): (r: seq<Link>)
    ensures forall k :: k in r <==> exists l :: l in links && k == MarkLink(l, cut)
  {
    if links == [] then []
    else
      assert links == links[..|links| - 1] + [links[|links| - 1]];
      MarkLinks(links[..|links| - 1], cut) + [MarkLink(links[|links| - 1], cut)]
  }

  function BridgeLinks(s: State, bridges: seq<Bridge>): (r: seq<Link>)
    ensures forall k :: k in r <==> exists b :: b in bridges && IsBridgeLive(s, b) && k == BridgeLink(b)
  {
    if bridges == [] then []
    else
      var init, b := bridges[..|bridges| - 1], bridges[|bridges| - 1];
      assert bridges == init + [b];
      BridgeLinks(s, init) + if IsBridgeLive(s, b) then [BridgeLink(b)] else []
  }

  function BridgeStates(s: State, bridges: seq<Bridge>): seq<bool> {
    if bridges == [] then []
    else BridgeStates(s, bridges[..|bridges| - 1]) + [IsBridgeLive(s, bridges[|bridges| - 1])]
  }

  function ViewNodes(s: State): seq<Node> {
    MarkNodes(s.topology.nodes, ActiveCut(s))
  }

  function ViewLinks(s: State): seq<Link> {
    MarkLinks(s.topology.links, ActiveCut(s)) + BridgeLinks(s, s.topology.bridges)
  }

  function IslandsOf(s: State): seq<seq<NodeId>> {
    Islands(LiveIds(ViewNodes(s)), ViewLinks(s))
  }

  // ----- flows -----

  datatype Throughput = Gbps(gbps: real) | Mbps(mbps: int)

  datatype FlowStatus =
    SeveredCoreHubDown | SeveredFlow | OptimalDpir | ActiveFlow | RecoveredMarlDirect | RecoveredMarlTree

  datatype FlowReport =
    | Unrouted(source: NodeId, destination: NodeId, throughput: Option<Throughput>, status: FlowStatus)
    | Routed(source: NodeId, destination: NodeId, path: seq<NodeId>, hops: seq<string>, media: Option<string>,
             rate: Throughput, latencyMs: real, status: FlowStatus)

  /** `min` over no links, which a flow from a node to itself runs into, and a key a bridge does not have. */
  datatype Failure = EmptyRoute | MissingKey

  function CapacityOf(l: Link): int {
    l.capacityMbps.GetOr(DEFAULT_CAPACITY_MBPS)
  }

  function Min(a: int, b: int): int {
    if a <= b then a else b
  }

  function MinReal(a: real, b: real): real {
    if a <= b then a else b
  }

  function Bottleneck(ls: seq<Link>): (r: int)
    requires ls != []
    ensures forall l :: l in ls ==> r <= CapacityOf(l)
    ensures exists l :: l in ls && r == CapacityOf(l)
  {
    var init, l := ls[..|ls| - 1], ls[|ls| - 1];
    assert ls == init + [l];
    if |ls| == 1 then CapacityOf(l) else Min(Bottleneck(init), CapacityOf(l))
  }

  function ReportLatency(ls: seq<Link>): real {
    if ls == [] then 0.0
    else ReportLatency(ls[..|ls| - 1]) + ls[|ls| - 1].latencyMs.GetOr(DEFAULT_REPORT_LATENCY)
  }

  function HopLabel(l: Link): string {
    if l.caption.Some? && l.caption.value != "" then l.caption.value else l.id
  }

  function HopLabels(ls: seq<Link>): seq<string> {
    seq(|ls|, i requires 0 <= i < |ls| => HopLabel(ls[i]))
  }

  predicate UsesBridge(ls: seq<Link>) {
    exists l :: l in ls && l.status.ActiveBridge?
  }

  function UnroutedReport(f: FlowSpec): FlowReport {
    if f.requestedGbps.Some? then
      Unrouted(f.source, f.destination, Some(Gbps(0.0)),
               if f.id == "F1" || f.id == "F2" then SeveredCoreHubDown else SeveredFlow)
    else
      Unrouted(f.source, f.destination, None, SeveredFlow)
  }

  function RateOf(f: FlowSpec, bottleneck: int): Throughput {
    if f.requestedGbps.Some? then Gbps(MinReal(f.requestedGbps.value, bottleneck as real / 1000.0))
    else
      var wanted := if f.requestedMbps.Some? && f.requestedMbps.value != 0 then f.requestedMbps.value else bottleneck;
      Mbps(Min(wanted, bottleneck))
  }

  function RoutedStatus(normal: bool, f: FlowSpec, ls: seq<Link>): FlowStatus {
    if normal && !UsesBridge(ls) then (if f.requestedGbps.Some? then OptimalDpir else ActiveFlow)
    else if |ls| == 1 then RecoveredMarlDirect
    else RecoveredMarlTree
  }

  function MediaLabel(normal: bool, f: FlowSpec, ls: seq<Link>): Option<string> {
    if normal && !UsesBridge(ls) && f.requestedGbps.Some? then
      Some(if f.preferredMedia == Some("microwave") then "microwave_ip50" else "tg_60ghz_hub")
    else None
  }

  function RoutedReport(normal: bool, f: FlowSpec, r: Route): FlowReport
    requires r.links != []
  {
    Routed(f.source, f.destination, r.nodes, HopLabels(r.links), MediaLabel(normal, f, r.links),
           RateOf(f, Bottleneck(r.links)), ReportLatency(r.links), RoutedStatus(normal, f, r.links))
  }

  function Report(normal: bool, f: FlowSpec, found: Option<Route>): Result<FlowReport, Failure> {
    if found.None? then Ok(UnroutedReport(f))
    else if found.value.links == [] then Err(EmptyRoute)
    else Ok(RoutedReport(normal, f, found.value))
  }

  function MetricOf(normal: bool, f: FlowSpec): SP.Metric {
    SP.Metric(normal, f.preferredMedia)
  }

  function FlowRoute(normal: bool, f: FlowSpec, links: seq<Link>): Option<Route>
    requires SP.NonNegativeLatencies(links)
  {
    SP.ShortestRoute(links, MetricOf(normal, f), f.source, f.destination)
  }

  /** The results dict after the given flow specs, in order; a failing flow ends the whole computation. */
  function FlowReports(normal: bool, flows: seq<FlowSpec>, links: seq<Link>): Result<map<string, FlowReport>, Failure>
    requires SP.NonNegativeLatencies(links)
  {
    if flows == [] then Ok(map[])
    else
      var f := flows[|flows| - 1];
      match FlowReports(normal, flows[..|flows| - 1], links)
      case Err(e) => Err(e)
      case Ok(results) =>
        match Report(normal, f, FlowRoute(normal, f, links))
        case Err(e) => Err(e)
        case Ok(report) => Ok(results[f.id := report])
  }

  function FlowSpecs(t: Topology): seq<FlowSpec> {
    if t.flows == [] then DEFAULT_FLOW_SPECS else t.flows
  }

  // ----- latencies -----

  /** Dijkstra's own demand on the topology: no link or bridge has a negative latency. */
  ghost predicate NonNegative(t: Topology) {
    && SP.NonNegativeLatencies(t.links)
    && forall b :: b in t.bridges ==> b.latencyMs.GetOr(DEFAULT_BRIDGE_LATENCY) >= 0.0
  }

  lemma ViewLatencies(s: State)
    requires NonNegative(s.topology)
    ensures SP.NonNegativeLatencies(ViewLinks(s))
  {
    forall k | k in ViewLinks(s) ensures k.latencyMs.GetOr(SP.DEFAULT_SEARCH_LATENCY) >= 0.0 {
      if k in MarkLinks(s.topology.links, ActiveCut(s)) {
        var l :| l in s.topology.links && k == MarkLink(l, ActiveCut(s));
      } else {
        var b :| b in s.topology.bridges && IsBridgeLive(s, b) && k == BridgeLink(b);
      }
    }
  }

  datatype View = View(
    phase: Phase,
    nodes: seq<Node>,
    links: seq<Link>,
    bridges: seq<bool>,
    islands: seq<seq<NodeId>>,
    flows: map<string, FlowReport>)

  function ViewOf(s: State): Result<View, Failure>
    requires NonNegative(s.topology)
  {
    ViewLatencies(s);
    match FlowReports(s.phase.NormalDpir?, FlowSpecs(s.topology), ViewLinks(s))
    case Err(e) => Err(e)
    case Ok(flows) =>
      Ok(View(s.phase, ViewNodes(s), ViewLinks(s), BridgeStates(s, s.topology.bridges), IslandsOf(s), flows))
  }
}
