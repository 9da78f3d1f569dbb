/** OptionATestbedEngine: the object, its methods and the loops inside them. */
module TestbedEngine {
  import opened Common
  import opened Links
  import opened IslandSearch
  import opened Testbed
  import SP = ShortestPath

  datatype Event =
    | DisasterCut(cutNodes: set<NodeId>, islands: seq<seq<NodeId>>)
    | BridgesIgnited(bridges: seq<Bridge>, treeRestored: bool)

  method MarkedNodes(nodes: seq<Node>, cut: set<NodeId>) returns (r: seq<Node>)
    ensures r == MarkNodes(nodes, cut)
  {
    r := [];
    for i := 0 to |nodes|
      invariant r == MarkNodes(nodes[..i], cut)
    {
      assert nodes[..i + 1][..i] == nodes[..i];
      r := r + [nodes[i].(status := if nodes[i].id in cut then Destroyed else Alive)];
    }
    assert nodes[..|nodes|] == nodes;
  }

  method MarkedLinks(links: seq<Link>, cut: set<NodeId>) returns (r: seq<Link>)
    ensures r == MarkLinks(links, cut)
  {
    r := [];
    for i := 0 to |links|
      invariant r == MarkLinks(links[..i], cut)
    {
      assert links[..i + 1][..i] == links[..i];
      var severed := links[i].source in cut || links[i].target in cut;
      r := r + [links[i].(status := if severed then Severed else Active)];
    }
    assert links[..|links|] == links;
  }

  /** The loop over the candidate bridges: links for the live ones, a status for each. */
  method LitBridges(ghost s: State, bridges: seq<Bridge>, ignited: set<string>, phase: Phase)
    returns (links: seq<Link>, live: seq<bool>)
    requires s.ignited == ignited && s.phase == phase
    ensures links == BridgeLinks(s, bridges) && live == BridgeStates(s, bridges)
  {
    links, live := [], [];
    for i := 0 to |bridges|
      invariant links == BridgeLinks(s, bridges[..i]) && live == BridgeStates(s, bridges[..i])
    {
      assert bridges[..i + 1][..i] == bridges[..i];
      if bridges[i].id in ignited || phase == RecoveredMarl3Bridges {
        links := links + [BridgeLink(bridges[i])];
        live := live + [true];
      } else {
        live := live + [false];
      }
    }
    assert bridges[..|bridges|] == bridges;
  }

  method ComputeFlows(normal: bool, flows: seq<FlowSpec>, links: seq<Link>)
    returns (r: Result<map<string, FlowReport>, Failure>)
    requires SP.NonNegativeLatencies(links)
    ensures r == FlowReports(normal, flows, links)
  {
    var results: map<string, FlowReport> := map[];
    for i := 0 to |flows|
      invariant FlowReports(normal, flows[..i], links) == Ok(results)
    {
      assert flows[..i + 1][..i] == flows[..i];
      var f := flows[i];
      var found := SP.FindShortestPath(links, MetricOf(normal, f), f.source, f.destination);
      match Report(normal, f, found)
      case Err(e) =>
        FailurePersists(normal, flows, links, i + 1);
        return Err(e);
      case Ok(report) =>
        results := results[f.id := report];
    }
    assert flows[..|flows|] == flows;
    return Ok(results);
  }

  lemma {:induction false} FailurePersists(normal: bool, flows: seq<FlowSpec>, links: seq<Link>, i: nat)
    requires SP.NonNegativeLatencies(links) && i <= |flows|
    requires FlowReports(normal, flows[..i], links).Err?
    ensures FlowReports(normal, flows, links) == FlowReports(normal, flows[..i], links)
    decreases |flows| - i
  {
    if i < |flows| {
      assert flows[..i + 1][..i] == flows[..i];
      FailurePersists(normal, flows, links, i + 1);
    } else {
      assert flows[..i] == flows;
    }
  }

  class OptionATestbedEngine {
    var topology: Topology
    var phase: Phase
    var cutNodeIds: set<NodeId>
    var ignitedBridgeIds: set<string>
    var history: seq<Event>

    ghost function Snapshot(): State
      reads this
    {
      State(topology, phase, cutNodeIds, ignitedBridgeIds)
    }

    constructor (t: Topology)
      ensures Snapshot() == Start(t) && history == []
    {
      topology, phase, cutNodeIds, ignitedBridgeIds, history := t, NormalDpir, {}, {}, [];
    }

    method GetState() returns (view: Result<View, Failure>)
      requires NonNegative(topology)
      ensures view == ViewOf(Snapshot())
    {
      ghost var s := Snapshot();
      var isDisaster := phase == Disaster4Islands || phase == RecoveredMarl3Bridges || cutNodeIds != {};
      var activeCut := if isDisaster then cutNodeIds else {};
      var nodes := MarkedNodes(topology.nodes, activeCut);
      var links := MarkedLinks(topology.links, activeCut);
      var bridgeLinks, bridges := LitBridges(s, topology.bridges, ignitedBridgeIds, phase);
      links := links + bridgeLinks;
      ViewLatencies(s);
      var islands := ComputeIslands(nodes, links);
      var flows := ComputeFlows(phase == NormalDpir, FlowSpecs(topology), links);
      match flows
      case Err(e) => return Err(e);
      case Ok(reports) => return Ok(View(phase, nodes, links, bridges, islands, reports));
    }

    method TriggerDisaster(cutNodes: seq<NodeId>) returns (view: Result<View, Failure>)
      requires NonNegative(topology)
      modifies this
      ensures Snapshot() == Disaster(old(Snapshot()), cutNodes)
      ensures view == ViewOf(Snapshot())
      ensures history == old(history) + if view.Ok? then [DisasterCut(cutNodeIds, view.value.islands)] else []
    {
      phase := Disaster4Islands;
      cutNodeIds := if cutNodes != [] then Elems(cutNodes) else DefaultCut(topology);
      ignitedBridgeIds := {};
      view := GetState();
      if view.Ok? {
        history := history + [DisasterCut(cutNodeIds, view.value.islands)];
      }
    }

    method IgniteBridge(bridgeId: string) returns (view: Result<View, Failure>)
      requires NonNegative(topology)
      modifies this
      ensures Snapshot() == Ignite(old(Snapshot()), bridgeId)
      ensures view == ViewOf(Snapshot()) && history == old(history)
    {
      if cutNodeIds == {} && phase == NormalDpir {
        cutNodeIds := DefaultCut(topology);
        phase := Disaster4Islands;
      }
      ignitedBridgeIds := ignitedBridgeIds + {bridgeId};
      var all := Candidates(topology);
      if all != {} && all <= ignitedBridgeIds {
        phase := RecoveredMarl3Bridges;
      }
      view := GetState();
    }

    /** A bridge that lacks a key of the record makes the call fail after the state has changed. */
    method TriggerMarlRecovery() returns (view: Result<View, Failure>)
      requires NonNegative(topology)
      modifies this
      ensures Snapshot() == Recover(old(Snapshot()))
      ensures view == if ViewOf(Snapshot()).Ok? &&
                         exists b :: b in topology.bridges &&
                                     (b.snrDb.None? || b.modulation.None? || b.steerAngleDeg.None?)
                      then Err(MissingKey) else ViewOf(Snapshot())
      ensures history == old(history) +
                         if view.Ok? then [BridgesIgnited(topology.bridges, |view.value.islands| == 1)] else []
    {
      if cutNodeIds == {} {
        cutNodeIds := DefaultCut(topology);
      }
      phase := RecoveredMarl3Bridges;
      ignitedBridgeIds := Candidates(topology);
      view := GetState();
      if view.Ok? {
        if exists b :: b in topology.bridges && !IsDescribed(b) {
          return Err(MissingKey);
        }
        history := history + [BridgesIgnited(topology.bridges, |view.value.islands| == 1)];
      }
    }

    method ResetToNormal() returns (view: Result<View, Failure>)
      requires NonNegative(topology)
      modifies this
      ensures Snapshot() == Reset(old(Snapshot()))
      ensures view == ViewOf(Snapshot()) && history == old(history)
    {
      phase, cutNodeIds, ignitedBridgeIds := NormalDpir, {}, {};
      view := GetState();
    }

    method LoadCustomTopology(t: Topology) returns (view: Result<View, Failure>)
      requires NonNegative(t)
      modifies this
      ensures Snapshot() == Step(old(Snapshot()), LoadTopology(t))
      ensures view == ViewOf(Snapshot()) && history == old(history)
    {
      topology := t;
      view := ResetToNormal();
      if view.Ok? {
        view := GetState();
      }
    }
  }
}
