/** What each command does to the nodes, bridges and links a view shows. */
module TestbedCommands {
  import opened Common
  import opened Links
  import opened IslandSearch
  import opened Testbed
  import opened TestbedProperties

  // ----- nodes -----

  /** The node is PDU-controlled or a hub. */
  ghost predicate HasPdu(t: Topology, v: NodeId) {
    exists n :: n in t.nodes && n.id == v && (n.pduControlled || n.role == "core_hub" || n.role == "tg_ptmp_hub")
  }

  /** What a disaster takes down that names no nodes: PDU-controlled nodes and hubs, or else CORE and HUB. */
  ghost predicate IsDefaultTarget(t: Topology, v: NodeId) {
    if exists u :: HasPdu(t, u) then HasPdu(t, v) else v == "CORE" || v == "HUB"
  }

  ghost predicate IsDown(s: State, v: NodeId) {
    v !in LiveIds(ViewNodes(s))
  }

  lemma DefaultCutIs(t: Topology, v: NodeId)
    ensures v in DefaultCut(t) <==> IsDefaultTarget(t, v)
  {
    var pdu := set n | n in t.nodes && IsPduControlled(n) :: n.id;
    assert forall u :: HasPdu(t, u) <==> u in pdu;
    if pdu != {} {
      var u :| u in pdu;
      assert HasPdu(t, u);
    }
  }

  lemma DeclaredIsDown(s: State, v: NodeId)
    requires IsDeclared(s.topology, v)
    ensures IsDown(s, v) <==> v in ActiveCut(s)
  {
    LiveSetIs(s, v);
  }

  /** A disaster takes down exactly the nodes it names, and, if it names none, the default targets. */
  lemma DisasterTakesDown(s: State, cutNodes: seq<NodeId>, v: NodeId)
    requires IsDeclared(s.topology, v)
    ensures IsDown(Disaster(s, cutNodes), v) <==>
            if cutNodes == [] then IsDefaultTarget(s.topology, v) else v in cutNodes
  {
    DeclaredIsDown(Disaster(s, cutNodes), v);
    DefaultCutIs(s.topology, v);
  }

  /** An ignition in normal operation starts with the default disaster; any other changes no node. */
  lemma IgnitionTakesDown(s: State, id: string, v: NodeId)
    requires Consistent(s) && IsDeclared(s.topology, v)
    ensures IsDown(Ignite(s, id), v) <==> if s.phase.NormalDpir? then IsDefaultTarget(s.topology, v) else IsDown(s, v)
  {
    DeclaredIsDown(s, v);
    DeclaredIsDown(Ignite(s, id), v);
    DefaultCutIs(s.topology, v);
  }

  /** And so does a recovery. */
  lemma RecoveryTakesDown(s: State, v: NodeId)
    requires Consistent(s) && IsDeclared(s.topology, v)
    ensures IsDown(Recover(s), v) <==> if s.phase.NormalDpir? then IsDefaultTarget(s.topology, v) else IsDown(s, v)
  {
    DeclaredIsDown(s, v);
    DeclaredIsDown(Recover(s), v);
    DefaultCutIs(s.topology, v);
  }

  /** After a reset nothing is down. */
  lemma ResetRestores(s: State, v: NodeId)
    requires IsDeclared(s.topology, v)
    ensures !IsDown(Reset(s), v)
  {
    DeclaredIsDown(Reset(s), v);
  }

  /** Loading a topology puts the engine where a new one with that topology starts; nothing else changes topology. */
  lemma LoadingStartsAfresh(s: State, c: Command)
    ensures if c.LoadTopology? then Step(s, c) == Start(c.topology) else Step(s, c).topology == s.topology
  {
  }

  // ----- bridges -----

  /** A disaster or a reset puts every bridge out, a recovery lights all, an ignition lights its own and no other. */
  lemma BridgesAfter(s: State, b: Bridge, cutNodes: seq<NodeId>, id: string)
    requires Consistent(s) && b in s.topology.bridges
    ensures !IsBridgeLive(Disaster(s, cutNodes), b) && !IsBridgeLive(Reset(s), b) && IsBridgeLive(Recover(s), b)
    ensures IsBridgeLive(Ignite(s, id), b) <==> IsBridgeLive(s, b) || b.id == id
  {
    assert b.id in Candidates(s.topology);
  }

  /** The phase after a command: only the last missing candidate makes an ignition complete the recovery. */
  lemma PhaseAfter(s: State, cutNodes: seq<NodeId>, id: string)
    requires Consistent(s)
    ensures Disaster(s, cutNodes).phase == Disaster4Islands
    ensures Recover(s).phase == RecoveredMarl3Bridges
    ensures Reset(s).phase == NormalDpir
    ensures Candidates(s.topology) != {} ==>
              Ignite(s, id).phase ==
              if forall b :: b in s.topology.bridges ==> b.id in s.ignited || b.id == id then RecoveredMarl3Bridges
              else Disaster4Islands
    ensures Candidates(s.topology) == {} ==>
              Ignite(s, id).phase == if s.phase.NormalDpir? then Disaster4Islands else s.phase
  {
    if forall b :: b in s.topology.bridges ==> b.id in s.ignited || b.id == id {
      assert Candidates(s.topology) <= s.ignited + {id};
    }
  }

  // ----- links -----

  /** The number of Mbps a bridge states, or the whole part of its Gbps in Mbps, or 1000. */
  ghost predicate IsCapacityOf(b: Bridge, mbps: int) {
    if b.capacityMbps.Some? then mbps == b.capacityMbps.value
    else
      var g := b.capacityGbps.GetOr(1.0);
      if g >= 0.0 then mbps as real <= 1000.0 * g < mbps as real + 1.0
      else mbps as real - 1.0 < 1000.0 * g <= mbps as real
  }

  /** The link of a lit bridge. */
  ghost predicate IsLinkOf(b: Bridge, k: Link) {
    && k.id == b.id && k.source == b.source && k.target == b.target
    && k.media == "tg_60ghz_marl_bridge" && k.latencyMs == Some(b.latencyMs.GetOr(1.2))
    && k.capacityMbps.Some? && IsCapacityOf(b, k.capacityMbps.value)
    && k.caption == Some(b.id + " (" + b.source + "<->" + b.target + ")") && k.status == ActiveBridge
  }

  lemma BridgeLinkIs(b: Bridge)
    ensures IsLinkOf(b, BridgeLink(b))
  {
  }

  /** A base link of the topology, or the link of one of its candidates, as a view shows it. */
  ghost predicate IsShown(s: State, k: Link) {
    || (exists l :: l in s.topology.links && l.source !in s.cut && l.target !in s.cut && k == l.(status := Active))
    || (exists b :: b in s.topology.bridges && b.id in s.ignited && k == BridgeLink(b))
  }

  lemma ShownLinks(s: State, k: Link)
    requires Consistent(s)
    ensures k in UsableLinks(ViewLinks(s)) ==> IsShown(s, k)
  {
    if k in UsableLinks(ViewLinks(s)) {
      if k in MarkLinks(s.topology.links, ActiveCut(s)) {
        var l :| l in s.topology.links && k == MarkLink(l, ActiveCut(s));
        assert k == l.(status := Active);
      } else {
        var b :| b in s.topology.bridges && IsBridgeLive(s, b) && k == BridgeLink(b);
        assert b.id in Candidates(s.topology);
      }
    }
  }

  lemma LinksShown(s: State, k: Link)
    requires Consistent(s) && IsShown(s, k)
    ensures k in UsableLinks(ViewLinks(s))
  {
    if l :| l in s.topology.links && l.source !in s.cut && l.target !in s.cut && k == l.(status := Active) {
      assert k == MarkLink(l, ActiveCut(s));
    } else {
      var b :| b in s.topology.bridges && b.id in s.ignited && k == BridgeLink(b);
      assert IsBridgeLive(s, b);
    }
  }

  /** What traffic can use: the base links with no end cut, and one link for every candidate that is lit. */
  lemma UsableLinksAre(s: State, k: Link)
    requires Consistent(s)
    ensures k in UsableLinks(ViewLinks(s)) <==> IsShown(s, k)
    ensures forall b :: b in s.topology.bridges && b.id in s.ignited ==>
              exists k' :: k' in UsableLinks(ViewLinks(s)) && IsLinkOf(b, k')
  {
    ShownLinks(s, k);
    if IsShown(s, k) { LinksShown(s, k); }
    forall b | b in s.topology.bridges && b.id in s.ignited
      ensures exists k' :: k' in UsableLinks(ViewLinks(s)) && IsLinkOf(b, k')
    {
      BridgeLinkIs(b);
      assert IsShown(s, BridgeLink(b));
      LinksShown(s, BridgeLink(b));
    }
  }
}
