/** What holds of the testbed in every state and over every run of commands. */
module TestbedProperties {
  import opened Common
  import opened Links
  import opened IslandSearch
  import opened Testbed
  import SP = ShortestPath

  // ----- invariants of every run -----

  ghost predicate Consistent(s: State) {
    && (s.phase.NormalDpir? <==> s.cut == {})
    && (s.phase.NormalDpir? ==> s.ignited == {})
    && (Candidates(s.topology) != {} ==> (s.phase.RecoveredMarl3Bridges? <==> Candidates(s.topology) <= s.ignited))
  }

  lemma StepKeepsConsistent(s: State, c: Command)
    requires Consistent(s)
    ensures Consistent(Step(s, c))
  {
    match c
    case TriggerDisaster(cutNodes) =>
      if cutNodes != [] { assert cutNodes[0] in Elems(cutNodes); }
    case _ =>
  }

  /** Whatever commands are given, from the start: phase, cut set and ignited set stay in step. */
  lemma {:induction false} ReachableIsConsistent(t: Topology, cs: seq<Command>)
    ensures Consistent(RunAll(Start(t), cs))
  {
    if cs != [] {
      ReachableIsConsistent(t, cs[..|cs| - 1]);
      StepKeepsConsistent(RunAll(Start(t), cs[..|cs| - 1]), cs[|cs| - 1]);
    }
  }

  /** So the phase tests of get_state are redundant: cut and ignited sets alone decide the view. */
  lemma PhaseTestsAreRedundant(t: Topology, cs: seq<Command>, b: Bridge)
    ensures var s := RunAll(Start(t), cs);
            && (IsDisaster(s) <==> s.cut != {})
            && ActiveCut(s) == s.cut
            && (b in s.topology.bridges ==> (IsBridgeLive(s, b) <==> b.id in s.ignited))
  {
    ReachableIsConsistent(t, cs);
    var s := RunAll(Start(t), cs);
    if b in s.topology.bridges {
      assert b.id in Candidates(s.topology);
    }
  }

  // ----- islands of a state -----

  ghost function LiveSet(s: State): set<NodeId> {
    Elems(LiveIds(ViewNodes(s)))
  }

  lemma LiveSetIs(s: State, v: NodeId)
    ensures v in LiveIds(ViewNodes(s)) <==> (exists n :: n in s.topology.nodes && n.id == v) && v !in ActiveCut(s)
  {
    if v in LiveIds(ViewNodes(s)) {
      var m :| m in ViewNodes(s) && m.status != Destroyed && m.id == v;
      var n :| n in s.topology.nodes && m == MarkNode(n, ActiveCut(s));
    }
    if n :| n in s.topology.nodes && n.id == v && v !in ActiveCut(s) {
      assert MarkNode(n, ActiveCut(s)) in ViewNodes(s);
    }
  }

  ghost predicate AllLive(s: State, w: Route) {
    forall v :: v in w.nodes ==> v in LiveIds(ViewNodes(s))
  }

  ghost predicate LiveWalk(s: State, u: NodeId, v: NodeId, w: Route) {
    IsWalkFrom(UsableLinks(ViewLinks(s)), u, v, w) && AllLive(s, w)
  }

  lemma {:induction false} LiveWalkUsesLiveLinks(s: State, u: NodeId, v: NodeId, w: Route)
    requires LiveWalk(s, u, v, w)
    ensures IsWalkFrom(LiveLinks(ViewLinks(s), LiveSet(s)), u, v, w)
  {
    forall i | 0 <= i < |w.links| ensures w.links[i] in LiveLinks(ViewLinks(s), LiveSet(s)) {
      assert w.nodes[i] in w.nodes && w.nodes[i + 1] in w.nodes;
      assert Joins(w.links[i], w.nodes[i], w.nodes[i + 1]);
    }
  }

  lemma LiveLinksMakeLiveWalks(s: State, u: NodeId, v: NodeId, w: Route)
    requires u in LiveIds(ViewNodes(s)) && IsWalkFrom(LiveLinks(ViewLinks(s), LiveSet(s)), u, v, w)
    ensures LiveWalk(s, u, v, w)
  {
    forall i | 0 <= i < |w.nodes| ensures w.nodes[i] in LiveIds(ViewNodes(s)) {
      if i > 0 {
        assert w.links[i - 1] in LiveLinks(ViewLinks(s), LiveSet(s));
        assert Joins(w.links[i - 1], w.nodes[i - 1], w.nodes[i]);
      }
    }
  }

  /** The islands partition the live nodes, and two share one exactly when a walk over live nodes joins them. */
  lemma IslandsAreComponents(s: State, u: NodeId, v: NodeId)
    requires u in LiveIds(ViewNodes(s)) && v in LiveIds(ViewNodes(s))
    ensures Partitions(IslandsOf(s), LiveIds(ViewNodes(s)))
    ensures Together(IslandsOf(s), u, v) <==> exists w :: LiveWalk(s, u, v, w)
  {
    var es := LiveLinks(ViewLinks(s), LiveSet(s));
    IslandsPartition(LiveIds(ViewNodes(s)), ViewLinks(s));
    TogetherIffConnected(LiveIds(ViewNodes(s)), ViewLinks(s), u, v);
    if Connected(es, u, v) {
      var w :| IsWalkFrom(es, u, v, w);
      LiveLinksMakeLiveWalks(s, u, v, w);
    }
    if w :| LiveWalk(s, u, v, w) {
      LiveWalkUsesLiveLinks(s, u, v, w);
    }
  }

  // ----- islands against routes -----

  ghost predicate HasRoute(s: State, m: SP.Metric, u: NodeId, v: NodeId)
    requires NonNegative(s.topology)
  {
    ViewLatencies(s);
    SP.ShortestRoute(ViewLinks(s), m, u, v).Some?
  }

  lemma HasRouteIffConnected(s: State, m: SP.Metric, u: NodeId, v: NodeId)
    requires NonNegative(s.topology)
    ensures HasRoute(s, m, u, v) <==> Connected(UsableLinks(ViewLinks(s)), u, v)
  {
    ViewLatencies(s);
    SP.ShortestRouteCorrect(ViewLinks(s), m, u, v);
  }

  lemma LiveLinksAreUsable(s: State)
    ensures LiveLinks(ViewLinks(s), LiveSet(s)) <= UsableLinks(ViewLinks(s))
  {
  }

  lemma TogetherHasRoute(s: State, m: SP.Metric, u: NodeId, v: NodeId)
    requires NonNegative(s.topology) && u in LiveIds(ViewNodes(s)) && v in LiveIds(ViewNodes(s))
    requires Together(IslandsOf(s), u, v)
    ensures HasRoute(s, m, u, v)
  {
    TogetherIffConnected(LiveIds(ViewNodes(s)), ViewLinks(s), u, v);
    LiveLinksAreUsable(s);
    ConnectedMonotone(LiveLinks(ViewLinks(s), LiveSet(s)), UsableLinks(ViewLinks(s)), u, v);
    HasRouteIffConnected(s, m, u, v);
  }

  /** A walk of at least one hop whose inner nodes are all destroyed or undeclared. */
  ghost predicate IsDetour(s: State, a: NodeId, b: NodeId, w: Route) {
    && IsWalkFrom(UsableLinks(ViewLinks(s)), a, b, w) && |w.links| > 0
    && forall i :: 0 < i < |w.links| ==> w.nodes[i] !in LiveIds(ViewNodes(s))
  }

  ghost predicate LiveConnected(s: State, a: NodeId, b: NodeId) {
    Connected(LiveLinks(ViewLinks(s), LiveSet(s)), a, b)
  }

  /** Wherever a detour through dead nodes leads from one live node to another, live links lead as well. */
  ghost predicate DetoursAreNeedless(s: State) {
    forall a, b, w {:trigger IsDetour(s, a, b, w), LiveConnected(s, a, b)} ::
      a in LiveIds(ViewNodes(s)) && b in LiveIds(ViewNodes(s)) && IsDetour(s, a, b, w) ==> LiveConnected(s, a, b)
  }

  ghost predicate ViewsAgree(s: State, m: SP.Metric)
    requires NonNegative(s.topology)
  {
    forall u, v :: u in LiveIds(ViewNodes(s)) && v in LiveIds(ViewNodes(s))
      ==> (HasRoute(s, m, u, v) <==> Together(IslandsOf(s), u, v))
  }

  lemma TogetherTrans(s: State, u: NodeId, v: NodeId, w: NodeId)
    requires u in LiveIds(ViewNodes(s)) && v in LiveIds(ViewNodes(s)) && w in LiveIds(ViewNodes(s))
    requires Together(IslandsOf(s), u, v) && Together(IslandsOf(s), v, w)
    ensures Together(IslandsOf(s), u, w)
  {
    var ids, links := LiveIds(ViewNodes(s)), ViewLinks(s);
    TogetherIffConnected(ids, links, u, v);
    TogetherIffConnected(ids, links, v, w);
    ConnectedTrans(LiveLinks(links, LiveSet(s)), u, v, w);
    TogetherIffConnected(ids, links, u, w);
  }

  lemma TogetherRefl(s: State, u: NodeId)
    requires u in LiveIds(ViewNodes(s))
    ensures Together(IslandsOf(s), u, u)
  {
    ConnectedRefl(LiveLinks(ViewLinks(s), LiveSet(s)), u);
    TogetherIffConnected(LiveIds(ViewNodes(s)), ViewLinks(s), u, u);
  }

  /** One more hop l from y to x: a detour goes on if y is dead, and starts afresh from y if it is live. */
  lemma AdvanceDetour(s: State, a: NodeId, y: NodeId, x: NodeId, d: Route, l: Link)
    requires IsDetour(s, a, y, d) && l in UsableLinks(ViewLinks(s)) && Joins(l, y, x)
    ensures if y in LiveIds(ViewNodes(s)) then IsDetour(s, y, x, Route([y, x], [l]))
            else IsDetour(s, a, x, Extend(d, l, x))
  {
    if y !in LiveIds(ViewNodes(s)) {
      ExtendWalk(UsableLinks(ViewLinks(s)), a, y, x, d, l);
    }
  }

  lemma DetourStaysHome(s: State, a: NodeId, b: NodeId, d: Route)
    requires DetoursAreNeedless(s) && IsDetour(s, a, b, d)
    requires a in LiveIds(ViewNodes(s)) && b in LiveIds(ViewNodes(s))
    ensures Together(IslandsOf(s), a, b)
  {
    assert LiveConnected(s, a, b);
    TogetherIffConnected(LiveIds(ViewNodes(s)), ViewLinks(s), a, b);
  }

  /** Cut a walk at its last live node before the end: an island-mate of the start, then a detour. */
  lemma {:induction false} LastLiveNode(s: State, u: NodeId, x: NodeId, w: Route) returns (a: NodeId, d: Route)
    requires DetoursAreNeedless(s) && u in LiveIds(ViewNodes(s))
    requires IsWalkFrom(UsableLinks(ViewLinks(s)), u, x, w) && |w.links| > 0
    ensures a in LiveIds(ViewNodes(s)) && Together(IslandsOf(s), u, a) && IsDetour(s, a, x, d)
    decreases |w.links|
  {
    if |w.links| == 1 {
      TogetherRefl(s, u);
      a, d := u, w;
    } else {
      var y, l := w.nodes[|w.links| - 1], w.links[|w.links| - 1];
      ShortenWalk(UsableLinks(ViewLinks(s)), u, x, w);
      a, d := LastLiveNode(s, u, y, Shorten(w));
      AdvanceDetour(s, a, y, x, d, l);
      if y in LiveIds(ViewNodes(s)) {
        DetourStaysHome(s, a, y, d);
        TogetherTrans(s, u, a, y);
        a, d := y, Route([y, x], [l]);
      } else {
        d := Extend(d, l, x);
      }
    }
  }

  /** Islands and routes tell the same story in a state exactly when no live node needs a detour through dead ones. */
  lemma AgreementExactly(s: State, m: SP.Metric)
    requires NonNegative(s.topology)
    ensures ViewsAgree(s, m) <==> DetoursAreNeedless(s)
  {
    var ids := LiveIds(ViewNodes(s));
    if DetoursAreNeedless(s) {
      forall u, v | u in ids && v in ids ensures HasRoute(s, m, u, v) <==> Together(IslandsOf(s), u, v) {
        if Together(IslandsOf(s), u, v) { TogetherHasRoute(s, m, u, v); }
        HasRouteIffConnected(s, m, u, v);
        if HasRoute(s, m, u, v) {
          var w :| IsWalkFrom(UsableLinks(ViewLinks(s)), u, v, w);
          if |w.links| == 0 {
            TogetherRefl(s, u);
          } else {
            var a, d := LastLiveNode(s, u, v, w);
            DetourStaysHome(s, a, v, d);
            TogetherTrans(s, u, a, v);
          }
        }
      }
    }
    if ViewsAgree(s, m) {
      forall a, b, w | a in ids && b in ids && IsDetour(s, a, b, w) ensures LiveConnected(s, a, b) {
        HasRouteIffConnected(s, m, a, b);
        TogetherIffConnected(ids, ViewLinks(s), a, b);
      }
    }
  }

  /** Link and bridge ends are declared nodes, and no live bridge ends at a cut node. */
  ghost predicate WellPlaced(s: State) {
    && (forall l, v :: l in s.topology.links && (v == l.source || v == l.target) ==> IsDeclared(s.topology, v))
    && (forall b, v :: b in s.topology.bridges && (v == b.source || v == b.target)
                       ==> IsDeclared(s.topology, v) && (IsBridgeLive(s, b) ==> v !in ActiveCut(s)))
  }

  ghost predicate IsDeclared(t: Topology, v: NodeId) {
    exists n :: n in t.nodes && n.id == v
  }

  lemma WellPlacedEnds(s: State, k: Link)
    requires WellPlaced(s) && k in UsableLinks(ViewLinks(s))
    ensures k.source in LiveIds(ViewNodes(s)) && k.target in LiveIds(ViewNodes(s))
  {
    LiveSetIs(s, k.source);
    LiveSetIs(s, k.target);
    if k in MarkLinks(s.topology.links, ActiveCut(s)) {
      var l :| l in s.topology.links && k == MarkLink(l, ActiveCut(s));
      assert IsDeclared(s.topology, l.source) && IsDeclared(s.topology, l.target);
    } else {
      var b :| b in s.topology.bridges && IsBridgeLive(s, b) && k == BridgeLink(b);
      assert IsDeclared(s.topology, b.source) && IsDeclared(s.topology, b.target);
    }
  }

  /** On a well-placed topology the two searches agree: routed exactly when in the same island. */
  lemma WellPlacedAgrees(s: State, m: SP.Metric)
    requires NonNegative(s.topology) && WellPlaced(s)
    ensures ViewsAgree(s, m)
  {
    var ids := LiveIds(ViewNodes(s));
    forall k | k in UsableLinks(ViewLinks(s)) ensures k in LiveLinks(ViewLinks(s), LiveSet(s)) {
      WellPlacedEnds(s, k);
    }
    assert UsableLinks(ViewLinks(s)) == LiveLinks(ViewLinks(s), LiveSet(s));
    forall u, v | u in ids && v in ids ensures HasRoute(s, m, u, v) <==> Together(IslandsOf(s), u, v) {
      HasRouteIffConnected(s, m, u, v);
      TogetherIffConnected(ids, ViewLinks(s), u, v);
    }
  }

  // ----- a state in which they disagree -----

  const STRAY_TOPOLOGY: Topology :=
    Topology([Node("A", false, "", Alive), Node("B", false, "", Alive), Node("D", true, "", Alive)], [],
             [Bridge("b1", "A", "D", None, None, None, Some(11.0), Some("16QAM"), Some(34.0)),
              Bridge("b2", "D", "B", None, None, None, Some(12.0), Some("64QAM"), Some(32.0))], [])

  /** Disaster at D, then full recovery: both bridges end at the node that was cut. */
  const STRAY_STATE: State := State(STRAY_TOPOLOGY, RecoveredMarl3Bridges, {"D"}, {"b1", "b2"})

  lemma StrayStateIsReached()
    ensures RunAll(Start(STRAY_TOPOLOGY), [TriggerDisaster(["D"]), TriggerRecovery]) == STRAY_STATE
  {
    var cs, t := [TriggerDisaster(["D"]), TriggerRecovery], STRAY_TOPOLOGY;
    assert cs[..1] == [TriggerDisaster(["D"])] && cs[..1][..0] == [];
    assert t.bridges[0] in t.bridges && t.bridges[1] in t.bridges;
    assert Candidates(t) == {"b1", "b2"};
    assert Elems(["D"]) == {"D"};
    assert RunAll(Start(t), cs[..1]) == Step(RunAll(Start(t), []), TriggerDisaster(["D"]));
  }

  lemma WalkNeedsLinks(es: set<Link>, u: NodeId, v: NodeId)
    requires Connected(es, u, v) && u != v
    ensures es != {}
  {
    var w :| IsWalkFrom(es, u, v, w);
    assert w.links[0] in es;
  }

  lemma StrayStateLiveNodes()
    ensures LiveSet(STRAY_STATE) == {"A", "B"}
  {
    var s, t := STRAY_STATE, STRAY_TOPOLOGY;
    assert t.nodes[0] in t.nodes && t.nodes[1] in t.nodes;
    forall v ensures v in LiveSet(s) <==> v in {"A", "B"} {
      LiveSetIs(s, v);
    }
  }

  lemma StrayLinksEndAtD(k: Link)
    requires k in ViewLinks(STRAY_STATE)
    ensures k.source == "D" || k.target == "D"
  {
    var b :| b in STRAY_TOPOLOGY.bridges && IsBridgeLive(STRAY_STATE, b) && k == BridgeLink(b);
  }

  lemma StrayStateLiveLinks()
    ensures LiveLinks(ViewLinks(STRAY_STATE), LiveSet(STRAY_STATE)) == {}
  {
    StrayStateLiveNodes();
    forall k | k in ViewLinks(STRAY_STATE) ensures !IsLive(k, LiveSet(STRAY_STATE)) {
      StrayLinksEndAtD(k);
    }
  }

  lemma StrayWalk()
    ensures Connected(UsableLinks(ViewLinks(STRAY_STATE)), "A", "B")
  {
    var s, t := STRAY_STATE, STRAY_TOPOLOGY;
    var k1, k2 := BridgeLink(t.bridges[0]), BridgeLink(t.bridges[1]);
    assert k1 in ViewLinks(s) && k2 in ViewLinks(s);
    var w := Route(["A", "D", "B"], [k1, k2]);
    assert IsWalkFrom(UsableLinks(ViewLinks(s)), "A", "B", w);
  }

  lemma StrayLatencies()
    ensures NonNegative(STRAY_TOPOLOGY)
  {
  }

  lemma ConnectedAcrossIslands(s: State, m: SP.Metric, u: NodeId, v: NodeId)
    requires NonNegative(s.topology) && Connected(UsableLinks(ViewLinks(s)), u, v)
    requires u in LiveSet(s) && v in LiveSet(s) && u != v && LiveLinks(ViewLinks(s), LiveSet(s)) == {}
    ensures HasRoute(s, m, u, v) && !Together(IslandsOf(s), u, v)
  {
    HasRouteIffConnected(s, m, u, v);
    TogetherIffConnected(LiveIds(ViewNodes(s)), ViewLinks(s), u, v);
    if Together(IslandsOf(s), u, v) {
      WalkNeedsLinks(LiveLinks(ViewLinks(s), LiveSet(s)), u, v);
    }
  }

  /** Two bridges to a cut node carry a route between nodes that lie in different islands. */
  lemma RouteThroughDestroyedNode(s: State, m: SP.Metric)
    requires s == STRAY_STATE
    ensures NonNegative(s.topology) && "A" in LiveSet(s) && "B" in LiveSet(s)
    ensures HasRoute(s, m, "A", "B") && !Together(IslandsOf(s), "A", "B")
  {
    StrayLatencies();
    StrayStateLiveNodes();
    StrayStateLiveLinks();
    StrayWalk();
    ConnectedAcrossIslands(s, m, "A", "B");
  }
}
