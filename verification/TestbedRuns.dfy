/** Runs of bridge ignitions: what they never spoil, how many are needed, and where they all end. */
module TestbedRuns {
  import opened Common
  import opened Links
  import opened IslandSearch
  import opened IslandCount
  import opened Testbed
  import opened TestbedProperties
  import opened TestbedFlows
  import SP = ShortestPath

  ghost predicate OnlyIgnitions(cs: seq<Command>) {
    forall c :: c in cs ==> c.IgniteBridge?
  }

  ghost function IgnitedIn(cs: seq<Command>): set<string>
    requires OnlyIgnitions(cs)
  {
    set c | c in cs :: c.bridgeId
  }

  lemma SplitRun(cs: seq<Command>)
    requires OnlyIgnitions(cs) && cs != []
    ensures OnlyIgnitions(cs[..|cs| - 1])
    ensures IgnitedIn(cs) == IgnitedIn(cs[..|cs| - 1]) + {cs[|cs| - 1].bridgeId}
  {
    var init, c := cs[..|cs| - 1], cs[|cs| - 1];
    assert cs == init + [c];
    forall x | x in cs ensures x in init || x == c {}
  }

  // ----- where a run of ignitions ends -----

  /** The end of a run of ignitions depends on which bridges were ignited, not on order or repetition. */
  lemma {:induction false} IgnitionRunEnds(s: State, cs: seq<Command>)
    requires Consistent(s) && !s.phase.NormalDpir? && OnlyIgnitions(cs)
    ensures var all, ignited := Candidates(s.topology), s.ignited + IgnitedIn(cs);
            RunAll(s, cs) ==
            State(s.topology, if all != {} && all <= ignited then RecoveredMarl3Bridges else s.phase, s.cut, ignited)
  {
    if cs == [] {
      assert s.ignited + IgnitedIn(cs) == s.ignited;
    } else {
      var init := cs[..|cs| - 1];
      SplitRun(cs);
      IgnitionRunEnds(s, init);
      assert s.ignited + IgnitedIn(init) + {cs[|cs| - 1].bridgeId} == s.ignited + IgnitedIn(cs);
    }
  }

  /**
   Confluence: a run of ignitions after a disaster, in any order and with repeats, ends where one recovery does
   exactly when there are candidates and the ids ignited by then are the candidates.
   */
  lemma IgnitionsAmountToRecovery(s: State, cs: seq<Command>)
    requires Consistent(s) && s.phase.Disaster4Islands? && OnlyIgnitions(cs)
    ensures RunAll(s, cs) == Recover(s) <==>
            Candidates(s.topology) != {} && s.ignited + IgnitedIn(cs) == Candidates(s.topology)
  {
    IgnitionRunEnds(s, cs);
  }

  lemma {:induction false} SameBridgesSameLinks(s: State, t: State, bridges: seq<Bridge>)
    requires forall b :: b in bridges ==> (IsBridgeLive(s, b) <==> IsBridgeLive(t, b))
    ensures BridgeLinks(s, bridges) == BridgeLinks(t, bridges) && BridgeStates(s, bridges) == BridgeStates(t, bridges)
  {
    if bridges != [] {
      SameBridgesSameLinks(s, t, bridges[..|bridges| - 1]);
    }
  }

  lemma LitCandidatesLookLikeRecovery(s: State, cs: seq<Command>)
    requires NonNegative(s.topology) && Consistent(s) && s.phase.Disaster4Islands? && OnlyIgnitions(cs)
    requires Candidates(s.topology) != {} && Candidates(s.topology) <= s.ignited + IgnitedIn(cs)
    ensures RunAll(s, cs).topology == s.topology && ViewOf(RunAll(s, cs)) == ViewOf(Recover(s))
  {
    IgnitionRunEnds(s, cs);
    var t, r := RunAll(s, cs), Recover(s);
    SameBridgesSameLinks(t, r, s.topology.bridges);
    assert ViewLinks(t) == ViewLinks(r);
  }

  lemma ViewsShowPhases(s: State, t: State)
    requires NonNegative(s.topology) && t.topology == s.topology
    ensures ViewOf(s).Ok? <==> ViewOf(t).Ok?
    ensures ViewOf(s).Err? ==> ViewOf(s) == ViewOf(t)
    ensures ViewOf(s).Ok? && s.phase != t.phase ==> ViewOf(s) != ViewOf(t)
  {
    ViewFailsExactly(s);
    ViewFailsExactly(t);
  }

  /**
   Seen from outside, a run of ignitions after a disaster amounts to a recovery exactly when there are candidates
   and all of them are lit by then, whatever else was ignited; unless both views fail, for a flow to itself.
   */
  lemma IgnitionsLookLikeRecovery(s: State, cs: seq<Command>)
    requires NonNegative(s.topology) && Consistent(s) && s.phase.Disaster4Islands? && OnlyIgnitions(cs)
    ensures RunAll(s, cs).topology == s.topology
    ensures ViewOf(RunAll(s, cs)) == ViewOf(Recover(s)) <==>
            || ViewOf(Recover(s)).Err?
            || (Candidates(s.topology) != {} && Candidates(s.topology) <= s.ignited + IgnitedIn(cs))
  {
    IgnitionRunEnds(s, cs);
    ViewsShowPhases(Recover(s), RunAll(s, cs));
    if Candidates(s.topology) != {} && Candidates(s.topology) <= s.ignited + IgnitedIn(cs) {
      LitCandidatesLookLikeRecovery(s, cs);
    }
  }

  // ----- ignitions never hurt -----

  lemma {:induction false} IgnitionsKeepLinks(s: State, cs: seq<Command>)
    requires Consistent(s) && !s.phase.NormalDpir? && OnlyIgnitions(cs)
    ensures var t := RunAll(s, cs);
            && t.topology == s.topology && !t.phase.NormalDpir?
            && UsableLinks(ViewLinks(s)) <= UsableLinks(ViewLinks(t))
  {
    IgnitionRunEnds(s, cs);
    var t := RunAll(s, cs);
    forall k | k in ViewLinks(s) ensures k in ViewLinks(t) {
      if k in BridgeLinks(s, s.topology.bridges) {
        var b :| b in s.topology.bridges && IsBridgeLive(s, b) && k == BridgeLink(b);
        assert IsBridgeLive(t, b);
      }
    }
  }

  /** After a disaster, no run of ignitions severs a routed flow or makes its cheapest route dearer. */
  lemma IgnitionsNeverHurtFlows(s: State, cs: seq<Command>, f: FlowSpec)
    requires NonNegative(s.topology) && Consistent(s) && !s.phase.NormalDpir? && OnlyIgnitions(cs)
    ensures var t := RunAll(s, cs);
            && t.topology == s.topology && !t.phase.NormalDpir?
            && SP.NonNegativeLatencies(ViewLinks(s)) && SP.NonNegativeLatencies(ViewLinks(t))
            && var before, after := FlowRoute(false, f, ViewLinks(s)), FlowRoute(false, f, ViewLinks(t));
               var m := MetricOf(false, f);
               before.Some? ==>
                 (after.Some? &&
                  SP.RouteCost(m, after.value.links) <= SP.RouteCost(m, before.value.links))
  {
    var t, m := RunAll(s, cs), MetricOf(false, f);
    IgnitionsKeepLinks(s, cs);
    ViewLatencies(s);
    ViewLatencies(t);
    SP.ShortestRouteCorrect(ViewLinks(s), m, f.source, f.destination);
    SP.ShortestRouteCorrect(ViewLinks(t), m, f.source, f.destination);
    var before := FlowRoute(false, f, ViewLinks(s));
    if before.Some? {
      WalkMonotone(UsableLinks(ViewLinks(s)), UsableLinks(ViewLinks(t)), f.source, f.destination, before.value);
    }
  }

  /** The route a view reports on, in a state outside normal operation. */
  ghost function ReportedLinks(s: State, f: FlowSpec): seq<Link>
    requires NonNegative(s.topology)
  {
    ViewLatencies(s);
    var found := FlowRoute(false, f, ViewLinks(s));
    if found.Some? then found.value.links else []
  }

  lemma ReportOutsideNormal(s: State, f: FlowSpec)
    requires NonNegative(s.topology) && !s.phase.NormalDpir? && ViewOf(s).Ok?
    requires FlowIdsUnique(FlowSpecs(s.topology)) && f in FlowSpecs(s.topology)
    ensures f.id in ViewOf(s).value.flows && SP.NonNegativeLatencies(ViewLinks(s))
    ensures var report, found := ViewOf(s).value.flows[f.id], FlowRoute(false, f, ViewLinks(s));
            && (report.Routed? <==> found.Some?)
            && (report.Routed? ==>
                  && report.latencyMs == ReportLatency(ReportedLinks(s, f))
                  && report.latencyMs == SP.RouteCost(MetricOf(false, f), ReportedLinks(s, f)) -
                                         0.5 * Unstated(ReportedLinks(s, f)) as real)
  {
    RoutedReportIs(s, f);
    LatencyDefaultsDiffer(ReportedLinks(s, f));
    LatencyIsCost(MetricOf(false, f), ReportedLinks(s, f));
  }

  /**
   In the views of a run of ignitions a flow reported routed stays so, and its reported latency rises by at most
   half a millisecond for each link of its former route that states none: not at all if they all state theirs.
   */
  lemma {:induction false} IgnitionsNeverHurtReports(s: State, cs: seq<Command>, f: FlowSpec)
    requires NonNegative(s.topology) && Consistent(s) && !s.phase.NormalDpir? && OnlyIgnitions(cs)
    requires FlowIdsUnique(FlowSpecs(s.topology)) && f in FlowSpecs(s.topology) && ViewOf(s).Ok?
    ensures var t := RunAll(s, cs);
            && t.topology == s.topology && ViewOf(t).Ok?
            && f.id in ViewOf(s).value.flows && f.id in ViewOf(t).value.flows
            && var before, after := ViewOf(s).value.flows[f.id], ViewOf(t).value.flows[f.id];
               before.Routed? ==>
                 && after.Routed?
                 && after.latencyMs <= before.latencyMs + 0.5 * Unstated(ReportedLinks(s, f)) as real
                 && ((forall l :: l in s.topology.links ==> l.latencyMs.Some?) ==> after.latencyMs <= before.latencyMs)
  {
    var t := RunAll(s, cs);
    IgnitionsNeverHurtFlows(s, cs, f);
    ViewsShowPhases(s, t);
    ReportOutsideNormal(s, f);
    ReportOutsideNormal(t, f);
    if ViewOf(s).value.flows[f.id].Routed? && forall l :: l in s.topology.links ==> l.latencyMs.Some? {
      StatedInView(s);
      RouteUsesViewLinks(s, f);
      NoneUnstated(ReportedLinks(s, f));
    }
  }

  lemma RouteUsesViewLinks(s: State, f: FlowSpec)
    requires NonNegative(s.topology)
    ensures forall l :: l in ReportedLinks(s, f) ==> l in ViewLinks(s)
  {
    ViewLatencies(s);
    SP.ShortestRouteCorrect(ViewLinks(s), MetricOf(false, f), f.source, f.destination);
    var found := FlowRoute(false, f, ViewLinks(s));
    if found.Some? {
      SP.WalkUsesLinks(ViewLinks(s), f.source, f.destination, found.value);
    }
  }

  const SILENT_LINK: Link := Link("l1", None, "A", "B", "fiber", None, None, Active)
  const SHORT_BRIDGE: Bridge := Bridge("b1", "A", "B", None, None, Some(0.9), None, None, None)
  const SILENT_FLOW: FlowSpec := FlowSpec("f1", "A", "B", None, Some(1.0), None)

  /** One link that states no latency beside one candidate bridge of 0.9 ms, after a disaster at D. */
  const SILENT_STATE: State :=
    State(Topology([Node("A", false, "", Alive), Node("B", false, "", Alive), Node("D", true, "", Alive)],
                   [SILENT_LINK], [SHORT_BRIDGE], [SILENT_FLOW]), Disaster4Islands, {"D"}, {})

  lemma SilentLinks()
    ensures forall k :: k in ViewLinks(SILENT_STATE) <==> k == SILENT_LINK
    ensures forall k :: k in ViewLinks(Ignite(SILENT_STATE, "b1")) <==>
              k == SILENT_LINK || k == BridgeLink(SHORT_BRIDGE)
  {
    var s := SILENT_STATE;
    assert s.topology.links[0] in s.topology.links && s.topology.bridges[0] in s.topology.bridges;
    assert MarkLink(SILENT_LINK, {"D"}) == SILENT_LINK;
    assert IsBridgeLive(Ignite(s, "b1"), SHORT_BRIDGE) && !IsBridgeLive(s, SHORT_BRIDGE);
  }

  lemma {:induction false} ShortCosts(m: SP.Metric, ls: seq<Link>)
    requires !SP.HasPreference(m) && forall l :: l in ls ==> l.latencyMs == None || l.latencyMs == Some(0.9)
    ensures SP.RouteCost(m, ls) == 0.9 * |ls| as real + 0.1 * Unstated(ls) as real
    ensures 0 <= Unstated(ls) <= |ls|
    ensures (forall l :: l in ls ==> l.latencyMs == None) ==> Unstated(ls) == |ls|
  {
    if ls != [] {
      var init, l := ls[..|ls| - 1], ls[|ls| - 1];
      assert ls == init + [l];
      ShortCosts(m, init);
    }
  }

  /** Where links state 0.9 ms or nothing, a flow over one link is reported with 0.9 or 0.5 ms. */
  lemma {:induction false} ReportOverOneLink(s: State, f: FlowSpec, direct: Link)
    requires NonNegative(s.topology) && !s.phase.NormalDpir? && ViewOf(s).Ok?
    requires FlowIdsUnique(FlowSpecs(s.topology)) && f in FlowSpecs(s.topology) && f.source != f.destination
    requires direct in ViewLinks(s) && Usable(direct) && direct.source == f.source && direct.target == f.destination
    requires forall k :: k in ViewLinks(s) ==>
               k.latencyMs == None || (k.latencyMs == Some(0.9) && direct.latencyMs == Some(0.9))
    ensures f.id in ViewOf(s).value.flows
    ensures var report := ViewOf(s).value.flows[f.id];
            report.Routed? && report.latencyMs == if direct.latencyMs == Some(0.9) then 0.9 else 0.5
  {
    var m, links := MetricOf(false, f), ViewLinks(s);
    ReportOutsideNormal(s, f);
    RouteUsesViewLinks(s, f);
    SP.ShortestRouteCorrect(links, m, f.source, f.destination);
    var w := Route([f.source, f.destination], [direct]);
    assert IsWalkFrom(UsableLinks(links), f.source, f.destination, w);
    ShortCosts(m, w.links);
    ShortCosts(m, ReportedLinks(s, f));
  }

  /** Reports can rise: igniting the bridge moves the flow off the silent link, and its report from 0.5 to 0.9 ms. */
  lemma IgnitionRaisesReport()
    ensures var s, t := SILENT_STATE, Ignite(SILENT_STATE, "b1");
            && NonNegative(s.topology) && t.topology == s.topology && ViewOf(s).Ok? && ViewOf(t).Ok?
            && "f1" in ViewOf(s).value.flows && "f1" in ViewOf(t).value.flows
            && var before, after := ViewOf(s).value.flows["f1"], ViewOf(t).value.flows["f1"];
               before.Routed? && after.Routed? && before.latencyMs == 0.5 && after.latencyMs == 0.9
  {
    var s, t, f := SILENT_STATE, Ignite(SILENT_STATE, "b1"), SILENT_FLOW;
    SilentLinks();
    ViewFailsExactly(s);
    ViewFailsExactly(t);
    assert s.topology.flows[0] in FlowSpecs(s.topology);
    ReportOverOneLink(s, f, SILENT_LINK);
    ReportOverOneLink(t, f, BridgeLink(SHORT_BRIDGE));
  }

  // ----- how many bridges it takes -----

  ghost predicate BridgeIdsUnique(t: Topology) {
    forall b, c :: b in t.bridges && c in t.bridges && b.id == c.id ==> b == c
  }

  ghost predicate JoinsIslands(s: State, b: Bridge) {
    && b.source in LiveIds(ViewNodes(s)) && b.target in LiveIds(ViewNodes(s))
    && !Together(IslandsOf(s), b.source, b.target)
  }

  lemma NewCandidateInDisaster(s: State, b: Bridge, c: Bridge)
    requires Consistent(s) && !s.phase.NormalDpir? && BridgeIdsUnique(s.topology)
    requires b in s.topology.bridges && b.id !in s.ignited && c in s.topology.bridges
    ensures IsBridgeLive(Ignite(s, b.id), c) <==> IsBridgeLive(s, c) || c == b
  {
    assert b.id in Candidates(s.topology) && c.id in Candidates(s.topology);
  }

  lemma NewCandidateAddsItsLink(s: State, b: Bridge)
    requires Consistent(s) && !s.phase.NormalDpir? && BridgeIdsUnique(s.topology)
    requires b in s.topology.bridges && b.id !in s.ignited
    ensures var t := Ignite(s, b.id);
            && LiveSet(t) == LiveSet(s)
            && LiveLinks(ViewLinks(t), LiveSet(t)) ==
               LiveLinks(ViewLinks(s), LiveSet(s)) +
               if b.source in LiveSet(s) && b.target in LiveSet(s) then {BridgeLink(b)} else {}
  {
    var t := Ignite(s, b.id);
    assert ViewNodes(t) == ViewNodes(s);
    NewCandidateInDisaster(s, b, b);
    forall k ensures k in ViewLinks(t) <==> k in ViewLinks(s) || k == BridgeLink(b) {
      if k in BridgeLinks(t, s.topology.bridges) {
        var c :| c in s.topology.bridges && IsBridgeLive(t, c) && k == BridgeLink(c);
        NewCandidateInDisaster(s, b, c);
      }
      if k in BridgeLinks(s, s.topology.bridges) {
        var c :| c in s.topology.bridges && IsBridgeLive(s, c) && k == BridgeLink(c);
        NewCandidateInDisaster(s, b, c);
      }
    }
  }

  lemma CountOfState(s: State)
    ensures |IslandsOf(s)| == |Classes(LiveSet(s), LiveLinks(ViewLinks(s), LiveSet(s)))|
  {
    CountIsClasses(LiveIds(ViewNodes(s)), ViewLinks(s));
  }

  lemma JoiningIsUnconnected(s: State, b: Bridge)
    requires b.source in LiveSet(s) && b.target in LiveSet(s)
    ensures JoinsIslands(s, b) <==> !Connected(LiveLinks(ViewLinks(s), LiveSet(s)), b.source, b.target)
  {
    TogetherIffConnected(LiveIds(ViewNodes(s)), ViewLinks(s), b.source, b.target);
  }

  lemma CandidateJoinsClasses(s: State, b: Bridge)
    requires b.source in LiveSet(s) && b.target in LiveSet(s)
    ensures |Classes(LiveSet(s), LiveLinks(ViewLinks(s), LiveSet(s)) + {BridgeLink(b)})| ==
            |IslandsOf(s)| - if JoinsIslands(s, b) then 1 else 0
  {
    CountOfState(s);
    OneMoreLink(LiveSet(s), LiveLinks(ViewLinks(s), LiveSet(s)), BridgeLink(b));
    JoiningIsUnconnected(s, b);
  }

  /** One new candidate bridge: one island fewer if it joins two islands, the same number if not. */
  lemma OneIgnition(s: State, b: Bridge)
    requires Consistent(s) && !s.phase.NormalDpir? && BridgeIdsUnique(s.topology)
    requires b in s.topology.bridges && b.id !in s.ignited
    ensures |IslandsOf(Ignite(s, b.id))| == |IslandsOf(s)| - if JoinsIslands(s, b) then 1 else 0
  {
    var t := Ignite(s, b.id);
    NewCandidateAddsItsLink(s, b);
    CountOfState(t);
    if b.source in LiveSet(s) && b.target in LiveSet(s) {
      CandidateJoinsClasses(s, b);
    } else {
      CountOfState(s);
      assert LiveLinks(ViewLinks(t), LiveSet(t)) == LiveLinks(ViewLinks(s), LiveSet(s));
    }
  }

  /** Igniting an id that is no candidate, or one already ignited, leaves the view's graph alone. */
  lemma IdleIgnition(s: State, id: string)
    requires Consistent(s) && !s.phase.NormalDpir?
    requires id !in Candidates(s.topology) || id in s.ignited
    ensures IslandsOf(Ignite(s, id)) == IslandsOf(s)
  {
    var t := Ignite(s, id);
    forall b | b in s.topology.bridges ensures IsBridgeLive(s, b) <==> IsBridgeLive(t, b) {
      assert b.id in Candidates(s.topology);
    }
    SameBridgesSameLinks(s, t, s.topology.bridges);
  }

  lemma {:induction false} RunStaysConsistent(s: State, cs: seq<Command>)
    requires Consistent(s)
    ensures Consistent(RunAll(s, cs))
  {
    if cs != [] {
      RunStaysConsistent(s, cs[..|cs| - 1]);
      StepKeepsConsistent(RunAll(s, cs[..|cs| - 1]), cs[|cs| - 1]);
    }
  }

  lemma IslandsPerIgnition(s: State, id: string)
    requires Consistent(s) && !s.phase.NormalDpir? && BridgeIdsUnique(s.topology)
    ensures |IslandsOf(s)| <=
            |IslandsOf(Ignite(s, id))| + if id in Candidates(s.topology) && id !in s.ignited then 1 else 0
  {
    if id in Candidates(s.topology) && id !in s.ignited {
      var b :| b in s.topology.bridges && b.id == id;
      OneIgnition(s, b);
    } else {
      IdleIgnition(s, id);
    }
  }

  lemma OneMoreIgnited(lit: set<string>, id: string, before: set<string>, all: set<string>)
    ensures |((lit + {id}) - before) * all| ==
            |(lit - before) * all| + if id in all && id !in before + lit then 1 else 0
  {
    if id in all && id !in before + lit {
      assert ((lit + {id}) - before) * all == (lit - before) * all + {id};
    } else {
      assert ((lit + {id}) - before) * all == (lit - before) * all;
    }
  }

  /** A run of ignitions removes at most one island for each candidate bridge it newly ignites. */
  lemma {:induction false} IslandsPerBridge(s: State, cs: seq<Command>)
    requires Consistent(s) && !s.phase.NormalDpir? && BridgeIdsUnique(s.topology) && OnlyIgnitions(cs)
    ensures |IslandsOf(s)| <= |IslandsOf(RunAll(s, cs))| + |(IgnitedIn(cs) - s.ignited) * Candidates(s.topology)|
  {
    if cs != [] {
      var init, id := cs[..|cs| - 1], cs[|cs| - 1].bridgeId;
      SplitRun(cs);
      IslandsPerBridge(s, init);
      RunStaysConsistent(s, init);
      IgnitionRunEnds(s, init);
      IslandsPerIgnition(RunAll(s, init), id);
      OneMoreIgnited(IgnitedIn(init), id, s.ignited, Candidates(s.topology));
    }
  }

  function IgniteEach(bridges: seq<Bridge>): seq<Command> {
    seq(|bridges|, i requires 0 <= i < |bridges| => IgniteBridge(bridges[i].id))
  }

  lemma IgniteEachIgnitesCandidates(t: Topology)
    ensures OnlyIgnitions(IgniteEach(t.bridges)) && IgnitedIn(IgniteEach(t.bridges)) == Candidates(t)
  {
    var cs := IgniteEach(t.bridges);
    forall id | id in Candidates(t) ensures id in IgnitedIn(cs) {
      var b :| b in t.bridges && b.id == id;
      var i :| 0 <= i < |t.bridges| && t.bridges[i] == b;
      assert cs[i] in cs;
    }
  }

  /** Recovery from k islands reports a restored tree only if at least k - 1 candidates were still unlit. */
  lemma RecoveryNeedsBridges(s: State)
    requires Consistent(s) && !s.phase.NormalDpir? && BridgeIdsUnique(s.topology)
    ensures |IslandsOf(s)| <= |IslandsOf(Recover(s))| + |Candidates(s.topology) - s.ignited|
    ensures |IslandsOf(Recover(s))| == 1 ==> |Candidates(s.topology) - s.ignited| >= |IslandsOf(s)| - 1
  {
    var cs := IgniteEach(s.topology.bridges);
    var all := Candidates(s.topology);
    IgniteEachIgnitesCandidates(s.topology);
    IslandsPerBridge(s, cs);
    IgnitionRunEnds(s, cs);
    assert (IgnitedIn(cs) - s.ignited) * all == all - s.ignited;
    var t, r := RunAll(s, cs), Recover(s);
    forall b | b in s.topology.bridges ensures IsBridgeLive(t, b) && IsBridgeLive(r, b) {
      assert b.id in all;
    }
    SameBridgesSameLinks(t, r, s.topology.bridges);
  }

  /** One island is left exactly when some node is live and live links join every two live nodes. */
  lemma OneIslandExactly(s: State, live: set<NodeId>, es: set<Link>)
    requires live == LiveSet(s) && es == LiveLinks(ViewLinks(s), live)
    ensures |IslandsOf(s)| == 1 <==>
            live != {} && forall u, v :: u in live && v in live ==> Connected(es, u, v)
  {
    CountOfState(s);
    OneClassExactly(live, es);
  }

  /** The declared nodes a recovery finds standing. */
  ghost function Survivors(s: State): set<NodeId> {
    (set n | n in s.topology.nodes :: n.id) - Recover(s).cut
  }

  /** The base links and candidate bridges between survivors. */
  ghost function RecoveredLinks(s: State): set<Link> {
    (set l | l in s.topology.links && l.source in Survivors(s) && l.target in Survivors(s) :: MarkLink(l, {})) +
    (set b | b in s.topology.bridges && b.source in Survivors(s) && b.target in Survivors(s) :: BridgeLink(b))
  }

  lemma SurvivorsAreLive(s: State)
    ensures LiveSet(Recover(s)) == Survivors(s)
  {
    forall v ensures v in LiveSet(Recover(s)) <==> v in Survivors(s) {
      LiveSetIs(Recover(s), v);
    }
  }

  lemma RecoveredLinksAreLive(s: State)
    ensures LiveLinks(ViewLinks(Recover(s)), LiveSet(Recover(s))) == RecoveredLinks(s)
  {
    var r := Recover(s);
    SurvivorsAreLive(s);
    forall k | k in LiveLinks(ViewLinks(r), Survivors(s)) ensures k in RecoveredLinks(s) {
      if k in MarkLinks(s.topology.links, ActiveCut(r)) {
        var l :| l in s.topology.links && k == MarkLink(l, ActiveCut(r));
        assert k == MarkLink(l, {});
      } else {
        var b :| b in s.topology.bridges && IsBridgeLive(r, b) && k == BridgeLink(b);
      }
    }
    forall l | l in s.topology.links && l.source in Survivors(s) && l.target in Survivors(s)
      ensures MarkLink(l, {}) in ViewLinks(r)
    {
      assert MarkLink(l, {}) == MarkLink(l, ActiveCut(r));
    }
    forall b | b in s.topology.bridges ensures BridgeLink(b) in ViewLinks(r) {
      assert IsBridgeLive(r, b);
    }
  }

  /**
   A recovery reports a restored tree exactly when some node survives the cut and walks over surviving base links
   and candidate bridges join every two survivors.
   */
  lemma TreeRestoredExactly(s: State)
    ensures |IslandsOf(Recover(s))| == 1 <==>
            && Survivors(s) != {}
            && forall u, v :: u in Survivors(s) && v in Survivors(s) ==> Connected(RecoveredLinks(s), u, v)
  {
    SurvivorsAreLive(s);
    RecoveredLinksAreLive(s);
    OneIslandExactly(Recover(s), Survivors(s), RecoveredLinks(s));
  }
}
