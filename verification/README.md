# CER-Intent: verified models

A Dafny 4.11 model of the parts of CER-Intent that keep state or compute routes, with proofs of what they guarantee.
`dafny verify dfyconfig.toml` checks everything.

**The DPIR/MARL testbed engine** (`cer_intent/architect/dpir_marl_engine.py`). A topology of nodes, links and
candidate 60 GHz bridges goes through disaster, ignition, recovery and reset. After each command the engine
recomputes the islands (breadth-first search) and the flow routes (Dijkstra with a lazy heap).
- `Links.dfy`: nodes, links, walks. `ShortestPath.dfy`: the heap loop; route existence, optimality, media
  preference, work bounds. `Bfs.dfy` and `IslandSearch.dfy`: the queue loop; islands are the connected components,
  listed by hop distance. `IslandCount.dfy`: one more link merges two islands or none.
- `Testbed.dfy`: state, commands and view as values. `TestbedEngine.dfy`: the engine object and its loops.
  `TestbedProperties.dfy`: invariants of every run, islands against routes. `TestbedCommands.dfy`: what each command
  does to nodes, bridges and links. `TestbedRuns.dfy`: runs of ignitions. `TestbedFlows.dfy`: what the flow reports
  say.

**The packet-trace builder** (`cer_intent/tsn_simulation_runner.py`): `PacketTrace.dfy` builds the trace in whole
microseconds, `PacketProperties.dfy` proves causality, conservation and ordering, also after the cut to 900 events,
`PacketTimetable.dfy` who is sent, dropped and how fast. `StableSort.dfy` is Python's sort, shared with the
architect.

**The architect's plan** (`ArchitectPlan.dfy`): selection of a strategy, its stored form, its reconstruction at
approval and its execution, with the exact outcome of the latter in `ArchitectExecution.dfy`. **The intent life
cycle** (`IntentLifecycle.dfy`): submit, approve, reconcile, delete and the service-DLC calls, and where they leave
an intent (`IntentOutcomes.dfy`). **Bounded logs** (`BoundedLogs.dfy`): the state store and the audit log against
unbounded ghost logs. **The digital twin** (`DigitalTwin.dfy`, over the JSON values of `JsonValues.dfy`): what-if
evaluation against the safety gate, and by the words of its requests (`TwinRequests.dfy`). **XML layout**
(`XmlIndent.dfy` as a function on trees, `XmlElement.dfy` in place) of the edit-config payload of section 7.2 of RFC
6241.

Each loop and each state-changing call is a method proved equal to a function of its input or of the old state; the
lemmas below are about those functions.

Where the code does not do what one might expect, the exact condition is proved:
- Islands and routes can disagree: a route may pass through a destroyed node over bridges that end there.
  `AgreementExactly` says when they agree, `RouteThroughDestroyedNode` is a reachable state in which they do not.
- `get_state` raises when a flow runs from a node to itself (`ViewFailsExactly`).
- The reported latency defaults a missing field to 0.5 where the search uses 1.0 (`ReportedLatencyExactly`), so an
  ignition can raise the latency a view reports (`IgnitionRaisesReport`), within a bound
  (`IgnitionsNeverHurtReports`).
- A run of ignitions equals recovery exactly when there are candidates and the ids lit by then are theirs
  (`IgnitionsAmountToRecovery`), and recovery restores a tree exactly when base links and bridges between survivors
  connect them (`TreeRestoredExactly`), not always.
- The stored plan drops `required`, so a failing optional action can turn from a warning into an error at approval;
  which plans are safe from this can be read off their actions (`PlanSurvivesStorageExactly`).
- A restart of the audit log loses entries whose write failed (`RestartReloadsExactly`), though a loss can go unseen
  among equal entries (`EqualEntriesHideALoss`).
- A what-if scenario fails, and leaves the twin marked as experimenting, exactly when a perturbation has a type that
  is no text, a device that cannot be a dict key, a field that its own kind of perturbation reads and cannot
  convert, or a negative rain rate on a rain fade (`ScenarioFailsExactly`, `RainRateOfMinusFive`).
- The gate lets a JSON `NaN` through as a slice rate or MCS floor, and nothing else outside the envelope
  (`GateAcceptsExactly`, `NaNRateIsSent`); a value that is no number makes it raise, and a client that raises leaves
  part of the calls sent (`ValidateAndCloseLoop`).
- A slice request with non-positive bandwidth is admitted by the evaluator and refused by the gate
  (`ProposalsPassTheGateExactly`).
- The comment on the reconciler promises re-application of configs; the code only marks drift, and a deferred or
  crashed intent is never taken up again (`StuckStaysStuck`).

## Model

| member | source | states |
|---|---|---|
| ShortestPath.FindShortestPath | cer_intent/architect/dpir_marl_engine.py:214-265 | the lazy-heap loop terminates on non-negative latencies and returns a route exactly when the destination is connected over usable links; the route is a chain of such links and none is cheaper |
| ShortestPath.BuildAdjacency | cer_intent/architect/dpir_marl_engine.py:226-242 | the adjacency dict holds, for every node and in link order, one arc per end of a usable link |
| ShortestPath.RelaxArcs | cer_intent/architect/dpir_marl_engine.py:256-263 | offering the arcs of a popped entry pushes exactly those that improve best_cost |
| ShortestPath.ShortestRouteCorrect | cer_intent/architect/dpir_marl_engine.py:214-265 | existence, validity and optimality of the returned route, for all graphs with non-negative latencies |
| ShortestPath.LinkCostExactly | cer_intent/architect/dpir_marl_engine.py:231-240 | a link costs its latency, and 10 more exactly in normal operation when the flow has a preference that occurs nowhere in the link's media |
| ShortestPath.DetoursAreWorthTheirPenalty | cer_intent/architect/dpir_marl_engine.py:234-240 | in normal operation, for a preference p, latency plus 10 per link whose media do not contain p is at most that of any other walk |
| ShortestPath.IndifferentRouteIsFastest | cer_intent/architect/dpir_marl_engine.py:234-240 | in any other phase, or for a flow without preference, no walk is faster than the returned route |
| ShortestPath.PreferredMediaIsKept | cer_intent/architect/dpir_marl_engine.py:221-224 | if p occurs in the media of every link of some walk of latency under 10, it does in those of the returned route, which is no slower |
| ShortestPath.RouteToItself | cer_intent/architect/dpir_marl_engine.py:250-253 | from a node to itself the route has no links |
| ShortestPath.LeastIndex | cer_intent/architect/dpir_marl_engine.py:251 | the popped entry is strictly least by (cost, node), so comparison never reaches the path lists |
| ShortestPath.RelaxArcEntries | cer_intent/architect/dpir_marl_engine.py:256-263 | a pushed entry never shares (cost, node) with one in the heap and records a real walk of that cost |
| ShortestPath.ExpandKeeps | cer_intent/architect/dpir_marl_engine.py:250-263 | an entry that is not stale belongs to a node not expanded before, and the search invariant survives its expansion |
| ShortestPath.PopStaleKeeps | cer_intent/architect/dpir_marl_engine.py:254-255 | dropping a stale entry keeps the search invariant |
| ShortestPath.SearchWork | cer_intent/architect/dpir_marl_engine.py:245-263 | a whole search expands no node twice and pushes at most 1 + 2 entries per usable link |
| IslandSearch.ComputeIslands | cer_intent/architect/dpir_marl_engine.py:180-212 | the loops list non-empty, duplicate-free, pairwise disjoint islands that cover exactly the live nodes |
| IslandSearch.BuildAdjacency | cer_intent/architect/dpir_marl_engine.py:187-193 | the adjacency dict has the live nodes as keys and, in link order, their neighbours over links with both ends live |
| IslandSearch.SearchIsland | cer_intent/architect/dpir_marl_engine.py:200-210 | one queue loop lists the component of its start and leaves `visited` closed under adjacency |
| IslandSearch.Enqueue | cer_intent/architect/dpir_marl_engine.py:206-209 | the innermost loop enqueues every unseen neighbour once, in order |
| IslandSearch.TogetherIffConnected | cer_intent/architect/dpir_marl_engine.py:183-212 | two live nodes share an island exactly when a walk over live links joins them |
| IslandSearch.IslandsInHopOrder | cer_intent/architect/dpir_marl_engine.py:198-210 | each island lists its nodes in non-decreasing hop distance from its first node |
| IslandSearch.IslandsInTopologyOrder | cer_intent/architect/dpir_marl_engine.py:198-212 | each island is listed under its earliest node in topology order, and the islands in the order of those nodes |
| IslandCount.CountIsClasses | cer_intent/architect/dpir_marl_engine.py:196-212 | there are as many islands as connected classes of live nodes |
| IslandCount.OneMoreLink | cer_intent/architect/dpir_marl_engine.py:180-212 | one more live link lowers the number of classes by one if it joins two of them and by zero otherwise |
| IslandCount.BridgingLinkMergesClasses | cer_intent/architect/dpir_marl_engine.py:180-212 | a link between two islands replaces exactly those two by their union |
| IslandCount.OneClassExactly | cer_intent/architect/dpir_marl_engine.py:450 | there is one class exactly when there is a node and all nodes are connected |
| TestbedEngine.MarkedNodes | cer_intent/architect/dpir_marl_engine.py:109-119 | nodes keep their order and are destroyed exactly when cut |
| TestbedEngine.MarkedLinks | cer_intent/architect/dpir_marl_engine.py:121-131 | links keep their order and are severed exactly when an end is cut |
| TestbedEngine.LitBridges | cer_intent/architect/dpir_marl_engine.py:133-159 | a candidate bridge contributes a link exactly when its id is ignited or the phase is recovered, in candidate order |
| TestbedEngine.ComputeFlows | cer_intent/architect/dpir_marl_engine.py:267-355 | the loop over flow specs yields one report per flow id, or fails at the first flow whose route is empty |
| TestbedEngine.OptionATestbedEngine.constructor | cer_intent/architect/dpir_marl_engine.py:64-71 | a new engine is in normal phase with nothing cut, ignited or recorded |
| TestbedEngine.OptionATestbedEngine.GetState | cer_intent/architect/dpir_marl_engine.py:97-178 | the view is the function of topology, phase, cut set and ignited set that the lemmas speak about |
| TestbedEngine.OptionATestbedEngine.TriggerDisaster | cer_intent/architect/dpir_marl_engine.py:378-410 | cuts the named or default nodes, clears the ignited set, and records the islands if the view could be computed |
| TestbedEngine.OptionATestbedEngine.IgniteBridge | cer_intent/architect/dpir_marl_engine.py:412-425 | new state and view after one ignition; the history does not change |
| TestbedEngine.OptionATestbedEngine.TriggerMarlRecovery | cer_intent/architect/dpir_marl_engine.py:427-455 | ignites exactly the candidates and records whether one island is left; if a bridge lacks a key of the record the call fails with the state changed and nothing recorded |
| TestbedEngine.OptionATestbedEngine.ResetToNormal | cer_intent/architect/dpir_marl_engine.py:457-463 | back to normal with nothing cut or ignited; the topology and the history stay |
| TestbedEngine.OptionATestbedEngine.LoadCustomTopology | cer_intent/architect/dpir_marl_engine.py:81-86 | a new topology starts in the reset state |
| TestbedProperties.ReachableIsConsistent | cer_intent/architect/dpir_marl_engine.py:378-463 | after any commands: normal exactly when nothing is cut, normal implies nothing ignited, recovered exactly when all of a non-empty candidate set is ignited |
| TestbedProperties.PhaseTestsAreRedundant | cer_intent/architect/dpir_marl_engine.py:102-138 | in every reachable state the phase tests add nothing: disaster means a non-empty cut set, and a bridge is live exactly when its id is ignited |
| TestbedProperties.LiveSetIs | cer_intent/architect/dpir_marl_engine.py:109-119 | a node id is live exactly when declared and not cut |
| TestbedCommands.DefaultCutIs | cer_intent/architect/dpir_marl_engine.py:88-95 | the default targets are exactly the PDU-controlled nodes and hubs, or CORE and HUB where there are none |
| TestbedCommands.DisasterTakesDown | cer_intent/architect/dpir_marl_engine.py:378-382 | a disaster takes down exactly the nodes it names, and the default targets if it names none |
| TestbedCommands.IgnitionTakesDown | cer_intent/architect/dpir_marl_engine.py:412-416 | an ignition in normal operation takes down exactly the default targets, any other no further node |
| TestbedCommands.RecoveryTakesDown | cer_intent/architect/dpir_marl_engine.py:427-430 | a recovery in normal operation takes down exactly the default targets, any other no further node |
| TestbedCommands.ResetRestores | cer_intent/architect/dpir_marl_engine.py:457-462 | after a reset no declared node is down |
| TestbedCommands.LoadingStartsAfresh | cer_intent/architect/dpir_marl_engine.py:81-86 | loading a topology leads to the state a new engine has with it; no other command changes the topology |
| TestbedCommands.BridgesAfter | cer_intent/architect/dpir_marl_engine.py:378-463 | disaster and reset put every candidate out, recovery lights all, an ignition its own and no other |
| TestbedCommands.PhaseAfter | cer_intent/architect/dpir_marl_engine.py:378-463 | the phase after each command; an ignition completes the recovery exactly when it lights the last candidate |
| TestbedCommands.UsableLinksAre | cer_intent/architect/dpir_marl_engine.py:121-159 | traffic can use exactly the base links with no end cut and one link for each lit candidate |
| TestbedCommands.BridgeLinkIs | cer_intent/architect/dpir_marl_engine.py:138-156 | a lit candidate's link joins its ends with its latency, 1.2 by default, and its Mbps, or the whole part of its Gbps in Mbps, or 1000 |
| TestbedProperties.IslandsAreComponents | cer_intent/architect/dpir_marl_engine.py:180-212 | in every state the islands partition the live nodes, two sharing one exactly when a walk of usable links over live nodes joins them |
| TestbedProperties.TogetherHasRoute | cer_intent/architect/dpir_marl_engine.py:161-162 | nodes of one island always have a route |
| TestbedProperties.AgreementExactly | cer_intent/architect/dpir_marl_engine.py:161-162 | islands and routes agree on all live pairs exactly when live links connect any two live nodes that a chain of usable links through dead nodes joins |
| TestbedProperties.WellPlacedAgrees | cer_intent/architect/dpir_marl_engine.py:138-162 | they agree if link and bridge ends are declared and no live bridge ends at a cut node |
| TestbedProperties.StrayStateIsReached | cer_intent/architect/dpir_marl_engine.py:378-437 | the state of the next row is reached by one disaster and one recovery |
| TestbedProperties.RouteThroughDestroyedNode | cer_intent/architect/dpir_marl_engine.py:138-156 | with two bridges to a cut node, a route joins nodes of different islands |
| TestbedRuns.IgnitionRunEnds | cer_intent/architect/dpir_marl_engine.py:412-425 | where a run of ignitions ends depends only on which ids were ignited |
| TestbedRuns.IgnitionsAmountToRecovery | cer_intent/architect/dpir_marl_engine.py:412-437 | any run of ignitions after a disaster ends where one recovery does exactly when there are candidates and the ids ignited by then are the candidates |
| TestbedRuns.IgnitionsLookLikeRecovery | cer_intent/architect/dpir_marl_engine.py:412-437 | its view, islands and flows included, equals that of recovery exactly when there are candidates and all are lit, or when both views fail |
| TestbedRuns.IgnitionsNeverHurtFlows | cer_intent/architect/dpir_marl_engine.py:412-425 | outside normal operation no run of ignitions severs a routed flow or raises its minimum search cost |
| TestbedRuns.IgnitionsNeverHurtReports | cer_intent/architect/dpir_marl_engine.py:267-425 | in the views of a run of ignitions a flow reported routed stays routed, and its reported latency rises by at most half a millisecond per link of its former route that states none, so never if all topology links state theirs |
| TestbedRuns.IgnitionRaisesReport | cer_intent/architect/dpir_marl_engine.py:231-300 | beside a link that states no latency, igniting a 0.9 ms bridge raises the report from 0.5 to 0.9 ms |
| TestbedRuns.OneIgnition | cer_intent/architect/dpir_marl_engine.py:412-425 | a new candidate lowers the island count by one if its live ends were in different islands, by zero otherwise |
| TestbedRuns.IdleIgnition | cer_intent/architect/dpir_marl_engine.py:418 | an unknown or already ignited id leaves the islands alone |
| TestbedRuns.IslandsPerBridge | cer_intent/architect/dpir_marl_engine.py:412-425 | a run of ignitions removes at most one island per newly ignited candidate |
| TestbedRuns.RecoveryNeedsBridges | cer_intent/architect/dpir_marl_engine.py:427-450 | `tree_restored` from k islands needs at least k - 1 candidates not yet ignited |
| TestbedRuns.TreeRestoredExactly | cer_intent/architect/dpir_marl_engine.py:427-450 | `tree_restored` holds exactly when some node survives the cut and base links and candidate bridges between survivors join every two of them |
| TestbedFlows.ViewFailsExactly | cer_intent/architect/dpir_marl_engine.py:299-301 | the state view fails exactly when some flow has equal source and destination |
| TestbedFlows.ReportsAreTruthful | cer_intent/architect/dpir_marl_engine.py:267-355 | a flow is reported routed exactly when its ends are connected; its path is a chain of least latency, plus 10 per link off a preference in force, hops and latency are those of its links, the rate is the lesser of request and bottleneck |
| TestbedFlows.ReportedLatencyExactly | cer_intent/architect/dpir_marl_engine.py:231-300 | the latency a view reports is the searched one less 0.5 for each link of the route that states none, so equal exactly when all state theirs |
| TestbedFlows.ReportedLatencyIsLeast | cer_intent/architect/dpir_marl_engine.py:234-300 | where no media preference is in force, as always outside the normal phase, and all topology links state a latency, no usable walk is faster than the latency reported |
| TestbedFlows.StatusTellsPhase | cer_intent/architect/dpir_marl_engine.py:303-353 | in every reachable state a routed flow is optimal or active exactly in the normal phase |
| TestbedFlows.ReportsNameTheirFlow | cer_intent/architect/dpir_marl_engine.py:283-355 | reports name the ends of their flow; the rate is in Gbps exactly when the request is; an unrouted flow is blamed on the hub exactly if it is F1 or F2 and asks for Gbps |
| TestbedFlows.StatusTellsKind | cer_intent/architect/dpir_marl_engine.py:303-353 | in reachable states a routed flow is optimal or active by whether it asks for Gbps in normal operation, and direct or tree by whether its path has one hop afterwards; the medium is named only for the former |
| StableSort.SortPermutes | cer_intent/tsn_simulation_runner.py:231 | sorting permutes |
| StableSort.SortSorts | cer_intent/tsn_simulation_runner.py:231 | sorting sorts |
| StableSort.SortIsStable | cer_intent/architect/executor.py:44 | ties keep their order |
| StableSort.SortIsIdempotent | cer_intent/architect/strategy.py:145 | sorting again changes nothing |
| StableSort.StableSortIsUnique | cer_intent/architect/agent.py:114 | any sorted list with the same ties in the same order is the sorted list |
| PacketTrace.BuildDiscretePacketTrace | cer_intent/tsn_simulation_runner.py:19-232 | the two loops, the sort and the cut produce the trace the lemmas speak about |
| PacketTrace.AppendTsn | cer_intent/tsn_simulation_runner.py:65-149 | the first loop appends the hops of the TSN packets sent |
| PacketTrace.AppendBe | cer_intent/tsn_simulation_runner.py:151-228 | the second loop appends the hops of the best-effort packets sent |
| PacketProperties.HopTimesIncrease | cer_intent/tsn_simulation_runner.py:75-108 | times strictly increase along a packet's hops |
| PacketProperties.HopKinds | cer_intent/tsn_simulation_runner.py:172-228 | a packet is transmitted first and ends in one RX or DROP, with neither in between |
| PacketProperties.PacketsFollowTheirWay | cer_intent/tsn_simulation_runner.py:110-228 | each hop happens where the one before sent the packet or at the queue it waits in, a dequeue leaves one packet fewer, and the way ends at the sink or at the queue that drops it |
| PacketProperties.HopDepths | cer_intent/tsn_simulation_runner.py:80-101 | queue depths of hops stay within 0..150 |
| PacketProperties.TravelFitsPeriod | cer_intent/tsn_simulation_runner.py:70-228 | a packet is gone before the next of its flow is sent |
| PacketProperties.QosLatency | cer_intent/tsn_simulation_runner.py:80-108 | with QoS a TSN packet takes exactly 488 us, or 618 us in rain |
| PacketProperties.QosIsFaster | cer_intent/tsn_simulation_runner.py:80-108 | QoS makes every TSN packet faster, under every perturbation; without it the latencies are as given |
| PacketProperties.DropsNeedOverload | cer_intent/tsn_simulation_runner.py:184-190 | only even best-effort packets are dropped, without QoS, under surge or rain |
| PacketTimetable.TsnTimetable | cer_intent/tsn_simulation_runner.py:65-73 | the i-th TSN packet starts at 180 ms plus 24 ms each and is sent exactly if the simulation lasts 274 ms beyond its periods, the first at 230 ms |
| PacketTimetable.BeTimetable | cer_intent/tsn_simulation_runner.py:151-158 | the same for best effort: 240 ms, 36 ms, 336 ms and 290 ms |
| PacketTimetable.DroppedExactly | cer_intent/tsn_simulation_runner.py:161-191 | a packet is lost exactly if it is best effort, without QoS, even, and from the 18th on in a surge or the 22nd on in rain |
| PacketTimetable.BeLatency | cer_intent/tsn_simulation_runner.py:161-202 | the travel time of every best-effort packet, delivered or lost, as a function of scenario and number |
| PacketTimetable.SurgeLatency | cer_intent/tsn_simulation_runner.py:80-108 | without QoS in a surge a TSN packet takes 6.073 ms and 18 us for each packet ahead of it |
| PacketTimetable.HopsCarry | cer_intent/tsn_simulation_runner.py:110-228 | every hop carries its packet's flow, number, size and band |
| PacketTimetable.QueuesShow | cer_intent/tsn_simulation_runner.py:80-228 | the queue depth of every hop: the backlog at the queue, one less behind it, two less at C1 for best effort, a full buffer at a drop, else zero |
| PacketTimetable.EndsAre | cer_intent/tsn_simulation_runner.py:144-228 | the final event names the sink or the drop |
| PacketTimetable.ScenarioEventsAre | cer_intent/tsn_simulation_runner.py:33-63 | an event of no packet announces QoS or the perturbation of the scenario, at its time and place |
| PacketTimetable.ScenarioIsAnnounced | cer_intent/tsn_simulation_runner.py:33-63 | QoS, rain and any perturbation are announced exactly when present |
| PacketTimetable.TraceIsCut | cer_intent/tsn_simulation_runner.py:230-232 | the trace is in order of time, and the whole list or its first 900 events |
| PacketProperties.SentExactly | cer_intent/tsn_simulation_runner.py:69-158 | the packets sent are exactly the planned ones that are in time |
| PacketProperties.EveryPacketEndsOnce | cer_intent/tsn_simulation_runner.py:69-228 | before the cut every packet sent has exactly one final event |
| PacketProperties.TraceIsCausal | cer_intent/tsn_simulation_runner.py:230-232 | even after the cut, with a hop of a packet the trace holds all its earlier hops, earlier |
| PacketProperties.TraceHasNoStrays | cer_intent/tsn_simulation_runner.py:230-232 | the trace is sorted and holds only scenario events and hops of packets sent, queue depths in 0..150 |
| PacketProperties.NoOvertaking | cer_intent/tsn_simulation_runner.py:69-232 | all events of a packet precede all events of the next packet of its flow |
| PacketProperties.PrefixConserves | cer_intent/tsn_simulation_runner.py:230-232 | in every prefix of the trace TX count is at least RX plus DROP count |
| ArchitectPlan.SelectStrategy | cer_intent/architect/agent.py:98-119 | candidates are the collected strategies by descending confidence; the selected one has the highest confidence and was generated first among equals |
| ArchitectPlan.FirstOfSortedIsFirstBest | cer_intent/architect/agent.py:114-117 | the head of the stable descending sort is the first of the most confident |
| ArchitectPlan.ExecutePlan | cer_intent/architect/executor.py:28-69 | the loop executes the actions in stable execution order and stops at a failing required one |
| ArchitectPlan.FoldFailsExactly | cer_intent/architect/executor.py:46-60 | execution fails exactly when a required action fails, with the first such message |
| ArchitectPlan.FoldCollects | cer_intent/architect/executor.py:46-60 | otherwise it yields the configs of all successful actions in order and one warning per failed one |
| ArchitectExecution.InOrderIsTheRun | cer_intent/architect/executor.py:43-44 | sorting yields the one list of the actions that ascends by `execution_order` and keeps actions of equal order as listed |
| ArchitectExecution.ExecutionCollects | cer_intent/architect/executor.py:36-69 | if no required action fails, the result holds the configs of the successful actions by ascending `execution_order`, ties in plan order, the strategy line followed by their non-empty explanations, and a warning for every other action |
| ArchitectExecution.ExecutionFails | cer_intent/architect/executor.py:46-60 | otherwise it fails with the message of the first required action to fail in that order |
| ArchitectExecution.StorageKeeps | cer_intent/api/server.py:729-751 | storing and rebuilding keep name, description, source, confidence and rationale and, in the order of execution, every field of the actions that execution reads |
| ArchitectExecution.CollectedIs | cer_intent/architect/agent.py:98-106 | a skill that raises contributes nothing, any other its strategies, in the order of the skills |
| ArchitectPlan.TypeRoundTrips | cer_intent/architect/strategy.py:33-51 | an action type is recovered from its stored value |
| ArchitectPlan.ActionsRoundTrip | cer_intent/api/server.py:738-745 | rebuilding never raises and keeps order and everything execution reads, with `required` reset to true |
| ArchitectPlan.PlanSurvivesStorageExactly | cer_intent/api/server.py:729-759 | the rebuilt strategy executes like the original for all translators exactly when every optional action is answered by a required one with the same call, earlier, or later with no required action with a new call in between |
| ArchitectPlan.PlanRoundTripsExactly | cer_intent/api/server.py:729-759 | for given translators, the two executions are equal exactly when nothing fails or the first failure is reported like the first required failure |
| ArchitectPlan.RequiredPlansRoundTrip | cer_intent/api/server.py:729-759 | always, when all actions are required |
| ArchitectPlan.OptionalFailureTurnsFatal | cer_intent/api/server.py:738-745 | never, when the only action is optional and fails |
| IntentLifecycle.IntentServer.SubmitIntent | cer_intent/api/server.py:106-313 | the store after a submission, for all parser, validator, translator, fabric and adapter answers and an exception at any stage between two status changes |
| IntentLifecycle.IntentServer.CommissionIntent | cer_intent/api/server.py:182-282 | translation, mediation and actuation of an intent that need not wait |
| IntentLifecycle.IntentServer.ApproveIntent | cer_intent/api/server.py:714-828 | the store after an approval, refused, failed or applied |
| IntentLifecycle.IntentServer.ReconcileIntents | cer_intent/assurance/reconciler.py:62-86 | the two passes expire, else mark drift, for monitored intents only |
| IntentLifecycle.IntentServer.ExpireAndCheck | cer_intent/assurance/reconciler.py:70-77 | the first pass |
| IntentLifecycle.IntentServer.MarkDrifted | cer_intent/assurance/reconciler.py:79-86 | the second pass |
| IntentLifecycle.IntentServer.DeleteIntent | cer_intent/api/server.py:334-348 | the intent is gone, all others stay |
| IntentLifecycle.IntentServer.SetServiceDlc | cer_intent/api/server.py:391-423 | only the service-DLC state of that intent changes |
| IntentLifecycle.RunsAreSound | cer_intent/api/server.py:106-828 | in every run an APPLIED, DRIFT or EXPIRED intent has applied_at, state OPERATION and a verdict other than DENY; REMEDIATED never occurs |
| IntentLifecycle.StepMoves | cer_intent/api/server.py:714-828 | the complete list of status changes an intent in the store can make |
| IntentLifecycle.SubmissionAppliesExactly | cer_intent/api/server.py:144-282 | a submission ends APPLIED exactly when nothing refuses it, the verdict is ALLOW or MODIFY and every device succeeds |
| IntentLifecycle.ApprovalAppliesExactly | cer_intent/api/server.py:753-828 | an approval ends APPLIED whatever the devices answer and even when deferred, unless translation, denial or an exception fails the intent |
| IntentOutcomes.SubmissionStoresExactly | cer_intent/api/server.py:106-128 | a submission stores nothing exactly when the parser raises anything but a parsing error |
| IntentOutcomes.SubmissionFailsExactly | cer_intent/api/server.py:109-282 | a submission ends FAILED exactly when it does not parse, is invalid, cannot be translated, is denied or a device fails, and no exception strikes before |
| IntentOutcomes.SubmissionPendsExactly | cer_intent/api/server.py:218-254 | it ends PENDING exactly when it is translated and then deferred |
| IntentOutcomes.SubmissionWaitsExactly | cer_intent/api/server.py:156-180 | it ends AWAITING_APPROVAL exactly when it is valid, planned and not asked to go on at once |
| IntentOutcomes.SubmissionSucceedsExactly | cer_intent/api/server.py:256-282 | it ends APPLIED exactly when it is allowed or modified and every device succeeds |
| IntentOutcomes.SubmissionCrashesExactly | cer_intent/api/server.py:130-313 | the four transient states are exactly those an exception between two status changes leaves behind |
| IntentOutcomes.SubmissionRecords | cer_intent/api/server.py:106-282 | what else a submission records: times, verdict, strategy, 3GPP and service-DLC state |
| IntentOutcomes.ApprovalEndsExactly | cer_intent/api/server.py:714-828 | an intent that does not wait or has no strategy is left alone, any other ends APPLIED or FAILED, by the answers |
| IntentOutcomes.ApprovalRecords | cer_intent/api/server.py:753-828 | what else an approval records |
| IntentOutcomes.ReconciliationExactly | cer_intent/assurance/reconciler.py:62-86 | an intent in force expires exactly when its age exceeds its time to live, else it is marked exactly when it drifts; nothing else changes |
| IntentOutcomes.ExpiryIsOnTime | cer_intent/assurance/reconciler.py:70-77 | an intent as submitted expires when more than its time to live has passed since, and not before |
| IntentOutcomes.ServiceCallsExactly | cer_intent/api/server.py:334-423 | pause, resume and suspend set their one state, delete removes the intent |
| IntentOutcomes.UnknownIdsChangeNothing | cer_intent/api/server.py:334-423 | calls for an unknown id change nothing |
| IntentLifecycle.StuckStaysStuck | cer_intent/assurance/reconciler.py:63-68 | over any run without its deletion, a FAILED or EXPIRED intent, and one left behind by deferral or an exception, keeps its status |
| IntentLifecycle.NoStrategyNoApproval | cer_intent/api/server.py:726-731 | an intent whose plan has no selected strategy waits for approval for ever |
| IntentLifecycle.ReconcileIsIdempotent | cer_intent/assurance/reconciler.py:62-86 | reconciling again with the same clock and telemetry changes nothing |
| BoundedLogs.TailOfAppend | cer_intent/device/state_store.py:71-76 | cutting after every append equals cutting the full list once |
| BoundedLogs.StateStore.UpdateDeviceConfig | cer_intent/device/state_store.py:48-78 | the store shows the latest entry per device and type of the whole log, the history its last 100 |
| BoundedLogs.StateStore.GetDeviceState | cer_intent/device/state_store.py:80-82 | the device as the whole log determines it |
| BoundedLogs.StateStore.GetConfigHistory | cer_intent/device/state_store.py:88-90 | the slice of the last 100 entries, with Python's meaning of zero and negative limits |
| BoundedLogs.StateStore.Clear | cer_intent/device/state_store.py:92-95 | an empty store |
| BoundedLogs.WithEntryShowsLatest | cer_intent/device/state_store.py:57-68 | overwriting in the nested dict is last-writer-wins over the whole log |
| BoundedLogs.UpdateIsShown | cer_intent/device/state_store.py:48-69 | after an update the device shows the given type, parameters, intent, time and first 500 characters of YANG, and nothing else has changed |
| BoundedLogs.HistoryAgreesWithConfigs | cer_intent/device/state_store.py:67-76 | for every pair still in the history, the current config is its latest history entry |
| BoundedLogs.LoadRecent | cer_intent/assurance/audit_log.py:29-44 | the last n readable entries of the file |
| BoundedLogs.ParsedIs | cer_intent/assurance/audit_log.py:33-41 | every readable line yields its entry in place, any other nothing |
| BoundedLogs.AuditLog.constructor | cer_intent/assurance/audit_log.py:22-27 | the buffer starts as the last 500 readable entries of the file |
| BoundedLogs.AuditLog.Record | cer_intent/assurance/audit_log.py:46-62 | the buffer stays the last 500 entries told, whether or not writes succeed |
| BoundedLogs.AuditLog.GetRecent | cer_intent/assurance/audit_log.py:121-126 | the filtered and sliced view of the last 500 entries told |
| BoundedLogs.AuditLog.GetForIntent | cer_intent/assurance/audit_log.py:128-130 | exactly the kept entries of one intent, in order |
| BoundedLogs.OfTypeIs | cer_intent/assurance/audit_log.py:124-125 | the type filter keeps each entry of the type, where it stands |
| BoundedLogs.OfIntentIs | cer_intent/assurance/audit_log.py:128-130 | the intent filter keeps each entry of the intent, where it stands |
| BoundedLogs.RestartReloadsExactly | cer_intent/assurance/audit_log.py:27-62 | the loader finds the buffer of a log in its file exactly when none of its last 500 records failed to be written, if the log was never cut or no lost entry was told twice |
| BoundedLogs.Restart | cer_intent/assurance/audit_log.py:22-27 | a log built anew from the file of another holds the same buffer exactly then |
| BoundedLogs.EqualEntriesHideALoss | cer_intent/assurance/audit_log.py:46-62 | among 501 equal entries a lost one leaves no trace |
| DigitalTwin.Twin.ExecuteWhatIfScenario | tfs_unity/tfs_digital_twin_api.py:111-369 | the overall breach flag is the OR of the per-impact flags, the proposed rules are the deduplicated recommendations; the call fails, leaving the state at experimenting and storing nothing, exactly when some perturbation cannot be evaluated |
| DigitalTwin.ScenarioFailsExactly | tfs_unity/tfs_digital_twin_api.py:135-342 | the loop over the perturbations raises exactly when one of them cannot be evaluated, whatever stands around it |
| DigitalTwin.EvaluationFailsExactly | tfs_unity/tfs_digital_twin_api.py:136-300 | evaluating a perturbation raises exactly when its type is no text, its device is a list or an object, a field that its own kind reads is present and not accepted by float() or len(), or a rain fade has a negative rain rate |
| DigitalTwin.RainRateOfMinusFive | tfs_unity/tfs_digital_twin_api.py:297-300 | a rain fade of -5 mm/h raises although all its fields convert; one of 5 mm/h does not |
| DigitalTwin.EvaluateDomain | tfs_unity/tfs_digital_twin_api.py:147-342 | the branch of one domain adds its impact and rules, or raises, and raises the overall flag exactly when its impact is flagged |
| DigitalTwin.EvaluateOne | tfs_unity/tfs_digital_twin_api.py:135-342 | one turn of the loop: what it adds or that it raises, the overall flag being set exactly when the impact is flagged |
| DigitalTwin.Deduplicate | tfs_unity/tfs_digital_twin_api.py:344-351 | the loop with `seen_types` keeps the rules no earlier rule shares a type with |
| DigitalTwin.DeduplicationKeepsFirsts | tfs_unity/tfs_digital_twin_api.py:344-351 | types are distinct and of every type the first rule is kept |
| DigitalTwin.Validate | tfs_unity/tfs_digital_twin_api.py:382-412 | the gate raises exactly when some action's gated value is no number, even after an action it refuses, and otherwise passes exactly the plans whose actions are all accepted |
| DigitalTwin.GateAcceptsExactly | tfs_unity/tfs_digital_twin_api.py:388-409 | an action is accepted exactly when its value is within the operating envelope, its type is not gated, or its value is a NaN for a rate or an MCS floor |
| DigitalTwin.UnsafeCallsSetNaN | tfs_unity/tfs_digital_twin_api.py:386-434 | of the calls of an accepted plan exactly those that set a rate or an MCS floor to NaN are outside the envelope |
| DigitalTwin.NaNRateIsSent | tfs_unity/tfs_digital_twin_api.py:404-433 | a plan with a slice rate of NaN is accepted and its call is outside the envelope |
| DigitalTwin.Twin.ValidateAndCloseLoop | tfs_unity/tfs_digital_twin_api.py:371-446 | a plan that is refused or makes the gate raise sends nothing, an accepted one sends its calls in order, all of them or those before the client raises; a call ever sent is outside the envelope exactly when it sets a rate or an MCS floor to NaN |
| DigitalTwin.Dispatch | tfs_unity/tfs_digital_twin_api.py:422-438 | the dispatch loop makes all calls, or those the client answers before it raises |
| DigitalTwin.ProposalsPassTheGateExactly | tfs_unity/tfs_digital_twin_api.py:252-445 | the proposed rules pass the gate exactly when the first admitted slice request, if any, asks for positive bandwidth |
| DigitalTwin.SurgesAndFadesBreach | tfs_unity/tfs_digital_twin_api.py:147-322 | every surge whose multiplier is not negative, and every fade from the default SNR or worse whose attenuation is not, is flagged as a breach, NaN and infinities included |
| TwinRequests.SurgeBreachesExactly | tfs_unity/tfs_digital_twin_api.py:147-162 | a surge is flagged exactly when its multiplier is above -540/161, infinite or NaN |
| TwinRequests.FadeBreachesExactly | tfs_unity/tfs_digital_twin_api.py:302-322 | a fade is flagged exactly when the SNR left is below 577/23 dB |
| TwinRequests.SurgeRequest | tfs_unity/tfs_digital_twin_api.py:147-182 | by the three type names of a surge: impact and rules, the multiplier being 3 by default |
| TwinRequests.FailureRequest | tfs_unity/tfs_digital_twin_api.py:187-215 | by the three type names of a failed link: never flagged, one reroute |
| TwinRequests.SleepRequest | tfs_unity/tfs_digital_twin_api.py:217-247 | by the three type names of a sleep: never flagged, one policy |
| TwinRequests.AdmissionRequest | tfs_unity/tfs_digital_twin_api.py:252-283 | by the two type names of an admission: flagged exactly above 850 Mbps, otherwise that bandwidth is reserved |
| TwinRequests.LossRequest | tfs_unity/tfs_digital_twin_api.py:288-342 | `los_blockage` and `beam_mispointing`: the loss, 22.5 or 14.2 dB by default, is taken from the device's SNR, never below 2 dB |
| TwinRequests.RainRequest | tfs_unity/tfs_digital_twin_api.py:296-342 | `rain_fade` and `channel_degradation`: so is what the rain takes |
| TwinRequests.RainTakes | tfs_unity/tfs_digital_twin_api.py:298-300 | rain takes 0.85 dB per km, 0.8 km by default, times the power of its rate |
| TwinRequests.OtherRequest | tfs_unity/tfs_digital_twin_api.py:135-342 | any other type leaves no impact and no rule |
| TwinRequests.FloorAction | tfs_unity/tfs_digital_twin_api.py:388-428 | an `ACM_FLOOR_HARDENING` action is accepted exactly with a number in 0..12 or NaN, 2 by default, and sets just that floor |
| TwinRequests.CarrierAction | tfs_unity/tfs_digital_twin_api.py:395-431 | a `CARRIER_FREQUENCY_RETUNE` action is accepted exactly with a number in 57..71, 64.8 by default, and tunes just there |
| TwinRequests.SliceAction | tfs_unity/tfs_digital_twin_api.py:402-434 | a slice action of either type is accepted exactly with a positive number up to 10000 or NaN, 1000 by default, and sets just that rate |
| TwinRequests.OtherAction | tfs_unity/tfs_digital_twin_api.py:386-438 | an action of any other type is accepted and sends nothing |
| TwinRequests.AllCallsConcat | tfs_unity/tfs_digital_twin_api.py:422-438 | a plan's calls are those of its actions, one after the other |
| XmlElement.Element.Indent | cer_intent/yang_builder.py:46-60 | the in-place recursion turns the tree into its laid-out form and nothing else |
| XmlIndent.IndentKeepsData | cer_intent/yang_builder.py:46-60 | tags, attributes, child order, leaf text and all non-blank text and tails survive |
| XmlIndent.VisibleTextStays | cer_intent/yang_builder.py:49-60 | text and tail with a visible character stay, and so do leaf text and the tail of a childless root |
| XmlIndent.IndentIsIdempotent | cer_intent/yang_builder.py:46-60 | laying out twice is laying out once, although a last child's tail is written twice |
| XmlIndent.IndentLaysOut | cer_intent/yang_builder.py:48-60 | where the tree had blanks, children start on a new line one step further in and the end tag lines up with its element |
| XmlIndent.IndentTail | cer_intent/yang_builder.py:52-60 | an element's new tail depends on the old one only through its being blank |

## Left out

- NonNegative: the engine's methods require non-negative latencies; the source does not check them, and its heap loop need not end without them.
- GetState: names, coordinates, modulation, throughput and other descriptive fields of nodes, links and bridges, the phase description text and timestamps are not in the view.
- ComputeFlows: rates and latencies are exact reals; the rounding to 2 and 3 decimals is not modelled.
- TriggerDisaster: the PDU and attenuator labels of the history record are not modelled.
- The topology file and the environment variables that select it; a malformed topology (a node without id, a link without ends).
- BuildDiscretePacketTrace: the simulation time is a whole number of microseconds, the queue-depth products are exact, and the explanatory notes, with the surge multiplier and rain loss that only appear in them, are omitted.
- ExecutePlan: messages show an action type by its stored value, as f-strings do before Python 3.11; `_execute_action` is a parameter, a function of the action fields it reads; the YANG XML added afterwards is not modelled.
- SelectStrategy: the reasoning trace, the network observations and the conflict report of the plan are not modelled.
- IntentServer: intents are values in the store, so two references to one intent object are not modelled; parsing, validation, drift detection and actuation answers are inputs, and an exception inside drift detection is not modelled. Thread interleavings inside a call are not modelled.
- ApproveIntent: what is pushed to devices is not modelled; the source marks the intent APPLIED even if devices report failure, and so does the model.
- StateStore: JSON encoding and the file on disk, so also a restart of the store, are not modelled.
- Record: a write either appends its whole line or nothing.
- ExecuteWhatIfScenario: finite quantities are exact reals and not rounded, the 0.80th power of a rain rate and what float() makes of a text are inputs, type names are taken as already lower-case, integers too large for a float are not told apart, and the descriptive fields of impacts and rules are omitted; a request that is malformed itself (an id that cannot be a dict key, perturbations that are no list of objects) is not modelled.
- XmlElement.Element: tag, attributes and child list are constants, which the layout pass never assigns; trees are built from finished children, while `_sub` appends to an existing parent.
- ValidateAndCloseLoop: a plan whose actions are no list of objects, the results the client returns and the validation notes are not modelled; an action type that is no text counts as one the gate does not know.
- The Flask routes, Socket.IO, SSH and subprocess runs, RESTCONF and TFS clients, device adapters and the dashboard: input and output.
- The intent parser, the validator, the conflict fabric, the skills, the translators and the device registry: their answers are inputs.
- Portfolio tables, MRMC and SNR lookups, resolution tiers and parameter range checks: would only add easy members.
