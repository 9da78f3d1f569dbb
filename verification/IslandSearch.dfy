/**
 OptionATestbedEngine._compute_islands: the loops, and what the islands mean in
 terms of walks over live links.
 */
module IslandSearch {
  import opened Common
  import opened Links
  import B = Bfs

  /** Ids of the nodes that are not destroyed, in topology order. */
  function LiveIds(nodes: seq<Node>): (ids: seq<NodeId>)
    ensures forall v :: v in ids <==> exists n :: n in nodes && n.status != Destroyed && n.id == v
  {
    if nodes == [] then []
    else
      var init, n := nodes[..|nodes| - 1], nodes[|nodes| - 1];
      assert nodes == init + [n];
      LiveIds(init) + if n.status != Destroyed then [n.id] else []
  }

  predicate IsLive(l: Link, live: set<NodeId>) {
    Usable(l) && l.source in live && l.target in live
  }

  /** The usable links with both ends live: all the island search looks at. */
  function LiveLinks(links: seq<Link>, live: set<NodeId>): set<Link> {
    set l | l in links && IsLive(l, live)
  }

  // ----- adjacency -----

  function LinkNeighbours(l: Link, live: set<NodeId>, u: NodeId): seq<NodeId> {
    if !IsLive(l, live) then []
    else (if l.source == u then [l.target] else []) + (if l.target == u then [l.source] else [])
  }

  function Neighbours(links: seq<Link>, live: set<NodeId>, u: NodeId): seq<NodeId> {
    if links == [] then []
    else Neighbours(links[..|links| - 1], live, u) + LinkNeighbours(links[|links| - 1], live, u)
  }

  lemma {:induction false} NeighboursAreLinked(links: seq<Link>, live: set<NodeId>, u: NodeId, v: NodeId)
    requires v in Neighbours(links, live, u)
    ensures exists l :: l in LiveLinks(links, live) && Joins(l, u, v)
  {
    var init, l := links[..|links| - 1], links[|links| - 1];
    if v in LinkNeighbours(l, live, u) {
      assert l in LiveLinks(links, live) && Joins(l, u, v);
    } else {
      NeighboursAreLinked(init, live, u, v);
      var k :| k in LiveLinks(init, live) && Joins(k, u, v);
      assert k in LiveLinks(links, live);
    }
  }

  lemma {:induction false} LinkedAreNeighbours(links: seq<Link>, live: set<NodeId>, u: NodeId, v: NodeId, l: Link)
    requires l in LiveLinks(links, live) && Joins(l, u, v)
    ensures v in Neighbours(links, live, u)
  {
    var init, last := links[..|links| - 1], links[|links| - 1];
    assert links == init + [last];
    if l == last {
      assert v in LinkNeighbours(l, live, u);
    } else {
      LinkedAreNeighbours(init, live, u, v, l);
    }
  }

  function AdjacencyOf(ids: seq<NodeId>, links: seq<Link>): B.Adjacency {
    map u | u in ids :: Neighbours(links, Elems(ids), u)
  }

  lemma AdjacencyIsUndirected(ids: seq<NodeId>, links: seq<Link>)
    ensures var adj := AdjacencyOf(ids, links);
            B.Closed(adj) && B.Symmetric(adj) && adj.Keys == Elems(ids)
  {
    var adj, live := AdjacencyOf(ids, links), Elems(ids);
    forall u, v | u in adj && v in adj[u] ensures v in adj && u in adj[v] {
      NeighboursAreLinked(links, live, u, v);
      var l :| l in LiveLinks(links, live) && Joins(l, u, v);
      LinkedAreNeighbours(links, live, v, u, l);
    }
  }

  function Islands(ids: seq<NodeId>, links: seq<Link>): seq<seq<NodeId>> {
    AdjacencyIsUndirected(ids, links);
    B.Sweep(AdjacencyOf(ids, links), ids, {})
  }

  // ----- paths of ids against walks over links -----

  lemma {:induction false} PathToWalk(
      ids: seq<NodeId>, links: seq<Link>, u: NodeId, v: NodeId, p: seq<NodeId>)
    returns (w: Route)
    requires B.IsPathFrom(AdjacencyOf(ids, links), u, v, p)
    ensures IsWalkFrom(LiveLinks(links, Elems(ids)), u, v, w) && w.nodes == p
    decreases |p|
  {
    if |p| == 1 {
      w := Route(p, []);
    } else {
      var x := p[|p| - 2];
      B.ShortenPath(AdjacencyOf(ids, links), u, v, p);
      w := PathToWalk(ids, links, u, x, p[..|p| - 1]);
      NeighboursAreLinked(links, Elems(ids), x, v);
      var l :| l in LiveLinks(links, Elems(ids)) && Joins(l, x, v);
      ExtendWalk(LiveLinks(links, Elems(ids)), u, x, v, w, l);
      w := Extend(w, l, v);
      assert p == p[..|p| - 1] + [v];
    }
  }

  lemma {:induction false} WalkToPath(ids: seq<NodeId>, links: seq<Link>, u: NodeId, v: NodeId, w: Route)
    requires IsWalkFrom(LiveLinks(links, Elems(ids)), u, v, w) && u in ids
    ensures B.IsPathFrom(AdjacencyOf(ids, links), u, v, w.nodes) && v in ids
    decreases |w.links|
  {
    var live := Elems(ids);
    if |w.links| > 0 {
      var x, l := w.nodes[|w.links| - 1], w.links[|w.links| - 1];
      ShortenWalk(LiveLinks(links, live), u, v, w);
      WalkToPath(ids, links, u, x, Shorten(w));
      LinkedAreNeighbours(links, live, x, v, l);
      B.ExtendPath(AdjacencyOf(ids, links), u, x, v, Shorten(w).nodes);
      assert v in live;
    }
  }

  lemma ReachableIffConnected(ids: seq<NodeId>, links: seq<Link>, u: NodeId, v: NodeId)
    requires u in ids
    ensures v in ids && B.Reachable(AdjacencyOf(ids, links), u, v) <==> Connected(LiveLinks(links, Elems(ids)), u, v)
  {
    var adj := AdjacencyOf(ids, links);
    if B.Reachable(adj, u, v) {
      var p :| B.IsPathFrom(adj, u, v, p);
      var w := PathToWalk(ids, links, u, v, p);
    }
    if Connected(LiveLinks(links, Elems(ids)), u, v) {
      var w :| IsWalkFrom(LiveLinks(links, Elems(ids)), u, v, w);
      WalkToPath(ids, links, u, v, w);
    }
  }

  // ----- islands are components -----

  ghost predicate Together(islands: seq<seq<NodeId>>, u: NodeId, v: NodeId) {
    exists c :: c in islands && u in c && v in c
  }

  /** Non-empty, duplicate-free, pairwise disjoint lists of exactly the given nodes. */
  ghost predicate Partitions(islands: seq<seq<NodeId>>, ids: seq<NodeId>) {
    && (forall c :: c in islands ==> c != [] && Distinct(c) && Elems(c) <= Elems(ids))
    && B.Disjoint(islands)
    && (forall v :: v in ids ==> B.Covers(islands, v))
  }

  lemma SweptIslands(ids: seq<NodeId>, links: seq<Link>)
    ensures var adj, islands := AdjacencyOf(ids, links), Islands(ids, links);
            && B.AllIslands(adj, islands) && B.Disjoint(islands)
            && forall v :: v in ids ==> B.Covers(islands, v)
  {
    AdjacencyIsUndirected(ids, links);
    B.SweepListsIslands(AdjacencyOf(ids, links), ids, {});
  }

  lemma IslandMembers(ids: seq<NodeId>, links: seq<Link>, c: seq<NodeId>)
    requires c in Islands(ids, links)
    ensures c != [] && Distinct(c) && c[0] in ids
    ensures forall v :: v in c <==> v in ids && Connected(LiveLinks(links, Elems(ids)), c[0], v)
  {
    SweptIslands(ids, links);
    assert B.IsIsland(AdjacencyOf(ids, links), c);
    assert c[0] in c;
    forall v ensures v in c <==> v in ids && Connected(LiveLinks(links, Elems(ids)), c[0], v) {
      ReachableIffConnected(ids, links, c[0], v);
    }
  }

  lemma IslandsPartition(ids: seq<NodeId>, links: seq<Link>)
    ensures Partitions(Islands(ids, links), ids)
  {
    SweptIslands(ids, links);
    forall c | c in Islands(ids, links) ensures c != [] && Distinct(c) && Elems(c) <= Elems(ids) {
      IslandMembers(ids, links, c);
    }
  }

  lemma IslandOf(ids: seq<NodeId>, links: seq<Link>, u: NodeId) returns (c: seq<NodeId>)
    requires u in ids
    ensures c in Islands(ids, links) && u in c
  {
    SweptIslands(ids, links);
    assert B.Covers(Islands(ids, links), u);
    var k :| 0 <= k < |Islands(ids, links)| && u in Islands(ids, links)[k];
    c := Islands(ids, links)[k];
  }

  lemma SharedIslandConnects(ids: seq<NodeId>, links: seq<Link>, c: seq<NodeId>, u: NodeId, v: NodeId)
    requires c in Islands(ids, links) && u in c && v in c
    ensures Connected(LiveLinks(links, Elems(ids)), u, v)
  {
    var es := LiveLinks(links, Elems(ids));
    IslandMembers(ids, links, c);
    ConnectedSym(es, c[0], u);
    ConnectedTrans(es, u, c[0], v);
  }

  /** Two live nodes share an island exactly when a walk over live links joins them. */
  lemma TogetherIffConnected(ids: seq<NodeId>, links: seq<Link>, u: NodeId, v: NodeId)
    requires u in ids && v in ids
    ensures Together(Islands(ids, links), u, v) <==> Connected(LiveLinks(links, Elems(ids)), u, v)
  {
    var islands := Islands(ids, links);
    if Together(islands, u, v) {
      var c :| c in islands && u in c && v in c;
      SharedIslandConnects(ids, links, c, u, v);
    }
    if Connected(LiveLinks(links, Elems(ids)), u, v) {
      var c := IslandOf(ids, links, u);
      IslandMembers(ids, links, c);
      ConnectedTrans(LiveLinks(links, Elems(ids)), c[0], u, v);
      assert v in c;
    }
  }

  /** Islands are listed under their earliest node in topology order, and in the order of those nodes. */
  lemma IslandsInTopologyOrder(ids: seq<NodeId>, links: seq<Link>)
    ensures B.InIdOrder(ids, Islands(ids, links))
  {
    AdjacencyIsUndirected(ids, links);
    B.SweepKeepsIdOrder(AdjacencyOf(ids, links), ids, {});
  }

  ghost predicate ReachedWithin(es: set<Link>, u: NodeId, v: NodeId, hops: nat) {
    exists w :: IsWalkFrom(es, u, v, w) && |w.links| <= hops
  }

  lemma IslandHops(ids: seq<NodeId>, links: seq<Link>, c: seq<NodeId>)
    requires c in Islands(ids, links)
    ensures |c| > 0 && c[0] in ids && B.HopOrdered(AdjacencyOf(ids, links), c)
  {
    SweptIslands(ids, links);
    IslandMembers(ids, links, c);
    assert B.IsIsland(AdjacencyOf(ids, links), c);
  }

  lemma NearIsReached(ids: seq<NodeId>, links: seq<Link>, u: NodeId, v: NodeId, hops: nat)
    requires B.IsNear(AdjacencyOf(ids, links), u, v, hops + 1)
    ensures ReachedWithin(LiveLinks(links, Elems(ids)), u, v, hops)
  {
    var q :| B.IsPathFrom(AdjacencyOf(ids, links), u, v, q) && |q| <= hops + 1;
    var r := PathToWalk(ids, links, u, v, q);
  }

  lemma HopOrderOfWalks(ids: seq<NodeId>, links: seq<Link>, c: seq<NodeId>, i: nat, j: nat, w: Route)
    requires i <= j < |c| && c[0] in ids && B.HopOrdered(AdjacencyOf(ids, links), c)
    requires IsWalkFrom(LiveLinks(links, Elems(ids)), c[0], c[j], w)
    ensures ReachedWithin(LiveLinks(links, Elems(ids)), c[0], c[i], |w.links|)
  {
    WalkToPath(ids, links, c[0], c[j], w);
    assert B.IsNear(AdjacencyOf(ids, links), c[0], c[i], |w.nodes|);
    NearIsReached(ids, links, c[0], c[i], |w.links|);
  }

  /** Each island lists its nodes in non-decreasing hop distance from its first node. */
  lemma IslandsInHopOrder(ids: seq<NodeId>, links: seq<Link>, c: seq<NodeId>, i: nat, j: nat, w: Route)
    requires c in Islands(ids, links) && i <= j < |c|
    requires IsWalkFrom(LiveLinks(links, Elems(ids)), c[0], c[j], w)
    ensures ReachedWithin(LiveLinks(links, Elems(ids)), c[0], c[i], |w.links|)
  {
    IslandHops(ids, links, c);
    HopOrderOfWalks(ids, links, c, i, j, w);
  }

  // ----- the method -----

  ghost predicate Represents(adj: B.Adjacency, live: set<NodeId>, links: seq<Link>) {
    adj.Keys == live && forall u :: u in live ==> adj[u] == Neighbours(links, live, u)
  }

  function AppendLink(adj: B.Adjacency, l: Link): B.Adjacency
    requires l.source in adj && l.target in adj
  {
    var adj' := adj[l.source := adj[l.source] + [l.target]];
    adj'[l.target := adj'[l.target] + [l.source]]
  }

  lemma AppendLinkNeighbours(adj: B.Adjacency, l: Link, live: set<NodeId>, u: NodeId)
    requires adj.Keys == live && IsLive(l, live) && u in live
    ensures AppendLink(adj, l)[u] == adj[u] + LinkNeighbours(l, live, u)
  {
  }

  lemma NeighboursStep(links: seq<Link>, live: set<NodeId>, i: nat, u: NodeId)
    requires i < |links|
    ensures Neighbours(links[..i + 1], live, u) == Neighbours(links[..i], live, u) + LinkNeighbours(links[i], live, u)
  {
    assert links[..i + 1][..i] == links[..i];
  }

  lemma LiveLinkRepresented(adj: B.Adjacency, live: set<NodeId>, links: seq<Link>, i: nat)
    requires i < |links| && Represents(adj, live, links[..i]) && IsLive(links[i], live)
    ensures Represents(AppendLink(adj, links[i]), live, links[..i + 1])
  {
    forall u | u in live ensures AppendLink(adj, links[i])[u] == Neighbours(links[..i + 1], live, u) {
      AppendLinkNeighbours(adj, links[i], live, u);
      NeighboursStep(links, live, i, u);
    }
  }

  lemma DeadLinkRepresented(adj: B.Adjacency, live: set<NodeId>, links: seq<Link>, i: nat)
    requires i < |links| && Represents(adj, live, links[..i]) && !IsLive(links[i], live)
    ensures Represents(adj, live, links[..i + 1])
  {
    forall u | u in live ensures adj[u] == Neighbours(links[..i + 1], live, u) {
      NeighboursStep(links, live, i, u);
      assert adj[u] + [] == adj[u];
    }
  }

  method BuildAdjacency(ids: seq<NodeId>, links: seq<Link>) returns (adj: B.Adjacency)
    ensures adj == AdjacencyOf(ids, links)
  {
    var live := Elems(ids);
    adj := map u | u in ids :: [];
    for i := 0 to |links|
      invariant Represents(adj, live, links[..i])
    {
      var l := links[i];
      if !(Usable(l) && l.source in live && l.target in live) {
        DeadLinkRepresented(adj, live, links, i);
      } else {
        LiveLinkRepresented(adj, live, links, i);
        adj := adj[l.source := adj[l.source] + [l.target]];
        adj := adj[l.target := adj[l.target] + [l.source]];
      }
    }
    assert links[..|links|] == links;
  }

  method SearchIsland(
      adj: B.Adjacency, start: NodeId, visited: set<NodeId>)
    returns (comp: seq<NodeId>, visited': set<NodeId>)
    requires B.Closed(adj) && B.Symmetric(adj) && visited <= adj.Keys && start in adj && start !in visited
    requires B.ClosedUnder(adj, visited)
    ensures comp == B.Search(adj, [], [start], visited + {start})
    ensures visited' == visited + Elems(comp) && visited' <= adj.Keys && B.ClosedUnder(adj, visited')
  {
    ghost var goal := B.Search(adj, [], [start], visited + {start});
    comp := [];
    var queue := [start];
    visited' := visited + {start};
    assert Elems([] + [start]) == {start};
    while queue != []
      invariant visited' <= adj.Keys && Elems(comp) <= adj.Keys && Elems(queue) <= adj.Keys
      invariant visited' == visited + Elems(comp + queue)
      invariant B.Search(adj, comp, queue, visited') == goal
      decreases adj.Keys - visited', |queue|
    {
      B.StepMeasure(adj, queue, visited');
      var curr := queue[0];
      ghost var before := visited';
      ElemsConcat(comp, [curr]);
      B.StepOrder(adj, comp, queue, B.Fresh(adj[curr], before));
      ElemsConcat(comp + queue, B.Fresh(adj[curr], before));
      comp, queue := comp + [curr], queue[1..];
      queue, visited' := Enqueue(adj[curr], queue, visited');
    }
    assert comp + queue == comp;
    B.SearchFromStart(adj, start, visited);
  }

  method Enqueue(
      nbrs: seq<NodeId>, queue: seq<NodeId>, visited: set<NodeId>)
    returns (queue': seq<NodeId>, visited': set<NodeId>)
    ensures queue' == queue + B.Fresh(nbrs, visited)
    ensures visited' == visited + Elems(B.Fresh(nbrs, visited))
  {
    queue', visited' := queue, visited;
    for i := 0 to |nbrs|
      invariant queue' == queue + B.Fresh(nbrs[..i], visited)
      invariant visited' == visited + Elems(B.Fresh(nbrs[..i], visited))
    {
      assert nbrs[..i + 1][..i] == nbrs[..i];
      ElemsConcat(B.Fresh(nbrs[..i], visited), [nbrs[i]]);
      if nbrs[i] !in visited' {
        visited' := visited' + {nbrs[i]};
        queue' := queue' + [nbrs[i]];
      }
    }
    assert nbrs[..|nbrs|] == nbrs;
  }

  lemma SweepStep(adj: B.Adjacency, ids: seq<NodeId>, i: nat, visited: set<NodeId>)
    requires B.Closed(adj) && visited <= adj.Keys && Elems(ids) <= adj.Keys && i < |ids|
    ensures ids[i] in adj && Elems(ids[i..]) <= adj.Keys && Elems(ids[i + 1..]) <= adj.Keys
    ensures B.Sweep(adj, ids[i..], visited) ==
            if ids[i] in visited then B.Sweep(adj, ids[i + 1..], visited)
            else
              var c := B.Search(adj, [], [ids[i]], visited + {ids[i]});
              [c] + B.Sweep(adj, ids[i + 1..], visited + Elems(c))
  {
    assert ids[i] in Elems(ids);
    assert forall v :: v in ids[i..] ==> v in Elems(ids);
    assert forall v :: v in ids[i + 1..] ==> v in Elems(ids);
    assert ids[i..][1..] == ids[i + 1..];
  }

  method ComputeIslands(nodes: seq<Node>, links: seq<Link>) returns (islands: seq<seq<NodeId>>)
    ensures islands == Islands(LiveIds(nodes), links)
    ensures Partitions(islands, LiveIds(nodes))
  {
    var ids := LiveIds(nodes);
    IslandsPartition(ids, links);
    AdjacencyIsUndirected(ids, links);
    var adj := BuildAdjacency(ids, links);
    var visited: set<NodeId> := {};
    islands := [];
    ghost var goal := Islands(ids, links);
    assert ids[0..] == ids;
    for i := 0 to |ids|
      invariant visited <= adj.Keys && B.ClosedUnder(adj, visited) && Elems(ids[i..]) <= adj.Keys
      invariant islands + B.Sweep(adj, ids[i..], visited) == goal
    {
      SweepStep(adj, ids, i, visited);
      if ids[i] !in visited {
        var comp;
        comp, visited := SearchIsland(adj, ids[i], visited);
        islands := islands + [comp];
      }
    }
    assert islands + [] == islands;
  }
}
