/**
 Breadth-first search with a FIFO queue over an adjacency dict, as in
 OptionATestbedEngine._compute_islands.  `Search` is the inner while loop as a
 function, `Sweep` the outer for loop; IslandSearch.dfy has the loops themselves.
 */
module Bfs {
  import opened Common
  import opened Links

  type Adjacency = map<NodeId, seq<NodeId>>

  ghost predicate Closed(adj: Adjacency) {
    forall u, v :: u in adj && v in adj[u] ==> v in adj
  }

  ghost predicate Symmetric(adj: Adjacency) {
    forall u, v :: u in adj && v in adj && v in adj[u] ==> u in adj[v]
  }

  // ----- paths -----

  ghost predicate IsPath(adj: Adjacency, p: seq<NodeId>) {
    && |p| > 0 && p[0] in adj
    && forall i :: 0 <= i < |p| - 1 ==> p[i] in adj && p[i + 1] in adj[p[i]]
  }

  ghost predicate IsPathFrom(adj: Adjacency, u: NodeId, v: NodeId, p: seq<NodeId>) {
    IsPath(adj, p) && p[0] == u && p[|p| - 1] == v
  }

  ghost predicate Reachable(adj: Adjacency, u: NodeId, v: NodeId) {
    exists p :: IsPathFrom(adj, u, v, p)
  }

  lemma ExtendPath(adj: Adjacency, u: NodeId, v: NodeId, w: NodeId, p: seq<NodeId>)
    requires IsPathFrom(adj, u, v, p) && v in adj && w in adj[v]
    ensures IsPathFrom(adj, u, w, p + [w])
  {
  }

  lemma ShortenPath(adj: Adjacency, u: NodeId, v: NodeId, p: seq<NodeId>)
    requires IsPathFrom(adj, u, v, p) && |p| > 1
    ensures IsPathFrom(adj, u, p[|p| - 2], p[..|p| - 1])
    ensures p[|p| - 2] in adj && v in adj[p[|p| - 2]]
  {
  }

  // ----- the two loops, as functions -----

  /** The neighbours not seen before, each once, in adjacency order: what the innermost loop enqueues. */
  function Fresh(nbrs: seq<NodeId>, visited: set<NodeId>): (d: seq<NodeId>)
    ensures Distinct(d) && Elems(d) == Elems(nbrs) - visited
  {
    if nbrs == [] then []
    else
      var init, v := nbrs[..|nbrs| - 1], nbrs[|nbrs| - 1];
      assert nbrs == init + [v];
      var d := Fresh(init, visited);
      ElemsConcat(init, [v]);
      ElemsConcat(d, [v]);
      if v in visited || v in d then d else d + [v]
  }

  /** The while loop: `comp` has been listed, `queue` waits, `visited` holds both and earlier islands. */
  function Search(adj: Adjacency, comp: seq<NodeId>, queue: seq<NodeId>, visited: set<NodeId>): (c: seq<NodeId>)
    requires Closed(adj) && visited <= adj.Keys && Elems(comp) <= adj.Keys && Elems(queue) <= adj.Keys
    ensures Elems(c) <= adj.Keys
    decreases adj.Keys - visited, |queue|
  {
    if queue == [] then comp
    else
      StepMeasure(adj, queue, visited);
      var d := Fresh(adj[queue[0]], visited);
      ElemsConcat(comp, [queue[0]]);
      Search(adj, comp + [queue[0]], queue[1..] + d, visited + Elems(d))
  }

  lemma StepMeasure(adj: Adjacency, queue: seq<NodeId>, visited: set<NodeId>)
    requires Closed(adj) && visited <= adj.Keys && queue != [] && Elems(queue) <= adj.Keys
    ensures queue[0] in adj
    ensures var d := Fresh(adj[queue[0]], visited);
            && visited + Elems(d) <= adj.Keys && Elems(queue[1..] + d) <= adj.Keys
            && (adj.Keys - (visited + Elems(d)) < adj.Keys - visited || d == [])
  {
    assert queue[0] in Elems(queue);
    var d := Fresh(adj[queue[0]], visited);
    assert forall v :: v in queue[1..] ==> v in Elems(queue);
    ElemsConcat(queue[1..], d);
    if d != [] { assert d[0] in Elems(d); assert d[0] in adj.Keys - visited; }
  }

  // ----- what one search lists -----

  /** `seen` is what earlier islands visited; `comp + queue` is what this one has discovered so far. */
  ghost predicate SearchInv(adj: Adjacency, start: NodeId, seen: set<NodeId>, comp: seq<NodeId>, queue: seq<NodeId>) {
    && seen <= adj.Keys && start !in seen
    && |comp + queue| > 0 && (comp + queue)[0] == start
    && Distinct(comp + queue)
    && Elems(comp + queue) <= adj.Keys - seen
    && (forall v :: v in comp + queue ==> Reachable(adj, start, v))
    && (forall u, v :: u in comp && u in adj && v in adj[u] ==> v in seen || v in comp + queue)
  }

  lemma StartSearchInv(adj: Adjacency, start: NodeId, seen: set<NodeId>)
    requires seen <= adj.Keys && start in adj && start !in seen
    ensures SearchInv(adj, start, seen, [], [start])
  {
    assert IsPathFrom(adj, start, start, [start]);
    assert [] + [start] == [start];
  }

  lemma StepOrder(adj: Adjacency, comp: seq<NodeId>, queue: seq<NodeId>, d: seq<NodeId>)
    requires queue != []
    ensures (comp + [queue[0]]) + (queue[1..] + d) == (comp + queue) + d
  {
    assert queue == [queue[0]] + queue[1..];
  }

  lemma StepSearchInv(adj: Adjacency, start: NodeId, seen: set<NodeId>, comp: seq<NodeId>, queue: seq<NodeId>)
    requires Closed(adj) && SearchInv(adj, start, seen, comp, queue) && queue != []
    ensures queue[0] in adj
    ensures var d := Fresh(adj[queue[0]], seen + Elems(comp + queue));
            SearchInv(adj, start, seen, comp + [queue[0]], queue[1..] + d)
  {
    var q := queue[0];
    assert q in comp + queue;
    assert q in Elems(comp + queue);
    var d := Fresh(adj[q], seen + Elems(comp + queue));
    StepOrder(adj, comp, queue, d);
    var order := (comp + queue) + d;
    ElemsConcat(comp + queue, d);
    forall v | v in order ensures Reachable(adj, start, v) {
      if v !in comp + queue {
        assert v in Elems(d) && v in Elems(adj[q]);
        var p :| IsPathFrom(adj, start, q, p);
        ExtendPath(adj, start, q, v, p);
      }
    }
    forall i, j | 0 <= i < j < |order| ensures order[i] != order[j] {
      assert order[j] in Elems(order);
      if i < |comp + queue| <= j {
        assert order[j] in Elems(d) && order[i] in Elems(comp + queue);
      }
    }
    forall u, v | u in comp + [q] && u in adj && v in adj[u] ensures v in seen || v in order {
      if u == q {
        assert v in Elems(adj[q]);
        assert v in seen || v in Elems(comp + queue) || v in Elems(d);
      }
    }
  }

  /** The listed component is exactly what is reachable from its first node. */
  ghost predicate IsComponentOf(adj: Adjacency, start: NodeId, comp: seq<NodeId>) {
    && |comp| > 0 && comp[0] == start && Distinct(comp)
    && forall v :: v in comp <==> v in adj && Reachable(adj, start, v)
  }

  ghost predicate ClosedUnder(adj: Adjacency, s: set<NodeId>) {
    forall u, v :: u in s && u in adj && v in adj[u] ==> v in s
  }

  lemma {:induction false} PathStaysInside(adj: Adjacency, s: set<NodeId>, u: NodeId, v: NodeId, p: seq<NodeId>)
    requires ClosedUnder(adj, s) && u in s && IsPathFrom(adj, u, v, p)
    ensures v in s
    decreases |p|
  {
    if |p| > 1 {
      ShortenPath(adj, u, v, p);
      PathStaysInside(adj, s, u, p[|p| - 2], p[..|p| - 1]);
    }
  }

  lemma FinishedIsComponent(adj: Adjacency, start: NodeId, seen: set<NodeId>, comp: seq<NodeId>)
    requires Closed(adj) && Symmetric(adj) && ClosedUnder(adj, seen)
    requires SearchInv(adj, start, seen, comp, [])
    ensures IsComponentOf(adj, start, comp) && Elems(comp) !! seen && Elems(comp) <= adj.Keys
    ensures ClosedUnder(adj, seen + Elems(comp))
  {
    assert comp + [] == comp;
    forall u, v | u in Elems(comp) && u in adj && v in adj[u] ensures v in Elems(comp) {
      assert v in adj;
      assert u in comp;
      assert u in adj[v];
    }
    forall v | v in adj && Reachable(adj, start, v) ensures v in comp {
      var p :| IsPathFrom(adj, start, v, p);
      assert start in Elems(comp);
      PathStaysInside(adj, Elems(comp), start, v, p);
    }
    forall v | v in comp ensures v in adj { assert v in Elems(comp); }
  }

  lemma {:induction false} SearchListsComponent(
      adj: Adjacency, start: NodeId, seen: set<NodeId>, comp: seq<NodeId>, queue: seq<NodeId>)
    requires Closed(adj) && Symmetric(adj) && ClosedUnder(adj, seen)
    requires SearchInv(adj, start, seen, comp, queue)
    requires Elems(comp) <= adj.Keys && Elems(queue) <= adj.Keys
    ensures seen + Elems(comp + queue) <= adj.Keys
    ensures var c := Search(adj, comp, queue, seen + Elems(comp + queue));
            && IsComponentOf(adj, start, c) && Elems(c) !! seen && Elems(c) <= adj.Keys
            && ClosedUnder(adj, seen + Elems(c))
    decreases adj.Keys - (seen + Elems(comp + queue)), |queue|
  {
    if queue == [] {
      FinishedIsComponent(adj, start, seen, comp);
      assert comp + [] == comp;
    } else {
      var visited := seen + Elems(comp + queue);
      StepSearchInv(adj, start, seen, comp, queue);
      StepMeasure(adj, queue, visited);
      var d := Fresh(adj[queue[0]], visited);
      StepOrder(adj, comp, queue, d);
      ElemsConcat(comp + queue, d);
      ElemsConcat(comp, [queue[0]]);
      assert seen + Elems((comp + [queue[0]]) + (queue[1..] + d)) == visited + Elems(d);
      SearchListsComponent(adj, start, seen, comp + [queue[0]], queue[1..] + d);
    }
  }

  // ----- hop distance -----

  ghost predicate HasPathOf(adj: Adjacency, u: NodeId, v: NodeId, hops: nat) {
    exists p :: IsPathFrom(adj, u, v, p) && |p| == hops + 1
  }

  /** `lev` numbers the discovered nodes by hop distance, as the FIFO queue keeps them. */
  ghost predicate LevelInv(adj: Adjacency, comp: seq<NodeId>, queue: seq<NodeId>, lev: seq<nat>) {
    var order := comp + queue;
    && |lev| == |order| > 0 && lev[0] == 0
    && (forall i, j :: 0 <= i <= j < |lev| ==> lev[i] <= lev[j])
    && (forall i :: 0 <= i < |lev| ==> HasPathOf(adj, order[0], order[i], lev[i]))
    && (forall j :: |comp| <= j < |lev| ==> lev[j] <= lev[|comp|] + 1)
    && (forall i, j :: 0 <= i < |comp| && 0 <= j < |lev| && order[i] in adj && order[j] in adj[order[i]] ==>
          lev[j] <= lev[i] + 1)
  }

  function Levels(lev: seq<nat>, comp: seq<NodeId>, d: seq<NodeId>): seq<nat>
    requires |comp| < |lev|
  {
    lev + seq(|d|, _ => lev[|comp|] + 1)
  }

  lemma StepPaths(adj: Adjacency, start: NodeId, q: NodeId, hops: nat, d: seq<NodeId>)
    requires HasPathOf(adj, start, q, hops) && q in adj && Elems(d) <= Elems(adj[q])
    ensures forall v :: v in d ==> HasPathOf(adj, start, v, hops + 1)
  {
    var p :| IsPathFrom(adj, start, q, p) && |p| == hops + 1;
    forall v | v in d ensures HasPathOf(adj, start, v, hops + 1) {
      assert v in Elems(d);
      ExtendPath(adj, start, q, v, p);
    }
  }

  lemma StepPathLevels(adj: Adjacency, comp: seq<NodeId>, queue: seq<NodeId>, lev: seq<nat>, d: seq<NodeId>)
    requires LevelInv(adj, comp, queue, lev) && queue != [] && queue[0] in adj && Elems(d) <= Elems(adj[queue[0]])
    ensures forall i :: 0 <= i < |Levels(lev, comp, d)| ==>
              HasPathOf(adj, (comp + queue)[0], (comp + queue + d)[i], Levels(lev, comp, d)[i])
  {
    var order := comp + queue;
    assert order[|comp|] == queue[0];
    StepPaths(adj, order[0], queue[0], lev[|comp|], d);
    forall i | 0 <= i < |Levels(lev, comp, d)|
      ensures HasPathOf(adj, order[0], (order + d)[i], Levels(lev, comp, d)[i])
    {
      if i >= |lev| {
        assert (order + d)[i] == d[i - |lev|];
        assert (order + d)[i] in d;
      } else {
        assert (order + d)[i] == order[i];
      }
    }
  }

  /** Neighbours of nodes already listed are not among the fresh ones. */
  lemma OldEdgesStayInside(
      adj: Adjacency, start: NodeId, seen: set<NodeId>, comp: seq<NodeId>, queue: seq<NodeId>, d: seq<NodeId>,
      u: NodeId, v: NodeId)
    requires SearchInv(adj, start, seen, comp, queue) && Elems(d) !! seen + Elems(comp + queue)
    requires u in comp && u in adj && v in adj[u]
    ensures v !in d
  {
    if v in comp + queue { assert v in Elems(comp + queue); }
    assert v in seen + Elems(comp + queue);
    assert v !in Elems(d);
  }

  lemma StepEdgeLevels(
      adj: Adjacency, start: NodeId, seen: set<NodeId>, comp: seq<NodeId>, queue: seq<NodeId>, lev: seq<nat>,
      d: seq<NodeId>, i: nat, j: nat)
    requires SearchInv(adj, start, seen, comp, queue) && Elems(d) !! seen + Elems(comp + queue)
    requires LevelInv(adj, comp, queue, lev) && queue != []
    requires i <= |comp| && j < |lev| + |d|
    requires var order := comp + queue + d; order[i] in adj && order[j] in adj[order[i]]
    ensures Levels(lev, comp, d)[j] <= Levels(lev, comp, d)[i] + 1
  {
    var order := comp + queue + d;
    if i < |comp| {
      assert order[i] == comp[i];
      forall x | |lev| <= x < |order| ensures order[x] in d { assert order[x] == d[x - |lev|]; }
      OldEdgesStayInside(adj, start, seen, comp, queue, d, order[i], order[j]);
      assert j < |lev| && order[j] == (comp + queue)[j] && order[i] == (comp + queue)[i];
    }
  }

  lemma StepLevels(
      adj: Adjacency, start: NodeId, seen: set<NodeId>, comp: seq<NodeId>, queue: seq<NodeId>, lev: seq<nat>)
    requires Closed(adj) && SearchInv(adj, start, seen, comp, queue) && queue != []
    requires LevelInv(adj, comp, queue, lev)
    ensures queue[0] in adj
    ensures var d := Fresh(adj[queue[0]], seen + Elems(comp + queue));
            LevelInv(adj, comp + [queue[0]], queue[1..] + d, Levels(lev, comp, d))
  {
    assert (comp + queue)[|comp|] == queue[0] && queue[0] in Elems(comp + queue);
    var d := Fresh(adj[queue[0]], seen + Elems(comp + queue));
    StepOrder(adj, comp, queue, d);
    var order', lev' := (comp + queue) + d, Levels(lev, comp, d);
    StepPathLevels(adj, comp, queue, lev, d);
    forall i, j | 0 <= i < |comp| + 1 && 0 <= j < |lev'| && order'[i] in adj && order'[j] in adj[order'[i]]
      ensures lev'[j] <= lev'[i] + 1
    {
      StepEdgeLevels(adj, start, seen, comp, queue, lev, d, i, j);
    }
  }

  /** No node is listed before one that is fewer hops from the island's first node. */
  ghost predicate HopOrdered(adj: Adjacency, comp: seq<NodeId>) {
    forall i, j, p {:trigger IsPathFrom(adj, comp[0], comp[j], p), IsNear(adj, comp[0], comp[i], |p|)} ::
      0 <= i <= j < |comp| && IsPathFrom(adj, comp[0], comp[j], p) ==> IsNear(adj, comp[0], comp[i], |p|)
  }

  ghost predicate IsNear(adj: Adjacency, u: NodeId, v: NodeId, bound: nat) {
    exists q :: IsPathFrom(adj, u, v, q) && |q| <= bound
  }

  lemma {:induction false} LevelIsShortest(adj: Adjacency, comp: seq<NodeId>, lev: seq<nat>, j: nat, p: seq<NodeId>)
    requires Closed(adj) && LevelInv(adj, comp, [], lev) && j < |comp|
    requires forall v :: v in comp <==> v in adj && Reachable(adj, comp[0], v)
    requires Distinct(comp) && IsPathFrom(adj, comp[0], comp[j], p)
    ensures lev[j] + 1 <= |p|
    decreases |p|
  {
    assert comp + [] == comp;
    if |p| > 1 {
      ShortenPath(adj, comp[0], comp[j], p);
      var u := p[|p| - 2];
      assert Reachable(adj, comp[0], u);
      var i :| 0 <= i < |comp| && comp[i] == u;
      LevelIsShortest(adj, comp, lev, i, p[..|p| - 1]);
    } else {
      assert j == 0;
    }
  }

  lemma FinishedIsHopOrdered(adj: Adjacency, comp: seq<NodeId>, lev: seq<nat>)
    requires Closed(adj) && LevelInv(adj, comp, [], lev)
    requires |comp| > 0 && IsComponentOf(adj, comp[0], comp)
    ensures HopOrdered(adj, comp)
  {
    assert comp + [] == comp;
    forall i, j, p | 0 <= i <= j < |comp| && IsPathFrom(adj, comp[0], comp[j], p)
      ensures IsNear(adj, comp[0], comp[i], |p|)
    {
      LevelIsShortest(adj, comp, lev, j, p);
      assert HasPathOf(adj, comp[0], comp[i], lev[i]);
    }
  }

  lemma {:induction false} SearchIsHopOrdered(
      adj: Adjacency, start: NodeId, seen: set<NodeId>, comp: seq<NodeId>, queue: seq<NodeId>, lev: seq<nat>)
    requires Closed(adj) && Symmetric(adj) && ClosedUnder(adj, seen)
    requires SearchInv(adj, start, seen, comp, queue) && LevelInv(adj, comp, queue, lev)
    requires Elems(comp) <= adj.Keys && Elems(queue) <= adj.Keys && seen + Elems(comp + queue) <= adj.Keys
    ensures HopOrdered(adj, Search(adj, comp, queue, seen + Elems(comp + queue)))
    decreases adj.Keys - (seen + Elems(comp + queue)), |queue|
  {
    if queue == [] {
      FinishedIsComponent(adj, start, seen, comp);
      FinishedIsHopOrdered(adj, comp, lev);
    } else {
      var visited := seen + Elems(comp + queue);
      StepMeasure(adj, queue, visited);
      StepSearchInv(adj, start, seen, comp, queue);
      StepLevels(adj, start, seen, comp, queue, lev);
      var d := Fresh(adj[queue[0]], visited);
      StepOrder(adj, comp, queue, d);
      ElemsConcat(comp + queue, d);
      ElemsConcat(comp, [queue[0]]);
      assert seen + Elems((comp + [queue[0]]) + (queue[1..] + d)) == visited + Elems(d);
      SearchIsHopOrdered(adj, start, seen, comp + [queue[0]], queue[1..] + d, Levels(lev, comp, d));
    }
  }

  /** One inner loop from a fresh start lists the start's component, nearest nodes first. */
  lemma SearchFromStart(adj: Adjacency, start: NodeId, seen: set<NodeId>)
    requires Closed(adj) && Symmetric(adj) && ClosedUnder(adj, seen)
    requires seen <= adj.Keys && start in adj && start !in seen
    ensures Elems([start]) == {start}
    ensures var c := Search(adj, [], [start], seen + {start});
            && IsComponentOf(adj, start, c) && Elems(c) !! seen && Elems(c) <= adj.Keys
            && ClosedUnder(adj, seen + Elems(c)) && HopOrdered(adj, c)
  {
    StartSearchInv(adj, start, seen);
    assert [] + [start] == [start];
    SearchListsComponent(adj, start, seen, [], [start]);
    assert IsPathFrom(adj, start, start, [start]);
    assert LevelInv(adj, [], [start], [0]);
    SearchIsHopOrdered(adj, start, seen, [], [start], [0]);
  }

  // ----- the outer loop -----

  function Sweep(adj: Adjacency, ids: seq<NodeId>, visited: set<NodeId>): seq<seq<NodeId>>
    requires Closed(adj) && visited <= adj.Keys && Elems(ids) <= adj.Keys
  {
    if ids == [] then []
    else
      assert ids[0] in Elems(ids);
      assert forall v :: v in ids[1..] ==> v in Elems(ids);
      if ids[0] in visited then Sweep(adj, ids[1..], visited)
      else
        var c := Search(adj, [], [ids[0]], visited + {ids[0]});
        [c] + Sweep(adj, ids[1..], visited + Elems(c))
  }

  ghost predicate IsIsland(adj: Adjacency, c: seq<NodeId>) {
    |c| > 0 && IsComponentOf(adj, c[0], c) && HopOrdered(adj, c)
  }

  ghost predicate AllIslands(adj: Adjacency, islands: seq<seq<NodeId>>) {
    forall c :: c in islands ==> IsIsland(adj, c)
  }

  ghost predicate Disjoint(islands: seq<seq<NodeId>>) {
    forall i, j :: 0 <= i < j < |islands| ==> Elems(islands[i]) !! Elems(islands[j])
  }

  ghost predicate Avoids(islands: seq<seq<NodeId>>, s: set<NodeId>) {
    forall k :: 0 <= k < |islands| ==> Elems(islands[k]) !! s
  }

  ghost predicate Covers(islands: seq<seq<NodeId>>, v: NodeId) {
    exists k :: 0 <= k < |islands| && v in islands[k]
  }

  lemma ConsDisjoint(c: seq<NodeId>, rest: seq<seq<NodeId>>, visited: set<NodeId>)
    requires Elems(c) !! visited && Disjoint(rest) && Avoids(rest, visited + Elems(c))
    ensures Disjoint([c] + rest) && Avoids([c] + rest, visited)
  {
    var islands := [c] + rest;
    forall k | 0 <= k < |islands| ensures Elems(islands[k]) !! visited {
      if k > 0 { assert islands[k] == rest[k - 1]; }
    }
    forall i, j | 0 <= i < j < |islands| ensures Elems(islands[i]) !! Elems(islands[j]) {
      assert islands[j] == rest[j - 1];
      if i > 0 { assert islands[i] == rest[i - 1]; }
    }
  }

  lemma ConsCovers(c: seq<NodeId>, rest: seq<seq<NodeId>>, v: NodeId)
    requires v in c || Covers(rest, v)
    ensures Covers([c] + rest, v)
  {
    if v in c {
      assert v in ([c] + rest)[0];
    } else {
      var k :| 0 <= k < |rest| && v in rest[k];
      assert v in ([c] + rest)[k + 1];
    }
  }

  lemma {:induction false} SweepListsIslands(adj: Adjacency, ids: seq<NodeId>, visited: set<NodeId>)
    requires Closed(adj) && Symmetric(adj) && ClosedUnder(adj, visited)
    requires visited <= adj.Keys && Elems(ids) <= adj.Keys
    ensures var islands := Sweep(adj, ids, visited);
            && AllIslands(adj, islands) && Disjoint(islands) && Avoids(islands, visited)
            && forall v :: v in ids ==> v in visited || Covers(islands, v)
  {
    if ids != [] {
      assert ids[0] in Elems(ids);
      assert forall v :: v in ids[1..] ==> v in Elems(ids);
      assert forall v :: v in ids ==> v == ids[0] || v in ids[1..];
      if ids[0] in visited {
        SweepListsIslands(adj, ids[1..], visited);
      } else {
        SearchFromStart(adj, ids[0], visited);
        var c := Search(adj, [], [ids[0]], visited + {ids[0]});
        var rest := Sweep(adj, ids[1..], visited + Elems(c));
        SweepListsIslands(adj, ids[1..], visited + Elems(c));
        assert forall x :: x in [c] + rest ==> x == c || x in rest;
        ConsDisjoint(c, rest, visited);
        forall v | v in ids && v !in visited ensures Covers([c] + rest, v) {
          assert v in c || v in ids[1..];
          ConsCovers(c, rest, v);
        }
      }
    }
  }

  // ----- the order of the islands -----

  /** Where v first occurs in ids. */
  function Position(ids: seq<NodeId>, v: NodeId): nat {
    if ids == [] || ids[0] == v then 0 else 1 + Position(ids[1..], v)
  }

  /** An island is listed under its earliest node, and the islands in the order of those nodes. */
  ghost predicate InIdOrder(ids: seq<NodeId>, islands: seq<seq<NodeId>>) {
    && (forall c :: c in islands ==> c != [] && c[0] in ids)
    && (forall c, v :: c in islands && v in c ==> Position(ids, c[0]) <= Position(ids, v))
    && (forall i, j :: 0 <= i < j < |islands| ==>
          islands[i] != [] && islands[j] != [] && Position(ids, islands[i][0]) < Position(ids, islands[j][0]))
  }

  lemma ShiftedOrder(ids: seq<NodeId>, islands: seq<seq<NodeId>>)
    requires ids != [] && InIdOrder(ids[1..], islands)
    requires forall c :: c in islands ==> ids[0] !in c
    ensures InIdOrder(ids, islands)
  {
    forall c, v | c in islands && v in c
      ensures c != [] && c[0] in ids
      ensures Position(ids, v) == 1 + Position(ids[1..], v) && Position(ids, c[0]) == 1 + Position(ids[1..], c[0])
    {
      assert c[0] in c;
    }
    forall c | c in islands ensures c != [] && c[0] in ids && Position(ids, c[0]) == 1 + Position(ids[1..], c[0]) {
      assert c[0] in c;
    }
    forall i, j | 0 <= i < j < |islands|
      ensures islands[i] != [] && islands[j] != [] && Position(ids, islands[i][0]) < Position(ids, islands[j][0])
    {
      assert islands[i] in islands && islands[j] in islands;
    }
  }

  lemma FirstIslandLeads(ids: seq<NodeId>, c: seq<NodeId>, rest: seq<seq<NodeId>>)
    requires ids != [] && c != [] && c[0] == ids[0]
    requires InIdOrder(ids, rest) && forall d :: d in rest ==> ids[0] !in d
    ensures InIdOrder(ids, [c] + rest)
  {
    var islands := [c] + rest;
    assert forall d :: d in islands ==> d == c || d in rest;
    forall i, j | 0 <= i < j < |islands|
      ensures islands[i] != [] && islands[j] != [] && Position(ids, islands[i][0]) < Position(ids, islands[j][0])
    {
      assert islands[j] == rest[j - 1] && rest[j - 1] in rest;
      if i == 0 { assert islands[j][0] in islands[j]; } else { assert islands[i] == rest[i - 1]; }
    }
  }

  lemma AvoidsMember(islands: seq<seq<NodeId>>, s: set<NodeId>, v: NodeId)
    requires Avoids(islands, s) && v in s
    ensures forall c :: c in islands ==> v !in c
  {
    forall c | c in islands ensures v !in c {
      var k :| 0 <= k < |islands| && islands[k] == c;
      assert v !in Elems(islands[k]);
    }
  }

  lemma {:induction false} SweepKeepsIdOrder(adj: Adjacency, ids: seq<NodeId>, visited: set<NodeId>)
    requires Closed(adj) && Symmetric(adj) && ClosedUnder(adj, visited)
    requires visited <= adj.Keys && Elems(ids) <= adj.Keys
    ensures InIdOrder(ids, Sweep(adj, ids, visited))
  {
    if ids != [] {
      assert ids[0] in Elems(ids);
      assert forall v :: v in ids[1..] ==> v in Elems(ids);
      if ids[0] in visited {
        SweepKeepsIdOrder(adj, ids[1..], visited);
        SweepListsIslands(adj, ids[1..], visited);
        AvoidsMember(Sweep(adj, ids[1..], visited), visited, ids[0]);
        ShiftedOrder(ids, Sweep(adj, ids[1..], visited));
      } else {
        SearchFromStart(adj, ids[0], visited);
        var c := Search(adj, [], [ids[0]], visited + {ids[0]});
        var rest := Sweep(adj, ids[1..], visited + Elems(c));
        assert ids[0] in Elems(c);
        SweepKeepsIdOrder(adj, ids[1..], visited + Elems(c));
        SweepListsIslands(adj, ids[1..], visited + Elems(c));
        AvoidsMember(rest, visited + Elems(c), ids[0]);
        ShiftedOrder(ids, rest);
        FirstIslandLeads(ids, c, rest);
      }
    }
  }
}
