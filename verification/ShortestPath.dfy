/**
 The media-aware Dijkstra of OptionATestbedEngine._find_shortest_path: a lazy
 heap of (cost, node, path) entries and a best_cost dict.

 `Run` is the search loop as a function of its state; the method
 `FindShortestPath` is the loop itself.  The theorems at the end say what the
 route it returns is worth.
 */
module ShortestPath {
  import opened Common
  import opened Links

  // ----- cost of a link -----

  /** What the cost of a link depends on besides the link: the phase and the flow's preference. */
  datatype Metric = Metric(normalPhase: bool, preferredMedia: Option<string>)

  const CONTENTION_PENALTY: real := 10.0
  const DEFAULT_SEARCH_LATENCY: real := 1.0

  predicate IsSubstring(needle: string, s: string) {
    needle <= s || (s != [] && IsSubstring(needle, s[1..]))
  }

  predicate HasPreference(m: Metric) {
    m.normalPhase && m.preferredMedia.Some? && m.preferredMedia.value != "any" && m.preferredMedia.value != ""
  }

  predicate IsPreferred(m: Metric, l: Link) {
    HasPreference(m) ==> IsSubstring(m.preferredMedia.value, l.media)
  }

  function LinkCost(m: Metric, l: Link): real {
    l.latencyMs.GetOr(DEFAULT_SEARCH_LATENCY) + if IsPreferred(m, l) then 0.0 else CONTENTION_PENALTY
  }

  function RouteCost(m: Metric, ls: seq<Link>): real {
    if ls == [] then 0.0 else RouteCost(m, ls[..|ls| - 1]) + LinkCost(m, ls[|ls| - 1])
  }

  ghost predicate NonNegativeLatencies(links: seq<Link>) {
    forall l :: l in links ==> l.latencyMs.GetOr(DEFAULT_SEARCH_LATENCY) >= 0.0
  }

  lemma ExtendCost(m: Metric, r: Route, l: Link, v: NodeId)
    ensures RouteCost(m, Extend(r, l, v).links) == RouteCost(m, r.links) + LinkCost(m, l)
  {
    assert (r.links + [l])[..|r.links|] == r.links;
  }

  // ----- adjacency -----

  datatype Arc = Arc(to: NodeId, link: Link, cost: real)

  /** The entries of adj[u], in the order in which the loop over the links appends them. */
  function Arcs(links: seq<Link>, m: Metric, u: NodeId): seq<Arc> {
    if links == [] then []
    else Arcs(links[..|links| - 1], m, u) + LinkArcs(links[|links| - 1], m, u)
  }

  function LinkArcs(l: Link, m: Metric, u: NodeId): seq<Arc> {
    if !Usable(l) then []
    else
      (if l.source == u then [Arc(l.target, l, LinkCost(m, l))] else []) +
      (if l.target == u then [Arc(l.source, l, LinkCost(m, l))] else [])
  }

  lemma {:induction false} ArcsAreUsableLinks(links: seq<Link>, m: Metric, u: NodeId)
    ensures forall a :: a in Arcs(links, m, u) ==>
              a.link in UsableLinks(links) && Joins(a.link, u, a.to) && a.cost == LinkCost(m, a.link)
  {
    if links != [] {
      ArcsAreUsableLinks(links[..|links| - 1], m, u);
    }
  }

  lemma {:induction false} UsableLinksAreArcs(links: seq<Link>, m: Metric, u: NodeId, v: NodeId, l: Link)
    requires l in UsableLinks(links) && Joins(l, u, v)
    ensures Arc(v, l, LinkCost(m, l)) in Arcs(links, m, u)
  {
    var init, last := links[..|links| - 1], links[|links| - 1];
    assert links == init + [last];
    if l == last {
      assert Arc(v, l, LinkCost(m, l)) in LinkArcs(l, m, u);
    } else {
      UsableLinksAreArcs(init, m, u, v, l);
    }
  }

  // ----- the heap -----

  datatype Entry = Entry(cost: real, node: NodeId, route: Route)

  /** Python's order on str: lexicographic by code point. */
  predicate StrLess(a: string, b: string) {
    |b| > 0 && (|a| == 0 || a[0] < b[0] || (a[0] == b[0] && StrLess(a[1..], b[1..])))
  }

  lemma {:induction false} StrLessTotal(a: string, b: string)
    ensures a == b || StrLess(a, b) || StrLess(b, a)
  {
    if |a| > 0 && |b| > 0 && a[0] == b[0] {
      StrLessTotal(a[1..], b[1..]);
      assert a == [a[0]] + a[1..] && b == [b[0]] + b[1..];
    }
  }

  lemma {:induction false} StrLessTransitive(a: string, b: string, c: string)
    requires StrLess(a, b) && StrLess(b, c)
    ensures StrLess(a, c)
  {
    if |a| > 0 && a[0] == b[0] && b[0] == c[0] {
      StrLessTransitive(a[1..], b[1..], c[1..]);
    }
  }

  /** The first two components of a tuple comparison. */
  predicate KeyLess(e: Entry, f: Entry) {
    e.cost < f.cost || (e.cost == f.cost && StrLess(e.node, f.node))
  }

  predicate SameKey(e: Entry, f: Entry) {
    e.cost == f.cost && e.node == f.node
  }

  /** No two entries tie, so comparing entries never reaches their lists of link dicts. */
  ghost predicate KeysDistinct(pq: seq<Entry>) {
    forall i, j :: 0 <= i < j < |pq| ==> !SameKey(pq[i], pq[j])
  }

  /** Position of the entry heappop returns. */
  function LeastIndex(pq: seq<Entry>): (k: nat)
    requires |pq| > 0 && KeysDistinct(pq)
    ensures k < |pq|
    ensures forall j :: 0 <= j < |pq| && j != k ==> KeyLess(pq[k], pq[j])
  {
    if |pq| == 1 then 0
    else
      var init := pq[..|pq| - 1];
      var k := LeastIndex(init);
      LeastIndexStep(pq, k);
      if KeyLess(pq[|pq| - 1], pq[k]) then |pq| - 1 else k
  }

  lemma LeastIndexStep(pq: seq<Entry>, k: nat)
    requires |pq| > 1 && KeysDistinct(pq) && k < |pq| - 1
    requires forall j :: 0 <= j < |pq| - 1 && j != k ==> KeyLess(pq[k], pq[j])
    ensures KeyLess(pq[|pq| - 1], pq[k]) || KeyLess(pq[k], pq[|pq| - 1])
    ensures KeyLess(pq[|pq| - 1], pq[k]) ==> forall j :: 0 <= j < |pq| - 1 ==> KeyLess(pq[|pq| - 1], pq[j])
  {
    var last := pq[|pq| - 1];
    StrLessTotal(last.node, pq[k].node);
    assert !SameKey(pq[k], last);
    if KeyLess(last, pq[k]) {
      forall j | 0 <= j < |pq| - 1 && j != k ensures KeyLess(last, pq[j]) {
        if last.cost == pq[k].cost == pq[j].cost {
          StrLessTransitive(last.node, pq[k].node, pq[j].node);
        }
      }
    }
  }

  function RemoveAt(pq: seq<Entry>, k: nat): seq<Entry>
    requires k < |pq|
  {
    pq[..k] + pq[k + 1..]
  }

  // ----- the search state and one iteration of the loop -----

  /** The loop's variables, the set of expanded nodes and the number of heap pushes so far. */
  datatype Search = Search(pq: seq<Entry>, best: map<NodeId, real>, expanded: set<NodeId>, pushes: nat)

  function Start(src: NodeId): Search {
    Search([Entry(0.0, src, Route([src], []))], map[src := 0.0], {}, 1)
  }

  predicate Improves(s: Search, e: Entry, a: Arc) {
    a.to !in s.best || e.cost + a.cost < s.best[a.to]
  }

  function RelaxArc(s: Search, e: Entry, a: Arc): Search {
    if Improves(s, e, a) then
      Search(s.pq + [Entry(e.cost + a.cost, a.to, Extend(e.route, a.link, a.to))],
             s.best[a.to := e.cost + a.cost], s.expanded, s.pushes + 1)
    else s
  }

  function Relax(s: Search, e: Entry, arcs: seq<Arc>): Search {
    if arcs == [] then s
    else RelaxArc(Relax(s, e, arcs[..|arcs| - 1]), e, arcs[|arcs| - 1])
  }

  function Popped(s: Search): Search
    requires |s.pq| > 0 && KeysDistinct(s.pq)
  {
    s.(pq := RemoveAt(s.pq, LeastIndex(s.pq)))
  }

  function Expand(links: seq<Link>, m: Metric, s: Search): Search
    requires |s.pq| > 0 && KeysDistinct(s.pq)
  {
    var e := s.pq[LeastIndex(s.pq)];
    Relax(Popped(s).(expanded := s.expanded + {e.node}), e, Arcs(links, m, e.node))
  }

  // ----- the loop invariant -----

  /** The nodes a search can meet. */
  function Universe(links: seq<Link>, src: NodeId): set<NodeId> {
    {src} + (set l | l in links :: l.source) + (set l | l in links :: l.target)
  }

  ghost predicate EntryOk(links: seq<Link>, m: Metric, src: NodeId, best: map<NodeId, real>, e: Entry) {
    && IsWalkFrom(UsableLinks(links), src, e.node, e.route)
    && e.cost == RouteCost(m, e.route.links)
    && e.node in best
    && best[e.node] <= e.cost
  }

  ghost predicate EntriesOk(links: seq<Link>, m: Metric, src: NodeId, s: Search) {
    forall e :: e in s.pq ==> EntryOk(links, m, src, s.best, e)
  }

  ghost predicate Queued(s: Search, v: NodeId)
    requires v in s.best
  {
    exists e :: e in s.pq && e.node == v && e.cost == s.best[v]
  }

  ghost predicate FrontierQueued(s: Search) {
    forall v :: v in s.best && v !in s.expanded ==> Queued(s, v)
  }

  ghost predicate ArcsRelaxed(best: map<NodeId, real>, cost: real, arcs: seq<Arc>) {
    forall a :: a in arcs ==> a.to in best && best[a.to] <= cost + a.cost
  }

  ghost predicate ExpandedRelaxed(links: seq<Link>, m: Metric, s: Search) {
    && s.expanded <= s.best.Keys
    && forall u :: u in s.expanded ==> ArcsRelaxed(s.best, s.best[u], Arcs(links, m, u))
  }

  /** Nothing expanded can still be reached more cheaply, and its leftover entries are stale. */
  ghost predicate ExpandedFinal(s: Search)
    requires s.expanded <= s.best.Keys
  {
    forall u, e :: u in s.expanded && e in s.pq ==> s.best[u] <= e.cost && (e.node == u ==> s.best[u] < e.cost)
  }

  ghost predicate Inv(links: seq<Link>, m: Metric, src: NodeId, s: Search) {
    && s.best.Keys <= Universe(links, src)
    && src in s.best && s.best[src] <= 0.0
    && EntriesOk(links, m, src, s)
    && KeysDistinct(s.pq)
    && FrontierQueued(s)
    && ExpandedRelaxed(links, m, s)
    && ExpandedFinal(s)
  }

  lemma StartInv(links: seq<Link>, m: Metric, src: NodeId)
    ensures Inv(links, m, src, Start(src))
  {
    var s := Start(src);
    assert s.pq[0] in s.pq;
  }

  /** What holds between two arcs of one expansion of e: Inv, but with only some of e's arcs relaxed. */
  ghost predicate MidInv(links: seq<Link>, m: Metric, src: NodeId, s: Search, e: Entry, done: seq<Arc>) {
    && s.best.Keys <= Universe(links, src)
    && src in s.best && s.best[src] <= 0.0
    && EntriesOk(links, m, src, s)
    && KeysDistinct(s.pq)
    && FrontierQueued(s)
    && s.expanded <= s.best.Keys
    && (forall u :: u in s.expanded && u != e.node ==> ArcsRelaxed(s.best, s.best[u], Arcs(links, m, u)))
    && ArcsRelaxed(s.best, e.cost, done)
    && ExpandedFinal(s)
    && e.node in s.expanded && s.best[e.node] == e.cost
    && IsWalkFrom(UsableLinks(links), src, e.node, e.route) && e.cost == RouteCost(m, e.route.links)
    && (forall u :: u in s.expanded ==> s.best[u] <= e.cost)
  }

  lemma PushedEntryIsOk(links: seq<Link>, m: Metric, src: NodeId, s: Search, e: Entry, done: seq<Arc>, a: Arc)
    requires MidInv(links, m, src, s, e, done) && NonNegativeLatencies(links)
    requires a in Arcs(links, m, e.node) && Improves(s, e, a)
    ensures var t := RelaxArc(s, e, a);
            EntryOk(links, m, src, t.best, t.pq[|s.pq|]) && t.best.Keys <= Universe(links, src)
    ensures a.cost >= 0.0
  {
    ArcsAreUsableLinks(links, m, e.node);
    ExtendWalk(UsableLinks(links), src, e.node, a.to, e.route, a.link);
    ExtendCost(m, e.route, a.link, a.to);
  }

  lemma PushedKeyIsNew(links: seq<Link>, m: Metric, src: NodeId, s: Search, e: Entry, a: Arc, f: Entry)
    requires EntryOk(links, m, src, s.best, f) && Improves(s, e, a)
    ensures !SameKey(f, RelaxArc(s, e, a).pq[|s.pq|])
  {
  }

  lemma QueuedEntryStaysOk(links: seq<Link>, m: Metric, src: NodeId, s: Search, e: Entry, a: Arc, f: Entry)
    requires EntryOk(links, m, src, s.best, f) && Improves(s, e, a)
    ensures EntryOk(links, m, src, RelaxArc(s, e, a).best, f)
  {
  }

  lemma KeysDistinctPush(pq: seq<Entry>, e: Entry)
    requires KeysDistinct(pq) && forall f :: f in pq ==> !SameKey(f, e)
    ensures KeysDistinct(pq + [e])
  {
  }

  lemma RelaxArcEntries(links: seq<Link>, m: Metric, src: NodeId, s: Search, e: Entry, done: seq<Arc>, a: Arc)
    requires MidInv(links, m, src, s, e, done) && NonNegativeLatencies(links)
    requires a in Arcs(links, m, e.node) && Improves(s, e, a)
    ensures var t := RelaxArc(s, e, a);
            EntriesOk(links, m, src, t) && KeysDistinct(t.pq) && t.best.Keys <= Universe(links, src)
    ensures a.cost >= 0.0
  {
    var t := RelaxArc(s, e, a);
    var pushed := t.pq[|s.pq|];
    PushedEntryIsOk(links, m, src, s, e, done, a);
    forall f | f in s.pq ensures EntryOk(links, m, src, t.best, f) && !SameKey(f, pushed) {
      QueuedEntryStaysOk(links, m, src, s, e, a, f);
      PushedKeyIsNew(links, m, src, s, e, a, f);
    }
    KeysDistinctPush(s.pq, pushed);
  }

  lemma RelaxArcFrontier(links: seq<Link>, m: Metric, src: NodeId, s: Search, e: Entry, done: seq<Arc>, a: Arc)
    requires MidInv(links, m, src, s, e, done) && NonNegativeLatencies(links)
    requires a in Arcs(links, m, e.node) && Improves(s, e, a) && a.cost >= 0.0
    ensures var t := RelaxArc(s, e, a);
            a.to !in s.expanded && FrontierQueued(t) && ExpandedFinal(t)
  {
    var t := RelaxArc(s, e, a);
    var pushed := t.pq[|s.pq|];
    assert pushed in t.pq;
    forall v | v in t.best && v !in t.expanded ensures Queued(t, v) {
      if v != a.to {
        assert Queued(s, v);
        var f :| f in s.pq && f.node == v && f.cost == s.best[v];
        assert f in t.pq;
      }
    }
  }

  lemma RelaxArcArcs(links: seq<Link>, m: Metric, src: NodeId, s: Search, e: Entry, done: seq<Arc>, a: Arc)
    requires MidInv(links, m, src, s, e, done)
    requires Improves(s, e, a) ==> a.to !in s.expanded
    ensures var t := RelaxArc(s, e, a);
            && (forall u :: u in t.expanded && u != e.node ==>
                  u in t.best && ArcsRelaxed(t.best, t.best[u], Arcs(links, m, u)))
            && ArcsRelaxed(t.best, e.cost, done + [a])
  {
    var t := RelaxArc(s, e, a);
    forall u | u in t.expanded && u != e.node ensures u in t.best && ArcsRelaxed(t.best, t.best[u], Arcs(links, m, u)) {
      assert ArcsRelaxed(s.best, s.best[u], Arcs(links, m, u));
    }
    assert ArcsRelaxed(s.best, e.cost, done);
  }

  lemma RelaxArcKeeps(links: seq<Link>, m: Metric, src: NodeId, s: Search, e: Entry, done: seq<Arc>, a: Arc)
    requires MidInv(links, m, src, s, e, done) && NonNegativeLatencies(links)
    requires a in Arcs(links, m, e.node)
    ensures MidInv(links, m, src, RelaxArc(s, e, a), e, done + [a])
  {
    if Improves(s, e, a) {
      RelaxArcEntries(links, m, src, s, e, done, a);
      RelaxArcFrontier(links, m, src, s, e, done, a);
    }
    RelaxArcArcs(links, m, src, s, e, done, a);
  }

  lemma {:induction false} RelaxCounts(s: Search, e: Entry, arcs: seq<Arc>)
    ensures Relax(s, e, arcs).expanded == s.expanded
    ensures s.pushes <= Relax(s, e, arcs).pushes <= s.pushes + |arcs|
  {
    if arcs != [] {
      RelaxCounts(s, e, arcs[..|arcs| - 1]);
    }
  }

  lemma RelaxLast(s: Search, e: Entry, init: seq<Arc>, a: Arc)
    ensures Relax(s, e, init + [a]) == RelaxArc(Relax(s, e, init), e, a)
  {
    assert (init + [a])[..|init|] == init;
  }

  lemma {:induction false} RelaxKeeps(links: seq<Link>, m: Metric, src: NodeId, s: Search, e: Entry, arcs: seq<Arc>)
    requires MidInv(links, m, src, s, e, []) && NonNegativeLatencies(links)
    requires forall a :: a in arcs ==> a in Arcs(links, m, e.node)
    ensures MidInv(links, m, src, Relax(s, e, arcs), e, arcs)
  {
    if arcs != [] {
      var init, a := arcs[..|arcs| - 1], arcs[|arcs| - 1];
      assert arcs == init + [a];
      RelaxKeeps(links, m, src, s, e, init);
      RelaxLast(s, e, init, a);
      RelaxArcKeeps(links, m, src, Relax(s, e, init), e, init, a);
    }
  }

  lemma RemoveAtFacts(pq: seq<Entry>, k: nat)
    requires k < |pq| && KeysDistinct(pq)
    ensures KeysDistinct(RemoveAt(pq, k))
    ensures forall f :: f in RemoveAt(pq, k) ==> f in pq && !SameKey(pq[k], f)
    ensures forall f :: f in pq ==> f == pq[k] || f in RemoveAt(pq, k)
  {
    var rest := RemoveAt(pq, k);
    assert forall i :: 0 <= i < |rest| ==> rest[i] == if i < k then pq[i] else pq[i + 1];
    forall f | f in pq ensures f == pq[k] || f in rest {
      var j :| 0 <= j < |pq| && pq[j] == f;
      if j < k { assert rest[j] == f; } else if j > k { assert rest[j - 1] == f; }
    }
  }

  /** Popping the least entry loses no frontier node but, perhaps, its own. */
  lemma PopFacts(links: seq<Link>, m: Metric, src: NodeId, s: Search)
    requires Inv(links, m, src, s) && |s.pq| > 0
    ensures var k := LeastIndex(s.pq); var e := s.pq[k]; var t := Popped(s);
            && e in s.pq && EntryOk(links, m, src, s.best, e)
            && KeysDistinct(t.pq)
            && (forall f :: f in t.pq ==> f in s.pq && e.cost <= f.cost && !SameKey(e, f))
            && (forall f :: f in s.pq ==> f == e || f in t.pq)
  {
    var k := LeastIndex(s.pq);
    RemoveAtFacts(s.pq, k);
    assert s.pq[k] in s.pq;
    assert EntryOk(links, m, src, s.best, s.pq[k]);
    forall f | f in s.pq ensures s.pq[k].cost <= f.cost {
      var j :| 0 <= j < |s.pq| && s.pq[j] == f;
      assert j == k || KeyLess(s.pq[k], s.pq[j]);
    }
  }

  predicate IsStale(s: Search, e: Entry) {
    e.node in s.best && e.cost > s.best[e.node]
  }

  lemma PopStaleKeeps(links: seq<Link>, m: Metric, src: NodeId, s: Search)
    requires Inv(links, m, src, s) && |s.pq| > 0
    requires IsStale(s, s.pq[LeastIndex(s.pq)])
    ensures Inv(links, m, src, Popped(s)) && |Popped(s).pq| < |s.pq|
  {
    PopFacts(links, m, src, s);
    var t := Popped(s);
    forall v | v in t.best && v !in t.expanded ensures Queued(t, v) {
      assert Queued(s, v);
    }
    assert ExpandedRelaxed(links, m, t);
  }

  /** An entry that is not stale belongs to a node not expanded before: no node is expanded twice. */
  lemma ExpandKeeps(links: seq<Link>, m: Metric, src: NodeId, s: Search)
    requires Inv(links, m, src, s) && |s.pq| > 0 && NonNegativeLatencies(links)
    requires !IsStale(s, s.pq[LeastIndex(s.pq)])
    ensures var e := s.pq[LeastIndex(s.pq)];
            && e.node !in s.expanded
            && Expand(links, m, s).expanded == s.expanded + {e.node}
            && s.pushes <= Expand(links, m, s).pushes <= s.pushes + |Arcs(links, m, e.node)|
    ensures Inv(links, m, src, Expand(links, m, s))
  {
    PopFacts(links, m, src, s);
    var e := s.pq[LeastIndex(s.pq)];
    var t := Popped(s).(expanded := s.expanded + {e.node});
    assert e.cost == s.best[e.node];
    forall v | v in t.best && v !in t.expanded ensures Queued(t, v) {
      assert Queued(s, v);
    }
    assert EntriesOk(links, m, src, t);
    assert ArcsRelaxed(t.best, e.cost, []);
    RelaxKeeps(links, m, src, t, e, Arcs(links, m, e.node));
    RelaxCounts(t, e, Arcs(links, m, e.node));
  }

  lemma ExpandedInUniverse(links: seq<Link>, m: Metric, src: NodeId, s: Search)
    requires Inv(links, m, src, s) && |s.pq| > 0 && NonNegativeLatencies(links)
    requires !IsStale(s, s.pq[LeastIndex(s.pq)])
    ensures Universe(links, src) - Expand(links, m, s).expanded < Universe(links, src) - s.expanded
  {
    ExpandKeeps(links, m, src, s);
    PopFacts(links, m, src, s);
    var e := s.pq[LeastIndex(s.pq)];
    assert e.node in Universe(links, src) - s.expanded;
  }

  // ----- the loop -----

  /** The while loop from state s on, with the state it stops in. */
  function Run(links: seq<Link>, m: Metric, src: NodeId, dst: NodeId, s: Search): (r: (Option<Route>, Search))
    requires NonNegativeLatencies(links) && Inv(links, m, src, s)
    decreases Universe(links, src) - s.expanded, |s.pq|
  {
    if |s.pq| == 0 then (None, s)
    else
      var e := s.pq[LeastIndex(s.pq)];
      PopFacts(links, m, src, s);
      if e.node == dst then (Some(e.route), Popped(s))
      else if IsStale(s, e) then
        PopStaleKeeps(links, m, src, s);
        Run(links, m, src, dst, Popped(s))
      else
        ExpandKeeps(links, m, src, s);
        ExpandedInUniverse(links, m, src, s);
        Run(links, m, src, dst, Expand(links, m, s))
  }

  function ShortestRoute(links: seq<Link>, m: Metric, src: NodeId, dst: NodeId): Option<Route>
    requires NonNegativeLatencies(links)
  {
    StartInv(links, m, src);
    Run(links, m, src, dst, Start(src)).0
  }

  // ----- what the loop guarantees -----

  /** A node at which a walk leaves the expanded part of the graph, no dearer than the walk. */
  ghost predicate CheapFrontier(s: Search, bound: real) {
    exists v :: v in s.best && v !in s.expanded && s.best[v] <= bound
  }

  /** Every walk either stays expanded, and is no cheaper than best, or passes the frontier. */
  lemma {:induction false} WalkBound(links: seq<Link>, m: Metric, src: NodeId, s: Search, v: NodeId, w: Route)
    requires Inv(links, m, src, s) && NonNegativeLatencies(links)
    requires IsWalkFrom(UsableLinks(links), src, v, w)
    ensures (v in s.expanded && s.best[v] <= RouteCost(m, w.links)) || CheapFrontier(s, RouteCost(m, w.links))
    decreases |w.links|
  {
    if |w.links| > 0 {
      var u, l := w.nodes[|w.links| - 1], w.links[|w.links| - 1];
      ShortenWalk(UsableLinks(links), src, v, w);
      WalkBound(links, m, src, s, u, Shorten(w));
      if u in s.expanded && s.best[u] <= RouteCost(m, Shorten(w).links) {
        UsableLinksAreArcs(links, m, u, v, l);
        assert ArcsRelaxed(s.best, s.best[u], Arcs(links, m, u));
      }
    }
  }

  ghost predicate IsCheapest(links: seq<Link>, m: Metric, src: NodeId, dst: NodeId, r: Route) {
    forall w :: IsWalkFrom(UsableLinks(links), src, dst, w) ==> RouteCost(m, r.links) <= RouteCost(m, w.links)
  }

  lemma PoppedDestinationIsCheapest(links: seq<Link>, m: Metric, src: NodeId, dst: NodeId, s: Search)
    requires Inv(links, m, src, s) && NonNegativeLatencies(links) && |s.pq| > 0 && dst !in s.expanded
    requires s.pq[LeastIndex(s.pq)].node == dst
    ensures IsCheapest(links, m, src, dst, s.pq[LeastIndex(s.pq)].route)
  {
    PopFacts(links, m, src, s);
    var e := s.pq[LeastIndex(s.pq)];
    forall w | IsWalkFrom(UsableLinks(links), src, dst, w) ensures e.cost <= RouteCost(m, w.links) {
      WalkBound(links, m, src, s, dst, w);
      var v :| v in s.best && v !in s.expanded && s.best[v] <= RouteCost(m, w.links);
      assert Queued(s, v);
    }
  }

  lemma EmptyHeapMeansUnreachable(links: seq<Link>, m: Metric, src: NodeId, dst: NodeId, s: Search)
    requires Inv(links, m, src, s) && NonNegativeLatencies(links) && |s.pq| == 0 && dst !in s.expanded
    ensures !Connected(UsableLinks(links), src, dst)
  {
    assert forall v :: v in s.best ==> v in s.expanded || Queued(s, v);
    forall w ensures !IsWalkFrom(UsableLinks(links), src, dst, w) {
      if IsWalkFrom(UsableLinks(links), src, dst, w) {
        WalkBound(links, m, src, s, dst, w);
      }
    }
  }

  ghost predicate IsAnswer(links: seq<Link>, m: Metric, src: NodeId, dst: NodeId, r: Option<Route>) {
    && (r.None? <==> !Connected(UsableLinks(links), src, dst))
    && (r.Some? ==> IsWalkFrom(UsableLinks(links), src, dst, r.value) && IsCheapest(links, m, src, dst, r.value))
  }

  lemma {:induction false} RunCorrect(links: seq<Link>, m: Metric, src: NodeId, dst: NodeId, s: Search)
    requires NonNegativeLatencies(links) && Inv(links, m, src, s) && dst !in s.expanded
    ensures IsAnswer(links, m, src, dst, Run(links, m, src, dst, s).0)
    decreases Universe(links, src) - s.expanded, |s.pq|
  {
    if |s.pq| == 0 {
      EmptyHeapMeansUnreachable(links, m, src, dst, s);
    } else {
      var e := s.pq[LeastIndex(s.pq)];
      PopFacts(links, m, src, s);
      if e.node == dst {
        PoppedDestinationIsCheapest(links, m, src, dst, s);
      } else if IsStale(s, e) {
        PopStaleKeeps(links, m, src, s);
        RunCorrect(links, m, src, dst, Popped(s));
      } else {
        ExpandKeeps(links, m, src, s);
        ExpandedInUniverse(links, m, src, s);
        RunCorrect(links, m, src, dst, Expand(links, m, s));
      }
    }
  }

  /** A route is found exactly when there is one; it is a chain of usable links, and none is cheaper. */
  lemma ShortestRouteCorrect(links: seq<Link>, m: Metric, src: NodeId, dst: NodeId)
    requires NonNegativeLatencies(links)
    ensures IsAnswer(links, m, src, dst, ShortestRoute(links, m, src, dst))
  {
    StartInv(links, m, src);
    RunCorrect(links, m, src, dst, Start(src));
  }

  /** From a node to itself the search stops at once, with a route of no links. */
  lemma RouteToItself(links: seq<Link>, m: Metric, u: NodeId)
    requires NonNegativeLatencies(links)
    ensures ShortestRoute(links, m, u, u) == Some(Route([u], []))
  {
    StartInv(links, m, u);
    assert LeastIndex(Start(u).pq) == 0;
  }

  // ----- media preference -----

  /** Some slice of the text is p. */
  ghost predicate Occurs(p: string, text: string) {
    exists i, j :: 0 <= i <= j <= |text| && text[i..j] == p
  }

  lemma OccursAtStart(p: string, text: string)
    requires p <= text
    ensures Occurs(p, text)
  {
    assert text[0..|p|] == p;
  }

  lemma SliceOfRest(text: string, i: nat, j: nat)
    requires text != [] && i <= j < |text|
    ensures text[1..][i..j] == text[i + 1..j + 1]
  {
  }

  lemma OccursInRest(p: string, text: string)
    requires text != [] && Occurs(p, text[1..])
    ensures Occurs(p, text)
  {
    var i, j :| 0 <= i <= j <= |text[1..]| && text[1..][i..j] == p;
    SliceOfRest(text, i, j);
  }

  lemma OccursLater(p: string, text: string)
    requires Occurs(p, text) && !(p <= text)
    ensures text != [] && Occurs(p, text[1..])
  {
    var i, j :| 0 <= i <= j <= |text| && text[i..j] == p;
    assert i > 0;
    SliceOfRest(text, i - 1, j - 1);
  }

  lemma {:induction false} SubstringExactly(p: string, text: string)
    ensures IsSubstring(p, text) <==> Occurs(p, text)
  {
    if p <= text {
      OccursAtStart(p, text);
    } else {
      if Occurs(p, text) { OccursLater(p, text); }
      if text != [] {
        SubstringExactly(p, text[1..]);
        if Occurs(p, text[1..]) { OccursInRest(p, text); }
      }
    }
  }

  /** No preference is in force: another phase than normal operation, or a flow that has none. */
  predicate IsIndifferent(m: Metric) {
    !m.normalPhase || m.preferredMedia.None? || m.preferredMedia.value == "any" || m.preferredMedia.value == ""
  }

  /** A link costs its latency, and 10 more exactly when a preference is in force that its media do not contain. */
  lemma LinkCostExactly(m: Metric, l: Link)
    ensures IsIndifferent(m) ==> LinkCost(m, l) == l.latencyMs.GetOr(1.0)
    ensures !IsIndifferent(m) ==>
              LinkCost(m, l) == l.latencyMs.GetOr(1.0) + if Occurs(m.preferredMedia.value, l.media) then 0.0 else 10.0
  {
    if !IsIndifferent(m) {
      SubstringExactly(m.preferredMedia.value, l.media);
    }
  }

  function Latency(ls: seq<Link>): real {
    if ls == [] then 0.0
    else Latency(ls[..|ls| - 1]) + ls[|ls| - 1].latencyMs.GetOr(1.0)
  }

  /** The number of links whose media do not contain p. */
  ghost function Detours(p: string, ls: seq<Link>): nat {
    if ls == [] then 0
    else Detours(p, ls[..|ls| - 1]) + if Occurs(p, ls[|ls| - 1].media) then 0 else 1
  }

  /** Detours as far as the metric cares about them. */
  ghost function DetoursOf(m: Metric, ls: seq<Link>): nat {
    if IsIndifferent(m) then 0 else Detours(m.preferredMedia.value, ls)
  }

  /** The cost the search minimises: latency, and 10 ms for every link off the preferred media. */
  lemma {:induction false} CostSplits(m: Metric, ls: seq<Link>)
    ensures RouteCost(m, ls) == Latency(ls) + 10.0 * DetoursOf(m, ls) as real
  {
    if ls != [] {
      CostSplits(m, ls[..|ls| - 1]);
      LinkCostExactly(m, ls[|ls| - 1]);
    }
  }

  ghost predicate AllOver(p: string, ls: seq<Link>) {
    forall l :: l in ls ==> Occurs(p, l.media)
  }

  lemma {:induction false} NoDetours(p: string, ls: seq<Link>)
    ensures Detours(p, ls) == 0 <==> AllOver(p, ls)
  {
    if ls != [] {
      NoDetours(p, ls[..|ls| - 1]);
      assert ls == ls[..|ls| - 1] + [ls[|ls| - 1]];
    }
  }

  lemma {:induction false} LatencyNonNegative(links: seq<Link>, ls: seq<Link>)
    requires NonNegativeLatencies(links) && forall l :: l in ls ==> l in links
    ensures Latency(ls) >= 0.0
  {
    if ls != [] {
      LatencyNonNegative(links, ls[..|ls| - 1]);
    }
  }

  lemma WalkUsesLinks(links: seq<Link>, u: NodeId, v: NodeId, w: Route)
    requires IsWalkFrom(UsableLinks(links), u, v, w)
    ensures forall l :: l in w.links ==> l in links
  {
  }

  /**
   In normal operation the returned route trades latency for links off the preferred media p at 10 ms each: a walk
   with fewer of them was passed over only if it is at least 10 ms slower for each it saves.
   */
  lemma DetoursAreWorthTheirPenalty(links: seq<Link>, p: string, src: NodeId, dst: NodeId, w: Route)
    requires NonNegativeLatencies(links) && IsWalkFrom(UsableLinks(links), src, dst, w) && p != "any" && p != ""
    ensures var r := ShortestRoute(links, Metric(true, Some(p)), src, dst);
            && r.Some?
            && Latency(r.value.links) + 10.0 * Detours(p, r.value.links) as real
               <= Latency(w.links) + 10.0 * Detours(p, w.links) as real
  {
    var m := Metric(true, Some(p));
    ShortestRouteCorrect(links, m, src, dst);
    assert Connected(UsableLinks(links), src, dst);
    CostSplits(m, ShortestRoute(links, m, src, dst).value.links);
    CostSplits(m, w.links);
  }

  /** In any other phase, or without a preference, no walk is faster than the returned route. */
  lemma IndifferentRouteIsFastest(links: seq<Link>, m: Metric, src: NodeId, dst: NodeId, w: Route)
    requires NonNegativeLatencies(links) && IsWalkFrom(UsableLinks(links), src, dst, w) && IsIndifferent(m)
    ensures var r := ShortestRoute(links, m, src, dst);
            r.Some? && Latency(r.value.links) <= Latency(w.links)
  {
    ShortestRouteCorrect(links, m, src, dst);
    assert Connected(UsableLinks(links), src, dst);
    CostSplits(m, ShortestRoute(links, m, src, dst).value.links);
    CostSplits(m, w.links);
  }

  /** If p occurs in the media of every link of some walk faster than 10 ms, it does in those of the returned route. */
  lemma PreferredMediaIsKept(links: seq<Link>, p: string, src: NodeId, dst: NodeId, w: Route)
    requires NonNegativeLatencies(links) && IsWalkFrom(UsableLinks(links), src, dst, w) && p != "any" && p != ""
    requires (forall l :: l in w.links ==> Occurs(p, l.media)) && Latency(w.links) < 10.0
    ensures var r := ShortestRoute(links, Metric(true, Some(p)), src, dst);
            && r.Some? && Latency(r.value.links) <= Latency(w.links)
            && forall l :: l in r.value.links ==> Occurs(p, l.media)
  {
    DetoursAreWorthTheirPenalty(links, p, src, dst, w);
    ShortestRouteCorrect(links, Metric(true, Some(p)), src, dst);
    var r := ShortestRoute(links, Metric(true, Some(p)), src, dst).value;
    WalkUsesLinks(links, src, dst, r);
    LatencyNonNegative(links, r.links);
    NoDetours(p, w.links);
    NoDetours(p, r.links);
    assert Detours(p, r.links) >= 1 ==> 10.0 * Detours(p, r.links) as real >= 10.0;
  }

  // ----- work done -----

  /** How many of the links' two ends lie in a set of nodes. */
  ghost function EndsIn(links: seq<Link>, nodes: set<NodeId>): nat {
    if links == [] then 0
    else EndsIn(links[..|links| - 1], nodes) + LinkEndsIn(links[|links| - 1], nodes)
  }

  ghost function LinkEndsIn(l: Link, nodes: set<NodeId>): nat {
    if !Usable(l) then 0 else (if l.source in nodes then 1 else 0) + (if l.target in nodes then 1 else 0)
  }

  ghost function UsableCount(links: seq<Link>): nat {
    if links == [] then 0
    else UsableCount(links[..|links| - 1]) + if Usable(links[|links| - 1]) then 1 else 0
  }

  lemma {:induction false} EndsInGrows(links: seq<Link>, m: Metric, nodes: set<NodeId>, u: NodeId)
    requires u !in nodes
    ensures EndsIn(links, nodes + {u}) == EndsIn(links, nodes) + |Arcs(links, m, u)|
  {
    if links != [] {
      EndsInGrows(links[..|links| - 1], m, nodes, u);
    }
  }

  lemma {:induction false} EndsInAtMostTwice(links: seq<Link>, nodes: set<NodeId>)
    ensures EndsIn(links, nodes) <= 2 * UsableCount(links)
  {
    if links != [] {
      EndsInAtMostTwice(links[..|links| - 1], nodes);
    }
  }

  lemma {:induction false} EndsInNothing(links: seq<Link>)
    ensures EndsIn(links, {}) == 0
  {
    if links != [] {
      EndsInNothing(links[..|links| - 1]);
    }
  }

  /** Over a whole search, pushes are paid for by the link ends of expanded nodes, each expanded once. */
  lemma {:induction false} RunPushes(links: seq<Link>, m: Metric, src: NodeId, dst: NodeId, s: Search)
    requires NonNegativeLatencies(links) && Inv(links, m, src, s)
    requires s.pushes <= 1 + EndsIn(links, s.expanded)
    ensures var t := Run(links, m, src, dst, s).1;
            t.pushes <= 1 + 2 * UsableCount(links) && t.expanded <= Universe(links, src) && KeysDistinct(t.pq)
    decreases Universe(links, src) - s.expanded, |s.pq|
  {
    EndsInAtMostTwice(links, s.expanded);
    if |s.pq| > 0 {
      var e := s.pq[LeastIndex(s.pq)];
      PopFacts(links, m, src, s);
      if e.node == dst {
      } else if IsStale(s, e) {
        PopStaleKeeps(links, m, src, s);
        RunPushes(links, m, src, dst, Popped(s));
      } else {
        ExpandKeeps(links, m, src, s);
        ExpandedInUniverse(links, m, src, s);
        EndsInGrows(links, m, s.expanded, e.node);
        RunPushes(links, m, src, dst, Expand(links, m, s));
      }
    }
  }

  /** The nodes a search expands, in order. */
  function Expansions(links: seq<Link>, m: Metric, src: NodeId, dst: NodeId, s: Search): seq<NodeId>
    requires NonNegativeLatencies(links) && Inv(links, m, src, s)
    decreases Universe(links, src) - s.expanded, |s.pq|
  {
    if |s.pq| == 0 then []
    else
      var e := s.pq[LeastIndex(s.pq)];
      if e.node == dst then []
      else if IsStale(s, e) then
        PopStaleKeeps(links, m, src, s);
        Expansions(links, m, src, dst, Popped(s))
      else
        ExpandKeeps(links, m, src, s);
        ExpandedInUniverse(links, m, src, s);
        [e.node] + Expansions(links, m, src, dst, Expand(links, m, s))
  }

  lemma ConsDistinct(u: NodeId, rest: seq<NodeId>)
    requires Distinct(rest) && u !in Elems(rest)
    ensures Distinct([u] + rest) && Elems([u] + rest) == {u} + Elems(rest)
  {
    assert forall i :: 0 <= i < |rest| ==> rest[i] in Elems(rest);
    ElemsConcat([u], rest);
  }

  lemma {:induction false} ExpansionsDistinct(links: seq<Link>, m: Metric, src: NodeId, dst: NodeId, s: Search)
    requires NonNegativeLatencies(links) && Inv(links, m, src, s)
    ensures Distinct(Expansions(links, m, src, dst, s))
    ensures Elems(Expansions(links, m, src, dst, s)) !! s.expanded + {dst}
    decreases Universe(links, src) - s.expanded, |s.pq|
  {
    if |s.pq| > 0 {
      var e := s.pq[LeastIndex(s.pq)];
      if e.node == dst {
      } else if IsStale(s, e) {
        PopStaleKeeps(links, m, src, s);
        ExpansionsDistinct(links, m, src, dst, Popped(s));
      } else {
        ExpandKeeps(links, m, src, s);
        ExpandedInUniverse(links, m, src, s);
        ExpansionsDistinct(links, m, src, dst, Expand(links, m, s));
        ConsDistinct(e.node, Expansions(links, m, src, dst, Expand(links, m, s)));
      }
    }
  }

  /** A whole search expands no node twice and pushes at most one entry per usable link end, plus the first. */
  lemma SearchWork(links: seq<Link>, m: Metric, src: NodeId, dst: NodeId)
    requires NonNegativeLatencies(links)
    ensures Inv(links, m, src, Start(src))
    ensures Distinct(Expansions(links, m, src, dst, Start(src)))
    ensures Run(links, m, src, dst, Start(src)).1.pushes <= 1 + 2 * UsableCount(links)
  {
    StartInv(links, m, src);
    ExpansionsDistinct(links, m, src, dst, Start(src));
    EndsInNothing(links);
    RunPushes(links, m, src, dst, Start(src));
  }

  // ----- the method -----

  function ArcsOf(adj: map<NodeId, seq<Arc>>, u: NodeId): seq<Arc> {
    if u in adj then adj[u] else []
  }

  function AppendArc(adj: map<NodeId, seq<Arc>>, u: NodeId, a: Arc): map<NodeId, seq<Arc>> {
    adj[u := ArcsOf(adj, u) + [a]]
  }

  lemma AppendLinkArcs(adj: map<NodeId, seq<Arc>>, l: Link, m: Metric, u: NodeId)
    requires Usable(l)
    ensures var adj' := AppendArc(adj, l.source, Arc(l.target, l, LinkCost(m, l)));
            ArcsOf(AppendArc(adj', l.target, Arc(l.source, l, LinkCost(m, l))), u) == ArcsOf(adj, u) + LinkArcs(l, m, u)
  {
  }

  ghost predicate Represents(adj: map<NodeId, seq<Arc>>, links: seq<Link>, m: Metric) {
    forall u :: ArcsOf(adj, u) == Arcs(links, m, u)
  }

  method BuildAdjacency(links: seq<Link>, m: Metric) returns (adj: map<NodeId, seq<Arc>>)
    ensures Represents(adj, links, m)
  {
    adj := map[];
    for i := 0 to |links|
      invariant Represents(adj, links[..i], m)
    {
      var l := links[i];
      ghost var before := adj;
      if Usable(l) {
        adj := AppendArc(adj, l.source, Arc(l.target, l, LinkCost(m, l)));
        adj := AppendArc(adj, l.target, Arc(l.source, l, LinkCost(m, l)));
      }
      forall u ensures ArcsOf(adj, u) == Arcs(links[..i + 1], m, u) {
        assert links[..i + 1][..i] == links[..i];
        assert ArcsOf(before, u) == Arcs(links[..i], m, u);
        if Usable(l) { AppendLinkArcs(before, l, m, u); }
      }
    }
    assert links[..|links|] == links;
  }

  /** The inner loop: offer every arc of the entry just popped to the heap. */
  method RelaxArcs(pq: seq<Entry>, best: map<NodeId, real>, e: Entry, arcs: seq<Arc>, ghost s: Search)
    returns (pq': seq<Entry>, best': map<NodeId, real>)
    requires s.pq == pq && s.best == best
    ensures pq' == Relax(s, e, arcs).pq && best' == Relax(s, e, arcs).best
  {
    pq', best' := pq, best;
    for i := 0 to |arcs|
      invariant pq' == Relax(s, e, arcs[..i]).pq && best' == Relax(s, e, arcs[..i]).best
    {
      var a := arcs[i];
      assert arcs[..i + 1][..i] == arcs[..i];
      var newCost := e.cost + a.cost;
      if a.to !in best' || newCost < best'[a.to] {
        best' := best'[a.to := newCost];
        pq' := pq' + [Entry(newCost, a.to, Extend(e.route, a.link, a.to))];
      }
    }
    assert arcs[..|arcs|] == arcs;
  }

  /** One turn of the outer loop, for the proof of the method. */
  lemma Turn(links: seq<Link>, m: Metric, src: NodeId, dst: NodeId, s: Search)
    requires NonNegativeLatencies(links) && Inv(links, m, src, s) && |s.pq| > 0
    ensures var e := s.pq[LeastIndex(s.pq)];
            if e.node == dst then Run(links, m, src, dst, s).0 == Some(e.route)
            else if IsStale(s, e) then
              && Inv(links, m, src, Popped(s))
              && Run(links, m, src, dst, s) == Run(links, m, src, dst, Popped(s))
            else
              && Inv(links, m, src, Expand(links, m, s))
              && Run(links, m, src, dst, s) == Run(links, m, src, dst, Expand(links, m, s))
              && Universe(links, src) - Expand(links, m, s).expanded < Universe(links, src) - s.expanded
  {
    var e := s.pq[LeastIndex(s.pq)];
    if e.node == dst {
    } else if IsStale(s, e) {
      PopStaleKeeps(links, m, src, s);
    } else {
      ExpandKeeps(links, m, src, s);
      ExpandedInUniverse(links, m, src, s);
    }
  }

  method FindShortestPath(links: seq<Link>, m: Metric, src: NodeId, dst: NodeId) returns (r: Option<Route>)
    requires NonNegativeLatencies(links)
    ensures r == ShortestRoute(links, m, src, dst)
    ensures IsAnswer(links, m, src, dst, r)
  {
    ShortestRouteCorrect(links, m, src, dst);
    var adj := BuildAdjacency(links, m);
    var pq, best := [Entry(0.0, src, Route([src], []))], map[src := 0.0];
    ghost var s := Start(src);
    StartInv(links, m, src);
    while |pq| > 0
      invariant s.pq == pq && s.best == best
      invariant Inv(links, m, src, s)
      invariant Run(links, m, src, dst, s).0 == ShortestRoute(links, m, src, dst)
      decreases Universe(links, src) - s.expanded, |pq|
    {
      Turn(links, m, src, dst, s);
      var k := LeastIndex(pq);
      var e := pq[k];
      pq := RemoveAt(pq, k);
      if e.node == dst {
        return Some(e.route);
      }
      if e.node in best && e.cost > best[e.node] {
        s := Popped(s);
        continue;
      }
      pq, best := RelaxArcs(pq, best, e, ArcsOf(adj, e.node), Popped(s).(expanded := s.expanded + {e.node}));
      s := Expand(links, m, s);
    }
    return None;
  }
}
