/**
 Nodes, links and walks of the testbed graph, shared by the island search and
 the route search of cer_intent/architect/dpir_marl_engine.py.
 */
module Links {
  import opened Common

  type NodeId = string

  datatype NodeStatus = Alive | Destroyed

  datatype Node = Node(id: NodeId, pduControlled: bool, role: string, status: NodeStatus)

  datatype LinkStatus = Active | Severed | ActiveBridge

  datatype Link = Link(
    id: string,
    caption: Option<string>,
    source: NodeId,
    target: NodeId,
    media: string,
    latencyMs: Option<real>,
    capacityMbps: Option<int>,
    status: LinkStatus)

  predicate Usable(l: Link) {
    l.status.Active? || l.status.ActiveBridge?
  }

  /** The links traffic may use, in either direction. */
  function UsableLinks(links: seq<Link>): set<Link> {
    set l | l in links && Usable(l)
  }

  predicate Joins(l: Link, u: NodeId, v: NodeId) {
    (l.source == u && l.target == v) || (l.source == v && l.target == u)
  }

  /** A route lists the nodes it visits and the link crossed at each hop. */
  datatype Route = Route(nodes: seq<NodeId>, links: seq<Link>)

  function Extend(r: Route, l: Link, v: NodeId): Route {
    Route(r.nodes + [v], r.links + [l])
  }

  ghost predicate IsWalk(es: set<Link>, r: Route) {
    && |r.nodes| == |r.links| + 1
    && forall i :: 0 <= i < |r.links| ==> r.links[i] in es && Joins(r.links[i], r.nodes[i], r.nodes[i + 1])
  }

  ghost predicate IsWalkFrom(es: set<Link>, u: NodeId, v: NodeId, r: Route) {
    IsWalk(es, r) && r.nodes[0] == u && r.nodes[|r.links|] == v
  }

  ghost predicate Connected(es: set<Link>, u: NodeId, v: NodeId) {
    exists r :: IsWalkFrom(es, u, v, r)
  }

  /** A walk without its last hop. */
  function Shorten(r: Route): Route
    requires |r.links| > 0 && |r.nodes| == |r.links| + 1
  {
    Route(r.nodes[..|r.links|], r.links[..|r.links| - 1])
  }

  lemma ExtendWalk(es: set<Link>, u: NodeId, v: NodeId, w: NodeId, r: Route, l: Link)
    requires IsWalkFrom(es, u, v, r) && l in es && Joins(l, v, w)
    ensures IsWalkFrom(es, u, w, Extend(r, l, w))
  {
  }

  lemma ShortenWalk(es: set<Link>, u: NodeId, v: NodeId, r: Route)
    requires IsWalkFrom(es, u, v, r) && |r.links| > 0
    ensures IsWalkFrom(es, u, r.nodes[|r.links| - 1], Shorten(r))
    ensures r == Extend(Shorten(r), r.links[|r.links| - 1], v)
  {
    assert r.nodes == r.nodes[..|r.links|] + [v];
    assert r.links == r.links[..|r.links| - 1] + [r.links[|r.links| - 1]];
  }

  lemma WalkMonotone(es: set<Link>, fs: set<Link>, u: NodeId, v: NodeId, r: Route)
    requires es <= fs && IsWalkFrom(es, u, v, r)
    ensures IsWalkFrom(fs, u, v, r)
  {
  }

  lemma ConnectedRefl(es: set<Link>, u: NodeId)
    ensures Connected(es, u, u)
  {
    assert IsWalkFrom(es, u, u, Route([u], []));
  }

  lemma ConnectedStep(es: set<Link>, u: NodeId, v: NodeId, w: NodeId, l: Link)
    requires Connected(es, u, v) && l in es && Joins(l, v, w)
    ensures Connected(es, u, w)
  {
    var r :| IsWalkFrom(es, u, v, r);
    ExtendWalk(es, u, v, w, r, l);
  }

  lemma {:induction false} ConnectedTrans(es: set<Link>, u: NodeId, v: NodeId, w: NodeId)
    requires Connected(es, u, v) && Connected(es, v, w)
    ensures Connected(es, u, w)
  {
    var r :| IsWalkFrom(es, v, w, r);
    ConnectedAppend(es, u, v, w, r);
  }

  lemma {:induction false} ConnectedAppend(es: set<Link>, u: NodeId, v: NodeId, w: NodeId, r: Route)
    requires Connected(es, u, v) && IsWalkFrom(es, v, w, r)
    ensures Connected(es, u, w)
    decreases |r.links|
  {
    if |r.links| > 0 {
      var x := r.nodes[|r.links| - 1];
      ShortenWalk(es, v, w, r);
      ConnectedAppend(es, u, v, x, Shorten(r));
      ConnectedStep(es, u, x, w, r.links[|r.links| - 1]);
    }
  }

  lemma {:induction false} ConnectedSym(es: set<Link>, u: NodeId, v: NodeId)
    requires Connected(es, u, v)
    ensures Connected(es, v, u)
  {
    var r :| IsWalkFrom(es, u, v, r);
    ConnectedReverse(es, u, v, r);
  }

  lemma {:induction false} ConnectedReverse(es: set<Link>, u: NodeId, v: NodeId, r: Route)
    requires IsWalkFrom(es, u, v, r)
    ensures Connected(es, v, u)
    decreases |r.links|
  {
    if |r.links| == 0 {
      ConnectedRefl(es, u);
    } else {
      var x := r.nodes[|r.links| - 1];
      ShortenWalk(es, u, v, r);
      ConnectedReverse(es, u, x, Shorten(r));
      ConnectedRefl(es, v);
      ConnectedStep(es, v, v, x, r.links[|r.links| - 1]);
      ConnectedTrans(es, v, x, u);
    }
  }

  lemma ConnectedMonotone(es: set<Link>, fs: set<Link>, u: NodeId, v: NodeId)
    requires es <= fs && Connected(es, u, v)
    ensures Connected(fs, u, v)
  {
    var r :| IsWalkFrom(es, u, v, r);
    WalkMonotone(es, fs, u, v, r);
  }
}
