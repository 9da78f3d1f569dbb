/** How many islands there are, and what one more link does to that number. */
module IslandCount {
  import opened Common
  import opened Links
  import opened IslandSearch
  import B = Bfs

  ghost function ClassOf(live: set<NodeId>, es: set<Link>, u: NodeId): set<NodeId> {
    set v | v in live && Connected(es, u, v)
  }

  ghost function Classes(live: set<NodeId>, es: set<Link>): set<set<NodeId>> {
    set u | u in live :: ClassOf(live, es, u)
  }

  lemma ClassesAgree(live: set<NodeId>, es: set<Link>, u: NodeId, v: NodeId)
    requires Connected(es, u, v)
    ensures ClassOf(live, es, u) == ClassOf(live, es, v)
  {
    ConnectedSym(es, u, v);
    forall x ensures Connected(es, u, x) <==> Connected(es, v, x) {
      if Connected(es, u, x) { ConnectedTrans(es, v, u, x); }
      if Connected(es, v, x) { ConnectedTrans(es, u, v, x); }
    }
  }

  lemma OwnClass(live: set<NodeId>, es: set<Link>, u: NodeId)
    requires u in live
    ensures u in ClassOf(live, es, u)
  {
    ConnectedRefl(es, u);
  }

  // ----- the list of islands and the set of classes -----

  lemma IslandIsClass(ids: seq<NodeId>, links: seq<Link>, c: seq<NodeId>, u: NodeId)
    requires c in Islands(ids, links) && u in c
    ensures Elems(c) == ClassOf(Elems(ids), LiveLinks(links, Elems(ids)), u)
  {
    var es := LiveLinks(links, Elems(ids));
    IslandMembers(ids, links, c);
    ClassesAgree(Elems(ids), es, c[0], u);
  }

  lemma DisjointClassesDistinct(islands: seq<seq<NodeId>>)
    requires B.Disjoint(islands) && forall c :: c in islands ==> c != []
    ensures Distinct(seq(|islands|, k requires 0 <= k < |islands| => Elems(islands[k])))
  {
    forall i, j | 0 <= i < j < |islands| ensures Elems(islands[i]) != Elems(islands[j]) {
      assert islands[i] in islands;
      assert islands[i][0] in Elems(islands[i]);
    }
  }

  lemma CountIsClasses(ids: seq<NodeId>, links: seq<Link>)
    ensures |Islands(ids, links)| == |Classes(Elems(ids), LiveLinks(links, Elems(ids)))|
  {
    var islands := Islands(ids, links);
    var live, es := Elems(ids), LiveLinks(links, Elems(ids));
    IslandsPartition(ids, links);
    var sets := seq(|islands|, k requires 0 <= k < |islands| => Elems(islands[k]));
    DisjointClassesDistinct(islands);
    DistinctCardinality(sets);
    forall s | s in Elems(sets) ensures s in Classes(live, es) {
      var k :| 0 <= k < |sets| && sets[k] == s;
      var c := islands[k];
      IslandMembers(ids, links, c);
      IslandIsClass(ids, links, c, c[0]);
      assert c[0] in live;
    }
    forall s | s in Classes(live, es) ensures s in Elems(sets) {
      var u :| u in live && s == ClassOf(live, es, u);
      var c := IslandOf(ids, links, u);
      IslandIsClass(ids, links, c, u);
      var k :| 0 <= k < |islands| && islands[k] == c;
      assert sets[k] == s;
    }
    assert Elems(sets) == Classes(live, es);
  }

  // ----- one more link -----

  ghost predicate ThroughLink(es: set<Link>, l: Link, u: NodeId, v: NodeId) {
    || Connected(es, u, v)
    || (Connected(es, u, l.source) && Connected(es, l.target, v))
    || (Connected(es, u, l.target) && Connected(es, l.source, v))
  }

  lemma {:induction false} WalkThroughLink(es: set<Link>, l: Link, u: NodeId, v: NodeId, w: Route)
    requires IsWalkFrom(es + {l}, u, v, w)
    ensures ThroughLink(es, l, u, v)
    decreases |w.links|
  {
    if |w.links| == 0 {
      ConnectedRefl(es, u);
    } else {
      var x, k := w.nodes[|w.links| - 1], w.links[|w.links| - 1];
      ShortenWalk(es + {l}, u, v, w);
      WalkThroughLink(es, l, u, x, Shorten(w));
      if k in es {
        if Connected(es, u, x) { ConnectedStep(es, u, x, v, k); }
        else if Connected(es, u, l.source) && Connected(es, l.target, x) { ConnectedStep(es, l.target, x, v, k); }
        else { ConnectedStep(es, l.source, x, v, k); }
      } else {
        CrossLink(es, l, u, x, v);
      }
    }
  }

  lemma CrossLink(es: set<Link>, l: Link, u: NodeId, x: NodeId, v: NodeId)
    requires ThroughLink(es, l, u, x) && Joins(l, x, v)
    ensures ThroughLink(es, l, u, v)
  {
    ConnectedRefl(es, l.source);
    ConnectedRefl(es, l.target);
  }

  lemma AddedLinkConnects(es: set<Link>, l: Link, u: NodeId, v: NodeId)
    ensures Connected(es + {l}, u, v) <==> ThroughLink(es, l, u, v)
  {
    var fs := es + {l};
    if Connected(fs, u, v) {
      var w :| IsWalkFrom(fs, u, v, w);
      WalkThroughLink(es, l, u, v, w);
    }
    if Connected(es, u, v) {
      ConnectedMonotone(es, fs, u, v);
    } else if Connected(es, u, l.source) && Connected(es, l.target, v) {
      CrossesLink(es, l, u, l.source, l.target, v);
    } else if Connected(es, u, l.target) && Connected(es, l.source, v) {
      CrossesLink(es, l, u, l.target, l.source, v);
    }
  }

  lemma CrossesLink(es: set<Link>, l: Link, u: NodeId, a: NodeId, b: NodeId, v: NodeId)
    requires Connected(es, u, a) && Joins(l, a, b) && Connected(es, b, v)
    ensures Connected(es + {l}, u, v)
  {
    var fs := es + {l};
    ConnectedMonotone(es, fs, u, a);
    ConnectedMonotone(es, fs, b, v);
    ConnectedStep(fs, u, a, b, l);
    ConnectedTrans(fs, u, b, v);
  }

  /** A link inside an island changes nothing. */
  lemma InnerLinkKeepsClasses(live: set<NodeId>, es: set<Link>, l: Link)
    requires Connected(es, l.source, l.target)
    ensures Classes(live, es + {l}) == Classes(live, es)
  {
    ConnectedSym(es, l.source, l.target);
    forall u ensures ClassOf(live, es + {l}, u) == ClassOf(live, es, u) {
      forall v ensures Connected(es + {l}, u, v) <==> Connected(es, u, v) {
        AddedLinkConnects(es, l, u, v);
        if Connected(es, u, l.source) && Connected(es, l.target, v) {
          ConnectedTrans(es, u, l.source, l.target);
          ConnectedTrans(es, u, l.target, v);
        } else if Connected(es, u, l.target) && Connected(es, l.source, v) {
          ConnectedTrans(es, u, l.target, l.source);
          ConnectedTrans(es, u, l.source, v);
        }
      }
    }
  }

  lemma MergedClass(live: set<NodeId>, es: set<Link>, l: Link, u: NodeId)
    requires u in live
    ensures var a, b := ClassOf(live, es, l.source), ClassOf(live, es, l.target);
            ClassOf(live, es + {l}, u) ==
            if u in a + b then a + b else ClassOf(live, es, u)
  {
    var a, b := ClassOf(live, es, l.source), ClassOf(live, es, l.target);
    if Connected(es, u, l.source) { ConnectedSym(es, u, l.source); }
    if Connected(es, u, l.target) { ConnectedSym(es, u, l.target); }
    if u in a { ConnectedSym(es, l.source, u); ClassesAgree(live, es, l.source, u); }
    if u in b { ConnectedSym(es, l.target, u); ClassesAgree(live, es, l.target, u); }
    forall v | v in live
      ensures v in ClassOf(live, es + {l}, u) <==> v in if u in a + b then a + b else ClassOf(live, es, u)
    {
      AddedLinkConnects(es, l, u, v);
    }
  }

  /** A link between two islands merges exactly those two. */
  lemma BridgingLinkMergesClasses(live: set<NodeId>, es: set<Link>, l: Link)
    requires l.source in live && l.target in live && !Connected(es, l.source, l.target)
    ensures var a, b := ClassOf(live, es, l.source), ClassOf(live, es, l.target);
            && a != b && a in Classes(live, es) && b in Classes(live, es)
            && a + b !in Classes(live, es)
            && Classes(live, es + {l}) == Classes(live, es) - {a, b} + {a + b}
  {
    var a, b := ClassOf(live, es, l.source), ClassOf(live, es, l.target);
    OwnClass(live, es, l.source);
    OwnClass(live, es, l.target);
    assert l.target !in a;
    forall s | s in Classes(live, es) ensures s != a + b {
      var u :| u in live && s == ClassOf(live, es, u);
      if l.source in s && l.target in s {
        ConnectedSym(es, u, l.source);
        ConnectedTrans(es, l.source, u, l.target);
      }
    }
    MergedPartition(live, es, l);
  }

  lemma MergedPartition(live: set<NodeId>, es: set<Link>, l: Link)
    requires l.source in live && l.target in live
    ensures var a, b := ClassOf(live, es, l.source), ClassOf(live, es, l.target);
            Classes(live, es + {l}) == Classes(live, es) - {a, b} + {a + b}
  {
    var a, b := ClassOf(live, es, l.source), ClassOf(live, es, l.target);
    OwnClass(live, es, l.source);
    forall s | s in Classes(live, es + {l}) ensures s in Classes(live, es) - {a, b} + {a + b} {
      var u :| u in live && s == ClassOf(live, es + {l}, u);
      MergedClass(live, es, l, u);
      OwnClass(live, es, u);
    }
    forall s | s in Classes(live, es) - {a, b} + {a + b} ensures s in Classes(live, es + {l}) {
      if s == a + b {
        MergedClass(live, es, l, l.source);
      } else {
        var u :| u in live && s == ClassOf(live, es, u);
        MergedClass(live, es, l, u);
        if u in a { ClassesAgree(live, es, l.source, u); }
        if u in b { ClassesAgree(live, es, l.target, u); }
      }
    }
  }

  /** One more live link: one island fewer if it joins two of them, as many otherwise. */
  lemma OneMoreLink(live: set<NodeId>, es: set<Link>, l: Link)
    requires l.source in live && l.target in live
    ensures |Classes(live, es + {l})| == |Classes(live, es)| - if Connected(es, l.source, l.target) then 0 else 1
  {
    if Connected(es, l.source, l.target) {
      InnerLinkKeepsClasses(live, es, l);
    } else {
      BridgingLinkMergesClasses(live, es, l);
      var a, b := ClassOf(live, es, l.source), ClassOf(live, es, l.target);
      assert |Classes(live, es) - {a, b}| == |Classes(live, es)| - 2;
    }
  }

  /** There is one class exactly when there is a node and all nodes are connected. */
  lemma OneClassExactly(live: set<NodeId>, es: set<Link>)
    ensures |Classes(live, es)| == 1 <==>
            live != {} && forall u, v :: u in live && v in live ==> Connected(es, u, v)
  {
    if |Classes(live, es)| == 1 {
      var c :| c in Classes(live, es);
      assert |Classes(live, es) - {c}| == 0;
      assert Classes(live, es) == {c};
      forall u, v | u in live && v in live ensures Connected(es, u, v) {
        OwnClass(live, es, v);
        assert ClassOf(live, es, u) in Classes(live, es) && ClassOf(live, es, v) in Classes(live, es);
      }
    }
    if live != {} && forall u, v :: u in live && v in live ==> Connected(es, u, v) {
      var u :| u in live;
      forall v | v in live ensures ClassOf(live, es, v) == ClassOf(live, es, u) {
        ClassesAgree(live, es, u, v);
      }
      assert Classes(live, es) == {ClassOf(live, es, u)};
    }
  }
}
