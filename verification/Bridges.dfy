/** Bridge detection: does a proposed adjacency join two mosaics already accepted? */
module Bridges {
  import opened Options
  import opened RelationTypes
  import opened Graphs
  import opened Mosaic

  // ----- The search over the edge list --------------------------------------

  lemma LastArc(g: set<(Id, Id)>, a: Id, b: Id) returns (m: Id)
    requires ReachByArcs(g, a, b)
    ensures Reach(g, a, m) && (m, b) in g
  {
    var p :| |p| >= 2 && WalkBetween(g, p, a, b);
    m := p[|p| - 2];
    assert WalkBetween(g, p[..|p| - 1], a, m);
    assert (p[|p| - 2], p[|p| - 1]) in g;
  }

  /** No processed node has an arc to the destination. */
  ghost predicate Avoids(g: set<(Id, Id)>, destination: Id, visited: set<Id>, queue: seq<Id>) {
    forall u :: u in visited && (u, destination) in g ==> u in queue
  }

  lemma NotReachable(g: set<(Id, Id)>, start: Id, destination: Id, visited: set<Id>)
    requires Frontier(g, start, visited, []) && Avoids(g, destination, visited, [])
    ensures !ReachByArcs(g, start, destination)
  {
    if ReachByArcs(g, start, destination) {
      var m := LastArc(g, start, destination);
      FrontierDone(g, start, visited);
      assert false;
    }
  }

  /** The search so far: reachable nodes only, and every arc out of an expanded node was
      followed and does not lead to the destination. */
  ghost predicate Searching(g: set<(Id, Id)>, start: Id, destination: Id, visited: set<Id>, queue: seq<Id>) {
    Frontier(g, start, visited, queue) && Avoids(g, destination, visited, queue)
  }

  /** Every adjacency of `node` among `edges` was followed. */
  ghost predicate Followed(edges: seq<MosaicEdge>, node: Id, destination: Id, visited: set<Id>) {
    forall v :: (node, v) in Links(edges) ==> v in visited && v != destination
  }

  function Opposite(edge: MosaicEdge, node: Id): Option<Id> {
    if edge.left == node then Some(edge.right)
    else if edge.right == node then Some(edge.left)
    else None
  }

  lemma FollowedStep(edges: seq<MosaicEdge>, j: nat, node: Id, destination: Id, visited: set<Id>)
    requires j < |edges|
    requires Followed(edges[..j], node, destination, visited)
    requires match Opposite(edges[j], node) case None => true case Some(v) => v in visited && v != destination
    ensures Followed(edges[..j + 1], node, destination, visited)
  {
    assert edges[..j + 1] == edges[..j] + [edges[j]];
    LinksExtend(edges[..j], edges[j]);
  }

  lemma FollowNew(g: set<(Id, Id)>, start: Id, destination: Id, visited: set<Id>, node: Id, queue: seq<Id>, v: Id)
    requires Searching(g, start, destination, visited, [node] + queue)
    requires (node, v) in g
    ensures Reach(g, start, v) && ReachByArcs(g, start, v) && v in Nodes(g)
    ensures Searching(g, start, destination, visited + {v}, [node] + (queue + [v]))
  {
    assert node in [node] + queue;
    ReachArc(g, node, v);
    ReachTransitive(g, start, node, v);
    var q := [node] + (queue + [v]);
    assert q == ([node] + queue) + [v];
    forall u | u in visited + {v} ensures u in q || Expanded(g, visited + {v}, u) {
      assert u == v || u in [node] + queue || Expanded(g, visited, u);
      assert q[|q| - 1] == v;
    }
    assert v in q;
  }

  lemma FinishNode(edges: seq<MosaicEdge>, start: Id, destination: Id, visited: set<Id>, node: Id, queue: seq<Id>)
    requires Searching(Links(edges), start, destination, visited, [node] + queue)
    requires Followed(edges, node, destination, visited)
    ensures Searching(Links(edges), start, destination, visited, queue)
  {
    assert Expanded(Links(edges), visited, node);
    assert forall u :: u in [node] + queue <==> u == node || u in queue;
  }

  /** One pass over the edge list for one popped node. */
  method Scan(start: Id, destination: Id, edges: seq<MosaicEdge>, node: Id, visited0: set<Id>, queue0: seq<Id>)
    returns (found: bool, visited: set<Id>, queue: seq<Id>)
    requires Searching(Links(edges), start, destination, visited0, [node] + queue0)
    ensures found ==> ReachByArcs(Links(edges), start, destination)
    ensures !found ==> Searching(Links(edges), start, destination, visited, queue)
    ensures visited0 <= visited <= visited0 + Nodes(Links(edges))
    ensures visited == visited0 ==> queue == queue0
  {
    ghost var g := Links(edges);
    visited, queue := visited0, queue0;
    for j := 0 to |edges|
      invariant visited0 <= visited <= visited0 + Nodes(g)
      invariant visited == visited0 ==> queue == queue0
      invariant Searching(g, start, destination, visited, [node] + queue)
      invariant Followed(edges[..j], node, destination, visited)
    {
      var next := Opposite(edges[j], node);
      if next.Some? {
        assert edges[j] in edges && (node, next.value) in g;
        FollowNew(g, start, destination, visited, node, queue, next.value);
        if next.value == destination {
          return true, visited, queue;
        }
        if next.value !in visited {
          visited := visited + {next.value};
          queue := queue + [next.value];
        }
      }
      FollowedStep(edges, j, node, destination, visited);
    }
    assert edges[..|edges|] == edges;
    FinishNode(edges, start, destination, visited, node, queue);
    return false, visited, queue;
  }

  /** `reachable`: true exactly when a walk of at least one adjacency leads there. */
  method Reachable(start: Id, destination: Id, edges: seq<MosaicEdge>) returns (found: bool)
    ensures found <==> ReachByArcs(Links(edges), start, destination)
  {
    ghost var g := Links(edges);
    var visited, queue := {start}, [start];
    ReachSelf(g, start);
    while queue != []
      invariant Searching(g, start, destination, visited, queue)
      invariant visited <= {start} + Nodes(g)
      decreases {start} + Nodes(g) - visited, |queue|
    {
      var node := queue[0];
      assert [node] + queue[1..] == queue;
      found, visited, queue := Scan(start, destination, edges, node, visited, queue[1..]);
      if found {
        return true;
      }
    }
    NotReachable(g, start, destination, visited);
    return false;
  }

  // ----- The two bridge tests -----------------------------------------------

  /** An endpoint of some accepted edge. */
  predicate Known(edges: seq<MosaicEdge>, x: Id) {
    exists e :: e in edges && (e.left == x || e.right == x)
  }

  /** The proposed adjacency joins two different connectivity classes of known endpoints. */
  ghost predicate JoinsClasses(left: Id, right: Id, edges: seq<MosaicEdge>) {
    Known(edges, left) && Known(edges, right) && !Reach(Links(edges), left, right)
  }

  /** `edge_bridges_components`. */
  method EdgeBridgesComponents(left: Id, right: Id, accepted: seq<MosaicEdge>) returns (bridge: bool)
    ensures bridge <==> JoinsClasses(left, right, accepted)
  {
    ghost var g := Links(accepted);
    if left == right {
      ReachSelf(g, left);
      return false;
    }
    var found := Reachable(left, right, accepted);
    ReachDistinct(g, left, right);
    return !found && Known(accepted, left) && Known(accepted, right);
  }

  lemma ReachDistinct(g: set<(Id, Id)>, a: Id, b: Id)
    requires a != b
    ensures Reach(g, a, b) <==> ReachByArcs(g, a, b)
  {
    if Reach(g, a, b) {
      var p :| WalkBetween(g, p, a, b);
      assert |p| >= 2;
    }
  }

  /** `iter().position(..)`: the first component that holds `x`. */
  function PositionOf(components: seq<set<Id>>, x: Id): (r: Option<nat>)
    ensures r.Some? ==> r.value < |components| && x in components[r.value]
    ensures r.None? ==> forall c :: c in components ==> x !in c
  {
    if components == [] then None
    else if x in components[0] then Some(0)
    else match PositionOf(components[1..], x)
      case None => None
      case Some(i) => Some(i + 1)
  }

  /** `edge_bridges_accepted_mosaics`. */
  predicate EdgeBridgesAcceptedMosaics(left: Id, right: Id, components: seq<set<Id>>) {
    var l := PositionOf(components, left);
    var r := PositionOf(components, right);
    l.Some? && r.Some? && l != r
  }

  /** Each listed component is one whole connectivity class, and every known endpoint is listed.
      Components without accepted edges (singleton panels) may be listed as well. */
  ghost predicate AreClasses(components: seq<set<Id>>, edges: seq<MosaicEdge>) {
    && (forall c, x :: c in components && x in c ==> forall y :: y in c <==> Reach(Links(edges), x, y))
    && (forall x :: Known(edges, x) ==> InSomeComponent(components, x))
  }

  ghost predicate InSomeComponent(components: seq<set<Id>>, x: Id) {
    exists c :: c in components && x in c
  }

  lemma PositionDecidesReach(components: seq<set<Id>>, edges: seq<MosaicEdge>, left: Id, right: Id)
    requires AreClasses(components, edges)
    requires InSomeComponent(components, left) && InSomeComponent(components, right)
    ensures PositionOf(components, left) == PositionOf(components, right) <==> Reach(Links(edges), left, right)
  {
    var l := PositionOf(components, left);
    var r := PositionOf(components, right);
    assert l.Some? && r.Some?;
    if Reach(Links(edges), left, right) {
      LinksSymmetric(edges);
      ReachSymmetric(Links(edges), left, right);
      assert right in components[l.value] && left in components[r.value];
      PositionIsFirst(components, left, r.value);
      PositionIsFirst(components, right, l.value);
    }
  }

  lemma {:induction false} PositionIsFirst(components: seq<set<Id>>, x: Id, i: nat)
    requires i < |components| && x in components[i]
    ensures PositionOf(components, x).Some? && PositionOf(components, x).value <= i
  {
    if x !in components[0] {
      PositionIsFirst(components[1..], x, i - 1);
    }
  }

  /** The two bridge tests agree on an edge, unless it joins two different listed panels
      one of which has no accepted edge yet: only the membership test sees that panel. */
  lemma BridgeTestsAgree(components: seq<set<Id>>, edges: seq<MosaicEdge>, left: Id, right: Id)
    requires AreClasses(components, edges)
    ensures EdgeBridgesAcceptedMosaics(left, right, components) == JoinsClasses(left, right, edges)
       <==> !(left != right && InSomeComponent(components, left) && InSomeComponent(components, right)
              && !(Known(edges, left) && Known(edges, right)))
  {
    var g := Links(edges);
    if InSomeComponent(components, left) && InSomeComponent(components, right) {
      PositionDecidesReach(components, edges, left, right);
      if !(Known(edges, left) && Known(edges, right)) {
        if left == right {
          ReachSelf(g, left);
        } else if Reach(g, left, right) {
          ConnectedAreKnown(edges, left, right);
          assert false;
        }
      }
    }
  }

  /** Two listed panels and no accepted edge: the membership test sees a bridge, the edge test none. */
  lemma SingletonPanelsSplitTheTests(left: Id, right: Id)
    requires left != right
    ensures AreClasses([{left}, {right}], [])
    ensures EdgeBridgesAcceptedMosaics(left, right, [{left}, {right}]) && !JoinsClasses(left, right, [])
  {
    var none: seq<MosaicEdge> := [];
    forall x, y ensures Reach(Links(none), x, y) <==> x == y {
      ReachSelf(Links(none), x);
      if x != y && Reach(Links(none), x, y) {
        ConnectedAreKnown(none, x, y);
      }
    }
    assert PositionOf([{left}, {right}], left) == Some(0);
    assert [{left}, {right}][1..] == [{right}];
    assert PositionOf([{right}], right) == Some(0);
  }

  /** When exactly the known endpoints are listed, the tests agree on every edge. */
  lemma BridgeTestsAgreeOnExactClasses(components: seq<set<Id>>, edges: seq<MosaicEdge>, left: Id, right: Id)
    requires AreClasses(components, edges)
    requires forall x :: InSomeComponent(components, x) ==> Known(edges, x)
    ensures EdgeBridgesAcceptedMosaics(left, right, components) == JoinsClasses(left, right, edges)
  {
    BridgeTestsAgree(components, edges, left, right);
  }

  lemma ConnectedAreKnown(edges: seq<MosaicEdge>, a: Id, b: Id)
    requires a != b && Reach(Links(edges), a, b)
    ensures Known(edges, a) && Known(edges, b)
  {
    var g := Links(edges);
    var p :| WalkBetween(g, p, a, b);
    assert |p| >= 2;
    assert (p[0], p[1]) in g && (p[|p| - 2], p[|p| - 1]) in g;
  }

  // ----- What accepting the edge does ---------------------------------------

  /** A new adjacency merges the classes of its endpoints and changes nothing else. */
  lemma NewEdgeMergesClasses(edges: seq<MosaicEdge>, e: MosaicEdge, a: Id, b: Id)
    ensures Reach(Links(edges + [e]), a, b)
       <==> || Reach(Links(edges), a, b)
            || (Reach(Links(edges), a, e.left) && Reach(Links(edges), e.right, b))
            || (Reach(Links(edges), a, e.right) && Reach(Links(edges), e.left, b))
  {
    var g, h := Links(edges), Links(edges + [e]);
    LinksExtend(edges, e);
    if Reach(h, a, b) {
      var p :| WalkBetween(h, p, a, b);
      WalkOverNewEdge(g, e.left, e.right, p);
    }
    if Reach(g, a, b) {
      ReachMonotone(g, h, a, b);
    }
    if Reach(g, a, e.left) && Reach(g, e.right, b) {
      Detour(g, h, a, e.left, e.right, b);
    }
    if Reach(g, a, e.right) && Reach(g, e.left, b) {
      Detour(g, h, a, e.right, e.left, b);
    }
  }

  lemma Detour(g: set<(Id, Id)>, h: set<(Id, Id)>, a: Id, x: Id, y: Id, b: Id)
    requires g <= h && (x, y) in h && Reach(g, a, x) && Reach(g, y, b)
    ensures Reach(h, a, b)
  {
    ReachMonotone(g, h, a, x);
    ReachMonotone(g, h, y, b);
    ReachArc(h, x, y);
    ReachTransitive(h, a, x, y);
    ReachTransitive(h, a, y, b);
  }

  lemma {:induction false} WalkOverNewEdge(g: set<(Id, Id)>, l: Id, r: Id, p: seq<Id>)
    requires Walk(g + {(l, r), (r, l)}, p)
    ensures || Reach(g, p[0], p[|p| - 1])
            || (Reach(g, p[0], l) && Reach(g, r, p[|p| - 1]))
            || (Reach(g, p[0], r) && Reach(g, l, p[|p| - 1]))
  {
    var a, b := p[0], p[|p| - 1];
    if |p| == 1 {
      ReachSelf(g, a);
    } else {
      var m := p[|p| - 2];
      assert (m, b) in g + {(l, r), (r, l)};
      assert p[..|p| - 1][|p| - 2] == m;
      WalkOverNewEdge(g, l, r, p[..|p| - 1]);
      if (m, b) in g {
        ReachArc(g, m, b);
        forall x | Reach(g, x, m) ensures Reach(g, x, b) {
          ReachTransitive(g, x, m, b);
        }
      } else {
        ReachSelf(g, l);
        ReachSelf(g, r);
      }
    }
  }

  /** Between two distinct known endpoints, accepting the edge leaves every connection as it
      was exactly when the edge is not a bridge. */
  lemma BridgeIffReachabilityChanges(edges: seq<MosaicEdge>, e: MosaicEdge)
    requires e.left != e.right && Known(edges, e.left) && Known(edges, e.right)
    ensures !JoinsClasses(e.left, e.right, edges)
       <==> forall a, b :: Reach(Links(edges + [e]), a, b) <==> Reach(Links(edges), a, b)
  {
    var g := Links(edges);
    if Reach(g, e.left, e.right) {
      LinksSymmetric(edges);
      ReachSymmetric(g, e.left, e.right);
      forall a, b ensures Reach(Links(edges + [e]), a, b) <==> Reach(g, a, b) {
        NewEdgeMergesClasses(edges, e, a, b);
        if Reach(g, a, e.left) && Reach(g, e.right, b) {
          ReachTransitive(g, a, e.left, e.right);
          ReachTransitive(g, a, e.right, b);
        }
        if Reach(g, a, e.right) && Reach(g, e.left, b) {
          ReachTransitive(g, a, e.right, e.left);
          ReachTransitive(g, a, e.left, b);
        }
      }
    } else {
      ReachSelf(g, e.left);
      ReachSelf(g, e.right);
      NewEdgeMergesClasses(edges, e, e.left, e.right);
    }
  }

  /** No edge between two members bridges an accepted mosaic's own edge list. */
  lemma NoBridgeInsideAccepted(panels: set<Id>, edges: seq<MosaicEdge>, left: Id, right: Id)
    requires MosaicVerdict(panels, edges) == Accepted
    requires left in panels && right in panels
    ensures !JoinsClasses(left, right, edges)
  {}

  /** An edge that bridges two accepted mosaics' joint edge list joins them into one that is accepted. */
  lemma BridgeJoinsAccepted(panels1: set<Id>, edges1: seq<MosaicEdge>, panels2: set<Id>, edges2: seq<MosaicEdge>,
                            e: MosaicEdge)
    requires MosaicVerdict(panels1, edges1) == Accepted
    requires MosaicVerdict(panels2, edges2) == Accepted
    requires panels1 !! panels2
    requires e.left in panels1 && e.right in panels2
    ensures JoinsClasses(e.left, e.right, edges1 + edges2)
    ensures MosaicVerdict(panels1 + panels2, edges1 + edges2 + [e]) == Accepted
    ensures !JoinsClasses(e.left, e.right, edges1 + edges2 + [e])
  {
    var edges := edges1 + edges2;
    assert forall x :: x in edges <==> x in edges1 || x in edges2;
    UnionAccepted(panels1, edges1, panels2, edges2, e);
    NoBridgeInsideAccepted(panels1 + panels2, edges + [e], e.left, e.right);
    MemberIsKnown(panels1, edges1, e.left);
    MemberIsKnown(panels2, edges2, e.right);
    if Reach(Links(edges), e.left, e.right) {
      ReachStaysInside(Links(edges), panels1, e.left, e.right);
      assert false;
    }
  }

  lemma MemberIsKnown(panels: set<Id>, edges: seq<MosaicEdge>, x: Id)
    requires MosaicVerdict(panels, edges) == Accepted && x in panels
    ensures Known(edges, x)
  {
    assert panels - {x} != {} by {
      assert |panels - {x}| == |panels| - 1;
    }
    var y :| y in panels - {x};
    ConnectedAreKnown(edges, x, y);
  }
}
