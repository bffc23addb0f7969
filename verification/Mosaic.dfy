/** Mosaic connectivity and bridge detection over undirected panel adjacencies. */
module Mosaic {
  import opened RelationTypes
  import opened Graphs
  import Orders

  /** Every accepted adjacency, in both directions. */
  ghost function Links(edges: seq<MosaicEdge>): set<(Id, Id)> {
    (set e | e in edges :: (e.left, e.right)) + (set e | e in edges :: (e.right, e.left))
  }

  ghost predicate EdgesInside(panels: set<Id>, edges: seq<MosaicEdge>) {
    forall e :: e in edges ==> e.left != e.right && e.left in panels && e.right in panels
  }

  ghost predicate Connected(panels: set<Id>, g: set<(Id, Id)>) {
    forall a, b :: a in panels && b in panels ==> Reach(g, a, b)
  }

  /** What the validator promises, stated with walks instead of a search. */
  ghost function MosaicVerdict(panels: set<Id>, edges: seq<MosaicEdge>): Verdict {
    if |panels| < 2 then Rejected(MosaicNeedsTwoPanels)
    else if !EdgesInside(panels, edges) then Rejected(InvalidMosaicEdge)
    else if !Connected(panels, Links(edges)) then Rejected(DisconnectedMosaic)
    else Accepted
  }

  /** Each verdict for its own reason, in this order: fewer than two panels, an edge that does not join two
      of them, two panels that no walk joins. */
  lemma MosaicVerdictMeans(panels: set<Id>, edges: seq<MosaicEdge>)
    ensures var v := MosaicVerdict(panels, edges);
            var bad := exists e :: e in edges && (e.left == e.right || e.left !in panels || e.right !in panels);
            var apart := exists a, b :: a in panels && b in panels && !Reach(Links(edges), a, b);
            && (v == Rejected(MosaicNeedsTwoPanels) <==> |panels| < 2)
            && (v == Rejected(InvalidMosaicEdge) <==> |panels| >= 2 && bad)
            && (v == Rejected(DisconnectedMosaic) <==> |panels| >= 2 && !bad && apart)
            && (v == Accepted <==> |panels| >= 2 && !bad && !apart)
  {}

  lemma LinksSymmetric(edges: seq<MosaicEdge>)
    ensures Symmetric(Links(edges))
  {}

  lemma LinksExtend(edges: seq<MosaicEdge>, e: MosaicEdge)
    ensures Links(edges + [e]) == Links(edges) + {(e.left, e.right), (e.right, e.left)}
  {
    assert forall x :: x in edges + [e] <==> x in edges || x == e;
  }

  /** An undirected graph is connected as soon as one node reaches all. */
  lemma ConnectedFromSeed(panels: set<Id>, edges: seq<MosaicEdge>, seed: Id)
    requires seed in panels
    ensures Connected(panels, Links(edges)) <==> forall b :: b in panels ==> Reach(Links(edges), seed, b)
  {
    var g := Links(edges);
    if forall b :: b in panels ==> Reach(g, seed, b) {
      forall a, b | a in panels && b in panels ensures Reach(g, a, b) {
        LinksSymmetric(edges);
        ReachSymmetric(g, seed, a);
        ReachTransitive(g, a, seed, b);
      }
    }
  }

  // ----- Breadth-first search -----------------------------------------------

  ghost predicate Expanded(g: set<(Id, Id)>, visited: set<Id>, u: Id) {
    forall v :: (u, v) in g ==> v in visited
  }

  /** All visited nodes are reachable, and each is either waiting or expanded. */
  ghost predicate Frontier(g: set<(Id, Id)>, seed: Id, visited: set<Id>, queue: seq<Id>) {
    && seed in visited
    && (forall v :: v in visited ==> Reach(g, seed, v))
    && (forall q :: q in queue ==> q in visited)
    && (forall u :: u in visited ==> u in queue || Expanded(g, visited, u))
  }

  lemma FrontierDone(g: set<(Id, Id)>, seed: Id, visited: set<Id>)
    requires Frontier(g, seed, visited, [])
    ensures forall v :: v in visited <==> Reach(g, seed, v)
  {
    forall v | Reach(g, seed, v) ensures v in visited {
      forall x, y | (x, y) in g && x in visited ensures y in visited {
        assert Expanded(g, visited, x);
      }
      ReachStaysInside(g, visited, seed, v);
    }
  }

  ghost predicate AdjacencyOf(g: set<(Id, Id)>, adjacency: map<Id, seq<Id>>) {
    forall u, v :: v in Lookup(adjacency, u) <==> (u, v) in g
  }

  lemma AdjacencyPush(g: set<(Id, Id)>, adjacency: map<Id, seq<Id>>, a: Id, b: Id)
    requires AdjacencyOf(g, adjacency)
    ensures AdjacencyOf(g + {(a, b)}, Push(adjacency, a, b))
  {
    forall u, v ensures v in Lookup(Push(adjacency, a, b), u) <==> (u, v) in g + {(a, b)} {
      assert v in Lookup(adjacency, u) <==> (u, v) in g;
    }
  }

  /** The loop body of the search: adds the unseen neighbours of one popped node. */
  method Expand(ghost g: set<(Id, Id)>, ghost seed: Id, node: Id, next: seq<Id>, visited0: set<Id>, queue0: seq<Id>)
    returns (visited: set<Id>, queue: seq<Id>)
    requires forall v :: v in next <==> (node, v) in g
    requires Frontier(g, seed, visited0, [node] + queue0)
    ensures Frontier(g, seed, visited, queue)
    ensures visited0 <= visited <= visited0 + set v | v in next
    ensures visited == visited0 ==> queue == queue0
  {
    visited, queue := visited0, queue0;
    assert node in [node] + queue0;
    for j := 0 to |next|
      invariant visited0 <= visited <= visited0 + set v | v in next
      invariant visited == visited0 ==> queue == queue0
      invariant forall v :: v in next[..j] ==> v in visited
      invariant Frontier(g, seed, visited, [node] + queue)
    {
      var v := next[j];
      if v !in visited {
        ReachArc(g, node, v);
        assert node in [node] + queue;
        ReachTransitive(g, seed, node, v);
        visited := visited + {v};
        queue := queue + [v];
      }
    }
    assert next[..|next|] == next;
    assert Expanded(g, visited, node);
    assert forall u :: u in [node] + queue ==> u == node || u in queue;
  }

  lemma AdjacencyStep(edges: seq<MosaicEdge>, i: nat, adjacency: map<Id, seq<Id>>)
    requires i < |edges|
    requires AdjacencyOf(Links(edges[..i]), adjacency)
    ensures AdjacencyOf(Links(edges[..i + 1]),
                        Push(Push(adjacency, edges[i].left, edges[i].right), edges[i].right, edges[i].left))
  {
    hide AdjacencyOf, Push, Links;
    var e, g := edges[i], Links(edges[..i]);
    AdjacencyPush(g, adjacency, e.left, e.right);
    AdjacencyPush(g + {(e.left, e.right)}, Push(adjacency, e.left, e.right), e.right, e.left);
    LinksExtend(edges[..i], e);
    assert edges[..i + 1] == edges[..i] + [e];
    assert Links(edges[..i + 1]) == g + {(e.left, e.right)} + {(e.right, e.left)};
  }

  /** Builds the adjacency lists, refusing a self-edge and an edge that leaves the membership. */
  method BuildAdjacency(panels: set<Id>, edges: seq<MosaicEdge>) returns (ok: bool, adjacency: map<Id, seq<Id>>)
    ensures ok <==> EdgesInside(panels, edges)
    ensures ok ==> AdjacencyOf(Links(edges), adjacency)
  {
    adjacency := map[];
    for i := 0 to |edges|
      invariant EdgesInside(panels, edges[..i])
      invariant AdjacencyOf(Links(edges[..i]), adjacency)
    {
      var e := edges[i];
      if e.left == e.right || e.left !in panels || e.right !in panels {
        return false, adjacency;
      }
      AdjacencyStep(edges, i, adjacency);
      assert edges[..i + 1] == edges[..i] + [e];
      adjacency := Push(adjacency, e.left, e.right);
      adjacency := Push(adjacency, e.right, e.left);
    }
    assert edges[..|edges|] == edges;
    return true, adjacency;
  }

  /** `panels.first()`. */
  method First(panels: set<Id>) returns (seed: Id)
    requires panels != {}
    ensures seed in panels
  {
    Orders.StringLeIsTotalOrder();
    Orders.AscendingElements(Orders.StringLe, panels);
    seed := Orders.Ascending(Orders.StringLe, panels)[0];
  }

  lemma NeighboursInside(panels: set<Id>, edges: seq<MosaicEdge>, adjacency: map<Id, seq<Id>>, u: Id)
    requires EdgesInside(panels, edges) && AdjacencyOf(Links(edges), adjacency)
    ensures forall v :: v in Lookup(adjacency, u) ==> v in panels
  {
    forall v | v in Lookup(adjacency, u) ensures v in panels {
      assert (u, v) in Links(edges);
    }
  }

  /** `validate_mosaic_connectivity`. */
  method ValidateMosaicConnectivity(panels: set<Id>, edges: seq<MosaicEdge>) returns (verdict: Verdict)
    ensures verdict == MosaicVerdict(panels, edges)
  {
    if |panels| < 2 {
      return Rejected(MosaicNeedsTwoPanels);
    }
    var inside, adjacency := BuildAdjacency(panels, edges);
    if !inside {
      return Rejected(InvalidMosaicEdge);
    }
    ghost var g := Links(edges);
    var seed := First(panels);
    var visited, queue := {seed}, [seed];
    ReachSelf(g, seed);
    while queue != []
      invariant Frontier(g, seed, visited, queue)
      invariant visited <= panels
      decreases panels - visited, |queue|
    {
      var node := queue[0];
      assert [node] + queue[1..] == queue;
      NeighboursInside(panels, edges, adjacency, node);
      visited, queue := Expand(g, seed, node, Lookup(adjacency, node), visited, queue[1..]);
    }
    FrontierDone(g, seed, visited);
    ConnectedFromSeed(panels, edges, seed);
    SameSize(visited, panels);
    return if |visited| != |panels| then Rejected(DisconnectedMosaic) else Accepted;
  }

  lemma SameSize<T>(a: set<T>, b: set<T>)
    requires a <= b
    ensures |a| == |b| <==> a == b
  {
    assert b == a + (b - a);
    assert |b| == |a| + |b - a|;
  }

  // ----- Laws of accepted mosaics -------------------------------------------

  /** The whole verdict, error included, depends only on the undirected adjacencies:
      edge order, flips, repetition, edge ids and evidence do not matter. */
  lemma VerdictDependsOnLinks(panels: set<Id>, edges1: seq<MosaicEdge>, edges2: seq<MosaicEdge>)
    requires Links(edges1) == Links(edges2)
    ensures MosaicVerdict(panels, edges1) == MosaicVerdict(panels, edges2)
  {
    InsideByLinks(panels, edges1);
    InsideByLinks(panels, edges2);
  }

  lemma InsideByLinks(panels: set<Id>, edges: seq<MosaicEdge>)
    ensures EdgesInside(panels, edges)
       <==> forall a, b :: (a, b) in Links(edges) ==> a != b && a in panels && b in panels
  {
    if forall a, b :: (a, b) in Links(edges) ==> a != b && a in panels && b in panels {
      forall e | e in edges ensures e.left != e.right && e.left in panels && e.right in panels {
        assert (e.left, e.right) in Links(edges);
      }
    }
  }

  /** A mosaic of n panels needs n - 1 adjacencies. */
  lemma AcceptedNeedsEdges(panels: set<Id>, edges: seq<MosaicEdge>)
    requires MosaicVerdict(panels, edges) == Accepted
    ensures |edges| >= |panels| - 1
  {
    var seed :| seed in panels;
    GrowTree(panels, edges, {seed}, {});
  }

  /** Grows a tree from `v`: each new panel is paid for by an edge not used before. */
  lemma {:induction false} GrowTree(panels: set<Id>, edges: seq<MosaicEdge>, v: set<Id>, used: set<nat>)
    requires EdgesInside(panels, edges) && Connected(panels, Links(edges))
    requires v != {} && v <= panels && |v| == |used| + 1
    requires forall k :: k in used ==> k < |edges| && edges[k].left in v && edges[k].right in v
    ensures |panels| <= |edges| + 1
    decreases panels - v
  {
    if v == panels {
      IndexSetSize(used, |edges|);
    } else {
      var g := Links(edges);
      var a, b := LeavingArc(g, panels, v);
      var k: nat :| k < |edges|
        && ((edges[k].left == a && edges[k].right == b) || (edges[k].left == b && edges[k].right == a));
      assert k !in used;
      GrowTree(panels, edges, v + {b}, used + {k});
    }
  }

  lemma LeavingArc(g: set<(Id, Id)>, panels: set<Id>, v: set<Id>) returns (a: Id, b: Id)
    requires Connected(panels, g) && v != {} && v < panels
    ensures (a, b) in g && a in v && b !in v
  {
    var x :| x in v;
    assert exists y :: y in panels && y !in v;
    var y :| y in panels && y !in v;
    if forall p, q :: (p, q) in g && p in v ==> q in v {
      ReachStaysInside(g, v, x, y);
      assert false;
    }
    a, b :| (a, b) in g && a in v && b !in v;
  }

  lemma {:induction false} IndexSetSize(s: set<nat>, n: nat)
    requires forall k :: k in s ==> k < n
    ensures |s| <= n
  {
    if n > 0 {
      IndexSetSize(s - {n - 1}, n - 1);
    }
  }

  /** Two accepted mosaics joined by one proper adjacency make an accepted mosaic. */
  lemma UnionAccepted(panels1: set<Id>, edges1: seq<MosaicEdge>, panels2: set<Id>, edges2: seq<MosaicEdge>,
                      e: MosaicEdge)
    requires MosaicVerdict(panels1, edges1) == Accepted
    requires MosaicVerdict(panels2, edges2) == Accepted
    requires e.left in panels1 && e.right in panels2 && e.left != e.right
    ensures MosaicVerdict(panels1 + panels2, edges1 + edges2 + [e]) == Accepted
  {
    var edges := edges1 + edges2 + [e];
    var panels := panels1 + panels2;
    var g := Links(edges);
    assert forall x :: x in edges1 + edges2 <==> x in edges1 || x in edges2;
    LinksExtend(edges1 + edges2, e);
    assert Links(edges1) <= g && Links(edges2) <= g && (e.left, e.right) in g;
    forall b | b in panels ensures Reach(g, e.left, b) {
      if b in panels1 {
        ReachMonotone(Links(edges1), g, e.left, b);
      } else {
        ReachMonotone(Links(edges2), g, e.right, b);
        ReachArc(g, e.left, e.right);
        ReachTransitive(g, e.left, e.right, b);
      }
    }
    ConnectedFromSeed(panels, edges, e.left);
    assert panels1 <= panels;
    SameSize(panels1, panels);
    assert |panels| == |panels1| + |panels - panels1|;
  }
}
