/** `validate_acyclic_lineage`: Kahn's algorithm over a directed multigraph. */
module Lineage {
  import opened RelationTypes
  import opened Graphs
  import Orders

  /** The arcs of a lineage snapshot, forgetting order and repetition. */
  ghost function Arcs(edges: seq<(Id, Id)>): set<(Id, Id)> {
    set e | e in edges
  }

  // ----- What the two maps of the algorithm hold ----------------------------

  /** Successors of `u`, one entry per edge, in edge order. */
  ghost function SuccessorsOf(edges: seq<(Id, Id)>, u: Id): seq<Id> {
    if edges == [] then []
    else
      var last := edges[|edges| - 1];
      SuccessorsOf(edges[..|edges| - 1], u) + (if last.0 == u then [last.1] else [])
  }

  /** How many edges reach `n` from a node outside `done`. */
  ghost function PendingIn(edges: seq<(Id, Id)>, done: set<Id>, n: Id): nat {
    if edges == [] then 0
    else
      var last := edges[|edges| - 1];
      PendingIn(edges[..|edges| - 1], done, n) + (if last.1 == n && last.0 !in done then 1 else 0)
  }

  lemma SuccessorsExtend(edges: seq<(Id, Id)>, i: nat, u: Id)
    requires i < |edges|
    ensures SuccessorsOf(edges[..i + 1], u)
         == SuccessorsOf(edges[..i], u) + (if edges[i].0 == u then [edges[i].1] else [])
  {
    assert edges[..i + 1][..i] == edges[..i];
  }

  lemma PendingExtend(edges: seq<(Id, Id)>, i: nat, done: set<Id>, n: Id)
    requires i < |edges|
    ensures PendingIn(edges[..i + 1], done, n)
         == PendingIn(edges[..i], done, n) + (if edges[i].1 == n && edges[i].0 !in done then 1 else 0)
  {
    assert edges[..i + 1][..i] == edges[..i];
  }

  /** Finishing `u` pays for exactly the edges from `u`, so no counter can underflow. */
  lemma {:induction false} PendingDrops(edges: seq<(Id, Id)>, done: set<Id>, u: Id, n: Id)
    requires u !in done
    ensures PendingIn(edges, done, n)
         == PendingIn(edges, done + {u}, n) + multiset(SuccessorsOf(edges, u))[n]
  {
    if edges != [] {
      PendingDrops(edges[..|edges| - 1], done, u, n);
    }
  }

  lemma {:induction false} PendingZero(edges: seq<(Id, Id)>, done: set<Id>, n: Id)
    ensures PendingIn(edges, done, n) == 0 <==> forall m :: (m, n) in edges ==> m in done
  {
    if edges != [] {
      var last := edges[|edges| - 1];
      var init := edges[..|edges| - 1];
      PendingZero(init, done, n);
      assert edges == init + [last];
    }
  }

  lemma {:induction false} SuccessorIsNode(edges: seq<(Id, Id)>, u: Id)
    ensures forall n :: n in SuccessorsOf(edges, u) ==> n in Nodes(Arcs(edges))
  {
    if edges != [] {
      var last := edges[|edges| - 1];
      var init := edges[..|edges| - 1];
      SuccessorIsNode(init, u);
      assert edges == init + [last];
      assert last in Arcs(edges) && Arcs(init) <= Arcs(edges);
    }
  }

  lemma CountPrefix(s: seq<Id>, j: nat, x: Id)
    requires j < |s|
    ensures multiset(s[..j + 1])[x] == multiset(s[..j])[x] + (if s[j] == x then 1 else 0)
    ensures multiset(s[..j + 1])[x] <= multiset(s)[x]
  {
    assert s[..j + 1] == s[..j] + [s[j]];
    assert s == s[..j + 1] + s[j + 1..];
    assert multiset(s) == multiset(s[..j + 1]) + multiset(s[j + 1..]);
  }

  // ----- The loop state -----------------------------------------------------

  /** `order` is the list of popped nodes and `queue` those waiting: together they are,
      each once, exactly the nodes whose counter stands at zero. */
  ghost predicate QueueHoldsZeros(indegree: map<Id, nat>, order: seq<Id>, queue: seq<Id>) {
    && Distinct(order + queue)
    && forall n :: n in order + queue <==> n in indegree && indegree[n] == 0
  }

  /** Each counter is the number of edges into its node from unfinished nodes. */
  ghost predicate CountersStand(edges: seq<(Id, Id)>, done: set<Id>, indegree: map<Id, nat>) {
    && indegree.Keys == Nodes(Arcs(edges))
    && forall n :: n in indegree ==> indegree[n] == PendingIn(edges, done, n)
  }

  lemma Enqueue(indegree: map<Id, nat>, order: seq<Id>, queue: seq<Id>, n: Id, d: nat)
    requires QueueHoldsZeros(indegree, order, queue)
    requires n in indegree && indegree[n] > 0
    ensures QueueHoldsZeros(indegree[n := d], order, if d == 0 then queue + [n] else queue)
  {
    assert n !in order + queue;
    assert order + (queue + [n]) == (order + queue) + [n];
  }

  /** `successors` and `indegree` describe `edges` before any node is finished. */
  ghost predicate Counts(edges: seq<(Id, Id)>, successors: map<Id, seq<Id>>, indegree: map<Id, nat>) {
    && (forall u :: Lookup(successors, u) == SuccessorsOf(edges, u))
    && CountersStand(edges, {}, indegree)
  }

  function AddDegree(indegree: map<Id, nat>, e: (Id, Id)): map<Id, nat> {
    var known := if e.0 in indegree then indegree else indegree[e.0 := 0];
    known[e.1 := (if e.1 in known then known[e.1] else 0) + 1]
  }

  lemma PendingOutside(edges: seq<(Id, Id)>, n: Id)
    requires n !in Nodes(Arcs(edges))
    ensures PendingIn(edges, {}, n) == 0
  {
    PendingZero(edges, {}, n);
    assert forall m :: (m, n) in edges ==> (m, n) in Arcs(edges);
  }

  lemma NodesExtend(edges: seq<(Id, Id)>, i: nat)
    requires i < |edges|
    ensures Nodes(Arcs(edges[..i + 1])) == Nodes(Arcs(edges[..i])) + {edges[i].0, edges[i].1}
  {
    assert edges[..i + 1] == edges[..i] + [edges[i]];
    assert Arcs(edges[..i + 1]) == Arcs(edges[..i]) + {edges[i]};
  }

  lemma CountsStep(edges: seq<(Id, Id)>, i: nat, successors: map<Id, seq<Id>>, indegree: map<Id, nat>)
    requires i < |edges| && edges[i].0 != edges[i].1
    requires Counts(edges[..i], successors, indegree)
    ensures Counts(edges[..i + 1], Push(successors, edges[i].0, edges[i].1), AddDegree(indegree, edges[i]))
  {
    forall u ensures Lookup(Push(successors, edges[i].0, edges[i].1), u) == SuccessorsOf(edges[..i + 1], u) {
      SuccessorsExtend(edges, i, u);
    }
    DegreesStep(edges, i, indegree);
  }

  lemma DegreesStep(edges: seq<(Id, Id)>, i: nat, indegree: map<Id, nat>)
    requires i < |edges| && edges[i].0 != edges[i].1
    requires CountersStand(edges[..i], {}, indegree)
    ensures CountersStand(edges[..i + 1], {}, AddDegree(indegree, edges[i]))
  {
    var after := AddDegree(indegree, edges[i]);
    NodesExtend(edges, i);
    forall n | n in after ensures after[n] == PendingIn(edges[..i + 1], {}, n) {
      PendingExtend(edges, i, {}, n);
      if n !in indegree {
        PendingOutside(edges[..i], n);
      }
    }
  }

  lemma NothingCounted()
    ensures Counts([], map[], map[])
  {}

  ghost predicate NoSelfEdge(edges: seq<(Id, Id)>) {
    forall e :: e in edges ==> e.0 != e.1
  }

  lemma NoSelfEdgeStep(edges: seq<(Id, Id)>, i: nat)
    requires i < |edges| && NoSelfEdge(edges[..i]) && edges[i].0 != edges[i].1
    ensures NoSelfEdge(edges[..i + 1])
  {
    assert edges[..i + 1] == edges[..i] + [edges[i]];
  }

  /** Builds the successor lists and the counters, refusing a self-edge. */
  method BuildCounters(edges: seq<(Id, Id)>)
    returns (ok: bool, successors: map<Id, seq<Id>>, indegree: map<Id, nat>)
    ensures ok <==> NoSelfEdge(edges)
    ensures ok ==> Counts(edges, successors, indegree)
  {
    hide Counts, AddDegree, Push;
    successors, indegree := map[], map[];
    NothingCounted();
    assert edges[..0] == [];
    for i := 0 to |edges|
      invariant NoSelfEdge(edges[..i]) && Counts(edges[..i], successors, indegree)
    {
      if edges[i].0 == edges[i].1 {
        return false, successors, indegree;
      }
      CountsStep(edges, i, successors, indegree);
      NoSelfEdgeStep(edges, i);
      successors := Push(successors, edges[i].0, edges[i].1);
      indegree := AddDegree(indegree, edges[i]);
    }
    assert edges[..|edges|] == edges;
    return true, successors, indegree;
  }

  /** Takes one finished node off the counters of its successors. */
  method Release(edges: seq<(Id, Id)>, node: Id, next: seq<Id>, indegree0: map<Id, nat>, queue0: seq<Id>,
                 ghost order: seq<Id>, ghost done: set<Id>)
    returns (indegree: map<Id, nat>, queue: seq<Id>)
    requires next == SuccessorsOf(edges, node) && node !in done
    requires QueueHoldsZeros(indegree0, order, queue0)
    requires CountersStand(edges, done, indegree0)
    ensures QueueHoldsZeros(indegree, order, queue)
    ensures CountersStand(edges, done + {node}, indegree)
  {
    indegree, queue := indegree0, queue0;
    for j := 0 to |next|
      invariant QueueHoldsZeros(indegree, order, queue)
      invariant Released(indegree0, next[..j], indegree)
    {
      var successor := next[j];
      SuccessorIsNode(edges, node);
      CountPrefix(next, j, successor);
      PendingDrops(edges, done, node, successor);
      ReleaseStep(indegree0, next, j, indegree);
      if successor in indegree {
        Enqueue(indegree, order, queue, successor, indegree[successor] - 1);
        indegree := indegree[successor := indegree[successor] - 1];
        if indegree[successor] == 0 {
          queue := queue + [successor];
        }
      }
    }
    assert next[..|next|] == next;
    forall n | n in indegree ensures indegree[n] == PendingIn(edges, done + {node}, n) {
      PendingDrops(edges, done, node, n);
    }
  }

  /** The counters `before`, each lowered by the number of its occurrences in `handled`. */
  ghost predicate Released(before: map<Id, nat>, handled: seq<Id>, after: map<Id, nat>) {
    && after.Keys == before.Keys
    && forall n :: n in before ==> after[n] + multiset(handled)[n] == before[n]
  }

  lemma ReleaseStep(before: map<Id, nat>, next: seq<Id>, j: nat, after: map<Id, nat>)
    requires j < |next| && next[j] in before
    requires Released(before, next[..j], after)
    requires multiset(next)[next[j]] <= before[next[j]]
    ensures after[next[j]] > 0
    ensures Released(before, next[..j + 1], after[next[j] := after[next[j]] - 1])
  {
    CountPrefix(next, j, next[j]);
    forall n ensures multiset(next[..j + 1])[n] == multiset(next[..j])[n] + (if next[j] == n then 1 else 0) {
      CountPrefix(next, j, n);
    }
  }

  /** Accepts exactly the acyclic snapshots. An accepted snapshot comes with the pop
      order, which is topological; a rejected one with a concrete cycle. */
  method ValidateAcyclicLineage(edges: seq<(Id, Id)>)
    returns (verdict: Verdict, ghost order: seq<Id>, ghost cycle: seq<Id>)
    ensures verdict == if Acyclic(Arcs(edges)) then Accepted else Rejected(LineageCycle)
    ensures verdict.Accepted? ==> Topological(Arcs(edges), order) && forall n :: n in Nodes(Arcs(edges)) <==> n in order
    ensures verdict.Rejected? ==> Cycle(Arcs(edges), cycle)
  {
    order, cycle := [], [];
    var ok, successors, indegree := BuildCounters(edges);
    if !ok {
      cycle := SelfEdgeCycle(edges);
      return Rejected(LineageCycle), order, cycle;
    }
    var queue := InitialQueue(indegree);
    var visited := 0;
    ghost var done: set<Id> := {};
    while queue != []
      invariant QueueHoldsZeros(indegree, order, queue)
      invariant CountersStand(edges, done, indegree)
      invariant Listed(order, done)
      invariant Topological(Arcs(edges), order)
      invariant visited == |order|
      decreases indegree.Keys - done
    {
      var node := queue[0];
      Pop(indegree, order, queue);
      PopIsTopological(edges, indegree, order, done, node);
      indegree, queue := Release(edges, node, Lookup(successors, node), indegree, queue[1..], order + [node], done);
      visited := visited + 1;
      order := order + [node];
      done := done + {node};
    }
    if visited != |indegree| {
      cycle := LeftoverCycle(edges, indegree, order, done);
      return Rejected(LineageCycle), order, cycle;
    }
    NothingLeft(edges, indegree, order);
    return Accepted, order, cycle;
  }

  ghost predicate Listed(order: seq<Id>, done: set<Id>) {
    forall n :: n in done <==> n in order
  }

  /** The nodes without predecessors, in key order. */
  method InitialQueue(indegree: map<Id, nat>) returns (queue: seq<Id>)
    ensures QueueHoldsZeros(indegree, [], queue)
  {
    Orders.StringLeIsTotalOrder();
    var zeros := set n | n in indegree && indegree[n] == 0;
    queue := Orders.Ascending(Orders.StringLe, zeros);
    Orders.AscendingElements(Orders.StringLe, zeros);
    assert [] + queue == queue;
  }

  lemma Pop(indegree: map<Id, nat>, order: seq<Id>, queue: seq<Id>)
    requires QueueHoldsZeros(indegree, order, queue) && queue != []
    ensures QueueHoldsZeros(indegree, order + [queue[0]], queue[1..])
    ensures queue[0] !in order && queue[0] in indegree && indegree[queue[0]] == 0
  {
    assert (order + [queue[0]]) + queue[1..] == order + queue;
    assert (order + queue)[|order|] == queue[0];
    forall i | 0 <= i < |order| ensures order[i] != queue[0] {
      assert (order + queue)[i] == order[i];
    }
    assert queue[0] in order + queue;
  }

  lemma SelfEdgeCycle(edges: seq<(Id, Id)>) returns (cycle: seq<Id>)
    requires exists e :: e in edges && e.0 == e.1
    ensures Cycle(Arcs(edges), cycle)
  {
    var e :| e in edges && e.0 == e.1;
    cycle := [e.0, e.1];
    assert e in Arcs(edges) && e == (e.0, e.1);
  }

  lemma PopIsTopological(edges: seq<(Id, Id)>, indegree: map<Id, nat>, order: seq<Id>, done: set<Id>, n: Id)
    requires CountersStand(edges, done, indegree) && Listed(order, done)
    requires Topological(Arcs(edges), order) && n !in order
    requires n in indegree && indegree[n] == 0
    ensures Topological(Arcs(edges), order + [n])
    ensures Listed(order + [n], done + {n})
  {
    var g := Arcs(edges);
    var r := order + [n];
    PendingZero(edges, done, n);
    forall k, m | 0 <= k < |r| && (m, r[k]) in g ensures m in r[..k] {
      assert k < |order| ==> r[..k] == order[..k];
      assert k == |order| ==> r[..k] == order && (m, n) in edges;
    }
  }

  lemma NothingLeft(edges: seq<(Id, Id)>, indegree: map<Id, nat>, order: seq<Id>)
    requires QueueHoldsZeros(indegree, order, [])
    requires indegree.Keys == Nodes(Arcs(edges)) && |order| == |indegree|
    requires Topological(Arcs(edges), order)
    ensures Acyclic(Arcs(edges))
    ensures forall n :: n in Nodes(Arcs(edges)) <==> n in order
  {
    assert order + [] == order;
    assert |indegree| == |indegree.Keys|;
    DistinctFills(order, indegree.Keys);
    TopologicalIsAcyclic(Arcs(edges), order);
  }

  /** When nodes are left over, each has an unfinished predecessor that is left over too. */
  lemma LeftoverCycle(edges: seq<(Id, Id)>, indegree: map<Id, nat>, order: seq<Id>, done: set<Id>)
    returns (cycle: seq<Id>)
    requires QueueHoldsZeros(indegree, order, []) && CountersStand(edges, done, indegree)
    requires Listed(order, done) && |order| != |indegree|
    ensures Cycle(Arcs(edges), cycle)
    ensures forall n :: n in cycle ==> n in indegree && n !in order
  {
    assert order + [] == order;
    assert |indegree| == |indegree.Keys|;
    DistinctFills(order, indegree.Keys);
    var left := indegree.Keys - done;
    var x :| x in indegree.Keys && x !in order;
    assert x in left;
    forall n | n in left ensures HasPredecessor(Arcs(edges), left, n) {
      PendingZero(edges, done, n);
      var m :| (m, n) in edges && m !in done;
      assert (m, n) in Arcs(edges) && m in indegree.Keys;
    }
    cycle := PredecessorsGiveCycle(Arcs(edges), left);
  }
}
