/** Walks, reachability and cycles in finite directed graphs given by their arcs. */
module Graphs {

  ghost predicate Walk<N>(g: set<(N, N)>, p: seq<N>) {
    && p != []
    && forall i, j :: 0 <= i && j == i + 1 < |p| ==> (p[i], p[j]) in g
  }

  ghost predicate WalkBetween<N>(g: set<(N, N)>, p: seq<N>, a: N, b: N) {
    Walk(g, p) && p[0] == a && p[|p| - 1] == b
  }

  ghost predicate Reach<N(!new)>(g: set<(N, N)>, a: N, b: N) {
    exists p: seq<N> :: WalkBetween(g, p, a, b)
  }

  /** Reachable along at least one arc. */
  ghost predicate ReachByArcs<N(!new)>(g: set<(N, N)>, a: N, b: N) {
    exists p: seq<N> :: |p| >= 2 && WalkBetween(g, p, a, b)
  }

  ghost predicate Cycle<N>(g: set<(N, N)>, p: seq<N>) {
    |p| >= 2 && Walk(g, p) && p[0] == p[|p| - 1]
  }

  ghost predicate Acyclic<N(!new)>(g: set<(N, N)>) {
    forall p: seq<N> :: !Cycle(g, p)
  }

  ghost predicate Symmetric<N(!new)>(g: set<(N, N)>) {
    forall a, b :: (a, b) in g ==> (b, a) in g
  }

  ghost function Nodes<N(!new)>(g: set<(N, N)>): set<N> {
    (set e | e in g :: e.0) + (set e | e in g :: e.1)
  }

  ghost predicate Distinct<N>(s: seq<N>) {
    forall i, j :: 0 <= i < j < |s| ==> s[i] != s[j]
  }

  // ----- Reachability -------------------------------------------------------

  lemma ReachSelf<N(!new)>(g: set<(N, N)>, a: N)
    ensures Reach(g, a, a)
  {
    assert WalkBetween(g, [a], a, a);
  }

  lemma ReachArc<N(!new)>(g: set<(N, N)>, a: N, b: N)
    requires (a, b) in g
    ensures Reach(g, a, b) && ReachByArcs(g, a, b)
  {
    assert WalkBetween(g, [a, b], a, b) && |[a, b]| == 2;
  }

  lemma ReachTransitive<N(!new)>(g: set<(N, N)>, a: N, b: N, c: N)
    requires Reach(g, a, b) && Reach(g, b, c)
    ensures Reach(g, a, c)
    ensures ReachByArcs(g, a, b) || ReachByArcs(g, b, c) ==> ReachByArcs(g, a, c)
  {
    var p :| WalkBetween(g, p, a, b) && (ReachByArcs(g, a, b) ==> |p| >= 2);
    var q :| WalkBetween(g, q, b, c) && (ReachByArcs(g, b, c) ==> |q| >= 2);
    var r := p + q[1..];
    forall i, j | 0 <= i && j == i + 1 < |r| ensures (r[i], r[j]) in g {
      if i >= |p| - 1 {
        assert (q[i - |p| + 1], q[i - |p| + 2]) in g;
      }
    }
    assert WalkBetween(g, r, a, c);
  }

  lemma ReachSymmetric<N(!new)>(g: set<(N, N)>, a: N, b: N)
    requires Symmetric(g) && Reach(g, a, b)
    ensures Reach(g, b, a)
  {
    var p :| WalkBetween(g, p, a, b);
    var n := |p|;
    var r := seq(n, i requires 0 <= i < n => p[n - 1 - i]);
    forall i, j | 0 <= i && j == i + 1 < |r| ensures (r[i], r[j]) in g {
      assert (p[n - 1 - j], p[n - 1 - i]) in g;
    }
    assert WalkBetween(g, r, b, a);
  }

  /** A walk cannot leave a set closed under the arcs. */
  lemma {:induction false} WalkStaysInside<N(!new)>(g: set<(N, N)>, s: set<N>, p: seq<N>)
    requires Walk(g, p) && p[0] in s
    requires forall a, b :: (a, b) in g && a in s ==> b in s
    ensures p[|p| - 1] in s
  {
    if |p| > 1 {
      assert (p[0], p[1]) in g;
      WalkStaysInside(g, s, p[1..]);
    }
  }

  lemma ReachStaysInside<N(!new)>(g: set<(N, N)>, s: set<N>, a: N, b: N)
    requires Reach(g, a, b) && a in s
    requires forall x, y :: (x, y) in g && x in s ==> y in s
    ensures b in s
  {
    var p :| WalkBetween(g, p, a, b);
    WalkStaysInside(g, s, p);
  }

  lemma ReachMonotone<N(!new)>(g: set<(N, N)>, h: set<(N, N)>, a: N, b: N)
    requires g <= h && Reach(g, a, b)
    ensures Reach(h, a, b)
  {
    var p :| WalkBetween(g, p, a, b);
    assert WalkBetween(h, p, a, b);
  }

  // ----- Pigeonhole ---------------------------------------------------------

  lemma {:induction false} DistinctFits<N>(s: seq<N>, u: set<N>)
    requires Distinct(s) && forall x :: x in s ==> x in u
    ensures |s| <= |u|
  {
    if s != [] {
      var x := s[|s| - 1];
      var t := s[..|s| - 1];
      assert x in u;
      forall y | y in t ensures y in u - {x} {
        var i :| 0 <= i < |t| && t[i] == y;
        assert s[i] == y;
      }
      DistinctFits(t, u - {x});
    }
  }

  lemma DistinctFills<N>(s: seq<N>, u: set<N>)
    requires Distinct(s) && forall x :: x in s ==> x in u
    ensures |s| == |u| <==> forall x :: x in u ==> x in s
  {
    DistinctFits(s, u);
    if y :| y in u && y !in s {
      DistinctFits(s, u - {y});
    } else {
      assert u == set x | x in s;
      DistinctCount(s);
    }
  }

  lemma {:induction false} DistinctCount<N>(s: seq<N>)
    requires Distinct(s)
    ensures |set x | x in s| == |s|
  {
    if s != [] {
      var x := s[|s| - 1];
      var t := s[..|s| - 1];
      DistinctCount(t);
      assert x !in t;
      assert (set y | y in s) == (set y | y in t) + {x};
    }
  }

  ghost predicate HasPredecessor<N(!new)>(g: set<(N, N)>, within: set<N>, n: N) {
    exists m :: m in within && (m, n) in g
  }

  /** Walking backwards inside a set where every node has a predecessor. */
  lemma {:induction false} BackwardWalk<N(!new)>(g: set<(N, N)>, left: set<N>, k: nat) returns (p: seq<N>)
    requires left != {}
    requires forall n :: n in left ==> HasPredecessor(g, left, n)
    ensures |p| == k + 1 && Walk(g, p)
    ensures forall x :: x in p ==> x in left
  {
    if k == 0 {
      var n :| n in left;
      p := [n];
    } else {
      var q := BackwardWalk(g, left, k - 1);
      assert q[0] in left;
      assert HasPredecessor(g, left, q[0]);
      var m :| m in left && (m, q[0]) in g;
      p := [m] + q;
    }
  }

  /** If every node of a non-empty set has a predecessor in the set, the set holds a cycle. */
  lemma PredecessorsGiveCycle<N(!new)>(g: set<(N, N)>, left: set<N>) returns (c: seq<N>)
    requires left != {}
    requires forall n :: n in left ==> HasPredecessor(g, left, n)
    ensures Cycle(g, c)
    ensures forall x :: x in c ==> x in left
  {
    var p := BackwardWalk(g, left, |left|);
    if Distinct(p) {
      DistinctFits(p, left);
      assert false;
    }
    var i, j :| 0 <= i < j < |p| && p[i] == p[j];
    c := p[i..j + 1];
    forall a, b | 0 <= a && b == a + 1 < |c| ensures (c[a], c[b]) in g {
      assert (p[i + a], p[i + b]) in g;
    }
  }

  // ----- Topological orders -------------------------------------------------

  /** Each node comes once, after all its predecessors. */
  ghost predicate Topological<N(!new)>(g: set<(N, N)>, order: seq<N>) {
    && Distinct(order)
    && forall k, m :: 0 <= k < |order| && (m, order[k]) in g ==> m in order[..k]
  }

  lemma {:induction false} WalkGoesForward<N(!new)>(g: set<(N, N)>, order: seq<N>, p: seq<N>, k: nat)
    requires Topological(g, order)
    requires Walk(g, p) && |p| >= 2 && k < |order| && p[|p| - 1] == order[k]
    ensures p[0] in order[..k]
  {
    var q := p[..|p| - 1];
    var m := q[|q| - 1];
    assert (m, order[k]) in g;
    assert m in order[..k];
    var l :| 0 <= l < k && order[l] == m;
    if |q| >= 2 {
      WalkGoesForward(g, order, q, l);
      assert order[..l] <= order[..k];
    }
  }

  lemma TopologicalIsAcyclic<N(!new)>(g: set<(N, N)>, order: seq<N>)
    requires Topological(g, order)
    requires forall n :: n in Nodes(g) ==> n in order
    ensures Acyclic(g)
  {
    forall p: seq<N> ensures !Cycle(g, p) {
      if |p| >= 2 && Walk(g, p) {
        assert (p[|p| - 2], p[|p| - 1]) in g;
        assert p[|p| - 1] in Nodes(g);
        var k :| 0 <= k < |order| && order[k] == p[|p| - 1];
        WalkGoesForward(g, order, p, k);
        assert order[k] !in order[..k];
      }
    }
  }

  // ----- Adjacency maps -----------------------------------------------------

  /** The list stored for a node; a missing key reads as the empty list. */
  function Lookup<N(==)>(lists: map<N, seq<N>>, u: N): seq<N> {
    if u in lists then lists[u] else []
  }

  function Push<N(==)>(lists: map<N, seq<N>>, u: N, v: N): map<N, seq<N>> {
    lists[u := Lookup(lists, u) + [v]]
  }
}
