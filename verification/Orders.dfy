/** Total orders and sorted lists.

    The Rust code iterates `BTreeSet`s and sorts vectors before it encodes or
    processes them. This module gives both a meaning as functions, and proves
    that a sorted list is determined by the elements it holds. */
module Orders {

  // ----- Orders -------------------------------------------------------------

  ghost predicate Preorder<T(!new)>(le: (T, T) -> bool) {
    && (forall a, b :: le(a, b) || le(b, a))
    && (forall a, b, c :: le(a, b) && le(b, c) ==> le(a, c))
  }

  ghost predicate Antisymmetric<T(!new)>(le: (T, T) -> bool) {
    forall a, b :: le(a, b) && le(b, a) ==> a == b
  }

  /** Lexicographic comparison of strings, unit by unit, as Rust compares `str`. */
  predicate StringLe(a: string, b: string) {
    a == [] || (b != [] && (a[0] < b[0] || (a[0] == b[0] && StringLe(a[1..], b[1..]))))
  }

  /** Lexicographic comparison of pairs. */
  function PairLe<A(==), B>(leA: (A, A) -> bool, leB: (B, B) -> bool): ((A, B), (A, B)) -> bool {
    (p: (A, B), q: (A, B)) => if p.0 == q.0 then leB(p.1, q.1) else leA(p.0, q.0)
  }

  lemma {:induction false} StringLeTotal(a: string, b: string)
    ensures StringLe(a, b) || StringLe(b, a)
    ensures StringLe(a, b) && StringLe(b, a) ==> a == b
  {
    if a != [] && b != [] && a[0] == b[0] {
      StringLeTotal(a[1..], b[1..]);
      assert a == [a[0]] + a[1..] && b == [b[0]] + b[1..];
    }
  }

  lemma {:induction false} StringLeTransitive(a: string, b: string, c: string)
    requires StringLe(a, b) && StringLe(b, c)
    ensures StringLe(a, c)
  {
    if a != [] && a[0] == b[0] == c[0] {
      StringLeTransitive(a[1..], b[1..], c[1..]);
    }
  }

  lemma StringLeIsTotalOrder()
    ensures Preorder(StringLe) && Antisymmetric(StringLe)
  {
    forall a, b ensures (StringLe(a, b) || StringLe(b, a)) && (StringLe(a, b) && StringLe(b, a) ==> a == b) {
      StringLeTotal(a, b);
    }
    forall a, b, c | StringLe(a, b) && StringLe(b, c) ensures StringLe(a, c) {
      StringLeTransitive(a, b, c);
    }
  }

  lemma PairLeIsTotalOrder<A(!new), B(!new)>(leA: (A, A) -> bool, leB: (B, B) -> bool)
    requires Preorder(leA) && Antisymmetric(leA)
    requires Preorder(leB) && Antisymmetric(leB)
    ensures Preorder(PairLe(leA, leB)) && Antisymmetric(PairLe(leA, leB))
  {
    var le := PairLe(leA, leB);
    forall p: (A, B), q: (A, B), r: (A, B) | le(p, q) && le(q, r) ensures le(p, r) {
      assert leA(p.0, q.0) && leA(q.0, r.0) ==> leA(p.0, r.0);
    }
    forall p: (A, B), q: (A, B) ensures le(p, q) || le(q, p) {
      assert leA(p.0, q.0) || leA(q.0, p.0);
    }
    forall p: (A, B), q: (A, B) | le(p, q) && le(q, p) ensures p == q {
      assert leA(p.0, q.0) && leA(q.0, p.0) ==> p.0 == q.0;
    }
  }

  // ----- Sorting a vector ---------------------------------------------------

  ghost predicate SortedBy<T>(le: (T, T) -> bool, s: seq<T>) {
    forall i, j :: 0 <= i < j < |s| ==> le(s[i], s[j])
  }

  /** `x` goes before the first element it does not exceed, so equal elements keep their order. */
  function Insert<T>(le: (T, T) -> bool, x: T, s: seq<T>): (r: seq<T>)
    ensures multiset(r) == multiset(s) + multiset{x}
  {
    if s == [] then [x]
    else if le(x, s[0]) then [x] + s
    else assert s == [s[0]] + s[1..]; [s[0]] + Insert(le, x, s[1..])
  }

  /** A stable sort, standing for `sort` and `sort_by_key`. */
  function Sort<T>(le: (T, T) -> bool, s: seq<T>): (r: seq<T>)
    ensures multiset(r) == multiset(s)
  {
    if s == [] then [] else assert s == [s[0]] + s[1..]; Insert(le, s[0], Sort(le, s[1..]))
  }

  lemma SameElements<T>(a: seq<T>, b: seq<T>)
    requires multiset(a) == multiset(b)
    ensures |a| == |b|
    ensures forall x :: x in a <==> x in b
  {
    assert |multiset(a)| == |multiset(b)|;
    forall x ensures x in a <==> x in b {
      assert x in a <==> x in multiset(a);
      assert x in b <==> x in multiset(b);
    }
  }

  lemma SortedPrepend<T(!new)>(le: (T, T) -> bool, x: T, s: seq<T>)
    requires SortedBy(le, s) && forall y :: y in s ==> le(x, y)
    ensures SortedBy(le, [x] + s)
  {
    var r := [x] + s;
    forall i, j | 0 <= i < j < |r| ensures le(r[i], r[j]) {
      assert r[j] == s[j - 1] && s[j - 1] in s;
      assert i > 0 ==> r[i] == s[i - 1];
    }
  }

  lemma SortedTail<T(!new)>(le: (T, T) -> bool, s: seq<T>)
    requires SortedBy(le, s) && s != []
    ensures SortedBy(le, s[1..]) && forall y :: y in s[1..] ==> le(s[0], y)
  {
    forall y | y in s[1..] ensures le(s[0], y) {
      var j :| 0 <= j < |s| - 1 && s[1..][j] == y;
      assert s[j + 1] == y;
    }
  }

  lemma {:induction false} InsertSorted<T(!new)>(le: (T, T) -> bool, x: T, s: seq<T>)
    requires Preorder(le) && SortedBy(le, s)
    ensures SortedBy(le, Insert(le, x, s))
  {
    hide SortedBy;
    if s == [] {
      OneIsSorted(le, x);
    } else {
      SortedTail(le, s);
      assert s == [s[0]] + s[1..];
      if le(x, s[0]) {
        SortedPrepend(le, x, s);
      } else {
        InsertSorted(le, x, s[1..]);
        var r := Insert(le, x, s[1..]);
        forall y | y in r ensures le(s[0], y) {
          assert y in multiset(r);
          if y != x {
            assert y in multiset(s[1..]);
          }
        }
        SortedPrepend(le, s[0], r);
      }
    }
  }

  lemma OneIsSorted<T(!new)>(le: (T, T) -> bool, x: T)
    ensures SortedBy(le, [x])
  {}

  lemma {:induction false} SortSorted<T(!new)>(le: (T, T) -> bool, s: seq<T>)
    requires Preorder(le)
    ensures SortedBy(le, Sort(le, s))
  {
    if s != [] {
      SortSorted(le, s[1..]);
      InsertSorted(le, s[0], Sort(le, s[1..]));
    }
  }

  lemma SameHead<T(!new)>(le: (T, T) -> bool, a: seq<T>, b: seq<T>)
    requires a != [] && b != [] && SortedBy(le, a) && SortedBy(le, b)
    requires forall x, y :: x in a && y in a && le(x, y) && le(y, x) ==> x == y
    requires forall x :: x in a <==> x in b
    ensures a[0] == b[0]
  {
    assert b[0] in b && a[0] in a;
    var i :| 0 <= i < |a| && a[i] == b[0];
    var j :| 0 <= j < |b| && b[j] == a[0];
    assert i == 0 || le(a[0], a[i]);
    assert j == 0 || le(b[0], b[j]);
  }

  lemma SameRest<T>(x: T, a: seq<T>, b: seq<T>)
    requires multiset([x] + a) == multiset([x] + b)
    ensures multiset(a) == multiset(b)
  {
    assert multiset([x] + a) == multiset{x} + multiset(a);
    assert multiset([x] + b) == multiset{x} + multiset(b);
    forall y ensures multiset(a)[y] == multiset(b)[y] {
      assert multiset([x] + a)[y] == multiset{x}[y] + multiset(a)[y];
      assert multiset([x] + b)[y] == multiset{x}[y] + multiset(b)[y];
    }
  }

  /** Sorted lists with the same elements are equal, when the order tells those elements apart. */
  lemma {:induction false} SortedUnique<T(!new)>(le: (T, T) -> bool, a: seq<T>, b: seq<T>)
    requires SortedBy(le, a) && SortedBy(le, b)
    requires forall x, y :: x in a && y in a && le(x, y) && le(y, x) ==> x == y
    requires multiset(a) == multiset(b)
    ensures a == b
  {
    SameElements(a, b);
    if a != [] {
      SameHead(le, a, b);
      assert a == [a[0]] + a[1..] && b == [b[0]] + b[1..];
      SameRest(a[0], a[1..], b[1..]);
      SortedUnique(le, a[1..], b[1..]);
    }
  }

  /** Sorting forgets the input order. */
  lemma SortPermutation<T(!new)>(le: (T, T) -> bool, s: seq<T>, t: seq<T>)
    requires Preorder(le)
    requires forall x, y :: x in s && y in s && le(x, y) && le(y, x) ==> x == y
    requires multiset(s) == multiset(t)
    ensures Sort(le, s) == Sort(le, t)
  {
    SortSorted(le, s);
    SortSorted(le, t);
    SameElements(s, Sort(le, s));
    SortedUnique(le, Sort(le, s), Sort(le, t));
  }

  // ----- Iterating an ordered set -------------------------------------------

  lemma {:induction false} LeastExists<T(!new)>(le: (T, T) -> bool, s: set<T>) returns (m: T)
    requires Preorder(le) && s != {}
    ensures m in s && forall y :: y in s ==> le(m, y)
    decreases |s|
  {
    var x :| x in s;
    var rest := s - {x};
    if rest == {} {
      assert s == {x} && le(x, x);
      m := x;
    } else {
      m := LeastExists(le, rest);
      if le(m, x) {
        assert s == rest + {x};
      } else {
        assert le(x, x) && le(x, m);
        forall y | y in s ensures le(x, y) {
          if y != x {
            assert le(m, y);
          }
        }
        m := x;
      }
    }
  }

  /** The elements of an ordered set in ascending order, as `BTreeSet` iterates. */
  function Ascending<T(!new, ==)>(le: (T, T) -> bool, s: set<T>): (r: seq<T>)
    requires Preorder(le) && Antisymmetric(le)
    ensures multiset(r) == multiset(s)
    decreases |s|
  {
    if s == {} then []
    else
      assert exists x :: x in s && forall y :: y in s ==> le(x, y) by { var _ := LeastExists(le, s); }
      var x :| x in s && forall y :: y in s ==> le(x, y);
      assert multiset(s) == multiset(s - {x}) + multiset{x};
      [x] + Ascending(le, s - {x})
  }

  lemma AscendingElements<T(!new)>(le: (T, T) -> bool, s: set<T>)
    requires Preorder(le) && Antisymmetric(le)
    ensures forall x :: x in Ascending(le, s) <==> x in s
    ensures |Ascending(le, s)| == |s|
    ensures forall i, j :: 0 <= i < j < |Ascending(le, s)| ==> Ascending(le, s)[i] != Ascending(le, s)[j]
  {
    SetListing(Ascending(le, s), s);
  }

  /** The listing of an ordered set is in ascending order. */
  lemma {:induction false} AscendingSorted<T(!new)>(le: (T, T) -> bool, s: set<T>)
    requires Preorder(le) && Antisymmetric(le)
    ensures SortedBy(le, Ascending(le, s))
    decreases |s|
  {
    hide Ascending, Preorder, Antisymmetric;
    var r := Ascending(le, s);
    AscendingElements(le, s);
    if s != {} {
      AscendingFirst(le, s);
      var rest := Ascending(le, s - {r[0]});
      AscendingSorted(le, s - {r[0]});
      forall i, j | 0 <= i < j < |r| ensures le(r[i], r[j]) {
        if i == 0 {
          assert r[j] in r;
        } else {
          assert r[i] == rest[i - 1] && r[j] == rest[j - 1];
        }
      }
    }
  }

  lemma AscendingFirst<T(!new)>(le: (T, T) -> bool, s: set<T>)
    requires Preorder(le) && Antisymmetric(le) && s != {}
    ensures var r := Ascending(le, s);
            r != [] && r[0] in s && (forall y :: y in s ==> le(r[0], y)) && r == [r[0]] + Ascending(le, s - {r[0]})
  {}

  /** A list with the elements of a set, each once, has the set's length and no repeats. */
  lemma SetListing<T>(r: seq<T>, s: set<T>)
    requires multiset(r) == multiset(s)
    ensures |r| == |s|
    ensures forall x :: x in r <==> x in s
    ensures forall i, j :: 0 <= i < j < |r| ==> r[i] != r[j]
  {
    assert |multiset(s)| == |s|;
    assert |multiset(r)| == |r|;
    forall x ensures x in r <==> x in s {
      assert x in r <==> x in multiset(r);
    }
    forall i, j | 0 <= i < j < |r| ensures r[i] != r[j] {
      CountsAdd(r, j, r[i]);
      assert multiset(r)[r[i]] == multiset(s)[r[i]] <= 1;
      assert r[..j][i] == r[i];
      assert r[i] in multiset(r[..j]);
    }
  }

  lemma CountsAdd<T>(r: seq<T>, j: nat, x: T)
    requires j < |r|
    ensures multiset(r)[x] >= multiset(r[..j])[x] + (if r[j] == x then 1 else 0)
  {
    assert r == r[..j] + [r[j]] + r[j + 1..];
    assert multiset(r) == multiset(r[..j]) + multiset([r[j]]) + multiset(r[j + 1..]);
  }

  lemma {:induction false} DistinctIsSet<T>(s: seq<T>)
    requires forall i, j :: 0 <= i < j < |s| ==> s[i] != s[j]
    ensures multiset(s) == multiset(set x | x in s)
  {
    if s != [] {
      var init, last := s[..|s| - 1], s[|s| - 1];
      DistinctIsSet(init);
      assert s == init + [last];
      assert (set x | x in s) == (set x | x in init) + {last};
      assert last !in init;
    }
  }

  /** A permutation of a list without repeats has no repeats. */
  lemma PermutationKeepsDistinct<T>(a: seq<T>, b: seq<T>)
    requires multiset(a) == multiset(b)
    requires forall i, j :: 0 <= i < j < |a| ==> a[i] != a[j]
    ensures forall i, j :: 0 <= i < j < |b| ==> b[i] != b[j]
  {
    DistinctIsSet(a);
    SetListing(b, set x | x in a);
  }

  /** Lists without repeats and with the same elements are permutations of each other. */
  lemma SameSetPermutation<T>(a: seq<T>, b: seq<T>)
    requires forall i, j :: 0 <= i < j < |a| ==> a[i] != a[j]
    requires forall i, j :: 0 <= i < j < |b| ==> b[i] != b[j]
    requires forall x :: x in a <==> x in b
    ensures multiset(a) == multiset(b)
  {
    DistinctIsSet(a);
    DistinctIsSet(b);
    assert (set x | x in a) == (set x | x in b);
  }
}
