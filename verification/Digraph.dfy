/** Paths, reachability and cycles in a directed graph given by its successor sets. */
module Digraph {

  ghost predicate Edge<K>(e: map<K, set<K>>, x: K, y: K) {
    x in e && y in e[x]
  }

  ghost predicate Path<K>(e: map<K, set<K>>, p: seq<K>) {
    |p| > 0 && forall i, j :: 0 <= i && j == i + 1 && j < |p| ==> Edge(e, p[i], p[j])
  }

  /** There is a path of zero or more edges. */
  ghost predicate Reaches<K(!new)>(e: map<K, set<K>>, x: K, y: K) {
    exists p :: Path(e, p) && p[0] == x && p[|p| - 1] == y
  }

  /** There is a path of one or more edges. */
  ghost predicate ReachesStrictly<K(!new)>(e: map<K, set<K>>, x: K, y: K) {
    exists p :: Path(e, p) && |p| >= 2 && p[0] == x && p[|p| - 1] == y
  }

  /** `p` leaves `x` and comes back to a node it has passed. */
  ghost predicate Lasso<K>(e: map<K, set<K>>, x: K, p: seq<K>, i: nat, j: nat) {
    Path(e, p) && p[0] == x && i < j < |p| && p[i] == p[j]
  }

  /** A cycle can be reached from `x`. */
  ghost predicate Cyclic<K(!new)>(e: map<K, set<K>>, x: K) {
    exists p: seq<K>, i: nat, j: nat :: Lasso(e, x, p, i, j)
  }

  lemma PathPrepend<K>(e: map<K, set<K>>, x: K, p: seq<K>)
    requires Path(e, p) && Edge(e, x, p[0])
    ensures Path(e, [x] + p)
  {
  }

  lemma PathAppend<K>(e: map<K, set<K>>, p: seq<K>, y: K)
    requires Path(e, p) && Edge(e, p[|p| - 1], y)
    ensures Path(e, p + [y])
  {
  }

  lemma PathDrop<K>(e: map<K, set<K>>, p: seq<K>, i: nat, j: nat)
    requires Path(e, p) && i < j <= |p|
    ensures Path(e, p[i..j])
  {
  }

  lemma CyclicStep<K(!new)>(e: map<K, set<K>>, x: K, y: K)
    requires Edge(e, x, y) && Cyclic(e, y)
    ensures Cyclic(e, x)
  {
    var p: seq<K>, i: nat, j: nat :| Lasso(e, y, p, i, j);
    PathPrepend(e, x, p);
    assert Lasso(e, x, [x] + p, i + 1, j + 1);
  }

  /** A cycle reachable from `x` is reachable from some successor of `x`. */
  lemma CyclicNext<K(!new)>(e: map<K, set<K>>, x: K) returns (y: K)
    requires Cyclic(e, x)
    ensures Edge(e, x, y) && Cyclic(e, y)
  {
    var p: seq<K>, i: nat, j: nat :| Lasso(e, x, p, i, j);
    y := p[1];
    if i > 0 {
      PathDrop(e, p, 1, |p|);
      assert Lasso(e, y, p[1..], i - 1, j - 1);
    } else {
      PathDrop(e, p, 1, j + 1);
      var q := p[1..j + 1];
      PathAppend(e, q, y);
      assert Lasso(e, y, q + [y], 0, |q|);
    }
  }

  /** An edge back to a node of the path that led here closes a cycle. */
  lemma BackEdge<K(!new)>(e: map<K, set<K>>, p: seq<K>, i: nat)
    requires Path(e, p) && i < |p| && Edge(e, p[|p| - 1], p[i])
    ensures Cyclic(e, p[i]) && ReachesStrictly(e, p[i], p[i])
  {
    PathDrop(e, p, i, |p|);
    var q := p[i..];
    PathAppend(e, q, p[i]);
    assert Lasso(e, p[i], q + [p[i]], 0, |q|);
  }

  lemma ReachesStep<K(!new)>(e: map<K, set<K>>, x: K, y: K, z: K)
    requires Edge(e, x, y) && Reaches(e, y, z)
    ensures ReachesStrictly(e, x, z) && Reaches(e, x, z)
  {
    var p :| Path(e, p) && p[0] == y && p[|p| - 1] == z;
    PathPrepend(e, x, p);
    assert ([x] + p)[|p|] == z;
  }

  /** The first edge of a path of at least one edge. */
  lemma ReachesFirst<K(!new)>(e: map<K, set<K>>, x: K, z: K) returns (y: K)
    requires ReachesStrictly(e, x, z)
    ensures Edge(e, x, y) && Reaches(e, y, z)
  {
    var p :| Path(e, p) && |p| >= 2 && p[0] == x && p[|p| - 1] == z;
    y := p[1];
    PathDrop(e, p, 1, |p|);
  }

  lemma ReachesSelf<K(!new)>(e: map<K, set<K>>, x: K)
    ensures Reaches(e, x, x)
  {
    assert Path(e, [x]) && [x][0] == x;
  }

  lemma ReachesSplit<K(!new)>(e: map<K, set<K>>, x: K, z: K)
    ensures Reaches(e, x, z) <==> x == z || ReachesStrictly(e, x, z)
  {
    ReachesSelf(e, x);
    if Reaches(e, x, z) && x != z {
      var p :| Path(e, p) && p[0] == x && p[|p| - 1] == z;
      assert |p| >= 2;
    }
  }

  /** More edges keep every cycle. */
  lemma CyclicMonotone<K(!new)>(e: map<K, set<K>>, f: map<K, set<K>>, x: K)
    requires Cyclic(e, x) && forall u, v :: Edge(e, u, v) ==> Edge(f, u, v)
    ensures Cyclic(f, x)
  {
    var p: seq<K>, i: nat, j: nat :| Lasso(e, x, p, i, j);
    assert Lasso(f, x, p, i, j);
  }

  lemma SameGraph<K(!new)>(e: map<K, set<K>>, f: map<K, set<K>>)
    requires e.Keys == f.Keys && forall x, y :: Edge(e, x, y) <==> Edge(f, x, y)
    ensures e == f
  {
    forall x | x in e ensures e[x] == f[x] {
      forall y ensures y in e[x] <==> y in f[x] {
        assert Edge(e, x, y) <==> Edge(f, x, y);
      }
    }
  }
}
