/**
 Directed graphs given by an edge relation, their paths, and the one argument used everywhere to show
 that a graph has no cycle: a height that grows by at least `gap` along every edge.
 */
module Dag {

  /** A non-empty list of nodes, each joined to the next by an edge. */
  ghost predicate IsPath<T(!new)>(edge: (T, T) -> bool, path: seq<T>)
  {
    |path| > 0 && (|path| > 1 ==> edge(path[0], path[1]) && IsPath(edge, path[1..]))
  }

  ghost predicate Reaches<T(!new)>(edge: (T, T) -> bool, a: T, b: T)
  {
    exists path :: IsPath(edge, path) && path[0] == a && path[|path| - 1] == b
  }

  /** No path with at least one edge comes back to where it started. */
  ghost predicate Acyclic<T(!new)>(edge: (T, T) -> bool)
  {
    forall path :: IsPath(edge, path) && |path| > 1 ==> path[0] != path[|path| - 1]
  }

  ghost predicate Climbs<T(!new)>(edge: (T, T) -> bool, height: T -> int, gap: int)
  {
    forall x, y :: edge(x, y) ==> height(x) + gap <= height(y)
  }

  lemma {:induction false} PathClimbs<T(!new)>(edge: (T, T) -> bool, height: T -> int, gap: int, path: seq<T>)
    requires Climbs(edge, height, gap)
    requires IsPath(edge, path)
    ensures height(path[0]) + gap * (|path| - 1) <= height(path[|path| - 1])
    decreases |path|
  {
    if |path| > 1 {
      var n := |path| - 1;
      PathClimbs(edge, height, gap, path[1..]);
      assert height(path[1]) + gap * (n - 1) <= height(path[n]);
      assert gap * n == gap + gap * (n - 1);
    }
  }

  lemma {:induction false} ClimbingIsAcyclic<T(!new)>(edge: (T, T) -> bool, height: T -> int, gap: int)
    requires gap > 0
    requires Climbs(edge, height, gap)
    ensures Acyclic(edge)
  {
    forall path | IsPath(edge, path) && |path| > 1
      ensures path[0] != path[|path| - 1]
    {
      PathClimbs(edge, height, gap, path);
      assert gap * (|path| - 1) > 0;
    }
  }

  lemma {:induction false} ReachSelf<T(!new)>(edge: (T, T) -> bool, a: T)
    ensures Reaches(edge, a, a)
  {
    assert IsPath(edge, [a]);
  }

  /** Reaching composes: two paths that meet can be joined. */
  lemma {:induction false} JoinPaths<T(!new)>(edge: (T, T) -> bool, p: seq<T>, q: seq<T>)
    requires IsPath(edge, p) && IsPath(edge, q)
    requires p[|p| - 1] == q[0]
    ensures IsPath(edge, p + q[1..])
    decreases |p|
  {
    if |p| == 1 {
      assert p + q[1..] == q;
    } else {
      JoinPaths(edge, p[1..], q);
      var joined := p + q[1..];
      assert joined[1..] == p[1..] + q[1..];
    }
  }

  lemma {:induction false} ReachTrans<T(!new)>(edge: (T, T) -> bool, a: T, b: T, c: T)
    requires Reaches(edge, a, b) && Reaches(edge, b, c)
    ensures Reaches(edge, a, c)
  {
    var p :| IsPath(edge, p) && p[0] == a && p[|p| - 1] == b;
    var q :| IsPath(edge, q) && q[0] == b && q[|q| - 1] == c;
    JoinPaths(edge, p, q);
    var joined := p + q[1..];
    assert joined[0] == a && joined[|joined| - 1] == c;
  }

  lemma {:induction false} ReachEdge<T(!new)>(edge: (T, T) -> bool, a: T, b: T)
    requires edge(a, b)
    ensures Reaches(edge, a, b)
  {
    var path := [a, b];
    assert path[1..] == [b];
    assert IsPath(edge, path[1..]);
    assert IsPath(edge, path);
  }
}
