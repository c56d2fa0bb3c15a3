/** Adjacency matrices, walks and distances. */
module Graphs {

  /** An entry is positive for an edge, 0 on the diagonal and -1 otherwise. */
  type Matrix = seq<seq<int>>

  ghost predicate Square(m: Matrix, n: nat) {
    |m| == n && forall u | 0 <= u < n :: |m[u]| == n && forall v | 0 <= v < n :: -1 <= m[u][v] <= 1
  }

  ghost predicate Edge(m: Matrix, u: int, v: int) {
    0 <= u < |m| && 0 <= v < |m[u]| && m[u][v] > 0
  }

  /** A walk of `n` edges leads from `s` to `t`. */
  ghost predicate Walk(m: Matrix, s: int, t: int, n: nat)
    decreases n
  {
    if n == 0 then s == t else exists x :: Walk(m, s, x, n - 1) && Edge(m, x, t)
  }

  ghost predicate Reachable(m: Matrix, s: int, t: int) {
    exists n: nat :: Walk(m, s, t, n)
  }

  /** `d` is the length of a shortest walk. */
  ghost predicate IsDist(m: Matrix, s: int, t: int, d: nat) {
    Walk(m, s, t, d) && forall e: nat | e < d :: !Walk(m, s, t, e)
  }

  lemma {:induction false} WalkJoin(m: Matrix, a: int, b: int, c: int, p: nat, q: nat)
    requires Walk(m, a, b, p) && Walk(m, b, c, q)
    ensures Walk(m, a, c, p + q)
    decreases q
  {
    if q > 0 {
      var x :| Walk(m, b, x, q - 1) && Edge(m, x, c);
      WalkJoin(m, a, b, x, p, q - 1);
    }
  }

  lemma EdgeWalk(m: Matrix, u: int, v: int)
    requires Edge(m, u, v)
    ensures Walk(m, u, v, 1)
  {
    assert Walk(m, u, u, 0);
  }

  lemma ExtendFront(m: Matrix, u: int, v: int, t: int, n: nat)
    requires Edge(m, u, v) && Walk(m, v, t, n)
    ensures Walk(m, u, t, n + 1)
  {
    EdgeWalk(m, u, v);
    WalkJoin(m, u, v, t, 1, n);
  }

  /** Edges join different routers and lead both ways. */
  ghost predicate Undirected(m: Matrix) {
    forall u, v | Edge(m, u, v) :: u != v && Edge(m, v, u)
  }

  lemma {:induction false} WalkBack(m: Matrix, u: int, v: int, n: nat)
    requires Undirected(m) && Walk(m, u, v, n)
    ensures Walk(m, v, u, n)
    decreases n
  {
    if n > 0 {
      var x :| Walk(m, u, x, n - 1) && Edge(m, x, v);
      WalkBack(m, u, x, n - 1);
      ExtendFront(m, v, x, u, n - 1);
    }
  }

  lemma {:induction false} WalkIn(m: Matrix, m': Matrix, u: int, v: int, n: nat)
    requires Walk(m, u, v, n) && forall x, y | Edge(m, x, y) :: Edge(m', x, y)
    ensures Walk(m', u, v, n)
    decreases n
  {
    if n > 0 {
      var x :| Walk(m, u, x, n - 1) && Edge(m, x, v);
      WalkIn(m, m', u, x, n - 1);
    }
  }

  /** If a neighbour of `u` is one step nearer to `t`, its distance is exactly one less. */
  lemma NextOnShortest(m: Matrix, u: int, v: int, t: int, d: nat)
    requires IsDist(m, u, t, d + 1) && Edge(m, u, v) && Walk(m, v, t, d)
    ensures IsDist(m, v, t, d)
  {
    forall e: nat | e < d ensures !Walk(m, v, t, e) {
      if Walk(m, v, t, e) {
        EdgeWalk(m, u, v);
        WalkJoin(m, u, v, t, 1, e);
      }
    }
  }

  lemma DistUnique(m: Matrix, s: int, t: int, d: nat, e: nat)
    requires IsDist(m, s, t, d) && IsDist(m, s, t, e)
    ensures d == e
  {
  }

  lemma DistDiffers(m: Matrix, a: int, b: int, t: int, d: nat, e: nat)
    requires IsDist(m, a, t, d) && IsDist(m, b, t, e) && d != e
    ensures a != b
  {
  }

  lemma ZeroDist(m: Matrix, s: int, t: int, d: nat)
    requires IsDist(m, s, t, d)
    ensures d == 0 <==> s == t
  {
    assert Walk(m, t, t, 0);
  }

  function CountTrue(v: seq<bool>): (c: nat)
    ensures c <= |v|
    ensures c == |v| <==> forall i | 0 <= i < |v| :: v[i]
  {
    if v == [] then 0 else (if v[|v| - 1] then 1 else 0) + CountTrue(v[..|v| - 1])
  }

  lemma {:induction false} CountSet(v: seq<bool>, i: nat)
    requires i < |v| && !v[i]
    ensures CountTrue(v[i := true]) == CountTrue(v) + 1
  {
    var l, w := |v| - 1, v[i := true];
    if i == l {
      assert w[..l] == v[..l];
    } else {
      assert w[..l] == v[..l][i := true] && w[l] == v[l];
      CountSet(v[..l], i);
    }
  }

  lemma {:induction false} CountNone(v: seq<bool>)
    requires forall i | 0 <= i < |v| :: !v[i]
    ensures CountTrue(v) == 0
  {
    if v != [] { CountNone(v[..|v| - 1]); }
  }
}
