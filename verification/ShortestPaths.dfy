/** Single-source shortest paths over a 0/1 adjacency matrix, as the route tables compute them. */
module ShortestPaths {
  import opened Graphs

  const INT_MAX := 0x7fff_ffff

  /** Every router that has neighbours can be reached. */
  ghost predicate Connected(m: Matrix, src: int) {
    forall u, v | Edge(m, u, v) :: Reachable(m, src, u)
  }

  /** The neighbours of a settled router have finite distances. */
  ghost predicate NoneCutOff(m: Matrix, visited: seq<bool>, dist: seq<int>) {
    |visited| == |dist| == |m| &&
    forall u, v {:trigger Edge(m, u, v)} | Edge(m, u, v) && visited[u] && v < |m| :: dist[v] < INT_MAX
  }

  /** The tentative distances and predecessors: finite entries are lengths of walks whose last
      but one router is settled. `bound` limits the finite entries. */
  ghost predicate Tentative(m: Matrix, src: int, visited: seq<bool>, dist: seq<int>, pred: seq<int>, bound: nat) {
    && |visited| == |dist| == |pred| == |m| && 0 <= src < |m|
    && dist[src] == 0 && pred[src] == -1
    && (forall v | 0 <= v < |m| :: 0 <= dist[v] <= INT_MAX)
    && (forall v | 0 <= v < |m| && dist[v] < INT_MAX :: dist[v] <= bound && Walk(m, src, v, dist[v]))
    && (forall v {:trigger pred[v]} | 0 <= v < |m| && dist[v] == INT_MAX :: pred[v] == -1)
    && (forall v {:trigger pred[v]} | 0 <= v < |m| && v != src && dist[v] < INT_MAX ::
          && 0 <= pred[v] < |m| && visited[pred[v]]
          && dist[pred[v]] + 1 == dist[v] && Edge(m, pred[v], v))
  }

  /** Settled routers are no farther than the others. */
  ghost predicate Settled(visited: seq<bool>, dist: seq<int>) {
    |visited| == |dist| &&
    forall v, w | 0 <= v < |visited| && 0 <= w < |visited| && visited[v] && !visited[w] :: dist[v] <= dist[w]
  }

  /** The edges out of `v` up to column `c` have been relaxed. */
  ghost predicate Relaxed(m: Matrix, dist: seq<int>, v: int, c: int) {
    && |m| == |dist| && 0 <= v < |dist|
    && (dist[v] < INT_MAX ==> forall w {:trigger Edge(m, v, w)} | 0 <= w < c && w < |dist| && Edge(m, v, w) :: dist[w] <= dist[v] + 1)
  }

  ghost predicate AllRelaxed(m: Matrix, visited: seq<bool>, dist: seq<int>, but: int) {
    && |m| == |visited| == |dist|
    && forall v | 0 <= v < |m| && visited[v] && v != but :: Relaxed(m, dist, v, |m|)
  }

  /** While a reachable router is unsettled, some unsettled router has a finite distance. */
  lemma {:induction false} FiniteAlong(m: Matrix, src: int, visited: seq<bool>, dist: seq<int>, pred: seq<int>,
                                       bound: nat, t: int, n: nat)
    requires Square(m, |m|) && Tentative(m, src, visited, dist, pred, bound) && bound < INT_MAX - 1
    requires AllRelaxed(m, visited, dist, -1)
    requires forall v | 0 <= v < |m| && !visited[v] :: dist[v] == INT_MAX
    requires Walk(m, src, t, n)
    ensures 0 <= t < |m| && dist[t] < INT_MAX
    decreases n
  {
    if n > 0 {
      var x :| Walk(m, src, x, n - 1) && Edge(m, x, t);
      FiniteAlong(m, src, visited, dist, pred, bound, x, n - 1);
      assert Relaxed(m, dist, x, |m|);
    }
  }

  /** The router taken next has a finite distance whenever it has an edge at all. */
  lemma FiniteSource(m: Matrix, src: int, visited: seq<bool>, dist: seq<int>, pred: seq<int>, bound: nat, c: int)
    requires Square(m, |m|) && Tentative(m, src, visited, dist, pred, bound) && bound < INT_MAX - 1
    requires AllRelaxed(m, visited, dist, -1) && Connected(m, src)
    requires 0 <= c < |m| && !visited[c]
    requires forall v | 0 <= v < |m| && !visited[v] :: dist[c] <= dist[v]
    ensures forall w :: Edge(m, c, w) ==> dist[c] < INT_MAX
  {
    forall w | Edge(m, c, w) ensures dist[c] < INT_MAX {
      assert Reachable(m, src, c);
      var n: nat :| Walk(m, src, c, n);
      if dist[c] == INT_MAX {
        FiniteAlong(m, src, visited, dist, pred, bound, c, n);
      }
    }
  }

  /** So if its distance is infinite and it has an edge, some router with neighbours is out of reach. */
  lemma InfiniteSource(m: Matrix, src: int, visited: seq<bool>, dist: seq<int>, pred: seq<int>, bound: nat, c: int)
    requires Square(m, |m|) && Tentative(m, src, visited, dist, pred, bound) && bound < INT_MAX - 1
    requires AllRelaxed(m, visited, dist, -1)
    requires 0 <= c < |m| && !visited[c] && dist[c] == INT_MAX && exists w :: Edge(m, c, w)
    requires forall v | 0 <= v < |m| && !visited[v] :: dist[c] <= dist[v]
    ensures !Connected(m, src)
  {
    if Connected(m, src) { FiniteSource(m, src, visited, dist, pred, bound, c); }
  }

  /** When everything is settled the tentative distances are the distances. */
  lemma {:induction false} SettledIsShortest(m: Matrix, src: int, visited: seq<bool>, dist: seq<int>, pred: seq<int>,
                                             bound: nat, t: int, n: nat)
    requires Square(m, |m|) && Tentative(m, src, visited, dist, pred, bound) && bound < INT_MAX - 1
    requires AllRelaxed(m, visited, dist, -1)
    requires forall v | 0 <= v < |m| :: visited[v]
    requires Walk(m, src, t, n)
    ensures 0 <= t < |m| && dist[t] <= n && dist[t] < INT_MAX
    decreases n
  {
    if n > 0 {
      var x :| Walk(m, src, x, n - 1) && Edge(m, x, t);
      SettledIsShortest(m, src, visited, dist, pred, bound, x, n - 1);
      assert Relaxed(m, dist, x, |m|);
    }
  }

  /** Settling a router with all its edges relaxed cuts nobody off: if its distance is infinite it
      has no neighbours at all. */
  lemma SettlingCutsNone(m: Matrix, src: int, visited: seq<bool>, dist0: seq<int>, dist: seq<int>, pred: seq<int>, bound: nat, c: int)
    requires Square(m, |m|) && 0 <= c < |m| && |visited| == |m| && !visited[c]
    requires Settling(m, src, visited[c := true], dist, pred, bound, c, |m|)
    requires |dist0| == |dist| && dist0[c] == dist[c] && forall v | 0 <= v < |m| :: dist[v] <= dist0[v]
    requires bound < INT_MAX - 1
    requires dist[c] == INT_MAX ==> forall v | Edge(m, c, v) && v < |m| :: visited[v] || v == c
    ensures Undirected(m) && NoneCutOff(m, visited, dist0) ==> NoneCutOff(m, visited[c := true], dist)
  {
    if Undirected(m) && NoneCutOff(m, visited, dist0) {
      forall u, v | Edge(m, u, v) && visited[c := true][u] && v < |m| ensures dist[v] < INT_MAX {
        if u == c {
          assert Edge(m, v, c) && Relaxed(m, dist, c, |m|);
        }
      }
    }
  }

  ghost predicate Settling(m: Matrix, src: int, visited: seq<bool>, dist: seq<int>, pred: seq<int>,
                           bound: nat, c: int, i: int) {
    && Tentative(m, src, visited, dist, pred, bound) && Settled(visited, dist)
    && AllRelaxed(m, visited, dist, c) && Relaxed(m, dist, c, i)
    && visited[c] && (dist[c] < INT_MAX ==> dist[c] < bound)
    && forall v | 0 <= v < |m| && visited[v] :: dist[v] <= dist[c]
  }

  lemma SettleStart(m: Matrix, src: int, visited: seq<bool>, dist: seq<int>, pred: seq<int>, bound: nat, c: int)
    requires Square(m, |m|) && Tentative(m, src, visited, dist, pred, bound) && Settled(visited, dist)
    requires AllRelaxed(m, visited, dist, -1) && 0 <= c < |m| && !visited[c]
    requires forall v | 0 <= v < |m| && !visited[v] :: dist[c] <= dist[v]
    ensures Settling(m, src, visited[c := true], dist, pred, bound + 1, c, 0)
  {
  }

  lemma SettleSkip(m: Matrix, src: int, visited: seq<bool>, dist: seq<int>, pred: seq<int>, bound: nat, c: int, i: int)
    requires Settling(m, src, visited, dist, pred, bound, c, i) && 0 <= i < |m| && Square(m, |m|)
    requires visited[i] || m[c][i] <= 0 || dist[i] <= dist[c] + 1
    ensures Settling(m, src, visited, dist, pred, bound, c, i + 1)
  {
  }

  lemma SettleEdge(m: Matrix, src: int, visited: seq<bool>, dist: seq<int>, pred: seq<int>, bound: nat, c: int, i: int)
    requires Settling(m, src, visited, dist, pred, bound, c, i) && 0 <= i < |m| && Square(m, |m|)
    requires !visited[i] && m[c][i] > 0 && dist[i] > dist[c] + 1 && dist[c] < INT_MAX && bound < INT_MAX
    ensures m[c][i] == 1
    ensures Settling(m, src, visited, dist[i := dist[c] + 1], pred[i := c], bound, c, i + 1)
  {
    assert Edge(m, c, i) && Walk(m, src, i, dist[c] + 1);
    var dist' := dist[i := dist[c] + 1];
    assert AllRelaxed(m, visited, dist', c) by {
      forall v | 0 <= v < |m| && visited[v] && v != c ensures Relaxed(m, dist', v, |m|) {
        assert Relaxed(m, dist, v, |m|);
      }
    }
  }

  lemma SettleEnd(m: Matrix, src: int, visited: seq<bool>, dist: seq<int>, pred: seq<int>, bound: nat, c: int)
    requires Settling(m, src, visited, dist, pred, bound, c, |m|)
    ensures Tentative(m, src, visited, dist, pred, bound) && Settled(visited, dist)
    ensures AllRelaxed(m, visited, dist, -1)
  {
  }

  /** When everything is settled and nobody cut off, every router that has neighbours is reachable. */
  lemma SettledConnects(m: Matrix, src: int, visited: seq<bool>, dist: seq<int>, pred: seq<int>, bound: nat)
    requires Undirected(m) && Square(m, |m|) && Tentative(m, src, visited, dist, pred, bound) && NoneCutOff(m, visited, dist)
    requires forall v | 0 <= v < |m| :: visited[v]
    ensures Connected(m, src)
  {
    forall u, v | Edge(m, u, v) ensures Reachable(m, src, u) {
      assert Edge(m, v, u) && visited[v];
      assert Walk(m, src, u, dist[u]);
    }
  }

  /** Every reachable router but the source is entered last from a router one step nearer. */
  ghost predicate PredTree(m: Matrix, src: int, dist: seq<int>, pred: seq<int>) {
    && |dist| == |pred| == |m| && 0 <= src < |m|
    && (forall v {:trigger dist[v]} | 0 <= v < |m| && Reachable(m, src, v) :: 0 <= dist[v])
    && (forall v {:trigger pred[v]} | 0 <= v < |m| && v != src && Reachable(m, src, v) ::
          && 0 <= pred[v] < |m| && Edge(m, pred[v], v) && dist[pred[v]] + 1 == dist[v] && Reachable(m, src, pred[v]))
  }

  /** `dist` is the distance of every reachable router. */
  ghost predicate Distances(m: Matrix, src: int, dist: seq<int>) {
    && |dist| == |m| && 0 <= src < |m|
    && (forall v, n: nat | Walk(m, src, v, n) :: 0 <= v < |m| && dist[v] <= n)
    && (forall v | 0 <= v < |m| && Reachable(m, src, v) :: 0 <= dist[v] < INT_MAX && Walk(m, src, v, dist[v]))
  }

  ghost predicate ShortestTree(m: Matrix, src: int, dist: seq<int>, pred: seq<int>) {
    Distances(m, src, dist) && PredTree(m, src, dist, pred)
  }

  lemma FinalDistances(m: Matrix, src: int, visited: seq<bool>, dist: seq<int>, pred: seq<int>, bound: nat)
    requires Square(m, |m|) && Tentative(m, src, visited, dist, pred, bound) && bound < INT_MAX - 1
    requires AllRelaxed(m, visited, dist, -1)
    requires forall v | 0 <= v < |m| :: visited[v]
    ensures ShortestTree(m, src, dist, pred)
    ensures forall v | 0 <= v < |m| && !Reachable(m, src, v) :: pred[v] == -1
  {
    forall v, n: nat | Walk(m, src, v, n) ensures 0 <= v < |m| && dist[v] <= n && dist[v] < INT_MAX {
      SettledIsShortest(m, src, visited, dist, pred, bound, v, n);
    }
    forall v | 0 <= v < |m| && v != src && Reachable(m, src, v)
      ensures 0 <= pred[v] < |m| && Reachable(m, src, pred[v])
    {
      var n: nat :| Walk(m, src, v, n);
      assert dist[v] < INT_MAX;
      assert Walk(m, src, pred[v], dist[pred[v]]);
    }
  }

  lemma DistIsDistance(m: Matrix, src: int, dist: seq<int>, v: int)
    requires Distances(m, src, dist) && 0 <= v < |m| && Reachable(m, src, v)
    ensures 0 <= dist[v] && IsDist(m, src, v, dist[v])
  {
  }

  lemma PredStep(m: Matrix, src: int, dist: seq<int>, pred: seq<int>, j: int)
    requires PredTree(m, src, dist, pred) && 0 <= j < |m| && j != src && Reachable(m, src, j)
    ensures 0 <= pred[j] < |m| && Reachable(m, src, pred[j]) && Edge(m, pred[j], j)
    ensures 0 <= dist[pred[j]] == dist[j] - 1
  {
  }
}
