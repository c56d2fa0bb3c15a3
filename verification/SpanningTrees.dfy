/** The breadth-first spanning tree behind the escape tables of Router Parking. */
module SpanningTrees {
  import opened Graphs

  /** Breadth-first search in progress: visited routers, tree edges found so far, routers still
      to be expanded. */
  datatype Bfs = Bfs(visited: seq<bool>, tree: Matrix, queue: seq<int>)

  predicate Sized(adj: Matrix, s: Bfs) {
    && |s.visited| == |s.tree| == |adj|
    && (forall u | 0 <= u < |adj| :: |adj[u]| == |s.tree[u]| == |adj|)
    && (forall a | 0 <= a < |s.queue| :: 0 <= s.queue[a] < |adj|)
  }

  function Join(tree: Matrix, u: int, v: int): (t: Matrix)
    requires 0 <= u < |tree| && 0 <= v < |tree| && forall x | 0 <= x < |tree| :: |tree[x]| == |tree|
    ensures |t| == |tree| && forall x | 0 <= x < |t| :: |t[x]| == |t|
    ensures forall x, y | 0 <= x < |t| && 0 <= y < |t| ::
              t[x][y] == if (x == u && y == v) || (x == v && y == u) then 1 else tree[x][y]
  {
    var t := tree[u := tree[u][v := 1]];
    t[v := t[v][u := 1]]
  }

  function Visit(adj: Matrix, cur: int, i: int, s: Bfs): (r: Bfs)
    requires Sized(adj, s) && 0 <= cur < |adj| && 0 <= i < |adj|
    ensures Sized(adj, r)
    ensures |r.queue| - CountTrue(r.visited) == |s.queue| - CountTrue(s.visited)
  {
    if adj[cur][i] == 1 && !s.visited[i] then
      CountSet(s.visited, i);
      Bfs(s.visited[i := true], Join(s.tree, cur, i), s.queue + [i])
    else s
  }

  function Scan(adj: Matrix, cur: int, i: nat, s: Bfs): (r: Bfs)
    requires Sized(adj, s) && 0 <= cur < |adj| && i <= |adj|
    ensures Sized(adj, r)
    ensures |r.queue| - CountTrue(r.visited) == |s.queue| - CountTrue(s.visited)
    decreases |adj| - i
  {
    if i == |adj| then s else Scan(adj, cur, i + 1, Visit(adj, cur, i, s))
  }

  lemma ScanStep(adj: Matrix, cur: int, i: nat, s: Bfs) returns (r: Bfs)
    requires Sized(adj, s) && 0 <= cur < |adj| && i < |adj|
    ensures r == Visit(adj, cur, i, s) && Sized(adj, r)
    ensures Scan(adj, cur, i, s) == Scan(adj, cur, i + 1, r)
  {
    r := Visit(adj, cur, i, s);
  }

  /** The finished search. It is a function of the adjacency matrix and the root alone, so that
      every router computes the same tree. */
  function Grow(adj: Matrix, s: Bfs): (r: Bfs)
    requires Sized(adj, s)
    ensures Sized(adj, r) && r.queue == []
    decreases |adj| - CountTrue(s.visited) + |s.queue|
  {
    if s.queue == [] then s
    else Grow(adj, Scan(adj, s.queue[0], 0, s.(queue := s.queue[1..])))
  }

  function EmptyTree(n: nat): Matrix {
    seq(n, u => seq(n, v => if u == v then 0 else -1))
  }

  function Start(n: nat, root: nat): Bfs
    requires root < n
  {
    Bfs(seq(n, _ => false)[root := true], EmptyTree(n), [root])
  }

  function TreeOf(adj: Matrix, root: nat): Matrix
    requires root < |adj| && forall u | 0 <= u < |adj| :: |adj[u]| == |adj|
  {
    Grow(adj, Start(|adj|, root)).tree
  }

  // ---------- searching with edges left from before ----------

  /** The edges of both matrices; where `t` has none, the entry of `t0`. */
  function Over(t0: Matrix, t: Matrix): (r: Matrix)
    requires |t0| == |t| && forall x | 0 <= x < |t| :: |t0[x]| == |t[x]| == |t|
    ensures |r| == |t| && forall x | 0 <= x < |r| :: |r[x]| == |r|
    ensures forall x, y | 0 <= x < |r| && 0 <= y < |r| :: r[x][y] == if t[x][y] > 0 then t[x][y] else t0[x][y]
  {
    seq(|t|, x requires 0 <= x < |t| => seq(|t|, y requires 0 <= y < |t| => if t[x][y] > 0 then t[x][y] else t0[x][y]))
  }

  /** The search with `t0` underneath. */
  function Under(t0: Matrix, s: Bfs): Bfs
    requires |t0| == |s.tree| && forall x | 0 <= x < |s.tree| :: |t0[x]| == |s.tree[x]| == |s.tree|
  {
    s.(tree := Over(t0, s.tree))
  }

  ghost predicate Fits(t0: Matrix, s: Bfs) {
    |t0| == |s.tree| && forall x | 0 <= x < |s.tree| :: |t0[x]| == |s.tree[x]| == |s.tree|
  }

  lemma OverJoin(t0: Matrix, t: Matrix, u: int, v: int)
    requires |t0| == |t| && forall x | 0 <= x < |t| :: |t0[x]| == |t[x]| == |t|
    requires 0 <= u < |t| && 0 <= v < |t|
    ensures Over(t0, Join(t, u, v)) == Join(Over(t0, t), u, v)
  {
    var a, b := Over(t0, Join(t, u, v)), Join(Over(t0, t), u, v);
    forall x | 0 <= x < |t| ensures a[x] == b[x] {
      assert forall y | 0 <= y < |t| :: a[x][y] == b[x][y];
    }
  }

  lemma VisitOver(adj: Matrix, cur: int, i: int, s: Bfs, t0: Matrix)
    requires Sized(adj, s) && 0 <= cur < |adj| && 0 <= i < |adj| && Fits(t0, s)
    ensures Sized(adj, Under(t0, s)) && Fits(t0, Visit(adj, cur, i, s))
    ensures Visit(adj, cur, i, Under(t0, s)) == Under(t0, Visit(adj, cur, i, s))
  {
    OverJoin(t0, s.tree, cur, i);
  }

  lemma {:induction false} ScanOver(adj: Matrix, cur: int, i: nat, s: Bfs, t0: Matrix)
    requires Sized(adj, s) && 0 <= cur < |adj| && i <= |adj| && Fits(t0, s)
    ensures Sized(adj, Under(t0, s)) && Fits(t0, Scan(adj, cur, i, s))
    ensures Scan(adj, cur, i, Under(t0, s)) == Under(t0, Scan(adj, cur, i, s))
    decreases |adj| - i
  {
    if i < |adj| {
      VisitOver(adj, cur, i, s, t0);
      ScanOver(adj, cur, i + 1, Visit(adj, cur, i, s), t0);
    }
  }

  /** Edges left from before do not influence the search; they just stay. */
  lemma {:induction false} GrowOver(adj: Matrix, s: Bfs, t0: Matrix)
    requires Sized(adj, s) && Fits(t0, s)
    ensures Sized(adj, Under(t0, s)) && Fits(t0, Grow(adj, s))
    ensures Grow(adj, Under(t0, s)) == Under(t0, Grow(adj, s))
    decreases |adj| - CountTrue(s.visited) + |s.queue|
  {
    if s.queue != [] {
      var s0 := s.(queue := s.queue[1..]);
      ScanOver(adj, s.queue[0], 0, s0, t0);
      GrowOver(adj, Scan(adj, s.queue[0], 0, s0), t0);
    }
  }

  /** Every visited router but the root has one parent, one level above it. */
  ghost predicate Parents(adj: Matrix, root: int, visited: seq<bool>, par: seq<int>, dep: seq<int>) {
    && |visited| == |par| == |dep| == |adj|
    && 0 <= root < |adj| && visited[root] && par[root] == -1 && dep[root] == 0
    && (forall v {:trigger par[v]} | 0 <= v < |adj| && v != root && visited[v] ::
          0 <= par[v] < |adj| && visited[par[v]] && Edge(adj, par[v], v) && dep[v] == dep[par[v]] + 1)
    && (forall v | 0 <= v < |adj| && visited[v] :: dep[v] >= 0)
  }

  /** The tree edges are exactly those between child and parent. */
  ghost predicate TreeEdges(tree: Matrix, visited: seq<bool>, par: seq<int>) {
    && Square(tree, |tree|) && |visited| == |par| == |tree|
    && forall u, v {:trigger tree[u][v]} | 0 <= u < |tree| && 0 <= v < |tree| ::
         tree[u][v] > 0 <==> visited[u] && visited[v] && (par[u] == v || par[v] == u)
  }

  /** Routers that are no longer queued have all their neighbours visited, except that `cur` has
      been expanded only up to column `c`. */
  ghost predicate Expanded(adj: Matrix, visited: seq<bool>, queue: seq<int>, cur: int, c: int) {
    && |visited| == |adj|
    && (forall a | 0 <= a < |queue| :: 0 <= queue[a] < |adj| && visited[queue[a]])
    && (forall u, v {:trigger Edge(adj, u, v)} | Edge(adj, u, v) && v < |adj| && visited[u] && u !in queue && (u != cur || v < c) ::
          visited[v])
  }

  /** Routers are found level by level: the queue holds routers of level `l` and then some of the next, and
      nothing beyond has been found. */
  ghost predicate Leveled(visited: seq<bool>, queue: seq<int>, dep: seq<int>, l: int) {
    && |dep| == |visited|
    && (forall v | 0 <= v < |visited| && visited[v] :: dep[v] <= l + 1)
    && (forall a | 0 <= a < |queue| :: 0 <= queue[a] < |visited| && l <= dep[queue[a]])
    && (forall a, b | 0 <= a < b < |queue| :: dep[queue[a]] <= dep[queue[b]])
  }

  /** Neighbours of routers that are no longer queued are at most one level further. */
  ghost predicate Tight(adj: Matrix, visited: seq<bool>, dep: seq<int>, queue: seq<int>, cur: int, c: int) {
    && |visited| == |dep| == |adj|
    && (forall u, v {:trigger Edge(adj, u, v)} | Edge(adj, u, v) && v < |adj| && visited[u] && u !in queue && (u != cur || v < c) && visited[v] ::
          dep[v] <= dep[u] + 1)
  }

  ghost predicate Rooted(adj: Matrix, root: int, s: Bfs, par: seq<int>, dep: seq<int>, cur: int, c: int, l: int) {
    && Sized(adj, s)
    && Parents(adj, root, s.visited, par, dep)
    && TreeEdges(s.tree, s.visited, par)
    && Expanded(adj, s.visited, s.queue, cur, c)
    && Leveled(s.visited, s.queue, dep, l)
    && Tight(adj, s.visited, dep, s.queue, cur, c)
  }

  lemma TreeEdgeAdded(tree: Matrix, visited: seq<bool>, par: seq<int>, cur: int, i: int)
    requires TreeEdges(tree, visited, par)
    requires 0 <= cur < |tree| && 0 <= i < |tree| && visited[cur] && !visited[i]
    requires forall x | 0 <= x < |tree| && visited[x] :: par[x] != i
    ensures TreeEdges(Join(tree, cur, i), visited[i := true], par[i := cur])
  {
    var t, visited', par' := Join(tree, cur, i), visited[i := true], par[i := cur];
    forall u, v {:trigger t[u][v]} | 0 <= u < |t| && 0 <= v < |t|
      ensures t[u][v] > 0 <==> visited'[u] && visited'[v] && (par'[u] == v || par'[v] == u)
    {
      TreeEdgeAt(tree, visited, par, cur, i, u, v);
    }
    JoinSquare(tree, cur, i);
  }

  lemma JoinSquare(tree: Matrix, u: int, v: int)
    requires Square(tree, |tree|) && 0 <= u < |tree| && 0 <= v < |tree|
    ensures Square(Join(tree, u, v), |tree|)
  {
    var t := Join(tree, u, v);
    forall x | 0 <= x < |t| ensures |t[x]| == |t| && forall y | 0 <= y < |t| :: -1 <= t[x][y] <= 1 {
      assert forall y | 0 <= y < |t| :: t[x][y] == 1 || t[x][y] == tree[x][y];
    }
  }

  lemma TreeEdgeAt(tree: Matrix, visited: seq<bool>, par: seq<int>, cur: int, i: int, u: int, v: int)
    requires TreeEdges(tree, visited, par)
    requires 0 <= cur < |tree| && 0 <= i < |tree| && visited[cur] && !visited[i]
    requires 0 <= u < |tree| && 0 <= v < |tree|
    requires (visited[u] ==> par[u] != i) && (visited[v] ==> par[v] != i)
    ensures
      var visited', par' := visited[i := true], par[i := cur];
      Join(tree, cur, i)[u][v] > 0 <==> visited'[u] && visited'[v] && (par'[u] == v || par'[v] == u)
  {
    assert tree[u][v] > 0 <==> visited[u] && visited[v] && (par[u] == v || par[v] == u);
  }

  lemma VisitRooted(adj: Matrix, root: int, s: Bfs, par: seq<int>, dep: seq<int>, cur: int, i: int, l: int)
    returns (par': seq<int>, dep': seq<int>)
    requires Square(adj, |adj|) && Rooted(adj, root, s, par, dep, cur, i, l)
    requires 0 <= cur < |adj| && s.visited[cur] && 0 <= i < |adj| && dep[cur] == l
    ensures Rooted(adj, root, Visit(adj, cur, i, s), par', dep', cur, i + 1, l) && Visit(adj, cur, i, s).visited[cur] && dep'[cur] == l
  {
    par', dep' := par, dep;
    if adj[cur][i] == 1 && !s.visited[i] {
      par', dep' := par[i := cur], dep[i := dep[cur] + 1];
      assert Edge(adj, cur, i);
      ChildAdded(adj, root, s.visited, par, dep, cur, i);
      TreeEdgeAdded(s.tree, s.visited, par, cur, i);
      QueueExtended(adj, s.visited, s.queue, cur, i);
      LevelExtended(s.visited, s.queue, dep, i, l);
      TightExtended(adj, s.visited, dep, s.queue, cur, i, l);
    } else {
      ColumnPassed(adj, s.visited, s.queue, cur, i);
      TightPassed(adj, s.visited, dep, s.queue, cur, i, l);
    }
  }

  lemma LevelExtended(visited: seq<bool>, queue: seq<int>, dep: seq<int>, i: int, l: int)
    requires Leveled(visited, queue, dep, l) && 0 <= i < |visited| && !visited[i]
    requires forall a | 0 <= a < |queue| :: visited[queue[a]]
    ensures Leveled(visited[i := true], queue + [i], dep[i := l + 1], l)
  {
  }

  lemma TightExtended(adj: Matrix, visited: seq<bool>, dep: seq<int>, queue: seq<int>, cur: int, i: int, l: int)
    requires Tight(adj, visited, dep, queue, cur, i) && Expanded(adj, visited, queue, cur, i)
    requires 0 <= i < |adj| && 0 <= cur < |adj| && !visited[i] && visited[cur] && dep[cur] == l
    ensures Tight(adj, visited[i := true], dep[i := l + 1], queue + [i], cur, i + 1)
  {
    var queue' := queue + [i];
    assert queue'[|queue|] == i;
    assert forall u :: u !in queue' ==> u !in queue && u != i;
  }

  lemma TightPassed(adj: Matrix, visited: seq<bool>, dep: seq<int>, queue: seq<int>, cur: int, i: int, l: int)
    requires Tight(adj, visited, dep, queue, cur, i) && Leveled(visited, queue, dep, l)
    requires 0 <= i < |adj| && 0 <= cur < |adj| && dep[cur] == l
    ensures Tight(adj, visited, dep, queue, cur, i + 1)
  {
  }

  lemma ChildAdded(adj: Matrix, root: int, visited: seq<bool>, par: seq<int>, dep: seq<int>, cur: int, i: int)
    requires Parents(adj, root, visited, par, dep)
    requires 0 <= cur < |adj| && 0 <= i < |adj| && visited[cur] && !visited[i] && Edge(adj, cur, i)
    ensures Parents(adj, root, visited[i := true], par[i := cur], dep[i := dep[cur] + 1])
    ensures forall x | 0 <= x < |adj| && visited[x] :: par[x] != i
  {
    assert forall x | 0 <= x < |adj| && visited[x] :: par[x] != i;
  }

  lemma QueueExtended(adj: Matrix, visited: seq<bool>, queue: seq<int>, cur: int, i: int)
    requires Expanded(adj, visited, queue, cur, i) && 0 <= i < |adj|
    ensures Expanded(adj, visited[i := true], queue + [i], cur, i + 1)
  {
    var queue' := queue + [i];
    assert queue'[|queue|] == i;
    assert forall u :: u !in queue' ==> u !in queue && u != i;
  }

  lemma ColumnPassed(adj: Matrix, visited: seq<bool>, queue: seq<int>, cur: int, i: int)
    requires Expanded(adj, visited, queue, cur, i) && 0 <= i < |adj| && 0 <= cur < |adj|
    requires Edge(adj, cur, i) ==> visited[i]
    ensures Expanded(adj, visited, queue, cur, i + 1)
  {
  }

  lemma {:induction false} ScanRooted(adj: Matrix, root: int, s: Bfs, par: seq<int>, dep: seq<int>, cur: int, i: nat, l: int)
    returns (par': seq<int>, dep': seq<int>)
    requires Square(adj, |adj|) && Rooted(adj, root, s, par, dep, cur, i, l)
    requires 0 <= cur < |adj| && s.visited[cur] && i <= |adj| && dep[cur] == l
    ensures Rooted(adj, root, Scan(adj, cur, i, s), par', dep', cur, |adj|, l)
    decreases |adj| - i
  {
    if i == |adj| {
      par', dep' := par, dep;
    } else {
      par', dep' := VisitRooted(adj, root, s, par, dep, cur, i, l);
      par', dep' := ScanRooted(adj, root, Visit(adj, cur, i, s), par', dep', cur, i + 1, l);
    }
  }

  /** Taking the first router off the queue begins its level. */
  lemma NextLevel(adj: Matrix, root: int, s: Bfs, par: seq<int>, dep: seq<int>, l: int)
    requires Rooted(adj, root, s, par, dep, -1, 0, l) && s.queue != []
    ensures Rooted(adj, root, s.(queue := s.queue[1..]), par, dep, s.queue[0], 0, dep[s.queue[0]])
  {
    var queue := s.queue[1..];
    assert forall u :: u in s.queue <==> u == s.queue[0] || u in queue;
    assert forall a | 0 <= a < |queue| :: queue[a] == s.queue[a + 1];
  }

  /** A router that is expanded up to the last column is expanded. */
  lemma RowPassed(adj: Matrix, root: int, s: Bfs, par: seq<int>, dep: seq<int>, cur: int, l: int)
    requires Square(adj, |adj|) && Rooted(adj, root, s, par, dep, cur, |adj|, l)
    ensures Rooted(adj, root, s, par, dep, -1, 0, l)
  {
    assert Expanded(adj, s.visited, s.queue, -1, 0);
  }

  lemma {:induction false} GrowRooted(adj: Matrix, root: int, s: Bfs, par: seq<int>, dep: seq<int>, l: int)
    returns (par': seq<int>, dep': seq<int>, l': int)
    requires Square(adj, |adj|) && Rooted(adj, root, s, par, dep, -1, 0, l)
    ensures Rooted(adj, root, Grow(adj, s), par', dep', -1, 0, l')
    decreases |adj| - CountTrue(s.visited) + |s.queue|
  {
    if s.queue == [] {
      par', dep', l' := par, dep, l;
    } else {
      var cur := s.queue[0];
      var s0 := s.(queue := s.queue[1..]);
      NextLevel(adj, root, s, par, dep, l);
      par', dep' := ScanRooted(adj, root, s0, par, dep, cur, 0, dep[cur]);
      var s1 := Scan(adj, cur, 0, s0);
      RowPassed(adj, root, s1, par', dep', cur, dep[cur]);
      par', dep', l' := GrowRooted(adj, root, s1, par', dep', dep[cur]);
    }
  }

  /** A spanning tree of the routers that `root` can reach, in which each router is as near to the root as it
      can be. */
  ghost predicate SpanningTree(adj: Matrix, root: int, tree: Matrix, visited: seq<bool>, par: seq<int>, dep: seq<int>) {
    && |adj| == |tree|
    && Parents(adj, root, visited, par, dep)
    && TreeEdges(tree, visited, par)
    && (forall v | 0 <= v < |adj| && Reachable(adj, root, v) :: visited[v])
    && forall v | 0 <= v < |adj| && visited[v] :: IsDist(adj, root, v, dep[v])
  }

  lemma {:induction false} ClosedReaches(adj: Matrix, root: int, visited: seq<bool>, v: int, n: nat)
    requires Square(adj, |adj|) && Expanded(adj, visited, [], -1, 0) && 0 <= root < |adj| && visited[root]
    requires Walk(adj, root, v, n)
    ensures 0 <= v < |adj| && visited[v]
    decreases n
  {
    if n > 0 {
      var x :| Walk(adj, root, x, n - 1) && Edge(adj, x, v);
      ClosedReaches(adj, root, visited, x, n - 1);
    }
  }

  /** No walk from the root is shorter than the level of its end. */
  lemma {:induction false} LevelsBound(adj: Matrix, root: int, visited: seq<bool>, dep: seq<int>, v: int, n: nat)
    requires Square(adj, |adj|) && Expanded(adj, visited, [], -1, 0) && Tight(adj, visited, dep, [], -1, 0)
    requires 0 <= root < |adj| && visited[root] && dep[root] == 0 && Walk(adj, root, v, n)
    ensures 0 <= v < |adj| && visited[v] && dep[v] <= n
    decreases n
  {
    if n > 0 {
      var x :| Walk(adj, root, x, n - 1) && Edge(adj, x, v);
      LevelsBound(adj, root, visited, dep, x, n - 1);
    }
  }

  lemma {:induction false} LevelsReached(adj: Matrix, root: int, visited: seq<bool>, par: seq<int>, dep: seq<int>, v: int)
    requires Parents(adj, root, visited, par, dep) && 0 <= v < |adj| && visited[v]
    ensures dep[v] >= 0 && Walk(adj, root, v, dep[v])
    decreases dep[v]
  {
    if v != root { LevelsReached(adj, root, visited, par, dep, par[v]); }
  }

  /** The search ends with a spanning tree of shortest walks from the root. */
  lemma TreeSpans(adj: Matrix, root: nat) returns (visited: seq<bool>, par: seq<int>, dep: seq<int>)
    requires Square(adj, |adj|) && root < |adj|
    ensures SpanningTree(adj, root, TreeOf(adj, root), visited, par, dep)
  {
    var s := Start(|adj|, root);
    var l;
    par, dep, l := GrowRooted(adj, root, s, seq(|adj|, _ => -1), seq(|adj|, _ => 0), 0);
    visited := Grow(adj, s).visited;
    forall v | 0 <= v < |adj| && Reachable(adj, root, v) ensures visited[v] {
      var n: nat :| Walk(adj, root, v, n);
      ClosedReaches(adj, root, visited, v, n);
    }
    forall v | 0 <= v < |adj| && visited[v] ensures IsDist(adj, root, v, dep[v]) {
      LevelsReached(adj, root, visited, par, dep, v);
      forall e: nat | e < dep[v] ensures !Walk(adj, root, v, e) {
        if Walk(adj, root, v, e) { LevelsBound(adj, root, visited, dep, v, e); }
      }
    }
  }

  /** In the tree, the root reaches every visited router, and every visited router the root. */
  lemma {:induction false} ThroughRoot(adj: Matrix, root: int, tree: Matrix, visited: seq<bool>, par: seq<int>, dep: seq<int>, v: int)
    requires SpanningTree(adj, root, tree, visited, par, dep)
    requires 0 <= v < |adj| && visited[v]
    ensures 0 <= dep[v] && Walk(tree, root, v, dep[v]) && Walk(tree, v, root, dep[v])
    decreases dep[v]
  {
    if v != root {
      ThroughRoot(adj, root, tree, visited, par, dep, par[v]);
      assert Edge(tree, par[v], v) && Edge(tree, v, par[v]);
      ExtendFront(tree, v, par[v], root, dep[par[v]]);
    } else {
      assert dep[root] == 0;
    }
  }

  lemma TreeReachable(adj: Matrix, root: int, tree: Matrix, visited: seq<bool>, par: seq<int>, dep: seq<int>, u: int, v: int)
    requires SpanningTree(adj, root, tree, visited, par, dep)
    requires 0 <= u < |adj| && 0 <= v < |adj| && visited[u] && visited[v]
    ensures Reachable(tree, u, v)
  {
    ThroughRoot(adj, root, tree, visited, par, dep, u);
    ThroughRoot(adj, root, tree, visited, par, dep, v);
    WalkJoin(tree, u, root, v, dep[u], dep[v]);
  }

  // ---------- up*/down* order ----------

  /** Rank of the channel from `u` to `v`: up moves by falling depth, then down moves by rising depth. */
  function ChannelRank(par: seq<int>, dep: seq<int>, u: int, v: int): int
    requires 0 <= u < |par| == |dep| && 0 <= v < |par|
  {
    if par[u] == v then -dep[u] else dep[v]
  }

  /** On a shortest walk in the tree no up move follows a down move. */
  lemma UpThenDown(adj: Matrix, root: int, tree: Matrix, visited: seq<bool>, par: seq<int>, dep: seq<int>, u: int, v: int, w: int)
    requires SpanningTree(adj, root, tree, visited, par, dep)
    requires Edge(tree, u, v) && Edge(tree, v, w) && u != w
    ensures 0 <= u < |par| == |dep| && 0 <= v < |par| && 0 <= w < |par|
    ensures ChannelRank(par, dep, u, v) < ChannelRank(par, dep, v, w)
    ensures par[u] != v ==> par[v] != w
  {
    assert tree[u][v] > 0 && tree[v][w] > 0;
    assert visited[u] && visited[v] && visited[w];
  }

  /** Walks in the tree are walks of the mesh. */
  lemma TreeWalk(adj: Matrix, root: int, tree: Matrix, visited: seq<bool>, par: seq<int>, dep: seq<int>, u: int, v: int, n: nat)
    requires SpanningTree(adj, root, tree, visited, par, dep) && Undirected(adj) && Walk(tree, u, v, n)
    ensures Walk(adj, u, v, n)
  {
    forall x, y | Edge(tree, x, y) ensures Edge(adj, x, y) {
      assert tree[x][y] > 0;
      assert par[x] == y || par[y] == x;
    }
    WalkIn(tree, adj, u, v, n);
  }

  /** A shortest walk in the tree leads from the root, and to it, as fast as the mesh allows; between any two
      routers it is at most as long as both their distances to the root together. */
  lemma TreeDistances(adj: Matrix, root: nat, u: int, v: int, d: nat, du: nat, dv: nat)
    requires Square(adj, |adj|) && root < |adj| && Undirected(adj) && 0 <= u < |adj| && 0 <= v < |adj|
    requires IsDist(TreeOf(adj, root), u, v, d) && IsDist(adj, root, u, du) && IsDist(adj, root, v, dv)
    ensures d <= du + dv && (u == root ==> d == dv) && (v == root ==> d == du)
  {
    var tree := TreeOf(adj, root);
    var visited, par, dep := TreeSpans(adj, root);
    assert Reachable(adj, root, u) && Reachable(adj, root, v);
    DistUnique(adj, root, u, du, dep[u]);
    DistUnique(adj, root, v, dv, dep[v]);
    ThroughRoot(adj, root, tree, visited, par, dep, u);
    ThroughRoot(adj, root, tree, visited, par, dep, v);
    WalkJoin(tree, u, root, v, du, dv);
    TreeWalk(adj, root, tree, visited, par, dep, u, v, d);
    ZeroDist(adj, root, u, du);
    ZeroDist(adj, root, v, dv);
    if v == root { WalkBack(adj, u, root, d); }
  }
}
