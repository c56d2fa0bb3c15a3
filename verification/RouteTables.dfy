/** Routing tables of Router Parking. */
module RouteTables {
  import opened Ports
  import opened Graphs
  import opened ShortestPaths
  import opened SpanningTrees

  const INVALID := -1
  const ARRIVED := 4

  /** Two routers of the k x k mesh are neighbours. */
  predicate GridNeighbors(k: nat, u: int, v: int)
    requires k > 0
  {
    var dx, dy := u % k - v % k, u / k - v / k;
    (dy == 0 && (dx == 1 || dx == -1)) || (dx == 0 && (dy == 1 || dy == -1))
  }

  /** The adjacency matrix of the powered-on routers. */
  ghost predicate GridMatrix(k: nat, states: seq<bool>, m: Matrix) {
    && k > 0 && |states| == k * k && Square(m, k * k)
    && forall u, v :: Edge(m, u, v) <==>
         0 <= u < k * k && 0 <= v < k * k && states[u] && states[v] && GridNeighbors(k, u, v)
  }

  /** All edges join neighbours of the mesh. */
  ghost predicate OnGrid(k: nat, m: Matrix) {
    k > 0 && forall u, v | Edge(m, u, v) :: 0 <= u < k * k && 0 <= v < k * k && GridNeighbors(k, u, v)
  }

  /** The powered-on routers are connected. */
  ghost predicate AllReachable(states: seq<bool>, m: Matrix, s: int) {
    forall i | 0 <= i < |states| && states[i] :: Reachable(m, s, i)
  }

  /** The router one link away in a direction. */
  function Step(k: nat, u: int, dir: int): int {
    if dir == EAST then u + 1 else if dir == WEST then u - 1
    else if dir == SOUTH then u + k else u - k
  }

  /** Entry `dir` of the table of `u` for `t` leads over an edge to a router one step nearer. */
  ghost predicate GoodEntry(m: Matrix, k: nat, u: int, t: int, dir: int) {
    && EAST <= dir <= NORTH && Edge(m, u, Step(k, u, dir))
    && exists d: nat :: IsDist(m, u, t, d + 1) && IsDist(m, Step(k, u, dir), t, d)
  }

  ghost predicate GoodTable(m: Matrix, k: nat, states: seq<bool>, u: int, table: seq<int>) {
    && |table| == |states|
    && forall t | 0 <= t < |table| ::
         if !states[t] then table[t] == INVALID
         else if t == u then table[t] == ARRIVED
         else GoodEntry(m, k, u, t, table[t])
  }

  lemma RowAndColumn(k: nat, r: int, c: int, r': int, c': int, u: int, v: int)
    requires u == k * r + c && v == k * r' + c' && 0 <= c < k && 0 <= c' < k && 0 <= r && 0 <= r'
    requires (r == r' && (c == c' + 1 || c' == c + 1)) || (c == c' && (r == r' + 1 || r' == r + 1))
    requires v < k * k && u < k * k
    ensures k > 1 && (v == u + 1 || v == u - 1 || v == u + k || v == u - k)
  {
    assert k * (r + 1) == k * r + k && k * (r - 1) == k * r - k;
  }

  lemma NeighborNumbers(k: nat, u: nat, v: nat)
    requires k > 0 && u < k * k && v < k * k && GridNeighbors(k, u, v)
    ensures k > 1 && (v == u + 1 || v == u - 1 || v == u + k || v == u - k)
  {
    RowAndColumn(k, u / k, u % k, v / k, v % k, u, v);
  }

  /** A graph of links between powered-on mesh neighbours that can be used for tables. */
  ghost predicate LinkGraph(k: nat, states: seq<bool>, m: Matrix) {
    && k > 0 && |states| == k * k && Square(m, k * k) && Undirected(m)
    && forall u, v | Edge(m, u, v) :: states[u] && states[v] && GridNeighbors(k, u, v)
  }

  lemma GridIsLinkGraph(k: nat, states: seq<bool>, adj: Matrix)
    requires GridMatrix(k, states, adj)
    ensures LinkGraph(k, states, adj)
  {
    forall u, v | Edge(adj, u, v) ensures u != v && Edge(adj, v, u) { NeighborsSymmetric(k, u, v); }
  }

  /** If all powered-on routers are reachable, every router that has neighbours is. */
  lemma PoweredConnected(k: nat, states: seq<bool>, m: Matrix, src: int)
    requires k > 0 && |states| == k * k && Square(m, k * k) && AllReachable(states, m, src)
    requires forall u, v | Edge(m, u, v) :: u < |states| && states[u]
    ensures Connected(m, src)
  {
  }

  /** The spanning tree is such a graph, and reaches what the root reaches. */
  lemma TreeIsLinkGraph(k: nat, states: seq<bool>, adj: Matrix, root: nat)
    requires GridMatrix(k, states, adj) && root < k * k
    ensures LinkGraph(k, states, TreeOf(adj, root))
    ensures forall u, v | Edge(TreeOf(adj, root), u, v) :: Edge(adj, u, v)
  {
    var tree := TreeOf(adj, root);
    var visited, par, dep := TreeSpans(adj, root);
    forall u, v | Edge(tree, u, v) ensures u != v && Edge(tree, v, u) && Edge(adj, u, v) {
      assert tree[u][v] > 0;
      assert par[u] == v || par[v] == u;
      assert Edge(adj, par[u], u) || Edge(adj, par[v], v);
      NeighborsSymmetric(k, u, v);
      assert tree[v][u] > 0;
    }
  }

  /** From a powered-on router all are reached in the tree exactly if the root reaches them in the mesh. */
  lemma TreeReachesIff(k: nat, states: seq<bool>, adj: Matrix, root: nat, src: nat)
    requires GridMatrix(k, states, adj) && root < k * k && states[root] && src < k * k && states[src]
    ensures AllReachable(states, TreeOf(adj, root), src) <==> AllReachable(states, adj, root)
  {
    var tree := TreeOf(adj, root);
    var visited, par, dep := TreeSpans(adj, root);
    if AllReachable(states, adj, root) {
      forall i | 0 <= i < k * k && states[i] ensures Reachable(tree, src, i) {
        TreeReachable(adj, root, tree, visited, par, dep, src, i);
      }
    }
    if AllReachable(states, tree, src) {
      TreeIsLinkGraph(k, states, adj, root);
      SourceVisited(adj, root, tree, visited, par, dep, src);
      forall i | 0 <= i < k * k && states[i] ensures Reachable(adj, root, i) {
        VisitedReached(adj, root, tree, visited, par, dep, src, i);
      }
    }
  }

  lemma SourceVisited(adj: Matrix, root: int, tree: Matrix, visited: seq<bool>, par: seq<int>, dep: seq<int>, src: int)
    requires SpanningTree(adj, root, tree, visited, par, dep) && Undirected(tree) && Reachable(tree, src, root)
    requires 0 <= src < |adj|
    ensures visited[src]
  {
    var n: nat :| Walk(tree, src, root, n);
    WalkBack(tree, src, root, n);
    if n > 0 {
      var x :| Walk(tree, root, x, n - 1) && Edge(tree, x, src);
      assert tree[x][src] > 0;
    }
  }

  lemma VisitedReached(adj: Matrix, root: int, tree: Matrix, visited: seq<bool>, par: seq<int>, dep: seq<int>, src: int, i: int)
    requires SpanningTree(adj, root, tree, visited, par, dep) && Reachable(tree, src, i)
    requires 0 <= src < |adj| && visited[src] && 0 <= i < |adj|
    requires forall u, v | Edge(tree, u, v) :: Edge(adj, u, v)
    ensures Reachable(adj, root, i)
  {
    var n: nat :| Walk(tree, src, i, n);
    if n > 0 {
      var x :| Walk(tree, src, x, n - 1) && Edge(tree, x, i);
      assert tree[x][i] > 0;
    }
    ThroughRoot(adj, root, tree, visited, par, dep, i);
    WalkIn(tree, adj, root, i, dep[i]);
  }

  lemma NeighborsSymmetric(k: nat, u: int, v: int)
    requires k > 0
    ensures GridNeighbors(k, u, v) == GridNeighbors(k, v, u)
  {
  }

  class RouteTbl {
    const k: nat
    const src: nat
    const n: nat
    const states: seq<bool>
    var visited: seq<bool>
    var pred: seq<int>
    var dist: seq<int>
    var adj: Matrix
    var table: seq<int>
    var escTable: seq<int>
    var updown: Matrix

    constructor (k: nat, src: nat, states: seq<bool>)
      requires k > 0 && |states| == k * k && src < k * k
      ensures this.k == k && this.src == src && this.n == k * k && this.states == states
      ensures GridMatrix(k, states, adj) && updown == [] && |table| == |escTable| == n
      ensures forall t | 0 <= t < n :: table[t] == escTable[t] == INVALID
    {
      this.k, this.src, this.n, this.states := k, src, k * k, states;
      visited := seq(k * k, _ => false);
      pred := seq(k * k, _ => -1);
      dist := seq(k * k, _ => INT_MAX)[src := 0];
      table := seq(k * k, _ => INVALID);
      escTable := seq(k * k, _ => INVALID);
      updown := [];
      adj := seq(k * k, _ => seq(k * k, _ => -1));
      new;
      BuildAdjacency();
    }

    method BuildAdjacency()
      requires n == k * k && k > 0 && |states| == n && adj == seq(n, _ => seq(n, _ => -1))
      modifies this`adj
      ensures GridMatrix(k, states, adj)
    {
      for i := 0 to n
        invariant Square(adj, n) && forall u, v | i <= u < n && 0 <= v < n :: adj[u][v] == -1
        invariant forall u, v | 0 <= u < n && 0 <= v < n :: adj[u][v] > 0 <==> u < i && Linked(u, v)
      {
        var row := AdjacencyRow(i, adj[i]);
        adj := adj[i := row];
      }
    }

    ghost predicate Linked(u: nat, v: nat)
    {
      k > 0 && u < |states| && v < |states| && states[u] && states[v] && GridNeighbors(k, u, v)
    }

    method AdjacencyRow(i: nat, row0: seq<int>) returns (row: seq<int>)
      requires k > 0 && i < n && |states| == n && |row0| == n && forall v | 0 <= v < n :: row0[v] == -1
      ensures |row| == n && forall v | 0 <= v < n :: -1 <= row[v] <= 1 && (row[v] > 0 <==> Linked(i, v))
    {
      row := row0;
      for j := 0 to n
        invariant |row| == n && forall v | j <= v < n :: row[v] == -1
        invariant forall v | 0 <= v < j :: -1 <= row[v] <= 1 && (row[v] > 0 <==> Linked(i, v))
      {
        if states[i] && states[j] {
          if i == j {
            row := row[j := 0];
          } else if GridNeighbors(k, i, j) {
            row := row[j := 1];
          }
        }
      }
    }

    ghost predicate Shaped()
      reads this
    {
      |visited| == |pred| == |dist| == n && src < n
    }

    /** What the computation of distances over `m` needs of its shape. */
    ghost predicate Ready(m: Matrix) {
      Square(m, n) && src < n < INT_MAX - 2
    }

    method Init()
      requires src < n
      modifies this`visited, this`pred, this`dist
      ensures Shaped()
      ensures visited == seq(n, _ => false) && pred == seq(n, _ => -1) && dist == seq(n, _ => INT_MAX)[src := 0]
    {
      visited := seq(n, _ => false);
      pred := seq(n, _ => -1);
      dist := seq(n, _ => INT_MAX)[src := 0];
    }

    /** The last of the unvisited routers at minimal tentative distance. */
    method ClosestUnvisited() returns (closest: int)
      requires |visited| == |dist| == n
      requires forall v | 0 <= v < n :: dist[v] <= INT_MAX
      ensures closest == -1 <==> forall v | 0 <= v < n :: visited[v]
      ensures closest != -1 ==> 0 <= closest < n && !visited[closest]
      ensures closest != -1 ==> forall v | 0 <= v < n && !visited[v] ::
                dist[closest] <= dist[v] && (dist[closest] == dist[v] ==> v <= closest)
    {
      var minDist := INT_MAX;
      closest := -1;
      for i := 0 to n
        invariant closest == -1 ==> minDist == INT_MAX && forall v | 0 <= v < i :: visited[v]
        invariant closest != -1 ==> 0 <= closest < i && !visited[closest] && minDist == dist[closest]
        invariant closest != -1 ==> forall v | 0 <= v < i && !visited[v] ::
                    minDist <= dist[v] && (minDist == dist[v] ==> v <= closest)
      {
        if !visited[i] && minDist >= dist[i] {
          minDist := dist[i];
          closest := i;
        }
      }
    }

    /** Relaxes one edge, unless this increments a distance of INT_MAX. */
    method Relax(m: Matrix, closest: nat, i: nat, ghost bound: nat) returns (ok: bool)
      requires Shaped() && Square(m, n) && closest < n && i < n && bound < INT_MAX
      requires Settling(m, src, visited, dist, pred, bound, closest, i)
      modifies this`pred, this`dist
      ensures Shaped() && dist[closest] == old(dist)[closest] && forall v | 0 <= v < n :: dist[v] <= old(dist)[v]
      ensures ok <==> !(dist[closest] == INT_MAX && Edge(m, closest, i) && !visited[i])
      ensures ok ==> Settling(m, src, visited, dist, pred, bound, closest, i + 1)
    {
      ok := true;
      ghost var dist0 := dist;
      if !visited[i] && m[closest][i] > 0 {
        if dist[closest] == INT_MAX { return false; }
        if dist[i] > dist[closest] + m[closest][i] {
          SettleEdge(m, src, visited, dist, pred, bound, closest, i);
          assert closest != i;
          dist := dist[i := dist[closest] + m[closest][i]];
          pred := pred[i := closest];
          assert forall v | 0 <= v < n :: dist[v] <= dist0[v];
          return;
        }
      }
      SettleSkip(m, src, visited, dist, pred, bound, closest, i);
    }

    /** Settles `closest` and relaxes its edges. A distance of INT_MAX is incremented only if some
        router with neighbours cannot be reached, and then nobody else is cut off unnoticed. */
    method Settle(m: Matrix, closest: nat, ghost count: nat) returns (ok: bool)
      requires Shaped() && Ready(m) && closest < n && !visited[closest] && count < n
      requires Tentative(m, src, visited, dist, pred, count) && Settled(visited, dist)
      requires AllRelaxed(m, visited, dist, -1)
      requires forall v | 0 <= v < n && !visited[v] :: dist[closest] <= dist[v]
      modifies this`visited, this`pred, this`dist
      ensures Shaped()
      ensures !ok ==> !Connected(m, src)
      ensures ok ==> visited == old(visited)[closest := true]
      ensures ok ==> Tentative(m, src, visited, dist, pred, count + 1) && Settled(visited, dist) && AllRelaxed(m, visited, dist, -1)
      ensures ok && Undirected(m) && NoneCutOff(m, old(visited), old(dist)) ==> NoneCutOff(m, visited, dist)
    {
      ghost var visited0, dist0, pred0 := visited, dist, pred;
      SettleStart(m, src, visited, dist, pred, count, closest);
      visited := visited[closest := true];
      ok := RelaxAll(m, closest, count + 1);
      if ok {
        SettlingCutsNone(m, src, visited0, dist0, dist, pred, count + 1, closest);
        SettleEnd(m, src, visited, dist, pred, count + 1, closest);
      } else {
        InfiniteSource(m, src, visited0, dist0, pred0, count, closest);
      }
    }

    method RelaxAll(m: Matrix, closest: nat, ghost bound: nat) returns (ok: bool)
      requires Shaped() && Square(m, n) && closest < n && bound < INT_MAX
      requires Settling(m, src, visited, dist, pred, bound, closest, 0)
      modifies this`pred, this`dist
      ensures Shaped() && dist[closest] == old(dist)[closest] && forall v | 0 <= v < n :: dist[v] <= old(dist)[v]
      ensures ok <==> !(dist[closest] == INT_MAX && exists v :: Edge(m, closest, v) && v < n && !visited[v])
      ensures ok ==> Settling(m, src, visited, dist, pred, bound, closest, n)
    {
      ghost var dist0 := dist;
      for i := 0 to n
        invariant Shaped() && dist[closest] == dist0[closest] && forall v | 0 <= v < n :: dist[v] <= dist0[v]
        invariant dist[closest] == INT_MAX ==> forall v | 0 <= v < i && Edge(m, closest, v) :: visited[v]
        invariant Settling(m, src, visited, dist, pred, bound, closest, i)
      {
        ok := Relax(m, closest, i, bound);
        if !ok { return; }
      }
      ok := true;
    }

    /** Distances from the source over `m`: the final `dist` is the graph distance of every
        reachable router, and `pred` the router before it on a shortest walk. The addition
        overflows, and `ok` is false, exactly if some router that has neighbours is out of reach. */
    method CalDist(m: Matrix) returns (ok: bool)
      requires Ready(m)
      modifies this`visited, this`pred, this`dist
      ensures Shaped()
      ensures ok ==> ShortestTree(m, src, dist, pred) && forall v | 0 <= v < n && !Reachable(m, src, v) :: pred[v] == -1
      ensures Connected(m, src) ==> ok
      ensures Undirected(m) && ok ==> Connected(m, src)
    {
      Init();
      CountNone(visited);
      var count := 0;
      assert Walk(m, src, src, 0);
      while count < n
        invariant Shaped() && count <= n && CountTrue(visited) == count
        invariant Tentative(m, src, visited, dist, pred, count) && Settled(visited, dist)
        invariant AllRelaxed(m, visited, dist, -1)
        invariant Undirected(m) ==> NoneCutOff(m, visited, dist)
      {
        var closest := ClosestUnvisited();
        CountSet(visited, closest);
        ok := Settle(m, closest, count);
        if !ok { return; }
        count := count + 1;
      }
      FinalDistances(m, src, visited, dist, pred, n);
      if Undirected(m) { SettledConnects(m, src, visited, dist, pred, n); }
      ok := true;
    }

    /** The finished distances and predecessors. */
    ghost predicate Computed(m: Matrix)
      reads this
    {
      && Shaped() && |m| == n && ShortestTree(m, src, dist, pred)
      && forall v | 0 <= v < n && !Reachable(m, src, v) :: pred[v] == -1
    }

    /** The direction of the first hop of a shortest walk to `i`: follow the predecessors back
        until the source comes next. For a router out of reach the walk back leaves `pred`. */
    method FirstHop(m: Matrix, i: nat) returns (ok: bool, dir: int)
      requires Computed(m) && n == k * k && k > 0 && i < n && i != src && OnGrid(k, m)
      ensures ok <==> Reachable(m, src, i)
      ensures ok ==> GoodEntry(m, k, src, i, dir)
    {
      dir := INVALID;
      var j;
      ok, j := ChainBack(m, i);
      if ok {
        dir := Direction(m, j);
        DistIsDistance(m, src, dist, i);
        NextOnShortest(m, src, j, i, dist[i] - 1);
      }
    }

    method ChainBack(m: Matrix, i: nat) returns (ok: bool, j: int)
      requires Computed(m) && i < n && i != src
      ensures ok <==> Reachable(m, src, i)
      ensures ok ==> 0 <= j < n && Edge(m, src, j) && dist[i] > 0 && Walk(m, j, i, dist[i] - 1)
    {
      j := i;
      if Reachable(m, src, i) { PredStep(m, src, dist, pred, j); }
      ghost var e: nat := 0;   // length of the walk from `j` to `i`
      assert Walk(m, src, src, 0);
      while pred[j] != src
        invariant 0 <= j < n && j != src && (Reachable(m, src, j) <==> Reachable(m, src, i))
        invariant Reachable(m, src, i) ==> 0 <= pred[j] < n && Walk(m, j, i, e) && dist[j] == dist[i] - e && dist[j] >= 0
        invariant !Reachable(m, src, i) ==> j == i
        decreases if Reachable(m, src, i) then dist[j] else 0
      {
        if Reachable(m, src, j) {
          PredStep(m, src, dist, pred, j);
          ExtendFront(m, pred[j], j, i, e);
          e := e + 1;
        }
        j := pred[j];
        if j < 0 { return false, j; }
        PredStep(m, src, dist, pred, j);
      }
      if Reachable(m, src, j) { PredStep(m, src, dist, pred, j); }
      ok := true;
    }

    method Direction(m: Matrix, j: nat) returns (dir: int)
      requires n == k * k && k > 0 && j < n && src < n && GridNeighbors(k, src, j)
      ensures EAST <= dir <= NORTH && Step(k, src, dir) == j
    {
      NeighborNumbers(k, src, j);
      var coord := j - src;
      if coord == 1 { dir := EAST; }
      else if coord == -1 { dir := WEST; }
      else if coord == k { dir := SOUTH; }
      else { dir := NORTH; }
    }

    /** Fills a table with first hops for every powered-on router. */
    method Fill(m: Matrix, table0: seq<int>) returns (ok: bool, t: seq<int>)
      requires Computed(m) && n == k * k && k > 0 && |states| == n && |table0| == n && OnGrid(k, m)
      requires forall i | 0 <= i < n && !states[i] :: table0[i] == INVALID
      ensures ok <==> AllReachable(states, m, src)
      ensures ok ==> GoodTable(m, k, states, src, t)
      ensures |t| == n && forall i | 0 <= i < n && !states[i] :: t[i] == INVALID
    {
      t := table0;
      assert Walk(m, src, src, 0);
      for i := 0 to n
        invariant |t| == n && forall j | 0 <= j < n && !states[j] :: t[j] == INVALID
        invariant forall j | 0 <= j < i && states[j] ::
                    Reachable(m, src, j) && (if j == src then t[j] == ARRIVED else GoodEntry(m, k, src, j, t[j]))
      {
        if states[i] {
          if i == src {
            t := t[i := ARRIVED];
          } else {
            var dir;
            ok, dir := FirstHop(m, i);
            if !ok { return; }
            t := t[i := dir];
          }
        }
      }
      ok := true;
    }

    /** `BuildRoute`: it completes exactly if all powered-on routers can be reached; otherwise the
        distances overflow or the walk back leaves `pred`. */
    method BuildRoute() returns (ok: bool)
      requires n == k * k && k > 0 && n < INT_MAX - 2 && |states| == n && src < n
      requires GridMatrix(k, states, adj)
      requires |table| == n && forall i | 0 <= i < n && !states[i] :: table[i] == INVALID
      modifies this`visited, this`pred, this`dist, this`table
      ensures ok <==> AllReachable(states, adj, src)
      ensures ok ==> GoodTable(adj, k, states, src, table)
    {
      if AllReachable(states, adj, src) { PoweredConnected(k, states, adj, src); }
      GridIsLinkGraph(k, states, adj);
      ok := CalDist(adj);
      if !ok { return; }
      ok, table := Fill(adj, table);
    }

    method VisitNeighbor(current: nat, i: nat, queue0: seq<int>) returns (queue: seq<int>)
      requires Sized(adj, Bfs(visited, updown, queue0)) && current < |adj| && i < |adj|
      modifies this`visited, this`updown
      ensures Bfs(visited, updown, queue) == Visit(adj, current, i, Bfs(old(visited), old(updown), queue0))
    {
      queue := queue0;
      if adj[current][i] == 1 && !visited[i] {
        updown := Join(updown, current, i);
        visited := visited[i := true];
        queue := queue + [i];
      }
    }

    /** Visits the unvisited neighbours of `current`. */
    method Expand(current: nat, queue0: seq<int>) returns (queue: seq<int>)
      requires Sized(adj, Bfs(visited, updown, queue0)) && current < |adj| == n
      modifies this`visited, this`updown
      ensures Sized(adj, Bfs(visited, updown, queue))
      ensures Bfs(visited, updown, queue) == Scan(adj, current, 0, Bfs(old(visited), old(updown), queue0))
    {
      queue := queue0;
      ghost var a, s := adj, Bfs(visited, updown, queue);
      ghost var all := Scan(a, current, 0, s);
      for i := 0 to n
        invariant s == Bfs(visited, updown, queue) && Sized(a, s)
        invariant Scan(a, current, i, s) == all
      {
        queue := VisitNeighbor(current, i, queue);
        s := ScanStep(a, current, i, s);
      }
    }

    /** Breadth-first search from `root` over the adjacency matrix; edges already there stay. */
    method BreadthFirst(root: nat)
      requires root < |adj| == n && (forall u | 0 <= u < n :: |adj[u]| == n)
      requires visited == seq(n, _ => false) && |updown| == n && forall u | 0 <= u < n :: |updown[u]| == n
      modifies this`visited, this`updown
      ensures updown == Over(old(updown), TreeOf(adj, root)) && |visited| == n
    {
      ghost var all := StartOver(adj, root, updown);
      var queue: seq<int> := [root];
      visited := visited[root := true];
      while queue != []
        invariant Sized(adj, Bfs(visited, updown, queue))
        invariant Grow(adj, Bfs(visited, updown, queue)) == all
        decreases n - CountTrue(visited) + |queue|
      {
        var current := queue[0];
        queue := queue[1..];
        ghost var before := Bfs(visited, updown, queue);
        queue := Expand(current, queue);
        assert Bfs(visited, updown, queue) == Scan(adj, current, 0, before);
      }
    }

    /** Room for the tree, on a fresh object or on one that holds a tree already. */
    method PrepareTree()
      requires updown == [] || (|updown| == n && forall u | 0 <= u < n :: |updown[u]| == n)
      modifies this`updown
      ensures |updown| == n && forall u | 0 <= u < n :: |updown[u]| == n
      ensures old(updown) == [] ==> updown == EmptyTree(n)
      ensures old(updown) != [] ==> forall u, v | 0 <= u < n && 0 <= v < n :: updown[u][v] == if u == v then 0 else old(updown)[u][v]
    {
      ghost var t0 := updown;
      if updown == [] { updown := seq(n, _ => []); }
      for i := 0 to n
        invariant |updown| == n && forall u | 0 <= u < i :: |updown[u]| == n
        invariant forall u | i <= u < n :: updown[u] == if t0 == [] then [] else t0[u]
        invariant forall u, v | 0 <= u < i && 0 <= v < n :: updown[u][v] == if u == v then 0 else if t0 == [] then -1 else t0[u][v]
      {
        var row := updown[i] + seq(n - |updown[i]|, _ => -1);
        updown := updown[i := row[i := 0]];
      }
      if t0 == [] {
        assert forall u | 0 <= u < n :: updown[u] == EmptyTree(n)[u];
      }
    }

    /** The escape tree is added to the graph. */
    method GrowTree(root: nat)
      requires n == k * k && |states| == n && GridMatrix(k, states, adj) && root < n
      requires updown == [] || LinkGraph(k, states, updown)
      modifies this`visited, this`updown
      ensures LinkGraph(k, states, updown) && (old(updown) == [] ==> updown == TreeOf(adj, root))
      ensures forall u, v :: Edge(updown, u, v) <==> Edge(old(updown), u, v) || Edge(TreeOf(adj, root), u, v)
    {
      ghost var before := updown;
      PrepareTree();
      ghost var t0 := updown;
      visited := seq(n, _ => false);
      BreadthFirst(root);
      TreeIsLinkGraph(k, states, adj, root);
      EdgesOver(k, states, before, t0, TreeOf(adj, root));
      if before == [] { OverFresh(adj, root); }
    }

    /** `BuildEscRoute`: the tables of shortest walks in the spanning tree, which every router derives
        from the same root. It completes exactly if all powered-on routers can be reached. A second
        call on the same object also keeps the edges of the first tree. */
    method BuildEscRoute(root: nat) returns (ok: bool)
      requires n == k * k && k > 0 && n < INT_MAX - 2 && |states| == n && src < n
      requires GridMatrix(k, states, adj) && root < n && (updown == [] || LinkGraph(k, states, updown))
      requires |escTable| == n && forall i | 0 <= i < n && !states[i] :: escTable[i] == INVALID
      modifies this`visited, this`pred, this`dist, this`escTable, this`updown
      ensures LinkGraph(k, states, updown) && (old(updown) == [] ==> updown == TreeOf(adj, root))
      ensures forall u, v :: Edge(updown, u, v) <==> Edge(old(updown), u, v) || Edge(TreeOf(adj, root), u, v)
      ensures ok <==> AllReachable(states, updown, src)
      ensures old(updown) == [] && states[src] && states[root] ==> (ok <==> AllReachable(states, adj, root))
      ensures ok ==> GoodTable(updown, k, states, src, escTable)
    {
      GrowTree(root);
      if states[src] && states[root] { TreeReachesIff(k, states, adj, root, src); }
      ok := FillEscape();
    }

    method FillEscape() returns (ok: bool)
      requires n == k * k && k > 0 && n < INT_MAX - 2 && |states| == n && src < n && LinkGraph(k, states, updown)
      requires |escTable| == n && forall i | 0 <= i < n && !states[i] :: escTable[i] == INVALID
      modifies this`visited, this`pred, this`dist, this`escTable
      ensures ok <==> AllReachable(states, updown, src)
      ensures ok ==> GoodTable(updown, k, states, src, escTable)
    {
      if AllReachable(states, updown, src) { PoweredConnected(k, states, updown, src); }
      ok := CalDist(updown);
      if !ok { return; }
      ok, escTable := Fill(updown, escTable);
    }
  }

  /** Over a matrix without edges of its own. */
  lemma OverEmpty(t0: Matrix)
    requires forall u | 0 <= u < |t0| :: |t0[u]| == |t0|
    ensures Over(t0, EmptyTree(|t0|)) == t0
  {
    var r := Over(t0, EmptyTree(|t0|));
    forall u | 0 <= u < |t0| ensures r[u] == t0[u] { }
  }

  lemma StartOver(adj: Matrix, root: nat, t0: Matrix) returns (all: Bfs)
    requires root < |adj| == |t0| && forall u | 0 <= u < |adj| :: |adj[u]| == |t0[u]| == |adj|
    ensures var s := Bfs(seq(|adj|, _ => false)[root := true], t0, [root]);
            Sized(adj, s) && all == Grow(adj, s) && all.tree == Over(t0, TreeOf(adj, root))
  {
    var s0 := Start(|adj|, root);
    GrowOver(adj, s0, t0);
    OverEmpty(t0);
    all := Grow(adj, Under(t0, s0));
  }

  /** On a fresh object the graph is the tree. */
  lemma OverFresh(adj: Matrix, root: nat)
    requires root < |adj| && forall u | 0 <= u < |adj| :: |adj[u]| == |adj|
    ensures Over(EmptyTree(|adj|), TreeOf(adj, root)) == TreeOf(adj, root)
  {
    GrowOver(adj, Start(|adj|, root), EmptyTree(|adj|));
    OverEmpty(EmptyTree(|adj|));
  }

  lemma EdgesOver(k: nat, states: seq<bool>, before: Matrix, t0: Matrix, tree: Matrix)
    requires LinkGraph(k, states, tree) && |t0| == k * k && forall u | 0 <= u < k * k :: |t0[u]| == k * k
    requires before == [] ==> t0 == EmptyTree(k * k)
    requires before != [] ==> LinkGraph(k, states, before)
    requires before != [] ==> forall u, v | 0 <= u < k * k && 0 <= v < k * k :: t0[u][v] == if u == v then 0 else before[u][v]
    ensures LinkGraph(k, states, Over(t0, tree))
    ensures forall u, v :: Edge(Over(t0, tree), u, v) <==> Edge(before, u, v) || Edge(tree, u, v)
  {
    var r := Over(t0, tree);
    forall u, v ensures Edge(r, u, v) <==> Edge(before, u, v) || Edge(tree, u, v) {
      if 0 <= u < k * k && 0 <= v < k * k {
        assert r[u][v] == if tree[u][v] > 0 then tree[u][v] else t0[u][v];
        if before != [] && u == v { assert !Edge(before, u, v); }
      }
    }
  }
}
