/** Packets forwarded by the tables of Router Parking. */
module RouterParking {
  import opened Ports
  import opened Graphs
  import opened SpanningTrees
  import opened RouteTables

  /** The tables of all powered-on routers, each computed by the router itself. */
  ghost predicate GoodTables(m: Matrix, k: nat, states: seq<bool>, tables: seq<seq<int>>) {
    && |tables| == |states|
    && forall u | 0 <= u < |states| && states[u] :: GoodTable(m, k, states, u, tables[u])
  }

  ghost predicate Powered(states: seq<bool>, u: int) {
    0 <= u < |states| && states[u]
  }

  /** One hop by table, away from the destination. */
  ghost predicate TableHop(k: nat, states: seq<bool>, tables: seq<seq<int>>, t: int, u: int, v: int) {
    && Powered(states, u) && Powered(states, t) && u != t && |tables| == |states|
    && |tables[u]| == |states| && v == Step(k, u, tables[u][t])
  }

  lemma HopNearer(m: Matrix, k: nat, states: seq<bool>, tables: seq<seq<int>>, t: int, u: int, v: int) returns (d: nat)
    requires GoodTables(m, k, states, tables) && TableHop(k, states, tables, t, u, v)
    ensures Edge(m, u, v) && IsDist(m, u, t, d + 1) && IsDist(m, v, t, d)
  {
    assert GoodTable(m, k, states, u, tables[u]);
    assert GoodEntry(m, k, u, t, tables[u][t]);
    d :| IsDist(m, u, t, d + 1) && IsDist(m, Step(k, u, tables[u][t]), t, d);
  }

  /** From `u` to `v` the distance to `t` falls by one. */
  ghost predicate Nearer(m: Matrix, t: int, u: int, v: int) {
    exists d: nat :: IsDist(m, u, t, d + 1) && IsDist(m, v, t, d)
  }

  lemma {:induction false} NearerWalk(m: Matrix, t: int, path: seq<int>, d: nat)
    requires |path| > 0 && IsDist(m, path[0], t, d)
    requires forall i | 0 <= i < |path| - 1 :: Nearer(m, t, path[i], path[i + 1])
    ensures |path| - 1 <= d && IsDist(m, path[|path| - 1], t, d - (|path| - 1))
  {
    var n := |path| - 1;
    if n > 0 {
      NearerWalk(m, t, path[..n], d);
      assert Nearer(m, t, path[n - 1], path[n]);
      var e: nat :| IsDist(m, path[n - 1], t, e + 1) && IsDist(m, path[n], t, e);
      DistUnique(m, path[n - 1], t, e + 1, d - (n - 1));
    }
  }

  /** Forwarding hop by hop, each router using its own table: after `d` hops, the distance at the
      start, the packet is at its destination, and not before. */
  lemma ForwardingIsShortest(m: Matrix, k: nat, states: seq<bool>, tables: seq<seq<int>>, t: int,
                             path: seq<int>, d: nat)
    requires GoodTables(m, k, states, tables) && |path| > 0
    requires IsDist(m, path[0], t, d)
    requires forall i | 0 <= i < |path| - 1 :: TableHop(k, states, tables, t, path[i], path[i + 1])
    ensures |path| - 1 <= d && IsDist(m, path[|path| - 1], t, d - (|path| - 1))
    ensures path[|path| - 1] == t <==> |path| - 1 == d
  {
    forall i | 0 <= i < |path| - 1 ensures Nearer(m, t, path[i], path[i + 1]) {
      var e := HopNearer(m, k, states, tables, t, path[i], path[i + 1]);
    }
    NearerWalk(m, t, path, d);
    ZeroDist(m, path[|path| - 1], t, d - (|path| - 1));
  }

  /** Forwarding by the escape tables takes, from the root and to it, exactly the distance of the mesh, and
      between any two routers at most both their distances to the root together. */
  lemma EscapeForwarding(k: nat, states: seq<bool>, adj: Matrix, root: nat, escTables: seq<seq<int>>, t: int, path: seq<int>, du: nat, dt: nat)
    requires GridMatrix(k, states, adj) && root < k * k && GoodTables(TreeOf(adj, root), k, states, escTables)
    requires |path| > 1 && 0 <= path[0] < |adj| && 0 <= t < |adj| && path[|path| - 1] == t
    requires forall i | 0 <= i < |path| - 1 :: TableHop(k, states, escTables, t, path[i], path[i + 1])
    requires IsDist(adj, root, path[0], du) && IsDist(adj, root, t, dt)
    ensures |path| - 1 <= du + dt
    ensures path[0] == root ==> |path| - 1 == dt
    ensures t == root ==> |path| - 1 == du
  {
    GridIsLinkGraph(k, states, adj);
    HopsAreDistance(TreeOf(adj, root), k, states, escTables, t, path);
    TreeDistances(adj, root, path[0], t, |path| - 1, du, dt);
  }

  /** The hops of a packet that has arrived. */
  lemma HopsAreDistance(m: Matrix, k: nat, states: seq<bool>, tables: seq<seq<int>>, t: int, path: seq<int>)
    requires GoodTables(m, k, states, tables) && |path| > 1 && path[|path| - 1] == t
    requires forall i | 0 <= i < |path| - 1 :: TableHop(k, states, tables, t, path[i], path[i + 1])
    ensures IsDist(m, path[0], t, |path| - 1)
  {
    assert TableHop(k, states, tables, t, path[0], path[1]);
    var d := HopNearer(m, k, states, tables, t, path[0], path[1]);
    ForwardingIsShortest(m, k, states, tables, t, path, d + 1);
  }

  // ---------- rp_mesh ----------

  /** A packet's head: its router, and whether it holds the escape channel. */
  datatype Packet = Packet(at: int, escape: bool)

  /** The regular and the escape tables of a configuration: shortest walks in the mesh and in its
      spanning tree. */
  ghost predicate Configured(k: nat, states: seq<bool>, adj: Matrix, root: nat, tables: seq<seq<int>>, escTables: seq<seq<int>>) {
    && GridMatrix(k, states, adj) && root < k * k && states[root]
    && GoodTables(adj, k, states, tables)
    && GoodTables(TreeOf(adj, root), k, states, escTables)
  }

  /** One hop of a packet that may be late at any router. */
  ghost predicate RpHop(k: nat, states: seq<bool>, tables: seq<seq<int>>, escTables: seq<seq<int>>, dest: int,
                        late: bool, p: Packet, q: Packet) {
    && q.escape == (p.escape || late)
    && TableHop(k, states, if q.escape then escTables else tables, dest, p.at, q.at)
  }

  /** The packet counts as being on the escape channel; the injection channel is ignored. */
  function OnEscape(inChannel: int, vc: int, vcBegin: int, vcEnd: int): bool {
    (if inChannel == LOCAL then vcEnd else vc) == vcBegin
  }

  lemma FreshIsRegular(vc: int, vcBegin: int, vcEnd: int)
    requires vcBegin < vcEnd
    ensures !OnEscape(LOCAL, vc, vcBegin, vcEnd)
  {
  }

  /** Through `port` the packet makes a hop to a powered-on router one step nearer in the graph of the
      table used. */
  ghost predicate LeadsOn(k: nat, states: seq<bool>, adj: Matrix, root: nat, tables: seq<seq<int>>, escTables: seq<seq<int>>,
                          dest: int, late: bool, p: Packet, port: int, escape: bool)
    requires Square(adj, |adj|) && root < |adj|
  {
    var q := Packet(Step(k, p.at, port), escape);
    && EAST <= port <= NORTH && RpHop(k, states, tables, escTables, dest, late, p, q) && Powered(states, q.at)
    && Nearer(if escape then TreeOf(adj, root) else adj, dest, p.at, q.at)
  }

  /** Of the channels of the class exactly those are offered that show at the next router whether the packet is
      on the escape channel. */
  ghost predicate Shows(outPort: int, vcBegin: int, vcEnd: int, vcBegin0: int, vcEnd0: int, escape: bool) {
    && vcBegin0 <= vcBegin && vcEnd <= vcEnd0
    && forall w | vcBegin0 <= w <= vcEnd0 :: vcBegin <= w <= vcEnd <==> OnEscape(Opposite(outPort), w, vcBegin0, vcEnd0) == escape
  }

  /** The choice between the tables, and the channels that go with it. */
  method TableRange(cur: nat, dest: nat, inChannel: int, vc: int, vcBegin0: int, vcEnd0: int, late: bool, inject: bool,
                    table: seq<int>, escTable: seq<int>)
    returns (outPort: int, vcBegin: int, vcEnd: int)
    requires dest < |table| && dest < |escTable| && (inject || vcBegin0 <= vc <= vcEnd0)
    ensures inject || cur == dest ==> outPort == (if inject then -1 else LOCAL) && (vcBegin, vcEnd) == (vcBegin0, vcEnd0)
    ensures !inject && cur != dest ==>
              var escape := OnEscape(inChannel, vc, vcBegin0, vcEnd0) || late;
              && outPort == (if escape then escTable[dest] else table[dest])
              && (vcBegin == vcBegin0 <==> escape) && Shows(outPort, vcBegin, vcEnd, vcBegin0, vcEnd0, escape)
  {
    vcBegin, vcEnd := vcBegin0, vcEnd0;
    if inject {
      return -1, vcBegin, vcEnd;
    } else if cur == dest {
      return LOCAL, vcBegin, vcEnd;
    }
    var inVc := if inChannel == LOCAL then vcEnd else vc;
    var escape := false;
    if inVc == vcBegin { escape := true; }
    if late { escape := true; }
    if !escape {
      outPort := table[dest];
      vcBegin := vcBegin + 1;
    } else {
      outPort := escTable[dest];
      vcEnd := vcBegin;
    }
  }

  /** `rp_mesh` offers a hop of the packet: to a powered-on router one step nearer in the graph of
      the table used, and on channels that say there whether it is on the escape channel. */
  method RpMesh(cur: nat, dest: nat, inChannel: int, vc: int, vcBegin0: int, vcEnd0: int, late: bool, inject: bool,
                table: seq<int>, escTable: seq<int>,
                ghost k: nat, ghost states: seq<bool>, ghost adj: Matrix, ghost root: nat,
                ghost tables: seq<seq<int>>, ghost escTables: seq<seq<int>>)
    returns (outPort: int, vcBegin: int, vcEnd: int)
    requires Configured(k, states, adj, root, tables, escTables) && (inject || vcBegin0 <= vc <= vcEnd0)
    requires Powered(states, cur) && Powered(states, dest) && table == tables[cur] && escTable == escTables[cur]
    ensures inject || cur == dest ==> outPort == (if inject then -1 else LOCAL) && (vcBegin, vcEnd) == (vcBegin0, vcEnd0)
    ensures !inject && cur != dest ==>
              var p := Packet(cur, OnEscape(inChannel, vc, vcBegin0, vcEnd0));
              && LeadsOn(k, states, adj, root, tables, escTables, dest, late, p, outPort, vcBegin == vcBegin0)
              && Shows(outPort, vcBegin, vcEnd, vcBegin0, vcEnd0, p.escape || late) && (vcBegin == vcBegin0 <==> p.escape || late)
  {
    TablesSized(k, states, adj, root, tables, escTables, cur);
    outPort, vcBegin, vcEnd := TableRange(cur, dest, inChannel, vc, vcBegin0, vcEnd0, late, inject, table, escTable);
    if !inject && cur != dest {
      OfferIsHop(k, states, adj, root, tables, escTables, dest, late, Packet(cur, OnEscape(inChannel, vc, vcBegin0, vcEnd0)));
    }
  }

  lemma TablesSized(k: nat, states: seq<bool>, adj: Matrix, root: nat, tables: seq<seq<int>>, escTables: seq<seq<int>>, u: int)
    requires Configured(k, states, adj, root, tables, escTables) && Powered(states, u)
    ensures |tables| == |escTables| == |states| && |tables[u]| == |escTables[u]| == |states|
  {
    assert GoodTable(adj, k, states, u, tables[u]);
    assert GoodTable(TreeOf(adj, root), k, states, u, escTables[u]);
  }

  lemma OfferIsHop(k: nat, states: seq<bool>, adj: Matrix, root: nat, tables: seq<seq<int>>, escTables: seq<seq<int>>,
                   dest: int, late: bool, p: Packet)
    requires Configured(k, states, adj, root, tables, escTables)
    requires Powered(states, p.at) && Powered(states, dest) && p.at != dest
    ensures
      var escape := p.escape || late;
      var used := if escape then escTables else tables;
      && |used| == |states| && |used[p.at]| == |states|
      && LeadsOn(k, states, adj, root, tables, escTables, dest, late, p, used[p.at][dest], escape)
  {
    var q := RpHopExists(k, states, adj, root, tables, escTables, dest, late, p);
    var used := if q.escape then escTables else tables;
    var m := if q.escape then TreeOf(adj, root) else adj;
    assert GoodTable(m, k, states, p.at, used[p.at]);
    assert GoodEntry(m, k, p.at, dest, used[p.at][dest]);
    var d := HopNearer(m, k, states, used, dest, p.at, q.at);
  }

  ghost predicate Run(k: nat, states: seq<bool>, tables: seq<seq<int>>, escTables: seq<seq<int>>, dest: int,
                      late: seq<bool>, ps: seq<Packet>) {
    && |ps| == |late| + 1
    && forall i | 0 <= i < |late| :: RpHop(k, states, tables, escTables, dest, late[i], ps[i], ps[i + 1])
  }

  /** The routers visited. */
  ghost function Routers(ps: seq<Packet>): (r: seq<int>)
    ensures |r| == |ps| && forall i | 0 <= i < |ps| :: r[i] == ps[i].at
  {
    seq(|ps|, i requires 0 <= i < |ps| => ps[i].at)
  }

  /** The hop after which a run is on the escape channel for good. */
  lemma {:induction false} SwitchPoint(k: nat, states: seq<bool>, tables: seq<seq<int>>, escTables: seq<seq<int>>, dest: int,
                                       late: seq<bool>, ps: seq<Packet>) returns (m: nat)
    requires Run(k, states, tables, escTables, dest, late, ps)
    ensures m <= |late| && forall i | 0 < i <= |late| :: ps[i].escape <==> i > m
  {
    var n := |late|;
    m := 0;
    if n > 0 {
      m := SwitchPoint(k, states, tables, escTables, dest, late[..n - 1], ps[..n]);
      assert RpHop(k, states, tables, escTables, dest, late[n - 1], ps[n - 1], ps[n]);
      if !ps[n].escape { m := n; }
    }
  }

  /** The spanning tree joins powered-on routers only. */
  lemma TreeEdgePowered(k: nat, states: seq<bool>, adj: Matrix, root: nat, u: int, v: int)
    requires GridMatrix(k, states, adj) && root < k * k
    requires Edge(TreeOf(adj, root), u, v)
    ensures Powered(states, v)
  {
    var tree := TreeOf(adj, root);
    var visited, par, dep := TreeSpans(adj, root);
    assert tree[u][v] > 0;
    assert Edge(adj, par[u], u) || Edge(adj, par[v], v);
  }

  /** As long as the packet is not at its destination it can make a hop, to a powered-on router. */
  lemma RpHopExists(k: nat, states: seq<bool>, adj: Matrix, root: nat, tables: seq<seq<int>>, escTables: seq<seq<int>>,
                    dest: int, late: bool, p: Packet) returns (q: Packet)
    requires Configured(k, states, adj, root, tables, escTables)
    requires Powered(states, p.at) && Powered(states, dest) && p.at != dest
    ensures RpHop(k, states, tables, escTables, dest, late, p, q) && Powered(states, q.at)
  {
    var escape := p.escape || late;
    var used := if escape then escTables else tables;
    var m := if escape then TreeOf(adj, root) else adj;
    assert GoodTable(m, k, states, p.at, used[p.at]);
    q := Packet(Step(k, p.at, used[p.at][dest]), escape);
    var d := HopNearer(m, k, states, used, dest, p.at, q.at);
    if escape { TreeEdgePowered(k, states, adj, root, p.at, q.at); }
  }

  /** Delivery under arbitrary switches into escape: at most `d` regular hops, `d` the distance
      in the mesh, and then at most as many escape hops as the tree distance from the router where
      the packet switched. */
  lemma RpDelivers(k: nat, states: seq<bool>, adj: Matrix, root: nat, tables: seq<seq<int>>, escTables: seq<seq<int>>,
                   dest: int, late: seq<bool>, ps: seq<Packet>, d: nat) returns (m: nat)
    requires Configured(k, states, adj, root, tables, escTables)
    requires Run(k, states, tables, escTables, dest, late, ps)
    requires IsDist(adj, ps[0].at, dest, d)
    ensures m <= |late| && m <= d && forall i | 0 < i <= |late| :: ps[i].escape <==> i > m
    ensures forall e: nat | IsDist(TreeOf(adj, root), ps[m].at, dest, e) :: |late| - m <= e
    ensures m < |late| ==> exists e: nat :: IsDist(TreeOf(adj, root), ps[m].at, dest, e)
  {
    m := SwitchPoint(k, states, tables, escTables, dest, late, ps);
    var tree := TreeOf(adj, root);
    var regular, escaped := Routers(ps[..m + 1]), Routers(ps[m..]);
    forall i | 0 <= i < |regular| - 1 ensures TableHop(k, states, tables, dest, regular[i], regular[i + 1]) {
      assert RpHop(k, states, tables, escTables, dest, late[i], ps[i], ps[i + 1]);
    }
    ForwardingIsShortest(adj, k, states, tables, dest, regular, d);
    forall i | 0 <= i < |escaped| - 1 ensures TableHop(k, states, escTables, dest, escaped[i], escaped[i + 1]) {
      assert RpHop(k, states, tables, escTables, dest, late[m + i], ps[m + i], ps[m + i + 1]);
    }
    if m < |late| {
      var e := HopNearer(tree, k, states, escTables, dest, escaped[0], escaped[1]);
    }
    forall e: nat | IsDist(tree, ps[m].at, dest, e) ensures |late| - m <= e {
      ForwardingIsShortest(tree, k, states, escTables, dest, escaped, e);
    }
  }

  // ---------- deadlock freedom of the escape channel ----------

  /** A packet on escape channel (u, v) asks for escape channel (v, w). */
  ghost predicate Waits(k: nat, states: seq<bool>, escTables: seq<seq<int>>, u: int, v: int, w: int) {
    exists t :: TableHop(k, states, escTables, t, u, v) && TableHop(k, states, escTables, t, v, w)
  }

  /** Two hops for the same destination do not lead back. */
  lemma NoTurnBack(m: Matrix, k: nat, states: seq<bool>, tables: seq<seq<int>>, u: int, v: int, w: int)
    requires GoodTables(m, k, states, tables) && Waits(k, states, tables, u, v, w)
    ensures Edge(m, u, v) && Edge(m, v, w) && u != w
  {
    var t :| TableHop(k, states, tables, t, u, v) && TableHop(k, states, tables, t, v, w);
    var d := HopNearer(m, k, states, tables, t, u, v);
    var e := HopNearer(m, k, states, tables, t, v, w);
    TwoNearer(m, u, v, w, t, d, e);
  }

  lemma TwoNearer(m: Matrix, u: int, v: int, w: int, t: int, d: nat, e: nat)
    requires IsDist(m, u, t, d + 1) && IsDist(m, v, t, d) && IsDist(m, v, t, e + 1) && IsDist(m, w, t, e)
    ensures u != w
  {
    DistUnique(m, v, t, d, e + 1);
    DistDiffers(m, u, w, t, d + 1, e);
  }

  /** Escape routes go up the tree and then down: never up after down, and along channels of
      strictly rising rank, so that waiting packets cannot form a cycle. */
  lemma EscapeRises(k: nat, states: seq<bool>, adj: Matrix, root: nat, tables: seq<seq<int>>, escTables: seq<seq<int>>,
                    visited: seq<bool>, par: seq<int>, dep: seq<int>, u: int, v: int, w: int)
    requires Configured(k, states, adj, root, tables, escTables)
    requires SpanningTree(adj, root, TreeOf(adj, root), visited, par, dep)
    requires Waits(k, states, escTables, u, v, w)
    ensures 0 <= u < |par| == |dep| && 0 <= v < |par| && 0 <= w < |par|
    ensures ChannelRank(par, dep, u, v) < ChannelRank(par, dep, v, w)
    ensures par[u] != v ==> par[v] != w
  {
    var tree := TreeOf(adj, root);
    NoTurnBack(tree, k, states, escTables, u, v, w);
    UpThenDown(adj, root, tree, visited, par, dep, u, v, w);
  }

  /** No chain of waiting packets returns to the channel it started from. */
  lemma {:induction false} EscapeAcyclic(k: nat, states: seq<bool>, adj: Matrix, root: nat, tables: seq<seq<int>>,
                                         escTables: seq<seq<int>>, chain: seq<int>)
    requires Configured(k, states, adj, root, tables, escTables)
    requires |chain| > 2 && forall i | 0 <= i < |chain| - 2 :: Waits(k, states, escTables, chain[i], chain[i + 1], chain[i + 2])
    ensures (chain[0], chain[1]) != (chain[|chain| - 2], chain[|chain| - 1])
  {
    var visited, par, dep := TreeSpans(adj, root);
    var n := |chain|;
    var i := 0;
    EscapeRises(k, states, adj, root, tables, escTables, visited, par, dep, chain[0], chain[1], chain[2]);
    while i < n - 3
      invariant 0 <= i <= n - 3 && 0 <= chain[i + 1] < |par| && 0 <= chain[i + 2] < |par|
      invariant ChannelRank(par, dep, chain[0], chain[1]) < ChannelRank(par, dep, chain[i + 1], chain[i + 2])
    {
      EscapeRises(k, states, adj, root, tables, escTables, visited, par, dep, chain[i + 1], chain[i + 2], chain[i + 3]);
      i := i + 1;
    }
  }
}
