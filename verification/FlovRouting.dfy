/** The fly-over routing functions on coordinates, and runs of a packet under them. */
module FlovRouting {
  import opened Arithmetic
  import opened Ports
  import opened Mesh

  /** Dimension-order next port: x before y, or y before x when `descending`. */
  function Dor(at: Node, dest: Node, descending: bool): int {
    if at == dest then LOCAL
    else if at.x == dest.x || (descending && at.y != dest.y) then (if at.y < dest.y then SOUTH else NORTH)
    else if at.x < dest.x then EAST else WEST
  }

  datatype Algorithm = Flov | Rflov | Gflov

  /** Output port, and whether the packet takes the escape virtual channel there. */
  datatype Choice = Choice(port: int, escape: bool)

  ghost predicate Aligned(at: Node, dest: Node) {
    at.x == dest.x || at.y == dest.y
  }

  ghost predicate NeighborOn(k: int, off: set<Node>, at: Node, port: int) {
    Powered(k, off, Ahead(at, port, 1))
  }

  /** `flov_mesh`: XY, else YX, and south on the escape channel when neither is possible. */
  ghost function FlovChoice(k: int, off: set<Node>, at: Node, dest: Node, escape: bool): Choice {
    var xy := Dor(at, dest, false);
    var port := if NeighborOn(k, off, at, xy) then xy else Dor(at, dest, true);
    var leave := escape || (!Aligned(at, dest) && !NeighborOn(k, off, at, port));
    Choice(if leave && !Aligned(at, dest) && at.y < k - 1 then SOUTH else port, leave)
  }

  /** Detour of `opt_rflov_mesh` around a gated XY neighbour. */
  ghost function RflovDetour(at: Node, dest: Node, escape: bool): int {
    if dest.x > at.x + 1 then EAST
    else if dest.x < at.x - 1 then WEST
    else if dest.y < at.y - 1 && !escape then NORTH
    else SOUTH
  }

  /** The nearest powered router through `port` exists and `dest` is not nearer. */
  ghost predicate Before(k: int, off: set<Node>, at: Node, dest: Node, port: int) {
    var d := Fly(k, off, at, port);
    d > 0 && (if port == EAST then dest.x >= at.x + d
              else if port == WEST then dest.x <= at.x - d
              else if port == NORTH then dest.y <= at.y - d
              else dest.y >= at.y + d)
  }

  /** Detour of `opt_flov_mesh`, by logical neighbours. */
  ghost function GflovDetour(k: int, off: set<Node>, at: Node, dest: Node, escape: bool): int {
    if Before(k, off, at, dest, EAST) then EAST
    else if Before(k, off, at, dest, WEST) then WEST
    else if Before(k, off, at, dest, NORTH) && !escape then NORTH
    else SOUTH
  }

  /** `opt_rflov_mesh` and `opt_flov_mesh`: XY, or a detour when the XY neighbour is gated;
      turning back south after a move north means taking the escape channel. */
  ghost function OptChoice(k: int, off: set<Node>, at: Node, inPort: int, dest: Node, escape: bool, detour: int): Choice {
    var xy := Dor(at, dest, false);
    if Aligned(at, dest) || NeighborOn(k, off, at, xy) then Choice(xy, escape)
    else Choice(detour, escape || (inPort == SOUTH && detour == SOUTH))
  }

  ghost function Choose(alg: Algorithm, k: int, off: set<Node>, at: Node, inPort: int, dest: Node, escape: bool): Choice {
    match alg
    case Flov => FlovChoice(k, off, at, dest, escape)
    case Rflov => OptChoice(k, off, at, inPort, dest, escape, RflovDetour(at, dest, escape))
    case Gflov => OptChoice(k, off, at, inPort, dest, escape, GflovDetour(k, off, at, dest, escape))
  }

  /** A packet's head: its router, the port it came in by, and whether it holds the escape channel. */
  datatype Packet = Packet(at: Node, inPort: int, escape: bool)

  /** What power gating guarantees: the bottom row and the destination are powered, and under
      R-FLOV no two neighbours are gated. */
  ghost predicate Legal(alg: Algorithm, k: int, off: set<Node>, dest: Node) {
    && InMesh(k, dest) && dest !in off
    && (forall n | n in off :: n.y != k - 1)
    && (alg == Rflov ==> forall n, port | n in off && EAST <= port <= NORTH :: Ahead(n, port, 1) !in off)
  }

  /** One hop: the choice is made at a powered router that is not the destination, and the packet
      flies to the first powered router on its way. */
  ghost predicate Hop(alg: Algorithm, k: int, env: Env, dest: Node, p: Packet, q: Packet) {
    && Legal(alg, k, env.off, dest)
    && InMesh(k, p.at) && p.at != dest
    && var c := Choose(alg, k, env.off, p.at, p.inPort, dest, p.escape || env.late);
       var d := Fly(k, env.off, p.at, c.port);
       d > 0 && q == Packet(Ahead(p.at, c.port, d), Opposite(c.port), c.escape)
  }

  /** A flight towards a powered router ends there or before. */
  lemma Lands(k: int, off: set<Node>, at: Node, port: int, d: int)
    requires InMesh(k, at) && d >= 1 && EAST <= port <= NORTH
    requires Powered(k, off, Ahead(at, port, d))
    ensures 0 < Fly(k, off, at, port) <= d
  {
  }

  /** How far the destination lies through a port that leads towards it in its row or column. */
  function Distance(at: Node, dest: Node): int {
    (if at.x < dest.x then dest.x - at.x else at.x - dest.x) + (if at.y < dest.y then dest.y - at.y else at.y - dest.y)
  }

  /** Facts about one hop that do not depend on the algorithm: no hop passes the column of the
      destination, or its row northwards or within its column; escape hops go north only in the
      column of the destination. */
  ghost predicate HopShape(k: int, dest: Node, at: Node, c: Choice, to: Node) {
    && InMesh(k, to)
    && (c.port == EAST ==> to.y == at.y && at.x < to.x <= dest.x)
    && (c.port == WEST ==> to.y == at.y && dest.x <= to.x < at.x)
    && (c.port == NORTH ==> to.x == at.x && dest.y <= to.y < at.y && (c.escape ==> at.x == dest.x))
    && (c.port == SOUTH ==> to.x == at.x && at.y < to.y && (at.x == dest.x ==> to.y <= dest.y))
    && (c.port == SOUTH && at.x != dest.x ==> at.y != dest.y)
    && EAST <= c.port <= NORTH
  }

  lemma FlovHop(k: int, off: set<Node>, at: Node, dest: Node, escape: bool)
    requires Legal(Flov, k, off, dest) && InMesh(k, at) && at != dest
    ensures
      var c := FlovChoice(k, off, at, dest, escape);
      var d := Fly(k, off, at, c.port);
      && d > 0 && HopShape(k, dest, at, c, Ahead(at, c.port, d))
      && (escape ==> c.escape)
      // a regular hop never leads away from the destination
      && (!c.escape ==> Distance(Ahead(at, c.port, d), dest) == Distance(at, dest) - d)
      && (c.escape && !Aligned(at, dest) ==> c.port == if at.y < k - 1 then SOUTH else Dor(at, dest, false))
      && (Aligned(at, dest) ==> c.port == Dor(at, dest, false))
  {
    var c := FlovChoice(k, off, at, dest, escape);
    if Aligned(at, dest) {
      Lands(k, off, at, c.port, Distance(at, dest));
    } else if c.port == SOUTH && at.y < k - 1 {
      Lands(k, off, at, SOUTH, if c.escape then k - 1 - at.y else 1);
    } else {
      Lands(k, off, at, c.port, 1);
    }
  }

  /** A choice of R-FLOV or G-FLOV: it can be flown, keeps the escape channel, and takes it to turn
      back south. */
  ghost predicate OptShape(k: int, off: set<Node>, at: Node, inPort: int, dest: Node, escape: bool, c: Choice) {
    var d := Fly(k, off, at, c.port);
    && d > 0 && HopShape(k, dest, at, c, Ahead(at, c.port, d))
    && (escape ==> c.escape)
    && (Aligned(at, dest) ==> c.port == Dor(at, dest, false))
    && (!Aligned(at, dest) && inPort == SOUTH && c.port == SOUTH ==> c.escape)
  }

  lemma DirectHop(k: int, off: set<Node>, at: Node, inPort: int, dest: Node, escape: bool)
    requires InMesh(k, dest) && dest !in off && InMesh(k, at) && at != dest
    requires Aligned(at, dest) || NeighborOn(k, off, at, Dor(at, dest, false))
    ensures OptShape(k, off, at, inPort, dest, escape, Choice(Dor(at, dest, false), escape))
  {
    Lands(k, off, at, Dor(at, dest, false), if Aligned(at, dest) then Distance(at, dest) else 1);
  }

  lemma RflovHop(k: int, off: set<Node>, at: Node, inPort: int, dest: Node, escape: bool)
    requires Legal(Rflov, k, off, dest) && InMesh(k, at) && !Aligned(at, dest)
    requires !NeighborOn(k, off, at, Dor(at, dest, false))
    ensures OptShape(k, off, at, inPort, dest, escape, Choose(Rflov, k, off, at, inPort, dest, escape))
  {
    RflovLands(k, off, at, dest, escape);
  }

  lemma GflovHop(k: int, off: set<Node>, at: Node, inPort: int, dest: Node, escape: bool)
    requires Legal(Gflov, k, off, dest) && InMesh(k, at) && !Aligned(at, dest)
    requires !NeighborOn(k, off, at, Dor(at, dest, false))
    ensures OptShape(k, off, at, inPort, dest, escape, Choose(Gflov, k, off, at, inPort, dest, escape))
  {
    if GflovDetour(k, off, at, dest, escape) == SOUTH {
      assert Ahead(at, Dor(at, dest, false), 1) in off;
      Lands(k, off, at, SOUTH, k - 1 - at.y);
    }
  }

  lemma OptHop(alg: Algorithm, k: int, off: set<Node>, at: Node, inPort: int, dest: Node, escape: bool)
    requires alg != Flov && Legal(alg, k, off, dest) && InMesh(k, at) && at != dest
    ensures OptShape(k, off, at, inPort, dest, escape, Choose(alg, k, off, at, inPort, dest, escape))
  {
    if Aligned(at, dest) || NeighborOn(k, off, at, Dor(at, dest, false)) {
      DirectHop(k, off, at, inPort, dest, escape);
    } else if alg == Rflov {
      RflovHop(k, off, at, inPort, dest, escape);
    } else {
      GflovHop(k, off, at, inPort, dest, escape);
    }
  }

  /** A packet of R-FLOV or G-FLOV that takes the escape channel never chooses the north outside the
      row and column of its destination; so the source need not turn it away from there. */
  lemma EscapeNeverNorth(alg: Algorithm, k: int, off: set<Node>, at: Node, inPort: int, dest: Node, escape: bool)
    requires alg != Flov && !Aligned(at, dest) && Choose(alg, k, off, at, inPort, dest, escape).escape
    ensures Choose(alg, k, off, at, inPort, dest, escape).port != NORTH
  {
  }

  lemma RflovLands(k: int, off: set<Node>, at: Node, dest: Node, escape: bool)
    requires Legal(Rflov, k, off, dest) && InMesh(k, at) && !Aligned(at, dest)
    requires !NeighborOn(k, off, at, Dor(at, dest, false))
    ensures var port := RflovDetour(at, dest, escape); 0 < Fly(k, off, at, port) <= 2
    ensures at.y < k - 1
  {
    var port := RflovDetour(at, dest, escape);
    var near := Ahead(at, port, 1);
    assert Ahead(at, Dor(at, dest, false), 1) in off;
    if near in off {
      assert Ahead(near, port, 1) == Ahead(at, port, 2);
      Lands(k, off, at, port, 2);
    } else {
      Lands(k, off, at, port, 1);
    }
  }

  // ---------- every hop is possible and keeps the escape channel ----------

  /** A hop is always possible, it stays on the mesh, and the escape channel is never left. */
  lemma HopExists(alg: Algorithm, k: int, env: Env, dest: Node, p: Packet) returns (q: Packet)
    requires Legal(alg, k, env.off, dest) && InMesh(k, p.at) && p.at != dest
    ensures Hop(alg, k, env, dest, p, q)
    ensures InMesh(k, q.at) && (p.escape ==> q.escape)
  {
    var escape := p.escape || env.late;
    if alg == Flov {
      FlovHop(k, env.off, p.at, dest, escape);
    } else {
      OptHop(alg, k, env.off, p.at, p.inPort, dest, escape);
    }
    var c := Choose(alg, k, env.off, p.at, p.inPort, dest, escape);
    q := Packet(Ahead(p.at, c.port, Fly(k, env.off, p.at, c.port)), Opposite(c.port), c.escape);
  }

  lemma HopShaped(alg: Algorithm, k: int, env: Env, dest: Node, p: Packet, q: Packet)
    requires Hop(alg, k, env, dest, p, q)
    ensures
      var c := Choose(alg, k, env.off, p.at, p.inPort, dest, p.escape || env.late);
      && HopShape(k, dest, p.at, c, q.at) && q.inPort == Opposite(c.port) && q.escape == c.escape
      && (p.escape ==> q.escape)
  {
    var q' := HopExists(alg, k, env, dest, p);
    if alg == Flov {
      FlovHop(k, env.off, p.at, dest, p.escape || env.late);
    } else {
      OptHop(alg, k, env.off, p.at, p.inPort, dest, p.escape || env.late);
    }
  }

  // ---------- where regular hops lead ----------

  /** A hop from `at` to `to` brings a packet nearer to `dest` by its whole length. */
  ghost predicate OnWay(at: Node, to: Node, dest: Node) {
    Distance(at, to) + Distance(to, dest) == Distance(at, dest)
  }

  function TowardsColumn(at: Node, dest: Node): int {
    if at.x < dest.x then EAST else WEST
  }

  function TowardsRow(at: Node, dest: Node): int {
    if at.y < dest.y then SOUTH else NORTH
  }

  function Dy(at: Node, dest: Node): int {
    if at.y < dest.y then dest.y - at.y else at.y - dest.y
  }

  /** Some router on the way through `port` to the one `far` links away is powered. */
  ghost predicate PoweredWithin(k: int, off: set<Node>, at: Node, port: int, far: int) {
    exists e :: 1 <= e <= far && Powered(k, off, Ahead(at, port, e))
  }

  /** A packet of `flov_mesh` takes the escape channel when it is late or outside row and column of its
      destination with no powered neighbour towards either. A regular hop leads towards the column exactly if
      the neighbour there is powered, and always brings the packet nearer by its whole length. */
  lemma FlovLeads(k: int, env: Env, dest: Node, p: Packet, q: Packet)
    requires Hop(Flov, k, env, dest, p, q)
    ensures
      var column, row := NeighborOn(k, env.off, p.at, TowardsColumn(p.at, dest)), NeighborOn(k, env.off, p.at, TowardsRow(p.at, dest));
      && (q.escape <==> p.escape || env.late || (!Aligned(p.at, dest) && !column && !row))
      && (!q.escape ==> OnWay(p.at, q.at, dest))
      && (!q.escape && !Aligned(p.at, dest) ==> (q.at.y == p.at.y <==> column))
  {
    FlovHop(k, env.off, p.at, dest, p.escape || env.late);
  }

  /** A packet of R-FLOV leads towards its column unless the neighbour there is gated and the column is the next
      one. A regular hop brings it nearer by its whole length, unless besides its row is the next one to the
      north, or the next one to the south behind a gated router; then it leads south. */
  lemma RflovLeads(k: int, env: Env, dest: Node, p: Packet, q: Packet)
    requires Hop(Rflov, k, env, dest, p, q)
    ensures
      var blocked := !Aligned(p.at, dest) && !NeighborOn(k, env.off, p.at, TowardsColumn(p.at, dest)) && Dx(p.at, dest) == 1;
      && (!Aligned(p.at, dest) ==> (q.at.y == p.at.y <==> !blocked))
      && (!q.escape ==> (OnWay(p.at, q.at, dest) <==>
            !(blocked && (dest.y == p.at.y - 1 || (dest.y == p.at.y + 1 && !NeighborOn(k, env.off, p.at, SOUTH))))))
      && (!q.escape && !OnWay(p.at, q.at, dest) ==> q.at.x == p.at.x && q.at.y > p.at.y)
  {
    OptHop(Rflov, k, env.off, p.at, p.inPort, dest, p.escape || env.late);
    if !Aligned(p.at, dest) && !NeighborOn(k, env.off, p.at, TowardsColumn(p.at, dest)) {
      RflovFlight(k, env.off, p.at, dest, p.escape || env.late);
    }
  }

  lemma RflovFlight(k: int, off: set<Node>, at: Node, dest: Node, escape: bool)
    requires Legal(Rflov, k, off, dest) && InMesh(k, at) && !Aligned(at, dest)
    requires !NeighborOn(k, off, at, TowardsColumn(at, dest))
    ensures var port := RflovDetour(at, dest, escape);
            Fly(k, off, at, port) == if NeighborOn(k, off, at, port) then 1 else 2
  {
    RflovLands(k, off, at, dest, escape);
    FirstPowered(k, off, at, RflovDetour(at, dest, escape));
  }

  lemma FirstPowered(k: int, off: set<Node>, at: Node, port: int)
    requires InMesh(k, at) && 0 < Fly(k, off, at, port) <= 2
    ensures Fly(k, off, at, port) == if NeighborOn(k, off, at, port) then 1 else 2
  {
  }

  /** A packet of G-FLOV leads towards its column exactly if a powered router lies there, not beyond it. A
      regular hop brings it nearer by its whole length exactly if one lies there or likewise towards its row;
      otherwise it leads south. */
  lemma GflovLeads(k: int, env: Env, dest: Node, p: Packet, q: Packet)
    requires Hop(Gflov, k, env, dest, p, q)
    ensures
      var inRow := PoweredWithin(k, env.off, p.at, TowardsColumn(p.at, dest), Dx(p.at, dest));
      var inColumn := PoweredWithin(k, env.off, p.at, TowardsRow(p.at, dest), Dy(p.at, dest));
      && (!Aligned(p.at, dest) ==> (q.at.y == p.at.y <==> inRow))
      && (!q.escape ==> (OnWay(p.at, q.at, dest) <==> inRow || inColumn))
      && (!q.escape && !OnWay(p.at, q.at, dest) ==> q.at.x == p.at.x && q.at.y > p.at.y)
  {
    OptHop(Gflov, k, env.off, p.at, p.inPort, dest, p.escape || env.late);
    if Aligned(p.at, dest) {
      AlignedWithin(k, env.off, p.at, dest);
    } else {
      WithinIff(k, env.off, p.at, TowardsColumn(p.at, dest), Dx(p.at, dest));
      WithinIff(k, env.off, p.at, TowardsRow(p.at, dest), Dy(p.at, dest));
    }
  }

  lemma AlignedWithin(k: int, off: set<Node>, at: Node, dest: Node)
    requires InMesh(k, at) && Powered(k, off, dest) && at != dest && Aligned(at, dest)
    ensures PoweredWithin(k, off, at, TowardsColumn(at, dest), Dx(at, dest)) || PoweredWithin(k, off, at, TowardsRow(at, dest), Dy(at, dest))
  {
    assert Ahead(at, Dor(at, dest, false), Distance(at, dest)) == dest;
  }

  /** Under R-FLOV and G-FLOV a packet takes the escape channel when it is late, or when it came from the south
      and turns back outside row and column of its destination. */
  lemma TurningBackEscapes(alg: Algorithm, k: int, env: Env, dest: Node, p: Packet, q: Packet)
    requires alg != Flov && Hop(alg, k, env, dest, p, q)
    ensures q.escape <==> p.escape || env.late || (!Aligned(p.at, dest) && p.inPort == SOUTH && q.at.y > p.at.y)
  {
    OptHop(alg, k, env.off, p.at, p.inPort, dest, p.escape || env.late);
  }

  lemma WithinIff(k: int, off: set<Node>, at: Node, port: int, far: int)
    requires InMesh(k, at) && far < k && EAST <= port <= NORTH
    ensures PoweredWithin(k, off, at, port, far) <==> 0 < Fly(k, off, at, port) <= far
  {
    var d := Fly(k, off, at, port);
    if e :| 1 <= e <= far && Powered(k, off, Ahead(at, port, e)) { Lands(k, off, at, port, e); }
  }

  // ---------- flov_mesh: at most 2(k-1) regular and 3(k-1) escape hops ----------

  /** Hops that a packet on the escape channel of `flov_mesh` may still need. */
  function EscapeLeft(k: int, at: Node, dest: Node): int {
    if Dx(at, dest) == 0 || at.y == dest.y then Distance(at, dest)
    else (k - 1 - at.y) + Dx(at, dest) + (k - 1 - dest.y)
  }

  function Dx(at: Node, dest: Node): int {
    if at.x < dest.x then dest.x - at.x else at.x - dest.x
  }

  lemma FlovShrinks(k: int, env: Env, dest: Node, p: Packet, q: Packet)
    requires Hop(Flov, k, env, dest, p, q)
    ensures InMesh(k, q.at) && (p.escape ==> q.escape)
    ensures q.escape ==> 0 <= EscapeLeft(k, q.at, dest) < EscapeLeft(k, p.at, dest)
    ensures !q.escape ==> 0 <= Distance(q.at, dest) < Distance(p.at, dest)
    ensures EscapeLeft(k, p.at, dest) <= 3 * (k - 1) && Distance(p.at, dest) <= 2 * (k - 1)
  {
    FlovHop(k, env.off, p.at, dest, p.escape || env.late);
  }

  /** A sequence of hops towards `dest`, each under a power map of its own. */
  ghost predicate Run(alg: Algorithm, k: int, dest: Node, envs: seq<Env>, ps: seq<Packet>) {
    && |ps| == |envs| + 1
    && forall i | 0 <= i < |envs| :: Hop(alg, k, envs[i], dest, ps[i], ps[i + 1])
  }

  /** Delivery by `flov_mesh`: the hops split into at most 2(k-1) regular ones followed by at
      most 3(k-1) on the escape channel. */
  lemma {:induction false} FlovDelivers(k: int, dest: Node, envs: seq<Env>, ps: seq<Packet>) returns (m: nat)
    requires Run(Flov, k, dest, envs, ps)
    ensures m <= |envs| && forall i | 0 < i <= |envs| :: ps[i].escape <==> i > m
    ensures |envs| > 0 ==> m <= Distance(ps[0].at, dest) <= 2 * (k - 1)
    ensures |envs| - m <= 3 * (k - 1) || |envs| == 0
    ensures ps[0].escape || (|envs| > 0 && ps[1].escape) ==> m == 0
    ensures |envs| > 0 && m == 0 ==> |envs| <= EscapeLeft(k, ps[0].at, dest)
  {
    if |envs| == 0 {
      m := 0;
    } else {
      assert Hop(Flov, k, envs[0], dest, ps[0], ps[1]);
      FlovShrinks(k, envs[0], dest, ps[0], ps[1]);
      assert Run(Flov, k, dest, envs[1..], ps[1..]) by {
        forall i | 0 <= i < |envs| - 1 ensures Hop(Flov, k, envs[1..][i], dest, ps[1..][i], ps[1..][i + 1]) {
          assert Hop(Flov, k, envs[i + 1], dest, ps[i + 1], ps[i + 2]);
        }
      }
      var n := FlovDelivers(k, dest, envs[1..], ps[1..]);
      m := if ps[1].escape then 0 else n + 1;
    }
  }

  // ---------- opt_rflov_mesh and opt_flov_mesh: a measure that every hop lowers ----------

  /** Column distance, then whether the last hop went north (a regular packet that turns back
      south takes the escape channel), then rows left in the current vertical direction. */
  function OptMeasure(k: int, dest: Node, p: Packet): int {
    var dx := Dx(p.at, dest);
    if dx == 0 then (if p.escape then 0 else k * k) + Distance(p.at, dest)
    else if p.escape then dx * k + (k - 1 - p.at.y)
    else if p.inPort == SOUTH then k * k + (dx * 2) * k + p.at.y
    else k * k + (dx * 2 + 1) * k + (k - 1 - p.at.y)
  }

  lemma Lexicographic(k: int, a: int, r: int, a': int, r': int)
    requires k > 0 && a' < a && r' < k && 0 <= r
    ensures a' * k + r' < a * k + r
  {
    Multiply(a' + 1, a, k);
    assert (a' + 1) * k == a' * k + k;
  }

  lemma MeasureBound(k: int, dest: Node, p: Packet)
    requires InMesh(k, p.at) && InMesh(k, dest)
    ensures 0 <= OptMeasure(k, dest, p) < 3 * (k * k)
    ensures p.escape ==> OptMeasure(k, dest, p) < k * k
    ensures !p.escape ==> k * k <= OptMeasure(k, dest, p)
  {
    ColumnBound(k, Dx(p.at, dest));
  }

  lemma ColumnBound(k: int, dx: int)
    requires 0 <= dx < k
    ensures 0 <= dx * k && dx * k + k <= k * k && k <= k * k
    ensures 0 <= dx * 2 * k && (dx * 2 + 1) * k + k <= 2 * (k * k) && (dx * 2) * k + k <= (dx * 2 + 1) * k
  {
    Multiply(0, dx, k);
    Multiply(dx + 1, k, k);
    Multiply(1, k, k);
    assert (dx + 1) * k == dx * k + k;
    Double(k, dx);
  }

  lemma Double(k: int, dx: int)
    ensures dx * 2 * k == 2 * (dx * k) && (dx * 2 + 1) * k == 2 * (dx * k) + k
  {
  }

  lemma OptShrinks(alg: Algorithm, k: int, env: Env, dest: Node, p: Packet, q: Packet)
    requires alg != Flov && Hop(alg, k, env, dest, p, q)
    ensures OptMeasure(k, dest, q) < OptMeasure(k, dest, p)
  {
    HopShaped(alg, k, env, dest, p, q);
    OptHop(alg, k, env.off, p.at, p.inPort, dest, p.escape || env.late);
    MeasureBound(k, dest, p);
    MeasureBound(k, dest, q);
    if q.escape == p.escape {
      var a, b := Dx(p.at, dest), Dx(q.at, dest);
      if b < a {
        OptShrinksX(k, dest, p, q);
      } else if a > 0 && !p.escape && p.inPort != SOUTH && q.inPort == SOUTH {
        Lexicographic(k, a * 2 + 1, k - 1 - p.at.y, a * 2, q.at.y);
      }
    }
  }

  lemma OptShrinksX(k: int, dest: Node, p: Packet, q: Packet)
    requires InMesh(k, p.at) && InMesh(k, q.at) && InMesh(k, dest) && p.escape == q.escape
    requires Dx(q.at, dest) < Dx(p.at, dest)
    requires Dx(q.at, dest) == 0 ==> Distance(q.at, dest) <= k - 1
    ensures OptMeasure(k, dest, q) < OptMeasure(k, dest, p)
  {
    var a, b := Dx(p.at, dest), Dx(q.at, dest);
    var r' := if b == 0 then Distance(q.at, dest) else if p.escape || q.inPort != SOUTH then k - 1 - q.at.y else q.at.y;
    var r := if p.escape || p.inPort != SOUTH then k - 1 - p.at.y else p.at.y;
    if p.escape {
      Lexicographic(k, a, r, b, r');
    } else {
      var b' := if b == 0 then 0 else if q.inPort == SOUTH then b * 2 else b * 2 + 1;
      Lexicographic(k, if p.inPort == SOUTH then a * 2 else a * 2 + 1, r, b', r');
    }
  }

  /** Delivery by `opt_rflov_mesh` and `opt_flov_mesh`: fewer than 3k^2 hops from anywhere,
      whatever power maps and time-outs the packet meets. */
  lemma {:induction false} OptDelivers(alg: Algorithm, k: int, dest: Node, envs: seq<Env>, ps: seq<Packet>)
    requires alg != Flov && Run(alg, k, dest, envs, ps) && InMesh(k, ps[0].at) && InMesh(k, dest)
    ensures InMesh(k, ps[|envs|].at)
    ensures |envs| + OptMeasure(k, dest, ps[|envs|]) <= OptMeasure(k, dest, ps[0])
    ensures |envs| < 3 * (k * k)
    ensures forall i | 0 <= i < |envs| && ps[i].escape :: ps[i + 1].escape
  {
    var n := |envs|;
    if n > 0 {
      assert Hop(alg, k, envs[n - 1], dest, ps[n - 1], ps[n]);
      assert Run(alg, k, dest, envs[..n - 1], ps[..n]) by {
        forall i | 0 <= i < n - 1 ensures Hop(alg, k, envs[..n - 1][i], dest, ps[..n][i], ps[..n][i + 1]) {
          assert Hop(alg, k, envs[i], dest, ps[i], ps[i + 1]);
        }
      }
      OptDelivers(alg, k, dest, envs[..n - 1], ps[..n]);
      HopShaped(alg, k, envs[n - 1], dest, ps[n - 1], ps[n]);
      OptShrinks(alg, k, envs[n - 1], dest, ps[n - 1], ps[n]);
    }
    MeasureBound(k, dest, ps[0]);
    MeasureBound(k, dest, ps[n]);
  }

  // ---------- deadlock freedom of the escape channel ----------

  /** Rank of the escape buffer behind input port `inPort` of router `at`: row by row for flits
      that came south, east or west, and above them, from south to north, those that came north. */
  function Rank(k: int, at: Node, inPort: int): int {
    if inPort == NORTH then at.y * (k + 1)
    else if inPort == WEST then at.y * (k + 1) + 1 + at.x
    else if inPort == EAST then at.y * (k + 1) + k - at.x
    else k * (k + 1) + (k - 1 - at.y)
  }

  /** A packet that holds escape buffer `q` asks for escape buffer `r`. */
  ghost predicate Waits(alg: Algorithm, k: int, q: Packet, r: Packet) {
    exists dest, p, env, env' ::
      Hop(alg, k, env, dest, p, q) && Hop(alg, k, env', dest, q, r) && q.escape && r.escape
  }

  lemma ShapesRise(k: int, dest: Node, at: Node, c: Choice, q: Packet, c': Choice, r: Packet)
    requires InMesh(k, at) && InMesh(k, dest) && c.escape && c'.escape
    requires HopShape(k, dest, at, c, q.at) && q.inPort == Opposite(c.port)
    requires HopShape(k, dest, q.at, c', r.at) && r.inPort == Opposite(c'.port)
    ensures Rank(k, q.at, q.inPort) < Rank(k, r.at, r.inPort)
  {
    if r.inPort == SOUTH {
      if q.inPort != SOUTH { Lexicographic(k + 1, k, k - 1 - r.at.y, q.at.y, k); }
    } else if r.at.y > q.at.y {
      Lexicographic(k + 1, r.at.y, 0, q.at.y, k);
    }
  }

  /** Whoever waits, waits for a buffer of higher rank. */
  lemma RankRises(alg: Algorithm, k: int, q: Packet, r: Packet)
    requires Waits(alg, k, q, r)
    ensures Rank(k, q.at, q.inPort) < Rank(k, r.at, r.inPort)
  {
    var dest, p, env, env' :|
      Hop(alg, k, env, dest, p, q) && Hop(alg, k, env', dest, q, r) && q.escape && r.escape;
    HopShaped(alg, k, env, dest, p, q);
    HopShaped(alg, k, env', dest, q, r);
    ShapesRise(k, dest, p.at, Choose(alg, k, env.off, p.at, p.inPort, dest, p.escape || env.late), q,
               Choose(alg, k, env'.off, q.at, q.inPort, dest, q.escape || env'.late), r);
  }

  /** The escape channels cannot deadlock: no chain of waiting packets closes into a cycle. */
  lemma {:induction false} EscapeAcyclic(alg: Algorithm, k: int, chain: seq<Packet>)
    requires |chain| > 1 && forall i | 0 <= i < |chain| - 1 :: Waits(alg, k, chain[i], chain[i + 1])
    ensures Rank(k, chain[0].at, chain[0].inPort) < Rank(k, chain[|chain| - 1].at, chain[|chain| - 1].inPort)
    ensures (chain[0].at, chain[0].inPort) != (chain[|chain| - 1].at, chain[|chain| - 1].inPort)
  {
    var n := |chain|;
    RankRises(alg, k, chain[n - 2], chain[n - 1]);
    if n > 2 {
      EscapeAcyclic(alg, k, chain[..n - 1]);
    }
  }

  // ---------- the shape of an escape run ----------

  /** Direction in which a packet has made its last hop. */
  function Moved(p: Packet): int {
    Opposite(p.inPort)
  }

  /** After a hop to the north on the escape channel the packet goes on north; and on that of
      `flov_mesh` it goes south only after a hop to the south. */
  lemma EscapeStep(alg: Algorithm, k: int, env: Env, env': Env, dest: Node, p: Packet, q: Packet, r: Packet)
    requires Hop(alg, k, env, dest, p, q) && Hop(alg, k, env', dest, q, r) && q.escape
    ensures Moved(q) == NORTH ==> Moved(r) == NORTH
    ensures alg == Flov && Moved(r) == SOUTH ==> Moved(q) == SOUTH
  {
    HopShaped(alg, k, env, dest, p, q);
    HopShaped(alg, k, env', dest, q, r);
    if alg == Flov {
      FlovHop(k, env.off, p.at, dest, p.escape || env.late);
      FlovHop(k, env'.off, q.at, dest, q.escape || env'.late);
    } else {
      OptHop(alg, k, env'.off, q.at, q.inPort, dest, q.escape || env'.late);
    }
  }

  lemma SideKept(alg: Algorithm, k: int, env: Env, dest: Node, p: Packet, q: Packet)
    requires Hop(alg, k, env, dest, p, q)
    ensures Moved(q) == EAST ==> p.at.x < q.at.x <= dest.x
    ensures Moved(q) == WEST ==> dest.x <= q.at.x < p.at.x
    ensures p.at.x <= dest.x ==> q.at.x <= dest.x
    ensures p.at.x >= dest.x ==> q.at.x >= dest.x
    ensures q.inPort == Opposite(Moved(q)) && EAST <= Moved(q) <= NORTH
  {
    HopShaped(alg, k, env, dest, p, q);
  }

  lemma {:induction false} SideStays(alg: Algorithm, k: int, dest: Node, envs: seq<Env>, ps: seq<Packet>, i: nat, j: nat)
    requires Run(alg, k, dest, envs, ps) && i <= j <= |envs|
    ensures ps[i].at.x <= dest.x ==> ps[j].at.x <= dest.x
    ensures ps[i].at.x >= dest.x ==> ps[j].at.x >= dest.x
  {
    if i < j {
      SideStays(alg, k, dest, envs, ps, i, j - 1);
      assert Hop(alg, k, envs[j - 1], dest, ps[j - 1], ps[j]);
      SideKept(alg, k, envs[j - 1], dest, ps[j - 1], ps[j]);
    }
  }

  /** No run goes both east and west. */
  lemma OneSideOnly(alg: Algorithm, k: int, dest: Node, envs: seq<Env>, ps: seq<Packet>, i: nat, j: nat)
    requires Run(alg, k, dest, envs, ps) && 1 <= i < j <= |envs|
    ensures !(Moved(ps[i]) == EAST && Moved(ps[j]) == WEST) && !(Moved(ps[i]) == WEST && Moved(ps[j]) == EAST)
  {
    assert Hop(alg, k, envs[i - 1], dest, ps[i - 1], ps[i]);
    assert Hop(alg, k, envs[j - 1], dest, ps[j - 1], ps[j]);
    SideKept(alg, k, envs[i - 1], dest, ps[i - 1], ps[i]);
    SideKept(alg, k, envs[j - 1], dest, ps[j - 1], ps[j]);
    SideStays(alg, k, dest, envs, ps, i - 1, j - 1);
  }

  /** On the escape channel a run never leaves the north again. On that of `flov_mesh` it does not return
      to the south either: it goes south first, then east or west, then north. */
  lemma {:induction false} EscapeShape(alg: Algorithm, k: int, dest: Node, envs: seq<Env>, ps: seq<Packet>, i: nat, j: nat)
    requires Run(alg, k, dest, envs, ps) && 1 <= i < j <= |envs| && ps[i].escape
    ensures ps[j - 1].escape
    ensures Moved(ps[i]) == NORTH ==> Moved(ps[j]) == NORTH
    ensures alg == Flov && Moved(ps[j]) == SOUTH ==> Moved(ps[i]) == SOUTH
    decreases j
  {
    assert Hop(alg, k, envs[j - 2], dest, ps[j - 2], ps[j - 1]);
    assert Hop(alg, k, envs[j - 1], dest, ps[j - 1], ps[j]);
    if i < j - 1 {
      EscapeShape(alg, k, dest, envs, ps, i, j - 1);
      EscapeKept(alg, k, envs[j - 2], dest, ps[j - 2], ps[j - 1]);
    }
    EscapeStep(alg, k, envs[j - 2], envs[j - 1], dest, ps[j - 2], ps[j - 1], ps[j]);
  }

  lemma EscapeKept(alg: Algorithm, k: int, env: Env, dest: Node, p: Packet, q: Packet)
    requires Hop(alg, k, env, dest, p, q)
    ensures p.escape ==> q.escape
  {
    HopShaped(alg, k, env, dest, p, q);
  }
}
