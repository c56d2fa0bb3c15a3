/** Routing along the ring with a dateline: `ring_dateline_mesh`, and when it cannot deadlock. */
module DatelineRing {
  import opened Ports
  import opened Mesh
  import opened FlovFunctions
  import opened NordRing

  /** Where a packet asks for a channel: in its node, in the interface of a gated router that it has
      reached on some channel, or in a router. */
  datatype Origin = Fresh | Passing(vc: int) | InRouter(vc: int, dateline: bool)

  /** The packet belongs beyond the dateline: it leaves the router at the dateline, or it has come on
      a channel of the upper half. */
  predicate Beyond(vcs: int, origin: Origin) {
    match origin
    case Fresh => false
    case Passing(vc) => vc >= vcs / 2
    case InRouter(vc, dateline) => dateline || vc >= vcs / 2
  }

  /** The channels for it: those of its half. The middle one of an odd number serves both halves. */
  predicate Granted(vcs: int, origin: Origin, vc: int) {
    0 <= vc < vcs && ((vcs % 2 == 1 && vc == vcs / 2) || (vc >= vcs / 2) == Beyond(vcs, origin))
  }

  method RingDatelineMesh(vcs: nat, cur: nat, dest: nat, nodes: nat, vc: int, bypassVc: int, inject: bool, ringOut: int)
    returns (outPort: int, vcBegin: int, vcEnd: int)
    requires vcs >= 2
    ensures
      var origin := if inject then (if bypassVc == -1 then Fresh else Passing(bypassVc)) else InRouter(vc, cur == nodes - 1);
      var eject := !inject && cur == dest;
      && outPort == (if inject then -1 else if eject then LOCAL else ringOut)
      && forall w :: vcBegin <= w <= vcEnd <==> if eject then 0 <= w < vcs else Granted(vcs, origin, w)
  {
    vcBegin, vcEnd := 0, vcs - 1;
    outPort := -1;
    if inject {
      if bypassVc != -1 {
        if bypassVc < vcs / 2 { vcEnd := vcEnd / 2; } else { vcBegin := vcs / 2; }
      } else {
        vcEnd := vcEnd / 2;
      }
      outPort := -1;
    } else if cur == dest {
      outPort := LOCAL;
    } else {
      if cur == nodes - 1 {
        vcBegin := vcs / 2;
      } else {
        if vc < vcs / 2 { vcEnd := vcEnd / 2; } else { vcBegin := vcs / 2; }
      }
      outPort := ringOut;
    }
  }

  /** Between them the halves use every channel, and each half has at least one. */
  lemma HalvesCover(vcs: int, w: int)
    requires vcs >= 2 && 0 <= w < vcs
    ensures Granted(vcs, Fresh, w) || Granted(vcs, InRouter(w, true), w)
    ensures Granted(vcs, Fresh, 0) && Granted(vcs, InRouter(w, true), vcs - 1)
  {
  }

  /** The router at the dateline, the last one by number, has this ring position. */
  lemma DatelineAt(k: nat, n: Node)
    requires k >= 2 && k % 2 == 0 && InMesh(k, n)
    ensures Id(k, n) == k * k - 1 <==> RingId(k, n) == 2 * (k - 1)
  {
    var last := Node(k - 1, k - 1);
    assert (k - (k - 1)) * (k - 1) == k - 1 && (k - 1) % 2 == 1;
    assert RingId(k, last) == 2 * (k - 1);
    assert Id(k, last) == k * k - 1;
    if n != last {
      PositionsDiffer(k, n, last);
      IdDigits(k, n);
      IdDigits(k, last);
    }
  }

  // ---------- packets on the ring ----------

  /** A channel: along the ring out of the router at position `p`, or from the interface into it. */
  datatype Channel = Ring(p: int, vc: int) | Interface(p: int, vc: int)

  /** `line` is the position of the router at the dateline. */
  datatype Setup = Setup(n: int, vcs: int, line: int) {
    predicate Valid() {
      n >= 3 && vcs >= 2 && 0 <= line < n
    }
  }

  /** A packet to position `d` gets its first channel, in its node. */
  predicate Enters(c: Setup, d: int, a: Channel) {
    a.Interface? && 0 <= a.p < c.n && 0 <= d < c.n && a.p != d && Granted(c.vcs, Fresh, a.vc)
  }

  /** On channel `a` it asks for channel `b`: of the ring, from the router that it has reached, or
      into this router, if it is gated and hands packets to its interface. */
  predicate Asks(c: Setup, d: int, a: Channel, b: Channel) {
    var q := if a.Ring? then After(c.n, a.p) else a.p;
    && q != d && b.p == q
    && if b.Ring? then Granted(c.vcs, InRouter(a.vc, q == c.line), b.vc)
       else a.Ring? && Granted(c.vcs, Passing(a.vc), b.vc)
  }

  /** The channels that a packet has had so far. */
  ghost predicate Route(c: Setup, d: int, route: seq<Channel>) {
    && |route| > 0 && Enters(c, d, route[0])
    && forall i | 0 <= i < |route| - 1 :: Asks(c, d, route[i], route[i + 1])
  }

  /** Some packet holds `a` and asks for `b`. */
  ghost predicate Waits(c: Setup, a: Channel, b: Channel) {
    exists d, route :: Route(c, d, route) && route[|route| - 1] == a && Asks(c, d, a, b)
  }

  ghost predicate Chain(c: Setup, chain: seq<Channel>) {
    |chain| > 1 && forall i | 0 <= i < |chain| - 1 :: Waits(c, chain[i], chain[i + 1])
  }

  // ---------- an even number of channels ----------

  /** Position counted from the router behind the dateline. */
  function Turned(c: Setup, p: int): int {
    if p > c.line then p - c.line - 1 else p - c.line - 1 + c.n
  }

  /** The router that a packet on channel `a` has come to lies `hops` links behind its source, and
      the packet is in the upper half exactly if it has left the router at the dateline. */
  ghost predicate HalfKept(c: Setup, s: int, d: int, a: Channel) {
    && 0 <= s < c.n && 0 <= d < c.n && 0 <= a.p < c.n && 0 <= a.vc < c.vcs
    && RingHops(c.n, s, a.p) < RingHops(c.n, s, d)
    && (a.vc >= c.vcs / 2 <==> Turned(c, a.p) < Turned(c, s) || (a.Ring? && a.p == c.line))
  }

  lemma StepKeepsHalf(c: Setup, s: int, d: int, a: Channel, b: Channel)
    requires c.Valid() && c.vcs % 2 == 0 && HalfKept(c, s, d, a) && Asks(c, d, a, b)
    ensures HalfKept(c, s, d, b)
  {
    if a.Ring? {
      assert Turned(c, After(c.n, a.p)) == if a.p == c.line then 0 else Turned(c, a.p) + 1;
    }
  }

  /** Half and dateline agree on every channel that a packet ever holds. */
  lemma {:induction false} RouteKeepsHalf(c: Setup, d: int, route: seq<Channel>)
    requires c.Valid() && c.vcs % 2 == 0 && Route(c, d, route)
    ensures HalfKept(c, route[0].p, d, route[|route| - 1])
  {
    var l := |route| - 1;
    if l > 0 {
      assert Route(c, d, route[..l]);
      RouteKeepsHalf(c, d, route[..l]);
      StepKeepsHalf(c, route[0].p, d, route[l - 1], route[l]);
    }
  }

  function Rank(c: Setup, a: Channel): int {
    var high := a.vc >= c.vcs / 2 && !(a.Ring? && a.p == c.line);
    2 * Turned(c, a.p) + (if a.Ring? then 1 else 0) + (if high then 2 * c.n else 0)
  }

  lemma RankRises(c: Setup, a: Channel, b: Channel)
    requires c.Valid() && c.vcs % 2 == 0 && Waits(c, a, b)
    ensures Rank(c, a) < Rank(c, b)
  {
    var d, route: seq<Channel> :| Route(c, d, route) && route[|route| - 1] == a && Asks(c, d, a, b);
    var s := route[0].p;
    RouteKeepsHalf(c, d, route);
    StepKeepsHalf(c, s, d, a, b);
  }

  lemma {:induction false} ChainRises(c: Setup, chain: seq<Channel>)
    requires c.Valid() && c.vcs % 2 == 0 && Chain(c, chain)
    ensures Rank(c, chain[0]) < Rank(c, chain[|chain| - 1])
  {
    var l := |chain| - 1;
    RankRises(c, chain[l - 1], chain[l]);
    if l > 1 {
      assert Chain(c, chain[..l]);
      ChainRises(c, chain[..l]);
    }
  }

  // ---------- an odd number of channels ----------

  /** The middle channel once around the ring. */
  function Middle(c: Setup, i: int): Channel {
    Ring(if i == c.n then 0 else i, c.vcs / 2)
  }

  /** A packet from position `i` to the one after next holds the middle channel and asks for it. */
  lemma MiddleWaits(c: Setup, i: int)
    requires c.Valid() && c.vcs % 2 == 1 && 0 <= i < c.n
    ensures Waits(c, Middle(c, i), Middle(c, i + 1))
  {
    var d := After(c.n, After(c.n, i));
    var route := [Interface(i, 0), Middle(c, i)];
    assert Route(c, d, route);
  }

  /** No chain of waiting packets closes exactly if the number of channels is even. */
  lemma AcyclicIffEven(c: Setup)
    requires c.Valid()
    ensures (forall chain | Chain(c, chain) :: chain[0] != chain[|chain| - 1]) <==> c.vcs % 2 == 0
  {
    if c.vcs % 2 == 0 {
      forall chain | Chain(c, chain) ensures chain[0] != chain[|chain| - 1] { ChainRises(c, chain); }
    } else {
      var chain := seq(c.n + 1, i requires 0 <= i <= c.n => Middle(c, i));
      forall i | 0 <= i < |chain| - 1 ensures Waits(c, chain[i], chain[i + 1]) { MiddleWaits(c, i); }
      assert Chain(c, chain);
    }
  }
}
