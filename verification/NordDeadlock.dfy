/** When NoRD's escape channels can deadlock. */
module NordDeadlock {
  import opened Ports
  import opened Mesh
  import opened FlovRouting
  import opened FlovFunctions
  import opened NordRing
  import opened NordEscape
  import Matchings

  // ---------- when no chain of waiting packets closes ----------

  /** The channel for packets that have passed position 0 or need not pass it. */
  function Low(c: Setup): int {
    c.cls.vcEnd - 1
  }

  /** Order of the channels along the ring, from position 0 twice around; an interface comes with the
      ring channel behind it. */
  function Index(c: Setup, a: Channel): int {
    match a
    case Ring(p, vc) => if vc == Low(c) then c.n + p else p
    case Interface(q, vc) => if q == 0 || vc == Low(c) then c.n + q else q
  }

  /** The node puts a packet whose destination lies behind on the channel for packets beyond position 0,
      at a gated router that others pass on this channel. */
  ghost predicate Backward(c: Setup, e: (int, int, int)) {
    e in c.injected && e.0 in c.gated && e.1 == Low(c) && 1 <= e.0 <= c.n - 2 && e.2 < e.0
  }

  /** A router that does not stay off. */
  ghost predicate Open(c: Setup, a: Node) {
    InMesh(c.k, a) && RingId(c.k, a) !in c.off
  }

  /** A link between two such routers that is not one of the ring. */
  ghost predicate Chord(c: Setup, a: Node, port: int) {
    && EAST <= port <= NORTH && Open(c, a) && Open(c, Ahead(a, port, 1))
    && port != RingPorts(c.k, a).0 && port != RingPorts(c.k, a).1
  }

  /** The link of the ring, taken backwards from a router that may be gated. */
  ghost predicate BackLink(c: Setup, a: Node) {
    RingId(c.k, a) in c.gated && Open(c, a) && Open(c, Ahead(a, RingPorts(c.k, a).0, 1))
  }

  /** A way off the ring. */
  ghost predicate Shortcut(c: Setup) {
    (exists a, port :: Chord(c, a, port)) || (exists a :: BackLink(c, a))
  }

  /** No node injects backwards; and if a packet may be too long for an interface and some router may be
      gated, there is no way off the ring. */
  ghost predicate Deadlockless(c: Setup) {
    (forall e :: !Backward(c, e)) && (c.spans && c.gated != {} ==> !Shortcut(c))
  }

  ghost function Rank(c: Setup, a: Channel): int {
    if a.Ring? then 4 * Index(c, a) + 2
    else if a.p !in c.gated || (a.p == c.n - 1 && a.vc == Low(c)) then -1
    else if a.p == 0 && a.vc == Low(c) then 4 * c.n + 1
    else 4 * Index(c, a)
  }

  lemma Size(c: Setup)
    requires c.Valid()
    ensures c.n >= 4
  {
    AtLeastFour(c.k);
  }

  // ---------- without a way off the ring ----------

  /** A regular hop off the ring is over a chord, or back from a router that may be gated. */
  lemma HopOffRing(c: Setup, b: Node, s: Place, t: Place, v: View, port: int)
    requires s.at != b && InMesh(c.k, s.at) && InMesh(c.k, t.at) && Possible(c, s.at, v) && Moves(v, b, s, t, port)
    requires s.inPort == RingPorts(c.k, s.at).0 || RingId(c.k, s.at) in c.gated
    requires port != RingPorts(c.k, s.at).1
    ensures Chord(c, s.at, port) || BackLink(c, s.at)
  {
    assert Free(v, s.inPort, port);
    assert Agrees(c, s.at, v.self) && Agrees(c, t.at, v.power[port]);
  }

  /** Then regular packets follow the ring, too. */
  lemma HopOnRing(c: Setup, b: Node, s: Place, t: Place)
    requires c.Valid() && !Shortcut(c) && InMesh(c.k, s.at) && RegularHop(c, b, s, t)
    requires s.inPort == RingPorts(c.k, s.at).0 || RingId(c.k, s.at) in c.gated
    ensures t.at == RingNext(c.k, s.at) && (t.inPort == RingPorts(c.k, t.at).0 || RingId(c.k, t.at) in c.gated)
  {
    var v: View, port :| Possible(c, s.at, v) && Moves(v, b, s, t, port);
    if port != RingPorts(c.k, s.at).1 { HopOffRing(c, b, s, t, v, port); }
    Follows(c.k, s.at);
  }

  lemma OneFurther(n: int, s: int, p: int, d: int)
    requires 0 <= s < n && 0 <= p < n && 0 <= d < n && RingHops(n, s, p) < RingHops(n, s, d) && After(n, p) != d
    ensures RingHops(n, s, After(n, p)) == RingHops(n, s, p) + 1 < RingHops(n, s, d)
  {
  }

  /** After `i` hops the packet is `i` positions further, and has not passed its destination. */
  lemma {:induction false} PathOnRing(c: Setup, b: Node, path: seq<Place>, i: nat)
    requires c.Valid() && !Shortcut(c) && Path(c, b, path) && i < |path| && InMesh(c.k, b)
    requires RingId(c.k, path[0].at) in c.gated && path[i].at != b
    ensures InMesh(c.k, path[i].at) && (path[i].inPort == RingPorts(c.k, path[i].at).0 || RingId(c.k, path[i].at) in c.gated)
    ensures i == RingHops(c.n, RingId(c.k, path[0].at), RingId(c.k, path[i].at))
              < RingHops(c.n, RingId(c.k, path[0].at), RingId(c.k, b))
  {
    if i > 0 {
      assert RegularHop(c, b, path[i - 1], path[i]);
      PathOnRing(c, b, path, i - 1);
      HopOnRing(c, b, path[i - 1], path[i]);
      StillAhead(c, b, path[0].at, path[i - 1].at, path[i].at);
    } else {
      Positions(c, path[0].at, b);
    }
  }

  lemma Positions(c: Setup, a: Node, b: Node)
    requires c.Valid() && InMesh(c.k, a) && InMesh(c.k, b) && a != b
    ensures 0 <= RingId(c.k, a) < c.n && 0 <= RingId(c.k, b) < c.n && RingId(c.k, a) != RingId(c.k, b)
  {
    PositionRange(c.k, a);
    PositionRange(c.k, b);
    PositionsDiffer(c.k, a, b);
  }

  lemma StillAhead(c: Setup, b: Node, s: Node, p: Node, q: Node)
    requires c.Valid() && InMesh(c.k, s) && InMesh(c.k, p) && InMesh(c.k, b) && q == RingNext(c.k, p) && q != b && p != b
    requires RingHops(c.n, RingId(c.k, s), RingId(c.k, p)) < RingHops(c.n, RingId(c.k, s), RingId(c.k, b))
    ensures InMesh(c.k, q)
    ensures RingHops(c.n, RingId(c.k, s), RingId(c.k, q)) == RingHops(c.n, RingId(c.k, s), RingId(c.k, p)) + 1
              < RingHops(c.n, RingId(c.k, s), RingId(c.k, b))
  {
    NextPosition(c.k, p);
    Positions(c, p, b);
    Positions(c, q, b);
    PositionRange(c.k, s);
    OneFurther(c.n, RingId(c.k, s), RingId(c.k, p), RingId(c.k, b));
  }

  /** A packet from a gated router comes to positions before its destination only. */
  lemma ComesAhead(c: Setup, s: int, d: int, p: int)
    requires c.Valid() && !Shortcut(c) && s in c.gated && Comes(c, s, d, p)
    ensures 0 < RingHops(c.n, s, p) < RingHops(c.n, s, d)
  {
    var b: Node, path: seq<Place> :| Brings(c, s, d, p, b, path);
    assert path[|path| - 1].at != b;
    PathOnRing(c, b, path, |path| - 1);
  }

  // ---------- ranks rise ----------

  /** A packet that waits goes on to the next escape channel, or is at its own interface. */
  lemma Waiting(c: Setup, a: Channel, b: Channel) returns (d: int, g: Stage, h: Stage)
    requires c.Valid() && WaitsFor(c, a, b)
    ensures g.a == a && h.a == b && 0 <= a.p < c.n && 0 <= d < c.n && a.p != d && IsEscape(c.cls, a.vc)
    ensures a.Ring? ==> a.vc == EscapeVc(c.cls, d, a.p)
    ensures a.Interface? && a.p in c.gated ==> a.vc == EscapeVc(c.cls, d, a.p) || a.p == 0 || (a.p, a.vc, d) in c.injected
    ensures Asks(c, d, g, h) || (c.spans && a.Interface? && FromRegular(c, a.p, d, h))
  {
    var s, route: seq<Stage>;
    s, d, route, h :| Holds(c, s, d, route, h, a, b);
    g := route[|route| - 1];
    HeldChannel(c, s, d, route);
  }

  lemma RingRises(c: Setup, d: int, g: Stage, h: Stage)
    requires c.Valid() && c.n >= 4 && g.a.Ring? && Asks(c, d, g, h)
    requires 0 <= g.a.p < c.n && 0 <= d < c.n && g.a.p != d && g.a.vc == EscapeVc(c.cls, d, g.a.p)
    ensures Rank(c, g.a) < Rank(c, h.a)
  {
  }

  /** From an interface into the router behind it. */
  lemma ThroughRises(c: Setup, d: int, q: int, v: int)
    requires c.Valid() && c.n >= 4 && !Backward(c, (q, v, d)) && 0 <= q < c.n && 0 <= d < c.n && q != d && IsEscape(c.cls, v)
    requires q in c.gated ==> v == EscapeVc(c.cls, d, q) || q == 0 || (q, v, d) in c.injected
    ensures Rank(c, Interface(q, v)) < Rank(c, Ring(q, EscapeVc(c.cls, d, q)))
  {
  }

  /** From a packet's own interface on regular channels. */
  lemma LeavingRises(c: Setup, d: int, q: int, v: int, h: Stage)
    requires c.Valid() && c.n >= 4 && !Backward(c, (q, v, d)) && 0 <= q < c.n && 0 <= d < c.n && q != d && IsEscape(c.cls, v)
    requires q in c.gated && (v == EscapeVc(c.cls, d, q) || q == 0 || (q, v, d) in c.injected)
    requires FromRegular(c, q, d, h) && 0 < RingHops(c.n, q, h.a.p) < RingHops(c.n, q, d)
    ensures Rank(c, Interface(q, v)) < Rank(c, h.a)
  {
    assert h.a.vc == EscapeVc(c.cls, d, h.a.p);
  }

  /** Nothing that a packet asks for comes before the interfaces that nobody asks for. */
  lemma AskedRank(c: Setup, d: int, g: Stage, h: Stage)
    requires c.Valid() && c.n >= 4 && g.a.Interface? && 0 <= g.a.p < c.n && 0 <= d < c.n
    requires Asks(c, d, g, h) || FromRegular(c, g.a.p, d, h)
    ensures Rank(c, h.a) >= 0
  {
  }

  lemma RankRises(c: Setup, a: Channel, b: Channel)
    requires c.Valid() && WaitsFor(c, a, b) && Deadlockless(c)
    ensures Rank(c, a) < Rank(c, b)
  {
    Size(c);
    var d, g, h := Waiting(c, a, b);
    assert !Backward(c, (a.p, a.vc, d));
    if a.Ring? {
      RingRises(c, d, g, h);
    } else if a.p !in c.gated {
      AskedRank(c, d, g, h);
    } else if Asks(c, d, g, h) {
      ThroughRises(c, d, a.p, a.vc);
    } else {
      ComesAhead(c, a.p, d, b.p);
      LeavingRises(c, d, a.p, a.vc, h);
    }
  }

  lemma {:induction false} ChainRises(c: Setup, chain: seq<Channel>)
    requires c.Valid() && Chain(c, chain) && Deadlockless(c)
    ensures Rank(c, chain[0]) < Rank(c, chain[|chain| - 1])
  {
    var l := |chain| - 1;
    RankRises(c, chain[l - 1], chain[l]);
    if l > 1 {
      assert Chain(c, chain[..l]);
      ChainRises(c, chain[..l]);
    }
  }

  // ---------- a way off the ring: packets that come round ----------

  /** The channel on which a packet comes round to position `q`. */
  function RoundVc(c: Setup, d: int, q: int): int {
    if q == 0 then c.cls.vcEnd else EscapeVc(c.cls, d, q)
  }

  /** Regular channels can bring the packet to a position from where the ring passes its own node before
      the destination. */
  ghost predicate Round(c: Setup, e: (int, int, int)) {
    exists p :: Comes(c, e.0, e.2, p) && p != e.0 && RingHops(c.n, p, e.0) < RingHops(c.n, p, e.2)
  }

  /** What the routers are when all but those that stay off are powered on. */
  function Truth(c: Setup, a: Node): View {
    View(0, 0, RingPorts(c.k, a).1,
         [StateOf(c, Ahead(a, EAST, 1)), StateOf(c, Ahead(a, WEST, 1)),
          StateOf(c, Ahead(a, SOUTH, 1)), StateOf(c, Ahead(a, NORTH, 1))],
         StateOf(c, a), [])
  }

  function StateOf(c: Setup, a: Node): PowerState {
    if RingId(c.k, a) in c.off then PowerOff else PowerOn
  }

  lemma TruthPossible(c: Setup, a: Node)
    requires c.Valid()
    ensures Possible(c, a, Truth(c, a))
  {
  }

  /** On along the ring, where no chord leads away. */
  lemma RingGranted(c: Setup, b: Node, s: Place)
    requires c.Valid() && InMesh(c.k, s.at) && InMesh(c.k, b) && s.at != b
    requires s.inPort == RingPorts(c.k, s.at).0 || (s.inPort == LOCAL && !Open(c, s.at))
    requires forall port :: !Chord(c, s.at, port)
    ensures RegularHop(c, b, s, Place(RingNext(c.k, s.at), RingPorts(c.k, RingNext(c.k, s.at)).0))
  {
    var v, out := Truth(c, s.at), RingPorts(c.k, s.at).1;
    TruthPossible(c, s.at);
    Follows(c.k, s.at);
    var t := Place(RingNext(c.k, s.at), RingPorts(c.k, RingNext(c.k, s.at)).0);
    OnlyRing(c, b, s);
    assert Moves(v, b, s, t, out);
  }

  lemma OnlyRing(c: Setup, b: Node, s: Place)
    requires s.at != b && InMesh(c.k, s.at) && InMesh(c.k, b)
    requires s.inPort == RingPorts(c.k, s.at).0 || (s.inPort == LOCAL && !Open(c, s.at))
    requires forall port :: !Chord(c, s.at, port)
    ensures Offers(Truth(c, s.at), b, s, RingPorts(c.k, s.at).1)
  {
    DorInMesh(c.k, s.at, b);
    FreeIff(c, s, Dor(s.at, b, false));
    FreeIff(c, s, Dor(s.at, b, true));
  }

  /** With the routers as they are a direction is free exactly if it is not back and leads to a router that
      is on, or along the ring. */
  lemma FreeIs(c: Setup, s: Place, port: int)
    requires EAST <= port <= NORTH
    ensures Free(Truth(c, s.at), s.inPort, port) <==>
              && port != s.inPort && RingId(c.k, s.at) !in c.off
              && (RingId(c.k, Ahead(s.at, port, 1)) !in c.off || port == RingPorts(c.k, s.at).1)
  {
    PowerIs(c, s.at, port);
  }

  lemma PowerIs(c: Setup, a: Node, port: int)
    requires EAST <= port <= NORTH
    ensures Truth(c, a).power[port] == StateOf(c, Ahead(a, port, 1))
  {
  }

  lemma FreeIff(c: Setup, s: Place, port: int)
    requires EAST <= port <= NORTH && InMesh(c.k, s.at) && InMesh(c.k, Ahead(s.at, port, 1)) && !Chord(c, s.at, port)
    requires s.inPort == RingPorts(c.k, s.at).0 || (s.inPort == LOCAL && !Open(c, s.at))
    ensures Free(Truth(c, s.at), s.inPort, port) <==> Open(c, s.at) && port == RingPorts(c.k, s.at).1
    ensures s.inPort != RingPorts(c.k, s.at).1
  {
    FreeIs(c, s, port);
    PortsDiffer(c.k, s.at);
  }

  lemma PortsDiffer(k: nat, a: Node)
    ensures RingPorts(k, a).0 != RingPorts(k, a).1 && EAST <= RingPorts(k, a).1 <= NORTH
  {
  }

  lemma DorInMesh(k: nat, a: Node, b: Node)
    requires InMesh(k, a) && InMesh(k, b) && a != b
    ensures InMesh(k, Ahead(a, Dor(a, b, false), 1)) && InMesh(k, Ahead(a, Dor(a, b, true), 1))
  {
  }

  /** Off the ring, for the router that comes before the one reached. */
  lemma SideGranted(c: Setup, s: Place, port: int) returns (q: Node)
    requires c.Valid() && EAST <= port <= NORTH && Open(c, s.at) && Open(c, Ahead(s.at, port, 1)) && port != s.inPort
    requires port != RingPorts(c.k, s.at).1
    ensures InMesh(c.k, q) && RingNext(c.k, q) == Ahead(s.at, port, 1) && q != s.at
    ensures RegularHop(c, q, s, Place(Ahead(s.at, port, 1), Opposite(port)))
  {
    var b := Ahead(s.at, port, 1);
    q := RingBefore(c.k, b);
    NotBefore(c.k, s.at, port, q);
    SideDirection(s.at, port, q, RingPorts(c.k, b).0);
    SideMoves(c, s, port, q);
  }

  lemma NotBefore(k: nat, a: Node, port: int, q: Node)
    requires EAST <= port <= NORTH && RingNext(k, q) == Ahead(a, port, 1) && port != RingPorts(k, a).1
    ensures q != a
  {
    PortsDiffer(k, a);
  }

  lemma SideDirection(a: Node, port: int, q: Node, turn: int)
    requires EAST <= port <= NORTH && EAST <= turn <= NORTH && q == Ahead(Ahead(a, port, 1), turn, 1) && q != a
    ensures port in [Dor(a, q, false), Dor(a, q, true)]
  {
  }

  lemma SideMoves(c: Setup, s: Place, port: int, q: Node)
    requires c.Valid() && EAST <= port <= NORTH && Open(c, s.at) && Open(c, Ahead(s.at, port, 1)) && port != s.inPort
    requires q != s.at && port in [Dor(s.at, q, false), Dor(s.at, q, true)]
    ensures RegularHop(c, q, s, Place(Ahead(s.at, port, 1), Opposite(port)))
  {
    TruthPossible(c, s.at);
    FreeIs(c, s, port);
    assert Moves(Truth(c, s.at), q, s, Place(Ahead(s.at, port, 1), Opposite(port)), port);
  }

  /** A link of the ring that is taken backwards brings a packet to where its own router is next. */
  lemma BackRound(c: Setup, m: Node) returns (d: int, p: int)
    requires c.Valid() && BackLink(c, m)
    ensures 0 <= d < c.n && d != RingId(c.k, m) && Comes(c, RingId(c.k, m), d, p) && p != RingId(c.k, m)
    ensures RingHops(c.n, p, RingId(c.k, m)) < RingHops(c.n, p, d)
  {
    var b := RingBefore(c.k, m);
    PortsDiffer(c.k, m);
    var q := SideGranted(c, Place(m, LOCAL), RingPorts(c.k, m).0);
    d, p := RingId(c.k, q), RingId(c.k, b);
    TwoBefore(c, q, b, m);
    OneHop(c, q, Place(m, LOCAL), Place(b, Opposite(RingPorts(c.k, m).0)));
  }

  lemma TwoBefore(c: Setup, q: Node, b: Node, m: Node)
    requires c.Valid() && InMesh(c.k, q) && InMesh(c.k, b) && b == RingNext(c.k, q) && m == RingNext(c.k, b)
    ensures 0 <= RingId(c.k, q) < c.n && RingId(c.k, q) != RingId(c.k, m)
    ensures RingId(c.k, b) != RingId(c.k, m) && RingId(c.k, b) != RingId(c.k, q)
    ensures RingHops(c.n, RingId(c.k, b), RingId(c.k, m)) < RingHops(c.n, RingId(c.k, b), RingId(c.k, q))
  {
    Size(c);
    NextPosition(c.k, q);
    NextPosition(c.k, b);
    PositionRange(c.k, q);
  }

  lemma OneHop(c: Setup, b: Node, s: Place, t: Place)
    requires c.Valid() && InMesh(c.k, b) && InMesh(c.k, s.at) && s.inPort == LOCAL && RegularHop(c, b, s, t)
    requires RingId(c.k, t.at) != RingId(c.k, b)
    ensures Comes(c, RingId(c.k, s.at), RingId(c.k, b), RingId(c.k, t.at))
  {
    PositionRange(c.k, t.at);
    var path := [s, t];
    assert Path(c, b, path);
    assert Brings(c, RingId(c.k, s.at), RingId(c.k, b), RingId(c.k, t.at), b, path);
  }

  ghost predicate HasChord(c: Setup, a: Node) {
    exists port :: Chord(c, a, port)
  }

  lemma {:induction false} FirstChord(c: Setup, s: Node, h: nat) returns (i: nat)
    requires HasChord(c, Follow(c.k, s, h))
    ensures i <= h && HasChord(c, Follow(c.k, s, i)) && forall j: nat | j < i :: !HasChord(c, Follow(c.k, s, j))
    decreases h
  {
    if j: nat :| j < h && HasChord(c, Follow(c.k, s, j)) { i := FirstChord(c, s, j); } else { i := h; }
  }

  /** From a router that stays off a packet follows the ring as far as no chord leads away. */
  lemma {:induction false} AlongRing(c: Setup, s: Node, i: nat, b: Node) returns (path: seq<Place>)
    requires c.Valid() && InMesh(c.k, s) && RingId(c.k, s) in c.off && InMesh(c.k, b)
    requires 1 <= i < RingHops(c.n, RingId(c.k, s), RingId(c.k, b)) && forall j: nat | j < i :: !HasChord(c, Follow(c.k, s, j))
    ensures Path(c, b, path) && path[0].at == s
    ensures path[|path| - 1] == Place(Follow(c.k, s, i), RingPorts(c.k, Follow(c.k, s, i)).0)
  {
    PositionRange(c.k, s);
    PositionRange(c.k, b);
    var a := Follow(c.k, s, i - 1);
    FollowAt(c.k, s, i - 1);
    FollowOn(c.k, s, i - 1);
    assert !HasChord(c, a);
    if i == 1 {
      RingGranted(c, b, Place(s, LOCAL));
      path := [Place(s, LOCAL), Place(RingNext(c.k, s), RingPorts(c.k, RingNext(c.k, s)).0)];
    } else {
      var before := AlongRing(c, s, i - 1, b);
      var last := before[|before| - 1];
      RingGranted(c, b, last);
      path := Longer(c, b, before, Place(RingNext(c.k, last.at), RingPorts(c.k, RingNext(c.k, last.at)).0));
    }
  }

  lemma Longer(c: Setup, b: Node, before: seq<Place>, t: Place) returns (path: seq<Place>)
    requires Path(c, b, before) && RegularHop(c, b, before[|before| - 1], t)
    ensures path == before + [t] && Path(c, b, path)
  {
    path := before + [t];
    forall i | 0 <= i < |path| - 1 ensures RegularHop(c, b, path[i], path[i + 1]) {
      if i < |before| - 1 { assert RegularHop(c, b, before[i], before[i + 1]); }
    }
  }

  /** The first router with a chord brings a packet to where its own router comes before its destination. */
  lemma ChordRound(c: Setup, s: Node, a0: Node, port0: int) returns (d: int, p: int)
    requires c.Valid() && InMesh(c.k, s) && RingId(c.k, s) in c.off && Chord(c, a0, port0)
    ensures 0 <= d < c.n && d != RingId(c.k, s) && Comes(c, RingId(c.k, s), d, p) && p != RingId(c.k, s)
    ensures RingHops(c.n, p, RingId(c.k, s)) < RingHops(c.n, p, d)
  {
    var i, port := NearestChord(c, s, a0, port0);
    var a := Follow(c.k, s, i);
    var b := Ahead(a, port, 1);
    var q := SideGranted(c, Place(a, RingPorts(c.k, a).0), port);
    FarEnd(c, s, i, port, q);
    var path := AlongRing(c, s, i, q);
    path := Longer(c, q, path, Place(b, Opposite(port)));
    d, p := RingId(c.k, q), RingId(c.k, b);
    Positions(c, q, b);
    assert Brings(c, RingId(c.k, s), d, p, q, path);
  }

  lemma NearestChord(c: Setup, s: Node, a0: Node, port0: int) returns (i: nat, port: int)
    requires c.Valid() && InMesh(c.k, s) && RingId(c.k, s) in c.off && Chord(c, a0, port0)
    ensures 1 <= i < c.n && InMesh(c.k, Follow(c.k, s, i)) && Chord(c, Follow(c.k, s, i), port)
    ensures forall j: nat | j < i :: !HasChord(c, Follow(c.k, s, j))
  {
    RingDelivers(c.k, s, a0);
    i := FirstChord(c, s, RingHops(c.n, RingId(c.k, s), RingId(c.k, a0)));
    FollowAt(c.k, s, i);
    port :| Chord(c, Follow(c.k, s, i), port);
  }

  /** A chord can be taken from either end. */
  lemma ChordBack(c: Setup, a: Node, port: int)
    requires c.Valid() && Chord(c, a, port)
    ensures Chord(c, Ahead(a, port, 1), Opposite(port))
  {
    var b := Ahead(a, port, 1);
    Follows(c.k, b);
    var q := RingBefore(c.k, b);
    assert Ahead(b, Opposite(port), 1) == a;
    PortsDiffer(c.k, q);
  }

  /** The other end of the nearest chord is further away, and so is the router before it. */
  lemma FarEnd(c: Setup, s: Node, i: nat, port: int, q: Node)
    requires c.Valid() && InMesh(c.k, s) && 1 <= i < c.n && Chord(c, Follow(c.k, s, i), port)
    requires forall j: nat | j < i :: !HasChord(c, Follow(c.k, s, j))
    requires InMesh(c.k, q) && RingNext(c.k, q) == Ahead(Follow(c.k, s, i), port, 1) && q != Follow(c.k, s, i)
    ensures var b, n0 := RingNext(c.k, q), RingId(c.k, s);
            && i < RingHops(c.n, n0, RingId(c.k, q)) && RingId(c.k, b) != n0 && RingId(c.k, q) != n0 && 0 <= RingId(c.k, q) < c.n
            && RingHops(c.n, RingId(c.k, b), n0) < RingHops(c.n, RingId(c.k, b), RingId(c.k, q))
  {
    var a, b := Follow(c.k, s, i), RingNext(c.k, q);
    ChordBack(c, a, port);
    assert HasChord(c, b);
    RingDelivers(c.k, s, b);
    var j: nat := RingHops(c.n, RingId(c.k, s), RingId(c.k, b));
    assert j >= i;
    FollowAt(c.k, s, i);
    RingDelivers(c.k, s, q);
    NextPosition(c.k, q);
    PositionRange(c.k, q);
    PositionRange(c.k, s);
    Size(c);
    Between(c.n, RingId(c.k, s), RingId(c.k, q), i, RingHops(c.n, RingId(c.k, s), RingId(c.k, a)));
  }

  lemma Between(n: int, s: int, q: int, i: int, j: int)
    requires n >= 4 && 0 <= s < n && 0 <= q < n && 1 <= i == j < n
    requires RingHops(n, s, After(n, q)) >= i && RingHops(n, s, q) != i && RingHops(n, s, After(n, q)) != i
    ensures i < RingHops(n, s, q) && After(n, q) != s && q != s && RingHops(n, After(n, q), s) < RingHops(n, After(n, q), q)
  {
  }

  // ---------- packets at the interface of their own node ----------

  /** The node at position `e.0` has a packet to position `e.2` at its own interface on channel `e.1`,
      from where it counts as new: the node has put it there, or it has come round. */
  ghost predicate Own(c: Setup, e: (int, int, int)) {
    e.0 in c.gated && exists route: seq<Stage> :: Route(c, e.0, e.2, route) && route[|route| - 1] == Stage(Interface(e.0, e.1), false)
  }

  /** This packet asks for `b`. */
  ghost predicate Seeks(c: Setup, e: (int, int, int), b: Channel) {
    b == Ring(e.0, EscapeVc(c.cls, e.2, e.0)) || (c.spans && FromRegular(c, e.0, e.2, Stage(b, true)))
  }

  lemma OwnValid(c: Setup, e: (int, int, int))
    requires c.Valid() && Own(c, e)
    ensures 0 <= e.0 < c.n && 0 <= e.2 < c.n && e.0 != e.2 && IsEscape(c.cls, e.1)
  {
    var route: seq<Stage> :| Route(c, e.0, e.2, route) && route[|route| - 1] == Stage(Interface(e.0, e.1), false);
    HeldChannel(c, e.0, e.2, route);
  }

  lemma InjectedIsOwn(c: Setup, e: (int, int, int))
    requires c.Valid() && e in c.injected && e.0 in c.gated
    ensures Own(c, e)
  {
    assert MayEnter(c.cls, Fresh, false, e.2, e.0, e.1);
    assert Route(c, e.0, e.2, [Stage(Interface(e.0, e.1), false)]);
  }

  /** The packet has last got an escape channel at `p`, and follows the ring since; at its own interface it
      has come from another position, unless its node has put it there. */
  ghost predicate Since(c: Setup, s: int, d: int, g: Stage, p: int) {
    && (p == s || Comes(c, s, d, p)) && 0 <= p < c.n && RingHops(c.n, p, g.a.p) < RingHops(c.n, p, d)
    && (g.a.Interface? && g.a.p == s && !g.misrouted ==>
          (s, g.a.vc, d) in c.injected || (p != s && g.a.vc == RoundVc(c, d, s)))
  }

  lemma {:induction false} RouteSince(c: Setup, s: int, d: int, route: seq<Stage>) returns (p: int)
    requires c.Valid() && Route(c, s, d, route)
    ensures Since(c, s, d, route[|route| - 1], p)
  {
    var l := |route| - 1;
    var h := route[l];
    p := h.a.p;
    if l > 0 {
      var g := route[l - 1];
      assert Route(c, s, d, route[..l]);
      assert Asks(c, d, g, h) || Leaves(c, s, d, g, h);
      if !Leaves(c, s, d, g, h) {
        HeldChannel(c, s, d, route[..l]);
        p := RouteSince(c, s, d, route[..l]);
      }
    }
  }

  /** A packet follows the ring from where it gets an escape channel. */
  lemma FollowingRoute(c: Setup, s: int, d: int, p: int, q: int) returns (route: seq<Stage>)
    requires c.Valid() && 0 <= s < c.n && 0 <= d < c.n && s != d && Comes(c, s, d, p)
    requires 0 <= q < c.n && RingHops(c.n, p, q) < RingHops(c.n, p, d)
    ensures Route(c, s, d, route) && route[|route| - 1] == Stage(Ring(q, EscapeVc(c.cls, d, q)), false)
    decreases RingHops(c.n, p, q)
  {
    var g := Stage(Ring(q, EscapeVc(c.cls, d, q)), false);
    if p == q {
      assert FromRegular(c, s, d, g);
      route := [g];
    } else {
      var r := if q == 0 then c.n - 1 else q - 1;
      var before := FollowingRoute(c, s, d, p, r);
      route := before + [g];
      forall i | 0 <= i < |route| - 1 ensures Asks(c, d, route[i], route[i + 1]) || Leaves(c, s, d, route[i], route[i + 1]) {
        if i < |before| - 1 { assert Asks(c, d, before[i], before[i + 1]) || Leaves(c, s, d, before[i], before[i + 1]); }
      }
    }
  }

  /** A packet is at the interface of its own node, on a channel where it counts as new, exactly if the node
      may put it there or it may come round. */
  lemma OwnIff(c: Setup, e: (int, int, int))
    requires c.Valid() && 0 <= e.0 < c.n && 0 <= e.2 < c.n && e.0 != e.2
    ensures Own(c, e) <==> e.0 in c.gated && (e in c.injected || (e.1 == RoundVc(c, e.2, e.0) && Round(c, e)))
  {
    var last := Stage(Interface(e.0, e.1), false);
    if Own(c, e) {
      var route: seq<Stage> :| Route(c, e.0, e.2, route) && route[|route| - 1] == last;
      var p := RouteSince(c, e.0, e.2, route);
    } else if e.0 in c.gated && e in c.injected {
      InjectedIsOwn(c, e);
    } else if e.0 in c.gated && e.1 == RoundVc(c, e.2, e.0) && Round(c, e) {
      var p :| Comes(c, e.0, e.2, p) && p != e.0 && RingHops(c.n, p, e.0) < RingHops(c.n, p, e.2);
      var r := if e.0 == 0 then c.n - 1 else e.0 - 1;
      var before := FollowingRoute(c, e.0, e.2, p, r);
      ComesOn(c, e, before, r);
    }
  }

  lemma ComesOn(c: Setup, e: (int, int, int), before: seq<Stage>, r: int)
    requires c.Valid() && 0 <= r < c.n && After(c.n, r) == e.0 && e.0 in c.gated && e.0 != e.2 && r != e.2
    requires Route(c, e.0, e.2, before) && before[|before| - 1] == Stage(Ring(r, EscapeVc(c.cls, e.2, r)), false)
    requires e.1 == RoundVc(c, e.2, e.0)
    ensures Own(c, e)
  {
    var route := before + [Stage(Interface(e.0, e.1), false)];
    assert MayEnter(c.cls, Passing(e.1), false, e.2, e.0, e.1);
    assert Asks(c, e.2, before[|before| - 1], Stage(Interface(e.0, e.1), false));
    forall i | 0 <= i < |route| - 1 ensures Asks(c, e.2, route[i], route[i + 1]) || Leaves(c, e.0, e.2, route[i], route[i + 1]) {
      if i < |before| - 1 { assert Asks(c, e.2, before[i], before[i + 1]) || Leaves(c, e.0, e.2, before[i], before[i + 1]); }
    }
    assert Route(c, e.0, e.2, route);
  }

  // ---------- when a chain closes ----------

  /** Packets come round on channel `v` to the interface at position `q`. */
  predicate Passed(c: Setup, q: int, v: int) {
    if v == Low(c) then 1 <= q <= c.n - 2 else q == 0 || 2 <= q
  }

  /** The channel of the ring with index `i`. */
  function RingAt(c: Setup, i: int): Channel {
    if i < c.n then Ring(i, c.cls.vcEnd) else Ring(i - c.n, Low(c))
  }

  /** A packet of the node at position `s` that starts on the ring waits for what it asks for. */
  lemma StartingWaits(c: Setup, s: int, d: int, b: Channel)
    requires 0 <= s < c.n && 0 <= d < c.n && s != d
    requires Asks(c, d, Stage(Ring(s, EscapeVc(c.cls, d, s)), false), Stage(b, false))
    ensures WaitsFor(c, Ring(s, EscapeVc(c.cls, d, s)), b)
  {
    var g := Stage(Ring(s, EscapeVc(c.cls, d, s)), false);
    assert Route(c, s, d, [g]);
    assert Holds(c, s, d, [g], Stage(b, false), g.a, b);
  }

  lemma RingWaits(c: Setup, i: int)
    requires c.n >= 4 && 1 <= i < 2 * c.n - 2
    ensures WaitsFor(c, RingAt(c, i), RingAt(c, i + 1))
  {
    var d := if i < c.n - 1 then 0 else if i == c.n - 1 then 1 else c.n - 1;
    StartingWaits(c, RingAt(c, i).p, d, RingAt(c, i + 1));
  }

  /** A packet comes round to a gated router. */
  lemma ComingWaits(c: Setup, q: int, v: int)
    requires c.Valid() && c.n >= 4 && q in c.gated && IsEscape(c.cls, v) && Passed(c, q, v)
    ensures 2 <= Index(c, Interface(q, v)) <= 2 * c.n - 2
    ensures WaitsFor(c, RingAt(c, Index(c, Interface(q, v)) - 1), Interface(q, v))
  {
    var a := RingAt(c, Index(c, Interface(q, v)) - 1);
    var d := if v == Low(c) then c.n - 1 else if q == 0 then 1 else 0;
    assert a == Ring(a.p, EscapeVc(c.cls, d, a.p)) && After(c.n, a.p) == q && q != d;
    assert MayEnter(c.cls, Passing(v), false, d, q, v);
    StartingWaits(c, a.p, d, Interface(q, v));
  }

  lemma SeekingWaits(c: Setup, e: (int, int, int), b: Channel)
    requires c.Valid() && Own(c, e) && Seeks(c, e, b)
    ensures WaitsFor(c, Interface(e.0, e.1), b)
  {
    var route: seq<Stage> :| Route(c, e.0, e.2, route) && route[|route| - 1] == Stage(Interface(e.0, e.1), false);
    assert Holds(c, e.0, e.2, route, Stage(b, true), Interface(e.0, e.1), b);
  }

  /** A chain that goes on along the ring. */
  lemma Around(c: Setup, pre: seq<Channel>, i: int, j: int, last: Channel) returns (chain: seq<Channel>)
    requires c.n >= 4 && 1 <= i < j <= 2 * c.n - 2 && |pre| > 0
    requires forall x | 0 <= x < |pre| - 1 :: WaitsFor(c, pre[x], pre[x + 1])
    requires WaitsFor(c, pre[|pre| - 1], RingAt(c, i)) && WaitsFor(c, RingAt(c, j - 1), last)
    ensures Chain(c, chain) && chain[0] == pre[0] && chain[|chain| - 1] == last
    decreases j - i
  {
    var pre' := pre + [RingAt(c, i)];
    assert forall x | 0 <= x < |pre'| - 1 :: WaitsFor(c, pre'[x], pre'[x + 1]);
    if i == j - 1 {
      chain := pre' + [last];
    } else {
      RingWaits(c, i);
      chain := Around(c, pre', i + 1, j, last);
    }
  }

  /** From an interface to a ring channel from where others come round to it. */
  lemma ClosesAround(c: Setup, e: (int, int, int), i: int) returns (chain: seq<Channel>)
    requires c.Valid() && c.n >= 4 && Own(c, e) && Seeks(c, e, RingAt(c, i)) && Passed(c, e.0, e.1)
    requires 1 <= i < Index(c, Interface(e.0, e.1))
    ensures Chain(c, chain) && chain[0] == chain[|chain| - 1]
  {
    var a := Interface(e.0, e.1);
    OwnValid(c, e);
    SeekingWaits(c, e, RingAt(c, i));
    ComingWaits(c, e.0, e.1);
    chain := Around(c, [a], i, Index(c, a), a);
  }

  lemma BackwardCloses(c: Setup, e: (int, int, int)) returns (chain: seq<Channel>)
    requires c.Valid() && Backward(c, e)
    ensures Chain(c, chain) && chain[0] == chain[|chain| - 1]
  {
    Size(c);
    InjectedIsOwn(c, e);
    chain := ClosesAround(c, e, e.0);
  }

  /** A packet that comes round leaves again, and waits for the channel on which it has come. */
  lemma RoundCloses(c: Setup, s: int, d: int, p: int) returns (chain: seq<Channel>)
    requires c.Valid() && c.spans && s in c.gated && 0 <= d < c.n && d != s
    requires Comes(c, s, d, p) && p != s && RingHops(c.n, p, s) < RingHops(c.n, p, d)
    ensures Chain(c, chain) && chain[0] == chain[|chain| - 1]
  {
    Size(c);
    var e := (s, RoundVc(c, d, s), d);
    assert Round(c, e);
    OwnIff(c, e);
    var b := Ring(p, EscapeVc(c.cls, d, p));
    assert FromRegular(c, s, d, Stage(b, true));
    chain := ClosesAround(c, e, Index(c, b));
  }

  /** Where there is a way off the ring, some packet from a gated router comes round. */
  lemma ShortcutRound(c: Setup) returns (s: int, d: int, p: int)
    requires c.Valid() && c.gated != {} && Shortcut(c)
    ensures s in c.gated && 0 <= d < c.n && d != s && Comes(c, s, d, p) && p != s && RingHops(c.n, p, s) < RingHops(c.n, p, d)
  {
    if c.off == {} { NoneOffBack(c); }
    if a :| BackLink(c, a) {
      s := RingId(c.k, a);
      d, p := BackRound(c, a);
    } else {
      s, d, p := OverChord(c);
    }
  }

  lemma OverChord(c: Setup) returns (s: int, d: int, p: int)
    requires c.Valid() && c.off != {} && exists a, port :: Chord(c, a, port)
    ensures s in c.off && 0 <= d < c.n && d != s && Comes(c, s, d, p) && p != s && RingHops(c.n, p, s) < RingHops(c.n, p, d)
  {
    var a, port :| Chord(c, a, port);
    s := Matchings.Any(c.off);
    var n := AtPosition(c, s);
    d, p := ChordRound(c, n, a, port);
  }

  /** If no router stays off, a packet can go back from any that may be gated. */
  lemma NoneOffBack(c: Setup)
    requires c.Valid() && c.off == {} && c.gated != {}
    ensures exists a :: BackLink(c, a)
  {
    var s := Matchings.Any(c.gated);
    var n := AtPosition(c, s);
    var q := RingBefore(c.k, n);
    assert BackLink(c, n);
  }

  lemma AtPosition(c: Setup, p: int) returns (n: Node)
    requires c.Valid() && 0 <= p < c.n
    ensures InMesh(c.k, n) && RingId(c.k, n) == p
  {
    n := Follow(c.k, Node(0, 0), p);
    FollowAt(c.k, Node(0, 0), p);
    PositionRange(c.k, n);
    FirstPosition(c.k);
  }

  lemma FirstPosition(k: nat)
    ensures RingId(k, Node(0, 0)) == 0
  {
  }

  /** The escape channels cannot deadlock exactly if no node injects backwards at a gated router and, where
      packets may be too long for an interface and routers may be gated, there is no way off the ring. */
  lemma AcyclicIff(c: Setup)
    requires c.Valid()
    ensures (forall chain | Chain(c, chain) :: chain[0] != chain[|chain| - 1]) <==> Deadlockless(c)
  {
    if Deadlockless(c) {
      forall chain | Chain(c, chain) ensures chain[0] != chain[|chain| - 1] { ChainRises(c, chain); }
    } else if e :| Backward(c, e) {
      var chain := BackwardCloses(c, e);
    } else {
      var s, d, p := ShortcutRound(c);
      var chain := RoundCloses(c, s, d, p);
    }
  }

  /** If every packet fits an interface, only injections matter. */
  lemma AcyclicIffFitting(c: Setup)
    requires c.Valid() && !c.spans
    ensures (forall chain | Chain(c, chain) :: chain[0] != chain[|chain| - 1]) <==> (forall e :: !Backward(c, e))
  {
    AcyclicIff(c);
  }

  /** If long packets meet routers that are now gated and now powered on, there is always a way off. */
  lemma AcyclicIffNoneOff(c: Setup)
    requires c.Valid() && c.spans && c.off == {}
    ensures (forall chain | Chain(c, chain) :: chain[0] != chain[|chain| - 1]) <==> c.gated == {}
  {
    AcyclicIff(c);
    if c.gated != {} { NoneOffBack(c); }
  }

  /** If all gated routers stay off, long packets are safe exactly if the routers that are on are joined by
      links of the ring only. */
  lemma AcyclicIffSteady(c: Setup)
    requires c.Valid() && c.spans && c.off == c.gated != {}
    ensures (forall chain | Chain(c, chain) :: chain[0] != chain[|chain| - 1]) <==>
              (forall e :: !Backward(c, e)) && forall a, port :: !Chord(c, a, port)
  {
    AcyclicIff(c);
    assert forall a :: !BackLink(c, a);
  }

  /** For instance they are safe where only the first row is on, as long as no node injects backwards. */
  lemma FirstRowIsSafe(c: Setup)
    requires c.Valid() && c.spans && c.off == c.gated && forall p :: p in c.gated <==> c.k <= p < c.n
    requires forall e :: !Backward(c, e)
    ensures forall chain | Chain(c, chain) :: chain[0] != chain[|chain| - 1]
  {
    RowIsLess(c.k);
    assert c.k in c.gated;
    forall a, port ensures !Chord(c, a, port) {
      if Chord(c, a, port) {
        OnlyFirstRow(c, a);
        OnlyFirstRow(c, Ahead(a, port, 1));
      }
    }
    AcyclicIffSteady(c);
  }

  lemma RowIsLess(k: nat)
    requires k >= 2
    ensures k < k * k
  {
  }

  lemma OnlyFirstRow(c: Setup, a: Node)
    requires c.Valid() && InMesh(c.k, a) && !(c.k <= RingId(c.k, a) < c.n)
    ensures a.y == 0
  {
    PositionRange(c.k, a);
    if a.y > 0 { PositionBounds(c.k, a); }
  }

  /** And they are not where a single router is off, on any larger mesh, whatever is injected. */
  lemma SingleOffCloses(c: Setup, s: int)
    requires c.Valid() && c.k >= 4 && c.spans && c.off == c.gated == {s}
    ensures exists chain :: Chain(c, chain) && chain[0] == chain[|chain| - 1]
  {
    Positions(c, Node(1, 0), Node(2, 0));
    Positions(c, Node(1, 0), Node(2, 1));
    Positions(c, Node(2, 0), Node(1, 1));
    Positions(c, Node(1, 1), Node(2, 1));
    assert s in c.gated;
    ChordBelow(c, if s in [RingId(c.k, Node(1, 0)), RingId(c.k, Node(1, 1))] then 2 else 1);
    AcyclicIffSteady(c);
  }

  lemma ChordBelow(c: Setup, x: int)
    requires c.Valid() && 1 <= x <= c.k - 2 && RingId(c.k, Node(x, 0)) !in c.off && RingId(c.k, Node(x, 1)) !in c.off
    ensures Chord(c, Node(x, 0), SOUTH)
  {
  }
}
