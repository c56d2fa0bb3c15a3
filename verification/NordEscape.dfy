/** Routing in NoRD: `nord_mesh`, and deadlock freedom of its escape channels along the ring. */
module NordEscape {
  import opened Arithmetic
  import opened Ports
  import opened Mesh
  import opened FlovRouting
  import opened FlovFunctions
  import opened NordRing

  // ---------- what is granted ----------

  /** The last two channels of a class are its escape channels. */
  predicate IsEscape(cls: Class, vc: int) {
    vc == cls.vcEnd - 1 || vc == cls.vcEnd
  }

  /** Escape channel at ring position `at` for a packet to position `dest`: the last one until the
      packet has passed position 0, the last but one from there on. */
  function EscapeVc(cls: Class, dest: int, at: int): int {
    if dest > at then cls.vcEnd - 1 else cls.vcEnd
  }

  /** How a packet comes to the interface of a router: from the node itself, or, at a gated router,
      from the ring on some channel. */
  datatype Origin = Fresh | Passing(vc: int)

  /** Channels into the router at position `at`: all of them for packets of the node; the same escape
      channel for a packet that comes on one; otherwise a regular channel, or after too many
      detours the escape channel of this position. */
  predicate MayEnter(cls: Class, origin: Origin, misrouted: bool, dest: int, at: int, vc: int) {
    cls.vcBegin <= vc <= cls.vcEnd &&
    match origin
    case Fresh => true
    case Passing(held) =>
      if IsEscape(cls, held) then vc == held
      else if misrouted then vc == EscapeVc(cls, dest, at) else !IsEscape(cls, vc)
  }

  /** `nord_mesh` at an interface. */
  method NordInterface(cls: Class, origin: Origin, misrouted: bool, ringId: int, ringDest: int) returns (outputs: OutputSet)
    requires cls.vcEnd - cls.vcBegin + 1 > 2
    requires origin.Passing? ==> cls.vcBegin <= origin.vc <= cls.vcEnd
    ensures forall port, vc :: Grants(outputs, port, vc) <==> port == -1 && MayEnter(cls, origin, misrouted, ringDest, ringId, vc)
  {
    outputs := map[];
    var vcBegin, vcEnd := cls.vcBegin, cls.vcEnd;
    if origin.Fresh? {
      outputs := AddRange(outputs, -1, vcBegin, vcEnd, 0);
    } else if origin.vc == vcEnd - 1 || origin.vc == vcEnd {
      vcBegin, vcEnd := origin.vc, origin.vc;
      outputs := AddRange(outputs, -1, vcBegin, vcEnd, 1);
    } else {
      vcEnd := vcEnd - 2;
      if !misrouted {
        outputs := AddRange(outputs, -1, vcBegin, vcEnd, 1);
      } else {
        var escapeVc;
        if ringDest > ringId { escapeVc := vcEnd + 1; } else { escapeVc := vcEnd + 2; }
        outputs := AddRange(outputs, -1, escapeVc, escapeVc, 0);
      }
    }
    forall port, vc ensures Grants(outputs, port, vc) <==> port == -1 && MayEnter(cls, origin, misrouted, ringDest, ringId, vc) {
      OneRange(outputs, if origin.Fresh? || (!IsEscape(cls, origin.vc) && misrouted) then 0 else 1, port, vc);
    }
  }

  /** What a router knows when it routes a packet. */
  datatype View = View(ringId: int, ringDest: int, ringOut: int, power: seq<PowerState>, self: PowerState, credit: seq<int>)

  /** Whether a packet at a router is already on the escape channels. */
  predicate InEscape(cls: Class, inChannel: int, vc: int, fromHere: bool) {
    (inChannel != LOCAL || !fromHere) && IsEscape(cls, vc)
  }

  /** A minimal direction may be taken: not back, and to a powered router or along the ring; a
      gated or waking router forwards along the ring only. */
  predicate Free(v: View, inChannel: int, port: int)
    requires |v.power| == 4 && EAST <= port <= NORTH
  {
    && port != inChannel && (v.power[port] == PowerOn || port == v.ringOut)
    && v.self != PowerOff && v.self != Wakeup
  }

  /** Directions for regular packets: the free minimal ones, or else along the ring. */
  predicate RegularPort(v: View, inChannel: int, xy: int, yx: int, port: int)
    requires |v.power| == 4 && EAST <= xy <= NORTH && EAST <= yx <= NORTH
  {
    || (port == xy && Free(v, inChannel, xy))
    || (port == yx && Free(v, inChannel, yx))
    || (port == v.ringOut && !Free(v, inChannel, xy) && !Free(v, inChannel, yx) && v.ringOut != inChannel)
  }

  /** Direction `d` leads one hop nearer, not back, and to a powered router or along the ring. */
  ghost predicate LeadsNearer(a: Node, b: Node, v: View, inChannel: int, d: int)
    requires |v.power| == 4 && EAST <= d <= NORTH
  {
    d != inChannel && Distance(Ahead(a, d, 1), b) == Distance(a, b) - 1 && (v.power[d] == PowerOn || d == v.ringOut)
  }

  lemma NearerPorts(a: Node, b: Node, d: int)
    requires a != b && EAST <= d <= NORTH
    ensures Distance(Ahead(a, d, 1), b) == Distance(a, b) - 1 <==> d == Dor(a, b, false) || d == Dor(a, b, true)
  {
  }

  /** In a powered router the regular directions are exactly those that lead nearer; only if there is none, the
      ring, but not back. A gated router forwards along the ring only. */
  lemma RegularIsMinimal(a: Node, b: Node, v: View, inChannel: int, port: int)
    requires a != b && |v.power| == 4 && EAST <= port <= NORTH
    ensures v.self != PowerOff && v.self != Wakeup ==>
              (RegularPort(v, inChannel, Dor(a, b, false), Dor(a, b, true), port) <==>
                 || LeadsNearer(a, b, v, inChannel, port)
                 || (port == v.ringOut != inChannel && forall d | EAST <= d <= NORTH :: !LeadsNearer(a, b, v, inChannel, d)))
    ensures v.self == PowerOff || v.self == Wakeup ==>
              (RegularPort(v, inChannel, Dor(a, b, false), Dor(a, b, true), port) <==> port == v.ringOut != inChannel)
  {
    forall d | EAST <= d <= NORTH
      ensures LeadsNearer(a, b, v, inChannel, d) <==>
                (d == Dor(a, b, false) || d == Dor(a, b, true)) && d != inChannel && (v.power[d] == PowerOn || d == v.ringOut)
    {
      NearerPorts(a, b, d);
    }
  }

  /** `nord_mesh` in a router. The escape channel along the ring is always granted and no other;
      the regular directions are preferred to it, those with more credit first. */
  method NordMesh(k: nat, cls: Class, cur: nat, dest: nat, inChannel: int, vc: int, fromHere: bool, misrouted: bool,
                  v: View, ghost a: Node, ghost b: Node)
    returns (outputs: OutputSet)
    requires InMesh(k, a) && InMesh(k, b) && cur == Id(k, a) && dest == Id(k, b)
    requires cls.vcEnd - cls.vcBegin + 1 > 2
    requires |v.power| == |v.credit| == 4 && EAST <= v.ringOut <= NORTH && (a != b ==> v.ringDest != v.ringId)
    ensures a == b ==> forall port, w :: Grants(outputs, port, w) <==> port == LOCAL && cls.vcBegin <= w <= cls.vcEnd
    ensures a != b ==> forall port, w | IsEscape(cls, w) ::
              Grants(outputs, port, w) <==> port == v.ringOut && w == EscapeVc(cls, v.ringDest, v.ringId)
    ensures a != b ==> forall port, w | !IsEscape(cls, w) ::
              Grants(outputs, port, w) <==>
                && cls.vcBegin <= w <= cls.vcEnd && !InEscape(cls, inChannel, vc, fromHere) && !misrouted
                && RegularPort(v, inChannel, Dor(a, b, false), Dor(a, b, true), port)
    ensures a != b && !InEscape(cls, inChannel, vc, fromHere) && !misrouted ==>
              Preferred(v, inChannel, Dor(a, b, false), Dor(a, b, true), outputs)
  {
    IdDigits(k, a);
    IdDigits(k, b);
    if cur == dest {
      outputs := AddRange(map[], LOCAL, cls.vcBegin, cls.vcEnd, 0);
      forall port, w ensures Grants(outputs, port, w) <==> port == LOCAL && cls.vcBegin <= w <= cls.vcEnd {
        OneRange(outputs, 0, port, w);
      }
      return;
    }
    var inEscape := false;
    if inChannel != LOCAL && (vc == cls.vcEnd - 1 || vc == cls.vcEnd) {
      inEscape := true;
    } else if inChannel == LOCAL && !fromHere && (vc == cls.vcEnd - 1 || vc == cls.vcEnd) {
      inEscape := true;
    }
    var xy := DorNextMesh2(k, cur, dest, false, a, b);
    var yx := DorNextMesh2(k, cur, dest, true, a, b);
    outputs := AddEscape(cls, inEscape, v);
    if !inEscape && !misrouted {
      outputs := AddMinimal(cls, inChannel, xy, yx, v, outputs);
    }
  }

  /** The escape channel along the ring. */
  method AddEscape(cls: Class, inEscape: bool, v: View) returns (outputs: OutputSet)
    requires v.ringDest != v.ringId
    ensures outputs.Keys == {0} && outputs[0].port == v.ringOut
    ensures outputs[0].vcStart == outputs[0].vcEnd == EscapeVc(cls, v.ringDest, v.ringId)
    ensures forall port, w :: Grants(outputs, port, w) <==> port == v.ringOut && w == EscapeVc(cls, v.ringDest, v.ringId)
  {
    outputs := map[];
    if inEscape {
      var inVc;
      if v.ringDest > v.ringId { inVc := cls.vcEnd - 1; } else { inVc := cls.vcEnd; }
      outputs := AddRange(outputs, v.ringOut, inVc, inVc, 0);
    } else if v.ringDest < v.ringId {
      outputs := AddRange(outputs, v.ringOut, cls.vcEnd, cls.vcEnd, 0);
    } else {
      outputs := AddRange(outputs, v.ringOut, cls.vcEnd - 1, cls.vcEnd - 1, 0);
    }
    forall port, w ensures Grants(outputs, port, w) <==> port == v.ringOut && w == EscapeVc(cls, v.ringDest, v.ringId) {
      OneRange(outputs, 0, port, w);
    }
  }

  function XyPriority(v: View, xy: int, yx: int): int
    requires |v.credit| == 4 && EAST <= xy <= NORTH && EAST <= yx <= NORTH
  {
    if v.credit[xy] >= v.credit[yx] then 3 else 2
  }

  /** Priorities of the regular directions: the minimal one with more credit, then the other. */
  ghost predicate Preferred(v: View, inChannel: int, xy: int, yx: int, outputs: OutputSet)
    requires |v.power| == |v.credit| == 4 && EAST <= xy <= NORTH && EAST <= yx <= NORTH
  {
    var pri := XyPriority(v, xy, yx);
    && (Free(v, inChannel, xy) ==> pri in outputs && outputs[pri].port == xy)
    && (Free(v, inChannel, yx) && yx != xy ==> 5 - pri in outputs && outputs[5 - pri].port == yx)
    && (!Free(v, inChannel, xy) && !Free(v, inChannel, yx) && v.ringOut != inChannel ==> 1 in outputs && outputs[1].port == v.ringOut)
  }

  /** If both minimal directions are free, the one with more credit has the higher priority, and both come
      before the ring and the escape channels. */
  lemma CreditDecides(v: View, inChannel: int, xy: int, yx: int, outputs: OutputSet) returns (i: int, j: int)
    requires |v.power| == |v.credit| == 4 && EAST <= xy <= NORTH && EAST <= yx <= NORTH && xy != yx
    requires Preferred(v, inChannel, xy, yx, outputs) && Free(v, inChannel, xy) && Free(v, inChannel, yx)
    ensures i in outputs && j in outputs && i > 1 && j > 1 && outputs[i].port == xy && outputs[j].port == yx
    ensures v.credit[xy] > v.credit[yx] ==> i > j
    ensures v.credit[xy] < v.credit[yx] ==> i < j
  {
    i := XyPriority(v, xy, yx);
    j := 5 - i;
  }

  /** The regular ranges. */
  method AddMinimal(cls: Class, inChannel: int, xy: int, yx: int, v: View, outputs0: OutputSet) returns (outputs: OutputSet)
    requires |v.power| == |v.credit| == 4 && EAST <= xy <= NORTH && EAST <= yx <= NORTH
    requires cls.vcEnd - cls.vcBegin + 1 > 2 && outputs0.Keys == {0}
    requires outputs0[0].vcStart == outputs0[0].vcEnd && IsEscape(cls, outputs0[0].vcStart)
    ensures forall port, w | IsEscape(cls, w) :: Grants(outputs, port, w) <==> port == outputs0[0].port && w == outputs0[0].vcStart
    ensures forall port, w | !IsEscape(cls, w) ::
              Grants(outputs, port, w) <==> cls.vcBegin <= w <= cls.vcEnd && RegularPort(v, inChannel, xy, yx, port)
    ensures Preferred(v, inChannel, xy, yx, outputs)
  {
    outputs := outputs0;
    var xyPri, yxPri;
    if v.credit[xy] >= v.credit[yx] { xyPri, yxPri := 3, 2; } else { xyPri, yxPri := 2, 3; }
    if xy == yx { yxPri := xyPri; }
    var xyAvailable := xy != inChannel && (v.power[xy] == PowerOn || xy == v.ringOut);
    var yxAvailable := yx != inChannel && (v.power[yx] == PowerOn || yx == v.ringOut);
    if v.self == PowerOff || v.self == Wakeup {
      xyAvailable, yxAvailable := false, false;
    }
    outputs := AddAvailable(cls, inChannel, xy, yx, xyAvailable, yxAvailable, xyPri, yxPri, v.ringOut, outputs);
    AddedIsPreferred(cls, inChannel, xy, yx, xyPri, yxPri, v, outputs0[0], outputs);
  }

  lemma AddedIsPreferred(cls: Class, inChannel: int, xy: int, yx: int, xyPri: int, yxPri: int, v: View, escape: Range, outputs: OutputSet)
    requires |v.power| == |v.credit| == 4 && EAST <= xy <= NORTH && EAST <= yx <= NORTH
    requires escape.vcStart == escape.vcEnd
    requires Added(cls, inChannel, xy, yx, Free(v, inChannel, xy), Free(v, inChannel, yx), xyPri, yxPri, v.ringOut, escape, outputs)
    requires xyPri == XyPriority(v, xy, yx) && yxPri == if xy == yx then xyPri else 5 - xyPri
    ensures Preferred(v, inChannel, xy, yx, outputs)
    ensures forall port, w :: Grants(outputs, port, w) <==>
              || (port == escape.port && w == escape.vcStart)
              || (cls.vcBegin <= w <= cls.vcEnd - 2 && RegularPort(v, inChannel, xy, yx, port))
  {
    AvailableGranted(cls, inChannel, xy, yx, Free(v, inChannel, xy), Free(v, inChannel, yx), xyPri, yxPri, v.ringOut, escape, outputs);
  }

  lemma AvailableGranted(cls: Class, inChannel: int, xy: int, yx: int, xyAvailable: bool, yxAvailable: bool,
                         xyPri: int, yxPri: int, ringOut: int, escape: Range, outputs: OutputSet)
    requires Added(cls, inChannel, xy, yx, xyAvailable, yxAvailable, xyPri, yxPri, ringOut, escape, outputs)
    requires escape.vcStart == escape.vcEnd && (xy == yx ==> xyAvailable == yxAvailable)
    ensures forall port, w :: Grants(outputs, port, w) <==>
              || (port == escape.port && w == escape.vcStart)
              || (cls.vcBegin <= w <= cls.vcEnd - 2 &&
                    ((port == xy && xyAvailable) || (port == yx && yxAvailable)
                     || (port == ringOut && !xyAvailable && !yxAvailable && ringOut != inChannel)))
  {
    forall port, w
      ensures Grants(outputs, port, w) <==>
                || (port == escape.port && w == escape.vcStart)
                || (cls.vcBegin <= w <= cls.vcEnd - 2 &&
                      ((port == xy && xyAvailable) || (port == yx && yxAvailable)
                       || (port == ringOut && !xyAvailable && !yxAvailable && ringOut != inChannel)))
    {
      RangesGranted(outputs, port, w, xyPri, yxPri);
    }
  }

  /** The escape range and those of the available directions, or of the ring. */
  ghost predicate Added(cls: Class, inChannel: int, xy: int, yx: int, xyAvailable: bool, yxAvailable: bool,
                        xyPri: int, yxPri: int, ringOut: int, escape: Range, outputs: OutputSet) {
    && {xyPri, yxPri} <= {2, 3} && (xyPri == yxPri <==> xy == yx)
    && 0 in outputs && outputs[0] == escape && outputs.Keys <= {0, 1, xyPri, yxPri}
    && (xyPri in outputs <==> xyAvailable)
    && (yxPri in outputs <==> if xy == yx then xyAvailable else yxAvailable)
    && (1 in outputs <==> !xyAvailable && !yxAvailable && ringOut != inChannel)
    && (xyPri in outputs ==> outputs[xyPri] == Range(xy, cls.vcBegin, cls.vcEnd - 2))
    && (yxPri in outputs ==> outputs[yxPri] == Range(yx, cls.vcBegin, cls.vcEnd - 2))
    && (1 in outputs ==> outputs[1] == Range(ringOut, cls.vcBegin, cls.vcEnd - 2))
  }

  /** The ranges of the available directions, or of the ring. */
  method AddAvailable(cls: Class, inChannel: int, xy: int, yx: int, xyAvailable: bool, yxAvailable: bool,
                      xyPri: int, yxPri: int, ringOut: int, outputs0: OutputSet)
    returns (outputs: OutputSet)
    requires outputs0.Keys == {0} && {xyPri, yxPri} <= {2, 3} && (xyPri == yxPri <==> xy == yx)
    ensures Added(cls, inChannel, xy, yx, xyAvailable, yxAvailable, xyPri, yxPri, ringOut, outputs0[0], outputs)
  {
    outputs := outputs0;
    var vcBegin, vcEnd := cls.vcBegin, cls.vcEnd - 2;
    if xyAvailable {
      outputs := AddRange(outputs, xy, vcBegin, vcEnd, xyPri);
    }
    if yxAvailable && xy != yx {
      outputs := AddRange(outputs, yx, vcBegin, vcEnd, yxPri);
    }
    if !xyAvailable && !yxAvailable && ringOut != inChannel {
      outputs := AddRange(outputs, ringOut, vcBegin, vcEnd, 1);
    }
  }

  // ---------- packets on regular channels ----------

  /** The mesh and its ring of `n` routers, the positions of the routers that may be gated and of those
      that stay off throughout, what nodes may put on escape channels (position, channel,
      destination), and whether a packet may be too long for an interface, so that it still holds its
      channel there when it has moved on. Any node may send to any other on regular channels. */
  datatype Setup = Setup(k: nat, n: int, cls: Class, gated: set<int>, off: set<int>, injected: set<(int, int, int)>, spans: bool) {
    ghost predicate Valid() {
      && k >= 2 && k % 2 == 0 && n == k * k && cls.vcEnd - cls.vcBegin + 1 > 2
      && (forall q | q in gated :: 0 <= q < n) && off <= gated
      && forall e | e in injected :: 0 <= e.0 < n && IsEscape(cls, e.1) && 0 <= e.2 < n && e.2 != e.0
    }
  }

  /** What a router may know: routers that are never gated are powered on, and those that stay off are off. */
  ghost predicate Possible(c: Setup, a: Node, v: View) {
    && |v.power| == 4 && v.ringOut == RingPorts(c.k, a).1 && Agrees(c, a, v.self)
    && forall port | EAST <= port <= NORTH && InMesh(c.k, Ahead(a, port, 1)) :: Agrees(c, Ahead(a, port, 1), v.power[port])
  }

  ghost predicate Agrees(c: Setup, a: Node, state: PowerState) {
    && (RingId(c.k, a) !in c.gated ==> state == PowerOn)
    && (RingId(c.k, a) in c.off ==> state == PowerOff)
  }

  /** A router, and the input port through which a packet comes to it. */
  datatype Place = Place(at: Node, inPort: int)

  /** A packet to `b` moves on a regular channel, as `NordMesh` grants it; a router that may be gated can
      hand it to its interface. */
  ghost predicate RegularHop(c: Setup, b: Node, s: Place, t: Place) {
    && s.at != b && InMesh(c.k, t.at)
    && (t.inPort == LOCAL ==> RingId(c.k, t.at) in c.gated)
    && exists v: View, port :: Possible(c, s.at, v) && Moves(v, b, s, t, port)
  }

  ghost predicate Moves(v: View, b: Node, s: Place, t: Place, port: int) {
    Offers(v, b, s, port) && t.at == Ahead(s.at, port, 1) && t.inPort in [Opposite(port), LOCAL]
  }

  ghost predicate Offers(v: View, b: Node, s: Place, port: int) {
    |v.power| == 4 && s.at != b && RegularPort(v, s.inPort, Dor(s.at, b, false), Dor(s.at, b, true), port)
  }

  /** From its node, over one or more regular hops. */
  ghost predicate Path(c: Setup, b: Node, path: seq<Place>) {
    && |path| > 1 && path[0].inPort == LOCAL && InMesh(c.k, path[0].at)
    && forall i | 0 <= i < |path| - 1 :: RegularHop(c, b, path[i], path[i + 1])
  }

  /** A packet from position `s` to position `d` can come to position `p` on regular channels. */
  ghost predicate Comes(c: Setup, s: int, d: int, p: int) {
    && 0 <= p < c.n && p != d
    && exists b: Node, path: seq<Place> :: Brings(c, s, d, p, b, path)
  }

  ghost predicate Brings(c: Setup, s: int, d: int, p: int, b: Node, path: seq<Place>) {
    && InMesh(c.k, b) && RingId(c.k, b) == d && Path(c, b, path)
    && RingId(c.k, path[0].at) == s && RingId(c.k, path[|path| - 1].at) == p
  }

  // ---------- packets on the escape channels ----------

  /** A channel: along the ring out of the router at position `p`, or from the interface into it. */
  datatype Channel = Ring(p: int, vc: int) | Interface(p: int, vc: int)

  /** An escape channel that a packet has, and whether it has made too many detours by then. */
  datatype Stage = Stage(a: Channel, misrouted: bool)

  /** Coming on a regular channel, the packet gets an escape channel: in the router, or, after too many
      detours, at the interface of a gated one. */
  ghost predicate FromRegular(c: Setup, s: int, d: int, g: Stage) {
    && Comes(c, s, d, g.a.p) && IsEscape(c.cls, g.a.vc)
    && match g.a
       case Ring(p, vc) => vc == EscapeVc(c.cls, d, p)
       case Interface(p, vc) => p in c.gated && exists held :: !IsEscape(c.cls, held) && MayEnter(c.cls, Passing(held), g.misrouted, d, p, vc)
  }

  /** Its first escape channel: in the router of its node, later, or from the node itself. */
  ghost predicate Enters(c: Setup, s: int, d: int, g: Stage) {
    || g.a == Ring(s, EscapeVc(c.cls, d, s))
    || FromRegular(c, s, d, g)
    || (g.a.Interface? && g.a.p == s && !g.misrouted && MayEnter(c.cls, Fresh, false, d, s, g.a.vc) && (s, g.a.vc, d) in c.injected)
  }

  /** From one escape channel to the next: of the ring, out of the router that the packet has reached,
      or into that router if it is gated and hands packets to its interface. */
  ghost predicate Asks(c: Setup, d: int, g: Stage, h: Stage) {
    && (g.misrouted ==> h.misrouted)
    && match g.a
       case Ring(p, vc) =>
         var q := After(c.n, p);
         q != d && h.a.p == q &&
         (if h.a.Ring? then h.a.vc == EscapeVc(c.cls, d, q)
          else q in c.gated && MayEnter(c.cls, Passing(vc), h.misrouted, d, q, h.a.vc))
       case Interface(q, _) => h.a == Ring(q, EscapeVc(c.cls, d, q))
  }

  /** In the router of its own node a packet from the interface counts as new: it may go on on regular
      channels, and get an escape channel again where it comes to. */
  ghost predicate Leaves(c: Setup, s: int, d: int, g: Stage, h: Stage) {
    g.a.Interface? && g.a.p == s && !g.misrouted && FromRegular(c, s, d, h)
  }

  /** The escape channels that a packet has had so far. */
  ghost predicate Route(c: Setup, s: int, d: int, route: seq<Stage>) {
    && |route| > 0 && 0 <= s < c.n && 0 <= d < c.n && s != d && Enters(c, s, d, route[0])
    && forall i | 0 <= i < |route| - 1 :: Asks(c, d, route[i], route[i + 1]) || Leaves(c, s, d, route[i], route[i + 1])
  }

  /** Some packet holds `a` and asks for `b`; on regular channels it holds the interface that it left
      only if it is too long for it. */
  ghost predicate WaitsFor(c: Setup, a: Channel, b: Channel) {
    exists s, d, route: seq<Stage>, h: Stage :: Holds(c, s, d, route, h, a, b)
  }

  ghost predicate Holds(c: Setup, s: int, d: int, route: seq<Stage>, h: Stage, a: Channel, b: Channel) {
    Route(c, s, d, route) && route[|route| - 1].a == a && h.a == b && GoesOn(c, s, d, route[|route| - 1], h)
  }

  ghost predicate GoesOn(c: Setup, s: int, d: int, g: Stage, h: Stage) {
    Asks(c, d, g, h) || (c.spans && Leaves(c, s, d, g, h))
  }

  ghost predicate Chain(c: Setup, chain: seq<Channel>) {
    |chain| > 1 && forall i | 0 <= i < |chain| - 1 :: WaitsFor(c, chain[i], chain[i + 1])
  }

  /** On the ring a packet holds the channel of its position; into a gated router it holds that
      channel or, at position 0, the one it came with, unless its own node chose another. */
  lemma {:induction false} HeldChannel(c: Setup, s: int, d: int, route: seq<Stage>)
    requires c.Valid() && Route(c, s, d, route)
    ensures
      var g := route[|route| - 1];
      && 0 <= g.a.p < c.n && g.a.p != d && IsEscape(c.cls, g.a.vc)
      && (g.a.Ring? ==> g.a.vc == EscapeVc(c.cls, d, g.a.p))
      && (g.a.Interface? ==>
            || (g.a.p in c.gated && (g.a.vc == EscapeVc(c.cls, d, g.a.p) || g.a.p == 0))
            || (g.a.p == s && !g.misrouted && (s, g.a.vc, d) in c.injected))
  {
    var l := |route| - 1;
    if l > 0 {
      assert Route(c, s, d, route[..l]);
      HeldChannel(c, s, d, route[..l]);
      assert Asks(c, d, route[l - 1], route[l]) || Leaves(c, s, d, route[l - 1], route[l]);
    }
  }
}
