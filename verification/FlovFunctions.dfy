/** The fly-over routing functions as they run in a router: on router numbers, virtual-channel
    ranges and the router's view of its neighbours. */
module FlovFunctions {
  import opened Arithmetic
  import opened Ports
  import opened Mesh
  import opened FlovRouting
  import D = DimensionOrder

  /** A range of virtual channels at an output port. */
  datatype Range = Range(port: int, vcStart: int, vcEnd: int)

  /** Ranges by priority. The set orders its elements by priority alone, so that a second range
      of the same priority is not inserted. */
  type OutputSet = map<int, Range>

  function AddRange(s: OutputSet, port: int, vcStart: int, vcEnd: int, pri: int): OutputSet {
    if pri in s then s else s[pri := Range(port, vcStart, vcEnd)]
  }

  /** Some range holds channel `vc` of `port`. */
  ghost predicate Grants(outputs: OutputSet, port: int, vc: int) {
    exists pri :: pri in outputs && outputs[pri].port == port && outputs[pri].vcStart <= vc <= outputs[pri].vcEnd
  }

  lemma OneRange(outputs: OutputSet, pri: int, port: int, vc: int)
    requires outputs.Keys == {pri}
    ensures Grants(outputs, port, vc) <==> port == outputs[pri].port && outputs[pri].vcStart <= vc <= outputs[pri].vcEnd
  {
    assert pri in outputs;
  }

  lemma RangesGranted(outputs: OutputSet, port: int, vc: int, p: int, q: int)
    requires outputs.Keys <= {0, 1, p, q}
    ensures Grants(outputs, port, vc) <==>
              || GrantedAt(outputs, 0, port, vc) || GrantedAt(outputs, 1, port, vc)
              || GrantedAt(outputs, p, port, vc) || GrantedAt(outputs, q, port, vc)
  {
    if Grants(outputs, port, vc) {
      var pri :| pri in outputs && outputs[pri].port == port && outputs[pri].vcStart <= vc <= outputs[pri].vcEnd;
      assert pri in outputs.Keys;
    }
  }

  ghost predicate GrantedAt(outputs: OutputSet, pri: int, port: int, vc: int) {
    pri in outputs && outputs[pri].port == port && outputs[pri].vcStart <= vc <= outputs[pri].vcEnd
  }

  datatype PowerState = PowerOn | PowerOff | Draining | Wakeup

  /** The virtual channels of the packet's traffic class; the first is the escape channel. */
  datatype Class = Class(vcBegin: int, vcEnd: int)

  /** What router `at` knows about its surroundings is accurate. */
  ghost predicate Accurate(k: int, off: set<Node>, at: Node, power: seq<PowerState>, logical: seq<int>) {
    && |power| == |logical| == 4
    && forall port | EAST <= port <= NORTH ::
         && (power[port] == PowerOn <==> NeighborOn(k, off, at, port))
         && var d := Fly(k, off, at, port);
            logical[port] == if d == 0 then -1 else Id(k, Ahead(at, port, d))
  }

  lemma IdDigits(k: nat, n: Node)
    requires InMesh(k, n)
    ensures Id(k, n) == D.Value(k, [n.x, n.y]) && D.Digits(k, [n.x, n.y])
    ensures Id(k, n) % k == n.x && Id(k, n) / k == n.y && Id(k, n) >= 0
  {
    assert [n.x, n.y][1..] == [n.y] && [n.y][1..] == [];
    assert k * D.Value(k, []) == 0;
    assert n.y * k == k * n.y;
    D.DivMod(k, n.x, n.y);
  }

  /** The last row is recognised by comparing router numbers. */
  lemma LastRow(k: nat, n: Node)
    requires InMesh(k, n)
    ensures Id(k, n) < k * k - k <==> n.y < k - 1
  {
    if n.y < k - 1 {
      Multiply(n.y + 1, k - 1, k);
      assert k * (n.y + 1) == n.y * k + k && k * (k - 1) == k * k - k;
    } else {
      assert (k - 1) * k == k * k - k;
    }
  }

  lemma DorIsNextPort(k: nat, at: Node, dest: Node, descending: bool)
    requires InMesh(k, at) && InMesh(k, dest)
    ensures D.NextPort([at.x, at.y], [dest.x, dest.y], descending) == Dor(at, dest, descending)
  {
    var c, d: seq<nat> := [at.x, at.y], [dest.x, dest.y];
    if c != d {
      var i := if descending then D.LastDiff(c, d) else D.FirstDiff(c, d);
      assert c[0] == at.x && c[1] == at.y && d[0] == dest.x && d[1] == dest.y;
      assert i == 0 || i == 1;
    } else {
      assert c[0] == d[0] && c[1] == d[1];
    }
  }

  method DorNextMesh2(k: nat, cur: nat, dest: nat, descending: bool, ghost a: Node, ghost b: Node) returns (port: int)
    requires InMesh(k, a) && InMesh(k, b) && cur == Id(k, a) && dest == Id(k, b)
    ensures port == Dor(a, b, descending)
  {
    IdDigits(k, a);
    IdDigits(k, b);
    DorIsNextPort(k, a, b, descending);
    port := D.DorNextMesh(k, 2, cur, dest, descending, [a.x, a.y], [b.x, b.y]);
  }

  /** The range offered for a routing choice. */
  function Offered(c: Choice, cls: Class): OutputSet {
    if c.escape then map[0 := Range(c.port, cls.vcBegin, cls.vcBegin)]
    else map[0 := Range(c.port, cls.vcBegin + 1, cls.vcEnd)]
  }

  /** Whether a packet counts as being on the escape channel; the injection channel is ignored. */
  function OnEscape(cls: Class, inChannel: int, vc: int): bool {
    (if inChannel == LOCAL then cls.vcEnd else vc) == cls.vcBegin
  }

  /** Of the channels of the class exactly those are offered that show at the next router whether the packet is
      on the escape channel. */
  lemma OfferShows(c: Choice, cls: Class, inChannel: int, w: int)
    requires inChannel != LOCAL && cls.vcBegin <= w <= cls.vcEnd
    ensures Grants(Offered(c, cls), c.port, w) <==> OnEscape(cls, inChannel, w) == c.escape
  {
    OneRange(Offered(c, cls), 0, c.port, w);
  }

  /** A packet that its node has just put into the router is not on the escape channel. */
  lemma FreshIsRegular(cls: Class, vc: int)
    requires cls.vcBegin < cls.vcEnd
    ensures !OnEscape(cls, LOCAL, vc)
  {
  }

  method FlovMesh(k: nat, cls: Class, cur: nat, dest: nat, inChannel: int, vc: int, late: bool,
                  power: seq<PowerState>, ghost logical: seq<int>, inject: bool,
                  ghost off: set<Node>, ghost a: Node, ghost b: Node)
    returns (outputs: OutputSet)
    requires InMesh(k, a) && InMesh(k, b) && cur == Id(k, a) && dest == Id(k, b)
    requires Accurate(k, off, a, power, logical)
    ensures inject ==> outputs == map[0 := Range(-1, cls.vcBegin, cls.vcEnd)]
    ensures !inject && a == b ==> outputs == map[0 := Range(LOCAL, cls.vcBegin, cls.vcEnd)]
    ensures !inject && a != b ==>
              outputs == Offered(FlovChoice(k, off, a, b, OnEscape(cls, inChannel, vc) || late), cls)
  {
    outputs := map[];
    var vcBegin, vcEnd := cls.vcBegin, cls.vcEnd;
    IdDigits(k, a);
    IdDigits(k, b);
    if inject {
      return AddRange(outputs, -1, vcBegin, vcEnd, 0);
    } else if cur == dest {
      return AddRange(outputs, LOCAL, vcBegin, vcEnd, 0);
    }
    var inVc := if inChannel == LOCAL then vcEnd else vc;
    var escape := false;
    if inVc == vcBegin { escape := true; }
    var outPort := DorNextMesh2(k, cur, dest, false, a, b);
    if power[outPort] != PowerOn {
      outPort := DorNextMesh2(k, cur, dest, true, a, b);
    }
    if late { escape := true; }
    if cur % k != dest % k && cur / k != dest / k && power[outPort] != PowerOn {
      escape := true;
    }
    if escape {
      LastRow(k, a);
      if cur < k * k - k && cur % k != dest % k && cur / k != dest / k {
        outPort := SOUTH;
      }
      vcEnd := vcBegin;
    } else {
      vcBegin := vcBegin + 1;
    }
    outputs := AddRange(outputs, outPort, vcBegin, vcEnd, 0);
  }

  method OptRflovMesh(k: nat, cls: Class, cur: nat, dest: nat, inChannel: int, vc: int, late: bool,
                      power: seq<PowerState>, ghost logical: seq<int>, inject: bool,
                      ghost off: set<Node>, ghost a: Node, ghost b: Node)
    returns (outputs: OutputSet)
    requires InMesh(k, a) && InMesh(k, b) && cur == Id(k, a) && dest == Id(k, b)
    requires Accurate(k, off, a, power, logical)
    ensures inject ==> outputs == map[0 := Range(-1, cls.vcBegin, cls.vcEnd)]
    ensures !inject && a == b ==> outputs == map[0 := Range(LOCAL, cls.vcBegin, cls.vcEnd)]
    ensures !inject && a != b ==>
              outputs == Offered(Choose(Rflov, k, off, a, inChannel, b, OnEscape(cls, inChannel, vc) || late), cls)
  {
    var vcBegin, vcEnd, outPort := cls.vcBegin, cls.vcEnd, -1;
    IdDigits(k, a);
    IdDigits(k, b);
    if inject {
      outPort := -1;
    } else if cur == dest {
      outPort := LOCAL;
    } else {
      var inVc := if inChannel == LOCAL then vcEnd else vc;
      var escape := inVc == vcBegin || late;
      outPort := DorNextMesh2(k, cur, dest, false, a, b);
      if cur % k != dest % k && cur / k != dest / k && power[outPort] != PowerOn {
        if dest % k > cur % k + 1 {
          outPort := EAST;
        } else if dest % k < cur % k - 1 {
          outPort := WEST;
        } else if dest / k < cur / k - 1 && !escape {
          outPort := NORTH;
        } else {
          outPort := SOUTH;
        }
        if inChannel == SOUTH && outPort == SOUTH { escape := true; }
      }
      if escape {
        if cur < k * k - k && cur % k != dest % k && cur / k != dest / k && outPort == NORTH {
          outPort := SOUTH;
        }
        vcEnd := vcBegin;
      } else {
        vcBegin := vcBegin + 1;
      }
    }
    outputs := AddRange(map[], outPort, vcBegin, vcEnd, 0);
  }

  /** The logical neighbours seen from router `a`, as coordinates. */
  ghost predicate Seen(k: nat, off: set<Node>, a: Node, xs: seq<int>, ys: seq<int>) {
    && |xs| == |ys| == 4
    && forall port | EAST <= port <= NORTH ::
         var d := Fly(k, off, a, port);
         if d == 0 then xs[port] == -1 && ys[port] == -1
         else xs[port] == Ahead(a, port, d).x && ys[port] == Ahead(a, port, d).y
  }

  /** Column and row of the logical neighbours, -1 where there is none. */
  method LogicalCoordinates(k: nat, logical: seq<int>, power: seq<PowerState>, ghost off: set<Node>, ghost a: Node)
    returns (xs: seq<int>, ys: seq<int>)
    requires InMesh(k, a) && Accurate(k, off, a, power, logical)
    ensures Seen(k, off, a, xs, ys)
  {
    xs, ys := [-1, -1, -1, -1], [-1, -1, -1, -1];
    for i := 0 to 4
      invariant |xs| == |ys| == 4
      invariant forall port | i <= port <= NORTH :: xs[port] == -1 && ys[port] == -1
      invariant forall port | EAST <= port < i ::
                  var d := Fly(k, off, a, port);
                  if d == 0 then xs[port] == -1 && ys[port] == -1
                  else xs[port] == Ahead(a, port, d).x && ys[port] == Ahead(a, port, d).y
    {
      ghost var d := Fly(k, off, a, i);
      if d > 0 { IdDigits(k, Ahead(a, i, d)); }
      if logical[i] != -1 {
        xs := xs[i := logical[i] % k];
        ys := ys[i := logical[i] / k];
      }
    }
  }

  method LogicalDetour(destX: int, destY: int, lx: seq<int>, ly: seq<int>, escape: bool,
                       ghost k: nat, ghost off: set<Node>, ghost a: Node, ghost b: Node)
    returns (outPort: int)
    requires InMesh(k, b) && destX == b.x && destY == b.y && Seen(k, off, a, lx, ly)
    ensures outPort == GflovDetour(k, off, a, b, escape)
  {
    if lx[EAST] != -1 && destX >= lx[EAST] {
      outPort := EAST;
    } else if lx[WEST] != -1 && destX <= lx[WEST] {
      outPort := WEST;
    } else if ly[NORTH] != -1 && destY <= ly[NORTH] && !escape {
      outPort := NORTH;
    } else {
      outPort := SOUTH;
    }
  }

  method OptFlovMesh(k: nat, cls: Class, cur: nat, dest: nat, inChannel: int, vc: int, late: bool,
                     power: seq<PowerState>, logical: seq<int>, inject: bool,
                     ghost off: set<Node>, ghost a: Node, ghost b: Node)
    returns (outputs: OutputSet)
    requires InMesh(k, a) && InMesh(k, b) && cur == Id(k, a) && dest == Id(k, b) && inChannel <= LOCAL
    requires Accurate(k, off, a, power, logical)
    ensures inject ==> outputs == map[0 := Range(-1, cls.vcBegin, cls.vcEnd)]
    ensures !inject && a == b ==> outputs == map[0 := Range(LOCAL, cls.vcBegin, cls.vcEnd)]
    ensures !inject && a != b ==>
              outputs == Offered(Choose(Gflov, k, off, a, inChannel, b, OnEscape(cls, inChannel, vc) || late), cls)
  {
    var vcBegin, vcEnd, outPort := cls.vcBegin, cls.vcEnd, -1;
    IdDigits(k, a);
    IdDigits(k, b);
    if inject {
      outPort := -1;
    } else if cur == dest {
      outPort := LOCAL;
    } else {
      var inVc := if inChannel >= LOCAL then vcEnd else vc;
      var escape := inVc == vcBegin || late;
      var destX, destY := dest % k, dest / k;
      var lx, ly := LogicalCoordinates(k, logical, power, off, a);
      outPort := DorNextMesh2(k, cur, dest, false, a, b);
      if cur % k != dest % k && cur / k != dest / k && power[outPort] != PowerOn {
        outPort := LogicalDetour(destX, destY, lx, ly, escape, k, off, a, b);
        if inChannel == SOUTH && outPort == SOUTH { escape := true; }
      }
      if escape {
        if cur < k * k - k && cur % k != dest % k && cur / k != dest / k && outPort == NORTH {
          outPort := SOUTH;
        }
        vcEnd := vcBegin;
      } else {
        vcBegin := vcBegin + 1;
      }
    }
    outputs := AddRange(map[], outPort, vcBegin, vcEnd, 0);
  }

  /** The x direction is free or its gated routers end before the destination's column. */
  ghost predicate AvailableX(k: nat, off: set<Node>, a: Node, b: Node, power: seq<PowerState>)
    requires |power| == 4 && !Aligned(a, b)
  {
    var xy := Dor(a, b, false);
    power[xy] == PowerOn || (power[xy] == PowerOff && (Before(k, off, a, b, EAST) || Before(k, off, a, b, WEST)))
  }

  ghost predicate AvailableY(k: nat, off: set<Node>, a: Node, b: Node, power: seq<PowerState>)
    requires |power| == 4 && !Aligned(a, b)
  {
    var yx := Dor(a, b, true);
    power[yx] == PowerOn || (power[yx] == PowerOff && Before(k, off, a, b, NORTH))
  }

  /** Directions for regular packets of `adaptive_flov_mesh`: the one that is left in the row or
      column of the destination; otherwise the available minimal ones, but not back, and if there
      are none the escape direction. */
  ghost predicate RegularPort(k: nat, off: set<Node>, a: Node, b: Node, inChannel: int, power: seq<PowerState>, port: int)
    requires |power| == 4
  {
    if Aligned(a, b) then port == Dor(a, b, false)
    else
      || (port == Dor(a, b, false) && AvailableX(k, off, a, b, power) && port != inChannel)
      || (port == Dor(a, b, true) && AvailableY(k, off, a, b, power) && port != inChannel)
      || (port == FlovChoice(k, off, a, b, true).port && port != inChannel
          && !AvailableX(k, off, a, b, power) && !AvailableY(k, off, a, b, power))
  }

  /** Their priorities: of two minimal directions the one with more credit comes first. */
  ghost predicate Preferred(k: nat, off: set<Node>, a: Node, b: Node, inChannel: int, power: seq<PowerState>, credit: seq<int>,
                            outputs: OutputSet)
    requires |power| == |credit| == 4 && !Aligned(a, b)
  {
    var xy, yx := Dor(a, b, false), Dor(a, b, true);
    var pri := if credit[xy] >= credit[yx] then 2 else 1;
    && (AvailableX(k, off, a, b, power) && xy != inChannel ==> pri in outputs && outputs[pri].port == xy)
    && (AvailableY(k, off, a, b, power) && yx != inChannel ==> 3 - pri in outputs && outputs[3 - pri].port == yx)
  }

  /** If both minimal directions are offered, the one with more credit has the higher priority, and both come
      before the escape channel. */
  lemma CreditDecides(k: nat, off: set<Node>, a: Node, b: Node, inChannel: int, power: seq<PowerState>, credit: seq<int>, outputs: OutputSet)
    returns (i: int, j: int)
    requires |power| == |credit| == 4 && !Aligned(a, b) && Preferred(k, off, a, b, inChannel, power, credit, outputs)
    requires AvailableX(k, off, a, b, power) && Dor(a, b, false) != inChannel
    requires AvailableY(k, off, a, b, power) && Dor(a, b, true) != inChannel
    ensures i in outputs && j in outputs && i > 0 && j > 0
    ensures outputs[i].port == Dor(a, b, false) && outputs[j].port == Dor(a, b, true)
    ensures credit[Dor(a, b, false)] > credit[Dor(a, b, true)] ==> i > j
    ensures credit[Dor(a, b, false)] < credit[Dor(a, b, true)] ==> i < j
  {
    i := if credit[Dor(a, b, false)] >= credit[Dor(a, b, true)] then 2 else 1;
    j := 3 - i;
  }

  /** A row can be used exactly if a powered router lies towards the destination's column, not beyond it; a
      column exactly if the neighbour is powered, or if likewise one lies in it to the north. */
  lemma AvailableIff(k: nat, off: set<Node>, a: Node, b: Node, power: seq<PowerState>, logical: seq<int>)
    requires InMesh(k, a) && InMesh(k, b) && !Aligned(a, b) && Accurate(k, off, a, power, logical)
    requires forall port | EAST <= port <= NORTH :: power[port] in [PowerOn, PowerOff]
    ensures AvailableX(k, off, a, b, power) <==> PoweredWithin(k, off, a, TowardsColumn(a, b), Dx(a, b))
    ensures AvailableY(k, off, a, b, power) <==>
              || NeighborOn(k, off, a, TowardsRow(a, b))
              || (b.y < a.y && PoweredWithin(k, off, a, NORTH, Dy(a, b)))
  {
    WithinIff(k, off, a, TowardsColumn(a, b), Dx(a, b));
    WithinIff(k, off, a, TowardsRow(a, b), Dy(a, b));
    if NeighborOn(k, off, a, TowardsColumn(a, b)) { Lands(k, off, a, TowardsColumn(a, b), 1); }
    if NeighborOn(k, off, a, TowardsRow(a, b)) { Lands(k, off, a, TowardsRow(a, b), 1); }
  }

  /** What `adaptive_flov_mesh` offers: the escape channel in the escape direction of `flov_mesh`, and to
      regular packets exactly the other channels of the regular directions. */
  ghost predicate AdaptiveOffer(k: nat, cls: Class, off: set<Node>, a: Node, b: Node, inChannel: int, regular: bool,
                                power: seq<PowerState>, outputs: OutputSet)
    requires |power| == 4
  {
    var escapePort := FlovChoice(k, off, a, b, true).port;
    && 0 in outputs && outputs[0] == Range(escapePort, cls.vcBegin, cls.vcBegin)
    && forall port, w :: Grants(outputs, port, w) <==>
         || (port == escapePort && w == cls.vcBegin)
         || (regular && cls.vcBegin + 1 <= w <= cls.vcEnd && RegularPort(k, off, a, b, inChannel, power, port))
  }

  ghost predicate Nearer(k: nat, off: set<Node>, a: Node, b: Node, port: int) {
    var d := Fly(k, off, a, port);
    d > 0 && FlovRouting.Distance(Ahead(a, port, d), b) == FlovRouting.Distance(a, b) - d
  }

  lemma DirectionIsNearer(k: nat, off: set<Node>, a: Node, b: Node, port: int)
    requires InMesh(k, a) && InMesh(k, b) && !Aligned(a, b)
    requires port == Dor(a, b, false) || port == Dor(a, b, true)
    requires NeighborOn(k, off, a, port) || Before(k, off, a, b, port)
    ensures Nearer(k, off, a, b, port)
  {
    if NeighborOn(k, off, a, port) { Lands(k, off, a, port, 1); }
  }

  lemma AlignedIsNearer(k: nat, off: set<Node>, a: Node, b: Node)
    requires InMesh(k, a) && InMesh(k, b) && b !in off && Aligned(a, b) && a != b
    ensures Nearer(k, off, a, b, Dor(a, b, false))
  {
    Lands(k, off, a, Dor(a, b, false), FlovRouting.Distance(a, b));
  }

  lemma AvailableIsNearer(k: nat, off: set<Node>, a: Node, b: Node, power: seq<PowerState>, logical: seq<int>)
    requires InMesh(k, a) && Legal(Flov, k, off, b) && Accurate(k, off, a, power, logical) && a != b
    ensures Aligned(a, b) ==> Nearer(k, off, a, b, Dor(a, b, false))
    ensures !Aligned(a, b) && AvailableX(k, off, a, b, power) ==> Nearer(k, off, a, b, Dor(a, b, false))
    ensures !Aligned(a, b) && AvailableY(k, off, a, b, power) ==> Nearer(k, off, a, b, Dor(a, b, true))
    ensures a.y == k - 1 && a.x != b.x ==> FlovChoice(k, off, a, b, true).port == Dor(a, b, false)
  {
    var xy, yx := Dor(a, b, false), Dor(a, b, true);
    if Aligned(a, b) {
      AlignedIsNearer(k, off, a, b);
    } else {
      if AvailableX(k, off, a, b, power) { DirectionIsNearer(k, off, a, b, xy); }
      if AvailableY(k, off, a, b, power) { DirectionIsNearer(k, off, a, b, yx); }
    }
  }

  /** The regular directions lead nearer to the destination, or are the escape direction. */
  lemma RegularIsNearer(k: nat, off: set<Node>, a: Node, b: Node, inChannel: int, power: seq<PowerState>, logical: seq<int>, port: int)
    requires InMesh(k, a) && Legal(Flov, k, off, b) && Accurate(k, off, a, power, logical) && a != b
    requires RegularPort(k, off, a, b, inChannel, power, port)
    ensures port == FlovChoice(k, off, a, b, true).port || Nearer(k, off, a, b, port)
  {
    AvailableIsNearer(k, off, a, b, power, logical);
  }

  method AdaptiveFlovMesh(k: nat, cls: Class, cur: nat, dest: nat, inChannel: int, vc: int, misrouted: bool,
                          power: seq<PowerState>, logical: seq<int>, credit: seq<int>, inject: bool,
                          ghost off: set<Node>, ghost a: Node, ghost b: Node)
    returns (outputs: OutputSet)
    requires InMesh(k, a) && Legal(Flov, k, off, b) && cur == Id(k, a) && dest == Id(k, b)
    requires Accurate(k, off, a, power, logical) && |credit| == 4 && inChannel <= LOCAL
    ensures inject ==> outputs == map[0 := Range(-1, cls.vcBegin, cls.vcEnd)]
    ensures !inject && a == b ==> outputs == map[0 := Range(LOCAL, cls.vcBegin, cls.vcEnd)]
    ensures !inject && a != b ==>
              var regular := !OnEscape(cls, inChannel, vc) && !misrouted;
              && AdaptiveOffer(k, cls, off, a, b, inChannel, regular, power, outputs)
              && (regular && !Aligned(a, b) && cls.vcBegin < cls.vcEnd ==> Preferred(k, off, a, b, inChannel, power, credit, outputs))
    ensures !inject && a != b ==> forall pri | pri in outputs && pri != 0 ::
              outputs[pri].port == FlovChoice(k, off, a, b, true).port || Nearer(k, off, a, b, outputs[pri].port)
  {
    outputs := map[];
    var vcBegin, vcEnd := cls.vcBegin, cls.vcEnd;
    IdDigits(k, a);
    IdDigits(k, b);
    if inject {
      return AddRange(outputs, -1, vcBegin, vcEnd, 0);
    } else if cur == dest {
      return AddRange(outputs, LOCAL, vcBegin, vcEnd, 0);
    }
    var inVc := if inChannel >= LOCAL then vcEnd else vc;
    var inEscape := inVc == vcBegin;
    var escapeOutPort := DorNextMesh2(k, cur, dest, false, a, b);
    LastRow(k, a);
    AvailableIsNearer(k, off, a, b, power, logical);
    if cur < k * k - k && cur % k != dest % k && cur / k != dest / k && escapeOutPort != NORTH {
      escapeOutPort := SOUTH;
    }
    outputs := AddRange(outputs, escapeOutPort, vcBegin, vcBegin, 0);
    if !inEscape && !misrouted {
      outputs := AddRegular(k, cls, cur, dest, inChannel, power, logical, credit, escapeOutPort, outputs, off, a, b);
    } else {
      forall port, w ensures Grants(outputs, port, w) <==> port == escapeOutPort && w == vcBegin { OneRange(outputs, 0, port, w); }
    }
  }

  /** The regular ranges, on the channels above the escape channel. */
  method AddRegular(k: nat, cls: Class, cur: nat, dest: nat, inChannel: int,
                    power: seq<PowerState>, logical: seq<int>, credit: seq<int>,
                    escapeOutPort: int, outputs0: OutputSet,
                    ghost off: set<Node>, ghost a: Node, ghost b: Node)
    returns (outputs: OutputSet)
    requires InMesh(k, a) && Legal(Flov, k, off, b) && cur == Id(k, a) && dest == Id(k, b) && a != b
    requires Accurate(k, off, a, power, logical) && |credit| == 4
    requires escapeOutPort == FlovChoice(k, off, a, b, true).port
    requires outputs0 == map[0 := Range(escapeOutPort, cls.vcBegin, cls.vcBegin)]
    ensures AdaptiveOffer(k, cls, off, a, b, inChannel, true, power, outputs)
    ensures !Aligned(a, b) ==> Preferred(k, off, a, b, inChannel, power, credit, outputs)
    ensures forall pri | pri in outputs && pri != 0 :: RegularPort(k, off, a, b, inChannel, power, outputs[pri].port)
  {
    outputs := outputs0;
    IdDigits(k, a);
    IdDigits(k, b);
    var xy := DorNextMesh2(k, cur, dest, false, a, b);
    var yx := DorNextMesh2(k, cur, dest, true, a, b);
    if cur % k == dest % k || cur / k == dest / k {
      outputs := AddRange(outputs, xy, cls.vcBegin + 1, cls.vcEnd, 1);
    } else {
      var xyAvailable, yxAvailable := Availability(k, dest % k, dest / k, xy, yx, power, logical, off, a, b);
      outputs := AddAvailable(cls, inChannel, xy, yx, xyAvailable, yxAvailable, credit, escapeOutPort, outputs);
    }
    forall port, w
      ensures Grants(outputs, port, w) <==>
                || (port == escapeOutPort && w == cls.vcBegin)
                || (cls.vcBegin + 1 <= w <= cls.vcEnd && RegularPort(k, off, a, b, inChannel, power, port))
    {
      RangesGranted(outputs, port, w, 1, 2);
    }
  }

  /** The ranges of the available directions by credit, or of the escape direction. */
  method AddAvailable(cls: Class, inChannel: int, xy: int, yx: int, xyAvailable: bool, yxAvailable: bool, credit: seq<int>,
                      escapeOutPort: int, outputs0: OutputSet)
    returns (outputs: OutputSet)
    requires |credit| == 4 && EAST <= xy <= NORTH && EAST <= yx <= NORTH && xy != yx && outputs0.Keys == {0}
    ensures 0 in outputs && outputs[0] == outputs0[0] && outputs.Keys <= {0, 1, 2}
    ensures
      var pri := if credit[xy] >= credit[yx] then 2 else 1;
      var none := !xyAvailable && !yxAvailable && escapeOutPort != inChannel;
      && (pri in outputs <==> (xyAvailable && xy != inChannel) || (pri == 1 && none))
      && (3 - pri in outputs <==> (yxAvailable && yx != inChannel) || (pri == 2 && none))
      && (pri in outputs ==> outputs[pri] == Range(if none then escapeOutPort else xy, cls.vcBegin + 1, cls.vcEnd))
      && (3 - pri in outputs ==> outputs[3 - pri] == Range(if none then escapeOutPort else yx, cls.vcBegin + 1, cls.vcEnd))
  {
    outputs := outputs0;
    var vcBegin, vcEnd := cls.vcBegin + 1, cls.vcEnd;
    var xyPri, yxPri := 1, 2;
    if credit[xy] >= credit[yx] { xyPri, yxPri := 2, 1; }
    if xyAvailable && xy != inChannel {
      outputs := AddRange(outputs, xy, vcBegin, vcEnd, xyPri);
    }
    if yxAvailable && yx != inChannel {
      outputs := AddRange(outputs, yx, vcBegin, vcEnd, yxPri);
    }
    if !xyAvailable && !yxAvailable && escapeOutPort != inChannel {
      outputs := AddRange(outputs, escapeOutPort, vcBegin, vcEnd, 1);
    }
  }

  /** Whether a minimal direction is free, or gated but with its next powered router in time. */
  method Availability(k: nat, destX: int, destY: int, xy: int, yx: int,
                      power: seq<PowerState>, logical: seq<int>, ghost off: set<Node>, ghost a: Node, ghost b: Node)
    returns (xyAvailable: bool, yxAvailable: bool)
    requires InMesh(k, a) && InMesh(k, b) && !Aligned(a, b) && destX == b.x && destY == b.y
    requires xy == Dor(a, b, false) && yx == Dor(a, b, true)
    requires Accurate(k, off, a, power, logical)
    ensures xyAvailable == AvailableX(k, off, a, b, power)
    ensures yxAvailable == AvailableY(k, off, a, b, power)
  {
    var lx, ly := LogicalCoordinates(k, logical, power, off, a);
    xyAvailable, yxAvailable := power[xy] == PowerOn, power[yx] == PowerOn;
    if power[xy] == PowerOff &&
       ((lx[EAST] != -1 && destX >= lx[EAST]) || (lx[WEST] != -1 && destX <= lx[WEST])) {
      xyAvailable := true;
    }
    if power[yx] == PowerOff && ly[NORTH] != -1 && destY <= ly[NORTH] {
      yxAvailable := true;
    }
  }

  // ---------- the escape channel of adaptive_flov_mesh ----------

  /** A hop on the escape channel from an offer of `adaptive_flov_mesh`. */
  ghost predicate EscapeHop(k: nat, off: set<Node>, dest: Node, p: Packet, q: Packet) {
    exists cls: Class, inChannel: int, regular: bool, power: seq<PowerState>, outputs: OutputSet ::
      && |power| == 4 && Legal(Flov, k, off, dest) && InMesh(k, p.at) && p.at != dest
      && AdaptiveOffer(k, cls, off, p.at, dest, inChannel, regular, power, outputs)
      && var port := outputs[0].port;
         var d := Fly(k, off, p.at, port);
         d > 0 && q == Packet(Ahead(p.at, port, d), Opposite(port), true)
  }

  ghost predicate EscapeWaits(k: nat, q: Packet, r: Packet) {
    exists dest, p, off, off' :: EscapeHop(k, off, dest, p, q) && EscapeHop(k, off', dest, q, r)
  }

  /** It is a hop of `flov_mesh` for a late packet, and so the escape channel cannot deadlock either. */
  lemma EscapeHopIsFlov(k: nat, off: set<Node>, dest: Node, p: Packet, q: Packet)
    requires EscapeHop(k, off, dest, p, q)
    ensures Hop(Flov, k, Env(off, true), dest, p, q)
  {
  }

  lemma AdaptiveEscapeAcyclic(k: nat, chain: seq<Packet>)
    requires |chain| > 1 && forall i | 0 <= i < |chain| - 1 :: EscapeWaits(k, chain[i], chain[i + 1])
    ensures (chain[0].at, chain[0].inPort) != (chain[|chain| - 1].at, chain[|chain| - 1].inPort)
  {
    forall i | 0 <= i < |chain| - 1 ensures Waits(Flov, k, chain[i], chain[i + 1]) {
      var dest, p, off, off' :| EscapeHop(k, off, dest, p, chain[i]) && EscapeHop(k, off', dest, chain[i], chain[i + 1]);
      EscapeHopIsFlov(k, off, dest, p, chain[i]);
      EscapeHopIsFlov(k, off', dest, chain[i], chain[i + 1]);
    }
    EscapeAcyclic(Flov, k, chain);
  }
}
