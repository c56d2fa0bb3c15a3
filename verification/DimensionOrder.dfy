/** Dimension-order routing in a mesh of radix `k` and any number of dimensions.

    A router number is a sequence of digits in base `k`, least significant first. */
module DimensionOrder {
  import opened Arithmetic

  function Power(k: nat, n: nat): (p: nat)
    ensures k > 0 ==> p > 0
  {
    if n == 0 then 1 else k * Power(k, n - 1)
  }

  ghost predicate Digits(k: nat, ds: seq<nat>) {
    forall i | 0 <= i < |ds| :: ds[i] < k
  }

  /** The router number whose digits are `ds`. */
  function Value(k: nat, ds: seq<nat>): nat {
    if ds == [] then 0 else ds[0] + k * Value(k, ds[1..])
  }

  lemma {:induction false} ValueBound(k: nat, ds: seq<nat>)
    requires Digits(k, ds)
    ensures Value(k, ds) < Power(k, |ds|)
  {
    if ds != [] {
      ValueBound(k, ds[1..]);
      Multiply(Value(k, ds[1..]) + 1, Power(k, |ds| - 1), k);
      assert k * (Value(k, ds[1..]) + 1) == k * Value(k, ds[1..]) + k;
    }
  }

  lemma DivMod(k: nat, d: nat, v: nat)
    requires d < k
    ensures (d + k * v) % k == d && (d + k * v) / k == v
  {
    var q, r := (d + k * v) / k, (d + k * v) % k;
    assert d + k * v == q * k + r;
    assert k * (v - q) == r - d;
    if v - q >= 1 { Multiply(1, v - q, k); }
    if v - q <= -1 { Multiply(v - q, -1, k); }
  }

  /** The most significant digit carries weight k^(n-1). */
  lemma {:induction false} ValueLast(k: nat, ds: seq<nat>)
    requires ds != []
    ensures Value(k, ds) == Value(k, ds[..|ds| - 1]) + ds[|ds| - 1] * Power(k, |ds| - 1)
  {
    if |ds| > 1 {
      var n := |ds|;
      ValueLast(k, ds[1..]);
      assert ds[1..][..n - 2] == ds[..n - 1][1..];
      Spread(k, Value(k, ds[..n - 1][1..]), ds[n - 1], Power(k, n - 2));
    } else {
      assert ds[1..] == [] && ds[..0] == [];
    }
  }

  lemma Spread(k: int, low: int, x: int, p: int)
    ensures k * (low + x * p) == k * low + x * (k * p)
  {
    assert k * (low + x * p) == k * low + k * (x * p);
    assert k * (x * p) == x * (k * p);
  }

  lemma {:induction false} ValueInjective(k: nat, a: seq<nat>, b: seq<nat>)
    requires Digits(k, a) && Digits(k, b) && |a| == |b|
    requires Value(k, a) == Value(k, b)
    ensures a == b
  {
    if a != [] {
      DivMod(k, a[0], Value(k, a[1..]));
      DivMod(k, b[0], Value(k, b[1..]));
      ValueInjective(k, a[1..], b[1..]);
      assert a == [a[0]] + a[1..] && b == [b[0]] + b[1..];
    }
  }

  /** Shifting one digit out at the top: quotient and remainder of a number of `m` leading zeros. */
  lemma TopDigit(k: nat, n: nat, m: nat, ds: seq<nat>)
    requires k > 0 && |ds| + m == n && ds != [] && Digits(k, ds)
    ensures
      var c := Power(k, m) * Value(k, ds);
      && c * k / Power(k, n) == ds[|ds| - 1]
      && c * k % Power(k, n) == Power(k, m + 1) * Value(k, ds[..|ds| - 1])
  {
    var l := |ds| - 1;
    var low := ds[..l];
    ValueLast(k, ds);
    ValueBound(k, low);
    PowerAdd(k, m + 1, l);
    var pm, pl, pn := Power(k, m + 1), Power(k, l), Power(k, n);
    assert Power(k, m) * Value(k, ds) * k == pm * Value(k, ds) by {
      assert pm == k * Power(k, m);
      Swap(Power(k, m), Value(k, ds), k);
    }
    Distribute(pm, Value(k, low), ds[l], pl);
    Below(pm, Value(k, low), pl);
    DivMod(pn, pm * Value(k, low), ds[l]);
    assert ds[l] * pn == pn * ds[l];
  }

  lemma Swap(a: int, b: int, c: int)
    ensures a * b * c == (c * a) * b
  {
  }

  lemma Distribute(a: int, b: int, c: int, d: int)
    ensures a * (b + c * d) == a * b + c * (a * d)
  {
  }

  lemma Below(p: int, x: int, y: int)
    requires p > 0 && x < y
    ensures p * x < p * y
  {
    Multiply(x + 1, y, p);
    assert p * (x + 1) == p * x + p;
  }

  lemma {:induction false} PowerAdd(k: nat, a: nat, b: nat)
    ensures Power(k, a) * Power(k, b) == Power(k, a + b)
  {
    if a > 0 {
      PowerAdd(k, a - 1, b);
      Swap(Power(k, a - 1), Power(k, b), k);
    }
  }

  lemma LowDigit(k: nat, ds: seq<nat>, i: nat)
    requires k > 0 && i < |ds| && Digits(k, ds)
    ensures Value(k, ds[i..]) % k == ds[i] && Value(k, ds[i..]) / k == Value(k, ds[i + 1..])
  {
    assert ds[i..][1..] == ds[i + 1..];
    DivMod(k, ds[i], Value(k, ds[i + 1..]));
  }

  // ---------- the next port ----------

  ghost function FirstDiff(c: seq<nat>, d: seq<nat>): (i: nat)
    requires |c| == |d| && c != d
    ensures i < |c| && c[i] != d[i] && forall j | 0 <= j < i :: c[j] == d[j]
  {
    if c[0] != d[0] then 0
    else
      assert c == [c[0]] + c[1..] && d == [d[0]] + d[1..];
      var i := FirstDiff(c[1..], d[1..]) + 1;
      assert forall j | 1 <= j < i :: c[1..][j - 1] == c[j] && d[1..][j - 1] == d[j];
      i
  }

  ghost function LastDiff(c: seq<nat>, d: seq<nat>): (i: nat)
    requires |c| == |d| && c != d
    ensures i < |c| && c[i] != d[i] && forall j | i < j < |c| :: c[j] == d[j]
  {
    var l := |c| - 1;
    if c[l] != d[l] then l
    else
      assert c == c[..l] + [c[l]] && d == d[..l] + [d[l]];
      LastDiff(c[..l], d[..l])
  }

  /** The port towards `d` in the lowest dimension that still differs, or in the highest when
      `descending`; the ejection port at `d` itself. */
  ghost function NextPort(c: seq<nat>, d: seq<nat>, descending: bool): (port: nat)
    requires |c| == |d|
  {
    if c == d then 2 * |c|
    else
      var dim := if descending then LastDiff(c, d) else FirstDiff(c, d);
      2 * dim + (if c[dim] < d[dim] then 0 else 1)
  }

  /** Ascending scan: low digits are divided away while they agree. */
  method NextAscending(k: nat, n: nat, cur0: nat, dest0: nat, ghost c: seq<nat>, ghost d: seq<nat>) returns (port: nat)
    requires k > 0 && n > 0 && |c| == |d| == n && Digits(k, c) && Digits(k, d) && c != d
    requires cur0 == Value(k, c) && dest0 == Value(k, d)
    ensures port == NextPort(c, d, false)
  {
    var cur, dest, dimLeft := cur0, dest0, 0;
    while dimLeft < n - 1
      invariant dimLeft <= n - 1 && forall j | 0 <= j < dimLeft :: c[j] == d[j]
      invariant cur == Value(k, c[dimLeft..]) && dest == Value(k, d[dimLeft..])
    {
      LowDigit(k, c, dimLeft);
      LowDigit(k, d, dimLeft);
      if cur % k != dest % k { break; }
      cur, dest := cur / k, dest / k;
      dimLeft := dimLeft + 1;
    }
    LowDigit(k, c, dimLeft);
    LowDigit(k, d, dimLeft);
    cur, dest := cur % k, dest % k;
    port := if cur < dest then 2 * dimLeft else 2 * dimLeft + 1;
  }

  lemma HighDigit(k: nat, n: nat, i: nat, ds: seq<nat>)
    requires k > 0 && i < n == |ds| && Digits(k, ds)
    ensures
      var c := Power(k, n - 1 - i) * Value(k, ds[..i + 1]);
      && Power(k, n) > 0 && c * k / Power(k, n) == ds[i]
      && c * k % Power(k, n) == Power(k, n - i) * Value(k, ds[..i])
  {
    TopDigit(k, n, n - 1 - i, ds[..i + 1]);
    assert ds[..i + 1][..i] == ds[..i];
  }

  /** Descending scan: high digits are shifted out at the top while they agree. */
  method NextDescending(k: nat, n: nat, cur0: nat, dest0: nat, ghost c: seq<nat>, ghost d: seq<nat>) returns (port: nat)
    requires k > 0 && n > 0 && |c| == |d| == n && Digits(k, c) && Digits(k, d) && c != d
    requires cur0 == Value(k, c) && dest0 == Value(k, d)
    ensures port == NextPort(c, d, true)
  {
    var nodes := Power(k, n);
    var cur, dest, dimLeft := cur0, dest0, n - 1;
    assert c[..n] == c && d[..n] == d;
    while dimLeft > 0
      invariant 0 <= dimLeft <= n - 1 && forall j | dimLeft < j < n :: c[j] == d[j]
      invariant cur == Power(k, n - 1 - dimLeft) * Value(k, c[..dimLeft + 1])
      invariant dest == Power(k, n - 1 - dimLeft) * Value(k, d[..dimLeft + 1])
    {
      HighDigit(k, n, dimLeft, c);
      HighDigit(k, n, dimLeft, d);
      if cur * k / nodes != dest * k / nodes { break; }
      cur, dest := cur * k % nodes, dest * k % nodes;
      dimLeft := dimLeft - 1;
    }
    HighDigit(k, n, dimLeft, c);
    HighDigit(k, n, dimLeft, d);
    cur, dest := cur * k / nodes, dest * k / nodes;
    port := if cur < dest then 2 * dimLeft else 2 * dimLeft + 1;
  }

  /** `dor_next_mesh` on router numbers computes the next port on their digits. */
  method DorNextMesh(k: nat, n: nat, cur: nat, dest: nat, descending: bool, ghost c: seq<nat>, ghost d: seq<nat>)
    returns (port: nat)
    requires k > 0 && n > 0 && |c| == |d| == n && Digits(k, c) && Digits(k, d)
    requires cur == Value(k, c) && dest == Value(k, d)
    ensures port == NextPort(c, d, descending)
  {
    if cur == dest {
      ValueInjective(k, c, d);
      return 2 * n;
    }
    if descending {
      port := NextDescending(k, n, cur, dest, c, d);
    } else {
      port := NextAscending(k, n, cur, dest, c, d);
    }
  }

  // ---------- whole routes ----------

  /** Hops between two routers: the sum of their digit differences. */
  ghost function Distance(c: seq<nat>, d: seq<nat>): (r: nat)
    requires |c| == |d|
    ensures r == 0 <==> c == d
  {
    if c == [] then 0
    else
      assert c == [c[0]] + c[1..] && d == [d[0]] + d[1..];
      (if c[0] < d[0] then d[0] - c[0] else c[0] - d[0]) + Distance(c[1..], d[1..])
  }

  /** The router behind a port that is not the ejection port. */
  ghost function Neighbor(c: seq<nat>, port: nat): seq<nat>
    requires port / 2 < |c| && (port % 2 == 1 ==> c[port / 2] > 0)
  {
    c[port / 2 := if port % 2 == 0 then c[port / 2] + 1 else c[port / 2] - 1]
  }

  lemma {:induction false} DistanceUpdate(c: seq<nat>, d: seq<nat>, i: nat, v: nat)
    requires |c| == |d| && i < |c|
    requires (c[i] < d[i] && v == c[i] + 1) || (d[i] < c[i] && v == c[i] - 1)
    ensures Distance(c[i := v], d) == Distance(c, d) - 1
  {
    if i == 0 {
      assert c[0 := v][1..] == c[1..];
    } else {
      DistanceUpdate(c[1..], d[1..], i - 1, v);
      assert c[i := v][1..] == c[1..][i - 1 := v];
    }
  }

  lemma PortDigits(port: nat, dim: nat, side: nat)
    requires port == 2 * dim + side && side < 2
    ensures port / 2 == dim && port % 2 == side
  {
  }

  function Towards(x: nat, y: nat): nat {
    if x < y then x + 1 else if y < x then x - 1 else x
  }

  lemma StepThrough(c: seq<nat>, port: nat, dim: nat, y: nat)
    requires dim < |c| && c[dim] != y && port == 2 * dim + if c[dim] < y then 0 else 1
    ensures port / 2 < |c| && (port % 2 == 1 ==> c[port / 2] > 0)
    ensures Neighbor(c, port) == c[dim := Towards(c[dim], y)]
  {
    PortDigits(port, dim, if c[dim] < y then 0 else 1);
  }

  lemma PortSteps(c: seq<nat>, d: seq<nat>, descending: bool)
    requires |c| == |d| && c != d
    ensures
      var port := NextPort(c, d, descending);
      var dim := if descending then LastDiff(c, d) else FirstDiff(c, d);
      && port / 2 < |c| && (port % 2 == 1 ==> c[port / 2] > 0)
      && Neighbor(c, port) == c[dim := Towards(c[dim], d[dim])]
  {
    var dim := if descending then LastDiff(c, d) else FirstDiff(c, d);
    StepThrough(c, NextPort(c, d, descending), dim, d[dim]);
  }

  /** The next port exists, stays on the mesh, and leads one hop closer. */
  lemma HopCloser(k: nat, c: seq<nat>, d: seq<nat>, descending: bool)
    requires |c| == |d| && Digits(k, c) && Digits(k, d) && c != d
    ensures
      var port := NextPort(c, d, descending);
      && port / 2 < |c| && (port % 2 == 1 ==> c[port / 2] > 0)
      && Digits(k, Neighbor(c, port)) && Distance(Neighbor(c, port), d) == Distance(c, d) - 1
  {
    PortSteps(c, d, descending);
    var dim := if descending then LastDiff(c, d) else FirstDiff(c, d);
    DistanceUpdate(c, d, dim, Towards(c[dim], d[dim]));
  }

  /** Every digit of `m` lies between those of `a` and `b`. */
  ghost predicate Between(a: seq<nat>, m: seq<nat>, b: seq<nat>) {
    && |a| == |m| == |b|
    && forall i | 0 <= i < |m| :: a[i] <= m[i] <= b[i] || b[i] <= m[i] <= a[i]
  }

  lemma {:induction false} DistanceSplits(a: seq<nat>, m: seq<nat>, b: seq<nat>)
    requires Between(a, m, b)
    ensures Distance(a, m) + Distance(m, b) == Distance(a, b)
  {
    if a != [] {
      assert Between(a[1..], m[1..], b[1..]);
      DistanceSplits(a[1..], m[1..], b[1..]);
    }
  }

  /** `rand_min_intr_mesh`: whatever is drawn, the intermediate router lies in the minimal
      quadrant of source and destination. */
  method RandMinIntrMesh(k: nat, n: nat, src0: nat, dest0: nat, ghost s: seq<nat>, ghost d: seq<nat>)
    returns (intm: nat, ghost m: seq<nat>)
    requires k > 0 && |s| == |d| == n && Digits(k, s) && Digits(k, d)
    requires src0 == Value(k, s) && dest0 == Value(k, d)
    ensures Digits(k, m) && Between(s, m, d) && intm == Value(k, m)
    ensures exists m': seq<nat> :: Digits(k, m') && Between(s, m', d) && intm == Value(k, m')
  {
    var src, dest, offset := src0, dest0, 1;
    intm, m := 0, [];
    assert s[0..] == s && d[0..] == d;
    for i := 0 to n
      invariant |m| == i && Digits(k, m) && offset == Power(k, i) && intm == Value(k, m)
      invariant src == Value(k, s[i..]) && dest == Value(k, d[i..])
      invariant Between(s[..i], m, d[..i])
    {
      LowDigit(k, s, i);
      LowDigit(k, d, i);
      var digit := DrawDigit(src % k, dest % k);
      NewDigit(k, m, digit);
      MoreBetween(s, m, d, i, digit);
      intm, m := intm + offset * digit, m + [digit];
      offset := offset * k;
      dest, src := dest / k, src / k;
    }
    assert s[..n] == s && d[..n] == d;
  }

  /** Any digit from the one to the other. */
  method DrawDigit(from: nat, to: nat) returns (digit: nat)
    ensures from <= digit <= to || to <= digit <= from
  {
    var dist := to - from;
    if dist > 0 {
      var draw :| 0 <= draw <= dist;
      digit := from + draw;
    } else {
      var draw :| 0 <= draw <= -dist;
      digit := to + draw;
    }
  }

  lemma NewDigit(k: nat, m: seq<nat>, digit: nat)
    requires Digits(k, m) && digit < k
    ensures Digits(k, m + [digit]) && Power(k, |m| + 1) == Power(k, |m|) * k
    ensures Value(k, m + [digit]) == Value(k, m) + Power(k, |m|) * digit
  {
    var m' := m + [digit];
    assert m'[..|m|] == m;
    ValueLast(k, m');
    Commute(digit, Power(k, |m|));
    Commute(k, Power(k, |m|));
  }

  lemma Commute(a: int, b: int)
    ensures a * b == b * a
  {
  }

  lemma MoreBetween(s: seq<nat>, m: seq<nat>, d: seq<nat>, i: nat, digit: nat)
    requires |s| == |d| && i < |s| && Between(s[..i], m, d[..i])
    requires s[i] <= digit <= d[i] || d[i] <= digit <= s[i]
    ensures Between(s[..i + 1], m + [digit], d[..i + 1])
  {
    assert forall j | 0 <= j < i :: s[..i][j] == s[..i + 1][j] && d[..i][j] == d[..i + 1][j];
  }

  /** A packet under `romm_mesh`: its router, and whether it has passed the intermediate one. */
  datatype Romm = Romm(at: seq<nat>, phase: nat)

  /** The phase with which a router forwards the packet. */
  ghost function PhaseAt(p: Romm, m: seq<nat>): nat {
    if p.phase == 0 && p.at == m then 1 else p.phase
  }

  ghost function RommPort(p: Romm, m: seq<nat>, d: seq<nat>): nat
    requires |p.at| == |m| == |d|
  {
    NextPort(p.at, if PhaseAt(p, m) == 0 then m else d, false)
  }

  /** Channels for a phase, away from the destination: the lower half or the upper half. */
  function PhaseRange(vcBegin: int, vcEnd: int, phase: nat): (int, int) {
    var half := (vcEnd - vcBegin + 1) / 2;
    if phase == 0 then (vcBegin, vcEnd - half) else (vcBegin + half, vcEnd)
  }

  /** No channel serves both phases exactly if the class has an even number of channels; with an
      odd number the middle one serves both. */
  lemma PhasesApartIff(vcBegin: int, vcEnd: int)
    requires vcEnd - vcBegin + 1 >= 2
    ensures PhaseRange(vcBegin, vcEnd, 0).1 < PhaseRange(vcBegin, vcEnd, 1).0 <==> (vcEnd - vcBegin + 1) % 2 == 0
  {
  }

  /** Between them the phases use every channel. */
  lemma PhasesCover(vcBegin: int, vcEnd: int, w: int)
    requires vcEnd - vcBegin + 1 >= 2 && vcBegin <= w <= vcEnd
    ensures exists phase: nat | phase <= 1 :: PhaseRange(vcBegin, vcEnd, phase).0 <= w <= PhaseRange(vcBegin, vcEnd, phase).1
  {
    var first, second := PhaseRange(vcBegin, vcEnd, 0), PhaseRange(vcBegin, vcEnd, 1);
    assert first.0 <= w <= first.1 || second.0 <= w <= second.1;
  }

  /** The routing state that a flit carries. */
  class RommFlit {
    const src: nat
    const dest: nat
    var ph: nat
    var intm: nat

    constructor (src: nat, dest: nat)
      ensures this.src == src && this.dest == dest
    {
      this.src, this.dest, ph, intm := src, dest, 0, 0;
    }
  }

  /** `romm_mesh`: at the network interface all channels are offered and the flit stays as it is; in
      a router the intermediate router is drawn at the source, and the phase changes where the
      packet stands at it. */
  method RommMesh(k: nat, n: nat, f: RommFlit, cur: nat, inChannel: nat, inject: bool, vcBegin0: int, vcEnd0: int,
                  ghost c: seq<nat>, ghost s: seq<nat>, ghost d: seq<nat>, ghost m0: seq<nat>)
    returns (outPort: int, vcBegin: int, vcEnd: int, ghost m: seq<nat>)
    requires k > 0 && n > 0 && |c| == |s| == |d| == |m0| == n
    requires Digits(k, c) && Digits(k, s) && Digits(k, d) && Digits(k, m0)
    requires cur == Value(k, c) && f.src == Value(k, s) && f.dest == Value(k, d) && f.ph <= 1
    requires !inject && inChannel != 2 * n ==> f.intm == Value(k, m0)
    requires !inject && cur != f.dest ==> vcEnd0 - vcBegin0 + 1 >= 2
    modifies f`ph, f`intm
    ensures inject ==> outPort == -1 && (vcBegin, vcEnd) == (vcBegin0, vcEnd0) && f.ph == old(f.ph) && f.intm == old(f.intm)
    ensures !inject ==> |m| == n && Digits(k, m) && f.intm == Value(k, m)
    ensures !inject ==> if inChannel == 2 * n then Between(s, m, d) else m == m0
    ensures !inject ==>
              var p := Romm(c, if inChannel == 2 * n then 0 else old(f.ph));
              && f.ph == PhaseAt(p, m) && outPort == RommPort(p, m, d)
              && (vcBegin, vcEnd) == if c == d then (vcBegin0, vcEnd0) else PhaseRange(vcBegin0, vcEnd0, f.ph)
  {
    m := m0;
    vcBegin, vcEnd := vcBegin0, vcEnd0;
    if inject { return -1, vcBegin, vcEnd, m; }
    if inChannel == 2 * n {
      f.ph := 0;
      var intm;
      intm, m := RandMinIntrMesh(k, n, f.src, f.dest, s, d);
      f.intm := intm;
    }
    if cur == f.intm { ValueInjective(k, c, m); }
    if cur == f.dest { ValueInjective(k, c, d); }
    if f.ph == 0 && cur == f.intm {
      f.ph := 1;
    }
    outPort := DorNextMesh(k, n, cur, if f.ph == 0 then f.intm else f.dest, false, c, if f.ph == 0 then m else d);
    if cur != f.dest {
      var available := (vcEnd - vcBegin + 1) / 2;
      assert available > 0;
      if f.ph == 0 {
        vcEnd := vcEnd - available;
      } else {
        assert f.ph == 1;
        vcBegin := vcBegin + available;
      }
    }
  }

  ghost predicate RommValid(k: nat, s: seq<nat>, m: seq<nat>, d: seq<nat>, p: Romm) {
    && Between(s, m, d) && Digits(k, m) && Digits(k, d)
    && |p.at| == |d| && Digits(k, p.at) && p.phase <= 1
    && (p.phase == 0 ==> Between(s, p.at, m))
  }

  ghost predicate RommHop(m: seq<nat>, d: seq<nat>, p: Romm, q: Romm) {
    && |p.at| == |m| == |d|
    && var port := RommPort(p, m, d);
       && port / 2 < |p.at| && (port % 2 == 1 ==> p.at[port / 2] > 0)
       && q == Romm(Neighbor(p.at, port), PhaseAt(p, m))
  }

  lemma BetweenNested(s: seq<nat>, c: seq<nat>, m: seq<nat>, d: seq<nat>)
    requires Between(s, m, d) && Between(s, c, m)
    ensures Between(c, m, d) && Between(s, c, d) && (c == d ==> c == m)
  {
    if c == d {
      forall i | 0 <= i < |c| ensures c[i] == m[i] { }
    }
  }

  lemma TowardsKeepsBetween(k: nat, s: seq<nat>, c: seq<nat>, m: seq<nat>)
    requires Between(s, c, m) && Digits(k, c) && Digits(k, m) && c != m
    ensures
      var port := NextPort(c, m, false);
      port / 2 < |c| && (port % 2 == 1 ==> c[port / 2] > 0) && Between(s, Neighbor(c, port), m)
  {
    PortSteps(c, m, false);
  }

  /** Phase 0 hops approach the intermediate router and thereby the destination. */
  lemma FirstPhaseCloser(k: nat, s: seq<nat>, c: seq<nat>, m: seq<nat>, d: seq<nat>)
    requires Between(s, m, d) && Between(s, c, m) && Digits(k, c) && Digits(k, m) && c != m
    ensures
      var port := NextPort(c, m, false);
      && port / 2 < |c| && (port % 2 == 1 ==> c[port / 2] > 0)
      && var q := Neighbor(c, port);
         Digits(k, q) && Between(s, q, m) && Distance(q, d) == Distance(c, d) - 1
  {
    HopCloser(k, c, m, false);
    TowardsKeepsBetween(k, s, c, m);
    var q := Neighbor(c, NextPort(c, m, false));
    BetweenNested(s, c, m, d);
    BetweenNested(s, q, m, d);
    DistanceSplits(c, m, d);
    DistanceSplits(q, m, d);
  }

  /** At the destination the packet is in its second phase and is ejected; elsewhere its hop
      exists and leads one hop closer to the destination, in either phase. */
  lemma RommCloser(k: nat, s: seq<nat>, m: seq<nat>, d: seq<nat>, p: Romm) returns (q: Romm)
    requires RommValid(k, s, m, d, p)
    ensures p.at == d ==> PhaseAt(p, m) == 1 && RommPort(p, m, d) == 2 * |d|
    ensures p.at != d ==> RommHop(m, d, p, q) && RommValid(k, s, m, d, q)
    ensures p.at != d ==> Distance(q.at, d) == Distance(p.at, d) - 1
  {
    q := p;
    if p.at == d {
      if p.phase == 0 { BetweenNested(s, p.at, m, d); }
    } else {
      if PhaseAt(p, m) == 0 {
        FirstPhaseCloser(k, s, p.at, m, d);
      } else {
        HopCloser(k, p.at, d, false);
      }
      q := Romm(Neighbor(p.at, RommPort(p, m, d)), PhaseAt(p, m));
    }
  }

  /** ROMM routes are minimal for every draw: a packet that starts at `s` has made exactly
      Distance(s, d) hops when it stands at its destination, and cannot make more. */
  lemma {:induction false} RommMinimal(k: nat, s: seq<nat>, m: seq<nat>, d: seq<nat>, ps: seq<Romm>)
    requires Between(s, m, d) && Digits(k, s) && Digits(k, m) && Digits(k, d)
    requires |ps| > 0 && ps[0] == Romm(s, 0)
    requires forall i | 0 <= i < |ps| - 1 :: ps[i].at != d && RommHop(m, d, ps[i], ps[i + 1])
    ensures RommValid(k, s, m, d, ps[|ps| - 1])
    ensures Distance(ps[|ps| - 1].at, d) == Distance(s, d) - (|ps| - 1)
  {
    var n := |ps| - 1;
    if n > 0 {
      RommMinimal(k, s, m, d, ps[..n]);
      var q := RommCloser(k, s, m, d, ps[n - 1]);
      assert RommHop(m, d, ps[n - 1], ps[n]);
    }
  }

  ghost predicate DorHop(k: nat, d: seq<nat>, descending: bool, c: seq<nat>, c': seq<nat>) {
    && |c| == |d| && c != d && Digits(k, c)
    && var port := NextPort(c, d, descending);
       port / 2 < |c| && (port % 2 == 1 ==> c[port / 2] > 0) && c' == Neighbor(c, port)
  }

  /** The same for plain dimension-order routes in either order of dimensions. */
  lemma {:induction false} DorMinimal(k: nat, d: seq<nat>, descending: bool, cs: seq<seq<nat>>)
    requires |cs| > 0 && |cs[0]| == |d| && Digits(k, cs[0]) && Digits(k, d)
    requires forall i | 0 <= i < |cs| - 1 :: DorHop(k, d, descending, cs[i], cs[i + 1])
    ensures |cs[|cs| - 1]| == |d| && Digits(k, cs[|cs| - 1])
    ensures Distance(cs[|cs| - 1], d) == Distance(cs[0], d) - (|cs| - 1)
  {
    var n := |cs| - 1;
    if n > 0 {
      DorMinimal(k, d, descending, cs[..n]);
      assert DorHop(k, d, descending, cs[n - 1], cs[n]);
      HopCloser(k, cs[n - 1], d, descending);
    }
  }
}
