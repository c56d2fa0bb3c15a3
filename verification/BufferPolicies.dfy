/** The sender's image of a remote buffer, and the policies by which virtual channels share it.

    States are values here; `BufferStates` has the object that updates its fields step by step. */
module BufferPolicies {
  import opened Arithmetic
  import opened Sums

  datatype Kind = Private | Shared | Limited | Dynamic | Shifting

  datatype Config = Config(
    kind: Kind,
    vcs: nat,
    size: int,             // slots of the whole buffer
    waitForTail: bool,     // a channel stays taken until its tail's credit is back
    vcBufSize: int,        // private policy: slots of each channel
    vcMap: seq<int>,       // shared policies: private buffer of each channel
    privSize: seq<int>,    // slots of each private buffer
    sharedSize: int,       // slots beyond the private buffers
    heldLimit: int)        // limited policy: most slots a channel may hold

  ghost predicate ValidConfig(c: Config) {
    c.vcs > 0 &&
    if c.kind == Private then c.vcBufSize > 0 && c.vcs * c.vcBufSize <= c.size
    else
      && |c.vcMap| == c.vcs && (forall v | 0 <= v < c.vcs :: 0 <= c.vcMap[v] < |c.privSize|)
      && (forall b | 0 <= b < |c.privSize| :: c.privSize[b] >= 0)
      && c.sharedSize == c.size - Sum(c.privSize) && c.sharedSize >= 0
      && (c.kind == Dynamic ==> c.size >= c.vcs)
      && (c.kind == Shifting ==> c.size >= Doublings(c.vcs - 1))
  }

  datatype State = State(
    occupancy: int,
    vcOcc: seq<int>,
    inUse: seq<int>,       // tag of the packet that took the channel, -1 if free
    tailSent: seq<bool>,
    privOcc: seq<int>,
    sharedOcc: int,
    reserved: seq<int>,    // slots kept for a taken channel that has run empty
    active: int,
    held: int)             // most slots a channel may hold at present

  // ---------- limits ----------

  /** Factor by which the shift loop divides: the least power of two above `i`. */
  function Doublings(i: nat): (p: nat)
    ensures i < p && (i > 0 ==> p <= 2 * i)
  {
    if i == 0 then 1 else 2 * Doublings(i / 2)
  }

  /** Slots per channel when `active` packets share the buffer. */
  function Share(c: Config, active: int): int
    requires active > 0
  {
    if c.kind == Dynamic then c.size / active
    else if c.kind == Shifting then c.size / Doublings(active - 1)
    else c.heldLimit
  }

  lemma DivideBounds(n: int, d: int)
    requires n >= 0 && d > 0
    ensures 0 <= n / d && d * (n / d) <= n < d * (n / d) + d
  {
  }

  lemma DivideAntitone(n: int, d: int, e: int)
    requires n >= 0 && 0 < d <= e
    ensures n / e <= n / d
  {
    DivideBounds(n, d);
    DivideBounds(n, e);
    Quotients(n, d, e, n / d, n / e);
  }

  lemma Quotients(n: int, d: int, e: int, q: int, r: int)
    requires 0 < d <= e && 0 <= r && e * r <= n < d * q + d
    ensures r <= q
  {
    Multiply(d, e, r);
    assert d * r == r * d && e * r == r * e && d * (q + 1) == d * q + d;
    Cancel(d, r, q + 1);
  }

  lemma Cancel(d: int, x: int, y: int)
    requires d > 0 && d * x < d * y
    ensures x < y
  {
    if y <= x { Multiply(y, x, d); }
  }

  /** The shares of all active packets fit the buffer; a share of the shifting policy lies
      between half of the dynamic one and the dynamic one; and shares are positive as long as the
      buffer has a slot for each channel (rounded up to a power of two when shifting). */
  lemma ShareBounds(c: Config, active: int)
    requires c.kind == Dynamic || c.kind == Shifting
    requires c.size >= 0 && active > 0
    ensures active * Share(c, active) <= c.size
    ensures c.size / (2 * active) <= Share(c, active) <= c.size / active
    ensures c.kind == Dynamic ==> (Share(c, active) > 0 <==> c.size >= active)
    ensures c.kind == Shifting ==> (Share(c, active) > 0 <==> c.size >= Doublings(active - 1))
  {
    DivisorBounds(c.size, active, if c.kind == Dynamic then active else Doublings(active - 1));
  }

  /** The dynamic share is the largest one that all packets can have. */
  lemma LargestShare(c: Config, active: int)
    requires c.kind == Dynamic && c.size >= 0 && active > 0
    ensures active * Share(c, active) <= c.size < active * (Share(c, active) + 1)
  {
    DivideBounds(c.size, active);
  }

  /** The shift loop divides by the least power of two that is not below the number of packets. */
  lemma {:induction false} DoublingsIsPower(i: nat) returns (n: nat)
    ensures Doublings(i) == PowerOfTwo(n) && forall m: nat | PowerOfTwo(m) > i :: m >= n
  {
    if i == 0 {
      n := 0;
    } else {
      n := DoublingsIsPower(i / 2);
      n := n + 1;
      forall m: nat | PowerOfTwo(m) > i ensures m >= n { assert m > 0 && PowerOfTwo(m - 1) > i / 2; }
    }
  }

  lemma DivisorBounds(size: int, active: int, p: int)
    requires size >= 0 && 0 < active <= p <= 2 * active
    ensures active * (size / p) <= size
    ensures size / (2 * active) <= size / p <= size / active
    ensures size / p > 0 <==> size >= p
  {
    DivideBounds(size, p);
    DivideAntitone(size, active, p);
    DivideAntitone(size, p, 2 * active);
    Multiply(active, p, size / p);
    assert active * (size / p) == (size / p) * active && p * (size / p) == (size / p) * p;
    PositiveQuotient(size, p);
  }

  lemma PositiveQuotient(n: int, p: int)
    requires 0 <= n && 0 < p
    ensures n / p > 0 <==> n >= p
  {
  }

  lemma {:induction false} DoublingsMonotone(i: nat, j: nat)
    requires i <= j
    ensures Doublings(i) <= Doublings(j)
  {
    if i > 0 { DoublingsMonotone(i / 2, j / 2); }
  }

  // ---------- operations ----------

  predicate Shaped(c: Config, s: State) {
    && |s.vcOcc| == |s.inUse| == |s.tailSent| == |s.reserved| == c.vcs
    && |s.privOcc| == |c.privSize|
    && (c.kind != Private ==> |c.vcMap| == c.vcs && forall v | 0 <= v < c.vcs :: 0 <= c.vcMap[v] < |c.privSize|)
  }

  function Initial(c: Config): State {
    State(0, seq(c.vcs, _ => 0), seq(c.vcs, _ => -1), seq(c.vcs, _ => false),
          seq(|c.privSize|, _ => 0), 0, seq(c.vcs, _ => 0), 0, if c.kind == Limited then c.heldLimit else c.size)
  }

  /** The buffer has a slot for a flit of this channel. */
  predicate HasRoom(c: Config, s: State, vc: nat)
    requires Shaped(c, s) && vc < c.vcs
  {
    if c.kind == Private then s.vcOcc[vc] < c.vcBufSize
    else
      var b := c.vcMap[vc];
      s.reserved[vc] > 0 || s.privOcc[b] < c.privSize[b] || s.sharedOcc < c.sharedSize
  }

  /** The policy allows no further flit of this channel. */
  predicate IsFull(c: Config, s: State, vc: nat)
    requires Shaped(c, s) && vc < c.vcs
  {
    !HasRoom(c, s, vc) || (Counts(c) && s.vcOcc[vc] >= s.held)
  }

  function Min(x: int, y: int): int { if x < y then x else y }
  function Max(x: int, y: int): int { if x < y then y else x }

  function Available(c: Config, s: State, vc: nat): int
    requires Shaped(c, s) && vc < c.vcs
  {
    if c.kind == Private then c.vcBufSize - s.vcOcc[vc]
    else
      var b := c.vcMap[vc];
      var shared := s.reserved[vc] + Max(c.privSize[b] - s.privOcc[b], 0) + (c.sharedSize - s.sharedOcc);
      if c.kind == Shared then shared else Min(shared, s.held - s.vcOcc[vc])
  }

  predicate Counts(c: Config) { c.kind == Limited || c.kind == Dynamic || c.kind == Shifting }

  function Reheld(c: Config, s: State, active: int): int {
    if active > 0 && (c.kind == Dynamic || c.kind == Shifting) then Share(c, active) else s.held
  }

  /** A packet takes a free channel. */
  function Take(c: Config, s: State, vc: nat, tag: int): State
    requires Shaped(c, s) && vc < c.vcs
  {
    var active := if Counts(c) then s.active + 1 else s.active;
    s.(inUse := s.inUse[vc := tag], tailSent := s.tailSent[vc := false], active := active, held := Reheld(c, s, active))
  }

  /** A taken channel is given back before anything was sent on it. */
  function Return(c: Config, s: State, vc: nat): State
    requires Shaped(c, s) && vc < c.vcs
  {
    var active := if Counts(c) then s.active - 1 else s.active;
    s.(inUse := s.inUse[vc := -1], tailSent := s.tailSent[vc := false], active := active, held := Reheld(c, s, active))
  }

  /** A flit leaves for the remote buffer: it uses up a reserved slot, or one of the private
      buffer, which spills into the shared one. */
  function Send(c: Config, s: State, vc: nat, tail: bool): State
    requires Shaped(c, s) && vc < c.vcs
  {
    var s1 := s.(occupancy := s.occupancy + 1, vcOcc := s.vcOcc[vc := s.vcOcc[vc] + 1]);
    var s2 :=
      if c.kind == Private then s1
      else if s.reserved[vc] > 0 then s1.(reserved := s.reserved[vc := s.reserved[vc] - 1])
      else
        var b := c.vcMap[vc];
        s1.(privOcc := s.privOcc[b := s.privOcc[b] + 1],
            sharedOcc := if s.privOcc[b] + 1 > c.privSize[b] then s.sharedOcc + 1 else s.sharedOcc);
    if !tail then s2
    else
      var active := if Counts(c) then s.active - 1 else s.active;
      s2.(tailSent := s.tailSent[vc := true],
          inUse := if c.waitForTail then s.inUse else s.inUse[vc := -1],
          active := active, held := Reheld(c, s, active))
  }

  /** A credit returns: the slot is freed, or stays reserved for a taken channel that is now empty. */
  function Credit(c: Config, s: State, vc: nat): State
    requires Shaped(c, s) && vc < c.vcs
  {
    var occ := s.vcOcc[vc] - 1;
    var inUse := if c.waitForTail && occ == 0 && s.tailSent[vc] then s.inUse[vc := -1] else s.inUse;
    var s1 := s.(occupancy := s.occupancy - 1, vcOcc := s.vcOcc[vc := occ], inUse := inUse);
    if c.kind == Private then s1
    else if inUse[vc] >= 0 && occ == 0 then s1.(reserved := s.reserved[vc := s.reserved[vc] + 1])
    else
      var b := c.vcMap[vc];
      s1.(privOcc := s.privOcc[b := s.privOcc[b] - 1],
          sharedOcc := if s.privOcc[b] - 1 >= c.privSize[b] then s.sharedOcc - 1 else s.sharedOcc)
  }

  // ---------- what every operation keeps ----------

  /** Channels whose packet has not sent its tail. */
  function Busy(inUse: seq<int>, tailSent: seq<bool>): nat
    requires |inUse| == |tailSent|
  {
    if inUse == [] then 0
    else
      var l := |inUse| - 1;
      Busy(inUse[..l], tailSent[..l]) + (if inUse[l] >= 0 && !tailSent[l] then 1 else 0)
  }

  lemma {:induction false} BusyUpdate(inUse: seq<int>, tailSent: seq<bool>, i: nat, u: int, t: bool)
    requires |inUse| == |tailSent| && i < |inUse|
    ensures Busy(inUse[i := u], tailSent[i := t]) ==
            Busy(inUse, tailSent) - (if inUse[i] >= 0 && !tailSent[i] then 1 else 0) + (if u >= 0 && !t then 1 else 0)
  {
    var l := |inUse| - 1;
    if i == l {
      assert inUse[i := u][..l] == inUse[..l] && tailSent[i := t][..l] == tailSent[..l];
    } else {
      assert inUse[i := u][..l] == inUse[..l][i := u] && tailSent[i := t][..l] == tailSent[..l][i := t];
      BusyUpdate(inUse[..l], tailSent[..l], i, u, t);
    }
  }

  lemma {:induction false} BusyBound(inUse: seq<int>, tailSent: seq<bool>)
    requires |inUse| == |tailSent|
    ensures Busy(inUse, tailSent) <= |inUse|
  {
    if inUse != [] {
      BusyBound(inUse[..|inUse| - 1], tailSent[..|inUse| - 1]);
    }
  }

  /** Slots are accounted for: every flit and every reserved slot of a channel occupies its
      private buffer, and what exceeds the private buffers occupies the shared one. */
  ghost predicate Slots(c: Config, vcOcc: seq<int>, privOcc: seq<int>, sharedOcc: int, reserved: seq<int>) {
    && |vcOcc| == |reserved| == |c.vcMap| && |privOcc| == |c.privSize|
    && (forall v | 0 <= v < |reserved| :: 0 <= reserved[v] <= 1 && (reserved[v] > 0 ==> vcOcc[v] == 0))
    && (forall b | 0 <= b < |privOcc| :: privOcc[b] == GroupSum(c.vcMap, vcOcc, reserved, b))
    && sharedOcc == Excess(privOcc, c.privSize) <= c.sharedSize
  }

  ghost predicate Accounted(c: Config, s: State) {
    && Shaped(c, s)
    && s.occupancy == Sum(s.vcOcc)
    && (forall v | 0 <= v < c.vcs :: s.vcOcc[v] >= 0)
    && if c.kind == Private then forall v | 0 <= v < c.vcs :: s.vcOcc[v] <= c.vcBufSize
       else Slots(c, s.vcOcc, s.privOcc, s.sharedOcc, s.reserved)
  }

  /** Channels are taken and released consistently, and the limit is the share of the packets
      that are still being sent. */
  ghost predicate Managed(c: Config, s: State) {
    && Shaped(c, s)
    && (forall v | 0 <= v < c.vcs ::
          if c.waitForTail then (s.vcOcc[v] > 0 ==> s.inUse[v] >= 0) && (s.inUse[v] >= 0 && s.tailSent[v] ==> s.vcOcc[v] > 0)
          else s.inUse[v] >= 0 ==> !s.tailSent[v])
    && (Counts(c) ==> s.active == Busy(s.inUse, s.tailSent))
    && (c.kind == Limited ==> s.held == c.heldLimit)
    && (c.kind == Dynamic || c.kind == Shifting ==>
          0 < s.held <= c.size && s.held == if s.active > 0 then Share(c, s.active) else c.size)
  }

  ghost predicate Valid(c: Config, s: State) {
    ValidConfig(c) && Accounted(c, s) && Managed(c, s)
  }

  /** A channel on which a packet may send its next flit. */
  ghost predicate Sending(c: Config, s: State, vc: nat)
    requires Shaped(c, s)
  {
    vc < c.vcs && s.inUse[vc] >= 0 && !s.tailSent[vc]
  }

  lemma InitialValid(c: Config)
    requires ValidConfig(c)
    ensures Valid(c, Initial(c))
  {
    var s := Initial(c);
    SumConstant(s.vcOcc, 0);
    BusyNone(s.inUse, s.tailSent);
    if c.kind != Private {
      forall b | 0 <= b < |s.privOcc| ensures GroupSum(c.vcMap, s.vcOcc, s.reserved, b) == 0 {
        GroupSumZero(c.vcMap, s.vcOcc, s.reserved, b);
      }
      ExcessZero(s.privOcc, c.privSize);
    }
  }

  lemma {:induction false} BusyNone(inUse: seq<int>, tailSent: seq<bool>)
    requires |inUse| == |tailSent| && forall v | 0 <= v < |inUse| :: inUse[v] < 0
    ensures Busy(inUse, tailSent) == 0
  {
    if inUse != [] { BusyNone(inUse[..|inUse| - 1], tailSent[..|inUse| - 1]); }
  }

  lemma {:induction false} GroupSumZero(group: seq<int>, a: seq<int>, b: seq<int>, g: int)
    requires |group| == |a| == |b| && forall v | 0 <= v < |a| :: a[v] == b[v] == 0
    ensures GroupSum(group, a, b, g) == 0
  {
    if group != [] { GroupSumZero(group[..|a| - 1], a[..|a| - 1], b[..|a| - 1], g); }
  }

  lemma {:induction false} ExcessZero(occ: seq<int>, size: seq<int>)
    requires |occ| == |size| && forall v | 0 <= v < |occ| :: occ[v] == 0 <= size[v]
    ensures Excess(occ, size) == 0
  {
    if occ != [] { ExcessZero(occ[..|occ| - 1], size[..|occ| - 1]); }
  }

  // ---------- slots ----------

  /** The effect of one operation on the slots: channel `vc` changes to `occ` flits and `res`
      reserved slots, its private buffer to `p` slots and the shared one accordingly. */
  lemma SlotsUpdate(c: Config, s: State, vc: nat, occ: int, res: int, p: int, shared: int)
    requires c.kind != Private && Accounted(c, s) && vc < c.vcs
    requires 0 <= res <= 1 && (res > 0 ==> occ == 0)
    requires p == s.privOcc[c.vcMap[vc]] + (occ + res) - (s.vcOcc[vc] + s.reserved[vc])
    requires shared == s.sharedOcc - Max(s.privOcc[c.vcMap[vc]] - c.privSize[c.vcMap[vc]], 0) + Max(p - c.privSize[c.vcMap[vc]], 0)
    requires shared <= c.sharedSize
    ensures Slots(c, s.vcOcc[vc := occ], s.privOcc[c.vcMap[vc] := p], shared, s.reserved[vc := res])
  {
    var b := c.vcMap[vc];
    ExcessUpdate(s.privOcc, c.privSize, b, p);
    forall g {:trigger s.privOcc[b := p][g]} | 0 <= g < |s.privOcc|
      ensures s.privOcc[b := p][g] == GroupSum(c.vcMap, s.vcOcc[vc := occ], s.reserved[vc := res], g)
    {
      GroupSumUpdate(c.vcMap, s.vcOcc, s.reserved, g, vc, occ, res);
    }
  }

  lemma SameUpdate<T>(s: seq<T>, i: nat)
    requires i < |s|
    ensures s[i := s[i]] == s
  {
  }

  lemma SendFromReserve(c: Config, s: State, vc: nat)
    requires c.kind != Private && Accounted(c, s) && vc < c.vcs && s.reserved[vc] > 0
    ensures Slots(c, s.vcOcc[vc := s.vcOcc[vc] + 1], s.privOcc, s.sharedOcc, s.reserved[vc := s.reserved[vc] - 1])
  {
    SlotsUpdate(c, s, vc, s.vcOcc[vc] + 1, s.reserved[vc] - 1, s.privOcc[c.vcMap[vc]], s.sharedOcc);
    SameUpdate(s.privOcc, c.vcMap[vc]);
  }

  lemma SendFromPool(c: Config, s: State, vc: nat)
    requires c.kind != Private && Accounted(c, s) && vc < c.vcs && HasRoom(c, s, vc) && s.reserved[vc] == 0
    ensures
      var p := s.privOcc[c.vcMap[vc]] + 1;
      Slots(c, s.vcOcc[vc := s.vcOcc[vc] + 1], s.privOcc[c.vcMap[vc] := p],
            if p > c.privSize[c.vcMap[vc]] then s.sharedOcc + 1 else s.sharedOcc, s.reserved)
  {
    var p := s.privOcc[c.vcMap[vc]] + 1;
    SlotsUpdate(c, s, vc, s.vcOcc[vc] + 1, 0, p,
                if p > c.privSize[c.vcMap[vc]] then s.sharedOcc + 1 else s.sharedOcc);
    SameUpdate(s.reserved, vc);
  }

  /** Sending while there is room keeps the account; no slot overflows. */
  lemma SendAccounted(c: Config, s: State, vc: nat, tail: bool)
    requires Accounted(c, s) && vc < c.vcs && HasRoom(c, s, vc)
    ensures Accounted(c, Send(c, s, vc, tail))
  {
    BodyAccounted(c, s, vc);
    var r, body := Send(c, s, vc, tail), Send(c, s, vc, false);
    assert r == body.(tailSent := r.tailSent, inUse := r.inUse, active := r.active, held := r.held);
  }

  lemma BodyAccounted(c: Config, s: State, vc: nat)
    requires Accounted(c, s) && vc < c.vcs && HasRoom(c, s, vc)
    ensures Accounted(c, Send(c, s, vc, false))
  {
    SumUpdate(s.vcOcc, vc, s.vcOcc[vc] + 1);
    if c.kind != Private {
      if s.reserved[vc] > 0 { SendFromReserve(c, s, vc); } else { SendFromPool(c, s, vc); }
    }
  }

  /** The channel runs empty while it is taken: its slot stays occupied, as a reserved one. */
  lemma SlotReserved(c: Config, s: State, vc: nat)
    requires c.kind != Private && Accounted(c, s) && vc < c.vcs && s.vcOcc[vc] == 1
    ensures s.reserved[vc] == 0
    ensures Slots(c, s.vcOcc[vc := 0], s.privOcc, s.sharedOcc, s.reserved[vc := 1])
  {
    SlotsUpdate(c, s, vc, 0, 1, s.privOcc[c.vcMap[vc]], s.sharedOcc);
    SameUpdate(s.privOcc, c.vcMap[vc]);
  }

  /** Otherwise the slot is freed. */
  lemma SlotFreed(c: Config, s: State, vc: nat)
    requires c.kind != Private && Accounted(c, s) && vc < c.vcs && s.vcOcc[vc] > 0
    ensures
      var p := s.privOcc[c.vcMap[vc]] - 1;
      Slots(c, s.vcOcc[vc := s.vcOcc[vc] - 1], s.privOcc[c.vcMap[vc] := p],
            if p >= c.privSize[c.vcMap[vc]] then s.sharedOcc - 1 else s.sharedOcc, s.reserved)
  {
    var p := s.privOcc[c.vcMap[vc]] - 1;
    SlotsUpdate(c, s, vc, s.vcOcc[vc] - 1, s.reserved[vc], p,
                if p >= c.privSize[c.vcMap[vc]] then s.sharedOcc - 1 else s.sharedOcc);
    SameUpdate(s.reserved, vc);
  }

  /** The slot of a returning credit stays reserved exactly when the channel is taken and empty. */
  predicate Reserves(c: Config, s: State, vc: nat)
    requires Shaped(c, s) && vc < c.vcs
  {
    c.kind != Private && s.vcOcc[vc] == 1 && s.inUse[vc] >= 0 && !(c.waitForTail && s.tailSent[vc])
  }

  lemma CreditReserves(c: Config, s: State, vc: nat)
    requires Accounted(c, s) && vc < c.vcs && Reserves(c, s, vc)
    ensures Accounted(c, Credit(c, s, vc))
  {
    SumUpdate(s.vcOcc, vc, 0);
    SlotReserved(c, s, vc);
    assert Credit(c, s, vc).vcOcc == s.vcOcc[vc := 0] && Credit(c, s, vc).reserved == s.reserved[vc := 1];
  }

  lemma CreditFrees(c: Config, s: State, vc: nat)
    requires c.kind != Private && Accounted(c, s) && vc < c.vcs && s.vcOcc[vc] > 0 && !Reserves(c, s, vc)
    ensures Accounted(c, Credit(c, s, vc))
  {
    SumUpdate(s.vcOcc, vc, s.vcOcc[vc] - 1);
    SlotFreed(c, s, vc);
  }

  /** A credit for a channel with flits outstanding keeps the account. */
  lemma CreditAccounted(c: Config, s: State, vc: nat)
    requires Accounted(c, s) && vc < c.vcs && s.vcOcc[vc] > 0
    ensures Accounted(c, Credit(c, s, vc))
  {
    if c.kind == Private {
      SumUpdate(s.vcOcc, vc, s.vcOcc[vc] - 1);
    } else if Reserves(c, s, vc) {
      CreditReserves(c, s, vc);
    } else {
      CreditFrees(c, s, vc);
    }
  }

  lemma {:induction false} OneOfSum(s: seq<int>, i: nat)
    requires i < |s| && forall v | 0 <= v < |s| :: s[v] >= 0
    ensures 0 <= s[i] <= Sum(s)
  {
    var l := |s| - 1;
    if i < l { OneOfSum(s[..l], i); }
    SumConstant(seq(l, _ => 0), 0);
    SumBounds(seq(l, _ => 0), s[..l]);
  }

  /** However the slots are shared out, the buffer as a whole never holds more than its size. */
  lemma WithinSize(c: Config, s: State)
    requires ValidConfig(c) && Accounted(c, s)
    ensures 0 <= s.occupancy <= c.size
  {
    SumConstant(seq(c.vcs, _ => 0), 0);
    SumBounds(seq(c.vcs, _ => 0), s.vcOcc);
    if c.kind == Private {
      SumConstant(seq(c.vcs, _ => c.vcBufSize), c.vcBufSize);
      SumBounds(s.vcOcc, seq(c.vcs, _ => c.vcBufSize));
    } else {
      GroupsAddUp(c.vcMap, s.vcOcc, s.reserved, s.privOcc);
      SumBounds(seq(c.vcs, _ => 0), s.reserved);
      ExcessBounds(s.privOcc, c.privSize);
    }
  }

  // ---------- whole runs ----------

  datatype Op = OpTake(vc: nat, tag: int) | OpSend(vc: nat, tail: bool) | OpCredit(vc: nat) | OpReturn(vc: nat)

  /** What callers check or guarantee before an operation. */
  ghost predicate Enabled(c: Config, s: State, op: Op)
    requires Shaped(c, s)
  {
    op.vc < c.vcs &&
    match op
    case OpTake(vc, tag) => s.inUse[vc] < 0 && tag >= 0
    case OpSend(vc, _) => Sending(c, s, vc) && HasRoom(c, s, vc)
    case OpCredit(vc) => s.vcOcc[vc] > 0
    case OpReturn(vc) => s.inUse[vc] >= 0 && (c.waitForTail ==> s.vcOcc[vc] == 0)
  }

  function Apply(c: Config, s: State, op: Op): State
    requires Shaped(c, s) && op.vc < c.vcs
  {
    match op
    case OpTake(vc, tag) => Take(c, s, vc, tag)
    case OpSend(vc, tail) => Send(c, s, vc, tail)
    case OpCredit(vc) => Credit(c, s, vc)
    case OpReturn(vc) => Return(c, s, vc)
  }

  /** A share for at most as many packets as there are channels is positive. */
  lemma SharePositive(c: Config, active: int)
    requires ValidConfig(c) && (c.kind == Dynamic || c.kind == Shifting) && 0 < active <= c.vcs
    ensures 0 < Share(c, active) <= c.size
  {
    ShareBounds(c, active);
    DoublingsMonotone(active - 1, c.vcs - 1);
    DivisorBounds(c.size, 1, 1);
    DivideAntitone(c.size, 1, active);
    OneDivides(c.size);
  }

  lemma OneDivides(n: int)
    ensures n / 1 == n
  {
  }

  /** The packet count, and with it the limit, follows taking, sending tails and giving back. */
  lemma ManagedCount(c: Config, s: State, vc: nat, u: int, t: bool, active: int)
    requires ValidConfig(c) && Managed(c, s) && vc < c.vcs
    requires Counts(c) ==>
               active == s.active - (if s.inUse[vc] >= 0 && !s.tailSent[vc] then 1 else 0) + (if u >= 0 && !t then 1 else 0)
    ensures Counts(c) ==> active == Busy(s.inUse[vc := u], s.tailSent[vc := t]) && 0 <= active <= c.vcs
    ensures Counts(c) ==> var held := Reheld(c, s, active);
              && (c.kind == Limited ==> held == c.heldLimit)
              && (c.kind == Dynamic || c.kind == Shifting ==>
                    0 < held <= c.size && (active > 0 ==> held == Share(c, active)))
  {
    BusyUpdate(s.inUse, s.tailSent, vc, u, t);
    BusyBound(s.inUse[vc := u], s.tailSent[vc := t]);
    if (c.kind == Dynamic || c.kind == Shifting) && 0 < active <= c.vcs { SharePositive(c, active); }
  }

  lemma TakeManaged(c: Config, s: State, vc: nat, tag: int)
    requires Valid(c, s) && Enabled(c, s, OpTake(vc, tag))
    ensures Managed(c, Take(c, s, vc, tag))
  {
    ManagedCount(c, s, vc, tag, false, s.active + 1);
  }

  lemma ReturnManaged(c: Config, s: State, vc: nat)
    requires Valid(c, s) && Enabled(c, s, OpReturn(vc))
    ensures Managed(c, Return(c, s, vc))
  {
    ManagedCount(c, s, vc, -1, false, s.active - 1);
  }

  /** Giving back a taken channel keeps everything valid exactly if it is empty, in case channels
      wait for the tail's credit. Otherwise flits are outstanding for a channel that counts as idle,
      and their credits will be refused. */
  lemma ReturnKeepsIff(c: Config, s: State, vc: nat)
    requires Valid(c, s) && vc < c.vcs && s.inUse[vc] >= 0
    ensures Valid(c, Return(c, s, vc)) <==> (c.waitForTail ==> s.vcOcc[vc] == 0)
    ensures !(c.waitForTail ==> s.vcOcc[vc] == 0) ==> Return(c, s, vc).inUse[vc] < 0 && Return(c, s, vc).vcOcc[vc] > 0
    ensures Counts(c) && (c.waitForTail ==> s.vcOcc[vc] == 0) ==> s.active > 0
  {
    if c.waitForTail ==> s.vcOcc[vc] == 0 {
      ReturnManaged(c, s, vc);
      BusyUpdate(s.inUse, s.tailSent, vc, -1, false);
    }
  }

  lemma SendManaged(c: Config, s: State, vc: nat, tail: bool)
    requires Valid(c, s) && Enabled(c, s, OpSend(vc, tail))
    ensures Managed(c, Send(c, s, vc, tail))
  {
    if tail {
      var u := if c.waitForTail then s.inUse[vc] else -1;
      ManagedCount(c, s, vc, u, true, s.active - 1);
      SameUpdate(s.inUse, vc);
    }
  }

  lemma CreditManaged(c: Config, s: State, vc: nat)
    requires Valid(c, s) && Enabled(c, s, OpCredit(vc))
    ensures Managed(c, Credit(c, s, vc))
  {
    var freed := c.waitForTail && s.vcOcc[vc] == 1 && s.tailSent[vc];
    if freed {
      BusyUpdate(s.inUse, s.tailSent, vc, -1, true);
      SameUpdate(s.tailSent, vc);
    }
    var r := Credit(c, s, vc);
    assert r.vcOcc == s.vcOcc[vc := s.vcOcc[vc] - 1] && r.tailSent == s.tailSent && r.active == s.active && r.held == s.held;
    assert r.inUse == if freed then s.inUse[vc := -1] else s.inUse;
  }

  /** Every operation that its caller may perform keeps the account and the management of channels. */
  lemma StepKeepsValid(c: Config, s: State, op: Op)
    requires Valid(c, s) && Enabled(c, s, op)
    ensures Valid(c, Apply(c, s, op))
  {
    match op
    case OpTake(vc, tag) => TakeManaged(c, s, vc, tag);
    case OpSend(vc, tail) => SendAccounted(c, s, vc, tail); SendManaged(c, s, vc, tail);
    case OpCredit(vc) => CreditAccounted(c, s, vc); CreditManaged(c, s, vc);
    case OpReturn(vc) => ReturnManaged(c, s, vc);
  }

  /** All states reachable from the empty buffer. */
  lemma {:induction false} RunKeepsValid(c: Config, ss: seq<State>, ops: seq<Op>)
    requires ValidConfig(c) && |ss| == |ops| + 1 && ss[0] == Initial(c)
    requires forall i | 0 <= i < |ops| :: Shaped(c, ss[i]) && Enabled(c, ss[i], ops[i]) && ss[i + 1] == Apply(c, ss[i], ops[i])
    ensures Valid(c, ss[|ops|]) && 0 <= ss[|ops|].occupancy <= c.size
  {
    var n := |ops|;
    if n == 0 {
      InitialValid(c);
    } else {
      RunKeepsValid(c, ss[..n], ops[..n - 1]);
      StepKeepsValid(c, ss[n - 1], ops[n - 1]);
    }
    WithinSize(c, ss[n]);
  }

  // ---------- the number of available slots is exact ----------

  /** `n` body flits sent back to back on a channel. */
  function SendBodies(c: Config, s: State, vc: nat, n: nat): (r: State)
    requires Shaped(c, s) && vc < c.vcs
    ensures Shaped(c, r)
  {
    if n == 0 then s else Send(c, SendBodies(c, s, vc, n - 1), vc, false)
  }

  lemma FullIffNoneAvailable(c: Config, s: State, vc: nat)
    requires Accounted(c, s) && vc < c.vcs
    ensures IsFull(c, s, vc) <==> Available(c, s, vc) <= 0
  {
  }

  lemma SendTakesOne(c: Config, s: State, vc: nat)
    requires Accounted(c, s) && vc < c.vcs && !IsFull(c, s, vc)
    ensures Available(c, Send(c, s, vc, false), vc) == Available(c, s, vc) - 1
  {
  }

  /** `AvailableFor` is exact: that many body flits, and no more, can be sent back to back before
      the channel is full. */
  lemma {:induction false} AvailableIsExact(c: Config, s: State, vc: nat, n: nat)
    requires Accounted(c, s) && vc < c.vcs && n <= Max(Available(c, s, vc), 0)
    ensures Accounted(c, SendBodies(c, s, vc, n))
    ensures Available(c, SendBodies(c, s, vc, n), vc) == Available(c, s, vc) - n
    ensures IsFull(c, SendBodies(c, s, vc, n), vc) <==> n == Max(Available(c, s, vc), 0)
  {
    if n > 0 {
      AvailableIsExact(c, s, vc, n - 1);
      var t := SendBodies(c, s, vc, n - 1);
      SendAccounted(c, t, vc, false);
      SendTakesOne(c, t, vc);
    }
    FullIffNoneAvailable(c, SendBodies(c, s, vc, n), vc);
  }

  /** Under the dynamic policies, while no packet is being sent, a channel is full only if no slot is left for
      it in its private buffer and the shared part, or if it occupies the whole buffer. */
  lemma IdleLimit(c: Config, s: State, vc: nat)
    requires Valid(c, s) && vc < c.vcs && (c.kind == Dynamic || c.kind == Shifting) && s.active == 0
    ensures s.held == c.size
    ensures IsFull(c, s, vc) <==>
              || (s.reserved[vc] == 0 && s.privOcc[c.vcMap[vc]] >= c.privSize[c.vcMap[vc]] && s.sharedOcc == c.sharedSize)
              || s.vcOcc[vc] >= c.size
  {
  }

  lemma {:induction false} ExcessAll(occ: seq<int>, size: seq<int>)
    requires |occ| == |size| && forall b | 0 <= b < |occ| :: occ[b] >= size[b]
    ensures Excess(occ, size) == Sum(occ) - Sum(size)
  {
    if occ != [] { ExcessAll(occ[..|occ| - 1], size[..|occ| - 1]); }
  }

  /** No slot is wasted: under the shared policy, if every channel is full, every slot holds a flit. */
  lemma AllFullIsUsed(c: Config, s: State)
    requires Valid(c, s) && c.kind == Shared && forall v: nat | v < c.vcs :: IsFull(c, s, v)
    requires forall b | 0 <= b < |c.privSize| :: b in c.vcMap
    ensures s.occupancy == c.size
  {
    assert IsFull(c, s, 0);
    forall b | 0 <= b < |c.privSize| ensures s.privOcc[b] >= c.privSize[b] {
      assert b in c.vcMap;
      var v: nat :| v < |c.vcMap| && c.vcMap[v] == b;
      assert IsFull(c, s, v);
    }
    forall v: nat | v < c.vcs ensures s.reserved[v] == 0 { assert IsFull(c, s, v); }
    ExcessAll(s.privOcc, c.privSize);
    GroupsAddUp(c.vcMap, s.vcOcc, s.reserved, s.privOcc);
    SumConstant(s.reserved, 0);
  }

  /** A channel that runs empty while its packet is still being sent keeps a slot for the next flit. */
  lemma EmptiedKeepsRoom(c: Config, s: State, vc: nat)
    requires Valid(c, s) && Enabled(c, s, OpCredit(vc)) && c.kind != Private && s.vcOcc[vc] == 1 && s.inUse[vc] >= 0 && !s.tailSent[vc]
    ensures Credit(c, s, vc).reserved[vc] == 1 && HasRoom(c, Credit(c, s, vc), vc)
  {
  }

  /** And nobody else can take it. */
  lemma KeptSlotStays(c: Config, s: State, op: Op, vc: nat)
    requires Shaped(c, s) && c.kind != Private && op.vc < c.vcs && vc < c.vcs && op.vc != vc && s.reserved[vc] > 0
    ensures Apply(c, s, op).reserved[vc] == s.reserved[vc] && HasRoom(c, Apply(c, s, op), vc)
  {
  }

  // ---------- configurations ----------

  /** Senders ask whether a channel is full before its packet takes it. Taking leaves the room
      as it is, so that the first flit still fits the buffer. */
  lemma TakeKeepsRoom(c: Config, s: State, vc: nat, tag: int)
    requires Shaped(c, s) && vc < c.vcs
    ensures HasRoom(c, Take(c, s, vc, tag), vc) <==> HasRoom(c, s, vc)
  {
  }

  /** But under the dynamic and shifting policies taking also lowers the limit. A packet that takes
      a channel which was not full is over its limit with its first flit exactly if as many flits
      are still outstanding as its new share allows; never if channels wait for the tail's credit. */
  lemma OverLimitIff(c: Config, s: State, vc: nat, tag: int)
    requires Valid(c, s) && Counts(c) && Enabled(c, s, OpTake(vc, tag)) && !IsFull(c, s, vc)
    ensures
      var t := Take(c, s, vc, tag);
      var over := Send(c, t, vc, false).vcOcc[vc] > t.held;
      && (over <==> (c.kind == Dynamic || c.kind == Shifting) && s.vcOcc[vc] >= Share(c, s.active + 1))
      && (c.waitForTail ==> !over)
  {
    TakeManaged(c, s, vc, tag);
  }

  /** It does happen: here a packet takes channel 0 with one flit outstanding. */
  const TWO_CHANNELS := Config(Dynamic, 2, 3, false, 0, [0, 0], [3], 0, 0)
  const ONE_OUTSTANDING := State(1, [1, 0], [-1, 0], [true, false], [1], 0, [0, 0], 1, 3)

  lemma FirstFlitOverLimit()
    ensures
      var c, s := TWO_CHANNELS, ONE_OUTSTANDING;
      && Valid(c, s) && !IsFull(c, s, 0)
      && Send(c, Take(c, s, 0, 0), 0, false).vcOcc[0] == 2 > Take(c, s, 0, 0).held
  {
    ExampleSums();
    assert Accounted(TWO_CHANNELS, ONE_OUTSTANDING);
    assert Managed(TWO_CHANNELS, ONE_OUTSTANDING);
  }

  lemma ExampleSums()
    ensures Sum([3]) == 3 && Sum([1, 0]) == 1 && GroupSum([0, 0], [1, 0], [0, 0], 0) == 1
    ensures Excess([1], [3]) == 0 && Busy([-1, 0], [true, false]) == 1
  {
    assert Sum([3]) == 3 by { assert [3][..0] == []; }
    assert Sum([1, 0]) == 1 by { assert [1, 0][..1] == [1] && [1][..0] == []; }
    assert Excess([1], [3]) == 0 by { assert [1][..0] == [3][..0] == []; }
    ExampleGroup();
    ExampleBusy();
  }

  lemma ExampleGroup()
    ensures GroupSum([0, 0], [1, 0], [0, 0], 0) == 1
  {
    assert [0, 0][..1] == [0] && [1, 0][..1] == [1] && [0][..0] == [1][..0] == [];
    assert GroupSum([0], [1], [0], 0) == 1;
  }

  lemma ExampleBusy()
    ensures Busy([-1, 0], [true, false]) == 1
  {
    assert [-1, 0][..1] == [-1] && [true, false][..1] == [true];
  }

  /** The private policy as it is configured. The policy falls back on `vc_buf_size` when
      `buf_size` is not positive, the buffer only when it is negative. */
  function PrivateConfig(vcs: nat, bufSize: int, vcBufSize: int, waitForTail: bool): Config
    requires vcs > 0
  {
    Config(Private, vcs, if bufSize < 0 then vcs * vcBufSize else bufSize, waitForTail,
           if bufSize <= 0 then vcBufSize else bufSize / vcs, [], [], 0, 0)
  }

  /** So the channels fit the buffer exactly when `buf_size` is not 0. */
  lemma PrivateFits(vcs: nat, bufSize: int, vcBufSize: int, waitForTail: bool)
    requires vcs > 0 && PrivateConfig(vcs, bufSize, vcBufSize, waitForTail).vcBufSize > 0
    ensures ValidConfig(PrivateConfig(vcs, bufSize, vcBufSize, waitForTail)) <==> bufSize != 0
  {
    if bufSize > 0 {
      DivideBounds(bufSize, vcs);
    } else if bufSize == 0 {
      Multiply(1, vcs, vcBufSize);
      assert vcs * vcBufSize == vcBufSize * vcs;
    }
  }

  /** With `buf_size` 0 the first flit is reported as an overflow although its channel is not full. */
  lemma ZeroSizeOverflows(vcs: nat, vcBufSize: int, waitForTail: bool, tail: bool)
    requires vcs > 0 && vcBufSize > 0
    ensures
      var c := PrivateConfig(vcs, 0, vcBufSize, waitForTail);
      var s := Take(c, Initial(c), 0, 0);
      !IsFull(c, s, 0) && Send(c, s, 0, tail).occupancy > c.size
  {
  }
}
