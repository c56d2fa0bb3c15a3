/** The object that tracks the credits of a remote buffer. Its methods update the counters as the
    policies do; none of the run-time errors is reachable when callers respect the guards. */
module BufferStates {
  import opened Arithmetic
  import opened Sums
  import opened BufferPolicies

  /** Halving twice is dividing by the product. */
  lemma HalveQuotient(n: int, p: int)
    requires n >= 0 && p > 0
    ensures n / p / 2 == n / (2 * p)
  {
    DivideBounds(n, p);
    DivideBounds(n / p, 2);
    DivideBounds(n, 2 * p);
    var q, r := n / p / 2, n / (2 * p);
    Nested(n, p, n / p, q, r);
  }

  lemma Nested(n: int, p: int, m: int, q: int, r: int)
    requires p > 0 && p * m <= n < p * m + p && 2 * q <= m < 2 * q + 2
    requires (2 * p) * r <= n < (2 * p) * r + 2 * p
    ensures q == r
  {
    Multiply(2 * q, m, p);
    Multiply(m, 2 * q + 1, p);
    assert p * (2 * q) == (2 * p) * q && p * (2 * q + 1) == (2 * p) * q + p;
    assert (2 * p) * (q + 1) == (2 * p) * q + 2 * p && (2 * p) * (r + 1) == (2 * p) * r + 2 * p;
    Cancel(2 * p, q, r + 1);
    Cancel(2 * p, r, q + 1);
  }

  lemma ShiftStep(n: int, p: int, i: nat)
    requires n >= 0 && p > 0 && i > 0
    ensures n / p / 2 == n / (2 * p) && (2 * p) * Doublings(i / 2) == p * Doublings(i)
  {
    HalveQuotient(n, p);
    Regroup(p, Doublings(i / 2));
  }

  lemma Regroup(p: int, d: int)
    ensures (2 * p) * d == p * (2 * d)
  {
  }

  class BufferState {
    const c: Config
    var occupancy: int
    var vcOcc: seq<int>
    var inUse: seq<int>
    var tailSent: seq<bool>
    // policy
    var privOcc: seq<int>
    var sharedOcc: int
    var reserved: seq<int>
    var active: int
    var held: int

    function Image(): State
      reads this
    {
      State(occupancy, vcOcc, inUse, tailSent, privOcc, sharedOcc, reserved, active, held)
    }

    ghost predicate Valid()
      reads this
    {
      BufferPolicies.Valid(c, Image())
    }

    constructor (c: Config)
      requires ValidConfig(c)
      ensures this.c == c && Image() == Initial(c) && Valid()
    {
      this.c := c;
      occupancy, sharedOcc, active := 0, 0, 0;
      vcOcc, reserved := seq(c.vcs, _ => 0), seq(c.vcs, _ => 0);
      inUse, tailSent := seq(c.vcs, _ => -1), seq(c.vcs, _ => false);
      privOcc := seq(|c.privSize|, _ => 0);
      held := if c.kind == Limited then c.heldLimit else c.size;
      InitialValid(c);
    }

    function IsFullFor(vc: nat): (r: bool)
      requires Valid() && vc < c.vcs
      reads this
      ensures r <==> Available(c, Image(), vc) <= 0
    {
      FullIffNoneAvailable(c, Image(), vc);
      IsFull(c, Image(), vc)
    }

    function IsAvailableFor(vc: nat): bool
      requires Valid() && vc < c.vcs
      reads this
    {
      inUse[vc] < 0
    }

    /** The shift loop of the shifting policy. */
    method ShiftedShare(packets: nat) returns (h: int)
      requires c.kind == Shifting && c.size >= 0 && packets > 0
      ensures h == Share(c, packets)
    {
      var i := packets - 1;
      h := c.size;
      ghost var p := 1;
      OneDivides(c.size);
      while i > 0
        invariant i >= 0 && p > 0 && p * Doublings(i) == Doublings(packets - 1) && h == c.size / p
      {
        ShiftStep(c.size, p, i);
        h := h / 2;
        i := i / 2;
        p := 2 * p;
      }
    }

    /** Recomputes the limit of the dynamic policies for the current number of packets. */
    method Rehold()
      requires c.size >= 0
      modifies this`held
      ensures held == Reheld(c, old(Image()), active)
    {
      if active > 0 {
        if c.kind == Dynamic {
          held := c.size / active;
        } else if c.kind == Shifting {
          held := ShiftedShare(active);
        }
      }
    }

    method TakeBuffer(vc: nat, tag: int)
      requires Valid() && Enabled(c, Image(), OpTake(vc, tag))
      modifies this
      ensures Image() == Take(c, old(Image()), vc, tag) && Valid()
    {
      StepKeepsValid(c, Image(), OpTake(vc, tag));
      WithinSize(c, Image());
      assert inUse[vc] < 0;                     // not "Buffer taken while in use"
      inUse := inUse[vc := tag];
      tailSent := tailSent[vc := false];
      if Counts(c) {
        active := active + 1;
        Rehold();
        BusyBound(inUse, tailSent);
        assert active <= c.vcs;                 // not "Number of active VCs is too large"
        assert c.kind != Limited ==> held > 0;
      }
    }

    /** Gives a channel back. It fails if the channel is not taken or nothing is being sent; and it
        keeps the buffer state valid exactly if no credit is awaited for the channel. */
    method ReturnBuffer(vc: nat) returns (ok: bool)
      requires Valid() && vc < c.vcs
      modifies this
      ensures ok <==> old(inUse)[vc] >= 0 && (Counts(c) ==> old(active) > 0)
      ensures ok ==> Image() == Return(c, old(Image()), vc)
      ensures ok ==> (Valid() <==> (c.waitForTail ==> old(vcOcc)[vc] == 0))
      ensures Enabled(c, old(Image()), OpReturn(vc)) ==> ok && Valid()
    {
      ghost var s0 := Image();
      if inUse[vc] >= 0 { ReturnKeepsIff(c, s0, vc); }
      WithinSize(c, s0);
      if inUse[vc] < 0 { return false; }        // "Buffer return while VC is not used"
      inUse := inUse[vc := -1];
      tailSent := tailSent[vc := false];
      if Counts(c) {
        active := active - 1;
        if active < 0 { return false; }         // "Number of active VCs fell below zero"
        Rehold();
      }
      ok := true;
    }

    /** Shared policies: a reserved slot is used up, or the private buffer grows. */
    method SharedSendingFlit(vc: nat, tail: bool)
      requires c.kind != Private && Shaped(c, Image()) && vc < c.vcs && 0 <= reserved[vc] <= 1
      requires !(reserved[vc] == 0 && privOcc[c.vcMap[vc]] >= c.privSize[c.vcMap[vc]] && sharedOcc >= c.sharedSize)
      modifies this`reserved, this`privOcc, this`sharedOcc
      ensures if old(reserved[vc]) > 0 then
                && reserved == old(reserved[vc := reserved[vc] - 1]) && privOcc == old(privOcc)
                && sharedOcc == old(sharedOcc)
              else
                var b := c.vcMap[vc];
                && reserved == old(reserved) && privOcc == old(privOcc[b := privOcc[b] + 1])
                && sharedOcc == old(if privOcc[b] + 1 > c.privSize[b] then sharedOcc + 1 else sharedOcc)
    {
      if reserved[vc] > 0 {
        reserved := reserved[vc := reserved[vc] - 1];
      } else {
        var i := c.vcMap[vc];
        privOcc := privOcc[i := privOcc[i] + 1];
        if privOcc[i] > c.privSize[i] {
          sharedOcc := sharedOcc + 1;
          assert sharedOcc <= c.sharedSize;     // not "Shared buffer overflow"
        }
      }
      if tail {
        // the loop that releases reserved slots never has any to release
        assert reserved[vc] == 0;
      }
    }

    /** The packet's last flit is on its way: it no longer counts, and unless the tail's credit is
        awaited its channel is free. */
    method SentTail(vc: nat)
      requires c.size >= 0 && vc < |inUse| == |tailSent| && (Counts(c) ==> active > 0)
      modifies this`active, this`held, this`tailSent, this`inUse
      ensures active == old(active) - (if Counts(c) then 1 else 0) && held == Reheld(c, old(Image()), active)
      ensures tailSent == old(tailSent)[vc := true]
      ensures inUse == if c.waitForTail then old(inUse) else old(inUse)[vc := -1]
    {
      if Counts(c) {
        active := active - 1;
        assert active >= 0;                     // not "Number of active VCs fell below zero"
        Rehold();
      }
      tailSent := tailSent[vc := true];
      if !c.waitForTail {
        inUse := inUse[vc := -1];
      }
    }

    /** Room in the buffer, the channel and the count of packets. */
    predicate Room(vc: nat)
      reads this
    {
      && Shaped(c, Image()) && vc < c.vcs && 0 <= occupancy < c.size
      && (if c.kind == Private then vcOcc[vc] < c.vcBufSize else 0 <= reserved[vc] <= 1)
      && (Counts(c) ==> active > 0)
      && HasRoom(c, Image(), vc)
    }

    method SendingSteps(vc: nat, tail: bool)
      requires Room(vc)
      modifies this
      ensures Image() == Send(c, old(Image()), vc, tail)
    {
      occupancy := occupancy + 1;
      assert occupancy <= c.size;               // not "Buffer overflow"
      vcOcc := vcOcc[vc := vcOcc[vc] + 1];
      if c.kind == Private {
        assert vcOcc[vc] <= c.vcBufSize;        // not "Buffer overflow for VC"
      } else {
        SharedSendingFlit(vc, tail);
      }
      if tail { SentTail(vc); }
    }

    method SendingFlit(vc: nat, tail: bool)
      requires Valid() && Enabled(c, Image(), OpSend(vc, tail))
      modifies this
      ensures Image() == Send(c, old(Image()), vc, tail) && Valid()
    {
      StepKeepsValid(c, Image(), OpSend(vc, tail));
      SendNeverOverflows(c, Image(), vc, tail);
      SendingSteps(vc, tail);
    }

    method ProcessFreeSlot(vc: nat)
      requires c.kind != Private && Shaped(c, Image()) && vc < c.vcs
      requires privOcc[c.vcMap[vc]] > 0 && (privOcc[c.vcMap[vc]] > c.privSize[c.vcMap[vc]] ==> sharedOcc > 0)
      modifies this`privOcc, this`sharedOcc
      ensures var b := c.vcMap[vc];
              && privOcc == old(privOcc[b := privOcc[b] - 1])
              && sharedOcc == old(if privOcc[b] - 1 >= c.privSize[b] then sharedOcc - 1 else sharedOcc)
    {
      var i := c.vcMap[vc];
      privOcc := privOcc[i := privOcc[i] - 1];
      assert privOcc[i] >= 0;                   // not "Private buffer occupancy fell below zero"
      if privOcc[i] >= c.privSize[i] {
        sharedOcc := sharedOcc - 1;
        assert sharedOcc >= 0;                  // not "Shared buffer occupancy fell below zero"
      }
    }

    /** The policy's part of a credit: the slot stays reserved for a taken, empty channel. */
    method FreeSlotFor(vc: nat)
      requires c.kind != Private && Shaped(c, Image()) && vc < c.vcs
      requires privOcc[c.vcMap[vc]] > 0 && (privOcc[c.vcMap[vc]] > c.privSize[c.vcMap[vc]] ==> sharedOcc > 0)
      modifies this`reserved, this`privOcc, this`sharedOcc
      ensures var b := c.vcMap[vc];
              if inUse[vc] >= 0 && vcOcc[vc] == 0 then
                reserved == old(reserved[vc := reserved[vc] + 1]) && privOcc == old(privOcc) && sharedOcc == old(sharedOcc)
              else
                && reserved == old(reserved) && privOcc == old(privOcc[b := privOcc[b] - 1])
                && sharedOcc == old(if privOcc[b] - 1 >= c.privSize[b] then sharedOcc - 1 else sharedOcc)
    {
      if inUse[vc] >= 0 && vcOcc[vc] == 0 {
        reserved := reserved[vc := reserved[vc] + 1];
      } else {
        ProcessFreeSlot(vc);
      }
    }

    /** What a returning credit finds. */
    predicate Outstanding(vc: nat)
      reads this
    {
      && Shaped(c, Image()) && vc < c.vcs && occupancy > 0 && vcOcc[vc] > 0
      && (c.waitForTail ==> inUse[vc] >= 0)
      && (c.kind != Private ==>
            && privOcc[c.vcMap[vc]] > 0
            && (privOcc[c.vcMap[vc]] > c.privSize[c.vcMap[vc]] ==> sharedOcc > 0))
    }

    method CreditSteps(vc: nat)
      requires Outstanding(vc)
      modifies this
      ensures Image() == Credit(c, old(Image()), vc)
    {
      assert c.waitForTail ==> inUse[vc] >= 0;  // not "Received credit for idle VC"
      occupancy := occupancy - 1;
      assert occupancy >= 0;                    // not "Buffer occupancy fell below zero"
      vcOcc := vcOcc[vc := vcOcc[vc] - 1];
      assert vcOcc[vc] >= 0;
      if c.waitForTail && vcOcc[vc] == 0 && tailSent[vc] {
        assert inUse[vc] >= 0;
        inUse := inUse[vc := -1];
      }
      if c.kind != Private {
        FreeSlotFor(vc);
      }
    }

    /** One channel of a credit. */
    method CreditFor(vc: nat)
      requires Valid() && Enabled(c, Image(), OpCredit(vc))
      modifies this
      ensures Image() == Credit(c, old(Image()), vc) && Valid()
    {
      StepKeepsValid(c, Image(), OpCredit(vc));
      CreditNeverUnderflows(c, Image(), vc);
      CreditSteps(vc);
    }

    /** `ProcessCredit`: every channel of the credit in turn. */
    method ProcessCredit(vcs: seq<nat>)
      requires Valid() && (forall a | 0 <= a < |vcs| :: vcs[a] < c.vcs && vcOcc[vcs[a]] > 0)
      requires forall a, b | 0 <= a < b < |vcs| :: vcs[a] != vcs[b]
      modifies this
      ensures Valid() && Image() == CreditAll(c, old(Image()), vcs)
    {
      ghost var s0 := Image();
      for i := 0 to |vcs|
        invariant Valid() && Image() == CreditAll(c, s0, vcs[..i])
        invariant forall a | i <= a < |vcs| :: vcOcc[vcs[a]] > 0
      {
        CreditAllStep(c, s0, vcs, i);
        CreditTouches(c, Image(), vcs[i]);
        CreditFor(vcs[i]);
      }
      assert vcs[..|vcs|] == vcs;
    }
  }

  lemma CreditTouches(c: Config, s: State, vc: nat)
    requires Shaped(c, s) && vc < c.vcs
    ensures Credit(c, s, vc).vcOcc == s.vcOcc[vc := s.vcOcc[vc] - 1]
  {
  }

  lemma CreditAllStep(c: Config, s: State, vcs: seq<nat>, i: nat)
    requires Shaped(c, s) && i < |vcs| && forall a | 0 <= a < |vcs| :: vcs[a] < c.vcs
    ensures CreditAll(c, s, vcs[..i + 1]) == Credit(c, CreditAll(c, s, vcs[..i]), vcs[i])
  {
    assert vcs[..i + 1][..i] == vcs[..i];
  }

  function CreditAll(c: Config, s: State, vcs: seq<nat>): (r: State)
    requires Shaped(c, s) && forall a | 0 <= a < |vcs| :: vcs[a] < c.vcs
    ensures Shaped(c, r)
  {
    if vcs == [] then s else Credit(c, CreditAll(c, s, vcs[..|vcs| - 1]), vcs[|vcs| - 1])
  }

  /** A flit sent while its channel is not full finds room in the buffer. */
  lemma SendNeverOverflows(c: Config, s: State, vc: nat, tail: bool)
    requires Valid(c, s) && Enabled(c, s, OpSend(vc, tail))
    ensures 0 <= s.occupancy < c.size
    ensures c.kind == Private ==> s.vcOcc[vc] < c.vcBufSize
    ensures c.kind != Private ==> 0 <= s.reserved[vc] <= 1
    ensures Counts(c) ==> s.active > 0
  {
    WithinSize(c, s);
    SendAccounted(c, s, vc, tail);
    WithinSize(c, Send(c, s, vc, tail));
    BusyUpdate(s.inUse, s.tailSent, vc, -1, true);
  }

  /** A credit for a channel with flits outstanding finds every counter above zero. */
  lemma CreditNeverUnderflows(c: Config, s: State, vc: nat)
    requires Valid(c, s) && Enabled(c, s, OpCredit(vc))
    ensures s.occupancy > 0 && (c.waitForTail ==> s.inUse[vc] >= 0)
    ensures c.kind != Private ==>
              && s.privOcc[c.vcMap[vc]] > 0
              && (s.privOcc[c.vcMap[vc]] > c.privSize[c.vcMap[vc]] ==> s.sharedOcc > 0)
  {
    OneOfSum(s.vcOcc, vc);
    if c.kind != Private { OccupiedSlot(c, s, vc); }
  }

  /** A channel with flits outstanding occupies its private buffer, and the shared one if that spills. */
  lemma OccupiedSlot(c: Config, s: State, vc: nat)
    requires c.kind != Private && Accounted(c, s) && vc < c.vcs && s.vcOcc[vc] > 0
    ensures s.privOcc[c.vcMap[vc]] > 0
    ensures s.privOcc[c.vcMap[vc]] > c.privSize[c.vcMap[vc]] ==> s.sharedOcc > 0
  {
    var b := c.vcMap[vc];
    GroupMember(c.vcMap, s.vcOcc, s.reserved, vc);
    ExcessMember(s.privOcc, c.privSize, b);
  }

  lemma {:induction false} GroupMember(group: seq<int>, a: seq<int>, b: seq<int>, v: nat)
    requires |group| == |a| == |b| && v < |a|
    requires forall i | 0 <= i < |a| :: a[i] >= 0 && b[i] >= 0
    ensures GroupSum(group, a, b, group[v]) >= a[v] + b[v]
  {
    var l := |a| - 1;
    if v < l {
      GroupMember(group[..l], a[..l], b[..l], v);
    } else {
      GroupNonNegative(group[..l], a[..l], b[..l], group[v]);
    }
  }

  lemma {:induction false} GroupNonNegative(group: seq<int>, a: seq<int>, b: seq<int>, g: int)
    requires |group| == |a| == |b| && forall i | 0 <= i < |a| :: a[i] >= 0 && b[i] >= 0
    ensures GroupSum(group, a, b, g) >= 0
  {
    if a != [] { GroupNonNegative(group[..|a| - 1], a[..|a| - 1], b[..|a| - 1], g); }
  }

  lemma {:induction false} ExcessMember(occ: seq<int>, size: seq<int>, b: nat)
    requires |occ| == |size| && b < |occ|
    ensures Excess(occ, size) >= occ[b] - size[b]
  {
    var l := |occ| - 1;
    if b < l { ExcessMember(occ[..l], size[..l], b); }
    ExcessBounds(occ[..l], size[..l]);
  }
}
