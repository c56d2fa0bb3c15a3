/** Round-trip probes of the simple feedback policy, for credits that return in the order in which
    the flits of a channel were sent. */
module Feedback {
  import opened Arithmetic
  import opened Sums
  import opened BufferPolicies
  import opened BufferStates

  /** Constants of the policy. */
  datatype Tuning = Tuning(agingScale: nat, offset: int, minLatency: nat)

  /** Moving average of the round-trip time; a negative estimate stands for none yet. */
  function ComputeRtt(t: Tuning, rtt: int, last: int): int {
    if rtt < 0 then last else (rtt * PowerOfTwo(t.agingScale) + last - rtt) / PowerOfTwo(t.agingScale)
  }

  function ComputeLimit(t: Tuning, rtt: int): int {
    if 2 * t.minLatency - rtt + t.offset > 1 then 2 * t.minLatency - rtt + t.offset else 1
  }

  lemma FloorBetween(d: int, p: int)
    requires p > 0
    ensures d >= 0 ==> 0 <= d / p <= d
    ensures d <= 0 ==> d <= d / p <= 0
  {
    var q := d / p;
    Quotient(d, p);
    Apart(p, q, 0);
    Apart(p, 0, q);
    if q >= 0 { Multiply(1, p, q); } else { Multiply(1, p, -(q + 1)); }
  }

  lemma ShiftOut(a: int, d: int, p: int)
    requires p > 0
    ensures (a * p + d) / p == a + d / p
  {
    var q, r := d / p, (a * p + d) / p;
    Quotient(d, p);
    Quotient(a * p + d, p);
    assert p * (a + q) == a * p + p * q;
    Apart(p, r, a + q);
    Apart(p, a + q, r);
  }

  lemma Quotient(d: int, p: int)
    requires p > 0
    ensures p * (d / p) <= d < p * (d / p) + p
  {
  }

  lemma Apart(p: int, x: int, y: int)
    requires p > 0
    ensures x < y ==> p * x + p <= p * y
  {
    if x < y {
      Multiply(x + 1, y, p);
      assert p * (x + 1) == p * x + p;
    }
  }

  /** The new estimate lies between the old one and the sample, so it never overshoots. */
  lemma AverageBetween(t: Tuning, rtt: int, last: int)
    requires rtt >= 0 && last >= 0
    ensures rtt <= last ==> rtt <= ComputeRtt(t, rtt, last) <= last
    ensures last <= rtt ==> last <= ComputeRtt(t, rtt, last) <= rtt
  {
    var p := PowerOfTwo(t.agingScale);
    ShiftOut(rtt, last - rtt, p);
    FloorBetween(last - rtt, p);
  }

  /** It moves by the fraction of the difference that the scale says, rounded down. */
  lemma AverageMoves(t: Tuning, rtt: int, last: int)
    requires rtt >= 0
    ensures var p, step := PowerOfTwo(t.agingScale), ComputeRtt(t, rtt, last) - rtt; p * step <= last - rtt < p * step + p
  {
    var p := PowerOfTwo(t.agingScale);
    ShiftOut(rtt, last - rtt, p);
    Quotient(last - rtt, p);
  }

  /** A round trip without congestion grants the offset, every further cycle costs one slot, and the last slot
      is never taken away. */
  lemma CongestionCosts(t: Tuning, rtt: int)
    ensures t.offset >= 1 ==> ComputeLimit(t, 2 * t.minLatency) == t.offset
    ensures ComputeLimit(t, rtt + 1) == if ComputeLimit(t, rtt) > 1 then ComputeLimit(t, rtt) - 1 else 1
    ensures ComputeLimit(t, rtt) >= 1
  {
  }

  /** What the policy keeps for one channel. */
  datatype Probe = Probe(sentTime: seq<int>, pending: int, rtt: int, limit: int)

  /** A flit is sent; `occupancy` already counts it. It becomes the probe if there is none. */
  function OnSend(p: Probe, occupancy: int, now: int): Probe {
    if p.sentTime == [] then p.(pending := occupancy - 1, sentTime := [now]) else p
  }

  /** The credit at hand belongs to the probe. */
  predicate IsProbeCredit(p: Probe) {
    p.sentTime != [] && p.pending == 0
  }

  function OnCredit(t: Tuning, p: Probe, now: int): Probe {
    if IsProbeCredit(p) then
      var rtt := ComputeRtt(t, p.rtt, now - p.sentTime[0]);
      Probe(p.sentTime[1..], p.pending, rtt, ComputeLimit(t, rtt))
    else if p.pending > 0 then p.(pending := p.pending - 1)
    else p
  }

  /** `out` lists the times at which the flits still outstanding were sent, oldest first. There is
      at most one probe, it is outstanding, and the pending credits are exactly those ahead of it. */
  ghost predicate Exact(p: Probe, out: seq<int>) {
    && |p.sentTime| <= 1
    && (if p.sentTime == [] then p.pending == 0
        else 0 <= p.pending < |out| && out[p.pending] == p.sentTime[0])
  }

  datatype Event = Sent(now: int) | Credited(now: int)

  ghost predicate EventLegal(out: seq<int>, e: Event) {
    e.Credited? ==> out != []
  }

  function Outstanding(out: seq<int>, e: Event): seq<int>
    requires EventLegal(out, e)
  {
    match e
    case Sent(now) => out + [now]
    case Credited(_) => out[1..]
  }

  function React(t: Tuning, p: Probe, out: seq<int>, e: Event): Probe {
    match e
    case Sent(now) => OnSend(p, |out| + 1, now)
    case Credited(now) => OnCredit(t, p, now)
  }

  /** Probing stays exact, and when the estimate changes the sample is the probe's own round trip:
      the time since the very flit was sent whose credit has come. */
  lemma ProbeExact(t: Tuning, p: Probe, out: seq<int>, e: Event)
    requires Exact(p, out) && EventLegal(out, e)
    ensures Exact(React(t, p, out, e), Outstanding(out, e))
    ensures React(t, p, out, e).rtt != p.rtt ==> e.Credited? && React(t, p, out, e).rtt == ComputeRtt(t, p.rtt, e.now - out[0])
    ensures e.Credited? && IsProbeCredit(p) ==> p.sentTime[0] == out[0]
  {
  }

  /** Over every run of sends and credits of a channel: the estimate changes exactly when the credit
      of the probe comes, and the sample is then the probe's own round trip. */
  lemma {:induction false} RunsExact(t: Tuning, limit: int, ps: seq<Probe>, outs: seq<seq<int>>, es: seq<Event>, i: nat)
    requires |ps| == |outs| == |es| + 1 && i <= |es|
    requires ps[0] == Probe([], 0, -1, limit) && outs[0] == []
    requires forall j | 0 <= j < |es| :: EventLegal(outs[j], es[j]) && outs[j + 1] == Outstanding(outs[j], es[j])
                                         && ps[j + 1] == React(t, ps[j], outs[j], es[j])
    ensures Exact(ps[i], outs[i])
    ensures i < |es| && es[i].Credited? && IsProbeCredit(ps[i]) ==>
              ps[i + 1].rtt == ComputeRtt(t, ps[i].rtt, es[i].now - outs[i][0])
    ensures i < |es| && !(es[i].Credited? && IsProbeCredit(ps[i])) ==> ps[i + 1].rtt == ps[i].rtt
  {
    if i > 0 {
      RunsExact(t, limit, ps, outs, es, i - 1);
      ProbeExact(t, ps[i - 1], outs[i - 1], es[i - 1]);
    }
    if i < |es| { ProbeExact(t, ps[i], outs[i], es[i]); }
  }

  // ---------- how many slots the policy grants ----------

  /** Slots granted to a channel: its limit, or what its limit would become if the probe under way
      came back now. */
  function MaxSlots(t: Tuning, p: Probe, now: int): int {
    if p.sentTime == [] then p.limit
    else
      var limit := ComputeLimit(t, ComputeRtt(t, p.rtt, now - p.sentTime[0]));
      if limit < p.limit then limit else p.limit
  }

  lemma RttRises(t: Tuning, rtt: int, last: int, last': int)
    requires last <= last'
    ensures ComputeRtt(t, rtt, last) <= ComputeRtt(t, rtt, last')
  {
    if rtt >= 0 {
      var p := PowerOfTwo(t.agingScale);
      var a, b := rtt * p + last - rtt, rtt * p + last' - rtt;
      Quotient(a, p);
      Quotient(b, p);
      Apart(p, b / p, a / p);
    }
  }

  /** While a probe is under way, the channel is held to the limit that its credit would set now, or to the
      present limit if that is lower. */
  lemma HeldToComing(t: Tuning, p: Probe, out: seq<int>, now: int)
    requires Exact(p, out) && IsProbeCredit(p)
    ensures var coming := OnCredit(t, p, now).limit; MaxSlots(t, p, now) == if coming < p.limit then coming else p.limit
    ensures MaxSlots(t, OnCredit(t, p, now), now) == OnCredit(t, p, now).limit
  {
    assert OnCredit(t, p, now).sentTime == [];
  }

  /** What is granted falls while a probe is late, and a credit never lowers it. */
  lemma OnlyCreditsGrant(t: Tuning, p: Probe, out: seq<int>, now: int, now': int)
    requires Exact(p, out) && now <= now'
    ensures MaxSlots(t, p, now') <= MaxSlots(t, p, now)
    ensures out != [] ==> MaxSlots(t, p, now) <= MaxSlots(t, React(t, p, out, Credited(now)), now)
    ensures MaxSlots(t, React(t, p, out, Sent(now)), now) <= MaxSlots(t, p, now)
  {
    if p.sentTime != [] { RttRises(t, p.rtt, now - p.sentTime[0], now' - p.sentTime[0]); }
  }

  /** Probes of all channels are exact, for as many flits as the buffer state counts; and unless the
      buffer has no slots at all, every channel is granted one. */
  ghost predicate Tracked(size: int, ps: seq<Probe>, out: seq<seq<int>>, occ: seq<int>) {
    && |ps| == |out| == |occ|
    && forall v | 0 <= v < |ps| :: TracksOne(size, ps[v], out[v], occ[v])
  }

  ghost predicate TracksOne(size: int, p: Probe, out: seq<int>, occ: int) {
    Exact(p, out) && |out| == occ && (size > 0 ==> p.limit > 0)
  }

  lemma StartTracked(size: int, vcs: nat)
    ensures var ps := Bundle(seq(vcs, _ => []), seq(vcs, _ => 0), seq(vcs, _ => -1), seq(vcs, _ => size));
            && ps == seq(vcs, _ => Probe([], 0, -1, size))
            && Tracked(size, ps, seq(vcs, _ => []), seq(vcs, _ => 0)) && Sum(seq(vcs, _ => size)) == size * vcs
  {
    SumConstant(seq(vcs, _ => size), size);
    var ps := Bundle(seq(vcs, _ => []), seq(vcs, _ => 0), seq(vcs, _ => -1), seq(vcs, _ => size));
    assert ps == seq(vcs, _ => Probe([], 0, -1, size));
  }

  /** An event at one channel. */
  lemma TrackedStep(t: Tuning, size: int, ps: seq<Probe>, out: seq<seq<int>>, occ: seq<int>, vc: nat, e: Event)
    requires Tracked(size, ps, out, occ) && vc < |ps| && EventLegal(out[vc], e)
    ensures Tracked(size, ps[vc := React(t, ps[vc], out[vc], e)], out[vc := Outstanding(out[vc], e)],
                    occ[vc := occ[vc] + if e.Sent? then 1 else -1])
  {
    assert TracksOne(size, ps[vc], out[vc], occ[vc]);
    ProbeExact(t, ps[vc], out[vc], e);
  }

  function Bundle(sentTime: seq<seq<int>>, pending: seq<int>, rtt: seq<int>, limit: seq<int>): (ps: seq<Probe>)
    requires |sentTime| == |pending| == |rtt| == |limit|
  {
    seq(|limit|, v requires 0 <= v < |limit| => Probe(sentTime[v], pending[v], rtt[v], limit[v]))
  }

  /** The policy's own fields for all channels, beside the buffer state that it guards. */
  class SimpleFeedback {
    const t: Tuning
    const buffer: BufferState
    var sentTime: seq<seq<int>>
    var pending: seq<int>
    var rtt: seq<int>
    var limit: seq<int>
    var totalMapped: int
    ghost var out: seq<seq<int>>

    function Probes(): (ps: seq<Probe>)
      requires |sentTime| == |pending| == |rtt| == |limit|
      reads this
    {
      Bundle(sentTime, pending, rtt, limit)
    }

    ghost predicate Shaped()
      reads this
    {
      |sentTime| == |pending| == |rtt| == |limit| == |out| == buffer.c.vcs
    }

    ghost predicate Valid()
      reads this, buffer
    {
      && buffer.Valid() && buffer.c.kind == Shared && Shaped()
      && Tracked(buffer.c.size, Probes(), out, buffer.vcOcc) && totalMapped == Sum(limit)
    }

    constructor (t: Tuning, c: Config)
      requires ValidConfig(c) && c.kind == Shared
      ensures Valid() && fresh(buffer) && this.t == t && buffer.c == c && buffer.Image() == Initial(c)
      ensures Probes() == seq(c.vcs, _ => Probe([], 0, -1, c.size)) && out == seq(c.vcs, _ => [])
    {
      this.t := t;
      buffer := new BufferState(c);
      sentTime := seq(c.vcs, _ => []);
      pending, rtt, limit := seq(c.vcs, _ => 0), seq(c.vcs, _ => -1), seq(c.vcs, _ => c.size);
      totalMapped := c.size * c.vcs;
      out := seq(c.vcs, _ => []);
      new;
      StartTracked(c.size, c.vcs);
    }

    /** Full exactly if the shared buffer has no slot for the channel or the policy grants no more;
        so an empty channel is never held back by the policy alone. */
    function IsFullFor(vc: nat, now: int): (r: bool)
      requires Valid() && vc < buffer.c.vcs
      reads this, buffer
      ensures r <==> AvailableFor(vc, now) <= 0
      ensures buffer.vcOcc[vc] == 0 && buffer.c.size > 0 ==> (r <==> buffer.IsFullFor(vc))
    {
      assert TracksOne(buffer.c.size, Probes()[vc], out[vc], buffer.vcOcc[vc]);
      buffer.IsFullFor(vc) || buffer.vcOcc[vc] >= MaxSlots(t, Probes()[vc], now)
    }

    function AvailableFor(vc: nat, now: int): int
      requires Valid() && vc < buffer.c.vcs
      reads this, buffer
    {
      var shared, granted := Available(buffer.c, buffer.Image(), vc), MaxSlots(t, Probes()[vc], now) - buffer.vcOcc[vc];
      if granted < shared then granted else shared
    }

    /** The buffer state follows its policy; the flit becomes the channel's probe if it has none. */
    method SendingFlit(vc: nat, tail: bool, now: int)
      requires Valid() && Enabled(buffer.c, buffer.Image(), OpSend(vc, tail))
      modifies this, buffer
      ensures Valid() && out == old(out)[vc := old(out)[vc] + [now]]
      ensures buffer.Image() == Send(buffer.c, old(buffer.Image()), vc, tail)
      ensures Probes() == old(Probes())[vc := OnSend(old(Probes())[vc], buffer.vcOcc[vc], now)]
    {
      TrackedStep(t, buffer.c.size, Probes(), out, buffer.vcOcc, vc, Sent(now));
      buffer.SendingFlit(vc, tail);
      Sending(vc, buffer.vcOcc[vc], now);
    }

    /** The feedback policy's own part of sending a flit. */
    method Sending(vc: nat, occupancy: int, now: int)
      requires Shaped() && vc < buffer.c.vcs && occupancy > 0
      modifies this`sentTime, this`pending, this`out
      ensures Shaped() && out == old(out)[vc := old(out)[vc] + [now]]
      ensures Probes() == old(Probes())[vc := OnSend(old(Probes())[vc], occupancy, now)]
    {
      out := out[vc := out[vc] + [now]];
      if sentTime[vc] == [] {
        pending := pending[vc := occupancy - 1];
        sentTime := sentTime[vc := sentTime[vc] + [now]];
      }
      assert Probes()[vc] == OnSend(old(Probes())[vc], occupancy, now);
    }

    /** The credit of the channel's oldest flit: the buffer state follows its policy, and the estimate
        and the limit follow the probe. */
    method CreditFor(vc: nat, now: int)
      requires Valid() && Enabled(buffer.c, buffer.Image(), OpCredit(vc))
      modifies this, buffer
      ensures Valid() && out == old(out)[vc := old(out)[vc][1..]]
      ensures buffer.Image() == Credit(buffer.c, old(buffer.Image()), vc)
      ensures Probes() == old(Probes())[vc := OnCredit(t, old(Probes())[vc], now)]
    {
      assert TracksOne(buffer.c.size, Probes()[vc], out[vc], buffer.vcOcc[vc]);
      TrackedStep(t, buffer.c.size, Probes(), out, buffer.vcOcc, vc, Credited(now));
      CreditTouches(buffer.c, buffer.Image(), vc);
      buffer.CreditFor(vc);
      FreeSlotFor(vc, now);
    }

    /** The feedback policy's own part of a credit. */
    method FreeSlotFor(vc: nat, now: int)
      requires Shaped() && vc < buffer.c.vcs && out[vc] != [] && totalMapped == Sum(limit)
      requires pending[vc] > 0 ==> sentTime[vc] != []
      modifies this
      ensures Shaped() && totalMapped == Sum(limit) && out == old(out)[vc := old(out)[vc][1..]]
      ensures Probes() == old(Probes())[vc := OnCredit(t, old(Probes())[vc], now)]
    {
      out := out[vc := out[vc][1..]];
      if sentTime[vc] != [] && pending[vc] == 0 {
        ProbeReturned(vc, now);
        assert Probes()[vc] == OnCredit(t, old(Probes())[vc], now);
      } else if pending[vc] > 0 {
        assert sentTime[vc] != [];
        pending := pending[vc := pending[vc] - 1];
      }
    }

    /** A new estimate and a new limit. */
    method ProbeReturned(vc: nat, now: int)
      requires vc < |sentTime| == |rtt| == |limit| == |pending| && sentTime[vc] != [] && totalMapped == Sum(limit)
      modifies this`sentTime, this`rtt, this`limit, this`totalMapped
      ensures sentTime == old(sentTime)[vc := old(sentTime)[vc][1..]]
      ensures rtt == old(rtt)[vc := ComputeRtt(t, old(rtt)[vc], now - old(sentTime)[vc][0])]
      ensures limit == old(limit)[vc := ComputeLimit(t, rtt[vc])] && totalMapped == Sum(limit)
    {
      var last := now - sentTime[vc][0];
      sentTime := sentTime[vc := sentTime[vc][1..]];
      var r := ComputeRtt(t, rtt[vc], last);
      rtt := rtt[vc := r];
      var lim := ComputeLimit(t, r);
      SumUpdate(limit, vc, lim);
      totalMapped := totalMapped + (lim - limit[vc]);
      limit := limit[vc := lim];
    }
  }
}
