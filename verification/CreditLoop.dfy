/** The credit loop between a sender with several traffic classes and a remote buffer, cycle by cycle. */
module CreditLoop {
  import opened Sums
  import opened BufferPolicies
  import opened BufferStates
  import opened Channels

  /** A flit; `vc` is -1 until its packet has been given a channel. */
  datatype Flit = Flit(pid: int, head: bool, tail: bool, vc: int, pri: int)

  // ---------- the receiver's check of packet numbers ----------

  /** A channel's buffer expects packet `e`, or the head of any packet when `e` is -1. */
  predicate Accepts(e: int, f: Flit) {
    e < 0 || f.pid == e
  }

  function Next(e: int, f: Flit): int {
    if f.tail then -1 else if e >= 0 then e else f.pid
  }

  /** A buffer expecting `e` accepts all of `fs` and then expects `e'`. */
  ghost predicate Stream(e: int, fs: seq<Flit>, e': int)
    decreases |fs|
  {
    if fs == [] then e == e'
    else Accepts(e, fs[0]) && Stream(Next(e, fs[0]), fs[1..], e')
  }

  lemma {:induction false} StreamAppend(e: int, fs: seq<Flit>, e1: int, f: Flit)
    requires Stream(e, fs, e1) && Accepts(e1, f)
    ensures Stream(e, fs + [f], Next(e1, f))
    decreases |fs|
  {
    if fs == [] {
      assert [f][1..] == [];
    } else {
      StreamAppend(Next(e, fs[0]), fs[1..], e1, f);
      assert (fs + [f])[1..] == fs[1..] + [f];
    }
  }

  // ---------- counting by channel ----------

  /** The flits of channel `vc` among `fs`. */
  function Of(fs: seq<Flit>, vc: int): seq<Flit> {
    if fs == [] then [] else (if fs[0].vc == vc then [fs[0]] else []) + Of(fs[1..], vc)
  }

  lemma {:induction false} OfAppend(fs: seq<Flit>, f: Flit, vc: int)
    ensures Of(fs + [f], vc) == Of(fs, vc) + (if f.vc == vc then [f] else [])
  {
    if fs == [] {
      assert fs + [f] == [f] && [f][1..] == [];
    } else {
      OfAppend(fs[1..], f, vc);
      assert (fs + [f])[1..] == fs[1..] + [f];
    }
  }

  /** How many of the credits name channel `vc`. */
  function Credits(cs: seq<seq<nat>>, vc: nat): nat {
    if cs == [] then 0 else (if vc in cs[0] then 1 else 0) + Credits(cs[1..], vc)
  }

  lemma {:induction false} CreditsAppend(cs: seq<seq<nat>>, c: seq<nat>, vc: nat)
    ensures Credits(cs + [c], vc) == Credits(cs, vc) + (if vc in c then 1 else 0)
  {
    if cs == [] {
      assert cs + [c] == [c] && [c][1..] == [];
    } else {
      CreditsAppend(cs[1..], c, vc);
      assert (cs + [c])[1..] == cs[1..] + [c];
    }
  }

  // ---------- the link ----------

  datatype Link = Link(
    c: Config,
    now: int,
    delay: int,               // of the flit channel
    creditDelay: int,         // of the credit channel
    s: State,                 // the sender's image of the buffer
    partial: seq<seq<Flit>>,  // by class, flits of the packets still to be injected
    flits: Channel<Flit>,
    buf: seq<seq<Flit>>,      // the remote buffer, by channel
    expected: seq<int>,       // packet each channel of the buffer expects
    credits: Channel<seq<nat>>)

  /** Whole packets one after another, the first of them possibly begun: `open` is its number. A
      head may have been given one of the `vcs` channels already. */
  ghost predicate Packets(fs: seq<Flit>, open: int, vcs: nat) {
    if fs == [] then open == -1
    else
      && fs[0].pid >= 0
      && (if open >= 0 then !fs[0].head && fs[0].pid == open else open == -1 && fs[0].head && -1 <= fs[0].vc < vcs)
      && Packets(fs[1..], if fs[0].tail then -1 else fs[0].pid, vcs)
  }

  /** The first packet of a class has been begun. */
  predicate Begun(fs: seq<Flit>) {
    fs != [] && !fs[0].head
  }

  /** Its number, if it has been begun. */
  function Open(fs: seq<Flit>): int {
    if Begun(fs) then fs[0].pid else -1
  }

  /** The class is in the middle of a packet on channel `vc`. */
  predicate Occupies(fs: seq<Flit>, vc: int) {
    Begun(fs) && fs[0].vc == vc
  }

  /** Packet that channel `vc` is in the middle of, on the sender's side. */
  ghost function OpenOn(partial: seq<seq<Flit>>, vc: int): int {
    if k :| 0 <= k < |partial| && Occupies(partial[k], vc) then partial[k][0].pid else -1
  }

  /** No two classes are in the middle of packets on one channel. */
  ghost predicate Exclusive(partial: seq<seq<Flit>>) {
    forall j, k | 0 <= j < k < |partial| && Begun(partial[j]) && Begun(partial[k]) :: partial[j][0].vc != partial[k][0].vc
  }

  ghost predicate Shape(l: Link) {
    && l.delay > 0 && l.creditDelay > 0
    && |l.buf| == |l.expected| == l.c.vcs && BufferPolicies.Shaped(l.c, l.s)
    && (forall f | f in Content(l.flits) :: 0 <= f.vc < l.c.vcs)
    && (forall cr | cr in Content(l.credits) :: GoodCredit(l.c, cr))
  }

  /** A credit names each of its channels once. */
  ghost predicate GoodCredit(c: Config, cr: seq<nat>) {
    && (forall a | 0 <= a < |cr| :: cr[a] < c.vcs)
    && (forall a, b | 0 <= a < b < |cr| :: cr[a] != cr[b])
  }

  /** Conservation: what the sender counts for a channel is on its way, in the buffer, or on its
      way back as a credit. */
  ghost predicate Conserved(l: Link)
    requires Shape(l)
  {
    forall vc: nat | vc < l.c.vcs ::
      l.s.vcOcc[vc] == |Of(Content(l.flits), vc)| + |l.buf[vc]| + Credits(Content(l.credits), vc)
  }

  /** Order: what is on its way to a channel continues the packet its buffer expects, up to the
      packet that the sender is in the middle of. */
  ghost predicate Ordered(l: Link)
    requires Shape(l)
  {
    && Exclusive(l.partial) && (forall k | 0 <= k < |l.partial| :: Queued(l.c, l.s, l.partial[k]))
    && forall vc: nat | vc < l.c.vcs :: Stream(l.expected[vc], Of(Content(l.flits), vc), OpenOn(l.partial, vc))
  }

  /** The packets of a class; the first one holds its channel if it has been begun. */
  ghost predicate Queued(c: Config, s: State, fs: seq<Flit>)
    requires BufferPolicies.Shaped(c, s)
  {
    && Packets(fs, Open(fs), c.vcs)
    && (Begun(fs) ==> 0 <= fs[0].vc < c.vcs && Sending(c, s, fs[0].vc))
  }

  ghost predicate Inv(l: Link) {
    && Shape(l) && BufferPolicies.Valid(l.c, l.s)
    && Conserved(l) && Ordered(l)
  }

  // ---------- the phases of a cycle ----------

  /** The sender receives a credit. */
  function ReceiveCredit(l: Link): Link
    requires Shape(l)
  {
    if l.credits.output.Some? then
      assert l.credits.output.value in Content(l.credits);
      l.(s := CreditAll(l.c, l.s, l.credits.output.value), credits := l.credits.(output := None))
    else l
  }

  /** Both channels take in what was sent in the last cycle, and the buffer receives a flit. */
  function Deliver(l: Link): Link
    requires Shape(l)
  {
    var fl := ReadInputs(l.flits, l.now, l.delay);
    var cr := ReadInputs(l.credits, l.now, l.creditDelay);
    if l.flits.output.Some? then
      var f := l.flits.output.value;
      assert f in Content(l.flits);
      l.(flits := fl.(output := None), credits := cr,
         buf := l.buf[f.vc := l.buf[f.vc] + [f]],
         expected := l.expected[f.vc := Next(l.expected[f.vc], f)])
    else l.(flits := fl, credits := cr)
  }

  /** The buffer has a slot for an arriving flit and expects its packet. */
  ghost predicate ArrivalFits(l: Link)
    requires Shape(l)
  {
    l.flits.output.Some? ==>
      var f := l.flits.output.value;
      && 0 <= f.vc < l.c.vcs
      && Sum(Lengths(l.buf)) < l.c.size
      && Accepts(l.expected[f.vc], f)
  }

  function Lengths(buf: seq<seq<Flit>>): (r: seq<int>)
    ensures |r| == |buf| && forall i | 0 <= i < |buf| :: r[i] == |buf[i]|
  {
    seq(|buf|, i requires 0 <= i < |buf| => |buf[i]|)
  }

  /** The next flit of a class, and the channel for it. */
  datatype Pick = Pick(cls: nat, vc: nat)

  /** There is a next flit, and such a channel. */
  predicate Picks(l: Link, p: Pick) {
    p.vc < l.c.vcs && p.cls < |l.partial| && l.partial[p.cls] != []
  }

  /** The injection loop may send this flit on this channel. */
  ghost predicate MayInject(l: Link, p: Pick)
    requires Shape(l)
  {
    && Picks(l, p) && !IsFull(l.c, l.s, p.vc)
    && var f := l.partial[p.cls][0]; if f.head then l.s.inUse[p.vc] < 0 else p.vc == f.vc
  }

  /** The flit is sent; a head takes the channel first, and a flit that is not the last passes the
      channel on to the one behind it. */
  function Inject(l: Link, p: Pick): Link
    requires Shape(l) && Picks(l, p)
  {
    var f := l.partial[p.cls][0];
    l.(s := Sent(l.c, l.s, p.vc, f),
       flits := l.flits.(input := Some(f.(vc := p.vc))),
       partial := l.partial[p.cls := PassedBack(l.partial[p.cls], p.vc)])
  }

  /** What is left of a class once its first flit has left on `vc`. */
  function PassedBack(fs: seq<Flit>, vc: int): seq<Flit>
    requires fs != []
  {
    var rest := fs[1..];
    if rest != [] && !fs[0].tail then rest[0 := rest[0].(vc := vc)] else rest
  }

  /** The search may have given channels to heads that are not sent now. */
  ghost predicate Marked(vcs: nat, fs: seq<Flit>, gs: seq<Flit>) {
    gs == fs || (fs != [] && fs[0].head && exists v: nat | v < vcs :: gs == fs[0 := fs[0].(vc := v)])
  }

  ghost predicate MayMark(l: Link, partial: seq<seq<Flit>>) {
    |partial| == |l.partial| && forall k | 0 <= k < |partial| :: Marked(l.c.vcs, l.partial[k], partial[k])
  }

  function Mark(l: Link, partial: seq<seq<Flit>>): Link {
    l.(partial := partial)
  }

  /** The receiver removes one flit from each of the channels `vcs` and sends a credit for them. */
  function Drain(l: Link, vcs: seq<nat>): Link
    requires Shape(l)
  {
    if vcs == [] then l
    else l.(buf := Popped(l.buf, vcs), credits := l.credits.(input := Some(vcs)))
  }

  function Popped(buf: seq<seq<Flit>>, vcs: seq<nat>): (r: seq<seq<Flit>>)
    ensures |r| == |buf|
    ensures forall v: nat | v < |buf| :: r[v] == if v in vcs && buf[v] != [] then buf[v][1..] else buf[v]
  {
    seq(|buf|, v requires 0 <= v < |buf| => if v in vcs && buf[v] != [] then buf[v][1..] else buf[v])
  }

  ghost predicate MayDrain(l: Link, vcs: seq<nat>)
    requires Shape(l)
  {
    GoodCredit(l.c, vcs) && forall a | 0 <= a < |vcs| :: l.buf[vcs[a]] != []
  }

  function Tick(l: Link): Link {
    l.(flits := WriteOutputs(l.flits, l.now), credits := WriteOutputs(l.credits, l.now), now := l.now + 1)
  }

  /** Every class may generate packets. */
  function Enqueue(l: Link, packets: seq<seq<Flit>>): Link
    requires |packets| == |l.partial|
  {
    l.(partial := seq(|packets|, k requires 0 <= k < |packets| => l.partial[k] + packets[k]))
  }

  /** Whole packets, none of which has a channel. */
  ghost predicate NewPackets(l: Link, packets: seq<seq<Flit>>) {
    && |packets| == |l.partial| && (forall k | 0 <= k < |packets| :: Packets(packets[k], -1, l.c.vcs))
    && forall k, i | 0 <= k < |packets| && 0 <= i < |packets[k]| && packets[k][i].head :: packets[k][i].vc == -1
  }

  // ---------- every phase keeps the invariant ----------

  lemma {:induction false} CreditAllEffect(c: Config, s: State, vcs: seq<nat>)
    requires BufferPolicies.Valid(c, s) && GoodCredit(c, vcs) && forall a | 0 <= a < |vcs| :: s.vcOcc[vcs[a]] > 0
    ensures BufferPolicies.Valid(c, CreditAll(c, s, vcs))
    ensures forall v: nat | v < c.vcs :: CreditAll(c, s, vcs).vcOcc[v] == s.vcOcc[v] - (if v in vcs then 1 else 0)
    ensures forall v: nat | Sending(c, s, v) :: Sending(c, CreditAll(c, s, vcs), v)
  {
    if vcs != [] {
      var l := |vcs| - 1;
      CreditAllEffect(c, s, vcs[..l]);
      assert vcs[l] !in vcs[..l];
      assert forall v: nat :: v in vcs <==> v in vcs[..l] || v == vcs[l];
      CreditEffect(c, CreditAll(c, s, vcs[..l]), vcs[l]);
    }
  }

  lemma CreditEffect(c: Config, s: State, vc: nat)
    requires BufferPolicies.Valid(c, s) && vc < c.vcs && s.vcOcc[vc] > 0
    ensures BufferPolicies.Valid(c, Credit(c, s, vc)) && Credit(c, s, vc).vcOcc == s.vcOcc[vc := s.vcOcc[vc] - 1]
    ensures forall v: nat | Sending(c, s, v) :: Sending(c, Credit(c, s, vc), v)
  {
    StepKeepsValid(c, s, OpCredit(vc));
  }

  /** A received credit is covered by the sender's counts. */
  lemma CreditCovered(l: Link)
    requires Inv(l) && l.credits.output.Some?
    ensures GoodCredit(l.c, l.credits.output.value)
    ensures forall a | 0 <= a < |l.credits.output.value| :: l.s.vcOcc[l.credits.output.value[a]] > 0
    ensures forall vc: nat :: Credits(Content(l.credits), vc) ==
              (if vc in l.credits.output.value then 1 else 0) + Credits(Content(l.credits.(output := None)), vc)
    ensures forall cr :: cr in Content(l.credits.(output := None)) ==> cr in Content(l.credits)
  {
    var cr, rest := l.credits.output.value, Content(l.credits.(output := None));
    assert Content(l.credits) == [cr] + rest && ([cr] + rest)[1..] == rest;
    assert cr in Content(l.credits);
  }

  lemma ReceiveCreditKeeps(l: Link)
    requires Inv(l)
    ensures Inv(ReceiveCredit(l)) && ReceiveCredit(l).credits.output == None
    ensures l.credits.output.Some? ==> (
      && GoodCredit(l.c, l.credits.output.value)
      && forall a | 0 <= a < |l.credits.output.value| :: l.s.vcOcc[l.credits.output.value[a]] > 0)
  {
    if l.credits.output.Some? {
      CreditCovered(l);
      CreditAllEffect(l.c, l.s, l.credits.output.value);
    }
  }

  ghost predicate OnTime(l: Link, slack: int) {
    && Timed(l.flits.queue, l.now, l.now + l.delay - slack)
    && Timed(l.credits.queue, l.now, l.now + l.creditDelay - slack)
  }

  lemma ArrivalHasRoom(l: Link)
    requires Inv(l)
    ensures ArrivalFits(l)
  {
    if l.flits.output.Some? {
      var f := l.flits.output.value;
      assert Content(l.flits)[0] == f && f in Content(l.flits);
      assert |Of(Content(l.flits), f.vc)| >= 1;
      var lengths := Lengths(l.buf);
      SumUpdate(lengths, f.vc, lengths[f.vc] + 1);
      SumBounds(lengths[f.vc := lengths[f.vc] + 1], l.s.vcOcc);
      WithinSize(l.c, l.s);
      assert Stream(l.expected[f.vc], Of(Content(l.flits), f.vc), OpenOn(l.partial, f.vc));
    }
  }

  /** The buffer takes in the oldest flit on the channel. */
  function Arrive(l: Link): Link
    requires Shape(l)
  {
    if l.flits.output.Some? then
      var f := l.flits.output.value;
      assert f in Content(l.flits);
      l.(flits := l.flits.(output := None),
         buf := l.buf[f.vc := l.buf[f.vc] + [f]],
         expected := l.expected[f.vc := Next(l.expected[f.vc], f)])
    else l
  }

  /** Taking the oldest flit off the channel, seen from each channel. */
  lemma OldestOf(ch: Channel<Flit>, vc: int)
    requires ch.output.Some?
    ensures Of(Content(ch), vc) == (if ch.output.value.vc == vc then [ch.output.value] else []) + Of(Content(ch.(output := None)), vc)
    ensures forall f :: f in Content(ch.(output := None)) ==> f in Content(ch)
  {
    var f, rest := ch.output.value, Content(ch.(output := None));
    assert Content(ch) == [f] + rest && ([f] + rest)[1..] == rest;
  }

  lemma ArriveStream(l: Link, vc: nat)
    requires Inv(l) && l.flits.output.Some? && vc < l.c.vcs
    ensures Stream(Arrive(l).expected[vc], Of(Content(Arrive(l).flits), vc), OpenOn(l.partial, vc))
  {
    var f := l.flits.output.value;
    var rest := Of(Content(Arrive(l).flits), vc);
    OldestOf(l.flits, vc);
    assert Stream(l.expected[vc], Of(Content(l.flits), vc), OpenOn(l.partial, vc));
    if f.vc == vc {
      assert Of(Content(l.flits), vc) == [f] + rest && ([f] + rest)[1..] == rest;
      assert Arrive(l).expected[vc] == Next(l.expected[vc], f);
    } else {
      assert Of(Content(l.flits), vc) == rest;
    }
  }

  lemma ArriveOrdered(l: Link)
    requires Inv(l) && l.flits.output.Some? && Shape(Arrive(l))
    ensures Ordered(Arrive(l))
  {
    forall vc: nat | vc < l.c.vcs
      ensures Stream(Arrive(l).expected[vc], Of(Content(Arrive(l).flits), vc), OpenOn(Arrive(l).partial, vc))
    {
      ArriveStream(l, vc);
    }
  }

  lemma ArriveShape(l: Link)
    requires Inv(l) && l.flits.output.Some?
    ensures Shape(Arrive(l)) && Conserved(Arrive(l))
  {
    var f := l.flits.output.value;
    assert f in Content(l.flits);
    forall vc: nat | vc < l.c.vcs
      ensures |Of(Content(l.flits), vc)| + |l.buf[vc]| == |Of(Content(Arrive(l).flits), vc)| + |Arrive(l).buf[vc]|
    {
      OldestOf(l.flits, vc);
    }
    OldestOf(l.flits, 0);
  }

  lemma ArriveKeeps(l: Link)
    requires Inv(l)
    ensures Inv(Arrive(l))
  {
    if l.flits.output.Some? {
      ArriveShape(l);
      ArriveOrdered(l);
    }
  }

  /** Both channels take in their inputs, and the buffer an arriving flit, for which there is room. */
  lemma DeliverKeeps(l: Link)
    requires Inv(l) && OnTime(l, 2) && l.credits.output == None
    ensures ArrivalFits(l)
    ensures Inv(Deliver(l)) && OnTime(Deliver(l), 1)
    ensures Deliver(l).flits.output == Deliver(l).flits.input == None
    ensures Deliver(l).credits.output == Deliver(l).credits.input == None
  {
    ArrivalHasRoom(l);
    ReadKeeps(l.flits, l.now, l.delay);
    ReadKeeps(l.credits, l.now, l.creditDelay);
    var r := l.(flits := ReadInputs(l.flits, l.now, l.delay), credits := ReadInputs(l.credits, l.now, l.creditDelay));
    InvOfContents(l, r);
    ArriveKeeps(r);
    assert Deliver(l) == Arrive(r);
  }

  lemma {:induction false} PacketsAppend(fs: seq<Flit>, gs: seq<Flit>, open: int, vcs: nat)
    requires Packets(fs, open, vcs) && Packets(gs, -1, vcs)
    ensures Packets(fs + gs, open, vcs)
  {
    if fs == [] {
      assert fs + gs == gs;
    } else {
      PacketsAppend(fs[1..], gs, if fs[0].tail then -1 else fs[0].pid, vcs);
      assert (fs + gs)[1..] == fs[1..] + gs;
    }
  }

  /** A packet being sent is known by any class that occupies the channel. */
  lemma OpenOnIs(partial: seq<seq<Flit>>, k: nat, vc: int)
    requires Exclusive(partial) && k < |partial| && Occupies(partial[k], vc)
    ensures OpenOn(partial, vc) == partial[k][0].pid
  {
  }

  /** Classes that go on with the same packets leave the channels with the same packets. */
  lemma OpenOnSame(p: seq<seq<Flit>>, q: seq<seq<Flit>>, vc: int)
    requires |p| == |q| && Exclusive(p) && Exclusive(q)
    requires forall k | 0 <= k < |p| :: Occupies(p[k], vc) <==> Occupies(q[k], vc)
    requires forall k | 0 <= k < |p| && Occupies(p[k], vc) && Occupies(q[k], vc) :: q[k][0].pid == p[k][0].pid
    ensures OpenOn(q, vc) == OpenOn(p, vc)
  {
    if k :| 0 <= k < |p| && Occupies(p[k], vc) {
      OpenOnIs(p, k, vc);
      OpenOnIs(q, k, vc);
    } else {
      assert forall k | 0 <= k < |q| :: !Occupies(q[k], vc);
    }
  }

  /** Neither packets behind the first nor the channels of heads matter for what has been begun. */
  lemma SameBegun(l: Link, partial: seq<seq<Flit>>)
    requires Inv(l) && |partial| == |l.partial|
    requires forall k | 0 <= k < |partial| :: Queued(l.c, l.s, partial[k]) && Begun(partial[k]) == Begun(l.partial[k])
    requires forall k | 0 <= k < |partial| && Begun(partial[k]) :: partial[k][0] == l.partial[k][0]
    ensures Inv(l.(partial := partial))
  {
    forall vc: nat | vc < l.c.vcs ensures OpenOn(partial, vc) == OpenOn(l.partial, vc) {
      OpenOnSame(l.partial, partial, vc);
    }
  }

  lemma EnqueueKeeps(l: Link, packets: seq<seq<Flit>>)
    requires Inv(l) && NewPackets(l, packets)
    ensures Inv(Enqueue(l, packets))
  {
    var r := Enqueue(l, packets);
    forall k | 0 <= k < |packets|
      ensures Queued(l.c, l.s, r.partial[k]) && Begun(r.partial[k]) == Begun(l.partial[k])
      ensures Begun(r.partial[k]) ==> r.partial[k][0] == l.partial[k][0]
    {
      QueueAppend(l.c, l.s, l.partial[k], packets[k]);
    }
    SameBegun(l, r.partial);
  }

  lemma QueueAppend(c: Config, s: State, fs: seq<Flit>, gs: seq<Flit>)
    requires BufferPolicies.Shaped(c, s) && Queued(c, s, fs) && Packets(gs, -1, c.vcs)
    ensures Queued(c, s, fs + gs) && Begun(fs + gs) == Begun(fs) && (Begun(fs) ==> (fs + gs)[0] == fs[0])
  {
    PacketsAppend(fs, gs, Open(fs), c.vcs);
    if fs == [] { assert fs + gs == gs; }
  }

  lemma MarkKeeps(l: Link, partial: seq<seq<Flit>>)
    requires Inv(l) && MayMark(l, partial)
    ensures Inv(Mark(l, partial))
  {
    forall k | 0 <= k < |partial|
      ensures Queued(l.c, l.s, partial[k]) && Begun(partial[k]) == Begun(l.partial[k])
      ensures Begun(partial[k]) ==> partial[k][0] == l.partial[k][0]
    {
      assert Marked(l.c.vcs, l.partial[k], partial[k]) && Queued(l.c, l.s, l.partial[k]);
      if partial[k] != l.partial[k] { assert partial[k][1..] == l.partial[k][1..]; }
    }
    SameBegun(l, partial);
  }

  /** The sender's state after an injection. */
  function Sent(c: Config, s: State, vc: nat, f: Flit): State
    requires BufferPolicies.Shaped(c, s) && vc < c.vcs
  {
    Send(c, if f.head then Take(c, s, vc, 0) else s, vc, f.tail)
  }

  lemma SentKeeps(c: Config, s: State, vc: nat, f: Flit)
    requires BufferPolicies.Valid(c, s) && vc < c.vcs && HasRoom(c, s, vc)
    requires if f.head then s.inUse[vc] < 0 else Sending(c, s, vc)
    ensures BufferPolicies.Valid(c, Sent(c, s, vc, f))
    ensures Sent(c, s, vc, f).vcOcc == s.vcOcc[vc := s.vcOcc[vc] + 1]
    ensures !f.tail ==> Sending(c, Sent(c, s, vc, f), vc)
  {
    if f.head {
      HeadSent(c, s, vc, f.tail);
      assert Sent(c, s, vc, f) == Send(c, Take(c, s, vc, 0), vc, f.tail);
    } else {
      BodySent(c, s, vc, f.tail);
      assert Sent(c, s, vc, f) == Send(c, s, vc, f.tail);
    }
  }

  lemma HeadSent(c: Config, s: State, vc: nat, tail: bool)
    requires BufferPolicies.Valid(c, s) && vc < c.vcs && s.inUse[vc] < 0 && HasRoom(c, s, vc)
    ensures BufferPolicies.Valid(c, Send(c, Take(c, s, vc, 0), vc, tail))
    ensures Send(c, Take(c, s, vc, 0), vc, tail).vcOcc == s.vcOcc[vc := s.vcOcc[vc] + 1]
    ensures !tail ==> Sending(c, Send(c, Take(c, s, vc, 0), vc, tail), vc)
  {
    StepKeepsValid(c, s, OpTake(vc, 0));
    TakeKeepsRoom(c, s, vc, 0);
    BodySent(c, Take(c, s, vc, 0), vc, tail);
  }

  lemma BodySent(c: Config, s: State, vc: nat, tail: bool)
    requires BufferPolicies.Valid(c, s) && Sending(c, s, vc) && HasRoom(c, s, vc)
    ensures BufferPolicies.Valid(c, Send(c, s, vc, tail))
    ensures Send(c, s, vc, tail).vcOcc == s.vcOcc[vc := s.vcOcc[vc] + 1]
    ensures !tail ==> Sending(c, Send(c, s, vc, tail), vc)
  {
    StepKeepsValid(c, s, OpSend(vc, tail));
  }

  lemma OthersSending(c: Config, s: State, vc: nat, f: Flit, v: nat)
    requires BufferPolicies.Shaped(c, s) && vc < c.vcs && v != vc && Sending(c, s, v)
    ensures Sending(c, Sent(c, s, vc, f), v)
  {
  }

  /** What is left of the class: the rest of the packet on the same channel, or the next packet. */
  lemma InjectQueue(fs: seq<Flit>, vc: nat, vcs: nat)
    requires fs != [] && Packets(fs, Open(fs), vcs)
    ensures var gs := PassedBack(fs, vc);
            && Packets(gs, Open(gs), vcs) && Begun(gs) == !fs[0].tail
            && (Begun(gs) ==> Occupies(gs, vc) && gs[0].pid == fs[0].pid)
  {
    var rest, gs := fs[1..], PassedBack(fs, vc);
    assert Packets(rest, if fs[0].tail then -1 else fs[0].pid, vcs);
    if rest != [] && !fs[0].tail { assert gs[1..] == rest[1..]; }
  }

  /** A head finds its channel with no packet begun; another flit finds its own packet there. */
  lemma FoundOpen(l: Link, p: Pick)
    requires Inv(l) && MayInject(l, p)
    ensures OpenOn(l.partial, p.vc) == Open(l.partial[p.cls])
    ensures forall k | 0 <= k < |l.partial| && k != p.cls :: !Occupies(l.partial[k], p.vc)
  {
    forall k | 0 <= k < |l.partial| ensures Queued(l.c, l.s, l.partial[k]) { }
    if Begun(l.partial[p.cls]) { OpenOnIs(l.partial, p.cls, p.vc); }
  }

  /** The flit sent continues the packet that its channel is in the middle of. */
  lemma InjectOpen(l: Link, p: Pick)
    requires Inv(l) && MayInject(l, p)
    ensures
      var q := l.partial[p.cls := PassedBack(l.partial[p.cls], p.vc)];
      var f := l.partial[p.cls][0].(vc := p.vc);
      && Exclusive(q) && Accepts(OpenOn(l.partial, p.vc), f) && OpenOn(q, p.vc) == Next(OpenOn(l.partial, p.vc), f)
      && forall v | v != p.vc :: OpenOn(q, v) == OpenOn(l.partial, v)
  {
    var fs := l.partial[p.cls];
    assert Queued(l.c, l.s, fs);
    FoundOpen(l, p);
    InjectQueue(fs, p.vc, l.c.vcs);
    QueueReplaced(l.partial, p.cls, PassedBack(fs, p.vc), p.vc);
  }

  /** A class that alone may occupy channel `vc` goes on with another queue. */
  lemma QueueReplaced(partial: seq<seq<Flit>>, c: nat, gs: seq<Flit>, vc: nat)
    requires Exclusive(partial) && c < |partial| && (Begun(gs) ==> Occupies(gs, vc)) && (Begun(partial[c]) ==> Occupies(partial[c], vc))
    requires forall k | 0 <= k < |partial| && k != c :: !Occupies(partial[k], vc)
    ensures var q := partial[c := gs];
            && Exclusive(q) && OpenOn(q, vc) == Open(gs)
            && forall v | v != vc :: OpenOn(q, v) == OpenOn(partial, v)
  {
    var q := partial[c := gs];
    assert forall k | 0 <= k < |q| :: q[k] == if k == c then gs else partial[k];
    if Begun(gs) { OpenOnIs(q, c, vc); }
    forall v | v != vc ensures OpenOn(q, v) == OpenOn(partial, v) {
      assert !Occupies(gs, v) && !Occupies(partial[c], v);
      OpenOnSame(partial, q, v);
    }
  }

  lemma InjectContent(l: Link, p: Pick)
    requires Shape(l) && Picks(l, p) && l.flits.input == None
    ensures
      var f := l.partial[p.cls][0].(vc := p.vc);
      && Content(Inject(l, p).flits) == Content(l.flits) + [f]
      && forall v :: Of(Content(Inject(l, p).flits), v) ==
                     if v == p.vc then Of(Content(l.flits), v) + [f] else Of(Content(l.flits), v)
  {
    var f := l.partial[p.cls][0].(vc := p.vc);
    assert Content(Inject(l, p).flits) == Content(l.flits) + [f];
    forall v ensures Of(Content(l.flits) + [f], v) ==
                     if v == p.vc then Of(Content(l.flits), v) + [f] else Of(Content(l.flits), v) {
      OfAppend(Content(l.flits), f, v);
    }
  }

  lemma InjectStream(l: Link, p: Pick, v: nat)
    requires Inv(l) && MayInject(l, p) && l.flits.input == None && v < l.c.vcs
    ensures Stream(Inject(l, p).expected[v], Of(Content(Inject(l, p).flits), v), OpenOn(Inject(l, p).partial, v))
  {
    InjectOpen(l, p);
    InjectContent(l, p);
    assert Stream(l.expected[v], Of(Content(l.flits), v), OpenOn(l.partial, v));
    if v == p.vc {
      StreamAppend(l.expected[v], Of(Content(l.flits), v), OpenOn(l.partial, v), l.partial[p.cls][0].(vc := p.vc));
    }
  }

  lemma MaySend(l: Link, p: Pick)
    requires Inv(l) && MayInject(l, p)
    ensures BufferPolicies.Valid(l.c, l.s) && HasRoom(l.c, l.s, p.vc)
    ensures if l.partial[p.cls][0].head then l.s.inUse[p.vc] < 0 else Sending(l.c, l.s, p.vc)
  {
    assert Queued(l.c, l.s, l.partial[p.cls]);
  }

  lemma InjectSent(l: Link, p: Pick)
    requires Shape(l) && Picks(l, p) && BufferPolicies.Valid(l.c, l.s) && HasRoom(l.c, l.s, p.vc)
    requires if l.partial[p.cls][0].head then l.s.inUse[p.vc] < 0 else Sending(l.c, l.s, p.vc)
    ensures BufferPolicies.Valid(l.c, Inject(l, p).s)
    ensures Inject(l, p).s.vcOcc == l.s.vcOcc[p.vc := l.s.vcOcc[p.vc] + 1]
    ensures !l.partial[p.cls][0].tail ==> Sending(l.c, Inject(l, p).s, p.vc)
  {
    SentKeeps(l.c, l.s, p.vc, l.partial[p.cls][0]);
  }

  lemma InjectShape(l: Link, p: Pick)
    requires Shape(l) && Picks(l, p) && l.flits.input == None && BufferPolicies.Shaped(l.c, Inject(l, p).s)
    ensures Shape(Inject(l, p))
  {
    InjectContent(l, p);
  }

  lemma InjectCounts(l: Link, p: Pick)
    requires Shape(l) && Conserved(l) && Picks(l, p) && l.flits.input == None && Shape(Inject(l, p))
    requires Inject(l, p).s.vcOcc == l.s.vcOcc[p.vc := l.s.vcOcc[p.vc] + 1]
    ensures Conserved(Inject(l, p))
  {
    InjectContent(l, p);
    forall v: nat | v < l.c.vcs
      ensures |Of(Content(Inject(l, p).flits), v)| == |Of(Content(l.flits), v)| + if v == p.vc then 1 else 0
    {
    }
  }

  lemma InjectQueued(l: Link, p: Pick, k: nat)
    requires Inv(l) && MayInject(l, p) && k < |l.partial|
    requires BufferPolicies.Valid(l.c, Inject(l, p).s) && (!l.partial[p.cls][0].tail ==> Sending(l.c, Inject(l, p).s, p.vc))
    ensures Queued(l.c, Inject(l, p).s, Inject(l, p).partial[k])
  {
    var fs := l.partial[k];
    assert Queued(l.c, l.s, fs);
    if k == p.cls {
      InjectQueue(fs, p.vc, l.c.vcs);
    } else if Begun(fs) {
      FoundOpen(l, p);
      OthersSending(l.c, l.s, p.vc, l.partial[p.cls][0], fs[0].vc);
    }
  }

  lemma InjectKeeps(l: Link, p: Pick)
    requires Inv(l) && MayInject(l, p) && l.flits.input == None
    ensures Inv(Inject(l, p))
  {
    MaySend(l, p);
    InjectSent(l, p);
    InjectShape(l, p);
    InjectCounts(l, p);
    InjectOpen(l, p);
    forall k | 0 <= k < |l.partial| ensures Queued(l.c, Inject(l, p).s, Inject(l, p).partial[k]) {
      InjectQueued(l, p, k);
    }
    forall v: nat | v < l.c.vcs
      ensures Stream(Inject(l, p).expected[v], Of(Content(Inject(l, p).flits), v), OpenOn(Inject(l, p).partial, v))
    {
      InjectStream(l, p, v);
    }
  }

  lemma DrainKeeps(l: Link, vcs: seq<nat>)
    requires Inv(l) && MayDrain(l, vcs) && l.credits.input == None
    ensures Inv(Drain(l, vcs))
  {
    if vcs != [] {
      var r := Drain(l, vcs);
      assert Content(r.credits) == Content(l.credits) + [vcs];
      forall v: nat | v < l.c.vcs
        ensures |r.buf[v]| + Credits(Content(r.credits), v) == |l.buf[v]| + Credits(Content(l.credits), v)
      {
        CreditsAppend(Content(l.credits), vcs, v);
      }
    }
  }

  lemma TickKeeps(l: Link)
    requires Inv(l) && OnTime(l, 1) && l.flits.output == None && l.credits.output == None
    ensures Inv(Tick(l)) && OnTime(Tick(l), 2)
    ensures DueNow(l.flits, l.now) && DueNow(l.credits, l.now)
  {
    TickOnTime(l);
    InvOfContents(l, Tick(l));
  }

  lemma TickOnTime(l: Link)
    requires l.delay >= 1 && l.creditDelay >= 1
    requires OnTime(l, 1) && l.flits.output == None && l.credits.output == None
    ensures OnTime(Tick(l), 2) && DueNow(l.flits, l.now) && DueNow(l.credits, l.now)
    ensures Content(Tick(l).flits) == Content(l.flits) && Content(Tick(l).credits) == Content(l.credits)
  {
    WriteKeeps(l.flits, l.now, l.delay);
    WriteKeeps(l.credits, l.now, l.creditDelay);
  }

  /** The invariant looks at what the channels hold, not at where it is in them. */
  lemma InvOfContents(l: Link, r: Link)
    requires Inv(l) && r == l.(flits := r.flits, credits := r.credits, now := r.now)
    requires Content(r.flits) == Content(l.flits) && Content(r.credits) == Content(l.credits)
    ensures Inv(r)
  {
  }

  /** What is due when outputs are written is due in exactly this cycle. */
  ghost predicate DueNow<T>(ch: Channel<T>, now: int) {
    ch.queue != [] && ch.queue[0].0 <= now ==> ch.queue[0].0 == now
  }

  // ---------- every run is safe ----------

  /** What the environment does in one cycle. */
  datatype Events = Events(packets: seq<seq<Flit>>, marked: seq<seq<Flit>>, inject: Option<Pick>, drained: seq<nat>)

  /** The link after the first half of a cycle: credit received, channels read, packets queued. */
  function FirstHalf(l: Link, e: Events): Link
    requires Shape(l) && Shape(ReceiveCredit(l)) && |e.packets| == |l.partial|
  {
    Enqueue(Deliver(ReceiveCredit(l)), e.packets)
  }

  /** After the optional injection. */
  function Injected(l: Link, inject: Option<Pick>): Link
    requires Shape(l) && (inject.Some? ==> Picks(l, inject.value))
  {
    if inject.Some? then Inject(l, inject.value) else l
  }

  ghost predicate Cycle(l: Link, e: Events, l': Link) {
    && Shape(l) && Shape(ReceiveCredit(l)) && NewPackets(l, e.packets)
    && MayMark(FirstHalf(l, e), e.marked)
    && var l1 := Mark(FirstHalf(l, e), e.marked);
       && Shape(l1) && (e.inject.Some? ==> MayInject(l1, e.inject.value))
       && var l2 := Injected(l1, e.inject);
          && Shape(l2) && MayDrain(l2, e.drained)
          && l' == Tick(Drain(l2, e.drained))
  }

  /** No run-time check of the sender, the channels or the buffer fails in this cycle. */
  ghost predicate Safe(l: Link, e: Events) {
    && Shape(l) && Shape(ReceiveCredit(l)) && |e.packets| == |l.partial|
    // each credit is for a channel with flits outstanding
    && CreditsCovered(l)
    // an arriving flit finds room in the buffer and belongs to the expected packet
    && ArrivalFits(ReceiveCredit(l))
    // a channel never carries two things sent in the same cycle, and nothing arrives late
    && Punctual(FirstHalf(l, e))
  }

  ghost predicate CreditsCovered(l: Link)
    requires Shape(l)
  {
    l.credits.output.Some? ==>
      forall a | 0 <= a < |l.credits.output.value| ::
        l.credits.output.value[a] < l.c.vcs && l.s.vcOcc[l.credits.output.value[a]] > 0
  }

  ghost predicate Punctual(l: Link) {
    && l.flits.input == None && l.credits.input == None
    && DueNow(l.flits, l.now) && DueNow(l.credits, l.now)
  }

  lemma CreditPhase(l: Link)
    requires Inv(l) && OnTime(l, 2)
    ensures CreditsCovered(l)
    ensures var l0 := ReceiveCredit(l); Inv(l0) && OnTime(l0, 2) && l0.credits.output == None && l0.c == l.c
  {
    ReceiveCreditKeeps(l);
    if l.credits.output.Some? { CreditCovered(l); }
  }

  lemma DeliveryPhase(l: Link, packets: seq<seq<Flit>>)
    requires Inv(l) && OnTime(l, 2) && l.credits.output == None && NewPackets(l, packets)
    ensures ArrivalFits(l)
    ensures
      var l1 := Enqueue(Deliver(l), packets);
      Inv(l1) && OnTime(l1, 1) && l1.flits.output == l1.flits.input == None
      && l1.credits.output == l1.credits.input == None && l1.c == l.c
  {
    DeliverKeeps(l);
    EnqueueKeeps(Deliver(l), packets);
  }

  lemma FirstHalfSafe(l: Link, e: Events)
    requires Inv(l) && OnTime(l, 2) && NewPackets(l, e.packets)
    ensures Shape(ReceiveCredit(l)) && CreditsCovered(l) && ArrivalFits(ReceiveCredit(l))
    ensures
      var l1 := FirstHalf(l, e);
      && Inv(l1) && OnTime(l1, 1) && Punctual(l1)
      && l1.flits.output == None && l1.credits.output == None && l1.c == l.c
  {
    CreditPhase(l);
    DeliveryPhase(ReceiveCredit(l), e.packets);
  }

  lemma InjectedSafe(l: Link, inject: Option<Pick>)
    requires Inv(l) && (inject.Some? ==> MayInject(l, inject.value)) && l.flits.input == None
    ensures Inv(Injected(l, inject))
  {
    if inject.Some? { InjectKeeps(l, inject.value); }
  }

  lemma SecondHalfSafe(l: Link, drained: seq<nat>)
    requires Inv(l) && OnTime(l, 1) && l.flits.output == None && l.credits.output == l.credits.input == None
    requires MayDrain(l, drained)
    ensures
      var l' := Tick(Drain(l, drained));
      Inv(l') && OnTime(l', 2) && l'.c == l.c
  {
    DrainKeeps(l, drained);
    TickKeeps(Drain(l, drained));
  }

  lemma CycleSafe(l: Link, e: Events, l': Link)
    requires Inv(l) && OnTime(l, 2) && Cycle(l, e, l')
    ensures Inv(l') && OnTime(l', 2) && Safe(l, e) && l'.c == l.c
  {
    FirstHalfSafe(l, e);
    MarkKeeps(FirstHalf(l, e), e.marked);
    var l1 := Mark(FirstHalf(l, e), e.marked);
    InjectedSafe(l1, e.inject);
    SecondHalfSafe(Injected(l1, e.inject), e.drained);
  }

  function InitialLink(c: Config, classes: nat, delay: int, creditDelay: int): Link {
    Link(c, 0, delay, creditDelay, Initial(c), seq(classes, _ => []), Empty(), seq(c.vcs, _ => []), seq(c.vcs, _ => -1), Empty())
  }

  lemma InitialSafe(c: Config, classes: nat, delay: int, creditDelay: int)
    requires ValidConfig(c) && delay > 0 && creditDelay > 0
    ensures Inv(InitialLink(c, classes, delay, creditDelay)) && OnTime(InitialLink(c, classes, delay, creditDelay), 2)
  {
    InitialValid(c);
  }

  /** The buffer holds no more than the sender counts, and that is no more than its size. */
  lemma NeverTooFull(l: Link)
    requires Inv(l)
    ensures Sum(Lengths(l.buf)) <= l.s.occupancy <= l.c.size
  {
    SumBounds(Lengths(l.buf), l.s.vcOcc);
    WithinSize(l.c, l.s);
  }

  ghost predicate Runs(ls: seq<Link>, es: seq<Events>) {
    |ls| == |es| + 1 && forall i | 0 <= i < |es| :: Cycle(ls[i], es[i], ls[i + 1])
  }

  /** The account is balanced, packets are in order and everything on the channels is on time. */
  ghost predicate Good(c: Config, l: Link) {
    Inv(l) && OnTime(l, 2) && l.c == c
  }

  lemma CyclesKeep(c: Config)
    ensures forall l, e, l' :: Good(c, l) && Cycle(l, e, l') ==> Good(c, l') && Safe(l, e)
  {
    forall l, e, l' | Good(c, l) && Cycle(l, e, l') ensures Good(c, l') && Safe(l, e) {
      CycleSafe(l, e, l');
    }
  }

  /** In every reachable state flits, buffered flits and credits add up to the sender's counts,
      and no check fails in any cycle. */
  lemma RunsAreSafe(c: Config, classes: nat, delay: int, creditDelay: int, ls: seq<Link>, es: seq<Events>)
    requires ValidConfig(c) && delay > 0 && creditDelay > 0
    requires Runs(ls, es) && ls[0] == InitialLink(c, classes, delay, creditDelay)
    ensures forall i | 0 <= i <= |es| :: Good(c, ls[i])
    ensures forall i | 0 <= i < |es| :: Safe(ls[i], es[i])
  {
    InitialSafe(c, classes, delay, creditDelay);
    CyclesKeep(c);
    EveryCycle(l => Good(c, l), (l, e, l') => Cycle(l, e, l'), (l, e) => Safe(l, e), ls, es);
  }

  /** What holds at first and is kept by every step holds throughout a run. */
  lemma {:induction false} EveryCycle<S(!new), E(!new)>(good: S -> bool, step: (S, E, S) -> bool, safe: (S, E) -> bool,
                                                        ss: seq<S>, es: seq<E>)
    requires |ss| == |es| + 1 && good(ss[0])
    requires forall s, e, s' :: good(s) && step(s, e, s') ==> good(s') && safe(s, e)
    requires forall i | 0 <= i < |es| :: step(ss[i], es[i], ss[i + 1])
    ensures forall i | 0 <= i <= |es| :: good(ss[i])
    ensures forall i | 0 <= i < |es| :: safe(ss[i], es[i])
  {
    var n := |es|;
    if n > 0 {
      EveryCycle(good, step, safe, ss[..n], es[..n - 1]);
      forall i | 0 <= i < n ensures good(ss[i]) && (i < n - 1 ==> safe(ss[i], es[i])) {
        assert ss[..n][i] == ss[i] && good(ss[..n][i]);
        if i < n - 1 { assert safe(ss[..n][i], es[..n - 1][i]); }
      }
      assert step(ss[n - 1], es[n - 1], ss[n]);
    }
  }
}
