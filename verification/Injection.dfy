/** The objects at both ends of the credit loop: the injection loop of a node, and the buffer of
    its router. */
module Injection {
  import opened Sums
  import opened BufferPolicies
  import opened BufferStates
  import opened Channels
  import opened CreditLoop
  import opened ChannelSearch

  /** The injection loop of a node, over its traffic classes. */
  class Injector {
    const buffer: BufferState
    const classes: nat
    const holdSwitch: bool
    var partial: seq<seq<Flit>>
    var lastVc: seq<int>
    var lastClass: nat

    constructor (c: Config, classes: nat, holdSwitch: bool)
      requires ValidConfig(c) && classes > 0
      ensures fresh(buffer) && buffer.c == c && buffer.Image() == Initial(c) && buffer.Valid() && Shaped()
      ensures this.classes == classes && this.holdSwitch == holdSwitch && lastClass == 0
      ensures partial == seq(classes, _ => []) && lastVc == seq(classes, _ => -1)
    {
      buffer := new BufferState(c);
      this.classes, this.holdSwitch, lastClass := classes, holdSwitch, 0;
      partial, lastVc := seq(classes, _ => []), seq(classes, _ => -1);
    }

    ghost predicate Shaped()
      reads this
    {
      && lastClass < classes == |partial| == |lastVc|
      && OnLast(partial, lastVc) && Tidy(partial)
    }

    /** What the search over the classes is given. */
    ghost function Setting(ranges: seq<Range>): Scan
      requires buffer.Valid() && Shaped() && Ready(ranges)
      reads this, buffer
    {
      var held := holdSwitch && Begun(partial[lastClass]) && CanGo(buffer.c, buffer.Image(), partial[lastClass]);
      Scan(buffer.c, buffer.Image(), lastVc, ranges, lastClass, held, partial)
    }

    /** Each class has a range of channels, and has been given no others. */
    ghost predicate Ready(ranges: seq<Range>)
      reads this, buffer
    {
      && |ranges| == classes == |partial| && (forall k | 0 <= k < classes :: ranges[k].first <= ranges[k].last < buffer.c.vcs)
      && forall k | 0 <= k < classes && partial[k] != [] ::
           -1 <= partial[k][0].vc < buffer.c.vcs && (Begun(partial[k]) ==> partial[k][0].vc >= 0)
    }

    /** The first free channel of the range that is not full, in turn after the last one used. If
        the last one lies outside the range only the first channel of the range is tried. */
    method FindVc(last: int, r: Range) returns (vc: int)
      requires buffer.Valid() && r.first <= r.last < buffer.c.vcs
      ensures vc == -1 || FirstUsable(buffer.c, buffer.Image(), last, r, vc)
      ensures vc == -1 ==> NoneBefore(buffer.c, buffer.Image(), last, r, r.last - r.first + 2)
      ensures vc == -1 && r.first <= last <= r.last ==> forall v | r.first <= v <= r.last :: Unusable(buffer.c, buffer.Image(), v)
    {
      var count := r.last - r.first + 1;
      for i := 1 to count + 1
        invariant NoneBefore(buffer.c, buffer.Image(), last, r, i)
      {
        vc := Candidate(last, r.first, r.last, i);
        CandidateInRange(last, r.first, r.last, i);
        if buffer.IsAvailableFor(vc) && !buffer.IsFullFor(vc) { return; }
      }
      vc := -1;
      forall v | r.first <= last <= r.last && r.first <= v <= r.last ensures Unusable(buffer.c, buffer.Image(), v) {
        CandidatesCover(last, r.first, r.last, v);
      }
    }

    /** A head without a channel is given one, if one of its range can take it. */
    method Prepare(k: nat, r: Range)
      requires buffer.Valid() && k < |partial| && k < |lastVc| && partial[k] != [] && r.first <= r.last < buffer.c.vcs
      modifies this`partial
      ensures |partial| == |old(partial)| && partial == old(partial)[k := partial[k]] && partial[k] != []
      ensures
        var fs, gs := old(partial)[k], partial[k];
        if Needs(fs) then
          || (gs == fs && NoneBefore(buffer.c, buffer.Image(), lastVc[k], r, r.last - r.first + 2))
          || (gs == Given(fs, gs[0].vc) && FirstUsable(buffer.c, buffer.Image(), lastVc[k], r, gs[0].vc))
        else gs == fs
    {
      var cf := partial[k][0];
      if cf.head && cf.vc == -1 {
        var vc := FindVc(lastVc[k], r);
        if vc != -1 { partial := partial[k := partial[k][0 := cf.(vc := vc)]]; }
      }
    }

    /** The search has come to turn `i`. */
    ghost predicate Searching(z: Scan, i: nat, chosen: int)
      reads this, buffer
    {
      && buffer.Valid() && z.Valid() && z.c == buffer.c && z.s == buffer.Image()
      && z.lastVc == lastVc && z.last == lastClass && |z.queues| == classes && z.At(i, partial, chosen)
    }

    /** Class `k` is considered. */
    method Consider(ghost z: Scan, ghost i: nat, k: nat, r: Range, chosen: int) returns (next: int)
      requires 1 <= i <= classes && k < classes && Searching(z, i, chosen) && z.ranges[k] == r
      requires !z.Seen(k, i) && forall j: nat | j < classes :: z.Turn(j) == i <==> j == k
      modifies this`partial
      ensures Searching(z, i + 1, next)
    {
      next := chosen;
      ghost var p, goes := partial, false;
      if partial[k] != [] && (chosen == -1 || partial[chosen][0].pri < partial[k][0].pri) {
        Prepare(k, r);
        if partial[k][0].vc != -1 && !buffer.IsFullFor(partial[k][0].vc) {
          next := k;
          goes := true;
        }
      }
      assert partial == p[k := partial[k]];
      Considered(z, i, p, chosen, k, partial[k], goes);
    }

    /** The class that is to go, or -1: the most urgent one that can, and the first in turn after the
        class last served among equally urgent ones; a class that holds the switch comes first. */
    method Search(ranges: seq<Range>) returns (chosen: int)
      requires buffer.Valid() && Shaped() && Ready(ranges)
      modifies this`partial
      ensures old(Setting(ranges)).Valid() && old(Setting(ranges)).Result(partial, chosen)
    {
      ghost var z := Setting(ranges);
      var limit := classes;
      chosen := -1;
      if holdSwitch && partial[lastClass] != [] && !partial[lastClass][0].head {
        var f := partial[lastClass][0];
        assert f.vc == lastVc[lastClass];
        if !buffer.IsFullFor(f.vc) {
          chosen := lastClass;
          limit := limit - 1;
        }
      }
      Start(z);
      for i := 1 to limit + 1
        invariant Searching(z, i, chosen)
      {
        TurnOfClass(z, i);
        var c := (lastClass + i) % classes;
        chosen := Consider(z, i, c, ranges[c], chosen);
      }
      AllSeen(z, partial, chosen);
    }

    /** One cycle of the loop: what the search has chosen is what the credit loop allows, and buffer
        state and packets change as the credit loop says. It fails exactly if the packet that is to go
        has kept a channel from an earlier cycle that has been taken since. */
    method Step(ranges: seq<Range>, ghost l: Link)
      returns (sent: Option<Flit>, ok: bool, ghost z: Scan, ghost marked: seq<seq<Flit>>, ghost chosen: int)
      requires Shaped() && |ranges| == classes && forall k | 0 <= k < classes :: ranges[k].first <= ranges[k].last < buffer.c.vcs
      requires Inv(l) && l.c == buffer.c && l.s == buffer.Image() && l.partial == partial
      modifies this, buffer
      ensures old(buffer.Valid() && Ready(ranges)) && z == old(Setting(ranges))
      ensures z.Valid() && z.Result(marked, chosen) && MayMark(l, marked)
      ensures ok <==> chosen == -1 || !Stale(l.s, l.partial[chosen])
      ensures ok ==> buffer.Valid() && Shaped()
      ensures chosen == -1 ==> sent == None && buffer.Image() == l.s && partial == marked
      ensures chosen >= 0 && ok ==>
                var l1, pick := Mark(l, marked), Pick(chosen, marked[chosen][0].vc);
                MayInject(l1, pick) && Served(l1, pick, sent)
      // each class remembers the channel of its last head, and the class last served is remembered
      ensures lastVc == if chosen >= 0 && ok && marked[chosen][0].head then old(lastVc)[chosen := marked[chosen][0].vc] else old(lastVc)
      ensures lastClass == if chosen >= 0 && ok then chosen else old(lastClass)
    {
      sent, ok := None, true;
      InRange(l);
      z := Setting(ranges);
      var c := SearchLink(ranges, z, l);
      chosen, marked := c, partial;
      if c == -1 { return; }
      OnlyKeptIsStale(z, marked, c);
      sent, ok := Serve(c, z, l, marked);
    }

    /** The search, seen from the link. */
    method SearchLink(ranges: seq<Range>, ghost z: Scan, ghost l: Link) returns (chosen: int)
      requires buffer.Valid() && Shaped() && Ready(ranges) && z == Setting(ranges)
      requires Inv(l) && l.c == z.c && l.s == z.s && l.partial == z.queues
      modifies this`partial
      ensures z.Valid() && z.Result(partial, chosen) && |partial| == classes && -1 <= chosen < classes
      ensures MayMark(l, partial) && Inv(Mark(l, partial)) && Tidy(partial) && OnLast(partial, lastVc)
    {
      chosen := Search(ranges);
      SearchKeeps(z, l, partial, chosen);
    }

    /** The credit loop has made this injection. */
    ghost predicate Served(l: Link, p: Pick, sent: Option<Flit>)
      requires CreditLoop.Shape(l) && Picks(l, p)
      reads this, buffer
    {
      var r := Inject(l, p);
      sent == r.flits.input && buffer.Image() == r.s && partial == r.partial && lastClass == p.cls
    }

    /** The chosen class goes, unless its channel has been taken. */
    method Serve(c: nat, ghost z: Scan, ghost l: Link, ghost marked: seq<seq<Flit>>) returns (sent: Option<Flit>, ok: bool)
      requires Inv(Mark(l, marked)) && z.Valid() && z.Result(marked, c) && z.c == l.c == buffer.c && z.s == l.s == buffer.Image()
      requires partial == marked && lastVc == z.lastVc && |marked| == classes && Tidy(marked) && OnLast(marked, lastVc)
      modifies this, buffer
      ensures ok <==> !Stale(l.s, marked[c])
      ensures ok ==> buffer.Valid() && Shaped()
      ensures ok ==> var pick := Pick(c, marked[c][0].vc); MayInject(Mark(l, marked), pick) && Served(Mark(l, marked), pick, sent)
      ensures lastVc == if ok && marked[c][0].head then old(lastVc)[c := marked[c][0].vc] else old(lastVc)
      ensures lastClass == if ok then c else old(lastClass)
    {
      sent, ok := None, true;
      var f := partial[c][0];
      if f.head && !buffer.IsAvailableFor(f.vc) {
        ok := false;                            // "Buffer taken while in use"
        return;
      }
      ChosenGoes(z, l, marked, c);
      Transmit(c);
      sent := Some(f);
    }

    /** Takes the channel for a head, sends the flit, and passes the channel back. */
    method Transmit(k: nat)
      requires k < |partial| == |lastVc| && partial[k] != [] && buffer.Valid()
      requires var f := partial[k][0];
               && 0 <= f.vc < buffer.c.vcs && HasRoom(buffer.c, buffer.Image(), f.vc)
               && if f.head then buffer.inUse[f.vc] < 0 else Sending(buffer.c, buffer.Image(), f.vc)
      modifies this`partial, this`lastVc, this`lastClass, buffer
      ensures var f := old(partial)[k][0];
              && buffer.Image() == Sent(buffer.c, old(buffer.Image()), f.vc, f) && buffer.Valid()
              && partial == old(partial)[k := PassedBack(old(partial)[k], f.vc)]
              && lastVc == (if f.head then old(lastVc)[k := f.vc] else old(lastVc)) && lastClass == k
    {
      var f := partial[k][0];
      SentKeeps(buffer.c, buffer.Image(), f.vc, f);
      if f.head {
        TakeKeepsRoom(buffer.c, buffer.Image(), f.vc, 0);
        buffer.TakeBuffer(f.vc, 0);
        lastVc := lastVc[k := f.vc];
      }
      lastClass := k;
      partial := partial[k := partial[k][1..]];
      buffer.SendingFlit(f.vc, f.tail);
      if partial[k] != [] && !f.tail {
        var nf := partial[k][0];
        partial := partial[k := partial[k][0 := nf.(vc := f.vc)]];
      }
    }
  }

  /** The search leaves the packets of the link in order. */
  lemma SearchKeeps(z: Scan, l: Link, marked: seq<seq<Flit>>, chosen: int)
    requires Inv(l) && z.Valid() && z.Result(marked, chosen) && z.c == l.c && z.s == l.s && z.queues == l.partial
    requires Tidy(l.partial) && OnLast(l.partial, z.lastVc)
    ensures MayMark(l, marked) && Inv(Mark(l, marked)) && Tidy(marked) && OnLast(marked, z.lastVc)
  {
    SearchMarks(z, marked, chosen);
    AllPackets(l);
    MarksTidy(l.c.vcs, l.partial, marked);
    MarkKeeps(l, marked);
  }

  /** What has been chosen may go, unless its channel has been taken. */
  lemma ChosenGoes(z: Scan, l: Link, marked: seq<seq<Flit>>, chosen: nat)
    requires Inv(Mark(l, marked)) && z.Valid() && z.Result(marked, chosen) && z.c == l.c && z.s == l.s
    requires Tidy(marked) && OnLast(marked, z.lastVc) && !Stale(l.s, marked[chosen])
    ensures
      var fs, vc := marked[chosen], marked[chosen][0].vc;
      && MayInject(Mark(l, marked), Pick(chosen, vc)) && HasRoom(l.c, l.s, vc)
      && (if fs[0].head then l.s.inUse[vc] < 0 else Sending(l.c, l.s, vc))
      && Tidy(marked[chosen := PassedBack(fs, vc)])
      && OnLast(marked[chosen := PassedBack(fs, vc)], if fs[0].head then z.lastVc[chosen := vc] else z.lastVc)
  {
    var l1, pick := Mark(l, marked), Pick(chosen, marked[chosen][0].vc);
    assert CanGo(l.c, l.s, marked[chosen]);
    MaySend(l1, pick);
    AllPackets(l1);
    NotKept(marked, chosen, pick.vc, l.c.vcs);
    LastFollows(marked, z.lastVc, chosen, pick.vc, l.c.vcs);
  }

  lemma LastFollows(p: seq<seq<Flit>>, lastVc: seq<int>, k: nat, vc: nat, vcs: nat)
    requires OnLast(p, lastVc) && k < |p| && p[k] != [] && vc == p[k][0].vc && Packets(p[k], Open(p[k]), vcs)
    ensures OnLast(p[k := PassedBack(p[k], vc)], if p[k][0].head then lastVc[k := vc] else lastVc)
  {
    InjectQueue(p[k], vc, vcs);
  }

  lemma AllPackets(l: Link)
    requires Inv(l)
    ensures forall k | 0 <= k < |l.partial| :: Packets(l.partial[k], Open(l.partial[k]), l.c.vcs)
  {
    forall k | 0 <= k < |l.partial| ensures Packets(l.partial[k], Open(l.partial[k]), l.c.vcs) {
      assert Queued(l.c, l.s, l.partial[k]);
    }
  }

  lemma InRange(l: Link)
    requires Inv(l)
    ensures forall k | 0 <= k < |l.partial| && l.partial[k] != [] ::
              -1 <= l.partial[k][0].vc < l.c.vcs && (Begun(l.partial[k]) ==> l.partial[k][0].vc >= 0)
  {
    forall k | 0 <= k < |l.partial| && l.partial[k] != []
      ensures -1 <= l.partial[k][0].vc < l.c.vcs && (Begun(l.partial[k]) ==> l.partial[k][0].vc >= 0)
    {
      assert Queued(l.c, l.s, l.partial[k]);
    }
  }

  /** The receiving buffer with its channels and the packet each of them expects. */
  class Buffer {
    const size: int
    var occupancy: int
    var vcs: seq<seq<Flit>>
    var expected: seq<int>

    ghost predicate Valid()
      reads this
    {
      && |vcs| == |expected| && (forall v | 0 <= v < |expected| :: expected[v] >= -1)
      && occupancy == Sum(Lengths(vcs))
    }

    constructor (n: nat, size: int)
      ensures Valid() && this.size == size && vcs == seq(n, _ => []) && expected == seq(n, _ => -1)
    {
      this.size := size;
      occupancy := 0;
      vcs := seq(n, _ => []);
      expected := seq(n, _ => -1);
      new;
      SumConstant(Lengths(vcs), 0);
    }

    /** Stores an arriving flit; the caller's link makes sure that there is room and that the
        flit belongs to the expected packet. */
    method AddFlit(vc: nat, f: Flit)
      requires Valid() && vc < |vcs| && f.pid >= 0
      requires Sum(Lengths(vcs)) < size && Accepts(expected[vc], f)
      modifies this
      ensures Valid() && vcs == old(vcs)[vc := old(vcs)[vc] + [f]]
      ensures expected == old(expected)[vc := Next(old(expected)[vc], f)]
    {
      assert occupancy < size;                  // not "Flit buffer overflow"
      SumUpdate(Lengths(vcs), vc, |vcs[vc]| + 1);
      assert Lengths(vcs)[vc := |vcs[vc]| + 1] == Lengths(vcs[vc := vcs[vc] + [f]]);
      occupancy := occupancy + 1;
      if expected[vc] >= 0 {
        assert f.pid == expected[vc];           // not "unexpected packet ID"
        if f.tail { expected := expected[vc := -1]; }
      } else if !f.tail {
        expected := expected[vc := f.pid];
      }
      vcs := vcs[vc := vcs[vc] + [f]];
    }

    method RemoveFlit(vc: nat) returns (f: Flit)
      requires Valid() && vc < |vcs| && vcs[vc] != []
      modifies this
      ensures Valid() && f == old(vcs)[vc][0] && vcs == old(vcs)[vc := old(vcs)[vc][1..]]
      ensures expected == old(expected)
    {
      SumUpdate(Lengths(vcs), vc, |vcs[vc]| - 1);
      assert Lengths(vcs)[vc := |vcs[vc]| - 1] == Lengths(vcs[vc := vcs[vc][1..]]);
      occupancy := occupancy - 1;
      f := vcs[vc][0];
      vcs := vcs[vc := vcs[vc][1..]];
    }
  }
}
