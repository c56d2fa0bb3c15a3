/** Which flit a node injects next, and on which channel: the search over the traffic classes and,
    within a class, over the channels of its range. */
module ChannelSearch {
  import Matchings
  import opened BufferPolicies
  import opened CreditLoop

  // ---------- a channel for a head ----------

  /** Channel tried in the `i`-th turn of the search after `last`. */
  function Candidate(last: int, vcStart: int, vcEnd: int, i: int): int
    requires vcStart <= vcEnd
  {
    if last < vcStart || last > vcEnd then vcStart
    else vcStart + (last - vcStart + i) % (vcEnd - vcStart + 1)
  }

  /** When the last channel lies in the range, the search comes by every channel of the range. */
  lemma CandidatesCover(last: int, vcStart: int, vcEnd: int, v: int)
    requires vcStart <= last <= vcEnd && vcStart <= v <= vcEnd
    ensures Tried(last, vcStart, vcEnd, v)
  {
    var n, i := vcEnd - vcStart + 1, if v > last then v - last else v - last + vcEnd - vcStart + 1;
    Matchings.Wrap(last - vcStart + i, n);
    assert Candidate(last, vcStart, vcEnd, i) == v;
  }

  /** Some turn of the search comes by channel `v`. */
  ghost predicate Tried(last: int, vcStart: int, vcEnd: int, v: int)
    requires vcStart <= vcEnd
  {
    exists i :: 1 <= i <= vcEnd - vcStart + 1 && Candidate(last, vcStart, vcEnd, i) == v
  }

  /** The search covers its whole range exactly if the last channel used lies in it, or there is
      only one; otherwise a packet may stay behind although a channel is free. */
  lemma SearchesAllIff(last: int, vcStart: int, vcEnd: int)
    requires vcStart <= vcEnd
    ensures (forall v | vcStart <= v <= vcEnd :: Tried(last, vcStart, vcEnd, v)) <==> vcStart <= last <= vcEnd || vcStart == vcEnd
  {
    if vcStart <= last <= vcEnd {
      forall v | vcStart <= v <= vcEnd ensures Tried(last, vcStart, vcEnd, v) {
        CandidatesCover(last, vcStart, vcEnd, v);
      }
    } else {
      assert Candidate(last, vcStart, vcEnd, 1) == vcStart;
      if vcStart < vcEnd { assert !Tried(last, vcStart, vcEnd, vcEnd); }
    }
  }

  lemma CandidateInRange(last: int, vcStart: int, vcEnd: int, i: int)
    requires vcStart <= vcEnd
    ensures vcStart <= Candidate(last, vcStart, vcEnd, i) <= vcEnd
  {
  }

  /** The channels that a class may use. */
  datatype Range = Range(first: nat, last: nat)

  /** Channel `v` cannot take a packet now. */
  ghost predicate Unusable(c: Config, s: State, v: int)
    requires Shaped(c, s)
  {
    0 <= v < c.vcs ==> s.inUse[v] >= 0 || IsFull(c, s, v)
  }

  /** No channel tried before the `n`-th turn of the search can take a packet. */
  ghost predicate NoneBefore(c: Config, s: State, last: int, r: Range, n: int)
    requires Shaped(c, s) && r.first <= r.last
  {
    forall j | 1 <= j < n :: Unusable(c, s, Candidate(last, r.first, r.last, j))
  }

  /** The channel is the first in turn that can take a packet. */
  ghost predicate FirstUsable(c: Config, s: State, last: int, r: Range, vc: int)
    requires Shaped(c, s) && r.first <= r.last
  {
    && r.first <= vc <= r.last && !Unusable(c, s, vc)
    && exists i :: 1 <= i <= r.last - r.first + 1 && Candidate(last, r.first, r.last, i) == vc && NoneBefore(c, s, last, r, i)
  }

  /** The first packet of a class has no channel yet. */
  predicate Needs(fs: seq<Flit>) {
    fs != [] && fs[0].head && fs[0].vc == -1
  }

  function Given(fs: seq<Flit>, vc: int): seq<Flit>
    requires fs != []
  {
    fs[0 := fs[0].(vc := vc)]
  }

  /** The next flit of a class has a channel that is not full. */
  predicate CanGo(c: Config, s: State, fs: seq<Flit>)
    requires Shaped(c, s)
  {
    fs != [] && 0 <= fs[0].vc < c.vcs && !IsFull(c, s, fs[0].vc)
  }

  // ---------- the search over the classes ----------

  /** What the search over the classes is given: buffer state, the channel last used by each class,
      the ranges of their packets, the class last served, whether that class holds the switch, and the
      packets of all classes. */
  datatype Scan = Scan(c: Config, s: State, lastVc: seq<int>, ranges: seq<Range>, last: nat, held: bool, queues: seq<seq<Flit>>) {

    ghost predicate Valid() {
      && Shaped(c, s) && last < |queues| == |lastVc| == |ranges|
      && (forall k | 0 <= k < |queues| :: ranges[k].first <= ranges[k].last < c.vcs)
      && (forall k | 0 <= k < |queues| && queues[k] != [] :: -1 <= queues[k][0].vc < c.vcs)
      && (held ==> Begun(queues[last]) && CanGo(c, s, queues[last]))
    }

    /** Turn in which class `k` is considered. */
    function Turn(k: nat): (i: nat)
      requires last < |queues| && k < |queues|
      ensures 1 <= i <= |queues|
    {
      if k > last then k - last else k + |queues| - last
    }

    /** Class `k` is considered before turn `i`. */
    predicate Seen(k: nat, i: nat)
      requires last < |queues| && k < |queues|
    {
      Turn(k) < i || (held && k == last)
    }

    /** Class `j` is considered before class `k`. */
    predicate Before(j: nat, k: nat)
      requires last < |queues| && j < |queues| && k < |queues|
    {
      if held && (j == last || k == last) then k != last else Turn(j) < Turn(k)
    }

    /** Packets `fs` of class `k` after its search for a channel, if it needed one. */
    ghost predicate Searched(k: nat, fs: seq<Flit>)
      requires Valid() && k < |queues|
    {
      if Needs(queues[k]) then
        || (fs == queues[k] && NoneBefore(c, s, lastVc[k], ranges[k], ranges[k].last - ranges[k].first + 2))
        || (fs != [] && fs == Given(queues[k], fs[0].vc) && FirstUsable(c, s, lastVc[k], ranges[k], fs[0].vc))
      else fs == queues[k]
    }

    /** Class `k` cannot go. */
    ghost predicate Stuck(k: nat, fs: seq<Flit>)
      requires Valid() && k < |queues|
    {
      Searched(k, fs) && !CanGo(c, s, fs)
    }

    /** Class `k` was not even asked, since one considered before it could go and is as urgent. */
    ghost predicate Skipped(k: nat, p: seq<seq<Flit>>)
      requires Valid() && k < |p| == |queues|
    {
      && p[k] == queues[k] != []
      && exists j: nat :: j < |p| && Before(j, k) && CanGo(c, s, p[j]) && p[k][0].pri <= p[j][0].pri
    }

    /** Class `k` gives way to a flit of priority `pri`: it cannot go, or it could but is less urgent,
        or it was skipped; an equally urgent one must have been considered later. */
    ghost predicate GivesWay(k: nat, p: seq<seq<Flit>>, pri: int, later: bool)
      requires Valid() && k < |p| == |queues|
    {
      || Stuck(k, p[k])
      || (p[k] != [] && p[k][0].pri < pri && (Searched(k, p[k]) || Skipped(k, p)))
      || (p[k] != [] && p[k][0].pri == pri && later && Skipped(k, p))
    }

    /** The search has come to turn `i`: the packets are now `p`, and class `chosen` is to go, if any. */
    ghost predicate At(i: nat, p: seq<seq<Flit>>, chosen: int)
      requires Valid()
    {
      && |p| == |queues|
      && (forall k: nat | k < |p| && !Seen(k, i) :: p[k] == queues[k])
      && if chosen < 0 then !held && chosen == -1 && forall k: nat | k < |p| && Seen(k, i) :: Stuck(k, p[k])
         else
           && chosen < |p| && Seen(chosen, i) && Searched(chosen, p[chosen]) && CanGo(c, s, p[chosen])
           && forall k: nat | k < |p| && k != chosen && Seen(k, i) :: GivesWay(k, p, p[chosen][0].pri, Before(chosen, k))
    }

    /** The result of the search. */
    ghost predicate Result(p: seq<seq<Flit>>, chosen: int)
      requires Valid()
    {
      At(|queues| + 1, p, chosen)
    }
  }

  lemma TurnOfClass(z: Scan, i: nat)
    requires z.last < |z.queues| && 1 <= i <= |z.queues|
    ensures var k := (z.last + i) % |z.queues|;
            0 <= k < |z.queues| && z.Turn(k) == i && forall j: nat | j < |z.queues| && z.Turn(j) == i :: j == k
  {
    Matchings.Wrap(z.last + i, |z.queues|);
  }

  /** Before the first turn only a class that holds the switch has been considered. */
  lemma Start(z: Scan)
    requires z.Valid()
    ensures z.At(1, z.queues, if z.held then z.last else -1)
  {
    var n := |z.queues|;
    assert forall k: nat | k < n :: z.Seen(k, 1) <==> z.held && k == z.last;
  }

  /** When one class is held, the last turn is not needed. */
  lemma AllSeen(z: Scan, p: seq<seq<Flit>>, chosen: int)
    requires z.Valid() && z.At(if z.held then |z.queues| else |z.queues| + 1, p, chosen)
    ensures z.Result(p, chosen)
  {
    var n := |z.queues|;
    if z.held {
      assert forall k: nat | k < n :: z.Seen(k, n) && z.Seen(k, n + 1);
    }
  }

  /** One class is considered: it changes to `fs`, and becomes the one to go if it `goes`. */
  lemma Considered(z: Scan, i: nat, p: seq<seq<Flit>>, chosen: int, k: nat, fs: seq<Flit>, goes: bool)
    requires z.Valid() && z.At(i, p, chosen) && k < |p| && z.Turn(k) == i && !z.Seen(k, i)
    requires forall j: nat | j < |p| && z.Turn(j) == i :: j == k
    requires
      || (fs == z.queues[k] && !goes && fs != [] && chosen >= 0 && fs[0].pri <= p[chosen][0].pri)
      || (z.Searched(k, fs) && goes == CanGo(z.c, z.s, fs) && (chosen >= 0 ==> fs == [] || fs[0].pri > p[chosen][0].pri))
    ensures z.At(i + 1, p[k := fs], if goes then k else chosen)
  {
    var q := p[k := fs];
    forall j: nat | j < |q| ensures z.Seen(j, i + 1) <==> z.Seen(j, i) || j == k { }
    if chosen >= 0 {
      forall j: nat | j < |q| && z.Seen(j, i) && j != chosen
        ensures z.GivesWay(j, q, p[chosen][0].pri, z.Before(chosen, j))
      {
        StillGivesWay(z, i, p, j, k, fs, p[chosen][0].pri, z.Before(chosen, j));
      }
      if !goes && fs != [] && fs[0].pri <= p[chosen][0].pri {
        var j: nat := chosen;
        assert z.Before(j, k) && j != k && q[j] == p[j] && CanGo(z.c, z.s, q[j]) && q[k][0].pri <= q[j][0].pri;
        assert z.Skipped(k, q);
      } else if goes {
        forall j: nat | j < |q| && z.Seen(j, i) ensures z.GivesWay(j, q, fs[0].pri, z.Before(k, j)) {
          if j != chosen { assert z.GivesWay(j, q, p[chosen][0].pri, z.Before(chosen, j)); }
        }
      } else {
        assert z.Stuck(k, q[k]);
      }
    }
  }

  lemma StillGivesWay(z: Scan, i: nat, p: seq<seq<Flit>>, j: nat, k: nat, fs: seq<Flit>, pri: int, later: bool)
    requires z.Valid() && j < |p| == |z.queues| && k < |p| && z.Seen(j, i) && !z.Seen(k, i) && z.GivesWay(j, p, pri, later)
    ensures z.GivesWay(j, p[k := fs], pri, later)
  {
    var q := p[k := fs];
    if z.Skipped(j, p) {
      var w: nat :| w < |p| && z.Before(w, j) && CanGo(z.c, z.s, p[w]) && p[j][0].pri <= p[w][0].pri;
      assert z.Seen(w, i) && q[w] == p[w];
    }
  }

  /** Of the classes whose next flit has a channel that is not full, none is more urgent than the one that goes;
      and none that is equally urgent comes earlier in turn after the class last served, unless that one
      holds the switch and goes on. */
  lemma ServesInTurn(z: Scan, p: seq<seq<Flit>>, chosen: int, k: nat)
    requires z.Valid() && z.Result(p, chosen) && k < |z.queues| && CanGo(z.c, z.s, z.queues[k])
    ensures 0 <= chosen < |p| == |z.queues| && p[chosen] != [] && z.queues[k][0].pri <= p[chosen][0].pri
    ensures chosen != k && z.queues[k][0].pri == p[chosen][0].pri && !(z.held && chosen == z.last) ==>
              var n := |z.queues|;
              !(z.held && k == z.last) &&
              (if chosen > z.last then chosen - z.last else chosen - z.last + n) < (if k > z.last then k - z.last else k - z.last + n)
  {
    assert z.Seen(k, |p| + 1);
    if chosen >= 0 && chosen != k { assert z.GivesWay(k, p, p[chosen][0].pri, z.Before(chosen, k)); }
  }

  /** How far channel `v` lies behind `last`, once around the range; the last one used comes last. */
  function Behind(last: int, r: Range, v: int): int {
    if v > last then v - last else v - last + (r.last - r.first + 1)
  }

  /** A head whose class has last used a channel of its range is given the nearest usable channel behind that
      one, and one whenever any channel of the range is usable. */
  lemma BehindLast(z: Scan, k: nat, fs: seq<Flit>)
    requires z.Valid() && k < |z.queues| && Needs(z.queues[k]) && z.Searched(k, fs)
    requires z.ranges[k].first <= z.lastVc[k] <= z.ranges[k].last
    ensures fs != [] && (fs[0].vc == -1 <==> forall v | z.ranges[k].first <= v <= z.ranges[k].last :: Unusable(z.c, z.s, v))
    ensures fs[0].vc != -1 ==>
              && z.ranges[k].first <= fs[0].vc <= z.ranges[k].last && !Unusable(z.c, z.s, fs[0].vc)
              && forall v | z.ranges[k].first <= v <= z.ranges[k].last && !Unusable(z.c, z.s, v) ::
                   Behind(z.lastVc[k], z.ranges[k], fs[0].vc) <= Behind(z.lastVc[k], z.ranges[k], v)
  {
    var r, last := z.ranges[k], z.lastVc[k];
    if fs[0].vc == -1 {
      NoneUsable(z.c, z.s, last, r, r.last - r.first + 2);
    } else {
      var i :| 1 <= i <= r.last - r.first + 1 && Candidate(last, r.first, r.last, i) == fs[0].vc && NoneBefore(z.c, z.s, last, r, i);
      TurnOfCandidate(last, r, i);
      NoneUsable(z.c, z.s, last, r, i);
    }
  }

  lemma NoneUsable(c: Config, s: State, last: int, r: Range, n: int)
    requires Shaped(c, s) && r.first <= last <= r.last && NoneBefore(c, s, last, r, n)
    ensures forall v | r.first <= v <= r.last && Behind(last, r, v) < n :: Unusable(c, s, v)
  {
    forall v | r.first <= v <= r.last && Behind(last, r, v) < n ensures Unusable(c, s, v) {
      CandidateAt(last, r, v);
      assert Unusable(c, s, Candidate(last, r.first, r.last, Behind(last, r, v)));
    }
  }

  lemma CandidateAt(last: int, r: Range, v: int)
    requires r.first <= last <= r.last && r.first <= v <= r.last
    ensures 1 <= Behind(last, r, v) <= r.last - r.first + 1 && Candidate(last, r.first, r.last, Behind(last, r, v)) == v
  {
    Matchings.Wrap(last - r.first + Behind(last, r, v), r.last - r.first + 1);
  }

  lemma TurnOfCandidate(last: int, r: Range, i: int)
    requires r.first <= last <= r.last && 1 <= i <= r.last - r.first + 1
    ensures Behind(last, r, Candidate(last, r.first, r.last, i)) == i
  {
    Matchings.Wrap(last - r.first + i, r.last - r.first + 1);
  }

  // ---------- heads that keep a channel ----------

  /** The first packet of a class has been given a channel but has not gone. */
  predicate Keeps(fs: seq<Flit>) {
    fs != [] && fs[0].head && fs[0].vc != -1
  }

  /** It has been given a channel that another packet has taken since. */
  predicate Stale(s: State, fs: seq<Flit>) {
    Keeps(fs) && 0 <= fs[0].vc < |s.inUse| && s.inUse[fs[0].vc] >= 0
  }

  /** Packets behind the first have no channel. */
  ghost predicate Tidy(queues: seq<seq<Flit>>) {
    forall k, i | 0 <= k < |queues| && 1 <= i < |queues[k]| && queues[k][i].head :: queues[k][i].vc == -1
  }

  /** A class in the middle of a packet is on the channel that it used last. */
  ghost predicate OnLast(queues: seq<seq<Flit>>, lastVc: seq<int>) {
    |queues| == |lastVc| && forall k | 0 <= k < |queues| && Begun(queues[k]) :: queues[k][0].vc == lastVc[k]
  }

  ghost predicate EquallyUrgent(queues: seq<seq<Flit>>) {
    forall j, k | 0 <= j < k < |queues| && queues[j] != [] && queues[k] != [] :: queues[j][0].pri == queues[k][0].pri
  }

  /** A channel that is given in a search is free, so that only one kept from an earlier cycle can
      turn out to be taken. */
  lemma OnlyKeptIsStale(z: Scan, p: seq<seq<Flit>>, chosen: nat)
    requires z.Valid() && z.Result(p, chosen)
    ensures Stale(z.s, p[chosen]) <==> Stale(z.s, z.queues[chosen])
  {
  }

  /** Among equally urgent classes only the one that goes is given a channel. */
  lemma EqualsKeepNone(z: Scan, p: seq<seq<Flit>>, chosen: int)
    requires z.Valid() && z.Result(p, chosen) && EquallyUrgent(z.queues)
    requires forall k | 0 <= k < |p| :: !Keeps(z.queues[k])
    ensures forall k | 0 <= k < |p| && k != chosen :: p[k] == z.queues[k]
  {
    forall k: nat | k < |p| && k != chosen ensures p[k] == z.queues[k] {
      assert z.Seen(k, |p| + 1);
      if chosen >= 0 { assert z.GivesWay(k, p, p[chosen][0].pri, z.Before(chosen, k)); }
    }
  }

  /** No channel is in the ranges of two classes. */
  ghost predicate Apart(ranges: seq<Range>) {
    forall j, k | 0 <= j < |ranges| && 0 <= k < |ranges| && j != k :: ranges[j].last < ranges[k].first || ranges[k].last < ranges[j].first
  }

  /** Kept channels are free channels of their own classes. */
  ghost predicate OwnKept(s: State, ranges: seq<Range>, queues: seq<seq<Flit>>) {
    && |queues| == |ranges|
    && forall k | 0 <= k < |queues| && Keeps(queues[k]) ::
         ranges[k].first <= queues[k][0].vc <= ranges[k].last && !Stale(s, queues[k])
  }

  lemma SearchKeepsOwn(z: Scan, p: seq<seq<Flit>>, chosen: int)
    requires z.Valid() && z.Result(p, chosen) && OwnKept(z.s, z.ranges, z.queues)
    ensures OwnKept(z.s, z.ranges, p)
  {
    forall k: nat | k < |p| && Keeps(p[k])
      ensures z.ranges[k].first <= p[k][0].vc <= z.ranges[k].last && !Stale(z.s, p[k])
    {
      assert z.Seen(k, |p| + 1);
      if chosen >= 0 && k != chosen { assert z.GivesWay(k, p, p[chosen][0].pri, z.Before(chosen, k)); }
    }
  }

  /** What is left of a class that goes is in the middle of a packet or has no channel. */
  lemma NotKept(p: seq<seq<Flit>>, k: nat, vc: int, vcs: nat)
    requires Tidy(p) && k < |p| && p[k] != [] && Packets(p[k], Open(p[k]), vcs)
    ensures !Keeps(PassedBack(p[k], vc)) && Tidy(p[k := PassedBack(p[k], vc)])
  {
    var fs := p[k];
    assert Packets(fs[1..], if fs[0].tail then -1 else fs[0].pid, vcs);
    if |fs| > 1 { assert fs[1..][0] == fs[1]; }
    var q: seq<seq<Flit>> := p[k := PassedBack(fs, vc)];
    forall j: int, i: int | 0 <= j < |q| && 1 <= i < |q[j]| && q[j][i].head ensures q[j][i].vc == -1 {
      if j == k { assert q[j][i] == fs[i + 1]; } else { assert q[j] == p[j]; }
    }
  }

  /** So no search fails as long as all classes are equally urgent. */
  lemma SafeWhenEqual(z: Scan, p: seq<seq<Flit>>, chosen: int)
    requires z.Valid() && z.Result(p, chosen) && EquallyUrgent(z.queues) && Tidy(z.queues)
    requires forall k | 0 <= k < |p| :: !Keeps(z.queues[k]) && Packets(z.queues[k], Open(z.queues[k]), z.c.vcs)
    ensures chosen >= 0 ==> !Stale(z.s, z.queues[chosen])
    ensures var q := if chosen < 0 then p else p[chosen := PassedBack(p[chosen], p[chosen][0].vc)];
            forall k | 0 <= k < |q| :: !Keeps(q[k])
  {
    EqualsKeepNone(z, p, chosen);
    if chosen >= 0 {
      SearchedPackets(z, p, chosen);
      NotKept(p, chosen, p[chosen][0].vc, z.c.vcs);
    }
  }

  /** The search changes nothing but the channels of first heads. */
  lemma SearchMarks(z: Scan, p: seq<seq<Flit>>, chosen: int)
    requires z.Valid() && z.Result(p, chosen)
    ensures forall k | 0 <= k < |p| :: Marked(z.c.vcs, z.queues[k], p[k])
  {
    forall k: nat | k < |p| ensures Marked(z.c.vcs, z.queues[k], p[k]) {
      assert z.Seen(k, |p| + 1);
      if k == chosen {
        SearchedMarks(z, k, p[k]);
      } else {
        if chosen >= 0 { assert z.GivesWay(k, p, p[chosen][0].pri, z.Before(chosen, k)); }
        if p[k] != z.queues[k] { SearchedMarks(z, k, p[k]); }
      }
    }
  }

  lemma SearchedMarks(z: Scan, k: nat, fs: seq<Flit>)
    requires z.Valid() && k < |z.queues| && z.Searched(k, fs)
    ensures Marked(z.c.vcs, z.queues[k], fs)
  {
    if fs != z.queues[k] {
      var v: nat := fs[0].vc;
      assert v < z.c.vcs && fs == z.queues[k][0 := z.queues[k][0].(vc := v)];
    }
  }

  lemma SearchedPackets(z: Scan, p: seq<seq<Flit>>, k: nat)
    requires z.Valid() && k < |p| == |z.queues| && z.Searched(k, p[k]) && Tidy(z.queues)
    requires forall j | 0 <= j < |p| && j != k :: p[j] == z.queues[j]
    requires Packets(z.queues[k], Open(z.queues[k]), z.c.vcs)
    ensures Packets(p[k], Open(p[k]), z.c.vcs) && Tidy(p)
  {
    if p[k] != z.queues[k] { assert p[k][1..] == z.queues[k][1..]; }
    forall j: int, i: int | 0 <= j < |p| && 1 <= i < |p[j]| && p[j][i].head ensures p[j][i].vc == -1 {
      assert p[j][i] == z.queues[j][i];
    }
  }

  lemma MarksTidy(vcs: nat, queues: seq<seq<Flit>>, p: seq<seq<Flit>>)
    requires |p| == |queues| && Tidy(queues) && forall k | 0 <= k < |p| :: Marked(vcs, queues[k], p[k])
    requires forall k | 0 <= k < |p| :: Packets(queues[k], Open(queues[k]), vcs)
    ensures Tidy(p) && forall k | 0 <= k < |p| :: Packets(p[k], Open(p[k]), vcs) && Begun(p[k]) == Begun(queues[k])
    ensures forall k | 0 <= k < |p| && Begun(p[k]) :: p[k] == queues[k]
  {
    forall j: int, i: int | 0 <= j < |p| && 1 <= i < |p[j]| && p[j][i].head ensures p[j][i].vc == -1 {
      assert p[j][i] == queues[j][i];
    }
    forall k: int | 0 <= k < |p|
      ensures Packets(p[k], Open(p[k]), vcs) && Begun(p[k]) == Begun(queues[k]) && (Begun(p[k]) ==> p[k] == queues[k])
    {
      if p[k] != queues[k] { assert p[k][1..] == queues[k][1..]; }
    }
  }

  /** Nor as long as the classes have separate channels: the channels that they keep remain free. */
  lemma SafeWhenApart(z: Scan, p: seq<seq<Flit>>, chosen: int)
    requires z.Valid() && z.Result(p, chosen) && Apart(z.ranges) && OwnKept(z.s, z.ranges, z.queues) && Tidy(z.queues)
    requires forall k | 0 <= k < |p| :: Packets(z.queues[k], Open(z.queues[k]), z.c.vcs)
    ensures chosen < 0 ==> OwnKept(z.s, z.ranges, p)
    ensures chosen >= 0 ==>
              && !Stale(z.s, z.queues[chosen])
              && var f := p[chosen][0];
                 OwnKept(Sent(z.c, z.s, f.vc, f), z.ranges, p[chosen := PassedBack(p[chosen], f.vc)])
  {
    SearchKeepsOwn(z, p, chosen);
    if chosen >= 0 {
      SearchMarks(z, p, chosen);
      MarksTidy(z.c.vcs, z.queues, p);
      SentKeepsOwn(z.c, z.s, z.ranges, p, chosen);
    }
  }

  /** When the chosen class goes, no other one loses the channel that it keeps. */
  lemma SentKeepsOwn(c: Config, s: State, ranges: seq<Range>, p: seq<seq<Flit>>, k: nat)
    requires Shaped(c, s) && OwnKept(s, ranges, p) && Apart(ranges) && Tidy(p)
    requires k < |p| && CanGo(c, s, p[k]) && Packets(p[k], Open(p[k]), c.vcs)
    ensures var vc := p[k][0].vc; OwnKept(Sent(c, s, vc, p[k][0]), ranges, p[k := PassedBack(p[k], vc)])
  {
    var vc := p[k][0].vc;
    var q := p[k := PassedBack(p[k], vc)];
    forall j | 0 <= j < |q| && Keeps(q[j])
      ensures ranges[j].first <= q[j][0].vc <= ranges[j].last && !Stale(Sent(c, s, vc, p[k][0]), q[j])
    {
      if j == k { NotKept(p, k, vc, c.vcs); }
    }
  }

  /** What the search of the next cycle is given once class `chosen` has gone. */
  ghost function NextScan(z: Scan, p: seq<seq<Flit>>, chosen: nat): Scan
    requires z.Valid() && |p| == |z.queues| && chosen < |p| && CanGo(z.c, z.s, p[chosen])
  {
    var f := p[chosen][0];
    z.(s := Sent(z.c, z.s, f.vc, f), queues := p[chosen := PassedBack(p[chosen], f.vc)], last := chosen,
       lastVc := if f.head then z.lastVc[chosen := f.vc] else z.lastVc)
  }

  const URGENT := Flit(0, true, true, -1, 1)

  const OTHER := Flit(1, true, true, -1, 0)

  /** Two classes whose ranges begin with the same channel, which has room for two flits, where the tail's
      credit is awaited. */
  ghost predicate Contended(c: Config, rs: seq<Range>) {
    && ValidConfig(c) && c.waitForTail && |rs| == 2 && rs[0].first == rs[1].first
    && rs[0].first <= rs[0].last < c.vcs && rs[1].first <= rs[1].last < c.vcs
    && var v := rs[0].first; !IsFull(c, Initial(c), v) && !IsFull(c, Sent(c, Initial(c), v, URGENT.(vc := v)), v)
  }

  /** Each of them has a packet, one of them more urgent than the other. */
  function TwoClasses(c: Config, rs: seq<Range>): Scan {
    Scan(c, Initial(c), [-1, -1], rs, 0, false, [[URGENT], [OTHER]])
  }

  function BothGiven(v: int): seq<seq<Flit>> {
    [[URGENT.(vc := v)], [OTHER.(vc := v)]]
  }

  /** A class that has used no channel yet tries the first of its range only. */
  lemma FirstTried(c: Config, s: State, r: Range)
    requires Shaped(c, s) && r.first <= r.last
    ensures forall vc :: FirstUsable(c, s, -1, r, vc) <==> vc == r.first && !Unusable(c, s, r.first)
    ensures NoneBefore(c, s, -1, r, r.last - r.first + 2) <==> Unusable(c, s, r.first)
  {
    assert Candidate(-1, r.first, r.last, 1) == r.first;
    assert NoneBefore(c, s, -1, r, 1);
  }

  /** The less urgent head is given the channel first and keeps it, and the more urgent one takes it
      and goes. */
  lemma UrgentGoes(c: Config, rs: seq<Range>, p: seq<seq<Flit>>, chosen: int)
    requires Contended(c, rs)
    ensures TwoClasses(c, rs).Valid()
    ensures TwoClasses(c, rs).Result(p, chosen) <==> chosen == 0 && p == BothGiven(rs[0].first)
  {
    TwoValid(c, rs);
    UrgentMayGo(c, rs);
    if TwoClasses(c, rs).Result(p, chosen) { UrgentMustGo(c, rs, p, chosen); }
  }

  lemma TwoValid(c: Config, rs: seq<Range>)
    requires Contended(c, rs)
    ensures var z := TwoClasses(c, rs);
            && z.Valid() && !Unusable(z.c, z.s, rs[0].first)
            && z.Seen(0, 3) && z.Seen(1, 3) && !z.Before(0, 1)
  {
  }

  lemma UrgentMayGo(c: Config, rs: seq<Range>)
    requires Contended(c, rs)
    ensures TwoClasses(c, rs).Valid() && TwoClasses(c, rs).Result(BothGiven(rs[0].first), 0)
  {
    TwoValid(c, rs);
    FirstTried(c, TwoClasses(c, rs).s, rs[0]);
    FirstTried(c, TwoClasses(c, rs).s, rs[1]);
  }

  lemma UrgentMustGo(c: Config, rs: seq<Range>, p: seq<seq<Flit>>, chosen: int)
    requires Contended(c, rs) && TwoClasses(c, rs).Valid() && TwoClasses(c, rs).Result(p, chosen)
    ensures chosen == 0 && p == BothGiven(rs[0].first)
  {
    var z, v := TwoClasses(c, rs), rs[0].first;
    TwoValid(c, rs);
    FirstTried(c, z.s, rs[0]);
    FirstTried(c, z.s, rs[1]);
    assert !z.Stuck(0, p[0]) && !z.Stuck(1, p[1]);
    assert chosen == 0;
    assert z.GivesWay(1, p, 1, z.Before(0, 1)) && z.Searched(1, p[1]);
    assert p[0] == [URGENT.(vc := v)] && p[1] == [OTHER.(vc := v)];
  }

  /** In the next cycle the less urgent head is to go on a channel that is taken, and injection fails. */
  lemma KeptChannelTaken(c: Config, rs: seq<Range>, q: seq<seq<Flit>>, next: int)
    requires Contended(c, rs)
    ensures
      var p := BothGiven(rs[0].first);
      && TwoClasses(c, rs).Valid() && TwoClasses(c, rs).Result(p, 0)
      && var z := NextScan(TwoClasses(c, rs), p, 0);
         && z.Valid() && (z.Result(q, next) <==> next == 1 && q == z.queues) && Stale(z.s, z.queues[1])
         && z.queues == [[], [OTHER.(vc := rs[0].first)]]
  {
    var p, v := BothGiven(rs[0].first), rs[0].first;
    UrgentGoes(c, rs, p, 0);
    var z := NextScan(TwoClasses(c, rs), p, 0);
    TakenByUrgent(c, v);
    assert z.queues[0] == [] && z.queues[1] == [OTHER.(vc := v)];
    assert z.Seen(0, 3) && z.Seen(1, 3);
    if z.Result(q, next) { assert z.Searched(0, q[0]) && z.Searched(1, q[1]); }
  }

  lemma TakenByUrgent(c: Config, v: nat)
    requires ValidConfig(c) && c.waitForTail && v < c.vcs
    ensures Sent(c, Initial(c), v, URGENT.(vc := v)).inUse[v] >= 0
  {
  }

  /** There is such a configuration. */
  lemma SomeContended()
    ensures Contended(Config(Private, 1, 2, true, 2, [], [], 0, 0), [Range(0, 0), Range(0, 0)])
  {
  }
}
