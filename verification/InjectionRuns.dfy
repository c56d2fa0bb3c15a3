/** Whole runs of a node in which every injection is what the search over its classes finds. */
module InjectionRuns {
  import opened BufferPolicies
  import opened BufferStates
  import opened Channels
  import opened CreditLoop
  import opened ChannelSearch
  import opened Injection

  /** A node with its link: the channel last used by each class, and the class last served. */
  datatype Sender = Sender(l: Link, lastVc: seq<int>, last: nat)

  /** What happens in a cycle: packets generated, the range of each class, the result of the search,
      and what the receiver removes. */
  datatype Turn = Turn(packets: seq<seq<Flit>>, ranges: seq<Range>, marked: seq<seq<Flit>>, chosen: int, drained: seq<nat>)

  /** The flit that goes, if any. */
  function Picked(t: Turn): (p: Option<Pick>) {
    if 0 <= t.chosen < |t.marked| && t.marked[t.chosen] != [] && t.marked[t.chosen][0].vc >= 0
    then Some(Pick(t.chosen, t.marked[t.chosen][0].vc)) else None
  }

  function Happens(t: Turn): Events {
    Events(t.packets, t.marked, Picked(t), t.drained)
  }

  /** The link when the search begins: credits and flits have come in, and packets have been generated. */
  function Arrived(n: Sender, t: Turn): Link
    requires Shape(n.l) && Shape(ReceiveCredit(n.l)) && |t.packets| == |n.l.partial|
  {
    FirstHalf(n.l, Happens(t))
  }

  /** What the search is given. */
  ghost function Given(hold: bool, n: Sender, l: Link, t: Turn): Scan
    requires Shape(l) && n.last < |l.partial|
  {
    Scan(l.c, l.s, n.lastVc, t.ranges, n.last, hold && Begun(l.partial[n.last]) && CanGo(l.c, l.s, l.partial[n.last]), l.partial)
  }

  /** The node afterwards. Nothing is asked of the channel that a chosen head is to take. */
  ghost predicate SearchCycle(hold: bool, n: Sender, t: Turn, n': Sender) {
    && Shape(n.l) && Shape(ReceiveCredit(n.l)) && NewPackets(n.l, t.packets) && n.last < |n.l.partial|
    && var l0 := Arrived(n, t);
       && Shape(l0) && Given(hold, n, l0, t).Valid() && Given(hold, n, l0, t).Result(t.marked, t.chosen)
       && Sends(l0, t, n'.l) && n'.lastVc == LastVc(n, t) && n'.last == if t.chosen < 0 then n.last else t.chosen
  }

  /** The second half: what has been found is sent, and the receiver removes flits. */
  ghost predicate Sends(l0: Link, t: Turn, l': Link) {
    var l1 := Mark(l0, t.marked);
    && Shape(l1) && (Picked(t).Some? ==> Picks(l1, Picked(t).value))
    && var l2 := Injected(l1, Picked(t));
       Shape(l2) && MayDrain(l2, t.drained) && l' == Tick(Drain(l2, t.drained))
  }

  function LastVc(n: Sender, t: Turn): seq<int> {
    match Picked(t)
    case None => n.lastVc
    case Some(p) => if t.marked[p.cls][0].head && p.cls < |n.lastVc| then n.lastVc[p.cls := p.vc] else n.lastVc
  }

  /** A head that goes takes a channel that is free: not "Buffer taken while in use". */
  ghost predicate TakesFree(n: Sender, t: Turn)
    requires Shape(n.l) && Shape(ReceiveCredit(n.l)) && |t.packets| == |n.l.partial|
  {
    match Picked(t)
    case None => true
    case Some(p) => t.marked[p.cls][0].head ==> p.vc < |Arrived(n, t).s.inUse| && Arrived(n, t).s.inUse[p.vc] < 0
  }

  /** The packet that goes has kept a channel from an earlier cycle that has been taken since. */
  ghost predicate StaleChosen(n: Sender, t: Turn) {
    && Shape(n.l) && Shape(ReceiveCredit(n.l)) && |t.packets| == |n.l.partial|
    && 0 <= t.chosen < |t.packets| && Stale(Arrived(n, t).s, Arrived(n, t).partial[t.chosen])
  }

  /** No run-time check fails in this cycle, that of the channel taken included. */
  ghost predicate AllChecks(n: Sender, t: Turn) {
    Safe(n.l, Happens(t)) && TakesFree(n, t)
  }

  /** What holds between cycles. */
  ghost predicate Sound(c: Config, n: Sender) {
    && Good(c, n.l) && n.last < |n.l.partial| && Tidy(n.l.partial) && OnLast(n.l.partial, n.lastVc)
  }

  // ---------- the first half of a cycle ----------

  lemma ArrivedIs(n: Sender, t: Turn)
    requires Shape(n.l) && Shape(ReceiveCredit(n.l)) && |t.packets| == |n.l.partial|
    ensures Arrived(n, t).s == ReceiveCredit(n.l).s && |Arrived(n, t).partial| == |n.l.partial|
    ensures forall k | 0 <= k < |n.l.partial| :: Arrived(n, t).partial[k] == n.l.partial[k] + t.packets[k]
  {
  }

  lemma {:induction false} CreditAllFrees(c: Config, s: State, vcs: seq<nat>)
    requires BufferPolicies.Shaped(c, s) && forall a | 0 <= a < |vcs| :: vcs[a] < c.vcs
    ensures var r := CreditAll(c, s, vcs); |r.inUse| == |s.inUse| && forall v | 0 <= v < |s.inUse| :: r.inUse[v] in [s.inUse[v], -1]
  {
    if vcs != [] { CreditAllFrees(c, s, vcs[..|vcs| - 1]); }
  }

  /** Credits only free channels, so that no kept channel becomes stale. */
  lemma CreditKeepsFresh(l: Link, fs: seq<Flit>)
    requires Shape(l) && Stale(ReceiveCredit(l).s, fs)
    ensures Stale(l.s, fs)
  {
    if l.credits.output.Some? {
      assert l.credits.output.value in Content(l.credits);
      CreditAllFrees(l.c, l.s, l.credits.output.value);
    }
  }

  /** A class with new packets: what comes first is what came first before, or a head without a channel. */
  lemma NewQueue(l: Link, packets: seq<seq<Flit>>, k: nat)
    requires NewPackets(l, packets) && k < |packets|
    ensures var q := l.partial[k] + packets[k];
            && (Keeps(q) || Begun(q) ==> l.partial[k] != [] && q[0] == l.partial[k][0])
            && (Keeps(q) ==> Keeps(l.partial[k])) && (Begun(q) ==> Begun(l.partial[k]))
  {
    assert Packets(packets[k], -1, l.c.vcs);
    if l.partial[k] == [] { assert l.partial[k] + packets[k] == packets[k]; }
  }

  lemma NewTidy(l: Link, packets: seq<seq<Flit>>, q: seq<seq<Flit>>, lastVc: seq<int>)
    requires NewPackets(l, packets) && Tidy(l.partial) && OnLast(l.partial, lastVc)
    requires |q| == |packets| && forall k | 0 <= k < |q| :: q[k] == l.partial[k] + packets[k]
    ensures Tidy(q) && OnLast(q, lastVc)
  {
    forall k: int, i: int | 0 <= k < |q| && 1 <= i < |q[k]| && q[k][i].head ensures q[k][i].vc == -1 {
      if i >= |l.partial[k]| { assert q[k][i] == packets[k][i - |l.partial[k]|]; } else { assert q[k][i] == l.partial[k][i]; }
    }
    forall k: int | 0 <= k < |q| && Begun(q[k]) ensures q[k][0].vc == lastVc[k] { NewQueue(l, packets, k); }
  }

  /** The first half of a cycle fails no check and leaves the packets in order. */
  lemma SearchBegins(c: Config, n: Sender, t: Turn)
    requires Sound(c, n) && NewPackets(n.l, t.packets)
    ensures Shape(ReceiveCredit(n.l)) && Safe(n.l, Happens(t))
    ensures
      var l0 := Arrived(n, t);
      && Inv(l0) && OnTime(l0, 1) && l0.flits.output == l0.flits.input == None && l0.credits.output == l0.credits.input == None
      && l0.c == c && Tidy(l0.partial) && OnLast(l0.partial, n.lastVc) && |l0.partial| == |n.l.partial|
  {
    FirstHalfSafe(n.l, Happens(t));
    ArrivedIs(n, t);
    NewTidy(n.l, t.packets, Arrived(n, t).partial, n.lastVc);
  }

  /** Whatever ranges the classes have, the search is given what it expects. */
  lemma GivenValid(hold: bool, n: Sender, l: Link, t: Turn)
    requires Inv(l) && n.last < |l.partial| == |n.lastVc| == |t.ranges|
    requires forall k | 0 <= k < |t.ranges| :: t.ranges[k].first <= t.ranges[k].last < l.c.vcs
    ensures Given(hold, n, l, t).Valid()
  {
    InRange(l);
  }

  // ---------- a whole cycle ----------

  /** The check on the channel taken passes exactly unless the packet chosen has kept a stale one. */
  lemma TakesFreeIff(hold: bool, c: Config, n: Sender, t: Turn, n': Sender)
    requires Sound(c, n) && SearchCycle(hold, n, t, n')
    ensures TakesFree(n, t) <==> !StaleChosen(n, t)
    ensures t.chosen < 0 <==> Picked(t) == None
    ensures t.chosen >= 0 ==> t.chosen < |t.marked| && Picked(t) == Some(Pick(t.chosen, t.marked[t.chosen][0].vc))
  {
    SearchBegins(c, n, t);
    var l0 := Arrived(n, t);
    var z := Given(hold, n, l0, t);
    if t.chosen >= 0 {
      OnlyKeptIsStale(z, t.marked, t.chosen);
      assert CanGo(l0.c, l0.s, t.marked[t.chosen]);
    }
  }

  /** Packets and buffer state after the search and the injection. */
  lemma AfterSearch(hold: bool, c: Config, n: Sender, t: Turn, n': Sender)
    requires Sound(c, n) && SearchCycle(hold, n, t, n')
    ensures
      var l0 := Arrived(n, t);
      if t.chosen < 0 then n'.l.partial == t.marked && n'.l.s == l0.s
      else
        && t.chosen < |t.marked| && t.marked[t.chosen] != [] && 0 <= t.marked[t.chosen][0].vc < l0.c.vcs
        && var f := t.marked[t.chosen][0];
           && n'.l.partial == t.marked[t.chosen := PassedBack(t.marked[t.chosen], f.vc)]
           && n'.l.s == Sent(l0.c, l0.s, f.vc, f)
  {
    TakesFreeIff(hold, c, n, t, n');
  }

  /** What the search has chosen is an injection of the credit loop, if the channel is free. */
  lemma ChosenMayGo(hold: bool, c: Config, n: Sender, t: Turn, n': Sender)
    requires Sound(c, n) && SearchCycle(hold, n, t, n') && TakesFree(n, t)
    ensures Cycle(n.l, Happens(t), n'.l)
    ensures Tidy(n'.l.partial) && OnLast(n'.l.partial, n'.lastVc) && n'.last < |n'.l.partial|
  {
    SearchBegins(c, n, t);
    TakesFreeIff(hold, c, n, t, n');
    AfterSearch(hold, c, n, t, n');
    var l0 := Arrived(n, t);
    var z := Given(hold, n, l0, t);
    SearchKeeps(z, l0, t.marked, t.chosen);
    if t.chosen >= 0 {
      OnlyKeptIsStale(z, t.marked, t.chosen);
      ChosenGoes(z, l0, t.marked, t.chosen);
    }
  }

  /** The cycle is one of the credit loop, and no check fails in it. */
  lemma SearchCycleSafe(hold: bool, c: Config, n: Sender, t: Turn, n': Sender)
    requires Sound(c, n) && SearchCycle(hold, n, t, n') && !StaleChosen(n, t)
    ensures Sound(c, n') && AllChecks(n, t) && Cycle(n.l, Happens(t), n'.l)
  {
    TakesFreeIff(hold, c, n, t, n');
    ChosenMayGo(hold, c, n, t, n');
    CycleSafe(n.l, Happens(t), n'.l);
  }

  // ---------- whole runs ----------

  ghost predicate SearchRun(hold: bool, ns: seq<Sender>, ts: seq<Turn>) {
    |ns| == |ts| + 1 && forall i | 0 <= i < |ts| :: SearchCycle(hold, ns[i], ts[i], ns[i + 1])
  }

  function InitialSender(c: Config, classes: nat, delay: int, creditDelay: int): Sender {
    Sender(InitialLink(c, classes, delay, creditDelay), seq(classes, _ => -1), 0)
  }

  lemma InitialSound(c: Config, classes: nat, delay: int, creditDelay: int)
    requires ValidConfig(c) && delay > 0 && creditDelay > 0 && classes > 0
    ensures Sound(c, InitialSender(c, classes, delay, creditDelay))
  {
    InitialSafe(c, classes, delay, creditDelay);
    NoPackets(classes);
  }

  lemma NoPackets(classes: nat)
    ensures Tidy(seq(classes, _ => [])) && OnLast(seq(classes, _ => []), seq(classes, _ => -1))
  {
  }

  lemma {:induction false} SoundUpTo(hold: bool, c: Config, ns: seq<Sender>, ts: seq<Turn>, i: nat)
    requires SearchRun(hold, ns, ts) && Sound(c, ns[0]) && i <= |ts|
    requires forall j | 0 <= j < i :: !StaleChosen(ns[j], ts[j])
    ensures Sound(c, ns[i]) && forall j | 0 <= j < i :: AllChecks(ns[j], ts[j])
  {
    if i > 0 {
      SoundUpTo(hold, c, ns, ts, i - 1);
      assert SearchCycle(hold, ns[i - 1], ts[i - 1], ns[i]);
      SearchCycleSafe(hold, c, ns[i - 1], ts[i - 1], ns[i]);
    }
  }

  /** In a run no check ever fails exactly if no packet chosen has kept a stale channel. */
  lemma RunSafeIff(hold: bool, c: Config, classes: nat, delay: int, creditDelay: int, ns: seq<Sender>, ts: seq<Turn>)
    requires ValidConfig(c) && delay > 0 && creditDelay > 0 && classes > 0
    requires SearchRun(hold, ns, ts) && ns[0] == InitialSender(c, classes, delay, creditDelay)
    ensures (forall i | 0 <= i < |ts| :: AllChecks(ns[i], ts[i])) <==> (forall i | 0 <= i < |ts| :: !StaleChosen(ns[i], ts[i]))
    ensures (forall i | 0 <= i < |ts| :: !StaleChosen(ns[i], ts[i])) ==> forall i | 0 <= i <= |ts| :: Good(c, ns[i].l)
  {
    InitialSound(c, classes, delay, creditDelay);
    if forall i | 0 <= i < |ts| :: !StaleChosen(ns[i], ts[i]) {
      forall i | 0 <= i <= |ts| ensures Good(c, ns[i].l) { SoundUpTo(hold, c, ns, ts, i); }
      SoundUpTo(hold, c, ns, ts, |ts|);
    } else {
      FirstStale(hold, c, ns, ts, |ts|);
    }
  }

  lemma {:induction false} FirstStale(hold: bool, c: Config, ns: seq<Sender>, ts: seq<Turn>, m: nat)
    requires SearchRun(hold, ns, ts) && Sound(c, ns[0]) && m <= |ts|
    requires exists i :: 0 <= i < m && StaleChosen(ns[i], ts[i])
    ensures exists i :: 0 <= i < m && !AllChecks(ns[i], ts[i])
  {
    if i :| 0 <= i < m - 1 && StaleChosen(ns[i], ts[i]) {
      FirstStale(hold, c, ns, ts, m - 1);
    } else {
      var l := m - 1;
      SoundUpTo(hold, c, ns, ts, l);
      assert SearchCycle(hold, ns[l], ts[l], ns[l + 1]);
      TakesFreeIff(hold, c, ns[l], ts[l], ns[l + 1]);
      assert !AllChecks(ns[l], ts[l]);
    }
  }

  /** A class that holds the switch goes on with its packet, unless a more urgent one can go. */
  lemma HoldsTheSwitch(c: Config, n: Sender, t: Turn, n': Sender)
    requires Sound(c, n) && SearchCycle(true, n, t, n')
    requires var fs := Arrived(n, t).partial[n.last]; Begun(fs) && CanGo(Arrived(n, t).c, Arrived(n, t).s, fs)
    ensures 0 <= t.chosen < |t.marked| && t.marked[t.chosen] != []
    ensures t.chosen == n.last || t.marked[t.chosen][0].pri > Arrived(n, t).partial[n.last][0].pri
  {
    ServesInTurn(Given(true, n, Arrived(n, t), t), t.marked, t.chosen, n.last);
  }

  // ---------- the channel that a class has used last ----------

  /** Channel of the last head that class `k` has sent before cycle `i`, -1 if it has sent none. */
  function LastHead(ts: seq<Turn>, k: int, i: nat): int
    requires i <= |ts|
  {
    if i == 0 then -1
    else
      var t := ts[i - 1];
      if Picked(t).Some? && t.chosen == k && t.marked[k][0].head then t.marked[k][0].vc else LastHead(ts, k, i - 1)
  }

  /** What a cycle does to the channels last used. */
  ghost predicate Remembers(before: seq<int>, t: Turn, after: seq<int>) {
    && |after| == |before|
    && forall k | 0 <= k < |before| ::
         after[k] == match Picked(t) case None => before[k]
                     case Some(p) => if p.cls == k && t.marked[k][0].head then p.vc else before[k]
  }

  lemma CycleRemembers(hold: bool, n: Sender, t: Turn, n': Sender)
    requires SearchCycle(hold, n, t, n')
    ensures Remembers(n.lastVc, t, n'.lastVc)
  {
  }

  lemma {:induction false} Remembered(last: seq<seq<int>>, ts: seq<Turn>, k: nat, i: nat)
    requires |last| == |ts| + 1 && i <= |ts| && k < |last[0]| && last[0][k] == -1
    requires forall j | 0 <= j < |ts| :: Remembers(last[j], ts[j], last[j + 1])
    ensures k < |last[i]| && last[i][k] == LastHead(ts, k, i)
  {
    if i > 0 { Remembered(last, ts, k, i - 1); }
  }

  /** That is where the search of a class begins. */
  lemma RemembersLastHead(hold: bool, c: Config, classes: nat, delay: int, creditDelay: int,
                          ns: seq<Sender>, ts: seq<Turn>, k: nat, i: nat)
    requires SearchRun(hold, ns, ts) && ns[0] == InitialSender(c, classes, delay, creditDelay) && k < classes && i <= |ts|
    ensures k < |ns[i].lastVc| && ns[i].lastVc[k] == LastHead(ts, k, i)
  {
    var last := seq(|ns|, j requires 0 <= j < |ns| => ns[j].lastVc);
    forall j | 0 <= j < |ts| ensures Remembers(last[j], ts[j], last[j + 1]) {
      CycleRemembers(hold, ns[j], ts[j], ns[j + 1]);
    }
    Remembered(last, ts, k, i);
  }

  // ---------- equally urgent classes ----------

  ghost predicate OfPriority(queues: seq<seq<Flit>>, pri: int) {
    forall k, i | 0 <= k < |queues| && 0 <= i < |queues[k]| :: queues[k][i].pri == pri
  }

  /** There is one class only, or all flits have one priority; and no head keeps a channel. */
  ghost predicate Equal(c: Config, pri: int, n: Sender) {
    && Sound(c, n) && (|n.l.partial| == 1 || OfPriority(n.l.partial, pri))
    && forall k | 0 <= k < |n.l.partial| :: !Keeps(n.l.partial[k])
  }

  ghost predicate EqualTurn(pri: int, t: Turn) {
    |t.packets| == 1 || OfPriority(t.packets, pri)
  }

  lemma EqualArrived(c: Config, pri: int, n: Sender, t: Turn)
    requires Equal(c, pri, n) && EqualTurn(pri, t) && Shape(ReceiveCredit(n.l)) && NewPackets(n.l, t.packets)
    ensures var q := Arrived(n, t).partial;
            && EquallyUrgent(q) && (|q| == 1 || OfPriority(q, pri)) && forall k | 0 <= k < |q| :: !Keeps(q[k])
  {
    ArrivedIs(n, t);
    var q := Arrived(n, t).partial;
    forall k | 0 <= k < |q| ensures !Keeps(q[k]) { NewQueue(n.l, t.packets, k); }
    if |q| != 1 {
      forall k: int, i: int | 0 <= k < |q| && 0 <= i < |q[k]| ensures q[k][i].pri == pri {
        if i < |n.l.partial[k]| { assert q[k][i] == n.l.partial[k][i]; } else { assert q[k][i] == t.packets[k][i - |n.l.partial[k]|]; }
      }
    }
  }

  /** Neither being given a channel nor passing it back changes a priority. */
  lemma PrioritiesStay(vcs: nat, q: seq<seq<Flit>>, p: seq<seq<Flit>>, pri: int, k: nat, vc: int)
    requires OfPriority(q, pri) && |p| == |q| && forall j | 0 <= j < |p| :: Marked(vcs, q[j], p[j])
    ensures OfPriority(p, pri) && (k < |p| && p[k] != [] ==> OfPriority(p[k := PassedBack(p[k], vc)], pri))
  {
    forall j: int, i: int | 0 <= j < |p| && 0 <= i < |p[j]| ensures p[j][i].pri == pri { assert q[j][i].pri == pri; }
    if k < |p| && p[k] != [] {
      var r: seq<seq<Flit>> := p[k := PassedBack(p[k], vc)];
      forall j: int, i: int | 0 <= j < |r| && 0 <= i < |r[j]| ensures r[j][i].pri == pri {
        if j == k { assert p[k][i + 1].pri == pri; } else { assert p[j][i].pri == pri; }
      }
    }
  }

  lemma EqualCycle(hold: bool, c: Config, pri: int, n: Sender, t: Turn, n': Sender)
    requires Equal(c, pri, n) && EqualTurn(pri, t) && SearchCycle(hold, n, t, n')
    ensures Equal(c, pri, n') && AllChecks(n, t)
  {
    SearchBegins(c, n, t);
    EqualArrived(c, pri, n, t);
    AllPackets(Arrived(n, t));
    EqualSearch(Given(hold, n, Arrived(n, t), t), pri, t.marked, t.chosen);
    AfterSearch(hold, c, n, t, n');
    SearchCycleSafe(hold, c, n, t, n');
  }

  lemma EqualSearch(z: Scan, pri: int, p: seq<seq<Flit>>, chosen: int)
    requires z.Valid() && z.Result(p, chosen) && EquallyUrgent(z.queues) && Tidy(z.queues)
    requires forall k | 0 <= k < |p| :: !Keeps(z.queues[k]) && Packets(z.queues[k], Open(z.queues[k]), z.c.vcs)
    ensures chosen >= 0 ==> !Stale(z.s, z.queues[chosen])
    ensures var q := if chosen < 0 then p else p[chosen := PassedBack(p[chosen], p[chosen][0].vc)];
            (forall k | 0 <= k < |q| :: !Keeps(q[k])) && (OfPriority(z.queues, pri) ==> OfPriority(q, pri))
  {
    SafeWhenEqual(z, p, chosen);
    if OfPriority(z.queues, pri) {
      SearchMarks(z, p, chosen);
      if chosen >= 0 {
        PrioritiesStay(z.c.vcs, z.queues, p, pri, chosen, p[chosen][0].vc);
      } else {
        PrioritiesStay(z.c.vcs, z.queues, p, pri, 0, 0);
      }
    }
  }

  /** With one class, or with one priority for all flits, injection never fails, whatever arrives,
      whatever ranges the classes have, and whenever credits come back. */
  lemma EqualRunsAreSafe(hold: bool, c: Config, classes: nat, delay: int, creditDelay: int, pri: int, ns: seq<Sender>, ts: seq<Turn>)
    requires ValidConfig(c) && delay > 0 && creditDelay > 0 && classes > 0
    requires SearchRun(hold, ns, ts) && ns[0] == InitialSender(c, classes, delay, creditDelay)
    requires forall i | 0 <= i < |ts| :: EqualTurn(pri, ts[i])
    ensures forall i | 0 <= i <= |ts| :: Good(c, ns[i].l)
    ensures forall i | 0 <= i < |ts| :: AllChecks(ns[i], ts[i])
  {
    InitialSound(c, classes, delay, creditDelay);
    forall n, t, n' | Equal(c, pri, n) && SearchCycle(hold, n, t, n') && EqualTurn(pri, t)
      ensures Equal(c, pri, n') && AllChecks(n, t)
    {
      EqualCycle(hold, c, pri, n, t, n');
    }
    EveryCycle(n => Equal(c, pri, n), (n, t, n') => SearchCycle(hold, n, t, n') && EqualTurn(pri, t), (n, t) => AllChecks(n, t), ns, ts);
  }

  // ---------- separate channels ----------

  ghost predicate Separate(c: Config, ranges: seq<Range>, n: Sender) {
    Sound(c, n) && OwnKept(n.l.s, ranges, n.l.partial)
  }

  lemma SeparateArrived(c: Config, ranges: seq<Range>, n: Sender, t: Turn)
    requires Separate(c, ranges, n) && Shape(ReceiveCredit(n.l)) && NewPackets(n.l, t.packets)
    ensures OwnKept(Arrived(n, t).s, ranges, Arrived(n, t).partial)
  {
    ArrivedIs(n, t);
    var q := Arrived(n, t).partial;
    forall k | 0 <= k < |q| && Keeps(q[k])
      ensures ranges[k].first <= q[k][0].vc <= ranges[k].last && !Stale(Arrived(n, t).s, q[k])
    {
      NewQueue(n.l, t.packets, k);
      if Stale(Arrived(n, t).s, q[k]) { CreditKeepsFresh(n.l, q[k]); }
    }
  }

  lemma SeparateCycle(hold: bool, c: Config, ranges: seq<Range>, n: Sender, t: Turn, n': Sender)
    requires Separate(c, ranges, n) && Apart(ranges) && t.ranges == ranges && SearchCycle(hold, n, t, n')
    ensures Separate(c, ranges, n') && AllChecks(n, t)
  {
    SearchBegins(c, n, t);
    SeparateArrived(c, ranges, n, t);
    var l0 := Arrived(n, t);
    AllPackets(l0);
    SafeWhenApart(Given(hold, n, l0, t), t.marked, t.chosen);
    AfterSearch(hold, c, n, t, n');
    SearchCycleSafe(hold, c, n, t, n');
  }

  /** When each class has channels of its own, injection never fails either. */
  lemma SeparateRunsAreSafe(hold: bool, c: Config, classes: nat, delay: int, creditDelay: int, ranges: seq<Range>,
                            ns: seq<Sender>, ts: seq<Turn>)
    requires ValidConfig(c) && delay > 0 && creditDelay > 0 && classes > 0
    requires SearchRun(hold, ns, ts) && ns[0] == InitialSender(c, classes, delay, creditDelay)
    requires |ranges| == classes && Apart(ranges) && forall i | 0 <= i < |ts| :: ts[i].ranges == ranges
    ensures forall i | 0 <= i <= |ts| :: Good(c, ns[i].l)
    ensures forall i | 0 <= i < |ts| :: AllChecks(ns[i], ts[i])
  {
    InitialSound(c, classes, delay, creditDelay);
    forall n, t, n' | Separate(c, ranges, n) && SearchCycle(hold, n, t, n') && t.ranges == ranges
      ensures Separate(c, ranges, n') && AllChecks(n, t)
    {
      SeparateCycle(hold, c, ranges, n, t, n');
    }
    EveryCycle(n => Separate(c, ranges, n), (n, t, n') => SearchCycle(hold, n, t, n') && t.ranges == ranges, (n, t) => AllChecks(n, t), ns, ts);
  }

  // ---------- a run that fails ----------

  lemma SentShaped(c: Config, s: State, vc: nat, f: Flit)
    requires BufferPolicies.Shaped(c, s) && vc < c.vcs
    ensures BufferPolicies.Shaped(c, Sent(c, s, vc, f))
  {
  }

  lemma AnyShape(l: Link, p: Pick)
    requires Shape(l) && Picks(l, p) && l.flits.input == None
    ensures Shape(Inject(l, p)) && MayDrain(Inject(l, p), [])
  {
    SentShaped(l.c, l.s, p.vc, l.partial[p.cls][0]);
    InjectShape(l, p);
  }

  /** A search that finds something, be the channel taken or not, makes a cycle. */
  lemma Proceeds(hold: bool, n: Sender, t: Turn, l0: Link) returns (n': Sender)
    requires Shape(n.l) && Shape(ReceiveCredit(n.l)) && NewPackets(n.l, t.packets) && n.last < |n.l.partial|
    requires l0 == Arrived(n, t) && Inv(l0) && l0.flits.input == None && n.last < |l0.partial| && t.drained == [] && t.chosen >= 0
    requires var z := Given(hold, n, l0, t); z.Valid() && z.Result(t.marked, t.chosen)
    requires Tidy(l0.partial) && OnLast(l0.partial, n.lastVc) && l0.credits == Empty()
    ensures SearchCycle(hold, n, t, n') && n'.l.credits == Empty()
  {
    var l' := ChosenSends(Given(hold, n, l0, t), l0, t);
    n' := Sender(l', LastVc(n, t), t.chosen);
  }

  lemma ChosenSends(z: Scan, l0: Link, t: Turn) returns (l': Link)
    requires Inv(l0) && l0.flits.input == None && t.chosen >= 0 && Tidy(l0.partial) && OnLast(l0.partial, z.lastVc)
    requires z.Valid() && z.Result(t.marked, t.chosen) && z.c == l0.c && z.s == l0.s && z.queues == l0.partial
    requires t.drained == [] && l0.credits == Empty()
    ensures Sends(l0, t, l') && l'.credits == Empty()
  {
    SearchKeeps(z, l0, t.marked, t.chosen);
    assert CanGo(l0.c, l0.s, t.marked[t.chosen]);
    l' := PickedSends(l0, t, Pick(t.chosen, t.marked[t.chosen][0].vc));
  }

  lemma PickedSends(l0: Link, t: Turn, p: Pick) returns (l': Link)
    requires Shape(Mark(l0, t.marked)) && Picked(t) == Some(p) && Picks(Mark(l0, t.marked), p)
    requires l0.flits.input == None && t.drained == [] && l0.credits == Empty()
    ensures Sends(l0, t, l') && l'.credits == Empty()
  {
    AnyShape(Mark(l0, t.marked), p);
    l' := Tick(Drain(Inject(Mark(l0, t.marked), p), []));
  }

  /** The search is given the queues of the classes with the new packets, and the buffer state as it was. */
  ghost predicate GivenNow(hold: bool, n: Sender, packets: seq<seq<Flit>>, z: Scan) {
    && |packets| == |n.l.partial| == |z.queues| && (forall k | 0 <= k < |packets| :: z.queues[k] == n.l.partial[k] + packets[k])
    && z.c == n.l.c && z.s == n.l.s && z.lastVc == n.lastVc && z.last == n.last
    && n.last < |z.queues| && Shaped(z.c, z.s) && z.held == (hold && Begun(z.queues[n.last]) && CanGo(z.c, z.s, z.queues[n.last]))
  }

  /** Without new packets this is what the next search is given. */
  ghost predicate Faces(n: Sender, z: Scan) {
    && z.c == n.l.c && z.s == n.l.s && z.queues == n.l.partial && z.lastVc == n.lastVc && z.last == n.last
    && n.l.credits == Empty()
  }

  lemma NothingNew(n: Sender, z: Scan, none: seq<seq<Flit>>)
    requires Faces(n, z) && |none| == |z.queues| && (forall k | 0 <= k < |none| :: none[k] == [])
    requires n.last < |z.queues| && Shaped(z.c, z.s) && !z.held
    ensures NewPackets(n.l, none) && GivenNow(false, n, none, z)
  {
    forall k | 0 <= k < |none| ensures z.queues[k] == n.l.partial[k] + none[k] { }
  }

  lemma QuietGiven(hold: bool, n: Sender, t: Turn, z: Scan)
    requires Sound(z.c, n) && n.l.credits == Empty() && NewPackets(n.l, t.packets) && GivenNow(hold, n, t.packets, z)
    requires t.ranges == z.ranges
    ensures Shape(ReceiveCredit(n.l))
    ensures var l0 := Arrived(n, t);
            && Inv(l0) && l0.flits.input == None && Tidy(l0.partial) && OnLast(l0.partial, n.lastVc) && l0.credits == Empty()
            && |l0.partial| == |n.l.partial| && l0.c == z.c && l0.s == z.s && l0.partial == z.queues && Given(hold, n, l0, t) == z
  {
    SearchBegins(z.c, n, t);
    NoCredit(n, t);
    ArrivedIs(n, t);
    assert Arrived(n, t).partial == z.queues;
  }

  /** A cycle in which no credit comes, seen from the search. */
  lemma Quietly(hold: bool, n: Sender, t: Turn, z: Scan) returns (n': Sender)
    requires Sound(z.c, n) && n.l.credits == Empty() && NewPackets(n.l, t.packets) && GivenNow(hold, n, t.packets, z)
    requires t.ranges == z.ranges && z.Valid() && z.Result(t.marked, t.chosen) && t.drained == [] && t.chosen >= 0
    ensures SearchCycle(hold, n, t, n') && n'.l.credits == Empty() && (StaleChosen(n, t) <==> Stale(z.s, z.queues[t.chosen]))
  {
    QuietGiven(hold, n, t, z);
    n' := Proceeds(hold, n, t, Arrived(n, t));
  }

  /** After it, the next search. */
  lemma QuietFaces(hold: bool, n: Sender, t: Turn, z: Scan, n': Sender)
    requires Sound(z.c, n) && n.l.credits == Empty() && NewPackets(n.l, t.packets) && GivenNow(hold, n, t.packets, z)
    requires t.ranges == z.ranges && z.Valid() && z.Result(t.marked, t.chosen) && t.drained == [] && t.chosen >= 0
    requires SearchCycle(hold, n, t, n') && n'.l.credits == Empty() && !StaleChosen(n, t)
    requires CanGo(z.c, z.s, t.marked[t.chosen]) && |t.marked| == |z.queues|
    ensures Sound(z.c, n') && Faces(n', NextScan(z, t.marked, t.chosen))
  {
    QuietGiven(hold, n, t, z);
    TakesFreeIff(hold, z.c, n, t, n');
    AfterSearch(hold, z.c, n, t, n');
    SearchCycleSafe(hold, z.c, n, t, n');
  }

  /** Nothing is on the credit channel. */
  lemma NoCredit(n: Sender, t: Turn)
    requires Shape(n.l) && n.l.credits == Empty() && |t.packets| == |n.l.partial|
    ensures ReceiveCredit(n.l) == n.l && Arrived(n, t).s == n.l.s && Arrived(n, t).credits == Empty()
  {
  }

  // two classes whose ranges begin with the same channel, where the tail's credit is awaited

  lemma OnePacket(f: Flit, vcs: nat)
    requires f.pid >= 0 && f.head && f.tail && f.vc == -1
    ensures Packets([f], -1, vcs)
  {
    assert [f][1..] == [];
  }

  lemma FirstPackets(l: Link)
    requires |l.partial| == 2
    ensures NewPackets(l, [[URGENT], [OTHER]])
  {
    OnePacket(URGENT, l.c.vcs);
    OnePacket(OTHER, l.c.vcs);
  }

  lemma Beginning(c: Config, rs: seq<Range>, delay: int, creditDelay: int, n: Sender)
    requires Contended(c, rs) && n == InitialSender(c, 2, delay, creditDelay)
    ensures n.l.credits == Empty() && |n.l.partial| == 2 && GivenNow(false, n, [[URGENT], [OTHER]], TwoClasses(c, rs))
  {
    assert [] + [URGENT] == [URGENT] && [] + [OTHER] == [OTHER];
  }

  /** The searches of the two cycles. */
  lemma TwoSearches(c: Config, rs: seq<Range>, p: seq<seq<Flit>>, q: seq<seq<Flit>>)
    requires Contended(c, rs) && p == BothGiven(rs[0].first) && q == [[], [OTHER.(vc := rs[0].first)]]
    ensures var z := TwoClasses(c, rs);
            && z.Valid() && z.Result(p, 0) && !Stale(z.s, z.queues[0]) && CanGo(z.c, z.s, p[0]) && !z.held
            && var z' := NextScan(z, p, 0); z'.Valid() && z'.Result(q, 1) && Stale(z'.s, z'.queues[1]) && |z'.queues| == 2
  {
    UrgentGoes(c, rs, p, 0);
    KeptChannelTaken(c, rs, q, 1);
  }

  /** What the second search is given, and that it finds a packet whose channel is taken. */
  ghost predicate Halfway(n: Sender, z: Scan, q: seq<seq<Flit>>) {
    && z.Valid() && !z.held && |z.queues| == 2 && z.Result(q, 1) && Stale(z.s, z.queues[1])
    && Sound(z.c, n) && Faces(n, z)
  }

  /** The first cycle: the urgent packet goes. */
  lemma FirstCycle(c: Config, rs: seq<Range>, n: Sender) returns (t: Turn, n1: Sender, z: Scan, q: seq<seq<Flit>>)
    requires Contended(c, rs) && Sound(c, n) && n.l.credits == Empty() && NewPackets(n.l, [[URGENT], [OTHER]])
    requires GivenNow(false, n, [[URGENT], [OTHER]], TwoClasses(c, rs))
    ensures SearchCycle(false, n, t, n1) && Halfway(n1, z, q) && t.ranges == z.ranges == rs
  {
    t := Turn([[URGENT], [OTHER]], rs, BothGiven(rs[0].first), 0, []);
    q := [[], [OTHER.(vc := rs[0].first)]];
    TwoSearches(c, rs, t.marked, q);
    n1 := Quietly(false, n, t, TwoClasses(c, rs));
    QuietFaces(false, n, t, TwoClasses(c, rs), n1);
    z := NextScan(TwoClasses(c, rs), t.marked, 0);
  }

  lemma FromStart(c: Config, rs: seq<Range>, delay: int, creditDelay: int, n: Sender)
    returns (t: Turn, n1: Sender, z: Scan, q: seq<seq<Flit>>)
    requires Contended(c, rs) && delay > 0 && creditDelay > 0 && n == InitialSender(c, 2, delay, creditDelay)
    ensures SearchCycle(false, n, t, n1) && Halfway(n1, z, q) && t.ranges == z.ranges == rs
  {
    InitialSound(c, 2, delay, creditDelay);
    Beginning(c, rs, delay, creditDelay, n);
    FirstPackets(n.l);
    t, n1, z, q := FirstCycle(c, rs, n);
  }

  /** The second cycle: the packet chosen is to take a channel that is taken. */
  lemma SecondCycle(n: Sender, z: Scan, q: seq<seq<Flit>>) returns (t: Turn, n': Sender)
    requires Halfway(n, z, q)
    ensures SearchCycle(false, n, t, n') && !TakesFree(n, t) && t.ranges == z.ranges
  {
    t := Turn([[], []], z.ranges, q, 1, []);
    NothingNew(n, z, t.packets);
    n' := Quietly(false, n, t, z);
    TakesFreeIff(false, z.c, n, t, n');
  }

  /** With two classes of different urgency, whose ranges begin with the same channel, there is a run from the
      start whose second cycle fails: a head that goes takes a channel that is taken. */
  lemma FailingRun(c: Config, rs: seq<Range>, delay: int, creditDelay: int, n: Sender)
    returns (t: Turn, n1: Sender, t': Turn, n2: Sender)
    requires Contended(c, rs) && delay > 0 && creditDelay > 0 && n == InitialSender(c, 2, delay, creditDelay)
    ensures SearchCycle(false, n, t, n1) && SearchCycle(false, n1, t', n2) && t.ranges == t'.ranges == rs
    ensures !TakesFree(n1, t')
  {
    var z, q;
    t, n1, z, q := FromStart(c, rs, delay, creditDelay, n);
    t', n2 := SecondCycle(n1, z, q);
  }

  // ---------- the node itself ----------

  /** The injector of a node, its buffer state included, is in this state. */
  ghost predicate Represents(j: Injector, n: Sender)
    reads j, j.buffer
  {
    && j.Shaped() && j.buffer.Valid() && j.buffer.c == n.l.c && j.buffer.Image() == n.l.s
    && j.partial == n.l.partial && j.lastVc == n.lastVc && j.lastClass == n.last
  }

  /** The receiver may remove these flits in this cycle. */
  ghost predicate MayRemove(n: Sender, packets: seq<seq<Flit>>, drained: seq<nat>) {
    && Shape(n.l) && Shape(ReceiveCredit(n.l)) && |packets| == |n.l.partial|
    && var l0 := FirstHalf(n.l, Events(packets, [], None, drained)); Shape(l0) && MayDrain(l0, drained)
  }

  /** Whatever the search finds, the cycle can be completed. */
  lemma Completes(z: Scan, l0: Link, t: Turn) returns (l': Link)
    requires Inv(l0) && l0.flits.input == None && Tidy(l0.partial) && OnLast(l0.partial, z.lastVc) && MayDrain(l0, t.drained)
    requires z.Valid() && z.Result(t.marked, t.chosen) && z.c == l0.c && z.s == l0.s && z.queues == l0.partial
    ensures Sends(l0, t, l')
  {
    SearchKeeps(z, l0, t.marked, t.chosen);
    if t.chosen >= 0 {
      assert CanGo(l0.c, l0.s, t.marked[t.chosen]);
      AnyShape(Mark(l0, t.marked), Pick(t.chosen, t.marked[t.chosen][0].vc));
    }
    l' := Tick(Drain(Injected(Mark(l0, t.marked), Picked(t)), t.drained));
  }

  method TakeCredit(j: Injector, credit: Option<seq<nat>>, ghost l: Link)
    requires Inv(l) && j.buffer.Valid() && j.buffer.c == l.c && j.buffer.Image() == l.s && credit == l.credits.output
    modifies j.buffer
    ensures j.buffer.Valid() && j.buffer.Image() == ReceiveCredit(l).s
  {
    if credit.Some? {
      CreditCovered(l);
      j.buffer.ProcessCredit(credit.value);
    }
  }

  /** The buffer state and the queues when the search begins. */
  method Arrive(j: Injector, credit: Option<seq<nat>>, packets: seq<seq<Flit>>, ghost c: Config, ghost n: Sender, ghost t: Turn)
    returns (ghost l0: Link)
    requires Sound(c, n) && Represents(j, n) && credit == n.l.credits.output && NewPackets(n.l, packets) && t.packets == packets
    modifies j`partial, j.buffer
    ensures Shape(ReceiveCredit(n.l)) && l0 == Arrived(n, t) && Inv(l0) && l0.c == c && l0.flits.input == None
    ensures j.Shaped() && j.buffer.Valid() && j.buffer.Image() == l0.s && j.partial == l0.partial && OnLast(l0.partial, n.lastVc)
  {
    SearchBegins(c, n, t);
    ArrivedIs(n, t);
    l0 := Arrived(n, t);
    TakeCredit(j, credit, n.l);
    j.partial := seq(|packets|, k requires 0 <= k < |packets| && |j.partial| == |packets| reads j => j.partial[k] + packets[k]);
    assert j.partial == l0.partial;
  }

  /** What follows for the node from a search of this result. */
  lemma CycleOf(hold: bool, c: Config, n: Sender, t: Turn, z: Scan) returns (n': Sender)
    requires Sound(c, n) && NewPackets(n.l, t.packets) && MayRemove(n, t.packets, t.drained) && Shape(ReceiveCredit(n.l))
    requires Shape(Arrived(n, t)) && n.last < |Arrived(n, t).partial| && z == Given(hold, n, Arrived(n, t), t)
    requires z.Valid() && z.Result(t.marked, t.chosen)
    ensures SearchCycle(hold, n, t, n')
  {
    SearchBegins(c, n, t);
    var l' := Completes(z, Arrived(n, t), t);
    n' := Sender(l', LastVc(n, t), if t.chosen < 0 then n.last else t.chosen);
  }

  /** The node afterwards, in terms of the search. */
  lemma CycleState(hold: bool, c: Config, n: Sender, t: Turn, z: Scan, n': Sender)
    requires Sound(c, n) && SearchCycle(hold, n, t, n') && z == Given(hold, n, Arrived(n, t), t)
    ensures !StaleChosen(n, t) ==> Sound(c, n')
    ensures StaleChosen(n, t) <==> t.chosen >= 0 && Stale(z.s, z.queues[t.chosen])
    ensures |t.marked| == |z.queues| && n'.lastVc == LastVc(n, t) && n'.last == (if t.chosen < 0 then n.last else t.chosen)
    ensures !StaleChosen(n, t) ==> n'.l.c == c
    ensures if t.chosen < 0 then t.chosen == -1 && n'.l.partial == t.marked && n'.l.s == z.s
            else
              && t.chosen < |t.marked| && t.marked[t.chosen] != [] && 0 <= t.marked[t.chosen][0].vc
              && LastVc(n, t) == (if t.marked[t.chosen][0].head then n.lastVc[t.chosen := t.marked[t.chosen][0].vc] else n.lastVc)
              && n'.l.partial == t.marked[t.chosen := PassedBack(t.marked[t.chosen], t.marked[t.chosen][0].vc)]
              && n'.l.s == Sent(z.c, z.s, t.marked[t.chosen][0].vc, t.marked[t.chosen][0])
  {
    TakesFreeIff(hold, c, n, t, n');
    AfterSearch(hold, c, n, t, n');
    if !StaleChosen(n, t) { SearchCycleSafe(hold, c, n, t, n'); }
  }

  /** A cycle of the node: a credit that has come, new packets, and the injection loop. It is a cycle of the
      run, and it fails exactly if the packet that is to go has kept a stale channel. */
  method RunCycle(j: Injector, credit: Option<seq<nat>>, packets: seq<seq<Flit>>, ranges: seq<Range>,
                  ghost c: Config, ghost n: Sender, ghost drained: seq<nat>)
    returns (sent: Option<Flit>, ok: bool, ghost t: Turn, ghost n': Sender)
    requires Sound(c, n) && Represents(j, n) && credit == n.l.credits.output && NewPackets(n.l, packets)
    requires |ranges| == j.classes && forall k | 0 <= k < j.classes :: ranges[k].first <= ranges[k].last < c.vcs
    requires MayRemove(n, packets, drained)
    modifies j, j.buffer
    ensures t.packets == packets && t.ranges == ranges && t.drained == drained
    ensures SearchCycle(j.holdSwitch, n, t, n') && (ok <==> !StaleChosen(n, t))
    ensures ok ==> Sound(c, n') && Represents(j, n')
  {
    t := Turn(packets, ranges, [], -1, drained);
    ghost var l0 := Arrive(j, credit, packets, c, n, t);
    ghost var z, marked, chosen;
    sent, ok, z, marked, chosen := j.Step(ranges, l0);
    t := Turn(packets, ranges, marked, chosen, drained);
    assert l0 == Arrived(n, t);
    n' := CycleOf(j.holdSwitch, c, n, t, z);
    CycleState(j.holdSwitch, c, n, t, z, n');
  }
}
