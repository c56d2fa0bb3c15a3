/** The voting round by which FLOV routers ask for more or less power gating.

    Routers are numbered row by row, `n == row * k + col`. In turn `t` of a round the routers of row
    `t` vote for everyone in their row, and those of column `t` for everyone in their column. */
module Voting {
  import opened Arithmetic

  /** Packet latencies seen at a router since its statistics were last cleared. */
  datatype Stats = Stats(samples: nat, total: real)

  const NO_STATS := Stats(0, 0.0)

  datatype Setup = Setup(k: nat, epoch: nat, low: real, high: real) {
    ghost predicate Valid() {
      k > 0 && epoch > 0
    }
  }

  function Vote(c: Setup, s: Stats): int {
    if s.samples == 0 then 0
    else if s.total / s.samples as real < c.low then 1
    else if s.total / s.samples as real > c.high then -1
    else 0
  }

  function Ballots(c: Setup, stats: seq<Stats>): (b: seq<int>)
    ensures |b| == |stats| && forall n | 0 <= n < |b| :: b[n] == Vote(c, stats[n])
  {
    seq(|stats|, n requires 0 <= n < |stats| => Vote(c, stats[n]))
  }

  // ---------- router numbers ----------

  function Cell(k: nat, row: nat, col: nat): (n: nat)
    requires row < k && col < k
    ensures n < k * k
  {
    CellBelow(k, row, col);
    row * k + col
  }

  lemma CellBelow(k: nat, row: nat, col: nat)
    requires row < k && col < k
    ensures 0 <= row * k + col < k * k
  {
    assert (row + 1) * k <= k * k;
  }

  function Row(k: nat, n: nat): (r: nat)
    requires n < k * k
    ensures r < k
  {
    RowBelow(k, n);
    n / k
  }

  function Col(k: nat, n: nat): (r: nat)
    requires n < k * k
    ensures r < k
  {
    RowBelow(k, n);
    n % k
  }

  lemma RowBelow(k: nat, n: nat)
    requires n < k * k
    ensures k > 0 && n / k < k
  {
    assert n == n / k * k + n % k;
    Multiply(k, n / k, k);
  }

  lemma CellIs(k: nat, row: nat, col: nat, n: nat)
    requires row < k && col < k && n < k * k
    ensures n == Cell(k, row, col) <==> Row(k, n) == row && Col(k, n) == col
  {
    assert n == n / k * k + n % k;
    if n == row * k + col { QuotientOf(k, row, col); }
  }

  lemma QuotientOf(k: nat, row: nat, col: nat)
    requires col < k
    ensures (row * k + col) / k == row && (row * k + col) % k == col
  {
    var q, r := (row * k + col) / k, (row * k + col) % k;
    assert row * k + col == q * k + r && (q + 1) * k == q * k + k && (row + 1) * k == row * k + k;
    Multiply(q + 1, row, k);
    Multiply(row + 1, q, k);
  }

  /** The last row is the routers from `k * k - k` on. */
  lemma LastRow(k: nat, n: nat)
    requires n < k * k
    ensures n >= k * k - k <==> Row(k, n) == k - 1
  {
    var q := Row(k, n);
    assert n == q * k + n % k && (k - 1) * k == k * k - k && (q + 1) * k == q * k + k;
    Multiply(q + 1, k - 1, k);
  }

  // ---------- one turn ----------

  /** Ballots of the first `cols` routers of a row. */
  function RowSum(k: nat, b: seq<int>, row: nat, cols: nat): int
    requires |b| == k * k && row < k && cols <= k
  {
    if cols == 0 then 0 else RowSum(k, b, row, cols - 1) + b[Cell(k, row, cols - 1)]
  }

  /** Ballots of the first `rows` routers of a column. */
  function ColSum(k: nat, b: seq<int>, col: nat, rows: nat): int
    requires |b| == k * k && col < k && rows <= k
  {
    if rows == 0 then 0 else ColSum(k, b, col, rows - 1) + b[Cell(k, rows - 1, col)]
  }

  /** What router `n` gains in turn `t`: the ballots of its row, those of its column, and its own
      only once. */
  function Gain(k: nat, b: seq<int>, t: nat, n: nat): int
    requires |b| == k * k && n < k * k
  {
    (if Row(k, n) == t then RowSum(k, b, t, k) else 0)
    + (if Col(k, n) == t then ColSum(k, b, t, k) else 0)
    - (if Row(k, n) == Col(k, n) == t then b[n] else 0)
  }

  /** Gain of router `n` from the routers before (row, col). */
  ghost function GainBefore(k: nat, b: seq<int>, t: nat, row: nat, col: nat, n: nat): int
    requires |b| == k * k && n < k * k && row <= k && col <= k && (row == k ==> col == 0)
  {
    (if Row(k, n) == t then RowSum(k, b, t, if row > t then k else if row == t then col else 0) else 0)
    + (if Col(k, n) == t then ColSum(k, b, t, if col > t then row + 1 else row) else 0)
    - (if Row(k, n) == Col(k, n) == t && (row > t || (row == t && col > t)) then b[n] else 0)
  }

  /** What the router at (row, col) adds for router `n` with ballot `vote`. */
  function Cast(k: nat, t: nat, row: nat, col: nat, vote: int, n: nat): int
    requires n < k * k
  {
    (if row == t && Row(k, n) == t && Col(k, n) != col then vote else 0)
    + (if col == t && Col(k, n) == t && Row(k, n) != row then vote else 0)
    + (if (row == t || col == t) && Row(k, n) == row && Col(k, n) == col then vote else 0)
  }

  lemma GainStep(k: nat, b: seq<int>, t: nat, row: nat, col: nat, n: nat)
    requires |b| == k * k && n < k * k && row < k && col < k
    ensures GainBefore(k, b, t, row, col + 1, n) ==
            GainBefore(k, b, t, row, col, n) + Cast(k, t, row, col, b[Cell(k, row, col)], n)
  {
    CellIs(k, row, col, n);
  }

  lemma GainRowDone(k: nat, b: seq<int>, t: nat, row: nat, n: nat)
    requires |b| == k * k && n < k * k && row < k
    ensures GainBefore(k, b, t, row, k, n) == GainBefore(k, b, t, row + 1, 0, n)
  {
  }

  /** Whether the router at (row, col) votes in turn `t`. */
  predicate Votes(t: nat, row: nat, col: nat) {
    row == t || col == t
  }

  datatype Policy = Keep | Aggress | Regress

  /** What router `n` is asked to do at the end of a round. */
  function Verdict(k: nat, votes: seq<int>, n: nat): Policy
    requires |votes| == k * k && n < k * k
  {
    if n >= k * k - k || votes[n] == 0 then Keep else if votes[n] > 0 then Aggress else Regress
  }

  datatype Monitor = Monitor(counter: nat, votes: seq<int>, stats: seq<Stats>)

  ghost predicate Shaped(c: Setup, m: Monitor) {
    c.Valid() && |m.votes| == |m.stats| == c.k * c.k
  }

  predicate InRound(c: Setup, m: Monitor) {
    c.epoch > 0 && m.counter / c.epoch > 0
  }

  /** The end of a round: policies are changed, and the counter restarts. */
  predicate Decides(c: Setup, m: Monitor) {
    InRound(c, m) && m.counter % c.epoch == c.k
  }

  /** The effect of the voting block on the monitor. */
  function Voted(c: Setup, m: Monitor): Monitor
    requires Shaped(c, m)
  {
    var t := m.counter % c.epoch;
    if !InRound(c, m) then m
    else if Decides(c, m) then Monitor(0, seq(c.k * c.k, _ => 0), m.stats)
    else Monitor(m.counter,
                 seq(c.k * c.k, n requires 0 <= n < c.k * c.k => m.votes[n] + Gain(c.k, Ballots(c, m.stats), t, n)),
                 seq(c.k * c.k, n requires 0 <= n < c.k * c.k =>
                   if Votes(t, Row(c.k, n), Col(c.k, n)) && m.stats[n].samples != 0 then NO_STATS else m.stats[n]))
  }

  function Verdicts(c: Setup, m: Monitor): seq<Policy>
    requires Shaped(c, m)
  {
    seq(c.k * c.k, n requires 0 <= n < c.k * c.k => if Decides(c, m) then Verdict(c.k, m.votes, n) else Keep)
  }

  /** The router at (row, col) has voted, if it is its turn and it has seen packets. */
  ghost predicate Considered(c: Setup, t: nat, row: nat, col: nat, m: Monitor, m': Monitor)
    requires row < c.k && col < c.k
  {
    && Shaped(c, m) && Shaped(c, m') && m'.counter == m.counter
    && var s := m.stats[Cell(c.k, row, col)];
       && m'.stats == m.stats[Cell(c.k, row, col) := StatsOnce(s, t, row, col)]
       && forall n: nat | n < c.k * c.k :: m'.votes[n] == m.votes[n] + Cast(c.k, t, row, col, Vote(c, s), n)
  }

  /** Row and column `t` have voted: each router has gained its ballots, and voters have no samples left. */
  ghost predicate TurnOver(c: Setup, t: nat, m: Monitor, m': Monitor) {
    && Shaped(c, m) && Shaped(c, m') && m'.counter == m.counter
    && (forall n: nat | n < c.k * c.k :: m'.votes[n] == m.votes[n] + Gain(c.k, Ballots(c, m.stats), t, n))
    && forall n: nat | n < c.k * c.k ::
         m'.stats[n] == if Votes(t, Row(c.k, n), Col(c.k, n)) && m.stats[n].samples != 0 then NO_STATS else m.stats[n]
  }

  class VotingMonitor {
    const c: Setup
    var counter: nat
    var votes: seq<int>
    var stats: seq<Stats>

    ghost function Image(): Monitor
      reads this
    {
      Monitor(counter, votes, stats)
    }

    constructor (c: Setup)
      requires c.Valid()
      ensures this.c == c && Shaped(c, Image()) && Image() == Initial(c)
    {
      this.c := c;
      counter := 0;
      votes := seq(c.k * c.k, _ => 0);
      stats := seq(c.k * c.k, _ => NO_STATS);
    }

    /** The router at (row, col) votes. */
    method CastVote(t: nat, row: nat, col: nat, vote: int)
      requires Shaped(c, Image()) && row < c.k && col < c.k && Votes(t, row, col)
      modifies `votes
      ensures Shaped(c, Image())
      ensures forall n: nat | n < c.k * c.k :: votes[n] == old(votes[n]) + Cast(c.k, t, row, col, vote, n)
    {
      ghost var before := votes;
      var k := c.k;
      if row == t {
        for o := 0 to k
          invariant |votes| == k * k
          invariant forall n: nat | n < k * k ::
              votes[n] == before[n] + if Row(k, n) == row && Col(k, n) != col && Col(k, n) < o then vote else 0
        {
          if o == col { continue; }
          var node := Cell(k, row, o);
          forall n: nat | n < k * k ensures n == node <==> Row(k, n) == row && Col(k, n) == o { CellIs(k, row, o, n); }
          votes := votes[node := votes[node] + vote];
        }
      }
      ghost var between := votes;
      if col == t {
        for o := 0 to k
          invariant |votes| == k * k
          invariant forall n: nat | n < k * k ::
              votes[n] == between[n] + if Col(k, n) == col && Row(k, n) != row && Row(k, n) < o then vote else 0
        {
          if o == row { continue; }
          var node := Cell(k, o, col);
          forall n: nat | n < k * k ensures n == node <==> Row(k, n) == o && Col(k, n) == col { CellIs(k, o, col, n); }
          votes := votes[node := votes[node] + vote];
        }
      }
      var node := Cell(k, row, col);
      forall n: nat | n < k * k ensures n == node <==> Row(k, n) == row && Col(k, n) == col { CellIs(k, row, col, n); }
      votes := votes[node := votes[node] + vote];
    }

    /** The router at (row, col), in turn `t`. */
    method Consider(t: nat, row: nat, col: nat)
      requires Shaped(c, Image()) && row < c.k && col < c.k
      modifies `votes, `stats
      ensures Considered(c, t, row, col, old(Image()), Image())
    {
      if row == t || col == t {
        var n := Cell(c.k, row, col);
        if stats[n].samples == 0 { return; }
        var vote := 0;
        var average := stats[n].total / stats[n].samples as real;
        if average < c.low {
          vote := 1;
        } else if average > c.high {
          vote := -1;
        }
        CastVote(t, row, col, vote);
        stats := stats[n := NO_STATS];
      }
    }

    /** The routers of row and column `t` vote, one after the other. */
    method Turn(t: nat)
      requires Shaped(c, Image())
      modifies `votes, `stats
      ensures TurnOver(c, t, old(Image()), Image())
    {
      ghost var m0 := Image();
      AdvancedStart(c, t, m0);
      for row := 0 to c.k
        invariant Advanced(c, t, m0, row, 0, Image())
      {
        TurnInRow(t, row, m0);
      }
      AdvancedEnd(c, t, m0, Image());
    }

    /** The inner loop, over one row. */
    method TurnInRow(t: nat, row: nat, ghost m0: Monitor)
      requires row < c.k && Advanced(c, t, m0, row, 0, Image())
      modifies `votes, `stats
      ensures Advanced(c, t, m0, row + 1, 0, Image())
    {
      for col := 0 to c.k
        invariant Advanced(c, t, m0, row, col, Image())
      {
        ghost var m := Image();
        Consider(t, row, col);
        AdvancedStep(c, t, m0, row, col, m, Image());
      }
      AdvancedRow(c, t, m0, row, Image());
    }

    /** The voting block of a cycle, and what each router is asked to do in it. */
    method Evaluate() returns (asked: seq<Policy>)
      requires Shaped(c, Image())
      modifies this
      ensures Image() == Voted(c, old(Image())) && asked == Verdicts(c, old(Image()))
    {
      var k := c.k;
      asked := seq(k * k, _ => Keep);
      if counter / c.epoch > 0 {
        var turn := counter % c.epoch;
        Turn(turn);
        if turn == k {
          asked := Decide();
          counter := 0;
        }
      }
      assert Image() == Voted(c, old(Image())) && asked == Verdicts(c, old(Image()));
    }

    /** The end of a round. */
    method Decide() returns (asked: seq<Policy>)
      requires Shaped(c, Image())
      modifies `votes
      ensures votes == seq(c.k * c.k, _ => 0)
      ensures |asked| == c.k * c.k && forall n: nat | n < c.k * c.k :: asked[n] == Verdict(c.k, old(votes), n)
    {
      var k := c.k;
      ghost var votes0 := votes;
      asked := seq(k * k, _ => Keep);
      for n := 0 to k * k
        invariant |votes| == |asked| == k * k
        invariant forall i: nat | i < k * k :: votes[i] == if i < n then 0 else votes0[i]
        invariant forall i: nat | i < k * k :: asked[i] == if i < n then Verdict(k, votes0, i) else Keep
      {
        if n >= k * k - k {
          votes := votes[n := 0];
          continue;
        }
        if votes[n] > 0 {
          asked := asked[n := Aggress];
        } else if votes[n] < 0 {
          asked := asked[n := Regress];
        }
        votes := votes[n := 0];
      }
    }

    /** A packet with this latency has arrived at router `n`. */
    method AddSample(n: nat, latency: real)
      requires Shaped(c, Image()) && n < c.k * c.k
      modifies `stats
      ensures stats == old(stats)[n := Stats(old(stats)[n].samples + 1, old(stats)[n].total + latency)]
    {
      stats := stats[n := Stats(stats[n].samples + 1, stats[n].total + latency)];
    }
  }

  function StatsOnce(s: Stats, t: nat, row: nat, col: nat): Stats {
    if Votes(t, row, col) && s.samples != 0 then NO_STATS else s
  }

  /** Statistics of router `n` once the routers before (row, col) have voted. */
  ghost function StatsAfter(k: nat, stats: seq<Stats>, t: nat, row: nat, col: nat, n: nat): Stats
    requires |stats| == k * k && n < k * k
  {
    if Row(k, n) < row || (Row(k, n) == row && Col(k, n) < col) then StatsOnce(stats[n], t, Row(k, n), Col(k, n)) else stats[n]
  }

  /** The routers before (row, col) have voted. */
  ghost predicate Advanced(c: Setup, t: nat, m0: Monitor, row: nat, col: nat, m: Monitor)
    requires row <= c.k && col <= c.k && (row == c.k ==> col == 0)
  {
    && Shaped(c, m0) && Shaped(c, m) && m.counter == m0.counter
    && forall n: nat | n < c.k * c.k ::
         && m.votes[n] == m0.votes[n] + GainBefore(c.k, Ballots(c, m0.stats), t, row, col, n)
         && m.stats[n] == StatsAfter(c.k, m0.stats, t, row, col, n)
  }

  lemma AdvancedStart(c: Setup, t: nat, m0: Monitor)
    requires Shaped(c, m0)
    ensures Advanced(c, t, m0, 0, 0, m0)
  {
  }

  lemma AdvancedEnd(c: Setup, t: nat, m0: Monitor, m: Monitor)
    requires Advanced(c, t, m0, c.k, 0, m)
    ensures TurnOver(c, t, m0, m)
  {
  }

  lemma AdvancedStep(c: Setup, t: nat, m0: Monitor, row: nat, col: nat, m: Monitor, m': Monitor)
    requires row < c.k && col < c.k && Advanced(c, t, m0, row, col, m) && Considered(c, t, row, col, m, m')
    ensures Advanced(c, t, m0, row, col + 1, m')
  {
    var cell := Cell(c.k, row, col);
    CellIs(c.k, row, col, cell);
    // a router votes on what it has seen before this turn
    assert m.stats[cell] == m0.stats[cell];
    forall n: nat | n < c.k * c.k
      ensures m'.votes[n] == m0.votes[n] + GainBefore(c.k, Ballots(c, m0.stats), t, row, col + 1, n)
      ensures m'.stats[n] == StatsAfter(c.k, m0.stats, t, row, col + 1, n)
    {
      GainStep(c.k, Ballots(c, m0.stats), t, row, col, n);
      CellIs(c.k, row, col, n);
    }
  }

  lemma AdvancedRow(c: Setup, t: nat, m0: Monitor, row: nat, m: Monitor)
    requires row < c.k && Advanced(c, t, m0, row, c.k, m)
    ensures Advanced(c, t, m0, row + 1, 0, m)
  {
    forall n: nat | n < c.k * c.k
      ensures GainBefore(c.k, Ballots(c, m0.stats), t, row, c.k, n) == GainBefore(c.k, Ballots(c, m0.stats), t, row + 1, 0, n)
    {
      GainRowDone(c.k, Ballots(c, m0.stats), t, row, n);
    }
  }

  function Initial(c: Setup): Monitor {
    Monitor(0, seq(c.k * c.k, _ => 0), seq(c.k * c.k, _ => NO_STATS))
  }

  // ---------- whole runs ----------

  /** Packets have arrived. */
  ghost predicate Gathered(stats: seq<Stats>, stats': seq<Stats>) {
    |stats'| == |stats| && forall n | 0 <= n < |stats| :: stats'[n].samples >= stats[n].samples
  }

  /** A cycle: the voting block, packets arriving, and the counter. */
  ghost predicate Cycle(c: Setup, m: Monitor, m': Monitor) {
    && Shaped(c, m) && m'.counter == Voted(c, m).counter + 1 && m'.votes == Voted(c, m).votes
    && Gathered(Voted(c, m).stats, m'.stats)
  }

  ghost predicate AllShaped(c: Setup, ms: seq<Monitor>) {
    forall i | 0 <= i < |ms| :: Shaped(c, ms[i])
  }

  /** A run from the start, with any packets arriving in any cycle. */
  ghost predicate Run(c: Setup, ms: seq<Monitor>) {
    && c.Valid() && |ms| > 0 && ms[0] == Initial(c)
    && forall i | 0 <= i < |ms| - 1 :: Cycle(c, ms[i], ms[i + 1])
  }

  /** Votes that router `n` has been given in the first `t` turns of the round that began in cycle
      `start`: those of its row in one turn, those of its column in another, or of both in one. */
  ghost function Total(c: Setup, ms: seq<Monitor>, start: nat, t: nat, n: nat): int
    requires n < c.k * c.k && t <= c.k && start + t <= |ms|
    requires AllShaped(c, ms)
  {
    var r, l := Row(c.k, n), Col(c.k, n);
    (if r < t then RowSum(c.k, Ballots(c, ms[start + r].stats), r, c.k) else 0)
    + (if l < t then ColSum(c.k, Ballots(c, ms[start + l].stats), l, c.k) else 0)
    - (if r == l < t then Ballots(c, ms[start + r].stats)[n] else 0)
  }

  lemma ModStep(i: int, p: int)
    requires i > 0 && p > 0
    ensures i % p == if (i - 1) % p == p - 1 then 0 else (i - 1) % p + 1
  {
    var q, r := (i - 1) / p, (i - 1) % p;
    assert i == q * p + r + 1;
    if r == p - 1 {
      assert i == (q + 1) * p;
      ModOf(i, p, q + 1, 0);
    } else {
      ModOf(i, p, q, r + 1);
    }
  }

  lemma ModOf(i: int, p: int, q: int, r: int)
    requires p > 0 && i == q * p + r && 0 <= r < p
    ensures i % p == r && i / p == q
  {
    var q', r' := i / p, i % p;
    assert i == q' * p + r' && (q + 1) * p == q * p + p && (q' + 1) * p == q' * p + p;
    Multiply(q + 1, q', p);
    Multiply(q' + 1, q, p);
  }

  /** Where the counter stands decides whether a round ends. */
  lemma DecidesAt(c: Setup, m: Monitor)
    requires c.Valid()
    ensures c.epoch <= c.k ==> !Decides(c, m)
    ensures c.k < c.epoch && m.counter <= c.epoch + c.k ==> (Decides(c, m) <==> m.counter == c.epoch + c.k)
    ensures c.k < c.epoch && m.counter <= c.epoch + c.k ==>
              (InRound(c, m) <==> m.counter >= c.epoch) && (InRound(c, m) ==> m.counter % c.epoch == m.counter - c.epoch)
  {
    if c.k < c.epoch && m.counter <= c.epoch + c.k {
      var over := m.counter >= c.epoch;
      ModOf(m.counter, c.epoch, if over then 1 else 0, if over then m.counter - c.epoch else m.counter);
    }
  }

  /** The counter runs to `epoch + k` and starts again at 1, if an epoch has more than `k` cycles;
      otherwise it only grows. */
  lemma {:induction false} CounterAt(c: Setup, ms: seq<Monitor>, i: nat)
    requires Run(c, ms) && i < |ms|
    ensures Shaped(c, ms[i])
    ensures c.epoch > c.k ==> ms[i].counter == if i == 0 then 0 else (i - 1) % (c.epoch + c.k) + 1
    ensures c.epoch <= c.k ==> ms[i].counter == i
  {
    if i > 0 {
      CounterAt(c, ms, i - 1);
      CounterStep(c, ms[i - 1], ms[i]);
      if i > 1 { ModStep(i - 1, c.epoch + c.k); }
    }
  }

  lemma CounterStep(c: Setup, m: Monitor, m': Monitor)
    requires Cycle(c, m, m')
    ensures Shaped(c, m')
    ensures c.epoch <= c.k ==> m'.counter == m.counter + 1
    ensures c.k < c.epoch && m.counter <= c.epoch + c.k ==>
              m'.counter == if m.counter == c.epoch + c.k then 1 else m.counter + 1
  {
    DecidesAt(c, m);
  }

  /** Votes are counted in every cycle whose number is a multiple of `epoch + k`, and in no other;
      with an epoch of `k` cycles or less they are never counted. */
  lemma CountedExactly(c: Setup, ms: seq<Monitor>, i: nat)
    requires Run(c, ms) && i < |ms|
    ensures Decides(c, ms[i]) <==> c.epoch > c.k && i > 0 && i % (c.epoch + c.k) == 0
  {
    CounterAt(c, ms, i);
    DecidesAt(c, ms[i]);
    if i > 0 { ModStep(i, c.epoch + c.k); }
  }

  /** Turns of the current round that are over. */
  function TurnsDone(c: Setup, m: Monitor): nat {
    if m.counter <= c.epoch then 0 else m.counter - c.epoch
  }

  ghost predicate Tallied(c: Setup, ms: seq<Monitor>, i: nat)
    requires AllShaped(c, ms) && i < |ms|
  {
    var t := TurnsDone(c, ms[i]);
    t <= c.k && t <= i && forall n: nat | n < c.k * c.k :: ms[i].votes[n] == Total(c, ms, i - t, t, n)
  }

  lemma TurnAdds(c: Setup, ms: seq<Monitor>, i: nat, t: nat, n: nat)
    requires AllShaped(c, ms) && n < c.k * c.k && t < c.k && t <= i < |ms|
    ensures Total(c, ms, i - t, t + 1, n) == Total(c, ms, i - t, t, n) + Gain(c.k, Ballots(c, ms[i].stats), t, n)
  {
  }

  lemma VotedAt(c: Setup, m: Monitor, n: nat)
    requires Shaped(c, m) && n < c.k * c.k && c.k < c.epoch && m.counter <= c.epoch + c.k
    ensures var m' := Voted(c, m);
            && m'.counter == (if m.counter == c.epoch + c.k then 0 else m.counter)
            && m'.votes[n] == if m.counter < c.epoch then m.votes[n] else if m.counter == c.epoch + c.k then 0
                              else m.votes[n] + Gain(c.k, Ballots(c, m.stats), m.counter - c.epoch, n)
  {
    DecidesAt(c, m);
  }

  lemma TallyStep(c: Setup, ms: seq<Monitor>, i: nat, n: nat)
    requires AllShaped(c, ms) && i + 1 < |ms| && Cycle(c, ms[i], ms[i + 1]) && c.k < c.epoch
    requires ms[i].counter <= c.epoch + c.k && TurnsDone(c, ms[i]) <= i && n < c.k * c.k
    requires ms[i].votes[n] == Total(c, ms, i - TurnsDone(c, ms[i]), TurnsDone(c, ms[i]), n)
    ensures var t := TurnsDone(c, ms[i + 1]);
            t <= c.k && t <= i + 1 && ms[i + 1].votes[n] == Total(c, ms, i + 1 - t, t, n)
  {
    VotedAt(c, ms[i], n);
    if c.epoch <= ms[i].counter < c.epoch + c.k { TurnAdds(c, ms, i, TurnsDone(c, ms[i]), n); }
  }

  lemma TalliedStep(c: Setup, ms: seq<Monitor>, i: nat)
    requires AllShaped(c, ms) && i + 1 < |ms| && Cycle(c, ms[i], ms[i + 1]) && c.k < c.epoch
    requires ms[i].counter <= c.epoch + c.k && Tallied(c, ms, i)
    ensures Tallied(c, ms, i + 1)
  {
    var j := i + 1;
    var t := TurnsDone(c, ms[j]);
    TurnsAfter(c, ms[i], ms[j]);
    forall n: nat | n < c.k * c.k ensures ms[j].votes[n] == Total(c, ms, j - t, t, n) {
      TallyStep(c, ms, i, n);
    }
  }

  lemma TurnsAfter(c: Setup, m: Monitor, m': Monitor)
    requires Cycle(c, m, m') && c.k < c.epoch && m.counter <= c.epoch + c.k
    ensures TurnsDone(c, m') <= c.k && TurnsDone(c, m') <= TurnsDone(c, m) + 1
  {
    CounterStep(c, m, m');
  }

  lemma RunShaped(c: Setup, ms: seq<Monitor>)
    requires Run(c, ms)
    ensures AllShaped(c, ms)
  {
    forall j | 0 <= j < |ms| ensures Shaped(c, ms[j]) { CounterAt(c, ms, j); }
  }

  /** At any time a router has exactly the votes of the turns that are over in this round: none
      between rounds, so every round starts from nothing. */
  lemma {:induction false} VotesExact(c: Setup, ms: seq<Monitor>, i: nat)
    requires Run(c, ms) && i < |ms| && c.epoch > c.k
    ensures AllShaped(c, ms) && Tallied(c, ms, i)
    ensures ms[i].counter <= c.epoch ==> forall n: nat | n < c.k * c.k :: ms[i].votes[n] == 0
  {
    RunShaped(c, ms);
    if i > 0 {
      VotesExact(c, ms, i - 1);
      CounterAt(c, ms, i - 1);
      TalliedStep(c, ms, i - 1);
    }
  }

  lemma {:induction false} OwnInRow(k: nat, b: seq<int>, n: nat, cols: nat)
    requires |b| == k * k && n < k * k && cols <= k
    ensures RowSum(k, b, Row(k, n), cols) == RowSum(k, b[n := 0], Row(k, n), cols) + if Col(k, n) < cols then b[n] else 0
  {
    if cols > 0 {
      OwnInRow(k, b, n, cols - 1);
      CellIs(k, Row(k, n), cols - 1, n);
    }
  }

  lemma {:induction false} OwnInCol(k: nat, b: seq<int>, n: nat, rows: nat)
    requires |b| == k * k && n < k * k && rows <= k
    ensures ColSum(k, b, Col(k, n), rows) == ColSum(k, b[n := 0], Col(k, n), rows) + if Row(k, n) < rows then b[n] else 0
  {
    if rows > 0 {
      OwnInCol(k, b, n, rows - 1);
      CellIs(k, rows - 1, Col(k, n), n);
    }
  }

  /** The ballots of all others in a router's row, cast in the turn of that row. */
  ghost function RowOthers(c: Setup, ms: seq<Monitor>, start: nat, n: nat): int
    requires n < c.k * c.k && start + c.k <= |ms| && AllShaped(c, ms)
  {
    var r := Row(c.k, n);
    RowSum(c.k, Ballots(c, ms[start + r].stats)[n := 0], r, c.k)
  }

  /** The ballots of all others in its column, cast in the turn of that column. */
  ghost function ColOthers(c: Setup, ms: seq<Monitor>, start: nat, n: nat): int
    requires n < c.k * c.k && start + c.k <= |ms| && AllShaped(c, ms)
  {
    var l := Col(c.k, n);
    ColSum(c.k, Ballots(c, ms[start + l].stats)[n := 0], l, c.k)
  }

  /** A router's own ballot of turn `t`. */
  ghost function Own(c: Setup, ms: seq<Monitor>, start: nat, t: nat, n: nat): int
    requires n < c.k * c.k && t < c.k && start + c.k <= |ms| && AllShaped(c, ms)
  {
    Vote(c, ms[start + t].stats[n])
  }

  /** What a round counts for a router: the others of its row, the others of its column, and its own
      ballot of either turn: one ballot on the diagonal, and two elsewhere. */
  lemma OwnBallots(c: Setup, ms: seq<Monitor>, start: nat, n: nat)
    requires n < c.k * c.k && start + c.k <= |ms| && AllShaped(c, ms)
    ensures var r, l := Row(c.k, n), Col(c.k, n);
            Total(c, ms, start, c.k, n) ==
              RowOthers(c, ms, start, n) + ColOthers(c, ms, start, n)
              + Own(c, ms, start, r, n) + if r == l then 0 else Own(c, ms, start, l, n)
  {
    var r, l := Row(c.k, n), Col(c.k, n);
    OwnInRow(c.k, Ballots(c, ms[start + r].stats), n, c.k);
    OwnInCol(c.k, Ballots(c, ms[start + l].stats), n, c.k);
  }

  /** Having voted, a router has no samples left, so a second ballot is for packets seen since. */
  lemma VotedIsCleared(c: Setup, m: Monitor, n: nat)
    requires Shaped(c, m) && n < c.k * c.k && InRound(c, m) && !Decides(c, m)
    requires Votes(m.counter % c.epoch, Row(c.k, n), Col(c.k, n))
    ensures Voted(c, m).stats[n].samples == 0
  {
  }

  lemma {:induction false} RowSumBound(k: nat, b: seq<int>, row: nat, cols: nat, own: nat)
    requires |b| == k * k && row < k && cols <= k && own < k && forall x | 0 <= x < |b| :: -1 <= b[x] <= 1
    ensures 0 - cols <= RowSum(k, b, row, cols) <= cols
    ensures own < cols ==> 1 - cols <= RowSum(k, b, row, cols) - b[Cell(k, row, own)] <= cols - 1
  {
    if cols > 0 { RowSumBound(k, b, row, cols - 1, own); }
  }

  lemma {:induction false} ColSumBound(k: nat, b: seq<int>, col: nat, rows: nat)
    requires |b| == k * k && col < k && rows <= k && forall x | 0 <= x < |b| :: -1 <= b[x] <= 1
    ensures 0 - rows <= ColSum(k, b, col, rows) <= rows
  {
    if rows > 0 { ColSumBound(k, b, col, rows - 1); }
  }

  /** No router gathers more than 2 * k votes; on the diagonal, at most 2 * k - 1. */
  lemma TotalBound(c: Setup, ms: seq<Monitor>, start: nat, t: nat, n: nat)
    requires c.k > 0 && n < c.k * c.k && t <= c.k && start + t <= |ms|
    requires AllShaped(c, ms)
    ensures var bound := 2 * c.k - (if Row(c.k, n) == Col(c.k, n) then 1 else 0);
            -bound <= Total(c, ms, start, t, n) <= bound
  {
    var r, l := Row(c.k, n), Col(c.k, n);
    if r < t { RowBound(c, ms[start + r].stats, r, n); }
    if l < t { ColSumBound(c.k, Ballots(c, ms[start + l].stats), l, c.k); }
  }

  /** A row, and what remains of it without one of its routers. */
  lemma RowBound(c: Setup, stats: seq<Stats>, r: nat, n: nat)
    requires n < c.k * c.k && |stats| == c.k * c.k && r == Row(c.k, n)
    ensures 0 - c.k <= RowSum(c.k, Ballots(c, stats), r, c.k) <= c.k
    ensures 1 - c.k <= RowSum(c.k, Ballots(c, stats), r, c.k) - Ballots(c, stats)[n] <= c.k - 1
  {
    RowSumBound(c.k, Ballots(c, stats), r, c.k, Col(c.k, n));
    CellIs(c.k, r, Col(c.k, n), n);
  }

  /** What a round decides: routers of the last row keep their policy, and every other router is
      asked by the sign of exactly the votes of its row and column. */
  lemma RoundIsFair(c: Setup, ms: seq<Monitor>, i: nat, n: nat)
    requires Run(c, ms) && i < |ms| && n < c.k * c.k && Shaped(c, ms[i])
    ensures !Decides(c, ms[i]) || Row(c.k, n) == c.k - 1 ==> Verdicts(c, ms[i])[n] == Keep
    ensures Decides(c, ms[i]) ==> i >= c.k && AllShaped(c, ms)
    ensures Decides(c, ms[i]) && Row(c.k, n) != c.k - 1 ==>
              var total := Total(c, ms, i - c.k, c.k, n);
              && Verdicts(c, ms[i])[n] == (if total > 0 then Aggress else if total < 0 then Regress else Keep)
              && -2 * c.k <= total <= 2 * c.k
  {
    LastRow(c.k, n);
    DecidesAt(c, ms[i]);
    if Decides(c, ms[i]) {
      CounterAt(c, ms, i);
      VotesExact(c, ms, i);
      TotalBound(c, ms, i - c.k, c.k, n);
    }
  }

  // ---------- what a round means for the latencies ----------

  /** The average latency seen at a router lies below the low watermark. */
  ghost predicate Quick(c: Setup, s: Stats) {
    s.samples > 0 && s.total / s.samples as real < c.low
  }

  /** It lies above the high one. */
  ghost predicate Slow(c: Setup, s: Stats) {
    s.samples > 0 && s.total / s.samples as real > c.high
  }

  /** Router `m` votes for router `n` in turn `t`: from its row or from its column. */
  ghost predicate VotesFor(k: nat, m: nat, n: nat, t: nat)
    requires m < k * k && n < k * k
  {
    (Row(k, m) == Row(k, n) == t) || (Col(k, m) == Col(k, n) == t)
  }

  ghost predicate SomeQuick(c: Setup, ms: seq<Monitor>, start: nat, n: nat)
    requires n < c.k * c.k && start + c.k <= |ms| && AllShaped(c, ms)
  {
    exists m: nat, t: nat :: m < c.k * c.k && t < c.k && VotesFor(c.k, m, n, t) && Quick(c, ms[start + t].stats[m])
  }

  ghost predicate SomeSlow(c: Setup, ms: seq<Monitor>, start: nat, n: nat)
    requires n < c.k * c.k && start + c.k <= |ms| && AllShaped(c, ms)
  {
    exists m: nat, t: nat :: m < c.k * c.k && t < c.k && VotesFor(c.k, m, n, t) && Slow(c, ms[start + t].stats[m])
  }

  /** Sums of ballots of one sign have this sign, and are not 0 if one of them is not. */
  lemma {:induction false} RowSign(k: nat, b: seq<int>, row: nat, cols: nat, sign: int)
    requires |b| == k * k && row < k && cols <= k && (forall x: nat | x < cols :: sign * b[Cell(k, row, x)] >= 0)
    ensures sign * RowSum(k, b, row, cols) >= 0
    ensures sign * RowSum(k, b, row, cols) == 0 ==> forall x: nat | x < cols :: sign * b[Cell(k, row, x)] == 0
  {
    if cols > 0 {
      RowSign(k, b, row, cols - 1, sign);
      Expand(sign, RowSum(k, b, row, cols - 1), b[Cell(k, row, cols - 1)]);
    }
  }

  lemma {:induction false} ColSign(k: nat, b: seq<int>, col: nat, rows: nat, sign: int)
    requires |b| == k * k && col < k && rows <= k && (forall x: nat | x < rows :: sign * b[Cell(k, x, col)] >= 0)
    ensures sign * ColSum(k, b, col, rows) >= 0
    ensures sign * ColSum(k, b, col, rows) == 0 ==> forall x: nat | x < rows :: sign * b[Cell(k, x, col)] == 0
  {
    if rows > 0 {
      ColSign(k, b, col, rows - 1, sign);
      Expand(sign, ColSum(k, b, col, rows - 1), b[Cell(k, rows - 1, col)]);
    }
  }

  lemma Expand(a: int, x: int, y: int)
    ensures a * (x + y) == a * x + a * y
  {
  }

  /** Ballots that a router is given in a round have all this sign, or are 0. */
  ghost predicate OneSign(c: Setup, ms: seq<Monitor>, start: nat, n: nat, sign: int)
    requires n < c.k * c.k && start + c.k <= |ms| && AllShaped(c, ms)
  {
    forall m: nat, t: nat | m < c.k * c.k && t < c.k && VotesFor(c.k, m, n, t) :: sign * Vote(c, ms[start + t].stats[m]) >= 0
  }

  lemma RowOfSign(c: Setup, ms: seq<Monitor>, start: nat, n: nat, sign: int)
    requires n < c.k * c.k && start + c.k <= |ms| && AllShaped(c, ms) && OneSign(c, ms, start, n, sign)
    ensures var r := Row(c.k, n); var sum := sign * RowSum(c.k, Ballots(c, ms[start + r].stats), r, c.k);
            && sum >= 0
            && (sum == 0 ==> forall m: nat | m < c.k * c.k && Row(c.k, m) == r :: sign * Vote(c, ms[start + r].stats[m]) == 0)
  {
    var r := Row(c.k, n);
    var b := Ballots(c, ms[start + r].stats);
    forall x: nat | x < c.k ensures sign * b[Cell(c.k, r, x)] >= 0 {
      CellIs(c.k, r, x, Cell(c.k, r, x));
      assert VotesFor(c.k, Cell(c.k, r, x), n, r);
    }
    RowSign(c.k, b, r, c.k, sign);
    forall m: nat | m < c.k * c.k && Row(c.k, m) == r && sign * RowSum(c.k, b, r, c.k) == 0 ensures sign * Vote(c, ms[start + r].stats[m]) == 0 {
      CellIs(c.k, r, Col(c.k, m), m);
      assert b[m] == b[Cell(c.k, r, Col(c.k, m))];
    }
  }

  /** The column, on the diagonal without the router itself, whose ballot counts in the row already. */
  lemma ColOfSign(c: Setup, ms: seq<Monitor>, start: nat, n: nat, sign: int)
    requires n < c.k * c.k && start + c.k <= |ms| && AllShaped(c, ms) && OneSign(c, ms, start, n, sign)
    ensures var l := Col(c.k, n); var b := Ballots(c, ms[start + l].stats);
            var sum := sign * ColSum(c.k, if Row(c.k, n) == l then b[n := 0] else b, l, c.k);
            && sum >= 0
            && (sum == 0 ==> forall m: nat | m < c.k * c.k && Col(c.k, m) == l && (Row(c.k, n) == l ==> m != n) ::
                               sign * Vote(c, ms[start + l].stats[m]) == 0)
  {
    var l := Col(c.k, n);
    var b := Ballots(c, ms[start + l].stats);
    var b' := if Row(c.k, n) == l then b[n := 0] else b;
    forall x: nat | x < c.k ensures sign * b'[Cell(c.k, x, l)] >= 0 {
      CellIs(c.k, x, l, Cell(c.k, x, l));
      assert VotesFor(c.k, Cell(c.k, x, l), n, l);
    }
    ColSign(c.k, b', l, c.k, sign);
    forall m: nat | m < c.k * c.k && Col(c.k, m) == l && (Row(c.k, n) == l ==> m != n) && sign * ColSum(c.k, b', l, c.k) == 0
      ensures sign * Vote(c, ms[start + l].stats[m]) == 0
    {
      CellIs(c.k, Row(c.k, m), l, m);
      assert b'[m] == b'[Cell(c.k, Row(c.k, m), l)];
    }
  }

  lemma TotalSign(c: Setup, ms: seq<Monitor>, start: nat, n: nat, sign: int)
    requires n < c.k * c.k && start + c.k <= |ms| && AllShaped(c, ms) && OneSign(c, ms, start, n, sign)
    ensures var sum := sign * Total(c, ms, start, c.k, n);
            && sum >= 0
            && (sum == 0 ==> forall m: nat, t: nat | m < c.k * c.k && t < c.k && VotesFor(c.k, m, n, t) ::
                               sign * Vote(c, ms[start + t].stats[m]) == 0)
  {
    var r, l := Row(c.k, n), Col(c.k, n);
    var rowB, colB := Ballots(c, ms[start + r].stats), Ballots(c, ms[start + l].stats);
    RowOfSign(c, ms, start, n, sign);
    ColOfSign(c, ms, start, n, sign);
    OwnInCol(c.k, colB, n, c.k);
    Expand(sign, RowSum(c.k, rowB, r, c.k), ColSum(c.k, if r == l then colB[n := 0] else colB, l, c.k));
  }

  /** What a round asks for: outside the last row a router is asked to gate more if some router of its row or
      column has seen packets pass quickly and none slowly, each in the turn of this row or column; to
      gate less the other way round; and to keep its policy if none has seen either. */
  lemma LatencyDecides(c: Setup, ms: seq<Monitor>, i: nat, n: nat)
    requires Run(c, ms) && i < |ms| && n < c.k * c.k && Shaped(c, ms[i]) && Decides(c, ms[i]) && Row(c.k, n) != c.k - 1
    ensures i >= c.k && AllShaped(c, ms)
    ensures SomeQuick(c, ms, i - c.k, n) && !SomeSlow(c, ms, i - c.k, n) ==> Verdicts(c, ms[i])[n] == Aggress
    ensures SomeSlow(c, ms, i - c.k, n) && !SomeQuick(c, ms, i - c.k, n) ==> Verdicts(c, ms[i])[n] == Regress
    ensures !SomeSlow(c, ms, i - c.k, n) && !SomeQuick(c, ms, i - c.k, n) ==> Verdicts(c, ms[i])[n] == Keep
  {
    RoundIsFair(c, ms, i, n);
    var start := i - c.k;
    if !SomeSlow(c, ms, start, n) {
      assert OneSign(c, ms, start, n, 1);
      TotalSign(c, ms, start, n, 1);
    }
    if !SomeQuick(c, ms, start, n) {
      assert OneSign(c, ms, start, n, -1);
      TotalSign(c, ms, start, n, -1);
    }
  }
}
