/** iSLIP: iterative matching with round-robin pointers that persist across allocations. */
module Islip {
  import opened Arithmetic
  import opened Matchings
  import opened SparseAllocators
  import opened GrantAccept

  /** `x` is the first port in the scan from `offset` that satisfies `ok`; -1 if no port does. */
  ghost predicate FirstInTurn(ok: int -> bool, offset: int, n: int, x: int) {
    if x == -1 then forall y | 0 <= y < n :: !ok(y)
    else 0 <= x < n && ok(x) && forall y | 0 <= y < n && ok(y) :: Turn(x, offset, n) <= Turn(y, offset, n)
  }

  /** The wrapped scan of a row of requests: it starts at the first port not below `offset`,
      wraps around once, and returns the first requesting port in that order that is `ok`. */
  method RoundRobin(row: Row, offset: nat, n: nat, ok: int -> bool) returns (r: int)
    requires Keyed(row, n) && row != map[] && offset < n
    ensures FirstInTurn(x => x in row && ok(x), offset, n, r)
  {
    var p := Next(row, 0, n);
    while p < n && row[p].port < offset
      invariant p <= n && (p < n ==> p in row)
      invariant forall x | 0 <= x < p && x in row :: x < offset
    {
      p := Next(row, p + 1, n);
    }
    var wrapped := false;
    while !wrapped || (p < n && row[p].port < offset)
      invariant p <= n && (p < n ==> p in row)
      invariant !wrapped ==> forall x | offset <= x < p && x in row :: !ok(x)
      invariant wrapped ==> forall x | x in row && ok(x) :: p <= x < offset
      decreases !wrapped, n - p
    {
      if p == n {
        p := Next(row, 0, n);
        wrapped := true;
        assert Any(row.Keys) in row;  // so the row has a first port
      }
      var port := row[p].port;
      if ok(port) { return port; }
      p := Next(row, p + 1, n);
    }
    r := -1;
  }

  lemma SameFirst(ok: int -> bool, ok': int -> bool, offset: int, n: int, x: int)
    requires forall y | 0 <= y < n :: ok(y) <==> ok'(y)
    requires FirstInTurn(ok, offset, n, x)
    ensures FirstInTurn(ok', offset, n, x)
  {
  }

  ghost function EligibleFor(edges: Edges, inm: seq<int>, outm: seq<int>, j: int): int -> bool {
    i => Eligible(edges, inm, outm, i, j)
  }

  /** Each output grants, in its round-robin order, the first input it may still be given to. */
  ghost predicate GrantsInTurn(edges: Edges, inm: seq<int>, outm: seq<int>, gptrs: seq<int>, grants: seq<int>, c: int) {
    && |grants| == |gptrs| == |outm|
    && forall j | 0 <= j < c && j < |grants| ::
         FirstInTurn(EligibleFor(edges, inm, outm, j), gptrs[j], |inm|, grants[j])
  }

  ghost predicate Grants(grants: seq<int>, j: int, i: int) {
    0 <= j < |grants| && grants[j] == i
  }

  /** Each input accepts, in its round-robin order, the first output that grants it. */
  ghost predicate AcceptsInTurn(grants: seq<int>, aptrs: seq<int>, acc: seq<int>, c: int) {
    && |acc| == |aptrs|
    && forall i | 0 <= i < c && i < |acc| ::
         FirstInTurn(j => Grants(grants, j, i), aptrs[i], |grants|, acc[i])
  }

  /** Pointers move one past the partner, and only where a grant was accepted. */
  ghost predicate PointersMoved(grants: seq<int>, acc: seq<int>, gptrs: seq<int>, aptrs: seq<int>,
                                gptrs': seq<int>, aptrs': seq<int>) {
    && |gptrs'| == |gptrs| == |grants| > 0 && |aptrs'| == |aptrs| == |acc| > 0
    && (forall j | 0 <= j < |gptrs| ::
          gptrs'[j] == if 0 <= grants[j] < |acc| && acc[grants[j]] == j then (grants[j] + 1) % |aptrs| else gptrs[j])
    && (forall i | 0 <= i < |aptrs| ::
          aptrs'[i] == if acc[i] != -1 then (acc[i] + 1) % |gptrs| else aptrs[i])
  }

  ghost predicate PointersValid(gptrs: seq<int>, aptrs: seq<int>) {
    && (forall j | 0 <= j < |gptrs| :: 0 <= gptrs[j] < |aptrs|)
    && (forall i | 0 <= i < |aptrs| :: 0 <= aptrs[i] < |gptrs|)
  }

  lemma GrantsMakeAPhase(edges: Edges, inm: seq<int>, outm: seq<int>, gptrs: seq<int>, grants: seq<int>)
    requires GrantsInTurn(edges, inm, outm, gptrs, grants, |grants|)
    ensures GrantPhase(edges, inm, outm, grants)
  {
    forall j | 0 <= j < |grants|
      ensures if grants[j] == -1 then forall i :: !Eligible(edges, inm, outm, i, j)
              else Eligible(edges, inm, outm, grants[j], j)
    {
      assert FirstInTurn(EligibleFor(edges, inm, outm, j), gptrs[j], |inm|, grants[j]);
      if grants[j] == -1 {
        forall i ensures !Eligible(edges, inm, outm, i, j) {
          if 0 <= i < |inm| { assert !EligibleFor(edges, inm, outm, j)(i); }
        }
      }
    }
  }

  /** The first iteration of one allocation, with the state it started from. */
  datatype Allocation = Allocation(edges: Edges, inm: seq<int>, outm: seq<int>, gptrs: seq<int>, aptrs: seq<int>,
                                   grants: seq<int>, acc: seq<int>)
  {
    ghost predicate Legal() {
      && |inm| == |aptrs| > 0 && |outm| == |gptrs| > 0
      && PointersValid(gptrs, aptrs)
      && GrantsInTurn(edges, inm, outm, gptrs, grants, |gptrs|)
      && AcceptsInTurn(grants, aptrs, acc, |aptrs|)
    }

    ghost predicate Began(edges: Edges, inm: seq<int>, outm: seq<int>, gp: seq<int>, ap: seq<int>,
                          gptrs': seq<int>, aptrs': seq<int>, inm': seq<int>) {
      && this.edges == edges && this.inm == inm && this.outm == outm && gptrs == gp && aptrs == ap
      && Legal() && PointersMoved(grants, acc, gptrs, aptrs, gptrs', aptrs')
      && |inm'| == |acc|
      && forall i | 0 <= i < |acc| && acc[i] != -1 :: inm'[i] == acc[i]
    }
  }

  lemma PointersStep(grants: seq<int>, acc: seq<int>, gptrs: seq<int>, aptrs: seq<int>,
                     gptrs': seq<int>, aptrs': seq<int>, i: int, j: int)
    requires PointersMoved(grants, acc, gptrs, aptrs, gptrs', aptrs')
    requires 0 <= i < |acc| && acc[i] == -1 && 0 <= j < |grants| && grants[j] == i
    ensures PointersMoved(grants, acc[i := j], gptrs, aptrs,
                          gptrs'[j := (i + 1) % |aptrs|], aptrs'[i := (j + 1) % |gptrs|])
  {
  }

  /** Consecutive allocations, each starting from cleared assignments and the pointers that the
      one before it left behind. */
  ghost predicate Run(run: seq<Allocation>, inputs: nat, outputs: nat) {
    && (forall k | 0 <= k < |run| ::
          && run[k].Legal() && |run[k].inm| == inputs && |run[k].outm| == outputs
          && AllFree(run[k].inm) && AllFree(run[k].outm))
    && (forall k | 0 <= k < |run| - 1 ::
          PointersMoved(run[k].grants, run[k].acc, run[k].gptrs, run[k].aptrs, run[k + 1].gptrs, run[k + 1].aptrs))
  }

  /** Input `i` asks for output `j` in every allocation and the other requests for `j` do not change. */
  ghost predicate Persistent(run: seq<Allocation>, i: int, j: int) {
    && (forall k | 0 <= k < |run| :: (i, j) in run[k].edges)
    && (forall k, x | 0 <= k < |run| - 1 :: (x, j) in run[k].edges <==> (x, j) in run[k + 1].edges)
  }

  /** How long pair (i, j) can still wait: turns until `i` is granted, then turns until it accepts. */
  ghost function Wait(a: Allocation, i: int, j: int): int
    requires a.Legal() && 0 <= j < |a.gptrs|
    requires 0 <= a.grants[j] < |a.aptrs|
  {
    Turn(i, a.gptrs[j], |a.aptrs|) * |a.gptrs| + Turn(j, a.aptrs[a.grants[j]], |a.gptrs|)
  }

  ghost predicate Wanted(a: Allocation, i: int, j: int) {
    && a.Legal() && AllFree(a.inm) && AllFree(a.outm)
    && (i, j) in a.edges && 0 <= i < |a.aptrs| && 0 <= j < |a.gptrs|
  }

  /** A requested output grants some input no later in its turn than `i`, and that input accepts
      an output no later in its turn than `j`. */
  lemma GrantAndAccept(a: Allocation, i: int, j: int)
    requires Wanted(a, i, j)
    ensures 0 <= a.grants[j] < |a.aptrs| && (a.grants[j], j) in a.edges
    ensures forall x | 0 <= x < |a.aptrs| && (x, j) in a.edges ::
              Turn(a.grants[j], a.gptrs[j], |a.aptrs|) <= Turn(x, a.gptrs[j], |a.aptrs|)
    ensures 0 <= a.acc[a.grants[j]] < |a.gptrs|
    ensures Turn(a.acc[a.grants[j]], a.aptrs[a.grants[j]], |a.gptrs|) <= Turn(j, a.aptrs[a.grants[j]], |a.gptrs|)
  {
    var eligible := EligibleFor(a.edges, a.inm, a.outm, j);
    assert FirstInTurn(eligible, a.gptrs[j], |a.inm|, a.grants[j]);
    assert eligible(i);
    assert forall x | 0 <= x < |a.aptrs| && (x, j) in a.edges :: eligible(x);
    var g := a.grants[j];
    var granting := y => Grants(a.grants, y, g);
    assert FirstInTurn(granting, a.aptrs[g], |a.grants|, a.acc[g]);
    assert granting(j);
  }

  ghost predicate Successive(a: Allocation, b: Allocation, i: int, j: int) {
    && Wanted(a, i, j) && Wanted(b, i, j)
    && |a.aptrs| == |b.aptrs| && |a.gptrs| == |b.gptrs|
    && PointersMoved(a.grants, a.acc, a.gptrs, a.aptrs, b.gptrs, b.aptrs)
    && forall x :: (x, j) in a.edges <==> (x, j) in b.edges
  }

  /** If the granted input accepts `j`, the pointer of `j` moves past it, and it is not beyond `i`. */
  lemma GrantAdvances(a: Allocation, b: Allocation, i: int, j: int)
    requires Successive(a, b, i, j)
    requires 0 <= a.grants[j] < |a.acc| && a.acc[a.grants[j]] == j && a.acc[i] != j
    ensures Turn(i, b.gptrs[j], |a.aptrs|) + 1 <= Turn(i, a.gptrs[j], |a.aptrs|)
  {
    GrantAndAccept(a, i, j);
    Wraps(a.grants[j], |a.aptrs|);
    NextInTurn(a.grants[j], i, a.gptrs[j], b.gptrs[j], |a.aptrs|);
  }

  /** Otherwise `j` keeps granting the same input, whose pointer moves towards `j`. */
  lemma AcceptAdvances(a: Allocation, b: Allocation, i: int, j: int)
    requires Successive(a, b, i, j)
    requires 0 <= a.grants[j] < |a.acc| && a.acc[a.grants[j]] != j
    ensures b.gptrs[j] == a.gptrs[j] && b.grants[j] == a.grants[j]
    ensures Turn(j, b.aptrs[a.grants[j]], |a.gptrs|) < Turn(j, a.aptrs[a.grants[j]], |a.gptrs|)
  {
    GrantAndAccept(a, i, j);
    GrantAndAccept(b, i, j);
    var g := a.grants[j];
    assert Turn(b.grants[j], a.gptrs[j], |a.aptrs|) == Turn(g, a.gptrs[j], |a.aptrs|);
    Wraps(a.acc[g], |a.gptrs|);
    NextInTurn(a.acc[g], j, a.aptrs[g], b.aptrs[g], |a.gptrs|);
  }

  /** The wait shrinks in every allocation that does not serve the pair. */
  lemma WaitShrinks(a: Allocation, b: Allocation, i: int, j: int)
    requires Successive(a, b, i, j)
    requires a.acc[i] != j
    ensures 0 <= a.grants[j] < |a.aptrs| && 0 <= b.grants[j] < |b.aptrs|
    ensures Wait(b, i, j) < Wait(a, i, j)
  {
    GrantInRange(a, i, j);
    GrantInRange(b, i, j);
    if a.acc[a.grants[j]] == j {
      GrantAdvances(a, b, i, j);
      Scale(Turn(i, b.gptrs[j], |a.aptrs|), Turn(i, a.gptrs[j], |a.aptrs|), |a.gptrs|);
    } else {
      AcceptAdvances(a, b, i, j);
    }
  }

  lemma GrantInRange(a: Allocation, i: int, j: int)
    requires Wanted(a, i, j)
    ensures 0 <= a.grants[j] < |a.aptrs|
    ensures 0 <= Turn(i, a.gptrs[j], |a.aptrs|) < |a.aptrs|
    ensures 0 <= Turn(j, a.aptrs[a.grants[j]], |a.gptrs|) < |a.gptrs|
  {
    GrantAndAccept(a, i, j);
  }

  /** Moving the offset past an earlier port brings a later port closer. */
  lemma NextInTurn(x: int, y: int, offset: int, offset': int, n: int)
    requires 0 <= x < n && 0 <= y < n && 0 <= offset < n && x != y
    requires offset' == if x + 1 == n then 0 else x + 1
    requires Turn(x, offset, n) <= Turn(y, offset, n)
    ensures Turn(y, offset', n) < Turn(y, offset, n)
  {
  }

  lemma Wraps(x: int, n: int)
    requires 0 <= x < n
    ensures (x + 1) % n == if x + 1 == n then 0 else x + 1
  {
  }

  lemma Scale(p: int, q: int, n: int)
    requires p <= q - 1 && n > 0
    ensures p * n + n <= q * n
  {
    Multiply(p + 1, q, n);
    assert (p + 1) * n == p * n + n;
  }

  lemma RunSteps(run: seq<Allocation>, inputs: nat, outputs: nat, i: int, j: int, k: nat)
    requires Run(run, inputs, outputs) && Persistent(run, i, j)
    requires 0 <= i < inputs && 0 <= j < outputs && k < |run| - 1
    ensures Successive(run[k], run[k + 1], i, j)
  {
    assert run[k].Legal() && run[k + 1].Legal();
  }

  /** Nobody waits longer at first than for all turns of all ports. */
  lemma FirstWait(a: Allocation, i: int, j: int)
    requires Wanted(a, i, j)
    ensures 0 <= a.grants[j] < |a.aptrs|
    ensures Wait(a, i, j) < |a.aptrs| * |a.gptrs|
  {
    GrantInRange(a, i, j);
    Scale(Turn(i, a.gptrs[j], |a.aptrs|), |a.aptrs|, |a.gptrs|);
  }

  lemma {:induction false} WaitAfter(run: seq<Allocation>, inputs: nat, outputs: nat, i: int, j: int, k: nat)
    requires Run(run, inputs, outputs) && Persistent(run, i, j)
    requires 0 <= i < inputs && 0 <= j < outputs && k < |run|
    requires forall m | 0 <= m < k :: run[m].acc[i] != j
    ensures 0 <= run[0].grants[j] < inputs && 0 <= run[k].grants[j] < inputs
    ensures Wait(run[k], i, j) <= Wait(run[0], i, j) - k
  {
    if k == 0 {
      GrantInRange(run[0], i, j);
    } else {
      WaitAfter(run, inputs, outputs, i, j, k - 1);
      RunSteps(run, inputs, outputs, i, j, k - 1);
      WaitShrinks(run[k - 1], run[k], i, j);
    }
  }

  /** Starvation freedom: a request that is repeated in `inputs * outputs` consecutive
      allocations is served in the first iteration of one of them. */
  lemma NoStarvation(run: seq<Allocation>, inputs: nat, outputs: nat, i: int, j: int)
    requires Run(run, inputs, outputs) && Persistent(run, i, j)
    requires 0 <= i < inputs && 0 <= j < outputs
    requires |run| == inputs * outputs
    ensures exists k :: 0 <= k < |run| && run[k].acc[i] == j
  {
    if forall m | 0 <= m < |run| :: run[m].acc[i] != j {
      Scale(0, inputs, outputs);
      var a := run[|run| - 1];
      FirstWait(run[0], i, j);
      WaitAfter(run, inputs, outputs, i, j, |run| - 1);
      NoWaitServed(a, i, j);
    }
  }

  /** A pair that need not wait is served. */
  lemma NoWaitServed(a: Allocation, i: int, j: int)
    requires Wanted(a, i, j) && 0 <= a.grants[j] < |a.aptrs|
    ensures Wait(a, i, j) <= 0 ==> a.acc[i] == j
  {
    if Wait(a, i, j) <= 0 {
      GrantInRange(a, i, j);
      ZeroWait(Turn(i, a.gptrs[j], |a.aptrs|), Turn(j, a.aptrs[a.grants[j]], |a.gptrs|), |a.gptrs|);
      GrantAndAccept(a, i, j);
    }
  }

  lemma ZeroWait(p: int, q: int, n: int)
    requires p >= 0 && q >= 0 && n > 0 && p * n + q <= 0
    ensures p == 0 && q == 0
  {
  }

  class ISlip {
    const base: SparseAllocator
    const iterations: int
    var gptrs: seq<int>   // per output, the input that is scanned first
    var aptrs: seq<int>   // per input, the output that is scanned first

    ghost predicate Valid()
      reads this, base
    {
      && base.Valid()
      && Within(base.inmatch, base.Edges())
      && |gptrs| == base.outputs && |aptrs| == base.inputs
      && PointersValid(gptrs, aptrs)
    }

    constructor (inputs: nat, outputs: nat, iterations: int)
      requires inputs > 0 && outputs > 0
      ensures Valid() && fresh(base) && base.inputs == inputs && base.outputs == outputs
      ensures base.Edges() == {} && this.iterations == iterations
    {
      base := new SparseAllocator(inputs, outputs);
      this.iterations := iterations;
      gptrs := seq(outputs, _ => 0);
      aptrs := seq(inputs, _ => 0);
    }

    method GrantPass() returns (grants: seq<int>)
      requires Valid()
      ensures GrantsInTurn(base.Edges(), base.inmatch, base.outmatch, gptrs, grants, base.outputs)
    {
      grants := seq(base.outputs, _ => -1);
      ghost var edges, inm, outm := base.Edges(), base.inmatch, base.outmatch;
      for output := 0 to base.outputs
        invariant GrantsInTurn(edges, inm, outm, gptrs, grants, output)
        invariant forall j | output <= j < |grants| :: grants[j] == -1
      {
        var grant := GrantOutput(output, edges, inm, outm);
        grants := grants[output := grant];
      }
    }

    /** The first free requester in the turn of a free output. */
    method GrantOutput(output: int, ghost edges: Edges, ghost inm0: seq<int>, ghost outm: seq<int>) returns (grant: int)
      requires Valid() && 0 <= output < base.outputs
      requires edges == base.Edges() && inm0 == base.inmatch && outm == base.outmatch
      ensures FirstInTurn(EligibleFor(edges, inm0, outm, output), gptrs[output], |inm0|, grant)
    {
      grant := -1;
      var inm := base.inmatch;
      ghost var eligible := EligibleFor(edges, inm, outm, output);
      if base.outReq[output] == map[] || base.outmatch[output] != -1 {
        assert forall i | 0 <= i < |inm| :: !eligible(i);
      } else {
        var row := base.outReq[output];
        var free := i => 0 <= i < |inm| && inm[i] == -1;
        grant := RoundRobin(row, gptrs[output], base.inputs, free);
        assert forall i | 0 <= i < base.inputs :: (i in row && free(i)) <==> eligible(i);
        SameFirst(x => x in row && free(x), eligible, gptrs[output], base.inputs, grant);
      }
    }

    /** The first output, in round-robin order, that grants `input`. */
    method FirstGrant(grants: seq<int>, input: int) returns (output: int)
      requires Valid() && |grants| == base.outputs && 0 <= input < base.inputs
      requires forall j | 0 <= j < |grants| && grants[j] == input :: (input, j) in base.Edges()
      ensures FirstInTurn(j => Grants(grants, j, input), aptrs[input], |grants|, output)
      ensures output == -1 ==> forall j | 0 <= j < |grants| :: grants[j] != input
    {
      output := -1;
      var row := base.inReq[input];
      if row != map[] {
        var granted := j => 0 <= j < |grants| && grants[j] == input;
        output := RoundRobin(row, aptrs[input], base.outputs, granted);
        SameFirst(x => x in row && granted(x), j => Grants(grants, j, input), aptrs[input], base.outputs, output);
        SameFirst(x => x in row && granted(x), granted, aptrs[input], base.outputs, output);
        assert forall j | 0 <= j < |grants| :: granted(j) <==> grants[j] == input;
      } else {
        assert forall j | 0 <= j < |grants| && grants[j] == input :: j in row;
      }
    }

    /** Inputs below `c` have accepted, starting from `inm`, `outm` and the given pointers. */
    ghost predicate AcceptedBelow(grants: seq<int>, first: bool, acc: seq<int>, c: int,
                                  inm: seq<int>, outm: seq<int>, gp: seq<int>, ap: seq<int>)
      reads this, base
    {
      && Valid() && |acc| == base.inputs && 0 <= c
      && AcceptsInTurn(grants, ap, acc, c)
      && AcceptPhase(grants, inm, outm, acc, base.inmatch, base.outmatch, c)
      && (if first then PointersMoved(grants, acc, gp, ap, gptrs, aptrs) else gptrs == gp && aptrs == ap)
      && (forall i | c <= i < |aptrs| && i < |ap| :: aptrs[i] == ap[i])
    }

    method AcceptInput(grants: seq<int>, first: bool, input: int, ghost acc: seq<int>,
                       ghost inm: seq<int>, ghost outm: seq<int>, ghost gp: seq<int>, ghost ap: seq<int>)
      returns (ghost acc': seq<int>)
      requires 0 <= input < base.inputs && base.outputs > 0
      requires AcceptedBelow(grants, first, acc, input, inm, outm, gp, ap)
      requires Consistent(inm, outm) && Within(inm, base.Edges())
      requires GrantPhase(base.Edges(), inm, outm, grants)
      modifies this`gptrs, this`aptrs, base`inmatch, base`outmatch
      ensures AcceptedBelow(grants, first, acc', input + 1, inm, outm, gp, ap)
    {
      acc' := acc;
      var output := FirstGrant(grants, input);
      if output != -1 {
        assert Eligible(base.Edges(), inm, outm, input, output);
        AcceptOne(grants, inm, outm, acc, base.inmatch, base.outmatch, input, output);
        if first { PointersStep(grants, acc, gp, ap, gptrs, aptrs, input, output); }
        acc' := acc[input := output];
        ghost var in1, out1 := base.inmatch[input := output], base.outmatch[output := input];
        IterationConsistent(base.Edges(), inm, outm, grants, acc', in1, out1, input + 1);
        base.inmatch := base.inmatch[input := output];
        base.outmatch := base.outmatch[output := input];
        if first {
          gptrs := gptrs[output := (input + 1) % base.inputs];
          aptrs := aptrs[input := (output + 1) % base.outputs];
        }
      }
    }

    /** The accept phase; pointers move only in the first iteration of an allocation. */
    method AcceptPass(grants: seq<int>, first: bool) returns (ghost acc: seq<int>)
      requires Valid() && base.inputs > 0 && base.outputs > 0
      requires GrantPhase(base.Edges(), base.inmatch, base.outmatch, grants)
      modifies this`gptrs, this`aptrs, base`inmatch, base`outmatch
      ensures AcceptedBelow(grants, first, acc, base.inputs,
                            old(base.inmatch), old(base.outmatch), old(gptrs), old(aptrs))
    {
      acc := seq(base.inputs, _ => -1);
      ghost var inm, outm, gp, ap := base.inmatch, base.outmatch, gptrs, aptrs;
      for input := 0 to base.inputs
        invariant AcceptedBelow(grants, first, acc, input, inm, outm, gp, ap)
      {
        acc := AcceptInput(grants, first, input, acc, inm, outm, gp, ap);
      }
    }

    /** Runs the configured number of iterations. `a` records the first of them. */
    method Allocate() returns (ghost a: Allocation)
      requires Valid() && base.inputs > 0 && base.outputs > 0
      modifies this`gptrs, this`aptrs, base`inmatch, base`outmatch
      ensures Valid()
      ensures Matched(old(base.inmatch)) <= Matched(base.inmatch)
      ensures Matched(old(base.outmatch)) <= Matched(base.outmatch)
      ensures iterations >= base.inputs || iterations >= base.outputs ==>
                Maximal(base.inmatch, base.outmatch, base.Edges())
      ensures Maximal(base.inmatch, base.outmatch, base.Edges()) ||
              |Matched(base.inmatch)| >= |Matched(old(base.inmatch))| + iterations
      ensures iterations >= 1 ==> (
        && a.edges == base.Edges() && a.gptrs == old(gptrs) && a.aptrs == old(aptrs)
        && a.inm == old(base.inmatch) && a.outm == old(base.outmatch)
        && a.Legal() && PointersMoved(a.grants, a.acc, a.gptrs, a.aptrs, gptrs, aptrs)
        && forall i | 0 <= i < |a.acc| && a.acc[i] != -1 :: base.inmatch[i] == a.acc[i])
    {
      a := Allocation({}, [], [], [], [], [], []);
      ghost var inm0, outm0 := base.inmatch, base.outmatch;
      var iter := 0;
      while iter < iterations
        invariant Valid() && iter >= 0
        invariant Matched(inm0) <= Matched(base.inmatch) && Matched(outm0) <= Matched(base.outmatch)
        invariant Maximal(base.inmatch, base.outmatch, base.Edges()) || |Matched(base.inmatch)| >= |Matched(inm0)| + iter
        invariant iter == 0 ==> base.inmatch == inm0 && base.outmatch == outm0 && gptrs == old(gptrs) && aptrs == old(aptrs)
        invariant iter > 0 ==> a.Began(base.Edges(), inm0, outm0, old(gptrs), old(aptrs), gptrs, aptrs, base.inmatch)
      {
        ghost var inm, outm, gp, ap := base.inmatch, base.outmatch, gptrs, aptrs;
        var grants := GrantPass();
        GrantsMakeAPhase(base.Edges(), inm, outm, gp, grants);
        ghost var acc := AcceptPass(grants, iter == 0);
        IterationGrows(base.Edges(), inm, outm, grants, acc, base.inmatch, base.outmatch);
        if iter == 0 { a := Allocation(base.Edges(), inm, outm, gp, ap, grants, acc); }
        iter := iter + 1;
      }
      if iterations >= base.inputs || iterations >= base.outputs {
        if !Maximal(base.inmatch, base.outmatch, base.Edges()) {
          FullIsMaximal(base.inmatch, base.outmatch, base.Edges());
        }
      }
    }
  }
}
