/** Maximum-size matching by repeated shortest augmenting paths. */
module MaxSize {
  import opened Matchings
  import opened DenseAllocators

  /** The breadth-first forest grown from the unassigned inputs. `from[j]` is the input from
      which output `j` was reached and `t[j]` a time stamp that strictly decreases towards the
      root, so that following `from` and the assignment alternately always ends. */
  ghost predicate Forest(request: Matrix, inm: seq<int>, from: seq<int>, t: seq<nat>)
  {
    && |t| == |from|
    && forall j | 0 <= j < |from| && from[j] != -1 ::
         && 0 <= from[j] < |inm|
         && Requested(request, from[j], j)
         && inm[from[j]] != j
         && (inm[from[j]] == -1 ||
             (0 <= inm[from[j]] < |from| && from[inm[from[j]]] != -1 && t[inm[from[j]]] < t[j]))
  }

  /** Input `i` is the end of an alternating path from an unassigned input. */
  ghost predicate Reached(inm: seq<int>, from: seq<int>, i: int) {
    0 <= i < |inm| && (inm[i] == -1 || (0 <= inm[i] < |from| && from[inm[i]] != -1))
  }

  /** All edges out of input `i` below column `c` have been followed. */
  ghost predicate Done(request: Matrix, inm: seq<int>, from: seq<int>, i: int, c: int) {
    0 <= i < |inm| &&
    forall j | 0 <= j < c && Requested(request, i, j) :: inm[i] == j || (j < |from| && from[j] != -1)
  }

  /** `q` lists the reached inputs in the order in which they were found. */
  ghost predicate Queue(inm: seq<int>, from: seq<int>, t: seq<nat>, q: seq<int>) {
    && |t| == |from|
    && Distinct(q) && AllBelow(q, |inm|)
    && (forall k | 0 <= k < |q| :: Reached(inm, from, q[k]))
    && (forall i | Reached(inm, from, i) :: i in q)
    && (forall j | 0 <= j < |from| && from[j] != -1 :: t[j] < |q|)
  }

  /** No reached output is unassigned. */
  ghost predicate NoneFree(outm: seq<int>, from: seq<int>) {
    forall j | 0 <= j < |from| && from[j] != -1 :: j < |outm| && outm[j] != -1
  }

  /** No request lies beyond the end of `_from`, which has an entry for each input. */
  ghost predicate FitsFrom(request: Matrix, n: int) {
    forall i, j | Requested(request, i, j) :: j < n
  }

  ghost predicate Searching(request: Matrix, inm: seq<int>, outm: seq<int>,
                            from: seq<int>, t: seq<nat>, q: seq<int>) {
    && Forest(request, inm, from, t)
    && Queue(inm, from, t, q)
    && NoneFree(outm, from)
  }

  ghost predicate Graph(request: Matrix, inm: seq<int>, outm: seq<int>) {
    && Shaped(request, |inm|, |outm|)
    && Consistent(inm, outm)
    && Within(inm, EdgesOf(request))
  }

  /** Following a request to an assigned output adds exactly that output's input to the queue. */
  lemma FollowEdge(request: Matrix, inm: seq<int>, outm: seq<int>,
                   from: seq<int>, t: seq<nat>, q: seq<int>, i: int, j: int)
    requires Graph(request, inm, outm) && |from| == |inm|
    requires Searching(request, inm, outm, from, t, q)
    requires i in q && Requested(request, i, j) && inm[i] != j && j < |from| && from[j] == -1
    requires outm[j] != -1
    ensures Searching(request, inm, outm, from[j := i], t[j := |q|], q + [outm[j]])
    ensures |q| < |inm| && outm[j] !in q
  {
    var from', t', q' := from[j := i], t[j := |q|], q + [outm[j]];
    assert Reached(inm, from, i);
    assert !Reached(inm, from, outm[j]);
    assert forall x :: Reached(inm, from', x) ==> Reached(inm, from, x) || x == outm[j];
    assert Forest(request, inm, from', t');
    assert Queue(inm, from', t', q') by {
      assert q'[|q|] == outm[j];
      assert forall k | 0 <= k < |q| :: q'[k] == q[k];
    }
    DistinctBound(q', |inm|);
  }

  lemma FollowFree(request: Matrix, inm: seq<int>, outm: seq<int>,
                   from: seq<int>, t: seq<nat>, q: seq<int>, i: int, j: int)
    requires Graph(request, inm, outm) && |from| == |inm|
    requires Searching(request, inm, outm, from, t, q)
    requires i in q && Requested(request, i, j) && inm[i] != j && j < |from| && from[j] == -1
    ensures Forest(request, inm, from[j := i], t[j := |q|])
  {
    assert Reached(inm, from, i);
  }

  ghost function Unreached(inm: seq<int>, from: seq<int>): set<int> {
    set i | 0 <= i < |inm| && !Reached(inm, from, i)
  }

  ghost function Columns(from: seq<int>): set<int> {
    set j | 0 <= j < |from| && from[j] != -1
  }

  /** After a finished search every request leaves an unreached input or enters a reached output. */
  lemma Covered(request: Matrix, inm: seq<int>, outm: seq<int>,
                from: seq<int>, t: seq<nat>, q: seq<int>, i: int, j: int)
    requires Graph(request, inm, outm) && |from| == |inm|
    requires Searching(request, inm, outm, from, t, q)
    requires forall k | 0 <= k < |q| :: Done(request, inm, from, q[k], |outm|)
    requires (i, j) in EdgesOf(request)
    ensures i in Unreached(inm, from) || j in Columns(from)
  {
    assert Requested(request, i, j);
    if Reached(inm, from, i) {
      assert i in q;
      assert Done(request, inm, from, i, |outm|);
    }
  }

  /** The assignment uses every covering port, each with a pair of its own. */
  lemma CoverAssigned(inm: seq<int>, outm: seq<int>, from: seq<int>)
    requires Consistent(inm, outm) && NoneFree(outm, from)
    ensures |Matched(inm)| >= |Unreached(inm, from)| + |Columns(from)|
  {
    var own := set i | 0 <= i < |inm| && inm[i] != -1 && inm[i] in Columns(from);
    ColumnsAssigned(inm, outm, Columns(from));
    var both := Unreached(inm, from) + own;
    assert both <= Matched(inm);
    SubsetSize(both, Matched(inm));
    assert Unreached(inm, from) !! own;
  }

  /** A finished search that met no unassigned output certifies that the assignment is maximum:
      the inputs not reached and the outputs reached cover every request. */
  lemma ExhaustedIsMaximum(request: Matrix, inm: seq<int>, outm: seq<int>,
                           from: seq<int>, t: seq<nat>, q: seq<int>)
    requires Graph(request, inm, outm) && |from| == |inm|
    requires Searching(request, inm, outm, from, t, q)
    requires forall k | 0 <= k < |q| :: Done(request, inm, from, q[k], |outm|)
    ensures Maximum(inm, EdgesOf(request))
  {
    CoverAssigned(inm, outm, from);
    forall m: Edges | IsMatching(m, EdgesOf(request))
      ensures |m| <= |Matched(inm)|
    {
      forall e | e in m ensures e.0 in Unreached(inm, from) || e.1 in Columns(from) {
        Covered(request, inm, outm, from, t, q, e.0, e.1);
      }
      CoverBoundsMatching(m, Unreached(inm, from), Columns(from));
    }
  }

  /** Distinct assigned outputs have distinct inputs. */
  lemma {:induction false} ColumnsAssigned(inm: seq<int>, outm: seq<int>, columns: set<int>)
    requires Consistent(inm, outm)
    requires forall j | j in columns :: 0 <= j < |outm| && outm[j] != -1
    ensures |columns| <= |set i | 0 <= i < |inm| && inm[i] != -1 && inm[i] in columns|
  {
    if columns != {} {
      var j := Any(columns);
      ColumnsAssigned(inm, outm, columns - {j});
      var all := set i | 0 <= i < |inm| && inm[i] != -1 && inm[i] in columns;
      var rest := set i | 0 <= i < |inm| && inm[i] != -1 && inm[i] in columns - {j};
      assert rest <= all - {outm[j]};
      SubsetSize(rest, all - {outm[j]});
    }
  }

  lemma DoneGrows(request: Matrix, inm: seq<int>, from: seq<int>, from': seq<int>,
                  q: seq<int>, q': seq<int>, h: nat, c: int)
    requires |from| == |from'| && q <= q' && h <= |q|
    requires forall j | 0 <= j < |from| && from[j] != -1 :: from'[j] == from[j]
    requires forall k | 0 <= k < h :: Done(request, inm, from, q[k], c)
    requires h < |q'| && Done(request, inm, from', q'[h], c)
    ensures forall k | 0 <= k < h + 1 :: Done(request, inm, from', q'[k], c)
  {
    forall k | 0 <= k < h ensures Done(request, inm, from', q'[k], c) {
      assert Done(request, inm, from, q[k], c);
    }
  }

  lemma DoneNext(request: Matrix, inm: seq<int>, from: seq<int>, from': seq<int>, i: int, j: int)
    requires |from| == |from'| && Done(request, inm, from, i, j)
    requires forall x | 0 <= x < |from| && from[x] != -1 :: from'[x] == from[x]
    requires Requested(request, i, j) ==> inm[i] == j || (j < |from'| && from'[j] != -1)
    ensures Done(request, inm, from', i, j + 1)
  {
  }

  /** A path reversal in progress: the assignment `inm`, `outm` is consistent except that
      output `j` already names input `i`, which still holds its old output. Only inputs later on
      the path, as the time stamps tell, have changed since `inm0`. */
  ghost predicate HalfFlipped(request: Matrix, inm0: seq<int>, inm: seq<int>, outm: seq<int>,
                              from: seq<int>, t: seq<nat>, i: int, j: int) {
    && |inm0| == |inm| && |t| == |from| == |inm|
    && Forest(request, inm0, from, t)
    && 0 <= i < |inm| && 0 <= j < |outm| && j < |from| && from[j] == i && outm[j] == i && inm[i] != j
    && (forall x | 0 <= x < |inm| :: inm[x] == -1 || (0 <= inm[x] < |outm| && outm[inm[x]] == x))
    && (forall y | 0 <= y < |outm| && y != j :: outm[y] == -1 || (0 <= outm[y] < |inm| && inm[outm[y]] == y))
    && Within(inm, EdgesOf(request))
    && (forall x | 0 <= x < |inm| && inm[x] != inm0[x] :: 0 <= inm0[x] < |t| && t[inm0[x]] >= t[j])
  }

  ghost predicate SamePorts(inm0: seq<int>, outm0: seq<int>, inm: seq<int>, outm: seq<int>, end: int) {
    && |inm0| == |inm| && |outm0| == |outm|
    && (forall x | 0 <= x < |inm| :: inm[x] != -1 <==> inm0[x] != -1)
    && (forall y | 0 <= y < |outm| :: outm[y] != -1 <==> outm0[y] != -1 || y == end)
  }

  /** Exactly one input and one output have joined the assigned ports. */
  ghost predicate Grown(inm0: seq<int>, outm0: seq<int>, inm: seq<int>, outm: seq<int>, i: int, j: int) {
    && |inm0| == |inm| && |outm0| == |outm|
    && 0 <= i < |inm| && inm0[i] == -1 && 0 <= j < |outm| && outm0[j] == -1
    && (forall x | 0 <= x < |inm| :: inm[x] != -1 <==> inm0[x] != -1 || x == i)
    && (forall y | 0 <= y < |outm| :: outm[y] != -1 <==> outm0[y] != -1 || y == j)
  }

  lemma GrownCounts(inm0: seq<int>, outm0: seq<int>, inm: seq<int>, outm: seq<int>)
    requires exists i, j :: Grown(inm0, outm0, inm, outm, i, j)
    ensures |Matched(inm)| == |Matched(inm0)| + 1 && |Matched(outm)| == |Matched(outm0)| + 1
    ensures Matched(inm0) <= Matched(inm) && Matched(outm0) <= Matched(outm)
    ensures |Matched(inm)| <= |inm|
  {
    var i, j :| Grown(inm0, outm0, inm, outm, i, j);
    assert Matched(inm) == Matched(inm0) + {i} && Matched(outm) == Matched(outm0) + {j};
    SubsetSize(Matched(inm), Interval(|inm|));
  }

  lemma FlipStep(request: Matrix, inm0: seq<int>, outm0: seq<int>, inm: seq<int>, outm: seq<int>,
                 from: seq<int>, t: seq<nat>, i: int, j: int, end: int)
    requires HalfFlipped(request, inm0, inm, outm, from, t, i, j)
    requires SamePorts(inm0, outm0, inm, outm, end)
    requires inm[i] != -1 && Requested(request, i, j)
    requires inm[i] < |from|
    ensures
      var jn := inm[i];
      && inm0[i] == jn && 0 <= from[jn] < |inm| && t[jn] < t[j] && Requested(request, from[jn], jn)
      && HalfFlipped(request, inm0, inm[i := j], outm[jn := from[jn]], from, t, from[jn], jn)
      && SamePorts(inm0, outm0, inm[i := j], outm[jn := from[jn]], end)
  {
    EdgesRequested(request);
  }

  lemma FirstFlip(request: Matrix, inm: seq<int>, outm: seq<int>,
                  from: seq<int>, t: seq<nat>, end: int)
    requires Graph(request, inm, outm) && |from| == |inm|
    requires Forest(request, inm, from, t)
    requires 0 <= end < |outm| && end < |from| && from[end] != -1 && outm[end] == -1
    ensures 0 <= from[end] < |inm|
    ensures HalfFlipped(request, inm, inm, outm[end := from[end]], from, t, from[end], end)
  {
  }

  lemma LastFlip(request: Matrix, inm0: seq<int>, outm0: seq<int>, inm: seq<int>, outm: seq<int>,
                 from: seq<int>, t: seq<nat>, i: int, j: int, end: int)
    requires HalfFlipped(request, inm0, inm, outm, from, t, i, j)
    requires SamePorts(inm0, outm0, inm, outm, end)
    requires 0 <= end < |outm| && outm0[end] == -1
    requires inm[i] == -1
    ensures Consistent(inm[i := j], outm) && Within(inm[i := j], EdgesOf(request))
    ensures Grown(inm0, outm0, inm[i := j], outm, i, end)
  {
    EdgesRequested(request);
    assert Requested(request, i, j);
  }

  /** The unassigned inputs among the first `i` in turn, in this order. */
  ghost function Unassigned(inm: seq<int>, prio: int, i: nat): (q: seq<int>)
    requires 0 <= prio < |inm| && i <= |inm|
    ensures |q| <= i && AllBelow(q, |inm|)
  {
    if i == 0 then [] else
      var j := InTurn(i - 1, prio, |inm|);
      Unassigned(inm, prio, i - 1) + if inm[j] == -1 then [j] else []
  }

  lemma {:induction false} UnassignedHas(inm: seq<int>, prio: int, i: nat, x: int)
    requires 0 <= prio < |inm| && i <= |inm| && 0 <= x < |inm|
    ensures x in Unassigned(inm, prio, i) <==> inm[x] == -1 && Turn(x, prio, |inm|) < i
  {
    if i > 0 {
      UnassignedHas(inm, prio, i - 1, x);
      TurnIs(i - 1, prio, |inm|);
    }
  }

  lemma {:induction false} UnassignedOrdered(inm: seq<int>, prio: int, i: nat, a: int, b: int)
    requires 0 <= prio < |inm| && i <= |inm| && 0 <= a < b < |Unassigned(inm, prio, i)|
    ensures var q := Unassigned(inm, prio, i); Turn(q[a], prio, |inm|) < Turn(q[b], prio, |inm|)
  {
    var p := Unassigned(inm, prio, i - 1);
    if b < |p| {
      UnassignedOrdered(inm, prio, i - 1, a, b);
    } else {
      assert p[a] in p;
      UnassignedHas(inm, prio, i - 1, p[a]);
      TurnIs(i - 1, prio, |inm|);
    }
  }

  lemma AllUnassigned(inm: seq<int>, prio: int)
    requires 0 <= prio < |inm|
    ensures
      var q := Unassigned(inm, prio, |inm|);
      && Distinct(q) && (forall x | 0 <= x < |inm| :: x in q <==> inm[x] == -1)
      && forall a, b | 0 <= a < b < |q| :: Turn(q[a], prio, |inm|) < Turn(q[b], prio, |inm|)
  {
    var q := Unassigned(inm, prio, |inm|);
    forall x | 0 <= x < |inm| ensures x in q <==> inm[x] == -1 { UnassignedHas(inm, prio, |inm|, x); }
    forall a, b | 0 <= a < b < |q| ensures Turn(q[a], prio, |inm|) < Turn(q[b], prio, |inm|) && q[a] != q[b] {
      UnassignedOrdered(inm, prio, |inm|, a, b);
    }
  }

  class MaxSizeMatch {
    const base: DenseAllocator
    var from: seq<int>        // array to hold the breadth-first forest
    var s: array<int>         // inputs at the current depth
    var ns: array<int>        // inputs at the next depth
    var prio: nat             // input that is scanned first

    ghost predicate Valid()
      reads this, base
    {
      && base.Valid()
      && base.inputs > 0
      && s.Length == ns.Length == base.inputs && s != ns
      && prio < base.inputs
    }

    /** Only requested pairs are assigned. */
    ghost predicate Ready()
      reads this, base
      requires Valid()
    {
      Graph(base.request, base.inmatch, base.outmatch)
    }

    constructor (inputs: nat, outputs: nat)
      requires inputs > 0
      ensures Valid() && fresh(base) && fresh(s) && fresh(ns)
      ensures base.inputs == inputs && base.outputs == outputs && base.Edges() == {}
      ensures Ready()
    {
      base := new DenseAllocator(inputs, outputs);
      from := seq(outputs, _ => -1);
      s := new int[inputs];
      ns := new int[inputs];
      prio := 0;
      new;
      EdgesRequested(base.request);
    }

    /** The search has reached the unassigned output `found`. */
    ghost predicate FreeEnd(t: seq<nat>, found: int)
      reads this, base
    {
      && Forest(base.request, base.inmatch, from, t)
      && |from| == |base.inmatch|
      && 0 <= found < |base.outmatch| && found < |from|
      && from[found] != -1 && base.outmatch[found] == -1
    }

    /** Starts the search with every unassigned input, in turn after `prio`. */
    method PushUnassigned() returns (slen: nat, ghost q: seq<int>)
      requires |base.inmatch| == base.inputs == s.Length && prio < base.inputs
      modifies s
      ensures slen <= s.Length && q == s[..slen]
      ensures Distinct(q) && AllBelow(q, base.inputs)
      ensures forall x | 0 <= x < base.inputs :: x in q <==> base.inmatch[x] == -1
      ensures forall a, b | 0 <= a < b < |q| :: Turn(q[a], prio, base.inputs) < Turn(q[b], prio, base.inputs)
    {
      slen, q := 0, [];
      ghost var inm := base.inmatch;
      var n := base.inputs;
      for i := 0 to n
        invariant slen == |q| <= i && q == s[..slen] && q == Unassigned(inm, prio, i)
      {
        var j := (i + prio) % n;
        TurnOf(i, prio, n);
        if base.inmatch[j] == -1 {
          s[slen] := j;
          slen, q := slen + 1, q + [j];
        }
      }
      AllUnassigned(inm, prio);
    }

    /** Follows the request of input `i` for output `j`, if there is one. Returns `j` if it is
        unassigned. It fails if the request lies beyond the end of `from`. */
    method FollowRequest(i: int, j: nat, slen: nat, ghost b: nat, ghost t: seq<nat>, ghost q: seq<int>)
      returns (ok: bool, found: int, nslen: nat, ghost t': seq<nat>, ghost q': seq<int>)
      requires Valid() && Ready() && |from| == base.inputs && j < base.outputs
      requires Searching(base.request, base.inmatch, base.outmatch, from, t, q)
      requires i in q && b <= |q| && slen == |q| - b && slen <= ns.Length && ns[..slen] == q[b..]
      modifies this`from, ns
      ensures |from| == base.inputs && |t'| == |from|
      ensures forall x | 0 <= x < |from| && old(from)[x] != -1 :: from[x] == old(from)[x]
      ensures !ok ==> !FitsFrom(base.request, base.inputs)
      ensures found == -1 || found == j
      ensures ok && found >= 0 ==> FreeEnd(t', found)
      ensures ok && found < 0 ==> (
        && Searching(base.request, base.inmatch, base.outmatch, from, t', q')
        && q <= q' && nslen == |q'| - b && nslen <= ns.Length && ns[..nslen] == q'[b..]
        && (Requested(base.request, i, j) ==> base.inmatch[i] == j || (j < |from| && from[j] != -1)))
    {
      ok, found, nslen := true, -1, slen;
      t', q' := t, q;
      ghost var request, inm, outm := base.request, base.inmatch, base.outmatch;
      if base.request[i][j].tag != -1 && base.inmatch[i] != j {
        assert Requested(request, i, j);
        if j >= |from| { return false, -1, nslen, t', q'; }
        if from[j] == -1 {
          if base.outmatch[j] == -1 {
            FollowFree(request, inm, outm, from, t, q, i, j);
            from, t' := from[j := i], t[j := |q|];
            return true, j, nslen, t', q';
          }
          FollowEdge(request, inm, outm, from, t, q, i, j);
          from, t', q' := from[j := i], t[j := |q|], q + [outm[j]];
          ns[nslen] := base.outmatch[j];
          nslen := nslen + 1;
        }
      }
    }

    /** Follows every request of input `i`. Returns an unassigned output if one was reached. It fails
        on a request beyond the end of `from`. */
    method ScanRow(i: int, slen: nat, ghost b: nat, ghost t: seq<nat>, ghost q: seq<int>)
      returns (ok: bool, found: int, nslen: nat, ghost t': seq<nat>, ghost q': seq<int>)
      requires Valid() && Ready() && |from| == base.inputs
      requires Searching(base.request, base.inmatch, base.outmatch, from, t, q)
      requires i in q && b <= |q| && slen == |q| - b && slen <= ns.Length && ns[..slen] == q[b..]
      modifies this`from, ns
      ensures |from| == base.inputs && |t'| == |from|
      ensures forall j | 0 <= j < |from| && old(from)[j] != -1 :: from[j] == old(from)[j]
      ensures !ok ==> !FitsFrom(base.request, base.inputs)
      ensures -1 <= found
      ensures ok && found >= 0 ==> FreeEnd(t', found)
      ensures ok && found < 0 ==> (
        && Searching(base.request, base.inmatch, base.outmatch, from, t', q')
        && q <= q' && nslen == |q'| - b && nslen <= ns.Length && ns[..nslen] == q'[b..]
        && Done(base.request, base.inmatch, from, i, base.outputs))
    {
      ok, found, nslen := true, -1, slen;
      t', q' := t, q;
      ghost var request, inm, outm, from0 := base.request, base.inmatch, base.outmatch, from;
      assert 0 <= i < |inm|;
      for j := 0 to base.outputs
        invariant |from| == base.inputs && |t'| == |from| && found == -1
        invariant Searching(request, inm, outm, from, t', q')
        invariant q <= q' && nslen == |q'| - b && nslen <= ns.Length && ns[..nslen] == q'[b..]
        invariant forall x | 0 <= x < |from| && from0[x] != -1 :: from[x] == from0[x]
        invariant Done(request, inm, from, i, j)
      {
        ghost var from1 := from;
        ok, found, nslen, t', q' := FollowRequest(i, j, nslen, b, t', q');
        if !ok || found >= 0 { return; }
        DoneNext(request, inm, from1, from, i, j);
      }
      ok := true;
    }

    /** Follows every request of the inputs at the current depth `q[b..]`. */
    method ExpandLevel(slen: nat, ghost b: nat, ghost t: seq<nat>, ghost q: seq<int>)
      returns (ok: bool, found: int, nslen: nat, ghost t': seq<nat>, ghost q': seq<int>)
      requires Valid() && Ready() && |from| == base.inputs
      requires Searching(base.request, base.inmatch, base.outmatch, from, t, q)
      requires b <= |q| && slen == |q| - b && slen <= s.Length
      requires s[..slen] == q[b..]
      requires AllDone(q, b)
      modifies this`from, ns
      ensures |from| == base.inputs && |t'| == |from|
      ensures !ok ==> !FitsFrom(base.request, base.inputs)
      ensures -1 <= found
      ensures ok && found >= 0 ==> FreeEnd(t', found)
      ensures ok && found < 0 ==> (
        && Searching(base.request, base.inmatch, base.outmatch, from, t', q')
        && q <= q' && nslen == |q'| - |q| && nslen <= ns.Length
        && ns[..nslen] == q'[|q|..]
        && AllDone(q', |q|)
        && (slen == 0 ==> q' == q))
    {
      ok, found, nslen, t', q' := true, -1, 0, t, q;
      ghost var request, inm, outm := base.request, base.inmatch, base.outmatch;
      for e := 0 to slen
        invariant |from| == base.inputs && |t'| == |from| && found == -1
        invariant Searching(request, inm, outm, from, t', q')
        invariant q <= q' && nslen == |q'| - |q| && nslen <= ns.Length && ns[..nslen] == q'[|q|..]
        invariant forall k | 0 <= k < b + e :: Done(request, inm, from, q'[k], base.outputs)
        invariant e == 0 ==> q' == q
      {
        var i := s[e];
        assert i == q[b..][e] == q'[b + e];
        ghost var from0, q0 := from, q';
        ok, found, nslen, t', q' := ScanRow(i, nslen, |q|, t', q');
        if !ok || found >= 0 { return; }
        assert q'[b + e] == q0[b + e] == i;
        DoneGrows(request, inm, from0, from, q0, q', b + e, base.outputs);
      }
      ok := true;
    }

    /** The first `h` inputs of the queue have had all of their requests followed. */
    ghost predicate AllDone(q: seq<int>, h: nat)
      reads this, base
    {
      h <= |q| && forall k | 0 <= k < h :: Done(base.request, base.inmatch, from, q[k], base.outputs)
    }

    /** `s` holds the inputs at the current depth, `q[b..]`; those before have been expanded. */
    ghost predicate AtDepth(slen: nat, b: nat, t: seq<nat>, q: seq<int>)
      requires Valid()
      reads this, base, s, ns
    {
      && Ready() && |from| == base.inputs
      && Searching(base.request, base.inmatch, base.outmatch, from, t, q)
      && b <= |q| && slen == |q| - b && slen <= s.Length
      && s[..slen] == q[b..]
      && AllDone(q, b)
    }

    /** Expands the current depth and goes on to the next. */
    method Deepen(slen: nat, ghost b: nat, ghost t: seq<nat>, ghost q: seq<int>)
      returns (ok: bool, found: int, nslen: nat, ghost b': nat, ghost t': seq<nat>, ghost q': seq<int>)
      requires Valid() && AtDepth(slen, b, t, q)
      modifies this`from, this`s, this`ns, ns
      ensures Valid() && {s, ns} == old({s, ns})
      ensures !ok ==> !FitsFrom(base.request, base.inputs)
      ensures -1 <= found
      ensures ok && found >= 0 ==> FreeEnd(t', found)
      ensures ok && found < 0 ==> AtDepth(nslen, b', t', q') && b' == |q| && (slen == 0 ==> nslen == 0)
    {
      b' := |q|;
      ok, found, nslen, t', q' := ExpandLevel(slen, b, t, q);
      if !ok || found >= 0 { return; }
      s, ns := ns, s;
    }

    /** Breadth-first search for an unassigned output. `inputs` rounds always exhaust it, since
        every round that is not the last takes at least one new input from the queue. */
    method Search() returns (ok: bool, found: int, ghost t: seq<nat>)
      requires Valid() && Ready()
      modifies this`from, this`s, this`ns, s, ns
      ensures Valid() && {s, ns} == old({s, ns})
      ensures !ok ==> !FitsFrom(base.request, base.inputs)
      ensures -1 <= found
      ensures ok && found >= 0 ==> FreeEnd(t, found)
      ensures ok && found < 0 ==> Maximum(base.inmatch, base.Edges())
    {
      var slen, q := PushUnassigned();
      found := -1;
      from := seq(base.inputs, _ => -1);
      t := seq(base.inputs, _ => 0);
      ghost var b: nat := 0;
      for iter := 0 to base.inputs
        invariant Valid() && {s, ns} == old({s, ns})
        invariant AtDepth(slen, b, t, q) && found == -1
        invariant slen == 0 || iter <= b
      {
        ok, found, slen, b, t, q := Deepen(slen, b, t, q);
        if !ok || found >= 0 { return; }
      }
      DistinctBound(q, base.inputs);
      ExhaustedIsMaximum(base.request, base.inmatch, base.outmatch, from, t, q);
      ok := true;
    }

    /** The path reversed from `end` down to output `j`, which names input `i` now. */
    ghost predicate Reversing(t: seq<nat>, inm0: seq<int>, outm0: seq<int>, i: int, j: int, end: int)
      reads this, base
    {
      && |base.inmatch| == base.inputs && |base.outmatch| == base.outputs
      && HalfFlipped(base.request, inm0, base.inmatch, base.outmatch, from, t, i, j)
      && SamePorts(inm0, outm0, base.inmatch, base.outmatch, end)
    }

    /** Gives output `j` to input `i`, and the output that `i` had to the input before it on the path. */
    method FlipEdge(i: int, j: int, ghost t: seq<nat>, ghost inm0: seq<int>, ghost outm0: seq<int>, ghost end: int)
      returns (i': int, j': int)
      requires Reversing(t, inm0, outm0, i, j, end) && base.inmatch[i] != -1
      modifies base`inmatch, base`outmatch
      ensures Reversing(t, inm0, outm0, i', j', end) && t[j'] < t[j]
    {
      FlipStep(base.request, inm0, outm0, base.inmatch, base.outmatch, from, t, i, j, end);
      j' := base.inmatch[i];
      base.inmatch := base.inmatch[i := j];
      i' := from[j'];
      base.outmatch := base.outmatch[j' := i'];
    }

    /** Reverses the path that ends at the unassigned output `end`: every port that was assigned
        stays assigned, and `end` and the root of the path become assigned too. */
    method Augment(end: int, ghost t: seq<nat>)
      requires Valid() && Ready() && FreeEnd(t, end)
      modifies base`inmatch, base`outmatch
      ensures Valid() && Ready()
      ensures exists i :: Grown(old(base.inmatch), old(base.outmatch), base.inmatch, base.outmatch, i, end)
    {
      ghost var inm0, outm0 := base.inmatch, base.outmatch;
      var j := end;
      var i := from[j];
      FirstFlip(base.request, inm0, outm0, from, t, end);
      assert base.dirty by { assert (i, end) in EdgesOf(base.request); }
      base.outmatch := base.outmatch[j := i];
      while base.inmatch[i] != -1
        invariant Reversing(t, inm0, outm0, i, j, end)
        decreases t[j]
      {
        i, j := FlipEdge(i, j, t, inm0, outm0, end);
      }
      LastFlip(base.request, inm0, outm0, base.inmatch, base.outmatch, from, t, i, j, end);
      base.inmatch := base.inmatch[i := j];
      assert Grown(inm0, outm0, base.inmatch, base.outmatch, i, end);
    }

    /** One augmentation: assigns one more pair, or finds that no assignment has more pairs. */
    method ShortestAugmenting() returns (ok: bool, grown: bool)
      requires Valid() && Ready()
      modifies this`from, this`s, this`ns, s, ns, base`inmatch, base`outmatch
      ensures Valid() && Ready() && {s, ns} == old({s, ns})
      ensures !ok ==> !FitsFrom(base.request, base.inputs)
      ensures grown ==> exists i, j :: Grown(old(base.inmatch), old(base.outmatch), base.inmatch, base.outmatch, i, j) && j < base.inputs
      ensures !grown ==> base.inmatch == old(base.inmatch) && base.outmatch == old(base.outmatch)
      ensures ok && !grown ==> Maximum(base.inmatch, base.Edges())
    {
      grown := false;
      var end;
      ghost var t;
      ok, end, t := Search();
      if !ok || end < 0 { return; }
      Augment(end, t);
      grown := true;
    }

    method AugmentAll() returns (ok: bool)
      requires Valid() && Ready()
      modifies this`from, this`s, this`ns, s, ns, base`inmatch, base`outmatch
      ensures Valid() && Ready() && {s, ns} == old({s, ns})
      ensures FitsFrom(base.request, base.inputs) ==> ok
      ensures ok ==> Maximum(base.inmatch, base.Edges())
      ensures OutputsBelow(old(base.outmatch), base.inputs) ==> OutputsBelow(base.outmatch, base.inputs)
      ensures Matched(old(base.inmatch)) <= Matched(base.inmatch)
      ensures Matched(old(base.outmatch)) <= Matched(base.outmatch)
    {
      ghost var inm0, outm0, n := base.inmatch, base.outmatch, base.inputs;
      var grown := true;
      while grown
        invariant Valid() && Ready() && {s, ns} == old({s, ns})
        invariant OutputsBelow(outm0, n) ==> OutputsBelow(base.outmatch, n)
        invariant Matched(inm0) <= Matched(base.inmatch) && Matched(outm0) <= Matched(base.outmatch)
        invariant !grown ==> Maximum(base.inmatch, base.Edges())
        decreases base.inputs - |Matched(base.inmatch)|, grown
      {
        ghost var inm, outm := base.inmatch, base.outmatch;
        ok, grown := ShortestAugmenting();
        if !ok { return; }
        if grown {
          ghost var i, j :| Grown(inm, outm, base.inmatch, base.outmatch, i, j) && j < n;
          GrownCounts(inm, outm, base.inmatch, base.outmatch);
        }
      }
      ok := true;
    }

    /** Assigns a maximum number of requested pairs, unless the scan of the requests leaves `from`.
        That cannot happen if no request lies in a column at or beyond the number of inputs; it must
        happen if a larger assignment needs such columns. Ports that were assigned stay assigned. */
    method Allocate() returns (ok: bool)
      requires Valid() && Ready()
      modifies this, s, ns, base`inmatch, base`outmatch
      ensures Valid() && Ready() && {s, ns} == old({s, ns})
      ensures FitsFrom(base.request, base.inputs) ==> ok
      ensures ok ==> Maximum(base.inmatch, base.Edges())
      ensures ok && OutputsBelow(old(base.outmatch), base.inputs) ==> !NeedsBeyond(base.Edges(), base.inputs)
      ensures Matched(old(base.inmatch)) <= Matched(base.inmatch)
      ensures Matched(old(base.outmatch)) <= Matched(base.outmatch)
      ensures ok ==> prio == (old(prio) + 1) % base.inputs
    {
      ok := AugmentAll();
      if !ok { return; }
      if OutputsBelow(base.outmatch, base.inputs) {
        MaximumWithin(base.inmatch, base.outmatch, base.Edges(), base.inputs);
      }
      prio := (prio + 1) % base.inputs;
    }
  }

  // ---------- shapes on which the scan stays inside ----------

  ghost predicate OutputsBelow(outm: seq<int>, n: int) {
    forall j | 0 <= j < |outm| && outm[j] != -1 :: j < n
  }

  /** Some matching is larger than every one inside the first `n` columns. */
  ghost predicate NeedsBeyond(edges: Edges, n: int) {
    exists m: Edges :: IsMatching(m, edges) &&
      forall m': Edges | IsMatching(m', edges) && InColumns(m', n) :: |m'| < |m|
  }

  ghost predicate InColumns(m: Edges, n: int) {
    forall e | e in m :: e.1 < n
  }

  /** A maximum assignment inside the first columns shows that no others are needed. */
  lemma MaximumWithin(inm: seq<int>, outm: seq<int>, edges: Edges, n: int)
    requires Consistent(inm, outm) && Within(inm, edges) && OutputsBelow(outm, n) && Maximum(inm, edges)
    ensures !NeedsBeyond(edges, n)
  {
    var own := AssignedIsMatching(inm, outm, edges);
    assert InColumns(own, n);
    forall m: Edges | IsMatching(m, edges) ensures |m| <= |own| && IsMatching(own, edges) && InColumns(own, n) { }
  }

  /** The matrix with the single request (i, j). */
  ghost function Single(inputs: nat, outputs: nat, i: nat, j: nat): Matrix {
    seq(inputs, x => seq(outputs, y => Request(-1, if x == i && y == j then 1 else -1, 0, 0)))
  }

  lemma SingleNeedsBeyond(inputs: nat, outputs: nat, i: nat, j: nat, n: int)
    requires i < inputs && n <= j < outputs
    ensures Shaped(Single(inputs, outputs, i, j), inputs, outputs) && EdgesOf(Single(inputs, outputs, i, j)) == {(i, j)}
    ensures NeedsBeyond(EdgesOf(Single(inputs, outputs, i, j)), n)
  {
    var edges := EdgesOf(Single(inputs, outputs, i, j));
    assert edges == {(i, j)};
    OnlyBeyond(i, j, n);
  }

  lemma OnlyBeyond(i: int, j: int, n: int)
    requires n <= j
    ensures NeedsBeyond({(i, j)}, n)
  {
    var edges: Edges := {(i, j)};
    assert IsMatching(edges, edges);
    forall m': Edges | IsMatching(m', edges) && InColumns(m', n) ensures |m'| < |edges| {
      if (i, j) in m' { assert false; }
      assert m' == {};
    }
  }

  /** Every request matrix of a shape is scanned inside `from` exactly if there are no more outputs
      than inputs: then all of them fit, and otherwise some need columns beyond. */
  lemma ShapeIsSafeIff(inputs: nat, outputs: nat)
    requires inputs > 0
    ensures outputs <= inputs <==> forall request | Shaped(request, inputs, outputs) :: FitsFrom(request, inputs)
    ensures outputs <= inputs <==> forall request | Shaped(request, inputs, outputs) :: !NeedsBeyond(EdgesOf(request), inputs)
  {
    if outputs <= inputs {
      forall request | Shaped(request, inputs, outputs) ensures !NeedsBeyond(EdgesOf(request), inputs) {
        FittingNeedsNone(request, inputs, outputs);
      }
    } else {
      SingleNeedsBeyond(inputs, outputs, 0, inputs, inputs);
      var request := Single(inputs, outputs, 0, inputs);
      assert Requested(request, 0, inputs);
      assert !FitsFrom(request, inputs);
    }
  }

  lemma FittingNeedsNone(request: Matrix, inputs: nat, outputs: nat)
    requires Shaped(request, inputs, outputs) && outputs <= inputs
    ensures !NeedsBeyond(EdgesOf(request), inputs)
  {
    EdgesRequested(request);
    var edges := EdgesOf(request);
    forall m: Edges | IsMatching(m, edges)
      ensures exists m': Edges :: IsMatching(m', edges) && InColumns(m', inputs) && |m'| >= |m|
    {
      assert InColumns(m, inputs);
    }
  }

  /** A single request beyond the inputs makes the first scan leave `from`; with one input, two
      outputs and the request (0, 1) it reads entry 1 of a sequence of length 1. */
  method LeavesFrom(inputs: nat, outputs: nat, i: nat, j: nat) returns (ok: bool)
    requires i < inputs <= j < outputs
    ensures !ok
  {
    var allocator := new MaxSizeMatch(inputs, outputs);
    allocator.base.AddRequest(i, j, 1, 0, 0);
    OnlyBeyond(i, j, inputs);
    assert allocator.base.Edges() == {(i as int, j as int)};
    ok := allocator.Allocate();
  }
}
