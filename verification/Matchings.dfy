/** Bipartite matchings between allocator inputs and outputs.

    An allocator stores a matching twice: `inm[i]` is the output assigned to input `i`
    and `outm[j]` the input assigned to output `j`, with -1 for "unassigned".
    The request graph is a set of (input, output) pairs. */
module Matchings {

  type Edges = set<(int, int)>

  /** A request: the port on the other side, its tag, and its priorities at input and output. */
  datatype Request = Request(port: int, tag: int, inPri: int, outPri: int)

  /** The two vectors are each other's inverse. */
  ghost predicate Consistent(inm: seq<int>, outm: seq<int>) {
    && (forall i | 0 <= i < |inm| :: inm[i] == -1 || (0 <= inm[i] < |outm| && outm[inm[i]] == i))
    && (forall j | 0 <= j < |outm| :: outm[j] == -1 || (0 <= outm[j] < |inm| && inm[outm[j]] == j))
  }

  /** No port is assigned. */
  ghost predicate AllFree(v: seq<int>) {
    forall i | 0 <= i < |v| :: v[i] == -1
  }

  /** Every assigned pair was requested. */
  ghost predicate Within(inm: seq<int>, edges: Edges) {
    forall i | 0 <= i < |inm| && inm[i] != -1 :: (i, inm[i]) in edges
  }

  ghost predicate InRange(edges: Edges, inputs: int, outputs: int) {
    forall e | e in edges :: 0 <= e.0 < inputs && 0 <= e.1 < outputs
  }

  ghost function Matched(inm: seq<int>): set<int> {
    set i | 0 <= i < |inm| && inm[i] != -1
  }

  /** Reference definition: a set of requests no two of which share a port. */
  ghost predicate IsMatching(m: Edges, edges: Edges) {
    && m <= edges
    && forall e, f | e in m && f in m && e != f :: e.0 != f.0 && e.1 != f.1
  }

  /** No matching of the request graph has more pairs. */
  ghost predicate Maximum(inm: seq<int>, edges: Edges) {
    forall m: Edges | IsMatching(m, edges) :: |m| <= |Matched(inm)|
  }

  /** No request joins two unassigned ports. */
  ghost predicate Maximal(inm: seq<int>, outm: seq<int>, edges: Edges) {
    forall e | e in edges && 0 <= e.0 < |inm| && 0 <= e.1 < |outm| ::
      inm[e.0] != -1 || outm[e.1] != -1
  }

  /** Position of port `x` in a scan of `n` ports that starts at `offset` and wraps around. */
  function Turn(x: int, offset: int, n: int): int {
    if x >= offset then x - offset else x - offset + n
  }

  /** The port whose turn is the `i`-th. */
  function InTurn(i: int, prio: int, n: int): int {
    if i + prio < n then i + prio else i + prio - n
  }

  lemma TurnIs(i: int, prio: int, n: int)
    requires 0 <= i < n && 0 <= prio < n
    ensures 0 <= InTurn(i, prio, n) < n
    ensures forall x | 0 <= x < n :: Turn(x, prio, n) == i <==> x == InTurn(i, prio, n)
  {
  }

  lemma TurnOf(i: int, prio: int, n: int)
    requires 0 <= i < n && 0 <= prio < n
    ensures (i + prio) % n == InTurn(i, prio, n)
    ensures 0 <= (i + prio) % n < n
    ensures forall x | 0 <= x < n :: Turn(x, prio, n) == i <==> x == (i + prio) % n
  {
    Wrap(i + prio, n);
    TurnIs(i, prio, n);
  }

  lemma Wrap(x: int, n: int)
    requires 0 <= x < 2 * n
    ensures x % n == if x < n then x else x - n
  {
  }

  ghost predicate Distinct(q: seq<int>) {
    forall a, b | 0 <= a < b < |q| :: q[a] != q[b]
  }

  ghost predicate AllBelow(q: seq<int>, n: int) {
    forall a | 0 <= a < |q| :: 0 <= q[a] < n
  }

  ghost function Interval(n: nat): (s: set<int>)
    ensures forall x :: x in s <==> 0 <= x < n
    ensures |s| == n
  {
    if n == 0 then {} else Interval(n - 1) + {n - 1}
  }

  lemma {:induction false} DistinctSize(q: seq<int>)
    requires Distinct(q)
    ensures |set a | 0 <= a < |q| :: q[a]| == |q|
  {
    if q != [] {
      var p := q[..|q| - 1];
      DistinctSize(p);
      var x := q[|q| - 1];
      var P := set a | 0 <= a < |p| :: p[a];
      var Q := set a | 0 <= a < |q| :: q[a];
      forall y | y in Q ensures y in P + {x} {
        var a :| 0 <= a < |q| && q[a] == y;
        if a < |p| { assert p[a] == y; }
      }
      forall y | y in P + {x} ensures y in Q {
        if y in P {
          var a :| 0 <= a < |p| && p[a] == y;
          assert q[a] == y;
        }
      }
      assert Q == P + {x};
    }
  }

  ghost function Any<T>(s: set<T>): (x: T)
    requires s != {}
    ensures x in s
  {
    var x :| x in s; x
  }

  lemma SubsetSize(a: set<int>, b: set<int>)
    requires a <= b
    ensures |a| <= |b|
  {
    assert b == a + (b - a);
  }

  /** Pigeonhole: distinct ports below `n` number at most `n`. */
  lemma DistinctBound(q: seq<int>, n: nat)
    requires Distinct(q) && AllBelow(q, n)
    ensures |q| <= n
  {
    DistinctSize(q);
    SubsetSize(set a | 0 <= a < |q| :: q[a], Interval(n));
  }

  /** A matching has at most as many pairs as any set holding all of its inputs. */
  lemma {:induction false} InputsBound(m: Edges, inputs: set<int>)
    requires forall e, f | e in m && f in m && e != f :: e.0 != f.0
    requires forall e | e in m :: e.0 in inputs
    ensures |m| <= |inputs|
  {
    if m != {} {
      var e :| e in m;
      InputsBound(m - {e}, inputs - {e.0});
    }
  }

  /** A matching has at most as many pairs as any set holding all of its outputs. */
  lemma {:induction false} OutputsBound(m: Edges, outputs: set<int>)
    requires forall e, f | e in m && f in m && e != f :: e.1 != f.1
    requires forall e | e in m :: e.1 in outputs
    ensures |m| <= |outputs|
  {
    if m != {} {
      var e :| e in m;
      OutputsBound(m - {e}, outputs - {e.1});
    }
  }

  /** A matching has at most as many pairs as there are ports covering all of them. */
  lemma CoverBoundsMatching(m: Edges, inputs: set<int>, outputs: set<int>)
    requires forall e, f | e in m && f in m && e != f :: e.0 != f.0 && e.1 != f.1
    requires forall e | e in m :: e.0 in inputs || e.1 in outputs
    ensures |m| <= |inputs| + |outputs|
  {
    var m0 := set e | e in m && e.0 in inputs;
    InputsBound(m0, inputs);
    OutputsBound(m - m0, outputs);
    assert m == m0 + (m - m0);
  }

  /** The assigned inputs, paired with their outputs, form a matching in the reference sense. */
  lemma AssignedIsMatching(inm: seq<int>, outm: seq<int>, edges: Edges) returns (m: Edges)
    requires Consistent(inm, outm) && Within(inm, edges)
    ensures IsMatching(m, edges) && |m| == |Matched(inm)|
    ensures m == set i | i in Matched(inm) :: (i, inm[i])
  {
    m := set i | i in Matched(inm) :: (i, inm[i]);
    InputsBound(m, Matched(inm));
    CoverBound(Matched(inm), m);
  }

  lemma {:induction false} CoverBound(s: set<int>, m: Edges)
    requires forall i | i in s :: exists e :: e in m && e.0 == i
    ensures |s| <= |m|
  {
    if s != {} {
      var i := Any(s);
      var e :| e in m && e.0 == i;
      CoverBound(s - {i}, m - {e});
    }
  }
}
