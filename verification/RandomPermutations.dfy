/** The random permutation of destinations: the i-th draw picks the free place that gets value i. */
module RandomPermutations {
  import opened Matchings

  /** Free places among the first `j`. */
  function FreeBelow(d: seq<int>, j: nat): (r: nat)
    requires j <= |d|
    ensures r <= j
  {
    if j == 0 then 0 else FreeBelow(d, j - 1) + if d[j - 1] == -1 then 1 else 0
  }

  /** The free place with exactly `ind` free places before it. */
  function NthFree(d: seq<int>, ind: nat): (j: nat)
    requires ind < FreeBelow(d, |d|)
    ensures j < |d| && d[j] == -1 && FreeBelow(d, j) == ind
  {
    Search(d, ind, |d|)
  }

  function Search(d: seq<int>, ind: nat, n: nat): (j: nat)
    requires n <= |d| && ind < FreeBelow(d, n)
    ensures j < n && d[j] == -1 && FreeBelow(d, j) == ind
  {
    if ind == FreeBelow(d, n - 1) then n - 1 else Search(d, ind, n - 1)
  }

  ghost predicate Legal(n: nat, draws: seq<nat>) {
    |draws| == n && forall i | 0 <= i < n :: draws[i] <= n - 1 - i
  }

  /** The places after the first `i` draws. */
  ghost function Placed(n: nat, draws: seq<nat>, i: nat): (d: seq<int>)
    requires Legal(n, draws) && i <= n
    ensures |d| == n && FreeBelow(d, n) == n - i
    ensures forall j | 0 <= j < n :: -1 <= d[j] < i
    decreases i
  {
    if i == 0 then
      FreeAtFirst(n, n);
      seq(n, _ => -1)
    else
      var d := Placed(n, draws, i - 1);
      var j := NthFree(d, draws[i - 1]);
      FreeFill(d, j, i - 1, n);
      d[j := i - 1]
  }

  lemma {:induction false} FreeAtFirst(n: nat, j: nat)
    requires j <= n
    ensures FreeBelow(seq(n, _ => -1), j) == j
  {
    if j > 0 { FreeAtFirst(n, j - 1); }
  }

  lemma {:induction false} FreeFill(d: seq<int>, j: nat, v: int, n: nat)
    requires j < |d| && n <= |d| && d[j] == -1 && v != -1
    ensures FreeBelow(d[j := v], n) == FreeBelow(d, n) - if j < n then 1 else 0
  {
    if n > 0 { FreeFill(d, j, v, n - 1); }
  }

  lemma {:induction false} FreeGrows(d: seq<int>, i: nat, j: nat)
    requires i < j <= |d| && d[i] == -1
    ensures FreeBelow(d, i) < FreeBelow(d, j)
  {
    if i < j - 1 { FreeGrows(d, i, j - 1); }
  }

  /** Each value below |p| stands in exactly one place. */
  ghost predicate Permutation(p: seq<int>) {
    && (forall j | 0 <= j < |p| :: 0 <= p[j] < |p|)
    && (forall i, j | 0 <= i < j < |p| :: p[i] != p[j])
  }

  class RandomPermutation {
    const nodes: nat
    var dest: seq<int>

    constructor (nodes: nat)
      ensures this.nodes == nodes && |dest| == nodes
    {
      this.nodes := nodes;
      dest := seq(nodes, _ => -1);
    }

    /** `draws` are the numbers that the random generator returns. */
    method Randomize(draws: seq<nat>)
      requires Legal(nodes, draws)
      modifies `dest
      ensures dest == Placed(nodes, draws, nodes) && Permutation(dest)
    {
      dest := seq(nodes, _ => -1);
      for i := 0 to nodes
        invariant dest == Placed(nodes, draws, i)
      {
        var ind := draws[i];
        var j, cnt := 0, 0;
        while cnt < ind || dest[j] != -1
          invariant 0 <= j < nodes && cnt == FreeBelow(dest, j) <= ind
          decreases nodes - j
        {
          if dest[j] == -1 {
            cnt := cnt + 1;
          }
          j := j + 1;
          // the search never runs past the last place
          assert j < nodes;
        }
        PlaceIs(dest, ind, j);
        dest := dest[j := i];
      }
      PlacedPermutes(nodes, draws);
    }
  }

  lemma PlaceIs(d: seq<int>, ind: nat, j: nat)
    requires ind < FreeBelow(d, |d|) && j < |d| && d[j] == -1 && FreeBelow(d, j) == ind
    ensures NthFree(d, ind) == j
  {
    var k := NthFree(d, ind);
    if j < k { FreeGrows(d, j, k); }
    if k < j { FreeGrows(d, k, j); }
  }

  /** The values below `i` of a permutation in their places. */
  ghost function Restrict(p: seq<int>, i: nat): seq<int> {
    seq(|p|, j requires 0 <= j < |p| => if 0 <= p[j] < i then p[j] else -1)
  }

  lemma {:induction false} PlacedStays(n: nat, draws: seq<nat>, i: nat, m: nat)
    requires Legal(n, draws) && i <= m <= n
    ensures Placed(n, draws, i) == Restrict(Placed(n, draws, m), i)
    decreases m
  {
    if i < m {
      PlacedStays(n, draws, i, m - 1);
      var d := Placed(n, draws, m - 1);
      RestrictUpdate(d, NthFree(d, draws[m - 1]), m - 1, i);
    }
  }

  lemma RestrictUpdate(p: seq<int>, j: nat, v: int, i: nat)
    requires j < |p| && p[j] == -1 && i <= v
    ensures Restrict(p[j := v], i) == Restrict(p, i)
  {
  }

  /** Value `v` stands where its draw has put it. */
  lemma StandsAt(n: nat, draws: seq<nat>, j: nat, v: nat)
    requires Legal(n, draws) && j < n && Placed(n, draws, n)[j] == v
    ensures j == NthFree(Placed(n, draws, v), draws[v])
  {
    var p := Placed(n, draws, n);
    PlacedStays(n, draws, v, n);
    PlacedStays(n, draws, v + 1, n);
    assert Restrict(p, v)[j] == -1 && Restrict(p, v + 1)[j] == v;
  }

  lemma PlacedPermutes(n: nat, draws: seq<nat>)
    requires Legal(n, draws)
    ensures Permutation(Placed(n, draws, n))
  {
    var p := Placed(n, draws, n);
    forall j | 0 <= j < n ensures p[j] >= 0 && j == NthFree(Placed(n, draws, p[j]), draws[p[j]]) {
      NoneFree(p, j, n);
      StandsAt(n, draws, j, p[j]);
    }
  }

  lemma {:induction false} NoneFree(d: seq<int>, j: nat, n: nat)
    requires j < n <= |d| && FreeBelow(d, n) == 0
    ensures d[j] != -1
  {
    if j < n - 1 { NoneFree(d, j, n - 1); }
  }

  /** Where value `v` stands. */
  ghost function Place(p: seq<int>, v: int): (j: nat)
    requires v in p
    ensures j < |p| && p[j] == v
  {
    var j :| 0 <= j < |p| && p[j] == v; j
  }

  lemma EveryValue(p: seq<int>, v: int)
    requires Permutation(p) && 0 <= v < |p|
    ensures v in p
  {
    var values := set a | 0 <= a < |p| :: p[a];
    DistinctSize(p);
    if v !in p {
      SubsetSize(values, Interval(|p|) - {v});
    }
  }

  /** One value more fills the free place in which it stands. */
  lemma RestrictFill(p: seq<int>, i: nat)
    requires Permutation(p) && i < |p|
    ensures i in p && Restrict(p, i)[Place(p, i)] == -1
    ensures Restrict(p, i + 1) == Restrict(p, i)[Place(p, i) := i]
  {
    EveryValue(p, i);
  }

  lemma {:induction false} RestrictFree(p: seq<int>, i: nat)
    requires Permutation(p) && i <= |p|
    ensures FreeBelow(Restrict(p, i), |p|) == |p| - i
  {
    if i == 0 {
      FreeAtFirst(|p|, |p|);
      assert Restrict(p, 0) == seq(|p|, _ => -1);
    } else {
      RestrictFree(p, i - 1);
      RestrictFill(p, i - 1);
      FreeFill(Restrict(p, i - 1), Place(p, i - 1), i - 1, |p|);
    }
  }

  /** The draw that puts value `i` where it stands. */
  ghost function DrawOf(p: seq<int>, i: nat): (r: nat)
    requires Permutation(p) && i < |p|
    ensures r <= |p| - 1 - i
  {
    RestrictFill(p, i);
    RestrictFree(p, i);
    FreeGrows(Restrict(p, i), Place(p, i), |p|);
    FreeBelow(Restrict(p, i), Place(p, i))
  }

  ghost function DrawsOf(p: seq<int>): (draws: seq<nat>)
    requires Permutation(p)
    ensures Legal(|p|, draws)
  {
    seq(|p|, i requires 0 <= i < |p| => DrawOf(p, i))
  }

  lemma {:induction false} PlacedIsRestrict(p: seq<int>, i: nat)
    requires Permutation(p) && i <= |p|
    ensures Placed(|p|, DrawsOf(p), i) == Restrict(p, i)
  {
    if i > 0 {
      PlacedIsRestrict(p, i - 1);
      RestrictFill(p, i - 1);
      RestrictFree(p, i - 1);
      FreeGrows(Restrict(p, i - 1), Place(p, i - 1), |p|);
      PlaceIs(Restrict(p, i - 1), DrawsOf(p)[i - 1], Place(p, i - 1));
    }
  }

  /** Every permutation comes from some draws. */
  lemma EveryPermutation(p: seq<int>)
    requires Permutation(p)
    ensures Legal(|p|, DrawsOf(p)) && Placed(|p|, DrawsOf(p), |p|) == p
  {
    PlacedIsRestrict(p, |p|);
    assert Restrict(p, |p|) == p;
  }

  /** The draws can be read off the permutation; so no two sequences of draws give the same one,
      and equally likely draws make all permutations equally likely. */
  lemma DrawsDetermined(n: nat, draws: seq<nat>)
    requires Legal(n, draws)
    ensures Permutation(Placed(n, draws, n)) && DrawsOf(Placed(n, draws, n)) == draws
  {
    PlacedPermutes(n, draws);
    var p := Placed(n, draws, n);
    forall i | 0 <= i < n ensures DrawsOf(p)[i] == draws[i] {
      DrawDetermined(n, draws, i);
    }
  }

  lemma DrawDetermined(n: nat, draws: seq<nat>, i: nat)
    requires Legal(n, draws) && i < n && Permutation(Placed(n, draws, n))
    ensures DrawOf(Placed(n, draws, n), i) == draws[i]
  {
    var p := Placed(n, draws, n);
    PlacedStays(n, draws, i, n);
    EveryValue(p, i);
    StandsAt(n, draws, Place(p, i), i);
  }
}
