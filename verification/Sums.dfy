/** Sums over sequences of counters. */
module Sums {

  function Sum(s: seq<int>): int {
    if s == [] then 0 else Sum(s[..|s| - 1]) + s[|s| - 1]
  }

  lemma {:induction false} SumUpdate(s: seq<int>, i: nat, v: int)
    requires i < |s|
    ensures Sum(s[i := v]) == Sum(s) - s[i] + v
  {
    var l := |s| - 1;
    if i == l {
      assert s[i := v][..l] == s[..l];
    } else {
      assert s[i := v][..l] == s[..l][i := v];
      SumUpdate(s[..l], i, v);
    }
  }

  lemma {:induction false} SumBounds(s: seq<int>, t: seq<int>)
    requires |s| == |t| && forall i | 0 <= i < |s| :: s[i] <= t[i]
    ensures Sum(s) <= Sum(t)
  {
    if s != [] { SumBounds(s[..|s| - 1], t[..|t| - 1]); }
  }

  lemma {:induction false} SumConstant(s: seq<int>, c: int)
    requires forall i | 0 <= i < |s| :: s[i] == c
    ensures Sum(s) == |s| * c
  {
    if s != [] { SumConstant(s[..|s| - 1], c); }
  }

  /** Sum of `a[v] + b[v]` over the positions `v` with `group[v] == g`. */
  function GroupSum(group: seq<int>, a: seq<int>, b: seq<int>, g: int): int
    requires |group| == |a| == |b|
  {
    if group == [] then 0
    else
      var l := |group| - 1;
      GroupSum(group[..l], a[..l], b[..l], g) + (if group[l] == g then a[l] + b[l] else 0)
  }

  lemma {:induction false} GroupSumUpdate(group: seq<int>, a: seq<int>, b: seq<int>, g: int, i: nat, x: int, y: int)
    requires |group| == |a| == |b| && i < |a|
    ensures GroupSum(group, a[i := x], b[i := y], g) ==
            GroupSum(group, a, b, g) + (if group[i] == g then x + y - a[i] - b[i] else 0)
  {
    var l := |group| - 1;
    if i == l {
      assert a[i := x][..l] == a[..l] && b[i := y][..l] == b[..l];
    } else {
      assert a[i := x][..l] == a[..l][i := x] && b[i := y][..l] == b[..l][i := y];
      GroupSumUpdate(group[..l], a[..l], b[..l], g, i, x, y);
    }
  }

  /** The group sums add up to the sum of everything. */
  lemma {:induction false} GroupsAddUp(group: seq<int>, a: seq<int>, b: seq<int>, groups: seq<int>)
    requires |group| == |a| == |b| && forall v | 0 <= v < |group| :: 0 <= group[v] < |groups|
    requires forall g | 0 <= g < |groups| :: groups[g] == GroupSum(group, a, b, g)
    ensures Sum(groups) == Sum(a) + Sum(b)
  {
    if group == [] {
      SumConstant(groups, 0);
    } else {
      var l := |group| - 1;
      var fewer := groups[group[l] := groups[group[l]] - a[l] - b[l]];
      GroupsAddUp(group[..l], a[..l], b[..l], fewer);
      SumUpdate(groups, group[l], groups[group[l]] - a[l] - b[l]);
    }
  }

  function Excess(occ: seq<int>, size: seq<int>): int
    requires |occ| == |size|
  {
    if occ == [] then 0
    else
      var l := |occ| - 1;
      Excess(occ[..l], size[..l]) + (if occ[l] > size[l] then occ[l] - size[l] else 0)
  }

  lemma {:induction false} ExcessUpdate(occ: seq<int>, size: seq<int>, i: nat, x: int)
    requires |occ| == |size| && i < |occ|
    ensures Excess(occ[i := x], size) ==
            Excess(occ, size) - (if occ[i] > size[i] then occ[i] - size[i] else 0) + (if x > size[i] then x - size[i] else 0)
  {
    var l := |occ| - 1;
    if i == l {
      assert occ[i := x][..l] == occ[..l];
    } else {
      assert occ[i := x][..l] == occ[..l][i := x];
      ExcessUpdate(occ[..l], size[..l], i, x);
    }
  }

  lemma {:induction false} ExcessBounds(occ: seq<int>, size: seq<int>)
    requires |occ| == |size|
    ensures Sum(occ) <= Sum(size) + Excess(occ, size) && 0 <= Excess(occ, size)
  {
    if occ != [] {
      ExcessBounds(occ[..|occ| - 1], size[..|occ| - 1]);
    }
  }
}
