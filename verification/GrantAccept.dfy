/** One grant/accept iteration, as it is shared by iSLIP and PIM. */
module GrantAccept {
  import opened Matchings

  /** Input `i` may still be granted output `j`. */
  ghost predicate Eligible(edges: Edges, inm: seq<int>, outm: seq<int>, i: int, j: int) {
    (i, j) in edges && 0 <= i < |inm| && 0 <= j < |outm| && inm[i] == -1 && outm[j] == -1
  }

  /** Every output that could grant some input has done so. */
  ghost predicate GrantPhase(edges: Edges, inm: seq<int>, outm: seq<int>, grants: seq<int>) {
    && |grants| == |outm|
    && forall j | 0 <= j < |grants| ::
         if grants[j] == -1 then forall i :: !Eligible(edges, inm, outm, i, j)
         else Eligible(edges, inm, outm, grants[j], j)
  }

  /** Inputs below `c` have accepted `acc`, one of the outputs granting them if there is any. */
  ghost predicate AcceptPhase(grants: seq<int>, inm: seq<int>, outm: seq<int>,
                              acc: seq<int>, inm': seq<int>, outm': seq<int>, c: int) {
    && |grants| == |outm| == |outm'| && |acc| == |inm| == |inm'| && c <= |inm|
    && (forall i | 0 <= i < |acc| ::
          if acc[i] == -1 then i < c ==> forall j | 0 <= j < |grants| :: grants[j] != i
          else i < c && 0 <= acc[i] < |grants| && grants[acc[i]] == i)
    && (forall i | 0 <= i < |inm| :: inm'[i] == if acc[i] == -1 then inm[i] else acc[i])
    && (forall j | 0 <= j < |outm| ::
          outm'[j] == if 0 <= grants[j] < |acc| && acc[grants[j]] == j then grants[j] else outm[j])
  }

  lemma AcceptOne(grants: seq<int>, inm: seq<int>, outm: seq<int>,
                  acc: seq<int>, inm': seq<int>, outm': seq<int>, i: int, j: int)
    requires AcceptPhase(grants, inm, outm, acc, inm', outm', i)
    requires 0 <= i < |inm| && 0 <= j < |grants| && grants[j] == i
    ensures AcceptPhase(grants, inm, outm, acc[i := j], inm'[i := j], outm'[j := i], i + 1)
  {
    assert acc[i] == -1;
  }

  /** What an iteration does to the assignment: it stays consistent and inside the requests, no
      port is unassigned, and unless the assignment was already maximal it grows. */
  lemma IterationGrows(edges: Edges, inm: seq<int>, outm: seq<int>, grants: seq<int>,
                       acc: seq<int>, inm': seq<int>, outm': seq<int>)
    requires Consistent(inm, outm) && Within(inm, edges)
    requires GrantPhase(edges, inm, outm, grants)
    requires AcceptPhase(grants, inm, outm, acc, inm', outm', |inm|)
    ensures Consistent(inm', outm') && Within(inm', edges)
    ensures Matched(inm) <= Matched(inm') && Matched(outm) <= Matched(outm')
    ensures Maximal(inm, outm, edges) || |Matched(inm')| > |Matched(inm)|
    ensures Maximal(inm, outm, edges) ==> inm' == inm && outm' == outm
    ensures forall i | 0 <= i < |inm| && inm[i] != -1 :: inm'[i] == inm[i]
  {
    IterationConsistent(edges, inm, outm, grants, acc, inm', outm', |inm|);
    if !Maximal(inm, outm, edges) {
      var e :| e in edges && 0 <= e.0 < |inm| && 0 <= e.1 < |outm| && inm[e.0] == -1 && outm[e.1] == -1;
      SomeAccepts(edges, inm, outm, grants, acc, inm', outm', e.0, e.1);
    }
  }

  /** As long as one pair is eligible, some input accepts. */
  lemma SomeAccepts(edges: Edges, inm: seq<int>, outm: seq<int>, grants: seq<int>,
                    acc: seq<int>, inm': seq<int>, outm': seq<int>, x: int, j: int)
    requires GrantPhase(edges, inm, outm, grants)
    requires AcceptPhase(grants, inm, outm, acc, inm', outm', |inm|)
    requires Matched(inm) <= Matched(inm') && Eligible(edges, inm, outm, x, j)
    ensures |Matched(inm')| > |Matched(inm)|
  {
    var i := grants[j];
    assert i in Matched(inm') && i !in Matched(inm);
    SubsetSize(Matched(inm) + {i}, Matched(inm'));
  }

  lemma IterationConsistent(edges: Edges, inm: seq<int>, outm: seq<int>, grants: seq<int>,
                            acc: seq<int>, inm': seq<int>, outm': seq<int>, c: int)
    requires Consistent(inm, outm) && Within(inm, edges)
    requires GrantPhase(edges, inm, outm, grants)
    requires AcceptPhase(grants, inm, outm, acc, inm', outm', c)
    ensures Consistent(inm', outm') && Within(inm', edges)
  {
    forall i | 0 <= i < |inm'|
      ensures inm'[i] == -1 || (0 <= inm'[i] < |outm'| && outm'[inm'[i]] == i && (i, inm'[i]) in edges)
    {
      if acc[i] != -1 {
        assert Eligible(edges, inm, outm, i, acc[i]);
      } else if inm[i] != -1 {
        assert grants[inm[i]] == -1;
      }
    }
  }

  /** After as many iterations as there are ports on the smaller side nothing can be added. */
  lemma FullIsMaximal(inm: seq<int>, outm: seq<int>, edges: Edges)
    requires Consistent(inm, outm)
    requires |Matched(inm)| >= |inm| || |Matched(inm)| >= |outm|
    ensures Maximal(inm, outm, edges)
  {
    if |Matched(inm)| >= |inm| {
      FullIsAll(inm);
    } else {
      MatchedSidesAgree(inm, outm);
      FullIsAll(outm);
    }
  }

  lemma FullIsAll(v: seq<int>)
    requires |Matched(v)| >= |v|
    ensures forall i | 0 <= i < |v| :: v[i] != -1
  {
    var all := Interval(|v|);
    if i :| 0 <= i < |v| && v[i] == -1 {
      SubsetSize(Matched(v), all - {i});
    }
  }

  /** As many inputs as outputs are assigned. */
  lemma MatchedSidesAgree(inm: seq<int>, outm: seq<int>)
    requires Consistent(inm, outm)
    ensures |Matched(inm)| == |Matched(outm)|
  {
    MatchedSideBound(inm, outm);
    MatchedSideBound(outm, inm);
  }

  lemma MatchedSideBound(inm: seq<int>, outm: seq<int>)
    requires Consistent(inm, outm)
    ensures |Matched(inm)| <= |Matched(outm)|
  {
    var pairs := set i | i in Matched(inm) :: (i, inm[i]);
    forall i | i in Matched(inm) ensures exists e :: e in pairs && e.0 == i {
      assert (i, inm[i]) in pairs;
    }
    CoverBound(Matched(inm), pairs);
    OutputsBound(pairs, Matched(outm));
  }

  /** An assignment to which nothing can be added has at least half the pairs of any matching. */
  lemma MaximalIsHalf(inm: seq<int>, outm: seq<int>, edges: Edges, m: Edges)
    requires Consistent(inm, outm) && InRange(edges, |inm|, |outm|) && Maximal(inm, outm, edges)
    requires IsMatching(m, edges)
    ensures |m| <= 2 * |Matched(inm)|
  {
    CoverBoundsMatching(m, Matched(inm), Matched(outm));
    MatchedSidesAgree(inm, outm);
  }
}
