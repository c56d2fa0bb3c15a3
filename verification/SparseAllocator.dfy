/** The doubly indexed request store of the sparse allocators. */
module SparseAllocators {
  import opened Matchings

  /** An ordered map from port to request; `n` bounds its keys. */
  type Row = map<int, Request>

  ghost predicate Keyed(row: Row, n: int) {
    forall k | k in row :: 0 <= k < n && row[k].port == k
  }

  /** Least key not below `k`; `n` stands for the end of the row. */
  function Next(row: Row, k: int, n: int): (r: int)
    requires k <= n
    ensures k <= r <= n && (r < n ==> r in row)
    ensures forall x | k <= x < r :: x !in row
    decreases n - k
  {
    if k == n || k in row then k else Next(row, k + 1, n)
  }

  /** The two indices hold the same requests, seen from either side. */
  ghost predicate Mirrored(inReq: seq<Row>, outReq: seq<Row>) {
    && (forall i | 0 <= i < |inReq| :: Keyed(inReq[i], |outReq|))
    && (forall j | 0 <= j < |outReq| :: Keyed(outReq[j], |inReq|))
    && (forall i, j | 0 <= i < |inReq| && 0 <= j < |outReq| :: j in inReq[i] <==> i in outReq[j])
    && (forall i, j | 0 <= i < |inReq| && 0 <= j < |outReq| && j in inReq[i] ::
          outReq[j][i] == inReq[i][j].(port := i))
  }

  ghost predicate Occupied(occ: set<int>, rows: seq<Row>) {
    forall i :: i in occ <==> 0 <= i < |rows| && rows[i] != map[]
  }

  lemma MirrorAdd(inReq: seq<Row>, outReq: seq<Row>, i: int, j: int, req: Request)
    requires Mirrored(inReq, outReq)
    requires 0 <= i < |inReq| && 0 <= j < |outReq| && req.port == j
    ensures Mirrored(inReq[i := inReq[i][j := req]], outReq[j := outReq[j][i := req.(port := i)]])
  {
  }

  lemma OccupiedAdd(occ: set<int>, rows: seq<Row>, i: int, k: int, req: Request)
    requires Occupied(occ, rows) && 0 <= i < |rows|
    ensures Occupied(if rows[i] == map[] then occ + {i} else occ, rows[i := rows[i][k := req]])
  {
    assert k in rows[i][k := req];
  }

  lemma MirrorRemove(inReq: seq<Row>, outReq: seq<Row>, i: int, j: int)
    requires Mirrored(inReq, outReq)
    requires 0 <= i < |inReq| && 0 <= j < |outReq|
    ensures Mirrored(inReq[i := inReq[i] - {j}], outReq[j := outReq[j] - {i}])
  {
  }

  lemma OccupiedRemove(occ: set<int>, rows: seq<Row>, i: int, k: int)
    requires Occupied(occ, rows) && 0 <= i < |rows| && k in rows[i]
    ensures Occupied(if rows[i] - {k} == map[] then occ - {i} else occ, rows[i := rows[i] - {k}])
  {
  }

  /** The requests of all inputs as a set of pairs. */
  ghost function EdgesOf(inReq: seq<Row>): Edges {
    set i, j | 0 <= i < |inReq| && j in inReq[i] :: (i, j)
  }

  lemma EdgeOf(inReq: seq<Row>, e: (int, int))
    ensures e in EdgesOf(inReq) <==> 0 <= e.0 < |inReq| && e.1 in inReq[e.0]
  {
    var (i, j) := e;
    assert e == (i, j);
  }

  lemma EdgesAdd(inReq: seq<Row>, i: int, j: int, req: Request)
    requires 0 <= i < |inReq|
    ensures EdgesOf(inReq[i := inReq[i][j := req]]) == EdgesOf(inReq) + {(i, j)}
  {
    var r := inReq[i := inReq[i][j := req]];
    forall e ensures e in EdgesOf(r) <==> e in EdgesOf(inReq) + {(i, j)} {
      EdgeOf(r, e);
      EdgeOf(inReq, e);
    }
  }

  lemma EdgesRemove(inReq: seq<Row>, i: int, j: int)
    requires 0 <= i < |inReq|
    ensures EdgesOf(inReq[i := inReq[i] - {j}]) == EdgesOf(inReq) - {(i, j)}
  {
    var r := inReq[i := inReq[i] - {j}];
    forall e ensures e in EdgesOf(r) <==> e in EdgesOf(inReq) - {(i, j)} {
      EdgeOf(r, e);
      EdgeOf(inReq, e);
    }
  }

  /** Clears the rows that are not empty. */
  method EmptyRows(rows: seq<Row>) returns (r: seq<Row>)
    ensures |r| == |rows| && forall i | 0 <= i < |r| :: r[i] == map[]
  {
    r := rows;
    for i := 0 to |rows|
      invariant |r| == |rows| && forall x | 0 <= x < i :: r[x] == map[]
    {
      if r[i] != map[] {
        r := r[i := map[]];
      }
    }
  }

  class SparseAllocator {
    const inputs: nat
    const outputs: nat
    var inmatch: seq<int>
    var outmatch: seq<int>
    var dirty: bool
    var inReq: seq<Row>      // requests of each input, by output
    var outReq: seq<Row>     // requests for each output, by input
    var inOcc: set<int>      // inputs with requests
    var outOcc: set<int>     // outputs with requests

    ghost predicate Valid()
      reads this
    {
      && |inmatch| == |inReq| == inputs && |outmatch| == |outReq| == outputs
      && Consistent(inmatch, outmatch)
      && Mirrored(inReq, outReq)
      && Occupied(inOcc, inReq) && Occupied(outOcc, outReq)
      && (!dirty ==> AllFree(inmatch) && AllFree(outmatch) && Edges() == {})
    }

    /** The request matrix that both indices stand for. */
    ghost function Edges(): Edges
      reads this
    {
      EdgesOf(inReq)
    }

    constructor (inputs: nat, outputs: nat)
      ensures Valid() && this.inputs == inputs && this.outputs == outputs
      ensures Edges() == {} && AllFree(inmatch) && AllFree(outmatch)
    {
      this.inputs, this.outputs := inputs, outputs;
      inmatch := seq(inputs, _ => -1);
      outmatch := seq(outputs, _ => -1);
      dirty := false;
      inReq := seq(inputs, _ => map[]);
      outReq := seq(outputs, _ => map[]);
      inOcc, outOcc := {}, {};
    }

    method Clear()
      requires Valid()
      modifies this
      ensures Valid() && Edges() == {}
      ensures AllFree(inmatch) && AllFree(outmatch)
    {
      inReq := EmptyRows(inReq);
      outReq := EmptyRows(outReq);
      inOcc, outOcc := {}, {};
      if dirty {
        inmatch := seq(inputs, _ => -1);
        outmatch := seq(outputs, _ => -1);
        dirty := false;
      }
    }

    method AddRequest(input: int, output: int, tag: int, inPri: int, outPri: int)
      requires Valid()
      requires 0 <= input < inputs && 0 <= output < outputs && tag >= 0
      requires (input, output) !in Edges()
      modifies this
      ensures Valid() && inmatch == old(inmatch) && outmatch == old(outmatch)
      ensures Edges() == old(Edges()) + {(input, output)}
      ensures output in inReq[input] && inReq[input][output] == Request(output, tag, inPri, outPri)
    {
      var req := Request(output, tag, inPri, outPri);
      MirrorAdd(inReq, outReq, input, output, req);
      OccupiedAdd(inOcc, inReq, input, output, req);
      OccupiedAdd(outOcc, outReq, output, input, req.(port := input));
      EdgesAdd(inReq, input, output, req);
      dirty := true;
      if inReq[input] == map[] {
        inOcc := inOcc + {input};
      }
      if outReq[output] == map[] {
        outOcc := outOcc + {output};
      }
      inReq := inReq[input := inReq[input][output := req]];
      outReq := outReq[output := outReq[output][input := req.(port := input)]];
    }

    method RemoveRequest(input: int, output: int)
      requires Valid()
      requires 0 <= input < inputs && 0 <= output < outputs
      requires (input, output) in Edges()
      modifies this
      ensures Valid() && inmatch == old(inmatch) && outmatch == old(outmatch)
      ensures Edges() == old(Edges()) - {(input, output)}
    {
      assert output in inReq[input] && input in outReq[output];
      MirrorRemove(inReq, outReq, input, output);
      OccupiedRemove(inOcc, inReq, input, output);
      OccupiedRemove(outOcc, outReq, output, input);
      EdgesRemove(inReq, input, output);
      inReq := inReq[input := inReq[input] - {output}];
      if inReq[input] == map[] {
        inOcc := inOcc - {input};
      }
      outReq := outReq[output := outReq[output] - {input}];
      if outReq[output] == map[] {
        outOcc := outOcc - {output};
      }
    }

    /** The stored request, or nothing: exactly what the request matrix says. */
    method ReadRequest(input: int, output: int) returns (found: bool, req: Request)
      requires Valid()
      requires 0 <= input < inputs && 0 <= output < outputs
      ensures found <==> (input, output) in Edges()
      ensures found ==> req == inReq[input][output]
    {
      req := Request(-1, -1, -1, -1);
      found := output in inReq[input];
      if found {
        req := inReq[input][output];
      }
    }

    /** The occupancy sets answer the same question as a scan of the matrix. */
    lemma OccupancyExact()
      requires Valid()
      ensures forall i :: i in inOcc <==> exists j :: (i, j) in Edges()
      ensures forall j :: j in outOcc <==> exists i :: (i, j) in Edges()
    {
      forall i | i in inOcc ensures exists j :: (i, j) in Edges() {
        var j := Any(inReq[i].Keys);
        assert (i, j) in Edges();
      }
      forall j | j in outOcc ensures exists i :: (i, j) in Edges() {
        var i := Any(outReq[j].Keys);
        assert (i, j) in Edges();
      }
    }
  }
}
