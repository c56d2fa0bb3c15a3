/** The request matrix shared by the dense allocators. */
module DenseAllocators {
  import opened Matchings

  /** Requests by input and output; a tag of -1 means none. */
  type Matrix = seq<seq<Request>>

  ghost predicate Requested(request: Matrix, i: int, j: int) {
    0 <= i < |request| && 0 <= j < |request[i]| && request[i][j].tag != -1
  }

  ghost function EdgesOf(request: Matrix): Edges {
    set i, j | 0 <= i < |request| && 0 <= j < |request[i]| && request[i][j].tag != -1 :: (i, j)
  }

  ghost predicate Shaped(request: Matrix, inputs: int, outputs: int) {
    |request| == inputs && forall i | 0 <= i < inputs :: |request[i]| == outputs
  }

  lemma EdgesRequested(request: Matrix)
    ensures forall i, j :: (i, j) in EdgesOf(request) <==> Requested(request, i, j)
  {
  }

  class DenseAllocator {
    const inputs: nat
    const outputs: nat
    var inmatch: seq<int>
    var outmatch: seq<int>
    var dirty: bool
    var request: Matrix

    ghost predicate Valid()
      reads this
    {
      && |inmatch| == inputs && |outmatch| == outputs
      && Shaped(request, inputs, outputs)
      && Consistent(inmatch, outmatch)
      // only requests can lead to assignments, so a clean allocator is unassigned
      && (!dirty ==> AllFree(inmatch) && AllFree(outmatch) && EdgesOf(request) == {})
    }

    ghost function Edges(): Edges
      reads this
    {
      EdgesOf(request)
    }

    constructor (inputs: nat, outputs: nat)
      ensures Valid() && this.inputs == inputs && this.outputs == outputs
      ensures Edges() == {} && AllFree(inmatch) && AllFree(outmatch)
    {
      this.inputs, this.outputs := inputs, outputs;
      inmatch := seq(inputs, _ => -1);
      outmatch := seq(outputs, _ => -1);
      dirty := false;
      request := seq(inputs, _ => seq(outputs, _ => Request(-1, -1, 0, 0)));
    }

    /** Forgets all requests; the assignment is reset only when something was requested since
        the last call, which is enough to leave every port unassigned. */
    method Clear()
      requires Valid()
      modifies this
      ensures Valid() && Edges() == {}
      ensures AllFree(inmatch) && AllFree(outmatch)
    {
      ClearRequests();
      if dirty {
        inmatch := seq(inputs, _ => -1);
        outmatch := seq(outputs, _ => -1);
        dirty := false;
      }
    }

    method ClearRequests()
      requires Shaped(request, inputs, outputs)
      modifies this`request
      ensures Shaped(request, inputs, outputs) && EdgesOf(request) == {}
    {
      for i := 0 to inputs
        invariant Shaped(request, inputs, outputs)
        invariant forall x, y | 0 <= x < i && 0 <= y < outputs :: request[x][y].tag == -1
      {
        for j := 0 to outputs
          invariant Shaped(request, inputs, outputs)
          invariant forall x, y | 0 <= x < inputs && 0 <= y < outputs && (x < i || (x == i && y < j)) :: request[x][y].tag == -1
        {
          request := request[i := request[i][j := request[i][j].(tag := -1)]];
        }
      }
      EdgesRequested(request);
    }

    method AddRequest(input: int, output: int, tag: int, inPri: int, outPri: int)
      requires Valid()
      requires 0 <= input < inputs && 0 <= output < outputs && tag >= 0
      requires (input, output) !in Edges()
      modifies this
      ensures Valid() && inmatch == old(inmatch) && outmatch == old(outmatch)
      ensures Edges() == old(Edges()) + {(input, output)}
      ensures request[input][output] == Request(old(request)[input][output].port, tag, inPri, outPri)
      ensures forall i, j | 0 <= i < inputs && 0 <= j < outputs && (i, j) != (input, output) ::
                request[i][j] == old(request)[i][j]
    {
      dirty := true;
      request := request[input := request[input][output := request[input][output].(tag := tag, inPri := inPri, outPri := outPri)]];
      forall e ensures e in Edges() <==> e in old(Edges()) + {(input, output)} {
        EdgesRequested(request);
        EdgesRequested(old(request));
        var (i, j) := e;
        assert Requested(request, i, j) <==> Requested(old(request), i, j) || e == (input, output);
      }
    }

    method RemoveRequest(input: int, output: int)
      requires Valid()
      requires 0 <= input < inputs && 0 <= output < outputs
      modifies this
      ensures Valid() && inmatch == old(inmatch) && outmatch == old(outmatch)
      ensures Edges() == old(Edges()) - {(input, output)}
    {
      request := request[input := request[input][output := request[input][output].(tag := -1)]];
      forall e ensures e in Edges() <==> e in old(Edges()) - {(input, output)} {
        EdgesRequested(request);
        EdgesRequested(old(request));
        var (i, j) := e;
        assert Requested(request, i, j) <==> Requested(old(request), i, j) && e != (input, output);
      }
    }

    method ReadRequest(input: int, output: int) returns (tag: int)
      requires Valid()
      requires 0 <= input < inputs && 0 <= output < outputs
      ensures tag != -1 <==> (input, output) in Edges()
      ensures tag == request[input][output].tag
    {
      tag := request[input][output].tag;
      EdgesRequested(request);
    }
  }
}
