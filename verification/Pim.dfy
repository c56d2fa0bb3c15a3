/** Parallel iterative matching: outputs grant and inputs accept at random. */
module ParallelIterativeMatching {
  import opened Matchings
  import opened DenseAllocators
  import opened GrantAccept

  class Pim {
    const base: DenseAllocator
    const iterations: int

    ghost predicate Valid()
      reads this, base
    {
      && base.Valid() && base.inputs > 0 && base.outputs > 0
      && Within(base.inmatch, base.Edges())
    }

    constructor (inputs: nat, outputs: nat, iterations: int)
      requires inputs > 0 && outputs > 0
      ensures Valid() && fresh(base) && base.inputs == inputs && base.outputs == outputs
      ensures base.Edges() == {} && this.iterations == iterations
    {
      base := new DenseAllocator(inputs, outputs);
      this.iterations := iterations;
    }

    /** The first input at or after a random offset that may be given `output`, if any. */
    method DrawGrant(output: int) returns (grant: int)
      requires Valid() && 0 <= output < base.outputs
      ensures if grant == -1 then forall i :: !Eligible(base.Edges(), base.inmatch, base.outmatch, i, output)
              else Eligible(base.Edges(), base.inmatch, base.outmatch, grant, output)
    {
      var offset :| 0 <= offset < base.inputs;
      EdgesRequested(base.request);
      for i := 0 to base.inputs
        invariant forall x | 0 <= x < base.inputs && Turn(x, offset, base.inputs) < i ::
                    !Eligible(base.Edges(), base.inmatch, base.outmatch, x, output)
      {
        var input := (i + offset) % base.inputs;
        TurnOf(i, offset, base.inputs);
        assert Requested(base.request, input, output) <==> base.request[input][output].tag != -1;
        if base.request[input][output].tag != -1 && base.inmatch[input] == -1 && base.outmatch[output] == -1 {
          return input;
        }
      }
      grant := -1;
    }

    method GrantPass() returns (grants: seq<int>)
      requires Valid()
      ensures GrantPhase(base.Edges(), base.inmatch, base.outmatch, grants)
    {
      grants := seq(base.outputs, _ => -1);
      for output := 0 to base.outputs
        invariant |grants| == base.outputs
        invariant forall j | 0 <= j < output ::
                    if grants[j] == -1 then forall i :: !Eligible(base.Edges(), base.inmatch, base.outmatch, i, j)
                    else Eligible(base.Edges(), base.inmatch, base.outmatch, grants[j], j)
      {
        var grant := DrawGrant(output);
        grants := grants[output := grant];
      }
    }

    /** The first output at or after a random offset that grants `input`, if any. */
    method DrawAccept(grants: seq<int>, input: int) returns (output: int)
      requires Valid() && |grants| == base.outputs
      ensures if output == -1 then forall j | 0 <= j < |grants| :: grants[j] != input
              else 0 <= output < |grants| && grants[output] == input
    {
      var offset :| 0 <= offset < base.outputs;
      for o := 0 to base.outputs
        invariant forall j | 0 <= j < base.outputs && Turn(j, offset, base.outputs) < o :: grants[j] != input
      {
        output := (o + offset) % base.outputs;
        TurnOf(o, offset, base.outputs);
        if grants[output] == input { return; }
      }
      output := -1;
    }

    method AcceptPass(grants: seq<int>) returns (ghost acc: seq<int>)
      requires Valid()
      requires GrantPhase(base.Edges(), base.inmatch, base.outmatch, grants)
      modifies base`inmatch, base`outmatch
      ensures Valid()
      ensures AcceptPhase(grants, old(base.inmatch), old(base.outmatch), acc, base.inmatch, base.outmatch, base.inputs)
    {
      acc := seq(base.inputs, _ => -1);
      ghost var inm, outm := base.inmatch, base.outmatch;
      for input := 0 to base.inputs
        invariant Valid()
        invariant AcceptPhase(grants, inm, outm, acc, base.inmatch, base.outmatch, input)
      {
        var output := DrawAccept(grants, input);
        if output != -1 {
          assert Eligible(base.Edges(), inm, outm, input, output);
          AcceptOne(grants, inm, outm, acc, base.inmatch, base.outmatch, input, output);
          acc := acc[input := output];
          base.inmatch := base.inmatch[input := output];
          base.outmatch := base.outmatch[output := input];
          IterationConsistent(base.Edges(), inm, outm, grants, acc, base.inmatch, base.outmatch, input + 1);
        }
      }
    }

    /** Whatever is drawn, assigned ports stay assigned, each iteration adds a pair until nothing
        can be added, and as many iterations as there are
        ports on one side leave no request between unassigned ports. */
    method Allocate()
      requires Valid()
      modifies base`inmatch, base`outmatch
      ensures Valid()
      ensures Matched(old(base.inmatch)) <= Matched(base.inmatch)
      ensures Matched(old(base.outmatch)) <= Matched(base.outmatch)
      ensures iterations >= base.inputs || iterations >= base.outputs ==>
                Maximal(base.inmatch, base.outmatch, base.Edges())
      ensures Maximal(base.inmatch, base.outmatch, base.Edges()) ||
              |Matched(base.inmatch)| >= |Matched(old(base.inmatch))| + iterations
    {
      var iter := 0;
      while iter < iterations
        invariant Valid() && iter >= 0
        invariant Matched(old(base.inmatch)) <= Matched(base.inmatch)
        invariant Matched(old(base.outmatch)) <= Matched(base.outmatch)
        invariant Maximal(base.inmatch, base.outmatch, base.Edges()) || |Matched(base.inmatch)| >= |Matched(old(base.inmatch))| + iter
      {
        ghost var inm, outm := base.inmatch, base.outmatch;
        var grants := GrantPass();
        ghost var acc := AcceptPass(grants);
        IterationGrows(base.Edges(), inm, outm, grants, acc, base.inmatch, base.outmatch);
        iter := iter + 1;
      }
      if iterations >= base.inputs || iterations >= base.outputs {
        if !Maximal(base.inmatch, base.outmatch, base.Edges()) {
          FullIsMaximal(base.inmatch, base.outmatch, base.Edges());
        }
      }
    }
  }
}
