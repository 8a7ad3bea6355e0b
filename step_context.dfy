/**
 * The stepped execution context of the state fuzzer (`ExecutionContextStepped`):
 * one step context per executed input, numbered by position, the input of the
 * latest step recorded in it, and a flag that enables or disables execution.
 */
module SteppedContext {
  import opened Types

  /** One step: its position in the run and the input executed there, once set. */
  datatype StepContext<I> = StepContext(index: nat, input: Option<I>)

  class ExecutionContextStepped<I> {
    var stepContexts: seq<StepContext<I>>
    var enabled: bool

    /** Every step context carries its own position as its index. */
    ghost predicate Valid()
      reads this
    {
      forall i :: 0 <= i < |stepContexts| ==> stepContexts[i].index == i
    }

    constructor ()
      ensures stepContexts == [] && enabled
      ensures Valid()
    {
      stepContexts := [];
      enabled := true;
    }

    /** `disableExecution`. */
    method DisableExecution()
      modifies this
      ensures !enabled && stepContexts == old(stepContexts)
    {
      enabled := false;
    }

    /** `enableExecution`. */
    method EnableExecution()
      modifies this
      ensures enabled && stepContexts == old(stepContexts)
    {
      enabled := true;
    }

    /** `addStepContext`: a fresh context, numbered by the number of contexts before it. */
    method AddStepContext()
      requires Valid()
      modifies this
      ensures Valid()
      ensures stepContexts == old(stepContexts) + [StepContext(|old(stepContexts)|, None)]
      ensures enabled == old(enabled)
    {
      stepContexts := stepContexts + [StepContext(|stepContexts|, None)];
    }

    /** `getStepContext()`: the latest context, or none before the first step. */
    function LatestStepContext(): (r: Option<StepContext<I>>)
      reads this
      ensures r.None? <==> stepContexts == []
      ensures r.Some? ==> r.value == stepContexts[|stepContexts| - 1]
      ensures r.Some? && Valid() ==> r.value.index == |stepContexts| - 1
    {
      if stepContexts == [] then None else Some(stepContexts[|stepContexts| - 1])
    }

    /**
     * `setInput`: records the input in the latest context; every earlier
     * context is left as it was, and before the first step nothing changes.
     */
    method SetInput(input: I)
      requires Valid()
      modifies this
      ensures Valid()
      ensures |stepContexts| == |old(stepContexts)|
      ensures old(stepContexts) == [] ==> stepContexts == []
      ensures old(stepContexts) != [] ==>
                stepContexts[..|stepContexts| - 1] == old(stepContexts)[..|stepContexts| - 1] &&
                stepContexts[|stepContexts| - 1] == old(stepContexts)[|stepContexts| - 1].(input := Some(input))
      ensures enabled == old(enabled)
    {
      var latest := LatestStepContext();
      if latest.Some? {
        stepContexts := stepContexts[..|stepContexts| - 1] + [latest.value.(input := Some(input))];
      }
    }

    /** `getStepContext(ind)`: the context at a position; outside the list Java raises. */
    function StepContextAt(ind: int): (r: Result<StepContext<I>, Exception>)
      reads this
      ensures r.Ok? <==> 0 <= ind < |stepContexts|
      ensures r.Ok? && Valid() ==> r.value.index == ind
      ensures r.Err? ==> r.error == IndexOutOfBounds
    {
      if 0 <= ind < |stepContexts| then Ok(stepContexts[ind]) else Err(IndexOutOfBounds)
    }

    /** `getStepCount`. */
    function StepCount(): (r: nat)
      reads this
      ensures r == |stepContexts|
      ensures r > 0 <==> LatestStepContext().Some?
    {
      |stepContexts|
    }
  }

  /** A run of `n` steps, each of which adds a context and records its input, numbers them 0 to n-1 in order. */
  method RunSteps<I>(inputs: seq<I>) returns (ctx: ExecutionContextStepped<I>)
    ensures ctx.Valid()
    ensures |ctx.stepContexts| == |inputs|
    ensures forall i :: 0 <= i < |inputs| ==> ctx.stepContexts[i] == StepContext(i, Some(inputs[i]))
  {
    ctx := new ExecutionContextStepped();
    for k := 0 to |inputs|
      invariant ctx.Valid()
      invariant |ctx.stepContexts| == k
      invariant forall i :: 0 <= i < k ==> ctx.stepContexts[i] == StepContext(i, Some(inputs[i]))
    {
      ctx.AddStepContext();
      ctx.SetInput(inputs[k]);
    }
  }
}
