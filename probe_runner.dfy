/**
 * The probe test runner (`ProbeTestRunner`): a run is non-deterministic when
 * some test got more than one distinct answer or, unless it is the control
 * run, answers other than those of the stored control run at the same
 * position. The answers of a run are given, as `runTests` counted them.
 */
module ProbeRunner {
  import opened Types
  import opened TestRunner

  /**
   * The verdict over `results` from position `i`: a test with more than one
   * distinct answer, or (against a control run) answers other than the
   * control's at the same position, is non-determinism; a control run
   * shorter than `results` runs its iterator past the end.
   */
  function VerdictWalk<O(==)>(results: seq<Tally<O>>, against: Option<seq<Tally<O>>>, i: nat): Result<bool, Exception>
    decreases |results| - i
  {
    if i >= |results| then Ok(false)
    else if |results[i].keys| > 1 then Ok(true)
    else if against.Some? && i >= |against.value| then Err(NoSuchElement)
    else if against.Some? && results[i].count != against.value[i].count then Ok(true)
    else VerdictWalk(results, against, i + 1)
  }

  /** `isNonDeterministic(controlRun)` with this run's results; a non-control run needs a stored control. */
  function Verdict<O(==)>(results: seq<Tally<O>>, control: Option<seq<Tally<O>>>, controlRun: bool): Result<bool, Exception>
  {
    if controlRun then VerdictWalk(results, None, 0)
    else if control.None? then Err(NullPointer)
    else VerdictWalk(results, control, 0)
  }

  /** What it takes for the walk from `i` to find everything deterministic. */
  predicate DeterministicFrom<O(==)>(results: seq<Tally<O>>, against: Option<seq<Tally<O>>>, i: nat)
  {
    forall j | i <= j < |results| ::
      |results[j].keys| <= 1 && (against.Some? ==> j < |against.value| && results[j].count == against.value[j].count)
  }

  lemma {:induction false} VerdictWalkFalse<O>(results: seq<Tally<O>>, against: Option<seq<Tally<O>>>, i: nat)
    ensures VerdictWalk(results, against, i) == Ok(false) <==> DeterministicFrom(results, against, i)
    decreases |results| - i
  {
    if i < |results| {
      VerdictWalkFalse(results, against, i + 1);
    }
  }

  /**
   * A run is deterministic exactly when every test got a single distinct
   * answer and, unless it is the control run, the same answers as the
   * control run at the same position; a non-control run without a control
   * fails.
   */
  lemma VerdictFalse<O>(results: seq<Tally<O>>, control: Option<seq<Tally<O>>>, controlRun: bool)
    ensures Verdict(results, control, controlRun) == Ok(false) <==>
      (controlRun || control.Some?) &&
      forall j | 0 <= j < |results| ::
        |results[j].keys| <= 1 && (!controlRun ==> j < |control.value| && results[j].count == control.value[j].count)
  {
    if controlRun {
      VerdictWalkFalse(results, None, 0);
    } else if control.Some? {
      VerdictWalkFalse(results, control, 0);
      if DeterministicFrom(results, control, 0) {
        forall j | 0 <= j < |results|
          ensures |results[j].keys| <= 1 && j < |control.value| && results[j].count == control.value[j].count
        {
          assert 0 <= j < |results|;
        }
      } else {
        var j :| 0 <= j < |results| && !(|results[j].keys| <= 1 && (control.Some? ==> j < |control.value| && results[j].count == control.value[j].count));
        assert !(|results[j].keys| <= 1 && j < |control.value| && results[j].count == control.value[j].count);
      }
    }
  }

  /** The first test with more than one distinct answer makes the run non-deterministic, whatever follows. */
  lemma {:induction false} VerdictFirstMultiple<O>(results: seq<Tally<O>>, against: Option<seq<Tally<O>>>, i: nat, k: nat)
    requires i <= k < |results| && |results[k].keys| > 1
    requires DeterministicFrom(results[..k], against, i)
    ensures VerdictWalk(results, against, i) == Ok(true)
    decreases k - i
  {
    if i < k {
      assert results[..k][i] == results[i];
      assert DeterministicFrom(results[..k], against, i + 1);
      VerdictFirstMultiple(results, against, i + 1, k);
    }
  }

  /** A control run that was deterministic, replayed with the same results, is deterministic again. */
  lemma ControlReplay<O>(results: seq<Tally<O>>)
    requires Verdict(results, None, true) == Ok(false)
    ensures Verdict(results, Some(results), false) == Ok(false)
  {
    VerdictFalse(results, None, true);
    VerdictFalse(results, Some(results), false);
  }

  class ProbeTestRunner<O(==)> {
    /** The results of the last deterministic control run (`null` before one). */
    var control: Option<seq<Tally<O>>>

    constructor()
      ensures control == None
    {
      control := None;
    }

    /**
     * `isNonDeterministic`: `results` are what `runTests` returned. A control
     * run stores its results only when it finds no non-determinism.
     */
    method IsNonDeterministic(controlRun: bool, results: seq<Tally<O>>) returns (r: Result<bool, Exception>)
      modifies this
      ensures r == Verdict(results, old(control), controlRun)
      ensures control == if controlRun && r == Ok(false) then Some(results) else old(control)
    {
      var itControl: Option<seq<Tally<O>>> := None;
      if !controlRun {
        if control.None? {
          return Err(NullPointer);
        }
        itControl := control;
      }
      var i := 0;
      while i < |results|
        invariant 0 <= i <= |results|
        invariant VerdictWalk(results, itControl, i) == Verdict(results, control, controlRun)
      {
        if |results[i].keys| > 1 {
          return Ok(true);
        }
        if itControl.Some? {
          if i >= |itControl.value| {
            return Err(NoSuchElement);
          }
          if results[i].count != itControl.value[i].count {
            return Ok(true);
          }
        }
        i := i + 1;
      }
      if controlRun {
        control := Some(results);
      }
      return Ok(false);
    }
  }
}
