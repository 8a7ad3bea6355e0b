/**
 * The learning statistics (`StatisticsTracker`): counters of inputs and tests
 * spent on building hypotheses, per-hypothesis records, the counterexamples
 * found, and the totals reported once learning finishes.
 *
 * The input and test counters, and the clock, belong to the environment: each
 * operation is given their current values.
 */
module Statistics {
  import opened Types

  /** A counterexample query: the input word and the system's answer. */
  datatype Query = Query(input: seq<string>, output: seq<string>)

  /** `StatisticsSnapshot`: test count, input count and elapsed time at one moment. */
  datatype Snapshot = Snapshot(tests: int, inputs: int, time: int)

  /**
   * `HypothesisStatistics`: the size of a hypothesis, when it was built, how
   * many counterexamples preceded it, and the counterexample that refuted it.
   */
  datatype HypothesisStatistics = HypothesisStatistics(
    states: nat,
    snapshot: Snapshot,
    index: Option<nat>,
    counterexample: Option<Query>,
    counterexampleSnapshot: Option<Snapshot>)

  /** What `generateStatistics` reports. */
  datatype Report = Report(
    finished: bool,
    allInputs: int,
    allTests: int,
    learnInputs: int,
    learnTests: int,
    lastHypInputs: int,
    lastHypTests: int,
    duration: int,
    counterexamples: seq<Query>,
    alphabetSize: nat,
    states: nat,
    hypStats: seq<HypothesisStatistics>)

  /** The tracked counters of one learning run. */
  datatype Tracked = Tracked(
    learnInputs: int,
    learnTests: int,
    duration: int,
    allInputs: int,
    allTests: int,
    lastHypInputs: int,
    lastHypTests: int,
    finished: bool)

  class StatisticsTracker {
    var tracked: Tracked
    /** The counter values when the last counterexample was found. */
    var lastInputs: int
    var lastTests: int
    /** The clock value at the start of learning. */
    var time: int
    /** Whether `startLearning` ran, so that the lists exist (they are null before). */
    var started: bool
    var alphabetSize: Option<nat>
    var counterexamples: seq<Query>
    var hypStats: seq<HypothesisStatistics>
    /** The states of the learned model; `None` for a null model. */
    var learnedModelStates: Option<nat>
    /**
     * The record of the latest hypothesis. It is the same object as the last
     * element of `hypStats` exactly when `lastHypListed`; after a restart it
     * still refers to a record of the previous run.
     */
    var lastHypStats: Option<HypothesisStatistics>
    var lastHypListed: bool

    /**
     * Records are numbered by the counterexamples found before them, so the
     * numbers never exceed the count and never decrease; the latest record,
     * when listed, is the last one.
     */
    ghost predicate Valid()
      reads this
    {
      && (!started ==> counterexamples == [] && hypStats == [] && !lastHypListed && alphabetSize.None?)
      && (lastHypListed ==> |hypStats| > 0 && lastHypStats == Some(hypStats[|hypStats| - 1]))
      && (forall i :: 0 <= i < |hypStats| ==> hypStats[i].index.Some? && hypStats[i].index.value <= |counterexamples|)
      && (forall i, j :: 0 <= i < j < |hypStats| ==> hypStats[i].index.value <= hypStats[j].index.value)
    }

    constructor ()
      ensures Valid()
      ensures !started && counterexamples == [] && hypStats == [] && lastHypStats.None? && !lastHypListed
      ensures tracked == Tracked(0, 0, 0, 0, 0, 0, 0, false) && lastInputs == 0 && lastTests == 0
      ensures learnedModelStates.None? && alphabetSize.None?
    {
      tracked := Tracked(0, 0, 0, 0, 0, 0, 0, false);
      lastInputs, lastTests, time := 0, 0, 0;
      started, alphabetSize, counterexamples, hypStats := false, None, [], [];
      learnedModelStates, lastHypStats, lastHypListed := None, None, false;
    }

    /**
     * `startLearning`: zeroes the learning and total counters, starts the
     * clock and begins empty lists. The counter baselines `lastInputs` and
     * `lastTests` are kept, and so is the reference to the latest record.
     */
    method StartLearning(now: int, alphabetSize: Option<nat>)
      requires Valid()
      modifies this
      ensures Valid()
      ensures tracked == Tracked(0, 0, old(tracked.duration), 0, 0, 0, 0, false) && time == now
      ensures started && this.alphabetSize == alphabetSize && counterexamples == [] && hypStats == []
      ensures lastInputs == old(lastInputs) && lastTests == old(lastTests)
      ensures lastHypStats == old(lastHypStats) && !lastHypListed
      ensures learnedModelStates == old(learnedModelStates)
    {
      tracked := Tracked(0, 0, tracked.duration, 0, 0, 0, 0, false);
      time := now;
      this.alphabetSize := alphabetSize;
      counterexamples, hypStats := [], [];
      lastHypListed, started := false, true;
    }

    /**
     * `newHypothesis`: the inputs and tests spent since the last
     * counterexample count as learning; a record numbered by the
     * counterexamples so far is appended. Before `startLearning` the counters
     * are still updated, then the missing list throws.
     */
    method NewHypothesis(states: nat, inputCount: int, testCount: int, now: int) returns (r: Result<(), Exception>)
      requires Valid()
      modifies this
      ensures Valid()
      ensures tracked == old(tracked).(learnInputs := old(tracked.learnInputs) + inputCount - old(lastInputs),
                                       learnTests := old(tracked.learnTests) + testCount - old(lastTests),
                                       lastHypInputs := inputCount, lastHypTests := testCount)
      ensures var snap := Snapshot(testCount, inputCount, now - old(time));
              lastHypStats.Some? && lastHypStats.value.states == states && lastHypStats.value.snapshot == snap &&
              lastHypStats.value.counterexample.None? && lastHypStats.value.counterexampleSnapshot.None?
      ensures r.Err? <==> !old(started)
      ensures r.Err? ==> r.error == NullPointer && !lastHypListed && hypStats == old(hypStats)
      ensures r.Ok? ==> lastHypListed && lastHypStats.value.index == Some(|counterexamples|) &&
                        hypStats == old(hypStats) + [lastHypStats.value]
      ensures counterexamples == old(counterexamples) && started == old(started)
      ensures lastInputs == old(lastInputs) && lastTests == old(lastTests) && time == old(time)
      ensures alphabetSize == old(alphabetSize) && learnedModelStates == old(learnedModelStates)
    {
      tracked := tracked.(learnInputs := tracked.learnInputs + inputCount - lastInputs,
                          learnTests := tracked.learnTests + testCount - lastTests,
                          lastHypInputs := inputCount, lastHypTests := testCount);
      var record := HypothesisStatistics(states, Snapshot(testCount, inputCount, now - time), None, None, None);
      if !started {
        // the counterexample list does not exist yet
        lastHypStats, lastHypListed := Some(record), false;
        return Err(NullPointer);
      }
      record := record.(index := Some(|counterexamples|));
      lastHypStats, lastHypListed := Some(record), true;
      hypStats := hypStats + [record];
      r := Ok(());
    }

    /**
     * `newCounterExample`: the current counts become the baseline for the
     * next hypothesis, the counterexample is appended and recorded, with a
     * snapshot, on the latest hypothesis record, which is the listed one when
     * a hypothesis was built in this run. Throws before `startLearning` and
     * when there was never a hypothesis.
     */
    method NewCounterExample(ce: Query, inputCount: int, testCount: int, now: int) returns (r: Result<(), Exception>)
      requires Valid()
      modifies this
      ensures Valid()
      ensures lastInputs == inputCount && lastTests == testCount
      ensures r.Err? <==> !old(started) || old(lastHypStats).None?
      ensures r.Err? ==> r.error == NullPointer && hypStats == old(hypStats) && lastHypStats == old(lastHypStats)
      ensures counterexamples == if old(started) then old(counterexamples) + [ce] else old(counterexamples)
      ensures r.Ok? ==>
                var updated := old(lastHypStats).value.(counterexample := Some(ce),
                                                       counterexampleSnapshot := Some(Snapshot(testCount, inputCount, now - old(time))));
                lastHypStats == Some(updated) &&
                hypStats == if old(lastHypListed) then old(hypStats)[|old(hypStats)| - 1 := updated] else old(hypStats)
      ensures lastHypListed == old(lastHypListed) && started == old(started)
      ensures tracked == old(tracked) && time == old(time)
      ensures alphabetSize == old(alphabetSize) && learnedModelStates == old(learnedModelStates)
    {
      lastInputs, lastTests := inputCount, testCount;
      if !started {
        return Err(NullPointer);
      }
      counterexamples := counterexamples + [ce];
      if lastHypStats.None? {
        return Err(NullPointer);
      }
      var updated := lastHypStats.value.(counterexample := Some(ce),
                                         counterexampleSnapshot := Some(Snapshot(testCount, inputCount, now - time)));
      lastHypStats := Some(updated);
      if lastHypListed {
        hypStats := hypStats[|hypStats| - 1 := updated];
      }
      r := Ok(());
    }

    /** `finishedLearning`: the totals are the counters' current values. */
    method FinishedLearning(modelStates: Option<nat>, finished: bool, inputCount: int, testCount: int, now: int)
      requires Valid()
      modifies this
      ensures Valid()
      ensures learnedModelStates == modelStates
      ensures tracked == old(tracked).(allInputs := inputCount, allTests := testCount,
                                       duration := now - old(time), finished := finished)
      ensures lastInputs == old(lastInputs) && lastTests == old(lastTests) && time == old(time)
      ensures counterexamples == old(counterexamples) && hypStats == old(hypStats) && started == old(started)
      ensures lastHypStats == old(lastHypStats) && lastHypListed == old(lastHypListed)
      ensures alphabetSize == old(alphabetSize)
    {
      learnedModelStates := modelStates;
      tracked := tracked.(allInputs := inputCount, allTests := testCount, duration := now - time, finished := finished);
    }

    /**
     * `generateStatistics`: the recorded values; a missing model has 0
     * states, and a missing alphabet (no `startLearning`) throws.
     */
    function GenerateStatistics(): (r: Result<Report, Exception>)
      reads this
      ensures r.Err? <==> alphabetSize.None?
      ensures r.Err? ==> r.error == NullPointer
      ensures r.Ok? ==> r.value.states == (if learnedModelStates.None? then 0 else learnedModelStates.value)
      ensures r.Ok? ==> r.value.alphabetSize == alphabetSize.value && r.value.finished == tracked.finished
      ensures r.Ok? ==> r.value.counterexamples == counterexamples && r.value.hypStats == hypStats
      ensures r.Ok? ==> r.value.learnInputs == tracked.learnInputs && r.value.learnTests == tracked.learnTests
      ensures r.Ok? ==> r.value.allInputs == tracked.allInputs && r.value.allTests == tracked.allTests
      ensures r.Ok? ==> r.value.lastHypInputs == tracked.lastHypInputs && r.value.lastHypTests == tracked.lastHypTests
      ensures r.Ok? ==> r.value.duration == tracked.duration
    {
      if alphabetSize.None? then Err(NullPointer)
      else
        var states := if learnedModelStates.None? then 0 else learnedModelStates.value;
        Ok(Report(tracked.finished, tracked.allInputs, tracked.allTests, tracked.learnInputs, tracked.learnTests,
                  tracked.lastHypInputs, tracked.lastHypTests, tracked.duration, counterexamples, alphabetSize.value,
                  states, hypStats))
    }
  }

  /**
   * One refinement round: the first hypothesis gets number 0 and is refuted
   * by the counterexample, the second gets number 1; the inputs spent while
   * testing the first hypothesis do not count as learning.
   */
  method RefinementRound(ce: Query, alphabetSize: nat) returns (t: StatisticsTracker)
    ensures t.Valid()
    ensures |t.hypStats| == 2 && t.counterexamples == [ce]
    ensures t.hypStats[0].index == Some(0) && t.hypStats[0].counterexample == Some(ce)
    ensures t.hypStats[1].index == Some(1) && t.hypStats[1].counterexample.None?
    ensures t.tracked.learnInputs == 10 + (25 - 18)
  {
    t := new StatisticsTracker();
    t.StartLearning(0, Some(alphabetSize));
    var r := t.NewHypothesis(2, 10, 3, 5);
    r := t.NewCounterExample(ce, 18, 6, 7);
    r := t.NewHypothesis(3, 25, 8, 9);
  }
}
