/**
 * The chain of wrappers put around the system under learning
 * (`SulWrapperStandard`): process, resetting, is-alive and counter layers, then
 * at most one time-limit and at most one test-limit layer, each set by the
 * first valid limit given.
 */
module SulWrappers {
  import opened Types

  /** One wrapper layer, innermost first in a chain. */
  datatype Layer =
    | Process
    | ResettingServer
    | ResettingClient
    | IsAlive
    | SymbolCounter
    | ResetCounter
    | Timeout(limit: int)
    | TestLimit(limit: int)

  /** The parts of the SUL configuration that choose the layers. */
  datatype SulConfig = SulConfig(command: Option<string>, resetPort: Option<int>, fuzzingClient: bool)

  /** `wrap`: the layers put around the abstract SUL, innermost first. */
  function WrapLayers(config: SulConfig): (r: seq<Layer>)
    ensures Process in r <==> config.command.Some?
    ensures ResettingServer in r <==> config.resetPort.Some? && config.fuzzingClient
    ensures ResettingClient in r <==> config.resetPort.Some? && !config.fuzzingClient
    ensures |r| >= 3 && r[|r| - 3..] == [IsAlive, SymbolCounter, ResetCounter]
    ensures CountTimeouts(r) == 0 && CountTestLimits(r) == 0
  {
    var process := if config.command.Some? then [Process] else [];
    var resetting := if config.resetPort.None? then []
                     else if config.fuzzingClient then [ResettingServer] else [ResettingClient];
    var r := process + resetting + [IsAlive, SymbolCounter, ResetCounter];
    assert CountTimeouts(r) == 0 && CountTestLimits(r) == 0 by {
      CountsOfAppend(process + resetting, [IsAlive, SymbolCounter, ResetCounter]);
      CountsOfAppend(process, resetting);
    }
    r
  }

  function CountTimeouts(layers: seq<Layer>): nat
  {
    if |layers| == 0 then 0 else (if layers[0].Timeout? then 1 else 0) + CountTimeouts(layers[1..])
  }

  function CountTestLimits(layers: seq<Layer>): nat
  {
    if |layers| == 0 then 0 else (if layers[0].TestLimit? then 1 else 0) + CountTestLimits(layers[1..])
  }

  lemma {:induction false} CountsOfAppend(a: seq<Layer>, b: seq<Layer>)
    ensures CountTimeouts(a + b) == CountTimeouts(a) + CountTimeouts(b)
    ensures CountTestLimits(a + b) == CountTestLimits(a) + CountTestLimits(b)
    decreases |a|
  {
    if |a| > 0 {
      assert (a + b)[0] == a[0] && (a + b)[1..] == a[1..] + b;
      CountsOfAppend(a[1..], b);
    } else {
      assert a + b == b;
    }
  }

  /** A limit of this value is accepted: `null`, negative and zero limits are refused. */
  predicate ValidLimit(limit: Option<int>)
  {
    limit.Some? && limit.value > 0
  }

  class SulWrapperStandard {
    var layers: seq<Layer>
    /** The recorded time limit (in milliseconds) and test limit; `None` while unset. */
    var timeLimit: Option<int>
    var testLimit: Option<int>

    /**
     * A recorded limit is positive and wraps the chain exactly once with its
     * own value; an unset limit has no layer.
     */
    ghost predicate Valid()
      reads this
    {
      && (timeLimit.None? ==> CountTimeouts(layers) == 0)
      && (timeLimit.Some? ==> timeLimit.value > 0 && CountTimeouts(layers) == 1 && Timeout(timeLimit.value) in layers)
      && (testLimit.None? ==> CountTestLimits(layers) == 0)
      && (testLimit.Some? ==> testLimit.value > 0 && CountTestLimits(layers) == 1 && TestLimit(testLimit.value) in layers)
    }

    constructor ()
      ensures layers == [] && timeLimit.None? && testLimit.None?
      ensures Valid()
    {
      layers := [];
      timeLimit := None;
      testLimit := None;
    }

    /** `wrap`: builds the chain afresh around the SUL; the limits are not touched. */
    method Wrap(config: SulConfig)
      modifies this
      ensures layers == WrapLayers(config)
      ensures timeLimit == old(timeLimit) && testLimit == old(testLimit)
      ensures old(timeLimit).None? && old(testLimit).None? ==> Valid()
    {
      layers := WrapLayers(config);
    }

    /**
     * `setTimeLimit`: an invalid limit is refused, the first valid one is
     * recorded and adds the timeout layer, and any later one is ignored.
     */
    method SetTimeLimit(limit: Option<int>)
      requires Valid()
      modifies this
      ensures Valid()
      ensures testLimit == old(testLimit)
      ensures !ValidLimit(limit) || old(timeLimit).Some? ==> timeLimit == old(timeLimit) && layers == old(layers)
      ensures ValidLimit(limit) && old(timeLimit).None? ==>
                timeLimit == limit && layers == old(layers) + [Timeout(limit.value)]
    {
      if !ValidLimit(limit) {
        // the erroneous value is only logged
      } else if timeLimit.None? {
        CountsOfAppend(layers, [Timeout(limit.value)]);
        timeLimit := limit;
        layers := layers + [Timeout(limit.value)];
      }
    }

    /**
     * `setTestLimit`: a missing or non-positive limit is refused, the first
     * valid one is recorded and adds the test-limit layer, and any later one is ignored.
     */
    method SetTestLimit(limit: Option<int>)
      requires Valid()
      modifies this
      ensures Valid()
      ensures timeLimit == old(timeLimit)
      ensures !ValidLimit(limit) || old(testLimit).Some? ==> testLimit == old(testLimit) && layers == old(layers)
      ensures ValidLimit(limit) && old(testLimit).None? ==>
                testLimit == limit && layers == old(layers) + [TestLimit(limit.value)]
    {
      if !ValidLimit(limit) {
        // the erroneous value is only logged
      } else if testLimit.None? {
        CountsOfAppend(layers, [TestLimit(limit.value)]);
        testLimit := limit;
        layers := layers + [TestLimit(limit.value)];
      }
    }
  }

  /** The first valid time limit wins: a second valid one changes nothing. */
  method FirstTimeLimitWins(config: SulConfig, first: int, second: int) returns (s: SulWrapperStandard)
    requires first > 0 && second > 0
    ensures s.timeLimit == Some(first)
    ensures s.layers == WrapLayers(config) + [Timeout(first)]
  {
    s := new SulWrapperStandard();
    s.Wrap(config);
    s.SetTimeLimit(Some(first));
    s.SetTimeLimit(Some(second));
  }
}
