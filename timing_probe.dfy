/**
 * The timing probe (`TimingProbe`): for every probed command it looks for the
 * lowest timing value at which the system under learning behaves
 * deterministically, first by doubling an upper limit and then by a binary
 * search between the last non-deterministic and the first deterministic
 * value.
 *
 * A command names a timing parameter: the SUL's `timeout` when it contains
 * "timeout", its `runWait` when it contains "runWait", and otherwise the
 * extended wait of every alphabet input whose name contains it. The probe
 * test runner is the oracle `nonDeterministic`, a function of the current
 * timing parameters.
 */
module TimingProbe {
  import opened Types
  import opened Strings

  /** An alphabet input: its name (`toString`) and its extended wait. */
  datatype Input = Input(name: string, extendedWait: int)

  /** Every timing parameter a command can set. */
  datatype Timing = Timing(timeout: int, runWait: int, inputs: seq<Input>)

  /** The extended waits of the inputs whose name contains `cmd` set to `v`. */
  function SetWaits(inputs: seq<Input>, cmd: string, v: int): (r: seq<Input>)
    ensures |r| == |inputs|
    ensures forall i :: 0 <= i < |r| ==> r[i].name == inputs[i].name
    ensures forall i :: 0 <= i < |r| ==> r[i].extendedWait == (if Contains(inputs[i].name, cmd) then v else inputs[i].extendedWait)
  {
    seq(|inputs|, i requires 0 <= i < |inputs| =>
      if Contains(inputs[i].name, cmd) then inputs[i].(extendedWait := v) else inputs[i])
  }

  /** `setTimingParameter(cmd, v)`: the parameter `cmd` names, set to `v`. */
  function Apply(t: Timing, cmd: string, v: int): Timing
  {
    if Contains(cmd, "timeout") then t.(timeout := v)
    else if Contains(cmd, "runWait") then t.(runWait := v)
    else t.(inputs := SetWaits(t.inputs, cmd, v))
  }

  /** Setting a parameter twice keeps only the second value. */
  lemma ApplyOverwrite(t: Timing, cmd: string, v: int, w: int)
    ensures Apply(Apply(t, cmd, v), cmd, w) == Apply(t, cmd, w)
  {
    if !Contains(cmd, "timeout") && !Contains(cmd, "runWait") {
      assert SetWaits(SetWaits(t.inputs, cmd, v), cmd, w) == SetWaits(t.inputs, cmd, w);
    }
  }

  /** Setting a parameter to the value it already has changes nothing. */
  lemma ApplySame(t: Timing, cmd: string, v: int)
    requires !Contains(cmd, "timeout") && !Contains(cmd, "runWait")
    requires forall i :: 0 <= i < |t.inputs| && Contains(t.inputs[i].name, cmd) ==> t.inputs[i].extendedWait == v
    ensures Apply(t, cmd, v) == t
  {
    assert SetWaits(t.inputs, cmd, v) == t.inputs;
  }

  /** `t` differs from `base` at most in the parameter `cmd` names. */
  ghost predicate SameOutside(t: Timing, base: Timing, cmd: string)
  {
    forall v :: Apply(t, cmd, v) == Apply(base, cmd, v)
  }

  lemma SameOutsideRefl(t: Timing, cmd: string)
    ensures SameOutside(t, t, cmd)
  {
  }

  lemma SameOutsideTrans(t: Timing, u: Timing, base: Timing, cmd: string)
    requires SameOutside(t, u, cmd) && SameOutside(u, base, cmd)
    ensures SameOutside(t, base, cmd)
  {
  }

  /** Setting `cmd`'s parameter keeps a timing within `cmd` of `base`, and gives what setting it in `base` gives. */
  lemma SetKeeps(t: Timing, base: Timing, cmd: string, v: int)
    requires SameOutside(t, base, cmd)
    ensures Apply(t, cmd, v) == Apply(base, cmd, v)
    ensures SameOutside(Apply(t, cmd, v), base, cmd)
  {
    forall w ensures Apply(Apply(t, cmd, v), cmd, w) == Apply(base, cmd, w) {
      ApplyOverwrite(t, cmd, v, w);
    }
  }

  /** `setAllTimingParameters`: every command's parameter set to `v`, left to right. */
  function ApplyAll(t: Timing, cmds: seq<string>, v: int): Timing
    decreases |cmds|
  {
    if cmds == [] then t else ApplyAll(Apply(t, cmds[0], v), cmds[1..], v)
  }

  /** `present`: the entries as `{k1=v1, k2=v2}`, in the map's iteration order. */
  function Present(entries: seq<(string, int)>): (r: string)
    ensures |r| >= 2 && r[0] == '{' && r[|r| - 1] == '}'
    ensures entries == [] ==> r == "{}"
  {
    "{" + Join(seq(|entries|, i requires 0 <= i < |entries| => entries[i].0 + "=" + IntToString(entries[i].1)), ", ") + "}"
  }

  /** A probed command is valid when it names the timeout, the run wait, or part of some input's name. */
  predicate ValidCommand(cmd: string, inputs: seq<Input>)
  {
    Contains(cmd, "timeout") || Contains(cmd, "runWait") || exists i | 0 <= i < |inputs| :: Contains(inputs[i].name, cmd)
  }

  class Prober {
    const probeLo: int
    const probeHi: int
    const probeMin: int
    /** The probe test runner's verdict on the current timing parameters. */
    const nonDeterministic: Timing -> bool
    var lo: int
    var hi: int
    var timing: Timing

    constructor(probeLo: int, probeHi: int, probeMin: int, nonDeterministic: Timing -> bool, timing: Timing)
      ensures this.probeLo == probeLo && this.probeHi == probeHi && this.probeMin == probeMin
      ensures this.nonDeterministic == nonDeterministic && this.timing == timing
    {
      this.probeLo := probeLo;
      this.probeHi := probeHi;
      this.probeMin := probeMin;
      this.nonDeterministic := nonDeterministic;
      this.timing := timing;
    }

    /** Whether the runner sees non-determinism once `cmd`'s parameter in `base` is set to `v`. */
    ghost predicate NonDet(base: Timing, cmd: string, v: int)
    {
      nonDeterministic(Apply(base, cmd, v))
    }

    /**
     * The doubling loop of `findLimits` from `(lo, hi)` with `keep` the last
     * verdict: the `(lo, hi)` it stops at.
     */
    ghost function Doubling(base: Timing, cmd: string, lo: int, hi: int, keep: bool): (int, int)
      requires hi >= 1
      decreases probeHi - hi
    {
      if keep && hi < probeHi then Doubling(base, cmd, hi, hi * 2, NonDet(base, cmd, hi * 2)) else (lo, hi)
    }

    /**
     * What `findLimits` finds for `cmd` from the timing `base`: whether
     * `probeLo` is deterministic on the first try, and the final `lo` and `hi`.
     */
    ghost function Limits(base: Timing, cmd: string): (bool, int, int)
      requires probeMin >= 1
    {
      if !(Contains(cmd, "timeout") && probeLo == 0) && !NonDet(base, cmd, probeLo) then (true, probeLo, probeLo)
      else if probeLo > 0 then
        var (l, h) := Doubling(base, cmd, probeLo, probeLo, true); (false, l, h)
      else
        var (l, h) := Doubling(base, cmd, probeLo, probeMin, NonDet(base, cmd, probeMin)); (false, l, h)
    }

    /** What `binarySearch` returns for `cmd` from `[lo, hi]` and the timing `base`. */
    ghost function Search(base: Timing, cmd: string, lo: int, hi: int): int
      requires probeMin >= 1
      decreases hi - lo
    {
      if hi - lo > probeMin then
        var mid := lo + (hi - lo) / 2;
        if NonDet(base, cmd, mid) then Search(base, cmd, mid, hi) else Search(base, cmd, lo, mid)
      else hi
    }

    /** The value `findDeterministicTimesValues` records for `cmd` from the timing `base`. */
    ghost function BestTime(base: Timing, cmd: string): int
      requires probeMin >= 1
    {
      var (first, l, h) := Limits(base, cmd);
      if first then probeLo else Search(base, cmd, l, h)
    }

    /**
     * The probe loop over `cmds` from the timing `t` and the map `best`: each
     * command's best time recorded and set, in order. The result is the final
     * timing and the final map.
     */
    ghost function ProbeFrom(t: Timing, cmds: seq<string>, best: map<string, int>): (Timing, map<string, int>)
      requires probeMin >= 1
      decreases |cmds|
    {
      if cmds == [] then (t, best)
      else
        var b := BestTime(t, cmds[0]);
        ProbeFrom(Apply(t, cmds[0], b), cmds[1..], best[cmds[0] := b])
    }

    /**
     * The doubling loop keeps `lo` the last non-deterministic value (or
     * `probeLo`) and `hi` twice it, and stops at `probeHi` or at the first
     * deterministic `hi`.
     */
    lemma {:induction false} DoublingStops(base: Timing, cmd: string, lo: int, hi: int, keep: bool)
      requires hi >= 1 && probeLo <= lo <= hi
      requires keep == NonDet(base, cmd, hi)
      requires lo == probeLo || (NonDet(base, cmd, lo) && hi == 2 * lo)
      ensures var (l, h) := Doubling(base, cmd, lo, hi, keep);
        && probeLo <= l <= h
        && (l == probeLo || (NonDet(base, cmd, l) && h == 2 * l))
        && (h >= probeHi || !NonDet(base, cmd, h))
      decreases probeHi - hi
    {
      if keep && hi < probeHi {
        DoublingStops(base, cmd, hi, hi * 2, NonDet(base, cmd, hi * 2));
      }
    }

    /**
     * `findLimits` reports `true` exactly when `probeLo` is deterministic on the
     * first try (never for a timeout probed from 0), and then leaves
     * `lo == hi == probeLo`. Otherwise `probeLo <= lo <= hi`, `lo` is `probeLo`
     * or a non-deterministic value with `hi == 2 * lo`, and `hi` reached
     * `probeHi` or is deterministic.
     */
    lemma LimitsFound(base: Timing, cmd: string)
      requires probeMin >= 1
      ensures var (first, l, h) := Limits(base, cmd);
        && (first <==> !(Contains(cmd, "timeout") && probeLo == 0) && !NonDet(base, cmd, probeLo))
        && (first ==> l == probeLo && h == probeLo)
        && (!first ==> probeLo <= l <= h)
        && (!first ==> l == probeLo || (NonDet(base, cmd, l) && h == 2 * l))
        && (!first ==> h >= probeHi || !NonDet(base, cmd, h))
    {
      if (Contains(cmd, "timeout") && probeLo == 0) || NonDet(base, cmd, probeLo) {
        if probeLo > 0 {
          DoublingStops(base, cmd, probeLo, probeLo, true);
        } else {
          DoublingStops(base, cmd, probeLo, probeMin, NonDet(base, cmd, probeMin));
        }
      }
    }

    /** Timings that agree outside `cmd` give the same verdicts on its parameter, hence the same search. */
    lemma {:induction false} SearchSameOutside(t: Timing, base: Timing, cmd: string, lo: int, hi: int)
      requires probeMin >= 1
      requires SameOutside(t, base, cmd)
      ensures Search(t, cmd, lo, hi) == Search(base, cmd, lo, hi)
      decreases hi - lo
    {
      if hi - lo > probeMin {
        var mid := lo + (hi - lo) / 2;
        assert Apply(t, cmd, mid) == Apply(base, cmd, mid);
        SearchSameOutside(t, base, cmd, mid, hi);
        SearchSameOutside(t, base, cmd, lo, mid);
      }
    }

    /**
     * The search stays within `[lo, hi]`, and it ends at `hi` itself or at a
     * value where the runner sees no non-determinism.
     */
    lemma {:induction false} SearchWithin(base: Timing, cmd: string, lo: int, hi: int)
      requires probeMin >= 1 && lo <= hi
      ensures lo <= Search(base, cmd, lo, hi) <= hi
      ensures Search(base, cmd, lo, hi) == hi || !NonDet(base, cmd, Search(base, cmd, lo, hi))
      decreases hi - lo
    {
      if hi - lo > probeMin {
        var mid := lo + (hi - lo) / 2;
        SearchWithin(base, cmd, mid, hi);
        SearchWithin(base, cmd, lo, mid);
      }
    }

    /** A recorded best time is never below `probeLo`. */
    lemma BestTimeAtLeast(base: Timing, cmd: string)
      requires probeMin >= 1
      ensures BestTime(base, cmd) >= probeLo
    {
      var (first, l, h) := Limits(base, cmd);
      LimitsFound(base, cmd);
      if !first {
        SearchWithin(base, cmd, l, h);
      }
    }

    /**
     * The probe loop records exactly the commands it is given, on top of the
     * map it starts from, and every value it records is at least `probeLo`.
     */
    lemma {:induction false} ProbeFromRecords(t: Timing, cmds: seq<string>, best: map<string, int>)
      requires probeMin >= 1
      ensures forall c :: c in ProbeFrom(t, cmds, best).1 <==> c in best || c in cmds
      ensures forall c :: c in ProbeFrom(t, cmds, best).1 && c !in cmds ==> ProbeFrom(t, cmds, best).1[c] == best[c]
      ensures forall c :: c in cmds ==> ProbeFrom(t, cmds, best).1[c] >= probeLo
      decreases |cmds|
    {
      if cmds != [] {
        var b := BestTime(t, cmds[0]);
        BestTimeAtLeast(t, cmds[0]);
        ProbeFromRecords(Apply(t, cmds[0], b), cmds[1..], best[cmds[0] := b]);
        assert forall c :: c in cmds <==> c == cmds[0] || c in cmds[1..];
      }
    }

    /** `setTimingParameter`: the loop over the alphabet sets every matching input's extended wait. */
    method SetTimingParameter(cmd: string, time: int)
      modifies this
      ensures timing == Apply(old(timing), cmd, time)
      ensures lo == old(lo) && hi == old(hi)
    {
      if Contains(cmd, "timeout") {
        timing := timing.(timeout := time);
      } else if Contains(cmd, "runWait") {
        timing := timing.(runWait := time);
      } else {
        ghost var ins := timing.inputs;
        var cur := timing.inputs;
        var i := 0;
        while i < |cur|
          invariant 0 <= i <= |cur| == |ins|
          invariant forall j :: 0 <= j < i ==> cur[j] == SetWaits(ins, cmd, time)[j]
          invariant forall j :: i <= j < |cur| ==> cur[j] == ins[j]
        {
          if Contains(cur[i].name, cmd) {
            cur := cur[i := cur[i].(extendedWait := time)];
          }
          i := i + 1;
        }
        assert cur == SetWaits(ins, cmd, time);
        timing := timing.(inputs := cur);
      }
    }

    /**
     * `findLimits`: true iff `probeLo` is deterministic on the first try (a
     * timeout probed from 0 always searches). Otherwise `hi` is doubled while
     * the runs stay non-deterministic and `hi` is below `probeHi`, `lo`
     * following the previous `hi`.
     */
    method FindLimits(cmd: string) returns (first: bool)
      requires probeMin >= 1
      modifies this
      ensures SameOutside(timing, old(timing), cmd)
      ensures first <==> !(Contains(cmd, "timeout") && probeLo == 0) && !NonDet(old(timing), cmd, probeLo)
      ensures first ==> lo == probeLo && hi == probeLo
      ensures !first ==> probeLo <= lo <= hi
      ensures !first ==> lo == probeLo || (NonDet(old(timing), cmd, lo) && hi == 2 * lo)
      ensures !first ==> hi >= probeHi || !NonDet(old(timing), cmd, hi)
      ensures (first, lo, hi) == Limits(old(timing), cmd)
    {
      ghost var base := timing;
      SameOutsideRefl(base, cmd);
      hi := probeLo;
      lo := probeLo;
      var keepSearching;
      if Contains(cmd, "timeout") && hi == 0 {
        keepSearching := true;
      } else {
        SetKeeps(timing, base, cmd, hi);
        SetTimingParameter(cmd, hi);
        keepSearching := nonDeterministic(timing);
      }
      if !keepSearching {
        LimitsFound(base, cmd);
        return true;
      }
      ghost var target := Limits(base, cmd);
      assert (Contains(cmd, "timeout") && probeLo == 0) || NonDet(base, cmd, probeLo);
      if probeLo > 0 {
        hi := probeLo;
        assert target == (false, Doubling(base, cmd, lo, hi, keepSearching).0, Doubling(base, cmd, lo, hi, keepSearching).1);
      } else {
        hi := probeMin;
        SetKeeps(timing, base, cmd, hi);
        SetTimingParameter(cmd, hi);
        keepSearching := nonDeterministic(timing);
        assert target == (false, Doubling(base, cmd, lo, hi, keepSearching).0, Doubling(base, cmd, lo, hi, keepSearching).1);
      }
      while keepSearching && hi < probeHi
        invariant SameOutside(timing, base, cmd)
        invariant hi >= 1
        invariant keepSearching == NonDet(base, cmd, hi)
        invariant (false, Doubling(base, cmd, lo, hi, keepSearching).0, Doubling(base, cmd, lo, hi, keepSearching).1) == target
        decreases probeHi - hi
      {
        assert Doubling(base, cmd, lo, hi, keepSearching) == Doubling(base, cmd, hi, hi * 2, NonDet(base, cmd, hi * 2));
        lo := hi;
        hi := hi * 2;
        SetKeeps(timing, base, cmd, hi);
        SetTimingParameter(cmd, hi);
        keepSearching := nonDeterministic(timing);
      }
      assert Doubling(base, cmd, lo, hi, keepSearching) == (lo, hi);
      LimitsFound(base, cmd);
      return false;
    }

    /**
     * `binarySearch`: halves `[lo, hi]` until it is at most `probeMin` wide,
     * raising `lo` on a non-deterministic midpoint and lowering `hi`
     * otherwise; the result is `hi`.
     */
    method BinarySearch(cmd: string) returns (r: int)
      requires probeMin >= 1
      modifies this
      ensures r == hi && hi - lo <= probeMin
      ensures old(lo) <= lo && hi <= old(hi) && (lo <= hi || (lo == old(lo) && hi == old(hi)))
      ensures lo == old(lo) || NonDet(old(timing), cmd, lo)
      ensures hi == old(hi) || !NonDet(old(timing), cmd, hi)
      ensures SameOutside(timing, old(timing), cmd)
      ensures r == Search(old(timing), cmd, old(lo), old(hi))
    {
      ghost var base := timing;
      SameOutsideRefl(base, cmd);
      while hi - lo > probeMin
        invariant Search(base, cmd, lo, hi) == Search(base, cmd, old(lo), old(hi))
        invariant SameOutside(timing, base, cmd)
        invariant old(lo) <= lo && hi <= old(hi) && (lo <= hi || (lo == old(lo) && hi == old(hi)))
        invariant lo == old(lo) || NonDet(base, cmd, lo)
        invariant hi == old(hi) || !NonDet(base, cmd, hi)
        decreases hi - lo
      {
        var mid := lo + (hi - lo) / 2;
        assert Search(base, cmd, lo, hi) == if NonDet(base, cmd, mid) then Search(base, cmd, mid, hi) else Search(base, cmd, lo, mid);
        SetKeeps(timing, base, cmd, mid);
        SetTimingParameter(cmd, mid);
        if nonDeterministic(timing) {
          lo := mid;
        } else {
          hi := mid;
        }
      }
      return hi;
    }

    /** `setAllTimingParameters`: every command's parameter set to `time`, left to right. */
    method SetAllTimingParameters(cmds: seq<string>, time: int)
      modifies this
      ensures timing == ApplyAll(old(timing), cmds, time)
      ensures lo == old(lo) && hi == old(hi)
    {
      var i := 0;
      while i < |cmds|
        invariant 0 <= i <= |cmds|
        invariant ApplyAll(old(timing), cmds, time) == ApplyAll(timing, cmds[i..], time)
        invariant lo == old(lo) && hi == old(hi)
      {
        assert cmds[i..][1..] == cmds[i + 1..];
        SetTimingParameter(cmds[i], time);
        i := i + 1;
      }
    }

    /**
     * `findDeterministicTimesValues`: all parameters at `probeHi`, a control
     * run that must be deterministic, then for every command its best time
     * (`probeLo` when `findLimits` holds, else the binary search's result),
     * which is recorded and set.
     */
    method FindDeterministicTimesValues(probeCmd: string) returns (r: Result<map<string, int>, Exception>)
      requires probeMin >= 1
      modifies this
      ensures r.Err? <==> nonDeterministic(ApplyAll(old(timing), JavaSplit(probeCmd, ','), probeHi))
      ensures r.Err? ==> r.error == ProbeFailure("Non-determinism at max timing values")
      ensures r.Ok? ==> forall c :: c in r.value <==> c in JavaSplit(probeCmd, ',')
      ensures r.Ok? ==> forall c :: c in r.value ==> r.value[c] >= probeLo
      ensures r.Ok? ==> (timing, r.value) == ProbeFrom(ApplyAll(old(timing), JavaSplit(probeCmd, ','), probeHi), JavaSplit(probeCmd, ','), map[])
    {
      var cmds := JavaSplit(probeCmd, ',');
      SetAllTimingParameters(cmds, probeHi);
      if nonDeterministic(timing) {
        return Err(ProbeFailure("Non-determinism at max timing values"));
      }
      var best: map<string, int> := map[];
      ghost var start := timing;
      assert cmds[0..] == cmds;
      var i := 0;
      while i < |cmds|
        invariant 0 <= i <= |cmds|
        invariant ProbeFrom(timing, cmds[i..], best) == ProbeFrom(start, cmds, map[])
      {
        ghost var t := timing;
        var bestTime;
        var first := FindLimits(cmds[i]);
        if first {
          bestTime := probeLo;
        } else {
          ghost var t' := timing;
          ghost var (l, h) := (lo, hi);
          bestTime := BinarySearch(cmds[i]);
          SearchSameOutside(t', t, cmds[i], l, h);
          SameOutsideTrans(timing, t', t, cmds[i]);
        }
        assert bestTime == BestTime(t, cmds[i]);
        SetKeeps(timing, t, cmds[i], bestTime);
        best := best[cmds[i] := bestTime];
        SetTimingParameter(cmds[i], bestTime);
        assert cmds[i..][1..] == cmds[i + 1..];
        i := i + 1;
      }
      assert cmds[i..] == [];
      ProbeFromRecords(start, cmds, map[]);
      return Ok(best);
    }

    /** `isValid(cmd)`: the command names a timing parameter or part of some input's name. */
    method IsValidCommand(cmd: string) returns (b: bool)
      ensures b == ValidCommand(cmd, timing.inputs)
    {
      if Contains(cmd, "timeout") || Contains(cmd, "runWait") {
        return true;
      }
      var i := 0;
      while i < |timing.inputs|
        invariant 0 <= i <= |timing.inputs|
        invariant forall j :: 0 <= j < i ==> !Contains(timing.inputs[j].name, cmd)
      {
        if Contains(timing.inputs[i].name, cmd) {
          return true;
        }
        i := i + 1;
      }
      return false;
    }

    /** `isValid()`: every comma-separated command is valid. */
    method IsValid(probeCmd: string) returns (b: bool)
      ensures b <==> forall c | c in JavaSplit(probeCmd, ',') :: ValidCommand(c, timing.inputs)
    {
      var cmds := JavaSplit(probeCmd, ',');
      var i := 0;
      while i < |cmds|
        invariant 0 <= i <= |cmds|
        invariant forall j :: 0 <= j < i ==> ValidCommand(cmds[j], timing.inputs)
      {
        var ok := IsValidCommand(cmds[i]);
        if !ok {
          return false;
        }
        i := i + 1;
      }
      return true;
    }
  }

  /** A one-entry map is presented as `{key=value}`. */
  lemma PresentOne(k: string, v: int)
    ensures Present([(k, v)]) == "{" + k + "=" + IntToString(v) + "}"
  {
    var items := seq(1, i requires 0 <= i < 1 => [(k, v)][i].0 + "=" + IntToString([(k, v)][i].1));
    assert items == [k + "=" + IntToString(v)];
  }
}
