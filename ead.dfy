/** Pre-parsing of external authorization data (section 3.8 of RFC 9528). */
module Ead {
  import opened Types
  import opened Cbor

  const EAD_LABEL_PADDING := 0

  /** What the pre-parsing loop does with the item at one position. */
  datatype EadAction =
    | Stop(outcome: Result<Option<seq<Cbor>>, Exception>) // the method returns `outcome`
    | Skip(width: nat)                                     // the item (label and value) is dropped
    | Keep(width: nat)                                     // the item is copied to the result

  /** The number of input items the EAD item at position `i` takes: its label and, if it is a byte string, the next one. */
  function StepAt(ys: seq<Cbor>, i: nat): nat
  {
    if i + 1 < |ys| && TypeOf(ys[i + 1]) == ByteString then 2 else 1
  }

  /**
   * The checks `preParseEAD` makes at position `i`: a label that is not an
   * integer, or one followed by an item that is neither an integer nor a byte
   * string, gives `null`; padding and unsupported non-critical items are
   * dropped with their value; an unsupported critical item gives `null`; the
   * rest are kept. The label is read with `AsInt32`, which may raise.
   */
  function EadActionAt(ys: seq<Cbor>, i: nat, supported: set<int>): (a: EadAction)
    requires i < |ys|
    ensures !a.Stop? ==> a.width == StepAt(ys, i) && i + a.width <= |ys|
    ensures a.Stop? ==> !(a.outcome.Ok? && a.outcome.value.Some?)
  {
    if TypeOf(ys[i]) != Integer then Stop(Ok(None))
    else if i + 1 < |ys| && TypeOf(ys[i + 1]) != Integer && TypeOf(ys[i + 1]) != ByteString then Stop(Ok(None))
    else
      match AsInt32(ys[i])
      case Err(e) => Stop(Err(e))
      case Ok(eadLabel) =>
        if eadLabel == EAD_LABEL_PADDING then Skip(StepAt(ys, i))
        else if JavaAbs(eadLabel) !in supported then
          if eadLabel < 0 then Stop(Ok(None)) else Skip(StepAt(ys, i))
        else Keep(StepAt(ys, i))
  }

  /**
   * The result of the pre-parsing walk from position `i` of `ys` on, with
   * the items `kept` so far: the kept items once the input is used up, or
   * the outcome of the first check that stops the walk.
   */
  function EadWalk(ys: seq<Cbor>, i: nat, kept: seq<Cbor>, supported: set<int>): (r: Result<Option<seq<Cbor>>, Exception>)
    decreases |ys| - i
  {
    if i >= |ys| then Ok(Some(kept))
    else
      match EadActionAt(ys, i, supported)
      case Stop(outcome) => outcome
      case Skip(w) => EadWalk(ys, i + w, kept, supported)
      case Keep(w) => EadWalk(ys, i + w, kept + ys[i..i + w], supported)
  }

  /** `preParseEAD`: an exception where Java sizes an array with a negative length, otherwise the walk from `baseIndex`. */
  function PreParseEadSpec(objectList: seq<Cbor>, baseIndex: nat, supported: set<int>): Result<Option<seq<Cbor>>, Exception>
  {
    if baseIndex > |objectList| then Err(NegativeArraySize) else EadWalk(objectList, baseIndex, [], supported)
  }

  /** `Arrays.copyOf(a, n)` for `n` within the length of `a`. */
  method CopyOf<T>(a: array<T>, n: nat) returns (ret: array<T>)
    requires n <= a.Length
    ensures fresh(ret) && ret[..] == a[..n]
  {
    ret := new T[n](i requires 0 <= i < n reads a => a[i]);
  }

  /** Stores `items` in `a` from index `from` on. */
  method Append<T>(a: array<T>, from: nat, items: seq<T>)
    requires from + |items| <= a.Length
    modifies a
    ensures a[..from + |items|] == old(a[..from]) + items
    ensures forall j :: from + |items| <= j < a.Length ==> a[j] == old(a[j])
  {
    var k := 0;
    while k < |items|
      invariant 0 <= k <= |items|
      invariant a[..from + k] == old(a[..from]) + items[..k]
      invariant forall j :: from + k <= j < a.Length ==> a[j] == old(a[j])
    {
      a[from + k] := items[k];
      assert items[..k + 1] == items[..k] + [items[k]];
      k := k + 1;
    }
    assert items[..k] == items;
  }

  /** `preParseEAD`: walks the items from `baseIndex`, copying the kept ones into an array. */
  method PreParseEad(objectList: seq<Cbor>, baseIndex: nat, supported: set<int>) returns (r: Result<Option<seq<Cbor>>, Exception>)
    ensures r == PreParseEadSpec(objectList, baseIndex, supported)
  {
    if baseIndex > |objectList| {
      return Err(NegativeArraySize);
    }
    var eadArray := new Cbor[|objectList| - baseIndex];
    var eadIndex := 0;
    var i := baseIndex;
    ghost var kept: seq<Cbor> := [];
    while i < |objectList|
      invariant baseIndex <= i <= |objectList|
      invariant eadIndex == |kept| <= i - baseIndex
      invariant eadArray[..eadIndex] == kept
      invariant EadWalk(objectList, i, kept, supported) == PreParseEadSpec(objectList, baseIndex, supported)
      decreases |objectList| - i
    {
      var action := EadActionAt(objectList, i, supported);
      match action
      case Stop(outcome) =>
        return outcome;
      case Skip(w) =>
        i := i + w;
      case Keep(w) =>
        Append(eadArray, eadIndex, objectList[i..i + w]);
        kept := kept + objectList[i..i + w];
        eadIndex := eadIndex + w;
        i := i + w;
    }
    var ret := CopyOf(eadArray, eadIndex);
    r := Ok(Some(ret[..]));
  }

  /** `xs` can be obtained from `ys` by deleting items. */
  ghost predicate IsSubsequence(xs: seq<Cbor>, ys: seq<Cbor>)
    decreases |ys|
  {
    if |xs| == 0 then true
    else if |ys| == 0 then false
    else (xs[0] == ys[0] && IsSubsequence(xs[1..], ys[1..])) || IsSubsequence(xs, ys[1..])
  }

  lemma {:induction false} SubsequenceDrop(xs: seq<Cbor>, ys: seq<Cbor>, k: nat)
    requires k <= |ys| && IsSubsequence(xs, ys[k..])
    ensures IsSubsequence(xs, ys)
    decreases k
  {
    if k > 0 {
      assert ys[k - 1..][1..] == ys[k..];
      assert IsSubsequence(xs, ys[k - 1..]);
      SubsequenceDrop(xs, ys, k - 1);
    }
  }

  lemma {:induction false} SubsequenceKeep(p: seq<Cbor>, xs: seq<Cbor>, ys: seq<Cbor>)
    requires |p| <= |ys| && p == ys[..|p|] && IsSubsequence(xs, ys[|p|..])
    ensures IsSubsequence(p + xs, ys)
    decreases |p|
  {
    if |p| > 0 {
      assert (p + xs)[0] == ys[0];
      assert (p + xs)[1..] == p[1..] + xs;
      assert ys[1..][..|p| - 1] == p[1..] && ys[1..][|p| - 1..] == ys[|p|..];
      SubsequenceKeep(p[1..], xs, ys[1..]);
    } else {
      assert p + xs == xs && ys[|p|..] == ys;
    }
  }

  lemma {:induction false} SubsequenceLength(xs: seq<Cbor>, ys: seq<Cbor>)
    requires IsSubsequence(xs, ys)
    ensures |xs| <= |ys|
    decreases |ys|
  {
    if |xs| > 0 {
      if xs[0] == ys[0] && IsSubsequence(xs[1..], ys[1..]) {
        SubsequenceLength(xs[1..], ys[1..]);
      } else {
        SubsequenceLength(xs, ys[1..]);
      }
    }
  }

  lemma {:induction false} SubsequenceMembers(xs: seq<Cbor>, ys: seq<Cbor>)
    requires IsSubsequence(xs, ys)
    ensures forall i :: 0 <= i < |xs| ==> xs[i] in ys
    decreases |ys|
  {
    if |xs| > 0 {
      if xs[0] == ys[0] && IsSubsequence(xs[1..], ys[1..]) {
        SubsequenceMembers(xs[1..], ys[1..]);
        forall i | 0 <= i < |xs| ensures xs[i] in ys {
          if i > 0 { assert xs[i] == xs[1..][i - 1]; }
        }
      } else {
        SubsequenceMembers(xs, ys[1..]);
      }
    }
  }

  /** The items that pre-parsing keeps: integer ones are labels, each supported and none of them padding. */
  ghost predicate KeptLabelsSupported(out: seq<Cbor>, supported: set<int>)
  {
    forall i :: 0 <= i < |out| && TypeOf(out[i]) == Integer ==>
      AsInt32(out[i]).Ok? && AsInt32(out[i]).value != EAD_LABEL_PADDING && JavaAbs(AsInt32(out[i]).value) in supported
  }

  lemma KeptLabelsAppend(a: seq<Cbor>, b: seq<Cbor>, supported: set<int>)
    requires KeptLabelsSupported(a, supported) && KeptLabelsSupported(b, supported)
    ensures KeptLabelsSupported(a + b, supported)
  {
    forall i | 0 <= i < |a + b| && TypeOf((a + b)[i]) == Integer
      ensures AsInt32((a + b)[i]).Ok? && AsInt32((a + b)[i]).value != EAD_LABEL_PADDING && JavaAbs(AsInt32((a + b)[i]).value) in supported
    {
      if i >= |a| { assert (a + b)[i] == b[i - |a|]; } else { assert (a + b)[i] == a[i]; }
    }
  }

  /** The shape `EadWalkKept` promises for the walk from `i` with `kept`, ending in `out`. */
  ghost predicate KeptShape(out: seq<Cbor>, kept: seq<Cbor>, ys: seq<Cbor>, i: nat, supported: set<int>)
    requires i <= |ys|
  {
    |kept| <= |out| && out[..|kept|] == kept &&
    IsSubsequence(out[|kept|..], ys[i..]) && KeptLabelsSupported(out[|kept|..], supported)
  }

  lemma {:induction false} EadWalkKept(ys: seq<Cbor>, i: nat, kept: seq<Cbor>, supported: set<int>)
    requires i <= |ys|
    requires EadWalk(ys, i, kept, supported).Ok? && EadWalk(ys, i, kept, supported).value.Some?
    ensures KeptShape(EadWalk(ys, i, kept, supported).value.value, kept, ys, i, supported)
    decreases |ys| - i
  {
    var out := EadWalk(ys, i, kept, supported).value.value;
    if i == |ys| {
      assert out[|kept|..] == [];
    } else {
      match EadActionAt(ys, i, supported)
      case Skip(w) =>
        EadWalkKept(ys, i + w, kept, supported);
        SkipShape(out, kept, ys, i, w, supported);
      case Keep(w) =>
        EadWalkKept(ys, i + w, kept + ys[i..i + w], supported);
        KeepShape(out, kept, ys, i, w, supported);
    }
  }

  lemma SkipShape(out: seq<Cbor>, kept: seq<Cbor>, ys: seq<Cbor>, i: nat, w: nat, supported: set<int>)
    requires i + w <= |ys| && KeptShape(out, kept, ys, i + w, supported)
    ensures KeptShape(out, kept, ys, i, supported)
  {
    assert ys[i..][w..] == ys[i + w..];
    SubsequenceDrop(out[|kept|..], ys[i..], w);
  }

  lemma KeepShape(out: seq<Cbor>, kept: seq<Cbor>, ys: seq<Cbor>, i: nat, w: nat, supported: set<int>)
    requires i < |ys| && EadActionAt(ys, i, supported) == Keep(w)
    requires KeptShape(out, kept + ys[i..i + w], ys, i + w, supported)
    ensures KeptShape(out, kept, ys, i, supported)
  {
    var item := ys[i..i + w];
    var tail := out[|kept| + w..];
    assert out[|kept|..] == item + tail;
    assert ys[i..][..w] == item && ys[i..][w..] == ys[i + w..];
    SubsequenceKeep(item, tail, ys[i..]);
    assert KeptLabelsSupported(item, supported) by {
      assert item[0] == ys[i];
      assert w == 2 ==> item[1] == ys[i + 1];
    }
    KeptLabelsAppend(item, tail, supported);
  }

  /**
   * What survives pre-parsing is drawn from the input in its original order
   * (so it is never longer), and every label in it is a supported one.
   */
  lemma EadItemsKept(objectList: seq<Cbor>, baseIndex: nat, supported: set<int>)
    requires PreParseEadSpec(objectList, baseIndex, supported).Ok?
    requires PreParseEadSpec(objectList, baseIndex, supported).value.Some?
    ensures var out := PreParseEadSpec(objectList, baseIndex, supported).value.value;
            IsSubsequence(out, objectList[baseIndex..]) && |out| <= |objectList| - baseIndex &&
            KeptLabelsSupported(out, supported)
  {
    var out := PreParseEadSpec(objectList, baseIndex, supported).value.value;
    EadWalkKept(objectList, baseIndex, [], supported);
    assert out[0..] == out;
    SubsequenceLength(out, objectList[baseIndex..]);
  }

  /** The walk over `p + rest` from the end of `p` on is the walk over `rest`: a step only looks ahead. */
  lemma {:induction false} EadWalkShift(p: seq<Cbor>, rest: seq<Cbor>, j: nat, kept: seq<Cbor>, supported: set<int>)
    requires j <= |rest|
    ensures EadWalk(p + rest, |p| + j, kept, supported) == EadWalk(rest, j, kept, supported)
    decreases |rest| - j
  {
    if j < |rest| {
      ShiftAction(p, rest, j, supported);
      match EadActionAt(rest, j, supported)
      case Stop(_) =>
      case Skip(w) => EadWalkShift(p, rest, j + w, kept, supported);
      case Keep(w) => EadWalkShift(p, rest, j + w, kept + rest[j..j + w], supported);
    }
  }

  lemma ShiftAction(p: seq<Cbor>, rest: seq<Cbor>, j: nat, supported: set<int>)
    requires j < |rest|
    ensures EadActionAt(p + rest, |p| + j, supported) == EadActionAt(rest, j, supported)
    ensures !EadActionAt(rest, j, supported).Stop? ==>
              var w := EadActionAt(rest, j, supported).width;
              (p + rest)[|p| + j..|p| + j + w] == rest[j..j + w]
  {
    var ys := p + rest;
    assert ys[|p| + j] == rest[j];
    assert j + 1 < |rest| ==> ys[|p| + j + 1] == rest[j + 1];
    assert StepAt(ys, |p| + j) == StepAt(rest, j);
  }

  /** A supported item with its byte-string value is kept, an unsupported critical one rejects the whole EAD, an unsupported non-critical one is dropped. */
  lemma EadItemsCases(eadLabel: int, value: seq<byte>, rest: seq<Cbor>, kept: seq<Cbor>, supported: set<int>)
    requires IsInt32(eadLabel) && eadLabel != EAD_LABEL_PADDING
    ensures JavaAbs(eadLabel) in supported ==>
              EadWalk([Int(eadLabel), Bytes(value)] + rest, 0, kept, supported) ==
              EadWalk(rest, 0, kept + [Int(eadLabel), Bytes(value)], supported)
    ensures JavaAbs(eadLabel) !in supported && eadLabel < 0 ==>
              EadWalk([Int(eadLabel), Bytes(value)] + rest, 0, kept, supported) == Ok(None)
    ensures JavaAbs(eadLabel) !in supported && eadLabel > 0 ==>
              EadWalk([Int(eadLabel), Bytes(value)] + rest, 0, kept, supported) == EadWalk(rest, 0, kept, supported)
  {
    var p := [Int(eadLabel), Bytes(value)];
    var xs := p + rest;
    assert xs[0] == Int(eadLabel) && xs[1] == Bytes(value) && xs[0..2] == p;
    assert EadActionAt(xs, 0, supported) ==
           if JavaAbs(eadLabel) in supported then Keep(2) else if eadLabel < 0 then Stop(Ok(None)) else Skip(2);
    EadWalkShift(p, rest, 0, kept, supported);
    EadWalkShift(p, rest, 0, kept + p, supported);
  }

  /** What the `preParseEADleqV17` loop does with the pair whose label sits at index `j`. */
  datatype PairAction =
    | StopPairs(outcome: Result<Option<seq<Option<Cbor>>>, Exception>)
    | NextPair(slots: seq<Option<Cbor>>)  // the two array slots of the pair

  /**
   * The checks on one pair of `preParseEADleqV17` (versions up to 17): the
   * label must be a non-zero integer, a critical label must be supported, the
   * value a byte string; the pair is kept in place when its *position*, not
   * its label, is among the supported values, and its slots stay empty otherwise.
   */
  function PairActionAt(ys: seq<Cbor>, j: nat, position: nat, supported: set<int>): (a: PairAction)
    requires j + 1 < |ys|
    ensures a.NextPair? ==> |a.slots| == 2
  {
    if TypeOf(ys[j]) != Integer then StopPairs(Ok(None))
    else
      match AsInt32(ys[j])
      case Err(e) => StopPairs(Err(e))
      case Ok(eadLabel) =>
        if eadLabel == 0 then StopPairs(Ok(None))
        else if eadLabel < 0 && eadLabel !in supported then StopPairs(Ok(None))
        else if TypeOf(ys[j + 1]) != ByteString then StopPairs(Ok(None))
        else if position in supported then NextPair([Some(ys[j]), Some(ys[j + 1])])
        else NextPair([None, None])
  }

  /**
   * The array `preParseEADleqV17` fills, walking the pairs from index `j` of
   * `ys` (whose label sits at `position` of the EAD) with the `slots` filled so far.
   */
  function PairWalk(ys: seq<Cbor>, j: nat, position: nat, slots: seq<Option<Cbor>>, supported: set<int>)
    : (r: Result<Option<seq<Option<Cbor>>>, Exception>)
    decreases |ys| - j
  {
    if j >= |ys| then Ok(Some(slots))
    else if j + 1 == |ys| then Ok(None) // an odd length, rejected before the walk starts
    else
      match PairActionAt(ys, j, position, supported)
      case StopPairs(outcome) => outcome
      case NextPair(pair) => PairWalk(ys, j + 2, position + 2, slots + pair, supported)
  }

  function PreParseEadLeqV17Spec(objectList: seq<Cbor>, baseIndex: nat, supported: set<int>): Result<Option<seq<Option<Cbor>>>, Exception>
  {
    if baseIndex > |objectList| then Err(NegativeArraySize)
    else if (|objectList| - baseIndex) % 2 == 1 then Ok(None)
    else PairWalk(objectList, baseIndex, 0, [], supported)
  }

  /** `preParseEADleqV17`: fills an array of the EAD's length, pair by pair. */
  method PreParseEadLeqV17(objectList: seq<Cbor>, baseIndex: nat, supported: set<int>)
    returns (r: Result<Option<seq<Option<Cbor>>>, Exception>)
    ensures r == PreParseEadLeqV17Spec(objectList, baseIndex, supported)
  {
    if baseIndex > |objectList| {
      return Err(NegativeArraySize);
    }
    var length := |objectList| - baseIndex;
    var eadArray := new Option<Cbor>[length](_ => None);
    if length % 2 == 1 {
      return Ok(None);
    }
    var eadIndex := 0;
    while eadIndex < length
      invariant 0 <= eadIndex <= length && (length - eadIndex) % 2 == 0
      invariant forall k :: eadIndex <= k < length ==> eadArray[k] == None
      invariant PairWalk(objectList, baseIndex + eadIndex, eadIndex, eadArray[..eadIndex], supported)
             == PreParseEadLeqV17Spec(objectList, baseIndex, supported)
      decreases length - eadIndex
    {
      var action := PairActionAt(objectList, baseIndex + eadIndex, eadIndex, supported);
      match action
      case StopPairs(outcome) =>
        return outcome;
      case NextPair(pair) =>
        ghost var before := eadArray[..eadIndex];
        if pair[0].Some? {
          Append(eadArray, eadIndex, pair);
        } else {
          assert eadArray[..eadIndex + 2] == before + pair;
        }
        eadIndex := eadIndex + 2;
    }
    assert eadArray[..] == eadArray[..eadIndex];
    r := Ok(Some(eadArray[..]));
  }

  /** The slots of `out` that are filled hold the input item at the same position of the EAD. */
  ghost predicate InPlace(out: seq<Option<Cbor>>, ys: seq<Cbor>, baseIndex: nat)
  {
    baseIndex + |out| <= |ys| && forall k :: 0 <= k < |out| && out[k].Some? ==> out[k].value == ys[baseIndex + k]
  }

  lemma {:induction false} PairWalkInPlace(ys: seq<Cbor>, baseIndex: nat, j: nat, slots: seq<Option<Cbor>>, supported: set<int>)
    requires baseIndex <= j <= |ys| && |slots| == j - baseIndex && InPlace(slots, ys, baseIndex)
    requires PairWalk(ys, j, j - baseIndex, slots, supported).Ok? && PairWalk(ys, j, j - baseIndex, slots, supported).value.Some?
    ensures var out := PairWalk(ys, j, j - baseIndex, slots, supported).value.value;
            |out| == |ys| - baseIndex && InPlace(out, ys, baseIndex)
    decreases |ys| - j
  {
    if j < |ys| {
      var pair := PairActionAt(ys, j, j - baseIndex, supported).slots;
      assert InPlace(slots + pair, ys, baseIndex) by {
        forall k | 0 <= k < |slots + pair| && (slots + pair)[k].Some?
          ensures (slots + pair)[k].value == ys[baseIndex + k]
        {
          if k >= |slots| { assert (slots + pair)[k] == pair[k - |slots|]; } else { assert (slots + pair)[k] == slots[k]; }
        }
      }
      PairWalkInPlace(ys, baseIndex, j + 2, slots + pair, supported);
    }
  }

  /** Pre-parsing for versions up to 17 returns an array of the EAD's length whose filled slots are the input items in place. */
  lemma EadLeqV17InPlace(objectList: seq<Cbor>, baseIndex: nat, supported: set<int>)
    requires PreParseEadLeqV17Spec(objectList, baseIndex, supported).Ok?
    requires PreParseEadLeqV17Spec(objectList, baseIndex, supported).value.Some?
    ensures var out := PreParseEadLeqV17Spec(objectList, baseIndex, supported).value.value;
            |out| == |objectList| - baseIndex && InPlace(out, objectList, baseIndex)
  {
    PairWalkInPlace(objectList, baseIndex, baseIndex, [], supported);
  }

  /** The position test: a supported label at an unsupported position is left out, an unsupported one at a supported position is kept. */
  lemma EadLeqV17UsesPosition(eadLabel: int, value: seq<byte>)
    requires IsInt32(eadLabel) && eadLabel > 0
    ensures PreParseEadLeqV17Spec([Int(eadLabel), Bytes(value)], 0, {eadLabel}) == Ok(Some([None, None]))
    ensures PreParseEadLeqV17Spec([Int(eadLabel), Bytes(value)], 0, {0}) == Ok(Some([Some(Int(eadLabel)), Some(Bytes(value))]))
  {
    var xs := [Int(eadLabel), Bytes(value)];
    assert PairActionAt(xs, 0, 0, {eadLabel}) == NextPair([None, None]);
    assert PairActionAt(xs, 0, 0, {0}) == NextPair([Some(Int(eadLabel)), Some(Bytes(value))]);
    assert PairWalk(xs, 2, 2, [None, None], {eadLabel}) == Ok(Some([None, None]));
    var none: seq<Option<Cbor>> := [None, None];
    assert [] + none == none;
    var both := [Some(Int(eadLabel)), Some(Bytes(value))];
    assert [] + both == both;
    assert PairWalk(xs, 2, 2, both, {0}) == Ok(Some(both));
  }
}
