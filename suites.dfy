/** Cipher-suite negotiation in message_1 (sections 5.2.2 and 6.3 of RFC 9528). */
module CipherSuites {
  import opened Types
  import opened Cbor

  /** The first element of `xs` that also occurs in `ys`. */
  function FirstShared(xs: seq<int>, ys: seq<int>): (r: Option<int>)
    ensures r.Some? ==> r.value in xs && r.value in ys
    ensures r.None? ==> forall i :: 0 <= i < |xs| ==> xs[i] !in ys
  {
    if |xs| == 0 then None
    else if xs[0] in ys then Some(xs[0])
    else
      assert forall i :: 1 <= i < |xs| ==> xs[i] == xs[1..][i - 1];
      FirstShared(xs[1..], ys)
  }

  /** The shared element found is the leftmost one: no earlier element of `xs` is in `ys`. */
  lemma {:induction false} FirstSharedLeftmost(xs: seq<int>, ys: seq<int>)
    requires FirstShared(xs, ys).Some?
    ensures exists i :: 0 <= i < |xs| && xs[i] == FirstShared(xs, ys).value && forall j :: 0 <= j < i ==> xs[j] !in ys
    decreases |xs|
  {
    if xs[0] !in ys {
      FirstSharedLeftmost(xs[1..], ys);
      var i :| 0 <= i < |xs[1..]| && xs[1..][i] == FirstShared(xs, ys).value && forall j :: 0 <= j < i ==> xs[1..][j] !in ys;
      assert xs[i + 1] == FirstShared(xs, ys).value;
      forall j | 0 <= j < i + 1 ensures xs[j] !in ys {
        if j > 0 { assert xs[j] == xs[1..][j - 1]; }
      }
    } else {
      assert xs[0] == FirstShared(xs, ys).value;
    }
  }

  /**
   * The initiator's cipher suite: its most preferred one while no SUITES_R is
   * known, otherwise its most preferred one that the responder supports.
   * A choice of -1 means none; an empty own list raises an exception.
   */
  function SelectedSuite(supported: seq<int>, peerSupported: Option<seq<int>>): (r: Result<Option<int>, Exception>)
    ensures supported == [] <==> r == Err(IndexOutOfBounds)
    ensures supported != [] && (peerSupported.None? || peerSupported.value == []) ==>
              r == Ok(if supported[0] == -1 then None else Some(supported[0]))
    ensures supported != [] && peerSupported.Some? && peerSupported.value != [] ==>
              var s := FirstShared(supported, peerSupported.value);
              r == Ok(if s.None? || s.value == -1 then None else s)
  {
    if supported == [] then Err(IndexOutOfBounds)
    else
      var selected :=
        if peerSupported.None? || peerSupported.value == [] then supported[0]
        else match FirstShared(supported, peerSupported.value)
             case None => -1
             case Some(s) => s;
      Ok(if selected == -1 then None else Some(selected))
  }

  /** The suite selection of `writeMessage1`, with its search loop. */
  method SelectCipherSuite(supported: seq<int>, peerSupported: Option<seq<int>>) returns (r: Result<Option<int>, Exception>)
    ensures r == SelectedSuite(supported, peerSupported)
  {
    if |supported| == 0 {
      return Err(IndexOutOfBounds);
    }
    var selected := -1;
    var preferred := supported[0];
    if peerSupported.None? || |peerSupported.value| == 0 {
      selected := preferred;
    } else {
      var peer := peerSupported.value;
      var i := 0;
      while i < |supported|
        invariant 0 <= i <= |supported|
        invariant FirstShared(supported, peer) == FirstShared(supported[i..], peer)
      {
        if supported[i] in peer {
          selected := supported[i];
          break;
        }
        assert supported[i..][1..] == supported[i + 1..];
        i := i + 1;
      }
      assert i == |supported| ==> supported[i..] == [];
    }
    r := Ok(if selected == -1 then None else Some(selected));
  }

  /** The prefix of `xs` up to and including the first occurrence of `x` (all of `xs` if there is none). */
  function PrefixThrough(xs: seq<int>, x: int): (r: seq<int>)
    ensures |r| <= |xs| && r == xs[..|r|]
    ensures x in xs ==> |r| >= 1 && r[|r| - 1] == x && x !in r[..|r| - 1]
    ensures x !in xs ==> r == xs
  {
    if |xs| == 0 then []
    else if xs[0] == x then [x]
    else
      var t := PrefixThrough(xs[1..], x);
      assert ([xs[0]] + t)[1..] == t;
      [xs[0]] + t
  }

  function IntItems(xs: seq<int>): (r: seq<Cbor>)
    ensures |r| == |xs| && forall i :: 0 <= i < |xs| ==> r[i] == Int(xs[i])
  {
    if |xs| == 0 then [] else [Int(xs[0])] + IntItems(xs[1..])
  }

  /**
   * SUITES_I: the selected suite as an integer when it is the initiator's
   * most preferred one, otherwise an array of the initiator's suites in order
   * of preference up to and including the selected one.
   */
  function SuitesIFor(supported: seq<int>, selected: int): (r: Cbor)
    requires supported != []
    ensures r.Int? <==> selected == supported[0]
    ensures r.Int? ==> r.v == selected
    ensures r.Array? ==> |r.items| > 0 && r.items[0] == Int(supported[0])
    ensures r.Array? && selected in supported ==> |r.items| >= 2 && r.items[|r.items| - 1] == Int(selected)
  {
    if selected == supported[0] then Int(selected) else Array(IntItems(PrefixThrough(supported, selected)))
  }

  /** The loop of `writeMessage1` that builds SUITES_I. */
  method BuildSuitesI(supported: seq<int>, selected: int) returns (r: Cbor)
    requires supported != []
    ensures r == SuitesIFor(supported, selected)
  {
    if selected == supported[0] {
      return Int(selected);
    }
    var items: seq<Cbor> := [];
    var i := 0;
    while i < |supported|
      invariant 0 <= i <= |supported|
      invariant items == IntItems(supported[..i])
      invariant selected !in supported[..i]
    {
      items := items + [Int(supported[i])];
      IntItemsAppend(supported[..i], supported[i]);
      assert supported[..i + 1] == supported[..i] + [supported[i]];
      if supported[i] == selected {
        PrefixThroughAt(supported, selected, i);
        return Array(items);
      }
      i := i + 1;
    }
    assert supported[..i] == supported;
    r := Array(items);
  }

  lemma {:induction false} PrefixThroughAt(xs: seq<int>, x: int, i: nat)
    requires i < |xs| && xs[i] == x && x !in xs[..i]
    ensures PrefixThrough(xs, x) == xs[..i + 1]
    decreases i
  {
    if i > 0 {
      assert xs[0] in xs[..i];
      assert xs[1..][..i - 1] == xs[1..i];
      PrefixThroughAt(xs[1..], x, i - 1);
      assert [xs[0]] + xs[1..][..i] == xs[..i + 1];
    }
  }

  lemma IntItemsAppend(xs: seq<int>, x: int)
    ensures IntItems(xs + [x]) == IntItems(xs) + [Int(x)]
  {
  }

  /** What the responder concludes from SUITES_I. */
  datatype SuitesVerdict =
    | Malformed                                        // message_1 is rejected outright
    | Negotiated(selected: int, offer: Option<seq<int>>) // a non-empty offer calls for an error with SUITES_R

  /**
   * The checks SUITES_I must pass in `readMessage1`, in order, and the
   * SUITES_R offer they lead to: as written, or with the intended offer.
   */
  function ReadSuitesI(suitesI: Cbor, supported: seq<int>, reading: Reading): (r: Result<SuitesVerdict, Exception>)
    ensures TypeOf(suitesI) != Integer && TypeOf(suitesI) != ArrayType ==> r == Ok(Malformed)
    ensures r.Ok? && r.value.Negotiated? ==> r.value.selected >= 0
    ensures TypeOf(suitesI) == Integer && r.Ok? && r.value.Negotiated? ==>
              AsInt32(suitesI) == Ok(r.value.selected) &&
              r.value.offer == (if r.value.selected in supported then None else Some(supported))
  {
    if TypeOf(suitesI) == Integer then
      match AsInt32(suitesI)
      case Err(e) => Err(e)
      case Ok(selected) =>
        if selected < 0 then Ok(Malformed)
        else Ok(Negotiated(selected, if selected in supported then None else Some(supported)))
    else if TypeOf(suitesI) == ArrayType then ReadArraySuitesI(Untag(suitesI).items, supported, reading)
    else Ok(Malformed)
  }

  /** The checks on an array SUITES_I: at least two suites, each a non-negative 32-bit integer. */
  function ReadArraySuitesI(items: seq<Cbor>, supported: seq<int>, reading: Reading): (r: Result<SuitesVerdict, Exception>)
    ensures r.Ok? && r.value.Negotiated? ==>
              |items| >= 2 && r.value.selected >= 0 && AsInt32(items[|items| - 1]) == Ok(r.value.selected)
    ensures r.Ok? && r.value.Negotiated? && reading == AsWritten && r.value.offer.Some? ==>
              r.value.offer.value == [] || r.value.offer.value == supported
    ensures r.Ok? && r.value.Negotiated? && reading == Intended && r.value.offer.Some? && r.value.offer.value != supported ==>
              |r.value.offer.value| == 1 && r.value.offer.value[0] in supported
  {
    if |items| < 2 then Ok(Malformed)
    else
      match SuiteItems(items)
      case Err(e) => Err(e)
      case Ok(None) => Ok(Malformed)
      case Ok(Some(suites)) =>
        var offer := if reading == AsWritten then ArrayOfferAsWritten(suites, supported) else ArrayOffer(suites, supported);
        Ok(Negotiated(suites[|suites| - 1], offer))
  }

  /**
   * The SUITES_R the responder offers after an array SUITES_I, as written:
   * all its suites when it shares none with SUITES_I, and otherwise, whenever
   * the selected (last) suite is not the first shared one,
   * `new ArrayList<>(firstSharedCipherSuite)`, which is an empty list whose
   * capacity is that suite.
   */
  function ArrayOfferAsWritten(suites: seq<int>, supported: seq<int>): (r: Option<seq<int>>)
    requires |suites| > 0
    ensures r.None? <==> FirstShared(suites, supported) == Some(suites[|suites| - 1])
    ensures FirstShared(suites, supported).None? ==> r == Some(supported)
    ensures FirstShared(suites, supported).Some? && r.Some? ==> r.value == []
  {
    var selected := suites[|suites| - 1];
    var firstShared := FirstShared(suites, supported);
    if selected !in supported then (if firstShared.None? then Some(supported) else Some([]))
    else if firstShared != Some(selected) then Some([])
    else None
  }

  /**
   * The counter-offer as intended: no offer when the selected suite is the
   * first shared one, otherwise that first shared suite alone, or all the
   * responder's suites when none is shared.
   */
  function ArrayOffer(suites: seq<int>, supported: seq<int>): (r: Option<seq<int>>)
    requires |suites| > 0
    ensures r.None? <==> FirstShared(suites, supported) == Some(suites[|suites| - 1])
    ensures r.Some? && FirstShared(suites, supported).Some? ==> r.value == [FirstShared(suites, supported).value]
    ensures FirstShared(suites, supported).None? ==> r == Some(supported)
  {
    var selected := suites[|suites| - 1];
    var firstShared := FirstShared(suites, supported);
    if firstShared.None? then Some(supported)
    else if firstShared.value != selected then Some([firstShared.value])
    else None
  }

  /** The suites of an array SUITES_I, checked left to right: each must be a non-negative 32-bit integer. */
  function SuiteItems(items: seq<Cbor>): (r: Result<Option<seq<int>>, Exception>)
    ensures r.Ok? && r.value.Some? ==> |r.value.value| == |items|
    ensures r.Ok? && r.value.Some? ==> forall i :: 0 <= i < |items| ==>
              r.value.value[i] >= 0 && AsInt32(items[i]) == Ok(r.value.value[i])
  {
    if |items| == 0 then Ok(Some([]))
    else if TypeOf(items[0]) != Integer then Ok(None)
    else
      match AsInt32(items[0])
      case Err(e) => Err(e)
      case Ok(v) =>
        if v < 0 then Ok(None)
        else
          match SuiteItems(items[1..])
          case Err(e) => Err(e)
          case Ok(None) => Ok(None)
          case Ok(Some(rest)) =>
            assert forall i :: 1 <= i < |items| ==> items[i] == items[1..][i - 1];
            Ok(Some([v] + rest))
  }

  /**
   * A SUITES_I written by an initiator that chose from the responder's own
   * list is accepted by that responder without any counter-offer.
   */
  lemma InitiatorChoiceAccepted(own: seq<int>, responder: seq<int>, reading: Reading)
    requires own != [] && responder != []
    requires forall i :: 0 <= i < |own| ==> 0 <= own[i] <= INT32_MAX
    requires SelectedSuite(own, Some(responder)).Ok? && SelectedSuite(own, Some(responder)).value.Some?
    ensures var s := SelectedSuite(own, Some(responder)).value.value;
            ReadSuitesI(SuitesIFor(own, s), responder, reading) == Ok(Negotiated(s, None))
  {
    var s := SelectedSuite(own, Some(responder)).value.value;
    assert FirstShared(own, responder) == Some(s);
    assert s in responder && s in own;
    if s == own[0] {
      assert SuitesIFor(own, s) == Int(s);
      assert AsInt32(Int(s)) == Ok(s);
    } else {
      var p := PrefixThrough(own, s);
      var items := IntItems(p);
      assert p[0] == own[0];
      assert forall i :: 0 <= i < |p| ==> 0 <= p[i] <= INT32_MAX by {
        forall i | 0 <= i < |p| ensures 0 <= p[i] <= INT32_MAX { assert p[i] == own[i]; }
      }
      SuiteItemsOfInts(p);
      FirstSharedPrefix(own, responder, s);
      AcceptArray(p, responder, s, reading);
      assert SuitesIFor(own, s) == Array(items);
    }
  }

  lemma AcceptArray(p: seq<int>, responder: seq<int>, s: int, reading: Reading)
    requires |p| >= 2 && p[|p| - 1] == s && s in responder
    requires SuiteItems(IntItems(p)) == Ok(Some(p)) && FirstShared(p, responder) == Some(s)
    ensures ReadSuitesI(Array(IntItems(p)), responder, reading) == Ok(Negotiated(s, None))
  {
    ReadSuitesIArray(IntItems(p), responder, reading);
    assert ReadArraySuitesI(IntItems(p), responder, reading) == Ok(Negotiated(s, None));
  }

  lemma {:induction false} SuiteItemsOfInts(p: seq<int>)
    requires forall i :: 0 <= i < |p| ==> 0 <= p[i] <= INT32_MAX
    ensures SuiteItems(IntItems(p)) == Ok(Some(p))
    decreases |p|
  {
    if |p| > 0 {
      SuiteItemsOfInts(p[1..]);
      assert IntItems(p)[1..] == IntItems(p[1..]);
      assert [p[0]] + p[1..] == p;
    }
  }

  lemma {:induction false} FirstSharedPrefix(xs: seq<int>, ys: seq<int>, s: int)
    requires FirstShared(xs, ys) == Some(s)
    ensures FirstShared(PrefixThrough(xs, s), ys) == Some(s)
    decreases |xs|
  {
    if xs[0] != s {
      assert xs[0] !in ys;
      FirstSharedPrefix(xs[1..], ys, s);
      var t := PrefixThrough(xs[1..], s);
      assert PrefixThrough(xs, s) == [xs[0]] + t;
      assert ([xs[0]] + t)[1..] == t;
    }
  }

  /**
   * As written, when the responder supports a suite that the initiator listed
   * before its selected one, the offered SUITES_R is empty, and an initiator
   * that receives an empty SUITES_R selects as if it had received none.
   */
  lemma EarlierSharedSuiteOffersNothing(suites: seq<int>, supported: seq<int>, own: seq<int>)
    requires |suites| >= 2 && own != []
    requires FirstShared(suites, supported).Some? && FirstShared(suites, supported).value != suites[|suites| - 1]
    ensures ArrayOfferAsWritten(suites, supported) == Some([])
    ensures SelectedSuite(own, ArrayOfferAsWritten(suites, supported)) == SelectedSuite(own, None)
  {
  }

  /**
   * On the whole SUITES_I reading: an array SUITES_I that lists a suite the
   * responder supports before the selected one is met, as written, with an
   * empty SUITES_R, and with the intended reading by that shared suite.
   */
  lemma AsWrittenReadOffersNothing(suites: seq<int>, supported: seq<int>)
    requires |suites| >= 2
    requires forall i :: 0 <= i < |suites| ==> 0 <= suites[i] <= INT32_MAX
    requires FirstShared(suites, supported).Some? && FirstShared(suites, supported).value != suites[|suites| - 1]
    ensures ReadSuitesI(Array(IntItems(suites)), supported, AsWritten) ==
            Ok(Negotiated(suites[|suites| - 1], Some([])))
    ensures ReadSuitesI(Array(IntItems(suites)), supported, Intended) ==
            Ok(Negotiated(suites[|suites| - 1], Some([FirstShared(suites, supported).value])))
  {
    SuiteItemsOfInts(suites);
    ReadSuitesIArray(IntItems(suites), supported, AsWritten);
    ReadSuitesIArray(IntItems(suites), supported, Intended);
  }

  /**
   * With the intended offer, an initiator whose SUITES_I listed its own
   * suites in order selects the first shared suite next, and the responder
   * then accepts it without a further offer.
   */
  lemma IntendedOfferSelectsFirstShared(suites: seq<int>, supported: seq<int>, own: seq<int>)
    requires 2 <= |suites| <= |own| && suites == own[..|suites|]
    requires forall i :: 0 <= i < |own| ==> 0 <= own[i] <= INT32_MAX
    requires FirstShared(suites, supported).Some? && FirstShared(suites, supported).value != suites[|suites| - 1]
    ensures ArrayOffer(suites, supported) == Some([FirstShared(suites, supported).value])
    ensures SelectedSuite(own, ArrayOffer(suites, supported)) == Ok(FirstShared(suites, supported))
    ensures ReadSuitesI(SuitesIFor(own, FirstShared(suites, supported).value), supported, Intended)
            == Ok(Negotiated(FirstShared(suites, supported).value, None))
  {
    var f := FirstShared(suites, supported).value;
    FirstSharedOfPrefix(own, suites, supported);
    FirstSharedSingleton(own, f);
    assert FirstShared(own, supported) == Some(f);
    InitiatorChoiceAccepted(own, supported, Intended);
  }

  /** A prefix of `xs` that shares an element with `ys` finds the same first shared element as `xs`. */
  lemma {:induction false} FirstSharedOfPrefix(xs: seq<int>, p: seq<int>, ys: seq<int>)
    requires |p| <= |xs| && p == xs[..|p|] && FirstShared(p, ys).Some?
    ensures FirstShared(xs, ys) == FirstShared(p, ys)
    decreases |p|
  {
    if xs[0] !in ys {
      assert p[1..] == xs[1..][..|p| - 1];
      FirstSharedOfPrefix(xs[1..], p[1..], ys);
    }
  }

  /** Looking for the first element shared with `[f]` finds `f`, when `xs` holds it. */
  lemma {:induction false} FirstSharedSingleton(xs: seq<int>, f: int)
    requires f in xs
    ensures FirstShared(xs, [f]) == Some(f)
    decreases |xs|
  {
    if xs[0] != f {
      assert f in xs[1..];
      FirstSharedSingleton(xs[1..], f);
    }
  }

  lemma ReadSuitesIArray(items: seq<Cbor>, supported: seq<int>, reading: Reading)
    ensures ReadSuitesI(Array(items), supported, reading) == ReadArraySuitesI(items, supported, reading)
  {
    assert TypeOf(Array(items)) == ArrayType && Untag(Array(items)).items == items;
  }
}
