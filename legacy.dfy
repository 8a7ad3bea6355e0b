/**
 * The older message processor of the mapper (the `gr.ntua.softlab` copy):
 * its message-type detection, its error-message shape and construction, and
 * the consistency checks of `readMessage1` up to and including EAD_1. Its
 * connection-identifier codec is the same as the newer processor's and is
 * modelled once, by `MessageProcessor.EncodeIdentifier` and
 * `MessageProcessor.DecodeIdentifier`.
 */
module LegacyProcessor {
  import opened Types
  import opened Cbor
  import MessageProcessor
  import CipherSuites

  // ---------------------------------------------------------------------
  // Message-type detection
  // ---------------------------------------------------------------------

  /** The codes `messageTypeFromStructure` returns; `UnknownType` is its -1. */
  datatype LegacyMessageType = UnknownType | ErrorType | Msg1 | Msg2 | Msg3

  /**
   * `isErrorMessage`: at least two items; in a request the first is a
   * connection identifier other than `true` and the second an integer, in a
   * response the first is an integer.
   */
  predicate IsErrorMessage(elements: seq<Cbor>, isReq: bool)
  {
    |elements| >= 2 &&
    if isReq then elements[0] != True && TypeOf(elements[1]) == Integer
    else TypeOf(elements[0]) == Integer
  }

  function TypeOfElements(elements: seq<Cbor>, isReq: bool): LegacyMessageType
  {
    if IsErrorMessage(elements, isReq) then ErrorType
    else
      var n := |elements| - (if isReq then 1 else 0);
      if n == 4 || n == 5 then Msg1
      else if n == 2 then Msg2
      else if n == 1 then Msg3
      else UnknownType
  }

  /** `messageTypeFromStructure` of the older processor. */
  function MessageTypeFromStructure(sequence: Option<seq<byte>>, isReq: bool): (r: LegacyMessageType)
    ensures sequence.None? || DecodeSequence(sequence.value).None? ==> r == UnknownType
    ensures sequence.Some? && DecodeSequence(sequence.value).Some? ==>
              var elements := DecodeSequence(sequence.value).value;
              var n := |elements| - (if isReq then 1 else 0);
              (r == ErrorType <==> IsErrorMessage(elements, isReq)) &&
              (r == Msg1 <==> !IsErrorMessage(elements, isReq) && (n == 4 || n == 5)) &&
              (r == Msg2 <==> !IsErrorMessage(elements, isReq) && n == 2) &&
              (r == Msg3 <==> !IsErrorMessage(elements, isReq) && n == 1)
  {
    match sequence
    case None => UnknownType
    case Some(s) =>
      match DecodeSequence(s)
      case None => UnknownType
      case Some(elements) => TypeOfElements(elements, isReq)
  }

  /**
   * On sequences of at most three items the two processors agree, the older
   * one's message_3 being the newer one's "message_3 or message_4" up to
   * version 19.
   */
  lemma AgreesWithNewerProcessor(elements: seq<Cbor>, cx: bool, version: MessageProcessor.ProtocolVersion)
    requires |elements| <= 3 && MessageProcessor.LeqV19(version)
    ensures var older := TypeOfElements(elements, cx);
            var newer := MessageProcessor.StructureOfElements(elements, cx, version);
            (older == ErrorType <==> newer == MessageProcessor.ErrorMessage) &&
            (older == Msg2 <==> newer == MessageProcessor.Message2) &&
            (older == Msg3 <==> newer == MessageProcessor.Message3Or4) &&
            (older == UnknownType <==> newer == MessageProcessor.UnknownMessage)
  {
  }

  /**
   * On longer sequences they part: the older processor takes a four-item
   * response that starts with an integer for an error message, the newer one
   * for message_1.
   */
  lemma LongErrorShapeDiffers(a: int, rest: seq<Cbor>, version: MessageProcessor.ProtocolVersion)
    requires |rest| == 3
    ensures TypeOfElements([Int(a)] + rest, false) == ErrorType
    ensures MessageProcessor.StructureOfElements([Int(a)] + rest, false, version) == MessageProcessor.Message1
  {
  }

  // ---------------------------------------------------------------------
  // Error messages
  // ---------------------------------------------------------------------

  const EDHOC_MESSAGE_1 := 1
  const EDHOC_MESSAGE_4 := 4

  /** SUITES_R of an acceptable type: an integer, or an array holding only integers. */
  predicate SuitesRWellTyped(suites: Cbor)
  {
    TypeOf(suites) == Integer ||
    (TypeOf(suites) == ArrayType &&
     forall i :: 0 <= i < |Untag(suites).items| ==> TypeOf(Untag(suites).items[i]) == Integer)
  }

  /** The items of the error message, or `None` where `writeErrorMessage` returns `null`. */
  function ErrorItems(errorCode: int, replyTo: int, isErrorReq: bool, connectionIdentifier: Option<seq<byte>>,
                      errMsg: Option<seq<byte>>, suitesR: Option<Cbor>): Option<seq<Cbor>>
  {
    if !(EDHOC_MESSAGE_1 <= replyTo <= EDHOC_MESSAGE_4) then None
    else if suitesR.Some? && !SuitesRWellTyped(suitesR.value) then None
    else if errorCode == MessageProcessor.ERR_CODE_UNSPECIFIED_ERROR && errMsg.None? then None
    else if errorCode == MessageProcessor.ERR_CODE_WRONG_SELECTED_CIPHER_SUITE && replyTo != EDHOC_MESSAGE_1 then None
    else
      var cx := if connectionIdentifier.Some? && isErrorReq then [MessageProcessor.EncodeIdentifier(connectionIdentifier).value] else [];
      var info :=
        if errorCode == MessageProcessor.ERR_CODE_UNSPECIFIED_ERROR then [Text(errMsg.value)]
        else if errorCode == MessageProcessor.ERR_CODE_WRONG_SELECTED_CIPHER_SUITE && suitesR.Some? then [suitesR.value]
        else [];
      Some(cx + [Int(errorCode)] + info)
  }

  /**
   * `writeErrorMessage` of the older processor: `null` exactly when the
   * message replied to is not one of message_1 to message_4, SUITES_R is
   * ill-typed, an unspecified error has no diagnostic message, or a
   * wrong-suite error does not reply to message_1.
   */
  function WriteErrorMessage(errorCode: int, replyTo: int, isErrorReq: bool, connectionIdentifier: Option<seq<byte>>,
                             errMsg: Option<seq<byte>>, suitesR: Option<Cbor>): (r: Option<seq<byte>>)
    ensures r.None? <==>
              !(EDHOC_MESSAGE_1 <= replyTo <= EDHOC_MESSAGE_4) ||
              (suitesR.Some? && !SuitesRWellTyped(suitesR.value)) ||
              (errorCode == MessageProcessor.ERR_CODE_UNSPECIFIED_ERROR && errMsg.None?) ||
              (errorCode == MessageProcessor.ERR_CODE_WRONG_SELECTED_CIPHER_SUITE && replyTo != EDHOC_MESSAGE_1)
  {
    match ErrorItems(errorCode, replyTo, isErrorReq, connectionIdentifier, errMsg, suitesR)
    case None => None
    case Some(items) => Some(EncodeSequence(items))
  }

  /**
   * An error message written for a request carrying a connection identifier,
   * or for a response, is recognised as an error by a reader expecting the
   * same form; its ERR_CODE is the one written.
   */
  lemma ErrorMessageRecognised(errorCode: int, replyTo: int, isErrorReq: bool, connectionIdentifier: Option<seq<byte>>,
                               errMsg: Option<seq<byte>>, suitesR: Option<Cbor>)
    requires -TWO64 <= errorCode < TWO64
    requires connectionIdentifier.Some? ==> |connectionIdentifier.value| < TWO64
    requires errMsg.Some? ==> |errMsg.value| < TWO64
    requires suitesR.Some? ==> Valid(suitesR.value)
    requires errorCode == MessageProcessor.ERR_CODE_UNSPECIFIED_ERROR ||
             (errorCode == MessageProcessor.ERR_CODE_WRONG_SELECTED_CIPHER_SUITE && suitesR.Some?)
    requires WriteErrorMessage(errorCode, replyTo, isErrorReq, connectionIdentifier, errMsg, suitesR).Some?
    ensures var isReq := isErrorReq && connectionIdentifier.Some?;
            var sequence := WriteErrorMessage(errorCode, replyTo, isErrorReq, connectionIdentifier, errMsg, suitesR);
            MessageTypeFromStructure(sequence, isReq) == ErrorType &&
            DecodeSequence(sequence.value).value[if isReq then 1 else 0] == Int(errorCode)
  {
    var items := ErrorItems(errorCode, replyTo, isErrorReq, connectionIdentifier, errMsg, suitesR).value;
    var isReq := isErrorReq && connectionIdentifier.Some?;
    var cx: seq<Cbor> := if isReq then [MessageProcessor.EncodeIdentifier(connectionIdentifier).value] else [];
    var info: seq<Cbor> := items[|cx| + 1..];
    assert items == cx + [Int(errorCode)] + info;
    assert Valid(Int(errorCode));
    assert isReq ==> Valid(cx[0]) && cx[0] != True;
    assert forall i :: 0 <= i < |info| ==> Valid(info[i]);
    assert ValidSeq(items);
    DecodeEncodeSequence(items);
    assert items[|cx|] == Int(errorCode);
  }

  // ---------------------------------------------------------------------
  // readMessage1: SUITES_I and EAD_1
  // ---------------------------------------------------------------------

  /**
   * The SUITES_I check of `readMessage1` as written: a negative integer and
   * a short or ill-formed array are rejected, but so is a non-negative
   * integer, which falls through to the final "neither integer nor array"
   * branch.
   */
  function SuitesICheckAsWritten(suitesI: Cbor): (r: Result<bool, Exception>)
    ensures TypeOf(suitesI) != Integer ==> r == SuitesICheck(suitesI)
    ensures TypeOf(suitesI) == Integer ==> r.Ok? ==> !r.value
  {
    if TypeOf(suitesI) == Integer then
      match AsInt32(suitesI)
      case Err(e) => Err(e)
      case Ok(v) => Ok(false)
    else if TypeOf(suitesI) == ArrayType then ArraySuitesICheck(Untag(suitesI).items)
    else Ok(false)
  }

  /** An array SUITES_I has at least two items, each a non-negative 32-bit integer. */
  function ArraySuitesICheck(items: seq<Cbor>): Result<bool, Exception>
  {
    if |items| < 2 then Ok(false)
    else
      match CipherSuites.SuiteItems(items)
      case Err(e) => Err(e)
      case Ok(suites) => Ok(suites.Some?)
  }

  /**
   * The SUITES_I check as intended: a non-negative 32-bit integer, or an
   * array of at least two of them.
   */
  function SuitesICheck(suitesI: Cbor): (r: Result<bool, Exception>)
    ensures TypeOf(suitesI) == Integer ==>
              (r.Ok? <==> IsInt32(Untag(suitesI).v)) && (r.Ok? ==> (r.value <==> Untag(suitesI).v >= 0))
    ensures TypeOf(suitesI) !in {Integer, ArrayType} ==> r == Ok(false)
  {
    if TypeOf(suitesI) == Integer then
      match AsInt32(suitesI)
      case Err(e) => Err(e)
      case Ok(v) => Ok(v >= 0)
    else if TypeOf(suitesI) == ArrayType then ArraySuitesICheck(Untag(suitesI).items)
    else Ok(false)
  }

  /**
   * As written, the check refuses the SUITES_I an initiator sends when its
   * most preferred suite is selected: a single non-negative integer.
   */
  lemma AsWrittenRejectsPreferredSuite(supported: seq<int>)
    requires supported != [] && 0 <= supported[0] <= INT32_MAX
    ensures SuitesICheckAsWritten(CipherSuites.SuitesIFor(supported, supported[0])) == Ok(false)
    ensures SuitesICheck(CipherSuites.SuitesIFor(supported, supported[0])) == Ok(true)
  {
  }

  /** The intended check accepts every SUITES_I that `writeMessage1` builds from non-negative 32-bit suites. */
  lemma SuitesICheckAcceptsWritten(supported: seq<int>, selected: int)
    requires supported != [] && selected in supported
    requires forall i :: 0 <= i < |supported| ==> 0 <= supported[i] <= INT32_MAX
    ensures SuitesICheck(CipherSuites.SuitesIFor(supported, selected)) == Ok(true)
  {
    if selected != supported[0] {
      var p := CipherSuites.PrefixThrough(supported, selected);
      assert p[0] == supported[0];
      assert |p| >= 2;
      CipherSuites.SuiteItemsOfInts(p);
    }
  }

  /** EAD_1 alternates an integer label and a byte-string value. */
  predicate AlternatesLabelValue(ead: seq<Cbor>)
  {
    forall k :: 0 <= k < |ead| ==> TypeOf(ead[k]) == (if k % 2 == 0 then Integer else ByteString)
  }

  /** The outcome of the EAD_1 checks: rejected, or accepted with the EAD_1 to store (`None` when absent). */
  datatype Ead1Verdict = Ead1Rejected | Ead1Accepted(ead1: Option<seq<Cbor>>)

  /** The EAD_1 checks on the items after C_I. */
  function Ead1Check(rest: seq<Cbor>): (r: Ead1Verdict)
    ensures r.Ead1Accepted? <==> |rest| % 2 == 0 && AlternatesLabelValue(rest)
    ensures r.Ead1Accepted? ==> r.ead1 == if rest == [] then None else Some(rest)
  {
    if |rest| == 0 then Ead1Accepted(None)
    else if |rest| % 2 == 1 then Ead1Rejected
    else if AlternatesLabelValue(rest) then Ead1Accepted(Some(rest))
    else Ead1Rejected
  }

  /** The EAD_1 loop of `readMessage1`: it copies the items after C_I one by one, checking how each alternates. */
  method CheckEad1(objectList: seq<Cbor>, index: nat) returns (r: Ead1Verdict)
    requires index <= |objectList|
    ensures r == Ead1Check(objectList[index..])
  {
    if |objectList| <= index {
      return Ead1Accepted(None);
    }
    var length := |objectList| - index;
    if length % 2 == 1 {
      return Ead1Rejected;
    }
    var ead1 := new Cbor[length](_ => Null);
    var eadIndex := 0;
    var i := index;
    while i < |objectList|
      invariant index <= i <= |objectList| && eadIndex == i - index
      invariant ead1[..eadIndex] == objectList[index..i]
      invariant AlternatesLabelValue(objectList[index..i])
    {
      if eadIndex % 2 == 0 && TypeOf(objectList[i]) != Integer {
        assert objectList[index..][eadIndex] == objectList[i];
        return Ead1Rejected;
      }
      if eadIndex % 2 == 1 && TypeOf(objectList[i]) != ByteString {
        assert objectList[index..][eadIndex] == objectList[i];
        return Ead1Rejected;
      }
      ead1[eadIndex] := objectList[i];
      assert objectList[index..i + 1] == objectList[index..i] + [objectList[i]];
      eadIndex := eadIndex + 1;
      i := i + 1;
    }
    assert objectList[index..i] == objectList[index..];
    assert ead1[..] == ead1[..eadIndex];
    return Ead1Accepted(Some(ead1[..]));
  }

  /** The outcome of `readMessage1` and the EAD_1 it stores in the session. */
  datatype Read1 = Rejected | Accepted(ead1: Option<seq<Cbor>>)

  function SuitesIVerdict(reading: Reading, suitesI: Cbor): Result<bool, Exception>
  {
    if reading == AsWritten then SuitesICheckAsWritten(suitesI) else SuitesICheck(suitesI)
  }

  /**
   * The consistency checks of `readMessage1`, in order; reading past the end
   * of a short sequence raises, as indexing the Java array does. With
   * `AsWritten` this is the code as it stands; with `Intended` the SUITES_I
   * check is the corrected one and everything else is the same.
   */
  function ReadMessage1(sequence: Option<seq<byte>>, isReq: bool, supported: Option<seq<int>>,
                        authMethods: Option<set<int>>, reading: Reading): (r: Result<Read1, Exception>)
    ensures sequence.None? || supported.None? || authMethods.None? ==> r == Ok(Rejected)
    ensures sequence.Some? && DecodeSequence(sequence.value).None? ==> r == Ok(Rejected)
    ensures r.Ok? && r.value.Accepted? ==>
              var objects := DecodeSequence(sequence.value).value;
              var m := if isReq then 1 else 0;
              m + 3 < |objects| && (isReq ==> objects[0] == True) &&
              SuitesIVerdict(reading, objects[m + 1]) == Ok(true) &&
              (reading == AsWritten ==> TypeOf(objects[m + 1]) == ArrayType)
  {
    if sequence.None? || supported.None? || authMethods.None? then Ok(Rejected)
    else
      match DecodeSequence(sequence.value)
      case None => Ok(Rejected)
      case Some(objects) =>
        if |objects| == 0 then Ok(Rejected)
        else if isReq && objects[0] != True then Ok(Rejected)
        else ReadFromMethod(objects, if isReq then 1 else 0, authMethods.value, reading)
  }

  /** The checks from METHOD, at index `m`, to SUITES_I. */
  function ReadFromMethod(objects: seq<Cbor>, m: nat, authMethods: set<int>, reading: Reading): (r: Result<Read1, Exception>)
    ensures r.Ok? && r.value.Accepted? ==>
              m + 3 < |objects| && TypeOf(objects[m]) == Integer && AsInt32(objects[m]).Ok? &&
              AsInt32(objects[m]).value in authMethods && SuitesIVerdict(reading, objects[m + 1]) == Ok(true)
    ensures r.Ok? && r.value.Accepted? && reading == AsWritten ==> TypeOf(objects[m + 1]) == ArrayType
  {
    if m >= |objects| then Err(IndexOutOfBounds)
    else if TypeOf(objects[m]) != Integer then Ok(Rejected)
    else
      match AsInt32(objects[m])
      case Err(e) => Err(e)
      case Ok(authMethod) =>
        if authMethod !in authMethods then Ok(Rejected)
        else if m + 1 >= |objects| then Err(IndexOutOfBounds)
        else
          match SuitesIVerdict(reading, objects[m + 1])
          case Err(e) => Err(e)
          case Ok(suitesOk) => if !suitesOk then Ok(Rejected) else ReadFromGX(objects, m + 2)
  }

  /** The checks from G_X, at index `g`, to EAD_1. */
  function ReadFromGX(objects: seq<Cbor>, g: nat): (r: Result<Read1, Exception>)
    ensures r.Ok? && r.value.Accepted? ==>
              g + 1 < |objects| && TypeOf(objects[g]) == ByteString &&
              MessageProcessor.DecodeIdentifier(Some(objects[g + 1])).Some? &&
              Ead1Check(objects[g + 2..]) == Ead1Accepted(r.value.ead1)
    ensures g >= |objects| ==> r == Err(IndexOutOfBounds)
  {
    if g >= |objects| then Err(IndexOutOfBounds)
    else if TypeOf(objects[g]) != ByteString then Ok(Rejected)
    else if g + 1 >= |objects| then Err(IndexOutOfBounds)
    else if TypeOf(objects[g + 1]) != ByteString && TypeOf(objects[g + 1]) != Integer then Ok(Rejected)
    else if MessageProcessor.DecodeIdentifier(Some(objects[g + 1])).None? then Ok(Rejected)
    else
      match Ead1Check(objects[g + 2..])
      case Ead1Rejected => Ok(Rejected)
      case Ead1Accepted(ead1) => Ok(Accepted(ead1))
  }

  /** The items of a message_1 as `writeMessage1` lays them out, after the leading `true` of a request. */
  function WrittenItems(isReq: bool, authMethod: int, suitesI: Cbor, gX: seq<byte>, cI: seq<byte>, ead1: seq<Cbor>): seq<Cbor>
  {
    (if isReq then [True] else []) +
    [Int(authMethod), suitesI, Bytes(gX), MessageProcessor.EncodeIdentifier(Some(cI)).value] + ead1
  }

  /**
   * A message_1 laid out as `writeMessage1` lays it out, with a supported
   * authMethod, a SUITES_I that the reading accepts and a well-formed EAD_1, is
   * accepted and its EAD_1 stored.
   */
  lemma WrittenMessage1Accepted(reading: Reading, isReq: bool, authMethod: int, suitesI: Cbor, gX: seq<byte>, cI: seq<byte>,
                                ead1: seq<Cbor>, supported: seq<int>, authMethods: set<int>)
    requires IsInt32(authMethod) && authMethod in authMethods
    requires Valid(suitesI) && SuitesIVerdict(reading, suitesI) == Ok(true)
    requires |gX| < TWO64 && |cI| < TWO64
    requires ValidSeq(ead1) && |ead1| % 2 == 0 && AlternatesLabelValue(ead1)
    ensures ReadMessage1(Some(EncodeSequence(WrittenItems(isReq, authMethod, suitesI, gX, cI, ead1))),
                         isReq, Some(supported), Some(authMethods), reading) ==
              Ok(Accepted(if ead1 == [] then None else Some(ead1)))
  {
    var items := WrittenItems(isReq, authMethod, suitesI, gX, cI, ead1);
    var m := if isReq then 1 else 0;
    assert ReadFromMethod(items, m, authMethods, reading) == Ok(Accepted(if ead1 == [] then None else Some(ead1))) by {
      WrittenItemsLayout(isReq, authMethod, suitesI, gX, cI, ead1);
      MessageProcessor.DecodeEncodeIdentifier(cI);
      ItemsAccepted(items, m, authMethod, authMethods, ead1, reading);
    }
    WrittenReadFromMethod(isReq, authMethod, suitesI, gX, cI, ead1, supported, authMethods, reading);
  }

  /** Where `writeMessage1` puts each field of message_1. */
  lemma WrittenItemsLayout(isReq: bool, authMethod: int, suitesI: Cbor, gX: seq<byte>, cI: seq<byte>, ead1: seq<Cbor>)
    ensures var items := WrittenItems(isReq, authMethod, suitesI, gX, cI, ead1);
            var m := if isReq then 1 else 0;
            |items| == m + 4 + |ead1| && (isReq ==> items[0] == True) &&
            items[m] == Int(authMethod) && items[m + 1] == suitesI && items[m + 2] == Bytes(gX) &&
            items[m + 3] == MessageProcessor.EncodeIdentifier(Some(cI)).value && items[m + 4..] == ead1
  {
    var prefix: seq<Cbor> := if isReq then [True] else [];
    var header := [Int(authMethod), suitesI, Bytes(gX), MessageProcessor.EncodeIdentifier(Some(cI)).value];
    assert WrittenItems(isReq, authMethod, suitesI, gX, cI, ead1) == prefix + header + ead1;
    HeaderIndexing(prefix, header, ead1);
  }

  /** The encoded message_1 decodes back, so `readMessage1` goes on to the METHOD checks. */
  lemma WrittenReadFromMethod(isReq: bool, authMethod: int, suitesI: Cbor, gX: seq<byte>, cI: seq<byte>, ead1: seq<Cbor>,
                              supported: seq<int>, authMethods: set<int>, reading: Reading)
    requires IsInt32(authMethod) && Valid(suitesI) && |gX| < TWO64 && |cI| < TWO64 && ValidSeq(ead1)
    ensures var items := WrittenItems(isReq, authMethod, suitesI, gX, cI, ead1);
            ReadMessage1(Some(EncodeSequence(items)), isReq, Some(supported), Some(authMethods), reading) ==
              ReadFromMethod(items, if isReq then 1 else 0, authMethods, reading)
  {
    var c := MessageProcessor.EncodeIdentifier(Some(cI)).value;
    var header := [Int(authMethod), suitesI, Bytes(gX), c];
    var items := WrittenItems(isReq, authMethod, suitesI, gX, cI, ead1);
    assert items == (if isReq then [True] else []) + header + ead1;
    assert DecodeSequence(EncodeSequence(items)) == Some(items) by {
      assert Valid(c) && Valid(Int(authMethod)) && Valid(Bytes(gX));
      WrittenItemsDecode(isReq, header, ead1);
    }
    WrittenItemsLayout(isReq, authMethod, suitesI, gX, cI, ead1);
  }

  /**
   * The reading as written turns away a message_1 that selects the
   * initiator's most preferred suite, sent as a single integer SUITES_I,
   * which the intended reading accepts.
   */
  lemma AsWrittenRejectsIntegerSuitesMessage(isReq: bool, authMethod: int, suite: int, gX: seq<byte>, cI: seq<byte>,
                                             ead1: seq<Cbor>, supported: seq<int>, authMethods: set<int>)
    requires IsInt32(authMethod) && authMethod in authMethods && 0 <= suite <= INT32_MAX
    requires |gX| < TWO64 && |cI| < TWO64
    requires ValidSeq(ead1) && |ead1| % 2 == 0 && AlternatesLabelValue(ead1)
    ensures var sequence := Some(EncodeSequence(WrittenItems(isReq, authMethod, Int(suite), gX, cI, ead1)));
            ReadMessage1(sequence, isReq, Some(supported), Some(authMethods), AsWritten) == Ok(Rejected) &&
            ReadMessage1(sequence, isReq, Some(supported), Some(authMethods), Intended).Ok?
  {
    assert SuitesIVerdict(Intended, Int(suite)) == Ok(true);
    WrittenMessage1Accepted(Intended, isReq, authMethod, Int(suite), gX, cI, ead1, supported, authMethods);
    var items := WrittenItems(isReq, authMethod, Int(suite), gX, cI, ead1);
    var m := if isReq then 1 else 0;
    assert ReadFromMethod(items, m, authMethods, AsWritten) == Ok(Rejected) by {
      WrittenItemsLayout(isReq, authMethod, Int(suite), gX, cI, ead1);
      assert AsInt32(items[m]) == Ok(authMethod);
      assert SuitesIVerdict(AsWritten, items[m + 1]) == Ok(false);
    }
    WrittenReadFromMethod(isReq, authMethod, Int(suite), gX, cI, ead1, supported, authMethods, AsWritten);
  }

  /** Reading an item sequence laid out as `prefix + header + ead` finds the header at `|prefix|`. */
  lemma HeaderIndexing(prefix: seq<Cbor>, header: seq<Cbor>, ead: seq<Cbor>)
    ensures forall k | 0 <= k < |header| :: (prefix + header + ead)[|prefix| + k] == header[k]
    ensures (prefix + header + ead)[|prefix| + |header|..] == ead
  {
    var items := prefix + header + ead;
    assert items[|prefix| + |header|..] == ead;
  }

  /** Once METHOD and SUITES_I pass, the remaining stages accept a well-formed tail. */
  lemma ItemsAccepted(items: seq<Cbor>, m: nat, authMethod: int, authMethods: set<int>, ead1: seq<Cbor>, reading: Reading)
    requires m + 3 < |items| && items[m] == Int(authMethod) && IsInt32(authMethod) && authMethod in authMethods
    requires SuitesIVerdict(reading, items[m + 1]) == Ok(true)
    requires items[m + 2].Bytes? && items[m + 4..] == ead1
    requires items[m + 3].Bytes? || items[m + 3].Int?
    requires MessageProcessor.DecodeIdentifier(Some(items[m + 3])).Some?
    requires |ead1| % 2 == 0 && AlternatesLabelValue(ead1)
    ensures ReadFromMethod(items, m, authMethods, reading) == Ok(Accepted(if ead1 == [] then None else Some(ead1)))
  {
    GXStageAccepts(items, m + 2, ead1);
    MethodStageAccepts(items, m, authMethod, authMethods, reading);
  }

  lemma MethodStageAccepts(objects: seq<Cbor>, m: nat, authMethod: int, authMethods: set<int>, reading: Reading)
    requires m + 1 < |objects| && objects[m] == Int(authMethod) && IsInt32(authMethod) && authMethod in authMethods
    requires SuitesIVerdict(reading, objects[m + 1]) == Ok(true)
    ensures ReadFromMethod(objects, m, authMethods, reading) == ReadFromGX(objects, m + 2)
  {
    assert AsInt32(objects[m]) == Ok(authMethod);
  }

  lemma GXStageAccepts(objects: seq<Cbor>, g: nat, ead1: seq<Cbor>)
    requires g + 1 < |objects| && objects[g].Bytes? && objects[g + 2..] == ead1
    requires objects[g + 1].Bytes? || objects[g + 1].Int?
    requires MessageProcessor.DecodeIdentifier(Some(objects[g + 1])).Some?
    requires |ead1| % 2 == 0 && AlternatesLabelValue(ead1)
    ensures ReadFromGX(objects, g) == Ok(Accepted(if ead1 == [] then None else Some(ead1)))
  {
  }

  lemma WrittenItemsDecode(isReq: bool, header: seq<Cbor>, ead1: seq<Cbor>)
    requires ValidSeq(header) && ValidSeq(ead1)
    ensures var items := (if isReq then [True] else []) + header + ead1;
            DecodeSequence(EncodeSequence(items)) == Some(items)
  {
    var items := (if isReq then [True] else []) + header + ead1;
    assert ValidSeq(items);
    DecodeEncodeSequence(items);
  }
}
