/**
 * The EDHOC message-level rules of the mapper's message processor
 * (RFC 9528): connection-identifier encoding, recognising a message type
 * from the shape of its CBOR sequence and the construction of an error
 * message.
 */
module MessageProcessor {
  import opened Types
  import opened Cbor

  // ---------------------------------------------------------------------
  // Protocol versions
  // ---------------------------------------------------------------------

  /** The EDHOC draft versions the mapper distinguishes; `Later` stands for every newer one. */
  datatype ProtocolVersion = V14 | V15 | V16 | V17 | V18 | V19 | Later

  predicate LeqV15(v: ProtocolVersion) { v == V14 || v == V15 }
  predicate LeqV17(v: ProtocolVersion) { LeqV15(v) || v == V16 || v == V17 }
  predicate LeqV19(v: ProtocolVersion) { LeqV17(v) || v == V18 || v == V19 }

  lemma VersionsNest(v: ProtocolVersion)
    ensures LeqV15(v) ==> LeqV17(v)
    ensures LeqV17(v) ==> LeqV19(v)
    ensures LeqV19(v) <==> v != Later
  {
  }

  // ---------------------------------------------------------------------
  // Connection identifiers (section 3.3.2 of RFC 9528)
  // ---------------------------------------------------------------------

  /** The octets that are, by themselves, the encoding of a CBOR integer in -24..23. */
  predicate IsOneByteInt(b: byte) { b <= 23 || 32 <= b <= 55 }

  /**
   * A connection identifier on the wire: a one-byte identifier that is itself
   * the encoding of a small CBOR integer is sent as that integer, anything
   * else as a byte string; no identifier gives no item.
   */
  function EncodeIdentifier(id: Option<seq<byte>>): (r: Option<Cbor>)
    ensures id.None? <==> r.None?
    ensures id.Some? && !(|id.value| == 1 && IsOneByteInt(id.value[0])) ==> r == Some(Bytes(id.value))
    ensures id.Some? && |id.value| == 1 && IsOneByteInt(id.value[0]) ==>
              r.Some? && r.value.Int? && -24 <= r.value.v <= 23 && Encode(r.value) == id.value
  {
    match id
    case None => None
    case Some(b) =>
      if |b| == 1 && IsOneByteInt(b[0]) then
        OneByteDecode(b[0]);
        Decode(b)
      else Some(Bytes(b))
  }

  lemma OneByteDecode(b: byte)
    requires IsOneByteInt(b)
    ensures Decode([b]).Some? && Decode([b]).value.Int?
    ensures -24 <= Decode([b]).value.v <= 23 && Encode(Decode([b]).value) == [b]
  {
    var v := if b <= 23 then b as int else 31 - b as int;
    OneByteInt(v);
    DecodeEncode(Int(v));
  }

  /**
   * The identifier carried by an item: a byte string gives its octets unless
   * they should have been sent as an integer; an integer gives its encoding if
   * that is one byte long; any other item gives none.
   */
  function DecodeIdentifier(c: Option<Cbor>): (r: Option<seq<byte>>)
    ensures c.None? ==> r.None?
    ensures c.Some? && TypeOf(c.value) == ByteString ==>
              var b := Untag(c.value).b;
              r == if |b| == 1 && IsOneByteInt(b[0]) then None else Some(b)
    ensures c.Some? && TypeOf(c.value) == Integer ==>
              (r.Some? <==> c.value.Int? && -24 <= c.value.v <= 23) && (r.Some? ==> r.value == Encode(c.value))
    ensures c.Some? && TypeOf(c.value) != ByteString && TypeOf(c.value) != Integer ==> r.None?
  {
    match c
    case None => None
    case Some(x) =>
      if TypeOf(x) == ByteString then
        var b := Untag(x).b;
        if |b| == 1 && IsOneByteInt(b[0]) then None else Some(b)
      else if TypeOf(x) == Integer then
        IntegerIdentifierLength(x);
        var e := Encode(x);
        if |e| != 1 then None else Some(e)
      else None
  }

  lemma IntegerIdentifierLength(x: Cbor)
    requires TypeOf(x) == Integer
    ensures |Encode(x)| == 1 <==> x.Int? && -24 <= x.v <= 23
  {
    if x.Int? {
      if -TWO64 <= x.v < TWO64 { OneByteInt(x.v); }
    }
  }

  /** Every identifier survives the trip through its wire form. */
  lemma DecodeEncodeIdentifier(id: seq<byte>)
    ensures DecodeIdentifier(EncodeIdentifier(Some(id))) == Some(id)
  {
    if |id| == 1 && IsOneByteInt(id[0]) {
      OneByteDecode(id[0]);
      assert [id[0]] == id;
    }
  }

  /** Every item accepted as an identifier is re-encoded as the same item, tags aside. */
  lemma EncodeDecodeIdentifier(c: Cbor)
    requires Valid(c) && DecodeIdentifier(Some(c)).Some?
    ensures EncodeIdentifier(DecodeIdentifier(Some(c))) == Some(Untag(c))
  {
    if TypeOf(c) == Integer {
      var e := Encode(c);
      DecodeEncode(c);
      assert e == [e[0]];
      OneByteDecode(e[0]);
    }
  }

  // ---------------------------------------------------------------------
  // Message type from the structure of the CBOR sequence
  // ---------------------------------------------------------------------

  datatype StructureCode = Message1 | Message2 | Message3Or4 | Message2Or3Or4 | ErrorMessage | UnknownMessage

  /**
   * An error message is a sequence of 2 or 3 items: with a prepended
   * connection identifier it starts with an item other than `true` followed by
   * an integer ERR_CODE, otherwise it starts with the integer ERR_CODE.
   */
  predicate HasErrorStructure(elements: seq<Cbor>, receiveCX: bool)
  {
    (|elements| == 2 || |elements| == 3) &&
    if receiveCX then elements[0] != True && TypeOf(elements[1]) == Integer
    else TypeOf(elements[0]) == Integer
  }

  function StructureOfElements(elements: seq<Cbor>, receiveCX: bool, version: ProtocolVersion): StructureCode
  {
    if HasErrorStructure(elements, receiveCX) then ErrorMessage
    else
      var n := |elements| - (if receiveCX then 1 else 0);
      if n == 4 || n == 5 then Message1
      else if n == 2 then (if LeqV19(version) then Message2 else UnknownMessage)
      else if n == 1 then (if LeqV19(version) then Message3Or4 else Message2Or3Or4)
      else UnknownMessage
  }

  /** The structure code of a received byte sequence; a missing or undecodable one is unknown. */
  function MessageTypeFromStructure(sequence: Option<seq<byte>>, receiveCX: bool, version: ProtocolVersion): (r: StructureCode)
    ensures sequence.None? || DecodeSequence(sequence.value).None? ==> r == UnknownMessage
    ensures sequence.Some? && DecodeSequence(sequence.value).Some? ==>
              var elements := DecodeSequence(sequence.value).value;
              var n := |elements| - (if receiveCX then 1 else 0);
              (r == ErrorMessage <==> HasErrorStructure(elements, receiveCX)) &&
              (r == Message1 <==> !HasErrorStructure(elements, receiveCX) && (n == 4 || n == 5)) &&
              (r == Message2 <==> !HasErrorStructure(elements, receiveCX) && n == 2 && LeqV19(version)) &&
              (r == Message3Or4 <==> !HasErrorStructure(elements, receiveCX) && n == 1 && LeqV19(version)) &&
              (r == Message2Or3Or4 <==> !HasErrorStructure(elements, receiveCX) && n == 1 && !LeqV19(version))
  {
    match sequence
    case None => UnknownMessage
    case Some(s) =>
      match DecodeSequence(s)
      case None => UnknownMessage
      case Some(elements) => StructureOfElements(elements, receiveCX, version)
  }

  /** An encoded sequence of four or five items after the optional prefix is taken for message_1. */
  lemma Message1Recognised(items: seq<Cbor>, receiveCX: bool, version: ProtocolVersion)
    requires ValidSeq(items)
    requires |items| - (if receiveCX then 1 else 0) in {4, 5}
    ensures MessageTypeFromStructure(Some(EncodeSequence(items)), receiveCX, version) == Message1
  {
    DecodeEncodeSequence(items);
  }

  /** From version 20 on, a two-item sequence is never taken for message_2. */
  lemma NoMessage2AfterV19(sequence: seq<byte>, receiveCX: bool)
    ensures MessageTypeFromStructure(Some(sequence), receiveCX, Later) != Message2
  {
  }

  // ---------------------------------------------------------------------
  // Error messages (section 6 of RFC 9528)
  // ---------------------------------------------------------------------

  const ERR_CODE_UNSPECIFIED_ERROR := 1
  const ERR_CODE_WRONG_SELECTED_CIPHER_SUITE := 2

  /** A CBOR sequence of possibly-null items: a null item raises a `NullPointerException`. */
  function BuildCborSequence(items: seq<Option<Cbor>>): (r: Result<seq<byte>, Exception>)
    ensures r.Ok? <==> forall i :: 0 <= i < |items| ==> items[i].Some?
  {
    if |items| == 0 then Ok([])
    else if items[0].None? then Err(NullPointer)
    else
      match BuildCborSequence(items[1..])
      case Err(e) => Err(e)
      case Ok(rest) =>
        assert forall i :: 1 <= i < |items| ==> items[i] == items[1..][i - 1];
        Ok(Encode(items[0].value) + rest)
  }

  /** The items of an error message, or `None` where `writeErrorMessage` returns `null`. */
  function ErrorMessageItems(errorCode: int, errMsg: Option<seq<byte>>, suites: Option<Cbor>,
                             sendCX: bool, peerConnectionId: Option<seq<byte>>): Option<seq<Option<Cbor>>>
  {
    if suites.Some? && TypeOf(suites.value) != Integer && TypeOf(suites.value) != ArrayType then None
    else if suites.Some? && TypeOf(suites.value) == ArrayType &&
            exists i :: 0 <= i < |Untag(suites.value).items| && TypeOf(Untag(suites.value).items[i]) != Integer then None
    else if errorCode == ERR_CODE_UNSPECIFIED_ERROR && errMsg.None? then None
    else
      var cx := if sendCX then [EncodeIdentifier(peerConnectionId)] else [];
      var info :=
        if errorCode == ERR_CODE_UNSPECIFIED_ERROR then [Some(Text(errMsg.value))]
        else if errorCode == ERR_CODE_WRONG_SELECTED_CIPHER_SUITE && suites.Some? then [suites]
        else [];
      Some(cx + [Some(Int(errorCode))] + info)
  }

  /**
   * `writeErrorMessage`: `null` for SUITES_R of a type other than integer or
   * array of integers, and for an unspecified error without a message; a
   * connection identifier is prepended when the sender correlates by it.
   */
  function WriteErrorMessage(errorCode: int, errMsg: Option<seq<byte>>, suites: Option<Cbor>,
                             sendCX: bool, peerConnectionId: Option<seq<byte>>): (r: Result<Option<seq<byte>>, Exception>)
    ensures suites.Some? && TypeOf(suites.value) !in {Integer, ArrayType} ==> r == Ok(None)
    ensures errorCode == ERR_CODE_UNSPECIFIED_ERROR && errMsg.None? ==> r == Ok(None)
    ensures r.Err? <==> ErrorMessageItems(errorCode, errMsg, suites, sendCX, peerConnectionId).Some? && sendCX && peerConnectionId.None?
  {
    match ErrorMessageItems(errorCode, errMsg, suites, sendCX, peerConnectionId)
    case None => Ok(None)
    case Some(items) =>
      assert sendCX ==> items[0] == EncodeIdentifier(peerConnectionId);
      assert forall i :: (if sendCX then 1 else 0) <= i < |items| ==> items[i].Some?;
      match BuildCborSequence(items)
      case Err(e) => Err(e)
      case Ok(bytes) => Ok(Some(bytes))
  }

  lemma {:induction false} BuildCborSequenceEncodes(items: seq<Option<Cbor>>, xs: seq<Cbor>)
    requires |items| == |xs| && forall i :: 0 <= i < |xs| ==> items[i] == Some(xs[i])
    ensures BuildCborSequence(items) == Ok(EncodeSequence(xs))
    decreases |xs|
  {
    if |xs| > 0 {
      BuildCborSequenceEncodes(items[1..], xs[1..]);
    }
  }

  /**
   * An error message with its ERR_INFO is recognised as an error by a peer
   * whose reception of connection identifiers matches the sender's.
   */
  lemma ErrorMessageRecognised(errorCode: int, errMsg: Option<seq<byte>>, suites: Option<Cbor>,
                               cx: bool, peerConnectionId: Option<seq<byte>>, version: ProtocolVersion)
    requires IsInt32(errorCode) && (cx ==> peerConnectionId.Some? && |peerConnectionId.value| < TWO64)
    requires errMsg.Some? ==> |errMsg.value| < TWO64
    requires suites.Some? ==> Valid(suites.value)
    requires errorCode == ERR_CODE_UNSPECIFIED_ERROR || (errorCode == ERR_CODE_WRONG_SELECTED_CIPHER_SUITE && suites.Some?)
    requires WriteErrorMessage(errorCode, errMsg, suites, cx, peerConnectionId).Ok?
    requires WriteErrorMessage(errorCode, errMsg, suites, cx, peerConnectionId).value.Some?
    ensures MessageTypeFromStructure(WriteErrorMessage(errorCode, errMsg, suites, cx, peerConnectionId).value, cx, version)
            == ErrorMessage
  {
    var cxItems: seq<Cbor> := if cx then [EncodeIdentifier(peerConnectionId).value] else [];
    var info: seq<Cbor> := if errorCode == ERR_CODE_UNSPECIFIED_ERROR then [Text(errMsg.value)] else [suites.value];
    var xs := cxItems + [Int(errorCode)] + info;
    ErrorMessageEncodes(errorCode, errMsg, suites, cx, peerConnectionId, xs);
    assert Valid(Int(errorCode));
    assert Valid(info[0]);
    assert cx ==> Valid(cxItems[0]);
    assert ValidSeq(xs);
    assert HasErrorStructure(xs, cx);
    EncodedStructure(xs, cx, version);
  }

  /** The bytes written for an error message are the encoding of its items. */
  lemma ErrorMessageEncodes(errorCode: int, errMsg: Option<seq<byte>>, suites: Option<Cbor>,
                            cx: bool, peerConnectionId: Option<seq<byte>>, xs: seq<Cbor>)
    requires cx ==> peerConnectionId.Some?
    requires errorCode == ERR_CODE_UNSPECIFIED_ERROR || (errorCode == ERR_CODE_WRONG_SELECTED_CIPHER_SUITE && suites.Some?)
    requires ErrorMessageItems(errorCode, errMsg, suites, cx, peerConnectionId).Some?
    requires xs == (if cx then [EncodeIdentifier(peerConnectionId).value] else []) + [Int(errorCode)] +
                   (if errorCode == ERR_CODE_UNSPECIFIED_ERROR then [Text(errMsg.value)] else [suites.value])
    ensures WriteErrorMessage(errorCode, errMsg, suites, cx, peerConnectionId) == Ok(Some(EncodeSequence(xs)))
  {
    var items := ErrorMessageItems(errorCode, errMsg, suites, cx, peerConnectionId).value;
    assert |items| == |xs| && forall i :: 0 <= i < |xs| ==> items[i] == Some(xs[i]);
    BuildCborSequenceEncodes(items, xs);
  }

  /** An encoded sequence is classified by the structure of its items. */
  lemma EncodedStructure(xs: seq<Cbor>, receiveCX: bool, version: ProtocolVersion)
    requires ValidSeq(xs)
    ensures MessageTypeFromStructure(Some(EncodeSequence(xs)), receiveCX, version) == StructureOfElements(xs, receiveCX, version)
  {
    DecodeEncodeSequence(xs);
  }

  /** Without SUITES_R and without a prefix, a wrong-suite error is a one-item sequence, taken for message_3 or message_4. */
  lemma WrongSuiteWithoutSuitesLooksLikeMessage3(version: ProtocolVersion)
    requires LeqV19(version)
    ensures WriteErrorMessage(ERR_CODE_WRONG_SELECTED_CIPHER_SUITE, None, None, false, None) == Ok(Some(Encode(Int(2))))
    ensures MessageTypeFromStructure(Some(Encode(Int(2))), false, version) == Message3Or4
  {
    var none: seq<Option<Cbor>> := [];
    assert none + [Some(Int(2))] + none == [Some(Int(2))];
    assert ErrorMessageItems(ERR_CODE_WRONG_SELECTED_CIPHER_SUITE, None, None, false, None) == Some([Some(Int(2))]);
    BuildCborSequenceEncodes([Some(Int(2))], [Int(2)]);
    assert EncodeSequence([Int(2)]) == Encode(Int(2)) + EncodeSequence([]);
    assert EncodeSequence([Int(2)]) == Encode(Int(2));
    assert BuildCborSequence([Some(Int(2))]) == Ok(Encode(Int(2)));
    DecodeEncodeSequence([Int(2)]);
  }
}
