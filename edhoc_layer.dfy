/**
 * The EDHOC layer of the CoAP stack (`EdhocLayerPersistent`, in its current
 * and its older form): the kid read out of an OSCORE option value (section
 * 6.1 of RFC 8613), and the payload of an EDHOC + OSCORE combined request
 * (RFC 9668; the draft version 06 form sends both parts as CBOR byte
 * strings, later versions send the encoded message_3 followed by the raw
 * OSCORE payload).
 */
module EdhocLayer {
  import opened Types
  import opened Cbor
  import opened JavaArrays
  import MessageProcessor

  // ---------------------------------------------------------------------
  // The kid in an OSCORE option value
  // ---------------------------------------------------------------------

  /** The flag bits of the first octet of an OSCORE option value. */
  function PivLength(flag: byte): nat { flag as int % 8 }
  predicate KidFlag(flag: byte) { (flag as int / 8) % 2 == 1 }
  predicate ContextFlag(flag: byte) { (flag as int / 16) % 2 == 1 }

  /**
   * Where the kid starts, reading the kid context length octet `s` as `readS`
   * does: the flag octet, the `n` octets of the partial IV, and, when the kid
   * context flag is set, `s` and the `s` octets of the context.
   */
  function KidStart(option: seq<byte>, readS: byte -> int): (r: Result<int, Exception>)
    requires |option| > 0
  {
    var index := 1 + PivLength(option[0]);
    if !ContextFlag(option[0]) then Ok(index)
    else if index >= |option| then Err(IndexOutOfBounds)
    else Ok(index + readS(option[index]) + 1)
  }

  function Unsigned(b: byte): int { b as int }

  /**
   * `getKid` as written, in both forms of the layer: an empty option has no
   * kid; when the kid flag is set the kid runs from its start to the end.
   * The kid context length octet is read as a signed Java `byte`.
   */
  function GetKidAsWritten(option: seq<byte>): (r: Result<Option<seq<byte>>, Exception>)
    ensures |option| == 0 ==> r == Ok(None)
    ensures |option| > 0 && !KidFlag(option[0]) && !ContextFlag(option[0]) ==> r == Ok(None)
  {
    if |option| == 0 then Ok(None)
    else
      match KidStart(option, Signed)
      case Err(e) => Err(e)
      case Ok(index) =>
        if !KidFlag(option[0]) then Ok(None)
        else
          match CopyToEnd(option, index)
          case Err(e) => Err(e)
          case Ok(kid) => Ok(Some(kid))
  }

  /** `getKid` with the kid context length read as the unsigned octet it is. */
  function GetKid(option: seq<byte>): (r: Result<Option<seq<byte>>, Exception>)
    ensures |option| == 0 ==> r == Ok(None)
    ensures |option| > 0 && !KidFlag(option[0]) && !ContextFlag(option[0]) ==> r == Ok(None)
    ensures r.Ok? && r.value.Some? ==> |option| > 0 && KidFlag(option[0]) && |r.value.value| < |option|
  {
    if |option| == 0 then Ok(None)
    else
      match KidStart(option, Unsigned)
      case Err(e) => Err(e)
      case Ok(index) =>
        if !KidFlag(option[0]) then Ok(None)
        else
          match CopyToEnd(option, index)
          case Err(e) => Err(e)
          case Ok(kid) => Ok(Some(kid))
  }

  /** The kid as the code as written reads it, or as the corrected reading does. */
  function ReadKid(reading: Reading, option: seq<byte>): Result<Option<seq<byte>>, Exception>
  {
    if reading == AsWritten then GetKidAsWritten(option) else GetKid(option)
  }

  /**
   * An OSCORE option value as section 6.1 of RFC 8613 lays it out: the flag
   * octet, the partial IV, the kid context preceded by its length, the kid.
   */
  function OscoreOption(piv: seq<byte>, kidContext: Option<seq<byte>>, kid: Option<seq<byte>>): (r: seq<byte>)
    requires |piv| < 8 && (kidContext.Some? ==> |kidContext.value| < 256)
    ensures |r| > 0 && PivLength(r[0]) == |piv|
    ensures KidFlag(r[0]) <==> kid.Some?
    ensures ContextFlag(r[0]) <==> kidContext.Some?
  {
    var flag := |piv| + (if kid.Some? then 8 else 0) + (if kidContext.Some? then 16 else 0);
    [flag as byte] + piv
      + (if kidContext.Some? then [|kidContext.value| as byte] + kidContext.value else [])
      + (if kid.Some? then kid.value else [])
  }

  /** The kid is read back from every option value laid out as in RFC 8613. */
  lemma GetKidOfOption(piv: seq<byte>, kidContext: Option<seq<byte>>, kid: Option<seq<byte>>)
    requires |piv| < 8 && (kidContext.Some? ==> |kidContext.value| < 256)
    ensures GetKid(OscoreOption(piv, kidContext, kid)) == Ok(kid)
  {
    KidAfterContext(piv, kidContext, kid, Unsigned);
  }

  /** The as-written reading agrees whenever the kid context is shorter than 128 octets. */
  lemma GetKidAsWrittenShortContext(piv: seq<byte>, kidContext: Option<seq<byte>>, kid: Option<seq<byte>>)
    requires |piv| < 8 && (kidContext.Some? ==> |kidContext.value| < 128)
    ensures GetKidAsWritten(OscoreOption(piv, kidContext, kid)) == Ok(kid)
  {
    KidAfterContext(piv, kidContext, kid, Signed);
  }

  /** With a length octet read as its value, the kid starts right after the kid context. */
  lemma KidAfterContext(piv: seq<byte>, kidContext: Option<seq<byte>>, kid: Option<seq<byte>>, readS: byte -> int)
    requires |piv| < 8 && (kidContext.Some? ==> |kidContext.value| < 256)
    requires kidContext.Some? ==> readS(|kidContext.value| as byte) == |kidContext.value|
    ensures var option := OscoreOption(piv, kidContext, kid);
            var start := 1 + |piv| + (if kidContext.Some? then 1 + |kidContext.value| else 0);
            KidStart(option, readS) == Ok(start) && start <= |option| &&
            option[start..] == (if kid.Some? then kid.value else [])
  {
    var option := OscoreOption(piv, kidContext, kid);
    var head := [option[0]] + piv;
    var context := if kidContext.Some? then [|kidContext.value| as byte] + kidContext.value else [];
    var tail := if kid.Some? then kid.value else [];
    assert option == head + context + tail;
    if kidContext.Some? {
      assert option[1 + |piv|] == |kidContext.value| as byte;
    }
    assert option[|head| + |context|..] == tail;
  }

  /**
   * A kid context of 128 octets: its length octet reads as -128, the kid
   * start moves before the beginning of the option, and the copy raises.
   */
  lemma AsWrittenLongKidContext()
    ensures var option := OscoreOption([], Some(seq(128, _ => 0)), Some([7]));
            GetKidAsWritten(option) == Err(IndexOutOfBounds) &&
            GetKid(option) == Ok(Some([7]))
  {
    var context: seq<byte> := seq(128, _ => 0);
    var option := OscoreOption([], Some(context), Some([7]));
    assert option[1] == 128;
    assert Signed(option[1]) == -128;
    GetKidOfOption([], Some(context), Some([7]));
  }

  // ---------------------------------------------------------------------
  // The combined request payload
  // ---------------------------------------------------------------------

  const PAYLOAD_TOO_LARGE := "The payload of the EDHOC+OSCORE request is exceeding MAX_UNFRAGMENTED_SIZE"

  /** The library's `GetByteString`: the octets of a (possibly tagged) byte string. */
  function GetByteString(x: Cbor): (r: Result<seq<byte>, Exception>)
    ensures r.Ok? <==> TypeOf(x) == ByteString
    ensures r.Ok? ==> Untag(x) == Bytes(r.value)
  {
    if TypeOf(x) == ByteString then Ok(Untag(x).b) else Err(IllegalState("not a byte string"))
  }

  /** Two parts joined into one buffer, unless together they exceed the unfragmented size. */
  function Joined(part1: seq<byte>, part2: seq<byte>, maxUnfragmentedSize: int): (r: Result<seq<byte>, Exception>)
    ensures r.Ok? <==> |part1| + |part2| <= maxUnfragmentedSize
    ensures r.Ok? ==> |r.value| == |part1| + |part2| && r.value[..|part1|] == part1 && r.value[|part1|..] == part2
    ensures r.Err? ==> r.error == IllegalState(PAYLOAD_TOO_LARGE)
  {
    if |part1| + |part2| > maxUnfragmentedSize then Err(IllegalState(PAYLOAD_TOO_LARGE)) else Ok(part1 + part2)
  }

  /** The length check and the two `System.arraycopy` calls into a fresh buffer. */
  method JoinParts(part1: seq<byte>, part2: seq<byte>, maxUnfragmentedSize: int) returns (r: Result<seq<byte>, Exception>)
    ensures r == Joined(part1, part2, maxUnfragmentedSize)
  {
    var combinedLength := |part1| + |part2|;
    if combinedLength > maxUnfragmentedSize {
      return Err(IllegalState(PAYLOAD_TOO_LARGE));
    }
    var combined := new byte[combinedLength];
    ArrayCopy(part1, combined, 0);
    assert combined[..|part1|] == part1;
    ArrayCopy(part2, combined, |part1|);
    assert combined[..] == combined[..combinedLength] == part1 + part2;
    r := Ok(combined[..]);
  }

  /**
   * EDHOC message_3 out of the stored sequence `? C_R, message_3`: the
   * sequence must decode, the item must exist and must be a byte string.
   */
  function Message3Item(message3Sequence: seq<byte>, prependedCX: bool): (r: Result<Cbor, Exception>)
    ensures r.Ok? ==> TypeOf(r.value) == ByteString
  {
    match DecodeSequence(message3Sequence)
    case None => Err(CborError)
    case Some(items) =>
      var index := if prependedCX then 1 else 0;
      if index >= |items| then Err(IndexOutOfBounds)
      else if TypeOf(items[index]) != ByteString then Err(IllegalState("not a byte string"))
      else Ok(items[index])
  }

  /** The two parts of the combined payload in each format. */
  function CombinedParts(message3: Cbor, oscorePayload: seq<byte>, v06: bool): (seq<byte>, seq<byte>)
    requires TypeOf(message3) == ByteString
  {
    if v06 then (Encode(Bytes(Untag(message3).b)), Encode(Bytes(oscorePayload)))
    else (Encode(message3), oscorePayload)
  }

  /** The payload `createCombinedMessage` produces. */
  function CombinedMessage(message3Sequence: seq<byte>, oscorePayload: seq<byte>, maxUnfragmentedSize: int,
                           v06: bool, prependedCX: bool): (r: Result<seq<byte>, Exception>)
    ensures r.Ok? ==> |r.value| <= maxUnfragmentedSize
  {
    match Message3Item(message3Sequence, prependedCX)
    case Err(e) => Err(e)
    case Ok(message3) =>
      var parts := CombinedParts(message3, oscorePayload, v06);
      Joined(parts.0, parts.1, maxUnfragmentedSize)
  }

  /** `createCombinedMessage` of the current layer. */
  method CreateCombinedMessage(message3Sequence: seq<byte>, oscorePayload: seq<byte>, maxUnfragmentedSize: int,
                               v06: bool, prependedCX: bool) returns (r: Result<seq<byte>, Exception>)
    ensures r == CombinedMessage(message3Sequence, oscorePayload, maxUnfragmentedSize, v06, prependedCX)
  {
    var item := Message3Item(message3Sequence, prependedCX);
    if item.Err? {
      return Err(item.error);
    }
    var parts := CombinedParts(item.value, oscorePayload, v06);
    r := JoinParts(parts.0, parts.1, maxUnfragmentedSize);
  }

  /** The two halves of a received combined payload. */
  datatype CombinedPair = CombinedPair(edhocMessage3: Cbor, oscorePayload: seq<byte>)

  /**
   * `splitCombinedMessage`: no payload gives nothing; the version 06 form must
   * decode (a decoding failure escapes) to exactly two byte strings; later
   * forms need a leading byte string and a non-empty rest.
   */
  function SplitCombinedMessage(combined: Option<seq<byte>>, v06: bool): (r: Result<Option<CombinedPair>, Exception>)
    ensures combined.None? ==> r == Ok(None)
    ensures r.Ok? && r.value.Some? ==> TypeOf(r.value.value.edhocMessage3) == ByteString
    ensures !v06 ==> r.Ok?
    ensures r.Ok? && r.value.Some? && !v06 ==> |r.value.value.oscorePayload| > 0
  {
    if combined.None? then Ok(None)
    else if v06 then SplitV06(combined.value)
    else Ok(SplitV07(combined.value))
  }

  function SplitV06(combined: seq<byte>): (r: Result<Option<CombinedPair>, Exception>)
    ensures r.Ok? && r.value.Some? ==> TypeOf(r.value.value.edhocMessage3) == ByteString
  {
    match DecodeSequence(combined)
    case None => Err(CborError)
    case Some(items) =>
      if |items| != 2 || TypeOf(items[0]) != ByteString || TypeOf(items[1]) != ByteString then Ok(None)
      else Ok(Some(CombinedPair(items[0], Untag(items[1]).b)))
  }

  /**
   * The later form: the OSCORE payload is as long as what follows the
   * re-encoded message_3, and all of it must be left to read (the stream's
   * `read` returns -1 at the end and otherwise what is available).
   */
  function SplitV07(combined: seq<byte>): (r: Option<CombinedPair>)
    ensures r.Some? ==> TypeOf(r.value.edhocMessage3) == ByteString && |r.value.oscorePayload| > 0
    ensures r.Some? ==> |r.value.oscorePayload| == |combined| - |Encode(r.value.edhocMessage3)|
  {
    match Read(combined)
    case None => None
    case Some(p) =>
      if TypeOf(p.value) != ByteString then None
      else
        var oscoreLength := |combined| - |Encode(p.value)|;
        if oscoreLength <= 0 then None
        else
          var bytesRead := if |p.rest| == 0 then -1 else if |p.rest| < oscoreLength then |p.rest| else oscoreLength;
          if bytesRead != oscoreLength then None
          else Some(CombinedPair(p.value, p.rest[..oscoreLength]))
  }

  lemma ValidUntag(x: Cbor)
    requires Valid(x)
    ensures Valid(Untag(x))
  {
    if x.Tag? {
      ValidUntag(x.item);
    }
  }

  /** The later form recovers a byte-string message_3 and a non-empty OSCORE payload. */
  lemma SplitV07Encode(message3: Cbor, oscorePayload: seq<byte>)
    requires Valid(message3) && TypeOf(message3) == ByteString && |oscorePayload| > 0
    ensures SplitV07(Encode(message3) + oscorePayload) == Some(CombinedPair(message3, oscorePayload))
  {
    ReadEncode(message3, oscorePayload);
    assert oscorePayload[..|oscorePayload|] == oscorePayload;
  }

  /** An empty OSCORE payload cannot be told apart from its absence: the split gives nothing. */
  lemma SplitV07EmptyPayload(message3: Cbor)
    requires Valid(message3) && TypeOf(message3) == ByteString
    ensures SplitV07(Encode(message3)) == None
  {
    ReadEncode(message3, []);
    assert Encode(message3) + [] == Encode(message3);
  }

  lemma EncodeSequencePair(first: Cbor, second: Cbor)
    ensures EncodeSequence([first, second]) == Encode(first) + Encode(second)
  {
    var items := [first, second];
    assert items[1..] == [second] && items[1..][1..] == [];
    assert EncodeSequence([second]) == Encode(second) + [];
  }

  /** The version 06 form recovers both byte strings. */
  lemma SplitV06Encode(first: seq<byte>, second: seq<byte>)
    requires |first| < TWO64 && |second| < TWO64
    ensures SplitV06(Encode(Bytes(first)) + Encode(Bytes(second))) == Ok(Some(CombinedPair(Bytes(first), second)))
  {
    EncodeSequencePair(Bytes(first), Bytes(second));
    DecodeEncodeSequence([Bytes(first), Bytes(second)]);
  }

  /** From an encoded sequence, message_3 is the item at the identifier offset. */
  lemma Message3ItemOfEncoded(items: seq<Cbor>, prependedCX: bool)
    requires ValidSeq(items)
    ensures var index := if prependedCX then 1 else 0;
            Message3Item(EncodeSequence(items), prependedCX).Ok? ==>
              index < |items| && Message3Item(EncodeSequence(items), prependedCX).value == items[index]
  {
    DecodeEncodeSequence(items);
  }

  /**
   * Splitting what `createCombinedMessage` joined gives back message_3 (as its
   * bare byte string in the version 06 form) and the OSCORE payload, which in
   * the later form must not be empty.
   */
  lemma SplitCreated(items: seq<Cbor>, oscorePayload: seq<byte>, maxUnfragmentedSize: int, v06: bool, prependedCX: bool,
                     combined: seq<byte>)
    requires ValidSeq(items) && |oscorePayload| < TWO64 && (v06 || |oscorePayload| > 0)
    requires CombinedMessage(EncodeSequence(items), oscorePayload, maxUnfragmentedSize, v06, prependedCX) == Ok(combined)
    ensures var index := if prependedCX then 1 else 0;
            index < |items| && TypeOf(items[index]) == ByteString &&
            SplitCombinedMessage(Some(combined), v06) ==
              Ok(Some(CombinedPair(if v06 then Untag(items[index]) else items[index], oscorePayload)))
  {
    Message3ItemOfEncoded(items, prependedCX);
    var index := if prependedCX then 1 else 0;
    var message3 := items[index];
    assert Valid(message3);
    SplitParts(message3, oscorePayload, v06);
  }

  /** Splitting the two parts of either format. */
  lemma SplitParts(message3: Cbor, oscorePayload: seq<byte>, v06: bool)
    requires Valid(message3) && TypeOf(message3) == ByteString
    requires |oscorePayload| < TWO64 && (v06 || |oscorePayload| > 0)
    ensures var parts := CombinedParts(message3, oscorePayload, v06);
            SplitCombinedMessage(Some(parts.0 + parts.1), v06) ==
              Ok(Some(CombinedPair(if v06 then Untag(message3) else message3, oscorePayload)))
  {
    if v06 {
      ValidUntag(message3);
      SplitV06Encode(Untag(message3).b, oscorePayload);
    } else {
      SplitV07Encode(message3, oscorePayload);
    }
  }

  // ---------------------------------------------------------------------
  // The older layer: CIPHERTEXT_3 and the old payload as two byte strings
  // ---------------------------------------------------------------------

  /** The payload the older `sendRequest` builds from the stored message_3 `C_R, CIPHERTEXT_3`. */
  function LegacyCombinedPayload(message3: seq<byte>, oldPayload: seq<byte>, maxUnfragmentedSize: int): (r: Result<seq<byte>, Exception>)
    ensures r.Ok? ==> |r.value| <= maxUnfragmentedSize
  {
    match DecodeSequence(message3)
    case None => Err(CborError)
    case Some(items) =>
      if |items| < 2 then Err(IndexOutOfBounds)
      else
        match GetByteString(items[1])
        case Err(e) => Err(e)
        case Ok(ciphertext3) => Joined(Encode(Bytes(ciphertext3)), Encode(Bytes(oldPayload)), maxUnfragmentedSize)
  }

  method LegacyBuildCombinedPayload(message3: seq<byte>, oldPayload: seq<byte>, maxUnfragmentedSize: int)
    returns (r: Result<seq<byte>, Exception>)
    ensures r == LegacyCombinedPayload(message3, oldPayload, maxUnfragmentedSize)
  {
    var items := DecodeSequence(message3);
    if items.None? {
      return Err(CborError);
    }
    if |items.value| < 2 {
      return Err(IndexOutOfBounds);
    }
    var ciphertext3 := GetByteString(items.value[1]);
    if ciphertext3.Err? {
      return Err(ciphertext3.error);
    }
    r := JoinParts(Encode(Bytes(ciphertext3.value)), Encode(Bytes(oldPayload)), maxUnfragmentedSize);
  }

  /** What the older `receiveRequest` makes of a request carrying the EDHOC option. */
  datatype Received =
    | Dropped                                              // the request goes no further
    | Rebuilt(oscorePayload: seq<byte>, message3: seq<byte>) // the request payload and the message_3 to process

  /**
   * A request without the OSCORE option, or whose payload is not two byte
   * strings, is dropped; otherwise the OSCORE payload is the second string
   * and message_3 is rebuilt as `C_R, CIPHERTEXT_3` with `C_R` the encoded
   * kid (a missing kid makes the sequence builder raise). With `AsWritten`
   * the kid is read as `getKid` is written; with `Intended` the kid context
   * length is read unsigned.
   */
  function ReceiveCombinedRequest(hasOscore: bool, payload: seq<byte>, oscoreOption: seq<byte>, reading: Reading)
    : (r: Result<Received, Exception>)
    ensures !hasOscore ==> r == Ok(Dropped)
  {
    if !hasOscore then Ok(Dropped)
    else
      match DecodeSequence(payload)
      case None => Err(CborError)
      case Some(items) =>
        if |items| != 2 || TypeOf(items[0]) != ByteString || TypeOf(items[1]) != ByteString then Ok(Dropped)
        else
          match ReadKid(reading, oscoreOption)
          case Err(e) => Err(e)
          case Ok(kid) =>
            match MessageProcessor.BuildCborSequence([MessageProcessor.EncodeIdentifier(kid), Some(items[0])])
            case Err(e) => Err(e)
            case Ok(message3) => Ok(Rebuilt(Untag(items[1]).b, message3))
  }

  /** What the older `sendRequest` sends for an encoded message_3: CIPHERTEXT_3 and the old payload as byte strings. */
  lemma LegacySent(items: seq<Cbor>, oldPayload: seq<byte>, maxUnfragmentedSize: int)
    requires ValidSeq(items)
    requires LegacyCombinedPayload(EncodeSequence(items), oldPayload, maxUnfragmentedSize).Ok?
    ensures 2 <= |items| && TypeOf(items[1]) == ByteString
    ensures LegacyCombinedPayload(EncodeSequence(items), oldPayload, maxUnfragmentedSize).value ==
              Encode(Untag(items[1])) + Encode(Bytes(oldPayload))
  {
    DecodeEncodeSequence(items);
  }

  /** The older `receiveRequest` on two byte strings and an option carrying a kid. */
  lemma LegacyReceived(ciphertext3: seq<byte>, oldPayload: seq<byte>, oscoreOption: seq<byte>, kid: seq<byte>, reading: Reading)
    requires |ciphertext3| < TWO64 && |oldPayload| < TWO64 && |kid| < TWO64
    requires ReadKid(reading, oscoreOption) == Ok(Some(kid))
    ensures var cR := MessageProcessor.EncodeIdentifier(Some(kid)).value;
            var got := ReceiveCombinedRequest(true, Encode(Bytes(ciphertext3)) + Encode(Bytes(oldPayload)), oscoreOption, reading);
            got.Ok? && got.value.Rebuilt? && got.value.oscorePayload == oldPayload &&
            DecodeSequence(got.value.message3) == Some([cR, Bytes(ciphertext3)]) &&
            MessageProcessor.DecodeIdentifier(Some(cR)) == Some(kid)
  {
    EncodeSequencePair(Bytes(ciphertext3), Bytes(oldPayload));
    DecodeEncodeSequence([Bytes(ciphertext3), Bytes(oldPayload)]);
    var cR := MessageProcessor.EncodeIdentifier(Some(kid)).value;
    RebuiltMessage3(cR, ciphertext3);
    MessageProcessor.DecodeEncodeIdentifier(kid);
  }

  /**
   * A combined payload built by the older `sendRequest` is taken apart by
   * the older `receiveRequest`: the old payload comes back, and the rebuilt
   * message_3 is the identifier read from the kid followed by CIPHERTEXT_3.
   */
  lemma LegacyReceiveSent(items: seq<Cbor>, oldPayload: seq<byte>, maxUnfragmentedSize: int, oscoreOption: seq<byte>,
                          kid: seq<byte>, sent: seq<byte>, reading: Reading)
    requires ValidSeq(items) && |oldPayload| < TWO64 && |kid| < TWO64
    requires ReadKid(reading, oscoreOption) == Ok(Some(kid))
    requires LegacyCombinedPayload(EncodeSequence(items), oldPayload, maxUnfragmentedSize) == Ok(sent)
    ensures 2 <= |items| && TypeOf(items[1]) == ByteString
    ensures var got := ReceiveCombinedRequest(true, sent, oscoreOption, reading);
            var cR := MessageProcessor.EncodeIdentifier(Some(kid)).value;
            got.Ok? && got.value.Rebuilt? && got.value.oscorePayload == oldPayload &&
            DecodeSequence(got.value.message3) == Some([cR, Untag(items[1])]) &&
            MessageProcessor.DecodeIdentifier(Some(cR)) == Some(kid)
  {
    LegacySent(items, oldPayload, maxUnfragmentedSize);
    var ciphertext3 := GetByteString(items[1]).value;
    assert Untag(items[1]) == Bytes(ciphertext3);
    assert |ciphertext3| < TWO64 by {
      assert Valid(items[1]);
      ValidUntag(items[1]);
    }
    LegacyReceived(ciphertext3, oldPayload, oscoreOption, kid, reading);
  }

  /**
   * As written, the older `receiveRequest` raises on a well-formed combined
   * request whose OSCORE option carries a 128-octet kid context; the
   * corrected reading rebuilds message_3 from the kid.
   */
  lemma AsWrittenReceiveLongKidContext(ciphertext3: seq<byte>, oldPayload: seq<byte>)
    requires |ciphertext3| < TWO64 && |oldPayload| < TWO64
    ensures var option := OscoreOption([], Some(seq(128, _ => 0)), Some([7]));
            var payload := Encode(Bytes(ciphertext3)) + Encode(Bytes(oldPayload));
            ReceiveCombinedRequest(true, payload, option, AsWritten) == Err(IndexOutOfBounds) &&
            ReceiveCombinedRequest(true, payload, option, Intended).Ok?
  {
    var option := OscoreOption([], Some(seq(128, _ => 0)), Some([7]));
    AsWrittenLongKidContext();
    LegacyReceived(ciphertext3, oldPayload, option, [7], Intended);
    EncodeSequencePair(Bytes(ciphertext3), Bytes(oldPayload));
    DecodeEncodeSequence([Bytes(ciphertext3), Bytes(oldPayload)]);
  }

  lemma RebuiltMessage3(cR: Cbor, ciphertext3: seq<byte>)
    requires Valid(cR) && |ciphertext3| < TWO64
    ensures MessageProcessor.BuildCborSequence([Some(cR), Some(Bytes(ciphertext3))]) == Ok(EncodeSequence([cR, Bytes(ciphertext3)]))
    ensures DecodeSequence(EncodeSequence([cR, Bytes(ciphertext3)])) == Some([cR, Bytes(ciphertext3)])
  {
    var items := [Some(cR), Some(Bytes(ciphertext3))];
    assert items[1..] == [Some(Bytes(ciphertext3))] && items[1..][1..] == [];
    assert MessageProcessor.BuildCborSequence(items[1..]) == Ok(Encode(Bytes(ciphertext3)) + []);
    EncodeSequencePair(cR, Bytes(ciphertext3));
    DecodeEncodeSequence([cR, Bytes(ciphertext3)]);
  }
}
