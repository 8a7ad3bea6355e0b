/**
 * How the mapper turns what the connector received into an abstract output
 * (`EdhocOutputMapper`): connector failures first, then application data,
 * then EDHOC messages (trying the readers the message structure allows, in a
 * fixed order), then plain CoAP messages, and `unknown` when nothing applies.
 *
 * The connector's flags and the readers' verdicts are inputs: the readers
 * themselves (decryption, transcript checks) are modelled in MessageProcessor.
 */
module OutputMapper {
  import opened Types
  import MessageProcessor

  /** `MessageOutputType`. */
  datatype OutputType =
    | EdhocMessage1
    | EdhocMessage2
    | EdhocMessage3
    | EdhocMessage4
    | EdhocErrorMessage
    | EdhocMessage3OscoreApp
    | OscoreAppMessage
    | CoapAppMessage
    | CoapMessage
    | CoapErrorMessage
    | CoapEmptyMessage
    | UnsupportedMessage
    | UnsuccessfulMessage

  /** An abstract output: a named symbol, or one of the framework's special outputs. */
  datatype Output = Symbol(kind: OutputType) | SocketClosed | Timeout | Unknown

  /** What `receive()` did: threw one of the connector exceptions, or returned a payload (possibly null). */
  datatype Received =
    | GenericError
    | TimedOut
    | SendUnsupported
    | SendUnsuccessful
    | Payload(payload: Option<seq<byte>>)

  /** What the connector reports about the latest received message. */
  datatype ConnectorFlags = ConnectorFlags(
    msg3WithOscoreApp: bool,
    oscoreAppMessage: bool,
    coapErrorMessage: bool,
    coapEmptyMessage: bool,
    coapAppMessage: bool)

  /** The readers of the message processor. */
  datatype Reader = ReadError | Read1 | Read2 | Read3 | Read4

  /** Whether each reader would accept the payload. */
  datatype Verdicts = Verdicts(error: bool, message1: bool, message2: bool, message3: bool, message4: bool)

  function Accepts(v: Verdicts, reader: Reader): bool
  {
    match reader
    case ReadError => v.error
    case Read1 => v.message1
    case Read2 => v.message2
    case Read3 => v.message3
    case Read4 => v.message4
  }

  /** The output a successful reader stands for. */
  function Produces(reader: Reader): OutputType
  {
    match reader
    case ReadError => EdhocErrorMessage
    case Read1 => EdhocMessage1
    case Read2 => EdhocMessage2
    case Read3 => EdhocMessage3
    case Read4 => EdhocMessage4
  }

  /** The readers a structure allows, in the order they are tried. */
  function ReadOrder(code: MessageProcessor.StructureCode): seq<Reader>
  {
    match code
    case ErrorMessage => [ReadError]
    case Message1 => [Read1]
    case Message2 => [Read2]
    case Message3Or4 => [Read3, Read4]
    case Message2Or3Or4 => [Read2, Read3, Read4]
    case UnknownMessage => []
  }

  /** The position of the first reader in `order` that accepts, or `|order|` when none does. */
  function FirstAccepting(order: seq<Reader>, v: Verdicts): (k: nat)
    ensures k <= |order|
    ensures forall j :: 0 <= j < k ==> !Accepts(v, order[j])
    ensures k < |order| ==> Accepts(v, order[k])
  {
    if |order| == 0 then 0
    else if Accepts(v, order[0]) then 0
    else 1 + FirstAccepting(order[1..], v)
  }

  /** `edhocOutputAfterCheck`: the output when the check succeeded, null otherwise. */
  function AfterCheck(successfulCheck: bool, kind: OutputType): (r: Option<OutputType>)
    ensures r.Some? <==> successfulCheck
    ensures r.Some? ==> r.value == kind
  {
    if successfulCheck then Some(kind) else None
  }

  /** The output of `edhocOutput` and the readers it called, in order. */
  datatype EdhocReading = EdhocReading(output: Option<OutputType>, called: seq<Reader>)

  /**
   * `edhocOutput`: dispatch on the structure of the payload. The readers
   * the structure allows are tried in order and the first that accepts
   * names the output; a reader is called only after every earlier one failed.
   */
  function EdhocOutput(code: MessageProcessor.StructureCode, v: Verdicts): (r: EdhocReading)
    ensures var order := ReadOrder(code);
            var k := FirstAccepting(order, v);
            && (k < |order| ==> r.output == Some(Produces(order[k])) && r.called == order[..k + 1])
            && (k == |order| ==> r.output.None? && r.called == order)
  {
    match code
    case ErrorMessage => EdhocReading(AfterCheck(v.error, EdhocErrorMessage), [ReadError])
    case Message1 => EdhocReading(AfterCheck(v.message1, EdhocMessage1), [Read1])
    case Message2 => EdhocReading(AfterCheck(v.message2, EdhocMessage2), [Read2])
    case Message3Or4 =>
      if v.message3 then EdhocReading(Some(EdhocMessage3), [Read3])
      else EdhocReading(AfterCheck(v.message4, EdhocMessage4), [Read3, Read4])
    case Message2Or3Or4 =>
      if v.message2 then EdhocReading(Some(EdhocMessage2), [Read2])
      else if v.message3 then EdhocReading(Some(EdhocMessage3), [Read2, Read3])
      else EdhocReading(AfterCheck(v.message4, EdhocMessage4), [Read2, Read3, Read4])
    case UnknownMessage => EdhocReading(None, [])
  }

  /**
   * An EDHOC output is only ever given by a reader that accepted, and every
   * reader called before it failed.
   */
  lemma EdhocOutputSound(code: MessageProcessor.StructureCode, v: Verdicts)
    ensures var r := EdhocOutput(code, v);
            r.output.Some? ==>
              |r.called| > 0 && Accepts(v, r.called[|r.called| - 1]) && Produces(r.called[|r.called| - 1]) == r.output.value &&
              forall j :: 0 <= j < |r.called| - 1 ==> !Accepts(v, r.called[j])
  {
    var order := ReadOrder(code);
    var k := FirstAccepting(order, v);
    var r := EdhocOutput(code, v);
    if r.output.Some? {
      assert r.called == order[..k + 1];
      forall j | 0 <= j < |r.called| - 1
        ensures !Accepts(v, r.called[j])
      {
        assert r.called[j] == order[j];
      }
    }
  }

  /** `appOutput`: message 3 combined with OSCORE application data first, then plain OSCORE application data. */
  function AppOutput(flags: ConnectorFlags): (r: Option<OutputType>)
    ensures r.Some? <==> flags.msg3WithOscoreApp || flags.oscoreAppMessage
    ensures flags.msg3WithOscoreApp ==> r == Some(EdhocMessage3OscoreApp)
    ensures !flags.msg3WithOscoreApp && flags.oscoreAppMessage ==> r == Some(OscoreAppMessage)
  {
    if flags.msg3WithOscoreApp then Some(EdhocMessage3OscoreApp)
    else if flags.oscoreAppMessage then Some(OscoreAppMessage)
    else None
  }

  /** `coapError`: a CoAP error is reported as an EDHOC error message when configured so. */
  function CoapError(coapErrorAsEdhocError: bool): (r: OutputType)
    ensures r == EdhocErrorMessage <==> coapErrorAsEdhocError
    ensures r == CoapErrorMessage <==> !coapErrorAsEdhocError
  {
    if coapErrorAsEdhocError then EdhocErrorMessage else CoapErrorMessage
  }

  /**
   * `coapOutput`: an error first, then an empty message, then an application
   * message; otherwise any non-null payload is a CoAP message.
   */
  function CoapOutput(flags: ConnectorFlags, coapErrorAsEdhocError: bool, payload: Option<seq<byte>>): (r: Option<OutputType>)
    ensures r.Some? <==> flags.coapErrorMessage || flags.coapEmptyMessage || flags.coapAppMessage || payload.Some?
    ensures flags.coapErrorMessage ==> r == Some(CoapError(coapErrorAsEdhocError))
    ensures !flags.coapErrorMessage && flags.coapEmptyMessage ==> r == Some(CoapEmptyMessage)
    ensures !flags.coapErrorMessage && !flags.coapEmptyMessage && flags.coapAppMessage ==> r == Some(CoapAppMessage)
    ensures !flags.coapErrorMessage && !flags.coapEmptyMessage && !flags.coapAppMessage && payload.Some? ==> r == Some(CoapMessage)
  {
    if flags.coapErrorMessage then Some(CoapError(coapErrorAsEdhocError))
    else if flags.coapEmptyMessage then Some(CoapEmptyMessage)
    else if flags.coapAppMessage then Some(CoapAppMessage)
    else AfterCheck(payload.Some?, CoapMessage)
  }

  /** The first classification that applies, in the order given. */
  function FirstSome(candidates: seq<Option<OutputType>>): (r: Option<OutputType>)
    ensures r.None? <==> forall i :: 0 <= i < |candidates| ==> candidates[i].None?
    ensures r.Some? ==> exists i :: 0 <= i < |candidates| && candidates[i] == r &&
                          forall j :: 0 <= j < i ==> candidates[j].None?
  {
    if |candidates| == 0 then None
    else if candidates[0].Some? then candidates[0]
    else
      var rest := FirstSome(candidates[1..]);
      assert forall i :: 1 <= i < |candidates| ==> candidates[i] == candidates[1..][i - 1];
      rest
  }

  /**
   * `receiveOutput`. `receiveCX` and `version` are what the mapper state
   * gives the structure check; `v` says which readers accept the payload.
   */
  function ReceiveOutput(received: Received, flags: ConnectorFlags, coapErrorAsEdhocError: bool,
                         receiveCX: bool, version: MessageProcessor.ProtocolVersion, v: Verdicts): (r: Output)
    ensures received == GenericError <==> r == SocketClosed
    ensures received == TimedOut <==> r == Timeout
    ensures received == SendUnsupported ==> r == Symbol(UnsupportedMessage)
    ensures received == SendUnsuccessful ==> r == Symbol(UnsuccessfulMessage)
    ensures r == Unknown <==>
              received == Payload(None) && !flags.msg3WithOscoreApp && !flags.oscoreAppMessage &&
              !flags.coapErrorMessage && !flags.coapEmptyMessage && !flags.coapAppMessage
  {
    match received
    case GenericError => SocketClosed
    case TimedOut => Timeout
    case SendUnsupported => Symbol(UnsupportedMessage)
    case SendUnsuccessful => Symbol(UnsuccessfulMessage)
    case Payload(payload) =>
      var app := AppOutput(flags);
      if app.Some? then Symbol(app.value)
      else
        var edhoc := EdhocOutput(MessageProcessor.MessageTypeFromStructure(payload, receiveCX, version), v).output;
        if edhoc.Some? then Symbol(edhoc.value)
        else
          var coap := CoapOutput(flags, coapErrorAsEdhocError, payload);
          if coap.Some? then Symbol(coap.value) else Unknown
  }

  /**
   * For a received payload the output is the first of the application,
   * EDHOC and CoAP classifications that applies, and `unknown` when none does.
   */
  lemma ReceiveOutputPrecedence(payload: Option<seq<byte>>, flags: ConnectorFlags, coapErrorAsEdhocError: bool,
                                receiveCX: bool, version: MessageProcessor.ProtocolVersion, v: Verdicts)
    ensures var code := MessageProcessor.MessageTypeFromStructure(payload, receiveCX, version);
            var first := FirstSome([AppOutput(flags), EdhocOutput(code, v).output,
                                    CoapOutput(flags, coapErrorAsEdhocError, payload)]);
            ReceiveOutput(Payload(payload), flags, coapErrorAsEdhocError, receiveCX, version, v) ==
              (if first.Some? then Symbol(first.value) else Unknown)
  {
    var code := MessageProcessor.MessageTypeFromStructure(payload, receiveCX, version);
    var app, edhoc, coap := AppOutput(flags), EdhocOutput(code, v).output, CoapOutput(flags, coapErrorAsEdhocError, payload);
    var cs := [app, edhoc, coap];
    assert cs[1..] == [edhoc, coap] && cs[1..][1..] == [coap];
    assert FirstSome([coap]) == coap by { assert [coap][1..] == []; }
  }

  /** Application data wins over any EDHOC or CoAP reading of the same payload. */
  lemma ApplicationDataFirst(payload: Option<seq<byte>>, flags: ConnectorFlags, coapErrorAsEdhocError: bool,
                             receiveCX: bool, version: MessageProcessor.ProtocolVersion, v: Verdicts)
    requires flags.msg3WithOscoreApp || flags.oscoreAppMessage
    ensures var r := ReceiveOutput(Payload(payload), flags, coapErrorAsEdhocError, receiveCX, version, v);
            r == Symbol(EdhocMessage3OscoreApp) || r == Symbol(OscoreAppMessage)
  {
  }

  /**
   * A CoAP classification is given only when there is no application data
   * and no EDHOC reader accepted the payload.
   */
  lemma CoapOnlyAfterEdhocDeclines(payload: Option<seq<byte>>, flags: ConnectorFlags, coapErrorAsEdhocError: bool,
                                   receiveCX: bool, version: MessageProcessor.ProtocolVersion, v: Verdicts)
    ensures var r := ReceiveOutput(Payload(payload), flags, coapErrorAsEdhocError, receiveCX, version, v);
            var code := MessageProcessor.MessageTypeFromStructure(payload, receiveCX, version);
            r in {Symbol(CoapAppMessage), Symbol(CoapMessage), Symbol(CoapErrorMessage), Symbol(CoapEmptyMessage)} ==>
              AppOutput(flags).None? && EdhocOutput(code, v).output.None?
  {
  }

  /** A payload read as EDHOC message 4 was first refused by the message 3 reader. */
  lemma Message4OnlyAfterMessage3Fails(payload: Option<seq<byte>>, flags: ConnectorFlags, coapErrorAsEdhocError: bool,
                                       receiveCX: bool, version: MessageProcessor.ProtocolVersion, v: Verdicts)
    requires ReceiveOutput(Payload(payload), flags, coapErrorAsEdhocError, receiveCX, version, v) == Symbol(EdhocMessage4)
    ensures v.message4 && !v.message3
    ensures var code := MessageProcessor.MessageTypeFromStructure(payload, receiveCX, version);
            code == MessageProcessor.Message3Or4 || code == MessageProcessor.Message2Or3Or4
    ensures MessageProcessor.MessageTypeFromStructure(payload, receiveCX, version) == MessageProcessor.Message2Or3Or4 ==> !v.message2
  {
  }
}
