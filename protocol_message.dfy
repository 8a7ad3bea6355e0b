/**
 * The common part of every message the mapper sends (`EdhocProtocolMessage`):
 * its payload type, the CoAP code it is sent with and its Content-Format, with
 * the switch to the old (6500x) Content-Format numbers.
 */
module ProtocolMessage {
  import opened Types

  /** CoAP request code POST (0.02) and response code Changed (2.04), section 12.1 of RFC 7252. */
  const COAP_POST: int := 2
  const COAP_CHANGED: int := 68

  /** application/edhoc+cbor-seq and application/cid-edhoc+cbor-seq, section 10.9 of RFC 9528. */
  const APPLICATION_EDHOC_CBOR_SEQ: int := 64
  const APPLICATION_CID_EDHOC_CBOR_SEQ: int := 65

  /** The numbers these formats had before their registration. */
  const OLD_EDHOC_CBOR_SEQ: int := 65000
  const OLD_CID_EDHOC_CBOR_SEQ: int := 65001

  datatype PayloadType =
    | EdhocMessage
    | EdhocMessage3OscoreApp
    | Message3Combined
    | ApplicationData
    | UnprotectedAppMessage

  /** `getContentFormat(oldVersion)` on a message whose format is `contentFormat`. */
  function ContentFormatFor(contentFormat: int, oldVersion: bool): (r: int)
    ensures !oldVersion ==> r == contentFormat
    ensures oldVersion && contentFormat == APPLICATION_EDHOC_CBOR_SEQ ==> r == OLD_EDHOC_CBOR_SEQ
    ensures oldVersion && contentFormat == APPLICATION_CID_EDHOC_CBOR_SEQ ==> r == OLD_CID_EDHOC_CBOR_SEQ
    ensures contentFormat != APPLICATION_EDHOC_CBOR_SEQ && contentFormat != APPLICATION_CID_EDHOC_CBOR_SEQ ==> r == contentFormat
  {
    if !oldVersion then contentFormat
    else if contentFormat == APPLICATION_EDHOC_CBOR_SEQ then OLD_EDHOC_CBOR_SEQ
    else if contentFormat == APPLICATION_CID_EDHOC_CBOR_SEQ then OLD_CID_EDHOC_CBOR_SEQ
    else contentFormat
  }

  /** The registered format of an old-numbered one: the inverse of the old-version mapping. */
  function RegisteredFormat(contentFormat: int): (r: int)
  {
    if contentFormat == OLD_EDHOC_CBOR_SEQ then APPLICATION_EDHOC_CBOR_SEQ
    else if contentFormat == OLD_CID_EDHOC_CBOR_SEQ then APPLICATION_CID_EDHOC_CBOR_SEQ
    else contentFormat
  }

  /**
   * Mapping to the old numbers loses nothing: every format other than the
   * old numbers themselves is recovered, so distinct formats stay distinct.
   */
  lemma OldFormatRoundTrip(contentFormat: int)
    requires contentFormat != OLD_EDHOC_CBOR_SEQ && contentFormat != OLD_CID_EDHOC_CBOR_SEQ
    ensures RegisteredFormat(ContentFormatFor(contentFormat, true)) == contentFormat
  {
  }

  lemma OldFormatInjective(a: int, b: int)
    requires a != OLD_EDHOC_CBOR_SEQ && a != OLD_CID_EDHOC_CBOR_SEQ
    requires b != OLD_EDHOC_CBOR_SEQ && b != OLD_CID_EDHOC_CBOR_SEQ
    requires ContentFormatFor(a, true) == ContentFormatFor(b, true)
    ensures a == b
  {
    OldFormatRoundTrip(a);
    OldFormatRoundTrip(b);
  }

  class EdhocProtocolMessage {
    var payload: Option<seq<byte>>
    var messageCode: int
    var contentFormat: int
    var payloadType: PayloadType

    /**
     * A CoAP client sends its message as a POST request with the format
     * announcing a prepended connection identifier; a CoAP server sends a
     * Changed response with the plain format.
     */
    constructor (isCoapClient: bool)
      ensures payloadType == EdhocMessage && payload.None?
      ensures isCoapClient ==> messageCode == COAP_POST && contentFormat == APPLICATION_CID_EDHOC_CBOR_SEQ
      ensures !isCoapClient ==> messageCode == COAP_CHANGED && contentFormat == APPLICATION_EDHOC_CBOR_SEQ
    {
      payload := None;
      payloadType := EdhocMessage;
      if isCoapClient {
        messageCode := COAP_POST;
        contentFormat := APPLICATION_CID_EDHOC_CBOR_SEQ;
      } else {
        messageCode := COAP_CHANGED;
        contentFormat := APPLICATION_EDHOC_CBOR_SEQ;
      }
    }

    /** `getContentFormat`. */
    function ContentFormat(oldVersion: bool): (r: int)
      reads this
      ensures r == ContentFormatFor(contentFormat, oldVersion)
    {
      ContentFormatFor(contentFormat, oldVersion)
    }
  }

  /** A freshly built message announces, in the old numbering, 65001 as a client and 65000 as a server. */
  method FreshMessageFormats(isCoapClient: bool) returns (current: int, oldFormat: int)
    ensures current == (if isCoapClient then APPLICATION_CID_EDHOC_CBOR_SEQ else APPLICATION_EDHOC_CBOR_SEQ)
    ensures oldFormat == (if isCoapClient then OLD_CID_EDHOC_CBOR_SEQ else OLD_EDHOC_CBOR_SEQ)
    ensures RegisteredFormat(oldFormat) == current
  {
    var m := new EdhocProtocolMessage(isCoapClient);
    current := m.ContentFormat(false);
    oldFormat := m.ContentFormat(true);
  }
}
