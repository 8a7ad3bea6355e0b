/**
 * The hand-off of CoAP exchanges between the EDHOC layer, the server's
 * resources and the mapper: a draft queue and a received queue of bounded
 * capacity (`ArrayBlockingQueue`), and the exchange records put on them.
 */
module Exchange {
  import opened Types

  /** A CoAP message as the layer inspects it: its message ID and which of the OSCORE and EDHOC options it carries. */
  datatype CoapMessage = CoapMessage(mid: int, hasOscore: bool, hasEdhoc: bool)

  /** `BlockingQueue.offer`: the element joins the tail unless the queue is full. */
  function Offer<T>(queue: seq<T>, capacity: nat, x: T): (r: seq<T>)
    ensures |queue| < capacity ==> r == queue + [x]
    ensures |queue| >= capacity ==> r == queue
  {
    if |queue| < capacity then queue + [x] else queue
  }

  /** `BlockingQueue.poll`: the head, if any, and the rest. */
  function Poll<T>(queue: seq<T>): (r: (Option<T>, seq<T>))
    ensures |queue| == 0 ==> r == (None, queue)
    ensures |queue| > 0 ==> r.0 == Some(queue[0]) && [queue[0]] + r.1 == queue
  {
    if |queue| == 0 then (None, queue) else (Some(queue[0]), queue[1..])
  }

  /** Offering never takes a queue over its capacity. */
  lemma OfferBounded<T>(queue: seq<T>, capacity: nat, x: T)
    requires |queue| <= capacity
    ensures |Offer(queue, capacity, x)| <= capacity
    ensures |Offer(queue, capacity, x)| == |queue| + 1 <==> |queue| < capacity
  {
  }

  /** A queue of capacity one accepts an element only when it is empty. */
  lemma OfferSingleSlot<T>(queue: seq<T>, x: T)
    ensures Offer(queue, 1, x) == (if |queue| == 0 then [x] else queue)
  {
  }

  /** Two bounded queues shared between the producer and the consumer of exchanges. */
  class CoapExchanger<T> {
    var draftQueue: seq<T>
    var receivedQueue: seq<T>
    const capacity: nat

    ghost predicate Valid()
      reads this
    {
      |draftQueue| <= capacity && |receivedQueue| <= capacity
    }

    constructor(capacity: nat)
      ensures this.capacity == capacity && draftQueue == [] && receivedQueue == []
      ensures Valid()
    {
      this.capacity := capacity;
      draftQueue := [];
      receivedQueue := [];
    }

    method OfferDraft(x: T) returns (ok: bool)
      requires Valid()
      modifies this
      ensures Valid()
      ensures ok <==> |old(draftQueue)| < capacity
      ensures draftQueue == Offer(old(draftQueue), capacity, x)
      ensures receivedQueue == old(receivedQueue)
    {
      ok := |draftQueue| < capacity;
      if ok {
        draftQueue := draftQueue + [x];
      }
    }

    method OfferReceived(x: T) returns (ok: bool)
      requires Valid()
      modifies this
      ensures Valid()
      ensures ok <==> |old(receivedQueue)| < capacity
      ensures receivedQueue == Offer(old(receivedQueue), capacity, x)
      ensures draftQueue == old(draftQueue)
    {
      ok := |receivedQueue| < capacity;
      if ok {
        receivedQueue := receivedQueue + [x];
      }
    }

    method PollDraft() returns (x: Option<T>)
      requires Valid()
      modifies this
      ensures Valid()
      ensures (x, draftQueue) == Poll(old(draftQueue))
      ensures receivedQueue == old(receivedQueue)
    {
      if |draftQueue| == 0 {
        return None;
      }
      x := Some(draftQueue[0]);
      draftQueue := draftQueue[1..];
    }
  }

  // ---------------------------------------------------------------------
  // The current layer
  // ---------------------------------------------------------------------

  /** `CoapExchangeInfo` of the current mapper; the exchange itself is an opaque handle. */
  datatype ExchangeInfo = ExchangeInfo(
    mid: int,
    coapExchange: Option<nat>,
    hasEdhocMessage: bool,
    hasOscoreAppMessage: bool,
    hasCoapAppMessage: bool,
    hasUnsuccessfulMessage: bool)

  /** An EDHOC message travels only inside an OSCORE-protected one. */
  predicate Consistent(info: ExchangeInfo)
  {
    info.hasEdhocMessage ==> info.hasOscoreAppMessage
  }

  predicate AllConsistent(queue: seq<ExchangeInfo>)
  {
    forall i :: 0 <= i < |queue| ==> Consistent(queue[i])
  }

  /**
   * The record `addCoapExchangeInfo` prepares: a fresh record for the
   * message ID, marked as OSCORE application data when the OSCORE option is
   * present, and as EDHOC only when the EDHOC option comes with it.
   */
  function InfoFor(message: CoapMessage): (r: ExchangeInfo)
    ensures r.mid == message.mid && r.coapExchange.None?
    ensures r.hasOscoreAppMessage <==> message.hasOscore
    ensures r.hasEdhocMessage <==> message.hasOscore && message.hasEdhoc
    ensures !r.hasCoapAppMessage && !r.hasUnsuccessfulMessage
    ensures Consistent(r)
  {
    var info := ExchangeInfo(message.mid, None, false, false, false, false);
    if message.hasOscore then info.(hasOscoreAppMessage := true, hasEdhocMessage := message.hasEdhoc)
    else info
  }

  /** Offering a consistent record keeps a queue consistent. */
  lemma OfferConsistent(queue: seq<ExchangeInfo>, capacity: nat, info: ExchangeInfo)
    requires AllConsistent(queue) && Consistent(info)
    ensures AllConsistent(Offer(queue, capacity, info))
  {
  }

  /**
   * `addCoapExchangeInfo`: with no message or no session nothing happens; a
   * request's record is offered to the draft queue, for a server resource
   * to complete, and a response's to the received queue.
   */
  method AddCoapExchangeInfo(message: Option<CoapMessage>, isRequest: bool, exchanger: CoapExchanger?<ExchangeInfo>)
    requires exchanger != null ==> exchanger.Valid()
    modifies exchanger
    ensures exchanger != null ==> exchanger.Valid()
    ensures exchanger != null && message.Some? && isRequest ==>
              exchanger.draftQueue == Offer(old(exchanger.draftQueue), exchanger.capacity, InfoFor(message.value)) &&
              exchanger.receivedQueue == old(exchanger.receivedQueue)
    ensures exchanger != null && message.Some? && !isRequest ==>
              exchanger.receivedQueue == Offer(old(exchanger.receivedQueue), exchanger.capacity, InfoFor(message.value)) &&
              exchanger.draftQueue == old(exchanger.draftQueue)
    ensures exchanger != null && message.None? ==>
              exchanger.draftQueue == old(exchanger.draftQueue) && exchanger.receivedQueue == old(exchanger.receivedQueue)
  {
    if message.None? || exchanger == null {
      return;
    }
    var info := InfoFor(message.value);
    var ok;
    if isRequest {
      ok := exchanger.OfferDraft(info);
    } else {
      ok := exchanger.OfferReceived(info);
    }
  }

  // ---------------------------------------------------------------------
  // The older layer
  // ---------------------------------------------------------------------

  /**
   * The exchange record of the older mapper, with the flags its layer and
   * its server resources set; a record a resource creates for want of a
   * draft has no message ID.
   */
  datatype LegacyExchangeInfo = LegacyExchangeInfo(
    mid: Option<int>,
    coapExchange: Option<nat>,
    hasEdhocMessage: bool,
    hasApplicationData: bool,
    hasProtectedMessage: bool,
    hasUnprotectedMessage: bool)

  /** The record the older `updateSessionFromOptions` prepares. */
  function LegacyInfoFor(message: CoapMessage): (r: LegacyExchangeInfo)
    ensures r.mid == Some(message.mid) && r.coapExchange.None? && !r.hasApplicationData
    ensures r.hasProtectedMessage <==> message.hasOscore
    ensures r.hasEdhocMessage <==> message.hasOscore && message.hasEdhoc
    ensures r.hasProtectedMessage != r.hasUnprotectedMessage
    ensures r.hasEdhocMessage ==> r.hasProtectedMessage
  {
    var info := LegacyExchangeInfo(Some(message.mid), None, false, false, false, false);
    if message.hasOscore then info.(hasProtectedMessage := true, hasEdhocMessage := message.hasEdhoc)
    else info.(hasUnprotectedMessage := true)
  }

  /** The older `updateSessionFromOptions`: the same queue choice as the current layer. */
  method UpdateSessionFromOptions(message: Option<CoapMessage>, isRequest: bool, exchanger: CoapExchanger?<LegacyExchangeInfo>)
    requires exchanger != null ==> exchanger.Valid()
    modifies exchanger
    ensures exchanger != null ==> exchanger.Valid()
    ensures exchanger != null && message.Some? && isRequest ==>
              exchanger.draftQueue == Offer(old(exchanger.draftQueue), exchanger.capacity, LegacyInfoFor(message.value)) &&
              exchanger.receivedQueue == old(exchanger.receivedQueue)
    ensures exchanger != null && message.Some? && !isRequest ==>
              exchanger.receivedQueue == Offer(old(exchanger.receivedQueue), exchanger.capacity, LegacyInfoFor(message.value)) &&
              exchanger.draftQueue == old(exchanger.draftQueue)
    ensures exchanger != null && message.None? ==>
              exchanger.draftQueue == old(exchanger.draftQueue) && exchanger.receivedQueue == old(exchanger.receivedQueue)
  {
    if message.None? || exchanger == null {
      return;
    }
    var info := LegacyInfoFor(message.value);
    var ok;
    if isRequest {
      ok := exchanger.OfferDraft(info);
    } else {
      ok := exchanger.OfferReceived(info);
    }
  }

  /** The older exchanger: both queues hold one record. */
  method NewLegacyExchanger<T>() returns (e: CoapExchanger<T>)
    ensures fresh(e) && e.Valid() && e.capacity == 1 && e.draftQueue == [] && e.receivedQueue == []
  {
    e := new CoapExchanger(1);
  }
}
