/**
 * The is-alive wrapper around a system under learning (`AbstractIsAliveWrapper`):
 * while the wrapped system is alive every input is forwarded to it; the first
 * reply that reports the connection dead makes the wrapper answer every later
 * input with the socket-closed output, without forwarding, until the next reset.
 */
module IsAliveWrapper {

  /** An abstract output; `alive` is what `AbstractOutput.isAlive()` reports. */
  datatype Output = Output(symbol: string, alive: bool)

  /** One step from the wrapper's point of view: the output given and whether it stays alive. */
  function StepSpec(alive: bool, reply: Output, socketClosed: Output): (r: (Output, bool))
  {
    if alive then (reply, reply.alive) else (socketClosed, false)
  }

  /**
   * The outputs of consecutive steps, starting from `alive`, when the wrapped
   * system would answer the i-th forwarded input with `replies[i]`.
   */
  function Trace(alive: bool, replies: seq<Output>, socketClosed: Output): (r: seq<Output>)
    ensures |r| == |replies|
  {
    if |replies| == 0 then []
    else
      var (out, next) := StepSpec(alive, replies[0], socketClosed);
      [out] + Trace(next, replies[1..], socketClosed)
  }

  /** Whether the first `n` replies all report the connection alive. */
  predicate AliveThrough(replies: seq<Output>, n: nat)
    requires n <= |replies|
  {
    forall k :: 0 <= k < n ==> replies[k].alive
  }

  /**
   * Step i gives the wrapped system's reply exactly when the wrapper started
   * alive and every earlier reply was alive; otherwise it gives the
   * socket-closed output.
   */
  lemma {:induction false} TraceShape(alive: bool, replies: seq<Output>, socketClosed: Output)
    ensures forall i :: 0 <= i < |replies| ==>
              Trace(alive, replies, socketClosed)[i] == (if alive && AliveThrough(replies, i) then replies[i] else socketClosed)
    decreases |replies|
  {
    if |replies| > 0 {
      var next := StepSpec(alive, replies[0], socketClosed).1;
      var t := Trace(alive, replies, socketClosed);
      var rest := replies[1..];
      TraceShape(next, rest, socketClosed);
      forall i | 0 <= i < |replies|
        ensures t[i] == (if alive && AliveThrough(replies, i) then replies[i] else socketClosed)
      {
        if i > 0 {
          assert t[i] == Trace(next, rest, socketClosed)[i - 1];
          assert rest[i - 1] == replies[i];
          assert AliveThrough(replies, i) <==> replies[0].alive && AliveThrough(rest, i - 1) by {
            forall k | 0 < k < i ensures replies[k] == rest[k - 1] { }
          }
        }
      }
    }
  }

  /** Once the wrapper is dead, every later output is the socket-closed output. */
  lemma DeadStaysDead(replies: seq<Output>, socketClosed: Output)
    ensures forall i :: 0 <= i < |replies| ==> Trace(false, replies, socketClosed)[i] == socketClosed
  {
    TraceShape(false, replies, socketClosed);
  }

  class AbstractIsAliveWrapper {
    var isAlive: bool
    const socketClosedOutput: Output
    /** The inputs forwarded to the wrapped system, and how often it was reset, for the statements below. */
    ghost var forwarded: seq<string>
    ghost var innerResets: nat

    constructor (socketClosedOutput: Output)
      ensures this.socketClosedOutput == socketClosedOutput
      ensures !isAlive && forwarded == [] && innerResets == 0
    {
      this.socketClosedOutput := socketClosedOutput;
      isAlive := false;
      forwarded := [];
      innerResets := 0;
    }

    /** `pre`: resets the wrapped system and marks the connection alive. */
    method Pre()
      modifies this
      ensures isAlive
      ensures innerResets == old(innerResets) + 1 && forwarded == old(forwarded)
    {
      innerResets := innerResets + 1;
      isAlive := true;
    }

    /**
     * `step`: `reply` is what the wrapped system answers to `input`; it is
     * consulted, and the input forwarded, only while the wrapper is alive.
     */
    method Step(input: string, reply: Output) returns (out: Output)
      modifies this
      ensures (out, isAlive) == StepSpec(old(isAlive), reply, socketClosedOutput)
      ensures [out] == Trace(old(isAlive), [reply], socketClosedOutput)
      ensures forwarded == if old(isAlive) then old(forwarded) + [input] else old(forwarded)
      ensures innerResets == old(innerResets)
    {
      if isAlive {
        forwarded := forwarded + [input];
        out := reply;
        isAlive := reply.alive;
      } else {
        out := socketClosedOutput;
      }
    }
  }
}
