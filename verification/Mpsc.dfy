/**
 The in-memory channel of `ces-mq`: a shared deque with counts of live senders
 and receivers. Every operation runs under the channel's lock.
 */
module Mpsc {

  datatype Received<T> = Empty | SenderGone | Value(value: T)

  class Channel<T> {
    var deque: seq<T>
    var senderCount: nat
    var receiverCount: nat

    constructor ()
      ensures deque == [] && senderCount == 1 && receiverCount == 1
    {
      deque, senderCount, receiverCount := [], 1, 1;
    }

    /** False when no receiver is left; the value is then dropped. */
    method Send(value: T) returns (ok: bool)
      modifies this`deque
      ensures ok == (receiverCount > 0)
      ensures deque == if ok then old(deque) + [value] else old(deque)
    {
      if receiverCount == 0 {
        return false;
      }
      deque := deque + [value];
      ok := true;
    }

    method Clear() returns (count: nat)
      modifies this`deque
      ensures deque == [] && count == |old(deque)|
    {
      count := |deque|;
      deque := [];
    }

    method TryNext() returns (r: Received<T>)
      modifies this`deque
      ensures r == Front(old(deque), senderCount)
      ensures deque == if old(deque) == [] then [] else old(deque)[1..]
    {
      if deque != [] {
        r := Value(deque[0]);
        deque := deque[1..];
      } else if senderCount == 0 {
        r := SenderGone;
      } else {
        r := Empty;
      }
    }

    /** Like `TryNext`, but leaves the value in place. */
    method Peek() returns (r: Received<T>)
      ensures r == Front(deque, senderCount)
    {
      if deque != [] {
        r := Value(deque[0]);
      } else if senderCount == 0 {
        r := SenderGone;
      } else {
        r := Empty;
      }
    }

    method CloneSender()
      modifies this`senderCount
      ensures senderCount == old(senderCount) + 1
    {
      senderCount := senderCount + 1;
    }

    method DropSender()
      requires senderCount > 0
      modifies this`senderCount
      ensures senderCount == old(senderCount) - 1
    {
      senderCount := senderCount - 1;
    }

    method CloneReceiver()
      modifies this`receiverCount
      ensures receiverCount == old(receiverCount) + 1
    {
      receiverCount := receiverCount + 1;
    }

    method DropReceiver()
      requires receiverCount > 0
      modifies this`receiverCount
      ensures receiverCount == old(receiverCount) - 1
    {
      receiverCount := receiverCount - 1;
    }
  }

  /** What a receiver of the deque sees; a waiting value hides a lost sender. */
  function Front<T>(deque: seq<T>, senderCount: nat): Received<T>
  {
    if deque != [] then Value(deque[0]) else if senderCount == 0 then SenderGone else Empty
  }
}
