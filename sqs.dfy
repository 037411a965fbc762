/** The SQS queue the SMS bridge feeds, reduced to its visible messages.
    A message is identified for deletion by its receipt handle; its body is
    the SMS text, already unwrapped from the two JSON envelopes. */
module Sqs {

  datatype Message = Message(receiptHandle: string, body: string)

  /** SQS hands out a different receipt handle for every message. */
  predicate DistinctHandles(q: seq<Message>) {
    forall i, j :: 0 <= i < j < |q| ==> q[i].receiptHandle != q[j].receiptHandle
  }

  /** The queue after `delete_message` with `handle`: the messages holding
      that handle are gone. That the rest keep their order is stated by
      WithoutReceived and WithoutAbsent. */
  function Without(q: seq<Message>, handle: string): (r: seq<Message>)
    ensures forall m :: m in r <==> m in q && m.receiptHandle != handle
    ensures |r| <= |q|
  {
    if q == [] then []
    else (if q[0].receiptHandle == handle then [] else [q[0]]) + Without(q[1..], handle)
  }

  /** Deleting a handle that no message holds changes nothing. */
  lemma {:induction false} WithoutAbsent(q: seq<Message>, handle: string)
    requires forall i :: 0 <= i < |q| ==> q[i].receiptHandle != handle
    ensures Without(q, handle) == q
  {
    if q != [] {
      WithoutAbsent(q[1..], handle);
      assert q == [q[0]] + q[1..];
    }
  }

  /** With distinct handles, deleting by the handle of the message at `k`
      removes exactly that message and keeps the others in order. */
  lemma {:induction false} WithoutReceived(q: seq<Message>, k: nat)
    requires DistinctHandles(q)
    requires k < |q|
    ensures Without(q, q[k].receiptHandle) == q[..k] + q[k + 1..]
  {
    var h, tl := q[k].receiptHandle, q[1..];
    assert DistinctHandles(tl);
    if k == 0 {
      assert forall i :: 0 <= i < |tl| ==> tl[i].receiptHandle != h;
      WithoutAbsent(tl, h);
      assert q[..0] + q[1..] == tl;
    } else {
      assert q[0].receiptHandle != h;
      assert tl[k - 1] == q[k];
      WithoutReceived(tl, k - 1);
      assert q[..k] + q[k + 1..] == [q[0]] + (tl[..k - 1] + tl[k..]);
    }
  }

  /** Removing one message keeps the handles distinct. */
  lemma RemovalKeepsHandlesDistinct(q: seq<Message>, k: nat)
    requires DistinctHandles(q)
    requires k < |q|
    ensures DistinctHandles(q[..k] + q[k + 1..])
  {
  }

  /** The visible messages of one queue. */
  class Queue {
    var messages: seq<Message>

    ghost predicate Valid()
      reads this
    {
      DistinctHandles(messages)
    }

    constructor (initial: seq<Message>)
      requires DistinctHandles(initial)
      ensures Valid() && messages == initial
    {
      messages := initial;
    }

    /** `receive_message` with `max_number_of_messages`: at most that many
        messages, oldest first; none exactly when the queue is empty.
        Received messages stay in the queue until deleted. */
    method ReceiveMessage(maxNumberOfMessages: nat) returns (batch: seq<Message>)
      requires 1 <= maxNumberOfMessages <= 10
      ensures |batch| <= maxNumberOfMessages
      ensures batch == [] <==> messages == []
      ensures |batch| <= |messages| && batch == messages[..|batch|]
      ensures |batch| == maxNumberOfMessages || batch == messages
    {
      if |messages| <= maxNumberOfMessages {
        batch := messages;
      } else {
        batch := messages[..maxNumberOfMessages];
      }
    }

    /** `delete_message` with `receipt_handle`. */
    method DeleteMessage(receiptHandle: string)
      requires Valid()
      modifies this
      ensures Valid()
      ensures messages == Without(old(messages), receiptHandle)
    {
      var q := messages;
      if k :| 0 <= k < |q| && q[k].receiptHandle == receiptHandle {
        WithoutReceived(q, k);
        RemovalKeepsHandlesDistinct(q, k);
      } else {
        WithoutAbsent(q, receiptHandle);
      }
      messages := Without(q, receiptHandle);
    }
  }
}
