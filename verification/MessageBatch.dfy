/**
 The producer's batch: messages and their send callbacks, packed into one SEND operation whose
 completion calls every callback back.
 */
module MessageBatches {
  import opened Options
  import opened SharedBuffers
  import opened Framing
  import opened MessageIds
  import opened Commands

  type Callback = nat

  datatype Result = Success | OperationNotSupported | CryptoError | MessageTooBig | OtherError

  /** The operation handed to the producer; failed operations carry only their callbacks. */
  datatype SendOp =
    | Failed(result: Result, callbacks: seq<Callback>)
    | Send(numMessages: nat, messagesSize: nat, sequenceId: nat, payload: bytes, callbacks: seq<Callback>)

  function TotalLength<M>(ms: seq<Single<M>>): nat
    decreases |ms|
  {
    if ms == [] then 0 else TotalLength(ms[..|ms| - 1]) + |ms[|ms| - 1].payload|
  }

  class MessageAndCallbackBatch<M(!new)> {
    var messages: seq<Single<M>>
    var callbacks: seq<Callback>
    var messagesSize: nat

    ghost predicate Valid() reads this {
      |messages| == |callbacks| && messagesSize == TotalLength(messages)
    }

    constructor ()
      ensures Valid() && messages == [] && callbacks == []
    {
      messages, callbacks, messagesSize := [], [], 0;
    }

    method Add(m: Single<M>, callback: Callback)
      requires Valid()
      modifies this
      ensures Valid() && messages == old(messages) + [m] && callbacks == old(callbacks) + [callback]
    {
      messages := messages + [m];
      callbacks := callbacks + [callback];
      messagesSize := messagesSize + |m.payload|;
      assert messages[..|messages| - 1] == old(messages);
    }

    method Clear()
      modifies this
      ensures Valid() && messages == [] && callbacks == []
    {
      messages, callbacks, messagesSize := [], [], 0;
    }

    /**
     Packs the batch. A failed operation still owns all callbacks and leaves the batch as it was; only
     an operation to send empties it.
     */
    method CreateOpSendMsg(
      c: SingleCodec<M>, compress: bytes -> bytes, encrypt: bytes -> Option<bytes>, maxMessageSize: nat)
      returns (op: SendOp)
      requires Valid() && SizedBatch(c, messages) && |BatchBytes(c, messages)| < 0x1_0000_0000
      modifies this
      ensures Valid() && op.callbacks == old(callbacks)
      ensures op.Failed? ==> messages == old(messages) && callbacks == old(callbacks)
      ensures op.Send? ==> messages == [] && callbacks == []
      ensures op == Packed(c, old(messages), old(callbacks), compress, encrypt, maxMessageSize)
    {
      hide BatchBytes;
      if callbacks == [] {
        return Failed(OperationNotSupported, callbacks);
      }
      var buffer, sequenceId := SerializeSingleMessagesToBatchPayload(c, messages);
      var packed := compress(buffer.Peek(buffer.ReadableBytes()));
      assert buffer.Peek(buffer.ReadableBytes()) == BatchBytes(c, messages);
      var payload := encrypt(packed);
      if payload.None? {
        return Failed(CryptoError, callbacks);
      }
      if |payload.value| > maxMessageSize {
        return Failed(MessageTooBig, callbacks);
      }
      op := Send(|callbacks|, messagesSize, sequenceId, payload.value, callbacks);
      Clear();
    }
  }

  ghost function Packed<M>(
    c: SingleCodec<M>, ms: seq<Single<M>>, callbacks: seq<Callback>,
    compress: bytes -> bytes, encrypt: bytes -> Option<bytes>, maxMessageSize: nat): SendOp
    requires SizedBatch(c, ms)
  {
    if ms == [] then Failed(OperationNotSupported, callbacks)
    else
      match encrypt(compress(BatchBytes(c, ms)))
      case None => Failed(CryptoError, callbacks)
      case Some(payload) =>
        if |payload| > maxMessageSize then Failed(MessageTooBig, callbacks)
        else Send(|ms|, TotalLength(ms), ms[|ms| - 1].sequenceId, payload, callbacks)
  }

  /** One call of a send callback. */
  datatype Call = Call(callback: Callback, result: Result, id: MessageId)

  /** Completing an operation calls each callback once, the k-th with index k of the entry's id. */
  method CompleteSendCallbacks(callbacks: seq<Callback>, result: Result, entry: MessageId) returns (calls: seq<Call>)
    requires |callbacks| < INT_LIMIT
    ensures |calls| == |callbacks|
    ensures forall k | 0 <= k < |calls| :: calls[k] == Call(callbacks[k], result, InBatch(entry, k, |callbacks|))
  {
    calls := [];
    for i := 0 to |callbacks|
      invariant |calls| == i
      invariant forall k | 0 <= k < i :: calls[k] == Call(callbacks[k], result, InBatch(entry, k, |callbacks|))
    {
      calls := calls + [Call(callbacks[i], result, InBatch(entry, i, |callbacks|))];
    }
  }

  /**
   For an operation that was sent and a consumer that undoes encryption and compression: the consumer
   cuts as many messages as there are callbacks, and the k-th message has the k-th callback's id, the
   k-th added metadata and the k-th added payload.
   */
  lemma {:induction false} CallbackIdsMatchConsumerIds<M(!new)>(
    c: SingleCodec<M>, ms: seq<Single<M>>, callbacks: seq<Callback>, compress: bytes -> bytes,
    encrypt: bytes -> Option<bytes>, maxMessageSize: nat, restore: bytes -> bytes, entry: MessageId)
    requires Faithful(c) && SizedBatch(c, ms) && |ms| == |callbacks| < INT_LIMIT
    requires Packed(c, ms, callbacks, compress, encrypt, maxMessageSize).Send?
    requires restore(Packed(c, ms, callbacks, compress, encrypt, maxMessageSize).payload) == BatchBytes(c, ms)
    ensures
      var op := Packed(c, ms, callbacks, compress, encrypt, maxMessageSize);
      var received := CutBatch(c, restore(op.payload), entry, 0, op.numMessages);
      && received.Some? && |received.value| == |op.callbacks|
      && forall k | 0 <= k < |ms| ::
           received.value[k] == Received(InBatch(entry, k, |op.callbacks|), ms[k].metadata, ms[k].payload)
  {
    hide BatchBytes, CutBatch;
    BatchRoundTrip(c, ms, entry);
  }
}
