/**
 The frames and batch payloads the client writes: the SEND command with its optional checksum, and a
 batch packed into one payload and unpacked again.
 */
module Commands {
  import opened Options
  import opened SharedBuffers
  import opened Framing
  import opened MessageIds

  // ----- The SEND command -----

  /** The frame a SEND command makes; its checksum, if any, covers metadata size, metadata and payload. */
  function SendFrame(c: Codec, cmd: bytes, metadata: bytes, payload: bytes, crc32c: bool): Frame
    requires |metadata| < INT_LIMIT
  {
    var checksum := if crc32c then Some(Checksum(c, 0, MetadataAndPayload(metadata, payload))) else None;
    Entry(cmd, None, checksum, metadata, payload)
  }

  /** Writes a checksum over the placeholder left for it, `at` bytes into the readable ones. */
  method PatchChecksum(headers: SharedBuffer, at: nat, sum: uint32)
    requires headers.Valid() && at + 4 <= headers.ReadableBytes()
    modifies headers`writeIdx, headers.data
    ensures headers.Valid() && headers.writeIdx == old(headers.writeIdx)
    ensures headers.Readable() == Splice(old(headers.Readable()), at, U32(sum))
  {
    hide U32, Splice;
    ghost var all := headers.data[..];
    var end := headers.writeIdx;
    assert headers.Readable() == all[headers.readIdx..end];
    headers.SetWriterIndex(headers.readIdx + at);
    headers.WriteUnsignedInt(sum);
    headers.SetWriterIndex(end);
    assert headers.Readable() == headers.data[..][headers.readIdx..end];
    SpliceWindow(all, headers.readIdx, end, at, U32(sum));
  }

  lemma {:induction false} SpliceWindow(all: bytes, lo: nat, hi: nat, at: nat, t: bytes)
    requires lo + at + |t| <= hi <= |all|
    ensures Splice(all, lo + at, t)[lo..hi] == Splice(all[lo..hi], at, t)
  {
  }

  lemma {:induction false} SendFrameSize(c: Codec, cmd: bytes, metadata: bytes, payload: bytes, crc32c: bool)
    requires |cmd| < INT_LIMIT && |metadata| < INT_LIMIT
    ensures
      var f := SendFrame(c, cmd, metadata, payload, crc32c);
      && |Inside(f)| == 4 + |cmd| + (if crc32c then 6 else 0) + 4 + |metadata| + |payload|
      && Inside(f) == U32(|cmd|) + cmd + Checked(f.checksum, MetadataAndPayload(metadata, payload))
  {
    hide U32, U16, Checksum;
  }

  method WriteCommand(headers: SharedBuffer, totalSize: uint32, cmd: bytes)
    requires headers.Valid() && headers.readIdx == headers.writeIdx
    requires |cmd| < INT_LIMIT && 8 + |cmd| <= headers.WritableBytes()
    modifies headers`writeIdx, headers.data
    ensures headers.Valid() && headers.writeIdx == old(headers.writeIdx) + 8 + |cmd|
    ensures headers.Readable() == U32(totalSize) + (U32(|cmd|) + cmd)
  {
    hide U32;
    headers.WriteUnsignedInt(totalSize);
    headers.WriteUnsignedInt(|cmd|);
    headers.Write(cmd);
  }

  lemma {:induction false} SpliceHole(a: bytes, hole: bytes, b: bytes, t: bytes)
    requires |hole| == |t|
    ensures Splice(a + hole + b, |a|, t) == a + t + b
  {
  }

  lemma {:induction false} SliceAfter(a: bytes, hole: bytes, b: bytes)
    ensures (a + hole + b)[|a| + |hole|..|a| + |hole| + |b|] == b
  {
  }

  lemma {:induction false} CheckedLayout(before: bytes, sum: uint32, content: bytes, payload: bytes)
    ensures
      before + U16(MAGIC_CRC32C) + U32(sum) + content + payload == before + Checked(Some(sum), content + payload)
  {
    hide U32, U16;
  }

  method WriteChecked(c: Codec, headers: SharedBuffer, metadata: bytes, payload: bytes)
    requires headers.Valid() && |metadata| < INT_LIMIT && 10 + |metadata| <= headers.WritableBytes()
    modifies headers`writeIdx, headers.data
    ensures headers.Valid() && headers.writeIdx == old(headers.writeIdx) + 10 + |metadata|
    ensures
      var content := MetadataAndPayload(metadata, payload);
      headers.Readable() + payload == old(headers.Readable()) + Checked(Some(Checksum(c, 0, content)), content)
  {
    hide U32, U16, Checksum, Splice, Checked, SharedBuffer.Readable;
    ghost var hole := WritePlaceholder(headers);
    ghost var front := old(headers.Readable()) + U16(MAGIC_CRC32C);
    var at := headers.ReadableBytes() - 4;
    WriteMetadata(headers, metadata);
    ghost var content := U32(|metadata|) + metadata;
    SliceAfter(front, hole, content);
    var sum := ComputeChecksum(c, 0, headers.Slice(at + 4, 4 + |metadata|));
    sum := ComputeChecksum(c, sum, payload);
    ChecksumOfPieces(c, 0, content, payload);
    PatchChecksum(headers, at, sum);
    SpliceHole(front, hole, content, U32(sum));
    CheckedLayout(old(headers.Readable()), sum, content, payload);
  }

  method WritePlaceholder(headers: SharedBuffer) returns (ghost hole: bytes)
    requires headers.Valid() && 6 <= headers.WritableBytes()
    modifies headers`writeIdx, headers.data
    ensures headers.Valid() && headers.writeIdx == old(headers.writeIdx) + 6
    ensures |hole| == 4 && headers.Readable() == old(headers.Readable()) + U16(MAGIC_CRC32C) + hole
  {
    hide U16;
    headers.WriteUnsignedShort(MAGIC_CRC32C);
    hole := headers.data[headers.writeIdx..headers.writeIdx + 4];
    headers.SkipBytes(4);
  }

  /**
   Builds the headers of a SEND frame, in the storage of `original` when they fit there and in new
   storage otherwise. Headers followed by the payload are the whole frame, and the checksum, computed
   in two pieces, is that of the whole.
   */
  method NewSend(c: Codec, original: SharedBuffer, cmd: bytes, metadata: bytes, payload: bytes, crc32c: bool)
    returns (headers: SharedBuffer)
    requires original.Valid()
    requires |metadata| < INT_LIMIT && Sized(SendFrame(c, cmd, metadata, payload, crc32c))
    modifies original, original.data
    ensures original.Valid() && original.data == old(original.data)
    ensures fresh(headers) && headers.Valid()
    ensures
      var f := SendFrame(c, cmd, metadata, payload, crc32c);
      && headers.Readable() + payload == Wire(f)
      && (if |Wire(f)| - |payload| <= original.data.Length then headers.data == original.data else fresh(headers.data))
  {
    hide U32, U16, Checksum, SharedBuffer.Readable, Inside;
    ghost var f := SendFrame(c, cmd, metadata, payload, crc32c);
    var headerContentSize := 4 + |cmd| + (if crc32c then 2 + 4 else 0) + 4 + |metadata|;
    var totalSize := headerContentSize + |payload|;
    SendFrameSize(c, cmd, metadata, payload, crc32c);
    original.Reset();
    headers := new SharedBuffer.Sharing(original);
    if headers.WritableBytes() < 4 + headerContentSize {
      headers := new SharedBuffer(4 + headerContentSize);
    }
    WriteCommand(headers, totalSize, cmd);
    ghost var front := U32(|cmd|) + cmd;
    ghost var body := Checked(f.checksum, MetadataAndPayload(metadata, payload));
    if crc32c {
      WriteChecked(c, headers, metadata, payload);
    } else {
      WriteMetadata(headers, metadata);
      assert U32(totalSize) + front + (U32(|metadata|) + metadata) + payload == U32(totalSize) + front + body;
    }
    assert U32(totalSize) + front + body == U32(totalSize) + (front + body);
  }

  method WriteMetadata(headers: SharedBuffer, metadata: bytes)
    requires headers.Valid() && |metadata| < INT_LIMIT && 4 + |metadata| <= headers.WritableBytes()
    modifies headers`writeIdx, headers.data
    ensures headers.Valid() && headers.writeIdx == old(headers.writeIdx) + 4 + |metadata|
    ensures headers.Readable() == old(headers.Readable()) + (U32(|metadata|) + metadata)
  {
    hide U32;
    headers.WriteUnsignedInt(|metadata|);
    headers.Write(metadata);
  }

  /**
   A SEND frame relayed by a broker, which replaces the command and may put a broker entry in front, is
   handed to the consumer with the same metadata and payload and a valid checksum, if and only if the
   metadata size is not mistaken for a magic number.
   */
  lemma {:induction false} RelayedSendIsReadBack(
    c: Codec, cmd: bytes, metadata: bytes, payload: bytes, crc32c: bool,
    command: bytes, entry: Option<bytes>, rest: bytes)
    requires |metadata| < INT_LIMIT
    requires
      var sent := SendFrame(c, cmd, metadata, payload, crc32c);
      var relayed := sent.(cmd := command, brokerEntry := entry);
      Sized(sent) && Sized(relayed) && Parses(c, relayed)
    ensures
      var sent := SendFrame(c, cmd, metadata, payload, crc32c);
      var relayed := sent.(cmd := command, brokerEntry := entry);
      && Wire(sent)[8 + |cmd|..] == Tail(sent)
      && Wire(relayed)[8 + |command|..] == Prefixed(entry, Tail(sent))
      && (FrameBody(c, Inside(relayed) + rest, |Inside(relayed)|)
            == Done(Message(command, true, entry, metadata, payload), |Inside(relayed)|, 0)
          <==> Unambiguous(relayed))
  {
    hide FrameBody, Checksum, U32, U16;
    FrameRoundTrip(c, SendFrame(c, cmd, metadata, payload, crc32c).(cmd := command, brokerEntry := entry), rest);
  }

  // ----- Batches -----

  /** Metadata of a message in a batch, without the payload size, and the payload. */
  datatype Single<M> = Single(metadata: M, sequenceId: nat, payload: bytes)

  /** The protobuf form of one message's metadata together with its payload size. */
  datatype SingleCodec<!M> = SingleCodec(serialize: (M, nat) -> bytes, parse: bytes -> (M, int))

  /** Parsing undoes serializing. */
  ghost predicate Faithful<M(!new)>(c: SingleCodec<M>) {
    forall m, n :: c.parse(c.serialize(m, n)) == (m, n as int)
  }

  function Serialized<M>(c: SingleCodec<M>, m: Single<M>): bytes {
    c.serialize(m.metadata, |m.payload|)
  }

  predicate SizedSingle<M>(c: SingleCodec<M>, m: Single<M>) {
    |Serialized(c, m)| < INT_LIMIT && |m.payload| < INT_LIMIT
  }

  predicate SizedBatch<M>(c: SingleCodec<M>, ms: seq<Single<M>>) {
    forall i | 0 <= i < |ms| :: SizedSingle(c, ms[i])
  }

  function SingleBytes<M>(c: SingleCodec<M>, m: Single<M>): bytes
    requires SizedSingle(c, m)
  {
    U32(|Serialized(c, m)|) + Serialized(c, m) + m.payload
  }

  function BatchBytes<M>(c: SingleCodec<M>, ms: seq<Single<M>>): bytes
    requires SizedBatch(c, ms)
    decreases |ms|
  {
    if ms == [] then [] else SingleBytes(c, ms[0]) + BatchBytes(c, ms[1..])
  }

  lemma {:induction false} BatchBytesNext<M>(c: SingleCodec<M>, ms: seq<Single<M>>, i: nat)
    requires SizedBatch(c, ms) && i < |ms|
    ensures BatchBytes(c, ms[..i + 1]) == BatchBytes(c, ms[..i]) + SingleBytes(c, ms[i])
    decreases i
  {
    hide SingleBytes, SizedSingle;
    if i > 0 {
      BatchBytesNext(c, ms[1..], i - 1);
      assert ms[..i + 1][1..] == ms[1..][..i];
      assert ms[..i][1..] == ms[1..][..i - 1];
    } else {
      assert ms[..1][1..] == [];
    }
  }

  lemma {:induction false} BatchBytesMonotone<M>(c: SingleCodec<M>, ms: seq<Single<M>>, i: nat)
    requires SizedBatch(c, ms) && i <= |ms|
    ensures |BatchBytes(c, ms[..i])| <= |BatchBytes(c, ms)|
    decreases |ms| - i
  {
    hide SingleBytes, SizedSingle, BatchBytes;
    if i < |ms| {
      BatchBytesNext(c, ms, i);
      BatchBytesMonotone(c, ms, i + 1);
    } else {
      assert ms[..i] == ms;
    }
  }

  /**
   Packs a batch. The size computed beforehand is exactly the number of bytes written, and the sequence
   id is that of the last message.
   */
  method SerializeSingleMessagesToBatchPayload<M>(c: SingleCodec<M>, ms: seq<Single<M>>)
    returns (payload: SharedBuffer, sequenceId: nat)
    requires ms != [] && SizedBatch(c, ms) && |BatchBytes(c, ms)| < 0x1_0000_0000
    ensures fresh(payload) && fresh(payload.data) && payload.Valid()
    ensures payload.Readable() == BatchBytes(c, ms) && payload.WritableBytes() == 0
    ensures sequenceId == ms[|ms| - 1].sequenceId
  {
    hide BatchBytes, U32, SharedBuffer.Readable;
    var size := 4 * |ms|;
    var metadata: seq<bytes> := [];
    assert BatchBytes(c, ms[..0]) == [] by { NoBytes(c); }
    for i := 0 to |ms|
      invariant |metadata| == i && forall j | 0 <= j < i :: metadata[j] == Serialized(c, ms[j])
      invariant size == 4 * (|ms| - i) + |BatchBytes(c, ms[..i])|
    {
      BatchBytesNext(c, ms, i);
      var single := c.serialize(ms[i].metadata, |ms[i].payload|);
      metadata := metadata + [single];
      size := size + |single| + |ms[i].payload|;
    }
    assert ms[..|ms|] == ms;
    payload := new SharedBuffer(size);
    for i := 0 to |ms|
      invariant fresh(payload.data) && payload.Valid() && payload.readIdx == 0 && payload.data.Length == size
      invariant payload.Readable() == BatchBytes(c, ms[..i])
    {
      BatchBytesNext(c, ms, i);
      BatchBytesMonotone(c, ms, i + 1);
      assert payload.WritableBytes() == size - payload.ReadableBytes();
      WriteSingle(payload, metadata[i], ms[i].payload);
      assert payload.Readable() == BatchBytes(c, ms[..i]) + SingleBytes(c, ms[i]);
    }
    assert payload.WritableBytes() == size - payload.ReadableBytes();
    sequenceId := ms[|ms| - 1].sequenceId;
  }

  lemma {:induction false} NoBytes<M>(c: SingleCodec<M>)
    ensures BatchBytes(c, []) == []
  {
  }

  method WriteSingle(buffer: SharedBuffer, metadata: bytes, payload: bytes)
    requires buffer.Valid() && |metadata| < INT_LIMIT && 4 + |metadata| + |payload| <= buffer.WritableBytes()
    modifies buffer`writeIdx, buffer.data
    ensures buffer.Valid() && buffer.readIdx == old(buffer.readIdx)
    ensures buffer.Readable() == old(buffer.Readable()) + (U32(|metadata|) + metadata + payload)
  {
    hide U32, SharedBuffer.Readable;
    buffer.WriteUnsignedInt(|metadata|);
    buffer.Write(metadata);
    buffer.Write(payload);
  }

  // ----- Unpacking -----

  /** One message of a batch as the consumer sees it. */
  datatype Received<M> = Received(id: MessageId, metadata: M, payload: bytes)

  /** The id of a message within a batch entry. */
  function InBatch(entry: MessageId, index: Int32, size: Int32): MessageId {
    entry.(batchIndex := index, batchSize := size)
  }

  /** One message cut from the front of a batch payload, or None where the sizes point outside it. */
  function CutSingle<M>(c: SingleCodec<M>, s: bytes): Option<(M, bytes, bytes)> {
    if |s| < 4 then None
    else
      var n := ReadU32(s);
      if n >= INT_LIMIT || |s| < 4 + n then None
      else
        var (metadata, size) := c.parse(s[4..4 + n]);
        if size < 0 || |s| < 4 + n + size then None
        else Some((metadata, s[4 + n..4 + n + size], s[4 + n + size..]))
  }

  /** Messages `i` to `size` of a batch. */
  function CutBatch<M>(c: SingleCodec<M>, s: bytes, entry: MessageId, i: nat, size: nat): Option<seq<Received<M>>>
    requires i <= size < INT_LIMIT
    decreases size - i
  {
    if i == size then Some([])
    else
      match CutSingle(c, s)
      case None => None
      case Some((metadata, payload, rest)) =>
        match CutBatch(c, rest, entry, i + 1, size)
        case None => None
        case Some(later) => Some([Received(InBatch(entry, i, size), metadata, payload)] + later)
  }

  method DeserializeSingleMessageInBatch<M>(
    c: SingleCodec<M>, buffer: SharedBuffer, entry: MessageId, index: nat, size: nat) returns (r: Option<Received<M>>)
    requires buffer.Valid() && index < size < INT_LIMIT
    modifies buffer`readIdx
    ensures buffer.Valid()
    ensures
      match CutSingle(c, old(buffer.Readable()))
      case None => r == None
      case Some((metadata, payload, rest)) =>
        r == Some(Received(InBatch(entry, index, size), metadata, payload)) && buffer.Readable() == rest
  {
    hide ReadU32, SharedBuffer.Readable;
    ghost var s := buffer.Readable();
    if buffer.ReadableBytes() < 4 { return None; }
    var n := buffer.ReadUnsignedInt();
    if n >= INT_LIMIT || buffer.ReadableBytes() < n { return None; }
    ghost var after := s[4..];
    assert after[..n] == s[4..4 + n];
    var (metadata, payloadSize) := c.parse(buffer.Peek(n));
    buffer.Consume(n);
    if payloadSize < 0 || buffer.ReadableBytes() < payloadSize { return None; }
    var payload := buffer.Slice(0, payloadSize);
    assert payload == after[n..][..payloadSize] == s[4 + n..4 + n + payloadSize];
    buffer.Consume(payloadSize);
    assert after[n..][payloadSize..] == s[4 + n + payloadSize..];
    r := Some(Received(InBatch(entry, index, size), metadata, payload));
  }

  /** The consumer's loop over a batch. */
  method ReceiveIndividualMessagesFromBatch<M>(
    c: SingleCodec<M>, buffer: SharedBuffer, entry: MessageId, size: nat) returns (r: Option<seq<Received<M>>>)
    requires buffer.Valid() && size < INT_LIMIT
    modifies buffer`readIdx
    ensures r == CutBatch(c, old(buffer.Readable()), entry, 0, size)
  {
    hide CutSingle, SharedBuffer.Readable;
    var received: seq<Received<M>> := [];
    ghost var s := buffer.Readable();
    PrependedNothing(CutBatch(c, s, entry, 0, size));
    for i := 0 to size
      invariant buffer.Valid()
      invariant Prepended(received, CutBatch(c, buffer.Readable(), entry, i, size)) == CutBatch(c, s, entry, 0, size)
    {
      ghost var t := buffer.Readable();
      var m := DeserializeSingleMessageInBatch(c, buffer, entry, i, size);
      if m.None? { return None; }
      PrependedNext(received, m.value, CutBatch(c, buffer.Readable(), entry, i + 1, size));
      received := received + [m.value];
    }
    assert received + [] == received;
    r := Some(received);
  }

  ghost function Prepended<T>(before: seq<T>, r: Option<seq<T>>): Option<seq<T>> {
    if r.None? then None else Some(before + r.value)
  }

  lemma {:induction false} PrependedNothing<T>(r: Option<seq<T>>)
    ensures Prepended([], r) == r
  {
    if r.Some? { assert [] + r.value == r.value; }
  }

  lemma {:induction false} PrependedNext<T>(before: seq<T>, x: T, r: Option<seq<T>>)
    ensures Prepended(before + [x], r) == Prepended(before, Prepended([x], r))
  {
    if r.Some? { assert before + [x] + r.value == before + ([x] + r.value); }
  }

  /** What the consumer should see of a batch. */
  function Delivered<M>(ms: seq<Single<M>>, entry: MessageId): (r: seq<Received<M>>)
    requires |ms| < INT_LIMIT
    ensures |r| == |ms|
  {
    seq(|ms|, k requires 0 <= k < |ms| => Received(InBatch(entry, k, |ms|), ms[k].metadata, ms[k].payload))
  }

  lemma {:induction false} SingleRoundTrip<M(!new)>(c: SingleCodec<M>, m: Single<M>, rest: bytes)
    requires Faithful(c) && SizedSingle(c, m)
    ensures CutSingle(c, SingleBytes(c, m) + rest) == Some((m.metadata, m.payload, rest))
  {
    hide U32, ReadU32;
    var meta := Serialized(c, m);
    var s := SingleBytes(c, m) + rest;
    assert s == U32(|meta|) + (meta + m.payload + rest);
    IntegersRoundTrip(|meta|, 0, meta + m.payload + rest);
    assert s[4..4 + |meta|] == meta;
    assert s[4 + |meta|..4 + |meta| + |m.payload|] == m.payload;
    assert s[4 + |meta| + |m.payload|..] == rest;
  }

  lemma {:induction false} CutRest<M(!new)>(c: SingleCodec<M>, ms: seq<Single<M>>, i: nat, entry: MessageId)
    requires Faithful(c) && SizedBatch(c, ms) && i <= |ms| < INT_LIMIT
    ensures CutBatch(c, BatchBytes(c, ms[i..]), entry, i, |ms|) == Some(Delivered(ms, entry)[i..])
    decreases |ms| - i
  {
    hide SingleBytes, CutSingle;
    if i < |ms| {
      assert ms[i..][1..] == ms[i + 1..];
      SingleRoundTrip(c, ms[i], BatchBytes(c, ms[i + 1..]));
      CutRest(c, ms, i + 1, entry);
      var r := Delivered(ms, entry);
      assert r[i..] == [r[i]] + r[i + 1..];
    } else {
      assert Delivered(ms, entry)[i..] == [];
    }
  }

  /** Batch round trip: every list of messages is unpacked as it was packed, with ids in order. */
  lemma {:induction false} BatchRoundTrip<M(!new)>(c: SingleCodec<M>, ms: seq<Single<M>>, entry: MessageId)
    requires Faithful(c) && SizedBatch(c, ms) && |ms| < INT_LIMIT
    ensures CutBatch(c, BatchBytes(c, ms), entry, 0, |ms|) == Some(Delivered(ms, entry))
  {
    CutRest(c, ms, 0, entry);
    assert ms[0..] == ms && Delivered(ms, entry)[0..] == Delivered(ms, entry);
  }
}
