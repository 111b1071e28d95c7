/**
 Reading frames from a connection: bytes arrive in arbitrary pieces and are cut back into the
 commands and messages the broker sent.
 */
module Framing {
  import opened Options
  import opened SharedBuffers

  const MAGIC_CRC32C: uint16 := 0x0e01
  const MAGIC_BROKER_ENTRY: uint16 := 0x0e02
  const DEFAULT_BUFFER_SIZE: uint32 := 64 * 1024
  const INT_LIMIT := 0x8000_0000

  /**
   The protobuf classes and the checksum, which this model does not look into: which bytes parse as
   which message, which commands are MESSAGE commands, and one step of the checksum.
   */
  datatype Codec = Codec(
    command: bytes -> bool, isMessage: bytes -> bool, brokerEntry: bytes -> bool, metadata: bytes -> bool,
    crc: (uint32, byte) -> uint32)

  function Checksum(c: Codec, previous: uint32, s: bytes): uint32
    decreases |s|
  {
    if s == [] then previous else Checksum(c, c.crc(previous, s[0]), s[1..])
  }

  /** The checksum starts from the previous one and takes every byte into account, in order. */
  lemma {:induction false} ChecksumTakesEveryByte(c: Codec, previous: uint32, s: bytes, b: byte)
    ensures Checksum(c, previous, []) == previous
    ensures Checksum(c, previous, s + [b]) == c.crc(Checksum(c, previous, s), b)
  {
    ChecksumOfPieces(c, previous, s, [b]);
    assert Checksum(c, Checksum(c, previous, s), [b]) == Checksum(c, c.crc(Checksum(c, previous, s), b), [b][1..]);
  }

  /** A checksum continued over a second piece is the checksum of the whole. */
  lemma {:induction false} ChecksumOfPieces(c: Codec, previous: uint32, a: bytes, b: bytes)
    ensures Checksum(c, Checksum(c, previous, a), b) == Checksum(c, previous, a + b)
    decreases |a|
  {
    if a == [] {
      assert a + b == b;
    } else {
      ChecksumOfPieces(c, c.crc(previous, a[0]), a[1..], b);
      assert (a + b)[1..] == a[1..] + b;
    }
  }

  method ComputeChecksum(c: Codec, previous: uint32, s: bytes) returns (sum: uint32)
    ensures sum == Checksum(c, previous, s)
  {
    sum := previous;
    for i := 0 to |s|
      invariant Checksum(c, sum, s[i..]) == Checksum(c, previous, s)
    {
      assert s[i..][0] == s[i] && s[i..][1..] == s[i + 1..];
      sum := c.crc(sum, s[i]);
    }
  }

  // ----- Cutting one frame -----

  /** What the connection hands on for one frame. */
  datatype Event =
    | Command(cmd: bytes)
    | Message(cmd: bytes, checksumValid: bool, brokerEntry: Option<bytes>, metadata: bytes, payload: bytes)

  /**
   One step of cutting: the value read, how many bytes it took and the frame bytes left; or the bytes
   do not parse; or the code pieces past the buffered bytes, where it only has assertions.
   */
  datatype Step<T> = Done(value: T, used: nat, remaining: uint32) | Rejected | Undefined

  /** Unsigned subtraction. */
  function Minus(remaining: uint32, n: nat): uint32 {
    (remaining - n) % 0x1_0000_0000
  }

  /** The optional broker entry metadata in front of a message. */
  function BrokerEntry(c: Codec, s: bytes, remaining: uint32): Step<Option<bytes>> {
    if |s| < 2 then Undefined
    else if ReadU16(s) != MAGIC_BROKER_ENTRY then Done(None, 0, remaining)
    else if |s| < 6 then Undefined
    else
      var n := ReadU32(s[2..]);
      if n >= INT_LIMIT || |s| < 6 + n then Undefined
      else if !c.brokerEntry(s[6..6 + n]) then Rejected
      else Done(Some(s[6..6 + n]), 6 + n, Minus(remaining, 6 + n))
  }

  /** The optional checksum, compared with that of the frame bytes that follow it. */
  function StoredChecksum(c: Codec, s: bytes, remaining: uint32): Step<bool> {
    if |s| < 2 then Undefined
    else if ReadU16(s) != MAGIC_CRC32C then Done(true, 0, remaining)
    else if |s| < 6 then Undefined
    else
      var rest := Minus(remaining, 6);
      if rest >= INT_LIMIT || |s| < 6 + rest then Undefined
      else Done(ReadU32(s[2..]) == Checksum(c, 0, s[6..6 + rest]), 6, rest)
  }

  /** The metadata, and as payload whatever the frame has left. */
  function Content(c: Codec, s: bytes, remaining: uint32): Step<(bytes, bytes)> {
    if |s| < 4 then Undefined
    else
      var n := ReadU32(s);
      if n >= INT_LIMIT || |s| < 4 + n then Undefined
      else if !c.metadata(s[4..4 + n]) then Rejected
      else
        var size := Minus(remaining, 4 + n);
        if |s| < 4 + n + size then Undefined
        else Done((s[4..4 + n], s[4 + n..4 + n + size]), 4 + n + size, 0)
  }

  function MessageBody(c: Codec, cmd: bytes, s: bytes, remaining: uint32): (r: Step<Event>)
    ensures r.Done? ==> r.used <= |s|
  {
    match BrokerEntry(c, s, remaining)
    case Rejected => Rejected
    case Undefined => Undefined
    case Done(entry, n1, left1) =>
      match StoredChecksum(c, s[n1..], left1)
      case Rejected => Rejected
      case Undefined => Undefined
      case Done(valid, n2, left2) =>
        match Content(c, s[n1..][n2..], left2)
        case Rejected => Rejected
        case Undefined => Undefined
        case Done(content, n3, left3) => Done(Message(cmd, valid, entry, content.0, content.1), n1 + n2 + n3, left3)
  }

  /** One frame of `size` bytes at the head of the buffered bytes `s`. */
  function FrameBody(c: Codec, s: bytes, size: uint32): (r: Step<Event>)
    ensures r.Done? ==> 4 <= r.used <= |s|
  {
    if |s| < 4 then Undefined
    else
      var n := ReadU32(s);
      if n >= INT_LIMIT || |s| < 4 + n then Undefined
      else
        var cmd := s[4..4 + n];
        if !c.command(cmd) then Rejected
        else if !c.isMessage(cmd) then Done(Command(cmd), 4 + n, 0)
        else
          match MessageBody(c, cmd, s[4 + n..], Minus(size, n + 4))
          case Rejected => Rejected
          case Undefined => Undefined
          case Done(event, used, left) => Done(event, 4 + n + used, left)
  }

  // ----- The reader -----

  datatype Status = Open | Closed | Lost

  /** Unread bytes, how many more to wait for, and everything handed on so far. */
  datatype Reader = Reader(unread: bytes, minRead: nat, handled: seq<Event>, status: Status)

  const INITIAL: Reader := Reader([], 4, [], Open)

  /** How many bytes must still arrive before the head of `s` can be looked at again. */
  function Missing(s: bytes): int {
    if |s| < 4 then 4 - |s| else 4 + ReadU32(s) - |s|
  }

  /** Handles every complete frame of `s`. A frame size that wraps the buffer size loses the reader. */
  function Drain(c: Codec, s: bytes): (r: Reader)
    ensures r.status.Open? ==> |r.unread| <= |s| && r.minRead == Missing(r.unread) > 0
    ensures r.status.Open? && |r.unread| >= 4 ==> ReadU32(r.unread) + 4 < 0x1_0000_0000
    ensures !r.status.Open? ==> r.unread == [] && r.minRead == 0
    decreases |s|
  {
    if Missing(s) > 0 then
      if |s| >= 4 && ReadU32(s) + 4 >= 0x1_0000_0000 then Reader([], 0, [], Lost)
      else Reader(s, Missing(s), [], Open)
    else
      match FrameBody(c, s[4..], ReadU32(s))
      case Rejected => Reader([], 0, [], Closed)
      case Undefined => Reader([], 0, [], Lost)
      case Done(event, used, _) =>
        var r := Drain(c, s[4..][used..]);
        r.(handled := [event] + r.handled)
  }

  /** One read of the socket. */
  function Receive(c: Codec, r: Reader, read: bytes): Reader {
    if !r.status.Open? then r
    else if read == [] then Reader([], 0, r.handled, Closed)
    else if |read| < r.minRead then r.(unread := r.unread + read, minRead := r.minRead - |read|)
    else
      var d := Drain(c, r.unread + read);
      d.(handled := r.handled + d.handled)
  }

  function Feed(c: Codec, r: Reader, pieces: seq<bytes>): Reader
    decreases |pieces|
  {
    if pieces == [] then r else Feed(c, Receive(c, r, pieces[0]), pieces[1..])
  }

  function Flatten(pieces: seq<bytes>): bytes
    decreases |pieces|
  {
    if pieces == [] then [] else pieces[0] + Flatten(pieces[1..])
  }

  // ----- Bytes that arrive later do not change what was cut -----

  lemma {:induction false} MoreBytesSameEntry(c: Codec, s: bytes, remaining: uint32, more: bytes)
    requires !BrokerEntry(c, s, remaining).Undefined?
    ensures BrokerEntry(c, s + more, remaining) == BrokerEntry(c, s, remaining)
  {
    if |s| >= 6 {
      var n: int := ReadU32(s[2..]);
      if |s| >= 6 + n { assert (s + more)[6..6 + n] == s[6..6 + n]; }
    }
  }

  lemma {:induction false} MoreBytesSameChecksum(c: Codec, s: bytes, remaining: uint32, more: bytes)
    requires !StoredChecksum(c, s, remaining).Undefined?
    ensures StoredChecksum(c, s + more, remaining) == StoredChecksum(c, s, remaining)
  {
    var rest: int := Minus(remaining, 6);
    if |s| >= 6 + rest { assert (s + more)[6..6 + rest] == s[6..6 + rest]; }
  }

  lemma {:induction false} MoreBytesSameContent(c: Codec, s: bytes, remaining: uint32, more: bytes)
    requires !Content(c, s, remaining).Undefined?
    ensures Content(c, s + more, remaining) == Content(c, s, remaining)
  {
    var n: int := ReadU32(s);
    assert (s + more)[4..4 + n] == s[4..4 + n];
    var size: int := Minus(remaining, 4 + n);
    if |s| >= 4 + n + size { assert (s + more)[4 + n..4 + n + size] == s[4 + n..4 + n + size]; }
  }

  lemma {:induction false} MoreBytesSameBody(c: Codec, cmd: bytes, s: bytes, remaining: uint32, more: bytes)
    requires !MessageBody(c, cmd, s, remaining).Undefined?
    ensures MessageBody(c, cmd, s + more, remaining) == MessageBody(c, cmd, s, remaining)
  {
    hide Checksum, ReadU32, ReadU16, Minus;
    var a := BrokerEntry(c, s, remaining);
    MoreBytesSameEntry(c, s, remaining, more);
    if a.Done? {
      var t := s[a.used..];
      assert (s + more)[a.used..] == t + more;
      var b := StoredChecksum(c, t, a.remaining);
      MoreBytesSameChecksum(c, t, a.remaining, more);
      if b.Done? {
        var u := t[b.used..];
        assert (t + more)[b.used..] == u + more;
        MoreBytesSameContent(c, u, b.remaining, more);
      }
    }
  }

  lemma {:induction false} MoreBytesSameFrame(c: Codec, s: bytes, size: uint32, more: bytes)
    requires !FrameBody(c, s, size).Undefined?
    ensures FrameBody(c, s + more, size) == FrameBody(c, s, size)
  {
    hide MessageBody;
    var n := ReadU32(s);
    var cmd := s[4..4 + n];
    assert (s + more)[4..4 + n] == cmd;
    if c.command(cmd) && c.isMessage(cmd) {
      assert (s + more)[4 + n..] == s[4 + n..] + more;
      MoreBytesSameBody(c, cmd, s[4 + n..], Minus(size, n + 4), more);
    }
  }

  lemma {:induction false} DrainStep(c: Codec, s: bytes)
    requires Missing(s) <= 0
    ensures
      var f := FrameBody(c, s[4..], ReadU32(s));
      Drain(c, s) ==
        if f.Done? then var r := Drain(c, s[4..][f.used..]); r.(handled := [f.value] + r.handled)
        else Reader([], 0, [], if f.Rejected? then Closed else Lost)
  {
    hide FrameBody;
  }

  lemma {:induction false} DrainWaits(c: Codec, s: bytes)
    requires Missing(s) > 0 && !Drain(c, s).status.Lost?
    ensures Drain(c, s) == Reader(s, Missing(s), [], Open)
  {
    hide FrameBody;
  }

  /** Draining what is left together with new bytes continues the first drain. */
  lemma {:induction false} DrainContinues(c: Codec, s: bytes, more: bytes)
    requires !Drain(c, s).status.Lost?
    ensures
      var r := Drain(c, s);
      Drain(c, s + more) ==
        if r.status.Closed? then r
        else var d := Drain(c, r.unread + more); d.(handled := r.handled + d.handled)
    decreases |s|
  {
    hide FrameBody, Drain;
    if Missing(s) > 0 {
      DrainWaits(c, s);
      assert [] + Drain(c, s + more).handled == Drain(c, s + more).handled;
    } else {
      var f := FrameBody(c, s[4..], ReadU32(s));
      DrainStep(c, s);
      assert Missing(s + more) <= 0 && ReadU32(s + more) == ReadU32(s);
      assert (s + more)[4..] == s[4..] + more;
      MoreBytesSameFrame(c, s[4..], ReadU32(s), more);
      DrainStep(c, s + more);
      if f.Done? {
        var t := s[4..][f.used..];
        assert (s[4..] + more)[f.used..] == t + more;
        DrainContinues(c, t, more);
        var q := Drain(c, t);
        var d := Drain(c, q.unread + more);
        assert [f.value] + (q.handled + d.handled) == ([f.value] + q.handled) + d.handled;
      }
    }
  }

  lemma {:induction false} ReceiveContinues(c: Codec, s: bytes, read: bytes)
    requires read != []
    ensures
      var r := Receive(c, Drain(c, s), read);
      !r.status.Lost? ==> r == Drain(c, s + read)
  {
    hide Drain;
    var r := Drain(c, s);
    if !r.status.Lost? {
      DrainContinues(c, s, read);
      if r.status.Open? && |read| < r.minRead {
        StillWaiting(c, r.unread, read);
        assert r.handled + [] == r.handled;
      }
    }
  }

  lemma {:induction false} StillWaiting(c: Codec, s: bytes, read: bytes)
    requires |read| < Missing(s)
    requires |s| >= 4 ==> ReadU32(s) + 4 < 0x1_0000_0000
    ensures Drain(c, s + read) == Reader(s + read, Missing(s) - |read|, [], Open)
  {
    assert Missing(s + read) == Missing(s) - |read|;
  }

  /**
   For every stream, well formed or not, and every split of it into non-empty reads: unless some read
   loses the reader, what has been handed on, what is unread and what is awaited are those of the
   whole stream read at once.
   */
  lemma {:induction false} SegmentationDoesNotMatter(c: Codec, s: bytes, pieces: seq<bytes>)
    requires forall i | 0 <= i < |pieces| :: pieces[i] != []
    ensures
      var r := Feed(c, Drain(c, s), pieces);
      !r.status.Lost? ==> r == Drain(c, s + Flatten(pieces))
    decreases |pieces|
  {
    hide Drain;
    if pieces == [] {
      assert s + Flatten(pieces) == s;
    } else {
      var r := Receive(c, Drain(c, s), pieces[0]);
      if r.status.Lost? {
        LostStaysLost(c, r, pieces[1..]);
      } else {
        ReceiveContinues(c, s, pieces[0]);
        SegmentationDoesNotMatter(c, s + pieces[0], pieces[1..]);
        assert s + pieces[0] + Flatten(pieces[1..]) == s + Flatten(pieces);
      }
    }
  }

  lemma {:induction false} LostStaysLost(c: Codec, r: Reader, pieces: seq<bytes>)
    requires r.status.Lost?
    ensures Feed(c, r, pieces) == r
    decreases |pieces|
  {
    if pieces != [] { LostStaysLost(c, r, pieces[1..]); }
  }

  // ----- Frames as the broker writes them -----

  datatype Frame =
    | Simple(cmd: bytes)
    | Entry(cmd: bytes, brokerEntry: Option<bytes>, checksum: Option<uint32>, metadata: bytes, payload: bytes)

  /** From the metadata on, which is what a checksum covers. */
  function MetadataAndPayload(metadata: bytes, payload: bytes): bytes
    requires |metadata| < INT_LIMIT
  {
    U32(|metadata|) + metadata + payload
  }

  function Checked(checksum: Option<uint32>, content: bytes): bytes {
    match checksum
    case None => content
    case Some(stored) => U16(MAGIC_CRC32C) + U32(stored) + content
  }

  function Prefixed(entry: Option<bytes>, content: bytes): bytes
    requires entry.Some? ==> |entry.value| < INT_LIMIT
  {
    match entry
    case None => content
    case Some(e) => U16(MAGIC_BROKER_ENTRY) + U32(|e|) + e + content
  }

  predicate Sized(f: Frame) {
    && |f.cmd| < INT_LIMIT
    && (f.Entry? ==>
          && |f.metadata| < INT_LIMIT
          && (f.brokerEntry.Some? ==> |f.brokerEntry.value| < INT_LIMIT))
    && |Inside(f)| < INT_LIMIT
  }

  function Tail(f: Frame): bytes
    requires f.Entry? ==> |f.metadata| < INT_LIMIT && (f.brokerEntry.Some? ==> |f.brokerEntry.value| < INT_LIMIT)
  {
    match f
    case Simple(_) => []
    case Entry(_, entry, checksum, metadata, payload) =>
      Prefixed(entry, Checked(checksum, MetadataAndPayload(metadata, payload)))
  }

  /** Everything the frame size counts. */
  function Inside(f: Frame): (r: bytes)
    requires |f.cmd| < INT_LIMIT
    requires f.Entry? ==> |f.metadata| < INT_LIMIT && (f.brokerEntry.Some? ==> |f.brokerEntry.value| < INT_LIMIT)
    ensures |r| >= 4
  {
    U32(|f.cmd|) + f.cmd + Tail(f)
  }

  function Wire(f: Frame): (r: bytes)
    requires Sized(f)
    ensures |r| == 4 + |Inside(f)|
  {
    U32(|Inside(f)|) + Inside(f)
  }

  /** Without a checksum the metadata size stands where the reader looks for the two magic numbers. */
  predicate Unambiguous(f: Frame) {
    f.Entry? && f.checksum.None? ==>
      && |f.metadata| / 0x1_0000 != MAGIC_CRC32C
      && (f.brokerEntry.None? ==> |f.metadata| / 0x1_0000 != MAGIC_BROKER_ENTRY)
  }

  predicate Parses(c: Codec, f: Frame) {
    && c.command(f.cmd)
    && c.isMessage(f.cmd) == f.Entry?
    && (f.Entry? ==> c.metadata(f.metadata) && (f.brokerEntry.Some? ==> c.brokerEntry(f.brokerEntry.value)))
  }

  /** The command does not parse, or it announces a message whose broker entry or metadata does not. */
  predicate Malformed(c: Codec, f: Frame) {
    !Parses(c, f) && (c.command(f.cmd) ==> c.isMessage(f.cmd) == f.Entry?)
  }

  predicate WellFormed(c: Codec, f: Frame) {
    Sized(f) && Parses(c, f) && Unambiguous(f)
  }

  /** What should be handed on for a frame. */
  function EventOf(c: Codec, f: Frame): Event
    requires Sized(f)
  {
    match f
    case Simple(cmd) => Command(cmd)
    case Entry(cmd, entry, checksum, metadata, payload) =>
      var valid := checksum.None? || checksum.value == Checksum(c, 0, MetadataAndPayload(metadata, payload));
      Message(cmd, valid, entry, metadata, payload)
  }

  lemma {:induction false} ContentRead(c: Codec, metadata: bytes, payload: bytes, rest: bytes)
    requires |metadata| < INT_LIMIT && |MetadataAndPayload(metadata, payload)| < INT_LIMIT
    ensures
      var s := MetadataAndPayload(metadata, payload);
      Content(c, s + rest, |s|) == if c.metadata(metadata) then Done((metadata, payload), |s|, 0) else Rejected
  {
    hide U32, U16, ReadU32, ReadU16, Checksum;
    var s := MetadataAndPayload(metadata, payload);
    var n := |metadata|;
    assert s + rest == U32(n) + (metadata + payload + rest);
    IntegersRoundTrip(n, 0, metadata + payload + rest);
    assert (s + rest)[4..4 + n] == metadata;
    assert (s + rest)[4 + n..4 + n + |payload|] == payload;
  }

  lemma {:induction false} ChecksumRead(c: Codec, checksum: Option<uint32>, s: bytes, rest: bytes)
    requires |Checked(checksum, s)| < INT_LIMIT && |s| >= 2
    requires checksum.None? ==> ReadU16(s + rest) != MAGIC_CRC32C
    ensures
      var t := Checked(checksum, s);
      var valid := checksum.None? || checksum.value == Checksum(c, 0, s);
      && StoredChecksum(c, t + rest, |t|) == Done(valid, |t| - |s|, |s|)
      && (t + rest)[|t| - |s|..] == s + rest
  {
    hide U32, U16, ReadU32, ReadU16, Checksum;
    if checksum.Some? {
      var after := s + rest;
      var t := Checked(checksum, s) + rest;
      ChecksumLayout(checksum.value, after);
      assert t == U16(MAGIC_CRC32C) + (U32(checksum.value) + after);
      assert t[6..6 + |s|] == s;
      assert t[6..] == after;
    }
  }

  lemma {:induction false} ChecksumLayout(stored: uint32, after: bytes)
    ensures
      var t := U16(MAGIC_CRC32C) + (U32(stored) + after);
      ReadU16(t) == MAGIC_CRC32C && ReadU32(t[2..]) == stored
  {
    hide U32, U16, ReadU32, ReadU16;
    var t := U16(MAGIC_CRC32C) + (U32(stored) + after);
    IntegersRoundTrip(0, MAGIC_CRC32C, U32(stored) + after);
    IntegersRoundTrip(stored, 0, after);
    assert t[2..] == U32(stored) + after;
  }

  lemma {:induction false} BrokerEntryRead(c: Codec, entry: Option<bytes>, s: bytes, rest: bytes)
    requires |s| >= 2 && (entry.Some? ==> |entry.value| < INT_LIMIT)
    requires |Prefixed(entry, s)| < INT_LIMIT
    requires entry.None? ==> ReadU16(s + rest) != MAGIC_BROKER_ENTRY
    ensures
      var t := Prefixed(entry, s);
      && BrokerEntry(c, t + rest, |t|)
         == (if entry.Some? && !c.brokerEntry(entry.value) then Rejected else Done(entry, |t| - |s|, |s|))
      && (t + rest)[|t| - |s|..] == s + rest
  {
    hide ReadU32, ReadU16, EntryInFront, Minus;
    if entry.Some? {
      var e, after := entry.value, s + rest;
      EntryStands(e, s, rest);
      ReadEntry(Prefixed(entry, s) + rest, e);
      NoWrap(|Prefixed(entry, s)|, 6 + |e|);
    }
  }

  lemma {:induction false} NoWrap(remaining: uint32, n: nat)
    requires n <= remaining
    ensures Minus(remaining, n) == remaining - n
  {
  }

  lemma {:induction false} EntryStands(e: bytes, s: bytes, rest: bytes)
    requires |e| < INT_LIMIT
    ensures
      var t := Prefixed(Some(e), s);
      && |t| == 6 + |e| + |s| && (t + rest)[6 + |e|..] == s + rest && EntryInFront(t + rest, e)
  {
    hide U32, U16;
    var t := Prefixed(Some(e), s) + rest;
    assert t == Prefixed(Some(e), []) + (s + rest);
  }

  lemma {:induction false} PrefixLayout(e: bytes, after: bytes)
    requires |e| < INT_LIMIT
    ensures
      var t := U16(MAGIC_BROKER_ENTRY) + (U32(|e|) + (e + after));
      ReadU16(t) == MAGIC_BROKER_ENTRY && ReadU32(t[2..]) == |e|
  {
    hide U32, U16, ReadU32, ReadU16;
    IntegersRoundTrip(0, MAGIC_BROKER_ENTRY, U32(|e|) + (e + after));
    IntegersRoundTrip(|e|, 0, e + after);
    var t := U16(MAGIC_BROKER_ENTRY) + (U32(|e|) + (e + after));
    assert t[2..] == U32(|e|) + (e + after);
  }

  /** The first 16 bits after the broker entry, which is where a magic number is looked for. */
  lemma {:induction false} LeadingShort(checksum: Option<uint32>, metadata: bytes, payload: bytes, rest: bytes)
    requires |metadata| < INT_LIMIT
    ensures
      var s := Checked(checksum, MetadataAndPayload(metadata, payload)) + rest;
      |s| >= 4 && ReadU16(s) == if checksum.Some? then MAGIC_CRC32C else |metadata| / 0x1_0000
  {
    hide U32, U16, ReadU32, ReadU16, MetadataAndPayload;
    var content := MetadataAndPayload(metadata, payload);
    if checksum.Some? {
      ChecksumLayout(checksum.value, content + rest);
      assert Checked(checksum, content) + rest == U16(MAGIC_CRC32C) + (U32(checksum.value) + (content + rest));
    } else {
      LeadingSize(metadata, payload, rest);
    }
  }

  lemma {:induction false} LeadingSize(metadata: bytes, payload: bytes, rest: bytes)
    requires |metadata| < INT_LIMIT
    ensures
      var s := MetadataAndPayload(metadata, payload) + rest;
      |s| >= 4 && ReadU16(s) == |metadata| / 0x1_0000
  {
    hide U32, ReadU16;
    assert MetadataAndPayload(metadata, payload) + rest == U32(|metadata|) + (metadata + payload + rest);
    IntegersRoundTrip(|metadata|, 0, metadata + payload + rest);
  }

  lemma {:induction false} MessageRead(c: Codec, f: Frame, rest: bytes)
    requires f.Entry? && Sized(f) && Unambiguous(f) && c.command(f.cmd) && c.isMessage(f.cmd)
    ensures MessageBody(c, f.cmd, Tail(f) + rest, |Tail(f)|)
         == if Parses(c, f) then Done(EventOf(c, f), |Tail(f)|, 0) else Rejected
  {
    hide BrokerEntry, StoredChecksum, Content, Checksum, ReadU16, ReadU32;
    var content := MetadataAndPayload(f.metadata, f.payload);
    var checked := Checked(f.checksum, content);
    LeadingShort(f.checksum, f.metadata, f.payload, rest);
    BrokerEntryRead(c, f.brokerEntry, checked, rest);
    ChecksumRead(c, f.checksum, content, rest);
    ContentRead(c, f.metadata, f.payload, rest);
  }

  /** A metadata size that looks like a broker entry is taken for one. */
  lemma {:induction false} TakenForBrokerEntry(c: Codec, f: Frame, rest: bytes)
    requires f.Entry? && Sized(f) && f.checksum.None? && f.brokerEntry.None?
    requires |f.metadata| / 0x1_0000 == MAGIC_BROKER_ENTRY
    ensures
      var r := MessageBody(c, f.cmd, Tail(f) + rest, |Tail(f)|);
      r.Done? ==> r.value.Message? && r.value.brokerEntry.Some?
  {
    hide StoredChecksum, Content, Checksum, ReadU16, ReadU32;
    LeadingShort(f.checksum, f.metadata, f.payload, rest);
  }

  /** A metadata size that looks like a checksum is taken for one: six bytes go missing. */
  lemma {:induction false} TakenForChecksum(c: Codec, f: Frame, rest: bytes)
    requires f.Entry? && Sized(f) && Parses(c, f) && f.checksum.None?
    requires |f.metadata| / 0x1_0000 == MAGIC_CRC32C
    ensures
      var r := MessageBody(c, f.cmd, Tail(f) + rest, |Tail(f)|);
      r.Done? ==> r.value.Message? && (|r.value.metadata| != |f.metadata| || |r.value.payload| != |f.payload|)
  {
    hide BrokerEntry, StoredChecksum, Content, Checksum, ReadU16, ReadU32, Minus, Checked, MetadataAndPayload, Prefixed;
    var content := MetadataAndPayload(f.metadata, f.payload);
    LeadingShort(f.checksum, f.metadata, f.payload, rest);
    NoChecksum(content);
    ContentSize(f.metadata, f.payload);
    BrokerEntryRead(c, f.brokerEntry, content, rest);
    LosesSixBytes(c, content + rest, |content|);
  }

  lemma {:induction false} NoChecksum(content: bytes)
    ensures Checked(None, content) == content
  {
  }

  lemma {:induction false} ContentSize(metadata: bytes, payload: bytes)
    requires |metadata| < INT_LIMIT
    ensures |MetadataAndPayload(metadata, payload)| == 4 + |metadata| + |payload|
  {
  }

  /** After six bytes taken for a checksum, metadata and payload have six bytes less. */
  lemma {:induction false} LosesSixBytes(c: Codec, s: bytes, size: uint32)
    requires |s| >= 2 && ReadU16(s) == MAGIC_CRC32C && size < INT_LIMIT
    ensures
      var a := StoredChecksum(c, s, size);
      a.Done? ==>
        && a.used <= |s|
        && var b := Content(c, s[a.used..], a.remaining);
           b.Done? ==> 4 + |b.value.0| + |b.value.1| != size
  {
    hide Checksum, ReadU16, ReadU32;
  }

  lemma {:induction false} CommandRead(c: Codec, f: Frame, rest: bytes)
    requires Sized(f) && (c.command(f.cmd) ==> c.isMessage(f.cmd) == f.Entry?)
    ensures
      var r := FrameBody(c, Inside(f) + rest, |Inside(f)|);
      if !c.command(f.cmd) then r == Rejected
      else if f.Simple? then r == Done(EventOf(c, f), |Inside(f)|, 0)
      else
        var m := MessageBody(c, f.cmd, Tail(f) + rest, |Tail(f)|);
        r == if m.Done? then Done(m.value, 4 + |f.cmd| + m.used, m.remaining) else m
  {
    hide MessageBody, Checksum, ReadU32, Inside, Tail;
    InsideLayout(f, rest);
  }

  lemma {:induction false} InsideLayout(f: Frame, rest: bytes)
    requires Sized(f)
    ensures
      var s := Inside(f) + rest;
      var n := |f.cmd|;
      && |Inside(f)| == 4 + n + |Tail(f)| && (f.Simple? ==> Tail(f) == [])
      && ReadU32(s) == n && s[4..4 + n] == f.cmd && s[4 + n..] == Tail(f) + rest
  {
    hide U32, ReadU32, MetadataAndPayload, Checked, Prefixed;
    var s := Inside(f) + rest;
    assert s == U32(|f.cmd|) + (f.cmd + Tail(f) + rest);
    IntegersRoundTrip(|f.cmd|, 0, f.cmd + Tail(f) + rest);
  }

  /**
   Frame round trip, for every command, metadata and payload, with or without a checksum and a broker
   entry: the frame is cut back into its parts and exactly its own bytes are used, if and only if its
   metadata size is not mistaken for a magic number.
   */
  lemma {:induction false} FrameRoundTrip(c: Codec, f: Frame, rest: bytes)
    requires Sized(f) && Parses(c, f)
    ensures FrameBody(c, Inside(f) + rest, |Inside(f)|) == Done(EventOf(c, f), |Inside(f)|, 0) <==> Unambiguous(f)
  {
    hide MessageBody, FrameBody, Checksum;
    CommandRead(c, f, rest);
    if f.Entry? {
      if Unambiguous(f) {
        MessageRead(c, f, rest);
      } else if |f.metadata| / 0x1_0000 == MAGIC_CRC32C {
        TakenForChecksum(c, f, rest);
      } else {
        TakenForBrokerEntry(c, f, rest);
      }
    }
  }

  /** A frame whose command, broker entry or metadata does not parse is rejected. */
  lemma {:induction false} MalformedFrameIsRejected(c: Codec, f: Frame, rest: bytes)
    requires Sized(f) && Unambiguous(f) && Malformed(c, f)
    ensures FrameBody(c, Inside(f) + rest, |Inside(f)|) == Rejected
  {
    hide MessageBody, FrameBody, Checksum;
    CommandRead(c, f, rest);
    if c.command(f.cmd) { MessageRead(c, f, rest); }
  }

  /** A frame that is misread: no checksum, and 0x0e010000 bytes of metadata. */
  lemma {:induction false} MisreadFrame(rest: bytes)
    ensures
      var c := Codec(_ => true, _ => true, _ => true, _ => true, (_, _) => 0);
      var f := Entry([], None, None, seq(0x0e01_0000, _ => 0), []);
      && Sized(f) && Parses(c, f)
      && FrameBody(c, Inside(f) + rest, |Inside(f)|) != Done(EventOf(c, f), |Inside(f)|, 0)
  {
    hide FrameBody, U32;
    var c := Codec(_ => true, _ => true, _ => true, _ => true, (_, _) => 0);
    var f := Entry([], None, None, seq(0x0e01_0000, _ => 0), []);
    FrameRoundTrip(c, f, rest);
  }

  /** A simple frame uses up the size it declares if and only if nothing follows its command. */
  lemma {:induction false} SimpleFrameUsesItsSize(c: Codec, cmd: bytes, padding: bytes)
    requires |cmd| < INT_LIMIT && c.command(cmd) && !c.isMessage(cmd)
    requires 4 + |cmd| + |padding| < INT_LIMIT
    ensures
      var s := U32(|cmd|) + cmd + padding;
      var r := FrameBody(c, s, |s|);
      r.Done? && r.value == Command(cmd) && (r.used == |s| <==> padding == [])
  {
    hide MessageBody, U32, ReadU32;
    var s := U32(|cmd|) + cmd + padding;
    assert s == U32(|cmd|) + (cmd + padding);
    IntegersRoundTrip(|cmd|, 0, cmd + padding);
    assert s[4..4 + |cmd|] == cmd;
  }

  // ----- What is read is what is there -----

  /** A broker entry stands in front. */
  ghost predicate EntryInFront(s: bytes, e: bytes) {
    |e| < INT_LIMIT && Prefixed(Some(e), []) <= s
  }

  lemma {:induction false} FindEntry(s: bytes)
    requires |s| >= 6 && ReadU16(s) == MAGIC_BROKER_ENTRY
    requires var n := ReadU32(s[2..]); n < INT_LIMIT && |s| >= 6 + n
    ensures EntryInFront(s, s[6..6 + ReadU32(s[2..])])
  {
    hide U32, U16, ReadU32, ReadU16;
    IntegersAreBigEndian(s);
    IntegersAreBigEndian(s[2..]);
    var n := ReadU32(s[2..]);
    assert s[..6 + n] == s[..2] + s[2..][..4] + s[6..6 + n];
  }

  lemma {:induction false} ReadEntry(s: bytes, e: bytes)
    requires EntryInFront(s, e)
    ensures |e| < INT_LIMIT && |s| >= 6 + |e|
    ensures ReadU16(s) == MAGIC_BROKER_ENTRY && ReadU32(s[2..]) == |e| && s[6..6 + |e|] == e
  {
    hide U32, U16, ReadU32, ReadU16;
    var rest := s[6 + |e|..];
    assert s == U16(MAGIC_BROKER_ENTRY) + (U32(|e|) + (e + rest));
    PrefixLayout(e, rest);
  }

  /**
   Reading a broker entry fails to make sense only if a magic number announces one that is not there. An entry is
   read only if it stands in front.
   */
  lemma {:induction false} BrokerEntryIsThere(c: Codec, s: bytes, remaining: uint32)
    ensures
      var r := BrokerEntry(c, s, remaining);
      && (!r.Undefined? <==> (|s| >= 2 && ReadU16(s) != MAGIC_BROKER_ENTRY) || exists e :: EntryInFront(s, e))
      && (r.Done? && r.value.Some? ==> EntryInFront(s, r.value.value) && c.brokerEntry(r.value.value))
  {
    hide ReadU32, ReadU16, EntryInFront, Minus;
    if |s| >= 6 && ReadU16(s) == MAGIC_BROKER_ENTRY {
      var n := ReadU32(s[2..]);
      if n < INT_LIMIT && |s| >= 6 + n { FindEntry(s); }
    }
    if e :| EntryInFront(s, e) { ReadEntry(s, e); }
  }

  /** A checksum stands in front of `size` more bytes. */
  ghost predicate ChecksumInFront(s: bytes, stored: uint32, size: nat) {
    size < INT_LIMIT && Checked(Some(stored), []) <= s && 6 + size <= |s|
  }

  lemma {:induction false} ChecksumIsThere(c: Codec, s: bytes, remaining: uint32)
    ensures
      var r, size := StoredChecksum(c, s, remaining), Minus(remaining, 6);
      && (!r.Undefined? <==> (|s| >= 2 && ReadU16(s) != MAGIC_CRC32C) || exists v :: ChecksumInFront(s, v, size))
      && (r.Done? && r.used == 6 ==>
            exists v :: ChecksumInFront(s, v, size) && (r.value <==> v == Checksum(c, 0, s[6..6 + size])))
  {
    hide U32, U16, ReadU32, ReadU16, Checksum, Minus;
    var size: int := Minus(remaining, 6);
    IntegersAreBigEndian(s);
    if |s| >= 6 && ReadU16(s) == MAGIC_CRC32C {
      IntegersAreBigEndian(s[2..]);
      assert s[..6] == s[..2] + s[2..][..4];
      if size < INT_LIMIT && |s| >= 6 + size { assert ChecksumInFront(s, ReadU32(s[2..]), size); }
    }
    if v :| ChecksumInFront(s, v, size) {
      assert s == U16(MAGIC_CRC32C) + (U32(v) + s[6..]);
      ChecksumLayout(v, s[6..]);
    }
  }

  /** Metadata and payload stand in front, and together fill the frame. */
  ghost predicate ContentInFront(s: bytes, metadata: bytes, payload: bytes, remaining: uint32) {
    && |metadata| < INT_LIMIT && |payload| == Minus(remaining, 4 + |metadata|)
    && MetadataAndPayload(metadata, payload) <= s
  }

  /** Metadata and payload are read if and only if they stand in front and the metadata parses. */
  lemma {:induction false} ContentIsThere(c: Codec, s: bytes, remaining: uint32, m: bytes, p: bytes)
    ensures
      var r := Content(c, s, remaining);
      r.Done? && r.value == (m, p) <==> c.metadata(m) && ContentInFront(s, m, p, remaining)
  {
    hide ContentInFront, Minus, ReadU32;
    var r := Content(c, s, remaining);
    if c.metadata(m) && ContentInFront(s, m, p, remaining) { ContentDone(c, s, m, p, remaining); }
    if r.Done? { FindContent(c, s, remaining); }
  }

  lemma {:induction false} FindContent(c: Codec, s: bytes, remaining: uint32)
    requires Content(c, s, remaining).Done?
    ensures
      var r := Content(c, s, remaining);
      c.metadata(r.value.0) && ContentInFront(s, r.value.0, r.value.1, remaining)
  {
    hide U32, ReadU32, Minus;
    IntegersAreBigEndian(s);
    var n, r := ReadU32(s), Content(c, s, remaining);
    assert s[..r.used] == s[..4] + s[4..4 + n] + s[4 + n..r.used];
  }

  lemma {:induction false} ContentDone(c: Codec, s: bytes, m: bytes, p: bytes, remaining: uint32)
    requires ContentInFront(s, m, p, remaining) && c.metadata(m)
    ensures Content(c, s, remaining) == Done((m, p), 4 + |m| + |p|, 0)
  {
    hide U32, ReadU32, Minus;
    var rest := s[4 + |m| + |p|..];
    assert s == U32(|m|) + (m + p + rest);
    IntegersRoundTrip(|m|, 0, m + p + rest);
    assert s[4..4 + |m|] == m && s[4 + |m|..4 + |m| + |p|] == p;
  }

  // ----- Streams of frames -----

  predicate AllWellFormed(c: Codec, frames: seq<Frame>) {
    forall i | 0 <= i < |frames| :: WellFormed(c, frames[i])
  }

  function Stream(c: Codec, frames: seq<Frame>): bytes
    requires AllWellFormed(c, frames)
    decreases |frames|
  {
    if frames == [] then [] else Wire(frames[0]) + Stream(c, frames[1..])
  }

  function Events(c: Codec, frames: seq<Frame>): (r: seq<Event>)
    requires AllWellFormed(c, frames)
    ensures |r| == |frames|
    decreases |frames|
  {
    if frames == [] then [] else [EventOf(c, frames[0])] + Events(c, frames[1..])
  }

  lemma {:induction false} EventsAt(c: Codec, frames: seq<Frame>, i: nat)
    requires AllWellFormed(c, frames) && i < |frames|
    ensures Events(c, frames)[i] == EventOf(c, frames[i])
    decreases |frames|
  {
    hide Sized, Parses, Unambiguous, EventOf;
    if i > 0 { EventsAt(c, frames[1..], i - 1); }
  }

  /** How many frames are complete within the first `n` bytes of the stream. */
  function Complete(c: Codec, frames: seq<Frame>, n: nat): (k: nat)
    requires AllWellFormed(c, frames)
    ensures k <= |frames|
    decreases |frames|
  {
    if frames == [] || n < |Wire(frames[0])| then 0
    else 1 + Complete(c, frames[1..], n - |Wire(frames[0])|)
  }

  lemma {:induction false} NoFrames(c: Codec)
    ensures Stream(c, []) == [] && Events(c, []) == []
  {
  }

  /** `Complete` counts the longest run of whole frames that fits. */
  lemma {:induction false} CompleteIsLargest(c: Codec, frames: seq<Frame>, n: nat)
    requires AllWellFormed(c, frames)
    ensures
      var k := Complete(c, frames, n);
      && |Stream(c, frames[..k])| <= n
      && (k < |frames| ==> n < |Stream(c, frames[..k + 1])|)
    decreases |frames|
  {
    hide Sized, Parses, Unambiguous, Wire, Stream, EventOf, Events;
    NoFrames(c);
    if frames != [] {
      TakeOneMore(c, frames, 0);
      if n >= |Wire(frames[0])| {
        var k := Complete(c, frames[1..], n - |Wire(frames[0])|);
        CompleteIsLargest(c, frames[1..], n - |Wire(frames[0])|);
        TakeOneMore(c, frames, k);
        if k + 1 < |frames| { TakeOneMore(c, frames, k + 1); }
      }
    }
  }

  lemma {:induction false} FirstFrame(c: Codec, f: Frame, rest: bytes)
    requires WellFormed(c, f)
    ensures
      var r := Drain(c, rest);
      Drain(c, Wire(f) + rest) == r.(handled := [EventOf(c, f)] + r.handled)
  {
    hide FrameBody, Drain, EventOf, Inside, U32, ReadU32, Parses, Unambiguous;
    var s := Wire(f) + rest;
    var inside := Inside(f);
    assert s == U32(|inside|) + (inside + rest);
    IntegersRoundTrip(|inside|, 0, inside + rest);
    assert s[4..] == inside + rest;
    FrameRoundTrip(c, f, rest);
    DrainStep(c, s);
    assert s[4..][|inside|..] == rest;
  }

  lemma {:induction false} PartOfFrame(c: Codec, f: Frame, wire: bytes, s: bytes)
    requires Sized(f) && wire == Wire(f) && |s| < |wire| && s == wire[..|s|]
    ensures Drain(c, s).status.Open? && Drain(c, s).unread == s && Drain(c, s).handled == []
  {
    hide FrameBody, Inside, U32, Parses, Unambiguous;
    if |s| >= 4 {
      var rest := s[4..];
      assert s[..4] == wire[..4] == U32(|Inside(f)|);
      assert s == U32(|Inside(f)|) + rest;
      IntegersRoundTrip(|Inside(f)|, 0, rest);
    }
  }

  lemma {:induction false} TakeOneMore(c: Codec, frames: seq<Frame>, k: nat)
    requires AllWellFormed(c, frames) && k < |frames|
    ensures Stream(c, frames[..k + 1]) == Wire(frames[0]) + Stream(c, frames[1..][..k])
    ensures Events(c, frames[..k + 1]) == [EventOf(c, frames[0])] + Events(c, frames[1..][..k])
  {
    hide Sized, Parses, Unambiguous, Wire, EventOf;
    assert frames[..k + 1][1..] == frames[1..][..k];
  }

  lemma {:induction false} DropFirst(c: Codec, frames: seq<Frame>, s: bytes)
    requires AllWellFormed(c, frames) && frames != [] && s <= Stream(c, frames)
    ensures
      var wire := Wire(frames[0]);
      if |s| < |wire| then s == wire[..|s|]
      else s == wire + s[|wire|..] && s[|wire|..] <= Stream(c, frames[1..])
  {
    hide Sized, Parses, Unambiguous, Wire;
    var wire := Wire(frames[0]);
    assert s == Stream(c, frames)[..|s|];
    if |s| >= |wire| {
      assert s[|wire|..] == Stream(c, frames[1..])[..|s| - |wire|];
    }
  }

  /** Of a prefix of a stream of frames, exactly the complete frames are handled, and the rest is kept. */
  lemma {:induction false} DrainFrames(c: Codec, frames: seq<Frame>, s: bytes)
    requires AllWellFormed(c, frames)
    requires s <= Stream(c, frames)
    ensures
      var k := Complete(c, frames, |s|);
      var n := |Stream(c, frames[..k])|;
      var r := Drain(c, s);
      n <= |s| && r.status.Open? && r.unread == s[n..] && r.handled == Events(c, frames[..k])
    decreases |frames|
  {
    hide Drain, Sized, Parses, Unambiguous, Wire, EventOf, Missing;
    if frames == [] {
      DrainNothing(c);
    } else {
      var f, later := frames[0], frames[1..];
      DropFirst(c, frames, s);
      if |s| < |Wire(f)| {
        PartOfFrame(c, f, Wire(f), s);
      } else {
        var rest := s[|Wire(f)|..];
        DrainFrames(c, later, rest);
        FirstFrame(c, f, rest);
        TakeOneMore(c, frames, Complete(c, later, |rest|));
      }
    }
  }

  lemma {:induction false} DrainNothing(c: Codec)
    ensures Drain(c, []) == INITIAL
  {
  }

  /** No prefix of this stream loses the reader. */
  ghost predicate NeverLost(c: Codec, stream: bytes) {
    forall n | 0 <= n <= |stream| :: !Drain(c, stream[..n]).status.Lost?
  }

  lemma {:induction false} SafeStreamReadAtOnce(c: Codec, stream: bytes, s: bytes, pieces: seq<bytes>)
    requires NeverLost(c, stream) && s + Flatten(pieces) == stream
    requires forall i | 0 <= i < |pieces| :: pieces[i] != []
    ensures Feed(c, Drain(c, s), pieces) == Drain(c, stream)
    decreases |pieces|
  {
    hide Drain;
    assert s == stream[..|s|];
    if pieces == [] {
      assert s == stream;
    } else {
      var t := s + pieces[0];
      assert t + Flatten(pieces[1..]) == stream && t == stream[..|t|];
      ReceivedFrames(c, s, pieces[0]);
      SafeStreamReadAtOnce(c, stream, t, pieces[1..]);
    }
  }

  lemma {:induction false} ReceivedFrames(c: Codec, s: bytes, piece: bytes)
    requires piece != [] && !Drain(c, s).status.Lost? && !Drain(c, s + piece).status.Lost?
    ensures Receive(c, Drain(c, s), piece) == Drain(c, s + piece)
  {
    hide Drain;
    DrainContinues(c, s, piece);
    ReceiveContinues(c, s, piece);
  }

  lemma {:induction false} FrameStreamNeverLost(c: Codec, frames: seq<Frame>, stream: bytes)
    requires AllWellFormed(c, frames) && stream <= Stream(c, frames)
    ensures NeverLost(c, stream)
  {
    hide Drain, Sized, Parses, Unambiguous, Stream;
    forall n | 0 <= n <= |stream| ensures !Drain(c, stream[..n]).status.Lost? {
      DrainFrames(c, frames, stream[..n]);
    }
  }

  /**
   For every stream of well-formed frames and every way it is cut into non-empty reads, what has been
   handed on is exactly the frames complete so far, in order and once each, and the unread bytes are
   exactly those after them.
   */
  lemma {:induction false} FramesSurviveSegmentation(c: Codec, frames: seq<Frame>, pieces: seq<bytes>)
    requires AllWellFormed(c, frames)
    requires forall i | 0 <= i < |pieces| :: pieces[i] != []
    requires Flatten(pieces) <= Stream(c, frames)
    ensures
      var received := Flatten(pieces);
      var r := Feed(c, INITIAL, pieces);
      var k := Complete(c, frames, |received|);
      && r.status.Open?
      && r.handled == Events(c, frames[..k])
      && Stream(c, frames[..k]) + r.unread == received
      && r.minRead == Missing(r.unread) > 0
  {
    hide Drain, Sized, Parses, Unambiguous, Stream, Events, Complete, Feed, Flatten, Missing;
    DrainNothing(c);
    var received := Flatten(pieces);
    assert [] + received == received;
    FrameStreamNeverLost(c, frames, received);
    SafeStreamReadAtOnce(c, received, [], pieces);
    DrainFrames(c, frames, received);
    StreamPrefix(c, frames, Complete(c, frames, |received|));
  }

  // ----- Frames that do not parse -----

  /** The frames before a malformed one are handled; it closes the connection once it is complete. */
  lemma {:induction false} DrainUntilMalformed(c: Codec, frames: seq<Frame>, f: Frame, rest: bytes, s: bytes)
    requires AllWellFormed(c, frames) && Sized(f) && Unambiguous(f) && Malformed(c, f)
    requires s <= Stream(c, frames) + Wire(f) + rest
    ensures
      if |s| < |Stream(c, frames)| + |Wire(f)| then Drain(c, s).status.Open?
      else Drain(c, s) == Reader([], 0, Events(c, frames), Closed)
    decreases |frames|
  {
    hide Drain, Sized, Parses, Unambiguous, Malformed, Wire, EventOf, Stream, Events;
    if frames == [] {
      NoFrames(c);
      assert [] + Wire(f) == Wire(f);
      DrainOneMalformed(c, f, rest, s);
    } else {
      var wire, later := Wire(frames[0]), Stream(c, frames[1..]) + Wire(f) + rest;
      StreamStarts(c, frames, Wire(f), rest);
      SplitPrefix(wire, later, s);
      if |s| < |wire| {
        PartOfFrame(c, frames[0], wire, s);
      } else {
        DrainUntilMalformed(c, frames[1..], f, rest, s[|wire|..]);
        FirstFrame(c, frames[0], s[|wire|..]);
      }
    }
  }

  lemma {:induction false} StreamStarts(c: Codec, frames: seq<Frame>, a: bytes, b: bytes)
    requires AllWellFormed(c, frames) && frames != []
    ensures Stream(c, frames) + a + b == Wire(frames[0]) + (Stream(c, frames[1..]) + a + b)
    ensures |Stream(c, frames)| == |Wire(frames[0])| + |Stream(c, frames[1..])|
    ensures Events(c, frames) == [EventOf(c, frames[0])] + Events(c, frames[1..])
  {
    hide Sized, Parses, Unambiguous, Wire, EventOf;
  }

  lemma {:induction false} DrainOneMalformed(c: Codec, f: Frame, rest: bytes, s: bytes)
    requires Sized(f) && Unambiguous(f) && Malformed(c, f) && s <= Wire(f) + rest
    ensures
      if |s| < |Wire(f)| then Drain(c, s).status.Open? else Drain(c, s) == Reader([], 0, [], Closed)
  {
    hide Drain, Sized, Parses, Unambiguous, Malformed, Wire, EventOf;
    SplitPrefix(Wire(f), rest, s);
    if |s| < |Wire(f)| {
      PartOfFrame(c, f, Wire(f), s);
    } else {
      MalformedFrameCloses(c, f, s[|Wire(f)|..]);
    }
  }

  lemma {:induction false} SplitPrefix(a: bytes, b: bytes, s: bytes)
    requires s <= a + b
    ensures if |s| < |a| then s == a[..|s|] else s == a + s[|a|..] && s[|a|..] <= b
  {
    assert s == (a + b)[..|s|];
  }

  lemma {:induction false} MalformedFrameCloses(c: Codec, f: Frame, rest: bytes)
    requires Sized(f) && Unambiguous(f) && Malformed(c, f)
    ensures Drain(c, Wire(f) + rest) == Reader([], 0, [], Closed)
  {
    hide FrameBody, Drain, EventOf, Inside, U32, ReadU32, Parses, Unambiguous, Malformed;
    var s := Wire(f) + rest;
    var inside := Inside(f);
    assert s == U32(|inside|) + (inside + rest);
    IntegersRoundTrip(|inside|, 0, inside + rest);
    assert s[4..] == inside + rest;
    MalformedFrameIsRejected(c, f, rest);
    DrainStep(c, s);
  }

  /**
   Whatever follows it and however the bytes are cut into reads, a frame whose command, broker entry or
   metadata does not parse closes the connection when it has arrived, not earlier. Exactly the frames
   before it have been handed on.
   */
  lemma {:induction false} MalformedFrameClosesTheConnection(
    c: Codec, frames: seq<Frame>, f: Frame, rest: bytes, pieces: seq<bytes>)
    requires AllWellFormed(c, frames) && Sized(f) && Unambiguous(f) && Malformed(c, f)
    requires forall i | 0 <= i < |pieces| :: pieces[i] != []
    requires Flatten(pieces) <= Stream(c, frames) + Wire(f) + rest
    ensures
      var r := Feed(c, INITIAL, pieces);
      if |Flatten(pieces)| < |Stream(c, frames)| + |Wire(f)| then r.status.Open?
      else r.status.Closed? && r.handled == Events(c, frames)
  {
    hide Drain, Sized, Parses, Unambiguous, Malformed, Stream, Wire, Events;
    var received := Flatten(pieces);
    forall n | 0 <= n <= |received| ensures !Drain(c, received[..n]).status.Lost? {
      DrainUntilMalformed(c, frames, f, rest, received[..n]);
    }
    DrainNothing(c);
    assert [] + received == received;
    SafeStreamReadAtOnce(c, received, [], pieces);
    DrainUntilMalformed(c, frames, f, rest, received);
  }

  lemma {:induction false} StreamPrefix(c: Codec, frames: seq<Frame>, k: nat)
    requires AllWellFormed(c, frames)
    requires k <= |frames|
    ensures Stream(c, frames[..k]) <= Stream(c, frames)
    decreases k
  {
    hide Sized, Parses, Unambiguous, Wire;
    if k > 0 {
      StreamPrefix(c, frames[1..], k - 1);
      assert frames[..k][1..] == frames[1..][..k - 1];
    }
  }

  lemma {:induction false} DropThrice(s: bytes, a: nat, b: nat, d: nat)
    requires a + b + d <= |s|
    ensures s[a..][b..][d..] == s[a + b + d..]
  {
  }

  lemma {:induction false} CutTwice(s: bytes, n: nat, size: nat)
    requires 4 + n + size <= |s|
    ensures s[4..][..n] == s[4..4 + n]
    ensures s[4..][n..][..size] == s[4 + n..4 + n + size] && s[4..][n..][size..] == s[4 + n + size..]
  {
  }

  // ----- The connection's receiving side -----

  class FrameReader {
    const codec: Codec
    const buffer: SharedBuffer
    var minRead: nat
    var handled: seq<Event>
    var status: Status

    /** While open, the buffer always has room for what is awaited. */
    ghost predicate Valid() reads this, buffer {
      && buffer.Valid()
      && DEFAULT_BUFFER_SIZE <= buffer.data.Length
      && (status.Open? ==> 0 < minRead <= buffer.WritableBytes())
    }

    ghost function View(): Reader
      requires Valid()
      reads this, buffer, buffer.data
    {
      if status.Open? then Reader(buffer.Readable(), minRead, handled, Open)
      else Reader([], 0, handled, status)
    }

    constructor (codec: Codec)
      ensures Valid() && View() == INITIAL && fresh(buffer) && fresh(buffer.data)
    {
      this.codec := codec;
      buffer := new SharedBuffer(DEFAULT_BUFFER_SIZE);
      minRead, handled, status := 4, [], Open;
    }

    method ReadBrokerEntry(remaining: uint32) returns (r: Step<Option<bytes>>)
      requires buffer.Valid()
      modifies buffer`readIdx
      ensures buffer.Valid() && r == BrokerEntry(codec, old(buffer.Readable()), remaining)
      ensures r.Done? ==> r.used <= |old(buffer.Readable())| && buffer.Readable() == old(buffer.Readable())[r.used..]
    {
      hide ReadU32, ReadU16, Minus;
      ghost var s := buffer.Readable();
      var start := buffer.readIdx;
      if buffer.ReadableBytes() < 2 { return Undefined; }
      var magic := buffer.ReadUnsignedShort();
      assert buffer.Readable() == s[2..];
      if magic != MAGIC_BROKER_ENTRY {
        buffer.SetReaderIndex(start);
        return Done(None, 0, remaining);
      }
      if buffer.ReadableBytes() < 4 { return Undefined; }
      var n := buffer.ReadUnsignedInt();
      if n >= INT_LIMIT || buffer.ReadableBytes() < n { return Undefined; }
      var entry := buffer.Peek(n);
      assert entry == s[6..][..n] == s[6..6 + n];
      if !codec.brokerEntry(entry) { return Rejected; }
      buffer.SetReaderIndex(start + 2 + 4 + n);
      r := Done(Some(entry), 6 + n, Minus(remaining, 6 + n));
    }

    method VerifyChecksum(remaining: uint32) returns (r: Step<bool>)
      requires buffer.Valid()
      modifies buffer`readIdx
      ensures buffer.Valid() && r == StoredChecksum(codec, old(buffer.Readable()), remaining)
      ensures r.Done? ==> r.used <= |old(buffer.Readable())| && buffer.Readable() == old(buffer.Readable())[r.used..]
    {
      hide ReadU32, ReadU16, Minus, Checksum;
      ghost var s := buffer.Readable();
      var start := buffer.readIdx;
      if buffer.ReadableBytes() < 2 { return Undefined; }
      var magic := buffer.ReadUnsignedShort();
      assert buffer.Readable() == s[2..];
      if magic != MAGIC_CRC32C {
        buffer.SetReaderIndex(start);
        return Done(true, 0, remaining);
      }
      if buffer.ReadableBytes() < 4 { return Undefined; }
      var stored := buffer.ReadUnsignedInt();
      var rest := Minus(remaining, 6);
      if rest >= INT_LIMIT || buffer.ReadableBytes() < rest { return Undefined; }
      assert buffer.Readable() == s[6..];
      var computed := ComputeChecksum(codec, 0, buffer.Peek(rest));
      assert s[6..][..rest] == s[6..6 + rest];
      r := Done(stored == computed, 6, rest);
    }

    method ReadContent(remaining: uint32) returns (r: Step<(bytes, bytes)>)
      requires buffer.Valid()
      modifies buffer`readIdx
      ensures buffer.Valid() && r == Content(codec, old(buffer.Readable()), remaining)
      ensures r.Done? ==> r.used <= |old(buffer.Readable())| && buffer.Readable() == old(buffer.Readable())[r.used..]
    {
      hide ReadU32, Minus, SharedBuffer.Readable;
      ghost var s := buffer.Readable();
      if buffer.ReadableBytes() < 4 { return Undefined; }
      var n := buffer.ReadUnsignedInt();
      if n >= INT_LIMIT || buffer.ReadableBytes() < n { return Undefined; }
      var metadata := buffer.Peek(n);
      assert metadata == s[4..4 + n] by { CutTwice(s, n, 0); }
      if !codec.metadata(metadata) { return Rejected; }
      buffer.Consume(n);
      var size := Minus(remaining, 4 + n);
      if buffer.ReadableBytes() < size { return Undefined; }
      var payload := buffer.Peek(size);
      CutTwice(s, n, size);
      buffer.Consume(size);
      r := Done((metadata, payload), 4 + n + size, 0);
    }

    method ReadMessage(cmd: bytes, remaining: uint32) returns (r: Step<Event>)
      requires buffer.Valid()
      modifies buffer`readIdx
      ensures buffer.Valid() && r == MessageBody(codec, cmd, old(buffer.Readable()), remaining)
      ensures r.Done? ==> r.used <= |old(buffer.Readable())| && buffer.Readable() == old(buffer.Readable())[r.used..]
    {
      hide BrokerEntry, StoredChecksum, Content, SharedBuffer.Readable;
      ghost var s := buffer.Readable();
      var entry := ReadBrokerEntry(remaining);
      if entry.Rejected? { return Rejected; }
      if entry.Undefined? { return Undefined; }
      var valid := VerifyChecksum(entry.remaining);
      if valid.Rejected? { return Rejected; }
      if valid.Undefined? { return Undefined; }
      var content := ReadContent(valid.remaining);
      if content.Rejected? { return Rejected; }
      if content.Undefined? { return Undefined; }
      DropThrice(s, entry.used, valid.used, content.used);
      r := Done(Message(cmd, valid.value, entry.value, content.value.0, content.value.1),
                entry.used + valid.used + content.used, content.remaining);
    }

    /** A complete frame is in the buffer and its size has been read. */
    method ReadFrame(size: uint32) returns (r: Step<Event>)
      requires buffer.Valid()
      modifies buffer`readIdx
      ensures buffer.Valid() && r == FrameBody(codec, old(buffer.Readable()), size)
      ensures r.Done? ==> r.used <= |old(buffer.Readable())| && buffer.Readable() == old(buffer.Readable())[r.used..]
    {
      hide ReadU32, Minus, MessageBody, SharedBuffer.Readable;
      ghost var s := buffer.Readable();
      if buffer.ReadableBytes() < 4 { return Undefined; }
      var n := buffer.ReadUnsignedInt();
      if n >= INT_LIMIT || buffer.ReadableBytes() < n { return Undefined; }
      var cmd := buffer.Peek(n);
      CutTwice(s, n, 0);
      if !codec.command(cmd) { return Rejected; }
      buffer.Consume(n);
      if !codec.isMessage(cmd) { return Done(Command(cmd), 4 + n, 0); }
      assert s[4..][n..] == s[4 + n..];
      var m := ReadMessage(cmd, Minus(size, n + 4));
      if m.Done? { DropThrice(s, 4, n, m.used); }
      r := if m.Done? then Done(m.value, 4 + n + m.used, m.remaining) else m;
    }

    ghost predicate Ready() reads this, buffer {
      buffer.Valid() && DEFAULT_BUFFER_SIZE <= buffer.data.Length && status.Open?
    }

    /** Waits for the rest of a frame whose first bytes, size included, are in the buffer. */
    method AwaitFrame(size: uint32)
      requires Ready() && buffer.ReadableBytes() >= 4
      requires size == ReadU32(buffer.Readable()) && Missing(buffer.Readable()) > 0
      modifies this`status, this`minRead, buffer
      ensures Valid() && (buffer.data == old(buffer.data) || fresh(buffer.data))
      ensures View() == (var d := Drain(codec, old(buffer.Readable())); d.(handled := handled))
    {
      hide FrameBody, ReadU32;
      ghost var s := buffer.Readable();
      var missing := size - (buffer.ReadableBytes() - 4);
      if missing > buffer.WritableBytes() {
        if size + 4 >= 0x1_0000_0000 {
          status := Lost;
          return;
        }
        buffer.Reallocate(if DEFAULT_BUFFER_SIZE < size + 4 then size + 4 else DEFAULT_BUFFER_SIZE);
      }
      minRead := missing;
      DrainWaits(codec, s);
    }

    /** Reads a frame size, and takes that back unless the whole frame is in the buffer. */
    method ReadFrameSize() returns (size: uint32, complete: bool)
      requires buffer.Valid() && buffer.ReadableBytes() >= 4
      modifies buffer`readIdx
      ensures buffer.Valid() && size == ReadU32(old(buffer.Readable()))
      ensures complete == (Missing(old(buffer.Readable())) <= 0)
      ensures buffer.Readable() == if complete then old(buffer.Readable())[4..] else old(buffer.Readable())
    {
      hide ReadU32;
      size := buffer.ReadUnsignedInt();
      complete := size <= buffer.ReadableBytes();
      if !complete { buffer.Rollback(4); }
    }

    /** Handles every complete frame in the buffer and prepares the next read. */
    method ProcessIncomingBuffer()
      requires Ready()
      modifies this`status, this`minRead, this`handled, buffer
      ensures Valid() && (buffer.data == old(buffer.data) || fresh(buffer.data))
      ensures View() == (var d := Drain(codec, old(buffer.Readable())); d.(handled := old(handled) + d.handled))
    {
      hide FrameBody, ReadU32, Drain, SharedBuffer.Readable;
      ghost var s := buffer.Readable();
      assert handled + Drain(codec, s).handled == old(handled) + Drain(codec, s).handled;
      while buffer.ReadableBytes() >= 4
        invariant Ready() && buffer.data == old(buffer.data)
        invariant Rebased(Drain(codec, buffer.Readable()), handled) == Rebased(Drain(codec, s), old(handled))
        decreases buffer.ReadableBytes()
      {
        ghost var t := buffer.Readable();
        var size, complete := ReadFrameSize();
        if !complete {
          AwaitFrame(size);
          DrainWaitsOrLost(codec, t);
          return;
        }
        DrainStep(codec, t);
        var frame := ReadFrame(size);
        if frame.Rejected? {
          status := Closed;
          return;
        }
        if frame.Undefined? {
          status := Lost;
          return;
        }
        RebasedNext(Drain(codec, buffer.Readable()), handled, frame.value);
        handled := handled + [frame.value];
      }
      ghost var t := buffer.Readable();
      DrainFew(codec, t);
      if buffer.ReadableBytes() > 0 {
        buffer.Reallocate(DEFAULT_BUFFER_SIZE);
        minRead := 4 - buffer.ReadableBytes();
      } else {
        buffer.Reset();
        minRead := 4;
      }
    }

    /** One completed read of the socket, which never stores more than the free space it was given. */
    method HandleRead(err: bool, piece: bytes)
      requires Valid() && (status.Open? ==> |piece| <= buffer.WritableBytes())
      modifies this`status, this`minRead, this`handled, buffer, buffer.data
      ensures Valid() && (buffer.data == old(buffer.data) || fresh(buffer.data))
      ensures View() == Receive(codec, old(View()), if err then [] else piece)
    {
      if !status.Open? { return; }
      buffer.Write(piece);
      if err || |piece| == 0 {
        status := Closed;
      } else if |piece| < minRead {
        minRead := minRead - |piece|;
      } else {
        ProcessIncomingBuffer();
      }
    }

    /**
     Reads a prefix of a stream of frames from a socket that returns any non-empty amount that fits
     the free space, which is never empty.
     */
    method ReadStream(ghost frames: seq<Frame>, s: bytes)
      requires Valid() && View() == INITIAL
      requires AllWellFormed(codec, frames) && s <= Stream(codec, frames)
      modifies this`status, this`minRead, this`handled, buffer, buffer.data
      ensures Valid() && status.Open?
      ensures handled == Events(codec, frames[..Complete(codec, frames, |s|)])
      ensures Stream(codec, frames[..Complete(codec, frames, |s|)]) + buffer.Readable() == s
    {
      hide Drain, AllWellFormed, Stream, Events, Complete, Receive, Missing;
      var i := 0;
      DrainNothing(codec);
      assert s[..0] == [];
      while i < |s|
        invariant i <= |s| && Valid() && (buffer.data == old(buffer.data) || fresh(buffer.data))
        invariant View() == Drain(codec, s[..i]) && status.Open?
      {
        var n :| 0 < n <= |s| - i && n <= buffer.WritableBytes();
        assert s[..i] + s[i..i + n] == s[..i + n];
        DrainFrames(codec, frames, s[..i]);
        DrainFrames(codec, frames, s[..i + n]);
        ReceivedFrames(codec, s[..i], s[i..i + n]);
        HandleRead(false, s[i..i + n]);
        i := i + n;
      }
      assert s[..i] == s;
      DrainFrames(codec, frames, s);
      StreamPrefix(codec, frames, Complete(codec, frames, |s|));
    }
  }

  /** The same outcome, with more handed on before. */
  ghost function Rebased(r: Reader, before: seq<Event>): Reader {
    r.(handled := before + r.handled)
  }

  lemma {:induction false} RebasedNext(r: Reader, before: seq<Event>, e: Event)
    ensures Rebased(r, before + [e]) == Rebased(r.(handled := [e] + r.handled), before)
  {
    assert before + [e] + r.handled == before + ([e] + r.handled);
  }

  lemma {:induction false} DrainFew(c: Codec, s: bytes)
    requires |s| < 4
    ensures Drain(c, s) == Reader(s, 4 - |s|, [], Open)
  {
  }

  lemma {:induction false} DrainWaitsOrLost(c: Codec, s: bytes)
    requires Missing(s) > 0
    ensures Drain(c, s).handled == []
  {
    hide FrameBody;
  }
}
