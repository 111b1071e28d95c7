/**
 The connection's sending side: one write in flight, later ones queued, and one header buffer that is
 reused from message to message while the socket reads it.
 */
module WriteQueue {
  import opened Options
  import opened SharedBuffers
  import opened Framing
  import opened Commands

  /** What callers ask to send: a ready frame, or a message whose frame is built when its turn comes. */
  datatype Item = Framed(frame: bytes) | Send(cmd: bytes, metadata: bytes, payload: bytes)

  predicate SizedItem(c: Codec, crc32c: bool, item: Item) {
    item.Send? ==>
      |item.metadata| < INT_LIMIT && Sized(SendFrame(c, item.cmd, item.metadata, item.payload, crc32c))
  }

  /** The bytes that belong on the wire for one item. */
  ghost function FrameOf(c: Codec, crc32c: bool, item: Item): bytes
    requires SizedItem(c, crc32c, item)
  {
    match item
    case Framed(frame) => frame
    case Send(cmd, metadata, payload) => Wire(SendFrame(c, cmd, metadata, payload, crc32c))
  }

  ghost predicate AllSized(c: Codec, crc32c: bool, items: seq<Item>) {
    forall i | 0 <= i < |items| :: SizedItem(c, crc32c, items[i])
  }

  ghost function FramesOf(c: Codec, crc32c: bool, items: seq<Item>): bytes
    requires AllSized(c, crc32c, items)
    decreases |items|
  {
    if items == [] then []
    else FramesOf(c, crc32c, items[..|items| - 1]) + FrameOf(c, crc32c, items[|items| - 1])
  }

  lemma {:induction false} AllSizedNext(c: Codec, crc32c: bool, items: seq<Item>, item: Item)
    requires AllSized(c, crc32c, items) && SizedItem(c, crc32c, item)
    ensures AllSized(c, crc32c, items + [item])
  {
    hide SizedItem;
  }

  lemma {:induction false} NothingSent(wire: bytes, frame: bytes)
    ensures wire + frame[..0] == wire
  {
  }

  lemma {:induction false} FramesOfNext(c: Codec, crc32c: bool, items: seq<Item>, item: Item)
    requires AllSized(c, crc32c, items) && SizedItem(c, crc32c, item)
    ensures AllSized(c, crc32c, items + [item])
    ensures FramesOf(c, crc32c, items + [item]) == FramesOf(c, crc32c, items) + FrameOf(c, crc32c, item)
  {
    hide FrameOf;
    assert (items + [item])[..|items|] == items;
  }

  lemma {:induction false} FramesOfPrefix(c: Codec, crc32c: bool, a: seq<Item>, b: seq<Item>)
    requires AllSized(c, crc32c, a + b)
    ensures AllSized(c, crc32c, a) && FramesOf(c, crc32c, a) <= FramesOf(c, crc32c, a + b)
    decreases |b|
  {
    hide FrameOf, SizedItem;
    assert forall i | 0 <= i < |a| :: (a + b)[i] == a[i];
    if b == [] {
      assert a + b == a;
    } else {
      var front := b[..|b| - 1];
      assert (a + b)[..|a + b| - 1] == a + front;
      FramesOfPrefix(c, crc32c, a, front);
    }
  }

  /** A write handed to the socket, which reads its memory while it is under way. */
  datatype Write = CommandWrite(frame: bytes) | PairWrite(headers: SharedBuffer, payload: bytes)

  datatype Action = Call(item: Item) | RunPosted | Transmit(n: nat) | Finish(err: bool)

  class ConnectionWriter {
    const codec: Codec
    const crc32c: bool
    const tls: bool
    const outgoingBuffer: SharedBuffer
    var pendingWriteOperations: int
    var pendingWriteBuffers: seq<Item>
    /** A first write that waits for the strand, on a TLS connection. */
    var posted: Option<Item>
    var inFlight: Option<Write>
    var sent: nat
    var closed: bool
    var wire: bytes
    ghost var calls: seq<Item>
    ghost var finished: seq<Item>
    ghost var current: Item

    /** The memory of the connection and of the write in flight. */
    ghost function Footprint(): set<object>
      reads this, outgoingBuffer, if inFlight.Some? && inFlight.value.PairWrite? then {inFlight.value.headers} else {}
    {
      {this, outgoingBuffer, outgoingBuffer.data} +
      if inFlight.Some? && inFlight.value.PairWrite? then {inFlight.value.headers, inFlight.value.headers.data} else {}
    }

    ghost predicate Busy() reads `posted, `inFlight {
      posted.Some? || inFlight.Some?
    }

    /** One write at a time; the counter is the queued writes plus that one. */
    ghost predicate Counted() reads `posted, `inFlight, `pendingWriteOperations, `pendingWriteBuffers {
      && !(posted.Some? && inFlight.Some?)
      && pendingWriteOperations == |pendingWriteBuffers| + (if Busy() then 1 else 0)
      && (pendingWriteBuffers != [] ==> Busy())
    }

    /** Finished, current and queued items together are the calls, in call order. */
    ghost predicate InOrder()
      reads `posted, `inFlight, `pendingWriteBuffers, `calls, `finished, `current
    {
      && AllSized(codec, crc32c, calls)
      && calls == finished + (if Busy() then [current] else []) + pendingWriteBuffers
      && (posted.Some? ==> posted.value == current)
    }

    /** The memory the socket reads holds the current item's frame. */
    ghost predicate Intact()
      reads this, outgoingBuffer, Footprint()
    {
      inFlight.Some? ==>
        && SizedItem(codec, crc32c, current)
        && match inFlight.value
           case CommandWrite(frame) => frame == FrameOf(codec, crc32c, current)
           case PairWrite(headers, payload) =>
             && headers != outgoingBuffer && headers.Valid()
             && headers.Readable() + payload == FrameOf(codec, crc32c, current)
    }

    /** The wire carries the finished frames and the part of the current one sent so far. */
    ghost predicate OnWire() reads this {
      && AllSized(codec, crc32c, finished)
      && (inFlight.None? ==> wire == FramesOf(codec, crc32c, finished))
      && (inFlight.Some? ==>
            && SizedItem(codec, crc32c, current)
            && sent <= |FrameOf(codec, crc32c, current)|
            && wire == FramesOf(codec, crc32c, finished) + FrameOf(codec, crc32c, current)[..sent])
    }

    /** Nothing is claimed of a closed connection but that its buffer is one. */
    ghost predicate Valid()
      reads this, outgoingBuffer, Footprint()
    {
      && outgoingBuffer.Valid()
      && (!closed ==> Counted() && InOrder() && Intact() && OnWire())
    }

    constructor (codec: Codec, crc32c: bool, tls: bool)
      ensures Valid() && !closed && calls == [] && wire == [] && fresh(Footprint())
    {
      this.codec, this.crc32c, this.tls := codec, crc32c, tls;
      outgoingBuffer := new SharedBuffer(DEFAULT_BUFFER_SIZE);
      pendingWriteOperations, pendingWriteBuffers := 0, [];
      posted, inFlight, sent := None, None, 0;
      closed, wire, calls, finished := false, [], [], [];
      current := Framed([]);
    }

    /** Starts writing; no earlier write may be reading the header buffer. */
    method StartWrite(item: Item)
      requires outgoingBuffer.Valid() && SizedItem(codec, crc32c, item) && (closed || inFlight.None?)
      modifies this`inFlight, this`sent, this`current, outgoingBuffer, outgoingBuffer.data
      ensures outgoingBuffer.Valid() && outgoingBuffer.data == old(outgoingBuffer.data)
      ensures fresh(Footprint() - old(Footprint()))
      ensures closed ==> inFlight == old(inFlight)
      ensures !closed ==> current == item && sent == 0 && inFlight.Some? && Intact()
    {
      hide Sized, SendFrame, Wire, SharedBuffer.Readable;
      current, sent := item, 0;
      match item
      case Framed(frame) =>
        if !closed { inFlight := Some(CommandWrite(frame)); }
      case Send(cmd, metadata, payload) =>
        var headers := NewSend(codec, outgoingBuffer, cmd, metadata, payload, crc32c);
        if !closed { inFlight := Some(PairWrite(headers, payload)); }
    }

    method SendCommand(frame: bytes)
      requires Valid()
      modifies Footprint()
      ensures Valid() && closed == old(closed) && wire == old(wire)
      ensures fresh(Footprint() - old(Footprint()))
      ensures calls == old(calls) + [Framed(frame)]
    {
      Submit(Framed(frame));
    }

    method SendMessage(cmd: bytes, metadata: bytes, payload: bytes)
      requires Valid() && SizedItem(codec, crc32c, Send(cmd, metadata, payload))
      modifies Footprint()
      ensures Valid() && closed == old(closed) && wire == old(wire)
      ensures fresh(Footprint() - old(Footprint()))
      ensures calls == old(calls) + [Send(cmd, metadata, payload)]
    {
      Submit(Send(cmd, metadata, payload));
    }

    /** What both do under the lock: write at once if nothing is pending, else queue. */
    method Submit(item: Item)
      requires Valid() && SizedItem(codec, crc32c, item)
      modifies Footprint()
      ensures Valid() && closed == old(closed) && wire == old(wire)
      ensures fresh(Footprint() - old(Footprint()))
      ensures calls == old(calls) + [item] && finished == old(finished)
      ensures !closed && old(Busy()) ==>
                && pendingWriteBuffers == old(pendingWriteBuffers) + [item]
                && posted == old(posted) && inFlight == old(inFlight) && sent == old(sent) && current == old(current)
      ensures !closed && !old(Busy()) ==>
                && pendingWriteBuffers == [] && current == item
                && if tls then posted == Some(item) else inFlight.Some? && sent == 0
    {
      hide SizedItem, FrameOf, FramesOf, AllSized, SharedBuffer.Readable;
      if !closed { AllSizedNext(codec, crc32c, calls, item); }
      calls := calls + [item];
      pendingWriteOperations := pendingWriteOperations + 1;
      if pendingWriteOperations == 1 {
        if tls {
          posted, current := Some(item), item;
        } else {
          StartWrite(item);
          NothingSent(wire, FrameOf(codec, crc32c, item));
        }
      } else {
        pendingWriteBuffers := pendingWriteBuffers + [item];
      }
    }

    /** The strand runs a posted first write. */
    method RunPosted()
      requires Valid() && posted.Some?
      modifies Footprint()
      ensures Valid() && closed == old(closed) && wire == old(wire) && calls == old(calls)
      ensures fresh(Footprint() - old(Footprint()))
      ensures finished == old(finished) && pendingWriteBuffers == old(pendingWriteBuffers)
      ensures !closed ==> inFlight.Some? && sent == 0 && current == old(posted).value
    {
      hide SizedItem, FramesOf;
      var item := posted.value;
      if !closed { assert item == calls[|finished|]; }
      posted := None;
      if !closed {
        StartWrite(item);
        assert FrameOf(codec, crc32c, current)[..0] == [];
        assert wire == FramesOf(codec, crc32c, finished) + [];
      }
    }

    /** The bytes of the write in flight, as its memory holds them now. */
    function Content(): (s: bytes)
      requires Valid() && !closed && inFlight.Some?
      reads this, outgoingBuffer, Footprint()
      ensures s == FrameOf(codec, crc32c, current)
    {
      match inFlight.value
      case CommandWrite(frame) => frame
      case PairWrite(headers, payload) => headers.Peek(headers.ReadableBytes()) + payload
    }

    /** The socket takes some more bytes from that memory. */
    method Transmit(n: nat)
      requires Valid() && !closed && inFlight.Some? && sent + n <= |Content()|
      modifies this`wire, this`sent
      ensures Valid() && !closed && calls == old(calls)
      ensures sent == old(sent) + n && wire == old(wire + Content()[sent..sent + n])
    {
      hide FrameOf, FramesOf, SizedItem, AllSized, SharedBuffer.Readable, Counted, InOrder;
      var content := Content();
      wire := wire + content[sent..sent + n];
      assert content[..sent + n] == content[..sent] + content[sent..sent + n];
      sent := sent + n;
    }

    /** The first of the items that were queued is being written, or there was none. */
    ghost predicate GoesOn(queued: seq<Item>)
      reads `posted, `inFlight, `sent, `current, `pendingWriteBuffers
    {
      if queued == [] then !Busy() && pendingWriteBuffers == []
      else inFlight.Some? && sent == 0 && current == queued[0] && pendingWriteBuffers == queued[1..]
    }

    /** A write has completed, having sent everything, or failed. */
    method HandleSend(err: bool)
      requires Valid() && inFlight.Some?
      requires !closed && !err ==> sent == |Content()|
      modifies Footprint()
      ensures Valid() && wire == old(wire) && calls == old(calls)
      ensures closed == (old(closed) || err)
      ensures fresh(Footprint() - old(Footprint()))
      ensures !closed ==> finished == old(finished) + [old(current)] && GoesOn(old(pendingWriteBuffers))
    {
      hide FrameOf, FramesOf, SizedItem;
      if closed { return; }
      if err {
        closed := true;
        return;
      }
      FramesOfNext(codec, crc32c, finished, current);
      assert Content()[..sent] == Content();
      finished := finished + [current];
      inFlight := None;
      SendPendingCommands();
    }

    method SendPendingCommands()
      requires outgoingBuffer.Valid() && !closed && posted.None? && inFlight.None?
      requires pendingWriteOperations == |pendingWriteBuffers| + 1
      requires AllSized(codec, crc32c, calls) && calls == finished + pendingWriteBuffers && OnWire()
      modifies this`pendingWriteOperations, this`pendingWriteBuffers, this`inFlight, this`sent, this`current
      modifies outgoingBuffer, outgoingBuffer.data
      ensures Valid() && GoesOn(old(pendingWriteBuffers))
      ensures fresh(Footprint() - old(Footprint()))
    {
      hide FrameOf, FramesOf, SizedItem;
      pendingWriteOperations := pendingWriteOperations - 1;
      if pendingWriteOperations > 0 {
        assert pendingWriteBuffers != [];
        var item := pendingWriteBuffers[0];
        assert item == calls[|finished|];
        pendingWriteBuffers := pendingWriteBuffers[1..];
        StartWrite(item);
        assert FrameOf(codec, crc32c, current)[..0] == [];
        assert wire == FramesOf(codec, crc32c, finished) + [];
      } else {
        outgoingBuffer.Reset();
      }
    }

    /** Any run of calls, posted work, socket progress and completions; what cannot happen is skipped. */
    method Run(script: seq<Action>)
      requires Valid()
      requires forall i | 0 <= i < |script| && script[i].Call? :: SizedItem(codec, crc32c, script[i].item)
      modifies Footprint()
      ensures Valid() && fresh(Footprint() - old(Footprint()))
      ensures calls == old(calls) + Calls(script)
      ensures !closed ==> AllSized(codec, crc32c, calls) && wire <= FramesOf(codec, crc32c, calls)
    {
      hide SizedItem, FramesOf, FrameOf, Counted, Intact;
      for i := 0 to |script|
        invariant Valid() && fresh(Footprint() - old(Footprint()))
        invariant calls == old(calls) + Calls(script[..i])
      {
        CallsNext(script, i);
        Act(script[i]);
      }
      assert script[..|script|] == script;
      if !closed { WireIsPrefix(); }
    }

    method Act(a: Action)
      requires Valid() && (a.Call? ==> SizedItem(codec, crc32c, a.item))
      modifies Footprint()
      ensures Valid() && fresh(Footprint() - old(Footprint()))
      ensures calls == old(calls) + if a.Call? then [a.item] else []
    {
      hide SizedItem, FramesOf, FrameOf;
      match a
      case Call(Framed(frame)) => SendCommand(frame);
      case Call(Send(cmd, metadata, payload)) => SendMessage(cmd, metadata, payload);
      case RunPosted =>
        if posted.Some? { RunPosted(); }
      case Transmit(n) =>
        if !closed && inFlight.Some? && sent + n <= |Content()| { Transmit(n); }
      case Finish(err) =>
        if !closed && inFlight.Some? && (err || sent == |Content()|) { HandleSend(err); }
    }

    /** A socket takes all of the write in flight, or of the posted one. */
    method WriteOne()
      requires Valid() && !closed && pendingWriteOperations > 0
      modifies Footprint()
      ensures Valid() && !closed && fresh(Footprint() - old(Footprint()))
      ensures calls == old(calls) && 0 <= pendingWriteOperations < old(pendingWriteOperations)
    {
      hide SizedItem, FramesOf, FrameOf, AllSized, Intact, SharedBuffer.Readable;
      if posted.Some? { RunPosted(); }
      Transmit(|Content()| - sent);
      HandleSend(false);
    }

    /** A socket that takes everything, and never fails, gets every frame called for onto the wire. */
    method RunToIdle()
      requires Valid() && !closed
      modifies Footprint()
      ensures Valid() && !closed && fresh(Footprint() - old(Footprint()))
      ensures calls == old(calls) && pendingWriteOperations == 0
      ensures AllSized(codec, crc32c, calls) && wire == FramesOf(codec, crc32c, calls)
    {
      hide SizedItem, FramesOf, FrameOf, AllSized, Intact, OnWire, InOrder;
      while pendingWriteOperations > 0
        invariant Valid() && !closed && fresh(Footprint() - old(Footprint())) && calls == old(calls)
        invariant pendingWriteOperations >= 0
        decreases pendingWriteOperations
      {
        WriteOne();
      }
      IdleMeansSent();
    }

    /** While open, the wire always carries a prefix of the frames called for, in call order. */
    lemma {:induction false} WireIsPrefix()
      requires Valid() && !closed
      ensures AllSized(codec, crc32c, calls) && wire <= FramesOf(codec, crc32c, calls)
    {
      hide FrameOf, FramesOf, SizedItem;
      if inFlight.Some? {
        FramesOfNext(codec, crc32c, finished, current);
        FramesOfPrefix(codec, crc32c, finished + [current], pendingWriteBuffers);
      } else {
        var rest := (if Busy() then [current] else []) + pendingWriteBuffers;
        assert calls == finished + rest;
        FramesOfPrefix(codec, crc32c, finished, rest);
      }
    }

    /** When nothing is pending, everything called for is on the wire. */
    lemma {:induction false} IdleMeansSent()
      requires Valid() && !closed && pendingWriteOperations == 0
      ensures AllSized(codec, crc32c, calls) && wire == FramesOf(codec, crc32c, calls)
    {
      hide FrameOf, FramesOf, SizedItem;
      assert calls == finished;
    }
  }

  ghost function Calls(script: seq<Action>): seq<Item>
    decreases |script|
  {
    if script == [] then []
    else
      var a := script[|script| - 1];
      Calls(script[..|script| - 1]) + if a.Call? then [a.item] else []
  }

  lemma {:induction false} CallsNext(script: seq<Action>, i: nat)
    requires i < |script|
    ensures Calls(script[..i + 1]) == Calls(script[..i]) + if script[i].Call? then [script[i].item] else []
  {
    assert script[..i + 1][..i] == script[..i];
  }
}
