/**
 Reassembly of chunked messages: ConsumerImpl::processMessageChunk and its expiry task
 (lib/ConsumerImpl.cc) with ChunkedMessageCtx (lib/ConsumerImpl.h) over the MapCache. The
 functions define what one event does to the cache; the lemmas are about every run of arrivals
 and timer events; the class performs the same steps on the cache object.
 */
module ChunkReassembly {
  import opened MapCaches
  import opened MessageIds
  import opened SharedBuffers

  type Uuid = string

  /** One chunk as it arrives: metadata fields, payload and the id of its entry. */
  datatype Chunk = Chunk(uuid: Uuid, chunkId: int, numChunks: int, totalSize: nat, payload: bytes, id: MessageId)

  /** ChunkedMessageCtx: `capacity` is the size of the buffer allocated for the whole message. */
  datatype Ctx = Ctx(totalChunks: int, capacity: nat, buffer: bytes, ids: seq<MessageId>, receivedTimeMs: int)

  datatype Config = Config(maxPending: nat, expireMs: int)

  type Cache = View<Uuid, Ctx>

  /** Overflow: a chunk does not fit in the buffer, which the source only asserts against. */
  datatype Result =
    | Incomplete
    | Rejected
    | Overflow
    | Delivered(payload: bytes, ids: seq<MessageId>)

  datatype Event = Arrive(chunk: Chunk, now: int) | Expire(now: int)

  /** Evicts the oldest contexts so that one more fits under a positive limit. */
  ghost function MakeRoom(cfg: Config, v: Cache): Cache
  {
    if cfg.maxPending > 0 && |v.keys| >= cfg.maxPending then DropOldest(v, |v.keys| - cfg.maxPending + 1) else v
  }

  ghost function Admit(cfg: Config, v: Cache, c: Chunk): Cache {
    if c.chunkId == 0 && c.uuid !in v.entries
    then Put(MakeRoom(cfg, v), c.uuid, Ctx(c.numChunks, c.totalSize, [], [], 0))
    else v
  }

  function Append(ctx: Ctx, c: Chunk, now: int): Ctx {
    ctx.(buffer := ctx.buffer + c.payload, ids := ctx.ids + [c.id], receivedTimeMs := now)
  }

  /** What the chunk does once its context has been looked up or created. */
  function Accept(ctx: Ctx, c: Chunk, now: int): Result {
    if c.chunkId != |ctx.ids| then Rejected
    else if |ctx.buffer| + |c.payload| > ctx.capacity then Overflow
    else if ctx.totalChunks == |ctx.ids| + 1 then Delivered(ctx.buffer + c.payload, ctx.ids + [c.id])
    else Incomplete
  }

  ghost function Process(cfg: Config, v: Cache, c: Chunk, now: int): (Cache, Result) {
    var v1 := Admit(cfg, v, c);
    if c.uuid !in v1.entries then (v1, Rejected)
    else
      var ctx := v1.entries[c.uuid];
      match Accept(ctx, c, now)
      case Rejected => (Without(v1, c.uuid), Rejected)
      case Overflow => (v1, Overflow)
      case Incomplete => (View(v1.keys, v1.entries[c.uuid := Append(ctx, c, now)]), Incomplete)
      case Delivered(payload, ids) => (Without(v1, c.uuid), Delivered(payload, ids))
  }

  function Expired(cfg: Config, now: int): (Uuid, Ctx) -> bool {
    (uuid: Uuid, ctx: Ctx) => now > ctx.receivedTimeMs + cfg.expireMs
  }

  ghost function Expiry(cfg: Config, v: Cache, now: int): Cache
    requires Consistent(v)
  {
    DropOldest(v, Matching(v, Expired(cfg, now)))
  }

  ghost function StepEvent(cfg: Config, v: Cache, e: Event): (Cache, Result)
    requires Consistent(v)
  {
    match e
    case Arrive(c, now) => Process(cfg, v, c, now)
    case Expire(now) => (Expiry(cfg, v, now), Incomplete)
  }

  // ----- Runs and their history -----

  datatype Outcome = Crashed | Running(cache: Cache)

  const EMPTY: Cache := View([], map[])

  /** The cache after a run from `v`; a run ends at the first overflow. */
  ghost function Exec(cfg: Config, v: Cache, events: seq<Event>): Outcome
    requires Consistent(v)
    decreases |events|
  {
    if events == [] then Running(v)
    else
      var (v', r) := StepEvent(cfg, v, events[0]);
      StepConsistent(cfg, v, events[0]);
      if r.Overflow? then Crashed else Exec(cfg, v', events[1..])
  }

  predicate Brings(e: Event, u: Uuid) {
    e.Arrive? && e.chunk.uuid == u
  }

  /** The arrivals of one uuid, in order. */
  ghost function Arrivals(u: Uuid, events: seq<Event>): seq<Chunk>
    decreases |events|
  {
    if events == [] then []
    else (if Brings(events[0], u) then [events[0].chunk] else []) + Arrivals(u, events[1..])
  }

  function Front<T>(s: seq<T>): seq<T> requires s != [] { s[..|s| - 1] }
  function Last<T>(s: seq<T>): T requires s != [] { s[|s| - 1] }

  ghost function Concat(cs: seq<Chunk>): bytes
    decreases |cs|
  {
    if cs == [] then [] else Concat(Front(cs)) + Last(cs).payload
  }

  ghost function Ids(cs: seq<Chunk>): (ids: seq<MessageId>)
    ensures |ids| == |cs| && forall i | 0 <= i < |cs| :: ids[i] == cs[i].id
  {
    seq(|cs|, i requires 0 <= i < |cs| => cs[i].id)
  }

  /** `cs` are chunks 0, 1, ... in order. */
  ghost predicate InSequence(cs: seq<Chunk>) {
    forall i | 0 <= i < |cs| :: cs[i].chunkId == i
  }

  /** A buffer and id list hold exactly the chunks `cs`. */
  ghost predicate Assembled(cs: seq<Chunk>, buffer: bytes, ids: seq<MessageId>) {
    InSequence(cs) && buffer == Concat(cs) && ids == Ids(cs)
  }

  ghost predicate CtxMatches(ctx: Ctx, arrivals: seq<Chunk>) {
    var k := |ctx.ids|;
    && 0 < k <= |arrivals|
    && var cs := arrivals[|arrivals| - k..];
       && Assembled(cs, ctx.buffer, ctx.ids) && |ctx.buffer| <= ctx.capacity
       && ctx.totalChunks == cs[0].numChunks && ctx.capacity == cs[0].totalSize
  }

  // ----- Cache invariants -----

  /** Eviction takes the oldest contexts, and no more than one new context needs. */
  lemma {:induction false} MakeRoomFits(cfg: Config, v: Cache)
    requires Consistent(v)
    ensures var r := MakeRoom(cfg, v);
            && Consistent(r) && (cfg.maxPending > 0 ==> |r.keys| < cfg.maxPending)
            && |r.keys| <= |v.keys| && r.keys == v.keys[|v.keys| - |r.keys|..]
            && (r == v || |r.keys| == cfg.maxPending - 1)
            && forall u | u in r.entries :: u in v.entries && r.entries[u] == v.entries[u]
  {
    if cfg.maxPending > 0 && |v.keys| >= cfg.maxPending {
      DropOldestKeepsTheRest(v, |v.keys| - cfg.maxPending + 1);
    }
  }

  /** Admission inserts at most the uuid of the chunk, with an empty context, and respects the limit. */
  lemma {:induction false} AdmitOne(cfg: Config, v: Cache, c: Chunk)
    requires Consistent(v)
    ensures var r := Admit(cfg, v, c);
            && Consistent(r) && (cfg.maxPending > 0 ==> |r.keys| <= |v.keys| || |r.keys| <= cfg.maxPending)
            && (forall u | u in r.entries && u != c.uuid :: u in v.entries && r.entries[u] == v.entries[u])
            && (c.uuid in v.entries ==> r == v)
            && (c.uuid !in v.entries && c.uuid in r.entries ==>
                  c.chunkId == 0 && r.entries[c.uuid] == Ctx(c.numChunks, c.totalSize, [], [], 0))
            && (c.uuid !in v.entries && c.chunkId == 0 ==> c.uuid in r.entries)
  {
    if c.chunkId == 0 && c.uuid !in v.entries {
      MakeRoomFits(cfg, v);
      PutConsistent(MakeRoom(cfg, v), c.uuid, Ctx(c.numChunks, c.totalSize, [], [], 0));
    }
  }

  lemma {:induction false} StepConsistent(cfg: Config, v: Cache, e: Event)
    requires Consistent(v)
    ensures Consistent(StepEvent(cfg, v, e).0)
    ensures cfg.maxPending > 0 && |v.keys| <= cfg.maxPending ==> |StepEvent(cfg, v, e).0.keys| <= cfg.maxPending
  {
    match e
    case Arrive(c, now) =>
      AdmitOne(cfg, v, c);
      var v1 := Admit(cfg, v, c);
      RemoveConsistent(v1, c.uuid);
      RemoveKeyKeepsOthers(v1.keys, c.uuid);
    case Expire(now) =>
      DropOldestKeepsTheRest(v, Matching(v, Expired(cfg, now)));
  }

  /** Contexts of other uuids are kept as they are, or dropped; nothing else is inserted. */
  lemma {:induction false} OthersUntouched(cfg: Config, v: Cache, e: Event, u: Uuid)
    requires Consistent(v) && (e.Arrive? ==> e.chunk.uuid != u)
    ensures var r := StepEvent(cfg, v, e).0;
            u in r.entries ==> u in v.entries && r.entries[u] == v.entries[u]
  {
    match e
    case Arrive(c, now) => AdmitOne(cfg, v, c);
    case Expire(now) => DropOldestKeepsTheRest(v, Matching(v, Expired(cfg, now)));
  }

  lemma {:induction false} AssembledNext(cs: seq<Chunk>, buffer: bytes, ids: seq<MessageId>, c: Chunk)
    requires Assembled(cs, buffer, ids) && c.chunkId == |cs|
    ensures Assembled(cs + [c], buffer + c.payload, ids + [c.id])
  {
    assert Front(cs + [c]) == cs;
  }

  /** A context after its next chunk holds one more of the latest arrivals. */
  lemma {:induction false} AppendMatches(ctx: Ctx, arrivals: seq<Chunk>, c: Chunk, now: int)
    requires
      || CtxMatches(ctx, arrivals)
      || (ctx.ids == [] && ctx.buffer == [] && ctx.totalChunks == c.numChunks && ctx.capacity == c.totalSize)
    requires c.chunkId == |ctx.ids| && |ctx.buffer| + |c.payload| <= ctx.capacity
    ensures CtxMatches(Append(ctx, c, now), arrivals + [c])
  {
    var k := |ctx.ids|;
    var all := arrivals + [c];
    var cs := if k == 0 then [] else arrivals[|arrivals| - k..];
    assert all[|all| - (k + 1)..] == cs + [c];
    AssembledNext(cs, ctx.buffer, ctx.ids, c);
  }

  /** Every cached context holds the latest arrivals of its uuid, chunk 0 upwards. */
  ghost predicate Inv(v: Cache, events: seq<Event>) {
    forall u | u in v.entries :: CtxMatches(v.entries[u], Arrivals(u, events))
  }

  /** What a delivery must be: the last n arrivals of its uuid, chunks 0 to n-1 of n, within the declared size. */
  ghost predicate WholeDelivery(payload: bytes, ids: seq<MessageId>, arrivals: seq<Chunk>) {
    && 0 < |ids| <= |arrivals|
    && var cs := arrivals[|arrivals| - |ids|..];
       cs[0].numChunks == |cs| && |payload| <= cs[0].totalSize && Assembled(cs, payload, ids)
  }

  lemma {:induction false} AcceptedDelivery(ctx: Ctx, arrivals: seq<Chunk>, c: Chunk, now: int)
    requires CtxMatches(Append(ctx, c, now), arrivals + [c]) && Accept(ctx, c, now).Delivered?
    ensures var r := Accept(ctx, c, now); WholeDelivery(r.payload, r.ids, arrivals + [c])
  {}

  lemma {:induction false} ArrivalStep(cfg: Config, v: Cache, arrivals: seq<Chunk>, c: Chunk, now: int)
    requires Consistent(v) && (c.uuid in v.entries ==> CtxMatches(v.entries[c.uuid], arrivals))
    ensures
      var (v', r) := Process(cfg, v, c, now);
      && (r.Overflow? || (c.uuid in v'.entries ==> CtxMatches(v'.entries[c.uuid], arrivals + [c])))
      && (r.Delivered? ==> WholeDelivery(r.payload, r.ids, arrivals + [c]))
  {
    hide CtxMatches, WholeDelivery, Admit, Consistent, NoDuplicates, RemoveKey;
    AdmitOne(cfg, v, c);
    var v1 := Admit(cfg, v, c);
    if c.uuid in v1.entries {
      var ctx := v1.entries[c.uuid];
      if c.chunkId == |ctx.ids| && !Accept(ctx, c, now).Overflow? {
        AppendMatches(ctx, arrivals, c, now);
        if Accept(ctx, c, now).Delivered? { AcceptedDelivery(ctx, arrivals, c, now); }
      }
    }
  }

  lemma {:induction false} ArrivalsNext(u: Uuid, events: seq<Event>, e: Event)
    ensures Arrivals(u, events + [e]) == Arrivals(u, events) + if Brings(e, u) then [e.chunk] else []
    decreases |events|
  {
    if events != [] {
      assert (events + [e])[1..] == events[1..] + [e];
      ArrivalsNext(u, events[1..], e);
    }
  }

  lemma {:induction false} StepKeepsInv(cfg: Config, v: Cache, events: seq<Event>, e: Event)
    requires Consistent(v) && Inv(v, events) && !StepEvent(cfg, v, e).1.Overflow?
    ensures Inv(StepEvent(cfg, v, e).0, events + [e])
  {
    var v' := StepEvent(cfg, v, e).0;
    forall u | u in v'.entries
      ensures CtxMatches(v'.entries[u], Arrivals(u, events + [e]))
    {
      ArrivalsNext(u, events, e);
      if Brings(e, u) {
        ArrivalStep(cfg, v, Arrivals(u, events), e.chunk, e.now);
      } else {
        OthersUntouched(cfg, v, e, u);
        assert Arrivals(u, events + [e]) == Arrivals(u, events);
      }
    }
  }

  lemma {:induction false} ExecKeepsInv(cfg: Config, v: Cache, past: seq<Event>, events: seq<Event>)
    requires Consistent(v) && Inv(v, past) && Exec(cfg, v, events).Running?
    requires cfg.maxPending > 0 ==> |v.keys| <= cfg.maxPending
    ensures var v' := Exec(cfg, v, events).cache;
            && Consistent(v') && Inv(v', past + events)
            && (cfg.maxPending > 0 ==> |v'.keys| <= cfg.maxPending)
    decreases |events|
  {
    if events == [] {
      assert past + events == past;
    } else {
      StepConsistent(cfg, v, events[0]);
      StepKeepsInv(cfg, v, past, events[0]);
      ExecKeepsInv(cfg, StepEvent(cfg, v, events[0]).0, past + [events[0]], events[1..]);
      assert past + [events[0]] + events[1..] == past + events;
    }
  }

  // ----- Main results -----

  /**
   Soundness: whenever a run delivers a payload, it is the concatenation of the last n arrivals of
   its uuid, which are chunks 0, ..., n-1 of a message declared to have n chunks, and the id list
   names their entries in the same order.
   */
  lemma {:induction false} DeliveriesAreWholeMessages(cfg: Config, events: seq<Event>, e: Event)
    requires Exec(cfg, EMPTY, events).Running?
    requires Consistent(Exec(cfg, EMPTY, events).cache)
    requires StepEvent(cfg, Exec(cfg, EMPTY, events).cache, e).1.Delivered?
    ensures
      var r := StepEvent(cfg, Exec(cfg, EMPTY, events).cache, e).1;
      e.Arrive? && WholeDelivery(r.payload, r.ids, Arrivals(e.chunk.uuid, events + [e]))
  {
    ExecKeepsInv(cfg, EMPTY, [], events);
    assert [] + events == events;
    var v := Exec(cfg, EMPTY, events).cache;
    ArrivalsNext(e.chunk.uuid, events, e);
    ArrivalStep(cfg, v, Arrivals(e.chunk.uuid, events), e.chunk, e.now);
  }

  /** In every run the cache is consistent and respects a positive limit on pending chunked messages. */
  lemma {:induction false} PendingMessagesAreBounded(cfg: Config, events: seq<Event>)
    requires Exec(cfg, EMPTY, events).Running?
    ensures Consistent(Exec(cfg, EMPTY, events).cache)
    ensures cfg.maxPending > 0 ==> |Exec(cfg, EMPTY, events).cache.keys| <= cfg.maxPending
  {
    ExecKeepsInv(cfg, EMPTY, [], events);
  }

  /** The chunks of one message: ids 0 upwards, as many as declared, within the declared size. */
  ghost predicate WholeMessage(cs: seq<Chunk>) {
    && cs != [] && InSequence(cs) && cs[0].numChunks == |cs|
    && |Concat(cs)| <= cs[0].totalSize
  }

  /** No event other than its own arrivals takes the context of `u` away. */
  ghost predicate Kept(cfg: Config, v: Cache, events: seq<Event>, u: Uuid)
    requires Consistent(v)
    decreases |events|
  {
    events == [] ||
    (var v' := StepEvent(cfg, v, events[0]).0;
     StepConsistent(cfg, v, events[0]);
     (u in v.entries && !Brings(events[0], u) ==> u in v'.entries) && Kept(cfg, v', events[1..], u))
  }

  ghost predicate Progress(v: Cache, u: Uuid, whole: seq<Chunk>, k: nat)
    requires 0 <= k <= |whole| && whole != []
  {
    if k == 0 then u !in v.entries
    else && u in v.entries
         && var ctx := v.entries[u];
            && ctx.totalChunks == whole[0].numChunks && ctx.capacity == whole[0].totalSize
            && ctx.buffer == Concat(whole[..k]) && ctx.ids == Ids(whole[..k])
  }

  lemma {:induction false} ConcatMonotone(cs: seq<Chunk>, k: nat)
    requires k <= |cs|
    ensures |Concat(cs[..k])| <= |Concat(cs)|
    decreases |cs|
  {
    if k < |cs| {
      ConcatMonotone(Front(cs), k);
      assert Front(cs)[..k] == cs[..k];
    } else {
      assert cs[..k] == cs;
    }
  }

  lemma {:induction false} OneMore(cs: seq<Chunk>, k: nat)
    requires k < |cs|
    ensures Concat(cs[..k + 1]) == Concat(cs[..k]) + cs[k].payload
    ensures Ids(cs[..k + 1]) == Ids(cs[..k]) + [cs[k].id]
  {
    assert Front(cs[..k + 1]) == cs[..k];
  }

  /** The next chunk of a whole message is accepted, and delivers the message if it is the last. */
  lemma {:induction false} NextChunk(cfg: Config, v: Cache, u: Uuid, whole: seq<Chunk>, k: nat, now: int)
    requires Consistent(v) && WholeMessage(whole) && k < |whole| && whole[k].uuid == u && Progress(v, u, whole, k)
    ensures var (v', r) := Process(cfg, v, whole[k], now);
            if k + 1 == |whole| then r.Delivered? && r.payload == Concat(whole) && r.ids == Ids(whole)
            else r == Incomplete && Progress(v', u, whole, k + 1)
  {
    AdmitOne(cfg, v, whole[k]);
    OneMore(whole, k);
    ConcatMonotone(whole, k + 1);
    if k + 1 == |whole| { assert whole[..k + 1] == whole; }
  }

  lemma {:induction false} ProgressStep(cfg: Config, v: Cache, u: Uuid, whole: seq<Chunk>, k: nat, e: Event)
    requires Consistent(v) && WholeMessage(whole) && k < |whole| && Progress(v, u, whole, k)
    ensures
      var v' := StepEvent(cfg, v, e).0;
      if Brings(e, u) then k + 1 < |whole| && e.chunk == whole[k] ==> Progress(v', u, whole, k + 1)
      else k == 0 || u in v'.entries ==> Progress(v', u, whole, k)
  {
    if Brings(e, u) {
      if k + 1 < |whole| && e.chunk == whole[k] { NextChunk(cfg, v, u, whole, k, e.now); }
    } else {
      OthersUntouched(cfg, v, e, u);
    }
  }

  /** Through a run that brings all but the last of the remaining chunks, the context keeps up. */
  lemma {:induction false} ExecProgress(cfg: Config, v: Cache, events: seq<Event>, u: Uuid, whole: seq<Chunk>, k: nat)
    requires Consistent(v) && WholeMessage(whole) && k < |whole| && Progress(v, u, whole, k)
    requires Arrivals(u, events) == whole[k..|whole| - 1]
    requires Exec(cfg, v, events).Running? && Kept(cfg, v, events, u)
    ensures var v' := Exec(cfg, v, events).cache; Consistent(v') && Progress(v', u, whole, |whole| - 1)
    decreases |events|
  {
    if events != [] {
      var e, rest := events[0], events[1..];
      var v' := StepEvent(cfg, v, e).0;
      StepConsistent(cfg, v, e);
      ProgressStep(cfg, v, u, whole, k, e);
      if Brings(e, u) {
        assert whole[k] == Arrivals(u, events)[0];
        assert Arrivals(u, rest) == Arrivals(u, events)[1..];
        ExecProgress(cfg, v', rest, u, whole, k + 1);
      } else {
        assert Arrivals(u, rest) == Arrivals(u, events);
        ExecProgress(cfg, v', rest, u, whole, k);
      }
    }
  }

  /**
   Completeness: a uuid that is not cached, whose n chunks arrive in order and fit the declared
   size, mixed with any other events that do not evict or expire it, is delivered at the n-th.
   */
  lemma {:induction false} WholeMessagesAreDelivered(
    cfg: Config, v: Cache, events: seq<Event>, last: Chunk, now: int, whole: seq<Chunk>)
    requires Consistent(v) && last.uuid !in v.entries
    requires WholeMessage(whole) && Arrivals(last.uuid, events) + [last] == whole
    requires Exec(cfg, v, events).Running? && Kept(cfg, v, events, last.uuid)
    ensures Consistent(Exec(cfg, v, events).cache)
    ensures var r := StepEvent(cfg, Exec(cfg, v, events).cache, Arrive(last, now)).1;
            r.Delivered? && r.payload == Concat(whole) && r.ids == Ids(whole)
  {
    var u := last.uuid;
    assert Arrivals(u, events) == whole[0..|whole| - 1];
    ExecProgress(cfg, v, events, u, whole, 0);
    NextChunk(cfg, Exec(cfg, v, events).cache, u, whole, |whole| - 1, now);
  }

  // ----- The consumer's cache object -----

  class ChunkAssembler {
    const cfg: Config
    const cache: MapCache<Uuid, Ctx>

    constructor (cfg: Config)
      ensures this.cfg == cfg && fresh(cache) && cache.Valid() && cache.Value() == View([], map[])
    {
      this.cfg := cfg;
      this.cache := new MapCache();
    }

    method ProcessMessageChunk(c: Chunk, now: int) returns (r: Result)
      requires cache.Valid()
      modifies cache
      ensures cache.Valid()
      ensures (cache.Value(), r) == Process(cfg, old(cache.Value()), c, now)
    {
      hide Admit, Accept, Append, Without, Consistent;
      AdmitChunk(c);
      if c.uuid !in cache.map_ {
        return Rejected;
      }
      var ctx := cache.map_[c.uuid];
      r := Accept(ctx, c, now);
      match r
      case Rejected => cache.Remove(c.uuid);
      case Overflow =>
      case Incomplete => cache.Assign(c.uuid, Append(ctx, c, now));
      case Delivered(_, _) => cache.Remove(c.uuid);
    }

    /** A first chunk gets a context; the oldest contexts make room for it. */
    method AdmitChunk(c: Chunk)
      requires cache.Valid()
      modifies cache
      ensures cache.Valid() && cache.Value() == Admit(cfg, old(cache.Value()), c)
    {
      hide DropOldest, Consistent;
      if c.chunkId == 0 && c.uuid !in cache.map_ {
        SizeIsKeys(cache.Value());
        if cfg.maxPending > 0 && |cache.map_| >= cfg.maxPending {
          var _ := cache.RemoveOldestValues(|cache.map_| - cfg.maxPending + 1);
        }
        var _ := cache.PutIfAbsent(c.uuid, Ctx(c.numChunks, c.totalSize, [], [], 0));
      }
    }

    method CheckExpired(now: int)
      requires cache.Valid()
      modifies cache
      ensures cache.Valid()
      ensures cache.Value() == Expiry(cfg, old(cache.Value()), now)
    {
      var expired := cache.RemoveOldestValuesIf(Expired(cfg, now));
    }
  }

  lemma {:induction false} SizeIsKeys(v: Cache)
    requires Consistent(v)
    ensures |v.entries| == |v.keys|
  {
    assert v.entries.Keys == set k | k in v.keys;
    DistinctCount(v.keys);
  }

  lemma {:induction false} DistinctCount(keys: seq<Uuid>)
    requires NoDuplicates(keys)
    ensures |set k | k in keys| == |keys|
  {
    if keys != [] {
      DistinctCount(keys[1..]);
      assert (set k | k in keys) == (set k | k in keys[1..]) + {keys[0]};
    }
  }
}
