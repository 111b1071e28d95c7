/**
 How long the context of a chunked message stays in the cache, told by the events of a run alone: when it
 expires, which one is evicted for a new message, and how a producer and a timer keep it alive.
 */
module ChunkLifetimes {
  import opened ChunkReassembly
  import opened MapCaches
  import opened Options

  /** When a chunk of this message last arrived. */
  ghost function LastArrival(u: Uuid, events: seq<Event>): Option<int>
    decreases |events|
  {
    if events == [] then None
    else if Brings(Last(events), u) then Some(Last(events).now)
    else LastArrival(u, Front(events))
  }

  /** Where in the run its first chunk last arrived, or -1. */
  ghost function Began(u: Uuid, events: seq<Event>): int
    decreases |events|
  {
    if events == [] then -1
    else if Brings(Last(events), u) && Last(events).chunk.chunkId == 0 then |events| - 1
    else Began(u, Front(events))
  }

  lemma {:induction false} OneMoreEvent(u: Uuid, events: seq<Event>, e: Event)
    ensures LastArrival(u, events + [e]) == if Brings(e, u) then Some(e.now) else LastArrival(u, events)
    ensures Began(u, events + [e]) == if Brings(e, u) && e.chunk.chunkId == 0 then |events| else Began(u, events)
  {
    assert Front(events + [e]) == events;
  }

  lemma {:induction false} BeganBefore(u: Uuid, events: seq<Event>)
    ensures -1 <= Began(u, events) < |events|
    decreases |events|
  {
    if events != [] { BeganBefore(u, Front(events)); }
  }

  // ----- What the cache knows about the past -----

  /** A context remembers when its latest chunk came, and chunk 0 came first. */
  ghost predicate Timed(ctx: Ctx, u: Uuid, events: seq<Event>) {
    LastArrival(u, events) == Some(ctx.receivedTimeMs) && 0 <= Began(u, events) && ctx.ids != []
  }

  ghost predicate AllTimed(v: Cache, events: seq<Event>) {
    forall u <- v.entries :: Timed(v.entries[u], u, events)
  }

  /** The keys are in the order in which the messages began. */
  ghost predicate InOrder(keys: seq<Uuid>, events: seq<Event>) {
    forall i, j | 0 <= i < j < |keys| :: Began(keys[i], events) < Began(keys[j], events)
  }

  ghost predicate History(cfg: Config, v: Cache, events: seq<Event>) {
    && Consistent(v) && AllTimed(v, events) && InOrder(v.keys, events)
    && (cfg.maxPending > 0 ==> |v.keys| <= cfg.maxPending)
  }

  lemma {:induction false} StepKeepsTimed(cfg: Config, v: Cache, events: seq<Event>, e: Event)
    requires Consistent(v) && AllTimed(v, events) && !StepEvent(cfg, v, e).1.Overflow?
    ensures AllTimed(StepEvent(cfg, v, e).0, events + [e])
  {
    hide DropOldest, Matching, Without, Consistent;
    var v' := StepEvent(cfg, v, e).0;
    forall u <- v'.entries ensures Timed(v'.entries[u], u, events + [e]) {
      OneMoreEvent(u, events, e);
      if Brings(e, u) {
        ArrivalIsTimed(cfg, v, events, e);
      } else {
        OthersUntouched(cfg, v, e, u);
        assert Timed(v.entries[u], u, events);
      }
    }
  }

  lemma {:induction false} ArrivalIsTimed(cfg: Config, v: Cache, events: seq<Event>, e: Event)
    requires Consistent(v) && AllTimed(v, events) && e.Arrive? && !StepEvent(cfg, v, e).1.Overflow?
    ensures
      var v', u := StepEvent(cfg, v, e).0, e.chunk.uuid;
      u in v'.entries ==> Timed(v'.entries[u], u, events + [e])
  {
    hide Consistent, Admit;
    var u := e.chunk.uuid;
    OneMoreEvent(u, events, e);
    BeganBefore(u, events);
    AdmitOne(cfg, v, e.chunk);
    assert u in v.entries ==> Timed(v.entries[u], u, events);
  }

  /** How many contexts a chunk evicts. */
  ghost function Evicted(cfg: Config, v: Cache, c: Chunk): (n: nat)
    ensures n <= |v.keys|
  {
    if c.chunkId == 0 && c.uuid !in v.entries && cfg.maxPending > 0 && |v.keys| >= cfg.maxPending
    then |v.keys| - cfg.maxPending + 1 else 0
  }

  lemma {:induction false} AdmitKeys(cfg: Config, v: Cache, c: Chunk)
    requires Consistent(v)
    ensures Admit(cfg, v, c).keys
         == v.keys[Evicted(cfg, v, c)..] + if c.chunkId == 0 && c.uuid !in v.entries then [c.uuid] else []
  {
    if Evicted(cfg, v, c) > 0 { DropOldestKeepsTheRest(v, Evicted(cfg, v, c)); }
    assert v.keys[0..] == v.keys;
  }

  /** All but `u` are in order. */
  ghost predicate OthersInOrder(keys: seq<Uuid>, u: Uuid, events: seq<Event>) {
    forall i, j | 0 <= i < j < |keys| && keys[i] != u && keys[j] != u :: Began(keys[i], events) < Began(keys[j], events)
  }

  lemma {:induction false} OthersStayInOrder(keys: seq<Uuid>, u: Uuid, events: seq<Event>, e: Event)
    requires OthersInOrder(keys, u, events) && (e.Arrive? ==> e.chunk.uuid == u)
    ensures OthersInOrder(keys, u, events + [e])
  {
    forall i, j | 0 <= i < j < |keys| && keys[i] != u && keys[j] != u
      ensures Began(keys[i], events + [e]) < Began(keys[j], events + [e])
    {
      OneMoreEvent(keys[i], events, e);
      OneMoreEvent(keys[j], events, e);
    }
  }

  lemma {:induction false} RemovalKeepsOrder(keys: seq<Uuid>, u: Uuid, events: seq<Event>)
    requires NoDuplicates(keys) && OthersInOrder(keys, u, events)
    ensures InOrder(RemoveKey(keys, u), events)
  {
    hide Began, RemoveKey;
    RemoveKeyKeepsOthers(keys, u);
    if u in keys {
      var m :| 0 <= m < |keys| && keys[m] == u;
      RemoveKeyCutsOut(keys, m);
      CutKeepsOrder(keys, m, events);
    }
  }

  lemma {:induction false} CutKeepsOrder(keys: seq<Uuid>, m: nat, events: seq<Event>)
    requires m < |keys| && NoDuplicates(keys) && OthersInOrder(keys, keys[m], events)
    ensures InOrder(keys[..m] + keys[m + 1..], events)
  {
    hide Began;
    var rest := keys[..m] + keys[m + 1..];
    forall i, j | 0 <= i < j < |rest| ensures Began(rest[i], events) < Began(rest[j], events) {
      var a, b := if i < m then i else i + 1, if j < m then j else j + 1;
      assert rest[i] == keys[a] && rest[j] == keys[b];
    }
  }

  /** An arrival leaves the admitted keys, or all of them but its own. */
  lemma {:induction false} ArrivalKeys(cfg: Config, v: Cache, events: seq<Event>, e: Event)
    requires Consistent(v) && AllTimed(v, events) && e.Arrive? && !StepEvent(cfg, v, e).1.Overflow?
    ensures
      var u, keys, keys' := e.chunk.uuid, Admit(cfg, v, e.chunk).keys, StepEvent(cfg, v, e).0.keys;
      keys' == RemoveKey(keys, u) || (keys' == keys && (u in v.entries ==> e.chunk.chunkId != 0))
  {
    hide Consistent, Began, LastArrival, RemoveKey, Admit;
    AdmitOne(cfg, v, e.chunk);
    var u := e.chunk.uuid;
    assert u in v.entries ==> Timed(v.entries[u], u, events);
  }

  lemma {:induction false} ArrivalKeepsOrder(cfg: Config, v: Cache, events: seq<Event>, e: Event)
    requires History(cfg, v, events) && e.Arrive? && !StepEvent(cfg, v, e).1.Overflow?
    ensures InOrder(StepEvent(cfg, v, e).0.keys, events + [e])
  {
    hide Admit, StepEvent, Began, AllTimed, RemoveKey;
    var u, keys := e.chunk.uuid, Admit(cfg, v, e.chunk).keys;
    AdmitKeys(cfg, v, e.chunk);
    AdmitOne(cfg, v, e.chunk);
    ArrivalKeys(cfg, v, events, e);
    OthersStayInOrder(keys, u, events, e);
    if StepEvent(cfg, v, e).0.keys == RemoveKey(keys, u) {
      RemovalKeepsOrder(keys, u, events + [e]);
    } else {
      NewestIsLast(keys, u, v.keys, events, e);
    }
  }

  lemma {:induction false} NewestIsLast(keys: seq<Uuid>, u: Uuid, before: seq<Uuid>, events: seq<Event>, e: Event)
    requires Brings(e, u) && InOrder(before, events) && OthersInOrder(keys, u, events + [e])
    requires
      || (keys == before && (e.chunk.chunkId != 0 || u !in before))
      || (e.chunk.chunkId == 0 && keys != [] && u !in Front(keys) && Last(keys) == u)
    ensures InOrder(keys, events + [e])
  {
    hide Began;
    forall i, j | 0 <= i < j < |keys| ensures Began(keys[i], events + [e]) < Began(keys[j], events + [e]) {
      OneMoreEvent(keys[i], events, e);
      OneMoreEvent(keys[j], events, e);
      BeganBefore(keys[i], events);
      assert i < |Front(keys)| && Front(keys)[i] == keys[i];
    }
  }

  lemma {:induction false} StepKeepsHistory(cfg: Config, v: Cache, events: seq<Event>, e: Event)
    requires History(cfg, v, events) && !StepEvent(cfg, v, e).1.Overflow?
    ensures History(cfg, StepEvent(cfg, v, e).0, events + [e])
  {
    hide Consistent, InOrder, AllTimed, Process, Matching, Began;
    StepConsistent(cfg, v, e);
    StepKeepsTimed(cfg, v, events, e);
    if e.Arrive? { ArrivalKeepsOrder(cfg, v, events, e); } else { ExpiryKeepsOrder(cfg, v, events, e); }
  }

  lemma {:induction false} ExpiryKeepsOrder(cfg: Config, v: Cache, events: seq<Event>, e: Event)
    requires Consistent(v) && InOrder(v.keys, events) && e.Expire?
    ensures InOrder(StepEvent(cfg, v, e).0.keys, events + [e])
  {
    hide Consistent, Began, Matching;
    DropOldestKeepsTheRest(v, Matching(v, Expired(cfg, e.now)));
    var keys := StepEvent(cfg, v, e).0.keys;
    forall i, j | 0 <= i < j < |keys| ensures Began(keys[i], events + [e]) < Began(keys[j], events + [e]) {
      OneMoreEvent(keys[i], events, e);
      OneMoreEvent(keys[j], events, e);
    }
  }

  lemma {:induction false} ExecKeepsHistory(cfg: Config, v: Cache, past: seq<Event>, events: seq<Event>)
    requires History(cfg, v, past) && Exec(cfg, v, events).Running?
    ensures History(cfg, Exec(cfg, v, events).cache, past + events)
    decreases |events|
  {
    hide History, StepEvent;
    if events == [] {
      assert past + events == past;
    } else {
      assert Consistent(v) by { HistoryIsConsistent(cfg, v, past); }
      StepConsistent(cfg, v, events[0]);
      StepKeepsHistory(cfg, v, past, events[0]);
      ExecKeepsHistory(cfg, StepEvent(cfg, v, events[0]).0, past + [events[0]], events[1..]);
      assert past + [events[0]] + events[1..] == past + events;
    }
  }

  lemma {:induction false} HistoryIsConsistent(cfg: Config, v: Cache, events: seq<Event>)
    requires History(cfg, v, events)
    ensures Consistent(v)
  {
  }

  lemma {:induction false} RunHistory(cfg: Config, events: seq<Event>)
    requires Exec(cfg, EMPTY, events).Running?
    ensures History(cfg, Exec(cfg, EMPTY, events).cache, events)
  {
    ExecKeepsHistory(cfg, EMPTY, [], events);
    assert [] + events == events;
  }

  // ----- Who leaves the cache -----

  lemma {:induction false} InSuffix(keys: seq<Uuid>, k: nat, m: nat)
    requires NoDuplicates(keys) && k <= |keys| && m < |keys|
    ensures keys[m] in keys[k..] <==> k <= m
  {
    if k <= m { assert keys[k..][m - k] == keys[m]; }
  }

  lemma {:induction false} ArrivalKeepsLater(cfg: Config, v: Cache, e: Event, m: nat)
    requires Consistent(v) && e.Arrive? && m < |v.keys| && v.keys[m] != e.chunk.uuid
    ensures v.keys[m] in StepEvent(cfg, v, e).0.entries <==> Evicted(cfg, v, e.chunk) <= m
  {
    hide Admit, Evicted, NoDuplicates, RemoveKey;
    AdmitKeys(cfg, v, e.chunk);
    AdmitOne(cfg, v, e.chunk);
    InSuffix(v.keys, Evicted(cfg, v, e.chunk), m);
    assert v.keys[m] in Admit(cfg, v, e.chunk).keys <==> v.keys[m] in Admit(cfg, v, e.chunk).entries;
  }

  lemma {:induction false} ExpiryKeepsLater(cfg: Config, v: Cache, now: int, m: nat)
    requires Consistent(v) && m < |v.keys|
    ensures v.keys[m] in StepEvent(cfg, v, Expire(now)).0.entries <==> Matching(v, Expired(cfg, now)) <= m
  {
    hide Matching, DropOldest, NoDuplicates;
    var n := Matching(v, Expired(cfg, now));
    DropOldestKeepsTheRest(v, n);
    InSuffix(v.keys, n, m);
  }

  // ----- Main results -----

  /** The last chunk of this message came more than the expiry time ago. */
  ghost predicate Overdue(cfg: Config, events: seq<Event>, now: int, u: Uuid) {
    LastArrival(u, events).Some? && now > LastArrival(u, events).value + cfg.expireMs
  }

  lemma {:induction false} KeysAreOrdered(keys: seq<Uuid>, events: seq<Event>, i: nat, j: nat)
    requires InOrder(keys, events) && i < |keys| && j < |keys|
    ensures Began(keys[i], events) <= Began(keys[j], events) <==> i <= j
  {
    hide Began;
  }

  /**
   In every run, the timer drops a pending message if and only if its last chunk, and that of every pending
   message that began before it, came more than the expiry time ago.
   */
  lemma {:induction false} ExpiryIsExact(cfg: Config, events: seq<Event>, now: int, u: Uuid)
    requires Exec(cfg, EMPTY, events).Running? && u in Exec(cfg, EMPTY, events).cache.entries
    ensures Consistent(Exec(cfg, EMPTY, events).cache)
    ensures
      var v := Exec(cfg, EMPTY, events).cache;
      u !in StepEvent(cfg, v, Expire(now)).0.entries <==>
        forall w <- v.entries :: Began(w, events) <= Began(u, events) ==> Overdue(cfg, events, now, w)
  {
    hide Exec, Began, LastArrival, Matching, StepEvent;
    RunHistory(cfg, events);
    var v := Exec(cfg, EMPTY, events).cache;
    var n := Matching(v, Expired(cfg, now));
    MatchingIsLongest(v, Expired(cfg, now));
    var m :| 0 <= m < |v.keys| && v.keys[m] == u;
    ExpiryKeepsLater(cfg, v, now, m);
    forall w <- v.entries ensures Began(w, events) <= Began(u, events) && m < n ==> Overdue(cfg, events, now, w) {
      var i :| 0 <= i < |v.keys| && v.keys[i] == w;
      KeysAreOrdered(v.keys, events, i, m);
      assert Timed(v.entries[w], w, events);
    }
    if n <= m {
      KeysAreOrdered(v.keys, events, n, m);
      assert Timed(v.entries[v.keys[n]], v.keys[n], events);
    }
  }

  /**
   In every run, an arrival drops another pending message if and only if it brings the first chunk of a new
   one while the limit is reached, and this is the one that began first.
   */
  lemma {:induction false} EvictionTakesTheOldest(cfg: Config, events: seq<Event>, e: Event, u: Uuid)
    requires Exec(cfg, EMPTY, events).Running? && e.Arrive? && e.chunk.uuid != u
    requires u in Exec(cfg, EMPTY, events).cache.entries
    ensures Consistent(Exec(cfg, EMPTY, events).cache)
    ensures
      var v := Exec(cfg, EMPTY, events).cache;
      u !in StepEvent(cfg, v, e).0.entries <==>
        && e.chunk.chunkId == 0 && e.chunk.uuid !in v.entries && |v.keys| == cfg.maxPending
        && forall w <- v.entries :: Began(u, events) <= Began(w, events)
  {
    hide Exec, Began, LastArrival, StepEvent;
    RunHistory(cfg, events);
    var v := Exec(cfg, EMPTY, events).cache;
    var m :| 0 <= m < |v.keys| && v.keys[m] == u;
    ArrivalKeepsLater(cfg, v, e, m);
    KeysAreOrdered(v.keys, events, m, 0);
    forall w <- v.entries ensures m == 0 ==> Began(u, events) <= Began(w, events) {
      var i :| 0 <= i < |v.keys| && v.keys[i] == w;
      KeysAreOrdered(v.keys, events, m, i);
    }
  }

  // ----- Messages whose chunks keep coming -----

  /** Every time the timer runs, the latest chunk of this message is recent. */
  ghost predicate Timely(cfg: Config, u: Uuid, events: seq<Event>) {
    forall i | 0 <= i < |events| && events[i].Expire? && LastArrival(u, events[..i]).Some? ::
      events[i].now <= LastArrival(u, events[..i]).value + cfg.expireMs
  }

  /** How many other messages begin after the first chunk of this one. */
  ghost function Newcomers(u: Uuid, events: seq<Event>): nat
    decreases |events|
  {
    if events == [] then 0
    else Newcomers(u, Front(events)) + if Competes(u, Front(events), Last(events)) then 1 else 0
  }

  ghost predicate Competes(u: Uuid, past: seq<Event>, e: Event) {
    e.Arrive? && e.chunk.uuid != u && e.chunk.chunkId == 0 && LastArrival(u, past).Some?
  }

  /** Too few other messages begin to evict this one. */
  ghost predicate Roomy(cfg: Config, u: Uuid, events: seq<Event>) {
    cfg.maxPending == 0 || Newcomers(u, events) < cfg.maxPending
  }

  lemma {:induction false} NewcomersGrow(u: Uuid, events: seq<Event>, more: seq<Event>)
    ensures Newcomers(u, events) <= Newcomers(u, events + more)
    decreases |more|
  {
    if more == [] {
      assert events + more == events;
    } else {
      NewcomersGrow(u, events, Front(more));
      assert Front(events + more) == events + Front(more);
    }
  }

  lemma {:induction false} OneMoreNewcomer(u: Uuid, events: seq<Event>, e: Event)
    ensures Newcomers(u, events + [e]) == Newcomers(u, events) + if Competes(u, events, e) then 1 else 0
  {
    assert Front(events + [e]) == events;
  }

  /** At most `n` contexts are younger than that of `u`, if it is cached. */
  ghost predicate YoungerAtMost(keys: seq<Uuid>, u: Uuid, n: nat) {
    forall i | 0 <= i < |keys| && keys[i] == u :: |keys| - 1 - i <= n
  }

  lemma {:induction false} RemovalKeepsAge(keys: seq<Uuid>, w: Uuid, u: Uuid, n: nat)
    requires NoDuplicates(keys) && YoungerAtMost(keys, u, n) && w != u
    ensures YoungerAtMost(RemoveKey(keys, w), u, n)
  {
    hide RemoveKey;
    RemoveKeyKeepsOthers(keys, w);
    if w in keys {
      var m :| 0 <= m < |keys| && keys[m] == w;
      RemoveKeyCutsOut(keys, m);
      var rest := keys[..m] + keys[m + 1..];
      forall i | 0 <= i < |rest| && rest[i] == u ensures |rest| - 1 - i <= n {
        assert keys[if i < m then i else i + 1] == u;
      }
    }
  }

  /** The context of `u` survives the timer, and gets no older. */
  lemma {:induction false} SurvivesTimer(cfg: Config, v: Cache, past: seq<Event>, now: int, u: Uuid, n: nat)
    requires Consistent(v) && AllTimed(v, past) && u in v.entries && !Overdue(cfg, past, now, u)
    requires YoungerAtMost(v.keys, u, n)
    ensures u in StepEvent(cfg, v, Expire(now)).0.entries
    ensures YoungerAtMost(StepEvent(cfg, v, Expire(now)).0.keys, u, n)
  {
    hide Began, LastArrival, Matching, DropOldest, NoDuplicates;
    assert Timed(v.entries[u], u, past);
    var m :| 0 <= m < |v.keys| && v.keys[m] == u;
    var k := Matching(v, Expired(cfg, now));
    MatchingIsLongest(v, Expired(cfg, now));
    ExpiryKeepsLater(cfg, v, now, m);
    DropOldestKeepsTheRest(v, k);
    SuffixKeepsAge(v.keys, k, u, n);
  }

  /** It survives the arrival of another message's chunk, and ages by at most one newcomer. */
  lemma {:induction false} SurvivesArrival(
    cfg: Config, v: Cache, past: seq<Event>, done: seq<Event>, e: Event, u: Uuid)
    requires History(cfg, v, past) && u in v.entries && e.Arrive? && e.chunk.uuid != u
    requires !StepEvent(cfg, v, e).1.Overflow? && LastArrival(u, done).Some?
    requires YoungerAtMost(v.keys, u, Newcomers(u, done)) && Roomy(cfg, u, done + [e])
    ensures u in StepEvent(cfg, v, e).0.entries
    ensures YoungerAtMost(StepEvent(cfg, v, e).0.keys, u, Newcomers(u, done + [e]))
  {
    hide Began, LastArrival, Admit, Newcomers, InOrder, StepEvent, NoDuplicates, RemoveKey, Evicted;
    OneMoreNewcomer(u, done, e);
    var m :| 0 <= m < |v.keys| && v.keys[m] == u;
    var k, keys := Evicted(cfg, v, e.chunk), Admit(cfg, v, e.chunk).keys;
    EvictsTooFew(cfg, v, past, done, e, u, m);
    ArrivalKeepsLater(cfg, v, e, m);
    AdmitKeys(cfg, v, e.chunk);
    AdmitOne(cfg, v, e.chunk);
    SuffixKeepsAge(v.keys, k, u, Newcomers(u, done));
    assert YoungerAtMost(keys, u, Newcomers(u, done + [e]));
    ArrivalKeys(cfg, v, past, e);
    RemovalKeepsAge(keys, e.chunk.uuid, u, Newcomers(u, done + [e]));
  }

  lemma {:induction false} EvictsTooFew(
    cfg: Config, v: Cache, past: seq<Event>, done: seq<Event>, e: Event, u: Uuid, m: nat)
    requires History(cfg, v, past) && m < |v.keys| && v.keys[m] == u && e.Arrive? && e.chunk.uuid != u
    requires LastArrival(u, done).Some?
    requires YoungerAtMost(v.keys, u, Newcomers(u, done)) && Roomy(cfg, u, done + [e])
    ensures Evicted(cfg, v, e.chunk) <= m
  {
    hide Began, LastArrival, Newcomers, InOrder, NoDuplicates;
    OneMoreNewcomer(u, done, e);
  }

  lemma {:induction false} SuffixKeepsAge(keys: seq<Uuid>, k: nat, u: Uuid, n: nat)
    requires k <= |keys| && YoungerAtMost(keys, u, n)
    ensures YoungerAtMost(keys[k..], u, n)
    ensures forall w | w != u :: YoungerAtMost(keys[k..] + [w], u, n + 1)
  {
    forall i | 0 <= i < |keys[k..]| && keys[k..][i] == u ensures |keys| - 1 - k - i <= n {
      assert keys[k + i] == u;
    }
  }

  /** If `u` is cached, then since it came in these events, and at most as many are younger as began since. */
  ghost predicate Alive(v: Cache, done: seq<Event>, u: Uuid) {
    u in v.entries ==> LastArrival(u, done).Some? && YoungerAtMost(v.keys, u, Newcomers(u, done))
  }

  /** Its own arrivals leave it as old as it was, or put it in as the youngest. */
  lemma {:induction false} OwnArrival(cfg: Config, v: Cache, past: seq<Event>, done: seq<Event>, e: Event, u: Uuid)
    requires History(cfg, v, past) && Alive(v, done, u) && Brings(e, u) && !StepEvent(cfg, v, e).1.Overflow?
    ensures Alive(StepEvent(cfg, v, e).0, done + [e], u)
  {
    hide Began, LastArrival, Admit, Newcomers, InOrder, NoDuplicates, RemoveKey, Evicted;
    var keys := Admit(cfg, v, e.chunk).keys;
    OneMoreNewcomer(u, done, e);
    OneMoreEvent(u, done, e);
    AdmitKeys(cfg, v, e.chunk);
    AdmitOne(cfg, v, e.chunk);
    if u in v.entries {
      assert keys == v.keys;
    } else if e.chunk.chunkId == 0 {
      assert u !in v.keys[Evicted(cfg, v, e.chunk)..];
      assert YoungerAtMost(keys, u, 0);
    }
  }

  lemma {:induction false} StaysAlive(
    cfg: Config, v: Cache, before: seq<Event>, done: seq<Event>, e: Event, u: Uuid)
    requires History(cfg, v, before + done) && Alive(v, done, u) && !StepEvent(cfg, v, e).1.Overflow?
    requires Roomy(cfg, u, done + [e]) && (e.Expire? ==> !Overdue(cfg, done, e.now, u))
    ensures Alive(StepEvent(cfg, v, e).0, done + [e], u)
    ensures u in v.entries && !Brings(e, u) ==> u in StepEvent(cfg, v, e).0.entries
  {
    hide StepEvent, Newcomers, YoungerAtMost, AllTimed, InOrder, LastArrival;
    OneMoreNewcomer(u, done, e);
    OneMoreEvent(u, done, e);
    if Brings(e, u) {
      OwnArrival(cfg, v, before + done, done, e, u);
    } else if u !in v.entries {
      OthersUntouched(cfg, v, e, u);
    } else if e.Expire? {
      LatestArrival(u, before, done);
      SurvivesTimer(cfg, v, before + done, e.now, u, Newcomers(u, done));
    } else {
      SurvivesArrival(cfg, v, before + done, done, e, u);
    }
  }

  lemma {:induction false} LatestArrival(u: Uuid, before: seq<Event>, done: seq<Event>)
    requires LastArrival(u, done).Some?
    ensures LastArrival(u, before + done) == LastArrival(u, done)
    decreases |done|
  {
    if !Brings(Last(done), u) {
      assert Front(before + done) == before + Front(done);
      LatestArrival(u, before, Front(done));
    }
  }

  lemma {:induction false} AliveIsKept(
    cfg: Config, v: Cache, before: seq<Event>, done: seq<Event>, events: seq<Event>, u: Uuid)
    requires History(cfg, v, before + done) && Alive(v, done, u) && Exec(cfg, v, events).Running?
    requires Timely(cfg, u, done + events) && Roomy(cfg, u, done + events)
    ensures Kept(cfg, v, events, u)
    decreases |events|
  {
    hide History, Alive, StepEvent, LastArrival, Newcomers;
    HistoryIsConsistent(cfg, v, before + done);
    if events != [] {
      var e, done' := events[0], done + [events[0]];
      var v' := StepEvent(cfg, v, e).0;
      assert done' + events[1..] == done + events && before + done' == before + done + [e];
      assert (done + events)[..|done|] == done && (done + events)[|done|] == e;
      NewcomersGrow(u, done', events[1..]);
      StepConsistent(cfg, v, e);
      StepKeepsHistory(cfg, v, before + done, e);
      StaysAlive(cfg, v, before, done, e, u);
      AliveIsKept(cfg, v', before, done', events[1..], u);
    }
  }

  /**
   Completeness, told by events alone. After any run that leaves this uuid uncached, let its n chunks arrive in
   order and fit the declared size, mixed with any other events. If the timer never runs later than the expiry
   time after the latest of these chunks, and fewer other messages begin after the first of them than the
   limit, then the n-th chunk delivers the message.
   */
  lemma {:induction false} TimelyMessagesAreDelivered(
    cfg: Config, before: seq<Event>, v: Cache, events: seq<Event>, last: Chunk, now: int, whole: seq<Chunk>)
    requires Exec(cfg, EMPTY, before) == Running(v) && last.uuid !in v.entries
    requires Consistent(v) && Exec(cfg, v, events).Running?
    requires WholeMessage(whole) && Arrivals(last.uuid, events) + [last] == whole
    requires Timely(cfg, last.uuid, events) && Roomy(cfg, last.uuid, events)
    ensures Consistent(Exec(cfg, v, events).cache)
    ensures
      var r := StepEvent(cfg, Exec(cfg, v, events).cache, Arrive(last, now)).1;
      r.Delivered? && r.payload == Concat(whole) && r.ids == Ids(whole)
  {
    hide Exec, History, StepEvent, LastArrival, Newcomers, Arrivals, Kept, WholeMessage, Concat;
    RunHistory(cfg, before);
    assert before + [] == before && [] + events == events;
    AliveIsKept(cfg, v, before, [], events, last.uuid);
    WholeMessagesAreDelivered(cfg, v, events, last, now, whole);
  }
}
