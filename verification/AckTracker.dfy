/**
 The ack grouping tracker: acknowledgements are collected and sent later, messages that were already
 acknowledged are recognised, and user callbacks are kept until the ack they wait for is answered.
 The functions define what each call does, and the lemmas are about every run.
 */
module AckTracker {
  import opened MessageIds
  import opened Options
  import opened AckCallbacks

  // ----- Ids -----

  /** An id to acknowledge; that of a chunked message lists the ids of its chunks. */
  datatype AckId = AckId(id: MessageId, chunks: seq<MessageId>)

  function KeysOf(a: AckId): (r: set<Key>)
    ensures KeyOf(if a.chunks == [] then a.id else a.chunks[0]) in r
  {
    if a.chunks == [] then {KeyOf(a.id)} else set i | 0 <= i < |a.chunks| :: KeyOf(a.chunks[i])
  }

  /** The entries acknowledged by a set of ids: chunked messages stand for all their chunks. */
  ghost function Expansion(pending: map<Key, AckId>): set<Key> {
    set k, x | k in pending && x in KeysOf(pending[k]) :: x
  }

  /** An ordered set keeps the element it has. */
  function Insert(pending: map<Key, AckId>, m: AckId): map<Key, AckId> {
    if KeyOf(m.id) in pending then pending else pending[KeyOf(m.id) := m]
  }

  function InsertAll(pending: map<Key, AckId>, ms: seq<AckId>): map<Key, AckId>
    decreases |ms|
  {
    if ms == [] then pending else InsertAll(Insert(pending, ms[0]), ms[1..])
  }

  predicate IsLeast(k: Key, keys: set<Key>) {
    k in keys && forall x <- keys :: !KeyLess(x, k)
  }

  lemma {:induction false} LeastExists(keys: set<Key>)
    requires keys != {}
    ensures exists k :: IsLeast(k, keys)
    decreases |keys|
  {
    var k :| k in keys;
    var rest := keys - {k};
    var least := k;
    if rest != {} {
      LeastExists(rest);
      var l :| IsLeast(l, rest);
      if KeyLess(l, k) { least := l; }
    }
    forall x | x in keys ensures !KeyLess(x, least) {
      if x != k { assert x in rest; }
    }
    assert IsLeast(least, keys);
  }

  /** The entries in the order in which the set is walked through. */
  ghost function Ascending(keys: set<Key>): seq<Key>
    decreases |keys|
  {
    if keys == {} then []
    else
      LeastExists(keys);
      var k :| IsLeast(k, keys);
      [k] + Ascending(keys - {k})
  }

  lemma {:induction false} AscendingNext(keys: set<Key>, k: Key)
    requires IsLeast(k, keys)
    ensures Ascending(keys) == [k] + Ascending(keys - {k})
  {
    assert forall x | IsLeast(x, keys) :: x == k;
  }

  lemma {:induction false} NothingAscending()
    ensures Ascending({}) == []
  {
  }

  /** It lists every entry once, smaller ones first. */
  lemma {:induction false} AscendingListsAll(keys: set<Key>)
    ensures |Ascending(keys)| == |keys| && forall x :: x in Ascending(keys) <==> x in keys
    ensures forall i, j | 0 <= i < j < |Ascending(keys)| :: KeyLess(Ascending(keys)[i], Ascending(keys)[j])
    decreases |keys|
  {
    hide Ascending;
    if keys == {} {
      NothingAscending();
    } else {
      LeastExists(keys);
      var k :| IsLeast(k, keys);
      AscendingNext(keys, k);
      AscendingListsAll(keys - {k});
      var order := Ascending(keys);
      forall i, j | 0 <= i < j < |order| ensures KeyLess(order[i], order[j]) {
        var rest := Ascending(keys - {k});
        assert order[j] == rest[j - 1] && rest[j - 1] in keys - {k};
        if i > 0 { assert order[i] == rest[i - 1]; }
      }
    }
  }

  // ----- What each call does -----

  /** Whether there is a connection, and whether its broker takes several ids in one ack. */
  datatype Connection = NotReady | Ready(multiAck: bool)

  /** `connections` is what the connection supplier returns, query by query. */
  datatype Config = Config(waitResponse: bool, maxSize: int, connections: nat -> Connection)

  datatype Sent = Cumulative(id: MessageId) | Multi(ids: set<Key>) | Individual(key: Key)

  /** The fields of the tracker, the acks it sent, and the queries it made. */
  datatype Tracker = Tracker(
    next: MessageId, require: bool, latest: Callback, pending: map<Key, AckId>, callbacks: seq<Callback>,
    env: Env, sent: seq<Sent>, queries: nat)

  const INIT: Tracker := Tracker(EARLIEST, false, None, map[], [], Env([], [], [], []), [], 0)

  /** A state, and whether the call ended with the exception of an empty callback. */
  datatype Outcome = Outcome(state: Tracker, threw: bool)

  function SingleClosure(callback: Callback): Closure {
    if callback.Some? then User(callback.value) else Nothing
  }

  /** One ack: completed at once without connection or without an answer to wait for. */
  function Offer(c: Config, s: Tracker, ack: Sent, closure: Closure): Outcome {
    var asked := s.(queries := s.queries + 1);
    if c.connections(s.queries).NotReady? then
      Outcome(asked.(env := Run(s.env, closure, AlreadyClosed)), Throws(s.env, closure))
    else if c.waitResponse then
      Outcome(asked.(sent := s.sent + [ack], env := AddRequest(s.env, closure)), false)
    else
      Outcome(asked.(sent := s.sent + [ack], env := Run(s.env, closure, ResultOk)), Throws(s.env, closure))
  }

  /** One ack for each entry; an exception ends it. */
  function OfferEach(c: Config, s: Tracker, order: seq<Key>, closure: Closure): Outcome
    decreases |order|
  {
    if order == [] then Outcome(s, false)
    else
      var first := Offer(c, s, Individual(order[0]), closure);
      if first.threw then first else OfferEach(c, first.state, order[1..], closure)
  }

  /** One ack for all entries, or, with old brokers, one each with a countdown. */
  ghost function OfferAll(c: Config, s: Tracker, keys: set<Key>, closure: Closure): Outcome {
    if c.connections(s.queries) == Ready(false) then
      var counting := s.(queries := s.queries + 1, env := AddCounter(s.env, |keys|, closure));
      OfferEach(c, counting, Ascending(keys), PerId(|s.env.counters|))
    else Offer(c, s, Multi(keys), closure)
  }

  function FlushCumulative(c: Config, s: Tracker): Tracker {
    if s.require
    then Offer(c, s, Cumulative(s.next), SingleClosure(s.latest)).state.(latest := None, require := false)
    else s
  }

  /** The group keeps its ids when it throws, though not its callbacks. */
  ghost function FlushIndividual(c: Config, s: Tracker): Outcome {
    if s.pending == map[] then Outcome(s, false)
    else
      var r := OfferAll(c, s.(callbacks := []), Expansion(s.pending), Group(s.callbacks));
      if r.threw then r else Outcome(r.state.(pending := map[]), false)
  }

  ghost function Flush(c: Config, s: Tracker): Outcome {
    FlushIndividual(c, FlushCumulative(c, s))
  }

  function Notify(s: Tracker, callback: Callback, result: Result): Tracker {
    s.(env := Run(s.env, SingleClosure(callback), result))
  }

  function Keep(c: Config, s: Tracker, callback: Callback): Tracker {
    if c.waitResponse then s.(callbacks := s.callbacks + [callback]) else Notify(s, callback, ResultOk)
  }

  ghost function FlushIfFull(c: Config, s: Tracker): Outcome {
    if c.maxSize > 0 && |s.pending| >= c.maxSize then Flush(c, s) else Outcome(s, false)
  }

  ghost function AddList(c: Config, s: Tracker, ms: seq<AckId>, callback: Callback): Outcome {
    FlushIfFull(c, Keep(c, s.(pending := InsertAll(s.pending, ms)), callback))
  }

  function AddCumulative(c: Config, s: Tracker, id: MessageId, callback: Callback): Tracker {
    if Compare(id, s.next) > 0 then
      var s1 := Notify(s.(next := id, require := true), s.latest, ResultOk);
      if c.waitResponse then s1.(latest := callback) else Notify(s1.(latest := None), callback, ResultOk)
    else Notify(s, callback, ResultOk)
  }

  ghost function FlushAndClean(c: Config, s: Tracker): Outcome {
    var r := Flush(c, s);
    if r.threw then r
    else Outcome(r.state.(next := EARLIEST, require := false, latest := None, pending := map[]), false)
  }

  predicate IsDuplicate(s: Tracker, m: MessageId) {
    Compare(m, s.next) <= 0 || KeyOf(m) in s.pending
  }

  // ----- Runs -----

  datatype Op =
    | Ack(m: AckId, callback: Callback)
    | AckList(ms: seq<AckId>, callback: Callback)
    | AckCumulative(id: MessageId, callback: Callback)
    | FlushAll
    | CleanAll
    | AnswerTo(request: nat, result: Result)

  /** Each method as one step. An answer to a request never sent is no step. */
  ghost function Act(c: Config, s: Tracker, op: Op): Tracker {
    match op
    case Ack(m, callback) => AddList(c, s, [m], callback).state
    case AckList(ms, callback) => AddList(c, s, ms, callback).state
    case AckCumulative(id, callback) => AddCumulative(c, s, id, callback)
    case FlushAll => Flush(c, s).state
    case CleanAll => FlushAndClean(c, s).state
    case AnswerTo(i, result) => if i < |s.env.requests| then s.(env := Answer(s.env, i, result)) else s
  }

  ghost function Play(c: Config, ops: seq<Op>): Tracker
    decreases |ops|
  {
    if ops == [] then INIT else Act(c, Play(c, ops[..|ops| - 1]), ops[|ops| - 1])
  }

  // ----- Sending moves callbacks -----

  predicate Linked(env: Env) {
    Wired(env) && InStep(env, 0)
  }

  lemma {:induction false} OfferMoves(c: Config, s: Tracker, ack: Sent, closure: Closure)
    requires Wired(s.env)
    requires closure.PerId? ==> closure.counter < |s.env.counters| && s.env.counters[closure.counter].left > 0
    ensures
      var r := Offer(c, s, ack, closure);
      var env, env' := s.env, r.state.env;
      && Moved(env, env', closure) && Wired(env') && |env'.counters| == |env.counters|
      && (forall k | 0 <= k < |env.counters| ::
            && env'.counters[k].target == env.counters[k].target
            && Slack(env', k) == Slack(env, k) - if closure == PerId(k) then 1 else 0)
      && (Clean(env) && CleanClosure(closure) ==> Clean(env') && !r.threw)
  {
    hide Moved, Outstanding, Throws, Run, Clean, CleanClosure;
    if c.connections(s.queries).NotReady? || !c.waitResponse {
      var result := if c.connections(s.queries).NotReady? then AlreadyClosed else ResultOk;
      RunMoves(s.env, closure, result);
      RunKeepsWiring(s.env, closure, result);
      if Clean(s.env) && CleanClosure(closure) { RunKeepsClean(s.env, closure, result); }
    } else {
      AddRequestMoves(s.env, closure);
    }
  }

  /** One of `n + 1` acks that share the newest countdown; only the last can run the group, and so throw. */
  lemma {:induction false} OfferOneOf(c: Config, s: Tracker, key: Key, closure: Closure, n: nat)
    requires Counting(s.env, closure, n + 1)
    ensures
      var r := Offer(c, s, Individual(key), PerId(|s.env.counters| - 1));
      && Counting(r.state.env, closure, n) && Moved(s.env, r.state.env, Nothing)
      && |r.state.env.counters| == |s.env.counters|
      && (Clean(s.env) && CleanClosure(closure) ==> Clean(r.state.env) && !r.threw)
      && (r.threw ==> n == 0)
  {
    hide CountEnv, Outstanding, Run, Clean;
    var k := |s.env.counters| - 1;
    OfferMoves(c, s, Individual(key), PerId(k));
    CountdownStep(s.env, Offer(c, s, Individual(key), PerId(k)).state.env, n);
  }

  lemma {:induction false} OfferEachMoves(c: Config, s: Tracker, order: seq<Key>, closure: Closure)
    requires Counting(s.env, closure, |order|)
    ensures
      var r := OfferEach(c, s, order, PerId(|s.env.counters| - 1));
      && Counting(r.state.env, closure, 0) && Moved(s.env, r.state.env, Nothing)
      && (Clean(s.env) && CleanClosure(closure) ==> Clean(r.state.env) && !r.threw)
    decreases |order|
  {
    hide Counting, Moved, Clean, CleanClosure, Offer;
    if order == [] {
      NothingMoved(s.env);
    } else {
      CountedDown(s.env, closure, |order|);
      var r := Offer(c, s, Individual(order[0]), PerId(|s.env.counters| - 1));
      OfferOneOf(c, s, order[0], closure, |order| - 1);
      if !r.threw {
        OfferEachMoves(c, r.state, order[1..], closure);
        MovedOn(s.env, r.state.env, OfferEach(c, r.state, order[1..], PerId(|s.env.counters| - 1)).state.env, Nothing);
      }
    }
  }

  lemma {:induction false} OfferAllMoves(c: Config, s: Tracker, keys: set<Key>, closure: Closure)
    requires keys != {} && Linked(s.env) && !closure.PerId?
    ensures
      var r := OfferAll(c, s, keys, closure);
      && Linked(r.state.env) && Moved(s.env, r.state.env, closure)
      && (Clean(s.env) && CleanClosure(closure) ==> Clean(r.state.env) && !r.threw)
  {
    if c.connections(s.queries) == Ready(false) {
      hide Counting, Moved, Clean, CleanClosure, Offer, OfferEach, Wired, InStep;
      var env := AddCounter(s.env, |keys|, closure);
      StartCountdown(s.env, |keys|, closure);
      AscendingListsAll(keys);
      OfferEachMoves(c, s.(queries := s.queries + 1, env := env), Ascending(keys), closure);
      var r := OfferAll(c, s, keys, closure);
      MovedOn(s.env, env, r.state.env, closure);
      CountedDown(r.state.env, closure, 0);
    } else {
      hide Moved, Clean, CleanClosure, Run, Throws, Offer;
      OfferMoves(c, s, Multi(keys), closure);
      StillInStep(s.env, Offer(c, s, Multi(keys), closure).state.env);
    }
  }

  lemma {:induction false} StillInStep(env: Env, env': Env)
    requires InStep(env, 0) && |env'.counters| == |env.counters|
    requires forall k | 0 <= k < |env.counters| :: Slack(env', k) == Slack(env, k)
    ensures InStep(env', 0)
  {
    forall k | 0 <= k < |env'.counters| ensures env'.counters[k].left == Outstanding(env'.requests, k) {
      assert Slack(env', k) == Slack(env, k);
    }
  }

  lemma {:induction false} ExpansionNotEmpty(pending: map<Key, AckId>)
    requires pending != map[]
    ensures Expansion(pending) != {}
  {
    var k :| k in pending;
    var x := KeyOf(if pending[k].chunks == [] then pending[k].id else pending[k].chunks[0]);
    assert x in KeysOf(pending[k]);
    assert x in Expansion(pending);
  }

  // ----- Every call conserves callbacks -----

  /** In how many places a callback is. */
  ghost function Places(s: Tracker, x: nat): nat {
    (if s.latest == Some(x) then 1 else 0) + CountCallbacks(s.callbacks, x) + CountEnv(s.env, x)
  }

  /** Every callback passed in is in exactly one place. */
  ghost predicate Conserved(s: Tracker, accepted: set<nat>) {
    forall x: nat :: Places(s, x) == if x in accepted then 1 else 0
  }

  ghost predicate Shape(c: Config, s: Tracker) {
    && Linked(s.env)
    && (!c.waitResponse ==> s.callbacks == [] && s.latest == None)
    && (!s.require ==> s.latest == None)
  }

  /** Nothing is lost and nothing stored can be. */
  predicate Safe(s: Tracker) {
    Clean(s.env) && !HasNull(s.callbacks)
  }

  ghost predicate Kept(c: Config, s: Tracker, accepted: set<nat>) {
    Shape(c, s) && Conserved(s, accepted)
  }

  function Named(callback: Callback): set<nat> {
    if callback.Some? then {callback.value} else {}
  }

  lemma {:induction false} SingleMoves(callback: Callback)
    ensures CleanClosure(SingleClosure(callback))
    ensures forall x: nat :: CountClosure(SingleClosure(callback), x) == if callback == Some(x) then 1 else 0
  {
  }

  lemma {:induction false} GroupMoves(cbs: seq<Callback>)
    ensures CleanClosure(Group(cbs)) == !HasNull(cbs) && !HasNull([])
    ensures forall x: nat :: CountClosure(Group(cbs), x) == CountCallbacks(cbs, x) && CountCallbacks([], x) == 0
  {
  }

  lemma {:induction false} NotifyKeeps(s: Tracker, callback: Callback, result: Result)
    requires Linked(s.env)
    ensures
      var s' := Notify(s, callback, result);
      && Linked(s'.env) && Moved(s.env, s'.env, SingleClosure(callback))
      && (Clean(s.env) ==> Clean(s'.env))
      && s'.env.calls == s.env.calls + if callback.Some? then [Call(callback.value, result)] else []
  {
    hide Moved, Clean, CleanClosure, Outstanding;
    var closure := SingleClosure(callback);
    SingleMoves(callback);
    RunMoves(s.env, closure, result);
    RunKeepsWiring(s.env, closure, result);
    if Clean(s.env) { RunKeepsClean(s.env, closure, result); }
  }

  lemma {:induction false} FlushCumulativeKeeps(c: Config, s: Tracker, accepted: set<nat>)
    requires Kept(c, s, accepted)
    ensures
      var s' := FlushCumulative(c, s);
      && Kept(c, s', accepted) && !s'.require && s'.latest == None && (Safe(s) ==> Safe(s'))
      && s'.pending == s.pending && s'.callbacks == s.callbacks && s'.next == s.next
  {
    hide CountEnv, CountCallbacks, Clean, Outstanding, Run, CleanClosure, HasNull;
    if s.require {
      var closure := SingleClosure(s.latest);
      SingleMoves(s.latest);
      OfferMoves(c, s, Cumulative(s.next), closure);
      StillInStep(s.env, Offer(c, s, Cumulative(s.next), closure).state.env);
    }
  }

  lemma {:induction false} FlushIndividualKeeps(c: Config, s: Tracker, accepted: set<nat>)
    requires Kept(c, s, accepted) && !s.require && s.latest == None
    ensures
      var r := FlushIndividual(c, s);
      && Kept(c, r.state, accepted) && (Safe(s) ==> Safe(r.state) && !r.threw)
      && r.state.next == s.next && !r.state.require && r.state.latest == None
  {
    hide CountEnv, CountCallbacks, Clean, CleanClosure, HasNull, Expansion, OfferAll, Linked;
    if s.pending != map[] {
      ExpansionNotEmpty(s.pending);
      GroupMoves(s.callbacks);
      OfferAllMoves(c, s.(callbacks := []), Expansion(s.pending), Group(s.callbacks));
      OfferAllFrame(c, s.(callbacks := []), Expansion(s.pending), Group(s.callbacks));
    }
  }

  /** Sending changes only what was sent, the queries made and where callbacks are. */
  ghost predicate SameFields(s: Tracker, s': Tracker) {
    s' == s.(env := s'.env, sent := s'.sent, queries := s'.queries) && s.queries <= s'.queries
  }

  lemma {:induction false} OfferEachFrame(c: Config, s: Tracker, order: seq<Key>, closure: Closure)
    ensures SameFields(s, OfferEach(c, s, order, closure).state)
    decreases |order|
  {
    if order != [] { OfferEachFrame(c, Offer(c, s, Individual(order[0]), closure).state, order[1..], closure); }
  }

  lemma {:induction false} OfferAllFrame(c: Config, s: Tracker, keys: set<Key>, closure: Closure)
    ensures SameFields(s, OfferAll(c, s, keys, closure).state)
  {
    if c.connections(s.queries) == Ready(false) {
      OfferEachFrame(c, s.(queries := s.queries + 1, env := AddCounter(s.env, |keys|, closure)), Ascending(keys),
                     PerId(|s.env.counters|));
    }
  }

  lemma {:induction false} FlushKeeps(c: Config, s: Tracker, accepted: set<nat>)
    requires Kept(c, s, accepted)
    ensures
      var r := Flush(c, s);
      && Kept(c, r.state, accepted) && (Safe(s) ==> Safe(r.state) && !r.threw)
      && r.state.next == s.next && !r.state.require && r.state.latest == None
  {
    hide Kept, Safe, FlushCumulative, FlushIndividual;
    FlushCumulativeKeeps(c, s, accepted);
    FlushIndividualKeeps(c, FlushCumulative(c, s), accepted);
  }

  lemma {:induction false} KeepKeeps(c: Config, s: Tracker, accepted: set<nat>, callback: Callback)
    requires Kept(c, s, accepted) && Named(callback) !! accepted
    ensures Kept(c, Keep(c, s, callback), accepted + Named(callback))
    ensures Safe(s) && (c.waitResponse ==> callback.Some?) ==> Safe(Keep(c, s, callback))
  {
    hide CountEnv, CountCallbacks, Clean, Linked, Run;
    if c.waitResponse {
      forall x: nat
        ensures CountCallbacks(s.callbacks + [callback], x)
             == CountCallbacks(s.callbacks, x) + if callback == Some(x) then 1 else 0
      {
        CountOneMore(s.callbacks, callback, x);
      }
    } else {
      NotifyKeeps(s, callback, ResultOk);
      SingleMoves(callback);
    }
  }

  lemma {:induction false} AddListKeeps(c: Config, s: Tracker, accepted: set<nat>, ms: seq<AckId>, callback: Callback)
    requires Kept(c, s, accepted) && Named(callback) !! accepted
    ensures Kept(c, AddList(c, s, ms, callback).state, accepted + Named(callback))
    ensures Safe(s) && (c.waitResponse ==> callback.Some?) ==>
              Safe(AddList(c, s, ms, callback).state) && !AddList(c, s, ms, callback).threw
  {
    hide Conserved, Shape, Safe, Keep, Flush, InsertAll;
    var s1 := s.(pending := InsertAll(s.pending, ms));
    PendingDoesNotMatter(c, s, accepted, s1.pending);
    KeepKeeps(c, s1, accepted, callback);
    FlushKeeps(c, Keep(c, s1, callback), accepted + Named(callback));
  }

  lemma {:induction false} PendingDoesNotMatter(c: Config, s: Tracker, accepted: set<nat>, pending: map<Key, AckId>)
    requires Kept(c, s, accepted)
    ensures Kept(c, s.(pending := pending), accepted) && Safe(s.(pending := pending)) == Safe(s)
  {
    hide CountEnv, CountCallbacks, Clean, Linked, HasNull;
    assert forall x: nat :: Places(s.(pending := pending), x) == Places(s, x);
  }

  lemma {:induction false} AddCumulativeKeeps(
    c: Config, s: Tracker, accepted: set<nat>, id: MessageId, callback: Callback)
    requires Kept(c, s, accepted) && Named(callback) !! accepted
    ensures Kept(c, AddCumulative(c, s, id, callback), accepted + Named(callback))
    ensures Safe(s) ==> Safe(AddCumulative(c, s, id, callback))
  {
    hide CountEnv, CountCallbacks, Clean, Linked, Run, HasNull, Compare, CountClosure;
    SingleMoves(callback);
    if Compare(id, s.next) > 0 {
      SingleMoves(s.latest);
      NotifyKeeps(s.(next := id, require := true), s.latest, ResultOk);
      var s1 := Notify(s.(next := id, require := true), s.latest, ResultOk);
      NotifyKeeps(s1.(latest := None), callback, ResultOk);
    } else {
      NotifyKeeps(s, callback, ResultOk);
    }
  }

  lemma {:induction false} AnswerToKeeps(c: Config, s: Tracker, accepted: set<nat>, i: nat, result: Result)
    requires Kept(c, s, accepted) && i < |s.env.requests|
    ensures Kept(c, s.(env := Answer(s.env, i, result)), accepted)
    ensures Safe(s) ==> Safe(s.(env := Answer(s.env, i, result)))
  {
    hide CountEnv, CountCallbacks, Clean, Answer, HasNull;
    forall x: nat ensures CountEnv(Answer(s.env, i, result), x) == CountEnv(s.env, x) {
      AnswerConserves(s.env, i, result, x);
    }
    AnswerKeepsInStep(s.env, i, result);
    if Safe(s) { AnswerKeepsClean(s.env, i, result); }
  }

  function NameOf(op: Op): set<nat> {
    if op.Ack? || op.AckList? || op.AckCumulative? then Named(op.callback) else {}
  }

  predicate StoresNull(op: Op) {
    (op.Ack? || op.AckList?) && op.callback.None?
  }

  lemma {:induction false} FlushAndCleanKeeps(c: Config, s: Tracker, accepted: set<nat>)
    requires Kept(c, s, accepted)
    ensures Kept(c, FlushAndClean(c, s).state, accepted)
    ensures Safe(s) ==> Safe(FlushAndClean(c, s).state) && !FlushAndClean(c, s).threw
  {
    hide CountEnv, CountCallbacks, Clean, Linked, HasNull, Flush;
    FlushKeeps(c, s, accepted);
    var r := Flush(c, s).state;
    var s' := r.(next := EARLIEST, require := false, latest := None, pending := map[]);
    assert forall x: nat :: Places(s', x) == Places(r, x);
  }

  lemma {:induction false} ActKeeps(c: Config, s: Tracker, accepted: set<nat>, op: Op)
    requires Kept(c, s, accepted) && NameOf(op) !! accepted
    ensures Kept(c, Act(c, s, op), accepted + NameOf(op))
    ensures Safe(s) && !(c.waitResponse && StoresNull(op)) ==> Safe(Act(c, s, op))
  {
    hide Kept, Safe, AddList, AddCumulative, Flush, FlushAndClean, Answer;
    assert op.FlushAll? || op.CleanAll? || op.AnswerTo? ==> accepted + NameOf(op) == accepted;
    match op
    case Ack(m, callback) => AddListKeeps(c, s, accepted, [m], callback);
    case AckList(ms, callback) => AddListKeeps(c, s, accepted, ms, callback);
    case AckCumulative(id, callback) => AddCumulativeKeeps(c, s, accepted, id, callback);
    case FlushAll => FlushKeeps(c, s, accepted);
    case CleanAll => FlushAndCleanKeeps(c, s, accepted);
    case AnswerTo(i, result) => if i < |s.env.requests| { AnswerToKeeps(c, s, accepted, i, result); }
  }

  // ----- Callbacks in every run -----

  /** Each call passes a callback of its own. */
  predicate DistinctNames(ops: seq<Op>) {
    forall i, j | 0 <= i < j < |ops| :: NameOf(ops[i]) !! NameOf(ops[j])
  }

  function Names(ops: seq<Op>): set<nat>
    decreases |ops|
  {
    if ops == [] then {} else Names(ops[..|ops| - 1]) + NameOf(ops[|ops| - 1])
  }

  lemma {:induction false} NamesBefore(ops: seq<Op>, i: nat, n: nat)
    requires DistinctNames(ops) && n <= i < |ops|
    ensures Names(ops[..n]) !! NameOf(ops[i])
    decreases n
  {
    if n > 0 {
      assert ops[..n][..n - 1] == ops[..n - 1];
      NamesBefore(ops, i, n - 1);
    }
  }

  lemma {:induction false} NamesContain(ops: seq<Op>, i: nat)
    requires i < |ops|
    ensures NameOf(ops[i]) <= Names(ops)
    decreases |ops|
  {
    if i < |ops| - 1 { NamesContain(ops[..|ops| - 1], i); }
  }

  predicate NoNullStored(c: Config, ops: seq<Op>) {
    c.waitResponse ==> forall i | 0 <= i < |ops| :: !StoresNull(ops[i])
  }

  lemma {:induction false} PlayKeeps(c: Config, ops: seq<Op>)
    requires DistinctNames(ops)
    ensures Kept(c, Play(c, ops), Names(ops))
    ensures NoNullStored(c, ops) ==> Safe(Play(c, ops))
    decreases |ops|
  {
    hide Kept, Safe, Act, DistinctNames;
    if ops == [] {
      KeptAtStart(c);
    } else {
      FrontIsDistinct(ops);
      var front := ops[..|ops| - 1];
      PlayKeeps(c, front);
      NamesBefore(ops, |ops| - 1, |ops| - 1);
      ActKeeps(c, Play(c, front), Names(front), ops[|ops| - 1]);
    }
  }

  lemma {:induction false} KeptAtStart(c: Config)
    ensures Kept(c, INIT, {}) && Safe(INIT)
  {
    assert forall x: nat :: Places(INIT, x) == 0;
  }

  lemma {:induction false} FrontIsDistinct(ops: seq<Op>)
    requires DistinctNames(ops) && ops != []
    ensures DistinctNames(ops[..|ops| - 1])
  {
  }

  /**
   In every run each callback that was passed in is in exactly one place: stored, behind a request or a
   countdown, called, or lost to the exception of an empty callback; so it is called at most once.
   */
  lemma {:induction false} CallbacksAreConserved(c: Config, ops: seq<Op>, x: nat)
    requires DistinctNames(ops)
    ensures Places(Play(c, ops), x) == if x in Names(ops) then 1 else 0
    ensures CountCalls(Play(c, ops).env.calls, x) <= 1
    ensures NoNullStored(c, ops) ==> Play(c, ops).env.lost == []
  {
    hide Play, Shape;
    PlayKeeps(c, ops);
  }

  // ----- What is sent -----

  /** Every query made in between found a connection. */
  ghost predicate ReadyThroughout(c: Config, s: Tracker, s': Tracker) {
    forall q | s.queries <= q < s'.queries :: c.connections(q).Ready?
  }

  function Singles(order: seq<Key>): (r: seq<Sent>)
    ensures |r| == |order| && forall i | 0 <= i < |order| :: r[i] == Individual(order[i])
  {
    seq(|order|, i requires 0 <= i < |order| => Individual(order[i]))
  }

  lemma {:induction false} ReadyAfter(c: Config, s: Tracker, first: Tracker, last: Tracker)
    requires ReadyThroughout(c, s, last) && first.queries == s.queries + 1 <= last.queries
    ensures c.connections(s.queries).Ready? && ReadyThroughout(c, first, last)
  {
  }

  lemma {:induction false} OfferEachSends(c: Config, s: Tracker, order: seq<Key>, closure: Closure)
    requires !OfferEach(c, s, order, closure).threw
    requires ReadyThroughout(c, s, OfferEach(c, s, order, closure).state)
    ensures OfferEach(c, s, order, closure).state.sent == s.sent + Singles(order)
    decreases |order|
  {
    hide Run, Throws, Singles, ReadyThroughout;
    if order == [] {
      assert Singles(order) == [] && s.sent + [] == s.sent;
    } else {
      var first := Offer(c, s, Individual(order[0]), closure).state;
      OfferEachFrame(c, first, order[1..], closure);
      ReadyAfter(c, s, first, OfferEach(c, s, order, closure).state);
      OfferEachSends(c, first, order[1..], closure);
      assert Singles(order) == [Individual(order[0])] + Singles(order[1..]);
    }
  }

  /** What one flush has to send. */
  ghost function ToSend(c: Config, s: Tracker): seq<Sent> {
    var asked := s.queries + if s.require then 1 else 0;
    (if s.require then [Cumulative(s.next)] else []) +
    (if s.pending == map[] then []
     else if c.connections(asked) == Ready(true) then [Multi(Expansion(s.pending))]
     else Singles(Ascending(Expansion(s.pending))))
  }

  lemma {:induction false} FlushIndividualSends(c: Config, s: Tracker)
    requires !FlushIndividual(c, s).threw && ReadyThroughout(c, s, FlushIndividual(c, s).state)
    ensures FlushIndividual(c, s).state.sent
         == s.sent + if s.pending == map[] then []
                     else if c.connections(s.queries) == Ready(true) then [Multi(Expansion(s.pending))]
                     else Singles(Ascending(Expansion(s.pending)))
  {
    hide Expansion, Run, Throws;
    if s.pending != map[] {
      var keys, closure := Expansion(s.pending), Group(s.callbacks);
      OfferAllFrame(c, s.(callbacks := []), keys, closure);
      if c.connections(s.queries) == Ready(false) {
        var counting := s.(callbacks := [], queries := s.queries + 1, env := AddCounter(s.env, |keys|, closure));
        OfferEachFrame(c, counting, Ascending(keys), PerId(|s.env.counters|));
        OfferEachSends(c, counting, Ascending(keys), PerId(|s.env.counters|));
      } else {
        assert c.connections(s.queries).Ready?;
      }
    }
  }

  lemma {:induction false} FlushIndividualFrame(c: Config, s: Tracker)
    ensures s.queries <= FlushIndividual(c, s).state.queries
  {
    hide Expansion, OfferAll;
    if s.pending != map[] { OfferAllFrame(c, s.(callbacks := []), Expansion(s.pending), Group(s.callbacks)); }
  }

  /** While there is a connection, a flush sends everything that is waiting, cumulative ack first. */
  lemma {:induction false} FlushSendsEverything(c: Config, s: Tracker)
    requires !Flush(c, s).threw && ReadyThroughout(c, s, Flush(c, s).state)
    ensures Flush(c, s).state.sent == s.sent + ToSend(c, s) && Flush(c, s).state.pending == map[]
  {
    hide Expansion, Run, Throws, OfferAll;
    var s1 := FlushCumulative(c, s);
    FlushIndividualFrame(c, s1);
    assert s.require ==> c.connections(s.queries).Ready?;
    FlushIndividualSends(c, s1);
  }

  // ----- Cumulative acks -----

  /** The cumulative acks added since the last clean. */
  ghost function Recent(c: Config, ops: seq<Op>): seq<MessageId>
    decreases |ops|
  {
    if ops == [] then []
    else
      var front, op := ops[..|ops| - 1], ops[|ops| - 1];
      if op.AckCumulative? then Recent(c, front) + [op.id]
      else if Cleaned(c, front, op) then []
      else Recent(c, front)
  }

  /** After `ops`, this call forgets what was acknowledged. */
  ghost predicate Cleaned(c: Config, ops: seq<Op>, op: Op) {
    op.CleanAll? && !FlushAndClean(c, Play(c, ops)).threw
  }

  ghost predicate Greatest(s: Tracker, recent: seq<MessageId>) {
    && Compare(EARLIEST, s.next) <= 0
    && (forall i | 0 <= i < |recent| :: Compare(recent[i], s.next) <= 0)
    && (s.next == EARLIEST || s.next in recent)
  }

  lemma {:induction false} FlushKeepsNext(c: Config, s: Tracker)
    ensures Flush(c, s).state.next == s.next
  {
    hide Expansion, OfferAll, Offer;
    var s1 := FlushCumulative(c, s);
    if s.require { OfferFrame(c, s, Cumulative(s.next), SingleClosure(s.latest)); }
    if s1.pending != map[] { OfferAllFrame(c, s1.(callbacks := []), Expansion(s1.pending), Group(s1.callbacks)); }
  }

  lemma {:induction false} OfferFrame(c: Config, s: Tracker, ack: Sent, closure: Closure)
    ensures SameFields(s, Offer(c, s, ack, closure).state)
  {
  }

  lemma {:induction false} ActKeepsGreatest(c: Config, s: Tracker, op: Op, recent: seq<MessageId>)
    requires Greatest(s, recent)
    ensures
      var recent' :=
        if op.AckCumulative? then recent + [op.id]
        else if op.CleanAll? && !FlushAndClean(c, s).threw then []
        else recent;
      Greatest(Act(c, s, op), recent')
  {
    hide Flush, Run, Answer, Compare, InsertAll;
    match op
    case AckCumulative(id, callback) =>
      forall i | 0 <= i < |recent| ensures Compare(id, s.next) > 0 ==> Compare(recent[i], id) <= 0 {
        CompareIsTotalPreorder(recent[i], s.next, id);
        CompareIsTotalPreorder(s.next, id, id);
      }
      CompareIsTotalPreorder(EARLIEST, s.next, id);
      CompareIsTotalPreorder(id, s.next, id);
    case Ack(m, callback) => FlushKeepsNext(c, Keep(c, s.(pending := InsertAll(s.pending, [m])), callback));
    case AckList(ms, callback) => FlushKeepsNext(c, Keep(c, s.(pending := InsertAll(s.pending, ms)), callback));
    case FlushAll => FlushKeepsNext(c, s);
    case CleanAll => FlushKeepsNext(c, s); CompareIsTotalPreorder(EARLIEST, EARLIEST, EARLIEST);
    case AnswerTo(_, _) =>
  }

  lemma {:induction false} PlayKeepsGreatest(c: Config, ops: seq<Op>)
    ensures Greatest(Play(c, ops), Recent(c, ops))
    decreases |ops|
  {
    hide Act, FlushAndClean;
    if ops == [] {
      CompareIsTotalPreorder(EARLIEST, EARLIEST, EARLIEST);
    } else {
      PlayKeepsGreatest(c, ops[..|ops| - 1]);
      ActKeepsGreatest(c, Play(c, ops[..|ops| - 1]), ops[|ops| - 1], Recent(c, ops[..|ops| - 1]));
    }
  }

  /**
   In every run, exactly the ids at or below some cumulative ack since the last clean, those at or below
   the earliest id, which no real message has, and those waiting to be sent count as duplicates.
   */
  lemma {:induction false} DuplicatesAreExact(c: Config, ops: seq<Op>, m: MessageId)
    ensures
      var s, recent := Play(c, ops), Recent(c, ops);
      var acked := exists i :: 0 <= i < |recent| && Compare(m, recent[i]) <= 0;
      && (IsDuplicate(s, m) <==> Compare(m, EARLIEST) <= 0 || acked || KeyOf(m) in s.pending)
      && (m.ledgerId >= 0 ==> (IsDuplicate(s, m) <==> acked || KeyOf(m) in s.pending))
  {
    hide Play, Recent;
    PlayKeepsGreatest(c, ops);
    var s, recent := Play(c, ops), Recent(c, ops);
    if Compare(m, s.next) <= 0 && s.next != EARLIEST {
      var i :| 0 <= i < |recent| && recent[i] == s.next;
      assert Compare(m, recent[i]) <= 0;
    }
    forall i | 0 <= i < |recent| ensures Compare(m, recent[i]) <= 0 ==> Compare(m, s.next) <= 0 {
      CompareIsTotalPreorder(m, recent[i], s.next);
    }
    CompareIsTotalPreorder(m, EARLIEST, s.next);
  }

  /** From position `from` on, the cumulative ids sent go up, and none reaches one still to be sent. */
  ghost predicate Rising(s: Tracker, from: nat) {
    && from <= |s.sent|
    && (forall i, j | from <= i < j < |s.sent| && s.sent[i].Cumulative? && s.sent[j].Cumulative? ::
          Compare(s.sent[i].id, s.sent[j].id) < 0)
    && (forall i | from <= i < |s.sent| && s.sent[i].Cumulative? ::
          if s.require then Compare(s.sent[i].id, s.next) < 0 else Compare(s.sent[i].id, s.next) <= 0)
  }

  /** What was added are no cumulative acks. */
  ghost predicate NoneCumulative(before: seq<Sent>, after: seq<Sent>) {
    before <= after && forall i | |before| <= i < |after| :: !after[i].Cumulative?
  }

  lemma {:induction false} OfferEachSendsNoCumulative(c: Config, s: Tracker, order: seq<Key>, closure: Closure)
    ensures NoneCumulative(s.sent, OfferEach(c, s, order, closure).state.sent)
    decreases |order|
  {
    hide Run, Throws;
    if order != [] {
      OfferEachSendsNoCumulative(c, Offer(c, s, Individual(order[0]), closure).state, order[1..], closure);
    }
  }

  lemma {:induction false} FlushIndividualSendsNoCumulative(c: Config, s: Tracker)
    ensures NoneCumulative(s.sent, FlushIndividual(c, s).state.sent)
    ensures FlushIndividual(c, s).state.next == s.next && FlushIndividual(c, s).state.require == s.require
  {
    hide Expansion, Run, Throws;
    if s.pending != map[] {
      var keys, closure := Expansion(s.pending), Group(s.callbacks);
      var counting := s.(callbacks := [], queries := s.queries + 1, env := AddCounter(s.env, |keys|, closure));
      OfferAllFrame(c, s.(callbacks := []), keys, closure);
      OfferEachSendsNoCumulative(c, counting, Ascending(keys), PerId(|s.env.counters|));
    }
  }

  lemma {:induction false} FlushRises(c: Config, s: Tracker, from: nat)
    requires Rising(s, from)
    ensures Rising(Flush(c, s).state, from) && s.sent <= Flush(c, s).state.sent
  {
    hide FlushIndividual, Compare, Run, Throws;
    var s1 := FlushCumulative(c, s);
    CompareIsTotalPreorder(s.next, s.next, s.next);
    assert s1.sent == s.sent || s1.sent == s.sent + [Cumulative(s.next)];
    assert Rising(s1, from);
    FlushIndividualSendsNoCumulative(c, s1);
  }

  lemma {:induction false} ActRises(c: Config, s: Tracker, op: Op, from: nat)
    requires Rising(s, from)
    ensures
      var s' := Act(c, s, op);
      && from <= |s.sent| && s.sent <= s'.sent
      && Rising(s', if op.CleanAll? && !FlushAndClean(c, s).threw then |s'.sent| else from)
      && (op.CleanAll? ==> Rising(Flush(c, s).state, from) && s'.sent == Flush(c, s).state.sent)
  {
    hide Flush, Run, Answer, Compare, InsertAll;
    match op
    case AckCumulative(id, callback) =>
      forall i | from <= i < |s.sent| && s.sent[i].Cumulative?
        ensures Compare(id, s.next) > 0 ==> Compare(s.sent[i].id, id) < 0
      {
        CompareIsTotalPreorder(s.sent[i].id, s.next, id);
        CompareIsTotalPreorder(s.next, id, id);
      }
    case Ack(m, callback) => FlushRises(c, Keep(c, s.(pending := InsertAll(s.pending, [m])), callback), from);
    case AckList(ms, callback) => FlushRises(c, Keep(c, s.(pending := InsertAll(s.pending, ms)), callback), from);
    case FlushAll => FlushRises(c, s, from);
    case CleanAll => FlushRises(c, s, from);
    case AnswerTo(_, _) =>
  }

  /** The positions among the acks sent at which a clean happened. */
  ghost function Cleans(c: Config, ops: seq<Op>): set<nat>
    decreases |ops|
  {
    if ops == [] then {}
    else
      var front, op := ops[..|ops| - 1], ops[|ops| - 1];
      Cleans(c, front) + if Cleaned(c, front, op) then {|Play(c, ops).sent|} else {}
  }

  ghost function LastClean(c: Config, ops: seq<Op>): nat
    decreases |ops|
  {
    if ops == [] then 0
    else if Cleaned(c, ops[..|ops| - 1], ops[|ops| - 1]) then |Play(c, ops).sent|
    else LastClean(c, ops[..|ops| - 1])
  }

  /** Two cumulative acks with no clean between them were sent in ascending order. */
  ghost predicate RisesBetween(sent: seq<Sent>, cleans: set<nat>) {
    forall i, j | 0 <= i < j < |sent| && sent[i].Cumulative? && sent[j].Cumulative? && !Between(i, j, cleans) ::
      Compare(sent[i].id, sent[j].id) < 0
  }

  ghost predicate Between(i: nat, j: nat, cleans: set<nat>) {
    exists p :: p in cleans && i < p <= j
  }

  lemma {:induction false} FewerBetween(i: nat, j: nat, cleans: set<nat>, cleans': set<nat>)
    requires cleans <= cleans' && !Between(i, j, cleans')
    ensures !Between(i, j, cleans)
  {
  }

  lemma {:induction false} NotThisOne(i: nat, j: nat, p: nat, cleans: set<nat>)
    requires p in cleans && !Between(i, j, cleans)
    ensures !(i < p <= j)
  {
  }

  lemma {:induction false} RisesOn(s: Tracker, s': Tracker, cleans: set<nat>, cleans': set<nat>, from: nat)
    requires RisesBetween(s.sent, cleans) && s.sent <= s'.sent && cleans <= cleans'
    requires Rising(s', from) && (from == 0 || from in cleans) && from <= |s.sent|
    ensures RisesBetween(s'.sent, cleans')
  {
    hide Compare, Between;
    forall i, j | 0 <= i < j < |s'.sent| && s'.sent[i].Cumulative? && s'.sent[j].Cumulative? && !Between(i, j, cleans')
      ensures Compare(s'.sent[i].id, s'.sent[j].id) < 0
    {
      FewerBetween(i, j, cleans, cleans');
      if j < |s.sent| {
        assert s.sent[i] == s'.sent[i] && s.sent[j] == s'.sent[j];
      } else if from in cleans {
        NotThisOne(i, j, from, cleans);
      }
    }
  }

  /** In every run the cumulative ids sent strictly increase, as long as nothing is cleaned between them. */
  lemma {:induction false} CumulativeAcksRise(c: Config, ops: seq<Op>)
    ensures RisesBetween(Play(c, ops).sent, Cleans(c, ops))
    ensures Rising(Play(c, ops), LastClean(c, ops)) && (LastClean(c, ops) == 0 || LastClean(c, ops) in Cleans(c, ops))
    decreases |ops|
  {
    hide Act, RisesBetween, Rising, FlushAndClean, Flush;
    if ops == [] {
      NothingRises();
    } else {
      var front, op := ops[..|ops| - 1], ops[|ops| - 1];
      var s, from := Play(c, front), LastClean(c, front);
      CumulativeAcksRise(c, front);
      ActRises(c, s, op, from);
      if op.CleanAll? {
        RisesOn(s, Flush(c, s).state, Cleans(c, front), Cleans(c, ops), from);
      } else {
        RisesOn(s, Play(c, ops), Cleans(c, front), Cleans(c, ops), from);
      }
    }
  }

  lemma {:induction false} NothingRises()
    ensures RisesBetween(INIT.sent, {}) && Rising(INIT, 0)
  {
  }


  // ----- Who calls back, and with which result -----

  lemma {:induction false} OfferEachCalls(c: Config, s: Tracker, order: seq<Key>, closure: Closure)
    requires c.waitResponse
    ensures
      var r := OfferEach(c, s, order, closure);
      && CalledWith(s.env.calls, r.state.env.calls, AlreadyClosed)
      && (ReadyThroughout(c, s, r.state) ==> r.state.env.calls == s.env.calls && !r.threw)
    decreases |order|
  {
    hide Run, Throws, CalledWith;
    CalledNobody(s.env.calls, AlreadyClosed);
    if order != [] {
      var first := Offer(c, s, Individual(order[0]), closure);
      RunCalls(s.env, closure, AlreadyClosed);
      if !first.threw {
        OfferEachFrame(c, first.state, order[1..], closure);
        OfferEachCalls(c, first.state, order[1..], closure);
        var r := OfferEach(c, s, order, closure).state;
        CalledOn(s.env.calls, first.state.env.calls, r.env.calls, AlreadyClosed);
        if ReadyThroughout(c, s, r) { assert c.connections(s.queries).Ready?; }
      } else {
        assert c.connections(s.queries).NotReady?;
      }
    }
  }

  lemma {:induction false} FlushIndividualCalls(c: Config, s: Tracker)
    requires c.waitResponse
    ensures
      var r := FlushIndividual(c, s);
      && CalledWith(s.env.calls, r.state.env.calls, AlreadyClosed)
      && (ReadyThroughout(c, s, r.state) ==> r.state.env.calls == s.env.calls && !r.threw)
  {
    hide Run, Throws, CalledWith, Expansion, OfferEach;
    CalledNobody(s.env.calls, AlreadyClosed);
    if s.pending != map[] {
      var keys, closure := Expansion(s.pending), Group(s.callbacks);
      if c.connections(s.queries) == Ready(false) {
        var counting := s.(callbacks := [], queries := s.queries + 1, env := AddCounter(s.env, |keys|, closure));
        OfferEachCalls(c, counting, Ascending(keys), PerId(|s.env.counters|));
      } else {
        RunCalls(s.env, closure, AlreadyClosed);
        if ReadyThroughout(c, s, FlushIndividual(c, s).state) { assert c.connections(s.queries).Ready?; }
      }
    }
  }

  /** A flush itself calls back only for want of a connection. */
  lemma {:induction false} FlushCalls(c: Config, s: Tracker)
    requires c.waitResponse
    ensures
      var r := Flush(c, s);
      && CalledWith(s.env.calls, r.state.env.calls, AlreadyClosed)
      && (ReadyThroughout(c, s, r.state) ==> r.state.env.calls == s.env.calls && !r.threw)
  {
    hide Run, Throws, CalledWith, FlushIndividual;
    var s1 := FlushCumulative(c, s);
    CalledNobody(s.env.calls, AlreadyClosed);
    RunCalls(s.env, SingleClosure(s.latest), AlreadyClosed);
    FlushIndividualFrame(c, s1);
    FlushIndividualCalls(c, s1);
    CalledOn(s.env.calls, s1.env.calls, Flush(c, s).state.env.calls, AlreadyClosed);
    if s.require && ReadyThroughout(c, s, Flush(c, s).state) { assert c.connections(s.queries).Ready?; }
  }

  /** The calls that one step makes, when answers are waited for. */
  ghost predicate CallsHaveAReason(c: Config, s: Tracker, op: Op) {
    var s' := Act(c, s, op);
    match op
    case AnswerTo(_, result) => CalledWith(s.env.calls, s'.env.calls, result)
    case AckCumulative(_, callback) =>
      && CalledWith(s.env.calls, s'.env.calls, ResultOk)
      && CalledAmong(s.env.calls, s'.env.calls, Named(s.latest) + Named(callback))
    case _ =>
      && CalledWith(s.env.calls, s'.env.calls, AlreadyClosed)
      && (ReadyThroughout(c, s, s') ==> s'.env.calls == s.env.calls)
  }

  /** Only these were called in between. */
  ghost predicate CalledAmong(before: seq<Call>, after: seq<Call>, names: set<nat>) {
    before <= after && forall i | |before| <= i < |after| :: after[i].c in names
  }

  lemma {:induction false} ActCalls(c: Config, s: Tracker, op: Op)
    requires c.waitResponse
    ensures CallsHaveAReason(c, s, op)
  {
    hide Flush, CalledWith, Compare, InsertAll;
    CalledNobody(s.env.calls, AlreadyClosed);
    match op
    case AnswerTo(i, result) =>
      CalledNobody(s.env.calls, result);
      if i < |s.env.requests| {
        RunCalls(s.env.(requests := s.env.requests[i := Nothing]), s.env.requests[i], result);
      }
    case AckCumulative(id, callback) =>
      RunCalls(s.env, SingleClosure(callback), ResultOk);
      RunCalls(s.env, SingleClosure(s.latest), ResultOk);
    case Ack(m, callback) => FlushCalls(c, Keep(c, s.(pending := InsertAll(s.pending, [m])), callback));
    case AckList(ms, callback) => FlushCalls(c, Keep(c, s.(pending := InsertAll(s.pending, ms)), callback));
    case FlushAll => FlushCalls(c, s);
    case CleanAll => FlushCalls(c, s);
  }

  ghost predicate PassedAt(ops: seq<Op>, j: int, x: nat, cumulative: bool) {
    && 0 <= j < |ops| && x in NameOf(ops[j]) && (ops[j].AckCumulative? <==> cumulative)
  }

  ghost predicate Passed(ops: seq<Op>, x: nat, cumulative: bool) {
    exists j :: PassedAt(ops, j, x, cumulative)
  }

  lemma {:induction false} PassedOn(ops: seq<Op>, x: nat, cumulative: bool)
    requires ops != [] && Passed(ops[..|ops| - 1], x, cumulative)
    ensures Passed(ops, x, cumulative)
  {
    var j :| PassedAt(ops[..|ops| - 1], j, x, cumulative);
    assert PassedAt(ops, j, x, cumulative);
  }

  lemma {:induction false} FlushForgetsLatest(c: Config, s: Tracker)
    ensures Flush(c, s).state.latest == None || Flush(c, s).state.latest == s.latest
  {
    hide Expansion, OfferAll, Run, Throws;
    var s1 := FlushCumulative(c, s);
    if s1.pending != map[] { OfferAllFrame(c, s1.(callbacks := []), Expansion(s1.pending), Group(s1.callbacks)); }
  }

  lemma {:induction false} ActLatest(c: Config, s: Tracker, op: Op)
    ensures
      var latest := Act(c, s, op).latest;
      latest == None || latest == s.latest || (op.AckCumulative? && latest == op.callback)
  {
    hide Flush, Compare, Run, Answer, InsertAll;
    match op
    case AnswerTo(_, _) =>
    case AckCumulative(_, _) =>
    case Ack(m, callback) => FlushForgetsLatest(c, Keep(c, s.(pending := InsertAll(s.pending, [m])), callback));
    case AckList(ms, callback) => FlushForgetsLatest(c, Keep(c, s.(pending := InsertAll(s.pending, ms)), callback));
    case FlushAll => FlushForgetsLatest(c, s);
    case CleanAll => FlushForgetsLatest(c, s);
  }

  /** The callback waiting for the cumulative ack was passed with a cumulative ack. */
  lemma {:induction false} LatestIsCumulative(c: Config, ops: seq<Op>)
    ensures forall x | x in Named(Play(c, ops).latest) :: Passed(ops, x, true)
    decreases |ops|
  {
    hide Act;
    if ops != [] {
      var front, n := ops[..|ops| - 1], |ops| - 1;
      LatestIsCumulative(c, front);
      ActLatest(c, Play(c, front), ops[n]);
      forall x | x in Named(Play(c, ops).latest) ensures Passed(ops, x, true) {
        if x in Named(Play(c, front).latest) { PassedOn(ops, x, true); } else { assert PassedAt(ops, n, x, true); }
      }
    }
  }

  lemma {:induction false} NotPassedTwice(ops: seq<Op>, x: nat)
    requires DistinctNames(ops)
    ensures !(Passed(ops, x, true) && Passed(ops, x, false))
  {
  }

  lemma {:induction false} CalledIsCounted(calls: seq<Call>, i: nat)
    requires i < |calls|
    ensures CountCalls(calls, calls[i].c) > 0
    decreases |calls|
  {
    if i > 0 { CalledIsCounted(calls[1..], i - 1); }
  }

  lemma {:induction false} NamesArePassed(ops: seq<Op>, x: nat)
    requires x in Names(ops)
    ensures Passed(ops, x, true) || Passed(ops, x, false)
    decreases |ops|
  {
    var front, n := ops[..|ops| - 1], |ops| - 1;
    if x in Names(front) {
      NamesArePassed(front, x);
      if Passed(front, x, true) { PassedOn(ops, x, true); } else { PassedOn(ops, x, false); }
    } else {
      assert PassedAt(ops, n, x, ops[n].AckCumulative?);
    }
  }

  /** The i-th call of a run is made by its j-th step. */
  ghost predicate MadeBy(c: Config, ops: seq<Op>, i: nat, j: int) {
    0 <= j < |ops| && |Play(c, ops[..j]).env.calls| <= i < |Play(c, ops[..j + 1]).env.calls|
  }

  /** What lets a step call the callback of an individual ack with this result. */
  ghost predicate Reason(c: Config, ops: seq<Op>, j: int, result: Result)
    requires 0 <= j < |ops|
  {
    if ops[j].AnswerTo? then result == ops[j].result
    else
      && !ops[j].AckCumulative? && result == AlreadyClosed
      && !ReadyThroughout(c, Play(c, ops[..j]), Play(c, ops[..j + 1]))
  }

  lemma {:induction false} LastStepHasAReason(c: Config, ops: seq<Op>, i: nat)
    requires c.waitResponse && DistinctNames(ops) && ops != []
    requires |Play(c, ops[..|ops| - 1]).env.calls| <= i < |Play(c, ops).env.calls|
    requires Passed(ops, Play(c, ops).env.calls[i].c, false)
    ensures MadeBy(c, ops, i, |ops| - 1) && Reason(c, ops, |ops| - 1, Play(c, ops).env.calls[i].result)
  {
    hide Act, DistinctNames;
    var front, n, s' := ops[..|ops| - 1], |ops| - 1, Play(c, ops);
    assert ops[..n + 1] == ops;
    ActCalls(c, Play(c, front), ops[n]);
    if ops[n].AckCumulative? {
      var x := s'.env.calls[i].c;
      LatestIsCumulative(c, front);
      if x in Named(Play(c, front).latest) { PassedOn(ops, x, true); } else { assert PassedAt(ops, n, x, true); }
      NotPassedTwice(ops, x);
      assert false;
    }
  }

  lemma {:induction false} CallsOnlyGrow(c: Config, ops: seq<Op>)
    requires c.waitResponse && ops != []
    ensures Play(c, ops[..|ops| - 1]).env.calls <= Play(c, ops).env.calls
  {
    hide Act;
    ActCalls(c, Play(c, ops[..|ops| - 1]), ops[|ops| - 1]);
  }

  /**
   When answers are waited for, every call of the callback of an individual ack is made by an answer from
   the broker and passes its result on, or by a flush that found no connection and says so. In
   particular, it is called with success only when the broker has answered with success.
   */
  lemma {:induction false} IndividualCallbacksWaitForTheAnswer(c: Config, ops: seq<Op>, i: nat)
    requires c.waitResponse && DistinctNames(ops) && i < |Play(c, ops).env.calls|
    requires Passed(ops, Play(c, ops).env.calls[i].c, false)
    ensures exists j :: MadeBy(c, ops, i, j) && Reason(c, ops, j, Play(c, ops).env.calls[i].result)
    decreases |ops|
  {
    hide Play, DistinctNames;
    EmptyRun(c, ops);
    var front, calls := ops[..|ops| - 1], Play(c, ops).env.calls;
    CallsOnlyGrow(c, ops);
    if |Play(c, front).env.calls| <= i {
      LastStepHasAReason(c, ops, i);
    } else {
      FrontIsDistinct(ops);
      CallbacksAreConserved(c, front, calls[i].c);
      CalledIsCounted(Play(c, front).env.calls, i);
      NamesArePassed(front, calls[i].c);
      PassedInFront(ops, calls[i].c);
      IndividualCallbacksWaitForTheAnswer(c, front, i);
      var j :| MadeBy(c, front, i, j) && Reason(c, front, j, calls[i].result);
      assert front[..j] == ops[..j] && front[..j + 1] == ops[..j + 1];
      assert MadeBy(c, ops, i, j) && Reason(c, ops, j, calls[i].result);
    }
  }

  lemma {:induction false} EmptyRun(c: Config, ops: seq<Op>)
    requires |Play(c, ops).env.calls| > 0
    ensures ops != []
  {
  }

  lemma {:induction false} PassedInFront(ops: seq<Op>, x: nat)
    requires DistinctNames(ops) && ops != [] && Passed(ops, x, false)
    requires var front := ops[..|ops| - 1]; Passed(front, x, true) || Passed(front, x, false)
    ensures Passed(ops[..|ops| - 1], x, false)
  {
    var front := ops[..|ops| - 1];
    if Passed(front, x, true) {
      PassedOn(ops, x, true);
      NotPassedTwice(ops, x);
      assert false;
    }
  }

  /** In every run, a flush with a connection sends everything that is waiting and calls nobody too early. */
  lemma {:induction false} ConnectedFlush(c: Config, ops: seq<Op>)
    requires DistinctNames(ops) && ReadyThroughout(c, Play(c, ops), Flush(c, Play(c, ops)).state)
    ensures
      var s, r := Play(c, ops), Flush(c, Play(c, ops));
      && !r.threw && r.state.pending == map[] && r.state.sent == s.sent + ToSend(c, s)
      && (c.waitResponse ==> r.state.env.calls == s.env.calls)
  {
    hide Play, Flush, Kept, ToSend;
    var s := Play(c, ops);
    PlayKeeps(c, ops);
    FlushKeeps(c, s, Names(ops));
    if c.waitResponse { FlushCalls(c, s); }
    FlushSendsEverything(c, s);
  }

  /**
   A run that loses a callback: an ack with an empty callback, one with another, a flush and the broker's
   success. The second callback was stored and is never called.
   */
  lemma {:induction false} EmptyCallbackLosesTheNext(a: AckId, b: AckId, x: nat)
    ensures
      var c := Config(true, 0, _ => Ready(true));
      var ops := [Ack(a, None), Ack(b, Some(x)), FlushAll, AnswerTo(0, ResultOk)];
      var s := Play(c, ops);
      DistinctNames(ops) && s.env.calls == [] && s.env.lost == [x] && Places(s, x) == 1
  {
    hide Play, Places;
    var c := Config(true, 0, _ => Ready(true));
    var ops := [Ack(a, None), Ack(b, Some(x)), FlushAll, AnswerTo(0, ResultOk)];
    AfterFlush(c, a, b, x);
    var three := [Ack(a, None), Ack(b, Some(x)), FlushAll];
    PlayOne(c, three, AnswerTo(0, ResultOk));
    assert three + [AnswerTo(0, ResultOk)] == ops;
    LoseOne(Play(c, three), x);
    NamesContain(ops, 1);
    CallbacksAreConserved(c, ops, x);
  }

  lemma {:induction false} AfterAcks(c: Config, a: AckId, b: AckId, x: nat)
    requires c.waitResponse && c.maxSize == 0
    ensures
      var s := Play(c, [Ack(a, None), Ack(b, Some(x))]);
      s.callbacks == [None, Some(x)] && s.env == INIT.env && !s.require && s.queries == 0 && s.pending != map[]
  {
    hide Play, Act;
    EmptyPlay(c);
    PlayOne(c, [], Ack(a, None));
    PlayOne(c, [Ack(a, None)], Ack(b, Some(x)));
    assert [] + [Ack(a, None)] == [Ack(a, None)];
    assert [Ack(a, None)] + [Ack(b, Some(x))] == [Ack(a, None), Ack(b, Some(x))];
    StoreOne(c, INIT, a, None);
    StoreOne(c, Play(c, [Ack(a, None)]), b, Some(x));
  }

  lemma {:induction false} AfterFlush(c: Config, a: AckId, b: AckId, x: nat)
    requires c.waitResponse && c.maxSize == 0 && c.connections(0) == Ready(true)
    ensures Play(c, [Ack(a, None), Ack(b, Some(x)), FlushAll]).env == Env([Group([None, Some(x)])], [], [], [])
  {
    hide Play, Act;
    var two := [Ack(a, None), Ack(b, Some(x))];
    AfterAcks(c, a, b, x);
    PlayOne(c, two, FlushAll);
    assert two + [FlushAll] == [Ack(a, None), Ack(b, Some(x)), FlushAll];
    FlushStored(c, Play(c, two));
  }

  lemma {:induction false} EmptyPlay(c: Config)
    ensures Play(c, []) == INIT
  {
  }

  lemma {:induction false} PlayOne(c: Config, ops: seq<Op>, op: Op)
    ensures Play(c, ops + [op]) == Act(c, Play(c, ops), op)
  {
    assert (ops + [op])[..|ops|] == ops;
  }

  lemma {:induction false} StoreOne(c: Config, s: Tracker, m: AckId, callback: Callback)
    requires c.waitResponse && c.maxSize == 0
    ensures
      var pending := Insert(s.pending, m);
      pending != map[] && Act(c, s, Ack(m, callback)) == s.(pending := pending, callbacks := s.callbacks + [callback])
  {
    assert InsertAll(s.pending, [m]) == InsertAll(Insert(s.pending, m), [m][1..]);
    assert KeyOf(m.id) in Insert(s.pending, m);
  }

  lemma {:induction false} FlushStored(c: Config, s: Tracker)
    requires c.waitResponse && c.connections(s.queries) == Ready(true) && !s.require && s.pending != map[]
    ensures Act(c, s, FlushAll).env == AddRequest(s.env, Group(s.callbacks))
  {
    hide Expansion;
  }

  lemma {:induction false} LoseOne(s: Tracker, x: nat)
    requires s.env == Env([Group([None, Some(x)])], [], [], [])
    ensures Answer(s.env, 0, ResultOk).calls == [] && Answer(s.env, 0, ResultOk).lost == [x]
  {
    var cbs: seq<Callback> := [None, Some(x)];
    assert cbs[1..] == [Some(x)] && NonNull([Some(x)]) == [x];
    assert NonNull(cbs) == [x];
  }

  lemma {:induction false} FlushEmptiesPending(c: Config, s: Tracker)
    requires !Flush(c, s).threw
    ensures Flush(c, s).state.pending == map[]
  {
    hide OfferAll, Expansion, FlushCumulative;
  }

  lemma {:induction false} ActStaysSmall(c: Config, s: Tracker, accepted: set<nat>, op: Op)
    requires c.maxSize > 0 && |s.pending| < c.maxSize
    requires Kept(c, s, accepted) && Safe(s) && NameOf(op) !! accepted && !(c.waitResponse && StoresNull(op))
    ensures |Act(c, s, op).pending| < c.maxSize
  {
    hide Flush, Conserved, Shape, Safe, Answer, Run, Compare;
    match op
    case AnswerTo(_, _) =>
    case AckCumulative(_, _) =>
    case Ack(m, callback) => AddListStaysSmall(c, s, accepted, [m], callback);
    case AckList(ms, callback) => AddListStaysSmall(c, s, accepted, ms, callback);
    case FlushAll => FlushKeeps(c, s, accepted); FlushEmptiesPending(c, s);
    case CleanAll => FlushKeeps(c, s, accepted);
  }

  lemma {:induction false} AddListStaysSmall(
    c: Config, s: Tracker, accepted: set<nat>, ms: seq<AckId>, callback: Callback)
    requires c.maxSize > 0 && Kept(c, s, accepted) && Safe(s)
    requires Named(callback) !! accepted && (c.waitResponse ==> callback.Some?)
    ensures |AddList(c, s, ms, callback).state.pending| < c.maxSize
  {
    hide Flush, Conserved, Shape, Safe, InsertAll;
    var s1 := s.(pending := InsertAll(s.pending, ms));
    var s2 := Keep(c, s1, callback);
    PendingDoesNotMatter(c, s, accepted, s1.pending);
    KeepKeeps(c, s1, accepted, callback);
    FlushKeeps(c, s2, accepted + Named(callback));
    if |s2.pending| >= c.maxSize { FlushEmptiesPending(c, s2); }
  }

  /** In every run without empty callbacks, fewer ids than a full group are waiting. */
  lemma {:induction false} GroupsStaySmall(c: Config, ops: seq<Op>)
    requires c.maxSize > 0 && DistinctNames(ops) && NoNullStored(c, ops)
    ensures |Play(c, ops).pending| < c.maxSize
    decreases |ops|
  {
    hide Kept, Safe, Act, DistinctNames;
    if ops != [] {
      var front, n := ops[..|ops| - 1], |ops| - 1;
      FrontIsDistinct(ops);
      GroupsStaySmall(c, front);
      PlayKeeps(c, front);
      NamesBefore(ops, n, n);
      ActStaysSmall(c, Play(c, front), Names(front), ops[n]);
    }
  }

  /**
   In every run, a newer cumulative ack calls the callback of the one it supersedes with success, which is
   the only call that callback ever gets.
   */
  lemma {:induction false} SupersededCallbackIsCalledOnce(
    c: Config, ops: seq<Op>, id: MessageId, callback: Callback, x: nat, later: seq<Op>)
    requires Play(c, ops).latest == Some(x) && Compare(id, Play(c, ops).next) > 0
    requires DistinctNames(ops + [AckCumulative(id, callback)] + later)
    ensures
      var before, after := Play(c, ops), Play(c, ops + [AckCumulative(id, callback)]);
      && |before.env.calls| < |after.env.calls| && after.env.calls[|before.env.calls|] == Call(x, ResultOk)
      && CountCalls(before.env.calls, x) == 0 && CountCalls(after.env.calls, x) == 1
      && CountCalls(Play(c, ops + [AckCumulative(id, callback)] + later).env.calls, x) <= 1
  {
    hide Play, DistinctNames;
    var op := AckCumulative(id, callback);
    var before, after := Play(c, ops), Play(c, ops + [op]);
    PlayOne(c, ops, op);
    DistinctPrefix(ops + [op] + later, ops);
    DistinctPrefix(ops + [op] + later, ops + [op]);
    CallbacksAreConserved(c, ops, x);
    CallbacksAreConserved(c, ops + [op], x);
    CallbacksAreConserved(c, ops + [op] + later, x);
    CalledIsCounted(after.env.calls, |before.env.calls|);
  }

  lemma {:induction false} DistinctPrefix(ops: seq<Op>, front: seq<Op>)
    requires DistinctNames(ops) && front <= ops
    ensures DistinctNames(front)
  {
    assert forall i | 0 <= i < |front| :: front[i] == ops[i];
  }
}
