/**
 The tracker object: its methods change its fields step by step, and each is proved to do exactly what
 the specification of the call says.
 */
module AckGroupingTrackers {
  import opened MessageIds
  import opened Options
  import opened AckCallbacks
  import Spec = AckTracker

  type AckId = Spec.AckId
  type Sent = Spec.Sent

  /** The entries of the ids, all chunks of chunked ones included. */
  method Expand(pending: map<Key, AckId>) returns (keys: set<Key>)
    ensures keys == Spec.Expansion(pending)
  {
    keys := {};
    var todo := pending.Keys;
    while todo != {}
      invariant todo <= pending.Keys
      invariant keys == set k, x | k in pending && k !in todo && x in Spec.KeysOf(pending[k]) :: x
      decreases |todo|
    {
      var k :| k in todo;
      keys := keys + Spec.KeysOf(pending[k]);
      todo := todo - {k};
    }
  }

  class AckGroupingTracker {
    const config: Spec.Config
    var nextCumulativeAck: MessageId
    var requireCumulativeAck: bool
    var latestCumulativeCallback: Callback
    var pendingAcks: map<Key, AckId>
    var pendingCallbacks: seq<Callback>
    /** Outside the tracker: callbacks on their way, acks sent, and queries for a connection. */
    var env: Env
    var sent: seq<Sent>
    var queries: nat

    ghost function State(): Spec.Tracker reads this {
      Spec.Tracker(nextCumulativeAck, requireCumulativeAck, latestCumulativeCallback, pendingAcks, pendingCallbacks,
                   env, sent, queries)
    }

    constructor (config: Spec.Config)
      ensures this.config == config && State() == Spec.INIT
    {
      this.config := config;
      nextCumulativeAck, requireCumulativeAck, latestCumulativeCallback := EARLIEST, false, None;
      pendingAcks, pendingCallbacks := map[], [];
      env, sent, queries := Env([], [], [], []), [], 0;
    }

    method IsDuplicate(m: MessageId) returns (duplicate: bool)
      ensures duplicate == Spec.IsDuplicate(State(), m)
    {
      if Compare(m, nextCumulativeAck) <= 0 {
        return true;
      }
      duplicate := KeyOf(m) in pendingAcks;
    }

    /** The body of the function that completes a group. */
    method CallAll(callbacks: seq<Callback>, result: Result) returns (threw: bool)
      modifies `env
      ensures env == RunGroup(old(env), callbacks, result) && threw == HasNull(callbacks)
    {
      for i := 0 to |callbacks|
        invariant RunGroup(env, callbacks[i..], result) == RunGroup(old(env), callbacks, result)
        invariant !HasNull(callbacks[..i])
      {
        assert callbacks[i..][0] == callbacks[i] && callbacks[i..][1..] == callbacks[i + 1..];
        if callbacks[i].None? {
          env := env.(lost := env.lost + NonNull(callbacks[i..]));
          return true;
        }
        env := env.(calls := env.calls + [Call(callbacks[i].value, result)]);
      }
      assert callbacks[..|callbacks|] == callbacks;
      threw := false;
    }

    method CallTarget(target: Closure, result: Result) returns (threw: bool)
      modifies `env
      ensures env == RunTarget(old(env), target, result) && threw == TargetThrows(target)
    {
      hide HasNull, RunGroup;
      threw := false;
      match target
      case User(c) => env := env.(calls := env.calls + [Call(c, result)]);
      case Group(callbacks) => threw := CallAll(callbacks, result);
      case _ =>
    }

    /** Calls a closure; a per-id ack calls its group only when it takes the countdown to zero. */
    method Invoke(closure: Closure, result: Result) returns (threw: bool)
      modifies `env
      ensures env == Run(old(env), closure, result) && threw == Throws(old(env), closure)
    {
      hide HasNull, RunTarget;
      threw := false;
      if closure.PerId? && closure.counter < |env.counters| {
        var counter := env.counters[closure.counter];
        counter := counter.(left := counter.left - 1);
        env := env.(counters := env.counters[closure.counter := counter]);
        if counter.left == 0 {
          threw := CallTarget(counter.target, result);
        }
      } else {
        threw := CallTarget(closure, result);
      }
    }

    /** Sends one ack command, or completes it at once if there is no connection or no answer to wait for. */
    method SendAck(ack: Sent, closure: Closure) returns (threw: bool)
      modifies `env, `sent, `queries
      ensures Spec.Outcome(State(), threw) == Spec.Offer(config, old(State()), ack, closure)
    {
      hide Run, Throws;
      var connection := config.connections(queries);
      queries := queries + 1;
      if connection.NotReady? {
        threw := Invoke(closure, AlreadyClosed);
        return;
      }
      sent := sent + [ack];
      if config.waitResponse {
        env := AddRequest(env, closure);
        threw := false;
      } else {
        threw := Invoke(closure, ResultOk);
      }
    }

    /** Sends one ack for each entry, in the order of the ids. */
    method SendEach(keys: set<Key>, closure: Closure) returns (threw: bool)
      modifies `env, `sent, `queries
      ensures Spec.Outcome(State(), threw) == Spec.OfferEach(config, old(State()), Spec.Ascending(keys), closure)
    {
      hide Spec.Offer, Spec.Ascending;
      var todo := keys;
      threw := false;
      while todo != {}
        invariant Spec.OfferEach(config, State(), Spec.Ascending(todo), closure)
               == Spec.OfferEach(config, old(State()), Spec.Ascending(keys), closure)
        invariant !threw
        decreases |todo|
      {
        Spec.LeastExists(todo);
        var key :| key in todo && Spec.IsLeast(key, todo);
        Spec.AscendingNext(todo, key);
        threw := SendAck(Spec.Individual(key), closure);
        if threw { return; }
        todo := todo - {key};
      }
      Spec.NothingAscending();
    }

    /** Acknowledges the pending ids: in one command, or, with old brokers, one by one with a countdown. */
    method SendPending(closure: Closure) returns (threw: bool)
      modifies `env, `sent, `queries
      ensures Spec.Outcome(State(), threw)
           == Spec.OfferAll(config, old(State()), Spec.Expansion(pendingAcks), closure)
    {
      hide Run, Throws, Spec.Expansion, Spec.OfferEach;
      var connection := config.connections(queries);
      if connection.NotReady? {
        queries := queries + 1;
        threw := Invoke(closure, AlreadyClosed);
        return;
      }
      var keys := Expand(pendingAcks);
      if connection.multiAck {
        queries := queries + 1;
        sent := sent + [Spec.Multi(keys)];
        if config.waitResponse {
          env := AddRequest(env, closure);
          threw := false;
        } else {
          threw := Invoke(closure, ResultOk);
        }
      } else {
        queries := queries + 1;
        var counter := |env.counters|;
        env := AddCounter(env, |keys|, closure);
        threw := SendEach(keys, PerId(counter));
      }
    }

    /** Stores a callback until its ids are flushed, or calls it now if nobody waits for the broker. */
    method KeepCallback(callback: Callback)
      modifies `env, `pendingCallbacks
      ensures State() == Spec.Keep(config, old(State()), callback)
    {
      if config.waitResponse {
        pendingCallbacks := pendingCallbacks + [callback];
      } else if callback.Some? {
        var _ := Invoke(User(callback.value), ResultOk);
      }
    }

    method AddAcknowledge(m: AckId, callback: Callback) returns (threw: bool)
      modifies this
      ensures Spec.Outcome(State(), threw) == Spec.AddList(config, old(State()), [m], callback)
    {
      hide Spec.Keep, Spec.FlushIfFull;
      pendingAcks := Spec.Insert(pendingAcks, m);
      assert pendingAcks == Spec.InsertAll(old(pendingAcks), [m]);
      KeepCallback(callback);
      threw := FlushIfFull();
    }

    method AddAcknowledgeList(ms: seq<AckId>, callback: Callback) returns (threw: bool)
      modifies this
      ensures Spec.Outcome(State(), threw) == Spec.AddList(config, old(State()), ms, callback)
    {
      hide Spec.Keep, Spec.FlushIfFull, Spec.Insert;
      for i := 0 to |ms|
        invariant Spec.InsertAll(pendingAcks, ms[i..]) == Spec.InsertAll(old(pendingAcks), ms)
        invariant State() == old(State()).(pending := pendingAcks)
      {
        assert ms[i..][1..] == ms[i + 1..];
        pendingAcks := Spec.Insert(pendingAcks, ms[i]);
      }
      KeepCallback(callback);
      threw := FlushIfFull();
    }

    method FlushIfFull() returns (threw: bool)
      modifies this
      ensures Spec.Outcome(State(), threw) == Spec.FlushIfFull(config, old(State()))
    {
      hide Spec.Flush;
      threw := false;
      if config.maxSize > 0 && |pendingAcks| >= config.maxSize {
        threw := Flush();
      }
    }

    /** The newest cumulative ack replaces the one waiting, whose callback is called with success. */
    method AddAcknowledgeCumulative(m: MessageId, callback: Callback)
      modifies this
      ensures State() == Spec.AddCumulative(config, old(State()), m, callback)
    {
      hide Compare;
      var completeCallback := true;
      if Compare(m, nextCumulativeAck) > 0 {
        nextCumulativeAck := m;
        requireCumulativeAck := true;
        if latestCumulativeCallback.Some? {
          var _ := Invoke(User(latestCumulativeCallback.value), ResultOk);
        }
        if config.waitResponse {
          latestCumulativeCallback := callback;
          completeCallback := false;
        } else {
          latestCumulativeCallback := None;
        }
      }
      if callback.Some? && completeCallback {
        var _ := Invoke(User(callback.value), ResultOk);
      }
    }

    method FlushCumulative()
      modifies `env, `sent, `queries, `latestCumulativeCallback, `requireCumulativeAck
      ensures State() == Spec.FlushCumulative(config, old(State()))
    {
      hide Spec.Offer;
      if requireCumulativeAck {
        var closure := if latestCumulativeCallback.Some? then User(latestCumulativeCallback.value) else Nothing;
        var _ := SendAck(Spec.Cumulative(nextCumulativeAck), closure);
        latestCumulativeCallback := None;
        requireCumulativeAck := false;
      }
    }

    /** Sends what is waiting. If an empty callback threw, the ids stay, but their callbacks are gone. */
    method Flush() returns (threw: bool)
      modifies this
      ensures Spec.Outcome(State(), threw) == Spec.Flush(config, old(State()))
    {
      hide Spec.FlushCumulative, Spec.OfferAll, Spec.Expansion;
      FlushCumulative();
      threw := false;
      if pendingAcks != map[] {
        var callbacks := pendingCallbacks;
        pendingCallbacks := [];
        threw := SendPending(Group(callbacks));
        if !threw { pendingAcks := map[]; }
      }
    }

    /** As one step: flush, then forget what was acknowledged. */
    method FlushAndClean() returns (threw: bool)
      modifies this
      ensures Spec.Outcome(State(), threw) == Spec.FlushAndClean(config, old(State()))
    {
      hide Spec.Flush;
      threw := Flush();
      if !threw {
        nextCumulativeAck, requireCumulativeAck, latestCumulativeCallback := EARLIEST, false, None;
        pendingAcks := map[];
      }
    }

    /** The broker, a timeout or a closed connection answers the i-th request. */
    method CompleteRequest(i: nat, result: Result) returns (threw: bool)
      requires i < |env.requests|
      modifies `env
      ensures State() == old(State()).(env := Answer(old(env), i, result))
      ensures threw == Throws(old(env).(requests := old(env.requests)[i := Nothing]), old(env.requests)[i])
    {
      hide Run, Throws;
      var closure := env.requests[i];
      env := env.(requests := env.requests[i := Nothing]);
      threw := Invoke(closure, result);
    }

    /** Any run of acks, flushes, cleans and answers. */
    method Play(ops: seq<Spec.Op>)
      requires State() == Spec.INIT
      modifies this
      ensures State() == Spec.Play(config, ops)
    {
      hide Spec.Act;
      for i := 0 to |ops|
        invariant State() == Spec.Play(config, ops[..i])
      {
        assert ops[..i + 1][..i] == ops[..i];
        Act(ops[i]);
      }
      assert ops[..|ops|] == ops;
    }

    method Act(op: Spec.Op)
      modifies this
      ensures State() == Spec.Act(config, old(State()), op)
    {
      hide Spec.AddList, Spec.AddCumulative, Spec.Flush, Spec.FlushAndClean, Answer;
      match op
      case Ack(m, callback) => var _ := AddAcknowledge(m, callback);
      case AckList(ms, callback) => var _ := AddAcknowledgeList(ms, callback);
      case AckCumulative(m, callback) => AddAcknowledgeCumulative(m, callback);
      case FlushAll => var _ := Flush();
      case CleanAll => var _ := FlushAndClean();
      case AnswerTo(i, result) => if i < |env.requests| { var _ := CompleteRequest(i, result); }
    }
  }
}
