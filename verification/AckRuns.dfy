/**
 Runs of the ack grouping tracker as its callers see them: what is called, with which result and when, and
 that with a connection every id that was acknowledged is sent.
 */
module AckRuns {
  import opened MessageIds
  import opened Options
  import opened AckCallbacks
  import opened AckTracker

  // ----- Without waiting for the broker -----

  /** The calls that complete this callback with success. */
  function Success(callback: Callback): seq<Call> {
    if callback.Some? then [Call(callback.value, ResultOk)] else []
  }

  function SuccessOf(op: Op): seq<Call> {
    if op.Ack? || op.AckList? || op.AckCumulative? then Success(op.callback) else []
  }

  /** Every callback of a run called with success, in order. */
  function Successes(ops: seq<Op>): seq<Call>
    decreases |ops|
  {
    if ops == [] then [] else Successes(ops[..|ops| - 1]) + SuccessOf(ops[|ops| - 1])
  }

  /** No callback is stored anywhere. */
  predicate Silent(s: Tracker) {
    s.callbacks == [] && s.latest == None && SilentEnv(s.env)
  }

  predicate SilentEnv(env: Env) {
    && env.requests == [] && env.lost == []
    && forall k | 0 <= k < |env.counters| :: env.counters[k].target == Group([])
  }

  predicate SilentClosure(closure: Closure) {
    closure.Nothing? || closure == Group([]) || closure.PerId?
  }

  lemma {:induction false} RunSilently(env: Env, closure: Closure, result: Result)
    requires SilentEnv(env) && SilentClosure(closure)
    ensures
      var env' := Run(env, closure, result);
      SilentEnv(env') && env'.calls == env.calls && !Throws(env, closure)
  {
  }

  lemma {:induction false} OfferSilently(c: Config, s: Tracker, ack: Sent, closure: Closure)
    requires !c.waitResponse && Silent(s) && SilentClosure(closure)
    ensures
      var r := Offer(c, s, ack, closure);
      Silent(r.state) && r.state.env.calls == s.env.calls && !r.threw
  {
    hide Run, Throws, SilentEnv;
    RunSilently(s.env, closure, AlreadyClosed);
    RunSilently(s.env, closure, ResultOk);
  }

  lemma {:induction false} OfferEachSilently(c: Config, s: Tracker, order: seq<Key>, closure: Closure)
    requires !c.waitResponse && Silent(s) && SilentClosure(closure)
    ensures
      var r := OfferEach(c, s, order, closure);
      Silent(r.state) && r.state.env.calls == s.env.calls && !r.threw
    decreases |order|
  {
    hide Offer, Silent;
    if order != [] {
      OfferSilently(c, s, Individual(order[0]), closure);
      OfferEachSilently(c, Offer(c, s, Individual(order[0]), closure).state, order[1..], closure);
    }
  }

  lemma {:induction false} FlushSilently(c: Config, s: Tracker)
    requires !c.waitResponse && Silent(s)
    ensures
      var r := Flush(c, s);
      Silent(r.state) && r.state.env.calls == s.env.calls && !r.threw
  {
    hide Offer, OfferEach, Expansion;
    if s.require { OfferSilently(c, s, Cumulative(s.next), Nothing); }
    var s1 := FlushCumulative(c, s);
    if s1.pending != map[] {
      var keys := Expansion(s1.pending);
      var counting := s1.(callbacks := [], queries := s1.queries + 1, env := AddCounter(s1.env, |keys|, Group([])));
      OfferEachSilently(c, counting, Ascending(keys), PerId(|s1.env.counters|));
      OfferSilently(c, s1.(callbacks := []), Multi(keys), Group([]));
    }
  }

  lemma {:induction false} NotifySilently(s: Tracker, callback: Callback)
    requires Silent(s)
    ensures
      var s' := Notify(s, callback, ResultOk);
      s' == s.(env := s.env.(calls := s.env.calls + Success(callback))) && Silent(s')
  {
  }

  lemma {:induction false} ActSilently(c: Config, s: Tracker, op: Op)
    requires !c.waitResponse && Silent(s)
    ensures Silent(Act(c, s, op)) && Act(c, s, op).env.calls == s.env.calls + SuccessOf(op)
  {
    hide Flush, Notify, InsertAll, Compare, SilentEnv, Success;
    match op
    case Ack(m, callback) => AddSilently(c, s, [m], callback);
    case AckList(ms, callback) => AddSilently(c, s, ms, callback);
    case AckCumulative(id, callback) =>
      NotifySilently(s, callback);
      NotifySilently(s.(next := id, require := true), None);
      NotifySilently(Notify(s.(next := id, require := true), None, ResultOk).(latest := None), callback);
      NoSuccess();
    case FlushAll => FlushSilently(c, s);
    case CleanAll => FlushSilently(c, s);
    case AnswerTo(_, _) => NoRequests(s);
  }

  lemma {:induction false} NoSuccess()
    ensures Success(None) == []
  {
  }

  lemma {:induction false} NoRequests(s: Tracker)
    requires Silent(s)
    ensures s.env.requests == []
  {
  }

  lemma {:induction false} AddSilently(c: Config, s: Tracker, ms: seq<AckId>, callback: Callback)
    requires !c.waitResponse && Silent(s)
    ensures
      var r := AddList(c, s, ms, callback).state;
      Silent(r) && r.env.calls == s.env.calls + Success(callback)
  {
    hide Flush, Notify, InsertAll, SilentEnv, Success;
    var s1 := s.(pending := InsertAll(s.pending, ms));
    NotifySilently(s1, callback);
    FlushSilently(c, Notify(s1, callback, ResultOk));
  }

  /**
   When nobody waits for the broker, every run calls each callback with success in the very step that passes it
   in, calls nobody in any other step, and loses none.
   */
  lemma {:induction false} SuccessAtOnce(c: Config, ops: seq<Op>)
    requires !c.waitResponse
    ensures Play(c, ops).env.calls == Successes(ops) && Play(c, ops).env.lost == []
    ensures Silent(Play(c, ops))
    decreases |ops|
  {
    hide Act, SuccessOf;
    if ops != [] {
      SuccessAtOnce(c, ops[..|ops| - 1]);
      ActSilently(c, Play(c, ops[..|ops| - 1]), ops[|ops| - 1]);
    }
  }

  // ----- Cumulative acks that wait for the broker -----

  /** Greater than every cumulative ack since the last clean. */
  ghost predicate Newest(id: MessageId, recent: seq<MessageId>) {
    Compare(id, EARLIEST) > 0 && forall i | 0 <= i < |recent| :: Compare(id, recent[i]) > 0
  }

  lemma {:induction false} NewestIsGreater(s: Tracker, recent: seq<MessageId>, id: MessageId)
    requires Greatest(s, recent)
    ensures Newest(id, recent) <==> Compare(id, s.next) > 0
  {
    hide Compare;
    CompareIsTotalPreorder(id, s.next, id);
    CompareIsTotalPreorder(id, EARLIEST, id);
    CompareIsTotalPreorder(EARLIEST, s.next, id);
    CompareIsTotalPreorder(id, EARLIEST, s.next);
    forall i | 0 <= i < |recent| ensures Compare(id, s.next) > 0 ==> Compare(id, recent[i]) > 0 {
      CompareIsTotalPreorder(recent[i], s.next, id);
      CompareIsTotalPreorder(recent[i], id, s.next);
      CompareIsTotalPreorder(s.next, id, id);
    }
  }

  /**
   When answers are waited for, in every run a cumulative ack that is newer than all since the last clean calls
   nobody but the one it supersedes, and its callback waits in that place. Any other one succeeds at once.
   */
  lemma {:induction false} CumulativeCallbacksWait(c: Config, ops: seq<Op>, id: MessageId, callback: Callback)
    requires c.waitResponse
    ensures
      var s, s' := Play(c, ops), Play(c, ops + [AckCumulative(id, callback)]);
      if Newest(id, Recent(c, ops))
      then s'.latest == callback && s'.require && s'.next == id && s'.env.calls == s.env.calls + Success(s.latest)
      else s'.latest == s.latest && s'.env.calls == s.env.calls + Success(callback)
  {
    hide Play, Compare;
    PlayOne(c, ops, AckCumulative(id, callback));
    PlayKeepsGreatest(c, ops);
    NewestIsGreater(Play(c, ops), Recent(c, ops), id);
  }

  /**
   A clean forgets every acknowledgement, so that no real message counts as a duplicate, unless an empty callback throws
   in its flush: then it forgets none of the cumulative ones.
   */
  lemma {:induction false} CleanForgets(c: Config, s: Tracker, m: MessageId)
    ensures
      var r := FlushAndClean(c, s);
      && r.threw == Flush(c, s).threw
      && (!r.threw ==> (IsDuplicate(r.state, m) <==> Compare(m, EARLIEST) <= 0) && !r.state.require)
      && (r.threw ==> (Compare(m, s.next) <= 0 ==> IsDuplicate(r.state, m)))
  {
    hide Flush, Compare;
    FlushKeepsNext(c, s);
  }

  // ----- With a connection -----

  /** Every query of the run found a connection. */
  ghost predicate Connected(c: Config, s: Tracker) {
    forall q | 0 <= q < s.queries :: c.connections(q).Ready?
  }

  /** The entries that an ack is for. */
  predicate For(m: AckId, k: Key) {
    if m.chunks == [] then k == KeyOf(m.id) else exists i | 0 <= i < |m.chunks| :: KeyOf(m.chunks[i]) == k
  }

  function Listed(op: Op): seq<AckId> {
    match op
    case Ack(m, _) => [m]
    case AckList(ms, _) => ms
    case _ => []
  }

  /** The i-th of these ids is new: none with its key is pending or stands before it. */
  predicate NewAt(pending: map<Key, AckId>, ms: seq<AckId>, i: int)
    requires 0 <= i < |ms|
  {
    KeyOf(ms[i].id) !in pending && forall h | 0 <= h < i :: KeyOf(ms[h].id) != KeyOf(ms[i].id)
  }

  ghost predicate AddsAt(pending: map<Key, AckId>, ms: seq<AckId>, k: Key, i: int) {
    0 <= i < |ms| && NewAt(pending, ms, i) && For(ms[i], k)
  }

  /** One of the new ids is for this entry. */
  ghost predicate Adds(pending: map<Key, AckId>, ms: seq<AckId>, k: Key) {
    exists i :: AddsAt(pending, ms, k, i)
  }

  lemma {:induction false} InsertExpands(pending: map<Key, AckId>, m: AckId, k: Key)
    ensures k in Expansion(Insert(pending, m)) <==>
            k in Expansion(pending) || (KeyOf(m.id) !in pending && For(m, k))
  {
    var after := Insert(pending, m);
    if KeyOf(m.id) !in pending {
      assert after[KeyOf(m.id)] == m;
      assert For(m, k) <==> k in KeysOf(m);
      forall x | x in pending ensures x in after && after[x] == pending[x] {
      }
    }
  }

  lemma {:induction false} InsertAllExpands(pending: map<Key, AckId>, ms: seq<AckId>, k: Key)
    ensures k in Expansion(InsertAll(pending, ms)) <==> k in Expansion(pending) || Adds(pending, ms, k)
    decreases |ms|
  {
    hide Expansion, For;
    if ms != [] {
      var m, rest, next := ms[0], ms[1..], Insert(pending, ms[0]);
      InsertExpands(pending, m, k);
      InsertAllExpands(next, rest, k);
      if Adds(next, rest, k) {
        var i :| AddsAt(next, rest, k, i);
        assert AddsAt(pending, ms, k, i + 1);
      }
      if KeyOf(m.id) !in pending && For(m, k) { assert AddsAt(pending, ms, k, 0); }
      if Adds(pending, ms, k) {
        var i :| AddsAt(pending, ms, k, i);
        if i > 0 { assert AddsAt(next, rest, k, i - 1); }
      }
    }
  }

  predicate SendsFor(ack: Sent, k: Key) {
    (ack.Multi? && k in ack.ids) || ack == Individual(k)
  }

  /** An individual ack for this entry has been sent. */
  ghost predicate SentFor(sent: seq<Sent>, k: Key) {
    exists i | 0 <= i < |sent| :: SendsFor(sent[i], k)
  }

  lemma {:induction false} SentForEither(a: seq<Sent>, b: seq<Sent>, k: Key)
    ensures SentFor(a + b, k) <==> SentFor(a, k) || SentFor(b, k)
  {
    if SentFor(a, k) {
      var i :| 0 <= i < |a| && SendsFor(a[i], k);
      assert SendsFor((a + b)[i], k);
    }
    if SentFor(b, k) {
      var i :| 0 <= i < |b| && SendsFor(b[i], k);
      assert SendsFor((a + b)[|a| + i], k);
    }
  }

  /** An ack for this entry has been sent, or waits to be. */
  ghost predicate InHand(s: Tracker, k: Key) {
    SentFor(s.sent, k) || k in Expansion(s.pending)
  }

  /** The individual acks of a flush are for exactly the entries that wait. */
  lemma {:induction false} FlushIsForPending(c: Config, s: Tracker, k: Key)
    ensures SentFor(ToSend(c, s), k) <==> k in Expansion(s.pending)
  {
    hide Expansion, Ascending;
    var keys := Expansion(s.pending);
    var cumulative: seq<Sent> := if s.require then [Cumulative(s.next)] else [];
    var individual := ToSend(c, s)[|cumulative|..];
    assert ToSend(c, s) == cumulative + individual;
    SentForEither(cumulative, individual, k);
    NothingPending();
    AscendingListsAll(keys);
    if s.pending != map[] {
      if individual == [Multi(keys)] {
        assert SendsFor(individual[0], k) <==> k in keys;
      } else {
        SinglesAreFor(Ascending(keys), k);
      }
    }
  }

  lemma {:induction false} NothingPending()
    ensures Expansion(map[]) == {}
  {
  }

  lemma {:induction false} SinglesAreFor(order: seq<Key>, k: Key)
    ensures SentFor(Singles(order), k) <==> k in order
  {
    if k in order {
      var i :| 0 <= i < |order| && order[i] == k;
      assert SendsFor(Singles(order)[i], k);
    }
  }

  /** A state in which a connected flush cannot throw. */
  predicate Flushable(c: Config, s: Tracker) {
    c.waitResponse || Silent(s)
  }

  lemma {:induction false} FlushSends(c: Config, s: Tracker)
    requires Flushable(c, s) && ReadyThroughout(c, s, Flush(c, s).state)
    ensures
      var r := Flush(c, s);
      !r.threw && r.state.sent == s.sent + ToSend(c, s) && r.state.pending == map[]
  {
    hide Flush, ToSend;
    if c.waitResponse { FlushCalls(c, s); } else { FlushSilently(c, s); }
    FlushSendsEverything(c, s);
  }

  lemma {:induction false} FlushKeepsInHand(c: Config, s: Tracker, k: Key)
    requires Flushable(c, s) && ReadyThroughout(c, s, Flush(c, s).state)
    ensures InHand(Flush(c, s).state, k) <==> InHand(s, k)
  {
    hide Flush, ToSend, Expansion, SentFor, Silent, ReadyThroughout;
    FlushSends(c, s);
    FlushIsForPending(c, s, k);
    SentForEither(s.sent, ToSend(c, s), k);
    NothingPending();
  }

  lemma {:induction false} AddKeepsInHand(c: Config, s: Tracker, ms: seq<AckId>, callback: Callback, k: Key)
    requires Flushable(c, s) && ReadyThroughout(c, s, AddList(c, s, ms, callback).state)
    ensures InHand(AddList(c, s, ms, callback).state, k) <==> InHand(s, k) || Adds(s.pending, ms, k)
  {
    hide Flush, InsertAll, Expansion, SentFor, Adds, Run;
    var s1 := s.(pending := InsertAll(s.pending, ms));
    InsertAllExpands(s.pending, ms, k);
    if !c.waitResponse { NotifySilently(s1, callback); }
    FlushKeepsInHandIfFull(c, Keep(c, s1, callback), k);
  }

  lemma {:induction false} FlushKeepsInHandIfFull(c: Config, s: Tracker, k: Key)
    requires Flushable(c, s) && ReadyThroughout(c, s, FlushIfFull(c, s).state)
    ensures InHand(FlushIfFull(c, s).state, k) <==> InHand(s, k)
  {
    hide Flush, InHand;
    if c.maxSize > 0 && |s.pending| >= c.maxSize { FlushKeepsInHand(c, s, k); }
  }

  lemma {:induction false} ActKeepsInHand(c: Config, s: Tracker, op: Op, k: Key)
    requires Flushable(c, s) && ReadyThroughout(c, s, Act(c, s, op))
    ensures InHand(Act(c, s, op), k) <==> InHand(s, k) || Adds(s.pending, Listed(op), k)
  {
    hide Flush, AddList, Expansion, SentFor, NewAt, For, Answer, Compare, Run;
    match op
    case Ack(m, callback) => AddKeepsInHand(c, s, [m], callback, k);
    case AckList(ms, callback) => AddKeepsInHand(c, s, ms, callback, k);
    case FlushAll => FlushKeepsInHand(c, s, k);
    case CleanAll => FlushSends(c, s); FlushKeepsInHand(c, s, k);
    case _ =>
  }

  lemma {:induction false} ActAsksOn(c: Config, s: Tracker, op: Op)
    ensures s.queries <= Act(c, s, op).queries
  {
    hide Flush, InsertAll, Answer, Compare, Run;
    match op
    case Ack(m, callback) => FlushAsksOn(c, Keep(c, s.(pending := InsertAll(s.pending, [m])), callback));
    case AckList(ms, callback) => FlushAsksOn(c, Keep(c, s.(pending := InsertAll(s.pending, ms)), callback));
    case FlushAll => FlushAsksOn(c, s);
    case CleanAll => FlushAsksOn(c, s);
    case _ =>
  }

  lemma {:induction false} FlushAsksOn(c: Config, s: Tracker)
    ensures s.queries <= Flush(c, s).state.queries
  {
    hide Run, Throws, FlushIndividual;
    FlushIndividualFrame(c, FlushCumulative(c, s));
  }

  /** The last step of a connected run, and the run before it. */
  lemma {:induction false} ConnectedBefore(c: Config, ops: seq<Op>)
    requires ops != [] && Connected(c, Play(c, ops))
    ensures
      var s := Play(c, ops[..|ops| - 1]);
      Connected(c, s) && Flushable(c, s) && ReadyThroughout(c, s, Act(c, s, ops[|ops| - 1]))
  {
    hide Act, Silent;
    ActAsksOn(c, Play(c, ops[..|ops| - 1]), ops[|ops| - 1]);
    if !c.waitResponse { SuccessAtOnce(c, ops[..|ops| - 1]); }
  }

  ghost predicate AckedAt(c: Config, ops: seq<Op>, k: Key, j: int) {
    0 <= j < |ops| && Adds(Play(c, ops[..j]).pending, Listed(ops[j]), k)
  }

  /** Some call acknowledged this entry with an id that was new to the tracker. */
  ghost predicate Acknowledged(c: Config, ops: seq<Op>, k: Key) {
    exists j :: AckedAt(c, ops, k, j)
  }

  lemma {:induction false} AcknowledgedNext(c: Config, ops: seq<Op>, k: Key)
    requires ops != []
    ensures
      var n := |ops| - 1;
      Acknowledged(c, ops, k) <==> Acknowledged(c, ops[..n], k) || Adds(Play(c, ops[..n]).pending, Listed(ops[n]), k)
  {
    hide Play, Adds, Listed;
    var n := |ops| - 1;
    if Acknowledged(c, ops[..n], k) {
      var j :| AckedAt(c, ops[..n], k, j);
      assert ops[..n][..j] == ops[..j];
      assert AckedAt(c, ops, k, j);
    }
    if Adds(Play(c, ops[..n]).pending, Listed(ops[n]), k) { assert AckedAt(c, ops, k, n); }
    if Acknowledged(c, ops, k) {
      var j :| AckedAt(c, ops, k, j);
      if j < n {
        assert ops[..n][..j] == ops[..j];
        assert AckedAt(c, ops[..n], k, j);
      }
    }
  }

  /**
   In every run that always found a connection, the entries for which an individual ack was sent or waits are
   exactly those acknowledged, the chunks of chunked messages included. After a flush all of them are sent.
   */
  lemma {:induction false} AllAcksAreSent(c: Config, ops: seq<Op>, k: Key)
    requires Connected(c, Play(c, ops))
    ensures
      var s := Play(c, ops);
      && (Acknowledged(c, ops, k) <==> SentFor(s.sent, k) || k in Expansion(s.pending))
      && (ops != [] && ops[|ops| - 1].FlushAll? ==> (Acknowledged(c, ops, k) <==> SentFor(s.sent, k)))
    decreases |ops|
  {
    hide Act, Acknowledged, Adds, Connected, Expansion, SentFor;
    NothingPending();
    if ops == [] {
      NothingAcknowledged(c, k);
    } else {
      var front, op := ops[..|ops| - 1], ops[|ops| - 1];
      ConnectedBefore(c, ops);
      AllAcksAreSent(c, front, k);
      ActKeepsInHand(c, Play(c, front), op, k);
      AcknowledgedNext(c, ops, k);
      if op.FlushAll? { FlushEmpties(c, Play(c, front)); }
    }
  }

  lemma {:induction false} FlushEmpties(c: Config, s: Tracker)
    requires Flushable(c, s) && ReadyThroughout(c, s, Act(c, s, FlushAll))
    ensures Act(c, s, FlushAll).pending == map[] && !Act(c, s, FlushAll).require
  {
    hide FlushIndividual, Run, Throws;
    FlushSends(c, s);
    FlushIndividualSendsNoCumulative(c, FlushCumulative(c, s));
  }

  lemma {:induction false} NothingAcknowledged(c: Config, k: Key)
    ensures !Acknowledged(c, [], k) && !SentFor(INIT.sent, k)
  {
  }

  /** An ack without a callback, when nobody waits for the broker, only adds its id. */
  lemma {:induction false} AckOnly(c: Config, ops: seq<Op>, m: AckId)
    requires !c.waitResponse && c.maxSize == 0
    ensures
      var s := Play(c, ops);
      Play(c, ops + [Ack(m, None)]) == s.(pending := Insert(s.pending, m))
  {
    hide Play;
    PlayOne(c, ops, Ack(m, None));
    assert InsertAll(Play(c, ops).pending, [m]) == InsertAll(Insert(Play(c, ops).pending, m), [m][1..]);
  }

  lemma {:induction false} JustOne(m: AckId)
    requires m.chunks == []
    ensures Expansion(map[KeyOf(m.id) := m]) == {KeyOf(m.id)}
  {
    var pending := map[KeyOf(m.id) := m];
    assert KeyOf(m.id) in pending && KeyOf(m.id) in KeysOf(pending[KeyOf(m.id)]);
    assert KeyOf(m.id) in Expansion(pending);
  }

  lemma {:induction false} SecondAckIgnored(c: Config, a: AckId, b: AckId)
    requires !c.waitResponse && c.maxSize == 0 && KeyOf(a.id) == KeyOf(b.id)
    ensures Play(c, [Ack(a, None), Ack(b, None)]) == INIT.(pending := map[KeyOf(a.id) := a])
  {
    hide Play;
    EmptyPlay(c);
    AckOnly(c, [], a);
    AckOnly(c, [Ack(a, None)], b);
    assert [] + [Ack(a, None)] == [Ack(a, None)];
    assert [Ack(a, None)] + [Ack(b, None)] == [Ack(a, None), Ack(b, None)];
  }

  /** While an id waits, a second ack for it is ignored, and so are the chunks that only the second one lists. */
  lemma {:induction false} ChunksOfASecondAckAreIgnored(id: MessageId, chunk: MessageId)
    requires KeyOf(chunk) != KeyOf(id)
    ensures
      var c := Config(false, 0, _ => Ready(true));
      var s := Play(c, [Ack(AckId(id, []), None), Ack(AckId(id, [chunk, id]), None), FlushAll]);
      s.sent == [Multi({KeyOf(id)})] && !SentFor(s.sent, KeyOf(chunk))
  {
    hide Play, Flush, Expansion, KeyOf;
    var c := Config(false, 0, _ => Ready(true));
    var ops := [Ack(AckId(id, []), None), Ack(AckId(id, [chunk, id]), None)];
    SecondAckIgnored(c, AckId(id, []), AckId(id, [chunk, id]));
    PlayOne(c, ops, FlushAll);
    assert ops + [FlushAll] == [Ack(AckId(id, []), None), Ack(AckId(id, [chunk, id]), None), FlushAll];
    JustOne(AckId(id, []));
    SuccessAtOnce(c, ops);
    FlushSends(c, Play(c, ops));
    assert KeyOf(id) in Play(c, ops).pending;
    assert ToSend(c, Play(c, ops)) == [Multi({KeyOf(id)})];
  }

  // ----- Cumulative acks with a connection -----

  ghost predicate SentCumulative(sent: seq<Sent>, id: MessageId) {
    exists i | 0 <= i < |sent| :: sent[i].Cumulative? && Compare(id, sent[i].id) <= 0
  }

  /** A cumulative ack that covers this id has been sent, or waits to be, or no message is that early. */
  ghost predicate Covered(s: Tracker, id: MessageId) {
    || Compare(id, EARLIEST) <= 0
    || (s.require && Compare(id, s.next) <= 0)
    || SentCumulative(s.sent, id)
  }

  lemma {:induction false} SentStays(s: Tracker, s': Tracker, id: MessageId)
    requires SentCumulative(s.sent, id) && s.sent <= s'.sent
    ensures SentCumulative(s'.sent, id)
  {
    hide Compare;
    var i :| 0 <= i < |s.sent| && s.sent[i].Cumulative? && Compare(id, s.sent[i].id) <= 0;
    assert s'.sent[i] == s.sent[i];
  }

  lemma {:induction false} FlushCovers(c: Config, s: Tracker, id: MessageId)
    requires Covered(s, id) && Flushable(c, s) && ReadyThroughout(c, s, Flush(c, s).state)
    ensures Compare(id, EARLIEST) <= 0 || SentCumulative(Flush(c, s).state.sent, id)
  {
    hide Flush, Compare, Silent, Expansion;
    FlushSends(c, s);
    var s' := Flush(c, s).state;
    if SentCumulative(s.sent, id) {
      SentStays(s, s', id);
    } else if s.require {
      assert s'.sent[|s.sent|] == Cumulative(s.next);
    }
  }

  lemma {:induction false} CoveredBy(s: Tracker, id: MessageId, ack: MessageId)
    requires Covered(s, ack) && Compare(id, ack) <= 0
    ensures Covered(s, id)
  {
    hide Compare;
    CompareIsTotalPreorder(id, ack, EARLIEST);
    CompareIsTotalPreorder(id, ack, s.next);
    if SentCumulative(s.sent, ack) {
      var i :| 0 <= i < |s.sent| && s.sent[i].Cumulative? && Compare(ack, s.sent[i].id) <= 0;
      CompareIsTotalPreorder(id, ack, s.sent[i].id);
    }
  }

  /** Each call keeps covered what is, and covers its own id. */
  lemma {:induction false} ActKeepsCovered(c: Config, s: Tracker, op: Op, id: MessageId)
    requires Flushable(c, s) && ReadyThroughout(c, s, Act(c, s, op)) && Covered(s, s.next)
    requires Covered(s, id) || (op.AckCumulative? && op.id == id)
    ensures Covered(Act(c, s, op), id) && Covered(Act(c, s, op), Act(c, s, op).next)
  {
    hide Flush, AddList, Compare, Silent, Answer, Run, SentCumulative;
    match op
    case AckCumulative(newer, _) => AddCumulativeCovers(c, s, op, id);
    case Ack(m, callback) => AddListCovers(c, s, [m], callback, id); AddListCovers(c, s, [m], callback, s.next);
    case AckList(ms, callback) => AddListCovers(c, s, ms, callback, id); AddListCovers(c, s, ms, callback, s.next);
    case FlushAll => FlushCovers(c, s, id); FlushCovers(c, s, s.next); FlushKeepsNext(c, s);
    case CleanAll =>
      FlushSends(c, s);
      FlushCovers(c, s, id);
      CompareIsTotalPreorder(EARLIEST, EARLIEST, EARLIEST);
    case AnswerTo(_, _) =>
  }

  lemma {:induction false} AddCumulativeCovers(c: Config, s: Tracker, op: Op, id: MessageId)
    requires op.AckCumulative? && Covered(s, s.next) && (Covered(s, id) || op.id == id)
    ensures Covered(Act(c, s, op), id) && Covered(Act(c, s, op), Act(c, s, op).next)
  {
    hide Compare, Run;
    CompareIsTotalPreorder(op.id, op.id, op.id);
    CompareIsTotalPreorder(id, s.next, op.id);
    CompareIsTotalPreorder(s.next, op.id, op.id);
    if Compare(op.id, s.next) <= 0 && op.id == id { CoveredBy(s, id, s.next); }
  }

  lemma {:induction false} AddListCovers(c: Config, s: Tracker, ms: seq<AckId>, callback: Callback, id: MessageId)
    requires Flushable(c, s) && ReadyThroughout(c, s, AddList(c, s, ms, callback).state) && Covered(s, id)
    ensures var s' := AddList(c, s, ms, callback).state; Covered(s', id) && s'.next == s.next
  {
    hide Flush, InsertAll, Compare, SentCumulative, Run;
    var s1 := s.(pending := InsertAll(s.pending, ms));
    if !c.waitResponse { NotifySilently(s1, callback); }
    var s2 := Keep(c, s1, callback);
    if c.maxSize > 0 && |s2.pending| >= c.maxSize {
      FlushCovers(c, s2, id);
      FlushKeepsNext(c, s2);
    }
  }

  /**
   In every run that always found a connection, each cumulative ack is covered by one that was sent, or by the one
   waiting to be sent. After a flush none waits.
   */
  lemma {:induction false} CumulativeAcksAreSent(c: Config, ops: seq<Op>, j: nat)
    requires Connected(c, Play(c, ops)) && j < |ops| && ops[j].AckCumulative?
    ensures Covered(Play(c, ops), ops[j].id)
    ensures ops[|ops| - 1].FlushAll? ==> !Play(c, ops).require
  {
    hide Act, Covered, Connected, Compare;
    RunCovers(c, ops, j);
    if ops[|ops| - 1].FlushAll? {
      ConnectedBefore(c, ops);
      FlushEmpties(c, Play(c, ops[..|ops| - 1]));
    }
  }

  lemma {:induction false} RunCovers(c: Config, ops: seq<Op>, j: nat)
    requires Connected(c, Play(c, ops))
    ensures j < |ops| && ops[j].AckCumulative? ==> Covered(Play(c, ops), ops[j].id)
    ensures Covered(Play(c, ops), Play(c, ops).next)
    decreases |ops|
  {
    hide Act, Covered, Connected, Compare;
    if ops == [] {
      EarliestIsCovered();
    } else {
      var n := |ops| - 1;
      ConnectedBefore(c, ops);
      RunCovers(c, ops[..n], j);
      var s := Play(c, ops[..n]);
      ActKeepsCovered(c, s, ops[n], s.next);
      if j <= n && ops[j].AckCumulative? { ActKeepsCovered(c, s, ops[n], ops[j].id); }
    }
  }

  lemma {:induction false} EarliestIsCovered()
    ensures Covered(INIT, INIT.next)
  {
  }
}
