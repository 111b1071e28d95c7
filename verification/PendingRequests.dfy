/**
 The pending-request maps of a connection (lib/ClientConnection.cc): registering requests, responses,
 errors, timeouts, removal and close, as a transition system over any number of threads. A thread
 takes one step per critical section, and one per promise that it completes outside of them.
 */
module PendingRequests {
  import opened Options

  /** The five maps. */
  datatype Kind = Request | Lookup | LastMessageId | NamespaceTopics | Schema

  datatype Slot = Slot(kind: Kind, requestId: nat)

  datatype Outcome = Value(v: nat) | ServerError(e: nat) | NotConnected | TooManyLookups | TimedOut | Disconnected

  /** A promise is named by its position in this sequence. `timer` tells that one was started for it. */
  datatype Promise = Promise(kind: Kind, timer: bool, gotResponse: bool, outcome: Option<Outcome>)

  /** A promise that a thread is about to complete. */
  datatype Held = Held(promise: nat, outcome: Outcome)

  /**
   What a thread still has to do: fail the promises that its `close` took out of the maps, and then
   complete the one that its handler took out.
   */
  datatype Thread = Thread(failing: seq<nat>, result: Outcome, held: Option<Held>)

  const IDLE: Thread := Thread([], Disconnected, None)

  datatype State = State(
    closed: bool, pending: map<Slot, nat>, numLookups: int, promises: seq<Promise>, threads: seq<Thread>)

  /** `maxLookups` is maxPendingLookupRequest_. */
  datatype Config = Config(maxLookups: nat)

  function Init(n: nat): State {
    State(false, map[], 0, [], seq(n, _ => IDLE))
  }

  datatype Action =
    | Register(t: nat, slot: Slot)
    | Respond(t: nat, slot: Slot, outcome: Outcome)       // a response, or the timer of a schema request
    | Queued(t: nat, requestId: nat)                      // a producer is queued up at the broker
    | Error(t: nat, requestId: nat, outcome: Outcome)
    | Timeout(t: nat, promise: nat)
    | Remove(t: nat, requestId: nat)
    | Close(t: nat, result: Outcome, order: seq<nat>)     // `order` is how close walks through the maps
    | FailNext(t: nat)
    | Settle(t: nat)

  /**
   Request ids in use are distinct. A handler of an error may close the connection before it completes
   its promise. Nobody closes the connection with a timeout as the result.
   */
  predicate Enabled(s: State, a: Action) {
    && a.t < |s.threads|
    && var th := s.threads[a.t];
       match a
       case Register(_, slot) => th == IDLE && slot !in s.pending
       case Respond(_, slot, outcome) => th == IDLE && (outcome.TimedOut? ==> slot.kind.Schema?)
       case Queued(_, _) => th == IDLE
       case Error(_, _, outcome) => th == IDLE && outcome.ServerError?
       case Timeout(_, p) => th == IDLE && p < |s.promises| && s.promises[p].timer
       case Remove(_, _) => th == IDLE
       case Close(_, result, order) =>
         && th.failing == [] && !result.TimedOut?
         && (th.held.Some? ==> th.held.value.outcome.ServerError?)
         && (forall slot <- s.pending :: s.pending[slot] in order)
         && (forall p <- order :: p in s.pending.Values)
       case FailNext(_) => th.failing != []
       case Settle(_) => th.failing == [] && th.held.Some?
  }

  function Go(s: State, t: nat, th: Thread): State
    requires t < |s.threads|
  {
    s.(threads := s.threads[t := th])
  }

  function Holding(p: nat, outcome: Outcome): Thread {
    Thread([], Disconnected, Some(Held(p, outcome)))
  }

  /** The first completion wins. */
  function Complete(promises: seq<Promise>, p: nat, outcome: Outcome): (r: seq<Promise>)
    ensures |r| == |promises|
  {
    if p < |promises| && promises[p].outcome.None? then promises[p := promises[p].(outcome := Some(outcome))]
    else promises
  }

  function Erase(s: State, slot: Slot): State {
    s.(pending := s.pending - {slot},
       numLookups := s.numLookups - if slot in s.pending && slot.kind.Lookup? then 1 else 0)
  }

  /** A handler takes the promise out of its map, if it is there, and will complete it. */
  function TakeOut(s: State, t: nat, slot: Slot, outcome: Outcome): State
    requires t < |s.threads|
  {
    if slot in s.pending then Go(Erase(s, slot), t, Holding(s.pending[slot], outcome)) else s
  }

  function Registered(c: Config, s: State, t: nat, slot: Slot): State
    requires t < |s.threads|
  {
    var p := |s.promises|;
    var refused := s.(promises := s.promises + [Promise(slot.kind, false, false, None)]);
    if s.closed then Go(refused, t, Holding(p, NotConnected))
    else if slot.kind.Lookup? && s.numLookups >= c.maxLookups then Go(refused, t, Holding(p, TooManyLookups))
    else
      s.(pending := s.pending[slot := p],
         numLookups := s.numLookups + (if slot.kind.Lookup? then 1 else 0),
         promises := s.promises + [Promise(slot.kind, slot.kind in {Request, Lookup, LastMessageId}, false, None)])
  }

  /** An error response is looked for in three maps, one after the other. */
  function ErrorSlot(s: State, requestId: nat): Slot {
    if Slot(Request, requestId) in s.pending then Slot(Request, requestId)
    else if Slot(LastMessageId, requestId) in s.pending then Slot(LastMessageId, requestId)
    else Slot(NamespaceTopics, requestId)
  }

  function Step(c: Config, s: State, a: Action): State
    requires Enabled(s, a)
  {
    match a
    case Register(t, slot) => Registered(c, s, t, slot)
    case Respond(t, slot, outcome) => TakeOut(s, t, slot, outcome)
    case Queued(_, requestId) =>
      var slot := Slot(Request, requestId);
      if slot in s.pending && s.pending[slot] < |s.promises| then
        var p := s.pending[slot];
        s.(promises := s.promises[p := s.promises[p].(gotResponse := true)])
      else s
    case Error(t, requestId, outcome) => TakeOut(s, t, ErrorSlot(s, requestId), outcome)
    case Timeout(t, p) =>
      if s.promises[p].kind.Request? && s.promises[p].gotResponse then s else Go(s, t, Holding(p, TimedOut))
    case Remove(t, requestId) =>
      var slot := Slot(Request, requestId);
      if slot in s.pending then Erase(s, slot).(promises := Complete(s.promises, s.pending[slot], Disconnected)) else s
    case Close(t, result, order) =>
      if s.closed then s
      else
        Go(s.(closed := true, pending := map[], numLookups := 0), t,
           s.threads[t].(failing := order, result := result))
    case FailNext(t) =>
      var th := s.threads[t];
      Go(s.(promises := Complete(s.promises, th.failing[0], th.result)), t, th.(failing := th.failing[1..]))
    case Settle(t) =>
      var held := s.threads[t].held.value;
      Go(s.(promises := Complete(s.promises, held.promise, held.outcome)), t, IDLE)
  }

  datatype Run = Stuck | Reached(state: State)

  ghost function Exec(c: Config, s: State, actions: seq<Action>): Run
    decreases |actions|
  {
    if actions == [] then Reached(s)
    else if Enabled(s, actions[0]) then Exec(c, Step(c, s, actions[0]), actions[1..])
    else Stuck
  }

  // ----- The invariant -----

  /** Where an uncompleted promise is kept. */
  datatype Place = InMap(slot: Slot) | InHand(t: nat) | InClose(t: nat)

  predicate At(s: State, p: nat, place: Place) {
    match place
    case InMap(slot) => slot in s.pending && s.pending[slot] == p
    case InHand(t) => t < |s.threads| && s.threads[t].held.Some? && s.threads[t].held.value.promise == p
    case InClose(t) => t < |s.threads| && p in s.threads[t].failing
  }

  predicate Open(s: State, p: nat) {
    p < |s.promises| && s.promises[p].outcome.None?
  }

  ghost predicate Kept(s: State, p: nat) {
    exists place :: At(s, p, place)
  }

  ghost predicate NoneStranded(s: State) {
    forall p: nat | Open(s, p) :: Kept(s, p)
  }

  function Lookups(pending: map<Slot, nat>): set<Slot> {
    set slot <- pending | slot.kind.Lookup?
  }

  predicate Counted(c: Config, s: State) {
    s.numLookups == |Lookups(s.pending)| <= c.maxLookups
  }

  predicate ClosedIsEmpty(s: State) {
    s.closed ==> s.pending == map[]
  }

  /** Only `close` leaves promises to fail, and it runs once. */
  predicate OneClose(s: State) {
    !s.closed ==> forall t | 0 <= t < |s.threads| :: s.threads[t].failing == []
  }

  ghost predicate Inv(c: Config, s: State) {
    NoneStranded(s) && Counted(c, s) && ClosedIsEmpty(s) && OneClose(s)
  }

  // ----- Every step keeps it -----

  lemma {:induction false} LookupsAdd(pending: map<Slot, nat>, slot: Slot, p: nat)
    requires slot !in pending
    ensures |Lookups(pending[slot := p])| == |Lookups(pending)| + if slot.kind.Lookup? then 1 else 0
  {
    assert Lookups(pending[slot := p]) == Lookups(pending) + if slot.kind.Lookup? then {slot} else {};
  }

  lemma {:induction false} LookupsDrop(pending: map<Slot, nat>, slot: Slot)
    requires slot in pending
    ensures |Lookups(pending - {slot})| == |Lookups(pending)| - if slot.kind.Lookup? then 1 else 0
  {
    assert Lookups(pending - {slot}) == Lookups(pending) - if slot.kind.Lookup? then {slot} else {};
  }

  lemma {:induction false} TakeOutCounts(c: Config, s: State, t: nat, slot: Slot, outcome: Outcome)
    requires t < |s.threads| && Counted(c, s)
    ensures Counted(c, TakeOut(s, t, slot, outcome)) && Counted(c, Erase(s, slot))
  {
    if slot in s.pending { LookupsDrop(s.pending, slot); } else { assert s.pending - {slot} == s.pending; }
  }

  lemma {:induction false} StepKeepsCounted(c: Config, s: State, a: Action)
    requires Enabled(s, a) && Counted(c, s)
    ensures Counted(c, Step(c, s, a))
  {
    hide Lookups, Complete;
    match a
    case Register(t, slot) => LookupsAdd(s.pending, slot, |s.promises|);
    case Respond(t, slot, outcome) => TakeOutCounts(c, s, t, slot, outcome);
    case Error(t, requestId, outcome) => TakeOutCounts(c, s, t, ErrorSlot(s, requestId), outcome);
    case Remove(t, requestId) => TakeOutCounts(c, s, t, Slot(Request, requestId), Disconnected);
    case Close(_, _, _) => NoLookups();
    case _ =>
  }

  lemma {:induction false} NoLookups()
    ensures Lookups(map[]) == {}
  {
  }

  lemma {:induction false} StepKeepsClosed(c: Config, s: State, a: Action)
    requires Enabled(s, a) && ClosedIsEmpty(s) && OneClose(s)
    ensures ClosedIsEmpty(Step(c, s, a)) && OneClose(Step(c, s, a))
    ensures s.closed ==> Step(c, s, a).closed
  {
    hide Complete;
  }

  /** An outcome, once set, is never changed, and no promise disappears. */
  lemma {:induction false} StepKeepsOutcomes(c: Config, s: State, a: Action, p: nat)
    requires Enabled(s, a) && p < |s.promises|
    ensures p < |Step(c, s, a).promises|
    ensures s.promises[p].outcome.Some? ==> Step(c, s, a).promises[p].outcome == s.promises[p].outcome
  {
    hide Lookups;
  }

  /** The place of an uncompleted promise after a step. */
  ghost function Moved(c: Config, s: State, a: Action, p: nat, place: Place): Place
    requires Enabled(s, a)
  {
    match a
    case Respond(t, slot, _) => if place == InMap(slot) then InHand(t) else place
    case Error(t, requestId, _) => if place == InMap(ErrorSlot(s, requestId)) then InHand(t) else place
    case Close(t, _, _) => if place.InMap? && !s.closed then InClose(t) else place
    case _ => place
  }

  lemma {:induction false} PromiseMoves(c: Config, s: State, a: Action, p: nat, place: Place)
    requires Enabled(s, a) && p < |s.promises| && At(s, p, place) && OneClose(s)
    requires Open(Step(c, s, a), p)
    ensures At(Step(c, s, a), p, Moved(c, s, a, p, place))
  {
    hide Lookups;
  }

  lemma {:induction false} NewPromiseKept(c: Config, s: State, a: Action)
    requires Enabled(s, a) && |Step(c, s, a).promises| > |s.promises|
    ensures |Step(c, s, a).promises| == |s.promises| + 1 && Kept(Step(c, s, a), |s.promises|)
  {
    hide Lookups;
    var s' := Step(c, s, a);
    assert a.Register?;
    assert At(s', |s.promises|, InMap(a.slot)) || At(s', |s.promises|, InHand(a.t));
  }

  lemma {:induction false} StepKeepsNoneStranded(c: Config, s: State, a: Action)
    requires Enabled(s, a) && NoneStranded(s) && OneClose(s)
    ensures NoneStranded(Step(c, s, a))
  {
    hide Step, Enabled, At, OneClose;
    var s' := Step(c, s, a);
    forall p: nat | Open(s', p) ensures Kept(s', p) {
      if p < |s.promises| {
        StepKeepsOutcomes(c, s, a, p);
        assert Open(s, p) && Kept(s, p);
        var place :| At(s, p, place);
        PromiseMoves(c, s, a, p, place);
      } else {
        NewPromiseKept(c, s, a);
      }
    }
  }

  lemma {:induction false} StepKeepsInv(c: Config, s: State, a: Action)
    requires Enabled(s, a) && Inv(c, s)
    ensures Inv(c, Step(c, s, a))
  {
    hide Step, Enabled, NoneStranded, Counted, ClosedIsEmpty, OneClose;
    StepKeepsNoneStranded(c, s, a);
    StepKeepsCounted(c, s, a);
    StepKeepsClosed(c, s, a);
  }

  lemma {:induction false} ExecKeepsInv(c: Config, s: State, actions: seq<Action>)
    requires Inv(c, s) && Exec(c, s, actions).Reached?
    ensures Inv(c, Exec(c, s, actions).state)
    decreases |actions|
  {
    hide Step, Enabled, Inv;
    if actions != [] {
      StepKeepsInv(c, s, actions[0]);
      ExecKeepsInv(c, Step(c, s, actions[0]), actions[1..]);
    }
  }

  ghost predicate Reachable(c: Config, n: nat, actions: seq<Action>) {
    Exec(c, Init(n), actions).Reached?
  }

  lemma {:induction false} ReachableInv(c: Config, n: nat, actions: seq<Action>)
    requires Reachable(c, n, actions)
    ensures Inv(c, Exec(c, Init(n), actions).state)
  {
    NoLookups();
    ExecKeepsInv(c, Init(n), actions);
  }

  // ----- Main results -----

  /** A promise is taken care of while it is open: by a map of an open connection, a handler or `close`. */
  lemma {:induction false} OpenPromisesAreKept(c: Config, n: nat, actions: seq<Action>, p: nat)
    requires Reachable(c, n, actions) && Open(Exec(c, Init(n), actions).state, p)
    ensures Kept(Exec(c, Init(n), actions).state, p)
  {
    hide Step, Enabled, At;
    ReachableInv(c, n, actions);
  }

  /** `close` has run to its end. */
  predicate CloseFinished(s: State) {
    s.closed && forall t | 0 <= t < |s.threads| :: s.threads[t].failing == []
  }

  /**
   A call still running holds this promise: a handler that took it out of its map, or a refused request.
   The call completes it in its next step.
   */
  ghost predicate InHandler(c: Config, s: State, p: nat) {
    exists t: nat :: At(s, p, InHand(t)) && CompletesNext(c, s, p, t)
  }

  ghost predicate CompletesNext(c: Config, s: State, p: nat, t: nat) {
    Enabled(s, Settle(t)) && !Open(Step(c, s, Settle(t)), p)
  }

  /**
   Once close has finished, no map holds a promise, and a promise is uncompleted only if a call that is
   still running holds it and is about to complete it.
   */
  lemma {:induction false} CloseStrandsNothing(c: Config, n: nat, actions: seq<Action>)
    requires Reachable(c, n, actions) && CloseFinished(Exec(c, Init(n), actions).state)
    ensures
      var s := Exec(c, Init(n), actions).state;
      && s.pending == map[]
      && (forall p: nat | Open(s, p) :: InHandler(c, s, p))
  {
    hide Step, Enabled, CompletesNext;
    ReachableInv(c, n, actions);
    var s := Exec(c, Init(n), actions).state;
    forall p: nat | Open(s, p) ensures InHandler(c, s, p) {
      assert Kept(s, p);
      var place :| At(s, p, place);
      assert place.InHand?;
      HolderCompletes(c, s, p, place.t);
      assert At(s, p, InHand(place.t)) && CompletesNext(c, s, p, place.t);
    }
  }

  lemma {:induction false} HolderCompletes(c: Config, s: State, p: nat, t: nat)
    requires At(s, p, InHand(t)) && s.threads[t].failing == []
    ensures CompletesNext(c, s, p, t)
  {
  }

  /** With every handler returned as well, every promise ever made is completed. */
  lemma {:induction false} QuietMeansCompleted(c: Config, n: nat, actions: seq<Action>)
    requires Reachable(c, n, actions)
    requires
      var s := Exec(c, Init(n), actions).state;
      s.closed && forall t | 0 <= t < |s.threads| :: s.threads[t].failing == [] && s.threads[t].held.None?
    ensures
      var s := Exec(c, Init(n), actions).state;
      forall p | 0 <= p < |s.promises| :: s.promises[p].outcome.Some?
  {
    hide Step, Enabled;
    CloseStrandsNothing(c, n, actions);
    var s := Exec(c, Init(n), actions).state;
    assert forall p: nat :: !InHandler(c, s, p);
    forall p: nat | p < |s.promises| ensures s.promises[p].outcome.Some? {
      assert !Open(s, p);
    }
  }

  /**
   The running handler cannot be dropped from the claim: a response takes a promise out, close runs from
   start to end on another thread, and the promise is still uncompleted.
   */
  lemma {:induction false} HandlerOutlivesClose(c: Config, requestId: nat, v: nat)
    ensures
      var slot := Slot(Request, requestId);
      var actions := [Register(0, slot), Respond(0, slot, Value(v)), Close(1, Disconnected, [])];
      && Reachable(c, 2, actions)
      && CloseFinished(Exec(c, Init(2), actions).state)
      && Open(Exec(c, Init(2), actions).state, 0)
  {
    var slot := Slot(Request, requestId);
    var s0 := Init(2);
    var s1 := Step(c, s0, Register(0, slot));
    var s2 := Step(c, s1, Respond(0, slot, Value(v)));
    assert s2.pending == map[];
    var s3 := Step(c, s2, Close(1, Disconnected, []));
    var a, b, d := Register(0, slot), Respond(0, slot, Value(v)), Close(1, Disconnected, []);
    var actions := [a, b, d];
    assert actions[1..] == [b, d] && [b, d][1..] == [d] && [d][1..] == [];
    assert Exec(c, s2, [d]) == Reached(s3);
    assert Exec(c, s1, [b, d]) == Reached(s3);
    assert Exec(c, s0, actions) == Reached(s3);
  }

  /** From a closed connection on, nothing is ever registered in a map again. */
  lemma {:induction false} ClosedForGood(c: Config, s: State, actions: seq<Action>)
    requires s.closed && Inv(c, s) && Exec(c, s, actions).Reached?
    ensures Exec(c, s, actions).state.closed && Exec(c, s, actions).state.pending == map[]
    decreases |actions|
  {
    hide Step, Enabled, NoneStranded, Counted;
    if actions != [] {
      StepKeepsInv(c, s, actions[0]);
      StepKeepsClosed(c, s, actions[0]);
      ClosedForGood(c, Step(c, s, actions[0]), actions[1..]);
    }
  }

  /** Responses, timeouts, removal and close together give a promise a single outcome. */
  lemma {:induction false} SingleOutcome(c: Config, s: State, actions: seq<Action>, p: nat)
    requires p < |s.promises| && s.promises[p].outcome.Some? && Exec(c, s, actions).Reached?
    ensures
      var s' := Exec(c, s, actions).state;
      p < |s'.promises| && s'.promises[p].outcome == s.promises[p].outcome
    decreases |actions|
  {
    hide Step, Enabled;
    if actions != [] {
      StepKeepsOutcomes(c, s, actions[0], p);
      SingleOutcome(c, Step(c, s, actions[0]), actions[1..], p);
    }
  }

  /** The lookup counter is the number of pending lookups, which never exceeds its limit. */
  lemma {:induction false} LookupsAreCounted(c: Config, n: nat, actions: seq<Action>)
    requires Reachable(c, n, actions)
    ensures
      var s := Exec(c, Init(n), actions).state;
      s.numLookups == |Lookups(s.pending)| <= c.maxLookups
  {
    hide Step, Enabled, NoneStranded, OneClose, ClosedIsEmpty;
    ReachableInv(c, n, actions);
  }

  /** Promise `p` is open and only thread `t` can complete it, with `outcome`. */
  predicate OnlyIn(s: State, p: nat, t: nat, outcome: Outcome) {
    && t < |s.threads| && s.threads[t] == Holding(p, outcome)
    && Open(s, p) && !s.promises[p].timer
    && (forall slot <- s.pending :: s.pending[slot] != p)
    && (forall u | 0 <= u < |s.threads| && u != t :: p !in s.threads[u].failing && Elsewhere(s.threads[u], p))
  }

  predicate Elsewhere(th: Thread, p: nat) {
    th.held.Some? ==> th.held.value.promise != p
  }

  lemma {:induction false} OthersKeepOut(c: Config, s: State, a: Action, p: nat, t: nat, outcome: Outcome)
    requires OnlyIn(s, p, t, outcome) && Enabled(s, a) && a.t != t
    ensures OnlyIn(Step(c, s, a), p, t, outcome)
  {
    hide Lookups;
  }

  lemma {:induction false} OthersRunKeepsOut(c: Config, s: State, others: seq<Action>, p: nat, t: nat, outcome: Outcome)
    requires OnlyIn(s, p, t, outcome) && Exec(c, s, others).Reached?
    requires forall i | 0 <= i < |others| :: others[i].t != t
    ensures OnlyIn(Exec(c, s, others).state, p, t, outcome)
    decreases |others|
  {
    hide Step, Enabled, OnlyIn;
    if others != [] {
      OthersKeepOut(c, s, others[0], p, t, outcome);
      OthersRunKeepsOut(c, Step(c, s, others[0]), others[1..], p, t, outcome);
    }
  }

  /** Promises in maps, in handlers and in close exist. */
  predicate Named(s: State) {
    && (forall slot <- s.pending :: s.pending[slot] < |s.promises|)
    && (forall t | 0 <= t < |s.threads| :: NamedIn(s.threads[t], |s.promises|))
  }

  predicate NamedIn(th: Thread, n: nat) {
    && (th.held.Some? ==> th.held.value.promise < n)
    && (forall p <- th.failing :: p < n)
  }

  lemma {:induction false} StepKeepsNamed(c: Config, s: State, a: Action)
    requires Named(s) && Enabled(s, a)
    ensures Named(Step(c, s, a))
  {
    hide Lookups;
    if a.Close? {
      forall p <- a.order ensures p < |s.promises| {
        var slot :| slot in s.pending && s.pending[slot] == p;
      }
    }
    var th := s.threads[a.t];
    if a.FailNext? { assert forall p <- th.failing[1..] :: p in th.failing; }
  }

  lemma {:induction false} ExecKeepsNamed(c: Config, s: State, actions: seq<Action>)
    requires Named(s) && Exec(c, s, actions).Reached?
    ensures Named(Exec(c, s, actions).state)
    decreases |actions|
  {
    hide Step, Enabled, Named;
    if actions != [] {
      StepKeepsNamed(c, s, actions[0]);
      ExecKeepsNamed(c, Step(c, s, actions[0]), actions[1..]);
    }
  }

  /**
   A request made on a closed connection, or a lookup beyond the limit, enters no map, and whatever the
   other threads do, its promise gets the reason as its outcome when the call completes it.
   */
  lemma {:induction false} RefusalsFailAtOnce(
    c: Config, n: nat, actions: seq<Action>, t: nat, slot: Slot, others: seq<Action>)
    requires Reachable(c, n, actions)
    requires Enabled(Exec(c, Init(n), actions).state, Register(t, slot))
    requires
      var s := Exec(c, Init(n), actions).state;
      && (s.closed || (slot.kind.Lookup? && s.numLookups >= c.maxLookups))
      && Exec(c, Step(c, s, Register(t, slot)), others).Reached?
    requires forall i | 0 <= i < |others| :: others[i].t != t
    ensures
      var s := Exec(c, Init(n), actions).state;
      var refused := Step(c, s, Register(t, slot));
      var end := Exec(c, refused, others).state;
      && refused.pending == s.pending && refused.numLookups == s.numLookups
      && Enabled(end, Settle(t)) && |s.promises| < |Step(c, end, Settle(t)).promises|
      && Step(c, end, Settle(t)).promises[|s.promises|].outcome
           == Some(if s.closed then NotConnected else TooManyLookups)
  {
    ExecKeepsNamed(c, Init(n), actions);
    var s := Exec(c, Init(n), actions).state;
    var outcome := if s.closed then NotConnected else TooManyLookups;
    assert OnlyIn(Step(c, s, Register(t, slot)), |s.promises|, t, outcome);
    OthersRunKeepsOut(c, Step(c, s, Register(t, slot)), others, |s.promises|, t, outcome);
  }

  // ----- Requests queued up at the broker -----

  /**
   Promises in a map are of its kind, and only requests have got a response while they wait. Close never
   fails anything with a timeout, and a timer does not close.
   */
  predicate Kinds(s: State) {
    PendingKinds(s) && ResponseKinds(s) && forall t | 0 <= t < |s.threads| :: ClosesWithoutTimeout(s.threads[t])
  }

  predicate PendingKinds(s: State) {
    forall slot <- s.pending :: s.pending[slot] < |s.promises| && s.promises[s.pending[slot]].kind == slot.kind
  }

  predicate ResponseKinds(s: State) {
    forall p | 0 <= p < |s.promises| && s.promises[p].gotResponse :: s.promises[p].kind.Request?
  }

  predicate ClosesWithoutTimeout(th: Thread) {
    th.failing != [] ==> !th.result.TimedOut? && (th.held.Some? ==> th.held.value.outcome.ServerError?)
  }

  lemma {:induction false} StepKeepsKinds(c: Config, s: State, a: Action)
    requires Kinds(s) && Enabled(s, a)
    ensures Kinds(Step(c, s, a))
  {
    hide PendingKinds, ResponseKinds, Complete;
    StepKeepsPendingKinds(c, s, a);
    StepKeepsResponseKinds(c, s, a);
  }

  lemma {:induction false} StepKeepsPendingKinds(c: Config, s: State, a: Action)
    requires PendingKinds(s) && Enabled(s, a)
    ensures PendingKinds(Step(c, s, a))
  {
    hide Lookups;
  }

  lemma {:induction false} StepKeepsResponseKinds(c: Config, s: State, a: Action)
    requires PendingKinds(s) && ResponseKinds(s) && Enabled(s, a)
    ensures ResponseKinds(Step(c, s, a))
  {
    hide Lookups;
  }

  lemma {:induction false} ExecKeepsKinds(c: Config, s: State, actions: seq<Action>)
    requires Kinds(s) && Exec(c, s, actions).Reached?
    ensures Kinds(Exec(c, s, actions).state)
    decreases |actions|
  {
    hide Step, Enabled, Kinds;
    if actions != [] {
      StepKeepsKinds(c, s, actions[0]);
      ExecKeepsKinds(c, Step(c, s, actions[0]), actions[1..]);
    }
  }

  /** A timer found that no response had come, and its thread has yet to fail the promise. */
  predicate TimingOut(s: State, p: nat) {
    exists t | 0 <= t < |s.threads| :: s.threads[t].held == Some(Held(p, TimedOut))
  }

  /** A request that has got a response and that no timer fails. */
  predicate Waits(s: State, p: nat) {
    && p < |s.promises| && s.promises[p].gotResponse
    && s.promises[p].outcome != Some(TimedOut) && !TimingOut(s, p)
  }

  lemma {:induction false} StepKeepsWaits(c: Config, s: State, a: Action, p: nat)
    requires Kinds(s) && Waits(s, p) && Enabled(s, a)
    ensures Waits(Step(c, s, a), p)
  {
    hide Lookups;
    var s' := Step(c, s, a);
    if TimingOut(s', p) {
      var t :| 0 <= t < |s'.threads| && s'.threads[t].held == Some(Held(p, TimedOut));
      assert s.threads[t].held != Some(Held(p, TimedOut));
    }
  }

  lemma {:induction false} ExecKeepsWaits(c: Config, s: State, actions: seq<Action>, p: nat)
    requires Kinds(s) && Waits(s, p) && Exec(c, s, actions).Reached?
    ensures Waits(Exec(c, s, actions).state, p)
    decreases |actions|
  {
    hide Step, Enabled, Waits, Kinds;
    if actions != [] {
      StepKeepsKinds(c, s, actions[0]);
      StepKeepsWaits(c, s, actions[0], p);
      ExecKeepsWaits(c, Step(c, s, actions[0]), actions[1..], p);
    }
  }

  /** This continuation fails the promise with a timeout. */
  ghost predicate EndsTimedOut(c: Config, s: State, more: seq<Action>, p: nat) {
    && Exec(c, s, more).Reached?
    && p < |Exec(c, s, more).state.promises| && Exec(c, s, more).state.promises[p].outcome == Some(TimedOut)
  }

  /**
   Once the broker has said that a producer is queued up, the request can still fail with a timeout if and
   only if it already has, or its timer passed the test for a response before and has yet to fail it.
   */
  lemma {:induction false} QueuedProducersTimeOutOnlyInARace(c: Config, n: nat, actions: seq<Action>, p: nat)
    requires Reachable(c, n, actions)
    requires
      var s := Exec(c, Init(n), actions).state;
      p < |s.promises| && s.promises[p].gotResponse
    ensures
      var s := Exec(c, Init(n), actions).state;
      (exists more :: EndsTimedOut(c, s, more, p)) <==>
        s.promises[p].outcome == Some(TimedOut) || (s.promises[p].outcome == None && TimingOut(s, p))
  {
    hide Step, Enabled, TimingOut;
    ExecKeepsKinds(c, Init(n), actions);
    var s := Exec(c, Init(n), actions).state;
    if s.promises[p].outcome == Some(TimedOut) {
      assert EndsTimedOut(c, s, [], p);
    } else if s.promises[p].outcome == None && TimingOut(s, p) {
      TimerFails(c, s, p);
    } else {
      forall more ensures !EndsTimedOut(c, s, more, p) {
        if Exec(c, s, more).Reached? { NoTimeoutLater(c, s, more, p); }
      }
    }
  }

  lemma {:induction false} TimerFails(c: Config, s: State, p: nat)
    requires Kinds(s) && Open(s, p) && TimingOut(s, p)
    ensures exists more :: EndsTimedOut(c, s, more, p)
  {
    var t :| 0 <= t < |s.threads| && s.threads[t].held == Some(Held(p, TimedOut));
    assert ClosesWithoutTimeout(s.threads[t]);
    var more := [Settle(t)];
    assert more[1..] == [] && Enabled(s, Settle(t));
    assert Exec(c, s, more) == Reached(Step(c, s, Settle(t)));
    assert EndsTimedOut(c, s, more, p);
  }

  lemma {:induction false} NoTimeoutLater(c: Config, s: State, more: seq<Action>, p: nat)
    requires Kinds(s) && p < |s.promises| && s.promises[p].gotResponse && Exec(c, s, more).Reached?
    requires s.promises[p].outcome != Some(TimedOut) && (s.promises[p].outcome == None ==> !TimingOut(s, p))
    ensures !EndsTimedOut(c, s, more, p)
  {
    hide Step, Enabled, TimingOut;
    if s.promises[p].outcome.Some? {
      SingleOutcome(c, s, more, p);
    } else {
      ExecKeepsWaits(c, s, more, p);
    }
  }

  /**
   The race: the timer finds no response, the broker's response arrives, and the timer fails the request,
   which stays in its map.
   */
  lemma {:induction false} TimerRacesResponse(c: Config, requestId: nat)
    ensures
      var slot := Slot(Request, requestId);
      var actions := [Register(0, slot), Timeout(1, 0), Queued(2, requestId), Settle(1)];
      var run := Exec(c, Init(3), actions);
      && run.Reached? && slot in run.state.pending && run.state.pending[slot] == 0 && |run.state.promises| == 1
      && run.state.promises[0].gotResponse && run.state.promises[0].outcome == Some(TimedOut)
  {
    var slot := Slot(Request, requestId);
    var a1, a2, a3, a4 := Register(0, slot), Timeout(1, 0), Queued(2, requestId), Settle(1);
    var s0 := Init(3);
    var s1 := Step(c, s0, a1);
    var s2 := Step(c, s1, a2);
    var s3 := Step(c, s2, a3);
    var s4 := Step(c, s3, a4);
    assert [a1, a2, a3, a4][1..] == [a2, a3, a4] && [a2, a3, a4][1..] == [a3, a4] && [a3, a4][1..] == [a4];
    assert [a4][1..] == [];
    assert Exec(c, s3, [a4]) == Reached(s4);
    assert Exec(c, s2, [a3, a4]) == Reached(s4);
    assert Exec(c, s1, [a2, a3, a4]) == Reached(s4);
    assert Exec(c, s0, [a1, a2, a3, a4]) == Reached(s4);
  }
}
