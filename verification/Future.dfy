/**
 InternalState of lib/Future.h as a transition system: addListener, complete and get by any number
 of threads, one step per compare-exchange, store, lock, unlock, wait, notify and listener call,
 in every interleaving, with spurious wakeups. The k-th call of addListener brings listener k.
 */
module Future {

  /** The result and value that a completion publishes. */
  type Value = int

  datatype Status = Initial | Completing | Completed

  datatype Thread =
    | Idle
    | AddLock(listener: nat)                        // about to take the mutex
    | AddTest(listener: nat)                        // holds it, about to look at the status
    | AddLeave(listener: nat, value: Value)         // copied the outcome, about to release the mutex
    | AddRun(listener: nat, value: Value)           // about to call the listener itself
    | CompleteCas(value: Value)                     // about to try INITIAL -> COMPLETING
    | CompleteLock(value: Value)                    // won, about to take the mutex
    | CompleteStore(value: Value)                   // holds it, about to store result and value
    | CompletePublish(value: Value)                 // about to store COMPLETED
    | CompleteNotify(value: Value)                  // about to notify_all
    | CompleteSwap(value: Value)                    // about to take the listeners and release the mutex
    | CompleteRun(value: Value, rest: seq<nat>)     // about to call the listeners taken, in order
    | GetLock                                       // about to take the mutex
    | GetTest                                       // holds it, about to evaluate the wait predicate
    | GetAsleep                                     // waiting, without the mutex
    | Leave(answer: Answer)                         // about to release the mutex and return

  /** What addListener, complete and get return. */
  datatype Answer = Listening | Finished(value: Value, won: bool) | Got(value: Value)

  datatype Return = Return(t: nat, answer: Answer)

  datatype Call = Call(listener: nat, value: Value)

  /** The thread whose compare-exchange succeeded, and the value it brings. */
  datatype Winner = Undecided | Won(thread: nat, value: Value)

  /**
   The fields of InternalState, the mutex owner and the threads, then history: how many listeners
   were added, in which order they were queued, the listener calls made by the completer and by
   addListener itself, the completion that won, and the calls that have returned.
   */
  datatype State = State(
    status: Status, stored: Value, listeners: seq<nat>, owner: int, threads: seq<Thread>,
    added: nat, queued: seq<nat>, calledInOrder: seq<Call>, calledDirectly: seq<Call>, winner: Winner,
    returned: seq<Return>)

  const NOBODY: int := -1

  function Init(n: nat): State {
    State(Initial, 0, [], NOBODY, seq(n, _ => Idle), 0, [], [], [], Undecided, [])
  }

  datatype Action =
    | StartAddListener(t: nat)
    | StartComplete(t: nat, value: Value)
    | StartGet(t: nat)
    | Continue(t: nat)
    | SpuriousWakeup(t: nat)

  predicate TakesLock(th: Thread) {
    th.AddLock? || th.CompleteLock? || th.GetLock?
  }

  predicate HoldsLock(th: Thread) {
    th.AddTest? || th.AddLeave? || th.CompleteStore? || th.CompletePublish? || th.CompleteNotify? ||
    th.CompleteSwap? || th.GetTest? || th.Leave?
  }

  predicate Enabled(s: State, a: Action) {
    && a.t < |s.threads|
    && var th := s.threads[a.t];
       match a {
         case Continue(_) => !th.Idle? && !th.GetAsleep? && (TakesLock(th) ==> s.owner == NOBODY)
         case SpuriousWakeup(_) => th.GetAsleep?
         case _ => th.Idle?
       }
  }

  function Go(s: State, t: nat, th: Thread): State
    requires t < |s.threads|
  {
    s.(threads := s.threads[t := th])
  }

  /** The call of a thread returns. */
  function Reply(s: State, t: nat, answer: Answer): State
    requires t < |s.threads|
  {
    Go(s.(returned := s.returned + [Return(t, answer)]), t, Idle)
  }

  function WakeAll(threads: seq<Thread>): (r: seq<Thread>)
    ensures |r| == |threads|
    ensures forall i | 0 <= i < |threads| :: r[i] == if threads[i].GetAsleep? then GetLock else threads[i]
  {
    seq(|threads|, i requires 0 <= i < |threads| => if threads[i].GetAsleep? then GetLock else threads[i])
  }

  /** The next atomic step of the call that a thread is in. */
  function Proceed(s: State, t: nat): State
    requires t < |s.threads|
  {
    match s.threads[t]
    case AddLock(l) => Go(s.(owner := t), t, AddTest(l))
    case AddTest(l) =>
      if s.status.Completed? then Go(s, t, AddLeave(l, s.stored))
      else Go(s.(listeners := s.listeners + [l], queued := s.queued + [l]), t, Leave(Listening))
    case AddLeave(l, v) => Go(s.(owner := NOBODY), t, AddRun(l, v))
    case AddRun(l, v) => Reply(s.(calledDirectly := s.calledDirectly + [Call(l, v)]), t, Listening)
    case CompleteCas(v) =>
      if s.status.Initial? then Go(s.(status := Completing, winner := Won(t, v)), t, CompleteLock(v))
      else Reply(s, t, Finished(v, false))
    case CompleteLock(v) => Go(s.(owner := t), t, CompleteStore(v))
    case CompleteStore(v) => Go(s.(stored := v), t, CompletePublish(v))
    case CompletePublish(v) => Go(s.(status := Completed), t, CompleteNotify(v))
    case CompleteNotify(v) => Go(s.(threads := WakeAll(s.threads)), t, CompleteSwap(v))
    case CompleteSwap(v) => Go(s.(owner := NOBODY, listeners := []), t, CompleteRun(v, s.listeners))
    case CompleteRun(v, rest) =>
      if rest == [] then Reply(s, t, Finished(v, true))
      else Go(s.(calledInOrder := s.calledInOrder + [Call(rest[0], v)]), t, CompleteRun(v, rest[1..]))
    case GetLock => Go(s.(owner := t), t, GetTest)
    case GetTest =>
      if s.status.Completed? then Go(s, t, Leave(Got(s.stored)))
      else Go(s.(owner := NOBODY), t, GetAsleep)
    case Leave(answer) => Reply(s.(owner := NOBODY), t, answer)
    case Idle => s
    case GetAsleep => s
  }

  function Step(s: State, a: Action): State
    requires Enabled(s, a)
  {
    match a
    case StartAddListener(t) => Go(s.(added := s.added + 1), t, AddLock(s.added))
    case StartComplete(t, v) => Go(s, t, CompleteCas(v))
    case StartGet(t) => Go(s, t, GetLock)
    case SpuriousWakeup(t) => Go(s, t, GetLock)
    case Continue(t) => Proceed(s, t)
  }

  datatype Outcome = Stuck | Reached(state: State)

  ghost function Exec(s: State, actions: seq<Action>): Outcome
    decreases |actions|
  {
    if actions == [] then Reached(s)
    else if Enabled(s, actions[0]) then Exec(Step(s, actions[0]), actions[1..])
    else Stuck
  }

  ghost predicate Reachable(n: nat, s: State) {
    exists actions :: Exec(Init(n), actions) == Reached(s)
  }

  // ----- The invariant -----

  ghost predicate Mutex(s: State) {
    && (s.owner == NOBODY || 0 <= s.owner < |s.threads|)
    && forall t | 0 <= t < |s.threads| :: HoldsLock(s.threads[t]) <==> s.owner == t
  }

  /** A thread that won the compare-exchange and has not returned yet. */
  predicate Winning(th: Thread) {
    || th.CompleteLock? || th.CompleteStore? || th.CompletePublish?
    || th.CompleteNotify? || th.CompleteSwap? || th.CompleteRun?
  }

  predicate Decided(s: State, v: Value) {
    s.winner.Won? && s.winner.value == v
  }

  /** What get returns is the winner's value; no complete loses to itself. */
  predicate AnswerAgrees(s: State, answer: Answer) {
    match answer
    case Listening => true
    case Finished(v, won) => s.winner.Won? && (won ==> s.winner.value == v)
    case Got(v) => Decided(s, v)
  }

  /** What a thread knows about the outcome agrees with the completion that won. */
  ghost predicate Agrees(s: State, th: Thread) {
    match th
    case AddLeave(_, v) => Decided(s, v) && s.status.Completed?
    case AddRun(_, v) => Decided(s, v) && s.status.Completed?
    case CompleteLock(v) => Decided(s, v) && s.status.Completing?
    case CompleteStore(v) => Decided(s, v) && s.status.Completing?
    case CompletePublish(v) => Decided(s, v) && s.status.Completing? && s.stored == v
    case CompleteNotify(v) => Decided(s, v) && s.status.Completed?
    case CompleteSwap(v) => Decided(s, v) && s.status.Completed?
    case CompleteRun(v, _) => Decided(s, v) && s.status.Completed?
    case Leave(answer) => AnswerAgrees(s, answer) && !answer.Finished?
    case _ => true
  }

  ghost predicate OneWinner(s: State) {
    && (s.winner.Undecided? <==> s.status.Initial?)
    && (s.winner.Won? ==> s.winner.thread < |s.threads|)
    && forall t | 0 <= t < |s.threads| && Winning(s.threads[t]) :: s.winner.Won? && s.winner.thread == t
  }

  ghost predicate Agreement(s: State) {
    && (s.status.Completed? ==> Decided(s, s.stored))
    && forall t | 0 <= t < |s.threads| :: Agrees(s, s.threads[t])
  }

  ghost predicate CallsAgree(s: State) {
    && (forall i | 0 <= i < |s.calledInOrder| :: Decided(s, s.calledInOrder[i].value))
    && (forall i | 0 <= i < |s.calledDirectly| :: Decided(s, s.calledDirectly[i].value))
    && (forall i | 0 <= i < |s.returned| :: AnswerAgrees(s, s.returned[i].answer))
  }

  function Listeners(calls: seq<Call>): (r: seq<nat>)
    ensures |r| == |calls| && forall i | 0 <= i < |r| :: r[i] == calls[i].listener
  {
    seq(|calls|, i requires 0 <= i < |calls| => calls[i].listener)
  }

  /** The queued listeners not called yet: taken by the winner, or still in the list. */
  ghost function Waiting(s: State): seq<nat>
    requires OneWinner(s)
  {
    if s.winner.Won? && s.threads[s.winner.thread].CompleteRun? then s.threads[s.winner.thread].rest else s.listeners
  }

  ghost predicate InOrder(s: State)
    requires OneWinner(s)
  {
    && Listeners(s.calledInOrder) + Waiting(s) == s.queued
    && (s.status.Completed? ==>
          var th := s.threads[s.winner.thread];
          th.CompleteNotify? || th.CompleteSwap? || s.listeners == [])
  }

  /** A get asleep in a completed future is about to be woken by the winner, who holds the mutex. */
  ghost predicate NoLostWakeup(s: State) {
    forall t | 0 <= t < |s.threads| && s.threads[t].GetAsleep? && s.status.Completed? ::
      0 <= s.owner < |s.threads| && s.threads[s.owner].CompleteNotify?
  }

  /** Other threads stay where they are, or are woken. */
  ghost predicate OnlyWoken(th: Thread, th': Thread) {
    th' == th || (th.GetAsleep? && th'.GetLock?)
  }

  lemma {:induction false} OthersStay(s: State, a: Action)
    requires Enabled(s, a)
    ensures
      var s' := Step(s, a);
      && |s'.threads| == |s.threads|
      && forall t | 0 <= t < |s.threads| && t != a.t :: OnlyWoken(s.threads[t], s'.threads[t])
  {
  }

  lemma {:induction false} StepKeepsMutex(s: State, a: Action)
    requires Mutex(s) && Enabled(s, a)
    ensures Mutex(Step(s, a))
  {}

  lemma {:induction false} StepKeepsOneWinner(s: State, a: Action)
    requires OneWinner(s) && Enabled(s, a)
    ensures OneWinner(Step(s, a))
  {
    hide WakeAll;
    var s' := Step(s, a);
    OthersStay(s, a);
    forall t | 0 <= t < |s'.threads| && Winning(s'.threads[t])
      ensures s'.winner.Won? && s'.winner.thread == t
    {
      if t != a.t { assert OnlyWoken(s.threads[t], s'.threads[t]) && Winning(s.threads[t]); }
    }
  }

  /** What a step does to the outcome, and that its own thread agrees with it afterwards. */
  lemma {:induction false} OwnThreadAgrees(s: State, a: Action)
    requires OneWinner(s) && Agreement(s) && Enabled(s, a)
    ensures
      var s' := Step(s, a);
      && |s'.threads| == |s.threads| && Agrees(s', s'.threads[a.t]) && (s'.status.Completed? ==> Decided(s', s'.stored))
      && (s.winner.Won? ==> s'.winner == s.winner) && (s.status.Completed? ==> s'.status.Completed?)
      && (s.winner.Won? && s.winner.thread != a.t ==> s'.status == s.status && s'.stored == s.stored)
  {
    hide WakeAll;
    assert Agrees(s, s.threads[a.t]);
  }

  lemma {:induction false} StepKeepsAgreement(s: State, a: Action)
    requires OneWinner(s) && Agreement(s) && Enabled(s, a)
    ensures Agreement(Step(s, a))
  {
    hide Step;
    var s' := Step(s, a);
    OthersStay(s, a);
    OwnThreadAgrees(s, a);
    forall t | 0 <= t < |s'.threads| && t != a.t
      ensures Agrees(s', s'.threads[t])
    {
      assert Agrees(s, s.threads[t]) && OnlyWoken(s.threads[t], s'.threads[t]);
    }
  }

  lemma {:induction false} StepKeepsCallsAgree(s: State, a: Action)
    requires OneWinner(s) && Agreement(s) && CallsAgree(s) && Enabled(s, a)
    ensures CallsAgree(Step(s, a))
  {
    assert Agrees(s, s.threads[a.t]);
  }

  lemma {:induction false} StepKeepsNoLostWakeup(s: State, a: Action)
    requires Mutex(s) && NoLostWakeup(s) && Enabled(s, a)
    ensures NoLostWakeup(Step(s, a))
  {}

  lemma {:induction false} StepKeepsInOrder(s: State, a: Action)
    requires Mutex(s) && OneWinner(s) && Agreement(s) && InOrder(s) && Enabled(s, a)
    ensures OneWinner(Step(s, a)) && InOrder(Step(s, a))
  {
    StepKeepsOneWinner(s, a);
    assert Agrees(s, s.threads[a.t]);
  }

  // ----- Each listener is in exactly one place -----

  function Occurrences(ids: seq<nat>, l: nat): nat {
    if ids == [] then 0 else (if ids[0] == l then 1 else 0) + Occurrences(ids[1..], l)
  }

  lemma {:induction false} AppendOccurrence(ids: seq<nat>, k: nat, l: nat)
    ensures Occurrences(ids + [k], l) == Occurrences(ids, l) + if k == l then 1 else 0
  {
    if ids != [] {
      assert (ids + [k])[1..] == ids[1..] + [k];
      AppendOccurrence(ids[1..], k, l);
    }
  }

  /** How often a thread is responsible for calling or queueing listener `l`. */
  function Holding(th: Thread, l: nat): nat {
    match th
    case AddLock(k) => if k == l then 1 else 0
    case AddTest(k) => if k == l then 1 else 0
    case AddLeave(k, _) => if k == l then 1 else 0
    case AddRun(k, _) => if k == l then 1 else 0
    case CompleteRun(_, rest) => Occurrences(rest, l)
    case _ => 0
  }

  function InThreads(threads: seq<Thread>, l: nat): nat {
    if threads == [] then 0 else Holding(threads[0], l) + InThreads(threads[1..], l)
  }

  lemma {:induction false} InThreadsUpdate(threads: seq<Thread>, t: nat, th: Thread, l: nat)
    requires t < |threads|
    ensures InThreads(threads[t := th], l) + Holding(threads[t], l) == InThreads(threads, l) + Holding(th, l)
  {
    if t > 0 {
      assert threads[t := th][1..] == threads[1..][t - 1 := th];
      InThreadsUpdate(threads[1..], t - 1, th, l);
    }
  }

  lemma {:induction false} SameHolding(a: seq<Thread>, b: seq<Thread>, l: nat)
    requires |a| == |b| && forall t | 0 <= t < |a| :: Holding(a[t], l) == Holding(b[t], l)
    ensures InThreads(a, l) == InThreads(b, l)
  {
    if a != [] { SameHolding(a[1..], b[1..], l); }
  }

  lemma {:induction false} NothingHeld(threads: seq<Thread>, l: nat)
    requires forall t | 0 <= t < |threads| :: Holding(threads[t], l) == 0
    ensures InThreads(threads, l) == 0
  {
    if threads != [] { NothingHeld(threads[1..], l); }
  }

  /** How often listener `l` has been called. */
  ghost function TimesCalled(s: State, l: nat): nat {
    Occurrences(Listeners(s.calledInOrder), l) + Occurrences(Listeners(s.calledDirectly), l)
  }

  /** Each added listener is held by one thread, or queued, or called, once in all. */
  ghost predicate InOnePlace(s: State, l: nat) {
    InThreads(s.threads, l) + Occurrences(s.listeners, l) + TimesCalled(s, l) == if l < s.added then 1 else 0
  }

  lemma {:induction false} AppendCall(calls: seq<Call>, call: Call, l: nat)
    ensures Occurrences(Listeners(calls + [call]), l)
            == Occurrences(Listeners(calls), l) + if call.listener == l then 1 else 0
  {
    assert Listeners(calls + [call]) == Listeners(calls) + [call.listener];
    AppendOccurrence(Listeners(calls), call.listener, l);
  }

  /** Listener `l` as seen from one thread: what it holds, the list, and the calls made. */
  ghost function Visible(s: State, t: nat, l: nat): nat
    requires t < |s.threads|
  {
    Holding(s.threads[t], l) + Occurrences(s.listeners, l) + TimesCalled(s, l)
  }

  lemma {:induction false} CallMovesListener(s: State, t: nat, l: nat)
    requires t < |s.threads| && (s.threads[t].CompleteRun? || s.threads[t].AddRun?)
    ensures Visible(Step(s, Continue(t)), t, l) == Visible(s, t, l)
  {
    match s.threads[t]
    case AddRun(k, v) => AppendCall(s.calledDirectly, Call(k, v), l);
    case CompleteRun(v, rest) => if rest != [] { AppendCall(s.calledInOrder, Call(rest[0], v), l); }
  }

  /** A step moves a listener from place to place; only addListener brings in a new one. */
  lemma {:induction false} StepMovesListener(s: State, a: Action, l: nat)
    requires Enabled(s, a)
    ensures Visible(Step(s, a), a.t, l) == Visible(s, a.t, l) + if a.StartAddListener? && l == s.added then 1 else 0
  {
    hide WakeAll, Listeners;
    if a.Continue? {
      var th := s.threads[a.t];
      if th.AddRun? || th.CompleteRun? {
        CallMovesListener(s, a.t, l);
      } else if th.AddTest? {
        AppendOccurrence(s.listeners, th.listener, l);
      }
    }
  }

  lemma {:induction false} OtherThreadsKeepHolding(s: State, a: Action, l: nat)
    requires Enabled(s, a)
    ensures
      var s' := Step(s, a);
      InThreads(s'.threads, l) + Holding(s.threads[a.t], l) == InThreads(s.threads, l) + Holding(s'.threads[a.t], l)
  {
    var s', t := Step(s, a), a.t;
    if a.Continue? && s.threads[t].CompleteNotify? {
      SameHolding(s.threads, s'.threads, l);
    } else {
      InThreadsUpdate(s.threads, t, s'.threads[t], l);
      assert s'.threads == s.threads[t := s'.threads[t]];
    }
  }

  lemma {:induction false} StepKeepsInOnePlace(s: State, a: Action, l: nat)
    requires InOnePlace(s, l) && Enabled(s, a)
    ensures InOnePlace(Step(s, a), l)
  {
    hide Step, Enabled, InThreads, Holding, TimesCalled, Occurrences;
    StepMovesListener(s, a, l);
    OtherThreadsKeepHolding(s, a, l);
    StepAdds(s, a);
  }

  lemma {:induction false} StepAdds(s: State, a: Action)
    requires Enabled(s, a)
    ensures Step(s, a).added == s.added + if a.StartAddListener? then 1 else 0
    ensures |Step(s, a).threads| == |s.threads|
  {
    hide WakeAll;
  }

  lemma {:induction false} StepKeepsExactlyOnce(s: State, a: Action)
    requires ExactlyOnce(s) && Enabled(s, a)
    ensures ExactlyOnce(Step(s, a))
  {
    forall l: nat
      ensures InOnePlace(Step(s, a), l)
    {
      StepKeepsInOnePlace(s, a, l);
    }
  }

  ghost predicate ExactlyOnce(s: State) {
    forall l: nat :: InOnePlace(s, l)
  }

  lemma {:induction false} StepKeepsWinner(s: State, a: Action)
    requires OneWinner(s) && s.winner.Won? && Enabled(s, a)
    ensures Step(s, a).winner == s.winner
  {}

  // ----- Every run -----

  ghost predicate Inv(s: State) {
    Mutex(s) && OneWinner(s) && Agreement(s) && CallsAgree(s) && InOrder(s) && NoLostWakeup(s) && ExactlyOnce(s)
  }

  lemma {:induction false} ExecKeepsInv(s: State, actions: seq<Action>)
    requires Inv(s) && Exec(s, actions).Reached?
    ensures Inv(Exec(s, actions).state)
    decreases |actions|
  {
    if actions != [] {
      StepKeepsInv(s, actions[0]);
      ExecKeepsInv(Step(s, actions[0]), actions[1..]);
    }
  }

  lemma {:induction false} StepKeepsInv(s: State, a: Action)
    requires Inv(s) && Enabled(s, a)
    ensures Inv(Step(s, a))
  {
    StepKeepsMutex(s, a);
    StepKeepsOneWinner(s, a);
    StepKeepsAgreement(s, a);
    StepKeepsCallsAgree(s, a);
    StepKeepsInOrder(s, a);
    StepKeepsNoLostWakeup(s, a);
    StepKeepsExactlyOnce(s, a);
  }

  lemma {:induction false} ReachableInv(n: nat, s: State)
    requires Reachable(n, s)
    ensures Inv(s)
  {
    var actions :| Exec(Init(n), actions) == Reached(s);
    forall l: nat
      ensures InOnePlace(Init(n), l)
    {
      NothingHeld(Init(n).threads, l);
    }
    ExecKeepsInv(Init(n), actions);
  }

  // ----- Main results -----

  /** The completion that first changes the status stays the winner, whatever follows. */
  lemma {:induction false} FirstCompletionWins(s: State, actions: seq<Action>)
    requires OneWinner(s) && s.winner.Won? && Exec(s, actions).Reached?
    ensures Exec(s, actions).state.winner == s.winner
    decreases |actions|
  {
    if actions != [] {
      StepKeepsOneWinner(s, actions[0]);
      StepKeepsWinner(s, actions[0]);
      FirstCompletionWins(Step(s, actions[0]), actions[1..]);
    }
  }

  /** Every listener call and every get sees the outcome of the winner. */
  lemma {:induction false} EveryoneSeesTheWinner(n: nat, s: State)
    requires Reachable(n, s)
    ensures forall call | call in s.calledInOrder + s.calledDirectly :: Decided(s, call.value)
    ensures forall r | r in s.returned && r.answer.Got? :: Decided(s, r.answer.value)
    ensures s.status.Completed? ==> Decided(s, s.stored)
  {
    ReachableInv(n, s);
  }

  /** No listener is called twice, and queued listeners are called in the order they were queued. */
  lemma {:induction false} ListenersRunAtMostOnceInOrder(n: nat, s: State, l: nat)
    requires Reachable(n, s)
    ensures TimesCalled(s, l) <= 1
    ensures TimesCalled(s, l) == 1 ==> l < s.added
    ensures Listeners(s.calledInOrder) <= s.queued
  {
    ReachableInv(n, s);
    assert InOnePlace(s, l);
  }

  /** Once the future is completed and all calls have returned, every listener has run exactly once. */
  lemma {:induction false} EveryListenerHasRun(n: nat, s: State, l: nat)
    requires Reachable(n, s) && s.status.Completed?
    requires forall t | 0 <= t < |s.threads| :: s.threads[t].Idle?
    ensures TimesCalled(s, l) == if l < s.added then 1 else 0
    ensures Listeners(s.calledInOrder) == s.queued
  {
    ReachableInv(n, s);
    NothingHeld(s.threads, l);
    assert InOnePlace(s, l);
  }

  /** A get sleeps only while the future is not completed, or until the winner notifies. */
  lemma {:induction false} GetIsWoken(n: nat, s: State, t: nat)
    requires Reachable(n, s) && t < |s.threads| && s.threads[t].GetAsleep?
    ensures !s.status.Completed? || (0 <= s.owner < |s.threads| && s.threads[s.owner].CompleteNotify?)
  {
    ReachableInv(n, s);
  }
}
