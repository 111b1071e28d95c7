/**
 lib/BlockingQueue.h as a transition system over any number of threads: taking the mutex, the
 critical section, releasing it, waiting (which releases it), each notify_all, timeouts and
 spurious wakeups are steps of their own, in every interleaving. Producers notify only when the
 queue was empty and consumers only when it was full, both after releasing the mutex.
 */
module BlockingQueue {

  type Value = int

  datatype Condition = NotEmpty | NotFull

  datatype Op =
    | Push(value: Value)
    | Pop
    | TimedPop(expired: bool)   // expired once the wait has timed out
    | PopIf(accept: Value -> bool)
    | Clear
    | Close

  /** What an operation returns; `No` stands for false. */
  datatype Answer = No | Yes | Popped(value: Value)

  datatype Thread =
    | Idle
    | Acquire(op: Op)                              // about to take the mutex
    | Inside(op: Op)                               // holds the mutex, about to run the critical section
    | Asleep(op: Op)                               // in condition wait, without the mutex
    | Signal(pending: seq<Condition>, locked: bool, op: Op, answer: Answer)  // about to notify_all
    | Leave(pending: seq<Condition>, op: Op, answer: Answer)                 // about to unlock, then to notify

  /** A value and the thread that pushed or popped it; NOBODY if clear dropped it. */
  datatype Moved = Moved(value: Value, t: int)

  /** A call that has returned. */
  datatype Return = Return(t: nat, op: Op, answer: Answer)

  /** The last three are history: accepted pushes, pops and clears, and calls that returned, in order. */
  datatype State = State(
    queue: seq<Value>, closed: bool, owner: int, threads: seq<Thread>,
    pushed: seq<Moved>, removed: seq<Moved>, returned: seq<Return>)

  const NOBODY: int := -1

  function Init(n: nat): State {
    State([], false, NOBODY, seq(n, _ => Idle), [], [], [])
  }

  datatype Action =
    | Start(t: nat, op: Op)
    | Continue(t: nat)
    | SpuriousWakeup(t: nat)
    | Timeout(t: nat)

  predicate Enabled(s: State, a: Action) {
    && a.t < |s.threads|
    && var th := s.threads[a.t];
       match a {
         case Start(_, op) => th.Idle? && (op.TimedPop? ==> !op.expired)
         case Continue(_) => !th.Idle? && !th.Asleep? && (th.Acquire? ==> s.owner == NOBODY)
         case SpuriousWakeup(_) => th.Asleep?
         case Timeout(_) => th.Asleep? && th.op.TimedPop?
       }
  }

  predicate HoldsLock(th: Thread) {
    th.Inside? || th.Leave? || (th.Signal? && th.locked)
  }

  /** The condition variable that an operation waits on. */
  function WaitsOn(op: Op): Condition {
    if op.Push? then NotFull else NotEmpty
  }

  predicate Full(maxSize: nat, s: State) {
    |s.queue| == maxSize
  }

  function Go(s: State, t: nat, th: Thread): State
    requires t < |s.threads|
  {
    s.(threads := s.threads[t := th])
  }

  function Sleep(s: State, t: nat, op: Op): State
    requires t < |s.threads|
  {
    Go(s.(owner := NOBODY), t, Asleep(op))
  }

  function WakeAll(threads: seq<Thread>, c: Condition): (r: seq<Thread>)
    ensures |r| == |threads|
    ensures forall i | 0 <= i < |threads| ::
              r[i] == if threads[i].Asleep? && WaitsOn(threads[i].op) == c then Acquire(threads[i].op) else threads[i]
  {
    seq(|threads|, i requires 0 <= i < |threads| =>
      if threads[i].Asleep? && WaitsOn(threads[i].op) == c then Acquire(threads[i].op) else threads[i])
  }

  /** The operation is done under the mutex. */
  function Finish(s: State, t: nat, op: Op, answer: Answer, pending: seq<Condition>): State
    requires t < |s.threads|
  {
    Go(s, t, Leave(pending, op, answer))
  }

  function TakeFront(maxSize: nat, s: State, t: nat, op: Op): State
    requires t < |s.threads| && s.queue != []
  {
    Finish(s.(queue := s.queue[1..], removed := s.removed + [Moved(s.queue[0], t)]), t, op, Popped(s.queue[0]),
           if Full(maxSize, s) then [NotFull] else [])
  }

  function Cleared(queue: seq<Value>): (r: seq<Moved>)
    ensures |r| == |queue| && forall i | 0 <= i < |r| :: r[i] == Moved(queue[i], NOBODY)
  {
    seq(|queue|, i requires 0 <= i < |queue| => Moved(queue[i], NOBODY))
  }

  /** The critical section of an operation, up to where it waits or releases the mutex. */
  function Body(maxSize: nat, s: State, t: nat, op: Op): State
    requires t < |s.threads|
  {
    match op
    case Push(v) =>
      if Full(maxSize, s) && !s.closed then Sleep(s, t, op)
      else if s.closed then Finish(s, t, op, No, [])
      else
        Finish(s.(queue := s.queue + [v], pushed := s.pushed + [Moved(v, t)]), t, op, Yes,
               if s.queue == [] then [NotEmpty] else [])
    case Pop =>
      if s.queue == [] && !s.closed then Sleep(s, t, op)
      else if s.closed then Finish(s, t, op, No, [])
      else TakeFront(maxSize, s, t, op)
    case TimedPop(expired) =>
      if s.queue == [] && !s.closed then (if expired then Finish(s, t, op, No, []) else Sleep(s, t, op))
      else if s.closed then Finish(s, t, op, No, [])
      else TakeFront(maxSize, s, t, op)
    case PopIf(accept) =>
      if s.queue == [] || s.closed || !accept(s.queue[0]) then Finish(s, t, op, No, [])
      else TakeFront(maxSize, s, t, op)
    case Clear =>
      Go(s.(queue := [], removed := s.removed + Cleared(s.queue)), t, Signal([NotFull], true, op, Yes))
    case Close =>
      Go(s.(closed := true), t, Signal([NotEmpty, NotFull], true, op, Yes))
  }

  /** The next atomic step of the operation that a thread is in. */
  function Proceed(maxSize: nat, s: State, t: nat): State
    requires t < |s.threads|
  {
    match s.threads[t]
    case Acquire(op) => Go(s.(owner := t), t, Inside(op))
    case Inside(op) => Body(maxSize, s, t, op)
    case Signal(pending, locked, op, answer) =>
      if pending != [] then
        Go(s.(threads := WakeAll(s.threads, pending[0])), t, Signal(pending[1..], locked, op, answer))
      else if locked then Finish(s, t, op, answer, [])
      else Go(s.(returned := s.returned + [Return(t, op, answer)]), t, Idle)
    case Leave(pending, op, answer) => Go(s.(owner := NOBODY), t, Signal(pending, false, op, answer))
    case Idle => s
    case Asleep(_) => s
  }

  function Step(maxSize: nat, s: State, a: Action): State
    requires Enabled(s, a)
  {
    match a
    case Start(t, op) => Go(s, t, Acquire(op))
    case SpuriousWakeup(t) => Go(s, t, Acquire(s.threads[t].op))
    case Timeout(t) => Go(s, t, Acquire(TimedPop(true)))
    case Continue(t) => Proceed(maxSize, s, t)
  }

  datatype Outcome = Stuck | Reached(state: State)

  ghost function Exec(maxSize: nat, s: State, actions: seq<Action>): Outcome
    decreases |actions|
  {
    if actions == [] then Reached(s)
    else if Enabled(s, actions[0]) then Exec(maxSize, Step(maxSize, s, actions[0]), actions[1..])
    else Stuck
  }

  ghost predicate Reachable(maxSize: nat, n: nat, s: State) {
    exists actions :: Exec(maxSize, Init(n), actions) == Reached(s)
  }

  // ----- The invariant -----

  ghost predicate Mutex(s: State) {
    && (s.owner == NOBODY || 0 <= s.owner < |s.threads|)
    && forall t | 0 <= t < |s.threads| :: HoldsLock(s.threads[t]) <==> s.owner == t
  }

  predicate WillNotify(th: Thread, c: Condition) {
    (th.Signal? || th.Leave?) && c in th.pending
  }

  ghost predicate NotifyPending(s: State, c: Condition) {
    exists t | 0 <= t < |s.threads| :: WillNotify(s.threads[t], c)
  }

  /** What a sleeper waits for has not happened. */
  predicate MustWait(maxSize: nat, s: State, c: Condition) {
    !s.closed && match c { case NotEmpty => s.queue == [] case NotFull => Full(maxSize, s) }
  }

  ghost predicate NoLostWakeup(maxSize: nat, s: State, c: Condition) {
    forall t | 0 <= t < |s.threads| && s.threads[t].Asleep? && WaitsOn(s.threads[t].op) == c ::
      MustWait(maxSize, s, c) || NotifyPending(s, c)
  }

  function Values(moved: seq<Moved>): (r: seq<Value>)
    ensures |r| == |moved| && forall i | 0 <= i < |r| :: r[i] == moved[i].value
  {
    seq(|moved|, i requires 0 <= i < |moved| => moved[i].value)
  }

  /** What left the queue, followed by what is in it, is what was pushed. */
  ghost predicate Fifo(maxSize: nat, s: State) {
    |s.queue| <= maxSize && Values(s.removed) + s.queue == Values(s.pushed)
  }

  ghost predicate Inv(maxSize: nat, s: State) {
    Mutex(s) && Fifo(maxSize, s) && NoLostWakeup(maxSize, s, NotEmpty) && NoLostWakeup(maxSize, s, NotFull)
  }

  lemma {:induction false} StepKeepsMutex(maxSize: nat, s: State, a: Action)
    requires Mutex(s) && Enabled(s, a)
    ensures Mutex(Step(maxSize, s, a))
  {
    hide Cleared, WaitsOn;
  }

  lemma {:induction false} StepKeepsFifo(maxSize: nat, s: State, a: Action)
    requires Fifo(maxSize, s) && Enabled(s, a)
    ensures Fifo(maxSize, Step(maxSize, s, a))
  {
    hide Body, Values, WakeAll;
    if a.Continue? && s.threads[a.t].Inside? { BodyKeepsFifo(maxSize, s, a.t, s.threads[a.t].op); }
  }

  lemma {:induction false} BodyKeepsFifo(maxSize: nat, s: State, t: nat, op: Op)
    requires t < |s.threads| && Fifo(maxSize, s)
    ensures Fifo(maxSize, Body(maxSize, s, t, op))
  {
    var s' := Body(maxSize, s, t, op);
    assert Values(s'.removed)[..|s.removed|] == Values(s.removed);
    assert Values(s'.pushed)[..|s.pushed|] == Values(s.pushed);
  }

  /** A critical section that ends a reason to wait leaves with a notify to send; a new sleeper has a reason. */
  lemma {:induction false} BodyNotifies(maxSize: nat, s: State, t: nat, op: Op, c: Condition)
    requires t < |s.threads| && |s.queue| <= maxSize
    ensures
      var s' := Body(maxSize, s, t, op);
      && s'.threads == s.threads[t := s'.threads[t]]
      && (MustWait(maxSize, s, c) && !MustWait(maxSize, s', c) ==> WillNotify(s'.threads[t], c))
      && (s'.threads[t].Asleep? && WaitsOn(s'.threads[t].op) == c ==> MustWait(maxSize, s', c))
  {}

  lemma {:induction false} SignalWakes(maxSize: nat, s: State, t: nat, c: Condition)
    requires t < |s.threads| && s.threads[t].Signal? && NoLostWakeup(maxSize, s, c)
    ensures NoLostWakeup(maxSize, Step(maxSize, s, Continue(t)), c)
  {
    var s' := Step(maxSize, s, Continue(t));
    var pending := s.threads[t].pending;
    if pending == [] || pending[0] != c {
      if NotifyPending(s, c) {
        var w :| 0 <= w < |s.threads| && WillNotify(s.threads[w], c);
        if w == t { assert c in pending[1..]; }
        assert WillNotify(s'.threads[w], c);
      }
    }
  }

  lemma {:induction false} StepKeepsNoLostWakeup(maxSize: nat, s: State, a: Action, c: Condition)
    requires |s.queue| <= maxSize && NoLostWakeup(maxSize, s, c) && Enabled(s, a)
    ensures NoLostWakeup(maxSize, Step(maxSize, s, a), c)
  {
    var s', th := Step(maxSize, s, a), s.threads[a.t];
    if a.Continue? && th.Signal? {
      SignalWakes(maxSize, s, a.t, c);
      return;
    }
    if a.Continue? && th.Inside? { BodyNotifies(maxSize, s, a.t, th.op, c); }
    assert s'.threads == s.threads[a.t := s'.threads[a.t]];
    if WillNotify(s'.threads[a.t], c) {
      assert NotifyPending(s', c);
    } else if NotifyPending(s, c) {
      var w :| 0 <= w < |s.threads| && WillNotify(s.threads[w], c);
      assert WillNotify(s'.threads[w], c);
    }
  }

  lemma {:induction false} ExecKeepsInv(maxSize: nat, s: State, actions: seq<Action>)
    requires Inv(maxSize, s) && Exec(maxSize, s, actions).Reached?
    ensures Inv(maxSize, Exec(maxSize, s, actions).state)
    decreases |actions|
  {
    if actions != [] {
      var s' := Step(maxSize, s, actions[0]);
      StepKeepsMutex(maxSize, s, actions[0]);
      StepKeepsFifo(maxSize, s, actions[0]);
      StepKeepsNoLostWakeup(maxSize, s, actions[0], NotEmpty);
      StepKeepsNoLostWakeup(maxSize, s, actions[0], NotFull);
      ExecKeepsInv(maxSize, s', actions[1..]);
    }
  }

  lemma {:induction false} ReachableInv(maxSize: nat, n: nat, s: State)
    requires Reachable(maxSize, n, s)
    ensures Inv(maxSize, s)
  {
    var actions :| Exec(maxSize, Init(n), actions) == Reached(s);
    ExecKeepsInv(maxSize, Init(n), actions);
  }

  // ----- Main results -----

  /**
   In every reachable state a sleeping consumer implies an empty open queue or a pending notify of
   its condition, and a sleeping producer implies a full open queue or a pending notify of its own.
   */
  lemma {:induction false} SleepersHaveAReason(maxSize: nat, n: nat, s: State, t: nat)
    requires Reachable(maxSize, n, s) && t < |s.threads| && s.threads[t].Asleep?
    ensures s.threads[t].op.Push? ==> (|s.queue| == maxSize && !s.closed) || NotifyPending(s, NotFull)
    ensures !s.threads[t].op.Push? ==> (s.queue == [] && !s.closed) || NotifyPending(s, NotEmpty)
  {
    ReachableInv(maxSize, n, s);
  }

  /** The values that were handed to a caller, and those that clear dropped. */
  function Handed(removed: seq<Moved>): seq<Value> {
    if removed == [] then []
    else if removed[0].t != NOBODY then [removed[0].value] + Handed(removed[1..])
    else Handed(removed[1..])
  }

  function Dropped(removed: seq<Moved>): seq<Value> {
    if removed == [] then []
    else if removed[0].t != NOBODY then Dropped(removed[1..])
    else [removed[0].value] + Dropped(removed[1..])
  }

  /**
   The queue holds at most maxSize values. The accepted pushes, in order, are the removals followed
   by the queue; the removals are the pops and the cleared values, each accounted for once.
   */
  lemma {:induction false} QueueIsFifo(maxSize: nat, n: nat, s: State)
    requires Reachable(maxSize, n, s)
    ensures |s.queue| <= maxSize
    ensures Values(s.removed) + s.queue == Values(s.pushed)
    ensures multiset(Handed(s.removed)) + multiset(Dropped(s.removed)) + multiset(s.queue) == multiset(Values(s.pushed))
    ensures Dropped(s.removed) == [] ==> Handed(s.removed) + s.queue == Values(s.pushed)
  {
    ReachableInv(maxSize, n, s);
    EachRemovalOnce(s.removed);
    if Dropped(s.removed) == [] { WithoutClears(s.removed); }
  }

  lemma {:induction false} EachRemovalOnce(removed: seq<Moved>)
    ensures multiset(Handed(removed)) + multiset(Dropped(removed)) == multiset(Values(removed))
  {
    if removed == [] {
      assert Values(removed) == [];
    } else {
      var v, rest := removed[0].value, removed[1..];
      EachRemovalOnce(rest);
      assert Values(removed) == [v] + Values(rest);
      MultisetCons(v, Values(rest));
      MultisetCons(v, Handed(rest));
      MultisetCons(v, Dropped(rest));
    }
  }

  lemma {:induction false} WithoutClears(removed: seq<Moved>)
    requires Dropped(removed) == []
    ensures Handed(removed) == Values(removed)
  {
    if removed != [] {
      WithoutClears(removed[1..]);
      assert Values(removed) == [removed[0].value] + Values(removed[1..]);
    }
  }

  lemma {:induction false} MultisetCons(v: Value, rest: seq<Value>)
    ensures multiset([v] + rest) == multiset{v} + multiset(rest)
  {}

  /** Producers and consumers cannot all be asleep at once, unless the queue has no room at all. */
  lemma {:induction false} NoDeadlock(maxSize: nat, n: nat, s: State, p: nat, q: nat)
    requires Reachable(maxSize, n, s) && p < |s.threads| && q < |s.threads|
    requires s.threads[p].Asleep? && s.threads[p].op.Push?
    requires s.threads[q].Asleep? && !s.threads[q].op.Push?
    requires forall t | 0 <= t < |s.threads| :: s.threads[t].Idle? || s.threads[t].Asleep?
    ensures maxSize == 0
  {
    SleepersHaveAReason(maxSize, n, s, p);
    SleepersHaveAReason(maxSize, n, s, q);
  }

  /** Once close has notified and nothing is in progress, no thread is left asleep. */
  lemma {:induction false} CloseWakesEveryone(maxSize: nat, n: nat, s: State)
    requires Reachable(maxSize, n, s) && s.closed
    requires forall t | 0 <= t < |s.threads| :: s.threads[t].Idle? || s.threads[t].Asleep?
    ensures forall t | 0 <= t < |s.threads| :: s.threads[t].Idle?
  {
    ReachableInv(maxSize, n, s);
    forall t | 0 <= t < |s.threads|
      ensures s.threads[t].Idle?
    {
      if s.threads[t].Asleep? { SleepersHaveAReason(maxSize, n, s, t); }
    }
  }
}
