/** What the operations of the bounded queue return, and what they have done by then. */
module QueueCalls {
  import opened BlockingQueue

  /** An operation as it was called: its wait has not timed out yet. */
  function Called(op: Op): Op {
    if op.TimedPop? then TimedPop(false) else op
  }

  function Started(a: Action, t: nat): seq<Op> {
    if a.Start? && a.t == t then [a.op] else []
  }

  /** The operations that a thread calls in the course of a run. */
  function Requested(actions: seq<Action>, t: nat): seq<Op>
    decreases |actions|
  {
    if actions == [] then [] else Started(actions[0], t) + Requested(actions[1..], t)
  }

  /** The operations of a thread that have returned. */
  function Answered(returned: seq<Return>, t: nat): seq<Op>
    decreases |returned|
  {
    if returned == [] then []
    else
      var last := returned[|returned| - 1];
      Answered(returned[..|returned| - 1], t) + if last.t == t then [Called(last.op)] else []
  }

  /** The operation that a thread is in. */
  function InProgress(th: Thread): seq<Op> {
    if th.Idle? then [] else [Called(th.op)]
  }

  /** The values that a thread pushed, as its calls returned. */
  function PushesReturned(returned: seq<Return>, t: nat): seq<Value>
    decreases |returned|
  {
    if returned == [] then []
    else
      var last := returned[|returned| - 1];
      PushesReturned(returned[..|returned| - 1], t) + if last.t == t then Pushing(last.op, last.answer) else []
  }

  /** The values that were popped for a thread, as its calls returned. */
  function PopsReturned(returned: seq<Return>, t: nat): seq<Value>
    decreases |returned|
  {
    if returned == [] then []
    else
      var last := returned[|returned| - 1];
      PopsReturned(returned[..|returned| - 1], t) + if last.t == t then Popping(last.answer) else []
  }

  function Pushing(op: Op, answer: Answer): seq<Value> {
    if op.Push? && answer.Yes? then [op.value] else []
  }

  function Popping(answer: Answer): seq<Value> {
    if answer.Popped? then [answer.value] else []
  }

  /** A thread has its answer and is about to return it. */
  predicate Returning(th: Thread) {
    th.Leave? || th.Signal?
  }

  function PushDone(th: Thread): seq<Value> {
    if Returning(th) then Pushing(th.op, th.answer) else []
  }

  function PopDone(th: Thread): seq<Value> {
    if Returning(th) then Popping(th.answer) else []
  }

  /** The values that a thread moved in or out of the queue. */
  function MovedBy(moved: seq<Moved>, t: nat): seq<Value>
    decreases |moved|
  {
    if moved == [] then []
    else
      var last := moved[|moved| - 1];
      MovedBy(moved[..|moved| - 1], t) + if last.t == t then [last.value] else []
  }

  // ----- One step -----

  lemma {:induction false} OneMoreReturn(returned: seq<Return>, r: Return, t: nat)
    ensures Answered(returned + [r], t) == Answered(returned, t) + if r.t == t then [Called(r.op)] else []
    ensures PushesReturned(returned + [r], t)
         == PushesReturned(returned, t) + if r.t == t then Pushing(r.op, r.answer) else []
    ensures PopsReturned(returned + [r], t) == PopsReturned(returned, t) + if r.t == t then Popping(r.answer) else []
  {
    assert (returned + [r])[..|returned|] == returned;
  }

  lemma {:induction false} OneMoreMoved(moved: seq<Moved>, m: Moved, t: nat)
    ensures MovedBy(moved + [m], t) == MovedBy(moved, t) + if m.t == t then [m.value] else []
  {
    assert (moved + [m])[..|moved|] == moved;
  }

  lemma {:induction false} ClearMovesForNobody(moved: seq<Moved>, queue: seq<Value>, t: nat)
    ensures MovedBy(moved + Cleared(queue), t) == MovedBy(moved, t)
    decreases |queue|
  {
    if queue == [] {
      assert moved + Cleared(queue) == moved;
    } else {
      var front, last := queue[..|queue| - 1], Moved(queue[|queue| - 1], NOBODY);
      ClearMovesForNobody(moved, front, t);
      assert moved + Cleared(queue) == moved + Cleared(front) + [last];
      OneMoreMoved(moved + Cleared(front), last, t);
    }
  }

  /** The books of a thread: what it moved is what its calls returned, or are about to. */
  ghost predicate Balanced(s: State, t: nat)
    requires t < |s.threads|
  {
    && MovedBy(s.pushed, t) == PushesReturned(s.returned, t) + PushDone(s.threads[t])
    && MovedBy(s.removed, t) == PopsReturned(s.returned, t) + PopDone(s.threads[t])
  }

  /** A critical section records for its thread exactly what it will return, and returns nothing yet. */
  lemma {:induction false} BodyBooks(maxSize: nat, s: State, u: nat, op: Op, t: nat)
    requires u < |s.threads| && t < |s.threads| && s.threads[u] == Inside(op) && Balanced(s, t)
    ensures
      var s' := Body(maxSize, s, u, op);
      && s'.threads == s.threads[u := s'.threads[u]] && s'.returned == s.returned
      && Balanced(s', t) && InProgress(s'.threads[t]) == InProgress(s.threads[t])
  {
    hide MovedBy, PushesReturned, PopsReturned;
    if op.Push? { OneMoreMoved(s.pushed, Moved(op.value, u), t); }
    if s.queue != [] { OneMoreMoved(s.removed, Moved(s.queue[0], u), t); }
    ClearMovesForNobody(s.removed, s.queue, t);
  }

  /** Only a call that has notified returns, and then with the answer it had. */
  lemma {:induction false} SignalBooks(maxSize: nat, s: State, u: nat, t: nat)
    requires u < |s.threads| && t < |s.threads| && s.threads[u].Signal? && Balanced(s, t)
    ensures
      var s' := Proceed(maxSize, s, u);
      && |s'.threads| == |s.threads| && Balanced(s', t)
      && Answered(s'.returned, t) + InProgress(s'.threads[t]) == Answered(s.returned, t) + InProgress(s.threads[t])
  {
    hide MovedBy, PushesReturned, PopsReturned, Answered, Called, Pushing, Popping;
    var th := s.threads[u];
    OneMoreReturn(s.returned, Return(u, th.op, th.answer), t);
  }

  lemma {:induction false} StepBooks(maxSize: nat, s: State, a: Action, t: nat)
    requires Enabled(s, a) && t < |s.threads| && Balanced(s, t)
    ensures
      var s' := Step(maxSize, s, a);
      && |s'.threads| == |s.threads| && Balanced(s', t)
      && Answered(s'.returned, t) + InProgress(s'.threads[t])
         == Answered(s.returned, t) + InProgress(s.threads[t]) + Started(a, t)
  {
    hide MovedBy, PushesReturned, PopsReturned, Answered, Body, WakeAll, Pushing, Popping;
    var th := s.threads[a.t];
    if a.Continue? && th.Inside? {
      BodyBooks(maxSize, s, a.t, th.op, t);
    } else if a.Continue? && th.Signal? {
      SignalBooks(maxSize, s, a.t, t);
    }
  }

  lemma {:induction false} ExecBooks(maxSize: nat, s: State, actions: seq<Action>, t: nat)
    requires t < |s.threads| && Balanced(s, t) && Exec(maxSize, s, actions).Reached?
    ensures
      var s' := Exec(maxSize, s, actions).state;
      && |s'.threads| == |s.threads| && Balanced(s', t)
      && Answered(s'.returned, t) + InProgress(s'.threads[t])
         == Answered(s.returned, t) + InProgress(s.threads[t]) + Requested(actions, t)
    decreases |actions|
  {
    hide Step, Enabled, Balanced, Answered, InProgress, Started;
    if actions != [] {
      StepBooks(maxSize, s, actions[0], t);
      ExecBooks(maxSize, Step(maxSize, s, actions[0]), actions[1..], t);
    }
  }

  /**
   In every run a thread's operations return in the order called, with at most the last still in progress. The
   values it put into the queue are those of its pushes that returned true, and the values taken out for it
   are those its pops returned, in order; the operation about to return counts as well.
   */
  lemma {:induction false} OperationsReturnWhatTheyMoved(maxSize: nat, n: nat, actions: seq<Action>, t: nat)
    requires t < n && Exec(maxSize, Init(n), actions).Reached?
    ensures
      var s := Exec(maxSize, Init(n), actions).state;
      && |s.threads| == n && |InProgress(s.threads[t])| <= 1
      && Requested(actions, t) == Answered(s.returned, t) + InProgress(s.threads[t])
      && MovedBy(s.pushed, t) == PushesReturned(s.returned, t) + PushDone(s.threads[t])
      && MovedBy(s.removed, t) == PopsReturned(s.returned, t) + PopDone(s.threads[t])
  {
    hide Step, Enabled, Exec, Answered, Requested, PushesReturned, PopsReturned, MovedBy;
    NothingBooked(n, t);
    ExecBooks(maxSize, Init(n), actions, t);
  }

  lemma {:induction false} NothingBooked(n: nat, t: nat)
    requires t < n
    ensures Balanced(Init(n), t) && Answered([], t) == [] && InProgress(Init(n).threads[t]) == []
  {
  }

  // ----- Answers have a reason -----

  /** This operation, run now, has to return false. */
  predicate MustRefuse(s: State, op: Op) {
    match op
    case Push(_) => s.closed
    case Pop => s.closed
    case TimedPop(expired) => s.closed || (expired && s.queue == [])
    case PopIf(accept) => s.closed || s.queue == [] || !accept(s.queue[0])
    case Clear => false
    case Close => false
  }

  /** An answer that fits the state in which the critical section ran. */
  predicate Fits(s: State, op: Op, answer: Answer) {
    match answer
    case No => MustRefuse(s, op)
    case Yes => (op.Push? && !s.closed) || op.Clear? || op.Close?
    case Popped(v) =>
      && (op.Pop? || op.TimedPop? || op.PopIf?) && !s.closed && s.queue != [] && v == s.queue[0]
      && (op.PopIf? ==> op.accept(v))
  }

  /** In its j-th step the run performs this operation for thread `t`, where the answer fits. */
  ghost predicate PerformedAt(maxSize: nat, n: nat, actions: seq<Action>, t: nat, op: Op, answer: Answer, j: int) {
    && 0 <= j < |actions| && actions[j] == Continue(t)
    && Exec(maxSize, Init(n), actions[..j]).Reached?
    && var s := Exec(maxSize, Init(n), actions[..j]).state;
       t < |s.threads| && s.threads[t] == Inside(op) && Fits(s, op, answer)
  }

  ghost predicate Performed(maxSize: nat, n: nat, actions: seq<Action>, t: nat, op: Op, answer: Answer) {
    exists j :: PerformedAt(maxSize, n, actions, t, op, answer, j)
  }

  /** The call has returned this answer, or is about to. */
  ghost predicate Answers(s: State, t: nat, op: Op, answer: Answer) {
    || Return(t, op, answer) in s.returned
    || (t < |s.threads| && Returning(s.threads[t]) && s.threads[t].op == op && s.threads[t].answer == answer)
  }

  lemma {:induction false} BodyFits(maxSize: nat, s: State, t: nat, op: Op)
    requires t < |s.threads|
    ensures
      var s' := Body(maxSize, s, t, op);
      && s'.threads == s.threads[t := s'.threads[t]] && s'.returned == s.returned
      && (Returning(s'.threads[t]) ==> s'.threads[t].op == op && Fits(s, op, s'.threads[t].answer))
  {
  }

  /** Only the critical section finds an answer, and it fits. */
  lemma {:induction false} StepAnswers(maxSize: nat, s: State, a: Action, t: nat, op: Op, answer: Answer)
    requires Enabled(s, a) && Answers(Step(maxSize, s, a), t, op, answer)
    ensures
      || Answers(s, t, op, answer)
      || (a == Continue(t) && s.threads[t] == Inside(op) && Fits(s, op, answer))
  {
    hide Body, Fits;
    var th := s.threads[a.t];
    if a.Continue? && th.Inside? { BodyFits(maxSize, s, a.t, th.op); }
  }

  lemma {:induction false} ExecLast(maxSize: nat, s: State, actions: seq<Action>)
    requires actions != [] && Exec(maxSize, s, actions).Reached?
    ensures
      var front, a := Exec(maxSize, s, actions[..|actions| - 1]), actions[|actions| - 1];
      front.Reached? && Enabled(front.state, a) && Exec(maxSize, s, actions).state == Step(maxSize, front.state, a)
    decreases |actions|
  {
    hide Step, Enabled;
    if |actions| > 1 {
      ExecLast(maxSize, Step(maxSize, s, actions[0]), actions[1..]);
      assert actions[1..][..|actions| - 2] == actions[..|actions| - 1][1..];
    } else {
      assert actions[1..] == [];
    }
  }

  /**
   In every run each answer was found in a step that performed just this operation and had to give it: false only
   for a closed queue, an empty one at the end of the time, or a value the condition of popIf rejects;
   a value only if it was first in an open queue, and popIf's condition accepts it.
   */
  lemma {:induction false} AnswersHaveAReason(
    maxSize: nat, n: nat, actions: seq<Action>, t: nat, op: Op, answer: Answer)
    requires Exec(maxSize, Init(n), actions).Reached?
    requires Answers(Exec(maxSize, Init(n), actions).state, t, op, answer)
    ensures Performed(maxSize, n, actions, t, op, answer)
    decreases |actions|
  {
    hide Step, Enabled, Fits, Answers;
    if actions == [] {
      NothingAnswered(n, t, op, answer);
      assert false;
    }
    var m := |actions| - 1;
    var front, a := actions[..m], actions[m];
    ExecLast(maxSize, Init(n), actions);
    var s := Exec(maxSize, Init(n), front).state;
    InRange(maxSize, s, a);
    StepAnswers(maxSize, s, a, t, op, answer);
    if Answers(s, t, op, answer) {
      AnswersHaveAReason(maxSize, n, front, t, op, answer);
      var j :| PerformedAt(maxSize, n, front, t, op, answer, j);
      assert front[..j] == actions[..j];
      assert PerformedAt(maxSize, n, actions, t, op, answer, j);
    } else {
      assert PerformedAt(maxSize, n, actions, t, op, answer, m);
    }
  }

  lemma {:induction false} InRange(maxSize: nat, s: State, a: Action)
    requires Enabled(s, a)
    ensures a.t < |s.threads|
  {
  }

  lemma {:induction false} NothingAnswered(n: nat, t: nat, op: Op, answer: Answer)
    ensures !Answers(Init(n), t, op, answer)
  {
  }

  // ----- Operations that run alone -----

  /** Thread `t` runs alone until its operation returns or has to wait, or for `k` steps. */
  ghost function Alone(maxSize: nat, s: State, t: nat, k: nat): State
    decreases k
  {
    if k == 0 || !Enabled(s, Continue(t)) then s else Alone(maxSize, Step(maxSize, s, Continue(t)), t, k - 1)
  }

  lemma {:induction false} AloneOnce(maxSize: nat, s: State, t: nat, k: nat)
    requires k > 0 && Enabled(s, Continue(t))
    ensures Alone(maxSize, s, t, k) == Alone(maxSize, Proceed(maxSize, s, t), t, k - 1)
  {
  }

  lemma {:induction false} AloneDone(maxSize: nat, s: State, t: nat, k: nat)
    requires t < |s.threads| && (s.threads[t].Idle? || s.threads[t].Asleep?)
    ensures Alone(maxSize, s, t, k) == s
  {
  }

  /** Running alone is a run. */
  lemma {:induction false} AloneIsARun(maxSize: nat, s: State, t: nat, k: nat)
    ensures exists actions :: Exec(maxSize, s, actions) == Reached(Alone(maxSize, s, t, k))
    decreases k
  {
    hide Step, Enabled;
    if k == 0 || !Enabled(s, Continue(t)) {
      assert Exec(maxSize, s, []) == Reached(s);
    } else {
      var s' := Step(maxSize, s, Continue(t));
      AloneIsARun(maxSize, s', t, k - 1);
      var actions :| Exec(maxSize, s', actions) == Reached(Alone(maxSize, s', t, k - 1));
      var all := [Continue(t)] + actions;
      assert all[1..] == actions;
      assert Exec(maxSize, s, all) == Reached(Alone(maxSize, s, t, k));
    }
  }

  lemma {:induction false} GoTwice(s: State, t: nat, a: Thread, b: Thread)
    requires t < |s.threads|
    ensures Go(Go(s, t, a), t, b) == Go(s, t, b)
  {
    assert s.threads[t := a][t := b] == s.threads[t := b];
  }

  /** Everyone who waits for one of these conditions is woken. */
  function Woken(s: State, conditions: seq<Condition>): (s': State)
    ensures |s'.threads| == |s.threads|
    decreases |conditions|
  {
    if conditions == [] then s else Woken(s.(threads := WakeAll(s.threads, conditions[0])), conditions[1..])
  }

  /** What a thread that does not sleep is about to do makes no difference to whom it wakes. */
  lemma {:induction false} WakeOthers(threads: seq<Thread>, t: nat, th: Thread, th': Thread, c: Condition)
    requires t < |threads| && !th.Asleep?
    ensures WakeAll(threads[t := th], c)[t := th'] == WakeAll(threads, c)[t := th']
  {
  }

  lemma {:induction false} SignalAlone(
    maxSize: nat, s: State, t: nat, pending: seq<Condition>, locked: bool, op: Op, answer: Answer, k: nat)
    requires t < |s.threads| && k >= |pending|
    ensures Alone(maxSize, Go(s, t, Signal(pending, locked, op, answer)), t, k)
         == Alone(maxSize, Go(Woken(s, pending), t, Signal([], locked, op, answer)), t, k - |pending|)
    decreases |pending|
  {
    hide Alone, WakeAll;
    if pending != [] {
      var later := Signal(pending[1..], locked, op, answer);
      AloneOnce(maxSize, Go(s, t, Signal(pending, locked, op, answer)), t, k);
      WakeOthers(s.threads, t, Signal(pending, locked, op, answer), later, pending[0]);
      SignalAlone(maxSize, s.(threads := WakeAll(s.threads, pending[0])), t, pending[1..], locked, op, answer, k - 1);
    }
  }

  /** The operation returns. */
  function Replied(s: State, t: nat, op: Op, answer: Answer): State
    requires t < |s.threads|
  {
    Go(s.(returned := s.returned + [Return(t, op, answer)]), t, Idle)
  }

  lemma {:induction false} LeaveAlone(
    maxSize: nat, s: State, t: nat, pending: seq<Condition>, op: Op, answer: Answer, k: nat)
    requires t < |s.threads| && s.owner == NOBODY && k >= |pending| + 2
    ensures Alone(maxSize, Go(s.(owner := t), t, Leave(pending, op, answer)), t, k)
         == Replied(Woken(s, pending), t, op, answer)
  {
    hide Alone, Woken;
    AloneOnce(maxSize, Go(s.(owner := t), t, Leave(pending, op, answer)), t, k);
    GoTwice(s, t, Leave(pending, op, answer), Signal(pending, false, op, answer));
    SignalAlone(maxSize, s, t, pending, false, op, answer, k - 1);
    var woken := Woken(s, pending);
    AloneOnce(maxSize, Go(woken, t, Signal([], false, op, answer)), t, k - 1 - |pending|);
    GoTwice(woken.(returned := woken.returned + [Return(t, op, answer)]), t, Signal([], false, op, answer), Idle);
    AloneDone(maxSize, Replied(woken, t, op, answer), t, k - 2 - |pending|);
  }

  /** Taking the first value of an open queue; producers are woken if it was full. */
  function PoppedFront(maxSize: nat, s: State, t: nat, op: Op): State
    requires t < |s.threads| && s.queue != []
  {
    var v := s.queue[0];
    var popped := s.(queue := s.queue[1..], removed := s.removed + [Moved(v, t)]);
    Replied(Woken(popped, if |s.queue| == maxSize then [NotFull] else []), t, op, Popped(v))
  }

  /** The sequential meaning of an operation on a queue that nobody else uses. */
  function Sequential(maxSize: nat, s: State, t: nat, op: Op): State
    requires t < |s.threads|
  {
    match op
    case Clear =>
      Replied(Woken(s.(queue := [], removed := s.removed + Cleared(s.queue)), [NotFull]), t, op, Yes)
    case Close => Replied(Woken(s.(closed := true), [NotEmpty, NotFull]), t, op, Yes)
    case Push(v) =>
      if s.closed then Replied(s, t, op, No)
      else if |s.queue| == maxSize then Go(s, t, Asleep(op))
      else
        var pushed := s.(queue := s.queue + [v], pushed := s.pushed + [Moved(v, t)]);
        Replied(Woken(pushed, if |s.queue| == 0 then [NotEmpty] else []), t, op, Yes)
    case PopIf(accept) =>
      if !s.closed && s.queue != [] && accept(s.queue[0]) then PoppedFront(maxSize, s, t, op)
      else Replied(s, t, op, No)
    case _ =>
      if s.closed then Replied(s, t, op, No)
      else if s.queue != [] then PoppedFront(maxSize, s, t, op)
      else if op == TimedPop(true) then Replied(s, t, op, No)
      else Go(s, t, Asleep(op))
  }

  /** After its critical section an operation that does not sleep returns. */
  lemma {:induction false} FinishAlone(
    maxSize: nat, s: State, t: nat, th: Thread, op: Op, answer: Answer, pending: seq<Condition>, k: nat)
    requires t < |s.threads| && s.owner == NOBODY && k >= |pending| + 2
    ensures Alone(maxSize, Finish(Go(s.(owner := t), t, th), t, op, answer, pending), t, k)
         == Replied(Woken(s, pending), t, op, answer)
  {
    hide Alone, Woken;
    GoTwice(s.(owner := t), t, th, Leave(pending, op, answer));
    LeaveAlone(maxSize, s, t, pending, op, answer, k);
  }

  lemma {:induction false} SleepAlone(maxSize: nat, s: State, t: nat, th: Thread, op: Op, k: nat)
    requires t < |s.threads| && s.owner == NOBODY
    ensures Alone(maxSize, Sleep(Go(s.(owner := t), t, th), t, op), t, k) == Go(s, t, Asleep(op))
  {
    hide Alone;
    GoTwice(s, t, th, Asleep(op));
    AloneDone(maxSize, Go(s, t, Asleep(op)), t, k);
  }

  /** clear and close notify under the mutex. */
  lemma {:induction false} LockedSignalAlone(
    maxSize: nat, s: State, t: nat, pending: seq<Condition>, op: Op, answer: Answer, k: nat)
    requires t < |s.threads| && s.owner == NOBODY && k >= |pending| + 3
    ensures Alone(maxSize, Go(s.(owner := t), t, Signal(pending, true, op, answer)), t, k)
         == Replied(Woken(s, pending), t, op, answer)
  {
    hide Alone, Woken;
    var locked := s.(owner := t);
    SignalAlone(maxSize, locked, t, pending, true, op, answer, k);
    WokenKeepsOwner(s, t, pending);
    var woken := Woken(s, pending);
    AloneOnce(maxSize, Go(woken.(owner := t), t, Signal([], true, op, answer)), t, k - |pending|);
    GoTwice(woken.(owner := t), t, Signal([], true, op, answer), Leave([], op, answer));
    LeaveAlone(maxSize, woken, t, [], op, answer, k - |pending| - 1);
    NobodyWoken(woken);
  }

  lemma {:induction false} WokenKeepsOwner(s: State, t: nat, pending: seq<Condition>)
    ensures Woken(s.(owner := t), pending) == Woken(s, pending).(owner := t) && Woken(s, pending).owner == s.owner
    decreases |pending|
  {
    hide WakeAll;
    if pending != [] { WokenKeepsOwner(s.(threads := WakeAll(s.threads, pending[0])), t, pending[1..]); }
  }

  lemma {:induction false} NobodyWoken(s: State)
    ensures Woken(s, []) == s
  {
  }

  lemma {:induction false} TakeFrontAlone(maxSize: nat, s: State, t: nat, op: Op, k: nat)
    requires t < |s.threads| && s.owner == NOBODY && s.queue != [] && k >= 3
    ensures Alone(maxSize, TakeFront(maxSize, Go(s.(owner := t), t, Inside(op)), t, op), t, k)
         == PoppedFront(maxSize, s, t, op)
  {
    hide Alone, Woken, Finish;
    var popped := s.(queue := s.queue[1..], removed := s.removed + [Moved(s.queue[0], t)]);
    FinishAlone(maxSize, popped, t, Inside(op), op, Popped(s.queue[0]),
                if |s.queue| == maxSize then [NotFull] else [], k);
  }

  lemma {:induction false} BodyAlone(maxSize: nat, s: State, t: nat, op: Op, k: nat)
    requires t < |s.threads| && s.owner == NOBODY && k >= 5
    ensures Alone(maxSize, Body(maxSize, Go(s.(owner := t), t, Inside(op)), t, op), t, k)
         == Sequential(maxSize, s, t, op)
  {
    hide Alone, Woken, Finish, Sleep, TakeFront, PoppedFront, Replied, Cleared;
    NobodyWoken(s);
    FinishAlone(maxSize, s, t, Inside(op), op, No, [], k);
    SleepAlone(maxSize, s, t, Inside(op), op, k);
    if s.queue != [] { TakeFrontAlone(maxSize, s, t, op, k); }
    match op
    case Push(v) =>
      var pushed := s.(queue := s.queue + [v], pushed := s.pushed + [Moved(v, t)]);
      FinishAlone(maxSize, pushed, t, Inside(op), op, Yes, if |s.queue| == 0 then [NotEmpty] else [], k);
    case Clear =>
      var cleared := s.(queue := [], removed := s.removed + Cleared(s.queue));
      GoTwice(cleared.(owner := t), t, Inside(op), Signal([NotFull], true, op, Yes));
      LockedSignalAlone(maxSize, cleared, t, [NotFull], op, Yes, k);
    case Close =>
      GoTwice(s.(owner := t, closed := true), t, Inside(op), Signal([NotEmpty, NotFull], true, op, Yes));
      LockedSignalAlone(maxSize, s.(closed := true), t, [NotEmpty, NotFull], op, Yes, k);
    case _ =>
  }

  /**
   An operation that runs alone, called, woken up or timed out, has its sequential meaning: it returns the right
   answer and wakes the right threads, or goes to sleep if it must wait.
   */
  lemma {:induction false} OperationAlone(maxSize: nat, s: State, a: Action, k: nat)
    requires Enabled(s, a) && !a.Continue? && s.owner == NOBODY && k >= 7
    ensures
      var op := if a.Start? then a.op else if a.Timeout? then TimedPop(true) else s.threads[a.t].op;
      Alone(maxSize, Step(maxSize, s, a), a.t, k) == Sequential(maxSize, s, a.t, op)
  {
    hide Alone, Sequential, Body;
    var t := a.t;
    var op := if a.Start? then a.op else if a.Timeout? then TimedPop(true) else s.threads[a.t].op;
    AloneOnce(maxSize, Go(s, t, Acquire(op)), t, k);
    GoTwice(s.(owner := t), t, Acquire(op), Inside(op));
    AloneOnce(maxSize, Go(s.(owner := t), t, Inside(op)), t, k - 1);
    BodyAlone(maxSize, s, t, op, k - 2);
  }
}
