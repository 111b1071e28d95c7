/** What the calls of a future return: every call its own answer, and exactly one complete wins. */
module FutureCalls {
  import opened Future

  datatype Request = Listen | Complete(value: Value) | Get

  function RequestOf(answer: Answer): Request {
    match answer
    case Listening => Listen
    case Finished(v, _) => Complete(v)
    case Got(_) => Get
  }

  function Started(a: Action, t: nat): seq<Request> {
    match a
    case StartAddListener(u) => if u == t then [Listen] else []
    case StartComplete(u, v) => if u == t then [Complete(v)] else []
    case StartGet(u) => if u == t then [Get] else []
    case _ => []
  }

  /** The calls that a thread makes in the course of a run. */
  function Requested(actions: seq<Action>, t: nat): seq<Request>
    decreases |actions|
  {
    if actions == [] then [] else Started(actions[0], t) + Requested(actions[1..], t)
  }

  /** The calls of a thread that have returned. */
  function Answered(returned: seq<Return>, t: nat): seq<Request>
    decreases |returned|
  {
    if returned == [] then []
    else
      var last := returned[|returned| - 1];
      Answered(returned[..|returned| - 1], t) + if last.t == t then [RequestOf(last.answer)] else []
  }

  /** The call that a thread is in. */
  function InProgress(th: Thread): seq<Request> {
    match th
    case Idle => []
    case AddLock(_) => [Listen]
    case AddTest(_) => [Listen]
    case AddLeave(_, _) => [Listen]
    case AddRun(_, _) => [Listen]
    case CompleteCas(v) => [Complete(v)]
    case CompleteLock(v) => [Complete(v)]
    case CompleteStore(v) => [Complete(v)]
    case CompletePublish(v) => [Complete(v)]
    case CompleteNotify(v) => [Complete(v)]
    case CompleteSwap(v) => [Complete(v)]
    case CompleteRun(v, _) => [Complete(v)]
    case GetLock => [Get]
    case GetTest => [Get]
    case GetAsleep => [Get]
    case Leave(answer) => [RequestOf(answer)]
  }

  // ----- Calls return in order -----

  /** A thread that was in `call` goes on with it, or returns it. */
  ghost predicate GoesOn(s: State, s': State, t: nat, call: seq<Request>)
    requires t < |s.threads| == |s'.threads|
  {
    || (s'.returned == s.returned && InProgress(s'.threads[t]) == call)
    || (&& |s'.returned| == |s.returned| + 1 && s'.threads[t].Idle?
        && var answer := s'.returned[|s.returned|].answer;
           call == [RequestOf(answer)] && s'.returned == s.returned + [Return(t, answer)])
  }

  lemma {:induction false} ReplyReturns(s: State, s1: State, t: nat, answer: Answer)
    requires t < |s.threads| == |s1.threads| && s1.returned == s.returned
    ensures |Reply(s1, t, answer).threads| == |s.threads| && GoesOn(s, Reply(s1, t, answer), t, [RequestOf(answer)])
  {
  }

  lemma {:induction false} ProceedReturns(s: State, t: nat)
    requires t < |s.threads|
    ensures |Proceed(s, t).threads| == |s.threads| && GoesOn(s, Proceed(s, t), t, InProgress(s.threads[t]))
  {
    hide Reply, WakeAll;
    match s.threads[t]
    case AddRun(l, v) =>
      ReplyReturns(s, s.(calledDirectly := s.calledDirectly + [Call(l, v)]), t, Listening);
    case CompleteCas(v) => ReplyReturns(s, s, t, Finished(v, false));
    case CompleteRun(v, _) => ReplyReturns(s, s, t, Finished(v, true));
    case Leave(answer) => ReplyReturns(s, s.(owner := NOBODY), t, answer);
    case _ =>
  }

  lemma {:induction false} StepReturns(s: State, a: Action)
    requires Enabled(s, a)
    ensures
      var s' := Step(s, a);
      |s'.threads| == |s.threads| && GoesOn(s, s', a.t, InProgress(s.threads[a.t]) + Started(a, a.t))
  {
    hide Proceed;
    if a.Continue? { ProceedReturns(s, a.t); }
  }

  lemma {:induction false} OthersGoOn(s: State, a: Action, t: nat)
    requires Enabled(s, a) && t < |s.threads| && t != a.t
    ensures |Step(s, a).threads| == |s.threads|
    ensures InProgress(Step(s, a).threads[t]) == InProgress(s.threads[t]) && Started(a, t) == []
  {
    hide Step, Enabled;
    OthersStay(s, a);
    assert OnlyWoken(s.threads[t], Step(s, a).threads[t]);
  }

  lemma {:induction false} OneMoreReturn(returned: seq<Return>, r: Return, t: nat)
    ensures Answered(returned + [r], t) == Answered(returned, t) + if r.t == t then [RequestOf(r.answer)] else []
  {
    assert (returned + [r])[..|returned|] == returned;
  }

  lemma {:induction false} IdleIsInNoCall()
    ensures InProgress(Idle) == []
  {
  }

  lemma {:induction false} StepAnswers(s: State, a: Action, t: nat)
    requires Enabled(s, a) && t < |s.threads|
    ensures |Step(s, a).threads| == |s.threads|
    ensures
      var s' := Step(s, a);
      Answered(s'.returned, t) + InProgress(s'.threads[t])
        == Answered(s.returned, t) + InProgress(s.threads[t]) + Started(a, t)
  {
    hide Step, Enabled, Answered, InProgress, Started, RequestOf;
    var s' := Step(s, a);
    StepReturns(s, a);
    if t != a.t { OthersGoOn(s, a, t); }
    if s'.returned != s.returned { OneMoreReturn(s.returned, s'.returned[|s.returned|], t); }
    IdleIsInNoCall();
  }

  lemma {:induction false} ExecAnswers(s: State, actions: seq<Action>, t: nat)
    requires t < |s.threads| && Exec(s, actions).Reached?
    ensures
      var s' := Exec(s, actions).state;
      && |s'.threads| == |s.threads|
      && Answered(s'.returned, t) + InProgress(s'.threads[t])
         == Answered(s.returned, t) + InProgress(s.threads[t]) + Requested(actions, t)
    decreases |actions|
  {
    hide Step, Enabled, Answered, InProgress, Started;
    if actions != [] {
      StepAnswers(s, actions[0], t);
      ExecAnswers(Step(s, actions[0]), actions[1..], t);
    }
  }

  /** In every run a thread's calls return in the order made, with at most the last still in progress. */
  lemma {:induction false} CallsReturnInOrder(n: nat, actions: seq<Action>, t: nat)
    requires t < n && Exec(Init(n), actions).Reached?
    ensures
      var s := Exec(Init(n), actions).state;
      && |s.threads| == n && |InProgress(s.threads[t])| <= 1
      && Requested(actions, t) == Answered(s.returned, t) + InProgress(s.threads[t])
  {
    hide Step, Enabled;
    ExecAnswers(Init(n), actions, t);
  }

  // ----- One complete wins -----

  predicate Winner(r: Return) {
    r.answer.Finished? && r.answer.won
  }

  /** The winning call is in progress, or it has returned true; no other call does either. */
  ghost predicate WinnerKnown(s: State)
    requires OneWinner(s)
  {
    && (s.winner.Won? ==>
          || Winning(s.threads[s.winner.thread])
          || Return(s.winner.thread, Finished(s.winner.value, true)) in s.returned)
    && (forall i | 0 <= i < |s.returned| && Winner(s.returned[i]) ::
          && s.winner == Won(s.returned[i].t, s.returned[i].answer.value) && !Winning(s.threads[s.winner.thread]))
    && (forall i, j | 0 <= i < j < |s.returned| :: !(Winner(s.returned[i]) && Winner(s.returned[j])))
  }

  /** A step that returns: a call that was winning says so, and no other. */
  ghost predicate Replies(s: State, s': State, t: nat)
    requires t < |s.threads| == |s'.threads|
  {
    && |s'.returned| == |s.returned| + 1 && s'.winner == s.winner && !Winning(s'.threads[t])
    && var r := s'.returned[|s.returned|];
       && s'.returned == s.returned + [r] && r.t == t && (Winner(r) <==> Winning(s.threads[t]))
       && (Winner(r) ==> s.winner == Won(t, r.answer.value))
  }

  /** A step that does not return: a winning call goes on, and the winner stays or has just won. */
  ghost predicate Advances(s: State, s': State, t: nat)
    requires t < |s.threads| == |s'.threads|
  {
    && s'.returned == s.returned
    && if s.winner.Won? then s'.winner == s.winner && (Winning(s.threads[t]) <==> Winning(s'.threads[t]))
       else s'.winner.Won? ==> s'.winner.thread == t && Winning(s'.threads[t])
  }

  lemma {:induction false} StepWins(s: State, a: Action)
    requires OneWinner(s) && Agreement(s) && Enabled(s, a)
    ensures
      var s' := Step(s, a);
      |s'.threads| == |s.threads| && (Advances(s, s', a.t) || Replies(s, s', a.t))
  {
    hide WakeAll;
    assert Agrees(s, s.threads[a.t]);
  }

  lemma {:induction false} StepKeepsWinnerKnown(s: State, a: Action)
    requires OneWinner(s) && Agreement(s) && WinnerKnown(s) && Enabled(s, a)
    ensures OneWinner(Step(s, a)) && WinnerKnown(Step(s, a))
  {
    hide Step, Winning, Agreement;
    var s' := Step(s, a);
    StepKeepsOneWinner(s, a);
    StepWins(s, a);
    OthersStay(s, a);
    if s.winner.Won? && s.winner.thread != a.t {
      WokenIsNoWinner(s.threads[s.winner.thread], s'.threads[s.winner.thread]);
    }
    if Replies(s, s', a.t) {
      assert s'.returned[|s.returned|] in s'.returned;
      assert forall r | r in s.returned :: r in s'.returned;
    }
  }

  lemma {:induction false} WokenIsNoWinner(th: Thread, th': Thread)
    requires OnlyWoken(th, th')
    ensures Winning(th') <==> Winning(th)
  {
  }

  lemma {:induction false} ExecKeepsWinnerKnown(s: State, actions: seq<Action>)
    requires OneWinner(s) && Agreement(s) && WinnerKnown(s) && Exec(s, actions).Reached?
    ensures OneWinner(Exec(s, actions).state) && WinnerKnown(Exec(s, actions).state)
    decreases |actions|
  {
    hide Step, Enabled, OneWinner, Agreement, WinnerKnown;
    if actions != [] {
      StepKeepsOneWinner(s, actions[0]);
      StepKeepsAgreement(s, actions[0]);
      StepKeepsWinnerKnown(s, actions[0]);
      ExecKeepsWinnerKnown(Step(s, actions[0]), actions[1..]);
    }
  }

  lemma {:induction false} AnsweredReturn(returned: seq<Return>, r: Return)
    requires r in returned
    ensures RequestOf(r.answer) in Answered(returned, r.t)
    decreases |returned|
  {
    hide RequestOf;
    var n := |returned| - 1;
    if returned[n] != r { AnsweredReturn(returned[..n], r); }
  }

  /**
   In every run, complete returns true for the winner and for no other call, and false only if another call has
   won. The value that everyone sees is one that the winning thread passed to complete in this run.
   */
  lemma {:induction false} OneCompleteReturnsTrue(n: nat, actions: seq<Action>)
    requires Exec(Init(n), actions).Reached?
    ensures
      var s := Exec(Init(n), actions).state;
      && (forall i | 0 <= i < |s.returned| && s.returned[i].answer.Finished? ::
            if s.returned[i].answer.won then s.winner == Won(s.returned[i].t, s.returned[i].answer.value)
            else s.winner.Won?)
      && (forall i, j | 0 <= i < j < |s.returned| :: !(Winner(s.returned[i]) && Winner(s.returned[j])))
      && (s.winner.Won? ==> Complete(s.winner.value) in Requested(actions, s.winner.thread))
      && ((forall t | 0 <= t < |s.threads| :: s.threads[t].Idle?) && s.winner.Won? ==>
            Return(s.winner.thread, Finished(s.winner.value, true)) in s.returned)
  {
    hide Step, Enabled;
    var s := Exec(Init(n), actions).state;
    ExecKeepsWinnerKnown(Init(n), actions);
    assert Reachable(n, s);
    ReachableInv(n, s);
    if s.winner.Won? { WinnersCall(n, actions); }
    forall i | 0 <= i < |s.returned| ensures AnswerAgrees(s, s.returned[i].answer) {
    }
  }

  lemma {:induction false} WinnersCall(n: nat, actions: seq<Action>)
    requires Exec(Init(n), actions).Reached? && Inv(Exec(Init(n), actions).state)
    requires var s := Exec(Init(n), actions).state; s.winner.Won? && WinnerKnown(s)
    ensures
      var s := Exec(Init(n), actions).state;
      Complete(s.winner.value) in Requested(actions, s.winner.thread)
  {
    hide Step, Enabled, Answered, Requested;
    var s := Exec(Init(n), actions).state;
    var t, r := s.winner.thread, Return(s.winner.thread, Finished(s.winner.value, true));
    SameCount(Init(n), actions);
    CallsReturnInOrder(n, actions, t);
    if Winning(s.threads[t]) {
      assert Agrees(s, s.threads[t]);
      assert InProgress(s.threads[t]) == [Complete(s.winner.value)];
    } else {
      AnsweredReturn(s.returned, r);
    }
  }

  lemma {:induction false} SameCount(s: State, actions: seq<Action>)
    requires Exec(s, actions).Reached?
    ensures |Exec(s, actions).state.threads| == |s.threads|
    decreases |actions|
  {
    hide Step, Enabled;
    if actions != [] {
      OthersStay(s, actions[0]);
      SameCount(Step(s, actions[0]), actions[1..]);
    }
  }

  // ----- Calls that run alone -----

  /** Thread `t` runs alone until its call returns or has to wait, or for `k` steps. */
  ghost function Alone(s: State, t: nat, k: nat): State
    decreases k
  {
    if k == 0 || !Enabled(s, Continue(t)) then s else Alone(Step(s, Continue(t)), t, k - 1)
  }

  lemma {:induction false} AloneOnce(s: State, t: nat, k: nat)
    requires k > 0 && Enabled(s, Continue(t))
    ensures Alone(s, t, k) == Alone(Proceed(s, t), t, k - 1)
  {
  }

  lemma {:induction false} AloneDone(s: State, t: nat, k: nat)
    requires t < |s.threads| && (s.threads[t].Idle? || s.threads[t].GetAsleep?)
    ensures Alone(s, t, k) == s
  {
  }

  /** Running alone is a run. */
  lemma {:induction false} AloneIsARun(s: State, t: nat, k: nat)
    ensures exists actions :: Exec(s, actions) == Reached(Alone(s, t, k))
    decreases k
  {
    hide Step, Enabled;
    if k == 0 || !Enabled(s, Continue(t)) {
      assert Exec(s, []) == Reached(s);
    } else {
      var s' := Step(s, Continue(t));
      AloneIsARun(s', t, k - 1);
      var actions :| Exec(s', actions) == Reached(Alone(s', t, k - 1));
      var all := [Continue(t)] + actions;
      assert all[1..] == actions;
      assert Exec(s, all) == Reached(Alone(s, t, k));
    }
  }

  lemma {:induction false} GoTwice(s: State, t: nat, a: Thread, b: Thread)
    requires t < |s.threads|
    ensures Go(Go(s, t, a), t, b) == Go(s, t, b)
  {
    assert s.threads[t := a][t := b] == s.threads[t := b];
  }

  /** One step from `th` to `th'` that also takes `s` to `s1`. */
  lemma {:induction false} Moves(s: State, s1: State, t: nat, th: Thread, th': Thread, k: nat)
    requires t < |s.threads| && s1.threads == s.threads && k > 0
    requires Enabled(Go(s, t, th), Continue(t)) && Proceed(Go(s, t, th), t) == Go(Go(s1, t, th), t, th')
    ensures Alone(Go(s, t, th), t, k) == Alone(Go(s1, t, th'), t, k - 1)
  {
    hide Alone, Proceed;
    AloneOnce(Go(s, t, th), t, k);
    GoTwice(s1, t, th, th');
  }

  /** The call returns in its next step. */
  lemma {:induction false} Ends(s: State, s1: State, t: nat, th: Thread, answer: Answer, k: nat)
    requires t < |s.threads| && s1.threads == s.threads && k > 0
    requires Enabled(Go(s, t, th), Continue(t)) && Proceed(Go(s, t, th), t) == Reply(Go(s1, t, th), t, answer)
    ensures Alone(Go(s, t, th), t, k) == Reply(s1, t, answer)
  {
    hide Alone, Proceed;
    AloneOnce(Go(s, t, th), t, k);
    GoTwice(s1.(returned := s1.returned + [Return(t, answer)]), t, th, Idle);
    AloneDone(Reply(s1, t, answer), t, k - 1);
  }

  /** addListener, alone: after the completion the listener is called with the outcome, before it is queued. */
  lemma {:induction false} AddListenerAlone(s: State, t: nat, k: nat)
    requires Enabled(s, StartAddListener(t)) && s.owner == NOBODY && k >= 4
    ensures
      var l, s1 := s.added, s.(added := s.added + 1);
      Alone(Step(s, StartAddListener(t)), t, k) ==
        Reply(if s.status.Completed? then s1.(calledDirectly := s.calledDirectly + [Call(l, s.stored)])
              else s1.(listeners := s.listeners + [l], queued := s.queued + [l]),
              t, Listening)
  {
    hide Alone;
    var l, s1 := s.added, s.(added := s.added + 1);
    var locked := s1.(owner := t);
    Moves(s1, locked, t, AddLock(l), AddTest(l), k);
    if s.status.Completed? {
      Moves(locked, locked, t, AddTest(l), AddLeave(l, s.stored), k - 1);
      Moves(locked, s1, t, AddLeave(l, s.stored), AddRun(l, s.stored), k - 2);
      Ends(s1, s1.(calledDirectly := s.calledDirectly + [Call(l, s.stored)]), t, AddRun(l, s.stored), Listening, k - 3);
    } else {
      var queued := locked.(listeners := s.listeners + [l], queued := s.queued + [l]);
      Moves(locked, queued, t, AddTest(l), Leave(Listening), k - 1);
      Ends(queued, queued.(owner := NOBODY), t, Leave(Listening), Listening, k - 2);
    }
  }

  /** get, alone: it returns the outcome, or sleeps until there is one. */
  lemma {:induction false} GetAlone(s: State, t: nat, k: nat)
    requires Enabled(s, StartGet(t)) && s.owner == NOBODY && k >= 3
    ensures Alone(Step(s, StartGet(t)), t, k)
         == if s.status.Completed? then Reply(s, t, Got(s.stored)) else Go(s, t, GetAsleep)
  {
    hide Alone;
    var locked := s.(owner := t);
    Moves(s, locked, t, GetLock, GetTest, k);
    if s.status.Completed? {
      Moves(locked, locked, t, GetTest, Leave(Got(s.stored)), k - 1);
      Ends(locked, s, t, Leave(Got(s.stored)), Got(s.stored), k - 2);
    } else {
      Moves(locked, s, t, GetTest, GetAsleep, k - 1);
      AloneDone(Go(s, t, GetAsleep), t, k - 2);
    }
  }

  /** Each of these listeners called with the value. */
  function CallsWith(listeners: seq<nat>, v: Value): seq<Call>
    decreases |listeners|
  {
    if listeners == [] then [] else [Call(listeners[0], v)] + CallsWith(listeners[1..], v)
  }

  lemma {:induction false} RunListenersAlone(s: State, t: nat, v: Value, rest: seq<nat>, k: nat)
    requires t < |s.threads| && k >= |rest| + 1
    ensures Alone(Go(s, t, CompleteRun(v, rest)), t, k)
         == Reply(s.(calledInOrder := s.calledInOrder + CallsWith(rest, v)), t, Finished(v, true))
    decreases |rest|
  {
    hide Alone;
    if rest == [] {
      assert s.calledInOrder + [] == s.calledInOrder;
      Ends(s, s, t, CompleteRun(v, rest), Finished(v, true), k);
    } else {
      var s1 := s.(calledInOrder := s.calledInOrder + [Call(rest[0], v)]);
      Moves(s, s1, t, CompleteRun(v, rest), CompleteRun(v, rest[1..]), k);
      RunListenersAlone(s1, t, v, rest[1..], k - 1);
      assert s.calledInOrder + [Call(rest[0], v)] + CallsWith(rest[1..], v) == s.calledInOrder + CallsWith(rest, v);
    }
  }

  lemma {:induction false} NotifyAlone(s: State, t: nat, v: Value, k: nat)
    requires t < |s.threads| && k > 0
    ensures Alone(Go(s, t, CompleteNotify(v)), t, k)
         == Alone(Go(s.(threads := WakeAll(s.threads)), t, CompleteSwap(v)), t, k - 1)
  {
    hide Alone;
    AloneOnce(Go(s, t, CompleteNotify(v)), t, k);
    assert WakeAll(s.threads[t := CompleteNotify(v)])[t := CompleteSwap(v)] == WakeAll(s.threads)[t := CompleteSwap(v)];
  }

  /**
   complete, alone and first: the outcome is stored, everyone in get is woken, and the queued listeners are
   called with it in order. Any later complete changes nothing and returns false.
   */
  lemma {:induction false} CompleteAlone(s: State, t: nat, v: Value, k: nat)
    requires Enabled(s, StartComplete(t, v)) && s.owner == NOBODY && k >= |s.listeners| + 7
    ensures
      Alone(Step(s, StartComplete(t, v)), t, k) ==
        if s.status.Initial? then
          Reply(s.(status := Completed, stored := v, winner := Won(t, v), listeners := [],
                   threads := WakeAll(s.threads),
                   calledInOrder := s.calledInOrder + CallsWith(s.listeners, v)), t, Finished(v, true))
        else Reply(s, t, Finished(v, false))
  {
    hide Alone, WakeAll, CallsWith;
    if s.status.Initial? {
      var s1 := s.(status := Completing, winner := Won(t, v));
      var s2 := s1.(owner := t, stored := v, status := Completed);
      Moves(s, s1, t, CompleteCas(v), CompleteLock(v), k);
      Moves(s1, s1.(owner := t), t, CompleteLock(v), CompleteStore(v), k - 1);
      Moves(s1.(owner := t), s1.(owner := t, stored := v), t, CompleteStore(v), CompletePublish(v), k - 2);
      Moves(s1.(owner := t, stored := v), s2, t, CompletePublish(v), CompleteNotify(v), k - 3);
      NotifyAlone(s2, t, v, k - 4);
      var s3 := s2.(threads := WakeAll(s.threads));
      var s4 := s3.(owner := NOBODY, listeners := []);
      Moves(s3, s4, t, CompleteSwap(v), CompleteRun(v, s.listeners), k - 5);
      RunListenersAlone(s4, t, v, s.listeners, k - 6);
    } else {
      Ends(s, s, t, CompleteCas(v), Finished(v, false), k);
    }
  }
}
