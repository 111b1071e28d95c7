/**
 What the calls of the memory limiter return, in every interleaving, and what each of them does when it
 runs alone.
 */
module MemoryLimitCalls {
  import opened MemoryLimitController

  // ----- What calls return -----

  /** The call that an action starts in thread `t`. */
  function Started(a: Action, t: nat): seq<Request> {
    match a
    case StartTryReserve(u, size) => if u == t then [Request(false, size)] else []
    case StartReserve(u, size) => if u == t then [Request(true, size)] else []
    case _ => []
  }

  /** The reservations that a thread asks for in the course of a run. */
  function Requested(actions: seq<Action>, t: nat): seq<Request>
    decreases |actions|
  {
    if actions == [] then [] else Started(actions[0], t) + Requested(actions[1..], t)
  }

  /** The calls of a thread that have returned. */
  function Answered(returned: seq<Return>, t: nat): seq<Request>
    decreases |returned|
  {
    if returned == [] then []
    else
      var last := returned[|returned| - 1];
      Answered(returned[..|returned| - 1], t) + if last.t == t then [last.request] else []
  }

  /** The call that a thread is in. */
  function InProgress(th: Thread): seq<Request> {
    match th
    case Load(caller, size) => [Request(!caller.TryOnly?, size)]
    case Cas(caller, size, _) => [Request(!caller.TryOnly?, size)]
    case WantLock(size) => [Request(true, size)]
    case CheckClosed(size) => [Request(true, size)]
    case Wait(size) => [Request(true, size)]
    case Asleep(size) => [Request(true, size)]
    case Woken(size) => [Request(true, size)]
    case Answering(size, _) => [Request(true, size)]
    case _ => []
  }

  /** The bytes that calls returned as reserved. */
  function Granted(returned: seq<Return>): nat
    decreases |returned|
  {
    if returned == [] then 0
    else
      var last := returned[|returned| - 1];
      Granted(returned[..|returned| - 1]) + if last.ok then last.request.size else 0
  }

  /** The bytes reserved by the call that is about to return; it holds the mutex. */
  function Undelivered(s: State): nat {
    if 0 <= s.owner < |s.threads| && s.threads[s.owner].Answering? && s.threads[s.owner].ok
    then s.threads[s.owner].size else 0
  }

  function Released(actions: seq<Action>): nat
    decreases |actions|
  {
    if actions == [] then 0
    else (if actions[0].StartRelease? then actions[0].size else 0) + Released(actions[1..])
  }

  /** A call that was refused had a reason. */
  ghost predicate RefusedByClose(s: State) {
    && (forall i | 0 <= i < |s.returned| && s.returned[i].request.blocking && !s.returned[i].ok :: s.closed)
    && (forall t | 0 <= t < |s.threads| && s.threads[t].Answering? && !s.threads[t].ok :: s.closed)
  }

  lemma {:induction false} StepKeepsRefusals(c: Config, s: State, a: Action)
    requires RefusedByClose(s) && Enabled(c, s, a)
    ensures RefusedByClose(Step(c, s, a))
  {
    hide Plus, Minus, OverLimit;
  }

  lemma {:induction false} OneMoreReturn(returned: seq<Return>, r: Return, t: nat)
    ensures Answered(returned + [r], t) == Answered(returned, t) + if r.t == t then [r.request] else []
    ensures Granted(returned + [r]) == Granted(returned) + if r.ok then r.request.size else 0
  {
    assert (returned + [r])[..|returned|] == returned;
  }

  /** A thread that was in `call` goes on with it, or returns it. */
  ghost predicate GoesOn(s: State, s': State, t: nat, call: seq<Request>)
    requires t < |s.threads| == |s'.threads|
  {
    || (s'.returned == s.returned && InProgress(s'.threads[t]) == call)
    || (&& |s'.returned| == |s.returned| + 1 && s'.threads[t].Idle? && |call| == 1
        && s'.returned == s.returned + [Return(t, call[0], s'.returned[|s.returned|].ok)])
  }

  lemma {:induction false} AfterTryReturns(s: State, t: nat, caller: Caller, size: Word, ok: bool)
    requires t < |s.threads|
    ensures
      var s' := AfterTry(s, t, caller, size, ok);
      |s'.threads| == |s.threads| && GoesOn(s, s', t, [Request(!caller.TryOnly?, size)])
  {
  }

  lemma {:induction false} ProceedReturns(c: Config, s: State, t: nat)
    requires t < |s.threads|
    ensures |Proceed(c, s, t).threads| == |s.threads| && GoesOn(s, Proceed(c, s, t), t, InProgress(s.threads[t]))
  {
    hide Plus, OverLimit, AfterTry;
    match s.threads[t]
    case Load(caller, size) => AfterTryReturns(s, t, caller, size, false);
    case Cas(caller, size, current) =>
      AfterTryReturns(s.(usage := Plus(current, size), outstanding := s.outstanding + size), t, caller, size, true);
    case _ =>
  }

  lemma {:induction false} StepReturns(c: Config, s: State, a: Action)
    requires Enabled(c, s, a)
    ensures
      var s', call := Step(c, s, a), InProgress(s.threads[a.t]) + Started(a, a.t);
      |s'.threads| == |s.threads| && GoesOn(s, s', a.t, call)
  {
    hide Plus, Minus, Proceed;
    if a.Continue? { ProceedReturns(c, s, a.t); }
  }

  lemma {:induction false} OthersGoOn(c: Config, s: State, a: Action, t: nat)
    requires Enabled(c, s, a) && t < |s.threads| && t != a.t
    ensures |Step(c, s, a).threads| == |s.threads|
    ensures InProgress(Step(c, s, a).threads[t]) == InProgress(s.threads[t]) && Started(a, t) == []
  {
    hide Step, Enabled;
    OthersStay(c, s, a);
    assert OnlyWoken(s.threads[t], Step(c, s, a).threads[t]);
  }

  lemma {:induction false} StepAnswers(c: Config, s: State, a: Action, t: nat)
    requires Enabled(c, s, a) && t < |s.threads|
    ensures |Step(c, s, a).threads| == |s.threads|
    ensures
      var s' := Step(c, s, a);
      Answered(s'.returned, t) + InProgress(s'.threads[t])
        == Answered(s.returned, t) + InProgress(s.threads[t]) + Started(a, t)
  {
    hide Step, Enabled, Answered, InProgress, Started;
    var s' := Step(c, s, a);
    StepReturns(c, s, a);
    if t != a.t { OthersGoOn(c, s, a, t); }
    if s'.returned != s.returned { OneMoreReturn(s.returned, s'.returned[|s.returned|], t); }
    IdleIsInNoCall();
  }

  lemma {:induction false} IdleIsInNoCall()
    ensures InProgress(Idle) == []
  {
  }

  /** What a thread has reserved and not returned yet. */
  function Promised(th: Thread): nat {
    if th.Answering? && th.ok then th.size else 0
  }

  /** What the calls that returned in between have reserved. */
  function NewlyGranted(s: State, s': State): nat {
    if |s'.returned| == |s.returned| + 1 && s'.returned[|s.returned|].ok
    then s'.returned[|s.returned|].request.size else 0
  }

  lemma {:induction false} ProceedGrants(c: Config, s: State, t: nat)
    requires t < |s.threads|
    ensures
      var s' := Proceed(c, s, t);
      && |s'.threads| == |s.threads|
      && NewlyGranted(s, s') + Promised(s'.threads[t]) - Promised(s.threads[t]) == s'.outstanding - s.outstanding
  {
    hide Plus, OverLimit;
  }

  lemma {:induction false} StepGrants(c: Config, s: State, a: Action)
    requires Enabled(c, s, a)
    ensures
      var s' := Step(c, s, a);
      && |s'.threads| == |s.threads|
      && NewlyGranted(s, s') + Promised(s'.threads[a.t]) - Promised(s.threads[a.t])
         == s'.outstanding - s.outstanding + if a.StartRelease? then a.size else 0
  {
    hide Plus, Minus, Proceed;
    if a.Continue? { ProceedGrants(c, s, a.t); }
  }

  /** Only the thread that takes a step changes who holds the mutex, and what the holder has reserved. */
  lemma {:induction false} UndeliveredChanges(c: Config, s: State, a: Action)
    requires Mutex(s) && Enabled(c, s, a)
    ensures
      var s' := Step(c, s, a);
      && |s'.threads| == |s.threads|
      && Undelivered(s') - Undelivered(s) == Promised(s'.threads[a.t]) - Promised(s.threads[a.t])
  {
    hide Plus, Minus, OverLimit, Mutex;
    StepKeepsMutex(c, s, a);
    OwnThread(s, a.t);
    OwnThread(Step(c, s, a), a.t);
  }

  /** The bytes granted and not released, by what calls returned. */
  function Balance(s: State): int {
    Granted(s.returned) + Undelivered(s) - s.outstanding
  }

  lemma {:induction false} StepBalances(c: Config, s: State, a: Action)
    requires Mutex(s) && Enabled(c, s, a)
    ensures Balance(Step(c, s, a)) == Balance(s) + if a.StartRelease? then a.size else 0
  {
    hide Step, Enabled, Granted, Mutex, Undelivered, Promised, InProgress, Started;
    var s' := Step(c, s, a);
    StepReturns(c, s, a);
    StepGrants(c, s, a);
    UndeliveredChanges(c, s, a);
    if s'.returned != s.returned { OneMoreReturn(s.returned, s'.returned[|s.returned|], a.t); }
  }

  lemma {:induction false} ExecAnswers(c: Config, s: State, actions: seq<Action>, t: nat)
    requires Mutex(s) && RefusedByClose(s) && t < |s.threads| && Exec(c, s, actions).Reached?
    ensures
      var s' := Exec(c, s, actions).state;
      && RefusedByClose(s') && |s'.threads| == |s.threads|
      && Answered(s'.returned, t) + InProgress(s'.threads[t])
         == Answered(s.returned, t) + InProgress(s.threads[t]) + Requested(actions, t)
      && Balance(s') == Balance(s) + Released(actions)
    decreases |actions|
  {
    hide Step, Enabled, Mutex, RefusedByClose, Answered, Balance, InProgress;
    if actions != [] {
      StepKeepsMutex(c, s, actions[0]);
      StepKeepsRefusals(c, s, actions[0]);
      StepAnswers(c, s, actions[0], t);
      StepBalances(c, s, actions[0]);
      ExecAnswers(c, Step(c, s, actions[0]), actions[1..], t);
    }
  }

  /**
   What calls return. In every run each thread's calls return in the order in which they were made, with
   at most the last still in progress. The outstanding bytes are those of calls that returned true, and of
   one that is about to, less those released. reserveMemory returns false only when the controller is closed.
   */
  lemma {:induction false} ReservationsAreAnswered(c: Config, n: nat, actions: seq<Action>, t: nat)
    requires t < n && Exec(c, Init(n), actions).Reached?
    ensures
      var s := Exec(c, Init(n), actions).state;
      && |s.threads| == n && Requested(actions, t) == Answered(s.returned, t) + InProgress(s.threads[t])
      && |InProgress(s.threads[t])| <= 1
      && s.outstanding == Granted(s.returned) + Undelivered(s) - Released(actions)
      && (forall i | 0 <= i < |s.returned| && s.returned[i].request.blocking && !s.returned[i].ok :: s.closed)
  {
    hide Step, Enabled;
    ExecAnswers(c, Init(n), actions, t);
  }

  /** A step that makes tryReserveMemory return false has just read a usage above a positive limit. */
  lemma {:induction false} StepRefuses(c: Config, s: State, a: Action, i: nat)
    requires Enabled(c, s, a) && |s.returned| <= i < |Step(c, s, a).returned|
    requires var r := Step(c, s, a).returned[i]; !r.ok && !r.request.blocking
    ensures i == |s.returned| && a == Continue(Step(c, s, a).returned[i].t) && s.usage > c.memoryLimit > 0
  {
    hide Plus, Minus;
  }

  lemma {:induction false} ReturnsStay(c: Config, s: State, a: Action)
    requires Enabled(c, s, a)
    ensures s.returned <= Step(c, s, a).returned
  {
    hide Plus, Minus, OverLimit;
  }

  /** The j-th step of a run returns its i-th call after reading a usage above a positive limit. */
  ghost predicate RefusedAt(c: Config, n: nat, actions: seq<Action>, i: nat, j: int) {
    && 0 <= j < |actions|
    && Exec(c, Init(n), actions[..j]).Reached?
    && var s := Exec(c, Init(n), actions[..j]).state;
       s.usage > c.memoryLimit > 0 && |s.returned| == i && actions[j].Continue?
  }

  /** In every run, tryReserveMemory returns false only in a step that reads a usage above a positive limit. */
  lemma {:induction false} RefusalsAreOverTheLimit(c: Config, n: nat, actions: seq<Action>, i: nat)
    requires Exec(c, Init(n), actions).Reached? && i < |Exec(c, Init(n), actions).state.returned|
    requires var r := Exec(c, Init(n), actions).state.returned[i]; !r.ok && !r.request.blocking
    ensures exists j :: RefusedAt(c, n, actions, i, j)
    decreases |actions|
  {
    hide Step, Enabled, OverLimit;
    assert actions != [];
    var m := |actions| - 1;
    var front, a := actions[..m], actions[m];
    ExecLast(c, Init(n), actions);
    var s := Exec(c, Init(n), front).state;
    ReturnsStay(c, s, a);
    if i < |s.returned| {
      RefusalsAreOverTheLimit(c, n, front, i);
      var j :| RefusedAt(c, n, front, i, j);
      assert front[..j] == actions[..j];
      assert RefusedAt(c, n, actions, i, j);
    } else {
      StepRefuses(c, s, a, i);
      assert RefusedAt(c, n, actions, i, m);
    }
  }

  lemma {:induction false} ExecLast(c: Config, s: State, actions: seq<Action>)
    requires actions != [] && Exec(c, s, actions).Reached?
    ensures
      var front, a := Exec(c, s, actions[..|actions| - 1]), actions[|actions| - 1];
      front.Reached? && Enabled(c, front.state, a) && Exec(c, s, actions).state == Step(c, front.state, a)
    decreases |actions|
  {
    hide Step, Enabled;
    if |actions| > 1 {
      ExecLast(c, Step(c, s, actions[0]), actions[1..]);
      assert actions[1..][..|actions| - 2] == actions[..|actions| - 1][1..];
    } else {
      assert actions[1..] == [];
    }
  }

  // ----- Calls that run alone -----

  /** Thread `t` runs alone until its call returns or has to wait, or for `k` steps. */
  ghost function Alone(c: Config, s: State, t: nat, k: nat): State
    decreases k
  {
    if k == 0 || !Enabled(c, s, Continue(t)) then s else Alone(c, Step(c, s, Continue(t)), t, k - 1)
  }

  lemma {:induction false} AloneOnce(c: Config, s: State, t: nat, k: nat)
    requires k > 0 && Enabled(c, s, Continue(t))
    ensures Alone(c, s, t, k) == Alone(c, Proceed(c, s, t), t, k - 1)
  {
  }

  lemma {:induction false} AloneDone(c: Config, s: State, t: nat, k: nat)
    requires t < |s.threads| && (s.threads[t].Idle? || s.threads[t].Asleep?)
    ensures Alone(c, s, t, k) == s
  {
  }

  /** Running alone is a run. */
  lemma {:induction false} AloneIsARun(c: Config, s: State, t: nat, k: nat)
    ensures exists actions :: Exec(c, s, actions) == Reached(Alone(c, s, t, k))
    decreases k
  {
    hide Step, Enabled;
    if k == 0 || !Enabled(c, s, Continue(t)) {
      assert Exec(c, s, []) == Reached(s);
    } else {
      var s' := Step(c, s, Continue(t));
      AloneIsARun(c, s', t, k - 1);
      var actions :| Exec(c, s', actions) == Reached(Alone(c, s', t, k - 1));
      var all := [Continue(t)] + actions;
      assert all[1..] == actions;
      assert Exec(c, s, all) == Reached(Alone(c, s, t, k));
    }
  }

  /** The state with `size` more bytes reserved. */
  function Reserved(s: State, size: Word): State {
    s.(usage := (s.usage + size) % WORD_LIMIT, outstanding := s.outstanding + size)
  }

  lemma {:induction false} GoTwice(s: State, t: nat, a: Thread, b: Thread)
    requires t < |s.threads|
    ensures Go(Go(s, t, a), t, b) == Go(s, t, b)
  {
    assert s.threads[t := a][t := b] == s.threads[t := b];
  }

  /** One attempt, alone: it reserves exactly if usage is not above a positive limit. */
  lemma {:induction false} AttemptAlone(c: Config, s: State, t: nat, caller: Caller, size: Word, k: nat)
    requires t < |s.threads| && k >= 2
    ensures
      Alone(c, Go(s, t, Load(caller, size)), t, k) ==
        if c.memoryLimit > 0 && s.usage > c.memoryLimit
        then Alone(c, AfterTry(s, t, caller, size, false), t, k - 1)
        else Alone(c, AfterTry(Reserved(s, size), t, caller, size, true), t, k - 2)
  {
    hide Alone, AfterTry;
    var s0, s1 := Go(s, t, Load(caller, size)), Go(s, t, Cas(caller, size, s.usage));
    AloneOnce(c, s0, t, k);
    AfterTryForgets(s, t, Load(caller, size), caller, size, false);
    if !OverLimit(c, s.usage) {
      GoTwice(s, t, Load(caller, size), Cas(caller, size, s.usage));
      AloneOnce(c, s1, t, k - 1);
      AfterTryForgets(Reserved(s, size), t, Cas(caller, size, s.usage), caller, size, true);
    }
  }

  lemma {:induction false} AfterTryForgets(s: State, t: nat, th: Thread, caller: Caller, size: Word, ok: bool)
    requires t < |s.threads|
    ensures AfterTry(Go(s, t, th), t, caller, size, ok) == AfterTry(s, t, caller, size, ok)
  {
    GoTwice(s, t, th, Idle);
    GoTwice(s, t, th, WantLock(size));
    GoTwice(s, t, th, if ok then Answering(size, true) else CheckClosed(size));
  }

  /** A thread with the mutex, alone: it gets its memory, gives up in a closed controller, or goes to sleep. */
  lemma {:induction false} LockedAlone(c: Config, s: State, t: nat, size: Word, k: nat)
    requires t < |s.threads| && s.owner == NOBODY && k >= 4
    ensures
      Alone(c, Go(s.(owner := t), t, Load(UnderLock, size)), t, k) ==
        if c.memoryLimit == 0 || s.usage <= c.memoryLimit then Reply(Reserved(s, size), t, Request(true, size), true)
        else if s.closed then Reply(s, t, Request(true, size), false)
        else Go(s, t, Asleep(size))
  {
    hide Alone;
    var locked := s.(owner := t);
    AttemptAlone(c, locked, t, UnderLock, size, k);
    if OverLimit(c, s.usage) {
      var s1, s2 := Go(locked, t, CheckClosed(size)), Go(locked, t, Answering(size, false));
      AloneOnce(c, s1, t, k - 1);
      GoTwice(locked, t, CheckClosed(size), if s.closed then Answering(size, false) else Wait(size));
      if s.closed {
        AloneOnce(c, s2, t, k - 2);
        GoTwice(s.(returned := s.returned + [Return(t, Request(true, size), false)]), t, Answering(size, false), Idle);
        AloneDone(c, Reply(s, t, Request(true, size), false), t, k - 3);
      } else {
        AloneOnce(c, Go(locked, t, Wait(size)), t, k - 2);
        GoTwice(s, t, Wait(size), Asleep(size));
        AloneDone(c, Go(s, t, Asleep(size)), t, k - 3);
      }
    } else {
      var r := Reserved(s, size);
      AloneOnce(c, Go(r.(owner := t), t, Answering(size, true)), t, k - 2);
      GoTwice(r.(returned := s.returned + [Return(t, Request(true, size), true)]), t, Answering(size, true), Idle);
      AloneDone(c, Reply(r, t, Request(true, size), true), t, k - 3);
    }
  }

  /** tryReserveMemory, alone: it succeeds exactly for no bytes, or if usage is not above a positive limit. */
  lemma {:induction false} TryReserveAlone(c: Config, s: State, t: nat, size: Word, k: nat)
    requires Enabled(c, s, StartTryReserve(t, size)) && k >= 3
    ensures
      var ok := size == 0 || c.memoryLimit == 0 || s.usage <= c.memoryLimit;
      Alone(c, Step(c, s, StartTryReserve(t, size)), t, k)
        == Reply(if ok then Reserved(s, size) else s, t, Request(false, size), ok)
  {
    hide Alone;
    var request := Request(false, size);
    if size == 0 {
      AloneDone(c, Reply(s, t, request, true), t, k);
    } else {
      AttemptAlone(c, s, t, TryOnly, size, k);
      AloneDone(c, Reply(Reserved(s, size), t, request, true), t, k - 2);
      AloneDone(c, Reply(s, t, request, false), t, k - 1);
    }
  }

  /** reserveMemory, alone: it succeeds likewise; otherwise it fails in a closed controller, sleeps in an open one. */
  lemma {:induction false} ReserveAlone(c: Config, s: State, t: nat, size: Word, k: nat)
    requires Enabled(c, s, StartReserve(t, size)) && s.owner == NOBODY && k >= 6
    ensures
      Alone(c, Step(c, s, StartReserve(t, size)), t, k) ==
        if size == 0 || c.memoryLimit == 0 || s.usage <= c.memoryLimit
        then Reply(Reserved(s, size), t, Request(true, size), true)
        else if s.closed then Reply(s, t, Request(true, size), false)
        else Go(s, t, Asleep(size))
  {
    hide Alone;
    var request := Request(true, size);
    if size == 0 {
      AloneDone(c, Reply(s, t, request, true), t, k);
    } else {
      AttemptAlone(c, s, t, BeforeLock, size, k);
      AloneDone(c, Reply(Reserved(s, size), t, request, true), t, k - 2);
      if OverLimit(c, s.usage) {
        AloneOnce(c, Go(s, t, WantLock(size)), t, k - 1);
        GoTwice(s.(owner := t), t, WantLock(size), Load(UnderLock, size));
        LockedAlone(c, s, t, size, k - 2);
      }
    }
  }

  /** A thread woken up, for whatever reason: alone, it tries again under the mutex, and may go back to sleep. */
  lemma {:induction false} WokenAlone(c: Config, s: State, t: nat, size: Word, k: nat)
    requires t < |s.threads| && s.owner == NOBODY && k >= 5
    ensures
      var end :=
        if c.memoryLimit == 0 || s.usage <= c.memoryLimit then Reply(Reserved(s, size), t, Request(true, size), true)
        else if s.closed then Reply(s, t, Request(true, size), false)
        else Go(s, t, Asleep(size));
      && Alone(c, Go(s, t, Woken(size)), t, k) == end
      && (s.threads[t] == Asleep(size) ==> Alone(c, Step(c, s, SpuriousWakeup(t)), t, k) == end)
  {
    hide Alone;
    AloneOnce(c, Go(s, t, Woken(size)), t, k);
    GoTwice(s.(owner := t), t, Woken(size), Load(UnderLock, size));
    LockedAlone(c, s, t, size, k - 1);
  }

  /** Everyone asleep is woken. */
  function AllWoken(s: State): State {
    s.(threads := WakeAll(s.threads))
  }

  lemma {:induction false} NotifyAlone(c: Config, s: State, t: nat, closing: bool, k: nat)
    requires t < |s.threads| && s.owner == NOBODY && k >= 2
    ensures Alone(c, Go(s.(owner := t), t, Notify(closing)), t, k) == Go(AllWoken(s), t, Idle)
  {
    hide Alone;
    var s0 := Go(s.(owner := t), t, Notify(closing));
    AloneOnce(c, s0, t, k);
    assert WakeAll(s0.threads)[t := Unlock] == WakeAll(s.threads)[t := Unlock];
    AloneOnce(c, Go(AllWoken(s).(owner := t), t, Unlock), t, k - 1);
    GoTwice(AllWoken(s), t, Unlock, Idle);
    AloneDone(c, Go(AllWoken(s), t, Idle), t, k - 2);
  }

  /** releaseMemory, alone: it gives the bytes back, and wakes everyone exactly if usage falls to the limit. */
  lemma {:induction false} ReleaseAlone(c: Config, s: State, t: nat, size: Word, k: nat)
    requires Enabled(c, s, StartRelease(t, size)) && s.owner == NOBODY && k >= 3
    ensures
      var left := (s.usage - size) % WORD_LIMIT;
      var released := s.(usage := left, outstanding := s.outstanding - size);
      Alone(c, Step(c, s, StartRelease(t, size)), t, k)
        == Go(if left <= c.memoryLimit < s.usage then AllWoken(released) else released, t, Idle)
  {
    hide Alone, WakeAll;
    MinusThenPlus(s.usage, size);
    var left := (s.usage - size) % WORD_LIMIT;
    var released := s.(usage := left, outstanding := s.outstanding - size);
    if left <= c.memoryLimit < s.usage {
      AloneOnce(c, Go(released, t, Crossed), t, k);
      GoTwice(released.(owner := t), t, Crossed, Notify(false));
      NotifyAlone(c, released, t, false, k - 1);
    } else {
      AloneDone(c, Go(released, t, Idle), t, k);
    }
  }

  /** close, alone: the controller is closed and everyone woken. */
  lemma {:induction false} CloseAlone(c: Config, s: State, t: nat, k: nat)
    requires Enabled(c, s, StartClose(t)) && s.owner == NOBODY && k >= 4
    ensures Alone(c, Step(c, s, StartClose(t)), t, k) == Go(AllWoken(s.(closed := true)), t, Idle)
  {
    hide Alone, WakeAll;
    var locked := s.(owner := t);
    AloneOnce(c, Go(s, t, CloseLock), t, k);
    GoTwice(locked, t, CloseLock, CloseSet);
    AloneOnce(c, Go(locked, t, CloseSet), t, k - 1);
    GoTwice(locked.(closed := true), t, CloseSet, Notify(true));
    NotifyAlone(c, s.(closed := true), t, true, k - 2);
  }
}
