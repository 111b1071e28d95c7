/**
 lib/MemoryLimitController.cc as a transition system: any number of threads, one step per atomic
 load, compare-exchange, fetch_sub, lock, unlock, wait and notify, in every interleaving, with
 spurious wakeups. Counter arithmetic is that of 64-bit unsigned words.
 */
module MemoryLimitController {

  const WORD_LIMIT: nat := 0x1_0000_0000_0000_0000
  type Word = w: nat | w < WORD_LIMIT

  function Plus(a: Word, b: Word): Word { (a + b) % WORD_LIMIT }
  function Minus(a: Word, b: Word): Word { (a - b) % WORD_LIMIT }

  /** `maxRequest` is the largest size that any caller ever asks for. */
  datatype Config = Config(memoryLimit: Word, maxRequest: Word)

  /** Which call of tryReserveMemory a thread is in. */
  datatype Caller =
    | TryOnly         // called directly
    | BeforeLock      // the first attempt of reserveMemory
    | UnderLock       // the attempts of reserveMemory that hold the mutex

  datatype Thread =
    | Idle
    | Load(caller: Caller, size: Word)                  // about to read currentUsage_
    | Cas(caller: Caller, size: Word, current: Word)    // passed the limit test, about to compare-exchange
    | WantLock(size: Word)                              // first attempt failed, about to lock
    | CheckClosed(size: Word)                           // attempt under the lock failed, about to read isClosed_
    | Wait(size: Word)                                  // saw an open controller, about to wait
    | Asleep(size: Word)                                // inside condition_.wait
    | Woken(size: Word)                                 // woken, about to take the mutex again
    | Crossed                                           // released memory across the limit, about to lock
    | CloseLock                                         // in close, about to lock
    | CloseSet                                          // holds the mutex, about to set isClosed_
    | Notify(closing: bool)                             // holds the mutex, about to notify_all
    | Unlock                                            // about to leave the critical section
    | Answering(size: Word, ok: bool)                   // the same, and then reserveMemory returns `ok`

  /** A call of reserveMemory (`blocking`) or tryReserveMemory. */
  datatype Request = Request(blocking: bool, size: Word)

  /** A call that has returned, and what it returned. */
  datatype Return = Return(t: nat, request: Request, ok: bool)

  /**
   `usage` and `closed` are the fields of the controller, `owner` is the thread that holds mutex_.
   The rest is history: the bytes reserved by compare-exchanges and not released yet, and the calls
   that have returned.
   */
  datatype State = State(
    usage: Word, closed: bool, owner: int, threads: seq<Thread>, outstanding: nat, returned: seq<Return>)

  const NOBODY: int := -1

  function Init(n: nat): State {
    State(0, false, NOBODY, seq(n, _ => Idle), 0, [])
  }

  /** A call that a thread starts, one atomic step of the call it is in, or a spurious wakeup. */
  datatype Action =
    | StartTryReserve(t: nat, size: Word)
    | StartReserve(t: nat, size: Word)
    | StartRelease(t: nat, size: Word)
    | StartClose(t: nat)
    | Continue(t: nat)
    | SpuriousWakeup(t: nat)

  /** Callers release only what they reserved; a thread blocked on the mutex or asleep cannot run. */
  predicate Enabled(c: Config, s: State, a: Action) {
    && a.t < |s.threads|
    && var th := s.threads[a.t];
       match a {
         case StartTryReserve(_, size) => th.Idle? && size <= c.maxRequest
         case StartReserve(_, size) => th.Idle? && size <= c.maxRequest
         case StartRelease(_, size) => th.Idle? && size <= s.outstanding
         case StartClose(_) => th.Idle?
         case Continue(t) => !th.Idle? && !th.Asleep? && (TakesLock(th) ==> s.owner == NOBODY)
         case SpuriousWakeup(_) => th.Asleep?
       }
  }

  predicate TakesLock(th: Thread) {
    th.WantLock? || th.Woken? || th.Crossed? || th.CloseLock?
  }

  predicate HoldsLock(th: Thread) {
    match th
    case Load(caller, _) => caller.UnderLock?
    case Cas(caller, _, _) => caller.UnderLock?
    case CheckClosed(_) => true
    case Wait(_) => true
    case CloseSet => true
    case Notify(_) => true
    case Unlock => true
    case Answering(_, _) => true
    case _ => false
  }

  function Go(s: State, t: nat, th: Thread): State
    requires t < |s.threads|
  {
    s.(threads := s.threads[t := th])
  }

  function WakeAll(threads: seq<Thread>): (r: seq<Thread>)
    ensures |r| == |threads|
    ensures forall i | 0 <= i < |threads| ::
              r[i] == if threads[i].Asleep? then Woken(threads[i].size) else threads[i]
  {
    seq(|threads|, i requires 0 <= i < |threads| =>
      if threads[i].Asleep? then Woken(threads[i].size) else threads[i])
  }

  /** The limit test of tryReserveMemory refuses the reservation. */
  predicate OverLimit(c: Config, usage: Word) {
    usage > c.memoryLimit && c.memoryLimit > 0
  }

  /** The call of a thread returns. */
  function Reply(s: State, t: nat, request: Request, ok: bool): State
    requires t < |s.threads|
  {
    Go(s.(returned := s.returned + [Return(t, request, ok)]), t, Idle)
  }

  /** Where a call continues once tryReserveMemory has returned. */
  function AfterTry(s: State, t: nat, caller: Caller, size: Word, ok: bool): State
    requires t < |s.threads|
  {
    match caller
    case TryOnly => Reply(s, t, Request(false, size), ok)
    case BeforeLock => if ok then Reply(s, t, Request(true, size), true) else Go(s, t, WantLock(size))
    case UnderLock => Go(s, t, if ok then Answering(size, true) else CheckClosed(size))
  }

  /** The next atomic step of the call that a thread is in. */
  function Proceed(c: Config, s: State, t: nat): State
    requires t < |s.threads|
  {
    match s.threads[t]
    case Load(caller, size) =>
      if OverLimit(c, s.usage) then AfterTry(s, t, caller, size, false)
      else Go(s, t, Cas(caller, size, s.usage))
    case Cas(caller, size, current) =>
      if s.usage == current then
        AfterTry(s.(usage := Plus(current, size), outstanding := s.outstanding + size), t, caller, size, true)
      else Go(s, t, Load(caller, size))
    case WantLock(size) => Go(s.(owner := t), t, Load(UnderLock, size))
    case CheckClosed(size) => Go(s, t, if s.closed then Answering(size, false) else Wait(size))
    case Wait(size) => Go(s.(owner := NOBODY), t, Asleep(size))
    case Woken(size) => Go(s.(owner := t), t, Load(UnderLock, size))
    case Crossed => Go(s.(owner := t), t, Notify(false))
    case CloseLock => Go(s.(owner := t), t, CloseSet)
    case CloseSet => Go(s.(closed := true), t, Notify(true))
    case Notify(_) => Go(s.(threads := WakeAll(s.threads)), t, Unlock)
    case Unlock => Go(s.(owner := NOBODY), t, Idle)
    case Answering(size, ok) => Reply(s.(owner := NOBODY), t, Request(true, size), ok)
    case Idle => s
    case Asleep(_) => s
  }

  function Step(c: Config, s: State, a: Action): State
    requires Enabled(c, s, a)
  {
    match a
    case StartTryReserve(t, size) =>
      if size == 0 then Reply(s, t, Request(false, size), true) else Go(s, t, Load(TryOnly, size))
    case StartReserve(t, size) =>
      if size == 0 then Reply(s, t, Request(true, size), true) else Go(s, t, Load(BeforeLock, size))
    case StartRelease(t, size) =>
      var newUsage := Minus(s.usage, size);
      var crossed := Plus(newUsage, size) > c.memoryLimit && newUsage <= c.memoryLimit;
      Go(s.(usage := newUsage, outstanding := s.outstanding - size), t, if crossed then Crossed else Idle)
    case StartClose(t) => Go(s, t, CloseLock)
    case SpuriousWakeup(t) => Go(s, t, Woken(s.threads[t].size))
    case Continue(t) => Proceed(c, s, t)
  }

  datatype Outcome = Stuck | Reached(state: State)

  /** The state after a sequence of actions, if each is enabled where it is taken. */
  ghost function Exec(c: Config, s: State, actions: seq<Action>): Outcome
    decreases |actions|
  {
    if actions == [] then Reached(s)
    else if Enabled(c, s, actions[0]) then Exec(c, Step(c, s, actions[0]), actions[1..])
    else Stuck
  }

  /** The states that `n` threads can reach by some interleaving of their calls. */
  ghost predicate Reachable(c: Config, n: nat, s: State) {
    exists actions :: Exec(c, Init(n), actions) == Reached(s)
  }

  // ----- The invariant -----

  /** The mutex is held by exactly the thread inside a critical section. */
  ghost predicate Mutex(s: State) {
    && (s.owner == NOBODY || 0 <= s.owner < |s.threads|)
    && forall t | 0 <= t < |s.threads| :: HoldsLock(s.threads[t]) <==> s.owner == t
  }

  /** A thread that has yet to notify after a release across the limit, or after setting isClosed_. */
  predicate WillNotify(th: Thread) {
    th.Crossed? || th.Notify?
  }

  ghost predicate NotifyPending(s: State) {
    exists t | 0 <= t < |s.threads| :: WillNotify(s.threads[t])
  }

  /** A thread that sleeps, or is bound to unless it finds the controller closed. */
  predicate Drowsy(th: Thread) {
    th.Asleep? || th.Wait? || th.CheckClosed?
  }

  /** Every drowsy thread still has a reason to sleep, or will be notified. */
  ghost predicate NoLostRelease(c: Config, s: State) {
    forall t | 0 <= t < |s.threads| && Drowsy(s.threads[t]) :: OverLimit(c, s.usage) || NotifyPending(s)
  }

  /** Once closed, nobody goes to sleep, and sleepers remain only until the closer has notified. */
  ghost predicate NoLostClose(s: State) {
    && (s.closed ==> forall t | 0 <= t < |s.threads| :: !s.threads[t].Wait?)
    && (forall t | 0 <= t < |s.threads| && s.closed && s.threads[t].Asleep? ::
          0 <= s.owner < |s.threads| && s.threads[s.owner] == Notify(true))
  }

  ghost predicate RequestOk(c: Config, th: Thread) {
    match th
    case Load(_, size) => size <= c.maxRequest
    case Cas(_, size, current) => size <= c.maxRequest && !OverLimit(c, current)
    case WantLock(size) => size <= c.maxRequest
    case CheckClosed(size) => size <= c.maxRequest
    case Wait(size) => size <= c.maxRequest
    case Asleep(size) => size <= c.maxRequest
    case Woken(size) => size <= c.maxRequest
    case _ => true
  }

  ghost predicate Requests(c: Config, s: State) {
    forall t | 0 <= t < |s.threads| :: RequestOk(c, s.threads[t])
  }

  /** The counter is the outstanding total as a word, and a positive limit bounds it. */
  ghost predicate Accounting(c: Config, s: State) {
    && s.usage == s.outstanding % WORD_LIMIT
    && (c.memoryLimit > 0 ==> s.usage <= c.memoryLimit + c.maxRequest)
    && (c.memoryLimit > 0 && c.memoryLimit + c.maxRequest < WORD_LIMIT ==> s.outstanding == s.usage)
  }

  ghost predicate Inv(c: Config, s: State) {
    Mutex(s) && NoLostRelease(c, s) && NoLostClose(s) && Requests(c, s) && Accounting(c, s)
  }

  /** Other threads stay where they are, or are woken. */
  ghost predicate OnlyWoken(th: Thread, th': Thread) {
    th' == th || (th.Asleep? && th' == Woken(th.size))
  }

  lemma {:induction false} OthersStay(c: Config, s: State, a: Action)
    requires Enabled(c, s, a)
    ensures
      var s' := Step(c, s, a);
      && |s'.threads| == |s.threads|
      && forall t | 0 <= t < |s.threads| && t != a.t :: OnlyWoken(s.threads[t], s'.threads[t])
  {
    hide Plus, Minus, OverLimit;
  }

  lemma {:induction false} StepKeepsMutex(c: Config, s: State, a: Action)
    requires Mutex(s) && Enabled(c, s, a)
    ensures Mutex(Step(c, s, a))
  {
    hide Plus, Minus, OverLimit, WakeAll, Mutex;
    var s' := Step(c, s, a);
    OthersStay(c, s, a);
    OwnThread(s, a.t);
    assert HoldsLock(s'.threads[a.t]) <==> s'.owner == a.t;
    assert s'.owner == s.owner || (s.owner == a.t && s'.owner == NOBODY) || (s.owner == NOBODY && s'.owner == a.t);
    OthersOwn(s, s', a.t);
  }

  lemma {:induction false} OthersOwn(s: State, s': State, u: nat)
    requires Mutex(s) && u < |s.threads| == |s'.threads|
    requires forall t | 0 <= t < |s.threads| && t != u :: OnlyWoken(s.threads[t], s'.threads[t])
    requires HoldsLock(s'.threads[u]) <==> s'.owner == u
    requires s'.owner == s.owner || (s.owner == u && s'.owner == NOBODY) || (s.owner == NOBODY && s'.owner == u)
    ensures Mutex(s')
  {
    forall t | 0 <= t < |s'.threads| ensures HoldsLock(s'.threads[t]) <==> s'.owner == t {
      if t != u { assert OnlyWoken(s.threads[t], s'.threads[t]); }
    }
  }

  lemma {:induction false} OwnThread(s: State, t: nat)
    requires Mutex(s) && t < |s.threads|
    ensures HoldsLock(s.threads[t]) <==> s.owner == t
    ensures s.owner == NOBODY || 0 <= s.owner < |s.threads|
  {
  }

  lemma {:induction false} StepKeepsRequests(c: Config, s: State, a: Action)
    requires Requests(c, s) && Enabled(c, s, a)
    ensures Requests(c, Step(c, s, a))
  {
    hide Plus, Minus;
  }

  lemma {:induction false} WordSum(total: nat, size: Word)
    ensures Plus(total % WORD_LIMIT, size) == (total + size) % WORD_LIMIT
    ensures size <= total ==> Minus(total % WORD_LIMIT, size) == (total - size) % WORD_LIMIT
  {}

  lemma {:induction false} StepKeepsAccounting(c: Config, s: State, a: Action)
    requires Requests(c, s) && Accounting(c, s) && Enabled(c, s, a)
    ensures Accounting(c, Step(c, s, a))
  {
    hide Plus, Minus, Proceed;
    match a
    case StartRelease(t, size) => WordSum(s.outstanding, size);
    case Continue(t) => ProceedKeepsAccounting(c, s, t);
    case _ =>
  }

  lemma {:induction false} ProceedKeepsAccounting(c: Config, s: State, t: nat)
    requires Requests(c, s) && Accounting(c, s) && t < |s.threads|
    ensures Accounting(c, Proceed(c, s, t))
  {
    hide Plus, WakeAll;
    var th := s.threads[t];
    assert RequestOk(c, th);
    if th.Cas? { WordSum(s.outstanding, th.size); }
  }

  lemma {:induction false} StepKeepsClose(c: Config, s: State, a: Action)
    requires Mutex(s) && NoLostClose(s) && Enabled(c, s, a)
    ensures NoLostClose(Step(c, s, a))
  {
    hide Plus, Minus, OverLimit;
  }

  /** A notify leaves nobody asleep or about to be, since it is sent under the mutex. */
  lemma {:induction false} NotifyWakesAll(c: Config, s: State, t: nat)
    requires Mutex(s) && t < |s.threads| && s.threads[t].Notify?
    ensures NoLostRelease(c, Proceed(c, s, t))
  {
    hide OverLimit;
  }

  lemma {:induction false} StillPending(c: Config, s: State, a: Action)
    requires Enabled(c, s, a) && NotifyPending(s) && !(a.Continue? && s.threads[a.t].Notify?)
    ensures NotifyPending(Step(c, s, a))
  {
    hide Plus, Minus, OverLimit, WakeAll;
    var w :| 0 <= w < |s.threads| && WillNotify(s.threads[w]);
    assert WillNotify(Step(c, s, a).threads[w]);
  }

  /** The heart of the protocol: nothing lets usage fall to the limit without a notify to come. */
  lemma {:induction false} StepKeepsRelease(c: Config, s: State, a: Action)
    requires Mutex(s) && Requests(c, s) && NoLostRelease(c, s) && Enabled(c, s, a)
    ensures NoLostRelease(c, Step(c, s, a))
  {
    hide Plus, Minus, WakeAll, Mutex;
    var s' := Step(c, s, a);
    if a.Continue? && s.threads[a.t].Notify? {
      NotifyWakesAll(c, s, a.t);
    } else if NotifyPending(s) {
      StillPending(c, s, a);
    } else if a.StartRelease? {
      MinusThenPlus(s.usage, a.size);
      if s'.threads[a.t].Crossed? { assert WillNotify(s'.threads[a.t]); }
    } else if a.Continue? {
      assert RequestOk(c, s.threads[a.t]);
    }
  }

  lemma {:induction false} MinusThenPlus(a: Word, b: Word)
    ensures Plus(Minus(a, b), b) == a
  {}

  lemma {:induction false} StepKeepsInv(c: Config, s: State, a: Action)
    requires Inv(c, s) && Enabled(c, s, a)
    ensures Inv(c, Step(c, s, a))
  {
    StepKeepsMutex(c, s, a);
    StepKeepsRequests(c, s, a);
    StepKeepsAccounting(c, s, a);
    StepKeepsClose(c, s, a);
    StepKeepsRelease(c, s, a);
  }

  lemma {:induction false} ExecKeepsInv(c: Config, s: State, actions: seq<Action>)
    requires Inv(c, s) && Exec(c, s, actions).Reached?
    ensures Inv(c, Exec(c, s, actions).state)
    decreases |actions|
  {
    if actions != [] {
      StepKeepsInv(c, s, actions[0]);
      ExecKeepsInv(c, Step(c, s, actions[0]), actions[1..]);
    }
  }

  lemma {:induction false} ReachableInv(c: Config, n: nat, s: State)
    requires Reachable(c, n, s)
    ensures Inv(c, s)
  {
    var actions :| Exec(c, Init(n), actions) == Reached(s);
    ExecKeepsInv(c, Init(n), actions);
  }

  // ----- Main results -----

  /**
   No lost wakeup: in every reachable state a sleeping thread implies that a notify is on its way,
   or that the controller is open and usage is over the limit. A sleeper in a closed controller is
   about to be notified by the closing thread itself.
   */
  lemma {:induction false} NoLostWakeup(c: Config, n: nat, s: State, t: nat)
    requires Reachable(c, n, s) && t < |s.threads| && s.threads[t].Asleep?
    ensures NotifyPending(s) || (!s.closed && c.memoryLimit > 0 && s.usage > c.memoryLimit)
    ensures s.closed ==> 0 <= s.owner < |s.threads| && s.threads[s.owner] == Notify(true)
  {
    ReachableInv(c, n, s);
    if s.closed {
      assert WillNotify(s.threads[s.owner]);
    }
  }

  /**
   Conservation: the counter is the outstanding reservations (as a word), it never exceeds a
   positive limit by more than one request, and it is exact unless limit plus request overflow.
   */
  lemma {:induction false} UsageIsOutstanding(c: Config, n: nat, s: State)
    requires Reachable(c, n, s)
    ensures s.usage == s.outstanding % WORD_LIMIT
    ensures c.memoryLimit > 0 ==> s.usage <= c.memoryLimit + c.maxRequest
    ensures c.memoryLimit > 0 && c.memoryLimit + c.maxRequest < WORD_LIMIT ==>
              s.outstanding == s.usage <= c.memoryLimit + c.maxRequest
  {
    ReachableInv(c, n, s);
  }

  /**
   When every other thread has finished its calls, threads are asleep only because the memory
   over the limit is still held: releasing it must cross the limit and so wake them.
   */
  lemma {:induction false} QuietSleepersWaitForMemory(c: Config, n: nat, s: State, t: nat)
    requires Reachable(c, n, s) && t < |s.threads| && s.threads[t].Asleep?
    requires forall u | 0 <= u < |s.threads| :: s.threads[u].Idle? || s.threads[u].Asleep?
    ensures !s.closed && c.memoryLimit < s.usage <= s.outstanding
    ensures forall u, size | 0 <= u < |s.threads| && s.threads[u].Idle? && s.usage - c.memoryLimit <= size <= s.usage ::
              Step(c, s, StartRelease(u, size)).threads[u].Crossed?
  {
    NoLostWakeup(c, n, s, t);
    ReachableInv(c, n, s);
    forall u, size | 0 <= u < |s.threads| && s.threads[u].Idle? && s.usage - c.memoryLimit <= size <= s.usage
      ensures Step(c, s, StartRelease(u, size)).threads[u].Crossed?
    {
      MinusThenPlus(s.usage, size);
    }
  }
}
