/**
 User callbacks of acknowledgements on their way: as listeners of requests in flight, behind the
 countdown that several acks share, or called. Calling them neither duplicates nor drops one, except
 that a call of an empty callback throws.
 */
module AckCallbacks {
  import opened Options

  datatype Result = ResultOk | AlreadyClosed | Failure(e: nat)

  /** User callbacks are named by numbers; None is an empty std::function. */
  type Callback = Option<nat>

  // ----- Callbacks on their way -----

  /** What is called when an ack completes. */
  datatype Closure =
    | Nothing
    | User(c: nat)
    | Group(callbacks: seq<Callback>)     // calls the callbacks of one flush, in order
    | PerId(counter: nat)                 // one of several acks that share a countdown

  /** A countdown over per-id acks; `target` is called by the one that takes it to zero. */
  datatype Counter = Counter(left: int, target: Closure)

  datatype Call = Call(c: nat, result: Result)

  /**
   Listeners of the requests in flight, countdowns, the calls made to users, and the callbacks that can
   no longer be called because a call of an empty function threw before their turn.
   */
  datatype Env = Env(requests: seq<Closure>, counters: seq<Counter>, calls: seq<Call>, lost: seq<nat>)

  function NonNull(cbs: seq<Callback>): seq<nat> {
    if cbs == [] then [] else (if cbs[0].Some? then [cbs[0].value] else []) + NonNull(cbs[1..])
  }

  /** Calls the callbacks in order; an empty one throws and the rest are never called. */
  function RunGroup(env: Env, cbs: seq<Callback>, result: Result): Env
    decreases |cbs|
  {
    if cbs == [] then env
    else if cbs[0].None? then env.(lost := env.lost + NonNull(cbs))
    else RunGroup(env.(calls := env.calls + [Call(cbs[0].value, result)]), cbs[1..], result)
  }

  function RunTarget(env: Env, target: Closure, result: Result): Env {
    match target
    case User(c) => env.(calls := env.calls + [Call(c, result)])
    case Group(cbs) => RunGroup(env, cbs, result)
    case _ => env
  }

  /** Calls a closure; one of several acks takes its countdown down first. */
  function Run(env: Env, closure: Closure, result: Result): Env {
    if closure.PerId? && closure.counter < |env.counters| then
      var k := closure.counter;
      var left := env.counters[k].left - 1;
      var env' := env.(counters := env.counters[k := env.counters[k].(left := left)]);
      if left == 0 then RunTarget(env', env.counters[k].target, result) else env'
    else RunTarget(env, closure, result)
  }

  predicate HasNull(cbs: seq<Callback>) {
    exists i | 0 <= i < |cbs| :: cbs[i].None?
  }

  /** Running this closure now throws. */
  predicate Throws(env: Env, closure: Closure) {
    match closure
    case Group(cbs) => HasNull(cbs)
    case PerId(k) => k < |env.counters| && env.counters[k].left == 1 && TargetThrows(env.counters[k].target)
    case _ => false
  }

  predicate TargetThrows(target: Closure) {
    target.Group? && HasNull(target.callbacks)
  }

  /** An answer to the i-th request. */
  function Answer(env: Env, i: nat, result: Result): Env
    requires i < |env.requests|
  {
    Run(env.(requests := env.requests[i := Nothing]), env.requests[i], result)
  }

  /** A request whose answer will call the closure. */
  function AddRequest(env: Env, closure: Closure): Env {
    env.(requests := env.requests + [closure])
  }

  /** A countdown over `n` acks. */
  function AddCounter(env: Env, n: nat, closure: Closure): Env {
    env.(counters := env.counters + [Counter(n, closure)])
  }

  // ----- Where a callback is -----

  function CountCallbacks(cbs: seq<Callback>, c: nat): nat {
    if cbs == [] then 0 else (if cbs[0] == Some(c) then 1 else 0) + CountCallbacks(cbs[1..], c)
  }

  function CountClosure(closure: Closure, c: nat): nat {
    match closure
    case User(d) => if c == d then 1 else 0
    case Group(cbs) => CountCallbacks(cbs, c)
    case _ => 0
  }

  function CountRequests(requests: seq<Closure>, c: nat): nat {
    if requests == [] then 0 else CountClosure(requests[0], c) + CountRequests(requests[1..], c)
  }

  function CountCounter(counter: Counter, c: nat): nat {
    if counter.left > 0 then CountClosure(counter.target, c) else 0
  }

  function CountCounters(counters: seq<Counter>, c: nat): nat {
    if counters == [] then 0 else CountCounter(counters[0], c) + CountCounters(counters[1..], c)
  }

  function CountCalls(calls: seq<Call>, c: nat): nat {
    if calls == [] then 0 else (if calls[0].c == c then 1 else 0) + CountCalls(calls[1..], c)
  }

  function CountLost(lost: seq<nat>, c: nat): nat {
    if lost == [] then 0 else (if lost[0] == c then 1 else 0) + CountLost(lost[1..], c)
  }

  /** In how many places outside the tracker the callback is. */
  function CountEnv(env: Env, c: nat): nat {
    CountRequests(env.requests, c) + CountCounters(env.counters, c) + CountCalls(env.calls, c) + CountLost(env.lost, c)
  }

  /** How many acks in flight share the k-th countdown. */
  function Outstanding(requests: seq<Closure>, k: nat): nat {
    if requests == [] then 0 else (if requests[0] == PerId(k) then 1 else 0) + Outstanding(requests[1..], k)
  }

  predicate Wired(env: Env) {
    && (forall i | 0 <= i < |env.requests| :: env.requests[i].PerId? ==> env.requests[i].counter < |env.counters|)
    && (forall k | 0 <= k < |env.counters| :: !env.counters[k].target.PerId?)
  }

  /** Each countdown stands at its acks in flight; `more` of the newest are still to be sent. */
  predicate InStep(env: Env, more: nat) {
    forall k | 0 <= k < |env.counters| ::
      env.counters[k].left == Outstanding(env.requests, k) + if k == |env.counters| - 1 then more else 0
  }

  lemma {:induction false} CountCallbacksAppend(a: seq<Callback>, b: seq<Callback>, c: nat)
    ensures CountCallbacks(a + b, c) == CountCallbacks(a, c) + CountCallbacks(b, c)
    decreases |a|
  {
    if a == [] { assert a + b == b; } else { assert (a + b)[1..] == a[1..] + b; CountCallbacksAppend(a[1..], b, c); }
  }

  lemma {:induction false} CountCallsAppend(a: seq<Call>, x: Call, c: nat)
    ensures CountCalls(a + [x], c) == CountCalls(a, c) + if x.c == c then 1 else 0
    decreases |a|
  {
    if a != [] { assert (a + [x])[1..] == a[1..] + [x]; CountCallsAppend(a[1..], x, c); }
  }

  lemma {:induction false} CountLostAppend(a: seq<nat>, b: seq<nat>, c: nat)
    ensures CountLost(a + b, c) == CountLost(a, c) + CountLost(b, c)
    decreases |a|
  {
    if a == [] { assert a + b == b; } else { assert (a + b)[1..] == a[1..] + b; CountLostAppend(a[1..], b, c); }
  }

  lemma {:induction false} CountNonNull(cbs: seq<Callback>, c: nat)
    ensures CountLost(NonNull(cbs), c) == CountCallbacks(cbs, c)
    decreases |cbs|
  {
    if cbs != [] {
      CountNonNull(cbs[1..], c);
      if cbs[0].Some? {
        assert NonNull(cbs)[1..] == NonNull(cbs[1..]);
      } else {
        assert NonNull(cbs) == NonNull(cbs[1..]);
      }
    }
  }

  lemma {:induction false} RequestsAppend(requests: seq<Closure>, x: Closure, c: nat, k: nat)
    ensures CountRequests(requests + [x], c) == CountRequests(requests, c) + CountClosure(x, c)
    ensures Outstanding(requests + [x], k) == Outstanding(requests, k) + if x == PerId(k) then 1 else 0
    decreases |requests|
  {
    hide CountClosure;
    if requests != [] {
      assert (requests + [x])[1..] == requests[1..] + [x];
      RequestsAppend(requests[1..], x, c, k);
    }
  }

  lemma {:induction false} RequestsUpdate(requests: seq<Closure>, i: nat, c: nat, k: nat)
    requires i < |requests|
    ensures CountRequests(requests[i := Nothing], c) == CountRequests(requests, c) - CountClosure(requests[i], c)
    ensures Outstanding(requests[i := Nothing], k)
         == Outstanding(requests, k) - if requests[i] == PerId(k) then 1 else 0
    decreases |requests|
  {
    if i > 0 {
      assert requests[i := Nothing][1..] == requests[1..][i - 1 := Nothing];
      RequestsUpdate(requests[1..], i - 1, c, k);
    }
  }

  lemma {:induction false} CountersUpdate(counters: seq<Counter>, k: nat, x: Counter, c: nat)
    requires k < |counters|
    ensures CountCounters(counters[k := x], c)
         == CountCounters(counters, c) - CountCounter(counters[k], c) + CountCounter(x, c)
    decreases |counters|
  {
    hide CountCounter;
    if k > 0 {
      assert counters[k := x][1..] == counters[1..][k - 1 := x];
      CountersUpdate(counters[1..], k - 1, x, c);
    }
  }

  lemma {:induction false} CountersAppend(counters: seq<Counter>, x: Counter, c: nat)
    ensures CountCounters(counters + [x], c) == CountCounters(counters, c) + CountCounter(x, c)
    decreases |counters|
  {
    hide CountCounter;
    if counters != [] {
      assert (counters + [x])[1..] == counters[1..] + [x];
      CountersAppend(counters[1..], x, c);
    }
  }

  lemma {:induction false} NoneOutstanding(requests: seq<Closure>, k: nat)
    requires forall i | 0 <= i < |requests| :: requests[i] != PerId(k)
    ensures Outstanding(requests, k) == 0
    decreases |requests|
  {
    if requests != [] { NoneOutstanding(requests[1..], k); }
  }

  // ----- Calling conserves callbacks -----

  lemma {:induction false} RunGroupConserves(env: Env, cbs: seq<Callback>, result: Result, c: nat)
    ensures CountEnv(RunGroup(env, cbs, result), c) == CountEnv(env, c) + CountCallbacks(cbs, c)
    ensures RunGroup(env, cbs, result).requests == env.requests && RunGroup(env, cbs, result).counters == env.counters
    decreases |cbs|
  {
    if cbs != [] {
      if cbs[0].None? {
        CountLostAppend(env.lost, NonNull(cbs), c);
        CountNonNull(cbs, c);
      } else {
        CountCallsAppend(env.calls, Call(cbs[0].value, result), c);
        RunGroupConserves(env.(calls := env.calls + [Call(cbs[0].value, result)]), cbs[1..], result, c);
      }
    }
  }

  lemma {:induction false} RunTargetConserves(env: Env, target: Closure, result: Result, c: nat)
    ensures CountEnv(RunTarget(env, target, result), c) == CountEnv(env, c) + CountClosure(target, c)
    ensures RunTarget(env, target, result).requests == env.requests
    ensures RunTarget(env, target, result).counters == env.counters
  {
    match target
    case User(d) => CountCallsAppend(env.calls, Call(d, result), c);
    case Group(cbs) => RunGroupConserves(env, cbs, result, c);
    case _ =>
  }

  /** Running a closure moves its callbacks, wherever they were, to the calls or the lost. */
  lemma {:induction false} RunConserves(env: Env, closure: Closure, result: Result, c: nat)
    requires Wired(env)
    requires closure.PerId? ==> closure.counter < |env.counters| && env.counters[closure.counter].left > 0
    ensures CountEnv(Run(env, closure, result), c) == CountEnv(env, c) + CountClosure(closure, c)
  {
    hide CountCallbacks, RunTarget;
    if closure.PerId? {
      var k := closure.counter;
      var x := env.counters[k].(left := env.counters[k].left - 1);
      CountersUpdate(env.counters, k, x, c);
      RunTargetConserves(env.(counters := env.counters[k := x]), x.target, result, c);
    } else {
      RunTargetConserves(env, closure, result, c);
    }
  }

  lemma {:induction false} AnswerConserves(env: Env, i: nat, result: Result, c: nat)
    requires Wired(env) && InStep(env, 0) && i < |env.requests|
    ensures CountEnv(Answer(env, i, result), c) == CountEnv(env, c)
  {
    hide CountClosure, Run;
    var env' := env.(requests := env.requests[i := Nothing]);
    var closure := env.requests[i];
    RequestsUpdate(env.requests, i, c, if closure.PerId? then closure.counter else 0);
    RunConserves(env', closure, result, c);
  }

  lemma {:induction false} RunKeepsWiring(env: Env, closure: Closure, result: Result)
    requires Wired(env) && (closure.PerId? ==> closure.counter < |env.counters|)
    ensures
      var env' := Run(env, closure, result);
      && Wired(env') && env'.requests == env.requests && |env'.counters| == |env.counters|
      && forall k | 0 <= k < |env.counters| ::
           && env'.counters[k].target == env.counters[k].target
           && env'.counters[k].left == env.counters[k].left - if closure == PerId(k) then 1 else 0
  {
    if closure.PerId? {
      var k := closure.counter;
      var x := env.counters[k].(left := env.counters[k].left - 1);
      RunTargetConserves(env.(counters := env.counters[k := x]), x.target, result, 0);
    } else {
      RunTargetConserves(env, closure, result, 0);
    }
  }

  lemma {:induction false} AnswerKeepsInStep(env: Env, i: nat, result: Result)
    requires Wired(env) && InStep(env, 0) && i < |env.requests|
    ensures Wired(Answer(env, i, result)) && InStep(Answer(env, i, result), 0)
  {
    hide Run;
    var env' := env.(requests := env.requests[i := Nothing]);
    RunKeepsWiring(env', env.requests[i], result);
    forall k: nat ensures
      Outstanding(env'.requests, k) == Outstanding(env.requests, k) - if env.requests[i] == PerId(k) then 1 else 0
    {
      RequestsUpdate(env.requests, i, 0, k);
    }
  }

  /**
   On the fallback for old brokers, the answer to a per-id ack calls the callbacks of the group if it is
   the last of them to be answered, and calls nobody otherwise.
   */
  lemma {:induction false} GroupRunsOnLastAck(env: Env, i: nat, result: Result)
    requires Wired(env) && InStep(env, 0) && i < |env.requests| && env.requests[i].PerId?
    ensures
      var k := env.requests[i].counter;
      var env' := Answer(env, i, result);
      var called := RunTarget(env, env.counters[k].target, result);
      if forall j | 0 <= j < |env.requests| && j != i :: env.requests[j] != PerId(k)
      then env'.calls == called.calls && env'.lost == called.lost
      else env'.calls == env.calls && env'.lost == env.lost
  {
    var k := env.requests[i].counter;
    var others := env.requests[i := Nothing];
    RequestsUpdate(env.requests, i, 0, k);
    if j :| 0 <= j < |env.requests| && j != i && env.requests[j] == PerId(k) {
      assert others[j] == PerId(k);
      SomeOutstanding(others, j, k);
    } else {
      NoneOutstanding(others, k);
      var x := env.counters[k].(left := 0);
      SameCalls(env, env.(requests := others, counters := env.counters[k := x]), env.counters[k].target, result);
    }
  }

  lemma {:induction false} SomeOutstanding(requests: seq<Closure>, j: nat, k: nat)
    requires j < |requests| && requests[j] == PerId(k)
    ensures Outstanding(requests, k) > 0
    decreases |requests|
  {
    if j > 0 { SomeOutstanding(requests[1..], j - 1, k); }
  }

  lemma {:induction false} SameCalls(a: Env, b: Env, target: Closure, result: Result)
    requires a.calls == b.calls && a.lost == b.lost
    ensures RunTarget(a, target, result).calls == RunTarget(b, target, result).calls
    ensures RunTarget(a, target, result).lost == RunTarget(b, target, result).lost
  {
    if target.Group? { SameGroupCalls(a, b, target.callbacks, result); }
  }

  lemma {:induction false} SameGroupCalls(a: Env, b: Env, cbs: seq<Callback>, result: Result)
    requires a.calls == b.calls && a.lost == b.lost
    ensures RunGroup(a, cbs, result).calls == RunGroup(b, cbs, result).calls
    ensures RunGroup(a, cbs, result).lost == RunGroup(b, cbs, result).lost
    decreases |cbs|
  {
    if cbs != [] && cbs[0].Some? {
      var call := Call(cbs[0].value, result);
      SameGroupCalls(a.(calls := a.calls + [call]), b.(calls := b.calls + [call]), cbs[1..], result);
    }
  }

  // ----- Empty callbacks -----

  /** An empty callback stands in front of one that is not. */
  predicate NullBefore(cbs: seq<Callback>) {
    exists i, j | 0 <= i < j < |cbs| :: cbs[i].None? && cbs[j].Some?
  }

  /** A group calls all its callbacks, in order, if and only if no empty one stands before another. */
  lemma {:induction false} GroupCallsAllIffNoNullBefore(env: Env, cbs: seq<Callback>, result: Result)
    ensures RunGroup(env, cbs, result).lost == env.lost <==> !NullBefore(cbs)
    ensures !NullBefore(cbs) ==> RunGroup(env, cbs, result).calls == env.calls + Calls(NonNull(cbs), result)
    decreases |cbs|
  {
    hide NullBefore;
    if cbs == [] {
      NoNullBefore(cbs);
      assert env.calls + [] == env.calls;
    } else if cbs[0].None? {
      NullInFront(cbs);
      assert |env.lost + NonNull(cbs)| == |env.lost| + |NonNull(cbs)|;
      if NonNull(cbs) == [] { assert env.lost + [] == env.lost && env.calls + [] == env.calls; }
    } else {
      var call := Call(cbs[0].value, result);
      NullBeforeTail(cbs);
      GroupCallsAllIffNoNullBefore(env.(calls := env.calls + [call]), cbs[1..], result);
      assert NonNull(cbs)[1..] == NonNull(cbs[1..]);
      assert env.calls + [call] + Calls(NonNull(cbs[1..]), result) == env.calls + Calls(NonNull(cbs), result);
    }
  }

  lemma {:induction false} NoNullBefore(cbs: seq<Callback>)
    requires cbs == []
    ensures !NullBefore(cbs)
  {
  }

  lemma {:induction false} NullInFront(cbs: seq<Callback>)
    requires cbs != [] && cbs[0].None?
    ensures NullBefore(cbs) <==> NonNull(cbs) != []
  {
    NonNullEmpty(cbs);
    if NonNull(cbs) != [] {
      var j :| 0 <= j < |cbs| && cbs[j].Some?;
      assert cbs[0].None? && 0 < j;
    }
  }

  function Calls(cs: seq<nat>, result: Result): seq<Call> {
    if cs == [] then [] else [Call(cs[0], result)] + Calls(cs[1..], result)
  }

  lemma {:induction false} NonNullEmpty(cbs: seq<Callback>)
    ensures NonNull(cbs) == [] <==> forall j | 0 <= j < |cbs| :: cbs[j].None?
    decreases |cbs|
  {
    if cbs != [] {
      NonNullEmpty(cbs[1..]);
      assert forall j | 0 < j < |cbs| :: cbs[j] == cbs[1..][j - 1];
    }
  }

  lemma {:induction false} NullBeforeTail(cbs: seq<Callback>)
    requires cbs != [] && cbs[0].Some?
    ensures NullBefore(cbs) <==> NullBefore(cbs[1..])
  {
    var t := cbs[1..];
    if i, j :| 0 <= i < j < |cbs| && cbs[i].None? && cbs[j].Some? {
      assert t[i - 1].None? && t[j - 1].Some?;
    }
    if i, j :| 0 <= i < j < |t| && t[i].None? && t[j].Some? {
      assert cbs[i + 1].None? && cbs[j + 1].Some?;
    }
  }

  /** Nothing has been lost and nothing on its way can be. */
  predicate Clean(env: Env) {
    && env.lost == []
    && (forall i | 0 <= i < |env.requests| :: CleanClosure(env.requests[i]))
    && (forall k | 0 <= k < |env.counters| :: CleanClosure(env.counters[k].target))
  }

  predicate CleanClosure(closure: Closure) {
    closure.Group? ==> !HasNull(closure.callbacks)
  }

  lemma {:induction false} GroupKeepsClean(env: Env, cbs: seq<Callback>, result: Result)
    requires !HasNull(cbs)
    ensures RunGroup(env, cbs, result) == env.(calls := RunGroup(env, cbs, result).calls)
    decreases |cbs|
  {
    if cbs != [] {
      assert cbs[0].Some?;
      assert forall i | 0 <= i < |cbs[1..]| :: cbs[1..][i] == cbs[i + 1];
      GroupKeepsClean(env.(calls := env.calls + [Call(cbs[0].value, result)]), cbs[1..], result);
    }
  }

  lemma {:induction false} RunKeepsClean(env: Env, closure: Closure, result: Result)
    requires Clean(env) && CleanClosure(closure) && (closure.PerId? ==> closure.counter < |env.counters|)
    ensures Clean(Run(env, closure, result)) && !Throws(env, closure)
  {
    if closure.Group? { GroupKeepsClean(env, closure.callbacks, result); }
    if closure.PerId? {
      var k := closure.counter;
      var env' := env.(counters := env.counters[k := env.counters[k].(left := env.counters[k].left - 1)]);
      assert Clean(env');
      if env.counters[k].target.Group? { GroupKeepsClean(env', env.counters[k].target.callbacks, result); }
    }
  }

  lemma {:induction false} AnswerKeepsClean(env: Env, i: nat, result: Result)
    requires Clean(env) && Wired(env) && i < |env.requests|
    ensures Clean(Answer(env, i, result))
  {
    hide Run, Throws, HasNull;
    RunKeepsClean(env.(requests := env.requests[i := Nothing]), env.requests[i], result);
  }

  // ----- New calls -----

  /** The calls made in between all had this result. */
  ghost predicate CalledWith(before: seq<Call>, after: seq<Call>, result: Result) {
    before <= after && forall i | |before| <= i < |after| :: after[i].result == result
  }

  lemma {:induction false} RunGroupCalls(env: Env, cbs: seq<Callback>, result: Result)
    ensures CalledWith(env.calls, RunGroup(env, cbs, result).calls, result)
    decreases |cbs|
  {
    if cbs != [] && cbs[0].Some? {
      RunGroupCalls(env.(calls := env.calls + [Call(cbs[0].value, result)]), cbs[1..], result);
    }
  }

  lemma {:induction false} RunCalls(env: Env, closure: Closure, result: Result)
    ensures CalledWith(env.calls, Run(env, closure, result).calls, result)
  {
    hide CalledWith;
    CalledNobody(env.calls, result);
    if closure.Group? { RunGroupCalls(env, closure.callbacks, result); }
    if closure.User? { CalledOne(env.calls, Call(closure.c, result)); }
    if closure.PerId? && closure.counter < |env.counters| {
      var k := closure.counter;
      var target := env.counters[k].target;
      var env' := env.(counters := env.counters[k := env.counters[k].(left := env.counters[k].left - 1)]);
      if target.Group? { RunGroupCalls(env', target.callbacks, result); }
      if target.User? { CalledOne(env.calls, Call(target.c, result)); }
    }
  }

  lemma {:induction false} CalledNobody(calls: seq<Call>, result: Result)
    ensures CalledWith(calls, calls, result)
  {
  }

  lemma {:induction false} CalledOne(calls: seq<Call>, call: Call)
    ensures CalledWith(calls, calls + [call], call.result)
  {
  }

  lemma {:induction false} CalledOn(a: seq<Call>, b: seq<Call>, d: seq<Call>, result: Result)
    requires CalledWith(a, b, result) && CalledWith(b, d, result)
    ensures CalledWith(a, d, result)
  {
  }

  // ----- Countdowns -----

  /** How far a countdown is ahead of its acks in flight. */
  ghost function Slack(env: Env, k: nat): int
    requires k < |env.counters|
  {
    env.counters[k].left - Outstanding(env.requests, k)
  }

  /** The callbacks of the closure, and no others, are in one more place. */
  ghost predicate Moved(before: Env, after: Env, closure: Closure) {
    forall c: nat :: CountEnv(after, c) == CountEnv(before, c) + CountClosure(closure, c)
  }

  lemma {:induction false} NothingMoved(env: Env)
    ensures Moved(env, env, Nothing)
  {
  }

  lemma {:induction false} MovedOn(a: Env, b: Env, d: Env, closure: Closure)
    requires Moved(a, b, closure) && Moved(b, d, Nothing)
    ensures Moved(a, d, closure)
  {
    hide CountEnv;
  }

  /** The newest countdown runs `closure` once `n` more acks are sent and all are completed. */
  ghost predicate Counting(env: Env, closure: Closure, n: nat) {
    && Wired(env) && InStep(env, n) && env.counters != []
    && var newest := env.counters[|env.counters| - 1];
       newest.target == closure && (n > 0 ==> newest.left > 0)
  }

  lemma {:induction false} CountedDown(env: Env, closure: Closure, n: nat)
    requires Counting(env, closure, n)
    ensures Wired(env) && InStep(env, n) && |env.counters| > 0
  {
  }

  lemma {:induction false} CountdownStep(was: Env, env: Env, n: nat)
    requires |env.counters| == |was.counters| > 0 && InStep(was, n + 1)
    requires forall k | 0 <= k < |env.counters| ::
      Slack(env, k) == Slack(was, k) - if k == |env.counters| - 1 then 1 else 0
    ensures InStep(env, n) && (n > 0 ==> env.counters[|env.counters| - 1].left > 0)
  {
    forall k | 0 <= k < |env.counters|
      ensures env.counters[k].left == Outstanding(env.requests, k) + if k == |env.counters| - 1 then n else 0
    {
      assert Slack(env, k) == Slack(was, k) - if k == |env.counters| - 1 then 1 else 0;
    }
  }

  lemma {:induction false} AddRequestMoves(env: Env, closure: Closure)
    requires Wired(env) && (closure.PerId? ==> closure.counter < |env.counters|)
    ensures
      var env' := AddRequest(env, closure);
      && Moved(env, env', closure)
      && Wired(env') && (Clean(env) && CleanClosure(closure) ==> Clean(env'))
      && forall k: nat ::
           Outstanding(env'.requests, k) == Outstanding(env.requests, k) + if closure == PerId(k) then 1 else 0
  {
    hide CountClosure, CountRequests, Outstanding, CleanClosure;
    var requests := env.requests + [closure];
    forall c: nat ensures CountRequests(requests, c) == CountRequests(env.requests, c) + CountClosure(closure, c) {
      RequestsAppend(env.requests, closure, c, 0);
    }
    forall k: nat
      ensures Outstanding(requests, k) == Outstanding(env.requests, k) + if closure == PerId(k) then 1 else 0
    {
      RequestsAppend(env.requests, closure, 0, k);
    }
  }

  lemma {:induction false} RunMoves(env: Env, closure: Closure, result: Result)
    requires Wired(env)
    requires closure.PerId? ==> closure.counter < |env.counters| && env.counters[closure.counter].left > 0
    ensures Moved(env, Run(env, closure, result), closure)
  {
    forall c: nat ensures CountEnv(Run(env, closure, result), c) == CountEnv(env, c) + CountClosure(closure, c) {
      RunConserves(env, closure, result, c);
    }
  }

  lemma {:induction false} StartCountdown(env: Env, n: nat, closure: Closure)
    requires Wired(env) && InStep(env, 0) && n > 0 && !closure.PerId?
    ensures
      var env' := AddCounter(env, n, closure);
      && Counting(env', closure, n) && (Clean(env) && CleanClosure(closure) ==> Clean(env'))
      && Moved(env, env', closure)
  {
    hide CountClosure, CountRequests, CountCounters, CountCalls, CountLost, Outstanding, CleanClosure;
    forall c: nat
      ensures CountCounters(env.counters + [Counter(n, closure)], c)
           == CountCounters(env.counters, c) + CountClosure(closure, c)
    {
      CountersAppend(env.counters, Counter(n, closure), c);
    }
    NoneOutstanding(env.requests, |env.counters|);
  }

  lemma {:induction false} CountOneMore(cbs: seq<Callback>, callback: Callback, c: nat)
    ensures CountCallbacks(cbs + [callback], c) == CountCallbacks(cbs, c) + if callback == Some(c) then 1 else 0
  {
    CountCallbacksAppend(cbs, [callback], c);
  }
}
