/**
 The flow-permit counter of ConsumerImpl (lib/ConsumerImpl.cc): increaseAvailablePermits with
 pauseMessageListener and resumeMessageListener, as a transition system over any number of
 threads with one step per atomic operation. A run lies between two resets of the counter, on a
 live connection.
 */
module FlowPermits {

  datatype Thread =
    | Idle
    | FetchAdd(delta: nat)      // about to add delta to availablePermits_
    | Test(permits: int)        // about to evaluate the loop condition
    | Cas(permits: int)         // condition held, about to compare-exchange with 0
    | SendFlow(permits: int)    // owns the permits, about to send the FLOW command
    | ResumeLoad                // in resumeMessageListener, about to read messageListenerRunning_
    | ResumeStore               // found it paused, about to set messageListenerRunning_

  datatype State = State(available: int, running: bool, threads: seq<Thread>)

  /** `threshold` is receiverQueueRefillThreshold_. */
  datatype Config = Config(threshold: nat)

  function Init(n: nat, running: bool): State {
    State(0, running, seq(n, _ => Idle))
  }

  /** `weak` marks a compare_exchange_weak that fails spuriously. */
  datatype Action =
    | StartIncrease(t: nat, delta: nat)
    | StartPause(t: nat)
    | StartResume(t: nat)
    | Continue(t: nat, weak: bool)

  predicate Enabled(s: State, a: Action) {
    && a.t < |s.threads|
    && (a.Continue? <==> !s.threads[a.t].Idle?)
  }

  function Go(s: State, t: nat, th: Thread): State
    requires t < |s.threads|
  {
    s.(threads := s.threads[t := th])
  }

  function Step(c: Config, s: State, a: Action): State
    requires Enabled(s, a)
  {
    match a
    case StartIncrease(t, delta) => Go(s, t, FetchAdd(delta))
    case StartPause(t) => s.(running := false)
    case StartResume(t) => Go(s, t, ResumeLoad)
    case Continue(t, weak) =>
      match s.threads[t] {
        case FetchAdd(delta) => Go(s.(available := s.available + delta), t, Test(s.available + delta))
        case Test(permits) => Go(s, t, if permits >= c.threshold && s.running then Cas(permits) else Idle)
        case Cas(permits) =>
          if s.available == permits && !weak then Go(s.(available := 0), t, SendFlow(permits))
          else Go(s, t, Test(s.available))
        case SendFlow(permits) => Go(s, t, Idle)
        case ResumeLoad => Go(s, t, if s.running then Idle else ResumeStore)
        case ResumeStore => Go(s.(running := true), t, FetchAdd(0))
        case Idle => s
      }
  }

  datatype Outcome = Stuck | Reached(state: State)

  ghost function Exec(c: Config, s: State, actions: seq<Action>): Outcome
    decreases |actions|
  {
    if actions == [] then Reached(s)
    else if Enabled(s, actions[0]) then Exec(c, Step(c, s, actions[0]), actions[1..])
    else Stuck
  }

  /** The permits sent in FLOW commands along a run. Zero permits send no command. */
  ghost function Flowed(c: Config, s: State, actions: seq<Action>): int
    requires Exec(c, s, actions).Reached?
    decreases |actions|
  {
    if actions == [] then 0 else FlowOf(s, actions[0]) + Flowed(c, Step(c, s, actions[0]), actions[1..])
  }

  /** The sum of the deltas that the increase calls of a run asked for. */
  ghost function Deltas(actions: seq<Action>): nat
    decreases |actions|
  {
    if actions == [] then 0 else DeltaOf(actions[0]) + Deltas(actions[1..])
  }

  /** Permits that a thread holds: not added yet, or taken from the counter and not sent yet. */
  function Held(th: Thread): int {
    match th
    case FetchAdd(delta) => delta
    case SendFlow(permits) => permits
    case _ => 0
  }

  function InHand(threads: seq<Thread>): int {
    if threads == [] then 0 else Held(threads[0]) + InHand(threads[1..])
  }

  lemma {:induction false} InHandUpdate(threads: seq<Thread>, t: nat, th: Thread)
    requires t < |threads|
    ensures InHand(threads[t := th]) == InHand(threads) - Held(threads[t]) + Held(th)
  {
    if t > 0 {
      assert threads[t := th][1..] == threads[1..][t - 1 := th];
      InHandUpdate(threads[1..], t - 1, th);
    }
  }

  lemma {:induction false} InHandZero(threads: seq<Thread>)
    requires forall t | 0 <= t < |threads| :: Held(threads[t]) == 0
    ensures InHand(threads) == 0
  {
    if threads != [] { InHandZero(threads[1..]); }
  }

  /** The counter and the permits taken from it are never negative. */
  ghost predicate NonNegative(s: State) {
    && s.available >= 0
    && forall t | 0 <= t < |s.threads| :: s.threads[t].SendFlow? ==> s.threads[t].permits >= 0
  }

  /** What one action adds to FLOW, and what it adds to the sum of deltas. */
  function FlowOf(s: State, a: Action): int
    requires Enabled(s, a)
  {
    var th := s.threads[a.t];
    if a.Continue? && th.SendFlow? && th.permits > 0 then th.permits else 0
  }

  function DeltaOf(a: Action): nat {
    if a.StartIncrease? then a.delta else 0
  }

  lemma {:induction false} StepConserves(c: Config, s: State, a: Action)
    requires NonNegative(s) && Enabled(s, a)
    ensures NonNegative(Step(c, s, a))
    ensures
      var s' := Step(c, s, a);
      FlowOf(s, a) + s'.available + InHand(s'.threads) == s.available + InHand(s.threads) + DeltaOf(a)
  {
    var s' := Step(c, s, a);
    InHandUpdate(s.threads, a.t, s'.threads[a.t]);
    assert s'.threads == s.threads[a.t := s'.threads[a.t]];
  }

  lemma {:induction false} Conservation(c: Config, s: State, actions: seq<Action>)
    requires NonNegative(s) && Exec(c, s, actions).Reached?
    ensures
      var end := Exec(c, s, actions).state;
      && NonNegative(end)
      && Flowed(c, s, actions) + end.available + InHand(end.threads)
         == s.available + InHand(s.threads) + Deltas(actions)
    decreases |actions|
  {
    if actions != [] {
      StepConserves(c, s, actions[0]);
      Conservation(c, Step(c, s, actions[0]), actions[1..]);
    }
  }

  /** A thread that will bring the counter below the threshold, or read a value that makes it try. */
  predicate WillRefill(c: Config, th: Thread) {
    match th
    case FetchAdd(_) => true
    case Test(permits) => permits >= c.threshold
    case Cas(_) => true
    case _ => false
  }

  ghost predicate RefillPending(c: Config, s: State) {
    exists t | 0 <= t < |s.threads| :: WillRefill(c, s.threads[t])
  }

  /** Permits that are due, at least one of them, are about to be flushed. */
  ghost predicate NoStuckPermits(c: Config, s: State) {
    s.running && s.available >= c.threshold && s.available >= 1 ==> RefillPending(c, s)
  }

  lemma {:induction false} StepKeepsNoStuckPermits(c: Config, s: State, a: Action)
    requires NonNegative(s) && NoStuckPermits(c, s) && Enabled(s, a)
    ensures NoStuckPermits(c, Step(c, s, a))
  {
    var s' := Step(c, s, a);
    if s'.running && s'.available >= c.threshold && s'.available >= 1 {
      if WillRefill(c, s'.threads[a.t]) {
      } else if RefillPending(c, s) {
        var w :| 0 <= w < |s.threads| && WillRefill(c, s.threads[w]);
        assert WillRefill(c, s'.threads[w]);
      }
    }
  }

  lemma {:induction false} ExecKeepsNoStuckPermits(c: Config, s: State, actions: seq<Action>)
    requires NonNegative(s) && NoStuckPermits(c, s) && Exec(c, s, actions).Reached?
    ensures NoStuckPermits(c, Exec(c, s, actions).state)
    decreases |actions|
  {
    if actions != [] {
      StepKeepsNoStuckPermits(c, s, actions[0]);
      ExecKeepsNoStuckPermits(c, Step(c, s, actions[0]), actions[1..]);
    }
  }

  // ----- Main results -----

  /** In every interleaving, FLOW plus the counter plus what threads still hold is the sum of deltas. */
  lemma {:induction false} PermitsAreConserved(c: Config, n: nat, running: bool, actions: seq<Action>)
    requires Exec(c, Init(n, running), actions).Reached?
    ensures
      var end := Exec(c, Init(n, running), actions).state;
      && end.available >= 0
      && Flowed(c, Init(n, running), actions) + end.available + InHand(end.threads) == Deltas(actions)
      && ((forall t | 0 <= t < |end.threads| :: Held(end.threads[t]) == 0) ==>
            Flowed(c, Init(n, running), actions) + end.available == Deltas(actions))
  {
    var s := Init(n, running);
    InHandZero(s.threads);
    Conservation(c, s, actions);
    var end := Exec(c, s, actions).state;
    if forall t | 0 <= t < |end.threads| :: Held(end.threads[t]) == 0 { InHandZero(end.threads); }
  }

  /**
   For every threshold, with the listener running: permits at or above the threshold, if there are any,
   mean that some call is still in progress and will try again. So when all calls have returned, either
   the listener is paused, or none are left, or fewer than the threshold.
   */
  lemma {:induction false} NoPermitIsStuck(c: Config, n: nat, running: bool, actions: seq<Action>)
    requires Exec(c, Init(n, running), actions).Reached?
    ensures
      var end := Exec(c, Init(n, running), actions).state;
      && (end.running && end.available >= c.threshold && end.available >= 1 ==> RefillPending(c, end))
      && ((forall t | 0 <= t < |end.threads| :: end.threads[t].Idle?) && end.running ==>
            end.available == 0 || end.available < c.threshold)
  {
    var s := Init(n, running);
    InHandZero(s.threads);
    Conservation(c, s, actions);
    ExecKeepsNoStuckPermits(c, s, actions);
  }

  lemma {:induction false} ExecLast(c: Config, s: State, actions: seq<Action>)
    requires actions != [] && Exec(c, s, actions).Reached?
    ensures
      var front, a := Exec(c, s, actions[..|actions| - 1]), actions[|actions| - 1];
      front.Reached? && Enabled(front.state, a) && Exec(c, s, actions).state == Step(c, front.state, a)
    decreases |actions|
  {
    hide Step, Enabled;
    if |actions| > 1 {
      ExecLast(c, Step(c, s, actions[0]), actions[1..]);
      assert actions[1..][..|actions| - 2] == actions[..|actions| - 1][1..];
    } else {
      assert actions[1..] == [];
    }
  }

  /** In its i-th step the run tests these permits for thread `t`, while the listener runs. */
  ghost predicate TestedAt(c: Config, s: State, actions: seq<Action>, t: nat, permits: int, i: int) {
    && 0 <= i < |actions| && actions[i].Continue? && actions[i].t == t
    && Exec(c, s, actions[..i]).Reached?
    && var at := Exec(c, s, actions[..i]).state;
       t < |at.threads| && at.threads[t] == Test(permits) && at.running
  }

  /** Permits that a thread tries to take, or has taken. */
  predicate Takes(th: Thread) {
    th.Cas? || th.SendFlow?
  }

  lemma {:induction false} StepTakes(c: Config, s: State, a: Action, t: nat)
    requires Enabled(s, a) && t < |s.threads|
    ensures |Step(c, s, a).threads| == |s.threads|
    ensures
      var th, th' := s.threads[t], Step(c, s, a).threads[t];
      Takes(th') ==>
        || (Takes(th) && th.permits == th'.permits)
        || (a.Continue? && a.t == t && th == Test(th'.permits) && s.running && th'.permits >= c.threshold)
  {
  }

  /**
   In every run, permits are taken from the counter and sent to the broker only if there were at least the
   threshold, and only after a test of just these permits while the listener was running.
   */
  lemma {:induction false} FlowNeedsTheThreshold(c: Config, n: nat, running: bool, actions: seq<Action>, t: nat)
    requires Exec(c, Init(n, running), actions).Reached? && t < |Exec(c, Init(n, running), actions).state.threads|
    requires Takes(Exec(c, Init(n, running), actions).state.threads[t])
    ensures
      var permits := Exec(c, Init(n, running), actions).state.threads[t].permits;
      permits >= c.threshold && exists i :: TestedAt(c, Init(n, running), actions, t, permits, i)
    decreases |actions|
  {
    hide Step, Enabled;
    var s := Init(n, running);
    assert actions != [];
    var m := |actions| - 1;
    var front, a := actions[..m], actions[m];
    ExecLast(c, s, actions);
    var last := Exec(c, s, front).state;
    SameThreads(c, last, a);
    StepTakes(c, last, a, t);
    var permits := Exec(c, s, actions).state.threads[t].permits;
    if Takes(last.threads[t]) && last.threads[t].permits == permits {
      FlowNeedsTheThreshold(c, n, running, front, t);
      var i :| TestedAt(c, s, front, t, permits, i);
      assert front[..i] == actions[..i];
      assert TestedAt(c, s, actions, t, permits, i);
    } else {
      assert TestedAt(c, s, actions, t, permits, m);
    }
  }

  lemma {:induction false} SameThreads(c: Config, s: State, a: Action)
    requires Enabled(s, a)
    ensures |Step(c, s, a).threads| == |s.threads|
  {
  }

  // ----- Pausing and resuming -----

  predicate Resuming(th: Thread) {
    th.ResumeLoad? || th.ResumeStore?
  }

  ghost predicate Paused(s: State) {
    !s.running && forall t | 0 <= t < |s.threads| :: !Resuming(s.threads[t])
  }

  lemma {:induction false} StaysPaused(c: Config, s: State, actions: seq<Action>)
    requires Paused(s) && Exec(c, s, actions).Reached?
    requires forall i | 0 <= i < |actions| :: !actions[i].StartResume?
    ensures Paused(Exec(c, s, actions).state)
    decreases |actions|
  {
    if actions != [] { StaysPaused(c, Step(c, s, actions[0]), actions[1..]); }
  }

  /** Once the listener is paused with no resume on its way, it stays so until somebody asks to resume it. */
  lemma {:induction false} PauseHolds(c: Config, s: State, t: nat, actions: seq<Action>)
    requires Enabled(s, StartPause(t)) && forall u | 0 <= u < |s.threads| :: !Resuming(s.threads[u])
    requires Exec(c, Step(c, s, StartPause(t)), actions).Reached?
    requires forall i | 0 <= i < |actions| :: !actions[i].StartResume?
    ensures !Exec(c, Step(c, s, StartPause(t)), actions).state.running
  {
    StaysPaused(c, Step(c, s, StartPause(t)), actions);
  }

  lemma {:induction false} ResumeGoesOn(c: Config, s: State, t: nat, actions: seq<Action>)
    requires t < |s.threads| && (s.running || Resuming(s.threads[t])) && Exec(c, s, actions).Reached?
    requires forall i | 0 <= i < |actions| :: !actions[i].StartPause?
    ensures
      var end := Exec(c, s, actions).state;
      t < |end.threads| && (end.running || Resuming(end.threads[t]))
    decreases |actions|
  {
    if actions != [] { ResumeGoesOn(c, Step(c, s, actions[0]), t, actions[1..]); }
  }

  /** A resume makes the listener run, unless it is paused again. */
  lemma {:induction false} ResumeTakesEffect(c: Config, s: State, t: nat, actions: seq<Action>)
    requires Enabled(s, StartResume(t)) && Exec(c, Step(c, s, StartResume(t)), actions).Reached?
    requires forall i | 0 <= i < |actions| :: !actions[i].StartPause?
    ensures
      var end := Exec(c, Step(c, s, StartResume(t)), actions).state;
      t < |end.threads| && (end.running || Resuming(end.threads[t]))
  {
    ResumeGoesOn(c, Step(c, s, StartResume(t)), t, actions);
  }

  // ----- Calls that run alone -----

  /** Thread `t` runs alone, with no spurious failures, until its call returns, or for `k` steps. */
  ghost function Alone(c: Config, s: State, t: nat, k: nat): State
    decreases k
  {
    if k == 0 || !Enabled(s, Continue(t, false)) then s
    else Alone(c, Step(c, s, Continue(t, false)), t, k - 1)
  }

  /** Running alone is a run. */
  lemma {:induction false} AloneIsARun(c: Config, s: State, t: nat, k: nat)
    ensures exists actions :: Exec(c, s, actions) == Reached(Alone(c, s, t, k))
    decreases k
  {
    hide Step, Enabled;
    if k == 0 || !Enabled(s, Continue(t, false)) {
      assert Exec(c, s, []) == Reached(s);
    } else {
      var s' := Step(c, s, Continue(t, false));
      AloneIsARun(c, s', t, k - 1);
      var actions :| Exec(c, s', actions) == Reached(Alone(c, s', t, k - 1));
      var all := [Continue(t, false)] + actions;
      assert all[1..] == actions;
      assert Exec(c, s, all) == Reached(Alone(c, s, t, k));
    }
  }

  lemma {:induction false} Moves(c: Config, s: State, s1: State, t: nat, th: Thread, th': Thread, k: nat)
    requires t < |s.threads| && s1.threads == s.threads && !th.Idle? && k > 0
    requires Step(c, Go(s, t, th), Continue(t, false)) == Go(Go(s1, t, th), t, th')
    ensures Alone(c, Go(s, t, th), t, k) == Alone(c, Go(s1, t, th'), t, k - 1)
  {
    hide Step;
    assert s1.threads[t := th][t := th'] == s1.threads[t := th'];
  }

  lemma {:induction false} AloneDone(c: Config, s: State, t: nat, k: nat)
    requires t < |s.threads|
    ensures Alone(c, Go(s, t, Idle), t, k) == Go(s, t, Idle)
  {
  }

  /** An increase, alone: with enough permits and the listener running all are sent, otherwise all are kept. */
  lemma {:induction false} AddAlone(c: Config, s: State, t: nat, delta: nat, k: nat)
    requires t < |s.threads| && k >= 4
    ensures
      var total := s.available + delta;
      Alone(c, Go(s, t, FetchAdd(delta)), t, k)
        == Go(s.(available := if total >= c.threshold && s.running then 0 else total), t, Idle)
  {
    hide Alone;
    var total := s.available + delta;
    var s1, s2 := s.(available := total), s.(available := 0);
    Moves(c, s, s1, t, FetchAdd(delta), Test(total), k);
    if total >= c.threshold && s.running {
      Moves(c, s1, s1, t, Test(total), Cas(total), k - 1);
      Moves(c, s1, s2, t, Cas(total), SendFlow(total), k - 2);
      Moves(c, s2, s2, t, SendFlow(total), Idle, k - 3);
      AloneDone(c, s2, t, k - 4);
    } else {
      Moves(c, s1, s1, t, Test(total), Idle, k - 1);
      AloneDone(c, s1, t, k - 2);
    }
  }

  /** The calls, alone. A resume of a paused listener lets it run, and sends what has been kept. */
  lemma {:induction false} CallsAlone(c: Config, s: State, a: Action, k: nat)
    requires Enabled(s, a) && !a.Continue? && k >= 6
    ensures
      Alone(c, Step(c, s, a), a.t, k) ==
        match a {
          case StartIncrease(_, delta) =>
            var total := s.available + delta;
            s.(available := if total >= c.threshold && s.running then 0 else total)
          case StartPause(_) => s.(running := false)
          case StartResume(_) =>
            s.(running := true,
               available := if !s.running && s.available >= c.threshold then 0 else s.available)
          case Continue(_, _) => s
        }
  {
    hide Alone;
    var t := a.t;
    assert s.threads[t := Idle] == s.threads;
    match a
    case StartIncrease(_, delta) => AddAlone(c, s, t, delta, k);
    case StartPause(_) => AloneDone(c, s.(running := false), t, k);
    case StartResume(_) =>
      if s.running {
        Moves(c, s, s, t, ResumeLoad, Idle, k);
        AloneDone(c, s, t, k - 1);
      } else {
        Moves(c, s, s, t, ResumeLoad, ResumeStore, k);
        Moves(c, s, s.(running := true), t, ResumeStore, FetchAdd(0), k - 1);
        AddAlone(c, s.(running := true), t, 0, k - 2);
      }
  }
}
