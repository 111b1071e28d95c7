/**
 Which outcome a pending request gets: that of the response, error or close which took it out of its map,
 unless its timer came first, and never one that nothing in the run asked for.
 */
module RequestOutcomes {
  import opened Options
  import opened PendingRequests

  // ----- A promise belongs to its slot -----

  /** The slots of the requests made in a run; the k-th request brings promise k. */
  function Slots(actions: seq<Action>): seq<Slot>
    decreases |actions|
  {
    if actions == [] then [] else SlotOf(actions[0]) + Slots(actions[1..])
  }

  function SlotOf(a: Action): seq<Slot> {
    if a.Register? then [a.slot] else []
  }

  /** `slots` are those of all promises made, and each map entry stands under its own. */
  ghost predicate InTheirSlots(s: State, slots: seq<Slot>) {
    && |slots| == |s.promises|
    && (forall p | 0 <= p < |slots| :: s.promises[p].kind == slots[p].kind)
    && (forall slot <- s.pending :: s.pending[slot] < |slots| && slots[s.pending[slot]] == slot)
  }

  lemma {:induction false} StepKeepsSlots(c: Config, s: State, slots: seq<Slot>, a: Action)
    requires InTheirSlots(s, slots) && Enabled(s, a)
    ensures InTheirSlots(Step(c, s, a), slots + SlotOf(a))
  {
    hide Lookups;
  }

  lemma {:induction false} ExecKeepsSlots(c: Config, s: State, slots: seq<Slot>, actions: seq<Action>)
    requires InTheirSlots(s, slots) && Exec(c, s, actions).Reached?
    ensures InTheirSlots(Exec(c, s, actions).state, slots + Slots(actions))
    decreases |actions|
  {
    hide Step, Enabled, InTheirSlots, SlotOf;
    if actions == [] {
      assert slots + [] == slots;
    } else {
      StepKeepsSlots(c, s, slots, actions[0]);
      ExecKeepsSlots(c, Step(c, s, actions[0]), slots + SlotOf(actions[0]), actions[1..]);
      assert slots + SlotOf(actions[0]) + Slots(actions[1..]) == slots + Slots(actions);
    }
  }

  /** In every run each request brings one promise, which is never pending anywhere but in its own slot. */
  lemma {:induction false} PromisesKeepTheirSlot(c: Config, n: nat, actions: seq<Action>)
    requires Reachable(c, n, actions)
    ensures
      var s := Exec(c, Init(n), actions).state;
      && |Slots(actions)| == |s.promises|
      && forall slot <- s.pending :: s.pending[slot] < |s.promises| && Slots(actions)[s.pending[slot]] == slot
  {
    hide Step, Enabled;
    ExecKeepsSlots(c, Init(n), [], actions);
    assert [] + Slots(actions) == Slots(actions);
  }

  // ----- Who can complete a pending promise -----

  /** Not completed, except perhaps by its own timer. */
  predicate Undecided(s: State, p: nat) {
    && p < |s.promises|
    && (s.promises[p].outcome == None || (s.promises[p].timer && s.promises[p].outcome == Some(TimedOut)))
  }

  /** Completed with `o`, or before that by its own timer. */
  predicate Settled(s: State, p: nat, o: Outcome) {
    && p < |s.promises|
    && (s.promises[p].outcome == Some(o) || (s.promises[p].timer && s.promises[p].outcome == Some(TimedOut)))
  }

  /** If this thread completes the promise, then because its timer ran out. */
  predicate OnlyByTimer(s: State, th: Thread, p: nat) {
    th.held.Some? && th.held.value.promise == p ==>
      p < |s.promises| && s.promises[p].timer && th.held.value.outcome == TimedOut
  }

  /** No thread but `t` completes the promise, other than by its timer. */
  predicate OthersKeepAway(s: State, p: nat, t: int) {
    forall u | 0 <= u < |s.threads| && u != t :: p !in s.threads[u].failing && OnlyByTimer(s, s.threads[u], p)
  }

  const NOBODY: int := -1

  /** The promise is pending nowhere else. */
  predicate Sole(s: State, slot: Slot)
    requires slot in s.pending
  {
    forall other <- s.pending :: s.pending[other] == s.pending[slot] ==> other == slot
  }

  /** A pending promise is in one map, and nobody completes it but its timer. */
  predicate Untouched(s: State, slot: Slot)
    requires slot in s.pending
  {
    Sole(s, slot) && Undecided(s, s.pending[slot]) && OthersKeepAway(s, s.pending[slot], NOBODY)
  }

  ghost predicate AllUntouched(s: State) {
    Named(s) && forall slot <- s.pending :: Untouched(s, slot)
  }

  lemma {:induction false} StillPending(c: Config, s: State, a: Action, slot: Slot)
    requires Named(s) && Enabled(s, a) && slot in s.pending && slot in Step(c, s, a).pending
    requires Sole(s, slot)
    ensures Step(c, s, a).pending[slot] == s.pending[slot] && Sole(Step(c, s, a), slot)
  {
    hide Lookups, Complete;
  }

  lemma {:induction false} StepKeepsUntouched(c: Config, s: State, a: Action, slot: Slot)
    requires Named(s) && Enabled(s, a) && slot in s.pending && Untouched(s, slot)
    requires slot in Step(c, s, a).pending
    ensures Step(c, s, a).pending[slot] == s.pending[slot] && Untouched(Step(c, s, a), slot)
  {
    hide Lookups, Sole, Named;
    StillPending(c, s, a, slot);
    if a.Remove? { OtherPromise(s, slot, Slot(Request, a.requestId)); }
    if a.Respond? { OtherPromise(s, slot, a.slot); }
    if a.Error? { OtherPromise(s, slot, ErrorSlot(s, a.requestId)); }
  }

  lemma {:induction false} OtherPromise(s: State, slot: Slot, other: Slot)
    requires slot in s.pending && Sole(s, slot)
    ensures other in s.pending && other != slot ==> s.pending[other] != s.pending[slot]
  {
  }

  lemma {:induction false} NewIsUntouched(c: Config, s: State, a: Action, slot: Slot)
    requires Named(s) && Enabled(s, a) && slot !in s.pending && slot in Step(c, s, a).pending
    ensures Untouched(Step(c, s, a), slot)
  {
    hide Lookups;
    assert a.Register?;
  }

  lemma {:induction false} ExecKeepsUntouched(c: Config, s: State, actions: seq<Action>)
    requires AllUntouched(s) && Exec(c, s, actions).Reached?
    ensures AllUntouched(Exec(c, s, actions).state)
    decreases |actions|
  {
    hide Step, Enabled, Named, Untouched;
    if actions != [] {
      var s' := Step(c, s, actions[0]);
      StepKeepsNamed(c, s, actions[0]);
      forall slot <- s'.pending ensures Untouched(s', slot) {
        if slot in s.pending { StepKeepsUntouched(c, s, actions[0], slot); }
        else { NewIsUntouched(c, s, actions[0], slot); }
      }
      ExecKeepsUntouched(c, s', actions[1..]);
    }
  }

  // ----- Responses and errors -----

  /** Thread `t` is to complete the promise with `o`, and nobody else will, other than its timer. */
  ghost predicate Claimed(s: State, p: nat, t: nat, o: Outcome) {
    && t < |s.threads| && s.threads[t].held == Some(Held(p, o)) && p !in s.threads[t].failing
    && Undecided(s, p) && OthersKeepAway(s, p, t)
    && forall slot <- s.pending :: s.pending[slot] != p
  }

  lemma {:induction false} StepKeepsClaim(c: Config, s: State, a: Action, p: nat, t: nat, o: Outcome)
    requires Claimed(s, p, t, o) && Enabled(s, a) && a != Settle(t)
    ensures Claimed(Step(c, s, a), p, t, o)
  {
    hide Lookups;
  }

  lemma {:induction false} ExecKeepsClaim(c: Config, s: State, more: seq<Action>, p: nat, t: nat, o: Outcome)
    requires Claimed(s, p, t, o) && Exec(c, s, more).Reached? && forall i | 0 <= i < |more| :: more[i] != Settle(t)
    ensures Claimed(Exec(c, s, more).state, p, t, o)
    decreases |more|
  {
    hide Step, Enabled, Claimed;
    if more != [] {
      StepKeepsClaim(c, s, more[0], p, t, o);
      ExecKeepsClaim(c, Step(c, s, more[0]), more[1..], p, t, o);
    }
  }

  /** The broker's answer to the request in this slot: a response, or an error that names no other request. */
  predicate Answers(s: State, a: Action, slot: Slot) {
    match a
    case Respond(_, answered, _) => answered == slot
    case Error(_, requestId, _) =>
      && slot.kind in {Request, LastMessageId, NamespaceTopics} && slot.requestId == requestId
      && forall other <- s.pending :: other.requestId == requestId ==> other == slot
    case _ => false
  }

  lemma {:induction false} AnswerClaims(c: Config, s: State, a: Action, slot: Slot)
    requires AllUntouched(s) && Enabled(s, a) && slot in s.pending && Answers(s, a, slot)
    ensures Claimed(Step(c, s, a), s.pending[slot], a.t, a.outcome) && slot !in Step(c, s, a).pending
  {
    hide Lookups;
    assert Untouched(s, slot);
    assert a.Error? ==> ErrorSlot(s, a.requestId) == slot;
  }

  /**
   In every run, a response or an error takes the request out of its map, and whatever happens next, the
   thread that handles it ends by completing the promise with just this outcome, unless its timer did before.
   */
  lemma {:induction false} AnswersReachTheirPromise(
    c: Config, n: nat, actions: seq<Action>, a: Action, slot: Slot, more: seq<Action>)
    requires Reachable(c, n, actions) && slot in Exec(c, Init(n), actions).state.pending
    requires var s := Exec(c, Init(n), actions).state; Enabled(s, a) && Answers(s, a, slot)
    requires Exec(c, Step(c, Exec(c, Init(n), actions).state, a), more).Reached?
    requires forall i | 0 <= i < |more| :: more[i] != Settle(a.t)
    ensures
      var s := Exec(c, Init(n), actions).state;
      var end := Exec(c, Step(c, s, a), more).state;
      && slot !in Step(c, s, a).pending && a.t < |end.threads|
      && (Enabled(end, Settle(a.t)) <==> end.threads[a.t].failing == [])
      && (Enabled(end, Settle(a.t)) ==> Settled(Step(c, end, Settle(a.t)), s.pending[slot], a.outcome))
  {
    hide Step, Enabled;
    ExecKeepsUntouched(c, Init(n), actions);
    var s := Exec(c, Init(n), actions).state;
    AnswerClaims(c, s, a, slot);
    ExecKeepsClaim(c, Step(c, s, a), more, s.pending[slot], a.t, a.outcome);
    ClaimIsHonoured(c, Exec(c, Step(c, s, a), more).state, s.pending[slot], a.t, a.outcome);
  }

  lemma {:induction false} ClaimIsHonoured(c: Config, s: State, p: nat, t: nat, o: Outcome)
    requires Claimed(s, p, t, o)
    ensures Enabled(s, Settle(t)) <==> s.threads[t].failing == []
    ensures Enabled(s, Settle(t)) ==> Settled(Step(c, s, Settle(t)), p, o)
  {
  }

  // ----- Close -----

  /** Thread `t` is in close with this promise and `o`, or has completed it. */
  ghost predicate Doomed(s: State, p: nat, t: nat, o: Outcome) {
    && s.closed && s.pending == map[] && t < |s.threads| && OthersKeepAway(s, p, t)
    && OnlyByTimer(s, s.threads[t], p)
    && (Settled(s, p, o) || (Undecided(s, p) && p in s.threads[t].failing))
    && (p in s.threads[t].failing ==> s.threads[t].result == o)
  }

  lemma {:induction false} StepKeepsDoomed(c: Config, s: State, a: Action, p: nat, t: nat, o: Outcome)
    requires Doomed(s, p, t, o) && Enabled(s, a)
    ensures Doomed(Step(c, s, a), p, t, o)
  {
    hide Lookups;
  }

  lemma {:induction false} ExecKeepsDoomed(c: Config, s: State, more: seq<Action>, p: nat, t: nat, o: Outcome)
    requires Doomed(s, p, t, o) && Exec(c, s, more).Reached?
    ensures Doomed(Exec(c, s, more).state, p, t, o)
    decreases |more|
  {
    hide Step, Enabled, Doomed;
    if more != [] {
      StepKeepsDoomed(c, s, more[0], p, t, o);
      ExecKeepsDoomed(c, Step(c, s, more[0]), more[1..], p, t, o);
    }
  }

  /**
   In every run, the close that finds the connection open fails each pending request with its own result,
   unless a timer did before: at any later time the promise is still in the hands of close, or settled so.
   */
  lemma {:induction false} CloseReachesEveryPromise(
    c: Config, n: nat, actions: seq<Action>, a: Action, slot: Slot, more: seq<Action>)
    requires Reachable(c, n, actions) && a.Close? && Enabled(Exec(c, Init(n), actions).state, a)
    requires var s := Exec(c, Init(n), actions).state; !s.closed && slot in s.pending
    requires Exec(c, Step(c, Exec(c, Init(n), actions).state, a), more).Reached?
    ensures
      var s := Exec(c, Init(n), actions).state;
      var p, end := s.pending[slot], Exec(c, Step(c, s, a), more).state;
      && a.t < |end.threads|
      && (p in end.threads[a.t].failing || Settled(end, p, a.result))
  {
    hide Step, Enabled, Doomed;
    ExecKeepsUntouched(c, Init(n), actions);
    var s := Exec(c, Init(n), actions).state;
    CloseDooms(c, s, a, slot);
    ExecKeepsDoomed(c, Step(c, s, a), more, s.pending[slot], a.t, a.result);
    WhatIsDoomed(Exec(c, Step(c, s, a), more).state, s.pending[slot], a.t, a.result);
  }

  lemma {:induction false} CloseDooms(c: Config, s: State, a: Action, slot: Slot)
    requires AllUntouched(s) && a.Close? && Enabled(s, a) && !s.closed && slot in s.pending
    ensures Doomed(Step(c, s, a), s.pending[slot], a.t, a.result)
  {
    hide Lookups;
    assert Untouched(s, slot);
  }

  lemma {:induction false} WhatIsDoomed(s: State, p: nat, t: nat, o: Outcome)
    requires Doomed(s, p, t, o)
    ensures t < |s.threads| && (p in s.threads[t].failing || Settled(s, p, o))
  {
  }

  /** The thread of close, run alone, fails all the promises it has left. */
  ghost function Failed(c: Config, s: State, t: nat, k: nat): State
    decreases k
  {
    if k == 0 || !Enabled(s, FailNext(t)) then s else Failed(c, Step(c, s, FailNext(t)), t, k - 1)
  }

  /** As many steps as it has promises take close to its end, with every one of them completed. */
  lemma {:induction false} CloseRunsToItsEnd(c: Config, s: State, t: nat, k: nat)
    requires t < |s.threads| && k >= |s.threads[t].failing|
    ensures
      var end := Failed(c, s, t, k);
      && |end.threads| == |s.threads| && end.threads[t] == s.threads[t].(failing := [])
      && |end.promises| == |s.promises|
      && (forall p | 0 <= p < |s.promises| ::
            end.promises[p].outcome ==
              if s.promises[p].outcome == None && p in s.threads[t].failing then Some(s.threads[t].result)
              else s.promises[p].outcome)
    decreases |s.threads[t].failing|
  {
    var th := s.threads[t];
    if th.failing == [] {
      assert th == th.(failing := []);
    } else {
      assert th.failing == [th.failing[0]] + th.failing[1..];
      CloseRunsToItsEnd(c, Step(c, s, FailNext(t)), t, k - 1);
    }
  }

  // ----- Every outcome has a cause -----

  /** Taking `a` in this state decides that promise `p` is to get outcome `o`. */
  ghost predicate Causes(c: Config, s: State, a: Action, p: nat, o: Outcome) {
    match a
    case Register(_, slot) =>
      && p == |s.promises|
      && (if s.closed then o == NotConnected
          else slot.kind.Lookup? && s.numLookups >= c.maxLookups && o == TooManyLookups)
    case Respond(_, slot, outcome) => At(s, p, InMap(slot)) && o == outcome
    case Error(_, requestId, outcome) =>
      o == outcome && exists kind | kind in {Request, LastMessageId, NamespaceTopics} ::
                        At(s, p, InMap(Slot(kind, requestId)))
    case Timeout(_, q) =>
      p == q < |s.promises| && !(s.promises[p].kind.Request? && s.promises[p].gotResponse) && o == TimedOut
    case Remove(_, requestId) => At(s, p, InMap(Slot(Request, requestId))) && o == Disconnected
    case Close(_, result, _) => !s.closed && p in s.pending.Values && o == result
    case _ => false
  }

  ghost predicate CausedAt(c: Config, n: nat, actions: seq<Action>, p: nat, o: Outcome, i: int) {
    && 0 <= i < |actions| && Exec(c, Init(n), actions[..i]).Reached?
    && Causes(c, Exec(c, Init(n), actions[..i]).state, actions[i], p, o)
  }

  ghost predicate Caused(c: Config, n: nat, actions: seq<Action>, p: nat, o: Outcome) {
    exists i :: CausedAt(c, n, actions, p, o, i)
  }

  /** Outcome `o` is set for the promise, or some thread is about to set it. */
  ghost predicate Destined(s: State, p: nat, o: Outcome) {
    || (p < |s.promises| && s.promises[p].outcome == Some(o))
    || (exists t | 0 <= t < |s.threads| :: Means(s.threads[t], p, o))
  }

  predicate Means(th: Thread, p: nat, o: Outcome) {
    th.held == Some(Held(p, o)) || (p in th.failing && th.result == o)
  }

  lemma {:induction false} NewIntent(c: Config, s: State, a: Action, t: nat, p: nat, o: Outcome)
    requires Enabled(s, a) && t < |s.threads|
    ensures |Step(c, s, a).threads| == |s.threads|
    ensures Means(Step(c, s, a).threads[t], p, o) ==> Means(s.threads[t], p, o) || Causes(c, s, a, p, o)
  {
    hide Lookups, Complete;
    var s' := Step(c, s, a);
    if Means(s'.threads[t], p, o) && !Means(s.threads[t], p, o) {
      assert t == a.t;
      if a.Error? {
        var slot := ErrorSlot(s, a.requestId);
        assert slot.kind in {Request, LastMessageId, NamespaceTopics} && At(s, p, InMap(slot));
      }
    }
  }

  lemma {:induction false} NewOutcome(c: Config, s: State, a: Action, p: nat, o: Outcome)
    requires Enabled(s, a) && p < |Step(c, s, a).promises| && Step(c, s, a).promises[p].outcome == Some(o)
    ensures Destined(s, p, o) || Causes(c, s, a, p, o)
  {
    hide Lookups;
    if a.FailNext? || a.Settle? {
      if p < |s.promises| && s.promises[p].outcome == None { assert Means(s.threads[a.t], p, o); }
    }
  }

  lemma {:induction false} StepIsTheCause(c: Config, s: State, a: Action, p: nat, o: Outcome)
    requires Enabled(s, a) && Destined(Step(c, s, a), p, o)
    ensures Destined(s, p, o) || Causes(c, s, a, p, o)
  {
    hide Step, Enabled, Causes, Means;
    var s' := Step(c, s, a);
    if p < |s'.promises| && s'.promises[p].outcome == Some(o) {
      NewOutcome(c, s, a, p, o);
    } else {
      var t :| 0 <= t < |s'.threads| && Means(s'.threads[t], p, o);
      SameThreads(c, s, a);
      NewIntent(c, s, a, t, p, o);
    }
  }

  lemma {:induction false} SameThreads(c: Config, s: State, a: Action)
    requires Enabled(s, a)
    ensures |Step(c, s, a).threads| == |s.threads|
  {
    hide Lookups, Complete;
  }

  lemma {:induction false} ExecLast(c: Config, s: State, actions: seq<Action>)
    requires actions != [] && Exec(c, s, actions).Reached?
    ensures
      var front, a := Exec(c, s, actions[..|actions| - 1]), actions[|actions| - 1];
      front.Reached? && Enabled(front.state, a) && Exec(c, s, actions).state == Step(c, front.state, a)
    decreases |actions|
  {
    hide Step, Enabled;
    if |actions| > 1 {
      ExecLast(c, Step(c, s, actions[0]), actions[1..]);
      assert actions[1..][..|actions| - 2] == actions[..|actions| - 1][1..];
    } else {
      assert actions[1..] == [];
    }
  }

  /**
   In every run, an outcome that a promise has, or that some thread is about to give it, comes from an
   earlier action: a response or error for its slot, its timer, the removal of its request, the result of the
   close that found it pending, or the refusal of the request itself.
   */
  lemma {:induction false} OutcomesHaveACause(c: Config, n: nat, actions: seq<Action>, p: nat, o: Outcome)
    requires Reachable(c, n, actions) && Destined(Exec(c, Init(n), actions).state, p, o)
    ensures Caused(c, n, actions, p, o)
    decreases |actions|
  {
    hide Step, Enabled, Causes, Destined;
    if actions == [] {
      NothingDestined(n, p, o);
      assert false;
    }
    var m := |actions| - 1;
    var front, a := actions[..m], actions[m];
    ExecLast(c, Init(n), actions);
    var s := Exec(c, Init(n), front).state;
    StepIsTheCause(c, s, a, p, o);
    if Destined(s, p, o) {
      OutcomesHaveACause(c, n, front, p, o);
      var i :| CausedAt(c, n, front, p, o, i);
      assert front[..i] == actions[..i];
      assert CausedAt(c, n, actions, p, o, i);
    } else {
      assert CausedAt(c, n, actions, p, o, m);
    }
  }

  lemma {:induction false} NothingDestined(n: nat, p: nat, o: Outcome)
    ensures !Destined(Init(n), p, o)
  {
  }
}
