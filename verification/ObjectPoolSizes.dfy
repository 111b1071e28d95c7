/** How long the free lists of the allocator can get. */
module ObjectPoolSizes {
  import opened ObjectPool

  /** At most one node more than the tenth of MaxSize that sends a list to the global pool. */
  predicate Short(maxSize: int, n: int) {
    n <= 1 || 10 * (n - 1) < maxSize
  }

  predicate ListsShort(maxSize: int, s: State) {
    && (forall t | 0 <= t < |s.threads| :: Short(maxSize, s.threads[t].pushSize))
    && (forall i | 0 <= i < |s.globalPool| :: Short(maxSize, s.globalPool[i].nodeCount))
  }

  lemma {:induction false} StepKeepsShort(maxSize: int, s: State, ls: Lists, a: Action)
    requires Inv(maxSize, s, ls) && ListsShort(maxSize, s) && Enabled(s, a)
    ensures ListsShort(maxSize, Step(maxSize, s, a))
  {
    hide InOnePlace, TotalLength, IsList;
    var th := s.threads[a.t];
    assert LocalOk(s.next, th, ls.local[a.t]) && Short(maxSize, th.pushSize);
  }

  lemma {:induction false} ExecKeepsShort(maxSize: int, s: State, ls: Lists, actions: seq<Action>)
    requires Inv(maxSize, s, ls) && ListsShort(maxSize, s) && Exec(maxSize, s, actions).Reached?
    ensures ListsShort(maxSize, Exec(maxSize, s, actions).state)
    decreases |actions|
  {
    hide Step, Enabled, ListsShort, InOnePlace, ListsAfter;
    if actions != [] {
      StepKeepsInv(maxSize, s, ls, actions[0]);
      StepKeepsShort(maxSize, s, ls, actions[0]);
      ExecKeepsShort(maxSize, Step(maxSize, s, actions[0]), ListsAfter(maxSize, s, ls, actions[0]), actions[1..]);
    }
  }

  /** No thread-local list, and none in the global pool, grows beyond a tenth of MaxSize and one node. */
  lemma {:induction false} ListsStayShort(maxSize: int, n: nat, actions: seq<Action>)
    requires Exec(maxSize, Init(n), actions).Reached?
    ensures ListsShort(maxSize, Exec(maxSize, Init(n), actions).state)
  {
    hide Step, Enabled, InOnePlace, Inv;
    InvAtStart(maxSize, n);
    ExecKeepsShort(maxSize, Init(n), Lists(EmptyLists(n), []), actions);
  }
}
