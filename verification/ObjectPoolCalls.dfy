/**
 What allocating, deallocating and the exit of a thread do when they run alone, told by the lists that the pointers
 stand for: which block is handed out, where a returned block goes, and which blocks are deleted.
 */
module ObjectPoolCalls {
  import opened ObjectPool

  /** Thread `t` runs alone until its call returns, or for `k` steps; operator new would return `block`. */
  ghost function Alone(maxSize: int, s: State, t: nat, block: Addr, garbage: Addr, k: nat): State
    decreases k
  {
    var a := Continue(t, block, garbage);
    if k == 0 || !Enabled(s, a) then s else Alone(maxSize, Step(maxSize, s, a), t, block, garbage, k - 1)
  }

  /** Running alone is a run. */
  lemma {:induction false} AloneIsARun(maxSize: int, s: State, t: nat, block: Addr, garbage: Addr, k: nat)
    ensures exists actions :: Exec(maxSize, s, actions) == Reached(Alone(maxSize, s, t, block, garbage, k))
    decreases k
  {
    hide Step, Enabled;
    var a := Continue(t, block, garbage);
    if k == 0 || !Enabled(s, a) {
      assert Exec(maxSize, s, []) == Reached(s);
    } else {
      var s' := Step(maxSize, s, a);
      AloneIsARun(maxSize, s', t, block, garbage, k - 1);
      var actions :| Exec(maxSize, s', actions) == Reached(Alone(maxSize, s', t, block, garbage, k - 1));
      var all := [a] + actions;
      assert all[1..] == actions;
      assert Exec(maxSize, s, all) == Reached(Alone(maxSize, s, t, block, garbage, k));
    }
  }

  lemma {:induction false} AloneDone(maxSize: int, s: State, t: nat, block: Addr, garbage: Addr, k: nat)
    requires t < |s.threads| && s.threads[t].pc.Idle?
    ensures Alone(maxSize, s, t, block, garbage, k) == s
  {
  }

  /** One step of a thread in the middle of a call; the lists follow it. */
  lemma {:induction false} AloneOnce(
    maxSize: int, s: State, ls: Lists, t: nat, block: Addr, garbage: Addr, k: nat)
    requires Inv(maxSize, s, ls) && Enabled(s, Continue(t, block, garbage)) && k > 0
    requires |ls.local| == |s.threads| && |ls.global| == |s.globalPool|
    ensures
      var a := Continue(t, block, garbage);
      var s' := Step(maxSize, s, a);
      && Alone(maxSize, s, t, block, garbage, k) == Alone(maxSize, s', t, block, garbage, k - 1)
      && Inv(maxSize, s', ListsAfter(maxSize, s, ls, a))
  {
    hide Step, Inv, ListsAfter;
    StepKeepsInv(maxSize, s, ls, Continue(t, block, garbage));
  }

  /** What the invariant says about one thread. */
  lemma {:induction false} OwnList(maxSize: int, s: State, ls: Lists, t: nat)
    requires Inv(maxSize, s, ls) && t < |s.threads|
    ensures |ls.local| == |s.threads| && |ls.global| == |s.globalPool|
    ensures LocalOk(s.next, s.threads[t], ls.local[t]) && s.globalNodeCount == TotalLength(ls.global)
    ensures ls.global != [] ==> GlobalOk(s.next, s.globalPool[0], ls.global[0])
  {
  }

  /** Taking the first block of a list that is not empty. */
  lemma {:induction false} TakeAlone(maxSize: int, s: State, ls: Lists, t: nat, block: Addr, garbage: Addr, k: nat)
    requires Inv(maxSize, s, ls) && Enabled(s, Continue(t, block, garbage)) && k >= 2
    requires |ls.local| == |s.threads| && s.threads[t].pc.PopTake?
    ensures
      var mine, end := ls.local[t], Alone(maxSize, s, t, block, garbage, k);
      && t < |end.threads| && end.threads[t].pc.Idle?
      && if mine != [] then
           && Inv(maxSize, end, ls.(local := ls.local[t := mine[1..]]))
           && end.live == s.live + {mine[0]} && end.next == s.next
         else Inv(maxSize, end, ls) && end.live == s.live + {block} && end.next == s.next[block := garbage]
  {
    hide Alone, Inv, TotalLength;
    OwnList(maxSize, s, ls, t);
    AloneOnce(maxSize, s, ls, t, block, garbage, k);
    var s1 := Step(maxSize, s, Continue(t, block, garbage));
    if ls.local[t] == [] {
      AloneOnce(maxSize, s1, ls, t, block, garbage, k - 1);
      AloneDone(maxSize, Step(maxSize, s1, Continue(t, block, garbage)), t, block, garbage, k - 2);
    } else {
      AloneDone(maxSize, s1, t, block, garbage, k - 1);
    }
  }

  /**
   allocate, alone: it hands out the first block of the thread's own list. If that is empty it takes over the newest
   list of the global pool, and only if that gives nothing either does it call operator new.
   */
  lemma {:induction false} AllocateAlone(
    maxSize: int, s: State, ls: Lists, t: nat, block: Addr, garbage: Addr, k: nat)
    requires Inv(maxSize, s, ls) && Enabled(s, StartAllocate(t)) && block != NULL && block !in s.next && k >= 3
    ensures |ls.local| == |s.threads|
    ensures
      var taken :=
        if ls.local[t] == [] && ls.global != [] then Lists(ls.local[t := ls.global[0]], ls.global[1..]) else ls;
      var mine, end := taken.local[t], Alone(maxSize, Step(maxSize, s, StartAllocate(t)), t, block, garbage, k);
      && t < |end.threads| && end.threads[t].pc.Idle?
      && if mine != [] then
           && Inv(maxSize, end, taken.(local := taken.local[t := mine[1..]]))
           && end.live == s.live + {mine[0]} && end.next == s.next
         else Inv(maxSize, end, taken) && end.live == s.live + {block} && end.next == s.next[block := garbage]
  {
    hide Alone, Inv, TotalLength, IsList;
    OwnList(maxSize, s, ls, t);
    EmptyList(s.next, s.threads[t].head, ls.local[t]);
    StepKeepsInv(maxSize, s, ls, StartAllocate(t));
    var s1 := Step(maxSize, s, StartAllocate(t));
    if ls.local[t] != [] {
      TakeAlone(maxSize, s1, ls, t, block, garbage, k);
    } else {
      AloneOnce(maxSize, s1, ls, t, block, garbage, k);
      var a := Continue(t, block, garbage);
      var s2 := Step(maxSize, s1, a);
      if ls.global == [] {
        AloneOnce(maxSize, s2, ls, t, block, garbage, k - 1);
        AloneDone(maxSize, Step(maxSize, s2, a), t, block, garbage, k - 2);
      } else {
        TakeAlone(maxSize, s2, ListsAfter(maxSize, s1, ls, a), t, block, garbage, k - 1);
      }
    }
  }

  lemma {:induction false} EmptyList(next: Heap, head: Addr, nodes: seq<Addr>)
    requires IsList(next, head, nodes)
    ensures head == NULL <==> nodes == []
    ensures nodes != [] ==> head == nodes[0] && head in next && IsList(next, next[head], nodes[1..])
  {
  }

  /** The blocks of a list. */
  function Blocks(nodes: seq<Addr>): set<Addr> {
    set x <- nodes
  }

  /** Deleting a list, alone, removes all its blocks and nothing else. */
  lemma {:induction false} DeleteAlone(
    maxSize: int, s: State, ls: Lists, t: nat, block: Addr, garbage: Addr, k: nat)
    requires Inv(maxSize, s, ls) && Enabled(s, Continue(t, block, garbage))
    requires |ls.local| == |s.threads| && (s.threads[t].pc.FreeList? || s.threads[t].pc.ExitFree?)
    requires k >= |ls.local[t]| + 2
    ensures
      var end := Alone(maxSize, s, t, block, garbage, k);
      && t < |end.threads| && end.threads[t].pc.Idle? && end.live == s.live
      && end.next.Keys == s.next.Keys - Blocks(ls.local[t])
      && Inv(maxSize, end,
             ls.(local := ls.local[t := if s.threads[t].pc.FreeList? then [s.threads[t].pc.p] else []]))
    decreases |ls.local[t]|
  {
    hide Alone, Inv, TotalLength, IsList;
    var a, mine := Continue(t, block, garbage), ls.local[t];
    OwnList(maxSize, s, ls, t);
    EmptyList(s.next, ListHead(s.threads[t]), mine);
    AloneOnce(maxSize, s, ls, t, block, garbage, k);
    var s1 := Step(maxSize, s, a);
    if mine == [] {
      if s.threads[t].pc.FreeList? {
        HandIsAllocated(maxSize, s1, ls, t);
        AloneOnce(maxSize, s1, ls, t, block, garbage, k - 1);
        AloneDone(maxSize, Step(maxSize, s1, a), t, block, garbage, k - 2);
      } else {
        AloneDone(maxSize, s1, t, block, garbage, k - 1);
        assert ls.local[t := []] == ls.local;
      }
    } else {
      var ls1 := ListsAfter(maxSize, s, ls, a);
      DeleteAlone(maxSize, s1, ls1, t, block, garbage, k - 1);
      assert mine == [mine[0]] + mine[1..];
      var left := if s.threads[t].pc.FreeList? then [s.threads[t].pc.p] else [];
      assert ls1.local[t := left] == ls.local[t := left];
    }
  }

  /** The block that a push has in its hands is allocated. */
  lemma {:induction false} HandIsAllocated(maxSize: int, s: State, ls: Lists, t: nat)
    requires Inv(maxSize, s, ls) && t < |s.threads| && s.threads[t].pc.PushReset?
    ensures s.threads[t].pc.p in s.next
  {
    var p := s.threads[t].pc.p;
    assert InOnePlace(s, ls, p);
    InHandBelowInHands(s.threads, t, p);
  }

  /** The exit of a thread, alone: its list is deleted. */
  lemma {:induction false} ExitAlone(maxSize: int, s: State, ls: Lists, t: nat, block: Addr, garbage: Addr, k: nat)
    requires Inv(maxSize, s, ls) && Enabled(s, StartExit(t)) && block != NULL && block !in s.next
    requires |ls.local| == |s.threads| && k >= |ls.local[t]| + 2
    ensures
      var end := Alone(maxSize, Step(maxSize, s, StartExit(t)), t, block, garbage, k);
      && t < |end.threads| && end.threads[t].pc.Idle? && end.live == s.live
      && end.next.Keys == s.next.Keys - Blocks(ls.local[t])
      && Inv(maxSize, end, ls.(local := ls.local[t := []]))
  {
    hide Alone, Inv;
    StepKeepsInv(maxSize, s, ls, StartExit(t));
    DeleteAlone(maxSize, Step(maxSize, s, StartExit(t)), ls, t, block, garbage, k);
  }

  /**
   deallocate, alone: the block becomes the first of the thread's own list. If that had reached a tenth of MaxSize, it
   first goes to the global pool when that has room for it, and is deleted when not.
   */
  lemma {:induction false} DeallocateAlone(
    maxSize: int, s: State, ls: Lists, t: nat, p: Addr, block: Addr, garbage: Addr, k: nat)
    requires Inv(maxSize, s, ls) && Enabled(s, StartDeallocate(t, p)) && block != NULL && block !in s.next
    requires |ls.local| == |s.threads| && k >= |ls.local[t]| + 3
    ensures
      var mine, end := ls.local[t], Alone(maxSize, Step(maxSize, s, StartDeallocate(t, p)), t, block, garbage, k);
      && t < |end.threads| && end.threads[t].pc.Idle? && end.live == s.live - {p}
      && if 10 * |mine| < maxSize then
           Inv(maxSize, end, ls.(local := ls.local[t := [p] + mine])) && end.next.Keys == s.next.Keys
         else if TotalLength(ls.global) + |mine| <= maxSize then
           Inv(maxSize, end, Lists(ls.local[t := [p]], [mine] + ls.global)) && end.next.Keys == s.next.Keys
         else
           Inv(maxSize, end, ls.(local := ls.local[t := [p]])) && end.next.Keys == s.next.Keys - Blocks(mine)
  {
    hide Alone, Inv, TotalLength, IsList, Blocks;
    var mine, a := ls.local[t], Continue(t, block, garbage);
    OwnList(maxSize, s, ls, t);
    LiveIsAllocated(maxSize, s, ls, p);
    StepKeepsInv(maxSize, s, ls, StartDeallocate(t, p));
    var s1 := Step(maxSize, s, StartDeallocate(t, p));
    if 10 * |mine| < maxSize {
      AloneDone(maxSize, s1, t, block, garbage, k);
    } else {
      AloneOnce(maxSize, s1, ls, t, block, garbage, k);
      var s2, ls2 := Step(maxSize, s1, a), ListsAfter(maxSize, s1, ls, a);
      if TotalLength(ls.global) + |mine| <= maxSize {
        AloneOnce(maxSize, s2, ls2, t, block, garbage, k - 1);
        AloneDone(maxSize, Step(maxSize, s2, a), t, block, garbage, k - 2);
        assert ls2.local[t := [p]] == ls.local[t := [p]];
      } else {
        DeleteAlone(maxSize, s2, ls2, t, block, garbage, k - 1);
      }
    }
  }

  lemma {:induction false} LiveIsAllocated(maxSize: int, s: State, ls: Lists, p: Addr)
    requires Inv(maxSize, s, ls) && p in s.live
    ensures p in s.next
  {
    assert InOnePlace(s, ls, p);
  }

  /** The owner of a block may leave anything in its link word, and disturbs no list. */
  lemma {:induction false} OwnersWriteFreely(maxSize: int, s: State, ls: Lists, t: nat, p: Addr, value: Addr)
    requires Inv(maxSize, s, ls) && Enabled(s, UserWrite(t, p, value))
    ensures
      var s' := Step(maxSize, s, UserWrite(t, p, value));
      Inv(maxSize, s', ls) && p in s'.next && s'.next[p] == value && s'.live == s.live
  {
    hide Inv;
    OwnList(maxSize, s, ls, t);
    StepKeepsInv(maxSize, s, ls, UserWrite(t, p, value));
  }
}
