/**
 The pooled allocator of lib/ObjectPool.h as a transition system over any number of threads and an
 explicit heap. Each block stores a `next` word that the free lists thread through; while a block
 is live its user may overwrite that word with anything. The critical sections on the static mutex
 are one step each; thread-local list operations, `operator new`, `operator delete` of each node
 and the final relinking of push are steps of their own, in every interleaving.
 */
module ObjectPool {

  /** Block addresses; 0 is the null pointer. */
  type Addr = nat

  /** The link word of every allocated block. */
  type Heap = map<Addr, Addr>
  const NULL: Addr := 0

  datatype Pc =
    | Idle
    | PopLock                          // head_ was null, about to take a list from the global pool
    | PopTake                          // about to take the first node of the local list
    | New                              // pop returned null, about to call operator new
    | PushLock(p: Addr)                // local list is long, about to hand it to the global pool
    | FreeList(p: Addr, n: Addr)       // global pool is full, about to delete node n of the old list
    | PushReset(p: Addr)               // about to start a new local list with p
    | ExitFree(n: Addr)                // thread exit, about to delete node n of the local list

  /** The thread-local Impl: head_ and pushSize_, and where the thread is. */
  datatype Thread = Thread(head: Addr, pushSize: int, pc: Pc)

  /** A GlobalPool node: a list of blocks and its length. */
  datatype Entry = Entry(node: Addr, nodeCount: int)

  /** `next` holds the first word of every allocated block, `live` the blocks that callers own. */
  datatype State = State(
    next: Heap, live: set<Addr>, globalPool: seq<Entry>, globalNodeCount: int, threads: seq<Thread>)

  function Init(n: nat): State {
    State(map[], {}, [], 0, seq(n, _ => Thread(NULL, 0, Idle)))
  }

  datatype Action =
    | StartAllocate(t: nat)
    | StartDeallocate(t: nat, p: Addr)
    | StartExit(t: nat)
    | Continue(t: nat, block: Addr, garbage: Addr)   // `block` is what operator new would return
    | UserWrite(t: nat, p: Addr, value: Addr)        // some caller writes into a block it owns

  predicate Enabled(s: State, a: Action) {
    && a.t < |s.threads|
    && match a {
         case StartAllocate(t) => s.threads[t].pc.Idle?
         case StartDeallocate(t, p) => s.threads[t].pc.Idle? && p in s.live
         case StartExit(t) => s.threads[t].pc.Idle?
         case Continue(t, block, _) => !s.threads[t].pc.Idle? && block != NULL && block !in s.next
         case UserWrite(_, p, _) => p in s.live
       }
  }

  /** A node read through a pointer; the invariant shows that it is only done on allocated blocks. */
  function NextOf(s: State, p: Addr): Addr {
    if p in s.next then s.next[p] else NULL
  }

  function Go(s: State, t: nat, th: Thread): State
    requires t < |s.threads|
  {
    s.(threads := s.threads[t := th])
  }

  function Step(maxSize: int, s: State, a: Action): State
    requires Enabled(s, a)
  {
    var th := s.threads[a.t];
    match a
    case StartAllocate(t) => Go(s, t, th.(pc := if th.head == NULL then PopLock else PopTake))
    case StartExit(t) => Go(s, t, th.(pc := ExitFree(th.head)))
    case StartDeallocate(t, p) =>
      if 10 * th.pushSize >= maxSize then Go(s.(live := s.live - {p}), t, th.(pc := PushLock(p)))
      else Go(s.(live := s.live - {p}, next := s.next[p := th.head]), t, Thread(p, th.pushSize + 1, Idle))
    case UserWrite(_, p, value) => s.(next := s.next[p := value])
    case Continue(t, block, garbage) =>
      match th.pc {
        case PopLock =>
          if s.globalPool == [] then Go(s, t, th.(pc := New))
          else
            var e := s.globalPool[0];
            Go(s.(globalPool := s.globalPool[1..], globalNodeCount := s.globalNodeCount - e.nodeCount), t,
               Thread(e.node, th.pushSize + e.nodeCount, PopTake))
        case PopTake =>
          if th.head == NULL then Go(s, t, th.(pc := New))
          else Go(s.(live := s.live + {th.head}), t, Thread(NextOf(s, th.head), th.pushSize - 1, Idle))
        case New => Go(s.(next := s.next[block := garbage], live := s.live + {block}), t, th.(pc := Idle))
        case PushLock(p) =>
          if s.globalNodeCount + th.pushSize <= maxSize then
            Go(s.(globalPool := [Entry(th.head, th.pushSize)] + s.globalPool,
                  globalNodeCount := s.globalNodeCount + th.pushSize), t, th.(pc := PushReset(p)))
          else Go(s, t, th.(pushSize := 0, pc := FreeList(p, th.head)))
        case FreeList(p, n) =>
          if n == NULL then Go(s, t, th.(pc := PushReset(p)))
          else Go(s.(next := s.next - {n}), t, th.(pc := FreeList(p, NextOf(s, n))))
        case PushReset(p) => Go(s.(next := s.next[p := NULL]), t, Thread(p, 1, Idle))
        case ExitFree(n) =>
          if n == NULL then Go(s, t, Thread(NULL, 0, Idle))
          else Go(s.(next := s.next - {n}), t, th.(pc := ExitFree(NextOf(s, n))))
        case Idle => s
      }
  }

  datatype Outcome = Stuck | Reached(state: State)

  ghost function Exec(maxSize: int, s: State, actions: seq<Action>): Outcome
    decreases |actions|
  {
    if actions == [] then Reached(s)
    else if Enabled(s, actions[0]) then Exec(maxSize, Step(maxSize, s, actions[0]), actions[1..])
    else Stuck
  }

  ghost predicate Reachable(maxSize: int, n: nat, s: State) {
    exists actions :: Exec(maxSize, Init(n), actions) == Reached(s)
  }

  // ----- The lists that the pointers stand for -----

  /** The nodes of each thread's list, and of each list in the global pool. */
  datatype Lists = Lists(local: seq<seq<Addr>>, global: seq<seq<Addr>>)

  /** Following `next` from `head` visits exactly `nodes`, all allocated, and ends in null. */
  ghost predicate IsList(next: Heap, head: Addr, nodes: seq<Addr>)
    decreases |nodes|
  {
    if nodes == [] then head == NULL
    else head == nodes[0] && head != NULL && head in next && IsList(next, next[head], nodes[1..])
  }

  /** The pointer at which a thread's list starts. */
  function ListHead(th: Thread): Addr {
    match th.pc
    case FreeList(_, n) => n
    case PushReset(_) => NULL
    case ExitFree(n) => n
    case _ => th.head
  }

  ghost predicate LocalOk(next: Heap, th: Thread, nodes: seq<Addr>) {
    && IsList(next, ListHead(th), nodes)
    && (th.pc.FreeList? || th.pc.PushReset? || th.pc.ExitFree? || th.pushSize == |nodes|)
    && (th.pc.PopLock? || th.pc.New? ==> nodes == [])
  }

  ghost predicate GlobalOk(next: Heap, e: Entry, nodes: seq<Addr>) {
    IsList(next, e.node, nodes) && e.nodeCount == |nodes|
  }

  function TotalLength(lists: seq<seq<Addr>>): nat {
    if lists == [] then 0 else |lists[0]| + TotalLength(lists[1..])
  }

  ghost predicate Shape(maxSize: int, s: State, ls: Lists) {
    && |ls.local| == |s.threads| && |ls.global| == |s.globalPool|
    && (forall t | 0 <= t < |s.threads| :: LocalOk(s.next, s.threads[t], ls.local[t]))
    && (forall i | 0 <= i < |s.globalPool| :: GlobalOk(s.next, s.globalPool[i], ls.global[i]))
    && s.globalNodeCount == TotalLength(ls.global)
    && (s.globalPool != [] ==> s.globalNodeCount <= maxSize)
  }

  // ----- Each block is in exactly one place -----

  function One(b: bool): nat { if b then 1 else 0 }

  function Count(nodes: seq<Addr>, x: Addr): nat {
    if nodes == [] then 0 else One(nodes[0] == x) + Count(nodes[1..], x)
  }

  function CountAll(lists: seq<seq<Addr>>, x: Addr): nat {
    if lists == [] then 0 else Count(lists[0], x) + CountAll(lists[1..], x)
  }

  /** The block that a thread inside push still has in its hands. */
  function InHand(th: Thread, x: Addr): nat {
    match th.pc
    case PushLock(p) => One(p == x)
    case FreeList(p, _) => One(p == x)
    case PushReset(p) => One(p == x)
    case _ => 0
  }

  function InHands(threads: seq<Thread>, x: Addr): nat {
    if threads == [] then 0 else InHand(threads[0], x) + InHands(threads[1..], x)
  }

  /** In how many places a block is: owned by callers, in pushes, in local and in global lists. */
  ghost function Places(s: State, ls: Lists, x: Addr): nat {
    One(x in s.live) + InHands(s.threads, x) + CountAll(ls.local, x) + CountAll(ls.global, x)
  }

  ghost predicate InOnePlace(s: State, ls: Lists, x: Addr) {
    Places(s, ls, x) == One(x in s.next && x != NULL) && (x == NULL ==> x !in s.next)
  }

  /** How the lists change in a step. */
  ghost function ListsAfter(maxSize: int, s: State, ls: Lists, a: Action): Lists
    requires Enabled(s, a) && |ls.local| == |s.threads| && |ls.global| == |s.globalPool|
  {
    var th, mine := s.threads[a.t], ls.local[a.t];
    match a
    case StartDeallocate(t, p) =>
      if 10 * th.pushSize >= maxSize then ls else ls.(local := ls.local[t := [p] + mine])
    case Continue(t, _, _) =>
      match th.pc {
        case PopLock =>
          if s.globalPool == [] then ls
          else Lists(ls.local[t := ls.global[0]], ls.global[1..])
        case PopTake => if mine == [] then ls else ls.(local := ls.local[t := mine[1..]])
        case PushLock(_) =>
          if s.globalNodeCount + th.pushSize <= maxSize then Lists(ls.local[t := []], [mine] + ls.global) else ls
        case FreeList(_, _) => if mine == [] then ls else ls.(local := ls.local[t := mine[1..]])
        case ExitFree(_) => if mine == [] then ls else ls.(local := ls.local[t := mine[1..]])
        case PushReset(p) => ls.(local := ls.local[t := [p]])
        case _ => ls
      }
    case _ => ls
  }

  ghost predicate Inv(maxSize: int, s: State, ls: Lists) {
    Shape(maxSize, s, ls) && forall x :: InOnePlace(s, ls, x)
  }

  // ----- Counting lemmas -----

  lemma {:induction false} CountAllUpdate(lists: seq<seq<Addr>>, t: nat, nodes: seq<Addr>, x: Addr)
    requires t < |lists|
    ensures CountAll(lists[t := nodes], x) + Count(lists[t], x) == CountAll(lists, x) + Count(nodes, x)
  {
    if t > 0 {
      assert lists[t := nodes][1..] == lists[1..][t - 1 := nodes];
      CountAllUpdate(lists[1..], t - 1, nodes, x);
    }
  }

  lemma {:induction false} InHandsUpdate(threads: seq<Thread>, t: nat, th: Thread, x: Addr)
    requires t < |threads|
    ensures InHands(threads[t := th], x) + InHand(threads[t], x) == InHands(threads, x) + InHand(th, x)
  {
    if t > 0 {
      assert threads[t := th][1..] == threads[1..][t - 1 := th];
      InHandsUpdate(threads[1..], t - 1, th, x);
    }
  }

  lemma {:induction false} CountBelowCountAll(lists: seq<seq<Addr>>, t: nat, x: Addr)
    requires t < |lists|
    ensures Count(lists[t], x) <= CountAll(lists, x)
  {
    if t > 0 { CountBelowCountAll(lists[1..], t - 1, x); }
  }

  lemma {:induction false} InHandBelowInHands(threads: seq<Thread>, t: nat, x: Addr)
    requires t < |threads|
    ensures InHand(threads[t], x) <= InHands(threads, x)
  {
    if t > 0 { InHandBelowInHands(threads[1..], t - 1, x); }
  }

  /** Writing or deleting a word outside a list leaves the list as it is. */
  lemma {:induction false} ListFrame(next: Heap, next': Heap, head: Addr, nodes: seq<Addr>, y: Addr)
    requires IsList(next, head, nodes) && Count(nodes, y) == 0
    requires forall x | x in next && x != y :: x in next' && next'[x] == next[x]
    ensures IsList(next', head, nodes)
    decreases |nodes|
  {
    if nodes != [] { ListFrame(next, next', next[head], nodes[1..], y); }
  }

  lemma {:induction false} LocalFrame(next: Heap, next': Heap, th: Thread, nodes: seq<Addr>, y: Addr)
    requires LocalOk(next, th, nodes) && Count(nodes, y) == 0
    requires forall x | x in next && x != y :: x in next' && next'[x] == next[x]
    ensures LocalOk(next', th, nodes)
  {
    ListFrame(next, next', ListHead(th), nodes, y);
  }

  /** A step changes the words of at most one block, which is in no list that the step keeps. */
  ghost function Touched(s: State, a: Action): Addr
    requires Enabled(s, a)
  {
    match a
    case StartDeallocate(_, p) => p
    case UserWrite(_, p, _) => p
    case Continue(t, block, _) =>
      (match s.threads[t].pc {
        case New => block
        case FreeList(_, n) => n
        case ExitFree(n) => n
        case PushReset(p) => p
        case _ => NULL
      })
    case _ => NULL
  }

  lemma {:induction false} OnlyTouchedChanges(maxSize: int, s: State, a: Action)
    requires Enabled(s, a)
    ensures
      var s' := Step(maxSize, s, a);
      forall x | x in s.next && x != Touched(s, a) :: x in s'.next && s'.next[x] == s.next[x]
  {}

  predicate Deleting(s: State, a: Action)
    requires Enabled(s, a)
  {
    a.Continue? && (s.threads[a.t].pc.FreeList? || s.threads[a.t].pc.ExitFree?)
  }

  /** The lists of other threads, and those of the global pool, do not contain the touched block. */
  lemma {:induction false} TouchedIsElsewhere(maxSize: int, s: State, ls: Lists, a: Action, u: nat)
    requires Inv(maxSize, s, ls) && Enabled(s, a)
    ensures CountAll(ls.global, Touched(s, a)) == 0
    ensures u < |ls.local| && u != a.t ==> Count(ls.local[u], Touched(s, a)) == 0
    ensures !Deleting(s, a) ==> Count(ls.local[a.t], Touched(s, a)) == 0
  {
    var y, t, th := Touched(s, a), a.t, s.threads[a.t];
    assert InOnePlace(s, ls, y);
    assert LocalOk(s.next, th, ls.local[t]);
    InHandBelowInHands(s.threads, t, y);
    CountAllUpdate(ls.local, t, [], y);
    if u < |ls.local| && u != t { CountBelowCountAll(ls.local[t := []], u, y); }
    CountBelowCountAll(ls.local, t, y);
  }

  /** What the acting thread sees of block `x`. */
  ghost function Visible(s: State, ls: Lists, t: nat, x: Addr): nat
    requires t < |s.threads| == |ls.local|
  {
    One(x in s.live) + InHand(s.threads[t], x) + Count(ls.local[t], x) + CountAll(ls.global, x)
  }

  /** A step moves a block from place to place; only new and delete change how many there are. */
  ghost predicate MovesBlock(maxSize: int, s: State, ls: Lists, a: Action, x: Addr)
    requires Enabled(s, a) && |ls.local| == |s.threads| && |ls.global| == |s.globalPool|
  {
    var s', ls' := Step(maxSize, s, a), ListsAfter(maxSize, s, ls, a);
    Visible(s', ls', a.t, x) + One(x in s.next) == Visible(s, ls, a.t, x) + One(x in s'.next)
  }

  lemma {:induction false} StartMovesBlock(maxSize: int, s: State, ls: Lists, a: Action, x: Addr)
    requires Inv(maxSize, s, ls) && Enabled(s, a) && !a.Continue?
    ensures MovesBlock(maxSize, s, ls, a, x)
  {
    if a.StartDeallocate? || a.UserWrite? { assert InOnePlace(s, ls, a.p); }
  }

  lemma {:induction false} TakeMovesBlock(maxSize: int, s: State, ls: Lists, a: Action, x: Addr)
    requires Inv(maxSize, s, ls) && Enabled(s, a) && a.Continue? && s.threads[a.t].pc.PopTake?
    ensures MovesBlock(maxSize, s, ls, a, x)
  {
    var th, mine := s.threads[a.t], ls.local[a.t];
    assert LocalOk(s.next, th, mine);
    if mine != [] {
      assert InOnePlace(s, ls, mine[0]);
      CountBelowCountAll(ls.local, a.t, mine[0]);
    }
  }

  lemma {:induction false} DeleteMovesBlock(maxSize: int, s: State, ls: Lists, a: Action, x: Addr)
    requires Inv(maxSize, s, ls) && Enabled(s, a) && Deleting(s, a)
    ensures MovesBlock(maxSize, s, ls, a, x)
  {
    assert LocalOk(s.next, s.threads[a.t], ls.local[a.t]);
  }

  lemma {:induction false} PushMovesBlock(maxSize: int, s: State, ls: Lists, a: Action, x: Addr)
    requires Inv(maxSize, s, ls) && Enabled(s, a) && a.Continue?
    requires s.threads[a.t].pc.PushLock? || s.threads[a.t].pc.PushReset?
    ensures MovesBlock(maxSize, s, ls, a, x)
  {
    var p := s.threads[a.t].pc.p;
    assert LocalOk(s.next, s.threads[a.t], ls.local[a.t]);
    assert InOnePlace(s, ls, p);
    InHandBelowInHands(s.threads, a.t, p);
    assert ([ls.local[a.t]] + ls.global)[1..] == ls.global;
    assert Count([p], x) == One(p == x) + Count([p][1..], x);
  }

  lemma {:induction false} RefillMovesBlock(maxSize: int, s: State, ls: Lists, a: Action, x: Addr)
    requires Inv(maxSize, s, ls) && Enabled(s, a) && a.Continue?
    requires s.threads[a.t].pc.PopLock? || s.threads[a.t].pc.New?
    ensures MovesBlock(maxSize, s, ls, a, x)
  {
    assert LocalOk(s.next, s.threads[a.t], ls.local[a.t]);
    assert InOnePlace(s, ls, a.block);
  }

  lemma {:induction false} StepMovesBlock(maxSize: int, s: State, ls: Lists, a: Action, x: Addr)
    requires Inv(maxSize, s, ls) && Enabled(s, a)
    ensures MovesBlock(maxSize, s, ls, a, x)
  {
    if a.Continue? {
      match s.threads[a.t].pc
      case PopTake => TakeMovesBlock(maxSize, s, ls, a, x);
      case PopLock => RefillMovesBlock(maxSize, s, ls, a, x);
      case New => RefillMovesBlock(maxSize, s, ls, a, x);
      case PushLock(_) => PushMovesBlock(maxSize, s, ls, a, x);
      case PushReset(_) => PushMovesBlock(maxSize, s, ls, a, x);
      case FreeList(_, _) => DeleteMovesBlock(maxSize, s, ls, a, x);
      case ExitFree(_) => DeleteMovesBlock(maxSize, s, ls, a, x);
    } else {
      StartMovesBlock(maxSize, s, ls, a, x);
    }
  }

  lemma {:induction false} OnlyActorMoves(maxSize: int, s: State, ls: Lists, a: Action)
    requires Enabled(s, a) && |ls.local| == |s.threads| && |ls.global| == |s.globalPool|
    ensures
      var s', ls', t := Step(maxSize, s, a), ListsAfter(maxSize, s, ls, a), a.t;
      s'.threads == s.threads[t := s'.threads[t]] && ls'.local == ls.local[t := ls'.local[t]]
  {}

  lemma {:induction false} StepKeepsOnePlace(maxSize: int, s: State, ls: Lists, a: Action, x: Addr)
    requires Inv(maxSize, s, ls) && Enabled(s, a)
    ensures InOnePlace(Step(maxSize, s, a), ListsAfter(maxSize, s, ls, a), x)
  {
    hide Step, ListsAfter, LocalOk, GlobalOk, TotalLength;
    var s', ls', t := Step(maxSize, s, a), ListsAfter(maxSize, s, ls, a), a.t;
    assert InOnePlace(s, ls, x);
    OnlyActorMoves(maxSize, s, ls, a);
    StepMovesBlock(maxSize, s, ls, a, x);
    InHandsUpdate(s.threads, t, s'.threads[t], x);
    CountAllUpdate(ls.local, t, ls'.local[t], x);
    NullIsNeverAllocated(maxSize, s, ls, a);
  }

  lemma {:induction false} NullIsNeverAllocated(maxSize: int, s: State, ls: Lists, a: Action)
    requires Inv(maxSize, s, ls) && Enabled(s, a)
    ensures NULL !in Step(maxSize, s, a).next
  {
    assert InOnePlace(s, ls, NULL);
    InHandBelowInHands(s.threads, a.t, NULL);
  }

  /** The list of the acting thread after its step. */
  lemma {:induction false} ActorList(maxSize: int, s: State, ls: Lists, a: Action)
    requires Inv(maxSize, s, ls) && Enabled(s, a)
    ensures
      var s', ls' := Step(maxSize, s, a), ListsAfter(maxSize, s, ls, a);
      LocalOk(s'.next, s'.threads[a.t], ls'.local[a.t])
  {
    hide InHands, CountAll, TotalLength;
    var s', ls' := Step(maxSize, s, a), ListsAfter(maxSize, s, ls, a);
    var th, mine, y := s.threads[a.t], ls.local[a.t], Touched(s, a);
    assert LocalOk(s.next, th, mine);
    TouchedIsElsewhere(maxSize, s, ls, a, a.t);
    OnlyTouchedChanges(maxSize, s, a);
    if Deleting(s, a) {
      if mine != [] {
        HeadOccursOnce(maxSize, s, ls, a.t);
        ListFrame(s.next, s'.next, s.next[mine[0]], mine[1..], y);
      }
    } else {
      ListFrame(s.next, s'.next, ListHead(th), mine, y);
      if a.Continue? && th.pc.PopLock? && s.globalPool != [] {
        assert GlobalOk(s.next, s.globalPool[0], ls.global[0]);
      }
      if a.StartDeallocate? {
        PushedIsNotNull(maxSize, s, ls, a);
        assert ([a.p] + mine)[1..] == mine;
      }
      if a.Continue? && th.pc.PushReset? {
        PushedIsNotNull(maxSize, s, ls, a);
        assert [th.pc.p][1..] == [] && IsList(s'.next, NULL, []);
      }
    }
  }

  lemma {:induction false} HeadOccursOnce(maxSize: int, s: State, ls: Lists, t: nat)
    requires Inv(maxSize, s, ls) && t < |ls.local| && ls.local[t] != []
    ensures Count(ls.local[t][1..], ls.local[t][0]) == 0
  {
    assert InOnePlace(s, ls, ls.local[t][0]);
    CountBelowCountAll(ls.local, t, ls.local[t][0]);
  }

  lemma {:induction false} PushedIsNotNull(maxSize: int, s: State, ls: Lists, a: Action)
    requires Inv(maxSize, s, ls) && Enabled(s, a)
    requires a.StartDeallocate? || (a.Continue? && s.threads[a.t].pc.PushReset?)
    ensures (if a.StartDeallocate? then a.p else s.threads[a.t].pc.p) != NULL
  {
    assert InOnePlace(s, ls, NULL);
    InHandBelowInHands(s.threads, a.t, NULL);
  }

  lemma {:induction false} OtherLists(maxSize: int, s: State, ls: Lists, a: Action, u: nat)
    requires Inv(maxSize, s, ls) && Enabled(s, a) && u < |s.threads| && u != a.t
    ensures
      var s', ls' := Step(maxSize, s, a), ListsAfter(maxSize, s, ls, a);
      LocalOk(s'.next, s'.threads[u], ls'.local[u])
  {
    TouchedIsElsewhere(maxSize, s, ls, a, u);
    OnlyTouchedChanges(maxSize, s, a);
    assert LocalOk(s.next, s.threads[u], ls.local[u]);
    LocalFrame(s.next, Step(maxSize, s, a).next, s.threads[u], ls.local[u], Touched(s, a));
  }

  lemma {:induction false} GlobalLists(maxSize: int, s: State, ls: Lists, a: Action)
    requires Inv(maxSize, s, ls) && Enabled(s, a)
    ensures
      var s', ls' := Step(maxSize, s, a), ListsAfter(maxSize, s, ls, a);
      && |ls'.global| == |s'.globalPool|
      && (forall i | 0 <= i < |s'.globalPool| :: GlobalOk(s'.next, s'.globalPool[i], ls'.global[i]))
      && s'.globalNodeCount == TotalLength(ls'.global)
      && (s'.globalPool != [] ==> s'.globalNodeCount <= maxSize)
  {
    hide InOnePlace, InHands;
    var s', ls', y := Step(maxSize, s, a), ListsAfter(maxSize, s, ls, a), Touched(s, a);
    TouchedIsElsewhere(maxSize, s, ls, a, a.t);
    OnlyTouchedChanges(maxSize, s, a);
    forall i | 0 <= i < |s.globalPool|
      ensures GlobalOk(s'.next, s.globalPool[i], ls.global[i])
    {
      CountBelowCountAll(ls.global, i, y);
      assert GlobalOk(s.next, s.globalPool[i], ls.global[i]);
      ListFrame(s.next, s'.next, s.globalPool[i].node, ls.global[i], y);
    }
    if a.Continue? && s.threads[a.t].pc.PushLock? {
      assert LocalOk(s.next, s.threads[a.t], ls.local[a.t]);
      assert ([ls.local[a.t]] + ls.global)[1..] == ls.global;
    }
  }

  lemma {:induction false} StepKeepsInv(maxSize: int, s: State, ls: Lists, a: Action)
    requires Inv(maxSize, s, ls) && Enabled(s, a)
    ensures Inv(maxSize, Step(maxSize, s, a), ListsAfter(maxSize, s, ls, a))
  {
    var s', ls' := Step(maxSize, s, a), ListsAfter(maxSize, s, ls, a);
    forall x ensures InOnePlace(s', ls', x) { StepKeepsOnePlace(maxSize, s, ls, a, x); }
    forall u | 0 <= u < |s.threads|
      ensures LocalOk(s'.next, s'.threads[u], ls'.local[u])
    {
      if u == a.t { ActorList(maxSize, s, ls, a); } else { OtherLists(maxSize, s, ls, a, u); }
    }
    GlobalLists(maxSize, s, ls, a);
  }

  lemma {:induction false} ExecKeepsInv(maxSize: int, s: State, ls: Lists, actions: seq<Action>) returns (ls': Lists)
    requires Inv(maxSize, s, ls) && Exec(maxSize, s, actions).Reached?
    ensures Inv(maxSize, Exec(maxSize, s, actions).state, ls')
    decreases |actions|
  {
    if actions == [] {
      ls' := ls;
    } else {
      StepKeepsInv(maxSize, s, ls, actions[0]);
      ls' := ExecKeepsInv(maxSize, Step(maxSize, s, actions[0]), ListsAfter(maxSize, s, ls, actions[0]), actions[1..]);
    }
  }

  function EmptyLists(n: nat): seq<seq<Addr>> {
    seq(n, _ => [])
  }

  lemma {:induction false} NothingAtStart(n: nat, x: Addr)
    ensures InHands(Init(n).threads, x) == 0 && CountAll(EmptyLists(n), x) == 0
  {
    if n > 0 {
      assert Init(n).threads[1..] == Init(n - 1).threads;
      assert EmptyLists(n)[1..] == EmptyLists(n - 1);
      NothingAtStart(n - 1, x);
    }
  }

  lemma {:induction false} InvAtStart(maxSize: int, n: nat)
    ensures Inv(maxSize, Init(n), Lists(EmptyLists(n), []))
  {
    var start := Lists(EmptyLists(n), []);
    forall x ensures InOnePlace(Init(n), start, x) { NothingAtStart(n, x); }
  }

  /** Every reachable state has lists that explain all its pointers and counters. */
  lemma {:induction false} ReachableInv(maxSize: int, n: nat, s: State) returns (ls: Lists)
    requires Reachable(maxSize, n, s)
    ensures Inv(maxSize, s, ls)
  {
    var actions :| Exec(maxSize, Init(n), actions) == Reached(s);
    InvAtStart(maxSize, n);
    ls := ExecKeepsInv(maxSize, Init(n), Lists(EmptyLists(n), []), actions);
  }

  // ----- Main results -----

  /**
   Every block obtained from operator new and not yet deleted is in exactly one place: owned by a
   caller, in the hands of one push, or once in one thread-local or global list. So the lists are
   disjoint and acyclic, and none contains a live block.
   */
  lemma {:induction false} EachBlockInOnePlace(maxSize: int, n: nat, s: State, x: Addr) returns (ls: Lists)
    requires Reachable(maxSize, n, s)
    ensures Shape(maxSize, s, ls)
    ensures Places(s, ls, x) == One(x in s.next)
  {
    ls := ReachableInv(maxSize, n, s);
    assert InOnePlace(s, ls, x);
  }

  /** The block that an allocation hands out: the local head, or what operator new returns. */
  function HandedOut(s: State, a: Action): Addr
    requires Enabled(s, a) && a.Continue?
  {
    if s.threads[a.t].pc.New? then a.block else s.threads[a.t].head
  }

  /** No block is handed out while it is live: an allocation adds a block that no caller owned. */
  lemma {:induction false} NeverHandedOutTwice(maxSize: int, n: nat, s: State, a: Action)
    requires Reachable(maxSize, n, s) && Enabled(s, a) && a.Continue?
    requires s.threads[a.t].pc.New? || (s.threads[a.t].pc.PopTake? && s.threads[a.t].head != NULL)
    ensures HandedOut(s, a) != NULL && HandedOut(s, a) !in s.live
    ensures Step(maxSize, s, a).live == s.live + {HandedOut(s, a)}
    ensures HandedOut(s, a) in Step(maxSize, s, a).next
  {
    var ls := ReachableInv(maxSize, n, s);
    var x := HandedOut(s, a);
    assert InOnePlace(s, ls, x);
    assert LocalOk(s.next, s.threads[a.t], ls.local[a.t]);
    CountBelowCountAll(ls.local, a.t, x);
  }

  /** The counters are the real list lengths, and the global pool never exceeds MaxSize nodes. */
  lemma {:induction false} CountersAreLengths(maxSize: int, n: nat, s: State) returns (ls: Lists)
    requires Reachable(maxSize, n, s)
    ensures |ls.local| == |s.threads| && |ls.global| == |s.globalPool|
    ensures forall t | 0 <= t < |s.threads| && s.threads[t].pc.Idle? ::
              IsList(s.next, s.threads[t].head, ls.local[t]) && s.threads[t].pushSize == |ls.local[t]|
    ensures forall i | 0 <= i < |s.globalPool| ::
              IsList(s.next, s.globalPool[i].node, ls.global[i]) && s.globalPool[i].nodeCount == |ls.global[i]|
    ensures s.globalNodeCount == TotalLength(ls.global)
    ensures maxSize >= 0 ==> s.globalNodeCount <= maxSize
  {
    ls := ReachableInv(maxSize, n, s);
    forall t | 0 <= t < |s.threads| && s.threads[t].pc.Idle?
      ensures IsList(s.next, s.threads[t].head, ls.local[t]) && s.threads[t].pushSize == |ls.local[t]|
    {
      assert LocalOk(s.next, s.threads[t], ls.local[t]);
    }
    forall i | 0 <= i < |s.globalPool|
      ensures IsList(s.next, s.globalPool[i].node, ls.global[i]) && s.globalPool[i].nodeCount == |ls.global[i]|
    {
      assert GlobalOk(s.next, s.globalPool[i], ls.global[i]);
    }
  }
}
