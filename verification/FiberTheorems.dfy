/** What the invariants say about every reachable state, every step and every run. */
module FiberTheorems {
  import opened Common
  import opened FiberState
  import opened FiberInvariant

  // ---- One place for every fiber ----

  /** A fiber that was ever spawned is running, or linked in one list at one position, or freed:
      exactly one of the three. */
  lemma ExactlyOnePlace(s: State, f: Fiber)
    requires Reachable(s) && f in s.home
    ensures s.phase == Run(f) || (exists q :: f in Q(s, q)) || f in s.hist.freed
    ensures s.phase == Run(f) ==> f !in s.hist.freed && forall q :: f !in Q(s, q)
    ensures forall q :: f in Q(s, q) ==> f !in s.hist.freed && NoDup(Q(s, q)) && forall r :: f in Q(s, r) ==> q == r
  {
    ReachableInv(s);
    if s.home[f].In? {
      assert f in Q(s, s.home[f].q);
    }
    assert s.home[f] == OnCpu <==> s.phase == Run(f);
  }

  /** Control never goes back to a freed fiber, and its hook is in no list any more. */
  lemma FreedForGood(s: State, a: Action, f: Fiber)
    requires Reachable(s) && Enabled(s, a) && f in s.hist.freed
    ensures var s' := Step(s, a); f in s'.hist.freed && s'.phase != Run(f) && forall q :: f !in Q(s', q)
  {
    ReachableInv(s);
    StepInv(s, a);
    StepLogs(s, a);
    var s' := Step(s, a);
    assert f in s'.home && s'.home[f] == Freed;
  }

  /** One turn of the scheduler frees each terminated fiber, in order, once. */
  lemma TerminatedFreedOnce(s: State)
    requires Reachable(s) && Enabled(s, Iterate)
    ensures var s' := Step(s, Iterate);
      s'.terminated == [] && s'.hist.freed == s.hist.freed + s.terminated && NoDup(s'.hist.freed)
  {
    hide Placed, Located, MutexesOk, Fifo, WokenInOrder, PhaseOk;
    ReachableInv(s);
    StepInv(s, Iterate);
    if s.terminated == [] {
      assert s.hist.freed + [] == s.hist.freed;
    }
    FreeAllCore(s);
  }

  // ---- Logs only grow ----

  ghost predicate LogsGrow(s: State, s': State) {
    s.hist.enqueued <= s'.hist.enqueued && s.hist.dispatched <= s'.hist.dispatched && s.hist.freed <= s'.hist.freed
  }

  lemma {:induction false} WakeAllLogs(s: State, c: CondId)
    ensures LogsGrow(s, WakeAll(s, c))
    decreases |Q(s, CondQ(c))|
  {
    if Q(s, CondQ(c)) != [] {
      WakeAllLogs(Wake(s, c), c);
    }
  }

  lemma {:induction false} ReadyScanLogs(s: State, todo: seq<Fiber>, ready: set<Fiber>)
    ensures LogsGrow(s, ReadyScan(s, todo, ready))
    decreases |todo|
  {
    if todo != [] {
      ReadyScanLogs(if todo[0] in ready then IoResume(s, todo[0]) else s, todo[1..], ready);
    }
  }

  lemma {:induction false} FreeAllLogs(s: State)
    ensures LogsGrow(s, FreeAll(s))
    decreases |s.terminated|
  {
    if s.terminated != [] {
      FreeAllLogs(FreeOne(s));
    }
  }

  lemma StepLogs(s: State, a: Action)
    requires Enabled(s, a)
    ensures LogsGrow(s, Step(s, a))
  {
    if s.phase.Run? {
      RunLogs(s, a);
    } else {
      IdleLogs(s, a);
    }
  }

  lemma IdleLogs(s: State, a: Action)
    requires Enabled(s, a) && !s.phase.Run?
    ensures LogsGrow(s, Step(s, a))
  {
    hide FreeAll, ReadyScan, Q;
    if a.Iterate? {
      FreeAllLogs(s);
    } else if a.Select? {
      ReadyScanLogs(s, s.fds, a.ready);
    }
  }

  lemma RunLogs(s: State, a: Action)
    requires Enabled(s, a) && s.phase.Run?
    ensures LogsGrow(s, Step(s, a))
  {
    hide MakePending, WakeAll;
    if Leaves(a) {
      LeaveLogs(s, a);
    } else if a.Wait? {
      WaitLogs(s, a.c, a.m);
    } else if a.Broadcast? {
      WakeAllLogs(s, a.c);
    } else if a.Signal? && Q(s, CondQ(a.c)) != [] {
      WakeIs(s, a.c);
    } else if a.Unlock? && Q(s, MutexQ(a.m)) != [] {
      ReleaseIs(s, a.m);
    }
  }

  lemma LeaveLogs(s: State, a: Action)
    requires Enabled(s, a) && s.phase.Run? && Leaves(a)
    ensures LogsGrow(s, Step(s, a))
  {
    if Parks(a) {
      hide Step;
      ParkIs(s, a);
    } else if a.Resume? {
      hide Move;
      MoveFields(s, RawList, a.g, Pending);
    }
  }

  lemma WaitLogs(s: State, c: CondId, m: MutexId)
    requires Enabled(s, Wait(c, m))
    ensures LogsGrow(s, Step(s, Wait(c, m)))
  {
  }

  lemma {:induction false} RunsLogs(s: State, acts: seq<Action>, s': State)
    requires Runs(s, acts, s')
    ensures LogsGrow(s, s')
    decreases |acts|
  {
    if acts != [] {
      StepLogs(s, acts[0]);
      RunsLogs(Step(s, acts[0]), acts[1..], s');
    }
  }

  // ---- Batch and pending together are one first-in first-out queue ----

  /** In any run, the fiber behind `k` others is dispatched after exactly those `k`. */
  lemma DispatchedInTurn(s: State, acts: seq<Action>, s': State, k: nat)
    requires Reachable(s) && Runs(s, acts, s') && k < |s.batch + s.pending|
    requires |s.hist.dispatched| + k < |s'.hist.dispatched|
    ensures s'.hist.dispatched[|s.hist.dispatched|..][..k + 1] == (s.batch + s.pending)[..k + 1]
  {
    ReachableInv(s);
    RunsInv(s, acts, s');
    RunsLogs(s, acts, s');
    hide Runs, Placed, Located, MutexesOk, FreedOnce, WokenInOrder, PhaseOk, Fifo;
    InTurn(s, s', k);
  }

  lemma InTurn(s: State, s': State, k: nat)
    requires Fifo(s) && Fifo(s') && LogsGrow(s, s')
    requires k < |s.batch + s.pending| && |s.hist.dispatched| + k < |s'.hist.dispatched|
    ensures s'.hist.dispatched[|s.hist.dispatched|..][..k + 1] == (s.batch + s.pending)[..k + 1]
  {
    assert s.hist.dispatched + (s.batch + s.pending) == s.hist.enqueued;
    assert s'.hist.dispatched + (s'.batch + s'.pending) == s'.hist.enqueued;
    Overlap(s.hist.dispatched, s.batch + s.pending, s'.hist.dispatched, s'.batch + s'.pending, k);
  }

  lemma Overlap(d: seq<Fiber>, x: seq<Fiber>, d': seq<Fiber>, x': seq<Fiber>, k: nat)
    requires d + x <= d' + x' && d <= d' && k < |x| && |d| + k < |d'|
    ensures d'[|d|..][..k + 1] == x[..k + 1]
  {
    forall i | 0 <= i <= k
      ensures d'[|d| + i] == x[i]
    {
      assert (d + x)[|d| + i] == x[i] && (d' + x')[|d| + i] == d'[|d| + i];
    }
  }

  // ---- Mutexes ----

  /** A wait queue that is not empty has an owner, who is not in it; everybody in it is blocked in
      dfk_mutex_lock on this mutex, once. */
  lemma MutexSafety(s: State, m: MutexId)
    requires Reachable(s)
    ensures Q(s, MutexQ(m)) != [] ==> m in s.owner
    ensures m in s.owner ==> s.owner[m] !in Q(s, MutexQ(m))
    ensures NoDup(Q(s, MutexQ(m)))
    ensures forall f | f in Q(s, MutexQ(m)) :: f in s.pc && s.pc[f].Locking? && s.pc[f].m == m
  {
    ReachableInv(s);
    assert MutexOk(s, m);
    forall f | f in Q(s, MutexQ(m))
      ensures f in s.pc && s.pc[f].Locking? && s.pc[f].m == m
    {
      assert PcFits(s, f);
    }
  }

  ghost predicate InsideLock(s: State, f: Fiber, m: MutexId) {
    f in s.pc && (s.pc[f].Locking? || s.pc[f].Waiting?) && s.pc[f].m == m
  }

  /** Whoever comes back to its own code out of dfk_mutex_lock or dfk_cond_wait owns the mutex. */
  lemma ReturnsOwning(s: State, a: Action, f: Fiber, m: MutexId)
    requires Reachable(s) && Enabled(s, a) && InsideLock(s, f, m) && !InsideLock(Step(s, a), f, m)
    ensures a == Dispatch && Step(s, a).phase == Run(f) && Owns(Step(s, a), f, m)
  {
    ReachableInv(s);
    hide Step, Placed, MutexesOk, Fifo, FreedOnce, WokenInOrder, PhaseOk;
    assert f in s.home && PcFits(s, f);
    if a == Dispatch {
      DispatchReturns(s, f, m);
    } else {
      OnlyTheRunningFiberMoves(s, a);
    }
  }

  lemma DispatchReturns(s: State, f: Fiber, m: MutexId)
    requires Core(s) && Enabled(s, Dispatch) && InsideLock(s, f, m) && !InsideLock(Step(s, Dispatch), f, m)
    ensures Step(s, Dispatch).phase == Run(f) && Owns(Step(s, Dispatch), f, m)
  {
    hide Core;
    SwitchToCore(s);
  }

  /** Code locations of all fibers but the running one, and of new ones, are as they were. */
  ghost predicate OthersStay(s: State, s': State) {
    forall f | f in s.pc && s.phase != Run(f) :: f in s'.pc && s'.pc[f] == s.pc[f]
  }

  /** Except by being dispatched, a fiber changes its code location only by its own action. */
  lemma OnlyTheRunningFiberMoves(s: State, a: Action)
    requires Inv(s) && Enabled(s, a) && a != Dispatch
    ensures OthersStay(s, Step(s, a))
  {
    hide Inv, Step;
    if !s.phase.Run? {
      IdleKeeps(s, a);
    } else if a.Broadcast? {
      WakeAllKeeps(s, a.c);
      BroadcastIs(s, a.c);
    } else if Leaves(a) {
      LeaveKeeps(s, a);
    } else if a.Wait? {
      WaitMoves(s, a.c, a.m);
    } else if a.Unlock? {
      ReleaseMoves(s, a.m);
      UnlockIs(s, a.m);
    } else {
      LockMoves(s, a);
    }
  }

  lemma BroadcastIs(s: State, c: CondId)
    requires s.phase.Run?
    ensures Step(s, Broadcast(c)) == WakeAll(s, c)
  {
  }

  lemma UnlockIs(s: State, m: MutexId)
    requires Enabled(s, Unlock(m))
    ensures Step(s, Unlock(m)) == Release(s, m)
  {
  }

  lemma WaitMoves(s: State, c: CondId, m: MutexId)
    requires Enabled(s, Wait(c, m))
    ensures OthersStay(s, Step(s, Wait(c, m)))
  {
    hide Release;
    ReleaseMoves(s, m);
  }

  lemma LockMoves(s: State, a: Action)
    requires Enabled(s, a) && (a.Lock? || a.TryLock? || a.Signal?)
    ensures OthersStay(s, Step(s, a))
  {
  }

  /** The scheduler and the event loop leave owners, wait queues and code locations alone. */
  lemma IdleKeeps(s: State, a: Action)
    requires Inv(s) && Enabled(s, a) && !s.phase.Run? && a != Dispatch
    ensures var s' := Step(s, a);
      s'.pc == s.pc && s'.owner == s.owner && s'.mutexq == s.mutexq && s'.condq == s.condq
      && s'.hist.woken == s.hist.woken
  {
    hide Core;
    if a.Iterate? {
      FreeAllCore(s);
    } else if a.Select? {
      ReadyScanKeeps(s, s.fds, a.ready);
    }
  }

  /** Actions that have nothing to do with mutexes and condition variables. */
  predicate Leaves(a: Action) {
    a.Spawn? || a.Resume? || Parks(a)
  }

  lemma ParkLeaves(s: State, a: Action)
    requires Enabled(s, a) && s.phase.Run? && Parks(a)
    ensures var s' := Step(s, a); s'.owner == s.owner && s'.mutexq == s.mutexq && s'.condq == s.condq
    ensures Step(s, a).hist.woken == s.hist.woken
    ensures OthersStay(s, Step(s, a))
  {
    hide Step;
    ParkIs(s, a);
  }

  lemma LeaveKeeps(s: State, a: Action)
    requires Inv(s) && Enabled(s, a) && s.phase.Run? && Leaves(a)
    ensures var s' := Step(s, a); s'.owner == s.owner && s'.mutexq == s.mutexq && s'.condq == s.condq
    ensures Step(s, a).hist.woken == s.hist.woken
    ensures OthersStay(s, Step(s, a))
  {
    if a.Spawn? {
      assert a.g !in s.home;
    } else if !a.Resume? {
      ParkLeaves(s, a);
    }
  }

  lemma {:induction false} WakeAllKeeps(s: State, c: CondId)
    ensures var s' := WakeAll(s, c); s'.pc == s.pc && s'.owner == s.owner && s'.mutexq == s.mutexq && s'.phase == s.phase
    ensures WakeAll(s, c).pending == s.pending + Q(s, CondQ(c)) && Q(WakeAll(s, c), CondQ(c)) == []
    ensures forall q | q != Pending && q != CondQ(c) :: Q(WakeAll(s, c), q) == Q(s, q)
    ensures Get(WakeAll(s, c).hist.woken, c) == Get(s.hist.woken, c) + Q(s, CondQ(c))
    ensures forall d | d != c :: Get(WakeAll(s, c).hist.woken, d) == Get(s.hist.woken, d)
    decreases |Q(s, CondQ(c))|
  {
    var x := Q(s, CondQ(c));
    if x == [] {
      assert s.pending + [] == s.pending && Get(s.hist.woken, c) + [] == Get(s.hist.woken, c);
    } else {
      var s1 := Wake(s, c);
      assert Q(s1, CondQ(c)) == x[1..];
      WakeAllKeeps(s1, c);
      Reassociates(s.pending, x);
      Reassociates(Get(s.hist.woken, c), x);
    }
  }

  lemma Reassociates(w: seq<Fiber>, x: seq<Fiber>)
    requires x != []
    ensures w + [x[0]] + x[1..] == w + x
  {
  }

  lemma {:induction false} ReadyScanKeeps(s: State, todo: seq<Fiber>, ready: set<Fiber>)
    ensures var s' := ReadyScan(s, todo, ready);
      s'.pc == s.pc && s'.owner == s.owner && s'.mutexq == s.mutexq && s'.condq == s.condq
      && s'.hist.woken == s.hist.woken
    decreases |todo|
  {
    if todo != [] {
      ReadyScanKeeps(if todo[0] in ready then IoResume(s, todo[0]) else s, todo[1..], ready);
    }
  }

  /** A fiber becomes the owner only of a mutex that is free and nobody waits for, or as the
      head of the wait queue when the owner gives it up: nobody is overtaken. */
  lemma NoOvertaking(s: State, a: Action, g: Fiber, m: MutexId)
    requires Reachable(s) && Enabled(s, a) && !Owns(s, g, m) && Owns(Step(s, a), g, m)
    ensures if Q(s, MutexQ(m)) == [] then m !in s.owner
      else g == Q(s, MutexQ(m))[0] && (a == Unlock(m) || (a.Wait? && a.m == m))
  {
    hide Step, Placed, Located, Fifo, FreedOnce, WokenInOrder, PhaseOk;
    ReachableInv(s);
    assert MutexOk(s, m);
    if a.Unlock? {
      UnlockIs(s, a.m);
      GivenUp(s, a.m, g, m);
    } else if a.Wait? {
      WaitPasses(s, a.c, a.m);
      GivenUp(s, a.m, g, m);
    } else {
      TakenOver(s, a, g, m);
    }
  }

  lemma WaitPasses(s: State, c: CondId, m: MutexId)
    requires Enabled(s, Wait(c, m))
    ensures Step(s, Wait(c, m)).owner == Release(s, m).owner
  {
  }

  lemma GivenUp(s: State, r: MutexId, g: Fiber, m: MutexId)
    requires Inv(s) && !Owns(s, g, m) && Owns(Release(s, r), g, m)
    ensures r == m && Q(s, MutexQ(m)) != [] && g == Q(s, MutexQ(m))[0]
  {
  }

  lemma TakenOver(s: State, a: Action, g: Fiber, m: MutexId)
    requires Inv(s) && Enabled(s, a) && !a.Unlock? && !a.Wait? && !Owns(s, g, m) && Owns(Step(s, a), g, m)
    ensures m !in s.owner
  {
    hide Core;
    if a == Dispatch {
      SwitchToCore(s);
    } else if !s.phase.Run? {
      IdleKeeps(s, a);
    } else if a.Broadcast? {
      WakeAllKeeps(s, a.c);
    } else if Leaves(a) {
      LeaveKeeps(s, a);
    }
  }

  // ---- Condition variables: no lost and no spurious wakeup ----

  /** What each action does to the queue of `c`: only a wait adds to it, at the tail; a signal
      resumes exactly the longest waiter; a broadcast exactly those in it, in order; nothing else
      touches it. */
  lemma CondQueueStep(s: State, c: CondId, a: Action)
    requires Reachable(s) && Enabled(s, a)
    ensures var (s', x) := (Step(s, a), Q(s, CondQ(c)));
      if a.Wait? && a.c == c then Q(s', CondQ(c)) == x + [s.phase.f]
      else if a == Signal(c) then
        if x == [] then s' == s else Q(s', CondQ(c)) == x[1..] && s'.pending == s.pending + [x[0]]
      else if a == Broadcast(c) then Q(s', CondQ(c)) == [] && s'.pending == s.pending + x
      else Q(s', CondQ(c)) == x
  {
    ReachableInv(s);
    if a.Wait? || a.Signal? || a.Broadcast? {
      CondActions(s, c, a);
    } else {
      CondUntouched(s, c, a);
    }
  }

  lemma CondActions(s: State, c: CondId, a: Action)
    requires Inv(s) && Enabled(s, a) && (a.Wait? || a.Signal? || a.Broadcast?)
    ensures var (s', x) := (Step(s, a), Q(s, CondQ(c)));
      if a.Wait? && a.c == c then Q(s', CondQ(c)) == x + [s.phase.f]
      else if a == Signal(c) then
        if x == [] then s' == s else Q(s', CondQ(c)) == x[1..] && s'.pending == s.pending + [x[0]]
      else if a == Broadcast(c) then Q(s', CondQ(c)) == [] && s'.pending == s.pending + x
      else Q(s', CondQ(c)) == x
  {
    hide Inv;
    if a.Wait? {
      WaitJoins(s, c, a.c, a.m);
    } else if a.Broadcast? {
      WakeAllKeeps(s, a.c);
    }
  }

  lemma WaitJoins(s: State, d: CondId, c: CondId, m: MutexId)
    requires Inv(s) && Enabled(s, Wait(c, m))
    ensures Q(Step(s, Wait(c, m)), CondQ(d)) == Q(s, CondQ(d)) + if c == d then [s.phase.f] else []
    ensures c != d ==> Q(Step(s, Wait(c, m)), CondQ(d)) == Q(s, CondQ(d))
  {
    hide Inv;
    ReleaseMoves(s, m);
  }

  lemma CondUntouched(s: State, c: CondId, a: Action)
    requires Inv(s) && Enabled(s, a) && !a.Wait? && !a.Signal? && !a.Broadcast?
    ensures Q(Step(s, a), CondQ(c)) == Q(s, CondQ(c))
  {
    InvCore(s);
    CorePlaced(s);
    hide Inv, Core, Placed, Step;
    if a == Dispatch {
      DispatchCond(s, c);
    } else if !s.phase.Run? {
      IdleKeeps(s, a);
    } else if Leaves(a) {
      LeaveKeeps(s, a);
    } else if a.Unlock? {
      ReleaseMoves(s, a.m);
      UnlockIs(s, a.m);
    } else {
      LockCond(s, c, a);
    }
  }

  lemma DispatchCond(s: State, c: CondId)
    requires Placed(s) && Enabled(s, Dispatch)
    ensures Q(Step(s, Dispatch), CondQ(c)) == Q(s, CondQ(c))
  {
    hide Placed;
    SwitchedPlaced(s);
  }

  lemma LockCond(s: State, c: CondId, a: Action)
    requires Enabled(s, a) && (a.Lock? || a.TryLock?)
    ensures Q(Step(s, a), CondQ(c)) == Q(s, CondQ(c))
  {
  }

  /** Giving up a mutex hands it to the longest waiter, or frees it. */
  lemma ReleaseMoves(s: State, m: MutexId)
    ensures var (s', x) := (Release(s, m), Q(s, MutexQ(m)));
      && s'.condq == s.condq && s'.phase == s.phase && s'.hist.woken == s.hist.woken && s'.pc == s.pc
      && if x == [] then s'.owner == s.owner - {m} && s'.pending == s.pending
         else s'.owner == s.owner[m := x[0]] && s'.pending == s.pending + [x[0]] && Q(s', MutexQ(m)) == x[1..]
  {
    hide Release;
    if Q(s, MutexQ(m)) == [] {
      ReleaseFrees(s, m);
    } else {
      ReleaseIs(s, m);
    }
  }

  /** Giving up the mutex and joining the queue is one step. */
  lemma WaitIsAtomic(s: State, c: CondId, m: MutexId)
    requires Reachable(s) && Enabled(s, Wait(c, m))
    ensures var (s', f) := (Step(s, Wait(c, m)), s.phase.f); !Owns(s', f, m) && f in Q(s', CondQ(c))
    ensures var (s', x) := (Step(s, Wait(c, m)), Q(s, MutexQ(m)));
      if x == [] then m !in s'.owner else Owns(s', x[0], m) && s'.pending == s.pending + [x[0]] && Q(s', MutexQ(m)) == x[1..]
  {
    hide Release, Placed, Located, Fifo, FreedOnce, WokenInOrder, PhaseOk;
    ReachableInv(s);
    assert MutexOk(s, m);
    ReleaseMoves(s, m);
  }

  // ---- Input and output ----

  ghost function IoWaiters(s: State): set<Fiber> {
    set f | f in s.home && s.home[f] == In(IoList)
  }

  /** The counter is the length of the descriptor list and the number of fibers suspended for
      input or output; the event loop has control only when there is a descriptor and nobody can run. */
  lemma IoAccounting(s: State)
    requires Reachable(s)
    ensures s.iowait == |s.fds| == |IoWaiters(s)|
    ensures s.phase == EventLoop ==> s.fds != [] && s.pending == [] && s.batch == []
  {
    ReachableInv(s);
    var io := IoWaiters(s);
    assert Q(s, IoList) == s.fds;
    forall f
      ensures f in s.fds <==> f in io
    {
      assert f in Q(s, IoList) <==> f in s.home && s.home[f] == In(IoList);
    }
    Cardinality(s.fds, io);
  }

  lemma {:induction false} Cardinality(x: seq<Fiber>, u: set<Fiber>)
    requires NoDup(x) && forall f :: f in x <==> f in u
    ensures |x| == |u|
  {
    if x == [] {
      assert u == {};
    } else {
      assert x == [x[0]] + x[1..] && x[0] in x;
      Cardinality(x[1..], u - {x[0]});
    }
  }

  /** The ready scan resumes exactly the ready fibers, in list order; the others stay in theirs. */
  lemma SelectResumesReady(s: State, ready: set<Fiber>)
    requires Reachable(s) && Enabled(s, Select(ready))
    ensures var s' := Step(s, Select(ready)); s'.fds == Kept(s.fds, ready) && s'.pending == Ready(s.fds, ready)
    ensures Step(s, Select(ready)).phase == if Ready(s.fds, ready) == [] then EventLoop else SchedulerTop
  {
    ReachableInv(s);
    assert [] + s.fds == s.fds;
    ReadyScanIs(s, [], s.fds, ready);
    var s1, s' := ReadyScan(s, s.fds, ready), Step(s, Select(ready));
    assert [] + Kept(s.fds, ready) == Kept(s.fds, ready) && [] + Ready(s.fds, ready) == Ready(s.fds, ready);
    assert s1.fds == Kept(s.fds, ready) && s1.pending == Ready(s.fds, ready);
    Partition(s.fds, ready);
    if Ready(s.fds, ready) == [] {
      NothingReady(s, s.fds, ready);
    }
  }

  lemma {:induction false} Partition(x: seq<Fiber>, ready: set<Fiber>)
    ensures |Kept(x, ready)| + |Ready(x, ready)| == |x|
    ensures forall f :: f in Ready(x, ready) <==> f in x && f in ready
    ensures forall f :: f in Kept(x, ready) <==> f in x && f !in ready
  {
    if x != [] {
      assert x == [x[0]] + x[1..];
      Partition(x[1..], ready);
    }
  }

  lemma {:induction false} NothingReady(s: State, todo: seq<Fiber>, ready: set<Fiber>)
    requires Ready(todo, ready) == []
    ensures ReadyScan(s, todo, ready) == s
    decreases |todo|
  {
    if todo != [] {
      NothingReady(s, todo[1..], ready);
    }
  }

  // ---- When the scheduler stops ----

  /** Nothing is lost: a fiber not freed is blocked on a mutex, on a condition variable, or
      suspended directly. */
  lemma StoppedFibers(s: State, f: Fiber)
    requires Reachable(s) && s.phase == Stopped && f in s.home && f !in s.hist.freed
    ensures s.home[f].In? && (s.home[f].q.MutexQ? || s.home[f].q.CondQ? || s.home[f].q.RawList?) && f in Q(s, s.home[f].q)
  {
    ReachableInv(s);
    assert f in Q(s, Pending) <==> f in s.home && s.home[f] == In(Pending);
    assert f in Q(s, Batch) <==> f in s.home && s.home[f] == In(Batch);
    assert f in Q(s, Terminated) <==> f in s.home && s.home[f] == In(Terminated);
    assert f in Q(s, IoList) <==> f in s.home && s.home[f] == In(IoList);
    assert s.home[f] == OnCpu <==> s.phase == Run(f);
  }

  /** `f` is queued on a mutex that `g` owns. */
  ghost predicate WaitsFor(s: State, f: Fiber, g: Fiber) {
    f in s.home && s.home[f].In? && s.home[f].q.MutexQ? && Owns(s, g, s.home[f].q.m)
  }

  /** Each fiber of `p` waits for the next one. */
  ghost predicate Chain(s: State, p: seq<Fiber>) {
    forall i | 0 <= i < |p| - 1 :: WaitsFor(s, p[i], p[i + 1])
  }

  ghost predicate Cycle(s: State, p: seq<Fiber>) {
    |p| >= 2 && NoDup(p) && Chain(s, p) && WaitsFor(s, p[|p| - 1], p[0])
  }

  /** Everybody left over is queued on a mutex, and every owner is left over too. */
  ghost predicate OnlyMutexes(s: State) {
    && (forall c :: Q(s, CondQ(c)) == []) && s.raw == []
    && forall m | m in s.owner :: s.owner[m] !in s.hist.freed
  }

  /** If the scheduler stops with fibers left over, none of them waiting on a condition variable or
      suspended directly, and nobody terminated owning a mutex, then some wait for each other in a circle. */
  lemma StoppedDeadlock(s: State, f: Fiber)
    requires Reachable(s) && s.phase == Stopped && OnlyMutexes(s) && f in s.home && f !in s.hist.freed
    ensures exists p :: Cycle(s, p)
  {
    ReachableInv(s);
    var left := set g | g in s.home && g !in s.hist.freed;
    forall g | g in left
      ensures BlockedIn(s, left, g)
    {
      Blocked(s, g);
    }
    FindCycle(s, left, [f]);
  }

  ghost predicate BlockedIn(s: State, left: set<Fiber>, g: Fiber) {
    exists h :: WaitsFor(s, g, h) && h in left && h != g
  }

  lemma Blocked(s: State, g: Fiber)
    requires Reachable(s) && s.phase == Stopped && OnlyMutexes(s) && g in s.home && g !in s.hist.freed
    ensures exists h :: WaitsFor(s, g, h) && h in s.home && h !in s.hist.freed && h != g
  {
    ReachableInv(s);
    StoppedFibers(s, g);
    assert s.raw == Q(s, RawList);
    assert !s.home[g].q.CondQ? && !s.home[g].q.RawList?;
    var m := s.home[g].q.m;
    assert MutexOk(s, m);
    assert WaitsFor(s, g, s.owner[m]);
  }

  /** Following the relation inside a finite set comes back to a fiber met before. */
  lemma {:induction false} FindCycle(s: State, left: set<Fiber>, p: seq<Fiber>)
    requires forall g | g in left :: BlockedIn(s, left, g)
    requires p != [] && NoDup(p) && Chain(s, p) && forall g | g in p :: g in left
    ensures exists c :: Cycle(s, c)
    decreases |left| - |p|
  {
    var last := p[|p| - 1];
    assert last in left && BlockedIn(s, left, last);
    var h :| WaitsFor(s, last, h) && h in left && h != last;
    if h in p {
      Closes(s, p, h);
    } else {
      Extends(s, p, h);
      Bounded(p + [h], left);
      FindCycle(s, left, p + [h]);
    }
  }

  lemma Extends(s: State, p: seq<Fiber>, h: Fiber)
    requires p != [] && NoDup(p) && Chain(s, p) && WaitsFor(s, p[|p| - 1], h) && h !in p
    ensures NoDup(p + [h]) && Chain(s, p + [h])
  {
  }

  lemma Closes(s: State, p: seq<Fiber>, h: Fiber)
    requires p != [] && NoDup(p) && Chain(s, p) && WaitsFor(s, p[|p| - 1], h) && h in p && h != p[|p| - 1]
    ensures exists c :: Cycle(s, c)
  {
    var j :| 0 <= j < |p| && p[j] == h;
    assert Cycle(s, p[j..]);
  }

  lemma Bounded(p: seq<Fiber>, left: set<Fiber>)
    requires NoDup(p) && forall g | g in p :: g in left
    ensures |p| <= |left|
  {
    var u := set g | g in p;
    Cardinality(p, u);
    Subset(u, left);
  }

  lemma {:induction false} Subset(u: set<Fiber>, left: set<Fiber>)
    requires u <= left
    ensures |u| <= |left|
  {
    if u != {} {
      var x :| x in u;
      Subset(u - {x}, left - {x});
    }
  }
}
