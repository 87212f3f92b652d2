/** Fibers that wait for each other in a circle do so for ever. */
module FiberDeadlock {
  import opened Common
  import opened FiberState
  import opened FiberInvariant
  import opened FiberTheorems

  /** `f` is queued on `m`, whose owner has not got control. */
  ghost predicate Stuck(s: State, f: Fiber, m: MutexId) {
    f in Q(s, MutexQ(m)) && m in s.owner && s.phase != Run(s.owner[m])
  }

  /** In `s'`, `f` is still queued on `m`, with the same owner. */
  ghost predicate Spared(s: State, s': State, f: Fiber, m: MutexId)
    requires m in s.owner
  {
    f in Q(s', MutexQ(m)) && Owns(s', s.owner[m], m)
  }

  /** It stays so: only the owner could give up `m`, and only as the running fiber. */
  lemma StaysStuck(s: State, a: Action, f: Fiber, m: MutexId)
    requires Inv(s) && Enabled(s, a) && Stuck(s, f, m)
    ensures Spared(s, Step(s, a), f, m)
  {
    InvCore(s);
    CorePlaced(s);
    hide Inv, Core, Placed, Step, Spared;
    if a == Dispatch {
      DispatchSpares(s, f, m);
    } else if a.Unlock? {
      ReleaseSpares(s, a.m, f, m);
      UnlockIs(s, a.m);
    } else if a.Wait? {
      WaitSpares(s, a.c, a.m, f, m);
    } else if a.Lock? || a.TryLock? || a.Signal? {
      LockSpares(s, a, f, m);
    } else {
      OthersSpare(s, a, f, m);
    }
  }

  /** Actions that touch neither owners nor the queues of mutexes. */
  lemma OthersSpare(s: State, a: Action, f: Fiber, m: MutexId)
    requires Inv(s) && Enabled(s, a) && Stuck(s, f, m) && (Leaves(a) || a.Broadcast? || (!s.phase.Run? && a != Dispatch))
    ensures Spared(s, Step(s, a), f, m)
  {
    hide Inv, Step;
    if !s.phase.Run? {
      IdleKeeps(s, a);
    } else if a.Broadcast? {
      WakeAllKeeps(s, a.c);
      BroadcastIs(s, a.c);
    } else {
      LeaveKeeps(s, a);
    }
  }

  lemma DispatchSpares(s: State, f: Fiber, m: MutexId)
    requires Placed(s) && Enabled(s, Dispatch) && Stuck(s, f, m)
    ensures Spared(s, Step(s, Dispatch), f, m)
  {
    hide Placed;
    SwitchedPlaced(s);
  }

  lemma ReleaseSpares(s: State, r: MutexId, f: Fiber, m: MutexId)
    requires Enabled(s, Unlock(r)) && Stuck(s, f, m)
    ensures Spared(s, Release(s, r), f, m)
  {
    assert r != m;
  }

  lemma WaitSpares(s: State, c: CondId, r: MutexId, f: Fiber, m: MutexId)
    requires Enabled(s, Wait(c, r)) && Stuck(s, f, m)
    ensures Spared(s, Step(s, Wait(c, r)), f, m)
  {
    hide Release;
    ReleaseSpares(s, r, f, m);
  }

  lemma LockSpares(s: State, a: Action, f: Fiber, m: MutexId)
    requires Enabled(s, a) && Stuck(s, f, m) && (a.Lock? || a.TryLock? || a.Signal?)
    ensures Spared(s, Step(s, a), f, m)
  {
  }

  /** In terms of homes: a fiber that waits for a blocked one goes on waiting for it. */
  lemma WaitsOn(s: State, a: Action, f: Fiber, g: Fiber)
    requires Inv(s) && Enabled(s, a) && Inv(Step(s, a)) && WaitsFor(s, f, g) && g in s.home && s.home[g].In?
    ensures WaitsFor(Step(s, a), f, g)
  {
    hide Step;
    var m := s.home[f].q.m;
    assert f in Q(s, MutexQ(m)) && !(s.home[g] == OnCpu);
    StaysStuck(s, a, f, m);
    assert f in Q(Step(s, a), MutexQ(m)) <==> f in Step(s, a).home && Step(s, a).home[f] == In(MutexQ(m));
  }

  lemma CycleStep(s: State, a: Action, p: seq<Fiber>)
    requires Inv(s) && Enabled(s, a) && Inv(Step(s, a)) && Cycle(s, p)
    ensures Cycle(Step(s, a), p)
  {
    hide Step, Inv;
    var last := p[|p| - 1];
    assert WaitsFor(s, last, p[0]) && WaitsFor(s, p[0], p[1]);
    WaitsOn(s, a, last, p[0]);
    forall i | 0 <= i < |p| - 1
      ensures WaitsFor(Step(s, a), p[i], p[i + 1])
    {
      assert WaitsFor(s, p[i], p[i + 1]);
      assert i + 1 < |p| - 1 ==> WaitsFor(s, p[i + 1], p[i + 2]);
      WaitsOn(s, a, p[i], p[i + 1]);
    }
  }

  lemma {:induction false} RunsCycle(s: State, acts: seq<Action>, s': State, p: seq<Fiber>)
    requires Inv(s) && Runs(s, acts, s') && Cycle(s, p)
    ensures Cycle(s', p)
    decreases |acts|
  {
    hide Step, Inv, Cycle;
    if acts != [] {
      StepInv(s, acts[0]);
      CycleStep(s, acts[0], p);
      RunsCycle(Step(s, acts[0]), acts[1..], s', p);
    }
  }

  /** Once fibers wait for each other in a circle, in whatever state and whatever comes, none of
      them ever runs again. */
  lemma DeadlockIsForever(s: State, acts: seq<Action>, s': State, p: seq<Fiber>)
    requires Reachable(s) && Runs(s, acts, s') && Cycle(s, p)
    ensures Cycle(s', p) && forall f | f in p :: s'.phase != Run(f)
  {
    ReachableInv(s);
    RunsInv(s, acts, s');
    RunsCycle(s, acts, s', p);
    forall f | f in p
      ensures s'.phase != Run(f)
    {
      var i :| 0 <= i < |p| && p[i] == f;
      assert i < |p| - 1 ==> WaitsFor(s', p[i], p[i + 1]);
    }
  }
}
