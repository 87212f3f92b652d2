/** Mutual exclusion, told by the calls fibers make in a whole run. */
module FiberSections {
  import opened Common
  import opened FiberState
  import opened FiberInvariant
  import opened FiberTheorems
  import opened FiberPlaces

  /** Between lock and unlock: `f` has called lock on `m`, or trylock with success, and not unlock since. */
  ghost function AfterCall(s: State, a: Action, f: Fiber, m: MutexId, inside: bool): bool {
    if s.phase != Run(f) then inside
    else if a == Lock(m) then true
    else if a == TryLock(m) then inside || !TakenFrom(s, f, m)
    else if a == Unlock(m) then false
    else inside
  }

  ghost function Inside(s: State, acts: seq<Action>, s': State, f: Fiber, m: MutexId, inside: bool): bool
    requires Runs(s, acts, s')
    decreases |acts|
  {
    if acts == [] then inside
    else Inside(Step(s, acts[0]), acts[1..], s', f, m, AfterCall(s, acts[0], f, m, inside))
  }

  /** `f` owns `m`, or is still inside a call that returns with `m`. */
  ghost predicate Holds(s: State, f: Fiber, m: MutexId) {
    Owns(s, f, m) || InsideLock(s, f, m)
  }

  // ---- One step ----

  lemma RunningActive(s: State, m: MutexId)
    requires Inv(s) && s.phase.Run?
    ensures s.phase.f in s.home && s.phase.f in s.pc && s.pc[s.phase.f].Active? && !InsideLock(s, s.phase.f, m)
  {
    assert s.phase.f in s.home && s.home[s.phase.f] == OnCpu && PcFits(s, s.phase.f);
  }

  /** A call of the running fiber itself. */
  lemma OwnCall(s: State, a: Action, m: MutexId)
    requires Inv(s) && Enabled(s, a) && s.phase.Run?
    ensures var f := s.phase.f; Holds(Step(s, a), f, m) == AfterCall(s, a, f, m, Holds(s, f, m))
  {
    hide Inv, Step, NextOwner;
    var f := s.phase.f;
    RunningActive(s, m);
    OwnerStep(s, a, m);
    OwnPc(s, a, m);
    NextOwned(s, a, m);
  }

  /** Where the running fiber's stack stands after its call, as far as `m` is concerned. */
  lemma OwnPc(s: State, a: Action, m: MutexId)
    requires Inv(s) && Enabled(s, a) && s.phase.Run?
    ensures InsideLock(Step(s, a), s.phase.f, m) <==> (a == Lock(m) && TakenFrom(s, s.phase.f, m)) || (a.Wait? && a.m == m)
  {
    RunningActive(s, m);
    hide Inv, Step, TakenFrom, ParksIn, Enabled;
    if Parks(a) {
      ParkPc(s, a);
    } else if a.Wait? {
      WaitPc(s, a.c, a.m);
    } else if a.Lock? || a.TryLock? || a.Signal? {
      LockPc(s, a);
    } else {
      StillActive(s, a, m);
    }
  }

  lemma StillActive(s: State, a: Action, m: MutexId)
    requires Inv(s) && Enabled(s, a) && s.phase.Run? && (a.Unlock? || a.Broadcast? || a.Spawn? || a.Resume?)
    ensures !InsideLock(Step(s, a), s.phase.f, m)
  {
    RunningActive(s, m);
    hide Inv, Step;
    KeptPc(s, a);
  }

  lemma ParkPc(s: State, a: Action)
    requires s.phase.Run? && Parks(a)
    ensures Step(s, a).pc == s.pc[s.phase.f := ParksIn(a).1] && !ParksIn(a).1.Locking? && !ParksIn(a).1.Waiting?
  {
    hide Step, Q;
    ParkIs(s, a);
  }

  lemma WaitPc(s: State, c: CondId, m: MutexId)
    requires Enabled(s, Wait(c, m))
    ensures Step(s, Wait(c, m)).pc == s.pc[s.phase.f := Waiting(c, m)]
  {
    hide Release;
    ReleaseMoves(s, m);
  }

  lemma LockPc(s: State, a: Action)
    requires Enabled(s, a) && (a.Lock? || a.TryLock? || a.Signal?)
    ensures Step(s, a).pc == if a.Lock? && TakenFrom(s, s.phase.f, a.m) then s.pc[s.phase.f := Locking(a.m, None)] else s.pc
  {
    if a.Signal? && Q(s, CondQ(a.c)) != [] {
      WakeIs(s, a.c);
    }
  }

  lemma SpawnPc(s: State, a: Action)
    requires Enabled(s, a) && s.phase.Run? && (a.Spawn? || a.Resume?)
    ensures Step(s, a).pc == if a.Spawn? then s.pc[a.g := Fresh] else s.pc
  {
    if a.Resume? {
      MoveFields(s, RawList, a.g, Pending);
    }
  }

  lemma KeptPc(s: State, a: Action)
    requires Inv(s) && Enabled(s, a) && s.phase.Run? && (a.Unlock? || a.Broadcast? || a.Spawn? || a.Resume?)
    ensures s.phase.f in s.pc ==> s.phase.f in Step(s, a).pc && Step(s, a).pc[s.phase.f] == s.pc[s.phase.f]
  {
    if a.Unlock? {
      UnlockIs(s, a.m);
      ReleaseMoves(s, a.m);
    } else if a.Broadcast? {
      BroadcastIs(s, a.c);
      WakeAllKeeps(s, a.c);
    } else {
      SpawnPc(s, a);
      InvKeys(s);
    }
  }

  /** Whether the running fiber owns `m` after its call. */
  lemma NextOwned(s: State, a: Action, m: MutexId)
    requires Inv(s) && Enabled(s, a) && s.phase.Run?
    ensures NextOwner(s, a, m) == Some(s.phase.f) <==>
      !GivesUp(a, m) && (Owns(s, s.phase.f, m) || (m !in s.owner && (a == Lock(m) || a == TryLock(m))))
  {
    assert MutexOk(s, m);
  }

  /** An action that is not a call of `f`. */
  lemma OthersCall(s: State, a: Action, f: Fiber, m: MutexId)
    requires Inv(s) && Enabled(s, a) && s.phase != Run(f)
    ensures Holds(Step(s, a), f, m) == Holds(s, f, m)
  {
    hide Inv, Step, NextOwner;
    OwnerStep(s, a, m);
    NotMine(s, a, f, m);
    if a == Dispatch {
      InsideAfterDispatch(s, f, m);
    } else {
      InsideKept(s, a, f, m);
    }
  }

  /** Owners change hands only to a fiber inside lock or wait, as far as others' actions go. */
  lemma NotMine(s: State, a: Action, f: Fiber, m: MutexId)
    requires Inv(s) && Enabled(s, a) && s.phase != Run(f)
    ensures NextOwner(s, a, m) == Some(f) ==> Owns(s, f, m) || InsideLock(s, f, m)
    ensures Owns(s, f, m) ==> NextOwner(s, a, m) == Some(f)
    ensures NextOwner(s, a, m) == Some(f) && !Owns(s, f, m) ==> GivesUp(a, m) || a == Dispatch
  {
    if GivesUp(a, m) && Leads(s, MutexQ(m), f) {
      assert f in Q(s, MutexQ(m)) && PcFits(s, f);
    }
  }

  lemma InsideKept(s: State, a: Action, f: Fiber, m: MutexId)
    requires Inv(s) && Enabled(s, a) && s.phase != Run(f) && a != Dispatch
    ensures InsideLock(Step(s, a), f, m) <==> InsideLock(s, f, m)
  {
    OnlyTheRunningFiberMoves(s, a);
    InvKeys(s);
    hide Inv, Step;
    if f !in s.pc {
      NewFiber(s, a, f);
    }
  }

  lemma InvKeys(s: State)
    requires Inv(s)
    ensures s.home.Keys == s.pc.Keys
  {
  }

  /** A fiber that did not exist has at most been spawned. */
  lemma NewFiber(s: State, a: Action, f: Fiber)
    requires Inv(s) && Enabled(s, a) && s.phase != Run(f) && f !in s.pc && a != Dispatch
    ensures f in Step(s, a).pc ==> Step(s, a).pc[f] == Fresh
  {
    hide Inv, Step;
    if !s.phase.Run? {
      IdleKeeps(s, a);
    } else if a.Broadcast? {
      BroadcastIs(s, a.c);
      WakeAllKeeps(s, a.c);
    } else if Parks(a) {
      ParkPc(s, a);
    } else if a.Wait? {
      WaitPc(s, a.c, a.m);
    } else if a.Unlock? {
      UnlockIs(s, a.m);
      ReleaseMoves(s, a.m);
    } else if a.Lock? || a.TryLock? || a.Signal? {
      LockPc(s, a);
    } else {
      SpawnPc(s, a);
    }
  }

  lemma InsideAfterDispatch(s: State, f: Fiber, m: MutexId)
    requires Inv(s) && Enabled(s, Dispatch) && s.phase != Run(f)
    ensures InsideLock(Step(s, Dispatch), f, m) ==> InsideLock(s, f, m)
    ensures InsideLock(s, f, m) && !InsideLock(Step(s, Dispatch), f, m) ==> Owns(Step(s, Dispatch), f, m)
    ensures NextOwner(s, Dispatch, m) == Some(f) && !Owns(s, f, m) ==> InsideLock(s, f, m)
  {
    InvCore(s);
    hide Inv, Core, SwitchTo, LockStep;
    SwitchToCore(s);
    SwitchFields(s);
    var g := s.batch[0];
    if s.pc[g].Waiting? {
      RelockFields(SwitchTo(s), s.pc[g].m, s.pc[g].c);
    }
  }

  lemma SectionStep(s: State, a: Action, f: Fiber, m: MutexId)
    requires Inv(s) && Enabled(s, a)
    ensures Holds(Step(s, a), f, m) == AfterCall(s, a, f, m, Holds(s, f, m))
  {
    hide Inv, Step, Holds;
    if s.phase == Run(f) {
      OwnCall(s, a, m);
    } else {
      OthersCall(s, a, f, m);
    }
  }

  // ---- Whole runs ----

  /** Along any run, `f` is between lock and unlock of `m` exactly while it owns `m` or is inside a
      call that returns with it. */
  lemma {:induction false} RunsInside(s: State, acts: seq<Action>, s': State, f: Fiber, m: MutexId)
    requires Inv(s) && Runs(s, acts, s')
    ensures Inside(s, acts, s', f, m, Holds(s, f, m)) == Holds(s', f, m)
    decreases |acts|
  {
    hide Inv, Step, Holds, AfterCall;
    if acts != [] {
      StepInv(s, acts[0]);
      SectionStep(s, acts[0], f, m);
      RunsInside(Step(s, acts[0]), acts[1..], s', f, m);
    }
  }

  /** In every run from the start: a fiber in its own code owns exactly the mutexes it has locked and
      not unlocked since. */
  lemma OwnsWhatItLocked(mainFiber: Fiber, acts: seq<Action>, s: State, f: Fiber, m: MutexId)
    requires Runs(Init(mainFiber), acts, s)
    ensures Inside(Init(mainFiber), acts, s, f, m, false) <==> Owns(s, f, m) || InsideLock(s, f, m)
    ensures s.phase == Run(f) ==> (Owns(s, f, m) <==> Inside(Init(mainFiber), acts, s, f, m, false))
  {
    InitInv(mainFiber);
    assert !Holds(Init(mainFiber), f, m);
    RunsInside(Init(mainFiber), acts, s, f, m);
    RunsInv(Init(mainFiber), acts, s);
    hide Inv, Runs;
    if s.phase == Run(f) {
      RunningActive(s, m);
    }
  }

  /** Mutual exclusion: of the fibers between lock and unlock, at most one is not inside lock or wait. */
  lemma MutualExclusion(mainFiber: Fiber, acts: seq<Action>, s: State, f: Fiber, g: Fiber, m: MutexId)
    requires Runs(Init(mainFiber), acts, s)
    requires Inside(Init(mainFiber), acts, s, f, m, false) && !InsideLock(s, f, m)
    requires Inside(Init(mainFiber), acts, s, g, m, false) && !InsideLock(s, g, m)
    ensures f == g
  {
    OwnsWhatItLocked(mainFiber, acts, s, f, m);
    OwnsWhatItLocked(mainFiber, acts, s, g, m);
  }
}
