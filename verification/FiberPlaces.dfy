/** The life of a single fiber: where each action takes it, who owns a mutex then, and who has control. */
module FiberPlaces {
  import opened Common
  import opened FiberState
  import opened FiberInvariant
  import opened FiberTheorems

  ghost predicate Leads(s: State, q: Queue, f: Fiber) {
    Q(s, q) != [] && Q(s, q)[0] == f
  }

  /** Another fiber than `f` owns `m`. */
  ghost predicate TakenFrom(s: State, f: Fiber, m: MutexId) {
    m in s.owner && s.owner[m] != f
  }

  /** The action gives up `m`. */
  predicate GivesUp(a: Action, m: MutexId) {
    a == Unlock(m) || (a.Wait? && a.m == m)
  }

  /** Where `f` is after the action `a`. */
  ghost function NextPlace(s: State, a: Action, f: Fiber): Home
    requires f in s.home && f in s.pc
  {
    match s.home[f]
    case OnCpu => (
      match a
      case Lock(m) => if TakenFrom(s, f, m) then In(MutexQ(m)) else OnCpu
      case Wait(c, m) => In(CondQ(c))
      case Postpone => In(Pending)
      case Io => In(IoList)
      case Suspend => In(RawList)
      case Return => In(Terminated)
      case _ => OnCpu)
    case In(Pending) => if a == Iterate then In(Batch) else In(Pending)
    case In(Batch) =>
      if a == Dispatch && Leads(s, Batch, f) then
        if s.pc[f].Waiting? && TakenFrom(s, f, s.pc[f].m) then In(MutexQ(s.pc[f].m)) else OnCpu
      else In(Batch)
    case In(Terminated) => if a == Iterate then Freed else In(Terminated)
    case In(MutexQ(m)) => if GivesUp(a, m) && Leads(s, MutexQ(m), f) then In(Pending) else In(MutexQ(m))
    case In(CondQ(c)) =>
      if a == Broadcast(c) || (a == Signal(c) && Leads(s, CondQ(c), f)) then In(Pending) else In(CondQ(c))
    case In(IoList) => if a.Select? && f in a.ready then In(Pending) else In(IoList)
    case In(RawList) => if a == Resume(f) then In(Pending) else In(RawList)
    case Freed => Freed
  }

  /** Every action moves every fiber as its life goes, and only spawning makes a new one. */
  ghost predicate AllMoved(s: State, a: Action, s': State)
    requires s.home.Keys == s.pc.Keys
  {
    && (forall f | f in s.home :: f in s'.home && s'.home[f] == NextPlace(s, a, f))
    && (forall g | g in s'.home && g !in s.home :: a == Spawn(g) && s'.home[g] == In(Pending))
    && (a.Spawn? ==> a.g in s'.home)
  }

  // ---- Homes after the moves of several fibers ----

  lemma {:induction false} WakeAllHomes(s: State, c: CondId)
    ensures var (s', x) := (WakeAll(s, c), Q(s, CondQ(c)));
      && (forall f | f in s.home || f in x :: f in s'.home && s'.home[f] == if f in x then In(Pending) else s.home[f])
      && (forall f | f in s'.home :: f in s.home || f in x)
    decreases |Q(s, CondQ(c))|
  {
    var x := Q(s, CondQ(c));
    if x != [] {
      WakeIs(s, c);
      hide Wake;
      WakeAllHomes(Wake(s, c), c);
      assert x == [x[0]] + x[1..];
    }
  }

  lemma {:induction false} ReadyHomes(s: State, todo: seq<Fiber>, ready: set<Fiber>)
    requires forall f | f in todo :: f in s.home
    ensures var s' := ReadyScan(s, todo, ready);
      && s'.home.Keys == s.home.Keys
      && forall f | f in s.home :: s'.home[f] == if f in todo && f in ready then In(Pending) else s.home[f]
    decreases |todo|
  {
    hide Move;
    if todo != [] {
      MoveFields(s, IoList, todo[0], Pending);
      ReadyHomes(if todo[0] in ready then IoResume(s, todo[0]) else s, todo[1..], ready);
      assert todo == [todo[0]] + todo[1..];
    }
  }

  lemma {:induction false} FreeAllHomes(s: State)
    requires forall f | f in s.terminated :: f in s.home
    ensures var s' := FreeAll(s);
      && s'.home.Keys == s.home.Keys && s'.pending == s.pending && s'.iowait == s.iowait
      && forall f | f in s.home :: s'.home[f] == if f in s.terminated then Freed else s.home[f]
    decreases |s.terminated|
  {
    if s.terminated != [] {
      FreeAllHomes(FreeOne(s));
      assert s.terminated == [s.terminated[0]] + s.terminated[1..];
    }
  }

  // ---- Each action ----

  lemma InQueue(s: State, f: Fiber, q: Queue)
    requires Placed(s)
    ensures f in Q(s, q) <==> f in s.home && s.home[f] == In(q)
    ensures Leads(s, q, f) ==> f in Q(s, q)
  {
  }

  lemma OnlyRunning(s: State, f: Fiber)
    requires Placed(s) && f in s.home
    ensures s.home[f] == OnCpu <==> s.phase == Run(f)
    ensures f in s.pc && s.home.Keys == s.pc.Keys
  {
  }

  ghost predicate Moved(s: State, a: Action, s': State, f: Fiber)
    requires f in s.home && f in s.pc
  {
    f in s'.home && s'.home[f] == NextPlace(s, a, f)
  }

  lemma IterateMoves(s: State, f: Fiber)
    requires Placed(s) && s.phase == SchedulerTop && f in s.home
    ensures f in s.pc && Moved(s, Iterate, Step(s, Iterate), f) && Step(s, Iterate).home.Keys == s.home.Keys
  {
    hide Placed, FreeAll, Leads, TakenFrom;
    InQueue(s, f, Pending);
    InQueue(s, f, Terminated);
    OnlyRunning(s, f);
    TerminatedKnown(s);
    FreeAllHomes(s);
  }

  lemma TerminatedKnown(s: State)
    requires Placed(s)
    ensures forall g | g in s.terminated :: g in s.home
    ensures forall g | g in s.fds :: g in s.home
  {
    forall g
      ensures g in s.terminated ==> g in s.home
      ensures g in s.fds ==> g in s.home
    {
      InQueue(s, g, Terminated);
      InQueue(s, g, IoList);
    }
  }

  lemma SelectIs(s: State, ready: set<Fiber>)
    requires s.phase == EventLoop
    ensures var s1 := ReadyScan(s, s.fds, ready);
      Step(s, Select(ready)) == if s1.fds == s.fds then s else s1.(phase := SchedulerTop)
  {
    hide ReadyScan;
  }

  /** Whether or not the scan has resumed anybody. */
  lemma SelectHomes(s: State, ready: set<Fiber>)
    requires Core(s) && s.phase == EventLoop
    ensures Step(s, Select(ready)).home == ReadyScan(s, s.fds, ready).home
  {
    hide Core, Kept, Ready, ReadyScan, Step;
    assert [] + s.fds == s.fds && [] + Kept(s.fds, ready) == Kept(s.fds, ready);
    ReadyScanIs(s, [], s.fds, ready);
    Partition(s.fds, ready);
    SelectIs(s, ready);
    if Ready(s.fds, ready) == [] {
      NothingReady(s, s.fds, ready);
    }
  }

  lemma SelectMoves(s: State, ready: set<Fiber>, f: Fiber)
    requires Core(s) && s.phase == EventLoop && f in s.home
    ensures f in s.pc && Moved(s, Select(ready), Step(s, Select(ready)), f)
    ensures Step(s, Select(ready)).home.Keys == s.home.Keys
  {
    hide Core, Placed, ReadyScan, Leads, TakenFrom, Step;
    CorePlaced(s);
    InQueue(s, f, IoList);
    OnlyRunning(s, f);
    TerminatedKnown(s);
    ReadyHomes(s, s.fds, ready);
    SelectHomes(s, ready);
  }

  lemma SwitchFields(s: State)
    requires s.batch != []
    ensures var (s', f) := (SwitchTo(s), s.batch[0]);
      && s'.home == s.home[f := OnCpu] && s'.pc == s.pc[f := Active] && s'.phase == Run(f) && s'.owner == s.owner
      && s'.mutexq == s.mutexq
  {
  }

  lemma DispatchMoves(s: State, f: Fiber)
    requires Placed(s) && Enabled(s, Dispatch) && f in s.home
    ensures f in s.pc && Moved(s, Dispatch, Step(s, Dispatch), f)
    ensures Step(s, Dispatch).home.Keys == s.home.Keys
  {
    hide Placed, SwitchTo, LockStep;
    var g := s.batch[0];
    InQueue(s, f, Batch);
    InQueue(s, g, Batch);
    OnlyRunning(s, f);
    OnlyRunning(s, g);
    SwitchFields(s);
    LockHomes(SwitchTo(s), s.pc[g]);
  }

  /** The home of the fiber that has been given control, once it goes on. */
  lemma LockHomes(s: State, at: Pc)
    requires s.phase.Run?
    ensures at.Waiting? && TakenFrom(s, s.phase.f, at.m) ==>
      LockStep(s, at.m, Some(at.c)).home == s.home[s.phase.f := In(MutexQ(at.m))]
    ensures at.Waiting? && !TakenFrom(s, s.phase.f, at.m) ==> LockStep(s, at.m, Some(at.c)).home == s.home
  {
  }

  lemma ParkHomes(s: State, a: Action)
    requires s.phase.Run? && Parks(a)
    ensures Step(s, a).home == s.home[s.phase.f := In(ParksIn(a).0)]
  {
    hide Step, Q;
    ParkIs(s, a);
  }

  lemma ParkMoves(s: State, a: Action, f: Fiber)
    requires Placed(s) && s.phase.Run? && Parks(a) && f in s.home
    ensures f in s.pc && Moved(s, a, Step(s, a), f) && Step(s, a).home.Keys == s.home.Keys
  {
    hide Placed, Step, Leads, TakenFrom;
    OnlyRunning(s, f);
    RunningKnown(s);
    ParkHomes(s, a);
  }

  lemma RunningKnown(s: State)
    requires Placed(s) && s.phase.Run?
    ensures s.phase.f in s.home && s.phase.f in s.pc && s.home[s.phase.f] == OnCpu
  {
  }

  lemma LockMoves(s: State, a: Action, f: Fiber)
    requires Placed(s) && s.phase.Run? && (a.Lock? || a.TryLock?) && f in s.home
    ensures f in s.pc && Moved(s, a, Step(s, a), f) && Step(s, a).home.Keys == s.home.Keys
  {
    hide Placed, Leads, SetQ;
    OnlyRunning(s, f);
    RunningKnown(s);
  }

  /** Giving up a mutex moves the head of its queue. */
  lemma ReleaseHomes(s: State, m: MutexId, f: Fiber)
    requires Placed(s) && f in s.home
    ensures var s' := Release(s, m);
      s'.home.Keys == s.home.Keys && s'.home[f] == if Leads(s, MutexQ(m), f) then In(Pending) else s.home[f]
    ensures Leads(s, MutexQ(m), f) <==> s.home[f] == In(MutexQ(m)) && Leads(s, MutexQ(m), f)
  {
    hide Placed, Release;
    InQueue(s, f, MutexQ(m));
    var x := Q(s, MutexQ(m));
    if x == [] {
      ReleaseFrees(s, m);
    } else {
      InQueue(s, x[0], MutexQ(m));
      ReleaseIs(s, m);
    }
  }

  lemma UnlockMoves(s: State, m: MutexId, f: Fiber)
    requires Placed(s) && Enabled(s, Unlock(m)) && f in s.home
    ensures f in s.pc && Moved(s, Unlock(m), Step(s, Unlock(m)), f) && Step(s, Unlock(m)).home.Keys == s.home.Keys
  {
    hide Placed, Step, Release, Leads, TakenFrom;
    OnlyRunning(s, f);
    RunningKnown(s);
    ReleaseHomes(s, m, f);
    UnlockIs(s, m);
  }

  lemma WaitMovesAll(s: State, c: CondId, m: MutexId, f: Fiber)
    requires Placed(s) && Enabled(s, Wait(c, m)) && f in s.home
    ensures f in s.pc && Moved(s, Wait(c, m), Step(s, Wait(c, m)), f) && Step(s, Wait(c, m)).home.Keys == s.home.Keys
  {
    hide Placed, Release, Leads, TakenFrom;
    OnlyRunning(s, f);
    RunningKnown(s);
    ReleaseHomes(s, m, f);
    ReleaseMoves(s, m);
  }

  lemma SignalMoves(s: State, c: CondId, f: Fiber)
    requires Placed(s) && s.phase.Run? && f in s.home
    ensures f in s.pc && Moved(s, Signal(c), Step(s, Signal(c)), f) && Step(s, Signal(c)).home.Keys == s.home.Keys
  {
    hide Placed, Wake, TakenFrom;
    OnlyRunning(s, f);
    InQueue(s, f, CondQ(c));
    var x := Q(s, CondQ(c));
    if x != [] {
      InQueue(s, x[0], CondQ(c));
      WakeIs(s, c);
    }
  }

  lemma BroadcastMoves(s: State, c: CondId, f: Fiber)
    requires Placed(s) && s.phase.Run? && f in s.home
    ensures f in s.pc && Moved(s, Broadcast(c), Step(s, Broadcast(c)), f)
    ensures Step(s, Broadcast(c)).home.Keys == s.home.Keys
  {
    hide Placed, Step, WakeAll, Leads, TakenFrom;
    OnlyRunning(s, f);
    InQueue(s, f, CondQ(c));
    BroadcastIs(s, c);
    WakeAllHomes(s, c);
    forall g | g in Q(s, CondQ(c))
      ensures g in s.home
    {
      InQueue(s, g, CondQ(c));
    }
  }

  lemma SpawnMoves(s: State, g: Fiber, f: Fiber)
    requires Placed(s) && Enabled(s, Spawn(g)) && f in s.home
    ensures f in s.pc && Moved(s, Spawn(g), Step(s, Spawn(g)), f)
    ensures Step(s, Spawn(g)).home.Keys == s.home.Keys + {g} && Step(s, Spawn(g)).home[g] == In(Pending)
  {
    hide Placed, Leads, TakenFrom, Q;
    OnlyRunning(s, f);
  }

  lemma ResumeMoves(s: State, g: Fiber, f: Fiber)
    requires Placed(s) && Enabled(s, Resume(g)) && f in s.home
    ensures f in s.pc && Moved(s, Resume(g), Step(s, Resume(g)), f) && Step(s, Resume(g)).home.Keys == s.home.Keys
  {
    hide Placed, Move, Leads, TakenFrom;
    OnlyRunning(s, f);
    InQueue(s, g, RawList);
    MoveFields(s, RawList, g, Pending);
  }

  /** The life of every fiber, in every step. */
  lemma PlaceAfter(s: State, a: Action)
    requires Reachable(s) && Enabled(s, a)
    ensures s.home.Keys == s.pc.Keys && AllMoved(s, a, Step(s, a))
  {
    hide Inv, Core, Placed, Step, NextPlace;
    ReachableInv(s);
    InvCore(s);
    CorePlaced(s);
    forall f | f in s.home
      ensures f in s.pc && Moved(s, a, Step(s, a), f)
    {
      FiberMoves(s, a, f);
    }
    var mainFiber, acts :| Runs(Init(mainFiber), acts, s);
    InitInv(mainFiber);
    StillKnown(Init(mainFiber), acts, s, mainFiber);
    OnlyRunning(s, mainFiber);
    FiberMoves(s, a, mainFiber);
  }

  /** A fiber that was ever spawned stays known. */
  lemma {:induction false} StillKnown(s: State, acts: seq<Action>, s': State, f: Fiber)
    requires Inv(s) && Runs(s, acts, s') && f in s.home
    ensures f in s'.home
    decreases |acts|
  {
    hide Inv, Step;
    if acts != [] {
      StepInv(s, acts[0]);
      FiberMoves(s, acts[0], f);
      StillKnown(Step(s, acts[0]), acts[1..], s', f);
    }
  }

  lemma FiberMoves(s: State, a: Action, f: Fiber)
    requires Inv(s) && Enabled(s, a) && f in s.home
    ensures f in s.pc && Moved(s, a, Step(s, a), f)
    ensures Step(s, a).home.Keys == s.home.Keys + if a.Spawn? then {a.g} else {}
    ensures a.Spawn? ==> Step(s, a).home[a.g] == In(Pending)
  {
    hide Inv, Core, Placed, Step, Moved;
    InvCore(s);
    CorePlaced(s);
    match a
    case Iterate => IterateMoves(s, f);
    case Dispatch => DispatchMoves(s, f);
    case EndBatch => IdleMoves(s, a, f);
    case Select(ready) => SelectMoves(s, ready, f);
    case SelectNone => IdleMoves(s, a, f);
    case Lock(m) => LockMoves(s, a, f);
    case TryLock(m) => LockMoves(s, a, f);
    case Unlock(m) => UnlockMoves(s, m, f);
    case Wait(c, m) => WaitMovesAll(s, c, m, f);
    case Signal(c) => SignalMoves(s, c, f);
    case Broadcast(c) => BroadcastMoves(s, c, f);
    case Spawn(g) => SpawnMoves(s, g, f);
    case Resume(g) => ResumeMoves(s, g, f);
    case _ => ParkMoves(s, a, f);
  }

  lemma IdleMoves(s: State, a: Action, f: Fiber)
    requires Placed(s) && Enabled(s, a) && (a.EndBatch? || a.SelectNone?) && f in s.home
    ensures f in s.pc && Moved(s, a, Step(s, a), f) && Step(s, a).home.Keys == s.home.Keys
  {
    OnlyRunning(s, f);
    hide Placed;
  }

  // ---- Owners ----

  ghost function Owner(s: State, m: MutexId): Option<Fiber> {
    if m in s.owner then Some(s.owner[m]) else None
  }

  /** Who owns `m` after the action `a`. */
  ghost function NextOwner(s: State, a: Action, m: MutexId): Option<Fiber>
    requires Enabled(s, a)
  {
    if GivesUp(a, m) then if Q(s, MutexQ(m)) == [] then None else Some(Q(s, MutexQ(m))[0])
    else if Owner(s, m) != None then Owner(s, m)
    else if a == Lock(m) || a == TryLock(m) then Some(s.phase.f)
    else if a == Dispatch && s.batch[0] in s.pc && s.pc[s.batch[0]].Waiting? && s.pc[s.batch[0]].m == m then Some(s.batch[0])
    else None
  }

  lemma OwnerAfter(s: State, a: Action, m: MutexId)
    requires Reachable(s) && Enabled(s, a)
    ensures Owner(Step(s, a), m) == NextOwner(s, a, m)
  {
    ReachableInv(s);
    OwnerStep(s, a, m);
  }

  lemma OwnerStep(s: State, a: Action, m: MutexId)
    requires Inv(s) && Enabled(s, a)
    ensures Owner(Step(s, a), m) == NextOwner(s, a, m)
  {
    InvCore(s);
    hide Inv, Core, Step, NextOwner, Owner, GivesUp;
    if a == Dispatch {
      DispatchOwners(s, m);
    } else if a.Unlock? || a.Wait? {
      ReleaseOwners(s, a, m);
    } else if a.Lock? || a.TryLock? || a.Signal? {
      LockOwners(s, a, m);
    } else {
      if !s.phase.Run? {
        IdleKeeps(s, a);
      } else if a.Broadcast? {
        BroadcastIs(s, a.c);
        WakeAllKeeps(s, a.c);
      } else {
        LeaveKeeps(s, a);
      }
      SameOwners(s, a, m);
    }
  }

  lemma SameOwners(s: State, a: Action, m: MutexId)
    requires Enabled(s, a) && Step(s, a).owner == s.owner
    requires a != Dispatch && !a.Unlock? && !a.Wait? && !a.Lock? && !a.TryLock?
    ensures Owner(Step(s, a), m) == NextOwner(s, a, m)
  {
    hide Step;
  }

  lemma ReleaseOwners(s: State, a: Action, m: MutexId)
    requires Enabled(s, a) && (a.Unlock? || a.Wait?)
    ensures Owner(Step(s, a), m) == NextOwner(s, a, m)
  {
    hide Step, Release;
    ReleaseMoves(s, a.m);
    if a.Unlock? {
      UnlockIs(s, a.m);
    } else {
      WaitPasses(s, a.c, a.m);
    }
  }

  lemma RelockFields(s: State, m: MutexId, c: CondId)
    requires s.phase.Run?
    ensures var (s', f) := (LockStep(s, m, Some(c)), s.phase.f);
      if TakenFrom(s, f, m) then s'.pc == s.pc[f := Locking(m, Some(c))] && s'.owner == s.owner
      else s'.pc == s.pc && s'.owner == if m in s.owner then s.owner else s.owner[m := f]
  {
    hide Q;
  }

  lemma DispatchOwners(s: State, m: MutexId)
    requires Core(s) && Enabled(s, Dispatch)
    ensures Owner(Step(s, Dispatch), m) == NextOwner(s, Dispatch, m)
  {
    hide Core, SwitchTo, LockStep;
    var g := s.batch[0];
    SwitchToCore(s);
    SwitchFields(s);
    if s.pc[g].Waiting? {
      RelockFields(SwitchTo(s), s.pc[g].m, s.pc[g].c);
    }
  }

  lemma LockOwners(s: State, a: Action, m: MutexId)
    requires Enabled(s, a) && (a.Lock? || a.TryLock? || a.Signal?)
    ensures Owner(Step(s, a), m) == NextOwner(s, a, m)
  {
    if a.Signal? && Q(s, CondQ(a.c)) != [] {
      WakeIs(s, a.c);
    }
  }

  // ---- Control ----

  /** Some fiber is in the list `q`. */
  ghost predicate SomebodyIn(s: State, q: Queue) {
    exists f :: f in s.home && s.home[f] == In(q)
  }

  lemma SomebodyIff(s: State, q: Queue)
    requires Placed(s)
    ensures SomebodyIn(s, q) <==> Q(s, q) != []
  {
    if Q(s, q) != [] {
      InQueue(s, Q(s, q)[0], q);
    }
    if f :| f in s.home && s.home[f] == In(q) {
      InQueue(s, f, q);
    }
  }

  /** The scheduler stops exactly when nobody is runnable, waits for input or output, or is to be
      freed. Otherwise it frees who has terminated, and everybody who was pending is its next batch. */
  lemma TurnMeans(s: State)
    requires Reachable(s) && s.phase == SchedulerTop
    ensures var s' := Step(s, Iterate);
      && (s'.phase == Stopped <==> !SomebodyIn(s, Pending) && !SomebodyIn(s, Terminated) && !SomebodyIn(s, IoList))
      && (s'.phase != Stopped ==> s'.phase == Dispatching && s'.batch == s.pending && s'.pending == [] && s'.terminated == [])
  {
    ReachableInv(s);
    InvCore(s);
    CorePlaced(s);
    SomebodyIff(s, Pending);
    SomebodyIff(s, Terminated);
    SomebodyIff(s, IoList);
    hide Placed;
    FreeAllCore(s);
  }

  /** Blocked on a mutex or a condition variable, suspended directly, or freed: nothing the scheduler
      could do about it. */
  ghost predicate Resting(h: Home) {
    h == Freed || (h.In? && (h.q.MutexQ? || h.q.CondQ? || h.q.RawList?))
  }

  /** The scheduler stops with its next turn exactly when every fiber is at rest. */
  lemma StopsIff(s: State)
    requires Reachable(s) && s.phase == SchedulerTop
    ensures Step(s, Iterate).phase == Stopped <==> forall f | f in s.home :: Resting(s.home[f])
  {
    ReachableInv(s);
    InvCore(s);
    CorePlaced(s);
    TurnMeans(s);
    hide Step, Core;
    forall f | f in s.home
      ensures s.home[f] != OnCpu && s.home[f] != In(Batch)
    {
      OnlyRunning(s, f);
      InQueue(s, f, Batch);
    }
    hide Placed;
    assert (forall f | f in s.home :: Resting(s.home[f])) ==>
      !SomebodyIn(s, Pending) && !SomebodyIn(s, Terminated) && !SomebodyIn(s, IoList);
    if !SomebodyIn(s, Pending) && !SomebodyIn(s, Terminated) && !SomebodyIn(s, IoList) {
      forall f | f in s.home
        ensures Resting(s.home[f])
      {
      }
    }
  }

  /** When the batch is used up, the event loop gets control exactly when nobody can run and somebody
      waits for input or output. */
  lemma BatchEnds(s: State)
    requires Reachable(s) && Enabled(s, EndBatch)
    ensures Step(s, EndBatch).phase == if !SomebodyIn(s, Pending) && SomebodyIn(s, IoList) then EventLoop else SchedulerTop
  {
    ReachableInv(s);
    InvCore(s);
    CorePlaced(s);
    SomebodyIff(s, Pending);
    SomebodyIff(s, IoList);
    hide Placed;
  }

  /** The head of the batch gets control, unless it was woken and another fiber owns its mutex. */
  lemma HeadRuns(s: State)
    requires Reachable(s) && Enabled(s, Dispatch)
    ensures s.batch[0] in s.pc
    ensures var (s', f) := (Step(s, Dispatch), s.batch[0]);
      && s'.batch == s.batch[1..]
      && s'.phase == if s.pc[f].Waiting? && TakenFrom(s, f, s.pc[f].m) then Dispatching else Run(f)
  {
    hide Placed, NoDup, Located;
    ReachableInv(s);
    InvCore(s);
    hide Core;
    SwitchToCore(s);
    SwitchFields(s);
  }

  /** A running fiber keeps control exactly as long as no call takes it elsewhere; otherwise the
      scheduler goes on with the batch. */
  lemma CallerRuns(s: State, a: Action)
    requires Reachable(s) && Enabled(s, a) && s.phase.Run?
    ensures s.phase.f in s.home && s.phase.f in s.pc
    ensures Step(s, a).phase == if NextPlace(s, a, s.phase.f) == OnCpu then s.phase else Dispatching
  {
    ReachableInv(s);
    InvCore(s);
    CorePlaced(s);
    RunningKnown(s);
    hide Inv, Core, Placed, Step, TakenFrom;
    if Parks(a) {
      ParkIs(s, a);
    } else if a.Broadcast? {
      BroadcastIs(s, a.c);
      WakeAllKeeps(s, a.c);
    } else {
      CallPhase(s, a);
    }
  }

  lemma CallPhase(s: State, a: Action)
    requires Enabled(s, a) && s.phase.Run? && !Parks(a) && !a.Broadcast?
    ensures Step(s, a).phase == if a.Wait? || (a.Lock? && TakenFrom(s, s.phase.f, a.m)) then Dispatching else s.phase
  {
    if a.Unlock? || a.Wait? {
      hide Release;
      ReleaseMoves(s, a.m);
    } else if a.Resume? {
      hide Move;
      MoveFields(s, RawList, a.g, Pending);
    } else if a.Signal? && Q(s, CondQ(a.c)) != [] {
      WakeIs(s, a.c);
    }
  }

  /** The event loop gives control back exactly when it has resumed somebody, or select() reported
      that nothing is ready. */
  lemma LoopReturns(s: State, a: Action)
    requires Reachable(s) && Enabled(s, a) && s.phase == EventLoop
    ensures Step(s, a).phase ==
      if a.SelectNone? || exists f :: f in s.home && s.home[f] == In(IoList) && f in a.ready then SchedulerTop else EventLoop
  {
    if a.Select? {
      SelectResumesReady(s, a.ready);
      Partition(s.fds, a.ready);
      ReachableInv(s);
      InvCore(s);
      CorePlaced(s);
      ReadyIff(s, a.ready);
    }
  }

  lemma ReadyIff(s: State, ready: set<Fiber>)
    requires Placed(s)
    ensures Ready(s.fds, ready) == [] <==> !exists f :: f in s.home && s.home[f] == In(IoList) && f in ready
  {
    hide Placed;
    Partition(s.fds, ready);
    forall f
      ensures f in s.fds <==> f in s.home && s.home[f] == In(IoList)
    {
      InQueue(s, f, IoList);
    }
    if Ready(s.fds, ready) != [] {
      assert Ready(s.fds, ready)[0] in Ready(s.fds, ready);
    }
  }

  // ---- Calls ----

  /** dfk_mutex_lock. Either the caller goes on as the owner, which happens exactly when nobody else
      owned the mutex; or it is the last to wait for it and has lost control to the scheduler. */
  lemma LockMeans(s: State, m: MutexId)
    requires Reachable(s) && s.phase.Run?
    ensures var (s', f) := (Step(s, Lock(m)), s.phase.f);
      if TakenFrom(s, f, m) then
        s'.phase == Dispatching && Q(s', MutexQ(m)) == Q(s, MutexQ(m)) + [f] && Owner(s', m) == Owner(s, m)
      else s'.phase == Run(f) && Owns(s', f, m) && Q(s', MutexQ(m)) == Q(s, MutexQ(m))
  {
  }

  /** dfk_mutex_trylock never gives up control: the caller is the owner afterwards exactly when nobody
      else was before. */
  lemma TryLockMeans(s: State, m: MutexId)
    requires Reachable(s) && s.phase.Run?
    ensures var (s', f) := (Step(s, TryLock(m)), s.phase.f);
      s'.phase == Run(f) && (Owns(s', f, m) <==> !TakenFrom(s, f, m)) && (TakenFrom(s, f, m) ==> s' == s)
  {
  }

  /** dfk_mutex_unlock: the caller goes on without the mutex, which its longest waiter owns now. */
  lemma UnlockMeans(s: State, m: MutexId)
    requires Reachable(s) && Enabled(s, Unlock(m))
    ensures var (s', f, x) := (Step(s, Unlock(m)), s.phase.f, Q(s, MutexQ(m)));
      && s'.phase == Run(f) && !Owns(s', f, m)
      && if x == [] then Owner(s', m) == None
         else Owner(s', m) == Some(x[0]) && Q(s', MutexQ(m)) == x[1..] && s'.pending == s.pending + [x[0]]
  {
    ReachableInv(s);
    assert MutexOk(s, m);
    hide Inv, Release;
    UnlockIs(s, m);
    ReleaseMoves(s, m);
  }
}
