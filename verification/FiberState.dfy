/** Fibers, the scheduler, mutexes, condition variables and the select loop as a transition
    system. One transition is the code a fiber, the scheduler or the event loop runs between
    two points at which control or a queue changes hands. */
module FiberState {
  import opened Common

  type Fiber = nat
  type MutexId = nat
  type CondId = nat

  /** Every list a fiber can be linked into, and the two ways of being suspended outside any list. */
  datatype Queue = Pending | Batch | Terminated | MutexQ(m: MutexId) | CondQ(c: CondId) | IoList | RawList

  datatype Home = OnCpu | In(q: Queue) | Freed

  /** Where a fiber's stack is suspended. */
  datatype Pc =
    | Active                                     // in user code
    | Fresh                                      // spawned, not started
    | Postponed                                  // in dfk__postpone
    | Locking(m: MutexId, via: Option<CondId>)   // in dfk_mutex_lock; `via` when called by dfk_cond_wait
    | Waiting(c: CondId, m: MutexId)             // in dfk_cond_wait, before it locks again
    | InIo                                       // in dfk__iosuspend
    | Suspended                                  // in dfk__suspend, called directly
    | Done                                       // in dfk__terminate

  /** Who has control. */
  datatype Phase = SchedulerTop | Dispatching | Run(f: Fiber) | EventLoop | Stopped

  type Pair = (CondId, MutexId)

  /** What has happened so far; no transition depends on it. */
  datatype History = History(
    enqueued: seq<Fiber>,             // appended to the pending list
    dispatched: seq<Fiber>,           // given control by the scheduler
    freed: seq<Fiber>,
    waits: map<Pair, seq<Fiber>>,     // began waiting on a condition variable with a mutex
    acquires: map<Pair, seq<Fiber>>,  // became owner of that mutex again
    joined: map<CondId, seq<Fiber>>,  // entered a condition variable's queue
    woken: map<CondId, seq<Fiber>>)   // left it

  datatype State = State(
    phase: Phase,
    pending: seq<Fiber>,
    batch: seq<Fiber>,
    terminated: seq<Fiber>,
    iowait: int,
    fds: seq<Fiber>,
    raw: seq<Fiber>,
    owner: map<MutexId, Fiber>,
    mutexq: map<MutexId, seq<Fiber>>,
    condq: map<CondId, seq<Fiber>>,
    home: map<Fiber, Home>,
    pc: map<Fiber, Pc>,
    hist: History)

  function Get<K, T>(m: map<K, seq<T>>, k: K): seq<T> {
    if k in m then m[k] else []
  }

  function Log<K, T>(m: map<K, seq<T>>, k: K, x: T): map<K, seq<T>> {
    m[k := Get(m, k) + [x]]
  }

  function Q(s: State, q: Queue): seq<Fiber> {
    match q
    case Pending => s.pending
    case Batch => s.batch
    case Terminated => s.terminated
    case MutexQ(m) => Get(s.mutexq, m)
    case CondQ(c) => Get(s.condq, c)
    case IoList => s.fds
    case RawList => s.raw
  }

  function SetQ(s: State, q: Queue, x: seq<Fiber>): (s': State)
    ensures Q(s', q) == x && forall p | p != q :: Q(s', p) == Q(s, p)
  {
    match q
    case Pending => s.(pending := x)
    case Batch => s.(batch := x)
    case Terminated => s.(terminated := x)
    case MutexQ(m) => s.(mutexq := s.mutexq[m := x])
    case CondQ(c) => s.(condq := s.condq[c := x])
    case IoList => s.(fds := x)
    case RawList => s.(raw := x)
  }

  function Without(x: seq<Fiber>, f: Fiber): seq<Fiber> {
    if x == [] then [] else if x[0] == f then x[1..] else [x[0]] + Without(x[1..], f)
  }

  ghost predicate Owns(s: State, f: Fiber, m: MutexId) {
    m in s.owner && s.owner[m] == f
  }

  // ---- Small moves ----

  /** Fiber `f` goes from queue `a` to the tail of queue `b`. */
  function Move(s: State, a: Queue, f: Fiber, b: Queue): State
    requires a != b
  {
    var s1 := SetQ(s, a, Without(Q(s, a), f));
    SetQ(s1, b, Q(s1, b) + [f]).(home := s.home[f := In(b)])
  }

  /** dfk__resume: `f`, so far in `a`, becomes pending. */
  function MakePending(s: State, a: Queue, f: Fiber): State
    requires a != Pending
  {
    Move(s, a, f, Pending).(hist := s.hist.(enqueued := s.hist.enqueued + [f]))
  }

  /** The running fiber goes to the tail of `q`; control returns to the scheduler. */
  function Park(s: State, q: Queue, pc: Pc): State
    requires s.phase.Run?
  {
    var f := s.phase.f;
    SetQ(s, q, Q(s, q) + [f]).(home := s.home[f := In(q)], pc := s.pc[f := pc], phase := Dispatching)
  }

  function ParkPending(s: State): State
    requires s.phase.Run?
  {
    Park(s, Pending, Postponed).(hist := s.hist.(enqueued := s.hist.enqueued + [s.phase.f]))
  }

  /** The running fiber becomes the owner of a mutex that has none. */
  function Acquire(s: State, m: MutexId): State
    requires s.phase.Run?
  {
    s.(owner := s.owner[m := s.phase.f])
  }

  /** The owner gives up `m`: to the head of its queue, or to nobody. */
  function Release(s: State, m: MutexId): State {
    var q := Q(s, MutexQ(m));
    if q == [] then s.(owner := s.owner - {m})
    else
      var s1 := MakePending(s, MutexQ(m), q[0]).(owner := s.owner[m := q[0]]);
      if q[0] in s.pc && s.pc[q[0]].Locking? && s.pc[q[0]].via.Some?
      then s1.(hist := s1.hist.(acquires := Log(s.hist.acquires, (s.pc[q[0]].via.value, m), q[0])))
      else s1
  }

  /** The head of a condition variable's queue becomes pending. */
  function Wake(s: State, c: CondId): State
    requires Q(s, CondQ(c)) != []
  {
    var f := Q(s, CondQ(c))[0];
    var s1 := MakePending(s, CondQ(c), f);
    s1.(hist := s1.hist.(woken := Log(s.hist.woken, c, f)))
  }

  function WakeAll(s: State, c: CondId): State
    decreases |Q(s, CondQ(c))|
  {
    if Q(s, CondQ(c)) == [] then s else WakeAll(Wake(s, c), c)
  }

  /** The head of the terminated list is freed. */
  function FreeOne(s: State): State
    requires s.terminated != []
  {
    var f := s.terminated[0];
    s.(terminated := s.terminated[1..], home := s.home[f := Freed], hist := s.hist.(freed := s.hist.freed + [f]))
  }

  function FreeAll(s: State): State
    decreases |s.terminated|
  {
    if s.terminated == [] then s else FreeAll(FreeOne(s))
  }

  /** dfk__ioresume. */
  function IoResume(s: State, f: Fiber): State {
    MakePending(s, IoList, f).(iowait := s.iowait - 1)
  }

  /** The ready scan over the descriptor list `todo`. */
  function ReadyScan(s: State, todo: seq<Fiber>, ready: set<Fiber>): State
    decreases |todo|
  {
    if todo == [] then s
    else ReadyScan(if todo[0] in ready then IoResume(s, todo[0]) else s, todo[1..], ready)
  }

  /** Control goes to the head of the batch. */
  function SwitchTo(s: State): State
    requires s.batch != []
  {
    var f := s.batch[0];
    s.(batch := s.batch[1..], home := s.home[f := OnCpu], pc := s.pc[f := Active], phase := Run(f),
       hist := s.hist.(dispatched := s.hist.dispatched + [f]))
  }

  /** dfk_mutex_lock by the running fiber; `via` as in `Locking`. */
  function LockStep(s: State, m: MutexId, via: Option<CondId>): State
    requires s.phase.Run?
  {
    if m !in s.owner then
      var s1 := Acquire(s, m);
      if via.None? then s1
      else s1.(hist := s1.hist.(acquires := Log(s.hist.acquires, (via.value, m), s.phase.f)))
    else if s.owner[m] == s.phase.f then s
    else Park(s, MutexQ(m), Locking(m, via))
  }

  // ---- Transitions ----

  datatype Action =
    | Iterate                       // top of the scheduler loop: stop, or free and take a batch
    | Dispatch                      // next fiber of the batch
    | EndBatch                      // the batch is done
    | Select(ready: set<Fiber>)     // the event loop, with the fibers whose descriptors are ready
    | SelectNone                    // select() reported that nothing is ready
    | Lock(m: MutexId)
    | TryLock(m: MutexId)
    | Unlock(m: MutexId)
    | Wait(c: CondId, m: MutexId)
    | Signal(c: CondId)
    | Broadcast(c: CondId)
    | Spawn(g: Fiber)
    | Postpone
    | Io
    | Suspend
    | Resume(g: Fiber)
    | Return                        // the fiber's entry point returns

  /** Who may do what: the assertions of the source, and `resume` only of a raw-suspended fiber. */
  predicate Enabled(s: State, a: Action) {
    match a
    case Iterate => s.phase == SchedulerTop
    case Dispatch => s.phase == Dispatching && s.batch != []
    case EndBatch => s.phase == Dispatching && s.batch == []
    case Select(ready) => s.phase == EventLoop
    case SelectNone => s.phase == EventLoop
    case Unlock(m) => s.phase.Run? && m in s.owner && s.owner[m] == s.phase.f
    case Wait(c, m) => s.phase.Run? && m in s.owner && s.owner[m] == s.phase.f
    case Spawn(g) => s.phase.Run? && g !in s.home
    case Resume(g) => s.phase.Run? && g in s.raw
    case _ => s.phase.Run?
  }

  function Step(s: State, a: Action): State
    requires Enabled(s, a)
  {
    match a
    case Iterate =>
      if s.terminated == [] && s.pending == [] && s.iowait == 0 then s.(phase := Stopped)
      else TakeBatch(FreeAll(s))
    case Dispatch =>
      var s1 := SwitchTo(s);
      var f := s1.phase.f;
      if f in s.pc && s.pc[f].Waiting? then LockStep(s1, s.pc[f].m, Some(s.pc[f].c)) else s1
    case EndBatch => s.(phase := if s.pending == [] && s.iowait != 0 then EventLoop else SchedulerTop)
    case Select(ready) =>
      var s1 := ReadyScan(s, s.fds, ready);
      if s1.fds == s.fds then s else s1.(phase := SchedulerTop)
    case SelectNone => s.(phase := SchedulerTop)
    case Lock(m) => LockStep(s, m, None)
    case TryLock(m) => if m in s.owner then s else Acquire(s, m)
    case Unlock(m) => Release(s, m)
    case Wait(c, m) =>
      var s1 := Release(s, m);
      Park(s1, CondQ(c), Waiting(c, m)).(hist := s1.hist.(
        waits := Log(s1.hist.waits, (c, m), s.phase.f), joined := Log(s1.hist.joined, c, s.phase.f)))
    case Signal(c) => if Q(s, CondQ(c)) == [] then s else Wake(s, c)
    case Broadcast(c) => WakeAll(s, c)
    case Spawn(g) =>
      s.(pending := s.pending + [g], home := s.home[g := In(Pending)], pc := s.pc[g := Fresh],
         hist := s.hist.(enqueued := s.hist.enqueued + [g]))
    case Postpone => ParkPending(s)
    case Io => Park(s, IoList, InIo).(iowait := s.iowait + 1)
    case Suspend => Park(s, RawList, Suspended)
    case Resume(g) => MakePending(s, RawList, g)
    case Return => Park(s, Terminated, Done)
  }

  function TakeBatch(s: State): State {
    s.(batch := s.pending, pending := [], phase := Dispatching,
       home := map f | f in s.home :: if s.home[f] == In(Pending) then In(Batch) else s.home[f])
  }

  /** The state in which the scheduler loop starts: only the main fiber, pending. */
  function Init(mainFiber: Fiber): State {
    State(SchedulerTop, [mainFiber], [], [], 0, [], [], map[], map[], map[],
          map[mainFiber := In(Pending)], map[mainFiber := Fresh],
          History([mainFiber], [], [], map[], map[], map[], map[]))
  }

  /** The states of a run that takes the actions `acts` in turn. */
  ghost predicate Runs(s: State, acts: seq<Action>, s': State)
    decreases |acts|
  {
    if acts == [] then s == s' else Enabled(s, acts[0]) && Runs(Step(s, acts[0]), acts[1..], s')
  }
}
