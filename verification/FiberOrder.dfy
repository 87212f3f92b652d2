/** Waiters of one condition variable with one mutex own that mutex again in the order in which
    they began waiting. */
module FiberOrder {
  import opened Common
  import opened FiberState
  import opened FiberInvariant

  /** The fibers of `x` whose code location is `w`, in order. */
  ghost function Pick(pc: map<Fiber, Pc>, x: seq<Fiber>, w: Pc): seq<Fiber> {
    if x == [] then []
    else if x[0] in pc && pc[x[0]] == w then [x[0]] + Pick(pc, x[1..], w)
    else Pick(pc, x[1..], w)
  }

  /** Blocked in dfk_mutex_lock, called again by dfk_cond_wait. */
  ghost function Relocking(s: State, p: Pair): seq<Fiber> {
    Pick(s.pc, Q(s, MutexQ(p.1)), Locking(p.1, Some(p.0)))
  }

  /** Woken, but not yet at the call of dfk_mutex_lock. */
  ghost function Woken(s: State, p: Pair): seq<Fiber> {
    Pick(s.pc, s.batch + s.pending, Waiting(p.0, p.1))
  }

  /** Not woken. */
  ghost function Asleep(s: State, p: Pair): seq<Fiber> {
    Pick(s.pc, Q(s, CondQ(p.0)), Waiting(p.0, p.1))
  }

  /** The waiters that do not own the mutex again yet, in the order in which they will. */
  ghost function InFlight(s: State, p: Pair): seq<Fiber> {
    Relocking(s, p) + (Woken(s, p) + Asleep(s, p))
  }

  ghost predicate OrderedAt(s: State, p: Pair) {
    Get(s.hist.waits, p) == Get(s.hist.acquires, p) + InFlight(s, p)
  }

  ghost predicate Ordered(s: State) {
    forall p :: OrderedAt(s, p)
  }

  ghost predicate NotOwning(s: State) {
    forall f | f in s.pc && s.pc[f].Waiting? :: !Owns(s, f, s.pc[f].m)
  }

  function If(b: bool, f: Fiber): seq<Fiber> {
    if b then [f] else []
  }

  lemma {:induction false} PickAppend(pc: map<Fiber, Pc>, x: seq<Fiber>, f: Fiber, w: Pc)
    ensures Pick(pc, x + [f], w) == Pick(pc, x, w) + If(f in pc && pc[f] == w, f)
  {
    if x == [] {
      assert [] + [f] == [f] && Pick(pc, [f][1..], w) == [];
    } else {
      assert (x + [f])[0] == x[0] && (x + [f])[1..] == x[1..] + [f];
      PickAppend(pc, x[1..], f, w);
      var y, z := Pick(pc, x[1..], w), If(f in pc && pc[f] == w, f);
      assert [x[0]] + (y + z) == [x[0]] + y + z;
    }
  }

  lemma {:induction false} PickSame(pc: map<Fiber, Pc>, pc': map<Fiber, Pc>, x: seq<Fiber>, w: Pc)
    requires forall g | g in x :: (g in pc && pc[g] == w) <==> (g in pc' && pc'[g] == w)
    ensures Pick(pc', x, w) == Pick(pc, x, w)
  {
    if x != [] {
      PickSame(pc, pc', x[1..], w);
    }
  }

  lemma PickHead(pc: map<Fiber, Pc>, f: Fiber, y: seq<Fiber>, w: Pc)
    ensures Pick(pc, [f] + y, w) == If(f in pc && pc[f] == w, f) + Pick(pc, y, w)
  {
    assert ([f] + y)[0] == f && ([f] + y)[1..] == y;
    assert [] + Pick(pc, y, w) == Pick(pc, y, w);
  }

  // ---- How the small moves change the three parts ----

  lemma ParkParts(s: State, s': State, q: Queue, pc: Pc, p: Pair)
    requires Placed(s) && s.phase.Run? && Parked(s, s', q, pc)
    ensures var f := s.phase.f;
      && Relocking(s', p) == Relocking(s, p) + If(q == MutexQ(p.1) && pc == Locking(p.1, Some(p.0)), f)
      && Woken(s', p) == Woken(s, p) + If(q == Pending && pc == Waiting(p.0, p.1), f)
      && Asleep(s', p) == Asleep(s, p) + If(q == CondQ(p.0) && pc == Waiting(p.0, p.1), f)
    requires q != Batch
  {
    hide Placed, NoDup, Q, Pick;
    var f := s.phase.f;
    ParkPart(s, s', q, pc, MutexQ(p.1), Locking(p.1, Some(p.0)));
    ParkPart(s, s', q, pc, CondQ(p.0), Waiting(p.0, p.1));
    ParkRunnable(s, s', q, pc, Waiting(p.0, p.1));
  }

  /** Batch followed by pending, when the running fiber is parked in `q`. */
  lemma ParkRunnable(s: State, s': State, q: Queue, pc: Pc, w: Pc)
    requires Placed(s) && s.phase.Run? && Parked(s, s', q, pc) && q != Batch
    ensures Pick(s'.pc, s'.batch + s'.pending, w) == Pick(s.pc, s.batch + s.pending, w) + If(q == Pending && pc == w, s.phase.f)
  {
    var f, x := s.phase.f, s.batch + s.pending;
    RunningElsewhere(s, Batch);
    RunningElsewhere(s, Pending);
    assert s.batch == Q(s, Batch) && s'.batch == Q(s', Batch) && s.pending == Q(s, Pending) && s'.pending == Q(s', Pending);
    hide Placed, NoDup, Q, Pick;
    PickSame(s.pc, s'.pc, x, w);
    if q == Pending {
      PickAppend(s'.pc, x, f, w);
      assert s'.batch + s'.pending == x + [f];
    }
  }

  /** One list, when the running fiber is parked in `q`. */
  lemma ParkPart(s: State, s': State, q: Queue, pc: Pc, r: Queue, w: Pc)
    requires Placed(s) && s.phase.Run? && Parked(s, s', q, pc)
    ensures Pick(s'.pc, Q(s', r), w) == Pick(s.pc, Q(s, r), w) + If(q == r && pc == w, s.phase.f)
  {
    var f := s.phase.f;
    assert f !in Q(s, r);
    PickSame(s.pc, s'.pc, Q(s, r), w);
    if q == r {
      PickAppend(s'.pc, Q(s, r), f, w);
    }
  }

  /** The head of `a`, or a fiber suspended outside any wait queue, becomes pending. */
  lemma PendingParts(s: State, s': State, a: Queue, f: Fiber, p: Pair)
    requires Placed(s) && MadePending(s, s', a, f) && f in Q(s, a) && a != Batch && a != Pending
    requires a.MutexQ? || a.CondQ? ==> Q(s, a)[0] == f
    ensures Relocking(s, p) == If(a == MutexQ(p.1) && s.pc[f] == Locking(p.1, Some(p.0)), f) + Relocking(s', p)
    ensures Woken(s', p) == Woken(s, p) + If(s.pc[f] == Waiting(p.0, p.1), f)
    ensures Asleep(s, p) == If(a == CondQ(p.0) && s.pc[f] == Waiting(p.0, p.1), f) + Asleep(s', p)
  {
    LeavePart(s, s', a, f, MutexQ(p.1), Locking(p.1, Some(p.0)));
    LeavePart(s, s', a, f, CondQ(p.0), Waiting(p.0, p.1));
    assert s'.batch == Q(s', Batch) == Q(s, Batch);
    PickAppend(s.pc, s.batch + s.pending, f, Waiting(p.0, p.1));
    assert s'.batch + s'.pending == s.batch + s.pending + [f];
  }

  lemma LeavePart(s: State, s': State, a: Queue, f: Fiber, r: Queue, w: Pc)
    requires MadePending(s, s', a, f) && r != Pending && (a == r ==> Q(s, a) != [] && Q(s, a)[0] == f)
    ensures Pick(s.pc, Q(s, r), w) == If(a == r && s.pc[f] == w, f) + Pick(s'.pc, Q(s', r), w)
  {
    if a == r {
      assert Q(s, a) == [f] + Q(s, a)[1..];
      PickHead(s.pc, f, Q(s, a)[1..], w);
    } else {
      assert [] + Pick(s.pc, Q(s, r), w) == Pick(s.pc, Q(s, r), w);
    }
  }

  lemma SwitchPart(s: State, r: Queue, w: Pc)
    requires Placed(s) && s.phase == Dispatching && s.batch != [] && r != Batch
    ensures Pick(SwitchTo(s).pc, Q(SwitchTo(s), r), w) == Pick(s.pc, Q(s, r), w)
    ensures s.batch[0] !in Q(s, r)
  {
    SwitchedPlaced(s);
    assert s.batch[0] in Q(s, Batch) && Q(s, Batch) == s.batch;
    PickSame(s.pc, SwitchTo(s).pc, Q(s, r), w);
  }

  /** The head of the batch takes control. */
  lemma SwitchParts(s: State, p: Pair)
    requires Placed(s) && s.phase == Dispatching && s.batch != []
    ensures var (s', f) := (SwitchTo(s), s.batch[0]);
      && Relocking(s', p) == Relocking(s, p) && Asleep(s', p) == Asleep(s, p)
      && f in s.pc && Woken(s, p) == If(s.pc[f] == Waiting(p.0, p.1), f) + Woken(s', p)
  {
    var f, s' := s.batch[0], SwitchTo(s);
    var w, rest := Waiting(p.0, p.1), s.batch[1..];
    SwitchPart(s, MutexQ(p.1), Locking(p.1, Some(p.0)));
    SwitchPart(s, CondQ(p.0), w);
    SwitchPart(s, Pending, w);
    assert f in Q(s, Batch) && NoDup(Q(s, Batch)) && s.batch == [f] + rest;
    assert f !in rest && f !in s.pending;
    assert s.batch + s.pending == [f] + (rest + s.pending);
    PickHead(s.pc, f, rest + s.pending, w);
    PickSame(s.pc, s'.pc, rest + s.pending, w);
  }

  // ---- Every transition keeps the order ----

  /** All three parts of every pair and both logs are the same. */
  lemma OrderFrame(s: State, s': State)
    requires Ordered(s) && s'.hist.waits == s.hist.waits && s'.hist.acquires == s.hist.acquires
    requires forall p :: Relocking(s', p) == Relocking(s, p) && Woken(s', p) == Woken(s, p) && Asleep(s', p) == Asleep(s, p)
    ensures Ordered(s')
  {
    forall p
      ensures OrderedAt(s', p)
    {
      assert OrderedAt(s, p);
    }
  }

  /** Parking that is no part of waiting. */
  lemma ParkOrder(s: State, s': State, q: Queue, pc: Pc)
    requires Placed(s) && Ordered(s) && s.phase.Run? && Parked(s, s', q, pc) && q != Batch && !q.CondQ?
    requires !pc.Waiting? && (pc.Locking? ==> pc.via.None?)
    requires s'.hist.waits == s.hist.waits && s'.hist.acquires == s.hist.acquires
    ensures Ordered(s')
  {
    forall p
      ensures Relocking(s', p) == Relocking(s, p) && Woken(s', p) == Woken(s, p) && Asleep(s', p) == Asleep(s, p)
    {
      ParkParts(s, s', q, pc, p);
    }
    OrderFrame(s, s');
  }

  /** Resuming a fiber that is not a waiter. */
  lemma PendingOrder(s: State, s': State, a: Queue, f: Fiber)
    requires Placed(s) && Ordered(s) && MadePending(s, s', a, f) && f in Q(s, a) && (a == IoList || a == RawList)
    requires !s.pc[f].Waiting? && s'.hist.waits == s.hist.waits && s'.hist.acquires == s.hist.acquires
    ensures Ordered(s')
  {
    forall p
      ensures Relocking(s', p) == Relocking(s, p) && Woken(s', p) == Woken(s, p) && Asleep(s', p) == Asleep(s, p)
    {
      PendingParts(s, s', a, f, p);
      assert [] + Relocking(s', p) == Relocking(s', p) && [] + Asleep(s', p) == Asleep(s', p);
    }
    OrderFrame(s, s');
  }

  /** `x` leaves the first part for the log of acquisitions, `y` the last part for the middle one. */
  lemma Rearranged(s: State, s': State, p: Pair, x: seq<Fiber>, y: seq<Fiber>)
    requires OrderedAt(s, p) && Get(s'.hist.waits, p) == Get(s.hist.waits, p)
    requires Get(s'.hist.acquires, p) == Get(s.hist.acquires, p) + x
    requires Relocking(s, p) == x + Relocking(s', p)
    requires Woken(s', p) == Woken(s, p) + y && Asleep(s, p) == y + Asleep(s', p)
    ensures OrderedAt(s', p)
  {
    Shift(Get(s.hist.acquires, p), x, Relocking(s', p), Woken(s, p), y, Asleep(s', p));
  }

  lemma Shift(a: seq<Fiber>, x: seq<Fiber>, r: seq<Fiber>, w: seq<Fiber>, y: seq<Fiber>, t: seq<Fiber>)
    ensures a + (x + r + (w + (y + t))) == a + x + (r + (w + y + t))
  {
  }

  /** Waking the longest waiter moves it from the last part to the middle one. */
  lemma WakeOrder(s: State, c: CondId)
    requires Core(s) && Ordered(s) && Q(s, CondQ(c)) != []
    ensures Ordered(Wake(s, c))
  {
    var f, s' := Q(s, CondQ(c))[0], Wake(s, c);
    hide Relocking, Woken, Asleep, Placed, Fifo, FreedOnce;
    WakeMoves(s, c);
    CorePending(s, CondQ(c), f);
    WakeIs(s, c);
    hide Core, Wake, Q;
    forall p
      ensures OrderedAt(s', p)
    {
      assert OrderedAt(s, p);
      PendingParts(s, s', CondQ(c), f, p);
      assert Get(s.hist.acquires, p) + [] == Get(s.hist.acquires, p);
      Rearranged(s, s', p, [], If(s.pc[f] == Waiting(p.0, p.1), f));
    }
  }

  /** Handing a mutex to the head of its queue: if that is a waiter, it is the next in order. */
  lemma ReleaseOrder(s: State, m: MutexId)
    requires Core(s) && Ordered(s) && s.phase.Run? && Owns(s, s.phase.f, m)
    ensures Ordered(Release(s, m))
  {
    var q, s' := Q(s, MutexQ(m)), Release(s, m);
    if q == [] {
      OrderFrame(s, s');
    } else {
      var f := q[0];
      ReleasePlaced(s, m);
      assert f in Q(s, MutexQ(m)) && PcFits(s, f);
      forall p
        ensures OrderedAt(s', p)
      {
        assert OrderedAt(s, p);
        PendingParts(s, s', MutexQ(m), f, p);
        ReleaseLogs(s, m, p);
        Rearranged(s, s', p, If(s.pc[f] == Locking(p.1, Some(p.0)), f), []);
      }
    }
  }

  lemma ReleaseLogs(s: State, m: MutexId, p: Pair)
    requires Q(s, MutexQ(m)) != [] && Q(s, MutexQ(m))[0] in s.pc
    requires var l := s.pc[Q(s, MutexQ(m))[0]]; l.Locking? && l.m == m
    ensures var (s', f) := (Release(s, m), Q(s, MutexQ(m))[0]);
      && s'.hist.waits == s.hist.waits
      && Get(s'.hist.acquires, p) == Get(s.hist.acquires, p) + If(s.pc[f] == Locking(p.1, Some(p.0)), f)
  {
    assert Get(s.hist.acquires, p) + [] == Get(s.hist.acquires, p);
  }

  lemma {:induction false} WakeAllOrder(s: State, c: CondId)
    requires Core(s) && Ordered(s)
    ensures Ordered(WakeAll(s, c)) && WakeAll(s, c).pc == s.pc && WakeAll(s, c).owner == s.owner
    decreases |Q(s, CondQ(c))|
  {
    if Q(s, CondQ(c)) != [] {
      WakeCore(s, c);
      WakeOrder(s, c);
      WakeMoves(s, c);
      WakeAllOrder(Wake(s, c), c);
    }
  }

  lemma {:induction false} ReadyScanOrder(s: State, done: seq<Fiber>, todo: seq<Fiber>, ready: set<Fiber>)
    requires Core(s) && Ordered(s) && s.fds == done + todo
    ensures var s' := ReadyScan(s, todo, ready); Ordered(s') && s'.pc == s.pc && s'.owner == s.owner
    decreases |todo|
  {
    if todo != [] {
      var f, rest := todo[0], todo[1..];
      Regroup(done, f, rest, todo);
      if f in ready {
        IoResumeMiddle(s, done, f, rest);
        IoResumeOrder(s, f);
        ReadyScanOrder(IoResume(s, f), done, rest, ready);
      } else {
        ReadyScanOrder(s, done + [f], rest, ready);
      }
    }
  }

  lemma IoResumeOrder(s: State, f: Fiber)
    requires Core(s) && Ordered(s) && f in s.fds
    ensures Ordered(IoResume(s, f)) && IoResume(s, f).pc == s.pc && IoResume(s, f).owner == s.owner
  {
    hide NoDup, Fifo;
    var s1, s' := MakePending(s, IoList, f), IoResume(s, f);
    assert f in Q(s, IoList);
    MakePendingKeeps(s, IoList, f);
    assert PcFits(s, f);
    PendingOrder(s, s1, IoList, f);
    OrderFrame(s1, s');
  }

  lemma ResumeOrder(s: State, f: Fiber)
    requires Core(s) && Ordered(s) && f in s.raw
    ensures Ordered(MakePending(s, RawList, f))
  {
    assert f in Q(s, RawList);
    MakePendingKeeps(s, RawList, f);
    assert PcFits(s, f);
    PendingOrder(s, MakePending(s, RawList, f), RawList, f);
  }

  lemma SpawnOrder(s: State, g: Fiber)
    requires Core(s) && Ordered(s) && s.phase.Run? && g !in s.home
    ensures Ordered(Step(s, Spawn(g)))
  {
    var s' := Step(s, Spawn(g));
    forall p
      ensures Relocking(s', p) == Relocking(s, p) && Woken(s', p) == Woken(s, p) && Asleep(s', p) == Asleep(s, p)
    {
      SpawnPart(s, g, MutexQ(p.1), Locking(p.1, Some(p.0)));
      SpawnPart(s, g, CondQ(p.0), Waiting(p.0, p.1));
      SpawnWoken(s, g, Waiting(p.0, p.1));
    }
    OrderFrame(s, s');
  }

  lemma SpawnPart(s: State, g: Fiber, q: Queue, w: Pc)
    requires Placed(s) && s.phase.Run? && g !in s.home && q != Pending
    ensures Pick(Step(s, Spawn(g)).pc, Q(s, q), w) == Pick(s.pc, Q(s, q), w)
    ensures Q(Step(s, Spawn(g)), q) == Q(s, q)
  {
    assert g !in Q(s, q);
    PickSame(s.pc, Step(s, Spawn(g)).pc, Q(s, q), w);
  }

  lemma SpawnWoken(s: State, g: Fiber, w: Pc)
    requires Placed(s) && s.phase.Run? && g !in s.home && w != Fresh
    ensures var s' := Step(s, Spawn(g)); Pick(s'.pc, s'.batch + s'.pending, w) == Pick(s.pc, s.batch + s.pending, w)
  {
    var s' := Step(s, Spawn(g));
    assert g !in Q(s, Batch) && g !in Q(s, Pending);
    PickSame(s.pc, s'.pc, s.batch + s.pending, w);
    PickAppend(s'.pc, s.batch + s.pending, g, w);
    assert s'.batch + s'.pending == s.batch + s.pending + [g];
    assert Pick(s'.pc, s.batch + s.pending, w) + [] == Pick(s'.pc, s.batch + s.pending, w);
  }

  lemma StillPaired(s: State, s': State)
    requires Ordered(s) && s'.hist.waits == s.hist.waits && s'.hist.acquires == s.hist.acquires && s'.pc == s.pc
    requires s'.batch + s'.pending == s.batch + s.pending && s'.mutexq == s.mutexq && s'.condq == s.condq
    ensures Ordered(s')
  {
    hide Pick, Ordered;
    OrderFrame(s, s');
  }

  lemma IterateOrder(s: State)
    requires Inv(s) && Ordered(s) && s.phase == SchedulerTop
    ensures Ordered(Step(s, Iterate))
  {
    hide Ordered, FreeAll;
    var s' := Step(s, Iterate);
    FreeAllCore(s);
    assert s.batch + s.pending == s'.batch + s'.pending;
    hide Core;
    StillPaired(s, s');
  }

  lemma SelectOrder(s: State, ready: set<Fiber>)
    requires Inv(s) && Ordered(s) && s.phase == EventLoop
    ensures var s' := Step(s, Select(ready)); Ordered(s') && s'.pc == s.pc && s'.owner == s.owner
  {
    hide NoDup;
    assert [] + s.fds == s.fds;
    ReadyScanOrder(s, [], s.fds, ready);
    var s1 := ReadyScan(s, s.fds, ready);
    if s1.fds != s.fds {
      OrderFrame(s1, s1.(phase := SchedulerTop));
    }
  }

  /** Beginning to wait puts the fiber behind everybody who waits. */
  lemma WaitOrder(s: State, c: CondId, m: MutexId)
    requires Inv(s) && Ordered(s) && Enabled(s, Wait(c, m))
    ensures Ordered(Step(s, Wait(c, m)))
  {
    var s1, s' := Release(s, m), Step(s, Wait(c, m));
    ReleaseCore(s, m);
    ReleaseOrder(s, m);
    JoinOrder(s1, s', c, m);
  }

  lemma JoinOrder(s: State, s': State, c: CondId, m: MutexId)
    requires Placed(s) && Ordered(s) && s.phase.Run? && s'.hist.acquires == s.hist.acquires
    requires s' == Park(s, CondQ(c), Waiting(c, m)).(hist := s'.hist)
    requires s'.hist.waits == Log(s.hist.waits, (c, m), s.phase.f)
    ensures Ordered(s')
  {
    hide Placed, NoDup, Relocking, Woken, Asleep;
    var s1 := Park(s, CondQ(c), Waiting(c, m));
    ParkKeeps(s, CondQ(c), Waiting(c, m));
    BooksPlaced(s1, s');
    forall p
      ensures OrderedAt(s', p)
    {
      assert OrderedAt(s, p);
      ParkParts(s, s', CondQ(c), Waiting(c, m), p);
      Untouched(Relocking(s, p));
      Untouched(Woken(s, p));
      Untouched(Get(s.hist.waits, p));
      Joined(s, s', p, If(p == (c, m), s.phase.f));
    }
  }

  lemma Untouched(x: seq<Fiber>)
    ensures x + [] == x && [] + x == x
  {
  }

  lemma Joined(s: State, s': State, p: Pair, x: seq<Fiber>)
    requires OrderedAt(s, p) && Get(s'.hist.acquires, p) == Get(s.hist.acquires, p)
    requires Get(s'.hist.waits, p) == Get(s.hist.waits, p) + x
    requires Relocking(s', p) == Relocking(s, p) && Woken(s', p) == Woken(s, p) && Asleep(s', p) == Asleep(s, p) + x
    ensures OrderedAt(s', p)
  {
    AtEnd(Get(s.hist.acquires, p), Relocking(s, p), Woken(s, p), Asleep(s, p), x);
  }

  lemma AtEnd(a: seq<Fiber>, r: seq<Fiber>, w: seq<Fiber>, t: seq<Fiber>, x: seq<Fiber>)
    ensures a + (r + (w + t)) + x == a + (r + (w + (t + x)))
  {
  }

  /** The next fiber of the batch: a woken waiter becomes the owner, or joins the mutex queue. */
  lemma DispatchOrder(s: State)
    requires Inv(s) && Ordered(s) && NotOwning(s) && Enabled(s, Dispatch)
    ensures Ordered(Step(s, Dispatch))
  {
    var f, s1, s' := s.batch[0], SwitchTo(s), Step(s, Dispatch);
    SwitchToCore(s);
    forall p
      ensures OrderedAt(s', p)
    {
      assert OrderedAt(s, p);
      SwitchParts(s, p);
      var x := If(s.pc[f] == Waiting(p.0, p.1), f);
      if s.pc[f].Waiting? {
        DispatchWaiter(s, p);
      } else {
        assert [] + Woken(s1, p) == Woken(s1, p);
      }
    }
  }

  lemma DispatchWaiter(s: State, p: Pair)
    requires Inv(s) && OrderedAt(s, p) && NotOwning(s) && Enabled(s, Dispatch)
    requires s.batch[0] in s.pc && s.pc[s.batch[0]].Waiting?
    ensures OrderedAt(Step(s, Dispatch), p)
  {
    var f, s1 := s.batch[0], SwitchTo(s);
    SwitchToCore(s);
    if s.pc[f].m !in s1.owner {
      DispatchOwner(s, p);
    } else {
      DispatchBlocked(s, p);
    }
  }

  /** The mutex is free: nobody else waits for it, so the woken fiber was the first of its pair. */
  lemma DispatchOwner(s: State, p: Pair)
    requires Inv(s) && OrderedAt(s, p) && Enabled(s, Dispatch) && s.batch[0] in s.pc && s.pc[s.batch[0]].Waiting?
    requires s.pc[s.batch[0]].m !in s.owner
    ensures OrderedAt(Step(s, Dispatch), p)
  {
    hide Located, Fifo, FreedOnce, WokenInOrder, IoCounted, NoDup;
    var f, s1, s' := s.batch[0], SwitchTo(s), Step(s, Dispatch);
    var x := If(s.pc[f] == Waiting(p.0, p.1), f);
    SwitchParts(s, p);
    DispatchGrants(s, p);
    hide SwitchTo, Step;
    assert x != [] ==> Relocking(s, p) == [] by {
      assert MutexOk(s, s.pc[f].m);
    }
    Promoted(Get(s.hist.acquires, p), Relocking(s, p), x, Woken(s1, p), Asleep(s, p));
  }

  lemma DispatchGrants(s: State, p: Pair)
    requires Enabled(s, Dispatch) && s.batch[0] in s.pc && s.pc[s.batch[0]].Waiting? && s.pc[s.batch[0]].m !in s.owner
    ensures var (s1, s') := (SwitchTo(s), Step(s, Dispatch)); var x := If(s.pc[s.batch[0]] == Waiting(p.0, p.1), s.batch[0]);
      && Relocking(s', p) == Relocking(s1, p) && Woken(s', p) == Woken(s1, p) && Asleep(s', p) == Asleep(s1, p)
      && Get(s'.hist.acquires, p) == Get(s.hist.acquires, p) + x && s'.hist.waits == s.hist.waits
  {
    hide Pick;
    Untouched(Get(s.hist.acquires, p));
  }

  lemma Promoted(a: seq<Fiber>, r: seq<Fiber>, x: seq<Fiber>, w: seq<Fiber>, t: seq<Fiber>)
    requires x != [] ==> r == []
    ensures a + (r + (x + w + t)) == a + x + (r + (w + t))
  {
  }

  /** Another fiber owns the mutex: the woken fiber joins its queue. */
  lemma DispatchBlocked(s: State, p: Pair)
    requires Inv(s) && OrderedAt(s, p) && NotOwning(s) && Enabled(s, Dispatch)
    requires s.batch[0] in s.pc && s.pc[s.batch[0]].Waiting? && s.pc[s.batch[0]].m in s.owner
    ensures OrderedAt(Step(s, Dispatch), p)
  {
    hide NoDup, Relocking, Woken, Asleep, Placed, PhaseOk;
    var f, s1, s' := s.batch[0], SwitchTo(s), Step(s, Dispatch);
    var m, c := s.pc[f].m, s.pc[f].c;
    SwitchToCore(s);
    SwitchParts(s, p);
    assert !Owns(s, f, m) && s1.owner[m] != f;
    ParkKeeps(s1, MutexQ(m), Locking(m, Some(c)));
    ParkParts(s1, s', MutexQ(m), Locking(m, Some(c)), p);
    Untouched(Woken(s1, p));
    Untouched(Asleep(s, p));
    Queued(Get(s.hist.acquires, p), Relocking(s, p), If(s.pc[f] == Waiting(p.0, p.1), f), Woken(s1, p), Asleep(s, p));
  }

  lemma Queued(a: seq<Fiber>, r: seq<Fiber>, x: seq<Fiber>, w: seq<Fiber>, t: seq<Fiber>)
    ensures a + (r + (x + w + t)) == a + (r + x + (w + t))
  {
  }

  lemma LockOrder(s: State, m: MutexId)
    requires Inv(s) && Ordered(s) && s.phase.Run?
    ensures Ordered(Step(s, Lock(m)))
  {
    var s' := Step(s, Lock(m));
    if m !in s.owner {
      OrderFrame(s, s');
    } else if s.owner[m] != s.phase.f {
      ParkKeeps(s, MutexQ(m), Locking(m, None));
      ParkOrder(s, s', MutexQ(m), Locking(m, None));
    }
  }

  lemma LeaveOrder(s: State, a: Action)
    requires Inv(s) && Ordered(s) && s.phase.Run? && Parks(a)
    ensures Ordered(Step(s, a))
  {
    hide Inv, Ordered, Placed;
    InvCore(s);
    CorePlaced(s);
    hide Core, Step;
    ParkIs(s, a);
    LeaveTo(s, Step(s, a), ParksIn(a).0, ParksIn(a).1);
  }

  lemma LeaveTo(s: State, s': State, q: Queue, pc: Pc)
    requires Placed(s) && Ordered(s) && s.phase.Run? && q != Batch && !q.CondQ? && !pc.Waiting? && !pc.Locking?
    requires s' == Park(s, q, pc).(hist := s'.hist, iowait := s'.iowait)
    requires s'.hist.waits == s.hist.waits && s'.hist.acquires == s.hist.acquires
    ensures Ordered(s')
  {
    hide Placed, Ordered, Park;
    ParkKeeps(s, q, pc);
    BooksPlaced(Park(s, q, pc), s');
    assert Parked(s, s', q, pc);
    ParkOrder(s, s', q, pc);
  }

  lemma StepOrder(s: State, a: Action)
    requires Inv(s) && Ordered(s) && NotOwning(s) && Enabled(s, a)
    ensures Ordered(Step(s, a))
  {
    hide Core, NotOwning, Pick;
    match a
    case Iterate => IterateOrder(s);
    case Dispatch => DispatchOrder(s);
    case EndBatch => OrderFrame(s, Step(s, a));
    case Select(ready) => SelectOrder(s, ready);
    case SelectNone => OrderFrame(s, Step(s, a));
    case Lock(m) => LockOrder(s, m);
    case TryLock(m) => OrderFrame(s, Step(s, a));
    case Unlock(m) => ReleaseOrder(s, m);
    case Wait(c, m) => WaitOrder(s, c, m);
    case Signal(c) => if Q(s, CondQ(c)) != [] { WakeOrder(s, c); }
    case Broadcast(c) => WakeAllOrder(s, c);
    case Spawn(g) => SpawnOrder(s, g);
    case Resume(g) => ResumeOrder(s, g);
    case _ => LeaveOrder(s, a);
  }

  // ---- A fiber that waits does not own the mutex it waits with ----

  lemma StepNotOwning(s: State, a: Action)
    requires Inv(s) && Ordered(s) && NotOwning(s) && Enabled(s, a)
    ensures NotOwning(Step(s, a))
  {
    hide Inv, Ordered, NotOwning, Core;
    InvCore(s);
    if a.Dispatch? {
      DispatchNotOwning(s);
    } else if a.Unlock? {
      ReleaseNotOwning(s, a.m);
    } else if a.Wait? {
      WaitNotOwning(s, a.c, a.m);
    } else if a.Iterate? || a.EndBatch? || a.Select? || a.SelectNone? {
      IdleNotOwning(s, a);
    } else {
      RunNotOwning(s, a);
    }
  }

  /** The scheduler and the event loop change neither owners nor code locations. */
  lemma IdleNotOwning(s: State, a: Action)
    requires Inv(s) && Ordered(s) && NotOwning(s) && Enabled(s, a)
    requires a.Iterate? || a.EndBatch? || a.Select? || a.SelectNone?
    ensures NotOwning(Step(s, a))
  {
    if a.Iterate? {
      FreeAllCore(s);
    } else if a.Select? {
      SelectOrder(s, a.ready);
    }
  }

  lemma DispatchNotOwning(s: State)
    requires Inv(s) && NotOwning(s) && Enabled(s, Dispatch)
    ensures NotOwning(Step(s, Dispatch))
  {
    hide NoDup, Fifo, FreedOnce, WokenInOrder, IoCounted, PhaseOk, MutexesOk, Located;
    SwitchToCore(s);
  }

  lemma AcquireNotOwning(s: State, m: MutexId)
    requires Placed(s) && Located(s) && NotOwning(s) && s.phase.Run? && m !in s.owner
    ensures NotOwning(Acquire(s, m))
  {
    assert s.phase.f in s.home && PcFits(s, s.phase.f);
  }

  lemma ParkedNotOwning(s: State, q: Queue, pc: Pc)
    requires NotOwning(s) && s.phase.Run? && !pc.Waiting?
    ensures NotOwning(Park(s, q, pc))
  {
    hide Q;
  }

  lemma LeaveNotOwning(s: State, a: Action)
    requires NotOwning(s) && s.phase.Run? && Parks(a)
    ensures NotOwning(Step(s, a))
  {
    ParkIs(s, a);
    ParkedNotOwning(s, ParksIn(a).0, ParksIn(a).1);
    hide Step, Park;
  }

  lemma RunNotOwning(s: State, a: Action)
    requires Inv(s) && Ordered(s) && NotOwning(s) && Enabled(s, a) && s.phase.Run? && !a.Unlock? && !a.Wait?
    ensures NotOwning(Step(s, a))
  {
    hide Ordered, PhaseOk, Placed, Located, MutexesOk, Fifo, FreedOnce, WokenInOrder, IoCounted, Move, Park;
    if a.Broadcast? {
      WakeAllOrder(s, a.c);
    } else if a.Signal? && Q(s, CondQ(a.c)) != [] {
      WakeIs(s, a.c);
    } else if a.Resume? {
      MoveFields(s, RawList, a.g, Pending);
    } else if Parks(a) {
      LeaveNotOwning(s, a);
    } else if a.Lock? && a.m in s.owner {
      ParkedNotOwning(s, MutexQ(a.m), Locking(a.m, None));
    } else if (a.Lock? || a.TryLock?) && a.m !in s.owner {
      AcquireNotOwning(s, a.m);
    }
  }

  lemma ReleaseNotOwning(s: State, m: MutexId)
    requires Core(s) && NotOwning(s) && s.phase.Run? && Owns(s, s.phase.f, m)
    ensures NotOwning(Release(s, m)) && Release(s, m).pc == s.pc && !Owns(Release(s, m), s.phase.f, m)
  {
    var q := Q(s, MutexQ(m));
    assert s.phase.f in s.home && s.home[s.phase.f] == OnCpu;
    if q != [] {
      ReleasePlaced(s, m);
      assert q[0] in Q(s, MutexQ(m)) && PcFits(s, q[0]);
    }
  }

  lemma WaitNotOwning(s: State, c: CondId, m: MutexId)
    requires Core(s) && NotOwning(s) && Enabled(s, Wait(c, m))
    ensures NotOwning(Step(s, Wait(c, m)))
  {
    hide Core, Release;
    ReleaseNotOwning(s, m);
    ReleasePhase(s, m);
  }

  lemma ReleasePhase(s: State, m: MutexId)
    ensures Release(s, m).phase == s.phase
  {
    hide Release;
    if Q(s, MutexQ(m)) == [] {
      ReleaseFrees(s, m);
    } else {
      ReleaseIs(s, m);
    }
  }

  /** In every run, for every condition variable and mutex, the fibers own the mutex again in the
      order in which they began waiting: what has been acquired is a prefix of what was waited. */
  lemma {:induction false} RunsOrdered(s: State, acts: seq<Action>, s': State)
    requires Inv(s) && Ordered(s) && NotOwning(s) && Runs(s, acts, s')
    ensures Inv(s') && Ordered(s') && NotOwning(s')
    decreases |acts|
  {
    if acts != [] {
      StepInv(s, acts[0]);
      StepOrder(s, acts[0]);
      StepNotOwning(s, acts[0]);
      RunsOrdered(Step(s, acts[0]), acts[1..], s');
    }
  }

  lemma InitOrdered(mainFiber: Fiber)
    ensures Ordered(Init(mainFiber)) && NotOwning(Init(mainFiber))
  {
    var s := Init(mainFiber);
    forall p
      ensures OrderedAt(s, p)
    {
      PickHead(s.pc, mainFiber, [], Waiting(p.0, p.1));
      assert s.batch + s.pending == [mainFiber] + [];
    }
  }

  lemma ReacquiredInWaitOrder(s: State, c: CondId, m: MutexId)
    requires Reachable(s)
    ensures Get(s.hist.acquires, (c, m)) <= Get(s.hist.waits, (c, m))
    ensures Get(s.hist.waits, (c, m))[|Get(s.hist.acquires, (c, m))|..] == InFlight(s, (c, m))
  {
    var mainFiber, acts :| Runs(Init(mainFiber), acts, s);
    InitInv(mainFiber);
    InitOrdered(mainFiber);
    RunsOrdered(Init(mainFiber), acts, s);
    assert OrderedAt(s, (c, m));
  }
}
