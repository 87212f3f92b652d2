/** The code of the scheduler, the mutex, the condition variable and the select loop, run against
    the transition system: each method makes exactly the step it is named after. */
module Runtimes {
  import opened Common
  import opened FiberState
  import opened FiberInvariant

  /** The hook of `f` is in no list. */
  ghost predicate Unlinked(s: State, f: Fiber) {
    forall q :: f !in Q(s, q)
  }

  /** dfk_list_append: a fiber has one hook, so it must not be linked anywhere. */
  function Append(x: seq<Fiber>, f: Fiber, ghost s: State): seq<Fiber>
    requires Unlinked(s, f)
  {
    x + [f]
  }

  lemma RunningUnlinked(s: State)
    requires Placed(s) && s.phase.Run?
    ensures Unlinked(s, s.phase.f)
  {
    assert s.phase.f in s.home && s.home[s.phase.f] == OnCpu;
  }

  /** A fiber that has left the one list it was in. */
  lemma TakenOut(s: State, s': State, a: Queue, f: Fiber)
    requires Placed(s) && f in Q(s, a) && f !in Q(s', a) && forall q | q != a :: Q(s', q) == Q(s, q)
    ensures Unlinked(s', f)
  {
    forall q
      ensures f !in Q(s', q)
    {
      assert f in Q(s, a) <==> f in s.home && s.home[f] == In(a);
      assert f in Q(s, q) <==> f in s.home && s.home[f] == In(q);
    }
  }

  lemma NewUnlinked(s: State, pc: map<Fiber, Pc>, g: Fiber)
    requires Placed(s) && g !in s.home
    ensures Unlinked(s.(pc := pc), g)
  {
    forall q
      ensures g !in Q(s.(pc := pc), q)
    {
      assert Q(s.(pc := pc), q) == Q(s, q);
    }
  }

  lemma SpawnIs(s: State, g: Fiber)
    requires Enabled(s, Spawn(g))
    ensures Step(s, Spawn(g)) == s.(pc := s.pc[g := Fresh], pending := s.pending + [g], home := s.home[g := In(Pending)],
      hist := s.hist.(enqueued := s.hist.enqueued + [g]))
  {
  }

  lemma RawOnce(s: State, f: Fiber)
    requires Placed(s) && f in s.raw
    ensures f in Q(s, RawList) && NoDup(Q(s, RawList))
  {
  }

  lemma RawResumed(s: State, g: Fiber)
    requires Placed(s) && g in s.raw
    ensures Unlinked(s.(raw := Without(s.raw, g)), g)
    ensures MakePending(s, RawList, g) == s.(raw := Without(s.raw, g), pending := s.pending + [g],
      home := s.home[g := In(Pending)], hist := s.hist.(enqueued := s.hist.enqueued + [g]))
  {
    hide Placed, NoDup, Unlinked, Without;
    RawOnce(s, g);
    WithoutMembers(s.raw, g);
    TakenOut(s, s.(raw := Without(s.raw, g)), RawList, g);
  }

  lemma OnceAt(s: State, i: nat)
    requires Placed(s) && i < |s.fds|
    ensures s.fds[i] in Q(s, IoList) && s.fds[i] !in s.fds[..i] + s.fds[i + 1..]
  {
    assert NoDup(Q(s, IoList)) && s.fds == Q(s, IoList);
  }

  lemma HeadOnce(s: State, a: Queue)
    requires Placed(s) && Q(s, a) != []
    ensures Q(s, a)[0] !in Q(s, a)[1..]
  {
    assert NoDup(Q(s, a));
  }

  lemma SwitchedTo(s: State)
    requires s.batch != []
    ensures SwitchTo(s).phase == Run(s.batch[0])
  {
  }

  /** The fiber at position `i` of the descriptor list is resumed. */
  lemma ResumedAt(s: State, i: nat)
    requires Core(s) && i < |s.fds|
    ensures var f := s.fds[i];
      IoResume(s, f) == s.(fds := s.fds[..i] + s.fds[i + 1..], iowait := s.iowait - 1, pending := s.pending + [f],
        home := s.home[f := In(Pending)], hist := s.hist.(enqueued := s.hist.enqueued + [f]))
    ensures Core(IoResume(s, s.fds[i])) && s.iowait > 0
    ensures Unlinked(s.(fds := s.fds[..i] + s.fds[i + 1..], iowait := s.iowait - 1), s.fds[i])
  {
    hide Placed, Unlinked;
    var f, x, y := s.fds[i], s.fds[..i], s.fds[i + 1..];
    assert s.fds == x + [f] + y;
    IoResumeMiddle(s, x, f, y);
    OnceAt(s, i);
    NoDupMiddle(x, f, y) by { OnceOnly(s); }
    WithoutMiddle(x, f, y);
    TakenOut(s, s.(fds := x + y, iowait := s.iowait - 1), IoList, f);
  }

  lemma OnceOnly(s: State)
    requires Placed(s)
    ensures NoDup(s.fds)
  {
    assert NoDup(Q(s, IoList));
  }

  lemma WakeNobody(s: State, c: CondId)
    requires Q(s, CondQ(c)) == []
    ensures WakeAll(s, c) == s
  {
  }

  lemma WakeNext(s: State, c: CondId)
    requires Core(s) && Q(s, CondQ(c)) != []
    ensures Placed(s) && Core(Wake(s, c)) && WakeAll(s, c) == WakeAll(Wake(s, c), c)
  {
    hide Wake, Placed;
    WakeCore(s, c);
  }

  /** One dfk context with its mutexes and condition variables. `pc` stands for the fibers' stacks. */
  class Runtime {
    var control: Phase
    var pending: seq<Fiber>
    var batch: seq<Fiber>
    var terminated: seq<Fiber>
    var iowait: nat
    var fds: seq<Fiber>
    var owner: map<MutexId, Fiber>
    var mutexq: map<MutexId, seq<Fiber>>
    var condq: map<CondId, seq<Fiber>>
    var pc: map<Fiber, Pc>
    ghost var raw: seq<Fiber>
    ghost var home: map<Fiber, Home>
    ghost var hist: History

    ghost function S(): State
      reads this
    {
      State(control, pending, batch, terminated, iowait, fds, raw, owner, mutexq, condq, home, pc, hist)
    }

    /** dfk_work: the main fiber is pending, nothing else exists. */
    constructor (mainFiber: Fiber)
      ensures S() == Init(mainFiber) && Inv(S()) && pending == [mainFiber] && control == SchedulerTop
    {
      control, pending, batch, terminated, iowait, fds := SchedulerTop, [mainFiber], [], [], 0, [];
      owner, mutexq, condq, raw := map[], map[], map[], [];
      home, pc := map[mainFiber := In(Pending)], map[mainFiber := Fresh];
      hist := History([mainFiber], [], [], map[], map[], map[], map[]);
      new;
      InitInv(mainFiber);
    }

    // ---- Scheduler ----

    /** One turn of the scheduler loop up to its first context switch; true when the loop ends. */
    method Iterate() returns (stop: bool)
      requires Enabled(S(), Action.Iterate)
      modifies this
      ensures S() == Step(old(S()), Action.Iterate)
      ensures stop <==> control == Stopped
    {
      if terminated == [] && pending == [] && iowait == 0 {
        control := Stopped;
        return true;
      }
      hide FreeAll, TakeBatch;
      FreeTerminated();
      TakePending();
      return false;
    }

    /** The pending fibers become the batch. */
    method TakePending()
      modifies `home, `batch, `pending, `control
      ensures S() == TakeBatch(old(S()))
    {
      home := TakeBatch(S()).home;
      batch, pending, control := pending, [], Dispatching;
    }

    method FreeTerminated()
      modifies `terminated, `home, `hist
      ensures S() == FreeAll(old(S()))
    {
      ghost var s := S();
      while terminated != []
        invariant FreeAll(S()) == FreeAll(s)
        decreases |terminated|
      {
        FreeFirst();
      }
    }

    method FreeFirst()
      requires terminated != []
      modifies `terminated, `home, `hist
      ensures S() == FreeOne(old(S()))
    {
      var f := terminated[0];
      terminated := terminated[1..];
      home, hist := home[f := Freed], hist.(freed := hist.freed + [f]);
    }

    /** The next fiber of the batch gets control and goes on where its stack stands. */
    method Dispatch()
      requires Core(S()) && Enabled(S(), Action.Dispatch)
      modifies this
      ensures S() == Step(old(S()), Action.Dispatch)
    {
      hide Core, Placed, SwitchTo, LockStep;
      SwitchToCore(S());
      CorePlaced(SwitchTo(S()));
      ghost var s := S();
      SwitchedTo(s);
      var at := pc[batch[0]];
      SwitchToHead();
      if at.Waiting? {
        LockFrom(at.m, Some(at.c));
      }
    }

    /** The context switch to the head of the batch. */
    method SwitchToHead()
      requires batch != []
      modifies `batch, `control, `pc, `home, `hist
      ensures S() == SwitchTo(old(S()))
    {
      var f := batch[0];
      batch, control, pc := batch[1..], Run(f), pc[f := Active];
      home, hist := home[f := OnCpu], hist.(dispatched := hist.dispatched + [f]);
    }

    /** The batch is used up. */
    method EndBatch()
      requires Enabled(S(), Action.EndBatch)
      modifies this
      ensures S() == Step(old(S()), Action.EndBatch)
    {
      if pending == [] && iowait != 0 {
        control := EventLoop;
      } else {
        control := SchedulerTop;
      }
    }

    /** dfk__resume */
    method Resumed(f: Fiber)
      requires Unlinked(S(), f)
      modifies `pending, `home, `hist
      ensures pending == old(pending) + [f] && home == old(home)[f := In(Pending)]
      ensures hist == old(hist).(enqueued := old(hist).enqueued + [f])
    {
      pending := Append(pending, f, S());
      home, hist := home[f := In(Pending)], hist.(enqueued := hist.enqueued + [f]);
    }

    /** The context switch back to the scheduler, with the fiber's stack standing at `at`. */
    method Yield(at: Pc, ghost q: Queue)
      requires control.Run?
      modifies `control, `pc, `home
      ensures control == Dispatching && pc == old(pc)[old(control).f := at] && home == old(home)[old(control).f := In(q)]
    {
      pc, home := pc[control.f := at], home[control.f := In(q)];
      control := Dispatching;
    }

    /** dfk_spawn */
    method Spawn(g: Fiber)
      requires Placed(S()) && Enabled(S(), Action.Spawn(g))
      modifies this
      ensures S() == Step(old(S()), Action.Spawn(g))
    {
      NewUnlinked(S(), pc[g := Fresh], g);
      SpawnIs(S(), g);
      hide Placed, Unlinked, Q, Step;
      pc := pc[g := Fresh];
      Resumed(g);
    }

    /** dfk__postpone */
    method Postpone()
      requires Placed(S()) && Enabled(S(), Action.Postpone)
      modifies this
      ensures S() == Step(old(S()), Action.Postpone)
    {
      hide Placed, Unlinked;
      RunningUnlinked(S());
      pending := Append(pending, control.f, S());
      hist := hist.(enqueued := hist.enqueued + [control.f]);
      Yield(Postponed, Pending);
    }

    /** dfk__suspend, called directly */
    method Suspend()
      requires Placed(S()) && Enabled(S(), Action.Suspend)
      modifies this
      ensures S() == Step(old(S()), Action.Suspend)
    {
      hide Placed;
      RunningUnlinked(S());
      raw := Append(raw, control.f, S());
      Yield(Suspended, RawList);
    }

    /** dfk__resume of a fiber that called dfk__suspend */
    method Resume(g: Fiber)
      requires Placed(S()) && Enabled(S(), Action.Resume(g))
      modifies this
      ensures S() == Step(old(S()), Action.Resume(g))
    {
      hide Placed, Unlinked, MakePending;
      RawResumed(S(), g);
      raw := Without(raw, g);
      Resumed(g);
    }

    /** The end of a fiber's entry point: dfk__terminate. */
    method Return()
      requires Placed(S()) && Enabled(S(), Action.Return)
      modifies this
      ensures S() == Step(old(S()), Action.Return)
    {
      hide Placed;
      RunningUnlinked(S());
      terminated := Append(terminated, control.f, S());
      Yield(Done, Terminated);
    }

    // ---- Select ----

    /** dfk__io: wait for a descriptor. */
    method Io()
      requires Placed(S()) && Enabled(S(), Action.Io)
      modifies this
      ensures S() == Step(old(S()), Action.Io)
    {
      hide Placed;
      RunningUnlinked(S());
      fds := Append(fds, control.f, S());
      iowait := iowait + 1;
      Yield(InIo, IoList);
    }

    /** dfk__ioresume of the fiber at position `i`, which leaves the list. It is one the counter
        counts, so the counter does not go below zero. */
    method ResumeAt(i: nat)
      requires Core(S()) && i < |fds|
      modifies this
      ensures S() == IoResume(old(S()), old(fds[i])) && Core(S())
      ensures fds == old(fds[..i]) + old(fds[i + 1..])
    {
      hide Core, Placed, IoResume, Unlinked;
      var f := fds[i];
      ResumedAt(S(), i);
      fds := fds[..i] + fds[i + 1..];
      iowait := iowait - 1;
      Resumed(f);
    }

    /** The ready scan of the event loop. */
    method Select(ready: set<Fiber>)
      requires Core(S()) && Enabled(S(), Action.Select(ready))
      modifies this
      ensures S() == Step(old(S()), Action.Select(ready))
    {
      ghost var s := S();
      var i, anyReady := 0, false;
      while i < |fds|
        invariant i <= |fds| && Core(S())
        invariant if anyReady then |fds| < |s.fds| else S() == s
        invariant ReadyScan(S(), fds[i..], ready) == ReadyScan(s, s.fds, ready)
        decreases |fds| - i
      {
        ghost var x := fds;
        assert x[i..] == [x[i]] + x[i + 1..];
        if fds[i] in ready {
          ResumeAt(i);
          anyReady := true;
          assert fds[i..] == x[i + 1..];
        } else {
          i := i + 1;
        }
      }
      assert fds[i..] == [];
      if anyReady {
        control := SchedulerTop;
      }
    }

    /** select() returned zero. */
    method SelectNone()
      requires Enabled(S(), Action.SelectNone)
      modifies this
      ensures S() == Step(old(S()), Action.SelectNone)
    {
      control := SchedulerTop;
    }

    // ---- Mutex ----

    /** dfk_mutex_lock up to its context switch, if it makes one. */
    method LockFrom(m: MutexId, via: Option<CondId>)
      requires Placed(S()) && control.Run?
      modifies this
      ensures S() == LockStep(old(S()), m, via)
    {
      hide Placed, Unlinked, Park;
      if m !in owner {
        owner := owner[m := control.f];
        if via.Some? {
          hist := hist.(acquires := Log(hist.acquires, (via.value, m), control.f));
        }
      } else if owner[m] != control.f {
        QueueFor(m, Locking(m, via));
      }
    }

    /** The running fiber enters the wait queue of `m`. */
    method QueueFor(m: MutexId, at: Pc)
      requires Placed(S()) && control.Run?
      modifies this
      ensures S() == Park(old(S()), MutexQ(m), at)
    {
      hide Placed, Unlinked;
      RunningUnlinked(S());
      mutexq := mutexq[m := Append(Get(mutexq, m), control.f, S())];
      Yield(at, MutexQ(m));
    }

    method Lock(m: MutexId)
      requires Placed(S()) && Enabled(S(), Action.Lock(m))
      modifies this
      ensures S() == Step(old(S()), Action.Lock(m))
    {
      LockFrom(m, None);
    }

    method TryLock(m: MutexId) returns (ok: bool)
      requires Enabled(S(), Action.TryLock(m))
      modifies this
      ensures S() == Step(old(S()), Action.TryLock(m))
      ensures ok <==> Owns(S(), control.f, m)
      ensures ok <==> m !in old(owner) || old(owner)[m] == control.f
    {
      if m in owner {
        return owner[m] == control.f;
      }
      owner := owner[m := control.f];
      return true;
    }

    /** What dfk_mutex_unlock and dfk_cond_wait do with a mutex. */
    method GiveUp(m: MutexId)
      requires Placed(S()) && Enabled(S(), Action.Unlock(m))
      modifies this
      ensures S() == Release(old(S()), m)
    {
      if Get(mutexq, m) == [] {
        owner := owner - {m};
      } else {
        HandOver(m);
      }
    }

    /** The head of the wait queue becomes the owner and runnable. */
    method HandOver(m: MutexId)
      requires Placed(S()) && m in mutexq && mutexq[m] != []
      modifies this
      ensures S() == Release(old(S()), m)
    {
      hide Placed, Release, Unlinked;
      ghost var s := S();
      ReleaseIs(s, m);
      HeadOnce(s, MutexQ(m));
      var next := mutexq[m][0];
      mutexq := mutexq[m := mutexq[m][1..]];
      owner := owner[m := next];
      TakenOut(s, S(), MutexQ(m), next);
      Resumed(next);
      if next in pc && pc[next].Locking? && pc[next].via.Some? {
        hist := hist.(acquires := Log(hist.acquires, (pc[next].via.value, m), next));
      }
    }

    method Unlock(m: MutexId)
      requires Placed(S()) && Enabled(S(), Action.Unlock(m))
      modifies this
      ensures S() == Step(old(S()), Action.Unlock(m))
    {
      GiveUp(m);
    }

    // ---- Condition variable ----

    /** dfk_cond_wait up to its context switch. */
    method Wait(c: CondId, m: MutexId)
      requires Core(S()) && Enabled(S(), Action.Wait(c, m))
      modifies this
      ensures S() == Step(old(S()), Action.Wait(c, m))
    {
      hide Core;
      CorePlaced(S());
      ReleaseCore(S(), m);
      CorePlaced(Release(S(), m));
      GiveUp(m);
      Join(c, m);
    }

    /** The running fiber enters the queue of `c`. */
    method Join(c: CondId, m: MutexId)
      requires Placed(S()) && control.Run?
      modifies this
      ensures var s := old(S());
        S() == Park(s, CondQ(c), Waiting(c, m)).(hist := s.hist.(
          waits := Log(s.hist.waits, (c, m), s.phase.f), joined := Log(s.hist.joined, c, s.phase.f)))
    {
      hide Placed, Unlinked;
      RunningUnlinked(S());
      condq := condq[c := Append(Get(condq, c), control.f, S())];
      hist := hist.(waits := Log(hist.waits, (c, m), control.f), joined := Log(hist.joined, c, control.f));
      Yield(Waiting(c, m), CondQ(c));
    }

    method Signal(c: CondId)
      requires Placed(S()) && Enabled(S(), Action.Signal(c))
      modifies this
      ensures S() == Step(old(S()), Action.Signal(c))
    {
      if Get(condq, c) != [] {
        WakeHead(c);
      }
    }

    /** The longest waiter becomes pending. */
    method WakeHead(c: CondId)
      requires Placed(S()) && c in condq && condq[c] != []
      modifies this
      ensures S() == Wake(old(S()), c)
    {
      hide Placed, Wake, Unlinked;
      ghost var s := S();
      WakeIs(s, c);
      HeadOnce(s, CondQ(c));
      var f := condq[c][0];
      condq := condq[c := condq[c][1..]];
      hist := hist.(woken := Log(hist.woken, c, f));
      TakenOut(s, S(), CondQ(c), f);
      Resumed(f);
    }

    /** The queue is moved to a local list, which the loop drains; moving an empty queue changes nothing. */
    method Broadcast(c: CondId)
      requires Core(S()) && Enabled(S(), Action.Broadcast(c))
      modifies this
      ensures S() == Step(old(S()), Action.Broadcast(c))
    {
      hide Core, Wake, WakeAll, Placed;
      ghost var s := S();
      var q := Get(condq, c);
      if q == [] {
        WakeNobody(s, c);
        return;
      }
      condq := condq[c := []];
      assert s.condq == condq[c := q];
      while q != []
        invariant WakeAll(Rejoined(c, q), c) == WakeAll(s, c) && c in condq && condq[c] == [] && Core(Rejoined(c, q))
        decreases |q|
      {
        WakeNext(Rejoined(c, q), c);
        WakeFirst(c, q);
        q := q[1..];
      }
      WakeNobody(Rejoined(c, q), c);
      assert condq[c := q] == condq;
    }

    /** The state if the local list of the broadcast loop were still the queue. */
    ghost function Rejoined(c: CondId, q: seq<Fiber>): State
      reads this
    {
      S().(condq := condq[c := q])
    }

    /** One turn of the broadcast loop: `q` is the local list. */
    method WakeFirst(c: CondId, q: seq<Fiber>)
      requires q != [] && c in condq && condq[c] == [] && Placed(Rejoined(c, q))
      modifies `pending, `home, `hist
      ensures Rejoined(c, q[1..]) == Wake(old(Rejoined(c, q)), c)
    {
      hide Placed, Wake, Unlinked;
      WakeIs(Rejoined(c, q), c);
      ghost var s := Rejoined(c, q);
      assert condq[c := q][c := q[1..]] == condq[c := q[1..]];
      hist := hist.(woken := Log(hist.woken, c, q[0]));
      TakenOut(s, S(), CondQ(c), q[0]);
      Resumed(q[0]);
    }

    // ---- All of them ----

    /** Whatever happens next, the invariant holds again, and the state is the one the transition
        system says. */
    method Perform(a: Action)
      requires Inv(S()) && Enabled(S(), a)
      modifies this
      ensures S() == Step(old(S()), a) && Inv(S())
    {
      hide Core, Inv, Placed, Step;
      StepInv(S(), a);
      InvCore(S());
      CorePlaced(S());
      match a
      case Iterate => var _ := Iterate();
      case Dispatch => Dispatch();
      case EndBatch => EndBatch();
      case Select(ready) => Select(ready);
      case SelectNone => SelectNone();
      case Lock(m) => Lock(m);
      case TryLock(m) => var _ := TryLock(m);
      case Unlock(m) => Unlock(m);
      case Wait(c, m) => Wait(c, m);
      case Signal(c) => Signal(c);
      case Broadcast(c) => Broadcast(c);
      case Spawn(g) => Spawn(g);
      case Postpone => Postpone();
      case Io => Io();
      case Suspend => Suspend();
      case Resume(g) => Resume(g);
      case Return => Return();
    }
  }
}
