/** What holds in every reachable state. */
module FiberInvariant {
  import opened Common
  import opened FiberState

  ghost predicate NoDup(x: seq<Fiber>) {
    forall i, j | 0 <= i < j < |x| :: x[i] != x[j]
  }

  /** Each fiber is linked exactly where its home says, once. */
  ghost predicate Placed(s: State) {
    && (forall q, f {:trigger f in Q(s, q)} :: f in Q(s, q) <==> f in s.home && s.home[f] == In(q))
    && (forall q :: NoDup(Q(s, q)))
    && (forall f :: f in s.home && s.home[f] == OnCpu <==> s.phase == Run(f))
    && s.home.Keys == s.pc.Keys
  }

  /** The code location of a fiber agrees with the list it is in; a fiber made runnable inside
      dfk_mutex_lock owns the mutex. */
  ghost predicate PcFits(s: State, f: Fiber)
    requires f in s.home && f in s.pc
  {
    match s.home[f]
    case In(MutexQ(m)) => s.pc[f].Locking? && s.pc[f].m == m
    case In(CondQ(c)) => s.pc[f].Waiting? && s.pc[f].c == c
    case In(IoList) => s.pc[f].InIo?
    case In(RawList) => s.pc[f].Suspended?
    case In(Terminated) => s.pc[f].Done?
    case In(Pending) => !s.pc[f].Done? && (s.pc[f].Locking? ==> Owns(s, f, s.pc[f].m))
    case In(Batch) => !s.pc[f].Done? && (s.pc[f].Locking? ==> Owns(s, f, s.pc[f].m))
    case OnCpu => s.pc[f].Active?
    case Freed => true
  }

  ghost predicate Located(s: State) {
    s.home.Keys == s.pc.Keys && forall f | f in s.home :: PcFits(s, f)
  }

  /** A nonempty wait queue has an owner, who is not in it. */
  ghost predicate MutexOk(s: State, m: MutexId) {
    && (Q(s, MutexQ(m)) != [] ==> m in s.owner)
    && (m in s.owner ==> s.owner[m] !in Q(s, MutexQ(m)) && s.owner[m] in s.home)
  }

  ghost predicate MutexesOk(s: State) {
    forall m :: MutexOk(s, m)
  }

  ghost predicate PhaseOk(s: State) {
    && (s.phase == SchedulerTop ==> s.batch == [])
    && (s.phase == EventLoop ==> s.batch == [] && s.pending == [] && s.fds != [])
    && (s.phase == Stopped ==> s.batch == [] && s.pending == [] && s.terminated == [] && s.fds == [])
  }

  /** The scheduler's counter is the length of the event loop's descriptor list. */
  ghost predicate IoCounted(s: State) {
    s.iowait == |s.fds|
  }

  /** Batch followed by pending is one first-in first-out queue. */
  ghost predicate Fifo(s: State) {
    s.hist.enqueued == s.hist.dispatched + s.batch + s.pending
  }

  ghost predicate FreedOnce(s: State) {
    && NoDup(s.hist.freed)
    && forall f :: f in s.hist.freed <==> f in s.home && s.home[f] == Freed
  }

  /** Whoever joined a condition variable's queue was woken, in order, or is still in it. */
  ghost predicate WokenInOrder(s: State) {
    forall c :: Get(s.hist.joined, c) == Get(s.hist.woken, c) + Q(s, CondQ(c))
  }

  ghost predicate Core(s: State) {
    Placed(s) && Located(s) && MutexesOk(s) && IoCounted(s) && Fifo(s) && FreedOnce(s) && WokenInOrder(s)
  }

  ghost predicate Inv(s: State) {
    Core(s) && PhaseOk(s)
  }

  lemma InvCore(s: State)
    requires Inv(s)
    ensures Core(s)
  {
  }

  lemma CorePlaced(s: State)
    requires Core(s)
    ensures Placed(s)
  {
  }

  lemma CorePending(s: State, a: Queue, f: Fiber)
    requires Core(s) && f in Q(s, a)
    ensures Placed(s) && f in s.home && f in s.pc && s.home[f] == In(a) && PcFits(s, f)
  {
  }

  /** A fiber in one list is in no other. */
  lemma Elsewhere(s: State, a: Queue, f: Fiber, q: Queue)
    requires Placed(s) && f in Q(s, a)
    ensures q != a ==> f !in Q(s, q)
    ensures NoDup(Q(s, q))
  {
    assert f in Q(s, a) <==> f in s.home && s.home[f] == In(a);
    assert f in Q(s, q) <==> f in s.home && s.home[f] == In(q);
  }

  /** The running fiber is in no list. */
  lemma RunningElsewhere(s: State, q: Queue)
    requires Placed(s) && s.phase.Run?
    ensures s.phase.f !in Q(s, q)
  {
    assert s.phase.f in s.home && s.home[s.phase.f] == OnCpu;
  }

  // ---- Sequences without duplicates ----

  lemma {:induction false} WithoutMembers(x: seq<Fiber>, f: Fiber)
    requires NoDup(x)
    ensures forall g :: g in Without(x, f) <==> g in x && g != f
    ensures NoDup(Without(x, f))
  {
    if x != [] {
      var r := x[1..];
      assert x == [x[0]] + r && NoDup(r) && x[0] !in r;
      if x[0] != f {
        WithoutMembers(r, f);
        PrependNoDup(x[0], Without(r, f));
      }
    }
  }

  lemma PrependNoDup(f: Fiber, x: seq<Fiber>)
    requires NoDup(x) && f !in x
    ensures NoDup([f] + x)
  {
  }

  lemma AppendNoDup(x: seq<Fiber>, f: Fiber)
    requires NoDup(x) && f !in x
    ensures NoDup(x + [f])
  {
  }

  // ---- Small moves, field by field ----

  /** `Wake`, field by field. */
  lemma WakeIs(s: State, c: CondId)
    requires Q(s, CondQ(c)) != []
    ensures var x := Q(s, CondQ(c));
      Wake(s, c) == s.(condq := s.condq[c := x[1..]], pending := s.pending + [x[0]], home := s.home[x[0] := In(Pending)],
        hist := s.hist.(enqueued := s.hist.enqueued + [x[0]], woken := Log(s.hist.woken, c, x[0])))
  {
    var x := Q(s, CondQ(c));
    assert Without(x, x[0]) == x[1..];
  }

  /** `Release` of a mutex somebody waits for, field by field. */
  lemma ReleaseIs(s: State, m: MutexId)
    requires Q(s, MutexQ(m)) != []
    ensures var x := Q(s, MutexQ(m));
      Release(s, m) == s.(mutexq := s.mutexq[m := x[1..]], pending := s.pending + [x[0]], home := s.home[x[0] := In(Pending)],
        owner := s.owner[m := x[0]], hist := s.hist.(enqueued := s.hist.enqueued + [x[0]],
        acquires := if x[0] in s.pc && s.pc[x[0]].Locking? && s.pc[x[0]].via.Some?
          then Log(s.hist.acquires, (s.pc[x[0]].via.value, m), x[0]) else s.hist.acquires))
  {
    var x := Q(s, MutexQ(m));
    assert Without(x, x[0]) == x[1..];
  }

  /** `Release` of a mutex nobody waits for. */
  lemma ReleaseFrees(s: State, m: MutexId)
    requires Q(s, MutexQ(m)) == []
    ensures Release(s, m) == s.(owner := s.owner - {m})
  {
  }

  // ---- Small moves keep the invariant ----

  /** Only the links of `f` have changed: its home is now `h`. */
  ghost predicate Rehomed(s: State, s': State, f: Fiber, h: Home, q: Queue) {
    && (forall g :: g != f ==> (g in Q(s', q) <==> g in Q(s, q)))
    && (f in Q(s', q) <==> h == In(q))
    && NoDup(Q(s', q))
  }

  lemma RehomedPlaced(s: State, s': State, f: Fiber, h: Home)
    requires Placed(s) && s'.home == s.home[f := h] && s'.home.Keys == s'.pc.Keys
    requires forall q :: Rehomed(s, s', f, h, q)
    requires forall g :: s'.phase == Run(g) <==> if g == f then h == OnCpu else s.phase == Run(g)
    ensures Placed(s')
  {
    forall q, g
      ensures g in Q(s', q) <==> g in s'.home && s'.home[g] == In(q)
    {
      assert Rehomed(s, s', f, h, q);
      assert g in Q(s, q) <==> g in s.home && s.home[g] == In(q);
    }
    forall q
      ensures NoDup(Q(s', q))
    {
      assert Rehomed(s, s', f, h, q);
    }
  }

  lemma MoveQueues(s: State, a: Queue, f: Fiber, b: Queue, q: Queue)
    requires a != b
    ensures Q(Move(s, a, f, b), q) == if q == b then Q(s, b) + [f] else if q == a then Without(Q(s, a), f) else Q(s, q)
  {
  }

  lemma MoveFields(s: State, a: Queue, f: Fiber, b: Queue)
    requires a != b
    ensures var s' := Move(s, a, f, b);
      s'.home == s.home[f := In(b)] && s'.pc == s.pc && s'.phase == s.phase && s'.hist == s.hist && s'.owner == s.owner
      && s'.iowait == s.iowait
  {
    hide Q, Without;
  }

  lemma MoveRehomes(s: State, a: Queue, f: Fiber, b: Queue, q: Queue)
    requires Placed(s) && f in Q(s, a) && a != b
    ensures Rehomed(s, Move(s, a, f, b), f, In(b), q)
  {
    hide Move, Without, Placed, NoDup, Q;
    MoveQueues(s, a, f, b, q);
    Elsewhere(s, a, f, q);
    if q == b {
      AppendNoDup(Q(s, b), f);
    } else if q == a {
      WithoutMembers(Q(s, a), f);
    }
  }

  lemma MovePlaced(s: State, a: Queue, f: Fiber, b: Queue)
    requires Placed(s) && f in Q(s, a) && a != b
    ensures Placed(Move(s, a, f, b))
  {
    hide Q, Move, Rehomed, NoDup;
    var s' := Move(s, a, f, b);
    MoveFields(s, a, f, b);
    forall q
      ensures Rehomed(s, s', f, In(b), q)
    {
      MoveRehomes(s, a, f, b, q);
    }
    assert f in s.home && s'.home.Keys == s.home.Keys;
    RehomedPlaced(s, s', f, In(b));
  }

  /** Only `f` has changed home or code location, and no fiber that waits to continue inside
      dfk_mutex_lock has lost its mutex. */
  lemma LocatedFrame(s: State, s': State, f: Fiber)
    requires Located(s) && s'.home.Keys == s'.pc.Keys == s.home.Keys + {f}
    requires forall g | g in s.home && g != f :: s'.home[g] == s.home[g] && s'.pc[g] == s.pc[g]
    requires forall g | g in s.home && g != f && s.pc[g].Locking? && s.home[g] != OnCpu && Owns(s, g, s.pc[g].m) ::
      Owns(s', g, s.pc[g].m)
    requires PcFits(s', f)
    ensures Located(s')
  {
    forall g | g in s'.home
      ensures PcFits(s', g)
    {
      assert g != f ==> PcFits(s, g);
    }
  }

  lemma MutexesFrame(s: State, s': State)
    requires MutexesOk(s) && s'.owner == s.owner && s.home.Keys <= s'.home.Keys
    requires forall m :: Q(s', MutexQ(m)) == Q(s, MutexQ(m))
    ensures MutexesOk(s')
  {
    forall m
      ensures MutexOk(s', m)
    {
      assert MutexOk(s, m);
    }
  }

  lemma WokenFrame(s: State, s': State)
    requires WokenInOrder(s) && s'.hist.joined == s.hist.joined && s'.hist.woken == s.hist.woken
    requires forall c :: Q(s', CondQ(c)) == Q(s, CondQ(c))
    ensures WokenInOrder(s')
  {
    forall d
      ensures Get(s'.hist.joined, d) == Get(s'.hist.woken, d) + Q(s', CondQ(d))
    {
      assert Get(s.hist.joined, d) == Get(s.hist.woken, d) + Q(s, CondQ(d));
    }
  }

  /** A state with the same lists and homes. */
  lemma PlacedFrame(s: State, s': State)
    requires Placed(s) && s'.home == s.home && s'.pc.Keys == s.pc.Keys && s'.phase == s.phase
    requires forall q :: Q(s', q) == Q(s, q)
    ensures Placed(s')
  {
    forall q, f
      ensures f in Q(s', q) <==> f in s'.home && s'.home[f] == In(q)
    {
      assert f in Q(s, q) <==> f in s.home && s.home[f] == In(q);
    }
  }

  /** Neither owners nor the counter nor the history are links. */
  lemma BooksPlaced(s: State, s': State)
    requires Placed(s) && s' == s.(owner := s'.owner, iowait := s'.iowait, hist := s'.hist)
    ensures Placed(s') && forall q :: Q(s', q) == Q(s, q)
  {
    hide Placed;
    assert forall q :: Q(s', q) == Q(s, q);
    PlacedFrame(s, s');
  }

  /** `s'` differs from `s` in that `f` went from the head or middle of `a` to the tail of the pending list. */
  ghost predicate MadePending(s: State, s': State, a: Queue, f: Fiber) {
    && s'.pc == s.pc && s'.phase == s.phase && s'.home == s.home[f := In(Pending)]
    && f in s.home && s.home[f] == In(a) && f in s.pc
    && Q(s', a) == Without(Q(s, a), f) && s'.pending == s.pending + [f]
    && (forall q | q != a && q != Pending :: Q(s', q) == Q(s, q))
    && s'.hist.enqueued == s.hist.enqueued + [f] && s'.hist.joined == s.hist.joined
  }

  lemma MakePendingKeeps(s: State, a: Queue, f: Fiber)
    requires Placed(s) && f in Q(s, a) && a != Pending
    ensures Placed(MakePending(s, a, f)) && MadePending(s, MakePending(s, a, f), a, f)
  {
    hide NoDup, Without, Move;
    MovePlaced(s, a, f, Pending);
    MoveFields(s, a, f, Pending);
    var s1, s' := Move(s, a, f, Pending), MakePending(s, a, f);
    BooksPlaced(s1, s');
    forall q
      ensures Q(s', q) == if q == Pending then Q(s, q) + [f] else if q == a then Without(Q(s, a), f) else Q(s, q)
    {
      MoveQueues(s, a, f, Pending, q);
    }
    assert s.pending == Q(s, Pending) && s'.pending == Q(s', Pending);
  }

  lemma MadePendingFifo(s: State, s': State, a: Queue, f: Fiber)
    requires MadePending(s, s', a, f) && Fifo(s) && FreedOnce(s) && a != Batch && a != Pending
    requires s'.hist.dispatched == s.hist.dispatched && s'.hist.freed == s.hist.freed
    ensures Fifo(s') && FreedOnce(s')
  {
    assert Q(s', Batch) == Q(s, Batch);
    assert s.hist.enqueued + [f] == s.hist.dispatched + s.batch + (s.pending + [f]);
  }

  lemma WakeMoves(s: State, c: CondId)
    requires Placed(s) && Fifo(s) && FreedOnce(s) && Q(s, CondQ(c)) != []
    ensures var (s', f) := (Wake(s, c), Q(s, CondQ(c))[0]);
      Placed(s') && Fifo(s') && FreedOnce(s') && MadePending(s, s', CondQ(c), f) && s'.owner == s.owner
      && s'.iowait == s.iowait && s'.fds == s.fds && s'.hist.woken == Log(s.hist.woken, c, f)
  {
    var f, s' := Q(s, CondQ(c))[0], Wake(s, c);
    hide Placed, NoDup, Without, Fifo, FreedOnce;
    MakePendingKeeps(s, CondQ(c), f);
    BooksPlaced(MakePending(s, CondQ(c), f), s');
    MadePendingFifo(s, s', CondQ(c), f);
  }

  lemma WakeCore(s: State, c: CondId)
    requires Core(s) && Q(s, CondQ(c)) != []
    ensures Core(Wake(s, c))
  {
    hide NoDup;
    var f, s' := Q(s, CondQ(c))[0], Wake(s, c);
    WakeMoves(s, c);
    assert PcFits(s, f);
    LocatedFrame(s, s', f);
    MutexesFrame(s, s');
    WokeInOrder(s, s', c, f);
  }

  lemma WokeInOrder(s: State, s': State, c: CondId, f: Fiber)
    requires WokenInOrder(s) && Q(s, CondQ(c)) != [] && f == Q(s, CondQ(c))[0] && MadePending(s, s', CondQ(c), f)
    requires s'.hist.woken == Log(s.hist.woken, c, f)
    ensures WokenInOrder(s')
  {
    HeadMoves(Get(s.hist.woken, c), Q(s, CondQ(c)));
    hide Without;
    forall d
      ensures Get(s'.hist.joined, d) == Get(s'.hist.woken, d) + Q(s', CondQ(d))
    {
      assert Get(s.hist.joined, d) == Get(s.hist.woken, d) + Q(s, CondQ(d));
    }
  }

  lemma HeadMoves(w: seq<Fiber>, x: seq<Fiber>)
    requires x != []
    ensures w + [x[0]] + Without(x, x[0]) == w + x
  {
  }

  /** A fiber made pending from a list that neither mutexes nor condition variables keep. */
  lemma MadePendingCore(s: State, s': State, a: Queue, f: Fiber)
    requires Core(s) && Placed(s') && MadePending(s, s', a, f) && IoCounted(s') && (a == RawList || a == IoList)
    requires s'.owner == s.owner && s'.hist.woken == s.hist.woken
    requires s'.hist.dispatched == s.hist.dispatched && s'.hist.freed == s.hist.freed
    ensures Core(s')
  {
    hide Q, Without, Placed, NoDup;
    MadePendingFifo(s, s', a, f);
    assert PcFits(s, f);
    LocatedFrame(s, s', f);
    MutexesFrame(s, s');
    WokenFrame(s, s');
  }

  lemma ResumeCore(s: State, f: Fiber)
    requires Core(s) && f in s.raw
    ensures Core(MakePending(s, RawList, f))
  {
    hide Without, Placed, NoDup, Located, MutexesOk, Fifo, FreedOnce, WokenInOrder;
    var s' := MakePending(s, RawList, f);
    assert f in Q(s, RawList);
    MakePendingKeeps(s, RawList, f);
    assert s.fds == Q(s, IoList) && s'.fds == Q(s', IoList);
    MadePendingCore(s, s', RawList, f);
  }

  lemma IoResumeCore(s: State, f: Fiber)
    requires Core(s) && f in s.fds
    ensures Core(IoResume(s, f))
  {
    hide Without, Placed, NoDup, Located, MutexesOk, Fifo, FreedOnce, WokenInOrder;
    var s', s1 := IoResume(s, f), MakePending(s, IoList, f);
    assert f in Q(s, IoList);
    MakePendingKeeps(s, IoList, f);
    BooksPlaced(s1, s');
    WithoutLength(s.fds, f);
    MadePendingCore(s, s', IoList, f);
  }

  lemma {:induction false} WithoutLength(x: seq<Fiber>, f: Fiber)
    requires f in x
    ensures |Without(x, f)| == |x| - 1
  {
    if x[0] != f {
      WithoutLength(x[1..], f);
    }
  }

  lemma ReleaseCore(s: State, m: MutexId)
    requires Core(s) && s.phase.Run? && Owns(s, s.phase.f, m)
    ensures Core(Release(s, m)) && Release(s, m).phase == s.phase && Release(s, m).hist.joined == s.hist.joined
  {
    hide Placed, NoDup, Release, Without, Located, MutexesOk, Fifo, FreedOnce;
    var q, s' := Q(s, MutexQ(m)), Release(s, m);
    if q == [] {
      ReleaseFrees(s, m);
      BooksPlaced(s, s');
      FreedMutexBooks(s, s');
    } else {
      ReleasePlaced(s, m);
    }
    ReleaseLocated(s, m);
    ReleaseMutexes(s, m);
    WokenFrame(s, s');
  }

  lemma FreedMutexBooks(s: State, s': State)
    requires s' == s.(owner := s'.owner) && Fifo(s) && FreedOnce(s)
    ensures Fifo(s') && FreedOnce(s')
  {
  }

  lemma ReleaseLocated(s: State, m: MutexId)
    requires Core(s) && s.phase.Run? && Owns(s, s.phase.f, m)
    ensures Located(Release(s, m))
  {
    var q, s' := Q(s, MutexQ(m)), Release(s, m);
    assert s.phase.f in s.home && s.home[s.phase.f] == OnCpu && PcFits(s, s.phase.f);
    if q == [] {
      LocatedFrame(s, s', s.phase.f);
    } else {
      ReleasePlaced(s, m);
      HandedOver(s, s', m, q[0]);
    }
  }

  lemma HandedOver(s: State, s': State, m: MutexId, f: Fiber)
    requires Located(s) && s.phase.Run? && Owns(s, s.phase.f, m)
    requires s.phase.f in s.home && s.home[s.phase.f] == OnCpu
    requires MadePending(s, s', MutexQ(m), f) && s'.owner == s.owner[m := f]
    ensures Located(s')
  {
    assert PcFits(s, f);
    LocatedFrame(s, s', f);
  }

  lemma ReleasePlaced(s: State, m: MutexId)
    requires Placed(s) && Fifo(s) && FreedOnce(s) && Q(s, MutexQ(m)) != []
    ensures var s' := Release(s, m); var f := Q(s, MutexQ(m))[0];
      Placed(s') && Fifo(s') && FreedOnce(s') && MadePending(s, s', MutexQ(m), f) && s'.owner == s.owner[m := f]
      && s'.iowait == s.iowait && s'.fds == s.fds && s'.hist.woken == s.hist.woken
  {
    var f, s' := Q(s, MutexQ(m))[0], Release(s, m);
    hide Placed, NoDup, Without, Fifo, FreedOnce;
    MakePendingKeeps(s, MutexQ(m), f);
    BooksPlaced(MakePending(s, MutexQ(m), f), s');
    MadePendingFifo(s, s', MutexQ(m), f);
  }

  lemma ReleaseMutexes(s: State, m: MutexId)
    requires Placed(s) && MutexesOk(s) && Fifo(s) && FreedOnce(s)
    ensures MutexesOk(Release(s, m))
  {
    var q, s' := Q(s, MutexQ(m)), Release(s, m);
    if q != [] {
      ReleasePlaced(s, m);
      WithoutMembers(q, q[0]);
    }
    forall m'
      ensures MutexOk(s', m')
    {
      assert MutexOk(s, m') && MutexOk(s, m);
    }
  }

  /** What parking the running fiber leaves alone. */
  ghost predicate Parked(s: State, s': State, q: Queue, pc: Pc)
    requires s.phase.Run?
  {
    && s.phase.f in s.home && s.home[s.phase.f] == OnCpu
    && Q(s', q) == Q(s, q) + [s.phase.f] && (forall p | p != q :: Q(s', p) == Q(s, p))
    && s'.home == s.home[s.phase.f := In(q)] && s'.pc == s.pc[s.phase.f := pc] && s'.phase == Dispatching
    && s'.owner == s.owner
  }

  lemma AppendRehomes(s: State, s': State, f: Fiber, q: Queue, p: Queue)
    requires Placed(s) && (f in s.home ==> !s.home[f].In?)
    requires Q(s', p) == if p == q then Q(s, p) + [f] else Q(s, p)
    ensures Rehomed(s, s', f, In(q), p)
  {
    hide Q;
    assert f !in Q(s, p) && NoDup(Q(s, p));
    if p == q {
      AppendNoDup(Q(s, q), f);
    }
  }

  lemma ParkKeeps(s: State, q: Queue, pc: Pc)
    requires Placed(s) && s.phase.Run?
    ensures Placed(Park(s, q, pc)) && Parked(s, Park(s, q, pc), q, pc)
  {
    hide NoDup, Rehomed;
    var f, s' := s.phase.f, Park(s, q, pc);
    assert f in s.home && s.home[f] == OnCpu;
    assert forall p :: Q(s', p) == if p == q then Q(s, p) + [f] else Q(s, p);
    forall p
      ensures Rehomed(s, s', f, In(q), p)
    {
      AppendRehomes(s, s', f, q, p);
    }
    RehomedPlaced(s, s', f, In(q));
  }

  /** Parking somewhere the code location fits, with the bookkeeping that goes with it. */
  ghost predicate ParkFits(s: State, q: Queue, pc: Pc, hist: History, io: int)
    requires s.phase.Run?
  {
    match q
    case MutexQ(m) => pc.Locking? && pc.m == m && m in s.owner && s.owner[m] != s.phase.f && hist == s.hist && io == s.iowait
    case CondQ(c) => pc.Waiting? && pc.c == c && io == s.iowait
      && hist == s.hist.(waits := hist.waits, joined := Log(s.hist.joined, c, s.phase.f))
    case IoList => pc == InIo && hist == s.hist && io == s.iowait + 1
    case RawList => pc == Suspended && hist == s.hist && io == s.iowait
    case Terminated => pc == Done && hist == s.hist && io == s.iowait
    case Pending => pc == Postponed && hist == s.hist.(enqueued := s.hist.enqueued + [s.phase.f]) && io == s.iowait
    case Batch => false
  }

  lemma ParkCore(s: State, q: Queue, pc: Pc, hist: History, io: int)
    requires Core(s) && s.phase.Run? && ParkFits(s, q, pc, hist, io)
    ensures Core(Park(s, q, pc).(hist := hist, iowait := io))
  {
    var f, s1 := s.phase.f, Park(s, q, pc);
    var s' := s1.(hist := hist, iowait := io);
    hide Placed, NoDup, Park, Fifo, FreedOnce, WokenInOrder, IoCounted, MutexesOk;
    ParkKeeps(s, q, pc);
    BooksPlaced(s1, s');
    assert Parked(s, s', q, pc);
    ParkLocated(s, s', q, pc, hist, io);
    ParkCounts(s, s', q, pc, hist, io);
    ParkMutexes(s, s', q, pc);
  }

  lemma ParkLocated(s: State, s': State, q: Queue, pc: Pc, hist: History, io: int)
    requires s.phase.Run? && Parked(s, s', q, pc) && ParkFits(s, q, pc, hist, io) && Located(s)
    ensures Located(s')
  {
    hide Q;
    LocatedFrame(s, s', s.phase.f);
  }

  lemma ParkCounts(s: State, s': State, q: Queue, pc: Pc, hist: History, io: int)
    requires s.phase.Run? && Parked(s, s', q, pc) && ParkFits(s, q, pc, hist, io) && s'.hist == hist && s'.iowait == io
    requires Fifo(s) && FreedOnce(s) && IoCounted(s) && WokenInOrder(s)
    ensures Fifo(s') && FreedOnce(s') && IoCounted(s') && WokenInOrder(s')
  {
    hide NoDup, WokenInOrder;
    var f := s.phase.f;
    assert s.batch == Q(s, Batch) && s'.batch == Q(s', Batch) && s.pending == Q(s, Pending) && s'.pending == Q(s', Pending);
    assert s.fds == Q(s, IoList) && s'.fds == Q(s', IoList);
    assert s.hist.enqueued + [f] == s.hist.dispatched + s.batch + (s.pending + [f]);
    ParkWoken(s, s', q, pc, hist, io);
  }

  lemma ParkWoken(s: State, s': State, q: Queue, pc: Pc, hist: History, io: int)
    requires s.phase.Run? && Parked(s, s', q, pc) && ParkFits(s, q, pc, hist, io) && s'.hist == hist && WokenInOrder(s)
    ensures WokenInOrder(s')
  {
    forall d
      ensures Get(s'.hist.joined, d) == Get(s'.hist.woken, d) + Q(s', CondQ(d))
    {
      assert Get(s.hist.joined, d) == Get(s.hist.woken, d) + Q(s, CondQ(d));
    }
  }

  lemma ParkMutexes(s: State, s': State, q: Queue, pc: Pc)
    requires s.phase.Run? && Parked(s, s', q, pc) && MutexesOk(s)
    requires q.MutexQ? ==> q.m in s.owner && s.owner[q.m] != s.phase.f
    ensures MutexesOk(s')
  {
    forall m
      ensures MutexOk(s', m)
    {
      assert MutexOk(s, m);
    }
  }

  lemma AcquireCore(s: State, m: MutexId, acquires: map<Pair, seq<Fiber>>)
    requires Core(s) && s.phase.Run? && m !in s.owner
    ensures Core(Acquire(s, m).(hist := s.hist.(acquires := acquires)))
  {
    var s' := Acquire(s, m).(hist := s.hist.(acquires := acquires));
    assert MutexOk(s, m) && s.phase.f in s.home && s.home[s.phase.f] == OnCpu;
    assert forall p :: Q(s', p) == Q(s, p);
    PlacedFrame(s, s');
    assert PcFits(s, s.phase.f);
    LocatedFrame(s, s', s.phase.f);
    WokenFrame(s, s');
    forall m'
      ensures MutexOk(s', m')
    {
      assert MutexOk(s, m');
    }
  }

  lemma LockStepCore(s: State, m: MutexId, via: Option<CondId>)
    requires Core(s) && s.phase.Run?
    ensures Core(LockStep(s, m, via))
  {
    var s' := LockStep(s, m, via);
    if m !in s.owner {
      AcquireCore(s, m, s'.hist.acquires);
      assert s' == Acquire(s, m).(hist := s.hist.(acquires := s'.hist.acquires));
    } else if s.owner[m] != s.phase.f {
      ParkCore(s, MutexQ(m), Locking(m, via), s.hist, s.iowait);
      assert s' == s'.(hist := s.hist, iowait := s.iowait);
    }
  }

  /** Taking control: the fiber leaves the batch; inside dfk_mutex_lock it finds itself the owner. */
  lemma SwitchToCore(s: State)
    requires Core(s) && s.phase == Dispatching && s.batch != []
    ensures Core(SwitchTo(s)) && SwitchTo(s).owner == s.owner
    ensures var f := s.batch[0]; f in s.pc && (s.pc[f].Locking? ==> Owns(s, f, s.pc[f].m))
  {
    var f, s' := s.batch[0], SwitchTo(s);
    assert f in Q(s, Batch) && s.fds == Q(s, IoList) && s'.fds == Q(s', IoList);
    CorePending(s, Batch, f);
    SwitchedPlaced(s);
    hide Placed, NoDup, Q;
    LocatedFrame(s, s', f);
    MutexesFrame(s, s');
    WokenFrame(s, s');
    HeadOver(s.hist.dispatched, s.batch, s.pending);
  }

  lemma HeadOver(x: seq<Fiber>, y: seq<Fiber>, z: seq<Fiber>)
    requires y != []
    ensures x + [y[0]] + y[1..] + z == x + y + z
  {
  }

  lemma SwitchedPlaced(s: State)
    requires Placed(s) && s.phase == Dispatching && s.batch != []
    ensures Placed(SwitchTo(s)) && forall q | q != Batch :: Q(SwitchTo(s), q) == Q(s, q)
  {
    var f, s' := s.batch[0], SwitchTo(s);
    hide NoDup, Rehomed;
    assert Q(s, Batch) == s.batch && f in Q(s, Batch);
    forall q
      ensures Rehomed(s, s', f, OnCpu, q)
    {
      HeadLeaves(s, s', Batch, OnCpu, q);
    }
    RehomedPlaced(s, s', f, OnCpu);
  }

  /** The head of `q` has left it for nowhere else. */
  lemma HeadLeaves(s: State, s': State, q: Queue, h: Home, p: Queue)
    requires Placed(s) && Q(s, q) != [] && !h.In?
    requires Q(s', p) == if p == q then Q(s, q)[1..] else Q(s, p)
    ensures Rehomed(s, s', Q(s, q)[0], h, p)
  {
    hide Q;
    var f, x := Q(s, q)[0], Q(s, q);
    assert x == [f] + x[1..] && f in x;
    Elsewhere(s, q, f, p);
  }

  lemma FreedPlaced(s: State)
    requires Placed(s) && s.terminated != []
    ensures Placed(FreeOne(s)) && forall q | q != Terminated :: Q(FreeOne(s), q) == Q(s, q)
  {
    hide NoDup, Rehomed;
    var f, s' := s.terminated[0], FreeOne(s);
    assert Q(s, Terminated) == s.terminated && f in Q(s, Terminated);
    forall q
      ensures Rehomed(s, s', f, Freed, q)
    {
      HeadLeaves(s, s', Terminated, Freed, q);
    }
    RehomedPlaced(s, s', f, Freed);
  }

  lemma FreedNow(s: State, s': State, f: Fiber)
    requires FreedOnce(s) && f in s.home && s.home[f] != Freed
    requires s'.home == s.home[f := Freed] && s'.hist.freed == s.hist.freed + [f]
    ensures FreedOnce(s')
  {
    AppendNoDup(s.hist.freed, f);
    hide NoDup;
    assert forall g :: g in s'.hist.freed <==> g in s.hist.freed || g == f;
  }

  lemma FreeOneCore(s: State)
    requires Core(s) && s.terminated != []
    ensures Core(FreeOne(s))
  {
    var f, s' := s.terminated[0], FreeOne(s);
    assert f in Q(s, Terminated) && s.fds == Q(s, IoList) && s'.fds == Q(s', IoList);
    CorePending(s, Terminated, f);
    FreedPlaced(s);
    hide Placed, NoDup, Q;
    FreedNow(s, s', f);
    LocatedFrame(s, s', f);
    MutexesFrame(s, s');
    WokenFrame(s, s');
  }

  lemma {:induction false} FreeAllCore(s: State)
    requires Core(s)
    ensures var s' := FreeAll(s);
      && Core(s') && s'.terminated == [] && s'.hist.freed == s.hist.freed + s.terminated
      && s' == s.(terminated := [], home := s'.home, hist := s.hist.(freed := s'.hist.freed))
    decreases |s.terminated|
  {
    if s.terminated != [] {
      FreeOneCore(s);
      FreeAllCore(FreeOne(s));
      assert s.terminated == [s.terminated[0]] + s.terminated[1..];
    }
  }

  lemma TakeBatchPlaced(s: State)
    requires Placed(s) && s.phase == SchedulerTop && s.batch == []
    ensures Placed(TakeBatch(s))
  {
    var s' := TakeBatch(s);
    hide NoDup;
    assert forall q :: Q(s', q) == if q == Batch then Q(s, Pending) else if q == Pending then [] else Q(s, q);
    assert Q(s, Batch) == [];
    hide Q;
    forall q, f
      ensures f in Q(s', q) <==> f in s'.home && s'.home[f] == In(q)
    {
      assert f in Q(s, q) <==> f in s.home && s.home[f] == In(q);
      assert f in Q(s, Pending) <==> f in s.home && s.home[f] == In(Pending);
      assert f !in Q(s, Batch);
    }
    forall q
      ensures NoDup(Q(s', q))
    {
      assert NoDup(Q(s, q)) && NoDup(Q(s, Pending)) && NoDup(Q(s, Batch));
    }
  }

  lemma TakeBatchLocated(s: State)
    requires Located(s)
    ensures Located(TakeBatch(s))
  {
    forall f | f in TakeBatch(s).home
      ensures PcFits(TakeBatch(s), f)
    {
      assert PcFits(s, f);
    }
  }

  lemma TakeBatchCore(s: State)
    requires Core(s) && s.phase == SchedulerTop && s.batch == []
    ensures Core(TakeBatch(s))
  {
    hide Placed, Located, NoDup;
    TakeBatchPlaced(s);
    TakeBatchLocated(s);
    MutexesFrame(s, TakeBatch(s));
    WokenFrame(s, TakeBatch(s));
  }

  lemma SpawnPlaced(s: State, g: Fiber)
    requires Placed(s) && s.phase.Run? && g !in s.home
    ensures Placed(Step(s, Spawn(g))) && g !in s.pc
  {
    hide NoDup, Rehomed;
    var s' := Step(s, Spawn(g));
    assert forall p :: Q(s', p) == if p == Pending then Q(s, p) + [g] else Q(s, p);
    forall q
      ensures Rehomed(s, s', g, In(Pending), q)
    {
      AppendRehomes(s, s', g, Pending, q);
    }
    RehomedPlaced(s, s', g, In(Pending));
  }

  lemma SpawnCore(s: State, g: Fiber)
    requires Core(s) && s.phase.Run? && g !in s.home
    ensures Core(Step(s, Spawn(g)))
  {
    hide Placed, NoDup;
    var s' := Step(s, Spawn(g));
    SpawnPlaced(s, g);
    LocatedFrame(s, s', g);
    MutexesFrame(s, s');
    WokenFrame(s, s');
    assert s.hist.enqueued + [g] == s.hist.dispatched + s.batch + (s.pending + [g]);
  }

  lemma {:induction false} WakeAllCore(s: State, c: CondId)
    requires Core(s)
    ensures var s' := WakeAll(s, c);
      Core(s') && s'.phase == s.phase && s'.batch == s.batch && s'.fds == s.fds && s'.terminated == s.terminated
    decreases |Q(s, CondQ(c))|
  {
    if Q(s, CondQ(c)) != [] {
      WakeCore(s, c);
      WakeMoves(s, c);
      assert Q(Wake(s, c), Batch) == Q(s, Batch) && Q(Wake(s, c), Terminated) == Q(s, Terminated);
      WakeAllCore(Wake(s, c), c);
    }
  }

  function Kept(x: seq<Fiber>, ready: set<Fiber>): seq<Fiber> {
    if x == [] then [] else if x[0] in ready then Kept(x[1..], ready) else [x[0]] + Kept(x[1..], ready)
  }

  function Ready(x: seq<Fiber>, ready: set<Fiber>): seq<Fiber> {
    if x == [] then [] else if x[0] in ready then [x[0]] + Ready(x[1..], ready) else Ready(x[1..], ready)
  }

  lemma {:induction false} WithoutMiddle(x: seq<Fiber>, f: Fiber, y: seq<Fiber>)
    requires f !in x
    ensures Without(x + [f] + y, f) == x + y
  {
    var w := x + [f] + y;
    if x == [] {
      assert w == [f] + y;
    } else {
      assert w[0] == x[0] && w[1..] == x[1..] + [f] + y;
      WithoutMiddle(x[1..], f, y);
      assert [x[0]] + (x[1..] + y) == x + y;
    }
  }

  lemma NoDupMiddle(x: seq<Fiber>, f: Fiber, y: seq<Fiber>)
    requires NoDup(x + [f] + y)
    ensures f !in x
  {
    var w := x + [f] + y;
    assert w[|x|] == f && forall i | 0 <= i < |x| :: w[i] == x[i];
  }

  lemma IoResumeMiddle(s: State, done: seq<Fiber>, f: Fiber, rest: seq<Fiber>)
    requires Core(s) && s.fds == done + [f] + rest
    ensures var s' := IoResume(s, f);
      Core(s') && s'.fds == done + rest && s'.pending == s.pending + [f] && s'.phase == s.phase && s'.batch == s.batch
  {
    assert s.fds[|done|] == f;
    IoResumeCore(s, f);
    assert NoDup(Q(s, IoList));
    NoDupMiddle(done, f, rest);
    WithoutMiddle(done, f, rest);
  }

  ghost predicate Scanned(s: State, s': State, done: seq<Fiber>, todo: seq<Fiber>, ready: set<Fiber>) {
    && s'.fds == done + Kept(todo, ready) && s'.pending == s.pending + Ready(todo, ready)
    && s'.phase == s.phase && s'.batch == s.batch
  }

  /** The ready scan resumes exactly the ready fibers, in list order, and keeps the others in order. */
  lemma {:induction false} ReadyScanIs(s: State, done: seq<Fiber>, todo: seq<Fiber>, ready: set<Fiber>)
    requires Core(s) && s.fds == done + todo
    ensures Core(ReadyScan(s, todo, ready)) && Scanned(s, ReadyScan(s, todo, ready), done, todo, ready)
    decreases |todo|
  {
    if todo == [] {
      assert s.pending + [] == s.pending && done + [] == done;
    } else {
      var f, rest := todo[0], todo[1..];
      Regroup(done, f, rest, todo);
      if f in ready {
        IoResumeMiddle(s, done, f, rest);
        ReadyScanIs(IoResume(s, f), done, rest, ready);
        Regroup(s.pending, f, Ready(rest, ready), Ready(todo, ready));
      } else {
        ReadyScanIs(s, done + [f], rest, ready);
        Regroup(done, f, Kept(rest, ready), Kept(todo, ready));
      }
    }
  }

  lemma Regroup(x: seq<Fiber>, f: Fiber, y: seq<Fiber>, z: seq<Fiber>)
    requires z == [f] + y
    ensures x + z == x + [f] + y && f in x + z
  {
    assert (x + z)[|x|] == f;
  }

  // ---- Every transition, every run ----

  lemma StepInv(s: State, a: Action)
    requires Inv(s) && Enabled(s, a)
    ensures Inv(Step(s, a))
  {
    match a
    case Iterate => IterateInv(s);
    case Dispatch => DispatchInv(s);
    case EndBatch => EndBatchInv(s);
    case Select(ready) => SelectInv(s, ready);
    case SelectNone => SameInv(s, Step(s, a));
    case _ => RunningInv(s, a);
  }

  lemma DispatchInv(s: State)
    requires Inv(s) && Enabled(s, Dispatch)
    ensures Inv(Step(s, Dispatch))
  {
    SwitchToCore(s);
    if s.pc[s.batch[0]].Waiting? {
      LockStepCore(SwitchTo(s), s.pc[s.batch[0]].m, Some(s.pc[s.batch[0]].c));
    }
  }

  /** Whatever the running fiber does. */
  lemma RunningInv(s: State, a: Action)
    requires Inv(s) && Enabled(s, a) && s.phase.Run?
    ensures Inv(Step(s, a))
  {
    hide Inv, Step;
    if a.Lock? {
      LockInv(s, a.m);
    } else if a.TryLock? {
      TryLockInv(s, a.m);
    } else if a.Unlock? {
      UnlockInv(s, a.m);
    } else if a.Wait? {
      WaitInv(s, a.c, a.m);
    } else if a.Signal? {
      SignalInv(s, a.c);
    } else if a.Broadcast? {
      BroadcastInv(s, a.c);
    } else if a.Spawn? {
      SpawnInv(s, a.g);
    } else if a.Resume? {
      ResumeInv(s, a.g);
    } else {
      LeaveInv(s, a);
    }
  }

  lemma LockInv(s: State, m: MutexId)
    requires Inv(s) && s.phase.Run?
    ensures Inv(Step(s, Lock(m)))
  {
    hide Core;
    LockStepCore(s, m, None);
  }

  lemma UnlockInv(s: State, m: MutexId)
    requires Inv(s) && Enabled(s, Unlock(m))
    ensures Inv(Step(s, Unlock(m)))
  {
    hide Core, Release;
    ReleaseCore(s, m);
  }

  lemma SignalInv(s: State, c: CondId)
    requires Inv(s) && s.phase.Run?
    ensures Inv(Step(s, Signal(c)))
  {
    hide Core;
    if Q(s, CondQ(c)) != [] {
      WakeCore(s, c);
    }
  }

  lemma BroadcastInv(s: State, c: CondId)
    requires Inv(s) && s.phase.Run?
    ensures Inv(Step(s, Broadcast(c)))
  {
    hide Core;
    WakeAllCore(s, c);
  }

  lemma SpawnInv(s: State, g: Fiber)
    requires Inv(s) && Enabled(s, Spawn(g))
    ensures Inv(Step(s, Spawn(g)))
  {
    hide Core;
    SpawnCore(s, g);
  }

  lemma ResumeInv(s: State, g: Fiber)
    requires Inv(s) && Enabled(s, Resume(g))
    ensures Inv(Step(s, Resume(g)))
  {
    hide Core;
    ResumeCore(s, g);
  }

  lemma TryLockInv(s: State, m: MutexId)
    requires Inv(s) && s.phase.Run?
    ensures Inv(Step(s, TryLock(m)))
  {
    if m !in s.owner {
      AcquireCore(s, m, s.hist.acquires);
      assert Acquire(s, m) == Acquire(s, m).(hist := s.hist.(acquires := s.hist.acquires));
    }
  }

  lemma WaitInv(s: State, c: CondId, m: MutexId)
    requires Inv(s) && Enabled(s, Wait(c, m))
    ensures Inv(Step(s, Wait(c, m)))
  {
    var s1, s' := Release(s, m), Step(s, Wait(c, m));
    ReleaseCore(s, m);
    ParkCore(s1, CondQ(c), Waiting(c, m), s'.hist, s1.iowait);
    assert s' == Park(s1, CondQ(c), Waiting(c, m)).(hist := s'.hist, iowait := s1.iowait);
  }

  /** The transitions in which the running fiber only gives up control. */
  predicate Parks(a: Action) {
    a.Postpone? || a.Io? || a.Suspend? || a.Return?
  }

  /** Where they put the running fiber, and its code location there. */
  function ParksIn(a: Action): (Queue, Pc)
    requires Parks(a)
  {
    match a
    case Postpone => (Pending, Postponed)
    case Io => (IoList, InIo)
    case Suspend => (RawList, Suspended)
    case Return => (Terminated, Done)
  }

  lemma ParkIs(s: State, a: Action)
    requires s.phase.Run? && Parks(a)
    ensures var ((q, pc), s') := (ParksIn(a), Step(s, a));
      && s' == Park(s, q, pc).(hist := s'.hist, iowait := s'.iowait) && ParkFits(s, q, pc, s'.hist, s'.iowait)
      && s'.hist == s.hist.(enqueued := s'.hist.enqueued)
  {
    hide Q;
  }

  lemma LeaveInv(s: State, a: Action)
    requires Inv(s) && s.phase.Run? && Parks(a)
    ensures Inv(Step(s, a))
  {
    hide Core, Step, ParkFits;
    ParkIs(s, a);
    var s' := Step(s, a);
    ParkCore(s, ParksIn(a).0, ParksIn(a).1, s'.hist, s'.iowait);
  }

  lemma IterateInv(s: State)
    requires Inv(s) && s.phase == SchedulerTop
    ensures Inv(Step(s, Iterate))
  {
    if s.terminated == [] && s.pending == [] && s.iowait == 0 {
      var s' := Step(s, Iterate);
      SameInv(s, s');
    } else {
      FreeAllCore(s);
      TakeBatchCore(FreeAll(s));
    }
  }

  lemma EndBatchInv(s: State)
    requires Inv(s) && s.phase == Dispatching && s.batch == []
    ensures Inv(Step(s, EndBatch))
  {
    SameInv(s, Step(s, EndBatch));
  }

  /** Only control has changed hands, and not to or from a fiber. */
  lemma SameInv(s: State, s': State)
    requires Core(s) && s' == s.(phase := s'.phase) && !s.phase.Run? && !s'.phase.Run?
    ensures Core(s')
  {
    assert forall q :: Q(s', q) == Q(s, q);
    forall q, f
      ensures f in Q(s', q) <==> f in s'.home && s'.home[f] == In(q)
    {
      assert f in Q(s, q) <==> f in s.home && s.home[f] == In(q);
    }
    forall f
      ensures !(f in s'.home && s'.home[f] == OnCpu)
    {
      assert f in s.home && s.home[f] == OnCpu <==> s.phase == Run(f);
    }
    forall f | f in s'.home
      ensures PcFits(s', f)
    {
      assert PcFits(s, f);
    }
    MutexesFrame(s, s');
    WokenFrame(s, s');
  }

  lemma SelectInv(s: State, ready: set<Fiber>)
    requires Inv(s) && s.phase == EventLoop
    ensures Inv(Step(s, Select(ready)))
  {
    assert [] + s.fds == s.fds;
    ReadyScanIs(s, [], s.fds, ready);
    var s1 := ReadyScan(s, s.fds, ready);
    if s1.fds != s.fds {
      SameInv(s1, s1.(phase := SchedulerTop));
    }
  }

  lemma InitInv(mainFiber: Fiber)
    ensures Inv(Init(mainFiber))
  {
  }

  /** The invariant holds along every run. */
  lemma {:induction false} RunsInv(s: State, acts: seq<Action>, s': State)
    requires Inv(s) && Runs(s, acts, s')
    ensures Inv(s')
    decreases |acts|
  {
    if acts != [] {
      StepInv(s, acts[0]);
      RunsInv(Step(s, acts[0]), acts[1..], s');
    }
  }

  /** A state some run from the start leads to. */
  ghost predicate Reachable(s: State) {
    exists mainFiber, acts :: Runs(Init(mainFiber), acts, s)
  }

  lemma ReachableInv(s: State)
    requires Reachable(s)
    ensures Inv(s)
  {
    var mainFiber, acts :| Runs(Init(mainFiber), acts, s);
    InitInv(mainFiber);
    RunsInv(Init(mainFiber), acts, s);
  }
}
