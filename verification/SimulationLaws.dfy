/** What the reports of a simulation mean, told by the instructions alone. */
module SimulationLaws {
  import opened Common
  import opened Simulator

  // ---- Live coroutines ----

  /** Born at `i` and not terminated later. */
  ghost predicate BornAt(tasks: seq<Task>, c: CoroId, i: int) {
    0 <= i < |tasks| && tasks[i].effect == Spawn(c) && forall j | i < j < |tasks| :: tasks[j].effect != Terminate(c)
  }

  ghost predicate Spared(tasks: seq<Task>, c: CoroId) {
    forall j | 0 <= j < |tasks| :: tasks[j].effect != Terminate(c)
  }

  /** A coroutine is live after some instructions exactly when one of them spawned it, or it was live
      before, and none since has terminated it. */
  lemma {:induction false} LiveIff(live: set<CoroId>, tasks: seq<Task>, c: CoroId)
    ensures c in AllAfter(live, tasks) <==> (c in live && Spared(tasks, c)) || exists i :: BornAt(tasks, c, i)
  {
    if tasks != [] {
      var n := |tasks| - 1;
      var p := tasks[..n];
      LiveIff(live, p, c);
      assert Spared(tasks, c) <==> Spared(p, c) && tasks[n].effect != Terminate(c);
      forall i | i < n
        ensures BornAt(tasks, c, i) <==> BornAt(p, c, i) && tasks[n].effect != Terminate(c)
      {
      }
      assert BornAt(tasks, c, n) <==> tasks[n].effect == Spawn(c);
      assert forall i :: BornAt(p, c, i) ==> i < n;
      assert forall i :: BornAt(tasks, c, i) ==> i <= n;
    }
  }

  // ---- CPUs after a turn ----

  /** The instruction mapped to a CPU is what it runs; a CPU nothing is mapped to stays as it was. */
  lemma {:induction false} LoadedLaw(vs: seq<Load>, now: nat, tasks: seq<Task>)
    requires OnCpus(tasks, |vs|) && OneEach(tasks)
    ensures forall t | t in tasks :: Loaded(vs, now, tasks)[t.cpu] == Load(now + t.duration, true)
    ensures forall i | 0 <= i < |vs| && Unmapped(tasks, i) :: Loaded(vs, now, tasks)[i] == vs[i]
  {
    if tasks != [] {
      var n := |tasks| - 1;
      var p := tasks[..n];
      assert tasks[n] in tasks && forall t | t in p :: t in tasks;
      LoadedLaw(vs, now, p);
      forall t | t in tasks
        ensures Loaded(vs, now, tasks)[t.cpu] == Load(now + t.duration, true)
      {
        var i :| 0 <= i < |tasks| && tasks[i] == t;
        assert i < n ==> p[i] == t && t.cpu != tasks[n].cpu;
      }
      assert forall i | Unmapped(tasks, i) :: Unmapped(p, i) && tasks[n].cpu != i;
    }
  }

  ghost predicate Unmapped(tasks: seq<Task>, cpu: nat) {
    forall t | t in tasks :: t.cpu != cpu
  }

  lemma {:induction false} RanLaw(ran: seq<Option<CoroId>>, tasks: seq<Task>)
    requires OnCpus(tasks, |ran|) && OneEach(tasks)
    ensures forall t | t in tasks :: RanAfter(ran, tasks)[t.cpu] == Some(t.coro)
    ensures forall i | 0 <= i < |ran| && Unmapped(tasks, i) :: RanAfter(ran, tasks)[i] == ran[i]
  {
    if tasks != [] {
      var n := |tasks| - 1;
      var p := tasks[..n];
      assert tasks[n] in tasks && forall t | t in p :: t in tasks;
      RanLaw(ran, p);
      forall t | t in tasks
        ensures RanAfter(ran, tasks)[t.cpu] == Some(t.coro)
      {
        var i :| 0 <= i < |tasks| && tasks[i] == t;
        assert i < n ==> p[i] == t && t.cpu != tasks[n].cpu;
      }
      assert forall i | Unmapped(tasks, i) :: Unmapped(p, i) && tasks[n].cpu != i;
    }
  }

  /** The last instruction mapped to a CPU before turn `k` is `t`, in turn `i`. */
  ghost predicate LastTo(rounds: seq<seq<Task>>, k: nat, cpu: nat, i: int, t: Task) {
    0 <= i < k <= |rounds| && t in rounds[i] && t.cpu == cpu && forall j | i < j < k :: Unmapped(rounds[j], cpu)
  }

  /** The coroutine a CPU runs or ran last is that of the last instruction mapped to it. */
  lemma {:induction false} LastRan(program: CoroId, ncpu: nat, rounds: seq<seq<Task>>, ms: seq<Moment>, k: nat, cpu: nat)
    requires AllFit(rounds, ncpu) && Trace(program, ncpu, rounds, ms) && k < |ms| && cpu < ncpu
    ensures |ms[k].ran| == ncpu
    ensures (forall j | 0 <= j < k :: Unmapped(rounds[j], cpu)) ==> ms[k].ran[cpu] == None
    ensures forall i, t | LastTo(rounds, k, cpu, i, t) :: ms[k].ran[cpu] == Some(t.coro)
  {
    assert ms[k] in ms;
    if k > 0 {
      LastRan(program, ncpu, rounds, ms, k - 1, cpu);
      TurnRan(program, ncpu, rounds, ms, k - 1);
      hide Trace, AllFit, OnCpus, Unmapped;
      forall i, t | LastTo(rounds, k, cpu, i, t)
        ensures ms[k].ran[cpu] == Some(t.coro)
      {
        assert i < k - 1 ==> LastTo(rounds, k - 1, cpu, i, t);
      }
    }
  }

  lemma TurnRan(program: CoroId, ncpu: nat, rounds: seq<seq<Task>>, ms: seq<Moment>, k: nat)
    requires AllFit(rounds, ncpu) && Trace(program, ncpu, rounds, ms) && k + 1 < |ms|
    ensures |ms[k].ran| == |ms[k + 1].ran| == ncpu
    ensures forall t | t in rounds[k] :: t.cpu < ncpu && ms[k + 1].ran[t.cpu] == Some(t.coro)
    ensures forall i | 0 <= i < ncpu && Unmapped(rounds[k], i) :: ms[k + 1].ran[i] == ms[k].ran[i]
  {
    assert ms[k] in ms && ms[k + 1] in ms && rounds[k] in rounds && Next(ncpu, rounds, ms, k);
    RanLaw(ms[k].ran, rounds[k]);
    hide RanAfter, Start, NextDue, Accepted, Loaded;
  }

  // ---- How long a simulation takes ----

  /** The instruction `t` of turn `j` is over at `e`. */
  ghost predicate OverAt(rounds: seq<seq<Task>>, ms: seq<Moment>, j: int, t: Task, e: int) {
    0 <= j < |rounds| && j < |ms| && t in rounds[j] && ms[j].now + t.duration == e
  }

  /** Some instruction of the turns before `k` is over at `e`. */
  ghost predicate Awaited(rounds: seq<seq<Task>>, ms: seq<Moment>, k: nat, e: int) {
    exists j, t :: j < k && OverAt(rounds, ms, j, t, e)
  }

  /** Every instruction of the turns before `k` is over, or its CPU still runs it. */
  ghost predicate OverOrRun(rounds: seq<seq<Task>>, ms: seq<Moment>, k: nat, now: nat, loads: seq<Load>) {
    forall j, t, e | OverAt(rounds, ms, j, t, e) && j < k :: e <= now || (t.cpu < |loads| && loads[t.cpu] == Load(e, true))
  }

  /** What CPUs are due for, and what time it is, is when some instruction is over. */
  ghost predicate AllAwaited(rounds: seq<seq<Task>>, ms: seq<Moment>, k: nat, now: nat, loads: seq<Load>) {
    (now > 0 ==> Awaited(rounds, ms, k, now)) && forall v | v in loads && v.due > 0 :: Awaited(rounds, ms, k, v.due)
  }

  ghost predicate Accounted(rounds: seq<seq<Task>>, ms: seq<Moment>, k: nat, now: nat, loads: seq<Load>) {
    OverOrRun(rounds, ms, k, now, loads) && AllAwaited(rounds, ms, k, now, loads)
  }

  lemma TurnAccounted(ncpu: nat, rounds: seq<seq<Task>>, ms: seq<Moment>, k: nat)
    requires AllFit(rounds, ncpu) && k < |ms| && k < |rounds| && Sized(ms[k], ncpu) && Accepted(ms[k], rounds[k])
    requires Accounted(rounds, ms, k, ms[k].now, ms[k].loads)
    ensures Accounted(rounds, ms, k + 1, ms[k].now, LoadsAfter(ms[k], rounds[k]))
  {
    assert rounds[k] in rounds;
    hide OverOrRun, AllAwaited, LoadsAfter, Accepted, OneEach;
    TurnRuns(rounds, ms, k);
    TurnAwaited(rounds, ms, k);
  }

  lemma TurnRuns(rounds: seq<seq<Task>>, ms: seq<Moment>, k: nat)
    requires k < |ms| && k < |rounds| && Fits(ms[k], rounds[k]) && OneEach(rounds[k]) && Accepted(ms[k], rounds[k])
    requires OverOrRun(rounds, ms, k, ms[k].now, ms[k].loads)
    ensures OverOrRun(rounds, ms, k + 1, ms[k].now, LoadsAfter(ms[k], rounds[k]))
  {
    var m, ws := ms[k], LoadsAfter(ms[k], rounds[k]);
    CpusAfter(m, rounds[k]);
    hide LoadsAfter, Accepted, OneEach;
    forall j, t, e | OverAt(rounds, ms, j, t, e) && j < k + 1
      ensures e <= m.now || (t.cpu < |ws| && ws[t.cpu] == Load(e, true))
    {
      if j < k && e > m.now {
        assert m.loads[t.cpu] == Load(e, true);
      }
    }
  }

  lemma TurnAwaited(rounds: seq<seq<Task>>, ms: seq<Moment>, k: nat)
    requires k < |ms| && k < |rounds| && Fits(ms[k], rounds[k]) && OneEach(rounds[k]) && Accepted(ms[k], rounds[k])
    requires AllAwaited(rounds, ms, k, ms[k].now, ms[k].loads)
    ensures AllAwaited(rounds, ms, k + 1, ms[k].now, LoadsAfter(ms[k], rounds[k]))
  {
    var m, tasks, ws := ms[k], rounds[k], LoadsAfter(ms[k], rounds[k]);
    CpusAfter(m, tasks);
    hide LoadsAfter, Accepted, OneEach, Awaited;
    AwaitedLonger(rounds, ms, k, m.now);
    forall v | v in ws && v.due > 0
      ensures Awaited(rounds, ms, k + 1, v.due)
    {
      var i :| 0 <= i < |ws| && ws[i] == v;
      if Unmapped(tasks, i) {
        assert m.loads[i] == v && v in m.loads;
        AwaitedLonger(rounds, ms, k, v.due);
      } else {
        var t :| t in tasks && t.cpu == i;
        AwaitedNow(rounds, ms, k, t);
      }
    }
  }

  lemma AwaitedLonger(rounds: seq<seq<Task>>, ms: seq<Moment>, k: nat, e: int)
    ensures Awaited(rounds, ms, k, e) ==> Awaited(rounds, ms, k + 1, e)
  {
  }

  lemma AwaitedNow(rounds: seq<seq<Task>>, ms: seq<Moment>, k: nat, t: Task)
    requires k < |ms| && k < |rounds| && t in rounds[k]
    ensures Awaited(rounds, ms, k + 1, ms[k].now + t.duration)
  {
    assert OverAt(rounds, ms, k, t, ms[k].now + t.duration);
  }

  /** In a turn that is accepted, a CPU that burns goes on; another takes the instruction mapped to it, if any. */
  lemma CpusAfter(m: Moment, tasks: seq<Task>)
    requires Fits(m, tasks) && OneEach(tasks) && Accepted(m, tasks)
    ensures forall t | t in tasks :: LoadsAfter(m, tasks)[t.cpu] == Load(m.now + t.duration, true)
    ensures forall i | 0 <= i < |m.loads| && Burns(m.loads[i], m.now) :: LoadsAfter(m, tasks)[i] == m.loads[i]
    ensures forall i | 0 <= i < |m.loads| && Unmapped(tasks, i) :: LoadsAfter(m, tasks)[i] in {m.loads[i], Load(0, false)}
  {
    LoadedLaw(LetGo(m.loads, m.now), m.now, tasks);
    hide Loaded, OneEach;
    forall i | 0 <= i < |m.loads| && Burns(m.loads[i], m.now)
      ensures Unmapped(tasks, i)
    {
    }
  }

  lemma {:induction false} AllAccounted(program: CoroId, ncpu: nat, rounds: seq<seq<Task>>, ms: seq<Moment>, k: nat)
    requires AllFit(rounds, ncpu) && Trace(program, ncpu, rounds, ms) && k < |ms|
    ensures Sized(ms[k], ncpu) && Accounted(rounds, ms, k, ms[k].now, ms[k].loads)
  {
    hide Awaited;
    assert ms[k] in ms;
    if k > 0 {
      AllAccounted(program, ncpu, rounds, ms, k - 1);
      assert Next(ncpu, rounds, ms, k - 1) && rounds[k - 1] in rounds && ms[k - 1] in ms;
      TurnAccounted(ncpu, rounds, ms, k - 1);
      TimeAccounted(rounds, ms, k, ms[k - 1].now, ms[k].now, ms[k].loads);
    }
  }

  lemma TimeAccounted(rounds: seq<seq<Task>>, ms: seq<Moment>, k: nat, now: nat, next: nat, loads: seq<Load>)
    requires Accounted(rounds, ms, k, now, loads) && NextDue(loads, now, next)
    ensures Accounted(rounds, ms, k, next, loads)
  {
    hide Awaited;
    var i :| 0 <= i < |loads| && loads[i].due == next;
    assert loads[i] in loads;
  }

  /** A simulation that comes to its end has taken exactly as long as until the last instruction was over. */
  lemma ElapsedIs(program: CoroId, ncpu: nat, rounds: seq<seq<Task>>, ms: seq<Moment>)
    requires AllFit(rounds, ncpu) && Trace(program, ncpu, rounds, ms) && Ends(ncpu, rounds, ms)
    ensures var end := Report(ncpu, rounds, ms).elapsed;
      && (forall j, t, e | OverAt(rounds, ms, j, t, e) :: e <= end)
      && (end > 0 ==> exists j, t :: OverAt(rounds, ms, j, t, end))
  {
    var k := |ms| - 1;
    AllAccounted(program, ncpu, rounds, ms, k);
    TurnAccounted(ncpu, rounds, ms, k);
    var ws := LoadsAfter(ms[k], rounds[k]);
    assert forall i | 0 <= i < |ws| :: ws[i] in ws && !Burns(ws[i], ms[k].now);
  }

  // ---- When a simulation ends ----

  /** All instructions of some turns, in order. */
  ghost function Instructions(rounds: seq<seq<Task>>): seq<Task> {
    if rounds == [] then [] else Instructions(rounds[..|rounds| - 1]) + rounds[|rounds| - 1]
  }

  lemma {:induction false} LiveTwice(live: set<CoroId>, x: seq<Task>, y: seq<Task>)
    ensures AllAfter(live, x + y) == AllAfter(AllAfter(live, x), y)
  {
    if y == [] {
      assert x + y == x;
    } else {
      var n := |y| - 1;
      assert (x + y)[..|x| + n] == x + y[..n] && (x + y)[|x| + n] == y[n];
      LiveTwice(live, x, y[..n]);
    }
  }

  lemma {:induction false} LiveAt(program: CoroId, ncpu: nat, rounds: seq<seq<Task>>, ms: seq<Moment>, k: nat)
    requires AllFit(rounds, ncpu) && Trace(program, ncpu, rounds, ms) && k < |ms|
    ensures ms[k].live == AllAfter({program}, Instructions(rounds[..k]))
  {
    assert ms[k] in ms;
    if k > 0 {
      LiveAt(program, ncpu, rounds, ms, k - 1);
      assert ms[k - 1] in ms && Next(ncpu, rounds, ms, k - 1) && rounds[..k][..k - 1] == rounds[..k - 1];
      LiveTwice({program}, Instructions(rounds[..k - 1]), rounds[k - 1]);
    }
  }

  /** The program or a coroutine it spawned is left after the instructions `tasks`. */
  ghost predicate Left(program: CoroId, tasks: seq<Task>, c: CoroId) {
    (c == program && Spared(tasks, c)) || exists i :: BornAt(tasks, c, i)
  }

  /** In a turn, no CPU is mapped or left burning exactly when everything is over. */
  lemma QuietIff(ncpu: nat, rounds: seq<seq<Task>>, ms: seq<Moment>)
    requires AllFit(rounds, ncpu) && 0 < |ms| <= |rounds| && Sized(ms[|ms| - 1], ncpu)
    requires var m := ms[|ms| - 1]; Accounted(rounds, ms, |ms| - 1, m.now, m.loads)
    ensures var (m, tasks) := (ms[|ms| - 1], rounds[|ms| - 1]);
      (Accepted(m, tasks) && forall v | v in LoadsAfter(m, tasks) :: !Burns(v, m.now))
      <==> forall j, t, e | OverAt(rounds, ms, j, t, e) :: e <= m.now
  {
    var k := |ms| - 1;
    var m, tasks := ms[k], rounds[k];
    assert tasks in rounds;
    if Accepted(m, tasks) && forall v | v in LoadsAfter(m, tasks) :: !Burns(v, m.now) {
      TurnAccounted(ncpu, rounds, ms, k);
      assert forall i | 0 <= i < |LoadsAfter(m, tasks)| :: LoadsAfter(m, tasks)[i] in LoadsAfter(m, tasks);
    }
    if forall j, t, e | OverAt(rounds, ms, j, t, e) :: e <= m.now {
      AllQuiet(ncpu, rounds, ms);
    }
  }

  lemma AllQuiet(ncpu: nat, rounds: seq<seq<Task>>, ms: seq<Moment>)
    requires AllFit(rounds, ncpu) && 0 < |ms| <= |rounds| && Sized(ms[|ms| - 1], ncpu)
    requires var m := ms[|ms| - 1]; AllAwaited(rounds, ms, |ms| - 1, m.now, m.loads)
    requires forall j, t, e | OverAt(rounds, ms, j, t, e) :: e <= ms[|ms| - 1].now
    ensures var (m, tasks) := (ms[|ms| - 1], rounds[|ms| - 1]);
      Accepted(m, tasks) && forall v | v in LoadsAfter(m, tasks) :: !Burns(v, m.now)
  {
    var k := |ms| - 1;
    var m, tasks := ms[k], rounds[k];
    assert tasks in rounds;
    forall i | 0 <= i < |m.loads|
      ensures !Burns(m.loads[i], m.now)
    {
      assert m.loads[i] in m.loads;
    }
    CpusAfter(m, tasks);
    hide LoadsAfter, AllAwaited, AllFit, OneEach;
    forall v | v in LoadsAfter(m, tasks)
      ensures !Burns(v, m.now)
    {
      var i :| 0 <= i < |LoadsAfter(m, tasks)| && LoadsAfter(m, tasks)[i] == v;
      if !Unmapped(tasks, i) {
        var t :| t in tasks && t.cpu == i;
        assert OverAt(rounds, ms, k, t, m.now + t.duration);
      }
    }
  }

  /** A simulation ends with the first turn after whose instructions none of all instructions is
      still to be over and no coroutine is left. */
  lemma EndsIff(program: CoroId, ncpu: nat, rounds: seq<seq<Task>>, ms: seq<Moment>)
    requires AllFit(rounds, ncpu) && Trace(program, ncpu, rounds, ms)
    ensures var n := |ms|;
      Ends(ncpu, rounds, ms) <==> n <= |rounds| && (forall c :: !Left(program, Instructions(rounds[..n]), c))
                                  && forall j, t, e | OverAt(rounds, ms, j, t, e) :: e <= ms[n - 1].now
  {
    var k := |ms| - 1;
    AllAccounted(program, ncpu, rounds, ms, k);
    if |ms| <= |rounds| {
      QuietIff(ncpu, rounds, ms);
      LiveAfter(program, ncpu, rounds, ms, k);
      NobodyLeft(program, Instructions(rounds[..k + 1]));
      hide Trace, AllFit, Left, Accepted, LoadsAfter, AllAfter, Instructions, Accounted, OverAt;
      var quiet := forall v | v in LoadsAfter(ms[k], rounds[k]) :: !Burns(v, ms[k].now);
      assert Over(ms[k], rounds[k]) <==> Accepted(ms[k], rounds[k]) && AllAfter(ms[k].live, rounds[k]) == {} && quiet;
    }
  }

  lemma LiveAfter(program: CoroId, ncpu: nat, rounds: seq<seq<Task>>, ms: seq<Moment>, k: nat)
    requires AllFit(rounds, ncpu) && Trace(program, ncpu, rounds, ms) && k < |ms| && k < |rounds|
    ensures AllAfter(ms[k].live, rounds[k]) == AllAfter({program}, Instructions(rounds[..k + 1]))
  {
    LiveAt(program, ncpu, rounds, ms, k);
    assert rounds[..k + 1][..k] == rounds[..k] && rounds[..k + 1][k] == rounds[k];
    assert Instructions(rounds[..k + 1]) == Instructions(rounds[..k]) + rounds[k];
    LiveTwice({program}, Instructions(rounds[..k]), rounds[k]);
  }

  lemma NobodyLeft(program: CoroId, tasks: seq<Task>)
    ensures AllAfter({program}, tasks) == {} <==> forall c :: !Left(program, tasks, c)
  {
    forall c
      ensures c in AllAfter({program}, tasks) <==> Left(program, tasks, c)
    {
      LiveIff({program}, tasks, c);
    }
  }

  // ---- Counts ----

  /** The places of a turn whose instructions go to the CPU that ran their coroutine last. */
  ghost function HitsOf(ran: seq<Option<CoroId>>, tasks: seq<Task>): set<nat>
    requires OnCpus(tasks, |ran|)
  {
    set i: nat | i < |tasks| && ran[tasks[i].cpu] == Some(tasks[i].coro)
  }

  lemma {:induction false} HitsCounted(ran: seq<Option<CoroId>>, tasks: seq<Task>)
    requires OnCpus(tasks, |ran|)
    ensures Hits(ran, tasks) == |HitsOf(ran, tasks)|
  {
    if tasks == [] {
      assert HitsOf(ran, tasks) == {};
    } else {
      var n := |tasks| - 1;
      assert tasks[n] in tasks && forall t | t in tasks[..n] :: t in tasks;
      HitsCounted(ran, tasks[..n]);
      LastHit(ran, tasks, n);
      hide HitsOf;
    }
  }

  lemma LastHit(ran: seq<Option<CoroId>>, tasks: seq<Task>, n: nat)
    requires OnCpus(tasks, |ran|) && |tasks| == n + 1 && OnCpus(tasks[..n], |ran|) && tasks[n].cpu < |ran|
    ensures |HitsOf(ran, tasks)| == |HitsOf(ran, tasks[..n])| + if ran[tasks[n].cpu] == Some(tasks[n].coro) then 1 else 0
  {
    var more: set<nat> := if ran[tasks[n].cpu] == Some(tasks[n].coro) then {n} else {};
    forall i: nat | i < |tasks|
      ensures i in HitsOf(ran, tasks) <==> i in HitsOf(ran, tasks[..n]) || i in more
    {
      assert tasks[i] in tasks && (i < n ==> tasks[..n][i] == tasks[i]);
    }
    assert HitsOf(ran, tasks) == HitsOf(ran, tasks[..n]) + more;
  }

  /** The same for all turns, by turn and place. */
  ghost function AllHitsOf(rounds: seq<seq<Task>>, ms: seq<Moment>, ncpu: nat, n: nat): set<(nat, nat)>
    requires AllFit(rounds, ncpu) && n <= |rounds| && n <= |ms| && forall m | m in ms :: Sized(m, ncpu)
  {
    set j: nat, i: nat | j < n && i < |rounds[j]| && IsHit(rounds, ms, j, i) :: (j, i)
  }

  ghost predicate IsHit(rounds: seq<seq<Task>>, ms: seq<Moment>, j: int, i: int) {
    && 0 <= j < |rounds| && j < |ms| && 0 <= i < |rounds[j]| && rounds[j][i].cpu < |ms[j].ran|
    && ms[j].ran[rounds[j][i].cpu] == Some(rounds[j][i].coro)
  }

  /** The reported hits are the instructions whose coroutine is the one their CPU ran last. */
  lemma {:induction false} AllHitsCounted(rounds: seq<seq<Task>>, ms: seq<Moment>, ncpu: nat, n: nat)
    requires AllFit(rounds, ncpu) && n <= |rounds| && n <= |ms| && forall m | m in ms :: Sized(m, ncpu)
    ensures AllHits(rounds, ms, ncpu, n) == |AllHitsOf(rounds, ms, ncpu, n)|
  {
    if n == 0 {
      assert AllHitsOf(rounds, ms, ncpu, 0) == {};
    } else {
      hide AllHitsOf, IsHit;
      AllHitsCounted(rounds, ms, ncpu, n - 1);
      MoreHits(rounds, ms, ncpu, n - 1);
    }
  }

  lemma MoreHits(rounds: seq<seq<Task>>, ms: seq<Moment>, ncpu: nat, k: nat)
    requires AllFit(rounds, ncpu) && k < |rounds| && k < |ms| && forall m | m in ms :: Sized(m, ncpu)
    ensures Fits(ms[k], rounds[k])
    ensures |AllHitsOf(rounds, ms, ncpu, k + 1)| == |AllHitsOf(rounds, ms, ncpu, k)| + Hits(ms[k].ran, rounds[k])
  {
    assert ms[k] in ms && rounds[k] in rounds;
    hide Hits, HitsOf, AllHitsOf, Placed;
    HitsCounted(ms[k].ran, rounds[k]);
    InTurn(k, HitsOf(ms[k].ran, rounds[k]));
    HitsSplit(rounds, ms, ncpu, k);
    Together(AllHitsOf(rounds, ms, ncpu, k), Placed(k, HitsOf(ms[k].ran, rounds[k])));
  }

  lemma Together(x: set<(nat, nat)>, y: set<(nat, nat)>)
    requires x !! y
    ensures |x + y| == |x| + |y|
  {
  }

  lemma HitsSplit(rounds: seq<seq<Task>>, ms: seq<Moment>, ncpu: nat, k: nat)
    requires AllFit(rounds, ncpu) && k < |rounds| && k < |ms| && forall m | m in ms :: Sized(m, ncpu)
    requires OnCpus(rounds[k], |ms[k].ran|)
    ensures AllHitsOf(rounds, ms, ncpu, k + 1) == AllHitsOf(rounds, ms, ncpu, k) + Placed(k, HitsOf(ms[k].ran, rounds[k]))
    ensures AllHitsOf(rounds, ms, ncpu, k) !! Placed(k, HitsOf(ms[k].ran, rounds[k]))
  {
    forall i | 0 <= i < |rounds[k]|
      ensures IsHit(rounds, ms, k, i) <==> i in HitsOf(ms[k].ran, rounds[k])
    {
      assert rounds[k][i] in rounds[k];
    }
  }

  ghost function Placed(j: nat, s: set<nat>): set<(nat, nat)> {
    set i | i in s :: (j, i)
  }

  lemma {:induction false} InTurn(j: nat, s: set<nat>)
    ensures |Placed(j, s)| == |s|
  {
    if s != {} {
      var i :| i in s;
      InTurn(j, s - {i});
      assert Placed(j, s) == Placed(j, s - {i}) + {(j, i)};
    }
  }

  /** The reported context switches are all instructions, the burning time their durations. */
  lemma {:induction false} AllCounted(rounds: seq<seq<Task>>)
    ensures AllTasks(rounds) == |Instructions(rounds)| && AllDurations(rounds) == Durations(Instructions(rounds))
  {
    if rounds != [] {
      var n := |rounds| - 1;
      AllCounted(rounds[..n]);
      DurationsAdd(Instructions(rounds[..n]), rounds[n]);
    }
  }

  lemma {:induction false} DurationsAdd(x: seq<Task>, y: seq<Task>)
    ensures Durations(x + y) == Durations(x) + Durations(y)
  {
    if y == [] {
      assert x + y == x;
    } else {
      var n := |y| - 1;
      assert (x + y)[..|x| + n] == x + y[..n] && (x + y)[|x| + n] == y[n];
      DurationsAdd(x, y[..n]);
    }
  }
}
