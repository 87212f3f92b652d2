/** The discrete-event simulator of the scheduling profiler: where the CPU time goes. */
module Simulator {
  import opened Common

  type CoroId = nat

  /** A scheduled instruction: who runs it on which CPU, for how long, and what it does to the
      set of live coroutines. */
  datatype Effect = Plain | Spawn(child: CoroId) | Terminate(victim: CoroId)

  datatype Task = Task(cpu: nat, coro: CoroId, duration: nat, effect: Effect)

  /** A CPU's load: when it is due, and whether it has a coroutine. */
  datatype Load = Load(due: nat, busy: bool)

  predicate Burns(v: Load, at: nat) {
    v.busy && v.due > at
  }

  /** CPU time still to be burnt by what runs at time `at`. */
  function Remaining(vs: seq<Load>, at: nat): nat {
    if vs == [] then 0 else (if Burns(vs[0], at) then vs[0].due - at else 0) + Remaining(vs[1..], at)
  }

  /** What `n` CPUs have to offer in a time `t`. */
  function CpuTime(n: nat, t: nat): nat {
    n * t
  }

  function IdleCount(vs: seq<Load>, at: nat): (n: nat)
    ensures n <= |vs|
  {
    if vs == [] then 0 else (if Burns(vs[0], at) then 0 else 1) + IdleCount(vs[1..], at)
  }

  function Durations(tasks: seq<Task>): nat {
    if tasks == [] then 0 else Durations(tasks[..|tasks| - 1]) + tasks[|tasks| - 1].duration
  }

  function AllTasks(rounds: seq<seq<Task>>): nat {
    if rounds == [] then 0 else AllTasks(rounds[..|rounds| - 1]) + |rounds[|rounds| - 1]|
  }

  function AllDurations(rounds: seq<seq<Task>>): nat {
    if rounds == [] then 0 else AllDurations(rounds[..|rounds| - 1]) + Durations(rounds[|rounds| - 1])
  }

  /** The nearest due time after `now`. */
  ghost predicate NextDue(vs: seq<Load>, now: nat, next: nat) {
    now < next && (exists i :: 0 <= i < |vs| && vs[i].due == next) && forall v | v in vs && v.due > now :: next <= v.due
  }

  function After(live: set<CoroId>, e: Effect): set<CoroId> {
    match e
    case Plain => live
    case Spawn(child) => live + {child}
    case Terminate(victim) => live - {victim}
  }

  /** The live coroutines after a turn. */
  function AllAfter(live: set<CoroId>, tasks: seq<Task>): set<CoroId> {
    if tasks == [] then live else After(AllAfter(live, tasks[..|tasks| - 1]), tasks[|tasks| - 1].effect)
  }

  /** No CPU is mapped twice in one turn. */
  ghost predicate OneEach(tasks: seq<Task>) {
    forall i, j | 0 <= i < j < |tasks| :: tasks[i].cpu != tasks[j].cpu
  }

  // ---- What one turn does, on values ----

  /** The profiler at the start of a turn; `ran` is the coroutine each CPU runs or ran last. */
  datatype Moment = Moment(now: nat, live: set<CoroId>, loads: seq<Load>, ran: seq<Option<CoroId>>)

  ghost predicate OnCpus(tasks: seq<Task>, n: nat) {
    forall t | t in tasks :: t.cpu < n
  }

  /** CPUs whose instruction is over let go of it. */
  ghost function LetGo(vs: seq<Load>, now: nat): seq<Load> {
    seq(|vs|, i requires 0 <= i < |vs| => if Burns(vs[i], now) then vs[i] else Load(0, false))
  }

  ghost function Loaded(vs: seq<Load>, now: nat, tasks: seq<Task>): (r: seq<Load>)
    requires OnCpus(tasks, |vs|)
    ensures |r| == |vs|
  {
    if tasks == [] then vs
    else
      var t := tasks[|tasks| - 1];
      assert t in tasks && forall u | u in tasks[..|tasks| - 1] :: u in tasks;
      Loaded(vs, now, tasks[..|tasks| - 1])[t.cpu := Load(now + t.duration, true)]
  }

  ghost function RanAfter(ran: seq<Option<CoroId>>, tasks: seq<Task>): (r: seq<Option<CoroId>>)
    requires OnCpus(tasks, |ran|)
    ensures |r| == |ran|
  {
    if tasks == [] then ran
    else
      var t := tasks[|tasks| - 1];
      assert t in tasks && forall u | u in tasks[..|tasks| - 1] :: u in tasks;
      RanAfter(ran, tasks[..|tasks| - 1])[t.cpu := Some(t.coro)]
  }

  /** How many instructions go to the CPU that ran their coroutine last. */
  ghost function Hits(ran: seq<Option<CoroId>>, tasks: seq<Task>): nat
    requires OnCpus(tasks, |ran|)
  {
    if tasks == [] then 0
    else
      var t := tasks[|tasks| - 1];
      assert t in tasks && forall u | u in tasks[..|tasks| - 1] :: u in tasks;
      Hits(ran, tasks[..|tasks| - 1]) + if ran[t.cpu] == Some(t.coro) then 1 else 0
  }

  lemma NoTasks(m: Moment)
    ensures Durations([]) == 0 && AllAfter(m.live, []) == m.live && Hits(m.ran, []) == 0
    ensures Loaded(m.loads, m.now, []) == m.loads && RanAfter(m.ran, []) == m.ran
  {
  }

  /** What the instruction at `k` adds to those before it. */
  lemma NextTask(m: Moment, tasks: seq<Task>, k: nat)
    requires OnCpus(tasks, |m.loads|) && |m.ran| == |m.loads| && OneEach(tasks) && k < |tasks|
    ensures var (t, x, y) := (tasks[k], tasks[..k], tasks[..k + 1]);
      && OnCpus(x, |m.loads|) && OnCpus(y, |m.loads|)
      && Durations(y) == Durations(x) + t.duration && AllAfter(m.live, y) == After(AllAfter(m.live, x), t.effect)
      && Loaded(m.loads, m.now, y) == Loaded(m.loads, m.now, x)[t.cpu := Load(m.now + t.duration, true)]
      && RanAfter(m.ran, y) == RanAfter(m.ran, x)[t.cpu := Some(t.coro)]
      && Hits(m.ran, y) == Hits(m.ran, x) + if RanAfter(m.ran, x)[t.cpu] == Some(t.coro) then 1 else 0
  {
    assert tasks[..k + 1][..k] == tasks[..k];
    RanElsewhere(m.ran, tasks[..k], tasks[k].cpu);
  }

  lemma {:induction false} RanElsewhere(ran: seq<Option<CoroId>>, tasks: seq<Task>, cpu: nat)
    requires OnCpus(tasks, |ran|) && cpu < |ran| && forall t | t in tasks :: t.cpu != cpu
    ensures RanAfter(ran, tasks)[cpu] == ran[cpu]
  {
    if tasks != [] {
      assert tasks[|tasks| - 1] in tasks && forall u | u in tasks[..|tasks| - 1] :: u in tasks;
      RanElsewhere(ran, tasks[..|tasks| - 1], cpu);
    }
  }

  ghost predicate Fits(m: Moment, tasks: seq<Task>) {
    |m.ran| == |m.loads| && OnCpus(tasks, |m.loads|)
  }

  /** No instruction is mapped to a CPU that burns. */
  ghost predicate Accepted(m: Moment, tasks: seq<Task>)
    requires Fits(m, tasks)
  {
    forall t | t in tasks :: !Burns(m.loads[t.cpu], m.now)
  }

  ghost function LoadsAfter(m: Moment, tasks: seq<Task>): (r: seq<Load>)
    requires Fits(m, tasks)
    ensures |r| == |m.loads|
  {
    Loaded(LetGo(m.loads, m.now), m.now, tasks)
  }

  /** The turn is the last: no coroutine is left and no CPU burns. */
  ghost predicate Over(m: Moment, tasks: seq<Task>)
    requires Fits(m, tasks)
  {
    Accepted(m, tasks) && AllAfter(m.live, tasks) == {} && forall v | v in LoadsAfter(m, tasks) :: !Burns(v, m.now)
  }

  /** The turn ends with nothing to wait for. */
  ghost predicate Stalled(m: Moment, tasks: seq<Task>)
    requires Fits(m, tasks)
  {
    Accepted(m, tasks) && !Over(m, tasks) && forall v | v in LoadsAfter(m, tasks) :: v.due <= m.now
  }

  /** The turn leads to the moment `m'`, when the next CPU is due. */
  ghost predicate Follows(m: Moment, tasks: seq<Task>, m': Moment)
    requires Fits(m, tasks)
  {
    && Accepted(m, tasks) && NextDue(LoadsAfter(m, tasks), m.now, m'.now)
    && m' == Moment(m'.now, AllAfter(m.live, tasks), LoadsAfter(m, tasks), RanAfter(m.ran, tasks))
  }

  lemma {:induction false} RemainingUpdate(vs: seq<Load>, i: nat, v: Load, at: nat)
    requires i < |vs| && !Burns(vs[i], at)
    ensures Remaining(vs[i := v], at) == Remaining(vs, at) + if Burns(v, at) then v.due - at else 0
  {
    if i == 0 {
      assert vs[0 := v][1..] == vs[1..];
    } else {
      assert vs[i := v][0] == vs[0] && vs[i := v][1..] == vs[1..][i - 1 := v];
      RemainingUpdate(vs[1..], i - 1, v, at);
    }
  }

  /** Up to the next due time, each CPU either burns all the time or is idle all the time. */
  lemma {:induction false} Advance(vs: seq<Load>, now: nat, next: nat)
    requires now <= next && forall v | v in vs && Burns(v, now) :: next <= v.due
    ensures Remaining(vs, now) + CpuTime(IdleCount(vs, now), next - now) == Remaining(vs, next) + CpuTime(|vs|, next - now)
  {
    hide CpuTime;
    var d := next - now;
    CpuTimeSteps(0, d);
    if vs != [] {
      assert vs == [vs[0]] + vs[1..] && vs[0] in vs;
      Advance(vs[1..], now, next);
      CpuTimeSteps(|vs[1..]|, d);
      CpuTimeSteps(IdleCount(vs[1..], now), d);
    }
  }

  lemma CpuTimeSteps(n: nat, t: nat)
    ensures CpuTime(0, t) == 0 && CpuTime(n + 1, t) == CpuTime(n, t) + t
  {
  }

  lemma {:induction false} NothingRemains(vs: seq<Load>, at: nat)
    requires forall v | v in vs :: !Burns(v, at)
    ensures Remaining(vs, at) == 0
  {
    if vs != [] {
      assert vs == [vs[0]] + vs[1..];
      NothingRemains(vs[1..], at);
    }
  }

  /** All CPUs idle, the program alone live. */
  ghost function Start(program: CoroId, ncpu: nat): Moment {
    Moment(0, {program}, seq(ncpu, _ => Load(0, false)), seq(ncpu, _ => None))
  }

  class Cpu {
    var due: nat
    var coro: Option<CoroId>
    var lastcoro: Option<CoroId>

    constructor ()
      ensures due == 0 && coro == None && lastcoro == None
    {
      due, coro, lastcoro := 0, None, None;
    }

    function Seen(): Load
      reads this
    {
      Load(due, coro.Some?)
    }

    /** The coroutine it runs or ran last. */
    function Ran(): Option<CoroId>
      reads this
    {
      if coro.Some? then coro else lastcoro
    }

    /** Will not run any coroutine at that time. */
    predicate Idle(at: nat)
      reads this
      ensures Idle(at) <==> !Burns(Seen(), at)
    {
      coro.None? || due <= at
    }

    method Suspend()
      requires coro.Some?
      modifies this
      ensures Seen() == Load(0, false) && lastcoro == old(coro)
    {
      due, lastcoro, coro := 0, coro, None;
    }

    /** True if the coroutine is the one this CPU ran last. */
    method Wakeup(c: CoroId, until: nat) returns (hit: bool)
      requires coro == None
      modifies this
      ensures coro == Some(c) && due == until && lastcoro == old(lastcoro) && (hit <==> lastcoro == Some(c))
    {
      due, coro := until, Some(c);
      hit := coro == lastcoro;
    }
  }

  datatype Status = Running | Finished | MappedToBurning | NothingDue

  class Simulation {
    const cpus: seq<Cpu>
    var now: nat
    var idleTime: nat
    var switches: nat
    var hits: nat
    var live: set<CoroId>
    ghost var loads: seq<Load>
    ghost var ran: seq<Option<CoroId>>
    ghost var dispatched: nat   // durations of all instructions dispatched

    ghost function At(): Moment
      reads this
    {
      Moment(now, live, loads, ran)
    }

    ghost predicate Valid()
      reads this, cpus
    {
      && |loads| == |cpus| && (forall i | 0 <= i < |cpus| :: loads[i] == cpus[i].Seen())
      && (forall i, j | 0 <= i < j < |cpus| :: cpus[i] != cpus[j])
      && (forall i | 0 <= i < |loads| :: !loads[i].busy ==> loads[i].due == 0)
      && |ran| == |cpus| && (forall i | 0 <= i < |cpus| :: ran[i] == cpus[i].Ran())
      && Balanced()
    }

    /** CPU time that has passed is idle time or belongs to an instruction; what the running
        instructions have not had yet is still to come. */
    ghost predicate Balanced()
      reads this
    {
      CpuTime(|cpus|, now) + Remaining(loads, now) == idleTime + dispatched
    }

    constructor (program: CoroId, ncpu: seq<Cpu>)
      requires forall i | 0 <= i < |ncpu| :: ncpu[i].coro == None && ncpu[i].due == 0 && ncpu[i].lastcoro == None
      requires forall i, j | 0 <= i < j < |ncpu| :: ncpu[i] != ncpu[j]
      ensures Valid() && cpus == ncpu && dispatched == 0 && switches == 0 && hits == 0 && At() == Start(program, |ncpu|)
    {
      cpus, now, idleTime, switches, hits, live := ncpu, 0, 0, 0, 0, {program};
      loads, ran, dispatched := seq(|ncpu|, _ => Load(0, false)), seq(|ncpu|, _ => None), 0;
      new;
      NothingRemains(loads, 0);
    }

    /** CPUs whose instruction is over let go of their coroutine. */
    method Finalize()
      requires Valid()
      modifies cpus, `loads
      ensures Valid() && loads == LetGo(old(loads), now)
      ensures forall i | 0 <= i < |cpus| :: cpus[i].Idle(now) ==> cpus[i].coro == None
    {
      hide CpuTime, Remaining;
      for i := 0 to |cpus|
        invariant Valid() && forall j | 0 <= j < i :: cpus[j].Idle(now) ==> cpus[j].coro == None
        invariant forall j | 0 <= j < |cpus| :: loads[j] == if j < i then LetGo(old(loads), now)[j] else old(loads)[j]
      {
        if cpus[i].coro.Some? && cpus[i].due <= now {
          RemainingUpdate(loads, i, Load(0, false), now);
          cpus[i].Suspend();
          loads := loads[i := Load(0, false)];
        }
      }
    }

    /** One instruction goes to its CPU. */
    method Dispatch(t: Task)
      requires Valid() && t.cpu < |cpus| && cpus[t.cpu].coro == None
      modifies this, cpus[t.cpu]
      ensures Valid() && dispatched == old(dispatched) + t.duration && now == old(now)
      ensures live == After(old(live), t.effect) && switches == old(switches) + 1
      ensures hits == old(hits) + if old(ran)[t.cpu] == Some(t.coro) then 1 else 0
      ensures loads == old(loads)[t.cpu := Load(now + t.duration, true)] && ran == old(ran)[t.cpu := Some(t.coro)]
      ensures cpus[t.cpu].coro == Some(t.coro) && cpus[t.cpu].due == now + t.duration
    {
      match t.effect {
        case Plain =>
        case Spawn(child) => live := live + {child};
        case Terminate(victim) => live := live - {victim};
      }
      switches := switches + 1;
      var hit := Assign(t);
      if hit {
        hits := hits + 1;
      }
    }

    method Assign(t: Task) returns (hit: bool)
      requires Valid() && t.cpu < |cpus| && cpus[t.cpu].coro == None
      modifies `loads, `ran, `dispatched, cpus[t.cpu]
      ensures Valid() && dispatched == old(dispatched) + t.duration && (hit <==> old(ran)[t.cpu] == Some(t.coro))
      ensures loads == old(loads)[t.cpu := Load(now + t.duration, true)] && ran == old(ran)[t.cpu := Some(t.coro)]
      ensures cpus[t.cpu].coro == Some(t.coro) && cpus[t.cpu].due == now + t.duration
    {
      hide CpuTime, Remaining;
      var load := Load(now + t.duration, true);
      RemainingUpdate(loads, t.cpu, load, now);
      hit := cpus[t.cpu].Wakeup(t.coro, now + t.duration);
      loads, ran := loads[t.cpu := load], ran[t.cpu := Some(t.coro)];
      dispatched := dispatched + t.duration;
    }

    /** One turn of the simulation loop, with what the scheduler mapped. */
    method Round(schedule: seq<Task>) returns (status: Status)
      requires Valid() && OnCpus(schedule, |cpus|) && OneEach(schedule)
      modifies this, cpus
      ensures Valid() && old(now) <= now
      ensures dispatched == old(dispatched) + if status == MappedToBurning then 0 else Durations(schedule)
      ensures switches == old(switches) + if status == MappedToBurning then 0 else |schedule|
      ensures hits == old(hits) + if status == MappedToBurning then 0 else Hits(old(ran), schedule)
      ensures status == MappedToBurning <==> !Accepted(old(At()), schedule)
      ensures status == Finished <==> Over(old(At()), schedule)
      ensures status == NothingDue <==> Stalled(old(At()), schedule)
      ensures status == Running ==> Follows(old(At()), schedule, At())
      ensures status == Finished ==> live == {} && now == old(now) && Remaining(loads, now) == 0
      ensures status == MappedToBurning ==> live == old(live)
    {
      hide CpuTime, Remaining, Loaded, AllAfter, Durations, Hits, OneEach, RanAfter;
      ghost var m := At();
      Finalize();
      var ready := AllIdle(schedule);
      if !ready {
        return MappedToBurning;
      }
      DispatchAll(schedule);
      status := Jump();
    }

    method AllIdle(schedule: seq<Task>) returns (all: bool)
      requires forall t | t in schedule :: t.cpu < |cpus|
      ensures all <==> forall t | t in schedule :: cpus[t.cpu].Idle(now)
    {
      for k := 0 to |schedule|
        invariant forall j | 0 <= j < k :: cpus[schedule[j].cpu].Idle(now)
      {
        if !cpus[schedule[k].cpu].Idle(now) {
          return false;
        }
      }
      return true;
    }

    method DispatchAll(schedule: seq<Task>)
      requires Valid() && OnCpus(schedule, |cpus|) && OneEach(schedule)
      requires forall t | t in schedule :: cpus[t.cpu].coro == None
      modifies this, cpus
      ensures Valid() && now == old(now) && dispatched == old(dispatched) + Durations(schedule)
      ensures live == AllAfter(old(live), schedule) && switches == old(switches) + |schedule|
      ensures hits == old(hits) + Hits(old(ran), schedule)
      ensures loads == Loaded(old(loads), now, schedule) && ran == RanAfter(old(ran), schedule)
    {
      hide CpuTime, Balanced, Remaining, Burns, Durations, AllAfter, Hits, Loaded, RanAfter;
      ghost var m := At();
      NoTasks(m);
      assert schedule[..0] == [];
      for k := 0 to |schedule|
        invariant Valid() && now == m.now && dispatched == old(dispatched) + Durations(schedule[..k])
        invariant live == AllAfter(m.live, schedule[..k]) && switches == old(switches) + k
        invariant forall j | k <= j < |schedule| :: cpus[schedule[j].cpu].coro == None
        invariant OnCpus(schedule[..k], |cpus|) && hits == old(hits) + Hits(m.ran, schedule[..k])
        invariant loads == Loaded(m.loads, now, schedule[..k]) && ran == RanAfter(m.ran, schedule[..k])
      {
        NextTask(m, schedule, k);
        Dispatch(schedule[k]);
      }
      assert schedule[..|schedule|] == schedule;
    }

    /** The end of a turn: finish, or go to the nearest due time. */
    method Jump() returns (status: Status)
      requires Valid()
      modifies `now, `idleTime
      ensures Valid() && old(now) <= now
      ensures status == Finished <==> live == {} && forall v | v in loads :: !Burns(v, old(now))
      ensures status == Finished ==> now == old(now) && Remaining(loads, now) == 0
      ensures status == Running ==> NextDue(loads, old(now), now)
      ensures status == NothingDue ==> forall v | v in loads :: v.due <= now
      ensures status != MappedToBurning && (status == Running <==> old(now) < now)
    {
      hide CpuTime;
      var nidle, next := Survey();
      if nidle == |cpus| && live == {} {
        NothingRemains(loads, now);
        return Finished;
      }
      if next == None {
        return NothingDue;
      }
      Advance(loads, now, next.value);
      Passes(loads, now, next.value);
      idleTime := idleTime + CpuTime(nidle, next.value - now);
      now := next.value;
      return Running;
    }

    /** What is reported at the end: all time that was not idle went to instructions. */
    method Statistics() returns (stats: Stats)
      requires Valid() && Remaining(loads, now) == 0
      ensures stats == Stats(now, |cpus| * now, dispatched, switches, hits)
    {
      var total := |cpus| * now;
      return Stats(now, total, total - idleTime, switches, hits);
    }

    /** How many CPUs are idle, and when the next one is due. */
    method Survey() returns (nidle: nat, next: Option<nat>)
      requires Valid()
      ensures nidle == IdleCount(loads, now) && (nidle == |cpus| <==> forall v | v in loads :: !Burns(v, now))
      ensures if next.Some? then NextDue(loads, now, next.value) else forall v | v in loads :: v.due <= now
    {
      nidle, next := 0, None;
      assert loads[..0] == [];
      for i := 0 to |cpus|
        invariant nidle == IdleCount(loads[..i], now)
        invariant next.Some? ==> now < next.value && exists j :: 0 <= j < i && loads[j].due == next.value
        invariant forall j | 0 <= j < i && loads[j].due > now :: next.Some? && next.value <= loads[j].due
        invariant nidle == i <==> forall j | 0 <= j < i :: !Burns(loads[j], now)
      {
        IdleAppend(loads[..i], loads[i], now);
        assert loads[..i + 1] == loads[..i] + [loads[i]];
        if cpus[i].Idle(now) {
          nidle := nidle + 1;
        }
        if cpus[i].due > now && (next.None? || cpus[i].due < next.value) {
          next := Some(cpus[i].due);
        }
      }
      assert loads[..|cpus|] == loads;
    }
  }

  lemma Passes(vs: seq<Load>, now: nat, next: nat)
    requires now <= next
    requires Remaining(vs, now) + CpuTime(IdleCount(vs, now), next - now) == Remaining(vs, next) + CpuTime(|vs|, next - now)
    ensures CpuTime(|vs|, next) + Remaining(vs, next) ==
            CpuTime(|vs|, now) + Remaining(vs, now) + CpuTime(IdleCount(vs, now), next - now)
  {
    assert |vs| * next == |vs| * now + |vs| * (next - now);
  }

  lemma {:induction false} IdleAppend(vs: seq<Load>, v: Load, at: nat)
    ensures IdleCount(vs + [v], at) == IdleCount(vs, at) + if Burns(v, at) then 0 else 1
  {
    if vs == [] {
      assert vs + [v] == [v] && [v][1..] == [];
    } else {
      assert (vs + [v])[0] == vs[0] && (vs + [v])[1..] == vs[1..] + [v];
      IdleAppend(vs[1..], v, at);
    }
  }

  // ---- Whole simulations ----

  ghost predicate AllFit(rounds: seq<seq<Task>>, ncpu: nat) {
    forall r | r in rounds :: OnCpus(r, ncpu) && OneEach(r)
  }

  ghost predicate Sized(m: Moment, ncpu: nat) {
    |m.loads| == |m.ran| == ncpu
  }

  /** The moments at which the first turns start, each following from the one before. */
  ghost predicate Trace(program: CoroId, ncpu: nat, rounds: seq<seq<Task>>, ms: seq<Moment>)
    requires AllFit(rounds, ncpu)
  {
    && 0 < |ms| <= |rounds| + 1 && ms[0] == Start(program, ncpu) && (forall m | m in ms :: Sized(m, ncpu))
    && forall k | 0 <= k < |ms| - 1 :: Next(ncpu, rounds, ms, k)
  }

  ghost predicate Next(ncpu: nat, rounds: seq<seq<Task>>, ms: seq<Moment>, k: nat)
    requires AllFit(rounds, ncpu) && k + 1 < |ms| <= |rounds| + 1 && Sized(ms[k], ncpu)
  {
    Follows(ms[k], rounds[k], ms[k + 1])
  }

  /** The last turn of the trace is the last of the simulation. */
  ghost predicate Ends(ncpu: nat, rounds: seq<seq<Task>>, ms: seq<Moment>)
    requires AllFit(rounds, ncpu) && ms != [] && Sized(ms[|ms| - 1], ncpu)
  {
    |ms| <= |rounds| && Over(ms[|ms| - 1], rounds[|ms| - 1])
  }

  /** The trace goes no further, and the simulation is not over. */
  ghost predicate Sticks(ncpu: nat, rounds: seq<seq<Task>>, ms: seq<Moment>)
    requires AllFit(rounds, ncpu) && ms != [] && Sized(ms[|ms| - 1], ncpu)
  {
    |ms| <= |rounds| ==> !Accepted(ms[|ms| - 1], rounds[|ms| - 1]) || Stalled(ms[|ms| - 1], rounds[|ms| - 1])
  }

  /** With what the scheduler maps, the simulation comes to its end. */
  ghost predicate Finishes(program: CoroId, ncpu: nat, rounds: seq<seq<Task>>)
    requires AllFit(rounds, ncpu)
  {
    exists ms :: Trace(program, ncpu, rounds, ms) && Ends(ncpu, rounds, ms)
  }

  lemma {:induction false} LoadedBusy(vs: seq<Load>, now: nat, tasks: seq<Task>)
    requires OnCpus(tasks, |vs|) && forall v | v in vs :: !v.busy ==> v.due == 0
    ensures forall v | v in Loaded(vs, now, tasks) :: !v.busy ==> v.due == 0
  {
    if tasks != [] {
      assert tasks[|tasks| - 1] in tasks && forall u | u in tasks[..|tasks| - 1] :: u in tasks;
      LoadedBusy(vs, now, tasks[..|tasks| - 1]);
    }
  }

  /** A turn that is the last, or stalls, leads nowhere. */
  lemma NoMore(m: Moment, tasks: seq<Task>, m': Moment)
    requires Fits(m, tasks) && Follows(m, tasks, m')
    ensures Accepted(m, tasks) && !Over(m, tasks) && !Stalled(m, tasks)
  {
    LoadedBusy(LetGo(m.loads, m.now), m.now, tasks);
    var i :| 0 <= i < |LoadsAfter(m, tasks)| && LoadsAfter(m, tasks)[i].due == m'.now;
    var v := LoadsAfter(m, tasks)[i];
    assert v in LoadsAfter(m, tasks) && v.due > m.now;
  }

  lemma FollowsOnce(m: Moment, tasks: seq<Task>, m': Moment, m'': Moment)
    requires Fits(m, tasks) && Follows(m, tasks, m') && Follows(m, tasks, m'')
    ensures m' == m''
  {
    var vs := LoadsAfter(m, tasks);
    var i :| 0 <= i < |vs| && vs[i].due == m'.now;
    var j :| 0 <= j < |vs| && vs[j].due == m''.now;
    assert vs[i] in vs && vs[j] in vs;
  }

  /** Two traces agree as far as both go. */
  lemma {:induction false} OneTrace(program: CoroId, ncpu: nat, rounds: seq<seq<Task>>, ms: seq<Moment>, ns: seq<Moment>, k: nat)
    requires AllFit(rounds, ncpu) && Trace(program, ncpu, rounds, ms) && Trace(program, ncpu, rounds, ns)
    requires k < |ms| && k < |ns|
    ensures ms[k] == ns[k]
  {
    if k > 0 {
      OneTrace(program, ncpu, rounds, ms, ns, k - 1);
      hide Follows, Start;
      assert Next(ncpu, rounds, ms, k - 1) && Next(ncpu, rounds, ns, k - 1);
      FollowsOnce(ms[k - 1], rounds[k - 1], ms[k], ns[k]);
    }
  }

  /** If some trace sticks, none comes to an end. */
  lemma StuckForGood(program: CoroId, ncpu: nat, rounds: seq<seq<Task>>, ms: seq<Moment>)
    requires AllFit(rounds, ncpu) && Trace(program, ncpu, rounds, ms) && Sticks(ncpu, rounds, ms)
    ensures !Finishes(program, ncpu, rounds)
  {
    if Finishes(program, ncpu, rounds) {
      var ns :| Trace(program, ncpu, rounds, ns) && Ends(ncpu, rounds, ns);
      hide Accepted, Follows, Over, Stalled, Start;
      var k := if |ms| < |ns| then |ms| - 1 else |ns| - 1;
      assert ms[k] in ms && ns[k] in ns && (k < |rounds| ==> rounds[k] in rounds);
      if |ms| < |ns| {
        assert Next(ncpu, rounds, ns, k);
        NoMore(ns[k], rounds[k], ns[k + 1]);
      } else if |ns| < |ms| {
        assert Next(ncpu, rounds, ms, k);
        NoMore(ms[k], rounds[k], ms[k + 1]);
      }
      OneTrace(program, ncpu, rounds, ms, ns, k);
    }
  }

  ghost function AllHits(rounds: seq<seq<Task>>, ms: seq<Moment>, ncpu: nat, n: nat): nat
    requires AllFit(rounds, ncpu) && n <= |rounds| && n <= |ms| && forall m | m in ms :: Sized(m, ncpu)
  {
    if n == 0 then 0
    else
      assert ms[n - 1] in ms && rounds[n - 1] in rounds;
      AllHits(rounds, ms, ncpu, n - 1) + Hits(ms[n - 1].ran, rounds[n - 1])
  }

  lemma {:induction false} HitsSoFar(rounds: seq<seq<Task>>, ms: seq<Moment>, m: Moment, ncpu: nat, n: nat)
    requires AllFit(rounds, ncpu) && n <= |rounds| && n <= |ms| && forall x | x in ms + [m] :: Sized(x, ncpu)
    ensures AllHits(rounds, ms + [m], ncpu, n) == AllHits(rounds, ms, ncpu, n)
  {
    if n > 0 {
      HitsSoFar(rounds, ms, m, ncpu, n - 1);
      assert (ms + [m])[n - 1] == ms[n - 1];
    }
  }

  lemma TraceMore(program: CoroId, ncpu: nat, rounds: seq<seq<Task>>, ms: seq<Moment>, m: Moment)
    requires AllFit(rounds, ncpu) && Trace(program, ncpu, rounds, ms) && |ms| <= |rounds| && Sized(m, ncpu)
    requires Fits(ms[|ms| - 1], rounds[|ms| - 1]) && Follows(ms[|ms| - 1], rounds[|ms| - 1], m)
    ensures Trace(program, ncpu, rounds, ms + [m])
  {
    hide Follows, Start, Fits;
    var ns := ms + [m];
    forall k | 0 <= k < |ns| - 1
      ensures Sized(ns[k], ncpu) && Next(ncpu, rounds, ns, k)
    {
      assert ns[k] == ms[k] && ms[k] in ms;
      assert k < |ms| - 1 ==> Next(ncpu, rounds, ms, k) && ns[k + 1] == ms[k + 1];
    }
  }

  datatype Stats = Stats(elapsed: nat, total: nat, burning: int, switches: nat, hits: nat)

  method MakeCpus(ncpu: nat) returns (cpus: seq<Cpu>)
    ensures |cpus| == ncpu && forall c | c in cpus :: fresh(c) && c.coro == None && c.due == 0 && c.lastcoro == None
    ensures forall i, j | 0 <= i < j < |cpus| :: cpus[i] != cpus[j]
  {
    cpus := [];
    for i := 0 to ncpu
      invariant |cpus| == i && forall c | c in cpus :: fresh(c) && c.coro == None && c.due == 0 && c.lastcoro == None
      invariant forall j, k | 0 <= j < k < |cpus| :: cpus[j] != cpus[k]
    {
      var cpu := new Cpu();
      cpus := cpus + [cpu];
    }
  }

  /** What is reported when the last turn of `trace` is over. */
  ghost function Report(ncpu: nat, rounds: seq<seq<Task>>, trace: seq<Moment>): Stats
    requires AllFit(rounds, ncpu) && 0 < |trace| <= |rounds| && forall m | m in trace :: Sized(m, ncpu)
  {
    var n := |trace|;
    Stats(trace[n - 1].now, ncpu * trace[n - 1].now, AllDurations(rounds[..n]), AllTasks(rounds[..n]),
          AllHits(rounds, trace, ncpu, n))
  }

  /** A whole simulation, given what the scheduler maps in each turn. It finishes exactly when the
      turns lead to one that is the last, and then the reported burning CPU time is the sum of the
      durations of all dispatched instructions. */
  method RunProgram(program: CoroId, ncpu: nat, rounds: seq<seq<Task>>)
    returns (finished: bool, stats: Stats, ghost trace: seq<Moment>)
    requires AllFit(rounds, ncpu)
    ensures finished <==> Finishes(program, ncpu, rounds)
    ensures Trace(program, ncpu, rounds, trace) && if finished then Ends(ncpu, rounds, trace) else Sticks(ncpu, rounds, trace)
    ensures finished ==> stats == Report(ncpu, rounds, trace)
  {
    hide Follows, Over, Accepted, Stalled, Start, CpuTime, Remaining, Hits;
    var cpus := MakeCpus(ncpu);
    var sim := new Simulation(program, cpus);
    trace := [sim.At()];
    for k := 0 to |rounds|
      invariant sim.Valid() && sim.cpus == cpus && fresh(sim) && sim.dispatched == AllDurations(rounds[..k])
      invariant forall c | c in cpus :: fresh(c)
      invariant sim.switches == AllTasks(rounds[..k]) && |trace| == k + 1 && trace[k] == sim.At()
      invariant Trace(program, ncpu, rounds, trace) && sim.hits == AllHits(rounds, trace, ncpu, k)
    {
      assert rounds[k] in rounds;
      var status := sim.Round(rounds[k]);
      assert rounds[..k + 1][..k] == rounds[..k];
      if status == Finished {
        stats := sim.Statistics();
        return true, stats, trace;
      }
      if status != Running {
        StuckForGood(program, ncpu, rounds, trace);
        return false, Stats(0, 0, 0, 0, 0), trace;
      }
      TraceMore(program, ncpu, rounds, trace, sim.At());
      HitsSoFar(rounds, trace, sim.At(), ncpu, k + 1);
      trace := trace + [sim.At()];
    }
    StuckForGood(program, ncpu, rounds, trace);
    return false, Stats(0, 0, 0, 0, 0), trace;
  }
}
