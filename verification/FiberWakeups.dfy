/** Whole runs of a condition variable: no wakeup is lost, none is spurious, and they come in turn. */
module FiberWakeups {
  import opened Common
  import opened FiberState
  import opened FiberInvariant
  import opened FiberTheorems

  function Joined(s: State, c: CondId): seq<Fiber> {
    Get(s.hist.joined, c)
  }

  function Woken(s: State, c: CondId): seq<Fiber> {
    Get(s.hist.woken, c)
  }

  /** The waiters an action wakes. */
  function Wakes(s: State, c: CondId, a: Action): seq<Fiber> {
    var x := Q(s, CondQ(c));
    if a == Broadcast(c) then x else if a == Signal(c) && x != [] then [x[0]] else []
  }

  lemma WakesStep(s: State, c: CondId, a: Action)
    requires Inv(s) && Enabled(s, a)
    ensures Woken(Step(s, a), c) == Woken(s, c) + Wakes(s, c, a)
  {
    hide Inv;
    assert Woken(s, c) + [] == Woken(s, c);
    if a.Broadcast? {
      WakeAllKeeps(s, a.c);
    } else if a.Signal? {
      SignalWakes(s, c, a.c);
    } else {
      NobodyWoken(s, a);
    }
  }

  lemma SignalWakes(s: State, c: CondId, d: CondId)
    requires Enabled(s, Signal(d))
    ensures Woken(Step(s, Signal(d)), c) == Woken(s, c) + Wakes(s, c, Signal(d))
  {
    assert Woken(s, c) + [] == Woken(s, c);
  }

  lemma NobodyWoken(s: State, a: Action)
    requires Inv(s) && Enabled(s, a) && !a.Signal? && !a.Broadcast?
    ensures Step(s, a).hist.woken == s.hist.woken
  {
    hide Inv;
    if !s.phase.Run? && a != Dispatch {
      IdleKeeps(s, a);
    } else if Leaves(a) {
      LeaveKeeps(s, a);
    } else if a.Unlock? || a.Wait? {
      ReleaseMoves(s, a.m);
    }
  }

  lemma {:induction false} RunsWoken(s: State, acts: seq<Action>, s': State, c: CondId)
    requires Inv(s) && Runs(s, acts, s')
    ensures Inv(s') && Woken(s, c) <= Woken(s', c)
    decreases |acts|
  {
    hide Step;
    if acts != [] {
      StepInv(s, acts[0]);
      WakesStep(s, c, acts[0]);
      RunsWoken(Step(s, acts[0]), acts[1..], s', c);
    }
  }

  lemma {:induction false} RunsJoined(s: State, acts: seq<Action>, s': State, c: CondId)
    requires Inv(s) && Runs(s, acts, s')
    ensures Inv(s') && Joined(s, c) <= Joined(s', c)
    decreases |acts|
  {
    hide Step;
    if acts != [] {
      StepInv(s, acts[0]);
      JoinedStep(s, acts[0], c);
      RunsJoined(Step(s, acts[0]), acts[1..], s', c);
    }
  }

  lemma JoinedStep(s: State, a: Action, c: CondId)
    requires Inv(s) && Enabled(s, a) && Inv(Step(s, a))
    ensures Joined(s, c) <= Joined(Step(s, a), c)
  {
    hide Step;
    var s', x := Step(s, a), Q(s, CondQ(c));
    WakesStep(s, c, a);
    QueueStep(s, c, a);
    assert Joined(s, c) == Woken(s, c) + x && Joined(s', c) == Woken(s', c) + Q(s', CondQ(c));
    if a.Wait? && a.c == c {
      assert Woken(s, c) + [] == Woken(s, c);
    }
  }

  lemma QueueStep(s: State, c: CondId, a: Action)
    requires Inv(s) && Enabled(s, a)
    ensures var (x, x') := (Q(s, CondQ(c)), Q(Step(s, a), CondQ(c)));
      if a.Wait? && a.c == c then x' == x + [s.phase.f] else x == Wakes(s, c, a) + x'
  {
    hide Inv;
    if a.Wait? || a.Signal? || a.Broadcast? {
      CondActions(s, c, a);
    } else {
      CondUntouched(s, c, a);
    }
  }

  /** In any run, the waiter of `c` with `k` others before it is woken after exactly those `k`. */
  lemma WokenInTurn(s: State, acts: seq<Action>, s': State, c: CondId, k: nat)
    requires Reachable(s) && Runs(s, acts, s') && k < |Q(s, CondQ(c))|
    requires |Woken(s, c)| + k < |Woken(s', c)|
    ensures Woken(s', c)[|Woken(s, c)|..][..k + 1] == Q(s, CondQ(c))[..k + 1]
  {
    ReachableInv(s);
    RunsWoken(s, acts, s', c);
    RunsJoined(s, acts, s', c);
    assert Joined(s, c) == Woken(s, c) + Q(s, CondQ(c)) && Joined(s', c) == Woken(s', c) + Q(s', CondQ(c));
    Overlap(Woken(s, c), Q(s, CondQ(c)), Woken(s', c), Q(s', CondQ(c)), k);
  }

  function Signals(acts: seq<Action>, c: CondId): nat {
    if acts == [] then 0 else (if acts[0] == Signal(c) then 1 else 0) + Signals(acts[1..], c)
  }

  /** Enough wakeups to get past `k` waiters: a broadcast, or more than `k` signals. */
  predicate Reaches(acts: seq<Action>, c: CondId, k: nat) {
    Broadcast(c) in acts || Signals(acts, c) > k
  }

  lemma {:induction false} WokenExactlyWhen(s: State, acts: seq<Action>, s': State, c: CondId, k: nat)
    requires Inv(s) && Runs(s, acts, s') && k < |Q(s, CondQ(c))|
    ensures |Woken(s, c)| + k < |Woken(s', c)| <==> Reaches(acts, c, k)
    decreases |acts|
  {
    hide Step;
    if acts != [] {
      var a, s1, rest := acts[0], Step(s, acts[0]), acts[1..];
      assert acts == [a] + rest;
      StepInv(s, a);
      WakesStep(s, c, a);
      QueueStep(s, c, a);
      var n := |Wakes(s, c, a)|;
      if k < n {
        RunsWoken(s1, rest, s', c);
      } else {
        WokenExactlyWhen(s1, rest, s', c, k - n);
      }
    }
  }

  /** From the step in which a fiber gives up the mutex to wait on `c`, in any run: it has been woken
      if and only if a broadcast came, or more signals than there were waiters before it. Otherwise it
      is still in the queue. */
  lemma NoLostWakeup(s: State, c: CondId, m: MutexId, acts: seq<Action>, s': State)
    requires Reachable(s) && Enabled(s, Wait(c, m)) && Runs(Step(s, Wait(c, m)), acts, s')
    ensures Owns(s, s.phase.f, m) && !Owns(Step(s, Wait(c, m)), s.phase.f, m)
    ensures var (k, n, w) := (|Q(s, CondQ(c))|, |Woken(s, c)|, Woken(s', c));
      if Reaches(acts, c, k) then |w| > n + k && w[n + k] == s.phase.f
      else |w| <= n + k && s.phase.f in Q(s', CondQ(c))
  {
    hide Step, Runs, Reaches, Reachable, Inv, Q, Woken;
    ReachableInv(s);
    WaitIsAtomic(s, c, m);
    UntilWoken(s, c, m, acts, s');
  }

  lemma UntilWoken(s: State, c: CondId, m: MutexId, acts: seq<Action>, s': State)
    requires Inv(s) && Enabled(s, Wait(c, m)) && Runs(Step(s, Wait(c, m)), acts, s')
    ensures var (k, n, w) := (|Q(s, CondQ(c))|, |Woken(s, c)|, Woken(s', c));
      if Reaches(acts, c, k) then |w| > n + k && w[n + k] == s.phase.f
      else |w| <= n + k && s.phase.f in Q(s', CondQ(c))
  {
    hide Step, Reaches, Inv, Q, Joined, Woken;
    var s1, k, n := Step(s, Wait(c, m)), |Q(s, CondQ(c))|, |Woken(s, c)|;
    StepInv(s, Wait(c, m));
    WakesStep(s, c, Wait(c, m));
    QueueStep(s, c, Wait(c, m));
    assert Q(s1, CondQ(c))[k] == s.phase.f && Woken(s1, c) == Woken(s, c);
    WokenExactlyWhen(s1, acts, s', c, k);
    RunsJoined(s1, acts, s', c);
    Reached(s1, s', c, k);
  }

  /** Position `k` of the queue, in a later state: among the woken, or still in the queue. */
  lemma Reached(s: State, s': State, c: CondId, k: nat)
    requires Inv(s) && Inv(s') && Joined(s, c) <= Joined(s', c) && k < |Q(s, CondQ(c))|
    ensures var (f, n, w) := (Q(s, CondQ(c))[k], |Woken(s, c)|, Woken(s', c));
      if |w| > n + k then w[n + k] == f else f in Q(s', CondQ(c))
  {
    var n, w, x' := |Woken(s, c)|, Woken(s', c), Q(s', CondQ(c));
    assert Joined(s, c) == Woken(s, c) + Q(s, CondQ(c)) && Joined(s', c) == w + x';
    assert Joined(s, c)[n + k] == Q(s, CondQ(c))[k] == Joined(s', c)[n + k];
    assert |w| <= n + k ==> x'[n + k - |w|] == Joined(s', c)[n + k];
  }
}
