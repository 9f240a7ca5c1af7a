/**
 What the scheduler guarantees over whole runs, however threads spawn, yield, sleep, lock and exit.
 */
module SchedulerRuns {
  import opened Prelude
  import opened SchedulerModel

  // ----- runs ---------------------------------------------------------------------------------------------

  predicate CanRun<G, M>(s: Sched<G, M>, es: seq<Event<G, M>>)
    decreases |es|
  {
    es == [] || (Enabled(s, es[0]) && CanRun(Step(s, es[0]), es[1..]))
  }

  function After<G, M>(s: Sched<G, M>, es: seq<Event<G, M>>): Sched<G, M>
    requires CanRun(s, es)
    decreases |es|
  {
    if es == [] then s else After(Step(s, es[0]), es[1..])
  }

  lemma {:induction false} RunInv<G, M>(s: Sched<G, M>, es: seq<Event<G, M>>)
    requires Inv(s) && CanRun(s, es)
    ensures Inv(After(s, es))
    decreases |es|
  {
    if es != [] {
      StepInv(s, es[0]);
      RunInv(Step(s, es[0]), es[1..]);
    }
  }

  /** In every reachable state each unfinished thread is in exactly one place, and live counts them. */
  lemma Inventory<G, M>(es: seq<Event<G, M>>, g: G)
    requires CanRun(Initial<G, M>(), es)
    ensures var s := After(Initial<G, M>(), es);
            && s.live == |Unfinished(s)|
            && (g in Unfinished(s) <==>
                  g in s.runq || s.current == Some(g) || g in Sleepers(s.timers) || exists m ::
                      m in s.mutexes && Waits(s, g, m))
            && (g in s.runq ==> s.current != Some(g) && g !in Sleepers(s.timers) && forall m :: m in s.mutexes ==>
                !Waits(s, g, m))
            && (s.current == Some(g) ==> g !in Sleepers(s.timers) && forall m :: m in s.mutexes ==> !Waits(s, g, m))
            && (g in Sleepers(s.timers) ==> forall m :: m in s.mutexes ==> !Waits(s, g, m))
            && (forall m1, m2 :: m1 in s.mutexes && m2 in s.mutexes && Waits(s, g, m1) && Waits(s, g, m2) ==> m1 == m2)
  {
    InitialInv<G, M>();
    RunInv(Initial<G, M>(), es);
    var s := After(Initial<G, M>(), es);
    if g in s.state {
      assert Located(s, g);
    }
  }

  /** At most one thread holds a mutex, it is locked while one does, and nobody waits for a free mutex. */
  lemma MutualExclusion<G, M>(es: seq<Event<G, M>>, m: M)
    requires CanRun(Initial<G, M>(), es) && m in After(Initial<G, M>(), es).mutexes
    ensures var s := After(Initial<G, M>(), es);
            && (forall h1, h2 :: h1 in s.holds && h2 in s.holds && h1.1 == m && h2.1 == m ==> h1 == h2)
            && (s.mutexes[m].locked <==> exists h :: h in s.holds && h.1 == m)
            && (s.mutexes[m].waiters != [] ==> s.mutexes[m].locked)
  {
    InitialInv<G, M>();
    RunInv(Initial<G, M>(), es);
  }

  // ----- the deadlock verdict -----------------------------------------------------------------------------------

  /**
   The loop aborts exactly when threads remain and all of them wait for mutexes; it returns exactly when
   none remain.
  */
  lemma VerdictExact<G, M>(s: Sched<G, M>, now: nat)
    requires Inv(s) && s.current.None?
    ensures Decide(s, now) == Deadlock <==> Unfinished(s) != {} && forall g :: g in Unfinished(s) ==>
        s.state[g] == WaitMutex
    ensures Decide(s, now) == Finished <==> Unfinished(s) == {}
  {
    hide Queues, Ownership, Sleepers, Waits, SetAll;
    WakeInv(s, now);
    if s.timers != [] {
      SleeperAlive(s);
    }
    if s.runq != [] {
      RunnerAlive(s);
    }
    if Wake(s, now).runq == [] && Wake(s, now).timers == [] {
      NothingToRun(s, now);
      forall g | g in Unfinished(s)
        ensures s.state[g] == WaitMutex
      {
        assert Located(s, g);
      }
    }
  }

  lemma NothingToRun<G, M>(s: Sched<G, M>, now: nat)
    requires Wake(s, now).runq == [] && Wake(s, now).timers == []
    ensures s.runq == [] && s.timers == []
  {
    assert |Sleepers(s.timers[..Due(s.timers, now)])| == Due(s.timers, now);
  }

  lemma SleeperAlive<G, M>(s: Sched<G, M>)
    requires Inv(s) && s.timers != []
    ensures s.timers[0].g in Unfinished(s) && s.state[s.timers[0].g] == WaitTimer
  {
    assert Sleepers(s.timers)[0] == s.timers[0].g;
    assert Located(s, s.timers[0].g);
  }

  lemma RunnerAlive<G, M>(s: Sched<G, M>)
    requires Inv(s) && s.runq != []
    ensures s.runq[0] in Unfinished(s) && s.state[s.runq[0]] == Runnable
  {
    assert Located(s, s.runq[0]);
  }

  /** Events a stuck program could still hope for: anything but new threads and mutexes from outside. */
  predicate Internal<G, M>(es: seq<Event<G, M>>) {
    forall i :: 0 <= i < |es| ==> !es[i].Spawn? && !es[i].NewMutex?
  }

  /** From a deadlock nothing ever runs again: no thread can step, and turns of the loop change nothing. */
  lemma {:induction false} DeadlockIsFinal<G, M>(s: Sched<G, M>, now: nat, es: seq<Event<G, M>>)
    requires Inv(s) && s.current.None? && Decide(s, now) == Deadlock && CanRun(s, es) && Internal(es)
    ensures After(s, es) == s && forall later: nat :: Decide(s, later) == Deadlock
    decreases |es|
  {
    hide Inv;
    NothingToRun(s, now);
    forall later: nat
      ensures Wake(s, later) == s
    {
      assert Sleepers(s.timers[..0]) == [];
      assert s.runq + [] == s.runq && s.timers[0..] == s.timers;
      assert SetAll(s.state, [], Runnable) == s.state;
    }
    if es != [] {
      assert es[0].Turn?;
      assert Step(s, es[0]) == s;
      DeadlockIsFinal(s, now, es[1..]);
    }
  }

  // ----- mutexes are handed over first come, first served ----------------------------------------------------------

  ghost function Unlocks<G, M>(es: seq<Event<G, M>>, m: M): nat {
    if es == [] then 0 else (if es[0] == Unlock(m) then 1 else 0) + Unlocks(es[1..], m)
  }

  /** A step other than unlocking m only lengthens its wait queue. */
  lemma QueueGrows<G, M>(s: Sched<G, M>, e: Event<G, M>, m: M)
    requires Enabled(s, e) && m in s.mutexes
    ensures m in Step(s, e).mutexes
    ensures e != Unlock(m) ==> s.mutexes[m].waiters <= Step(s, e).mutexes[m].waiters
    ensures e == Unlock(m) && s.mutexes[m].waiters != [] ==>
              Step(s, e).mutexes[m].waiters == s.mutexes[m].waiters[1..] &&
                  (s.mutexes[m].waiters[0], m) in Step(s, e).holds
  {
  }

  /** After j unlocks the waiter that was at position k is at position k - j. */
  lemma {:induction false} WaiterMovesUp<G, M>(s: Sched<G, M>, es: seq<Event<G, M>>, m: M, k: nat)
    requires CanRun(s, es) && m in s.mutexes && k < |s.mutexes[m].waiters| && Unlocks(es, m) <= k
    ensures var s', j := After(s, es), Unlocks(es, m);
            m in s'.mutexes && k - j < |s'.mutexes[m].waiters| &&
                s'.mutexes[m].waiters[k - j] == s.mutexes[m].waiters[k]
    decreases |es|
  {
    if es != [] {
      QueueGrows(s, es[0], m);
      hide Step, Enabled;
      var s1, k1 := Step(s, es[0]), if es[0] == Unlock(m) then k - 1 else k;
      assert s1.mutexes[m].waiters[k1] == s.mutexes[m].waiters[k];
      WaiterMovesUp(s1, es[1..], m, k1);
    }
  }

  /** The waiter at position k owns the mutex right after the (k+1)-st unlock, and waits until then. */
  lemma FirstComeFirstServed<G, M>(s: Sched<G, M>, es: seq<Event<G, M>>, m: M, k: nat)
    requires CanRun(s, es) && m in s.mutexes && k < |s.mutexes[m].waiters| && Unlocks(es, m) == k
    requires Enabled(After(s, es), Unlock(m))
    ensures Waits(After(s, es), s.mutexes[m].waiters[k], m)
    ensures (s.mutexes[m].waiters[k], m) in Step(After(s, es), Unlock(m)).holds
  {
    WaiterMovesUp(s, es, m, k);
    QueueGrows(After(s, es), Unlock(m), m);
  }

  /** g does not run in any state before the last. */
  ghost predicate NotRun<G, M>(s: Sched<G, M>, es: seq<Event<G, M>>, g: G)
    requires CanRun(s, es)
    decreases |es|
  {
    es == [] || (s.current != Some(g) && NotRun(Step(s, es[0]), es[1..], g))
  }

  /** A thread parked in lock(m) owns m when it runs again. */
  lemma {:induction false} LockReturnsOwning<G, M>(s: Sched<G, M>, es: seq<Event<G, M>>, g: G, m: M)
    requires Inv(s) && CanRun(s, es) && NotRun(s, es, g)
    requires Waits(s, g, m) || (g, m) in s.holds
    ensures var s' := After(s, es);
            (Waits(s', g, m) || (g, m) in s'.holds) && (s'.current == Some(g) ==> (g, m) in s'.holds)
    decreases |es|
  {
    if es == [] {
      if s.current == Some(g) {
        RunningNowhere(s);
      }
    } else {
      StepInv(s, es[0]);
      hide Inv;
      ClaimKept(s, es[0], g, m);
      LockReturnsOwning(Step(s, es[0]), es[1..], g, m);
    }
  }

  lemma ClaimKept<G, M>(s: Sched<G, M>, e: Event<G, M>, g: G, m: M)
    requires Enabled(s, e) && s.current != Some(g)
    requires Waits(s, g, m) || (g, m) in s.holds
    ensures Waits(Step(s, e), g, m) || (g, m) in Step(s, e).holds
  {
    if Waits(s, g, m) {
      QueueGrows(s, e, m);
      var ws := s.mutexes[m].waiters;
      if e == Unlock(m) {
        assert g == ws[0] || g in ws[1..];
      } else {
        var i :| 0 <= i < |ws| && ws[i] == g;
        assert Step(s, e).mutexes[m].waiters[i] == g;
      }
    }
  }

  // ----- bounded dispatch ------------------------------------------------------------------------------------------

  /** The threads dispatched by the turns of a run. */
  function Dispatches<G, M>(s: Sched<G, M>, es: seq<Event<G, M>>): nat
    requires CanRun(s, es)
    decreases |es|
  {
    if es == [] then 0
    else (if es[0].Turn? && Decide(s, es[0].now) == Dispatched then 1 else 0) + Dispatches(Step(s, es[0]), es[1..])
  }

  lemma RunQueueMoves<G, M>(s: Sched<G, M>, e: Event<G, M>)
    requires Enabled(s, e) && s.runq != []
    ensures e.Turn? ==> Decide(s, e.now) == Dispatched && Step(s, e).current == Some(s.runq[0])
                        && s.runq[1..] <= Step(s, e).runq
    ensures !e.Turn? ==> s.runq <= Step(s, e).runq
  {
  }

  /** After j dispatches the thread at position k of the run queue is at position k - j. */
  lemma {:induction false} RunnerMovesUp<G, M>(s: Sched<G, M>, es: seq<Event<G, M>>, k: nat)
    requires CanRun(s, es) && k < |s.runq| && Dispatches(s, es) <= k
    ensures var s', j := After(s, es), Dispatches(s, es);
            k - j < |s'.runq| && s'.runq[k - j] == s.runq[k]
    decreases |es|
  {
    if es != [] {
      RunQueueMoves(s, es[0]);
      hide Step, Enabled, Decide;
      RunnerMovesUp(Step(s, es[0]), es[1..], if es[0].Turn? then k - 1 else k);
    }
  }

  /** The thread at position k is the one the next turn dispatches after exactly k others. */
  lemma BoundedDispatch<G, M>(s: Sched<G, M>, es: seq<Event<G, M>>, k: nat, now: nat)
    requires CanRun(s, es) && k < |s.runq| && Dispatches(s, es) == k && Enabled(After(s, es), Turn(now))
    ensures Step(After(s, es), Turn(now)).current == Some(s.runq[k])
  {
    RunnerMovesUp(s, es, k);
    RunQueueMoves(After(s, es), Turn(now));
  }

  // ----- timers -----------------------------------------------------------------------------------------------------

  function DueOnly<G>(timers: seq<Timer<G>>, now: nat): seq<Timer<G>> {
    if timers == [] then [] else (if timers[0].deadline <= now then [timers[0]] else []) + DueOnly(timers[1..], now)
  }

  function LaterOnly<G>(timers: seq<Timer<G>>, now: nat): seq<Timer<G>> {
    if timers == [] then [] else (if timers[0].deadline > now then [timers[0]] else []) + LaterOnly(timers[1..], now)
  }

  lemma {:induction false} NoneDue<G>(timers: seq<Timer<G>>, now: nat)
    requires forall i :: 0 <= i < |timers| ==> timers[i].deadline > now
    ensures DueOnly(timers, now) == [] && LaterOnly(timers, now) == timers
  {
    if timers != [] {
      NoneDue(timers[1..], now);
    }
  }

  /** The scan that stops at the first entry not yet due finds all entries that are. */
  lemma {:induction false} ScanIsFilter<G>(timers: seq<Timer<G>>, now: nat)
    requires Sorted(timers)
    ensures timers[..Due(timers, now)] == DueOnly(timers, now) && timers[Due(timers, now)..] == LaterOnly(timers, now)
  {
    if timers != [] {
      if timers[0].deadline > now {
        NoneDue(timers, now);
      } else {
        ScanIsFilter(timers[1..], now);
        var n := Due(timers[1..], now);
        assert timers[..n + 1] == [timers[0]] + timers[1..][..n];
      }
    }
  }

  /** A turn moves exactly the due sleepers to the end of the run queue, in list order. */
  lemma WakeExact<G, M>(s: Sched<G, M>, now: nat)
    requires Inv(s)
    ensures Wake(s, now).runq == s.runq + Sleepers(DueOnly(s.timers, now))
    ensures Wake(s, now).timers == LaterOnly(s.timers, now)
  {
    ScanIsFilter(s.timers, now);
  }

  function With<G>(timers: seq<Timer<G>>, d: nat): seq<G> {
    if timers == [] then [] else (if timers[0].deadline == d then [timers[0].g] else []) + With(timers[1..], d)
  }

  lemma {:induction false} WithConcat<G>(a: seq<Timer<G>>, b: seq<Timer<G>>, d: nat)
    ensures With(a + b, d) == With(a, d) + With(b, d)
  {
    if a == [] {
      assert a + b == b;
    } else {
      assert (a + b)[1..] == a[1..] + b;
      WithConcat(a[1..], b, d);
      var first := if a[0].deadline == d then [a[0].g] else [];
      assert With(a + b, d) == first + With(a[1..] + b, d);
      assert first + (With(a[1..], d) + With(b, d)) == (first + With(a[1..], d)) + With(b, d);
    }
  }

  lemma {:induction false} WithNone<G>(timers: seq<Timer<G>>, d: nat)
    requires forall i :: 0 <= i < |timers| ==> timers[i].deadline != d
    ensures With(timers, d) == []
  {
    if timers != [] {
      WithNone(timers[1..], d);
    }
  }

  /** Sleeping joins behind all earlier sleepers with the same deadline and disturbs no other. */
  lemma InsertStable<G>(timers: seq<Timer<G>>, t: Timer<G>, d: nat)
    requires Sorted(timers)
    ensures With(Insert(timers, t), d) == With(timers, d) + if d == t.deadline then [t.g] else []
  {
    DueExact(timers, t.deadline);
    var k := Due(timers, t.deadline);
    assert timers == timers[..k] + timers[k..];
    WithConcat(timers[..k], timers[k..], d);
    WithConcat(timers[..k] + [t], timers[k..], d);
    WithConcat(timers[..k], [t], d);
    if d == t.deadline {
      WithNone(timers[k..], d);
    }
  }
}
