/**
 What each call is for, over whole runs: a mutex is a line of threads whose first one owns it, a sleep
 lasts as long as it says, a yield takes its turn again, and an exit is final.
 */
module SchedulerCalls {
  import opened Prelude
  import opened SchedulerModel
  import opened SchedulerRuns

  // ----- a mutex is a line -----------------------------------------------------------------------------

  /** Who stands in line for m after a run: lock joins its end, unlock leaves from its head. */
  ghost function Line<G, M>(s: Sched<G, M>, es: seq<Event<G, M>>, m: M, line: seq<G>): seq<G>
    requires CanRun(s, es)
    decreases |es|
  {
    if es == [] then line
    else Line(Step(s, es[0]), es[1..], m, Moved(s, es[0], m, line))
  }

  ghost function Moved<G, M>(s: Sched<G, M>, e: Event<G, M>, m: M, line: seq<G>): seq<G>
    requires Enabled(s, e)
  {
    if e == Lock(m) then line + [s.current.value] else if e == Unlock(m) && line != [] then line[1..] else line
  }

  ghost function Holders<G, M>(s: Sched<G, M>, m: M): set<G> {
    set h | h in s.holds && h.1 == m :: h.0
  }

  /** The first in line holds the mutex and nobody else does, and the others wait in order. */
  ghost predicate Stands<G, M>(s: Sched<G, M>, m: M, line: seq<G>) {
    if m !in s.mutexes then line == []
    else
      && (s.mutexes[m].locked <==> line != [])
      && Holders(s, m) == (if line == [] then {} else {line[0]})
      && s.mutexes[m].waiters == if line == [] then [] else line[1..]
  }

  lemma LockedIsHeld<G, M>(s: Sched<G, M>, m: M)
    requires Inv(s) && m in s.mutexes
    ensures s.mutexes[m].locked <==> Holders(s, m) != {}
    ensures !s.mutexes[m].locked ==> s.mutexes[m].waiters == []
  {
    hide Queues, Places, Unfinished;
    if s.mutexes[m].locked {
      var h :| h in s.holds && h.1 == m;
      assert h.0 in Holders(s, m);
    }
  }

  lemma LineMoves<G, M>(s: Sched<G, M>, e: Event<G, M>, m: M, line: seq<G>)
    requires Inv(s) && Enabled(s, e) && Stands(s, m, line)
    ensures Stands(Step(s, e), m, Moved(s, e, m, line))
  {
    if e == Lock(m) {
      LineGrows(s, m, line);
    } else if e == Unlock(m) {
      LineShrinks(s, m, line);
    } else {
      HoldersStay(s, e, m);
      hide Inv, Holders;
    }
  }

  lemma LineGrows<G, M>(s: Sched<G, M>, m: M, line: seq<G>)
    requires Enabled(s, Lock(m)) && Stands(s, m, line)
    ensures Stands(Step(s, Lock(m)), m, line + [s.current.value])
  {
    var g, s' := s.current.value, Step(s, Lock(m));
    assert line == [] ==> Holders(s', m) == Holders(s, m) + {g};
    assert line != [] ==> (line + [g])[1..] == line[1..] + [g];
  }

  lemma LineShrinks<G, M>(s: Sched<G, M>, m: M, line: seq<G>)
    requires Inv(s) && Enabled(s, Unlock(m)) && Stands(s, m, line)
    ensures line != [] && Stands(Step(s, Unlock(m)), m, line[1..])
  {
    var g, s' := s.current.value, Step(s, Unlock(m));
    assert g in Holders(s, m);
    assert Holders(s', m) == Holders(s, m) - {g} + if |line| > 1 then {line[1]} else {};
    RunningNowhere(s);
    hide Inv;
    assert |line| > 1 ==> line[1..][0] == line[1];
  }

  lemma HoldersStay<G, M>(s: Sched<G, M>, e: Event<G, M>, m: M)
    requires Inv(s) && Enabled(s, e) && e != Lock(m) && e != Unlock(m)
    ensures Holders(Step(s, e), m) == Holders(s, m)
    ensures e == NewMutex(m) ==> Holders(s, m) == {}
    ensures m in s.mutexes ==> m in Step(s, e).mutexes && Step(s, e).mutexes[m] == s.mutexes[m]
    ensures m !in s.mutexes && e != NewMutex(m) ==> m !in Step(s, e).mutexes
  {
    assert m !in s.mutexes ==> forall h :: h in s.holds ==> h.1 != m;
    SameHolds(s, e, m);
    hide Inv, Holders, Step, Enabled;
    SameHolders(s, Step(s, e), m);
    if m !in s.mutexes {
      NoHolders(s, m);
    }
  }

  lemma SameHolds<G, M>(s: Sched<G, M>, e: Event<G, M>, m: M)
    requires Enabled(s, e) && e != Lock(m) && e != Unlock(m)
    ensures forall h :: h in s.holds && h.1 == m <==> h in Step(s, e).holds && h.1 == m
    ensures m in s.mutexes ==> m in Step(s, e).mutexes && Step(s, e).mutexes[m] == s.mutexes[m]
    ensures m !in s.mutexes && e != NewMutex(m) ==> m !in Step(s, e).mutexes
    ensures e == NewMutex(m) ==> m !in s.mutexes
  {
  }

  lemma SameHolders<G, M>(s1: Sched<G, M>, s2: Sched<G, M>, m: M)
    requires forall h :: h in s1.holds && h.1 == m <==> h in s2.holds && h.1 == m
    ensures Holders(s1, m) == Holders(s2, m)
  {
  }

  lemma NoHolders<G, M>(s: Sched<G, M>, m: M)
    requires forall h :: h in s.holds ==> h.1 != m
    ensures Holders(s, m) == {}
  {
  }

  lemma {:induction false} LineFrom<G, M>(s: Sched<G, M>, es: seq<Event<G, M>>, m: M, line: seq<G>)
    requires Inv(s) && CanRun(s, es) && Stands(s, m, line)
    ensures Stands(After(s, es), m, Line(s, es, m, line))
    decreases |es|
  {
    if es != [] {
      StepInv(s, es[0]);
      LineMoves(s, es[0], m, line);
      hide Inv, Stands, Step, Moved;
      LineFrom(Step(s, es[0]), es[1..], m, Moved(s, es[0], m, line));
    }
  }

  /** In every run: the mutex is locked while anyone stands in line, by the first, and the others wait in line order. */
  lemma MutexIsLine<G, M>(es: seq<Event<G, M>>, m: M)
    requires CanRun(Initial<G, M>(), es)
    ensures Stands(After(Initial<G, M>(), es), m, Line(Initial<G, M>(), es, m, []))
  {
    InitialInv<G, M>();
    LineFrom(Initial<G, M>(), es, m, []);
  }

  /** lock returns at once, owning the mutex, if and only if nobody owned it; otherwise the caller waits for it. */
  lemma LockTakesOrWaits<G, M>(s: Sched<G, M>, m: M)
    requires Inv(s) && Enabled(s, Lock(m))
    ensures var g, s' := s.current.value, Step(s, Lock(m));
            if Holders(s, m) == {}
            then s'.current == Some(g) && s'.holds == s.holds + {(g, m)} && !Waits(s', g, m)
            else s'.current == None && s'.holds == s.holds && Waits(s', g, m) && s'.state[g] == WaitMutex
  {
    RunningNowhere(s);
    LockedIsHeld(s, m);
    hide Inv, Holders;
    var g, ws := s.current.value, s.mutexes[m].waiters;
    assert (ws + [g])[|ws|] == g;
  }

  /** unlock gives the mutex up: to the first waiter, or to nobody. */
  lemma UnlockPassesOrFrees<G, M>(s: Sched<G, M>, m: M)
    requires Inv(s) && Enabled(s, Unlock(m))
    ensures var g, s', ws := s.current.value, Step(s, Unlock(m)), s.mutexes[m].waiters;
            && (g, m) !in s'.holds && s'.current == Some(g)
            && Holders(s', m) == if ws == [] then {} else {ws[0]}
  {
    RunningNowhere(s);
    assert forall x :: x in s.mutexes[m].waiters ==> x != s.current.value;
  }

  ghost predicate Free<G, M>(s: Sched<G, M>, m: M) {
    m in s.mutexes && Holders(s, m) == {}
  }

  /** A mutex given up without waiters, or a new one, stays free until a thread locks it, which does not wait. */
  lemma {:induction false} FreeUntilLocked<G, M>(s: Sched<G, M>, es: seq<Event<G, M>>, m: M)
    requires Inv(s) && CanRun(s, es) && Free(s, m) && forall i :: 0 <= i < |es| ==> es[i] != Lock(m)
    ensures var s' := After(s, es); Free(s', m) && !s'.mutexes[m].locked
    ensures var s' := After(s, es);
            Enabled(s', Lock(m)) ==>
              Step(s', Lock(m)).current == s'.current && (s'.current.value, m) in Step(s', Lock(m)).holds
    decreases |es|
  {
    LockedIsHeld(s, m);
    if es == [] {
      if Enabled(s, Lock(m)) {
        LockTakesOrWaits(s, m);
      }
    } else {
      StepInv(s, es[0]);
      StaysFree(s, es[0], m);
      hide Inv, Step, Enabled, Free;
      FreeUntilLocked(Step(s, es[0]), es[1..], m);
    }
  }

  lemma StaysFree<G, M>(s: Sched<G, M>, e: Event<G, M>, m: M)
    requires Inv(s) && Enabled(s, e) && Free(s, m) && e != Lock(m)
    ensures Free(Step(s, e), m)
  {
    assert forall h :: h in s.holds ==> h.0 in Holders(s, h.1);
    HoldersStay(s, e, m);
  }

  lemma NewMutexIsFree<G, M>(s: Sched<G, M>, m: M)
    requires Inv(s) && Enabled(s, NewMutex(m))
    ensures Free(Step(s, NewMutex(m)), m)
  {
    assert forall h :: h in s.holds ==> h.1 in s.mutexes;
  }

  /** Who holds a mutex holds it until the unlock. */
  lemma {:induction false} HeldUntilUnlocked<G, M>(s: Sched<G, M>, es: seq<Event<G, M>>, g: G, m: M)
    requires CanRun(s, es) && (g, m) in s.holds && forall i :: 0 <= i < |es| ==> es[i] != Unlock(m)
    ensures (g, m) in After(s, es).holds
    decreases |es|
  {
    if es != [] {
      HeldUntilUnlocked(Step(s, es[0]), es[1..], g, m);
    }
  }

  // ----- a sleep lasts until its deadline -----------------------------------------------------------------

  ghost predicate Asleep<G, M>(s: Sched<G, M>, g: G, d: nat) {
    Timer(d, g) in s.timers
  }

  /** Every turn of the run comes before time d. */
  predicate Before<G, M>(es: seq<Event<G, M>>, d: nat) {
    forall i :: 0 <= i < |es| && es[i].Turn? ==> es[i].now < d
  }

  /**
   A sleeper that goes to sleep at `now` for `ms` is due at d, the sum as far as 64 bits hold it.  It sleeps
   through every run of turns before d, and the first turn from d on puts it in the run queue or runs it.
   */
  lemma SleepLasts<G, M>(s: Sched<G, M>, now: nat, ms: nat, d: nat, carry: nat, es: seq<Event<G, M>>, later: nat)
    requires Inv(s) && Enabled(s, Sleep(now, ms))
    requires d < 0x1_0000_0000_0000_0000 && now + ms == d + carry * 0x1_0000_0000_0000_0000
    requires CanRun(s, [Sleep(now, ms)] + es) && Before(es, d) && later >= d
    ensures var g, s' := s.current.value, After(s, [Sleep(now, ms)] + es);
            && s'.current != Some(g) && g !in s'.runq && g in s'.state && s'.state[g] == WaitTimer
            && (Enabled(s', Turn(later)) ==>
                  var s'' := Step(s', Turn(later));
                  g !in Sleepers(s''.timers) && (g in s''.runq || s''.current == Some(g)))
  {
    var g := s.current.value;
    var e: Event<G, M> := Sleep(now, ms);
    var all := [e] + es;
    assert all[0] == e && all[1..] == es;
    var s1 := Step(s, e);
    StepInv(s, e);
    FallsAsleep(s, now, ms, d, carry);
    RunInv(s1, es);
    StaysAsleep(s1, es, g, d);
    var s' := After(s1, es);
    SleeperLocated(s', g, d);
    if Enabled(s', Turn(later)) {
      Wakes(s', g, d, later);
    }
  }

  /** The usual case: now + ms fits, and the sleep lasts exactly ms. */
  lemma SleepLastsItsTime<G, M>(s: Sched<G, M>, now: nat, ms: nat, es: seq<Event<G, M>>, later: nat)
    requires Inv(s) && Enabled(s, Sleep(now, ms)) && now + ms < 0x1_0000_0000_0000_0000
    requires CanRun(s, [Sleep(now, ms)] + es) && Before(es, now + ms) && later >= now + ms
    ensures var g, s' := s.current.value, After(s, [Sleep(now, ms)] + es);
            && s'.current != Some(g) && g !in s'.runq && g in s'.state && s'.state[g] == WaitTimer
            && (Enabled(s', Turn(later)) ==>
                  var s'' := Step(s', Turn(later));
                  g !in Sleepers(s''.timers) && (g in s''.runq || s''.current == Some(g)))
  {
    SleepLasts(s, now, ms, now + ms, 0, es, later);
  }

  lemma FallsAsleep<G, M>(s: Sched<G, M>, now: nat, ms: nat, d: nat, carry: nat)
    requires Enabled(s, Sleep(now, ms))
    requires d < 0x1_0000_0000_0000_0000 && now + ms == d + carry * 0x1_0000_0000_0000_0000
    ensures Asleep(Step(s, Sleep(now, ms)), s.current.value, d)
  {
    assert Deadline(now, ms) == d;
    var t := Timer(d, s.current.value);
    var k := Due(s.timers, d);
    assert Insert(s.timers, t)[k] == t;
  }

  lemma {:induction false} StaysAsleep<G, M>(s: Sched<G, M>, es: seq<Event<G, M>>, g: G, d: nat)
    requires Inv(s) && CanRun(s, es) && Asleep(s, g, d) && Before(es, d)
    ensures Asleep(After(s, es), g, d)
    decreases |es|
  {
    if es != [] {
      StepInv(s, es[0]);
      SleepsOn(s, es[0], g, d);
      assert Before(es[1..], d) by {
        assert forall i :: 0 <= i < |es[1..]| ==> es[1..][i] == es[i + 1];
      }
      hide Inv, Step, Enabled, Asleep;
      StaysAsleep(Step(s, es[0]), es[1..], g, d);
    }
  }

  lemma NotYetDue<G>(timers: seq<Timer<G>>, t: Timer<G>, now: nat)
    requires Sorted(timers) && t in timers && t.deadline > now
    ensures t in timers[Due(timers, now)..]
  {
    DueExact(timers, now);
    var i :| 0 <= i < |timers| && timers[i] == t;
    var n := Due(timers, now);
    assert timers[n..][i - n] == t;
  }

  lemma InsertKeeps<G>(timers: seq<Timer<G>>, t: Timer<G>, another: Timer<G>)
    requires t in timers
    ensures t in Insert(timers, another)
  {
    var k := Due(timers, another.deadline);
    assert timers == timers[..k] + timers[k..];
  }

  lemma SleepsOn<G, M>(s: Sched<G, M>, e: Event<G, M>, g: G, d: nat)
    requires Inv(s) && Enabled(s, e) && Asleep(s, g, d) && (e.Turn? ==> e.now < d)
    ensures Asleep(Step(s, e), g, d)
  {
    assert Sorted(s.timers);
    if e.Turn? {
      NotYetDue(s.timers, Timer(d, g), e.now);
    } else if e.Sleep? {
      InsertKeeps(s.timers, Timer(d, g), Timer(Deadline(e.now, e.ms), s.current.value));
    }
    hide Inv, Insert, Due, Deadline, Sorted;
  }

  lemma SleeperLocated<G, M>(s: Sched<G, M>, g: G, d: nat)
    requires Inv(s) && Asleep(s, g, d)
    ensures s.current != Some(g) && g !in s.runq && g in s.state && s.state[g] == WaitTimer
  {
    var i :| 0 <= i < |s.timers| && s.timers[i] == Timer(d, g);
    assert Sleepers(s.timers)[i] == g;
    assert Located(s, g);
  }

  lemma Wakes<G, M>(s: Sched<G, M>, g: G, d: nat, now: nat)
    requires Inv(s) && Asleep(s, g, d) && now >= d && Enabled(s, Turn(now))
    ensures var s' := Step(s, Turn(now)); g !in Sleepers(s'.timers) && (g in s'.runq || s'.current == Some(g))
  {
    var i :| 0 <= i < |s.timers| && s.timers[i] == Timer(d, g);
    DueExact(s.timers, now);
    var n := Due(s.timers, now);
    var woken, rest := Sleepers(s.timers[..n]), Sleepers(s.timers[n..]);
    assert woken[i] == g;
    SplitSleepers(s.timers, n);
    DistinctConcat(woken, rest);
    var ready := s.runq + woken;
    assert ready[|s.runq| + i] == g;
    assert g == ready[0] || g in ready[1..];
  }

  // ----- spawn, yield and exit -----------------------------------------------------------------------------

  /** A new thread and a yielding one stand at the end of the run queue: they run after exactly those before them. */
  lemma RunsInItsTurn<G, M>(s: Sched<G, M>, e: Event<G, M>, g: G, es: seq<Event<G, M>>, now: nat)
    requires Enabled(s, e) && (e == Spawn(g) || (e == Yield && s.current == Some(g)))
    requires CanRun(Step(s, e), es) && Dispatches(Step(s, e), es) == |s.runq|
    requires Enabled(After(Step(s, e), es), Turn(now))
    ensures Step(After(Step(s, e), es), Turn(now)).current == Some(g)
  {
    BoundedDispatch(Step(s, e), es, |s.runq|, now);
  }

  /** After exit the thread is finished, and never runs, waits or sleeps again. */
  lemma ExitIsFinal<G, M>(s: Sched<G, M>, es: seq<Event<G, M>>)
    requires Inv(s) && Enabled(s, Exit) && CanRun(Step(s, Exit), es)
    ensures var g, s' := s.current.value, After(Step(s, Exit), es);
            && Step(s, Exit).live == s.live - 1 && g !in Unfinished(s') && s'.current != Some(g)
            && g !in s'.runq && g !in Sleepers(s'.timers) && forall m :: m in s'.mutexes ==> !Waits(s', g, m)
  {
    var g := s.current.value;
    StepInv(s, Exit);
    RunInv(Step(s, Exit), es);
    RunningNowhere(s);
    StaysDead(Step(s, Exit), es, g);
    assert Located(After(Step(s, Exit), es), g);
  }

  lemma {:induction false} StaysDead<G, M>(s: Sched<G, M>, es: seq<Event<G, M>>, g: G)
    requires Inv(s) && CanRun(s, es) && g in s.state && s.state[g] == Dead
    ensures var s' := After(s, es); g in s'.state && s'.state[g] == Dead
    decreases |es|
  {
    if es != [] {
      DeadAfter(s, es[0], g);
      StepInv(s, es[0]);
      hide Inv, Step, Enabled;
      StaysDead(Step(s, es[0]), es[1..], g);
    }
  }

  lemma DeadAfter<G, M>(s: Sched<G, M>, e: Event<G, M>, g: G)
    requires Inv(s) && Enabled(s, e) && g in s.state && s.state[g] == Dead
    ensures var s' := Step(s, e); g in s'.state && s'.state[g] == Dead
  {
    assert Located(s, g);
    if e.Turn? {
      var n := Due(s.timers, e.now);
      SplitSleepers(s.timers, n);
      assert g !in s.runq + Sleepers(s.timers[..n]);
    } else if e.Unlock? && s.mutexes[e.m].waiters != [] {
      assert e.m in s.mutexes && !Waits(s, g, e.m);
    }
  }

  // ----- a run ---------------------------------------------------------------------------------------------

  const SPAWNED: Sched<int, int> := Sched([1], None, map[], [], 1, map[1 := Runnable], {})
  const EQUIPPED := SPAWNED.(mutexes := map[7 := Mutex(false, [])])
  const RUNS := EQUIPPED.(runq := [], current := Some(1), state := map[1 := Running])
  const HOLDS := RUNS.(mutexes := map[7 := Mutex(true, [])], holds := {(1, 7)})
  const SLEEPS := HOLDS.(current := None, state := map[1 := WaitTimer], timers := [Timer(150, 1)])

  /** Thread 1 takes mutex 7 and sleeps for 50 ms at 100: at 149 it sleeps, at 150 it runs and still holds the mutex. */
  lemma SampleRun()
    ensures var es := [Spawn(1), NewMutex(7), Turn(0), Lock(7), Sleep(100, 50), Turn(149), Turn(150)];
            CanRun(Initial<int, int>(), es) && After(Initial<int, int>(), es) == HOLDS
  {
    SampleLock();
    SampleSleep();
    SampleWait();
    SampleWake();
    hide Step, Enabled;
    RunStep(SLEEPS, Turn(150), []);
    RunStep(SLEEPS, Turn(149), [Turn(150)]);
    RunStep(HOLDS, Sleep(100, 50), [Turn(149), Turn(150)]);
    RunStep(RUNS, Lock(7), [Sleep(100, 50), Turn(149), Turn(150)]);
    RunStep(EQUIPPED, Turn(0), [Lock(7), Sleep(100, 50), Turn(149), Turn(150)]);
    RunStep(SPAWNED, NewMutex(7), [Turn(0), Lock(7), Sleep(100, 50), Turn(149), Turn(150)]);
    RunStep(Initial(), Spawn(1), [NewMutex(7), Turn(0), Lock(7), Sleep(100, 50), Turn(149), Turn(150)]);
  }

  lemma SampleLock()
    ensures Takes(Initial<int, int>(), Spawn(1), SPAWNED) && Takes(SPAWNED, NewMutex(7), EQUIPPED)
    ensures Takes(EQUIPPED, Turn(0), RUNS) && Takes(RUNS, Lock(7), HOLDS)
  {
    NothingToWake(EQUIPPED, 0);
  }

  lemma SampleSleep()
    ensures Takes(HOLDS, Sleep(100, 50), SLEEPS)
  {
    SampleInsert();
    hide Insert, Deadline;
  }

  lemma SampleInsert()
    ensures Insert<int>([], Timer(150, 1)) == [Timer(150, 1)] && Deadline(100, 50) == 150
  {
  }

  lemma SampleWait()
    ensures Takes(SLEEPS, Turn(149), SLEEPS)
  {
    assert Due(SLEEPS.timers, 149) == 0;
    NothingToWake(SLEEPS, 149);
    hide Wake, Due;
  }

  lemma SampleWake()
    ensures Takes(SLEEPS, Turn(150), HOLDS)
  {
    WakesOnly(SLEEPS, 150);
    hide Wake, Due;
  }

  lemma RunStep<G, M>(s: Sched<G, M>, e: Event<G, M>, rest: seq<Event<G, M>>)
    requires Enabled(s, e) && CanRun(Step(s, e), rest)
    ensures CanRun(s, [e] + rest) && After(s, [e] + rest) == After(Step(s, e), rest)
  {
    assert ([e] + rest)[1..] == rest;
  }

  lemma NothingToWake<G, M>(s: Sched<G, M>, now: nat)
    requires Due(s.timers, now) == 0
    ensures Wake(s, now) == s
  {
    assert Sleepers(s.timers[..0]) == [] && s.runq + [] == s.runq && s.timers[0..] == s.timers;
    assert SetAll(s.state, [], Runnable) == s.state;
  }

  lemma WakesOnly(s: Sched<int, int>, now: nat)
    requires |s.timers| == 1 && s.timers[0].deadline <= now && s.runq == [] && s.state.Keys == {s.timers[0].g}
    ensures var g := s.timers[0].g;
            Wake(s, now) == s.(runq := [g], timers := [], state := map[g := Runnable])
  {
    var g := s.timers[0].g;
    assert s.timers[1..] == [] && Due(s.timers, now) == 1;
    assert s.timers[..1] == s.timers && Sleepers(s.timers) == [g];
    assert SetAll(s.state, [g], Runnable) == map[g := Runnable];
  }
}
