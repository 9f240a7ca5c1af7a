/**
 The green-thread scheduler of runtime/ncrt.c as a state machine driven by the single-thread loop:
 every yield, lock, unlock, sleep, exit, spawn and every turn of the loop is one step.
 */
module SchedulerModel {
  import opened Prelude

  datatype GState = Runnable | Running | WaitMutex | WaitTimer | Dead

  datatype Timer<G> = Timer(deadline: nat, g: G)
  datatype Mutex<G> = Mutex(locked: bool, waiters: seq<G>)

  /** `state` remembers finished threads as Dead; `holds` records who has acquired what. */
  datatype Sched<G, M> = Sched(
    runq: seq<G>, current: Option<G>, mutexes: map<M, Mutex<G>>, timers: seq<Timer<G>>,
    live: int, state: map<G, GState>, holds: set<(G, M)>)

  datatype Event<G, M> =
    | Spawn(g: G) | Yield | Lock(m: M) | Unlock(m: M) | Sleep(now: nat,
        ms: nat) | Exit | NewMutex(m: M) | Turn(now: nat)

  // ----- the timer list -------------------------------------------------------------------------------

  /** Millisecond counts are 64-bit. */
  function Deadline(now: nat, ms: nat): nat {
    (now + ms) % 0x1_0000_0000_0000_0000
  }

  /** The number of leading entries that are due. */
  function Due<G>(timers: seq<Timer<G>>, now: nat): (n: nat)
    ensures n <= |timers|
  {
    if timers == [] || timers[0].deadline > now then 0 else 1 + Due(timers[1..], now)
  }

  /** Behind the leading entries that are due no later. */
  function Insert<G>(timers: seq<Timer<G>>, t: Timer<G>): seq<Timer<G>> {
    var k := Due(timers, t.deadline);
    timers[..k] + [t] + timers[k..]
  }

  function Sleepers<G>(timers: seq<Timer<G>>): (gs: seq<G>)
    ensures |gs| == |timers| && forall i :: 0 <= i < |gs| ==> gs[i] == timers[i].g
  {
    seq(|timers|, i requires 0 <= i < |timers| => timers[i].g)
  }

  // ----- steps -------------------------------------------------------------------------------------------

  function SetAll<G>(state: map<G, GState>, gs: seq<G>, to_: GState): map<G, GState> {
    map g | g in state.Keys :: if g in gs then to_ else state[g]
  }

  /** wake_expired_timers: the due threads join the end of the run queue in list order. */
  function Wake<G, M>(s: Sched<G, M>, now: nat): Sched<G, M> {
    var n := Due(s.timers, now);
    var woken := Sleepers(s.timers[..n]);
    s.(runq := s.runq + woken, timers := s.timers[n..], state := SetAll(s.state, woken, Runnable))
  }

  datatype Verdict = Dispatched | Waiting | Deadlock | Finished

  /** What the loop decides once the due sleepers are awake. */
  function Outlook<G, M>(s: Sched<G, M>): Verdict {
    if s.runq != [] then Dispatched
    else if s.timers != [] then Waiting
    else if s.live > 0 then Deadlock
    else Finished
  }

  function Decide<G, M>(s: Sched<G, M>, now: nat): Verdict {
    Outlook(Wake(s, now))
  }

  function Dispatch<G, M>(s: Sched<G, M>): Sched<G, M> {
    if s.runq == [] then s
    else s.(runq := s.runq[1..], current := Some(s.runq[0]), state := s.state[s.runq[0] := Running])
  }

  predicate Enabled<G, M>(s: Sched<G, M>, e: Event<G, M>) {
    match e
    case Spawn(g) => g !in s.state
    case NewMutex(m) => m !in s.mutexes
    case Turn(_) => s.current.None?
    case Lock(m) => s.current.Some? && m in s.mutexes
    case Unlock(m) => s.current.Some? && m in s.mutexes && (s.current.value, m) in s.holds
    case _ => s.current.Some?
  }

  /** The running thread gives up control in state `to_`. */
  function Leave<G, M>(s: Sched<G, M>, to_: GState): Sched<G, M>
    requires s.current.Some?
  {
    s.(current := None, state := s.state[s.current.value := to_])
  }

  function DoSpawn<G, M>(s: Sched<G, M>, g: G): Sched<G, M> {
    s.(runq := s.runq + [g], state := s.state[g := Runnable], live := s.live + 1)
  }

  function DoNewMutex<G, M>(s: Sched<G, M>, m: M): Sched<G, M> {
    s.(mutexes := s.mutexes[m := Mutex(false, [])])
  }

  function DoYield<G, M>(s: Sched<G, M>): Sched<G, M>
    requires s.current.Some?
  {
    Leave(s, Runnable).(runq := s.runq + [s.current.value])
  }

  /** A free mutex is taken; a locked one is waited for. */
  function DoLock<G, M>(s: Sched<G, M>, m: M): Sched<G, M>
    requires s.current.Some? && m in s.mutexes
  {
    var g, mu := s.current.value, s.mutexes[m];
    if !mu.locked then s.(mutexes := s.mutexes[m := Mutex(true, mu.waiters)], holds := s.holds + {(g, m)})
    else Leave(s, WaitMutex).(mutexes := s.mutexes[m := Mutex(true, mu.waiters + [g])])
  }

  /** With waiters the mutex stays locked and goes to the first of them. */
  function DoUnlock<G, M>(s: Sched<G, M>, m: M): Sched<G, M>
    requires s.current.Some? && m in s.mutexes
  {
    var g, mu := s.current.value, s.mutexes[m];
    if mu.waiters == [] then s.(mutexes := s.mutexes[m := Mutex(false, [])], holds := s.holds - {(g, m)})
    else
      var w := mu.waiters[0];
      s.(mutexes := s.mutexes[m := Mutex(mu.locked, mu.waiters[1..])], runq := s.runq + [w],
         state := s.state[w := Runnable], holds := s.holds - {(g, m)} + {(w, m)})
  }

  function DoSleep<G, M>(s: Sched<G, M>, now: nat, ms: nat): Sched<G, M>
    requires s.current.Some?
  {
    Leave(s, WaitTimer).(timers := Insert(s.timers, Timer(Deadline(now, ms), s.current.value)))
  }

  function DoExit<G, M>(s: Sched<G, M>): Sched<G, M>
    requires s.current.Some?
  {
    Leave(s, Dead).(live := s.live - 1)
  }

  function Step<G, M>(s: Sched<G, M>, e: Event<G, M>): Sched<G, M>
    requires Enabled(s, e)
  {
    match e
    case Spawn(g) => DoSpawn(s, g)
    case NewMutex(m) => DoNewMutex(s, m)
    case Yield => DoYield(s)
    case Lock(m) => DoLock(s, m)
    case Unlock(m) => DoUnlock(s, m)
    case Sleep(now, ms) => DoSleep(s, now, ms)
    case Exit => DoExit(s)
    case Turn(now) => Dispatch(Wake(s, now))
  }

  /** The step is enabled and leads from `before` to `after`. */
  ghost predicate Takes<G, M>(before: Sched<G, M>, e: Event<G, M>, after: Sched<G, M>) {
    Enabled(before, e) && after == Step(before, e)
  }

  function Initial<G, M>(): Sched<G, M> {
    Sched([], None, map[], [], 0, map[], {})
  }

  // ----- the inventory invariant -----------------------------------------------------------------------------

  ghost predicate Sorted<G>(timers: seq<Timer<G>>) {
    forall i, j :: 0 <= i < j < |timers| ==> timers[i].deadline <= timers[j].deadline
  }

  function Unfinished<G, M>(s: Sched<G, M>): set<G> {
    set g | g in s.state && s.state[g] != Dead
  }

  ghost predicate Waits<G, M>(s: Sched<G, M>, g: G, m: M) {
    m in s.mutexes && g in s.mutexes[m].waiters
  }

  /** Where a thread is, according to the queues. */
  ghost predicate Located<G, M>(s: Sched<G, M>, g: G)
    requires g in s.state
  {
    && (g in s.runq <==> s.state[g] == Runnable)
    && (s.current == Some(g) <==> s.state[g] == Running)
    && (g in Sleepers(s.timers) <==> s.state[g] == WaitTimer)
    && ((exists m :: m in s.mutexes && Waits(s, g, m)) <==> s.state[g] == WaitMutex)
  }

  /** Every queue holds submitted threads, none of them twice, and no thread waits for two mutexes. */
  ghost predicate Queues<G, M>(s: Sched<G, M>) {
    && Distinct(s.runq) && Distinct(Sleepers(s.timers)) && Sorted(s.timers)
    && (forall g :: g in s.runq ==> g in s.state)
    && (s.current.Some? ==> s.current.value in s.state)
    && (forall g :: g in Sleepers(s.timers) ==> g in s.state)
    && (forall m :: m in s.mutexes ==> Distinct(s.mutexes[m].waiters))
    && (forall m, g :: m in s.mutexes && g in s.mutexes[m].waiters ==> g in s.state)
    && (forall m1, m2, g ::
        m1 in s.mutexes && m2 in s.mutexes && g in s.mutexes[m1].waiters && g in s.mutexes[m2].waiters ==> m1 == m2)
  }

  /** A mutex is locked exactly while one thread holds it, and only then has it waiters. */
  ghost predicate Ownership<G, M>(s: Sched<G, M>) {
    && (forall h :: h in s.holds ==> h.0 in s.state && h.1 in s.mutexes && s.mutexes[h.1].locked)
    && (forall h1, h2 :: h1 in s.holds && h2 in s.holds && h1.1 == h2.1 ==> h1 == h2)
    && (forall m :: m in s.mutexes && s.mutexes[m].locked ==> exists h :: h in s.holds && h.1 == m)
    && (forall m :: m in s.mutexes && s.mutexes[m].waiters != [] ==> s.mutexes[m].locked)
  }

  ghost predicate Places<G, M>(s: Sched<G, M>) {
    forall g :: g in s.state ==> Located(s, g)
  }

  ghost predicate Inv<G, M>(s: Sched<G, M>) {
    Queues(s) && Ownership(s) && Places(s) && s.live == |Unfinished(s)|
  }

  lemma InitialInv<G, M>()
    ensures Inv(Initial<G, M>())
  {
  }

  // ----- every step keeps it ------------------------------------------------------------------------------------

  /** Waking takes exactly the entries that are due, and they are in front. */
  lemma {:induction false} DueExact<G>(timers: seq<Timer<G>>, now: nat)
    requires Sorted(timers)
    ensures forall i :: 0 <= i < |timers| ==> (timers[i].deadline <= now <==> i < Due(timers, now))
  {
    if timers != [] && timers[0].deadline <= now {
      assert forall i :: 0 < i < |timers| ==> timers[1..][i - 1] == timers[i];
      DueExact(timers[1..], now);
    }
  }

  lemma InsertSorted<G>(timers: seq<Timer<G>>, t: Timer<G>)
    requires Sorted(timers)
    ensures Sorted(Insert(timers, t))
  {
    DueExact(timers, t.deadline);
  }

  lemma DistinctConcat<T>(a: seq<T>, b: seq<T>)
    ensures Distinct(a + b) <==> Distinct(a) && Distinct(b) && forall x :: x in a ==> x !in b
  {
    var c := a + b;
    assert forall i :: 0 <= i < |b| ==> c[|a| + i] == b[i];
    if x :| x in a && x in b {
      var i :| 0 <= i < |a| && a[i] == x;
      var j :| 0 <= j < |b| && b[j] == x;
      assert c[i] == c[|a| + j];
    } else if !Distinct(b) {
      var i, j :| 0 <= i < j < |b| && b[i] == b[j];
      assert c[|a| + i] == c[|a| + j];
    } else if !Distinct(a) {
      var i, j :| 0 <= i < j < |a| && a[i] == a[j];
      assert c[i] == c[j];
    } else {
      forall i, j | 0 <= i < j < |c|
        ensures c[i] != c[j]
      {
        assert i < |a| <= j ==> c[i] in a && c[j] == b[j - |a|];
        assert i >= |a| ==> c[i] == b[i - |a|] && c[j] == b[j - |a|];
      }
    }
  }

  lemma SplitSleepers<G>(timers: seq<Timer<G>>, n: nat)
    requires n <= |timers|
    ensures Sleepers(timers) == Sleepers(timers[..n]) + Sleepers(timers[n..])
  {
  }

  lemma WakeQueues<G, M>(s: Sched<G, M>, now: nat)
    requires Inv(s)
    ensures Queues(Wake(s, now))
  {
    hide Ownership, Distinct, Unfinished, Sleepers;
    var n := Due(s.timers, now);
    var woken, rest := Sleepers(s.timers[..n]), Sleepers(s.timers[n..]);
    SplitSleepers(s.timers, n);
    DistinctConcat(woken, rest);
    assert forall g :: g in Sleepers(s.timers) <==> g in woken || g in rest;
    forall g | g in s.runq
      ensures g !in woken
    {
      assert Located(s, g);
    }
    DistinctConcat(s.runq, woken);
    assert forall g :: g in s.runq + woken <==> g in s.runq || g in woken;
  }

  lemma WakeLocated<G, M>(s: Sched<G, M>, now: nat, g: G)
    requires g in s.state && Located(s, g) && Distinct(Sleepers(s.timers))
    ensures Located(Wake(s, now), g)
  {
    hide Distinct, Sleepers;
    var n := Due(s.timers, now);
    var woken, rest := Sleepers(s.timers[..n]), Sleepers(s.timers[n..]);
    SplitSleepers(s.timers, n);
    DistinctConcat(woken, rest);
    assert g in Sleepers(s.timers) <==> g in woken || g in rest;
    assert forall m :: m in s.mutexes ==> (Waits(Wake(s, now), g, m) <==> Waits(s, g, m));
  }

  lemma WakeInv<G, M>(s: Sched<G, M>, now: nat)
    requires Inv(s)
    ensures Inv(Wake(s, now))
  {
    WakeQueues(s, now);
    hide Distinct, Located;
    var s' := Wake(s, now);
    forall g | g in s'.state
      ensures Located(s', g)
    {
      WakeLocated(s, now, g);
    }
    hide Queues;
    forall g | g in s.state
      ensures s'.state[g] == Dead <==> s.state[g] == Dead
    {
      WakeAlive(s, now, g);
    }
    assert Unfinished(s') == Unfinished(s);
  }

  lemma WakeAlive<G, M>(s: Sched<G, M>, now: nat, g: G)
    requires g in s.state && Located(s, g)
    ensures Wake(s, now).state[g] == Dead <==> s.state[g] == Dead
  {
    SplitSleepers(s.timers, Due(s.timers, now));
  }

  lemma Pushed<T>(xs: seq<T>, x: T)
    requires Distinct(xs) && x !in xs
    ensures Distinct(xs + [x])
  {
    DistinctConcat(xs, [x]);
  }

  lemma Popped<T>(xs: seq<T>)
    requires Distinct(xs) && xs != []
    ensures Distinct(xs[1..]) && xs[0] !in xs[1..]
  {
    assert xs == [xs[0]] + xs[1..];
    DistinctConcat([xs[0]], xs[1..]);
  }

  lemma DispatchInv<G, M>(s: Sched<G, M>)
    requires Inv(s) && s.current.None?
    ensures Inv(Dispatch(s))
  {
    if s.runq != [] {
      var g, s' := s.runq[0], Dispatch(s);
      Popped(s.runq);
      assert Located(s, g);
      assert Unfinished(s') == Unfinished(s);
      forall x | x in s'.state
        ensures Located(s', x)
      {
        DispatchLocated(s, x);
      }
      hide Distinct, Located, Sorted, Unfinished;
    }
  }

  lemma DispatchLocated<G, M>(s: Sched<G, M>, x: G)
    requires Inv(s) && s.current.None? && s.runq != [] && x in s.state
    ensures x in Dispatch(s).state && Located(Dispatch(s), x)
  {
    Popped(s.runq);
    assert Located(s, s.runq[0]) && Located(s, x);
    SameWaiters(s, Dispatch(s), x);
    hide Distinct;
  }

  lemma SameWaiters<G, M>(s: Sched<G, M>, s': Sched<G, M>, g: G)
    requires s'.mutexes.Keys == s.mutexes.Keys
    requires forall m :: m in s.mutexes ==> (g in s'.mutexes[m].waiters <==> g in s.mutexes[m].waiters)
    ensures forall m :: m in s.mutexes ==> (Waits(s', g, m) <==> Waits(s, g, m))
  {
  }

  lemma DistinctNone<T>()
    ensures Distinct<T>([])
  {
  }

  lemma InsertSleepers<G>(timers: seq<Timer<G>>, t: Timer<G>)
    ensures var k := Due(timers, t.deadline);
            Sleepers(Insert(timers, t)) == Sleepers(timers[..k]) + [t.g] + Sleepers(timers[k..])
  {
  }

  lemma InsertMembers<G>(timers: seq<Timer<G>>, t: Timer<G>, g: G)
    ensures g in Sleepers(Insert(timers, t)) <==> g == t.g || g in Sleepers(timers)
  {
    hide Sleepers, Due, Insert;
    SplitSleepers(timers, Due(timers, t.deadline));
    InsertSleepers(timers, t);
  }

  /** A new sleeper is not among the old ones, so no thread sleeps twice. */
  lemma InsertDistinct<G>(timers: seq<Timer<G>>, t: Timer<G>)
    requires Distinct(Sleepers(timers)) && t.g !in Sleepers(timers)
    ensures Distinct(Sleepers(Insert(timers, t)))
  {
    hide Distinct, Sleepers;
    var k := Due(timers, t.deadline);
    SplitSleepers(timers, k);
    InsertSleepers(timers, t);
    var before, after := Sleepers(timers[..k]), Sleepers(timers[k..]);
    DistinctConcat(before, after);
    Pushed(before, t.g);
    DistinctConcat(before + [t.g], after);
  }

  /** The running thread is in no queue. */
  lemma RunningNowhere<G, M>(s: Sched<G, M>)
    requires Inv(s) && s.current.Some?
    ensures var g := s.current.value;
            g in s.state && s.state[g] == Running && g !in s.runq && g !in Sleepers(s.timers)
            && forall m :: m in s.mutexes ==> !Waits(s, g, m)
  {
    assert Located(s, s.current.value);
  }

  /** The first waiter of a mutex waits there and nowhere else. */
  lemma WaiterElsewhere<G, M>(s: Sched<G, M>, m: M, g: G)
    requires Inv(s) && m in s.mutexes && g in s.mutexes[m].waiters
    ensures g in s.state && s.state[g] == WaitMutex && g !in s.runq && g !in Sleepers(s.timers) && s.current != Some(g)
    ensures forall k :: k in s.mutexes && k != m ==> !Waits(s, g, k)
  {
    assert Waits(s, g, m) && Located(s, g);
  }

  predicate Threaded<G, M>(e: Event<G, M>) {
    !e.Turn?
  }

  lemma QueuesKept<G, M>(s: Sched<G, M>, e: Event<G, M>)
    requires Inv(s) && Enabled(s, e) && Threaded(e)
    ensures Queues(Step(s, e))
  {
    hide Distinct, Places, Located, Ownership, Unfinished, Sorted, Sleepers, Insert;
    match e
    case Spawn(g) => Pushed(s.runq, g);
    case NewMutex(m) => DistinctNone<G>();
    case Yield =>
      RunningNowhere(s);
      Pushed(s.runq, s.current.value);
    case Lock(m) =>
      RunningNowhere(s);
      assert !Waits(s, s.current.value, m);
      Pushed(s.mutexes[m].waiters, s.current.value);
    case Unlock(m) =>
      if s.mutexes[m].waiters != [] {
        var w := s.mutexes[m].waiters[0];
        Popped(s.mutexes[m].waiters);
        WaiterElsewhere(s, m, w);
        Pushed(s.runq, w);
      } else {
        DistinctNone<G>();
      }
    case Sleep(now, ms) =>
      RunningNowhere(s);
      var t := Timer(Deadline(now, ms), s.current.value);
      InsertSorted(s.timers, t);
      InsertDistinct(s.timers, t);
      forall g | g in Sleepers(Insert(s.timers, t))
        ensures g in s.state
      {
        InsertMembers(s.timers, t, g);
      }
    case Exit =>
  }

  lemma LockOwnership<G, M>(s: Sched<G, M>, m: M)
    requires Ownership(s) && Enabled(s, Lock(m)) && s.current.value in s.state
    ensures Ownership(Step(s, Lock(m)))
  {
    if !s.mutexes[m].locked {
      assert (s.current.value, m) in Step(s, Lock(m)).holds;
    }
  }

  /** Handing over never unlocks: the mutex goes from one holder to the next. */
  lemma HandoffOwnership<G, M>(s: Sched<G, M>, m: M)
    requires Ownership(s) && Enabled(s, Unlock(m)) && s.mutexes[m].waiters != [] && s.mutexes[m].waiters[0] in s.state
    ensures Ownership(Step(s, Unlock(m)))
  {
    var w, s' := s.mutexes[m].waiters[0], Step(s, Unlock(m));
    assert (w, m) in s'.holds;
    forall k | k in s'.mutexes && s'.mutexes[k].locked
      ensures exists h :: h in s'.holds && h.1 == k
    {
      if k != m {
        var h :| h in s.holds && h.1 == k;
        assert h in s'.holds;
      }
    }
  }

  lemma FreeOwnership<G, M>(s: Sched<G, M>, m: M)
    requires Ownership(s) && Enabled(s, Unlock(m)) && s.mutexes[m].waiters == []
    ensures Ownership(Step(s, Unlock(m)))
  {
    var s' := Step(s, Unlock(m));
    forall k | k in s'.mutexes && s'.mutexes[k].locked
      ensures exists h :: h in s'.holds && h.1 == k
    {
      var h :| h in s.holds && h.1 == k;
      assert h in s'.holds;
    }
  }

  lemma OwnershipKept<G, M>(s: Sched<G, M>, e: Event<G, M>)
    requires Inv(s) && Enabled(s, e) && Threaded(e)
    ensures Ownership(Step(s, e))
  {
    hide Places, Unfinished, Insert;
    if e.Unlock? {
      hide Ownership;
      if s.mutexes[e.m].waiters != [] {
        HandoffOwnership(s, e.m);
      } else {
        FreeOwnership(s, e.m);
      }
    } else if e.Lock? {
      hide Ownership;
      LockOwnership(s, e.m);
    } else {
      hide Queues;
    }
  }

  lemma SameAlive<G, M>(s: Sched<G, M>, s': Sched<G, M>)
    requires s'.state.Keys == s.state.Keys
    requires forall g :: g in s.state ==> (s'.state[g] == Dead <==> s.state[g] == Dead)
    ensures Unfinished(s') == Unfinished(s)
  {
  }

  lemma CountSpawn<G, M>(s: Sched<G, M>, g: G)
    requires s.live == |Unfinished(s)| && g !in s.state
    ensures Step(s, Spawn(g)).live == |Unfinished(Step(s, Spawn(g)))|
  {
    assert Unfinished(Step(s, Spawn(g))) == Unfinished(s) + {g};
  }

  lemma CountExit<G, M>(s: Sched<G, M>)
    requires s.live == |Unfinished(s)| && s.current.Some? && s.current.value in s.state &&
        s.state[s.current.value] == Running
    ensures s.live > 0 && Step(s, Exit).live == |Unfinished(Step(s, Exit))|
  {
    assert s.current.value in Unfinished(s);
    assert Unfinished(Step(s, Exit)) == Unfinished(s) - {s.current.value};
  }

  lemma CountMove<G, M>(s: Sched<G, M>, e: Event<G, M>)
    requires s.live == |Unfinished(s)| && Enabled(s, e) && (e.Yield? || e.Lock? || e.Sleep?)
    requires s.current.value in s.state && s.state[s.current.value] == Running
    ensures Step(s, e).live == |Unfinished(Step(s, e))|
  {
    hide Unfinished, Insert;
    SameAlive(s, Step(s, e));
  }

  lemma CountUnlock<G, M>(s: Sched<G, M>, m: M)
    requires s.live == |Unfinished(s)| && Enabled(s, Unlock(m))
    requires s.mutexes[m].waiters != [] ==>
        s.mutexes[m].waiters[0] in s.state && s.state[s.mutexes[m].waiters[0]] == WaitMutex
    ensures Step(s, Unlock(m)).live == |Unfinished(Step(s, Unlock(m)))|
  {
    hide Unfinished;
    SameAlive(s, Step(s, Unlock(m)));
  }

  lemma CountKept<G, M>(s: Sched<G, M>, e: Event<G, M>)
    requires Inv(s) && Enabled(s, e) && Threaded(e)
    ensures Step(s, e).live == |Unfinished(Step(s, e))|
  {
    hide Ownership, Queues, Places, Step, Unfinished;
    if s.current.Some? {
      RunningNowhere(s);
    }
    match e
    case Spawn(g) => CountSpawn(s, g);
    case Exit => CountExit(s);
    case Unlock(m) =>
      if s.mutexes[m].waiters != [] {
        WaiterElsewhere(s, m, s.mutexes[m].waiters[0]);
      }
      CountUnlock(s, m);
    case NewMutex(m) => CountNewMutex(s, m);
    case Turn(_) => assert false;
    case _ => CountMove(s, e);
  }

  lemma CountNewMutex<G, M>(s: Sched<G, M>, m: M)
    requires s.live == |Unfinished(s)| && Enabled(s, NewMutex(m))
    ensures Step(s, NewMutex(m)).live == |Unfinished(Step(s, NewMutex(m)))|
  {
    assert Unfinished(Step(s, Event<G, M>.NewMutex(m))) == Unfinished(s);
  }

  /** A thread the step is not about stays where it is. */
  lemma BystanderKept<G, M>(s: Sched<G, M>, e: Event<G, M>, x: G)
    requires Enabled(s, e) && Threaded(e) && x in s.state && Located(s, x)
    requires s.current != Some(x) && e != Spawn(x)
    requires e.Unlock? && s.mutexes[e.m].waiters != [] ==> x != s.mutexes[e.m].waiters[0]
    ensures x in Step(s, e).state && Located(Step(s, e), x)
  {
    hide Sleepers, Insert;
    var s' := Step(s, e);
    if e.Sleep? {
      InsertMembers(s.timers, Timer(Deadline(e.now, e.ms), s.current.value), x);
    }
    assert forall m :: m in s.mutexes ==> (Waits(s', x, m) <==> Waits(s, x, m));
    assert s.mutexes.Keys <= s'.mutexes.Keys;
    assert forall m :: m in s'.mutexes && m !in s.mutexes ==> !Waits(s', x, m);
  }

  /** The thread that takes the step ends up where its new state says. */
  lemma ActorKept<G, M>(s: Sched<G, M>, e: Event<G, M>)
    requires Inv(s) && Enabled(s, e) && Threaded(e) && s.current.Some?
    ensures s.current.value in Step(s, e).state && Located(Step(s, e), s.current.value)
  {
    var g, s' := s.current.value, Step(s, e);
    RunningNowhere(s);
    if e.Unlock? && s.mutexes[e.m].waiters != [] {
      WaiterElsewhere(s, e.m, s.mutexes[e.m].waiters[0]);
    }
    hide Inv, Sleepers, Insert;
    if e.Sleep? {
      InsertMembers(s.timers, Timer(Deadline(e.now, e.ms), g), g);
    }
    if e.Lock? && s.mutexes[e.m].locked {
      assert Waits(s', g, e.m);
    } else {
      assert forall m :: m in s'.mutexes ==> !Waits(s', g, m);
    }
  }

  /** A waiter that is handed the mutex is runnable and waits no more. */
  lemma HeirKept<G, M>(s: Sched<G, M>, m: M)
    requires Inv(s) && Enabled(s, Unlock(m)) && s.mutexes[m].waiters != []
    ensures var w := s.mutexes[m].waiters[0]; w in Step(s, Unlock(m)).state && Located(Step(s, Unlock(m)), w)
  {
    var w, s' := s.mutexes[m].waiters[0], Step(s, Unlock(m));
    WaiterElsewhere(s, m, w);
    Popped(s.mutexes[m].waiters);
    hide Inv, Sleepers;
    assert forall k :: k in s'.mutexes ==> !Waits(s', w, k);
  }

  lemma PlaceKept<G, M>(s: Sched<G, M>, e: Event<G, M>, x: G)
    requires Inv(s) && Enabled(s, e) && Threaded(e) && x in Step(s, e).state
    ensures Located(Step(s, e), x)
  {
    if s.current == Some(x) {
      ActorKept(s, e);
    } else if e == Spawn(x) {
      NewcomerKept(s, x);
    } else if e.Unlock? && s.mutexes[e.m].waiters != [] && x == s.mutexes[e.m].waiters[0] {
      HeirKept(s, e.m);
    } else {
      hide Located, Queues, Ownership;
      assert x in s.state;
      BystanderKept(s, e, x);
    }
  }

  lemma NewcomerKept<G, M>(s: Sched<G, M>, x: G)
    requires Inv(s) && x !in s.state
    ensures Located(Step(s, Spawn(x)), x)
  {
    var s' := Step(s, Spawn(x));
    assert forall m :: m in s'.mutexes ==> !Waits(s', x, m);
  }

  /** The inventory: whatever the threads do, every step keeps every unfinished thread in exactly one place. */
  lemma StepInv<G, M>(s: Sched<G, M>, e: Event<G, M>)
    requires Inv(s) && Enabled(s, e)
    ensures Inv(Step(s, e))
  {
    hide Queues, Ownership, Unfinished, Located;
    if e.Turn? {
      WakeInv(s, e.now);
      DispatchInv(Wake(s, e.now));
    } else {
      QueuesKept(s, e);
      OwnershipKept(s, e);
      CountKept(s, e);
      forall x | x in Step(s, e).state
        ensures Located(Step(s, e), x)
      {
        PlaceKept(s, e, x);
      }
    }
  }
}
