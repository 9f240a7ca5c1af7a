/**
 The scheduler as runtime/ncrt.c keeps it: threads linked through run_next and wait_next, mutexes
 with head and tail of their wait queues, a sorted list of timers.  Every operation is proved to be
 one step of SchedulerModel.
 */
module GreenScheduler {
  import opened Prelude
  import opened SchedulerModel

  class Green {
    var state: GState
    var runNext: Green?
    var waitNext: Green?

    constructor ()
      ensures state == Runnable && runNext == null && waitNext == null
    {
      state := Runnable;
      runNext := null;
      waitNext := null;
    }
  }

  class NcMutex {
    var locked: bool
    var head: Green?
    var tail: Green?
    ghost var waiters: seq<Green>

    constructor ()
      ensures !locked && waiters == [] && WaitChain(waiters, head, tail) && Distinct(waiters)
    {
      locked := false;
      head := null;
      tail := null;
      waiters := [];
    }
  }

  class TimerNode {
    const deadline: nat
    const g: Green
    var next: TimerNode?

    constructor (deadline: nat, g: Green)
      ensures this.deadline == deadline && this.g == g && next == null
    {
      this.deadline := deadline;
      this.g := g;
      next := null;
    }
  }

  // ----- linked lists -----------------------------------------------------------------------------------

  ghost predicate RunChain(gs: seq<Green>, head: Green?, tail: Green?)
    reads gs`runNext
  {
    if gs == [] then head == null && tail == null
    else
      && head == gs[0] && tail == gs[|gs| - 1] && tail.runNext == null
      && forall i, j :: 0 <= i < j < |gs| && j == i + 1 ==> gs[i].runNext == gs[j]
  }

  ghost predicate WaitChain(gs: seq<Green>, head: Green?, tail: Green?)
    reads gs`waitNext
  {
    if gs == [] then head == null && tail == null
    else
      && head == gs[0] && tail == gs[|gs| - 1] && tail.waitNext == null
      && forall i, j :: 0 <= i < j < |gs| && j == i + 1 ==> gs[i].waitNext == gs[j]
  }

  ghost predicate TimerChain(ts: seq<TimerNode>, head: TimerNode?)
    reads ts`next
  {
    if ts == [] then head == null
    else
      && head == ts[0] && ts[|ts| - 1].next == null
      && forall i, j :: 0 <= i < j < |ts| && j == i + 1 ==> ts[i].next == ts[j]
  }

  function Entries(ts: seq<TimerNode>): (es: seq<Timer<Green>>)
    ensures |es| == |ts| && forall i :: 0 <= i < |ts| ==> es[i] == Timer(ts[i].deadline, ts[i].g)
  {
    seq(|ts|, i requires 0 <= i < |ts| => Timer(ts[i].deadline, ts[i].g))
  }

  class Scheduler {
    var runHead: Green?
    var runTail: Green?
    var current: Green?
    var timerHead: TimerNode?
    var live: int
    ghost var runq: seq<Green>
    ghost var timers: seq<TimerNode>
    ghost var known: set<Green>
    ghost var mutexes: set<NcMutex>
    ghost var holds: set<(Green, NcMutex)>

    // Each list is what its ghost sequence says.

    ghost predicate RunOk()
      reads this`runq, this`runHead, this`runTail, this`known, known`runNext
    {
      (forall g :: g in runq ==> g in known) && Distinct(runq) && RunChain(runq, runHead, runTail)
    }

    ghost predicate WaitOk(m: NcMutex)
      reads this`known, known`waitNext, m`head, m`tail, m`waiters
    {
      (forall g :: g in m.waiters ==> g in known) && Distinct(m.waiters) && WaitChain(m.waiters, m.head, m.tail)
    }

    ghost predicate WaitsOk()
      reads this`mutexes, this`known, known`waitNext, mutexes`head, mutexes`tail, mutexes`waiters
    {
      forall m :: m in mutexes ==> WaitOk(m)
    }

    ghost predicate TimersOk()
      reads this`timers, this`timerHead, this`known, timers`next
    {
      (forall t :: t in timers ==> t.g in known) && Distinct(timers) && TimerChain(timers, timerHead)
    }

    ghost predicate CurrentOk()
      reads this`current, this`known
    {
      current != null ==> current in known
    }

    ghost function States(): map<Green, GState>
      reads this`known, known`state
    {
      map g | g in known :: g.state
    }

    ghost function Mutexes(): map<NcMutex, Mutex<Green>>
      reads this`mutexes, mutexes`locked, mutexes`waiters
    {
      map m | m in mutexes :: Mutex(m.locked, m.waiters)
    }

    ghost function Running(): Option<Green>
      reads this`current
    {
      if current == null then None else var g: Green := current; Some(g)
    }

    ghost function Abs(): Sched<Green, NcMutex>
      reads this, known`state, mutexes`locked, mutexes`waiters
    {
      Sched(runq, Running(), Mutexes(), Entries(timers), live, States(), holds)
    }

    ghost predicate Linked()
      reads this, known, mutexes, timers
    {
      RunOk() && WaitsOk() && TimersOk() && CurrentOk()
    }

    ghost predicate Valid()
      reads this, known, mutexes, timers
    {
      Linked() && Inv(Abs())
    }

    constructor ()
      ensures Valid() && Abs() == Initial<Green, NcMutex>()
    {
      runHead, runTail, current, timerHead, live := null, null, null, null, 0;
      runq, timers, known, mutexes, holds := [], [], {}, {}, {};
      new;
      InitialInv<Green, NcMutex>();
      assert Abs() == Initial<Green, NcMutex>();
    }

    /** runq_push_existing */
    method Push(g: Green)
      requires RunOk() && g in known && g !in runq
      modifies this`runHead, this`runTail, this`runq, known`runNext
      ensures RunOk() && runq == old(runq) + [g]
    {
      g.runNext := null;
      if runTail != null {
        runTail.runNext := g;
      } else {
        runHead := g;
      }
      runTail := g;
      Pushed(runq, g);
      runq := runq + [g];
    }

    /** runq_pop_locked */
    method Pop() returns (g: Green?)
      requires RunOk()
      modifies this`runHead, this`runTail, this`runq, known`runNext
      ensures RunOk()
      ensures if old(runq) == [] then g == null && runq == [] else g == old(runq[0]) && runq == old(runq[1..])
    {
      g := runHead;
      if g != null {
        Popped(runq);
        runHead := g.runNext;
        if runHead == null {
          runTail := null;
        }
        g.runNext := null;
        runq := runq[1..];
      }
    }

    lemma StateSet(before: map<Green, GState>, g: Green, st: GState)
      requires known == before.Keys + {g} && g.state == st
      requires forall x :: x in known && x != g ==> x.state == before[x]
      ensures States() == before[g := st]
    {
    }

    ghost method Admit(g: Green)
      requires Linked() && g !in known
      modifies this`known
      ensures Linked() && known == old(known) + {g} && g !in runq
    {
      hide Distinct, RunChain, WaitChain, TimerChain;
      known := known + {g};
    }

    /** __nc_spawn with __nc_scheduler_submit */
    method Spawn() returns (g: Green)
      requires Valid()
      modifies this, known`runNext
      ensures Valid() && fresh(g)
      ensures Takes(old(Abs()), Event.Spawn(g), Abs())
    {
      ghost var s := Abs();
      AbsReads();
      hide Inv, Linked, States, Mutexes, Entries, DoSpawn;
      g := Submit();
      StepInv(s, Event.Spawn(g));
    }

    /** __nc_scheduler_submit for a thread that is set up on the spot. */
    method Submit() returns (g: Green)
      requires Linked()
      modifies this, known`runNext
      ensures Linked() && fresh(g) && g !in old(known)
      ensures Abs() == DoSpawn(old(Abs()), g)
    {
      hide RunOk, WaitsOk, TimersOk, CurrentOk, Entries, States, Mutexes;
      g := new Green();
      ghost var s := Abs();
      AbsReads();
      Admit(g);
      Push(g);
      live := live + 1;
      assert TimersOk();
      assert WaitsOk();
      assert CurrentOk();
      assert Linked();
      hide Linked;
      assert Mutexes() == s.mutexes;
      StateSet(s.state, g, Runnable);
    }

    method NewMutex() returns (m: NcMutex)
      requires Valid()
      modifies this`mutexes
      ensures Valid() && fresh(m)
      ensures Takes(old(Abs()), Event.NewMutex(m), Abs())
    {
      hide Inv, RunOk, TimersOk, WaitChain, Distinct, Entries, States, Mutexes, DoSpawn, DoYield, DoLock, DoUnlock,
          DoSleep, DoExit, Wake, Dispatch;
      m := new NcMutex();
      ghost var s := Abs();
      AbsReads();
      StepInv(s, Event.NewMutex(m));
      mutexes := mutexes + {m};
      MutexSet(s.mutexes, m);
    }

    /** __nc_g_yield */
    method Yield()
      requires Valid() && current != null
      modifies this, known`runNext, known`state
      ensures Valid()
      ensures Takes(old(Abs()), Event.Yield, Abs())
    {
      ghost var s := Abs();
      hide Inv, Linked, States, Mutexes, Entries, DoYield;
      StepInv(s, Event.Yield);
      RunningNowhere(s);
      Requeue();
    }

    /** The running thread goes to the tail of the run queue. */
    method Requeue()
      requires Linked() && current != null && current !in runq
      modifies this, known`runNext, known`state
      ensures Linked()
      ensures Abs() == DoYield(old(Abs()))
    {
      hide RunOk, WaitsOk, TimersOk, Entries, States, Mutexes;
      ghost var s := Abs();
      AbsReads();
      var g: Green := current;
      g.state := Runnable;
      Push(g);
      current := null;
      assert Linked();
      hide Linked;
      assert Mutexes() == s.mutexes;
      StateSet(s.state, g, Runnable);
    }

    /** __nc_g_exit, and g_finish_dead on the scheduler's side of the switch */
    method Exit()
      requires Valid() && current != null
      modifies this`current, this`live, known`state
      ensures Valid()
      ensures Takes(old(Abs()), Event.Exit, Abs())
    {
      hide Inv, RunOk, WaitsOk, TimersOk, Entries, States, Mutexes, DoSpawn, DoNewMutex, DoYield, DoLock, DoUnlock,
          DoSleep, Wake, Dispatch;
      ghost var s := Abs();
      AbsReads();
      StepInv(s, Event.Exit);
      var g: Green := current;
      g.state := Dead;
      current := null;
      live := live - 1;
      StateSet(s.state, g, Dead);
    }

    /** nc_mutex_park_and_unlock: join the wait queue and give up control. */
    method Park(m: NcMutex)
      requires WaitsOk() && CurrentOk() && current != null && m in mutexes
      requires forall k :: k in mutexes ==> current !in k.waiters
      requires forall k, g :: k in mutexes && k != m && g in k.waiters ==> g !in m.waiters
      modifies this`current, m`head, m`tail, m`waiters, known`state, known`waitNext
      ensures WaitsOk() && current == null && m.waiters == old(m.waiters) + [old(current)]
      ensures forall g :: g in known ==> g.state == if g == old(current) then WaitMutex else old(g.state)
    {
      var g: Green := current;
      Pushed(m.waiters, g);
      if m.tail != null {
        m.tail.waitNext := g;
      } else {
        m.head := g;
      }
      m.tail := g;
      g.waitNext := null;
      g.state := WaitMutex;
      m.waiters := m.waiters + [g];
      current := null;
      assert WaitOk(m);
      forall k | k in mutexes && k != m
        ensures WaitOk(k)
      {
        assert old(WaitOk(k));
        assert old(m.tail) != null ==> old(m.tail) in old(m.waiters);
        assert forall x :: x in k.waiters ==> x != g && x != old(m.tail);
      }
    }

    lemma MutexSet(before: map<NcMutex, Mutex<Green>>, m: NcMutex)
      requires mutexes == before.Keys + {m}
      requires forall k :: k in mutexes && k != m ==> before[k].locked == k.locked && before[k].waiters == k.waiters
      ensures Mutexes() == before[m := Mutex(m.locked, m.waiters)]
    {
    }

    lemma AbsReads()
      ensures States().Keys == known && (forall g :: g in known ==> States()[g] == g.state)
      ensures Mutexes().Keys == mutexes && (forall m :: m in mutexes ==> Mutexes()[m] == Mutex(m.locked, m.waiters))
    {
    }

    /** __nc_mutex_lock */
    method Lock(m: NcMutex)
      requires Valid() && current != null && m in mutexes
      modifies this`current, this`holds, m, known`state, known`waitNext
      ensures Valid()
      ensures Takes(old(Abs()), Event.Lock(m), Abs())
    {
      hide Inv, RunOk, WaitsOk, TimersOk, Entries, States, Mutexes, DoSpawn, DoNewMutex, DoYield, DoUnlock, DoSleep,
          DoExit, Wake, Dispatch;
      ghost var s := Abs();
      AbsReads();
      StepInv(s, Event.Lock(m));
      Apart(m);
      var g: Green := current;
      if !m.locked {
        m.locked := true;
        holds := holds + {(g, m)};
        MutexSet(s.mutexes, m);
        return;
      }
      Park(m);
      StateSet(s.state, g, WaitMutex);
      MutexSet(s.mutexes, m);
    }

    /** The running thread waits for nothing, and no thread waits for two mutexes. */
    lemma Apart(m: NcMutex)
      requires Valid() && m in mutexes
      ensures forall k :: k in mutexes && current != null ==> current !in k.waiters
      ensures forall k, g :: k in mutexes && k != m && g in k.waiters ==> g !in m.waiters
    {
      if current != null {
        RunningNowhere(Abs());
        assert forall k :: k in mutexes ==> !Waits(Abs(), current, k);
      }
      forall k, g | k in mutexes && k != m && g in k.waiters
        ensures g !in m.waiters
      {
        assert k in Abs().mutexes && m in Abs().mutexes && g in Abs().mutexes[k].waiters;
      }
    }

    /** The head of a wait queue leaves it. */
    method TakeWaiter(m: NcMutex) returns (g: Green)
      requires WaitsOk() && m in mutexes && m.waiters != []
      requires forall k, x :: k in mutexes && k != m && x in k.waiters ==> x !in m.waiters
      modifies m`head, m`tail, m`waiters, known`waitNext
      ensures WaitsOk() && g == old(m.waiters[0]) && m.waiters == old(m.waiters[1..])
    {
      assert WaitOk(m);
      Popped(m.waiters);
      ghost var ws := m.waiters;
      assert |ws| > 1 ==> ws[0].waitNext == ws[1] && ws[|ws| - 1] != ws[0] && ws[|ws| - 1].waitNext == null;
      g := m.head;
      m.head := g.waitNext;
      if m.head == null {
        m.tail := null;
      }
      g.waitNext := null;
      m.waiters := m.waiters[1..];
      assert WaitOk(m);
      forall k | k in mutexes && k != m
        ensures WaitOk(k)
      {
        assert old(WaitOk(k));
        assert g in ws && k.waiters == old(k.waiters) && forall x :: x in k.waiters ==> x !in ws;
      }
    }

    /** The first waiter becomes runnable; `locked` is not touched. */
    method Handoff(m: NcMutex) returns (g: Green)
      requires RunOk() && WaitsOk() && m in mutexes && m.waiters != [] && m.waiters[0] !in runq
      requires forall k, x :: k in mutexes && k != m && x in k.waiters ==> x !in m.waiters
      modifies this`runHead, this`runTail, this`runq, m`head, m`tail, m`waiters, known`runNext, known`state,
          known`waitNext
      ensures RunOk() && WaitsOk() && g == old(m.waiters[0]) && g in known
      ensures m.waiters == old(m.waiters[1..]) && runq == old(runq) + [g]
      ensures forall x :: x in known ==> x.state == if x == g then Runnable else old(x.state)
    {
      hide RunOk;
      assert WaitOk(m);
      hide WaitOk, WaitsOk;
      g := TakeWaiter(m);
      g.state := Runnable;
      Push(g);
    }

    /** Hand the mutex to its first waiter, or free it if there is none. */
    method Release(m: NcMutex)
      requires Linked() && current != null && m in mutexes
      requires m.waiters != [] ==> m.waiters[0] !in runq
      requires forall k, x :: k in mutexes && k != m && x in k.waiters ==> x !in m.waiters
      modifies this`runHead, this`runTail, this`runq, this`holds, m, known`runNext, known`state, known`waitNext
      ensures Linked()
      ensures Abs() == DoUnlock(old(Abs()), m)
    {
      HeadNull(m);
      hide Linked, Entries, States, Mutexes, DoUnlock;
      if m.head != null {
        HandOver(m);
      } else {
        SetFree(m);
      }
    }

    /** With waiters: the first of them becomes the holder. */
    method HandOver(m: NcMutex)
      requires Linked() && current != null && m in mutexes && m.waiters != [] && m.waiters[0] !in runq
      requires forall k, x :: k in mutexes && k != m && x in k.waiters ==> x !in m.waiters
      modifies this`runHead, this`runTail, this`runq, this`holds, m, known`runNext, known`state, known`waitNext
      ensures Linked()
      ensures Abs() == DoUnlock(old(Abs()), m)
    {
      hide RunOk, WaitsOk, TimersOk, CurrentOk, Entries, States, Mutexes;
      ghost var s := Abs();
      AbsReads();
      var g := Handoff(m);
      holds := holds - {(current, m)} + {(g, m)};
      assert Linked();
      hide Linked;
      StateSet(s.state, g, Runnable);
      MutexSet(s.mutexes, m);
    }

    /** Without waiters: nobody holds it. */
    method SetFree(m: NcMutex)
      requires Linked() && current != null && m in mutexes && m.waiters == []
      modifies this`holds, m`locked
      ensures Linked()
      ensures Abs() == DoUnlock(old(Abs()), m)
    {
      hide RunOk, WaitsOk, TimersOk, CurrentOk, Entries, States, Mutexes;
      ghost var s := Abs();
      AbsReads();
      m.locked := false;
      holds := holds - {(current, m)};
      assert Linked();
      hide Linked;
      assert States() == s.state;
      MutexSet(s.mutexes, m);
    }

    /** __nc_mutex_unlock: the mutex passes to the first waiter without ever being free. */
    method Unlock(m: NcMutex)
      requires Valid() && current != null && m in mutexes && (current, m) in holds
      modifies this`runHead, this`runTail, this`runq, this`holds, m, known`runNext, known`state, known`waitNext
      ensures Valid()
      ensures Takes(old(Abs()), Event.Unlock(m), Abs())
    {
      hide Inv, Linked, States, DoSpawn, DoNewMutex, DoYield, DoLock, DoUnlock, DoSleep, DoExit, Wake, Dispatch;
      ghost var s := Abs();
      AbsReads();
      StepInv(s, Event.Unlock(m));
      Apart(m);
      if m.waiters != [] {
        WaiterElsewhere(s, m, m.waiters[0]);
      }
      Release(m);
    }

    lemma HeadNull(m: NcMutex)
      requires WaitsOk() && m in mutexes
      ensures m.head == null <==> m.waiters == []
    {
      assert WaitOk(m);
    }

    // ----- timers -----------------------------------------------------------------------------------------

    method TakeTimer() returns (t: TimerNode)
      requires TimersOk() && timers != []
      modifies this`timerHead, this`timers
      ensures TimersOk() && t == old(timers[0]) && timers == old(timers[1..])
    {
      Popped(timers);
      t := timerHead;
      timerHead := t.next;
      timers := timers[1..];
    }

    /** Unlink the first timer and queue its thread. */
    method TakeSleeper() returns (g: Green)
      requires Linked() && timers != [] && timers[0].g !in runq
      modifies this`runHead, this`runTail, this`runq, this`timerHead, this`timers, known`runNext, known`state
      ensures Linked() && g == old(timers[0].g) && g in known && timers == old(timers[1..]) && runq == old(runq) + [g]
      ensures forall x :: x in known ==> x.state == if x == g then Runnable else old(x.state)
    {
      assert timers[0] in timers;
      hide RunOk, TimersOk, WaitsOk, CurrentOk;
      var t := TakeTimer();
      t.g.state := Runnable;
      Push(t.g);
      g := t.g;
    }

    /** The first sleeper becomes runnable. */
    method WakeFirst()
      requires Linked() && timers != [] && timers[0].g !in runq
      modifies this`runHead, this`runTail, this`runq, this`timerHead, this`timers, known`runNext, known`state
      ensures Linked()
      ensures Abs() == WakeOne(old(Abs()))
    {
      ghost var s := Abs();
      AbsReads();
      EntriesTail(timers);
      hide Linked, Mutexes, States, Entries, WakeOne;
      var g := TakeSleeper();
      StateSet(s.state, g, Runnable);
      WokeOne(s, g);
    }

    lemma WokeOne(s: Sched<Green, NcMutex>, g: Green)
      requires s.timers != [] && s.timers[0].g == g && Entries(timers) == s.timers[1..] && runq == s.runq + [g]
      requires States() == s.state[g := Runnable] && Mutexes() == s.mutexes
      requires live == s.live && holds == s.holds && Running() == s.current
      ensures Abs() == WakeOne(s)
    {
    }

    /** wake_expired_timers */
    method WakeExpired(now: nat)
      requires Linked() && Wakeable(Abs())
      modifies this`runHead, this`runTail, this`runq, this`timerHead, this`timers, known`runNext, known`state
      ensures Linked()
      ensures Abs() == Wake(old(Abs()), now)
    {
      ghost var s := Abs();
      TimerNull();
      hide Linked, Abs, Wake, Wakeable, WakeOne;
      while timerHead != null && timerHead.deadline <= now
        invariant Linked() && Wakeable(Abs()) && Wake(Abs(), now) == Wake(s, now)
        invariant (timerHead == null <==> timers == []) && (timerHead != null ==> timerHead == timers[0])
        decreases |timers|
      {
        WakeTurn(now);
        WakeFirst();
        TimerNull();
      }
      WakeRest(now);
    }

    lemma WakeTurn(now: nat)
      requires Linked() && Wakeable(Abs()) && timers != [] && timers[0].deadline <= now
      ensures Abs().timers != [] && timers[0].g !in runq
      ensures Wakeable(WakeOne(Abs())) && Wake(WakeOne(Abs()), now) == Wake(Abs(), now)
    {
      assert Entries(timers)[0] == Timer(timers[0].deadline, timers[0].g);
      WakeStep(Abs(), now);
    }

    lemma WakeRest(now: nat)
      requires timers == [] || timers[0].deadline > now
      ensures Wake(Abs(), now) == Abs()
    {
      assert timers != [] ==> Entries(timers)[0] == Timer(timers[0].deadline, timers[0].g);
      WakeNone(Abs(), now);
    }

    lemma TimerNull()
      requires Linked()
      ensures timerHead == null <==> timers == []
      ensures timerHead != null ==> timerHead == timers[0]
    {
    }

    /** The scan of __nc_sleep, past all timers that are due no later. */
    method FindPlace(deadline: nat) returns (prev: TimerNode?, cur: TimerNode?, ghost k: nat)
      requires TimersOk()
      ensures k == Due(Entries(timers), deadline)
      ensures cur == (if k < |timers| then timers[k] else null) && prev == (if k > 0 then timers[k - 1] else null)
    {
      hide Entries;
      prev, cur, k := null, timerHead, 0;
      assert Entries(timers)[0..] == Entries(timers);
      while cur != null && cur.deadline <= deadline
        invariant 0 <= k <= |timers| && cur == (if k < |timers| then timers[k] else null)
        invariant prev == (if k > 0 then timers[k - 1] else null)
        invariant Due(Entries(timers), deadline) == k + Due(Entries(timers)[k..], deadline)
        decreases |timers| - k
      {
        DueNext(timers, k, deadline);
        prev := cur;
        cur := cur.next;
        k := k + 1;
      }
      DueStops(timers, k, deadline);
    }

    /** The insertion of __nc_sleep. */
    method InsertTimer(deadline: nat, g: Green)
      requires TimersOk() && g in known
      modifies this`timerHead, this`timers, timers`next
      ensures TimersOk() && (forall t :: t in timers ==> t in old(timers) || fresh(t))
      ensures Entries(timers) == Insert(old(Entries(timers)), Timer(deadline, g))
    {
      hide Distinct, Entries, TimerChain;
      ghost var ts := timers;
      var node := new TimerNode(deadline, g);
      var prev, cur, k := FindPlace(deadline);
      Spliced(ts, k, node);
      timers := ts[..k] + [node] + ts[k..];
      Link(ts, k, node, prev, cur);
    }

    /** One turn of __nc_scheduler_run's loop, up to the switch, and its verdict. */
    method Turn(now: nat) returns (v: Verdict)
      requires Valid() && current == null
      modifies this`runHead, this`runTail, this`runq, this`current, this`timerHead, this`timers, known`runNext,
          known`state
      ensures Valid()
      ensures Takes(old(Abs()), Event.Turn(now), Abs())
      ensures v == Decide(old(Abs()), now)
    {
      hide Inv, Linked, Entries, Wake, Outlook, DoSpawn, DoNewMutex, DoYield, DoLock, DoUnlock, DoSleep, DoExit;
      ghost var s := Abs();
      StepInv(s, Event.Turn(now));
      InvWakeable(s);
      WakeExpired(now);
      v := DispatchNext();
    }

    lemma InvWakeable(s: Sched<Green, NcMutex>)
      requires Inv(s)
      ensures Wakeable(s)
    {
      forall g | g in Sleepers(s.timers)
        ensures g !in s.runq && g in s.state
      {
        assert Located(s, g);
      }
    }

    /** The first runnable thread runs. */
    method Resume() returns (g: Green)
      requires Linked() && current == null && runq != []
      modifies this`runHead, this`runTail, this`runq, this`current, known`runNext, known`state
      ensures Linked() && g == old(runq[0]) && g in known && current == g && runq == old(runq[1..])
      ensures forall x :: x in known ==> x.state == if x == g then GState.Running else old(x.state)
    {
      assert forall x :: x in runq ==> x in known;
      hide RunOk, WaitsOk, TimersOk;
      g := Pop();
      current := g;
      g.state := GState.Running;
    }

    method DispatchNext() returns (v: Verdict)
      requires Linked() && current == null
      modifies this`runHead, this`runTail, this`runq, this`current, known`runNext, known`state
      ensures Linked()
      ensures Abs() == Dispatch(old(Abs())) && v == Outlook(old(Abs()))
    {
      ghost var s := Abs();
      AbsReads();
      TimerNull();
      RunNull();
      assert timers == [] <==> Entries(timers) == [];
      hide Linked, Entries, States, Mutexes;
      if runHead == null {
        v := if timerHead != null then Waiting else if live > 0 then Deadlock else Finished;
      } else {
        v := Dispatched;
        var g := Resume();
        StateSet(s.state, g, GState.Running);
      }
    }

    lemma RunNull()
      requires Linked()
      ensures runHead == null <==> runq == []
    {
    }

    /** __nc_sleep */
    method Sleep(now: nat, ms: nat)
      requires Valid() && current != null
      modifies this`current, this`timerHead, this`timers, timers`next, known`state
      ensures Valid() && forall t :: t in timers ==> t in old(timers) || fresh(t)
      ensures Takes(old(Abs()), Event.Sleep(now, ms), Abs())
    {
      ghost var s := Abs();
      hide Inv, Linked, States, Mutexes, Entries, DoSleep;
      StepInv(s, Event.Sleep(now, ms));
      ParkUntil(now, ms);
    }

    /** The running thread goes to its place in the timer list. */
    method ParkUntil(now: nat, ms: nat)
      requires Linked() && current != null
      modifies this`current, this`timerHead, this`timers, timers`next, known`state
      ensures Linked() && forall t :: t in timers ==> t in old(timers) || fresh(t)
      ensures Abs() == DoSleep(old(Abs()), now, ms)
    {
      hide RunOk, WaitsOk, TimersOk, Entries, States, Mutexes, Deadline;
      ghost var s := Abs();
      AbsReads();
      var g: Green := current;
      InsertTimer(Deadline(now, ms), g);
      g.state := WaitTimer;
      current := null;
      assert RunOk();
      assert WaitsOk();
      assert Linked();
      hide Linked;
      assert Mutexes() == s.mutexes;
      StateSet(s.state, g, WaitTimer);
    }

    /** node->next and the link before it. */
    method Link(ghost ts: seq<TimerNode>, ghost k: nat, node: TimerNode, prev: TimerNode?, cur: TimerNode?)
      requires k <= |ts| && Distinct(ts) && node !in ts && TimerChain(ts, timerHead)
      requires cur == (if k < |ts| then ts[k] else null) && prev == (if k > 0 then ts[k - 1] else null)
      modifies this`timerHead, node`next, ts`next
      ensures TimerChain(ts[..k] + [node] + ts[k..], timerHead)
    {
      node.next := cur;
      if prev == null {
        timerHead := node;
      } else {
        prev.next := node;
      }
      ghost var all := ts[..k] + [node] + ts[k..];
      forall i, j | 0 <= i < j < |all| && j == i + 1
        ensures all[i].next == all[j]
      {
        if i + 1 < k {
          assert all[i] == ts[i] && all[j] == ts[j];
        } else if i > k {
          assert all[i] == ts[i - 1] && all[j] == ts[j - 1];
        }
      }
    }
  }

  lemma DueNext(ts: seq<TimerNode>, k: nat, now: nat)
    requires k < |ts| && ts[k].deadline <= now
    ensures Due(Entries(ts)[k..], now) == 1 + Due(Entries(ts)[k + 1..], now)
  {
    assert Entries(ts)[k..][0] == Entries(ts)[k] && Entries(ts)[k..][1..] == Entries(ts)[k + 1..];
  }

  lemma DueStops(ts: seq<TimerNode>, k: nat, now: nat)
    requires k <= |ts| && (k < |ts| ==> ts[k].deadline > now)
    ensures Due(Entries(ts)[k..], now) == 0
  {
    assert k < |ts| ==> Entries(ts)[k..][0] == Entries(ts)[k];
  }

  // ----- waking, one sleeper at a time --------------------------------------------------------------------

  /** Sleepers are distinct and not runnable. */
  ghost predicate Wakeable<G, M>(s: Sched<G, M>) {
    Distinct(Sleepers(s.timers)) && forall g :: g in Sleepers(s.timers) ==> g !in s.runq && g in s.state
  }

  function WakeOne<G, M>(s: Sched<G, M>): Sched<G, M>
    requires s.timers != []
  {
    s.(runq := s.runq + [s.timers[0].g], timers := s.timers[1..], state := s.state[s.timers[0].g := Runnable])
  }

  lemma SleepersTail<G>(timers: seq<Timer<G>>)
    requires timers != []
    ensures Sleepers(timers) == [timers[0].g] + Sleepers(timers[1..]) && Sleepers(timers)[1..] == Sleepers(timers[1..])
  {
  }

  lemma SetAllFirst<G>(state: map<G, GState>, g: G, later: seq<G>)
    requires g in state
    ensures SetAll(state[g := Runnable], later, Runnable) == SetAll(state, [g] + later, Runnable)
  {
  }

  lemma WakeStep<G, M>(s: Sched<G, M>, now: nat)
    requires Wakeable(s) && s.timers != [] && s.timers[0].deadline <= now
    ensures s.timers[0].g !in s.runq && Wakeable(WakeOne(s)) && Wake(WakeOne(s), now) == Wake(s, now)
  {
    hide Distinct, Sleepers, SetAll;
    var n, g := Due(s.timers, now), s.timers[0].g;
    SleepersTail(s.timers);
    Popped(Sleepers(s.timers));
    assert s.timers[1..][..n - 1] == s.timers[..n][1..] && s.timers[1..][n - 1..] == s.timers[n..];
    SleepersTail(s.timers[..n]);
    var later := Sleepers(s.timers[1..][..n - 1]);
    assert s.runq + [g] + later == s.runq + ([g] + later);
    SetAllFirst(s.state, g, later);
  }

  lemma WakeNone<G, M>(s: Sched<G, M>, now: nat)
    requires s.timers == [] || s.timers[0].deadline > now
    ensures Wake(s, now) == s
  {
    assert Sleepers(s.timers[..0]) == [] && s.runq + [] == s.runq && s.timers[0..] == s.timers;
    assert SetAll(s.state, [], Runnable) == s.state;
  }

  lemma EntriesTail(ts: seq<TimerNode>)
    requires ts != []
    ensures Entries(ts[1..]) == Entries(ts)[1..] && Entries(ts)[0] == Timer(ts[0].deadline, ts[0].g)
  {
  }

  lemma EntriesAround(ts: seq<TimerNode>, k: nat, node: TimerNode)
    requires k <= |ts|
    ensures Entries(ts[..k] + [node] + ts[k..]) == Entries(ts)[..k] + [Timer(node.deadline, node.g)] + Entries(ts)[k..]
  {
  }

  lemma MembersAround(ts: seq<TimerNode>, k: nat, node: TimerNode)
    requires k <= |ts|
    ensures ts == ts[..k] + ts[k..] && forall t :: t in ts[..k] + [node] + ts[k..] <==> t == node || t in ts
  {
    assert ts == ts[..k] + ts[k..];
  }

  /** A timer linked in at position k. */
  lemma Spliced(ts: seq<TimerNode>, k: nat, node: TimerNode)
    requires k <= |ts| && Distinct(ts) && node !in ts && Due(Entries(ts), node.deadline) == k
    ensures var all := ts[..k] + [node] + ts[k..];
            && Distinct(all) && Entries(all) == Insert(Entries(ts), Timer(node.deadline, node.g))
            && forall t :: t in all <==> t == node || t in ts
  {
    hide Distinct, Entries;
    EntriesAround(ts, k, node);
    MembersAround(ts, k, node);
    DistinctConcat(ts[..k], ts[k..]);
    Pushed(ts[..k], node);
    DistinctConcat(ts[..k] + [node], ts[k..]);
  }
}
