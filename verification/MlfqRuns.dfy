/** What holds over every run of the MLFQ scheduler: where processes are queued, how time
    slices end, and how long a process can wait. */
module MlfqRuns {
  import opened Procs
  import opened Mlfq

  /** One step after another from boot, checking only that each step is enabled. */
  ghost predicate Reaches(s: Sched, steps: seq<Step>, t: Sched)
    requires Inv(s)
    decreases |steps|
  {
    if steps == [] then s == t
    else
      Enabled(s, steps[0]) && (StepKeepsInv(s, steps[0]); Reaches(Do(s, steps[0]), steps[1..], t))
  }

  lemma {:induction false} ReachableInv(s: Sched, steps: seq<Step>, t: Sched)
    requires Inv(s) && Reaches(s, steps, t)
    ensures Inv(t)
    decreases |steps|
  {
    if steps != [] {
      StepKeepsInv(s, steps[0]);
      ReachableInv(Do(s, steps[0]), steps[1..], t);
    }
  }

  /** A process is RUNNABLE exactly when it has a place in a queue; the place is unique, and the
      queue is the one its record names. */
  lemma QueuedExactlyOnce(steps: seq<Step>, s: Sched, p: nat)
    requires (BootInv(); Reaches(Boot(), steps, s)) && p < NPROC
    ensures Inv(s)
    ensures s.procs[p].state == RUNNABLE <==>
            exists i, k :: 0 <= i < NUM_QUEUES && 0 <= k < |s.queues[i]| && s.queues[i][k] == p
    ensures forall i, k | 0 <= i < NUM_QUEUES && 0 <= k < |s.queues[i]| && s.queues[i][k] == p ::
              i == s.procs[p].queue
    ensures forall i, j, k | 0 <= i < NUM_QUEUES && 0 <= j < k < |s.queues[i]| :: s.queues[i][j] != s.queues[i][k]
  {
    BootInv();
    ReachableInv(Boot(), steps, s);
    OnePlace(s, p);
  }

  lemma OnePlace(s: Sched, p: nat)
    requires Inv(s) && p < NPROC
    ensures s.procs[p].state == RUNNABLE <==>
            exists i, k :: 0 <= i < NUM_QUEUES && 0 <= k < |s.queues[i]| && s.queues[i][k] == p
    ensures forall i, k | 0 <= i < NUM_QUEUES && 0 <= k < |s.queues[i]| && s.queues[i][k] == p ::
              i == s.procs[p].queue
    ensures forall i, j, k | 0 <= i < NUM_QUEUES && 0 <= j < k < |s.queues[i]| :: s.queues[i][j] != s.queues[i][k]
  {
    forall i | 0 <= i < NUM_QUEUES
      ensures QueueOk(s.procs, i, s.queues[i])
      ensures forall j, k | 0 <= j < k < |s.queues[i]| :: s.queues[i][j] != s.queues[i][k]
    {
      DistinctPairs(s.queues[i]);
    }
    if s.procs[p].state == RUNNABLE {
      assert p in s.queues[s.procs[p].queue];
    }
  }

  // ----- What one step can do to one process

  /** Wakeups: sleepers may become ready, queues grow at the end, nothing else moves. */
  ghost predicate Woken(s: Sched, t: Sched) {
    && Shape(s) && Shape(t) && t.ticks == s.ticks && t.init == s.init
    && (forall i | 0 <= i < NUM_QUEUES :: s.queues[i] <= t.queues[i])
    && forall p | 0 <= p < NPROC :: WokenProc(s.procs[p], t.procs[p])
  }

  ghost predicate WokenProc(o: Proc, r: Proc) {
    && r.queue == o.queue && r.punish == o.punish && r.timers == o.timers
    && ((r.state == o.state && r.age == o.age && r.slices == o.slices)
        || (o.state == SLEEPING && r.state == RUNNABLE))
  }

  lemma WokenTransitive(s: Sched, t: Sched, u: Sched)
    requires Woken(s, t) && Woken(t, u)
    ensures Woken(s, u)
  {
    forall p | 0 <= p < NPROC
      ensures WokenProc(s.procs[p], u.procs[p])
    {
      assert WokenProc(s.procs[p], t.procs[p]) && WokenProc(t.procs[p], u.procs[p]);
    }
  }

  lemma {:induction false} WakeWakes(s: Sched, chan: int, j: nat)
    requires Shape(s) && j <= NPROC
    ensures Woken(s, WakeFrom(s, chan, j))
    decreases NPROC - j
  {
    if j < NPROC {
      if s.procs[j].state == SLEEPING && s.procs[j].chan == chan {
        WakeWakes(Ready(s, j), chan, j + 1);
        WokenTransitive(s, Ready(s, j), WakeFrom(s, chan, j));
      } else {
        WakeWakes(s, chan, j + 1);
      }
    }
  }

  lemma {:induction false} KillWakes(s: Sched, pid: int, j: nat)
    requires Shape(s) && j <= NPROC
    ensures Woken(s, KillFrom(s, pid, j))
    decreases NPROC - j
  {
    if j < NPROC && s.procs[j].pid != pid {
      KillWakes(s, pid, j + 1);
    }
  }

  lemma RelabelWakes(s: Sched, j: nat, parent: int)
    requires Shape(s) && j < NPROC
    ensures Woken(s, SetProc(s, j, s.procs[j].(parent := parent)))
  {}

  lemma ReparentOneWakes(s: Sched, p: nat, j: nat)
    requires Shape(s) && j < NPROC
    ensures Woken(s, ReparentOne(s, p, j))
  {
    if s.procs[j].parent == p {
      var t := SetProc(s, j, s.procs[j].(parent := s.init));
      RelabelWakes(s, j, s.init);
      WakeWakes(t, Addr(s.init), 0);
      WokenTransitive(s, t, WakeFrom(t, Addr(s.init), 0));
    }
  }

  lemma {:induction false} ReparentWakes(s: Sched, p: nat, j: nat)
    requires Shape(s) && j <= NPROC
    ensures Woken(s, Reparent(s, p, j))
    decreases NPROC - j
  {
    if j < NPROC {
      var t := ReparentOne(s, p, j);
      ReparentOneWakes(s, p, j);
      ReparentWakes(t, p, j + 1);
      WokenTransitive(s, t, Reparent(t, p, j + 1));
    }
  }

  /** exit wakes whom it wakes, and then turns its caller into a zombie. */
  lemma ExitWakes(s: Sched, p: nat) returns (u: Sched)
    requires Shape(s) && p < NPROC
    ensures Woken(s, u) && ExitProc(s, p) == SetProc(u, p, u.procs[p].(state := ZOMBIE))
  {
    var chan := Addr(s.procs[p].parent);
    var w := WakeFrom(s, chan, 0);
    u := Reparent(w, p, 0);
    WakeWakes(s, chan, 0);
    ReparentWakes(w, p, 0);
    WokenTransitive(s, w, u);
  }

  /** How one step may change one process record. */
  ghost predicate ProcStep(o: Proc, r: Proc, step: Step, p: nat, ticks: nat)
    requires 0 <= o.queue < NUM_QUEUES
  {
    match step
    case Dispatch =>
      || r == o
      || AgedOnly(o, r, ticks)
      || (r.state == RUNNING && o.state == RUNNABLE && r.queue <= o.queue && r.punish == o.punish && SameLabels(o, r))
    case TimerTrap(x) => r == if x == p then AfterTimer(o) else o
    case Yield(x) => r == if x == p then AfterYield(o, ticks) else o
    case Sleep(x, chan) => r == if x == p then o.(state := SLEEPING, chan := chan) else o
    case Alloc => r == o || (o.state == UNUSED && r.state == EMBRYO && r.queue == 0 && !r.punish)
    case ForkReady(x, parent) => r == if x == p then o.(state := RUNNABLE, parent := parent) else o
    case Tick => r == o
    case _ =>
      && r.queue == o.queue && r.punish == o.punish
      && (r.state == RUNNABLE ==> o.state == SLEEPING || (o.state == RUNNABLE && r.age == o.age))
  }

  /** The labels of a process: what the scheduler does not look at. */
  predicate SameLabels(o: Proc, r: Proc) {
    r.pid == o.pid && r.parent == o.parent && r.chan == o.chan && r.killed == o.killed
  }

  /** Lifted one level with a fresh stamp. */
  ghost predicate AgedOnly(o: Proc, r: Proc, ticks: nat) {
    o.state == RUNNABLE && 1 <= o.queue && r == o.(queue := o.queue - 1, age := ticks)
  }

  lemma DispatchOnProc(s: Sched, p: nat)
    requires Inv(s) && p < NPROC
    ensures var o, r := s.procs[p], Select(AgeFrom(s, 1)).procs[p];
            && ProcStep(o, r, Dispatch, p, s.ticks)
            && (r.state == RUNNABLE && r.queue >= 1 ==> s.ticks - r.age <= AGE_LIMIT)
  {
    AgingPass(s, 1, AgeFrom(s, 1), p);
    SelectOnProc(AgeFrom(s, 1), p);
  }

  lemma SelectOnProc(t: Sched, p: nat)
    requires Lists(t) && p < NPROC
    ensures var o, r := t.procs[p], Select(t).procs[p];
            r == o || (o.state == RUNNABLE && r == o.(state := RUNNING, slices := o.slices + 1, timers := 0))
    ensures Select(t).ticks == t.ticks
  {}

  lemma StepOnProc(s: Sched, step: Step, p: nat)
    requires Inv(s) && Enabled(s, step) && p < NPROC
    ensures ProcStep(s.procs[p], Do(s, step).procs[p], step, p, s.ticks)
    ensures Do(s, step).ticks == s.ticks + if step == Tick then 1 else 0
  {
    match step
    case Dispatch =>
      DispatchOnProc(s, p);
      SelectOnProc(AgeFrom(s, 1), p);
    case Wakeup(_) => WakingStepOnProc(s, step, p);
    case Kill(_) => WakingStepOnProc(s, step, p);
    case Exit(_) => WakingStepOnProc(s, step, p);
    case _ =>
  }

  lemma WakingStepOnProc(s: Sched, step: Step, p: nat)
    requires Inv(s) && Enabled(s, step) && p < NPROC && (step.Wakeup? || step.Kill? || step.Exit?)
    ensures ProcStep(s.procs[p], Do(s, step).procs[p], step, p, s.ticks) && Do(s, step).ticks == s.ticks
  {
    match step
    case Wakeup(chan) =>
      WakeWakes(s, chan, 0);
      assert WokenProc(s.procs[p], WakeFrom(s, chan, 0).procs[p]);
    case Kill(pid) =>
      KillWakes(s, pid, 0);
      assert WokenProc(s.procs[p], KillFrom(s, pid, 0).procs[p]);
    case Exit(x) =>
      var u := ExitWakes(s, x);
      assert WokenProc(s.procs[p], u.procs[p]);
  }

  /** Demotion: a process moves to a worse level only by yielding after its 2^queue-th timer
      interrupt since dispatch, and then by exactly one level; it is marked for demotion only by
      that interrupt; a voluntary yield or a sleep never demotes. */
  lemma DemotionOnlyAfterFullSlice(s: Sched, step: Step, p: nat)
    requires Inv(s) && Enabled(s, step) && p < NPROC
    ensures ProcOk(s.procs[p], s.ticks)
    ensures var o, r := s.procs[p], Do(s, step).procs[p];
            && (r.queue > o.queue ==> step == Yield(p) && o.punish && o.timers == TimeSlice(o.queue))
            && (step == Yield(p) && o.punish ==> r.queue == if o.queue < NUM_QUEUES - 1 then o.queue + 1 else o.queue)
            && ((step == Yield(p) && !o.punish) || step.Sleep? ==> r.queue == o.queue)
            && (r.punish && !o.punish ==> step == TimerTrap(p) && o.timers + 1 == TimeSlice(o.queue))
  {
    StepOnProc(s, step, p);
  }

  // ----- Bounded waiting

  /** While a process stays queued, its level and stamp change only by moving to a better level. */
  lemma QueuedStep(s: Sched, step: Step, p: nat)
    requires Inv(s) && Enabled(s, step) && p < NPROC
    requires s.procs[p].state == RUNNABLE && Do(s, step).procs[p].state == RUNNABLE
    ensures NoWorse(s.procs[p], Do(s, step).procs[p]) && Do(s, step).ticks == s.ticks + if step == Tick then 1 else 0
  {
    StepOnProc(s, step, p);
  }

  ghost predicate NoWorse(o: Proc, r: Proc) {
    r.queue < o.queue || (r.queue == o.queue && r.age == o.age)
  }

  /** Steps that can be taken one after the other from `s` while `p` stays on a queue. */
  ghost predicate QueuedRun(s: Sched, steps: seq<Step>, t: Sched, p: nat)
    requires Inv(s) && p < NPROC
    decreases |steps|
  {
    && s.procs[p].state == RUNNABLE
    && if steps == [] then s == t
       else
         && Enabled(s, steps[0])
         && (StepKeepsInv(s, steps[0]); QueuedRun(Do(s, steps[0]), steps[1..], t, p))
  }

  lemma {:induction false} QueuedRunNoWorse(s: Sched, steps: seq<Step>, t: Sched, p: nat)
    requires Inv(s) && p < NPROC && QueuedRun(s, steps, t, p)
    ensures Inv(t) && t.procs[p].state == RUNNABLE && NoWorse(s.procs[p], t.procs[p]) && t.ticks >= s.ticks
    decreases |steps|
  {
    if steps != [] {
      var u := Do(s, steps[0]);
      StepKeepsInv(s, steps[0]);
      QueuedRunNoWorse(u, steps[1..], t, p);
      QueuedStep(s, steps[0], p);
    }
  }

  /** Bounded waiting below the top: queued at level i >= 1 and queued ever since, a process is on a
      better level after any dispatch (aging pass) made more than AGE_LIMIT ticks later. */
  lemma AgedWithinLimit(s: Sched, steps: seq<Step>, t: Sched, p: nat)
    requires Inv(s) && p < NPROC && QueuedRun(s, steps, t, p)
    requires s.procs[p].queue >= 1 && t.ticks > s.ticks + AGE_LIMIT
    ensures Inv(t)
    ensures var r := Do(t, Dispatch).procs[p]; r.state == RUNNABLE ==> r.queue < s.procs[p].queue
  {
    QueuedRunNoWorse(s, steps, t, p);
    DispatchOnProc(t, p);
    OutwaitedLimit(s.procs[p], t.procs[p], Do(t, Dispatch).procs[p], s.ticks, t.ticks, p);
  }

  lemma OutwaitedLimit(o: Proc, m: Proc, r: Proc, since: nat, now: nat, p: nat)
    requires 1 <= o.queue < NUM_QUEUES && 0 <= m.queue < NUM_QUEUES && o.age <= since && now > since + AGE_LIMIT
    requires NoWorse(o, m) && m.state == RUNNABLE && ProcStep(m, r, Dispatch, p, now)
    requires r.state == RUNNABLE && r.queue >= 1 ==> now - r.age <= AGE_LIMIT
    ensures r.state == RUNNABLE ==> r.queue < o.queue
  {}

  // ----- Waiting at the top level

  ghost function Dispatches(steps: seq<Step>): nat {
    if steps == [] then 0 else Dispatches(steps[1..]) + if steps[0] == Dispatch then 1 else 0
  }

  lemma {:induction false} AgeKeepsTop(s: Sched, i: nat)
    requires Lists(s) && 1 <= i <= NUM_QUEUES
    ensures s.queues[0] <= AgeFrom(s, i).queues[0]
    decreases NUM_QUEUES - i
  {
    if i < NUM_QUEUES {
      AgeLevelKeepsTop(s, i);
      AgeKeepsTop(AgeLevel(s, i), i + 1);
    }
  }

  lemma TopQueueSelect(t: Sched)
    requires Lists(t) && t.queues[0] != [] && QueueOk(t.procs, 0, t.queues[0])
    ensures Select(t).queues[0] == t.queues[0][1..] && Select(t).procs[t.queues[0][0]].state == RUNNING
  {}

  lemma TopQueueDispatch(s: Sched, t: Sched)
    requires Inv(s) && s.queues[0] != [] && t == AgeFrom(s, 1)
    ensures s.queues[0][1..] <= Select(t).queues[0] && Select(t).procs[s.queues[0][0]].state == RUNNING
  {
    AgingKeepsInv(s, 1);
    AgeKeepsTop(s, 1);
    TopQueueSelect(t);
  }

  /** The top queue is first in, first out: only a dispatch takes anything from it. */
  lemma TopQueueStep(s: Sched, step: Step)
    requires Inv(s) && Enabled(s, step) && step != Dispatch
    ensures s.queues[0] <= Do(s, step).queues[0]
  {
    match step
    case Wakeup(chan) => WakeWakes(s, chan, 0);
    case Kill(pid) => KillWakes(s, pid, 0);
    case Exit(x) => var u := ExitWakes(s, x);
    case _ =>
  }

  lemma TopPlaceDispatch(s: Sched, t: Sched, p: nat, j: nat)
    requires Inv(s) && t == AgeFrom(s, 1) && p < NPROC && j < |s.queues[0]| && s.queues[0][j] == p
    ensures if j == 0 then Select(t).procs[p].state == RUNNING
            else j - 1 < |Select(t).queues[0]| && Select(t).queues[0][j - 1] == p
  {
    TopQueueDispatch(s, t);
    if j > 0 {
      assert s.queues[0][1..][j - 1] == p;
    }
  }

  lemma TopPlaceStep(s: Sched, step: Step, u: Sched, p: nat, j: nat)
    requires Inv(s) && Enabled(s, step) && u == Do(s, step) && p < NPROC
    requires j < |s.queues[0]| && s.queues[0][j] == p && u.procs[p].state == RUNNABLE
    ensures step == Dispatch ==> j > 0 && j - 1 < |u.queues[0]| && u.queues[0][j - 1] == p
    ensures step != Dispatch ==> j < |u.queues[0]| && u.queues[0][j] == p
  {
    if step == Dispatch {
      TopPlaceDispatch(s, AgeFrom(s, 1), p, j);
    } else {
      TopQueueStep(s, step);
    }
  }

  /** At level 0 a process with j others ahead of it sees at most j dispatches before its own. */
  lemma {:induction false} TopWaitIsBounded(s: Sched, steps: seq<Step>, t: Sched, p: nat, j: nat)
    requires Inv(s) && p < NPROC && QueuedRun(s, steps, t, p)
    requires j < |s.queues[0]| && s.queues[0][j] == p
    ensures Dispatches(steps) <= j
    decreases |steps|
  {
    if steps != [] {
      var u := Do(s, steps[0]);
      StepKeepsInv(s, steps[0]);
      TopPlaceStep(s, steps[0], u, p, j);
      TopWaitIsBounded(u, steps[1..], t, p, if steps[0] == Dispatch then j - 1 else j);
    }
  }

  // ----- From any level to the CPU

  /** The dispatches behind the first k passes; a pass is a dispatch made more than AGE_LIMIT ticks after
      `since`, the time of the pass before it. */
  ghost function DispatchesAfter(now: nat, since: nat, steps: seq<Step>, k: nat): nat
    decreases |steps|
  {
    if k == 0 then Dispatches(steps)
    else if steps == [] then 0
    else if IsPass(steps[0], now, since) then DispatchesAfter(now, now, steps[1..], k - 1)
    else DispatchesAfter(now + (if steps[0] == Tick then 1 else 0), since, steps[1..], k)
  }

  predicate IsPass(step: Step, now: nat, since: nat) { step == Dispatch && now > since + AGE_LIMIT }

  lemma AtTheEnd(now: nat, since: nat, steps: seq<Step>, k: nat)
    requires if k == 0 then Dispatches(steps) < NPROC else steps == []
    ensures DispatchesAfter(now, since, steps, k) < NPROC
  {}

  /** The top queue holds no process twice. */
  lemma TopQueueIsShort(s: Sched, p: nat) returns (j: nat)
    requires Inv(s) && p < NPROC && s.procs[p].state == RUNNABLE && s.procs[p].queue == 0
    ensures j < |s.queues[0]| <= NPROC && s.queues[0][j] == p
  {
    var q := s.queues[0];
    assert QueueOk(s.procs, 0, q) && p in q;
    j :| 0 <= j < |q| && q[j] == p;
    DistinctPairs(q);
    Pigeonhole(q, NPROC);
  }

  /** A pass lifts whoever has waited since before it on level k. */
  lemma PassLifts(s: Sched, p: nat, since: nat, k: nat)
    requires Inv(s) && p < NPROC && s.procs[p].state == RUNNABLE && 1 <= k && s.ticks > since + AGE_LIMIT
    requires s.procs[p].queue <= k && (s.procs[p].queue == k ==> s.procs[p].age <= since)
    ensures var r := Do(s, Dispatch).procs[p]; r.state == RUNNABLE ==> r.queue <= k - 1 && r.age <= s.ticks
  {
    DispatchOnProc(s, p);
    assert ProcOk(s.procs[p], s.ticks);
    LiftedByPass(s.procs[p], Select(AgeFrom(s, 1)).procs[p], since, s.ticks, p, k);
  }

  lemma LiftedByPass(o: Proc, r: Proc, since: nat, now: nat, p: nat, k: nat)
    requires 0 <= o.queue < NUM_QUEUES && o.queue <= k && (o.queue == k ==> o.age <= since) && o.age <= now
    requires k >= 1 && now > since + AGE_LIMIT && o.state == RUNNABLE && ProcStep(o, r, Dispatch, p, now)
    requires r.state == RUNNABLE && r.queue >= 1 ==> now - r.age <= AGE_LIMIT
    ensures r.state == RUNNABLE ==> r.queue <= k - 1 && r.age <= now
  {}

  /** p is on level k at worst, and on level k only since before `since`. */
  ghost predicate Waits(s: Sched, p: nat, since: nat, k: nat) {
    && p < |s.procs| && s.procs[p].state == RUNNABLE && since <= s.ticks
    && 0 <= s.procs[p].queue <= k && (s.procs[p].queue == k ==> s.procs[p].age <= since)
  }

  lemma WaitsOn(s: Sched, step: Step, u: Sched, p: nat, since: nat, k: nat)
    requires Inv(s) && p < NPROC && Enabled(s, step) && u == Do(s, step) && Waits(s, p, since, k) && k >= 1
    requires Inv(u) && u.procs[p].state == RUNNABLE
    ensures u.ticks == s.ticks + if step == Tick then 1 else 0
    ensures if IsPass(step, s.ticks, since) then Waits(u, p, s.ticks, k - 1) else Waits(u, p, since, k)
  {
    QueuedStep(s, step, p);
    assert ProcOk(u.procs[p], u.ticks);
    if IsPass(step, s.ticks, since) {
      PassLifts(s, p, since, k);
    }
  }

  lemma WaitsAtTop(s: Sched, steps: seq<Step>, t: Sched, p: nat, since: nat)
    requires Inv(s) && p < NPROC && QueuedRun(s, steps, t, p) && Waits(s, p, since, 0)
    ensures Dispatches(steps) < NPROC
  {
    var j := TopQueueIsShort(s, p);
    TopWaitIsBounded(s, steps, t, p, j);
  }

  /** Counting from one state on comes down to counting from the next. */
  lemma CountNext(now: nat, next: nat, since: nat, steps: seq<Step>, k: nat) returns (since': nat, k': nat)
    requires k > 0 && steps != [] && next == now + if steps[0] == Tick then 1 else 0
    ensures if IsPass(steps[0], now, since) then since' == now && k' == k - 1 else since' == since && k' == k
    ensures DispatchesAfter(next, since', steps[1..], k') == DispatchesAfter(now, since, steps, k)
  {
    if IsPass(steps[0], now, since) {
      since', k' := now, k - 1;
    } else {
      since', k' := since, k;
    }
  }

  lemma {:induction false} WaitFrom(s: Sched, steps: seq<Step>, t: Sched, p: nat, since: nat, k: nat)
    requires Inv(s) && p < NPROC && QueuedRun(s, steps, t, p) && Waits(s, p, since, k)
    ensures DispatchesAfter(s.ticks, since, steps, k) < NPROC
    decreases |steps|
  {
    if k == 0 {
      WaitsAtTop(s, steps, t, p, since);
      AtTheEnd(s.ticks, since, steps, k);
    } else if steps == [] {
      AtTheEnd(s.ticks, since, steps, k);
    } else {
      StepKeepsInv(s, steps[0]);
      var u := Do(s, steps[0]);
      WaitsOn(s, steps[0], u, p, since, k);
      var since', k' := CountNext(s.ticks, u.ticks, since, steps, k);
      WaitFrom(u, steps[1..], t, p, since', k');
    }
  }

  /** Bounded waiting: a process that becomes RUNNABLE on level i and stays queued sees, after i aging
      passes more than AGE_LIMIT ticks apart, at most NPROC - 1 dispatches of others before its own. */
  lemma WaitIsBounded(s: Sched, steps: seq<Step>, t: Sched, p: nat)
    requires Inv(s) && p < NPROC && QueuedRun(s, steps, t, p)
    ensures s.procs[p].queue >= 0
    ensures DispatchesAfter(s.ticks, s.ticks, steps, s.procs[p].queue) < NPROC
  {
    assert ProcOk(s.procs[p], s.ticks);
    QueuedRunNoWorse(s, steps, t, p);
    WaitFrom(s, steps, t, p, s.ticks, s.procs[p].queue);
  }
}
