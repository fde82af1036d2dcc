/** Whom wakeup, kill and exit wake and what else they change, record by record, and what that means over
    runs: no wakeup is missed, no parent sleeps through the exit of a child, and pids tell processes apart. */
module MlfqWakeups {
  import opened Procs
  import opened Mlfq
  import opened MlfqRuns

  predicate SleepsOn(pr: Proc, chan: int) { pr.state == SLEEPING && pr.chan == chan }

  /** The record of a process that was woken. */
  function Awake(pr: Proc, ticks: nat): Proc { pr.(state := RUNNABLE, slices := 0, age := ticks) }

  // ----- wakeup

  lemma {:induction false} WakeFromOn(s: Sched, chan: int, j: nat, p: nat)
    requires Shape(s) && j <= NPROC && p < NPROC
    ensures var t := WakeFrom(s, chan, j);
            && t.procs[p] == (if j <= p && SleepsOn(s.procs[p], chan) then Awake(s.procs[p], s.ticks) else s.procs[p])
            && t.ticks == s.ticks && t.init == s.init && t.nextpid == s.nextpid
    decreases NPROC - j
  {
    if j < NPROC {
      WakeFromOn(if SleepsOn(s.procs[j], chan) then Ready(s, j) else s, chan, j + 1, p);
    }
  }

  predicate Ascending(q: seq<nat>) { forall i, j | 0 <= i < j < |q| :: q[i] < q[j] }

  lemma {:induction false} WakeFromQueue(s: Sched, chan: int, j: nat, i: nat) returns (new': seq<nat>)
    requires Shape(s) && j <= NPROC && i < NUM_QUEUES
    ensures WakeFrom(s, chan, j).queues[i] == s.queues[i] + new' && Ascending(new')
    ensures forall p: nat :: p in new' <==> j <= p < NPROC && SleepsOn(s.procs[p], chan) && s.procs[p].queue == i
    decreases NPROC - j
  {
    new' := [];
    if j < NPROC {
      var t := if SleepsOn(s.procs[j], chan) then Ready(s, j) else s;
      var rest := WakeFromQueue(t, chan, j + 1, i);
      if SleepsOn(s.procs[j], chan) && s.procs[j].queue == i {
        new' := [j] + rest;
        assert s.queues[i] + [j] + rest == s.queues[i] + new';
        assert forall k | 0 <= k < |rest| :: rest[k] in rest;
      } else {
        new' := rest;
      }
    }
  }

  /** wakeup(chan) makes exactly the sleepers on chan ready and changes no other record. */
  lemma WakeupWakes(s: Sched, chan: int, p: nat)
    requires Shape(s) && p < NPROC
    ensures var o := s.procs[p];
            Do(s, Wakeup(chan)).procs[p] ==
            if o.state == SLEEPING && o.chan == chan then o.(state := RUNNABLE, slices := 0, age := s.ticks) else o
  {
    WakeFromOn(s, chan, 0, p);
  }

  /** Each level gets those of its own at its end, in the order of their slots. */
  lemma WakeupQueues(s: Sched, chan: int, i: nat) returns (new': seq<nat>)
    requires Shape(s) && i < NUM_QUEUES
    ensures Do(s, Wakeup(chan)).queues[i] == s.queues[i] + new' && Ascending(new')
    ensures forall p: nat :: p in new' <==> p < NPROC && SleepsOn(s.procs[p], chan) && s.procs[p].queue == i
  {
    new' := WakeFromQueue(s, chan, 0, i);
  }

  // ----- kill

  /** p is the first slot with that pid. */
  predicate FirstWith(s: Sched, pid: int, p: nat)
    requires |s.procs| == NPROC
  {
    p < NPROC && s.procs[p].pid == pid && forall k | 0 <= k < p :: s.procs[k].pid != pid
  }

  /** kill(pid) marks the first process with that pid and makes it ready if it slept, and changes no other. */
  lemma KillMarks(s: Sched, pid: int, p: nat)
    requires Shape(s) && p < NPROC
    ensures var o, r := s.procs[p], Do(s, Kill(pid)).procs[p];
            if !FirstWith(s, pid, p) then r == o
            else if o.state == SLEEPING then r == Awake(o, s.ticks).(killed := true)
            else r == o.(killed := true)
  {
    KillFromMarks(s, pid, 0, p);
  }

  lemma {:induction false} KillFromMarks(s: Sched, pid: int, j: nat, p: nat)
    requires Shape(s) && j <= NPROC && p < NPROC && forall k | 0 <= k < j :: s.procs[k].pid != pid
    ensures var t := KillFrom(s, pid, j);
            && t.procs[p] == (if !FirstWith(s, pid, p) then s.procs[p]
                              else if s.procs[p].state == SLEEPING then Awake(s.procs[p], s.ticks).(killed := true)
                              else s.procs[p].(killed := true))
            && t.nextpid == s.nextpid && t.init == s.init
    decreases NPROC - j
  {
    if j < NPROC && s.procs[j].pid != pid {
      KillFromMarks(s, pid, j + 1, p);
    }
  }

  // ----- exit

  /** Some zombie from slot j on has p for its parent. */
  predicate ZombieChild(s: Sched, p: nat, j: nat)
    requires |s.procs| == NPROC
  {
    exists k :: j <= k < NPROC && s.procs[k].parent == p && s.procs[k].state == ZOMBIE
  }

  function Orphaned(s: Sched, p: nat, j: nat, q: nat): Proc
    requires |s.procs| == NPROC && q < NPROC
  {
    var o := s.procs[q];
    var r := if SleepsOn(o, Addr(s.init)) && ZombieChild(s, p, j) then Awake(o, s.ticks) else o;
    if j <= q && o.parent == p then r.(parent := s.init) else r
  }

  lemma ReparentOneOn(s: Sched, p: nat, j: nat, q: nat)
    requires Shape(s) && j < NPROC && q < NPROC
    ensures var t, o := ReparentOne(s, p, j), s.procs[q];
            && t.procs[q] == (var r := if SleepsOn(o, Addr(s.init)) && s.procs[j].parent == p && s.procs[j].state == ZOMBIE
                                       then Awake(o, s.ticks) else o;
                              if q == j && o.parent == p then r.(parent := s.init) else r)
            && t.ticks == s.ticks && t.init == s.init && t.nextpid == s.nextpid
  {
    if s.procs[j].parent == p {
      WakeFromOn(SetProc(s, j, s.procs[j].(parent := s.init)), Addr(s.init), 0, q);
    }
  }

  lemma {:induction false} ReparentOn(s: Sched, p: nat, j: nat, q: nat)
    requires Shape(s) && j <= NPROC && q < NPROC && p != s.init
    ensures var t := Reparent(s, p, j);
            t.procs[q] == Orphaned(s, p, j, q) && t.ticks == s.ticks && t.init == s.init && t.nextpid == s.nextpid
    decreases NPROC - j
  {
    if j < NPROC {
      var t := ReparentOne(s, p, j);
      ReparentOneOn(s, p, j, q);
      ReparentOn(t, p, j + 1, q);
      forall k: nat | k < NPROC
        ensures t.procs[k].state == ZOMBIE <==> s.procs[k].state == ZOMBIE
        ensures k > j ==> t.procs[k].parent == s.procs[k].parent
      {
        ReparentOneOn(s, p, j, k);
      }
      ZombiesLeft(s, t, p, j);
    }
  }

  lemma ZombiesLeft(s: Sched, t: Sched, p: nat, j: nat)
    requires |s.procs| == |t.procs| == NPROC && j < NPROC
    requires forall k | 0 <= k < NPROC :: t.procs[k].state == ZOMBIE <==> s.procs[k].state == ZOMBIE
    requires forall k | j < k < NPROC :: t.procs[k].parent == s.procs[k].parent
    ensures ZombieChild(s, p, j) <==> (s.procs[j].parent == p && s.procs[j].state == ZOMBIE) || ZombieChild(t, p, j + 1)
  {}

  /** Whom the exit of x wakes: its parent, and init if x leaves a zombie behind. */
  predicate ExitWakesProc(s: Sched, x: nat, p: nat)
    requires |s.procs| == NPROC && x < NPROC && p < NPROC
  {
    SleepsOn(s.procs[p], Addr(s.procs[x].parent)) || (SleepsOn(s.procs[p], Addr(s.init)) && ZombieChild(s, x, 0))
  }

  /** exit of x: x is a zombie, its children are init's, the processes above are ready; nothing else. */
  lemma ExitDoes(s: Sched, x: nat, p: nat)
    requires Shape(s) && Enabled(s, Exit(x)) && p < NPROC
    ensures var o, r := s.procs[p], Do(s, Exit(x)).procs[p];
            && r.parent == (if o.parent == x then s.init else o.parent)
            && r.state == (if p == x then ZOMBIE else if ExitWakesProc(s, x, p) then RUNNABLE else o.state)
            && r.(parent := o.parent, state := o.state) == (if ExitWakesProc(s, x, p) then o.(slices := 0, age := s.ticks) else o)
  {
    var t := WakeFrom(s, Addr(s.procs[x].parent), 0);
    forall k: nat | k < NPROC
      ensures t.procs[k].state == ZOMBIE <==> s.procs[k].state == ZOMBIE
      ensures t.procs[k].parent == s.procs[k].parent
    {
      WakeFromOn(s, Addr(s.procs[x].parent), 0, k);
    }
    WakeFromOn(s, Addr(s.procs[x].parent), 0, p);
    ReparentOn(t, x, 0, p);
    assert ZombieChild(t, x, 0) == ZombieChild(s, x, 0);
  }

  // ----- Sleepers over runs

  /** Whom a step takes out of its sleep. */
  predicate Wakes(s: Sched, step: Step, p: nat)
    requires Shape(s) && Enabled(s, step) && p < NPROC
  {
    match step
    case Wakeup(chan) => SleepsOn(s.procs[p], chan)
    case Kill(pid) => s.procs[p].state == SLEEPING && FirstWith(s, pid, p)
    case Exit(x) => ExitWakesProc(s, x, p)
    case _ => false
  }

  lemma DispatchLabels(s: Sched, p: nat)
    requires Inv(s) && p < NPROC
    ensures var o, r := s.procs[p], Do(s, Dispatch).procs[p];
            SameLabels(o, r) && (r.state == o.state || (o.state == RUNNABLE && r.state == RUNNING))
  {
    StepOnProc(s, Dispatch, p);
  }

  /** A sleeper sleeps on, on its channel, exactly until a step wakes it. */
  lemma SleepsUntilWoken(s: Sched, step: Step, p: nat)
    requires Inv(s) && Enabled(s, step) && p < NPROC && s.procs[p].state == SLEEPING
    ensures var r := Do(s, step).procs[p];
            if Wakes(s, step, p) then r.state == RUNNABLE else r.state == SLEEPING && r.chan == s.procs[p].chan
  {
    match step
    case Wakeup(chan) => WakeupWakes(s, chan, p);
    case Kill(pid) => KillMarks(s, pid, p);
    case Exit(x) => ExitDoes(s, x, p);
    case Dispatch => DispatchLabels(s, p);
    case _ =>
  }

  /** Nobody falls asleep but by its own sleep. */
  lemma FallsAsleep(s: Sched, step: Step, p: nat)
    requires Inv(s) && Enabled(s, step) && p < NPROC && s.procs[p].state != SLEEPING && !(step.Sleep? && step.p == p)
    ensures Do(s, step).procs[p].state != SLEEPING
  {
    match step
    case Wakeup(chan) => WakeupWakes(s, chan, p);
    case Kill(pid) => KillMarks(s, pid, p);
    case Exit(x) => ExitDoes(s, x, p);
    case Dispatch => DispatchLabels(s, p);
    case _ =>
  }

  lemma {:induction false} AsleepOnlyOn(s: Sched, steps: seq<Step>, t: Sched, p: nat, chan: int)
    requires Inv(s) && Reaches(s, steps, t) && p < NPROC && (s.procs[p].state == SLEEPING ==> s.procs[p].chan == chan)
    requires forall k | 0 <= k < |steps| :: !(steps[k].Sleep? && steps[k].p == p)
    ensures Inv(t) && (t.procs[p].state == SLEEPING ==> t.procs[p].chan == chan)
    decreases |steps|
  {
    if steps != [] {
      StepKeepsInv(s, steps[0]);
      if s.procs[p].state == SLEEPING {
        SleepsUntilWoken(s, steps[0], p);
      } else {
        FallsAsleep(s, steps[0], p);
      }
      AsleepOnlyOn(Do(s, steps[0]), steps[1..], t, p, chan);
    }
  }

  /** No wakeup is missed: a process that went to sleep on chan, and not again since, is not asleep after a
      wakeup of chan, whatever happened in between. */
  lemma WakeupReaches(s: Sched, p: nat, chan: int, steps: seq<Step>, t: Sched)
    requires Inv(s) && Enabled(s, Sleep(p, chan)) && Inv(Do(s, Sleep(p, chan))) && Reaches(Do(s, Sleep(p, chan)), steps, t)
    requires forall k | 0 <= k < |steps| :: !(steps[k].Sleep? && steps[k].p == p)
    ensures Inv(t) && Do(t, Wakeup(chan)).procs[p].state != SLEEPING
  {
    AsleepOnlyOn(Do(s, Sleep(p, chan)), steps, t, p, chan);
    WakeupWakes(t, chan, p);
  }

  // ----- wait and exit

  /** Nobody sleeps in wait with a zombie to collect; nobody is its own parent, and init has none. */
  ghost predicate Attended(s: Sched) {
    && |s.procs| == NPROC && s.init < NPROC && s.procs[s.init].parent == -1
    && (forall p: nat | p < NPROC && SleepsOn(s.procs[p], Addr(p)) :: !ZombieChild(s, p, 0))
    && (forall p: nat | p < NPROC :: s.procs[p].parent != p)
  }

  /** What wait and fork keep to: wait sleeps on its own record only when it found no zombie; init is
      userinit's, and any other process is forked by a running one. */
  predicate Proper(s: Sched, step: Step)
    requires Shape(s) && Enabled(s, step)
  {
    match step
    case Sleep(p, chan) => chan == Addr(p) ==> !ZombieChild(s, p, 0)
    case ForkReady(p, parent) => if p == s.init then parent == -1 else parent >= 0 && s.procs[parent].state == RUNNING
    case _ => true
  }

  /** The parent and the end of a process, step by step. */
  predicate Family(o: Proc, r: Proc, step: Step, p: nat, init: nat) {
    match step
    case Exit(x) => r.parent == (if o.parent == x then init else o.parent) && (r.state == ZOMBIE <==> p == x || o.state == ZOMBIE)
    case ForkReady(x, parent) => if p == x then r.parent == parent && r.state == RUNNABLE else r == o
    case Reap(x) => if p == x then r.parent == -1 && r.state == UNUSED else r == o
    case _ => r.parent == o.parent && (r.state == ZOMBIE <==> o.state == ZOMBIE)
  }

  lemma FamilyStep(s: Sched, step: Step, p: nat)
    requires Inv(s) && Enabled(s, step) && p < NPROC
    ensures Family(s.procs[p], Do(s, step).procs[p], step, p, s.init)
  {
    match step
    case Wakeup(chan) => WakeupWakes(s, chan, p);
    case Kill(pid) => KillMarks(s, pid, p);
    case Exit(x) => ExitDoes(s, x, p);
    case Dispatch => DispatchLabels(s, p);
    case _ =>
  }

  lemma {:induction false} AgeRest(s: Sched, i: nat)
    requires Lists(s) && 1 <= i <= NUM_QUEUES
    ensures AgeFrom(s, i).nextpid == s.nextpid && AgeFrom(s, i).init == s.init
    decreases NUM_QUEUES - i
  {
    if i < NUM_QUEUES {
      AgeRest(AgeLevel(s, i), i + 1);
    }
  }

  lemma ExitRest(s: Sched, x: nat)
    requires Shape(s) && Enabled(s, Exit(x))
    ensures Do(s, Exit(x)).nextpid == s.nextpid && Do(s, Exit(x)).init == s.init
  {
    var chan := Addr(s.procs[x].parent);
    WakeFromOn(s, chan, 0, x);
    ReparentOn(WakeFrom(s, chan, 0), x, 0, x);
  }

  /** Who is init never changes, and a pid is used up by allocproc alone. */
  lemma RestStep(s: Sched, step: Step)
    requires Shape(s) && Enabled(s, step)
    ensures Do(s, step).init == s.init
    ensures Do(s, step).nextpid == s.nextpid + if step == Alloc && FindUnused(s.procs, 0) < NPROC then 1 else 0
  {
    match step
    case Wakeup(chan) => WakeFromOn(s, chan, 0, 0);
    case Kill(pid) => KillFromMarks(s, pid, 0, 0);
    case Exit(x) => ExitRest(s, x);
    case Dispatch => AgeRest(s, 1);
    case _ =>
  }

  /** A zombie child after a step was one before, or the step is the exit of a child or of its parent. */
  lemma ZombieFrom(s: Sched, step: Step, p: nat)
    requires Inv(s) && Enabled(s, step) && p < NPROC && ZombieChild(Do(s, step), p, 0) && !ZombieChild(s, p, 0)
    ensures step.Exit? && (s.procs[step.p].parent == p || s.procs[step.p].parent == step.p || (p == s.init && ZombieChild(s, step.p, 0)))
  {
    var t := Do(s, step);
    var k :| 0 <= k < NPROC && t.procs[k].parent == p && t.procs[k].state == ZOMBIE;
    FamilyStep(s, step, k);
  }

  lemma StepAttended(s: Sched, step: Step)
    requires Inv(s) && Enabled(s, step) && Proper(s, step) && Attended(s)
    ensures Attended(Do(s, step))
  {
    var t := Do(s, step);
    StepKeepsInv(s, step);
    RestStep(s, step);
    FamilyStep(s, step, s.init);
    forall p: nat | p < NPROC
      ensures t.procs[p].parent != p
      ensures SleepsOn(t.procs[p], Addr(p)) ==> !ZombieChild(t, p, 0)
    {
      FamilyStep(s, step, p);
      if SleepsOn(t.procs[p], Addr(p)) {
        if s.procs[p].state == SLEEPING {
          SleepsUntilWoken(s, step, p);
        } else if !(step.Sleep? && step.p == p) {
          FallsAsleep(s, step, p);
        }
        if ZombieChild(t, p, 0) && !ZombieChild(s, p, 0) {
          ZombieFrom(s, step, p);
        }
      }
    }
  }

  /** Steps one after the other in which wait and fork keep to their rules. */
  ghost predicate ProperRun(s: Sched, steps: seq<Step>, t: Sched)
    requires Inv(s)
    decreases |steps|
  {
    if steps == [] then s == t
    else
      && Enabled(s, steps[0]) && Proper(s, steps[0])
      && (StepKeepsInv(s, steps[0]); ProperRun(Do(s, steps[0]), steps[1..], t))
  }

  lemma {:induction false} RunAttended(s: Sched, steps: seq<Step>, t: Sched)
    requires Inv(s) && Attended(s) && ProperRun(s, steps, t)
    ensures Inv(t) && Attended(t)
    decreases |steps|
  {
    if steps != [] {
      StepKeepsInv(s, steps[0]);
      StepAttended(s, steps[0]);
      RunAttended(Do(s, steps[0]), steps[1..], t);
    }
  }

  /** No exit is missed: in every reachable state, a process that sleeps in wait has no zombie child. */
  lemma NoExitMissed(steps: seq<Step>, s: Sched, p: nat, k: nat)
    requires (BootInv(); ProperRun(Boot(), steps, s)) && p < NPROC && k < NPROC
    ensures Inv(s) && (SleepsOn(s.procs[p], Addr(p)) && s.procs[k].state == ZOMBIE ==> s.procs[k].parent != p)
  {
    BootInv();
    RunAttended(Boot(), steps, s);
  }

  // ----- Pids

  /** Every process in use has a pid of its own. */
  predicate PidsApart(s: Sched) {
    && |s.procs| == NPROC && s.nextpid >= 1
    && (forall p | 0 <= p < NPROC :: 0 <= s.procs[p].pid < s.nextpid && (s.procs[p].state != UNUSED ==> s.procs[p].pid > 0))
    && forall p, q | 0 <= p < q < NPROC && s.procs[p].pid == s.procs[q].pid :: s.procs[p].pid == 0
  }

  /** The pid of a process, step by step. */
  predicate Named(o: Proc, r: Proc, step: Step, p: nat, first: nat, nextpid: int) {
    match step
    case Alloc => if p == first then r.pid == nextpid && r.state == EMBRYO else r == o
    case Reap(x) => if p == x then r.pid == 0 && r.state == UNUSED else r == o
    case _ => r.pid == o.pid && (o.state == UNUSED ==> r.state == UNUSED)
  }

  lemma NameStep(s: Sched, step: Step, p: nat)
    requires Inv(s) && Enabled(s, step) && p < NPROC
    ensures Named(s.procs[p], Do(s, step).procs[p], step, p, FindUnused(s.procs, 0), s.nextpid)
  {
    match step
    case Wakeup(chan) => WakeupWakes(s, chan, p);
    case Kill(pid) => KillMarks(s, pid, p);
    case Exit(x) => ExitDoes(s, x, p);
    case Dispatch => DispatchLabels(s, p);
    case _ =>
  }

  lemma StepPids(s: Sched, step: Step)
    requires Inv(s) && Enabled(s, step) && PidsApart(s)
    ensures PidsApart(Do(s, step))
  {
    var t := Do(s, step);
    RestStep(s, step);
    forall p: nat | p < NPROC
      ensures Named(s.procs[p], t.procs[p], step, p, FindUnused(s.procs, 0), s.nextpid)
    {
      NameStep(s, step, p);
    }
  }

  /** Over every run: processes in use have different pids, so kill marks the process it names, if one
      has that pid, and no other process in use. */
  lemma {:induction false} RunPids(s: Sched, steps: seq<Step>, t: Sched)
    requires Inv(s) && PidsApart(s) && Reaches(s, steps, t)
    ensures Inv(t) && PidsApart(t)
    decreases |steps|
  {
    if steps != [] {
      StepKeepsInv(s, steps[0]);
      StepPids(s, steps[0]);
      RunPids(Do(s, steps[0]), steps[1..], t);
    }
  }

  lemma KillHitsItsProcess(steps: seq<Step>, s: Sched, pid: int, p: nat)
    requires (BootInv(); Reaches(Boot(), steps, s)) && p < NPROC && pid > 0
    ensures Inv(s)
    ensures var r := Do(s, Kill(pid)).procs[p];
            if s.procs[p].pid == pid then r.killed && r.state != SLEEPING else r == s.procs[p]
  {
    BootInv();
    RunPids(Boot(), steps, s);
    KillMarks(s, pid, p);
    if s.procs[p].pid == pid {
      assert forall k | 0 <= k < p :: s.procs[k].pid != pid;
    }
  }

  // ----- The mark of kill

  /** No unused slot is marked killed. */
  ghost predicate Spotless(s: Sched) {
    |s.procs| == NPROC && forall p | 0 <= p < NPROC && s.procs[p].state == UNUSED :: !s.procs[p].killed
  }

  /** kill finds an unused slot first, or a killed process is given up before it ran. */
  ghost predicate MarksUnused(s: Sched, step: Step)
    requires Shape(s) && Enabled(s, step)
  {
    match step
    case Kill(pid) => exists p: nat :: FirstWith(s, pid, p) && s.procs[p].state == UNUSED
    case ForkFail(p) => s.procs[p].killed
    case _ => false
  }

  /** The mark and the slot of a process, step by step. */
  predicate Marked(o: Proc, r: Proc, step: Step, p: nat, hit: bool) {
    match step
    case Kill(_) => r.killed == (o.killed || hit) && (r.state == UNUSED <==> o.state == UNUSED)
    case Alloc => r.killed == o.killed && (r.state == UNUSED ==> r == o)
    case Reap(x) => if p == x then !r.killed && r.state == UNUSED else r == o
    case ForkFail(x) => if p == x then r.killed == o.killed && r.state == UNUSED else r == o
    case _ => r.killed == o.killed && (r.state == UNUSED <==> o.state == UNUSED)
  }

  lemma MarkStep(s: Sched, step: Step, p: nat)
    requires Inv(s) && Enabled(s, step) && p < NPROC
    ensures Marked(s.procs[p], Do(s, step).procs[p], step, p, step.Kill? && FirstWith(s, step.pid, p))
  {
    match step
    case Wakeup(chan) => WakeupWakes(s, chan, p);
    case Kill(pid) => KillMarks(s, pid, p);
    case Exit(x) => ExitDoes(s, x, p);
    case Dispatch => DispatchLabels(s, p);
    case _ =>
  }

  /** allocproc does not clear the mark, so a process starts killed exactly when its slot was marked. Which
      steps mark an unused slot: these, and no others. */
  lemma SpotlessKeptExactly(s: Sched, step: Step)
    requires Inv(s) && Enabled(s, step) && Spotless(s)
    ensures Spotless(Do(s, step)) <==> !MarksUnused(s, step)
    ensures step == Alloc ==>
              forall p | 0 <= p < NPROC && s.procs[p].state == UNUSED && Do(s, step).procs[p].state == EMBRYO ::
                !Do(s, step).procs[p].killed
  {
    var t := Do(s, step);
    forall p: nat | p < NPROC
      ensures Marked(s.procs[p], t.procs[p], step, p, step.Kill? && FirstWith(s, step.pid, p))
    {
      MarkStep(s, step, p);
    }
    if MarksUnused(s, step) {
      if step.Kill? {
        var p: nat :| FirstWith(s, step.pid, p) && s.procs[p].state == UNUSED;
        assert t.procs[p].killed && t.procs[p].state == UNUSED;
      } else {
        assert t.procs[step.p].killed && t.procs[step.p].state == UNUSED;
      }
    }
  }

  /** kill(0) finds a slot nobody uses, and the next process in it starts out killed. */
  lemma BornKilled() returns (steps: seq<Step>, s: Sched)
    ensures (BootInv(); Reaches(Boot(), steps, s)) && Inv(s) && s.procs[0].state == EMBRYO && s.procs[0].killed
  {
    BootInv();
    var b := Boot();
    steps := [Kill(0), Alloc];
    KillMarks(b, 0, 0);
    assert FirstWith(b, 0, 0);
    var t := Do(b, Kill(0));
    StepKeepsInv(b, Kill(0));
    s := Do(t, Alloc);
    StepKeepsInv(t, Alloc);
    assert steps[1..] == [Alloc] && [Alloc][1..] == [];
    assert Reaches(s, [], s);
    assert Reaches(t, [Alloc], s);
  }

  // ----- The other steps, record by record

  /** p is the first slot nobody uses. */
  predicate FirstUnused(s: Sched, p: nat)
    requires |s.procs| == NPROC && p < NPROC
  {
    s.procs[p].state == UNUSED && forall k | 0 <= k < p :: s.procs[k].state != UNUSED
  }

  /** What allocproc, fork, wait, the timer, yield and sleep make of each record. */
  lemma StepSetsRecord(s: Sched, step: Step, p: nat)
    requires Inv(s) && Enabled(s, step) && p < NPROC
    ensures ProcOk(s.procs[p], s.ticks)
    ensures var o, r := s.procs[p], Do(s, step).procs[p];
            match step
            case Alloc =>
              r == if FirstUnused(s, p) then Proc(EMBRYO, s.nextpid, o.parent, o.chan, o.killed, 0, s.ticks, 0, false, o.timers) else o
            case ForkReady(x, parent) => r == if x == p then o.(state := RUNNABLE, parent := parent) else o
            case ForkFail(x) => r == if x == p then o.(state := UNUSED) else o
            case Reap(x) => r == if x == p then o.(state := UNUSED, pid := 0, parent := -1, killed := false) else o
            case Sleep(x, chan) => r == if x == p then o.(state := SLEEPING, chan := chan) else o
            case TimerTrap(x) =>
              var full := o.timers + 1 == TimeSlice(o.queue);
              r == if x != p then o else if full then o.(punish := true, timers := o.timers + 1)
                   else o.(slices := o.slices + 1, timers := o.timers + 1)
            case Yield(x) =>
              var down := if o.punish && o.queue < NUM_QUEUES - 1 then o.queue + 1 else o.queue;
              r == if x == p then o.(state := RUNNABLE, slices := 0, punish := false, age := s.ticks, queue := down) else o
            case Tick => r == o
            case _ => true
  {}

  /** Whoever becomes ready goes to the end of its queue. */
  lemma StepQueues(s: Sched, step: Step, i: nat)
    requires Inv(s) && Enabled(s, step) && i < NUM_QUEUES && (step.ForkReady? || step.Yield?)
    ensures Shape(Do(s, step))
    ensures Do(s, step).queues[i] == if i == Do(s, step).procs[step.p].queue then s.queues[i] + [step.p] else s.queues[i]
  {
    StepKeepsInv(s, step);
  }
}
