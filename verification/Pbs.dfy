/** The priority scheduler of proc.c (SCHED_PBS) on one CPU: the selection scan, and how evenly it
    shares the CPU among the processes of the best priority. */
module Pbs {
  import opened Procs

  /** The fields the selection reads; smaller numbers are better priorities. */
  datatype Task = Task(state: ProcState, priority: int, slices: int)

  /** The process table and the slot on the CPU, -1 when the scheduler itself runs. */
  datatype Table = Table(procs: seq<Task>, cpu: int)

  // ----- Selection

  /** a comes before b: better priority, then fewer time slices, then the lower slot. */
  predicate Before(procs: seq<Task>, a: nat, b: nat)
    requires a < |procs| && b < |procs|
  {
    var x, y := procs[a], procs[b];
    x.priority < y.priority || (x.priority == y.priority && (x.slices < y.slices || (x.slices == y.slices && a <= b)))
  }

  /** p is RUNNABLE and comes before every RUNNABLE process in the first n slots. */
  predicate Best(procs: seq<Task>, n: nat, p: nat)
    requires n <= |procs|
  {
    && p < n && procs[p].state == RUNNABLE
    && forall q: nat | q < n && procs[q].state == RUNNABLE :: Before(procs, p, q)
  }

  predicate NoneReady(procs: seq<Task>, n: nat)
    requires n <= |procs|
  {
    forall q: nat | q < n :: procs[q].state != RUNNABLE
  }

  /** set_priority's range. */
  predicate InRange(procs: seq<Task>) {
    forall p | 0 <= p < |procs| :: 0 <= procs[p].priority <= 100
  }

  // ----- Steps

  datatype Step =
    | Alloc(p: nat)                        // allocproc
    | Ready(p: nat)                        // fork, userinit, wakeup
    | Dispatch(p: nat)                     // one turn of the scheduler
    | Yield                                // the running process gives up the CPU
    | Sleep
    | Exit
    | Reap(p: nat)                         // wait
    | SetPriority(n: int)                  // set_priority under the lock; a change is followed by Yield

  predicate Ok(t: Table) {
    && |t.procs| == NPROC && InRange(t.procs) && -1 <= t.cpu < NPROC
    && forall p | 0 <= p < NPROC :: t.procs[p].state == RUNNING <==> p == t.cpu
  }

  predicate Enabled(t: Table, s: Step)
    requires Ok(t)
  {
    match s
    case Alloc(p) => p < NPROC && t.procs[p].state == UNUSED
    case Ready(p) => p < NPROC && (t.procs[p].state == EMBRYO || t.procs[p].state == SLEEPING)
    case Dispatch(p) => t.cpu == -1 && Best(t.procs, NPROC, p)
    case Yield => t.cpu >= 0
    case Sleep => t.cpu >= 0
    case Exit => t.cpu >= 0
    case Reap(p) => p < NPROC && t.procs[p].state == ZOMBIE
    case SetPriority(n) => t.cpu >= 0
  }

  function SetState(t: Table, p: nat, state: ProcState): Table
    requires p < |t.procs|
  {
    t.(procs := t.procs[p := t.procs[p].(state := state)])
  }

  function Repriced(x: Task, n: int): Task {
    if 0 <= n <= 100 && n != x.priority then x.(priority := n, slices := 0) else x
  }

  function Do(t: Table, s: Step): Table
    requires Ok(t) && Enabled(t, s)
  {
    match s
    case Alloc(p) => t.(procs := t.procs[p := Task(EMBRYO, 60, 0)])
    case Ready(p) => SetState(t, p, RUNNABLE)
    case Dispatch(p) => Table(t.procs[p := t.procs[p].(state := RUNNING, slices := t.procs[p].slices + 1)], p)
    case Yield => SetState(t, t.cpu, RUNNABLE).(cpu := -1)
    case Sleep => SetState(t, t.cpu, SLEEPING).(cpu := -1)
    case Exit => SetState(t, t.cpu, ZOMBIE).(cpu := -1)
    case Reap(p) => SetState(t, p, UNUSED)
    case SetPriority(n) => t.(procs := t.procs[t.cpu := Repriced(t.procs[t.cpu], n)])
  }

  lemma StepKeepsOk(t: Table, s: Step)
    requires Ok(t) && Enabled(t, s)
    ensures Ok(Do(t, s))
  {}

  /** What each step makes of each process: allocproc starts at priority 60 without time slices, a dispatch
      counts one, a new priority starts them over, and nothing else touches them. */
  lemma StepOnTask(t: Table, s: Step, q: nat)
    requires Ok(t) && Enabled(t, s) && q < NPROC
    ensures var o, r := t.procs[q], Do(t, s).procs[q];
            match s
            case Alloc(p) => r == if q == p then Task(EMBRYO, 60, 0) else o
            case Ready(p) => r == Task(if q == p then RUNNABLE else o.state, o.priority, o.slices)
            case Dispatch(p) => r == if q == p then Task(RUNNING, o.priority, o.slices + 1) else o
            case Yield => r == Task(if q == t.cpu then RUNNABLE else o.state, o.priority, o.slices)
            case Sleep => r == Task(if q == t.cpu then SLEEPING else o.state, o.priority, o.slices)
            case Exit => r == Task(if q == t.cpu then ZOMBIE else o.state, o.priority, o.slices)
            case Reap(p) => r == Task(if q == p then UNUSED else o.state, o.priority, o.slices)
            case SetPriority(n) =>
              && (r.priority == if q == t.cpu && 0 <= n <= 100 then n else o.priority)
              && (r.slices == if r.priority == o.priority then o.slices else 0) && r.state == o.state
  {}

  /** Whenever some process is RUNNABLE, exactly one is best. */
  lemma {:induction false} SomeBest(procs: seq<Task>, n: nat)
    requires n <= |procs| && !NoneReady(procs, n)
    ensures exists p: nat :: Best(procs, n, p)
    ensures forall p: nat, q: nat | Best(procs, n, p) && Best(procs, n, q) :: p == q
  {
    if n > 0 {
      if NoneReady(procs, n - 1) {
        assert Best(procs, n, n - 1);
      } else {
        SomeBest(procs, n - 1);
        var p: nat :| Best(procs, n - 1, p);
        if procs[n - 1].state == RUNNABLE && Before(procs, n - 1, p) {
          assert Best(procs, n, n - 1);
        } else {
          assert Best(procs, n, p);
        }
      }
    }
  }

  // ----- Fairness

  /** The processes g are ready (or running), share one priority, and nobody else who is ready has as
      good a one. */
  ghost predicate TopGroup(t: Table, g: set<nat>, priority: int) {
    && |t.procs| == NPROC
    && (forall p | p in g :: p < NPROC && t.procs[p].priority == priority && (t.procs[p].state == RUNNABLE || t.procs[p].state == RUNNING))
    && (forall p: nat | p < NPROC && p !in g && t.procs[p].state == RUNNABLE :: t.procs[p].priority > priority)
  }

  /** No two members of g are more than d time slices apart. */
  ghost predicate Within(t: Table, g: set<nat>, d: int)
    requires forall p | p in g :: p < |t.procs|
  {
    forall p, q | p in g && q in g :: t.procs[p].slices - t.procs[q].slices <= d
  }

  lemma StepKeepsSpread(t: Table, s: Step, g: set<nat>, priority: int, d: int)
    requires Ok(t) && Enabled(t, s) && TopGroup(t, g, priority) && TopGroup(Do(t, s), g, priority)
    requires d >= 1 && Within(t, g, d)
    ensures Within(Do(t, s), g, d)
  {
    var u := Do(t, s);
    if s.Dispatch? {
      forall p, q | p in g && q in g
        ensures u.procs[p].slices - u.procs[q].slices <= d
      {
        assert t.procs[q].state == RUNNABLE && t.procs[p].state == RUNNABLE;
        assert Before(t.procs, s.p, q);
      }
    }
  }

  /** t leads to u by the steps `run`, with g the top group all along. */
  ghost predicate Shares(t: Table, run: seq<Step>, u: Table, g: set<nat>, priority: int)
    decreases |run|
  {
    && TopGroup(t, g, priority)
    && if run == [] then t == u
       else Ok(t) && Enabled(t, run[0]) && Shares(Do(t, run[0]), run[1..], u, g, priority)
  }

  function Turns(run: seq<Step>, p: nat): nat {
    if run == [] then 0 else (if run[0] == Dispatch(p) then 1 else 0) + Turns(run[1..], p)
  }

  /** However long a fixed group of always-ready processes keeps the best priority, its time slices stay
      within the spread it started with, or 1. */
  lemma {:induction false} SpreadStaysSmall(t: Table, run: seq<Step>, u: Table, g: set<nat>, priority: int, d: int)
    requires Ok(t) && Shares(t, run, u, g, priority) && d >= 1 && Within(t, g, d)
    ensures TopGroup(u, g, priority) && Within(u, g, d)
    decreases |run|
  {
    if run != [] {
      var s := run[0];
      StepKeepsOk(t, s);
      StepKeepsSpread(t, s, g, priority, d);
      SpreadStaysSmall(Do(t, s), run[1..], u, g, priority, d);
    }
  }

  /** A member's time slices count its dispatches, as long as it is not alone. */
  lemma {:induction false} SlicesCountTurns(t: Table, run: seq<Step>, u: Table, g: set<nat>, priority: int, p: nat, q: nat)
    requires Ok(t) && Shares(t, run, u, g, priority) && p in g && q in g && p != q
    ensures p < NPROC && TopGroup(u, g, priority) && u.procs[p].slices == t.procs[p].slices + Turns(run, p)
    decreases |run|
  {
    if run != [] {
      var s := run[0];
      StepKeepsOk(t, s);
      assert TopGroup(Do(t, s), g, priority);
      assert Do(t, s).procs[p].slices == t.procs[p].slices + if s == Dispatch(p) then 1 else 0;
      SlicesCountTurns(Do(t, s), run[1..], u, g, priority, p, q);
    }
  }

  /** Nobody in the group is dispatched more than 2 * d times as often, net, as anybody else in it. */
  lemma TurnsAreFair(t: Table, run: seq<Step>, u: Table, g: set<nat>, priority: int, d: int, p: nat, q: nat)
    requires Ok(t) && Shares(t, run, u, g, priority) && d >= 1 && Within(t, g, d) && p in g && q in g
    ensures Turns(run, p) - Turns(run, q) <= 2 * d
  {
    if p != q {
      SpreadStaysSmall(t, run, u, g, priority, d);
      SlicesCountTurns(t, run, u, g, priority, p, q);
      SlicesCountTurns(t, run, u, g, priority, q, p);
      assert t.procs[q].slices - t.procs[p].slices <= d && u.procs[p].slices - u.procs[q].slices <= d;
    }
  }

  // ----- The table in place

  class ProcTable {
    const procs: array<Task>
    var cpu: int

    ghost function View(): Table
      reads this, procs
    {
      Table(procs[..], cpu)
    }

    ghost predicate Valid()
      reads this, procs
    {
      procs.Length == NPROC && Ok(View())
    }

    /** An empty table. */
    constructor ()
      ensures Valid() && cpu == -1 && NoneReady(procs[..], NPROC) && fresh(procs)
    {
      procs, cpu := new Task[NPROC](i => Task(UNUSED, 0, 0)), -1;
    }

    /** The scheduler's scan: the best RUNNABLE process, -1 when there is none. */
    method Select(ticks: nat) returns (p: int)
      requires Valid()
      ensures p == -1 <==> NoneReady(procs[..], NPROC)
      ensures p != -1 ==> 0 <= p && Best(procs[..], NPROC, p)
    {
      var highPriority, minSlices := 101, ticks + 100;
      p := -1;
      for i := 0 to NPROC
        invariant p == -1 <==> NoneReady(procs[..], i)
        invariant p == -1 ==> highPriority == 101
        invariant p != -1 ==>
                    && 0 <= p && Best(procs[..], i, p)
                    && highPriority == procs[p].priority && minSlices == procs[p].slices
      {
        if procs[i].state == RUNNABLE {
          if procs[i].priority < highPriority {
            highPriority, minSlices, p := procs[i].priority, procs[i].slices, i;
          } else if procs[i].priority == highPriority && procs[i].slices < minSlices {
            minSlices, p := procs[i].slices, i;
          }
        }
      }
    }

    /** One turn of the scheduler on an idle CPU. */
    method Schedule(ticks: nat) returns (p: int)
      requires Valid() && cpu == -1
      modifies this, procs
      ensures Valid()
      ensures p == -1 ==> NoneReady(procs[..], NPROC) && View() == old(View())
      ensures p != -1 ==> 0 <= p && Enabled(old(View()), Dispatch(p)) && View() == Do(old(View()), Dispatch(p))
    {
      p := Select(ticks);
      if p != -1 {
        ghost var t := View();
        StepKeepsOk(t, Dispatch(p));
        procs[p] := procs[p].(state := RUNNING, slices := procs[p].slices + 1);
        cpu := p;
        assert procs[..] == t.procs[p := procs[p]];
      }
    }

    /** set_priority under the lock: the old priority, or -1 and no change if the new one is out of range.
        Changing the priority starts the time slices over. */
    method SetPriority(n: int) returns (r: int)
      requires Valid() && cpu >= 0
      modifies procs
      ensures Valid() && View() == Do(old(View()), Step.SetPriority(n))
      ensures r == if 0 <= n <= 100 then old(procs[cpu].priority) else -1
      ensures procs[cpu].priority == if 0 <= n <= 100 then n else old(procs[cpu].priority)
      ensures procs[cpu].slices == if procs[cpu].priority == old(procs[cpu].priority) then old(procs[cpu].slices) else 0
      ensures procs[cpu].state == RUNNING && forall q | 0 <= q < NPROC && q != cpu :: procs[q] == old(procs[q])
    {
      if n < 0 || n > 100 {
        return -1;
      }
      ghost var t := View();
      StepKeepsOk(t, Step.SetPriority(n));
      r := procs[cpu].priority;
      if n != r {
        procs[cpu] := procs[cpu].(priority := n, slices := 0);
        assert procs[..] == t.procs[cpu := procs[cpu]];
      }
    }
  }
}
