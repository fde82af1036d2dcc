/** The multi-level feedback queue scheduler: the MLFQ branches of proc.c, queue.c and trap.c as
    a state machine. A step is one critical section under ptable.lock, or one timer tick. */
module Mlfq {
  import opened Procs

  const NUM_QUEUES := 5
  const AGE_LIMIT := 30

  /** The fields of `struct proc` the scheduler reads or writes. `parent` is a table slot or -1.
      `timers` is history only: timer interrupts taken since the last dispatch. */
  datatype Proc = Proc(state: ProcState, pid: int, parent: int, chan: int, killed: bool,
                       queue: int, age: int, slices: int, punish: bool, timers: nat)

  /** The process table, the five ready queues as lists of slots, and the clock. */
  datatype Sched = Sched(procs: seq<Proc>, queues: seq<seq<nat>>, ticks: nat, init: nat, nextpid: int)

  /** TIMESLICE(i) */
  function TimeSlice(i: int): (r: int)
    requires 0 <= i < NUM_QUEUES
  {
    [1, 2, 4, 8, 16][i]
  }

  /** The address of a table slot used as a sleep channel; 0 is the null pointer. */
  function Addr(slot: int): int { slot + 1 }

  /** Table and queues have their fixed sizes, and queues hold table slots. */
  predicate Lists(s: Sched) {
    && |s.procs| == NPROC && |s.queues| == NUM_QUEUES && s.init < NPROC
    && (forall i | 0 <= i < NUM_QUEUES :: InTable(s.queues[i]))
  }

  predicate Shape(s: Sched) {
    Lists(s) && forall p | 0 <= p < NPROC :: 0 <= s.procs[p].queue < NUM_QUEUES
  }

  predicate InTable(q: seq<nat>) { forall k | 0 <= k < |q| :: q[k] < NPROC }

  // ----- Steps

  /** queues[i] = push(queues[i], p) for the level the process record names. */
  function Enqueue(s: Sched, p: nat, pr: Proc): (r: Sched)
    requires Shape(s) && p < NPROC && 0 <= pr.queue < NUM_QUEUES
    ensures Shape(r)
  {
    s.(procs := s.procs[p := pr], queues := s.queues[pr.queue := s.queues[pr.queue] + [p]])
  }

  function SetProc(s: Sched, p: nat, pr: Proc): (r: Sched)
    requires Shape(s) && p < NPROC && 0 <= pr.queue < NUM_QUEUES
    ensures Shape(r)
  {
    s.(procs := s.procs[p := pr])
  }

  /** A sleeper becomes ready (the bodies in wakeup1 and kill). */
  function Ready(s: Sched, p: nat): (r: Sched)
    requires Shape(s) && p < NPROC
    ensures Shape(r)
  {
    Enqueue(s, p, s.procs[p].(state := RUNNABLE, slices := 0, age := s.ticks))
  }

  /** wakeup1's scan from slot j on. */
  function WakeFrom(s: Sched, chan: int, j: nat): (r: Sched)
    requires Shape(s) && j <= NPROC
    ensures Shape(r)
    decreases NPROC - j
  {
    if j == NPROC then s
    else if s.procs[j].state == SLEEPING && s.procs[j].chan == chan then WakeFrom(Ready(s, j), chan, j + 1)
    else WakeFrom(s, chan, j + 1)
  }

  function KillFrom(s: Sched, pid: int, j: nat): (r: Sched)
    requires Shape(s) && j <= NPROC
    ensures Shape(r)
    decreases NPROC - j
  {
    if j == NPROC then s
    else if s.procs[j].pid == pid then
      var t := SetProc(s, j, s.procs[j].(killed := true));
      if t.procs[j].state == SLEEPING then Ready(t, j) else t
    else KillFrom(s, pid, j + 1)
  }

  lemma {:induction false} KillSkips(s: Sched, pid: int, j: nat)
    requires Shape(s) && j <= NPROC && forall k | 0 <= k < j :: s.procs[k].pid != pid
    ensures KillFrom(s, pid, 0) == KillFrom(s, pid, j)
  {
    if j > 0 {
      KillSkips(s, pid, j - 1);
    }
  }

  /** exit's pass over the table, one slot: hand a child to init, and wake init for a zombie. */
  function ReparentOne(s: Sched, p: nat, j: nat): (r: Sched)
    requires Shape(s) && j < NPROC
    ensures Shape(r)
  {
    if s.procs[j].parent != p then s
    else
      var t := SetProc(s, j, s.procs[j].(parent := s.init));
      if t.procs[j].state == ZOMBIE then WakeFrom(t, Addr(s.init), 0) else t
  }

  function Reparent(s: Sched, p: nat, j: nat): (r: Sched)
    requires Shape(s) && j <= NPROC
    ensures Shape(r)
    decreases NPROC - j
  {
    if j == NPROC then s else Reparent(ReparentOne(s, p, j), p, j + 1)
  }

  function ExitProc(s: Sched, p: nat): (r: Sched)
    requires Shape(s) && p < NPROC
    ensures Shape(r)
  {
    var t := Reparent(WakeFrom(s, Addr(s.procs[p].parent), 0), p, 0);
    SetProc(t, p, t.procs[p].(state := ZOMBIE))
  }

  /** How many processes split's early-exit loop walks past. */
  function OldPrefix(procs: seq<Proc>, ticks: nat, q: seq<nat>): (k: nat)
    requires InTable(q) && |procs| == NPROC
    ensures k <= |q|
  {
    if q != [] && ticks - procs[q[0]].age > AGE_LIMIT then 1 + OldPrefix(procs, ticks, q[1..]) else 0
  }

  /** One level up, stamped now. */
  function Lift(pr: Proc, ticks: nat): Proc { pr.(queue := pr.queue - 1, age := ticks) }

  function Promote(procs: seq<Proc>, ticks: nat, moved: seq<nat>): (r: seq<Proc>)
    requires |procs| == NPROC && InTable(moved)
    ensures |r| == NPROC
  {
    if moved == [] then procs
    else
      var p := moved[|moved| - 1];
      var r := Promote(procs, ticks, moved[..|moved| - 1]);
      r[p := Lift(r[p], ticks)]
  }

  /** split(&queues[i], &queues[i - 1], AGE_LIMIT) */
  function AgeLevel(s: Sched, i: nat): (r: Sched)
    requires Lists(s) && 1 <= i < NUM_QUEUES
    ensures Lists(r) && r.ticks == s.ticks
  {
    var k := OldPrefix(s.procs, s.ticks, s.queues[i]);
    s.(procs := Promote(s.procs, s.ticks, s.queues[i][..k]), queues := MoveUp(s.queues, i, k))
  }

  /** The first k of queue i go to the end of queue i - 1. */
  function MoveUp(queues: seq<seq<nat>>, i: nat, k: nat): (r: seq<seq<nat>>)
    requires 1 <= i < |queues| && k <= |queues[i]|
    ensures |r| == |queues|
    ensures r[i] == queues[i][k..] && r[i - 1] == queues[i - 1] + queues[i][..k]
    ensures forall j | 0 <= j < |r| && j != i && j != i - 1 :: r[j] == queues[j]
  {
    queues[i - 1 := queues[i - 1] + queues[i][..k]][i := queues[i][k..]]
  }

  /** The first nonempty queue, or NUM_QUEUES. */
  function Level(queues: seq<seq<nat>>, i: nat): (r: nat)
    requires |queues| == NUM_QUEUES && i <= NUM_QUEUES
    ensures i <= r <= NUM_QUEUES
    ensures r < NUM_QUEUES ==> queues[r] != []
    ensures forall j | i <= j < r :: queues[j] == []
    decreases NUM_QUEUES - i
  {
    if i == NUM_QUEUES || queues[i] != [] then i else Level(queues, i + 1)
  }

  lemma MoveUpNothing(queues: seq<seq<nat>>, i: nat)
    requires 1 <= i < |queues|
    ensures MoveUp(queues, i, 0) == queues
  {
    assert queues[i - 1] + queues[i][..0] == queues[i - 1];
  }

  // ----- The invariant

  /** What the record of one process promises. */
  predicate ProcOk(pr: Proc, ticks: nat) {
    && 0 <= pr.queue < NUM_QUEUES
    && pr.age <= ticks
    && (pr.state == RUNNABLE ==> pr.slices == 0)
    && (pr.state == RUNNING ==> 1 <= pr.slices <= TimeSlice(pr.queue))
    && (pr.state == RUNNING && !pr.punish ==> pr.timers == pr.slices - 1)
    && (pr.punish ==> pr.state == RUNNING && pr.slices == pr.timers == TimeSlice(pr.queue))
    && (pr.state == EMBRYO ==> pr.queue == 0 && pr.slices == 0)
  }

  /** Queue i holds, once each, RUNNABLE processes whose record says i. */
  predicate QueueOk(procs: seq<Proc>, i: int, q: seq<nat>)
    requires |procs| == NPROC
  {
    && InTable(q)
    && (forall k | 0 <= k < |q| :: procs[q[k]].state == RUNNABLE && procs[q[k]].queue == i)
    && Distinct(q)
  }

  predicate Distinct(q: seq<nat>) {
    q == [] || (q[|q| - 1] !in q[..|q| - 1] && Distinct(q[..|q| - 1]))
  }

  /** Different numbers below n are at most n. */
  lemma {:induction false} Pigeonhole(s: seq<nat>, n: nat)
    requires forall k | 0 <= k < |s| :: s[k] < n
    requires forall j, k | 0 <= j < k < |s| :: s[j] != s[k]
    ensures |s| <= n
  {
    if s != [] {
      assert s[0] < n;
      if n - 1 in s {
        var k :| 0 <= k < |s| && s[k] == n - 1;
        var t := s[..k] + s[k + 1..];
        assert forall j | 0 <= j < |t| :: t[j] == s[if j < k then j else j + 1];
        Pigeonhole(t, n - 1);
      } else {
        Pigeonhole(s, n - 1);
      }
    }
  }

  lemma {:induction false} DistinctPairs(q: seq<nat>)
    ensures Distinct(q) <==> forall j, k | 0 <= j < k < |q| :: q[j] != q[k]
  {
    if q != [] {
      DistinctPairs(q[..|q| - 1]);
      assert q == q[..|q| - 1] + [q[|q| - 1]];
    }
  }

  predicate Sorted(procs: seq<Proc>, q: seq<nat>)
    requires InTable(q) && |procs| == NPROC
  {
    forall j, k | 0 <= j < k < |q| :: procs[q[j]].age <= procs[q[k]].age
  }

  predicate Inv(s: Sched) {
    && Shape(s)
    && (forall p | 0 <= p < NPROC :: ProcOk(s.procs[p], s.ticks))
    && (forall i | 0 <= i < NUM_QUEUES :: QueueOk(s.procs, i, s.queues[i]))
    && (forall p: nat | p < NPROC && s.procs[p].state == RUNNABLE :: p in s.queues[s.procs[p].queue])
    && (forall i | 1 <= i < NUM_QUEUES :: Sorted(s.procs, s.queues[i]))
  }

  lemma SetProcKeepsInv(s: Sched, p: nat, pr: Proc)
    requires Inv(s) && p < NPROC && ProcOk(pr, s.ticks)
    requires s.procs[p].state != RUNNABLE && pr.state != RUNNABLE
    ensures Inv(SetProc(s, p, pr))
  {
    var t := SetProc(s, p, pr);
    forall i | 0 <= i < NUM_QUEUES
      ensures QueueOk(t.procs, i, t.queues[i]) && (i > 0 ==> Sorted(t.procs, t.queues[i]))
    {
      assert QueueOk(s.procs, i, s.queues[i]);
      assert i > 0 ==> Sorted(s.procs, s.queues[i]);
    }
  }

  lemma EnqueueQueueOk(s: Sched, p: nat, pr: Proc, j: nat)
    requires Shape(s) && p < NPROC && ProcOk(pr, s.ticks) && j < NUM_QUEUES
    requires s.procs[p].state != RUNNABLE && pr.state == RUNNABLE
    requires QueueOk(s.procs, j, s.queues[j])
    ensures var t := Enqueue(s, p, pr); QueueOk(t.procs, j, t.queues[j])
    ensures var t := Enqueue(s, p, pr);
            && Sorted(s.procs, s.queues[j])
            && (forall k | 0 <= k < |s.queues[j]| :: s.procs[s.queues[j][k]].age <= pr.age)
            ==> Sorted(t.procs, t.queues[j])
    ensures var t := Enqueue(s, p, pr); Sorted(s.procs, s.queues[j]) && j != pr.queue ==> Sorted(t.procs, t.queues[j])
  {
    assert (s.queues[j] + [p])[..|s.queues[j]|] == s.queues[j];
  }

  lemma EnqueueKeepsInv(s: Sched, p: nat, pr: Proc)
    requires Inv(s) && p < NPROC && ProcOk(pr, s.ticks)
    requires s.procs[p].state != RUNNABLE && pr.state == RUNNABLE
    requires pr.queue == 0 || pr.age == s.ticks
    ensures Inv(Enqueue(s, p, pr))
  {
    var t := Enqueue(s, p, pr);
    forall i: nat | i < NUM_QUEUES
      ensures QueueOk(t.procs, i, t.queues[i]) && (i > 0 ==> Sorted(t.procs, t.queues[i]))
    {
      EnqueueQueueOk(s, p, pr, i);
    }
    forall x: nat | x < NPROC && t.procs[x].state == RUNNABLE
      ensures x in t.queues[t.procs[x].queue]
    {
      if x == p {
        assert t.queues[pr.queue][|s.queues[pr.queue]|] == p;
      } else {
        assert x in s.queues[s.procs[x].queue];
      }
    }
  }

  /** Fields the queues do not depend on may change at any time. */
  lemma RelabelKeepsInv(s: Sched, p: nat, pr: Proc)
    requires Inv(s) && p < NPROC
    requires var o := s.procs[p]; pr == o.(pid := pr.pid, parent := pr.parent, chan := pr.chan, killed := pr.killed)
    ensures Inv(SetProc(s, p, pr))
  {
    var t := SetProc(s, p, pr);
    forall i | 0 <= i < NUM_QUEUES
      ensures QueueOk(t.procs, i, t.queues[i]) && (i > 0 ==> Sorted(t.procs, t.queues[i]))
    {
      assert QueueOk(s.procs, i, s.queues[i]);
      assert i > 0 ==> Sorted(s.procs, s.queues[i]);
    }
  }

  lemma NextPidKeepsInv(s: Sched, n: int)
    requires Inv(s)
    ensures Inv(s.(nextpid := n))
  {}

  lemma TickKeepsInv(s: Sched)
    requires Inv(s)
    ensures Inv(s.(ticks := s.ticks + 1))
  {}

  lemma ReadyKeepsInv(s: Sched, p: nat)
    requires Inv(s) && p < NPROC && s.procs[p].state == SLEEPING
    ensures Inv(Ready(s, p))
  {
    EnqueueKeepsInv(s, p, s.procs[p].(state := RUNNABLE, slices := 0, age := s.ticks));
  }

  lemma {:induction false} WakeKeepsInv(s: Sched, chan: int, j: nat)
    requires Inv(s) && j <= NPROC
    ensures Inv(WakeFrom(s, chan, j))
    decreases NPROC - j
  {
    if j < NPROC {
      if s.procs[j].state == SLEEPING && s.procs[j].chan == chan {
        ReadyKeepsInv(s, j);
        WakeKeepsInv(Ready(s, j), chan, j + 1);
      } else {
        WakeKeepsInv(s, chan, j + 1);
      }
    }
  }

  lemma {:induction false} KillKeepsInv(s: Sched, pid: int, j: nat)
    requires Inv(s) && j <= NPROC
    ensures Inv(KillFrom(s, pid, j))
    decreases NPROC - j
  {
    if j < NPROC {
      if s.procs[j].pid == pid {
        var t := SetProc(s, j, s.procs[j].(killed := true));
        RelabelKeepsInv(s, j, s.procs[j].(killed := true));
        if t.procs[j].state == SLEEPING {
          ReadyKeepsInv(t, j);
        }
      } else {
        KillKeepsInv(s, pid, j + 1);
      }
    }
  }

  /** The slot of a process that is not asleep is left alone by wakeups. */
  lemma {:induction false} WakeLeaves(s: Sched, chan: int, j: nat, p: nat)
    requires Inv(s) && j <= NPROC && p < NPROC && s.procs[p].state != SLEEPING
    ensures WakeFrom(s, chan, j).procs[p] == s.procs[p]
    ensures WakeFrom(s, chan, j).ticks == s.ticks && WakeFrom(s, chan, j).init == s.init
    decreases NPROC - j
  {
    if j < NPROC {
      if s.procs[j].state == SLEEPING && s.procs[j].chan == chan {
        ReadyKeepsInv(s, j);
        WakeLeaves(Ready(s, j), chan, j + 1, p);
      } else {
        WakeLeaves(s, chan, j + 1, p);
      }
    }
  }

  lemma ReparentOneKeepsInv(s: Sched, p: nat, j: nat)
    requires Inv(s) && j < NPROC && p < NPROC && s.procs[p].state == RUNNING
    ensures var t := ReparentOne(s, p, j);
            Inv(t) && t.procs[p] == s.procs[p].(parent := t.procs[p].parent) && t.ticks == s.ticks
  {
    if s.procs[j].parent == p {
      var t := SetProc(s, j, s.procs[j].(parent := s.init));
      RelabelKeepsInv(s, j, s.procs[j].(parent := s.init));
      if t.procs[j].state == ZOMBIE {
        WakeKeepsInv(t, Addr(s.init), 0);
        WakeLeaves(t, Addr(s.init), 0, p);
      }
    }
  }

  lemma {:induction false} ReparentKeepsInv(s: Sched, p: nat, j: nat)
    requires Inv(s) && j <= NPROC && p < NPROC && s.procs[p].state == RUNNING
    ensures var t := Reparent(s, p, j);
            Inv(t) && t.procs[p] == s.procs[p].(parent := t.procs[p].parent) && t.ticks == s.ticks
    decreases NPROC - j
  {
    if j < NPROC {
      ReparentOneKeepsInv(s, p, j);
      ReparentKeepsInv(ReparentOne(s, p, j), p, j + 1);
    }
  }

  lemma ExitKeepsInv(s: Sched, p: nat)
    requires Inv(s) && p < NPROC && s.procs[p].state == RUNNING && !s.procs[p].punish
    ensures Inv(ExitProc(s, p))
  {
    var chan := Addr(s.procs[p].parent);
    WakeKeepsInv(s, chan, 0);
    WakeLeaves(s, chan, 0, p);
    var t := WakeFrom(s, chan, 0);
    ReparentKeepsInv(t, p, 0);
    var u := Reparent(t, p, 0);
    SetProcKeepsInv(u, p, u.procs[p].(state := ZOMBIE));
  }

  // ----- Aging

  /** split's early exit misses nobody: on a sorted queue the walked prefix is exactly
      the set of processes that have waited longer than AGE_LIMIT. */
  lemma {:induction false} SplitIsExact(procs: seq<Proc>, ticks: nat, q: seq<nat>)
    requires |procs| == NPROC && InTable(q) && Sorted(procs, q)
    ensures forall k | 0 <= k < |q| :: k < OldPrefix(procs, ticks, q) <==> ticks - procs[q[k]].age > AGE_LIMIT
  {
    if q != [] {
      SplitIsExact(procs, ticks, q[1..]);
      assert forall k | 1 <= k < |q| :: q[k] == q[1..][k - 1];
    }
  }

  lemma {:induction false} PromoteAt(procs: seq<Proc>, ticks: nat, q: seq<nat>, k: nat, p: nat)
    requires |procs| == NPROC && InTable(q) && Distinct(q) && k <= |q| && p < NPROC
    ensures Promote(procs, ticks, q[..k])[p] == if p in q[..k] then Lift(procs[p], ticks) else procs[p]
  {
    if k > 0 {
      PromoteAt(procs, ticks, q, k - 1, p);
      DistinctPairs(q);
      assert q[..k][..k - 1] == q[..k - 1];
      assert q[..k] == q[..k - 1] + [q[k - 1]];
    }
  }

  /** One turn of split's first loop. */
  lemma PromoteNext(procs: seq<Proc>, ticks: nat, q: seq<nat>, k: nat)
    requires |procs| == NPROC && InTable(q) && Distinct(q) && k < |q|
    ensures var now := Promote(procs, ticks, q[..k]);
            now[q[k]] == procs[q[k]] && now[q[k] := Lift(procs[q[k]], ticks)] == Promote(procs, ticks, q[..k + 1])
  {
    DistinctPairs(q);
    PromoteAt(procs, ticks, q, k, q[k]);
    assert q[..k + 1][..k] == q[..k];
  }

  /** Where the loop stops is where OldPrefix says. */
  lemma {:induction false} OldPrefixIs(procs: seq<Proc>, ticks: nat, q: seq<nat>, k: nat)
    requires |procs| == NPROC && InTable(q) && k <= |q|
    requires forall j | 0 <= j < k :: ticks - procs[q[j]].age > AGE_LIMIT
    requires k == |q| || ticks - procs[q[k]].age <= AGE_LIMIT
    ensures OldPrefix(procs, ticks, q) == k
  {
    if k > 0 {
      OldPrefixIs(procs, ticks, q[1..], k - 1);
    }
  }

  /** A level the moved processes are not on keeps its place. */
  lemma PromoteElsewhere(procs: seq<Proc>, ticks: nat, i: int, from: seq<nat>, k: nat, j: int, q: seq<nat>)
    requires |procs| == NPROC && QueueOk(procs, i, from) && k <= |from|
    requires QueueOk(procs, j, q) && (j != i || q == from[k..])
    ensures var procs' := Promote(procs, ticks, from[..k]);
            && QueueOk(procs', j, q)
            && (forall n | 0 <= n < |q| :: procs'[q[n]] == procs[q[n]])
            && (Sorted(procs, q) ==> Sorted(procs', q))
  {
    var procs' := Promote(procs, ticks, from[..k]);
    DistinctPairs(from);
    forall n | 0 <= n < |q|
      ensures procs'[q[n]] == procs[q[n]]
    {
      assert q[n] !in from[..k];
      PromoteAt(procs, ticks, from, k, q[n]);
    }
  }

  /** The level below receives them at its end, in order and with fresh stamps. */
  lemma PromoteInto(procs: seq<Proc>, ticks: nat, i: int, from: seq<nat>, k: nat, q: seq<nat>)
    requires |procs| == NPROC && QueueOk(procs, i, from) && k <= |from| && QueueOk(procs, i - 1, q)
    requires forall n | 0 <= n < |q| :: procs[q[n]].age <= ticks
    ensures var procs' := Promote(procs, ticks, from[..k]);
            && QueueOk(procs', i - 1, q + from[..k])
            && (Sorted(procs, q) ==> Sorted(procs', q + from[..k]))
  {
    var procs' := Promote(procs, ticks, from[..k]);
    var r := q + from[..k];
    DistinctPairs(q);
    DistinctPairs(from);
    PromoteElsewhere(procs, ticks, i, from, k, i - 1, q);
    forall n | 0 <= n < |r|
      ensures procs'[r[n]] == if n < |q| then procs[r[n]] else Lift(procs[r[n]], ticks)
    {
      if n >= |q| {
        assert r[n] == from[..k][n - |q|];
        PromoteAt(procs, ticks, from, k, r[n]);
      }
    }
    forall m, n | 0 <= m < n < |r|
      ensures r[m] != r[n]
    {
      if m < |q| <= n {
        assert procs[q[m]].queue == i - 1 && procs[from[n - |q|]].queue == i;
      }
    }
    DistinctPairs(r);
  }

  lemma RestOk(procs: seq<Proc>, i: int, q: seq<nat>, k: nat)
    requires |procs| == NPROC && QueueOk(procs, i, q) && Sorted(procs, q) && k <= |q|
    ensures QueueOk(procs, i, q[k..]) && Sorted(procs, q[k..])
  {
    DistinctPairs(q);
    DistinctPairs(q[k..]);
  }

  lemma AgedQueue(s: Sched, i: nat, j: nat)
    requires Shape(s) && 1 <= i < NUM_QUEUES && j < NUM_QUEUES
    requires QueueOk(s.procs, i, s.queues[i]) && QueueOk(s.procs, j, s.queues[j])
    requires Sorted(s.procs, s.queues[i]) && (j > 0 ==> Sorted(s.procs, s.queues[j]))
    requires forall n | 0 <= n < |s.queues[j]| :: s.procs[s.queues[j][n]].age <= s.ticks
    ensures var t := AgeLevel(s, i); QueueOk(t.procs, j, t.queues[j]) && (j > 0 ==> Sorted(t.procs, t.queues[j]))
  {
    var from := s.queues[i];
    var k := OldPrefix(s.procs, s.ticks, from);
    if j == i - 1 {
      PromoteInto(s.procs, s.ticks, i, from, k, s.queues[j]);
    } else if j == i {
      RestOk(s.procs, i, from, k);
      PromoteElsewhere(s.procs, s.ticks, i, from, k, j, from[k..]);
    } else {
      PromoteElsewhere(s.procs, s.ticks, i, from, k, j, s.queues[j]);
    }
  }

  lemma InPrefix(procs: seq<Proc>, ticks: nat, i: int, q: seq<nat>, p: nat)
    requires |procs| == NPROC && QueueOk(procs, i, q) && Sorted(procs, q) && p < NPROC
    ensures var k := OldPrefix(procs, ticks, q);
            && (p in q[..k] <==> p in q && ticks - procs[p].age > AGE_LIMIT)
            && (p in q ==> p in q[..k] || p in q[k..])
  {
    SplitIsExact(procs, ticks, q);
    DistinctPairs(q);
    var k := OldPrefix(procs, ticks, q);
    if p in q {
      var n :| 0 <= n < |q| && q[n] == p;
      assert if n < k then q[..k][n] == p else q[k..][n - k] == p;
    }
  }

  /** A process that has waited too long is lifted one level, with a fresh stamp. */
  lemma AgedProcLifted(s: Sched, i: nat, p: nat)
    requires Shape(s) && 1 <= i < NUM_QUEUES && p < NPROC
    requires QueueOk(s.procs, i, s.queues[i]) && Sorted(s.procs, s.queues[i])
    requires p in s.queues[i] && s.ticks - s.procs[p].age > AGE_LIMIT
    ensures AgeLevel(s, i).procs[p] == s.procs[p].(queue := i - 1, age := s.ticks)
    ensures p in AgeLevel(s, i).queues[i - 1]
  {
    var q := s.queues[i];
    InPrefix(s.procs, s.ticks, i, q, p);
    PromoteAt(s.procs, s.ticks, q, OldPrefix(s.procs, s.ticks, q), p);
    assert AgeLevel(s, i).queues[i - 1] == s.queues[i - 1] + q[..OldPrefix(s.procs, s.ticks, q)];
  }

  /** Everyone else is left exactly as they were. */
  lemma AgedProcStays(s: Sched, i: nat, p: nat)
    requires Shape(s) && 1 <= i < NUM_QUEUES && p < NPROC
    requires QueueOk(s.procs, i, s.queues[i]) && Sorted(s.procs, s.queues[i])
    requires p !in s.queues[i] || s.ticks - s.procs[p].age <= AGE_LIMIT
    requires s.procs[p].state == RUNNABLE ==> p in s.queues[s.procs[p].queue]
    ensures AgeLevel(s, i).procs[p] == s.procs[p]
    ensures s.procs[p].state == RUNNABLE ==> p in AgeLevel(s, i).queues[s.procs[p].queue]
  {
    InPrefix(s.procs, s.ticks, i, s.queues[i], p);
    PromoteAt(s.procs, s.ticks, s.queues[i], OldPrefix(s.procs, s.ticks, s.queues[i]), p);
    AgedQueues(s, i, s.procs[p].queue);
  }

  lemma AgedQueues(s: Sched, i: nat, j: nat)
    requires Shape(s) && 1 <= i < NUM_QUEUES && j < NUM_QUEUES
    ensures var k := OldPrefix(s.procs, s.ticks, s.queues[i]);
            AgeLevel(s, i).queues[j] == if j == i then s.queues[i][k..]
                                        else if j == i - 1 then s.queues[j] + s.queues[i][..k]
                                        else s.queues[j]
  {}

  lemma AgeLevelKeepsInv(s: Sched, i: nat)
    requires Inv(s) && 1 <= i < NUM_QUEUES
    ensures Inv(AgeLevel(s, i))
  {
    var t := AgeLevel(s, i);
    forall j: nat | j < NUM_QUEUES
      ensures QueueOk(t.procs, j, t.queues[j]) && (j > 0 ==> Sorted(t.procs, t.queues[j]))
    {
      assert QueueOk(s.procs, j, s.queues[j]) && QueueOk(s.procs, i, s.queues[i]);
      AgedQueue(s, i, j);
    }
    forall p: nat | p < NPROC
      ensures ProcOk(t.procs[p], t.ticks)
      ensures t.procs[p].state == RUNNABLE ==> p in t.queues[t.procs[p].queue]
    {
      if p in s.queues[i] && s.ticks - s.procs[p].age > AGE_LIMIT {
        AgedProcLifted(s, i, p);
      } else {
        AgedProcStays(s, i, p);
      }
    }
  }

  lemma AgeLevelKeepsTop(s: Sched, i: nat)
    requires Lists(s) && 1 <= i < NUM_QUEUES
    ensures s.queues[0] <= AgeLevel(s, i).queues[0]
  {
    if i == 1 {
      assert AgeLevel(s, i).queues[0] == s.queues[0] + s.queues[1][..OldPrefix(s.procs, s.ticks, s.queues[1])];
    } else {
      assert AgeLevel(s, i).queues[0] == s.queues[0];
    }
  }

  /** The scheduler's aging loop from level i up. */
  function AgeFrom(s: Sched, i: nat): (r: Sched)
    requires Lists(s) && 1 <= i <= NUM_QUEUES
    ensures Lists(r) && r.ticks == s.ticks
    decreases NUM_QUEUES - i
  {
    if i == NUM_QUEUES then s else AgeFrom(AgeLevel(s, i), i + 1)
  }

  lemma {:induction false} AgingKeepsInv(s: Sched, i: nat)
    requires Inv(s) && 1 <= i <= NUM_QUEUES
    ensures Inv(AgeFrom(s, i))
    decreases NUM_QUEUES - i
  {
    if i < NUM_QUEUES {
      AgeLevelKeepsInv(s, i);
      AgingKeepsInv(AgeLevel(s, i), i + 1);
    }
  }

  /** What sweeping levels i and up may do to one record: lift it one level with a fresh stamp if
      it has waited longer than AGE_LIMIT, and leave nobody swept waiting longer than that. */
  predicate Swept(o: Proc, r: Proc, i: nat, ticks: nat) {
    && (r == o || (o.queue >= i && o.state == RUNNABLE && ticks - o.age > AGE_LIMIT
                   && r == o.(queue := o.queue - 1, age := ticks)))
    && (r.state == RUNNABLE && r.queue >= i ==> ticks - r.age <= AGE_LIMIT)
  }

  predicate LevelSwept(o: Proc, r: Proc, i: nat, ticks: nat) {
    if o.state == RUNNABLE && o.queue == i && ticks - o.age > AGE_LIMIT
    then r == o.(queue := i - 1, age := ticks)
    else r == o
  }

  lemma LevelSweep(s: Sched, i: nat, p: nat)
    requires Inv(s) && 1 <= i < NUM_QUEUES && p < NPROC
    ensures LevelSwept(s.procs[p], AgeLevel(s, i).procs[p], i, s.ticks)
  {
    assert s.procs[p].state == RUNNABLE ==> p in s.queues[s.procs[p].queue];
    assert QueueOk(s.procs, i, s.queues[i]);
    if p in s.queues[i] && s.ticks - s.procs[p].age > AGE_LIMIT {
      AgedProcLifted(s, i, p);
    } else {
      AgedProcStays(s, i, p);
    }
  }

  lemma SweepsCompose(o: Proc, m: Proc, r: Proc, i: nat, ticks: nat)
    requires LevelSwept(o, m, i, ticks) && Swept(m, r, i + 1, ticks)
    ensures Swept(o, r, i, ticks)
  {}

  /** One aging pass lifts a process at most one level and leaves no one on a level
      it swept waiting longer than AGE_LIMIT. */
  lemma {:induction false} AgingPass(s: Sched, i: nat, t: Sched, p: nat)
    requires Inv(s) && 1 <= i <= NUM_QUEUES && p < NPROC && t == AgeFrom(s, i)
    ensures Swept(s.procs[p], t.procs[p], i, s.ticks)
    decreases NUM_QUEUES - i
  {
    if i < NUM_QUEUES {
      var u := SweepOneLevel(s, i, t, p);
      AgingPass(u, i + 1, t, p);
      SweepsCompose(s.procs[p], u.procs[p], t.procs[p], i, s.ticks);
    }
  }

  lemma SweepOneLevel(s: Sched, i: nat, t: Sched, p: nat) returns (u: Sched)
    requires Inv(s) && 1 <= i < NUM_QUEUES && p < NPROC && t == AgeFrom(s, i)
    ensures Inv(u) && u.ticks == s.ticks && t == AgeFrom(u, i + 1)
    ensures LevelSwept(s.procs[p], u.procs[p], i, s.ticks)
  {
    u := AgeLevel(s, i);
    AgeLevelKeepsInv(s, i);
    LevelSweep(s, i, p);
  }

  // ----- Dispatch

  /** Pop queue i and run the process found there, unless it is not RUNNABLE. */
  function PopAndRun(s: Sched, i: nat): (r: Sched)
    requires Lists(s) && i < NUM_QUEUES && s.queues[i] != []
    ensures Lists(r)
  {
    var p := s.queues[i][0];
    var t := s.(queues := s.queues[i := s.queues[i][1..]]);
    if s.procs[p].state != RUNNABLE then t
    else t.(procs := s.procs[p := s.procs[p].(state := RUNNING, slices := s.procs[p].slices + 1, timers := 0)])
  }

  /** The scheduler after aging: take from the first nonempty queue. */
  function Select(s: Sched): (r: Sched)
    requires Lists(s)
    ensures Lists(r)
  {
    var i := Level(s.queues, 0);
    if i == NUM_QUEUES then s else PopAndRun(s, i)
  }

  lemma PoppedQueue(procs: seq<Proc>, i: nat, q: seq<nat>, pr: Proc)
    requires |procs| == NPROC && QueueOk(procs, i, q) && q != []
    ensures QueueOk(procs[q[0] := pr], i, q[1..])
    ensures Sorted(procs, q) ==> Sorted(procs[q[0] := pr], q[1..])
  {
    var r := q[1..];
    DistinctPairs(q);
    DistinctPairs(r);
    assert forall k | 0 <= k < |r| :: r[k] == q[k + 1] && r[k] != q[0];
  }

  lemma OtherQueue(procs: seq<Proc>, j: nat, q: seq<nat>, p: nat, pr: Proc)
    requires |procs| == NPROC && QueueOk(procs, j, q) && p < NPROC && procs[p].queue != j
    ensures QueueOk(procs[p := pr], j, q) && (Sorted(procs, q) ==> Sorted(procs[p := pr], q))
  {
    assert forall k | 0 <= k < |q| :: q[k] != p;
  }

  lemma PopKeepsPlaces(s: Sched, i: nat, x: nat)
    requires Shape(s) && i < NUM_QUEUES && s.queues[i] != [] && x < NPROC
    requires QueueOk(s.procs, i, s.queues[i])
    requires s.procs[x].state == RUNNABLE ==> x in s.queues[s.procs[x].queue]
    requires ProcOk(s.procs[x], s.ticks)
    ensures var t := PopAndRun(s, i);
            ProcOk(t.procs[x], t.ticks) && (t.procs[x].state == RUNNABLE ==> x in t.queues[t.procs[x].queue])
  {
    assert s.queues[i] == [s.queues[i][0]] + s.queues[i][1..];
  }

  lemma PopQueuesOk(s: Sched, i: nat, j: nat)
    requires Shape(s) && i < NUM_QUEUES && j < NUM_QUEUES && s.queues[i] != []
    requires QueueOk(s.procs, i, s.queues[i]) && QueueOk(s.procs, j, s.queues[j])
    requires j > 0 ==> Sorted(s.procs, s.queues[j])
    ensures var t := PopAndRun(s, i); QueueOk(t.procs, j, t.queues[j]) && (j > 0 ==> Sorted(t.procs, t.queues[j]))
  {
    var p := s.queues[i][0];
    if i == j {
      PoppedQueue(s.procs, i, s.queues[i], PopAndRun(s, i).procs[p]);
    } else {
      OtherQueue(s.procs, j, s.queues[j], p, PopAndRun(s, i).procs[p]);
    }
  }

  lemma PopKeepsInv(s: Sched, i: nat)
    requires Inv(s) && i < NUM_QUEUES && s.queues[i] != []
    ensures Inv(PopAndRun(s, i))
  {
    var t := PopAndRun(s, i);
    forall j: nat | j < NUM_QUEUES
      ensures QueueOk(t.procs, j, t.queues[j]) && (j > 0 ==> Sorted(t.procs, t.queues[j]))
    {
      PopQueuesOk(s, i, j);
    }
    forall x: nat | x < NPROC
      ensures ProcOk(t.procs[x], t.ticks)
      ensures t.procs[x].state == RUNNABLE ==> x in t.queues[t.procs[x].queue]
    {
      PopKeepsPlaces(s, i, x);
    }
  }

  lemma SelectKeepsInv(s: Sched)
    requires Inv(s)
    ensures Inv(Select(s))
  {
    var i := Level(s.queues, 0);
    if i < NUM_QUEUES {
      PopKeepsInv(s, i);
    }
  }

  /** Whoever is picked was RUNNABLE (the discard in the scheduler never fires) and nobody
      RUNNABLE was on a better level; it is the first of its queue and leaves it, and nothing else
      changes. With anyone RUNNABLE, someone is picked. */
  lemma SelectPicksLowest(s: Sched)
    requires Inv(s)
    ensures var i := Level(s.queues, 0);
            if i == NUM_QUEUES then forall x | 0 <= x < NPROC :: s.procs[x].state != RUNNABLE
            else
              var p := s.queues[i][0];
              && s.procs[p].state == RUNNABLE
              && Select(s).procs == s.procs[p := s.procs[p].(state := RUNNING, slices := 1, timers := 0)]
              && Select(s).queues == s.queues[i := s.queues[i][1..]]
              && forall x | 0 <= x < NPROC && s.procs[x].state == RUNNABLE :: s.procs[p].queue <= s.procs[x].queue
  {
    var i := Level(s.queues, 0);
    if i < NUM_QUEUES {
      assert QueueOk(s.procs, i, s.queues[i]);
    }
    forall x: nat | x < NPROC && s.procs[x].state == RUNNABLE
      ensures i <= s.procs[x].queue
    {
      assert x in s.queues[s.procs[x].queue];
    }
  }

  // ----- The state machine

  /** After pinit: empty table, empty queues, clock at zero. */
  function Boot(): Sched {
    Sched(seq(NPROC, i => Proc(UNUSED, 0, -1, 0, false, 0, 0, 0, false, 0)), [[], [], [], [], []], 0, 0, 1)
  }

  lemma BootInv()
    ensures Inv(Boot())
  {}

  datatype Step =
    | Alloc
    | ForkReady(p: nat, parent: int)   // fork; userinit, with parent -1
    | ForkFail(p: nat)
    | Dispatch
    | TimerTrap(p: nat)
    | Yield(p: nat)
    | Sleep(p: nat, chan: int)
    | Wakeup(chan: int)
    | Kill(pid: int)
    | Exit(p: nat)
    | Reap(p: nat)
    | Tick

  /** Which process may take which step. trap() calls yield() right after punisher(), so a
      punished process does nothing else first. */
  predicate Enabled(s: Sched, step: Step)
    requires Shape(s)
  {
    match step
    case ForkReady(p, parent) => p < NPROC && -1 <= parent < NPROC && s.procs[p].state == EMBRYO
    case ForkFail(p) => p < NPROC && s.procs[p].state == EMBRYO
    case TimerTrap(p) => p < NPROC && s.procs[p].state == RUNNING && !s.procs[p].punish
    case Yield(p) => p < NPROC && s.procs[p].state == RUNNING
    case Sleep(p, _) => p < NPROC && s.procs[p].state == RUNNING && !s.procs[p].punish
    case Exit(p) => p < NPROC && p != s.init && s.procs[p].state == RUNNING && !s.procs[p].punish
    case Reap(p) => p < NPROC && s.procs[p].state == ZOMBIE
    case _ => true
  }

  function FindUnused(procs: seq<Proc>, j: nat): (r: nat)
    requires j <= |procs|
    ensures j <= r <= |procs|
    ensures r < |procs| ==> procs[r].state == UNUSED
    ensures forall k | j <= k < r :: procs[k].state != UNUSED
    decreases |procs| - j
  {
    if j == |procs| || procs[j].state == UNUSED then j else FindUnused(procs, j + 1)
  }

  /** The critical section of allocproc. */
  function AllocSlot(s: Sched): (r: Sched)
    requires Shape(s)
    ensures Shape(r)
  {
    var p := FindUnused(s.procs, 0);
    if p == NPROC then s
    else
      SetProc(s.(nextpid := s.nextpid + 1), p,
              s.procs[p].(state := EMBRYO, pid := s.nextpid, age := s.ticks, slices := 0, punish := false, queue := 0))
  }

  /** What trap() does to the running process on a timer interrupt, short of the yield. */
  function AfterTimer(pr: Proc): Proc
    requires 0 <= pr.queue < NUM_QUEUES
  {
    if pr.slices >= TimeSlice(pr.queue) then pr.(punish := true, timers := pr.timers + 1)
    else pr.(slices := pr.slices + 1, timers := pr.timers + 1)
  }

  /** The record that goes back on a queue when a process yields ("Back from p"). */
  function AfterYield(pr: Proc, ticks: nat): Proc {
    if !pr.punish then pr.(state := RUNNABLE, slices := 0, age := ticks)
    else
      pr.(state := RUNNABLE, slices := 0, punish := false, age := ticks,
          queue := if pr.queue != NUM_QUEUES - 1 then pr.queue + 1 else pr.queue)
  }

  function Do(s: Sched, step: Step): (t: Sched)
    requires Shape(s) && Enabled(s, step)
    ensures Lists(t)
  {
    match step
    case Alloc => AllocSlot(s)
    case ForkReady(p, parent) => Enqueue(s, p, s.procs[p].(state := RUNNABLE, parent := parent))
    case ForkFail(p) => SetProc(s, p, s.procs[p].(state := UNUSED))
    case Dispatch => Select(AgeFrom(s, 1))
    case TimerTrap(p) => SetProc(s, p, AfterTimer(s.procs[p]))
    case Yield(p) => Enqueue(s, p, AfterYield(s.procs[p], s.ticks))
    case Sleep(p, chan) => SetProc(s, p, s.procs[p].(state := SLEEPING, chan := chan))
    case Wakeup(chan) => WakeFrom(s, chan, 0)
    case Kill(pid) => KillFrom(s, pid, 0)
    case Exit(p) => ExitProc(s, p)
    case Reap(p) => SetProc(s, p, s.procs[p].(state := UNUSED, pid := 0, parent := -1, killed := false))
    case Tick => s.(ticks := s.ticks + 1)
  }

  lemma StepKeepsInv(s: Sched, step: Step)
    requires Inv(s) && Enabled(s, step)
    ensures Inv(Do(s, step))
  {
    match step
    case Alloc =>
      var p := FindUnused(s.procs, 0);
      if p < NPROC {
        SetProcKeepsInv(s, p, Do(s, step).procs[p]);
      }
    case ForkReady(p, parent) => EnqueueKeepsInv(s, p, s.procs[p].(state := RUNNABLE, parent := parent));
    case ForkFail(p) => SetProcKeepsInv(s, p, s.procs[p].(state := UNUSED));
    case Dispatch =>
      AgingKeepsInv(s, 1);
      SelectKeepsInv(AgeFrom(s, 1));
    case TimerTrap(p) => SetProcKeepsInv(s, p, AfterTimer(s.procs[p]));
    case Yield(p) => EnqueueKeepsInv(s, p, AfterYield(s.procs[p], s.ticks));
    case Sleep(p, chan) => SetProcKeepsInv(s, p, s.procs[p].(state := SLEEPING, chan := chan));
    case Wakeup(chan) => WakeKeepsInv(s, chan, 0);
    case Kill(pid) => KillKeepsInv(s, pid, 0);
    case Exit(p) => ExitKeepsInv(s, p);
    case Reap(p) => SetProcKeepsInv(s, p, Do(s, step).procs[p]);
    case Tick => TickKeepsInv(s);
  }
}
