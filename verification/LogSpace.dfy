/** The log-space reservation protocol of log.c: begin_op, log_write, end_op and the end of a
    commit, each one critical section under log.lock, interleaved among any number of processes. */
module LogSpace {
  import opened Params

  /** What a process is doing with the log. An active operation has added `spent` new blocks. */
  datatype Op = Idle | Asleep | Active(spent: nat)

  /** `struct log` (lh.n is |block|) and the processes using it. */
  datatype Space = Space(block: seq<nat>, outstanding: nat, committing: bool, ops: seq<Op>) {

    /** The test at the head of begin_op's loop. */
    predicate MustWait() {
      committing || |block| + (outstanding + 1) * MAXOPBLOCKS > LOGSIZE
    }

    /** The two panics of log_write; `nlog` is log.size. */
    predicate LogWritePanics(nlog: nat) {
      |block| >= LOGSIZE || |block| >= nlog - 1 || outstanding < 1
    }
  }

  datatype Step =
    | Begin(p: nat)
    | LogWrite(p: nat, b: nat)
    | End(p: nat)
    | CommitDone

  datatype Outcome = Next(s: Space) | Panic

  function Wake(ops: seq<Op>): (r: seq<Op>)
    ensures |r| == |ops|
    ensures forall i | 0 <= i < |r| :: r[i] == if ops[i].Asleep? then Idle else ops[i]
  {
    seq(|ops|, i requires 0 <= i < |ops| => if ops[i].Asleep? then Idle else ops[i])
  }

  /** Who may take a step: the promise every caller makes is to add at most MAXOPBLOCKS
      new blocks per operation. */
  predicate Enabled(s: Space, step: Step) {
    match step
    case Begin(p) => p < |s.ops| && s.ops[p].Idle?
    case LogWrite(p, b) =>
      p < |s.ops| && s.ops[p].Active? && (b in s.block || s.ops[p].spent < MAXOPBLOCKS)
    case End(p) => p < |s.ops| && s.ops[p].Active?
    case CommitDone => s.committing
  }

  /** The code of one critical section. */
  function Do(s: Space, nlog: nat, step: Step): Outcome
    requires Enabled(s, step)
  {
    match step
    case Begin(p) =>
      if s.MustWait() then Next(s.(ops := s.ops[p := Asleep]))
      else Next(s.(outstanding := s.outstanding + 1, ops := s.ops[p := Active(0)]))
    case LogWrite(p, b) =>
      if s.LogWritePanics(nlog) then Panic
      else if b in s.block then Next(s)
      else Next(s.(block := s.block + [b], ops := s.ops[p := Active(s.ops[p].spent + 1)]))
    case End(p) =>
      if s.committing || s.outstanding == 0 then Panic
      else if s.outstanding == 1 then
        Next(s.(outstanding := 0, committing := true, ops := s.ops[p := Idle]))
      else
        Next(s.(outstanding := s.outstanding - 1, ops := Wake(s.ops[p := Idle])))
    case CommitDone =>
      Next(s.(block := [], committing := false, ops := Wake(s.ops)))
  }

  // ----- Budgets

  function ActiveCount(ops: seq<Op>): nat {
    if ops == [] then 0 else ActiveCount(ops[1..]) + if ops[0].Active? then 1 else 0
  }

  function Unspent(o: Op): int {
    if o.Active? then MAXOPBLOCKS - o.spent else 0
  }

  /** What the outstanding operations may still add. */
  function Reserved(ops: seq<Op>): int {
    if ops == [] then 0 else Reserved(ops[1..]) + Unspent(ops[0])
  }

  lemma {:induction false} CountsAfterUpdate(ops: seq<Op>, p: nat, o: Op)
    requires p < |ops|
    ensures Reserved(ops[p := o]) == Reserved(ops) - Unspent(ops[p]) + Unspent(o)
    ensures ActiveCount(ops[p := o])
         == ActiveCount(ops) - (if ops[p].Active? then 1 else 0) + if o.Active? then 1 else 0
  {
    if p == 0 {
      assert ops[0 := o][1..] == ops[1..];
    } else {
      CountsAfterUpdate(ops[1..], p - 1, o);
      assert ops[p := o][1..] == ops[1..][p - 1 := o];
    }
  }

  lemma {:induction false} CountsAfterWake(ops: seq<Op>)
    ensures Reserved(Wake(ops)) == Reserved(ops) && ActiveCount(Wake(ops)) == ActiveCount(ops)
  {
    if ops != [] {
      CountsAfterWake(ops[1..]);
      assert Wake(ops)[1..] == Wake(ops[1..]);
    }
  }

  ghost predicate WithinBudget(ops: seq<Op>) {
    forall i | 0 <= i < |ops| && ops[i].Active? :: ops[i].spent <= MAXOPBLOCKS
  }

  lemma {:induction false} ReservedBounds(ops: seq<Op>, p: nat)
    requires WithinBudget(ops) && p < |ops|
    ensures Unspent(ops[p]) <= Reserved(ops) <= ActiveCount(ops) * MAXOPBLOCKS
  {
    ReservedAtMost(ops[1..]);
    if p > 0 {
      ReservedBounds(ops[1..], p - 1);
    }
  }

  lemma {:induction false} ReservedAtMost(ops: seq<Op>)
    requires WithinBudget(ops)
    ensures 0 <= Reserved(ops) <= ActiveCount(ops) * MAXOPBLOCKS
  {
    if ops != [] {
      ReservedAtMost(ops[1..]);
    }
  }

  // ----- The invariant

  ghost predicate Inv(s: Space) {
    && s.outstanding == ActiveCount(s.ops)
    && WithinBudget(s.ops)
    && |s.block| + Reserved(s.ops) <= LOGSIZE
    && (forall i, j | 0 <= i < j < |s.block| :: s.block[i] != s.block[j])
    && (s.committing ==> s.outstanding == 0)
    && (!s.committing && s.outstanding == 0 ==> s.block == [])
    // no lost wakeup: whatever put a process to sleep still holds
    && (forall i | 0 <= i < |s.ops| && s.ops[i].Asleep? :: s.MustWait())
  }

  lemma BeginKeepsInv(s: Space, nlog: nat, p: nat)
    requires Inv(s) && Enabled(s, Begin(p))
    ensures Inv(Do(s, nlog, Begin(p)).s)
  {
    ReservedAtMost(s.ops);
    CountsAfterUpdate(s.ops, p, if s.MustWait() then Asleep else Active(0));
  }

  lemma LogWriteKeepsInv(s: Space, nlog: nat, p: nat, b: nat)
    requires Inv(s) && Enabled(s, LogWrite(p, b)) && Do(s, nlog, LogWrite(p, b)).Next?
    ensures Inv(Do(s, nlog, LogWrite(p, b)).s)
  {
    CountsAfterUpdate(s.ops, p, Active(s.ops[p].spent + 1));
  }

  lemma EndKeepsInv(s: Space, nlog: nat, p: nat)
    requires Inv(s) && Enabled(s, End(p)) && Do(s, nlog, End(p)).Next?
    ensures Inv(Do(s, nlog, End(p)).s)
  {
    CountsAfterUpdate(s.ops, p, Idle);
    ReservedAtMost(s.ops[p := Idle]);
    CountsAfterWake(s.ops[p := Idle]);
  }

  lemma CommitDoneKeepsInv(s: Space, nlog: nat)
    requires Inv(s) && Enabled(s, CommitDone)
    ensures Inv(Do(s, nlog, CommitDone).s)
  {
    ReservedAtMost(s.ops);
    CountsAfterWake(s.ops);
  }

  lemma StepKeepsInv(s: Space, nlog: nat, step: Step)
    requires Inv(s) && Enabled(s, step) && Do(s, nlog, step).Next?
    ensures Inv(Do(s, nlog, step).s)
  {
    match step
    case Begin(p) => BeginKeepsInv(s, nlog, p);
    case LogWrite(p, b) => LogWriteKeepsInv(s, nlog, p, b);
    case End(p) => EndKeepsInv(s, nlog, p);
    case CommitDone => CommitDoneKeepsInv(s, nlog);
  }

  function Start(procs: nat): Space {
    Space([], 0, false, seq(procs, i => Idle))
  }

  /** Every way `steps` can run from `s` without a panic. */
  predicate Runs(s: Space, nlog: nat, steps: seq<Step>, t: Space)
    decreases |steps|
  {
    if steps == [] then s == t
    else Enabled(s, steps[0]) && Do(s, nlog, steps[0]).Next? && Runs(Do(s, nlog, steps[0]).s, nlog, steps[1..], t)
  }

  lemma {:induction false} RunKeepsInv(s: Space, nlog: nat, steps: seq<Step>, t: Space)
    requires Inv(s) && Runs(s, nlog, steps, t)
    ensures Inv(t)
    decreases |steps|
  {
    if steps != [] {
      StepKeepsInv(s, nlog, steps[0]);
      RunKeepsInv(Do(s, nlog, steps[0]).s, nlog, steps[1..], t);
    }
  }

  lemma {:induction false} StartCounts(procs: nat)
    ensures ActiveCount(Start(procs).ops) == 0 && Reserved(Start(procs).ops) == 0
  {
    if procs > 0 {
      StartCounts(procs - 1);
      assert Start(procs).ops[1..] == Start(procs - 1).ops;
    }
  }

  /** Over every interleaving: the log never over-commits its space, end_op never panics, and a
      process asleep in begin_op has someone to wake it. */
  lemma ReservationIsSafe(procs: nat, nlog: nat, steps: seq<Step>, s: Space)
    requires Runs(Start(procs), nlog, steps, s)
    ensures Inv(s)
    ensures |s.block| + Reserved(s.ops) <= LOGSIZE
    ensures forall p | Enabled(s, End(p)) :: Do(s, nlog, End(p)).Next?
    ensures forall p | 0 <= p < |s.ops| && s.ops[p].Asleep? :: s.committing || s.outstanding >= 1
  {
    StartCounts(procs);
    RunKeepsInv(Start(procs), nlog, steps, s);
    forall p | Enabled(s, End(p))
      ensures Do(s, nlog, End(p)).Next?
    {
      ActiveIsCounted(s.ops, p);
    }
  }

  lemma {:induction false} ActiveIsCounted(ops: seq<Op>, p: nat)
    requires p < |ops| && ops[p].Active?
    ensures ActiveCount(ops) >= 1
  {
    if p > 0 {
      ActiveIsCounted(ops[1..], p - 1);
    }
  }

  /** Who is admitted: exactly when no commit runs and the blocks in the log leave room for MAXOPBLOCKS more
      for this operation and for each one under way. */
  lemma WhenAdmitted(procs: nat, nlog: nat, steps: seq<Step>, s: Space, p: nat)
    requires Runs(Start(procs), nlog, steps, s) && Enabled(s, Begin(p))
    ensures var fits := !s.committing && |s.block| + 10 * ActiveCount(s.ops) + 10 <= 30;
            Do(s, nlog, Begin(p)) ==
            Next(s.(outstanding := s.outstanding + (if fits then 1 else 0), ops := s.ops[p := if fits then Active(0) else Asleep]))
  {
    StartCounts(procs);
    RunKeepsInv(Start(procs), nlog, steps, s);
  }

  /** What the end of an operation does: the last one to end starts the commit, and any other wakes all
      sleepers. */
  lemma WhenCommits(procs: nat, nlog: nat, steps: seq<Step>, s: Space, p: nat, q: nat)
    requires Runs(Start(procs), nlog, steps, s) && Enabled(s, End(p)) && q < |s.ops|
    ensures Do(s, nlog, End(p)).Next?
    ensures var t, last := Do(s, nlog, End(p)).s, ActiveCount(s.ops) == 1;
            && t.committing == last && t.block == s.block && |t.ops| == |s.ops|
            && t.ops[q] == if q == p then Idle else if s.ops[q].Asleep? && !last then Idle else s.ops[q]
  {
    ReservationIsSafe(procs, nlog, steps, s);
  }

  /** After a commit the log is empty, nobody sleeps, and whoever comes first is admitted. */
  lemma AfterCommit(procs: nat, nlog: nat, steps: seq<Step>, s: Space, p: nat)
    requires Runs(Start(procs), nlog, steps, s) && s.committing && p < |s.ops|
    ensures var t := Do(s, nlog, CommitDone).s;
            && t.block == [] && !t.committing && |t.ops| == |s.ops| && (forall q | 0 <= q < |t.ops| :: t.ops[q].Idle?)
            && Do(t, nlog, Begin(p)) == Next(t.(outstanding := 1, ops := t.ops[p := Active(0)]))
  {
    StartCounts(procs);
    RunKeepsInv(Start(procs), nlog, steps, s);
    forall q | 0 <= q < |s.ops|
      ensures !s.ops[q].Active?
    {
      if s.ops[q].Active? {
        ActiveIsCounted(s.ops, q);
      }
    }
  }

  /** When log_write panics on an operation that keeps its promise: exactly when the log already
      holds min(LOGSIZE, log.size - 1) blocks, whether or not the write would be absorbed. */
  lemma WhenLogWritePanics(procs: nat, nlog: nat, steps: seq<Step>, s: Space, p: nat, b: nat)
    requires Runs(Start(procs), nlog, steps, s) && Enabled(s, LogWrite(p, b))
    ensures Do(s, nlog, LogWrite(p, b)).Panic? <==> |s.block| >= LOGSIZE || |s.block| + 1 >= nlog
    // with a log larger than LOGSIZE, a promised new block always fits
    ensures nlog > LOGSIZE && b !in s.block ==> Do(s, nlog, LogWrite(p, b)).Next?
  {
    ReservationIsSafe(procs, nlog, steps, s);
    ActiveIsCounted(s.ops, p);
    ReservedBounds(s.ops, p);
  }

  // ----- The panics are real

  lemma {:induction false} RunAppend(s: Space, nlog: nat, steps: seq<Step>, t: Space, step: Step)
    requires Runs(s, nlog, steps, t) && Enabled(t, step) && Do(t, nlog, step).Next?
    ensures Runs(s, nlog, steps + [step], Do(t, nlog, step).s)
    decreases |steps|
  {
    if steps == [] {
      assert (steps + [step])[1..] == [];
    } else {
      RunAppend(Do(s, nlog, steps[0]).s, nlog, steps[1..], t, step);
      assert (steps + [step])[1..] == steps[1..] + [step];
    }
  }

  function SpentBy(i: nat, k: nat): nat {
    if k <= i * MAXOPBLOCKS then 0
    else if k - i * MAXOPBLOCKS <= MAXOPBLOCKS then k - i * MAXOPBLOCKS else MAXOPBLOCKS
  }

  /** Three operations that have logged k blocks between them, each within its promise. */
  function Filled(k: nat): Space {
    Space(seq(k, i => i), 3, false, [Active(SpentBy(0, k)), Active(SpentBy(1, k)), Active(SpentBy(2, k))])
  }

  lemma ThreeBegin(nlog: nat)
    ensures Runs(Start(3), nlog, [Begin(0), Begin(1), Begin(2)], Filled(0))
  {
    var s1 := Space([], 1, false, [Active(0), Idle, Idle]);
    var s2 := Space([], 2, false, [Active(0), Active(0), Idle]);
    assert Start(3).ops[0 := Active(0)] == s1.ops;
    assert [Begin(0), Begin(1), Begin(2)][1..] == [Begin(1), Begin(2)];
    assert [Begin(1), Begin(2)][1..] == [Begin(2)];
    assert Runs(s2, nlog, [Begin(2)], Filled(0));
    assert Runs(s1, nlog, [Begin(1), Begin(2)], Filled(0));
  }

  lemma FillStep(nlog: nat, k: nat)
    requires k < LOGSIZE && k + 1 < nlog
    ensures Enabled(Filled(k), LogWrite(k / MAXOPBLOCKS, k))
    ensures Do(Filled(k), nlog, LogWrite(k / MAXOPBLOCKS, k)) == Next(Filled(k + 1))
  {
    var p := k / MAXOPBLOCKS;
    assert Filled(k).block + [k] == Filled(k + 1).block;
    assert Filled(k).ops[p := Active(SpentBy(p, k) + 1)] == Filled(k + 1).ops;
  }

  lemma {:induction false} FilledIsReachable(nlog: nat, k: nat) returns (steps: seq<Step>)
    requires k <= LOGSIZE && k < nlog
    ensures Runs(Start(3), nlog, steps, Filled(k))
  {
    if k == 0 {
      ThreeBegin(nlog);
      steps := [Begin(0), Begin(1), Begin(2)];
    } else {
      var prefix := FilledIsReachable(nlog, k - 1);
      FillStep(nlog, k - 1);
      var step := LogWrite((k - 1) / MAXOPBLOCKS, k - 1);
      RunAppend(Start(3), nlog, prefix, Filled(k - 1), step);
      steps := prefix + [step];
    }
  }

  /** mkfs makes log.size == LOGSIZE: an operation with budget left can panic on a new block. */
  lemma PromisedBlockCanPanic() returns (steps: seq<Step>, s: Space)
    ensures Runs(Start(3), LOGSIZE, steps, s) && Enabled(s, LogWrite(2, 29)) && 29 !in s.block
    ensures s.ops[2].spent < MAXOPBLOCKS && Do(s, LOGSIZE, LogWrite(2, 29)).Panic?
  {
    steps := FilledIsReachable(LOGSIZE, 29);
    s := Filled(29);
  }

  /** Even with a larger log, a write that would be absorbed panics once the log is full. */
  lemma AbsorbedWriteCanPanic(nlog: nat) returns (steps: seq<Step>, s: Space)
    requires nlog > LOGSIZE
    ensures Runs(Start(3), nlog, steps, s) && Enabled(s, LogWrite(0, 0)) && 0 in s.block
    ensures Do(s, nlog, LogWrite(0, 0)).Panic?
  {
    steps := FilledIsReachable(nlog, LOGSIZE);
    s := Filled(LOGSIZE);
    assert s.block[0] == 0;
  }

  // ----- log.c itself

  /** The fields of `struct log` this protocol uses; `ops` only records who is doing what. */
  class Log {
    const size: nat
    var n: nat
    var block: array<nat>
    var outstanding: nat
    var committing: bool
    ghost var ops: seq<Op>

    ghost predicate Valid()
      reads this, block
    {
      block.Length == LOGSIZE && n <= LOGSIZE && Inv(View())
    }

    ghost function View(): Space
      reads this, block
      requires block.Length == LOGSIZE && n <= LOGSIZE
    {
      Space(block[..n], outstanding, committing, ops)
    }

    constructor (size: nat, ghost procs: nat)
      ensures Valid() && this.size == size && View() == Start(procs) && fresh(block)
    {
      this.size, n, outstanding, committing, ops := size, 0, 0, false, Start(procs).ops;
      block := new nat[LOGSIZE];
      new;
      StartCounts(procs);
      assert block[..n] == [];
    }

    /** One turn of begin_op's loop: either go to sleep or be admitted. */
    method BeginOp(ghost p: nat) returns (admitted: bool)
      requires Valid() && Enabled(View(), Begin(p))
      modifies this`outstanding, this`ops
      ensures Valid() && Next(View()) == Do(old(View()), size, Begin(p))
      ensures admitted <==> !committing && n + (old(outstanding) + 1) * MAXOPBLOCKS <= LOGSIZE
    {
      BeginKeepsInv(View(), size, p);
      if committing {
        admitted, ops := false, ops[p := Asleep];
      } else if n + (outstanding + 1) * MAXOPBLOCKS > LOGSIZE {
        admitted, ops := false, ops[p := Asleep];
      } else {
        admitted, outstanding, ops := true, outstanding + 1, ops[p := Active(0)];
      }
    }

    /** log_write with its absorption scan; `ok` is false where the source panics. */
    method LogWrite(ghost p: nat, b: nat) returns (ok: bool)
      requires Valid() && Enabled(View(), Step.LogWrite(p, b))
      modifies this`n, this`ops, block
      ensures Valid()
      ensures ok ==> Next(View()) == Do(old(View()), size, Step.LogWrite(p, b))
      ensures !ok ==> View() == old(View()) && Do(old(View()), size, Step.LogWrite(p, b)).Panic?
      ensures ok <==> old(n) < LOGSIZE && old(n) + 1 < size
      ensures ok ==> block[..n] == old(block[..n]) + if b in old(block[..n]) then [] else [b]
    {
      ActiveIsCounted(ops, p);
      if n >= LOGSIZE || n >= size - 1 || outstanding < 1 {
        return false;
      }
      LogWriteKeepsInv(View(), size, p, b);
      ghost var s := View();
      var i := 0;
      while i < n && block[i] != b
        invariant 0 <= i <= n && b !in block[..i]
      {
        i := i + 1;
      }
      block[i] := b;
      if i == n {
        n := n + 1;
        ops := ops[p := Active(ops[p].spent + 1)];
        assert block[..n] == s.block + [b];
      } else {
        assert s.block[i] == b;
        assert block[..n] == s.block;
      }
      return true;
    }

    /** end_op up to the release of the lock; the caller commits when `commit` is true. */
    method EndOp(ghost p: nat) returns (commit: bool)
      requires Valid() && Enabled(View(), End(p))
      modifies this`outstanding, this`committing, this`ops
      ensures Valid() && Next(View()) == Do(old(View()), size, End(p))
      ensures commit == committing
    {
      ActiveIsCounted(ops, p);
      EndKeepsInv(View(), size, p);
      outstanding := outstanding - 1;
      ops := ops[p := Idle];
      if outstanding == 0 {
        commit, committing := true, true;
      } else {
        commit, ops := false, Wake(ops);
      }
    }

    /** After commit() has emptied the header: let everyone in again. */
    method FinishCommit()
      requires Valid() && committing
      modifies this`n, this`committing, this`ops
      ensures Valid() && Next(View()) == Do(old(View()), size, CommitDone)
    {
      CommitDoneKeepsInv(View(), size);
      n := 0;
      committing := false;
      ops := Wake(ops);
      assert block[..n] == [];
    }
  }
}
