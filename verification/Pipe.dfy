/** pipe.c: a ring of PIPESIZE bytes between processes, with counters that wrap at 32 bits, and the
    sleep/wakeup protocol around it. */
module Pipe {
  import opened Blocks

  const PIPESIZE := 512
  const UINT := 0x1_0000_0000

  // ----- The ring

  /** struct pipe, next to what it stands for: all bytes ever stored, and all bytes ever taken out. */
  datatype Ring = Ring(data: seq<byte>, nread: nat, nwrite: nat, put: seq<byte>, taken: seq<byte>)

  ghost predicate RingOk(r: Ring) {
    && |r.data| == PIPESIZE
    && r.taken <= r.put && |r.put| <= |r.taken| + PIPESIZE
    && r.nread == |r.taken| % UINT && r.nwrite == |r.put| % UINT
    && forall i {:trigger r.put[i]} | |r.taken| <= i < |r.put| :: r.data[i % PIPESIZE] == r.put[i]
  }

  function Held(r: Ring): int { |r.put| - |r.taken| }

  /** The two tests of pipe.c mean what they say, although the counters wrap. */
  lemma TestsMean(r: Ring)
    requires RingOk(r)
    ensures r.nread == r.nwrite <==> Held(r) == 0
    ensures r.nwrite == (r.nread + PIPESIZE) % UINT <==> Held(r) == PIPESIZE
    ensures r.nwrite % PIPESIZE == |r.put| % PIPESIZE && r.nread % PIPESIZE == |r.taken| % PIPESIZE
  {
    Wrap(|r.taken|, Held(r));
    WrapDivides(|r.put|);
    WrapDivides(|r.taken|);
  }

  /** PIPESIZE divides 2^32, so wrapping does not move the ring. */
  lemma WrapDivides(n: nat)
    ensures n % UINT % PIPESIZE == n % PIPESIZE
  {}

  lemma Wrap(n: nat, d: nat)
    requires d <= PIPESIZE
    ensures (n + d) % UINT == n % UINT <==> d == 0
    ensures (n + d) % UINT == (n % UINT + PIPESIZE) % UINT <==> d == PIPESIZE
  {}

  function Store(r: Ring, b: byte): Ring
    requires |r.data| == PIPESIZE
  {
    r.(data := r.data[r.nwrite % PIPESIZE := b], nwrite := (r.nwrite + 1) % UINT, put := r.put + [b])
  }

  lemma StoreKeepsOk(r: Ring, b: byte)
    requires RingOk(r) && Held(r) < PIPESIZE
    ensures RingOk(Store(r, b))
  {
    TestsMean(r);
    var t := Store(r, b);
    NextWraps(|r.put|);
    forall i {:trigger t.put[i]} | |t.taken| <= i < |t.put|
      ensures t.data[i % PIPESIZE] == t.put[i]
    {
      if i < |r.put| {
        SameSlot(i, |r.put|);
        assert t.put[i] == r.put[i];
      }
    }
  }

  lemma NextWraps(n: nat)
    ensures (n % UINT + 1) % UINT == (n + 1) % UINT
  {}

  /** Two positions less than PIPESIZE apart have different slots. */
  lemma SameSlot(i: nat, j: nat)
    requires i < j < i + PIPESIZE
    ensures i % PIPESIZE != j % PIPESIZE
  {}

  /** The next byte out, and the ring without it. */
  function Load(r: Ring): Ring
    requires |r.data| == PIPESIZE
  {
    r.(nread := (r.nread + 1) % UINT, taken := r.taken + [r.data[r.nread % PIPESIZE]])
  }

  lemma LoadKeepsOk(r: Ring)
    requires RingOk(r) && Held(r) > 0
    ensures RingOk(Load(r)) && Load(r).taken == r.put[..|r.taken| + 1]
  {
    TestsMean(r);
    NextWraps(|r.taken|);
    var b := r.put[|r.taken|];
    assert r.data[r.nread % PIPESIZE] == b;
    assert r.put[..|r.taken| + 1] == r.taken + [b];
    assert Load(r).put == r.put;
  }

  /** pipewrite's inner loop: the bytes, one after the other. */
  function StoreAll(r: Ring, bs: seq<byte>): (t: Ring)
    requires |r.data| == PIPESIZE
    ensures |t.data| == PIPESIZE
  {
    if bs == [] then r else Store(StoreAll(r, bs[..|bs| - 1]), bs[|bs| - 1])
  }

  lemma {:induction false} StoreAllIs(r: Ring, bs: seq<byte>)
    requires RingOk(r) && Held(r) + |bs| <= PIPESIZE
    ensures var t := StoreAll(r, bs); RingOk(t) && t.put == r.put + bs && t.taken == r.taken
  {
    if bs != [] {
      var n := |bs| - 1;
      StoreAllIs(r, bs[..n]);
      StoreKeepsOk(StoreAll(r, bs[..n]), bs[n]);
      assert bs[..n] + [bs[n]] == bs;
    }
  }

  /** piperead's copy loop: the next n bytes. */
  function LoadAll(r: Ring, n: nat): (t: Ring)
    requires |r.data| == PIPESIZE
    ensures |t.data| == PIPESIZE
  {
    if n == 0 then r else Load(LoadAll(r, n - 1))
  }

  lemma {:induction false} LoadAllIs(r: Ring, n: nat)
    requires RingOk(r) && n <= Held(r)
    ensures var t := LoadAll(r, n); RingOk(t) && t.taken == r.put[..|r.taken| + n] && t.put == r.put
  {
    if n > 0 {
      LoadAllIs(r, n - 1);
      LoadKeepsOk(LoadAll(r, n - 1));
    } else {
      assert r.put[..|r.taken|] == r.taken;
    }
  }

  // ----- Processes

  /** What a process is doing with the pipe; i bytes of a write are stored already. */
  datatype Job = Idle | Writing(buf: seq<byte>, i: nat) | Reading(n: nat)

  datatype Proc = Proc(job: Job, asleep: bool, killed: bool)

  datatype Sys = Sys(ring: Ring, readopen: bool, writeopen: bool, procs: seq<Proc>)

  datatype Step =
    | StartWrite(p: nat, buf: seq<byte>)
    | StartRead(p: nat, n: nat)
    | Run(p: nat)              // from taking the lock to sleep or return
    | CloseRead | CloseWrite   // pipeclose
    | Kill(p: nat)

  /** wakeup(&p->nread) */
  function WakeReaders(procs: seq<Proc>): (r: seq<Proc>)
    ensures |r| == |procs|
    ensures forall q {:trigger r[q]} | 0 <= q < |r| :: r[q] == if procs[q].job.Reading? then procs[q].(asleep := false) else procs[q]
  {
    seq(|procs|, q requires 0 <= q < |procs| => if procs[q].job.Reading? then procs[q].(asleep := false) else procs[q])
  }

  /** wakeup(&p->nwrite) */
  function WakeWriters(procs: seq<Proc>): (r: seq<Proc>)
    ensures |r| == |procs|
    ensures forall q {:trigger r[q]} | 0 <= q < |r| :: r[q] == if procs[q].job.Writing? then procs[q].(asleep := false) else procs[q]
  {
    seq(|procs|, q requires 0 <= q < |procs| => if procs[q].job.Writing? then procs[q].(asleep := false) else procs[q])
  }

  /** Sleepers have something to wait for, and a process in pipewrite or piperead keeps its end open. */
  predicate ProcOk(s: Sys, q: nat)
    requires q < |s.procs|
  {
    var x := s.procs[q];
    match x.job
    case Idle => !x.asleep
    case Writing(buf, i) => s.writeopen && i <= |buf|
    case Reading(_) => s.readopen
  }

  ghost predicate Inv(s: Sys) {
    RingOk(s.ring) && forall q: nat | q < |s.procs| :: ProcOk(s, q)
  }

  predicate Enabled(s: Sys, e: Step) {
    match e
    case StartWrite(p, _) => p < |s.procs| && s.procs[p].job.Idle? && s.writeopen
    case StartRead(p, _) => p < |s.procs| && s.procs[p].job.Idle? && s.readopen
    case Run(p) => p < |s.procs| && !s.procs[p].job.Idle? && !s.procs[p].asleep
    case CloseRead => forall q | 0 <= q < |s.procs| :: !s.procs[q].job.Reading?
    case CloseWrite => forall q | 0 <= q < |s.procs| :: !s.procs[q].job.Writing?
    case Kill(p) => p < |s.procs|
  }

  function Min(a: int, b: int): int { if a < b then a else b }

  /** How many bytes of the rest of the buffer find room. */
  function Chunk(s: Sys, buf: seq<byte>, i: nat): nat
    requires i <= |buf| && Held(s.ring) <= PIPESIZE
  {
    Min(|buf| - i, PIPESIZE - Held(s.ring))
  }

  /** pipewrite from taking the lock: store what fits; then return, fail, or wake readers and sleep. */
  function RunWrite(s: Sys, p: nat, buf: seq<byte>, i: nat): Sys
    requires p < |s.procs| && i <= |buf| && Held(s.ring) <= PIPESIZE && |s.ring.data| == PIPESIZE
  {
    var m := Chunk(s, buf, i);
    var t := s.(ring := StoreAll(s.ring, buf[i..i + m]));
    var x := s.procs[p];
    if i + m == |buf| then t.(procs := WakeReaders(s.procs[p := x.(job := Idle)]))
    else if !s.readopen || x.killed then t.(procs := s.procs[p := x.(job := Idle)])
    else t.(procs := WakeReaders(s.procs[p := x.(job := Writing(buf, i + m), asleep := true)]))
  }

  /** piperead from taking the lock: sleep or fail on an empty open pipe, else take what is there. */
  function RunRead(s: Sys, p: nat, n: nat): Sys
    requires p < |s.procs| && Held(s.ring) >= 0 && |s.ring.data| == PIPESIZE
  {
    var x := s.procs[p];
    if Held(s.ring) == 0 && s.writeopen then
      s.(procs := s.procs[p := if x.killed then x.(job := Idle) else x.(asleep := true)])
    else
      s.(ring := LoadAll(s.ring, Min(n, Held(s.ring))), procs := WakeWriters(s.procs[p := x.(job := Idle)]))
  }

  ghost function Do(s: Sys, e: Step): Sys
    requires Inv(s) && Enabled(s, e)
  {
    match e
    case StartWrite(p, buf) => s.(procs := s.procs[p := s.procs[p].(job := Writing(buf, 0))])
    case StartRead(p, n) => s.(procs := s.procs[p := s.procs[p].(job := Reading(n))])
    case Run(p) =>
      assert ProcOk(s, p);
      (match s.procs[p].job
       case Writing(buf, i) => RunWrite(s, p, buf, i)
       case Reading(n) => RunRead(s, p, n))
    case CloseRead => s.(readopen := false, procs := WakeWriters(s.procs))
    case CloseWrite => s.(writeopen := false, procs := WakeReaders(s.procs))
    case Kill(p) => s.(procs := s.procs[p := s.procs[p].(killed := true, asleep := false)])
  }

  lemma StepKeepsInv(s: Sys, e: Step)
    requires Inv(s) && Enabled(s, e)
    ensures Inv(Do(s, e)) && |Do(s, e).procs| == |s.procs|
    ensures s.ring.put <= Do(s, e).ring.put && s.ring.taken <= Do(s, e).ring.taken
  {
    if e.Run? {
      assert ProcOk(s, e.p);
      match s.procs[e.p].job
      case Writing(_, _) => RunWriteKeepsInv(s, e.p);
      case Reading(_) => RunReadKeepsInv(s, e.p);
    } else {
      var t := Do(s, e);
      forall q: nat | q < |t.procs|
        ensures ProcOk(t, q)
      {
        assert ProcOk(s, q);
      }
    }
  }

  lemma RunWriteKeepsInv(s: Sys, p: nat)
    requires Inv(s) && Enabled(s, Run(p)) && s.procs[p].job.Writing?
    ensures Inv(Do(s, Run(p))) && |Do(s, Run(p)).procs| == |s.procs|
    ensures s.ring.put <= Do(s, Run(p)).ring.put && s.ring.taken == Do(s, Run(p)).ring.taken
  {
    var buf, i, t := s.procs[p].job.buf, s.procs[p].job.i, Do(s, Run(p));
    assert ProcOk(s, p);
    StoreAllIs(s.ring, buf[i..i + Chunk(s, buf, i)]);
    forall q: nat | q < |t.procs|
      ensures ProcOk(t, q)
    {
      assert ProcOk(s, q);
    }
  }

  lemma RunReadKeepsInv(s: Sys, p: nat)
    requires Inv(s) && Enabled(s, Run(p)) && s.procs[p].job.Reading?
    ensures Inv(Do(s, Run(p))) && |Do(s, Run(p)).procs| == |s.procs|
    ensures s.ring.put == Do(s, Run(p)).ring.put && s.ring.taken <= Do(s, Run(p)).ring.taken
  {
    var t := Do(s, Run(p));
    assert ProcOk(s, p);
    LoadAllIs(s.ring, Min(s.procs[p].job.n, Held(s.ring)));
    forall q: nat | q < |t.procs|
      ensures ProcOk(t, q)
    {
      assert ProcOk(s, q);
    }
  }

  // ----- No lost wakeup

  /** A sleeping reader has nothing to read from an open pipe; a sleeping writer has no room, and
      somebody may still read. */
  predicate WaitOk(s: Sys, q: nat)
    requires q < |s.procs|
  {
    s.procs[q].asleep ==>
      match s.procs[q].job
      case Idle => true
      case Writing(_, _) => Held(s.ring) == PIPESIZE && s.readopen
      case Reading(_) => Held(s.ring) == 0 && s.writeopen
  }

  ghost predicate WaitsOk(s: Sys) { forall q: nat | q < |s.procs| :: WaitOk(s, q) }

  /** The one way out that wakes nobody: a killed writer fills the pipe and gives up while a reader
      sleeps. */
  ghost predicate LosesWakeup(s: Sys, e: Step) {
    && e.Run? && e.p < |s.procs| && s.procs[e.p].killed && s.procs[e.p].job.Writing?
    && |s.procs[e.p].job.buf| - s.procs[e.p].job.i > PIPESIZE
    && exists q :: 0 <= q < |s.procs| && s.procs[q].job.Reading? && s.procs[q].asleep
  }

  lemma RunWriteWaits(s: Sys, p: nat)
    requires Inv(s) && WaitsOk(s) && Enabled(s, Run(p)) && s.procs[p].job.Writing? && !LosesWakeup(s, Run(p))
    ensures WaitsOk(Do(s, Run(p)))
  {
    var buf, i := s.procs[p].job.buf, s.procs[p].job.i;
    assert ProcOk(s, p);
    var t := Do(s, Run(p));
    StoreAllIs(s.ring, buf[i..i + Chunk(s, buf, i)]);
    forall q: nat | q < |t.procs|
      ensures WaitOk(t, q)
    {
      assert ProcOk(s, q) && WaitOk(s, q);
    }
  }

  lemma RunReadWaits(s: Sys, p: nat)
    requires Inv(s) && WaitsOk(s) && Enabled(s, Run(p)) && s.procs[p].job.Reading?
    ensures WaitsOk(Do(s, Run(p)))
  {
    assert ProcOk(s, p);
    var t := Do(s, Run(p));
    LoadAllIs(s.ring, Min(s.procs[p].job.n, Held(s.ring)));
    forall q: nat | q < |t.procs|
      ensures WaitOk(t, q)
    {
      assert ProcOk(s, q) && WaitOk(s, q);
    }
  }

  lemma LostIsLost(s: Sys, e: Step)
    requires Inv(s) && WaitsOk(s) && Enabled(s, e) && LosesWakeup(s, e)
    ensures !WaitsOk(Do(s, e))
  {
    var q :| 0 <= q < |s.procs| && s.procs[q].job.Reading? && s.procs[q].asleep;
    var buf, i := s.procs[e.p].job.buf, s.procs[e.p].job.i;
    assert ProcOk(s, e.p) && WaitOk(s, q);
    StoreAllIs(s.ring, buf[i..i + Chunk(s, buf, i)]);
    assert !WaitOk(Do(s, e), q);
  }

  /** Exactly one kind of step breaks the rule. */
  lemma WaitsKeptExactly(s: Sys, e: Step)
    requires Inv(s) && WaitsOk(s) && Enabled(s, e)
    ensures WaitsOk(Do(s, e)) <==> !LosesWakeup(s, e)
  {
    if LosesWakeup(s, e) {
      LostIsLost(s, e);
    } else if e.Run? {
      assert ProcOk(s, e.p);
      match s.procs[e.p].job
      case Writing(_, _) => RunWriteWaits(s, e.p);
      case Reading(_) => RunReadWaits(s, e.p);
    } else {
      var t := Do(s, e);
      forall q: nat | q < |t.procs|
        ensures WaitOk(t, q)
      {
        assert ProcOk(s, q) && WaitOk(s, q);
      }
    }
  }

  // ----- Every run

  /** pipealloc, with n processes around. */
  function Boot(n: nat): Sys {
    Sys(Ring(ZeroBlock(), 0, 0, [], []), true, true, seq(n, q => Proc(Idle, false, false)))
  }

  ghost predicate Reaches(s: Sys, run: seq<Step>, t: Sys)
    decreases |run|
  {
    if run == [] then s == t else Inv(s) && Enabled(s, run[0]) && Reaches(Do(s, run[0]), run[1..], t)
  }

  /** Whatever the interleaving, the bytes read are a prefix of the bytes written, and the counters tell
      an empty and a full pipe apart however often they wrapped. */
  lemma {:induction false} ReadsArePrefix(s: Sys, run: seq<Step>, t: Sys)
    requires Inv(s) && Reaches(s, run, t)
    ensures Inv(t) && t.ring.taken <= t.ring.put && s.ring.put <= t.ring.put && s.ring.taken <= t.ring.taken
    decreases |run|
  {
    if run != [] {
      StepKeepsInv(s, run[0]);
      ReadsArePrefix(Do(s, run[0]), run[1..], t);
    }
  }

  ghost predicate NobodyKilled(s: Sys) { forall q | 0 <= q < |s.procs| :: !s.procs[q].killed }

  /** Without kill, no wakeup is ever lost. */
  lemma {:induction false} NoKillNoLoss(s: Sys, run: seq<Step>, t: Sys)
    requires Inv(s) && WaitsOk(s) && NobodyKilled(s) && Reaches(s, run, t) && forall k | 0 <= k < |run| :: !run[k].Kill?
    ensures WaitsOk(t) && NobodyKilled(t)
    decreases |run|
  {
    if run != [] {
      StepKeepsInv(s, run[0]);
      WaitsKeptExactly(s, run[0]);
      StaysUnkilled(s, run[0]);
      NoKillNoLoss(Do(s, run[0]), run[1..], t);
    }
  }

  lemma StaysUnkilled(s: Sys, e: Step)
    requires Inv(s) && Enabled(s, e) && NobodyKilled(s) && !e.Kill?
    ensures NobodyKilled(Do(s, e))
  {
    if e.Run? {
      assert ProcOk(s, e.p);
    }
  }

  lemma BootIsFine(n: nat)
    ensures Inv(Boot(n)) && WaitsOk(Boot(n)) && NobodyKilled(Boot(n))
  {}

  lemma StoreAllNext(r: Ring, bs: seq<byte>, b: byte)
    requires |r.data| == PIPESIZE
    ensures StoreAll(r, bs + [b]) == Store(StoreAll(r, bs), b)
  {
    assert (bs + [b])[..|bs|] == bs;
  }

  /** One step in front of a run. */
  lemma StepFirst(s: Sys, e: Step, u: Sys, run: seq<Step>, t: Sys)
    requires Inv(s) && Enabled(s, e) && u == Do(s, e) && Reaches(u, run, t)
    ensures Reaches(s, [e] + run, t)
  {
    assert ([e] + run)[1..] == run;
  }

  /** With kill it does happen: process 0 sleeps in a read, process 1 is killed while it writes 513 bytes.
      The pipe ends up full with the reader asleep. */
  lemma KillLosesWakeup(buf: seq<byte>) returns (run: seq<Step>, t: Sys)
    requires |buf| == PIPESIZE + 1
    ensures Reaches(Boot(2), run, t) && |t.procs| == 2 && t.procs[0].asleep && t.procs[0].job.Reading? && Held(t.ring) == PIPESIZE
  {
    var s := Boot(2);
    run := [StartRead(0, 1), Run(0), StartWrite(1, buf), Kill(1), Run(1)];
    BootIsFine(2);
    var s1 := Do(s, run[0]);
    StepKeepsInv(s, run[0]);
    var s2 := Do(s1, run[1]);
    StepKeepsInv(s1, run[1]);
    var s3 := Do(s2, run[2]);
    StepKeepsInv(s2, run[2]);
    var s4 := Do(s3, run[3]);
    StepKeepsInv(s3, run[3]);
    t := Do(s4, run[4]);
    StoreAllIs(s4.ring, buf[0..0 + Chunk(s4, buf, 0)]);
    StepFirst(s4, run[4], t, [], t);
    StepFirst(s3, run[3], s4, [run[4]], t);
    StepFirst(s2, run[2], s3, [run[3]] + [run[4]], t);
    StepFirst(s1, run[1], s2, [run[2]] + ([run[3]] + [run[4]]), t);
    StepFirst(s, run[0], s1, [run[1]] + ([run[2]] + ([run[3]] + [run[4]])), t);
    assert run == [run[0]] + ([run[1]] + ([run[2]] + ([run[3]] + [run[4]])));
  }

  /** One turn moves bytes in order: a write appends the next bytes of its buffer, a read returns the
      oldest bytes nobody has read. */
  lemma TurnMoves(s: Sys, p: nat)
    requires Inv(s) && Enabled(s, Run(p))
    ensures var t := Do(s, Run(p));
            match s.procs[p].job
            case Idle => true
            case Writing(buf, i) =>
              && i <= |buf| && t.ring.taken == s.ring.taken
              && t.ring.put == s.ring.put + buf[i..i + Chunk(s, buf, i)]
            case Reading(n) =>
              var m := if Held(s.ring) == 0 then 0 else Min(n, Held(s.ring));
              t.ring.put == s.ring.put && t.ring.taken == s.ring.taken + s.ring.put[|s.ring.taken|..|s.ring.taken| + m]
  {
    assert ProcOk(s, p);
    match s.procs[p].job
    case Writing(buf, i) => StoreAllIs(s.ring, buf[i..i + Chunk(s, buf, i)]);
    case Reading(n) => LoadAllIs(s.ring, Min(n, Held(s.ring)));
  }

  /** What a turn makes of each process: a writer that stored everything, or that fails, is done, and any
      other sleeps with the rest to go; a reader of an empty open pipe sleeps or, killed, fails, and any
      other is done. A turn that does not fail wakes the other side, and it changes nobody else. */
  lemma TurnEnds(s: Sys, p: nat, q: nat)
    requires Inv(s) && Enabled(s, Run(p)) && q < |s.procs|
    ensures var o, r, x := s.procs[q], Do(s, Run(p)).procs[q], s.procs[p];
            match x.job
            case Idle => true
            case Writing(buf, i) =>
              var room := PIPESIZE - Held(s.ring);
              var done := |buf| - i <= room;
              var fails := !done && (!s.readopen || x.killed);
              if q != p then r == if o.job.Reading? && !fails then Proc(o.job, false, o.killed) else o
              else r == if done || fails then Proc(Idle, false, x.killed) else Proc(Writing(buf, i + room), true, x.killed)
            case Reading(n) =>
              var waits := Held(s.ring) == 0 && s.writeopen;
              if q != p then r == if o.job.Writing? && !waits then Proc(o.job, false, o.killed) else o
              else r == if waits && !x.killed then Proc(Reading(n), true, false) else Proc(Idle, false, x.killed)
  {
    assert ProcOk(s, p) && ProcOk(s, q);
  }

  /** What the other steps do: pipeclose shuts one end for good and wakes everybody at the other, kill wakes
      and marks one process, and nobody but the caller is touched by the start of a call. */
  lemma StepDoes(s: Sys, e: Step, q: nat)
    requires Inv(s) && Enabled(s, e) && !e.Run? && q < |s.procs|
    ensures var t := Do(s, e);
            && t.ring == s.ring && t.readopen == (s.readopen && !e.CloseRead?) && t.writeopen == (s.writeopen && !e.CloseWrite?)
            && var o, r := s.procs[q], t.procs[q];
            match e
            case StartWrite(p, buf) => r == if q == p then Proc(Writing(buf, 0), o.asleep, o.killed) else o
            case StartRead(p, n) => r == if q == p then Proc(Reading(n), o.asleep, o.killed) else o
            case CloseRead => r == Proc(o.job, o.asleep && !o.job.Writing?, o.killed)
            case CloseWrite => r == Proc(o.job, o.asleep && !o.job.Reading?, o.killed)
            case Kill(p) => r == if q == p then Proc(o.job, false, true) else o
            case Run(_) => true
  {}

  // ----- pipe.c itself

  /** How a turn ends: the call returns its count, fails, or sleeps. */
  datatype End = Returned(n: nat) | Failed | Slept

  class PipeBuf {
    const data: array<byte>
    var nread: nat
    var nwrite: nat
    var readopen: bool
    var writeopen: bool
    ghost var put: seq<byte>
    ghost var taken: seq<byte>

    ghost function View(): Ring
      reads this, data
    {
      Ring(data[..], nread, nwrite, put, taken)
    }

    ghost predicate Valid()
      reads this, data
    {
      data.Length == PIPESIZE && RingOk(View())
    }

    /** pipealloc */
    constructor ()
      ensures Valid() && readopen && writeopen && put == taken == [] && fresh(data)
    {
      data := new byte[PIPESIZE](i => 0);
      nread, nwrite, readopen, writeopen, put, taken := 0, 0, true, true, [], [];
    }

    /** p->data[p->nwrite++ % PIPESIZE] = b */
    method PutByte(b: byte)
      requires data.Length == PIPESIZE
      modifies this`nwrite, this`put, data
      ensures |old(View()).data| == PIPESIZE && View() == Store(old(View()), b)
    {
      data[nwrite % PIPESIZE] := b;
      nwrite := (nwrite + 1) % UINT;
      put := put + [b];
    }

    /** pipewrite with the lock held, from byte `start` of the buffer on. `wake` says whether it wakes
        the readers. */
    method WriteTurn(buf: seq<byte>, start: nat, killed: bool) returns (i: nat, end: End, wake: bool)
      requires Valid() && start <= |buf|
      modifies this`nwrite, this`put, data
      ensures Valid() && i == start + Min(|buf| - start, PIPESIZE - Held(old(View())))
      ensures View() == StoreAll(old(View()), buf[start..i])
      ensures end == if i == |buf| then Returned(|buf|) else if !readopen || killed then Failed else Slept
      ensures wake == (end != Failed)
    {
      ghost var r := View();
      i := start;
      while i < |buf|
        invariant start <= i <= |buf| && i - start <= PIPESIZE - Held(r)
        invariant View() == StoreAll(r, buf[start..i]) && nread == r.nread && taken == r.taken
      {
        StoreAllIs(r, buf[start..i]);
        TestsMean(View());
        if nwrite == (nread + PIPESIZE) % UINT {
          return i, if !readopen || killed then Failed else Slept, readopen && !killed;
        }
        StoreAllNext(r, buf[start..i], buf[i]);
        assert buf[start..i + 1] == buf[start..i] + [buf[i]];
        PutByte(buf[i]);
        i := i + 1;
      }
      StoreAllIs(r, buf[start..i]);
      return i, Returned(|buf|), true;
    }

    /** piperead with the lock held; `bytes` is what reaches the caller's buffer. */
    method ReadTurn(n: nat, killed: bool) returns (bytes: seq<byte>, end: End, wake: bool)
      requires Valid()
      modifies this`nread, this`taken
      ensures Valid() && taken == old(taken) + bytes && put == old(put)
      ensures if Held(old(View())) == 0 && writeopen then
                View() == old(View()) && end == (if killed then Failed else Slept) && !wake
              else
                && |bytes| == Min(n, Held(old(View()))) && end == Returned(|bytes|) && wake
                && View() == LoadAll(old(View()), |bytes|)
    {
      ghost var r := View();
      TestsMean(r);
      bytes := [];
      if nread == nwrite && writeopen {
        return bytes, if killed then Failed else Slept, false;
      }
      var i := 0;
      while i < n
        invariant i == |bytes| <= Min(n, Held(r)) && View() == LoadAll(r, i)
        invariant taken == r.taken + bytes && put == r.put && nwrite == r.nwrite
      {
        LoadAllIs(r, i);
        TestsMean(View());
        if nread == nwrite {
          break;
        }
        var b := data[nread % PIPESIZE];
        bytes := bytes + [b];
        nread := (nread + 1) % UINT;
        taken := taken + [b];
        i := i + 1;
      }
      LoadAllIs(r, i);
      return bytes, Returned(i), true;
    }

    /** pipeclose of one end; `gone` says whether the pipe is freed. It wakes the readers or the writers. */
    method Close(writable: bool) returns (gone: bool)
      requires Valid()
      modifies this`readopen, this`writeopen
      ensures Valid() && View() == old(View()) && readopen == (old(readopen) && writable) && writeopen == (old(writeopen) && !writable)
      ensures gone == (!readopen && !writeopen)
    {
      if writable {
        writeopen := false;
      } else {
        readopen := false;
      }
      gone := !readopen && !writeopen;
    }
  }
}
