/** A run after which commit panics: the blocks of a transaction and one reader take up every buffer. */
module CacheFull {
  import opened Blocks
  import opened Params
  import opened RedoLog
  import opened BufCache
  import opened LogCommit

  /** One step more. */
  lemma {:induction false} RunThen(c: Cache, run: seq<Step>, d: Cache, s: Step)
    requires Inv(c) && Reaches(c, run, d) && Inv(d) && Enabled(d, s) && Do(d, s).Next?
    ensures Reaches(c, run + [s], Do(d, s).c) && Inv(Do(d, s).c)
    decreases |run|
  {
    StepKeepsInv(d, s);
    if run == [] {
      assert [s][1..] == [];
      assert [] + [s] == [s];
    } else {
      StepKeepsInv(c, run[0]);
      RunThen(Do(c, run[0]).c, run[1..], d, s);
      assert (run + [s])[1..] == run[1..] + [s];
    }
  }

  /** The steps `run` lead from one sound state to another. */
  ghost predicate Way(c: Cache, run: seq<Step>, d: Cache) { WayBehind(c, run, d, 2) }

  ghost predicate WayBehind(c: Cache, run: seq<Step>, d: Cache, turns: nat) {
    if turns == 0 then Inv(c) && Reaches(c, run, d) && Inv(d) else WayBehind(c, run, d, turns - 1)
  }

  lemma WayIs(c: Cache, run: seq<Step>, d: Cache)
    ensures Way(c, run, d) == (Inv(c) && Reaches(c, run, d) && Inv(d))
  {
    assert WayBehind(c, run, d, 2) == WayBehind(c, run, d, 1) == WayBehind(c, run, d, 0);
  }

  function Numbers(base: nat, n: nat): (s: seq<nat>)
    ensures |s| == n && forall i | 0 <= i < n :: s[i] == base + i
  {
    seq(n, i requires 0 <= i < n => base + i)
  }

  ghost predicate Idle(c: Cache) {
    |c.bufs| == NBUF && forall x: nat | x < NBUF :: c.bufs[x].refcnt == 0 && c.bufs[x].hold == Unlocked
  }

  /** n blocks from base on are logged, nothing else is cached, and nobody has a buffer. */
  ghost predicate Loaded(c: Cache, disk: Disk, base: nat, n: nat) {
    && !c.committing && c.disk == disk && c.cur == disk && Idle(c)
    && c.lh == Numbers(base, n) && c.pin == Names(c.lh) && c.at.Keys == c.pin && |c.pin| == n
  }

  /** With fewer than NBUF blocks logged there is a buffer that never cached anything. */
  lemma FreshVictim(c: Cache, disk: Disk, base: nat, n: nat)
    requires Inv(c) && Loaded(c, disk, base, n) && n < NBUF
    ensures var v := Victim(c.bufs, c.order); v < NBUF && c.bufs[v].dev == 0
  {
    var none := seq(NBUF, _ => 0);
    TakenAlone(c, none);
    RoomIs(c, none);
    RoomOpens(c.bufs, none);
    var x: nat :| Spare(c.bufs, none, x);
    assert Unused(c.bufs[x]) && x in c.order;
    VictimIsUnused(c.bufs, c.order);
    var v := Victim(c.bufs, c.order);
    assert BufOk(c, v);
  }

  /** bget of a block that is not cached. */
  lemma GetOne(c0: Cache, run: seq<Step>, c: Cache, disk: Disk, base: nat, n: nat, b: nat) returns (more: seq<Step>, d: Cache, v: nat)
    requires Way(c0, run, c) && Loaded(c, disk, base, n) && n < NBUF && b < |disk| && b !in c.pin
    ensures Way(c0, more, d) && v < NBUF && c.bufs[v].dev == 0
    ensures d == c.(bufs := c.bufs[v := Buf(ROOTDEV, b, false, false, 1, Unlocked, c.bufs[v].data)], at := c.at[b := v])
  {
    WayIs(c0, run, c);
    FreshVictim(c, disk, base, n);
    v := Victim(c.bufs, c.order);
    RunThen(c0, run, c, Get(b));
    more := run + [Get(b)];
    d := Do(c, Get(b)).c;
    WayIs(c0, more, d);
  }

  lemma LockOne(c0: Cache, run: seq<Step>, c: Cache, v: nat) returns (more: seq<Step>, d: Cache)
    requires Way(c0, run, c) && |c.bufs| == NBUF && v < NBUF && c.bufs[v].hold == Unlocked && c.bufs[v].refcnt > 0
    ensures Way(c0, more, d) && d == c.(bufs := c.bufs[v := c.bufs[v].(hold := Settled)])
  {
    WayIs(c0, run, c);
    RunThen(c0, run, c, Lock(v));
    more := run + [Lock(v)];
    d := Do(c, Lock(v)).c;
    WayIs(c0, more, d);
  }

  lemma FillOne(c0: Cache, run: seq<Step>, c: Cache, v: nat) returns (more: seq<Step>, d: Cache)
    requires Way(c0, run, c) && |c.bufs| == NBUF && v < NBUF && c.bufs[v].hold == Settled && !c.bufs[v].valid
    requires c.bufs[v].bno < |c.disk|
    ensures Way(c0, more, d) && d == c.(bufs := c.bufs[v := c.bufs[v].(valid := true, data := c.disk[c.bufs[v].bno])])
  {
    WayIs(c0, run, c);
    RunThen(c0, run, c, Fill(v));
    more := run + [Fill(v)];
    d := Do(c, Fill(v)).c;
    WayIs(c0, more, d);
  }

  /** bread of a block that is not cached. */
  lemma ReadOne(c0: Cache, run: seq<Step>, c: Cache, disk: Disk, base: nat, n: nat, b: nat) returns (more: seq<Step>, d: Cache, v: nat)
    requires Way(c0, run, c) && Loaded(c, disk, base, n) && n < NBUF && b < |disk| && b !in c.pin
    ensures Way(c0, more, d) && v < NBUF && c.bufs[v].dev == 0
    ensures d == c.(bufs := c.bufs[v := Buf(ROOTDEV, b, true, false, 1, Settled, disk[b])], at := c.at[b := v])
  {
    more, d, v := GetOne(c0, run, c, disk, base, n, b);
    more, d := LockOne(c0, more, d, v);
    more, d := FillOne(c0, more, d, v);
  }

  /** log_write of a buffer that was just read. */
  lemma PinOne(c0: Cache, run: seq<Step>, c: Cache, v: nat, b: nat) returns (more: seq<Step>, d: Cache)
    requires Way(c0, run, c) && !c.committing && |c.bufs| == NBUF && |c.cur| == |c.disk| && v < NBUF && b < |c.disk| && b !in c.lh
    requires c.bufs[v] == Buf(ROOTDEV, b, true, false, 1, Settled, c.cur[b])
    ensures Way(c0, more, d)
    ensures d == c.(bufs := c.bufs[v := c.bufs[v].(dirty := true)], pin := c.pin + {b}, lh := c.lh + [b])
  {
    WayIs(c0, run, c);
    RunThen(c0, run, c, LogWrite(v));
    more := run + [LogWrite(v)];
    d := Do(c, LogWrite(v)).c;
    assert d.cur == c.cur;
    WayIs(c0, more, d);
  }

  lemma UnlockOne(c0: Cache, run: seq<Step>, c: Cache, v: nat) returns (more: seq<Step>, d: Cache)
    requires Way(c0, run, c) && |c.bufs| == NBUF && v < NBUF && c.bufs[v].hold == Settled
    ensures Way(c0, more, d) && d == c.(bufs := c.bufs[v := c.bufs[v].(hold := Unlocked)])
  {
    WayIs(c0, run, c);
    RunThen(c0, run, c, Unlock(v));
    more := run + [Unlock(v)];
    d := Do(c, Unlock(v)).c;
    WayIs(c0, more, d);
  }

  lemma DropOne(c0: Cache, run: seq<Step>, c: Cache, v: nat) returns (more: seq<Step>, d: Cache)
    requires Way(c0, run, c) && |c.bufs| == NBUF && v < NBUF && c.bufs[v].hold == Unlocked && c.bufs[v].refcnt == 1
    ensures Way(c0, more, d) && d == c.(bufs := c.bufs[v := c.bufs[v].(refcnt := 0)], order := d.order)
  {
    WayIs(c0, run, c);
    RunThen(c0, run, c, Drop(v));
    more := run + [Drop(v)];
    d := Do(c, Drop(v)).c;
    WayIs(c0, more, d);
  }

  /** brelse of the only reference. */
  lemma ReleaseOne(c0: Cache, run: seq<Step>, c: Cache, v: nat) returns (more: seq<Step>, d: Cache)
    requires Way(c0, run, c) && |c.bufs| == NBUF && v < NBUF && c.bufs[v].hold == Settled && c.bufs[v].refcnt == 1
    ensures Way(c0, more, d)
    ensures d == c.(bufs := c.bufs[v := c.bufs[v].(hold := Unlocked, refcnt := 0)], order := d.order)
  {
    more, d := UnlockOne(c0, run, c, v);
    more, d := DropOne(c0, more, d, v);
  }

  lemma LoadedNext(c: Cache, d: Cache, disk: Disk, base: nat, n: nat, v: nat)
    requires c.lh == Numbers(base, n) && c.pin == Names(c.lh) && c.at.Keys == c.pin && |c.pin| == n && Idle(c) && c.cur == disk
    requires v < NBUF && !d.committing && d.disk == disk && d.cur == disk
    requires d.lh == c.lh + [base + n] && d.pin == c.pin + {base + n} && d.at == c.at[base + n := v]
    requires |d.bufs| == NBUF && d.bufs == c.bufs[v := d.bufs[v]] && d.bufs[v].refcnt == 0 && d.bufs[v].hold == Unlocked
    ensures Loaded(d, disk, base, n + 1)
  {
    OneNumber(base, n);
  }

  lemma OneNumber(base: nat, n: nat)
    ensures Numbers(base, n + 1) == Numbers(base, n) + [base + n] && base + n !in Numbers(base, n)
    ensures Names(Numbers(base, n + 1)) == Names(Numbers(base, n)) + {base + n}
  {
    assert Numbers(base, n + 1) == Numbers(base, n) + [base + n];
  }

  /** bread, log_write, brelse of the next block. */
  lemma LogOne(c0: Cache, run: seq<Step>, c: Cache, disk: Disk, base: nat, n: nat) returns (more: seq<Step>, d: Cache)
    requires Way(c0, run, c) && Loaded(c, disk, base, n) && n < NBUF && base + n < |disk|
    ensures Way(c0, more, d) && Loaded(d, disk, base, n + 1)
  {
    var v := 0;
    assert base + n !in c.lh;
    more, d, v := ReadOne(c0, run, c, disk, base, n, base + n);
    more, d := PinOne(c0, more, d, v, base + n);
    more, d := ReleaseOne(c0, more, d, v);
    LoadedNext(c, d, disk, base, n, v);
  }

  lemma {:induction false} LogMany(disk: Disk, base: nat, n: nat) returns (run: seq<Step>, c: Cache)
    requires n <= NBUF && base + n <= |disk|
    ensures Way(Boot(disk), run, c) && Loaded(c, disk, base, n)
    decreases n
  {
    BootInv(disk);
    if n == 0 {
      run, c := [], Boot(disk);
      WayIs(c, run, c);
    } else {
      run, c := LogMany(disk, base, n - 1);
      run, c := LogOne(Boot(disk), run, c, disk, base, n - 1);
    }
  }

  /** From boot, log NBUF - 1 blocks and let one more process read another block: everything that commit
      asks for holds, every buffer is taken, and bget of any log block panics. */
  lemma CommitCanPanic(g: Geometry, disk: Disk, base: nat) returns (run: seq<Step>, c: Cache, theirs: seq<nat>)
    requires g.Fits(disk) && NBUF <= g.size && base + NBUF <= |disk| < 0x1_0000_0000 && g.start + g.size <= base
    ensures Reaches(Boot(disk), run, c) && Inv(c) && !c.committing && NoWriters(c) && |c.lh| == NBUF - 1
    ensures Quiet(g, c, theirs, {}) && (forall i | 0 <= i < |c.lh| :: c.lh[i] < |c.cur|) && Committable(g, c, Batch(c.lh, c.cur))
    ensures |Taken(c, theirs)| == NBUF
    ensures forall slot: nat | g.InLog(slot) :: Do(c, Get(slot)).Panic?
  {
    var n := NBUF - 1;
    var d, v := Boot(disk), 0;
    run, d := LogMany(disk, base, n);
    run, c, v := ReadOne(Boot(disk), run, d, disk, base, n, base + n);
    theirs := seq(NBUF, x => 0)[v := 1];
    Commits(g, d, c, disk, base, n, v, theirs);
    WayIs(Boot(disk), run, c);
    FullyTaken(c, v, theirs);
    LogPanics(g, c, theirs);
  }

  /** What commit asks for. */
  lemma Commits(g: Geometry, d: Cache, c: Cache, disk: Disk, base: nat, n: nat, v: nat, theirs: seq<nat>)
    requires g.Fits(disk) && g.start + g.size <= base && n < g.size && n <= LOGSIZE && base + n < |disk| < 0x1_0000_0000
    requires Loaded(d, disk, base, n) && v < NBUF && d.bufs[v].dev == 0
    requires c == d.(bufs := d.bufs[v := Buf(ROOTDEV, base + n, true, false, 1, Settled, disk[base + n])], at := d.at[base + n := v])
    requires theirs == seq(NBUF, x => 0)[v := 1]
    ensures NoWriters(c) && Quiet(g, c, theirs, {}) && (forall i | 0 <= i < |c.lh| :: c.lh[i] < |c.cur|)
    ensures Committable(g, c, Batch(c.lh, c.cur))
  {
    assert base + n !in c.lh;
  }

  lemma LogPanics(g: Geometry, c: Cache, theirs: seq<nat>)
    requires Inv(c) && NoWriters(c) && Quiet(g, c, theirs, {}) && |Taken(c, theirs)| == NBUF
    requires g.Fits(c.disk) && forall k | k in c.at :: !g.InLog(k)
    ensures forall slot: nat | g.InLog(slot) :: Do(c, Get(slot)).Panic?
  {
    NoSpare(c, theirs);
    forall slot: nat | g.InLog(slot)
      ensures Do(c, Get(slot)).Panic?
    {
      GetPanicsWhen(c, slot);
    }
  }

  lemma FullyTaken(c: Cache, v: nat, theirs: seq<nat>)
    requires Inv(c) && |c.pin| == NBUF - 1 && v < NBUF && c.bufs[v].bno !in c.pin && theirs == seq(NBUF, x => 0)[v := 1]
    ensures |Taken(c, theirs)| == NBUF
  {
    forall k | k in c.pin
      ensures k in c.at && CachedOk(c, k) && c.at[k] != v
    {
      assert BlockOk(c, k) && CachedOk(c, k);
    }
    ImageExact(c.at, c.pin);
    assert Referenced(theirs) == {v};
    assert v !in LogCommit.Image(c.at, c.pin);
  }

  lemma NoSpare(c: Cache, theirs: seq<nat>)
    requires Inv(c) && |theirs| == NBUF && NoWriters(c) && |Taken(c, theirs)| == NBUF && Refs(c, theirs, {})
    ensures forall x: nat | x < NBUF :: c.bufs[x].refcnt > 0 || c.bufs[x].dirty
  {
    RoomIs(c, theirs);
    RoomOpens(c.bufs, theirs);
    forall x: nat | x < NBUF
      ensures c.bufs[x].refcnt > 0 || c.bufs[x].dirty
    {
      assert !Spare(c.bufs, theirs, x);
    }
  }
}
