/** The layers together: a file write in the cache, its commit, a crash, and the recovery; and the promise
    filewrite keeps to the log. */
module StorageStack {
  import opened Blocks
  import opened Params
  import opened RedoLog
  import BufCache
  import opened LogCommit
  import LogSpace
  import opened FsCodec
  import opened FsState
  import opened FsOps

  // ----- What a disk says about its files

  /** The file system read from a disk alone: the free map and the inodes are decoded from it. */
  ghost function ReadBack(l: Layout, d: Disk, own: seq<Owner>): (fs: Fs)
    requires l.Ok() && |d| == |own| == l.size
    ensures Sizes(l, fs) && OnDisk(l, fs, -1)
  {
    Fs(d, seq(l.size, b requires 0 <= b < l.size => MapBit(l, d, b)),
       seq(l.ninodes, i requires 0 <= i < l.ninodes => DiskInode(l, d, i)), own)
  }

  /** The log lies below the inodes, as mkfs lays the disk out. */
  predicate LogBelow(g: Geometry, l: Layout) { g.start + g.size <= l.inodestart }

  lemma SameTables(l: Layout, g: Geometry, fs: Fs, d: Disk)
    requires LogBelow(g, l) && Kept(l, fs, -1) && Sizes(l, fs) && SameHome(g, d, fs.blk)
    ensures ReadBack(l, d, fs.own).used == fs.used && ReadBack(l, d, fs.own).ino == fs.ino
  {
    assert KeptBehind(l, fs, -1, 0);
    forall b: nat | b < l.size
      ensures MapBit(l, d, b) == fs.used[b]
    {
      MapBlockIsMeta(l, b);
    }
    forall i: nat | i < l.ninodes
      ensures DiskInode(l, d, i) == fs.ino[i]
    {
      InodeBlockIsMeta(l, i);
    }
  }

  lemma SamePointers(l: Layout, g: Geometry, fs: Fs, u: Fs, j: nat, m: nat)
    requires LogBelow(g, l) && Owned(l, fs) && Sizes(l, u) && u.ino == fs.ino && SameHome(g, u.blk, fs.blk)
    requires j < l.ninodes && m < PTRS
    ensures Ptr(l, u, j, m) == Ptr(l, fs, j, m)
  {
    if fs.ino[j].addrs[INDIRECT] != 0 {
      IndirectOf(l, fs, j);
    }
    PtrFrame(l, fs, u, j, m);
  }

  /** A disk that agrees outside the log region holds the same file system. */
  lemma SameSystem(l: Layout, g: Geometry, fs: Fs, d: Disk)
    requires LogBelow(g, l) && Kept(l, fs, -1) && Sizes(l, fs) && SameHome(g, d, fs.blk)
    ensures Kept(l, ReadBack(l, d, fs.own), -1)
  {
    assert KeptBehind(l, fs, -1, 0);
    SameTables(l, g, fs, d);
    var u := ReadBack(l, d, fs.own);
    forall b: nat | b < l.size
      ensures BlockOk(l, u, b)
    {
      assert BlockOk(l, fs, b);
      if fs.own[b].Slot? {
        SamePointers(l, g, fs, u, fs.own[b].i, fs.own[b].k);
      }
    }
    forall i: nat, k: nat | i < l.ninodes && k < PTRS
      ensures PtrOk(l, u, i, k)
    {
      assert PtrOk(l, fs, i, k);
      SamePointers(l, g, fs, u, i, k);
    }
    assert KeptBehind(l, u, -1, 0);
  }

  lemma SameContents(l: Layout, g: Geometry, fs: Fs, d: Disk, j: nat)
    requires LogBelow(g, l) && Kept(l, fs, -1) && Sizes(l, fs) && SameHome(g, d, fs.blk) && j < l.ninodes && NoHoles(l, fs, j)
    ensures NoHoles(l, ReadBack(l, d, fs.own), j) && Contents(l, ReadBack(l, d, fs.own), j) == Contents(l, fs, j)
  {
    assert KeptBehind(l, fs, -1, 0);
    SameTables(l, g, fs, d);
    var u := ReadBack(l, d, fs.own);
    forall n: nat | n < MAXFILE
      ensures DataBlock(l, u, j, n) == DataBlock(l, fs, j, n)
    {
      SamePointers(l, g, fs, u, j, DataSlot(n));
    }
    forall x: nat | x < fs.ino[j].size
      ensures FileByte(l, u, j, x) == FileByte(l, fs, j, x)
    {
      var b := DataBlock(l, fs, j, x / BSIZE);
      assert b != 0;
      assert PtrOk(l, fs, j, DataSlot(x / BSIZE)) && BlockOk(l, fs, b);
    }
  }

  /** After a crash during commit the disk agrees with the one that was there, or with the one the cache holds. */
  lemma CrashLeaves(g: Geometry, c: BufCache.Cache, batch: seq<Entry>, k: nat, before: Disk, after: Disk)
    requires BufCache.Inv(c) && !c.committing && Committable(g, c, batch) && Clean(g, c.disk)
    requires SameHome(g, c.disk, before) && SameHome(g, c.cur, after) && k <= |CommitWrites(g, c.disk, batch)|
    ensures var d := Apply(c.disk, CommitWrites(g, c.disk, batch)[..k]);
            HeaderOk(g, d) && SameHome(g, Recover(g, d), if k > |batch| then after else before)
  {
    CrashSeesStore(g, c, batch, k);
  }

  // ----- From log_write to the store

  /** No bwrite and no commit: what processes do between begin_op and end_op, and readers at any time. */
  predicate Plain(s: BufCache.Step) {
    s.Get? || s.Lock? || s.Fill? || s.Change? || s.LogWrite? || s.Unlock? || s.Drop?
  }

  /** What the steps give to log_write, in order. */
  ghost function Logs(c: BufCache.Cache, run: seq<BufCache.Step>): seq<Write>
    requires BufCache.Inv(c)
    decreases |run|
  {
    if run == [] || !BufCache.Enabled(c, run[0]) || !BufCache.Do(c, run[0]).Next? then []
    else
      BufCache.StepKeepsInv(c, run[0]);
      LogsOf(c, run[0]) + Logs(BufCache.Do(c, run[0]).c, run[1..])
  }

  function LogsOf(c: BufCache.Cache, s: BufCache.Step): seq<Write> {
    if s.LogWrite? && s.x < |c.bufs| then [Write(c.bufs[s.x].bno, c.bufs[s.x].data)] else []
  }

  /** The cache stands for the blocks as those writes leave them, and the header names exactly them. */
  ghost predicate Follows(c: BufCache.Cache, d: BufCache.Cache, ws: seq<Write>) {
    && !d.committing && d.disk == c.disk && d.cur == Apply(c.cur, ws)
    && (forall b :: b in d.lh <==> b in c.lh || Writes(ws, b))
    && (NoTwice(c.lh) ==> NoTwice(d.lh))
  }

  ghost predicate Writes(ws: seq<Write>, b: nat) { exists i :: 0 <= i < |ws| && ws[i].bno == b }

  predicate NoTwice(s: seq<nat>) { forall i, j | 0 <= i < j < |s| :: s[i] != s[j] }

  lemma StepLogs(c: BufCache.Cache, s: BufCache.Step)
    requires BufCache.Inv(c) && !c.committing && Plain(s) && BufCache.Enabled(c, s) && BufCache.Do(c, s).Next?
    ensures Follows(c, BufCache.Do(c, s).c, LogsOf(c, s))
  {
    var d, ws := BufCache.Do(c, s).c, LogsOf(c, s);
    if s.LogWrite? {
      assert BufCache.BufOk(c, s.x);
      assert ws[0].bno == c.bufs[s.x].bno;
      assert ws[1..] == [];
      assert forall b :: Writes(ws, b) <==> b == c.bufs[s.x].bno;
    } else {
      assert ws == [] && d.lh == c.lh && d.cur == c.cur;
    }
  }

  lemma FollowsThen(c: BufCache.Cache, d: BufCache.Cache, e: BufCache.Cache, v: seq<Write>, w: seq<Write>)
    requires Follows(c, d, v) && Follows(d, e, w)
    ensures Follows(c, e, v + w)
  {
    ApplyConcat(c.cur, v, w);
    forall b
      ensures Writes(v + w, b) <==> Writes(v, b) || Writes(w, b)
    {
      if i :| 0 <= i < |v| && v[i].bno == b {
        assert (v + w)[i].bno == b;
      }
      if i :| 0 <= i < |w| && w[i].bno == b {
        assert (v + w)[|v| + i].bno == b;
      }
    }
  }

  /** Over every interleaving of the processes on the cache. */
  lemma {:induction false} RunLogs(c: BufCache.Cache, run: seq<BufCache.Step>, d: BufCache.Cache)
    requires BufCache.Inv(c) && !c.committing && BufCache.Reaches(c, run, d) && forall k | 0 <= k < |run| :: Plain(run[k])
    ensures BufCache.Inv(d) && Follows(c, d, Logs(c, run))
    decreases |run|
  {
    if run == [] {
      assert forall b :: !Writes([], b);
    } else {
      var u := BufCache.Do(c, run[0]).c;
      assert Plain(run[0]);
      StepLogs(c, run[0]);
      BufCache.StepKeepsInv(c, run[0]);
      RunLogs(u, run[1..], d);
      FollowsThen(c, u, d, LogsOf(c, run[0]), Logs(u, run[1..]));
    }
  }

  // ----- From the operations of fs.c to the writes

  /** Between two moments, the blocks change by the writes recorded in between. */
  lemma Since(l: Layout, boot: Disk, w0: seq<Write>, b0: Disk, w1: seq<Write>, b1: Disk)
    requires Recorded(l, boot, w0, b0) && Recorded(l, boot, w1, b1) && w0 <= w1
    ensures var ws := w1[|w0|..];
            b1 == Apply(b0, ws) && forall k | 0 <= k < |ws| :: l.inodestart <= ws[k].bno < |b0|
  {
    RecordedIs(l, boot, w0, b0);
    RecordedIs(l, boot, w1, b1);
    assert w1 == w0 + w1[|w0|..];
    ApplyConcat(boot, w0, w1[|w0|..]);
  }

  /** The operations of one transaction took the file system from fs to t by the log_writes ws, and every
      process together gave the cache just those, in that order, since the last commit. */
  ghost predicate Transaction(l: Layout, g: Geometry, fs: Fs, t: Fs, ws: seq<Write>,
                              c: BufCache.Cache, run: seq<BufCache.Step>, d: BufCache.Cache)
  {
    && LogBelow(g, l) && Kept(l, fs, -1) && Kept(l, t, -1) && Sizes(l, fs) && Sizes(l, t)
    && t.blk == Apply(fs.blk, ws) && (forall k | 0 <= k < |ws| :: l.inodestart <= ws[k].bno < |fs.blk|)
    && BufCache.Inv(c) && !c.committing && c.lh == [] && Clean(g, c.disk) && SameHome(g, c.disk, fs.blk)
    && BufCache.Reaches(c, run, d) && (forall k | 0 <= k < |run| :: Plain(run[k])) && Logs(c, run) == ws
    && |d.lh| <= LOGSIZE && |d.lh| < g.size
  }

  /** Writes that stay above the log do the same to the homes of both disks. */
  lemma SameWrites(g: Geometry, a: Disk, b: Disk, ws: seq<Write>)
    requires SameHome(g, a, b)
    ensures SameHome(g, Apply(a, ws), Apply(b, ws))
  {
    forall x: nat | x < |a| && !g.InLog(x)
      ensures Apply(a, ws)[x] == Apply(b, ws)[x]
    {
      ApplyAt(a, b, ws, x);
      ApplyAt(b, a, ws, x);
    }
  }

  lemma StoreAtStart(c: BufCache.Cache)
    requires BufCache.Inv(c) && !c.committing && c.lh == []
    ensures c.cur == c.disk
  {
    forall k: nat | k < |c.disk|
      ensures c.cur[k] == c.disk[k]
    {
      assert BufCache.BlockOk(c, k);
    }
  }

  /** So commit finds what it asks for: the store agrees with t, and the logged blocks are a transaction. */
  lemma TransactionCommits(l: Layout, g: Geometry, fs: Fs, t: Fs, ws: seq<Write>,
                           c: BufCache.Cache, run: seq<BufCache.Step>, d: BufCache.Cache)
    requires Transaction(l, g, fs, t, ws, c, run, d)
    ensures BufCache.Inv(d) && !d.committing && d.disk == c.disk && SameHome(g, d.cur, t.blk)
    ensures (forall i | 0 <= i < |d.lh| :: d.lh[i] < |d.cur|) && Committable(g, d, Batch(d.lh, d.cur))
  {
    RunLogs(c, run, d);
    StoreAtStart(c);
    SameWrites(g, c.cur, fs.blk, ws);
    forall i | 0 <= i < |d.lh|
      ensures d.lh[i] < |d.cur| && d.lh[i] < 0x1_0000_0000 && !g.InLog(d.lh[i])
    {
      assert d.lh[i] in d.lh;
      assert Writes(ws, d.lh[i]);
    }
  }

  /** Crash safety of the whole stack, for any number of operations in one transaction: cut commit after any
      k of its disk writes and recover. The disk that recovery leaves holds, read by itself, a consistent
      file system in which every file is as before the transaction, or, once the header was written, every
      file is as the operations left it. */
  lemma FilesSurviveCrash(l: Layout, g: Geometry, fs: Fs, t: Fs, ws: seq<Write>,
                          c: BufCache.Cache, run: seq<BufCache.Step>, d: BufCache.Cache, k: nat, j: nat)
    requires Transaction(l, g, fs, t, ws, c, run, d) && j < l.ninodes
    requires (TransactionCommits(l, g, fs, t, ws, c, run, d); k <= |CommitWrites(g, d.disk, Batch(d.lh, d.cur))|)
    ensures (TransactionCommits(l, g, fs, t, ws, c, run, d);
             var batch := Batch(d.lh, d.cur);
             var e := Apply(d.disk, CommitWrites(g, d.disk, batch)[..k]);
             var side := if k > |batch| then t else fs;
             && HeaderOk(g, e) && |Recover(g, e)| == l.size
             && var u := ReadBack(l, Recover(g, e), side.own);
             && Kept(l, u, -1) && (NoHoles(l, side, j) ==> NoHoles(l, u, j) && Contents(l, u, j) == Contents(l, side, j)))
  {
    TransactionCommits(l, g, fs, t, ws, c, run, d);
    var batch := Batch(d.lh, d.cur);
    CrashLeaves(g, d, batch, k, fs.blk, t.blk);
    var e := Apply(d.disk, CommitWrites(g, d.disk, batch)[..k]);
    ReadsAs(l, g, if k > |batch| then t else fs, Recover(g, e), j);
  }

  lemma ReadsAs(l: Layout, g: Geometry, x: Fs, r: Disk, j: nat)
    requires LogBelow(g, l) && Kept(l, x, -1) && Sizes(l, x) && SameHome(g, r, x.blk) && j < l.ninodes
    ensures |r| == l.size
    ensures var u := ReadBack(l, r, x.own);
            Kept(l, u, -1) && (NoHoles(l, x, j) ==> NoHoles(l, u, j) && Contents(l, u, j) == Contents(l, x, j))
  {
    SameSystem(l, g, x, r);
    if NoHoles(l, x, j) {
      SameContents(l, g, x, r, j);
    }
  }

  /** One write: spliced, or not there at all. */
  lemma WriteIsAtomic(l: Layout, g: Geometry, fs: Fs, t: Fs, i: nat, off: nat, src: seq<byte>, ws: seq<Write>,
                      c: BufCache.Cache, run: seq<BufCache.Step>, d: BufCache.Cache, k: nat, j: nat)
    requires Transaction(l, g, fs, t, ws, c, run, d) && FinishedWrite(l, fs, t, i, off, src)
    requires j < l.ninodes && NoHoles(l, fs, j)
    requires (TransactionCommits(l, g, fs, t, ws, c, run, d); k <= |CommitWrites(g, d.disk, Batch(d.lh, d.cur))|)
    ensures (TransactionCommits(l, g, fs, t, ws, c, run, d);
             var batch := Batch(d.lh, d.cur);
             var e := Apply(d.disk, CommitWrites(g, d.disk, batch)[..k]);
             && HeaderOk(g, e) && |Recover(g, e)| == l.size
             && var u := ReadBack(l, Recover(g, e), if k > |batch| then t.own else fs.own);
             && Kept(l, u, -1) && NoHoles(l, u, j)
             && Contents(l, u, j) ==
                if k > |batch| && j == i then Overwrite(Contents(l, fs, i), off, src) else Contents(l, fs, j))
  {
    FilesSurviveCrash(l, g, fs, t, ws, c, run, d, k, j);
  }

  // ----- The promise to the log

  function Named(s: LogSpace.Space): set<nat> { set b | b in s.block }

  /** The operation of process p has added no more new blocks than it has blocks of `mine` in the log. */
  predicate Modest(s: LogSpace.Space, p: nat, mine: set<nat>) {
    p < |s.ops| && (s.ops[p].Active? ==> s.ops[p].spent <= |mine * Named(s)|)
  }

  /** An operation that logs at most MAXOPBLOCKS different blocks never exceeds its promise: its next
      log_write is one the reservation allows. */
  lemma PromiseKept(s: LogSpace.Space, p: nat, mine: set<nat>, b: nat)
    requires Modest(s, p, mine) && s.ops[p].Active? && b in mine && |mine| <= MAXOPBLOCKS
    ensures LogSpace.Enabled(s, LogSpace.LogWrite(p, b))
  {
    if b !in s.block {
      SubsetSize((mine * Named(s)) + {b}, mine);
    }
  }

  lemma NewlyNamed(a: seq<nat>, c: seq<nat>, b: nat, mine: set<nat>)
    requires c == if b in a then a else a + [b]
    ensures var m, n := set x | x in a, set x | x in c;
            |mine * n| == |mine * m| + if b in mine && b !in a then 1 else 0
  {
    var m, n := set x | x in a, set x | x in c;
    if b in mine && b !in a {
      assert mine * n == mine * m + {b};
    } else {
      assert mine * n == mine * m;
    }
  }

  /** And that stays so whatever the other processes do, as long as it logs no other blocks. */
  lemma StaysModest(s: LogSpace.Space, nlog: nat, step: LogSpace.Step, p: nat, mine: set<nat>)
    requires LogSpace.Inv(s) && LogSpace.Enabled(s, step) && LogSpace.Do(s, nlog, step).Next? && Modest(s, p, mine)
    requires step.LogWrite? && step.p == p ==> step.b in mine
    ensures Modest(LogSpace.Do(s, nlog, step).s, p, mine)
  {
    var t := LogSpace.Do(s, nlog, step).s;
    match step
    case LogWrite(q, b) => NewlyNamed(s.block, t.block, b, mine);
    case CommitDone =>
      if s.ops[p].Active? {
        LogSpace.ActiveIsCounted(s.ops, p);
      }
    case Begin(_) =>
    case End(_) =>
  }
}
