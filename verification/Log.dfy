/** The write-ahead redo log of log.c over a disk of atomic, ordered block writes. */
module RedoLog {
  import opened Blocks
  import opened Params

  type Disk = seq<Block>

  datatype Write = Write(bno: nat, data: Block)

  /** One block of a transaction: home location and the cached contents. */
  datatype Entry = Entry(bno: nat, data: Block)

  /** Where the log lives: header at `start`, then `size - 1` data slots. */
  datatype Geometry = Geometry(start: nat, size: nat) {
    predicate InLog(b: nat) { start <= b < start + size }

    function Slot(i: nat): nat { start + 1 + i }

    predicate Fits(d: Disk) { 0 < size && start + size <= |d| }
  }

  // ----- Disk writes and crashes

  /** The disk after the writes `ws`; a crash leaves `Apply(d, ws[..k])` for some k.
      (A write past the end of the disk panics in `iderw`; no valid batch contains one.) */
  function Apply(d: Disk, ws: seq<Write>): (r: Disk)
    ensures |r| == |d|
  {
    if ws == [] then d
    else
      var last := ws[|ws| - 1];
      var r := Apply(d, ws[..|ws| - 1]);
      if last.bno < |d| then r[last.bno := last.data] else r
  }

  lemma SplitPrefix<T>(s: seq<T>, m: nat, k: nat)
    requires m <= k <= |s|
    ensures s[..k] == s[..m] + s[m..][..k - m]
  {}

  lemma {:induction false} ApplyConcat(d: Disk, xs: seq<Write>, ys: seq<Write>)
    ensures Apply(d, xs + ys) == Apply(Apply(d, xs), ys)
  {
    if ys == [] {
      assert xs + ys == xs;
    } else {
      assert (xs + ys)[..|xs + ys| - 1] == xs + ys[..|ys| - 1];
      ApplyConcat(d, xs, ys[..|ys| - 1]);
    }
  }

  /** A block that `ws` writes ends up the same whatever the disk held before;
      a block that `ws` does not write is untouched. */
  lemma {:induction false} ApplyAt(d1: Disk, d2: Disk, ws: seq<Write>, b: nat)
    requires |d1| == |d2| && b < |d1|
    ensures (exists i :: 0 <= i < |ws| && ws[i].bno == b) ==> Apply(d1, ws)[b] == Apply(d2, ws)[b]
    ensures (forall i | 0 <= i < |ws| :: ws[i].bno != b) ==> Apply(d1, ws)[b] == d1[b]
  {
    if ws != [] {
      var n := |ws| - 1;
      assert ws == ws[..n] + [ws[n]];
      ApplyAt(d1, d2, ws[..n], b);
    }
  }

  /** Redo is idempotent: doing some of the writes first does not change where they lead. */
  lemma ReapplyPrefix(d: Disk, ws: seq<Write>, k: nat)
    requires k <= |ws|
    ensures Apply(Apply(d, ws[..k]), ws) == Apply(d, ws)
  {
    var d' := Apply(d, ws[..k]);
    forall b: nat | b < |d|
      ensures Apply(d', ws)[b] == Apply(d, ws)[b]
    {
      ApplyAt(d, d', ws, b);
      ApplyAt(d', d, ws, b);
      ApplyAt(d, d, ws[..k], b);
    }
  }

  // ----- The on-disk header

  /** `write_head`'s loop: entry i goes to word i + 1, the rest of the block is kept. */
  function PutBlockNumbers(b: Block, es: seq<word>): (r: Block)
    requires |es| <= LOGSIZE
    ensures Word(r, 0) == Word(b, 0)
    ensures forall j: nat :: 1 <= j <= |es| ==> Word(r, j) == es[j - 1]
  {
    if es == [] then b
    else
      var n := |es| - 1;
      PutWord(PutBlockNumbers(b, es[..n]), n + 1, es[n])
  }

  function HeaderBlock(b: Block, es: seq<word>): (r: Block)
    requires |es| <= LOGSIZE
    ensures Word(r, 0) == |es|
    ensures forall j: nat :: 1 <= j <= |es| ==> Word(r, j) == es[j - 1]
  {
    PutBlockNumbers(PutWord(b, 0, |es|), es)
  }

  /** The header on disk is one that `read_head` and `install_trans` can follow. */
  predicate HeaderOk(g: Geometry, d: Disk) {
    && g.Fits(d)
    && var n := Word(d[g.start], 0);
    && n <= LOGSIZE && n < g.size
    && forall j: nat | 1 <= j <= n :: Word(d[g.start], j) < |d| && !g.InLog(Word(d[g.start], j))
  }

  function Logged(g: Geometry, d: Disk): (bs: seq<word>)
    requires HeaderOk(g, d)
    ensures |bs| == Word(d[g.start], 0) <= LOGSIZE && |bs| < g.size
    ensures forall i: nat :: i < |bs| ==> bs[i] == Word(d[g.start], i + 1)
    ensures forall b | b in bs :: b < |d| && !g.InLog(b)
  {
    seq(Word(d[g.start], 0), i requires 0 <= i < Word(d[g.start], 0) => Word(d[g.start], i + 1))
  }

  predicate Clean(g: Geometry, d: Disk) { g.Fits(d) && Word(d[g.start], 0) == 0 }

  // ----- Recovery

  function HomeWrites(batch: seq<Entry>): (ws: seq<Write>)
    ensures |ws| == |batch|
    ensures forall i | 0 <= i < |ws| :: ws[i] == Write(batch[i].bno, batch[i].data)
  {
    seq(|batch|, i requires 0 <= i < |batch| => Write(batch[i].bno, batch[i].data))
  }

  /** The transaction the on-disk log holds: the home blocks its header names, the data in its slots. */
  function LogBatch(g: Geometry, d: Disk): (batch: seq<Entry>)
    requires HeaderOk(g, d)
    ensures |batch| == |Logged(g, d)|
    ensures forall i: nat | i < |batch| :: batch[i] == Entry(Logged(g, d)[i], d[g.Slot(i)])
    ensures forall e | e in batch :: e.bno < |d| && !g.InLog(e.bno)
  {
    var bs := Logged(g, d);
    assert forall i | 0 <= i < |bs| :: bs[i] in bs;
    seq(|bs|, i requires 0 <= i < |bs| => Entry(bs[i], d[g.Slot(i)]))
  }

  /** Everything `recover_from_log` writes, in order. */
  function RecoveryWrites(g: Geometry, d: Disk): (ws: seq<Write>)
    requires HeaderOk(g, d)
    ensures |ws| == |Logged(g, d)| + 1
  {
    HomeWrites(LogBatch(g, d)) + [Write(g.start, HeaderBlock(d[g.start], []))]
  }

  function Recover(g: Geometry, d: Disk): (r: Disk)
    requires HeaderOk(g, d)
    ensures |r| == |d|
  {
    Apply(d, RecoveryWrites(g, d))
  }

  ghost predicate SameHome(g: Geometry, d1: Disk, d2: Disk) {
    |d1| == |d2| && forall b: nat | b < |d1| && !g.InLog(b) :: d1[b] == d2[b]
  }

  ghost predicate SameLog(g: Geometry, d1: Disk, d2: Disk) {
    |d1| == |d2| && forall b: nat | b < |d1| && g.InLog(b) :: d1[b] == d2[b]
  }

  /** Writes that miss the log region leave the log as it was. */
  lemma HomeWritesKeepLog(g: Geometry, d: Disk, ws: seq<Write>)
    requires forall i | 0 <= i < |ws| :: !g.InLog(ws[i].bno)
    ensures SameLog(g, d, Apply(d, ws))
  {
    forall b: nat | b < |d| && g.InLog(b)
      ensures Apply(d, ws)[b] == d[b]
    {
      ApplyAt(d, d, ws, b);
    }
  }

  lemma LogWritesKeepHome(g: Geometry, d: Disk, ws: seq<Write>)
    requires forall i | 0 <= i < |ws| :: g.InLog(ws[i].bno)
    ensures SameHome(g, d, Apply(d, ws))
  {
    forall b: nat | b < |d| && !g.InLog(b)
      ensures Apply(d, ws)[b] == d[b]
    {
      ApplyAt(d, d, ws, b);
    }
  }

  /** Recovery depends on the log region and on the home blocks it does not overwrite. */
  lemma RecoverWithSameLog(g: Geometry, d1: Disk, d2: Disk)
    requires HeaderOk(g, d1) && g.Fits(d2) && SameLog(g, d1, d2)
    ensures HeaderOk(g, d2) && LogBatch(g, d1) == LogBatch(g, d2)
    ensures RecoveryWrites(g, d1) == RecoveryWrites(g, d2)
  {
    assert g.InLog(g.start);
    assert d1[g.start] == d2[g.start];
    forall i | 0 <= i < |Logged(g, d1)|
      ensures d1[g.Slot(i)] == d2[g.Slot(i)]
    {
      assert g.InLog(g.Slot(i));
    }
  }

  lemma CleanRecovery(g: Geometry, d: Disk)
    requires Clean(g, d)
    ensures HeaderOk(g, d) && SameHome(g, d, Recover(g, d)) && Clean(g, Recover(g, d))
  {
    assert HomeWrites(LogBatch(g, d)) == [];
    LogWritesKeepHome(g, d, RecoveryWrites(g, d));
  }

  lemma RecoverLeavesClean(g: Geometry, d: Disk)
    requires HeaderOk(g, d)
    ensures Clean(g, Recover(g, d))
  {
    var ws := RecoveryWrites(g, d);
    assert Apply(d, ws) == Apply(d, ws[..|ws| - 1])[g.start := HeaderBlock(d[g.start], [])];
  }

  /** A recovery cut after any number of its writes can be started over:
      the second recovery reaches the same home blocks as the first would have. */
  lemma RecoveryRestarts(g: Geometry, d: Disk, k: nat)
    requires HeaderOk(g, d) && k <= |RecoveryWrites(g, d)|
    ensures var d' := Apply(d, RecoveryWrites(g, d)[..k]);
            HeaderOk(g, d') && SameHome(g, Recover(g, d), Recover(g, d'))
  {
    var ws := RecoveryWrites(g, d);
    var n := |ws| - 1;
    var d' := Apply(d, ws[..k]);
    if k == |ws| {
      assert ws[..k] == ws;
      RecoverLeavesClean(g, d);
      CleanRecovery(g, d');
    } else {
      HomeWritesKeepLog(g, d, ws[..k]);
      RecoverWithSameLog(g, d, d');
      ReapplyPrefix(d, ws, k);
    }
  }

  // ----- Commit

  predicate ValidBatch(g: Geometry, d: Disk, batch: seq<Entry>) {
    && |batch| <= LOGSIZE && |batch| < g.size
    && (forall e | e in batch :: e.bno < |d| && e.bno < 0x1_0000_0000 && !g.InLog(e.bno))
    && forall i, j | 0 <= i < j < |batch| :: batch[i].bno != batch[j].bno
  }

  function BlockNumbers(batch: seq<Entry>): (bs: seq<word>)
    requires forall e | e in batch :: e.bno < 0x1_0000_0000
    ensures |bs| == |batch| && forall i | 0 <= i < |bs| :: bs[i] == batch[i].bno
  {
    seq(|batch|, i requires 0 <= i < |batch| => assert batch[i] in batch; batch[i].bno)
  }

  /** `write_log`: the cached blocks, in log order. */
  function SlotWrites(g: Geometry, batch: seq<Entry>): (ws: seq<Write>)
    ensures |ws| == |batch|
    ensures forall i | 0 <= i < |ws| :: ws[i] == Write(g.Slot(i), batch[i].data)
  {
    seq(|batch|, i requires 0 <= i < |batch| => Write(g.Slot(i), batch[i].data))
  }

  /** Everything `commit` writes, in order; the write at index |batch| is the commit point. */
  function CommitWrites(g: Geometry, d: Disk, batch: seq<Entry>): (ws: seq<Write>)
    requires g.Fits(d) && ValidBatch(g, d, batch)
    ensures |ws| == if batch == [] then 0 else 2 * |batch| + 2
  {
    if batch == [] then []
    else
      var head := HeaderBlock(d[g.start], BlockNumbers(batch));
      SlotWrites(g, batch) + [Write(g.start, head)] + HomeWrites(batch) + [Write(g.start, HeaderBlock(head, []))]
  }

  /** The home blocks once `batch` is in place. */
  function Installed(d: Disk, batch: seq<Entry>): (r: Disk)
    ensures |r| == |d|
  {
    Apply(d, HomeWrites(batch))
  }

  /** All-new means what it says: every entry at its home, everything else old. */
  lemma InstalledContents(g: Geometry, d: Disk, batch: seq<Entry>, b: nat)
    requires g.Fits(d) && ValidBatch(g, d, batch) && b < |d|
    ensures forall i | 0 <= i < |batch| :: Installed(d, batch)[batch[i].bno] == batch[i].data
    ensures (forall e | e in batch :: e.bno != b) ==> Installed(d, batch)[b] == d[b]
  {
    ApplyAt(d, d, HomeWrites(batch), b);
    InstalledEntries(g, d, batch);
  }

  lemma {:induction false} InstalledEntries(g: Geometry, d: Disk, batch: seq<Entry>)
    requires g.Fits(d) && ValidBatch(g, d, batch)
    ensures forall i | 0 <= i < |batch| :: Installed(d, batch)[batch[i].bno] == batch[i].data
  {
    if batch != [] {
      var n := |batch| - 1;
      InstalledEntries(g, d, batch[..n]);
      assert HomeWrites(batch)[..n] == HomeWrites(batch[..n]);
    }
  }

  /** A header block that holds the numbers of `batch` makes recovery follow `batch`. */
  lemma HeaderNames(g: Geometry, d: Disk, d1: Disk, batch: seq<Entry>, h: Block)
    requires ValidBatch(g, d, batch) && |d1| == |d| && g.Fits(d1)
    requires d1[g.start] == HeaderBlock(h, BlockNumbers(batch))
    ensures HeaderOk(g, d1) && Logged(g, d1) == BlockNumbers(batch)
  {
    var head := d1[g.start];
    forall j: nat | 1 <= j <= |batch|
      ensures Word(head, j) == batch[j - 1].bno < |d1| && !g.InLog(Word(head, j))
    {
      assert batch[j - 1] in batch;
    }
  }

  lemma CommitParts(g: Geometry, d: Disk, batch: seq<Entry>)
    requires g.Fits(d) && ValidBatch(g, d, batch) && batch != []
    ensures var ws, n := CommitWrites(g, d, batch), |batch|;
            var head := HeaderBlock(d[g.start], BlockNumbers(batch));
            && ws[..n + 1] == SlotWrites(g, batch) + [ws[n]]
            && ws[n] == Write(g.start, head)
            && ws[n + 1..] == HomeWrites(batch) + [Write(g.start, HeaderBlock(head, []))]
  {
    var head := HeaderBlock(d[g.start], BlockNumbers(batch));
    ThreeParts(SlotWrites(g, batch), Write(g.start, head), HomeWrites(batch), [Write(g.start, HeaderBlock(head, []))]);
  }

  lemma ThreeParts<T>(a: seq<T>, x: T, b: seq<T>, c: seq<T>)
    ensures var s := a + [x] + b + c; s[..|a| + 1] == a + [x] && s[|a|] == x && s[|a| + 1..] == b + c
  {}

  lemma SlotsThenHeader(g: Geometry, d: Disk, batch: seq<Entry>, w: Write)
    requires g.Fits(d) && |batch| < g.size && w.bno == g.start
    ensures var d1 := Apply(d, SlotWrites(g, batch) + [w]);
            && d1 == Apply(d, SlotWrites(g, batch))[g.start := w.data]
            && SameHome(g, d, d1)
            && forall i: nat | i < |batch| :: d1[g.Slot(i)] == batch[i].data
  {
    SlotContents(g, d, batch);
    ApplyConcat(d, SlotWrites(g, batch), [w]);
    LogWritesKeepHome(g, d, SlotWrites(g, batch) + [w]);
  }

  /** The log once the commit header is on disk: it holds `batch`, and what `commit` has
      still to write is what recovery would write. */
  lemma CommittedLog(g: Geometry, d: Disk, batch: seq<Entry>)
    requires Clean(g, d) && ValidBatch(g, d, batch) && batch != []
    ensures var ws, n := CommitWrites(g, d, batch), |batch|;
            var d1 := Apply(d, ws[..n + 1]);
            && HeaderOk(g, d1) && SameHome(g, d, d1)
            && LogBatch(g, d1) == batch
            && ws[n + 1..] == RecoveryWrites(g, d1)
  {
    CommitParts(g, d, batch);
    LogAfter(g, d, Apply(d, CommitWrites(g, d, batch)[..|batch| + 1]), batch, HeaderBlock(d[g.start], BlockNumbers(batch)));
  }

  lemma LogAfter(g: Geometry, d: Disk, d1: Disk, batch: seq<Entry>, head: Block)
    requires Clean(g, d) && ValidBatch(g, d, batch) && head == HeaderBlock(d[g.start], BlockNumbers(batch))
    requires d1 == Apply(d, SlotWrites(g, batch) + [Write(g.start, head)])
    ensures HeaderOk(g, d1) && SameHome(g, d, d1) && LogBatch(g, d1) == batch
    ensures RecoveryWrites(g, d1) == HomeWrites(batch) + [Write(g.start, HeaderBlock(head, []))]
  {
    SlotsThenHeader(g, d, batch, Write(g.start, head));
    HeaderNames(g, d, d1, batch, d[g.start]);
    BatchInLog(g, d1, batch);
  }

  /** The header names the blocks and the slots hold the data: the log holds the batch. */
  lemma BatchInLog(g: Geometry, d1: Disk, batch: seq<Entry>)
    requires HeaderOk(g, d1) && (forall e | e in batch :: e.bno < 0x1_0000_0000) && Logged(g, d1) == BlockNumbers(batch)
    requires forall i: nat | i < |batch| :: g.Slot(i) < |d1| && d1[g.Slot(i)] == batch[i].data
    ensures LogBatch(g, d1) == batch
  {
    forall i: nat | i < |batch|
      ensures LogBatch(g, d1)[i] == batch[i]
    {
      assert batch[i].data == d1[g.Slot(i)];
    }
  }

  lemma {:induction false} SlotContents(g: Geometry, d: Disk, batch: seq<Entry>)
    requires g.Fits(d) && |batch| < g.size
    ensures forall i: nat | i < |batch| :: g.Slot(i) < |d| && Apply(d, SlotWrites(g, batch))[g.Slot(i)] == batch[i].data
  {
    if batch != [] {
      var n := |batch| - 1;
      SlotContents(g, d, batch[..n]);
      assert SlotWrites(g, batch)[..n] == SlotWrites(g, batch[..n]);
    }
  }

  /** Recovering a log that holds `batch` puts `batch` in place. */
  lemma RecoverInstalls(g: Geometry, d: Disk, d1: Disk)
    requires HeaderOk(g, d1) && SameHome(g, d, d1)
    ensures SameHome(g, Recover(g, d1), Installed(d, LogBatch(g, d1)))
  {
    var batch := LogBatch(g, d1);
    ApplyThen(d1, HomeWrites(batch), Write(g.start, HeaderBlock(d1[g.start], [])));
    InstalledSameHome(g, d1, d, batch);
  }

  lemma ApplyThen(d: Disk, ws: seq<Write>, w: Write)
    requires w.bno < |d|
    ensures Apply(d, ws + [w]) == Apply(d, ws)[w.bno := w.data]
  {
    assert (ws + [w])[..|ws|] == ws;
  }

  lemma CutBeforeCommitPoint(g: Geometry, d: Disk, batch: seq<Entry>, k: nat)
    requires Clean(g, d) && ValidBatch(g, d, batch) && k <= |batch|
    ensures var d' := Apply(d, SlotWrites(g, batch)[..k]);
            HeaderOk(g, d') && SameHome(g, Recover(g, d'), d)
  {
    var ws := SlotWrites(g, batch)[..k];
    var d' := Apply(d, ws);
    LogWritesKeepHome(g, d, ws);
    ApplyAt(d, d, ws, g.start);
    CleanRecovery(g, d');
  }

  lemma CutAfterCommitPoint(g: Geometry, d: Disk, batch: seq<Entry>, m: nat)
    requires Clean(g, d) && ValidBatch(g, d, batch) && batch != [] && m <= |batch| + 1
    ensures var ws, n := CommitWrites(g, d, batch), |batch|;
            var d' := Apply(Apply(d, ws[..n + 1]), ws[n + 1..][..m]);
            HeaderOk(g, d') && SameHome(g, Recover(g, d'), Installed(d, batch))
  {
    CommittedLog(g, d, batch);
    var d1 := Apply(d, CommitWrites(g, d, batch)[..|batch| + 1]);
    RecoverInstalls(g, d, d1);
    RecoveryRestarts(g, d1, m);
  }

  /** Atomic commit. Cut `commit` after any k of its writes: the log is still one that recovery
      can follow, and recovery leaves every home block old, or every one new when
      the header write (index |batch|) is among the k. */
  lemma CommitIsAtomic(g: Geometry, d: Disk, batch: seq<Entry>, k: nat)
    requires Clean(g, d) && ValidBatch(g, d, batch) && k <= |CommitWrites(g, d, batch)|
    ensures var d' := Apply(d, CommitWrites(g, d, batch)[..k]);
            && HeaderOk(g, d')
            && SameHome(g, Recover(g, d'), if k > |batch| then Installed(d, batch) else d)
  {
    var ws, n := CommitWrites(g, d, batch), |batch|;
    if k <= n {
      assert ws[..k] == SlotWrites(g, batch)[..k];
      CutBeforeCommitPoint(g, d, batch, k);
    } else {
      CutAfterCommitPoint(g, d, batch, k - (n + 1));
      SplitPrefix(ws, n + 1, k);
      ApplyConcat(d, ws[..n + 1], ws[n + 1..][..k - (n + 1)]);
    }
  }

  // ----- Whole histories

  /** What the machine does between two quiet points: a commit that runs to the end, or one that
      is cut after `k` writes and followed by reboots whose recoveries are themselves cut
      after the given numbers of writes, and then one recovery that completes. */
  datatype Event =
    | Commit(batch: seq<Entry>)
    | Crash(batch: seq<Entry>, k: nat, cuts: seq<nat>)

  function CutRecovery(g: Geometry, d: Disk, c: nat): (r: Disk)
    requires HeaderOk(g, d)
    ensures |r| == |d|
  {
    var ws := RecoveryWrites(g, d);
    Apply(d, ws[..if c <= |ws| then c else |ws|])
  }

  /** Any number of cut recoveries, one after the other. */
  lemma {:induction false} CutRecoveriesRestart(g: Geometry, d: Disk, cuts: seq<nat>) returns (r: Disk)
    requires HeaderOk(g, d)
    ensures r == Reboots(g, d, cuts) && HeaderOk(g, r) && SameHome(g, Recover(g, d), Recover(g, r))
    decreases |cuts|
  {
    if cuts == [] {
      r := d;
    } else {
      var m := |RecoveryWrites(g, d)|;
      RecoveryRestarts(g, d, if cuts[0] <= m then cuts[0] else m);
      r := CutRecoveriesRestart(g, CutRecovery(g, d, cuts[0]), cuts[1..]);
    }
  }

  function Reboots(g: Geometry, d: Disk, cuts: seq<nat>): (r: Disk)
    requires HeaderOk(g, d)
    ensures |r| == |d| && HeaderOk(g, r)
    decreases |cuts|
  {
    if cuts == [] then d
    else
      var m := |RecoveryWrites(g, d)|;
      RecoveryRestarts(g, d, if cuts[0] <= m then cuts[0] else m);
      Reboots(g, CutRecovery(g, d, cuts[0]), cuts[1..])
  }

  predicate ValidEvent(g: Geometry, d: Disk, e: Event) {
    && Clean(g, d) && ValidBatch(g, d, e.batch)
    && (e.Crash? ==> e.k <= |CommitWrites(g, d, e.batch)|)
  }

  function Exec(g: Geometry, d: Disk, e: Event): (r: Disk)
    requires ValidEvent(g, d, e)
    ensures |r| == |d|
  {
    var ws := CommitWrites(g, d, e.batch);
    match e
    case Commit(_) => Apply(d, ws)
    case Crash(batch, k, cuts) =>
      CommitIsAtomic(g, d, batch, k);
      Recover(g, Reboots(g, Apply(d, ws[..k]), cuts))
  }

  /** The batch an event makes durable: the commit header either reached the disk or did not. */
  function Effect(e: Event): seq<Entry> {
    if e.Crash? && e.k <= |e.batch| then [] else e.batch
  }

  lemma CommitEventIsAtomic(g: Geometry, d: Disk, batch: seq<Entry>)
    requires Clean(g, d) && ValidBatch(g, d, batch)
    ensures var r := Apply(d, CommitWrites(g, d, batch)); Clean(g, r) && SameHome(g, r, Installed(d, batch))
  {
    var ws := CommitWrites(g, d, batch);
    assert ws[..|ws|] == ws;
    CommitIsAtomic(g, d, batch, |ws|);
    if batch != [] {
      assert Clean(g, Apply(d, ws));
      CleanRecovery(g, Apply(d, ws));
    }
  }

  lemma EventIsAtomic(g: Geometry, d: Disk, e: Event)
    requires ValidEvent(g, d, e)
    ensures Clean(g, Exec(g, d, e)) && SameHome(g, Exec(g, d, e), Installed(d, Effect(e)))
  {
    if e.Commit? {
      CommitEventIsAtomic(g, d, e.batch);
    } else {
      CommitIsAtomic(g, d, e.batch, e.k);
      CrashEventIsAtomic(g, d, Apply(d, CommitWrites(g, d, e.batch)[..e.k]), Installed(d, Effect(e)), e.cuts);
    }
  }

  /** Any number of cut recoveries, and a whole one, from a disk that one recovery would bring to h. */
  lemma CrashEventIsAtomic(g: Geometry, d: Disk, d1: Disk, h: Disk, cuts: seq<nat>)
    requires HeaderOk(g, d1) && SameHome(g, Recover(g, d1), h)
    ensures HeaderOk(g, Reboots(g, d1, cuts)) && Clean(g, Recover(g, Reboots(g, d1, cuts)))
    ensures SameHome(g, Recover(g, Reboots(g, d1, cuts)), h)
  {
    var r := CutRecoveriesRestart(g, d1, cuts);
    RecoverLeavesClean(g, r);
  }

  predicate ValidRun(g: Geometry, d: Disk, es: seq<Event>)
    decreases |es|
  {
    es == [] || (ValidEvent(g, d, es[0]) && ValidRun(g, Exec(g, d, es[0]), es[1..]))
  }

  function Final(g: Geometry, d: Disk, es: seq<Event>): (r: Disk)
    requires ValidRun(g, d, es)
    ensures |r| == |d|
    decreases |es|
  {
    if es == [] then d else Final(g, Exec(g, d, es[0]), es[1..])
  }

  /** The reference: only the batches that took effect, installed in order on a plain disk. */
  function Replay(d: Disk, es: seq<Event>): (r: Disk)
    ensures |r| == |d|
    decreases |es|
  {
    if es == [] then d else Replay(Installed(d, Effect(es[0])), es[1..])
  }

  lemma InstalledSameHome(g: Geometry, d1: Disk, d2: Disk, batch: seq<Entry>)
    requires SameHome(g, d1, d2)
    ensures SameHome(g, Installed(d1, batch), Installed(d2, batch))
  {
    forall b: nat | b < |d1| && !g.InLog(b)
      ensures Installed(d1, batch)[b] == Installed(d2, batch)[b]
    {
      ApplyAt(d1, d2, HomeWrites(batch), b);
      ApplyAt(d2, d1, HomeWrites(batch), b);
    }
  }

  /** Over every history of commits, crashes and cut recoveries, the home blocks are those of
      the transactions whose header write reached the disk, applied whole and in order. */
  lemma {:induction false} HistoryIsAtomic(g: Geometry, d: Disk, h: Disk, es: seq<Event>)
    requires Clean(g, d) && ValidRun(g, d, es) && SameHome(g, d, h)
    ensures Clean(g, Final(g, d, es)) && SameHome(g, Final(g, d, es), Replay(h, es))
    decreases |es|
  {
    if es != [] {
      EventIsAtomic(g, d, es[0]);
      InstalledSameHome(g, d, h, Effect(es[0]));
      HistoryIsAtomic(g, Exec(g, d, es[0]), Installed(h, Effect(es[0])), es[1..]);
    }
  }
}
