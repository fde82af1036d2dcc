/** The buffer cache of bio.c as a state machine: its steps are the sections under bcache.lock, the
    acquisition and release of a buffer's sleep lock, and the disk transfers of iderw, in any order
    and by any number of processes. */
module BufCache {
  import opened Blocks
  import opened Params
  import opened RedoLog

  const ROOTDEV := 1

  /** Who holds a buffer's sleep lock: nobody; a process that has not changed the data since it was
      last read, logged or written; one that has; or one waiting for iderw to write it. */
  datatype Hold = Unlocked | Settled | Changed | Writing

  /** struct buf without its list pointers. */
  datatype Buf = Buf(dev: nat, bno: nat, valid: bool, dirty: bool, refcnt: nat, hold: Hold, data: Block)

  /** `order` lists the buffers, most recently released first. `cur` is the plain store the cache
      stands for: each block as last given to log_write or bwrite. `at` says which buffer caches a
      block, `pin` holds the blocks whose logged contents are not installed yet, `lh` is
      log.lh.block[0..n), and `committing` says that a commit or a recovery is under way. */
  datatype Cache = Cache(bufs: seq<Buf>, order: seq<nat>, disk: Disk, cur: Disk,
                         at: map<nat, nat>, pin: set<nat>, lh: seq<nat>, committing: bool)

  predicate Sized(c: Cache) {
    |c.bufs| == NBUF && |c.disk| == |c.cur|
  }

  /** The list holds every buffer once. */
  predicate Shuffled(order: seq<nat>) {
    && |order| == NBUF
    && (forall i | 0 <= i < NBUF :: order[i] < NBUF)
    && (forall i, j | 0 <= i < j < NBUF :: order[i] != order[j])
    && (forall x: nat | x < NBUF :: x in order)
  }

  /** What each buffer keeps, cached under its block number or still as binit left it. */
  predicate BufOk(c: Cache, x: nat)
    requires Sized(c) && x < NBUF
  {
    var b := c.bufs[x];
    if b.dev == 0 then !b.valid && !b.dirty && b.refcnt == 0 && b.hold == Unlocked
    else
      && b.dev == ROOTDEV && b.bno < |c.disk| && b.bno in c.at && c.at[b.bno] == x
      && (b.hold != Unlocked ==> b.refcnt > 0)
      && (b.hold == Changed || b.hold == Writing || b.dirty ==> b.valid)
      && (b.valid && (b.hold == Unlocked || b.hold == Settled) ==> b.data == c.cur[b.bno])
      && (b.dirty <==> b.bno in c.pin || b.hold == Writing)
      && (b.hold == Writing && b.bno in c.pin ==> c.committing)
  }

  predicate CachedOk(c: Cache, k: nat)
    requires Sized(c) && k in c.at
  {
    c.at[k] < NBUF && c.bufs[c.at[k]].dev == ROOTDEV && c.bufs[c.at[k]].bno == k
  }

  /** A pinned block is cached and logged; any other block is on disk as last written. */
  predicate BlockOk(c: Cache, k: nat)
    requires Sized(c) && k < |c.disk|
  {
    if k in c.pin then k in c.at && k in c.lh else c.disk[k] == c.cur[k]
  }

  ghost predicate Inv(c: Cache) {
    && Sized(c) && Shuffled(c.order)
    && (forall x: nat | x < NBUF :: BufOk(c, x))
    && (forall k | k in c.at :: CachedOk(c, k))
    && (forall k: nat | k < |c.disk| :: BlockOk(c, k))
    && (forall k | k in c.pin :: k < |c.disk|)
    && (!c.committing ==> forall k | k in c.lh :: k in c.pin)
  }

  // ----- The steps

  datatype Step =
    | Get(bno: nat)                    // bget, under bcache.lock
    | Lock(x: nat)                     // acquiresleep
    | Fill(x: nat)                     // bread's iderw: read
    | Change(x: nat, data: Block)      // the holder edits the data
    | LogWrite(x: nat)                 // log_write
    | WriteStart(x: nat)               // bwrite: mark dirty, hand to iderw
    | WriteEnd(x: nat)                 // iderw: written
    | Unlock(x: nat)                   // brelse: releasesleep
    | Drop(x: nat)                     // brelse, under bcache.lock
    | CommitStart | CommitEnd          // commit or recovery
    | HeadRead(lh: seq<nat>)           // recovery: read_head

  datatype Outcome = Next(c: Cache) | Panic

  predicate Unused(b: Buf) { b.refcnt == 0 && !b.dirty }

  /** bget's second scan: the least recently released unused buffer, NBUF if there is none. */
  function Victim(bufs: seq<Buf>, order: seq<nat>): (v: nat)
    requires |bufs| == NBUF && forall i | 0 <= i < |order| :: order[i] < NBUF
    ensures v <= NBUF
  {
    if order == [] then NBUF
    else
      var n := |order| - 1;
      if Unused(bufs[order[n]]) then order[n] else Victim(bufs, order[..n])
  }

  lemma {:induction false} VictimIsUnused(bufs: seq<Buf>, order: seq<nat>)
    requires |bufs| == NBUF && forall i | 0 <= i < |order| :: order[i] < NBUF
    ensures var v := Victim(bufs, order); v < NBUF ==> v in order && Unused(bufs[v])
    ensures Victim(bufs, order) == NBUF <==> forall i | 0 <= i < |order| :: !Unused(bufs[order[i]])
  {
    if order != [] {
      var n := |order| - 1;
      VictimIsUnused(bufs, order[..n]);
      assert forall i | 0 <= i < |order| :: i == n || order[i] == order[..n][i];
    }
  }

  function Got(c: Cache, bno: nat): Outcome
    requires Inv(c)
  {
    if bno in c.at then
      assert CachedOk(c, bno);
      var x := c.at[bno];
      Next(c.(bufs := c.bufs[x := c.bufs[x].(refcnt := c.bufs[x].refcnt + 1)]))
    else
      var v := Victim(c.bufs, c.order);
      if v == NBUF then Panic
      else
        Next(c.(bufs := c.bufs[v := Buf(ROOTDEV, bno, false, false, 1, Unlocked, c.bufs[v].data)],
                at := Recycled(c, v)[bno := v]))
  }

  /** The cached blocks without the one buffer v held. */
  function Recycled(c: Cache, v: nat): map<nat, nat>
    requires Sized(c) && v < NBUF
  {
    if c.bufs[v].dev == 0 then c.at else c.at - {c.bufs[v].bno}
  }

  function ToFront(order: seq<nat>, x: nat): seq<nat> {
    if x in order then [x] + Without(order, x) else order
  }

  function Without(order: seq<nat>, x: nat): (r: seq<nat>) {
    if order == [] then [] else if order[0] == x then order[1..] else [order[0]] + Without(order[1..], x)
  }

  function Dropped(c: Cache, x: nat): Cache
    requires Sized(c) && x < NBUF && c.bufs[x].refcnt > 0
  {
    var n := c.bufs[x].refcnt - 1;
    c.(bufs := c.bufs[x := c.bufs[x].(refcnt := n)], order := if n == 0 then ToFront(c.order, x) else c.order)
  }

  /** What the callers of bio.c keep to: a buffer is used only under its lock, changed only after it was
      read, and unlocked only once its changes were logged or written; a reference is dropped by one
      who has unlocked; a pinned block is written only by commit, which ends with none left. */
  predicate Enabled(c: Cache, s: Step)
    requires Sized(c)
  {
    match s
    case Get(bno) => bno < |c.disk|
    case Lock(x) => x < NBUF && c.bufs[x].hold == Unlocked && c.bufs[x].refcnt > 0
    case Fill(x) => x < NBUF && c.bufs[x].hold == Settled && !c.bufs[x].valid
    case Change(x, _) => x < NBUF && (c.bufs[x].hold == Settled || c.bufs[x].hold == Changed) && c.bufs[x].valid
    case LogWrite(x) =>
      x < NBUF && (c.bufs[x].hold == Settled || c.bufs[x].hold == Changed) && c.bufs[x].valid && !c.committing
    case WriteStart(x) =>
      && x < NBUF && (c.bufs[x].hold == Settled || c.bufs[x].hold == Changed) && c.bufs[x].valid
      && (c.bufs[x].bno in c.pin ==> c.committing)
    case WriteEnd(x) => x < NBUF && c.bufs[x].hold == Writing
    case Unlock(x) => x < NBUF && c.bufs[x].hold == Settled
    case Drop(x) => x < NBUF && c.bufs[x].refcnt > if c.bufs[x].hold == Unlocked then 0 else 1
    case CommitStart => !c.committing
    case CommitEnd => c.committing && c.pin == {}
    case HeadRead(_) => c.committing && c.pin == {}
  }

  function SetBuf(c: Cache, x: nat, b: Buf): Cache
    requires Sized(c) && x < NBUF
  {
    c.(bufs := c.bufs[x := b])
  }

  function Pinned(c: Cache, x: nat): Cache
    requires Sized(c) && x < NBUF && c.bufs[x].bno < |c.disk|
  {
    var b := c.bufs[x];
    c.(bufs := c.bufs[x := b.(dirty := true, hold := Settled)], cur := c.cur[b.bno := b.data],
       pin := c.pin + {b.bno}, lh := if b.bno in c.lh then c.lh else c.lh + [b.bno])
  }

  function Written(c: Cache, x: nat): Cache
    requires Sized(c) && x < NBUF && c.bufs[x].bno < |c.disk|
  {
    var b := c.bufs[x];
    c.(bufs := c.bufs[x := b.(dirty := false, hold := Settled)], cur := c.cur[b.bno := b.data],
       disk := c.disk[b.bno := b.data], pin := c.pin - {b.bno})
  }

  function Do(c: Cache, s: Step): Outcome
    requires Inv(c) && Enabled(c, s)
  {
    match s
    case Get(bno) => Got(c, bno)
    case Lock(x) => Next(SetBuf(c, x, c.bufs[x].(hold := Settled)))
    case Fill(x) => assert BufOk(c, x); Next(SetBuf(c, x, c.bufs[x].(valid := true, data := c.disk[c.bufs[x].bno])))
    case Change(x, data) => Next(SetBuf(c, x, c.bufs[x].(data := data, hold := Changed)))
    case LogWrite(x) => assert BufOk(c, x); Next(Pinned(c, x))
    case WriteStart(x) => Next(SetBuf(c, x, c.bufs[x].(dirty := true, hold := Writing)))
    case WriteEnd(x) => assert BufOk(c, x); Next(Written(c, x))
    case Unlock(x) => Next(SetBuf(c, x, c.bufs[x].(hold := Unlocked)))
    case Drop(x) => Next(Dropped(c, x))
    case CommitStart => Next(c.(committing := true))
    case CommitEnd => Next(c.(lh := [], committing := false))
    case HeadRead(lh) => Next(c.(lh := lh))
  }

  // ----- Every step keeps the invariant

  lemma GotKeepsInv(c: Cache, bno: nat)
    requires Inv(c) && bno < |c.disk| && Got(c, bno).Next?
    ensures Inv(Got(c, bno).c)
  {
    if bno in c.at {
      assert CachedOk(c, bno) && BufOk(c, c.at[bno]);
      SetBufKeepsInv(c, c.at[bno], c.bufs[c.at[bno]].(refcnt := c.bufs[c.at[bno]].refcnt + 1));
    } else {
      VictimIsUnused(c.bufs, c.order);
      RecycledKeepsInv(c, bno, Victim(c.bufs, c.order), Got(c, bno).c);
    }
  }

  lemma RecycledKeepsInv(c: Cache, bno: nat, v: nat, d: Cache)
    requires Inv(c) && bno < |c.disk| && bno !in c.at && v < NBUF && Unused(c.bufs[v])
    requires d == c.(bufs := c.bufs[v := Buf(ROOTDEV, bno, false, false, 1, Unlocked, c.bufs[v].data)], at := Recycled(c, v)[bno := v])
    ensures Inv(d)
  {
    assert BufOk(c, v) && BlockOk(c, bno);
    forall x: nat | x < NBUF
      ensures BufOk(d, x)
    {
      assert BufOk(c, x);
    }
    forall k | k in d.at
      ensures CachedOk(d, k)
    {
      if k in c.at {
        assert CachedOk(c, k);
      }
    }
    forall k: nat | k < |c.disk|
      ensures BlockOk(d, k)
    {
      assert BlockOk(c, k);
    }
  }

  /** One buffer's flags, lock or data change; the block it caches does not. */
  lemma SetBufKeepsInv(c: Cache, x: nat, b: Buf)
    requires Inv(c) && x < NBUF && b.dev == c.bufs[x].dev && b.bno == c.bufs[x].bno && BufOk(SetBuf(c, x, b), x)
    ensures Inv(SetBuf(c, x, b))
  {
    var d := SetBuf(c, x, b);
    forall y: nat | y < NBUF
      ensures BufOk(d, y)
    {
      assert BufOk(c, y);
    }
    forall k | k in d.at
      ensures CachedOk(d, k)
    {
      assert CachedOk(c, k);
    }
    forall k: nat | k < |c.disk|
      ensures BlockOk(d, k)
    {
      assert BlockOk(c, k);
    }
  }

  lemma PinnedKeepsInv(c: Cache, x: nat)
    requires Inv(c) && Enabled(c, LogWrite(x)) && c.bufs[x].bno < |c.disk|
    ensures Inv(Pinned(c, x))
  {
    var d, b := Pinned(c, x), c.bufs[x];
    assert BufOk(c, x);
    forall y: nat | y < NBUF
      ensures BufOk(d, y)
    {
      assert BufOk(c, y);
    }
    forall k | k in d.at
      ensures CachedOk(d, k)
    {
      assert CachedOk(c, k);
    }
    forall k: nat | k < |c.disk|
      ensures BlockOk(d, k)
    {
      assert BlockOk(c, k);
    }
  }

  lemma WrittenKeepsInv(c: Cache, x: nat)
    requires Inv(c) && Enabled(c, WriteEnd(x)) && c.bufs[x].bno < |c.disk|
    ensures Inv(Written(c, x))
  {
    var d, b := Written(c, x), c.bufs[x];
    assert BufOk(c, x);
    forall y: nat | y < NBUF
      ensures BufOk(d, y)
    {
      assert BufOk(c, y);
    }
    forall k | k in d.at
      ensures CachedOk(d, k)
    {
      assert CachedOk(c, k);
    }
    forall k: nat | k < |c.disk|
      ensures BlockOk(d, k)
    {
      assert BlockOk(c, k);
    }
  }

  lemma {:induction false} WithoutOne(order: seq<nat>, x: nat, k: nat)
    requires k < |order| && order[k] == x && forall i | 0 <= i < k :: order[i] != x
    ensures Without(order, x) == order[..k] + order[k + 1..]
  {
    if k > 0 {
      WithoutOne(order[1..], x, k - 1);
      assert order[1..][..k - 1] == order[1..k] && order[1..][k..] == order[k + 1..];
    }
  }

  lemma FrontHas(order: seq<nat>, k: nat, y: nat)
    requires Shuffled(order) && k < NBUF && y < NBUF
    ensures y in [order[k]] + (order[..k] + order[k + 1..])
  {
    assert y in order;
    var j :| 0 <= j < NBUF && order[j] == y;
    var r := order[..k] + order[k + 1..];
    if j < k {
      assert r[j] == y;
    } else if j > k {
      assert r[j - 1] == y;
    }
  }

  lemma FrontDistinct(order: seq<nat>, k: nat, i: nat, j: nat)
    requires Shuffled(order) && k < NBUF && i < j < NBUF
    ensures var r := [order[k]] + (order[..k] + order[k + 1..]); |r| == NBUF && r[i] != r[j]
  {
    var r := [order[k]] + (order[..k] + order[k + 1..]);
    assert r[i] == order[if i == 0 then k else if i <= k then i - 1 else i];
    assert r[j] == order[if j <= k then j - 1 else j];
  }

  /** Moving a buffer to the front keeps the list a permutation. */
  lemma ToFrontKeeps(order: seq<nat>, x: nat) returns (k: nat)
    requires Shuffled(order) && x < NBUF
    ensures Shuffled(ToFront(order, x))
    ensures k < NBUF && order[k] == x && ToFront(order, x) == [x] + (order[..k] + order[k + 1..])
  {
    assert x in order;
    k :| 0 <= k < NBUF && order[k] == x;
    WithoutOne(order, x, k);
    FrontShuffled(order, k);
  }

  lemma FrontShuffled(order: seq<nat>, k: nat)
    requires Shuffled(order) && k < NBUF
    ensures Shuffled([order[k]] + (order[..k] + order[k + 1..]))
  {
    var r := [order[k]] + (order[..k] + order[k + 1..]);
    forall i, j | 0 <= i < j < NBUF
      ensures r[i] != r[j]
    {
      FrontDistinct(order, k, i, j);
    }
    forall i | 0 <= i < NBUF
      ensures r[i] < NBUF
    {
      assert r[i] == order[if i == 0 then k else if i <= k then i - 1 else i];
    }
    forall y: nat | y < NBUF
      ensures y in r
    {
      FrontHas(order, k, y);
    }
  }

  lemma DroppedKeepsInv(c: Cache, x: nat)
    requires Inv(c) && Enabled(c, Drop(x))
    ensures Inv(Dropped(c, x))
  {
    assert BufOk(c, x);
    var b := c.bufs[x].(refcnt := c.bufs[x].refcnt - 1);
    SetBufKeepsInv(c, x, b);
    var k := ToFrontKeeps(c.order, x);
    SameButOrder(SetBuf(c, x, b), Dropped(c, x));
  }

  lemma SameButOrder(c: Cache, d: Cache)
    requires Inv(c) && Shuffled(d.order) && d == c.(order := d.order)
    ensures Inv(d)
  {
    forall x: nat | x < NBUF
      ensures BufOk(d, x)
    {
      assert BufOk(c, x);
    }
    forall k | k in d.at
      ensures CachedOk(d, k)
    {
      assert CachedOk(c, k);
    }
    forall k: nat | k < |c.disk|
      ensures BlockOk(d, k)
    {
      assert BlockOk(c, k);
    }
  }

  lemma CommitFlagKeepsInv(c: Cache, s: Step)
    requires Inv(c) && Enabled(c, s) && (s.CommitStart? || s.CommitEnd? || s.HeadRead?)
    ensures Inv(Do(c, s).c)
  {
    var d := Do(c, s).c;
    forall x: nat | x < NBUF
      ensures BufOk(d, x)
    {
      assert BufOk(c, x);
    }
    forall k | k in d.at
      ensures CachedOk(d, k)
    {
      assert CachedOk(c, k);
    }
    forall k: nat | k < |c.disk|
      ensures BlockOk(d, k)
    {
      assert BlockOk(c, k);
    }
  }

  lemma StepKeepsInv(c: Cache, s: Step)
    requires Inv(c) && Enabled(c, s) && Do(c, s).Next?
    ensures Inv(Do(c, s).c) && |Do(c, s).c.disk| == |c.disk|
  {
    match s
    case Get(bno) => GotKeepsInv(c, bno);
    case Lock(x) => assert BufOk(c, x); SetBufKeepsInv(c, x, c.bufs[x].(hold := Settled));
    case Fill(x) =>
      assert BufOk(c, x) && BlockOk(c, c.bufs[x].bno);
      SetBufKeepsInv(c, x, c.bufs[x].(valid := true, data := c.disk[c.bufs[x].bno]));
    case Change(x, data) => assert BufOk(c, x); SetBufKeepsInv(c, x, c.bufs[x].(data := data, hold := Changed));
    case LogWrite(x) => assert BufOk(c, x); PinnedKeepsInv(c, x);
    case WriteStart(x) => assert BufOk(c, x); SetBufKeepsInv(c, x, c.bufs[x].(dirty := true, hold := Writing));
    case WriteEnd(x) => assert BufOk(c, x); WrittenKeepsInv(c, x);
    case Unlock(x) => assert BufOk(c, x); SetBufKeepsInv(c, x, c.bufs[x].(hold := Unlocked));
    case Drop(x) => DroppedKeepsInv(c, x);
    case CommitStart => CommitFlagKeepsInv(c, s);
    case CommitEnd => CommitFlagKeepsInv(c, s);
    case HeadRead(_) => CommitFlagKeepsInv(c, s);
  }

  // ----- Every run

  /** binit: no buffer caches anything; the list is filled from the front. */
  function Boot(disk: Disk): Cache {
    Cache(seq(NBUF, x => Buf(0, 0, false, false, 0, Unlocked, ZeroBlock())),
          seq(NBUF, i requires 0 <= i < NBUF => NBUF - 1 - i), disk, disk, map[], {}, [], false)
  }

  lemma BootInv(disk: Disk)
    ensures Inv(Boot(disk))
  {
    var c := Boot(disk);
    forall x: nat | x < NBUF
      ensures x in c.order
    {
      assert c.order[NBUF - 1 - x] == x;
    }
  }

  /** The steps `run` lead from c to d without a panic. */
  ghost predicate Reaches(c: Cache, run: seq<Step>, d: Cache)
    decreases |run|
  {
    if run == [] then c == d
    else Inv(c) && Enabled(c, run[0]) && Do(c, run[0]).Next? && Reaches(Do(c, run[0]).c, run[1..], d)
  }

  lemma {:induction false} RunKeepsInv(c: Cache, run: seq<Step>, d: Cache)
    requires Inv(c) && Reaches(c, run, d)
    ensures Inv(d) && |d.disk| == |c.disk|
    decreases |run|
  {
    if run != [] {
      StepKeepsInv(c, run[0]);
      RunKeepsInv(Do(c, run[0]).c, run[1..], d);
    }
  }

  /** What every reachable state promises about two buffers: they never cache the same block; an unlocked
      one is dirty exactly when its block is logged, as long as no commit runs; valid and unlocked, it
      holds the block as last written, which a clean one shares with the disk. */
  lemma ReachableCache(disk: Disk, run: seq<Step>, c: Cache, x: nat, y: nat)
    requires Reaches(Boot(disk), run, c) && x < NBUF && y < NBUF
    ensures Inv(c)
    ensures var b := c.bufs[x];
            b.dev != 0 ==>
              && (x != y && c.bufs[y].dev != 0 ==> c.bufs[y].bno != b.bno)
              && b.bno < |c.disk|
              && (b.hold == Unlocked && !c.committing ==> (b.dirty <==> b.bno in c.lh))
              && (b.hold == Unlocked && b.valid ==> b.data == c.cur[b.bno])
              && (b.hold == Unlocked && b.valid && !b.dirty ==> b.data == c.disk[b.bno])
  {
    BootInv(disk);
    RunKeepsInv(Boot(disk), run, c);
    assert BufOk(c, x) && BufOk(c, y);
    if c.bufs[x].dev != 0 {
      assert BlockOk(c, c.bufs[x].bno);
    }
  }

  /** bread gives what was last written, cached or not: get the buffer, lock it, fill it if need be. */
  lemma ReadSeesLastWrite(c: Cache, x: nat)
    requires Inv(c) && x < NBUF && c.bufs[x].hold == Settled
    ensures c.bufs[x].bno < |c.cur|
    ensures c.bufs[x].valid ==> c.bufs[x].data == c.cur[c.bufs[x].bno]
    ensures !c.bufs[x].valid ==> Do(c, Fill(x)).c.bufs[x].data == c.cur[c.bufs[x].bno]
  {
    assert BufOk(c, x) && BlockOk(c, c.bufs[x].bno);
  }

  /** bget panics exactly when the block is not cached and every buffer is referenced or dirty. */
  lemma GetPanicsWhen(c: Cache, bno: nat)
    requires Inv(c) && bno < |c.disk|
    ensures Do(c, Get(bno)).Panic? <==> bno !in c.at && forall x: nat | x < NBUF :: c.bufs[x].refcnt > 0 || c.bufs[x].dirty
  {
    VictimIsUnused(c.bufs, c.order);
    if forall x: nat | x < NBUF :: c.bufs[x].refcnt > 0 || c.bufs[x].dirty {
      assert forall x: nat | x < NBUF :: !Unused(c.bufs[x]);
    } else {
      var x: nat :| x < NBUF && Unused(c.bufs[x]);
      assert x in c.order;
      var i :| 0 <= i < NBUF && c.order[i] == x;
      assert Unused(c.bufs[c.order[i]]);
    }
  }

  /** Recycling loses nothing: no logged contents, and no block still to be installed, leaves the cache. */
  lemma RecyclingLosesNothing(c: Cache, bno: nat, k: nat)
    requires Inv(c) && bno < |c.disk| && Do(c, Get(bno)).Next? && k < |c.disk|
    ensures var d := Do(c, Get(bno)).c;
            && d.cur == c.cur && d.disk == c.disk && d.pin == c.pin
            && (k in c.at && k !in d.at ==> c.disk[k] == c.cur[k])
            && (k in c.pin ==> k in c.at && k in d.at && c.at[k] < NBUF && d.at[k] < NBUF && d.bufs[d.at[k]].data == c.bufs[c.at[k]].data)
  {
    assert BlockOk(c, k);
    VictimIsUnused(c.bufs, c.order);
    GotKeepsInv(c, bno);
    var d := Do(c, Get(bno)).c;
    assert BlockOk(d, k);
    if k in c.pin {
      assert CachedOk(c, k) && CachedOk(d, k);
      assert BufOk(c, c.at[k]) && BufOk(d, d.at[k]);
    }
  }

  /** The buffer bget recycles is the unused one that was released longest ago. */
  lemma {:induction false} VictimIsOldest(bufs: seq<Buf>, order: seq<nat>, i: nat)
    requires |bufs| == NBUF && (forall j | 0 <= j < |order| :: order[j] < NBUF)
    requires i < |order| && Victim(bufs, order) == order[i] && forall j, k | 0 <= j < k < |order| :: order[j] != order[k]
    ensures forall j | i < j < |order| :: !Unused(bufs[order[j]])
  {
    var n := |order| - 1;
    if !Unused(bufs[order[n]]) {
      VictimIsUnused(bufs, order);
      VictimIsOldest(bufs, order[..n], i);
      forall j | i < j < |order|
        ensures !Unused(bufs[order[j]])
      {
        assert j == n || order[j] == order[..n][j];
      }
    }
  }

  /** What log_write records is what the holder put in the buffer: from then on it is the contents of the
      block, pinned and in the header, and no other block changes. */
  lemma LogWriteRecords(c: Cache, x: nat, data: Block)
    requires Inv(c) && Enabled(c, Change(x, data)) && !c.committing
    ensures var d := Do(c, Change(x, data)).c;
            && Inv(d) && Enabled(d, LogWrite(x)) && c.bufs[x].bno < |c.cur|
            && var e, b := Do(d, LogWrite(x)).c, c.bufs[x].bno;
            && e.cur == c.cur[b := data] && e.disk == c.disk && e.pin == c.pin + {b}
            && e.lh == (if b in c.lh then c.lh else c.lh + [b])
            && forall y: nat | y < NBUF && y != x :: e.bufs[y] == c.bufs[y]
  {
    assert BufOk(c, x);
    StepKeepsInv(c, Change(x, data));
  }

  // ----- Least recently used

  /** What bget returns: the buffer of the block, with one reference more; a recycled one holds nothing yet.
      No other buffer changes, and the list does not. */
  lemma GetTakesOne(c: Cache, bno: nat) returns (x: nat)
    requires Inv(c) && bno < |c.disk| && Do(c, Get(bno)).Next?
    ensures var d := Do(c, Get(bno)).c;
            && x < NBUF && bno in d.at && d.at[bno] == x && d.bufs[x].dev == ROOTDEV && d.bufs[x].bno == bno
            && (if bno in c.at then d.bufs[x] == c.bufs[x].(refcnt := c.bufs[x].refcnt + 1)
                else c.bufs[x].refcnt == 0 && !c.bufs[x].dirty && d.bufs[x].refcnt == 1 && !d.bufs[x].valid && !d.bufs[x].dirty)
            && (forall y: nat | y < NBUF && y != x :: d.bufs[y] == c.bufs[y])
            && d.order == c.order
  {
    if bno in c.at {
      assert CachedOk(c, bno);
    }
    VictimIsUnused(c.bufs, c.order);
    x := Do(c, Get(bno)).c.at[bno];
  }

  /** What the end of brelse does: one reference less, and with the last one the buffer goes to the front,
      the others keeping their order. */
  lemma DropMovesToFront(c: Cache, x: nat) returns (k: nat)
    requires Inv(c) && Enabled(c, Drop(x))
    ensures var d := Do(c, Drop(x)).c;
            && k < NBUF && c.order[k] == x
            && d.bufs == c.bufs[x := c.bufs[x].(refcnt := c.bufs[x].refcnt - 1)]
            && d.order == if c.bufs[x].refcnt == 1 then [x] + (c.order[..k] + c.order[k + 1..]) else c.order
  {
    k := ToFrontKeeps(c.order, x);
  }

  /** The time of each buffer's last release; the step number is the time. */
  ghost function Stamped(c: Cache, s: Step, now: int, times: seq<int>): (r: seq<int>)
    requires |times| == NBUF
    ensures |r| == NBUF
  {
    if s.Drop? && s.x < NBUF && s.x < |c.bufs| && c.bufs[s.x].refcnt == 1 then times[s.x := now] else times
  }

  ghost function Times(c: Cache, run: seq<Step>, now: int, times: seq<int>): (r: seq<int>)
    requires |times| == NBUF
    ensures |r| == NBUF
    decreases |run|
  {
    if run == [] || !Inv(c) || !Enabled(c, run[0]) || Do(c, run[0]).Panic? then times
    else Times(Do(c, run[0]).c, run[1..], now + 1, Stamped(c, run[0], now, times))
  }

  /** The later released, the nearer to the front. */
  ghost predicate ByRelease(order: seq<nat>, times: seq<int>, now: int) {
    && Shuffled(order) && |times| == NBUF && (forall x | 0 <= x < NBUF :: times[x] < now)
    && forall i, j | 0 <= i < j < NBUF :: times[order[i]] > times[order[j]]
  }

  lemma FrontByRelease(order: seq<nat>, k: nat, times: seq<int>, now: int)
    requires ByRelease(order, times, now) && k < NBUF
    ensures ByRelease([order[k]] + (order[..k] + order[k + 1..]), times[order[k] := now], now + 1)
  {
    var r, t := [order[k]] + (order[..k] + order[k + 1..]), times[order[k] := now];
    FrontShuffled(order, k);
    forall i, j | 0 <= i < j < NBUF
      ensures t[r[i]] > t[r[j]]
    {
      FrontDistinct(order, k, i, j);
      assert r[j] == order[if j <= k then j - 1 else j];
      assert i > 0 ==> r[i] == order[if i <= k then i - 1 else i];
      if i > 0 {
        FrontDistinct(order, k, 0, i);
      }
      FrontDistinct(order, k, 0, j);
    }
  }

  lemma StepByRelease(c: Cache, s: Step, now: int, times: seq<int>)
    requires Inv(c) && Enabled(c, s) && Do(c, s).Next? && ByRelease(c.order, times, now)
    ensures ByRelease(Do(c, s).c.order, Stamped(c, s, now, times), now + 1)
  {
    if s.Drop? {
      var k := DropMovesToFront(c, s.x);
      FrontByRelease(c.order, k, times, now);
    } else if s.Get? {
      var x := GetTakesOne(c, s.bno);
    }
  }

  lemma {:induction false} RunByRelease(c: Cache, run: seq<Step>, d: Cache, now: int, times: seq<int>)
    requires Inv(c) && Reaches(c, run, d) && ByRelease(c.order, times, now)
    ensures ByRelease(d.order, Times(c, run, now, times), now + |run|)
    decreases |run|
  {
    if run != [] {
      StepByRelease(c, run[0], now, times);
      StepKeepsInv(c, run[0]);
      RunByRelease(Do(c, run[0]).c, run[1..], d, now + 1, Stamped(c, run[0], now, times));
    }
  }

  /** Before its first release a buffer counts as released when binit linked it. */
  function FirstTimes(): (r: seq<int>)
    ensures |r| == NBUF
  {
    seq(NBUF, x => x - NBUF)
  }

  /** In every reachable state the list is in the order of the releases. */
  lemma ListedByRelease(disk: Disk, run: seq<Step>, c: Cache)
    requires Reaches(Boot(disk), run, c)
    ensures ByRelease(c.order, Times(Boot(disk), run, 0, FirstTimes()), |run|)
  {
    BootInv(disk);
    RunByRelease(Boot(disk), run, c, 0, FirstTimes());
  }

  lemma VictimByRelease(c: Cache, times: seq<int>, now: int, v: nat, y: nat)
    requires Inv(c) && ByRelease(c.order, times, now) && v == Victim(c.bufs, c.order) < NBUF
    requires y < NBUF && y != v && Unused(c.bufs[y])
    ensures times[v] < times[y]
  {
    VictimIsUnused(c.bufs, c.order);
    assert v in c.order && y in c.order;
    var i :| 0 <= i < NBUF && c.order[i] == v;
    var j :| 0 <= j < NBUF && c.order[j] == y;
    VictimIsOldest(c.bufs, c.order, i);
  }

  /** The buffer bget recycles is, of all that nobody references and that are clean, the one released
      longest ago. */
  lemma RecyclesOldest(disk: Disk, run: seq<Step>, c: Cache, bno: nat, y: nat)
    requires Reaches(Boot(disk), run, c) && Inv(c) && bno < |c.disk| && bno !in c.at && Do(c, Get(bno)).Next?
    requires y < NBUF && c.bufs[y].refcnt == 0 && !c.bufs[y].dirty
    ensures bno in Do(c, Get(bno)).c.at
    ensures var x, times := Do(c, Get(bno)).c.at[bno], Times(Boot(disk), run, 0, FirstTimes());
            x < NBUF && (y != x ==> times[x] < times[y])
  {
    ListedByRelease(disk, run, c);
    var x := GetTakesOne(c, bno);
    if y != x {
      VictimByRelease(c, Times(Boot(disk), run, 0, FirstTimes()), |run|, x, y);
    }
  }
}
