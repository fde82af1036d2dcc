/** log.c's commit and recovery through the buffer cache: what reaches the disk, in which order, and
    when the cache is large enough. */
module LogCommit {
  import opened Blocks
  import opened Params
  import opened RedoLog
  import opened BufCache
  import opened BufRing

  // ----- Buffers in use

  /** `theirs[x]` counts the references other processes have on buffer x; `held` are the buffers commit
      has a reference on besides. */
  ghost predicate Refs(c: Cache, theirs: seq<nat>, held: set<nat>) {
    && |c.bufs| == |theirs| == NBUF && (forall x | x in held :: x < NBUF)
    && (forall x: nat | x < NBUF :: c.bufs[x].refcnt == theirs[x] + if x in held then 1 else 0)
  }

  /** The others leave the log region alone, and none of them has a logged block locked (commit would wait
      for it). */
  ghost predicate Guests(g: Geometry, c: Cache, theirs: seq<nat>, held: set<nat>) {
    && |c.bufs| == |theirs| == NBUF
    && (forall x: nat | x < NBUF && theirs[x] > 0 :: !g.InLog(c.bufs[x].bno))
    && (forall x: nat | x < NBUF && theirs[x] > 0 && x !in held :: c.bufs[x].hold == Unlocked || c.bufs[x].bno !in c.lh)
  }

  ghost predicate Quiet(g: Geometry, c: Cache, theirs: seq<nat>, held: set<nat>) {
    Refs(c, theirs, held) && Guests(g, c, theirs, held)
  }

  /** A buffer that nobody else references and no logged block pins. */
  ghost predicate Spare(bufs: seq<Buf>, theirs: seq<nat>, x: nat) {
    x < |bufs| == |theirs| && theirs[x] == 0 && !bufs[x].dirty
  }

  /** Some buffer is spare; closed unless RoomOpens opens it. */
  ghost predicate Room(bufs: seq<Buf>, theirs: seq<nat>) { RoomBehind(bufs, theirs, 2) }

  ghost predicate RoomBehind(bufs: seq<Buf>, theirs: seq<nat>, turns: nat) {
    if turns == 0 then exists x: nat :: Spare(bufs, theirs, x) else RoomBehind(bufs, theirs, turns - 1)
  }

  lemma RoomOpens(bufs: seq<Buf>, theirs: seq<nat>)
    ensures Room(bufs, theirs) <==> exists x: nat :: Spare(bufs, theirs, x)
  {
    assert RoomBehind(bufs, theirs, 2) == RoomBehind(bufs, theirs, 1) == RoomBehind(bufs, theirs, 0);
  }

  lemma HasRoom(bufs: seq<Buf>, theirs: seq<nat>, x: nat)
    requires Spare(bufs, theirs, x)
    ensures Room(bufs, theirs)
  {
    RoomOpens(bufs, theirs);
  }

  /** Buffer x is ours, holds block bno, and shows it as last written. */
  ghost predicate Holding(c: Cache, x: nat, bno: nat) {
    && |c.bufs| == NBUF && x < NBUF && bno < |c.cur|
    && c.bufs[x] == Buf(ROOTDEV, bno, true, c.bufs[x].dirty, c.bufs[x].refcnt, Settled, c.cur[bno])
  }

  ghost predicate SameStore(c: Cache, d: Cache) {
    d.disk == c.disk && d.cur == c.cur && d.pin == c.pin && d.lh == c.lh && d.committing == c.committing
  }

  /** What a process does that only reads. */
  predicate Reads(s: Step) { s.Get? || s.Lock? || s.Fill? || s.Unlock? || s.Drop? }

  /** Readers may come and go at any time, between and during the turns of commit: whatever they do, in
      whatever order, disk, store, pins and header stay, and so does the invariant. */
  lemma {:induction false} ReadersChangeNothing(c: Cache, run: seq<Step>, d: Cache)
    requires Inv(c) && Reaches(c, run, d) && forall k | 0 <= k < |run| :: Reads(run[k])
    ensures Inv(d) && SameStore(c, d)
    decreases |run|
  {
    if run != [] {
      assert Reads(run[0]);
      StepKeepsInv(c, run[0]);
      ReadersChangeNothing(Do(c, run[0]).c, run[1..], d);
    }
  }

  /** A block commit asks for: one of the log region, or one that is logged, and not one it holds already. */
  ghost predicate Wanted(g: Geometry, c: Cache, bno: nat, held: set<nat>) {
    && bno < |c.disk| && (g.InLog(bno) || bno in c.lh)
    && forall h | h in held && h < |c.bufs| :: c.bufs[h].bno != bno
  }

  /** bread's outcome. */
  ghost predicate Fetched(g: Geometry, c: Cache, d: Cache, bno: nat, x: nat, theirs: seq<nat>, held: set<nat>) {
    && SameStore(c, d) && x !in held && Quiet(g, d, theirs, held + {x}) && Holding(d, x, bno)
    && x < |c.bufs| == NBUF && d.bufs == c.bufs[x := d.bufs[x]] && (g.InLog(bno) ==> theirs[x] == 0)
  }

  /** Nobody has it locked. */
  lemma NotLocked(g: Geometry, c: Cache, bno: nat, theirs: seq<nat>, held: set<nat>)
    requires Inv(c) && Quiet(g, c, theirs, held) && Wanted(g, c, bno, held) && bno in c.at
    ensures c.at[bno] < NBUF && c.at[bno] !in held && c.bufs[c.at[bno]].bno == bno && c.bufs[c.at[bno]].hold == Unlocked
    ensures g.InLog(bno) ==> theirs[c.at[bno]] == 0
  {
    assert CachedOk(c, bno);
    assert BufOk(c, c.at[bno]);
  }

  lemma GotBuffer(g: Geometry, c: Cache, c1: Cache, bno: nat, x: nat, theirs: seq<nat>, held: set<nat>)
    requires Quiet(g, c, theirs, held) && Wanted(g, c, bno, held)
    requires Takes(c, Get(bno), true, c1) && x < NBUF && bno in c1.at && c1.at[bno] == x
    ensures Inv(c1) && Enabled(c1, Lock(x)) && SameStore(c, c1) && x !in held && c1.bufs == c.bufs[x := c1.bufs[x]]
    ensures c1.bufs[x].bno == bno && c1.bufs[x].dev == ROOTDEV && c1.bufs[x].refcnt == theirs[x] + 1 && (g.InLog(bno) ==> theirs[x] == 0)
    ensures theirs[x] > 0 ==> c.bufs[x].bno == bno
  {
    VictimIsUnused(c.bufs, c.order);
    StepKeepsInv(c, Get(bno));
    if bno in c.at {
      NotLocked(g, c, bno, theirs, held);
    }
    assert BufOk(c1, x);
  }

  lemma FetchedBy(g: Geometry, c: Cache, c1: Cache, c2: Cache, d: Cache, bno: nat, x: nat, theirs: seq<nat>, held: set<nat>)
    requires Quiet(g, c, theirs, held) && Wanted(g, c, bno, held)
    requires Takes(c, Get(bno), true, c1) && x < NBUF && bno in c1.at && c1.at[bno] == x
    requires Takes(c1, Lock(x), true, c2)
    requires if c2.bufs[x].valid then d == c2 else Takes(c2, Fill(x), true, d)
    ensures Fetched(g, c, d, bno, x, theirs, held)
  {
    GotBuffer(g, c, c1, bno, x, theirs, held);
    StepKeepsInv(c1, Lock(x));
    assert BufOk(c2, x) && BlockOk(c2, bno);
    FetchedQuiet(g, c, d, bno, x, theirs, held);
  }

  lemma FetchedQuiet(g: Geometry, c: Cache, d: Cache, bno: nat, x: nat, theirs: seq<nat>, held: set<nat>)
    requires Quiet(g, c, theirs, held) && x < NBUF && x !in held && |c.bufs| == |d.bufs| == NBUF && d.lh == c.lh
    requires d.bufs == c.bufs[x := d.bufs[x]] && d.bufs[x].refcnt == theirs[x] + 1 && d.bufs[x].bno == bno
    requires theirs[x] > 0 ==> !g.InLog(bno)
    ensures Quiet(g, d, theirs, held + {x})
  {}

  // ----- When a buffer is free

  /** The buffers that cache the blocks of s. */
  function Image(m: map<nat, nat>, s: set<nat>): set<nat> {
    set k | k in s && k in m :: m[k]
  }

  /** The buffers others reference. */
  function Referenced(theirs: seq<nat>): set<nat> {
    set x | 0 <= x < |theirs| && theirs[x] > 0
  }

  /** The buffers bget cannot recycle while commit holds none: pinned, or referenced by others. */
  function Taken(c: Cache, theirs: seq<nat>): set<nat> {
    Image(c.at, c.pin) + Referenced(theirs)
  }

  lemma {:induction false} ImageExact(m: map<nat, nat>, s: set<nat>)
    requires s <= m.Keys && forall i, j | i in s && j in s && i != j :: m[i] != m[j]
    ensures |Image(m, s)| == |s|
    decreases s
  {
    if s != {} {
      var k :| k in s;
      ImageExact(m, s - {k});
      assert Image(m, s) == Image(m, s - {k}) + {m[k]};
    }
  }

  /** A buffer is dirty exactly when a pinned block is cached in it, as long as nobody waits for a write. */
  lemma DirtyIsPinned(c: Cache, x: nat)
    requires Inv(c) && x < NBUF && c.bufs[x].hold != Writing
    ensures c.bufs[x].dirty <==> x in Image(c.at, c.pin)
  {
    assert BufOk(c, x);
    if x in Image(c.at, c.pin) {
      var k :| k in c.pin && k in c.at && c.at[k] == x;
      assert CachedOk(c, k);
    }
  }

  /** Others never write: bwrite is the log's. */
  ghost predicate NoWriters(c: Cache) { forall x: nat | x < |c.bufs| :: c.bufs[x].hold != Writing }

  /** There is room exactly when fewer than NBUF buffers are pinned or referenced. */
  lemma RoomIs(c: Cache, theirs: seq<nat>)
    requires Inv(c) && |theirs| == NBUF && NoWriters(c)
    ensures Room(c.bufs, theirs) <==> |Taken(c, theirs)| < NBUF
  {
    forall x | x in Taken(c, theirs)
      ensures x < NBUF
    {
      if k :| k in c.pin && k in c.at && c.at[k] == x {
        assert CachedOk(c, k);
      }
    }
    forall x: nat | x < NBUF
      ensures Spare(c.bufs, theirs, x) <==> x !in Taken(c, theirs)
    {
      DirtyIsPinned(c, x);
    }
    RoomOpens(c.bufs, theirs);
    SomeOutside(Taken(c, theirs));
  }

  lemma SomeOutside(s: set<nat>)
    requires forall x | x in s :: x < NBUF
    ensures |s| < NBUF <==> exists x: nat :: x < NBUF && x !in s
  {
    UptoCount(NBUF);
    var rest := Upto(NBUF) - s;
    assert s <= Upto(NBUF);
    assert Upto(NBUF) == s + rest;
    assert |rest| == NBUF - |s|;
    if |s| < NBUF {
      assert rest != {};
      var x :| x in rest;
      assert x < NBUF && x !in s;
    } else {
      assert rest == {};
    }
  }

  /** With nobody else around, the taken buffers are as many as the pinned blocks. */
  lemma TakenAlone(c: Cache, theirs: seq<nat>)
    requires Inv(c) && |theirs| == NBUF && forall x | 0 <= x < NBUF :: theirs[x] == 0
    ensures |Taken(c, theirs)| == |c.pin|
  {
    forall k | k in c.pin
      ensures k in c.at && CachedOk(c, k)
    {
      assert BlockOk(c, k);
    }
    ImageExact(c.at, c.pin);
    assert Taken(c, theirs) == Image(c.at, c.pin);
  }

  /** bget of a log block panics exactly when there is no room. */
  lemma LogBlockPanics(g: Geometry, c: Cache, bno: nat, theirs: seq<nat>)
    requires Inv(c) && Quiet(g, c, theirs, {}) && Wanted(g, c, bno, {}) && g.InLog(bno) && bno !in c.pin
    ensures Do(c, Get(bno)).Next? <==> Room(c.bufs, theirs)
  {
    GetPanicsWhen(c, bno);
    RoomOpens(c.bufs, theirs);
    forall x: nat | x < NBUF
      ensures Spare(c.bufs, theirs, x) <==> !(c.bufs[x].refcnt > 0 || c.bufs[x].dirty)
    {}
    if bno in c.at {
      NotLocked(g, c, bno, theirs, {});
      assert BufOk(c, c.at[bno]);
      assert Spare(c.bufs, theirs, c.at[bno]);
    }
  }

  /** bget of a pinned block never panics: it is cached. With nothing pinned and nobody around, one held
      buffer leaves room for another block. */
  lemma HomeBlockThere(c: Cache, bno: nat, theirs: seq<nat>, h: nat)
    requires Inv(c) && Refs(c, theirs, {h}) && bno < |c.disk| && h < NBUF
    requires bno in c.pin || (c.pin == {} && forall x | 0 <= x < NBUF :: theirs[x] == 0)
    ensures Do(c, Get(bno)).Next?
  {
    GetPanicsWhen(c, bno);
    if bno in c.pin {
      assert BlockOk(c, bno);
    } else {
      var x := if h == 0 then 1 else 0;
      assert BufOk(c, x);
      assert c.bufs[x].refcnt == 0 && !c.bufs[x].dirty;
    }
  }

  // ----- Copying one block

  /** The cache after `dst` was overwritten on disk with what `src` reads as. */
  ghost predicate Copied(c: Cache, d: Cache, src: nat, dst: nat) {
    && src < |c.cur| && dst < |c.cur| && |c.disk| == |c.cur|
    && d.disk == c.disk[dst := c.cur[src]] && d.cur == c.cur[dst := c.cur[src]]
    && d.pin == c.pin - {dst} && d.lh == c.lh && d.committing == c.committing
  }

  /** Change, bwrite: the buffer is ours still, the block is on disk. */
  lemma StoredBy(c: Cache, c1: Cache, c2: Cache, d: Cache, x: nat, bno: nat, data: Block)
    requires Inv(c) && Holding(c, x, bno)
    requires Takes(c, Change(x, data), true, c1) && Takes(c1, WriteStart(x), true, c2) && Takes(c2, WriteEnd(x), true, d)
    ensures Holding(d, x, bno) && d.bufs == c.bufs[x := d.bufs[x]] && c2.bufs[x].bno == bno && c2.bufs[x].data == data
    ensures d.bufs[x].refcnt == c.bufs[x].refcnt && !d.bufs[x].dirty
    ensures bno < |c.disk| && d.disk == c.disk[bno := data] && d.cur == c.cur[bno := data]
    ensures d.pin == c.pin - {bno} && d.lh == c.lh && d.committing == c.committing
  {}

  lemma CanLeave(c: Cache, c1: Cache, x: nat, bno: nat)
    requires Inv(c) && Holding(c, x, bno) && Takes(c, Unlock(x), true, c1)
    ensures Sized(c1) && Enabled(c1, Drop(x))
  {
    assert BufOk(c, x);
  }

  lemma ReleasedBy(g: Geometry, c: Cache, c1: Cache, d: Cache, x: nat, bno: nat, theirs: seq<nat>, held: set<nat>)
    requires Inv(c) && Holding(c, x, bno) && x in held && Quiet(g, c, theirs, held)
    requires Takes(c, Unlock(x), true, c1) && Takes(c1, Drop(x), true, d)
    ensures Quiet(g, d, theirs, held - {x}) && SameStore(c, d) && d.bufs == c.bufs[x := d.bufs[x]]
    ensures d.bufs[x].bno == bno && d.bufs[x].dirty == c.bufs[x].dirty
  {}

  /** bread for a process that holds `held`; `ok` is false where bget panics. */
  method Bread(bc: BufferCache, bno: nat, ghost g: Geometry, ghost theirs: seq<nat>, ghost held: set<nat>) returns (ok: bool, x: nat)
    requires bc.Valid() && Quiet(g, bc.View(), theirs, held) && Wanted(g, bc.View(), bno, held)
    modifies bc`at, bc.bufs
    ensures ok ==> bc.Valid() && Fetched(g, old(bc.View()), bc.View(), bno, x, theirs, held)
    ensures Inv(old(bc.View())) && ok == Do(old(bc.View()), Get(bno)).Next?
  {
    ghost var c := bc.View();
    ok, x := bc.Bget(bno);
    if ok {
      ghost var c1 := bc.View();
      GotBuffer(g, c, c1, bno, x, theirs, held);
      bc.Acquire(x);
      ghost var c2 := bc.View();
      if !bc.bufs[x].valid {
        bc.Load(x);
      }
      FetchedBy(g, c, c1, c2, bc.View(), bno, x, theirs, held);
    }
  }

  /** Change the data, bwrite. */
  method Store(bc: BufferCache, x: nat, ghost bno: nat, data: Block)
    requires bc.Valid() && Holding(bc.View(), x, bno) && (bno in bc.pin ==> bc.committing)
    modifies bc`disk, bc`cur, bc`pin, bc`trace, bc.bufs
    ensures bc.Valid() && Holding(bc.View(), x, bno) && bc.bufs[..] == old(bc.bufs[..])[x := bc.bufs[x]]
    ensures bc.bufs[x].refcnt == old(bc.bufs[x].refcnt) && !bc.bufs[x].dirty
    ensures bno < |old(bc.disk)| == |old(bc.cur)|
    ensures bc.disk == old(bc.disk)[bno := data] && bc.cur == old(bc.cur)[bno := data]
    ensures bc.pin == old(bc.pin) - {bno} && bc.trace == old(bc.trace) + [Write(bno, data)]
  {
    ghost var c := bc.View();
    bc.Edit(x, data);
    ghost var c1 := bc.View();
    bc.StartWrite(x);
    ghost var c2 := bc.View();
    bc.EndWrite(x);
    StoredBy(c, c1, c2, bc.View(), x, bno, data);
  }

  /** Changing a buffer we hold disturbs nobody. */
  lemma QuietStore(g: Geometry, c: Cache, d: Cache, x: nat, bno: nat, theirs: seq<nat>, held: set<nat>)
    requires Quiet(g, c, theirs, held) && x in held && Holding(c, x, bno) && Holding(d, x, bno)
    requires d.bufs == c.bufs[x := d.bufs[x]] && d.bufs[x].refcnt == c.bufs[x].refcnt && d.lh == c.lh
    ensures Quiet(g, d, theirs, held)
  {}

  /** brelse */
  method Brelse(bc: BufferCache, x: nat, ghost bno: nat, ghost g: Geometry, ghost theirs: seq<nat>, ghost held: set<nat>)
    requires bc.Valid() && Holding(bc.View(), x, bno) && x in held && Quiet(g, bc.View(), theirs, held)
    modifies bc`order, bc.bufs, bc.next, bc.prev
    ensures bc.Valid() && Quiet(g, bc.View(), theirs, held - {x})
    ensures bc.bufs[..] == old(bc.bufs[..])[x := bc.bufs[x]] && bc.bufs[x].dirty == old(bc.bufs[x].dirty)
  {
    ghost var c := bc.View();
    bc.Leave(x);
    ghost var c1 := bc.View();
    CanLeave(c, c1, x, bno);
    bc.Put(x);
    ReleasedBy(g, c, c1, bc.View(), x, bno, theirs, held);
  }

  /** memmove, bwrite, and release of both buffers. */
  method CopyHeld(bc: BufferCache, s: nat, ghost src: nat, d: nat, ghost dst: nat, ghost g: Geometry, ghost theirs: seq<nat>)
    requires bc.Valid() && Holding(bc.View(), s, src) && Holding(bc.View(), d, dst) && s != d && src != dst
    requires Quiet(g, bc.View(), theirs, {s, d}) && (dst in bc.pin ==> bc.committing)
    modifies bc`disk, bc`cur, bc`pin, bc`trace, bc`order, bc.bufs, bc.next, bc.prev
    ensures bc.Valid() && Quiet(g, bc.View(), theirs, {}) && Copied(old(bc.View()), bc.View(), src, dst)
    ensures bc.trace == old(bc.trace) + [Write(dst, old(bc.cur)[src])]
    ensures bc.bufs.Length == NBUF && !bc.bufs[d].dirty && bc.bufs[s].dirty == old(bc.bufs[s].dirty)
  {
    ghost var c := bc.View();
    Store(bc, d, dst, bc.bufs[s].data);
    QuietStore(g, c, bc.View(), d, dst, theirs, {s, d});
    Brelse(bc, s, src, g, theirs, {s, d});
    assert {s, d} - {s} == {d};
    Brelse(bc, d, dst, g, theirs, {d});
    assert {d} - {d} == {};
  }

  /** The body of write_log's loop: read the log block, then the cached block, and copy it over. */
  method CopyToLog(bc: BufferCache, slot: nat, home: nat, ghost g: Geometry, ghost theirs: seq<nat>) returns (ok: bool)
    requires bc.Valid() && Quiet(g, bc.View(), theirs, {}) && slot < |bc.disk| && home < |bc.disk|
    requires g.InLog(slot) && slot !in bc.pin && !g.InLog(home) && home in bc.pin && home in bc.lh
    modifies bc`at, bc`disk, bc`cur, bc`pin, bc`trace, bc`order, bc.bufs, bc.next, bc.prev
    ensures ok == old(Room(bc.bufs[..], theirs))
    ensures ok ==> bc.Valid() && Quiet(g, bc.View(), theirs, {}) && Room(bc.bufs[..], theirs)
    ensures ok ==> Copied(old(bc.View()), bc.View(), home, slot)
    ensures ok ==> bc.trace == old(bc.trace) + [Write(slot, old(bc.cur)[home])]
  {
    ghost var c := bc.View();
    var to: nat, from: nat;
    ok, to := Bread(bc, slot, g, theirs, {});
    LogBlockPanics(g, c, slot, theirs);
    if ok {
      assert {} + {to} == {to};
      ghost var c1 := bc.View();
      ok, from := Bread(bc, home, g, theirs, {to});
      HomeBlockThere(c1, home, theirs, to);
      assert {to} + {from} == {from, to};
      CopyHeld(bc, from, home, to, slot, g, theirs);
      HasRoom(bc.bufs[..], theirs, to);
    }
  }

  /** The body of install_trans' loop: read the log block, then the home block, and copy it over. */
  method CopyHome(bc: BufferCache, slot: nat, home: nat, ghost g: Geometry, ghost theirs: seq<nat>)
    requires bc.Valid() && Quiet(g, bc.View(), theirs, {}) && slot < |bc.disk| && home < |bc.disk| && bc.committing
    requires g.InLog(slot) && slot !in bc.pin && !g.InLog(home) && home in bc.lh && Room(bc.bufs[..], theirs)
    requires home in bc.pin || (bc.pin == {} && forall x | 0 <= x < |theirs| :: theirs[x] == 0)
    modifies bc`at, bc`disk, bc`cur, bc`pin, bc`trace, bc`order, bc.bufs, bc.next, bc.prev
    ensures bc.Valid() && Quiet(g, bc.View(), theirs, {}) && Room(bc.bufs[..], theirs)
    ensures Copied(old(bc.View()), bc.View(), slot, home)
    ensures bc.trace == old(bc.trace) + [Write(home, old(bc.cur)[slot])]
  {
    ghost var c := bc.View();
    var ok: bool, lbuf: nat, dbuf: nat;
    ok, lbuf := Bread(bc, slot, g, theirs, {});
    LogBlockPanics(g, c, slot, theirs);
    assert {} + {lbuf} == {lbuf};
    ghost var c1 := bc.View();
    LogBufferClean(c1, lbuf, slot);
    ok, dbuf := Bread(bc, home, g, theirs, {lbuf});
    HomeBlockThere(c1, home, theirs, lbuf);
    assert {lbuf} + {dbuf} == {lbuf, dbuf};
    CopyHeld(bc, lbuf, slot, dbuf, home, g, theirs);
    HasRoom(bc.bufs[..], theirs, lbuf);
  }

  lemma LogBufferClean(c: Cache, x: nat, bno: nat)
    requires Sound(c) && Holding(c, x, bno) && bno !in c.pin
    ensures !c.bufs[x].dirty
  {
    SoundIs(c);
    assert BufOk(c, x);
  }

  // ----- commit and recovery

  /** The blocks commit installs: what the header names, as last logged. */
  function Batch(lh: seq<nat>, cur: Disk): (r: seq<Entry>)
    requires forall i | 0 <= i < |lh| :: lh[i] < |cur|
    ensures |r| == |lh| && forall i {:trigger r[i]} | 0 <= i < |r| :: r[i] == Entry(lh[i], cur[lh[i]])
  {
    seq(|lh|, i requires 0 <= i < |lh| => Entry(lh[i], cur[lh[i]]))
  }

  function Names(s: seq<nat>): set<nat> { set b | b in s }

  /** p is what is left of `pin` without the first k blocks of lh. */
  ghost predicate Unpinned(pin: set<nat>, lh: seq<nat>, k: nat, p: set<nat>)
    requires k <= |lh|
  {
    p == pin - Names(lh[..k])
  }

  lemma UnpinNone(pin: set<nat>, lh: seq<nat>)
    ensures Unpinned(pin, lh, 0, pin)
  {
    assert Names(lh[..0]) == {};
  }

  lemma UnpinOne(pin: set<nat>, lh: seq<nat>, k: nat, p: set<nat>, p': set<nat>)
    requires k < |lh| && Unpinned(pin, lh, k, p) && p' == p - {lh[k]}
    ensures Unpinned(pin, lh, k + 1, p')
  {
    assert Names(lh[..k + 1]) == Names(lh[..k]) + {lh[k]};
  }

  lemma UnpinAll(pin: set<nat>, lh: seq<nat>, p: set<nat>)
    requires Unpinned(pin, lh, |lh|, p)
    ensures p == pin - Names(lh)
  {
    assert lh[..|lh|] == lh;
  }

  /** The first k of the writes ws have reached disk and store. */
  ghost predicate Sent(d: Disk, u: Disk, t: seq<Write>, ws: seq<Write>, k: nat, disk: Disk, cur: Disk, trace: seq<Write>)
    requires k <= |ws|
  {
    disk == Apply(d, ws[..k]) && cur == Apply(u, ws[..k]) && trace == t + ws[..k]
  }

  lemma SentNone(d: Disk, u: Disk, t: seq<Write>, ws: seq<Write>)
    ensures Sent(d, u, t, ws, 0, d, u, t)
  {
  }

  lemma SentOne(d: Disk, u: Disk, t: seq<Write>, ws: seq<Write>, k: nat, disk: Disk, cur: Disk, trace: seq<Write>,
                disk': Disk, cur': Disk, trace': seq<Write>)
    requires k < |ws| && Sent(d, u, t, ws, k, disk, cur, trace) && |d| == |u| && ws[k].bno < |disk| == |cur|
    requires disk' == disk[ws[k].bno := ws[k].data] && cur' == cur[ws[k].bno := ws[k].data] && trace' == trace + [ws[k]]
    ensures Sent(d, u, t, ws, k + 1, disk', cur', trace')
  {
    assert ws[..k + 1][..k] == ws[..k];
    assert ws[..k + 1] == ws[..k] + [ws[k]];
  }

  /** A block that none of the writes names is as it was. */
  lemma SentElsewhere(d: Disk, u: Disk, t: seq<Write>, ws: seq<Write>, k: nat, disk: Disk, cur: Disk, trace: seq<Write>, b: nat)
    requires k <= |ws| && Sent(d, u, t, ws, k, disk, cur, trace) && |d| == |u| && b < |d|
    requires forall i | 0 <= i < |ws| :: ws[i].bno != b
    ensures |disk| == |d| && |cur| == |u| && cur[b] == u[b] && disk[b] == d[b]
  {
    ApplyAt(u, u, ws[..k], b);
    ApplyAt(d, d, ws[..k], b);
  }

  lemma SentAll(d: Disk, u: Disk, t: seq<Write>, ws: seq<Write>, disk: Disk, cur: Disk, trace: seq<Write>)
    requires Sent(d, u, t, ws, |ws|, disk, cur, trace)
    ensures disk == Apply(d, ws) && cur == Apply(u, ws) && trace == t + ws
  {
    assert ws[..|ws|] == ws;
  }

  /** write_head's loop. */
  method FillHeader(b: Block, lh: seq<word>) returns (hb: Block)
    requires |lh| <= LOGSIZE
    ensures hb == HeaderBlock(b, lh)
  {
    hb := PutWord(b, 0, |lh|);
    for i := 0 to |lh|
      invariant hb == PutBlockNumbers(PutWord(b, 0, |lh|), lh[..i])
    {
      assert lh[..i + 1][..i] == lh[..i];
      hb := PutWord(hb, i + 1, lh[i]);
    }
    assert lh[..|lh|] == lh;
  }

  /** struct log over the cache. */
  class CommitLog {
    const bc: BufferCache
    const g: Geometry

    constructor (bc: BufferCache, g: Geometry)
      ensures this.bc == bc && this.g == g
    {
      this.bc, this.g := bc, g;
    }

    /** Nobody is in commit's way: `theirs` counts the references of other processes. */
    ghost predicate Ready(theirs: seq<nat>)
      reads this, bc, bc.bufs, bc.next, bc.prev
    {
      bc.Valid() && Quiet(g, bc.View(), theirs, {}) && g.Fits(bc.disk)
    }

    /** write_log; `ok` is false where bget panics. */
    method WriteLog(ghost batch: seq<Entry>, ghost theirs: seq<nat>) returns (ok: bool)
      requires Ready(theirs) && bc.lh != [] && |bc.lh| < g.size
      requires forall i | 0 <= i < |bc.lh| :: bc.lh[i] < |bc.disk| && bc.lh[i] in bc.pin && !g.InLog(bc.lh[i])
      requires forall b | b in bc.pin :: !g.InLog(b)
      requires |bc.cur| == |bc.disk| && batch == Batch(bc.lh, bc.cur)
      modifies bc`at, bc`disk, bc`cur, bc`pin, bc`trace, bc`order, bc.bufs, bc.next, bc.prev
      ensures ok == old(Room(bc.bufs[..], theirs))
      ensures ok ==> Ready(theirs) && Room(bc.bufs[..], theirs) && bc.pin == old(bc.pin)
      ensures ok ==> bc.trace == old(bc.trace) + SlotWrites(g, batch)
      ensures ok ==> bc.disk == Apply(old(bc.disk), SlotWrites(g, batch)) && bc.cur == Apply(old(bc.cur), SlotWrites(g, batch))
    {
      ghost var ws := SlotWrites(g, batch);
      ghost var d, u, t := bc.disk, bc.cur, bc.trace;
      SentNone(d, u, t, ws);
      for tail := 0 to |bc.lh|
        invariant Ready(theirs) && bc.pin == old(bc.pin) && Room(bc.bufs[..], theirs) == old(Room(bc.bufs[..], theirs))
        invariant tail > 0 ==> Room(bc.bufs[..], theirs)
        invariant |bc.disk| == |d| && |bc.cur| == |u| && Sent(d, u, t, ws, tail, bc.disk, bc.cur, bc.trace)
      {
        SentElsewhere(d, u, t, ws, tail, bc.disk, bc.cur, bc.trace, bc.lh[tail]);
        assert g.InLog(g.Slot(tail));
        ghost var disk, cur, trace := bc.disk, bc.cur, bc.trace;
        ok := CopyToLog(bc, g.Slot(tail), bc.lh[tail], g, theirs);
        if !ok {
          return;
        }
        SentOne(d, u, t, ws, tail, disk, cur, trace, bc.disk, bc.cur, bc.trace);
      }
      SentAll(d, u, t, ws, bc.disk, bc.cur, bc.trace);
      ok := true;
    }

    /** write_head: the count and the block numbers over the header block. */
    method WriteHead(ghost theirs: seq<nat>)
      requires Ready(theirs) && Room(bc.bufs[..], theirs) && |bc.lh| <= LOGSIZE && g.start !in bc.pin
      requires forall i | 0 <= i < |bc.lh| :: bc.lh[i] < 0x1_0000_0000
      modifies bc`at, bc`disk, bc`cur, bc`pin, bc`trace, bc`order, bc.bufs, bc.next, bc.prev
      ensures Ready(theirs) && Room(bc.bufs[..], theirs) && bc.pin == old(bc.pin) && g.start < |old(bc.cur)|
      ensures var h := HeaderBlock(old(bc.cur)[g.start], bc.lh);
              && bc.trace == old(bc.trace) + [Write(g.start, h)]
              && bc.disk == old(bc.disk)[g.start := h] && bc.cur == old(bc.cur)[g.start := h]
    {
      ghost var c := bc.View();
      var x := ReadHeader(theirs);
      ghost var c1 := bc.View();
      var hb := FillHeader(bc.bufs[x].data, bc.lh);
      Store(bc, x, g.start, hb);
      QuietStore(g, c1, bc.View(), x, g.start, theirs, {x});
      Brelse(bc, x, g.start, g, theirs, {x});
      assert {x} - {x} == {};
      HasRoom(bc.bufs[..], theirs, x);
    }

    /** bread(log.start) */
    method ReadHeader(ghost theirs: seq<nat>) returns (x: nat)
      requires Ready(theirs) && Room(bc.bufs[..], theirs) && g.start !in bc.pin
      modifies bc`at, bc.bufs
      ensures bc.Valid() && Quiet(g, bc.View(), theirs, {x}) && Holding(bc.View(), x, g.start)
      ensures x < |theirs| == NBUF && theirs[x] == 0 && !bc.bufs[x].dirty
    {
      ghost var c := bc.View();
      var ok: bool;
      assert g.InLog(g.start);
      ok, x := Bread(bc, g.start, g, theirs, {});
      LogBlockPanics(g, c, g.start, theirs);
      assert {} + {x} == {x};
      LogBufferClean(bc.View(), x, g.start);
    }

    /** install_trans: every logged block to its home. What was pinned no longer is. */
    method InstallTrans(ghost batch: seq<Entry>, ghost theirs: seq<nat>)
      requires Ready(theirs) && Room(bc.bufs[..], theirs) && bc.committing && Plan(g, bc.lh, bc.cur, bc.pin, batch)
      requires bc.pin == {} ==> forall x | 0 <= x < |theirs| :: theirs[x] == 0
      modifies bc`at, bc`disk, bc`cur, bc`pin, bc`trace, bc`order, bc.bufs, bc.next, bc.prev
      ensures Ready(theirs) && Room(bc.bufs[..], theirs) && bc.pin == old(bc.pin) - Names(bc.lh)
      ensures bc.trace == old(bc.trace) + HomeWrites(batch)
      ensures bc.disk == Apply(old(bc.disk), HomeWrites(batch)) && bc.cur == Apply(old(bc.cur), HomeWrites(batch))
    {
      ghost var ws := HomeWrites(batch);
      ghost var d, u, t, pin := bc.disk, bc.cur, bc.trace, bc.pin;
      SentNone(d, u, t, ws);
      PlanSize(g, bc.lh, u, pin, batch);
      UnpinNone(pin, bc.lh);
      for tail := 0 to |bc.lh|
        invariant Ready(theirs) && Room(bc.bufs[..], theirs) && Unpinned(pin, bc.lh, tail, bc.pin)
        invariant |bc.disk| == |d| && |bc.cur| == |u| && Sent(d, u, t, ws, tail, bc.disk, bc.cur, bc.trace)
      {
        ghost var disk, cur, trace, p := bc.disk, bc.cur, bc.trace, bc.pin;
        NextHome(g, bc.lh, pin, p, batch, d, u, t, tail, disk, cur, trace);
        CopyHome(bc, g.Slot(tail), bc.lh[tail], g, theirs);
        SentOne(d, u, t, ws, tail, disk, cur, trace, bc.disk, bc.cur, bc.trace);
        UnpinOne(pin, bc.lh, tail, p, bc.pin);
      }
      UnpinAll(pin, bc.lh, bc.pin);
      SentAll(d, u, t, ws, bc.disk, bc.cur, bc.trace);
    }

    /** The tail that commit and recover_from_log share: install, then erase the header. */
    method InstallAndErase(ghost batch: seq<Entry>, ghost head: Block, ghost theirs: seq<nat>)
      requires Ready(theirs) && Room(bc.bufs[..], theirs) && bc.committing
      requires Plan(g, bc.lh, bc.cur, bc.pin, batch) && bc.pin - Names(bc.lh) == {}
      requires bc.pin == {} ==> forall x | 0 <= x < |theirs| :: theirs[x] == 0
      requires |bc.cur| == |bc.disk| && bc.cur[g.start] == head
      modifies bc, bc.bufs, bc.next, bc.prev
      ensures Ready(theirs) && bc.pin == {} && bc.lh == [] && !bc.committing
      ensures bc.trace == old(bc.trace) + EraseWrites(g, batch, head)
      ensures bc.disk == Apply(old(bc.disk), EraseWrites(g, batch, head))
      ensures bc.cur == Apply(old(bc.cur), EraseWrites(g, batch, head))
    {
      ghost var d, u, t := bc.disk, bc.cur, bc.trace;
      HeaderUntouched(g, bc.lh, u, bc.pin, batch);
      InstallTrans(batch, theirs);
      bc.ClearHead();
      WriteHead(theirs);
      bc.EndCommit();
      EraseAddsUp(g, d, batch, head, t);
      EraseAddsUp(g, u, batch, head, t);
    }

    /** Up to the commit point: cached blocks to the log, then the header that names them. */
    method WriteTransaction(ghost batch: seq<Entry>, ghost theirs: seq<nat>) returns (ok: bool)
      requires Ready(theirs) && bc.committing && bc.lh != [] && Committable(g, bc.View(), batch) && bc.pin == Names(bc.lh)
      modifies bc`at, bc`disk, bc`cur, bc`pin, bc`trace, bc`order, bc.bufs, bc.next, bc.prev
      ensures ok == old(Room(bc.bufs[..], theirs))
      ensures ok ==> Ready(theirs) && Room(bc.bufs[..], theirs) && bc.pin == old(bc.pin)
      ensures ok ==> Plan(g, bc.lh, bc.cur, bc.pin, batch) && bc.pin - Names(bc.lh) == {}
      ensures ok ==>
                var head := CommitHead(g, old(bc.cur), batch);
                && bc.trace == old(bc.trace) + SlotWrites(g, batch) + [Write(g.start, head)]
                && bc.disk == Apply(old(bc.disk), SlotWrites(g, batch))[g.start := head]
                && bc.cur == Apply(old(bc.cur), SlotWrites(g, batch))[g.start := head]
    {
      ghost var c := bc.View();
      CommitCounts(g, c, batch);
      ok := WriteLog(batch, theirs);
      if ok {
        ghost var cur1 := bc.cur;
        AfterSlots(g, c, batch, cur1);
        WriteHead(theirs);
        assert c.lh == BlockNumbers(batch);
        AfterHeader(g, c, batch, cur1, bc.cur, CommitHead(g, c.cur, batch));
      }
    }

    /** commit: cached blocks to the log, the header that names them, the blocks to their homes, the
        header erased. The disk sees exactly CommitWrites; afterwards no block is pinned, the disk holds
        the store, and the store's home blocks are what they were. `ok` is false where bget panics:
        exactly when something is logged and every buffer is pinned or referenced by another process. */
    method Commit(ghost batch: seq<Entry>, ghost theirs: seq<nat>) returns (ok: bool)
      requires Ready(theirs) && !bc.committing && Committable(g, bc.View(), batch) && NoWriters(bc.View())
      modifies bc, bc.bufs, bc.next, bc.prev
      ensures ok <==> old(bc.lh) == [] || |Taken(old(bc.View()), theirs)| < NBUF
      ensures ok ==> Ready(theirs) && bc.pin == {} && bc.lh == [] && !bc.committing
      ensures ok ==> bc.trace == old(bc.trace) + CommitWrites(g, old(bc.disk), batch)
      ensures ok ==> bc.disk == Apply(old(bc.disk), CommitWrites(g, old(bc.disk), batch))
      ensures ok ==> bc.disk == bc.cur && SameHome(g, old(bc.cur), bc.cur)
    {
      ghost var c := bc.View();
      CommitStarts(g, c, batch, theirs);
      ok := true;
      if bc.lh == [] {
        NothingToCommit(g, c, batch);
        return;
      }
      ok := CommitSome(batch, theirs);
    }

    /** commit, when something is logged. */
    method CommitSome(ghost batch: seq<Entry>, ghost theirs: seq<nat>) returns (ok: bool)
      requires Ready(theirs) && !bc.committing && Committable(g, bc.View(), batch) && bc.lh != []
      requires bc.pin == Names(bc.lh) && g.start !in bc.pin && bc.pin != {}
      modifies bc, bc.bufs, bc.next, bc.prev
      ensures ok == old(Room(bc.bufs[..], theirs))
      ensures ok ==> Ready(theirs) && bc.pin == {} && bc.lh == [] && !bc.committing
      ensures ok ==> bc.trace == old(bc.trace) + CommitWrites(g, old(bc.disk), batch)
      ensures ok ==> bc.disk == Apply(old(bc.disk), CommitWrites(g, old(bc.disk), batch))
      ensures ok ==> bc.disk == bc.cur && SameHome(g, old(bc.cur), bc.cur)
    {
      ghost var c, t := bc.View(), bc.trace;
      bc.BeginCommit();
      ok := WriteTransaction(batch, theirs);
      if !ok {
        return;
      }
      InstallAndErase(batch, bc.cur[g.start], theirs);
      CommitDone(g, c, batch, t);
      StoreOnDisk(bc.View());
    }

    /** read_head */
    method ReadHead(ghost theirs: seq<nat>)
      requires Ready(theirs) && Room(bc.bufs[..], theirs) && (forall x | 0 <= x < |theirs| :: theirs[x] == 0)
      requires bc.committing && bc.pin == {} && HeaderOk(g, bc.disk) && bc.disk == bc.cur
      modifies bc`at, bc`lh, bc`order, bc.bufs, bc.next, bc.prev
      ensures Ready(theirs) && Room(bc.bufs[..], theirs) && bc.lh == Logged(g, bc.disk)
    {
      var x := ReadHeader(theirs);
      var bs := HeaderEntries(bc.bufs[x].data, g, bc.disk);
      bc.SetHead(bs);
      Brelse(bc, x, g.start, g, theirs, {x});
      assert {x} - {x} == {};
      HasRoom(bc.bufs[..], theirs, x);
    }

    /** recover_from_log at boot, when nothing is pinned and nobody else is there: the disk sees exactly
        RecoveryWrites. */
    method RecoverFromLog(ghost theirs: seq<nat>)
      requires Ready(theirs) && !bc.committing && bc.pin == {} && HeaderOk(g, bc.disk)
      requires forall x | 0 <= x < |theirs| :: theirs[x] == 0
      modifies bc, bc.bufs, bc.next, bc.prev
      ensures Ready(theirs) && bc.pin == {} && bc.lh == [] && !bc.committing
      ensures bc.trace == old(bc.trace) + RecoveryWrites(g, old(bc.disk))
      ensures bc.disk == Recover(g, old(bc.disk)) && bc.cur == bc.disk
    {
      StoreOnDisk(bc.View());
      EmptyHasRoom(g, bc.View(), theirs);
      ghost var d := bc.disk;
      bc.BeginCommit();
      ReadHead(theirs);
      Redo(d, theirs);
    }

    /** Recovery once the header is read. */
    method Redo(ghost d: Disk, ghost theirs: seq<nat>)
      requires Ready(theirs) && Room(bc.bufs[..], theirs) && (forall x | 0 <= x < |theirs| :: theirs[x] == 0)
      requires bc.committing && bc.pin == {} && d == bc.disk == bc.cur && HeaderOk(g, d) && bc.lh == Logged(g, d)
      modifies bc, bc.bufs, bc.next, bc.prev
      ensures Ready(theirs) && bc.pin == {} && bc.lh == [] && !bc.committing
      ensures bc.trace == old(bc.trace) + RecoveryWrites(g, d)
      ensures bc.disk == Recover(g, d) && bc.cur == bc.disk
    {
      ghost var batch, head := RecoveryPlan(g, d, bc.lh);
      InstallAndErase(batch, head, theirs);
    }
  }

  /** With nothing pinned and nobody around, every buffer is spare. */
  lemma EmptyHasRoom(g: Geometry, c: Cache, theirs: seq<nat>)
    requires Sound(c) && Quiet(g, c, theirs, {}) && c.pin == {} && forall x | 0 <= x < |theirs| :: theirs[x] == 0
    ensures Room(c.bufs, theirs)
  {
    SoundIs(c);
    assert BufOk(c, 0);
    HasRoom(c.bufs, theirs, 0);
  }

  lemma CommitStarts(g: Geometry, c: Cache, batch: seq<Entry>, theirs: seq<nat>)
    requires Sound(c) && !c.committing && Committable(g, c, batch) && NoWriters(c) && |theirs| == NBUF
    ensures c.pin == Names(c.lh) && g.start !in c.pin && (c.lh != [] ==> c.pin != {})
    ensures Room(c.bufs, theirs) <==> |Taken(c, theirs)| < NBUF
  {
    PinsAreLogged(c);
    CommitCounts(g, c, batch);
    SoundIs(c);
    RoomIs(c, theirs);
    if c.lh != [] {
      assert c.lh[0] in c.pin;
    }
  }

  lemma RecoveryPlan(g: Geometry, d: Disk, lh: seq<nat>) returns (batch: seq<Entry>, head: Block)
    requires HeaderOk(g, d) && lh == Logged(g, d)
    ensures head == d[g.start] && Plan(g, lh, d, {}, batch) && {} - Names(lh) == {}
    ensures EraseWrites(g, batch, head) == RecoveryWrites(g, d)
    ensures Apply(d, EraseWrites(g, batch, head)) == Recover(g, d)
  {
    batch, head := LogBatch(g, d), d[g.start];
    forall i | 0 <= i < |lh|
      ensures Ours(g, lh, d, LogBatch(g, d), i)
    {
      assert Logged(g, d)[i] in Logged(g, d);
      assert g.InLog(g.Slot(i));
    }
  }

  /** read_head's loop. */
  method HeaderEntries(h: Block, ghost g: Geometry, ghost d: Disk) returns (bs: seq<nat>)
    requires HeaderOk(g, d) && h == d[g.start]
    ensures bs == Logged(g, d)
  {
    bs := [];
    for i := 0 to Word(h, 0)
      invariant bs == Logged(g, d)[..i]
    {
      bs := bs + [Word(h, i + 1)];
    }
  }

  /** A transaction log_write built: distinct blocks outside the log that fit it, as last logged. */
  ghost predicate Committable(g: Geometry, c: Cache, batch: seq<Entry>) {
    && g.Fits(c.disk) && g.Fits(c.cur) && |c.disk| == |c.cur| && (forall i | 0 <= i < |c.lh| :: c.lh[i] < |c.cur|)
    && batch == Batch(c.lh, c.cur) && ValidBatch(g, c.disk, batch) && ValidBatch(g, c.cur, batch)
  }

  /** What a crash during commit comes to: cut after any k of its disk writes, recovery finds every home
      block as the disk had it before, or, once the header is written, every one as the store has it. */
  lemma CrashSeesStore(g: Geometry, c: Cache, batch: seq<Entry>, k: nat)
    requires Inv(c) && !c.committing && Committable(g, c, batch) && Clean(g, c.disk)
    requires k <= |CommitWrites(g, c.disk, batch)|
    ensures var d := Apply(c.disk, CommitWrites(g, c.disk, batch)[..k]);
            HeaderOk(g, d) && SameHome(g, Recover(g, d), if k > |batch| then c.cur else c.disk)
  {
    CommitIsAtomic(g, c.disk, batch, k);
    InstalledIsStore(g, c, batch);
  }

  lemma InstalledIsStore(g: Geometry, c: Cache, batch: seq<Entry>)
    requires Inv(c) && Committable(g, c, batch)
    ensures Installed(c.disk, batch) == c.cur
  {
    forall b: nat | b < |c.disk|
      ensures Installed(c.disk, batch)[b] == c.cur[b]
    {
      assert BlockOk(c, b);
      InstalledContents(g, c.disk, batch, b);
      if b in c.lh {
        var i :| 0 <= i < |c.lh| && c.lh[i] == b;
        assert batch[i].bno == b;
      } else {
        forall e | e in batch
          ensures e.bno != b
        {}
      }
    }
  }

  lemma PinsAreLogged(c: Cache)
    requires Sound(c) && !c.committing
    ensures c.pin == Names(c.lh)
  {
    SoundIs(c);
    forall k | k in c.pin
      ensures k in c.lh
    {
      assert BlockOk(c, k);
    }
  }

  lemma StoreOnDisk(c: Cache)
    requires Sound(c) && c.pin == {}
    ensures c.disk == c.cur
  {
    SoundIs(c);
    forall k: nat | k < |c.disk|
      ensures c.disk[k] == c.cur[k]
    {
      assert BlockOk(c, k);
    }
  }

  lemma {:induction false} NamesCount(s: seq<nat>)
    requires forall i, j | 0 <= i < j < |s| :: s[i] != s[j]
    ensures |Names(s)| == |s|
  {
    if s != [] {
      var n := |s| - 1;
      NamesCount(s[..n]);
      assert Names(s) == Names(s[..n]) + {s[n]};
    }
  }

  /** As many pins as entries, none of them in the log region. */
  lemma CommitCounts(g: Geometry, c: Cache, batch: seq<Entry>)
    requires Committable(g, c, batch) && c.pin == Names(c.lh)
    ensures |c.pin| == |c.lh| && |c.lh| <= LOGSIZE && |c.lh| < g.size && g.start !in c.pin
    ensures forall i | 0 <= i < |c.lh| :: c.lh[i] < |c.disk| && c.lh[i] < 0x1_0000_0000 && c.lh[i] in c.pin && !g.InLog(c.lh[i])
    ensures forall b | b in c.pin :: !g.InLog(b)
    ensures forall i, j | 0 <= i < j < |c.lh| :: c.lh[i] != c.lh[j]
  {
    forall i | 0 <= i < |c.lh|
      ensures c.lh[i] < |c.disk| && c.lh[i] < 0x1_0000_0000 && c.lh[i] in c.pin && !g.InLog(c.lh[i])
    {
      assert batch[i] in batch;
    }
    forall i, j | 0 <= i < j < |c.lh|
      ensures c.lh[i] != c.lh[j]
    {
      assert batch[i].bno != batch[j].bno;
    }
    NamesCount(c.lh);
  }

  lemma NothingToCommit(g: Geometry, c: Cache, batch: seq<Entry>)
    requires Sound(c) && Committable(g, c, batch) && c.lh == [] && c.pin == Names(c.lh)
    ensures c.pin == {} && CommitWrites(g, c.disk, batch) == [] && c.disk == c.cur
  {
    StoreOnDisk(c);
  }

  /** write_log leaves the header alone. */
  lemma AfterSlots(g: Geometry, c: Cache, batch: seq<Entry>, cur1: Disk)
    requires Committable(g, c, batch) && cur1 == Apply(c.cur, SlotWrites(g, batch))
    ensures |cur1| == |c.cur| && cur1[g.start] == c.cur[g.start]
  {
    ApplyAt(c.cur, c.cur, SlotWrites(g, batch), g.start);
  }

  /** Once the header is written, every entry's contents are in its slot. */
  lemma AfterHeader(g: Geometry, c: Cache, batch: seq<Entry>, cur1: Disk, cur2: Disk, h: Block)
    requires Committable(g, c, batch) && c.pin == Names(c.lh)
    requires cur1 == Apply(c.cur, SlotWrites(g, batch)) && cur2 == cur1[g.start := h]
    ensures Plan(g, c.lh, cur2, c.pin, batch) && c.pin - Names(c.lh) == {}
  {
    CommitCounts(g, c, batch);
    SlotContents(g, c.cur, batch);
    forall i | 0 <= i < |c.lh|
      ensures Ours(g, c.lh, cur2, batch, i)
    {
      assert g.InLog(g.Slot(i));
    }
  }

  lemma HeaderIsSame(g: Geometry, c: Cache)
    requires Sound(c) && g.Fits(c.disk) && g.start !in c.pin
    ensures |c.disk| == |c.cur| && c.disk[g.start] == c.cur[g.start]
  {
    SoundIs(c);
    assert BlockOk(c, g.start);
  }

  /** The three parts of commit add up to CommitWrites. */
  lemma CommitAddsUp(g: Geometry, d: Disk, batch: seq<Entry>, t: seq<Write>)
    requires g.Fits(d) && ValidBatch(g, d, batch) && batch != []
    ensures var head := CommitHead(g, d, batch);
            var rest := EraseWrites(g, batch, head);
            && t + SlotWrites(g, batch) + [Write(g.start, head)] + rest == t + CommitWrites(g, d, batch)
            && Apply(Apply(d, SlotWrites(g, batch))[g.start := head], rest) == Apply(d, CommitWrites(g, d, batch))
  {
    var head := CommitHead(g, d, batch);
    var w := Write(g.start, head);
    var rest := EraseWrites(g, batch, head);
    Regroup(t, SlotWrites(g, batch), [w], HomeWrites(batch), [Write(g.start, HeaderBlock(head, []))]);
    ApplyLast(d, SlotWrites(g, batch), w, t);
    ApplyConcat(d, SlotWrites(g, batch) + [w], rest);
  }

  lemma Regroup(t: seq<Write>, p: seq<Write>, q: seq<Write>, r: seq<Write>, s: seq<Write>)
    ensures t + p + q + (r + s) == t + (p + q + r + s) && p + q + (r + s) == p + q + r + s
  {}

  /** Committing what the store already holds does not change its home blocks. */
  lemma CommitKeepsStore(g: Geometry, u: Disk, batch: seq<Entry>, head: Block)
    requires g.Fits(u) && ValidBatch(g, u, batch) && forall i | 0 <= i < |batch| :: batch[i].bno < |u| && u[batch[i].bno] == batch[i].data
    ensures var rest := EraseWrites(g, batch, head);
            SameHome(g, u, Apply(Apply(u, SlotWrites(g, batch))[g.start := head], rest))
  {
    var v := Apply(u, SlotWrites(g, batch))[g.start := head];
    SlotsKeepHome(g, u, batch, head);
    EraseAddsUp(g, v, batch, head, []);
    HomeKept(g, u, v, batch, HeaderBlock(head, []));
  }

  /** Installing what the store has already changes no home block of it. */
  lemma HomeKept(g: Geometry, u: Disk, v: Disk, batch: seq<Entry>, h: Block)
    requires g.Fits(v) && ValidBatch(g, v, batch) && SameHome(g, u, v)
    requires forall i | 0 <= i < |batch| :: batch[i].bno < |u| && u[batch[i].bno] == batch[i].data
    ensures SameHome(g, u, Apply(v, HomeWrites(batch))[g.start := h])
  {
    forall b: nat | b < |u| && !g.InLog(b)
      ensures Apply(v, HomeWrites(batch))[b] == u[b]
    {
      InstallKeeps(g, u, v, batch, b);
    }
  }

  lemma SlotsKeepHome(g: Geometry, u: Disk, batch: seq<Entry>, head: Block)
    requires g.Fits(u) && |batch| < g.size
    ensures SameHome(g, u, Apply(u, SlotWrites(g, batch))[g.start := head])
  {
    forall i | 0 <= i < |batch|
      ensures g.InLog(SlotWrites(g, batch)[i].bno)
    {}
    LogWritesKeepHome(g, u, SlotWrites(g, batch));
  }

  lemma InstallKeeps(g: Geometry, u: Disk, v: Disk, batch: seq<Entry>, b: nat)
    requires g.Fits(v) && ValidBatch(g, v, batch) && |u| == |v| && b < |u| && v[b] == u[b]
    requires forall i | 0 <= i < |batch| :: batch[i].bno < |u| && u[batch[i].bno] == batch[i].data
    ensures Installed(v, batch)[b] == u[b]
  {
    InstalledContents(g, v, batch, b);
    if k :| 0 <= k < |batch| && batch[k].bno == b {
      assert Installed(v, batch)[batch[k].bno] == batch[k].data;
    }
  }

  lemma CommitDone(g: Geometry, c: Cache, batch: seq<Entry>, t: seq<Write>)
    requires Sound(c) && Committable(g, c, batch) && c.lh != [] && g.start !in c.pin
    ensures var head := CommitHead(g, c.cur, batch);
            var rest := EraseWrites(g, batch, head);
            && t + SlotWrites(g, batch) + [Write(g.start, head)] + rest == t + CommitWrites(g, c.disk, batch)
            && Apply(Apply(c.disk, SlotWrites(g, batch))[g.start := head], rest) == Apply(c.disk, CommitWrites(g, c.disk, batch))
            && SameHome(g, c.cur, Apply(Apply(c.cur, SlotWrites(g, batch))[g.start := head], rest))
  {
    HeaderIsSame(g, c);
    CommitAddsUp(g, c.disk, batch, t);
    CommitKeepsStore(g, c.cur, batch, CommitHead(g, c.cur, batch));
  }

  /** The writes after the commit point. */
  function EraseWrites(g: Geometry, batch: seq<Entry>, head: Block): seq<Write> {
    HomeWrites(batch) + [Write(g.start, HeaderBlock(head, []))]
  }

  lemma EraseAddsUp(g: Geometry, d: Disk, batch: seq<Entry>, head: Block, t: seq<Write>)
    requires g.start < |d|
    ensures Apply(d, EraseWrites(g, batch, head)) == Apply(d, HomeWrites(batch))[g.start := HeaderBlock(head, [])]
    ensures t + EraseWrites(g, batch, head) == t + HomeWrites(batch) + [Write(g.start, HeaderBlock(head, []))]
  {
    ApplyLast(d, HomeWrites(batch), Write(g.start, HeaderBlock(head, [])), t);
  }

  /** The header commit writes. */
  function CommitHead(g: Geometry, d: Disk, batch: seq<Entry>): Block
    requires g.Fits(d) && ValidBatch(g, d, batch)
  {
    HeaderBlock(d[g.start], BlockNumbers(batch))
  }

  lemma ApplyLast(d: Disk, ws: seq<Write>, w: Write, t: seq<Write>)
    requires w.bno < |d|
    ensures Apply(d, ws + [w]) == Apply(d, ws)[w.bno := w.data] && t + (ws + [w]) == t + ws + [w]
  {
    ApplyConcat(d, ws, [w]);
    assert [w][..0] == [];
  }

  /** Installing does not touch the header. */
  lemma HeaderUntouched(g: Geometry, lh: seq<nat>, cur: Disk, pin: set<nat>, batch: seq<Entry>)
    requires Plan(g, lh, cur, pin, batch) && g.Fits(cur)
    ensures Apply(cur, HomeWrites(batch))[g.start] == cur[g.start]
  {
    forall i | 0 <= i < |batch|
      ensures HomeWrites(batch)[i].bno != g.start
    {
      assert Ours(g, lh, cur, batch, i);
    }
    ApplyAt(cur, cur, HomeWrites(batch), g.start);
  }

  /** Entry i of the batch: a block outside the log, its new contents in log slot i. */
  ghost predicate Ours(g: Geometry, lh: seq<nat>, cur: Disk, batch: seq<Entry>, i: nat)
    requires i < |lh| == |batch|
  {
    && lh[i] < |cur| && !g.InLog(lh[i]) && batch[i].bno == lh[i]
    && g.Slot(i) < |cur| && g.InLog(g.Slot(i)) && batch[i].data == cur[g.Slot(i)]
  }

  ghost predicate PinsApart(lh: seq<nat>, pin: set<nat>) {
    && (forall i | 0 <= i < |lh| :: lh[i] in pin)
    && (forall i, j | 0 <= i < j < |lh| :: lh[i] != lh[j])
  }

  /** What install_trans needs: every entry ours; all of them pinned, as commit has it, or none, as in
      recovery. */
  ghost predicate Plan(g: Geometry, lh: seq<nat>, cur: Disk, pin: set<nat>, batch: seq<Entry>) {
    && |batch| == |lh| < g.size && (forall i | 0 <= i < |lh| :: Ours(g, lh, cur, batch, i))
    && (forall b | b in pin :: !g.InLog(b))
    && (pin == {} || PinsApart(lh, pin))
  }

  lemma PlanSize(g: Geometry, lh: seq<nat>, cur: Disk, pin: set<nat>, batch: seq<Entry>)
    requires Plan(g, lh, cur, pin, batch)
    ensures |batch| == |lh|
  {
  }

  lemma NextHome(g: Geometry, lh: seq<nat>, pin: set<nat>, p: set<nat>, batch: seq<Entry>, d: Disk, u: Disk, t: seq<Write>, k: nat,
                 disk: Disk, cur: Disk, trace: seq<Write>)
    requires Plan(g, lh, u, pin, batch) && |d| == |u| && k < |lh| == |batch|
    requires Sent(d, u, t, HomeWrites(batch), k, disk, cur, trace) && Unpinned(pin, lh, k, p)
    ensures |disk| == |d| && |cur| == |d| && lh[k] < |d| && g.Slot(k) < |d| && lh[k] != g.Slot(k)
    ensures HomeWrites(batch)[k] == Write(lh[k], cur[g.Slot(k)])
    ensures g.InLog(g.Slot(k)) && g.Slot(k) !in p && !g.InLog(lh[k]) && (lh[k] in p || (pin == {} && p == {}))
  {
    assert Ours(g, lh, u, batch, k);
    HomesAreNotSlots(g, lh, u, batch, k);
    SentElsewhere(d, u, t, HomeWrites(batch), k, disk, cur, trace, g.Slot(k));
    NextPin(lh, pin, k);
  }

  lemma HomesAreNotSlots(g: Geometry, lh: seq<nat>, cur: Disk, batch: seq<Entry>, k: nat)
    requires |lh| == |batch| && (forall i | 0 <= i < |lh| :: Ours(g, lh, cur, batch, i)) && k < |lh|
    ensures forall i | 0 <= i < |batch| :: HomeWrites(batch)[i].bno != g.Slot(k)
  {
    assert Ours(g, lh, cur, batch, k);
    forall i | 0 <= i < |batch|
      ensures HomeWrites(batch)[i].bno != g.Slot(k)
    {
      assert Ours(g, lh, cur, batch, i);
    }
  }

  /** The next block to install is still pinned, or nothing is. */
  lemma NextPin(lh: seq<nat>, pin: set<nat>, k: nat)
    requires (PinsApart(lh, pin) || pin == {}) && k < |lh|
    ensures var p := pin - Names(lh[..k]); lh[k] in p || (pin == {} && p == {})
  {}
}
