/** bio.c itself: the buffers on a doubly linked ring through an array, proved to take the steps of
    BufCache. */
module BufRing {
  import opened Blocks
  import opened Params
  import opened RedoLog
  import opened BufCache

  const HEAD := NBUF   // bcache.head; buffers are 0 .. NBUF-1

  // ----- The ring

  /** Following `next` from c[0] visits c and comes back; `prev` runs the other way. */
  ghost predicate Ring(next: seq<nat>, prev: seq<nat>, c: seq<nat>) {
    && |next| == |prev| == NBUF + 1 && |c| > 0
    && (forall i | 0 <= i < |c| :: c[i] <= NBUF)
    && (forall i, j | 0 <= i < j < |c| :: c[i] != c[j])
    && (forall i: nat | i < |c| :: Linked(next, prev, c, i))
  }

  ghost predicate Linked(next: seq<nat>, prev: seq<nat>, c: seq<nat>, i: nat)
    requires |next| == |prev| == NBUF + 1 && i < |c| && forall j | 0 <= j < |c| :: c[j] <= NBUF
  {
    next[c[i]] == c[After(i, |c|)] && prev[c[After(i, |c|)]] == c[i]
  }

  /** brelse's first half: take c[k] out of the ring. */
  lemma Unlink(next: seq<nat>, prev: seq<nat>, c: seq<nat>, k: nat)
    requires Ring(next, prev, c) && 0 < k < |c|
    ensures var x := c[k];
            && next[x] <= NBUF && prev[x] <= NBUF
            && Ring(next[prev[x] := next[x]], prev[next[x] := prev[x]], c[..k] + c[k + 1..])
  {
    var x, n := c[k], |c|;
    assert Linked(next, prev, c, k - 1) && Linked(next, prev, c, k);
    var next', prev', c' := next[prev[x] := next[x]], prev[next[x] := prev[x]], c[..k] + c[k + 1..];
    forall i: nat | i < |c'|
      ensures Linked(next', prev', c', i)
    {
      assert Linked(next, prev, c, if i < k then i else i + 1);
      assert c'[i] == c[if i < k then i else i + 1];
      var j := After(i, n - 1);
      assert c'[j] == c[if j < k then j else j + 1];
    }
  }

  /** brelse's second half, and binit's loop body: put x right after the head. */
  lemma LinkFront(next: seq<nat>, prev: seq<nat>, c: seq<nat>, x: nat)
    requires Ring(next, prev, c) && c[0] == HEAD && x < NBUF && x !in c
    ensures next[HEAD] <= NBUF
    ensures Ring(next[x := next[HEAD]][HEAD := x], prev[x := HEAD][next[HEAD] := x], [HEAD, x] + c[1..])
  {
    assert Linked(next, prev, c, 0);
    var next', prev', c' := next[x := next[HEAD]][HEAD := x], prev[x := HEAD][next[HEAD] := x], [HEAD, x] + c[1..];
    forall i: nat | i < |c'|
      ensures Linked(next', prev', c', i)
    {
      if i >= 2 {
        assert Linked(next, prev, c, i - 1);
        assert c'[i] == c[i - 1];
      }
      assert |c| > 1 ==> c'[2] == c[1];
    }
  }

  function Down(n: nat): seq<nat> {
    seq(n, i requires 0 <= i < n => n - 1 - i)
  }

  // ----- bget's scans

  /** Inv, kept closed: code that only hands it on need not look inside. */
  ghost predicate Sound(c: Cache) { SoundBehind(c, 2) }

  ghost predicate SoundBehind(c: Cache, turns: nat) {
    if turns == 0 then Inv(c) else SoundBehind(c, turns - 1)
  }

  /** The ring runs through the head and the buffers in `order`; kept closed. */
  ghost predicate Threaded(next: seq<nat>, prev: seq<nat>, order: seq<nat>) { ThreadedBehind(next, prev, order, 2) }

  ghost predicate ThreadedBehind(next: seq<nat>, prev: seq<nat>, order: seq<nat>, turns: nat) {
    if turns == 0 then Shuffled(order) && Ring(next, prev, [HEAD] + order) else ThreadedBehind(next, prev, order, turns - 1)
  }

  lemma ThreadedIs(next: seq<nat>, prev: seq<nat>, order: seq<nat>)
    ensures Threaded(next, prev, order) <==> Shuffled(order) && Ring(next, prev, [HEAD] + order)
  {
    assert Threaded(next, prev, order) == ThreadedBehind(next, prev, order, 1) == ThreadedBehind(next, prev, order, 0);
  }

  lemma SoundIs(c: Cache)
    ensures Sound(c) == Inv(c)
  {
    assert Sound(c) == SoundBehind(c, 1) == SoundBehind(c, 0);
  }

  lemma Shape(c: Cache)
    requires Sound(c)
    ensures Sized(c) && Shuffled(c.order)
  {
    SoundIs(c);
  }

  /** The buffer that names the block is the one that caches it; if none does, it is not cached. */
  lemma Found(c: Cache, bno: nat, b: nat)
    requires Sound(c) && Sized(c) && b < NBUF && c.bufs[b].dev == ROOTDEV && c.bufs[b].bno == bno
    ensures bno in c.at && c.at[bno] == b
  {
    SoundIs(c);
    assert BufOk(c, b);
  }

  lemma NotFound(c: Cache, bno: nat)
    requires Sound(c) && Sized(c) && Shuffled(c.order)
    requires forall i | 0 <= i < NBUF :: !(c.bufs[c.order[i]].dev == ROOTDEV && c.bufs[c.order[i]].bno == bno)
    ensures bno !in c.at
  {
    SoundIs(c);
    forall k | k in c.at
      ensures k != bno
    {
      assert CachedOk(c, k) && c.at[k] in c.order;
    }
  }

  lemma VictimEarlier(bufs: seq<Buf>, order: seq<nat>, k: nat)
    requires |bufs| == NBUF && (forall i | 0 <= i < |order| :: order[i] < NBUF) && k < |order|
    ensures Unused(bufs[order[k]]) ==> Victim(bufs, order[..k + 1]) == order[k]
    ensures !Unused(bufs[order[k]]) ==> Victim(bufs, order[..k + 1]) == Victim(bufs, order[..k])
  {
    assert order[..k + 1][..k] == order[..k];
  }

  /** struct bcache, and the disk behind it. */
  class BufferCache {
    const next: array<nat>
    const prev: array<nat>
    const bufs: array<Buf>
    var disk: Disk
    var lh: seq<nat>
    ghost var order: seq<nat>
    ghost var cur: Disk
    ghost var at: map<nat, nat>
    ghost var pin: set<nat>
    ghost var committing: bool
    ghost var trace: seq<Write>   // the disk writes, in order

    ghost function View(): Cache
      reads this, bufs
    {
      Cache(bufs[..], order, disk, cur, at, pin, lh, committing)
    }

    ghost predicate Valid()
      reads this, bufs, next, prev
    {
      && next.Length == prev.Length == NBUF + 1 && bufs.Length == NBUF && next != prev
      && Threaded(next[..], prev[..], order)
      && Sized(View()) && Sound(View())
    }

    /** binit: link each buffer right behind the head. */
    constructor (disk: Disk)
      ensures Valid() && View() == Boot(disk) && trace == []
      ensures fresh(next) && fresh(prev) && fresh(bufs)
    {
      next, prev := new nat[NBUF + 1](i => HEAD), new nat[NBUF + 1](i => HEAD);
      bufs := new Buf[NBUF](i => Buf(0, 0, false, false, 0, Unlocked, ZeroBlock()));
      this.disk, lh, order, cur, at, pin, committing, trace := disk, [], [], disk, map[], {}, false, [];
      new;
      for b := 0 to NBUF
        invariant Ring(next[..], prev[..], [HEAD] + order) && order == Down(b)
        invariant bufs[..] == Boot(disk).bufs && this.disk == cur == disk && lh == [] && at == map[] && pin == {} && !committing && trace == []
      {
        ghost var n0: seq<nat>, p0: seq<nat> := next[..], prev[..];
        LinkFront(n0, p0, [HEAD] + order, b);
        assert [HEAD, b] + ([HEAD] + order)[1..] == [HEAD] + Down(b + 1);
        var f: nat := next[HEAD];
        next[b] := f;
        prev[b] := HEAD;
        prev[f] := b;
        next[HEAD] := b;
        assert next[..] == n0[b := f][HEAD := b] && prev[..] == p0[b := HEAD][f := b];
        order := [b] + order;
        assert order == Down(b + 1);
      }
      BootInv(disk);
      ThreadedIs(next[..], prev[..], order);
      SoundIs(View());
      assert View() == Boot(disk);
    }

    /** bget's first scan, from the most recently used buffer: the one that caches the block, or HEAD. */
    method FindBlock(bno: nat) returns (b: nat)
      requires Valid()
      ensures b <= NBUF && (b < NBUF <==> bno in at) && (b < NBUF ==> at[bno] == b)
    {
      ghost var k, ring := 0, [HEAD] + order;
      ThreadedIs(next[..], prev[..], order);
      assert Linked(next[..], prev[..], ring, 0);
      b := next[HEAD];
      while b != HEAD
        invariant k <= NBUF && b == (if k < NBUF then order[k] else HEAD)
        invariant forall i | 0 <= i < k :: !(bufs[order[i]].dev == ROOTDEV && bufs[order[i]].bno == bno)
        decreases NBUF - k
      {
        if bufs[b].dev == ROOTDEV && bufs[b].bno == bno {
          Found(View(), bno, b);
          return;
        }
        assert Linked(next[..], prev[..], ring, k + 1);
        b, k := next[b], k + 1;
      }
      NotFound(View(), bno);
    }

    /** bget's second scan, from the least recently used buffer: one to recycle, or HEAD. */
    method FindVictim() returns (b: nat)
      requires Valid()
      ensures Shuffled(order) && b == Victim(bufs[..], order)
    {
      ThreadedIs(next[..], prev[..], order);
      ghost var k, ring, v := NBUF, [HEAD] + order, Victim(bufs[..], order);
      assert Linked(next[..], prev[..], ring, NBUF);
      b := prev[HEAD];
      assert order[..NBUF] == order;
      while b != HEAD
        invariant 0 <= k <= |order| && b == (if k > 0 then order[k - 1] else HEAD)
        invariant v == Victim(bufs[..], order[..k])
        decreases k
      {
        VictimEarlier(bufs[..], order, k - 1);
        if bufs[b].refcnt == 0 && !bufs[b].dirty {
          return;
        }
        assert Linked(next[..], prev[..], ring, k - 1);
        b, k := prev[b], k - 1;
      }
    }

    /** bget up to the sleep lock: the buffer of the block, or the least recently used free one;
        `ok` is false where the source panics. */
    method Bget(bno: nat) returns (ok: bool, x: nat)
      requires Valid() && bno < |disk|
      modifies this`at, bufs
      ensures Takes(old(View()), Get(bno), ok, View())
      ensures ok ==> Valid() && x < NBUF && bno in at && at[bno] == x
    {
      ghost var c := View();
      StepIsSound(c, Get(bno));
      x := FindBlock(bno);
      if x != HEAD {
        bufs[x] := bufs[x].(refcnt := bufs[x].refcnt + 1);
        assert bufs[..] == c.bufs[x := bufs[x]];
        return true, x;
      }
      x := FindVictim();
      if x == HEAD {
        return false, x;
      }
      at := Recycled(c, x)[bno := x];
      bufs[x] := Buf(ROOTDEV, bno, false, false, 1, Unlocked, bufs[x].data);
      assert bufs[..] == c.bufs[x := bufs[x]];
      return true, x;
    }

    /** acquiresleep on a buffer nobody holds. */
    method Acquire(x: nat)
      requires Valid() && x < NBUF && Enabled(View(), Lock(x))
      modifies bufs
      ensures Valid() && Takes(old(View()), Lock(x), true, View())
    {
      ghost var c := View();
      StepIsSound(c, Lock(x));
      bufs[x] := bufs[x].(hold := Settled);
      assert bufs[..] == c.bufs[x := bufs[x]];
    }

    /** bread's iderw on a buffer that is not valid. */
    method Load(x: nat)
      requires Valid() && x < NBUF && Enabled(View(), Fill(x))
      modifies bufs
      ensures Valid() && Takes(old(View()), Fill(x), true, View())
    {
      ghost var c := View();
      StepIsSound(c, Fill(x));
      assert BufOk(c, x);
      bufs[x] := bufs[x].(valid := true, data := disk[bufs[x].bno]);
      assert bufs[..] == c.bufs[x := bufs[x]];
    }

    /** The holder's change to the data. */
    method Edit(x: nat, data: Block)
      requires Valid() && x < NBUF && Enabled(View(), Change(x, data))
      modifies bufs
      ensures Valid() && Takes(old(View()), Change(x, data), true, View())
    {
      ghost var c := View();
      StepIsSound(c, Change(x, data));
      bufs[x] := bufs[x].(data := data, hold := Changed);
      assert bufs[..] == c.bufs[x := bufs[x]];
    }

    /** log_write's effect on the cache: record the block number once, pin the buffer. */
    method Log(x: nat)
      requires Valid() && x < NBUF && Enabled(View(), LogWrite(x))
      modifies this`lh, this`pin, this`cur, bufs
      ensures Valid() && Takes(old(View()), LogWrite(x), true, View())
    {
      ghost var c := View();
      StepIsSound(c, LogWrite(x));
      assert BufOk(c, x);
      var i := 0;
      while i < |lh| && lh[i] != bufs[x].bno
        invariant i <= |lh| && forall j | 0 <= j < i :: lh[j] != bufs[x].bno
      {
        i := i + 1;
      }
      if i == |lh| {
        lh := lh + [bufs[x].bno];
      } else {
        lh := lh[i := bufs[x].bno];
        assert lh == c.lh;
      }
      cur, pin := cur[bufs[x].bno := bufs[x].data], pin + {bufs[x].bno};
      bufs[x] := bufs[x].(dirty := true, hold := Settled);
      assert bufs[..] == c.bufs[x := bufs[x]];
    }

    /** bwrite, first half: mark the buffer dirty and hand it to iderw. */
    method StartWrite(x: nat)
      requires Valid() && x < NBUF && Enabled(View(), WriteStart(x))
      modifies bufs
      ensures Valid() && Takes(old(View()), WriteStart(x), true, View())
    {
      ghost var c := View();
      StepIsSound(c, WriteStart(x));
      bufs[x] := bufs[x].(dirty := true, hold := Writing);
      assert bufs[..] == c.bufs[x := bufs[x]];
    }

    /** bwrite, second half: the block is on disk. */
    method EndWrite(x: nat)
      requires Valid() && x < NBUF && Enabled(View(), WriteEnd(x))
      modifies this`disk, this`cur, this`pin, this`trace, bufs
      ensures Valid() && Takes(old(View()), WriteEnd(x), true, View())
      ensures trace == old(trace) + [Write(old(bufs[x]).bno, old(bufs[x]).data)]
    {
      ghost var c := View();
      StepIsSound(c, WriteEnd(x));
      assert BufOk(c, x);
      var b := bufs[x];
      disk := disk[b.bno := b.data];
      cur, pin, trace := cur[b.bno := b.data], pin - {b.bno}, trace + [Write(b.bno, b.data)];
      bufs[x] := b.(dirty := false, hold := Settled);
      assert bufs[..] == c.bufs[x := bufs[x]];
    }

    /** brelse, first half: give up the sleep lock. */
    method Leave(x: nat)
      requires Valid() && x < NBUF && Enabled(View(), Unlock(x))
      modifies bufs
      ensures Valid() && Takes(old(View()), Unlock(x), true, View())
    {
      ghost var c := View();
      StepIsSound(c, Unlock(x));
      bufs[x] := bufs[x].(hold := Unlocked);
      assert bufs[..] == c.bufs[x := bufs[x]];
    }

    /** A commit or a recovery begins. */
    ghost method BeginCommit()
      requires Valid() && !committing
      modifies this`committing
      ensures Valid() && committing && Takes(old(View()), CommitStart, true, View())
    {
      StepIsSound(View(), CommitStart);
      committing := true;
    }

    /** Everything is installed: log.lh.n = 0. */
    method ClearHead()
      requires Valid() && committing && pin == {}
      modifies this`lh
      ensures Valid() && lh == []
    {
      StepIsSound(View(), HeadRead([]));
      lh := [];
    }

    ghost method EndCommit()
      requires Valid() && committing && pin == {} && lh == []
      modifies this`committing
      ensures Valid() && !committing && Takes(old(View()), CommitEnd, true, View())
    {
      StepIsSound(View(), CommitEnd);
      committing := false;
    }

    /** read_head's result. */
    method SetHead(bs: seq<nat>)
      requires Valid() && committing && pin == {}
      modifies this`lh
      ensures Valid() && lh == bs && Takes(old(View()), HeadRead(bs), true, View())
    {
      StepIsSound(View(), HeadRead(bs));
      lh := bs;
    }

    /** Move x behind the head of the ring. */
    method Relink(x: nat)
      requires Valid() && x < NBUF
      modifies this`order, next, prev
      ensures order == ToFront(old(order), x) && Threaded(next[..], prev[..], order)
    {
      ThreadedIs(next[..], prev[..], order);
      ghost var n0: seq<nat>, p0: seq<nat> := next[..], prev[..];
      ghost var k := ToFrontKeeps(order, x);
      MoveToFront(n0, p0, order, k);
      var n: nat, p: nat := next[x], prev[x];
      prev[n] := p;
      next[p] := n;
      assert next[..] == n0[p := n] && prev[..] == p0[n := p];
      ghost var n1: seq<nat>, p1: seq<nat> := next[..], prev[..];
      var f: nat := next[HEAD];
      next[x] := f;
      prev[x] := HEAD;
      prev[f] := x;
      next[HEAD] := x;
      assert next[..] == n1[x := f][HEAD := x] && prev[..] == p1[x := HEAD][f := x];
      order := ToFront(order, x);
      ThreadedIs(next[..], prev[..], order);
    }

    /** brelse, second half: drop the reference; the last one moves the buffer to the front. */
    method Put(x: nat)
      requires Valid() && x < NBUF && Enabled(View(), Drop(x))
      modifies this`order, bufs, next, prev
      ensures Valid() && Takes(old(View()), Drop(x), true, View())
    {
      ghost var c := View();
      StepIsSound(c, Drop(x));
      if bufs[x].refcnt == 1 {
        Relink(x);
      }
      bufs[x] := bufs[x].(refcnt := bufs[x].refcnt - 1);
      assert bufs[..] == c.bufs[x := bufs[x]];
    }
  }

  lemma MoveToFront(next: seq<nat>, prev: seq<nat>, order: seq<nat>, k: nat)
    requires Shuffled(order) && k < NBUF && Ring(next, prev, [HEAD] + order)
    ensures var x := order[k];
            && next[x] <= NBUF && prev[x] <= NBUF
            && var n, p := next[prev[x] := next[x]], prev[next[x] := prev[x]];
            && n[HEAD] <= NBUF
            && Ring(n[x := n[HEAD]][HEAD := x], p[x := HEAD][n[HEAD] := x], [HEAD] + ([x] + (order[..k] + order[k + 1..])))
  {
    var ring, x := [HEAD] + order, order[k];
    Unlink(next, prev, ring, k + 1);
    var rest := ring[..k + 1] + ring[k + 2..];
    assert rest == [HEAD] + (order[..k] + order[k + 1..]);
    var n, p := next[prev[x] := next[x]], prev[next[x] := prev[x]];
    LinkFront(n, p, rest, x);
    assert [HEAD, x] + rest[1..] == [HEAD] + ([x] + (order[..k] + order[k + 1..]));
  }

  /** The step s leads from c to d, or panics. */
  ghost predicate Takes(c: Cache, s: Step, ok: bool, d: Cache) {
    && Inv(c) && Enabled(c, s)
    && if ok then Do(c, s) == Next(d) else Do(c, s) == Panic && d == c
  }

  lemma StepIsSound(c: Cache, s: Step)
    requires Sound(c) && Sized(c) && Enabled(c, s)
    ensures Inv(c) && (Do(c, s).Next? ==> Sound(Do(c, s).c) && Sized(Do(c, s).c) && Shuffled(Do(c, s).c.order))
  {
    SoundIs(c);
    if Do(c, s).Next? {
      StepKeepsInv(c, s);
      SoundIs(Do(c, s).c);
    }
  }
}
