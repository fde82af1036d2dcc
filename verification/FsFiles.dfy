/** file.c's fileread and filewrite over an inode, and what any history of writes and truncations means
    for the files as byte sequences. */
module FsFiles {
  import opened Blocks
  import opened Params
  import opened FsCodec
  import opened FsState
  import opened FsSpace
  import opened FsOps

  // ----- Writes compose

  lemma OverwriteTwice(s: seq<byte>, off: nat, a: seq<byte>, b: seq<byte>)
    requires off <= |s|
    ensures Overwrite(Overwrite(s, off, a), off + |a|, b) == Overwrite(s, off, a + b)
  {}

  /** Two adjacent writes are one write of the two pieces. */
  lemma WritesCompose(l: Layout, fs: Fs, t: Fs, u: Fs, i: nat, off: nat, a: seq<byte>, b: seq<byte>)
    requires FinishedWrite(l, fs, t, i, off, a) && FinishedWrite(l, t, u, i, off + |a|, b)
    ensures FinishedWrite(l, fs, u, i, off, a + b)
  {
    OverwriteTwice(Contents(l, fs, i), off, a, b);
  }

  /** FinishedWrite, kept closed: code that only hands it on need not look inside. */
  ghost predicate Spliced(l: Layout, fs: Fs, t: Fs, i: nat, off: nat, src: seq<byte>) {
    SplicedBehind(l, fs, t, i, off, src, 2)
  }

  ghost predicate SplicedBehind(l: Layout, fs: Fs, t: Fs, i: nat, off: nat, src: seq<byte>, turns: nat) {
    if turns == 0 then FinishedWrite(l, fs, t, i, off, src) else SplicedBehind(l, fs, t, i, off, src, turns - 1)
  }

  lemma SplicedIs(l: Layout, fs: Fs, t: Fs, i: nat, off: nat, src: seq<byte>)
    ensures Spliced(l, fs, t, i, off, src) <==> FinishedWrite(l, fs, t, i, off, src)
  {
    assert SplicedBehind(l, fs, t, i, off, src, 2) == SplicedBehind(l, fs, t, i, off, src, 1);
    assert SplicedBehind(l, fs, t, i, off, src, 1) == SplicedBehind(l, fs, t, i, off, src, 0);
  }

  /** filewrite after `done` bytes: nothing has happened yet, or the file is the old one with those bytes
      spliced in. */
  ghost predicate Progress(l: Layout, fs: Fs, t: Fs, i: nat, off: nat, src: seq<byte>, done: nat)
    requires done <= |src|
  {
    if done == 0 then t == fs else Spliced(l, fs, t, i, off, src[..done])
  }

  lemma ProgressStep(l: Layout, fs: Fs, t: Fs, u: Fs, i: nat, off: nat, src: seq<byte>, done: nat, m: nat)
    requires 0 < m && done + m <= |src| && Progress(l, fs, t, i, off, src, done)
    requires Spliced(l, t, u, i, off + done, src[done..done + m])
    ensures Progress(l, fs, u, i, off, src, done + m)
  {
    if done == 0 {
      assert src[0..m] == src[..m];
    } else {
      assert src[..done] + src[done..done + m] == src[..done + m];
      SplicedIs(l, fs, t, i, off, src[..done]);
      SplicedIs(l, t, u, i, off + done, src[done..done + m]);
      SplicedIs(l, fs, u, i, off, src[..done + m]);
      WritesCompose(l, fs, t, u, i, off, src[..done], src[done..done + m]);
    }
  }

  // ----- Histories

  /** What a finished operation did: store bytes in a file, or empty it. */
  datatype FileOp = Store(i: nat, off: nat, src: seq<byte>) | Empty(i: nat, typ: half)

  /** The operation's effect, and what every operation of fs.c leaves: each block in one place, the
      tables on disk. */
  ghost predicate Did(l: Layout, fs: Fs, t: Fs, op: FileOp) {
    && Kept(l, t, -1)
    && match op
       case Store(i, off, src) => FinishedWrite(l, fs, t, i, off, src)
       case Empty(i, typ) => Cleared(l, fs, t, i, typ)
  }

  /** states[k + 1] is what ops[k] made of states[k]. */
  ghost predicate History(l: Layout, states: seq<Fs>, ops: seq<FileOp>) {
    && |states| == |ops| + 1
    && forall k | 0 <= k < |ops| :: Did(l, states[k], states[k + 1], ops[k])
  }

  /** File j as a plain byte sequence after `ops`; an offset past the end leaves it alone. */
  function Replay(s: seq<byte>, j: nat, ops: seq<FileOp>): seq<byte> {
    if ops == [] then s
    else
      var before := Replay(s, j, ops[..|ops| - 1]);
      match ops[|ops| - 1]
      case Store(i, off, src) => if i == j && off <= |before| then Overwrite(before, off, src) else before
      case Empty(i, _) => if i == j then [] else before
  }

  /** After any history, every file that began without holes has none, and reads as its own operations
      replayed on a plain byte sequence: operations on other files leave no trace. Every block is in one
      place, and the tables are on disk. */
  lemma {:induction false} HistoryRefinesBytes(l: Layout, states: seq<Fs>, ops: seq<FileOp>, j: nat)
    requires History(l, states, ops) && Kept(l, states[0], -1)
    requires j < l.ninodes && Sizes(l, states[0]) && NoHoles(l, states[0], j)
    ensures Kept(l, states[|ops|], -1) && Sizes(l, states[|ops|]) && NoHoles(l, states[|ops|], j)
    ensures Contents(l, states[|ops|], j) == Replay(Contents(l, states[0], j), j, ops)
  {
    if ops != [] {
      var n := |ops| - 1;
      HistoryRefinesBytes(l, states[..n + 1], ops[..n], j);
      assert Did(l, states[n], states[n + 1], ops[n]);
      if ops[n].Empty? && ops[n].i == j {
        assert Contents(l, states[n + 1], j) == [];
      }
    }
  }

  // ----- Open files

  /** NoHoles, kept closed. */
  ghost predicate Solid(l: Layout, fs: Fs, i: nat)
    requires Sizes(l, fs) && i < l.ninodes
  {
    SolidBehind(l, fs, i, 2)
  }

  ghost predicate SolidBehind(l: Layout, fs: Fs, i: nat, turns: nat)
    requires Sizes(l, fs) && i < l.ninodes
  {
    if turns == 0 then NoHoles(l, fs, i) else SolidBehind(l, fs, i, turns - 1)
  }

  lemma SolidIs(l: Layout, fs: Fs, i: nat)
    requires Sizes(l, fs) && i < l.ninodes
    ensures Solid(l, fs, i) == NoHoles(l, fs, i)
  {
    assert SolidBehind(l, fs, i, 2) == SolidBehind(l, fs, i, 1) == SolidBehind(l, fs, i, 0);
  }

  /** With its own inode on disk, too, nothing is left to write back. */
  lemma SyncedIsKept(l: Layout, fs: Fs, i: nat)
    requires Sizes(l, fs) && i < l.ninodes && Kept(l, fs, i) && DiskInode(l, fs.blk, i) == fs.ino[i]
    ensures Kept(l, fs, -1)
  {
    assert KeptBehind(l, fs, i, 0);
    assert KeptBehind(l, fs, -1, 0);
  }

  datatype FileResult = Failed | Crashed | Count(n: nat)

  lemma FewIsFew(logged: set<nat>)
    requires FewBlocks({}, logged)
    ensures |logged| <= MAXOPBLOCKS
  {
    var more: set<nat> :| |more| <= MAXOPBLOCKS && logged <= {} + more;
    SubsetSize(logged, more);
  }

  /** struct file on an inode. */
  class OpenFile {
    const sys: FileSystem
    const ip: MemInode
    const readable: bool
    const writable: bool
    var off: nat

    constructor (sys: FileSystem, ip: MemInode, readable: bool, writable: bool)
      ensures this.sys == sys && this.ip == ip && this.readable == readable && this.writable == writable && off == 0
    {
      this.sys, this.ip, this.readable, this.writable, off := sys, ip, readable, writable, 0;
    }

    ghost predicate Valid()
      reads this, sys, ip
    {
      sys.Synced(ip) && Solid(sys.l, sys.State(), ip.inum) && ip.typ != T_DEV && off < 0x1_0000_0000
    }

    /** fileread: up to n bytes at the offset, which moves past them. */
    method Read(n: word) returns (ok: bool, data: seq<byte>)
      requires Valid()
      modifies this`off, sys, ip`addrs
      ensures sys.writes == old(sys.writes)
      ensures Valid() && sys.State() == old(sys.State()) && NoHoles(sys.l, sys.State(), ip.inum)
      ensures ok == (readable && old(off) <= ip.size && old(off) + n < 0x1_0000_0000)
      ensures ok ==>
                var file := Contents(sys.l, sys.State(), ip.inum);
                var len := if old(off) + n > |file| then |file| - old(off) else n;
                data == file[old(off)..old(off) + len] && off == old(off) + len
      ensures !ok ==> off == old(off) && data == []
    {
      SolidIs(sys.l, sys.State(), ip.inum);
      if !readable {
        return false, [];
      }
      var r := sys.Readi(ip, off, n);
      match r
      case Refused => return false, [];
      case Bytes(bytes) =>
        off := off + |bytes|;
        return true, bytes;
    }

    /** One turn of filewrite's loop: a transaction of its own. */
    method WriteChunk(bytes: seq<byte>) returns (r: WriteResult)
      requires Valid() && 0 < |bytes| <= MAX_CHUNK
      modifies this`off, sys, ip`addrs, ip`size
      ensures old(sys.writes) <= sys.writes
      ensures !r.Panic? ==> Valid() && |sys.logged| <= MAXOPBLOCKS && Kept(sys.l, sys.State(), -1)
      ensures r.Panic? ==
        (!BadRange(old(ip.size), old(off), |bytes|) && Short(sys.l, old(sys.State()), ip.inum, old(off), |bytes|))
      ensures r.Wrote? ==> Paying(sys.l, old(sys.State()), sys.State(), ip.inum, old(off), |bytes|)
      ensures r.Wrote? ==> ip.size == Longer(old(ip.size), old(off) + |bytes|)
      ensures r.Denied? <==> BadRange(old(ip.size), old(off), |bytes|)
      ensures r.Denied? ==> sys.State() == old(sys.State()) && ip.View() == old(ip.View()) && off == old(off)
      ensures r.Wrote? ==> r.n == |bytes| && off == old(off) + |bytes|
      ensures r.Wrote? ==> Spliced(sys.l, old(sys.State()), sys.State(), ip.inum, old(off), bytes)
    {
      SolidIs(sys.l, sys.State(), ip.inum);
      SyncedIsKept(sys.l, sys.State(), ip.inum);
      sys.logged := {};
      r := sys.Writei(ip, bytes, off);
      if r.Wrote? {
        off := off + r.n;
        FewIsFew(sys.logged);
        SyncedIsKept(sys.l, sys.State(), ip.inum);
        SolidIs(sys.l, sys.State(), ip.inum);
        SplicedIs(sys.l, old(sys.State()), sys.State(), ip.inum, old(off), bytes);
      }
    }

    /** The body of filewrite's loop: the next chunk of src, of which i bytes are stored. */
    method NextChunk(src: seq<byte>, i: nat, ghost fs: Fs, ghost start: nat, ghost size: nat) returns (w: WriteResult)
      requires Valid() && i < |src| && off == start + i && Sizes(sys.l, fs) && ip.inum < sys.l.ninodes
      requires Underway(sys.l, fs, sys.State(), ip.inum, start, src, i, size, ip.size)
      modifies this`off, sys, ip`addrs, ip`size
      ensures old(sys.writes) <= sys.writes
      ensures !w.Panic? ==> Valid() && |sys.logged| <= MAXOPBLOCKS
      ensures w.Panic? ==> Short(sys.l, fs, ip.inum, start, Accepted(size, start, |src|))
      ensures w.Denied? ==> BadRange(ip.size, off, Chunk(|src| - i)) && off == start + i
      ensures w.Denied? ==> Underway(sys.l, fs, sys.State(), ip.inum, start, src, i, size, ip.size)
      ensures w.Wrote? ==> w.n == Chunk(|src| - i) && off == start + i + w.n
      ensures w.Wrote? ==> Underway(sys.l, fs, sys.State(), ip.inum, start, src, i + w.n, size, ip.size)
    {
      var n1 := Chunk(|src| - i);
      ghost var t, before := sys.State(), ip.size;
      w := WriteChunk(src[i..i + n1]);
      if w.Panic? {
        UnderwayShort(sys.l, fs, t, ip.inum, start, src, i, size, before);
      } else if w.Wrote? {
        UnderwayStep(sys.l, fs, t, sys.State(), ip.inum, start, src, i, size, before);
      }
    }

    /** filewrite's loop: one chunk after the other, until all bytes are stored or a chunk is refused. */
    method WriteChunks(src: seq<byte>) returns (r: FileResult, ghost done: nat, ghost txs: seq<set<nat>>)
      requires Valid() && |src| < 0x8000_0000
      modifies this`off, sys, ip`addrs, ip`size
      ensures old(sys.writes) <= sys.writes
      ensures done <= |src| && forall k | 0 <= k < |txs| :: |txs[k]| <= MAXOPBLOCKS
      ensures r.Crashed? == Short(sys.l, old(sys.State()), ip.inum, old(off), Accepted(old(ip.size), old(off), |src|))
      ensures !r.Crashed? ==> Valid() && off == old(off) + done && done == Accepted(old(ip.size), old(off), |src|)
      ensures !r.Crashed? ==> Progress(sys.l, old(sys.State()), sys.State(), ip.inum, old(off), src, done)
      ensures !r.Crashed? ==> r == if done == |src| then Count(|src|) else Failed
    {
      done, txs := 0, [];
      ghost var fs, size := sys.State(), ip.size;
      UnderwayStart(sys.l, fs, ip.inum, off, src, size);
      var i := 0;
      while i < |src|
        invariant i == done <= |src| && Valid() && off == old(off) + i && old(sys.writes) <= sys.writes
        invariant Underway(sys.l, fs, sys.State(), ip.inum, old(off), src, i, size, ip.size)
        invariant forall k | 0 <= k < |txs| :: |txs[k]| <= MAXOPBLOCKS
      {
        var w := NextChunk(src, i, fs, old(off), size);
        if w.Panic? {
          return Crashed, done, txs;
        }
        txs := txs + [sys.logged];
        if w.Denied? {
          break;
        }
        i, done := i + w.n, done + w.n;
      }
      UnderwayEnd(sys.l, fs, sys.State(), ip.inum, old(off), src, i, size, ip.size);
      r := if i == |src| then Count(|src|) else Failed;
    }

    /** filewrite: each chunk is a transaction of at most MAXOPBLOCKS blocks, listed in `txs`. The chunks
        before the first one out of range are stored: the file is the old one with those `done` bytes
        spliced in at the old offset, and no other file changed. It panics exactly when the free blocks do
        not do for them. */
    method Write(src: seq<byte>) returns (r: FileResult, ghost done: nat, ghost txs: seq<set<nat>>)
      requires Valid() && |src| < 0x8000_0000
      modifies this`off, sys, ip`addrs, ip`size
      ensures old(sys.writes) <= sys.writes
      ensures done <= |src| && forall k | 0 <= k < |txs| :: |txs[k]| <= MAXOPBLOCKS
      ensures r.Crashed? ==
        (writable && Short(sys.l, old(sys.State()), ip.inum, old(off), Accepted(old(ip.size), old(off), |src|)))
      ensures !r.Crashed? ==> Valid() && off == old(off) + done
      ensures !r.Crashed? ==> done == if writable then Accepted(old(ip.size), old(off), |src|) else 0
      ensures !r.Crashed? && done == 0 ==> sys.State() == old(sys.State())
      ensures !r.Crashed? && done > 0 ==> FinishedWrite(sys.l, old(sys.State()), sys.State(), ip.inum, old(off), src[..done])
      ensures !r.Crashed? ==> r == if writable && done == |src| then Count(|src|) else Failed
      ensures !r.Crashed? && writable ==>
        (done == |src| <==> |src| == 0 || (old(off) <= old(ip.size) && old(off) + |src| <= MAX_FILE))
      ensures FreeCount(old(sys.used)) > NDIRECT + NINDIRECT ==> !r.Crashed?
    {
      AcceptedIs(ip.size, off, |src|);
      if FreeCount(sys.used) > NDIRECT + NINDIRECT {
        NeededAtMost(sys.l, sys.State(), ip.inum, off, Accepted(ip.size, off, |src|));
      }
      if !writable {
        return Failed, 0, [];
      }
      ghost var fs := sys.State();
      r, done, txs := WriteChunks(src);
      if !r.Crashed? && done > 0 {
        SplicedIs(sys.l, fs, sys.State(), ip.inum, old(off), src[..done]);
      }
    }
  }

  /** The largest file, in bytes. */
  const MAX_FILE := (NDIRECT + NINDIRECT) * BSIZE

  /** filewrite's n1 */
  function Chunk(left: nat): nat { if left > MAX_CHUNK then MAX_CHUNK else left }

  /** The size of a file of `size` bytes once something is stored up to `end`. */
  function Longer(size: nat, end: nat): nat { if end > size then end else size }

  /** How many of n bytes filewrite stores at `off`: the chunks up to the first that is out of range. */
  function Accepted(size: nat, off: nat, n: nat): (k: nat)
    ensures k <= n && (k > 0 ==> off + k <= MAXFILE * BSIZE)
    decreases n
  {
    var c := Chunk(n);
    if n == 0 || BadRange(size, off, c) then 0 else c + Accepted(Longer(size, off + c), off + c, n - c)
  }

  /** What that comes to: nothing past the end of the file, everything that stays below the largest size,
      and of anything longer the whole chunks below it. */
  lemma {:induction false} AcceptedIs(size: nat, off: nat, n: nat)
    ensures Accepted(size, off, n) ==
            if off > size || off > MAX_FILE then 0 else if off + n <= MAX_FILE then n else (MAX_FILE - off) / 1536 * 1536
    decreases n
  {
    var c := Chunk(n);
    if n > 0 && off <= size && off + c <= MAX_FILE {
      AcceptedIs(Longer(size, off + c), off + c, n - c);
    }
  }

  /** No more is ever needed than all blocks of a file and its indirect block. */
  lemma NeededAtMost(l: Layout, fs: Fs, i: nat, off: nat, n: nat)
    requires Sizes(l, fs) && i < l.ninodes && FreeCount(fs.used) > NDIRECT + NINDIRECT
    ensures !Short(l, fs, i, off, n)
  {
    var lo, hi := off / BSIZE, Reach(off, n);
    UptoCount(MAXFILE);
    assert Missing(l, fs, i, lo, hi) <= Upto(MAXFILE);
    SubsetSize(Missing(l, fs, i, lo, hi), Upto(MAXFILE));
  }

  /** The blocks taken for n bytes, or nothing was written yet. */
  ghost predicate Paid(l: Layout, fs: Fs, t: Fs, i: nat, off: nat, n: nat) {
    if n == 0 then t == fs && Sizes(l, fs) && i < l.ninodes else Paying(l, fs, t, i, off, n)
  }

  lemma NothingPaid(l: Layout, fs: Fs, i: nat, off: nat)
    requires Sizes(l, fs) && i < l.ninodes
    ensures Paid(l, fs, fs, i, off, 0)
  {}

  lemma PaidStep(l: Layout, fs: Fs, t: Fs, u: Fs, i: nat, off: nat, n: nat, m: nat)
    requires Paid(l, fs, t, i, off, n) && Paying(l, t, u, i, off + n, m) && m > 0
    ensures Paid(l, fs, u, i, off, n + m)
  {
    if n > 0 {
      PayingIs(l, fs, t, i, off, n);
      PayingIs(l, t, u, i, off + n, m);
      PayingIs(l, fs, u, i, off, n + m);
      ReachSteps(off, n, m);
      SuppliedThen(l, fs, t, u, i, off / BSIZE, Reach(off, n), (off + n) / BSIZE, Reach(off, n + m));
    }
  }

  /** A chunk finds too few blocks: there were too few for all that is to be stored. */
  lemma PaidShort(l: Layout, fs: Fs, t: Fs, i: nat, off: nat, n: nat, m: nat, total: nat)
    requires Paid(l, fs, t, i, off, n) && Sizes(l, fs) && Sizes(l, t) && i < l.ninodes && Short(l, t, i, off + n, m)
    requires 0 < m && n + m <= total && off + total <= MAXFILE * BSIZE
    ensures Short(l, fs, i, off, total)
  {
    ReachSteps(off, n + m, total - n - m);
    if n > 0 {
      PayingIs(l, fs, t, i, off, n);
      ReachSteps(off, n, m);
      NeededThen(l, fs, t, i, off / BSIZE, Reach(off, n), (off + n) / BSIZE, Reach(off, n + m));
    }
    FsSpace.NeededGrows(l, fs, i, off / BSIZE, Reach(off, n + m), Reach(off, total));
  }

  lemma PaidEnough(l: Layout, fs: Fs, t: Fs, i: nat, off: nat, n: nat)
    requires Paid(l, fs, t, i, off, n)
    ensures Sizes(l, fs) && i < l.ninodes && !Short(l, fs, i, off, n)
  {
    if n > 0 {
      PayingIs(l, fs, t, i, off, n);
    } else {
      assert Missing(l, fs, i, off / BSIZE, off / BSIZE) == {};
    }
  }

  /** filewrite after `done` bytes, kept closed: they are in the file, their blocks are accounted for, and
      what is left to store is the rest of what will be accepted. */
  ghost predicate Underway(l: Layout, fs: Fs, t: Fs, i: nat, off: nat, src: seq<byte>, done: nat, size0: nat, size: nat) {
    UnderwayBehind(l, fs, t, i, off, src, done, size0, size, 2)
  }

  ghost predicate UnderwayBehind(l: Layout, fs: Fs, t: Fs, i: nat, off: nat, src: seq<byte>, done: nat, size0: nat, size: nat, turns: nat) {
    if turns == 0 then
      && done <= |src| && Progress(l, fs, t, i, off, src, done) && Paid(l, fs, t, i, off, done)
      && Accepted(size0, off, |src|) == done + Accepted(size, off + done, |src| - done)
    else
      UnderwayBehind(l, fs, t, i, off, src, done, size0, size, turns - 1)
  }

  lemma UnderwayIs(l: Layout, fs: Fs, t: Fs, i: nat, off: nat, src: seq<byte>, done: nat, size0: nat, size: nat)
    requires done <= |src|
    ensures Underway(l, fs, t, i, off, src, done, size0, size) ==
            (Progress(l, fs, t, i, off, src, done) && Paid(l, fs, t, i, off, done) &&
             Accepted(size0, off, |src|) == done + Accepted(size, off + done, |src| - done))
  {
    assert UnderwayBehind(l, fs, t, i, off, src, done, size0, size, 2) == UnderwayBehind(l, fs, t, i, off, src, done, size0, size, 1);
    assert UnderwayBehind(l, fs, t, i, off, src, done, size0, size, 1) == UnderwayBehind(l, fs, t, i, off, src, done, size0, size, 0);
  }

  lemma UnderwayStart(l: Layout, fs: Fs, i: nat, off: nat, src: seq<byte>, size: nat)
    requires Sizes(l, fs) && i < l.ninodes
    ensures Underway(l, fs, fs, i, off, src, 0, size, size)
  {
    UnderwayIs(l, fs, fs, i, off, src, 0, size, size);
  }

  lemma UnderwayStep(l: Layout, fs: Fs, t: Fs, u: Fs, i: nat, off: nat, src: seq<byte>, done: nat, size0: nat, size: nat)
    requires done < |src| && Underway(l, fs, t, i, off, src, done, size0, size)
    requires var m := Chunk(|src| - done);
      && !BadRange(size, off + done, m) && Spliced(l, t, u, i, off + done, src[done..done + m])
      && Paying(l, t, u, i, off + done, m)
    ensures var m := Chunk(|src| - done);
      Underway(l, fs, u, i, off, src, done + m, size0, Longer(size, off + done + m))
  {
    var m := Chunk(|src| - done);
    UnderwayIs(l, fs, t, i, off, src, done, size0, size);
    UnderwayIs(l, fs, u, i, off, src, done + m, size0, Longer(size, off + done + m));
    ProgressStep(l, fs, t, u, i, off, src, done, m);
    PaidStep(l, fs, t, u, i, off, done, m);
  }

  lemma UnderwayShort(l: Layout, fs: Fs, t: Fs, i: nat, off: nat, src: seq<byte>, done: nat, size0: nat, size: nat)
    requires done < |src| && Underway(l, fs, t, i, off, src, done, size0, size) && Sizes(l, fs) && Sizes(l, t) && i < l.ninodes
    requires !BadRange(size, off + done, Chunk(|src| - done)) && Short(l, t, i, off + done, Chunk(|src| - done))
    ensures Short(l, fs, i, off, Accepted(size0, off, |src|))
  {
    UnderwayIs(l, fs, t, i, off, src, done, size0, size);
    PaidShort(l, fs, t, i, off, done, Chunk(|src| - done), Accepted(size0, off, |src|));
  }

  lemma UnderwayEnd(l: Layout, fs: Fs, t: Fs, i: nat, off: nat, src: seq<byte>, done: nat, size0: nat, size: nat)
    requires done <= |src| && Underway(l, fs, t, i, off, src, done, size0, size)
    requires done == |src| || BadRange(size, off + done, Chunk(|src| - done))
    ensures Progress(l, fs, t, i, off, src, done) && done == Accepted(size0, off, |src|)
    ensures Sizes(l, fs) && i < l.ninodes && !Short(l, fs, i, off, done)
  {
    UnderwayIs(l, fs, t, i, off, src, done, size0, size);
    PaidEnough(l, fs, t, i, off, done);
  }
}
